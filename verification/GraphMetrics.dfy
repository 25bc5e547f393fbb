/** Quality metrics of an extracted graph against a gold set (backend/scripts/evaluate_scene_graph.py),
    over the reals. */
module GraphMetrics {
  import opened Common

  /** An entity is a type and a name. */
  datatype Entity = Entity(kind: string, name: string)

  datatype Relation = Relation(source: string, relation: string, target: string)

  datatype Metrics = Metrics(precision: real, recall: real, f1: real)

  function Ratio(numerator: int, denominator: int, empty: real): real {
    if denominator != 0 then numerator as real / denominator as real else empty
  }

  function F1(precision: real, recall: real): real {
    if precision + recall != 0.0 then 2.0 * precision * recall / (precision + recall) else 0.0
  }

  function Score<T>(predicted: set<T>, gold: set<T>): Metrics {
    var matches := |predicted * gold|;
    var p, r := Ratio(matches, |predicted|, 1.0), Ratio(matches, |gold|, 1.0);
    Metrics(p, r, F1(p, r))
  }

  function NamesOf(entities: set<Entity>): set<string> {
    set e | e in entities :: e.name
  }

  /** One of the predicted types for every predicted name; which one, when a name has several, depends
      on the iteration order. */
  ghost predicate ByName(predicted: set<Entity>, kinds: map<string, string>) {
    && kinds.Keys == NamesOf(predicted)
    && forall n :: n in kinds ==> Entity(kinds[n], n) in predicted
  }

  function CorrectlyTyped(gold: set<Entity>, kinds: map<string, string>): set<Entity> {
    set e | e in gold && e.name in kinds && kinds[e.name] == e.kind
  }

  function TypeAccuracy(gold: set<Entity>, kinds: map<string, string>): real {
    Ratio(|CorrectlyTyped(gold, kinds)|, |NamesOf(gold) * kinds.Keys|, 1.0)
  }

  function Trues(flags: seq<bool>): nat {
    if flags == [] then 0 else Trues(flags[..|flags| - 1]) + if flags[|flags| - 1] then 1 else 0
  }

  lemma RatioBounds(n: nat, d: nat, empty: real)
    requires n <= d && 0.0 <= empty <= 1.0
    ensures 0.0 <= Ratio(n, d, empty) <= 1.0
    ensures d > 0 ==> (Ratio(n, d, empty) == 1.0 <==> n == d) && (Ratio(n, d, empty) == 0.0 <==> n == 0)
  {
  }

  lemma Product(x: real, y: real)
    requires 0.0 <= x && 0.0 <= y
    ensures 0.0 <= x * y
  {
  }

  lemma NonNegative(x: real, s: real)
    requires 0.0 <= x * s && 0.0 < s
    ensures 0.0 <= x
  {
  }

  lemma DistanceToF1(p: real, r: real, f: real)
    requires 0.0 <= p <= r && 0.0 < p + r && f * (p + r) == 2.0 * p * r
    ensures p <= f <= r
  {
    Product(p, r - p);
    Product(r, r - p);
    assert (f - p) * (p + r) == p * (r - p);
    assert (r - f) * (p + r) == r * (r - p);
    NonNegative(f - p, p + r);
    NonNegative(r - f, p + r);
  }

  /** F1 lies between the smaller and the larger of precision and recall. */
  lemma F1Between(p: real, r: real)
    requires 0.0 <= p && 0.0 <= r
    ensures (if p < r then p else r) <= F1(p, r) <= (if p < r then r else p)
  {
    if p + r != 0.0 {
      var f := F1(p, r);
      assert f * (p + r) == 2.0 * p * r;
      if p <= r { DistanceToF1(p, r, f); } else { DistanceToF1(r, p, f); }
    }
  }

  lemma MatchesWithin<T>(predicted: set<T>, gold: set<T>)
    ensures |predicted * gold| <= |predicted| && |predicted * gold| <= |gold|
    ensures |predicted * gold| == |predicted| == |gold| <==> predicted == gold
  {
    var m := predicted * gold;
    assert predicted == m + (predicted - m) && gold == m + (gold - m);
    assert |predicted| == |m| + |predicted - m| && |gold| == |m| + |gold - m|;
  }

  /** Every precision, recall and F1 lies between 0 and 1, and all are 1 only for a perfect prediction. */
  lemma ScoreBounds<T>(predicted: set<T>, gold: set<T>)
    ensures var m := Score(predicted, gold);
            && 0.0 <= m.precision <= 1.0 && 0.0 <= m.recall <= 1.0 && 0.0 <= m.f1 <= 1.0
            && (m.precision == 1.0 && m.recall == 1.0 <==> predicted == gold)
  {
    MatchesWithin(predicted, gold);
    RatioBounds(|predicted * gold|, |predicted|, 1.0);
    RatioBounds(|predicted * gold|, |gold|, 1.0);
    var m := Score(predicted, gold);
    F1Between(m.precision, m.recall);
    if |predicted| == 0 { assert predicted == {}; }
    if |gold| == 0 { assert gold == {}; }
  }

  /** Precision is the share of the predictions that are matches, recall the share of the gold elements;
      both are 1 when there is nothing to divide by. */
  lemma ScoreIs<T>(predicted: set<T>, gold: set<T>)
    ensures var m := Score(predicted, gold);
            && (if predicted == {} then m.precision == 1.0
                else m.precision * |predicted| as real == |predicted * gold| as real)
            && (if gold == {} then m.recall == 1.0 else m.recall * |gold| as real == |predicted * gold| as real)
  {
    RatioTimes(|predicted * gold|, |predicted|, 1.0);
    RatioTimes(|predicted * gold|, |gold|, 1.0);
  }

  lemma RatioTimes(n: int, d: int, empty: real)
    ensures if d == 0 then Ratio(n, d, empty) == empty else Ratio(n, d, empty) * d as real == n as real
  {
  }

  /** F1 is twice the matches over the two sizes: the harmonic mean counts every element once, also
      when one side is empty. */
  lemma F1Counts<T>(predicted: set<T>, gold: set<T>)
    ensures Score(predicted, gold).f1 == Ratio(2 * |predicted * gold|, |predicted| + |gold|, 1.0)
  {
  }

  /** Each shared name is correctly typed at most once, whatever type the lookup kept for it. */
  lemma {:induction false} TypedInjects(typed: set<Entity>, kinds: map<string, string>)
    requires forall e :: e in typed ==> e.name in kinds && kinds[e.name] == e.kind
    ensures |NamesOf(typed)| == |typed|
    decreases |typed|
  {
    if e :| e in typed {
      var rest := typed - {e};
      TypedInjects(rest, kinds);
      assert NamesOf(typed) == NamesOf(rest) + {e.name};
      forall f | f in rest ensures f.name != e.name {
        assert f != e;
      }
    } else {
      assert typed == {};
    }
  }

  lemma Subset<T>(a: set<T>, b: set<T>)
    requires a <= b
    ensures |a| <= |b|
  {
    assert b == a + (b - a);
  }

  /** The type accuracy lies between 0 and 1 even when a name has several gold or predicted types. */
  lemma TypeAccuracyBounds(predicted: set<Entity>, gold: set<Entity>, kinds: map<string, string>)
    requires ByName(predicted, kinds)
    ensures 0.0 <= TypeAccuracy(gold, kinds) <= 1.0
    ensures CorrectlyTyped(gold, kinds) <= predicted * gold
  {
    var typed := CorrectlyTyped(gold, kinds);
    TypedInjects(typed, kinds);
    assert NamesOf(typed) <= NamesOf(gold) * kinds.Keys;
    Subset(NamesOf(typed), NamesOf(gold) * kinds.Keys);
    RatioBounds(|typed|, |NamesOf(gold) * kinds.Keys|, 1.0);
  }

  ghost predicate OneTypeEach(entities: set<Entity>) {
    forall e, f :: e in entities && f in entities && e.name == f.name ==> e == f
  }

  lemma TypedAreMatches(predicted: set<Entity>, gold: set<Entity>, kinds: map<string, string>)
    requires ByName(predicted, kinds) && OneTypeEach(predicted)
    ensures CorrectlyTyped(gold, kinds) == predicted * gold && kinds.Keys == NamesOf(predicted)
  {
    forall e | e in predicted ensures e.name in kinds && kinds[e.name] == e.kind {
      assert e.name in NamesOf(predicted);
      assert Entity(kinds[e.name], e.name) in predicted;
    }
  }

  /** If every predicted name has one type, the correctly typed entities are the matches, and the accuracy
      is their share of the shared names. */
  lemma TypeAccuracyIs(predicted: set<Entity>, gold: set<Entity>, kinds: map<string, string>)
    requires ByName(predicted, kinds) && OneTypeEach(predicted)
    ensures var shared := |NamesOf(predicted) * NamesOf(gold)|;
            if shared == 0 then TypeAccuracy(gold, kinds) == 1.0
            else TypeAccuracy(gold, kinds) * shared as real == |predicted * gold| as real
  {
    hide ByName, NamesOf, OneTypeEach, CorrectlyTyped, TypeAccuracy;
    TypedAreMatches(predicted, gold, kinds);
    assert NamesOf(gold) * kinds.Keys == NamesOf(predicted) * NamesOf(gold);
    AccuracyTimes(gold, kinds, |NamesOf(predicted) * NamesOf(gold)|);
  }

  lemma AccuracyTimes(gold: set<Entity>, kinds: map<string, string>, shared: nat)
    requires shared == |NamesOf(gold) * kinds.Keys|
    ensures if shared == 0 then TypeAccuracy(gold, kinds) == 1.0
            else TypeAccuracy(gold, kinds) * shared as real == |CorrectlyTyped(gold, kinds)| as real
  {
    RatioTimes(|CorrectlyTyped(gold, kinds)|, shared, 1.0);
    hide Ratio, NamesOf, CorrectlyTyped;
  }

  lemma TruesAre(flags: seq<bool>)
    ensures Trues(flags) == |set i | 0 <= i < |flags| && flags[i]|
  {
    TruesUpTo(flags, |flags|);
    assert flags[..|flags|] == flags;
  }

  lemma {:induction false} TruesUpTo(flags: seq<bool>, n: nat)
    requires n <= |flags|
    ensures Trues(flags[..n]) == |set i | 0 <= i < n && flags[i]|
  {
    if n > 0 {
      TruesUpTo(flags, n - 1);
      assert flags[..n][..n - 1] == flags[..n - 1];
      var before := set i | 0 <= i < n - 1 && flags[i];
      assert (set i | 0 <= i < n && flags[i]) == before + (if flags[n - 1] then {n - 1} else {});
    }
  }

  lemma {:induction false} TruesWithin(flags: seq<bool>)
    ensures Trues(flags) <= |flags|
    ensures Trues(flags) == |flags| <==> forall i :: 0 <= i < |flags| ==> flags[i]
  {
    if flags != [] {
      TruesWithin(flags[..|flags| - 1]);
    }
  }

  /** So do the rates of supported evidence and of valid links; with nothing to check they are 1. */
  lemma FlagRateBounds(flags: seq<bool>)
    ensures 0.0 <= Ratio(Trues(flags), |flags|, 1.0) <= 1.0
    ensures Ratio(Trues(flags), |flags|, 1.0) == 1.0 <==> forall i :: 0 <= i < |flags| ==> flags[i]
  {
    TruesWithin(flags);
    RatioBounds(Trues(flags), |flags|, 1.0);
  }

  // ---------------------------------------------------------------- the whole report

  datatype GraphQualityMetrics = GraphQualityMetrics(
    entities: Metrics, relations: Metrics, typeAccuracy: real, entityLinkAccuracy: real, evidenceSupportRate: real,
    duplicateEntityRate: real, schemaViolationRate: real, isolatedEntityRate: real)

  /** What the records of a file add up to. */
  datatype Evidence = Evidence(
    predictedEntities: set<Entity>, goldEntities: set<Entity>, predictedRelations: set<Relation>,
    goldRelations: set<Relation>, evidence: seq<bool>, links: seq<bool>,
    duplicates: int, violations: int, isolated: int)
  {
    function Plus(o: Evidence): Evidence {
      Evidence(predictedEntities + o.predictedEntities, goldEntities + o.goldEntities,
               predictedRelations + o.predictedRelations, goldRelations + o.goldRelations,
               evidence + o.evidence, links + o.links,
               duplicates + o.duplicates, violations + o.violations, isolated + o.isolated)
    }
  }

  function CalculateGraphMetrics(e: Evidence, kinds: map<string, string>): GraphQualityMetrics {
    var total := |e.predictedEntities|;
    GraphQualityMetrics(
      Score(e.predictedEntities, e.goldEntities), Score(e.predictedRelations, e.goldRelations),
      TypeAccuracy(e.goldEntities, kinds), Ratio(Trues(e.links), |e.links|, 1.0),
      Ratio(Trues(e.evidence), |e.evidence|, 1.0),
      Ratio(e.duplicates, total, 0.0), Ratio(e.violations, total + |e.predictedRelations|, 0.0),
      Ratio(e.isolated, total, 0.0))
  }

  /** The rates of the report: links and evidence by their flags, duplicates and isolated entities per
      predicted entity, violations per predicted entity or relation. */
  lemma ReportIs(e: Evidence, kinds: map<string, string>)
    ensures var m, n, k := CalculateGraphMetrics(e, kinds), |e.predictedEntities|, |e.predictedRelations|;
            && m.entities == Score(e.predictedEntities, e.goldEntities)
            && m.relations == Score(e.predictedRelations, e.goldRelations)
            && (if e.links == [] then m.entityLinkAccuracy == 1.0
                else m.entityLinkAccuracy * |e.links| as real == |set i | 0 <= i < |e.links| && e.links[i]| as real)
            && (if e.evidence == [] then m.evidenceSupportRate == 1.0
                else m.evidenceSupportRate * |e.evidence| as real ==
                     |set i | 0 <= i < |e.evidence| && e.evidence[i]| as real)
            && (if n == 0 then m.duplicateEntityRate == 0.0
                else m.duplicateEntityRate * n as real == e.duplicates as real)
            && (if n == 0 then m.isolatedEntityRate == 0.0 else m.isolatedEntityRate * n as real == e.isolated as real)
            && (if n + k == 0 then m.schemaViolationRate == 0.0
                else m.schemaViolationRate * (n + k) as real == e.violations as real)
  {
    hide Ratio, Score, TypeAccuracy, Trues;
    var n, k := |e.predictedEntities|, |e.predictedRelations|;
    TruesAre(e.links);
    TruesAre(e.evidence);
    RatioTimes(Trues(e.links), |e.links|, 1.0);
    RatioTimes(Trues(e.evidence), |e.evidence|, 1.0);
    RatioTimes(e.duplicates, n, 0.0);
    RatioTimes(e.isolated, n, 0.0);
    RatioTimes(e.violations, n + k, 0.0);
  }

  predicate Unit(x: real) {
    0.0 <= x <= 1.0
  }

  predicate UnitScore(m: Metrics) {
    Unit(m.precision) && Unit(m.recall) && Unit(m.f1)
      && (if m.precision < m.recall then m.precision else m.recall) <= m.f1
      && m.f1 <= (if m.precision < m.recall then m.recall else m.precision)
  }

  /** Of the report, everything but the three rates of reported problems lies between 0 and 1, and each
      F1 between its precision and its recall. */
  lemma ReportBounds(e: Evidence, kinds: map<string, string>)
    requires ByName(e.predictedEntities, kinds)
    ensures var m := CalculateGraphMetrics(e, kinds);
            && UnitScore(m.entities) && UnitScore(m.relations) && Unit(m.typeAccuracy)
            && Unit(m.entityLinkAccuracy) && Unit(m.evidenceSupportRate)
  {
    var m := CalculateGraphMetrics(e, kinds);
    ScoreBounds(e.predictedEntities, e.goldEntities);
    ScoreBounds(e.predictedRelations, e.goldRelations);
    F1Between(m.entities.precision, m.entities.recall);
    F1Between(m.relations.precision, m.relations.recall);
    TypeAccuracyBounds(e.predictedEntities, e.goldEntities, kinds);
    FlagRateBounds(e.links);
    FlagRateBounds(e.evidence);
  }

  /** A line of the file: blank, rejected by one of its checks, or a record. */
  datatype Line = Blank | Malformed | Record(evidence: Evidence)

  const NOTHING := Evidence({}, {}, {}, {}, [], [], 0, 0, 0)

  function Collected(lines: seq<Line>): Evidence {
    if lines == [] then NOTHING
    else if lines[|lines| - 1].Record? then Collected(lines[..|lines| - 1]).Plus(lines[|lines| - 1].evidence)
    else Collected(lines[..|lines| - 1])
  }

  /** The accumulation loop; it fails at the first malformed line and reports its number. */
  method EvaluateJsonl(lines: seq<Line>) returns (total: Evidence, malformed: Option<nat>)
    ensures malformed.None? ==> total == Collected(lines) && forall i :: 0 <= i < |lines| ==> !lines[i].Malformed?
    ensures malformed.Some? ==>
              && 1 <= malformed.value <= |lines| && lines[malformed.value - 1].Malformed?
              && forall i :: 0 <= i < malformed.value - 1 ==> !lines[i].Malformed?
  {
    total := NOTHING;
    for n := 0 to |lines|
      invariant total == Collected(lines[..n])
      invariant forall i :: 0 <= i < n ==> !lines[i].Malformed?
    {
      assert lines[..n + 1][..n] == lines[..n];
      match lines[n] {
        case Blank =>
        case Malformed => return total, Some(n + 1);
        case Record(evidence) => total := total.Plus(evidence);
      }
    }
    assert lines[..|lines|] == lines;
    return total, None;
  }

  /** One more record: its sets are united with what was collected, its flags appended, its counts added. */
  lemma CollectedNext(lines: seq<Line>, r: Evidence)
    ensures var t, u := Collected(lines), Collected(lines + [Record(r)]);
            && u.predictedEntities == t.predictedEntities + r.predictedEntities
            && u.goldEntities == t.goldEntities + r.goldEntities
            && u.predictedRelations == t.predictedRelations + r.predictedRelations
            && u.goldRelations == t.goldRelations + r.goldRelations
            && u.evidence == t.evidence + r.evidence && u.links == t.links + r.links
            && u.duplicates == t.duplicates + r.duplicates && u.violations == t.violations + r.violations
            && u.isolated == t.isolated + r.isolated
    ensures Collected(lines + [Blank]) == Collected(lines) && Collected([]) == NOTHING
  {
    assert (lines + [Blank])[..|lines|] == lines;
  }

  /** What is collected is what some record of the file has. */
  lemma {:induction false} CollectedAre(lines: seq<Line>, e: Entity, r: Relation)
    ensures e in Collected(lines).predictedEntities <==>
            exists i :: 0 <= i < |lines| && lines[i].Record? && e in lines[i].evidence.predictedEntities
    ensures e in Collected(lines).goldEntities <==>
            exists i :: 0 <= i < |lines| && lines[i].Record? && e in lines[i].evidence.goldEntities
    ensures r in Collected(lines).predictedRelations <==>
            exists i :: 0 <= i < |lines| && lines[i].Record? && r in lines[i].evidence.predictedRelations
    ensures r in Collected(lines).goldRelations <==>
            exists i :: 0 <= i < |lines| && lines[i].Record? && r in lines[i].evidence.goldRelations
  {
    if lines != [] {
      var before, last := lines[..|lines| - 1], lines[|lines| - 1];
      CollectedAre(before, e, r);
      assert forall i :: 0 <= i < |before| ==> before[i] == lines[i];
      assert lines[|before|] == last;
    }
  }

  /** Where the file is cut into two makes no difference: the parts add up to the whole. */
  lemma {:induction false} CollectedConcat(xs: seq<Line>, ys: seq<Line>)
    ensures Collected(xs + ys) == Collected(xs).Plus(Collected(ys))
  {
    if ys == [] {
      assert xs + ys == xs;
      PlusNothing(Collected(xs));
    } else {
      CollectedConcat(xs, ys[..|ys| - 1]);
      assert (xs + ys)[..|xs + ys| - 1] == xs + ys[..|ys| - 1];
      if ys[|ys| - 1].Record? {
        PlusAssociates(Collected(xs), Collected(ys[..|ys| - 1]), ys[|ys| - 1].evidence);
      }
    }
  }

  lemma PlusNothing(e: Evidence)
    ensures e.Plus(NOTHING) == e
  {
  }

  lemma PlusAssociates(a: Evidence, b: Evidence, c: Evidence)
    ensures a.Plus(b).Plus(c) == a.Plus(b.Plus(c))
  {
  }
}
