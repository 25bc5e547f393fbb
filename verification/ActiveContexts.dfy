/** Active contexts of a session (backend/app/agent/active_contexts.py): normalisation of the list of
    skills and fixed policies, its storage, and the character budgets of the policies. */
module ActiveContexts {
  import opened Common

  // ---------------------------------------------------------------- strings

  /** White space as `str.strip` knows it, by code point. */
  predicate IsSpace(c: char) {
    var n := c as int;
    9 <= n <= 13 || 28 <= n <= 32 || n == 133 || n == 160 || n == 5760 || 8192 <= n <= 8202
    || n == 8232 || n == 8233 || n == 8239 || n == 8287 || n == 12288
  }

  function StripLeft(s: string): string {
    if s != "" && IsSpace(s[0]) then StripLeft(s[1..]) else s
  }

  function StripRight(s: string): string {
    if s != "" && IsSpace(s[|s| - 1]) then StripRight(s[..|s| - 1]) else s
  }

  function Strip(s: string): string {
    StripRight(StripLeft(s))
  }

  predicate EndsInSpace(s: string) {
    s != "" && IsSpace(s[|s| - 1])
  }

  predicate StartsInSpace(s: string) {
    s != "" && IsSpace(s[0])
  }

  lemma {:induction false} StripLeftStarts(s: string)
    ensures !StartsInSpace(StripLeft(s)) && |StripLeft(s)| <= |s|
  {
    if StartsInSpace(s) {
      StripLeftStarts(s[1..]);
    }
  }

  lemma {:induction false} StripRightEnds(s: string)
    ensures !EndsInSpace(StripRight(s)) && |StripRight(s)| <= |s|
    ensures StripRight(s) == s[..|StripRight(s)|]
    ensures s != "" && !StartsInSpace(s) ==> StripRight(s) != ""
  {
    if EndsInSpace(s) {
      StripRightEnds(s[..|s| - 1]);
    }
  }

  /** A stripped string neither starts nor ends in a space; stripping it again changes nothing. */
  lemma StripTrims(s: string)
    ensures !StartsInSpace(Strip(s)) && !EndsInSpace(Strip(s)) && |Strip(s)| <= |s|
    ensures Strip(Strip(s)) == Strip(s)
    ensures !StartsInSpace(s) && !EndsInSpace(s) ==> Strip(s) == s
  {
    StripLeftStarts(s);
    StripRightEnds(StripLeft(s));
  }

  ghost predicate AllSpace(s: string) {
    forall c :: c in s ==> IsSpace(c)
  }

  lemma {:induction false} StripLeftDrops(s: string) returns (front: string)
    ensures AllSpace(front) && s == front + StripLeft(s)
  {
    if StartsInSpace(s) {
      var rest := StripLeftDrops(s[1..]);
      front := [s[0]] + rest;
    } else {
      front := "";
    }
  }

  lemma {:induction false} StripRightDrops(s: string) returns (back: string)
    ensures AllSpace(back) && s == StripRight(s) + back
  {
    if EndsInSpace(s) {
      var rest := StripRightDrops(s[..|s| - 1]);
      back := rest + [s[|s| - 1]];
      assert s == s[..|s| - 1] + [s[|s| - 1]];
    } else {
      back := "";
    }
  }

  /** Stripping drops spaces, from both ends only. */
  lemma StripDropsSpaces(s: string) returns (front: string, back: string)
    ensures AllSpace(front) && AllSpace(back) && s == front + Strip(s) + back
  {
    front := StripLeftDrops(s);
    back := StripRightDrops(StripLeft(s));
  }

  const MAX_LABEL := 512
  const MAX_ID := 255

  function Cut(s: string, n: nat): string {
    if |s| > n then s[..n] else s
  }

  // ---------------------------------------------------------------- normalisation

  /** An entry as it arrives; fields that are absent or null are empty. */
  datatype Raw = NotAnObject | Object(kind: string, id: string, caption: string)

  /** A normalised item; it has no label when that would be empty. */
  datatype Item = Item(kind: string, id: string, caption: Option<string>)

  datatype Problem = NotObject | UnsupportedType | BadId | TooManySkills
    | SkillFailed | PolicyFailed | PolicyTooLong | OverBudget

  datatype Result<+T> = Ok(value: T) | Invalid(why: Problem)

  predicate KnownKind(kind: string) {
    kind == "skill" || kind == "fixed_policy"
  }

  function ProblemOf(r: Raw): Option<Problem> {
    if r.NotAnObject? then Some(NotObject)
    else if !KnownKind(Strip(r.kind)) then Some(UnsupportedType)
    else if Strip(r.id) == "" || |Strip(r.id)| > MAX_ID then Some(BadId)
    else None
  }

  function NormalLabel(caption: string): Option<string> {
    if Strip(caption) == "" then None else Some(Cut(Strip(caption), MAX_LABEL))
  }

  function Normal(r: Raw): Item
    requires r.Object?
  {
    Item(Strip(r.kind), Strip(r.id), NormalLabel(r.caption))
  }

  function KeysOf(items: seq<Item>): set<(string, string)> {
    if items == [] then {} else KeysOf(items[..|items| - 1]) + {(items[|items| - 1].kind, items[|items| - 1].id)}
  }

  /** The normal form: the first problem in order, or the first occurrence of every type and id. */
  function Normalized(raws: seq<Raw>): Result<seq<Item>> {
    if raws == [] then Ok([])
    else
      var before, last := Normalized(raws[..|raws| - 1]), raws[|raws| - 1];
      if before.Invalid? then before
      else if ProblemOf(last).Some? then Invalid(ProblemOf(last).value)
      else if (Normal(last).kind, Normal(last).id) in KeysOf(before.value) then before
      else Ok(before.value + [Normal(last)])
  }

  lemma NormalizedNext(raws: seq<Raw>, r: Raw)
    ensures Normalized(raws + [r]) ==
            var before := Normalized(raws);
            if before.Invalid? then before
            else if ProblemOf(r).Some? then Invalid(ProblemOf(r).value)
            else if (Normal(r).kind, Normal(r).id) in KeysOf(before.value) then before
            else Ok(before.value + [Normal(r)])
  {
  }

  lemma {:induction false} InvalidStays(raws: seq<Raw>, n: nat)
    requires n <= |raws|
    ensures Normalized(raws[..n]).Invalid? ==> Normalized(raws) == Normalized(raws[..n])
    decreases |raws|
  {
    if n == |raws| {
      assert raws[..n] == raws;
    } else {
      assert raws[..|raws| - 1][..n] == raws[..n];
      InvalidStays(raws[..|raws| - 1], n);
    }
  }

  /** An entry that the normalisation accepts: an object of a known type with an id of 1 to 255 characters. */
  predicate Accepted(r: Raw) {
    r.Object? && Strip(r.kind) in {"skill", "fixed_policy"} && 1 <= |Strip(r.id)| <= 255
  }

  /** The list is accepted if and only if every entry is; otherwise the first that is not says why. */
  lemma {:induction false} NormalizedExactly(raws: seq<Raw>)
    ensures Normalized(raws).Ok? <==> forall i :: 0 <= i < |raws| ==> Accepted(raws[i])
    ensures forall i :: 0 <= i < |raws| && !Accepted(raws[i]) && (forall j :: 0 <= j < i ==> Accepted(raws[j])) ==>
              Normalized(raws) == Invalid(if raws[i].NotAnObject? then NotObject
                                          else if Strip(raws[i].kind) !in {"skill", "fixed_policy"} then UnsupportedType
                                          else BadId)
  {
    hide Strip;
    if raws != [] {
      var before := raws[..|raws| - 1];
      NormalizedExactly(before);
      assert forall i :: 0 <= i < |before| ==> before[i] == raws[i];
    }
  }

  /** The label is the stripped one, at most its first 512 characters; an empty one is left out. */
  lemma LabelIs(caption: string)
    ensures NormalLabel(caption).None? <==> Strip(caption) == ""
    ensures NormalLabel(caption).Some? ==>
              && NormalLabel(caption).value <= Strip(caption)
              && |NormalLabel(caption).value| == Min(512, |Strip(caption)|)
  {
  }

  method NormalizeItems(raws: seq<Raw>) returns (r: Result<seq<Item>>)
    ensures r == Normalized(raws)
  {
    hide NormalLabel, KnownKind, Strip;
    var normalized: seq<Item> := [];
    var seen: set<(string, string)> := {};
    for n := 0 to |raws|
      invariant Normalized(raws[..n]) == Ok(normalized) && seen == KeysOf(normalized)
    {
      var raw := raws[n];
      assert raws[..n + 1] == raws[..n] + [raw];
      NormalizedNext(raws[..n], raw);
      InvalidStays(raws, n + 1);
      if raw.NotAnObject? {
        return Invalid(NotObject);
      }
      var kind, id := Strip(raw.kind), Strip(raw.id);
      if !KnownKind(kind) {
        return Invalid(UnsupportedType);
      }
      if id == "" || |id| > MAX_ID {
        return Invalid(BadId);
      }
      if (kind, id) in seen {
        continue;
      }
      var item := Item(kind, id, NormalLabel(raw.caption));
      assert (normalized + [item])[..|normalized|] == normalized;
      seen := seen + {(item.kind, item.id)};
      normalized := normalized + [item];
    }
    assert raws[..|raws|] == raws;
    return Ok(normalized);
  }

  lemma ProblemFree(r: Raw)
    requires ProblemOf(r).None?
    ensures r.Object?
  {
  }

  ghost predicate DistinctKeys(items: seq<Item>) {
    forall i, j :: 0 <= i < j < |items| ==> items[i].kind != items[j].kind || items[i].id != items[j].id
  }

  /** An item that a normalisation can produce. */
  predicate WellFormed(item: Item) {
    && KnownKind(item.kind) && 0 < |item.id| <= MAX_ID && !StartsInSpace(item.id) && !EndsInSpace(item.id)
    && (item.caption.Some? ==> 0 < |item.caption.value| <= MAX_LABEL && !StartsInSpace(item.caption.value))
  }

  lemma NormalIsWellFormed(r: Raw)
    requires ProblemOf(r).None?
    ensures WellFormed(Normal(r))
    ensures Normal(r).caption.Some? && |Normal(r).caption.value| < MAX_LABEL ==> !EndsInSpace(Normal(r).caption.value)
  {
    StripTrims(r.kind);
    StripTrims(r.id);
    StripTrims(r.caption);
  }

  lemma {:induction false} KeysAt(items: seq<Item>, k: (string, string))
    ensures k in KeysOf(items) <==> exists i :: 0 <= i < |items| && (items[i].kind, items[i].id) == k
  {
    if items != [] {
      var before := items[..|items| - 1];
      KeysAt(before, k);
      if i :| 0 <= i < |before| && (before[i].kind, before[i].id) == k { assert items[i] == before[i]; }
      if i :| 0 <= i < |items| && (items[i].kind, items[i].id) == k && i < |before| { assert items[i] == before[i]; }
    }
  }

  /** A normal form has distinct type and id pairs and well-formed items. */
  lemma {:induction false} NormalizedIsNormal(raws: seq<Raw>)
    requires Normalized(raws).Ok?
    ensures DistinctKeys(Normalized(raws).value)
    ensures forall item :: item in Normalized(raws).value ==> WellFormed(item)
  {
    hide WellFormed, Normal, ProblemOf;
    if raws != [] {
      var last, before := raws[|raws| - 1], Normalized(raws[..|raws| - 1]).value;
      NormalizedIsNormal(raws[..|raws| - 1]);
      NormalIsWellFormed(last);
      ProblemFree(last);
      KeysAt(before, (Normal(last).kind, Normal(last).id));
    }
  }

  ghost predicate FirstAt(raws: seq<Raw>, item: Item, i: int) {
    && 0 <= i < |raws| && raws[i].Object? && Normal(raws[i]) == item
    && forall j :: 0 <= j < i ==> raws[j].Object? && (Strip(raws[j].kind) != item.kind || Strip(raws[j].id) != item.id)
  }

  lemma {:induction false} KeysOfNormalized(raws: seq<Raw>, kind: string, id: string)
    requires Normalized(raws).Ok?
    ensures forall i :: 0 <= i < |raws| ==> raws[i].Object?
    ensures (kind, id) in KeysOf(Normalized(raws).value) <==>
            exists i :: 0 <= i < |raws| && Strip(raws[i].kind) == kind && Strip(raws[i].id) == id
  {
    hide Strip, KnownKind;
    if raws != [] {
      var before, last := raws[..|raws| - 1], raws[|raws| - 1];
      KeysOfNormalized(before, kind, id);
      ProblemFree(last);
      var items := Normalized(before).value;
      assert (items + [Normal(last)])[..|items|] == items;
      assert forall i :: 0 <= i < |before| ==> raws[i] == before[i];
    }
  }

  /** Exactly the first occurrences are kept. */
  lemma {:induction false} NormalizedKeepsFirst(raws: seq<Raw>, item: Item)
    requires Normalized(raws).Ok?
    ensures item in Normalized(raws).value <==> exists i :: FirstAt(raws, item, i)
  {
    hide Strip, NormalLabel, KnownKind;
    if raws != [] {
      var before, last := raws[..|raws| - 1], raws[|raws| - 1];
      NormalizedKeepsFirst(before, item);
      KeysOfNormalized(before, Normal(last).kind, Normal(last).id) by { ProblemFree(last); }
      assert forall i :: 0 <= i < |before| ==> raws[i] == before[i];
      if i :| FirstAt(before, item, i) { assert FirstAt(raws, item, i); }
      if i :| FirstAt(raws, item, i) && i < |before| { assert FirstAt(before, item, i); }
      if item == Normal(last) && (item.kind, item.id) !in KeysOf(Normalized(before).value) {
        assert FirstAt(raws, item, |before|);
      }
    }
  }

  // ---------------------------------------------------------------- a second pass

  /** A stored item as it is read back. */
  function AsRaw(item: Item): Raw {
    Object(item.kind, item.id, if item.caption.Some? then item.caption.value else "")
  }

  function AsRaws(items: seq<Item>): seq<Raw> {
    seq(|items|, i requires 0 <= i < |items| => AsRaw(items[i]))
  }

  /** What a second pass makes of one normalised item: a label that was cut after a space loses it. */
  function Again(item: Item): Item {
    item.(caption := if item.caption.Some? then NormalLabel(item.caption.value) else None)
  }

  function AgainAll(items: seq<Item>): seq<Item> {
    seq(|items|, i requires 0 <= i < |items| => Again(items[i]))
  }

  lemma AgainIsNormal(item: Item)
    requires WellFormed(item)
    ensures ProblemOf(AsRaw(item)).None? && Normal(AsRaw(item)) == Again(item)
    ensures WellFormed(Again(item)) && (Again(item).caption.Some? <==> item.caption.Some?)
    ensures item.caption.Some? ==> !EndsInSpace(Again(item).caption.value)
    ensures Again(item) == item <==> (item.caption.Some? ==> !EndsInSpace(item.caption.value))
  {
    StripTrims(item.kind);
    StripTrims(item.id);
    assert Strip(item.kind) == item.kind by { KindTrimmed(item.kind); }
    assert Strip("") == "";
    if item.caption.Some? {
      StripTrims(item.caption.value);
      StripKeepsStart(item.caption.value);
    }
  }

  lemma KindTrimmed(kind: string)
    requires KnownKind(kind)
    ensures Strip(kind) == kind
  {
  }

  /** A string that starts with something else than a space is not stripped to nothing. */
  lemma StripKeepsStart(s: string)
    requires s != "" && !StartsInSpace(s)
    ensures Strip(s) != ""
  {
    StripRightEnds(s);
  }

  lemma {:induction false} KeysOfAgain(items: seq<Item>)
    ensures KeysOf(AgainAll(items)) == KeysOf(items)
  {
    if items != [] {
      KeysOfAgain(items[..|items| - 1]);
      assert AgainAll(items)[..|items| - 1] == AgainAll(items[..|items| - 1]);
    }
  }

  lemma PassNext(before: seq<Item>, last: Item)
    requires Normalized(AsRaws(before)) == Ok(AgainAll(before)) && WellFormed(last)
    requires (last.kind, last.id) !in KeysOf(before)
    ensures Normalized(AsRaws(before + [last])) == Ok(AgainAll(before + [last]))
  {
    hide WellFormed, Normal, ProblemOf, Again, KeysOf, Normalized;
    AgainIsNormal(last);
    AgainKey(last);
    KeysOfAgain(before);
    assert AsRaws(before + [last]) == AsRaws(before) + [AsRaw(last)];
    NormalizedNext(AsRaws(before), AsRaw(last));
    assert AgainAll(before + [last]) == AgainAll(before) + [Again(last)];
  }

  /** A second pass over a normal form only touches labels. */
  lemma {:induction false} SecondPass(items: seq<Item>)
    requires DistinctKeys(items) && forall item :: item in items ==> WellFormed(item)
    ensures Normalized(AsRaws(items)) == Ok(AgainAll(items))
  {
    assert Normalized([]) == Ok([]);
    hide Normalized, KeysOf, WellFormed;
    if items == [] {
      assert AsRaws(items) == [] && AgainAll(items) == [];
    } else {
      var before, last := items[..|items| - 1], items[|items| - 1];
      SecondPass(before);
      KeysAt(before, (last.kind, last.id));
      PassNext(before, last);
      assert before + [last] == items;
    }
  }

  lemma AgainKey(item: Item)
    ensures Again(item).kind == item.kind && Again(item).id == item.id
  {
  }

  ghost predicate NoLabelEndsInSpace(items: seq<Item>) {
    forall item :: item in items && item.caption.Some? ==> !EndsInSpace(item.caption.value)
  }

  lemma FixedByLabels(raws: seq<Raw>)
    requires Normalized(raws).Ok?
    ensures var items := Normalized(raws).value;
            Normalized(AsRaws(items)) == Ok(items) <==> NoLabelEndsInSpace(items)
  {
    var items := Normalized(raws).value;
    NormalizedIsNormal(raws);
    SecondPass(items);
    hide WellFormed, Again, EndsInSpace;
    forall i | 0 <= i < |items|
      ensures AgainAll(items)[i] == items[i] <==> (items[i].caption.Some? ==> !EndsInSpace(items[i].caption.value))
    {
      assert items[i] in items;
      AgainIsNormal(items[i]);
    }
    if NoLabelEndsInSpace(items) {
      assert forall i :: 0 <= i < |items| ==> items[i] in items;
      assert AgainAll(items) == items;
    }
    if AgainAll(items) == items {
      forall item | item in items && item.caption.Some? ensures !EndsInSpace(item.caption.value) {
        var i :| 0 <= i < |items| && items[i] == item;
        assert AgainAll(items)[i] == items[i];
      }
    }
  }

  /** The label is too long and the last character that fits is a space. */
  predicate CutAfterSpace(caption: string) {
    |Strip(caption)| > MAX_LABEL && IsSpace(Strip(caption)[MAX_LABEL - 1])
  }

  lemma LabelEndsInSpace(caption: string)
    ensures NormalLabel(caption).Some? && EndsInSpace(NormalLabel(caption).value) <==> CutAfterSpace(caption)
  {
    StripTrims(caption);
  }

  /** One pass is a fixed point if and only if no entry that is the first with its type and id has a
      label that is cut right after a space. */
  lemma OnePassIdempotentExactly(raws: seq<Raw>)
    requires Normalized(raws).Ok?
    ensures var items := Normalized(raws).value;
            Normalized(AsRaws(items)) == Ok(items) <==>
            forall item, i :: FirstAt(raws, item, i) ==> !CutAfterSpace(raws[i].caption)
  {
    FixedByLabels(raws);
    hide Normalized, AsRaws, CutAfterSpace, EndsInSpace, Strip, NormalLabel;
    var items := Normalized(raws).value;
    forall item, i | FirstAt(raws, item, i)
      ensures item in items
      ensures item.caption.Some? && EndsInSpace(item.caption.value) <==> CutAfterSpace(raws[i].caption)
    {
      NormalizedKeepsFirst(raws, item);
      LabelEndsInSpace(raws[i].caption);
    }
    forall item | item in items ensures exists i :: FirstAt(raws, item, i) {
      NormalizedKeepsFirst(raws, item);
    }
  }

  /** Such a label: the first pass cuts it to its first MAX_LABEL characters, the second one drops the space. */
  lemma OnePassIsNotEnough(raw: Raw, word: string, rest: string)
    requires ProblemOf(raw).None? && |word| == MAX_LABEL - 1 && raw.caption == word + " " + rest
    requires rest != "" && !StartsInSpace(word) && !EndsInSpace(rest)
    ensures Normalized([raw]) == Ok([Normal(raw)]) && Normal(raw).caption == Some(word + " ")
    ensures Normalized(AsRaws([Normal(raw)])) != Normalized([raw])
  {
    var caption := word + " " + rest;
    assert Strip(caption) == caption by { StripTrims(caption); }
    assert caption[..MAX_LABEL] == word + " ";
    assert [raw] == [] + [raw] && [Normal(raw)] == [] + [Normal(raw)];
    NormalizedNext([], raw);
    assert Normalized([raw]) == Ok([Normal(raw)]) by { assert KeysOf([]) == {} && Normalized([]) == Ok([]); }
    assert FirstAt([raw], Normal(raw), 0);
    OnePassIdempotentExactly([raw]);
  }

  /** Two passes always reach a fixed point. */
  lemma TwoPassesAreFixed(raws: seq<Raw>)
    requires Normalized(raws).Ok?
    ensures var once := Normalized(raws).value;
            && Normalized(AsRaws(once)).Ok?
            && Normalized(AsRaws(Normalized(AsRaws(once)).value)) == Normalized(AsRaws(once))
  {
    var once := Normalized(raws).value;
    NormalizedIsNormal(raws);
    SecondPass(once);
    var twice := AgainAll(once);
    hide WellFormed, Again, EndsInSpace;
    forall item | item in twice && item.caption.Some? ensures !EndsInSpace(item.caption.value) {
      var i :| 0 <= i < |twice| && twice[i] == item;
      assert once[i] in once;
      AgainIsNormal(once[i]);
    }
    FixedByLabels(AsRaws(once));
  }

  // ---------------------------------------------------------------- storage

  const VERSION := 1

  /** The stored payload; None when the session holds no such object. */
  datatype Payload = Payload(version: int, items: seq<Raw>)

  /** `active_contexts_metadata` followed by writing the session. */
  function Stored(items: seq<Raw>): Result<Payload> {
    match Normalized(items)
    case Ok(normal) => Ok(Payload(VERSION, AsRaws(normal)))
    case Invalid(why) => Invalid(why)
  }

  /** `stored_active_context_items`. */
  function Read(payload: Option<Payload>): Result<seq<Item>> {
    if payload.None? || payload.value.version != VERSION then Ok([]) else Normalized(payload.value.items)
  }

  /** Storing and reading gives the two-pass normal form, which storing and reading again keeps. */
  lemma StoreReadIsTwoPasses(items: seq<Raw>)
    requires Stored(items).Ok?
    ensures var once := Normalized(items).value;
            var read := Read(Some(Stored(items).value));
            && read.Ok? && read == Normalized(AsRaws(once))
            && Stored(AsRaws(read.value)).Ok? && Read(Some(Stored(AsRaws(read.value)).value)) == read
  {
    TwoPassesAreFixed(items);
  }

  function IsPolicy(items: seq<Item>): seq<Item> {
    if items == [] then []
    else if items[|items| - 1].kind == "fixed_policy" then IsPolicy(items[..|items| - 1]) + [items[|items| - 1]]
    else IsPolicy(items[..|items| - 1])
  }

  /** `effective_active_context_items`: requested items replace, a legacy skill replaces the skill only. */
  function Effective(payload: Option<Payload>, requested: Option<seq<Raw>>,
                     legacySkills: seq<string>): Result<seq<Item>> {
    var current := Read(payload);
    if current.Invalid? then current
    else if requested.Some? then Normalized(requested.value)
    else if legacySkills != [] then
      Normalized([Object("skill", legacySkills[0], "")] + AsRaws(IsPolicy(current.value)))
    else current
  }

  /** What is stored in another version counts as nothing; what is requested replaces everything; without a
      request or a legacy skill the stored items stay; and an invalid stored list is an error even then. */
  lemma EffectiveIs(payload: Option<Payload>, requested: Option<seq<Raw>>, skills: seq<string>)
    ensures payload.None? || payload.value.version != 1 ==> Read(payload) == Ok([])
    ensures payload.Some? && payload.value.version == 1 ==> Read(payload) == Normalized(payload.value.items)
    ensures Read(payload).Ok? && requested.Some? ==>
              Effective(payload, requested, skills) == Normalized(requested.value)
    ensures requested.None? && skills == [] ==> Effective(payload, requested, skills) == Read(payload)
    ensures Read(payload).Invalid? ==> Effective(payload, requested, skills) == Read(payload)
  {
  }

  /** The policies are the items of that type. */
  lemma {:induction false} PoliciesAre(items: seq<Item>, item: Item)
    ensures item in IsPolicy(items) <==> item in items && item.kind == "fixed_policy"
  {
    if items != [] {
      PoliciesAre(items[..|items| - 1], item);
    }
  }

  lemma {:induction false} SkillCountIs(items: seq<Item>)
    ensures SkillCount(items) == |set i | 0 <= i < |items| && items[i].kind == "skill"|
  {
    if items != [] {
      var n := |items| - 1;
      SkillCountIs(items[..n]);
      var before := set i | 0 <= i < |items[..n]| && items[..n][i].kind == "skill";
      assert (set i | 0 <= i < |items| && items[i].kind == "skill") ==
             before + (if items[n].kind == "skill" then {n} else {});
    }
  }

  lemma {:induction false} PoliciesOf(items: seq<Item>)
    requires DistinctKeys(items) && forall item :: item in items ==> WellFormed(item)
    ensures DistinctKeys(IsPolicy(items))
    ensures forall item :: item in IsPolicy(items) ==> item in items && item.kind == "fixed_policy"
  {
    hide WellFormed;
    if items != [] {
      var before := items[..|items| - 1];
      PoliciesOf(before);
      forall i | 0 <= i < |IsPolicy(before)| ensures IsPolicy(before)[i] in before {
        assert IsPolicy(before)[i] in IsPolicy(before);
      }
    }
  }

  lemma DistinctKinds()
    ensures "skill" != "fixed_policy"
  {
  }

  lemma SkillBeforePolicies(skill: Item, policies: seq<Item>)
    requires WellFormed(skill) && skill.kind == "skill" && skill.caption.None?
    requires DistinctKeys(policies)
    requires forall item :: item in policies ==> WellFormed(item) && item.kind == "fixed_policy"
    ensures Normalized([AsRaw(skill)] + AsRaws(policies)) == Ok([skill] + AgainAll(policies))
  {
    hide WellFormed, Normalized;
    var items := [skill] + policies;
    DistinctKinds();
    forall i | 0 < i < |items| ensures items[i].kind != skill.kind { assert items[i] in policies; }
    SecondPass(items);
    assert AgainAll(items) == [skill] + AgainAll(policies);
    assert AsRaws(items) == [AsRaw(skill)] + AsRaws(policies);
  }

  /** A legacy skill request keeps the pinned policies, in their order, behind the one skill. */
  lemma LegacySkillKeepsPolicies(payload: Option<Payload>, skills: seq<string>)
    requires skills != [] && Read(payload).Ok? && 0 < |Strip(skills[0])| <= MAX_ID
    ensures Effective(payload, None, skills) ==
            Ok([Item("skill", Strip(skills[0]), None)] + AgainAll(IsPolicy(Read(payload).value)))
  {
    var current, skill := Read(payload).value, Item("skill", Strip(skills[0]), None);
    if payload.Some? && payload.value.version == VERSION { NormalizedIsNormal(payload.value.items); }
    PoliciesOf(current);
    StripTrims(skills[0]);
    KindTrimmed("skill");
    assert WellFormed(skill) && Strip("") == "";
    hide Strip, Normalized, IsPolicy;
    SkillBeforePolicies(skill, IsPolicy(current));
    AgainIsNormal(skill);
    SameHead(Object("skill", skills[0], ""), AsRaw(skill), AsRaws(IsPolicy(current)));
  }

  /** Entries that normalise alike can be exchanged. */
  lemma {:induction false} SameHead(a: Raw, b: Raw, rest: seq<Raw>)
    requires ProblemOf(a).None? && ProblemOf(b).None? && Normal(a) == Normal(b)
    ensures Normalized([a] + rest) == Normalized([b] + rest)
  {
    hide Normal, ProblemOf;
    if rest == [] {
      assert [a] + rest == [] + [a] && [b] + rest == [] + [b];
      NormalizedNext([], a);
      NormalizedNext([], b);
    } else {
      var before, last := rest[..|rest| - 1], rest[|rest| - 1];
      SameHead(a, b, before);
      assert [a] + rest == ([a] + before) + [last] && [b] + rest == ([b] + before) + [last];
      NormalizedNext([a] + before, last);
      NormalizedNext([b] + before, last);
    }
  }

  // ---------------------------------------------------------------- budgets

  const MAX_POLICY_CHARS := 20000
  const MAX_TOTAL_POLICY_CHARS := 40000

  /** The text of a policy, or the exception that reading it raises. */
  function TextOf(texts: map<string, Answer<string>>, id: string): Answer<string> {
    if id in texts then texts[id] else Raises(StoreFault)
  }

  /** The characters used by the policies among the items, if the loop accepts them all. */
  function Spent(texts: map<string, Answer<string>>, items: seq<Item>): Option<nat> {
    if items == [] then Some(0)
    else
      var before, last := Spent(texts, items[..|items| - 1]), items[|items| - 1];
      if before.None? || last.kind != "fixed_policy" then before
      else
        match TextOf(texts, last.id)
        case Raises(_) => None
        case Returns(text) =>
          var remaining := MAX_TOTAL_POLICY_CHARS - before.value;
          if |text| > MAX_POLICY_CHARS || remaining <= 0 || |text| > remaining then None
          else Some(before.value + |text|)
  }

  function SkillCount(items: seq<Item>): nat {
    if items == [] then 0 else SkillCount(items[..|items| - 1]) + if items[|items| - 1].kind == "skill" then 1 else 0
  }

  lemma {:induction false} SpentStays(texts: map<string, Answer<string>>, items: seq<Item>, n: nat)
    requires n <= |items|
    ensures Spent(texts, items[..n]).None? ==> Spent(texts, items).None?
    decreases |items|
  {
    if n < |items| {
      assert items[..|items| - 1][..n] == items[..n];
      SpentStays(texts, items[..|items| - 1], n);
    } else {
      assert items[..n] == items;
    }
  }

  /** Resolving: normalisation, at most one skill, and the budget loop over the policies. */
  method ResolveActiveContexts(raws: seq<Raw>, skillLoads: bool, texts: map<string, Answer<string>>)
      returns (r: Result<nat>)
    ensures r.Ok? <==>
              && Normalized(raws).Ok?
              && SkillCount(Normalized(raws).value) <= (if skillLoads then 1 else 0)
              && Spent(texts, Normalized(raws).value).Some?
    ensures r.Ok? ==> Some(r.value) == Spent(texts, Normalized(raws).value)
    ensures match Normalized(raws)
            case Invalid(why) => r == Invalid(why)
            case Ok(items) =>
              && (SkillCount(items) > 1 ==> r == Invalid(TooManySkills))
              && (SkillCount(items) == 1 && !skillLoads ==> r == Invalid(SkillFailed))
              && (r == Invalid(TooManySkills) ==> SkillCount(items) > 1)
              && (r == Invalid(SkillFailed) ==> SkillCount(items) == 1 && !skillLoads)
  {
    hide TextOf, Normalized, SkillCount;
    var normalized := NormalizeItems(raws);
    if normalized.Invalid? {
      return Invalid(normalized.why);
    }
    var items := normalized.value;
    var skills := SkillCount(items);
    if skills > 1 {
      return Invalid(TooManySkills);
    }
    if skills == 1 && !skillLoads {
      return Invalid(SkillFailed);
    }
    var totalChars := 0;
    for n := 0 to |items|
      invariant Spent(texts, items[..n]) == Some(totalChars)
    {
      assert items[..n + 1][..n] == items[..n];
      if items[n].kind != "fixed_policy" {
        continue;
      }
      SpentStays(texts, items, n + 1);
      var text := TextOf(texts, items[n].id);
      if text.Raises? {
        return Invalid(PolicyFailed);
      }
      if |text.value| > MAX_POLICY_CHARS {
        return Invalid(PolicyTooLong);
      }
      var remaining := MAX_TOTAL_POLICY_CHARS - totalChars;
      if remaining <= 0 || |text.value| > remaining {
        return Invalid(OverBudget);
      }
      totalChars := totalChars + |text.value|;
    }
    assert items[..|items|] == items;
    return Ok(totalChars);
  }

  // ---------------------------------------------------------------- what the budget means

  function Length(texts: map<string, Answer<string>>, item: Item): nat {
    if TextOf(texts, item.id).Returns? then |TextOf(texts, item.id).value| else 0
  }

  function Total(texts: map<string, Answer<string>>, policies: seq<Item>): nat {
    if policies == [] then 0
    else Total(texts, policies[..|policies| - 1]) + Length(texts, policies[|policies| - 1])
  }

  /** Every policy can be read and keeps within its own limit. */
  ghost predicate EachWithin(texts: map<string, Answer<string>>, policies: seq<Item>) {
    forall i :: 0 <= i < |policies| ==>
      TextOf(texts, policies[i].id).Returns? && Length(texts, policies[i]) <= 20000
  }

  /** The loop accepts a list of policies if and only if each can be read and keeps within its limit,
      their sum keeps within the total, and the total is not used up before the last one: an empty
      document behind a full budget is refused. */
  lemma {:induction false} BudgetExactly(texts: map<string, Answer<string>>, items: seq<Item>)
    ensures var ps := IsPolicy(items);
            && (Spent(texts, items).Some? <==>
                EachWithin(texts, ps) && Total(texts, ps) <= 40000
                && (ps != [] ==> Total(texts, ps[..|ps| - 1]) < 40000))
            && (Spent(texts, items).Some? ==> Spent(texts, items).value == Total(texts, ps))
  {
    EachNone(texts);
    hide EachWithin;
    if items != [] {
      var before, last := items[..|items| - 1], items[|items| - 1];
      BudgetExactly(texts, before);
      if last.kind == "fixed_policy" {
        var ps := IsPolicy(before);
        assert IsPolicy(items) == ps + [last] && (ps + [last])[..|ps|] == ps;
        EachNext(texts, ps, last);
        TotalUpToLast(texts, ps);
      }
    }
  }

  lemma EachNext(texts: map<string, Answer<string>>, ps: seq<Item>, p: Item)
    ensures EachWithin(texts, ps + [p]) <==>
            EachWithin(texts, ps) && TextOf(texts, p.id).Returns? && Length(texts, p) <= MAX_POLICY_CHARS
  {
    var all := ps + [p];
    assert all[|ps|] == p;
    if EachWithin(texts, all) {
      forall i | 0 <= i < |ps| ensures TextOf(texts, ps[i].id).Returns? && Length(texts, ps[i]) <= MAX_POLICY_CHARS {
        assert all[i] == ps[i];
      }
    }
  }

  lemma EachNone(texts: map<string, Answer<string>>)
    ensures EachWithin(texts, [])
  {
  }

  lemma TotalUpToLast(texts: map<string, Answer<string>>, ps: seq<Item>)
    ensures ps != [] ==> Total(texts, ps[..|ps| - 1]) <= Total(texts, ps)
  {
  }
}
