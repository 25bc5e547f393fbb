/** The daily pipeline (src/tenders/pipeline.py): every search result is saved, decided in
    batches or one by one, fetched, reviewed again, extracted, stored and indexed. Any await may
    raise; an exception costs one candidate, or one search, or one batch review, never the run. */
module DailyPipeline {
  import opened Common
  import opened TenderStore
  import ScreenPending

  /** A candidate of a search result and what the awaits about it do, if they are reached. */
  datatype Item = Item(candidate: Candidate, saveFault: bool, initial: Answer<Decision>, updateFault: bool,
                       fetch: Answer<string>, review: Answer<Decision>, rejectFault: bool,
                       extract: Answer<Notice>, noticeFault: bool, index: Answer<()>)

  /** One (keyword, notice type) pair: the search, and the reviews of its batches. */
  datatype Group = Group(search: Answer<seq<Item>>, batches: seq<Answer<map<string, Decision>>>)
  {
    function Batch(b: nat): Answer<map<string, Decision>> {
      if b < |batches| then batches[b] else Raises(StoreFault)
    }
  }

  /** `batching`: there is a model client that reviews batches; `indexing`: notices are indexed. */
  datatype Config = Config(batching: bool, batchSize: int, indexing: bool)

  /** How a candidate of a search result ends. */
  datatype Fate =
    | Duplicate
    | SaveFailed(cause: Cause)
    | Filtered
    | FetchFailed(cause: Cause)
    | Broken(cause: Cause)
    | Saved(indexed: bool)
    | SavedThenBroken(cause: Cause)

  datatype Event = SearchFailed(cause: Cause) | BatchFailed(offset: nat, cause: Cause) | Settled(url: Url, fate: Fate)

  datatype DailyError =
    | SearchError(cause: Cause)
    | BatchError(offset: nat, cause: Cause)
    | SavingError(url: Url, cause: Cause)
    | FetchError(url: Url, cause: Cause)
    | ProcessingError(url: Url, cause: Cause)

  datatype Summary = Summary(duplicates: nat, filtered: nat, fetchFailures: nat, saved: nat, indexed: nat,
                             errors: seq<DailyError>)

  function Note(s: Summary, e: Event): Summary {
    match e
    case SearchFailed(c) => s.(errors := s.errors + [SearchError(c)])
    case BatchFailed(o, c) => s.(errors := s.errors + [BatchError(o, c)])
    case Settled(_, Duplicate) => s.(duplicates := s.duplicates + 1)
    case Settled(u, SaveFailed(c)) => s.(errors := s.errors + [SavingError(u, c)])
    case Settled(_, Filtered) => s.(filtered := s.filtered + 1)
    case Settled(u, FetchFailed(c)) => s.(fetchFailures := s.fetchFailures + 1, errors := s.errors + [FetchError(u, c)])
    case Settled(u, Broken(c)) => s.(errors := s.errors + [ProcessingError(u, c)])
    case Settled(_, Saved(ix)) => s.(saved := s.saved + 1, indexed := s.indexed + if ix then 1 else 0)
    case Settled(u, SavedThenBroken(c)) => s.(saved := s.saved + 1, errors := s.errors + [ProcessingError(u, c)])
  }

  function NoteAll(s: Summary, es: seq<Event>): Summary {
    if es == [] then s else Note(NoteAll(s, es[..|es| - 1]), es[|es| - 1])
  }

  class DailyResult {
    var totalCandidates: nat
    var duplicateCandidates: nat
    var filteredOut: nat
    var detailFetchFailures: nat
    var savedNotices: nat
    var vectorIndexed: nat
    var errors: seq<DailyError>

    ghost function View(): Summary
      reads this
    {
      Summary(duplicateCandidates, filteredOut, detailFetchFailures, savedNotices, vectorIndexed, errors)
    }

    constructor ()
      ensures totalCandidates == 0 && View() == Summary(0, 0, 0, 0, 0, [])
    {
      totalCandidates, duplicateCandidates, filteredOut, detailFetchFailures := 0, 0, 0, 0;
      savedNotices, vectorIndexed, errors := 0, 0, [];
    }
  }

  // ---------------------------------------------------------------- one candidate

  /** A decision filed under the candidate's key by any batch spares the single review. */
  function DecisionFor(decisions: map<string, Decision>, item: Item): Answer<Decision> {
    if item.candidate.key in decisions then Returns(decisions[item.candidate.key]) else item.initial
  }

  function FateOf(d: Answer<Decision>, item: Item, indexing: bool): Fate {
    if d.Raises? then Broken(d.error)
    else if item.updateFault then Broken(StoreFault)
    else if !d.value.isRelevant then Filtered
    else if item.fetch.Raises? then FetchFailed(item.fetch.error)
    else if item.review.Raises? then Broken(item.review.error)
    else if !item.review.value.isRelevant then (if item.rejectFault then Broken(StoreFault) else Filtered)
    else if item.extract.Raises? then Broken(item.extract.error)
    else if item.noticeFault then Broken(StoreFault)
    else if indexing && item.index.Raises? then SavedThenBroken(item.index.error)
    else Saved(indexing)
  }

  function ItemWrites(d: Answer<Decision>, item: Item): (ws: seq<Write>)
    ensures forall w :: w in ws ==> Target(w) == item.candidate.url && !w.Insert?
  {
    var u, fate := item.candidate.url, FateOf(d, item, false);
    if d.Raises? || item.updateFault then []
    else if fate.Saved? then [Decide(u, d.value), Put(u, item.extract.value)]
    else if d.value.isRelevant && fate.Filtered? then [Decide(u, d.value), Decide(u, item.review.value)]
    else [Decide(u, d.value)]
  }

  /** A new candidate after its processing, read off the replies: `first` is the first decision about it. A
      stored review that rejects has the last word; a notice is the extracted one. */
  ghost predicate ItemReplied(before: Cell, after: Cell, first: Answer<Decision>, item: Item) {
    && before.row.Some? && after.row.Some? && after.row.value.candidate == before.row.value.candidate
    && (first.Raises? || item.updateFault ==> after == before)
    && (first.Returns? && !item.updateFault ==>
          var refused := first.value.isRelevant && item.fetch.Returns? && !item.rejectFault
                         && item.review.Returns? && !item.review.value.isRelevant;
          var d := if refused then item.review.value else first.value;
          && after.row.value.status == (if d.isRelevant then Accepted else Rejected)
          && after.row.value.reason == d.reason && after.row.value.source == d.source)
    && (after.notice != before.notice ==>
          && first.Returns? && first.value.isRelevant && !item.updateFault && item.fetch.Returns?
          && item.review.Returns? && item.review.value.isRelevant && item.extract.Returns? && !item.noticeFault)
    && (first.Returns? && first.value.isRelevant && !item.updateFault && item.fetch.Returns?
        && item.review.Returns? && item.review.value.isRelevant && item.extract.Returns? && !item.noticeFault ==>
          && after.notice.Some? && after.notice.value.body == item.extract.value.body
          && (before.notice.None? ==> after.notice == Some(item.extract.value)))
  }

  lemma ItemOutcome(cell: Cell, first: Answer<Decision>, item: Item)
    requires cell.row.Some?
    ensures ItemReplied(cell, CellAll(cell, item.candidate.url, ItemWrites(first, item)), first, item)
  {
    var ws := ItemWrites(first, item);
    if |ws| == 1 {
      CellOne(cell, item.candidate.url, ws[0]);
    } else if |ws| == 2 {
      CellTwo(cell, item.candidate.url, ws[0], ws[1]);
    }
  }

  /** The fate of a new candidate, read off the replies in the order of its awaits. */
  lemma FateIs(first: Answer<Decision>, item: Item, indexing: bool)
    ensures var fate := FateOf(first, item, indexing);
            var stored := first.Returns? && !item.updateFault;
            var fetched := stored && first.value.isRelevant && item.fetch.Returns?;
            var approved := fetched && item.review.Returns? && item.review.value.isRelevant;
            var saved := approved && item.extract.Returns? && !item.noticeFault;
            && (fate.Filtered? <==>
                  || (stored && !first.value.isRelevant)
                  || (fetched && item.review.Returns? && !item.review.value.isRelevant && !item.rejectFault))
            && (fate.FetchFailed? <==> stored && first.value.isRelevant && item.fetch.Raises?)
            && (fate.FetchFailed? ==> item.fetch == Raises(fate.cause))
            && (fate.Saved? <==> saved && !(indexing && item.index.Raises?))
            && (fate.Saved? ==> fate.indexed == indexing)
            && (fate.SavedThenBroken? <==> saved && indexing && item.index.Raises?)
            && (fate.SavedThenBroken? ==> item.index == Raises(fate.cause))
            && (fate.Broken? ==>
                  fate.cause ==
                  if first.Raises? then first.error
                  else if fetched && item.review.Raises? then item.review.error
                  else if approved && item.extract.Raises? then item.extract.error else StoreFault)
            && !fate.Duplicate? && !fate.SaveFailed?
  {
  }

  method DecideFirst(decisions: map<string, Decision>, item: Item) returns (decision: Answer<Decision>)
    ensures decision == DecisionFor(decisions, item)
  {
    if item.candidate.key in decisions {
      return Returns(decisions[item.candidate.key]);
    }
    return item.initial;
  }

  method ProcessOne(repo: Repository, result: DailyResult, item: Item, decisions: map<string, Decision>, indexing: bool)
    requires repo.Ok()
    modifies repo, result
    ensures repo.Ok() && repo.log == old(repo.log) + ItemWrites(DecisionFor(decisions, item), item)
    ensures result.totalCandidates == old(result.totalCandidates)
    ensures result.View() ==
            Note(old(result.View()), Settled(item.candidate.url, FateOf(DecisionFor(decisions, item), item, indexing)))
  {
    hide Apply, Valid, Explains;
    var u := item.candidate.url;
    var decision := DecideFirst(decisions, item);
    if decision.Raises? {
      result.errors := result.errors + [ProcessingError(u, decision.error)];
      return;
    }
    var updated := repo.UpdateCandidateDecision(u, decision.value, item.updateFault);
    if updated.Raises? {
      result.errors := result.errors + [ProcessingError(u, StoreFault)];
      return;
    }
    if !decision.value.isRelevant {
      result.filteredOut := result.filteredOut + 1;
      return;
    }
    if item.fetch.Raises? {
      result.detailFetchFailures := result.detailFetchFailures + 1;
      result.errors := result.errors + [FetchError(u, item.fetch.error)];
      return;
    }
    if item.review.Raises? {
      result.errors := result.errors + [ProcessingError(u, item.review.error)];
      return;
    }
    if !item.review.value.isRelevant {
      var rejected := repo.UpdateCandidateDecision(u, item.review.value, item.rejectFault);
      if rejected.Raises? {
        result.errors := result.errors + [ProcessingError(u, StoreFault)];
      } else {
        result.filteredOut := result.filteredOut + 1;
      }
      return;
    }
    if item.extract.Raises? {
      result.errors := result.errors + [ProcessingError(u, item.extract.error)];
      return;
    }
    var stored := repo.SaveNotice(u, item.extract.value, item.noticeFault);
    if stored.Raises? {
      result.errors := result.errors + [ProcessingError(u, StoreFault)];
      return;
    }
    result.savedNotices := result.savedNotices + 1;
    if indexing {
      if item.index.Raises? {
        result.errors := result.errors + [ProcessingError(u, item.index.error)];
        return;
      }
      result.vectorIndexed := result.vectorIndexed + 1;
    }
  }

  // ---------------------------------------------------------------- one search result

  function SaveLog(items: seq<Item>, n: nat): seq<Write>
    requires n <= |items|
  {
    if n == 0 then []
    else SaveLog(items, n - 1) + if items[n - 1].saveFault then [] else [Insert(items[n - 1].candidate, None)]
  }

  predicate IsNew(db: Db, items: seq<Item>, i: nat)
    requires i < |items|
  {
    !items[i].saveFault && items[i].candidate.url !in ApplyAll(db, SaveLog(items, i)).rows
  }

  function NewItems(db: Db, items: seq<Item>, n: nat): seq<Item>
    requires n <= |items|
  {
    if n == 0 then [] else NewItems(db, items, n - 1) + if IsNew(db, items, n - 1) then [items[n - 1]] else []
  }

  function SaveEvents(db: Db, items: seq<Item>, n: nat): seq<Event>
    requires n <= |items|
  {
    if n == 0 then []
    else if IsNew(db, items, n - 1) then SaveEvents(db, items, n - 1)
    else
      var fate := if items[n - 1].saveFault then SaveFailed(StoreFault) else Duplicate;
      SaveEvents(db, items, n - 1) + [Settled(items[n - 1].candidate.url, fate)]
  }

  /** The decisions of the first `k` batches; a later batch overrides an earlier one. */
  function Decisions(g: Group, k: nat): map<string, Decision> {
    if k == 0 then map[]
    else if g.Batch(k - 1).Returns? then Decisions(g, k - 1) + g.Batch(k - 1).value else Decisions(g, k - 1)
  }

  ghost predicate Last(g: Group, key: string, b: nat, n: nat) {
    forall c: nat :: b < c < n && g.Batch(c).Returns? ==> key !in g.Batch(c).value
  }

  /** The decision filed under a key is the one of the last batch that filed one there. */
  lemma {:induction false} DecisionsLast(g: Group, n: nat, key: string)
    ensures key in Decisions(g, n) <==>
            exists b: nat :: b < n && g.Batch(b).Returns? && key in g.Batch(b).value
    ensures forall b: nat :: b < n && g.Batch(b).Returns? && key in g.Batch(b).value && Last(g, key, b, n) ==>
              Decisions(g, n)[key] == g.Batch(b).value[key]
  {
    if n > 0 {
      DecisionsLast(g, n - 1, key);
    }
  }

  function BatchEvents(g: Group, size: nat, n: nat, k: nat): seq<Event> {
    if k == 0 then []
    else if g.Batch(k - 1).Returns? then BatchEvents(g, size, n, k - 1)
    else BatchEvents(g, size, n, k - 1) + [BatchFailed(ScreenPending.Start(size, n, k - 1), g.Batch(k - 1).error)]
  }

  function Batches(cfg: Config, n: nat): nat {
    if cfg.batching then ScreenPending.BatchCount(Max(1, cfg.batchSize), n, 0) else 0
  }

  /** Without a batching client no batch is reviewed; with one, as many as it takes to cover the candidates
      in batches of at least 1. */
  lemma BatchesAre(cfg: Config, n: nat)
    ensures !cfg.batching ==> Batches(cfg, n) == 0
    ensures cfg.batching ==>
              && Batches(cfg, n) * Max(1, cfg.batchSize) >= n
              && (Batches(cfg, n) > 0 ==> (Batches(cfg, n) - 1) * Max(1, cfg.batchSize) < n)
  {
    ScreenPending.BatchCountIs(Max(1, cfg.batchSize), n);
  }

  function ItemsLog(decisions: map<string, Decision>, items: seq<Item>, n: nat): seq<Write>
    requires n <= |items|
  {
    if n == 0 then []
    else ItemsLog(decisions, items, n - 1) + ItemWrites(DecisionFor(decisions, items[n - 1]), items[n - 1])
  }

  function ItemsEvents(decisions: map<string, Decision>, items: seq<Item>, indexing: bool, n: nat): seq<Event>
    requires n <= |items|
  {
    if n == 0 then []
    else
      var fate := FateOf(DecisionFor(decisions, items[n - 1]), items[n - 1], indexing);
      ItemsEvents(decisions, items, indexing, n - 1) + [Settled(items[n - 1].candidate.url, fate)]
  }

  function DecisionsOf(db: Db, g: Group, cfg: Config): map<string, Decision>
    requires g.search.Returns?
  {
    Decisions(g, Batches(cfg, |NewItems(db, g.search.value, |g.search.value|)|))
  }

  function GroupLog(db: Db, g: Group, cfg: Config): seq<Write> {
    if g.search.Raises? then []
    else
      var items := g.search.value;
      var newOnes := NewItems(db, items, |items|);
      SaveLog(items, |items|) + ItemsLog(DecisionsOf(db, g, cfg), newOnes, |newOnes|)
  }

  function GroupEvents(db: Db, g: Group, cfg: Config): seq<Event> {
    if g.search.Raises? then [SearchFailed(g.search.error)]
    else
      var items := g.search.value;
      var newOnes := NewItems(db, items, |items|);
      SaveEvents(db, items, |items|) +
      BatchEvents(g, Max(1, cfg.batchSize), |newOnes|, Batches(cfg, |newOnes|)) +
      ItemsEvents(DecisionsOf(db, g, cfg), newOnes, cfg.indexing, |newOnes|)
  }

  lemma NoteNext(s: Summary, es: seq<Event>, e: Event)
    ensures NoteAll(s, es + [e]) == Note(NoteAll(s, es), e)
  {
  }

  lemma NoteOne(s: Summary)
    ensures forall e :: NoteAll(s, [e]) == Note(s, e)
  {
    forall e ensures NoteAll(s, [e]) == Note(s, e) { NoteNext(s, [], e); assert [] + [e] == [e]; }
  }

  lemma {:induction false} NoteConcat(s: Summary, xs: seq<Event>, ys: seq<Event>)
    ensures NoteAll(s, xs + ys) == NoteAll(NoteAll(s, xs), ys)
  {
    if ys == [] {
      assert xs + ys == xs;
    } else {
      NoteConcat(s, xs, ys[..|ys| - 1]);
      assert (xs + ys)[..|xs + ys| - 1] == xs + ys[..|ys| - 1];
    }
  }

  method SaveOne(repo: Repository, result: DailyResult, item: Item) returns (isNew: bool)
    requires repo.Ok()
    modifies repo, result
    ensures repo.Ok() && result.totalCandidates == old(result.totalCandidates)
    ensures isNew == (!item.saveFault && item.candidate.url !in old(repo.db).rows)
    ensures item.saveFault ==> repo.log == old(repo.log) && repo.db == old(repo.db)
    ensures !item.saveFault ==> repo.log == old(repo.log) + [Insert(item.candidate, None)]
                                && repo.db == Apply(old(repo.db), Insert(item.candidate, None))
    ensures isNew ==> result.View() == old(result.View())
    ensures !isNew ==> result.View() == Note(old(result.View()),
              Settled(item.candidate.url, if item.saveFault then SaveFailed(StoreFault) else Duplicate))
  {
    var saved := repo.SaveCandidate(item.candidate, None, item.saveFault);
    if saved.Raises? {
      result.errors := result.errors + [SavingError(item.candidate.url, StoreFault)];
      return false;
    }
    if !saved.value {
      result.duplicateCandidates := result.duplicateCandidates + 1;
    }
    return saved.value;
  }

  lemma SaveStep(db0: Db, items: seq<Item>, k: nat, view0: Summary)
    requires k < |items|
    ensures var db := ApplyAll(db0, SaveLog(items, k));
            var c := items[k].candidate;
            && IsNew(db0, items, k) == (!items[k].saveFault && c.url !in db.rows)
            && ApplyAll(db0, SaveLog(items, k + 1)) == (if items[k].saveFault then db else Apply(db, Insert(c, None)))
            && NoteAll(view0, SaveEvents(db0, items, k + 1)) ==
               if IsNew(db0, items, k) then NoteAll(view0, SaveEvents(db0, items, k))
               else Note(NoteAll(view0, SaveEvents(db0, items, k)),
                         Settled(c.url, if items[k].saveFault then SaveFailed(StoreFault) else Duplicate))
    ensures SaveLog(items, k + 1) ==
            if items[k].saveFault then SaveLog(items, k) else SaveLog(items, k) + [Insert(items[k].candidate, None)]
  {
    hide Apply, Note;
    assert items[k].saveFault ==> SaveLog(items, k + 1) == SaveLog(items, k);
    ApplyAllAppend(db0, SaveLog(items, k), Insert(items[k].candidate, None));
    NoteNext(view0, SaveEvents(db0, items, k),
             Settled(items[k].candidate.url, if items[k].saveFault then SaveFailed(StoreFault) else Duplicate));
  }

  /** Whether the first `k` items have been saved, starting from the given state. */
  ghost predicate SavedSoFar(repo: Repository, result: DailyResult, items: seq<Item>, k: nat,
                             db0: Db, log0: seq<Write>, view0: Summary)
    requires k <= |items|
    reads repo, result
  {
    && repo.Ok() && repo.log == log0 + SaveLog(items, k) && repo.db == ApplyAll(db0, SaveLog(items, k))
    && result.View() == NoteAll(view0, SaveEvents(db0, items, k))
  }

  method SaveNth(repo: Repository, result: DailyResult, items: seq<Item>, k: nat,
                 ghost db0: Db, ghost log0: seq<Write>, ghost view0: Summary) returns (isNew: bool)
    requires k < |items| && SavedSoFar(repo, result, items, k, db0, log0, view0)
    modifies repo, result
    ensures SavedSoFar(repo, result, items, k + 1, db0, log0, view0)
    ensures isNew == IsNew(db0, items, k) && result.totalCandidates == old(result.totalCandidates)
  {
    SaveStep(db0, items, k, view0);
    hide Apply, Valid, Explains, Note, NoteAll, ApplyAll, IsNew, SaveEvents, NewItems, SaveLog;
    Regroup(log0, SaveLog(items, k), [Insert(items[k].candidate, None)]);
    isNew := SaveOne(repo, result, items[k]);
  }

  method SaveNew(repo: Repository, result: DailyResult, items: seq<Item>) returns (newItems: seq<Item>)
    requires repo.Ok()
    modifies repo, result
    ensures repo.Ok() && repo.log == old(repo.log) + SaveLog(items, |items|)
    ensures newItems == NewItems(old(repo.db), items, |items|)
    ensures result.totalCandidates == old(result.totalCandidates)
    ensures result.View() == NoteAll(old(result.View()), SaveEvents(old(repo.db), items, |items|))
  {
    ghost var db0, view0 := repo.db, result.View();
    newItems := [];
    assert SavedSoFar(repo, result, items, 0, db0, repo.log, view0);
    for k := 0 to |items|
      invariant SavedSoFar(repo, result, items, k, db0, old(repo.log), view0)
      invariant newItems == NewItems(db0, items, k)
      invariant result.totalCandidates == old(result.totalCandidates)
    {
      hide SavedSoFar;
      var isNew := SaveNth(repo, result, items, k, db0, old(repo.log), view0);
      if isNew {
        newItems := newItems + [items[k]];
      }
    }
  }

  method InitialDecisions(result: DailyResult, g: Group, cfg: Config, n: nat) returns (decisions: map<string, Decision>)
    modifies result
    ensures decisions == Decisions(g, Batches(cfg, n))
    ensures result.totalCandidates == old(result.totalCandidates)
    ensures result.View() == NoteAll(old(result.View()), BatchEvents(g, Max(1, cfg.batchSize), n, Batches(cfg, n)))
  {
    decisions := map[];
    if !cfg.batching {
      return;
    }
    var size, start, k := Max(1, cfg.batchSize), 0, 0;
    ghost var view0 := result.View();
    while start < n
      invariant start == ScreenPending.Start(size, n, k)
      invariant ScreenPending.BatchCount(size, n, k) == ScreenPending.BatchCount(size, n, 0)
      invariant decisions == Decisions(g, k)
      invariant result.totalCandidates == old(result.totalCandidates)
      invariant result.View() == NoteAll(view0, BatchEvents(g, size, n, k))
      decreases n - start
    {
      match g.Batch(k) {
        case Returns(batch) => decisions := decisions + batch;
        case Raises(e) =>
          NoteNext(view0, BatchEvents(g, size, n, k), BatchFailed(start, e));
          result.errors := result.errors + [BatchError(start, e)];
      }
      start, k := Min(start + size, n), k + 1;
    }
  }

  lemma Regroup<T>(a: seq<T>, b: seq<T>, c: seq<T>)
    ensures a + b + c == a + (b + c)
  {
  }

  lemma ItemsNone(decisions: map<string, Decision>, items: seq<Item>, indexing: bool, s: Summary)
    ensures ItemsLog(decisions, items, 0) == [] && NoteAll(s, ItemsEvents(decisions, items, indexing, 0)) == s
  {
  }

  lemma ItemsNext(decisions: map<string, Decision>, items: seq<Item>, indexing: bool, k: nat)
    requires k < |items|
    ensures var d := DecisionFor(decisions, items[k]);
            && ItemsLog(decisions, items, k + 1) == ItemsLog(decisions, items, k) + ItemWrites(d, items[k])
            && ItemsEvents(decisions, items, indexing, k + 1) ==
               ItemsEvents(decisions, items, indexing, k)
               + [Settled(items[k].candidate.url, FateOf(d, items[k], indexing))]
  {
  }

  /** The first `k` new candidates have been processed, from the given state on. */
  ghost predicate ProcessedSoFar(repo: Repository, result: DailyResult, decisions: map<string, Decision>,
                                 items: seq<Item>, indexing: bool, k: nat, log0: seq<Write>, view0: Summary)
    requires k <= |items|
    reads repo, result
  {
    && repo.Ok() && repo.log == log0 + ItemsLog(decisions, items, k)
    && result.View() == NoteAll(view0, ItemsEvents(decisions, items, indexing, k))
  }

  method ProcessNth(repo: Repository, result: DailyResult, decisions: map<string, Decision>, items: seq<Item>,
                    indexing: bool, k: nat, ghost log0: seq<Write>, ghost view0: Summary)
    requires k < |items| && ProcessedSoFar(repo, result, decisions, items, indexing, k, log0, view0)
    modifies repo, result
    ensures ProcessedSoFar(repo, result, decisions, items, indexing, k + 1, log0, view0)
    ensures result.totalCandidates == old(result.totalCandidates)
  {
    hide Apply, Valid, Explains, Note, NoteAll, FateOf, ItemWrites, DecisionFor, ItemsLog, ItemsEvents;
    ghost var d, log := DecisionFor(decisions, items[k]), ItemsLog(decisions, items, k);
    ProcessOne(repo, result, items[k], decisions, indexing);
    Regroup(log0, log, ItemWrites(d, items[k]));
    ItemsNext(decisions, items, indexing, k);
    NoteNext(view0, ItemsEvents(decisions, items, indexing, k),
             Settled(items[k].candidate.url, FateOf(d, items[k], indexing)));
  }

  method ProcessNew(repo: Repository, result: DailyResult, newItems: seq<Item>, decisions: map<string, Decision>,
                    indexing: bool)
    requires repo.Ok()
    modifies repo, result
    ensures repo.Ok() && repo.log == old(repo.log) + ItemsLog(decisions, newItems, |newItems|)
    ensures result.totalCandidates == old(result.totalCandidates)
    ensures result.View() == NoteAll(old(result.View()), ItemsEvents(decisions, newItems, indexing, |newItems|))
  {
    ghost var view0 := result.View();
    ItemsNone(decisions, newItems, indexing, view0);
    assert ProcessedSoFar(repo, result, decisions, newItems, indexing, 0, repo.log, view0);
    for k := 0 to |newItems|
      invariant ProcessedSoFar(repo, result, decisions, newItems, indexing, k, old(repo.log), view0)
      invariant result.totalCandidates == old(result.totalCandidates)
    {
      hide ProcessedSoFar;
      ProcessNth(repo, result, decisions, newItems, indexing, k, old(repo.log), view0);
    }
  }

  lemma GroupParted(db: Db, g: Group, cfg: Config, s: Summary)
    requires g.search.Returns?
    ensures var items := g.search.value;
            var newOnes, ds := NewItems(db, items, |items|), DecisionsOf(db, g, cfg);
            && GroupLog(db, g, cfg) == SaveLog(items, |items|) + ItemsLog(ds, newOnes, |newOnes|)
            && NoteAll(s, GroupEvents(db, g, cfg)) ==
               NoteAll(NoteAll(NoteAll(s, SaveEvents(db, items, |items|)),
                               BatchEvents(g, Max(1, cfg.batchSize), |newOnes|, Batches(cfg, |newOnes|))),
                       ItemsEvents(ds, newOnes, cfg.indexing, |newOnes|))
  {
    hide SaveLog, ItemsLog, ItemsEvents, SaveEvents, BatchEvents, NewItems, Batches, Decisions, NoteAll;
    var items := g.search.value;
    var newOnes := NewItems(db, items, |items|);
    var a, b := SaveEvents(db, items, |items|),
                BatchEvents(g, Max(1, cfg.batchSize), |newOnes|, Batches(cfg, |newOnes|));
    NoteConcat(s, a, b);
    NoteConcat(s, a + b, ItemsEvents(DecisionsOf(db, g, cfg), newOnes, cfg.indexing, |newOnes|));
  }

  lemma GroupFailed(db: Db, g: Group, cfg: Config, s: Summary)
    requires g.search.Raises?
    ensures GroupLog(db, g, cfg) == [] && NoteAll(s, GroupEvents(db, g, cfg)) == Note(s, SearchFailed(g.search.error))
  {
    NoteOne(s);
  }

  /** One search and everything that follows from it. */
  method ProcessGroup(repo: Repository, result: DailyResult, g: Group, cfg: Config)
    requires repo.Ok()
    modifies repo, result
    ensures repo.Ok() && repo.log == old(repo.log) + GroupLog(old(repo.db), g, cfg)
    ensures result.totalCandidates == old(result.totalCandidates) + if g.search.Returns? then |g.search.value| else 0
    ensures result.View() == NoteAll(old(result.View()), GroupEvents(old(repo.db), g, cfg))
  {
    ghost var view0, db0, log0 := result.View(), repo.db, repo.log;
    hide Apply, Valid, Explains, SaveLog, ItemsLog, ItemsEvents, SaveEvents, BatchEvents, NewItems, Batches, Decisions;
    hide NoteAll, GroupLog, GroupEvents;
    if g.search.Raises? {
      GroupFailed(db0, g, cfg, view0);
      result.errors := result.errors + [SearchError(g.search.error)];
      return;
    }
    GroupParted(db0, g, cfg, view0);
    var items := g.search.value;
    result.totalCandidates := result.totalCandidates + |items|;
    var newItems := SaveNew(repo, result, items);
    var decisions := InitialDecisions(result, g, cfg, |newItems|);
    ProcessNew(repo, result, newItems, decisions, cfg.indexing);
    Regroup(log0, SaveLog(items, |items|), ItemsLog(decisions, newItems, |newItems|));
  }

  // ---------------------------------------------------------------- the run

  function RunLog(db: Db, groups: seq<Group>, cfg: Config, n: nat): seq<Write>
    requires n <= |groups|
  {
    if n == 0 then []
    else
      var before := RunLog(db, groups, cfg, n - 1);
      before + GroupLog(ApplyAll(db, before), groups[n - 1], cfg)
  }

  function RunEvents(db: Db, groups: seq<Group>, cfg: Config, n: nat): seq<Event>
    requires n <= |groups|
  {
    if n == 0 then []
    else RunEvents(db, groups, cfg, n - 1) +
         GroupEvents(ApplyAll(db, RunLog(db, groups, cfg, n - 1)), groups[n - 1], cfg)
  }

  function TotalFound(groups: seq<Group>, n: nat): nat
    requires n <= |groups|
  {
    if n == 0 then 0
    else TotalFound(groups, n - 1) + if groups[n - 1].search.Returns? then |groups[n - 1].search.value| else 0
  }

  lemma NothingRun(db: Db, groups: seq<Group>, cfg: Config, s: Summary)
    ensures RunLog(db, groups, cfg, 0) == [] && NoteAll(s, RunEvents(db, groups, cfg, 0)) == s
    ensures TotalFound(groups, 0) == 0
  {
  }

  lemma RunNext(db: Db, groups: seq<Group>, cfg: Config, n: nat)
    requires n < |groups|
    ensures var before := RunLog(db, groups, cfg, n);
            && RunLog(db, groups, cfg, n + 1) == before + GroupLog(ApplyAll(db, before), groups[n], cfg)
            && RunEvents(db, groups, cfg, n + 1) ==
               RunEvents(db, groups, cfg, n) + GroupEvents(ApplyAll(db, before), groups[n], cfg)
  {
  }

  /** The first `k` searches have been processed, from the given state on. */
  ghost predicate RunSoFar(repo: Repository, result: DailyResult, groups: seq<Group>, cfg: Config, k: nat,
                           db0: Db, log0: seq<Write>, view0: Summary)
    requires k <= |groups|
    reads repo, result
  {
    && repo.Ok() && Explains(repo.start, log0, db0) && repo.log == log0 + RunLog(db0, groups, cfg, k)
    && result.totalCandidates == TotalFound(groups, k)
    && result.View() == NoteAll(view0, RunEvents(db0, groups, cfg, k))
  }

  method RunNth(repo: Repository, result: DailyResult, groups: seq<Group>, cfg: Config, k: nat,
                ghost db0: Db, ghost log0: seq<Write>, ghost view0: Summary)
    requires k < |groups| && RunSoFar(repo, result, groups, cfg, k, db0, log0, view0)
    modifies repo, result
    ensures RunSoFar(repo, result, groups, cfg, k + 1, db0, log0, view0)
  {
    hide Apply, Valid, Explains, GroupLog, GroupEvents, RunLog, RunEvents, NoteAll, ApplyAll;
    ghost var log, events := RunLog(db0, groups, cfg, k), RunEvents(db0, groups, cfg, k);
    LogThen(repo.start, log0, log, db0, repo.db);
    RunNext(db0, groups, cfg, k);
    Regroup(log0, log, GroupLog(repo.db, groups[k], cfg));
    NoteConcat(view0, events, GroupEvents(repo.db, groups[k], cfg));
    ProcessGroup(repo, result, groups[k], cfg);
  }

  method RunGroups(repo: Repository, result: DailyResult, groups: seq<Group>, cfg: Config)
    requires repo.Ok() && result.totalCandidates == 0
    modifies repo, result
    ensures repo.Ok() && repo.log == old(repo.log) + RunLog(old(repo.db), groups, cfg, |groups|)
    ensures result.totalCandidates == TotalFound(groups, |groups|)
    ensures result.View() == NoteAll(old(result.View()), RunEvents(old(repo.db), groups, cfg, |groups|))
  {
    ghost var db0, view0 := repo.db, result.View();
    NothingRun(db0, groups, cfg, view0);
    hide Apply, Valid, Explains, RunLog, RunEvents, NoteAll, ApplyAll, TotalFound;
    assert repo.log + [] == repo.log;
    assert RunSoFar(repo, result, groups, cfg, 0, db0, repo.log, view0);
    for k := 0 to |groups|
      invariant RunSoFar(repo, result, groups, cfg, k, db0, old(repo.log), view0)
    {
      hide RunSoFar;
      RunNth(repo, result, groups, cfg, k, db0, old(repo.log), view0);
    }
  }

  /** The daily run: every candidate found is a duplicate, filtered out, saved, a detail failure, or
      lost to an exception before it was saved. */
  method RunDaily(repo: Repository, groups: seq<Group>, cfg: Config) returns (result: DailyResult)
    requires repo.Ok()
    modifies repo
    ensures repo.Ok() && fresh(result) && repo.log == old(repo.log) + RunLog(old(repo.db), groups, cfg, |groups|)
    ensures result.View() == NoteAll(Summary(0, 0, 0, 0, 0, []), RunEvents(old(repo.db), groups, cfg, |groups|))
    ensures result.vectorIndexed <= result.savedNotices
    ensures result.totalCandidates == TotalFound(groups, |groups|) ==
              result.duplicateCandidates + result.filteredOut + result.savedNotices + result.detailFetchFailures
              + PartsOf(RunEvents(old(repo.db), groups, cfg, |groups|)).lost
  {
    hide RunLog, RunEvents, NoteAll, PartsOf, TotalFound;
    DailyConservation(repo.db, groups, cfg);
    result := new DailyResult();
    RunGroups(repo, result, groups, cfg);
  }

  // ---------------------------------------------------------------- conservation

  /** How many candidates were settled, lost to an exception before being saved, saved, and lost to
      an exception after being saved; and how many searches and batch reviews failed. */
  datatype Parts = Parts(settled: nat, lost: nat, saved: nat, brokenLater: nat, calls: nat)

  function AddPart(p: Parts, e: Event): Parts {
    match e
    case SearchFailed(_) => p.(calls := p.calls + 1)
    case BatchFailed(_, _) => p.(calls := p.calls + 1)
    case Settled(_, fate) =>
      Parts(p.settled + 1,
            p.lost + (if fate.SaveFailed? || fate.Broken? then 1 else 0),
            p.saved + (if fate.Saved? || fate.SavedThenBroken? then 1 else 0),
            p.brokenLater + (if fate.SavedThenBroken? then 1 else 0),
            p.calls)
  }

  function PartsOf(es: seq<Event>): Parts {
    if es == [] then Parts(0, 0, 0, 0, 0) else AddPart(PartsOf(es[..|es| - 1]), es[|es| - 1])
  }

  lemma PartsNext(es: seq<Event>, e: Event)
    ensures PartsOf(es + [e]) == AddPart(PartsOf(es), e)
    ensures e.Settled? ==> PartsOf(es + [e]).settled == PartsOf(es).settled + 1
  {
  }

  lemma {:induction false} PartsConcat(xs: seq<Event>, ys: seq<Event>)
    ensures PartsOf(xs + ys).settled == PartsOf(xs).settled + PartsOf(ys).settled
  {
    if ys == [] {
      assert xs + ys == xs;
    } else {
      PartsConcat(xs, ys[..|ys| - 1]);
      assert (xs + ys)[..|xs + ys| - 1] == xs + ys[..|ys| - 1];
    }
  }

  /** The positions of such events. */
  ghost function Positions(es: seq<Event>, such: Event -> bool): set<nat> {
    set k: nat | k < |es| && such(es[k])
  }

  lemma PositionsNext(es: seq<Event>, such: Event -> bool)
    requires es != []
    ensures |Positions(es, such)| == |Positions(es[..|es| - 1], such)| + if such(es[|es| - 1]) then 1 else 0
  {
    var before := Positions(es[..|es| - 1], such);
    assert Positions(es, such) == before + (if such(es[|es| - 1]) then {|es| - 1} else {});
  }

  predicate IsDuplicate(e: Event) { e.Settled? && e.fate.Duplicate? }
  predicate IsFiltered(e: Event) { e.Settled? && e.fate.Filtered? }
  predicate IsFetchFailure(e: Event) { e.Settled? && e.fate.FetchFailed? }
  predicate IsSaved(e: Event) { e.Settled? && (e.fate.Saved? || e.fate.SavedThenBroken?) }
  predicate IsIndexed(e: Event) { e.Settled? && e.fate.Saved? && e.fate.indexed }

  /** Each counter is the number of events that it is about. */
  lemma {:induction false} CountersAre(es: seq<Event>)
    ensures var s := NoteAll(Summary(0, 0, 0, 0, 0, []), es);
            && s.duplicates == |Positions(es, IsDuplicate)| && s.filtered == |Positions(es, IsFiltered)|
            && s.fetchFailures == |Positions(es, IsFetchFailure)| && s.saved == |Positions(es, IsSaved)|
            && s.indexed == |Positions(es, IsIndexed)|
  {
    hide Positions;
    if es == [] {
      NoPositions();
    } else {
      CountersAre(es[..|es| - 1]);
      PositionsNext(es, IsDuplicate);
      PositionsNext(es, IsFiltered);
      PositionsNext(es, IsFetchFailure);
      PositionsNext(es, IsSaved);
      PositionsNext(es, IsIndexed);
    }
  }

  lemma NoPositions()
    ensures Positions([], IsDuplicate) == Positions([], IsFiltered) == Positions([], IsFetchFailure) == {}
    ensures Positions([], IsSaved) == Positions([], IsIndexed) == {}
  {
  }

  /** Every exception is reported as what it is. */
  lemma {:induction false} ErrorsReported(es: seq<Event>, k: nat)
    requires k < |es|
    ensures var errors := NoteAll(Summary(0, 0, 0, 0, 0, []), es).errors;
            match es[k]
            case SearchFailed(c) => SearchError(c) in errors
            case BatchFailed(o, c) => BatchError(o, c) in errors
            case Settled(u, SaveFailed(c)) => SavingError(u, c) in errors
            case Settled(u, FetchFailed(c)) => FetchError(u, c) in errors
            case Settled(u, Broken(c)) => ProcessingError(u, c) in errors
            case Settled(u, SavedThenBroken(c)) => ProcessingError(u, c) in errors
            case Settled(_, _) => true
  {
    var before, e := es[..|es| - 1], es[|es| - 1];
    if k < |before| {
      ErrorsReported(before, k);
      NoteKeeps(NoteAll(Summary(0, 0, 0, 0, 0, []), before), e);
    }
  }

  lemma NoteKeeps(s: Summary, e: Event)
    ensures forall m :: m in s.errors ==> m in Note(s, e).errors
  {
  }

  /** Every settled candidate is in exactly one counter or lost; every error has exactly one cause;
      an error after a save counts the candidate as saved and as an error. */
  lemma {:induction false} Conservation(es: seq<Event>)
    ensures var s, p := NoteAll(Summary(0, 0, 0, 0, 0, []), es), PartsOf(es);
            && p.settled == s.duplicates + s.filtered + s.saved + s.fetchFailures + p.lost
            && |s.errors| == p.calls + s.fetchFailures + p.lost + p.brokenLater
            && s.saved == p.saved && s.indexed + p.brokenLater <= s.saved
  {
    if es != [] {
      Conservation(es[..|es| - 1]);
    }
  }

  lemma {:induction false} ItemsParts(decisions: map<string, Decision>, items: seq<Item>, indexing: bool, n: nat)
    requires n <= |items|
    ensures PartsOf(ItemsEvents(decisions, items, indexing, n)).settled == n
  {
    assert PartsOf([]).settled == 0;
    hide FateOf, DecisionFor, PartsOf, AddPart;
    if n > 0 {
      ItemsParts(decisions, items, indexing, n - 1);
      PartsNext(ItemsEvents(decisions, items, indexing, n - 1),
                Settled(items[n - 1].candidate.url,
                        FateOf(DecisionFor(decisions, items[n - 1]), items[n - 1], indexing)));
    }
  }

  lemma {:induction false} SaveParts(db: Db, items: seq<Item>, n: nat)
    requires n <= |items|
    ensures PartsOf(SaveEvents(db, items, n)).settled + |NewItems(db, items, n)| == n
  {
    hide IsNew;
    if n > 0 {
      SaveParts(db, items, n - 1);
      PartsNext(SaveEvents(db, items, n - 1),
                Settled(items[n - 1].candidate.url,
                        if items[n - 1].saveFault then SaveFailed(StoreFault) else Duplicate));
    }
  }

  lemma {:induction false} BatchParts(g: Group, size: nat, n: nat, k: nat)
    ensures PartsOf(BatchEvents(g, size, n, k)).settled == 0
  {
    if k > 0 {
      BatchParts(g, size, n, k - 1);
      if g.Batch(k - 1).Raises? {
        PartsNext(BatchEvents(g, size, n, k - 1),
                  BatchFailed(ScreenPending.Start(size, n, k - 1), g.Batch(k - 1).error));
      }
    }
  }

  lemma GroupParts(db: Db, g: Group, cfg: Config)
    ensures PartsOf(GroupEvents(db, g, cfg)).settled == if g.search.Returns? then |g.search.value| else 0
  {
    hide SaveEvents, ItemsEvents, BatchEvents, NewItems, Batches, Decisions;
    if g.search.Raises? {
      PartsNext([], SearchFailed(g.search.error));
    } else {
      var items := g.search.value;
      var newOnes := NewItems(db, items, |items|);
      var s, b := SaveEvents(db, items, |items|),
                  BatchEvents(g, Max(1, cfg.batchSize), |newOnes|, Batches(cfg, |newOnes|));
      var e := ItemsEvents(DecisionsOf(db, g, cfg), newOnes, cfg.indexing, |newOnes|);
      SaveParts(db, items, |items|);
      BatchParts(g, Max(1, cfg.batchSize), |newOnes|, Batches(cfg, |newOnes|));
      ItemsParts(DecisionsOf(db, g, cfg), newOnes, cfg.indexing, |newOnes|);
      PartsConcat(s, b);
      PartsConcat(s + b, e);
    }
  }

  lemma RunNone(db: Db, groups: seq<Group>, cfg: Config)
    ensures PartsOf(RunEvents(db, groups, cfg, 0)).settled == 0
  {
  }

  lemma {:induction false} RunParts(db: Db, groups: seq<Group>, cfg: Config, n: nat)
    requires n <= |groups|
    ensures PartsOf(RunEvents(db, groups, cfg, n)).settled == TotalFound(groups, n)
  {
    hide GroupEvents, PartsOf, RunEvents, RunLog, ApplyAll;
    if n == 0 {
      RunNone(db, groups, cfg);
    } else {
      var before := ApplyAll(db, RunLog(db, groups, cfg, n - 1));
      RunParts(db, groups, cfg, n - 1);
      RunNext(db, groups, cfg, n - 1);
      GroupParts(before, groups[n - 1], cfg);
      PartsConcat(RunEvents(db, groups, cfg, n - 1), GroupEvents(before, groups[n - 1], cfg));
    }
  }

  /** The totals of a daily run: every candidate found is a duplicate, filtered out, saved, a detail
      failure, or lost to an exception before it was saved. */
  lemma DailyConservation(db: Db, groups: seq<Group>, cfg: Config)
    ensures var es := RunEvents(db, groups, cfg, |groups|);
            var s, p := NoteAll(Summary(0, 0, 0, 0, 0, []), es), PartsOf(es);
            && TotalFound(groups, |groups|) == s.duplicates + s.filtered + s.saved + s.fetchFailures + p.lost
            && s.indexed <= s.saved
            && |s.errors| == p.calls + s.fetchFailures + p.lost + p.brokenLater
  {
    Conservation(RunEvents(db, groups, cfg, |groups|));
    RunParts(db, groups, cfg, |groups|);
  }

  // ---------------------------------------------------------------- what a run leaves behind

  /** The cell of a candidate that met this fate. */
  predicate FateCell(fate: Fate, c: Cell) {
    match fate
    case Duplicate => c.row.Some?
    case SaveFailed(_) => true
    case Filtered => c.row.Some? && c.row.value.status == Rejected && c.notice.None?
    case FetchFailed(_) => IsAcceptedMissing(c)
    case Broken(_) => c.notice.None? && c.row.Some? && c.row.value.status != Rejected
    case Saved(_) => IsAcceptedWithNotice(c)
    case SavedThenBroken(_) => IsAcceptedWithNotice(c)
  }

  predicate Untouched(c: Cell) {
    IsPending(c) && c.notice.None?
  }

  /** One candidate, cut off after `k` of its writes. */
  lemma ItemCell(cell: Cell, d: Answer<Decision>, item: Item, indexing: bool, k: nat)
    requires Untouched(cell) && k <= |ItemWrites(d, item)|
    ensures var ws, u := ItemWrites(d, item), item.candidate.url;
            && NoticeAccepted(CellAll(cell, u, ws[..k]))
            && (k == |ws| ==> FateCell(FateOf(d, item, indexing), CellAll(cell, u, ws)))
  {
    var ws, u := ItemWrites(d, item), item.candidate.url;
    assert k == |ws| ==> ws[..k] == ws;
    if k == 0 {
      assert CellAll(cell, u, ws[..0]) == cell;
    } else if k == 1 {
      CellOne(cell, u, ws[0]);
      assert ws[..1] == [ws[0]];
    } else {
      CellTwo(cell, u, ws[0], ws[1]);
      assert ws[..2] == [ws[0], ws[1]];
    }
  }

  ghost predicate DistinctItems(items: seq<Item>) {
    forall i, j :: 0 <= i < j < |items| ==> items[i].candidate.url != items[j].candidate.url
  }

  lemma StepsConcat(db: Db, xs: seq<Write>, ys: seq<Write>, ok: Cell -> bool)
    requires AtEveryStep(db, xs, ok) && AtEveryStep(ApplyAll(db, xs), ys, ok)
    ensures AtEveryStep(db, xs + ys, ok)
  {
    hide Everywhere, ApplyAll;
    forall k | 0 <= k <= |xs + ys| ensures Everywhere(ApplyAll(db, (xs + ys)[..k]), ok) {
      if k <= |xs| {
        assert (xs + ys)[..k] == xs[..k];
      } else {
        assert (xs + ys)[..k] == xs + ys[..k - |xs|];
        ApplyAllConcat(db, xs, ys[..k - |xs|]);
      }
    }
  }

  lemma EmptySteps(db: Db, ok: Cell -> bool)
    requires Everywhere(db, ok)
    ensures AtEveryStep(db, [], ok)
  {
  }

  lemma {:induction false} ItemsAbsent(decisions: map<string, Decision>, items: seq<Item>, n: nat, v: Url)
    requires n <= |items| && forall i :: 0 <= i < n ==> items[i].candidate.url != v
    ensures Only(v, ItemsLog(decisions, items, n)) == []
  {
    hide ItemWrites, DecisionFor;
    if n > 0 {
      ItemsAbsent(decisions, items, n - 1, v);
      var ws := ItemWrites(DecisionFor(decisions, items[n - 1]), items[n - 1]);
      OnlyNone(v, ws);
      OnlyConcat(v, ItemsLog(decisions, items, n - 1), ws);
    }
  }

  /** The log of a search result names each new candidate in its own writes only. */
  lemma {:induction false} ItemsPresent(decisions: map<string, Decision>, items: seq<Item>, n: nat, i: nat)
    requires DistinctItems(items) && i < n <= |items|
    ensures Only(items[i].candidate.url, ItemsLog(decisions, items, n)) ==
            ItemWrites(DecisionFor(decisions, items[i]), items[i])
  {
    hide ItemWrites, DecisionFor, Only;
    var v := items[i].candidate.url;
    var ws := ItemWrites(DecisionFor(decisions, items[n - 1]), items[n - 1]);
    OnlyConcat(v, ItemsLog(decisions, items, n - 1), ws);
    if i == n - 1 {
      ItemsAbsent(decisions, items, n - 1, v);
      OnlyAll(v, ws);
    } else {
      ItemsPresent(decisions, items, n - 1, i);
      assert items[i].candidate.url != items[n - 1].candidate.url;
      OnlyNone(v, ws);
    }
  }

  /** The new candidates of a search result: each meets its fate, and nothing else changes. */
  lemma ItemsCell(db: Db, decisions: map<string, Decision>, items: seq<Item>, indexing: bool, v: Url)
    requires DistinctItems(items)
    ensures var after := ApplyAll(db, ItemsLog(decisions, items, |items|));
            && ((forall i :: 0 <= i < |items| ==> items[i].candidate.url != v) ==> At(after, v) == At(db, v))
            && (forall i :: 0 <= i < |items| && items[i].candidate.url == v && Untouched(At(db, v)) ==>
                  FateCell(FateOf(DecisionFor(decisions, items[i]), items[i], indexing), At(after, v)))
  {
    hide FateOf, ItemWrites, FateCell, DecisionFor, ItemsLog, Untouched;
    FinalByUrl(db, ItemsLog(decisions, items, |items|), v);
    if forall i :: 0 <= i < |items| ==> items[i].candidate.url != v {
      ItemsAbsent(decisions, items, |items|, v);
    }
    forall i | 0 <= i < |items| && items[i].candidate.url == v && Untouched(At(db, v))
      ensures FateCell(FateOf(DecisionFor(decisions, items[i]), items[i], indexing),
                       At(ApplyAll(db, ItemsLog(decisions, items, |items|)), v))
    {
      ItemsPresent(decisions, items, |items|, i);
      var d := DecisionFor(decisions, items[i]);
      ItemCell(At(db, v), d, items[i], indexing, |ItemWrites(d, items[i])|);
    }
  }

  /** The new candidates of a search result end as the replies about them have it; a decision of any batch
      goes before the single review. */
  lemma NewItemOutcome(db: Db, decisions: map<string, Decision>, items: seq<Item>, i: nat)
    requires DistinctItems(items) && i < |items| && At(db, items[i].candidate.url).row.Some?
    ensures var item := items[i];
            var u, key := item.candidate.url, item.candidate.key;
            var after := At(ApplyAll(db, ItemsLog(decisions, items, |items|)), u);
            && (key in decisions ==> ItemReplied(At(db, u), after, Returns(decisions[key]), item))
            && (key !in decisions ==> ItemReplied(At(db, u), after, item.initial, item))
  {
    hide ItemWrites, ItemReplied, ApplyAll;
    var u := items[i].candidate.url;
    FinalByUrl(db, ItemsLog(decisions, items, |items|), u);
    ItemsPresent(decisions, items, |items|, i);
    ItemOutcome(At(db, u), DecisionFor(decisions, items[i]), items[i]);
  }

  /** Wherever the processing of a search result is cut off, the notice invariants hold. */
  lemma ItemsEveryStep(db: Db, decisions: map<string, Decision>, items: seq<Item>, ok: Cell -> bool)
    requires Between(ok) && Everywhere(db, ok) && DistinctItems(items)
    requires forall i :: 0 <= i < |items| ==> Untouched(At(db, items[i].candidate.url))
    ensures AtEveryStep(db, ItemsLog(decisions, items, |items|), ok)
  {
    hide FateOf, ItemWrites, FateCell, DecisionFor;
    var log := ItemsLog(decisions, items, |items|);
    forall v, n | 0 <= n <= |Only(v, log)| ensures ok(CellAll(At(db, v), v, Only(v, log)[..n])) {
      assert ok(At(db, v));
      if i :| 0 <= i < |items| && items[i].candidate.url == v {
        ItemsPresent(decisions, items, |items|, i);
        ItemCell(At(db, v), DecisionFor(decisions, items[i]), items[i], false, n);
      } else {
        ItemsAbsent(decisions, items, |items|, v);
        assert Only(v, log)[..n] == [];
      }
    }
    AtEveryStepByUrl(db, log, ok);
  }

  // ---------------------------------------------------------------- the saving phase

  lemma SaveNext(db: Db, items: seq<Item>, k: nat, u: Url)
    requires k < |items|
    ensures var before, after := At(ApplyAll(db, SaveLog(items, k)), u), At(ApplyAll(db, SaveLog(items, k + 1)), u);
            && IsNew(db, items, k) ==
               (!items[k].saveFault && At(ApplyAll(db, SaveLog(items, k)), items[k].candidate.url).row.None?)
            && after == if IsNew(db, items, k) && items[k].candidate.url == u
                        then before.(row := Some(NewRow(items[k].candidate, None))) else before
  {
    ApplyAllAppend(db, SaveLog(items, k), Insert(items[k].candidate, None));
    assert items[k].saveFault ==> SaveLog(items, k + 1) == SaveLog(items, k);
  }

  /** A cell is as it was, or an unknown url has got a pending row. */
  predicate Inserted(before: Cell, after: Cell) {
    after == before || (before.row.None? && IsPending(after) && after.notice == before.notice)
  }

  lemma OneMoreRow(before: Cell, mid: Cell, after: Cell, c: Candidate)
    requires Inserted(before, mid)
    requires after == mid || (mid.row.None? && after == mid.(row := Some(NewRow(c, None))))
    ensures Inserted(before, after)
  {
  }

  /** Saving inserts pending rows for unknown urls and does nothing else. */
  lemma {:induction false} SaveCell(db: Db, items: seq<Item>, n: nat, u: Url)
    requires n <= |items|
    ensures Inserted(At(db, u), At(ApplyAll(db, SaveLog(items, n)), u))
  {
    assert SaveLog(items, 0) == [] && ApplyAll(db, []) == db;
    assert Inserted(At(db, u), At(db, u));
    hide ApplyAll, At, SaveLog, IsNew, NewRow, Inserted;
    if n > 0 {
      SaveCell(db, items, n - 1, u);
      SaveNext(db, items, n - 1, u);
      OneMoreRow(At(db, u), At(ApplyAll(db, SaveLog(items, n - 1)), u), At(ApplyAll(db, SaveLog(items, n)), u),
                 items[n - 1].candidate);
    }
  }

  lemma {:induction false} SaveLogPrefix(items: seq<Item>, n: nat, k: nat) returns (m: nat)
    requires n <= |items| && k <= |SaveLog(items, n)|
    ensures m <= n && SaveLog(items, n)[..k] == SaveLog(items, m)
  {
    if k == |SaveLog(items, n)| {
      m := n;
      assert SaveLog(items, n)[..k] == SaveLog(items, n);
    } else {
      m := SaveLogPrefix(items, n - 1, k);
    }
  }

  lemma SaveEveryStep(db: Db, items: seq<Item>, ok: Cell -> bool)
    requires Between(ok) && Everywhere(db, ok)
    ensures AtEveryStep(db, SaveLog(items, |items|), ok)
  {
    forall k, u | 0 <= k <= |SaveLog(items, |items|)| ensures ok(At(ApplyAll(db, SaveLog(items, |items|)[..k]), u)) {
      var m := SaveLogPrefix(items, |items|, k);
      SaveCell(db, items, m, u);
      assert ok(At(db, u));
    }
  }

  /** The new candidates have different urls, all unknown before and pending after the saving. */
  lemma {:induction false} NewItemsFresh(db: Db, items: seq<Item>, n: nat)
    requires n <= |items|
    ensures DistinctItems(NewItems(db, items, n))
    ensures forall item :: item in NewItems(db, items, n) ==> Introduced(db, items, n, item.candidate.url)
  {
    hide IsNew, Introduced;
    if n > 0 {
      NewItemsFresh(db, items, n - 1);
      var before := NewItems(db, items, n - 1);
      forall item | item in before ensures Introduced(db, items, n, item.candidate.url) {
        StillIntroduced(db, items, n - 1, item.candidate.url);
      }
      if IsNew(db, items, n - 1) {
        JustIntroduced(db, items, n - 1);
        forall i | 0 <= i < |before| ensures before[i].candidate.url != items[n - 1].candidate.url {
          assert before[i] in before;
          IntroducedNotNew(db, items, n - 1, before[i].candidate.url);
        }
      }
    }
  }

  /** An unknown url that has a pending row after the first `n` items were saved. */
  ghost predicate Introduced(db: Db, items: seq<Item>, n: nat, u: Url)
    requires n <= |items|
  {
    At(db, u).row.None? && IsPending(At(ApplyAll(db, SaveLog(items, n)), u))
  }

  lemma StillIntroduced(db: Db, items: seq<Item>, n: nat, u: Url)
    requires n < |items| && Introduced(db, items, n, u)
    ensures Introduced(db, items, n + 1, u)
  {
    hide ApplyAll, At, SaveLog, IsNew;
    SaveNext(db, items, n, u);
  }

  lemma JustIntroduced(db: Db, items: seq<Item>, n: nat)
    requires n < |items| && IsNew(db, items, n)
    ensures Introduced(db, items, n + 1, items[n].candidate.url)
  {
    hide ApplyAll, At, SaveLog, IsNew;
    SaveNext(db, items, n, items[n].candidate.url);
    SaveCell(db, items, n, items[n].candidate.url);
  }

  lemma IntroducedNotNew(db: Db, items: seq<Item>, n: nat, u: Url)
    requires n < |items| && Introduced(db, items, n, u) && IsNew(db, items, n)
    ensures u != items[n].candidate.url
  {
  }

  /** A url that an event of the saving phase calls a duplicate has a row by then. */
  lemma {:induction false} DuplicatesKnown(db: Db, items: seq<Item>, n: nat, u: Url)
    requires n <= |items| && Settled(u, Duplicate) in SaveEvents(db, items, n)
    ensures At(ApplyAll(db, SaveLog(items, n)), u).row.Some?
  {
    hide ApplyAll, At, SaveLog, IsNew;
    SaveNext(db, items, n - 1, u);
    if Settled(u, Duplicate) in SaveEvents(db, items, n - 1) {
      DuplicatesKnown(db, items, n - 1, u);
    }
  }

  // ---------------------------------------------------------------- a search result, and the run

  /** Wherever a search result is cut off, the notice invariants hold. */
  lemma GroupEveryStep(db: Db, g: Group, cfg: Config, ok: Cell -> bool)
    requires Between(ok) && Everywhere(db, ok)
    ensures AtEveryStep(db, GroupLog(db, g, cfg), ok)
  {
    hide NewItems, SaveLog, ItemsLog, Decisions, Batches, Between, ApplyAll, Untouched, AtEveryStep;
    if g.search.Raises? {
      EmptySteps(db, ok);
    } else {
      var items := g.search.value;
      SaveEveryStep(db, items, ok);
      NewItemsUntouched(db, items, ok);
      var saved, newOnes := ApplyAll(db, SaveLog(items, |items|)), NewItems(db, items, |items|);
      LastStep(db, SaveLog(items, |items|), ok);
      ItemsEveryStep(saved, DecisionsOf(db, g, cfg), newOnes, ok);
      StepsConcat(db, SaveLog(items, |items|), ItemsLog(DecisionsOf(db, g, cfg), newOnes, |newOnes|), ok);
    }
  }

  lemma LastStep(db: Db, log: seq<Write>, ok: Cell -> bool)
    requires AtEveryStep(db, log, ok)
    ensures Everywhere(ApplyAll(db, log), ok)
  {
    assert log[..|log|] == log;
  }

  lemma NewItemsUntouched(db: Db, items: seq<Item>, ok: Cell -> bool)
    requires Between(ok) && Everywhere(db, ok)
    ensures DistinctItems(NewItems(db, items, |items|))
    ensures forall i :: 0 <= i < |NewItems(db, items, |items|)| ==>
              Untouched(At(ApplyAll(db, SaveLog(items, |items|)), NewItems(db, items, |items|)[i].candidate.url))
  {
    var newOnes := NewItems(db, items, |items|);
    NewItemsFresh(db, items, |items|);
    forall i | 0 <= i < |newOnes|
      ensures Untouched(At(ApplyAll(db, SaveLog(items, |items|)), newOnes[i].candidate.url))
    {
      assert newOnes[i] in newOnes && ok(At(db, newOnes[i].candidate.url));
      SaveCell(db, items, |items|, newOnes[i].candidate.url);
    }
  }

  /** A candidate that was known before keeps its row and notice through a search result. */
  lemma GroupKeepsKnown(db: Db, g: Group, cfg: Config, u: Url)
    requires At(db, u).row.Some?
    ensures At(ApplyAll(db, GroupLog(db, g, cfg)), u) == At(db, u)
  {
    assert ApplyAll(db, []) == db;
    hide NewItems, SaveLog, ItemsLog, Decisions, Batches, ApplyAll, FateOf, FateCell, At;
    if g.search.Returns? {
      var items := g.search.value;
      NewItemsFresh(db, items, |items|);
      SaveCell(db, items, |items|, u);
      var saved, newOnes := ApplyAll(db, SaveLog(items, |items|)), NewItems(db, items, |items|);
      var decisions := DecisionsOf(db, g, cfg);
      forall i | 0 <= i < |newOnes| ensures newOnes[i].candidate.url != u { assert newOnes[i] in newOnes; }
      ItemsCell(saved, decisions, newOnes, cfg.indexing, u);
      ApplyAllConcat(db, SaveLog(items, |items|), ItemsLog(decisions, newOnes, |newOnes|));
    } else {
      assert GroupLog(db, g, cfg) == [];
    }
  }

  lemma {:induction false} ItemsEventAt(decisions: map<string, Decision>, items: seq<Item>, indexing: bool, n: nat,
                                        e: Event)
      returns (i: nat)
    requires n <= |items| && e in ItemsEvents(decisions, items, indexing, n)
    ensures i < n && e == Settled(items[i].candidate.url, FateOf(DecisionFor(decisions, items[i]), items[i], indexing))
  {
    hide FateOf, DecisionFor;
    if e in ItemsEvents(decisions, items, indexing, n - 1) {
      i := ItemsEventAt(decisions, items, indexing, n - 1, e);
    } else {
      i := n - 1;
    }
  }

  lemma {:induction false} SaveEventKinds(db: Db, items: seq<Item>, n: nat, e: Event)
    requires n <= |items| && e in SaveEvents(db, items, n)
    ensures e.Settled? && (e.fate.Duplicate? || e.fate.SaveFailed?)
  {
    hide IsNew;
    if e in SaveEvents(db, items, n - 1) {
      SaveEventKinds(db, items, n - 1, e);
    }
  }

  /** A save that raises and a save that finds the url known are reported as what they are. */
  lemma {:induction false} SaveEventsAre(db: Db, items: seq<Item>, n: nat, u: Url)
    requires n <= |items|
    ensures Settled(u, SaveFailed(StoreFault)) in SaveEvents(db, items, n) <==>
            exists k :: 0 <= k < n && items[k].candidate.url == u && items[k].saveFault
    ensures Settled(u, Duplicate) in SaveEvents(db, items, n) <==>
            exists k :: 0 <= k < n && items[k].candidate.url == u && !items[k].saveFault
                        && u in ApplyAll(db, SaveLog(items, k)).rows
  {
    hide ApplyAll, SaveLog;
    if n > 0 {
      SaveEventsAre(db, items, n - 1, u);
    }
  }

  lemma {:induction false} BatchEventKinds(g: Group, size: nat, n: nat, k: nat, e: Event)
    requires e in BatchEvents(g, size, n, k)
    ensures e.BatchFailed?
  {
    if e in BatchEvents(g, size, n, k - 1) {
      BatchEventKinds(g, size, n, k - 1, e);
    }
  }

  /** Processing never takes a row away. */
  lemma ItemsKeepRows(db: Db, decisions: map<string, Decision>, items: seq<Item>, u: Url)
    requires DistinctItems(items) && At(db, u).row.Some?
    requires forall i :: 0 <= i < |items| ==> Untouched(At(db, items[i].candidate.url))
    ensures At(ApplyAll(db, ItemsLog(decisions, items, |items|)), u).row.Some?
  {
    hide At, ApplyAll, ItemsLog;
    ItemsCell(db, decisions, items, false, u);
    if i :| 0 <= i < |items| && items[i].candidate.url == u {
      assert FateCell(FateOf(DecisionFor(decisions, items[i]), items[i], false),
                      At(ApplyAll(db, ItemsLog(decisions, items, |items|)), u));
    }
  }

  /** What the events of a search result say of a candidate is what the database says. */
  lemma GroupFates(db: Db, g: Group, cfg: Config, e: Event)
    requires Everywhere(db, NoticeDecided) && e in GroupEvents(db, g, cfg) && e.Settled?
    ensures FateCell(e.fate, At(ApplyAll(db, GroupLog(db, g, cfg)), e.url))
  {
    var items := g.search.value;
    NewItemsUntouched(db, items, NoticeDecided);
    if e in SaveEvents(db, items, |items|) {
      SaveEventKinds(db, items, |items|, e);
      if e.fate.Duplicate? { DuplicatesKnown(db, items, |items|, e.url); }
    }
    hide NewItems, SaveLog, ItemsLog, Decisions, Batches,
         ApplyAll, FateOf, At, Untouched, SaveEvents, ItemsEvents, BatchEvents;
    var newOnes := NewItems(db, items, |items|);
    var saved, decisions := ApplyAll(db, SaveLog(items, |items|)), DecisionsOf(db, g, cfg);
    ApplyAllConcat(db, SaveLog(items, |items|), ItemsLog(decisions, newOnes, |newOnes|));
    if e in SaveEvents(db, items, |items|) {
      if e.fate.Duplicate? { ItemsKeepRows(saved, decisions, newOnes, e.url); }
    } else if e in ItemsEvents(decisions, newOnes, cfg.indexing, |newOnes|) {
      var i := ItemsEventAt(decisions, newOnes, cfg.indexing, |newOnes|, e);
      ItemsCell(saved, decisions, newOnes, cfg.indexing, e.url);
    } else {
      BatchEventKinds(g, Max(1, cfg.batchSize), |newOnes|, Batches(cfg, |newOnes|), e);
    }
  }

  /** At every await of a daily run every notice belongs to an accepted candidate, if so at its start. */
  lemma {:induction false} DailyEveryStep(db: Db, groups: seq<Group>, cfg: Config, n: nat, ok: Cell -> bool)
    requires Between(ok) && Everywhere(db, ok) && n <= |groups|
    ensures AtEveryStep(db, RunLog(db, groups, cfg, n), ok)
  {
    hide GroupLog, Between, Everywhere, AtEveryStep, ApplyAll;
    if n == 0 {
      EmptySteps(db, ok);
    } else {
      DailyEveryStep(db, groups, cfg, n - 1, ok);
      var before := RunLog(db, groups, cfg, n - 1);
      LastStep(db, before, ok);
      GroupEveryStep(ApplyAll(db, before), groups[n - 1], cfg, ok);
      StepsConcat(db, before, GroupLog(ApplyAll(db, before), groups[n - 1], cfg), ok);
    }
  }

  /** At the end of the run each candidate is where its counter says: a filtered one is rejected
      without a notice, a detail failure accepted without one, a saved one accepted with its notice,
      and one lost before being saved has no notice and is not rejected. */
  lemma {:induction false} DailyFates(db: Db, groups: seq<Group>, cfg: Config, n: nat, e: Event)
    requires Everywhere(db, NoticeDecided) && n <= |groups|
    requires e in RunEvents(db, groups, cfg, n) && e.Settled?
    ensures FateCell(e.fate, At(ApplyAll(db, RunLog(db, groups, cfg, n)), e.url))
  {
    hide GroupLog, GroupEvents, Everywhere, AtEveryStep, ApplyAll, At;
    var before := RunLog(db, groups, cfg, n - 1);
    var mid, g := ApplyAll(db, before), groups[n - 1];
    ApplyAllConcat(db, before, GroupLog(mid, g, cfg));
    DecidedIsBetween();
    DailyEveryStep(db, groups, cfg, n - 1, NoticeDecided);
    LastStep(db, before, NoticeDecided);
    if e in RunEvents(db, groups, cfg, n - 1) {
      DailyFates(db, groups, cfg, n - 1, e);
      if !e.fate.SaveFailed? { GroupKeepsKnown(mid, g, cfg, e.url); }
    } else {
      GroupFates(mid, g, cfg, e);
    }
  }

  lemma DecidedIsBetween()
    ensures Between(NoticeDecided) && Between(NoticeAccepted)
  {
  }
}
