/** The batch run over pending candidates (scripts/resume_pending_tenders.py, `run` without
    --accepted-missing): each batch is reviewed at once, whatever the batch answer lacks is
    reviewed one by one, and unless only screening was asked for, the accepted candidates of
    the batch then go through detail extraction. */
module ScreenPending {
  import opened Common
  import opened TenderStore
  import opened TaskPool
  import opened ResumePending

  /** The replies of one run: to the review of the b-th batch, and per url to the single review,
      to the decision update and to the detail task. */
  datatype Env = Env(batches: seq<Answer<map<string, Decision>>>, singles: map<Url, Answer<Decision>>,
                     updateFaults: set<Url>, details: map<Url, DetailReplies>)
  {
    function Batch(b: nat): Answer<map<string, Decision>> {
      if b < |batches| then batches[b] else Raises(StoreFault)
    }

    function Single(u: Url): Answer<Decision> {
      if u in singles then singles[u] else Raises(StoreFault)
    }
  }

  /** A failed batch review counts as an empty one. */
  function BatchDecisions(env: Env, b: nat): map<string, Decision> {
    if env.Batch(b).Returns? then env.Batch(b).value else map[]
  }

  /** A decision that the batch filed under the candidate's key spares the single review. */
  function ScreenDecision(env: Env, b: nat, c: Candidate): Answer<Decision> {
    if c.key in BatchDecisions(env, b) then Returns(BatchDecisions(env, b)[c.key]) else env.Single(c.url)
  }

  function ReviewFailed(c: Candidate, e: Cause): Failure {
    Failure(CandidateReview, c.url, e)
  }

  /** Positive: accepted for detail; negative: filtered out. */
  function ScreenVerdict(env: Env, b: nat, c: Candidate): Verdict {
    match ScreenDecision(env, b, c)
    case Raises(e) => Failed(ReviewFailed(c, e))
    case Returns(d) =>
      if c.url in env.updateFaults then Failed(ReviewFailed(c, StoreFault))
      else if d.isRelevant then Positive else Negative
  }

  function ScreenWrites(env: Env, b: nat, c: Candidate): (ws: seq<Write>)
    ensures forall w :: w in ws ==> Target(w) == c.url && !w.Insert?
  {
    if ScreenVerdict(env, b, c).Failed? then [] else [Decide(c.url, ScreenDecision(env, b, c).value)]
  }

  /** A pending candidate after its screening: a decision of its batch goes before the single review, and
      the row takes over the decision unless the update fails. */
  ghost predicate ScreenReplied(before: Cell, after: Cell, c: Candidate, batch: Answer<map<string, Decision>>,
                                single: Answer<Decision>, fault: bool)
  {
    var batched := batch.Returns? && c.key in batch.value;
    && (batched && !fault ==> TakesOver(before, after, batch.value[c.key]))
    && (!batched && single.Returns? && !fault ==> TakesOver(before, after, single.value))
    && (fault || (!batched && single.Raises?) ==> after == before)
  }

  ghost predicate TakesOver(before: Cell, after: Cell, d: Decision) {
    && before.row.Some? && after.notice == before.notice
    && after.row == Some(before.row.value.(status := if d.isRelevant then Accepted else Rejected,
                                           reason := d.reason, source := d.source))
  }

  /** The screening of a candidate, read off the replies. */
  lemma ScreenOutcome(cell: Cell, env: Env, b: nat, c: Candidate)
    requires IsPending(cell)
    ensures var after := CellAll(cell, c.url, ScreenWrites(env, b, c));
            ScreenReplied(cell, after, c, env.Batch(b), env.Single(c.url), c.url in env.updateFaults)
    ensures var v, after := ScreenVerdict(env, b, c), CellAll(cell, c.url, ScreenWrites(env, b, c));
            && (v.Positive? <==> IsAccepted(after)) && (v.Negative? <==> IsRejected(after))
            && (v.Failed? <==> IsPending(after))
            && (v.Failed? ==> v.error.phase == CandidateReview && v.error.url == c.url)
            && (v.Failed? && c.url !in env.updateFaults ==> Raises(v.error.cause) == env.Single(c.url))
  {
    if !ScreenVerdict(env, b, c).Failed? {
      CellOne(cell, c.url, Decide(c.url, ScreenDecision(env, b, c).value));
    }
  }

  function DetailPart(env: Env, b: nat, c: Candidate, skip: bool): (ws: seq<Write>)
    ensures forall w :: w in ws ==> Target(w) == c.url && !w.Insert?
  {
    if ScreenVerdict(env, b, c).Positive?
    then DetailWrites(c, ScreenDecision(env, b, c).value, skip, ReplyTo(env.details, c.url)) else []
  }

  /** Everything a run writes about one candidate. */
  function CandidateWrites(env: Env, b: nat, c: Candidate, screenOnly: bool, skip: bool): seq<Write> {
    ScreenWrites(env, b, c) + if screenOnly then [] else DetailPart(env, b, c, skip)
  }

  // ---------------------------------------------------------------- logs and totals of a run

  /** The counters of a run result. */
  datatype Totals = Totals(saved: nat, filtered: nat, failures: nat, errors: nat)
  {
    /** A screened candidate: failures are reported but are not detail failures. */
    function Screen(v: Verdict): Totals {
      match v
      case Positive => this
      case Negative => this.(filtered := filtered + 1)
      case Failed(_) => this.(errors := errors + 1)
    }

    function Detail(v: Verdict): Totals {
      match v
      case Positive => this.(saved := saved + 1)
      case Negative => this.(filtered := filtered + 1)
      case Failed(_) => this.(failures := failures + 1, errors := errors + 1)
    }
  }

  ghost function TotalsOf(r: RunResult): Totals
    reads r
  {
    Totals(r.savedNotices, r.filteredOut, r.detailFetchFailures, |r.errors|)
  }

  /** The batch cs[lo..hi] while it is screened. */
  function ScreenLog(env: Env, b: nat, cs: seq<Candidate>, lo: nat, hi: nat): seq<Write>
    requires lo <= hi <= |cs|
    decreases hi
  {
    if lo == hi then [] else ScreenLog(env, b, cs, lo, hi - 1) + ScreenWrites(env, b, cs[hi - 1])
  }

  function ScreenTotals(env: Env, b: nat, cs: seq<Candidate>, lo: nat, hi: nat, t: Totals): Totals
    requires lo <= hi <= |cs|
    decreases hi
  {
    if lo == hi then t else ScreenTotals(env, b, cs, lo, hi - 1, t).Screen(ScreenVerdict(env, b, cs[hi - 1]))
  }

  /** The candidates of the batch that were accepted for detail, with their decisions. */
  function AcceptedForDetail(env: Env, b: nat, cs: seq<Candidate>, lo: nat, hi: nat): seq<(Candidate, Decision)>
    requires lo <= hi <= |cs|
    decreases hi
  {
    if lo == hi then []
    else
      var before := AcceptedForDetail(env, b, cs, lo, hi - 1);
      if ScreenVerdict(env, b, cs[hi - 1]).Positive?
      then before + [(cs[hi - 1], ScreenDecision(env, b, cs[hi - 1]).value)] else before
  }

  function ItemWrites(env: Env, item: (Candidate, Decision), skip: bool): seq<Write> {
    DetailWrites(item.0, item.1, skip, ReplyTo(env.details, item.0.url))
  }

  function ItemVerdict(env: Env, item: (Candidate, Decision), skip: bool): Verdict {
    DetailVerdict(item.0, item.1, skip, ReplyTo(env.details, item.0.url))
  }

  /** The first `n` accepted candidates while they are extracted. */
  function ItemsLog(env: Env, items: seq<(Candidate, Decision)>, skip: bool, n: nat): seq<Write>
    requires n <= |items|
  {
    if n == 0 then [] else ItemsLog(env, items, skip, n - 1) + ItemWrites(env, items[n - 1], skip)
  }

  function ItemsTotals(env: Env, items: seq<(Candidate, Decision)>, skip: bool, n: nat, t: Totals): Totals
    requires n <= |items|
  {
    if n == 0 then t else ItemsTotals(env, items, skip, n - 1, t).Detail(ItemVerdict(env, items[n - 1], skip))
  }

  /** The same, read off the batch itself. */
  function DetailLog(env: Env, b: nat, cs: seq<Candidate>, lo: nat, hi: nat, skip: bool): seq<Write>
    requires lo <= hi <= |cs|
    decreases hi
  {
    if lo == hi then [] else DetailLog(env, b, cs, lo, hi - 1, skip) + DetailPart(env, b, cs[hi - 1], skip)
  }

  lemma {:induction false} ItemsExtend(env: Env, items: seq<(Candidate, Decision)>, x: (Candidate, Decision),
                                       skip: bool, n: nat)
    requires n <= |items|
    ensures ItemsLog(env, items + [x], skip, n) == ItemsLog(env, items, skip, n)
  {
    if n > 0 {
      ItemsExtend(env, items, x, skip, n - 1);
    }
  }

  lemma {:induction false} DetailMatches(env: Env, b: nat, cs: seq<Candidate>, lo: nat, hi: nat, skip: bool)
    requires lo <= hi <= |cs|
    ensures var items := AcceptedForDetail(env, b, cs, lo, hi);
            ItemsLog(env, items, skip, |items|) == DetailLog(env, b, cs, lo, hi, skip)
    decreases hi
  {
    if lo < hi {
      DetailMatches(env, b, cs, lo, hi - 1, skip);
      var before := AcceptedForDetail(env, b, cs, lo, hi - 1);
      if ScreenVerdict(env, b, cs[hi - 1]).Positive? {
        ItemsExtend(env, before, (cs[hi - 1], ScreenDecision(env, b, cs[hi - 1]).value), skip, |before|);
      }
    }
  }

  function BatchLog(env: Env, b: nat, cs: seq<Candidate>, lo: nat, hi: nat, screenOnly: bool, skip: bool): seq<Write>
    requires lo <= hi <= |cs|
  {
    ScreenLog(env, b, cs, lo, hi) + if screenOnly then [] else DetailLog(env, b, cs, lo, hi, skip)
  }

  function BatchTotals(env: Env, b: nat, cs: seq<Candidate>, lo: nat, hi: nat, screenOnly: bool, skip: bool,
                       t: Totals): Totals
    requires lo <= hi <= |cs|
  {
    var screened := ScreenTotals(env, b, cs, lo, hi, t);
    var items := AcceptedForDetail(env, b, cs, lo, hi);
    if screenOnly then screened else ItemsTotals(env, items, skip, |items|, screened)
  }

  /** Where the b-th batch of `n` candidates starts. */
  function Start(size: nat, n: nat, b: nat): (lo: nat)
    ensures lo <= n
  {
    if b == 0 then 0 else Min(Start(size, n, b - 1) + size, n)
  }

  /** Batches have `size` candidates, but for the last one. */
  lemma {:induction false} StartIs(size: nat, n: nat, b: nat)
    ensures Start(size, n, b) == Min(b * size, n)
  {
    if b > 0 {
      StartIs(size, n, b - 1);
      assert b * size == (b - 1) * size + size;
    }
  }

  /** As many batches as it takes: all but the last one are full, and the last one is not empty. */
  lemma BatchCountIs(size: nat, n: nat)
    requires size >= 1
    ensures var count := BatchCount(size, n, 0); count * size >= n && (count > 0 ==> (count - 1) * size < n)
  {
    hide BatchCount, Start;
    BatchCountLeast(size, n, 0);
    StartIs(size, n, BatchCount(size, n, 0));
    if BatchCount(size, n, 0) > 0 {
      StartIs(size, n, BatchCount(size, n, 0) - 1);
    }
  }

  lemma BatchCountLeast(size: nat, n: nat, b: nat)
    requires size >= 1
    ensures var count := BatchCount(size, n, b);
            Start(size, n, count) == n && (count > b ==> Start(size, n, count - 1) < n)
    decreases n - Start(size, n, b)
  {
    if Start(size, n, b) != n {
      BatchCountLeast(size, n, b + 1);
    }
  }

  /** The number of batches, counted from the b-th on. */
  function BatchCount(size: nat, n: nat, b: nat): (count: nat)
    requires size >= 1
    ensures b <= count && Start(size, n, count) == n
    decreases n - Start(size, n, b)
  {
    if Start(size, n, b) == n then b else BatchCount(size, n, b + 1)
  }

  function NthLog(env: Env, cs: seq<Candidate>, size: nat, b: nat, screenOnly: bool, skip: bool): seq<Write> {
    BatchLog(env, b, cs, Start(size, |cs|, b), Start(size, |cs|, b + 1), screenOnly, skip)
  }

  function NthTotals(env: Env, cs: seq<Candidate>, size: nat, b: nat, screenOnly: bool, skip: bool, t: Totals): Totals {
    BatchTotals(env, b, cs, Start(size, |cs|, b), Start(size, |cs|, b + 1), screenOnly, skip, t)
  }

  /** The first `b` batches. */
  function PendingLog(env: Env, cs: seq<Candidate>, size: nat, b: nat, screenOnly: bool, skip: bool): seq<Write> {
    if b == 0 then []
    else PendingLog(env, cs, size, b - 1, screenOnly, skip) +
         NthLog(env, cs, size, b - 1, screenOnly, skip)
  }

  function PendingTotals(env: Env, cs: seq<Candidate>, size: nat, b: nat, screenOnly: bool, skip: bool,
                         t: Totals): Totals
  {
    if b == 0 then t
    else NthTotals(env, cs, size, b - 1, screenOnly, skip, PendingTotals(env, cs, size, b - 1, screenOnly, skip, t))
  }

  /** Every candidate of a batch is accepted, filtered out or named in one error. */
  lemma {:induction false} ScreenConservation(env: Env, b: nat, cs: seq<Candidate>, lo: nat, hi: nat, t: Totals)
    requires lo <= hi <= |cs|
    ensures var u := ScreenTotals(env, b, cs, lo, hi, t);
            && u.saved == t.saved && u.failures == t.failures
            && |AcceptedForDetail(env, b, cs, lo, hi)| + u.filtered + u.errors == t.filtered + t.errors + hi - lo
    decreases hi
  {
    if lo < hi {
      ScreenConservation(env, b, cs, lo, hi - 1, t);
    }
  }

  lemma {:induction false} ItemsConservation(env: Env, items: seq<(Candidate, Decision)>, skip: bool, n: nat, t: Totals)
    requires n <= |items|
    ensures var u := ItemsTotals(env, items, skip, n, t);
            && u.saved + u.filtered + u.errors == t.saved + t.filtered + t.errors + n
            && u.failures - t.failures == u.errors - t.errors
  {
    if n > 0 {
      ItemsConservation(env, items, skip, n - 1, t);
    }
  }

  /** In a full run every candidate ends up saved, filtered out or named in exactly one error. */
  lemma {:induction false} FullRunConservation(env: Env, cs: seq<Candidate>, size: nat, b: nat, skip: bool, t: Totals)
    ensures var u := PendingTotals(env, cs, size, b, false, skip, t);
            Start(size, |cs|, b) == u.saved + u.filtered + u.errors - (t.saved + t.filtered + t.errors)
  {
    if b > 0 {
      var lo, hi := Start(size, |cs|, b - 1), Start(size, |cs|, b);
      var before := PendingTotals(env, cs, size, b - 1, false, skip, t);
      var items := AcceptedForDetail(env, b - 1, cs, lo, hi);
      FullRunConservation(env, cs, size, b - 1, skip, t);
      ScreenConservation(env, b - 1, cs, lo, hi, before);
      ItemsConservation(env, items, skip, |items|, ScreenTotals(env, b - 1, cs, lo, hi, before));
    }
  }

  // ---------------------------------------------------------------- the run

  method ReviewBatch(env: Env, b: nat) returns (decisions: map<string, Decision>)
    ensures decisions == BatchDecisions(env, b)
  {
    match env.Batch(b) {
      case Returns(answer) => decisions := answer;
      case Raises(_) => decisions := map[];
    }
  }

  method ScreenOne(repo: Repository, result: RunResult, c: Candidate, decisions: map<string, Decision>, b: nat,
                   env: Env)
      returns (decision: Option<Decision>)
    requires repo.Ok() && decisions == BatchDecisions(env, b)
    modifies repo, result
    ensures repo.Ok() && repo.log == old(repo.log) + ScreenWrites(env, b, c)
    ensures result.totalCandidates == old(result.totalCandidates)
    ensures TotalsOf(result) == old(TotalsOf(result)).Screen(ScreenVerdict(env, b, c))
    ensures decision == if ScreenVerdict(env, b, c).Failed? then None else Some(ScreenDecision(env, b, c).value)
  {
    var answer: Answer<Decision>;
    if c.key in decisions {
      answer := Returns(decisions[c.key]);
    } else {
      answer := env.Single(c.url);
    }
    if answer.Raises? {
      result.errors := result.errors + [ReviewFailed(c, answer.error)];
      return None;
    }
    var updated := repo.UpdateCandidateDecision(c.url, answer.value, c.url in env.updateFaults);
    if updated.Raises? {
      result.errors := result.errors + [ReviewFailed(c, StoreFault)];
      return None;
    }
    if !answer.value.isRelevant {
      result.filteredOut := result.filteredOut + 1;
    }
    return Some(answer.value);
  }

  method ScreenBatch(repo: Repository, result: RunResult, cs: seq<Candidate>, lo: nat, hi: nat, b: nat, env: Env)
      returns (accepted: seq<(Candidate, Decision)>, reviewed: nat)
    requires repo.Ok() && lo <= hi <= |cs|
    modifies repo, result
    ensures repo.Ok() && repo.log == old(repo.log) + ScreenLog(env, b, cs, lo, hi)
    ensures accepted == AcceptedForDetail(env, b, cs, lo, hi)
    ensures result.totalCandidates == old(result.totalCandidates)
    ensures TotalsOf(result) == ScreenTotals(env, b, cs, lo, hi, old(TotalsOf(result)))
    ensures reviewed + (|result.errors| - old(|result.errors|)) == hi - lo
  {
    accepted, reviewed := [], 0;
    var decisions := ReviewBatch(env, b);
    for k := lo to hi
      invariant repo.Ok() && repo.log == old(repo.log) + ScreenLog(env, b, cs, lo, k)
      invariant accepted == AcceptedForDetail(env, b, cs, lo, k)
      invariant result.totalCandidates == old(result.totalCandidates)
      invariant TotalsOf(result) == ScreenTotals(env, b, cs, lo, k, old(TotalsOf(result)))
      invariant reviewed + (|result.errors| - old(|result.errors|)) == k - lo
    {
      var decision := ScreenOne(repo, result, cs[k], decisions, b, env);
      if decision.Some? {
        reviewed := reviewed + 1;
        if decision.value.isRelevant {
          accepted := accepted + [(cs[k], decision.value)];
        }
      }
    }
  }

  method ExtractOne(repo: Repository, result: RunResult, item: (Candidate, Decision), skip: bool, env: Env)
    requires repo.Ok()
    modifies repo, result
    ensures repo.Ok() && repo.log == old(repo.log) + ItemWrites(env, item, skip)
    ensures result.totalCandidates == old(result.totalCandidates)
    ensures TotalsOf(result) == old(TotalsOf(result)).Detail(ItemVerdict(env, item, skip))
  {
    var detailOk, saved, error := ProcessDetail(repo, item.0, item.1, skip, ReplyTo(env.details, item.0.url));
    result.Record(detailOk, saved, error);
  }

  method ExtractBatch(repo: Repository, result: RunResult, items: seq<(Candidate, Decision)>, skip: bool, env: Env)
    requires repo.Ok()
    modifies repo, result
    ensures repo.Ok() && repo.log == old(repo.log) + ItemsLog(env, items, skip, |items|)
    ensures result.totalCandidates == old(result.totalCandidates)
    ensures TotalsOf(result) == ItemsTotals(env, items, skip, |items|, old(TotalsOf(result)))
  {
    for k := 0 to |items|
      invariant repo.Ok() && repo.log == old(repo.log) + ItemsLog(env, items, skip, k)
      invariant result.totalCandidates == old(result.totalCandidates)
      invariant TotalsOf(result) == ItemsTotals(env, items, skip, k, old(TotalsOf(result)))
    {
      ExtractOne(repo, result, items[k], skip, env);
    }
  }

  function PendingUrls(db: Db, limit: int): (urls: seq<Url>)
    ensures forall u :: u in urls ==> IsPending(At(db, u))
    ensures limit <= 0 ==> forall u :: u in urls <==> u in db.order && IsPending(At(db, u))
  {
    var all := Select(db, db.order, IsPending);
    assert forall u :: u in Limited(all, limit) ==> u in all;
    Limited(all, limit)
  }

  /** The loader returns the first pending candidates, in the order of the table. */
  lemma PendingTheFirst(db: Db, limit: int)
    requires Valid(db)
    ensures var urls, all := PendingUrls(db, limit), Wanted(db, IsPending);
            && |urls| == (if limit > 0 then Min(limit, |all|) else |all|)
            && (forall i, j :: 0 <= i < j < |urls| ==> Earlier(db.order, urls[i], urls[j]))
            && (forall i, v :: 0 <= i < |urls| && v in all && v !in urls ==> Earlier(db.order, urls[i], v))
  {
    SelectsTheFirst(db, limit, IsPending);
  }

  function LoadPending(db: Db, limit: int): (cs: seq<Candidate>)
    ensures |cs| == |PendingUrls(db, limit)|
  {
    var urls := PendingUrls(db, limit);
    seq(|urls|, i requires 0 <= i < |urls| => assert urls[i] in urls; db.rows[urls[i]].candidate)
  }

  /** One batch: screening, then detail extraction of what was accepted. */
  method RunBatch(repo: Repository, result: RunResult, cs: seq<Candidate>, lo: nat, hi: nat, b: nat,
                  screenOnly: bool, skip: bool, env: Env) returns (reviewed: nat)
    requires repo.Ok() && lo <= hi <= |cs|
    modifies repo, result
    ensures repo.Ok() && repo.log == old(repo.log) + BatchLog(env, b, cs, lo, hi, screenOnly, skip)
    ensures result.totalCandidates == old(result.totalCandidates)
    ensures TotalsOf(result) == BatchTotals(env, b, cs, lo, hi, screenOnly, skip, old(TotalsOf(result)))
    ensures reviewed + |result.errors| - result.detailFetchFailures ==
            hi - lo + old(|result.errors| - result.detailFetchFailures)
  {
    ghost var items := AcceptedForDetail(env, b, cs, lo, hi);
    ScreenConservation(env, b, cs, lo, hi, TotalsOf(result));
    ItemsConservation(env, items, skip, |items|, ScreenTotals(env, b, cs, lo, hi, TotalsOf(result)));
    hide ItemsTotals, ScreenTotals, ItemsLog, ScreenLog, AcceptedForDetail;
    var accepted;
    accepted, reviewed := ScreenBatch(repo, result, cs, lo, hi, b, env);
    if !screenOnly {
      DetailMatches(env, b, cs, lo, hi, skip);
      ExtractBatch(repo, result, accepted, skip, env);
    }
  }

  /** The b-th batch, by its position in the run. */
  method RunNth(repo: Repository, result: RunResult, cs: seq<Candidate>, size: nat, b: nat, screenOnly: bool,
                skip: bool, env: Env) returns (reviewed: nat)
    requires repo.Ok()
    modifies repo, result
    ensures repo.Ok() && result.totalCandidates == old(result.totalCandidates)
    ensures old(repo.log) + NthLog(env, cs, size, b, screenOnly, skip) == repo.log
    ensures TotalsOf(result) == NthTotals(env, cs, size, b, screenOnly, skip, old(TotalsOf(result)))
    ensures reviewed + |result.errors| - result.detailFetchFailures ==
            Start(size, |cs|, b + 1) - Start(size, |cs|, b) + old(|result.errors| - result.detailFetchFailures)
  {
    reviewed := RunBatch(repo, result, cs, Start(size, |cs|, b), Start(size, |cs|, b + 1), b, screenOnly, skip, env);
  }

  method RunBatches(repo: Repository, result: RunResult, cs: seq<Candidate>, size: nat, screenOnly: bool,
                    skip: bool, env: Env) returns (reviewed: nat)
    requires repo.Ok() && size >= 1
    modifies repo, result
    ensures repo.Ok() && repo.log ==
            old(repo.log) + PendingLog(env, cs, size, BatchCount(size, |cs|, 0), screenOnly, skip)
    ensures result.totalCandidates == old(result.totalCandidates)
    ensures TotalsOf(result) ==
            PendingTotals(env, cs, size, BatchCount(size, |cs|, 0), screenOnly, skip, old(TotalsOf(result)))
    ensures reviewed + |result.errors| - result.detailFetchFailures ==
            |cs| + old(|result.errors| - result.detailFetchFailures)
  {
    hide NthLog, NthTotals;
    reviewed := 0;
    var lo, b := 0, 0;
    while lo < |cs|
      invariant repo.Ok() && result.totalCandidates == old(result.totalCandidates)
      invariant lo == Start(size, |cs|, b) && BatchCount(size, |cs|, b) == BatchCount(size, |cs|, 0)
      invariant repo.log == old(repo.log) + PendingLog(env, cs, size, b, screenOnly, skip)
      invariant TotalsOf(result) == PendingTotals(env, cs, size, b, screenOnly, skip, old(TotalsOf(result)))
      invariant reviewed + |result.errors| - result.detailFetchFailures ==
                lo + old(|result.errors| - result.detailFetchFailures)
      decreases |cs| - lo
    {
      var n := RunNth(repo, result, cs, size, b, screenOnly, skip, env);
      reviewed := reviewed + n;
      lo, b := Min(lo + size, |cs|), b + 1;
    }
  }

  method RunPending(repo: Repository, limit: int, batchSize: int, screenOnly: bool, skip: bool, env: Env)
      returns (result: RunResult, reviewed: nat)
    requires repo.Ok()
    modifies repo
    ensures repo.Ok() && fresh(result)
    ensures var cs, size := LoadPending(old(repo.db), limit), Max(1, batchSize);
            var count := BatchCount(size, |cs|, 0);
            && repo.log == old(repo.log) + PendingLog(env, cs, size, count, screenOnly, skip)
            && result.totalCandidates == |cs|
            && TotalsOf(result) == PendingTotals(env, cs, size, count, screenOnly, skip, Totals(0, 0, 0, 0))
    ensures !screenOnly ==>
              result.totalCandidates == result.savedNotices + result.filteredOut + |result.errors|
    ensures reviewed == result.totalCandidates + result.detailFetchFailures - |result.errors|
    ensures repo.db == ApplyAll(old(repo.db), RunLog(old(repo.db), env, limit, Max(1, batchSize), screenOnly, skip))
    ensures var urls := PendingUrls(old(repo.db), limit);
            (forall u :: u in urls ==> u !in old(repo.db).notices) ==>
              Tells(repo.db, urls, screenOnly, TotalsOf(result))
  {
    var cs, size := LoadPending(repo.db, limit), Max(1, batchSize);
    RunTells(repo.db, env, limit, size, screenOnly, skip);
    hide PendingLog, PendingTotals, BatchCount, Explains, Tells, PendingUrls;
    ghost var log := repo.log;
    result := new RunResult(|cs|);
    FullRunConservation(env, cs, size, BatchCount(size, |cs|, 0), skip, TotalsOf(result));
    reviewed := RunBatches(repo, result, cs, size, screenOnly, skip, env);
    LogThen(repo.start, log, RunLog(old(repo.db), env, limit, size, screenOnly, skip), old(repo.db), repo.db);
  }

  // ---------------------------------------------------------------- what a run does to one candidate

  ghost predicate DistinctUrls(cs: seq<Candidate>) {
    forall i, j :: 0 <= i < j < |cs| ==> cs[i].url != cs[j].url
  }

  /** The batch that holds candidate `i`, searched from the b-th on. */
  function BatchOf(size: nat, n: nat, i: nat, b: nat): (k: nat)
    requires size >= 1 && Start(size, n, b) <= i < n
    ensures b <= k && Start(size, n, k) <= i < Start(size, n, k + 1)
    decreases n - Start(size, n, b)
  {
    if i < Start(size, n, b + 1) then b else BatchOf(size, n, i, b + 1)
  }

  lemma {:induction false} StartMonotone(size: nat, n: nat, a: nat, b: nat)
    requires a <= b
    ensures Start(size, n, a) <= Start(size, n, b)
  {
    if a < b {
      StartMonotone(size, n, a, b - 1);
    }
  }

  lemma BatchUnique(size: nat, n: nat, i: nat, a: nat, b: nat)
    requires Start(size, n, a) <= i < Start(size, n, a + 1)
    requires Start(size, n, b) <= i < Start(size, n, b + 1)
    ensures a == b
  {
    if a < b { StartMonotone(size, n, a + 1, b); }
    if b < a { StartMonotone(size, n, b + 1, a); }
  }

  lemma {:induction false} AbsentFromBatch(env: Env, b: nat, cs: seq<Candidate>, lo: nat, hi: nat, skip: bool, u: Url)
    requires lo <= hi <= |cs| && forall i :: lo <= i < hi ==> cs[i].url != u
    ensures Only(u, ScreenLog(env, b, cs, lo, hi)) == []
    ensures Only(u, DetailLog(env, b, cs, lo, hi, skip)) == []
    decreases hi
  {
    hide ScreenWrites, DetailPart;
    if lo < hi {
      AbsentFromBatch(env, b, cs, lo, hi - 1, skip, u);
      OnlyNone(u, ScreenWrites(env, b, cs[hi - 1]));
      OnlyNone(u, DetailPart(env, b, cs[hi - 1], skip));
      OnlyConcat(u, ScreenLog(env, b, cs, lo, hi - 1), ScreenWrites(env, b, cs[hi - 1]));
      OnlyConcat(u, DetailLog(env, b, cs, lo, hi - 1, skip), DetailPart(env, b, cs[hi - 1], skip));
    }
  }

  lemma {:induction false} PresentInBatch(env: Env, b: nat, cs: seq<Candidate>, lo: nat, hi: nat, skip: bool, i: nat)
    requires DistinctUrls(cs) && lo <= i < hi <= |cs|
    ensures Only(cs[i].url, ScreenLog(env, b, cs, lo, hi)) == ScreenWrites(env, b, cs[i])
    ensures Only(cs[i].url, DetailLog(env, b, cs, lo, hi, skip)) == DetailPart(env, b, cs[i], skip)
    decreases hi
  {
    hide ScreenWrites, DetailPart, Only;
    var u, last := cs[i].url, cs[hi - 1];
    OnlyConcat(u, ScreenLog(env, b, cs, lo, hi - 1), ScreenWrites(env, b, last));
    OnlyConcat(u, DetailLog(env, b, cs, lo, hi - 1, skip), DetailPart(env, b, last, skip));
    if i == hi - 1 {
      AbsentFromBatch(env, b, cs, lo, hi - 1, skip, u);
      OnlyAll(u, ScreenWrites(env, b, last));
      OnlyAll(u, DetailPart(env, b, last, skip));
    } else {
      PresentInBatch(env, b, cs, lo, hi - 1, skip, i);
      assert last.url != u;
      OnlyNone(u, ScreenWrites(env, b, last));
      OnlyNone(u, DetailPart(env, b, last, skip));
    }
  }

  lemma NthOnly(env: Env, cs: seq<Candidate>, size: nat, b: nat, screenOnly: bool, skip: bool, i: nat)
    requires DistinctUrls(cs) && i < |cs|
    ensures Only(cs[i].url, NthLog(env, cs, size, b, screenOnly, skip)) ==
            if Start(size, |cs|, b) <= i < Start(size, |cs|, b + 1)
            then CandidateWrites(env, b, cs[i], screenOnly, skip) else []
  {
    var lo, hi := Start(size, |cs|, b), Start(size, |cs|, b + 1);
    var u := cs[i].url;
    OnlyConcat(u, ScreenLog(env, b, cs, lo, hi), if screenOnly then [] else DetailLog(env, b, cs, lo, hi, skip));
    if lo <= i < hi {
      PresentInBatch(env, b, cs, lo, hi, skip, i);
    } else {
      forall j | lo <= j < hi ensures cs[j].url != u {
        if i < j { assert cs[i].url != cs[j].url; } else { assert cs[j].url != cs[i].url; }
      }
      AbsentFromBatch(env, b, cs, lo, hi, skip, u);
    }
  }

  /** The part of the run log that names a candidate, one batch further. */
  lemma PendingStep(env: Env, cs: seq<Candidate>, size: nat, b: nat, screenOnly: bool, skip: bool, u: Url)
    ensures Only(u, PendingLog(env, cs, size, b + 1, screenOnly, skip)) ==
            Only(u, PendingLog(env, cs, size, b, screenOnly, skip)) +
            Only(u, NthLog(env, cs, size, b, screenOnly, skip))
  {
    hide NthLog;
    OnlyConcat(u, PendingLog(env, cs, size, b, screenOnly, skip), NthLog(env, cs, size, b, screenOnly, skip));
  }

  lemma NothingPending(env: Env, cs: seq<Candidate>, size: nat, screenOnly: bool, skip: bool, u: Url)
    ensures Only(u, PendingLog(env, cs, size, 0, screenOnly, skip)) == [] && Start(size, |cs|, 0) == 0
  {
  }

  /** The log of a run names each candidate in exactly one batch. */
  lemma {:induction false} PendingOnly(env: Env, cs: seq<Candidate>, size: nat, b: nat, screenOnly: bool, skip: bool,
                                       i: nat)
    requires size >= 1 && DistinctUrls(cs) && i < |cs|
    ensures Only(cs[i].url, PendingLog(env, cs, size, b, screenOnly, skip)) ==
            if i < Start(size, |cs|, b)
            then CandidateWrites(env, BatchOf(size, |cs|, i, 0), cs[i], screenOnly, skip) else []
  {
    hide NthLog, CandidateWrites, Only, PendingLog, Start, BatchOf;
    NothingPending(env, cs, size, screenOnly, skip, cs[i].url);
    if b > 0 {
      StartMonotone(size, |cs|, b - 1, b);
      PendingOnly(env, cs, size, b - 1, screenOnly, skip, i);
      NthOnly(env, cs, size, b - 1, screenOnly, skip, i);
      PendingStep(env, cs, size, b - 1, screenOnly, skip, cs[i].url);
      if Start(size, |cs|, b - 1) <= i < Start(size, |cs|, b) {
        BatchUnique(size, |cs|, i, b - 1, BatchOf(size, |cs|, i, 0));
      }
    }
  }

  lemma NthAbsent(env: Env, cs: seq<Candidate>, size: nat, b: nat, screenOnly: bool, skip: bool, u: Url)
    requires forall i :: 0 <= i < |cs| ==> cs[i].url != u
    ensures Only(u, NthLog(env, cs, size, b, screenOnly, skip)) == []
  {
    var lo, hi := Start(size, |cs|, b), Start(size, |cs|, b + 1);
    AbsentFromBatch(env, b, cs, lo, hi, skip, u);
    OnlyConcat(u, ScreenLog(env, b, cs, lo, hi),
               if screenOnly then [] else DetailLog(env, b, cs, lo, hi, skip));
  }

  lemma {:induction false} PendingAbsent(env: Env, cs: seq<Candidate>, size: nat, b: nat, screenOnly: bool, skip: bool,
                                         u: Url)
    requires forall i :: 0 <= i < |cs| ==> cs[i].url != u
    ensures Only(u, PendingLog(env, cs, size, b, screenOnly, skip)) == []
  {
    hide NthLog, Only, PendingLog;
    NothingPending(env, cs, size, screenOnly, skip, u);
    if b > 0 {
      PendingAbsent(env, cs, size, b - 1, screenOnly, skip, u);
      NthAbsent(env, cs, size, b - 1, screenOnly, skip, u);
      PendingStep(env, cs, size, b - 1, screenOnly, skip, u);
    }
  }

  lemma LoadedPending(db: Db, limit: int)
    requires Valid(db)
    ensures DistinctUrls(LoadPending(db, limit))
    ensures forall i :: 0 <= i < |LoadPending(db, limit)| ==>
              var c := LoadPending(db, limit)[i];
              IsPending(At(db, c.url)) && db.rows[c.url].candidate == c && c.url == PendingUrls(db, limit)[i]
  {
    SelectDistinct(db, db.order, IsPending);
    var urls, cs := PendingUrls(db, limit), LoadPending(db, limit);
    forall i | 0 <= i < |cs| ensures cs[i].url == urls[i] && IsPending(At(db, urls[i])) {
      assert urls[i] in urls;
    }
  }

  /** The log of a whole run. */
  function RunLog(db: Db, env: Env, limit: int, size: nat, screenOnly: bool, skip: bool): seq<Write>
    requires size >= 1
  {
    var cs := LoadPending(db, limit);
    PendingLog(env, cs, size, BatchCount(size, |cs|, 0), screenOnly, skip)
  }

  /** The writes of a run that concern `u`. */
  lemma RunOnly(db: Db, env: Env, limit: int, size: nat, screenOnly: bool, skip: bool, u: Url)
    requires Valid(db) && size >= 1
    ensures var cs := LoadPending(db, limit);
            && (forall i :: 0 <= i < |cs| && cs[i].url == u ==>
                  Only(u, RunLog(db, env, limit, size, screenOnly, skip)) ==
                  CandidateWrites(env, BatchOf(size, |cs|, i, 0), cs[i], screenOnly, skip))
            && ((forall i :: 0 <= i < |cs| ==> cs[i].url != u) ==>
                  Only(u, RunLog(db, env, limit, size, screenOnly, skip)) == [])
  {
    var cs := LoadPending(db, limit);
    LoadedPending(db, limit);
    if i :| 0 <= i < |cs| && cs[i].url == u {
      PendingOnly(env, cs, size, BatchCount(size, |cs|, 0), screenOnly, skip, i);
      forall j | 0 <= j < |cs| && cs[j].url == u ensures j == i {}
    } else {
      PendingAbsent(env, cs, size, BatchCount(size, |cs|, 0), screenOnly, skip, u);
    }
  }

  /** A pending candidate without a notice, cut off after `n` of the writes of its run. */
  lemma CandidateCell(cell: Cell, env: Env, b: nat, c: Candidate, screenOnly: bool, skip: bool, n: nat)
    requires IsPending(cell) && cell.notice.None?
    requires n <= |CandidateWrites(env, b, c, screenOnly, skip)|
    ensures NoticeAccepted(CellAll(cell, c.url, CandidateWrites(env, b, c, screenOnly, skip)[..n]))
  {
    var ws := CandidateWrites(env, b, c, screenOnly, skip);
    if n == 0 {
      assert CellAll(cell, c.url, ws[..0]) == cell;
    } else {
      var d := ScreenDecision(env, b, c).value;
      var decided := ApplyCell(cell, Decide(c.url, d));
      CellOne(cell, c.url, Decide(c.url, d));
      if n == 1 {
        assert ws[..1] == [ws[0]];
      } else {
        var details := DetailWrites(c, d, skip, ReplyTo(env.details, c.url));
        assert ws[..n] == [ws[0]] + details[..n - 1];
        CellAllConcat(cell, c.url, [ws[0]], details[..n - 1]);
        DetailWritesCell(decided, c, d, skip, ReplyTo(env.details, c.url), n - 1);
      }
    }
  }

  /** Wherever a run over the pending candidates is cut off, the notice invariants hold. */
  lemma PendingEveryStep(db: Db, env: Env, limit: int, size: nat, screenOnly: bool, skip: bool, ok: Cell -> bool)
    requires Valid(db) && size >= 1 && Between(ok) && Everywhere(db, ok)
    ensures AtEveryStep(db, RunLog(db, env, limit, size, screenOnly, skip), ok)
  {
    var cs, log := LoadPending(db, limit), RunLog(db, env, limit, size, screenOnly, skip);
    forall u, n | 0 <= n <= |Only(u, log)| ensures ok(CellAll(At(db, u), u, Only(u, log)[..n])) {
      RunOnly(db, env, limit, size, screenOnly, skip, u);
      assert ok(At(db, u)) && NoticeDecided(At(db, u));
      if i :| 0 <= i < |cs| && cs[i].url == u {
        LoadedPending(db, limit);
        CandidateCell(At(db, u), env, BatchOf(size, |cs|, i, 0), cs[i], screenOnly, skip, n);
      } else {
        assert Only(u, log)[..n] == [];
      }
    }
    AtEveryStepByUrl(db, log, ok);
  }

  // ---------------------------------------------------------------- counters and database

  /** Chunks of `size`: where the i-th candidate is. */
  function BatchNo(size: nat, i: nat): nat
    requires size >= 1
  {
    i / size
  }

  lemma Quotient(size: nat, i: nat)
    requires size >= 1
    ensures BatchNo(size, i) * size <= i < (BatchNo(size, i) + 1) * size
  {
    assert i == i / size * size + i % size;
    assert (i / size + 1) * size == i / size * size + size;
  }

  lemma BatchAt(size: nat, n: nat, i: nat, b: nat)
    requires size >= 1 && i < n && b * size <= i < (b + 1) * size
    ensures BatchOf(size, n, i, 0) == b
  {
    hide Start, BatchOf;
    StartIs(size, n, b);
    StartIs(size, n, b + 1);
    BatchFits(size, n, i);
    BatchUnique(size, n, i, b, BatchOf(size, n, i, 0));
  }

  lemma BatchIs(size: nat, n: nat, i: nat)
    requires size >= 1 && i < n
    ensures BatchOf(size, n, i, 0) == BatchNo(size, i)
  {
    hide BatchOf, BatchNo;
    Quotient(size, i);
    BatchAt(size, n, i, BatchNo(size, i));
  }

  lemma BatchHolds(size: nat, n: nat, i: nat, b: nat)
    requires size >= 1 && Start(size, n, b) <= i < Start(size, n, b + 1)
    ensures BatchNo(size, i) == b
  {
    hide BatchNo, BatchOf;
    BatchIs(size, n, i);
    BatchFits(size, n, i);
    BatchUnique(size, n, i, b, BatchOf(size, n, i, 0));
  }

  lemma EmptyBatch(env: Env, b: nat, cs: seq<Candidate>, lo: nat, screenOnly: bool, skip: bool, t: Totals)
    requires lo <= |cs|
    ensures BatchTotals(env, b, cs, lo, lo, screenOnly, skip, t) == t
  {
  }

  lemma BatchFits(size: nat, n: nat, i: nat)
    requires size >= 1 && i < n
    ensures Start(size, n, 0) == 0
    ensures Start(size, n, BatchOf(size, n, i, 0)) <= i < Start(size, n, BatchOf(size, n, i, 0) + 1)
  {
  }

  /** The final cell of the i-th candidate of a run is decided by its own replies, as ScreenOutcome and
      DetailOutcome tell. */
  lemma PendingCell(db: Db, env: Env, limit: int, size: nat, screenOnly: bool, skip: bool, i: nat)
    requires Valid(db) && size >= 1 && i < |PendingUrls(db, limit)|
    ensures var c, u := LoadPending(db, limit)[i], PendingUrls(db, limit)[i];
            && c.url == u && IsPending(At(db, u)) && db.rows[u].candidate == c
            && At(ApplyAll(db, RunLog(db, env, limit, size, screenOnly, skip)), u) ==
               CandidateCellAfter(At(db, u), env, BatchNo(size, i), c, screenOnly, skip)
  {
    hide ScreenWrites, DetailPart, PendingLog, BatchCount, BatchOf, BatchNo, RunLog, CandidateCellAfter, ApplyAll,
         CandidateWrites;
    var c, u := LoadPending(db, limit)[i], PendingUrls(db, limit)[i];
    LoadedPending(db, limit);
    FinalByUrl(db, RunLog(db, env, limit, size, screenOnly, skip), u);
    RunOnly(db, env, limit, size, screenOnly, skip, u);
    BatchIs(size, |LoadPending(db, limit)|, i);
    CandidateCells(At(db, u), env, BatchNo(size, i), c, screenOnly, skip);
  }

  /** The same, read off the replies: the candidate is screened by its batch or singly, and in a full run an
      accepted one is then extracted, with or without a detail review. */
  lemma PendingFollows(db: Db, env: Env, limit: int, size: nat, screenOnly: bool, skip: bool, i: nat)
    requires Valid(db) && size >= 1 && i < |PendingUrls(db, limit)| && PendingUrls(db, limit)[i] !in db.notices
    ensures var c, b := LoadPending(db, limit)[i], BatchNo(size, i);
            var screened := CellAll(At(db, c.url), c.url, ScreenWrites(env, b, c));
            var after := At(ApplyAll(db, RunLog(db, env, limit, size, screenOnly, skip)), c.url);
            && ScreenReplied(At(db, c.url), screened, c, env.Batch(b), env.Single(c.url), c.url in env.updateFaults)
            && (screenOnly || !IsAccepted(screened) ==> after == screened)
            && (!screenOnly && IsAccepted(screened) ==>
                  DetailReplied(screened, after, skip, ReplyTo(env.details, c.url)))
  {
    var c, b := LoadPending(db, limit)[i], BatchNo(size, i);
    PendingCell(db, env, limit, size, screenOnly, skip, i);
    CandidateFollows(At(db, c.url), env, b, c, screenOnly, skip);
  }

  lemma CandidateFollows(cell: Cell, env: Env, b: nat, c: Candidate, screenOnly: bool, skip: bool)
    requires IsPending(cell) && cell.notice.None?
    ensures var screened := CellAll(cell, c.url, ScreenWrites(env, b, c));
            var after := CandidateCellAfter(cell, env, b, c, screenOnly, skip);
            && ScreenReplied(cell, screened, c, env.Batch(b), env.Single(c.url), c.url in env.updateFaults)
            && (screenOnly || !IsAccepted(screened) ==> after == screened)
            && (!screenOnly && IsAccepted(screened) ==>
                  DetailReplied(screened, after, skip, ReplyTo(env.details, c.url)))
  {
    ScreenOutcome(cell, env, b, c);
    var screened := CellAll(cell, c.url, ScreenWrites(env, b, c));
    if ScreenVerdict(env, b, c).Positive? {
      var d := ScreenDecision(env, b, c).value;
      CellOne(cell, c.url, Decide(c.url, d));
      DetailOutcome(screened, c, d, skip, ReplyTo(env.details, c.url));
    }
  }

  lemma PendingOther(db: Db, env: Env, limit: int, size: nat, screenOnly: bool, skip: bool, u: Url)
    requires Valid(db) && size >= 1 && u !in PendingUrls(db, limit)
    ensures At(ApplyAll(db, RunLog(db, env, limit, size, screenOnly, skip)), u) == At(db, u)
  {
    hide RunLog, ApplyAll, PendingUrls;
    LoadedPending(db, limit);
    FinalByUrl(db, RunLog(db, env, limit, size, screenOnly, skip), u);
    RunOnly(db, env, limit, size, screenOnly, skip, u);
    assert CellAll(At(db, u), u, []) == At(db, u);
  }

  /** Screening, and then, unless only screening was asked for, extraction of an accepted candidate. */
  function CandidateCellAfter(cell: Cell, env: Env, b: nat, c: Candidate, screenOnly: bool, skip: bool): Cell {
    var screened := CellAll(cell, c.url, ScreenWrites(env, b, c));
    if screenOnly || !ScreenVerdict(env, b, c).Positive? then screened
    else CellAll(screened, c.url, ItemWrites(env, (c, ScreenDecision(env, b, c).value), skip))
  }

  lemma CandidateCells(cell: Cell, env: Env, b: nat, c: Candidate, screenOnly: bool, skip: bool)
    ensures CellAll(cell, c.url, CandidateWrites(env, b, c, screenOnly, skip)) ==
            CandidateCellAfter(cell, env, b, c, screenOnly, skip)
  {
    hide ScreenVerdict, ScreenWrites, DetailWrites;
    CellAllConcat(cell, c.url, ScreenWrites(env, b, c), if screenOnly then [] else DetailPart(env, b, c, skip));
  }

  /** One candidate in the counters. */
  function Counted(t: Totals, env: Env, b: nat, c: Candidate, screenOnly: bool, skip: bool): Totals {
    var screened := t.Screen(ScreenVerdict(env, b, c));
    if screenOnly || !ScreenVerdict(env, b, c).Positive? then screened
    else screened.Detail(ItemVerdict(env, (c, ScreenDecision(env, b, c).value), skip))
  }

  /** What the counters say of a candidate is what the database says of it. */
  lemma CountedCell(t: Totals, cell: Cell, env: Env, b: nat, c: Candidate, screenOnly: bool, skip: bool)
    requires IsPending(cell) && cell.notice.None?
    ensures var u, after := Counted(t, env, b, c, screenOnly, skip),
                            CandidateCellAfter(cell, env, b, c, screenOnly, skip);
            && u.saved == t.saved + (if IsAcceptedWithNotice(after) then 1 else 0)
            && u.filtered == t.filtered + (if IsRejected(after) then 1 else 0)
            && u.failures == t.failures + (if !screenOnly && IsAcceptedMissing(after) then 1 else 0)
            && u.errors - u.failures == t.errors - t.failures + (if IsPending(after) then 1 else 0)
            && (screenOnly ==> after.notice.None?)
  {
    ScreenOutcome(cell, env, b, c);
    var screened := CellAll(cell, c.url, ScreenWrites(env, b, c));
    hide ScreenWrites, DetailWrites, CellAll, DetailVerdict;
    if ScreenVerdict(env, b, c).Positive? {
      var d := ScreenDecision(env, b, c).value;
      hide ScreenVerdict, ScreenDecision;
      DetailOutcome(screened, c, d, skip, ReplyTo(env.details, c.url));
    }
  }

  /** The first `n` candidates in the counters, one after another. */
  function AllCounted(env: Env, cs: seq<Candidate>, size: nat, n: nat, screenOnly: bool, skip: bool): Totals
    requires size >= 1 && n <= |cs|
  {
    if n == 0 then Totals(0, 0, 0, 0)
    else Counted(AllCounted(env, cs, size, n - 1, screenOnly, skip), env, BatchNo(size, n - 1), cs[n - 1], screenOnly,
                 skip)
  }

  lemma NoneCounted(env: Env, cs: seq<Candidate>, size: nat, screenOnly: bool, skip: bool)
    requires size >= 1
    ensures AllCounted(env, cs, size, 0, screenOnly, skip) == Totals(0, 0, 0, 0)
  {
  }

  lemma AllCountedNext(env: Env, cs: seq<Candidate>, size: nat, n: nat, screenOnly: bool, skip: bool)
    requires size >= 1 && n < |cs|
    ensures AllCounted(env, cs, size, n + 1, screenOnly, skip) ==
            Counted(AllCounted(env, cs, size, n, screenOnly, skip), env, BatchNo(size, n), cs[n], screenOnly, skip)
  {
  }

  lemma {:induction false} ScreenLater(env: Env, items: seq<(Candidate, Decision)>, skip: bool, n: nat, t: Totals,
                                       v: Verdict)
    requires n <= |items|
    ensures ItemsTotals(env, items, skip, n, t.Screen(v)) == ItemsTotals(env, items, skip, n, t).Screen(v)
  {
    if n > 0 {
      ScreenLater(env, items, skip, n - 1, t, v);
    }
  }

  lemma {:induction false} ItemsTotalsExtend(env: Env, items: seq<(Candidate, Decision)>, x: (Candidate, Decision),
                                             skip: bool, n: nat, t: Totals)
    requires n <= |items|
    ensures ItemsTotals(env, items + [x], skip, n, t) == ItemsTotals(env, items, skip, n, t)
  {
    if n > 0 {
      ItemsTotalsExtend(env, items, x, skip, n - 1, t);
    }
  }

  /** A batch with one more candidate. */
  lemma BatchTotalsNext(env: Env, b: nat, cs: seq<Candidate>, lo: nat, hi: nat, screenOnly: bool, skip: bool, t: Totals)
    requires lo < hi <= |cs|
    ensures BatchTotals(env, b, cs, lo, hi, screenOnly, skip, t) ==
            Counted(BatchTotals(env, b, cs, lo, hi - 1, screenOnly, skip, t), env, b, cs[hi - 1], screenOnly, skip)
  {
    hide ScreenDecision, ItemVerdict;
    var v := ScreenVerdict(env, b, cs[hi - 1]);
    var before, screened := AcceptedForDetail(env, b, cs, lo, hi - 1), ScreenTotals(env, b, cs, lo, hi - 1, t);
    ScreenLater(env, before, skip, |before|, screened, v);
    if v.Positive? {
      var x := (cs[hi - 1], ScreenDecision(env, b, cs[hi - 1]).value);
      ItemsTotalsExtend(env, before, x, skip, |before|, screened.Screen(v));
    }
  }

  lemma {:induction false} BatchCounted(env: Env, cs: seq<Candidate>, size: nat, b: nat, hi: nat, screenOnly: bool,
                                        skip: bool)
    requires size >= 1 && Start(size, |cs|, b) <= hi <= Start(size, |cs|, b + 1)
    ensures BatchTotals(env, b, cs, Start(size, |cs|, b), hi, screenOnly, skip,
                        AllCounted(env, cs, size, Start(size, |cs|, b), screenOnly, skip)) ==
            AllCounted(env, cs, size, hi, screenOnly, skip)
    decreases hi
  {
    var lo := Start(size, |cs|, b);
    var t := AllCounted(env, cs, size, lo, screenOnly, skip);
    hide Counted, ScreenVerdict, Start, BatchNo, BatchTotals;
    if lo == hi {
      EmptyBatch(env, b, cs, lo, screenOnly, skip, t);
    } else {
      BatchCounted(env, cs, size, b, hi - 1, screenOnly, skip);
      BatchTotalsNext(env, b, cs, lo, hi, screenOnly, skip, t);
      BatchHolds(size, |cs|, hi - 1, b);
    }
  }

  /** The counters of a run are those of its candidates one after another. */
  lemma {:induction false} TotalsCounted(env: Env, cs: seq<Candidate>, size: nat, b: nat, screenOnly: bool, skip: bool)
    requires size >= 1
    ensures PendingTotals(env, cs, size, b, screenOnly, skip, Totals(0, 0, 0, 0)) ==
            AllCounted(env, cs, size, Start(size, |cs|, b), screenOnly, skip)
  {
    hide BatchTotals;
    if b > 0 {
      TotalsCounted(env, cs, size, b - 1, screenOnly, skip);
      StartMonotone(size, |cs|, b - 1, b);
      BatchCounted(env, cs, size, b - 1, Start(size, |cs|, b), screenOnly, skip);
    }
  }

  /** The counters are the numbers of those candidates that the database shows as saved, rejected, and, in
      a full run, accepted without a notice; the other errors are about the ones that are still pending. */
  ghost predicate Tells(after: Db, urls: seq<Url>, screenOnly: bool, t: Totals) {
    && t.saved == |Among(after, urls, IsAcceptedWithNotice)|
    && t.filtered == |Among(after, urls, IsRejected)|
    && t.failures == (if screenOnly then 0 else |Among(after, urls, IsAcceptedMissing)|)
    && t.errors == t.failures + |Among(after, urls, IsPending)|
  }

  lemma TellsNext(after: Db, urls: seq<Url>, n: nat, screenOnly: bool, t: Totals, u: Totals)
    requires n < |urls| && Distinct(urls) && Tells(after, urls[..n], screenOnly, t)
    requires Adds(t, u, At(after, urls[n]), screenOnly)
    ensures Tells(after, urls[..n + 1], screenOnly, u)
  {
    hide Among, At;
    AmongNext(after, urls, n, IsAcceptedWithNotice);
    AmongNext(after, urls, n, IsRejected);
    AmongNext(after, urls, n, IsAcceptedMissing);
    AmongNext(after, urls, n, IsPending);
  }

  lemma TellsNothing(after: Db, urls: seq<Url>, screenOnly: bool)
    ensures Tells(after, urls[..0], screenOnly, Totals(0, 0, 0, 0))
  {
    AmongNone(after, urls, IsAcceptedWithNotice);
    AmongNone(after, urls, IsRejected);
    AmongNone(after, urls, IsAcceptedMissing);
    AmongNone(after, urls, IsPending);
  }

  lemma PendingDistinct(db: Db, limit: int)
    requires Valid(db)
    ensures Distinct(PendingUrls(db, limit))
  {
    SelectDistinct(db, db.order, IsPending);
  }

  /** What a candidate adds to the counters, as CountedCell has it. */
  ghost predicate Adds(t: Totals, u: Totals, cell: Cell, screenOnly: bool) {
    && u.saved == t.saved + (if IsAcceptedWithNotice(cell) then 1 else 0)
    && u.filtered == t.filtered + (if IsRejected(cell) then 1 else 0)
    && u.failures == t.failures + (if !screenOnly && IsAcceptedMissing(cell) then 1 else 0)
    && u.errors - u.failures == t.errors - t.failures + (if IsPending(cell) then 1 else 0)
  }

  lemma CandidateAdds(db: Db, env: Env, limit: int, size: nat, screenOnly: bool, skip: bool, n: nat)
    requires Valid(db) && size >= 1 && n < |PendingUrls(db, limit)| && PendingUrls(db, limit)[n] !in db.notices
    ensures var cs, u := LoadPending(db, limit), PendingUrls(db, limit)[n];
            Adds(AllCounted(env, cs, size, n, screenOnly, skip), AllCounted(env, cs, size, n + 1, screenOnly, skip),
                 At(ApplyAll(db, RunLog(db, env, limit, size, screenOnly, skip)), u), screenOnly)
  {
    hide RunLog, Counted, CandidateCellAfter, ApplyAll, PendingUrls, BatchNo, AllCounted;
    var cs, u := LoadPending(db, limit), PendingUrls(db, limit)[n];
    PendingCell(db, env, limit, size, screenOnly, skip, n);
    AllCountedNext(env, cs, size, n, screenOnly, skip);
    CountedCell(AllCounted(env, cs, size, n, screenOnly, skip), At(db, u), env, BatchNo(size, n), cs[n], screenOnly,
                skip);
  }

  lemma {:induction false} CountersTell(db: Db, env: Env, limit: int, size: nat, screenOnly: bool, skip: bool, n: nat)
    requires Valid(db) && size >= 1 && n <= |PendingUrls(db, limit)|
    requires forall u :: u in PendingUrls(db, limit) ==> u !in db.notices
    ensures Tells(ApplyAll(db, RunLog(db, env, limit, size, screenOnly, skip)), PendingUrls(db, limit)[..n], screenOnly,
                  AllCounted(env, LoadPending(db, limit), size, n, screenOnly, skip))
    decreases n
  {
    var urls, after := PendingUrls(db, limit), ApplyAll(db, RunLog(db, env, limit, size, screenOnly, skip));
    var cs := LoadPending(db, limit);
    PendingDistinct(db, limit);
    hide RunLog, ApplyAll, PendingUrls, Tells, AllCounted, Adds, Distinct, Valid, LoadPending;
    if n == 0 {
      TellsNothing(after, urls, screenOnly);
      NoneCounted(env, cs, size, screenOnly, skip);
    } else {
      CountersTell(db, env, limit, size, screenOnly, skip, n - 1);
      assert urls[n - 1] in urls;
      CandidateAdds(db, env, limit, size, screenOnly, skip, n - 1);
      TellsNext(after, urls, n - 1, screenOnly, AllCounted(env, cs, size, n - 1, screenOnly, skip),
                AllCounted(env, cs, size, n, screenOnly, skip));
    }
  }

  /** Counters and database of a whole run. */
  lemma RunTells(db: Db, env: Env, limit: int, size: nat, screenOnly: bool, skip: bool)
    requires Valid(db) && size >= 1
    ensures var cs, urls := LoadPending(db, limit), PendingUrls(db, limit);
            (forall u :: u in urls ==> u !in db.notices) ==>
              Tells(ApplyAll(db, RunLog(db, env, limit, size, screenOnly, skip)), urls, screenOnly,
                    PendingTotals(env, cs, size, BatchCount(size, |cs|, 0), screenOnly, skip, Totals(0, 0, 0, 0)))
  {
    hide RunLog, AllCounted, ApplyAll, PendingUrls, Tells, PendingTotals;
    var cs, urls := LoadPending(db, limit), PendingUrls(db, limit);
    TotalsCounted(env, cs, size, BatchCount(size, |cs|, 0), screenOnly, skip);
    if forall u :: u in urls ==> u !in db.notices {
      CountersTell(db, env, limit, size, screenOnly, skip, |urls|);
      assert urls[..|urls|] == urls;
    }
  }
}
