/** Screening of pending candidates and extraction of accepted ones
    (scripts/resume_pending_tenders.py). Every await is answered by a reply: a value or an
    exception. The replies of one run are given in advance, so that different schedules of
    the same run can be compared. */
module ResumePending {
  import opened Common
  import opened TenderStore
  import opened TaskPool

  /** What the awaits of one `process_detail` call do, if they are reached. */
  datatype DetailReplies = DetailReplies(
    fetch: Answer<string>, review: Answer<Decision>, updateFault: bool,
    extract: Answer<Notice>, saveFault: bool)

  /** A task without a recorded reply gets no answer from the site. */
  function ReplyTo(replies: map<Url, DetailReplies>, u: Url): DetailReplies {
    if u in replies then replies[u]
    else DetailReplies(Raises(StoreFault), Raises(StoreFault), true, Raises(StoreFault), true)
  }

  class RunResult {
    var totalCandidates: nat
    var filteredOut: nat
    var detailFetchFailures: nat
    var savedNotices: nat
    var errors: seq<Failure>

    ghost function Counters(): Tally
      reads this
    {
      Tally(savedNotices, filteredOut, detailFetchFailures)
    }

    /** One iteration of the loop that consumes finished detail tasks. */
    method Record(detailOk: bool, saved: bool, error: Option<Failure>)
      modifies this
      ensures totalCandidates == old(totalCandidates)
      ensures detailOk && error.None? ==> Counters() == Plus(old(Counters()), if saved then Positive else Negative)
      ensures !detailOk && error.Some? ==> Counters() == Plus(old(Counters()), Failed(error.value))
      ensures errors == old(errors) + if error.Some? then [error.value] else []
    {
      if error.Some? {
        errors := errors + [error.value];
      }
      if !detailOk {
        detailFetchFailures := detailFetchFailures + 1;
      } else if saved {
        savedNotices := savedNotices + 1;
      } else {
        filteredOut := filteredOut + 1;
      }
    }

    constructor (total: nat)
      ensures totalCandidates == total && filteredOut == 0 && detailFetchFailures == 0
      ensures savedNotices == 0 && errors == []
    {
      totalCandidates, filteredOut, detailFetchFailures, savedNotices := total, 0, 0, 0;
      errors := [];
    }
  }

  function FetchFailed(c: Candidate, e: Cause): Failure {
    Failure(DetailFetch, c.url, e)
  }

  function ProcessingFailed(c: Candidate, e: Cause): Failure {
    Failure(DetailProcessing, c.url, e)
  }

  // ---------------------------------------------------------------- one detail task

  function DetailDecision(initial: Decision, skip: bool, r: DetailReplies): Answer<Decision> {
    if skip then Returns(initial) else r.review
  }

  function DetailVerdict(c: Candidate, initial: Decision, skip: bool, r: DetailReplies): Verdict {
    if r.fetch.Raises? then Failed(FetchFailed(c, r.fetch.error))
    else match DetailDecision(initial, skip, r)
      case Raises(e) => Failed(ProcessingFailed(c, e))
      case Returns(d) =>
        if r.updateFault then Failed(ProcessingFailed(c, StoreFault))
        else if !d.isRelevant then Negative
        else if r.extract.Raises? then Failed(ProcessingFailed(c, r.extract.error))
        else if r.saveFault then Failed(ProcessingFailed(c, StoreFault))
        else Positive
  }

  /** What the task commits: its decision, and the notice when everything went well. */
  function DetailWrites(c: Candidate, initial: Decision, skip: bool, r: DetailReplies): (ws: seq<Write>)
    ensures forall w :: w in ws ==> Target(w) == c.url && !w.Insert?
  {
    var d := DetailDecision(initial, skip, r);
    if r.fetch.Raises? || d.Raises? || r.updateFault then []
    else if DetailVerdict(c, initial, skip, r).Positive?
    then [Decide(c.url, d.value), Put(c.url, r.extract.value)]
    else [Decide(c.url, d.value)]
  }

  /** The verdict and the final cell of a task, read off its replies: a review that is not skipped has the
      last word, a skipped one leaves the first decision; the notice is the extracted one. */
  lemma DetailOutcome(cell: Cell, c: Candidate, initial: Decision, skip: bool, r: DetailReplies)
    requires cell.row.Some?
    ensures var v := DetailVerdict(c, initial, skip, r);
            && (v.Positive? <==>
                  && r.fetch.Returns? && !r.updateFault && r.extract.Returns? && !r.saveFault
                  && (if skip then initial.isRelevant else r.review.Returns? && r.review.value.isRelevant))
            && (v.Negative? <==>
                  && r.fetch.Returns? && !r.updateFault
                  && (if skip then !initial.isRelevant else r.review.Returns? && !r.review.value.isRelevant))
            && (v.Failed? ==> v.error.url == c.url && (v.error.phase == DetailFetch <==> r.fetch.Raises?))
            && (v.Failed? && r.fetch.Raises? ==> v.error.cause == r.fetch.error)
            && (v.Failed? && r.fetch.Returns? ==>
                  v.error.phase == DetailProcessing && v.error.cause ==
                  if !skip && r.review.Raises? then r.review.error
                  else if !r.updateFault && r.extract.Raises? then r.extract.error else StoreFault)
    ensures var v, after := DetailVerdict(c, initial, skip, r), CellAll(cell, c.url, DetailWrites(c, initial, skip, r));
            && after.row.Some? && after.row.value.candidate == cell.row.value.candidate
            && (r.fetch.Raises? || r.updateFault || (!skip && r.review.Raises?) ==> after.row == cell.row)
            && (r.fetch.Returns? && !r.updateFault && !skip && r.review.Returns? ==>
                  && after.row.value.status == (if r.review.value.isRelevant then Accepted else Rejected)
                  && after.row.value.reason == r.review.value.reason && after.row.value.source == r.review.value.source)
            && (r.fetch.Returns? && !r.updateFault && skip ==>
                  && after.row.value.status == (if initial.isRelevant then Accepted else Rejected)
                  && after.row.value.reason == initial.reason && after.row.value.source == initial.source)
            && (!v.Positive? ==> after.notice == cell.notice)
            && (v.Positive? ==>
                  && after.notice.Some? && after.notice.value.body == r.extract.value.body
                  && after.notice.value.head ==
                     (if cell.notice.Some? then cell.notice.value.head else r.extract.value.head))
  {
    var ws := DetailWrites(c, initial, skip, r);
    if |ws| == 1 {
      CellOne(cell, c.url, ws[0]);
    } else if |ws| == 2 {
      CellTwo(cell, c.url, ws[0], ws[1]);
    }
  }

  method ProcessDetail(repo: Repository, c: Candidate, initial: Decision, skip: bool, r: DetailReplies)
      returns (detailOk: bool, saved: bool, error: Option<Failure>)
    requires repo.Ok()
    modifies repo
    ensures repo.Ok() && repo.log == old(repo.log) + DetailWrites(c, initial, skip, r)
    ensures match DetailVerdict(c, initial, skip, r)
            case Positive => detailOk && saved && error == None
            case Negative => detailOk && !saved && error == None
            case Failed(e) => !detailOk && !saved && error == Some(e)
  {
    if r.fetch.Raises? {
      return false, false, Some(FetchFailed(c, r.fetch.error));
    }
    var decision := initial;
    if !skip {
      if r.review.Raises? {
        return false, false, Some(ProcessingFailed(c, r.review.error));
      }
      decision := r.review.value;
    }
    var updated := repo.UpdateCandidateDecision(c.url, decision, r.updateFault);
    if updated.Raises? {
      return false, false, Some(ProcessingFailed(c, StoreFault));
    }
    if !decision.isRelevant {
      return true, false, None;
    }
    if r.extract.Raises? {
      return false, false, Some(ProcessingFailed(c, r.extract.error));
    }
    var stored := repo.SaveNotice(c.url, r.extract.value, r.saveFault);
    if stored.Raises? {
      return false, false, Some(ProcessingFailed(c, StoreFault));
    }
    return true, true, None;
  }

  // ---------------------------------------------------------------- the task as a job of the pool

  /** The awaits after a decision was obtained. */
  function DecidedTail(c: Candidate, d: Decision, r: DetailReplies): seq<Micro> {
    if r.updateFault then [Call]
    else if !d.isRelevant then [Commit(Decide(c.url, d))]
    else if r.extract.Raises? then [Commit(Decide(c.url, d)), Call]
    else if r.saveFault then [Commit(Decide(c.url, d)), Call, Call]
    else [Commit(Decide(c.url, d)), Call, Commit(Put(c.url, r.extract.value))]
  }

  /** The awaits after the detail page was requested. */
  function DetailTail(c: Candidate, initial: Decision, skip: bool, r: DetailReplies): seq<Micro> {
    var d := DetailDecision(initial, skip, r);
    if r.fetch.Raises? then []
    else if d.Raises? then [Call]
    else (if skip then [] else [Call]) + DecidedTail(c, d.value, r)
  }

  function DetailJob(c: Candidate, initial: Decision, skip: bool, r: DetailReplies): Job {
    Job(c.url, UnderSlot(DetailTail(c, initial, skip, r)), DetailVerdict(c, initial, skip, r))
  }

  lemma DecidedTailWrites(c: Candidate, d: Decision, r: DetailReplies)
    ensures var tail := DecidedTail(c, d, r);
            Writes(tail, |tail|) ==
            if r.updateFault then []
            else if d.isRelevant && r.extract.Returns? && !r.saveFault
            then [Decide(c.url, d), Put(c.url, r.extract.value)] else [Decide(c.url, d)]
  {
    var tail := DecidedTail(c, d, r);
    WritesOne(tail[0]);
    if |tail| >= 2 { WritesTwo(tail[0], Call); }
    if |tail| == 3 {
      WritesOne(tail[2]);
      WritesConcat(tail[..2], [tail[2]]);
      assert tail == tail[..2] + [tail[2]] && tail[..2] == [tail[0], Call];
    }
  }

  /** The job commits exactly what the coroutine commits. */
  lemma DetailJobWrites(c: Candidate, initial: Decision, skip: bool, r: DetailReplies)
    ensures WritesOf(DetailJob(c, initial, skip, r)) == DetailWrites(c, initial, skip, r)
  {
    hide Writes, DecidedTail;
    var d, tail := DetailDecision(initial, skip, r), DetailTail(c, initial, skip, r);
    WritesOne(Call);
    WritesNone();
    if r.fetch.Returns? && d.Returns? {
      DecidedTailWrites(c, d.value, r);
      WritesConcat(if skip then [] else [Call], DecidedTail(c, d.value, r));
    }
    SlotJobWrites(tail);
  }

  lemma DetailJobWellFormed(c: Candidate, initial: Decision, skip: bool, r: DetailReplies)
    ensures WellFormed(DetailJob(c, initial, skip, r))
  {
    SlotJobWellFormed(DetailJob(c, initial, skip, r), DetailTail(c, initial, skip, r));
  }

  // ---------------------------------------------------------------- accepted candidates without a notice

  function OrElse(s: string, default: string): string {
    if s == "" then default else s
  }

  /** The stored decision of an accepted row, with the loader's defaults for empty columns. */
  function PriorDecision(row: Row): Decision {
    Decision(true, OrElse(row.reason, "LLM 初筛判定为相关项目"), OrElse(row.source, "llm"))
  }

  function LoadAcceptedMissing(db: Db, limit: int): (urls: seq<Url>)
    ensures forall u :: u in urls ==> IsAcceptedMissing(At(db, u))
    ensures limit <= 0 ==> forall u :: u in urls <==> u in db.order && IsAcceptedMissing(At(db, u))
  {
    var all := Select(db, db.order, IsAcceptedMissing);
    assert forall u :: u in Limited(all, limit) ==> u in all;
    Limited(all, limit)
  }

  /** The loader returns the first accepted candidates without a notice, in the order of the table. */
  lemma LoadsTheFirst(db: Db, limit: int)
    requires Valid(db)
    ensures var urls, all := LoadAcceptedMissing(db, limit), Wanted(db, IsAcceptedMissing);
            && |urls| == (if limit > 0 then Min(limit, |all|) else |all|)
            && (forall i, j :: 0 <= i < j < |urls| ==> Earlier(db.order, urls[i], urls[j]))
            && (forall i, v :: 0 <= i < |urls| && v in all && v !in urls ==> Earlier(db.order, urls[i], v))
  {
    SelectsTheFirst(db, limit, IsAcceptedMissing);
  }

  function DetailJobOf(db: Db, u: Url, skip: bool, replies: map<Url, DetailReplies>): Job
    requires u in db.rows
  {
    DetailJob(db.rows[u].candidate, PriorDecision(db.rows[u]), skip, ReplyTo(replies, u))
  }

  function DetailJobs(db: Db, urls: seq<Url>, skip: bool, replies: map<Url, DetailReplies>): seq<Job>
    requires forall u :: u in urls ==> u in db.rows
  {
    seq(|urls|, i requires 0 <= i < |urls| => assert urls[i] in urls; DetailJobOf(db, urls[i], skip, replies))
  }

  lemma LoadedDistinct(db: Db, limit: int)
    requires Valid(db)
    ensures Distinct(LoadAcceptedMissing(db, limit))
  {
    SelectDistinct(db, db.order, IsAcceptedMissing);
  }

  lemma DetailJobsWellFormed(db: Db, limit: int, skip: bool, replies: map<Url, DetailReplies>)
    requires Valid(db)
    ensures WellFormedAll(DetailJobs(db, LoadAcceptedMissing(db, limit), skip, replies))
  {
    var urls := LoadAcceptedMissing(db, limit);
    LoadedDistinct(db, limit);
    var jobs := DetailJobs(db, urls, skip, replies);
    forall i | 0 <= i < |jobs| ensures WellFormed(jobs[i]) && jobs[i].url == urls[i] {
      assert urls[i] in urls;
      DetailJobWellFormed(db.rows[urls[i]].candidate, PriorDecision(db.rows[urls[i]]), skip, ReplyTo(replies, urls[i]));
    }
  }

  /** What a task leaves behind if it is cut off after `k` of its writes. */
  lemma DetailWritesCell(cell: Cell, c: Candidate, initial: Decision, skip: bool, r: DetailReplies, k: nat)
    requires IsAcceptedMissing(cell) && initial.isRelevant
    requires k <= |DetailWrites(c, initial, skip, r)|
    ensures var ws := DetailWrites(c, initial, skip, r);
            var after := CellAll(cell, c.url, ws[..k]);
            NoticeAccepted(after) &&
            (k == |ws| ==>
              match DetailVerdict(c, initial, skip, r)
              case Positive => IsAcceptedWithNotice(after)
              case Negative => after.row.Some? && after.row.value.status == Rejected && after.notice.None?
              case Failed(_) => IsAcceptedMissing(after))
  {
    var ws := DetailWrites(c, initial, skip, r);
    if k == 0 {
      assert CellAll(cell, c.url, ws[..0]) == cell;
    } else if k == 1 {
      CellOne(cell, c.url, ws[0]);
      assert ws[..1] == [ws[0]];
    } else {
      CellTwo(cell, c.url, ws[0], ws[1]);
      assert ws[..2] == [ws[0], ws[1]];
    }
  }

  /** One task, however far it has got: a notice is present only on an accepted row; at its end
      a saved candidate has its notice, a filtered one is rejected without a notice, and a
      failed one is still accepted and still without a notice. */
  lemma DetailTaskCell(db: Db, u: Url, skip: bool, r: map<Url, DetailReplies>, n: nat)
    requires Valid(db) && IsAcceptedMissing(At(db, u))
    requires n <= |DetailJobOf(db, u, skip, r).steps|
    ensures var job := DetailJobOf(db, u, skip, r);
            var cell := CellOf(job, db, n);
            NoticeAccepted(cell) &&
            (n == |job.steps| ==>
              match job.verdict
              case Positive => IsAcceptedWithNotice(cell)
              case Negative => cell.row.Some? && cell.row.value.status == Rejected && cell.notice.None?
              case Failed(_) => IsAcceptedMissing(cell))
  {
    var c, d := db.rows[u].candidate, PriorDecision(db.rows[u]);
    var steps := DetailJobOf(db, u, skip, r).steps;
    DetailJobWrites(c, d, skip, ReplyTo(r, u));
    WritesPrefix(steps, n, |steps|);
    var ws, k := DetailWrites(c, d, skip, ReplyTo(r, u)), |Writes(steps, n)|;
    assert Writes(steps, n) == ws[..k];
    DetailWritesCell(At(db, u), c, d, skip, ReplyTo(r, u), k);
  }

  /** At every point of every schedule of the detail stage the notice invariants hold. */
  lemma DetailEveryStep(db: Db, limit: int, skip: bool, r: map<Url, DetailReplies>,
                        width: nat, schedule: seq<nat>, ok: Cell -> bool)
    requires Valid(db) && Between(ok) && Everywhere(db, ok)
    requires var jobs := DetailJobs(db, LoadAcceptedMissing(db, limit), skip, r);
             Run(jobs, Initial(db, jobs, width), schedule).Some?
    ensures var jobs := DetailJobs(db, LoadAcceptedMissing(db, limit), skip, r);
            Everywhere(Run(jobs, Initial(db, jobs, width), schedule).value.db, ok)
  {
    var urls := LoadAcceptedMissing(db, limit);
    var jobs := DetailJobs(db, urls, skip, r);
    DetailJobsWellFormed(db, limit, skip, r);
    RunInv(jobs, db, width, schedule, |schedule|);
    var p := Run(jobs, Initial(db, jobs, width), schedule).value;
    forall u ensures ok(At(p.db, u)) {
      assert ok(At(db, u));
      if i :| 0 <= i < |jobs| && jobs[i].url == u {
        assert urls[i] in urls;
        DetailTaskCell(db, u, skip, r, Done(jobs[i], p.pcs[i]));
        assert At(p.db, jobs[i].url) == CellOf(jobs[i], db, Done(jobs[i], p.pcs[i]));
      } else {
        assert NoJob(jobs, u);
      }
    }
  }

  /** The parent coroutine: it consumes the outcomes in the order in which tasks finish. */
  method ConsumeOutcomes(vs: seq<Verdict>) returns (result: RunResult, reviewed: nat)
    ensures fresh(result) && result.totalCandidates == reviewed == |vs|
    ensures result.Counters() == Count(vs) && result.errors == ErrorsOf(vs)
  {
    result := new RunResult(|vs|);
    reviewed := 0;
    while reviewed < |vs|
      invariant reviewed <= |vs| && result.totalCandidates == |vs|
      invariant result.Counters() == Count(vs[..reviewed]) && result.errors == ErrorsOf(vs[..reviewed])
    {
      assert vs[..reviewed + 1] == vs[..reviewed] + [vs[reviewed]];
      CountAppend(vs[..reviewed], vs[reviewed]);
      match vs[reviewed] {
        case Failed(e) => result.Record(false, false, Some(e));
        case Positive => result.Record(true, true, None);
        case Negative => result.Record(true, false, None);
      }
      reviewed := reviewed + 1;
    }
    assert vs[..|vs|] == vs;
  }

  /** The final cell of the i-th loaded candidate. */
  lemma DetailStageCell(db: Db, limit: int, skip: bool, r: map<Url, DetailReplies>, i: nat)
    requires Valid(db) && i < |LoadAcceptedMissing(db, limit)|
    ensures var urls := LoadAcceptedMissing(db, limit);
            var jobs := DetailJobs(db, urls, skip, r);
            var cell := At(Sequential(db, jobs, |jobs|), urls[i]);
            && urls[i] in db.rows && jobs[i].url == urls[i]
            && IsAcceptedMissing(At(db, urls[i]))
            && (match jobs[i].verdict
                case Positive => IsAcceptedWithNotice(cell)
                case Negative => cell.row.Some? && cell.row.value.status == Rejected && cell.notice.None?
                case Failed(_) => IsAcceptedMissing(cell))
  {
    var urls := LoadAcceptedMissing(db, limit);
    var jobs := DetailJobs(db, urls, skip, r);
    DetailJobsWellFormed(db, limit, skip, r);
    assert urls[i] in urls;
    SequentialCell(db, jobs, urls[i]);
    DetailTaskCell(db, urls[i], skip, r, |jobs[i].steps|);
  }

  lemma DetailStageOther(db: Db, limit: int, skip: bool, r: map<Url, DetailReplies>, u: Url)
    requires Valid(db) && u !in LoadAcceptedMissing(db, limit)
    ensures var jobs := DetailJobs(db, LoadAcceptedMissing(db, limit), skip, r);
            At(Sequential(db, jobs, |jobs|), u) == At(db, u)
  {
    var urls := LoadAcceptedMissing(db, limit);
    var jobs := DetailJobs(db, urls, skip, r);
    DetailJobsWellFormed(db, limit, skip, r);
    forall i | 0 <= i < |jobs| ensures jobs[i].url != u {
      DetailStageCell(db, limit, skip, r, i);
      assert urls[i] in urls;
    }
    SequentialCell(db, jobs, u);
  }

  /** A loaded candidate after its task, as the replies to the task have it. */
  ghost predicate DetailReplied(before: Cell, after: Cell, skip: bool, r: DetailReplies) {
    && before.row.Some? && after.row.Some? && after.row.value.candidate == before.row.value.candidate
    && (IsAcceptedWithNotice(after) <==>
          && r.fetch.Returns? && !r.updateFault && r.extract.Returns? && !r.saveFault
          && (skip || (r.review.Returns? && r.review.value.isRelevant)))
    && (after.row.value.status == Rejected <==>
          r.fetch.Returns? && !r.updateFault && !skip && r.review.Returns? && !r.review.value.isRelevant)
    && after.row.value.status != Pending
    && (after.notice.Some? ==> after.row.value.status == Accepted && after.notice == Some(r.extract.value))
    && (r.fetch.Raises? || r.updateFault || (!skip && r.review.Raises?) ==> after == before)
    && (r.fetch.Returns? && !r.updateFault && !skip && r.review.Returns? ==>
          after.row.value.reason == r.review.value.reason && after.row.value.source == r.review.value.source)
    && (skip && before.row.value.reason != "" ==> after.row.value.reason == before.row.value.reason)
    && (skip && before.row.value.source != "" ==> after.row.value.source == before.row.value.source)
  }

  /** The stage: what it loads ends as its replies have it, and nothing else changes. */
  ghost predicate StageReplied(before: Db, after: Db, urls: seq<Url>, skip: bool, replies: map<Url, DetailReplies>) {
    && after.order == before.order
    && (forall u :: u in urls ==> DetailReplied(At(before, u), At(after, u), skip, ReplyTo(replies, u)))
    && (forall u :: u !in urls ==> At(after, u) == At(before, u))
  }

  lemma DetailReply(db: Db, limit: int, skip: bool, r: map<Url, DetailReplies>, i: nat)
    requires Valid(db) && i < |LoadAcceptedMissing(db, limit)|
    ensures var urls := LoadAcceptedMissing(db, limit);
            var jobs := DetailJobs(db, urls, skip, r);
            var after := At(Sequential(db, jobs, |jobs|), urls[i]);
            && DetailReplied(At(db, urls[i]), after, skip, ReplyTo(r, urls[i]))
            && (jobs[i].verdict.Positive? <==> IsAcceptedWithNotice(after))
            && (jobs[i].verdict.Negative? <==> IsRejected(after))
            && (jobs[i].verdict.Failed? <==> IsAcceptedMissing(after))
  {
    hide Sequential, WellFormed, DetailVerdict, DetailWrites, DetailTail, CellAll;
    var urls := LoadAcceptedMissing(db, limit);
    var jobs := DetailJobs(db, urls, skip, r);
    DetailJobsWellFormed(db, limit, skip, r);
    DetailStageCell(db, limit, skip, r, i);
    assert urls[i] in urls;
    SequentialCell(db, jobs, urls[i]);
    var row := db.rows[urls[i]];
    DetailJobWrites(row.candidate, PriorDecision(row), skip, ReplyTo(r, urls[i]));
    DetailOutcome(At(db, urls[i]), row.candidate, PriorDecision(row), skip, ReplyTo(r, urls[i]));
  }

  lemma DetailStageReplied(db: Db, limit: int, skip: bool, r: map<Url, DetailReplies>)
    requires Valid(db)
    ensures var urls := LoadAcceptedMissing(db, limit);
            var jobs := DetailJobs(db, urls, skip, r);
            StageReplied(db, Sequential(db, jobs, |jobs|), urls, skip, r)
  {
    hide Sequential, WellFormed, DetailJobOf, DetailReplied, ReplyTo, LoadAcceptedMissing;
    var urls := LoadAcceptedMissing(db, limit);
    var jobs := DetailJobs(db, urls, skip, r);
    var after := Sequential(db, jobs, |jobs|);
    DetailJobsWellFormed(db, limit, skip, r);
    SequentialOrder(db, jobs, |jobs|);
    forall u | u in urls ensures DetailReplied(At(db, u), At(after, u), skip, ReplyTo(r, u)) {
      var i :| 0 <= i < |urls| && urls[i] == u;
      DetailReply(db, limit, skip, r, i);
    }
    forall u | u !in urls ensures At(after, u) == At(db, u) { DetailStageOther(db, limit, skip, r, u); }
  }

  /** Counters and database of the stage agree: saved are the loaded candidates that hold a notice
      afterwards, filtered the rejected ones, failed those still accepted without a notice. */
  lemma DetailStageCounters(db: Db, limit: int, skip: bool, r: map<Url, DetailReplies>)
    requires Valid(db)
    ensures var urls := LoadAcceptedMissing(db, limit);
            var jobs := DetailJobs(db, urls, skip, r);
            var after, t := Sequential(db, jobs, |jobs|), Count(AllVerdicts(jobs));
            && t.positive == |Among(after, urls, IsAcceptedWithNotice)|
            && t.negative == |Among(after, urls, IsRejected)|
            && t.failed == |Among(after, urls, IsAcceptedMissing)|
  {
    hide Sequential, WellFormed, DetailJobOf, DetailReplied, Count, ReplyTo, LoadAcceptedMissing;
    hide IsAcceptedWithNotice;
    var urls := LoadAcceptedMissing(db, limit);
    var jobs := DetailJobs(db, urls, skip, r);
    var after := Sequential(db, jobs, |jobs|);
    DetailJobsWellFormed(db, limit, skip, r);
    forall i | 0 <= i < |urls|
      ensures jobs[i].url == urls[i] && (jobs[i].verdict.Positive? <==> IsAcceptedWithNotice(At(after, urls[i])))
      ensures jobs[i].verdict.Negative? <==> IsRejected(At(after, urls[i]))
      ensures jobs[i].verdict.Failed? <==> IsAcceptedMissing(At(after, urls[i]))
    {
      DetailReply(db, limit, skip, r, i);
      DetailStageCell(db, limit, skip, r, i);
    }
    TallyOfUrls(jobs, |jobs|);
    assert AllVerdicts(jobs)[..|jobs|] == AllVerdicts(jobs);
    assert UrlsWith(jobs, |jobs|, IsPositive) == Among(after, urls, IsAcceptedWithNotice);
    assert UrlsWith(jobs, |jobs|, IsNegative) == Among(after, urls, IsRejected);
    assert UrlsWith(jobs, |jobs|, IsFailure) == Among(after, urls, IsAcceptedMissing);
  }

  /** The stage with its workers: the counters are those of the verdicts and the database is
      that of the sequential run, for every schedule. */
  method RunAcceptedMissing(repo: Repository, limit: int, workers: int, skip: bool,
                            replies: map<Url, DetailReplies>, schedule: seq<nat>)
      returns (result: RunResult, reviewed: nat)
    requires repo.Ok()
    requires var jobs := DetailJobs(repo.db, LoadAcceptedMissing(repo.db, limit), skip, replies);
             var r := Run(jobs, Initial(repo.db, jobs, Max(1, workers)), schedule);
             r.Some? && Finished(jobs, r.value)
    modifies repo
    ensures repo.Ok() && old(repo.log) <= repo.log && fresh(result)
    ensures var jobs := DetailJobs(old(repo.db), LoadAcceptedMissing(old(repo.db), limit), skip, replies);
            && repo.db == Sequential(old(repo.db), jobs, |jobs|)
            && result.totalCandidates == reviewed == |jobs|
            && result.Counters() == Count(AllVerdicts(jobs))
            && multiset(result.errors) == multiset(ErrorsOf(AllVerdicts(jobs)))
    ensures reviewed == result.savedNotices + result.filteredOut + result.detailFetchFailures
    ensures |result.errors| == result.detailFetchFailures
    ensures var urls := LoadAcceptedMissing(old(repo.db), limit);
            && StageReplied(old(repo.db), repo.db, urls, skip, replies)
            && result.savedNotices == |Among(repo.db, urls, IsAcceptedWithNotice)|
            && result.filteredOut == |Among(repo.db, urls, IsRejected)|
            && result.detailFetchFailures == |Among(repo.db, urls, IsAcceptedMissing)|
  {
    DetailStageReplied(repo.db, limit, skip, replies);
    DetailStageCounters(repo.db, limit, skip, replies);
    hide StageReplied, Among, Sequential, Run, LoadAcceptedMissing, Count, ErrorsOf, WellFormed;
    var jobs := DetailJobs(repo.db, LoadAcceptedMissing(repo.db, limit), skip, replies);
    DetailJobsWellFormed(repo.db, limit, skip, replies);
    var collected := RunPool(repo, jobs, Max(1, workers), schedule);
    result, reviewed := ConsumeOutcomes(Verdicts(jobs, collected));
    CountersIndependence(jobs, collected);
    CountTotals(AllVerdicts(jobs));
    CountTotals(Verdicts(jobs, collected));
  }

  ghost function MissingSet(db: Db): set<Url> {
    Wanted(db, IsAcceptedMissing)
  }

  ghost function SettledUrls(jobs: seq<Job>, n: nat): set<Url>
    requires n <= |jobs|
  {
    UrlsWith(jobs, n, IsPositive) + UrlsWith(jobs, n, IsNegative)
  }

  lemma SettledCount(jobs: seq<Job>, n: nat)
    requires n <= |jobs| && forall i, j :: 0 <= i < j < |jobs| ==> jobs[i].url != jobs[j].url
    ensures var t := Count(AllVerdicts(jobs)[..n]); |SettledUrls(jobs, n)| == t.positive + t.negative
  {
    TallyOfUrls(jobs, n);
    assert UrlsWith(jobs, n, IsPositive) !! UrlsWith(jobs, n, IsNegative);
  }

  lemma SettledIff(jobs: seq<Job>, i: nat)
    requires i < |jobs| && forall i, j :: 0 <= i < j < |jobs| ==> jobs[i].url != jobs[j].url
    ensures jobs[i].url in SettledUrls(jobs, |jobs|) <==> !jobs[i].verdict.Failed?
  {
  }

  lemma ShrinkAt(db: Db, limit: int, skip: bool, r: map<Url, DetailReplies>, u: Url)
    requires Valid(db)
    ensures var jobs := DetailJobs(db, LoadAcceptedMissing(db, limit), skip, r);
            var after := Sequential(db, jobs, |jobs|);
            var settled := SettledUrls(jobs, |jobs|);
            && (u in MissingSet(after) <==> u in MissingSet(db) && u !in settled)
            && (u in settled ==> u in MissingSet(db))
  {
    hide WellFormed, Sequential, DetailJob;
    var urls := LoadAcceptedMissing(db, limit);
    var jobs := DetailJobs(db, urls, skip, r);
    DetailJobsWellFormed(db, limit, skip, r);
    if i :| 0 <= i < |urls| && urls[i] == u {
      DetailStageCell(db, limit, skip, r, i);
      SettledIff(jobs, i);
    } else {
      assert u !in urls;
      DetailStageOther(db, limit, skip, r, u);
      if u in SettledUrls(jobs, |jobs|) {
        var j :| 0 <= j < |jobs| && jobs[j].url == u;
        DetailStageCell(db, limit, skip, r, j);
        assert false;
      }
    }
  }

  /** The stage removes from the accepted candidates without a notice exactly those it saved or
      filtered out. */
  lemma MissingSetAfter(db: Db, limit: int, skip: bool, r: map<Url, DetailReplies>)
    requires Valid(db)
    ensures var jobs := DetailJobs(db, LoadAcceptedMissing(db, limit), skip, r);
            && MissingSet(Sequential(db, jobs, |jobs|)) == MissingSet(db) - SettledUrls(jobs, |jobs|)
            && SettledUrls(jobs, |jobs|) <= MissingSet(db)
  {
    forall u { ShrinkAt(db, limit, skip, r, u); }
  }

  lemma SetDifferenceSize<T>(a: set<T>, b: set<T>)
    requires b <= a
    ensures |a - b| == |a| - |b|
  {
  }

  /** The set of accepted candidates without a notice shrinks by saved plus filtered. */
  lemma AcceptedMissingShrinks(db: Db, limit: int, skip: bool, r: map<Url, DetailReplies>)
    requires Valid(db)
    ensures var jobs := DetailJobs(db, LoadAcceptedMissing(db, limit), skip, r);
            var t := Count(AllVerdicts(jobs));
            |MissingSet(Sequential(db, jobs, |jobs|))| == |MissingSet(db)| - t.positive - t.negative
  {
    hide Sequential, WellFormed, DetailJobOf, Wanted, Count, SettledUrls;
    var jobs := DetailJobs(db, LoadAcceptedMissing(db, limit), skip, r);
    MissingSetAfter(db, limit, skip, r);
    SetDifferenceSize(MissingSet(db), SettledUrls(jobs, |jobs|));
    DetailJobsWellFormed(db, limit, skip, r);
    SettledCount(jobs, |jobs|);
    assert AllVerdicts(jobs)[..|jobs|] == AllVerdicts(jobs);
  }

  /** Every url whose task failed is offered again by the next run. */
  lemma FailedOfferedAgain(db: Db, limit: int, skip: bool, r: map<Url, DetailReplies>, i: nat)
    requires Valid(db) && i < |LoadAcceptedMissing(db, limit)|
    requires DetailJobs(db, LoadAcceptedMissing(db, limit), skip, r)[i].verdict.Failed?
    ensures var urls := LoadAcceptedMissing(db, limit);
            var jobs := DetailJobs(db, urls, skip, r);
            urls[i] in LoadAcceptedMissing(Sequential(db, jobs, |jobs|), 0)
  {
    DetailStageCell(db, limit, skip, r, i);
    DetailJobsWellFormed(db, limit, skip, r);
    var jobs := DetailJobs(db, LoadAcceptedMissing(db, limit), skip, r);
    SequentialCell(db, jobs, jobs[i].url);
  }
}
