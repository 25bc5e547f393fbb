/** Revalidation of stored notices against their detail text
    (scripts/revalidate_tender_notices.py): workers review concurrently, and each applies its
    decision and the deletion of a rejected notice under one write lock. */
module Revalidate {
  import opened Common
  import opened TenderStore
  import opened TaskPool

  datatype ReviewReplies = ReviewReplies(review: Answer<Decision>, updateFault: bool, deleteFault: bool)

  function ReplyTo(replies: map<Url, ReviewReplies>, u: Url): ReviewReplies {
    if u in replies then replies[u] else ReviewReplies(Raises(StoreFault), true, true)
  }

  function RevalidateFailed(u: Url, e: Cause): Failure {
    Failure(Revalidation, u, e)
  }

  function ReviewVerdict(u: Url, keep: bool, r: ReviewReplies): Verdict {
    match r.review
    case Raises(e) => Failed(RevalidateFailed(u, e))
    case Returns(d) =>
      if r.updateFault then Failed(RevalidateFailed(u, StoreFault))
      else if !d.isRelevant && !keep && r.deleteFault then Failed(RevalidateFailed(u, StoreFault))
      else if d.isRelevant then Positive else Negative
  }

  function ReviewWrites(u: Url, keep: bool, r: ReviewReplies): seq<Write> {
    if r.review.Raises? || r.updateFault then []
    else if r.review.value.isRelevant || keep || r.deleteFault then [Decide(u, r.review.value)]
    else [Decide(u, r.review.value), Drop(u)]
  }

  /** A notice after its review, as the replies have it. */
  ghost predicate ItemReviewed(before: Cell, after: Cell, keep: bool, r: ReviewReplies) {
    && before.row.Some? && after.row.Some? && after.row.value.candidate == before.row.value.candidate
    && (r.review.Raises? || r.updateFault ==> after == before)
    && (r.review.Returns? && !r.updateFault ==>
          && after.row.value.status == (if r.review.value.isRelevant then Accepted else Rejected)
          && after.row.value.reason == r.review.value.reason && after.row.value.source == r.review.value.source)
    && (r.review.Returns? && !r.updateFault && !r.review.value.isRelevant && !keep && !r.deleteFault ==>
          after.notice.None?)
    && (r.review.Raises? || r.updateFault || r.review.value.isRelevant || keep || r.deleteFault ==>
          after.notice == before.notice)
  }

  /** A relevant review that is stored accepts; an irrelevant one rejects, unless the notice resists deletion. */
  lemma ReviewVerdictIs(u: Url, keep: bool, r: ReviewReplies)
    ensures var v := ReviewVerdict(u, keep, r);
            && (v.Positive? <==> r.review.Returns? && r.review.value.isRelevant && !r.updateFault)
            && (v.Negative? <==>
                  r.review.Returns? && !r.review.value.isRelevant && !r.updateFault && (keep || !r.deleteFault))
            && (v.Failed? ==>
                  v.error == Failure(Revalidation, u, if r.review.Raises? then r.review.error else StoreFault))
  {
  }

  /** The final cell of an item, read off its replies. */
  lemma ReviewOutcome(cell: Cell, u: Url, keep: bool, r: ReviewReplies)
    requires cell.row.Some?
    ensures ItemReviewed(cell, CellAll(cell, u, ReviewWrites(u, keep, r)), keep, r)
  {
    var ws := ReviewWrites(u, keep, r);
    if |ws| == 1 {
      CellOne(cell, u, ws[0]);
    } else if |ws| == 2 {
      CellTwo(cell, u, ws[0], ws[1]);
    }
  }

  method ProcessItem(repo: Repository, u: Url, keep: bool, r: ReviewReplies)
      returns (isRelevant: bool, error: Option<Failure>)
    requires repo.Ok()
    modifies repo
    ensures repo.Ok() && repo.log == old(repo.log) + ReviewWrites(u, keep, r)
    ensures match ReviewVerdict(u, keep, r)
            case Positive => isRelevant && error == None
            case Negative => !isRelevant && error == None
            case Failed(e) => !isRelevant && error == Some(e)
  {
    if r.review.Raises? {
      return false, Some(RevalidateFailed(u, r.review.error));
    }
    var decision := r.review.value;
    var updated := repo.UpdateCandidateDecision(u, decision, r.updateFault);
    if updated.Raises? {
      return false, Some(RevalidateFailed(u, StoreFault));
    }
    if !decision.isRelevant && !keep {
      var deleted := repo.DeleteNotice(u, r.deleteFault);
      if deleted.Raises? {
        return false, Some(RevalidateFailed(u, StoreFault));
      }
    }
    return decision.isRelevant, None;
  }

  // ---------------------------------------------------------------- the item as a job

  function LockedBody(u: Url, d: Decision, keep: bool, r: ReviewReplies): seq<Micro> {
    if r.updateFault then [Call]
    else if d.isRelevant || keep then [Commit(Decide(u, d))]
    else if r.deleteFault then [Commit(Decide(u, d)), Call]
    else [Commit(Decide(u, d)), Commit(Drop(u))]
  }

  function ReviewJob(u: Url, keep: bool, r: ReviewReplies): Job {
    Job(u, UnderSlot(if r.review.Raises? then [] else UnderLock(LockedBody(u, r.review.value, keep, r))),
        ReviewVerdict(u, keep, r))
  }

  lemma ReviewJobWrites(u: Url, keep: bool, r: ReviewReplies)
    ensures WritesOf(ReviewJob(u, keep, r)) == ReviewWrites(u, keep, r)
  {
    if r.review.Raises? {
      SlotJobWrites([]);
    } else {
      var body := LockedBody(u, r.review.value, keep, r);
      SlotJobWrites(UnderLock(body));
      LockedWrites(body);
      WritesOne(body[0]);
      if |body| == 2 { WritesTwo(body[0], body[1]); }
    }
  }

  lemma ReviewJobWellFormed(u: Url, keep: bool, r: ReviewReplies)
    ensures WellFormed(ReviewJob(u, keep, r))
  {
    if r.review.Raises? {
      SlotJobWellFormed(ReviewJob(u, keep, r), []);
    } else {
      LockedJobWellFormed(ReviewJob(u, keep, r), LockedBody(u, r.review.value, keep, r));
    }
  }

  /** Outside its locked section a job has written nothing or everything. */
  lemma UnlockedIsAllOrNothing(u: Url, keep: bool, r: ReviewReplies, n: nat)
    requires n <= |ReviewJob(u, keep, r).steps|
    requires Held(WriteLock, ReviewJob(u, keep, r).steps, n) == 0
    ensures Writes(ReviewJob(u, keep, r).steps, n) in [[], ReviewWrites(u, keep, r)]
  {
    var job := ReviewJob(u, keep, r);
    var m := |job.steps|;
    ReviewJobWrites(u, keep, r);
    if r.review.Raises? {
      WritesPrefix(job.steps, n, m);
    } else {
      LockedJobHeld(job, LockedBody(u, r.review.value, keep, r), n);
      if n <= 2 {
        WritesTwo(Acquire(Slot), Call);
        WritesExtend([Acquire(Slot), Call], job.steps[2..], 2);
        assert [Acquire(Slot), Call] + job.steps[2..] == job.steps;
        WritesPrefix(job.steps, n, 2);
      } else {
        assert job.steps[m - 1] == Release(Slot);
        assert n == m || n == m - 1;
      }
    }
  }

  // ---------------------------------------------------------------- the stage

  /** What the loader may return: accepted candidates that hold a notice, each once, in the
      order of notice ids, which earlier schedules have chosen; all of them without a limit. */
  ghost predicate Loaded(db: Db, limit: int, urls: seq<Url>) {
    && Distinct(urls)
    && (forall u :: u in urls ==> IsAcceptedWithNotice(At(db, u)))
    && (limit > 0 ==> |urls| <= limit)
    && ((forall u :: IsAcceptedWithNotice(At(db, u)) ==> u in urls) || (limit > 0 && |urls| == limit))
  }

  function ReviewJobs(urls: seq<Url>, keep: bool, replies: map<Url, ReviewReplies>): seq<Job> {
    seq(|urls|, i requires 0 <= i < |urls| => ReviewJob(urls[i], keep, ReplyTo(replies, urls[i])))
  }

  lemma ReviewJobsWellFormed(urls: seq<Url>, keep: bool, replies: map<Url, ReviewReplies>)
    requires Distinct(urls)
    ensures WellFormedAll(ReviewJobs(urls, keep, replies))
  {
    forall i | 0 <= i < |urls| { ReviewJobWellFormed(urls[i], keep, ReplyTo(replies, urls[i])); }
  }

  /** The parent coroutine counts the outcomes in the order in which items finish. */
  method CountReviews(vs: seq<Verdict>)
      returns (reviewed: nat, accepted: nat, rejected: nat, errors: seq<Failure>)
    ensures reviewed == |vs|
    ensures Tally(accepted, rejected, |errors|) == Count(vs) && errors == ErrorsOf(vs)
  {
    reviewed, accepted, rejected, errors := 0, 0, 0, [];
    while reviewed < |vs|
      invariant reviewed <= |vs|
      invariant Tally(accepted, rejected, |errors|) == Count(vs[..reviewed]) && errors == ErrorsOf(vs[..reviewed])
    {
      assert vs[..reviewed + 1] == vs[..reviewed] + [vs[reviewed]];
      CountAppend(vs[..reviewed], vs[reviewed]);
      match vs[reviewed] {
        case Failed(e) => errors := errors + [e];
        case Positive => accepted := accepted + 1;
        case Negative => rejected := rejected + 1;
      }
      reviewed := reviewed + 1;
    }
    assert vs[..|vs|] == vs;
  }

  /** The stage: every loaded notice ends as its review has it, and nothing else changes. */
  ghost predicate StageReviewed(before: Db, after: Db, urls: seq<Url>, keep: bool, replies: map<Url, ReviewReplies>) {
    && after.order == before.order
    && (forall u :: u in urls ==> ItemReviewed(At(before, u), At(after, u), keep, ReplyTo(replies, u)))
    && (forall u :: u !in urls ==> At(after, u) == At(before, u))
  }

  /** The urls whose review was relevant and stored. */
  ghost function ApprovedUrls(urls: seq<Url>, replies: map<Url, ReviewReplies>): set<Url> {
    set u | u in urls && u in replies && !replies[u].updateFault
            && replies[u].review.Returns? && replies[u].review.value.isRelevant
  }

  /** The urls whose review was irrelevant and stored, and whose notice did not resist deletion. */
  ghost function RefusedUrls(urls: seq<Url>, keep: bool, replies: map<Url, ReviewReplies>): set<Url> {
    set u | u in urls && u in replies && !replies[u].updateFault && (keep || !replies[u].deleteFault)
            && replies[u].review.Returns? && !replies[u].review.value.isRelevant
  }

  lemma ReviewCounters(urls: seq<Url>, keep: bool, r: map<Url, ReviewReplies>)
    requires Distinct(urls)
    ensures var t := Count(AllVerdicts(ReviewJobs(urls, keep, r)));
            t.positive == |ApprovedUrls(urls, r)| && t.negative == |RefusedUrls(urls, keep, r)|
  {
    hide Count, ReviewVerdict, LockedBody;
    var jobs := ReviewJobs(urls, keep, r);
    forall i | 0 <= i < |urls|
      ensures jobs[i].verdict.Positive? <==> urls[i] in ApprovedUrls(urls, r)
      ensures jobs[i].verdict.Negative? <==> urls[i] in RefusedUrls(urls, keep, r)
    {
      ReviewVerdictIs(urls[i], keep, ReplyTo(r, urls[i]));
      assert urls[i] in urls;
    }
    TallyOfUrls(jobs, |jobs|);
    assert AllVerdicts(jobs)[..|jobs|] == AllVerdicts(jobs);
    assert UrlsWith(jobs, |jobs|, IsPositive) == ApprovedUrls(urls, r);
    assert UrlsWith(jobs, |jobs|, IsNegative) == RefusedUrls(urls, keep, r);
  }

  lemma ReviewStageReplied(db: Db, limit: int, urls: seq<Url>, keep: bool, r: map<Url, ReviewReplies>)
    requires Loaded(db, limit, urls)
    ensures var jobs := ReviewJobs(urls, keep, r);
            StageReviewed(db, Sequential(db, jobs, |jobs|), urls, keep, r)
  {
    hide Sequential, ReviewWrites, CellAll, WellFormed, ReviewJob;
    var jobs := ReviewJobs(urls, keep, r);
    ReviewJobsWellFormed(urls, keep, r);
    SequentialOrder(db, jobs, |jobs|);
    forall u
      ensures u in urls ==> ItemReviewed(At(db, u), At(Sequential(db, jobs, |jobs|), u), keep, ReplyTo(r, u))
      ensures u !in urls ==> At(Sequential(db, jobs, |jobs|), u) == At(db, u)
    {
      RevalidateStageCell(db, limit, urls, keep, r, u);
      if u in urls {
        ReviewOutcome(At(db, u), u, keep, ReplyTo(r, u));
      }
    }
  }

  method RunRevalidate(repo: Repository, limit: int, urls: seq<Url>, workers: int, keep: bool,
                       replies: map<Url, ReviewReplies>, schedule: seq<nat>)
      returns (reviewed: nat, accepted: nat, rejected: nat, errors: seq<Failure>)
    requires repo.Ok() && Loaded(repo.db, limit, urls)
    requires var jobs := ReviewJobs(urls, keep, replies);
             var r := Run(jobs, Initial(repo.db, jobs, Max(1, workers)), schedule);
             r.Some? && Finished(jobs, r.value)
    modifies repo
    ensures repo.Ok() && old(repo.log) <= repo.log
    ensures var jobs := ReviewJobs(urls, keep, replies);
            && repo.db == Sequential(old(repo.db), jobs, |jobs|)
            && Tally(accepted, rejected, |errors|) == Count(AllVerdicts(jobs))
            && multiset(errors) == multiset(ErrorsOf(AllVerdicts(jobs)))
    ensures reviewed == |urls| == accepted + rejected + |errors|
    ensures StageReviewed(old(repo.db), repo.db, urls, keep, replies)
    ensures accepted == |ApprovedUrls(urls, replies)| && rejected == |RefusedUrls(urls, keep, replies)|
  {
    ReviewStageReplied(repo.db, limit, urls, keep, replies);
    ReviewCounters(urls, keep, replies);
    hide StageReviewed, ApprovedUrls, RefusedUrls, Sequential, WellFormed;
    var jobs := ReviewJobs(urls, keep, replies);
    ReviewJobsWellFormed(urls, keep, replies);
    var collected := RunPool(repo, jobs, Max(1, workers), schedule);
    CountersIndependence(jobs, collected);
    CountTotals(AllVerdicts(jobs));
    reviewed, accepted, rejected, errors := CountReviews(Verdicts(jobs, collected));
  }

  /** The replies after which a rejected candidate keeps its notice. */
  predicate LeavesStale(keep: bool, r: ReviewReplies) {
    r.review.Returns? && !r.review.value.isRelevant && !r.updateFault && (keep || r.deleteFault)
  }

  /** What one item leaves behind after `k` of its writes. */
  lemma ReviewCell(cell: Cell, u: Url, keep: bool, r: ReviewReplies, k: nat)
    requires IsAcceptedWithNotice(cell) && k <= |ReviewWrites(u, keep, r)|
    ensures var ws := ReviewWrites(u, keep, r);
            var after := CellAll(cell, u, ws[..k]);
            && NoticeDecided(after) && after.row.Some? && after.row.value.status != Pending
            && (k == |ws| ==> (IsRejectedWithNotice(after) <==> LeavesStale(keep, r)) && !IsAcceptedMissing(after))
            && (k == 0 ==> after == cell)
  {
    var ws := ReviewWrites(u, keep, r);
    if k == 0 {
      assert CellAll(cell, u, ws[..0]) == cell;
    } else if k == 1 {
      CellOne(cell, u, ws[0]);
      assert ws[..1] == [ws[0]];
    } else {
      CellTwo(cell, u, ws[0], ws[1]);
      assert ws[..2] == [ws[0], ws[1]];
    }
  }

  /** The cell of the i-th item at any point of any schedule. */
  lemma ReviewPoolCell(db: Db, urls: seq<Url>, keep: bool, r: map<Url, ReviewReplies>,
                       width: nat, p: Pool, i: nat)
    requires Distinct(urls) && i < |urls| && IsAcceptedWithNotice(At(db, urls[i]))
    requires Inv(ReviewJobs(urls, keep, r), db, width, p)
    ensures var n := Done(ReviewJobs(urls, keep, r)[i], p.pcs[i]);
            var k := |Writes(ReviewJobs(urls, keep, r)[i].steps, n)|;
            && k <= |ReviewWrites(urls[i], keep, ReplyTo(r, urls[i]))|
            && At(p.db, urls[i]) ==
               CellAll(At(db, urls[i]), urls[i], ReviewWrites(urls[i], keep, ReplyTo(r, urls[i]))[..k])
            && NoticeDecided(At(p.db, urls[i]))
  {
    var job := ReviewJobs(urls, keep, r)[i];
    var n := Done(job, p.pcs[i]);
    ReviewJobWrites(urls[i], keep, ReplyTo(r, urls[i]));
    WritesPrefix(job.steps, n, |job.steps|);
    var ws, k := ReviewWrites(urls[i], keep, ReplyTo(r, urls[i])), |Writes(job.steps, n)|;
    assert Writes(job.steps, n) == ws[..k];
    assert At(p.db, job.url) == CellOf(job, db, n);
    ReviewCell(At(db, urls[i]), urls[i], keep, ReplyTo(r, urls[i]), k);
  }

  /** The cell of one url at any point of any schedule. */
  lemma RevalidateStepCell(db: Db, urls: seq<Url>, keep: bool, r: map<Url, ReviewReplies>, width: nat, p: Pool, u: Url)
    requires Distinct(urls) && (forall v :: v in urls ==> IsAcceptedWithNotice(At(db, v)))
    requires Inv(ReviewJobs(urls, keep, r), db, width, p) && NoticeDecided(At(db, u))
    ensures NoticeDecided(At(p.db, u))
    ensures p.locks > 0 && IsRejectedWithNotice(At(p.db, u)) ==>
              IsRejectedWithNotice(At(db, u)) || (u in urls && LeavesStale(keep, ReplyTo(r, u)))
  {
    hide ReviewWrites, ReviewVerdict, LockedBody, CellAll;
    var jobs := ReviewJobs(urls, keep, r);
    ReviewJobsWellFormed(urls, keep, r);
    if i :| 0 <= i < |urls| && urls[i] == u {
      assert urls[i] in urls;
      ReviewPoolCell(db, urls, keep, r, width, p, i);
      if p.locks > 0 {
        NotHolding(jobs, p, width, i);
        UnlockedIsAllOrNothing(u, keep, ReplyTo(r, u), Done(jobs[i], p.pcs[i]));
        ReviewCell(At(db, u), u, keep, ReplyTo(r, u), |Writes(jobs[i].steps, Done(jobs[i], p.pcs[i]))|);
      }
    } else {
      assert NoJob(jobs, u);
    }
  }

  /** At every point of every schedule no notice belongs to a pending candidate, and whenever the
      lock is free no notice is stale that was not stale before, unless stale notices are kept or
      a deletion fails: a decision and its deletion are one step for whoever takes the lock. */
  lemma RevalidateEveryStep(db: Db, limit: int, urls: seq<Url>, keep: bool, r: map<Url, ReviewReplies>,
                            width: nat, schedule: seq<nat>)
    requires Loaded(db, limit, urls) && Everywhere(db, NoticeDecided)
    requires var jobs := ReviewJobs(urls, keep, r); Run(jobs, Initial(db, jobs, width), schedule).Some?
    ensures var jobs := ReviewJobs(urls, keep, r);
            var p := Run(jobs, Initial(db, jobs, width), schedule).value;
            && Everywhere(p.db, NoticeDecided)
            && (p.locks > 0 ==>
                  forall u :: IsRejectedWithNotice(At(p.db, u)) ==>
                    IsRejectedWithNotice(At(db, u)) || (u in urls && LeavesStale(keep, ReplyTo(r, u))))
  {
    var jobs := ReviewJobs(urls, keep, r);
    ReviewJobsWellFormed(urls, keep, r);
    RunInv(jobs, db, width, schedule, |schedule|);
    var p := Run(jobs, Initial(db, jobs, width), schedule).value;
    forall u
      ensures NoticeDecided(At(p.db, u))
      ensures p.locks > 0 && IsRejectedWithNotice(At(p.db, u)) ==>
                IsRejectedWithNotice(At(db, u)) || (u in urls && LeavesStale(keep, ReplyTo(r, u)))
    {
      RevalidateStepCell(db, urls, keep, r, width, p, u);
    }
  }

  lemma NotHolding(jobs: seq<Job>, p: Pool, width: nat, i: nat)
    requires WellFormedAll(jobs) && |p.pcs| == |jobs| && UnitsOk(jobs, width, p) && p.locks > 0
    requires i < |jobs|
    ensures Held(WriteLock, jobs[i].steps, Done(jobs[i], p.pcs[i])) == 0
  {
    assert WellFormed(jobs[i]);
    assert Holders(WriteLock, jobs, p.pcs) == {};
    assert i !in Holders(WriteLock, jobs, p.pcs);
  }

  /** The stage decides one url as follows; urls it did not load keep their cell, so a rejected
      candidate that already held a notice is never repaired. */
  lemma RevalidateStageCell(db: Db, limit: int, urls: seq<Url>, keep: bool, r: map<Url, ReviewReplies>, u: Url)
    requires Loaded(db, limit, urls)
    ensures var jobs := ReviewJobs(urls, keep, r);
            var after := At(Sequential(db, jobs, |jobs|), u);
            if u in urls then after == CellAll(At(db, u), u, ReviewWrites(u, keep, ReplyTo(r, u)))
            else after == At(db, u)
  {
    var jobs := ReviewJobs(urls, keep, r);
    ReviewJobsWellFormed(urls, keep, r);
    SequentialCell(db, jobs, u);
    if i :| 0 <= i < |urls| && urls[i] == u {
      assert jobs[i].url == u;
      ReviewJobWrites(u, keep, ReplyTo(r, u));
    } else {
      assert NoJob(jobs, u);
    }
  }

  /** An item that is cut off between its two writes leaves a rejected candidate with its notice: four
      moves of the i-th worker lead there. */
  lemma CutBetweenWrites(db: Db, urls: seq<Url>, keep: bool, r: map<Url, ReviewReplies>, width: nat, i: nat)
    requires width >= 1 && i < |urls| && IsAcceptedWithNotice(At(db, urls[i]))
    requires |ReviewWrites(urls[i], keep, ReplyTo(r, urls[i]))| == 2
    ensures var jobs := ReviewJobs(urls, keep, r);
            var reached := RunTo(jobs, Initial(db, jobs, width), [i, i, i, i], 4);
            reached.Some? && IsRejectedWithNotice(At(reached.value.db, urls[i]))
  {
    var jobs, reply := ReviewJobs(urls, keep, r), ReplyTo(r, urls[i]);
    var start := Initial(db, jobs, width);
    var steps := jobs[i].steps;
    assert steps[0] == Acquire(Slot) && steps[1] == Call && steps[2] == Acquire(WriteLock);
    assert steps[3] == Commit(Decide(urls[i], reply.review.value));
    assert Enabled(jobs, start, i) && RunTo(jobs, start, [i, i, i, i], 0) == Some(start);
    var p1 := Pool(db, start.pcs[i := 1], width - 1, 1, []);
    assert RunTo(jobs, start, [i, i, i, i], 1) == Some(p1);
    var p2 := Pool(db, start.pcs[i := 2], width - 1, 1, []);
    assert start.pcs[i := 1][i := 2] == start.pcs[i := 2] && Step(jobs, p1, i) == p2;
    assert RunTo(jobs, start, [i, i, i, i], 2) == Some(p2);
    var p3 := Pool(db, start.pcs[i := 3], width - 1, 0, []);
    assert start.pcs[i := 2][i := 3] == start.pcs[i := 3] && Step(jobs, p2, i) == p3;
    assert RunTo(jobs, start, [i, i, i, i], 3) == Some(p3);
  }

  /** Exactly which notices are stale afterwards. */
  lemma StaleExactly(db: Db, limit: int, urls: seq<Url>, keep: bool, r: map<Url, ReviewReplies>, u: Url)
    requires Loaded(db, limit, urls)
    ensures var jobs := ReviewJobs(urls, keep, r);
            IsRejectedWithNotice(At(Sequential(db, jobs, |jobs|), u)) <==>
              IsRejectedWithNotice(At(db, u)) || (u in urls && LeavesStale(keep, ReplyTo(r, u)))
  {
    RevalidateStageCell(db, limit, urls, keep, r, u);
    if u in urls {
      var ws := ReviewWrites(u, keep, ReplyTo(r, u));
      assert ws[..|ws|] == ws;
      ReviewCell(At(db, u), u, keep, ReplyTo(r, u), |ws|);
    }
  }
}
