/** The staged workflow (scripts/run_qianlima_tender_workflow.py): collect candidates, screen
    the pending ones, extract the accepted ones, revalidate the stored notices. Each stage can be
    skipped; an exception while a collected candidate is saved aborts the run. */
module Workflow {
  import opened Common
  import opened TenderStore
  import opened TaskPool
  import opened ResumePending
  import opened ScreenPending
  import opened Revalidate

  datatype Plan = Plan(skipCollect: bool, skipScreen: bool, skipDetail: bool, skipRevalidate: bool,
                       batchSize: int, detailWorkers: int, revalidateWorkers: int,
                       keepRejected: bool, reviewBeforeExtract: bool)

  /** What every await of one run does. `saveFault` is the ordinal of the save that raises while
      candidates are collected, if one does. */
  datatype World = World(searches: seq<Answer<seq<Candidate>>>, saveFault: Option<nat>,
                         env: Env, reviews: map<Url, ReviewReplies>)

  // ---------------------------------------------------------------- collecting

  /** The candidates found by the first `n` searches; a failed search finds none. */
  function Found(searches: seq<Answer<seq<Candidate>>>, n: nat): seq<Candidate>
    requires n <= |searches|
  {
    if n == 0 then []
    else Found(searches, n - 1) + if searches[n - 1].Returns? then searches[n - 1].value else []
  }

  function SearchErrors(searches: seq<Answer<seq<Candidate>>>, n: nat): nat
    requires n <= |searches|
  {
    if n == 0 then 0 else SearchErrors(searches, n - 1) + if searches[n - 1].Raises? then 1 else 0
  }

  /** What was found is what some search returned. */
  lemma {:induction false} FoundExactly(searches: seq<Answer<seq<Candidate>>>, n: nat, c: Candidate)
    requires n <= |searches|
    ensures c in Found(searches, n) <==> exists k :: 0 <= k < n && searches[k].Returns? && c in searches[k].value
  {
    if n > 0 {
      FoundExactly(searches, n - 1, c);
    }
  }

  /** The errors are the searches that raised. */
  lemma {:induction false} SearchErrorsAre(searches: seq<Answer<seq<Candidate>>>, n: nat)
    requires n <= |searches|
    ensures SearchErrors(searches, n) == |set k | 0 <= k < n && searches[k].Raises?|
  {
    if n > 0 {
      SearchErrorsAre(searches, n - 1);
      var before := set k | 0 <= k < n - 1 && searches[k].Raises?;
      assert (set k | 0 <= k < n && searches[k].Raises?) == before + (if searches[n - 1].Raises? then {n - 1} else {});
    }
  }

  /** The first `n` of the found candidates are inserted as pending. */
  function Inserts(found: seq<Candidate>, n: nat): seq<Write>
    requires n <= |found|
  {
    if n == 0 then [] else Inserts(found, n - 1) + [Insert(found[n - 1], None)]
  }

  function AllFound(w: World): seq<Candidate> {
    Found(w.searches, |w.searches|)
  }

  predicate Aborts(plan: Plan, w: World) {
    !plan.skipCollect && w.saveFault.Some? && w.saveFault.value < |AllFound(w)|
  }

  function CollectLog(plan: Plan, w: World): seq<Write> {
    if plan.skipCollect then []
    else Inserts(AllFound(w), if Aborts(plan, w) then w.saveFault.value else |AllFound(w)|)
  }

  class CollectResult {
    var totalFound: nat
    var saved: nat
    var duplicates: nat
    var errors: nat

    constructor ()
      ensures totalFound == saved == duplicates == errors == 0
    {
      totalFound, saved, duplicates, errors := 0, 0, 0, 0;
    }
  }

  lemma {:induction false} InsertsConcat(xs: seq<Candidate>, ys: seq<Candidate>, n: nat)
    requires n <= |ys|
    ensures Inserts(xs + ys, |xs| + n) == Inserts(xs, |xs|) + Inserts(ys, n)
  {
    if n > 0 {
      InsertsConcat(xs, ys, n - 1);
    } else {
      InsertsExtend(xs, ys, |xs|);
    }
  }

  lemma {:induction false} InsertsExtend(xs: seq<Candidate>, ys: seq<Candidate>, n: nat)
    requires n <= |xs|
    ensures Inserts(xs + ys, n) == Inserts(xs, n)
  {
    if n > 0 {
      InsertsExtend(xs, ys, n - 1);
    }
  }

  /** `first` candidates were saved before; the fault, if any, is counted from the first one. */
  method SaveCandidates(repo: Repository, cs: seq<Candidate>, result: CollectResult, saveFault: Option<nat>, first: nat)
      returns (outcome: Answer<()>)
    requires repo.Ok() && (saveFault.Some? ==> first <= saveFault.value)
    modifies repo, result
    ensures repo.Ok() && result.errors == old(result.errors)
    ensures outcome.Raises? <==> saveFault.Some? && saveFault.value < first + |cs|
    ensures repo.log == old(repo.log) + Inserts(cs, if outcome.Raises? then saveFault.value - first else |cs|)
    ensures outcome.Returns? ==>
              && result.totalFound == old(result.totalFound) + |cs|
              && result.saved + result.duplicates == old(result.saved + result.duplicates) + |cs|
              && result.saved - |repo.db.order| == old(result.saved - |repo.db.order|)
  {
    result.totalFound := result.totalFound + |cs|;
    for k := 0 to |cs|
      invariant repo.Ok() && result.errors == old(result.errors)
      invariant saveFault.Some? ==> first + k <= saveFault.value
      invariant repo.log == old(repo.log) + Inserts(cs, k)
      invariant result.totalFound == old(result.totalFound) + |cs|
      invariant result.saved + result.duplicates == old(result.saved + result.duplicates) + k
      invariant result.saved - |repo.db.order| == old(result.saved - |repo.db.order|)
    {
      var isNew := repo.SaveCandidate(cs[k], None, saveFault == Some(first + k));
      if isNew.Raises? {
        return Raises(StoreFault);
      }
      if isNew.value {
        result.saved := result.saved + 1;
      } else {
        result.duplicates := result.duplicates + 1;
      }
    }
    return Returns(());
  }

  lemma {:induction false} FoundPrefix(searches: seq<Answer<seq<Candidate>>>, k: nat, n: nat)
    requires k <= n <= |searches|
    ensures Found(searches, k) <= Found(searches, n)
  {
    if k < n {
      FoundPrefix(searches, k, n - 1);
    }
  }

  lemma InsertsOfPart(searches: seq<Answer<seq<Candidate>>>, k: nat, n: nat)
    requires k <= |searches| && n < |Found(searches, k)|
    ensures var all := Found(searches, |searches|);
            n < |all| && Inserts(all, n) == Inserts(Found(searches, k), n)
  {
    var part, all := Found(searches, k), Found(searches, |searches|);
    FoundPrefix(searches, k, |searches|);
    assert all == part + all[|part|..];
    InsertsExtend(part, all[|part|..], n);
  }

  /** One search and the saving of what it found, which is no candidate when it raises. */
  method CollectGroup(repo: Repository, searches: seq<Answer<seq<Candidate>>>, k: nat, result: CollectResult,
                      saveFault: Option<nat>, ghost log0: seq<Write>) returns (outcome: Answer<()>)
    requires repo.Ok() && k < |searches|
    requires saveFault.Some? ==> |Found(searches, k)| <= saveFault.value
    requires repo.log == log0 + Inserts(Found(searches, k), |Found(searches, k)|)
    modifies repo, result
    ensures repo.Ok()
    ensures outcome.Raises? <==> saveFault.Some? && saveFault.value < |Found(searches, k + 1)|
    ensures repo.log == log0 +
              Inserts(Found(searches, k + 1), if outcome.Raises? then saveFault.value else |Found(searches, k + 1)|)
    ensures outcome.Returns? ==>
              && result.totalFound - |Found(searches, k + 1)| == old(result.totalFound) - |Found(searches, k)|
              && result.saved + result.duplicates - result.totalFound
                 == old(result.saved + result.duplicates - result.totalFound)
              && result.saved - |repo.db.order| == old(result.saved - |repo.db.order|)
              && result.errors - SearchErrors(searches, k + 1) == old(result.errors) - SearchErrors(searches, k)
  {
    hide Apply, Valid, Explains;
    var before := Found(searches, k);
    if searches[k].Raises? {
      result.errors := result.errors + 1;
      assert Found(searches, k + 1) == before;
      return Returns(());
    }
    outcome := SaveCandidates(repo, searches[k].value, result, saveFault, |before|);
    InsertsConcat(before, searches[k].value,
                  if outcome.Raises? then saveFault.value - |before| else |searches[k].value|);
  }

  /** The collect stage: what was found is saved or a duplicate, and `saved` is the number of new
      rows; every failed search is one error. */
  method CollectCandidates(repo: Repository, w: World) returns (outcome: Answer<CollectResult>)
    requires repo.Ok()
    modifies repo
    ensures repo.Ok()
    ensures outcome.Raises? <==> w.saveFault.Some? && w.saveFault.value < |AllFound(w)|
    ensures repo.log == old(repo.log) +
            Inserts(AllFound(w), if outcome.Raises? then w.saveFault.value else |AllFound(w)|)
    ensures outcome.Returns? ==>
              && fresh(outcome.value)
              && outcome.value.totalFound == |AllFound(w)| == outcome.value.saved + outcome.value.duplicates
              && outcome.value.saved == |repo.db.order| - |old(repo.db).order|
              && outcome.value.errors == SearchErrors(w.searches, |w.searches|)
  {
    assert Found(w.searches, 0) == [] && Inserts([], 0) == [] && SearchErrors(w.searches, 0) == 0;
    hide Apply, Valid, Inserts, Found, SearchErrors, Explains;
    var result := new CollectResult();
    for k := 0 to |w.searches|
      invariant repo.Ok()
      invariant w.saveFault.Some? ==> |Found(w.searches, k)| <= w.saveFault.value
      invariant repo.log == old(repo.log) + Inserts(Found(w.searches, k), |Found(w.searches, k)|)
      invariant result.totalFound == |Found(w.searches, k)| == result.saved + result.duplicates
      invariant result.saved == |repo.db.order| - |old(repo.db).order|
      invariant result.errors == SearchErrors(w.searches, k)
    {
      var saved := CollectGroup(repo, w.searches, k, result, w.saveFault, old(repo.log));
      if saved.Raises? {
        InsertsOfPart(w.searches, k + 1, w.saveFault.value);
        return Raises(StoreFault);
      }
    }
    return Returns(result);
  }

  /** The first of the first `n` candidates with this url. */
  function FirstWith(found: seq<Candidate>, n: nat, u: Url): Option<Candidate>
    requires n <= |found|
  {
    if n == 0 then None
    else
      var before := FirstWith(found, n - 1, u);
      if before.Some? then before
      else if found[n - 1].url == u then Some(found[n - 1]) else None
  }

  /** Collecting keeps every known row and its notice; an unknown url gets a pending row for the
      first candidate that carries it. */
  lemma {:induction false} CollectedCell(db: Db, found: seq<Candidate>, n: nat, u: Url)
    requires n <= |found|
    ensures var before, first := At(db, u), FirstWith(found, n, u);
            At(ApplyAll(db, Inserts(found, n)), u) ==
            if before.row.Some? || first.None? then before
            else before.(row := Some(NewRow(first.value, None)))
  {
    if n > 0 {
      CollectedCell(db, found, n - 1, u);
      ApplyAllAppend(db, Inserts(found, n - 1), Insert(found[n - 1], None));
      AtApply(ApplyAll(db, Inserts(found, n - 1)), Insert(found[n - 1], None), u);
    }
  }

  lemma {:induction false} InsertsPrefix(found: seq<Candidate>, n: nat, k: nat)
    requires k <= n <= |found|
    ensures |Inserts(found, n)| == n && Inserts(found, n)[..k] == Inserts(found, k)
  {
    if n > 0 {
      InsertsPrefix(found, n - 1, Min(k, n - 1));
      InsertsPrefix(found, n - 1, n - 1);
    }
  }

  // ---------------------------------------------------------------- the states between the stages

  function AfterCollect(plan: Plan, w: World, db: Db): Db {
    ApplyAll(db, CollectLog(plan, w))
  }

  function ScreenStageLog(plan: Plan, w: World, db: Db): seq<Write> {
    if plan.skipScreen then [] else RunLog(db, w.env, 0, Max(1, plan.batchSize), true, true)
  }

  function ScreenStage(plan: Plan, w: World, db: Db): Db {
    ApplyAll(db, ScreenStageLog(plan, w, db))
  }

  function StageDetailJobs(plan: Plan, w: World, db: Db): seq<Job> {
    DetailJobs(db, LoadAcceptedMissing(db, 0), !plan.reviewBeforeExtract, w.env.details)
  }

  function DetailStage(plan: Plan, w: World, db: Db): Db {
    if plan.skipDetail then db
    else Sequential(db, StageDetailJobs(plan, w, db), |StageDetailJobs(plan, w, db)|)
  }

  function StageReviewJobs(plan: Plan, w: World, items: seq<Url>): seq<Job> {
    ReviewJobs(items, plan.keepRejected, w.reviews)
  }

  function RevalidateStage(plan: Plan, w: World, db: Db, items: seq<Url>): Db {
    if plan.skipRevalidate then db
    else Sequential(db, StageReviewJobs(plan, w, items), |StageReviewJobs(plan, w, items)|)
  }

  function AfterScreen(plan: Plan, w: World, db: Db): Db {
    ScreenStage(plan, w, AfterCollect(plan, w, db))
  }

  function AfterDetail(plan: Plan, w: World, db: Db): Db {
    DetailStage(plan, w, AfterScreen(plan, w, db))
  }

  function Final(plan: Plan, w: World, db: Db, items: seq<Url>): Db {
    RevalidateStage(plan, w, AfterDetail(plan, w, db), items)
  }

  /** The stages a run gets to: none after a save that raises while candidates are collected. */
  function Reached(plan: Plan, w: World): Plan {
    if Aborts(plan, w) then plan.(skipScreen := true, skipDetail := true, skipRevalidate := true) else plan
  }

  /** The database that a run leaves, whether it finishes or aborts. */
  function Outcome(plan: Plan, w: World, db: Db, items: seq<Url>): Db {
    Final(Reached(plan, w), w, db, items)
  }

  /** `items` is what the revalidation stage loads, if the run gets to it. */
  ghost predicate LoadsItems(plan: Plan, w: World, db: Db, items: seq<Url>) {
    Reached(plan, w).skipRevalidate || Loaded(AfterDetail(Reached(plan, w), w, db), 0, items)
  }

  /** An aborted run leaves what it had collected. */
  lemma AbortedOutcome(plan: Plan, w: World, db: Db, items: seq<Url>)
    ensures AfterCollect(Reached(plan, w), w, db) == AfterCollect(plan, w, db)
    ensures Aborts(plan, w) ==> Outcome(plan, w, db, items) == AfterCollect(plan, w, db)
    ensures !Aborts(plan, w) ==> Outcome(plan, w, db, items) == Final(plan, w, db, items)
  {
    assert CollectLog(Reached(plan, w), w) == CollectLog(plan, w);
    assert ApplyAll(AfterCollect(plan, w, db), []) == AfterCollect(plan, w, db);
  }

  /** A schedule that runs all the jobs to their end. */
  ghost predicate Completes(jobs: seq<Job>, db: Db, workers: int, schedule: seq<nat>) {
    var r := Run(jobs, Initial(db, jobs, Max(1, workers)), schedule);
    r.Some? && Finished(jobs, r.value)
  }

  lemma {:induction false} SequentialValid(db: Db, jobs: seq<Job>, n: nat)
    requires Valid(db) && n <= |jobs|
    ensures Valid(Sequential(db, jobs, n))
  {
    if n > 0 {
      SequentialValid(db, jobs, n - 1);
      ApplyAllValid(Sequential(db, jobs, n - 1), WritesOf(jobs[n - 1]));
    }
  }

  lemma StagesValid(plan: Plan, w: World, db: Db)
    requires Valid(db)
    ensures Valid(AfterCollect(plan, w, db)) && Valid(AfterScreen(plan, w, db)) && Valid(AfterDetail(plan, w, db))
  {
    ApplyAllValid(db, CollectLog(plan, w));
    var collected := AfterCollect(plan, w, db);
    ApplyAllValid(collected, ScreenStageLog(plan, w, collected));
    var screened := AfterScreen(plan, w, db);
    SequentialValid(screened, StageDetailJobs(plan, w, screened), |StageDetailJobs(plan, w, screened)|);
  }

  // ---------------------------------------------------------------- what the stages do to one candidate

  /** A cell without its texts: the status of its row, and whether it holds a notice. */
  datatype Shape = Shape(status: Option<Status>, noted: bool)

  function ShapeOf(c: Cell): Shape {
    Shape(if c.row.Some? then Some(c.row.value.status) else None, c.notice.Some?)
  }

  function StatusAfter(v: Verdict, before: Status): Status {
    match v
    case Positive => Accepted
    case Negative => Rejected
    case Failed(_) => before
  }

  /** Screening decides pending rows and nothing else. */
  function Screened(s: Shape, v: Verdict): Shape {
    if s.status == Some(Pending) then s.(status := Some(StatusAfter(v, Pending))) else s
  }

  /** Extraction works on accepted rows without a notice. */
  function Extracted(s: Shape, v: Verdict): Shape {
    if s == Shape(Some(Accepted), false) then Shape(Some(StatusAfter(v, Accepted)), v.Positive?) else s
  }

  /** Revalidation works on accepted rows with a notice. */
  function Reviewed(s: Shape, keep: bool, r: ReviewReplies): Shape {
    if s != Shape(Some(Accepted), true) || r.review.Raises? || r.updateFault || r.review.value.isRelevant then s
    else Shape(Some(Rejected), keep || r.deleteFault)
  }

  /** The verdict of the screening on a pending candidate. */
  ghost function ScreenVerdictOf(db: Db, env: Env, size: nat, u: Url): Verdict
    requires Valid(db) && size >= 1 && IsPending(At(db, u))
  {
    LoadedPending(db, 0);
    var cs := LoadPending(db, 0);
    assert u in PendingUrls(db, 0);
    var i :| 0 <= i < |cs| && PendingUrls(db, 0)[i] == u;
    ScreenVerdict(env, BatchOf(size, |cs|, i, 0), cs[i])
  }

  /** The verdict of the extraction, which does not depend on the texts of the candidate or of its
      prior decision. */
  function DetailVerdictOf(u: Url, skip: bool, r: map<Url, DetailReplies>): Verdict {
    DetailVerdict(Candidate(u, u, u), Decision(true, u, u), skip, ResumePending.ReplyTo(r, u))
  }

  lemma ScreenWritesShape(cell: Cell, env: Env, b: nat, c: Candidate)
    requires IsPending(cell)
    ensures ShapeOf(CellAll(cell, c.url, CandidateWrites(env, b, c, true, true))) ==
            Screened(ShapeOf(cell), ScreenVerdict(env, b, c))
  {
  }

  lemma ScreenStageShape(plan: Plan, w: World, db: Db, u: Url)
    requires Valid(db)
    ensures ShapeOf(At(ScreenStage(plan, w, db), u)) ==
            if !plan.skipScreen && IsPending(At(db, u))
            then Screened(ShapeOf(At(db, u)), ScreenVerdictOf(db, w.env, Max(1, plan.batchSize), u))
            else ShapeOf(At(db, u))
  {
    hide ScreenVerdict, ScreenDecision, PendingLog, BatchOf, BatchCount, Only, CandidateWrites;
    if !plan.skipScreen {
      var size, cs := Max(1, plan.batchSize), LoadPending(db, 0);
      LoadedPending(db, 0);
      RunOnly(db, w.env, 0, size, true, true, u);
      FinalByUrl(db, ScreenStageLog(plan, w, db), u);
      if IsPending(At(db, u)) {
        assert u in PendingUrls(db, 0);
        var i :| 0 <= i < |cs| && PendingUrls(db, 0)[i] == u
          && ScreenVerdictOf(db, w.env, size, u) == ScreenVerdict(w.env, BatchOf(size, |cs|, i, 0), cs[i]);
        ScreenWritesShape(At(db, u), w.env, BatchOf(size, |cs|, i, 0), cs[i]);
      }
    }
  }

  lemma VerdictIgnoresTexts(c: Candidate, d: Decision, skip: bool, r: map<Url, DetailReplies>)
    requires d.isRelevant
    ensures DetailVerdict(c, d, skip, ResumePending.ReplyTo(r, c.url)) == DetailVerdictOf(c.url, skip, r)
  {
  }

  lemma DetailStageShape(plan: Plan, w: World, db: Db, u: Url)
    requires Valid(db)
    ensures ShapeOf(At(DetailStage(plan, w, db), u)) ==
            if plan.skipDetail then ShapeOf(At(db, u))
            else Extracted(ShapeOf(At(db, u)), DetailVerdictOf(u, !plan.reviewBeforeExtract, w.env.details))
  {
    hide Sequential, DetailVerdict, DetailVerdictOf, DetailTail;
    if !plan.skipDetail {
      var urls := LoadAcceptedMissing(db, 0);
      if u in urls {
        var i :| 0 <= i < |urls| && urls[i] == u;
        DetailStageCell(db, 0, !plan.reviewBeforeExtract, w.env.details, i);
        VerdictIgnoresTexts(db.rows[u].candidate, PriorDecision(db.rows[u]), !plan.reviewBeforeExtract, w.env.details);
      } else {
        DetailStageOther(db, 0, !plan.reviewBeforeExtract, w.env.details, u);
      }
    }
  }

  lemma ReviewWritesShape(cell: Cell, u: Url, keep: bool, r: ReviewReplies)
    requires IsAcceptedWithNotice(cell)
    ensures ShapeOf(CellAll(cell, u, ReviewWrites(u, keep, r))) == Reviewed(ShapeOf(cell), keep, r)
  {
    var ws := ReviewWrites(u, keep, r);
    if |ws| == 1 {
      CellOne(cell, u, ws[0]);
    } else if |ws| == 2 {
      CellTwo(cell, u, ws[0], ws[1]);
    }
  }

  lemma RevalidateStageShape(plan: Plan, w: World, db: Db, items: seq<Url>, u: Url)
    requires plan.skipRevalidate || Loaded(db, 0, items)
    ensures ShapeOf(At(RevalidateStage(plan, w, db, items), u)) ==
            if plan.skipRevalidate then ShapeOf(At(db, u))
            else Reviewed(ShapeOf(At(db, u)), plan.keepRejected, Revalidate.ReplyTo(w.reviews, u))
  {
    if !plan.skipRevalidate {
      RevalidateStageCell(db, 0, items, plan.keepRejected, w.reviews, u);
      if u in items {
        ReviewWritesShape(At(db, u), u, plan.keepRejected, Revalidate.ReplyTo(w.reviews, u));
      }
    }
  }

  /** The stages one by one, read off the replies. The batch of a candidate is its number by `size`. */
  lemma ScreenStageFollows(plan: Plan, w: World, db: Db, i: nat, c: Candidate, size: nat)
    requires Valid(db) && size == Max(1, plan.batchSize) && i < |LoadPending(db, 0)| && c == LoadPending(db, 0)[i]
    ensures var after := At(ScreenStage(plan, w, db), c.url);
            if plan.skipScreen then after == At(db, c.url)
            else ScreenReplied(At(db, c.url), after, c, w.env.Batch(BatchNo(size, i)), w.env.Single(c.url),
                               c.url in w.env.updateFaults)
  {
    assert ApplyAll(db, []) == db;
    hide RunLog, ScreenWrites, ScreenReplied, ApplyAll, BatchNo;
    if !plan.skipScreen {
      PendingCell(db, w.env, 0, size, true, true, i);
      ScreenOutcome(At(db, c.url), w.env, BatchNo(size, i), c);
    }
  }

  /** An accepted candidate without a notice: with --detail-review-before-extract its detail review decides,
      otherwise it stays accepted; its notice is the extracted one. */
  lemma DetailStageFollows(plan: Plan, w: World, db: Db, u: Url)
    requires Valid(db) && IsAcceptedMissing(At(db, u)) && u in w.env.details
    ensures var after, r := At(DetailStage(plan, w, db), u), w.env.details[u];
            && (plan.skipDetail ==> after == At(db, u))
            && (!plan.skipDetail && plan.reviewBeforeExtract && r.fetch.Returns? && !r.updateFault
                && r.review.Returns? ==>
                  if r.review.value.isRelevant then IsAccepted(after) else IsRejected(after) && after.notice.None?)
            && (!plan.skipDetail && !plan.reviewBeforeExtract ==>
                  && IsAccepted(after)
                  && (r.fetch.Returns? && !r.updateFault && r.extract.Returns? && !r.saveFault ==>
                        after.notice == Some(r.extract.value)))
            && (after.notice.Some? ==> IsAccepted(after) && r.extract == Returns(after.notice.value))
  {
    hide Sequential;
    if !plan.skipDetail {
      DetailStageReplied(db, 0, !plan.reviewBeforeExtract, w.env.details);
      assert u in LoadAcceptedMissing(db, 0);
    }
  }

  /** A loaded notice: its review decides, and a rejected one loses it unless it is kept. */
  lemma RevalidateStageFollows(plan: Plan, w: World, db: Db, items: seq<Url>, u: Url)
    requires Loaded(db, 0, items) && u in items && u in w.reviews
    ensures var after, r := At(RevalidateStage(plan, w, db, items), u), w.reviews[u];
            && (plan.skipRevalidate || r.review.Raises? || r.updateFault ==> after == At(db, u))
            && (!plan.skipRevalidate && r.review.Returns? && !r.updateFault ==>
                  if r.review.value.isRelevant then IsAcceptedWithNotice(after)
                  else IsRejected(after) && (after.notice.Some? <==> plan.keepRejected || r.deleteFault))
  {
    hide Sequential;
    if !plan.skipRevalidate {
      ReviewStageReplied(db, 0, items, plan.keepRejected, w.reviews);
    }
  }

  // ---------------------------------------------------------------- the final state

  /** What the final statistics report as work left over: a pending candidate, an accepted one
      without its notice, or a rejected one with a notice. */
  predicate Leftover(s: Shape) {
    s.status == Some(Pending) || s == Shape(Some(Accepted), false) || s == Shape(Some(Rejected), true)
  }

  ghost predicate Clean(db: Db) {
    forall u :: !Leftover(ShapeOf(At(db, u)))
  }

  datatype Stats = Stats(candidates: nat, pending: nat, accepted: nat, rejected: nat, notices: nat,
                         acceptedMissing: nat, rejectedNoticeRemaining: nat)

  function StatsOf(db: Db): Stats {
    Stats(|db.order|, |Select(db, db.order, IsPending)|, |Select(db, db.order, IsAccepted)|,
          |Select(db, db.order, IsRejected)|, |db.notices|,
          |Select(db, db.order, IsAcceptedMissing)|, |Select(db, db.order, IsRejectedWithNotice)|)
  }

  ghost function WithStatus(rows: map<Url, Row>, status: Status): set<Url> {
    set u | u in rows && rows[u].status == status
  }

  /** The statistics are the sizes of these sets of rows and notices. */
  ghost predicate Reports(s: Stats, rows: map<Url, Row>, notices: map<Url, Notice>) {
    && s.candidates == |rows| && s.notices == |notices|
    && s.pending == |WithStatus(rows, Pending)|
    && s.accepted == |WithStatus(rows, Accepted)|
    && s.rejected == |WithStatus(rows, Rejected)|
    && s.acceptedMissing == |WithStatus(rows, Accepted) - notices.Keys|
    && s.rejectedNoticeRemaining == |WithStatus(rows, Rejected) * notices.Keys|
  }

  lemma SelectedSize(db: Db, wanted: Cell -> bool)
    requires Valid(db)
    ensures |Select(db, db.order, wanted)| == |Wanted(db, wanted)|
  {
    var found := Select(db, db.order, wanted);
    SelectDistinct(db, db.order, wanted);
    DistinctSize(found);
    assert Elements(found) == Wanted(db, wanted);
  }

  lemma WantedSets(db: Db)
    ensures Wanted(db, IsPending) == WithStatus(db.rows, Pending)
    ensures Wanted(db, IsAccepted) == WithStatus(db.rows, Accepted)
    ensures Wanted(db, IsRejected) == WithStatus(db.rows, Rejected)
    ensures Wanted(db, IsAcceptedMissing) == WithStatus(db.rows, Accepted) - db.notices.Keys
    ensures Wanted(db, IsRejectedWithNotice) == WithStatus(db.rows, Rejected) * db.notices.Keys
  {
  }

  lemma StatsReport(db: Db)
    requires Valid(db)
    ensures Reports(StatsOf(db), db.rows, db.notices)
  {
    hide Select, Wanted, WithStatus;
    DistinctSize(db.order);
    assert Elements(db.order) == db.rows.Keys;
    SelectedSize(db, IsPending);
    SelectedSize(db, IsAccepted);
    SelectedSize(db, IsRejected);
    SelectedSize(db, IsAcceptedMissing);
    SelectedSize(db, IsRejectedWithNotice);
    WantedSets(db);
  }

  lemma {:induction false} StatusPartition(db: Db, order: seq<Url>)
    requires forall u :: u in order ==> u in db.rows
    ensures |Select(db, order, IsPending)| + |Select(db, order, IsAccepted)| +
            |Select(db, order, IsRejected)| == |order|
    ensures |Select(db, order, IsAcceptedMissing)| <= |Select(db, order, IsAccepted)|
    ensures |Select(db, order, IsRejectedWithNotice)| <= |Select(db, order, IsRejected)|
  {
    if order != [] {
      StatusPartition(db, order[..|order| - 1]);
    }
  }

  lemma SelectsNothing(db: Db, wanted: Cell -> bool)
    requires Valid(db) && (forall c :: wanted(c) ==> c.row.Some?)
    ensures |Select(db, db.order, wanted)| == 0 <==> forall u :: !wanted(At(db, u))
  {
    var found := Select(db, db.order, wanted);
    if found != [] {
      assert found[0] in found;
    } else {
      forall u ensures !wanted(At(db, u)) { assert u !in found; }
    }
  }

  /** The three numbers of the final statistics are zero exactly when the database is clean. */
  lemma StatsClean(db: Db)
    requires Valid(db)
    ensures var s := StatsOf(db);
            && (s.pending == s.acceptedMissing == s.rejectedNoticeRemaining == 0 <==> Clean(db))
            && s.pending + s.accepted + s.rejected == s.candidates
  {
    hide Select, At;
    StatusPartition(db, db.order);
    SelectsNothing(db, IsPending);
    SelectsNothing(db, IsAcceptedMissing);
    SelectsNothing(db, IsRejectedWithNotice);
    forall u ensures Leftover(ShapeOf(At(db, u))) <==>
                       IsPending(At(db, u)) || IsAcceptedMissing(At(db, u)) || IsRejectedWithNotice(At(db, u)) {}
  }

  /** The status of a candidate once the screening stage is over. */
  ghost function StatusScreened(plan: Plan, w: World, db: Db, u: Url): Option<Status>
    requires Valid(db)
  {
    if !plan.skipScreen && IsPending(At(db, u))
    then Some(StatusAfter(ScreenVerdictOf(db, w.env, Max(1, plan.batchSize), u), Pending))
    else ShapeOf(At(db, u)).status
  }

  /** The candidates that a run over the collected database `db` leaves to somebody: screening did
      not decide it; or it is rejected and held a notice before; or it is accepted, has no notice
      and extraction fails or is skipped; or its notice is rejected but not deleted. */
  ghost predicate Trouble(plan: Plan, w: World, db: Db, u: Url)
    requires Valid(db)
  {
    var status, noted := StatusScreened(plan, w, db, u), At(db, u).notice.Some?;
    var detail := DetailVerdictOf(u, !plan.reviewBeforeExtract, w.env.details);
    || status == Some(Pending)
    || (status == Some(Rejected) && noted)
    || (status == Some(Accepted) && !noted && (plan.skipDetail || detail.Failed?))
    || (status == Some(Accepted) && (noted || (!plan.skipDetail && detail.Positive?)) && !plan.skipRevalidate
        && LeavesStale(plan.keepRejected, Revalidate.ReplyTo(w.reviews, u)))
  }

  lemma TroubleExactly(plan: Plan, w: World, db: Db, items: seq<Url>, u: Url)
    requires Valid(db) && (plan.skipRevalidate || Loaded(DetailStage(plan, w, ScreenStage(plan, w, db)), 0, items))
    ensures var screened := ScreenStage(plan, w, db);
            var final := RevalidateStage(plan, w, DetailStage(plan, w, screened), items);
            Leftover(ShapeOf(At(final, u))) <==> Trouble(plan, w, db, u)
  {
    hide ScreenStage, DetailStage, RevalidateStage, ScreenVerdictOf, DetailVerdictOf, At;
    var screened := ScreenStage(plan, w, db);
    assert Valid(screened) by { ScreenStageValid(plan, w, db); }
    ScreenStageShape(plan, w, db, u);
    DetailStageShape(plan, w, screened, u);
    RevalidateStageShape(plan, w, DetailStage(plan, w, screened), items, u);
  }

  lemma ScreenStageValid(plan: Plan, w: World, db: Db)
    requires Valid(db)
    ensures Valid(ScreenStage(plan, w, db))
  {
    ApplyAllValid(db, ScreenStageLog(plan, w, db));
  }

  lemma FinalCleanExactly(plan: Plan, w: World, db: Db, items: seq<Url>)
    requires Valid(db) && (plan.skipRevalidate || Loaded(AfterDetail(plan, w, db), 0, items))
    ensures Valid(AfterCollect(plan, w, db))
    ensures Clean(Final(plan, w, db, items)) <==> forall u :: !Trouble(plan, w, AfterCollect(plan, w, db), u)
  {
    StagesValid(plan, w, db);
    var collected := AfterCollect(plan, w, db);
    forall u ensures Leftover(ShapeOf(At(Final(plan, w, db, items), u))) <==> Trouble(plan, w, collected, u) {
      TroubleExactly(plan, w, collected, items, u);
    }
  }

  /** A run, with whatever stages and failures, an abort included, leaves a clean database if and only
      if no collected candidate is in trouble with the stages it gets to. */
  lemma CleanExactly(plan: Plan, w: World, db: Db, items: seq<Url>)
    requires Valid(db) && LoadsItems(plan, w, db, items)
    ensures Valid(AfterCollect(plan, w, db))
    ensures Clean(Outcome(plan, w, db, items)) <==>
              forall u :: !Trouble(Reached(plan, w), w, AfterCollect(plan, w, db), u)
  {
    AbortedOutcome(plan, w, db, items);
    FinalCleanExactly(Reached(plan, w), w, db, items);
  }

  /** All stages run, and rejected notices are deleted. */
  predicate FullRun(plan: Plan) {
    !plan.skipScreen && !plan.skipDetail && !plan.skipRevalidate && !plan.keepRejected
  }

  /** The replies of a run in which only searches and batch reviews may fail or answer in part. */
  ghost predicate OnlyBatchesFail(plan: Plan, w: World, urls: set<Url>) {
    && !Aborts(plan, w)
    && forall u :: u in urls ==>
         && w.env.Single(u).Returns? && u !in w.env.updateFaults
         && !DetailVerdictOf(u, !plan.reviewBeforeExtract, w.env.details).Failed?
         && !ReviewVerdict(u, plan.keepRejected, Revalidate.ReplyTo(w.reviews, u)).Failed?
  }

  lemma NoScreenFailure(db: Db, env: Env, size: nat, u: Url)
    requires Valid(db) && size >= 1 && IsPending(At(db, u))
    requires env.Single(u).Returns? && u !in env.updateFaults
    ensures !ScreenVerdictOf(db, env, size, u).Failed?
  {
  }

  lemma NoTrouble(plan: Plan, w: World, db: Db, u: Url)
    requires Valid(db) && NoticeAccepted(At(db, u)) && OnlyBatchesFail(plan, w, db.rows.Keys) && FullRun(plan)
    ensures !Trouble(plan, w, db, u)
  {
    hide DetailVerdictOf, ScreenVerdictOf;
    if u in db.rows && IsPending(At(db, u)) {
      NoScreenFailure(db, w.env, Max(1, plan.batchSize), u);
    }
  }

  /** A full run in which only searches and batch reviews fail, and which starts with every notice on
      an accepted candidate, ends clean. */
  lemma FullRunEndsClean(plan: Plan, w: World, db: Db, items: seq<Url>)
    requires Valid(db) && Everywhere(db, NoticeAccepted) && LoadsItems(plan, w, db, items)
    requires FullRun(plan) && OnlyBatchesFail(plan, w, AfterCollect(plan, w, db).rows.Keys)
    ensures Clean(Outcome(plan, w, db, items))
  {
    hide CollectLog, Trouble, Clean, At, LoadsItems;
    StagesValid(plan, w, db);
    var collected := AfterCollect(plan, w, db);
    CollectStageKeeps(plan, w, db, |CollectLog(plan, w)|, NoticeAccepted);
    forall u ensures !Trouble(plan, w, collected, u) {
      NoTrouble(plan, w, collected, u);
    }
    CleanExactly(plan, w, db, items);
  }

  /** A rejected candidate that holds a notice keeps it through any run, whatever the replies. */
  lemma StaleNoticeSurvives(plan: Plan, w: World, db: Db, items: seq<Url>, u: Url)
    requires Valid(db) && LoadsItems(plan, w, db, items) && IsRejectedWithNotice(At(db, u))
    ensures IsRejectedWithNotice(At(Outcome(plan, w, db, items), u))
  {
    hide ScreenStage, DetailStage, RevalidateStage, CollectLog, Loaded, ScreenVerdictOf, DetailVerdictOf, FirstWith;
    var p := Reached(plan, w);
    StagesValid(p, w, db);
    CollectLogCell(p, w, db, |CollectLog(p, w)|, u);
    assert CollectLog(p, w)[..|CollectLog(p, w)|] == CollectLog(p, w);
    ScreenStageShape(p, w, AfterCollect(p, w, db), u);
    DetailStageShape(p, w, AfterScreen(p, w, db), u);
    RevalidateStageShape(p, w, AfterDetail(p, w, db), items, u);
  }

  ghost predicate NothingStale(db: Db) {
    forall u :: !IsRejectedWithNotice(At(db, u))
  }

  /** Such a full run, started where no notice belongs to a pending candidate, ends clean if and only if
      no rejected candidate held a notice at its start. */
  lemma FullRunCleansExactly(plan: Plan, w: World, db: Db, items: seq<Url>)
    requires Valid(db) && Everywhere(db, NoticeDecided) && LoadsItems(plan, w, db, items)
    requires FullRun(plan) && OnlyBatchesFail(plan, w, AfterCollect(plan, w, db).rows.Keys)
    ensures Clean(Outcome(plan, w, db, items)) <==> NothingStale(db)
  {
    hide Outcome, LoadsItems, OnlyBatchesFail, AfterCollect;
    if NothingStale(db) {
      forall u ensures NoticeAccepted(At(db, u)) {
        assert NoticeDecided(At(db, u)) && !IsRejectedWithNotice(At(db, u));
      }
      FullRunEndsClean(plan, w, db, items);
    } else {
      var u :| IsRejectedWithNotice(At(db, u));
      StaleNoticeSurvives(plan, w, db, items, u);
      assert Leftover(ShapeOf(At(Outcome(plan, w, db, items), u)));
    }
  }

  // ---------------------------------------------------------------- every moment of a run

  /** A point at which a run can be observed or cut off: after so many writes of the first two
      stages, or after so many moves of the workers of the last two. */
  datatype Moment =
    | Collecting(writes: nat)
    | Screening(writes: nat)
    | Extracting(moves: seq<nat>)
    | Revalidating(items: seq<Url>, moves: seq<nat>)

  ghost predicate Occurs(plan: Plan, w: World, db: Db, m: Moment) {
    match m
    case Collecting(k) => k <= |CollectLog(plan, w)|
    case Screening(k) => !Aborts(plan, w) && k <= |ScreenStageLog(plan, w, AfterCollect(plan, w, db))|
    case Extracting(moves) =>
      var start := AfterScreen(plan, w, db);
      var jobs := StageDetailJobs(plan, w, start);
      !Aborts(plan, w) && !plan.skipDetail
      && Run(jobs, Initial(start, jobs, Max(1, plan.detailWorkers)), moves).Some?
    case Revalidating(items, moves) =>
      var start := AfterDetail(plan, w, db);
      var jobs := StageReviewJobs(plan, w, items);
      !Aborts(plan, w) && !plan.skipRevalidate && Loaded(start, 0, items)
      && Run(jobs, Initial(start, jobs, Max(1, plan.revalidateWorkers)), moves).Some?
  }

  ghost function StateAt(plan: Plan, w: World, db: Db, m: Moment): Db
    requires Occurs(plan, w, db, m)
  {
    match m
    case Collecting(k) => ApplyAll(db, CollectLog(plan, w)[..k])
    case Screening(k) =>
      var start := AfterCollect(plan, w, db);
      ApplyAll(start, ScreenStageLog(plan, w, start)[..k])
    case Extracting(moves) =>
      var start := AfterScreen(plan, w, db);
      var jobs := StageDetailJobs(plan, w, start);
      Run(jobs, Initial(start, jobs, Max(1, plan.detailWorkers)), moves).value.db
    case Revalidating(items, moves) =>
      var start := AfterDetail(plan, w, db);
      var jobs := StageReviewJobs(plan, w, items);
      Run(jobs, Initial(start, jobs, Max(1, plan.revalidateWorkers)), moves).value.db
  }

  lemma CollectLogCell(plan: Plan, w: World, db: Db, k: nat, u: Url)
    requires k <= |CollectLog(plan, w)|
    ensures var after, first := At(ApplyAll(db, CollectLog(plan, w)[..k]), u),
                             FirstWith(AllFound(w), Min(k, |AllFound(w)|), u);
            after == if At(db, u).row.Some? || plan.skipCollect || first.None? then At(db, u)
                     else At(db, u).(row := Some(NewRow(first.value, None)))
  {
    if plan.skipCollect {
      assert CollectLog(plan, w)[..k] == [];
    } else {
      var n := if Aborts(plan, w) then w.saveFault.value else |AllFound(w)|;
      InsertsPrefix(AllFound(w), n, n);
      InsertsPrefix(AllFound(w), n, k);
      CollectedCell(db, AllFound(w), k, u);
    }
  }

  lemma CollectStageKeeps(plan: Plan, w: World, db: Db, k: nat, ok: Cell -> bool)
    requires k <= |CollectLog(plan, w)| && Between(ok) && Everywhere(db, ok)
    ensures Everywhere(ApplyAll(db, CollectLog(plan, w)[..k]), ok)
    ensures k == |CollectLog(plan, w)| ==> Everywhere(AfterCollect(plan, w, db), ok)
  {
    forall u ensures ok(At(ApplyAll(db, CollectLog(plan, w)[..k]), u)) {
      CollectLogCell(plan, w, db, k, u);
      assert ok(At(db, u));
    }
    assert CollectLog(plan, w)[..|CollectLog(plan, w)|] == CollectLog(plan, w);
  }

  lemma ScreenStageKeeps(plan: Plan, w: World, db: Db, k: nat, ok: Cell -> bool)
    requires Valid(db) && k <= |ScreenStageLog(plan, w, db)| && Between(ok) && Everywhere(db, ok)
    ensures Everywhere(ApplyAll(db, ScreenStageLog(plan, w, db)[..k]), ok)
    ensures k == |ScreenStageLog(plan, w, db)| ==> Everywhere(ScreenStage(plan, w, db), ok)
  {
    var log := ScreenStageLog(plan, w, db);
    if plan.skipScreen {
      assert log[..k] == [];
    } else {
      PendingEveryStep(db, w.env, 0, Max(1, plan.batchSize), true, true, ok);
    }
    assert log[..|log|] == log;
  }

  lemma DetailStageKeeps(plan: Plan, w: World, db: Db, ok: Cell -> bool)
    requires Valid(db) && Between(ok) && Everywhere(db, ok)
    ensures Everywhere(DetailStage(plan, w, db), ok)
  {
    hide Sequential;
    var urls := LoadAcceptedMissing(db, 0);
    forall u ensures ok(At(DetailStage(plan, w, db), u)) {
      assert ok(At(db, u));
      if !plan.skipDetail {
        if i :| 0 <= i < |urls| && urls[i] == u {
          DetailStageCell(db, 0, !plan.reviewBeforeExtract, w.env.details, i);
        } else {
          DetailStageOther(db, 0, !plan.reviewBeforeExtract, w.env.details, u);
        }
      }
    }
  }

  /** At every moment of a run that started so, no notice belongs to a pending or unknown candidate;
      and until revalidation starts every notice belongs to an accepted one. */
  lemma NoticesAtEveryMoment(plan: Plan, w: World, db: Db, m: Moment, ok: Cell -> bool)
    requires Valid(db) && Between(ok) && Everywhere(db, ok) && Occurs(plan, w, db, m)
    ensures Everywhere(StateAt(plan, w, db, m), if m.Revalidating? then NoticeDecided else ok)
  {
    hide ScreenStageLog, CollectLog, DetailStage, StageReviewJobs, ScreenStage, Run, Loaded;
    StagesValid(plan, w, db);
    CollectStageKeeps(plan, w, db, |CollectLog(plan, w)|, ok);
    var collected := AfterCollect(plan, w, db);
    ScreenStageKeeps(plan, w, collected, |ScreenStageLog(plan, w, collected)|, ok);
    var screened := AfterScreen(plan, w, db);
    DetailStageKeeps(plan, w, screened, ok);
    match m
    case Collecting(k) => CollectStageKeeps(plan, w, db, k, ok);
    case Screening(k) => ScreenStageKeeps(plan, w, collected, k, ok);
    case Extracting(moves) =>
      DetailEveryStep(screened, 0, !plan.reviewBeforeExtract, w.env.details, Max(1, plan.detailWorkers), moves, ok);
    case Revalidating(items, moves) =>
      RevalidateMoment(plan, w, AfterDetail(plan, w, db), items, moves, ok);
  }

  lemma RevalidateMoment(plan: Plan, w: World, db: Db, items: seq<Url>, moves: seq<nat>, ok: Cell -> bool)
    requires Between(ok) && Everywhere(db, ok) && Loaded(db, 0, items)
    requires var jobs := StageReviewJobs(plan, w, items);
             Run(jobs, Initial(db, jobs, Max(1, plan.revalidateWorkers)), moves).Some?
    ensures var jobs := StageReviewJobs(plan, w, items);
            Everywhere(Run(jobs, Initial(db, jobs, Max(1, plan.revalidateWorkers)), moves).value.db, NoticeDecided)
  {
    hide Run;
    forall u ensures NoticeDecided(At(db, u)) { assert ok(At(db, u)); }
    RevalidateEveryStep(db, 0, items, plan.keepRejected, w.reviews, Max(1, plan.revalidateWorkers), moves);
  }

  /** The two instances a reader is after. */
  lemma NoticeOwners(plan: Plan, w: World, db: Db, m: Moment)
    requires Valid(db) && Occurs(plan, w, db, m)
    ensures Everywhere(db, NoticeDecided) ==> Everywhere(StateAt(plan, w, db, m), NoticeDecided)
    ensures Everywhere(db, NoticeAccepted) && !m.Revalidating? ==> Everywhere(StateAt(plan, w, db, m), NoticeAccepted)
  {
    if Everywhere(db, NoticeDecided) { NoticesAtEveryMoment(plan, w, db, m, NoticeDecided); }
    if Everywhere(db, NoticeAccepted) { NoticesAtEveryMoment(plan, w, db, m, NoticeAccepted); }
  }

  // ---------------------------------------------------------------- running again

  /** What a run leaves at a moment is a database like any other. */
  lemma StateValid(plan: Plan, w: World, db: Db, m: Moment)
    requires Valid(db) && Occurs(plan, w, db, m)
    ensures Valid(StateAt(plan, w, db, m))
  {
    hide Valid, ScreenStageLog, CollectLog, StageDetailJobs, StageReviewJobs, Loaded;
    StagesValid(plan, w, db);
    match m
    case Collecting(k) => ApplyAllValid(db, CollectLog(plan, w)[..k]);
    case Screening(k) =>
      ApplyAllValid(AfterCollect(plan, w, db), ScreenStageLog(plan, w, AfterCollect(plan, w, db))[..k]);
    case Extracting(moves) =>
      var start := AfterScreen(plan, w, db);
      var jobs := StageDetailJobs(plan, w, start);
      RunValid(jobs, Initial(start, jobs, Max(1, plan.detailWorkers)), moves, |moves|);
    case Revalidating(items, moves) =>
      var start := AfterDetail(plan, w, db);
      var jobs := StageReviewJobs(plan, w, items);
      RunValid(jobs, Initial(start, jobs, Max(1, plan.revalidateWorkers)), moves, |moves|);
  }

  /** A moment at which nobody is between a decision and the deletion that goes with it, in a run that
      deletes what it rejects. */
  ghost predicate Tidy(plan: Plan, w: World, db: Db, m: Moment)
    requires Occurs(plan, w, db, m)
  {
    m.Revalidating? ==>
      var start := AfterDetail(plan, w, db);
      var jobs := StageReviewJobs(plan, w, m.items);
      && Run(jobs, Initial(start, jobs, Max(1, plan.revalidateWorkers)), m.moves).value.locks > 0
      && forall u :: u in m.items ==> !LeavesStale(plan.keepRejected, Revalidate.ReplyTo(w.reviews, u))
  }

  lemma NothingStaleYet(db: Db)
    requires Everywhere(db, NoticeAccepted)
    ensures NothingStale(db)
  {
    forall u ensures !IsRejectedWithNotice(At(db, u)) { assert NoticeAccepted(At(db, u)); }
  }

  lemma TidyRevalidation(plan: Plan, w: World, db: Db, items: seq<Url>, moves: seq<nat>)
    requires Everywhere(db, NoticeAccepted) && Loaded(db, 0, items)
    requires forall u :: u in items ==> !LeavesStale(plan.keepRejected, Revalidate.ReplyTo(w.reviews, u))
    requires var jobs := StageReviewJobs(plan, w, items);
             var r := Run(jobs, Initial(db, jobs, Max(1, plan.revalidateWorkers)), moves);
             r.Some? && r.value.locks > 0
    ensures var jobs := StageReviewJobs(plan, w, items);
            NothingStale(Run(jobs, Initial(db, jobs, Max(1, plan.revalidateWorkers)), moves).value.db)
  {
    hide Run, LeavesStale;
    NothingStaleYet(db);
    forall u ensures NoticeDecided(At(db, u)) { assert NoticeAccepted(At(db, u)); }
    RevalidateEveryStep(db, 0, items, plan.keepRejected, w.reviews, Max(1, plan.revalidateWorkers), moves);
  }

  /** At every tidy moment no rejected candidate holds a notice. */
  lemma TidyMoment(plan: Plan, w: World, db: Db, m: Moment)
    requires Valid(db) && Everywhere(db, NoticeAccepted) && Occurs(plan, w, db, m) && Tidy(plan, w, db, m)
    ensures NothingStale(StateAt(plan, w, db, m))
  {
    if m.Revalidating? {
      AcceptedBeforeRevalidation(plan, w, db);
      TidyRevalidation(plan, w, AfterDetail(plan, w, db), m.items, m.moves);
    } else {
      NoticesAtEveryMoment(plan, w, db, m, NoticeAccepted);
      NothingStaleYet(StateAt(plan, w, db, m));
    }
  }

  lemma AcceptedBeforeRevalidation(plan: Plan, w: World, db: Db)
    requires Valid(db) && Everywhere(db, NoticeAccepted)
    ensures Everywhere(AfterDetail(plan, w, db), NoticeAccepted)
  {
    hide CollectLog, ScreenStageLog, ScreenStage, DetailStage, Everywhere;
    StagesValid(plan, w, db);
    CollectStageKeeps(plan, w, db, |CollectLog(plan, w)|, NoticeAccepted);
    var collected := AfterCollect(plan, w, db);
    ScreenStageKeeps(plan, w, collected, |ScreenStageLog(plan, w, collected)|, NoticeAccepted);
    DetailStageKeeps(plan, w, AfterScreen(plan, w, db), NoticeAccepted);
  }

  /** After a run that was cut off, aborted or failed at whatever moment, a full run in which only
      searches and batch reviews fail ends clean if and only if no rejected candidate holds a notice at
      that moment; and none does at a tidy one. */
  lemma RecoveryExactly(first: Plan, v: World, m: Moment, second: Plan, w: World, db: Db, again: seq<Url>)
    requires Valid(db) && Everywhere(db, NoticeAccepted) && Occurs(first, v, db, m)
    requires var cut := StateAt(first, v, db, m);
             LoadsItems(second, w, cut, again) && FullRun(second)
             && OnlyBatchesFail(second, w, AfterCollect(second, w, cut).rows.Keys)
    ensures Clean(Outcome(second, w, StateAt(first, v, db, m), again)) <==> NothingStale(StateAt(first, v, db, m))
    ensures Tidy(first, v, db, m) ==> Clean(Outcome(second, w, StateAt(first, v, db, m), again))
  {
    hide Outcome, LoadsItems, OnlyBatchesFail, AfterCollect, Occurs, StateAt, Clean, NothingStale, Tidy, FullRun, Valid;
    StateValid(first, v, db, m);
    DecidedToo(db);
    NoticesAtEveryMoment(first, v, db, m, NoticeDecided);
    FullRunCleansExactly(second, w, StateAt(first, v, db, m), again);
    if Tidy(first, v, db, m) {
      TidyMoment(first, v, db, m);
    }
  }

  lemma DecidedToo(db: Db)
    requires Everywhere(db, NoticeAccepted)
    ensures Everywhere(db, NoticeDecided)
  {
    forall u ensures NoticeDecided(At(db, u)) { assert NoticeAccepted(At(db, u)); }
  }

  /** The same after a first run that ended, with whatever failures: it left no rejected candidate with a
      notice unless it kept one or failed to delete it. */
  lemma RetryEndsClean(first: Plan, v: World, second: Plan, w: World, db: Db, items: seq<Url>, again: seq<Url>)
    requires Valid(db) && Everywhere(db, NoticeAccepted) && LoadsItems(first, v, db, items)
    requires forall u :: u in items ==> !LeavesStale(first.keepRejected, Revalidate.ReplyTo(v.reviews, u))
    requires FullRun(second)
    requires var mid := Outcome(first, v, db, items);
             LoadsItems(second, w, mid, again) && OnlyBatchesFail(second, w, AfterCollect(second, w, mid).rows.Keys)
    ensures Clean(Outcome(second, w, Outcome(first, v, db, items), again))
  {
    hide Outcome, LoadsItems, OnlyBatchesFail, AfterCollect, Clean, Everywhere, FullRun;
    OutcomeTidy(first, v, db, items);
    FullRunEndsClean(second, w, Outcome(first, v, db, items), again);
  }

  lemma OutcomeTidy(plan: Plan, w: World, db: Db, items: seq<Url>)
    requires Valid(db) && Everywhere(db, NoticeAccepted) && LoadsItems(plan, w, db, items)
    requires forall u :: u in items ==> !LeavesStale(plan.keepRejected, Revalidate.ReplyTo(w.reviews, u))
    ensures Valid(Outcome(plan, w, db, items)) && Everywhere(Outcome(plan, w, db, items), NoticeAccepted)
  {
    var p := Reached(plan, w);
    hide AfterDetail, Reached, RevalidateStage, LeavesStale, Valid;
    AcceptedBeforeRevalidation(p, w, db);
    StagesValid(p, w, db);
    var before := AfterDetail(p, w, db);
    RevalidateStageValid(p, w, before, items);
    forall u ensures NoticeAccepted(At(RevalidateStage(p, w, before, items), u)) {
      assert NoticeAccepted(At(before, u));
      KeepsAccepted(plan, w, before, items, u);
    }
  }

  lemma KeepsAccepted(plan: Plan, w: World, db: Db, items: seq<Url>, u: Url)
    requires Reached(plan, w).skipRevalidate || Loaded(db, 0, items)
    requires u in items ==> !LeavesStale(plan.keepRejected, Revalidate.ReplyTo(w.reviews, u))
    requires NoticeAccepted(At(db, u))
    ensures NoticeAccepted(At(RevalidateStage(Reached(plan, w), w, db, items), u))
  {
    RevalidateStageShape(Reached(plan, w), w, db, items, u);
  }

  lemma RevalidateStageValid(plan: Plan, w: World, db: Db, items: seq<Url>)
    requires Valid(db)
    ensures Valid(RevalidateStage(plan, w, db, items))
  {
    SequentialValid(db, StageReviewJobs(plan, w, items), |StageReviewJobs(plan, w, items)|);
  }

  // ---------------------------------------------------------------- the run

  /** The statistics query. */
  method WorkflowStats(repo: Repository) returns (stats: Stats)
    requires repo.Ok()
    ensures stats == StatsOf(repo.db) && Reports(stats, repo.db.rows, repo.db.notices)
    ensures stats.pending == stats.acceptedMissing == stats.rejectedNoticeRemaining == 0 <==> Clean(repo.db)
  {
    stats := StatsOf(repo.db);
    StatsReport(repo.db);
    StatsClean(repo.db);
  }

  method RunCollectStage(repo: Repository, plan: Plan, w: World) returns (outcome: Answer<()>)
    requires repo.Ok()
    modifies repo
    ensures repo.Ok() && outcome.Raises? == Aborts(plan, w)
    ensures repo.db == AfterCollect(plan, w, old(repo.db))
  {
    if !plan.skipCollect {
      var collected := CollectCandidates(repo, w);
      LogThen(repo.start, old(repo.log), CollectLog(plan, w), old(repo.db), repo.db);
      if collected.Raises? {
        return Raises(collected.error);
      }
    }
    return Returns(());
  }

  method RunScreenStage(repo: Repository, plan: Plan, w: World)
    requires repo.Ok()
    modifies repo
    ensures repo.Ok() && repo.db == ScreenStage(plan, w, old(repo.db))
  {
    hide PendingLog, PendingTotals, BatchCount, Explains;
    if !plan.skipScreen {
      var result, reviewed := RunPending(repo, 0, plan.batchSize, true, true, w.env);
      LogThen(repo.start, old(repo.log), ScreenStageLog(plan, w, old(repo.db)), old(repo.db), repo.db);
    }
  }

  /** The schedules run the tasks of the stages that the run gets to, to their end. */
  ghost predicate Scheduled(plan: Plan, w: World, db: Db, items: seq<Url>,
                            detailSchedule: seq<nat>, reviewSchedule: seq<nat>) {
    var screened, detailed := AfterScreen(plan, w, db), AfterDetail(plan, w, db);
    && (plan.skipDetail || Completes(StageDetailJobs(plan, w, screened), screened, plan.detailWorkers, detailSchedule))
    && (plan.skipRevalidate ||
        Completes(StageReviewJobs(plan, w, items), detailed, plan.revalidateWorkers, reviewSchedule))
  }

  /** The whole run. The schedules say how the workers of the two concurrent stages are interleaved,
      `items` in which order the notices to revalidate are loaded. */
  method RunWorkflow(repo: Repository, plan: Plan, w: World, items: seq<Url>,
                     detailSchedule: seq<nat>, reviewSchedule: seq<nat>) returns (outcome: Answer<Stats>)
    requires repo.Ok() && LoadsItems(plan, w, repo.db, items)
    requires Scheduled(Reached(plan, w), w, repo.db, items, detailSchedule, reviewSchedule)
    modifies repo
    ensures repo.Ok() && repo.db == Outcome(plan, w, old(repo.db), items)
    ensures outcome.Raises? == Aborts(plan, w)
    ensures Valid(AfterCollect(plan, w, old(repo.db)))
    ensures Clean(repo.db) <==> forall u :: !Trouble(Reached(plan, w), w, AfterCollect(plan, w, old(repo.db)), u)
    ensures outcome.Returns? ==>
              && outcome.value == StatsOf(repo.db) && Reports(outcome.value, repo.db.rows, repo.db.notices)
              && (outcome.value.pending == outcome.value.acceptedMissing == outcome.value.rejectedNoticeRemaining == 0
                  <==> Clean(repo.db))
  {
    hide Sequential, Run, Trouble, Clean, Loaded, DetailJobs, ReviewJobs, StatsOf, CollectLog, ScreenStage;
    hide LoadAcceptedMissing, Outcome, Reports, StageReplied, StageReviewed, Tells, Among;
    CleanExactly(plan, w, repo.db, items);
    AbortedOutcome(plan, w, repo.db, items);
    var collected := RunCollectStage(repo, plan, w);
    if collected.Raises? {
      return Raises(collected.error);
    }
    RunScreenStage(repo, plan, w);
    if !plan.skipDetail {
      var result, reviewed :=
        RunAcceptedMissing(repo, 0, plan.detailWorkers, !plan.reviewBeforeExtract, w.env.details, detailSchedule);
    }
    if !plan.skipRevalidate {
      var reviewed, accepted, rejected, errors :=
        RunRevalidate(repo, 0, items, plan.revalidateWorkers, plan.keepRejected, w.reviews, reviewSchedule);
    }
    var stats := WorkflowStats(repo);
    return Returns(stats);
  }
}
