/** Concurrent jobs on one event loop. A job is the list of micro-steps between its awaits;
    jobs are interleaved in any order, at most `width` of them between entering and leaving
    the semaphore, at most one holding the write lock, and the parent coroutine collects
    finished jobs one at a time. A schedule is the sequence of job indices that move. */
module TaskPool {
  import opened Common
  import opened TenderStore

  datatype Resource = Slot | WriteLock

  datatype Micro =
    | Acquire(r: Resource)
    | Release(r: Resource)
    | Call
    | Commit(w: Write)

  /** How a finished job is counted: detail extraction saves, filters out or fails; a
      revalidation accepts, rejects or fails. */
  datatype Verdict = Positive | Negative | Failed(error: Failure)

  /** An error message: the phase that failed, for which candidate, and why. */
  datatype Failure = Failure(phase: Phase, url: Url, cause: Cause)

  datatype Phase = DetailFetch | DetailProcessing | CandidateReview | Revalidation

  datatype Job = Job(url: Url, steps: seq<Micro>, verdict: Verdict)

  /** `pcs[i]` steps of job i are done; |steps| is finished, |steps| + 1 is collected. */
  datatype Pool = Pool(db: Db, pcs: seq<nat>, slots: int, locks: int, collected: seq<nat>)

  /** The writes among the first `n` steps. */
  function Writes(steps: seq<Micro>, n: nat): seq<Write>
    requires n <= |steps|
  {
    if n == 0 then []
    else if steps[n - 1].Commit? then Writes(steps, n - 1) + [steps[n - 1].w]
    else Writes(steps, n - 1)
  }

  function WritesOf(job: Job): seq<Write> {
    Writes(job.steps, |job.steps|)
  }

  function Delta(r: Resource, m: Micro): int {
    if m == Acquire(r) then 1 else if m == Release(r) then -1 else 0
  }

  /** Units of `r` still held after the first `n` steps. */
  function Held(r: Resource, steps: seq<Micro>, n: nat): int
    requires n <= |steps|
  {
    if n == 0 then 0 else Held(r, steps, n - 1) + Delta(r, steps[n - 1])
  }

  /** A job gives everything back, takes its slot before the lock, waits for nothing while it
      holds the lock, and writes only its own url. */
  ghost predicate WellFormed(job: Job) {
    && (forall r, n :: 0 <= n <= |job.steps| ==> 0 <= Held(r, job.steps, n) <= 1)
    && (forall r :: Held(r, job.steps, |job.steps|) == 0)
    && (forall n :: 0 <= n < |job.steps| && job.steps[n].Acquire? ==>
          Held(WriteLock, job.steps, n) == 0 &&
          (job.steps[n].r == Slot ==> Held(Slot, job.steps, n) == 0))
    && (forall n :: 0 <= n < |job.steps| && job.steps[n].Commit? ==>
          Target(job.steps[n].w) == job.url && !job.steps[n].w.Insert?)
  }

  ghost predicate WellFormedAll(jobs: seq<Job>) {
    && (forall i :: 0 <= i < |jobs| ==> WellFormed(jobs[i]))
    && (forall i, j :: 0 <= i < j < |jobs| ==> jobs[i].url != jobs[j].url)
  }

  function Initial(db: Db, jobs: seq<Job>, width: nat): Pool {
    Pool(db, seq(|jobs|, _ => 0), width, 1, [])
  }

  predicate Enabled(jobs: seq<Job>, p: Pool, i: nat)
    requires |p.pcs| == |jobs|
  {
    && i < |jobs|
    && p.pcs[i] <= |jobs[i].steps|
    && (p.pcs[i] < |jobs[i].steps| ==>
          (jobs[i].steps[p.pcs[i]] == Acquire(Slot) ==> p.slots > 0) &&
          (jobs[i].steps[p.pcs[i]] == Acquire(WriteLock) ==> p.locks > 0))
  }

  /** One move of job i, or its collection when it has finished. */
  function Step(jobs: seq<Job>, p: Pool, i: nat): (q: Pool)
    requires |p.pcs| == |jobs| && Enabled(jobs, p, i)
    ensures |q.pcs| == |jobs|
  {
    var pcs := p.pcs[i := p.pcs[i] + 1];
    if p.pcs[i] == |jobs[i].steps| then p.(pcs := pcs, collected := p.collected + [i])
    else
      var m := jobs[i].steps[p.pcs[i]];
      Pool(if m.Commit? then Apply(p.db, m.w) else p.db, pcs,
           p.slots - Delta(Slot, m), p.locks - Delta(WriteLock, m), p.collected)
  }

  /** The pool after the first `k` moves of a schedule, if all of them were possible. */
  function RunTo(jobs: seq<Job>, p: Pool, schedule: seq<nat>, k: nat): (q: Option<Pool>)
    requires |p.pcs| == |jobs| && k <= |schedule|
    ensures q.Some? ==> |q.value.pcs| == |jobs|
  {
    if k == 0 then Some(p)
    else
      var before := RunTo(jobs, p, schedule, k - 1);
      if before.Some? && Enabled(jobs, before.value, schedule[k - 1])
      then Some(Step(jobs, before.value, schedule[k - 1])) else None
  }

  function Run(jobs: seq<Job>, p: Pool, schedule: seq<nat>): (q: Option<Pool>)
    requires |p.pcs| == |jobs|
    ensures q.Some? ==> |q.value.pcs| == |jobs|
  {
    RunTo(jobs, p, schedule, |schedule|)
  }

  ghost predicate Finished(jobs: seq<Job>, p: Pool)
    requires |p.pcs| == |jobs|
  {
    forall i :: 0 <= i < |jobs| ==> p.pcs[i] == |jobs[i].steps| + 1
  }

  /** The steps of job i behind program counter `pc`. */
  function Done(job: Job, pc: nat): (n: nat)
    ensures n <= |job.steps|
  {
    Min(pc, |job.steps|)
  }

  // ---------------------------------------------------------------- the invariant

  ghost function Holders(r: Resource, jobs: seq<Job>, pcs: seq<nat>): set<nat>
    requires |pcs| == |jobs|
  {
    set i: nat | i < |jobs| && Held(r, jobs[i].steps, Done(jobs[i], pcs[i])) == 1
  }

  function CellOf(job: Job, db0: Db, n: nat): Cell
    requires n <= |job.steps|
  {
    CellAll(At(db0, job.url), job.url, Writes(job.steps, n))
  }

  ghost predicate NoJob(jobs: seq<Job>, u: Url) {
    forall i :: 0 <= i < |jobs| ==> jobs[i].url != u
  }

  /** The database of a half-finished pool, url by url: each job has contributed exactly the
      writes it has committed, and urls without a job are as they were. */
  ghost predicate CellsOk(jobs: seq<Job>, db0: Db, p: Pool)
    requires |p.pcs| == |jobs|
  {
    && p.db.order == db0.order
    && (forall i :: 0 <= i < |jobs| ==>
          At(p.db, jobs[i].url) == CellOf(jobs[i], db0, Done(jobs[i], p.pcs[i])))
    && (forall u :: NoJob(jobs, u) ==> At(p.db, u) == At(db0, u))
  }

  ghost predicate CollectedOk(jobs: seq<Job>, p: Pool)
    requires |p.pcs| == |jobs|
  {
    && Distinct(p.collected)
    && (forall i: nat :: i in p.collected <==> i < |jobs| && p.pcs[i] == |jobs[i].steps| + 1)
  }

  ghost predicate PcsOk(jobs: seq<Job>, pcs: seq<nat>) {
    |pcs| == |jobs| && forall i :: 0 <= i < |jobs| ==> pcs[i] <= |jobs[i].steps| + 1
  }

  ghost predicate UnitsOk(jobs: seq<Job>, width: nat, p: Pool)
    requires |p.pcs| == |jobs|
  {
    && p.slots >= 0 && p.locks >= 0
    && p.slots + |Holders(Slot, jobs, p.pcs)| == width
    && p.locks + |Holders(WriteLock, jobs, p.pcs)| == 1
  }

  ghost predicate Inv(jobs: seq<Job>, db0: Db, width: nat, p: Pool) {
    PcsOk(jobs, p.pcs) && CellsOk(jobs, db0, p) && UnitsOk(jobs, width, p) && CollectedOk(jobs, p)
  }

  lemma InitialInv(jobs: seq<Job>, db0: Db, width: nat)
    ensures Inv(jobs, db0, width, Initial(db0, jobs, width))
  {
  }

  lemma Toggle(before: set<nat>, after: set<nat>, i: nat)
    requires before - {i} == after - {i}
    ensures |after| - |before| == (if i in after then 1 else 0) - (if i in before then 1 else 0)
  {
    if i in before { assert |before| == |before - {i}| + 1; } else { assert before == before - {i}; }
    if i in after { assert |after| == |after - {i}| + 1; } else { assert after == after - {i}; }
  }

  lemma HoldersStep(r: Resource, jobs: seq<Job>, pcs: seq<nat>, i: nat)
    requires WellFormedAll(jobs) && |pcs| == |jobs|
    requires i < |jobs| && pcs[i] < |jobs[i].steps|
    ensures |Holders(r, jobs, pcs[i := pcs[i] + 1])| ==
            |Holders(r, jobs, pcs)| + Delta(r, jobs[i].steps[pcs[i]])
  {
    var before, after := Holders(r, jobs, pcs), Holders(r, jobs, pcs[i := pcs[i] + 1]);
    assert WellFormed(jobs[i]);
    assert before - {i} == after - {i};
    Toggle(before, after, i);
    assert 0 <= Held(r, jobs[i].steps, pcs[i]) <= 1;
    assert 0 <= Held(r, jobs[i].steps, pcs[i] + 1) <= 1;
  }

  lemma StepUnits(jobs: seq<Job>, width: nat, p: Pool, i: nat)
    requires WellFormedAll(jobs) && |p.pcs| == |jobs| && UnitsOk(jobs, width, p) && Enabled(jobs, p, i)
    ensures UnitsOk(jobs, width, Step(jobs, p, i))
  {
    if p.pcs[i] == |jobs[i].steps| {
      assert Holders(Slot, jobs, p.pcs[i := p.pcs[i] + 1]) == Holders(Slot, jobs, p.pcs);
      assert Holders(WriteLock, jobs, p.pcs[i := p.pcs[i] + 1]) == Holders(WriteLock, jobs, p.pcs);
    } else {
      HoldersStep(Slot, jobs, p.pcs, i);
      HoldersStep(WriteLock, jobs, p.pcs, i);
    }
  }

  lemma AtApply(db: Db, w: Write, u: Url)
    ensures At(Apply(db, w), u) == if Target(w) == u then ApplyCell(At(db, u), w) else At(db, u)
  {
  }

  lemma CellOfNext(job: Job, db0: Db, n: nat)
    requires WellFormed(job) && n < |job.steps|
    ensures CellOf(job, db0, n + 1) ==
            if job.steps[n].Commit? then ApplyCell(CellOf(job, db0, n), job.steps[n].w)
            else CellOf(job, db0, n)
  {
  }

  lemma StepCells(jobs: seq<Job>, db0: Db, p: Pool, i: nat)
    requires WellFormedAll(jobs) && |p.pcs| == |jobs| && CellsOk(jobs, db0, p) && Enabled(jobs, p, i)
    ensures CellsOk(jobs, db0, Step(jobs, p, i))
  {
    var q := Step(jobs, p, i);
    var n := p.pcs[i];
    if n < |jobs[i].steps| {
      assert WellFormed(jobs[i]);
      CellOfNext(jobs[i], db0, n);
      if jobs[i].steps[n].Commit? {
        forall u { AtApply(p.db, jobs[i].steps[n].w, u); }
      }
      forall j | 0 <= j < |jobs|
        ensures At(q.db, jobs[j].url) == CellOf(jobs[j], db0, Done(jobs[j], q.pcs[j]))
      {
        if j != i {
          assert jobs[j].url != jobs[i].url by {
            if j < i { assert jobs[j].url != jobs[i].url; } else { assert jobs[i].url != jobs[j].url; }
          }
        }
      }
    }
  }

  lemma StepInv(jobs: seq<Job>, db0: Db, width: nat, p: Pool, i: nat)
    requires WellFormedAll(jobs) && Inv(jobs, db0, width, p) && Enabled(jobs, p, i)
    ensures Inv(jobs, db0, width, Step(jobs, p, i))
  {
    StepCells(jobs, db0, p, i);
    StepUnits(jobs, width, p, i);
    assert CollectedOk(jobs, Step(jobs, p, i));
  }

  /** The invariant holds at every point of every schedule. */
  lemma {:induction false} RunInv(jobs: seq<Job>, db0: Db, width: nat, schedule: seq<nat>, k: nat)
    requires WellFormedAll(jobs) && k <= |schedule|
    requires RunTo(jobs, Initial(db0, jobs, width), schedule, k).Some?
    ensures Inv(jobs, db0, width, RunTo(jobs, Initial(db0, jobs, width), schedule, k).value)
  {
    if k == 0 {
      InitialInv(jobs, db0, width);
    } else {
      RunInv(jobs, db0, width, schedule, k - 1);
      StepInv(jobs, db0, width, RunTo(jobs, Initial(db0, jobs, width), schedule, k - 1).value, schedule[k - 1]);
    }
  }

  /** Interleaved jobs keep the database well formed. */
  lemma {:induction false} RunValid(jobs: seq<Job>, p: Pool, schedule: seq<nat>, k: nat)
    requires |p.pcs| == |jobs| && k <= |schedule| && Valid(p.db) && RunTo(jobs, p, schedule, k).Some?
    ensures Valid(RunTo(jobs, p, schedule, k).value.db)
  {
    hide Valid;
    if k > 0 {
      RunValid(jobs, p, schedule, k - 1);
      var before := RunTo(jobs, p, schedule, k - 1).value;
      var i := schedule[k - 1];
      if before.pcs[i] < |jobs[i].steps| && jobs[i].steps[before.pcs[i]].Commit? {
        ApplyValid(before.db, jobs[i].steps[before.pcs[i]].w);
      }
    }
  }

  /** At no point are more than `width` jobs inside the semaphore, nor two holding the lock. */
  lemma WidthRespected(jobs: seq<Job>, db0: Db, width: nat, schedule: seq<nat>)
    requires WellFormedAll(jobs)
    requires Run(jobs, Initial(db0, jobs, width), schedule).Some?
    ensures var p := Run(jobs, Initial(db0, jobs, width), schedule).value;
            |Holders(Slot, jobs, p.pcs)| <= width && |Holders(WriteLock, jobs, p.pcs)| <= 1
  {
    RunInv(jobs, db0, width, schedule, |schedule|);
  }

  // ---------------------------------------------------------------- progress

  /** Moves left to the first `n` jobs until they are collected. */
  function Remaining(jobs: seq<Job>, pcs: seq<nat>, n: nat): int
    requires |pcs| == |jobs| && n <= |jobs|
  {
    if n == 0 then 0 else Remaining(jobs, pcs, n - 1) + |jobs[n - 1].steps| + 1 - pcs[n - 1]
  }

  function Moves(jobs: seq<Job>): int {
    Remaining(jobs, seq(|jobs|, _ => 0), |jobs|)
  }

  lemma {:induction false} RemainingStep(jobs: seq<Job>, pcs: seq<nat>, i: nat, n: nat)
    requires |pcs| == |jobs| && i < |jobs| && n <= |jobs|
    ensures Remaining(jobs, pcs[i := pcs[i] + 1], n) == Remaining(jobs, pcs, n) - (if i < n then 1 else 0)
  {
    if n > 0 {
      RemainingStep(jobs, pcs, i, n - 1);
    }
  }

  lemma {:induction false} RemainingSign(jobs: seq<Job>, pcs: seq<nat>, n: nat)
    requires PcsOk(jobs, pcs) && n <= |jobs|
    ensures Remaining(jobs, pcs, n) >= 0
    ensures Remaining(jobs, pcs, n) == 0 <==> forall i :: 0 <= i < n ==> pcs[i] == |jobs[i].steps| + 1
  {
    if n > 0 {
      RemainingSign(jobs, pcs, n - 1);
    }
  }

  /** Every schedule is finite: each move uses up exactly one of the moves left. */
  lemma {:induction false} RunLength(jobs: seq<Job>, db0: Db, width: nat, schedule: seq<nat>, k: nat)
    requires k <= |schedule| && RunTo(jobs, Initial(db0, jobs, width), schedule, k).Some?
    ensures Remaining(jobs, RunTo(jobs, Initial(db0, jobs, width), schedule, k).value.pcs, |jobs|) == Moves(jobs) - k
  {
    if k > 0 {
      RunLength(jobs, db0, width, schedule, k - 1);
      var p := RunTo(jobs, Initial(db0, jobs, width), schedule, k - 1).value;
      RemainingStep(jobs, p.pcs, schedule[k - 1], |jobs|);
    }
  }

  lemma NoHolders(r: Resource, jobs: seq<Job>, pcs: seq<nat>)
    requires |pcs| == |jobs|
    requires forall i :: 0 <= i < |jobs| ==> Held(r, jobs[i].steps, Done(jobs[i], pcs[i])) == 0
    ensures |Holders(r, jobs, pcs)| == 0
  {
  }

  /** A job that cannot move waits at an acquire, or is collected; either way it holds no lock. */
  lemma Blocked(jobs: seq<Job>, p: Pool, i: nat)
    requires WellFormedAll(jobs) && PcsOk(jobs, p.pcs) && i < |jobs| && !Enabled(jobs, p, i)
    ensures p.pcs[i] != |jobs[i].steps|
    ensures Held(WriteLock, jobs[i].steps, Done(jobs[i], p.pcs[i])) == 0
    ensures p.locks > 0 ==> Held(Slot, jobs[i].steps, Done(jobs[i], p.pcs[i])) == 0
    ensures p.locks > 0 && p.slots > 0 ==> p.pcs[i] == |jobs[i].steps| + 1
  {
  }

  /** No deadlock: until everything is collected some move is possible. */
  lemma Progress(jobs: seq<Job>, db0: Db, width: nat, p: Pool)
    requires WellFormedAll(jobs) && width >= 1 && Inv(jobs, db0, width, p) && !Finished(jobs, p)
    ensures exists i :: Enabled(jobs, p, i)
  {
    if forall i :: !Enabled(jobs, p, i) {
      forall i | 0 <= i < |jobs|
        ensures Held(WriteLock, jobs[i].steps, Done(jobs[i], p.pcs[i])) == 0
      {
        Blocked(jobs, p, i);
      }
      NoHolders(WriteLock, jobs, p.pcs);
      forall i | 0 <= i < |jobs|
        ensures Held(Slot, jobs[i].steps, Done(jobs[i], p.pcs[i])) == 0
      {
        Blocked(jobs, p, i);
      }
      NoHolders(Slot, jobs, p.pcs);
      forall i | 0 <= i < |jobs|
        ensures p.pcs[i] == |jobs[i].steps| + 1
      {
        Blocked(jobs, p, i);
      }
    }
  }

  lemma {:induction false} RunToPrefix(jobs: seq<Job>, p: Pool, schedule: seq<nat>, more: seq<nat>, k: nat)
    requires |p.pcs| == |jobs| && k <= |schedule|
    ensures RunTo(jobs, p, schedule + more, k) == RunTo(jobs, p, schedule, k)
  {
    if k > 0 {
      RunToPrefix(jobs, p, schedule, more, k - 1);
    }
  }

  /** However the tasks have been interleaved so far, the run can be completed, and by now it has only
      finitely many moves left. */
  lemma {:induction false} CanFinish(jobs: seq<Job>, db0: Db, width: nat, schedule: seq<nat>) returns (full: seq<nat>)
    requires WellFormedAll(jobs) && width >= 1 && Run(jobs, Initial(db0, jobs, width), schedule).Some?
    ensures schedule <= full && Run(jobs, Initial(db0, jobs, width), full).Some?
    ensures Finished(jobs, Run(jobs, Initial(db0, jobs, width), full).value)
    decreases Moves(jobs) - |schedule|
  {
    hide WellFormedAll, Inv, Finished, Enabled, Step, Remaining;
    var start := Initial(db0, jobs, width);
    var p := Run(jobs, start, schedule).value;
    RunInv(jobs, db0, width, schedule, |schedule|);
    RunLength(jobs, db0, width, schedule, |schedule|);
    MovesLeft(jobs, db0, width, p);
    if Finished(jobs, p) {
      full := schedule;
    } else {
      Progress(jobs, db0, width, p);
      var i :| Enabled(jobs, p, i);
      RunToPrefix(jobs, start, schedule, [i], |schedule|);
      full := CanFinish(jobs, db0, width, schedule + [i]);
    }
  }

  lemma MovesLeft(jobs: seq<Job>, db0: Db, width: nat, p: Pool)
    requires Inv(jobs, db0, width, p)
    ensures Remaining(jobs, p.pcs, |jobs|) >= 0
    ensures Remaining(jobs, p.pcs, |jobs|) == 0 <==> Finished(jobs, p)
  {
    RemainingSign(jobs, p.pcs, |jobs|);
  }

  // ---------------------------------------------------------------- schedule independence

  /** The first `n` jobs run one after another. */
  function Sequential(db: Db, jobs: seq<Job>, n: nat): Db
    requires n <= |jobs|
  {
    if n == 0 then db else ApplyAll(Sequential(db, jobs, n - 1), WritesOf(jobs[n - 1]))
  }

  lemma {:induction false} WritesTargets(job: Job, n: nat)
    requires WellFormed(job) && n <= |job.steps|
    ensures forall w :: w in Writes(job.steps, n) ==> Target(w) == job.url && !w.Insert?
  {
    if n > 0 {
      WritesTargets(job, n - 1);
    }
  }

  lemma SequentialStep(db0: Db, jobs: seq<Job>, n: nat, u: Url)
    requires WellFormedAll(jobs) && n < |jobs|
    ensures At(Sequential(db0, jobs, n + 1), u) ==
            if jobs[n].url == u then CellAll(At(Sequential(db0, jobs, n), u), u, WritesOf(jobs[n]))
            else At(Sequential(db0, jobs, n), u)
    ensures Sequential(db0, jobs, n + 1).order == Sequential(db0, jobs, n).order
  {
    var mid, ws := Sequential(db0, jobs, n), WritesOf(jobs[n]);
    assert WellFormed(jobs[n]);
    WritesTargets(jobs[n], |jobs[n].steps|);
    OrderKept(mid, ws);
    AtApplyAll(mid, ws, u);
    if jobs[n].url != u {
      CellUntouched(At(mid, u), u, ws);
    }
  }

  lemma {:induction false} SequentialUntouched(db0: Db, jobs: seq<Job>, n: nat, u: Url)
    requires WellFormedAll(jobs) && n <= |jobs| && forall i :: 0 <= i < n ==> jobs[i].url != u
    ensures Sequential(db0, jobs, n).order == db0.order
    ensures At(Sequential(db0, jobs, n), u) == At(db0, u)
  {
    hide WellFormed, ApplyAll, At, CellAll, Writes;
    if n > 0 {
      SequentialUntouched(db0, jobs, n - 1, u);
      SequentialStep(db0, jobs, n - 1, u);
    }
  }

  lemma {:induction false} SequentialOwn(db0: Db, jobs: seq<Job>, n: nat, i: nat, u: Url)
    requires WellFormedAll(jobs) && i < n <= |jobs| && jobs[i].url == u
    ensures At(Sequential(db0, jobs, n), u) == CellOf(jobs[i], db0, |jobs[i].steps|)
  {
    hide WellFormed, Sequential, ApplyAll, At, CellAll, Writes;
    SequentialStep(db0, jobs, n - 1, u);
    if i < n - 1 {
      assert jobs[n - 1].url != u;
      SequentialOwn(db0, jobs, n - 1, i, u);
    } else {
      SequentialUntouched(db0, jobs, i, u);
    }
  }

  /** In the sequential run, too, each url sees only the writes of its own job. */
  lemma SequentialCell(db0: Db, jobs: seq<Job>, u: Url)
    requires WellFormedAll(jobs)
    ensures Sequential(db0, jobs, |jobs|).order == db0.order
    ensures forall i :: 0 <= i < |jobs| && jobs[i].url == u ==>
              At(Sequential(db0, jobs, |jobs|), u) == CellOf(jobs[i], db0, |jobs[i].steps|)
    ensures NoJob(jobs, u) ==> At(Sequential(db0, jobs, |jobs|), u) == At(db0, u)
  {
    SequentialOrder(db0, jobs, |jobs|);
    if i :| 0 <= i < |jobs| && jobs[i].url == u {
      SequentialOwn(db0, jobs, |jobs|, i, u);
    } else {
      SequentialUntouched(db0, jobs, |jobs|, u);
    }
  }

  lemma {:induction false} SequentialOrder(db0: Db, jobs: seq<Job>, n: nat)
    requires WellFormedAll(jobs) && n <= |jobs|
    ensures Sequential(db0, jobs, n).order == db0.order
  {
    if n > 0 {
      SequentialOrder(db0, jobs, n - 1);
      SequentialStep(db0, jobs, n - 1, "");
    }
  }

  /** Whatever the schedule, a finished pool leaves the database of the sequential run, has
      collected every job exactly once, and was reached in the same number of moves. */
  lemma ScheduleIndependence(jobs: seq<Job>, db0: Db, width: nat, schedule: seq<nat>)
    requires WellFormedAll(jobs)
    requires var r := Run(jobs, Initial(db0, jobs, width), schedule); r.Some? && Finished(jobs, r.value)
    ensures var p := Run(jobs, Initial(db0, jobs, width), schedule).value;
            && p.db == Sequential(db0, jobs, |jobs|)
            && Distinct(p.collected)
            && (forall i: nat :: i in p.collected <==> i < |jobs|)
    ensures |schedule| == Moves(jobs)
  {
    var p := Run(jobs, Initial(db0, jobs, width), schedule).value;
    RunInv(jobs, db0, width, schedule, |schedule|);
    RunLength(jobs, db0, width, schedule, |schedule|);
    RemainingSign(jobs, p.pcs, |jobs|);
    var s := Sequential(db0, jobs, |jobs|);
    SequentialOrder(db0, jobs, |jobs|);
    forall u ensures At(p.db, u) == At(s, u) {
      SequentialCell(db0, jobs, u);
      if !NoJob(jobs, u) {
        var i :| 0 <= i < |jobs| && jobs[i].url == u;
        assert At(p.db, jobs[i].url) == CellOf(jobs[i], db0, Done(jobs[i], p.pcs[i]));
      }
    }
    SameDb(p.db, s);
  }

  // ---------------------------------------------------------------- counting

  datatype Tally = Tally(positive: nat, negative: nat, failed: nat)

  function Count(vs: seq<Verdict>): Tally {
    if vs == [] then Tally(0, 0, 0) else Plus(Count(vs[..|vs| - 1]), vs[|vs| - 1])
  }

  function Plus(t: Tally, v: Verdict): Tally {
    match v
    case Positive => t.(positive := t.positive + 1)
    case Negative => t.(negative := t.negative + 1)
    case Failed(_) => t.(failed := t.failed + 1)
  }

  /** The error messages, in the order of the verdicts. */
  function ErrorsOf(vs: seq<Verdict>): seq<Failure> {
    if vs == [] then []
    else if vs[|vs| - 1].Failed? then ErrorsOf(vs[..|vs| - 1]) + [vs[|vs| - 1].error]
    else ErrorsOf(vs[..|vs| - 1])
  }

  /** The counter of each class is the number of verdicts of that class. */
  lemma {:induction false} CountTotals(vs: seq<Verdict>)
    ensures var t := Count(vs);
            t.positive + t.negative + t.failed == |vs| && |ErrorsOf(vs)| == t.failed
  {
    if vs != [] {
      CountTotals(vs[..|vs| - 1]);
    }
  }

  lemma CountAppend(vs: seq<Verdict>, v: Verdict)
    ensures Count(vs + [v]) == Plus(Count(vs), v)
    ensures ErrorsOf(vs + [v]) == if v.Failed? then ErrorsOf(vs) + [v.error] else ErrorsOf(vs)
  {
  }

  /** The counters read off how often each verdict occurs. */
  lemma {:induction false} CountIs(vs: seq<Verdict>)
    ensures var t, m := Count(vs), multiset(vs);
            t.positive == m[Positive] && t.negative == m[Negative] && t.failed == |vs| - t.positive - t.negative
    ensures forall e :: multiset(ErrorsOf(vs))[e] == multiset(vs)[Failed(e)]
  {
    if vs != [] {
      CountIs(vs[..|vs| - 1]);
      assert vs == vs[..|vs| - 1] + [vs[|vs| - 1]];
    }
  }

  function Verdicts(jobs: seq<Job>, picked: seq<nat>): seq<Verdict>
    requires forall i :: i in picked ==> i < |jobs|
  {
    seq(|picked|, k requires 0 <= k < |picked| => assert picked[k] in picked; jobs[picked[k]].verdict)
  }

  function AllVerdicts(jobs: seq<Job>): (vs: seq<Verdict>)
    ensures |vs| == |jobs|
  {
    seq(|jobs|, i requires 0 <= i < |jobs| => jobs[i].verdict)
  }

  predicate IsPositive(v: Verdict) { v.Positive? }
  predicate IsNegative(v: Verdict) { v.Negative? }
  predicate IsFailure(v: Verdict) { v.Failed? }

  /** The urls of the first `n` jobs whose verdict is such. */
  ghost function UrlsWith(jobs: seq<Job>, n: nat, such: Verdict -> bool): set<Url>
    requires n <= |jobs|
  {
    set i | 0 <= i < n && such(jobs[i].verdict) :: jobs[i].url
  }

  lemma UrlsWithNext(jobs: seq<Job>, n: nat, such: Verdict -> bool)
    requires n < |jobs| && forall i, j :: 0 <= i < j < |jobs| ==> jobs[i].url != jobs[j].url
    ensures |UrlsWith(jobs, n + 1, such)| == |UrlsWith(jobs, n, such)| + if such(jobs[n].verdict) then 1 else 0
  {
    assert jobs[n].url !in UrlsWith(jobs, n, such);
    assert UrlsWith(jobs, n + 1, such) ==
           UrlsWith(jobs, n, such) + (if such(jobs[n].verdict) then {jobs[n].url} else {});
  }

  lemma NoUrls(jobs: seq<Job>, such: Verdict -> bool)
    ensures UrlsWith(jobs, 0, such) == {}
  {
  }

  lemma VerdictsNext(jobs: seq<Job>, n: nat)
    requires n < |jobs|
    ensures AllVerdicts(jobs)[..n + 1] == AllVerdicts(jobs)[..n] + [jobs[n].verdict]
  {
  }

  lemma NothingCounted(jobs: seq<Job>)
    ensures Count(AllVerdicts(jobs)[..0]) == Tally(0, 0, 0)
  {
  }

  /** For jobs on different urls each counter is the number of urls with such a verdict. */
  lemma {:induction false} TallyOfUrls(jobs: seq<Job>, n: nat)
    requires n <= |jobs| && forall i, j :: 0 <= i < j < |jobs| ==> jobs[i].url != jobs[j].url
    ensures var t := Count(AllVerdicts(jobs)[..n]);
            && t.positive == |UrlsWith(jobs, n, IsPositive)|
            && t.negative == |UrlsWith(jobs, n, IsNegative)|
            && t.failed == |UrlsWith(jobs, n, IsFailure)|
  {
    hide Count, UrlsWith, AllVerdicts;
    if n == 0 {
      NothingCounted(jobs);
      NoUrls(jobs, IsPositive);
      NoUrls(jobs, IsNegative);
      NoUrls(jobs, IsFailure);
    } else {
      TallyOfUrls(jobs, n - 1);
      CountAppend(AllVerdicts(jobs)[..n - 1], jobs[n - 1].verdict);
      VerdictsNext(jobs, n - 1);
      UrlsWithNext(jobs, n - 1, IsPositive);
      UrlsWithNext(jobs, n - 1, IsNegative);
      UrlsWithNext(jobs, n - 1, IsFailure);
    }
  }

  /** Counters do not depend on the order in which jobs are collected. */
  lemma CountPermuted(vs: seq<Verdict>, ws: seq<Verdict>)
    requires multiset(vs) == multiset(ws)
    ensures Count(vs) == Count(ws) && multiset(ErrorsOf(vs)) == multiset(ErrorsOf(ws))
  {
    CountIs(vs);
    CountIs(ws);
    assert |vs| == |multiset(vs)| == |multiset(ws)| == |ws|;
    assert multiset(ErrorsOf(vs)) == multiset(ErrorsOf(ws));
  }

  /** The index of the last element of `picked` when `picked` enumerates 0..n. */
  lemma DropLargest(picked: seq<nat>, n: nat) returns (k: nat)
    requires Distinct(picked) && forall i: nat :: i in picked <==> i <= n
    ensures k < |picked| && picked[k] == n
    ensures var rest := picked[..k] + picked[k + 1..];
            Distinct(rest) && forall i: nat :: i in rest <==> i < n
  {
    assert n in picked;
    k :| 0 <= k < |picked| && picked[k] == n;
    var rest := picked[..k] + picked[k + 1..];
    forall i: nat ensures i in rest <==> i < n {
      if i in rest {
        var m :| 0 <= m < |rest| && rest[m] == i;
        assert picked[if m < k then m else m + 1] == i;
        assert i in picked && i != n;
      }
      if i < n {
        assert i in picked;
        var m :| 0 <= m < |picked| && picked[m] == i;
        assert rest[if m < k then m else m - 1] == i;
      }
    }
  }

  lemma VerdictsWithout(jobs: seq<Job>, picked: seq<nat>, k: nat, n: nat, rest: seq<nat>)
    requires n < |jobs| && k < |picked| && picked[k] == n && rest == picked[..k] + picked[k + 1..]
    requires forall i :: i in picked ==> i < |jobs|
    requires forall i :: i in rest ==> i < n
    ensures multiset(Verdicts(jobs, picked)) ==
            multiset(Verdicts(jobs[..n], rest)) + multiset{jobs[n].verdict}
  {
    var vs, less := Verdicts(jobs, picked), Verdicts(jobs[..n], rest);
    forall m | 0 <= m < |rest| ensures less[m] == (vs[..k] + vs[k + 1..])[m] {
      assert rest[m] in rest;
    }
    assert less == vs[..k] + vs[k + 1..];
    assert vs == vs[..k] + [vs[k]] + vs[k + 1..];
  }

  lemma {:induction false} PermutationVerdicts(jobs: seq<Job>, picked: seq<nat>)
    requires Distinct(picked) && forall i: nat :: i in picked <==> i < |jobs|
    ensures multiset(Verdicts(jobs, picked)) == multiset(AllVerdicts(jobs))
  {
    assert picked != [] ==> picked[0] in picked;
    if jobs != [] {
      var n := |jobs| - 1;
      var k := DropLargest(picked, n);
      PermutationVerdicts(jobs[..n], picked[..k] + picked[k + 1..]);
      VerdictsWithout(jobs, picked, k, n, picked[..k] + picked[k + 1..]);
      assert AllVerdicts(jobs) == AllVerdicts(jobs[..n]) + [jobs[n].verdict];
    }
  }

  /** The counters of any finished schedule are those of the sequential run. */
  lemma CountersIndependence(jobs: seq<Job>, picked: seq<nat>)
    requires Distinct(picked) && forall i: nat :: i in picked <==> i < |jobs|
    ensures |picked| == |jobs|
    ensures Count(Verdicts(jobs, picked)) == Count(AllVerdicts(jobs))
    ensures multiset(ErrorsOf(Verdicts(jobs, picked))) == multiset(ErrorsOf(AllVerdicts(jobs)))
  {
    PermutationVerdicts(jobs, picked);
    CountPermuted(Verdicts(jobs, picked), AllVerdicts(jobs));
    assert |multiset(Verdicts(jobs, picked))| == |multiset(AllVerdicts(jobs))|;
  }

  // ---------------------------------------------------------------- the event loop

  lemma {:induction false} RunPrefix(jobs: seq<Job>, p: Pool, schedule: seq<nat>, k: nat, n: nat)
    requires |p.pcs| == |jobs| && k <= n <= |schedule| && RunTo(jobs, p, schedule, n).Some?
    ensures RunTo(jobs, p, schedule, k).Some?
  {
    if k < n {
      RunPrefix(jobs, p, schedule, k, n - 1);
    }
  }

  /** The event loop: it moves the job the schedule names, committing its writes to the shared
      repository, and returns the jobs in the order in which they were collected. */
  method RunPool(repo: Repository, jobs: seq<Job>, width: nat, schedule: seq<nat>)
      returns (collected: seq<nat>)
    requires repo.Ok() && WellFormedAll(jobs)
    requires var r := Run(jobs, Initial(repo.db, jobs, width), schedule); r.Some? && Finished(jobs, r.value)
    modifies repo
    ensures repo.Ok() && old(repo.log) <= repo.log
    ensures repo.db == Sequential(old(repo.db), jobs, |jobs|)
    ensures Distinct(collected) && forall i: nat :: i in collected <==> i < |jobs|
  {
    hide Apply, Sequential, Valid, WellFormedAll, Finished;
    ghost var p0 := Initial(repo.db, jobs, width);
    var pcs: seq<nat> := seq(|jobs|, _ => 0);
    collected := [];
    for k := 0 to |schedule|
      invariant repo.Ok() && old(repo.log) <= repo.log
      invariant RunTo(jobs, p0, schedule, k).Some?
      invariant var p := RunTo(jobs, p0, schedule, k).value;
                p.db == repo.db && p.pcs == pcs && p.collected == collected
    {
      RunPrefix(jobs, p0, schedule, k + 1, |schedule|);
      var i := schedule[k];
      if pcs[i] == |jobs[i].steps| {
        collected := collected + [i];
      } else if jobs[i].steps[pcs[i]].Commit? {
        repo.Commit(jobs[i].steps[pcs[i]].w);
      }
      pcs := pcs[i := pcs[i] + 1];
    }
    ScheduleIndependence(jobs, old(repo.db), width, schedule);
  }

  // ---------------------------------------------------------------- jobs under the semaphore

  lemma {:induction false} WritesPrefix(steps: seq<Micro>, n: nat, m: nat)
    requires n <= m <= |steps|
    ensures Writes(steps, n) <= Writes(steps, m)
  {
    if n < m {
      WritesPrefix(steps, n, m - 1);
    }
  }

  /** A job that enters the semaphore, awaits one call, does `tail` and leaves. */
  function UnderSlot(tail: seq<Micro>): seq<Micro> {
    [Acquire(Slot), Call] + tail + [Release(Slot)]
  }

  predicate Plain(u: Url, m: Micro) {
    m.Call? || (m.Commit? && Target(m.w) == u && !m.w.Insert?)
  }

  lemma {:induction false} WritesExtend(xs: seq<Micro>, ys: seq<Micro>, n: nat)
    requires n <= |xs|
    ensures Writes(xs + ys, n) == Writes(xs, n)
  {
    if n > 0 {
      WritesExtend(xs, ys, n - 1);
    }
  }

  lemma {:induction false} WritesConcat(xs: seq<Micro>, ys: seq<Micro>)
    ensures Writes(xs + ys, |xs + ys|) == Writes(xs, |xs|) + Writes(ys, |ys|)
  {
    if ys == [] {
      assert xs + ys == xs;
    } else {
      var zs := ys[..|ys| - 1];
      WritesConcat(xs, zs);
      assert xs + ys == (xs + zs) + [ys[|ys| - 1]] && ys == zs + [ys[|ys| - 1]];
      WritesExtend(xs + zs, [ys[|ys| - 1]], |xs + zs|);
      WritesExtend(zs, [ys[|ys| - 1]], |zs|);
    }
  }

  lemma WritesNone()
    ensures Writes([], 0) == []
  {
  }

  lemma WritesOne(m: Micro)
    ensures Writes([m], 1) == if m.Commit? then [m.w] else []
  {
  }

  lemma WritesTwo(a: Micro, b: Micro)
    ensures Writes([a, b], 2) ==
            (if a.Commit? then [a.w] else []) + (if b.Commit? then [b.w] else [])
  {
    assert [a] + [b] == [a, b];
    WritesOne(a);
    WritesOne(b);
    WritesConcat([a], [b]);
  }

  lemma SlotJobWrites(tail: seq<Micro>)
    ensures Writes(UnderSlot(tail), |UnderSlot(tail)|) == Writes(tail, |tail|)
  {
    WritesTwo(Acquire(Slot), Call);
    WritesOne(Release(Slot));
    WritesConcat([Acquire(Slot), Call], tail);
    WritesConcat([Acquire(Slot), Call] + tail, [Release(Slot)]);
  }

  /** What is held when `r` is acquired at `a`, released at `b` and not touched elsewhere. */
  lemma {:induction false} HeldSpan(r: Resource, steps: seq<Micro>, a: nat, b: nat, n: nat)
    requires a < b < |steps| && steps[a] == Acquire(r) && steps[b] == Release(r)
    requires forall k :: 0 <= k < |steps| && k != a && k != b ==> Delta(r, steps[k]) == 0
    requires n <= |steps|
    ensures Held(r, steps, n) == if a < n <= b then 1 else 0
  {
    if n > 0 {
      HeldSpan(r, steps, a, b, n - 1);
    }
  }

  lemma {:induction false} HeldNever(r: Resource, steps: seq<Micro>, n: nat)
    requires n <= |steps| && forall k :: 0 <= k < |steps| ==> Delta(r, steps[k]) == 0
    ensures Held(r, steps, n) == 0
  {
    if n > 0 {
      HeldNever(r, steps, n - 1);
    }
  }

  lemma SlotJobWellFormed(job: Job, tail: seq<Micro>)
    requires job.steps == UnderSlot(tail) && forall k :: 0 <= k < |tail| ==> Plain(job.url, tail[k])
    ensures WellFormed(job)
  {
    var n := |job.steps|;
    assert forall k :: 2 <= k < n - 1 ==> job.steps[k] == tail[k - 2];
    forall q, k | 0 <= k <= n
      ensures Held(q, job.steps, k) == if q == Slot && 0 < k <= n - 1 then 1 else 0
    {
      if q == Slot { HeldSpan(Slot, job.steps, 0, n - 1, k); } else { HeldNever(WriteLock, job.steps, k); }
    }
  }

  /** A tail that takes the write lock, does `body` and gives the lock back. */
  function UnderLock(body: seq<Micro>): seq<Micro> {
    [Acquire(WriteLock)] + body + [Release(WriteLock)]
  }

  lemma LockedWrites(body: seq<Micro>)
    ensures Writes(UnderLock(body), |UnderLock(body)|) == Writes(body, |body|)
  {
    WritesOne(Acquire(WriteLock));
    WritesOne(Release(WriteLock));
    WritesConcat([Acquire(WriteLock)], body);
    WritesConcat([Acquire(WriteLock)] + body, [Release(WriteLock)]);
  }

  lemma LockedJobHeld(job: Job, body: seq<Micro>, n: nat)
    requires job.steps == UnderSlot(UnderLock(body)) && n <= |job.steps|
    requires forall k :: 0 <= k < |body| ==> Plain(job.url, body[k])
    ensures Held(Slot, job.steps, n) == if 0 < n <= |job.steps| - 1 then 1 else 0
    ensures Held(WriteLock, job.steps, n) == if 2 < n <= |job.steps| - 2 then 1 else 0
  {
  }

  lemma LockedJobWellFormed(job: Job, body: seq<Micro>)
    requires job.steps == UnderSlot(UnderLock(body))
    requires forall k :: 0 <= k < |body| ==> Plain(job.url, body[k])
    ensures WellFormed(job)
  {
    var m := |job.steps|;
    assert forall k :: 3 <= k < m - 2 ==> job.steps[k] == body[k - 3];
    forall q, n | 0 <= n <= m
      ensures 0 <= Held(q, job.steps, n) <= 1 && (n == m ==> Held(q, job.steps, n) == 0)
    {
      LockedJobHeld(job, body, n);
      match q case Slot => case WriteLock =>
    }
    forall n | 0 <= n < m && job.steps[n].Acquire? ensures n == 0 || (n == 2 && job.steps[n].r == WriteLock) {}
    LockedJobHeld(job, body, 0);
    LockedJobHeld(job, body, 2);
  }
}
