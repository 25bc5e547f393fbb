/** The checkpointed backfill (backend/scripts/fetch_surrounding_weather_2026.py): fetched rows and
    finished jobs go to two append-only files. A crash loses lines that were not flushed; the rows
    file may also have leaked some of them, the one-line buffer of the done file never does. */
module Checkpoint {
  import opened Common

  type Job = string

  /** A fetched row; `ts` is the first 16 characters of its time. */
  datatype Row = Row(city: string, ts: string, code: string, body: string)

  /** A line of the rows file: a row, or something that does not parse. */
  datatype Line = Parsed(row: Row) | Garbage

  datatype Key = Key(city: string, ts: string, code: string)

  type Index = map<Key, Row>

  function KeyOf(r: Row): Key {
    Key(r.city, r.ts, r.code)
  }

  predicate Usable(cities: set<string>, r: Row) {
    r.city in cities && r.code != "" && r.ts != ""
  }

  /** The last usable row per city, time and station. */
  function Replay(cities: set<string>, lines: seq<Line>): Index {
    if lines == [] then map[]
    else
      var before, last := Replay(cities, lines[..|lines| - 1]), lines[|lines| - 1];
      if last.Parsed? && Usable(cities, last.row) then before[KeyOf(last.row) := last.row] else before
  }

  /** Line `i` is a row of this city, time and station, of a city that is asked for. */
  ghost predicate Tells(cities: set<string>, lines: seq<Line>, key: Key, i: int) {
    && 0 <= i < |lines| && lines[i].Parsed?
    && lines[i].row.city == key.city && lines[i].row.ts == key.ts && lines[i].row.code == key.code
    && key.city in cities && key.code != "" && key.ts != ""
  }

  /** The index has a row for every key that some line tells of ... */
  lemma {:induction false} ReplayHas(cities: set<string>, lines: seq<Line>, key: Key)
    ensures key in Replay(cities, lines) ==> exists i :: Tells(cities, lines, key, i)
  {
    if key in Replay(cities, lines) {
      var before, n := lines[..|lines| - 1], |lines| - 1;
      if !Tells(cities, lines, key, n) {
        ReplayHas(cities, before, key);
        var i :| Tells(cities, before, key, i);
        assert Tells(cities, lines, key, i);
      }
    }
  }

  /** ... and it is the row of the last such line. */
  lemma {:induction false} ReplayIs(cities: set<string>, lines: seq<Line>, key: Key, i: nat)
    requires Tells(cities, lines, key, i) && forall j :: i < j < |lines| ==> !Tells(cities, lines, key, j)
    ensures key in Replay(cities, lines) && Replay(cities, lines)[key] == lines[i].row
  {
    var before, n := lines[..|lines| - 1], |lines| - 1;
    if i < n {
      forall j | 0 <= j < n ensures Tells(cities, before, key, j) <==> Tells(cities, lines, key, j) {}
      ReplayIs(cities, before, key, i);
      assert !Tells(cities, lines, key, n);
    }
  }

  lemma ReplayNext(cities: set<string>, lines: seq<Line>, line: Line)
    ensures Replay(cities, lines + [line]) ==
            if line.Parsed? && Usable(cities, line.row) then Replay(cities, lines)[KeyOf(line.row) := line.row]
            else Replay(cities, lines)
  {
  }

  /** What is left of the files when the process ends, however it ends. */
  datatype Disk = Disk(rows: seq<Line>, done: seq<Job>)

  /** The lines of a job: its usable rows. */
  function LinesOf(cities: set<string>, rows: seq<Row>): seq<Line> {
    if rows == [] then []
    else if Usable(cities, rows[|rows| - 1]) then LinesOf(cities, rows[..|rows| - 1]) + [Parsed(rows[|rows| - 1])]
    else LinesOf(cities, rows[..|rows| - 1])
  }

  /** The rows of a job that are written: those of the cities that are asked for, with station and time. */
  lemma {:induction false} LinesAre(cities: set<string>, rows: seq<Row>, line: Line)
    ensures line in LinesOf(cities, rows) <==>
            line.Parsed? && line.row in rows && line.row.city in cities && line.row.code != "" && line.row.ts != ""
  {
    if rows != [] {
      LinesAre(cities, rows[..|rows| - 1], line);
    }
  }

  /** Every job that the done file names was fetched, and all its usable rows are in the rows file. */
  ghost predicate Sound(cities: set<string>, fetched: map<Job, seq<Row>>, d: Disk) {
    forall j :: j in d.done ==> j in fetched && forall line :: line in LinesOf(cities, fetched[j]) ==> line in d.rows
  }

  // ---------------------------------------------------------------- file operations

  datatype Op = WriteLine(line: Line) | WriteDone(job: Job) | FlushRows | FlushDone

  /** Both files with their buffers. */
  datatype Files = Files(disk: Disk, rowsBuffer: seq<Line>, doneBuffer: seq<Job>)

  function Do(f: Files, op: Op): Files {
    match op
    case WriteLine(line) => f.(rowsBuffer := f.rowsBuffer + [line])
    case WriteDone(job) => f.(doneBuffer := f.doneBuffer + [job])
    case FlushRows => f.(disk := f.disk.(rows := f.disk.rows + f.rowsBuffer), rowsBuffer := [])
    case FlushDone => f.(disk := f.disk.(done := f.disk.done + f.doneBuffer), doneBuffer := [])
  }

  function DoAll(f: Files, ops: seq<Op>): Files {
    if ops == [] then f else Do(DoAll(f, ops[..|ops| - 1]), ops[|ops| - 1])
  }

  /** What a crash leaves if `leaked` lines of the rows buffer had reached the disk. */
  function Crash(f: Files, leaked: nat): Disk {
    f.disk.(rows := f.disk.rows + f.rowsBuffer[..Min(leaked, |f.rowsBuffer|)])
  }

  function WriteOps(lines: seq<Line>): seq<Op> {
    if lines == [] then [] else WriteOps(lines[..|lines| - 1]) + [WriteLine(lines[|lines| - 1])]
  }

  /** The operations for one finished job, in the order of the loop. */
  function JobOps(cities: set<string>, job: Job, rows: seq<Row>): seq<Op> {
    WriteOps(LinesOf(cities, rows)) + [WriteDone(job), FlushRows, FlushDone]
  }

  function AnswerTo(answers: map<Job, seq<Row>>, job: Job): seq<Row> {
    if job in answers then answers[job] else []
  }

  function RunOps(cities: set<string>, jobs: seq<Job>, answers: map<Job, seq<Row>>, n: nat): seq<Op>
    requires n <= |jobs|
  {
    if n == 0 then []
    else RunOps(cities, jobs, answers, n - 1) + JobOps(cities, jobs[n - 1], AnswerTo(answers, jobs[n - 1]))
  }

  lemma DoNext(f: Files, ops: seq<Op>, op: Op)
    ensures DoAll(f, ops + [op]) == Do(DoAll(f, ops), op)
  {
  }

  lemma DoNothing(f: Files)
    ensures DoAll(f, []) == f
  {
  }

  lemma {:induction false} DoConcat(f: Files, xs: seq<Op>, ys: seq<Op>)
    ensures DoAll(f, xs + ys) == DoAll(DoAll(f, xs), ys)
  {
    if ys == [] {
      assert xs + ys == xs;
    } else {
      DoConcat(f, xs, ys[..|ys| - 1]);
      assert (xs + ys)[..|xs + ys| - 1] == xs + ys[..|ys| - 1];
    }
  }

  lemma {:induction false} WriteOpsPrefix(lines: seq<Line>, k: nat)
    requires k <= |lines|
    ensures |WriteOps(lines)| == |lines| && WriteOps(lines)[..k] == WriteOps(lines[..k])
  {
    if k == |lines| {
      if lines != [] { WriteOpsPrefix(lines[..|lines| - 1], |lines| - 1); }
      assert lines[..k] == lines;
      assert WriteOps(lines)[..k] == WriteOps(lines);
    } else {
      WriteOpsPrefix(lines[..|lines| - 1], k);
      assert lines[..|lines| - 1][..k] == lines[..k];
    }
  }

  lemma {:induction false} DoWrites(f: Files, lines: seq<Line>)
    ensures DoAll(f, WriteOps(lines)) == f.(rowsBuffer := f.rowsBuffer + lines)
  {
    if lines != [] {
      DoWrites(f, lines[..|lines| - 1]);
      DoNext(f, WriteOps(lines[..|lines| - 1]), WriteLine(lines[|lines| - 1]));
      assert f.rowsBuffer + lines[..|lines| - 1] + [lines[|lines| - 1]] == f.rowsBuffer + lines;
    } else {
      assert f.rowsBuffer + lines == f.rowsBuffer;
    }
  }

  predicate Flushed(f: Files) {
    f.rowsBuffer == [] && f.doneBuffer == []
  }

  /** The files after the first `k` operations of a job. */
  function JobFiles(f: Files, lines: seq<Line>, job: Job, k: nat): Files {
    if k <= |lines| then f.(rowsBuffer := lines[..k])
    else if k == |lines| + 1 then f.(rowsBuffer := lines, doneBuffer := [job])
    else if k == |lines| + 2 then Files(f.disk.(rows := f.disk.rows + lines), [], [job])
    else Files(Disk(f.disk.rows + lines, f.disk.done + [job]), [], [])
  }

  lemma TailSteps(f: Files, lines: seq<Line>, job: Job)
    requires Flushed(f)
    ensures Do(JobFiles(f, lines, job, |lines|), WriteDone(job)) == JobFiles(f, lines, job, |lines| + 1)
    ensures Do(JobFiles(f, lines, job, |lines| + 1), FlushRows) == JobFiles(f, lines, job, |lines| + 2)
    ensures Do(JobFiles(f, lines, job, |lines| + 2), FlushDone) == JobFiles(f, lines, job, |lines| + 3)
  {
  }

  lemma {:induction false} JobPrefix(cities: set<string>, f: Files, job: Job, rows: seq<Row>, k: nat)
    requires Flushed(f) && k <= |JobOps(cities, job, rows)|
    ensures |JobOps(cities, job, rows)| == |LinesOf(cities, rows)| + 3
    ensures DoAll(f, JobOps(cities, job, rows)[..k]) == JobFiles(f, LinesOf(cities, rows), job, k)
  {
    hide Do, DoAll, JobFiles;
    var lines, ops := LinesOf(cities, rows), JobOps(cities, job, rows);
    WriteOpsPrefix(lines, |lines|);
    if k <= |lines| {
      WriteOpsPrefix(lines, k);
      assert ops[..k] == WriteOps(lines)[..k];
      WritesFiles(f, lines, job, k);
    } else {
      JobPrefix(cities, f, job, rows, k - 1);
      DoNext(f, ops[..k - 1], ops[k - 1]);
      assert ops[..k] == ops[..k - 1] + [ops[k - 1]];
      TailSteps(f, lines, job);
    }
  }

  lemma WritesFiles(f: Files, lines: seq<Line>, job: Job, k: nat)
    requires Flushed(f) && k <= |lines|
    ensures DoAll(f, WriteOps(lines[..k])) == JobFiles(f, lines, job, k)
  {
    DoWrites(f, lines[..k]);
    assert f.rowsBuffer + lines[..k] == lines[..k];
  }

  // ---------------------------------------------------------------- crashes

  /** What had been fetched when the first `n` jobs were finished. */
  function FetchedAfter(fetched: map<Job, seq<Row>>, jobs: seq<Job>, answers: map<Job, seq<Row>>, n: nat): map<Job,
                        seq<Row>>
    requires n <= |jobs|
  {
    if n == 0 then fetched
    else FetchedAfter(fetched, jobs, answers, n - 1)[jobs[n - 1] := AnswerTo(answers, jobs[n - 1])]
  }

  /** The jobs of a process are those that the done file does not name, each once. */
  ghost predicate Pending(jobs: seq<Job>, d: Disk) {
    Distinct(jobs) && forall j :: j in jobs ==> j !in d.done
  }

  lemma {:induction false} RunFiles(cities: set<string>, f: Files, jobs: seq<Job>, answers: map<Job, seq<Row>>, n: nat)
    requires Flushed(f) && n <= |jobs|
    ensures var g := DoAll(f, RunOps(cities, jobs, answers, n));
            Flushed(g) && g.disk.done == f.disk.done + jobs[..n] && f.disk.rows <= g.disk.rows
  {
    hide Do, JobOps, LinesOf;
    if n == 0 {
      assert f.disk.done + jobs[..0] == f.disk.done;
    } else {
      var rows := AnswerTo(answers, jobs[n - 1]);
      RunFiles(cities, f, jobs, answers, n - 1);
      var g, ops := DoAll(f, RunOps(cities, jobs, answers, n - 1)), JobOps(cities, jobs[n - 1], rows);
      DoConcat(f, RunOps(cities, jobs, answers, n - 1), ops);
      JobPrefix(cities, g, jobs[n - 1], rows, |ops|);
      assert ops[..|ops|] == ops;
      assert jobs[..n] == jobs[..n - 1] + [jobs[n - 1]];
      assert f.disk.done + jobs[..n - 1] + [jobs[n - 1]] == f.disk.done + jobs[..n];
    }
  }

  lemma NotYetDone(jobs: seq<Job>, d: Disk, n: nat)
    requires Pending(jobs, d) && n < |jobs|
    ensures jobs[n] !in d.done + jobs[..n]
  {
  }

  /** The files are sound from one job to the next. */
  lemma {:induction false} RunSound(cities: set<string>, f: Files, fetched: map<Job, seq<Row>>, jobs: seq<Job>,
                                    answers: map<Job, seq<Row>>, n: nat)
    requires Flushed(f) && n <= |jobs| && Pending(jobs, f.disk) && Sound(cities, fetched, f.disk)
    ensures Sound(cities, FetchedAfter(fetched, jobs, answers, n), DoAll(f, RunOps(cities, jobs, answers, n)).disk)
  {
    DoNothing(f);
    hide Sound, JobOps, Pending, LinesOf, DoAll;
    if n > 0 {
      var job, rows := jobs[n - 1], AnswerTo(answers, jobs[n - 1]);
      var ops := JobOps(cities, job, rows);
      RunSound(cities, f, fetched, jobs, answers, n - 1);
      RunFiles(cities, f, jobs, answers, n - 1);
      NotYetDone(jobs, f.disk, n - 1);
      DoConcat(f, RunOps(cities, jobs, answers, n - 1), ops);
      JobSound(cities, DoAll(f, RunOps(cities, jobs, answers, n - 1)),
               FetchedAfter(fetched, jobs, answers, n - 1), job, rows, |ops|, 0);
    }
  }

  /** Within a job, after any of its operations, whatever a crash leaves is sound. */
  lemma JobSound(cities: set<string>, f: Files, fetched: map<Job, seq<Row>>, job: Job, rows: seq<Row>, k: nat,
                 leaked: nat)
    requires Flushed(f) && Sound(cities, fetched, f.disk) && job !in f.disk.done && k <= |JobOps(cities, job, rows)|
    ensures Sound(cities, fetched[job := rows], Crash(DoAll(f, JobOps(cities, job, rows)[..k]), leaked))
    ensures k == |JobOps(cities, job, rows)| ==>
              Sound(cities, fetched[job := rows], DoAll(f, JobOps(cities, job, rows)).disk)
  {
    hide JobOps, DoAll, LinesOf;
    JobPrefix(cities, f, job, rows, k);
    var ops, lines := JobOps(cities, job, rows), LinesOf(cities, rows);
    assert ops[..|ops|] == ops;
    var d := Crash(JobFiles(f, lines, job, k), leaked);
    forall j | j in d.done
      ensures j in fetched[job := rows] &&
              forall line :: line in LinesOf(cities, fetched[job := rows][j]) ==> line in d.rows
    {
      if j in f.disk.done { assert forall line :: line in LinesOf(cities, fetched[j]) ==> line in f.disk.rows; }
    }
    assert k == |ops| ==> Crash(JobFiles(f, lines, job, k), leaked) == JobFiles(f, lines, job, k).disk;
  }

  /** An operation of the run belongs to some job, all jobs before it being complete. */
  lemma {:induction false} RunPrefix(cities: set<string>, jobs: seq<Job>, answers: map<Job, seq<Row>>, n: nat, k: nat)
      returns (i: nat, m: nat)
    requires n <= |jobs| && k < |RunOps(cities, jobs, answers, n)|
    ensures i < n && m <= |JobOps(cities, jobs[i], AnswerTo(answers, jobs[i]))|
    ensures RunOps(cities, jobs, answers, n)[..k] ==
            RunOps(cities, jobs, answers, i) + JobOps(cities, jobs[i], AnswerTo(answers, jobs[i]))[..m]
  {
    hide JobOps;
    var before, ops := RunOps(cities, jobs, answers, n - 1),
                       JobOps(cities, jobs[n - 1], AnswerTo(answers, jobs[n - 1]));
    if k < |before| {
      i, m := RunPrefix(cities, jobs, answers, n - 1, k);
      assert (before + ops)[..k] == before[..k];
    } else {
      i, m := n - 1, k - |before|;
      assert (before + ops)[..k] == before + ops[..m];
    }
  }

  /** Wherever a process is cut off: each job in the done file has all its rows in the rows file. */
  lemma CrashIsSound(cities: set<string>, d: Disk, fetched: map<Job, seq<Row>>, jobs: seq<Job>,
                     answers: map<Job, seq<Row>>, k: nat, leaked: nat) returns (n: nat)
    requires Sound(cities, fetched, d) && Pending(jobs, d) && k <= |RunOps(cities, jobs, answers, |jobs|)|
    ensures n <= |jobs|
    ensures Sound(cities, FetchedAfter(fetched, jobs, answers, n),
                  Crash(DoAll(Files(d, [], []), RunOps(cities, jobs, answers, |jobs|)[..k]), leaked))
  {
    hide RunOps, JobOps, DoAll, LinesOf, Sound;
    var f, all := Files(d, [], []), RunOps(cities, jobs, answers, |jobs|);
    if k == |all| {
      n := |jobs|;
      assert all[..k] == all;
      RunSound(cities, f, fetched, jobs, answers, |jobs|);
      RunFiles(cities, f, jobs, answers, |jobs|);
      var g := DoAll(f, all);
      assert Crash(g, leaked) == g.disk;
    } else {
      var i, m := RunPrefix(cities, jobs, answers, |jobs|, k);
      n := i + 1;
      RunSound(cities, f, fetched, jobs, answers, i);
      RunFiles(cities, f, jobs, answers, i);
      var g := DoAll(f, RunOps(cities, jobs, answers, i));
      DoConcat(f, RunOps(cities, jobs, answers, i), JobOps(cities, jobs[i], AnswerTo(answers, jobs[i]))[..m]);
      assert jobs[i] in jobs && jobs[i] !in jobs[..i];
      JobSound(cities, g, FetchedAfter(fetched, jobs, answers, i), jobs[i], AnswerTo(answers, jobs[i]), m, leaked);
    }
  }

  /** A process: the jobs in the order in which they finish, their answers, after how many operations
      it is cut off, and how much of the rows buffer leaks then. */
  datatype Process = Process(jobs: seq<Job>, answers: map<Job, seq<Row>>, ops: nat, leaked: nat)

  function DiskAfter(cities: set<string>, d: Disk, ps: seq<Process>, n: nat): Disk
    requires n <= |ps|
  {
    if n == 0 then d
    else
      var before := DiskAfter(cities, d, ps, n - 1);
      var all := RunOps(cities, ps[n - 1].jobs, ps[n - 1].answers, |ps[n - 1].jobs|);
      Crash(DoAll(Files(before, [], []), all[..Min(ps[n - 1].ops, |all|)]), ps[n - 1].leaked)
  }

  /** Each process works on jobs that the done file it found does not name. */
  ghost predicate Resumed(cities: set<string>, d: Disk, ps: seq<Process>, n: nat)
    requires n <= |ps|
  {
    forall i :: 0 <= i < n ==> Pending(ps[i].jobs, DiskAfter(cities, d, ps, i))
  }

  /** What is known of a job was known before or answered in one of the first `n` processes. */
  ghost predicate KnownFrom(fetched: map<Job, seq<Row>>, ps: seq<Process>, n: nat, j: Job, rows: seq<Row>)
    requires n <= |ps|
  {
    (j in fetched && rows == fetched[j]) ||
    exists i :: 0 <= i < n && j in ps[i].jobs && rows == AnswerTo(ps[i].answers, j)
  }

  /** Over any number of processes and crashes the files stay sound: a job that counts as done has all
      the rows that were fetched for it in the rows file, from where the next process reads them. */
  lemma {:induction false} SoundForever(cities: set<string>, d: Disk, fetched: map<Job, seq<Row>>, ps: seq<Process>,
                                        n: nat)
      returns (known: map<Job, seq<Row>>)
    requires n <= |ps| && Sound(cities, fetched, d) && Resumed(cities, d, ps, n)
    ensures Sound(cities, known, DiskAfter(cities, d, ps, n))
    ensures forall j :: j in known ==> KnownFrom(fetched, ps, n, j, known[j])
  {
    hide RunOps, DoAll, Sound, Crash;
    if n == 0 {
      known := fetched;
    } else {
      var before := SoundForever(cities, d, fetched, ps, n - 1);
      var p, mid := ps[n - 1], DiskAfter(cities, d, ps, n - 1);
      var all := RunOps(cities, p.jobs, p.answers, |p.jobs|);
      var m := CrashIsSound(cities, mid, before, p.jobs, p.answers, Min(p.ops, |all|), p.leaked);
      known := FetchedAfter(before, p.jobs, p.answers, m);
      forall j | j in known ensures KnownFrom(fetched, ps, n, j, known[j]) {
        FetchedAt(before, p.jobs, p.answers, m, j);
        if j in p.jobs && known[j] == AnswerTo(ps[n - 1].answers, j) { assert j in ps[n - 1].jobs; }
      }
    }
  }

  lemma {:induction false} FetchedAt(fetched: map<Job, seq<Row>>, jobs: seq<Job>, answers: map<Job, seq<Row>>, n: nat,
                                     j: Job)
    requires n <= |jobs| && j in FetchedAfter(fetched, jobs, answers, n)
    ensures var v := FetchedAfter(fetched, jobs, answers, n)[j];
            (j in fetched && v == fetched[j]) || (j in jobs && v == AnswerTo(answers, j))
  {
    if n > 0 && j != jobs[n - 1] {
      FetchedAt(fetched, jobs, answers, n - 1, j);
    }
  }

  // ---------------------------------------------------------------- the process

  class Backfill {
    const cities: set<string>
    var index: Index
    var completed: set<Job>
    var rowsDisk: seq<Line>
    var rowsBuffer: seq<Line>
    var doneDisk: seq<Job>
    var doneBuffer: seq<Job>
    ghost const start: Disk
    ghost var ops: seq<Op>

    /** The files are what the operations so far made of them, the index is the replay of every line
        written, and what was found done is completed. */
    ghost predicate Ok()
      reads this
    {
      && DoAll(Files(start, [], []), ops) == Files(Disk(rowsDisk, doneDisk), rowsBuffer, doneBuffer)
      && index == Replay(cities, rowsDisk + rowsBuffer)
      && forall j :: j in completed <==> j in doneDisk
    }

    /** A process starts from what the last one left, and rebuilds the index from the rows file. */
    constructor (cities: set<string>, d: Disk)
      ensures Ok() && this.cities == cities && start == d && ops == [] && rowsBuffer == [] && doneBuffer == []
      ensures doneDisk == d.done && rowsDisk == d.rows
    {
      this.cities := cities;
      rowsDisk, rowsBuffer, doneDisk, doneBuffer := d.rows, [], d.done, [];
      start, ops := d, [];
      completed := set j | j in d.done;
      index := map[];
      new;
      for n := 0 to |rowsDisk|
        invariant this.cities == cities && rowsDisk == d.rows && doneDisk == d.done
        invariant rowsBuffer == [] && doneBuffer == [] && ops == [] && completed == set j | j in d.done
        invariant index == Replay(cities, rowsDisk[..n])
      {
        assert rowsDisk[..n + 1] == rowsDisk[..n] + [rowsDisk[n]];
        ReplayNext(cities, rowsDisk[..n], rowsDisk[n]);
        match rowsDisk[n] {
          case Garbage =>
          case Parsed(row) =>
            if Usable(cities, row) {
              index := index[KeyOf(row) := row];
            }
        }
      }
      assert rowsDisk + rowsBuffer == rowsDisk[..|rowsDisk|];
    }

    /** One fetched row goes to the index and to the rows file. */
    method WriteRow(row: Row)
      requires Ok()
      modifies this`index, this`rowsBuffer, this`ops
      ensures Ok()
      ensures ops == old(ops) + if Usable(cities, row) then [WriteLine(Parsed(row))] else []
    {
      if Usable(cities, row) {
        ReplayNext(cities, rowsDisk + rowsBuffer, Parsed(row));
        assert rowsDisk + (rowsBuffer + [Parsed(row)]) == rowsDisk + rowsBuffer + [Parsed(row)];
        DoNext(Files(start, [], []), ops, WriteLine(Parsed(row)));
        index := index[KeyOf(row) := row];
        rowsBuffer := rowsBuffer + [Parsed(row)];
        ops := ops + [WriteLine(Parsed(row))];
      }
    }

    /** The job's line, both flushes in this order, and the job is completed. */
    method CloseJob(job: Job)
      requires Ok() && doneBuffer == []
      modifies this`rowsDisk, this`rowsBuffer, this`doneDisk, this`doneBuffer, this`completed, this`ops
      ensures Ok() && rowsBuffer == [] && doneBuffer == []
      ensures ops == old(ops) + [WriteDone(job), FlushRows, FlushDone]
      ensures doneDisk == old(doneDisk) + [job]
    {
      ghost var f := Files(start, [], []);
      DoNext(f, ops, WriteDone(job));
      DoNext(f, ops + [WriteDone(job)], FlushRows);
      DoNext(f, ops + [WriteDone(job)] + [FlushRows], FlushDone);
      assert ops + [WriteDone(job)] + [FlushRows] + [FlushDone] == ops + [WriteDone(job), FlushRows, FlushDone];
      doneBuffer := doneBuffer + [job];
      rowsDisk := rowsDisk + rowsBuffer;
      rowsBuffer := [];
      doneDisk := doneDisk + doneBuffer;
      doneBuffer := [];
      completed := completed + {job};
      ops := ops + [WriteDone(job), FlushRows, FlushDone];
      assert rowsDisk + rowsBuffer == rowsDisk;
    }

    /** A finished future. */
    method FinishJob(job: Job, rows: seq<Row>)
      requires Ok() && doneBuffer == []
      modifies this
      ensures Ok() && rowsBuffer == [] && doneBuffer == []
      ensures ops == old(ops) + JobOps(cities, job, rows)
      ensures doneDisk == old(doneDisk) + [job]
    {
      hide DoAll, Replay, Usable;
      for n := 0 to |rows|
        invariant Ok() && doneBuffer == [] && doneDisk == old(doneDisk)
        invariant ops == old(ops) + WriteOps(LinesOf(cities, rows[..n]))
      {
        assert rows[..n + 1][..n] == rows[..n];
        WriteRow(rows[n]);
        LinesNext(cities, rows[..n], rows[n]);
        assert rows[..n + 1] == rows[..n] + [rows[n]];
      }
      assert rows[..|rows|] == rows;
      CloseJob(job);
    }

    /** The work loop over the jobs that are not done, in the order in which they finish: it performs
        exactly the operations that CrashIsSound is about, and leaves the index that the next process
        will rebuild from the file. */
    method Work(jobs: seq<Job>, answers: map<Job, seq<Row>>)
      requires Ok() && rowsBuffer == [] && doneBuffer == [] && ops == []
      modifies this
      ensures Ok() && ops == RunOps(cities, jobs, answers, |jobs|)
      ensures doneDisk == old(doneDisk) + jobs && index == Replay(cities, rowsDisk)
    {
      hide DoAll, Replay, JobOps;
      for n := 0 to |jobs|
        invariant Ok() && rowsBuffer == [] && doneBuffer == []
        invariant ops == RunOps(cities, jobs, answers, n)
        invariant doneDisk == old(doneDisk) + jobs[..n]
      {
        FinishJob(jobs[n], AnswerTo(answers, jobs[n]));
        assert jobs[..n + 1] == jobs[..n] + [jobs[n]];
      }
      assert jobs[..|jobs|] == jobs;
      assert rowsDisk + rowsBuffer == rowsDisk;
    }
  }

  lemma LinesNext(cities: set<string>, rows: seq<Row>, row: Row)
    ensures WriteOps(LinesOf(cities, rows + [row])) ==
            WriteOps(LinesOf(cities, rows)) + if Usable(cities, row) then [WriteLine(Parsed(row))] else []
  {
  }
}
