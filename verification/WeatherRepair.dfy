/** Validated replacement of hourly weather (backend/scripts/repair_openmeteo_history.py): the range
    is fetched in chunks of seven days, each validated, and the stored rows of the range are replaced
    in one transaction, unless they changed since they were backed up. */
module WeatherRepair {
  import opened Common

  /** Seconds. */
  type Time = int

  const HOUR := 3600
  const DAY := 86400
  const WEEK := 604800
  const BATCH := 168

  const OPEN_METEO_SOURCE := "Open-Meteo Best Match"

  predicate KnownSource(source: string) {
    source == "ERA5" || source == OPEN_METEO_SOURCE
  }

  datatype Record = Record(time: Time, height: Option<int>, source: string, body: string)

  datatype Key = Key(place: string, time: Time)

  /** The hypertable, keyed by place and time. */
  type Table = map<Key, Record>

  datatype Failure = BadArguments | UnexpectedSource | Fetch | Incomplete | MissingHeights | ChangedMeanwhile

  datatype Outcome = Done(applied: bool) | Failed(why: Failure)

  // ---------------------------------------------------------------- validation

  function Hours(start: Time, end: Time): nat {
    if end <= start then 0 else (end - start) / HOUR
  }

  function HourAt(start: Time, i: nat): Time {
    start + i * HOUR
  }

  function Expected(start: Time, n: nat): set<Time> {
    if n == 0 then {} else Expected(start, n - 1) + {HourAt(start, n - 1)}
  }

  function TimesOf(records: seq<Record>): set<Time> {
    if records == [] then {} else TimesOf(records[..|records| - 1]) + {records[|records| - 1].time}
  }

  /** As many records as hours, and the same set of times; then every height present. */
  predicate Complete(records: seq<Record>, start: Time, end: Time) {
    |records| == |Expected(start, Hours(start, end))| && TimesOf(records) == Expected(start, Hours(start, end))
  }

  predicate Validated(records: seq<Record>, start: Time, end: Time) {
    Complete(records, start, end) && forall r :: r in records ==> r.height.Some?
  }

  method ValidateRecords(records: seq<Record>, start: Time, end: Time) returns (error: Option<Failure>)
    ensures error.None? <==> Validated(records, start, end)
    ensures error == Some(MissingHeights) <==>
            Complete(records, start, end) && exists r :: r in records && r.height.None?
    ensures error.Some? ==> error.value in {Incomplete, MissingHeights}
  {
    if |records| != |Expected(start, Hours(start, end))| || TimesOf(records) != Expected(start, Hours(start, end)) {
      return Some(Incomplete);
    }
    if exists r :: r in records && r.height.None? {
      return Some(MissingHeights);
    }
    return None;
  }

  /** A whole hour of [start, end). */
  predicate IsHour(start: Time, end: Time, t: Time) {
    start <= t < end && (t - start) % HOUR == 0
  }

  lemma {:induction false} ExpectedHas(start: Time, n: nat, t: Time)
    ensures t in Expected(start, n) <==> IsHour(start, HourAt(start, n), t)
  {
    if n > 0 {
      ExpectedHas(start, n - 1, t);
    }
  }

  lemma {:induction false} ExpectedSize(start: Time, n: nat)
    ensures |Expected(start, n)| == n
  {
    if n > 0 {
      ExpectedSize(start, n - 1);
      ExpectedHas(start, n - 1, HourAt(start, n - 1));
    }
  }

  lemma {:induction false} TimesSize(records: seq<Record>)
    ensures |TimesOf(records)| <= |records|
    ensures forall r :: r in records ==> r.time in TimesOf(records)
    ensures forall t :: t in TimesOf(records) ==> exists r :: r in records && r.time == t
  {
    if records != [] {
      var before, last := records[..|records| - 1], records[|records| - 1];
      TimesSize(before);
      assert records == before + [last];
      forall t | t in TimesOf(records) ensures exists r :: r in records && r.time == t {
        if t == last.time { assert last in records; } else { assert exists r :: r in before && r.time == t; }
      }
    }
  }

  ghost predicate DistinctTimes(records: seq<Record>) {
    forall i, j :: 0 <= i < j < |records| ==> records[i].time != records[j].time
  }

  /** As many times as records means that no time occurs twice. */
  lemma {:induction false} FullMeansDistinct(records: seq<Record>)
    requires |TimesOf(records)| == |records|
    ensures DistinctTimes(records)
  {
    if records != [] {
      var before, last := records[..|records| - 1], records[|records| - 1];
      TimesSize(before);
      FullMeansDistinct(before);
      assert last.time !in TimesOf(before);
      forall i | 0 <= i < |before| ensures records[i].time != last.time { assert before[i] in before; }
    }
  }

  ghost predicate HasTime(records: seq<Record>, t: Time) {
    exists r :: r in records && r.time == t
  }

  /** Validated records: every hour of the range exactly once, and nothing else. */
  lemma EachHourOnce(records: seq<Record>, start: Time, end: Time)
    requires Validated(records, start, end) && start <= end && (end - start) % HOUR == 0
    ensures |records| == (end - start) / HOUR && DistinctTimes(records)
    ensures forall t :: HasTime(records, t) <==> IsHour(start, end, t)
  {
    var n := Hours(start, end);
    assert HourAt(start, n) == end;
    ExpectedSize(start, n);
    FullMeansDistinct(records);
    TimesSize(records);
    forall t ensures HasTime(records, t) <==> IsHour(start, end, t) {
      ExpectedHas(start, n, t);
    }
  }

  // ---------------------------------------------------------------- chunks

  lemma {:induction false} TimesConcat(xs: seq<Record>, ys: seq<Record>)
    ensures TimesOf(xs + ys) == TimesOf(xs) + TimesOf(ys)
  {
    if ys == [] {
      assert xs + ys == xs;
    } else {
      TimesConcat(xs, ys[..|ys| - 1]);
      assert (xs + ys)[..|xs + ys| - 1] == xs + ys[..|ys| - 1];
    }
  }

  lemma {:induction false} ExpectedConcat(start: Time, m: nat, n: nat)
    ensures Expected(start, m + n) == Expected(start, m) + Expected(HourAt(start, m), n)
  {
    if n > 0 {
      ExpectedConcat(start, m, n - 1);
      assert HourAt(start, m + n - 1) == HourAt(HourAt(start, m), n - 1);
    }
  }

  /** Two validated stretches that meet at a whole hour are validated together: the final validation
      of the whole range cannot fail. */
  lemma ValidatedTogether(xs: seq<Record>, a: Time, b: Time, ys: seq<Record>, c: Time)
    requires a <= b <= c && (b - a) % HOUR == 0
    requires Validated(xs, a, b) && Validated(ys, b, c)
    ensures Validated(xs + ys, a, c)
  {
    var m, n := Hours(a, b), Hours(b, c);
    hide Expected, TimesOf;
    assert b == HourAt(a, m);
    assert Hours(a, c) == m + n;
    TimesConcat(xs, ys);
    ExpectedConcat(a, m, n);
    ExpectedSize(a, m);
    ExpectedSize(b, n);
    ExpectedSize(a, m + n);
  }

  /** Where the k-th chunk starts. */
  function ChunkStart(start: Time, end: Time, k: nat): (t: Time)
    requires start <= end
    ensures start <= t <= end && ((t - start) % DAY == 0 || t == end)
  {
    if k == 0 then start else Min(ChunkStart(start, end, k - 1) + WEEK, end)
  }

  /** The k-th chunk starts k weeks after the start, as long as that is before the end. */
  lemma {:induction false} ChunkStartIs(start: Time, end: Time, k: nat)
    requires start <= end
    ensures ChunkStart(start, end, k) == Min(start + 604800 * k, end)
  {
    if k > 0 {
      ChunkStartIs(start, end, k - 1);
    }
  }

  lemma {:induction false} ChunksAscend(start: Time, end: Time, j: nat, k: nat)
    requires start <= end && j <= k
    ensures ChunkStart(start, end, j) <= ChunkStart(start, end, k)
  {
    if j < k {
      ChunksAscend(start, end, j, k - 1);
    }
  }

  /** The chunk that holds `t`, looked for among the first `k`. */
  lemma {:induction false} ChunkOf(start: Time, end: Time, k: nat, t: Time) returns (j: nat)
    requires start <= t < end && t < ChunkStart(start, end, k)
    ensures j < k && ChunkStart(start, end, j) <= t < ChunkStart(start, end, j + 1)
  {
    if t >= ChunkStart(start, end, k - 1) {
      j := k - 1;
    } else {
      j := ChunkOf(start, end, k - 1, t);
    }
  }

  /** The chunks tile the range: every instant lies in exactly one, and none is longer than a week. */
  lemma ChunksTile(start: Time, end: Time, i: nat, j: nat, t: Time)
    requires start <= end
    requires ChunkStart(start, end, i) <= t < ChunkStart(start, end, i + 1)
    requires ChunkStart(start, end, j) <= t < ChunkStart(start, end, j + 1)
    ensures i == j && ChunkStart(start, end, i + 1) - ChunkStart(start, end, i) <= WEEK
  {
    if i < j { ChunksAscend(start, end, i + 1, j); }
    if j < i { ChunksAscend(start, end, j + 1, i); }
  }

  // ---------------------------------------------------------------- the repair

  /** The answers of the weather service, chunk after chunk. */
  function AnswerTo(answers: seq<Answer<seq<Record>>>, k: nat): Answer<seq<Record>> {
    if k < |answers| then answers[k] else Raises(StoreFault)
  }

  /** Every chunk of the range is answered and validated. */
  predicate AllValid(answers: seq<Answer<seq<Record>>>, start: Time, end: Time, k: nat)
    requires start <= end
    decreases end - ChunkStart(start, end, k)
  {
    ChunkStart(start, end, k) == end ||
    (AnswerTo(answers, k).Returns?
     && Validated(AnswerTo(answers, k).value, ChunkStart(start, end, k), ChunkStart(start, end, k + 1))
     && AllValid(answers, start, end, k + 1))
  }

  function Fetched(answers: seq<Answer<seq<Record>>>, k: nat): seq<Record> {
    if k == 0 then []
    else Fetched(answers, k - 1) + if AnswerTo(answers, k - 1).Returns? then AnswerTo(answers, k - 1).value else []
  }

  /** The number of chunks, counted from the k-th on. */
  function ChunkCount(start: Time, end: Time, k: nat): (n: nat)
    requires start <= end
    ensures k <= n && ChunkStart(start, end, n) == end
    decreases end - ChunkStart(start, end, k)
  {
    if ChunkStart(start, end, k) == end then k else ChunkCount(start, end, k + 1)
  }

  lemma WholeHours(start: Time, end: Time, k: nat)
    requires start <= end && (end - start) % DAY == 0
    ensures (ChunkStart(start, end, k) - start) % HOUR == 0
  {
  }

  lemma NothingValidated(start: Time)
    ensures Validated([], start, start)
  {
  }

  /** The chunk loop: the records it collects pass the final validation, whatever the chunks were. */
  method FetchRange(answers: seq<Answer<seq<Record>>>, start: Time, end: Time) returns (r: Answer<seq<Record>>,
                    why: Option<Failure>)
    requires start < end && (end - start) % DAY == 0
    ensures r.Returns? <==> AllValid(answers, start, end, 0)
    ensures r.Returns? ==> Validated(r.value, start, end) && r.value == Fetched(answers, ChunkCount(start, end, 0))
    ensures r.Raises? <==> why.Some?
    ensures why.Some? ==> why.value in {Fetch, Incomplete, MissingHeights}
  {
    hide Validated;
    var records: seq<Record> := [];
    var cursor, k := start, 0;
    NothingValidated(start);
    while cursor < end
      invariant cursor == ChunkStart(start, end, k)
      invariant records == Fetched(answers, k) && Validated(records, start, cursor)
      invariant AllValid(answers, start, end, k) == AllValid(answers, start, end, 0)
      invariant ChunkCount(start, end, k) == ChunkCount(start, end, 0)
      decreases end - cursor
    {
      var chunkEnd := Min(cursor + WEEK, end);
      var answer := AnswerTo(answers, k);
      if answer.Raises? {
        return Raises(answer.error), Some(Fetch);
      }
      var error := ValidateRecords(answer.value, cursor, chunkEnd);
      if error.Some? {
        return Raises(StoreFault), error;
      }
      WholeHours(start, end, k);
      ValidatedTogether(records, start, cursor, answer.value, chunkEnd);
      records := records + answer.value;
      cursor, k := chunkEnd, k + 1;
    }
    return Returns(records), None;
  }

  predicate InWindow(key: Key, place: string, start: Time, end: Time, shift: nat) {
    key.place == place && start - shift * HOUR <= key.time < end
  }

  function Window(t: Table, place: string, start: Time, end: Time, shift: nat): (rows: Table)
    ensures rows.Keys <= t.Keys
  {
    map k | k in t && InWindow(k, place, start, end, shift) :: t[k]
  }

  /** The window of a place: from `shift` hours before the start, up to the end. */
  lemma WindowIs(t: Table, place: string, start: Time, end: Time, shift: nat, k: Key)
    ensures var rows := Window(t, place, start, end, shift);
            && (k in rows <==> k in t && k.place == place && start - 3600 * shift <= k.time && k.time < end)
            && (k in rows ==> rows[k] == t[k])
  {
  }

  predicate ChunkValid(answers: seq<Answer<seq<Record>>>, start: Time, end: Time, k: nat)
    requires start <= end
  {
    AnswerTo(answers, k).Returns?
    && Validated(AnswerTo(answers, k).value, ChunkStart(start, end, k), ChunkStart(start, end, k + 1))
  }

  /** Every chunk is answered by complete records with heights. */
  lemma {:induction false} AllValidIs(answers: seq<Answer<seq<Record>>>, start: Time, end: Time, k: nat)
    requires start <= end
    ensures AllValid(answers, start, end, k) <==>
            forall j :: k <= j < ChunkCount(start, end, k) ==> ChunkValid(answers, start, end, j)
    decreases end - ChunkStart(start, end, k)
  {
    hide Validated;
    if ChunkStart(start, end, k) != end {
      AllValidIs(answers, start, end, k + 1);
      assert k < ChunkCount(start, end, k) == ChunkCount(start, end, k + 1);
      assert AllValid(answers, start, end, k) <==>
             ChunkValid(answers, start, end, k) && AllValid(answers, start, end, k + 1);
    }
  }

  function Rows(place: string, records: seq<Record>): Table {
    if records == [] then map[]
    else Rows(place, records[..|records| - 1])[Key(place, records[|records| - 1].time) := records[|records| - 1]]
  }

  lemma {:induction false} RowsHave(place: string, records: seq<Record>)
    ensures forall key :: key in Rows(place, records) <==> key.place == place && HasTime(records, key.time)
    ensures var rows := Rows(place, records);
            forall key :: key in rows ==> rows[key] in records && rows[key].time == key.time
  {
    if records != [] {
      var before, last := records[..|records| - 1], records[|records| - 1];
      RowsHave(place, before);
      assert records == before + [last];
      forall key ensures key in Rows(place, records) <==> key.place == place && HasTime(records, key.time) {
        if HasTime(before, key.time) { var r :| r in before && r.time == key.time; assert r in records; }
        if key.time == last.time { assert last in records; }
        if HasTime(records, key.time) && key.time != last.time {
          var r :| r in records && r.time == key.time;
          assert r in before;
        }
      }
    }
  }

  lemma {:induction false} RowsConcat(place: string, xs: seq<Record>, ys: seq<Record>)
    ensures Rows(place, xs + ys) == Rows(place, xs) + Rows(place, ys)
  {
    if ys == [] {
      assert xs + ys == xs;
    } else {
      var zs, last := ys[..|ys| - 1], ys[|ys| - 1];
      RowsConcat(place, xs, zs);
      assert (xs + ys)[..|xs + ys| - 1] == xs + zs;
    }
  }

  lemma SliceDistinct(records: seq<Record>, lo: nat, hi: nat)
    requires lo <= hi <= |records| && DistinctTimes(records)
    ensures DistinctTimes(records[lo..hi])
    ensures forall t :: HasTime(records[lo..hi], t) ==> HasTime(records, t) && !HasTime(records[..lo], t)
  {
  }

  lemma BatchFits(place: string, records: seq<Record>, lo: nat, hi: nat, base: Table)
    requires lo <= hi <= |records| && DistinctTimes(records)
    requires base.Keys !! Rows(place, records).Keys
    ensures DistinctTimes(records[lo..hi])
    ensures (base + Rows(place, records[..lo])).Keys !! Rows(place, records[lo..hi]).Keys
    ensures base + Rows(place, records[..lo]) + Rows(place, records[lo..hi]) == base + Rows(place, records[..hi])
  {
    hide Rows, DistinctTimes, HasTime;
    var xs, ys := records[..lo], records[lo..hi];
    RowsConcat(place, xs, ys);
    assert records[..hi] == xs + ys;
    RowsHave(place, xs);
    RowsHave(place, ys);
    RowsHave(place, records);
    SliceDistinct(records, lo, hi);
    Joined(base, Rows(place, xs), Rows(place, ys));
  }

  lemma Joined(base: Table, a: Table, b: Table)
    ensures base + a + b == base + (a + b)
  {
  }

  /** The hypertable with its transactions. */
  class WeatherTable {
    var rows: Table

    constructor (initial: Table)
      ensures rows == initial
    {
      rows := initial;
    }

    /** INSERT: it fails when a row with the same place and time exists or is given twice. */
    method Insert(place: string, batch: seq<Record>) returns (ok: bool)
      modifies this
      ensures ok <==> DistinctTimes(batch) && old(rows).Keys !! Rows(place, batch).Keys
      ensures rows == if ok then old(rows) + Rows(place, batch) else old(rows)
    {
      ok := true;
      for i := 0 to |batch|
        invariant ok <==> forall j, k :: 0 <= j < k < i ==> batch[j].time != batch[k].time
      {
        ok := ok && forall j :: 0 <= j < i ==> batch[j].time != batch[i].time;
      }
      ok := ok && forall key :: key in Rows(place, batch) ==> key !in rows;
      if ok {
        rows := rows + Rows(place, batch);
      }
    }

    /** The inserts, in batches of 168 rows. */
    method InsertBatches(place: string, records: seq<Record>) returns (ok: bool)
      requires DistinctTimes(records) && rows.Keys !! Rows(place, records).Keys
      modifies this
      ensures ok && rows == old(rows) + Rows(place, records)
    {
      hide Rows, DistinctTimes;
      var offset := 0;
      ok := true;
      NoRows(place, rows);
      while offset < |records|
        invariant ok && offset <= |records|
        invariant rows == old(rows) + Rows(place, records[..offset])
      {
        var next := Min(offset + BATCH, |records|);
        BatchFits(place, records, offset, next, old(rows));
        ok := Insert(place, records[offset..next]);
        offset := next;
      }
      assert records[..offset] == records;
    }

    /** The whole repair. `staged` is the table at the end of the staging, which others may have
        changed since it was backed up. */
    method Repair(place: string, start: Time, end: Time, shift: int, apply: bool,
                  answers: seq<Answer<seq<Record>>>, staged: Table) returns (outcome: Outcome)
      requires (end - start) % DAY == 0
      modifies this
      ensures outcome.Done? <==>
                && start < end && 0 <= shift <= 14
                && (forall k :: k in Window(old(rows), place, start, end, shift) ==>
                      old(rows)[k].source == "ERA5" || old(rows)[k].source == "Open-Meteo Best Match")
                && AllValid(answers, start, end, 0)
                && (apply ==> Window(staged, place, start, end, shift) == Window(old(rows), place, start, end, shift))
      ensures !(outcome.Done? && outcome.applied) ==> rows == staged
      ensures outcome.Done? ==> outcome.applied == apply
      ensures outcome.Done? && apply ==>
                var records := Fetched(answers, ChunkCount(start, end, 0));
                && Replaced(staged, rows, place, start, end, shift, records)
                && DistinctTimes(records) && forall t :: HasTime(records, t) <==> IsHour(start, end, t)
    {
      hide Replaced, AllValid, Window, Rows, DistinctTimes, HasTime, IsHour, Fetched;
      var before := rows;
      rows := staged;
      if end <= start || !(0 <= shift <= 14) {
        return Failed(BadArguments);
      }
      if exists k :: k in Window(before, place, start, end, shift) && !KnownSource(before[k].source) {
        return Failed(UnexpectedSource);
      }
      var fetched, why := FetchRange(answers, start, end);
      if fetched.Raises? {
        return Failed(why.value);
      }
      var error := ValidateRecords(fetched.value, start, end);
      assert error.None?;
      if apply {
        if Window(rows, place, start, end, shift) != Window(before, place, start, end, shift) {
          return Failed(ChangedMeanwhile);
        }
        EachHourOnce(fetched.value, start, end);
        WindowEmptied(rows, place, start, end, shift, fetched.value);
        rows := rows - Window(rows, place, start, end, shift).Keys;
        var ok := InsertBatches(place, fetched.value);
        ReplacedExactly(staged, rows, place, start, end, shift, fetched.value);
      }
      return Done(apply);
    }
  }

  lemma NoRows(place: string, base: Table)
    ensures base + Rows(place, []) == base
  {
  }

  /** The window holds exactly the records, everything outside it is as before; in particular the rows
      of the legacy hours before the range are gone. */
  ghost predicate Replaced(before: Table, after: Table, place: string, start: Time, end: Time, shift: nat,
                           records: seq<Record>) {
    && (forall key: Key :: key.place == place && start - 3600 * shift <= key.time < end ==>
          (key in after <==> HasTime(records, key.time)) &&
          (key in after ==> after[key] in records && after[key].time == key.time))
    && (forall key: Key :: !(key.place == place && start - 3600 * shift <= key.time < end) ==>
          (key in after <==> key in before) && (key in after ==> after[key] == before[key]))
  }

  lemma WindowEmptied(before: Table, place: string, start: Time, end: Time, shift: nat, records: seq<Record>)
    requires forall t :: HasTime(records, t) <==> IsHour(start, end, t)
    ensures (before - Window(before, place, start, end, shift).Keys).Keys !! Rows(place, records).Keys
  {
    RowsHave(place, records);
  }

  lemma ReplacedExactly(before: Table, after: Table, place: string, start: Time, end: Time, shift: nat,
                        records: seq<Record>)
    requires forall t :: HasTime(records, t) <==> IsHour(start, end, t)
    requires after == before - Window(before, place, start, end, shift).Keys + Rows(place, records)
    ensures Replaced(before, after, place, start, end, shift, records)
  {
    RowsHave(place, records);
  }
}
