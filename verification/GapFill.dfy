/** Gap filling of one city file (backend/scripts/era5_gapfill_weather_2026.py): station-hours absent
    from the file are filled from the archive, the file is rewritten, and a later run loads it again. */
module GapFill {
  import opened Common

  type Code = string
  type Hour = string

  /** A weather row; `coords` is present when both coordinates are non-empty. */
  datatype Row = Row(code: Code, hour: Hour, coords: Option<string>, body: string)

  datatype Line = Parsed(row: Row) | Garbage

  datatype Key = Key(code: Code, hour: Hour)

  function KeyOf(r: Row): Key {
    Key(r.code, r.hour)
  }

  predicate Usable(line: Line) {
    line.Parsed? && line.row.code != "" && line.row.hour != ""
  }

  /** The rows of a file: the last one per station and hour. */
  function RowsOf(lines: seq<Line>): map<Key, Row> {
    if lines == [] then map[]
    else
      var before, last := RowsOf(lines[..|lines| - 1]), lines[|lines| - 1];
      if Usable(last) then before[KeyOf(last.row) := last.row] else before
  }

  /** The stations of a file: the coordinates of the first row that has some. */
  function StationsOf(lines: seq<Line>): map<Code, string> {
    if lines == [] then map[]
    else
      var before, last := StationsOf(lines[..|lines| - 1]), lines[|lines| - 1];
      if Usable(last) && last.row.coords.Some? && last.row.code !in before
      then before[last.row.code := last.row.coords.value] else before
  }

  method LoadCity(lines: seq<Line>) returns (stations: map<Code, string>, rows: map<Key, Row>)
    ensures stations == StationsOf(lines) && rows == RowsOf(lines)
  {
    stations, rows := map[], map[];
    for n := 0 to |lines|
      invariant stations == StationsOf(lines[..n]) && rows == RowsOf(lines[..n])
    {
      assert lines[..n + 1][..n] == lines[..n];
      if !Usable(lines[n]) {
        continue;
      }
      var row := lines[n].row;
      rows := rows[KeyOf(row) := row];
      if row.code !in stations && row.coords.Some? {
        stations := stations[row.code := row.coords.value];
      }
    }
    assert lines[..|lines|] == lines;
  }

  /** The station-hours of the calendar that the file lacks. */
  function Missing(lines: seq<Line>, hours: set<Hour>): set<Key> {
    set c, h | c in StationsOf(lines) && h in hours && Key(c, h) !in RowsOf(lines) :: Key(c, h)
  }

  /** The archive: per station the hours it has values for; a failed request has none. */
  type Archive = map<Code, map<Hour, string>>

  predicate HasValue(archive: Archive, k: Key) {
    k.code in archive && k.hour in archive[k.code]
  }

  function FilledRow(archive: Archive, stations: map<Code, string>, k: Key): Row
    requires HasValue(archive, k) && k.code in stations
  {
    Row(k.code, k.hour, Some(stations[k.code]), archive[k.code][k.hour])
  }

  function Filled(lines: seq<Line>, hours: set<Hour>, archive: Archive): map<Key, Row> {
    map k | k in Missing(lines, hours) && HasValue(archive, k) :: FilledRow(archive, StationsOf(lines), k)
  }

  function StillMissing(lines: seq<Line>, hours: set<Hour>, archive: Archive): set<Key> {
    set k | k in Missing(lines, hours) && !HasValue(archive, k)
  }

  function Merged(lines: seq<Line>, hours: set<Hour>, archive: Archive): map<Key, Row> {
    RowsOf(lines) + Filled(lines, hours, archive)
  }

  /** A file that holds exactly the rows of `rows`, in any order. */
  ghost predicate Holds(written: seq<Line>, rows: map<Key, Row>) {
    && (forall i :: 0 <= i < |written| ==> written[i].Parsed? && KeyOf(written[i].row) in rows
                                           && written[i].row == rows[KeyOf(written[i].row)])
    && (forall i, j :: 0 <= i < j < |written| ==> KeyOf(written[i].row) != KeyOf(written[j].row))
    && (forall k :: k in rows ==> exists i :: 0 <= i < |written| && KeyOf(written[i].row) == k)
  }

  /** The rows that are loaded all have a station code and an hour, and sit under their own key. */
  lemma {:induction false} RowsWellKeyed(lines: seq<Line>)
    ensures forall k :: k in RowsOf(lines) ==> KeyOf(RowsOf(lines)[k]) == k && Usable(Parsed(RowsOf(lines)[k]))
  {
    if lines != [] {
      RowsWellKeyed(lines[..|lines| - 1]);
    }
  }

  lemma {:induction false} StationsWellFormed(lines: seq<Line>)
    ensures "" !in StationsOf(lines)
  {
    if lines != [] {
      StationsWellFormed(lines[..|lines| - 1]);
    }
  }

  lemma MergedWellKeyed(lines: seq<Line>, hours: set<Hour>, archive: Archive)
    requires "" !in hours
    ensures var rows := Merged(lines, hours, archive);
            forall k :: k in rows ==> KeyOf(rows[k]) == k && Usable(Parsed(rows[k]))
  {
    RowsWellKeyed(lines);
    StationsWellFormed(lines);
  }

  /** The coordinates of a station are those of the first usable line that has some. */
  lemma {:induction false} StationsAre(lines: seq<Line>, c: Code, i: nat)
    requires i < |lines| && lines[i].Parsed? && lines[i].row.code == c != "" && lines[i].row.hour != ""
    requires lines[i].row.coords.Some?
    requires forall j :: 0 <= j < i && Usable(lines[j]) && lines[j].row.code == c ==> lines[j].row.coords.None?
    ensures c in StationsOf(lines) && StationsOf(lines)[c] == lines[i].row.coords.value
  {
    var before := lines[..|lines| - 1];
    if i < |before| {
      StationsAre(before, c, i);
    } else {
      StationsHave(before, c);
    }
  }

  /** Which rows are written: the loaded ones, and for a station of the file a row for every hour of the
      calendar that it lacks and for which the archive has a value, at the coordinates of the station. */
  lemma MergedIs(lines: seq<Line>, hours: set<Hour>, archive: Archive, k: Key)
    ensures var rows, merged := RowsOf(lines), Merged(lines, hours, archive);
            && (k in merged <==>
                  k in rows || (k.code in StationsOf(lines) && k.hour in hours
                                && k.code in archive && k.hour in archive[k.code]))
            && (k in merged && k in rows ==> merged[k] == rows[k])
            && (k in merged && k !in rows ==>
                  k.code in StationsOf(lines) && k.code in archive && k.hour in archive[k.code] &&
                  merged[k] == Row(k.code, k.hour, Some(StationsOf(lines)[k.code]), archive[k.code][k.hour]))
  {
    assert Key(k.code, k.hour) == k;
  }

  /** What is loaded stays as it is, only absent station-hours are filled, and every missing one is
      filled or still missing. */
  lemma FillKeepsAndCounts(lines: seq<Line>, hours: set<Hour>, archive: Archive)
    ensures var rows, merged := RowsOf(lines), Merged(lines, hours, archive);
            forall k :: k in rows ==> k in merged && merged[k] == rows[k]
    ensures Filled(lines, hours, archive).Keys !! RowsOf(lines).Keys
    ensures |Filled(lines, hours, archive)| + |StillMissing(lines, hours, archive)| == |Missing(lines, hours)|
  {
    var missing, filled, still := Missing(lines, hours), Filled(lines, hours, archive),
                                  StillMissing(lines, hours, archive);
    assert missing == filled.Keys + still && filled.Keys !! still;
    assert |filled| == |filled.Keys|;
  }

  // ---------------------------------------------------------------- loading the written file

  /** One key of a file that holds a set of rows, after its first `n` lines. */
  lemma {:induction false} ReloadKey(written: seq<Line>, rows: map<Key, Row>, n: nat, k: Key)
    requires Holds(written, rows) && n <= |written| && forall k :: k in rows ==> Usable(Parsed(rows[k]))
    ensures k in RowsOf(written[..n]) ==> k in rows && RowsOf(written[..n])[k] == rows[k]
    ensures forall i :: 0 <= i < n && KeyOf(written[i].row) == k ==> k in RowsOf(written[..n])
  {
    if n > 0 {
      ReloadKey(written, rows, n - 1, k);
      assert written[..n][..n - 1] == written[..n - 1];
      assert written[n - 1].row == rows[KeyOf(written[n - 1].row)] && Usable(written[n - 1]);
    }
  }

  /** Loading a file that holds a set of rows gives that set of rows. */
  lemma ReloadIsMerged(written: seq<Line>, rows: map<Key, Row>)
    requires Holds(written, rows) && forall k :: k in rows ==> Usable(Parsed(rows[k]))
    ensures RowsOf(written) == rows
  {
    hide RowsOf, Usable;
    assert written[..|written|] == written;
    forall k
      ensures k in RowsOf(written) <==> k in rows
      ensures k in RowsOf(written) ==> RowsOf(written)[k] == rows[k]
    {
      ReloadKey(written, rows, |written|, k);
    }
    SameMap(RowsOf(written), rows);
  }

  lemma SameMap<K, V>(a: map<K, V>, b: map<K, V>)
    requires (forall k :: k in a <==> k in b) && forall k :: k in a ==> a[k] == b[k]
    ensures a == b
  {
  }

  ghost predicate Located(rows: map<Key, Row>, c: Code) {
    exists k :: k in rows && k.code == c && rows[k].coords.Some?
  }

  lemma {:induction false} StationsHave(lines: seq<Line>, c: Code)
    ensures c in StationsOf(lines) <==>
            exists i :: 0 <= i < |lines| && Usable(lines[i]) && lines[i].row.code == c && lines[i].row.coords.Some?
  {
    if lines != [] {
      var before := lines[..|lines| - 1];
      StationsHave(before, c);
      assert forall i :: 0 <= i < |before| ==> before[i] == lines[i];
    }
  }

  /** The stations of the written file are those that have a row with coordinates in it. */
  lemma ReloadStations(written: seq<Line>, rows: map<Key, Row>, c: Code)
    requires Holds(written, rows) && forall k :: k in rows ==> KeyOf(rows[k]) == k && Usable(Parsed(rows[k]))
    ensures c in StationsOf(written) <==> Located(rows, c)
  {
    StationsHave(written, c);
    if Located(rows, c) {
      var k :| k in rows && k.code == c && rows[k].coords.Some?;
      var i :| 0 <= i < |written| && KeyOf(written[i].row) == k;
      assert Usable(written[i]) && written[i].row == rows[k];
    }
  }

  /** Every station that still misses an hour has a loaded row with coordinates, or the archive has a
      value for another hour that it misses. */
  ghost predicate StationsSurvive(lines: seq<Line>, hours: set<Hour>, archive: Archive) {
    forall k :: k in StillMissing(lines, hours, archive) ==>
      Located(RowsOf(lines), k.code) || ArchiveLocates(lines, hours, archive, k.code)
  }

  ghost predicate ArchiveLocates(lines: seq<Line>, hours: set<Hour>, archive: Archive, c: Code) {
    exists k: Key :: k.code == c && k.hour in hours && k !in RowsOf(lines) && HasValue(archive, k)
  }

  /** The rows that are written hold coordinates of a station exactly for one of those two reasons. */
  lemma LocatedExactly(lines: seq<Line>, hours: set<Hour>, archive: Archive, c: Code)
    requires c in StationsOf(lines)
    ensures Located(Merged(lines, hours, archive), c) <==>
            Located(RowsOf(lines), c) || ArchiveLocates(lines, hours, archive, c)
  {
    hide RowsOf, StationsOf, HasValue;
    var rows, filled, merged := RowsOf(lines), Filled(lines, hours, archive), Merged(lines, hours, archive);
    forall k: Key | k.code == c
      ensures k in filled <==> k.hour in hours && k !in rows && HasValue(archive, k)
    {
      assert Key(k.code, k.hour) == k;
    }
    assert forall k :: k in filled ==> merged[k] == filled[k] && filled[k].coords.Some?;
    assert forall k :: k in rows ==> merged[k] == rows[k];
  }

  /** A station of the merged rows was a station before. */
  lemma LocatedIsStation(lines: seq<Line>, hours: set<Hour>, archive: Archive, c: Code)
    requires Located(Merged(lines, hours, archive), c)
    ensures c in StationsOf(lines)
  {
    var k :| k in Merged(lines, hours, archive) && k.code == c && Merged(lines, hours, archive)[k].coords.Some?;
    if k !in Filled(lines, hours, archive) {
      LoadedFrom(lines, k);
      RowsWellKeyed(lines);
      StationsHave(lines, c);
    }
  }

  lemma {:induction false} LoadedFrom(lines: seq<Line>, k: Key)
    requires k in RowsOf(lines)
    ensures exists i :: 0 <= i < |lines| && Usable(lines[i]) && lines[i].row == RowsOf(lines)[k]
  {
    var before, last := lines[..|lines| - 1], lines[|lines| - 1];
    if !(Usable(last) && KeyOf(last.row) == k) {
      LoadedFrom(before, k);
      var i :| 0 <= i < |before| && Usable(before[i]) && before[i].row == RowsOf(before)[k];
      assert lines[i] == before[i];
    }
  }

  /** The next run misses exactly what this one could not fill, if and only if every station with such
      an hour survives; it never misses more. */
  lemma NextMissingExactly(lines: seq<Line>, hours: set<Hour>, archive: Archive, written: seq<Line>)
    requires "" !in hours && Holds(written, Merged(lines, hours, archive))
    ensures Missing(written, hours) <= StillMissing(lines, hours, archive)
    ensures Missing(written, hours) == StillMissing(lines, hours, archive) <==> StationsSurvive(lines, hours, archive)
  {
    var rows, still := Merged(lines, hours, archive), StillMissing(lines, hours, archive);
    MergedWellKeyed(lines, hours, archive);
    ReloadIsMerged(written, rows);
    forall k ensures k in Missing(written, hours) <==> k in still && Located(rows, k.code) {
      ReloadStations(written, rows, k.code);
      if Located(rows, k.code) { LocatedIsStation(lines, hours, archive, k.code); }
    }
    forall k | k in still ensures Located(rows, k.code) <==>
        Located(RowsOf(lines), k.code) || ArchiveLocates(lines, hours, archive, k.code)
    {
      LocatedExactly(lines, hours, archive, k.code);
    }
  }

  /** No two usable lines of the file are about the same station and hour. */
  ghost predicate NoDuplicates(lines: seq<Line>) {
    forall i, j :: 0 <= i < j < |lines| && Usable(lines[i]) && Usable(lines[j]) ==>
      KeyOf(lines[i].row) != KeyOf(lines[j].row)
  }

  lemma {:induction false} NothingOverwritten(lines: seq<Line>, i: nat)
    requires NoDuplicates(lines) && i < |lines| && Usable(lines[i])
    ensures KeyOf(lines[i].row) in RowsOf(lines) && RowsOf(lines)[KeyOf(lines[i].row)] == lines[i].row
  {
    var before, last := lines[..|lines| - 1], lines[|lines| - 1];
    if i < |before| {
      assert forall j :: 0 <= j < |before| ==> before[j] == lines[j];
      NothingOverwritten(before, i);
    }
  }

  /** Without duplicate rows in the file the next run misses exactly what is still missing. */
  lemma CleanFileRoundTrip(lines: seq<Line>, hours: set<Hour>, archive: Archive, written: seq<Line>)
    requires "" !in hours && Holds(written, Merged(lines, hours, archive)) && NoDuplicates(lines)
    ensures Missing(written, hours) == StillMissing(lines, hours, archive)
  {
    forall k | k in StillMissing(lines, hours, archive) ensures Located(RowsOf(lines), k.code) {
      StationsHave(lines, k.code);
      var i :| 0 <= i < |lines| && Usable(lines[i]) && lines[i].row.code == k.code && lines[i].row.coords.Some?;
      NothingOverwritten(lines, i);
    }
    NextMissingExactly(lines, hours, archive, written);
  }

  /** A duplicate row without coordinates can make a station, and its gaps, disappear. */
  lemma StationLost(c: Code, h: Hour, g: Hour, coords: string, archive: Archive)
    requires c != "" && h != "" && g != "" && h != g && c !in archive
    ensures var lines := [Parsed(Row(c, h, Some(coords), "")), Parsed(Row(c, h, None, ""))];
            StillMissing(lines, {h, g}, archive) == {Key(c, g)} && !StationsSurvive(lines, {h, g}, archive)
  {
    var first, second := Parsed(Row(c, h, Some(coords), "")), Parsed(Row(c, h, None, ""));
    var lines := [first, second];
    assert lines[..1] == [first] && [first][..0] == [];
    assert RowsOf([first]) == map[Key(c, h) := first.row] && StationsOf([first]) == map[c := coords];
    assert RowsOf(lines) == map[Key(c, h) := second.row] && StationsOf(lines) == map[c := coords];
    assert Missing(lines, {h, g}) == {Key(c, g)};
    assert Filled(lines, {h, g}, archive) == map[];
    assert !Located(RowsOf(lines), c);
    assert Key(c, g) in StillMissing(lines, {h, g}, archive);
  }

  // ---------------------------------------------------------------- the run

  /** The rows in some order, one line each; the source sorts them by time and station. */
  method WriteRows(rows: map<Key, Row>) returns (written: seq<Line>)
    requires forall k :: k in rows ==> KeyOf(rows[k]) == k
    ensures Holds(written, rows)
  {
    written := [];
    var rest := rows.Keys;
    while exists k :: k in rest
      invariant rest <= rows.Keys
      invariant forall i :: 0 <= i < |written| ==>
                  written[i].Parsed? && KeyOf(written[i].row) in rows && written[i].row == rows[KeyOf(written[i].row)]
      invariant forall i :: 0 <= i < |written| ==> KeyOf(written[i].row) !in rest
      invariant forall i, j :: 0 <= i < j < |written| ==> KeyOf(written[i].row) != KeyOf(written[j].row)
      invariant forall k :: k in rows && k !in rest ==> exists i :: 0 <= i < |written| && KeyOf(written[i].row) == k
      decreases |rest|
    {
      var k :| k in rest;
      ghost var before := written;
      written := written + [Parsed(rows[k])];
      rest := rest - {k};
      assert forall i :: 0 <= i < |before| ==> written[i] == before[i];
      assert written[|before|].row == rows[k];
    }
  }

  method FillMissing(missing: set<Key>, stations: map<Code, string>, archive: Archive)
      returns (filled: map<Key, Row>, stillMissing: nat)
    requires forall k :: k in missing ==> k.code in stations
    ensures filled == map k | k in missing && HasValue(archive, k) :: FilledRow(archive, stations, k)
    ensures stillMissing == |set k | k in missing && !HasValue(archive, k)|
  {
    hide HasValue;
    filled, stillMissing := map[], 0;
    var rest := missing;
    ghost var absent: set<Key> := {};
    while exists k :: k in rest
      invariant rest <= missing && stillMissing == |absent|
      invariant forall k :: k in absent <==> k in missing && k !in rest && !HasValue(archive, k)
      invariant forall k :: k in filled <==> k in missing && k !in rest && HasValue(archive, k)
      invariant forall k :: k in filled ==> filled[k] == FilledRow(archive, stations, k)
      decreases |rest|
    {
      var k :| k in rest;
      rest := rest - {k};
      if HasValue(archive, k) {
        filled := filled[k := FilledRow(archive, stations, k)];
      } else {
        stillMissing := stillMissing + 1;
        absent := absent + {k};
      }
    }
    SameMap(filled, map k | k in missing && HasValue(archive, k) :: FilledRow(archive, stations, k));
    assert absent == set k | k in missing && !HasValue(archive, k);
  }

  /** One city: nothing is written when there is no station or nothing is missing; otherwise the file is
      replaced, and the two counters account for every missing station-hour. */
  method FillCity(lines: seq<Line>, hours: set<Hour>, archive: Archive)
      returns (written: Option<seq<Line>>, filledCount: nat, stillMissing: nat)
    requires "" !in hours
    ensures written.Some? <==> Missing(lines, hours) != {}
    ensures written.Some? ==> Holds(written.value, Merged(lines, hours, archive))
    ensures filledCount == |Filled(lines, hours, archive)| && stillMissing == |StillMissing(lines, hours, archive)|
    ensures filledCount + stillMissing == |Missing(lines, hours)|
  {
    FillKeepsAndCounts(lines, hours, archive);
    MergedWellKeyed(lines, hours, archive);
    hide HasValue, RowsOf, StationsOf, FilledRow, Holds;
    var stations, existing := LoadCity(lines);
    var missing := set c, h | c in stations && h in hours && Key(c, h) !in existing :: Key(c, h);
    assert missing == Missing(lines, hours);
    var filled;
    filled, stillMissing := FillMissing(missing, stations, archive);
    filledCount := |filled|;
    if stations == map[] || missing == {} {
      return None, filledCount, stillMissing;
    }
    var file := WriteRows(existing + filled);
    return Some(file), filledCount, stillMissing;
  }
}
