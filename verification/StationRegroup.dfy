/** The station update (backend/scripts/update_station_geo_info_v2.py): stations are regrouped by
    city, and fields that are missing are filled from the database by station name. */
module StationRegroup {
  import opened Common

  /** A JSON field: missing in one of its forms (null, empty, zero), or a value. */
  datatype Field = Blank(form: string) | Value(value: string)

  /** `city` numbers the stripped city names in the order in which they sort; `name` is stripped. */
  datatype Station = Station(city: int, name: string, lon: Field, lat: Field, addr: Field, rest: string)

  /** A database row; a value that the update ignores is None. */
  datatype Source = Source(lon: Option<string>, lat: Option<string>, addr: Option<string>)

  type Database = map<string, Source>

  // ---------------------------------------------------------------- one station

  function Fill(f: Field, v: Option<string>): Field {
    if f.Blank? && v.Some? then Value(v.value) else f
  }

  function Updated(db: Database, s: Station): Station {
    if s.name !in db then s
    else s.(lon := Fill(s.lon, db[s.name].lon), lat := Fill(s.lat, db[s.name].lat),
                addr := Fill(s.addr, db[s.name].addr))
  }

  /** Only missing fields change, and what is filled is the database's value. */
  lemma OnlyMissingFields(db: Database, s: Station)
    ensures var t := Updated(db, s);
            && t.city == s.city && t.name == s.name && t.rest == s.rest
            && (t.lon != s.lon ==> s.lon.Blank? && t.lon.Value? && s.name in db && db[s.name].lon == Some(t.lon.value))
            && (t.lat != s.lat ==> s.lat.Blank? && t.lat.Value? && s.name in db && db[s.name].lat == Some(t.lat.value))
            && (t.addr != s.addr ==>
                s.addr.Blank? && t.addr.Value? && s.name in db && db[s.name].addr == Some(t.addr.value))
    ensures s.name in db ==>
              var t, r := Updated(db, s), db[s.name];
              && (s.lon.Blank? && r.lon.Some? ==> t.lon == Value(r.lon.value))
              && (s.lat.Blank? && r.lat.Some? ==> t.lat == Value(r.lat.value))
              && (s.addr.Blank? && r.addr.Some? ==> t.addr == Value(r.addr.value))
    ensures Updated(db, Updated(db, s)) == Updated(db, s)
  {
  }

  function UpdatedAll(db: Database, xs: seq<Station>): seq<Station> {
    seq(|xs|, i requires 0 <= i < |xs| => Updated(db, xs[i]))
  }

  // ---------------------------------------------------------------- grouping

  /** The stations of one city, in the order of the list. */
  function Of(xs: seq<Station>, c: int): seq<Station> {
    if xs == [] then []
    else if xs[|xs| - 1].city == c then Of(xs[..|xs| - 1], c) + [xs[|xs| - 1]]
    else Of(xs[..|xs| - 1], c)
  }

  ghost predicate Ascending(cs: seq<int>) {
    forall i, j :: 0 <= i < j < |cs| ==> cs[i] < cs[j]
  }

  function CitiesOf(xs: seq<Station>): set<int> {
    if xs == [] then {} else CitiesOf(xs[..|xs| - 1]) + {xs[|xs| - 1].city}
  }

  ghost predicate Sorts(cs: seq<int>, cities: set<int>) {
    Ascending(cs) && forall c :: c in cs <==> c in cities
  }

  /** The groups of the first `n` cities, one after another. */
  function Groups(xs: seq<Station>, cs: seq<int>, n: nat): seq<Station>
    requires n <= |cs|
  {
    if n == 0 then [] else Groups(xs, cs, n - 1) + Of(xs, cs[n - 1])
  }

  ghost predicate SortedByCity(ys: seq<Station>) {
    forall i, j :: 0 <= i < j < |ys| ==> ys[i].city <= ys[j].city
  }

  /** `ys` is the stable regrouping of `xs` by city. */
  ghost predicate Regrouped(xs: seq<Station>, ys: seq<Station>) {
    && SortedByCity(ys)
    && (forall c :: Of(ys, c) == Of(xs, c))
  }

  lemma OfNext(xs: seq<Station>, x: Station, c: int)
    ensures Of(xs + [x], c) == if x.city == c then Of(xs, c) + [x] else Of(xs, c)
  {
  }

  lemma {:induction false} OfConcat(xs: seq<Station>, ys: seq<Station>, c: int)
    ensures Of(xs + ys, c) == Of(xs, c) + Of(ys, c)
  {
    if ys == [] {
      assert xs + ys == xs;
    } else {
      OfConcat(xs, ys[..|ys| - 1], c);
      assert (xs + ys)[..|xs + ys| - 1] == xs + ys[..|ys| - 1];
    }
  }

  lemma {:induction false} OfCity(xs: seq<Station>, c: int)
    ensures forall s :: s in Of(xs, c) ==> s.city == c
  {
    if xs != [] {
      OfCity(xs[..|xs| - 1], c);
    }
  }

  lemma {:induction false} OfOneCity(xs: seq<Station>, c: int, e: int)
    requires forall s :: s in xs ==> s.city == c
    ensures Of(xs, e) == if e == c then xs else []
  {
    if xs != [] {
      OfOneCity(xs[..|xs| - 1], c, e);
    }
  }

  lemma GroupsNext(xs: seq<Station>, cs: seq<int>, n: nat, c: int)
    requires n < |cs|
    ensures Of(Groups(xs, cs, n + 1), c) == Of(Groups(xs, cs, n), c) + if cs[n] == c then Of(xs, c) else []
  {
    OfConcat(Groups(xs, cs, n), Of(xs, cs[n]), c);
    OfGroup(xs, cs[n], c);
    hide Of;
  }

  lemma NoGroups(xs: seq<Station>, cs: seq<int>, c: int)
    ensures Of(Groups(xs, cs, 0), c) == []
  {
  }

  /** Grouping keeps the stations of each city and their order. */
  lemma {:induction false} GroupsKeep(xs: seq<Station>, cs: seq<int>, n: nat, c: int)
    requires Ascending(cs) && n <= |cs|
    ensures Of(Groups(xs, cs, n), c) == if c in cs[..n] then Of(xs, c) else []
    decreases n
  {
    hide Of, Groups;
    if n == 0 {
      NoGroups(xs, cs, c);
    } else {
      GroupsKeep(xs, cs, n - 1, c);
      GroupsNext(xs, cs, n - 1, c);
      LaterCity(cs, n - 1, c);
    }
  }

  lemma LaterCity(cs: seq<int>, n: nat, c: int)
    requires Ascending(cs) && n < |cs|
    ensures c in cs[..n + 1] <==> c in cs[..n] || c == cs[n]
    ensures c == cs[n] ==> c !in cs[..n]
  {
    assert cs[..n + 1] == cs[..n] + [cs[n]];
  }

  lemma OfGroup(xs: seq<Station>, e: int, c: int)
    ensures Of(Of(xs, e), c) == if e == c then Of(xs, c) else []
  {
    hide Of;
    OfCity(xs, e);
    OfOneCity(Of(xs, e), e, c);
  }

  lemma {:induction false} GroupsAscend(xs: seq<Station>, cs: seq<int>, n: nat)
    requires Ascending(cs) && n <= |cs|
    ensures forall s :: s in Groups(xs, cs, n) ==> s.city in cs[..n]
    ensures SortedByCity(Groups(xs, cs, n))
  {
    if n > 0 {
      var before, group := Groups(xs, cs, n - 1), Of(xs, cs[n - 1]);
      GroupsAscend(xs, cs, n - 1);
      OfCity(xs, cs[n - 1]);
      assert cs[..n] == cs[..n - 1] + [cs[n - 1]];
      var all: seq<Station> := before + group;
      forall i, j | 0 <= i < j < |all| ensures all[i].city <= all[j].city {
        if i < |before| && j >= |before| {
          assert before[i] in before && all[j] in group;
        }
        if i >= |before| {
          assert all[i] in group && all[j] in group;
        }
      }
    }
  }

  lemma {:induction false} CityKnown(xs: seq<Station>, c: int)
    ensures c in CitiesOf(xs) <==> Of(xs, c) != []
  {
    if xs != [] {
      CityKnown(xs[..|xs| - 1], c);
    }
  }

  /** Grouping by the sorted cities is the stable regrouping. */
  lemma GroupsAreRegrouping(xs: seq<Station>, cs: seq<int>)
    requires Sorts(cs, CitiesOf(xs))
    ensures Regrouped(xs, Groups(xs, cs, |cs|))
  {
    GroupsAscend(xs, cs, |cs|);
    assert cs[..|cs|] == cs;
    forall c ensures Of(Groups(xs, cs, |cs|), c) == Of(xs, c) {
      GroupsKeep(xs, cs, |cs|, c);
      CityKnown(xs, c);
    }
  }

  /** The stable regrouping is unique: cities ascend and every city has its stations in order. */
  lemma {:induction false} RegroupingUnique(ys: seq<Station>, zs: seq<Station>)
    requires SortedByCity(ys) && SortedByCity(zs)
    requires forall c :: Of(ys, c) == Of(zs, c)
    ensures ys == zs
    decreases |ys|
  {
    if ys == [] {
      forall c ensures Of(zs, c) == [] { assert Of(ys, c) == Of(zs, c); }
      NoStations(zs);
    } else {
      var y := ys[|ys| - 1];
      SameLast(ys, zs);
      var ys0, zs0, z := ys[..|ys| - 1], zs[..|zs| - 1], zs[|zs| - 1];
      forall c ensures Of(ys0, c) == Of(zs0, c) {
        assert Of(ys, c) == Of(zs, c);
        assert ys == ys0 + [y] && zs == zs0 + [z];
        OfNext(ys0, y, c);
        OfNext(zs0, z, c);
        if y.city == c {
          assert Of(ys0, c) == Of(ys, c)[..|Of(ys, c)| - 1];
          assert Of(zs0, c) == Of(zs, c)[..|Of(zs, c)| - 1];
        }
      }
      RegroupingUnique(ys0, zs0);
      assert ys == ys0 + [y] && zs == zs0 + [z];
    }
  }

  lemma SameLast(ys: seq<Station>, zs: seq<Station>)
    requires ys != []
    requires SortedByCity(ys) && SortedByCity(zs)
    requires forall c :: Of(ys, c) == Of(zs, c)
    ensures zs != [] && ys[|ys| - 1] == zs[|zs| - 1]
  {
    hide Of, SortedByCity;
    var y := ys[|ys| - 1];
    LastOf(ys);
    assert Of(zs, y.city) == Of(ys, y.city);
    HasCity(zs, y.city);
    var z := zs[|zs| - 1];
    LastOf(zs);
    assert Of(ys, z.city) == Of(zs, z.city);
    HasCity(ys, z.city);
  }

  lemma NoStations(xs: seq<Station>)
    requires forall c :: Of(xs, c) == []
    ensures xs == []
  {
    if xs != [] { LastOf(xs); }
  }

  lemma LastOf(xs: seq<Station>)
    requires xs != []
    ensures var x := xs[|xs| - 1]; Of(xs, x.city) != [] && Of(xs, x.city)[|Of(xs, x.city)| - 1] == x
  {
  }

  /** In a sorted list with a station of city `c`, no city of the end lies before `c`. */
  lemma {:induction false} HasCity(xs: seq<Station>, c: int)
    requires Of(xs, c) != [] && SortedByCity(xs)
    ensures xs != [] && c <= xs[|xs| - 1].city
  {
    if xs[|xs| - 1].city != c {
      HasCity(xs[..|xs| - 1], c);
    }
  }

  /** Regrouping loses and duplicates nothing. */
  lemma {:induction false} OccursInCity(xs: seq<Station>, s: Station)
    ensures multiset(xs)[s] == multiset(Of(xs, s.city))[s]
  {
    if xs != [] {
      OccursInCity(xs[..|xs| - 1], s);
      assert xs == xs[..|xs| - 1] + [xs[|xs| - 1]];
    }
  }

  lemma RegroupedIsPermutation(xs: seq<Station>, ys: seq<Station>)
    requires Regrouped(xs, ys)
    ensures multiset(xs) == multiset(ys)
  {
    forall s: Station ensures multiset(xs)[s] == multiset(ys)[s] {
      OccursInCity(xs, s);
      OccursInCity(ys, s);
    }
  }

  // ---------------------------------------------------------------- updating

  lemma {:induction false} UpdateThenGroup(db: Database, xs: seq<Station>, c: int)
    ensures Of(UpdatedAll(db, xs), c) == UpdatedAll(db, Of(xs, c))
  {
    if xs != [] {
      var before, last := xs[..|xs| - 1], xs[|xs| - 1];
      UpdateThenGroup(db, before, c);
      assert UpdatedAll(db, xs) == UpdatedAll(db, before) + [Updated(db, last)];
      OfNext(UpdatedAll(db, before), Updated(db, last), c);
      assert UpdatedAll(db, Of(before, c) + [last]) == UpdatedAll(db, Of(before, c)) + [Updated(db, last)];
    }
  }

  /** A second run on the output changes neither rows nor order. */
  lemma RunAgainChangesNothing(db: Database, xs: seq<Station>, ys: seq<Station>, zs: seq<Station>)
    requires Regrouped(UpdatedAll(db, xs), ys) && Regrouped(UpdatedAll(db, ys), zs)
    ensures UpdatedAll(db, ys) == ys && zs == ys
    ensures StatsOf(db, ys).lon == StatsOf(db, ys).lat == StatsOf(db, ys).addr == 0
  {
    RegroupedIsPermutation(UpdatedAll(db, xs), ys);
    forall i | 0 <= i < |ys| ensures Updated(db, ys[i]) == ys[i] {
      assert ys[i] in multiset(ys);
      assert ys[i] in UpdatedAll(db, xs);
      var j :| 0 <= j < |xs| && UpdatedAll(db, xs)[j] == ys[i];
      OnlyMissingFields(db, xs[j]);
    }
    assert UpdatedAll(db, ys) == ys;
    RegroupingUnique(zs, ys);
    CountersAreFilledFields(db, ys);
  }

  // ---------------------------------------------------------------- the counters

  datatype Stats = Stats(matched: nat, lon: nat, lat: nat, addr: nat)

  predicate Filled(before: Field, after: Field) {
    before.Blank? && after.Value?
  }

  function Plus(a: Stats, db: Database, s: Station): Stats {
    var t := Updated(db, s);
    Stats(a.matched + (if s.name in db then 1 else 0), a.lon + (if Filled(s.lon, t.lon) then 1 else 0),
          a.lat + (if Filled(s.lat, t.lat) then 1 else 0), a.addr + (if Filled(s.addr, t.addr) then 1 else 0))
  }

  function StatsOf(db: Database, xs: seq<Station>): Stats {
    if xs == [] then Stats(0, 0, 0, 0) else Plus(StatsOf(db, xs[..|xs| - 1]), db, xs[|xs| - 1])
  }

  function Sum(a: Stats, b: Stats): Stats {
    Stats(a.matched + b.matched, a.lon + b.lon, a.lat + b.lat, a.addr + b.addr)
  }

  lemma StatsNext(db: Database, xs: seq<Station>, x: Station)
    ensures StatsOf(db, xs + [x]) == Plus(StatsOf(db, xs), db, x)
  {
  }

  lemma SumPlus(a: Stats, b: Stats, db: Database, x: Station)
    ensures Sum(a, Plus(b, db, x)) == Plus(Sum(a, b), db, x)
    ensures Sum(a, Stats(0, 0, 0, 0)) == a
  {
  }

  lemma {:induction false} StatsConcat(db: Database, xs: seq<Station>, ys: seq<Station>)
    ensures StatsOf(db, xs + ys) == Sum(StatsOf(db, xs), StatsOf(db, ys))
  {
    hide Plus, Sum;
    if ys == [] {
      assert xs + ys == xs;
      SumPlus(StatsOf(db, xs), StatsOf(db, ys), db, Station(0, "", Blank(""), Blank(""), Blank(""), ""));
    } else {
      var zs, last := ys[..|ys| - 1], ys[|ys| - 1];
      StatsConcat(db, xs, zs);
      assert (xs + ys)[..|xs + ys| - 1] == xs + zs;
      SumPlus(StatsOf(db, xs), StatsOf(db, zs), db, last);
    }
  }

  lemma TakeOut(xs: seq<Station>, ys: seq<Station>, k: nat)
    requires xs != [] && k < |ys| && ys[k] == xs[|xs| - 1] && multiset(xs) == multiset(ys)
    ensures multiset(xs[..|xs| - 1]) == multiset(ys[..k] + ys[k + 1..])
    ensures ys == ys[..k] + ([ys[k]] + ys[k + 1..])
  {
    var x, before, a, b := ys[k], xs[..|xs| - 1], ys[..k], ys[k + 1..];
    assert xs == before + [x];
    assert ys == a + ([x] + b);
    assert multiset(xs) == multiset(before) + multiset{x};
    assert multiset(ys) == multiset(a) + (multiset{x} + multiset(b));
    assert multiset(a + b) == multiset(a) + multiset(b);
    assert multiset(before) + multiset{x} == multiset(a + b) + multiset{x};
    assert multiset(before) == (multiset(before) + multiset{x}) - multiset{x};
    assert multiset(a + b) == (multiset(a + b) + multiset{x}) - multiset{x};
  }

  /** The totals do not depend on the order. */
  lemma {:induction false} StatsPermuted(db: Database, xs: seq<Station>, ys: seq<Station>)
    requires multiset(xs) == multiset(ys)
    ensures StatsOf(db, xs) == StatsOf(db, ys)
    decreases |xs|
  {
    hide StatsOf, Plus, Sum;
    if xs == [] {
      assert |multiset(ys)| == |ys| == 0;
    } else {
      var before, last := xs[..|xs| - 1], xs[|xs| - 1];
      assert last in multiset(xs);
      var k :| 0 <= k < |ys| && ys[k] == last;
      TakeOut(xs, ys, k);
      StatsPermuted(db, before, ys[..k] + ys[k + 1..]);
      StatsInsert(db, ys[..k], last, ys[k + 1..]);
      StatsNext(db, before, last);
      assert before + [last] == xs;
    }
  }

  lemma StatsInsert(db: Database, xs: seq<Station>, x: Station, ys: seq<Station>)
    ensures StatsOf(db, xs + ([x] + ys)) == Plus(StatsOf(db, xs + ys), db, x)
  {
    hide StatsOf, Updated, Filled;
    StatsConcat(db, xs, ys);
    StatsConcat(db, xs, [x] + ys);
    StatsConcat(db, [x], ys);
    StatsOne(db, x);
  }

  lemma StatsOne(db: Database, x: Station)
    ensures StatsOf(db, [x]) == Plus(Stats(0, 0, 0, 0), db, x)
  {
  }

  /** Blank fields of each kind. */
  function Blanks(xs: seq<Station>): (nat, nat, nat) {
    if xs == [] then (0, 0, 0)
    else
      var b, s := Blanks(xs[..|xs| - 1]), xs[|xs| - 1];
      (b.0 + (if s.lon.Blank? then 1 else 0), b.1 + (if s.lat.Blank? then 1 else 0),
       b.2 + (if s.addr.Blank? then 1 else 0))
  }

  /** Each counter is the number of blank fields that disappeared. */
  lemma {:induction false} CountersAreFilledFields(db: Database, xs: seq<Station>)
    ensures var st, before, after := StatsOf(db, xs), Blanks(xs), Blanks(UpdatedAll(db, xs));
            st.lon == before.0 - after.0 && st.lat == before.1 - after.1 && st.addr == before.2 - after.2
  {
    if xs != [] {
      var rest, last := xs[..|xs| - 1], xs[|xs| - 1];
      CountersAreFilledFields(db, rest);
      assert UpdatedAll(db, xs) == UpdatedAll(db, rest) + [Updated(db, last)];
      assert UpdatedAll(db, xs)[..|xs| - 1] == UpdatedAll(db, rest);
    }
  }

  /** The positions of the stations that are such. */
  ghost function Positions(xs: seq<Station>, such: Station -> bool): set<nat> {
    set i: nat | i < |xs| && such(xs[i])
  }

  lemma PositionsNext(xs: seq<Station>, such: Station -> bool)
    requires xs != []
    ensures |Positions(xs, such)| == |Positions(xs[..|xs| - 1], such)| + if such(xs[|xs| - 1]) then 1 else 0
  {
    var before := Positions(xs[..|xs| - 1], such);
    assert Positions(xs, such) == before + (if such(xs[|xs| - 1]) then {|xs| - 1} else {});
  }

  lemma NoPositions(such: Station -> bool)
    ensures Positions([], such) == {}
  {
  }

  /** A counter counts the stations that the database knows by name, or for whose blank field it has a value. */
  lemma {:induction false} CountersAre(db: Database, xs: seq<Station>, matched: Station -> bool, lon: Station -> bool,
                                       lat: Station -> bool, addr: Station -> bool)
    requires forall s :: matched(s) <==> s.name in db
    requires forall s :: lon(s) <==> s.name in db && s.lon.Blank? && db[s.name].lon.Some?
    requires forall s :: lat(s) <==> s.name in db && s.lat.Blank? && db[s.name].lat.Some?
    requires forall s :: addr(s) <==> s.name in db && s.addr.Blank? && db[s.name].addr.Some?
    ensures StatsOf(db, xs) ==
            Stats(|Positions(xs, matched)|, |Positions(xs, lon)|, |Positions(xs, lat)|, |Positions(xs, addr)|)
  {
    NoPositions(matched);
    NoPositions(lon);
    NoPositions(lat);
    NoPositions(addr);
    hide Positions;
    if xs != [] {
      CountersAre(db, xs[..|xs| - 1], matched, lon, lat, addr);
      PositionsNext(xs, matched);
      PositionsNext(xs, lon);
      PositionsNext(xs, lat);
      PositionsNext(xs, addr);
    }
  }

  // ---------------------------------------------------------------- the updater

  method Smallest(cities: set<int>) returns (c: int)
    requires exists d :: d in cities
    ensures c in cities && forall d :: d in cities ==> c <= d
  {
    c :| c in cities;
    var others := cities;
    while exists d :: d in others
      invariant c in cities && others <= cities
      invariant forall d :: d in cities && d !in others ==> c <= d
      decreases |others|
    {
      var d :| d in others;
      others := others - {d};
      if d < c {
        c := d;
      }
    }
  }

  /** The smallest remaining city, one after another. */
  method SortedKeys(cities: set<int>) returns (cs: seq<int>)
    ensures Sorts(cs, cities)
  {
    cs := [];
    var rest := cities;
    while exists c :: c in rest
      invariant rest <= cities && Ascending(cs)
      invariant forall c :: c in cs <==> c in cities && c !in rest
      invariant forall c, d :: c in cs && d in rest ==> c < d
      decreases |rest|
    {
      var c := Smallest(rest);
      assert forall i :: 0 <= i < |cs| ==> cs[i] in cs;
      cs := cs + [c];
      rest := rest - {c};
    }
  }

  class StationGeoUpdater {
    var localStations: seq<Station>
    var byName: Database
    var stats: Stats

    constructor (stations: seq<Station>, db: Database)
      ensures localStations == stations && byName == db && stats == Stats(0, 0, 0, 0)
    {
      localStations, byName, stats := stations, db, Stats(0, 0, 0, 0);
    }

    /** The dictionary of city groups, in the order of the list. */
    method GroupByCity() returns (cities: map<int, seq<Station>>)
      ensures cities.Keys == CitiesOf(localStations)
      ensures forall c :: c in cities ==> cities[c] == Of(localStations, c)
    {
      cities := map[];
      var xs := localStations;
      for n := 0 to |xs|
        invariant cities.Keys == CitiesOf(xs[..n])
        invariant forall c :: c in cities ==> cities[c] == Of(xs[..n], c)
      {
        var s := xs[n];
        assert xs[..n + 1] == xs[..n] + [s] && xs[..n + 1][..n] == xs[..n];
        CityKnown(xs[..n], s.city);
        forall c { OfNext(xs[..n], s, c); }
        cities := cities[s.city := (if s.city in cities then cities[s.city] else []) + [s]];
      }
      assert xs[..|xs|] == xs;
    }

    /** Looking up one station and filling its missing fields, each counted. */
    method UpdateStation(s: Station) returns (t: Station)
      modifies this`stats
      ensures t == Updated(byName, s) && stats == Plus(old(stats), byName, s)
    {
      t := s;
      if s.name !in byName {
        return;
      }
      var source := byName[s.name];
      stats := stats.(matched := stats.matched + 1);
      if s.lon.Blank? && source.lon.Some? {
        t := t.(lon := Value(source.lon.value));
        stats := stats.(lon := stats.lon + 1);
      }
      if s.lat.Blank? && source.lat.Some? {
        t := t.(lat := Value(source.lat.value));
        stats := stats.(lat := stats.lat + 1);
      }
      if s.addr.Blank? && source.addr.Some? {
        t := t.(addr := Value(source.addr.value));
        stats := stats.(addr := stats.addr + 1);
      }
    }

    method UpdateGroup(group: seq<Station>) returns (updated: seq<Station>)
      modifies this`stats
      ensures updated == UpdatedAll(byName, group)
      ensures stats == Sum(old(stats), StatsOf(byName, group))
    {
      updated := [];
      for n := 0 to |group|
        invariant updated == UpdatedAll(byName, group[..n])
        invariant stats == Sum(old(stats), StatsOf(byName, group[..n]))
      {
        var s := group[n];
        assert group[..n + 1] == group[..n] + [s];
        StatsNext(byName, group[..n], s);
        var t := UpdateStation(s);
        updated := updated + [t];
      }
      assert group[..|group|] == group;
    }

    /** The output is the stable regrouping of the updated stations, and the counters add up over the
        input. */
    method ProcessByCity() returns (output: seq<Station>)
      modifies this`stats
      ensures Regrouped(UpdatedAll(byName, localStations), output)
      ensures stats == Sum(old(stats), StatsOf(byName, localStations))
    {
      hide UpdatedAll, StatsOf, Sum, Of, Groups, Plus;
      var cities := GroupByCity();
      var order := SortedKeys(cities.Keys);
      var xs := localStations;
      output := [];
      NothingYet(byName, xs, order, stats);
      for n := 0 to |order|
        invariant output == UpdatedAll(byName, Groups(xs, order, n))
        invariant stats == Sum(old(stats), StatsOf(byName, Groups(xs, order, n)))
      {
        assert order[n] in order;
        var updated := UpdateGroup(cities[order[n]]);
        OneMoreGroup(byName, xs, order, n, old(stats));
        output := output + updated;
      }
      GroupsAreRegrouping(xs, order);
      RegroupedIsPermutation(xs, Groups(xs, order, |order|));
      StatsPermuted(byName, xs, Groups(xs, order, |order|));
      UpdatedRegrouped(byName, xs, Groups(xs, order, |order|));
    }
  }

  lemma NothingYet(db: Database, xs: seq<Station>, cs: seq<int>, st: Stats)
    ensures UpdatedAll(db, Groups(xs, cs, 0)) == []
    ensures Sum(st, StatsOf(db, Groups(xs, cs, 0))) == st
  {
  }

  lemma OneMoreGroup(db: Database, xs: seq<Station>, cs: seq<int>, n: nat, st: Stats)
    requires n < |cs|
    ensures UpdatedAll(db, Groups(xs, cs, n + 1)) == UpdatedAll(db, Groups(xs, cs, n)) + UpdatedAll(db, Of(xs, cs[n]))
    ensures Sum(st, StatsOf(db, Groups(xs, cs, n + 1))) ==
            Sum(Sum(st, StatsOf(db, Groups(xs, cs, n))), StatsOf(db, Of(xs, cs[n])))
  {
    hide Of, StatsOf, Updated;
    StatsConcat(db, Groups(xs, cs, n), Of(xs, cs[n]));
  }

  /** Updating a regrouping is regrouping the update. */
  lemma UpdatedRegrouped(db: Database, xs: seq<Station>, ys: seq<Station>)
    requires Regrouped(xs, ys)
    ensures Regrouped(UpdatedAll(db, xs), UpdatedAll(db, ys))
  {
    forall c ensures Of(UpdatedAll(db, ys), c) == Of(UpdatedAll(db, xs), c) {
      UpdateThenGroup(db, xs, c);
      UpdateThenGroup(db, ys, c);
    }
  }
}
