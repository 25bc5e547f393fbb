/** The complete-date crawl (src/tenders/qianlima_client.py, `_search_via_api`): pages of a listing
    are requested until the page limit, which shrinks to the announced page count, an empty page,
    or a page that lies entirely before the wanted date. */
module DateCrawl {
  import opened Common

  /** A usable row: a title that looks like a notice, a url with its key, and a day number. */
  datatype Item = Item(url: string, key: string, title: string, date: Option<int>)

  /** `notice` says whether the title and url of the row pass the checks of the parser. */
  datatype Row = Row(item: Item, notice: bool)

  /** A response: its rows, and the announced page count when that is an integer. */
  datatype Page = Page(rows: seq<Row>, pagesCount: Option<int>)

  /** The answers to the requests for pages 1, 2, ...; further pages are empty. */
  type Listing = seq<Answer<Page>>

  function PageAt(listing: Listing, n: nat): Answer<Page> {
    if 1 <= n <= |listing| then listing[n - 1] else Returns(Page([], None))
  }

  // ---------------------------------------------------------------- deduplication

  function Keys(items: seq<Item>): set<string> {
    if items == [] then {} else Keys(items[..|items| - 1]) + {items[|items| - 1].key}
  }

  /** The items whose key occurs neither in `seen` nor before them. */
  function FirstOf(seen: set<string>, items: seq<Item>): seq<Item> {
    if items == [] then []
    else
      var before, last := items[..|items| - 1], items[|items| - 1];
      if last.key in seen || last.key in Keys(before) then FirstOf(seen, before) else FirstOf(seen, before) + [last]
  }

  function Dedupe(items: seq<Item>): seq<Item> {
    FirstOf({}, items)
  }

  lemma FirstOfNext(seen: set<string>, items: seq<Item>, x: Item)
    ensures FirstOf(seen, items + [x]) ==
            if x.key in seen || x.key in Keys(items) then FirstOf(seen, items) else FirstOf(seen, items) + [x]
    ensures Keys(items + [x]) == Keys(items) + {x.key}
  {
  }

  method DedupeCandidates(items: seq<Item>) returns (unique: seq<Item>)
    ensures unique == Dedupe(items)
  {
    var seen: set<string> := {};
    unique := [];
    for n := 0 to |items|
      invariant seen == Keys(items[..n])
      invariant unique == Dedupe(items[..n])
    {
      assert items[..n + 1] == items[..n] + [items[n]];
      FirstOfNext({}, items[..n], items[n]);
      if items[n].key in seen {
        continue;
      }
      seen := seen + {items[n].key};
      unique := unique + [items[n]];
    }
    assert items[..|items|] == items;
  }

  lemma {:induction false} KeyAt(items: seq<Item>, k: string)
    ensures k in Keys(items) <==> exists i :: 0 <= i < |items| && items[i].key == k
  {
    if items != [] {
      var before, last := items[..|items| - 1], items[|items| - 1];
      KeyAt(before, k);
      if i :| 0 <= i < |before| && before[i].key == k { assert items[i].key == k; }
      if i :| 0 <= i < |items| && items[i].key == k && k != last.key { assert before[i].key == k; }
    }
  }

  ghost predicate DistinctKeys(items: seq<Item>) {
    forall i, j :: 0 <= i < j < |items| ==> items[i].key != items[j].key
  }

  /** No key is lost and none is left twice. */
  lemma {:induction false} DedupeKeys(items: seq<Item>)
    ensures Keys(Dedupe(items)) == Keys(items) && DistinctKeys(Dedupe(items))
  {
    if items != [] {
      var before, last := items[..|items| - 1], items[|items| - 1];
      var d := Dedupe(before);
      assert items == before + [last];
      DedupeKeys(before);
      FirstOfNext({}, before, last);
      FirstOfNext({}, d, last);
      forall i | 0 <= i < |d| ensures d[i].key in Keys(before) { KeyAt(d, d[i].key); }
    }
  }

  /** `x` is an item of the list whose key no earlier item has. */
  ghost predicate FirstOccurrence(items: seq<Item>, x: Item, i: int) {
    0 <= i < |items| && items[i] == x && x.key !in Keys(items[..i])
  }

  /** Exactly the first occurrences are left. */
  lemma {:induction false} DedupeKeepsFirst(items: seq<Item>, x: Item)
    ensures x in Dedupe(items) <==> exists i :: FirstOccurrence(items, x, i)
  {
    if items != [] {
      var before, last := items[..|items| - 1], items[|items| - 1];
      assert items == before + [last];
      DedupeKeepsFirst(before, x);
      FirstOfNext({}, before, last);
      if i :| FirstOccurrence(before, x, i) {
        assert items[..i] == before[..i];
        assert FirstOccurrence(items, x, i);
      }
      if i :| FirstOccurrence(items, x, i) && i < |before| {
        assert items[..i] == before[..i];
        assert FirstOccurrence(before, x, i);
      }
      if last.key !in Keys(before) && x == last {
        assert items[..|before|] == before;
        assert FirstOccurrence(items, x, |before|);
      }
    }
  }

  lemma FirstOfNothing(seen: set<string>)
    ensures FirstOf(seen, []) == [] && Keys([]) == {}
  {
  }

  /** Deduplicating in two parts, the second knowing the keys of the first. */
  lemma {:induction false} FirstOfConcat(seen: set<string>, xs: seq<Item>, ys: seq<Item>)
    ensures FirstOf(seen, xs + ys) == FirstOf(seen, xs) + FirstOf(seen + Keys(xs), ys)
    ensures Keys(xs + ys) == Keys(xs) + Keys(ys)
  {
    FirstOfNothing(seen + Keys(xs));
    hide FirstOf, Keys;
    if ys == [] {
      assert xs + ys == xs;
    } else {
      var zs, last := ys[..|ys| - 1], ys[|ys| - 1];
      FirstOfConcat(seen, xs, zs);
      assert xs + ys == (xs + zs) + [last] && ys == zs + [last];
      FirstOfNext(seen, xs + zs, last);
      FirstOfNext(seen + Keys(xs), zs, last);
      assert seen + Keys(xs + zs) == seen + Keys(xs) + Keys(zs);
    }
  }

  /** A second deduplication, even with more keys seen, ignores what the first one dropped. */
  lemma {:induction false} FirstOfTwice(seen: set<string>, items: seq<Item>)
    ensures FirstOf(seen, Dedupe(items)) == FirstOf(seen, items) && Keys(Dedupe(items)) == Keys(items)
  {
    if items != [] {
      var before, last := items[..|items| - 1], items[|items| - 1];
      assert items == before + [last];
      FirstOfTwice(seen, before);
      FirstOfNext({}, before, last);
      FirstOfNext(seen, before, last);
      FirstOfNext(seen, Dedupe(before), last);
    }
  }

  // ---------------------------------------------------------------- one page

  /** All usable rows of a page, in order. */
  function Usable(rows: seq<Row>): seq<Item> {
    if rows == [] then []
    else if rows[|rows| - 1].notice then Usable(rows[..|rows| - 1]) + [rows[|rows| - 1].item]
    else Usable(rows[..|rows| - 1])
  }

  function Parse(p: Page): seq<Item> {
    Dedupe(Usable(p.rows))
  }

  predicate Wanted(date: Option<int>, x: Item) {
    date.None? || x.date == date
  }

  function OnDate(date: Option<int>, items: seq<Item>): seq<Item> {
    if items == [] then []
    else if Wanted(date, items[|items| - 1]) then OnDate(date, items[..|items| - 1]) + [items[|items| - 1]]
    else OnDate(date, items[..|items| - 1])
  }

  /** The usable rows are those that pass the checks. */
  lemma {:induction false} UsableIs(rows: seq<Row>, x: Item)
    ensures x in Usable(rows) <==> exists i :: 0 <= i < |rows| && rows[i] == Row(x, true)
  {
    if rows != [] {
      var before := rows[..|rows| - 1];
      UsableIs(before, x);
      assert forall i :: 0 <= i < |before| ==> before[i] == rows[i];
    }
  }

  lemma {:induction false} OnDateIs(date: Option<int>, items: seq<Item>, x: Item)
    ensures x in OnDate(date, items) <==> x in items && (date.None? || x.date == date)
  {
    if items != [] {
      OnDateIs(date, items[..|items| - 1], x);
    }
  }

  method ParseResponse(p: Page) returns (items: seq<Item>)
    ensures items == Parse(p)
    ensures DistinctKeys(items)
    ensures forall x :: x in items ==> exists i :: 0 <= i < |p.rows| && p.rows[i] == Row(x, true)
  {
    items := [];
    for n := 0 to |p.rows|
      invariant items == Usable(p.rows[..n])
    {
      assert p.rows[..n + 1][..n] == p.rows[..n];
      if !p.rows[n].notice {
        continue;
      }
      items := items + [p.rows[n].item];
    }
    assert p.rows[..|p.rows|] == p.rows;
    items := DedupeCandidates(items);
    DedupeKeys(Usable(p.rows));
    forall x | x in items ensures exists i :: 0 <= i < |p.rows| && p.rows[i] == Row(x, true) {
      DedupeKeepsFirst(Usable(p.rows), x);
      UsableIs(p.rows, x);
    }
  }

  lemma OnDateNext(date: Option<int>, items: seq<Item>, x: Item)
    ensures OnDate(date, items + [x]) == if Wanted(date, x) then OnDate(date, items) + [x] else OnDate(date, items)
  {
  }

  ghost predicate WantedAt(date: Option<int>, items: seq<Item>, k: string, i: int) {
    0 <= i < |items| && items[i].key == k && Wanted(date, items[i])
  }

  lemma {:induction false} WantedKeys(date: Option<int>, items: seq<Item>, k: string)
    ensures k in Keys(OnDate(date, items)) <==> exists i :: WantedAt(date, items, k, i)
  {
    if items != [] {
      var before, last := items[..|items| - 1], items[|items| - 1];
      WantedKeys(date, before, k);
      FirstOfNext({}, OnDate(date, before), last);
      if i :| WantedAt(date, before, k, i) { assert WantedAt(date, items, k, i); }
      if i :| WantedAt(date, items, k, i) && i < |before| { assert WantedAt(date, before, k, i); }
      if last.key == k && Wanted(date, last) { assert WantedAt(date, items, k, |before|); }
    }
  }

  predicate IsFirst(items: seq<Item>, f: int) {
    0 <= f < |items| && forall j :: 0 <= j < f ==> items[j].key != items[f].key
  }

  /** Row `f` is the first with its key, and wanted. */
  ghost predicate ShownAt(date: Option<int>, items: seq<Item>, k: string, f: int) {
    IsFirst(items, f) && items[f].key == k && Wanted(date, items[f])
  }

  lemma OneFirst(items: seq<Item>, f: int, g: int)
    requires IsFirst(items, f) && IsFirst(items, g) && items[f].key == items[g].key
    ensures f == g
  {
  }

  /** Whatever key occurs has a first row. */
  lemma {:induction false} FirstIndex(items: seq<Item>, k: string) returns (f: nat)
    requires k in Keys(items)
    ensures IsFirst(items, f) && items[f].key == k
  {
    var before := items[..|items| - 1];
    if k in Keys(before) {
      f := FirstIndex(before, k);
    } else {
      f := |before|;
      forall j | 0 <= j < f ensures items[j].key != k { KeyAt(before, k); assert before[j] == items[j]; }
    }
  }

  /** The keys left by deduplicating first and filtering then: those whose first row is wanted. */
  lemma {:induction false} ShownKeys(date: Option<int>, items: seq<Item>, k: string)
    ensures k in Keys(OnDate(date, Dedupe(items))) <==> exists f :: ShownAt(date, items, k, f)
  {
    FirstOfNothing({});
    assert OnDate(date, []) == [];
    hide Keys, OnDate, FirstOf, IsFirst;
    if items != [] {
      var before, last := items[..|items| - 1], items[|items| - 1];
      assert items == before + [last];
      ShownKeys(date, before, k);
      FirstOfNext({}, before, last);
      OnDateNext(date, Dedupe(before), last);
      FirstOfNext({}, OnDate(date, Dedupe(before)), last);
      FirstLater(before, last);
      if f :| ShownAt(date, before, k, f) { IsFirstKept(before, last, f); assert ShownAt(date, items, k, f); }
      if f :| ShownAt(date, items, k, f) && f < |before| {
        IsFirstKept(before, last, f);
        assert ShownAt(date, before, k, f);
      }
      if last.key !in Keys(before) && last.key == k && Wanted(date, last) { assert ShownAt(date, items, k, |before|); }
      if f :| ShownAt(date, items, k, f) && f >= |before| { FirstBound(items, f); }
    }
  }

  lemma FirstBound(items: seq<Item>, f: int)
    requires IsFirst(items, f)
    ensures 0 <= f < |items|
  {
  }

  lemma IsFirstKept(before: seq<Item>, last: Item, f: int)
    ensures 0 <= f < |before| ==>
              (before + [last])[f] == before[f] && (IsFirst(before + [last], f) <==> IsFirst(before, f))
    ensures IsFirst(before, f) ==> 0 <= f < |before|
  {
    var items := before + [last];
    if IsFirst(before, f) {
      forall j | 0 <= j < f ensures items[j].key != items[f].key { assert items[j] == before[j]; }
    }
    if IsFirst(items, f) && f < |before| {
      forall j | 0 <= j < f ensures before[j].key != before[f].key { assert items[j] == before[j]; }
    }
  }

  lemma FirstLater(before: seq<Item>, last: Item)
    ensures IsFirst(before + [last], |before|) <==> last.key !in Keys(before)
  {
    var items := before + [last];
    KeyAt(before, last.key);
    if i :| 0 <= i < |before| && before[i].key == last.key {
      assert items[i] == before[i];
    } else {
      forall j | 0 <= j < |before| ensures items[j].key != items[|before|].key { assert items[j] == before[j]; }
    }
  }

  /** Every wanted row of the page has a wanted row as the first with its key. */
  ghost predicate FirstRowsDecide(date: Option<int>, items: seq<Item>) {
    forall i, f :: 0 <= i < |items| && Wanted(date, items[i]) && IsFirst(items, f) && items[f].key == items[i].key ==>
      Wanted(date, items[f])
  }

  lemma FirstRowsBefore(date: Option<int>, before: seq<Item>, last: Item)
    requires FirstRowsDecide(date, before + [last])
    ensures FirstRowsDecide(date, before)
    ensures Wanted(date, last) ==> (last.key in Keys(before) <==> last.key in Keys(OnDate(date, before)))
  {
    var items := before + [last];
    forall i, f | 0 <= i < |before| && Wanted(date, before[i]) && IsFirst(before, f) && before[f].key == before[i].key
      ensures Wanted(date, before[f])
    {
      assert items[i] == before[i] && items[f] == before[f] && IsFirst(items, f);
    }
    WantedKeys(date, before, last.key);
    KeyAt(before, last.key);
    if Wanted(date, last) && last.key in Keys(before) {
      var f := FirstIndex(before, last.key);
      assert items[|before|] == last && items[f] == before[f] && IsFirst(items, f);
      assert WantedAt(date, before, last.key, f);
    }
  }

  lemma FilterDedupeNext(date: Option<int>, before: seq<Item>, last: Item)
    requires OnDate(date, Dedupe(before)) == Dedupe(OnDate(date, before))
    requires Wanted(date, last) ==> (last.key in Keys(before) <==> last.key in Keys(OnDate(date, before)))
    ensures OnDate(date, Dedupe(before + [last])) == Dedupe(OnDate(date, before + [last]))
  {
    hide Keys, FirstOf, OnDate;
    FirstOfNext({}, before, last);
    OnDateNext(date, before, last);
    OnDateNext(date, Dedupe(before), last);
    FirstOfNext({}, OnDate(date, before), last);
  }

  lemma {:induction false} FilterDedupeIf(date: Option<int>, items: seq<Item>)
    requires FirstRowsDecide(date, items)
    ensures OnDate(date, Dedupe(items)) == Dedupe(OnDate(date, items))
  {
    assert OnDate(date, Dedupe([])) == Dedupe(OnDate(date, []));
    hide Dedupe, OnDate, FirstRowsDecide;
    if items != [] {
      var before, last := items[..|items| - 1], items[|items| - 1];
      assert items == before + [last];
      FirstRowsBefore(date, before, last);
      FilterDedupeIf(date, before);
      FilterDedupeNext(date, before, last);
    }
  }

  /** Filtering by date after a page was deduplicated gives what deduplicating the filtered page gives,
      if and only if every wanted row has a wanted row as the first with its key. */
  lemma FilterDedupe(date: Option<int>, items: seq<Item>)
    ensures OnDate(date, Dedupe(items)) == Dedupe(OnDate(date, items)) <==> FirstRowsDecide(date, items)
  {
    if FirstRowsDecide(date, items) {
      FilterDedupeIf(date, items);
    }
    if OnDate(date, Dedupe(items)) == Dedupe(OnDate(date, items)) {
      DedupeKeys(OnDate(date, items));
      hide Dedupe, OnDate;
      forall i, f | 0 <= i < |items| && Wanted(date, items[i]) && IsFirst(items, f) && items[f].key == items[i].key
        ensures Wanted(date, items[f])
      {
        WantedKeys(date, items, items[i].key);
        assert WantedAt(date, items, items[i].key, i);
        ShownKeys(date, items, items[i].key);
        var g :| ShownAt(date, items, items[i].key, g);
        OneFirst(items, f, g);
      }
    }
  }

  function DatesOf(items: seq<Item>): seq<int> {
    if items == [] then []
    else if items[|items| - 1].date.Some? then DatesOf(items[..|items| - 1]) + [items[|items| - 1].date.value]
    else DatesOf(items[..|items| - 1])
  }

  /** The stop test of the source, with its two conditions. */
  predicate IsPastTargetDatePage(pageDates: seq<int>, target: Option<int>, seenTarget: bool) {
    && target.Some? && pageDates != []
    && ((forall i :: 0 <= i < |pageDates| ==> pageDates[i] < target.value)
        || (seenTarget && !exists i :: 0 <= i < |pageDates| && pageDates[i] >= target.value))
  }

  /** The second condition adds nothing to the first: the flag never decides. */
  lemma SeenFlagIsIrrelevant(pageDates: seq<int>, target: Option<int>, seenTarget: bool)
    ensures IsPastTargetDatePage(pageDates, target, seenTarget) <==>
            target.Some? && pageDates != [] && forall d :: d in pageDates ==> d < target.value
  {
    if IsPastTargetDatePage(pageDates, target, seenTarget) {
      forall d | d in pageDates ensures d < target.value {
        var i :| 0 <= i < |pageDates| && pageDates[i] == d;
        assert pageDates[i] < target.value;
      }
    }
    if target.Some? && forall d :: d in pageDates ==> d < target.value {
      forall i | 0 <= i < |pageDates| ensures pageDates[i] < target.value { assert pageDates[i] in pageDates; }
    }
  }

  // ---------------------------------------------------------------- the paging loop

  /** The page limit after a response, in a complete-date crawl. */
  function Shrunk(complete: bool, limit: int, p: Page): int {
    if complete && p.pagesCount.Some? && p.pagesCount.value > 0 then Min(limit, p.pagesCount.value) else limit
  }

  predicate Past(date: Option<int>, p: Page) {
    IsPastTargetDatePage(DatesOf(Parse(p)), date, false)
  }

  /** The number of the last page that is requested, from page `n` on. */
  function LastPage(listing: Listing, date: Option<int>, complete: bool, n: nat, limit: int): (r: Answer<nat>)
    requires n >= 1
    ensures r.Returns? ==> n - 1 <= r.value && (n <= limit ==> n <= r.value <= limit)
    decreases limit - n
  {
    if n > limit then Returns(n - 1)
    else
      match PageAt(listing, n)
      case Raises(e) => Raises(e)
      case Returns(p) =>
        if Parse(p) == [] || (complete && Past(date, p)) then Returns(n)
        else if n < Shrunk(complete, limit, p) then LastPage(listing, date, complete, n + 1, Shrunk(complete, limit, p))
        else Returns(n)
  }

  /** The usable rows of page `n`; a page whose request raises has none. */
  function RowsAt(listing: Listing, n: nat): seq<Item> {
    if PageAt(listing, n).Returns? then Usable(PageAt(listing, n).value.rows) else []
  }

  /** The wanted rows of the first `n` pages, each page deduplicated by itself. */
  function Kept(listing: Listing, date: Option<int>, n: nat): seq<Item> {
    if n == 0 then []
    else Kept(listing, date, n - 1) + OnDate(date, Dedupe(RowsAt(listing, n)))
  }

  lemma NothingKept(listing: Listing, date: Option<int>)
    ensures Kept(listing, date, 0) == []
  {
  }

  lemma KeptNext(listing: Listing, date: Option<int>, n: nat)
    requires n >= 1 && PageAt(listing, n).Returns?
    ensures var items := Parse(PageAt(listing, n).value);
            && Kept(listing, date, n) == Kept(listing, date, n - 1) + OnDate(date, items)
            && (items == [] ==> Kept(listing, date, n) == Kept(listing, date, n - 1))
  {
  }

  /** What is kept of the pages has the wanted date. */
  lemma {:induction false} KeptIsOnDate(listing: Listing, date: Option<int>, n: nat, x: Item)
    requires x in Kept(listing, date, n)
    ensures date.None? || x.date == date
  {
    if x in Kept(listing, date, n - 1) {
      KeptIsOnDate(listing, date, n - 1, x);
    } else {
      OnDateIs(date, Dedupe(RowsAt(listing, n)), x);
    }
  }

  method SearchViaApi(listing: Listing, date: Option<int>, maxPages: int, maxCompletePages: int)
      returns (r: Answer<seq<Item>>)
    ensures var complete := date.Some? && maxPages <= 0;
            match LastPage(listing, date, complete, 1, if complete then maxCompletePages else maxPages)
            case Raises(e) => r == Raises(e)
            case Returns(m) => r == Returns(Dedupe(Kept(listing, date, m)))
    ensures r.Returns? ==> DistinctKeys(r.value) && forall x :: x in r.value ==> date.None? || x.date == date
  {
    hide OnDate, DatesOf, IsPastTargetDatePage, Parse, Dedupe, Kept;
    NothingKept(listing, date);
    var candidates: seq<Item> := [];
    var complete := date.Some? && maxPages <= 0;
    var pageLimit := if complete then maxCompletePages else maxPages;
    ghost var last := LastPage(listing, date, complete, 1, pageLimit);
    var seenTargetDate := false;
    var pageNumber := 1;
    while pageNumber <= pageLimit
      invariant pageNumber >= 1
      invariant candidates == Kept(listing, date, pageNumber - 1)
      invariant last == if pageNumber <= pageLimit then LastPage(listing, date, complete, pageNumber, pageLimit)
                        else Returns(pageNumber - 1)
      decreases pageLimit - pageNumber
    {
      var answer := PageAt(listing, pageNumber);
      if answer.Raises? {
        return Raises(answer.error);
      }
      pageLimit := Shrunk(complete, pageLimit, answer.value);
      var items := ParseResponse(answer.value);
      KeptNext(listing, date, pageNumber);
      if items == [] {
        break;
      }
      var pageDates := DatesOf(items);
      if date.Some? && exists i :: 0 <= i < |items| && items[i].date == date {
        seenTargetDate := true;
      }
      candidates := candidates + OnDate(date, items);
      SeenFlagIsIrrelevant(pageDates, date, seenTargetDate);
      SeenFlagIsIrrelevant(pageDates, date, false);
      if complete && IsPastTargetDatePage(pageDates, date, seenTargetDate) {
        pageNumber := pageNumber + 1;
        break;
      }
      pageNumber := pageNumber + 1;
    }
    var unique := DedupeCandidates(candidates);
    DedupeKeys(candidates);
    forall x | x in unique ensures date.None? || x.date == date {
      DedupeKeepsFirst(candidates, x);
      KeptIsOnDate(listing, date, last.value, x);
    }
    return Returns(unique);
  }

  // ---------------------------------------------------------------- against the plain crawl

  /** Every wanted row of the first `n` pages, in order, duplicates included. */
  function WantedRows(listing: Listing, date: Option<int>, n: nat): seq<Item> {
    if n == 0 then [] else WantedRows(listing, date, n - 1) + OnDate(date, RowsAt(listing, n))
  }

  /** Fetch the first `n` pages, filter, deduplicate. */
  function Plain(listing: Listing, date: Option<int>, n: nat): seq<Item> {
    Dedupe(WantedRows(listing, date, n))
  }

  /** `x` is a notice on one of the first `n` pages, of the wanted date if there is one. */
  ghost predicate Listed(listing: Listing, date: Option<int>, n: nat, x: Item) {
    && (date.None? || x.date == date)
    && exists i :: 1 <= i <= n && PageAt(listing, i).Returns? && Row(x, true) in PageAt(listing, i).value.rows
  }

  lemma {:induction false} WantedRowsAre(listing: Listing, date: Option<int>, n: nat, x: Item)
    ensures x in WantedRows(listing, date, n) <==> Listed(listing, date, n, x)
  {
    if n > 0 {
      WantedRowsAre(listing, date, n - 1, x);
      OnDateIs(date, RowsAt(listing, n), x);
      if PageAt(listing, n).Returns? {
        UsableIs(PageAt(listing, n).value.rows, x);
      }
    }
  }

  /** The plain crawl returns notices of the wanted date, one for every url that has one. */
  lemma PlainIs(listing: Listing, date: Option<int>, n: nat)
    ensures DistinctKeys(Plain(listing, date, n))
    ensures forall x :: x in Plain(listing, date, n) ==> Listed(listing, date, n, x)
    ensures forall x :: Listed(listing, date, n, x) ==> exists y :: y in Plain(listing, date, n) && y.key == x.key
  {
    hide Listed, Dedupe, Keys;
    var rows := WantedRows(listing, date, n);
    DedupeKeys(rows);
    forall x | x in Plain(listing, date, n) ensures Listed(listing, date, n, x) {
      DedupeKeepsFirst(rows, x);
      WantedRowsAre(listing, date, n, x);
    }
    forall x | Listed(listing, date, n, x) ensures exists y :: y in Plain(listing, date, n) && y.key == x.key {
      WantedRowsAre(listing, date, n, x);
      var i :| 0 <= i < |rows| && rows[i] == x;
      KeyAt(rows, x.key);
      KeyAt(Dedupe(rows), x.key);
      var j :| 0 <= j < |Dedupe(rows)| && Dedupe(rows)[j].key == x.key;
      assert Dedupe(rows)[j] in Plain(listing, date, n);
    }
  }

  /** On each of the first `n` pages filtering and deduplicating can be exchanged. */
  ghost predicate PagesAgree(listing: Listing, date: Option<int>, n: nat) {
    forall i :: 1 <= i <= n ==> FirstRowsDecide(date, RowsAt(listing, i))
  }

  /** One more page, deduplicated by itself or not. */
  lemma OnePageMore(kept: seq<Item>, wanted: seq<Item>, date: Option<int>, rows: seq<Item>)
    requires Dedupe(kept) == Dedupe(wanted) && Keys(kept) == Keys(wanted) && FirstRowsDecide(date, rows)
    ensures Dedupe(kept + OnDate(date, Dedupe(rows))) == Dedupe(wanted + OnDate(date, rows))
    ensures Keys(kept + OnDate(date, Dedupe(rows))) == Keys(wanted + OnDate(date, rows))
  {
    FilterDedupe(date, rows);
    hide FirstOf, Keys, OnDate, FirstRowsDecide;
    FirstOfConcat({}, kept, OnDate(date, Dedupe(rows)));
    FirstOfConcat({}, wanted, OnDate(date, rows));
    FirstOfTwice({} + Keys(wanted), OnDate(date, rows));
  }

  lemma {:induction false} KeptIsPlain(listing: Listing, date: Option<int>, n: nat)
    requires PagesAgree(listing, date, n)
    ensures Dedupe(Kept(listing, date, n)) == Plain(listing, date, n)
    ensures Keys(Kept(listing, date, n)) == Keys(WantedRows(listing, date, n))
  {
    hide Keys, OnDate, Usable, Dedupe, FirstOf, FirstRowsDecide, RowsAt;
    if n > 0 {
      KeptIsPlain(listing, date, n - 1);
      assert FirstRowsDecide(date, RowsAt(listing, n));
      OnePageMore(Kept(listing, date, n - 1), WantedRows(listing, date, n - 1), date, RowsAt(listing, n));
    }
  }

  lemma {:induction false} NothingNew(seen: set<string>, items: seq<Item>)
    ensures FirstOf(seen, items) == [] <==> Keys(items) <= seen
  {
    if items != [] {
      NothingNew(seen, items[..|items| - 1]);
    }
  }

  /** The rows wanted on pages m+1..n. */
  function WantedAfter(listing: Listing, date: Option<int>, m: nat, n: nat): seq<Item>
    requires m <= n
  {
    if n == m then [] else WantedAfter(listing, date, m, n - 1) + OnDate(date, RowsAt(listing, n))
  }

  lemma {:induction false} WantedSplit(listing: Listing, date: Option<int>, m: nat, n: nat)
    requires m <= n
    ensures WantedRows(listing, date, n) == WantedRows(listing, date, m) + WantedAfter(listing, date, m, n)
  {
    if n > m {
      WantedSplit(listing, date, m, n - 1);
    }
  }

  /** Where filtering and deduplicating can be exchanged, the crawl that stops after page `m` returns
      what the plain crawl of `n` pages returns if and only if every url wanted later is wanted before. */
  lemma SameAsPlainExactly(listing: Listing, date: Option<int>, m: nat, n: nat)
    requires m <= n && PagesAgree(listing, date, n)
    ensures Dedupe(Kept(listing, date, m)) == Plain(listing, date, n) <==>
            Keys(WantedAfter(listing, date, m, n)) <= Keys(WantedRows(listing, date, m))
  {
    KeptIsPlain(listing, date, m);
    WantedSplit(listing, date, m, n);
    var before, after := WantedRows(listing, date, m), WantedAfter(listing, date, m, n);
    FirstOfConcat({}, before, after);
    assert {} + Keys(before) == Keys(before);
    NothingNew(Keys(before), after);
  }

  /** Page `i` has a wanted row with key `k`. */
  ghost predicate WantedOn(listing: Listing, date: Option<int>, i: nat, k: string) {
    exists r :: WantedAt(date, RowsAt(listing, i), k, r)
  }

  /** The first row with key `k` on page `i` is a wanted one. */
  ghost predicate ShownOn(listing: Listing, date: Option<int>, i: nat, k: string) {
    exists f :: ShownAt(date, RowsAt(listing, i), k, f)
  }

  lemma {:induction false} WantedUpTo(listing: Listing, date: Option<int>, n: nat, k: string)
    ensures k in Keys(WantedRows(listing, date, n)) <==> exists i: nat :: 1 <= i <= n && WantedOn(listing, date, i, k)
  {
    FirstOfNothing({});
    hide WantedOn, RowsAt, OnDate, Keys, FirstOf, Dedupe;
    if n > 0 {
      WantedUpTo(listing, date, n - 1, k);
      FirstOfConcat({}, WantedRows(listing, date, n - 1), OnDate(date, RowsAt(listing, n)));
      WantedOnPage(listing, date, n, k);
    }
  }

  lemma {:induction false} ShownUpTo(listing: Listing, date: Option<int>, n: nat, k: string)
    ensures k in Keys(Kept(listing, date, n)) <==> exists i: nat :: 1 <= i <= n && ShownOn(listing, date, i, k)
  {
    FirstOfNothing({});
    hide ShownOn, RowsAt, OnDate, Keys, FirstOf, Dedupe;
    if n > 0 {
      ShownUpTo(listing, date, n - 1, k);
      FirstOfConcat({}, Kept(listing, date, n - 1), OnDate(date, Dedupe(RowsAt(listing, n))));
      WantedOnPage(listing, date, n, k);
    }
  }

  lemma WantedOnPage(listing: Listing, date: Option<int>, i: nat, k: string)
    ensures k in Keys(OnDate(date, RowsAt(listing, i))) <==> WantedOn(listing, date, i, k)
    ensures k in Keys(OnDate(date, Dedupe(RowsAt(listing, i)))) <==> ShownOn(listing, date, i, k)
  {
    WantedKeys(date, RowsAt(listing, i), k);
    ShownKeys(date, RowsAt(listing, i), k);
  }

  /** On any listing whatever, the crawl that stops after page `m` finds the urls that the plain crawl of
      `n` pages finds if and only if each of them is, on one of the first `m` pages, wanted at its first
      row. */
  lemma SameUrlsExactly(listing: Listing, date: Option<int>, m: nat, n: nat)
    requires m <= n
    ensures Keys(Dedupe(Kept(listing, date, m))) == Keys(Plain(listing, date, n)) <==>
            forall j: nat, k :: 1 <= j <= n && WantedOn(listing, date, j, k) ==>
              exists i: nat :: 1 <= i <= m && ShownOn(listing, date, i, k)
  {
    hide WantedOn, ShownOn;
    DedupeKeys(Kept(listing, date, m));
    DedupeKeys(WantedRows(listing, date, n));
    hide Dedupe, Keys, Kept, WantedRows;
    var shown, wanted := Keys(Kept(listing, date, m)), Keys(WantedRows(listing, date, n));
    forall k ensures k in shown ==> k in wanted {
      ShownUpTo(listing, date, m, k);
      WantedUpTo(listing, date, n, k);
      if i: nat :| 1 <= i <= m && ShownOn(listing, date, i, k) {
        ShownIsWanted(listing, date, i, k);
      }
    }
    if shown == wanted {
      forall j: nat, k | 1 <= j <= n && WantedOn(listing, date, j, k)
        ensures exists i: nat :: 1 <= i <= m && ShownOn(listing, date, i, k)
      {
        WantedUpTo(listing, date, n, k);
        ShownUpTo(listing, date, m, k);
      }
    }
    if forall j: nat, k :: 1 <= j <= n && WantedOn(listing, date, j, k) ==>
         exists i: nat :: 1 <= i <= m && ShownOn(listing, date, i, k)
    {
      forall k ensures k in wanted ==> k in shown {
        WantedUpTo(listing, date, n, k);
        ShownUpTo(listing, date, m, k);
      }
      assert shown == wanted;
    }
  }

  lemma ShownIsWanted(listing: Listing, date: Option<int>, i: nat, k: string)
    requires ShownOn(listing, date, i, k)
    ensures WantedOn(listing, date, i, k)
  {
    var f :| ShownAt(date, RowsAt(listing, i), k, f);
    assert WantedAt(date, RowsAt(listing, i), k, f);
  }

  /** A page that lists a url first without the wanted date and then with it: the crawl loses the url. */
  lemma PageLosesUrl(a: Item, b: Item, date: int)
    requires a.key == b.key && a.date == None && b.date == Some(date)
    ensures var listing := [Returns(Page([Row(a, true), Row(b, true)], None))];
            && LastPage(listing, Some(date), true, 1, 1) == Returns(1)
            && Dedupe(Kept(listing, Some(date), 1)) == [] && Plain(listing, Some(date), 1) == [b]
  {
    var page := Page([Row(a, true), Row(b, true)], None);
    var listing := [Returns(page)];
    assert page.rows[..1] == [Row(a, true)] && [Row(a, true)][..0] == [];
    assert Usable([Row(a, true)]) == [a] && Usable(page.rows) == [a] + [b];
    assert [a][..0] == [] && ([a] + [b])[..1] == [a];
    FirstOfNothing({});
    FirstOfNext({}, [], a);
    FirstOfNext({}, [a], b);
    FirstOfNext({}, [], b);
    assert [] + [a] == [a] && [] + [b] == [b];
    assert Dedupe([a]) == [a] && Dedupe([a] + [b]) == [a];
    assert OnDate(Some(date), [a]) == [] && OnDate(Some(date), [a] + [b]) == [] + [b];
    assert [b][..0] == [] && Dedupe([b]) == [b];
    assert Kept(listing, Some(date), 0) == [] && Kept(listing, Some(date), 1) == [] + [];
    assert WantedRows(listing, Some(date), 0) == [] && WantedRows(listing, Some(date), 1) == [] + [b];
    assert DatesOf([a]) == [];
  }

  /** No dated row of a later page is newer than a dated row of an earlier page. */
  ghost predicate Descending(listing: Listing, n: nat) {
    forall i, j, x, y ::
      1 <= i < j <= n && x in RowsAt(listing, i) && y in RowsAt(listing, j) && x.date.Some? && y.date.Some? ==>
        x.date.value >= y.date.value
  }

  ghost predicate NoEarlyEmptyPage(listing: Listing, n: nat) {
    forall i :: 1 <= i < n ==> RowsAt(listing, i) != []
  }

  lemma {:induction false} DatesIn(items: seq<Item>, d: int)
    ensures d in DatesOf(items) <==> exists x :: x in items && x.date == Some(d)
  {
    if items != [] {
      DatesIn(items[..|items| - 1], d);
      if x :| x in items && x.date == Some(d) && x != items[|items| - 1] {
        assert x in items[..|items| - 1];
      }
    }
  }

  lemma {:induction false} OnDateNone(date: Option<int>, items: seq<Item>)
    requires forall x :: x in items ==> !Wanted(date, x)
    ensures OnDate(date, items) == []
  {
    if items != [] {
      OnDateNone(date, items[..|items| - 1]);
    }
  }

  /** A page that lies before the wanted date has a dated row older than that. */
  lemma PastHasOldRow(date: Option<int>, p: Page) returns (x: Item)
    requires Past(date, p)
    ensures x in Usable(p.rows) && x.date.Some? && x.date.value < date.value
  {
    var dates := DatesOf(Parse(p));
    DatesIn(Parse(p), dates[0]);
    SeenFlagIsIrrelevant(dates, date, false);
    x :| x in Parse(p) && x.date == Some(dates[0]);
    DedupeKeepsFirst(Usable(p.rows), x);
  }

  lemma NothingWantedAfterPast(listing: Listing, date: Option<int>, m: nat, j: nat, n: nat)
    requires 1 <= m < j <= n && Descending(listing, n)
    requires PageAt(listing, m).Returns? && Past(date, PageAt(listing, m).value)
    ensures OnDate(date, RowsAt(listing, j)) == []
  {
    var x := PastHasOldRow(date, PageAt(listing, m).value);
    forall y | y in RowsAt(listing, j) ensures !Wanted(date, y) {
      assert x in RowsAt(listing, m);
    }
    OnDateNone(date, RowsAt(listing, j));
  }

  lemma {:induction false} NoneAfter(listing: Listing, date: Option<int>, m: nat, n: nat)
    requires m <= n && forall j :: m < j <= n ==> OnDate(date, RowsAt(listing, j)) == []
    ensures WantedAfter(listing, date, m, n) == []
  {
    hide OnDate, RowsAt;
    if n > m {
      NoneAfter(listing, date, m, n - 1);
      assert OnDate(date, RowsAt(listing, n)) == [];
    }
  }

  lemma EmptyParse(p: Page)
    ensures Parse(p) == [] <==> Usable(p.rows) == []
  {
    DedupeKeys(Usable(p.rows));
    if Usable(p.rows) != [] {
      KeyAt(Usable(p.rows), Usable(p.rows)[0].key);
      assert Usable(p.rows)[0].key in Keys(Parse(p));
    }
  }

  /** The page limit in force after the first `k` pages of a complete-date crawl. */
  function LimitAfter(listing: Listing, limit: int, k: nat): int {
    if k == 0 then limit
    else if PageAt(listing, k).Returns? then Shrunk(true, LimitAfter(listing, limit, k - 1), PageAt(listing, k).value)
    else LimitAfter(listing, limit, k - 1)
  }

  /** The page announces `count` pages. */
  predicate Announces(listing: Listing, i: nat, count: int) {
    PageAt(listing, i).Returns? && PageAt(listing, i).value.pagesCount == Some(count)
  }

  /** The limit in force is the least of the first limit and the positive counts announced so far. */
  lemma {:induction false} LimitIsLeast(listing: Listing, limit: int, k: nat)
    ensures LimitAfter(listing, limit, k) <= limit
    ensures forall i, c :: 1 <= i <= k && Announces(listing, i, c) && c > 0 ==> LimitAfter(listing, limit, k) <= c
    ensures LimitAfter(listing, limit, k) == limit ||
            exists i :: 1 <= i <= k && Announces(listing, i, LimitAfter(listing, limit, k))
  {
    if k > 0 {
      LimitIsLeast(listing, limit, k - 1);
      var before, now := LimitAfter(listing, limit, k - 1), LimitAfter(listing, limit, k);
      if now != before {
        assert Announces(listing, k, now);
      } else if i :| 1 <= i <= k - 1 && Announces(listing, i, before) {
        assert Announces(listing, i, now);
      }
    }
  }

  /** The loop goes on behind page `k`: the page has rows, is not entirely before the wanted date of a
      complete-date crawl, and the limit in force, which only such a crawl shrinks, is not reached. */
  ghost predicate GoesOn(listing: Listing, date: Option<int>, complete: bool, limit: int, k: nat) {
    && RowsAt(listing, k) != []
    && k < (if complete then LimitAfter(listing, limit, k) else limit)
    && !(complete && date.Some? && (exists x :: x in Parsed(listing, k) && x.date.Some?)
         && forall x :: x in Parsed(listing, k) && x.date.Some? ==> x.date.value < date.value)
  }

  function Parsed(listing: Listing, k: nat): seq<Item> {
    Dedupe(RowsAt(listing, k))
  }

  lemma GoesOnIs(listing: Listing, date: Option<int>, complete: bool, limit: int, k: nat)
    requires PageAt(listing, k).Returns?
    ensures var p := PageAt(listing, k).value;
            GoesOn(listing, date, complete, limit, k) <==>
            && Parse(p) != [] && !(complete && Past(date, p))
            && k < (if complete then LimitAfter(listing, limit, k) else limit)
  {
    hide Usable, Dedupe, LimitAfter;
    var p := PageAt(listing, k).value;
    EmptyParse(p);
    var dates := DatesOf(Parse(p));
    SeenFlagIsIrrelevant(dates, date, false);
    forall x | x in Parse(p) && x.date.Some? ensures x.date.value in dates { DatesIn(Parse(p), x.date.value); }
    forall d | d in dates ensures exists x :: x in Parse(p) && x.date == Some(d) { DatesIn(Parse(p), d); }
    if dates != [] {
      assert dates[0] in dates;
    }
  }

  /** Which page is the last: the crawl goes on behind every earlier one and not behind this one. */
  lemma {:induction false} LastPageExactly(listing: Listing, date: Option<int>, complete: bool, limit: int, n: nat,
                                           m: nat)
    requires 1 <= n <= m && n <= if complete then LimitAfter(listing, limit, n - 1) else limit
    ensures LastPage(listing, date, complete, n, if complete then LimitAfter(listing, limit, n - 1) else limit)
            == Returns(m) <==>
            && (forall k :: n <= k <= m ==> PageAt(listing, k).Returns?)
            && (forall k :: n <= k < m ==> GoesOn(listing, date, complete, limit, k))
            && !GoesOn(listing, date, complete, limit, m)
    decreases m - n
  {
    hide GoesOn, Parse, Past;
    if PageAt(listing, n).Returns? {
      GoesOnIs(listing, date, complete, limit, n);
      if GoesOn(listing, date, complete, limit, n) && n < m {
        LastPageExactly(listing, date, complete, limit, n + 1, m);
      }
    }
  }

  /** The number of pages that the limits allow, whatever counts the pages announce, searched from page
      `k` on: the first page number that the limit in force does not let pass. */
  function Horizon(listing: Listing, limit: int, k: nat): (n: nat)
    ensures k <= n && n >= LimitAfter(listing, limit, n)
    ensures forall j :: k <= j < n ==> j < LimitAfter(listing, limit, j)
    decreases LimitAfter(listing, limit, k) - k
  {
    if k >= LimitAfter(listing, limit, k) then k else Horizon(listing, limit, k + 1)
  }

  ghost predicate Answered(listing: Listing, n: nat) {
    forall i :: 1 <= i <= n ==> PageAt(listing, i).Returns?
  }

  /** From page `k` on, the crawl stops within the horizon and leaves no wanted row behind. */
  lemma {:induction false} StopsInTime(listing: Listing, date: Option<int>, limit: int, k: nat)
    requires 1 <= k <= Horizon(listing, limit, 0)
    requires var n := Horizon(listing, limit, 0);
             Answered(listing, n) && Descending(listing, n) && NoEarlyEmptyPage(listing, n)
    ensures var n, last := Horizon(listing, limit, 0),
                         LastPage(listing, date, true, k, LimitAfter(listing, limit, k - 1));
            last.Returns? && k <= last.value <= n && WantedAfter(listing, date, last.value, n) == []
    decreases Horizon(listing, limit, 0) - k
  {
    hide DatesOf, IsPastTargetDatePage, Usable, Descending, Horizon;
    var n, p := Horizon(listing, limit, 0), PageAt(listing, k).value;
    EmptyParse(p);
    assert RowsAt(listing, k) == Usable(p.rows);
    assert k - 1 < LimitAfter(listing, limit, k - 1);
    if Parse(p) == [] {
      assert k == n;
    } else if Past(date, p) {
      forall j | k < j <= n ensures OnDate(date, RowsAt(listing, j)) == [] {
        NothingWantedAfterPast(listing, date, k, j, n);
      }
      NoneAfter(listing, date, k, n);
    } else if k < LimitAfter(listing, limit, k) {
      StopsInTime(listing, date, limit, k + 1);
    }
  }

  /** The complete-date crawl equals the plain one: on a listing whose dated rows descend from page to
      page, with no empty page before the last, it returns the first occurrences of all rows of the
      wanted date on the pages that the page limit and the announced counts allow. */
  lemma CompleteCrawlIsPlain(listing: Listing, date: Option<int>, limit: int)
    requires date.Some?
    requires var n := Horizon(listing, limit, 0);
             Answered(listing, n) && Descending(listing, n) &&
             NoEarlyEmptyPage(listing, n) && PagesAgree(listing, date, n)
    ensures var last := LastPage(listing, date, true, 1, limit);
            last.Returns? && Dedupe(Kept(listing, date, last.value)) == Plain(listing, date, Horizon(listing, limit, 0))
  {
    var n := Horizon(listing, limit, 0);
    if n > 0 {
      assert 0 < LimitAfter(listing, limit, 0);
      StopsInTime(listing, date, limit, 1);
      SameAsPlainExactly(listing, date, LastPage(listing, date, true, 1, limit).value, n);
    } else {
      assert 0 >= LimitAfter(listing, limit, 0);
    }
  }

  /** The same number of pages is announced on each of the first `n`. */
  ghost predicate Steady(listing: Listing, n: nat, count: Option<int>) {
    forall i :: 1 <= i <= n ==> PageAt(listing, i).Returns? && PageAt(listing, i).value.pagesCount == count
  }

  function PagesWithin(limit: int, count: Option<int>): nat {
    Max(0, Shrunk(true, limit, Page([], count)))
  }

  lemma {:induction false} SteadyLimit(listing: Listing, limit: int, count: Option<int>, k: nat)
    requires Steady(listing, k, count)
    ensures LimitAfter(listing, limit, k) == if k == 0 then limit else Shrunk(true, limit, Page([], count))
  {
    if k > 0 {
      SteadyLimit(listing, limit, count, k - 1);
    }
  }

  /** With one announced count the crawl covers min(limit, count) pages. */
  lemma SteadyHorizon(listing: Listing, limit: int, count: Option<int>)
    requires Steady(listing, Max(0, if count.Some? && count.value > 0 then Min(limit, count.value) else limit), count)
    ensures Horizon(listing, limit, 0) ==
            Max(0, if count.Some? && count.value > 0 then Min(limit, count.value) else limit)
  {
    var n, h := PagesWithin(limit, count), Horizon(listing, limit, 0);
    hide Horizon, LimitAfter;
    SteadyLimit(listing, limit, count, n);
    SteadyLimit(listing, limit, count, 0);
    if h < n { SteadyLimit(listing, limit, count, h); }
  }

  /** A crawl of at most `maxPages` pages, with or without a date, has no early stop but the empty page. */
  lemma {:induction false} BoundedStop(listing: Listing, date: Option<int>, k: nat, n: nat)
    requires 1 <= k <= n && (forall i :: k <= i <= n ==> PageAt(listing, i).Returns?) && NoEarlyEmptyPage(listing, n)
    ensures LastPage(listing, date, false, k, n) == Returns(n)
    decreases n - k
  {
    EmptyParse(PageAt(listing, k).value);
    assert RowsAt(listing, k) == Usable(PageAt(listing, k).value.rows);
    if k < n && Parse(PageAt(listing, k).value) != [] {
      BoundedStop(listing, date, k + 1, n);
    }
  }

  lemma BoundedCrawlIsPlain(listing: Listing, date: Option<int>, n: nat)
    requires n >= 1 && Answered(listing, n)
    requires NoEarlyEmptyPage(listing, n) && PagesAgree(listing, date, n)
    ensures var last := LastPage(listing, date, false, 1, n);
            last.Returns? && Dedupe(Kept(listing, date, last.value)) == Plain(listing, date, n)
  {
    BoundedStop(listing, date, 1, n);
    KeptIsPlain(listing, date, n);
  }
}
