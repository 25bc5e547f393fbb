/** The tender database: candidate rows and notices, both unique by url, and the four
    statements that change them. Every statement is one atomic write, so a run is a log
    of writes and a crash at any await leaves the state after a prefix of that log. */
module TenderStore {
  import opened Common

  type Url = string

  datatype Status = Pending | Accepted | Rejected

  datatype Decision = Decision(isRelevant: bool, reason: string, source: string)

  /** `key` is the stripped, lower-cased url under which batch decisions are filed;
      two different urls may share a key. */
  datatype Candidate = Candidate(url: Url, key: string, title: string)

  datatype Row = Row(candidate: Candidate, status: Status, reason: string, source: string)

  /** `head` stands for the columns that an upsert never rewrites (notice type, region,
      publish date, filter reason, ...), `body` for those it refreshes. */
  datatype Notice = Notice(head: string, body: string)

  /** `order` is the primary key order of the candidate table. The ids of notices depend on
      the order in which workers finish, so notices carry none. */
  datatype Db = Db(order: seq<Url>, rows: map<Url, Row>, notices: map<Url, Notice>)

  /** Everything the database holds about one url. */
  datatype Cell = Cell(row: Option<Row>, notice: Option<Notice>)

  datatype Write =
    | Insert(candidate: Candidate, decision: Option<Decision>)
    | Decide(url: Url, verdict: Decision)
    | Put(url: Url, notice: Notice)
    | Drop(url: Url)

  ghost predicate Valid(db: Db) {
    && Distinct(db.order)
    && (forall u :: u in db.order <==> u in db.rows)
    && (forall u :: u in db.rows ==> db.rows[u].candidate.url == u)
  }

  function At(db: Db, u: Url): Cell {
    Cell(if u in db.rows then Some(db.rows[u]) else None,
         if u in db.notices then Some(db.notices[u]) else None)
  }

  function StatusOf(d: Option<Decision>): Status {
    if d.None? then Pending else if d.value.isRelevant then Accepted else Rejected
  }

  function NewRow(c: Candidate, d: Option<Decision>): Row {
    Row(c, StatusOf(d),
        if d.Some? then d.value.reason else "", if d.Some? then d.value.source else "")
  }

  function Decided(row: Row, d: Decision): Row {
    row.(status := StatusOf(Some(d)), reason := d.reason, source := d.source)
  }

  function Merged(old_: Option<Notice>, n: Notice): Notice {
    if old_.Some? then Notice(old_.value.head, n.body) else n
  }

  function Target(w: Write): Url {
    if w.Insert? then w.candidate.url else w.url
  }

  function Apply(db: Db, w: Write): Db {
    match w
    case Insert(c, d) =>
      if c.url in db.rows then db
      else db.(order := db.order + [c.url], rows := db.rows[c.url := NewRow(c, d)])
    case Decide(u, d) =>
      if u in db.rows then db.(rows := db.rows[u := Decided(db.rows[u], d)]) else db
    case Put(u, n) =>
      db.(notices := db.notices[u := Merged(if u in db.notices then Some(db.notices[u]) else None, n)])
    case Drop(u) => db.(notices := db.notices - {u})
  }

  function ApplyAll(db: Db, ws: seq<Write>): Db {
    if ws == [] then db else Apply(ApplyAll(db, ws[..|ws| - 1]), ws[|ws| - 1])
  }

  /** The effect of a write on the cell of its target. */
  function ApplyCell(c: Cell, w: Write): Cell {
    match w
    case Insert(candidate, d) => if c.row.Some? then c else c.(row := Some(NewRow(candidate, d)))
    case Decide(_, d) => if c.row.Some? then c.(row := Some(Decided(c.row.value, d))) else c
    case Put(_, n) => c.(notice := Some(Merged(c.notice, n)))
    case Drop(_) => c.(notice := None)
  }

  /** The effect of a log on the cell of `u`: writes to other urls are skipped. */
  function CellAll(c: Cell, u: Url, ws: seq<Write>): Cell {
    if ws == [] then c
    else
      var before := CellAll(c, u, ws[..|ws| - 1]);
      if Target(ws[|ws| - 1]) == u then ApplyCell(before, ws[|ws| - 1]) else before
  }

  lemma ApplyAllAppend(db: Db, ws: seq<Write>, w: Write)
    ensures ApplyAll(db, ws + [w]) == Apply(ApplyAll(db, ws), w)
  {
  }

  lemma CellAllAppend(c: Cell, u: Url, ws: seq<Write>, w: Write)
    ensures CellAll(c, u, ws + [w]) ==
            if Target(w) == u then ApplyCell(CellAll(c, u, ws), w) else CellAll(c, u, ws)
  {
  }

  lemma CellOne(c: Cell, u: Url, w: Write)
    requires Target(w) == u
    ensures CellAll(c, u, []) == c && CellAll(c, u, [w]) == ApplyCell(c, w)
  {
  }

  lemma CellTwo(c: Cell, u: Url, v: Write, w: Write)
    requires Target(v) == Target(w) == u
    ensures CellAll(c, u, [v, w]) == ApplyCell(ApplyCell(c, v), w)
  {
    CellOne(c, u, v);
    CellAllAppend(c, u, [v], w);
    assert [v] + [w] == [v, w];
  }

  lemma {:induction false} ApplyAllConcat(db: Db, xs: seq<Write>, ys: seq<Write>)
    ensures ApplyAll(db, xs + ys) == ApplyAll(ApplyAll(db, xs), ys)
  {
    if ys == [] {
      assert xs + ys == xs;
    } else {
      ApplyAllConcat(db, xs, ys[..|ys| - 1]);
      assert (xs + ys)[..|xs + ys| - 1] == xs + ys[..|ys| - 1];
    }
  }

  lemma {:induction false} CellAllConcat(c: Cell, u: Url, xs: seq<Write>, ys: seq<Write>)
    ensures CellAll(c, u, xs + ys) == CellAll(CellAll(c, u, xs), u, ys)
  {
    if ys == [] {
      assert xs + ys == xs;
    } else {
      CellAllConcat(c, u, xs, ys[..|ys| - 1]);
      assert (xs + ys)[..|xs + ys| - 1] == xs + ys[..|ys| - 1];
    }
  }

  /** A log that never names `u` leaves its cell alone. */
  lemma {:induction false} CellUntouched(c: Cell, u: Url, ws: seq<Write>)
    requires forall w :: w in ws ==> Target(w) != u
    ensures CellAll(c, u, ws) == c
  {
    if ws != [] {
      CellUntouched(c, u, ws[..|ws| - 1]);
    }
  }

  /** Every url evolves on its own: the database after a log is the log applied cell by cell. */
  lemma {:induction false} AtApplyAll(db: Db, ws: seq<Write>, u: Url)
    ensures At(ApplyAll(db, ws), u) == CellAll(At(db, u), u, ws)
  {
    if ws != [] {
      AtApplyAll(db, ws[..|ws| - 1], u);
    }
  }

  lemma ApplyValid(db: Db, w: Write)
    requires Valid(db)
    ensures Valid(Apply(db, w))
  {
  }

  lemma {:induction false} ApplyAllValid(db: Db, ws: seq<Write>)
    requires Valid(db)
    ensures Valid(ApplyAll(db, ws))
  {
    if ws != [] {
      ApplyAllValid(db, ws[..|ws| - 1]);
    }
  }

  lemma {:induction false} OrderKept(db: Db, ws: seq<Write>)
    requires forall w :: w in ws ==> !w.Insert?
    ensures ApplyAll(db, ws).order == db.order
    ensures ApplyAll(db, ws).rows.Keys == db.rows.Keys
  {
    if ws != [] {
      OrderKept(db, ws[..|ws| - 1]);
    }
  }

  /** The part of a log that names `u`. */
  function Only(u: Url, ws: seq<Write>): seq<Write> {
    if ws == [] then []
    else if Target(ws[|ws| - 1]) == u then Only(u, ws[..|ws| - 1]) + [ws[|ws| - 1]]
    else Only(u, ws[..|ws| - 1])
  }

  lemma {:induction false} OnlyConcat(u: Url, xs: seq<Write>, ys: seq<Write>)
    ensures Only(u, xs + ys) == Only(u, xs) + Only(u, ys)
  {
    if ys == [] {
      assert xs + ys == xs;
    } else {
      OnlyConcat(u, xs, ys[..|ys| - 1]);
      assert (xs + ys)[..|xs + ys| - 1] == xs + ys[..|ys| - 1];
    }
  }

  lemma {:induction false} OnlyNone(u: Url, ws: seq<Write>)
    requires forall w :: w in ws ==> Target(w) != u
    ensures Only(u, ws) == []
  {
    if ws != [] {
      OnlyNone(u, ws[..|ws| - 1]);
    }
  }

  lemma {:induction false} OnlyAll(u: Url, ws: seq<Write>)
    requires forall w :: w in ws ==> Target(w) == u
    ensures Only(u, ws) == ws
  {
    if ws != [] {
      OnlyAll(u, ws[..|ws| - 1]);
    }
  }

  lemma {:induction false} CellOnly(c: Cell, u: Url, ws: seq<Write>)
    ensures CellAll(c, u, ws) == CellAll(c, u, Only(u, ws))
  {
    if ws != [] {
      var w := ws[|ws| - 1];
      CellOnly(c, u, ws[..|ws| - 1]);
      if Target(w) == u {
        CellAllAppend(c, u, Only(u, ws[..|ws| - 1]), w);
      }
    }
  }

  /** A crash during a log leaves, for each url, a prefix of that url's own writes. */
  lemma EveryStepByUrl(db: Db, ws: seq<Write>, k: nat, u: Url)
    requires k <= |ws|
    ensures exists n :: 0 <= n <= |Only(u, ws)| &&
              At(ApplyAll(db, ws[..k]), u) == CellAll(At(db, u), u, Only(u, ws)[..n])
  {
    AtApplyAll(db, ws[..k], u);
    CellOnly(At(db, u), u, ws[..k]);
    OnlyConcat(u, ws[..k], ws[k..]);
    assert ws == ws[..k] + ws[k..];
    var n := |Only(u, ws[..k])|;
    assert Only(u, ws)[..n] == Only(u, ws[..k]);
  }

  /** The final cell of a url is decided by its own writes alone. */
  lemma FinalByUrl(db: Db, ws: seq<Write>, u: Url)
    ensures At(ApplyAll(db, ws), u) == CellAll(At(db, u), u, Only(u, ws))
  {
    AtApplyAll(db, ws, u);
    CellOnly(At(db, u), u, ws);
  }

  /** Two databases that agree on the row order and on every cell are equal. */
  lemma SameDb(a: Db, b: Db)
    requires a.order == b.order && forall u :: At(a, u) == At(b, u)
    ensures a == b
  {
    forall u ensures u in a.rows <==> u in b.rows
             ensures u in a.notices <==> u in b.notices
             ensures u in a.rows ==> a.rows[u] == b.rows[u]
             ensures u in a.notices ==> a.notices[u] == b.notices[u]
    {
      assert At(a, u) == At(b, u);
    }
    assert a.rows == b.rows && a.notices == b.notices;
  }

  // ---------------------------------------------------------------- invariants

  /** A notice belongs to an accepted candidate. */
  predicate NoticeAccepted(c: Cell) {
    c.notice.Some? ==> c.row.Some? && c.row.value.status == Accepted
  }

  /** A notice belongs to a candidate that has been decided. */
  predicate NoticeDecided(c: Cell) {
    c.notice.Some? ==> c.row.Some? && c.row.value.status != Pending
  }

  /** An invariant between the two: it holds where a notice is accepted, and it never lets a
      pending or unknown candidate hold one. */
  ghost predicate Between(ok: Cell -> bool) {
    forall c :: (NoticeAccepted(c) ==> ok(c)) && (ok(c) ==> NoticeDecided(c))
  }

  ghost predicate Everywhere(db: Db, ok: Cell -> bool) {
    forall u :: ok(At(db, u))
  }

  /** A property of every state that a crash during the log `ws` could leave behind. */
  ghost predicate AtEveryStep(db: Db, ws: seq<Write>, ok: Cell -> bool) {
    forall k :: 0 <= k <= |ws| ==> Everywhere(ApplyAll(db, ws[..k]), ok)
  }

  /** It suffices to look at each url's own writes. */
  lemma AtEveryStepByUrl(db: Db, ws: seq<Write>, ok: Cell -> bool)
    requires forall u, n :: 0 <= n <= |Only(u, ws)| ==> ok(CellAll(At(db, u), u, Only(u, ws)[..n]))
    ensures AtEveryStep(db, ws, ok)
  {
    forall k, u | 0 <= k <= |ws| ensures ok(At(ApplyAll(db, ws[..k]), u)) {
      EveryStepByUrl(db, ws, k, u);
    }
  }

  // ---------------------------------------------------------------- queries

  function Select(db: Db, order: seq<Url>, wanted: Cell -> bool): (r: seq<Url>)
    ensures forall u :: u in r <==> u in order && wanted(At(db, u))
    ensures |r| <= |order|
  {
    if order == [] then []
    else
      var u := order[|order| - 1];
      Select(db, order[..|order| - 1], wanted) + (if wanted(At(db, u)) then [u] else [])
  }

  lemma {:induction false} SelectDistinct(db: Db, order: seq<Url>, wanted: Cell -> bool)
    requires Distinct(order)
    ensures Distinct(Select(db, order, wanted))
  {
    if order != [] {
      SelectDistinct(db, order[..|order| - 1], wanted);
    }
  }

  /** `u` stands before `v` in the table. */
  ghost predicate Earlier(order: seq<Url>, u: Url, v: Url) {
    exists p, q :: 0 <= p < q < |order| && order[p] == u && order[q] == v
  }

  lemma {:induction false} SelectOrdered(db: Db, order: seq<Url>, wanted: Cell -> bool, i: nat, j: nat)
    requires i < j < |Select(db, order, wanted)|
    ensures Earlier(order, Select(db, order, wanted)[i], Select(db, order, wanted)[j])
  {
    var before, last := order[..|order| - 1], order[|order| - 1];
    var found := Select(db, before, wanted);
    if j < |found| {
      SelectOrdered(db, before, wanted, i, j);
      var p, q :| 0 <= p < q < |before| && before[p] == found[i] && before[q] == found[j];
      assert order[p] == found[i] && order[q] == found[j];
    } else {
      assert found[i] in before;
      var p :| 0 <= p < |before| && before[p] == found[i];
      assert order[p] == found[i] && order[|order| - 1] == last;
    }
  }

  /** Those of some urls whose cell is such. */
  ghost function Among(db: Db, urls: seq<Url>, wanted: Cell -> bool): set<Url> {
    set u | u in urls && wanted(At(db, u))
  }

  lemma AmongNone(db: Db, urls: seq<Url>, wanted: Cell -> bool)
    ensures Among(db, urls[..0], wanted) == {}
  {
  }

  lemma AmongNext(db: Db, urls: seq<Url>, n: nat, wanted: Cell -> bool)
    requires n < |urls| && Distinct(urls)
    ensures |Among(db, urls[..n + 1], wanted)| ==
            |Among(db, urls[..n], wanted)| + if wanted(At(db, urls[n])) then 1 else 0
  {
    assert urls[..n + 1] == urls[..n] + [urls[n]];
    assert urls[n] !in Among(db, urls[..n], wanted);
    assert Among(db, urls[..n + 1], wanted) ==
           Among(db, urls[..n], wanted) + (if wanted(At(db, urls[n])) then {urls[n]} else {});
  }

  ghost function Wanted(db: Db, wanted: Cell -> bool): set<Url> {
    set u | u in db.rows && wanted(At(db, u))
  }

  /** A query with ORDER BY id and LIMIT returns the first of the wanted candidates: as many as the limit
      allows, in the order of the table, and none that is left out stands before one that is not. */
  lemma SelectsTheFirst(db: Db, limit: int, wanted: Cell -> bool)
    requires Valid(db)
    ensures var urls, all := Limited(Select(db, db.order, wanted), limit), Wanted(db, wanted);
            && |urls| == (if limit > 0 then Min(limit, |all|) else |all|)
            && (forall u :: u in urls ==> u in all)
            && (forall i, j :: 0 <= i < j < |urls| ==> Earlier(db.order, urls[i], urls[j]))
            && (forall i, v :: 0 <= i < |urls| && v in all && v !in urls ==> Earlier(db.order, urls[i], v))
  {
    var found := Select(db, db.order, wanted);
    var urls, all := Limited(found, limit), Wanted(db, wanted);
    SelectDistinct(db, db.order, wanted);
    DistinctSize(found);
    assert all == set u | u in found;
    assert forall i :: 0 <= i < |urls| ==> urls[i] == found[i];
    forall i, j | 0 <= i < j < |urls| ensures Earlier(db.order, urls[i], urls[j]) {
      SelectOrdered(db, db.order, wanted, i, j);
    }
    forall i, v | 0 <= i < |urls| && v in all && v !in urls ensures Earlier(db.order, urls[i], v) {
      assert v in found;
      var j :| 0 <= j < |found| && found[j] == v;
      assert j >= |urls|;
      SelectOrdered(db, db.order, wanted, i, j);
    }
  }

  predicate IsPending(c: Cell) { c.row.Some? && c.row.value.status == Pending }
  predicate IsAccepted(c: Cell) { c.row.Some? && c.row.value.status == Accepted }
  predicate IsRejected(c: Cell) { c.row.Some? && c.row.value.status == Rejected }
  predicate IsAcceptedMissing(c: Cell) {
    c.row.Some? && c.row.value.status == Accepted && c.notice.None?
  }
  predicate IsAcceptedWithNotice(c: Cell) {
    c.row.Some? && c.row.value.status == Accepted && c.notice.Some?
  }
  predicate IsRejectedWithNotice(c: Cell) {
    c.row.Some? && c.row.value.status == Rejected && c.notice.Some?
  }

  // ---------------------------------------------------------------- the repository object

  function Whole(ws: seq<Write>, k: nat): seq<Write> {
    if k <= |ws| then ws[..k] else ws
  }

  /** The database is the outcome of the log. The equation hides behind `Whole` so that it is
      unfolded only by LogExplains. */
  ghost predicate Explains(start: Db, log: seq<Write>, db: Db) {
    forall k {:trigger Whole(log, k)} :: k == |log| ==> ApplyAll(start, Whole(log, k)) == db
  }

  lemma LogExplains(start: Db, log: seq<Write>, db: Db)
    ensures Explains(start, log, db) <==> db == ApplyAll(start, log)
  {
    assert Whole(log, |log|) == log;
  }

  /** What was logged after `before` leads from the database of then to the one of now. */
  lemma LogThen(start: Db, before: seq<Write>, more: seq<Write>, db: Db, after: Db)
    requires Explains(start, before, db) && Explains(start, before + more, after)
    ensures after == ApplyAll(db, more)
  {
    LogExplains(start, before, db);
    LogExplains(start, before + more, after);
    ApplyAllConcat(start, before, more);
  }

  /** The repository: `log` is every write committed since `start`. A statement whose
      `fault` is set raises before it commits anything. */
  class Repository {
    var db: Db
    ghost const start: Db
    ghost var log: seq<Write>

    ghost predicate Ok()
      reads this
    {
      Valid(start) && Valid(db) && Explains(start, log, db)
    }

    constructor (initial: Db)
      requires Valid(initial)
      ensures Ok() && db == initial && start == initial && log == []
    {
      db, start, log := initial, initial, [];
      LogExplains(initial, [], initial);
    }

    method Commit(w: Write)
      requires Ok()
      modifies this
      ensures Ok() && log == old(log) + [w] && db == Apply(old(db), w)
    {
      LogExplains(start, log, db);
      ApplyAllAppend(start, log, w);
      db := Apply(db, w);
      log := log + [w];
      ApplyAllValid(start, log);
      LogExplains(start, log, db);
    }

    /** Insert-or-ignore by exact url; reports whether a row was inserted. */
    method SaveCandidate(c: Candidate, d: Option<Decision>, fault: bool) returns (isNew: Answer<bool>)
      requires Ok()
      modifies this
      ensures Ok()
      ensures fault ==> isNew.Raises? && log == old(log) && db == old(db)
      ensures !fault ==> isNew == Returns(c.url !in old(db).rows)
                         && log == old(log) + [Insert(c, d)] && db == Apply(old(db), Insert(c, d))
      ensures isNew == Returns(true) ==>
                && db.order == old(db).order + [c.url] && db.notices == old(db).notices
                && db.rows.Keys == old(db).rows.Keys + {c.url}
                && (forall u :: u in old(db).rows ==> db.rows[u] == old(db).rows[u])
                && db.rows[c.url].candidate == c
                && (d.None? ==> db.rows[c.url].status == Pending)
      ensures isNew != Returns(true) ==> db == old(db)
    {
      if fault {
        return Raises(StoreFault);
      }
      isNew := Returns(c.url !in db.rows);
      Commit(Insert(c, d));
    }

    method UpdateCandidateDecision(u: Url, d: Decision, fault: bool) returns (r: Answer<()>)
      requires Ok()
      modifies this
      ensures Ok()
      ensures fault ==> r.Raises? && log == old(log) && db == old(db)
      ensures !fault ==> r.Returns? && log == old(log) + [Decide(u, d)] && db == Apply(old(db), Decide(u, d))
      ensures db.order == old(db).order && db.notices == old(db).notices && db.rows.Keys == old(db).rows.Keys
      ensures forall v :: v in db.rows && v != u ==> db.rows[v] == old(db).rows[v]
      ensures !fault && u in db.rows ==>
                && db.rows[u].candidate == old(db).rows[u].candidate
                && db.rows[u].status == (if d.isRelevant then Accepted else Rejected)
                && db.rows[u].reason == d.reason && db.rows[u].source == d.source
    {
      if fault {
        return Raises(StoreFault);
      }
      Commit(Decide(u, d));
      r := Returns(());
    }

    method SaveNotice(u: Url, n: Notice, fault: bool) returns (r: Answer<()>)
      requires Ok()
      modifies this
      ensures Ok()
      ensures fault ==> r.Raises? && log == old(log) && db == old(db)
      ensures !fault ==> r.Returns? && log == old(log) + [Put(u, n)] && db == Apply(old(db), Put(u, n))
      ensures db.order == old(db).order && db.rows == old(db).rows
      ensures forall v :: v != u ==> At(db, v) == At(old(db), v)
      ensures !fault ==> u in db.notices && db.notices[u].body == n.body
                         && db.notices[u].head == (if u in old(db).notices then old(db).notices[u].head else n.head)
    {
      if fault {
        return Raises(StoreFault);
      }
      Commit(Put(u, n));
      r := Returns(());
    }

    method DeleteNotice(u: Url, fault: bool) returns (r: Answer<()>)
      requires Ok()
      modifies this
      ensures Ok()
      ensures fault ==> r.Raises? && log == old(log) && db == old(db)
      ensures !fault ==> r.Returns? && log == old(log) + [Drop(u)] && db == Apply(old(db), Drop(u))
      ensures db.order == old(db).order && db.rows == old(db).rows
      ensures forall v :: v != u ==> At(db, v) == At(old(db), v)
      ensures !fault ==> u !in db.notices
    {
      if fault {
        return Raises(StoreFault);
      }
      Commit(Drop(u));
      r := Returns(());
    }
  }
}
