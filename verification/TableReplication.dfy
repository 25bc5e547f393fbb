/** Replication of the session tables (deploy/postgres/backfill_session_tables.py): a recent copy,
    increments by id, by time or by active session, and a paged history fill. The source is fixed
    while a command runs. */
module TableReplication {
  import opened Common

  type Key = int
  type SessionId = string

  datatype TableId =
    | Sessions | SessionMessages | SessionResources | SessionResourceVersions | ScheduledTaskExecutions
    | ConversationCatalog | DrawioBoards | DrawioBoardVersions
    | SocialUsers | SocialSessionMappings | WeixinScanTasks | SocialReportResults

  datatype Mode = ById | ByTime | ByScope | Everything

  datatype Scope = Window | ActiveSessions | NoScope

  /** `changed` is the table's time_col, `scoped` its scope_col; `board` matters for board versions. */
  datatype Row = Row(session: Option<SessionId>, board: Key, created: int, scoped: int, changed: int, body: string)

  type Table = map<Key, Row>
  type Database = map<TableId, Table>

  function Tab(db: Database, t: TableId): Table {
    if t in db then db[t] else map[]
  }

  function ModeOf(t: TableId): Mode {
    match t
    case SessionMessages => ById
    case SessionResourceVersions => ByScope
    case SocialUsers => Everything
    case SocialSessionMappings => Everything
    case WeixinScanTasks => Everything
    case SocialReportResults => Everything
    case _ => ByTime
  }

  function ScopeOf(t: TableId): Scope {
    match t
    case Sessions => Window
    case ScheduledTaskExecutions => Window
    case SessionMessages => ActiveSessions
    case SessionResources => ActiveSessions
    case SessionResourceVersions => ActiveSessions
    case ConversationCatalog => ActiveSessions
    case _ => NoScope
  }

  /** The session of the row is one that was changed at or after `since`. */
  predicate Active(src: Database, r: Row, since: int) {
    r.session.Some? && exists k :: k in Tab(src, Sessions) && Tab(src, Sessions)[k].session == r.session
                                   && Tab(src, Sessions)[k].changed >= since
  }

  /** The WHERE clause of a table's scope. */
  predicate InScope(src: Database, t: TableId, r: Row, since: int) {
    match ScopeOf(t)
    case Window => r.scoped >= since
    case ActiveSessions => Active(src, r, since)
    case NoScope => true
  }

  function RecentRows(src: Database, t: TableId, cutoff: int): Table {
    map k | k in Tab(src, t) && InScope(src, t, Tab(src, t)[k], cutoff) :: Tab(src, t)[k]
  }

  /** What an increment selects from a table whose local copy is `dst`. */
  predicate Selected(src: Database, dst: Table, t: TableId, k: Key, since: int)
    requires k in Tab(src, t)
  {
    match ModeOf(t)
    case ById => forall m :: m in dst ==> m < k
    case ByTime => Tab(src, t)[k].changed > since
    case ByScope => InScope(src, t, Tab(src, t)[k], since)
    case Everything => true
  }

  function DeltaRows(src: Database, dst: Table, t: TableId, since: int): Table {
    map k | k in Tab(src, t) && Selected(src, dst, t, k, since) :: Tab(src, t)[k]
  }

  function DeltaTable(src: Database, dst: Table, t: TableId, since: int): Table {
    dst + DeltaRows(src, dst, t, since)
  }

  /** The rows that are due have the source's contents afterwards; every other key is as before. */
  ghost predicate Refreshed(src: Table, before: Table, after: Table, due: set<Key>) {
    && (forall k :: k in due ==> k in src && k in after && after[k] == src[k])
    && (forall k :: k !in due ==> (k in after <==> k in before) && (k in before ==> after[k] == before[k]))
  }

  /** The rows of a session that was changed at or after `since`. */
  ghost function OfActive(src: Database, t: TableId, since: int): set<Key> {
    set k | k in Tab(src, t) && Tab(src, t)[k].session.Some?
            && exists s :: s in Tab(src, Sessions) && Tab(src, Sessions)[s].session == Tab(src, t)[k].session
                           && Tab(src, Sessions)[s].changed >= since
  }

  /** The recent copy, table by table: by the scope column, by active session, or everything. */
  ghost predicate RecentByColumns(src: Database, rows: Table, t: TableId, cutoff: int) {
    && (t in {Sessions, ScheduledTaskExecutions} ==>
          Refreshed(Tab(src, t), map[], rows, set k | k in Tab(src, t) && Tab(src, t)[k].scoped >= cutoff))
    && (t in {SessionMessages, SessionResources, SessionResourceVersions, ConversationCatalog} ==>
          Refreshed(Tab(src, t), map[], rows, OfActive(src, t, cutoff)))
    && (t in {DrawioBoards, DrawioBoardVersions, SocialUsers, SocialSessionMappings, WeixinScanTasks,
              SocialReportResults}
        ==> Refreshed(Tab(src, t), map[], rows, Tab(src, t).Keys))
  }

  /** An increment, table by table: by the time column, by id above the largest local one, by active
      session, or everything. */
  ghost predicate DeltaByColumns(src: Database, before: Table, after: Table, t: TableId, since: int) {
    && (t in {Sessions, SessionResources, ScheduledTaskExecutions, ConversationCatalog, DrawioBoards,
              DrawioBoardVersions}
        ==> Refreshed(Tab(src, t), before, after, set k | k in Tab(src, t) && Tab(src, t)[k].changed > since))
    && (t == SessionMessages ==>
          Refreshed(Tab(src, t), before, after, set k | k in Tab(src, t) && forall m :: m in before ==> m < k))
    && (t == SessionResourceVersions ==> Refreshed(Tab(src, t), before, after, OfActive(src, t, since)))
    && (t in {SocialUsers, SocialSessionMappings, WeixinScanTasks, SocialReportResults} ==>
          Refreshed(Tab(src, t), before, after, Tab(src, t).Keys))
  }

  lemma RecentIs(src: Database, t: TableId, cutoff: int)
    ensures RecentByColumns(src, RecentRows(src, t, cutoff), t, cutoff)
  {
  }

  lemma DeltaIs(src: Database, dst: Table, t: TableId, since: int)
    ensures DeltaByColumns(src, dst, DeltaTable(src, dst, t, since), t, since)
  {
    TakesOver(Tab(src, t), dst, DeltaRows(src, dst, t, since));
    DueByColumns(src, dst, t, since);
    hide DeltaRows, Refreshed, OfActive, Tab;
  }

  lemma TakesOver(src: Table, before: Table, rows: Table)
    requires forall k :: k in rows ==> k in src && rows[k] == src[k]
    ensures Refreshed(src, before, before + rows, rows.Keys)
  {
  }

  lemma DueByColumns(src: Database, dst: Table, t: TableId, since: int)
    ensures t in {Sessions, SessionResources, ScheduledTaskExecutions, ConversationCatalog, DrawioBoards,
                  DrawioBoardVersions} ==>
              DeltaRows(src, dst, t, since).Keys == set k | k in Tab(src, t) && Tab(src, t)[k].changed > since
    ensures t == SessionMessages ==>
              DeltaRows(src, dst, t, since).Keys == set k | k in Tab(src, t) && forall m :: m in dst ==> m < k
    ensures t == SessionResourceVersions ==> DeltaRows(src, dst, t, since).Keys == OfActive(src, t, since)
    ensures t in {SocialUsers, SocialSessionMappings, WeixinScanTasks, SocialReportResults} ==>
              DeltaRows(src, dst, t, since).Keys == Tab(src, t).Keys
  {
    hide Tab;
  }

  lemma Absorb<K, V>(base: map<K, V>, more: map<K, V>)
    requires forall k :: k in more ==> k in base && base[k] == more[k]
    ensures base + more == base
  {
  }

  lemma DeltaIdempotent(src: Database, dst: Table, t: TableId, since: int)
    ensures DeltaTable(src, DeltaTable(src, dst, t, since), t, since) == DeltaTable(src, dst, t, since)
  {
    hide InScope, Tab;
    var once := DeltaTable(src, dst, t, since);
    var rows, again := DeltaRows(src, dst, t, since), DeltaRows(src, once, t, since);
    assert forall m :: m in dst ==> m in once;
    forall k | k in again ensures k in rows {}
    Absorb(once, again);
  }

  // ---------------------------------------------------------------- agreement with the source

  /** Every local row is a source row with the same contents. */
  ghost predicate Agrees(dst: Table, src: Table) {
    forall k :: k in dst ==> k in src && dst[k] == src[k]
  }

  /** One increment: it leaves agreement if and only if it selects every held row that differs. */
  lemma DeltaAgreesExactly(src: Database, dst: Table, t: TableId, since: int)
    ensures Agrees(DeltaTable(src, dst, t, since), Tab(src, t)) <==>
            forall k :: k in dst ==>
              k in Tab(src, t) && (dst[k] == Tab(src, t)[k] || (!ModeOf(t).ById? && Selected(src, dst, t, k, since)))
  {
  }

  ghost predicate Changed(before: Table, after: Table, k: Key) {
    k in after && (k !in before || before[k] != after[k])
  }

  /** How a source may move on before an increment: rows are inserted and updated but not deleted;
      what changed is stamped later than `since` or, in a table copied by session, belongs to a
      session active since then; message ids grow and messages are not rewritten. */
  ghost predicate MovesOn(before: Database, after: Database, t: TableId, since: int) {
    && (forall k :: k in Tab(before, t) ==> k in Tab(after, t))
    && (forall k :: Changed(Tab(before, t), Tab(after, t), k) ==>
          match ModeOf(t)
          case ById => k !in Tab(before, t) && forall m :: m in Tab(before, t) ==> m < k
          case ByTime => Tab(after, t)[k].changed > since
          case ByScope => Active(after, Tab(after, t)[k], since)
          case Everything => true)
  }

  /** The local table after the recent copy of the first source state and an increment per later one. */
  ghost function Copy(srcs: seq<Database>, t: TableId, cutoff: int, sinces: seq<int>, n: nat): Table
    requires n < |srcs| && n <= |sinces|
  {
    if n == 0 then RecentRows(srcs[0], t, cutoff)
    else DeltaTable(srcs[n], Copy(srcs, t, cutoff, sinces, n - 1), t, sinces[n - 1])
  }

  ghost predicate Evolves(srcs: seq<Database>, t: TableId, sinces: seq<int>, n: nat)
    requires n < |srcs| && n <= |sinces|
  {
    forall i :: 0 <= i < n ==> MovesOn(srcs[i], srcs[i + 1], t, sinces[i])
  }

  /** The rows copied at first, and every row inserted or updated since. */
  ghost predicate Tracked(srcs: seq<Database>, t: TableId, cutoff: int, n: nat, k: Key)
    requires n < |srcs|
  {
    k in RecentRows(srcs[0], t, cutoff) || exists i :: 0 <= i < n && Changed(Tab(srcs[i], t), Tab(srcs[i + 1], t), k)
  }

  lemma DeltaStepAgrees(before: Database, after: Database, dst: Table, t: TableId, since: int)
    requires MovesOn(before, after, t, since) && Agrees(dst, Tab(before, t))
    ensures Agrees(DeltaTable(after, dst, t, since), Tab(after, t))
    ensures forall k :: k in dst || Changed(Tab(before, t), Tab(after, t), k) ==> k in DeltaTable(after, dst, t, since)
  {
    DeltaAgreesExactly(after, dst, t, since);
    forall k | k in dst
      ensures k in Tab(after, t)
      ensures dst[k] == Tab(after, t)[k] || (!ModeOf(t).ById? && Selected(after, dst, t, k, since))
    {
      assert Changed(Tab(before, t), Tab(after, t), k) || dst[k] == Tab(after, t)[k];
    }
  }

  /** After the recent copy and any number of increments against a source that moves on so, the copy
      agrees with the source and holds every row copied at first or changed since. */
  lemma {:induction false} ReplicaFollows(srcs: seq<Database>, t: TableId, cutoff: int, sinces: seq<int>, n: nat)
    requires n < |srcs| && n <= |sinces| && Evolves(srcs, t, sinces, n)
    ensures Agrees(Copy(srcs, t, cutoff, sinces, n), Tab(srcs[n], t))
    ensures forall k :: Tracked(srcs, t, cutoff, n, k) ==> k in Copy(srcs, t, cutoff, sinces, n)
  {
    if n > 0 {
      ReplicaFollows(srcs, t, cutoff, sinces, n - 1);
      DeltaStepAgrees(srcs[n - 1], srcs[n], Copy(srcs, t, cutoff, sinces, n - 1), t, sinces[n - 1]);
      forall k | Tracked(srcs, t, cutoff, n, k) ensures k in Copy(srcs, t, cutoff, sinces, n) {
        if !Changed(Tab(srcs[n - 1], t), Tab(srcs[n], t), k) {
          assert Tracked(srcs, t, cutoff, n - 1, k);
        }
      }
    }
  }

  /** The recent copy (i == 0) or the i-th increment selects row `k`. */
  ghost predicate Taken(srcs: seq<Database>, t: TableId, cutoff: int, sinces: seq<int>, i: nat, k: Key)
    requires i < |srcs| && i <= |sinces|
  {
    if i == 0 then k in RecentRows(srcs[0], t, cutoff)
    else k in DeltaRows(srcs[i], Copy(srcs, t, cutoff, sinces, i - 1), t, sinces[i - 1])
  }

  /** The last of the first `n` increments that selects row `k`; 0 if none does. */
  ghost function LastTaken(srcs: seq<Database>, t: TableId, cutoff: int, sinces: seq<int>, n: nat, k: Key): (i: nat)
    requires n < |srcs| && n <= |sinces|
    ensures i <= n && forall j :: i < j <= n ==> !Taken(srcs, t, cutoff, sinces, j, k)
    ensures i > 0 ==> Taken(srcs, t, cutoff, sinces, i, k)
  {
    if n == 0 || Taken(srcs, t, cutoff, sinces, n, k) then n else LastTaken(srcs, t, cutoff, sinces, n - 1, k)
  }

  /** The copy holds a row if and only if some step selected it, and holds it as the source had it at the
      last step that did. */
  lemma {:induction false} CopiedWhenLastTaken(srcs: seq<Database>, t: TableId, cutoff: int, sinces: seq<int>,
                                               n: nat, k: Key)
    requires n < |srcs| && n <= |sinces|
    ensures k in Copy(srcs, t, cutoff, sinces, n) <==> exists i: nat :: i <= n && Taken(srcs, t, cutoff, sinces, i, k)
    ensures var i := LastTaken(srcs, t, cutoff, sinces, n, k);
            k in Copy(srcs, t, cutoff, sinces, n) ==>
              k in Tab(srcs[i], t) && Copy(srcs, t, cutoff, sinces, n)[k] == Tab(srcs[i], t)[k]
  {
    hide Selected, InScope;
    if n == 0 {
      assert Taken(srcs, t, cutoff, sinces, 0, k) <==> k in Copy(srcs, t, cutoff, sinces, 0);
    } else {
      CopiedWhenLastTaken(srcs, t, cutoff, sinces, n - 1, k);
      if Taken(srcs, t, cutoff, sinces, n, k) { assert k in Copy(srcs, t, cutoff, sinces, n); }
    }
  }

  /** `i` is the last of the first `n` increments (0: the recent copy) that selects row `k`. */
  ghost predicate TakenLast(srcs: seq<Database>, t: TableId, cutoff: int, sinces: seq<int>, n: nat, i: nat, k: Key)
    requires n < |srcs| && n <= |sinces|
  {
    && i <= n && Taken(srcs, t, cutoff, sinces, i, k)
    && forall j :: i < j <= n ==> !Taken(srcs, t, cutoff, sinces, j, k)
  }

  lemma OneLastTaken(srcs: seq<Database>, t: TableId, cutoff: int, sinces: seq<int>, n: nat, i: nat, k: Key)
    requires n < |srcs| && n <= |sinces| && TakenLast(srcs, t, cutoff, sinces, n, i, k)
    ensures i <= n && Taken(srcs, t, cutoff, sinces, i, k) && LastTaken(srcs, t, cutoff, sinces, n, k) == i
  {
    hide Taken;
    var l := LastTaken(srcs, t, cutoff, sinces, n, k);
  }

  lemma LastIsTaken(srcs: seq<Database>, t: TableId, cutoff: int, sinces: seq<int>, n: nat, k: Key)
    requires n < |srcs| && n <= |sinces| && k in Copy(srcs, t, cutoff, sinces, n)
    ensures TakenLast(srcs, t, cutoff, sinces, n, LastTaken(srcs, t, cutoff, sinces, n, k), k)
  {
    hide Taken, Copy;
    CopiedWhenLastTaken(srcs, t, cutoff, sinces, n, k);
  }

  /** After the recent copy and any number of increments, against a source that changes as it likes, the
      copy agrees with the source if and only if no row that any step selected was changed or deleted
      there after the last step that selected it. */
  lemma ReplicaAgreesExactly(srcs: seq<Database>, t: TableId, cutoff: int, sinces: seq<int>, n: nat)
    requires n < |srcs| && n <= |sinces|
    ensures Agrees(Copy(srcs, t, cutoff, sinces, n), Tab(srcs[n], t)) <==>
            forall k, i: nat :: TakenLast(srcs, t, cutoff, sinces, n, i, k) ==>
              k in Tab(srcs[i], t) && k in Tab(srcs[n], t) && Tab(srcs[i], t)[k] == Tab(srcs[n], t)[k]
  {
    hide Copy, Taken, TakenLast, LastTaken, Tab;
    var copy := Copy(srcs, t, cutoff, sinces, n);
    forall k, i: nat | TakenLast(srcs, t, cutoff, sinces, n, i, k)
      ensures i <= n && k in copy && k in Tab(srcs[i], t) && copy[k] == Tab(srcs[i], t)[k]
    {
      OneLastTaken(srcs, t, cutoff, sinces, n, i, k);
      CopiedWhenLastTaken(srcs, t, cutoff, sinces, n, k);
    }
    forall k | k in copy
      ensures exists i: nat :: TakenLast(srcs, t, cutoff, sinces, n, i, k)
    {
      LastIsTaken(srcs, t, cutoff, sinces, n, k);
    }
  }

  /** A copied message is never touched again, so an update of it in the source is never seen. */
  lemma {:induction false} MessagesFrozen(srcs: seq<Database>, cutoff: int, sinces: seq<int>, i: nat, n: nat, k: Key)
    requires i <= n < |srcs| && n <= |sinces| && k in Copy(srcs, SessionMessages, cutoff, sinces, i)
    ensures k in Copy(srcs, SessionMessages, cutoff, sinces, n)
    ensures Copy(srcs, SessionMessages, cutoff, sinces, n)[k] == Copy(srcs, SessionMessages, cutoff, sinces, i)[k]
  {
    if i < n {
      MessagesFrozen(srcs, cutoff, sinces, i, n - 1, k);
      var dst := Copy(srcs, SessionMessages, cutoff, sinces, n - 1);
      assert k !in DeltaRows(srcs[n], dst, SessionMessages, sinces[n - 1]) by { assert !(k < k); }
    }
  }

  // ---------------------------------------------------------------- the history fill

  const PAGE := 200

  /** Whether the history fill copies rows of the table: those with a session_id column, and the
      versions of boards. */
  predicate OfSessions(t: TableId) {
    !(t.SocialUsers? || t.WeixinScanTasks? || t.SocialReportResults?)
  }

  /** The session a source row belongs to; a board version belongs to the session of its board. */
  function Owner(src: Database, t: TableId, r: Row): Option<SessionId> {
    if !OfSessions(t) then None
    else if !t.DrawioBoardVersions? then r.session
    else if r.board in Tab(src, DrawioBoards) then Tab(src, DrawioBoards)[r.board].session
    else None
  }

  function OwnedRows(src: Database, t: TableId, sessions: set<SessionId>): Table {
    map k | k in Tab(src, t) && Owner(src, t, Tab(src, t)[k]).Some? && Owner(src, t, Tab(src, t)[k]).value in sessions
      :: Tab(src, t)[k]
  }

  predicate Present(db: Database, s: SessionId) {
    exists k :: k in Tab(db, Sessions) && Tab(db, Sessions)[k].session == Some(s)
  }

  /** Row `k` of the source is session `s`, created before `before`. */
  predicate IsSession(src: Database, before: int, s: SessionId, k: Key) {
    k in Tab(src, Sessions) && Tab(src, Sessions)[k].session == Some(s) && Tab(src, Sessions)[k].created < before
  }

  /** A list of the sessions created before `before`, oldest first; sessions created at the same moment
      may stand in any order. */
  ghost predicate Enumeration(src: Database, before: int, order: seq<SessionId>) {
    && Distinct(order)
    && (forall s :: s in order <==> Known(src, before, s))
    && Ordered(src, before, order)
  }

  ghost predicate Ordered(src: Database, before: int, order: seq<SessionId>) {
    forall i, j :: 0 <= i < j < |order| ==> !Younger(src, before, order[i], order[j])
  }

  ghost predicate Younger(src: Database, before: int, s: SessionId, t: SessionId) {
    exists k, l :: IsSession(src, before, s, k) && IsSession(src, before, t, l)
                   && Tab(src, Sessions)[k].created > Tab(src, Sessions)[l].created
  }

  function PageStart(total: nat, k: nat): (lo: nat)
    ensures lo <= total
  {
    Min(PAGE * k, total)
  }

  /** How many pages have been read when none is left, from the k-th on. */
  function PageCount(total: nat, k: nat): (n: nat)
    ensures k <= n && PageStart(total, n) == total
    decreases total - PageStart(total, k)
  {
    if PageStart(total, k) == total then k else PageCount(total, k + 1)
  }

  /** What the first `k` pages return: the k-th query enumerates the sessions in its own order, of which
      it returns PAGE at its offset. */
  function Scanned(queries: seq<seq<SessionId>>, total: nat, k: nat): seq<SessionId>
    requires k <= |queries| && forall i :: 0 <= i < |queries| ==> |queries[i]| == total
  {
    if k == 0 then []
    else Scanned(queries, total, k - 1) + queries[k - 1][PageStart(total, k - 1)..PageStart(total, k)]
  }

  /** The sessions of a page that `db` does not hold. */
  function Missing(db: Database, page: seq<SessionId>): set<SessionId> {
    set s | s in page && !Present(db, s)
  }

  /** Where both hold a session under the same id it is the same session. */
  ghost predicate SameSessions(src: Database, db: Database) {
    forall k :: k in Tab(db, Sessions) && k in Tab(src, Sessions) ==>
      Tab(db, Sessions)[k].session == Tab(src, Sessions)[k].session
  }

  function Filled(src: Database, db: Database, listed: seq<TableId>, sessions: set<SessionId>, t: TableId): Table {
    if t in listed then Tab(db, t) + OwnedRows(src, t, sessions) else Tab(db, t)
  }

  /** The state after the rows of these sessions were upserted. */
  ghost predicate IsFilled(src: Database, db: Database, listed: seq<TableId>, sessions: set<SessionId>,
                           after: Database) {
    forall t :: Tab(after, t) == Filled(src, db, listed, sessions, t)
  }

  lemma Merge<K, V>(base: map<K, V>, a: map<K, V>, b: map<K, V>)
    ensures base + a + b == base + (a + b)
  {
  }

  /** The rows that the history fill takes from a table: those with the session_id, for board versions those
      of the boards with it, and none of a table without sessions. */
  lemma OwnedIs(src: Database, t: TableId, sessions: set<SessionId>, k: Key)
    ensures k in OwnedRows(src, t, sessions) ==> k in Tab(src, t) && OwnedRows(src, t, sessions)[k] == Tab(src, t)[k]
    ensures t == DrawioBoardVersions ==>
              (k in OwnedRows(src, t, sessions) <==>
               k in Tab(src, t) && Tab(src, t)[k].board in Tab(src, DrawioBoards) &&
               exists s :: s in sessions && Tab(src, DrawioBoards)[Tab(src, t)[k].board].session == Some(s))
    ensures t in {Sessions, SessionMessages, SessionResources, SessionResourceVersions, ScheduledTaskExecutions,
                  ConversationCatalog, DrawioBoards, SocialSessionMappings} ==>
              (k in OwnedRows(src, t, sessions) <==>
               k in Tab(src, t) && exists s :: s in sessions && Tab(src, t)[k].session == Some(s))
    ensures t in {SocialUsers, WeixinScanTasks, SocialReportResults} ==> k !in OwnedRows(src, t, sessions)
  {
  }

  lemma OwnedUnion(src: Database, t: TableId, a: set<SessionId>, b: set<SessionId>)
    ensures OwnedRows(src, t, a) + OwnedRows(src, t, b) == OwnedRows(src, t, a + b)
  {
  }

  lemma FilledTwice(src: Database, db: Database, listed: seq<TableId>, a: set<SessionId>, mid: Database,
                    b: set<SessionId>, after: Database)
    requires IsFilled(src, db, listed, a, mid) && IsFilled(src, mid, listed, b, after)
    ensures IsFilled(src, db, listed, a + b, after)
  {
    hide OwnedRows, Tab;
    forall t ensures Tab(after, t) == Filled(src, db, listed, a + b, t) {
      assert Tab(mid, t) == Filled(src, db, listed, a, t);
      assert Tab(after, t) == Filled(src, mid, listed, b, t);
      OwnedUnion(src, t, a, b);
      Merge(Tab(db, t), OwnedRows(src, t, a), OwnedRows(src, t, b));
    }
  }

  /** One more table of a page. */
  lemma FilledNext(src: Database, db: Database, done: seq<TableId>, sessions: set<SessionId>, mid: Database,
                   t: TableId, after: Database)
    requires IsFilled(src, db, done, sessions, mid)
    requires forall u :: Tab(after, u) == if u == t then Tab(mid, t) + OwnedRows(src, t, sessions) else Tab(mid, u)
    ensures IsFilled(src, db, done + [t], sessions, after)
  {
  }

  /** A session is present after a fill exactly when it was present or its rows were filled in. */
  lemma PresentAfter(src: Database, db: Database, listed: seq<TableId>, sessions: set<SessionId>, after: Database,
                     s: SessionId)
    requires SameSessions(src, db) && IsFilled(src, db, listed, sessions, after)
    requires Present(src, s)
    ensures SameSessions(src, after)
    ensures Present(after, s) <==> Present(db, s) || (Sessions in listed && s in sessions)
  {
  }

  /** Filling some pages, later pages miss what they would have missed, but for repetitions. */
  lemma MissingLater(src: Database, db: Database, listed: seq<TableId>, seen: seq<SessionId>, page: seq<SessionId>,
                     after: Database)
    requires SameSessions(src, db) && (forall s :: s in page ==> Present(src, s))
    requires IsFilled(src, db, listed, Missing(db, seen), after)
    ensures Missing(db, seen) + Missing(after, page) == Missing(db, seen + page)
  {
    hide IsFilled, SameSessions, Present;
    forall s | s in page
      ensures Present(after, s) <==> Present(db, s) || (Sessions in listed && s in Missing(db, seen))
    {
      PresentAfter(src, db, listed, Missing(db, seen), after, s);
    }
  }

  /** One more page. */
  lemma PageFilled(src: Database, db: Database, listed: seq<TableId>, seen: seq<SessionId>, page: seq<SessionId>,
                   mid: Database, after: Database)
    requires SameSessions(src, db) && (forall s :: s in page ==> Present(src, s))
    requires IsFilled(src, db, listed, Missing(db, seen), mid)
    requires IsFilled(src, mid, listed, Missing(mid, page), after)
    ensures IsFilled(src, db, listed, Missing(db, seen + page), after)
    ensures Missing(db, seen + page) == Missing(db, seen) + Missing(mid, page)
  {
    hide IsFilled, SameSessions, Present, Missing;
    MissingLater(src, db, listed, seen, page, mid);
    FilledTwice(src, db, listed, Missing(db, seen), mid, Missing(mid, page), after);
  }

  lemma NothingFilled(src: Database, db: Database, listed: seq<TableId>)
    ensures IsFilled(src, db, listed, {}, db)
  {
  }

  lemma SameSessionsAfter(src: Database, db: Database, listed: seq<TableId>, sessions: set<SessionId>, after: Database)
    requires SameSessions(src, db) && IsFilled(src, db, listed, sessions, after)
    ensures SameSessions(src, after)
  {
  }

  /** A finished history run writes a source row if and only if its session was scanned and the copy did
      not hold it: such a row then equals the source, and every other row is as it was. */
  lemma HistoryCopiesExactly(src: Database, db: Database, listed: seq<TableId>, scanned: seq<SessionId>,
                             after: Database, t: TableId, k: Key)
    requires IsFilled(src, db, listed, Missing(db, scanned), after) && t in listed
    ensures if k in Tab(src, t) && Owner(src, t, Tab(src, t)[k]).Some?
               && Owner(src, t, Tab(src, t)[k]).value in scanned && !Present(db, Owner(src, t, Tab(src, t)[k]).value)
            then k in Tab(after, t) && Tab(after, t)[k] == Tab(src, t)[k]
            else (k in Tab(after, t) <==> k in Tab(db, t)) && (k in Tab(db, t) ==> Tab(after, t)[k] == Tab(db, t)[k])
  {
  }

  /** A finished run leaves every session of the cutoff present if and only if each was so before or was
      scanned. */
  lemma CompleteExactly(src: Database, before: int, db: Database, listed: seq<TableId>, scanned: seq<SessionId>,
                        after: Database)
    requires SameSessions(src, db) && Sessions in listed && IsFilled(src, db, listed, Missing(db, scanned), after)
    ensures (forall s, k :: IsSession(src, before, s, k) ==> Present(after, s)) <==>
            forall s, k :: IsSession(src, before, s, k) ==> Present(db, s) || s in scanned
  {
    hide IsFilled, SameSessions;
    forall s, k | IsSession(src, before, s, k)
      ensures Present(after, s) <==> Present(db, s) || s in scanned
    {
      PresentAfter(src, db, listed, Missing(db, scanned), after, s);
    }
  }

  ghost predicate Known(src: Database, before: int, s: SessionId) {
    exists k :: IsSession(src, before, s, k)
  }

  /** What the queries of a run may return: each of them some enumeration, and enough of them. */
  ghost predicate Queries(src: Database, before: int, queries: seq<seq<SessionId>>, total: nat) {
    && PageCount(total, 0) <= |queries|
    && forall i :: 0 <= i < |queries| ==> |queries[i]| == total && Enumeration(src, before, queries[i])
  }

  /** No two sessions created at the same moment stand at the end of a page and at the start of the next. */
  ghost predicate CutsBetween(src: Database, before: int, e: seq<SessionId>) {
    forall k :: 0 < PAGE * k < |e| ==> Younger(src, before, e[PAGE * k], e[PAGE * k - 1])
  }

  lemma YoungerAcross(src: Database, before: int, e: seq<SessionId>, b: nat, i: nat, j: nat)
    requires Enumeration(src, before, e) && i < b <= j < |e| && Younger(src, before, e[b], e[b - 1])
    ensures Younger(src, before, e[j], e[i])
  {
    assert e[i] in e && e[j] in e;
    var k :| IsSession(src, before, e[i], k);
    var l :| IsSession(src, before, e[j], l);
    var m, n :| IsSession(src, before, e[b], m) && IsSession(src, before, e[b - 1], n)
                && Tab(src, Sessions)[m].created > Tab(src, Sessions)[n].created;
    assert i < b - 1 ==> !Younger(src, before, e[i], e[b - 1]);
    assert b < j ==> !Younger(src, before, e[b], e[j]);
  }

  lemma NoIntruder(src: Database, before: int, e: seq<SessionId>, f: seq<SessionId>, b: nat, x: SessionId, y: SessionId)
    requires Enumeration(src, before, e) && Enumeration(src, before, f) && b <= |e| == |f|
    requires 0 < b < |e| ==> Younger(src, before, e[b], e[b - 1])
    requires x in f[..b] && y in e[..b] && y !in f[..b]
    ensures x in e[..b]
  {
    hide Younger, Known;
    assert x in f && x in e && y in e && y in f;
    var i :| 0 <= i < b && e[i] == y;
    var j :| 0 <= j < |e| && e[j] == x;
    var p :| 0 <= p < b && f[p] == x;
    var q :| 0 <= q < |f| && f[q] == y;
    assert b <= q;
    if b <= j {
      YoungerAcross(src, before, e, b, i, j);
    }
  }

  /** Where a cut stands between sessions created at different moments, every enumeration has the same
      sessions in front of it. */
  lemma SamePrefix(src: Database, before: int, e: seq<SessionId>, f: seq<SessionId>, b: nat)
    requires Enumeration(src, before, e) && Enumeration(src, before, f) && b <= |e| == |f|
    requires 0 < b < |e| ==> Younger(src, before, e[b], e[b - 1])
    ensures Elements(e[..b]) == Elements(f[..b])
  {
    hide Younger, Known, Ordered;
    var es, fs := Elements(e[..b]), Elements(f[..b]);
    DistinctSize(e[..b]);
    DistinctSize(f[..b]);
    if es <= fs {
      SameSize(es, fs);
    } else {
      var y :| y in es && y !in fs;
      forall x | x in fs ensures x in es { NoIntruder(src, before, e, f, b, x, y); }
      SameSize(fs, es);
    }
  }

  lemma SameSize<T>(a: set<T>, b: set<T>)
    requires a <= b && |a| == |b|
    ensures a == b
  {
    assert |b - a| == 0;
  }

  lemma {:induction false} ScansPrefix(src: Database, before: int, e: seq<SessionId>, queries: seq<seq<SessionId>>,
                                       k: nat)
    requires Enumeration(src, before, e) && CutsBetween(src, before, e)
    requires Queries(src, before, queries, |e|) && k <= |queries|
    ensures Elements(Scanned(queries, |e|, k)) == Elements(e[..PageStart(|e|, k)])
    ensures Distinct(Scanned(queries, |e|, k))
  {
    hide Younger, Known, Ordered;
    if k > 0 {
      ScansPrefix(src, before, e, queries, k - 1);
      var q, lo, hi := queries[k - 1], PageStart(|e|, k - 1), PageStart(|e|, k);
      SamePrefix(src, before, e, q, lo);
      SamePrefix(src, before, e, q, hi);
      OnePageMore(Scanned(queries, |e|, k - 1), q, lo, hi);
    }
  }

  lemma OnePageMore(seen: seq<SessionId>, q: seq<SessionId>, lo: nat, hi: nat)
    requires lo <= hi <= |q| && Distinct(q) && Distinct(seen) && Elements(seen) == Elements(q[..lo])
    ensures Elements(seen + q[lo..hi]) == Elements(q[..hi]) && Distinct(seen + q[lo..hi])
  {
    assert q[..hi] == q[..lo] + q[lo..hi];
    var both := seen + q[lo..hi];
    forall i, j | 0 <= i < j < |both| ensures both[i] != both[j] {
      if i < |seen| <= j {
        assert seen[i] in Elements(seen);
        var l :| 0 <= l < lo && q[l] == seen[i];
      }
    }
    forall x ensures x in Elements(both) <==> x in Elements(q[..hi]) {
      assert x in seen <==> x in Elements(seen);
      assert x in q[..lo] <==> x in Elements(q[..lo]);
    }
  }

  ghost predicate ScansAll(src: Database, before: int, queries: seq<seq<SessionId>>, total: nat)
    requires Queries(src, before, queries, total)
  {
    forall s :: Known(src, before, s) ==> s in Scanned(queries, total, PageCount(total, 0))
  }

  /** Two neighbours created at the same moment may stand the other way round. */
  lemma SwapEnumerates(src: Database, before: int, e: seq<SessionId>, b: nat)
    requires Enumeration(src, before, e) && 0 < b < |e| && !Younger(src, before, e[b], e[b - 1])
    ensures Enumeration(src, before, e[b := e[b - 1]][b - 1 := e[b]])
  {
    hide Younger, Known;
    var f := e[b := e[b - 1]][b - 1 := e[b]];
    assert f[b] == e[b - 1] && f[b - 1] == e[b];
    assert forall i :: 0 <= i < |e| && i != b && i != b - 1 ==> f[i] == e[i];
    forall s ensures s in f <==> s in e {
      if s in e {
        var i :| 0 <= i < |e| && e[i] == s;
        assert f[if i == b then b - 1 else if i == b - 1 then b else i] == s;
      }
    }
  }

  /** The page behind the cut comes from the swapped enumeration, all others from `e`: the session behind
      the cut is on none of them. */
  lemma {:induction false} SwapSkips(e: seq<SessionId>, c: nat, f: seq<SessionId>, queries: seq<seq<SessionId>>, k: nat)
    requires Distinct(e) && 0 < PAGE * c < |e| && f == e[PAGE * c := e[PAGE * c - 1]][PAGE * c - 1 := e[PAGE * c]]
    requires forall i :: 0 <= i < |queries| ==> queries[i] == if i == c then f else e
    requires k <= |queries|
    ensures e[PAGE * c] !in Scanned(queries, |e|, k)
  {
    if k > 0 {
      SwapSkips(e, c, f, queries, k - 1);
      var lo, hi := PageStart(|e|, k - 1), PageStart(|e|, k);
      assert k - 1 < c ==> hi <= PAGE * c;
      assert c < k - 1 ==> PAGE * c < lo;
      assert e[PAGE * c] !in queries[k - 1][lo..hi];
    }
  }

  /** The paged query orders by creation only. Every run scans every session, and each once, if and only
      if no two sessions created at the same moment stand on both sides of a page's end; else some run
      skips one. */
  lemma ScansAllExactly(src: Database, before: int, e: seq<SessionId>)
    requires Enumeration(src, before, e)
    ensures (forall queries :: Queries(src, before, queries, |e|) ==> ScansAll(src, before, queries, |e|)) <==>
            CutsBetween(src, before, e)
    ensures CutsBetween(src, before, e) ==>
              forall queries :: Queries(src, before, queries, |e|) ==>
                Distinct(Scanned(queries, |e|, PageCount(|e|, 0)))
  {
    hide Younger, Known, Ordered;
    if CutsBetween(src, before, e) {
      forall queries | Queries(src, before, queries, |e|)
        ensures ScansAll(src, before, queries, |e|) && Distinct(Scanned(queries, |e|, PageCount(|e|, 0)))
      {
        AllScanned(src, before, e, queries);
      }
    } else {
      var c :| 0 < PAGE * c < |e| && !Younger(src, before, e[PAGE * c], e[PAGE * c - 1]);
      var queries := OneIsSkipped(src, before, e, c);
    }
  }

  lemma AllScanned(src: Database, before: int, e: seq<SessionId>, queries: seq<seq<SessionId>>)
    requires Enumeration(src, before, e) && CutsBetween(src, before, e) && Queries(src, before, queries, |e|)
    ensures ScansAll(src, before, queries, |e|) && Distinct(Scanned(queries, |e|, PageCount(|e|, 0)))
  {
    hide Younger, Known, Ordered;
    var ids := Scanned(queries, |e|, PageCount(|e|, 0));
    ScansPrefix(src, before, e, queries, PageCount(|e|, 0));
    assert e[..|e|] == e;
    forall s | Known(src, before, s) ensures s in ids {
      assert s in Elements(e);
      assert s in Elements(ids);
    }
  }

  lemma OneIsSkipped(src: Database, before: int, e: seq<SessionId>, c: nat) returns (queries: seq<seq<SessionId>>)
    requires Enumeration(src, before, e) && 0 < PAGE * c < |e|
    requires !Younger(src, before, e[PAGE * c], e[PAGE * c - 1])
    ensures Queries(src, before, queries, |e|) && !ScansAll(src, before, queries, |e|)
  {
    hide Younger, Known, Ordered;
    var f := e[PAGE * c := e[PAGE * c - 1]][PAGE * c - 1 := e[PAGE * c]];
    SwapEnumerates(src, before, e, PAGE * c);
    queries := seq(PageCount(|e|, 0), i requires 0 <= i => if i == c then f else e);
    SwapSkips(e, c, f, queries, PageCount(|e|, 0));
    assert e[PAGE * c] in e;
  }

  /** A second run has nothing left to fill, as far as it scans what the first one did. */
  lemma SecondRunIsEmpty(src: Database, db: Database, listed: seq<TableId>, scanned: seq<SessionId>, after: Database,
                         again: seq<SessionId>)
    requires SameSessions(src, db) && Sessions in listed && (forall s :: s in scanned ==> Present(src, s))
    requires IsFilled(src, db, listed, Missing(db, scanned), after) && forall s :: s in again ==> s in scanned
    ensures SameSessions(src, after) && Missing(after, again) == {}
  {
    hide IsFilled;
    SameSessionsAfter(src, db, listed, Missing(db, scanned), after);
    forall s | s in again ensures Present(after, s) {
      PresentAfter(src, db, listed, Missing(db, scanned), after, s);
    }
  }

  /** A page cut off behind the first `n` tables, and then a finished run that scans the session again: a
      row of the session equals the source if and only if its table came before the cut, or the session
      rows did not, or the copy held the row like that all along. */
  lemma CutOffPageExactly(src: Database, db: Database, listed: seq<TableId>, n: nat, missing: set<SessionId>,
                          cut: Database, scanned: seq<SessionId>, after: Database, t: TableId, k: Key)
    requires SameSessions(src, db) && n <= |listed| && t in listed
    requires IsFilled(src, db, listed[..n], missing, cut)
    requires IsFilled(src, cut, listed, Missing(cut, scanned), after)
    requires k in Tab(src, t) && Owner(src, t, Tab(src, t)[k]).Some?
    requires var s := Owner(src, t, Tab(src, t)[k]).value;
             s in missing && s in scanned && Present(src, s) && !Present(db, s)
    ensures k in Tab(after, t) && Tab(after, t)[k] == Tab(src, t)[k] <==>
            t in listed[..n] || Sessions !in listed[..n] || (k in Tab(db, t) && Tab(db, t)[k] == Tab(src, t)[k])
  {
    PresentAfter(src, db, listed[..n], missing, cut, Owner(src, t, Tab(src, t)[k]).value);
    assert Tab(cut, t) == Filled(src, db, listed[..n], missing, t);
    HistoryCopiesExactly(src, cut, listed, scanned, after, t, k);
  }

  /** The hole exists: one session with one message, cut off between the two tables, is never completed. */
  lemma HoleExists(s: SessionId, body: string) returns (src: Database, cut: Database)
    ensures IsFilled(src, map[], [Sessions], Missing(map[], [s]), cut)
    ensures Missing(cut, [s]) == {} && IsFilled(src, cut, [Sessions, SessionMessages], Missing(cut, [s]), cut)
    ensures 7 in Tab(src, SessionMessages) && Owner(src, SessionMessages, Tab(src, SessionMessages)[7]) == Some(s)
    ensures Present(cut, s) && Tab(cut, SessionMessages) == map[]
  {
    var row := Row(Some(s), 0, 0, 0, 0, body);
    src := map[Sessions := map[1 := row], SessionMessages := map[7 := row]];
    cut := map[Sessions := map[1 := row]];
    assert 1 in Tab(cut, Sessions) && Tab(cut, Sessions)[1].session == Some(s);
    assert Missing(map[], [s]) == {s} by { assert s in [s]; }
    assert OwnedRows(src, Sessions, {s}) == map[1 := row];
    assert map[] + OwnedRows(src, Sessions, {s}) == map[1 := row];
    forall t ensures Tab(cut, t) == Filled(src, map[], [Sessions], {s}, t) {}
    NothingFilled(src, cut, [Sessions, SessionMessages]);
  }

  /** Ids above every local id are new. */
  lemma FreshIds(src: Database, dst: Table, t: TableId, since: int)
    requires ModeOf(t).ById?
    ensures DeltaRows(src, dst, t, since).Keys !! dst.Keys
  {
  }

  // ---------------------------------------------------------------- the destination and its commands

  /** The value that `_fix_sequences` gives a sequence over these ids: at least 1, and no id above it. */
  ghost predicate SequenceFor(ids: set<Key>, v: int) {
    && v >= 1 && (forall k :: k in ids ==> k <= v) && (v == 1 || v in ids)
  }

  method MaxOf(ids: set<Key>) returns (m: Option<Key>)
    ensures ids == {} <==> m.None?
    ensures m.Some? ==> m.value in ids && forall k :: k in ids ==> k <= m.value
  {
    m := None;
    var rest := ids;
    while exists k :: k in rest
      invariant rest <= ids
      invariant m.None? ==> rest == ids
      invariant m.Some? ==> m.value in ids && forall k :: k in ids && k !in rest ==> k <= m.value
      decreases |rest|
    {
      var k :| k in rest;
      rest := rest - {k};
      if m.None? || k > m.value {
        m := Some(k);
      }
    }
  }

  /** The local database. `last` holds the value of the id sequence of a table; the next id it hands
      out is one more. */
  class Destination {
    var tables: Database
    var last: map<TableId, int>

    constructor (initial: Database)
      ensures tables == initial && last == map[]
    {
      tables, last := initial, map[];
    }

    /** COPY: it raises when a row has an id that the table holds already. */
    method CopyRecords(t: TableId, rows: Table) returns (r: Answer<()>)
      modifies this`tables
      ensures r.Returns? <==> rows.Keys !! Tab(old(tables), t).Keys
      ensures r.Raises? ==> tables == old(tables)
      ensures r.Returns? ==>
                forall u :: Tab(tables, u) == if u == t then Tab(old(tables), t) + rows else Tab(old(tables), u)
    {
      if exists k :: k in rows && k in Tab(tables, t) {
        return Raises(StoreFault);
      }
      tables := tables[t := Tab(tables, t) + rows];
      return Returns(());
    }

    method Upsert(t: TableId, rows: Table)
      modifies this`tables
      ensures rows == map[] ==> tables == old(tables)
      ensures forall u :: Tab(tables, u) == if u == t then Tab(old(tables), t) + rows else Tab(old(tables), u)
    {
      assert Tab(tables, t) + map[] == Tab(tables, t);
      if rows != map[] {
        tables := tables[t := Tab(tables, t) + rows];
      }
    }

    /** Both id sequences are moved past every id. */
    method FixSequences()
      modifies this`last
      ensures Sessions in last && SequenceFor(Tab(tables, Sessions).Keys, last[Sessions])
      ensures SessionMessages in last && SequenceFor(Tab(tables, SessionMessages).Keys, last[SessionMessages])
    {
      var s := MaxOf(Tab(tables, Sessions).Keys);
      last := last[Sessions := if s.Some? && s.value > 1 then s.value else 1];
      var m := MaxOf(Tab(tables, SessionMessages).Keys);
      last := last[SessionMessages := if m.Some? && m.value > 1 then m.value else 1];
    }

    /** TRUNCATE ... CASCADE empties the listed tables and those that refer to them. */
    method Truncate(listed: seq<TableId>, cascaded: set<TableId>)
      modifies this`tables
      ensures forall t :: Tab(tables, t) == if t in listed || t in cascaded then map[] else Tab(old(tables), t)
    {
      tables := map t | t in tables && t !in listed && t !in cascaded :: tables[t];
    }

    method CmdRecent(src: Database, cutoff: int, listed: seq<TableId>, cascaded: set<TableId>) returns (r: Answer<()>)
      modifies this
      ensures Distinct(listed) ==> r.Returns?
      ensures r.Returns? ==>
                forall t :: Tab(tables, t) ==
                  if t in listed then RecentRows(src, t, cutoff)
                  else if t in cascaded then map[] else Tab(old(tables), t)
      ensures r.Returns? ==> forall t :: t in listed ==> RecentByColumns(src, Tab(tables, t), t, cutoff)
      ensures r.Returns? ==> NextIdsFree()
    {
      hide RecentByColumns;
      forall t { RecentIs(src, t, cutoff); }
      Truncate(listed, cascaded);
      for n := 0 to |listed|
        invariant forall t :: Tab(tables, t) ==
                    if t in listed[..n] then RecentRows(src, t, cutoff)
                    else if t in listed || t in cascaded then map[] else Tab(old(tables), t)
      {
        var t := listed[n];
        assert listed[..n + 1] == listed[..n] + [t];
        var copied := CopyRecords(t, RecentRows(src, t, cutoff));
        if copied.Raises? {
          assert t in listed[..n];
          return copied;
        }
        assert RecentRows(src, t, cutoff) == Tab(tables, t);
      }
      FixSequences();
      return Returns(());
    }

    /** The ids that the sequences hand out next lie above every id. */
    ghost predicate NextIdsFree()
      reads this
    {
      forall t :: t in {Sessions, SessionMessages} ==>
        t in last && forall k :: k in Tab(tables, t) ==> k < last[t] + 1
    }

    /** Every listed table takes in what its mode selects; no id is ever inserted twice. */
    method CmdDelta(src: Database, since: int, listed: seq<TableId>) returns (r: Answer<()>)
      modifies this
      ensures r.Returns?
      ensures forall t :: Tab(tables, t) ==
                if t in listed then DeltaTable(src, Tab(old(tables), t), t, since) else Tab(old(tables), t)
      ensures forall t :: t in listed ==> DeltaByColumns(src, Tab(old(tables), t), Tab(tables, t), t, since)
      ensures NextIdsFree()
    {
      hide DeltaRows, Selected, Tab, DeltaByColumns;
      forall t { DeltaIs(src, Tab(tables, t), t, since); }
      for n := 0 to |listed|
        invariant forall t :: Tab(tables, t) ==
                    if t in listed[..n] then DeltaTable(src, Tab(old(tables), t), t, since) else Tab(old(tables), t)
      {
        var t := listed[n];
        assert listed[..n + 1] == listed[..n] + [t];
        DeltaIdempotent(src, Tab(old(tables), t), t, since);
        var rows := DeltaRows(src, Tab(tables, t), t, since);
        ghost var now := DeltaTable(src, Tab(tables, t), t, since);
        if ModeOf(t).ById? {
          FreshIds(src, Tab(tables, t), t, since);
          var copied := CopyRecords(t, rows);
          assert copied.Returns?;
        } else {
          Upsert(t, rows);
        }
        assert Tab(tables, t) == now;
      }
      FixSequences();
      return Returns(());
    }

    /** The rows of the missing sessions, table by table; returns how many rows were written. */
    method FillPage(src: Database, listed: seq<TableId>, missing: set<SessionId>) returns (written: nat)
      modifies this`tables
      ensures IsFilled(src, old(tables), listed, missing, tables)
    {
      written := 0;
      ghost var db := tables;
      for n := 0 to |listed|
        invariant IsFilled(src, db, listed[..n], missing, tables)
      {
        hide OwnedRows, IsFilled;
        var rows := OwnedRows(src, listed[n], missing);
        ghost var mid := tables;
        Upsert(listed[n], rows);
        FilledNext(src, db, listed[..n], missing, mid, listed[n], tables);
        assert listed[..n + 1] == listed[..n] + [listed[n]];
        written := written + |rows|;
      }
      assert listed[..|listed|] == listed;
    }

    /** The paged fill. The k-th query enumerates the sessions in an order of its own; `scanned` is the
        offset of the next page. The run fills in what the copy lacks of the sessions it has scanned, and
        writes nothing when that is nothing. */
    method CmdHistory(src: Database, before: int, queries: seq<seq<SessionId>>, total: nat, listed: seq<TableId>)
        returns (scanned: nat, written: nat)
      requires SameSessions(src, tables) && Queries(src, before, queries, total)
      modifies this
      ensures scanned == total
      ensures var ids := Scanned(queries, total, PageCount(total, 0));
              && IsFilled(src, old(tables), listed, Missing(old(tables), ids), tables)
              && (Missing(old(tables), ids) == {} ==> written == 0 && tables == old(tables))
      ensures NextIdsFree()
    {
      scanned, written := 0, 0;
      ghost var db := tables;
      var k := 0;
      NothingFilled(src, db, listed);
      assert Missing(db, []) == {};
      hide IsFilled, SameSessions, Present, Missing, Enumeration;
      while scanned < total
        invariant scanned == PageStart(total, k) && PageCount(total, k) == PageCount(total, 0) <= |queries|
        invariant IsFilled(src, db, listed, Missing(db, Scanned(queries, total, k)), tables)
        invariant Missing(db, Scanned(queries, total, k)) == {} ==> written == 0 && tables == db
        decreases total - scanned
      {
        var next := Min(scanned + PAGE, total);
        var page := queries[k][scanned..next];
        var missing := Missing(tables, page);
        ghost var mid := tables;
        NothingFilled(src, mid, listed);
        if missing != {} {
          var n := FillPage(src, listed, missing);
          written := written + n;
        }
        SessionsOnly(src, before, queries[k], scanned, next);
        PageFilled(src, db, listed, Scanned(queries, total, k), page, mid, tables);
        scanned := next;
        k := k + 1;
      }
      FixSequences();
    }
  }

  lemma SessionsOnly(src: Database, before: int, order: seq<SessionId>, lo: nat, hi: nat)
    requires Enumeration(src, before, order) && lo <= hi <= |order|
    ensures forall s :: s in order[lo..hi] ==> Present(src, s)
  {
    forall s | s in order[lo..hi] ensures Present(src, s) {
      assert s in order;
      var k :| IsSession(src, before, s, k);
    }
  }
}
