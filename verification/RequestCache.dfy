/** The durable request cache (backend/scripts/backfill_zhiliao_month.py): an answer is stored in a
    file named by a digest of the request, replaced atomically; later calls, in this run or another,
    read the file instead of paying for the request again. */
module RequestCache {
  import opened Common

  type Data = string
  type Digest = string

  /** `digest` is the digest of the endpoint and the payload. */
  datatype Request = Request(endpoint: string, payload: string, digest: Digest)

  datatype Record = Record(endpoint: string, payload: string, data: Data)

  type Cache = map<Digest, Record>

  datatype Page = Page(endpoint: string, data: Data, cached: bool)

  /** One call: what the service would reply, and whether the process dies before the answer is on
      disk. A call that ends so returns nothing. */
  datatype Call = Call(request: Request, reply: Answer<Data>, dies: bool)

  function Store(cache: Cache, r: Request, data: Data): Cache {
    cache[r.digest := Record(r.endpoint, r.payload, data)]
  }

  predicate Posts(cache: Cache, c: Call) {
    c.request.digest !in cache
  }

  function After(cache: Cache, c: Call): Cache {
    if !Posts(cache, c) || c.reply.Raises? || c.dies then cache else Store(cache, c.request, c.reply.value)
  }

  /** The value that a call returns, if it returns one. */
  function Result(cache: Cache, c: Call): Option<Data> {
    if !Posts(cache, c) then Some(cache[c.request.digest].data)
    else if c.reply.Raises? || c.dies then None
    else Some(c.reply.value)
  }

  /** The client of one process over the shared directory. */
  class CachedClient {
    var cache: Cache
    var pages: seq<Page>

    constructor (directory: Cache)
      ensures cache == directory && pages == []
    {
      cache, pages := directory, [];
    }

    /** Writing a temporary file and renaming it: the record is there entirely or not at all. */
    method Persist(digest: Digest, record: Record, dies: bool) returns (ok: bool)
      modifies this`cache
      ensures ok == !dies
      ensures cache == if dies then old(cache) else old(cache)[digest := record]
    {
      if dies {
        return false;
      }
      cache := cache[digest := record];
      return true;
    }

    method Post(c: Call) returns (data: Option<Data>, posted: bool)
      modifies this
      ensures data == Result(old(cache), c) && posted == Posts(old(cache), c)
      ensures cache == After(old(cache), c)
      ensures c.request.digest in old(cache) ==>
                data == Some(old(cache)[c.request.digest].data) && !posted && cache == old(cache)
      ensures c.request.digest !in old(cache) && c.reply.Returns? && !c.dies ==>
                && data == Some(c.reply.value) && posted
                && cache == old(cache)[c.request.digest := Record(c.request.endpoint, c.request.payload, c.reply.value)]
      ensures c.request.digest !in old(cache) && (c.reply.Raises? || c.dies) ==>
                data == None && posted && cache == old(cache)
      ensures pages == old(pages) + if data.Some? then [Page(c.request.endpoint, data.value, !posted)] else []
    {
      posted := c.request.digest !in cache;
      if posted {
        if c.reply.Raises? {
          return None, true;
        }
        var ok := Persist(c.request.digest, Record(c.request.endpoint, c.request.payload, c.reply.value), c.dies);
        if !ok {
          return None, true;
        }
        data := Some(c.reply.value);
      } else {
        data := Some(cache[c.request.digest].data);
      }
      pages := pages + [Page(c.request.endpoint, data.value, !posted)];
    }
  }

  // ---------------------------------------------------------------- many calls, many processes

  /** The directory after the first `n` calls, whichever processes made them. */
  function CacheAfter(cache: Cache, calls: seq<Call>, n: nat): Cache
    requires n <= |calls|
  {
    if n == 0 then cache else After(CacheAfter(cache, calls, n - 1), calls[n - 1])
  }

  function ResultAt(cache: Cache, calls: seq<Call>, i: nat): Option<Data>
    requires i < |calls|
  {
    Result(CacheAfter(cache, calls, i), calls[i])
  }

  /** A stored record is never changed or lost. */
  lemma {:induction false} Stays(cache: Cache, calls: seq<Call>, i: nat, j: nat, d: Digest)
    requires i <= j <= |calls| && d in CacheAfter(cache, calls, i)
    ensures d in CacheAfter(cache, calls, j) && CacheAfter(cache, calls, j)[d] == CacheAfter(cache, calls, i)[d]
  {
    if i < j {
      Stays(cache, calls, i, j - 1, d);
    }
  }

  /** Once a call for a request returned an answer, every later call for it returns the same answer
      without posting, whatever the service replies by then and however often processes died. */
  lemma AnsweredOnce(cache: Cache, calls: seq<Call>, i: nat, j: nat)
    requires i < j < |calls| && calls[i].request == calls[j].request && ResultAt(cache, calls, i).Some?
    ensures ResultAt(cache, calls, j) == ResultAt(cache, calls, i)
    ensures !Posts(CacheAfter(cache, calls, j), calls[j])
  {
    Stays(cache, calls, i + 1, j, calls[i].request.digest);
  }

  /** A call posts if and only if no earlier call on its digest, and no earlier run, has stored an answer; it
      returns nothing only when it posts and the service raises or the process dies. */
  lemma PostsExactly(cache: Cache, calls: seq<Call>, j: nat)
    requires j < |calls|
    ensures Posts(CacheAfter(cache, calls, j), calls[j]) <==>
            && calls[j].request.digest !in cache
            && forall i :: 0 <= i < j && calls[i].request.digest == calls[j].request.digest ==>
                 calls[i].reply.Raises? || calls[i].dies
    ensures ResultAt(cache, calls, j).None? <==>
            Posts(CacheAfter(cache, calls, j), calls[j]) && (calls[j].reply.Raises? || calls[j].dies)
    ensures Posts(CacheAfter(cache, calls, j), calls[j]) && ResultAt(cache, calls, j).Some? ==>
              calls[j].reply == Returns(ResultAt(cache, calls, j).value)
  {
    StoredExactly(cache, calls, j, calls[j].request.digest);
  }

  lemma {:induction false} StoredExactly(cache: Cache, calls: seq<Call>, n: nat, d: Digest)
    requires n <= |calls|
    ensures d !in CacheAfter(cache, calls, n) <==>
            && d !in cache
            && forall i :: 0 <= i < n && calls[i].request.digest == d ==> calls[i].reply.Raises? || calls[i].dies
  {
    if n > 0 {
      StoredExactly(cache, calls, n - 1, d);
    }
  }

  /** A service that, when it answers, gives the same answer to the same request. */
  ghost predicate FixedServer(server: map<Request, Data>, calls: seq<Call>) {
    forall i :: 0 <= i < |calls| ==>
      calls[i].request in server && (calls[i].reply.Returns? ==> calls[i].reply.value == server[calls[i].request])
  }

  /** Requests of this collection whose digests coincide have the same answer. */
  ghost predicate Faithful(server: map<Request, Data>, requests: set<Request>) {
    forall r, s :: r in requests && s in requests && r in server && s in server && r.digest == s.digest ==>
      server[r] == server[s]
  }

  ghost function RequestsOf(calls: seq<Call>): set<Request> {
    set i | 0 <= i < |calls| :: calls[i].request
  }

  lemma {:induction false} StoredIsServed(calls: seq<Call>, server: map<Request, Data>, n: nat,
                                          d: Digest) returns (i: nat)
    requires FixedServer(server, calls) && n <= |calls| && d in CacheAfter(map[], calls, n)
    ensures i < n && calls[i].request.digest == d
    ensures CacheAfter(map[], calls, n)[d].data == server[calls[i].request]
  {
    if d in CacheAfter(map[], calls, n - 1) {
      i := StoredIsServed(calls, server, n - 1, d);
    } else {
      i := n - 1;
    }
  }

  /** Starting from an empty directory, against a fixed service, the cached client returns what the
      uncached one would, provided no two requests with different answers share a digest. */
  lemma CachedEqualsUncached(server: map<Request, Data>, calls: seq<Call>, j: nat)
    requires FixedServer(server, calls) && Faithful(server, RequestsOf(calls)) && j < |calls|
    requires ResultAt(map[], calls, j).Some?
    ensures ResultAt(map[], calls, j).value == server[calls[j].request]
  {
    var d := calls[j].request.digest;
    if d in CacheAfter(map[], calls, j) {
      var i := StoredIsServed(calls, server, j, d);
      assert calls[i].request in RequestsOf(calls) && calls[j].request in RequestsOf(calls);
    }
  }

  /** And only then: two such requests, called one after the other, give a wrong answer. */
  lemma CollisionIsWrong(server: map<Request, Data>, r: Request, s: Request)
    requires r in server && s in server && r.digest == s.digest && server[r] != server[s]
    ensures var calls := [Call(r, Returns(server[r]), false), Call(s, Returns(server[s]), false)];
            FixedServer(server, calls) && ResultAt(map[], calls, 1) == Some(server[r]) != Some(server[s])
  {
    var calls := [Call(r, Returns(server[r]), false), Call(s, Returns(server[s]), false)];
    assert CacheAfter(map[], calls, 1) == After(CacheAfter(map[], calls, 0), calls[0]);
  }

  ghost predicate AlwaysRight(server: map<Request, Data>, calls: seq<Call>) {
    forall j :: 0 <= j < |calls| && ResultAt(map[], calls, j).Some? ==>
      calls[j].request in server && ResultAt(map[], calls, j).value == server[calls[j].request]
  }

  /** The cache is transparent for all call sequences over a collection of requests if and only if
      requests of the collection that share a digest share their answer. */
  lemma TransparentExactly(server: map<Request, Data>, requests: set<Request>)
    requires requests <= server.Keys
    ensures Faithful(server, requests) <==>
            forall calls: seq<Call> :: FixedServer(server, calls) && RequestsOf(calls) <= requests ==>
              AlwaysRight(server, calls)
  {
    if Faithful(server, requests) {
      forall calls: seq<Call> | FixedServer(server, calls) && RequestsOf(calls) <= requests
        ensures AlwaysRight(server, calls)
      {
        forall j | 0 <= j < |calls| && ResultAt(map[], calls, j).Some?
          ensures calls[j].request in server && ResultAt(map[], calls, j).value == server[calls[j].request]
        {
          CachedEqualsUncached(server, calls, j);
        }
      }
    } else {
      var r, s :| r in requests && s in requests && r.digest == s.digest && server[r] != server[s];
      var calls := [Call(r, Returns(server[r]), false), Call(s, Returns(server[s]), false)];
      CollisionIsWrong(server, r, s);
      assert RequestsOf(calls) <= requests;
      assert calls[1].request == s;
      assert !AlwaysRight(server, calls);
    }
  }
}
