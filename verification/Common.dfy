/** Small shared vocabulary: optional values, the answer of a call that may raise,
    and sequences without repeated elements. */
module Common {

  datatype Option<+T> = None | Some(value: T)

  /** Why a call raised: the service said so, or the store failed. */
  datatype Cause = Raised(message: string) | StoreFault

  /** What an awaited call does: it returns a value or it raises. */
  datatype Answer<+T> = Returns(value: T) | Raises(error: Cause)

  ghost predicate Distinct<T(!new)>(s: seq<T>) {
    forall i, j :: 0 <= i < j < |s| ==> s[i] != s[j]
  }

  function Max(a: int, b: int): int {
    if a < b then b else a
  }

  function Min(a: int, b: int): int {
    if a < b then a else b
  }

  /** The prefix of `s` that a query with LIMIT returns; without a positive limit, all of it. */
  function Limited<T>(s: seq<T>, limit: int): (r: seq<T>)
    ensures r <= s
    ensures limit <= 0 || |s| <= limit ==> r == s
  {
    if limit > 0 && limit < |s| then s[..limit] else s
  }

  function Elements<T>(s: seq<T>): set<T> {
    set x | x in s
  }

  lemma {:induction false} DistinctSize<T(!new)>(s: seq<T>)
    requires Distinct(s)
    ensures |Elements(s)| == |s|
  {
    if s != [] {
      var before, last := s[..|s| - 1], s[|s| - 1];
      DistinctSize(before);
      assert Elements(s) == Elements(before) + {last};
      assert last !in before;
    }
  }
}
