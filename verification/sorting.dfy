/**
 * The ordering half of `ORDER BY`: a generic insertion sort over a total preorder.
 * SQL promises only that the result is a permutation of the input ordered by the
 * key; the order among equal keys is unspecified, and the contracts below say no more.
 */
module Sorting {

  /** `le` is total and transitive, as `<=` on a sort key is. */
  ghost predicate TotalPreorder<T(!new)>(le: (T, T) -> bool) {
    && (forall a, b :: le(a, b) || le(b, a))
    && (forall a, b, c :: le(a, b) && le(b, c) ==> le(a, c))
  }

  /** Every element is `le` every later element. */
  ghost predicate SortedBy<T>(le: (T, T) -> bool, s: seq<T>) {
    forall i, j :: 0 <= i < j < |s| ==> le(s[i], s[j])
  }

  /** Inserts `x` into the sorted `s` before the first element it is `le`. */
  function Insert<T(!new)>(x: T, s: seq<T>, le: (T, T) -> bool): (r: seq<T>)
    requires TotalPreorder(le)
    requires SortedBy(le, s)
    ensures multiset(r) == multiset(s) + multiset{x}
    ensures |r| == |s| + 1
    ensures SortedBy(le, r)
    decreases |s|
  {
    if |s| == 0 then [x]
    else if le(x, s[0]) then [x] + s
    else
      var rest := Insert(x, s[1..], le);
      assert s == [s[0]] + s[1..];
      assert forall y :: y in rest ==> le(s[0], y) by {
        forall y | y in rest ensures le(s[0], y) {
          assert y in multiset(rest);
          if y != x {
            assert y in multiset(s[1..]);
            var j :| 0 <= j < |s[1..]| && s[1..][j] == y;
            assert s[j + 1] == y;
          }
        }
      }
      [s[0]] + rest
  }

  /** `s` rearranged into `le` order. */
  function Sort<T(!new)>(s: seq<T>, le: (T, T) -> bool): (r: seq<T>)
    requires TotalPreorder(le)
    ensures multiset(r) == multiset(s)
    ensures |r| == |s|
    ensures SortedBy(le, r)
    decreases |s|
  {
    if |s| == 0 then []
    else
      assert s == s[..|s| - 1] + [s[|s| - 1]];
      Insert(s[|s| - 1], Sort(s[..|s| - 1], le), le)
  }

  /** A prefix of a permutation of `s` is drawn from `s`. */
  lemma PrefixDrawnFrom<T>(s: seq<T>, sorted: seq<T>, n: nat)
    requires multiset(sorted) == multiset(s) && n <= |sorted|
    ensures multiset(sorted[..n]) <= multiset(s)
    ensures forall x :: x in sorted[..n] ==> x in s
  {
    var r := sorted[..n];
    assert sorted == r + sorted[n..];
    assert multiset(sorted) == multiset(r) + multiset(sorted[n..]);
    forall x | x in r ensures x in s {
      assert x in multiset(r);
      assert x in multiset(s);
    }
  }

  /** The whole of a permutation of `s` holds every element of `s`. */
  lemma WholeCoversAll<T>(s: seq<T>, sorted: seq<T>)
    requires multiset(sorted) == multiset(s)
    ensures forall x :: x in s ==> x in sorted
  {
    forall x | x in s ensures x in sorted {
      assert x in multiset(s);
    }
  }

  /** What a sorted prefix leaves out sorts no earlier than its last element. */
  lemma PrefixOmitted<T>(s: seq<T>, sorted: seq<T>, le: (T, T) -> bool, n: nat)
    requires multiset(sorted) == multiset(s) && SortedBy(le, sorted) && 0 < n <= |sorted|
    ensures forall x :: x in s && x !in sorted[..n] ==> le(sorted[n - 1], x)
  {
    forall x | x in s && x !in sorted[..n] ensures le(sorted[n - 1], x) {
      assert x in multiset(s);
      var j :| 0 <= j < |sorted| && sorted[j] == x;
    }
  }

  /**
   * `ORDER BY … LIMIT limit`: the first `limit` elements in `le` order, or all of
   * them when `limit` is negative (SQLite's reading of a negative LIMIT) or too large.
   */
  function OrderLimit<T(!new)>(s: seq<T>, le: (T, T) -> bool, limit: int): (r: seq<T>)
    requires TotalPreorder(le)
    ensures 0 <= limit <= |s| ==> |r| == limit
    ensures (limit < 0 || limit > |s|) ==> |r| == |s|
    ensures multiset(r) <= multiset(s)
    ensures forall x :: x in r ==> x in s
    ensures SortedBy(le, r)
    ensures |r| > 0 ==> forall x :: x in s && x !in r ==> le(r[|r| - 1], x)
    ensures |r| == |s| ==> forall x :: x in s ==> x in r
  {
    var sorted := Sort(s, le);
    var n := if limit < 0 || limit >= |sorted| then |sorted| else limit;
    assert sorted[..|sorted|] == sorted;
    PrefixDrawnFrom(s, sorted, n);
    WholeCoversAll(s, sorted);
    if n > 0 then
      PrefixOmitted(s, sorted, le, n);
      sorted[..n]
    else []
  }
}
