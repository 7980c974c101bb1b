/** Generic sequence helpers shared by the queries: row filtering (SQL WHERE) and sums. */
module Seqs {

  /** The elements of `s` that satisfy `p`, in their original order (a WHERE clause). */
  function Filter<T(!new)>(s: seq<T>, p: T -> bool): (r: seq<T>)
    ensures |r| <= |s|
    ensures forall i :: 0 <= i < |r| ==> p(r[i])
    decreases |s|
  {
    if |s| == 0 then []
    else Filter(s[..|s| - 1], p) + (if p(s[|s| - 1]) then [s[|s| - 1]] else [])
  }

  /** The filter keeps exactly the elements that satisfy `p`. */
  lemma {:induction false} FilterMembers<T(!new)>(s: seq<T>, p: T -> bool)
    ensures forall x :: x in Filter(s, p) <==> x in s && p(x)
    decreases |s|
  {
    if |s| > 0 {
      var s' := s[..|s| - 1];
      var x := s[|s| - 1];
      FilterMembers(s', p);
      assert s == s' + [x];
      assert Filter(s, p) == Filter(s', p) + (if p(x) then [x] else []);
    }
  }

  /** Filtering a sequence extended by one element extends the result by at most that element. */
  lemma FilterSnoc<T(!new)>(s: seq<T>, x: T, p: T -> bool)
    ensures Filter(s + [x], p) == Filter(s, p) + (if p(x) then [x] else [])
  {
    assert (s + [x])[..|s|] == s;
  }

  /** A filter that rejects every element yields the empty sequence. */
  lemma FilterNone<T(!new)>(s: seq<T>, p: T -> bool)
    requires forall i :: 0 <= i < |s| ==> !p(s[i])
    ensures Filter(s, p) == []
  {
    if |s| > 0 {
      FilterNone(s[..|s| - 1], p);
    }
  }

  /** A filter that accepts every element is the identity. */
  lemma {:induction false} FilterAll<T(!new)>(s: seq<T>, p: T -> bool)
    requires forall i :: 0 <= i < |s| ==> p(s[i])
    ensures Filter(s, p) == s
  {
    if |s| > 0 {
      var s' := s[..|s| - 1];
      var x := s[|s| - 1];
      assert Filter(s, p) == Filter(s', p) + [x];
      assert forall i :: 0 <= i < |s'| ==> p(s'[i]);
      FilterAll(s', p);
      assert s == s' + [x];
    }
  }

  /** Filtering by `q` after a weaker filter `p` is filtering by `q` alone. */
  lemma {:induction false} FilterFilter<T(!new)>(s: seq<T>, p: T -> bool, q: T -> bool)
    requires forall x :: q(x) ==> p(x)
    ensures Filter(Filter(s, p), q) == Filter(s, q)
    decreases |s|
  {
    if |s| > 0 {
      var s' := s[..|s| - 1];
      var x := s[|s| - 1];
      assert s == s' + [x];
      FilterFilter(s', p, q);
      FilterSnoc(s', x, q);
      if p(x) {
        FilterSnoc(s', x, p);
        FilterSnoc(Filter(s', p), x, q);
      } else {
        FilterSnoc(s', x, p);
        assert Filter(s, p) == Filter(s', p);
        assert Filter(s, q) == Filter(s', q);
      }
    }
  }

  /** A relation that holds between every earlier and later element still holds after filtering. */
  lemma {:induction false} FilterPairwise<T(!new)>(s: seq<T>, p: T -> bool, rel: (T, T) -> bool)
    requires forall i, j :: 0 <= i < j < |s| ==> rel(s[i], s[j])
    ensures forall i, j :: 0 <= i < j < |Filter(s, p)| ==> rel(Filter(s, p)[i], Filter(s, p)[j])
    decreases |s|
  {
    if |s| > 0 {
      var s' := s[..|s| - 1];
      var x := s[|s| - 1];
      assert forall i, j :: 0 <= i < j < |s'| ==> rel(s'[i], s'[j]) by {
        forall i, j | 0 <= i < j < |s'| ensures rel(s'[i], s'[j]) {
          assert s'[i] == s[i] && s'[j] == s[j];
        }
      }
      FilterPairwise(s', p, rel);
      FilterMembers(s', p);
      var f' := Filter(s', p);
      var f := Filter(s, p);
      if p(x) {
        assert f == f' + [x];
        forall i, j | 0 <= i < j < |f| ensures rel(f[i], f[j]) {
          if j == |f'| {
            assert f[i] == f'[i];
            assert f[i] in s';
            var k :| 0 <= k < |s'| && s'[k] == f[i];
            assert s[k] == f[i];
          } else {
            assert f[i] == f'[i] && f[j] == f'[j];
          }
        }
      } else {
        assert f == f';
      }
    }
  }

  /** A property of every element still holds of every element after filtering. */
  lemma {:induction false} FilterKeeps<T(!new)>(s: seq<T>, p: T -> bool, q: T -> bool)
    requires forall i :: 0 <= i < |s| ==> q(s[i])
    ensures forall i :: 0 <= i < |Filter(s, p)| ==> q(Filter(s, p)[i])
  {
    FilterMembers(s, p);
    forall i | 0 <= i < |Filter(s, p)| ensures q(Filter(s, p)[i]) {
      var x := Filter(s, p)[i];
      assert x in Filter(s, p);
      var k :| 0 <= k < |s| && s[k] == x;
    }
  }

  /** In a sequence without repeats every element occurs at most once. */
  lemma {:induction false} NoRepeatsCount<T>(s: seq<T>)
    requires forall i, j :: 0 <= i < j < |s| ==> s[i] != s[j]
    ensures forall x :: multiset(s)[x] <= 1
    decreases |s|
  {
    if |s| > 0 {
      var s' := s[..|s| - 1];
      var y := s[|s| - 1];
      assert forall i, j :: 0 <= i < j < |s'| ==> s'[i] != s'[j] by {
        forall i, j | 0 <= i < j < |s'| ensures s'[i] != s'[j] {
          assert s'[i] == s[i] && s'[j] == s[j];
        }
      }
      NoRepeatsCount(s');
      assert s == s' + [y];
      assert y !in s';
    }
  }

  /** An element at two positions occurs at least twice. */
  lemma RepeatCount<T>(s: seq<T>, i: int, j: int)
    requires 0 <= i < j < |s| && s[i] == s[j]
    ensures multiset(s)[s[i]] >= 2
  {
    assert s == s[..j] + [s[j]] + s[j + 1..];
    assert s[..j][i] == s[i];
    assert s[i] in multiset(s[..j]);
  }

  /** The sum of `f` over the elements of `s`. */
  function Sum<T(!new)>(s: seq<T>, f: T -> real): real
    decreases |s|
  {
    if |s| == 0 then 0.0 else Sum(s[..|s| - 1], f) + f(s[|s| - 1])
  }

  /** Summing over a sequence extended by one element adds that element's term. */
  lemma SumSnoc<T(!new)>(s: seq<T>, x: T, f: T -> real)
    ensures Sum(s + [x], f) == Sum(s, f) + f(x)
  {
    assert (s + [x])[..|s|] == s;
  }

  /** A sum of non-negative terms is non-negative. */
  lemma {:induction false} SumNonNegative<T(!new)>(s: seq<T>, f: T -> real)
    requires forall i :: 0 <= i < |s| ==> f(s[i]) >= 0.0
    ensures Sum(s, f) >= 0.0
    decreases |s|
  {
    if |s| > 0 {
      var s' := s[..|s| - 1];
      assert forall i :: 0 <= i < |s'| ==> f(s'[i]) >= 0.0 by {
        forall i | 0 <= i < |s'| ensures f(s'[i]) >= 0.0 {
          assert s'[i] == s[i];
        }
      }
      SumNonNegative(s', f);
    }
  }
}
