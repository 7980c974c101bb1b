/**
 * SQL aggregate semantics used by the ledger queries, made explicit:
 * SUM and AVG skip NULL inputs and are NULL over no non-NULL input,
 * COUNT(DISTINCT e) counts distinct non-NULL values, and Python's `x or 0`
 * turns a NULL (None) or a zero into the default.
 */
module Sql {
  import opened Wrappers
  import opened Seqs

  /** One step of SUM: a NULL input is skipped; the running total stays NULL until the first non-NULL input. */
  function Accumulate(acc: Option<real>, v: Option<real>): Option<real> {
    match v
    case None => acc
    case Some(x) => Some(acc.GetOr(0.0) + x)
  }

  /** The column expression `e` with NULL read as 0. */
  function NullAsZero<T>(e: T -> Option<real>): T -> real {
    t => e(t).GetOr(0.0)
  }

  /** `SUM(e)` over `rows`: NULL exactly when every value is NULL (in particular over no rows). */
  function SqlSum<T(!new)>(rows: seq<T>, e: T -> Option<real>): (r: Option<real>)
    ensures r.None? <==> forall i :: 0 <= i < |rows| ==> e(rows[i]).None?
    ensures r.GetOr(0.0) == Sum(rows, NullAsZero(e))
    decreases |rows|
  {
    if |rows| == 0 then None
    else Accumulate(SqlSum(rows[..|rows| - 1], e), e(rows[|rows| - 1]))
  }

  /** `COUNT(e)`: the number of rows whose value is not NULL. */
  function SqlCount<T, V>(rows: seq<T>, e: T -> Option<V>): (n: nat)
    ensures n <= |rows|
    decreases |rows|
  {
    if |rows| == 0 then 0
    else SqlCount(rows[..|rows| - 1], e) + (if e(rows[|rows| - 1]).Some? then 1 else 0)
  }

  /** `AVG(e)`: the mean of the non-NULL values, NULL when there are none. */
  function SqlAvg<T(!new)>(rows: seq<T>, e: T -> Option<real>): (r: Option<real>)
    ensures r.None? <==> SqlCount(rows, e) == 0
    ensures r.Some? ==> r.value * (SqlCount(rows, e) as real) == Sum(rows, NullAsZero(e))
  {
    var n := SqlCount(rows, e);
    if n == 0 then None else Some(SqlSum(rows, e).GetOr(0.0) / (n as real))
  }

  /** The distinct non-NULL values of an integer column. */
  function DistinctValues<T>(rows: seq<T>, e: T -> Option<int>): (vs: set<int>)
    ensures forall v :: v in vs ==> exists i :: 0 <= i < |rows| && e(rows[i]) == Some(v)
    decreases |rows|
  {
    if |rows| == 0 then {}
    else
      var last := e(rows[|rows| - 1]);
      DistinctValues(rows[..|rows| - 1], e) + (if last.Some? then {last.value} else {})
  }

  /** `COUNT(DISTINCT e)` for an integer column. */
  function CountDistinct<T>(rows: seq<T>, e: T -> Option<int>): nat {
    |DistinctValues(rows, e)|
  }

  /** When no two rows share a non-NULL value, COUNT(DISTINCT e) is plain COUNT(e). */
  lemma {:induction false} CountDistinctOfUnique<T>(rows: seq<T>, e: T -> Option<int>)
    requires forall i, j :: 0 <= i < j < |rows| && e(rows[i]).Some? ==> e(rows[i]) != e(rows[j])
    ensures CountDistinct(rows, e) == SqlCount(rows, e)
    decreases |rows|
  {
    if |rows| > 0 {
      var pre := rows[..|rows| - 1];
      var last := e(rows[|rows| - 1]);
      assert forall i, j :: 0 <= i < j < |pre| && e(pre[i]).Some? ==> e(pre[i]) != e(pre[j]) by {
        forall i, j | 0 <= i < j < |pre| && e(pre[i]).Some?
          ensures e(pre[i]) != e(pre[j])
        {
          assert pre[i] == rows[i] && pre[j] == rows[j];
        }
      }
      CountDistinctOfUnique(pre, e);
      if last.Some? {
        assert last.value !in DistinctValues(pre, e);
      }
    }
  }

  /** Python's `x or d` on a numeric value: NULL (None) and zero both fall back to `d`. */
  function OrDefault(x: Option<real>, d: real): real {
    if x.None? || x.value == 0.0 then d else x.value
  }

  /** SUM only looks at the values its column takes on the rows given. */
  lemma {:induction false} SqlSumCongruent<T(!new)>(rows: seq<T>, e1: T -> Option<real>, e2: T -> Option<real>)
    requires forall i :: 0 <= i < |rows| ==> e1(rows[i]) == e2(rows[i])
    ensures SqlSum(rows, e1) == SqlSum(rows, e2)
    decreases |rows|
  {
    if |rows| > 0 {
      var pre := rows[..|rows| - 1];
      assert forall i :: 0 <= i < |pre| ==> e1(pre[i]) == e2(pre[i]) by {
        forall i | 0 <= i < |pre| ensures e1(pre[i]) == e2(pre[i]) {
          assert pre[i] == rows[i];
        }
      }
      SqlSumCongruent(pre, e1, e2);
    }
  }

  /** COUNT of a column with no NULLs counts every row. */
  lemma {:induction false} SqlCountNoNulls<T, V>(rows: seq<T>, e: T -> Option<V>)
    requires forall i :: 0 <= i < |rows| ==> e(rows[i]).Some?
    ensures SqlCount(rows, e) == |rows|
    decreases |rows|
  {
    if |rows| > 0 {
      var pre := rows[..|rows| - 1];
      assert forall i :: 0 <= i < |pre| ==> pre[i] == rows[i];
      SqlCountNoNulls(pre, e);
    }
  }

  /** `SUM(CASE WHEN p THEN f ELSE 0 END)` is the sum of `f` over the rows satisfying `p` (NULLs counting as 0). */
  lemma {:induction false} SqlSumAsFilter<T(!new)>(rows: seq<T>, e: T -> Option<real>, p: T -> bool, f: T -> real)
    requires forall t :: e(t).GetOr(0.0) == (if p(t) then f(t) else 0.0)
    ensures SqlSum(rows, e).GetOr(0.0) == Sum(Filter(rows, p), f)
    decreases |rows|
  {
    if |rows| > 0 {
      var pre := rows[..|rows| - 1];
      var t := rows[|rows| - 1];
      SqlSumAsFilter(pre, e, p, f);
      assert rows == pre + [t];
      SumSnoc(pre, t, NullAsZero(e));
      assert NullAsZero(e)(t) == e(t).GetOr(0.0);
      FilterSnoc(pre, t, p);
      if p(t) {
        SumSnoc(Filter(pre, p), t, f);
      } else {
        assert Filter(rows, p) == Filter(pre, p);
      }
    }
  }

  /** `COUNT(CASE WHEN p THEN … END)` counts the rows satisfying `p`. */
  lemma {:induction false} SqlCountAsFilter<T(!new), V>(rows: seq<T>, e: T -> Option<V>, p: T -> bool)
    requires forall t :: e(t).Some? == p(t)
    ensures SqlCount(rows, e) == |Filter(rows, p)|
    decreases |rows|
  {
    if |rows| > 0 {
      var pre := rows[..|rows| - 1];
      var t := rows[|rows| - 1];
      SqlCountAsFilter(pre, e, p);
      assert rows == pre + [t];
      FilterSnoc(pre, t, p);
    }
  }

  /** The arithmetic mean of `f` over `s`, 0 for an empty `s`. */
  function Mean<T(!new)>(s: seq<T>, f: T -> real): real {
    if |s| == 0 then 0.0 else Sum(s, f) / (|s| as real)
  }

  /** `COALESCE(AVG(CASE WHEN p THEN f ELSE NULL END), 0)` is the mean of `f` over the rows satisfying `p`, or 0 when there are none. */
  lemma SqlAvgAsFilter<T(!new)>(rows: seq<T>, e: T -> Option<real>, p: T -> bool, f: T -> real)
    requires forall t :: e(t) == (if p(t) then Some(f(t)) else None)
    ensures SqlAvg(rows, e).GetOr(0.0) == Mean(Filter(rows, p), f)
  {
    SqlCountAsFilter(rows, e, p);
    SqlSumAsFilter(rows, e, p, f);
  }
}
