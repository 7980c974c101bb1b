/**
 * The unit-economics queries of database.py: `get_unit_economics_summary` and
 * `get_unit_economics_by_category`, over the rows of one chat inside a trailing
 * window of `days` days ending at `now` (SQLite's `datetime('now')`).
 */
module Economics {
  import opened Wrappers
  import opened Seqs
  import opened Sql
  import opened Sorting
  import opened Store
  import opened Ledger
  import opened Registry

  const SecondsPerDay: int := 86400

  /** `t.chat_id = c AND datetime(t.created_at) >= datetime('now', '-<days> days')`, the bound included. */
  function InWindow(c: int, days: nat, now: int): Transaction -> bool {
    (t: Transaction) => t.chatId == c && t.createdAt >= now - days * SecondsPerDay
  }

  /** The rows of chat `c` inside the window, in table order. */
  function WindowRows(st: Store, c: int, days: nat, now: int): seq<Transaction> {
    Filter(st.txs, InWindow(c, days, now))
  }

  // Row predicates and row values the closed forms below are stated with.

  function IsAdd(t: Transaction): bool { t.operationType == Add }
  function IsSubtract(t: Transaction): bool { t.operationType == Subtract }
  function AmountOf(t: Transaction): real { t.amount }
  function QuantityOrZero(t: Transaction): real { t.quantity.GetOr(0.0) }
  function CostOrZero(t: Transaction): real { t.cost.GetOr(0.0) }
  function UnitPriceOf(t: Transaction): real { t.unitPrice.GetOr(0.0) }

  /** An add row that enters the unit-price average: `quantity > 0` (false for NULL) and a non-NULL `unit_price`. */
  function IsPriced(t: Transaction): bool {
    IsAdd(t) && t.quantity.Some? && t.quantity.value > 0.0 && t.unitPrice.Some?
  }

  // The CASE column expressions of the two queries.

  /** `CASE WHEN operation_type = 'add' THEN quantity ELSE 0 END` */
  function AddQuantity(t: Transaction): Option<real> {
    if IsAdd(t) then t.quantity else Some(0.0)
  }

  /** `CASE WHEN operation_type = 'add' THEN amount ELSE 0 END` */
  function AddAmount(t: Transaction): Option<real> {
    Some(if IsAdd(t) then t.amount else 0.0)
  }

  /** `CASE WHEN operation_type = 'add' THEN amount ELSE -amount END` */
  function SignedAmount(t: Transaction): Option<real> {
    Some(if IsAdd(t) then t.amount else -t.amount)
  }

  /** `CASE WHEN operation_type = 'subtract' THEN COALESCE(cost, 0) ELSE 0 END` */
  function SubtractCost(t: Transaction): Option<real> {
    Some(if IsSubtract(t) then t.cost.GetOr(0.0) else 0.0)
  }

  /** `CASE WHEN operation_type = 'add' THEN amount ELSE NULL END` */
  function AddAmountOrNull(t: Transaction): Option<real> {
    if IsAdd(t) then Some(t.amount) else None
  }

  /** `CASE WHEN operation_type = 'add' AND quantity > 0 THEN unit_price ELSE NULL END` */
  function PricedUnitPrice(t: Transaction): Option<real> {
    if IsAdd(t) && t.quantity.Some? && t.quantity.value > 0.0 then t.unitPrice else None
  }

  /** `CASE WHEN operation_type = 'add' THEN id END` */
  function AddId(t: Transaction): Option<int> {
    if IsAdd(t) then Some(t.id) else None
  }

  /** The summary's SQL aggregates in closed form. */
  lemma SummaryColumns(rows: seq<Transaction>)
    ensures SqlSum(rows, AddAmount).GetOr(0.0) == Sum(Filter(rows, IsAdd), AmountOf)
    ensures SqlSum(rows, SubtractCost).GetOr(0.0) == Sum(Filter(rows, IsSubtract), CostOrZero)
    ensures SqlSum(rows, AddQuantity).GetOr(0.0) == Sum(Filter(rows, IsAdd), QuantityOrZero)
    ensures SqlAvg(rows, AddAmountOrNull).GetOr(0.0) == Mean(Filter(rows, IsAdd), AmountOf)
    ensures SqlAvg(rows, PricedUnitPrice).GetOr(0.0) == Mean(Filter(rows, IsPriced), UnitPriceOf)
  {
    assert SqlSum(rows, AddAmount).GetOr(0.0) == Sum(Filter(rows, IsAdd), AmountOf) by {
      SqlSumAsFilter(rows, AddAmount, IsAdd, AmountOf);
    }
    assert SqlSum(rows, SubtractCost).GetOr(0.0) == Sum(Filter(rows, IsSubtract), CostOrZero) by {
      SqlSumAsFilter(rows, SubtractCost, IsSubtract, CostOrZero);
    }
    assert SqlSum(rows, AddQuantity).GetOr(0.0) == Sum(Filter(rows, IsAdd), QuantityOrZero) by {
      SqlSumAsFilter(rows, AddQuantity, IsAdd, QuantityOrZero);
    }
    assert SqlAvg(rows, AddAmountOrNull).GetOr(0.0) == Mean(Filter(rows, IsAdd), AmountOf) by {
      SqlAvgAsFilter(rows, AddAmountOrNull, IsAdd, AmountOf);
    }
    assert SqlAvg(rows, PricedUnitPrice).GetOr(0.0) == Mean(Filter(rows, IsPriced), UnitPriceOf) by {
      SqlAvgAsFilter(rows, PricedUnitPrice, IsPriced, UnitPriceOf);
    }
  }

  /** The dictionary `get_unit_economics_summary` returns. */
  datatype Summary = Summary(
    transactions: nat,
    unitsSold: real,
    revenue: real,
    cost: real,
    profit: real,
    margin: real,
    avgCheck: real,
    avgUnitPrice: real)

  /** Margin in percent, guarded: 0 unless revenue is positive. */
  function Margin(profit: real, revenue: real): (m: real)
    ensures revenue > 0.0 ==> m * revenue == profit * 100.0
    ensures revenue <= 0.0 ==> m == 0.0
  {
    if revenue > 0.0 then
      assert profit / revenue * 100.0 * revenue == profit * 100.0 by {
        assert profit / revenue * revenue == profit;
      }
      profit / revenue * 100.0
    else 0.0
  }

  /**
   * `get_unit_economics_summary`. The aggregate query has no GROUP BY, so it
   * always yields one row and the `return None` branch of the source is never taken.
   */
  function UnitEconomicsSummary(st: Store, c: int, days: nat, now: int): (s: Summary)
    ensures s.revenue == Sum(Filter(WindowRows(st, c, days, now), IsAdd), AmountOf)
    ensures s.cost == Sum(Filter(WindowRows(st, c, days, now), IsSubtract), CostOrZero)
    ensures s.profit == s.revenue - s.cost
    ensures s.margin == Margin(s.profit, s.revenue)
    ensures s.unitsSold == Sum(Filter(WindowRows(st, c, days, now), IsAdd), QuantityOrZero)
    ensures s.avgCheck == Mean(Filter(WindowRows(st, c, days, now), IsAdd), AmountOf)
    ensures s.avgUnitPrice == Mean(Filter(WindowRows(st, c, days, now), IsPriced), UnitPriceOf)
    ensures s.transactions == CountDistinct(WindowRows(st, c, days, now), AddId)
  {
    SummaryOfRows(WindowRows(st, c, days, now))
  }

  /** The single aggregate row of the summary query over the selected rows. */
  function SummaryOfRows(rows: seq<Transaction>): (s: Summary)
    ensures s.revenue == Sum(Filter(rows, IsAdd), AmountOf)
    ensures s.cost == Sum(Filter(rows, IsSubtract), CostOrZero)
    ensures s.profit == s.revenue - s.cost
    ensures s.margin == Margin(s.profit, s.revenue)
    ensures s.unitsSold == Sum(Filter(rows, IsAdd), QuantityOrZero)
    ensures s.avgCheck == Mean(Filter(rows, IsAdd), AmountOf)
    ensures s.avgUnitPrice == Mean(Filter(rows, IsPriced), UnitPriceOf)
    ensures s.transactions == CountDistinct(rows, AddId)
  {
    SummaryColumns(rows);
    // `row[i] or 0` after COALESCE(…, 0) changes nothing: a zero replaced by zero is still zero.
    var revenue := SqlSum(rows, AddAmount).GetOr(0.0);
    var cost := SqlSum(rows, SubtractCost).GetOr(0.0);
    var profit := revenue - cost;
    Summary(
      CountDistinct(rows, AddId),
      SqlSum(rows, AddQuantity).GetOr(0.0),
      revenue,
      cost,
      profit,
      Margin(profit, revenue),
      SqlAvg(rows, AddAmountOrNull).GetOr(0.0),
      SqlAvg(rows, PricedUnitPrice).GetOr(0.0))
  }

  /**
   * `COUNT(DISTINCT …)` over ids: since ids are unique, the summary's transaction
   * count is the number of add rows in the window.
   */
  lemma SummaryCountsAddRows(st: Store, c: int, days: nat, now: int)
    requires Valid(st)
    ensures UnitEconomicsSummary(st, c, days, now).transactions == |Filter(WindowRows(st, c, days, now), IsAdd)|
  {
    var rows := WindowRows(st, c, days, now);
    FilterPairwise(st.txs, InWindow(c, days, now), IdBefore);
    assert forall i, j :: 0 <= i < j < |rows| && AddId(rows[i]).Some? ==> AddId(rows[i]) != AddId(rows[j]) by {
      forall i, j | 0 <= i < j < |rows| && AddId(rows[i]).Some? ensures AddId(rows[i]) != AddId(rows[j]) {
        assert IdBefore(rows[i], rows[j]);
      }
    }
    CountDistinctOfUnique(rows, AddId);
    SqlCountAsFilter(rows, AddId, IsAdd);
  }

  /** An empty window gives all-zero metrics, margin included: no division by zero. */
  lemma SummaryOfEmptyWindow(st: Store, c: int, days: nat, now: int)
    requires forall t :: t in st.txs && t.chatId == c ==> t.createdAt < now - days * SecondsPerDay
    ensures UnitEconomicsSummary(st, c, days, now) == Summary(0, 0.0, 0.0, 0.0, 0.0, 0.0, 0.0, 0.0)
  {
    assert forall i :: 0 <= i < |st.txs| ==> !InWindow(c, days, now)(st.txs[i]) by {
      forall i | 0 <= i < |st.txs| ensures !InWindow(c, days, now)(st.txs[i]) {
        assert st.txs[i] in st.txs;
      }
    }
    FilterNone(st.txs, InWindow(c, days, now));
  }

  /** A row whose cost, read as 0 when NULL, is not negative. */
  function CostNonNegative(t: Transaction): bool {
    t.cost.GetOr(0.0) >= 0.0
  }

  /** With non-negative costs the margin never exceeds 100 percent. */
  lemma MarginAtMostHundred(st: Store, c: int, days: nat, now: int)
    requires forall t :: t in WindowRows(st, c, days, now) && IsSubtract(t) ==> CostNonNegative(t)
    ensures UnitEconomicsSummary(st, c, days, now).margin <= 100.0
  {
    var s := UnitEconomicsSummary(st, c, days, now);
    var rows := WindowRows(st, c, days, now);
    var subs := Filter(rows, IsSubtract);
    assert Sum(subs, CostOrZero) >= 0.0 by {
      FilterMembers(rows, IsSubtract);
      assert forall i :: 0 <= i < |subs| ==> CostOrZero(subs[i]) >= 0.0 by {
        forall i | 0 <= i < |subs| ensures CostOrZero(subs[i]) >= 0.0 {
          assert subs[i] in subs;
          assert CostNonNegative(subs[i]);
        }
      }
      SumNonNegative(subs, CostOrZero);
    }
    assert s.cost >= 0.0;
    assert s.margin == Margin(s.profit, s.revenue) && s.profit == s.revenue - s.cost;
    SummaryMarginBound(s);
  }

  /** A summary whose cost is not negative has a margin of at most 100 percent. */
  lemma SummaryMarginBound(s: Summary)
    requires s.cost >= 0.0 && s.profit == s.revenue - s.cost && s.margin == Margin(s.profit, s.revenue)
    ensures s.margin <= 100.0
  {
    MarginBound(s.revenue, s.cost);
  }

  /** Revenue minus a non-negative cost is at most 100 percent of revenue. */
  lemma MarginBound(revenue: real, cost: real)
    requires cost >= 0.0
    ensures Margin(revenue - cost, revenue) <= 100.0
  {
    if revenue > 0.0 {
      var m := Margin(revenue - cost, revenue);
      assert (m - 100.0) * revenue == -cost * 100.0;
      assert (m - 100.0) * revenue <= 0.0;
    }
  }

  /** Tenancy: a chat's summary is a function of that chat's rows alone. */
  lemma SummaryIsolated(st: Store, st': Store, c: int, days: nat, now: int)
    requires ChatRows(st.txs, c) == ChatRows(st'.txs, c)
    ensures UnitEconomicsSummary(st, c, days, now) == UnitEconomicsSummary(st', c, days, now)
  {
    FilterFilter(st.txs, InChat(c), InWindow(c, days, now));
    FilterFilter(st'.txs, InChat(c), InWindow(c, days, now));
    assert WindowRows(st, c, days, now) == WindowRows(st', c, days, now);
  }

  /** After `reset_balance(c)` chat `c`'s summary is all zeros and every other chat's summary is unchanged. */
  lemma SummaryAfterReset(st: Store, c: int, d: int, days: nat, now: int)
    ensures UnitEconomicsSummary(ResetBalance(st, c), c, days, now) == Summary(0, 0.0, 0.0, 0.0, 0.0, 0.0, 0.0, 0.0)
    ensures d != c ==> UnitEconomicsSummary(ResetBalance(st, c), d, days, now) == UnitEconomicsSummary(st, d, days, now)
  {
    SummaryOfEmptyWindow(ResetBalance(st, c), c, days, now);
    if d != c {
      FilterFilter(st.txs, NotInChat(c), InChat(d));
      SummaryIsolated(ResetBalance(st, c), st, d, days, now);
    }
  }

  // ---------------------------------------------------------------------------
  // get_unit_economics_by_category

  /** `c.id = k` on categories. */
  function HasId(k: int): Category -> bool {
    (x: Category) => x.id == k
  }

  /** `c.id = k` looked up in the category table: the first row with that id, or None when there is none. */
  function CategoryById(cats: seq<Category>, k: int): (r: Option<Category>)
    ensures r.Some? ==> r.value in cats && r.value.id == k
    ensures r.None? <==> forall x :: x in cats ==> x.id != k
  {
    var found := Filter(cats, HasId(k));
    FilterMembers(cats, HasId(k));
    if |found| == 0 then None
    else
      assert found[0] in found;
      Some(found[0])
  }

  /**
   * `LEFT JOIN categories c ON t.category_id = c.id`: the category whose id the row
   * refers to, whatever chat it belongs to (the join does not compare chat ids), or
   * None for a NULL or dangling reference. Ids are unique, so the first match is the only one.
   */
  function JoinedCategory(cats: seq<Category>, t: Transaction): (r: Option<Category>)
    ensures r.Some? ==> r.value in cats && t.categoryId == Some(r.value.id)
    ensures r.None? <==> t.categoryId.None? || forall x :: x in cats ==> x.id != t.categoryId.value
  {
    if t.categoryId.None? then None else CategoryById(cats, t.categoryId.value)
  }

  /** `GROUP BY c.id, c.name`: the joined category's id, NULL (None) for uncategorised and orphaned rows alike. */
  function GroupKey(cats: seq<Category>, t: Transaction): Option<int> {
    match JoinedCategory(cats, t)
    case None => None
    case Some(x) => Some(x.id)
  }

  /** The `category_name` column of a group: the joined category's name. */
  function GroupName(cats: seq<Category>, k: Option<int>): Option<string> {
    match k
    case None => None
    case Some(id) =>
      match CategoryById(cats, id)
      case None => None
      case Some(x) => Some(x.name)
  }

  /** `if category_id:` in Python: the category filter applies only to a present, non-zero id. */
  function FilterCategory(cid: Option<int>): bool {
    cid.Some? && cid.value != 0
  }

  /** The WHERE clause: chat `c`, the category filter when it applies, inside the window, add rows only. */
  function Qualifies(c: int, cid: Option<int>, days: nat, now: int): Transaction -> bool {
    (t: Transaction) =>
      && t.chatId == c
      && (FilterCategory(cid) ==> t.categoryId == cid)
      && t.createdAt >= now - days * SecondsPerDay
      && IsAdd(t)
  }

  function QualifyingRows(st: Store, c: int, cid: Option<int>, days: nat, now: int): seq<Transaction> {
    Filter(st.txs, Qualifies(c, cid, days, now))
  }

  /** Membership of one group. */
  function InGroup(cats: seq<Category>, k: Option<int>): Transaction -> bool {
    (t: Transaction) => GroupKey(cats, t) == k
  }

  /** The rows of group `k`. */
  function GroupRows(cats: seq<Category>, rows: seq<Transaction>, k: Option<int>): seq<Transaction> {
    Filter(rows, InGroup(cats, k))
  }

  /** The distinct group keys of `rows`, in order of first appearance. */
  function GroupKeys(cats: seq<Category>, rows: seq<Transaction>): (ks: seq<Option<int>>)
    ensures forall i, j :: 0 <= i < j < |ks| ==> ks[i] != ks[j]
    ensures forall i :: 0 <= i < |rows| ==> GroupKey(cats, rows[i]) in ks
    ensures forall k :: k in ks ==> exists i :: 0 <= i < |rows| && GroupKey(cats, rows[i]) == k
    decreases |rows|
  {
    if |rows| == 0 then []
    else
      var pre := rows[..|rows| - 1];
      var ks := GroupKeys(cats, pre);
      var k := GroupKey(cats, rows[|rows| - 1]);
      assert forall i :: 0 <= i < |pre| ==> pre[i] == rows[i];
      if k in ks then ks else ks + [k]
  }

  /** One result row of the query. */
  datatype CategoryRow = CategoryRow(
    categoryId: Option<int>,
    categoryName: Option<string>,
    transactionsCount: nat,
    totalQuantity: real,
    avgUnitPrice: real,
    totalRevenue: real,
    totalCost: real,
    avgTransactionAmount: real)

  /** `t.id`, never NULL. */
  function IdOf(t: Transaction): Option<int> {
    Some(t.id)
  }

  /** The SELECT list evaluated over one group. */
  function GroupRow(cats: seq<Category>, group: seq<Transaction>, k: Option<int>): CategoryRow {
    CategoryRow(
      k,
      GroupName(cats, k),
      CountDistinct(group, IdOf),
      SqlSum(group, AddQuantity).GetOr(0.0),
      SqlAvg(group, PricedUnitPrice).GetOr(0.0),
      SqlSum(group, SignedAmount).GetOr(0.0),
      SqlSum(group, SubtractCost).GetOr(0.0),
      SqlAvg(group, AddAmountOrNull).GetOr(0.0))
  }

  /** The metrics a group of add rows must show. */
  ghost predicate RowDescribes(row: CategoryRow, cats: seq<Category>, group: seq<Transaction>) {
    && row.categoryName == GroupName(cats, row.categoryId)
    && row.transactionsCount == CountDistinct(group, IdOf)
    && row.totalRevenue == Sum(group, AmountOf)
    && row.totalCost == 0.0
    && row.totalQuantity == Sum(group, QuantityOrZero)
    && row.avgUnitPrice == Mean(Filter(group, IsPriced), UnitPriceOf)
    && row.avgTransactionAmount == Mean(group, AmountOf)
  }

  /**
   * Over a group of add rows the CASE columns collapse: revenue is the plain sum of
   * amounts (the `ELSE -amount` arm never fires) and cost is 0 (the subtract arm never fires).
   */
  lemma GroupRowOfAdds(cats: seq<Category>, group: seq<Transaction>, k: Option<int>)
    requires forall i :: 0 <= i < |group| ==> IsAdd(group[i])
    ensures RowDescribes(GroupRow(cats, group, k), cats, group)
  {
    FilterAll(group, IsAdd);
    assert SqlSum(group, SignedAmount) == SqlSum(group, AddAmount) by {
      SqlSumCongruent(group, SignedAmount, AddAmount);
    }
    SqlSumAsFilter(group, AddAmount, IsAdd, AmountOf);
    assert forall i :: 0 <= i < |group| ==> !IsSubtract(group[i]) by {
      forall i | 0 <= i < |group| ensures !IsSubtract(group[i]) {
        assert IsAdd(group[i]);
      }
    }
    FilterNone(group, IsSubtract);
    SqlSumAsFilter(group, SubtractCost, IsSubtract, CostOrZero);
    SqlSumAsFilter(group, AddQuantity, IsAdd, QuantityOrZero);
    SqlAvgAsFilter(group, PricedUnitPrice, IsPriced, UnitPriceOf);
    SqlAvgAsFilter(group, AddAmountOrNull, IsAdd, AmountOf);
  }

  /** `ORDER BY total_revenue DESC` as a total preorder. */
  function RevenueGe(a: CategoryRow, b: CategoryRow): bool {
    a.totalRevenue >= b.totalRevenue
  }

  lemma RevenueGeIsTotalPreorder()
    ensures TotalPreorder(RevenueGe)
  {
  }

  /** The grouped rows before ORDER BY, one per key in `keys`. */
  function GroupTable(cats: seq<Category>, rows: seq<Transaction>, keys: seq<Option<int>>): (tbl: seq<CategoryRow>)
    ensures |tbl| == |keys|
    ensures forall i :: 0 <= i < |keys| ==> tbl[i] == GroupRow(cats, GroupRows(cats, rows, keys[i]), keys[i])
  {
    seq(|keys|, i requires 0 <= i < |keys| => GroupRow(cats, GroupRows(cats, rows, keys[i]), keys[i]))
  }

  /**
   * `get_unit_economics_by_category`: the qualifying add rows grouped by joined
   * category, one row per group, highest revenue first (order among equal revenues unspecified).
   */
  function UnitEconomicsByCategory(st: Store, c: int, cid: Option<int>, days: nat, now: int): (r: seq<CategoryRow>)
    ensures forall i, j :: 0 <= i < j < |r| ==> r[i].totalRevenue >= r[j].totalRevenue
    ensures forall i, j :: 0 <= i < j < |r| ==> r[i].categoryId != r[j].categoryId
    ensures forall t :: t in QualifyingRows(st, c, cid, days, now) ==>
      exists i :: 0 <= i < |r| && r[i].categoryId == GroupKey(st.cats, t)
    ensures forall i :: 0 <= i < |r| ==>
      && |GroupRows(st.cats, QualifyingRows(st, c, cid, days, now), r[i].categoryId)| > 0
      && RowDescribes(r[i], st.cats, GroupRows(st.cats, QualifyingRows(st, c, cid, days, now), r[i].categoryId))
  {
    var rows := QualifyingRows(st, c, cid, days, now);
    var keys := GroupKeys(st.cats, rows);
    var tbl := GroupTable(st.cats, rows, keys);
    RevenueGeIsTotalPreorder();
    var r := Sort(tbl, RevenueGe);
    SortedRowsDescribe(st.cats, rows, keys, r);
    SortedRowsCover(st.cats, rows, keys, r);
    TableKeysDistinct(st.cats, rows, keys);
    PermutedKeysDistinct(tbl, r);
    r
  }

  /** Each grouped row describes a non-empty group. */
  lemma TableRowDescribes(cats: seq<Category>, rows: seq<Transaction>, keys: seq<Option<int>>, j: int)
    requires forall i :: 0 <= i < |rows| ==> IsAdd(rows[i])
    requires keys == GroupKeys(cats, rows) && 0 <= j < |keys|
    ensures |GroupRows(cats, rows, keys[j])| > 0
    ensures RowDescribes(GroupTable(cats, rows, keys)[j], cats, GroupRows(cats, rows, keys[j]))
  {
    var g := GroupRows(cats, rows, keys[j]);
    GroupOfKeyNonEmpty(cats, rows, keys[j]);
    FilterKeeps(rows, InGroup(cats, keys[j]), IsAdd);
    GroupRowOfAdds(cats, g, keys[j]);
    assert GroupTable(cats, rows, keys)[j] == GroupRow(cats, g, keys[j]);
  }

  /** A key that `GroupKeys` lists has at least one row in its group. */
  lemma GroupOfKeyNonEmpty(cats: seq<Category>, rows: seq<Transaction>, k: Option<int>)
    requires k in GroupKeys(cats, rows)
    ensures |GroupRows(cats, rows, k)| > 0
  {
    var w :| 0 <= w < |rows| && GroupKey(cats, rows[w]) == k;
    FilterMembers(rows, InGroup(cats, k));
    assert rows[w] in GroupRows(cats, rows, k);
  }

  /** A permutation of rows with pairwise distinct keys still has pairwise distinct keys. */
  lemma PermutedKeysDistinct(tbl: seq<CategoryRow>, r: seq<CategoryRow>)
    requires forall i, j :: 0 <= i < j < |tbl| ==> tbl[i].categoryId != tbl[j].categoryId
    requires multiset(r) == multiset(tbl)
    ensures forall i, j :: 0 <= i < j < |r| ==> r[i].categoryId != r[j].categoryId
  {
    NoRepeatsCount(tbl);
    forall i, j | 0 <= i < j < |r| ensures r[i].categoryId != r[j].categoryId {
      assert r[i] in multiset(tbl) && r[j] in multiset(tbl);
      var p :| 0 <= p < |tbl| && tbl[p] == r[i];
      var q :| 0 <= q < |tbl| && tbl[q] == r[j];
      if r[i].categoryId == r[j].categoryId {
        assert p == q;
        RepeatCount(r, i, j);
        assert false;
      }
    }
  }

  /** Every row of a permutation of the table describes its non-empty group. */
  lemma SortedRowsDescribe(cats: seq<Category>, rows: seq<Transaction>, keys: seq<Option<int>>, r: seq<CategoryRow>)
    requires forall i :: 0 <= i < |rows| ==> IsAdd(rows[i])
    requires keys == GroupKeys(cats, rows)
    requires multiset(r) == multiset(GroupTable(cats, rows, keys))
    ensures forall i :: 0 <= i < |r| ==>
      |GroupRows(cats, rows, r[i].categoryId)| > 0 && RowDescribes(r[i], cats, GroupRows(cats, rows, r[i].categoryId))
  {
    var tbl := GroupTable(cats, rows, keys);
    forall i | 0 <= i < |r|
      ensures |GroupRows(cats, rows, r[i].categoryId)| > 0 && RowDescribes(r[i], cats, GroupRows(cats, rows, r[i].categoryId))
    {
      assert r[i] in multiset(tbl);
      var j :| 0 <= j < |tbl| && tbl[j] == r[i];
      TableRowDescribes(cats, rows, keys, j);
    }
  }

  /** Every qualifying row's group appears in a permutation of the table. */
  lemma SortedRowsCover(cats: seq<Category>, rows: seq<Transaction>, keys: seq<Option<int>>, r: seq<CategoryRow>)
    requires keys == GroupKeys(cats, rows)
    requires multiset(r) == multiset(GroupTable(cats, rows, keys))
    ensures forall t :: t in rows ==> exists i :: 0 <= i < |r| && r[i].categoryId == GroupKey(cats, t)
  {
    var tbl := GroupTable(cats, rows, keys);
    forall t | t in rows ensures exists i :: 0 <= i < |r| && r[i].categoryId == GroupKey(cats, t) {
      var w :| 0 <= w < |rows| && rows[w] == t;
      assert GroupKey(cats, rows[w]) in keys;
      var j :| 0 <= j < |keys| && keys[j] == GroupKey(cats, t);
      assert tbl[j] in multiset(r);
      var i :| 0 <= i < |r| && r[i] == tbl[j];
      assert r[i].categoryId == keys[j];
    }
  }

  /** The table's keys are the distinct group keys. */
  lemma TableKeysDistinct(cats: seq<Category>, rows: seq<Transaction>, keys: seq<Option<int>>)
    requires keys == GroupKeys(cats, rows)
    ensures forall i, j :: 0 <= i < j < |GroupTable(cats, rows, keys)| ==>
      GroupTable(cats, rows, keys)[i].categoryId != GroupTable(cats, rows, keys)[j].categoryId
  {
  }

  /** With unique transaction ids, `COUNT(DISTINCT t.id)` of a group is its number of rows. */
  lemma ByCategoryCounts(st: Store, c: int, cid: Option<int>, days: nat, now: int)
    requires Valid(st)
    ensures var r := UnitEconomicsByCategory(st, c, cid, days, now);
      forall i :: 0 <= i < |r| ==>
        r[i].transactionsCount == |GroupRows(st.cats, QualifyingRows(st, c, cid, days, now), r[i].categoryId)|
  {
    var r := UnitEconomicsByCategory(st, c, cid, days, now);
    var rows := QualifyingRows(st, c, cid, days, now);
    FilterPairwise(st.txs, Qualifies(c, cid, days, now), IdBefore);
    forall i | 0 <= i < |r|
      ensures r[i].transactionsCount == |GroupRows(st.cats, rows, r[i].categoryId)|
    {
      var g := GroupRows(st.cats, rows, r[i].categoryId);
      FilterPairwise(rows, InGroup(st.cats, r[i].categoryId), IdBefore);
      assert forall a, b :: 0 <= a < b < |g| && IdOf(g[a]).Some? ==> IdOf(g[a]) != IdOf(g[b]) by {
        forall a, b | 0 <= a < b < |g| && IdOf(g[a]).Some? ensures IdOf(g[a]) != IdOf(g[b]) {
          assert IdBefore(g[a], g[b]);
        }
      }
      CountDistinctOfUnique(g, IdOf);
      SqlCountNoNulls(g, IdOf);
    }
  }

  /** A non-empty group has a row carrying its key. */
  lemma GroupWitness(cats: seq<Category>, rows: seq<Transaction>, k: Option<int>) returns (t: Transaction)
    requires |GroupRows(cats, rows, k)| > 0
    ensures t in rows && GroupKey(cats, t) == k
  {
    FilterMembers(rows, InGroup(cats, k));
    t := GroupRows(cats, rows, k)[0];
  }

  /** The group key depends on nothing but the row's category reference. */
  lemma GroupKeyByReference(cats: seq<Category>, t: Transaction, u: Transaction)
    requires t.categoryId == u.categoryId
    ensures GroupKey(cats, t) == GroupKey(cats, u)
  {
  }

  /** With a (non-zero) category filter every qualifying row refers to the same id, so there is at most one group. */
  lemma ByCategoryFiltered(st: Store, c: int, cid: Option<int>, days: nat, now: int)
    requires FilterCategory(cid)
    ensures |UnitEconomicsByCategory(st, c, cid, days, now)| <= 1
  {
    var r := UnitEconomicsByCategory(st, c, cid, days, now);
    var rows := QualifyingRows(st, c, cid, days, now);
    if |r| >= 2 {
      var t0 := GroupWitness(st.cats, rows, r[0].categoryId);
      var t1 := GroupWitness(st.cats, rows, r[1].categoryId);
      FilterMembers(st.txs, Qualifies(c, cid, days, now));
      GroupKeyByReference(st.cats, t0, t1);
      assert false;
    }
  }

  /**
   * The join matches on the id alone: a row referring to category `x` is grouped
   * under `x`, and shows `x`'s name, even when `x` belongs to another chat.
   */
  lemma JoinIgnoresChat(st: Store, x: Category, t: Transaction)
    requires CatIdsValid(st) && x in st.cats && t.categoryId == Some(x.id)
    ensures GroupKey(st.cats, t) == Some(x.id)
    ensures GroupName(st.cats, Some(x.id)) == Some(x.name)
  {
    var found := Filter(st.cats, HasId(x.id));
    FilterMembers(st.cats, HasId(x.id));
    assert x in found;
    var y := found[0];
    assert y in found;
    var a :| 0 <= a < |st.cats| && st.cats[a] == x;
    var b :| 0 <= b < |st.cats| && st.cats[b] == y;
    assert a == b;
  }

  /** After deleting category `x` of chat `c` no category carries `x`'s id any more. */
  lemma DeletedIdGone(st: Store, c: int, x: Category)
    requires Valid(st) && x in st.cats && x.chatId == c
    ensures forall y :: y in DeleteCategory(st, c, x.id).cats ==> y.id != x.id
  {
  }

  /** No row joins an id that no category carries, so that id has no group. */
  lemma NoGroupForMissingId(cats: seq<Category>, rows: seq<Transaction>, k: int)
    requires forall y :: y in cats ==> y.id != k
    ensures GroupRows(cats, rows, Some(k)) == []
  {
    FilterNone(rows, InGroup(cats, Some(k)));
  }

  /**
   * Deleting a category leaves its transactions in place and they fall into the
   * uncategorised group: no report of any chat has a group for the deleted id.
   */
  lemma OrphanedAfterDelete(st: Store, c: int, x: Category, d: int, cid: Option<int>, days: nat, now: int)
    requires Valid(st) && x in st.cats && x.chatId == c
    ensures DeleteCategory(st, c, x.id).txs == st.txs
    ensures forall t: Transaction :: t.categoryId == Some(x.id) ==> GroupKey(DeleteCategory(st, c, x.id).cats, t) == None
    ensures forall i :: 0 <= i < |UnitEconomicsByCategory(DeleteCategory(st, c, x.id), d, cid, days, now)| ==>
      UnitEconomicsByCategory(DeleteCategory(st, c, x.id), d, cid, days, now)[i].categoryId != Some(x.id)
  {
    var st' := DeleteCategory(st, c, x.id);
    DeletedIdGone(st, c, x);
    NoGroupForMissingId(st'.cats, QualifyingRows(st', d, cid, days, now), x.id);
  }

  /** Tenancy: a chat's by-category report is a function of that chat's rows and the category table. */
  lemma ByCategoryIsolated(st: Store, st': Store, c: int, cid: Option<int>, days: nat, now: int)
    requires ChatRows(st.txs, c) == ChatRows(st'.txs, c) && st.cats == st'.cats
    ensures UnitEconomicsByCategory(st, c, cid, days, now) == UnitEconomicsByCategory(st', c, cid, days, now)
  {
    FilterFilter(st.txs, InChat(c), Qualifies(c, cid, days, now));
    FilterFilter(st'.txs, InChat(c), Qualifies(c, cid, days, now));
  }
}
