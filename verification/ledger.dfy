/**
 * The transaction half of database.py: `add_transaction`, `get_balance`,
 * `get_recent_transactions` and `reset_balance`, as functions on the store value.
 */
module Ledger {
  import opened Wrappers
  import opened Seqs
  import opened Sql
  import opened Sorting
  import opened Store

  /** The caller-supplied columns of an INSERT into `transactions`. */
  datatype NewTransaction = NewTransaction(
    chatId: int,
    amount: real,
    paymentType: string,
    operationType: string,
    description: Option<string>,
    userId: Option<int>,
    username: Option<string>,
    categoryId: Option<int>,
    quantity: Option<real>,
    unitPrice: Option<real>,
    cost: Option<real>)

  /** `row` stored as-is under `id`, stamped with `now` (`DEFAULT CURRENT_TIMESTAMP`). */
  predicate StoredAs(t: Transaction, row: NewTransaction, id: int, now: int) {
    && t.id == id && t.createdAt == now
    && t.chatId == row.chatId && t.amount == row.amount
    && t.paymentType == row.paymentType && t.operationType == row.operationType
    && t.description == row.description && t.userId == row.userId && t.username == row.username
    && t.categoryId == row.categoryId && t.quantity == row.quantity
    && t.unitPrice == row.unitPrice && t.cost == row.cost
  }

  /**
   * `add_transaction`: one INSERT. No column is validated: a negative amount or an
   * unknown payment or operation string is stored as given.
   */
  function AddTransaction(st: Store, row: NewTransaction, now: int): (r: Store)
    ensures |r.txs| == |st.txs| + 1
    ensures r.txs[..|st.txs|] == st.txs
    ensures StoredAs(r.txs[|st.txs|], row, st.nextTxId, now)
    ensures r.cats == st.cats && r.nextCatId == st.nextCatId
    ensures Valid(st) ==> Valid(r)
    ensures Valid(st) ==> forall i :: 0 <= i < |st.txs| ==> st.txs[i].id < r.txs[|st.txs|].id
  {
    var t := Transaction(st.nextTxId, row.chatId, row.amount, row.paymentType, row.operationType,
                         row.description, now, row.userId, row.username,
                         row.categoryId, row.quantity, row.unitPrice, row.cost);
    Store(st.txs + [t], st.cats, st.nextTxId + 1, st.nextCatId)
  }

  /** `WHERE chat_id = c` */
  function InChat(c: int): Transaction -> bool {
    (t: Transaction) => t.chatId == c
  }

  /** The rows of chat `c`, in table order. */
  function ChatRows(txs: seq<Transaction>, c: int): (rows: seq<Transaction>)
    ensures forall t :: t in rows <==> t in txs && t.chatId == c
  {
    FilterMembers(txs, InChat(c));
    Filter(txs, InChat(c))
  }

  /** `CASE WHEN payment_type = pt AND operation_type = op THEN amount ELSE 0 END` */
  function BalanceTerm(pt: string, op: string): Transaction -> Option<real> {
    (t: Transaction) => Some(if t.paymentType == pt && t.operationType == op then t.amount else 0.0)
  }

  /** SQL `a - b`: NULL when either side is NULL. */
  function SqlMinus(a: Option<real>, b: Option<real>): (r: Option<real>)
    ensures r.Some? <==> a.Some? && b.Some?
    ensures r.Some? ==> r.value + b.value == a.value
  {
    if a.Some? && b.Some? then Some(a.value - b.value) else None
  }

  /** Closed form: the sum of `amount` over the rows of chat `c` with exactly these two strings. */
  function AmountSum(txs: seq<Transaction>, c: int, pt: string, op: string): real
    decreases |txs|
  {
    if |txs| == 0 then 0.0
    else
      var t := txs[|txs| - 1];
      AmountSum(txs[..|txs| - 1], c, pt, op)
        + (if t.chatId == c && t.paymentType == pt && t.operationType == op then t.amount else 0.0)
  }

  /** A balance pair as `get_balance` returns it. */
  datatype Balances = Balances(cash: real, card: real)

  /**
   * `get_balance`: per payment type, SUM of the added amounts minus SUM of the
   * subtracted amounts over the chat's rows; a NULL (no rows) or zero result reads as 0.0.
   */
  function Balance(st: Store, c: int): (b: Balances)
    ensures b.cash == AmountSum(st.txs, c, Cash, Add) - AmountSum(st.txs, c, Cash, Subtract)
    ensures b.card == AmountSum(st.txs, c, Card, Add) - AmountSum(st.txs, c, Card, Subtract)
  {
    var rows := ChatRows(st.txs, c);
    ChatSumIsAmountSum(st.txs, c, Cash, Add);
    ChatSumIsAmountSum(st.txs, c, Cash, Subtract);
    ChatSumIsAmountSum(st.txs, c, Card, Add);
    ChatSumIsAmountSum(st.txs, c, Card, Subtract);
    var cash := SqlMinus(SqlSum(rows, BalanceTerm(Cash, Add)), SqlSum(rows, BalanceTerm(Cash, Subtract)));
    var card := SqlMinus(SqlSum(rows, BalanceTerm(Card, Add)), SqlSum(rows, BalanceTerm(Card, Subtract)));
    Balances(OrDefault(cash, 0.0), OrDefault(card, 0.0))
  }

  /** The SQL sum over the chat's rows is the closed-form sum, and NULL exactly when the chat has no rows. */
  lemma {:induction false} ChatSumIsAmountSum(txs: seq<Transaction>, c: int, pt: string, op: string)
    ensures SqlSum(ChatRows(txs, c), BalanceTerm(pt, op)).GetOr(0.0) == AmountSum(txs, c, pt, op)
    ensures SqlSum(ChatRows(txs, c), BalanceTerm(pt, op)).None? <==> ChatRows(txs, c) == []
    decreases |txs|
  {
    var e := BalanceTerm(pt, op);
    if |txs| > 0 {
      var pre := txs[..|txs| - 1];
      var t := txs[|txs| - 1];
      assert txs == pre + [t];
      ChatSumIsAmountSum(pre, c, pt, op);
      FilterSnoc(pre, t, InChat(c));
      if t.chatId == c {
        var rows := ChatRows(pre, c) + [t];
        assert ChatRows(txs, c) == rows;
        assert rows[..|rows| - 1] == ChatRows(pre, c);
        assert SqlSum(rows, e) == Accumulate(SqlSum(ChatRows(pre, c), e), e(t));
      } else {
        assert ChatRows(txs, c) == ChatRows(pre, c);
      }
    }
  }

  /** `created_at DESC` as a total preorder: `a` is at least as recent as `b`. */
  function NewerOrSame(a: Transaction, b: Transaction): bool {
    a.createdAt >= b.createdAt
  }

  lemma NewerOrSameIsTotalPreorder()
    ensures TotalPreorder(NewerOrSame)
  {
  }

  /**
   * `get_recent_transactions`: the chat's rows newest first, cut to `limit` rows.
   * SQLite reads a negative LIMIT as "no limit".
   */
  function RecentTransactions(st: Store, c: int, limit: int): (r: seq<Transaction>)
    ensures 0 <= limit <= |ChatRows(st.txs, c)| ==> |r| == limit
    ensures (limit < 0 || limit > |ChatRows(st.txs, c)|) ==> |r| == |ChatRows(st.txs, c)|
    ensures multiset(r) <= multiset(ChatRows(st.txs, c))
    ensures forall t :: t in r ==> t in st.txs && t.chatId == c
    ensures forall i, j :: 0 <= i < j < |r| ==> r[i].createdAt >= r[j].createdAt
    ensures |r| > 0 ==> forall t :: t in st.txs && t.chatId == c && t !in r ==> t.createdAt <= r[|r| - 1].createdAt
    ensures (limit < 0 || limit >= |ChatRows(st.txs, c)|) ==> forall t :: t in st.txs && t.chatId == c ==> t in r
  {
    NewerOrSameIsTotalPreorder();
    OrderLimit(ChatRows(st.txs, c), NewerOrSame, limit)
  }

  /** Table order of transactions by id. */
  function IdBefore(a: Transaction, b: Transaction): bool {
    a.id < b.id
  }

  /** `WHERE chat_id != c`: the rows that survive resetting chat `c`. */
  function NotInChat(c: int): Transaction -> bool {
    (t: Transaction) => t.chatId != c
  }

  /** `reset_balance`: delete every transaction of chat `c`; categories and counters stay. */
  function ResetBalance(st: Store, c: int): (r: Store)
    ensures forall t :: t in r.txs <==> t in st.txs && t.chatId != c
    ensures r.cats == st.cats && r.nextTxId == st.nextTxId && r.nextCatId == st.nextCatId
    ensures Valid(st) ==> Valid(r)
  {
    var kept := Filter(st.txs, NotInChat(c));
    var r := Store(kept, st.cats, st.nextTxId, st.nextCatId);
    FilterMembers(st.txs, NotInChat(c));
    assert Valid(st) ==> Valid(r) by {
      if Valid(st) {
        FilterPairwise(st.txs, NotInChat(c), IdBefore);
        forall i | 0 <= i < |kept| ensures 1 <= kept[i].id < st.nextTxId {
          assert kept[i] in st.txs;
        }
      }
    }
    r
  }

  /** The change one stored row makes to a balance of its own chat. */
  function Delta(t: NewTransaction, pt: string): real {
    (if t.paymentType == pt && t.operationType == Add then t.amount else 0.0)
      - (if t.paymentType == pt && t.operationType == Subtract then t.amount else 0.0)
  }

  /**
   * Appending moves the appending chat's balances by exactly the new row's signed
   * amount, and leaves every other chat's balances as they were.
   */
  lemma BalanceAfterAdd(st: Store, row: NewTransaction, now: int, c: int)
    ensures row.chatId == c ==>
      Balance(AddTransaction(st, row, now), c)
        == Balances(Balance(st, c).cash + Delta(row, Cash), Balance(st, c).card + Delta(row, Card))
    ensures row.chatId != c ==> Balance(AddTransaction(st, row, now), c) == Balance(st, c)
  {
    var b, b' := Balance(st, c), Balance(AddTransaction(st, row, now), c);
    CashAfterAdd(st, row, now, c);
    CardAfterAdd(st, row, now, c);
    SameBalances(b', Balances(b.cash + Delta(row, Cash), b.card + Delta(row, Card)));
    SameBalances(b', b);
  }

  /** The cash balance after an insert, in terms of the inserted row. */
  lemma CashAfterAdd(st: Store, row: NewTransaction, now: int, c: int)
    ensures Balance(AddTransaction(st, row, now), c).cash
      == Balance(st, c).cash + (if row.chatId == c then Delta(row, Cash) else 0.0)
  {
    AmountSumAfterAdd(st, row, now, c, Cash, Add);
    AmountSumAfterAdd(st, row, now, c, Cash, Subtract);
  }

  /** The card balance after an insert, in terms of the inserted row. */
  lemma CardAfterAdd(st: Store, row: NewTransaction, now: int, c: int)
    ensures Balance(AddTransaction(st, row, now), c).card
      == Balance(st, c).card + (if row.chatId == c then Delta(row, Card) else 0.0)
  {
    AmountSumAfterAdd(st, row, now, c, Card, Add);
    AmountSumAfterAdd(st, row, now, c, Card, Subtract);
  }

  /** One closed-form sum after an insert, in terms of the inserted row. */
  lemma AmountSumAfterAdd(st: Store, row: NewTransaction, now: int, c: int, pt: string, op: string)
    ensures AmountSum(AddTransaction(st, row, now).txs, c, pt, op)
      == AmountSum(st.txs, c, pt, op) + (if row.chatId == c && row.paymentType == pt && row.operationType == op then row.amount else 0.0)
  {
    var st' := AddTransaction(st, row, now);
    var t := st'.txs[|st.txs|];
    assert st'.txs == st.txs + [t];
    AmountSumSnoc(st.txs, t, c, pt, op);
  }

  /** Appending one row adds its amount to the one closed-form sum it belongs to. */
  lemma AmountSumSnoc(txs: seq<Transaction>, t: Transaction, c: int, pt: string, op: string)
    ensures AmountSum(txs + [t], c, pt, op)
      == AmountSum(txs, c, pt, op) + (if t.chatId == c && t.paymentType == pt && t.operationType == op then t.amount else 0.0)
  {
    assert (txs + [t])[..|txs|] == txs;
  }

  /** Two balance pairs with equal components are equal. */
  lemma SameBalances(a: Balances, b: Balances)
    ensures a.cash == b.cash && a.card == b.card ==> a == b
  {
  }

  /** Only the rows of chat `c` enter its closed-form sums: any filter that keeps them all leaves the sums alone. */
  lemma {:induction false} AmountSumOfFilter(txs: seq<Transaction>, p: Transaction -> bool, c: int, pt: string, op: string)
    requires forall t: Transaction :: t.chatId == c ==> p(t)
    ensures AmountSum(Filter(txs, p), c, pt, op) == AmountSum(txs, c, pt, op)
    decreases |txs|
  {
    if |txs| > 0 {
      var pre := txs[..|txs| - 1];
      var t := txs[|txs| - 1];
      assert txs == pre + [t];
      AmountSumOfFilter(pre, p, c, pt, op);
      FilterSnoc(pre, t, p);
      var f := Filter(pre, p) + (if p(t) then [t] else []);
      assert Filter(txs, p) == f;
      if p(t) {
        assert f[..|f| - 1] == Filter(pre, p);
      } else {
        assert f == Filter(pre, p);
      }
    }
  }

  /** A chat without rows has closed-form sums of zero. */
  lemma {:induction false} AmountSumNoRows(txs: seq<Transaction>, c: int, pt: string, op: string)
    requires forall i :: 0 <= i < |txs| ==> txs[i].chatId != c
    ensures AmountSum(txs, c, pt, op) == 0.0
    decreases |txs|
  {
    if |txs| > 0 {
      var pre := txs[..|txs| - 1];
      assert forall i :: 0 <= i < |pre| ==> pre[i].chatId != c by {
        forall i | 0 <= i < |pre| ensures pre[i].chatId != c {
          assert pre[i] == txs[i];
        }
      }
      AmountSumNoRows(pre, c, pt, op);
    }
  }

  /** A chat with no rows has balances (0, 0). */
  lemma BalanceOfEmptyChat(st: Store, c: int)
    requires forall t :: t in st.txs ==> t.chatId != c
    ensures Balance(st, c) == Balances(0.0, 0.0)
  {
    AmountSumNoRows(st.txs, c, Cash, Add);
    AmountSumNoRows(st.txs, c, Cash, Subtract);
    AmountSumNoRows(st.txs, c, Card, Add);
    AmountSumNoRows(st.txs, c, Card, Subtract);
  }

  /** Tenancy: a chat's balances are a function of that chat's rows alone. */
  lemma BalanceIsolated(st: Store, st': Store, c: int)
    requires ChatRows(st.txs, c) == ChatRows(st'.txs, c)
    ensures Balance(st, c) == Balance(st', c)
  {
    forall pt, op ensures AmountSum(st.txs, c, pt, op) == AmountSum(st'.txs, c, pt, op) {
      AmountSumOfFilter(st.txs, InChat(c), c, pt, op);
      AmountSumOfFilter(st'.txs, InChat(c), c, pt, op);
    }
  }

  /** After `reset_balance(c)` chat `c` has balances (0, 0) and no history; every other chat keeps its balances and its history. */
  lemma ResetBalanceEffect(st: Store, c: int, d: int, limit: int)
    ensures Balance(ResetBalance(st, c), c) == Balances(0.0, 0.0)
    ensures RecentTransactions(ResetBalance(st, c), c, limit) == []
    ensures d != c ==> Balance(ResetBalance(st, c), d) == Balance(st, d)
    ensures d != c ==> RecentTransactions(ResetBalance(st, c), d, limit) == RecentTransactions(st, d, limit)
  {
    var r := ResetBalance(st, c);
    BalanceOfEmptyChat(r, c);
    if d != c {
      FilterFilter(st.txs, NotInChat(c), InChat(d));
      BalanceIsolated(r, st, d);
    }
  }

  /** Appending a row of another chat changes neither the balances nor the history of chat `d`. */
  lemma AddTransactionFrame(st: Store, row: NewTransaction, now: int, d: int, limit: int)
    requires row.chatId != d
    ensures ChatRows(AddTransaction(st, row, now).txs, d) == ChatRows(st.txs, d)
    ensures RecentTransactions(AddTransaction(st, row, now), d, limit) == RecentTransactions(st, d, limit)
    ensures Balance(AddTransaction(st, row, now), d) == Balance(st, d)
  {
    var r := AddTransaction(st, row, now);
    assert r.txs == st.txs + [r.txs[|st.txs|]];
    FilterSnoc(st.txs, r.txs[|st.txs|], InChat(d));
    BalanceIsolated(r, st, d);
  }
}
