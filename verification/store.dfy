/**
 * The persisted state of the cash-desk bot: the `transactions` and `categories`
 * tables of database.py, each with its AUTOINCREMENT counter, as one immutable value.
 */
module Store {
  import opened Wrappers

  /** The string values the front-end writes into `payment_type` and `operation_type`. */
  const Cash: string := "cash"
  const Card: string := "card"
  const Add: string := "add"
  const Subtract: string := "subtract"

  /**
   * One row of `transactions`. `payment_type` and `operation_type` are free text
   * columns (the table does not constrain them); `created_at` is a timestamp in
   * whole seconds; the four unit-economics columns are nullable.
   */
  datatype Transaction = Transaction(
    id: int,
    chatId: int,
    amount: real,
    paymentType: string,
    operationType: string,
    description: Option<string>,
    createdAt: int,
    userId: Option<int>,
    username: Option<string>,
    categoryId: Option<int>,
    quantity: Option<real>,
    unitPrice: Option<real>,
    cost: Option<real>)

  /** One row of `categories`. */
  datatype Category = Category(
    id: int,
    chatId: int,
    name: string,
    description: Option<string>,
    createdAt: int)

  /**
   * Both tables in rowid order, and for each the next id AUTOINCREMENT hands out
   * (one more than the largest id ever used; ids are never reused).
   */
  datatype Store = Store(
    txs: seq<Transaction>,
    cats: seq<Category>,
    nextTxId: int,
    nextCatId: int)

  /** A freshly created database file: both tables empty, both counters at 1. */
  const Empty: Store := Store([], [], 1, 1)

  /** Transaction ids are positive, below the counter and increase along the table. */
  ghost predicate TxIdsValid(st: Store) {
    && 1 <= st.nextTxId
    && (forall i :: 0 <= i < |st.txs| ==> 1 <= st.txs[i].id < st.nextTxId)
    && (forall i, j :: 0 <= i < j < |st.txs| ==> st.txs[i].id < st.txs[j].id)
  }

  /** Category ids are positive, below the counter and increase along the table. */
  ghost predicate CatIdsValid(st: Store) {
    && 1 <= st.nextCatId
    && (forall i :: 0 <= i < |st.cats| ==> 1 <= st.cats[i].id < st.nextCatId)
    && (forall i, j :: 0 <= i < j < |st.cats| ==> st.cats[i].id < st.cats[j].id)
  }

  /** The `UNIQUE(chat_id, name)` constraint of `categories`. */
  ghost predicate NamesUnique(cats: seq<Category>) {
    forall i, j :: 0 <= i < j < |cats| && cats[i].chatId == cats[j].chatId ==> cats[i].name != cats[j].name
  }

  /** What the schema guarantees of every reachable database state. */
  ghost predicate Valid(st: Store) {
    TxIdsValid(st) && CatIdsValid(st) && NamesUnique(st.cats)
  }

  /** The empty database satisfies the schema's guarantees. */
  lemma EmptyValid()
    ensures Valid(Empty)
  {
  }
}
