# Cash-register bot: ledger, categories, unit economics and the amount reader

A Dafny model of the logic of a Telegram cash-register bot. The bot keeps, per
chat, a ledger of cash and card transactions in SQLite. It also keeps a
registry of product categories and reports unit economics over a trailing
window of days. Users write messages such as `1000 нал` or `-200 карт`; the
bot reads the amount, the sign and the payment type out of the text and
records a transaction.

The model is functional. The database is an immutable `Store`: a sequence of
transaction rows, a sequence of category rows, and the next id of each
`AUTOINCREMENT` table. Every write is a function from store to store. Every
query is a function of the store. The `UNIQUE(chat_id, name)` constraint and
the increasing ids form the ghost invariant `Store.Valid`, and each write is
proved to preserve it.

SQL is modelled explicitly:
- `SUM` and `AVG` skip NULLs and give NULL over no values; `COALESCE(x, 0)` is `GetOr(0.0)`.
- `COUNT(DISTINCT …)` is the size of a set.
- `ORDER BY … LIMIT` is a sort over a total preorder. Ties are left unspecified, and a negative limit means no limit.
- `LOWER` folds ASCII only.
- The window `datetime(created_at) >= datetime('now', '-N days')` is `created_at >= now - N * 86400`. Timestamps are integer seconds, and `now` is a parameter.

Python's `float()` and `str.lower()` are modelled for the inputs the bot's
keywords and numbers use.

Modules:
- `Wrappers`: `Option`.
- `Seqs`: filtering and summing sequences.
- `Sql`: NULL-aware aggregates.
- `Sorting`: an insertion sort, plus `ORDER BY … LIMIT`. The sort is not stable: of two equal elements, the later one can come out first.
- `Text`: strip, substring, lower-casing, split.
- `Digits`: the values of decimal digit strings and `str(n)`.
- `Store`: rows and invariants.
- `Ledger`: the transaction functions of database.py.
- `Registry`: the category functions.
- `Economics`: the two unit-economics queries.
- `AmountParser`: `parse_amount` and `float()`.
- `Handlers`: the write decisions of the message handlers.

## Model

| member | source | states |
|---|---|---|
| Store.EmptyValid | database.py:8-48 | a freshly created database, with both tables empty and both counters at 1, satisfies the invariant that every write preserves |
| Ledger.AddTransaction | database.py:65-87 | appends exactly one row carrying the given fields, stamped with `now` and the next id; earlier rows, categories and the category counter are unchanged; the new id exceeds every existing id and the store invariant is kept |
| Ledger.AddTransactionFrame | database.py:65-87 | an insert into one chat leaves every other chat's rows, recent list and balances as they were |
| Ledger.Balance | database.py:90-105 | cash and card balances are the sum of that chat's `add` amounts minus its `subtract` amounts for the payment type; rows of other chats or with other type strings contribute nothing; NULL from an empty chat reads as 0 |
| Ledger.ChatSumIsAmountSum | database.py:94-104 | the `SUM(CASE … ELSE 0 END)` over the chat's rows equals the closed-form sum, and is NULL exactly when the chat has no rows |
| Ledger.BalanceOfEmptyChat | database.py:103-104 | a chat with no rows has balances (0, 0) |
| Ledger.BalanceIsolated | database.py:100 | a chat's balances depend only on that chat's rows |
| Ledger.BalanceAfterAdd | database.py:65-105 | an insert moves its own chat's cash and card balances by the row's signed contribution and leaves other chats' balances unchanged |
| Ledger.RecentTransactions | database.py:108-118 | returns `limit` rows (all rows when the limit is negative or too large), all from the chat and a sub-multiset of its rows, newest first; no omitted row of the chat is newer than the last row returned |
| Ledger.ResetBalance | database.py:121-125 | removes exactly the transactions of the chat; categories and counters are untouched and the invariant is kept |
| Ledger.ResetBalanceEffect | database.py:121-125 | after a reset the chat's balances are (0, 0) and its recent list is empty; every other chat keeps its balances and recent list |
| Registry.CreateCategory | database.py:129-140 | returns None and changes nothing exactly when the chat already has that name (the UNIQUE constraint); otherwise appends the category under a fresh id larger than every existing one; transactions are untouched and the invariant is kept |
| Registry.CreateTwice | database.py:48 | creating the same name twice in a chat yields one id then None, and the chat lists the name exactly once |
| Registry.GetCategories | database.py:143-152 | exactly the chat's categories (as a multiset), ordered by name under the binary collation |
| Registry.ListedNamesUnique | database.py:48 | on a valid store a chat's listing has pairwise distinct names |
| Registry.GetCategoryByName | database.py:155-164 | returns a category of the chat whose ASCII-lowercased name equals the lowercased query, and None exactly when there is none |
| Registry.CreateThenFind | database.py:129-164 | a freshly created name is found again by name in its chat |
| Registry.DeleteCategory | database.py:167-171 | removes only the category with that id in that chat; transactions and counters are untouched and the invariant is kept |
| Registry.DeleteCategoryEffect | database.py:167-171 | after deletion the chat has no category with that id, transactions (and their category references) are unchanged, and other chats' listings are unchanged |
| Sql.SqlSum | database.py:103-104 | `SUM` is NULL exactly when every value is NULL, and otherwise the sum with NULLs counted as 0 |
| Sql.SqlAvg | database.py:229-230 | `AVG` is NULL exactly when no value is non-NULL, and otherwise the mean of the non-NULL values |
| Sql.CountDistinctOfUnique | database.py:225 | `COUNT(DISTINCT id)` equals the number of non-NULL ids when ids are unique |
| Sql.SqlSumAsFilter | database.py:226-228 | `SUM(CASE WHEN p THEN f ELSE 0 END)` coalesced to 0 is the sum of `f` over the rows satisfying `p` |
| Sql.SqlAvgAsFilter | database.py:229-230 | `AVG(CASE WHEN p THEN f ELSE NULL END)` coalesced to 0 is the mean of `f` over the rows satisfying `p` (0 when there are none) |
| Sorting.OrderLimit | database.py:115-116 | `ORDER BY … LIMIT`: the result is sorted, drawn from the input, of the limited length, and no omitted element sorts before the last one returned |
| Economics.Margin | database.py:240 | margin times revenue equals profit times 100 when revenue is positive, and the margin is 0 otherwise |
| Economics.UnitEconomicsSummary | database.py:220-251 | over the chat's rows in the window: revenue is the sum of add amounts; cost is the sum of subtract costs with NULL as 0; units the sum of add quantities; profit = revenue − cost; the margin is guarded; the average check is the mean add amount; the average unit price is the mean over add rows with positive quantity; transactions counts distinct add ids |
| Economics.SummaryCountsAddRows | database.py:225 | with unique ids the transaction count is the number of add rows in the window |
| Economics.SummaryOfEmptyWindow | database.py:237-249 | a window without rows gives all zeros and margin 0 |
| Economics.MarginAtMostHundred | database.py:238-240 | when no subtract row of the chat's window carries a negative cost, the margin never exceeds 100; other rows' costs do not matter |
| Economics.SummaryIsolated | database.py:232 | the summary depends only on the chat's own rows |
| Economics.SummaryAfterReset | database.py:220-251 | after a reset the chat's summary is all zeros, while other chats' summaries are unchanged |
| Economics.CategoryById | database.py:190 | the lookup `c.id = k` finds a category of the table carrying id `k`, and finds none exactly when no category carries it |
| Economics.JoinedCategory | database.py:190 | the LEFT JOIN finds a category with the referenced id, and finds none exactly when the reference is NULL or no category carries that id |
| Economics.GroupKeys | database.py:195 | the group keys are pairwise distinct, every row's key is among them, and every key belongs to some row |
| Economics.UnitEconomicsByCategory | database.py:174-217 | groups are ordered by revenue, highest first; every qualifying row's group appears exactly once; each group is non-empty, its revenue is the sum of its amounts, its cost is 0, its quantity the sum of quantities, its average unit price the mean over rows with positive quantity, and its average amount the mean amount |
| Economics.ByCategoryCounts | database.py:183 | with unique ids each group's transaction count is its number of rows |
| Economics.ByCategoryFiltered | database.py:178-196 | with a non-zero category filter the report has at most one row |
| Economics.JoinIgnoresChat | database.py:190 | a row referring to a category of another chat is grouped under that category and shows its name, because the join compares ids only |
| Economics.OrphanedAfterDelete | database.py:167-171 | after a category is deleted its transactions remain and no report of any chat has a group for the deleted id |
| Economics.ByCategoryIsolated | database.py:191 | the report depends only on the chat's rows and the category table |
| Digits.FracValue | handlers.py:31 | the digits after the decimal point denote a value in [0, 1) |
| Digits.FracValueScaled | handlers.py:31 | the digits after the decimal point, moved left one decimal place per digit, are the integer those digits spell: `0.50` times 100 is 50 |
| Digits.DigitsValueConcat | handlers.py:31 | the digits of `a` followed by those of `b` spell `a` times ten to the number of digits of `b`, plus `b` |
| Digits.NatDigits | handlers.py:31 | the decimal rendering of a natural number reads back as that number |
| AmountParser.ParseFloatOfNat | handlers.py:31 | `float(str(n)) == n` |
| AmountParser.FindNumber | handlers.py:27-29 | no match exactly when the text has no digit; otherwise the match is the first one `\d+[.,]?\d*` finds: it starts at the first digit and each greedy part is maximal |
| AmountParser.FirstRegexMatchUnique | handlers.py:27 | the description of the first match determines it uniquely |
| AmountParser.ParseFloatOfDecimal | handlers.py:200-205 | `float("a.b")` is a finite number which, moved left one decimal place per digit of `b`, is the integer spelled by the digits of `a` and `b` together: `500.50` reads as 50050 / 100 |
| AmountParser.ParseFloatOfMatch | handlers.py:31 | `float()` of the match with `,` replaced by `.` is the match's decimal value |
| AmountParser.ParseAmount | handlers.py:19-42 | no amount exactly when the text has no digit, and then no payment type either; a negative amount only when the text asks to subtract, and never a positive one when it does; with an amount the payment type is classified from the lower-cased stripped text |
| AmountParser.ParseAmountReadsFirstMatch | handlers.py:27-33 | the magnitude is `float()` of the first match, comma read as point |
| AmountParser.ParseAmountOfNumber | handlers.py:19-33 | a written-out whole number followed by text that neither continues it nor ends in whitespace reads back as that number, negated exactly when the text asks to subtract |
| AmountParser.PaymentTypeCash | handlers.py:36-38 | the result is cash exactly when the lowered text contains `нал` or `cash` (`налич` adds nothing) |
| AmountParser.PaymentTypeCard | handlers.py:36-40 | the result is card exactly when the text contains no `нал` and no `cash` but contains `карт` or `card` |
| AmountParser.BeznalIsCash | handlers.py:36-40 | a text containing `безнал` ("non-cash") is classified as cash |
| Handlers.Normalise | handlers.py:252-253 | the operation is `add` exactly when the parsed amount is positive, else `subtract`; the stored amount is non-negative; the signed value is the parsed amount again |
| Handlers.HandleText | handlers.py:279-327 | a write happens exactly when the text does not start with `/` and both an amount and a payment type are recognised; the row holds the normalised entry and the text; otherwise the store is unchanged |
| Handlers.HandleTextBalance | handlers.py:283-301 | a recorded free-text message moves the recognised payment type's balance by exactly the parsed signed amount; the other payment type's balance and other chats' balances are unchanged |
| Handlers.ProcessTransaction | handlers.py:236-268 | no amount gives the "not recognised" answer; an amount without a payment type gives the "payment type missing" answer; otherwise the normalised entry is written |
| Handlers.AcceptedAmount | handlers.py:199-206 | the corrected guard of "## Findings": an amount is accepted exactly when `float()` reads a finite value greater than zero |
| Handlers.ProcessOperationAmount | handlers.py:196-222 | with the corrected guard of "## Findings": unreadable text answers "bad format"; a value that is not finite and greater than zero answers "not positive"; in both cases nothing is written; an accepted amount is stored as it is, with the chosen operation and payment type |
| Handlers.AsWrittenAcceptsNonFinite | handlers.py:200-203 | the `amount <= 0` test lets `nan` and `inf` through, and the intended guard refuses both |
| Handlers.GuardsAgreeOnFinite | handlers.py:199-203 | on unreadable text and on every finite reading, the written `amount <= 0` test and the intended guard accept exactly the same amounts |
| Handlers.PaymentChoice | handlers.py:389-394 | only the four button payloads are accepted; each splits on `_` into an operation in {add, subtract} and a payment type in {cash, card} that join back to the payload |
| Handlers.ButtonFlowBalance | handlers.py:196-222 | after a button choice and an accepted amount, the chosen payment type's balance rises by the amount for `add` and falls by it for `subtract`; the other payment type's balance stays |
| Handlers.RecordedBalance | handlers.py:212-220 | writing one entry moves its own payment type's balance by the entry's signed amount and leaves the other payment type's balance alone |

## Left out

- The bot transport is not modelled: aiogram routing, keyboards, reply texts, message formatting, `show_balance`, and the conversation-state machine (beyond passing the chosen operation and payment type as parameters).
- Process launching and database set-up are not modelled: main.py, run_bot_service.py, migrate_db.py, `init_db`, and connection handling. Only the resulting row shapes are kept.
- The administrator check of `/reset` is left out: it is a network call to Telegram.
- The wall clock is a `now` parameter, and timestamps are integer seconds. SQLite's datetime text parsing is not modelled.
- Negative `days` is left out. `days` is a natural number; in SQLite a negative count makes the date expression NULL, so the window would be empty.
- Floating point is exact: amounts are `real`, so rounding is not modelled.
- Overflow of `float()` is not modelled: Python reads a digit run longer than about 309 digits as `inf`, so `parse_amount` and `process_operation_amount` would store an infinite amount, while the model reads the exact finite value.
- `Economics.Margin`: the margin is exact, while the source divides in floating point.
- `AmountParser.ParseFloat`: the parser does not accept exponents, underscores between digits, or non-ASCII digits; Python's `float()` accepts all three. It does cover signs, surrounding whitespace, `inf`, `infinity` and `nan`.
- Matching and lower-casing are partial:
  - The regular expression's `\d` is ASCII digits only; Python's also matches other Unicode decimal digits.
  - `str.lower()` is modelled for ASCII and the Cyrillic capitals U+0400–U+042F only; every other character, including other Cyrillic capitals such as U+0490, is left unchanged.
- `Ledger.RecentTransactions`: rows are returned whole, and the column projection of the SELECT is not modelled. The order among rows with equal `created_at` is left unspecified, as the SQL leaves it.
- `Registry.GetCategories`: whole category rows are returned, while the SELECT projects `id, name, description, created_at`.
- `Registry.GetCategoryByName`: the whole category row is returned, while the SELECT projects `id, name, description`.
- `Registry.GetCategoryByName`: the model returns the first matching row in table order. The SQL's `fetchone` order is unspecified, and the contract only promises some matching row.
- `Handlers.ProcessOperationAmount`: a missing operation or payment type in the conversation state is not modelled; the state is always set by the button callback before this step.
- `Handlers.ProcessOperationAmount`: uses the corrected guard, not the written one. As written, `amount <= 0` lets `inf` through, and the handler then stores an infinite amount. It also lets `nan` through; SQLite turns NaN into NULL, so the INSERT fails with an IntegrityError on the NOT NULL column, which the handler does not catch. The model answers "not positive" and writes nothing in both cases. The written guard is `Handlers.AcceptedAsWritten` (see "## Findings").
- Behaviour that does not match the specification; the model follows the code:
  - `add_transaction` validates nothing: it accepts any amount and any payment or operation string.
  - Categories have no type column.
  - The CASE arms of the by-category query that can never fire are kept. The `-amount` revenue arm and the subtract cost arm are dead because the WHERE clause admits add rows only, so the total cost is always 0.
  - The `return None` branch of the summary is never taken, because an aggregate query always returns one row.
  - The LEFT JOIN compares category ids only, so a chat's report can show another chat's category name (`Economics.JoinIgnoresChat`).

## Findings

| source | as written | input that shows it | evidently intended | confidence | as-written member | corrected member |
|---|---|---|---|---|---|---|
| handlers.py:200-203 | the typed amount is refused only when `amount <= 0`, and `float()` accepts `nan` and `inf` | `nan` passes, although NaN is not greater than zero; SQLite then stores NULL in a NOT NULL column, so the insert fails. `inf` passes and is stored, which makes the balance infinite. | only finite amounts greater than zero are recorded | not executed; medium | Handlers.AcceptedAsWritten (shown by Handlers.AsWrittenAcceptsNonFinite; it agrees with the corrected guard on finite amounts by Handlers.GuardsAgreeOnFinite) | Handlers.AcceptedAmount (used by Handlers.ProcessOperationAmount) |
