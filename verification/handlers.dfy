/**
 * The decisions the message handlers of handlers.py take before they write:
 * which messages become transactions, how a signed amount becomes an operation
 * and a magnitude, when a typed amount is refused, and how the payment-choice
 * button data splits. Replies are reduced to which kind of answer is given.
 */
module Handlers {
  import opened Wrappers
  import opened Text
  import opened Store
  import opened Ledger
  import opened AmountParser

  /** The author of a message. */
  datatype Sender = Sender(id: int, firstName: string, username: Option<string>)

  /** `username or first_name`: an absent or empty username falls back to the first name. */
  function DisplayName(s: Sender): string {
    if s.username.Some? && s.username.value != "" then s.username.value else s.firstName
  }

  // ---------------------------------------------------------------------------
  // Normalisation

  /** What is stored for one entry: the operation and the (non-negative) amount. */
  datatype Entry = Entry(operationType: string, amount: real)

  /** The amount an entry contributes to its payment type's balance. */
  function SignedValue(e: Entry): real {
    if e.operationType == Add then e.amount
    else if e.operationType == Subtract then -e.amount
    else 0.0
  }

  /**
   * `operation_type = "add" if amount > 0 else "subtract"; amount = abs(amount)`.
   * A parsed zero becomes a subtraction of zero.
   */
  function Normalise(a: real): (e: Entry)
    ensures e.operationType == Add <==> a > 0.0
    ensures e.operationType == Add || e.operationType == Subtract
    ensures e.amount >= 0.0
    ensures SignedValue(e) == a
  {
    Entry(if a > 0.0 then Add else Subtract, Abs(a))
  }

  /** The row a handler hands to `add_transaction`: no category or unit data. */
  function EntryRow(chat: int, e: Entry, pt: string, description: string, sender: Sender): NewTransaction {
    NewTransaction(chat, e.amount, pt, e.operationType, Some(description), Some(sender.id),
                   Some(DisplayName(sender)), None, None, None, None)
  }

  /** The balance change such a row causes is its entry's signed value, on its own payment type only. */
  lemma EntryRowDelta(chat: int, e: Entry, pt: string, description: string, sender: Sender)
    requires pt == Cash || pt == Card
    ensures Delta(EntryRow(chat, e, pt, description, sender), pt) == SignedValue(e)
    ensures Delta(EntryRow(chat, e, pt, description, sender), if pt == Cash then Card else Cash) == 0.0
  {
  }

  // ---------------------------------------------------------------------------
  // Handlers

  /** The kind of answer a handler gives. */
  datatype Reply =
    | Silent                  // nothing is said
    | Hint                    // the usage hint of a private chat
    | AmountNotRecognised     // "could not recognise the amount"
    | PaymentTypeMissing      // "payment type not given"
    | BadFormat               // "wrong amount format"
    | NotPositive             // "the amount must be greater than zero"
    | Recorded(entry: Entry, paymentType: string)

  /** The store after a handler ran, and its answer. */
  datatype Handled = Handled(store: Store, reply: Reply)

  /** Writes one entry and acknowledges it. */
  function Record(st: Store, chat: int, e: Entry, pt: string, description: string, sender: Sender, now: int): Handled {
    Handled(AddTransaction(st, EntryRow(chat, e, pt, description, sender), now), Recorded(e, pt))
  }

  /**
   * `handle_text_message`: a text that is not a command and in which both an amount
   * and a payment type are recognised is written, with the text as description;
   * anything else writes nothing (with a usage hint in a private chat).
   */
  function HandleText(st: Store, chat: int, private: bool, sender: Sender, text: string, now: int): (h: Handled)
    ensures h.reply.Recorded? <==>
      !StartsWith(text, "/") && ParseAmount(text).amount.Some? && ParseAmount(text).paymentType.Some?
    ensures !h.reply.Recorded? ==> h.store == st
    ensures h.reply == Hint ==> private && !StartsWith(text, "/")
    ensures h.reply.Recorded? ==>
      && h.reply.entry == Normalise(ParseAmount(text).amount.value)
      && Some(h.reply.paymentType) == ParseAmount(text).paymentType
      && h.store == AddTransaction(st, EntryRow(chat, h.reply.entry, h.reply.paymentType, text, sender), now)
  {
    if StartsWith(text, "/") then Handled(st, Silent)
    else
      var p := ParseAmount(text);
      if p.amount.Some? && p.paymentType.Some? then
        Record(st, chat, Normalise(p.amount.value), p.paymentType.value, text, sender, now)
      else Handled(st, if private then Hint else Silent)
  }

  /** The description the button and prompt flows store. */
  function OperationBy(sender: Sender): string {
    "Операция от " + sender.firstName
  }

  /**
   * `process_transaction` (waiting for an amount): the same reader as free text, but
   * every failure is answered, and the amount is checked before the payment type.
   */
  function ProcessTransaction(st: Store, chat: int, sender: Sender, text: string, now: int): (h: Handled)
    ensures h.reply.Recorded? <==> ParseAmount(text).amount.Some? && ParseAmount(text).paymentType.Some?
    ensures h.reply == AmountNotRecognised <==> !HasDigit(text)
    ensures h.reply == PaymentTypeMissing <==> HasDigit(text) && ParseAmount(text).paymentType.None?
    ensures !h.reply.Recorded? ==> h.store == st
    ensures h.reply.Recorded? ==>
      && h.reply.entry == Normalise(ParseAmount(text).amount.value)
      && Some(h.reply.paymentType) == ParseAmount(text).paymentType
      && h.store == AddTransaction(st, EntryRow(chat, h.reply.entry, h.reply.paymentType, OperationBy(sender), sender), now)
  {
    var p := ParseAmount(text);
    if p.amount.None? then Handled(st, AmountNotRecognised)
    else if p.paymentType.None? then Handled(st, PaymentTypeMissing)
    else Record(st, chat, Normalise(p.amount.value), p.paymentType.value, OperationBy(sender), sender, now)
  }

  /**
   * The amount guard of `process_operation_amount`: `float(text.replace(',', '.'))`
   * must succeed and give a finite amount greater than zero.
   */
  function AcceptedAmount(f: Option<Float>): (r: Option<real>)
    ensures r.Some? <==> f.Some? && f.value.Finite? && f.value.value > 0.0
    ensures r.Some? ==> r.value == f.value.value
  {
    match f
    case Some(Finite(v)) => if v > 0.0 then Some(v) else None
    case _ => None
  }

  /** Python's `amount <= 0` on a float: NaN compares false, an infinity by its sign. */
  function AtMostZero(f: Float): bool {
    match f
    case Finite(v) => v <= 0.0
    case Infinite(negative) => negative
    case NaN => false
  }

  /** The guard as the handler writes it: a read amount is refused only when `amount <= 0`. */
  predicate AcceptedAsWritten(f: Option<Float>) {
    f.Some? && !AtMostZero(f.value)
  }

  /** On finite amounts the written guard and the intended one agree. */
  lemma GuardsAgreeOnFinite(f: Option<Float>)
    requires f.None? || f.value.Finite?
    ensures AcceptedAsWritten(f) <==> AcceptedAmount(f).Some?
  {
  }

  /** The written guard lets `nan` through although NaN is not greater than zero, and `inf` too. */
  lemma AsWrittenAcceptsNonFinite()
    ensures ParseFloat("nan") == Some(NaN) && AcceptedAsWritten(ParseFloat("nan"))
    ensures ParseFloat("inf") == Some(Infinite(false)) && AcceptedAsWritten(ParseFloat("inf"))
    ensures AcceptedAmount(ParseFloat("nan")).None? && AcceptedAmount(ParseFloat("inf")).None?
  {
    ReadsWord("nan");
    ReadsWord("inf");
  }

  /** A three-letter word without digits, points or whitespace is read as that word. */
  lemma ReadsWord(w: string)
    requires w == "nan" || w == "inf"
    ensures ParseFloat(w) == ParseUnsigned(w)
    ensures DecimalValue(w).None?
    ensures SqlLower(w) == w
  {
    WordReadsUnsigned(w);
    WordNotDecimal(w);
    WordIsLower(w);
  }

  /** Such a word needs no stripping and has no sign. */
  lemma WordReadsUnsigned(w: string)
    requires w == "nan" || w == "inf"
    ensures ParseFloat(w) == ParseUnsigned(w)
  {
    StripUnchanged(w);
    assert !(w[0] == '-' || w[0] == '+');
  }

  /** Such a word is not a decimal literal. */
  lemma WordNotDecimal(w: string)
    requires w == "nan" || w == "inf"
    ensures DecimalValue(w).None?
  {
    var i := IndexOf(w, '.');
    assert w[0] != '.' && w[1] != '.' && w[2] != '.';
    assert i == 3;
    assert w[..i] == w;
    assert !IsDigit(w[0]);
  }

  /** Such a word is already in lower case. */
  lemma WordIsLower(w: string)
    requires w == "nan" || w == "inf"
    ensures SqlLower(w) == w
  {
    var l := SqlLower(w);
    assert l[0] == w[0] && l[1] == w[1] && l[2] == w[2];
  }

  /**
   * `process_operation_amount`: the typed amount is stored as it is, under the
   * operation and payment type chosen earlier with the buttons.
   */
  function ProcessOperationAmount(st: Store, chat: int, sender: Sender, text: string, operation: string, paymentType: string, now: int): (h: Handled)
    ensures h.reply == BadFormat <==> ParseFloat(ReplaceChar(text, ',', '.')).None?
    ensures h.reply.Recorded? <==> AcceptedAmount(ParseFloat(ReplaceChar(text, ',', '.'))).Some?
    ensures h.reply.Recorded? || h.reply == BadFormat || h.reply == NotPositive
    ensures !h.reply.Recorded? ==> h.store == st
    ensures h.reply.Recorded? ==>
      && h.reply.entry.amount == AcceptedAmount(ParseFloat(ReplaceChar(text, ',', '.'))).value
      && h.reply.entry.amount > 0.0
      && h.reply.entry.operationType == operation && h.reply.paymentType == paymentType
      && h.store == AddTransaction(st, EntryRow(chat, h.reply.entry, paymentType, OperationBy(sender), sender), now)
  {
    var f := ParseFloat(ReplaceChar(text, ',', '.'));
    if f.None? then Handled(st, BadFormat)
    else
      match AcceptedAmount(f)
      case None => Handled(st, NotPositive)
      case Some(v) => Record(st, chat, Entry(operation, v), paymentType, OperationBy(sender), sender, now)
  }

  // ---------------------------------------------------------------------------
  // The payment-choice buttons

  /** The operation and payment type a button carries. */
  datatype Choice = Choice(operation: string, paymentType: string)

  /** The four button payloads the callback accepts. */
  predicate IsChoiceData(data: string) {
    data == "add_cash" || data == "add_card" || data == "subtract_cash" || data == "subtract_card"
  }

  /** Each payload is an operation and a payment type joined by `_`. */
  lemma ChoiceDataSplits(data: string)
    requires IsChoiceData(data)
    ensures var op := if data == "add_cash" || data == "add_card" then Add else Subtract;
      var pt := if data == "add_cash" || data == "subtract_cash" then Cash else Card;
      Split(data, '_') == [op, pt] && data == op + "_" + pt
  {
    var op := if data == "add_cash" || data == "add_card" then Add else Subtract;
    var pt := if data == "add_cash" || data == "subtract_cash" then Cash else Card;
    assert data == op + ['_'] + pt;
    SplitTwo(op, pt, '_');
  }

  /**
   * `callback_payment_type`: only the four payloads reach it; `data.split("_")`
   * gives the operation and the payment type.
   */
  function PaymentChoice(data: string): (r: Option<Choice>)
    ensures r.Some? <==> IsChoiceData(data)
    ensures r.Some? ==> r.value.operation in {Add, Subtract} && r.value.paymentType in {Cash, Card}
    ensures r.Some? ==> r.value.operation + "_" + r.value.paymentType == data
  {
    if IsChoiceData(data) then
      var parts := Split(data, '_');
      ChoiceDataSplits(data);
      Some(Choice(parts[0], parts[1]))
    else None
  }

  // ---------------------------------------------------------------------------
  // End to end

  /**
   * A recorded free-text message moves its chat's balance for the recognised
   * payment type by exactly the parsed signed amount; the other payment type and
   * every other chat keep their balances.
   */
  lemma HandleTextBalance(st: Store, chat: int, private: bool, sender: Sender, text: string, now: int, d: int)
    requires HandleText(st, chat, private, sender, text, now).reply.Recorded?
    ensures var a := ParseAmount(text).amount.value;
      var cash := ParseAmount(text).paymentType == Some(Cash);
      var b0 := Balance(st, chat);
      var b1 := Balance(HandleText(st, chat, private, sender, text, now).store, chat);
      && b1.cash == b0.cash + (if cash then a else 0.0)
      && b1.card == b0.card + (if cash then 0.0 else a)
    ensures d != chat ==> Balance(HandleText(st, chat, private, sender, text, now).store, d) == Balance(st, d)
  {
    var h := HandleText(st, chat, private, sender, text, now);
    var row := EntryRow(chat, h.reply.entry, h.reply.paymentType, text, sender);
    assert h.reply.paymentType == Cash || h.reply.paymentType == Card;
    RecordedBalance(st, chat, h.reply.entry, h.reply.paymentType, text, sender, now);
    BalanceAfterAdd(st, row, now, d);
  }

  /**
   * The button flow: after choosing a payload and typing an accepted amount, the
   * chosen payment type's balance moves up by it for `add` and down for `subtract`;
   * the other payment type's balance stays.
   */
  lemma ButtonFlowBalance(st: Store, chat: int, sender: Sender, data: string, ch: Choice, text: string, v: real, now: int)
    requires PaymentChoice(data) == Some(ch)
    requires AcceptedAmount(ParseFloat(ReplaceChar(text, ',', '.'))) == Some(v)
    ensures var s := if ch.operation == Add then v else -v;
      var b0 := Balance(st, chat);
      var b1 := Balance(ProcessOperationAmount(st, chat, sender, text, ch.operation, ch.paymentType, now).store, chat);
      && b1.cash == b0.cash + (if ch.paymentType == Cash then s else 0.0)
      && b1.card == b0.card + (if ch.paymentType == Cash then 0.0 else s)
  {
    var h := ProcessOperationAmount(st, chat, sender, text, ch.operation, ch.paymentType, now);
    RecordedBalance(st, chat, h.reply.entry, ch.paymentType, OperationBy(sender), sender, now);
  }

  /** Writing one entry moves its own payment type's balance by the entry's signed amount. */
  lemma RecordedBalance(st: Store, chat: int, e: Entry, pt: string, description: string, sender: Sender, now: int)
    requires pt == Cash || pt == Card
    ensures var b0 := Balance(st, chat);
      var b1 := Balance(AddTransaction(st, EntryRow(chat, e, pt, description, sender), now), chat);
      && b1.cash == b0.cash + (if pt == Cash then SignedValue(e) else 0.0)
      && b1.card == b0.card + (if pt == Cash then 0.0 else SignedValue(e))
  {
    var row := EntryRow(chat, e, pt, description, sender);
    EntryRowDelta(chat, e, pt, description, sender);
    CashAfterAdd(st, row, now, chat);
    CardAfterAdd(st, row, now, chat);
  }
}
