/**
 * `parse_amount` of handlers.py: the free-text amount reader. It takes the first
 * match of the regular expression `\d+[.,]?\d*`, reads it with Python's `float()`
 * after turning a decimal comma into a point, makes it negative when the text asks
 * for a subtraction, and picks the payment type from keywords.
 */
module AmountParser {
  import opened Wrappers
  import opened Text
  import opened Store
  import opened Digits

  // ---------------------------------------------------------------------------
  // Python's float() on a string

  /** What `float()` returns: a finite value, an infinity, or NaN. */
  datatype Float = Finite(value: real) | Infinite(negative: bool) | NaN

  /**
   * An unsigned decimal literal `digits[.digits]` or `.digits`, at least one digit
   * in all; None for anything else.
   */
  function DecimalValue(body: string): (r: Option<real>)
    ensures r.Some? ==> r.value >= 0.0 && HasDigit(body)
  {
    var i := IndexOf(body, '.');
    var a := body[..i];
    var b := if i < |body| then body[i + 1..] else "";
    if |a| + |b| > 0 && AllDigits(a) && AllDigits(b) then
      assert HasDigit(body) by {
        if |a| > 0 { assert body[0] == a[0]; } else { assert body[i + 1] == b[0]; }
      }
      Some(LiteralValue(a, b))
    else None
  }

  /** An unsigned literal: a decimal, or (ASCII case-insensitively) `inf`, `infinity` or `nan`. */
  function ParseUnsigned(body: string): (r: Option<Float>)
    ensures r.Some? && r.value.Finite? ==> r.value.value >= 0.0 && HasDigit(body)
  {
    match DecimalValue(body)
    case Some(v) => Some(Finite(v))
    case None =>
      var word := SqlLower(body);
      if word == "inf" || word == "infinity" then Some(Infinite(false))
      else if word == "nan" then Some(NaN)
      else None
  }

  /** Unary minus. */
  function Negate(f: Float): Float {
    match f
    case Finite(v) => Finite(-v)
    case Infinite(neg) => Infinite(!neg)
    case NaN => NaN
  }

  /**
   * Python's `float(s)`: surrounding whitespace is ignored, then an optional sign
   * and an unsigned literal. None stands for the ValueError.
   */
  function ParseFloat(s: string): (r: Option<Float>)
  {
    var t := Strip(s);
    var signed := |t| > 0 && (t[0] == '-' || t[0] == '+');
    var body := if signed then t[1..] else t;
    match ParseUnsigned(body)
    case None => None
    case Some(f) => Some(if signed && t[0] == '-' then Negate(f) else f)
  }

  /** Text that starts with a digit and carries no surrounding whitespace is read as an unsigned literal. */
  lemma ParseFloatUnsigned(s: string)
    requires |s| > 0 && IsDigit(s[0]) && Strip(s) == s
    ensures ParseFloat(s) == ParseUnsigned(s)
  {
    assert !(s[0] == '-' || s[0] == '+');
  }

  /** The decimal value of `digits` or `digits.digits`. */
  lemma DecimalOfDigits(t: string, n: nat)
    requires 0 < n <= |t| && AllDigits(t[..n])
    requires n < |t| ==> t[n] == '.' && AllDigits(t[n + 1..])
    ensures DecimalValue(t) == Some(LiteralValue(t[..n], if n < |t| then t[n + 1..] else ""))
  {
    IndexOfDigitsThen(t, n);
  }

  /** `float(str(n)) == n`. */
  lemma ParseFloatOfNat(n: nat)
    ensures ParseFloat(NatDigits(n)) == Some(Finite(n as real))
  {
    var s := NatDigits(n);
    StripUnchanged(s);
    ParseFloatUnsigned(s);
    assert s[..|s|] == s;
    DecimalOfDigits(s, |s|);
  }

  // ---------------------------------------------------------------------------
  // re.findall(r'\d+[.,]?\d*', text)[0]

  predicate IsSep(ch: char) {
    ch == '.' || ch == ','
  }

  /** One match of `\d+[.,]?\d*`: where it starts and its three parts. */
  datatype NumberMatch = NumberMatch(start: nat, intPart: string, sep: Option<char>, fracPart: string)

  /** The matched text. */
  function MatchText(m: NumberMatch): string {
    m.intPart + (if m.sep.Some? then [m.sep.value] else []) + m.fracPart
  }

  /** Where the matched text ends in the subject string. */
  function MatchEnd(m: NumberMatch): int {
    m.start + |MatchText(m)|
  }

  /**
   * `m` is the first match the regular expression finds in `s`: it starts at the
   * first digit, has the shape digits, optional separator, digits, and each greedy
   * part stops only where its next character could not continue it.
   */
  ghost predicate FirstRegexMatch(s: string, m: NumberMatch) {
    && MatchEnd(m) <= |s|
    && s[m.start..MatchEnd(m)] == MatchText(m)
    && (forall k :: 0 <= k < m.start ==> !IsDigit(s[k]))
    && |m.intPart| > 0 && AllDigits(m.intPart) && AllDigits(m.fracPart)
    && (m.sep.Some? ==> IsSep(m.sep.value))
    && (m.sep.None? ==> m.fracPart == [])
    && (MatchEnd(m) < |s| ==> !IsDigit(s[MatchEnd(m)]))
    && (m.sep.None? && MatchEnd(m) < |s| ==> !IsSep(s[MatchEnd(m)]))
  }

  /** The first digit at or after `i`, or `|s|` when there is none. */
  function FirstDigit(s: string, i: nat): (j: nat)
    requires i <= |s|
    ensures i <= j <= |s|
    ensures j < |s| ==> IsDigit(s[j])
    ensures forall k :: i <= k < j ==> !IsDigit(s[k])
    decreases |s| - i
  {
    if i == |s| || IsDigit(s[i]) then i else FirstDigit(s, i + 1)
  }

  /** The end of the run of digits that starts at `i`. */
  function DigitRun(s: string, i: nat): (j: nat)
    requires i <= |s|
    ensures i <= j <= |s|
    ensures forall k :: i <= k < j ==> IsDigit(s[k])
    ensures j < |s| ==> !IsDigit(s[j])
    decreases |s| - i
  {
    if i < |s| && IsDigit(s[i]) then DigitRun(s, i + 1) else i
  }

  /** `re.search(r'\d+[.,]?\d*', s)`: None when `s` has no digit. */
  function FindNumber(s: string): (m: Option<NumberMatch>)
    ensures m.None? <==> !HasDigit(s)
    ensures m.Some? ==> FirstRegexMatch(s, m.value)
  {
    var i := FirstDigit(s, 0);
    if i == |s| then None
    else
      var j := DigitRun(s, i);
      if j < |s| && IsSep(s[j]) then
        var k := DigitRun(s, j + 1);
        SeparatedMatchIsFirst(s, i, j, k);
        Some(NumberMatch(i, s[i..j], Some(s[j]), s[j + 1..k]))
      else
        PlainMatchIsFirst(s, i, j);
        Some(NumberMatch(i, s[i..j], None, ""))
  }

  /** Digits, a separator and (possibly no) digits, starting at the first digit, form the first match. */
  lemma SeparatedMatchIsFirst(s: string, i: nat, j: nat, k: nat)
    requires i < j < |s| && j + 1 <= k <= |s|
    requires i == FirstDigit(s, 0) && j == DigitRun(s, i) && IsSep(s[j]) && k == DigitRun(s, j + 1)
    ensures FirstRegexMatch(s, NumberMatch(i, s[i..j], Some(s[j]), s[j + 1..k]))
  {
    var m := NumberMatch(i, s[i..j], Some(s[j]), s[j + 1..k]);
    assert s[i..k] == s[i..j] + [s[j]] + s[j + 1..k];
    assert MatchEnd(m) == k;
  }

  /** A run of digits at the first digit that no separator follows is the first match. */
  lemma PlainMatchIsFirst(s: string, i: nat, j: nat)
    requires i < |s| && i == FirstDigit(s, 0) && j == DigitRun(s, i) && !(j < |s| && IsSep(s[j]))
    ensures FirstRegexMatch(s, NumberMatch(i, s[i..j], None, ""))
  {
    var m := NumberMatch(i, s[i..j], None, "");
    assert MatchText(m) == s[i..j];
  }

  /** The specification of the first match pins it down: there is only one. */
  lemma FirstRegexMatchUnique(s: string, m1: NumberMatch, m2: NumberMatch)
    requires FirstRegexMatch(s, m1) && FirstRegexMatch(s, m2)
    ensures m1 == m2
  {
    FirstMatchStart(s, m1);
    FirstMatchStart(s, m2);
    var i := m1.start;
    var j1 := i + |m1.intPart|;
    var j2 := i + |m2.intPart|;
    MatchIntRun(s, m1);
    MatchIntRun(s, m2);
    MatchIntPart(s, m1);
    MatchIntPart(s, m2);
    assert m1.intPart == s[i..j1] == m2.intPart;
    MatchSep(s, m1);
    MatchSep(s, m2);
    assert m1.sep == m2.sep;
    if m1.sep.Some? {
      MatchFracPart(s, m1);
      MatchFracPart(s, m2);
    }
  }

  /** A first match starts at the first digit. */
  lemma FirstMatchStart(s: string, m: NumberMatch)
    requires FirstRegexMatch(s, m)
    ensures m.start == FirstDigit(s, 0)
  {
    assert s[m.start] == MatchText(m)[0] == m.intPart[0];
  }

  /** Where the integer part sits in the subject, and that it is a whole run of digits. */
  lemma MatchIntPart(s: string, m: NumberMatch)
    requires FirstRegexMatch(s, m)
    ensures m.start + |m.intPart| <= |s|
    ensures m.intPart == s[m.start..m.start + |m.intPart|]
    ensures m.start + |m.intPart| < |s| ==> !IsDigit(s[m.start + |m.intPart|])
  {
    var t := MatchText(m);
    var j := m.start + |m.intPart|;
    assert t[..|m.intPart|] == m.intPart;
    assert s[m.start..j] == t[..|m.intPart|];
    if j < |s| {
      if m.sep.Some? {
        assert s[j] == t[|m.intPart|] == m.sep.value;
      } else {
        assert j == MatchEnd(m);
      }
    }
  }

  /** The integer part is the greedy run of digits at the start of the match. */
  lemma MatchIntRun(s: string, m: NumberMatch)
    requires FirstRegexMatch(s, m)
    ensures m.start + |m.intPart| == DigitRun(s, m.start)
  {
    var j := m.start + |m.intPart|;
    MatchIntPart(s, m);
    forall k | m.start <= k < j ensures IsDigit(s[k]) {
      assert s[k] == m.intPart[k - m.start];
    }
    DigitRunEnd(s, m.start, j);
  }

  /** A run of digits that is followed by a non-digit (or by nothing) is the greedy run. */
  lemma {:induction false} DigitRunEnd(s: string, i: nat, e: nat)
    requires i <= e <= |s|
    requires forall k :: i <= k < e ==> IsDigit(s[k])
    requires e < |s| ==> !IsDigit(s[e])
    ensures DigitRun(s, i) == e
    decreases e - i
  {
    if i < e {
      DigitRunEnd(s, i + 1, e);
    }
  }

  /** The separator is whatever follows the integer part, when that is `.` or `,`. */
  lemma MatchSep(s: string, m: NumberMatch)
    requires FirstRegexMatch(s, m)
    ensures var j := m.start + |m.intPart|;
      m.sep == (if j < |s| && IsSep(s[j]) then Some(s[j]) else None)
  {
    var t := MatchText(m);
    var j := m.start + |m.intPart|;
    MatchIntPart(s, m);
    if m.sep.Some? {
      assert s[j] == t[|m.intPart|] == m.sep.value;
    } else {
      assert j == MatchEnd(m);
    }
  }

  /** Where the fraction part sits in the subject, after the separator. */
  lemma MatchFracPart(s: string, m: NumberMatch)
    requires FirstRegexMatch(s, m) && m.sep.Some?
    ensures MatchEnd(m) == m.start + |m.intPart| + 1 + |m.fracPart|
    ensures m.fracPart == s[m.start + |m.intPart| + 1..MatchEnd(m)]
    ensures MatchEnd(m) == DigitRun(s, m.start + |m.intPart| + 1)
  {
    var t := MatchText(m);
    var f := m.start + |m.intPart| + 1;
    assert t[|m.intPart| + 1..] == m.fracPart;
    assert m.fracPart == s[f..MatchEnd(m)];
    forall k | f <= k < MatchEnd(m) ensures IsDigit(s[k]) {
      assert s[k] == m.fracPart[k - f];
    }
    DigitRunEnd(s, f, MatchEnd(m));
  }

  /** The number the match denotes. */
  function NumberValue(m: NumberMatch): (v: real)
    requires AllDigits(m.intPart) && AllDigits(m.fracPart)
    ensures v >= 0.0
  {
    LiteralValue(m.intPart, m.fracPart)
  }

  /** The value of the decimal literal with integer digits `a` and fraction digits `b`. */
  function LiteralValue(a: string, b: string): real
    requires AllDigits(a) && AllDigits(b)
  {
    DigitsValue(a) as real + FracValue(b)
  }

  /** The decimal literal `a`, `a.` or `a.b`. */
  function Literal(a: string, point: bool, b: string): string {
    a + (if point then "." else "") + b
  }

  /** Replacing the comma in a match leaves its digits and turns the separator into a point. */
  lemma ReplacedMatch(m: NumberMatch)
    requires AllDigits(m.intPart) && AllDigits(m.fracPart)
    requires (m.sep.Some? ==> IsSep(m.sep.value)) && (m.sep.None? ==> m.fracPart == [])
    ensures ReplaceChar(MatchText(m), ',', '.') == Literal(m.intPart, m.sep.Some?, m.fracPart)
  {
    var t := ReplaceChar(MatchText(m), ',', '.');
    var u := Literal(m.intPart, m.sep.Some?, m.fracPart);
    var n := |m.intPart|;
    forall k | 0 <= k < |t| ensures t[k] == u[k] {
      if k < n {
        assert MatchText(m)[k] == m.intPart[k];
      } else if m.sep.Some? && k > n {
        assert MatchText(m)[k] == m.fracPart[k - n - 1];
      }
    }
  }

  /** A decimal literal with a non-empty integer part reads as its value. */
  lemma ParseFloatOfLiteral(a: string, point: bool, b: string)
    requires |a| > 0 && AllDigits(a) && AllDigits(b) && (!point ==> b == "")
    ensures ParseFloat(Literal(a, point, b)) == Some(Finite(LiteralValue(a, b)))
  {
    var t := Literal(a, point, b);
    LiteralIsStripped(a, point, b);
    ParseFloatUnsigned(t);
    LiteralDecimal(a, point, b);
  }

  /**
   * `float("a.b")` shifted left once per fraction digit is the integer the digits
   * of `a` and `b` spell together: "500.50" reads as 50050 moved two places right.
   */
  lemma ParseFloatOfDecimal(a: string, b: string)
    requires |a| > 0 && AllDigits(a) && AllDigits(b)
    ensures AllDigits(a + b)
    ensures ParseFloat(a + "." + b).Some? && ParseFloat(a + "." + b).value.Finite?
    ensures ShiftLeft(ParseFloat(a + "." + b).value.value, |b|) == DigitsValue(a + b) as real
  {
    assert Literal(a, true, b) == a + "." + b;
    ParseFloatOfLiteral(a, true, b);
    LiteralShifted(a, b);
  }

  /** A literal's value shifted left once per fraction digit is the integer of all its digits. */
  lemma LiteralShifted(a: string, b: string)
    requires AllDigits(a) && AllDigits(b)
    ensures AllDigits(a + b)
    ensures ShiftLeft(LiteralValue(a, b), |b|) == DigitsValue(a + b) as real
  {
    ShiftLeftAdds(DigitsValue(a) as real, FracValue(b), |b|);
    FracValueScaled(b);
    DigitsValueConcat(a, b);
  }

  /** A decimal literal starts with a digit and has no surrounding whitespace. */
  lemma LiteralIsStripped(a: string, point: bool, b: string)
    requires |a| > 0 && AllDigits(a) && AllDigits(b)
    ensures var t := Literal(a, point, b); |t| > 0 && IsDigit(t[0]) && Strip(t) == t
  {
    var t := Literal(a, point, b);
    assert t[0] == a[0];
    assert !IsSpace(t[|t| - 1]) by {
      if |b| > 0 { assert t[|t| - 1] == b[|b| - 1]; }
      else if point { assert t[|t| - 1] == '.'; }
      else { assert t[|t| - 1] == a[|a| - 1]; }
    }
    StripUnchanged(t);
  }

  /** The decimal reading of a literal is its value. */
  lemma LiteralDecimal(a: string, point: bool, b: string)
    requires |a| > 0 && AllDigits(a) && AllDigits(b) && (!point ==> b == "")
    ensures DecimalValue(Literal(a, point, b)) == Some(LiteralValue(a, b))
  {
    var t := Literal(a, point, b);
    var n := |a|;
    assert t[..n] == a;
    if point {
      assert t[n + 1..] == b;
    } else {
      assert t == a;
    }
    DecimalOfDigits(t, n);
  }

  /** `float(match.replace(',', '.'))` reads the match as its number. */
  lemma ParseFloatOfMatch(m: NumberMatch)
    requires |m.intPart| > 0 && AllDigits(m.intPart) && AllDigits(m.fracPart)
    requires (m.sep.Some? ==> IsSep(m.sep.value)) && (m.sep.None? ==> m.fracPart == [])
    ensures ParseFloat(ReplaceChar(MatchText(m), ',', '.')) == Some(Finite(NumberValue(m)))
  {
    ReplacedMatch(m);
    ParseFloatOfLiteral(m.intPart, m.sep.Some?, m.fracPart);
  }

  /** In digits followed by a point (or by nothing), the first point is right after the digits. */
  lemma IndexOfDigitsThen(t: string, n: nat)
    requires n <= |t| && AllDigits(t[..n])
    requires n < |t| ==> t[n] == '.'
    ensures IndexOf(t, '.') == n
  {
    forall k | 0 <= k < n ensures t[k] != '.' {
      assert t[..n][k] == t[k];
    }
    IndexOfIs(t, '.', n);
  }

  // ---------------------------------------------------------------------------
  // parse_amount

  /** The result pair of `parse_amount`. */
  datatype Parsed = Parsed(amount: Option<real>, paymentType: Option<string>)

  /** The subtraction markers, on the stripped text. */
  predicate AsksSubtract(t: string) {
    StartsWith(t, "-") || Contains(PyLower(t), "минус") || Contains(PyLower(t), "вычесть")
  }

  /**
   * The payment-type keywords, checked on the lower-cased text: the cash words
   * first, then the card words.
   */
  function PaymentTypeOf(lower: string): Option<string> {
    if Contains(lower, "нал") || Contains(lower, "налич") || Contains(lower, "cash") then Some(Cash)
    else if Contains(lower, "безнал") || Contains(lower, "карт") || Contains(lower, "card") then Some(Card)
    else None
  }

  /** The sign rule: the magnitude, negated when the text asks for a subtraction. */
  function Signed(subtract: bool, x: real): real {
    if subtract then -x else x
  }

  /** `parse_amount(text)`. */
  function ParseAmount(text: string): (p: Parsed)
    ensures p.amount.None? <==> !HasDigit(text)
    ensures p.amount.None? ==> p.paymentType.None?
    ensures p.amount.Some? ==> p.paymentType == PaymentTypeOf(PyLower(Strip(text)))
    ensures p.amount.Some? && p.amount.value < 0.0 ==> AsksSubtract(Strip(text))
    ensures p.amount.Some? && AsksSubtract(Strip(text)) ==> p.amount.value <= 0.0
  {
    var t := Strip(text);
    StripKeepsDigits(text);
    var subtract := AsksSubtract(t);
    match FindNumber(t)
    case None => Parsed(None, None)
    case Some(m) =>
      var x := NumberValue(m);
      Parsed(Some(Signed(subtract, x)), PaymentTypeOf(PyLower(t)))
  }

  /** `abs(x)`. */
  function Abs(x: real): real {
    if x < 0.0 then -x else x
  }

  /** The amount `parse_amount` reports, when there is one, in terms of the first match of the stripped text `t`. */
  lemma ParseAmountValue(text: string, t: string)
    requires HasDigit(text) && t == Strip(text)
    ensures FindNumber(t).Some?
    ensures ParseAmount(text).amount == Some(Signed(AsksSubtract(t), NumberValue(FindNumber(t).value)))
  {
    StripKeepsDigits(text);
  }

  /** The magnitude `parse_amount` reports is `float()` of the first match, comma read as a point. */
  lemma ParseAmountReadsFirstMatch(text: string)
    requires HasDigit(text)
    ensures var t := Strip(text);
      && FindNumber(t).Some?
      && FirstRegexMatch(t, FindNumber(t).value)
      && ParseAmount(text).amount.Some?
      && ParseFloat(ReplaceChar(MatchText(FindNumber(t).value), ',', '.')) == Some(Finite(Abs(ParseAmount(text).amount.value)))
  {
    var t := Strip(text);
    ParseAmountValue(text, t);
    var m := FindNumber(t).value;
    var x := NumberValue(m);
    var a := ParseAmount(text).amount.value;
    assert Abs(a) == x by {
      assert a == x || a == -x;
    }
    ParseFloatOfMatch(m);
    assert ParseFloat(ReplaceChar(MatchText(m), ',', '.')) == Some(Finite(x));
  }

  /**
   * Round trip: a whole number written out and followed by text that neither
   * continues the number nor ends in whitespace is read back as that number,
   * negated when the text asks for a subtraction.
   */
  lemma ParseAmountOfNumber(n: nat, rest: string)
    requires |rest| > 0 ==> !IsDigit(rest[0]) && !IsSep(rest[0]) && !IsSpace(rest[|rest| - 1])
    ensures var text := NatDigits(n) + rest;
      ParseAmount(text).amount == Some(Signed(AsksSubtract(text), n as real))
  {
    var ds := NatDigits(n);
    var text := ds + rest;
    NumberTextStripped(n, rest);
    NumberTextMatch(n, rest);
    ParseAmountValue(text, text);
    assert NumberValue(NumberMatch(0, ds, None, "")) == n as real by {
      assert LiteralValue(ds, "") == DigitsValue(ds) as real + FracValue("");
    }
  }

  /** A written-out number followed by such text starts with a digit and needs no stripping. */
  lemma NumberTextStripped(n: nat, rest: string)
    requires |rest| > 0 ==> !IsSpace(rest[|rest| - 1])
    ensures var text := NatDigits(n) + rest; HasDigit(text) && Strip(text) == text
  {
    var ds := NatDigits(n);
    var text := ds + rest;
    assert text[0] == ds[0];
    assert |rest| > 0 ==> text[|text| - 1] == rest[|rest| - 1];
    assert |rest| == 0 ==> text[|text| - 1] == ds[|ds| - 1];
    StripUnchanged(text);
    assert IsDigit(text[0]);
  }

  /** The first match of a written-out number followed by such text is exactly its digits. */
  lemma NumberTextMatch(n: nat, rest: string)
    requires |rest| > 0 ==> !IsDigit(rest[0]) && !IsSep(rest[0])
    ensures FindNumber(NatDigits(n) + rest) == Some(NumberMatch(0, NatDigits(n), None, ""))
  {
    var ds := NatDigits(n);
    var text := ds + rest;
    assert IsDigit(text[0]);
    var m := FindNumber(text).value;
    var expected := NumberMatch(0, ds, None, "");
    assert text[..|ds|] == ds;
    assert FirstRegexMatch(text, expected) by {
      assert MatchText(expected) == ds;
      if |ds| < |text| { assert text[|ds|] == rest[0]; }
    }
    FirstRegexMatchUnique(text, m, expected);
  }

  /** The cash test wins: the text is cash exactly when it mentions `нал` or `cash` (`налич` adds nothing). */
  lemma PaymentTypeCash(lower: string)
    ensures PaymentTypeOf(lower) == Some(Cash) <==> Contains(lower, "нал") || Contains(lower, "cash")
  {
    if Contains(lower, "налич") {
      assert OccursAt("налич", "нал", 0);
      ContainsTransitive(lower, "налич", "нал");
    }
  }

  /** Card needs a card word and no cash word. */
  lemma PaymentTypeCard(lower: string)
    ensures PaymentTypeOf(lower) == Some(Card) <==>
      !Contains(lower, "нал") && !Contains(lower, "cash") && (Contains(lower, "карт") || Contains(lower, "card"))
  {
    PaymentTypeCash(lower);
    if Contains(lower, "безнал") {
      NalInBeznal();
      ContainsTransitive(lower, "безнал", "нал");
    }
  }

  /** `безнал` ("non-cash") contains `нал`, so the cash test claims it: it is read as cash. */
  lemma BeznalIsCash(text: string)
    requires Contains(PyLower(Strip(text)), "безнал") && HasDigit(text)
    ensures ParseAmount(text).paymentType == Some(Cash)
  {
    var lower := PyLower(Strip(text));
    NalInBeznal();
    ContainsTransitive(lower, "безнал", "нал");
    assert PaymentTypeOf(lower) == Some(Cash);
  }

  /** The word for non-cash has the word for cash inside it. */
  lemma NalInBeznal()
    ensures Contains("безнал", "нал")
  {
    assert OccursAt("безнал", "нал", 3);
  }
}
