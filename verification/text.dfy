/**
 * String operations the handlers and the SQL use: Python's `str.strip`, `in`,
 * `startswith`, `lower`, `replace` and `split`, SQLite's `LOWER`, and the BINARY
 * collation `ORDER BY name` sorts with. Strings are sequences of Unicode scalar values.
 */
module Text {

  /** The characters Python's `str.strip()` removes (its Unicode whitespace set). */
  predicate IsSpace(ch: char) {
    || ('\t' <= ch <= '\r') || ('\U{1C}' <= ch <= ' ')
    || ch == '\U{85}' || ch == '\U{A0}' || ch == '\U{1680}'
    || ('\U{2000}' <= ch <= '\U{200A}') || ch == '\U{2028}' || ch == '\U{2029}'
    || ch == '\U{202F}' || ch == '\U{205F}' || ch == '\U{3000}'
  }

  /** An ASCII decimal digit (what `\d` and `float()` are modelled to accept). */
  predicate IsDigit(ch: char) {
    '0' <= ch <= '9'
  }

  /** Some character of `s` is a digit. */
  predicate HasDigit(s: string) {
    exists k :: 0 <= k < |s| && IsDigit(s[k])
  }

  /** `s` with its leading whitespace removed. */
  function TrimStart(s: string): (r: string)
    ensures |r| <= |s| && r == s[|s| - |r|..]
    ensures forall k :: 0 <= k < |s| - |r| ==> IsSpace(s[k])
    ensures |r| > 0 ==> !IsSpace(r[0])
    decreases |s|
  {
    if |s| > 0 && IsSpace(s[0]) then TrimStart(s[1..]) else s
  }

  /** `s` with its trailing whitespace removed. */
  function TrimEnd(s: string): (r: string)
    ensures |r| <= |s| && r == s[..|r|]
    ensures forall k :: |r| <= k < |s| ==> IsSpace(s[k])
    ensures |r| > 0 ==> !IsSpace(r[|r| - 1])
    decreases |s|
  {
    if |s| > 0 && IsSpace(s[|s| - 1]) then TrimEnd(s[..|s| - 1]) else s
  }

  /** Python's `s.strip()`. */
  function Strip(s: string): (r: string)
    ensures |r| <= |s|
    ensures |r| > 0 ==> !IsSpace(r[0]) && !IsSpace(r[|r| - 1])
  {
    TrimEnd(TrimStart(s))
  }

  /** A string with no whitespace at either end is its own strip. */
  lemma StripUnchanged(s: string)
    requires |s| > 0 ==> !IsSpace(s[0]) && !IsSpace(s[|s| - 1])
    ensures Strip(s) == s
  {
  }

  /** Removing leading whitespace keeps every digit. */
  lemma TrimStartKeepsDigits(s: string)
    ensures HasDigit(TrimStart(s)) <==> HasDigit(s)
  {
    var r := TrimStart(s);
    var off := |s| - |r|;
    if HasDigit(s) {
      var k :| 0 <= k < |s| && IsDigit(s[k]);
      assert !IsSpace(s[k]);
      assert r[k - off] == s[k];
    }
    if HasDigit(r) {
      SuffixDigits(s, off);
    }
  }

  /** A digit in a suffix is a digit of the whole string. */
  lemma SuffixDigits(t: string, d: nat)
    requires d <= |t| && HasDigit(t[d..])
    ensures HasDigit(t)
  {
    var k :| 0 <= k < |t| - d && IsDigit(t[d..][k]);
    assert t[d + k] == t[d..][k];
  }

  /** Removing trailing whitespace keeps every digit. */
  lemma TrimEndKeepsDigits(s: string)
    ensures HasDigit(TrimEnd(s)) <==> HasDigit(s)
  {
    var r := TrimEnd(s);
    if HasDigit(s) {
      var k :| 0 <= k < |s| && IsDigit(s[k]);
      assert !IsSpace(s[k]);
      assert r[k] == s[k];
    }
    if HasDigit(r) {
      var k :| 0 <= k < |r| && IsDigit(r[k]);
      assert r[k] == s[k];
    }
  }

  /** Stripping removes only whitespace, so it keeps every digit. */
  lemma StripKeepsDigits(s: string)
    ensures HasDigit(Strip(s)) <==> HasDigit(s)
  {
    TrimStartKeepsDigits(s);
    TrimEndKeepsDigits(TrimStart(s));
  }

  /** Python's `w in s` on strings: `w` occurs in `s` as a contiguous substring. */
  predicate Contains(s: string, w: string) {
    exists i :: 0 <= i <= |s| - |w| && OccursAt(s, w, i)
  }

  /** `w` occurs in `s` starting at position `i`. */
  predicate OccursAt(s: string, w: string, i: int) {
    0 <= i <= |s| - |w| && s[i..i + |w|] == w
  }

  /** An occurrence of an occurrence is an occurrence. */
  lemma ContainsTransitive(s: string, w: string, v: string)
    requires Contains(s, w) && Contains(w, v)
    ensures Contains(s, v)
  {
    var i :| 0 <= i <= |s| - |w| && OccursAt(s, w, i);
    var j :| 0 <= j <= |w| - |v| && OccursAt(w, v, j);
    assert s[i..i + |w|] == w && w[j..j + |v|] == v;
    forall k | 0 <= k < |v| ensures s[i + j + k] == v[k] {
      assert s[i + j + k] == s[i..i + |w|][j + k] == w[j + k];
      assert w[j + k] == w[j..j + |v|][k];
    }
    assert s[i + j..i + j + |v|] == v;
    assert OccursAt(s, v, i + j);
  }

  /** Python's `s.startswith(p)`. */
  predicate StartsWith(s: string, p: string) {
    |p| <= |s| && s[..|p|] == p
  }

  /** Applies a character map to every character. */
  function MapChars(s: string, f: char -> char): (r: string)
    ensures |r| == |s|
    ensures forall k :: 0 <= k < |s| ==> r[k] == f(s[k])
  {
    seq(|s|, k requires 0 <= k < |s| => f(s[k]))
  }

  /** SQLite's built-in `LOWER` on one character: it folds ASCII letters only. */
  function SqlLowerChar(ch: char): char {
    if 'A' <= ch <= 'Z' then (ch as int + 32) as char else ch
  }

  /**
   * Python's `str.lower` on one character, for the Latin and Cyrillic letters the
   * bot's keywords use: ASCII `A`-`Z`, Cyrillic `А`-`Я` (U+0410-U+042F) and
   * `Ѐ`-`Џ` (U+0400-U+040F). Every other character is left as it is.
   */
  function PyLowerChar(ch: char): char {
    if 'A' <= ch <= 'Z' then (ch as int + 32) as char
    else if '\U{410}' <= ch <= '\U{42F}' then (ch as int + 32) as char
    else if '\U{400}' <= ch <= '\U{40F}' then (ch as int + 80) as char
    else ch
  }

  /** SQLite `LOWER(s)`. */
  function SqlLower(s: string): string {
    MapChars(s, SqlLowerChar)
  }

  /** Python `s.lower()`. */
  function PyLower(s: string): string {
    MapChars(s, PyLowerChar)
  }

  /** Python `s.replace(a, b)` for single characters. */
  function ReplaceChar(s: string, a: char, b: char): (r: string)
    ensures |r| == |s|
    ensures forall k :: 0 <= k < |s| ==> r[k] == (if s[k] == a then b else s[k])
  {
    MapChars(s, ch => if ch == a then b else ch)
  }

  /** SQLite's BINARY collation on text: lexicographic by code point (UTF-8 byte order agrees). */
  predicate StrLe(a: string, b: string)
    decreases |a|
  {
    |a| == 0 || (|b| > 0 && (a[0] < b[0] || (a[0] == b[0] && StrLe(a[1..], b[1..]))))
  }

  lemma {:induction false} StrLeTotal(a: string, b: string)
    ensures StrLe(a, b) || StrLe(b, a)
    decreases |a|
  {
    if |a| > 0 && |b| > 0 && a[0] == b[0] {
      StrLeTotal(a[1..], b[1..]);
    }
  }

  lemma {:induction false} StrLeTransitive(a: string, b: string, c: string)
    requires StrLe(a, b) && StrLe(b, c)
    ensures StrLe(a, c)
    decreases |a|
  {
    if |a| > 0 && a[0] == b[0] && b[0] == c[0] {
      StrLeTransitive(a[1..], b[1..], c[1..]);
    }
  }

  /** The position of the first `sep` in `s`, or `|s|` when there is none. */
  function IndexOf(s: string, sep: char): (i: nat)
    ensures i <= |s|
    ensures i < |s| ==> s[i] == sep
    ensures forall k :: 0 <= k < i ==> s[k] != sep
    decreases |s|
  {
    if |s| == 0 then 0
    else if s[0] == sep then 0
    else 1 + IndexOf(s[1..], sep)
  }

  /** The first occurrence is the position that holds `sep` with no `sep` before it. */
  lemma {:induction false} IndexOfIs(s: string, sep: char, n: nat)
    requires n <= |s|
    requires n < |s| ==> s[n] == sep
    requires forall k :: 0 <= k < n ==> s[k] != sep
    ensures IndexOf(s, sep) == n
    decreases |s|
  {
    if |s| > 0 && s[0] != sep {
      IndexOfIs(s[1..], sep, n - 1);
    }
  }

  /** Python `s.split(sep)` for a one-character separator. */
  function Split(s: string, sep: char): (parts: seq<string>)
    ensures |parts| >= 1
    ensures forall k :: 0 <= k < |parts| ==> sep !in parts[k]
    decreases |s|
  {
    var i := IndexOf(s, sep);
    if i == |s| then [s] else [s[..i]] + Split(s[i + 1..], sep)
  }

  /** Two separator-free pieces joined by the separator split back into those two pieces. */
  lemma SplitTwo(a: string, b: string, sep: char)
    requires sep !in a && sep !in b
    ensures Split(a + [sep] + b, sep) == [a, b]
  {
    var s := a + [sep] + b;
    assert forall k :: 0 <= k < |a| ==> s[k] != sep;
    IndexOfIs(s, sep, |a|);
    assert s[..|a|] == a && s[|a| + 1..] == b;
    assert IndexOf(b, sep) == |b|;
  }
}
