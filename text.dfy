/**
 * String helpers the todo code relies on: JavaScript's `String.prototype.trim`,
 * `Number.prototype.toString` on a non-negative integer (the ids are
 * `Date.now().toString()`), and the order SQLite uses for TEXT columns.
 */
module Text {

  /** The characters `trim` removes: ECMAScript WhiteSpace (tab, vertical tab,
      form feed, space, no-break space, byte-order mark and the Unicode space
      separators) and LineTerminator (LF, CR, U+2028, U+2029). */
  predicate IsWhitespace(c: char) {
    || c == '\t' || c == '\n' || c == '\U{000B}' || c == '\U{000C}' || c == '\r'
    || c == ' ' || c == '\U{00A0}' || c == '\U{1680}'
    || ('\U{2000}' <= c <= '\U{200A}')
    || c == '\U{2028}' || c == '\U{2029}' || c == '\U{202F}' || c == '\U{205F}'
    || c == '\U{3000}' || c == '\U{FEFF}'
  }

  predicate AllWhitespace(s: string) {
    forall k :: 0 <= k < |s| ==> IsWhitespace(s[k])
  }

  /** The index of the first character of `s` at or after `i` that is not
      whitespace, or `|s|` if there is none. */
  function SkipForward(s: string, i: nat): (j: nat)
    requires i <= |s|
    ensures i <= j <= |s|
    ensures forall k :: i <= k < j ==> IsWhitespace(s[k])
    ensures j < |s| ==> !IsWhitespace(s[j])
    decreases |s| - i
  {
    if i < |s| && IsWhitespace(s[i]) then SkipForward(s, i + 1) else i
  }

  /** The end of `s[lo..j]` once its trailing whitespace is dropped. */
  function SkipBackward(s: string, lo: nat, j: nat): (e: nat)
    requires lo <= j <= |s|
    ensures lo <= e <= j
    ensures forall k :: e <= k < j ==> IsWhitespace(s[k])
    ensures e > lo ==> !IsWhitespace(s[e - 1])
  {
    if j > lo && IsWhitespace(s[j - 1]) then SkipBackward(s, lo, j - 1) else j
  }

  /** The facts about the slice between the leading and trailing whitespace
      that `Trim` promises. */
  lemma TrimSlice(s: string, i: nat, e: nat)
    requires i <= e <= |s|
    requires forall k :: 0 <= k < i ==> IsWhitespace(s[k])
    requires forall k :: e <= k < |s| ==> IsWhitespace(s[k])
    requires i < |s| ==> !IsWhitespace(s[i])
    requires e > i ==> !IsWhitespace(s[e - 1])
    ensures AllWhitespace(s[..i]) && AllWhitespace(s[e..])
    ensures i < e ==> !IsWhitespace(s[i..e][0]) && !IsWhitespace(s[i..e][e - i - 1])
    ensures i == e <==> AllWhitespace(s)
  {
    forall k | 0 <= k < i ensures IsWhitespace(s[..i][k]) {
      assert s[..i][k] == s[k];
    }
    forall k | 0 <= k < |s| - e ensures IsWhitespace(s[e..][k]) {
      assert s[e..][k] == s[e + k];
    }
  }

  /** `s.trim()`: the slice of `s` between its leading and its trailing
      whitespace; it is empty exactly when `s` is all whitespace. */
  function Trim(s: string): (r: string)
    ensures exists i :: 0 <= i <= i + |r| <= |s| && r == s[i..i + |r|]
                        && AllWhitespace(s[..i]) && AllWhitespace(s[i + |r|..])
    ensures r != [] ==> !IsWhitespace(r[0]) && !IsWhitespace(r[|r| - 1])
    ensures r == [] <==> AllWhitespace(s)
  {
    var i := SkipForward(s, 0);
    var e := SkipBackward(s, i, |s|);
    TrimSlice(s, i, e);
    assert s[i..e] == s[i..i + (e - i)];
    s[i..e]
  }

  /** `!text.trim()`: the text is empty or whitespace only. */
  predicate IsBlank(s: string) {
    Trim(s) == []
  }

  lemma TrimIdempotent(s: string)
    ensures Trim(Trim(s)) == Trim(s)
  {
    var r := Trim(s);
    if r != [] {
      assert SkipForward(r, 0) == 0;
      assert SkipBackward(r, 0, |r|) == |r|;
    }
  }

  /** Trimming a text that is not blank leaves a text that is not blank. */
  lemma TrimmedNotBlank(s: string)
    requires !IsBlank(s)
    ensures !IsBlank(Trim(s)) && Trim(s) != []
  {
    TrimIdempotent(s);
  }

  // Decimal rendering of a natural number, as `Number.prototype.toString()`.

  predicate IsDigits(s: string) {
    forall k :: 0 <= k < |s| ==> '0' <= s[k] <= '9'
  }

  function DigitChar(d: nat): (c: char)
    requires d < 10
    ensures '0' <= c <= '9' && c as int - '0' as int == d
  {
    ('0' as int + d) as char
  }

  /** The shortest decimal numeral of `n`: at least one digit and no leading zero. */
  function Decimal(n: nat): (s: string)
    ensures |s| >= 1 && IsDigits(s)
    ensures |s| > 1 ==> s[0] != '0'
  {
    if n < 10 then [DigitChar(n)] else Decimal(n / 10) + [DigitChar(n % 10)]
  }

  function DigitsValue(s: string): nat
    requires IsDigits(s)
  {
    if s == [] then 0
    else DigitsValue(s[..|s| - 1]) * 10 + (s[|s| - 1] as int - '0' as int)
  }

  lemma {:induction false} DecimalRoundTrip(n: nat)
    ensures DigitsValue(Decimal(n)) == n
  {
    if n >= 10 {
      var s := Decimal(n);
      assert s[..|s| - 1] == Decimal(n / 10);
      DecimalRoundTrip(n / 10);
    }
  }

  /** Distinct clock readings give distinct ids. */
  lemma DecimalInjective(m: nat, n: nat)
    ensures Decimal(m) == Decimal(n) <==> m == n
  {
    if Decimal(m) == Decimal(n) {
      DecimalRoundTrip(m);
      DecimalRoundTrip(n);
    }
  }

  // Text ordering: SQLite compares TEXT with the BINARY collation, a byte-wise
  // comparison of the UTF-8 encoding, which orders strings of Unicode scalar
  // values lexicographically by code point.

  /** `a` sorts at or before `b`. */
  predicate LexLe(a: string, b: string)
    decreases |a|
  {
    a == [] || (b != [] && (a[0] < b[0] || (a[0] == b[0] && LexLe(a[1..], b[1..]))))
  }

  lemma {:induction false} LexLeTotal(a: string, b: string)
    ensures LexLe(a, b) || LexLe(b, a)
    decreases |a|
  {
    if a != [] && b != [] && a[0] == b[0] {
      LexLeTotal(a[1..], b[1..]);
    }
  }

  lemma {:induction false} LexLeTransitive(a: string, b: string, c: string)
    requires LexLe(a, b) && LexLe(b, c)
    ensures LexLe(a, c)
    decreases |a|
  {
    if a != [] && a[0] == b[0] && b[0] == c[0] {
      LexLeTransitive(a[1..], b[1..], c[1..]);
    }
  }

  lemma {:induction false} LexLeAntisymmetric(a: string, b: string)
    requires LexLe(a, b) && LexLe(b, a)
    ensures a == b
    decreases |a|
  {
    if a != [] {
      LexLeAntisymmetric(a[1..], b[1..]);
      assert a == [a[0]] + a[1..] && b == [b[0]] + b[1..];
    }
  }
}
