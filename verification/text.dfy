/** ASCII text helpers: the trimming and case mapping the handlers and the
    database apply to strings, and JavaScript's `Number` on decimal strings. */
module Text {
  import opened Base

  predicate IsSpace(c: char) {
    c == ' ' || c == '\t' || c == '\n' || c == '\r' || c == '\U{B}' || c == '\U{C}'
  }

  /** `s` without leading white space. */
  function TrimStart(s: string): (r: string)
    ensures |r| <= |s| && r == s[|s| - |r|..]
    ensures r == [] || !IsSpace(r[0])
  {
    if |s| > 0 && IsSpace(s[0]) then TrimStart(s[1..]) else s
  }

  /** `s` without trailing white space. */
  function TrimEnd(s: string): (r: string)
    ensures |r| <= |s| && r == s[..|r|]
    ensures r == [] || !IsSpace(r[|r| - 1])
    ensures |s| > 0 && !IsSpace(s[0]) ==> r != [] && r[0] == s[0]
  {
    if |s| > 0 && IsSpace(s[|s| - 1]) then TrimEnd(s[..|s| - 1]) else s
  }

  /** JavaScript's `String.prototype.trim` and MongoDB's `$trim` on ASCII text. */
  function Trim(s: string): string {
    TrimEnd(TrimStart(s))
  }

  predicate IsTrimmed(s: string) {
    s == [] || (!IsSpace(s[0]) && !IsSpace(s[|s| - 1]))
  }

  lemma TrimIsTrimmed(s: string)
    ensures IsTrimmed(Trim(s))
  {
  }

  lemma {:induction false} TrimOfTrimmed(s: string)
    requires IsTrimmed(s)
    ensures TrimStart(s) == s && TrimEnd(s) == s && Trim(s) == s
  {
  }

  function UpperChar(c: char): char {
    if 'a' <= c <= 'z' then (c as int - 'a' as int + 'A' as int) as char else c
  }

  function LowerChar(c: char): char {
    if 'A' <= c <= 'Z' then (c as int - 'A' as int + 'a' as int) as char else c
  }

  /** ASCII `toUpperCase` / `$toUpper`. */
  function Upper(s: string): (r: string)
    ensures |r| == |s|
    ensures forall i :: 0 <= i < |s| ==> r[i] == UpperChar(s[i])
  {
    seq(|s|, i requires 0 <= i < |s| => UpperChar(s[i]))
  }

  /** ASCII `toLowerCase`, as the `lowercase` option of a schema path applies it. */
  function Lower(s: string): (r: string)
    ensures |r| == |s|
    ensures forall i :: 0 <= i < |s| ==> r[i] == LowerChar(s[i])
  {
    seq(|s|, i requires 0 <= i < |s| => LowerChar(s[i]))
  }

  /** The key under which ticket types are compared: trimmed, then upper-cased. */
  function Normalize(s: string): string {
    Upper(Trim(s))
  }

  /** Upper-casing maps no character to or from white space. */
  lemma UpperKeepsTrimmed(t: string)
    requires IsTrimmed(t)
    ensures IsTrimmed(Upper(t))
  {
    if t != [] {
      assert Upper(t)[0] == UpperChar(t[0]);
      assert Upper(t)[|t| - 1] == UpperChar(t[|t| - 1]);
    }
  }

  lemma UpperIdempotent(s: string)
    ensures Upper(Upper(s)) == Upper(s)
  {
  }

  /** Normalising twice is normalising once, so a key read back from the
      grouping stage matches a tier's key. */
  lemma NormalizeIdempotent(s: string)
    ensures Normalize(Normalize(s)) == Normalize(s)
  {
    TrimIsTrimmed(s);
    UpperKeepsTrimmed(Trim(s));
    TrimOfTrimmed(Upper(Trim(s)));
    UpperIdempotent(Trim(s));
  }

  lemma LowerIdempotent(s: string)
    ensures Lower(Lower(s)) == Lower(s)
  {
  }

  // ---- JavaScript `Number` on decimal strings ----

  predicate IsDigit(c: char) {
    '0' <= c <= '9'
  }

  predicate AllDigits(s: string) {
    forall i :: 0 <= i < |s| ==> IsDigit(s[i])
  }

  function DigitValue(c: char): nat
    requires IsDigit(c)
  {
    c as int - '0' as int
  }

  function DigitChar(d: nat): (c: char)
    requires d < 10
    ensures IsDigit(c) && DigitValue(c) == d
  {
    ('0' as int + d) as char
  }

  /** The value of a string of decimal digits, most significant first. */
  function DecimalValue(s: string): nat
    requires AllDigits(s)
  {
    if |s| == 0 then 0 else 10 * DecimalValue(s[..|s| - 1]) + DigitValue(s[|s| - 1])
  }

  /** `Number(s)` for the strings the model reads: surrounding white space is
      ignored, a blank string is 0, a string of decimal digits is its value,
      and anything else is NaN (None). */
  function ParseNumber(s: string): (r: Option<nat>)
    ensures Trim(s) == [] ==> r == Some(0)
    ensures r.Some? && Trim(s) != [] ==> AllDigits(Trim(s)) && r.value == DecimalValue(Trim(s))
    ensures r.None? <==> Trim(s) != [] && !AllDigits(Trim(s))
  {
    var t := Trim(s);
    if t == [] then Some(0)
    else if AllDigits(t) then Some(DecimalValue(t))
    else None
  }

  /** The two-digit, zero-padded rendering of `n` ("07" for 7). */
  function TwoDigits(n: nat): (r: string)
    requires n < 100
    ensures |r| == 2 && AllDigits(r) && IsTrimmed(r)
  {
    [DigitChar(n / 10), DigitChar(n % 10)]
  }

  /** Reading back a two-digit rendering gives the number. */
  lemma ParseTwoDigits(n: nat)
    requires n < 100
    ensures ParseNumber(TwoDigits(n)) == Some(n)
  {
    var s := TwoDigits(n);
    TrimOfTrimmed(s);
    assert s[..1] == [DigitChar(n / 10)];
    assert DecimalValue(s[..1]) == n / 10 by {
      assert s[..1][..0] == [];
    }
  }
}
