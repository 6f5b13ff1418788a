/** Character classes and decimal digits shared by the A1-notation parser
    and the date formatter. A `char` here is a Unicode scalar value, whereas
    a JavaScript string is a sequence of UTF-16 code units; the two agree on
    every character of the Basic Multilingual Plane. */
module Text {

  predicate IsUpperLetter(c: char) { 'A' <= c <= 'Z' }

  predicate IsLowerLetter(c: char) { 'a' <= c <= 'z' }

  /** The class `[A-Z]` of a case-insensitive regular expression: ASCII letters. */
  predicate IsLetter(c: char) { IsUpperLetter(c) || IsLowerLetter(c) }

  predicate IsDigit(c: char) { '0' <= c <= '9' }

  predicate AllLetters(s: string) { forall i :: 0 <= i < |s| ==> IsLetter(s[i]) }

  predicate AllUpperLetters(s: string) { forall i :: 0 <= i < |s| ==> IsUpperLetter(s[i]) }

  predicate AllDigits(s: string) { forall i :: 0 <= i < |s| ==> IsDigit(s[i]) }

  /** `toUpperCase` on one character; only ASCII letters reach it in this model. */
  function UpperChar(c: char): (u: char)
    ensures IsLetter(c) ==> IsUpperLetter(u) && (u == c || u as int == c as int - 32)
    ensures !IsLowerLetter(c) ==> u == c
  {
    if IsLowerLetter(c) then (c as int - 32) as char else c
  }

  /** `String.prototype.toUpperCase` restricted to ASCII. */
  function Upper(s: string): (u: string)
    ensures |u| == |s|
    ensures forall i :: 0 <= i < |s| ==> u[i] == UpperChar(s[i])
  {
    seq(|s|, i requires 0 <= i < |s| => UpperChar(s[i]))
  }

  /** Upper-casing keeps the letter, digit and colon classes of every character. */
  lemma UpperKeepsClasses(c: char)
    ensures IsLetter(UpperChar(c)) <==> IsLetter(c)
    ensures IsDigit(UpperChar(c)) <==> IsDigit(c)
    ensures (UpperChar(c) == ':') <==> (c == ':')
  {
  }

  function DigitValue(c: char): int { c as int - '0' as int }

  function DigitChar(d: int): (c: char)
    requires 0 <= d <= 9
    ensures IsDigit(c) && DigitValue(c) == d
  {
    (d + '0' as int) as char
  }

  /** `parseInt(s, 10)` on a string of decimal digits: the left fold
      `value * 10 + digit`. */
  function DecimalValue(s: string): (v: int)
    requires AllDigits(s)
    ensures v >= 0
  {
    if s == [] then 0 else DecimalValue(s[..|s| - 1]) * 10 + DigitValue(s[|s| - 1])
  }

  /** `String(n)` for a non-negative integer: shortest decimal digits. */
  function NatToString(n: nat): (s: string)
    ensures 1 <= |s| && AllDigits(s)
    ensures n < 10 <==> |s| == 1
    ensures n >= 10 ==> s[0] != '0'
  {
    if n < 10 then [DigitChar(n)] else NatToString(n / 10) + [DigitChar(n % 10)]
  }

  /** `String(n)` for any integer: a minus sign before the digits of `-n`. */
  function IntToString(n: int): (s: string)
    ensures 1 <= |s|
    ensures s[0] == '-' <==> n < 0
    ensures n >= 0 ==> AllDigits(s)
    ensures n < 0 ==> AllDigits(s[1..])
  {
    if n < 0 then "-" + NatToString(-n) else NatToString(n)
  }

  /** `parseInt` inverts `String` on non-negative integers. */
  lemma {:induction false} DecimalOfNatToString(n: nat)
    ensures DecimalValue(NatToString(n)) == n
  {
    if n >= 10 {
      DecimalOfNatToString(n / 10);
      var s := NatToString(n);
      assert s[..|s| - 1] == NatToString(n / 10);
    }
  }

  /** So the digits of `String(n)` read back as `|n|`, after the sign when
      there is one. */
  lemma DecimalOfIntToString(n: int)
    ensures n >= 0 ==> DecimalValue(IntToString(n)) == n
    ensures n < 0 ==> DecimalValue(IntToString(n)[1..]) == -n
  {
    if n < 0 {
      DecimalOfNatToString(-n);
      assert IntToString(n)[1..] == NatToString(-n);
    } else {
      DecimalOfNatToString(n);
    }
  }
}
