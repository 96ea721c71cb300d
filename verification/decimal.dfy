/**
  The decimal rendering that `format!("{}", n)` produces for an unsigned
  integer (no sign, no leading zeros, "0" for zero), together with a parser
  that reads such a rendering back. The default validator messages embed
  their threshold through this rendering.
*/
module Decimal {
  import opened Results

  predicate IsDigit(c: char) {
    '0' <= c <= '9'
  }

  function DigitChar(d: nat): (c: char)
    requires d < 10
    ensures IsDigit(c)
    ensures DigitValue(c) == d
  {
    ['0', '1', '2', '3', '4', '5', '6', '7', '8', '9'][d]
  }

  function DigitValue(c: char): (d: nat)
    requires IsDigit(c)
    ensures d < 10
  {
    (c as int) - ('0' as int)
  }

  /** A well-formed rendering: non-empty, all digits, no leading zero unless it is "0". */
  predicate Canonical(s: string) {
    && |s| > 0
    && (forall i :: 0 <= i < |s| ==> IsDigit(s[i]))
    && (s[0] == '0' ==> |s| == 1)
  }

  /** `format!("{}", n)` for an unsigned `n`. */
  function Show(n: nat): (s: string)
    ensures Canonical(s)
    ensures n < 10 <==> |s| == 1
    decreases n
  {
    if n < 10 then [DigitChar(n)]
    else Show(n / 10) + [DigitChar(n % 10)]
  }

  /** Value of a digit string, most significant digit first; the empty string reads as 0. */
  function DigitsValue(s: string): nat
    requires forall i :: 0 <= i < |s| ==> IsDigit(s[i])
    decreases |s|
  {
    if |s| == 0 then 0
    else DigitsValue(s[..|s| - 1]) * 10 + DigitValue(s[|s| - 1])
  }

  /** Reads back a canonical rendering; anything else is rejected. */
  function Parse(s: string): (r: Option<nat>)
    ensures r.Some? <==> Canonical(s)
  {
    if Canonical(s) then Some(DigitsValue(s)) else None
  }

  lemma {:induction false} DigitsValueOfShow(n: nat)
    ensures DigitsValue(Show(n)) == n
    decreases n
  {
    if n >= 10 {
      var s := Show(n);
      assert s[..|s| - 1] == Show(n / 10);
      DigitsValueOfShow(n / 10);
    }
  }

  /** The parser undoes the rendering. */
  lemma ParseShow(n: nat)
    ensures Parse(Show(n)) == Some(n)
  {
    DigitsValueOfShow(n);
  }

  /** Different numbers render differently. */
  lemma ShowInjective(m: nat, n: nat)
    ensures Show(m) == Show(n) <==> m == n
  {
    ParseShow(m);
    ParseShow(n);
  }

  lemma DigitRoundTrip(c: char)
    requires IsDigit(c)
    ensures DigitChar(DigitValue(c)) == c
  {
  }

  /** Every canonical string is the rendering of the number it reads as. */
  lemma {:induction false} ShowDigitsValue(s: string)
    requires Canonical(s)
    ensures Show(DigitsValue(s)) == s
    decreases |s|
  {
    var last := s[|s| - 1];
    DigitRoundTrip(last);
    if |s| > 1 {
      var p := s[..|s| - 1];
      assert p[0] == s[0];
      ShowDigitsValue(p);
      var v := DigitsValue(s);
      assert DigitsValue(p) != 0;
      assert v / 10 == DigitsValue(p) && v % 10 == DigitValue(last);
      assert s == p + [last];
    }
  }

  /** Parsing and rendering are inverse on canonical strings. */
  lemma ShowParse(s: string, n: nat)
    ensures Parse(s) == Some(n) <==> Canonical(s) && Show(n) == s
  {
    if Canonical(s) {
      ShowDigitsValue(s);
      ShowInjective(n, DigitsValue(s));
    }
    if Show(n) == s {
      ParseShow(n);
    }
  }
}
