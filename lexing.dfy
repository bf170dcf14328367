/**
 * Character classes and digit strings shared by the two regular expressions
 * of the pipeline (the band-tag timestamp and the forecast file name).
 * Only ASCII digits and the ASCII characters that `\s` matches are
 * recognised.
 */
module Lexing {

  /** `\d` restricted to ASCII. */
  predicate IsDigit(c: char) {
    '0' <= c <= '9'
  }

  /**
   * `\s` of a str pattern, restricted to ASCII: tab, newline, vertical tab,
   * form feed, carriage return (9..13), the separators 0x1c..0x1f, and space.
   */
  predicate IsSpace(c: char) {
    9 <= c as int <= 13 || 28 <= c as int <= 31 || c == ' '
  }

  /** `[A-Z]`. */
  predicate IsUpper(c: char) {
    'A' <= c <= 'Z'
  }

  predicate AllDigits(s: string) {
    forall i :: 0 <= i < |s| ==> IsDigit(s[i])
  }

  /** `int(s)` for a string of ASCII digits (leading zeros allowed). */
  function DigitsValue(s: string): nat
    requires AllDigits(s)
  {
    if s == [] then 0 else DigitsValue(s[..|s| - 1]) * 10 + (s[|s| - 1] - '0') as nat
  }

  /** The decimal digits of `n`, without leading zeros (`str(n)`). */
  function NatToDigits(n: nat): (s: string)
    ensures |s| > 0 && AllDigits(s)
  {
    if n < 10 then [('0' as int + n) as char]
    else NatToDigits(n / 10) + [('0' as int + n % 10) as char]
  }

  /** `str(n)` read back with `int` gives `n`. */
  lemma {:induction false} NatToDigitsRoundTrip(n: nat)
    ensures DigitsValue(NatToDigits(n)) == n
  {
    var s := NatToDigits(n);
    if n >= 10 {
      NatToDigitsRoundTrip(n / 10);
      assert s[..|s| - 1] == NatToDigits(n / 10);
    }
  }

  /** `n` written with exactly `width` digits, zero-padded (`f'{n:0{width}d}'`). */
  function PadDigits(n: nat, width: nat): (s: string)
    ensures |s| == width && AllDigits(s)
  {
    if width == 0 then [] else PadDigits(n / 10, width - 1) + [('0' as int + n % 10) as char]
  }

  /** A zero-padded field reads back as its number whenever the number fits the width. */
  lemma {:induction false} PadDigitsRoundTrip(n: nat, width: nat)
    requires n < Pow10(width)
    ensures DigitsValue(PadDigits(n, width)) == n
  {
    if width > 0 {
      var s := PadDigits(n, width);
      assert s[..width - 1] == PadDigits(n / 10, width - 1);
      assert n / 10 < Pow10(width - 1);
      PadDigitsRoundTrip(n / 10, width - 1);
    }
  }

  /** A digit string is the zero-padded rendering of its own value: `int` then `f'{n:0{len}d}'` gives the string back. */
  lemma {:induction false} DigitsValuePadded(s: string)
    requires AllDigits(s)
    ensures DigitsValue(s) < Pow10(|s|)
    ensures PadDigits(DigitsValue(s), |s|) == s
  {
    if s != [] {
      var init := s[..|s| - 1];
      DigitsValuePadded(init);
      var v := DigitsValue(s);
      assert v / 10 == DigitsValue(init) && v % 10 == (s[|s| - 1] - '0') as int;
      assert s == init + [s[|s| - 1]];
    }
  }

  function Pow10(k: nat): (p: nat)
    ensures p > 0
  {
    if k == 0 then 1 else 10 * Pow10(k - 1)
  }

  /** The end of the run of digits in `s` that starts at `from` (a greedy `\d*`). */
  function DigitsEnd(s: string, from: nat): (e: nat)
    requires from <= |s|
    ensures from <= e <= |s|
    ensures forall p :: from <= p < e ==> IsDigit(s[p])
    ensures e < |s| ==> !IsDigit(s[e])
    decreases |s| - from
  {
    if from == |s| || !IsDigit(s[from]) then from else DigitsEnd(s, from + 1)
  }

  /** The end of the run of whitespace in `s` that starts at `from` (a greedy `\s*`). */
  function SpacesEnd(s: string, from: nat): (e: nat)
    requires from <= |s|
    ensures from <= e <= |s|
    ensures forall p :: from <= p < e ==> IsSpace(s[p])
    ensures e < |s| ==> !IsSpace(s[e])
    decreases |s| - from
  {
    if from == |s| || !IsSpace(s[from]) then from else SpacesEnd(s, from + 1)
  }

  /** A run of digits ends exactly at the first non-digit after it. */
  lemma {:induction false} DigitsEndExactly(s: string, from: nat, e: nat)
    requires from <= e <= |s|
    requires forall p :: from <= p < e ==> IsDigit(s[p])
    requires e < |s| ==> !IsDigit(s[e])
    ensures DigitsEnd(s, from) == e
    decreases e - from
  {
    if from < e {
      DigitsEndExactly(s, from + 1, e);
    }
  }

  /** A run of whitespace ends exactly at the first non-space after it. */
  lemma {:induction false} SpacesEndExactly(s: string, from: nat, e: nat)
    requires from <= e <= |s|
    requires forall p :: from <= p < e ==> IsSpace(s[p])
    requires e < |s| ==> !IsSpace(s[e])
    ensures SpacesEnd(s, from) == e
    decreases e - from
  {
    if from < e {
      SpacesEndExactly(s, from + 1, e);
    }
  }

  /** ASCII `str.lower()`. */
  function Lower(s: string): (r: string)
    ensures |r| == |s|
    ensures forall i :: 0 <= i < |s| ==> r[i] == if IsUpper(s[i]) then (s[i] as int + 32) as char else s[i]
  {
    seq(|s|, i requires 0 <= i < |s| => if IsUpper(s[i]) then (s[i] as int + 32) as char else s[i])
  }
}
