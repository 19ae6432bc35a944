/** JavaScript value semantics the three report commands rely on: a JSON field
    that may be missing, `null` or present, the truthiness tests behind `||`,
    template-string rendering of numbers and fields, and `padEnd`/`repeat`. */
module Js {

  datatype Option<T> = None | Some(value: T)

  /** A JSON field as the commands read it: missing (`undefined`), `null`, or a value.
      The distinction matters: `x !== null` holds for a missing field. */
  datatype Field<T> = Absent | Null | Present(value: T)

  /** `f` is truthy as a string: present and not "". */
  predicate TruthyString(f: Field<string>) {
    f.Present? && f.value != ""
  }

  /** `f` is truthy as a number: present and not 0. */
  predicate TruthyNumber(f: Field<int>) {
    f.Present? && f.value != 0
  }

  /** `f || fallback` on a string field. */
  function StringOr(f: Field<string>, fallback: string): string {
    if TruthyString(f) then f.value else fallback
  }

  /** `f || fallback` on a number field. */
  function NumberOr(f: Field<int>, fallback: int): int {
    if TruthyNumber(f) then f.value else fallback
  }

  /** `${f}` for a string field. */
  function FieldText(f: Field<string>): string {
    match f
    case Absent => "undefined"
    case Null => "null"
    case Present(s) => s
  }

  // ---------------------------------------------------------------------------
  // Decimal rendering of integers, as `${n}` and `n.toString()` do.

  predicate IsDigit(c: char) {
    '0' <= c <= '9'
  }

  predicate AllDigits(s: string) {
    forall i :: 0 <= i < |s| ==> IsDigit(s[i])
  }

  function DigitChar(d: nat): (c: char)
    requires d < 10
    ensures IsDigit(c) && c as int - '0' as int == d
  {
    (d + '0' as int) as char
  }

  /** Decimal digits of `n`, most significant first, without leading zeros. */
  function NatToString(n: nat): (r: string)
    ensures 1 <= |r| && AllDigits(r)
    ensures |r| > 1 ==> r[0] != '0'
    decreases n
  {
    if n < 10 then [DigitChar(n)] else NatToString(n / 10) + [DigitChar(n % 10)]
  }

  /** The value of a string of decimal digits: the inverse of NatToString. */
  function DigitsValue(s: string): nat
    requires AllDigits(s)
  {
    if s == [] then 0 else 10 * DigitsValue(s[..|s| - 1]) + (s[|s| - 1] as int - '0' as int)
  }

  lemma {:induction false} DigitsValueOfNatToString(n: nat)
    ensures DigitsValue(NatToString(n)) == n
    decreases n
  {
    var r := NatToString(n);
    if n >= 10 {
      DigitsValueOfNatToString(n / 10);
      assert r[..|r| - 1] == NatToString(n / 10);
    }
  }

  /** Distinct numbers render as distinct digit strings. */
  lemma NatToStringInjective(a: nat, b: nat)
    ensures NatToString(a) == NatToString(b) <==> a == b
  {
    if NatToString(a) == NatToString(b) {
      DigitsValueOfNatToString(a);
      DigitsValueOfNatToString(b);
    }
  }

  /** `${n}` for an integer: a minus sign before the digits of a negative number. */
  function IntToString(n: int): (r: string)
    ensures n >= 0 ==> |r| >= 1 && AllDigits(r)
    ensures n < 0 ==> |r| >= 2 && r[0] == '-' && AllDigits(r[1..])
  {
    if n < 0 then "-" + NatToString(-n) else NatToString(n)
  }

  lemma IntToStringInjective(a: int, b: int)
    ensures IntToString(a) == IntToString(b) <==> a == b
  {
    if IntToString(a) == IntToString(b) {
      if a < 0 && b < 0 {
        assert NatToString(-a) == IntToString(a)[1..];
        NatToStringInjective(-a, -b);
      } else if a >= 0 && b >= 0 {
        NatToStringInjective(a, b);
      }
    }
  }

  // ---------------------------------------------------------------------------
  // String length and padding, counted as JavaScript counts them.

  /** The UTF-16 code units of `c`: two for a character outside the Basic Multilingual Plane. */
  function CodeUnits(c: char): (n: nat)
    ensures 1 <= n <= 2
  {
    if c as int < 0x1_0000 then 1 else 2
  }

  /** `s.length` in JavaScript: the number of UTF-16 code units, not of characters. */
  function JsLength(s: string): nat {
    if s == [] then 0 else JsLength(s[..|s| - 1]) + CodeUnits(s[|s| - 1])
  }

  /** Every character of `s` is in the Basic Multilingual Plane. */
  predicate InBmp(s: string) {
    forall i :: 0 <= i < |s| ==> s[i] as int < 0x1_0000
  }

  lemma {:induction false} JsLengthAppend(a: string, b: string)
    ensures JsLength(a + b) == JsLength(a) + JsLength(b)
    decreases |b|
  {
    if b == [] {
      assert a + b == a;
    } else {
      var front := b[..|b| - 1];
      JsLengthAppend(a, front);
      assert (a + b)[..|a + b| - 1] == a + front;
      assert (a + b)[|a + b| - 1] == b[|b| - 1];
    }
  }

  /** A string counts at least one code unit per character and at most two; exactly one
      per character when every character is in the Basic Multilingual Plane. */
  lemma {:induction false} JsLengthBounds(s: string)
    ensures |s| <= JsLength(s) <= 2 * |s|
    ensures InBmp(s) ==> JsLength(s) == |s|
  {
    if s != [] {
      JsLengthBounds(s[..|s| - 1]);
    }
  }

  /** `c.repeat(n)` for a one-character string `c`. */
  function Repeat(c: char, n: nat): (r: string)
    ensures |r| == n && forall i :: 0 <= i < n ==> r[i] == c
  {
    if n == 0 then [] else Repeat(c, n - 1) + [c]
  }

  /** A repeated space or dash is as long in JavaScript as it has characters. */
  lemma RepeatJsLength(c: char, n: nat)
    requires c as int < 0x1_0000
    ensures JsLength(Repeat(c, n)) == n
  {
    JsLengthBounds(Repeat(c, n));
  }

  /** `s.padEnd(w)`: `s` followed by spaces up to `w` UTF-16 code units; `s` itself when it
      is already that long. */
  function PadEnd(s: string, w: nat): (r: string)
    ensures |s| <= |r| && r[..|s|] == s
    ensures forall i :: |s| <= i < |r| ==> r[i] == ' '
  {
    if JsLength(s) < w then s + Repeat(' ', w - JsLength(s)) else s
  }

  /** A padded string is `w` code units long, or keeps its own length when that is already more. */
  lemma PadEndJsLength(s: string, w: nat)
    ensures JsLength(PadEnd(s, w)) == if JsLength(s) < w then w else JsLength(s)
    ensures JsLength(s) < w ==> |s| < |PadEnd(s, w)|
  {
    if JsLength(s) < w {
      JsLengthAppend(s, Repeat(' ', w - JsLength(s)));
      RepeatJsLength(' ', w - JsLength(s));
    }
  }

  /** `padEnd` counts code units: a character outside the Basic Multilingual Plane takes two
      of the width, so "\U{1F600}".padEnd(3) adds a single space. */
  lemma PadEndCountsCodeUnits()
    ensures PadEnd("\U{1F600}", 3) == "\U{1F600} "
    ensures PadEnd("ab", 3) == "ab "
  {
    PadEndJsLength("\U{1F600}", 3);
    assert JsLength("\U{1F600}") == 2 by {
      assert "\U{1F600}"[..0] == [];
    }
    assert JsLength("ab") == 2 by {
      assert "ab"[..1] == "a" && "a"[..0] == [];
    }
  }
}
