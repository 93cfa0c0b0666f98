/** Numbers in decimal text. */
module Decimal {
  // Printing 64-bit numbers, and the C library's reading of them.

  import opened Common

  const U64_MAX: nat := 0xFFFF_FFFF_FFFF_FFFF

  function Digit(n: nat): char
    requires n < 10
  {
    '0' + n as char
  }

  predicate IsDigit(c: char) {
    '0' <= c <= '9'
  }

  function DigitValue(c: char): (d: nat)
    requires IsDigit(c)
    ensures d < 10
  {
    (c - '0') as nat
  }

  /** The text a number is printed as. */
  function Print(n: nat): (s: string)
    ensures s != [] && forall i :: 0 <= i < |s| ==> IsDigit(s[i])
  {
    if n < 10 then [Digit(n)] else Print(n / 10) + [Digit(n % 10)]
  }

  /** The leading digits of `s`, as a number appended to `value`. */
  function Accumulate(s: string, value: nat): (nat, string) {
    if s == [] || !IsDigit(s[0]) then (value, s) else Accumulate(s[1..], 10 * value + DigitValue(s[0]))
  }

  predicate IsSpace(c: char) {
    c == ' ' || '\t' <= c <= '\r'
  }

  function SkipSpace(s: string): string {
    if s != [] && IsSpace(s[0]) then SkipSpace(s[1..]) else s
  }

  /** A C string ends at its first NUL. */
  function CString(s: string): string {
    if s == [] || s[0] == '\0' then [] else [s[0]] + CString(s[1..])
  }

  /**
    `strtoull(s, &end, 10)`: blanks, an optional sign, digits. Too large a number saturates, a minus
    sign negates modulo 2^64, and without digits nothing is consumed.
   */
  function StrToUll(s: string): Option<(nat, string)> {
    var t := SkipSpace(s);
    var negative := t != [] && t[0] == '-';
    var u := if t != [] && (t[0] == '-' || t[0] == '+') then t[1..] else t;
    if u == [] || !IsDigit(u[0]) then None
    else
      var (value, rest) := Accumulate(u, 0);
      if value > U64_MAX then Some((U64_MAX, rest))
      else if negative && value > 0 then Some((U64_MAX + 1 - value, rest))
      else Some((value, rest))
  }

  lemma {:induction false} AccumulatePrint(n: nat, rest: string)
    requires rest == [] || !IsDigit(rest[0])
    ensures Accumulate(Print(n) + rest, 0) == (n, rest)
  {
    AccumulateAll(Print(n), rest, 0);
    PrintValue(n);
  }

  /** The value of a digit string, most significant digit first. */
  function DigitsValue(s: string, value: nat): nat
    requires forall i :: 0 <= i < |s| ==> IsDigit(s[i])
  {
    if s == [] then value else DigitsValue(s[1..], 10 * value + DigitValue(s[0]))
  }

  lemma {:induction false} AccumulateAll(s: string, rest: string, value: nat)
    requires forall i :: 0 <= i < |s| ==> IsDigit(s[i])
    requires rest == [] || !IsDigit(rest[0])
    ensures Accumulate(s + rest, value) == (DigitsValue(s, value), rest)
    decreases |s|
  {
    if s == [] {
      assert s + rest == rest;
    } else {
      assert (s + rest)[1..] == s[1..] + rest;
      AccumulateAll(s[1..], rest, 10 * value + DigitValue(s[0]));
    }
  }

  lemma {:induction false} ValueSnoc(s: string, c: char, value: nat)
    requires IsDigit(c) && forall i :: 0 <= i < |s| ==> IsDigit(s[i])
    ensures DigitsValue(s + [c], value) == 10 * DigitsValue(s, value) + DigitValue(c)
    decreases |s|
  {
    if s == [] {
      assert s + [c] == [c];
    } else {
      assert (s + [c])[1..] == s[1..] + [c];
      ValueSnoc(s[1..], c, 10 * value + DigitValue(s[0]));
    }
  }

  lemma {:induction false} PrintValue(n: nat)
    ensures DigitsValue(Print(n), 0) == n
  {
    if n >= 10 {
      PrintValue(n / 10);
      ValueSnoc(Print(n / 10), Digit(n % 10), 0);
    }
  }

  /** Reading back a printed 64-bit number, whatever follows it. */
  lemma ReadBack(n: nat, rest: string)
    requires n <= U64_MAX && (rest == [] || !IsDigit(rest[0]))
    ensures StrToUll(Print(n) + rest) == Some((n, rest))
  {
    var s := Print(n) + rest;
    assert s[0] == Print(n)[0];
    assert SkipSpace(s) == s;
    AccumulatePrint(n, rest);
  }
}
