// Decimal printing without a divide instruction: tools/loopprobe/loopprobe.c divides by
// ten with shifts and a correction, tools/strprobe/strprobe.c by repeated subtraction.
// Both print the one numeral of their argument.
module Decimal {
  import opened Bitwise
  import opened Buffers

  const WORD := 0x1_0000_0000

  // Unsigned arithmetic of the machine.
  function Add(a: U32, b: U32): U32 { (a + b) % WORD }
  function Sub(a: U32, b: U32): U32 { (a - b) % WORD }
  function Shl(a: U32, k: nat): U32 {
    a * Power2(k) % WORD
  }

  // ------------------------------------------------------------------
  // Division by ten
  // ------------------------------------------------------------------

  // The quotient before the correction: about 0.8 v, then an eighth of it.  Every sum
  // fits in 32 bits, and what truncation loses leaves a remainder below twenty.
  lemma Estimate(v: U32, q0: int, q1: int, q2: int, q3: int, q: int)
    requires q0 == v / 2 + v / 4 && q1 == q0 + q0 / 16 && q2 == q1 + q1 / 256
    requires q3 == q2 + q2 / 65536 && q == q3 / 8
    ensures 0 <= q0 <= q1 <= q2 <= q3 < WORD
    ensures 0 <= v - 10 * q < 20
  {
    Lower(v, q0, q1, q2, q3);
    Upper(v, q0, q1, q2, q3);
  }

  lemma Upper(v: U32, q0: int, q1: int, q2: int, q3: int)
    requires q0 == v / 2 + v / 4 && q1 == q0 + q0 / 16 && q2 == q1 + q1 / 256 && q3 == q2 + q2 / 65536
    ensures 0 <= q0 <= q1 <= q2 <= q3 && 5 * q3 <= 4 * v
  {
    assert 4 * q0 <= 3 * v && 16 * q1 <= 17 * q0 && 256 * q2 <= 257 * q1 && 65536 * q3 <= 65537 * q2;
  }

  lemma Lower(v: U32, q0: int, q1: int, q2: int, q3: int)
    requires q0 == v / 2 + v / 4 && q1 == q0 + q0 / 16 && q2 == q1 + q1 / 256 && q3 == q2 + q2 / 65536
    ensures 10 * q3 >= 8 * v - 53
  {
    assert 4 * q0 >= 3 * v - 5 && 16 * q1 >= 17 * q0 - 15;
    assert 256 * q2 >= 257 * q1 - 255 && 65536 * q3 >= 65537 * q2 - 65535;
  }

  lemma TenTimes(q: U32)
    requires 10 * q < WORD
    ensures Add(Shl(q, 3), Shl(q, 1)) == 10 * q
  {
    assert Power2(1) == 2 && Power2(3) == 8;
  }

  lemma Difference(a: U32, b: U32)
    requires b <= a
    ensures Sub(a, b) == a - b
  {
  }

  // The correction step, on the estimate.
  method Correct(v: U32, est: U32) returns (q: U32)
    requires 0 <= v - 10 * est < 20
    ensures q == v / 10
  {
    hide Sub, Shl;
    q := est;
    TenTimes(q);
    Difference(v, 10 * q);
    if Sub(v, Add(Shl(q, 3), Shl(q, 1))) >= 10 {
      q := Add(q, 1);
    }
  }

  lemma NoOverflow(a: U32, b: U32)
    requires a + b < WORD
    ensures Add(a, b) == a + b
  {
  }

  // The machine's sums are the true ones.
  lemma Sums(v: U32) returns (q3: U32)
    ensures var q0 := Add(v / 2, v / 4); var q1 := Add(q0, q0 / 16); var q2 := Add(q1, q1 / 256);
      q3 == Add(q2, q2 / 65536) && 0 <= v - 10 * (q3 / 8) < 20
  {
    var q0 := v / 2 + v / 4;
    var q1 := q0 + q0 / 16;
    var q2 := q1 + q1 / 256;
    q3 := q2 + q2 / 65536;
    Estimate(v, q0, q1, q2, q3, q3 / 8);
    hide Add;
    NoOverflow(v / 2, v / 4);
    NoOverflow(q0, q0 / 16);
    NoOverflow(q1, q1 / 256);
    NoOverflow(q2, q2 / 65536);
  }

  method Div10(v: U32) returns (q: U32)
    ensures q == v / 10
  {
    hide Add;
    ghost var q3 := Sums(v);
    q := Add(v / 2, v / 4);
    q := Add(q, q / 16);
    q := Add(q, q / 256);
    q := Add(q, q / 65536);
    q := q / 8;
    q := Correct(v, q);
  }

  // ------------------------------------------------------------------
  // Numerals
  // ------------------------------------------------------------------

  predicate IsDigit(c: char) {
    '0' <= c <= '9'
  }

  function DigitValue(c: char): (d: nat)
    requires IsDigit(c)
    ensures d < 10
  {
    c as int - '0' as int
  }

  function Digit(d: nat): (c: char)
    requires d < 10
    ensures IsDigit(c) && DigitValue(c) == d
  {
    ('0' as int + d) as char
  }

  predicate AllDigits(s: string) {
    forall i :: 0 <= i < |s| ==> IsDigit(s[i])
  }

  function Value(s: string): nat
    requires AllDigits(s)
  {
    if s == "" then 0 else 10 * Value(s[..|s| - 1]) + DigitValue(s[|s| - 1])
  }

  // Digits only, and no leading zero but in "0" itself.
  predicate Numeral(s: string) {
    s != "" && AllDigits(s) && (s[0] == '0' ==> |s| == 1)
  }

  // The digits of a non-zero number; nothing for zero.
  function Digits(v: nat): (s: string)
    ensures AllDigits(s) && Value(s) == v && (v > 0 <==> s != "") && (v > 0 ==> s[0] != '0')
  {
    if v == 0 then "" else
      var s := Digits(v / 10) + [Digit(v % 10)];
      assert s[..|s| - 1] == Digits(v / 10);
      s
  }

  function Decimal(v: nat): (s: string)
    ensures Numeral(s) && Value(s) == v
  {
    if v == 0 then ['0'] else Digits(v)
  }

  lemma {:induction false} DigitsUnique(s: string)
    requires AllDigits(s) && (s != "" ==> s[0] != '0')
    ensures s == Digits(Value(s))
    decreases |s|
  {
    if s != "" {
      var t := s[..|s| - 1];
      if t == "" {
        assert Value(t) == 0;
      }
      DigitsUnique(t);
      assert Value(s) / 10 == Value(t) && Value(s) % 10 == DigitValue(s[|s| - 1]);
      assert s == t + [s[|s| - 1]];
    }
  }

  // A numeral is determined by its value, so Decimal is the only one it could be.
  lemma NumeralUnique(s: string)
    requires Numeral(s)
    ensures s == Decimal(Value(s))
  {
    if s[0] == '0' {
      assert s[..0] == "" && s == ['0'];
    } else {
      DigitsUnique(s);
    }
  }

  // A number of at most k digits.
  lemma {:induction false} DigitsLength(v: nat, k: nat)
    requires v < Power10(k)
    ensures |Digits(v)| <= k
    decreases k
  {
    if v > 0 {
      DigitsLength(v / 10, k - 1);
    }
  }

  function Power10(k: nat): nat {
    if k == 0 then 1 else 10 * Power10(k - 1)
  }

  lemma TenDigits(v: U32)
    ensures |Digits(v)| <= 10
  {
    assert Power10(5) == 100000;
    assert Power10(10) == 100000 * Power10(5);
    DigitsLength(v, 10);
  }

  // ------------------------------------------------------------------
  // The two printers
  // ------------------------------------------------------------------

  function Reverse(s: seq<char>): seq<char> {
    if s == [] then [] else Reverse(s[1..]) + [s[0]]
  }

  lemma {:induction false} ReverseSnoc(s: seq<char>, c: char)
    ensures Reverse(s + [c]) == [c] + Reverse(s)
    decreases |s|
  {
    if s != [] {
      assert (s + [c])[1..] == s[1..] + [c];
      ReverseSnoc(s[1..], c);
    } else {
      assert s + [c] == [c] && [c][1..] == [];
    }
  }

  // The emptying loop shared by both: the buffer printed from its last character back.
  method Emit(b: array<char>, n: nat) returns (out: string)
    requires n <= b.Length
    ensures out == Reverse(b[..n])
  {
    out := "";
    var k := n;
    while k > 0
      invariant 0 <= k <= n
      invariant out + Reverse(b[..k]) == Reverse(b[..n])
    {
      assert b[..k] == b[..k - 1] + [b[k - 1]];
      ReverseSnoc(b[..k - 1], b[k - 1]);
      k := k - 1;
      out := out + [b[k]];
    }
  }

  // One digit is moved from the number into the buffer.
  lemma Shifted(v: nat, done: seq<char>)
    requires v > 0
    ensures Digits(v / 10) + Reverse(done + [Digit(v % 10)]) == Digits(v) + Reverse(done)
  {
    ReverseSnoc(done, Digit(v % 10));
  }

  method NextDigit(v: U32) returns (q: U32, c: char)
    ensures q == v / 10 && c == Digit(v % 10)
  {
    hide Add, Sub, Shl;
    q := Div10(v);
    TenTimes(q);
    Difference(v, 10 * q);
    var r := Sub(v, Add(Shl(q, 3), Shl(q, 1)));
    assert r == v % 10;
    c := Digit(r);
  }

  method NextDigitBySubtraction(v: U32) returns (q: U32, c: char)
    ensures q == v / 10 && c == Digit(v % 10)
  {
    var n: int, r: int := 0, v;
    while r >= 10
      invariant 0 <= r && 0 <= n && v == 10 * n + r
    {
      r, n := r - 10, n + 1;
    }
    q, c := n, Digit(r);
  }

  // The digits still to come, and those in the buffer, last one first.
  ghost predicate Printing(v0: U32, v: U32, b: array<char>, n: nat)
    reads b
  {
    n <= b.Length && n + |Digits(v)| == |Digits(v0)| && Digits(v) + Reverse(b[..n]) == Digits(v0)
  }

  method PutDec(v0: U32) returns (out: string)
    ensures out == Decimal(v0)
  {
    var b, n := new char[12](_ => ' '), 0;
    if v0 == 0 {
      return ['0'];
    }
    var v := v0;
    TenDigits(v0);
    while v != 0
      invariant n <= 10 && Printing(v0, v, b, n)
      decreases v
    {
      Shifted(v, b[..n]);
      var q, c := NextDigit(v);
      b[n] := c;
      assert b[..n + 1] == b[..n] + [c];
      n := n + 1;
      v := q;
    }
    out := Emit(b, n);
  }

  method PutDecBySubtraction(v0: U32) returns (out: string)
    ensures out == Decimal(v0)
  {
    var b, n := new char[12](_ => ' '), 0;
    if v0 == 0 {
      return ['0'];
    }
    var v := v0;
    TenDigits(v0);
    while v != 0
      invariant n <= 10 && Printing(v0, v, b, n)
      decreases v
    {
      Shifted(v, b[..n]);
      var q, c := NextDigitBySubtraction(v);
      b[n] := c;
      assert b[..n + 1] == b[..n] + [c];
      n := n + 1;
      v := q;
    }
    out := Emit(b, n);
  }
}
