// Fixed-width words as sequences of bits, most significant bit first, so that a
// Verilog shift register `{r[n-2:0], b}` is the sequence with its head dropped and
// b appended, and `r[k]` of an n-bit register is element n-1-k.
module Bits {

  type Bits = seq<bool>

  type Word = w: seq<bool> | |w| == 16 witness Zeros(16)
  type Octet = w: seq<bool> | |w| == 8 witness Zeros(8)
  type Quint = w: seq<bool> | |w| == 5 witness Zeros(5)

  function Zeros(n: nat): (z: Bits)
    ensures |z| == n && forall i :: 0 <= i < n ==> !z[i]
  {
    if n == 0 then [] else [false] + Zeros(n - 1)
  }

  // One clock of a left shift register.
  function ShiftIn(w: Bits, b: bool): (r: Bits)
    requires |w| > 0
    ensures |r| == |w|
  {
    w[1..] + [b]
  }

  // The same register after every bit of `bits` has been shifted in.
  function ShiftAll(w: Bits, bits: Bits): (r: Bits)
    ensures |r| == |w|
    ensures |bits| == |w| ==> r == bits
  {
    (w + bits)[|bits|..]
  }

  lemma ShiftAllStep(w: Bits, bits: Bits, b: bool)
    requires |w| > 0
    ensures ShiftIn(ShiftAll(w, bits), b) == ShiftAll(w, bits + [b])
  {
    assert w + (bits + [b]) == (w + bits) + [b];
  }

  lemma ShiftAllMore(w: Bits, bits: Bits)
    requires |w| > 0 && |bits| > 0
    ensures ShiftAll(ShiftIn(w, bits[0]), bits[1..]) == ShiftAll(w, bits)
  {
    assert (w + bits)[1..] == ShiftIn(w, bits[0]) + bits[1..];
  }

  lemma ShiftAllTail(w: Bits, bits: Bits, n: nat)
    requires n <= |w| && n <= |bits|
    ensures ShiftAll(w, bits)[|w| - n..] == bits[|bits| - n..]
  {
  }

  function Nibble(n: nat): (r: Bits)
    ensures |r| == 4
  {
    [n / 8 % 2 == 1, n / 4 % 2 == 1, n / 2 % 2 == 1, n % 2 == 1]
  }

  function Hex(a: nat, b: nat, c: nat, d: nat): Word {
    Nibble(a) + Nibble(b) + Nibble(c) + Nibble(d)
  }

  function Or(a: Word, b: Word): Word {
    seq(16, i requires 0 <= i < 16 => a[i] || b[i])
  }

  // The register number a five-bit field names.
  function Index(q: Quint): (n: nat)
    ensures n < 32
  {
    (if q[0] then 16 else 0) + (if q[1] then 8 else 0) + (if q[2] then 4 else 0)
    + (if q[3] then 2 else 0) + (if q[4] then 1 else 0)
  }

  // A bit shifted in doubles it: the field is read most significant bit first.
  lemma IndexShift(q: Quint, b: bool)
    ensures Index(ShiftIn(q, b)) == (2 * Index(q) + (if b then 1 else 0)) % 32
  {
  }

  // The binary digits of a number are the one field that names it.
  lemma IndexIs(q: Quint, r: nat)
    requires r < 32
    ensures Index(q) == r <==> q == [r / 16 % 2 == 1, r / 8 % 2 == 1, r / 4 % 2 == 1, r / 2 % 2 == 1, r % 2 == 1]
  {
    var d: Quint := [r / 16 % 2 == 1, r / 8 % 2 == 1, r / 4 % 2 == 1, r / 2 % 2 == 1, r % 2 == 1];
    Binary(r);
    assert Index(d) == r;
    IndexDigits(q);
    hide Index;
    if Index(q) == r {
      assert q == d;
    }
  }

  lemma Binary(r: nat)
    requires r < 32
    ensures r == 16 * (r / 16 % 2) + 8 * (r / 8 % 2) + 4 * (r / 4 % 2) + 2 * (r / 2 % 2) + r % 2
  {
    assert r == 2 * (r / 2) + r % 2;
    assert r / 2 == 2 * (r / 4) + r / 2 % 2;
    assert r / 4 == 2 * (r / 8) + r / 4 % 2;
    assert r / 8 == 2 * (r / 16) + r / 8 % 2;
  }

  lemma IndexDigits(q: Quint)
    ensures var n := Index(q);
      && (n / 16 % 2 == 1 <==> q[0]) && (n / 8 % 2 == 1 <==> q[1]) && (n / 4 % 2 == 1 <==> q[2])
      && (n / 2 % 2 == 1 <==> q[3]) && (n % 2 == 1 <==> q[4])
  {
  }

  // The number a register holds.
  function Value(w: Bits): nat {
    if w == [] then 0 else 2 * Value(w[..|w| - 1]) + (if w[|w| - 1] then 1 else 0)
  }

  lemma ValueSnoc(w: Bits, b: bool)
    ensures Value(w + [b]) == 2 * Value(w) + (if b then 1 else 0)
  {
    assert (w + [b])[..|w|] == w;
  }

  lemma NibbleIs(w: Bits, n: nat)
    requires n < 16
    ensures Value(w + Nibble(n)) == 16 * Value(w) + n
  {
    var b := Nibble(n);
    var w1, w2, w3 := w + [b[0]], w + [b[0]] + [b[1]], w + [b[0]] + [b[1]] + [b[2]];
    assert w + b == w3 + [b[3]];
    hide Value;
    ValueSnoc(w, b[0]);
    ValueSnoc(w1, b[1]);
    ValueSnoc(w2, b[2]);
    ValueSnoc(w3, b[3]);
    Sixteen(n);
  }

  lemma Sixteen(n: nat)
    requires n < 16
    ensures n == 8 * (n / 8 % 2) + 4 * (n / 4 % 2) + 2 * (n / 2 % 2) + n % 2
  {
    assert n / 2 == 2 * (n / 4) + n / 2 % 2;
    assert n / 4 == 2 * (n / 8) + n / 4 % 2;
  }

  lemma HexIs(a: nat, b: nat, c: nat, d: nat)
    requires a < 16 && b < 16 && c < 16 && d < 16
    ensures Value(Hex(a, b, c, d)) == 0x1000 * a + 0x100 * b + 0x10 * c + d
  {
    var none: Bits := [];
    assert Value(none) == 0;
    NibbleIs(none, a);
    assert none + Nibble(a) == Nibble(a);
    NibbleIs(Nibble(a), b);
    NibbleIs(Nibble(a) + Nibble(b), c);
    NibbleIs(Nibble(a) + Nibble(b) + Nibble(c), d);
  }
}
