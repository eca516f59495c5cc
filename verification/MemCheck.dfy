// tools/memchk.c over the loop-mode fill and compare of tools/memloop.s: a scan that
// restarts behind each bad longword and so counts every one of them.
module MemCheck {
  import opened Bitwise
  import opened Buffers
  import opened Counting
  import opened Division
  import opened M68k

  const LIMIT := 32768

  type Count = n: int | 0 <= n < 0x8000_0000

  // The longwords the two assembly loops visit: all n, but a count of zero wraps.
  function Reach(n: Count): nat {
    if n == 0 then 0x1_0000 else n
  }

  // The count loaded for one stretch: at most LIMIT longwords, less one for dbcc.
  function Stretch(d2: Count): (r: (Count, U32))
    ensures r.0 + Times(r.1) == (if d2 == 0 then 0x1_0000 else d2)
    ensures r.0 < d2 || r.0 == d2 == 0
  {
    var d1 := if d2 <= LIMIT then d2 else LIMIT;
    (d2 - d1, (d1 - 1) % 0x1_0000_0000)
  }

  // The inner loop of _mfill: movl d0,a0@+ ; dbra d1.
  method FillStretch(mem: array<U32>, from: nat, d1in: U32, v: U32) returns (a0: nat)
    requires from + Times(d1in) <= mem.Length
    modifies mem
    ensures a0 == from + Times(d1in)
    ensures forall i :: 0 <= i < mem.Length ==> mem[i] == if from <= i < a0 then v else old(mem[i])
  {
    var d1, again := d1in, true;
    a0 := from;
    while again
      invariant from <= a0
      invariant again ==> a0 + Times(d1) == from + Times(d1in)
      invariant !again ==> a0 == from + Times(d1in)
      invariant forall i :: 0 <= i < mem.Length ==> mem[i] == if from <= i < a0 then v else old(mem[i])
      decreases again, d1
    {
      mem[a0] := v;
      a0 := a0 + 1;
      var r := Dbcc(false, d1);
      again, d1 := r.0, r.1;
    }
  }

  method MFill(mem: array<U32>, p: nat, n: Count, v: U32)
    requires p + Reach(n) <= mem.Length
    modifies mem
    ensures forall i :: 0 <= i < mem.Length ==> mem[i] == if p <= i < p + Reach(n) then v else old(mem[i])
  {
    var d2, a0, again: bool := n, p, true;
    while again
      invariant p <= a0 && (again ==> a0 + Reach(d2) == p + Reach(n)) && (!again ==> a0 == p + Reach(n))
      invariant forall i :: 0 <= i < mem.Length ==> mem[i] == if p <= i < a0 then v else old(mem[i])
      decreases again, d2
    {
      var r := Stretch(d2);
      d2 := r.0;
      a0 := FillStretch(mem, a0, r.1, v);
      again := d2 != 0;
    }
  }

  datatype Found = None | At(i: nat)

  // Nothing wrong in [from, to), or the first wrong place.
  ghost predicate First(mem: array<U32>, from: nat, to: nat, v: U32, f: Found)
    requires to <= mem.Length
    reads mem
  {
    match f
    case None => forall j :: from <= j < to ==> mem[j] == v
    case At(i) => from <= i < to && mem[i] != v && forall j :: from <= j < i ==> mem[j] == v
  }

  // The inner loop of _mcheck: cmpl a0@+,d0 ; dbne d1 ; bnes.
  method CheckStretch(mem: array<U32>, from: nat, d1in: U32, v: U32) returns (f: Found)
    requires from + Times(d1in) <= mem.Length
    ensures First(mem, from, from + Times(d1in), v, f)
  {
    var d1, a0, ne, again := d1in, from, false, true;
    while again
      invariant from <= a0
      invariant again ==> !ne && a0 + Times(d1) == from + Times(d1in)
      invariant !again && !ne ==> a0 == from + Times(d1in)
      invariant ne ==> from < a0 <= from + Times(d1in) && mem[a0 - 1] != v
      invariant forall j :: from <= j < (if ne then a0 - 1 else a0) ==> mem[j] == v
      decreases again, d1
    {
      ne := mem[a0] != v;
      a0 := a0 + 1;
      var r := Dbcc(ne, d1);
      again, d1 := r.0, r.1;
    }
    f := if ne then At(a0 - 1) else None;
  }

  method MCheck(mem: array<U32>, p: nat, n: Count, v: U32) returns (f: Found)
    requires p + Reach(n) <= mem.Length
    ensures First(mem, p, p + Reach(n), v, f)
  {
    var d2, a0, again: bool := n, p, true;
    while again
      invariant p <= a0 && (again ==> a0 + Reach(d2) == p + Reach(n)) && (!again ==> a0 == p + Reach(n))
      invariant forall j :: p <= j < a0 ==> mem[j] == v
      decreases again, d2
    {
      var r := Stretch(d2);
      f := CheckStretch(mem, a0, r.1, v);
      if f.At? {
        return f;
      }
      d2, a0 := r.0, a0 + Times(r.1);
      again := d2 != 0;
    }
    f := None;
  }

  lemma RepeatConcat<T>(v: T, m: nat, n: nat)
    ensures Repeat(v, m) + Repeat(v, n) == Repeat(v, m + n)
  {
  }

  lemma NoMore(s: seq<U32>, v: U32, p: nat)
    requires p <= |s| && forall j :: p <= j < |s| ==> s[j] == v
    ensures Differ(s, Repeat(v, |s|)) == Differ(s[..p], Repeat(v, p))
  {
    hide Differ, Repeat;
    var n := |s| - p;
    assert s[p..] == Repeat(v, n);
    assert s == s[..p] + s[p..];
    RepeatConcat(v, p, n);
    DifferConcat(s[..p], Repeat(v, p), s[p..], Repeat(v, n));
    DifferZero(s[p..], Repeat(v, n));
  }

  // One stretch of good longwords and the bad one that ended it.
  lemma OneMore(s: seq<U32>, v: U32, p: nat, i: nat)
    requires p <= i < |s| && s[i] != v && forall j :: p <= j < i ==> s[j] == v
    ensures Differ(s[..i + 1], Repeat(v, i + 1)) == Differ(s[..p], Repeat(v, p)) + 1
  {
    hide Differ, Repeat;
    var t, want := s[..i + 1], Repeat(v, i + 1);
    NoMore(s[..i], v, p);
    assert s[..i][..p] == s[..p];
    DifferSnoc(t, want, i);
    assert t[..i] == s[..i] && want[..i] == Repeat(v, i) && t[..i + 1] == t && want[..i + 1] == want;
  }

  // Main result: the restarting scan counts exactly the longwords that differ.
  method Scan(mem: array<U32>, v: U32) returns (nbad: nat)
    requires mem.Length < 0x8000_0000
    ensures nbad == Differ(mem[..], Repeat(v, mem.Length))
  {
    var p, n: int := 0, mem.Length;
    nbad := 0;
    while n > 0
      invariant 0 <= n && p + n == mem.Length && 0 <= p
      invariant nbad == Differ(mem[..p], Repeat(v, p))
      decreases n
    {
      var bad := MCheck(mem, p, n, v);
      if bad == None {
        NoMore(mem[..], v, p);
        assert mem[..][..p] == mem[..p];
        return;
      }
      OneMore(mem[..], v, p, bad.i);
      assert mem[..][..p] == mem[..p] && mem[..][..bad.i + 1] == mem[..bad.i + 1];
      nbad := nbad + 1;
      n := n - ((bad.i - p) + 1);
      p := bad.i + 1;
    }
    assert mem[..p] == mem[..];
  }

  const VALUES: seq<U32> := [0x00000000, 0xffffffff, 0x5a5a5a5a, 0xa5a5a5a5, 0x0000ffff, 0xffff0000]

  // What a fill left that is not its value, by longword: nothing, on a faithful memory.
  type Fault = map<nat, U32>

  function Faulted(v: U32, f: Fault, n: nat): (s: seq<U32>)
    ensures |s| == n && forall k :: 0 <= k < n ==> s[k] == if k in f then f[k] else v
  {
    seq<U32>(n, k requires 0 <= k < n => if k in f then f[k] else v)
  }

  predicate Harmless(v: U32, f: Fault, n: nat) {
    forall k :: 0 <= k < n && k in f ==> f[k] == v
  }

  // Fill number `fill` of a run, counted through the passes.
  function Value(fill: nat): U32 {
    VALUES[fill % 6]
  }

  // The wrong longwords of all the fills so far.
  function Total(faults: seq<Fault>, n: nat): nat {
    if faults == [] then 0
    else
      var last := |faults| - 1;
      Total(faults[..last], n) + Differ(Faulted(Value(last), faults[last], n), Repeat(Value(last), n))
  }

  lemma {:induction false} TotalZero(faults: seq<Fault>, n: nat)
    ensures Total(faults, n) == 0 <==> forall i :: 0 <= i < |faults| ==> Harmless(Value(i), faults[i], n)
    decreases |faults|
  {
    hide Differ, Value;
    if faults != [] {
      var last := |faults| - 1;
      var s, want := Faulted(Value(last), faults[last], n), Repeat(Value(last), n);
      TotalZero(faults[..last], n);
      DifferZero(s, want);
      if s == want {
        assert forall k :: 0 <= k < n ==> s[k] == want[k];
      } else {
        assert exists k :: 0 <= k < n && s[k] != want[k];
      }
    }
  }

  // One fill of the whole buffer, and what the memory makes of it.
  method FillFaulty(mem: array<U32>, v: U32, f: Fault)
    requires 0 < mem.Length < 0x8000_0000
    modifies mem
    ensures mem[..] == Faulted(v, f, mem.Length)
  {
    MFill(mem, 0, mem.Length, v);
    forall k | 0 <= k < mem.Length && k in f {
      mem[k] := f[k];
    }
  }

  // ------------------------------------------------------------------
  // What the values are for
  // ------------------------------------------------------------------

  lemma {:induction false} AllOnes(k: nat, n: nat)
    requires k < n
    ensures Bit(Power2(n) - 1, k)
    decreases n
  {
    if k == 0 {
      assert Power2(0) == 1;
    } else {
      AllOnes(k - 1, n - 1);
      var p, d := Power2(n - 1), Power2(k - 1);
      assert Power2(n) == 2 * p && Power2(k) == 2 * d;
      hide Power2;
      OneMoreBit(p - 1, d);
    }
  }

  lemma OneMoreBit(w: nat, d: nat)
    requires d > 0
    ensures (2 * w + 1) / (2 * d) == w / d
  {
    var q := w / d;
    assert w == d * q + w % d;
    assert 2 * d * q == 2 * (d * q);
    Unique(2 * w + 1, 2 * d, q, 2 * (w % d) + 1);
  }

  lemma ThirtyTwo()
    ensures Power2(32) == 0x1_0000_0000
  {
    assert Power2(8) == 0x100;
    assert Power2(16) == 0x100 * Power2(8);
    assert Power2(24) == 0x100 * Power2(16);
  }

  // Every bit is a zero in one value of a pass and a one in another.
  lemma BothWays(k: nat)
    requires k < 32
    ensures exists i, j :: 0 <= i < 6 && 0 <= j < 6 && !Bit(VALUES[i], k) && Bit(VALUES[j], k)
  {
    ThirtyTwo();
    AllOnes(k, 32);
    hide Power2;
    Unique(0, Power2(k), 0, 0);
    assert !Bit(VALUES[0], k) && Bit(VALUES[1], k);
  }

  // The values: all zeros, the byte 5A four times, ones in the low half, and after each its
  // complement.
  lemma ValuesAre(i: nat)
    requires i < 6
    ensures VALUES[0] == 0 && VALUES[2] == 0x5A * 0x0101_0101 && VALUES[4] == 0x1_0000 - 1
    ensures i % 2 == 1 ==> VALUES[i - 1] + VALUES[i] == 0x1_0000_0000 - 1
  {
  }

  // What the buffer holds after a fill.
  function After(faults: seq<Fault>, fill: nat, n: nat): (s: seq<U32>)
    requires fill < |faults|
    ensures |s| == n
  {
    Faulted(Value(fill), faults[fill], n)
  }

  lemma PassValue(pass: nat, i: nat)
    requires i < 6
    ensures Value(6 * pass + i) == VALUES[i]
  {
    Unique(6 * pass + i, 6, pass, i);
  }

  // Main result: a bit of a longword that every fill of some pass leaves at one and the
  // same value is counted.
  lemma StuckBitCounted(faults: seq<Fault>, n: nat, pass: nat, p: nat, k: nat, b: bool)
    requires 6 * pass + 6 <= |faults| && p < n && k < 32
    requires forall fill :: 6 * pass <= fill < 6 * pass + 6 ==> Bit(After(faults, fill, n)[p], k) == b
    ensures Total(faults, n) > 0
  {
    hide Bit, Value;
    BothWays(k);
    var i :| 0 <= i < 6 && Bit(VALUES[i], k) != b;
    var fill := 6 * pass + i;
    PassValue(pass, i);
    assert Bit(After(faults, fill, n)[p], k) == b;
    WrongIsHarm(Value(fill), faults[fill], n, p);
    TotalZero(faults, n);
  }

  lemma WrongIsHarm(v: U32, f: Fault, n: nat, p: nat)
    requires p < n && Faulted(v, f, n)[p] != v
    ensures !Harmless(v, f, n)
  {
    assert p in f && f[p] != v;
  }

  // Consecutive fills differ, across passes too, ...
  lemma FillsDiffer(i: nat)
    ensures Value(i) != Value(i + 1)
  {
    var r := i % 6;
    assert (i + 1) % 6 == if r == 5 then 0 else r + 1;
  }

  // ... so a longword that survives a fill, right or wrong as it was, is counted.
  lemma SurvivorCounted(faults: seq<Fault>, n: nat, i: nat, p: nat)
    requires i + 1 < |faults| && p < n
    requires After(faults, i + 1, n)[p] == After(faults, i, n)[p]
    ensures Total(faults, n) > 0
  {
    FillsDiffer(i);
    TotalZero(faults, n);
    if After(faults, i, n)[p] != Value(i) {
      WrongIsHarm(Value(i), faults[i], n, p);
    } else {
      WrongIsHarm(Value(i + 1), faults[i + 1], n, p);
    }
  }

  lemma TotalSnoc(faults: seq<Fault>, pass: nat, i: nat, n: nat)
    requires i < 6 && 6 * pass + i < |faults|
    ensures var fill := 6 * pass + i;
      Total(faults[..fill + 1], n) == Total(faults[..fill], n) + Differ(Faulted(VALUES[i], faults[fill], n), Repeat(VALUES[i], n))
  {
    hide Differ, Faulted;
    var fill := 6 * pass + i;
    PassValue(pass, i);
    assert faults[..fill + 1][..fill] == faults[..fill];
  }

  // One value, filled and scanned.
  method FillAndScan(mem: array<U32>, pass: nat, i: nat, faults: seq<Fault>) returns (nbad: nat)
    requires 0 < mem.Length < 0x8000_0000 && i < 6 && 6 * pass + i < |faults|
    modifies mem
    ensures mem[..] == Faulted(VALUES[i], faults[6 * pass + i], mem.Length)
    ensures Total(faults[..6 * pass + i + 1], mem.Length) == Total(faults[..6 * pass + i], mem.Length) + nbad
  {
    hide Differ, Faulted, Total;
    FillFaulty(mem, VALUES[i], faults[6 * pass + i]);
    nbad := Scan(mem, VALUES[i]);
    TotalSnoc(faults, pass, i, mem.Length);
  }

  // The program, on any memory.  Main result: the total is the wrong longwords of every
  // fill of every pass, so it is zero if and only if no fill left a wrong one.
  method Memchk(mem: array<U32>, npass: nat, faults: seq<Fault>) returns (total: nat)
    requires 0 < mem.Length < 0x8000_0000 && |faults| == 6 * npass
    modifies mem
    ensures total == Total(faults, mem.Length)
    ensures total == 0 <==> forall i :: 0 <= i < |faults| ==> Harmless(Value(i), faults[i], mem.Length)
    ensures npass > 0 ==> mem[..] == Faulted(VALUES[5], faults[6 * npass - 1], mem.Length)
  {
    hide Harmless, Faulted, Total, Value;
    total := 0;
    TotalEmpty(mem.Length);
    assert faults[..0] == [];
    for pass := 0 to npass
      invariant total == Total(faults[..6 * pass], mem.Length)
      invariant pass > 0 ==> mem[..] == Faulted(VALUES[5], faults[6 * pass - 1], mem.Length)
    {
      for i := 0 to 6
        invariant total == Total(faults[..6 * pass + i], mem.Length)
        invariant i > 0 ==> mem[..] == Faulted(VALUES[i - 1], faults[6 * pass + i - 1], mem.Length)
      {
        var nbad := FillAndScan(mem, pass, i, faults);
        total := total + nbad;
      }
    }
    assert faults[..6 * npass] == faults;
    TotalZero(faults, mem.Length);
  }

  lemma TotalEmpty(n: nat)
    ensures Total([], n) == 0
  {
  }
}
