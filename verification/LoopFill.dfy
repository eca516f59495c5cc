// The loop-mode fills of tools/loopprobe/loopprobe.c and the check they must satisfy, on a
// memory that may lose writes.  Memory is an array of longwords from the buffer's base.
module LoopFill {
  import opened Bitwise
  import opened Buffers
  import opened Counting
  import opened Division
  import opened M68k

  const BLK := 16

  // 0x5A000000 | pass << 16, as its high half.
  function High(pass: U32): (h: nat)
    ensures h < 0x1_0000
  {
    Sixteen();
    Or(0x5A00, pass, 16)
  }

  lemma Sixteen()
    ensures Power2(14) == 0x4000 && Power2(15) == 0x8000 && Power2(16) == 0x1_0000
  {
    assert Power2(7) == 0x80;
    assert Power2(14) == 0x80 * Power2(7);
  }

  // A bit is set if the pass or 0x5A00 has it.
  lemma HighBit(pass: U32, k: nat)
    requires k < 16
    ensures Bit(High(pass), k) <==> Bit(0x5A00, k) || Bit(pass, k)
  {
    OrBit(0x5A00, pass, 16, k);
  }

  // The value of every longword of block b.
  function Val(pass: U32, b: nat): (v: U32)
    ensures v / 0x1_0000 == High(pass) && v % 0x1_0000 == b % 0x1_0000
  {
    High(pass) * 0x1_0000 + b % 0x1_0000
  }

  function Want(pass: U32, n: nat): (s: seq<U32>)
    ensures |s| == n && forall i :: 0 <= i < n ==> s[i] == Val(pass, i / BLK)
  {
    seq<U32>(n, (i: nat) => Val(pass, i / BLK))
  }

  function RoundUp(n: nat): (r: nat)
    ensures r % BLK == 0 && n <= r < n + BLK
  {
    (n + BLK - 1) / BLK * BLK
  }

  // ------------------------------------------------------------------
  // The fills
  // ------------------------------------------------------------------

  // Memory after `want` has been written from its start, less the writes that were lost.
  function Kept(was: seq<U32>, want: seq<U32>, dropped: seq<bool>): (m: seq<U32>)
    requires |want| <= |was| == |dropped|
    ensures |m| == |was|
    ensures forall i :: 0 <= i < |m| ==> m[i] == if i < |want| && !dropped[i] then want[i] else was[i]
  {
    seq<U32>(|was|, i requires 0 <= i < |was| => if i < |want| && !dropped[i] then want[i] else was[i])
  }

  // movel val,a0@+ ; dbra n,1b
  method FillLoopmode(mem: array<U32>, at: nat, n: U32, val: U32, dropped: seq<bool>)
    requires at + Times(n) <= mem.Length == |dropped|
    modifies mem
    ensures forall i :: 0 <= i < mem.Length ==> mem[i] == if at <= i < at + Times(n) && !dropped[i] then val else old(mem[i])
  {
    var a0, d1, again := at, n, true;
    while again
      invariant at <= a0 && (again ==> a0 - at + Times(d1) == Times(n)) && (!again ==> a0 - at == Times(n))
      invariant forall i :: 0 <= i < mem.Length ==> mem[i] == if at <= i < a0 && !dropped[i] then val else old(mem[i])
      decreases again, d1
    {
      if !dropped[a0] {
        mem[a0] := val;
      }
      a0 := a0 + 1;
      var r := Dbcc(false, d1);
      again, d1 := r.0, r.1;
    }
  }

  // movel val,a0@+ ; nop ; dbra n,1b
  method FillNoloop(mem: array<U32>, at: nat, n: U32, val: U32, dropped: seq<bool>)
    requires at + Times(n) <= mem.Length == |dropped|
    modifies mem
    ensures forall i :: 0 <= i < mem.Length ==> mem[i] == if at <= i < at + Times(n) && !dropped[i] then val else old(mem[i])
  {
    var a0, d1, again := at, n, true;
    while again
      invariant at <= a0 && (again ==> a0 - at + Times(d1) == Times(n)) && (!again ==> a0 - at == Times(n))
      invariant forall i :: 0 <= i < mem.Length ==> mem[i] == if at <= i < a0 && !dropped[i] then val else old(mem[i])
      decreases again, d1
    {
      if !dropped[a0] {
        mem[a0] := val;
      }
      a0 := a0 + 1;
      // the nop
      var r := Dbcc(false, d1);
      again, d1 := r.0, r.1;
    }
  }

  lemma InBlock(b: nat, i: nat)
    requires b % BLK == 0 && b <= i < b + BLK
    ensures i / BLK == b / BLK
  {
  }

  // The block at b, behind those already written over `was`.
  method FillBlock(mem: array<U32>, b: nat, pass: U32, loopmode: bool, dropped: seq<bool>, ghost was: seq<U32>)
    requires |was| == mem.Length == |dropped| && b % BLK == 0 && b + BLK <= mem.Length
    requires mem[..] == Kept(was, Want(pass, b), dropped)
    modifies mem
    ensures mem[..] == Kept(was, Want(pass, b + BLK), dropped)
  {
    hide Val, Kept, Want;
    var val := Val(pass, b / BLK);
    if loopmode {
      FillLoopmode(mem, b, BLK - 1, val, dropped);
    } else {
      FillNoloop(mem, b, BLK - 1, val, dropped);
    }
    ghost var next := Kept(was, Want(pass, b + BLK), dropped);
    forall i | 0 <= i < mem.Length
      ensures mem[i] == next[i]
    {
      assert old(mem[..])[i] == old(mem[i]);
      if b <= i < b + BLK {
        InBlock(b, i);
      }
    }
  }

  lemma Room(b: nat, nlong: nat)
    requires b % BLK == 0 && b <= RoundUp(nlong)
    ensures b < nlong ==> b + BLK <= RoundUp(nlong)
    ensures b >= nlong ==> b == RoundUp(nlong)
  {
  }

  // Main result: with or without loop mode, every block is written with its own value,
  // in whole blocks, and nothing behind the last of them is touched.
  method FillBlocks(mem: array<U32>, nlong: nat, pass: U32, loopmode: bool, dropped: seq<bool>)
    requires RoundUp(nlong) <= mem.Length == |dropped|
    modifies mem
    ensures mem[..] == Kept(old(mem[..]), Want(pass, RoundUp(nlong)), dropped)
  {
    hide Want, RoundUp;
    var b := 0;
    ghost var was := mem[..];
    assert was == Kept(was, Want(pass, 0), dropped);
    while b < nlong
      invariant 0 <= b <= RoundUp(nlong) && b % BLK == 0
      invariant mem[..] == Kept(was, Want(pass, b), dropped)
    {
      Room(b, nlong);
      FillBlock(mem, b, pass, loopmode, dropped, was);
      b := b + BLK;
    }
    Room(b, nlong);
  }

  // Exactly nlong longwords are written, whatever was there, just when nlong is whole
  // blocks.
  lemma WritesExactly(nlong: nat)
    ensures RoundUp(nlong) == nlong <==> nlong % 16 == 0
  {
  }

  // ------------------------------------------------------------------
  // The check
  // ------------------------------------------------------------------

  // The first offender, as the report prints it.
  datatype First = None | First(index: nat, want: U32, got: U32)

  method Check(mem: array<U32>, nlong: nat, pass: U32) returns (bad: nat, first: First)
    requires nlong <= mem.Length
    ensures bad == Differ(mem[..nlong], Want(pass, nlong))
    ensures bad == 0 <==> first == None
    ensures first.First? ==>
      && first.index < nlong && first.got == mem[first.index] != first.want == Val(pass, first.index / BLK)
      && mem[..first.index] == Want(pass, first.index)
  {
    bad, first := 0, None;
    ghost var got, want := mem[..nlong], Want(pass, nlong);
    for i := 0 to nlong
      invariant bad == Differ(got[..i], want[..i])
      invariant bad == 0 <==> first == None
      invariant first == None ==> mem[..i] == Want(pass, i)
      invariant first.First? ==>
        && first.index < i && first.got == mem[first.index] != first.want == Val(pass, first.index / BLK)
        && mem[..first.index] == Want(pass, first.index)
    {
      DifferSnoc(got, want, i);
      var w := Val(pass, i / BLK);
      if mem[i] != w {
        if bad == 0 {
          first := First(i, w, mem[i]);
        }
        bad := bad + 1;
      }
    }
    assert got[..nlong] == got && want[..nlong] == want;
  }

  // A word answered by another block's transaction is counted exactly when the two
  // blocks differ modulo 65536, which below block 65536 is when they differ.
  lemma WrongBlockCounted(nlong: nat, pass: U32, k: nat, b: nat)
    requires k < nlong
    ensures Differ(Want(pass, nlong)[k := Val(pass, b)], Want(pass, nlong))
         == (if b % 0x1_0000 == k / BLK % 0x1_0000 then 0 else 1)
  {
    var w := Want(pass, nlong);
    DifferZero(w, w);
    if b % 0x1_0000 == k / BLK % 0x1_0000 {
      assert w[k := Val(pass, b)] == w;
    } else {
      DifferSpoil(w, w, k, Val(pass, b));
    }
  }

  function Count(s: seq<bool>): nat {
    if s == [] then 0 else Count(s[..|s| - 1]) + (if s[|s| - 1] then 1 else 0)
  }

  // The lost writes that leave something else behind.
  function Shows(was: seq<U32>, want: seq<U32>, dropped: seq<bool>): (s: seq<bool>)
    requires |want| <= |was| == |dropped|
    ensures |s| == |want| && forall i :: 0 <= i < |s| ==> s[i] == (dropped[i] && was[i] != want[i])
  {
    seq<bool>(|want|, i requires 0 <= i < |want| => dropped[i] && was[i] != want[i])
  }

  lemma {:induction false} DifferCounts(m: seq<U32>, want: seq<U32>, s: seq<bool>)
    requires |m| == |want| == |s| && forall i :: 0 <= i < |m| ==> s[i] == (m[i] != want[i])
    ensures Differ(m, want) == Count(s)
    decreases |m|
  {
    if |m| > 0 {
      var n := |m| - 1;
      DifferCounts(m[..n], want[..n], s[..n]);
    }
  }

  lemma {:induction false} CountNone(s: seq<bool>)
    requires forall i :: 0 <= i < |s| ==> !s[i]
    ensures Count(s) == 0
    decreases |s|
  {
    if |s| > 0 {
      CountNone(s[..|s| - 1]);
    }
  }

  // Main result: over any earlier contents, and for part blocks as well as whole ones,
  // the check counts exactly the lost writes that left a wrong value; so a fill no write
  // of which is lost passes.
  lemma LostCounted(was: seq<U32>, nlong: nat, pass: U32, dropped: seq<bool>)
    requires RoundUp(nlong) <= |was| == |dropped|
    ensures var bad := Differ(Kept(was, Want(pass, RoundUp(nlong)), dropped)[..nlong], Want(pass, nlong));
      && bad == Count(Shows(was, Want(pass, nlong), dropped))
      && ((forall i :: 0 <= i < nlong ==> !dropped[i]) ==> bad == 0)
  {
    hide Val, Differ, Count, Kept, Want, Shows, RoundUp;
    var m := Kept(was, Want(pass, RoundUp(nlong)), dropped)[..nlong];
    var s := Shows(was, Want(pass, nlong), dropped);
    DifferCounts(m, Want(pass, nlong), s);
    if forall i :: 0 <= i < nlong ==> !dropped[i] {
      CountNone(s);
    }
  }

  const POISON: U32 := 0xDEADBEEF

  // The poison of main is no value of either of its passes.
  lemma PoisonIsForeign(pass: U32, b: nat)
    requires pass == 1 || pass == 2
    ensures Val(pass, b) / 0x1_0000 == 0x5A00 + pass && Val(pass, b) != POISON
  {
    hide Val, High;
    HighIs(pass);
    assert POISON / 0x1_0000 == 0xDEAD;
  }

  // The wanted longwords of the two passes, as numbers: sixteen of each value.
  lemma WantIs(pass: U32, n: nat, i: nat)
    requires (pass == 1 || pass == 2) && i < n
    ensures Want(pass, n)[i] == (0x5A00 + pass) * 0x1_0000 + i / 16 % 0x1_0000
  {
    hide High;
    HighIs(pass);
  }

  lemma HighIs(pass: U32)
    requires pass == 1 || pass == 2
    ensures High(pass) == 0x5A00 + pass
  {
    Sixteen();
    OrZero(0x2D00, 15);
    OrZero(0x1680, 14);
    assert Or(0x5A00, 1, 16) == 2 * Or(0x2D00, 0, 15) + 1;
    assert Or(0x5A00, 2, 16) == 2 * Or(0x2D00, 1, 15);
    assert Or(0x2D00, 1, 15) == 2 * Or(0x1680, 0, 14) + 1;
  }

  // Cases A and B.  Main result: over the poison every lost write is counted, and
  // nothing else.
  method Case(mem: array<U32>, nlong: nat, pass: U32, loopmode: bool, dropped: seq<bool>) returns (bad: nat)
    requires RoundUp(nlong) <= mem.Length == |dropped| && (pass == 1 || pass == 2)
    modifies mem
    ensures bad == Count(dropped[..nlong])
  {
    hide Val, Differ, Count, Kept, Want, Shows, RoundUp, High, Or, Power2;
    for i := 0 to nlong
      invariant forall j :: 0 <= j < i ==> mem[j] == POISON
    {
      mem[i] := POISON;
    }
    ghost var was := mem[..];
    FillBlocks(mem, nlong, pass, loopmode, dropped);
    var first;
    bad, first := Check(mem, nlong, pass);
    assert mem[..][..nlong] == mem[..nlong];
    LostCounted(was, nlong, pass, dropped);
    ghost var s := Shows(was, Want(pass, nlong), dropped);
    forall i | 0 <= i < nlong
      ensures s[i] == dropped[i]
    {
      PoisonIsForeign(pass, i / BLK);
    }
    assert s == dropped[..nlong];
  }

  // ------------------------------------------------------------------
  // Loop-mode reads
  // ------------------------------------------------------------------

  function Sum(s: seq<U32>): U32 {
    if s == [] then 0 else (Sum(s[..|s| - 1]) + s[|s| - 1]) % 0x1_0000_0000
  }

  lemma SumSnoc(s: seq<U32>, x: U32)
    ensures Sum(s + [x]) == (Sum(s) + x) % 0x1_0000_0000
  {
    assert (s + [x])[..|s|] == s;
  }

  lemma Regroup(a: int, b: int, x: int)
    ensures ((a + b) % 0x1_0000_0000 + x) % 0x1_0000_0000 == (a + (b + x) % 0x1_0000_0000) % 0x1_0000_0000
  {
    AddMod(a + b, x, 0x1_0000_0000);
    AddMod(b + x, a, 0x1_0000_0000);
  }

  // One longword is its own sum, and the sums of two stretches add up to that of both.
  lemma {:induction false} SumConcat(a: seq<U32>, b: seq<U32>, x: U32)
    ensures Sum([x]) == x && Sum(a + b) == (Sum(a) + Sum(b)) % 0x1_0000_0000
    decreases |b|
  {
    SumSnoc([], x);
    assert [] + [x] == [x];
    if b == [] {
      assert a + b == a;
    } else {
      hide Sum;
      var c, y := b[..|b| - 1], b[|b| - 1];
      assert b == c + [y] && a + b == (a + c) + [y];
      SumConcat(a, c, x);
      SumSnoc(a + c, y);
      SumSnoc(c, y);
      Regroup(Sum(a), Sum(c), y);
    }
  }

  // addl a0@+,acc ; dbra n,1b
  method SumLoopmode(mem: array<U32>, n: U32) returns (acc: U32)
    requires Times(n) <= mem.Length
    ensures acc == Sum(mem[..Times(n)])
  {
    acc := 0;
    var a0, d1, again := 0, n, true;
    while again
      invariant 0 <= a0 && (again ==> a0 + Times(d1) == Times(n)) && (!again ==> a0 == Times(n))
      invariant acc == Sum(mem[..a0])
      decreases again, d1
    {
      assert mem[..a0 + 1][..a0] == mem[..a0];
      acc := (acc + mem[a0]) % 0x1_0000_0000;
      a0 := a0 + 1;
      var r := Dbcc(false, d1);
      again, d1 := r.0, r.1;
    }
  }

  method SumByReads(mem: array<U32>, n: nat) returns (want: U32)
    requires n <= mem.Length
    ensures want == Sum(mem[..n])
  {
    want := 0;
    for i := 0 to n
      invariant want == Sum(mem[..i])
    {
      assert mem[..i + 1][..i] == mem[..i];
      want := (want + mem[i]) % 0x1_0000_0000;
    }
  }
}
