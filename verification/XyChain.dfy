// tools/xychain/xychain.c: IOPBs built a byte at a time in the DVMA window, linked into
// chains, and run by the card of module Xylogics.
module XyChain {
  import opened Buffers
  import opened Division
  import opened Xylogics

  const IOPB_MB := 0x100
  const IOPB_STEP := 0x20
  const BUF_MB := 0x1000
  const BUF_STEP := 0x200

  // IOPBs end where the buffers begin, and a buffer's address has sixteen bits.
  const MAX := 120

  function IopbAt(n: nat): nat { IOPB_MB + n * IOPB_STEP }
  function BufAt(n: nat): nat { BUF_MB + n * BUF_STEP }

  // What build() is asked for.
  datatype Order = Order(cmd: nat, chen: bool, ien: bool, iei: bool, blk: nat, nsect: nat, buf: nat, next: nat)

  predicate Buildable(o: Order) {
    o.cmd < 16 && o.blk < 0x1_0000_0000 && o.nsect < 0x1_0000
  }

  // Cylinder, head and sector of a block, as build() packs them.
  function Packed(blk: nat): Chs {
    Chs(blk / 128 / 256 % 8 * 256 + blk / 128 % 256, blk / 32 % 4, blk % 32)
  }

  function Flag(b: bool, v: nat): nat { if b then v else 0 }

  // The 24 bytes, by controller byte number.
  function Fields(o: Order): Iopb
    requires Buildable(o)
  {
    [0xC0 + Flag(o.chen, 0x20) + Flag(o.ien, 0x10) + o.cmd,
     Flag(o.iei, 0x40) + 0x02, 0, 0, 0x04, 0x00,
     o.blk / 32 % 4, o.blk % 32, o.blk / 128 % 256, o.blk / 128 / 256 % 8,
     o.nsect % 256, o.nsect / 256, o.buf % 256, o.buf / 256 % 256, 0, 0, 0, 0,
     o.next % 256, o.next / 256 % 256, 0, 0, 0, 0]
  }

  // What the card makes of an IOPB that carries an order.
  predicate Reads(f: Iopb, o: Order) {
    && Cmd(f) == o.cmd && Aud(f) && Relo(f) && Chen(f) == o.chen && Ien(f) == o.ien && Iei(f) == o.iei && !Done(f)
    && Where(f) == Packed(o.blk) && Count(f) == o.nsect && f[5] == 0
    && DataAddr(f) == o.buf % 0x1_0000 && Next(f) == o.next % 0x1_0000
  }

  // Every field comes back out of the bytes build() stores.
  lemma FieldsRead(o: Order)
    requires Buildable(o)
    ensures Reads(Fields(o), o)
  {
    hide Flag, Relo, DataAddr;
    CommandByte(o.cmd, o.chen, o.ien);
    ModeByte(o.iei);
    Halfword(o.nsect);
    Halfword(o.buf);
    Halfword(o.next);
    AddressRead(o);
  }

  // The bytes the card reads no field from: the ECC mode, the throttle and zeros.
  lemma OtherBytes(o: Order)
    requires Buildable(o)
    ensures var f := Fields(o);
      && f[1] as int % 0x40 == 2 && f[2] == f[3] == 0 && f[4] == 4
      && forall i :: 14 <= i < 24 && i != 18 && i != 19 ==> f[i] == 0
  {
  }

  lemma CommandByte(cmd: nat, chen: bool, ien: bool)
    requires cmd < 16
    ensures var b := 0xC0 + Flag(chen, 0x20) + Flag(ien, 0x10) + cmd;
      && b < 256 && b % 16 == cmd && b / 128 % 2 == 1 && b / 64 % 2 == 1
      && (b / 32 % 2 == 1 <==> chen) && (b / 16 % 2 == 1 <==> ien)
  {
  }

  lemma ModeByte(iei: bool)
    ensures var b := Flag(iei, 0x40) + 0x02; b < 256 && (b / 64 % 2 == 1 <==> iei)
  {
  }

  lemma Halfword(n: nat)
    ensures n / 256 % 256 * 256 + n % 256 == n % 0x1_0000
    ensures n < 0x1_0000 ==> n / 256 % 256 == n / 256 && n % 0x1_0000 == n
  {
  }

  lemma AddressRead(o: Order)
    requires Buildable(o)
    ensures Relo(Fields(o)) && DataAddr(Fields(o)) == o.buf % 0x1_0000
  {
    hide Flag;
    CommandByte(o.cmd, o.chen, o.ien);
    Halfword(o.buf);
    var low := o.buf % 0x1_0000;
    Unique(low, 0x10_0000, 0, low);
  }

  // What the label says: 34 cylinders of 4 heads of 32 sectors.
  const LABEL_GEOMETRY := Chs(33, 3, 31)
  const BLOCKS := 34 * 128

  // The block the card makes of one that was asked for.
  function Place(blk: nat): nat {
    blk % 262144
  }

  // Main result: the eleven cylinder bits hold a block number exactly below 262144, and
  // under the geometry the label gives, the card computes it back.
  lemma PackingExact(blk: nat)
    ensures Lba(Packed(blk), LABEL_GEOMETRY) == Place(blk)
    ensures Place(blk) == blk <==> blk < 262144
  {
    hide Lba, Packed;
    var c := blk / 128;
    PackedIs(blk);
    LabelLba(Packed(blk));
    Track(blk);
    Unique(blk, 262144, c / 2048, c % 2048 * 128 + blk / 32 % 4 * 32 + blk % 32);
    PlaceIs(blk);
  }

  lemma PackedIs(blk: nat)
    ensures Packed(blk) == Chs(blk / 128 % 2048, blk / 32 % 4, blk % 32)
  {
    Cylinder(blk / 128);
  }

  lemma LabelLba(p: Chs)
    ensures Lba(p, LABEL_GEOMETRY) == p.cyl * 128 + p.head * 32 + p.sect
  {
  }

  lemma PlaceIs(blk: nat)
    ensures Place(blk) == blk <==> blk < 262144
  {
  }

  lemma Cylinder(c: nat)
    ensures c / 256 % 8 * 256 + c % 256 == c % 2048
  {
    var d := c / 256;
    Unique(c, 2048, d / 8, d % 8 * 256 + c % 256);
  }

  lemma Track(blk: nat)
    ensures blk == 128 * (blk / 128) + blk / 32 % 4 * 32 + blk % 32
  {
    var t := blk / 32;
    Unique(blk, 128, t / 4, t % 4 * 32 + blk % 32);
  }

  // ------------------------------------------------------------------
  // In memory
  // ------------------------------------------------------------------

  // Outside the IOPB at `at`, two memories agree.
  ghost predicate SameButIopb(m: Memory, r: Memory, at: nat) {
    forall a :: 0 <= a < WINDOW && !(at <= a < at + 24) ==> r[a] == m[a]
  }

  lemma StoreAt(r: Memory, at: nat, f: Iopb, i: nat)
    requires at + 24 <= WINDOW && Fetch(r, at) == f && i < 24
    ensures r[at + i] == Swapped(f)[i]
  {
    hide Flip, Fetch, Swapped;
    FlipTwice(i);
    assert Fetch(r, at)[Flip(i)] == r[at + Flip(Flip(i))];
  }

  lemma IsStore(m: Memory, r: Memory, at: nat, f: Iopb)
    requires at + 24 <= WINDOW && Fetch(r, at) == f && SameButIopb(m, r, at)
    ensures r == Store(m, at, f)
  {
    var s := Store(m, at, f);
    forall a | 0 <= a < WINDOW
      ensures r[a] == s[a]
    {
      if at <= a < at + 24 {
        StoreAt(r, at, f, a - at);
      }
    }
  }

  lemma PutFetch(m: Memory, at: nat, byte: nat, v: Byte)
    requires at + 24 <= WINDOW && byte < 24
    ensures Fetch(m[at + Flip(byte) := v], at) == Fetch(m, at)[byte := v]
  {
    var a, b := Fetch(m[at + Flip(byte) := v], at), Fetch(m, at)[byte := v];
    forall k | 0 <= k < 24
      ensures a[k] == b[k]
    {
      if Flip(k) == Flip(byte) {
        assert k == byte;
      }
    }
  }

  // One byte of IOPB n, whose fields are f in a memory that was m before the IOPB.
  method IopbPut(mem: array<Byte>, n: nat, byte: nat, v: Byte, ghost f: Iopb, ghost m: Memory)
    returns (ghost g: Iopb)
    requires mem.Length == WINDOW && n < MAX && byte < 24
    requires Fetch(mem[..], IopbAt(n)) == f && SameButIopb(m, mem[..], IopbAt(n))
    modifies mem
    ensures byte % 2 == 0 ==> mem[..] == old(mem[..])[IopbAt(n) + byte + 1 := v]
    ensures byte % 2 == 1 ==> mem[..] == old(mem[..])[IopbAt(n) + byte - 1 := v]
    ensures g == f[byte := v] && Fetch(mem[..], IopbAt(n)) == g && SameButIopb(m, mem[..], IopbAt(n))
  {
    PutFetch(mem[..], IopbAt(n), byte, v);
    ghost var was := mem[..];
    mem[IopbAt(n) + Flip(byte)] := v;
    assert mem[..] == was[IopbAt(n) + Flip(byte) := v];
    g := f[byte := v];
  }

  method IopbGet(mem: array<Byte>, n: nat, byte: nat) returns (v: Byte)
    requires mem.Length == WINDOW && n < MAX && byte < 24
    ensures v == Fetch(mem[..], IopbAt(n))[byte]
    ensures v == if byte % 2 == 0 then mem[IopbAt(n) + byte + 1] else mem[IopbAt(n) + byte - 1]
  {
    v := mem[IopbAt(n) + Flip(byte)];
  }

  function Zero(): Iopb {
    seq<Byte>(24, _ => 0)
  }

  method Clear(mem: array<Byte>, n: nat)
    requires mem.Length == WINDOW && n < MAX
    modifies mem
    ensures Fetch(mem[..], IopbAt(n)) == Zero() && SameButIopb(old(mem[..]), mem[..], IopbAt(n))
  {
    ghost var f, m := Fetch(mem[..], IopbAt(n)), mem[..];
    for i := 0 to 24
      invariant Fetch(mem[..], IopbAt(n)) == f && SameButIopb(m, mem[..], IopbAt(n))
      invariant forall k :: 0 <= k < i ==> f[k] == 0
    {
      f := IopbPut(mem, n, i, 0, f, m);
    }
    assert f == Zero();
  }

  // The first ten bytes of an order: command, throttle, drive and disk address.
  method BuildCommand(mem: array<Byte>, n: nat, o: Order, ghost m: Memory) returns (ghost f: Iopb)
    requires mem.Length == WINDOW && n < MAX && Buildable(o)
    requires Fetch(mem[..], IopbAt(n)) == Zero() && SameButIopb(m, mem[..], IopbAt(n))
    modifies mem
    ensures Fetch(mem[..], IopbAt(n)) == f && SameButIopb(m, mem[..], IopbAt(n))
    ensures f[..10] == Fields(o)[..10] && f[10..] == Zero()[10..]
  {
    hide Fetch, SameButIopb, Fields, Zero;
    CommandFields(o);
    f := Zero();
    var sect, head, cyl := o.blk % 32, o.blk / 32 % 4, o.blk / 128;
    CommandByte(o.cmd, o.chen, o.ien);
    ModeByte(o.iei);
    hide Flag;
    f := IopbPut(mem, n, 0x00, 0x80 + 0x40 + Flag(o.chen, 0x20) + Flag(o.ien, 0x10) + o.cmd, f, m);
    f := IopbPut(mem, n, 0x01, Flag(o.iei, 0x40) + 0x02, f, m);
    f := IopbPut(mem, n, 0x04, 0x04, f, m);
    f := IopbPut(mem, n, 0x05, 0x00, f, m);
    f := IopbPut(mem, n, 0x06, head, f, m);
    f := IopbPut(mem, n, 0x07, sect, f, m);
    f := IopbPut(mem, n, 0x08, cyl % 256, f, m);
    f := IopbPut(mem, n, 0x09, cyl / 256 % 8, f, m);
  }

  lemma CommandFields(o: Order)
    requires Buildable(o)
    ensures var f := Zero()[0 := 0xC0 + Flag(o.chen, 0x20) + Flag(o.ien, 0x10) + o.cmd][1 := Flag(o.iei, 0x40) + 0x02]
                           [4 := 0x04][5 := 0x00][6 := o.blk / 32 % 4][7 := o.blk % 32]
                           [8 := o.blk / 128 % 256][9 := o.blk / 128 / 256 % 8];
      f[..10] == Fields(o)[..10] && f[10..] == Zero()[10..]
  {
    hide Flag;
    CommandByte(o.cmd, o.chen, o.ien);
    ModeByte(o.iei);
  }

  // The rest: sector count, data address and link.
  method BuildTransfer(mem: array<Byte>, n: nat, o: Order, ghost f0: Iopb, ghost m: Memory)
    requires mem.Length == WINDOW && n < MAX && Buildable(o)
    requires Fetch(mem[..], IopbAt(n)) == f0 && SameButIopb(m, mem[..], IopbAt(n))
    requires f0[..10] == Fields(o)[..10] && f0[10..] == Zero()[10..]
    modifies mem
    ensures Fetch(mem[..], IopbAt(n)) == Fields(o) && SameButIopb(m, mem[..], IopbAt(n))
  {
    hide Fetch, SameButIopb, Fields;
    TransferFields(f0, o);
    ghost var f := f0;
    f := IopbPut(mem, n, 0x0A, o.nsect % 256, f, m);
    f := IopbPut(mem, n, 0x0B, o.nsect / 256, f, m);
    f := IopbPut(mem, n, 0x0C, o.buf % 256, f, m);
    f := IopbPut(mem, n, 0x0D, o.buf / 256 % 256, f, m);
    f := IopbPut(mem, n, 0x12, o.next % 256, f, m);
    f := IopbPut(mem, n, 0x13, o.next / 256 % 256, f, m);
  }

  lemma TransferFields(f: Iopb, o: Order)
    requires Buildable(o) && f[..10] == Fields(o)[..10] && f[10..] == Zero()[10..]
    ensures f[10 := o.nsect % 256][11 := o.nsect / 256][12 := o.buf % 256][13 := o.buf / 256 % 256]
             [18 := o.next % 256][19 := o.next / 256 % 256] == Fields(o)
  {
    var g := f[10 := o.nsect % 256][11 := o.nsect / 256][12 := o.buf % 256][13 := o.buf / 256 % 256]
              [18 := o.next % 256][19 := o.next / 256 % 256];
    forall k | 0 <= k < 24
      ensures g[k] == Fields(o)[k]
    {
      if k < 10 {
        assert f[k] == f[..10][k] == Fields(o)[..10][k];
      } else {
        assert f[k] == f[10..][k - 10] == Zero()[10..][k - 10];
      }
    }
  }

  // build().  Main result: the 24 bytes of IOPB n become the order's fields, the two of
  // each word exchanged, and no other byte of memory changes.
  method Build(mem: array<Byte>, n: nat, o: Order)
    requires mem.Length == WINDOW && n < MAX && Buildable(o)
    modifies mem
    ensures mem[..] == Store(old(mem[..]), IopbAt(n), Fields(o))
    ensures forall k :: 0 <= k < 12 ==>
      mem[0x100 + 0x20 * n + 2 * k] == Fields(o)[2 * k + 1] && mem[0x100 + 0x20 * n + 2 * k + 1] == Fields(o)[2 * k]
    ensures forall a :: 0 <= a < WINDOW && !(0x100 + 0x20 * n <= a < 0x118 + 0x20 * n) ==> mem[a] == old(mem[a])
  {
    hide Fields, Fetch, Flip, Swapped;
    ghost var m := mem[..];
    Clear(mem, n);
    ghost var f := BuildCommand(mem, n, o, m);
    BuildTransfer(mem, n, o, f, m);
    IsStore(m, mem[..], IopbAt(n), Fields(o));
    forall k | 0 <= k < 12
      ensures mem[0x100 + 0x20 * n + 2 * k] == Fields(o)[2 * k + 1] && mem[0x100 + 0x20 * n + 2 * k + 1] == Fields(o)[2 * k]
    {
      StoreInverts(m, IopbAt(n), Fields(o), k);
    }
  }

  lemma OtherIopb(m: Memory, r: Memory, i: nat)
    requires i < MAX && forall a :: IopbAt(i) <= a < IopbAt(i) + 24 ==> r[a] == m[a]
    ensures Fetch(r, IopbAt(i)) == Fetch(m, IopbAt(i))
  {
    assert forall k :: 0 <= k < 24 ==> 0 <= Flip(k) < 24;
  }

  // Reading back through iopb_get: what was built, and not by building another.
  lemma BuildReadsBack(m: Memory, n: nat, o: Order, i: nat)
    requires n < MAX && i < MAX && Buildable(o)
    ensures var r := Store(m, IopbAt(n), Fields(o));
      && Fetch(r, IopbAt(i)) == (if i == n then Fields(o) else Fetch(m, IopbAt(i)))
      && forall a :: BufAt(0) <= a < WINDOW ==> r[a] == m[a]
  {
    FetchStore(m, IopbAt(n), Fields(o));
    if i != n {
      OtherIopb(m, Store(m, IopbAt(n), Fields(o)), i);
    }
  }

  // ------------------------------------------------------------------
  // Chains of reads
  // ------------------------------------------------------------------

  // IOPB i of a chain of k: linked to the next one, or at the tail to anywhere at all.
  function Link(i: nat, k: nat, iei: bool, blk: nat, stale: nat): Order {
    Order(0x2, i + 1 < k, true, iei, blk, 1, BufAt(i), if i + 1 < k then IopbAt(i + 1) else stale)
  }

  // Its bytes, as numbers.
  lemma LinkBytes(i: nat, k: nat, iei: bool, blk: nat, stale: nat)
    requires i < k <= MAX && blk < 0x1_0000_0000
    ensures Buildable(Link(i, k, iei, blk, stale))
    ensures var f := Fields(Link(i, k, iei, blk, stale));
      && f[0] == (if i + 1 < k then 0xF2 else 0xD2) && f[1] == (if iei then 0x42 else 0x02)
      && f[6] == blk / 32 % 4 && f[7] == blk % 32 && f[9] as int * 256 + f[8] == blk / 128 % 2048
      && f[10] == 1 && f[11] == 0
  {
    Cylinder(blk / 128);
  }

  lemma LinkAddresses(i: nat, k: nat, iei: bool, blk: nat, stale: nat)
    requires i < k <= MAX && blk < 0x1_0000_0000
    ensures Buildable(Link(i, k, iei, blk, stale))
    ensures var f, next := Fields(Link(i, k, iei, blk, stale)), if i + 1 < k then 0x120 + 0x20 * i else stale;
      f[13] as int * 256 + f[12] == 0x1000 + 0x200 * i && f[19] as int * 256 + f[18] == next % 0x1_0000
  {
    hide Flag;
    CommandByte(0x2, i + 1 < k, true);
    ModeByte(iei);
    var o := Link(i, k, iei, blk, stale);
    assert o.buf == 0x1000 + 0x200 * i && o.next == if i + 1 < k then 0x120 + 0x20 * i else stale;
    Halfword(o.buf);
    Halfword(o.next);
  }

  // The card has been told what the label says.
  predicate Labelled(c: Card) {
    |c.geo| == 4 && c.geo[0] == LABEL_GEOMETRY
  }

  // The block is within the label's geometry and on the medium.
  predicate OnDrive(c: Card, blk: nat) {
    Place(blk) < BLOCKS && Place(blk) < |c.disk|
  }

  predicate AllOnDrive(c: Card, j: nat, k: nat, blks: seq<nat>)
    requires k <= |blks|
  {
    forall i :: j <= i < k ==> OnDrive(c, blks[i])
  }

  // What a read of a block that is not on the drive comes back with.
  function Code(c: Card, blk: nat): (cc: Byte)
    ensures cc != 0
  {
    if c.disk == [] then 0x16 else if Place(blk) >= BLOCKS then 0x07 else 0x05
  }

  ghost predicate Built(c: Card, j: nat, k: nat, iei: bool, blks: seq<nat>, stale: nat)
    requires k <= MAX && |blks| == k
  {
    Labelled(c) && forall i :: j <= i < k ==>
      blks[i] < 0x1_0000_0000 && Reads(Fetch(c.mem, IopbAt(i)), Link(i, k, iei, blks[i], stale))
  }

  // The 24 bytes of IOPB i and the 512 of its buffer.
  predicate Owns(i: nat, a: int) {
    IopbAt(i) <= a < IopbAt(i) + 24 || BufAt(i) <= a < BufAt(i) + 512
  }

  // IOPB i came back done without an error, and its buffer holds the sector.
  ghost predicate Complete(m: Memory, i: nat, s: Sector)
    requires i < MAX
  {
    Fetch(m, IopbAt(i))[2] == 0x05 && Fetch(m, IopbAt(i))[3] == 0x00 && m[BufAt(i)..BufAt(i) + 512] == s
  }

  // IOPB i came back done with an error.
  ghost predicate Failed(m: Memory, i: nat, cc: Byte)
    requires i < MAX
  {
    Fetch(m, IopbAt(i))[2] == 0x85 && Fetch(m, IopbAt(i))[3] == cc
  }

  // Where that is in memory.
  lemma CompleteBytes(m: Memory, i: nat, s: Sector)
    requires i < MAX
    ensures Complete(m, i, s) <==>
      m[0x103 + 0x20 * i] == 0x05 && m[0x102 + 0x20 * i] == 0x00 && m[0x1000 + 0x200 * i..0x1200 + 0x200 * i] == s
    ensures forall cc :: Failed(m, i, cc) <==> m[0x103 + 0x20 * i] == 0x85 && m[0x102 + 0x20 * i] == cc
  {
    hide Fetch, Swapped, Flip;
    StoreInverts(m, IopbAt(i), Fetch(m, IopbAt(i)), 1);
  }

  // IOPB i and its buffer are as they were.
  ghost predicate Untouched(m: Memory, r: Memory, i: nat)
    requires i < MAX
  {
    Fetch(r, IopbAt(i)) == Fetch(m, IopbAt(i)) && r[BufAt(i)..BufAt(i) + 512] == m[BufAt(i)..BufAt(i) + 512]
  }

  function Addresses(j: nat, k: nat): seq<nat>
    decreases k - j
  {
    if j >= k then [] else [IopbAt(j)] + Addresses(j + 1, k)
  }

  // A read or a write within the geometry: where it starts, and that it is not refused.
  predicate Transfers(o: Order) {
    Buildable(o) && (o.cmd == READ || o.cmd == WRITE) && o.nsect > 0 && Place(o.blk) < BLOCKS && o.buf < 0x1_0000
  }

  // The cylinder is all that can be out of range: build() masks the head and the sector.
  lemma Bounds(blk: nat)
    ensures var p := Packed(blk);
      p.head <= LABEL_GEOMETRY.head && p.sect <= LABEL_GEOMETRY.sect
      && (p.cyl <= LABEL_GEOMETRY.cyl <==> Place(blk) < BLOCKS)
  {
    PackingExact(blk);
  }

  lemma NotRefused(f: Iopb, o: Order)
    requires Transfers(o) && Reads(f, o)
    ensures Refusal(f, LABEL_GEOMETRY, true) == CC_OK && Lba(Where(f), LABEL_GEOMETRY) == Place(o.blk)
  {
    hide Packed, Place, Lba;
    Bounds(o.blk);
    PackingExact(o.blk);
  }

  function Start(c: Card, o: Order): Transfer {
    Transfer(c.mem, c.disk, CC_OK, Packed(o.blk), o.buf, o.nsect)
  }

  // Executing it is moving its sectors and writing its status back.
  lemma OrderBegins(c: Card, o: Order, f: Iopb)
    requires Transfers(o) && Labelled(c) && c.disk != [] && Reads(f, o)
    ensures Begins(c, f, LABEL_GEOMETRY, Start(c, o), Place(o.blk), o.cmd == WRITE)
  {
    hide Refusal, Lba, Where, DataAddr, Count, Cmd, Packed, Place, Done, Next, Chen, Ien, Iei, Aud, Relo;
    NotRefused(f, o);
  }

  lemma ExecuteIs(c: Card, at: nat, o: Order, f: Iopb)
    requires at + 24 <= WINDOW && Transfers(o) && Labelled(c) && c.disk != [] && Fetch(c.mem, at) == f && Reads(f, o)
    ensures Execute(c, at) == Moved(c, at, f, Move(Start(c, o), LABEL_GEOMETRY, Place(o.blk), o.cmd == WRITE))
  {
    OrderBegins(c, o, f);
    ExecuteTransfer(c, at, f, LABEL_GEOMETRY, Start(c, o), Place(o.blk), o.cmd == WRITE);
  }

  lemma UpdatedStatus(f: Iopb, cc: Byte, t: Transfer)
    ensures Updated(f, cc, t)[2] == (if cc == CC_OK then 0x05 else 0x85) && Updated(f, cc, t)[3] == cc
  {
  }

  lemma MoveOne(t: Transfer, lba: nat)
    requires t.left == 1 && t.cc == CC_OK && lba < |t.disk| && t.addr + 512 <= WINDOW
    ensures var u := Move(t, LABEL_GEOMETRY, lba, false);
      u.mem == Splice(t.mem, t.addr, t.disk[lba]) && u.disk == t.disk && u.cc == CC_OK && u.left == 0
  {
    hide Splice, Onward;
    var v := t.(mem := Splice(t.mem, t.addr, t.disk[lba]), at := Onward(t.at, LABEL_GEOMETRY), addr := t.addr + 512, left := 0);
    assert Move(v, LABEL_GEOMETRY, lba + 1, false) == v;
  }

  // One linked IOPB.
  lemma ReadOne(c: Card, i: nat, k: nat, iei: bool, blk: nat, stale: nat)
    requires i < k <= MAX && Labelled(c) && OnDrive(c, blk) && blk < 0x1_0000_0000
    requires Reads(Fetch(c.mem, IopbAt(i)), Link(i, k, iei, blk, stale))
    ensures var d := Execute(c, IopbAt(i)).0;
      && Execute(c, IopbAt(i)).1 == CC_OK
      && d == c.(mem := d.mem, sectLeft := 0, ran := c.ran + [IopbAt(i)])
      && Complete(d.mem, i, c.disk[Place(blk)])
      && forall a :: 0 <= a < WINDOW && !Owns(i, a) ==> d.mem[a] == c.mem[a]
  {
    hide Fetch, Reads, Execute, Move, Updated, Store, Splice, Complete, Owns;
    var o, f := Link(i, k, iei, blk, stale), Fetch(c.mem, IopbAt(i));
    ExecuteIs(c, IopbAt(i), o, f);
    MoveOne(Start(c, o), Place(blk));
    var t := Move(Start(c, o), LABEL_GEOMETRY, Place(blk), false);
    UpdatedStatus(f, t.cc, t);
    StatusLands(c.mem, i, c.disk[Place(blk)], Updated(f, t.cc, t));
  }

  // The sector and then the status, in memory.
  lemma StatusLands(m: Memory, i: nat, s: Sector, back: Iopb)
    requires i < MAX && back[2] == 0x05 && back[3] == CC_OK
    ensures var r := Store(Splice(m, BufAt(i), s), IopbAt(i), back);
      Complete(r, i, s) && forall a :: 0 <= a < WINDOW && !Owns(i, a) ==> r[a] == m[a]
  {
    hide Fetch, Swapped;
    var moved := Splice(m, BufAt(i), s);
    var r := Store(moved, IopbAt(i), back);
    FetchStore(moved, IopbAt(i), back);
    assert forall b :: 0 <= b < 512 ==> r[BufAt(i) + b] == s[b];
    assert r[BufAt(i)..BufAt(i) + 512] == s;
  }

  // One that is refused, or whose sector is not found: nothing moves but its status.
  lemma FailOne(c: Card, i: nat, k: nat, iei: bool, blk: nat, stale: nat) returns (back: Iopb)
    requires i < k <= MAX && Labelled(c) && !OnDrive(c, blk) && blk < 0x1_0000_0000
    requires Reads(Fetch(c.mem, IopbAt(i)), Link(i, k, iei, blk, stale))
    ensures var d := Execute(c, IopbAt(i)).0;
      && Execute(c, IopbAt(i)).1 == Code(c, blk)
      && d == c.(mem := Store(c.mem, IopbAt(i), back), sectLeft := d.sectLeft, ran := c.ran + [IopbAt(i)])
      && back[2] == 0x85 && back[3] == Code(c, blk)
  {
    hide Fetch, Reads, Execute, Updated, Store, Place, Refusal, Packed;
    var o, f := Link(i, k, iei, blk, stale), Fetch(c.mem, IopbAt(i));
    if c.disk == [] || Place(blk) >= BLOCKS {
      RefusalIs(c, o, f);
      NotDone(f, o);
      var held := RefusedOne(c, IopbAt(i), f, Code(c, blk));
      back := Updated(f, Code(c, blk), held);
      UpdatedStatus(f, Code(c, blk), held);
    } else {
      ExecuteIs(c, IopbAt(i), o, f);
      var t := Move(Start(c, o), LABEL_GEOMETRY, Place(blk), false);
      assert t == Start(c, o).(cc := CC_HDNF);
      back := Updated(f, CC_HDNF, t);
      UpdatedStatus(f, CC_HDNF, t);
    }
  }

  lemma RefusalIs(c: Card, o: Order, f: Iopb)
    requires o.cmd == READ && Reads(f, o) && (c.disk == [] || Place(o.blk) >= BLOCKS)
    ensures Refusal(f, LABEL_GEOMETRY, c.disk != []) == Code(c, o.blk)
  {
    hide Packed, Place;
    Bounds(o.blk);
  }

  lemma NotDone(f: Iopb, o: Order)
    requires Reads(f, o)
    ensures f[5] == 0 && !Done(f)
  {
  }

  lemma RefusedOne(c: Card, at: nat, f: Iopb, cc: Byte) returns (t: Transfer)
    requires at + 24 <= WINDOW && Labelled(c) && Fetch(c.mem, at) == f && f[5] == 0 && !Done(f)
    requires cc == Refusal(f, LABEL_GEOMETRY, c.disk != []) != CC_OK
    ensures Execute(c, at) ==
      (c.(mem := Store(c.mem, at, Updated(f, cc, t)), sectLeft := t.left, ran := c.ran + [at]), cc, Updated(f, cc, t), t)
  {
    hide Fetch, Updated, Store, Refusal, Where, DataAddr, Cmd, Done;
    t := Execute(c, at).3;
  }

  // The card after IOPB j of a chain, before the chain goes on or ends.
  function After(c: Card, j: nat): Card
    requires j < MAX && |c.geo| == 4
  {
    Ended(Execute(c, IopbAt(j)).0, Fetch(c.mem, IopbAt(j)))
  }

  lemma LinkRuns(c: Card, j: nat, k: nat, iei: bool, blk: nat, stale: nat)
    requires j < k <= MAX && Labelled(c) && OnDrive(c, blk) && blk < 0x1_0000_0000
    requires Reads(Fetch(c.mem, IopbAt(j)), Link(j, k, iei, blk, stale))
    ensures Execute(c, IopbAt(j)).1 == CC_OK
    ensures var e := After(c, j);
      && e.irqs == c.irqs + (if iei then 1 else 0)
      && (e.disk, e.geo, e.err, e.ran) == (c.disk, c.geo, c.err, c.ran + [IopbAt(j)])
      && Complete(e.mem, j, c.disk[Place(blk)])
      && forall a :: 0 <= a < WINDOW && !Owns(j, a) ==> e.mem[a] == c.mem[a]
  {
    hide Fetch, Execute, Complete, Owns, Place;
    LinkLeads(Fetch(c.mem, IopbAt(j)), j, k, iei, blk, stale);
    ReadOne(c, j, k, iei, blk, stale);
  }

  // ... and what decides which.
  lemma LinkLeads(f: Iopb, j: nat, k: nat, iei: bool, blk: nat, stale: nat)
    requires j < k <= MAX && Reads(f, Link(j, k, iei, blk, stale))
    ensures (Chen(f) <==> j + 1 < k) && Ien(f) && Iei(f) == iei && (j + 1 < k ==> Next(f) == IopbAt(j + 1))
  {
    hide Cmd, Aud, Relo, Chen, Ien, Iei, Done, Where, Packed, Count, DataAddr, Next;
    Low(IopbAt(j + 1));
  }

  lemma Low(a: nat)
    requires a < 0x1_0000
    ensures a % 0x1_0000 == a
  {
  }

  lemma LinkWalks(c: Card, j: nat, k: nat, cnt: nat, f: Iopb, e: Card)
    requires j < k <= MAX && cnt <= 64 && |c.geo| == 4 && f == Fetch(c.mem, IopbAt(j)) && e == After(c, j)
    requires Execute(c, IopbAt(j)).1 == CC_OK && (Chen(f) <==> j + 1 < k) && (j + 1 < k ==> Next(f) == IopbAt(j + 1))
    ensures j + 1 == k ==> Walk(c, IopbAt(j), cnt) == Finished(e, f, false)
    ensures j + 1 < k && cnt < 64 ==> Walk(c, IopbAt(j), cnt) == Walk(e, IopbAt(j + 1), cnt + 1)
  {
    hide Execute, Walk, Fetch;
    WalkStep(c, IopbAt(j), cnt, f, Execute(c, IopbAt(j)).0);
  }

  // Both at once, for the first IOPB of a chain that stands ready.
  lemma FirstLink(c: Card, j: nat, k: nat, cnt: nat, iei: bool, blks: seq<nat>, stale: nat) returns (e: Card)
    requires j < k <= MAX && cnt <= 64 && |blks| == k && Built(c, j, k, iei, blks, stale) && OnDrive(c, blks[j])
    ensures e.irqs == c.irqs + (if iei then 1 else 0)
    ensures (e.disk, e.geo, e.err, e.ran) == (c.disk, c.geo, c.err, c.ran + [IopbAt(j)])
    ensures Complete(e.mem, j, c.disk[Place(blks[j])])
    ensures forall a :: 0 <= a < WINDOW && !Owns(j, a) ==> e.mem[a] == c.mem[a]
    ensures j + 1 == k ==> Walk(c, IopbAt(j), cnt) == e.(irqs := c.irqs + 1)
    ensures j + 1 < k && cnt < 64 ==> Walk(c, IopbAt(j), cnt) == Walk(e, IopbAt(j + 1), cnt + 1)
  {
    hide Fetch, Execute, Complete, Owns, Place, Walk, Reads;
    e := After(c, j);
    var f := Fetch(c.mem, IopbAt(j));
    LinkRuns(c, j, k, iei, blks[j], stale);
    LinkLeads(f, j, k, iei, blks[j], stale);
    LinkWalks(c, j, k, cnt, f, e);
  }

  // A chain that stands ready still does after the IOPB in front of it has run.
  lemma StillBuilt(c: Card, d: Card, j: nat, k: nat, iei: bool, blks: seq<nat>, stale: nat)
    requires j < k <= MAX && |blks| == k && Built(c, j, k, iei, blks, stale)
    requires d.geo == c.geo && forall a :: 0 <= a < WINDOW && !Owns(j, a) ==> d.mem[a] == c.mem[a]
    ensures Built(d, j + 1, k, iei, blks, stale)
  {
    hide Reads, Fetch;
    forall i | j + 1 <= i < k
      ensures Fetch(d.mem, IopbAt(i)) == Fetch(c.mem, IopbAt(i))
    {
      assert forall a :: IopbAt(i) <= a < IopbAt(i) + 24 ==> !Owns(j, a);
      OtherIopb(c.mem, d.mem, i);
    }
  }

  lemma StillComplete(m: Memory, r: Memory, i: nat, s: Sector)
    requires i < MAX && Complete(m, i, s) && forall a :: 0 <= a < WINDOW && Owns(i, a) ==> r[a] == m[a]
    ensures Complete(r, i, s)
  {
    hide Fetch;
    OtherIopb(m, r, i);
    assert r[BufAt(i)..BufAt(i) + 512] == m[BufAt(i)..BufAt(i) + 512];
  }

  // What a run of IOPBs j..k leaves: each of those before `good` done with its sector in
  // its buffer, and every byte that is neither theirs nor their buffers' as it was.
  ghost predicate Ran(c: Card, w: Card, j: nat, good: nat, k: nat, blks: seq<nat>)
    requires good <= k <= MAX && k <= |blks|
  {
    && w.ran == c.ran + Addresses(j, k) && w.disk == c.disk && w.geo == c.geo
    && (forall i :: j <= i < good ==> Place(blks[i]) < |c.disk| && Complete(w.mem, i, c.disk[Place(blks[i])]))
    && (forall a :: 0 <= a < WINDOW && (forall i :: j <= i < k ==> !Owns(i, a)) ==> w.mem[a] == c.mem[a])
  }

  lemma Apart(i: nat, j: nat, a: int)
    requires i != j && i < MAX && j < MAX && Owns(i, a)
    ensures !Owns(j, a)
  {
  }

  // What that and being untouched mean for the bytes of memory.
  lemma RanBytes(c: Card, w: Card, good: nat, k: nat, blks: seq<nat>, a: nat)
    requires good <= k <= MAX && k <= |blks| && Ran(c, w, 0, good, k, blks) && a < WINDOW
    requires forall i: nat :: i < k ==>
      !(0x100 + 0x20 * i <= a < 0x118 + 0x20 * i) && !(0x1000 + 0x200 * i <= a < 0x1200 + 0x200 * i)
    ensures w.mem[a] == c.mem[a]
  {
    forall i | 0 <= i < k
      ensures !Owns(i, a)
    {
      assert !(0x100 + 0x20 * i <= a < 0x118 + 0x20 * i);
    }
  }

  lemma SameFetch(m: Memory, r: Memory, at: nat)
    requires at + 24 <= WINDOW && m[at..at + 24] == r[at..at + 24]
    ensures Fetch(m, at) == Fetch(r, at)
  {
  }

  lemma SameBytes(m: Memory, r: Memory, at: nat)
    requires at + 24 <= WINDOW && Fetch(m, at) == Fetch(r, at)
    ensures m[at..at + 24] == r[at..at + 24]
  {
    hide Flip, Fetch, Swapped;
    var p, q := m[at..at + 24], r[at..at + 24];
    forall k | 0 <= k < 24
      ensures p[k] == q[k]
    {
      StoreAt(m, at, Fetch(m, at), k);
      StoreAt(r, at, Fetch(m, at), k);
    }
  }

  lemma UntouchedBytes(m: Memory, r: Memory, i: nat)
    requires i < MAX
    ensures Untouched(m, r, i) <==>
      m[0x100 + 0x20 * i..0x118 + 0x20 * i] == r[0x100 + 0x20 * i..0x118 + 0x20 * i]
      && m[0x1000 + 0x200 * i..0x1200 + 0x200 * i] == r[0x1000 + 0x200 * i..0x1200 + 0x200 * i]
  {
    hide Fetch;
    if Untouched(m, r, i) {
      SameBytes(m, r, IopbAt(i));
    } else if m[IopbAt(i)..IopbAt(i) + 24] == r[IopbAt(i)..IopbAt(i) + 24] {
      SameFetch(m, r, IopbAt(i));
    }
  }

  // IOPB j, and then the rest.
  lemma RanOnward(c: Card, d: Card, w: Card, j: nat, good: nat, k: nat, blks: seq<nat>)
    requires j < good <= k <= MAX && k <= |blks| && d.disk == c.disk && d.geo == c.geo && d.ran == c.ran + [IopbAt(j)]
    requires Place(blks[j]) < |c.disk| && Complete(d.mem, j, c.disk[Place(blks[j])])
    requires forall a :: 0 <= a < WINDOW && !Owns(j, a) ==> d.mem[a] == c.mem[a]
    requires Ran(d, w, j + 1, good, k, blks)
    ensures Ran(c, w, j, good, k, blks)
  {
    hide Complete, Place;
    forall a | 0 <= a < WINDOW && Owns(j, a)
      ensures w.mem[a] == d.mem[a]
    {
      forall i | j + 1 <= i < k
        ensures !Owns(i, a)
      {
        Apart(j, i, a);
      }
    }
    hide Owns;
    StillComplete(d.mem, w.mem, j, c.disk[Place(blks[j])]);
  }

  // Main result: a chain of k - j IOPBs, with no more links than the card has left to
  // follow, runs exactly those in order, whatever pointer the tail carries behind its
  // clear CHEN, and interrupts once, or once each with IEI set.
  lemma {:induction false} ChainRuns(c: Card, j: nat, k: nat, cnt: nat, iei: bool, blks: seq<nat>, stale: nat)
    requires j < k <= MAX && cnt + (k - j) <= 65 && |blks| == k
    requires Built(c, j, k, iei, blks, stale) && AllOnDrive(c, j, k, blks)
    ensures var w := Walk(c, IopbAt(j), cnt);
      && Ran(c, w, j, k, k, blks) && w.err == c.err
      && w.irqs == c.irqs + (if iei then k - j else 1)
    decreases k - j
  {
    hide Walk, Complete, Fetch, Reads, Link, Owns, Place;
    var e := FirstLink(c, j, k, cnt, iei, blks, stale);
    var w := Walk(c, IopbAt(j), cnt);
    if j + 1 < k {
      StillBuilt(c, e, j, k, iei, blks, stale);
      ChainRuns(e, j + 1, k, cnt + 1, iei, blks, stale);
    } else {
      assert Ran(e, w, k, k, k, blks);
    }
    RanOnward(c, e, w, j, k, k, blks);
  }

  // ------------------------------------------------------------------
  // Chains with a hard error
  // ------------------------------------------------------------------

  lemma StatusOnly(m: Memory, i: nat, back: Iopb, cc: Byte)
    requires i < MAX && back[2] == 0x85 && back[3] == cc
    ensures var r := Store(m, IopbAt(i), back);
      && Failed(r, i, cc) && r[BufAt(i)..BufAt(i) + 512] == m[BufAt(i)..BufAt(i) + 512]
      && forall a :: 0 <= a < WINDOW && !Owns(i, a) ==> r[a] == m[a]
  {
    hide Fetch, Swapped;
    FetchStore(m, IopbAt(i), back);
    var r := Store(m, IopbAt(i), back);
    assert r[BufAt(i)..BufAt(i) + 512] == m[BufAt(i)..BufAt(i) + 512];
  }

  lemma HardError(c: Card, j: nat, k: nat, cnt: nat, iei: bool, blks: seq<nat>, stale: nat)
    requires j < k <= MAX && cnt <= 64 && |blks| == k && Built(c, j, k, iei, blks, stale) && !OnDrive(c, blks[j])
    ensures var w := Walk(c, IopbAt(j), cnt);
      && w.err && w.irqs == c.irqs + 1 && (w.ran, w.disk, w.geo) == (c.ran + [IopbAt(j)], c.disk, c.geo)
      && Failed(w.mem, j, Code(c, blks[j]))
      && w.mem[BufAt(j)..BufAt(j) + 512] == c.mem[BufAt(j)..BufAt(j) + 512]
      && forall a :: 0 <= a < WINDOW && !Owns(j, a) ==> w.mem[a] == c.mem[a]
  {
    hide Fetch, Reads, Execute, Walk, Store, Owns, Failed, Place, Code;
    var back := FailOne(c, j, k, iei, blks[j], stale);
    LinkLeads(Fetch(c.mem, IopbAt(j)), j, k, iei, blks[j], stale);
    WalkStops(c, IopbAt(j), cnt);
    StatusOnly(c.mem, j, back, Code(c, blks[j]));
  }

  // Main result: a hard error stops the chain where it happened.  With e the first IOPB
  // whose block is not on the drive, those before it run, IOPB e comes back with its code
  // and nothing in its buffer, and everything behind it is exactly as it was built.
  lemma {:induction false} HardErrorStops(c: Card, j: nat, e: nat, k: nat, cnt: nat, iei: bool, blks: seq<nat>, stale: nat)
    requires j <= e < k <= MAX && cnt + (e - j) <= 64 && |blks| == k
    requires Built(c, j, k, iei, blks, stale) && AllOnDrive(c, j, e, blks) && !OnDrive(c, blks[e])
    ensures var w := Walk(c, IopbAt(j), cnt);
      && Ran(c, w, j, e, e + 1, blks) && Failed(w.mem, e, Code(c, blks[e]))
      && w.mem[BufAt(e)..BufAt(e) + 512] == c.mem[BufAt(e)..BufAt(e) + 512]
      && Built(w, e + 1, k, iei, blks, stale)
      && w.err && w.irqs == c.irqs + (if iei then e + 1 - j else 1)
    decreases k - j
  {
    hide Walk, Complete, Failed, Fetch, Reads, Link, Owns, Place, Code, OnDrive;
    var w := Walk(c, IopbAt(j), cnt);
    if j == e {
      HardError(c, j, k, cnt, iei, blks, stale);
      StillBuilt(c, w, j, k, iei, blks, stale);
      assert Addresses(j, j + 1) == [IopbAt(j)] + Addresses(j + 1, j + 1);
    } else {
      assert OnDrive(c, blks[j]);
      var d := FirstLink(c, j, k, cnt, iei, blks, stale);
      StillBuilt(c, d, j, k, iei, blks, stale);
      SameDrive(c, d, j + 1, e, blks);
      HardErrorStops(d, j + 1, e, k, cnt + 1, iei, blks, stale);
      BufferApart(c, d, j, e);
      DriveHolds(c, blks[j]);
      RanOnward(c, d, w, j, e, e + 1, blks);
    }
  }

  lemma DriveHolds(c: Card, blk: nat)
    requires OnDrive(c, blk)
    ensures Place(blk) < |c.disk|
  {
  }

  lemma SameDrive(c: Card, d: Card, j: nat, e: nat, blks: seq<nat>)
    requires e < |blks| && d.disk == c.disk
    ensures AllOnDrive(c, j, e, blks) ==> AllOnDrive(d, j, e, blks)
    ensures OnDrive(d, blks[e]) == OnDrive(c, blks[e]) && Code(d, blks[e]) == Code(c, blks[e])
  {
  }

  lemma BufferApart(c: Card, d: Card, j: nat, e: nat)
    requires j != e && j < MAX && e < MAX && forall a :: 0 <= a < WINDOW && !Owns(j, a) ==> d.mem[a] == c.mem[a]
    ensures d.mem[BufAt(e)..BufAt(e) + 512] == c.mem[BufAt(e)..BufAt(e) + 512]
  {
    assert forall a :: BufAt(e) <= a < BufAt(e) + 512 ==> !Owns(j, a);
  }

  // Not a byte of an IOPB behind those that ran, or of its buffer, changes: ...
  lemma Behind(c: Card, w: Card, good: nat, k: nat, n: nat, blks: seq<nat>)
    requires good <= k <= n < MAX && k <= |blks| && Ran(c, w, 0, good, k, blks)
    ensures Untouched(c.mem, w.mem, n)
  {
    hide Complete, Fetch, Place;
    forall a | 0 <= a < WINDOW && Owns(n, a)
      ensures w.mem[a] == c.mem[a]
    {
      forall i | 0 <= i < k
        ensures !Owns(i, a)
      {
        Apart(n, i, a);
      }
    }
    OtherIopb(c.mem, w.mem, n);
    assert forall a :: BufAt(n) <= a < BufAt(n) + 512 ==> Owns(n, a);
  }

  // ... so after an error a second Go, at the IOPB behind it, finishes the chain.
  lemma Reissued(c: Card, w: Card, e: nat, k: nat, iei: bool, blks: seq<nat>, stale: nat)
    requires e + 1 < k <= MAX && e <= 64 && k - (e + 1) <= 65 && |blks| == k
    requires Built(c, 0, k, iei, blks, stale) && AllOnDrive(c, 0, e, blks) && !OnDrive(c, blks[e])
    requires AllOnDrive(c, e + 1, k, blks) && w == Go(c, IOPB_MB)
    ensures forall n :: e < n < MAX ==> Untouched(c.mem, w.mem, n)
    ensures Ran(w, Go(w, IopbAt(e + 1)), e + 1, k, k, blks)
  {
    hide Walk, Complete, Failed, Untouched, Fetch, Reads, Link, Owns, Place, Code, OnDrive, AllOnDrive, Addresses;
    HardErrorStops(c, 0, e, k, 0, iei, blks, stale);
    forall n | e < n < MAX
      ensures Untouched(c.mem, w.mem, n)
    {
      Behind(c, w, e, e + 1, n, blks);
    }
    AllSame(c, w, e + 1, k, blks);
    ChainRuns(w, e + 1, k, 0, iei, blks, stale);
  }

  lemma AllSame(c: Card, d: Card, j: nat, k: nat, blks: seq<nat>)
    requires k <= |blks| && d.disk == c.disk && AllOnDrive(c, j, k, blks)
    ensures AllOnDrive(d, j, k, blks)
  {
  }

  // ------------------------------------------------------------------
  // Chains too long, and what lies behind a tail
  // ------------------------------------------------------------------

  lemma LimitReached(c: Card, j: nat, k: nat, iei: bool, blks: seq<nat>, stale: nat)
    requires j + 1 < k <= MAX && |blks| == k && Built(c, j, k, iei, blks, stale) && OnDrive(c, blks[j])
    ensures var w := Walk(c, IopbAt(j), CHAIN_LIMIT);
      && w.err && w.irqs == c.irqs + (if iei then 2 else 1)
      && (w.ran, w.disk, w.geo) == (c.ran + [IopbAt(j)], c.disk, c.geo) && Failed(w.mem, j, 0x04)
      && forall a :: 0 <= a < WINDOW && !Owns(j, a) ==> w.mem[a] == c.mem[a]
  {
    hide Walk, Execute, Fetch, Reads, Owns, Failed, Complete, Store, Place, Updated;
    var f := Fetch(c.mem, IopbAt(j));
    var (d, cc, held, t) := Execute(c, IopbAt(j));
    ReadOne(c, j, k, iei, blks[j], stale);
    LinkLeads(f, j, k, iei, blks[j], stale);
    WalkLimit(c, IopbAt(j), f, d);
    UpdatedStatus(held, CC_OPTO, t);
    StatusOnly(d.mem, j, Updated(held, CC_OPTO, t), CC_OPTO);
  }

  // The card follows 64 links and no more: of a longer chain it runs the first 65, marks
  // the last of those with a timeout, sets its error bit, and leaves the rest alone.  With
  // IEI that last IOPB interrupts twice.
  lemma {:induction false} ChainOverruns(c: Card, j: nat, k: nat, iei: bool, blks: seq<nat>, stale: nat)
    requires j <= 64 && 65 < k <= MAX && |blks| == k
    requires Built(c, j, k, iei, blks, stale) && AllOnDrive(c, j, 65, blks)
    ensures var w := Walk(c, IopbAt(j), j);
      && w.err && Ran(c, w, j, 64, 65, blks) && Failed(w.mem, 64, 0x04)
      && w.irqs == c.irqs + (if iei then 66 - j else 1)
    decreases k - j
  {
    hide Walk, Execute, Complete, Failed, Fetch, Reads, Link, Owns, Place;
    var w := Walk(c, IopbAt(j), j);
    if j == 64 {
      LimitReached(c, j, k, iei, blks, stale);
      assert Addresses(j, j + 1) == [IopbAt(j)] + Addresses(j + 1, j + 1);
    } else {
      var e := FirstLink(c, j, k, j, iei, blks, stale);
      StillBuilt(c, e, j, k, iei, blks, stale);
      AllSame(c, e, j + 1, 65, blks);
      ChainOverruns(e, j + 1, k, iei, blks, stale);
      RanOnward(c, e, w, j, 64, 65, blks);
    }
  }

  // The first block that is not on the drive, or the length of the chain.
  function FirstOff(c: Card, blks: seq<nat>, j: nat): (e: nat)
    requires j <= |blks|
    ensures j <= e <= |blks| && AllOnDrive(c, j, e, blks) && (e < |blks| ==> !OnDrive(c, blks[e]))
    decreases |blks| - j
  {
    if j == |blks| || !OnDrive(c, blks[j]) then j else FirstOff(c, blks, j + 1)
  }

  // Main result, both ways: from an error-free card, a chain of k runs to its end without
  // an error exactly when k is at most 65 and every block is on the drive; otherwise the
  // first of the two troubles it meets marks the last IOPB it runs.
  lemma CompletesExactly(c: Card, w: Card, k: nat, iei: bool, blks: seq<nat>, stale: nat)
    requires 0 < k <= MAX && |blks| == k && Built(c, 0, k, iei, blks, stale) && !c.err && w == Go(c, IOPB_MB)
    ensures var e := FirstOff(c, blks, 0);
      && (!w.err <==> k <= 65 && AllOnDrive(c, 0, k, blks))
      && (!w.err ==> Ran(c, w, 0, k, k, blks) && w.irqs == c.irqs + if iei then k else 1)
      && (e < k && e <= 64 ==> |w.ran| == |c.ran| + e + 1 && Failed(w.mem, e, Code(c, blks[e])))
      && (k > 65 && e > 64 ==> |w.ran| == |c.ran| + 65 && Failed(w.mem, 64, 0x04))
  {
    hide Walk, OnDrive, Complete, Failed, Owns, Fetch, Reads, Link, Place, Code;
    var e := FirstOff(c, blks, 0);
    if e < k && e <= 64 {
      HardErrorStops(c, 0, e, k, 0, iei, blks, stale);
      AddressesLength(0, e + 1);
    } else if k > 65 {
      ChainOverruns(c, 0, k, iei, blks, stale);
      AddressesLength(0, 65);
    } else {
      ChainRuns(c, 0, k, 0, iei, blks, stale);
    }
  }

  lemma {:induction false} AddressesLength(j: nat, k: nat)
    requires j <= k
    ensures |Addresses(j, k)| == k - j
    decreases k - j
  {
    if j < k {
      AddressesLength(j + 1, k);
    }
  }

  // A live IOPB that the tail's stale pointer names is not run: not a byte of it or of
  // its buffer changes.
  lemma StaleTailIgnored(c: Card, k: nat, n: nat, iei: bool, blks: seq<nat>)
    requires 0 < k <= 65 && k <= n < MAX && |blks| == k
    requires Built(c, 0, k, iei, blks, IopbAt(n)) && AllOnDrive(c, 0, k, blks)
    ensures var w := Go(c, IOPB_MB);
      w.ran == c.ran + Addresses(0, k) && Untouched(c.mem, w.mem, n)
  {
    hide Walk, Fetch, Complete, Untouched, Owns, Place;
    ChainRuns(c, 0, k, 0, iei, blks, IopbAt(n));
    Behind(c, Go(c, IOPB_MB), k, k, n, blks);
  }

  // ------------------------------------------------------------------
  // The exerciser
  // ------------------------------------------------------------------

  method Fill(mem: array<Byte>, n: nat, v: Byte)
    requires mem.Length == WINDOW && n < MAX
    modifies mem
    ensures forall a :: 0 <= a < WINDOW ==> mem[a] == if 0x1000 + 0x200 * n <= a < 0x1200 + 0x200 * n then v else old(mem[a])
  {
    for i := 0 to 512
      invariant forall a :: 0 <= a < WINDOW ==> mem[a] == if BufAt(n) <= a < BufAt(n) + i then v else old(mem[a])
    {
      mem[BufAt(n) + i] := v;
    }
  }

  // One IOPB of a chain and its cleared buffer.
  method BuildLink(mem: array<Byte>, i: nat, k: nat, iei: bool, blk: nat, stale: nat)
    requires mem.Length == WINDOW && i < k <= MAX && blk < 0x1_0000_0000
    modifies mem
    ensures Fetch(mem[..], IopbAt(i)) == Fields(Link(i, k, iei, blk, stale))
    ensures forall n :: 0 <= n < MAX && n != i ==> Fetch(mem[..], IopbAt(n)) == old(Fetch(mem[..], IopbAt(n)))
  {
    hide Link, Fields;
    var o := Link(i, k, iei, blk, stale);
    LinkBuildable(i, k, iei, blk, stale);
    ghost var m := mem[..];
    Build(mem, i, o);
    ghost var r := mem[..];
    Fill(mem, i, 0x00);
    forall n | 0 <= n < MAX
      ensures Fetch(mem[..], IopbAt(n)) == if n == i then Fields(o) else Fetch(m, IopbAt(n))
    {
      BuildReadsBack(m, i, o, n);
      OtherIopb(r, mem[..], n);
    }
  }

  lemma LinkBuildable(i: nat, k: nat, iei: bool, blk: nat, stale: nat)
    requires blk < 0x1_0000_0000
    ensures Buildable(Link(i, k, iei, blk, stale))
  {
  }

  method BuildChain(mem: array<Byte>, k: nat, iei: bool, blks: seq<nat>, stale: nat)
    requires mem.Length == WINDOW && k <= MAX && |blks| == k && forall i :: 0 <= i < k ==> blks[i] < 0x1_0000_0000
    modifies mem
    ensures forall i :: 0 <= i < k ==> Reads(Fetch(mem[..], IopbAt(i)), Link(i, k, iei, blks[i], stale))
  {
    hide Reads, Link, Fields, Fetch;
    for i := 0 to k
      invariant forall n :: 0 <= n < i ==> Reads(Fetch(mem[..], IopbAt(n)), Link(n, k, iei, blks[n], stale))
    {
      LinkBuildable(i, k, iei, blks[i], stale);
      FieldsRead(Link(i, k, iei, blks[i], stale));
      BuildLink(mem, i, k, iei, blks[i], stale);
    }
  }

  // The card acts on the memory it shares with the program.
  method CardGo(mem: array<Byte>, c: Card) returns (w: Card)
    requires mem.Length == WINDOW && |c.geo| == 4
    modifies mem
    ensures w == Go(c.(mem := old(mem[..])), IOPB_MB) && mem[..] == w.mem
  {
    hide Go;
    w := Go(c.(mem := mem[..]), IOPB_MB);
    forall a | 0 <= a < WINDOW {
      mem[a] := w.mem[a];
    }
  }

  // Building a chain over a card's memory and letting the card run it.
  method RunChain(mem: array<Byte>, c: Card, k: nat, iei: bool, blks: seq<nat>, stale: nat) returns (w: Card, ghost built: Card)
    requires mem.Length == WINDOW && 0 < k <= MAX && |blks| == k && Labelled(c)
    requires forall i :: 0 <= i < k ==> blks[i] < 0x1_0000_0000
    modifies mem
    ensures built == c.(mem := built.mem) && Built(built, 0, k, iei, blks, stale)
    ensures w == Go(built, IOPB_MB) && mem[..] == w.mem
  {
    hide Go, Reads, Link, Fields, Fetch;
    BuildChain(mem, k, iei, blks, stale);
    built := c.(mem := mem[..]);
    w := CardGo(mem, c);
  }

  method Check(fails: nat, ok: bool) returns (r: nat)
    ensures r == if ok then fails else fails + 1
  {
    r := fails;
    if !ok {
      r := r + 1;
    }
  }

  // IOPB i passes the exerciser.
  ghost predicate Good(m: Memory, i: nat)
    requires i < MAX
  {
    Fetch(m, IopbAt(i))[2] as int % 2 != 0 && Fetch(m, IopbAt(i))[3] == 0
  }

  lemma GoodExactly(c: Card, w: Card, k: nat, iei: bool, blks: seq<nat>, stale: nat)
    requires 0 < k <= MAX && |blks| == k && Built(c, 0, k, iei, blks, stale) && !c.err && w == Go(c, IOPB_MB)
    ensures (forall i :: 0 <= i < k ==> Good(w.mem, i)) <==> !w.err
    ensures !w.err ==> w.irqs - c.irqs == if iei then k else 1
  {
    hide Go, Built, Fetch, OnDrive, Owns, Place, FirstOff, Code;
    CompletesExactly(c, w, k, iei, blks, stale);
    if w.err {
      var last := if FirstOff(c, blks, 0) <= 64 then FirstOff(c, blks, 0) else 64;
      assert Fetch(w.mem, IopbAt(last))[3] != CC_OK;
      assert !Good(w.mem, last);
    } else {
      forall i | 0 <= i < k
        ensures Good(w.mem, i)
      {
        assert Complete(w.mem, i, c.disk[Place(blks[i])]);
      }
    }
  }

  // Main result: the exerciser's own checks -- every IOPB done and without an error, one
  // interrupt or k -- all pass if and only if the chain is within the card's limit and
  // the drive, whatever stale pointer the tail carries; and then the sectors are in the
  // buffers.
  method ChainTest(mem: array<Byte>, c: Card, k: nat, iei: bool, blks: seq<nat>, stale: nat)
    returns (fails: nat, w: Card)
    requires mem.Length == WINDOW && 0 < k <= MAX && |blks| == k && Labelled(c) && !c.err
    requires forall i :: 0 <= i < k ==> blks[i] < 0x1_0000_0000
    modifies mem
    ensures fails == 0 <==> k <= 65 && AllOnDrive(c, 0, k, blks)
    ensures fails == 0 <==> !w.err
    ensures fails == 0 ==> w.disk == c.disk
    ensures fails == 0 ==> forall i :: 0 <= i < k ==>
      OnDrive(c, blks[i]) && mem[BufAt(i)..BufAt(i) + 512] == c.disk[Place(blks[i])]
  {
    hide Go, Fetch, Reads, Link, Fields, Place, Owns;
    fails := 0;
    var before := c.irqs;
    ghost var built;
    w, built := RunChain(mem, c, k, iei, blks, stale);
    GoodExactly(built, w, k, iei, blks, stale);
    CompletesExactly(built, w, k, iei, blks, stale);
    for i := 0 to k
      invariant (fails == 0 <==> forall n :: 0 <= n < i ==> Good(w.mem, n)) && mem[..] == w.mem
    {
      var done := IopbGet(mem, i, 2);
      var error := IopbGet(mem, i, 3);
      assert Good(w.mem, i) <==> done as int % 2 != 0 && error == 0;
      fails := Check(fails, done % 2 != 0);
      fails := Check(fails, error == 0);
    }
    fails := Check(fails, w.irqs - before == if iei then k else 1);
    if fails == 0 {
      InBuffers(mem, built, w, k, blks);
    }
  }

  lemma InBuffers(mem: array<Byte>, c: Card, w: Card, k: nat, blks: seq<nat>)
    requires mem.Length == WINDOW && k <= MAX && |blks| == k && mem[..] == w.mem && Ran(c, w, 0, k, k, blks)
    ensures forall i :: 0 <= i < k ==>
      Place(blks[i]) < |c.disk| && mem[BufAt(i)..BufAt(i) + 512] == c.disk[Place(blks[i])]
  {
    hide Fetch, Owns, Place;
    forall i | 0 <= i < k
      ensures Place(blks[i]) < |c.disk| && mem[BufAt(i)..BufAt(i) + 512] == c.disk[Place(blks[i])]
    {
      assert Complete(w.mem, i, c.disk[Place(blks[i])]);
      assert mem[BufAt(i)..BufAt(i) + 512] == mem[..][BufAt(i)..BufAt(i) + 512];
    }
  }

  // The fields of main()'s Set Drive Size: maximum indices over an otherwise empty order.
  function SizeFields(): Iopb {
    Fields(Order(0xB, false, false, false, 0, 0, BufAt(0), 0))[6 := 4 - 1][7 := 32 - 1][8 := (32 + 2) - 1][9 := 0]
  }

  lemma SizeFieldsRead(f: Iopb)
    requires f == SizeFields()
    ensures Cmd(f) == SETSIZE && !Done(f) && f[5] == 0 && !Chen(f) && !Ien(f) && Where(f) == LABEL_GEOMETRY
    ensures f[0] == 0xCB && f[1] == 0x02 && f[10] == f[11] == f[12] == 0 && f[13] == 0x10 && f[18] == f[19] == 0
  {
  }

  // It gives the card the geometry every chain here assumes.
  lemma SetDriveSize(c: Card, at: nat)
    requires at + 24 <= WINDOW && |c.geo| == 4 && Fetch(c.mem, at) == SizeFields()
    ensures var w := Walk(c, at, 0);
      w.geo == c.geo[0 := LABEL_GEOMETRY] && w.err == c.err && w.irqs == c.irqs && Fetch(w.mem, at)[3] == CC_OK
  {
    hide SizeFields, Walk;
    var f := Fetch(c.mem, at);
    SizeFieldsRead(f);
    SizeExecutes(c, at, f);
    WalkStep(c, at, 0, f, Execute(c, at).0);
  }

  lemma SizeExecutes(c: Card, at: nat, f: Iopb)
    requires at + 24 <= WINDOW && |c.geo| == 4 && Fetch(c.mem, at) == f
    requires Cmd(f) == SETSIZE && !Done(f) && f[5] == 0 && Where(f) == LABEL_GEOMETRY
    ensures Execute(c, at).1 == CC_OK
    ensures var d := Execute(c, at).0;
      d.geo == c.geo[0 := LABEL_GEOMETRY] && d.err == c.err && d.irqs == c.irqs && Fetch(d.mem, at)[3] == CC_OK
  {
    hide Fetch, Store, Updated;
    var (d, cc, back, t) := Execute(c, at);
    assert cc == CC_OK;
    UpdatedStatus(f, cc, t);
    FetchStore(c.mem, at, back);
  }
}
