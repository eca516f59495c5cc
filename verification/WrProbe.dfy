// tools/wrprobe/wrprobe.c: a pattern written through the card from one buffer and read
// back into another, on the card of module Xylogics.
module WrProbe {
  import opened Bitwise
  import opened Buffers
  import opened Counting
  import opened Division
  import opened Xylogics
  import opened XyChain

  const WBUF_MB := 0x2000
  const RBUF_MB := 0x8000
  const CMD_WRITE := 0x1
  const CMD_READ := 0x2

  // As many sectors as fit between the two buffers, and between the second of them and
  // the end of the window.
  const FAR := 48
  const ROOM := 448

  // ------------------------------------------------------------------
  // The pattern
  // ------------------------------------------------------------------

  function Xor8(a: nat, b: nat): Byte {
    assert Power2(8) == 256;
    Xor(a, b, 8)
  }

  function Pat(blk: nat, off: nat): Byte {
    Xor8(Xor8(blk * 7 % 256, off * 11 % 256), off / 256 % 256)
  }

  lemma Xor8Bit(a: nat, b: nat, k: nat)
    requires k < 8
    ensures Bit(Xor8(a, b), k) <==> Bit(a, k) != Bit(b, k)
  {
    XorBit(a, b, 8, k);
  }

  // Bits above the operand's width do not count.
  lemma BitLow(a: nat, k: nat)
    requires k < 8
    ensures Bit(a % 256, k) <==> Bit(a, k)
  {
    var p, half, q := Power2(k), Power2(7 - k), a / 256;
    PowerSplit(k);
    hide Power2;
    LowBits(a, p, half, q);
  }

  lemma LowBits(a: nat, p: nat, half: nat, q: nat)
    requires p > 0 && 2 * half * p == 256 && q == a / 256
    ensures a / p % 2 == a % 256 / p % 2
  {
    var t := a % 256 / p;
    assert a == 256 * q + a % 256 && a % 256 == p * t + a % 256 % p;
    assert 256 * q == p * (2 * (half * q));
    assert p * (2 * (half * q)) + p * t == p * (2 * (half * q) + t);
    Unique(a, p, 2 * (half * q) + t, a % 256 % p);
  }

  lemma PowerSplit(k: nat)
    requires k < 8
    ensures 2 * Power2(7 - k) * Power2(k) == 256
  {
    assert Power2(4) == 16 && Power2(7) == 128;
  }

  // Main result: bit k of the pattern is the parity of bit k of seven times the block,
  // eleven times the offset, and the offset's high byte.
  lemma PatBit(blk: nat, off: nat, k: nat)
    requires k < 8
    ensures Bit(Pat(blk, off), k) <==> ((Bit(7 * blk, k) != Bit(11 * off, k)) != Bit(off / 256, k))
  {
    hide Bit, Xor8;
    Xor8Bit(blk * 7 % 256, off * 11 % 256, k);
    Xor8Bit(Xor8(blk * 7 % 256, off * 11 % 256), off / 256 % 256, k);
    BitLow(7 * blk, k);
    BitLow(11 * off, k);
    BitLow(off / 256, k);
  }

  function SectorOf(blk: nat): Sector {
    seq<Byte>(512, (off: nat) => Pat(blk, off))
  }

  lemma {:induction false} XorCancels(x: nat, y: nat, m: nat, bits: nat)
    requires x < Power2(bits) && y < Power2(bits)
    ensures Xor(x, m, bits) == Xor(y, m, bits) <==> x == y
    decreases bits
  {
    if bits > 0 {
      XorCancels(x / 2, y / 2, m / 2, bits - 1);
    }
  }

  lemma Xor8Cancels(x: Byte, y: Byte, m: nat)
    ensures Xor8(x, m) == Xor8(y, m) <==> x == y
  {
    assert Power2(8) == 256;
    XorCancels(x, y, m, 8);
  }

  lemma Congruent(u: int, v: int, k: int)
    requires u == v + 256 * k
    ensures u % 256 == v % 256
  {
    Unique(u, 256, v / 256 + k, v % 256);
  }

  // Seven is invertible modulo 256.
  lemma SevenInvertible(a: nat, b: nat)
    requires a * 7 % 256 == b * 7 % 256
    ensures a % 256 == b % 256
  {
    var q := a * 7 / 256 - b * 7 / 256;
    assert 7 * (a - b) == 256 * q;
    Congruent(a, b, 183 * q - 5 * (a - b));
  }

  lemma SevenTimes(a: nat, b: nat)
    requires a % 256 == b % 256
    ensures a * 7 % 256 == b * 7 % 256
  {
    var k := a / 256 - b / 256;
    assert a == b + 256 * k;
    Congruent(a * 7, b * 7, 7 * k);
  }

  lemma PatDiffers(a: nat, b: nat, off: nat)
    ensures Pat(a, off) == Pat(b, off) <==> a % 256 == b % 256
  {
    hide Xor8;
    Xor8Cancels(a * 7 % 256, b * 7 % 256, off * 11 % 256);
    Xor8Cancels(Xor8(a * 7 % 256, off * 11 % 256), Xor8(b * 7 % 256, off * 11 % 256), off / 256 % 256);
    if a % 256 == b % 256 {
      SevenTimes(a, b);
    } else if a * 7 % 256 == b * 7 % 256 {
      SevenInvertible(a, b);
    }
  }

  // Main result: a sector that lands at the wrong block is wrong in every byte, unless
  // the two block numbers agree modulo 256, and then in none.
  lemma WrongBlockShows(a: nat, b: nat)
    ensures Differ(SectorOf(a), SectorOf(b)) == if a % 256 == b % 256 then 0 else 512
  {
    forall off: nat | off < 512
      ensures SectorOf(a)[off] == SectorOf(b)[off] <==> a % 256 == b % 256
    {
      PatDiffers(a, b, off);
    }
    if a % 256 == b % 256 {
      assert SectorOf(a) == SectorOf(b);
      DifferZero(SectorOf(a), SectorOf(b));
    } else {
      DifferAll(SectorOf(a), SectorOf(b));
    }
  }

  // ------------------------------------------------------------------
  // Several sectors through the card
  // ------------------------------------------------------------------

  // n sectors from `addr` are on the disk at `lba`; the rest of the disk is `was`.
  ghost predicate Landed(was: seq<Sector>, disk: seq<Sector>, lba: nat, m: Memory, addr: nat, n: nat)
    requires addr + 512 * n <= WINDOW
  {
    |disk| == |was| && forall i :: 0 <= i < |was| ==>
      disk[i] == if lba <= i < lba + n then m[addr + 512 * (i - lba)..addr + 512 * (i - lba) + 512] else was[i]
  }

  // The transfer after its first sector.
  function FirstMoved(t: Transfer, lba: nat, write: bool): (u: Transfer)
    requires t.left > 0 && lba < |t.disk| && t.addr + 512 <= WINDOW
    ensures u.addr == t.addr + 512 && u.left == t.left - 1 && |u.disk| == |t.disk| && u.cc == t.cc
  {
    t.(mem := if write then t.mem else Splice(t.mem, t.addr, t.disk[lba]),
       disk := if write then t.disk[lba := t.mem[t.addr..t.addr + 512]] else t.disk,
       at := Onward(t.at, LABEL_GEOMETRY), addr := t.addr + 512, left := t.left - 1)
  }

  lemma MoveFirst(t: Transfer, lba: nat, write: bool)
    requires t.left > 0 && lba < |t.disk| && t.addr + 512 <= WINDOW
    ensures Move(t, LABEL_GEOMETRY, lba, write) == Move(FirstMoved(t, lba, write), LABEL_GEOMETRY, lba + 1, write)
  {
    hide Splice, Onward;
  }

  lemma {:induction false} MoveWrites(t: Transfer, lba: nat)
    requires t.cc == CC_OK && lba + t.left <= |t.disk| && t.addr + 512 * t.left <= WINDOW
    ensures var u := Move(t, LABEL_GEOMETRY, lba, true);
      u.cc == CC_OK && u.left == 0 && u.mem == t.mem && Landed(t.disk, u.disk, lba, t.mem, t.addr, t.left)
    decreases t.left
  {
    if t.left > 0 {
      var v := FirstMoved(t, lba, true);
      assert v.disk == t.disk[lba := t.mem[t.addr..t.addr + 512]] && v.mem == t.mem;
      hide Move, Landed, FirstMoved;
      MoveFirst(t, lba, true);
      MoveWrites(v, lba + 1);
      LandedMore(t.disk, v.disk, Move(v, LABEL_GEOMETRY, lba + 1, true).disk, lba, t.mem, t.addr, t.left);
    }
  }

  lemma LandedMore(was: seq<Sector>, one: seq<Sector>, disk: seq<Sector>, lba: nat, m: Memory, addr: nat, n: nat)
    requires 0 < n && lba + n <= |was| && addr + 512 * n <= WINDOW
    requires one == was[lba := m[addr..addr + 512]] && Landed(one, disk, lba + 1, m, addr + 512, n - 1)
    ensures Landed(was, disk, lba, m, addr, n)
  {
    forall i | 0 <= i < |was|
      ensures disk[i] == if lba <= i < lba + n then m[addr + 512 * (i - lba)..addr + 512 * (i - lba) + 512] else was[i]
    {
      if lba + 1 <= i < lba + n {
        assert addr + 512 + 512 * (i - (lba + 1)) == addr + 512 * (i - lba);
      }
    }
  }

  // n sectors of the disk at `lba` are in memory at `addr`; the rest of memory is `was`.
  ghost predicate Loaded(was: Memory, m: Memory, addr: nat, disk: seq<Sector>, lba: nat, n: nat)
    requires lba + n <= |disk|
  {
    forall a :: 0 <= a < WINDOW ==>
      m[a] == if addr <= a < addr + 512 * n then disk[lba + (a - addr) / 512][(a - addr) % 512] else was[a]
  }

  lemma {:induction false} MoveReads(t: Transfer, lba: nat)
    requires t.cc == CC_OK && lba + t.left <= |t.disk| && t.addr + 512 * t.left <= WINDOW
    ensures var u := Move(t, LABEL_GEOMETRY, lba, false);
      u.cc == CC_OK && u.left == 0 && u.disk == t.disk && Loaded(t.mem, u.mem, t.addr, t.disk, lba, t.left)
    decreases t.left
  {
    if t.left > 0 {
      var v := FirstMoved(t, lba, false);
      assert v.mem == Splice(t.mem, t.addr, t.disk[lba]) && v.disk == t.disk;
      hide Move, Loaded, FirstMoved, Splice;
      MoveFirst(t, lba, false);
      MoveReads(v, lba + 1);
      LoadedMore(t.mem, v.mem, Move(v, LABEL_GEOMETRY, lba + 1, false).mem, t.addr, t.disk, lba, t.left);
    }
  }

  lemma LoadedMore(was: Memory, one: Memory, m: Memory, addr: nat, disk: seq<Sector>, lba: nat, n: nat)
    requires 0 < n && lba + n <= |disk| && addr + 512 * n <= WINDOW
    requires one == Splice(was, addr, disk[lba]) && Loaded(one, m, addr + 512, disk, lba + 1, n - 1)
    ensures Loaded(was, m, addr, disk, lba, n)
  {
    forall a | 0 <= a < WINDOW
      ensures m[a] == if addr <= a < addr + 512 * n then disk[lba + (a - addr) / 512][(a - addr) % 512] else was[a]
    {
      if addr + 512 <= a < addr + 512 * n {
        assert (a - addr) / 512 == (a - (addr + 512)) / 512 + 1 && (a - addr) % 512 == (a - (addr + 512)) % 512;
      }
    }
  }

  // A transfer that runs off the medium ends there with an error.
  lemma {:induction false} MoveShort(t: Transfer, lba: nat, write: bool)
    requires t.left > 0 && t.cc == CC_OK && lba + t.left > |t.disk| && t.addr + 512 * t.left <= WINDOW
    ensures Move(t, LABEL_GEOMETRY, lba, write).cc == 0x05
    decreases t.left
  {
    if lba < |t.disk| {
      hide Move, FirstMoved;
      MoveFirst(t, lba, write);
      MoveShort(FirstMoved(t, lba, write), lba + 1, write);
    }
  }

  // An order of this program: one IOPB, no chain and no interrupt.
  function Plain(cmd: nat, blk: nat, nsect: nat, buf: nat): Order {
    Order(cmd, false, false, false, blk, nsect, buf, 0)
  }

  // Its bytes, as numbers.
  lemma PlainBytes(cmd: nat, blk: nat, nsect: nat, buf: nat)
    requires cmd < 16 && blk < 0x1_0000_0000 && nsect < 0x1_0000 && buf < 0x1_0000
    ensures Buildable(Plain(cmd, blk, nsect, buf))
    ensures var f := Fields(Plain(cmd, blk, nsect, buf));
      && f[0] == 0xC0 + cmd && f[1] == 0x02 && f[6] == blk / 32 % 4 && f[7] == blk % 32
      && f[11] as int * 256 + f[10] == nsect && f[13] as int * 256 + f[12] == buf && f[18] == f[19] == 0
  {
    Halfword(buf);
  }

  // The drive has the sectors.
  predicate Reaches(c: Card, blk: nat, nsect: nat) {
    0 < nsect && Place(blk) < BLOCKS && Place(blk) + nsect <= |c.disk|
  }

  // Outside the one IOPB.
  predicate Elsewhere(a: int) {
    0 <= a < WINDOW && !(IopbAt(0) <= a < IopbAt(0) + 24)
  }

  // Go with a plain order loaded is one transfer, if the order is not refused.
  lemma GoMoves(c: Card, cmd: nat, blk: nat, nsect: nat, buf: nat)
    requires Labelled(c) && c.disk != [] && Transfers(Plain(cmd, blk, nsect, buf))
    requires Reads(Fetch(c.mem, IopbAt(0)), Plain(cmd, blk, nsect, buf))
    ensures var w, t := Go(c, IOPB_MB), Move(Start(c, Plain(cmd, blk, nsect, buf)), LABEL_GEOMETRY, Place(blk), cmd == WRITE);
      && w.err == (c.err || t.cc != CC_OK) && w.geo == c.geo && w.disk == t.disk
      && forall a :: Elsewhere(a) ==> w.mem[a] == t.mem[a]
  {
    hide Walk, Fetch, Move, Place, Execute;
    var o, f := Plain(cmd, blk, nsect, buf), Fetch(c.mem, IopbAt(0));
    ExecuteIs(c, IopbAt(0), o, f);
    var d, cc := Execute(c, IopbAt(0)).0, Execute(c, IopbAt(0)).1;
    if cc == CC_OK {
      WalkStep(c, IopbAt(0), 0, f, d);
    } else {
      WalkStops(c, IopbAt(0), 0);
    }
  }

  // It is refused if the drive or the geometry has no such block, or no sector is asked for.
  lemma Refused(f: Iopb, o: Order, ready: bool)
    requires Reads(f, o) && (o.cmd == READ || o.cmd == WRITE) && (!ready || Place(o.blk) >= BLOCKS || o.nsect == 0)
    ensures Refusal(f, LABEL_GEOMETRY, ready) != CC_OK
  {
    hide Packed, Place;
    Bounds(o.blk);
  }

  lemma GoRefused(c: Card, cmd: nat, blk: nat, nsect: nat, buf: nat)
    requires Labelled(c) && (cmd == READ || cmd == WRITE) && (c.disk == [] || Place(blk) >= BLOCKS || nsect == 0)
    requires Reads(Fetch(c.mem, IopbAt(0)), Plain(cmd, blk, nsect, buf))
    ensures Go(c, IOPB_MB).err
  {
    hide Walk, Fetch, Place, Execute, Refusal, Reads;
    var o, f := Plain(cmd, blk, nsect, buf), Fetch(c.mem, IopbAt(0));
    Refused(f, o, c.disk != []);
    NotDone(f, o);
    var t := RefusedOne(c, IopbAt(0), f, Refusal(f, LABEL_GEOMETRY, c.disk != []));
    WalkStops(c, IopbAt(0), 0);
  }

  lemma WriteGoes(c: Card, blk: nat, nsect: nat)
    requires Labelled(c) && Reads(Fetch(c.mem, IopbAt(0)), Plain(CMD_WRITE, blk, nsect, WBUF_MB))
    requires nsect <= ROOM && blk < 0x1_0000_0000
    ensures var w := Go(c, IOPB_MB);
      && w.err == (c.err || !Reaches(c, blk, nsect))
      && (Reaches(c, blk, nsect) ==> w.geo == c.geo && Landed(c.disk, w.disk, Place(blk), c.mem, WBUF_MB, nsect))
  {
    hide Go, Fetch, Move, Reads, Landed, Place;
    if c.disk == [] || Place(blk) >= BLOCKS || nsect == 0 {
      GoRefused(c, CMD_WRITE, blk, nsect, WBUF_MB);
    } else {
      var t := Start(c, Plain(CMD_WRITE, blk, nsect, WBUF_MB));
      GoMoves(c, CMD_WRITE, blk, nsect, WBUF_MB);
      if Reaches(c, blk, nsect) {
        MoveWrites(t, Place(blk));
      } else {
        MoveShort(t, Place(blk), true);
      }
    }
  }

  lemma ReadGoes(c: Card, blk: nat, nsect: nat)
    requires Labelled(c) && Reads(Fetch(c.mem, IopbAt(0)), Plain(CMD_READ, blk, nsect, RBUF_MB))
    requires Reaches(c, blk, nsect) && nsect <= ROOM && blk < 0x1_0000_0000
    ensures var w := Go(c, IOPB_MB);
      && w.err == c.err && w.disk == c.disk
      && forall k :: 0 <= k < 512 * nsect ==> w.mem[RBUF_MB + k] == c.disk[Place(blk) + k / 512][k % 512]
  {
    hide Go, Fetch, Move, Reads, Place;
    MoveReads(Start(c, Plain(CMD_READ, blk, nsect, RBUF_MB)), Place(blk));
    GoMoves(c, CMD_READ, blk, nsect, RBUF_MB);
    var w, t := Go(c, IOPB_MB), Move(Start(c, Plain(CMD_READ, blk, nsect, RBUF_MB)), LABEL_GEOMETRY, Place(blk), false);
    forall k | 0 <= k < 512 * nsect
      ensures w.mem[RBUF_MB + k] == c.disk[Place(blk) + k / 512][k % 512]
    {
      assert Elsewhere(RBUF_MB + k) && t.mem[RBUF_MB + k] == c.disk[Place(blk) + k / 512][k % 512];
    }
  }

  // ------------------------------------------------------------------
  // A round
  // ------------------------------------------------------------------

  function PatAt(blk: nat, k: nat): Byte {
    Pat(blk + k / 512, k % 512)
  }

  function Expected(blk: nat, n: nat): (s: seq<Byte>)
    ensures |s| == n && forall k :: 0 <= k < n ==> s[k] == PatAt(blk, k)
  {
    seq<Byte>(n, (k: nat) => PatAt(blk, k))
  }

  method Fill(mem: array<Byte>, blk: nat, nsect: nat)
    requires mem.Length == WINDOW && nsect <= ROOM
    modifies mem
    ensures mem[..] == Splice(old(mem[..]), WBUF_MB, Expected(blk, 512 * nsect))
  {
    hide Pat;
    var n := nsect * 512;
    ghost var want := Expected(blk, n);
    for i := 0 to n
      invariant forall a :: 0 <= a < WINDOW ==>
        mem[a] == if WBUF_MB <= a < WBUF_MB + i then want[a - WBUF_MB] else old(mem[a])
    {
      mem[WBUF_MB + i] := PatAt(blk, i);
    }
  }

  method Spoil(mem: array<Byte>, nsect: nat)
    requires mem.Length == WINDOW && nsect <= ROOM
    modifies mem
    ensures forall a :: 0 <= a < WINDOW ==>
      mem[a] == if RBUF_MB <= a < RBUF_MB + 512 * nsect then 0xA5 else old(mem[a])
  {
    for i := 0 to nsect * 512
      invariant forall a :: 0 <= a < WINDOW ==> mem[a] == if RBUF_MB <= a < RBUF_MB + i then 0xA5 else old(mem[a])
    {
      mem[RBUF_MB + i] := 0xA5;
    }
  }

  method Verify(mem: array<Byte>, blk: nat, nsect: nat) returns (bad: nat)
    requires mem.Length == WINDOW && nsect <= ROOM
    ensures bad == Differ(mem[RBUF_MB..RBUF_MB + 512 * nsect], Expected(blk, 512 * nsect))
  {
    hide Pat, Differ;
    var n := nsect * 512;
    ghost var got, want := mem[RBUF_MB..RBUF_MB + n], Expected(blk, n);
    bad := 0;
    DifferZero(got[..0], want[..0]);
    for i := 0 to n
      invariant bad == Differ(got[..i], want[..i])
    {
      DifferSnoc(got, want, i);
      if mem[RBUF_MB + i] != PatAt(blk, i) {
        bad := bad + 1;
      }
    }
    assert got[..n] == got && want[..n] == want;
  }

  lemma ExpectedSector(blk: nat, nsect: nat, i: nat)
    requires i < nsect
    ensures Expected(blk, 512 * nsect)[512 * i..512 * i + 512] == SectorOf(blk + i)
  {
    hide Pat;
    var s := Expected(blk, 512 * nsect)[512 * i..512 * i + 512];
    forall k | 0 <= k < 512
      ensures s[k] == SectorOf(blk + i)[k]
    {
      assert (512 * i + k) / 512 == i && (512 * i + k) % 512 == k;
    }
  }

  lemma {:induction false} XorCommutes(a: nat, b: nat, bits: nat)
    ensures Xor(a, b, bits) == Xor(b, a, bits)
    decreases bits
  {
    if bits > 0 {
      XorCommutes(a / 2, b / 2, bits - 1);
    }
  }

  lemma PatMoves(blk: nat)
    ensures Pat(blk, 0) != Pat(blk, 1)
  {
    hide Xor;
    var x: Byte := blk * 7 % 256;
    XorCommutes(x, 0, 8);
    XorCommutes(x, 11, 8);
    Xor8Cancels(0, 11, x);
    Xor8Cancels(Xor8(x, 0), Xor8(x, 11), 0);
  }

  // Poison is no sector: a card that never touched memory does not pass.
  lemma PoisonShows(blk: nat, n: nat)
    requires n > 0
    ensures Differ(Repeat<Byte>(0xA5, 512 * n), Expected(blk, 512 * n)) > 0
  {
    hide Pat, Differ, Repeat;
    var p, s := Repeat<Byte>(0xA5, 512 * n), Expected(blk, 512 * n);
    DifferZero(p, s);
    PatMoves(blk);
    assert s[0] == PatAt(blk, 0) && s[1] == PatAt(blk, 1);
    assert p[0] == p[1];
  }

  // What the write buffer holds once the read buffer has been poisoned: where they
  // overlap, the poison.
  function Sent(blk: nat, n: nat): (s: seq<Byte>)
    ensures |s| == 512 * n
  {
    if n <= FAR then Expected(blk, 512 * n) else Expected(blk, 512 * FAR) + Repeat<Byte>(0xA5, 512 * (n - FAR))
  }

  // So many bytes are wrong when it comes back.
  function Overlap(blk: nat, n: nat): nat {
    if n <= FAR then 0 else Differ(Repeat<Byte>(0xA5, 512 * (n - FAR)), Expected(blk + FAR, 512 * (n - FAR)))
  }

  lemma ExpectedConcat(blk: nat, m: nat, n: nat)
    ensures Expected(blk, 512 * m) + Expected(blk + m, 512 * n) == Expected(blk, 512 * (m + n))
  {
    hide Pat;
    var s := Expected(blk, 512 * m) + Expected(blk + m, 512 * n);
    forall k | 0 <= k < 512 * (m + n)
      ensures s[k] == Expected(blk, 512 * (m + n))[k]
    {
      if k >= 512 * m {
        assert (k - 512 * m) / 512 == k / 512 - m && (k - 512 * m) % 512 == k % 512;
      }
    }
  }

  lemma SentDiffers(blk: nat, n: nat)
    ensures Differ(Sent(blk, n), Expected(blk, 512 * n)) == Overlap(blk, n)
    ensures Overlap(blk, n) == 0 <==> n <= FAR
    ensures n <= FAR ==> Sent(blk, n) == Expected(blk, 512 * n)
  {
    hide Differ, Expected, Repeat;
    if n <= FAR {
      DifferZero(Sent(blk, n), Expected(blk, 512 * n));
    } else {
      var head, over := Expected(blk, 512 * FAR), Repeat<Byte>(0xA5, 512 * (n - FAR));
      ExpectedConcat(blk, FAR, n - FAR);
      DifferConcat(head, head, over, Expected(blk + FAR, 512 * (n - FAR)));
      DifferZero(head, head);
      PoisonShows(blk + FAR, n - FAR);
    }
  }

  // The disk after blocks [blk, blk + n) have been given their patterns, or the patterns
  // of blocks `shift` further on.
  ghost predicate Patterned(was: seq<Sector>, disk: seq<Sector>, blk: nat, n: nat, shift: nat) {
    |disk| == |was| && forall i :: 0 <= i < |was| ==>
      disk[i] == if blk <= i < blk + n then SectorOf(i + shift) else was[i]
  }

  lemma Inner(m: Memory, at: nat, n: nat, j: nat)
    requires at + n <= WINDOW && j + 512 <= n
    ensures m[at..at + n][j..j + 512] == m[at + j..at + j + 512]
  {
    var a, b := m[at..at + n][j..j + 512], m[at + j..at + j + 512];
    assert forall k :: 0 <= k < 512 ==> a[k] == b[k];
    assert a == b;
  }

  lemma LandedIsPatterned(was: seq<Sector>, disk: seq<Sector>, blk: nat, m: Memory, n: nat)
    requires n <= FAR && Landed(was, disk, Place(blk), m, WBUF_MB, n)
    requires m[WBUF_MB..WBUF_MB + 512 * n] == Expected(blk, 512 * n)
    ensures Patterned(was, disk, Place(blk), n, blk - Place(blk))
  {
    hide Expected, SectorOf, Place, Landed;
    var at := Place(blk);
    assert |disk| == |was| by {
      SameLength(was, disk, at, m, n);
    }
    forall i | 0 <= i < |was|
      ensures disk[i] == if at <= i < at + n then SectorOf(i + (blk - at)) else was[i]
    {
      LandedAt(was, disk, at, m, n, i);
      if at <= i < at + n {
        ExpectedSector(blk, n, i - at);
        Inner(m, WBUF_MB, 512 * n, 512 * (i - at));
      }
    }
  }

  lemma LandedAt(was: seq<Sector>, disk: seq<Sector>, at: nat, m: Memory, n: nat, i: nat)
    requires n <= FAR && Landed(was, disk, at, m, WBUF_MB, n) && i < |was|
    ensures |disk| == |was|
    ensures at <= i < at + n ==> disk[i] == m[WBUF_MB + 512 * (i - at)..WBUF_MB + 512 * (i - at) + 512]
    ensures !(at <= i < at + n) ==> disk[i] == was[i]
  {
  }

  // What landed on the disk comes back.
  lemma LandedRead(was: seq<Sector>, disk: seq<Sector>, at: nat, m: Memory, n: nat, sent: seq<Byte>, got: seq<Byte>)
    requires n <= ROOM && Landed(was, disk, at, m, WBUF_MB, n) && at + n <= |was| && |got| == |sent| == 512 * n
    requires m[WBUF_MB..WBUF_MB + 512 * n] == sent
    requires forall k :: 0 <= k < 512 * n ==> got[k] == disk[at + k / 512][k % 512]
    ensures got == sent
  {
    forall k | 0 <= k < 512 * n
      ensures got[k] == sent[k]
    {
      var i := at + k / 512;
      assert sent[k] == m[WBUF_MB + k];
      assert k == 512 * (k / 512) + k % 512;
      assert disk[i] == m[WBUF_MB + 512 * (i - at)..WBUF_MB + 512 * (i - at) + 512];
    }
  }

  // The two buffers filled.
  method Prepare(mem: array<Byte>, blk: nat, nsect: nat)
    requires mem.Length == WINDOW && nsect <= ROOM
    modifies mem
    ensures mem[WBUF_MB..WBUF_MB + 512 * nsect] == Sent(blk, nsect)
  {
    hide Sent, Expected;
    Fill(mem, blk, nsect);
    ghost var want, m := Expected(blk, 512 * nsect), mem[..];
    Spoil(mem, nsect);
    ghost var got := mem[WBUF_MB..WBUF_MB + 512 * nsect];
    forall k | 0 <= k < 512 * nsect
      ensures got[k] == if k < 512 * FAR then want[k] else 0xA5
    {
      assert m[WBUF_MB + k] == want[k];
    }
    SentIs(blk, nsect, got);
  }

  lemma SentIs(blk: nat, n: nat, s: seq<Byte>)
    requires |s| == 512 * n
    requires forall k :: 0 <= k < 512 * n ==> s[k] == if k < 512 * FAR then Expected(blk, 512 * n)[k] else 0xA5
    ensures s == Sent(blk, n)
  {
    hide Expected, Repeat;
    if n > FAR {
      ExpectedConcat(blk, FAR, n - FAR);
    }
  }

  // One order built and run.
  method Issue(mem: array<Byte>, c: Card, cmd: nat, blk: nat, nsect: nat, buf: nat) returns (w: Card, ghost built: Card)
    requires mem.Length == WINDOW && |c.geo| == 4 && Buildable(Plain(cmd, blk, nsect, buf))
    modifies mem
    ensures built == c.(mem := built.mem) && Reads(Fetch(built.mem, IopbAt(0)), Plain(cmd, blk, nsect, buf))
    ensures forall a :: Elsewhere(a) ==> built.mem[a] == old(mem[..])[a]
    ensures w == Go(built, IOPB_MB) && mem[..] == w.mem
  {
    hide Go, Fields, Fetch, Reads;
    var o := Plain(cmd, blk, nsect, buf);
    ghost var m := mem[..];
    Build(mem, 0, o);
    FieldsRead(o);
    BuildReadsBack(m, 0, o, 0);
    built := c.(mem := mem[..]);
    w := CardGo(mem, c);
  }

  lemma SameReach(c: Card, d: Card, blk: nat, n: nat)
    requires |d.disk| == |c.disk|
    ensures Reaches(d, blk, n) == Reaches(c, blk, n)
    ensures Reaches(c, blk, n) ==> Place(blk) + n <= |c.disk|
  {
  }

  lemma SameLength(was: seq<Sector>, disk: seq<Sector>, at: nat, m: Memory, n: nat)
    requires n <= ROOM && Landed(was, disk, at, m, WBUF_MB, n)
    ensures |disk| == |was|
  {
  }

  lemma SameWindow(m: Memory, r: Memory, n: nat)
    requires n <= ROOM && forall a :: Elsewhere(a) ==> r[a] == m[a]
    ensures r[WBUF_MB..WBUF_MB + 512 * n] == m[WBUF_MB..WBUF_MB + 512 * n]
  {
    assert forall a :: WBUF_MB <= a < WBUF_MB + 512 * n ==> Elsewhere(a);
  }

  // Main result, both ways: a round passes if and only if the drive has its sectors and
  // they are few enough that the two buffers do not meet; then it has written the pattern
  // to its blocks and to no other and read all of it back.  Where the buffers meet, the
  // poison has gone to the disk and every wrong byte is counted.
  method Round(mem: array<Byte>, c: Card, blk: nat, nsect: nat) returns (fail: bool, bad: nat, w: Card)
    requires mem.Length == WINDOW && nsect <= ROOM && blk < 0x1_0000_0000 && Labelled(c) && !c.err
    modifies mem
    ensures !fail <==> Reaches(c, blk, nsect) && nsect <= FAR
    ensures w.err <==> !Reaches(c, blk, nsect)
    ensures !w.err ==> bad == Overlap(blk, nsect)
    ensures !fail ==> |w.disk| == |c.disk| && forall i :: 0 <= i < |c.disk| ==>
      w.disk[i] == if Place(blk) <= i < Place(blk) + nsect then SectorOf(i + (blk - Place(blk))) else c.disk[i]
  {
    hide Go, Fetch, Reads, Patterned, SectorOf, Landed, Expected, Place, Differ, Sent, Overlap, Reaches, Elsewhere;
    fail, bad := true, 0;
    Prepare(mem, blk, nsect);
    ghost var sent, m := Sent(blk, nsect), mem[..];
    ghost var built: Card;
    w, built := Issue(mem, c, CMD_WRITE, blk, nsect, WBUF_MB);
    WriteGoes(built, blk, nsect);
    SameReach(c, built, blk, nsect);
    if w.err {
      return;
    }
    SameWindow(m, built.mem, nsect);
    ghost var disk, out := w.disk, built.mem;
    SameLength(c.disk, disk, Place(blk), out, nsect);
    w, built := Issue(mem, w, CMD_READ, blk, nsect, RBUF_MB);
    SameReach(c, built, blk, nsect);
    ReadGoes(built, blk, nsect);
    if w.err {
      return;
    }
    LandedRead(c.disk, disk, Place(blk), out, nsect, sent, mem[RBUF_MB..RBUF_MB + 512 * nsect]);
    bad := Verify(mem, blk, nsect);
    SentDiffers(blk, nsect);
    fail := bad != 0;
    if !fail {
      LandedIsPatterned(c.disk, disk, blk, out, nsect);
      SamePattern(c.disk, disk, blk, nsect);
    }
  }

  lemma SamePattern(was: seq<Sector>, disk: seq<Sector>, blk: nat, n: nat)
    requires Patterned(was, disk, Place(blk), n, blk - Place(blk))
    ensures |disk| == |was|
    ensures forall i :: 0 <= i < |was| ==>
      disk[i] == if Place(blk) <= i < Place(blk) + n then SectorOf(i + (blk - Place(blk))) else was[i]
  {
  }
}
