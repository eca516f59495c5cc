// The Xylogics 450 as rtl/sun2-multibus/sun2_xy450.sv executes I/O parameter blocks, one
// block at a time: a chain walked through the DVMA window, its sectors moved, its status
// written back.
module Xylogics {
  import opened Bitwise
  import opened Buffers
  import opened Division

  type Iopb = f: seq<Byte> | |f| == 24 witness seq(24, _ => 0)

  // The DVMA window, by MultiBus address.
  const WINDOW := 0x4_0000
  type Memory = m: seq<Byte> | |m| == WINDOW witness seq(WINDOW, _ => 0)

  // The controller's byte N of an IOPB is at the IOPB's address plus N ^ 1.
  function Flip(k: nat): nat {
    if k % 2 == 0 then k + 1 else k - 1
  }

  function Swapped(f: Iopb): (r: Iopb)
    ensures forall k :: 0 <= k < 24 ==> r[k] == f[Flip(k)]
  {
    seq<Byte>(24, (k: nat) requires k < 24 => f[Flip(k)])
  }

  function Fetch(m: Memory, at: nat): (f: Iopb)
    requires at + 24 <= WINDOW
    ensures forall k :: 0 <= k < 24 ==> f[k] == m[at + Flip(k)]
  {
    Swapped(m[at..at + 24])
  }

  function Store(m: Memory, at: nat, f: Iopb): Memory
    requires at + 24 <= WINDOW
  {
    Splice(m, at, Swapped(f))
  }

  lemma FlipTwice(k: nat)
    requires k < 24
    ensures Flip(k) < 24 && Flip(Flip(k)) == k
  {
  }

  lemma FetchStore(m: Memory, at: nat, f: Iopb)
    requires at + 24 <= WINDOW
    ensures Fetch(Store(m, at, f), at) == f
  {
    hide Flip, Fetch, Swapped, Splice;
    var s := Store(m, at, f);
    forall k | 0 <= k < 24
      ensures Fetch(s, at)[k] == f[k]
    {
      FlipTwice(k);
      assert s[at + Flip(k)] == Swapped(f)[Flip(k)];
    }
  }

  // What an IOPB is in memory: the two bytes of each sixteen-bit word change places.
  lemma StoreInverts(m: Memory, at: nat, f: Iopb, k: nat)
    requires at + 24 <= WINDOW && k < 12
    ensures Store(m, at, f)[at + 2 * k] == f[2 * k + 1] && Store(m, at, f)[at + 2 * k + 1] == f[2 * k]
    ensures Fetch(m, at)[2 * k] == m[at + 2 * k + 1] && Fetch(m, at)[2 * k + 1] == m[at + 2 * k]
  {
    assert Flip(2 * k) == 2 * k + 1 && Flip(2 * k + 1) == 2 * k;
  }

  // ------------------------------------------------------------------
  // Fields
  // ------------------------------------------------------------------

  const NOP := 0x0
  const WRITE := 0x1
  const READ := 0x2
  const SEEK := 0x5
  const DRESET := 0x6
  const RDSTAT := 0x9
  const SETSIZE := 0xB
  const SELFTST := 0xC

  const CC_OK: Byte := 0x00
  const CC_OPTO: Byte := 0x04
  const CC_HDNF: Byte := 0x05
  const CC_CADR: Byte := 0x07
  const CC_SADR: Byte := 0x0A
  const CC_MADR: Byte := 0x0E
  const CC_ILLC: Byte := 0x15
  const CC_NRDY: Byte := 0x16
  const CC_0CNT: Byte := 0x17
  const CC_HADR: Byte := 0x20

  function Cmd(f: Iopb): nat { f[0] as int % 16 }
  predicate Aud(f: Iopb) { f[0] as int / 128 % 2 == 1 }
  predicate Relo(f: Iopb) { f[0] as int / 64 % 2 == 1 }
  predicate Chen(f: Iopb) { f[0] as int / 32 % 2 == 1 }
  predicate Ien(f: Iopb) { f[0] as int / 16 % 2 == 1 }
  predicate Iei(f: Iopb) { f[1] as int / 64 % 2 == 1 }
  predicate Done(f: Iopb) { f[2] as int % 2 == 1 }
  function Next(f: Iopb): nat { f[19] as int * 256 + f[18] }
  function Count(f: Iopb): nat { f[11] as int * 256 + f[10] }
  function DataAddr(f: Iopb): nat {
    var low := f[13] as int * 256 + f[12];
    if Relo(f) then ((f[15] as int * 256 + f[14]) * 16 + low) % 0x10_0000 else low
  }

  // The flags are bits 7 to 4 of the command byte, bit 6 of the next, and bit 0 of the
  // status.
  lemma FlagBits(f: Iopb)
    ensures (Aud(f) <==> Bit(f[0], 7)) && (Relo(f) <==> Bit(f[0], 6)) && (Chen(f) <==> Bit(f[0], 5))
    ensures (Ien(f) <==> Bit(f[0], 4)) && (Iei(f) <==> Bit(f[1], 6)) && (Done(f) <==> Bit(f[2], 0))
  {
    assert Power2(0) == 1 && Power2(4) == 16 && Power2(5) == 32;
    assert Power2(6) == 64 && Power2(7) == 128;
  }

  // A relocated address is sixteen times the relocation on, in twenty bits.
  lemma DataAddrIs(f: Iopb, low: nat, relocation: nat)
    requires low < 0x1_0000 && f[12] == low % 256 && f[13] == low / 256
    requires relocation < 0x1_0000 && f[14] == relocation % 256 && f[15] == relocation / 256
    ensures !Bit(f[0], 6) ==> DataAddr(f) == low
    ensures Bit(f[0], 6) ==> DataAddr(f) == (16 * relocation + low) % 0x10_0000
  {
    FlagBits(f);
    hide Relo, Bit;
    assert f[13] as int * 256 + f[12] == low && f[15] as int * 256 + f[14] == relocation;
  }

  // A disk address, and the largest values a drive type accepts.
  datatype Chs = Chs(cyl: nat, head: nat, sect: nat)

  function Where(f: Iopb): Chs {
    Chs(f[9] as int % 8 * 256 + f[8], f[6], f[7])
  }

  function Lba(p: Chs, g: Chs): nat {
    (p.cyl * (g.head + 1) + p.head) * (g.sect + 1) + p.sect
  }

  function Onward(p: Chs, g: Chs): Chs {
    if p.sect != g.sect then p.(sect := (p.sect + 1) % 256)
    else if p.head != g.head then Chs(p.cyl, (p.head + 1) % 256, 0)
    else Chs((p.cyl + 1) % 2048, 0, 0)
  }

  predicate Within(p: Chs, g: Chs) {
    p.head <= g.head < 256 && p.sect <= g.sect < 256
  }

  // The registers are eight, eight and eleven bits wide.
  lemma OnwardWraps(p: Chs, g: Chs)
    ensures p.sect == 255 != g.sect ==> Onward(p, g) == Chs(p.cyl, p.head, 0)
    ensures p.sect == g.sect && p.head == 255 != g.head ==> Onward(p, g) == Chs(p.cyl, 0, 0)
    ensures p.sect == g.sect && p.head == g.head && p.cyl == 2047 ==> Onward(p, g) == Chs(0, 0, 0)
  {
  }

  // Sector, then head, then cylinder: the carry order is what makes the linear block
  // address of the next sector one more.
  lemma OnwardIsLinear(p: Chs, g: Chs)
    requires Within(p, g) && p.cyl < 2047
    ensures Within(Onward(p, g), g) && Lba(Onward(p, g), g) == Lba(p, g) + 1
  {
    var h, s := g.head + 1, g.sect + 1;
    if p.sect == g.sect && p.head != g.head {
      assert (p.cyl * h + p.head + 1) * s == (p.cyl * h + p.head) * s + s;
    } else if p.sect == g.sect {
      assert (p.cyl + 1) * h == p.cyl * h + h;
      assert (p.cyl * h + p.head + 1) * s == (p.cyl * h + p.head) * s + s;
    }
  }

  // ------------------------------------------------------------------
  // One IOPB
  // ------------------------------------------------------------------

  // The card and what it can reach.  `ran` lists the IOPBs it has fetched, `irqs` the
  // interrupts the processor took, `err` the CSR's error bit; `sectLeft` is a register
  // that outlives the command that loaded it.
  datatype Card = Card(mem: Memory, disk: seq<Sector>, geo: seq<Chs>, sectLeft: nat,
                       ran: seq<nat>, irqs: nat, err: bool)

  // Where a transfer stopped, and why.
  datatype Transfer = Transfer(mem: Memory, disk: seq<Sector>, cc: Byte, at: Chs, addr: nat, left: nat)

  // Sector after sector, each checked against the end of the medium and of the window.
  function Move(t: Transfer, g: Chs, lba: nat, write: bool): Transfer
    decreases t.left
  {
    if t.left == 0 then t
    else if lba >= |t.disk| then t.(cc := CC_HDNF)
    else if t.addr + 512 > WINDOW then
      var n := if t.addr < WINDOW then WINDOW - t.addr else 0;
      t.(cc := CC_MADR, mem := if write || n == 0 then t.mem else Splice(t.mem, t.addr, t.disk[lba][..n]))
    else
      Move(t.(mem := if write then t.mem else Splice(t.mem, t.addr, t.disk[lba]),
              disk := if write then t.disk[lba := t.mem[t.addr..t.addr + 512]] else t.disk,
              at := Onward(t.at, g), addr := t.addr + 512, left := t.left - 1), g, lba + 1, write)
  }

  // What a transfer that ends without an error leaves in the registers an IOPB is updated
  // from: no sectors, and the disk and memory addresses of the next one.
  lemma {:induction false} MoveEnds(t: Transfer, g: Chs, write: bool)
    requires t.cc == CC_OK && Within(t.at, g) && t.at.cyl + t.left < 2048
    ensures var u := Move(t, g, Lba(t.at, g), write);
      u.cc == CC_OK ==> u.left == 0 && u.addr == t.addr + 512 * t.left && Lba(u.at, g) == Lba(t.at, g) + t.left
    decreases t.left
  {
    var lba := Lba(t.at, g);
    if t.left > 0 && lba < |t.disk| && t.addr + 512 <= WINDOW {
      var v := t.(mem := if write then t.mem else Splice(t.mem, t.addr, t.disk[lba]),
                  disk := if write then t.disk[lba := t.mem[t.addr..t.addr + 512]] else t.disk,
                  at := Onward(t.at, g), addr := t.addr + 512, left := t.left - 1);
      hide Lba, Onward, Splice;
      OnwardIsLinear(t.at, g);
      OnwardCyl(t.at, g);
      MoveEnds(v, g, write);
    }
  }

  lemma OnwardCyl(p: Chs, g: Chs)
    requires p.cyl < 2047
    ensures Onward(p, g).cyl <= p.cyl + 1
  {
  }

  // Why a command is refused before it starts.
  function Refusal(f: Iopb, g: Chs, ready: bool): Byte {
    var p := Where(f);
    var xfer := Cmd(f) == READ || Cmd(f) == WRITE;
    var geo := xfer || Cmd(f) == SEEK;
    if geo && !(f[5] as int % 4 == 0 && ready) then CC_NRDY
    else if geo && p.cyl > g.cyl then CC_CADR
    else if geo && p.head > g.head then CC_HADR
    else if xfer && p.sect > g.sect then CC_SADR
    else if xfer && Count(f) == 0 then CC_0CNT
    else if Cmd(f) in {NOP, WRITE, READ, SEEK, DRESET, RDSTAT, SETSIZE, SELFTST} then CC_OK
    else CC_ILLC
  }

  // The completion codes, and which of two reasons is given.
  lemma RefusalIs(f: Iopb, g: Chs, ready: bool)
    requires var cmd := f[0] as int % 16; cmd == 1 || cmd == 2
    ensures Refusal(f, g, ready) ==
      if !ready || f[5] as int % 4 != 0 then 0x16
      else if f[9] as int % 8 * 256 + f[8] > g.cyl then 0x07
      else if f[6] > g.head then 0x20
      else if f[7] > g.sect then 0x0A
      else if f[10] == f[11] == 0 then 0x17
      else 0x00
  {
  }

  // Of the other commands only Seek looks at the disk address, and what is none of the
  // eight is refused.
  lemma OtherRefusals(f: Iopb, g: Chs, ready: bool)
    requires var cmd := f[0] as int % 16; cmd != 1 && cmd != 2
    ensures f[0] as int % 16 != 5 ==>
      Refusal(f, g, ready) == if f[0] as int % 16 in {0, 6, 9, 11, 12} then 0x00 else 0x15
    ensures f[0] as int % 16 == 5 ==>
      (Refusal(f, g, ready) == 0x00 <==>
        ready && f[5] as int % 4 == 0 && f[9] as int % 8 * 256 + f[8] <= g.cyl && f[6] <= g.head)
  {
  }

  // The IOPB as it goes back: status, and with AUD set where the command stopped.
  function Updated(f: Iopb, cc: Byte, t: Transfer): Iopb {
    var status := f[2 := if cc == CC_OK then 0x05 else 0x85][3 := cc];
    if !Aud(f) then status
    else
      var placed := status[6 := t.at.head % 256][7 := t.at.sect % 256][8 := t.at.cyl % 256][9 := t.at.cyl / 256 % 8];
      if Cmd(f) == READ || Cmd(f) == WRITE
      then placed[10 := t.left % 256][11 := t.left / 256 % 256][12 := t.addr % 256][13 := t.addr / 256 % 256]
      else placed
  }

  // The card after one IOPB, its completion code, and the IOPB and transfer registers the
  // engine is left holding.
  function Execute(c: Card, at: nat): (r: (Card, Byte, Iopb, Transfer))
    requires at + 24 <= WINDOW && |c.geo| == 4
    ensures |r.0.geo| == 4
  {
    var f := Fetch(c.mem, at);
    var d := c.(ran := c.ran + [at]);
    var g := c.geo[f[5] as int / 64];
    var xfer := Cmd(f) == READ || Cmd(f) == WRITE;
    var held := Transfer(c.mem, c.disk, CC_OK, Where(f), DataAddr(f), c.sectLeft);
    if Done(f) then (d, CC_OK, f, held)
    else
      var refusal := Refusal(f, g, c.disk != []);
      var t :=
        if refusal != CC_OK then held.(cc := refusal)
        else if xfer then Move(held.(left := Count(f)), g, Lba(Where(f), g), Cmd(f) == WRITE)
        else if Cmd(f) == DRESET then held.(at := held.at.(cyl := 0))
        else held;
      var back := Updated(f, t.cc, t);
      (d.(mem := Store(t.mem, at, back), disk := t.disk, sectLeft := t.left,
          geo := if refusal == CC_OK && Cmd(f) == SETSIZE then c.geo[f[5] as int / 64 := Where(f)] else c.geo),
       t.cc, back, t)
  }

  // The bytes that go back: type and DONE, ERRS if there is a code, the code; with AUD the
  // disk address, and for a transfer the sectors left and the data address, where it
  // stopped.  No other byte changes.
  lemma UpdatedIs(f: Iopb, cc: Byte, t: Transfer)
    requires t.at.head < 256 && t.at.sect < 256 && t.at.cyl < 2048 && t.left < 0x1_0000
    ensures var u, cmd := Updated(f, cc, t), f[0] as int % 16;
      && u[2] == (if cc == 0 then 0x05 else 0x85) && u[3] == cc
      && (f[0] < 0x80 ==> forall k :: 0 <= k < 24 && k != 2 && k != 3 ==> u[k] == f[k])
      && (f[0] >= 0x80 ==> Where(u) == t.at && forall k :: 0 <= k < 24 && !(2 <= k <= 3 || 6 <= k <= 13) ==> u[k] == f[k])
      && (f[0] >= 0x80 && (cmd == 1 || cmd == 2) ==>
            Count(u) == t.left && u[13] as int * 256 + u[12] == t.addr % 0x1_0000)
      && (f[0] >= 0x80 && cmd != 1 && cmd != 2 ==> forall k :: 10 <= k < 14 ==> u[k] == f[k])
  {
    Halves(t.at.cyl);
    Halves(t.left);
    Halves(t.addr);
  }

  lemma Halves(n: nat)
    ensures n / 256 % 256 * 256 + n % 256 == n % 0x1_0000
    ensures n < 0x1_0000 ==> n / 256 % 256 == n / 256 && n % 0x1_0000 == n
    ensures n < 2048 ==> n / 256 % 8 == n / 256
  {
    Unique(n, 0x1_0000, n / 256 / 256, n / 256 % 256 * 256 + n % 256);
  }

  // An IOPB that is done already is fetched and otherwise left alone.
  lemma DoneIsSkipped(c: Card, at: nat)
    requires at + 24 <= WINDOW && |c.geo| == 4 && Fetch(c.mem, at)[2] as int % 2 == 1
    ensures Execute(c, at).0 == c.(ran := c.ran + [at]) && Execute(c, at).1 == 0
  {
  }

  // A transfer that leaves the window ends there with an error.
  lemma {:induction false} MoveOut(t: Transfer, g: Chs, lba: nat, write: bool)
    requires t.left > 0 && t.cc == CC_OK && lba + t.left <= |t.disk| && t.addr + 512 * t.left > 0x4_0000
    ensures Move(t, g, lba, write).cc == 0x0E
    decreases t.left
  {
    hide Splice, Onward;
    if t.addr + 512 <= WINDOW {
      MoveOut(t.(mem := if write then t.mem else Splice(t.mem, t.addr, t.disk[lba]),
                 disk := if write then t.disk[lba := t.mem[t.addr..t.addr + 512]] else t.disk,
                 at := Onward(t.at, g), addr := t.addr + 512, left := t.left - 1), g, lba + 1, write);
    }
  }

  // The commands that transfer nothing, where they are accepted: status goes back, Drive
  // Reset with cylinder zero, and Set Drive Size gives its drive type the limits it
  // carries.
  lemma OtherCommands(c: Card, at: nat, f: Iopb)
    requires at + 24 <= WINDOW && |c.geo| == 4 && f == Fetch(c.mem, at) && f[2] as int % 2 == 0
    requires var cmd := f[0] as int % 16; cmd != 1 && cmd != 2 && cmd != 9
    requires Refusal(f, c.geo[f[5] as int / 64], c.disk != []) == 0
    ensures var (d, cc, back, t) := Execute(c, at); var cmd := f[0] as int % 16;
      && cc == 0 && (d.disk, d.sectLeft, d.ran, d.irqs, d.err) == (c.disk, c.sectLeft, c.ran + [at], c.irqs, c.err)
      && d.mem == Store(c.mem, at, back) && back == Updated(f, 0, t)
      && t.at == (if cmd == 6 then Where(f).(cyl := 0) else Where(f))
      && d.geo == if cmd == 11 then c.geo[f[5] as int / 64 := Where(f)] else c.geo
  {
    hide Fetch, Store, Updated, Where, DataAddr;
  }

  // An accepted transfer: its sectors moved, its status written back.
  predicate Begins(c: Card, f: Iopb, g: Chs, start: Transfer, lba: nat, write: bool) {
    && |c.geo| == 4 && c.geo[f[5] as int / 64] == g && !Done(f) && c.disk != [] && Refusal(f, g, true) == CC_OK
    && start == Transfer(c.mem, c.disk, CC_OK, Where(f), DataAddr(f), Count(f))
    && lba == Lba(Where(f), g) && Cmd(f) == if write then WRITE else READ
  }

  function Moved(c: Card, at: nat, f: Iopb, t: Transfer): (Card, Byte, Iopb, Transfer)
    requires at + 24 <= WINDOW
  {
    var back := Updated(f, t.cc, t);
    (c.(mem := Store(t.mem, at, back), disk := t.disk, sectLeft := t.left, ran := c.ran + [at]), t.cc, back, t)
  }

  lemma ExecuteTransfer(c: Card, at: nat, f: Iopb, g: Chs, start: Transfer, lba: nat, write: bool)
    requires at + 24 <= WINDOW && Fetch(c.mem, at) == f && Begins(c, f, g, start, lba, write)
    ensures Execute(c, at) == Moved(c, at, f, Move(start, g, lba, write))
  {
  }

  // ------------------------------------------------------------------
  // A chain
  // ------------------------------------------------------------------

  const CHAIN_LIMIT := 64

  // The end of an IOPB raises IPND if it asks for an interrupt of its own; the end of the
  // chain raises it if the last IOPB had interrupts enabled.  The processor's handler
  // clears IPND between IOPBs, but not in the single clock between the two at the end.
  function Ended(c: Card, f: Iopb): Card {
    c.(irqs := c.irqs + (if Ien(f) && Iei(f) then 1 else 0))
  }

  function Finished(c: Card, f: Iopb, hard: bool): Card {
    c.(err := c.err || hard, irqs := c.irqs + (if Ien(f) && !Iei(f) then 1 else 0))
  }

  // From the IOPB at `at`, with `cnt` links already followed.  The next pointer counts
  // only behind a set CHEN; a hard error stops the chain where it happened; and a chain
  // longer than the limit has its last IOPB marked with a timeout.
  function Walk(c: Card, at: nat, cnt: nat): (w: Card)
    requires at + 24 <= WINDOW && |c.geo| == 4 && cnt <= CHAIN_LIMIT
    ensures |w.geo| == 4
    decreases CHAIN_LIMIT - cnt
  {
    var f := Fetch(c.mem, at);
    var (d, cc, held, t) := Execute(c, at);
    var e := Ended(d, f);
    if cc != CC_OK then Finished(e, f, true)
    else if !Chen(f) then Finished(e, f, false)
    else if cnt < CHAIN_LIMIT then Walk(e, Next(f), cnt + 1)
    else
      var late := e.(mem := Store(e.mem, at, Updated(held, CC_OPTO, t)));
      Finished(Ended(late, f), f, true)
  }

  // A hard error ends the chain there.
  lemma WalkStops(c: Card, at: nat, cnt: nat)
    requires at + 24 <= WINDOW && |c.geo| == 4 && cnt <= CHAIN_LIMIT && Execute(c, at).1 != CC_OK
    ensures Walk(c, at, cnt) == Finished(Ended(Execute(c, at).0, Fetch(c.mem, at)), Fetch(c.mem, at), true)
  {
  }

  // After an IOPB without an error, CHEN alone decides.
  lemma WalkStep(c: Card, at: nat, cnt: nat, f: Iopb, d: Card)
    requires at + 24 <= WINDOW && |c.geo| == 4 && cnt <= CHAIN_LIMIT
    requires f == Fetch(c.mem, at) && Execute(c, at).0 == d && Execute(c, at).1 == CC_OK
    ensures !Chen(f) ==> Walk(c, at, cnt) == Finished(Ended(d, f), f, false)
    ensures Chen(f) && cnt < CHAIN_LIMIT ==> Walk(c, at, cnt) == Walk(Ended(d, f), Next(f), cnt + 1)
  {
  }

  // Behind the last link the card will follow, the IOPB just done is marked late.
  lemma WalkLimit(c: Card, at: nat, f: Iopb, d: Card)
    requires at + 24 <= WINDOW && |c.geo| == 4
    requires f == Fetch(c.mem, at) && Execute(c, at).0 == d && Execute(c, at).1 == CC_OK && Chen(f)
    ensures var w := Walk(c, at, CHAIN_LIMIT);
      && w.err && (w.ran, w.disk, w.geo) == (d.ran, d.disk, d.geo)
      && w.irqs == d.irqs + (if !Ien(f) then 0 else if Iei(f) then 2 else 1)
      && w.mem == Store(d.mem, at, Updated(Execute(c, at).2, CC_OPTO, Execute(c, at).3))
  {
  }

  // What `go` starts: the IOPB registers hold the head's low sixteen bits.
  function Go(c: Card, head: nat): (w: Card)
    requires |c.geo| == 4
    ensures |w.geo| == 4
  {
    Walk(c, head % 0x1_0000, 0)
  }

  lemma GoWraps(c: Card, head: nat)
    requires |c.geo| == 4
    ensures Go(c, head + 0x1_0000) == Go(c, head) && (head < 0x1_0000 ==> Go(c, head) == Walk(c, head, 0))
  {
    hide Walk;
    Unique(head + 0x1_0000, 0x1_0000, head / 0x1_0000 + 1, head % 0x1_0000);
  }
}
