// The block device of tb/blk_file.sv behind the controller's 512-byte buffer, a RAM that
// answers one clock late: a seven-state transfer machine refined to a disk whose commands
// take a known number of clocks, reset or no reset.
module BlockFile {
  import opened Buffers
  import opened Division

  // The parameter, left open.
  const READ_CLOCKS: nat

  datatype St = IDLE | LAT | RD | WR_ADDR | WR_LAT | WR | END

  type Addr = a: nat | a < 512

  // The registers of the module, and the medium.  blkCount is set when the image is
  // loaded and never again.
  datatype Dev = Dev(st: St, ctr: nat, idx: nat, lba: nat, we: bool, done: bool, err: bool,
                     bufWe: bool, bufAddr: Addr, bufWdata: Byte, blkCount: nat, media: seq<Byte>)

  // The controller's buffer and its registered output.
  datatype Ram = Ram(mem: Sector, q: Byte)

  datatype Sys = Sys(dev: Dev, ram: Ram)

  // One clock's inputs; `poke` is a store by the controller into its own buffer.
  datatype Poke = None | Poke(at: Addr, data: Byte)
  datatype In = In(rst: bool, start: bool, we: bool, lba: nat, poke: Poke)

  // Inside the medium, and the counters inside the block.
  predicate InRange(d: Dev) {
    && d.blkCount * 512 <= |d.media|
    && (d.st in {RD, WR_ADDR, WR_LAT, WR} ==> d.lba < d.blkCount && d.idx < 512)
  }

  // ------------------------------------------------------------------
  // One clock
  // ------------------------------------------------------------------

  // Whatever the inputs do, the transfer never leaves its block or the medium.
  function DevStep(d: Dev, i: In, rdata: Byte): (r: Dev)
    requires InRange(d)
    ensures InRange(r)
  {
    var q := d.(done := false, bufWe := false);
    if i.rst then q.(st := IDLE, err := false)
    else match d.st
      case IDLE =>
        if i.start then q.(lba := i.lba, we := i.we, err := false, ctr := READ_CLOCKS, st := LAT) else q
      case LAT =>
        if d.ctr != 0 then q.(ctr := d.ctr - 1)
        else if d.lba >= d.blkCount then q.(err := true, st := END)
        else q.(idx := 0, st := if d.we then WR_ADDR else RD)
      case RD =>
        q.(bufWe := true, bufAddr := d.idx, bufWdata := d.media[d.lba * 512 + d.idx],
           st := if d.idx == 511 then END else RD, idx := if d.idx == 511 then 511 else d.idx + 1)
      case WR_ADDR => q.(bufAddr := d.idx, st := WR_LAT)
      case WR_LAT => q.(st := WR)
      case WR =>
        q.(media := d.media[d.lba * 512 + d.idx := rdata],
           st := if d.idx == 511 then END else WR_ADDR, idx := if d.idx == 511 then 511 else d.idx + 1)
      case END => q.(done := true, st := IDLE)
  }

  function Stored(m: Sector, p: Poke): Sector {
    match p
    case None => m
    case Poke(at, data) => m[at := data]
  }

  lemma StoredAt(m: Sector, at: Addr, data: Byte, k: Addr)
    ensures Stored(m, None) == m && Stored(m, Poke(at, data))[k] == if k == at then data else m[k]
  {
  }

  // The device's port; the controller has the buffer to itself while the device is idle,
  // as rtl/sun2-multibus/sun2_xy450.sv gives the port away for a whole command.
  function RamStep(s: Sys, poke: Poke): Ram {
    var d, m := s.dev, s.ram.mem;
    Ram(if d.bufWe then m[d.bufAddr := d.bufWdata] else if d.st == IDLE then Stored(m, poke) else m,
        m[d.bufAddr])
  }

  function Step(s: Sys, i: In): Sys
    requires InRange(s.dev)
  {
    Sys(DevStep(s.dev, i, s.ram.q), RamStep(s, i.poke))
  }

  // ------------------------------------------------------------------
  // The abstract disk
  // ------------------------------------------------------------------

  function Block(m: seq<Byte>, lba: nat): Sector
    requires (lba + 1) * 512 <= |m|
  {
    m[lba * 512..lba * 512 + 512]
  }

  // The command in hand, and its age in clocks since the edge that accepted it.
  datatype Job = Idle | Busy(we: bool, lba: nat, age: nat)

  // media and buf are as they were when the command in hand was accepted: it has its
  // effect when it ends.
  datatype Disk = Disk(media: seq<Byte>, blkCount: nat, buf: Sector, done: bool, err: bool, job: Job)

  // Clocks from the edge that accepts a command to the edge that raises `done`.
  function Latency(we: bool, lba: nat, blkCount: nat): nat {
    READ_CLOCKS + 2 + (if lba >= blkCount then 0 else if we then 3 * 512 else 512)
  }

  // How many bytes of an in-range transfer have landed by then: none while the drive
  // seeks, then one every clock of a read and one every third clock of a write.
  function Landed(we: bool, age: nat): (k: nat)
    ensures k <= 512
  {
    var n := age - READ_CLOCKS - 1;
    var k := if n <= 0 then 0 else if we then n / 3 else n;
    if k < 512 then k else 512
  }

  predicate Sound(a: Disk) {
    a.blkCount * 512 <= |a.media|
    && (a.job.Busy? ==> a.job.age < Latency(a.job.we, a.job.lba, a.blkCount) && !a.done && !a.err)
  }

  // With the first k bytes of the command's block moved.
  function Moved(a: Disk, k: nat): Disk
    requires Sound(a) && k <= 512
  {
    if a.job.Idle? || a.job.lba >= a.blkCount then a
    else if a.job.we then a.(media := Splice(a.media, a.job.lba * 512, a.buf[..k]))
    else a.(buf := Splice(a.buf, 0, Block(a.media, a.job.lba)[..k]))
  }

  function DiskStep(a: Disk, i: In): (b: Disk)
    requires Sound(a)
    ensures Sound(b) && b.blkCount == a.blkCount && |b.media| == |a.media|
  {
    match a.job
    case Idle =>
      var b := a.(buf := Stored(a.buf, i.poke), done := false);
      if i.rst then b.(err := false)
      else if i.start then b.(err := false, job := Busy(i.we, i.lba, 0))
      else b
    case Busy(we, lba, age) =>
      if i.rst then Moved(a, Landed(we, age)).(job := Idle)
      else if age + 1 < Latency(we, lba, a.blkCount) then a.(job := Busy(we, lba, age + 1))
      else Moved(a, 512).(job := Idle, done := true, err := lba >= a.blkCount)
  }

  // ------------------------------------------------------------------
  // Refinement
  // ------------------------------------------------------------------

  // The buffer once the store on its port has landed.
  function Front(s: Sys): Sector {
    if s.dev.bufWe then s.ram.mem[s.dev.bufAddr := s.dev.bufWdata] else s.ram.mem
  }

  // Where the machine is at a given age.
  predicate Placed(s: Sys, we: bool, lba: nat, age: nat)
    requires InRange(s.dev)
  {
    var d, n := s.dev, age - READ_CLOCKS - 1;
    && d.we == we && d.lba == lba && !d.done && d.err == (d.st == END && lba >= d.blkCount)
    && if n < 0 then d.st == LAT && d.ctr == -n - 1 && !d.bufWe
       else if lba >= d.blkCount then d.st == END && n == 0 && !d.bufWe
       else if we then
         && !d.bufWe && n <= 3 * 512
         && (n == 3 * 512 ==> d.st == END)
         && (n < 3 * 512 ==>
               && d.st == (if n % 3 == 0 then WR_ADDR else if n % 3 == 1 then WR_LAT else WR) && d.idx == n / 3
               && (d.st == WR_LAT ==> d.bufAddr == d.idx)
               && (d.st == WR ==> s.ram.q == s.ram.mem[d.idx]))
       else
         && n <= 512 && (if n < 512 then d.st == RD && d.idx == n else d.st == END)
         && (d.bufWe <==> n > 0)
         && (n > 0 ==> d.bufAddr == n - 1 && d.bufWdata == d.media[lba * 512 + n - 1])
  }

  predicate Matches(s: Sys, a: Disk) {
    var d := s.dev;
    && InRange(d) && Sound(a) && d.blkCount == a.blkCount && |d.media| == |a.media|
    && match a.job
       case Idle =>
         d.st == IDLE && !d.bufWe && (d.media, s.ram.mem, d.done, d.err) == (a.media, a.buf, a.done, a.err)
       case Busy(we, lba, age) =>
         var m := Moved(a, Landed(we, age));
         Placed(s, we, lba, age) && d.media == m.media && Front(s) == m.buf
  }

  predicate Ready(s: Sys) {
    InRange(s.dev) && s.dev.st == IDLE && !s.dev.bufWe
  }

  // The disk that an idle machine is.
  function Abs(s: Sys): (a: Disk)
    ensures Ready(s) ==> Matches(s, a)
  {
    Disk(s.dev.media, s.dev.blkCount, s.ram.mem, s.dev.done, s.dev.err, Idle)
  }

  lemma IdleStep(s: Sys, a: Disk, i: In)
    requires Matches(s, a) && a.job.Idle?
    ensures Matches(Step(s, i), DiskStep(a, i))
  {
    hide Splice;
    if !i.rst && i.start && i.lba < a.blkCount {
      SpliceNone(a.media, i.lba * 512);
      SpliceNone(Stored(a.buf, i.poke), 0);
    }
  }

  lemma SpliceNone(m: seq<Byte>, at: nat)
    requires at <= |m|
    ensures Splice(m, at, []) == m
  {
  }

  // One more byte.
  lemma SpliceMore(m: seq<Byte>, at: nat, s: Sector, k: nat)
    requires k < 512 && at + 512 <= |m|
    ensures Splice(m, at, s[..k])[at + k := s[k]] == Splice(m, at, s[..k + 1])
  {
  }

  // A reset lets the store on the buffer's port land, and nothing after it.
  lemma ResetStep(s: Sys, a: Disk, i: In)
    requires Matches(s, a) && a.job.Busy? && i.rst
    ensures Matches(Step(s, i), DiskStep(a, i))
  {
    hide Splice, Block, Landed;
  }

  // A write k bytes on, and r clocks into the next one.
  predicate WritesAt(s: Sys, a: Disk, k: nat, r: nat) {
    var d := s.dev;
    && InRange(d) && Sound(a) && d.blkCount == a.blkCount && |d.media| == |a.media|
    && k <= 512 && r < 3 && (k == 512 ==> r == 0)
    && a.job.Busy? && a.job.we && a.job.age == READ_CLOCKS + 1 + 3 * k + r && a.job.lba < a.blkCount
    && d.we && d.lba == a.job.lba && !d.done && !d.err && !d.bufWe
    && s.ram.mem == a.buf && d.media == Splice(a.media, a.job.lba * 512, a.buf[..k])
    && if k == 512 then d.st == END
       else
         && d.st == (if r == 0 then WR_ADDR else if r == 1 then WR_LAT else WR) && d.idx == k
         && (r == 1 ==> d.bufAddr == k) && (r == 2 ==> s.ram.q == s.ram.mem[k])
  }

  lemma Thirds(k: nat, r: nat)
    requires r < 3
    ensures (3 * k + r) / 3 == k && (3 * k + r) % 3 == r
  {
    Unique(3 * k + r, 3, k, r);
  }

  lemma WritesMatches(s: Sys, a: Disk, k: nat, r: nat)
    requires WritesAt(s, a, k, r)
    ensures Matches(s, a)
  {
    hide Splice, Block;
    Thirds(k, r);
  }

  lemma MatchesWrites(s: Sys, a: Disk)
    requires Matches(s, a) && a.job.Busy? && s.dev.st in {WR_ADDR, WR_LAT, WR}
    ensures var n := a.job.age - READ_CLOCKS - 1; n >= 0 && WritesAt(s, a, n / 3, n % 3)
  {
    hide Splice, Block;
  }

  lemma WritesOn(s: Sys, a: Disk, k: nat, r: nat, i: In)
    requires WritesAt(s, a, k, r) && k < 512 && !i.rst
    ensures WritesAt(Step(s, i), DiskStep(a, i), if r == 2 then k + 1 else k, if r == 2 then 0 else r + 1)
  {
    hide Splice, Block, Moved, Landed;
    if r == 2 {
      SpliceMore(a.media, a.job.lba * 512, a.buf, k);
    }
  }

  lemma WriteStep(s: Sys, a: Disk, i: In)
    requires Matches(s, a) && a.job.Busy? && s.dev.st in {WR_ADDR, WR_LAT, WR} && !i.rst
    ensures Matches(Step(s, i), DiskStep(a, i))
  {
    hide Matches, Step, DiskStep;
    MatchesWrites(s, a);
    var n := a.job.age - READ_CLOCKS - 1;
    WritesOn(s, a, n / 3, n % 3, i);
    WritesMatches(Step(s, i), DiskStep(a, i), if n % 3 == 2 then n / 3 + 1 else n / 3, if n % 3 == 2 then 0 else n % 3 + 1);
  }

  // A read k bytes on, the last of them still on the port.
  predicate ReadsAt(s: Sys, a: Disk, k: nat) {
    var d := s.dev;
    && InRange(d) && Sound(a) && d.blkCount == a.blkCount && |d.media| == |a.media|
    && k <= 512 && a.job.Busy? && !a.job.we && a.job.age == READ_CLOCKS + 1 + k && a.job.lba < a.blkCount
    && !d.we && d.lba == a.job.lba && !d.done && !d.err && d.media == a.media
    && (if k < 512 then d.st == RD && d.idx == k else d.st == END)
    && (d.bufWe <==> k > 0)
    && (k > 0 ==> d.bufAddr == k - 1 && d.bufWdata == a.media[a.job.lba * 512 + k - 1])
    && Front(s) == Splice(a.buf, 0, Block(a.media, a.job.lba)[..k])
  }

  lemma ReadsMatches(s: Sys, a: Disk, k: nat)
    requires ReadsAt(s, a, k)
    ensures Matches(s, a)
  {
    hide Splice, Block, Front;
  }

  lemma MatchesReads(s: Sys, a: Disk)
    requires Matches(s, a) && a.job.Busy? && s.dev.st == RD
    ensures var n := a.job.age - READ_CLOCKS - 1; 0 <= n < 512 && ReadsAt(s, a, n)
  {
    hide Splice, Block, Front;
  }

  // What the clock does to the port and the buffer.
  lemma ReadClock(s: Sys, i: In)
    requires InRange(s.dev) && s.dev.st == RD && !i.rst
    ensures var d, t := s.dev, Step(s, i);
      && Front(t) == Front(s)[d.idx := d.media[d.lba * 512 + d.idx]]
      && t.dev.bufWe && t.dev.bufAddr == d.idx && t.dev.bufWdata == d.media[d.lba * 512 + d.idx]
      && t.dev.st == (if d.idx == 511 then END else RD) && (d.idx < 511 ==> t.dev.idx == d.idx + 1)
      && (t.dev.we, t.dev.lba, t.dev.media, t.dev.blkCount, t.dev.done, t.dev.err) == (d.we, d.lba, d.media, d.blkCount, false, d.err)
  {
  }

  lemma ReadsOn(s: Sys, a: Disk, k: nat, i: In)
    requires ReadsAt(s, a, k) && k < 512 && !i.rst
    ensures ReadsAt(Step(s, i), DiskStep(a, i), k + 1)
  {
    var block := Block(a.media, a.job.lba);
    assert block[k] == a.media[a.job.lba * 512 + k];
    hide Splice, Block, Moved, Landed, Front, Step, InRange;
    ReadClock(s, i);
    SpliceMore(a.buf, 0, block, k);
  }

  lemma ReadStep(s: Sys, a: Disk, i: In)
    requires Matches(s, a) && a.job.Busy? && s.dev.st == RD && !i.rst
    ensures Matches(Step(s, i), DiskStep(a, i))
  {
    hide Matches, Step, DiskStep;
    MatchesReads(s, a);
    var n := a.job.age - READ_CLOCKS - 1;
    ReadsOn(s, a, n, i);
    ReadsMatches(Step(s, i), DiskStep(a, i), n + 1);
  }

  lemma WaitStep(s: Sys, a: Disk, i: In)
    requires Matches(s, a) && a.job.Busy? && s.dev.st in {LAT, END} && !i.rst
    ensures Matches(Step(s, i), DiskStep(a, i))
  {
    hide Splice, Block;
  }

  // Every clock of the machine, whatever its inputs, is a clock of the disk.
  lemma StepRefines(s: Sys, a: Disk, i: In)
    requires Matches(s, a)
    ensures Matches(Step(s, i), DiskStep(a, i))
  {
    hide Step, DiskStep;
    if a.job.Idle? {
      IdleStep(s, a, i);
    } else if i.rst {
      ResetStep(s, a, i);
    } else if s.dev.st == RD {
      ReadStep(s, a, i);
    } else if s.dev.st in {LAT, END} {
      WaitStep(s, a, i);
    } else {
      WriteStep(s, a, i);
    }
  }

  // ------------------------------------------------------------------
  // Whole runs
  // ------------------------------------------------------------------

  function Run(s: Sys, ins: seq<In>): (t: Sys)
    requires InRange(s.dev)
    ensures InRange(t.dev)
    decreases |ins|
  {
    if ins == [] then s else Run(Step(s, ins[0]), ins[1..])
  }

  function DiskRun(a: Disk, ins: seq<In>): (b: Disk)
    requires Sound(a)
    ensures Sound(b) && b.blkCount == a.blkCount && |b.media| == |a.media|
    decreases |ins|
  {
    if ins == [] then a else DiskRun(DiskStep(a, ins[0]), ins[1..])
  }

  // Main result: any run of clocks, with starts and resets at any time, is a run of the
  // abstract disk.
  lemma {:induction false} RunRefines(s: Sys, a: Disk, ins: seq<In>)
    requires Matches(s, a)
    ensures Matches(Run(s, ins), DiskRun(a, ins))
    decreases |ins|
  {
    if ins != [] {
      StepRefines(s, a, ins[0]);
      RunRefines(Step(s, ins[0]), DiskStep(a, ins[0]), ins[1..]);
    }
  }

  predicate Accepts(s: Sys, i: In) {
    s.dev.st == IDLE && !i.rst && i.start
  }

  predicate Abandons(s: Sys, i: In) {
    s.dev.st != IDLE && i.rst
  }

  datatype Tally = Tally(accepted: nat, abandoned: nat, dones: nat)

  // What a run accepted, abandoned and reported.
  function Counts(s: Sys, ins: seq<In>): Tally
    requires InRange(s.dev)
    decreases |ins|
  {
    if ins == [] then Tally(0, 0, 0)
    else
      var i, c := ins[0], Counts(Step(s, ins[0]), ins[1..]);
      Tally(c.accepted + (if Accepts(s, i) then 1 else 0), c.abandoned + (if Abandons(s, i) then 1 else 0),
            c.dones + (if Step(s, i).dev.done then 1 else 0))
  }

  // Every accepted start is answered by exactly one pulse, except those a reset
  // abandoned and one still in flight.
  lemma {:induction false} OneDonePerStart(s: Sys, ins: seq<In>)
    requires InRange(s.dev)
    ensures var c := Counts(s, ins);
      c.dones + c.abandoned + (if Run(s, ins).dev.st == IDLE then 0 else 1)
        == c.accepted + (if s.dev.st == IDLE then 0 else 1)
    decreases |ins|
  {
    if ins != [] {
      OneDonePerStart(Step(s, ins[0]), ins[1..]);
    }
  }

  // The clocks a command in flight still needs.
  function Left(d: Dev): nat
    requires InRange(d)
  {
    match d.st
    case IDLE => 0
    case LAT => d.ctr + 2 + (if d.lba >= d.blkCount then 0 else if d.we then 3 * 512 else 512)
    case RD => 512 - d.idx + 1
    case WR_ADDR => 3 * (512 - d.idx) + 1
    case WR_LAT => 3 * (512 - d.idx)
    case WR => 3 * (512 - d.idx) - 1
    case END => 1
  }

  // A reset needs none of them; any other clock uses up exactly one, and the last raises
  // `done`.
  lemma BusyCounts(s: Sys, i: In)
    requires InRange(s.dev) && s.dev.st != IDLE
    ensures var d, t := s.dev, Step(s, i).dev;
      Left(d) > 0 && Left(t) == (if i.rst then 0 else Left(d) - 1) && t.done == (!i.rst && Left(d) == 1)
  {
  }

  // No clock of the run is a reset.
  predicate Undisturbed(ins: seq<In>) {
    ins != [] ==> !ins[0].rst && Undisturbed(ins[1..])
  }

  // n clocks older.
  function Aged(a: Disk, n: nat): Disk
    requires a.job.Busy?
  {
    a.(job := a.job.(age := a.job.age + n))
  }

  lemma AgedMore(a: Disk, n: nat)
    requires a.job.Busy?
    ensures Aged(a, 0) == a && Aged(a, 1).job.Busy? && Aged(Aged(a, 1), n) == Aged(a, n + 1)
    ensures Aged(a, 1).blkCount == a.blkCount && Aged(a, 1).job == a.job.(age := a.job.age + 1)
  {
  }

  // A command in hand only ages until its last clock, ...
  lemma {:induction false} Ages(s: Sys, a: Disk, ins: seq<In>)
    requires Matches(s, a) && a.job.Busy? && Undisturbed(ins)
    requires a.job.age + |ins| < Latency(a.job.we, a.job.lba, a.blkCount)
    ensures DiskRun(a, ins) == Aged(a, |ins|)
    decreases |ins|
  {
    if ins == [] {
      AgedMore(a, 0);
    } else {
      AgesOne(s, a, ins[0]);
      AgedMore(a, |ins| - 1);
      hide Step, DiskStep, Matches, Latency, Sound, Aged, InRange;
      Ages(Step(s, ins[0]), Aged(a, 1), ins[1..]);
    }
  }

  // ... and reports nothing.
  lemma {:induction false} Silent(s: Sys, a: Disk, ins: seq<In>)
    requires Matches(s, a) && a.job.Busy? && Undisturbed(ins)
    requires a.job.age + |ins| < Latency(a.job.we, a.job.lba, a.blkCount)
    ensures Counts(s, ins) == Tally(0, 0, 0)
    decreases |ins|
  {
    if ins != [] {
      AgesOne(s, a, ins[0]);
      AgedMore(a, 0);
      hide Step, DiskStep, Matches, Latency, Accepts, Abandons, Sound, Aged;
      Silent(Step(s, ins[0]), Aged(a, 1), ins[1..]);
    }
  }

  lemma InFlight(s: Sys, a: Disk)
    requires Matches(s, a) && a.job.Busy?
    ensures s.dev.st != IDLE && !s.dev.done
  {
    hide Splice, Block, Moved, Front, Landed;
  }

  lemma AgesOne(s: Sys, a: Disk, i: In)
    requires Matches(s, a) && a.job.Busy? && !i.rst && a.job.age + 1 < Latency(a.job.we, a.job.lba, a.blkCount)
    ensures DiskStep(a, i) == Aged(a, 1) && Matches(Step(s, i), Aged(a, 1))
    ensures !Accepts(s, i) && !Abandons(s, i) && !Step(s, i).dev.done
  {
    StepRefines(s, a, i);
    InFlight(s, a);
    hide Matches, Step, Latency, Moved;
    InFlight(Step(s, i), DiskStep(a, i));
  }

  lemma {:induction false} RunConcat(s: Sys, a: Disk, x: seq<In>, y: seq<In>)
    requires Matches(s, a)
    ensures Run(s, x + y) == Run(Run(s, x), y) && DiskRun(a, x + y) == DiskRun(DiskRun(a, x), y)
    ensures Counts(s, x + y).dones == Counts(s, x).dones + Counts(Run(s, x), y).dones
    decreases |x|
  {
    if x == [] {
      assert x + y == y;
    } else {
      assert (x + y)[0] == x[0] && (x + y)[1..] == x[1..] + y;
      StepRefines(s, a, x[0]);
      RunConcat(Step(s, x[0]), DiskStep(a, x[0]), x[1..], y);
    }
  }

  lemma Accepted(s: Sys, i: In)
    requires Ready(s) && Accepts(s, i)
    ensures var a, b := Abs(s), DiskStep(Abs(s), i);
      && Matches(s, a) && Matches(Step(s, i), b) && !Step(s, i).dev.done
      && b == Disk(a.media, a.blkCount, Stored(a.buf, i.poke), false, false, Busy(i.we, i.lba, 0))
  {
    IdleStep(s, Abs(s), i);
  }

  // The clocks that wait for the last one.
  lemma WaitRun(s: Sys, a: Disk, wait: seq<In>, last: In)
    requires Matches(s, a) && a.job.Busy? && Undisturbed(wait)
    requires a.job.age + |wait| < Latency(a.job.we, a.job.lba, a.blkCount)
    ensures var t := Run(s, wait);
      && Matches(Step(t, last), DiskStep(Aged(a, |wait|), last))
      && Counts(s, wait).dones == 0
  {
    assert InRange(s.dev) && Sound(a);
    hide DiskStep, Step, Matches, Latency, Run, Counts, Undisturbed;
    Ages(s, a, wait);
    Silent(s, a, wait);
    RunRefines(s, a, wait);
    StepRefines(Run(s, wait), DiskRun(a, wait), last);
  }

  // A start, clocks without a reset, and a last one.
  lemma CommandRun(s: Sys, i: In, wait: seq<In>, last: In)
    requires Ready(s) && Accepts(s, i) && Undisturbed(wait) && |wait| < Latency(i.we, i.lba, s.dev.blkCount)
    ensures var t, a := Run(s, [i] + wait + [last]), Abs(s);
      var b := Disk(a.media, a.blkCount, Stored(a.buf, i.poke), false, false, Busy(i.we, i.lba, |wait|));
      && Matches(t, DiskStep(b, last))
      && Counts(s, [i] + wait + [last]).dones == if t.dev.done then 1 else 0
  {
    Accepted(s, i);
    hide DiskStep, Step, Matches, Latency, Accepts, Ready, Stored, Run, Counts, Undisturbed;
    WaitRun(Step(s, i), DiskStep(Abs(s), i), wait, last);
    FirstClock(s, i, wait);
    RunConcat(s, Abs(s), [i] + wait, [last]);
    OneClock(Run(s, [i] + wait), last);
  }

  lemma OneClock(s: Sys, i: In)
    requires InRange(s.dev)
    ensures Run(s, [i]) == Step(s, i) && Counts(s, [i]).dones == if Step(s, i).dev.done then 1 else 0
  {
  }

  lemma FirstClock(s: Sys, i: In, ins: seq<In>)
    requires InRange(s.dev)
    ensures Run(s, [i] + ins) == Run(Step(s, i), ins)
    ensures Counts(s, [i] + ins).dones == Counts(Step(s, i), ins).dones + (if Step(s, i).dev.done then 1 else 0)
  {
    assert ([i] + ins)[0] == i && ([i] + ins)[1..] == ins;
  }

  lemma MovedAll(a: Disk)
    requires Sound(a) && a.job.Busy? && a.job.lba < a.blkCount
    ensures Moved(a, 512) == if a.job.we then a.(media := Splice(a.media, a.job.lba * 512, a.buf))
                             else a.(buf := Block(a.media, a.job.lba))
  {
  }

  // Main result: a command accepted on edge `i` and not reset reports Latency edges later
  // and not before; an in-range write has made its block the buffer, an in-range read has
  // made the buffer its block, and a command out of range reports an error and did
  // neither.
  lemma CommandCompletes(s: Sys, i: In, wait: seq<In>, last: In)
    requires Ready(s) && Accepts(s, i) && Undisturbed(wait) && !last.rst
    requires |wait| + 1 == Latency(i.we, i.lba, s.dev.blkCount)
    ensures var t, buf := Run(s, [i] + wait + [last]), Stored(s.ram.mem, i.poke);
      && Ready(t) && t.dev.done && Counts(s, [i] + wait + [last]).dones == 1 && t.dev.blkCount == s.dev.blkCount
      && (t.dev.err <==> i.lba >= s.dev.blkCount)
      && t.dev.media == (if i.we && i.lba < s.dev.blkCount then Splice(s.dev.media, i.lba * 512, buf) else s.dev.media)
      && t.ram.mem == (if !i.we && i.lba < s.dev.blkCount then Block(s.dev.media, i.lba) else buf)
  {
    hide Splice, Block, Run, Counts, Stored;
    CommandRun(s, i, wait, last);
    var a := Abs(s);
    var b := Disk(a.media, a.blkCount, Stored(a.buf, i.poke), false, false, Busy(i.we, i.lba, |wait|));
    if i.lba < s.dev.blkCount {
      MovedAll(b);
    }
  }

  // Main result: a reset on any edge before that abandons the command for good.  Of an
  // in-range write the block holds so many bytes of the buffer, and of an in-range read
  // the buffer so many bytes of the block, as Landed says, and behind them its old ones.
  lemma Interrupted(s: Sys, i: In, wait: seq<In>, last: In)
    requires Ready(s) && Accepts(s, i) && Undisturbed(wait) && last.rst
    requires |wait| < Latency(i.we, i.lba, s.dev.blkCount)
    ensures var t, buf, k := Run(s, [i] + wait + [last]), Stored(s.ram.mem, i.poke), Landed(i.we, |wait|);
      && Ready(t) && !t.dev.done && !t.dev.err && Counts(s, [i] + wait + [last]).dones == 0
      && t.dev.media == (if i.we && i.lba < s.dev.blkCount then Splice(s.dev.media, i.lba * 512, buf[..k]) else s.dev.media)
      && t.ram.mem == (if !i.we && i.lba < s.dev.blkCount then Splice(buf, 0, Block(s.dev.media, i.lba)[..k]) else buf)
  {
    hide Splice, Block, Run, Counts, Landed, Stored;
    CommandRun(s, i, wait, last);
  }

  // A write, whole or torn, replaces its own block and no other.
  lemma SpliceBlock(m: seq<Byte>, lba: nat, s: Sector, n: nat, k: nat)
    requires (lba + 1) * 512 <= |m| && (k + 1) * 512 <= |m| && n <= 512
    ensures Block(Splice(m, lba * 512, s[..n]), k) == (if k == lba then s[..n] + Block(m, k)[n..] else Block(m, k))
  {
    var r := Splice(m, lba * 512, s[..n]);
    assert forall j :: 0 <= j < 512 ==> Block(r, k)[j] == r[k * 512 + j];
    if k == lba {
      assert Block(r, k) == s[..n] + Block(m, k)[n..];
    } else {
      assert Block(r, k) == Block(m, k);
    }
  }

  // No write to block `lba` is accepted anywhere in the run, ...
  predicate Spares(s: Sys, ins: seq<In>, lba: nat)
    requires InRange(s.dev)
    decreases |ins|
  {
    ins != [] ==>
      !(Accepts(s, ins[0]) && ins[0].we && ins[0].lba == lba) && Spares(Step(s, ins[0]), ins[1..], lba)
  }

  // ... and none is in flight.
  predicate Aside(d: Dev, lba: nat) {
    d.st in {WR_ADDR, WR_LAT, WR} || (d.st == LAT && d.we) ==> d.lba != lba
  }

  // Over any run, resets and torn writes included, a block keeps its contents until a
  // write to it is accepted.
  lemma {:induction false} BlockPersists(s: Sys, ins: seq<In>, lba: nat)
    requires InRange(s.dev) && Aside(s.dev, lba) && Spares(s, ins, lba) && lba < s.dev.blkCount
    ensures Run(s, ins).dev.blkCount == s.dev.blkCount && |Run(s, ins).dev.media| == |s.dev.media|
    ensures Block(Run(s, ins).dev.media, lba) == Block(s.dev.media, lba)
    decreases |ins|
  {
    if ins != [] {
      AsideStep(s, ins[0], lba);
      hide Step, Block, Accepts, Aside;
      BlockPersists(Step(s, ins[0]), ins[1..], lba);
    }
  }

  lemma AsideStep(s: Sys, i: In, lba: nat)
    requires InRange(s.dev) && Aside(s.dev, lba) && lba < s.dev.blkCount
    requires !(Accepts(s, i) && i.we && i.lba == lba)
    ensures var d, t := s.dev, Step(s, i).dev;
      Aside(t, lba) && t.blkCount == d.blkCount && |t.media| == |d.media| && Block(t.media, lba) == Block(d.media, lba)
  {
    var d := s.dev;
    if d.st == WR && !i.rst {
      var at := d.lba * 512 + d.idx;
      assert at < lba * 512 || at >= lba * 512 + 512;
    }
  }

  // Main result: a block read back is the buffer last written to it, whatever ran, failed
  // or was reset in between.
  lemma ReadsLastWrite(s: Sys, w: In, wait: seq<In>, last: In, between: seq<In>, r: In, wait': seq<In>, last': In)
    requires Ready(s) && Accepts(s, w) && Undisturbed(wait) && !last.rst && w.we && w.lba < s.dev.blkCount
    requires |wait| + 1 == Latency(true, w.lba, s.dev.blkCount)
    requires var t := Run(s, [w] + wait + [last]); Spares(t, between, w.lba) && Ready(Run(t, between))
    requires Accepts(Run(Run(s, [w] + wait + [last]), between), r) && Undisturbed(wait') && !last'.rst
    requires !r.we && r.lba == w.lba && |wait'| + 1 == Latency(false, w.lba, s.dev.blkCount)
    ensures var t := Run(Run(Run(s, [w] + wait + [last]), between), [r] + wait' + [last']);
      t.dev.done && !t.dev.err && t.ram.mem == Stored(s.ram.mem, w.poke)
  {
    var t := Run(s, [w] + wait + [last]);
    var u := Run(t, between);
    var buf := Stored(s.ram.mem, w.poke);
    CommandCompletes(s, w, wait, last);
    hide Run, Splice, Block, Stored;
    SpliceBlock(s.dev.media, w.lba, buf, 512, w.lba);
    assert buf[..512] == buf && buf + Block(s.dev.media, w.lba)[512..] == buf;
    BlockPersists(t, between, w.lba);
    CommandCompletes(u, r, wait', last');
  }

  // ------------------------------------------------------------------
  // The module itself
  // ------------------------------------------------------------------

  class BlkFile {
    const media: array<Byte>
    const blkCount: nat
    var st: St
    var ctr: nat
    var idx: nat
    var lba: nat
    var we: bool
    var done: bool
    var err: bool
    var bufWe: bool
    var bufAddr: Addr
    var bufWdata: Byte

    ghost function State(): Dev
      reads this, media
    {
      Dev(st, ctr, idx, lba, we, done, err, bufWe, bufAddr, bufWdata, blkCount, media[..])
    }

    // The image, as many whole blocks of it as the medium holds, on zeroed media.
    constructor (image: seq<Byte>, maxBlocks: nat)
      ensures fresh(media) && InRange(State()) && st == IDLE && !bufWe && !done
      ensures |media[..]| == maxBlocks * 512
      ensures blkCount == (if |image| < maxBlocks * 512 then |image| else maxBlocks * 512) / 512
      ensures forall j :: 0 <= j < maxBlocks * 512 ==> media[j] == (if j < |image| then image[j] else 0)
    {
      var bytes := maxBlocks * 512;
      media := new Byte[bytes](j => if 0 <= j < |image| then image[j] else 0);
      blkCount := (if |image| < bytes then |image| else bytes) / 512;
      st, ctr, idx, lba, we := IDLE, 0, 0, 0, false;
      done, err, bufWe, bufAddr, bufWdata := false, false, false, 0, 0;
    }

    // The clocked block outside reset.
    method Transfer(i: In, rdata: Byte)
      requires InRange(State())
      modifies this, media
      ensures State() == DevStep(old(State()), i.(rst := false), rdata)
    {
      done, bufWe := false, false;
      match st
      case IDLE =>
        if i.start {
          lba, we, err, ctr, st := i.lba, i.we, false, READ_CLOCKS, LAT;
        }
      case LAT =>
        if ctr != 0 {
          ctr := ctr - 1;
        } else if lba >= blkCount {
          err, st := true, END;
        } else {
          idx := 0;
          st := if we then WR_ADDR else RD;
        }
      case RD =>
        bufWe, bufAddr, bufWdata := true, idx, media[lba * 512 + idx];
        if idx == 511 {
          st := END;
        } else {
          idx := idx + 1;
        }
      case WR_ADDR =>
        bufAddr, st := idx, WR_LAT;
      case WR_LAT =>
        st := WR;
      case WR =>
        media[lba * 512 + idx] := rdata;
        if idx == 511 {
          st := END;
        } else {
          idx, st := idx + 1, WR_ADDR;
        }
      case END =>
        done, st := true, IDLE;
    }

    method Posedge(i: In, rdata: Byte)
      requires InRange(State())
      modifies this, media
      ensures State() == DevStep(old(State()), i, rdata) && InRange(State())
    {
      if i.rst {
        done, bufWe, st, err := false, false, IDLE, false;
      } else {
        Transfer(i, rdata);
      }
    }
  }
}
