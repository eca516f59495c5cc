// The clause-22 MDIO slave of tb/mdio_phy_model.sv: a machine that sees one wire
// level per rising MDC edge, refined to a register file that sees whole frames.
module MdioPhy {
  import opened Bits

  // The module's parameters.  They are left open, so everything below holds for every
  // value an instance may give them.
  const PHY_ADDR: Quint
  const PHYID1: Word
  const PHYID2: Word

  const BMCR_DEFAULT := Hex(1, 1, 4, 0)
  const BMSR_DEFAULT := Hex(7, 9, 4, 9)
  const ANAR_DEFAULT := Hex(0, 5, 14, 1)
  const GBCR_DEFAULT := Hex(0, 2, 0, 0)
  const PHYCR_DEFAULT := Hex(0, 8, 0, 0)

  // What the station does in one bit time.
  datatype Wire = Wire(oe: bool, o: bool)

  // The pull-up makes a released wire a one.
  function Level(w: Wire): bool {
    if w.oe then w.o else true
  }

  function Levels(ws: seq<Wire>): (r: Bits)
    ensures |r| == |ws|
    ensures forall i :: 0 <= i < |ws| ==> r[i] == Level(ws[i])
  {
    seq(|ws|, i requires 0 <= i < |ws| => Level(ws[i]))
  }

  // ------------------------------------------------------------------
  // The abstract object: a register file and its tallies
  // ------------------------------------------------------------------

  type Registers = r: seq<Word> | |r| == 32 witness seq(32, _ => Zeros(16))

  datatype File = File(regs: Registers, physr: Word, nReads: nat, nWrites: nat, nBadAddr: nat, contention: nat)

  // PHYSR: speed, duplex, a zero, resolved, link, ten zeros.
  function Resolve(regs: Registers): Word {
    var gbcr, anar := regs[9], regs[4];
    var (s1, s0, fd) :=
      if gbcr[6] || gbcr[7] then (true, false, gbcr[6])
      else if anar[7] || anar[8] then (false, true, anar[7])
      else if anar[9] || anar[10] then (false, false, anar[9])
      else (false, false, false);
    [s1, s0, fd, false, true, true] + Zeros(10)
  }

  // An ability in the advertisement registers: 1000 (speed 2), 100 or 10, full or half.
  predicate Advertises(regs: Registers, speed: nat, full: bool) {
    if speed == 2 then regs[9][if full then 6 else 7]
    else if speed == 1 then regs[4][if full then 7 else 8]
    else regs[4][if full then 9 else 10]
  }

  // The result is the best of what is advertised, full duplex before half; with nothing
  // advertised it is 10 half; and it is always resolved with the link up.
  lemma FastestWins(regs: Registers)
    ensures var p := Resolve(regs); var speed := (if p[0] then 2 else 0) + (if p[1] then 1 else 0); var full := p[2];
      && (forall s, f :: 0 <= s <= 2 && Advertises(regs, s, f) ==> s < speed || (s == speed && (f ==> full)))
      && (Advertises(regs, speed, full)
          || (speed == 0 && !full && forall s, f :: 0 <= s <= 2 ==> !Advertises(regs, s, f)))
      && !p[3] && p[4] && p[5] && forall i :: 6 <= i < 16 ==> !p[i]
    ensures var p := Resolve(regs);
      && (p[0] <==> regs[9][6] || regs[9][7]) && (p[1] <==> !p[0] && (regs[4][7] || regs[4][8]))
      && (p[2] <==> if p[0] then regs[9][6] else if p[1] then regs[4][7] else regs[4][9])
  {
  }

  // A write to register 0 that asks for a reset or a negotiation restart.
  predicate Restarts(d: Word) {
    d[0] || d[6]
  }

  function Store(f: File, r: nat, d: Word): File
    requires r < 32
  {
    if r != 0 then f.(regs := f.regs[r := d])
    else if !Restarts(d) then f.(regs := f.regs[0 := d[0 := false]])
    else
      var p := Resolve(f.regs);
      f.(physr := p, regs := f.regs[0 := d[0 := false]][17 := p][1 := Or(BMSR_DEFAULT, Hex(0, 0, 2, 4))])
  }

  // A frame: any number of ones, the start, and bit times 35 to 64.
  type Idle = ws: seq<Wire> | forall w :: w in ws ==> Level(w)
  type Body = ws: seq<Wire> | |ws| == 30 witness seq(30, _ => Wire(false, true))

  datatype Frame = Frame(idle: Idle, body: Body) {
    function Encode(): seq<Wire> {
      idle + [Wire(true, false), Wire(true, true)] + body
    }

    predicate Read() {
      Level(body[0])
    }

    function Phy(): Quint {
      Levels(body[2..7])
    }

    function Reg(): (r: nat)
      ensures r < 32
    {
      Index(Levels(body[7..12]))
    }

    function Data(): Word {
      Levels(body[14..])
    }

    predicate Mine() {
      Phy() == PHY_ADDR
    }

    // Serving this frame may change register r.
    predicate Touches(r: nat) {
      Mine() && !Read() && (Reg() == r || (Reg() == 0 && Restarts(Data()) && (r == 1 || r == 17)))
    }

    // Turnaround bit times during which the station had not let go.
    function Clashes(): nat {
      (if body[12].oe then 1 else 0) + (if body[13].oe then 1 else 0)
    }
  }

  function Serve(f: File, fr: Frame): File {
    if !fr.Mine() then f.(nBadAddr := f.nBadAddr + 1)
    else if fr.Read() then f.(nReads := f.nReads + 1, contention := f.contention + fr.Clashes())
    else Store(f, fr.Reg(), fr.Data()).(nWrites := f.nWrites + 1)
  }

  function ServeAll(f: File, fs: seq<Frame>): File
    decreases |fs|
  {
    if fs == [] then f else ServeAll(Serve(f, fs[0]), fs[1..])
  }

  function EncodeAll(fs: seq<Frame>): seq<Wire> {
    if fs == [] then [] else fs[0].Encode() + EncodeAll(fs[1..])
  }

  // ------------------------------------------------------------------
  // The bit machine
  // ------------------------------------------------------------------

  // Every register of the module.  Only the low bit of `sof` is ever read.
  datatype Phy = Phy(inFrame: bool, sof: bool, edgeN: nat, shifter: Word,
                     fRead: bool, fPhy: Quint, fReg: Quint, addressed: bool,
                     rdShift: Word, mdioI: bool, file: File)

  predicate Answering(s: Phy) {
    s.inFrame && s.fRead && s.addressed
  }

  // A five-bit field, whose last bit is on the wire.
  function Field(w: Word, b: bool): Quint {
    w[12..] + [b]
  }

  // The block that follows the frame, at one rising edge.  Everything on the right is
  // the state before the edge.
  function Follow(s: Phy, w: Wire): Phy {
    var b := Level(w);
    var cur := s.edgeN + 1;
    if !s.inFrame then
      var start := !s.sof && b;
      s.(sof := b, inFrame := start, edgeN := if start then 34 else s.edgeN,
         addressed := if start then false else s.addressed)
    else
      var missed := cur == 46 && s.fPhy != PHY_ADDR;
      var clash := Answering(s) && (cur == 47 || cur == 48) && w.oe;
      var counted := s.file.(nBadAddr := s.file.nBadAddr + (if missed then 1 else 0),
                             contention := s.file.contention + (if clash then 1 else 0));
      s.(inFrame := cur != 64,
         sof := if cur == 64 then true else s.sof,
         edgeN := if cur == 64 then 0 else cur,
         shifter := ShiftIn(s.shifter, b),
         fRead := if cur == 36 then s.shifter[15] else s.fRead,
         fPhy := if cur == 41 then Field(s.shifter, b) else s.fPhy,
         fReg := if cur == 46 then Field(s.shifter, b) else s.fReg,
         addressed := if cur == 46 then s.fPhy == PHY_ADDR else s.addressed,
         file := if cur == 64 && s.addressed && !s.fRead
                 then Store(counted, Index(s.fReg), ShiftIn(s.shifter, b)).(nWrites := counted.nWrites + 1)
                 else counted)
  }

  // An edge inside the frame in two steps, neither of which reads what the other writes.
  function Watched(s: Phy, w: Wire): Phy {
    var clash := Answering(s) && (s.edgeN + 1 == 47 || s.edgeN + 1 == 48) && w.oe;
    s.(file := s.file.(contention := s.file.contention + (if clash then 1 else 0)))
  }

  function Latched(s: Phy, b: bool): Phy {
    match s.edgeN + 1
    case 36 => s.(fRead := s.shifter[15])
    case 41 => s.(fPhy := Field(s.shifter, b))
    case 46 =>
      var mine := s.fPhy == PHY_ADDR;
      s.(fReg := Field(s.shifter, b), addressed := mine, file := s.file.(nBadAddr := s.file.nBadAddr + (if mine then 0 else 1)))
    case _ => s
  }

  lemma FollowInner(s: Phy, w: Wire)
    requires s.inFrame && s.edgeN + 1 != 64
    ensures var t := Latched(Watched(s, w), Level(w));
      Follow(s, w) == t.(edgeN := s.edgeN + 1, shifter := ShiftIn(s.shifter, Level(w)))
  {
    hide Store, ShiftIn, Index, Field;
  }

  // The block that drives the answer: the line, the read-back register, the tally.
  function Drive(s: Phy): (bool, Word, nat) {
    var cur := s.edgeN + 1;
    if !Answering(s) then (true, s.rdShift, 0)
    else if cur == 47 then (false, s.file.regs[Index(s.fReg)], 1)
    else if 48 <= cur <= 63 then (s.rdShift[0], ShiftIn(s.rdShift, false), 0)
    else if cur >= 64 then (true, s.rdShift, 0)
    else (s.mdioI, s.rdShift, 0)
  }

  // One rising edge of MDC: both blocks, each reading the state before it.
  function Step(s: Phy, w: Wire): Phy {
    var t, (line, shift, read) := Follow(s, w), Drive(s);
    t.(mdioI := line, rdShift := shift, file := t.file.(nReads := t.file.nReads + read))
  }

  function Run(s: Phy, ws: seq<Wire>): Phy
    decreases |ws|
  {
    if ws == [] then s else Run(Step(s, ws[0]), ws[1..])
  }

  // What a station sampling at each rising edge sees the PHY drive.
  function Seen(s: Phy, ws: seq<Wire>): (r: Bits)
    ensures |r| == |ws|
    decreases |ws|
  {
    if ws == [] then [] else [s.mdioI] + Seen(Step(s, ws[0]), ws[1..])
  }

  lemma {:induction false} RunConcat(s: Phy, a: seq<Wire>, b: seq<Wire>)
    ensures Run(s, a + b) == Run(Run(s, a), b)
    ensures Seen(s, a + b) == Seen(s, a) + Seen(Run(s, a), b)
    decreases |a|
  {
    if a == [] {
      assert a + b == b;
    } else {
      assert (a + b)[1..] == a[1..] + b;
      RunConcat(Step(s, a[0]), a[1..], b);
    }
  }

  // Between frames.
  predicate Ready(s: Phy) {
    !s.inFrame && s.sof && s.edgeN == 0 && s.mdioI
  }

  // The state `k` bit times into the body of frame `f`, in closed form.
  function Mid(s: Phy, f: Frame, k: nat): Phy
    requires k < 30
  {
    var answer := f.Mine() && f.Read();
    Phy(inFrame := true, sof := true, edgeN := 34 + k,
        shifter := ShiftAll(s.shifter, Levels(f.body[..k])),
        fRead := if k >= 2 then f.Read() else s.fRead,
        fPhy := if k >= 7 then f.Phy() else s.fPhy,
        fReg := if k >= 12 then Levels(f.body[7..12]) else s.fReg,
        addressed := k >= 12 && f.Mine(),
        rdShift := if answer && k >= 13 then ShiftAll(s.file.regs[f.Reg()], Zeros(k - 13)) else s.rdShift,
        mdioI := Answer(s.file, f, k),
        file := s.file.(nBadAddr := s.file.nBadAddr + (if k >= 12 && !f.Mine() then 1 else 0),
                        nReads := s.file.nReads + (if answer && k >= 13 then 1 else 0),
                        contention := s.file.contention
                                      + (if answer && k >= 13 && f.body[12].oe then 1 else 0)
                                      + (if answer && k >= 14 && f.body[13].oe then 1 else 0)))
  }

  // What the wire carries from the PHY at edge 35 + k of a frame.
  function Answer(file: File, f: Frame, k: nat): bool
    requires k < 30
  {
    if f.Mine() && f.Read() && k == 13 then false
    else if f.Mine() && f.Read() && k >= 14 then file.regs[f.Reg()][k - 14]
    else true
  }

  // The shift register after each bit time, and its low n bits.
  lemma MidShifter(s: Phy, f: Frame, k: nat, n: nat)
    requires k < 30 && n <= 16 && n <= k
    ensures ShiftIn(Mid(s, f, k).shifter, Level(f.body[k])) == ShiftAll(s.shifter, Levels(f.body[..k + 1]))
    ensures Mid(s, f, k).shifter[16 - n..] == Levels(f.body[k - n..k])
  {
    hide Answer, Levels, ShiftAll, ShiftIn, Level;
    var seen := Levels(f.body[..k]);
    LevelsPart(f.body, k - n, k);
    ShiftAllStep(s.shifter, seen, Level(f.body[k]));
    ShiftAllTail(s.shifter, seen, n);
  }

  lemma LevelsPart(ws: seq<Wire>, a: nat, k: nat)
    requires a <= k < |ws|
    ensures |Levels(ws[..k])| == k && Levels(ws[..k + 1]) == Levels(ws[..k]) + [Level(ws[k])]
    ensures Levels(ws[..k])[a..] == Levels(ws[a..k])
  {
  }

  lemma MidFlow(s: Phy, f: Frame, k: nat)
    requires k < 29
    ensures var t, m := Step(Mid(s, f, k), f.body[k]), Mid(s, f, k + 1);
      t.inFrame && t.sof && t.edgeN == m.edgeN && t.shifter == m.shifter
  {
    MidShifter(s, f, k, 0);
  }

  lemma LevelsSnoc(ws: seq<Wire>, a: nat, b: nat)
    requires a <= b < |ws|
    ensures Levels(ws[a..b]) + [Level(ws[b])] == Levels(ws[a..b + 1])
  {
  }

  lemma OpcodeBit(s: Phy, f: Frame)
    ensures Mid(s, f, 1).shifter[15] == f.Read()
  {
    ShiftAllTail(s.shifter, Levels(f.body[..1]), 1);
    assert Mid(s, f, 1).shifter[15..][0] == Levels(f.body[..1])[0];
  }

  lemma MidRead(s: Phy, f: Frame, k: nat)
    requires k < 29
    ensures Step(Mid(s, f, k), f.body[k]).fRead == Mid(s, f, k + 1).fRead
  {
    hide Store, Drive, Answer, ShiftAll, ShiftIn, Index, Levels, Level;
    OpcodeBit(s, f);
  }

  lemma FieldBits(s: Phy, f: Frame, k: nat)
    requires 4 <= k < 30
    ensures Mid(s, f, k).shifter[12..] + [Level(f.body[k])] == Levels(f.body[k - 4..k + 1])
  {
    MidShifter(s, f, k, 4);
    LevelsSnoc(f.body, k - 4, k);
  }

  lemma MidPhy(s: Phy, f: Frame, k: nat)
    requires k < 29
    ensures var t, m := Step(Mid(s, f, k), f.body[k]), Mid(s, f, k + 1); t.fPhy == m.fPhy && t.addressed == m.addressed
  {
    hide Store, Drive, Answer, ShiftAll, ShiftIn, Index, Levels;
    FieldBits(s, f, 6);
  }

  lemma MidReg(s: Phy, f: Frame, k: nat)
    requires k < 29
    ensures Step(Mid(s, f, k), f.body[k]).fReg == Mid(s, f, k + 1).fReg
  {
    hide Store, Drive, Answer, ShiftAll, ShiftIn, Index, Levels;
    FieldBits(s, f, 11);
  }

  lemma MidFile(s: Phy, f: Frame, k: nat)
    requires k < 29
    ensures Step(Mid(s, f, k), f.body[k]).file == Mid(s, f, k + 1).file
  {
    hide Store, Answer, ShiftAll;
  }

  lemma MidAnswer(s: Phy, f: Frame, k: nat)
    requires k < 29
    ensures Step(Mid(s, f, k), f.body[k]).mdioI == Mid(s, f, k + 1).mdioI
    ensures Step(Mid(s, f, k), f.body[k]).rdShift == Mid(s, f, k + 1).rdShift
  {
    hide Follow, Levels, Index;
    if k >= 13 {
      ReadBack(s.file.regs[f.Reg()], k - 13);
    }
  }

  // The read-back register n shifts after it was loaded, and the bit it presents.
  lemma ReadBack(r: Word, n: nat)
    requires n < 16
    ensures ShiftIn(ShiftAll(r, Zeros(n)), false) == ShiftAll(r, Zeros(n + 1))
    ensures ShiftAll(r, Zeros(n))[0] == r[n]
    ensures n == 0 ==> ShiftAll(r, Zeros(n)) == r
  {
    ShiftAllStep(r, Zeros(n), false);
    assert Zeros(n) + [false] == Zeros(n + 1);
  }

  lemma MidStep(s: Phy, f: Frame, k: nat)
    requires k < 29
    ensures Step(Mid(s, f, k), f.body[k]) == Mid(s, f, k + 1)
  {
    MidFlow(s, f, k);
    MidRead(s, f, k);
    MidPhy(s, f, k);
    MidReg(s, f, k);
    MidFile(s, f, k);
    MidAnswer(s, f, k);
  }

  // Edge 64 applies the frame and returns the machine to the hunt.
  lemma LastData(s: Phy, f: Frame)
    ensures ShiftIn(Mid(s, f, 29).shifter, Level(f.body[29])) == f.Data()
  {
    hide ShiftAll, Level, Levels, Answer, Step, Follow, Drive, Mid, ShiftIn;
    MidShifter(s, f, 29, 0);
    ShiftAllTail(s.shifter, Levels(f.body[..30]), 16);
    assert f.body[..30] == f.body;
    LevelsTail(f.body, 14);
  }

  lemma LevelsTail(ws: seq<Wire>, n: nat)
    requires n <= |ws|
    ensures |Levels(ws)| == |ws| && Levels(ws)[n..] == Levels(ws[n..])
  {
  }

  lemma EndOfFrame(m: Phy, w: Wire)
    requires m.inFrame && m.edgeN == 63
    ensures Step(m, w).file ==
      if m.addressed && !m.fRead
      then Store(m.file, Index(m.fReg), ShiftIn(m.shifter, Level(w))).(nWrites := m.file.nWrites + 1) else m.file
  {
    hide Store, ShiftIn, Index, Field;
  }

  lemma LastFile(s: Phy, f: Frame)
    ensures Step(Mid(s, f, 29), f.body[29]).file == Serve(s.file, f)
  {
    hide Store, ShiftIn, ShiftAll, Answer, Step;
    LastData(s, f);
    EndOfFrame(Mid(s, f, 29), f.body[29]);
  }

  lemma LastStep(s: Phy, f: Frame)
    ensures Ready(Step(Mid(s, f, 29), f.body[29]))
  {
  }

  lemma RunFirst(s: Phy, ws: seq<Wire>, k: nat)
    requires k < |ws|
    ensures Run(s, ws[k..]) == Run(Step(s, ws[k]), ws[k + 1..])
    ensures Seen(s, ws[k..]) == [s.mdioI] + Seen(Step(s, ws[k]), ws[k + 1..])
  {
    assert ws[k..][1..] == ws[k + 1..];
  }

  // The whole body, from any of its bit times.
  lemma {:induction false} BodyRun(s: Phy, f: Frame, k: nat)
    requires k < 30
    ensures var t := Run(Mid(s, f, k), f.body[k..]); Ready(t) && t.file == Serve(s.file, f)
    ensures Seen(Mid(s, f, k), f.body[k..]) == Answers(s.file, f)[k..]
    decreases 30 - k
  {
    hide Step, Serve;
    var m, a := Mid(s, f, k), Answers(s.file, f);
    RunFirst(m, f.body, k);
    assert a[k..] == [a[k]] + a[k + 1..] && a[k] == m.mdioI;
    if k == 29 {
      LastFile(s, f);
      LastStep(s, f);
    } else {
      MidStep(s, f, k);
      BodyRun(s, f, k + 1);
    }
  }

  function Answers(file: File, f: Frame): (r: Bits)
    ensures |r| == 30
  {
    seq(30, k requires 0 <= k < 30 => Answer(file, f, k))
  }

  function Ones(n: nat): Bits {
    seq(n, _ => true)
  }

  // What a station sees over a whole frame, and over a list of them.
  function Reply(file: File, f: Frame): (r: Bits)
    ensures |r| == |f.Encode()|
  {
    Ones(|f.idle| + 2) + Answers(file, f)
  }

  function Replies(file: File, fs: seq<Frame>): Bits
    decreases |fs|
  {
    if fs == [] then [] else Reply(file, fs[0]) + Replies(Serve(file, fs[0]), fs[1..])
  }

  lemma {:induction false} IdleRun(s: Phy, ws: Idle)
    requires Ready(s)
    ensures Run(s, ws) == s && Seen(s, ws) == Ones(|ws|)
    decreases |ws|
  {
    if ws != [] {
      assert Level(ws[0]) && Step(s, ws[0]) == s;
      assert forall w :: w in ws[1..] ==> w in ws;
      IdleRun(s, ws[1..]);
    }
  }

  // The start pattern is found behind a one, so no preamble is needed.
  lemma StartRun(s: Phy, f: Frame)
    requires Ready(s)
    ensures var ws := [Wire(true, false), Wire(true, true)] + f.body;
      Run(s, ws) == Run(Mid(s, f, 0), f.body) && Seen(s, ws) == [true, true] + Seen(Mid(s, f, 0), f.body)
  {
    var ws := [Wire(true, false), Wire(true, true)] + f.body;
    var half := Step(s, ws[0]);
    assert half == s.(sof := false);
    assert Step(half, ws[1]) == Mid(s, f, 0);
    assert ws[0..] == ws && ws[2..] == f.body;
    RunFirst(s, ws, 0);
    RunFirst(half, ws, 1);
  }

  lemma FrameRun(s: Phy, f: Frame)
    requires Ready(s)
    ensures var t := Run(s, f.Encode()); Ready(t) && t.file == Serve(s.file, f)
    ensures Seen(s, f.Encode()) == Reply(s.file, f)
  {
    hide Step, Mid, Serve, Answer, Seen, Run;
    var rest := [Wire(true, false), Wire(true, true)] + f.body;
    BodyRun(s, f, 0);
    assert f.body[0..] == f.body && Answers(s.file, f)[0..] == Answers(s.file, f);
    StartRun(s, f);
    IdleRun(s, f.idle);
    RunConcat(s, f.idle, rest);
    assert f.Encode() == f.idle + rest;
  }

  // Main result: over any list of frames, each behind any number of ones, the bit
  // machine is the register file, and on the wire it says exactly what the register
  // file would reply -- and otherwise leaves the wire alone.
  lemma {:induction false} Refinement(s: Phy, fs: seq<Frame>)
    requires Ready(s)
    ensures var t := Run(s, EncodeAll(fs)); Ready(t) && t.file == ServeAll(s.file, fs)
    ensures Seen(s, EncodeAll(fs)) == Replies(s.file, fs)
    decreases |fs|
  {
    if fs != [] {
      var head, tail := fs[0].Encode(), EncodeAll(fs[1..]);
      FrameRun(s, fs[0]);
      RunConcat(s, head, tail);
      Refinement(Run(s, head), fs[1..]);
    }
  }

  // ------------------------------------------------------------------
  // What a station may rely on, at the wire
  // ------------------------------------------------------------------

  // A write frame changes its own register, and registers 1 and 17 when it restarts
  // the negotiation, and no other register or tally.
  lemma WriteFrame(s: Phy, f: Frame)
    requires Ready(s) && f.Mine() && !f.Read()
    ensures var was, now := s.file, Run(s, f.Encode()).file;
      && now.regs[f.Reg()] == (if f.Reg() == 0 then f.Data()[0 := false] else f.Data())
      && (forall r :: 0 <= r < 32 && !f.Touches(r) ==> now.regs[r] == was.regs[r])
      && (f.Reg() == 0 && Restarts(f.Data()) ==>
            now.regs[17] == Resolve(was.regs) && now.regs[1] == Or(BMSR_DEFAULT, Hex(0, 0, 2, 4)))
      && now.nWrites == was.nWrites + 1
      && (now.nReads, now.nBadAddr, now.contention) == (was.nReads, was.nBadAddr, was.contention)
  {
    FrameRun(s, f);
  }

  // A frame for another PHY is counted, changes nothing else and is not answered.
  lemma ForeignFrame(s: Phy, f: Frame)
    requires Ready(s) && !f.Mine()
    ensures Run(s, f.Encode()).file == s.file.(nBadAddr := s.file.nBadAddr + 1)
    ensures forall b :: b in Seen(s, f.Encode()) ==> b
  {
    FrameRun(s, f);
  }

  // A read: a zero in bit time 48, the register most significant bit first in bit
  // times 49 to 64, a released wire in every other, and the contention count moves
  // exactly when the station was still driving during the turnaround.  Bit time N of
  // the frame is sample |idle| + N - 33.
  lemma ReadFrame(s: Phy, f: Frame)
    requires Ready(s) && f.Mine() && f.Read()
    ensures var seen, at := Seen(s, f.Encode()), |f.idle|;
      && |seen| == at + 32
      && !seen[at + 48 - 33]
      && seen[at + 49 - 33..at + 65 - 33] == s.file.regs[f.Reg()]
      && (forall i :: 0 <= i < at + 48 - 33 ==> seen[i])
    ensures var now := Run(s, f.Encode()).file;
      && now.regs == s.file.regs && now.nReads == s.file.nReads + 1
      && (now.contention == s.file.contention <==> !f.body[12].oe && !f.body[13].oe)
  {
    FrameRun(s, f);
    var at, a := |f.idle|, Answers(s.file, f);
    assert forall i :: 0 <= i < 30 ==> Reply(s.file, f)[at + 2 + i] == a[i];
    assert a[14..30] == s.file.regs[f.Reg()];
    assert Reply(s.file, f)[at + 16..at + 32] == a[14..30];
  }

  // A bus nobody drives changes nothing, for as long as that may be.
  lemma {:induction false} IdleBus(s: Phy, ws: seq<Wire>)
    requires Ready(s) && forall w :: w in ws ==> !w.oe
    ensures Run(s, ws) == s
    decreases |ws|
  {
    if ws != [] {
      assert ws[0] in ws && Step(s, ws[0]) == s;
      IdleBus(s, ws[1..]);
    }
  }

  // Main result: whatever the register number, a frame whose bit times 42 to 46 are its
  // binary digits, most significant first, reads exactly that register, or writes exactly
  // that one and, if it is zero and bit 15 or bit 9 of the data is set, the result of a
  // negotiation into 1 and 17.
  lemma NumberedRegister(s: Phy, f: Frame, r: nat)
    requires Ready(s) && f.Mine() && r < 32
    requires (Level(f.body[7]) <==> r / 16 % 2 == 1) && (Level(f.body[8]) <==> r / 8 % 2 == 1)
    requires (Level(f.body[9]) <==> r / 4 % 2 == 1) && (Level(f.body[10]) <==> r / 2 % 2 == 1)
    requires Level(f.body[11]) <==> r % 2 == 1
    ensures Level(f.body[0]) ==> Seen(s, f.Encode())[|f.idle| + 16..|f.idle| + 32] == s.file.regs[r]
    ensures !Level(f.body[0]) ==>
      var was, now, d := s.file.regs, Run(s, f.Encode()).file.regs, Levels(f.body[14..]);
      var more := r == 0 && (Level(f.body[14]) || Level(f.body[20]));
      && now[r] == (if r == 0 then d[0 := false] else d)
      && (more ==> now[17] == Resolve(was) && Value(now[1]) == 0x796D)
      && forall k :: 0 <= k < 32 && k != r && !(more && (k == 1 || k == 17)) ==> now[k] == was[k]
  {
    IndexIs(Levels(f.body[7..12]), r);
    assert f.Reg() == r;
    if f.Read() {
      ReadFrame(s, f);
    } else {
      WriteFrame(s, f);
      LinkIsUp(0);
    }
  }

  lemma {:induction false} ServeConcat(file: File, a: seq<Frame>, b: seq<Frame>)
    ensures ServeAll(file, a + b) == ServeAll(ServeAll(file, a), b)
    decreases |a|
  {
    if a == [] {
      assert a + b == b;
    } else {
      assert (a + b)[1..] == a[1..] + b;
      ServeConcat(Serve(file, a[0]), a[1..], b);
    }
  }

  lemma {:induction false} Untouched(file: File, fs: seq<Frame>, r: nat)
    requires r < 32 && forall f :: f in fs ==> !f.Touches(r)
    ensures ServeAll(file, fs).regs[r] == file.regs[r]
    decreases |fs|
  {
    if fs != [] {
      assert !fs[0].Touches(r);
      assert forall f :: f in fs[1..] ==> f in fs;
      Untouched(Serve(file, fs[0]), fs[1..], r);
    }
  }

  // Main result: over any traffic, a read returns the last value written to its
  // register, if nothing since has touched that register.
  lemma ReadReturnsLastWrite(s: Phy, before: seq<Frame>, w: Frame, between: seq<Frame>, rd: Frame)
    requires Ready(s) && w.Mine() && !w.Read() && rd.Mine() && rd.Read() && rd.Reg() == w.Reg()
    requires forall f :: f in between ==> !f.Touches(w.Reg())
    ensures var ws := EncodeAll(before + [w] + between);
      Seen(Run(s, ws), rd.Encode())[|rd.idle| + 16..|rd.idle| + 32]
        == (if w.Reg() == 0 then w.Data()[0 := false] else w.Data())
  {
    var fs := before + [w] + between;
    Refinement(s, fs);
    ServeConcat(s.file, before + [w], between);
    ServeConcat(s.file, before, [w]);
    var mid := ServeAll(s.file, before);
    assert ServeAll(mid, [w]) == Serve(mid, w) by {
      assert [w][1..] == [];
    }
    Untouched(Serve(mid, w), between, w.Reg());
    ReadFrame(Run(s, EncodeAll(fs)), rd);
  }

  // ------------------------------------------------------------------
  // The module itself
  // ------------------------------------------------------------------

  const POWER_UP: File :=
    var zero: Registers := seq(32, _ => Zeros(16));
    File(zero[0 := BMCR_DEFAULT][1 := BMSR_DEFAULT][2 := PHYID1][3 := PHYID2][4 := ANAR_DEFAULT]
           [9 := GBCR_DEFAULT][16 := PHYCR_DEFAULT], Zeros(16), 0, 0, 0, 0)

  // The data-sheet defaults, as numbers.
  lemma PowerUpIs()
    ensures var r := POWER_UP.regs;
      && Value(r[0]) == 0x1140 && Value(r[1]) == 0x7949 && r[2] == PHYID1 && r[3] == PHYID2
      && Value(r[4]) == 0x05E1 && Value(r[9]) == 0x0200 && Value(r[16]) == 0x0800
      && forall i :: 0 <= i < 32 && i !in {0, 1, 2, 3, 4, 9, 16} ==> r[i] == Zeros(16)
  {
    hide Hex, Value, Zeros;
    HexIs(1, 1, 4, 0);
    HexIs(7, 9, 4, 9);
    HexIs(0, 5, 14, 1);
    HexIs(0, 2, 0, 0);
    HexIs(0, 8, 0, 0);
  }

  // A negotiation leaves register 1 at its default with the link up and the negotiation
  // complete, bits 2 and 5.
  lemma LinkIsUp(i: nat)
    requires i < 16
    ensures Or(BMSR_DEFAULT, Hex(0, 0, 2, 4))[15 - i] == (BMSR_DEFAULT[15 - i] || i == 2 || i == 5)
    ensures Value(Or(BMSR_DEFAULT, Hex(0, 0, 2, 4))) == 0x796D
  {
    assert Or(BMSR_DEFAULT, Hex(0, 0, 2, 4)) == Hex(7, 9, 6, 13);
    HexIs(7, 9, 6, 13);
  }

  class PhyModel {
    const regs: array<Word>
    var physr: Word
    var nReads: nat
    var nWrites: nat
    var nBadAddr: nat
    var contention: nat

    var inFrame: bool
    var sof: bool
    var edgeN: nat
    var shifter: Word
    var fRead: bool
    var fPhy: Quint
    var fReg: Quint
    var addressed: bool
    var rdShift: Word
    var mdioI: bool

    ghost predicate Valid()
      reads this
    {
      regs.Length == 32
    }

    ghost function State(): Phy
      requires Valid()
      reads this, regs
    {
      Phy(inFrame, sof, edgeN, shifter, fRead, fPhy, fReg, addressed, rdShift, mdioI,
          File(regs[..], physr, nReads, nWrites, nBadAddr, contention))
    }

    constructor ()
      ensures Valid() && fresh(regs)
      ensures Ready(State()) && State().file == POWER_UP
    {
      regs := new Word[32](_ => Zeros(16));
      inFrame, sof, edgeN, addressed, mdioI := false, true, 0, false, true;
      nReads, nWrites, nBadAddr, contention := 0, 0, 0, 0;
      shifter := Zeros(16);
      new;
      HardReset();
    }

    method HardReset()
      requires Valid()
      modifies this`physr, regs
      ensures regs[..] == POWER_UP.regs && physr == POWER_UP.physr
    {
      hide Hex, Zeros;
      for i := 0 to 32
        invariant forall j :: 0 <= j < i ==> regs[j] == Zeros(16)
      {
        regs[i] := Zeros(16);
      }
      regs[0], regs[1], regs[2], regs[3] := BMCR_DEFAULT, BMSR_DEFAULT, PHYID1, PHYID2;
      regs[4], regs[9], regs[16] := ANAR_DEFAULT, GBCR_DEFAULT, PHYCR_DEFAULT;
      physr := Zeros(16);
      regs[17] := physr;
    }

    method Negotiate()
      requires Valid()
      modifies this`physr, regs
      ensures physr == Resolve(old(regs[..]))
      ensures regs[..] == old(regs[..])[17 := physr][1 := Or(BMSR_DEFAULT, Hex(0, 0, 2, 4))]
    {
      var speed: Bits, fd := [false, false], false;
      if regs[9][6] || regs[9][7] {
        speed, fd := [true, false], regs[9][6];
      } else if regs[4][7] || regs[4][8] {
        speed, fd := [false, true], regs[4][7];
      } else if regs[4][9] || regs[4][10] {
        speed, fd := [false, false], regs[4][9];
      }
      physr := speed + [fd, false, true, true] + Zeros(10);
      assert physr == Resolve(old(regs[..]));
      regs[17] := physr;
      regs[1] := Or(BMSR_DEFAULT, Hex(0, 0, 2, 4));
    }

    // Edge 64 of a write to this PHY.  The store is non-blocking, so it lands after
    // whatever the negotiation assigned.
    method Commit(d: Word)
      requires Valid()
      modifies this`physr, this`nWrites, regs
      ensures State().file == Store(old(State().file), Index(fReg), d).(nWrites := old(nWrites) + 1)
    {
      nWrites := nWrites + 1;
      var at := Index(fReg);
      if at == 0 {
        if d[0] || d[6] {
          Negotiate();
        }
        regs[0] := d[0 := false];
      } else {
        regs[at] := d;
      }
    }

    method DriveEdge() returns (line: bool, shift: Word, read: nat)
      requires Valid()
      ensures (line, shift, read) == Drive(State())
    {
      line, shift, read := mdioI, rdShift, 0;
      var cur := edgeN + 1;
      if inFrame && fRead && addressed {
        if cur == 47 {
          shift := regs[Index(fReg)];
          read := 1;
          line := false;
        } else if 48 <= cur <= 63 {
          line := rdShift[0];
          shift := ShiftIn(rdShift, false);
        } else if cur >= 64 {
          line := true;
        }
      } else {
        line := true;
      }
    }

    // The turnaround check.
    method Watch(w: Wire)
      requires Valid() && inFrame
      modifies `contention
      ensures State() == Watched(old(State()), w)
    {
      if fRead && addressed && (edgeN + 1 == 47 || edgeN + 1 == 48) && w.oe {
        contention := contention + 1;
      }
    }

    // The fields of the frame, each taken when its last bit has gone by.
    method Latch(b: bool)
      requires Valid()
      modifies `fRead, `fPhy, `fReg, `addressed, `nBadAddr
      ensures State() == Latched(old(State()), b)
    {
      hide Field;
      var cur := edgeN + 1;
      if cur == 36 {
        fRead := shifter[15];
      } else if cur == 41 {
        fPhy := Field(shifter, b);
      } else if cur == 46 {
        fReg := Field(shifter, b);
        addressed := fPhy == PHY_ADDR;
        if fPhy != PHY_ADDR {
          nBadAddr := nBadAddr + 1;
        }
      }
    }

    // An edge inside the frame: the turnaround check, the fields, the shift.
    method InnerEdge(w: Wire, b: bool)
      requires Valid() && inFrame && edgeN + 1 != 64 && b == Level(w)
      modifies `contention, `edgeN, `shifter, `fRead, `fPhy, `fReg, `addressed, `nBadAddr
      ensures State() == Follow(old(State()), w)
    {
      hide Follow, Watched, Latched, ShiftIn;
      FollowInner(State(), w);
      Watch(w);
      Latch(b);
      edgeN, shifter := edgeN + 1, ShiftIn(shifter, b);
    }

    method LastEdge(w: Wire, b: bool)
      requires Valid() && inFrame && edgeN == 63 && b == Level(w)
      modifies this, regs
      ensures State() == Follow(old(State()), w)
    {
      hide Store, ShiftIn;
      if addressed && !fRead {
        Commit(ShiftIn(shifter, b));
      }
      inFrame, edgeN, sof := false, 0, true;
      shifter := ShiftIn(shifter, b);
    }

    // An edge between frames: the hunt for the start pattern.
    method HuntEdge(w: Wire, b: bool)
      requires Valid() && !inFrame && b == Level(w)
      modifies `inFrame, `edgeN, `addressed, `sof
      ensures State() == Follow(old(State()), w)
    {
      hide Store, ShiftIn, Index, Field;
      if !sof && b {
        inFrame, edgeN, addressed := true, 34, false;
      }
      sof := b;
    }

    method FollowEdge(w: Wire)
      requires Valid()
      modifies this, regs
      ensures Valid() && State() == Follow(old(State()), w)
    {
      hide Follow;
      var b := if w.oe then w.o else true;
      if inFrame && edgeN + 1 == 64 {
        LastEdge(w, b);
      } else if inFrame {
        InnerEdge(w, b);
      } else {
        HuntEdge(w, b);
      }
    }

    // One rising edge of MDC: both always blocks, non-blocking assignments last.
    method Posedge(w: Wire)
      requires Valid()
      modifies this, regs
      ensures Valid() && State() == Step(old(State()), w)
    {
      var line, shift, read := DriveEdge();
      FollowEdge(w);
      mdioI, rdShift, nReads := line, shift, nReads + read;
    }

    // A station's whole bit stream.
    method Clock(ws: seq<Wire>) returns (seen: Bits)
      requires Valid()
      modifies this, regs
      ensures Valid() && State() == Run(old(State()), ws) && seen == Seen(old(State()), ws)
    {
      hide Step;
      seen := [];
      assert ws[0..] == ws;
      for i := 0 to |ws|
        invariant Valid()
        invariant Run(State(), ws[i..]) == Run(old(State()), ws)
        invariant seen + Seen(State(), ws[i..]) == Seen(old(State()), ws)
      {
        RunFirst(State(), ws, i);
        seen := seen + [mdioI];
        Posedge(ws[i]);
      }
    }
  }
}
