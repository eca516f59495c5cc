// The I2C target of tb/i2c_slave_model.sv on a wired-AND bus with one master: a
// decoder of waveforms, proved to invert an encoder of transactions, and proved never
// to disturb the bus it listens to.
module I2cTarget {
  import opened Bits

  // The module's parameters, left open.
  const SLAVE_ADDR: Octet
  const MAX_LOG: nat

  datatype Phase = IDLE | ADDR | SUB | DATA | ACK

  type Write = (Octet, Octet)

  // What the module has learned: the log, the table of last values (whose domain is
  // `seen`), and the counters.
  datatype Tally = Tally(log: seq<Write>, nWrites: nat, regs: map<Octet, Octet>,
                         nStarts: nat, nStops: nat, badAddr: nat)

  // Every variable of the module.
  datatype Target = Target(ph: Phase, afterAck: Phase, shift: Octet, bitno: nat, curSub: Octet,
                           selected: bool, sdaOe: bool, tally: Tally)

  predicate Listening(t: Target) {
    t.ph == ADDR || t.ph == SUB || t.ph == DATA
  }

  // ------------------------------------------------------------------
  // The four event handlers
  // ------------------------------------------------------------------

  function OnStart(t: Target): Target {
    t.(tally := t.tally.(nStarts := t.tally.nStarts + 1), ph := ADDR, bitno := 0, shift := Zeros(8),
       selected := false, sdaOe := false)
  }

  function OnStop(t: Target): Target {
    t.(tally := t.tally.(nStops := t.tally.nStops + 1), ph := IDLE, sdaOe := false)
  }

  function OnRise(t: Target, sda: bool): Target {
    if Listening(t) then t.(shift := ShiftIn(t.shift, sda), bitno := t.bitno + 1) else t
  }

  function Logged1(y: Tally, w: Write): Tally {
    y.(regs := y.regs[w.0 := w.1], nWrites := y.nWrites + 1,
       log := if y.nWrites < MAX_LOG then y.log + [w] else y.log)
  }

  // What the eighth bit of a byte does, apart from driving the acknowledgement.
  function Took(t: Target, byte: Octet): Target
    requires Listening(t)
  {
    match t.ph
    case ADDR =>
      var mine := byte == SLAVE_ADDR;
      t.(selected := mine, afterAck := SUB,
         tally := t.tally.(badAddr := t.tally.badAddr + (if mine then 0 else 1)))
    case SUB =>
      t.(curSub := byte, afterAck := DATA)
    case DATA =>
      t.(afterAck := SUB, tally := if t.selected then Logged1(t.tally, (t.curSub, byte)) else t.tally)
  }

  function OnFall(t: Target): Target {
    if Listening(t) then
      if t.bitno != 8 then t
      else
        var u := Took(t, t.shift);
        u.(sdaOe := u.selected, ph := ACK, bitno := 0)
    else if t.ph == ACK then t.(sdaOe := false, shift := Zeros(8), ph := t.afterAck)
    else t
  }

  // ------------------------------------------------------------------
  // The bus
  // ------------------------------------------------------------------

  // The master's two open-drain outputs and the target's one.
  datatype Bus = Bus(scl: bool, msda: bool, t: Target) {
    predicate Sda() {
      msda && !t.sdaOe
    }
  }

  // The master moves one line, or both; two lines that move at the same instant still
  // reach the handlers one after the other, in an order the simulator chooses.
  datatype Event = Scl(v: bool) | Sda(v: bool)

  // What the target does about SDA having moved from `was` to where it is now.
  function React(b: Bus, was: bool): Bus {
    if b.scl && was && !b.Sda() then b.(t := OnStart(b.t))
    else if b.scl && !was && b.Sda() then b.(t := OnStop(b.t))
    else b
  }

  // One move of the master, the target's reaction, and then its reaction to any
  // movement of SDA that its own output caused.
  function Moves(b: Bus, e: Event): Bus {
    match e
    case Sda(v) => React(b.(msda := v), b.Sda())
    case Scl(v) =>
      b.(scl := v, t := if v && !b.scl then OnRise(b.t, b.Sda())
                        else if !v && b.scl then OnFall(b.t) else b.t)
  }

  // SDA as the master's move left it, before the target's output followed.
  predicate Moved(b: Bus, e: Event) {
    (if e.Sda? then e.v else b.msda) && !b.t.sdaOe
  }

  function Step(b: Bus, e: Event): Bus {
    React(Moves(b, e), Moved(b, e))
  }

  // Both lines at once, as the handlers see it.
  function Both(scl: bool, sda: bool, sclFirst: bool): seq<Event> {
    if sclFirst then [Scl(scl), Event.Sda(sda)] else [Event.Sda(sda), Scl(scl)]
  }

  function Run(b: Bus, es: seq<Event>): Bus
    decreases |es|
  {
    if es == [] then b else Run(Step(b, es[0]), es[1..])
  }

  lemma {:induction false} RunConcat(b: Bus, a: seq<Event>, c: seq<Event>)
    ensures Run(b, a + c) == Run(Run(b, a), c)
    decreases |a|
  {
    if a == [] {
      assert a + c == c;
    } else {
      assert (a + c)[1..] == a[1..] + c;
      RunConcat(Step(b, a[0]), a[1..], c);
    }
  }

  // ------------------------------------------------------------------
  // Safety: the target never creates a START or a STOP
  // ------------------------------------------------------------------

  // The target pulls SDA low only while acknowledging a byte of a transaction that
  // is addressed to it.
  predicate Safe(t: Target) {
    t.sdaOe ==> t.ph == ACK && t.selected
  }

  // The master makes a START or a STOP: it moves SDA while SCL is high, and the wire
  // follows because the target is not holding it.
  predicate MakesStart(b: Bus, e: Event) {
    e == Event.Sda(false) && b.scl && b.Sda()
  }

  predicate MakesStop(b: Bus, e: Event) {
    e == Event.Sda(true) && b.scl && !b.msda && !b.t.sdaOe
  }

  lemma StepSafe(b: Bus, e: Event)
    requires Safe(b.t)
    ensures var c := Step(b, e);
      && Safe(c.t)
      && (c.t.sdaOe != b.t.sdaOe ==> e == Scl(false) && b.scl)
      && c == Moves(b, e)
      && (c.t.tally.nStarts == b.t.tally.nStarts + (if MakesStart(b, e) then 1 else 0))
      && (c.t.tally.nStops == b.t.tally.nStops + (if MakesStop(b, e) then 1 else 0))
      && (c.scl && b.scl && c.Sda() != b.Sda() ==> c.msda != b.msda)
  {
  }

  // A line set to the level it has is no edge.
  lemma NoEdge(b: Bus)
    ensures Step(b, Scl(b.scl)) == b && Step(b, Event.Sda(b.msda)) == b
  {
  }

  function Starts(b: Bus, es: seq<Event>): nat
    decreases |es|
  {
    if es == [] then 0 else (if MakesStart(b, es[0]) then 1 else 0) + Starts(Step(b, es[0]), es[1..])
  }

  function Stops(b: Bus, es: seq<Event>): nat
    decreases |es|
  {
    if es == [] then 0 else (if MakesStop(b, es[0]) then 1 else 0) + Stops(Step(b, es[0]), es[1..])
  }

  // Main result: on every run whatsoever, the conditions the target counts are those
  // the master made, and its output is steady for as long as SCL does not fall.
  lemma {:induction false} BusSafety(b: Bus, es: seq<Event>)
    requires Safe(b.t)
    ensures var c := Run(b, es);
      && Safe(c.t)
      && c.t.tally.nStarts == b.t.tally.nStarts + Starts(b, es)
      && c.t.tally.nStops == b.t.tally.nStops + Stops(b, es)
      && (Scl(false) !in es ==> c.t.sdaOe == b.t.sdaOe)
    decreases |es|
  {
    if es != [] {
      StepSafe(b, es[0]);
      assert Scl(false) in es[1..] ==> Scl(false) in es;
      BusSafety(Step(b, es[0]), es[1..]);
    }
  }

  // ------------------------------------------------------------------
  // The printer
  // ------------------------------------------------------------------

  function BitWave(v: bool): seq<Event> {
    [Event.Sda(v), Scl(true), Scl(false)]
  }

  function BitsWave(bits: Bits): seq<Event> {
    if bits == [] then [] else BitWave(bits[0]) + BitsWave(bits[1..])
  }

  // Eight bits and a released ninth.
  function ByteWave(byte: Octet): seq<Event> {
    BitsWave(byte) + BitWave(true)
  }

  function BytesWave(bytes: seq<Octet>): seq<Event> {
    if bytes == [] then [] else ByteWave(bytes[0]) + BytesWave(bytes[1..])
  }

  // From an idle bus the first two moves change nothing; from a held clock they make
  // this a repeated START.
  const START_WAVE: seq<Event> := [Event.Sda(true), Scl(true), Event.Sda(false), Scl(false)]
  const STOP_WAVE: seq<Event> := [Event.Sda(false), Scl(true), Event.Sda(true)]

  // Whole bytes, then perhaps part of one that the master abandons, then a STOP or
  // (with `stop` clear) the next transaction's repeated START.
  type Partial = b: Bits | |b| < 8
  datatype Transaction = Transaction(addr: Octet, bytes: seq<Octet>, cut: Partial, stop: bool) {
    function Wave(): seq<Event> {
      START_WAVE + (ByteWave(addr) + (BytesWave(bytes) + (BitsWave(cut) + (if stop then STOP_WAVE else []))))
    }

    predicate Mine() {
      addr == SLAVE_ADDR
    }

    function Writes(): seq<Write> {
      if Mine() then Pairs(bytes) else []
    }
  }

  // Sub-address and data, over and over; a last sub-address without data writes nothing.
  function Pairs(bytes: seq<Octet>): seq<Write> {
    if |bytes| < 2 then [] else [(bytes[0], bytes[1])] + Pairs(bytes[2..])
  }

  function Waves(ts: seq<Transaction>): seq<Event> {
    if ts == [] then [] else ts[0].Wave() + Waves(ts[1..])
  }

  function AllWrites(ts: seq<Transaction>): seq<Write> {
    if ts == [] then [] else ts[0].Writes() + AllWrites(ts[1..])
  }

  function Foreign(ts: seq<Transaction>): nat {
    if ts == [] then 0 else (if ts[0].Mine() then 0 else 1) + Foreign(ts[1..])
  }

  function Stopped(ts: seq<Transaction>): nat {
    if ts == [] then 0 else (if ts[0].stop then 1 else 0) + Stopped(ts[1..])
  }

  // ------------------------------------------------------------------
  // Parsing what was printed
  // ------------------------------------------------------------------

  function Logged(y: Tally, ws: seq<Write>): Tally
    decreases |ws|
  {
    if ws == [] then y else Logged(Logged1(y, ws[0]), ws[1..])
  }

  // SCL low, waiting for the first bit of a byte.
  predicate AtByte(b: Bus) {
    !b.scl && Listening(b.t) && b.t.bitno == 0 && !b.t.sdaOe
  }

  lemma Run3(b: Bus, x: Event, y: Event, z: Event)
    ensures Run(b, [x, y, z]) == Step(Step(Step(b, x), y), z)
  {
    var bx := Step(b, x);
    assert [x, y, z][1..] == [y, z] && [y, z][1..] == [z];
    assert Run(bx, [y, z]) == Run(Step(bx, y), [z]);
  }

  lemma BitRun(b: Bus, v: bool)
    requires !b.scl && Listening(b.t) && !b.t.sdaOe && b.t.bitno < 7
    ensures Run(b, BitWave(v)) == Bus(false, v, b.t.(shift := ShiftIn(b.t.shift, v), bitno := b.t.bitno + 1))
  {
    Run3(b, Event.Sda(v), Scl(true), Scl(false));
  }

  lemma {:induction false} BitsRun(b: Bus, bits: Bits)
    requires !b.scl && Listening(b.t) && !b.t.sdaOe && b.t.bitno + |bits| < 8
    ensures var c := Run(b, BitsWave(bits));
      !c.scl && c.t == b.t.(shift := ShiftAll(b.t.shift, bits), bitno := b.t.bitno + |bits|)
    decreases |bits|
  {
    if bits == [] {
      assert ShiftAll(b.t.shift, bits) == b.t.shift;
    } else {
      var c := Run(b, BitWave(bits[0]));
      BitRun(b, bits[0]);
      RunConcat(b, BitWave(bits[0]), BitsWave(bits[1..]));
      BitsRun(c, bits[1..]);
      ShiftAllMore(b.t.shift, bits);
    }
  }

  // The eighth bit, with SCL still high after it: the byte is complete but not taken.
  // On the fall the target takes it, and answers only for its own address.
  lemma LastBitRun(b: Bus, v: bool)
    requires !b.scl && Listening(b.t) && !b.t.sdaOe && b.t.bitno == 7
    ensures var c, u := Run(b, BitWave(v)), Took(b.t.(shift := ShiftIn(b.t.shift, v), bitno := 8), ShiftIn(b.t.shift, v));
      !c.scl && c.t == u.(sdaOe := u.selected, ph := ACK, bitno := 0)
  {
    Run3(b, Event.Sda(v), Scl(true), Scl(false));
  }

  // The ninth clock: the wire reads low exactly when this target is selected, from
  // the moment the master lets go until SCL has fallen again.
  lemma AckRun(b: Bus)
    requires !b.scl && b.t.ph == ACK && b.t.sdaOe == b.t.selected
    ensures var high := Step(Step(b, Event.Sda(true)), Scl(true));
      high.scl && high.t == b.t && (high.Sda() <==> !b.t.selected)
    ensures var c := Run(b, BitWave(true));
      !c.scl && c.t == b.t.(sdaOe := false, shift := Zeros(8), ph := b.t.afterAck)
  {
    Run3(b, Event.Sda(true), Scl(true), Scl(false));
  }

  function Advance(t: Target, byte: Octet): (r: Target)
    requires Listening(t)
    ensures Listening(r) && r.tally.nStops == t.tally.nStops
  {
    var u := Took(t, byte);
    u.(ph := u.afterAck, shift := Zeros(8), bitno := 0)
  }

  // Eight bits bring the target to the acknowledgement.
  lemma OctetRun(b: Bus, byte: Octet)
    requires AtByte(b)
    ensures var c, u := Run(b, BitsWave(byte)), Took(b.t.(shift := byte, bitno := 8), byte);
      !c.scl && c.t == u.(sdaOe := u.selected, ph := ACK, bitno := 0)
  {
    var seven := byte[..7];
    assert byte == seven + [byte[7]];
    BitsWaveSnoc(seven, byte[7]);
    BitsRun(b, seven);
    LastBitRun(Run(b, BitsWave(seven)), byte[7]);
    RunConcat(b, BitsWave(seven), BitWave(byte[7]));
    ShiftAllStep(b.t.shift, seven, byte[7]);
  }

  lemma ByteRun(b: Bus, byte: Octet)
    requires AtByte(b)
    ensures var c := Run(b, ByteWave(byte)); AtByte(c) && c.t == Advance(b.t, byte)
  {
    OctetRun(b, byte);
    AckRun(Run(b, BitsWave(byte)));
    RunConcat(b, BitsWave(byte), BitWave(true));
  }

  // Whatever the master does while the ninth clock is high, it reads a zero exactly
  // when this target is selected -- after an address byte, when the address is ours.
  lemma Acknowledges(b: Bus, byte: Octet, held: seq<Event>)
    requires AtByte(b) && Scl(false) !in held
    ensures var high := Run(b, BitsWave(byte) + ([Event.Sda(true), Scl(true)] + held));
      && (high.t.sdaOe <==> Advance(b.t, byte).selected)
      && (held == [] ==> high.scl && (high.Sda() <==> !Advance(b.t, byte).selected))
    ensures b.t.ph == ADDR ==> (Advance(b.t, byte).selected <==> byte == SLAVE_ADDR)
  {
    OctetRun(b, byte);
    var c := Run(b, BitsWave(byte));
    AckRun(c);
    var two := [Event.Sda(true), Scl(true)];
    assert two + held == [two[0]] + ([two[1]] + held);
    RunConcat(b, BitsWave(byte), two + held);
    RunConcat(c, two, held);
    assert two[1..] == [two[1]] && [two[1]][1..] == [];
    assert Run(c, two) == Step(Step(c, two[0]), two[1]);
    BusSafety(Run(c, two), held);
  }

  lemma {:induction false} BitsWaveSnoc(bits: Bits, v: bool)
    ensures BitsWave(bits + [v]) == BitsWave(bits) + BitWave(v)
    decreases |bits|
  {
    if bits == [] {
      assert [v][1..] == [];
      assert bits + [v] == [v];
    } else {
      assert (bits + [v])[1..] == bits[1..] + [v];
      BitsWaveSnoc(bits[1..], v);
      assert (BitWave(bits[0]) + BitsWave(bits[1..])) + BitWave(v) == BitWave(bits[0]) + (BitsWave(bits[1..]) + BitWave(v));
    }
  }

  // Payload bytes: pairs are logged if this target is selected, the rest is not.
  lemma {:induction false} BytesRun(b: Bus, bytes: seq<Octet>)
    requires AtByte(b) && b.t.ph == SUB
    ensures var c := Run(b, BytesWave(bytes));
      AtByte(c) && c.t.tally == (if b.t.selected then Logged(b.t.tally, Pairs(bytes)) else b.t.tally)
    decreases |bytes|
  {
    if bytes != [] {
      var b1 := Run(b, ByteWave(bytes[0]));
      ByteRun(b, bytes[0]);
      RunConcat(b, ByteWave(bytes[0]), BytesWave(bytes[1..]));
      if |bytes| == 1 {
        assert bytes[1..] == [];
      } else {
        var b2 := Run(b1, ByteWave(bytes[1]));
        ByteRun(b1, bytes[1]);
        RunConcat(b1, ByteWave(bytes[1]), BytesWave(bytes[2..]));
        assert bytes[1..][1..] == bytes[2..];
        BytesRun(b2, bytes[2..]);
        assert Pairs(bytes)[1..] == Pairs(bytes[2..]);
      }
    }
  }

  // Between transactions: the bus is idle, or the master holds SCL low.
  predicate Between(b: Bus) {
    !b.t.sdaOe && (b.scl ==> b.msda)
  }

  lemma Released(b: Bus)
    requires Between(b)
    ensures var c := Step(Step(b, Event.Sda(true)), Scl(true));
      c.scl && c.msda && !c.t.sdaOe && c.t.tally == b.t.tally
  {
  }

  lemma Fallen(b: Bus)
    requires b.scl && b.msda && !b.t.sdaOe
    ensures var c := Step(Step(b, Event.Sda(false)), Scl(false));
      AtByte(c) && c.t.ph == ADDR && c.t.tally == b.t.tally.(nStarts := b.t.tally.nStarts + 1)
  {
  }

  lemma StartRun(b: Bus)
    requires Between(b)
    ensures var c := Run(b, START_WAVE);
      AtByte(c) && c.t.ph == ADDR && c.t.tally == b.t.tally.(nStarts := b.t.tally.nStarts + 1)
  {
    var w := START_WAVE;
    var high := Step(Step(b, w[0]), w[1]);
    Released(b);
    Fallen(high);
    Run3(Step(b, w[0]), w[1], w[2], w[3]);
    assert w[1..] == [w[1], w[2], w[3]];
  }

  lemma StopRun(b: Bus)
    requires !b.scl && !b.t.sdaOe
    ensures var c := Run(b, STOP_WAVE);
      Between(c) && c.t.tally == b.t.tally.(nStops := b.t.tally.nStops + 1)
  {
    Run3(b, Event.Sda(false), Scl(true), Event.Sda(true));
  }

  function Served(y: Tally, t: Transaction): Tally {
    var begun := y.(nStarts := y.nStarts + 1, badAddr := y.badAddr + (if t.Mine() then 0 else 1));
    var written := Logged(begun, t.Writes());
    written.(nStops := written.nStops + (if t.stop then 1 else 0))
  }

  // From after the whole bytes to the end of the transaction.
  lemma TailRun(b: Bus, t: Transaction)
    requires AtByte(b)
    ensures var c := Run(b, BitsWave(t.cut) + (if t.stop then STOP_WAVE else []));
      Between(c) && c.t.tally == b.t.tally.(nStops := b.t.tally.nStops + (if t.stop then 1 else 0))
  {
    var b1 := Run(b, BitsWave(t.cut));
    BitsRun(b, t.cut);
    RunConcat(b, BitsWave(t.cut), if t.stop then STOP_WAVE else []);
    if t.stop {
      StopRun(b1);
    }
  }

  lemma TransactionRun(b: Bus, t: Transaction)
    requires Between(b)
    ensures var c := Run(b, t.Wave()); Between(c) && c.t.tally == Served(b.t.tally, t)
  {
    hide Run, Step, ByteWave, BytesWave, BitsWave, Pairs;
    var tail := BitsWave(t.cut) + (if t.stop then STOP_WAVE else []);
    var b1 := Run(b, START_WAVE);
    StartRun(b);
    var b2 := Run(b1, ByteWave(t.addr));
    ByteRun(b1, t.addr);
    BytesRun(b2, t.bytes);
    TailRun(Run(b2, BytesWave(t.bytes)), t);
    RunConcat(b2, BytesWave(t.bytes), tail);
    RunConcat(b1, ByteWave(t.addr), BytesWave(t.bytes) + tail);
    RunConcat(b, START_WAVE, ByteWave(t.addr) + (BytesWave(t.bytes) + tail));
  }

  function ServedAll(y: Tally, ts: seq<Transaction>): Tally
    decreases |ts|
  {
    if ts == [] then y else ServedAll(Served(y, ts[0]), ts[1..])
  }

  // Main result, first half: the decoder run on the printed waveform of any list of
  // transactions is the list served one transaction at a time.
  lemma {:induction false} ParsesWhatWasPrinted(b: Bus, ts: seq<Transaction>)
    requires Between(b)
    ensures var c := Run(b, Waves(ts)); Between(c) && c.t.tally == ServedAll(b.t.tally, ts)
    decreases |ts|
  {
    if ts != [] {
      TransactionRun(b, ts[0]);
      RunConcat(b, ts[0].Wave(), Waves(ts[1..]));
      ParsesWhatWasPrinted(Run(b, ts[0].Wave()), ts[1..]);
    }
  }

  function First(n: nat, ws: seq<Write>): seq<Write> {
    if |ws| <= n then ws else ws[..n]
  }

  function Latest(regs: map<Octet, Octet>, ws: seq<Write>): map<Octet, Octet>
    decreases |ws|
  {
    if ws == [] then regs else Latest(regs[ws[0].0 := ws[0].1], ws[1..])
  }

  // `all` is every write made so far; the log keeps the first MAX_LOG.
  lemma {:induction false} LoggedIs(y: Tally, all: seq<Write>, ws: seq<Write>)
    requires y.log == First(MAX_LOG, all) && y.nWrites == |all|
    ensures Logged(y, ws) == y.(log := First(MAX_LOG, all + ws), nWrites := |all + ws|, regs := Latest(y.regs, ws))
    decreases |ws|
  {
    if ws == [] {
      assert all + ws == all;
    } else {
      var more := all + [ws[0]];
      assert more + ws[1..] == all + ws;
      assert Logged1(y, ws[0]).log == First(MAX_LOG, more);
      LoggedIs(Logged1(y, ws[0]), more, ws[1..]);
    }
  }

  lemma {:induction false} LatestConcat(regs: map<Octet, Octet>, a: seq<Write>, c: seq<Write>)
    ensures Latest(regs, a + c) == Latest(Latest(regs, a), c)
    decreases |a|
  {
    if a == [] {
      assert a + c == c;
    } else {
      assert (a + c)[1..] == a[1..] + c;
      LatestConcat(regs[a[0].0 := a[0].1], a[1..], c);
    }
  }

  lemma LatestNone(regs: map<Octet, Octet>)
    ensures Latest(regs, []) == regs
  {
  }

  lemma {:induction false} ServedAllIs(y: Tally, all: seq<Write>, ts: seq<Transaction>)
    requires y.log == First(MAX_LOG, all) && y.nWrites == |all|
    ensures var ws := AllWrites(ts);
      ServedAll(y, ts) == Tally(First(MAX_LOG, all + ws), |all + ws|, Latest(y.regs, ws),
                                y.nStarts + |ts|, y.nStops + Stopped(ts), y.badAddr + Foreign(ts))
    decreases |ts|
  {
    hide Logged, Pairs, Latest;
    if ts == [] {
      LatestNone(y.regs);
      assert all + AllWrites(ts) == all;
    } else {
      var ws := ts[0].Writes();
      var begun := y.(nStarts := y.nStarts + 1, badAddr := y.badAddr + (if ts[0].Mine() then 0 else 1));
      LoggedIs(begun, all, ws);
      ServedAllIs(Served(y, ts[0]), all + ws, ts[1..]);
      assert all + ws + AllWrites(ts[1..]) == all + AllWrites(ts);
      LatestConcat(y.regs, ws, AllWrites(ts[1..]));
    }
  }

  const POWER_UP: Target :=
    Target(IDLE, IDLE, Zeros(8), 0, Zeros(8), false, false, Tally([], 0, map[], 0, 0, 0))

  // Main result: from power-up, after the printed waveform of any list of
  // transactions, the log holds the first MAX_LOG of the pairs of the transactions
  // addressed to this target, in order; the count is exact; the table holds the last
  // value of each sub-address; and every START, STOP and foreign address is counted.
  lemma RoundTrip(ts: seq<Transaction>)
    ensures var y, ws := Run(Bus(true, true, POWER_UP), Waves(ts)).t.tally, AllWrites(ts);
      && y.log == First(MAX_LOG, ws)
      && y.nWrites == |ws|
      && y.regs == Latest(map[], ws)
      && (y.nStarts, y.nStops, y.badAddr) == (|ts|, Stopped(ts), Foreign(ts))
  {
    hide Run, Waves, ServedAll, AllWrites, Latest, Stopped, Foreign;
    ParsesWhatWasPrinted(Bus(true, true, POWER_UP), ts);
    ServedAllIs(POWER_UP.tally, [], ts);
    assert [] + AllWrites(ts) == AllWrites(ts);
  }

  // ------------------------------------------------------------------
  // A master that moves both lines at once
  // ------------------------------------------------------------------

  // A byte from a master that lets go of SDA for the acknowledgement on the same clock
  // as it takes SCL down after the eighth bit, as boards/DECA/deca_adv7513_init.sv does.
  datatype Sent = Sent(byte: Octet, sclFirst: bool) {
    function Wave(): seq<Event> {
      BitsWave(byte[..7]) + ([Event.Sda(byte[7]), Scl(true)] + (Both(false, true, sclFirst) + BitWave(true)))
    }

    // SDA rises, and is seen to before SCL falls.
    predicate Stops() {
      !sclFirst && !byte[7]
    }
  }

  function SentWave(bytes: seq<Sent>): seq<Event> {
    if bytes == [] then [] else bytes[0].Wave() + SentWave(bytes[1..])
  }

  function Bytes(bytes: seq<Sent>): (r: seq<Octet>)
    ensures |r| == |bytes|
  {
    if bytes == [] then [] else [bytes[0].byte] + Bytes(bytes[1..])
  }

  function FalseStops(bytes: seq<Sent>): nat {
    if bytes == [] then 0 else (if bytes[0].Stops() then 1 else 0) + FalseStops(bytes[1..])
  }

  datatype Burst = Burst(addr: Sent, bytes: seq<Sent>, cut: Partial, stop: bool) {
    function Wave(): seq<Event> {
      START_WAVE + (addr.Wave() + (SentWave(bytes) + (BitsWave(cut) + (if stop then STOP_WAVE else []))))
    }

    // What the master means.
    function Meant(): Transaction {
      Transaction(addr.byte, Bytes(bytes), cut, stop)
    }

    function Stops(): nat {
      (if addr.Stops() then 1 else 0) + FalseStops(bytes)
    }
  }

  // At a byte, or deaf until the next START.
  predicate Quiet(b: Bus) {
    !b.scl && !b.t.sdaOe && (AtByte(b) || b.t.ph == IDLE)
  }

  // A deaf target ignores bits.
  lemma {:induction false} DeafBits(b: Bus, bits: Bits)
    requires !b.scl && b.t.ph == IDLE && !b.t.sdaOe
    ensures var c := Run(b, BitsWave(bits)); !c.scl && c.t == b.t
    decreases |bits|
  {
    if bits != [] {
      var c := Run(b, BitWave(bits[0]));
      Run3(b, Event.Sda(bits[0]), Scl(true), Scl(false));
      RunConcat(b, BitWave(bits[0]), BitsWave(bits[1..]));
      DeafBits(c, bits[1..]);
    }
  }

  // The eighth bit and the joint move, from seven bits of a byte or from deafness: the
  // target takes the byte as if the lines had moved one by one, or sees a STOP.
  lemma LastTwo(b: Bus, s: Sent)
    requires !b.scl && !b.t.sdaOe && (b.t.ph == IDLE || (Listening(b.t) && b.t.bitno == 7))
    ensures var c := Run(Run(b, [Event.Sda(s.byte[7]), Scl(true)]), Both(false, true, s.sclFirst));
      && !c.scl
      && (s.Stops() ==> c.t.ph == IDLE && !c.t.sdaOe && c.t.tally == b.t.tally.(nStops := b.t.tally.nStops + 1))
      && (!s.Stops() ==> c.t == Run(b, BitWave(s.byte[7])).t)
  {
    var v := s.byte[7];
    var high := Step(Step(b, Event.Sda(v)), Scl(true));
    High(b, v);
    Run3(b, Event.Sda(v), Scl(true), Scl(false));
    Run2(b, Event.Sda(v), Scl(true));
    if s.sclFirst {
      Run2(high, Scl(false), Event.Sda(true));
    } else {
      Run2(high, Event.Sda(true), Scl(false));
    }
    hide Step, Run;
    Joint(high);
  }

  lemma High(b: Bus, v: bool)
    requires !b.scl && !b.t.sdaOe && (b.t.ph == IDLE || (Listening(b.t) && b.t.bitno == 7))
    ensures var high := Step(Step(b, Event.Sda(v)), Scl(true));
      high.scl && high.msda == v && !high.t.sdaOe && high.t.tally == b.t.tally
  {
  }

  // SCL falls and SDA rises, in either order.
  lemma Joint(b: Bus)
    requires b.scl && !b.t.sdaOe
    ensures var c := Step(Step(b, Scl(false)), Event.Sda(true)); !c.scl && c.t == Step(b, Scl(false)).t
    ensures var c := Step(Step(b, Event.Sda(true)), Scl(false));
      && !c.scl
      && (b.msda ==> c.t == Step(b, Scl(false)).t)
      && (!b.msda ==> c.t.ph == IDLE && !c.t.sdaOe && c.t.tally == b.t.tally.(nStops := b.t.tally.nStops + 1))
  {
    hide Took, Zeros;
  }

  lemma Run2(b: Bus, x: Event, y: Event)
    ensures Run(b, [x, y]) == Step(Step(b, x), y)
  {
    assert [x, y][1..] == [y];
    assert Run(Step(b, x), [y]) == Step(Step(b, x), y);
  }

  // The pieces of such a byte's waveform.
  lemma SentPieces(b: Bus, s: Sent)
    ensures var b7 := Run(b, BitsWave(s.byte[..7]));
      Run(b, s.Wave()) == Run(Run(Run(b7, [Event.Sda(s.byte[7]), Scl(true)]), Both(false, true, s.sclFirst)), BitWave(true))
  {
    hide Run, BitsWave, BitWave, Both;
    var two, both := [Event.Sda(s.byte[7]), Scl(true)], Both(false, true, s.sclFirst);
    var b7 := Run(b, BitsWave(s.byte[..7]));
    RunConcat(b, BitsWave(s.byte[..7]), two + (both + BitWave(true)));
    RunConcat(b7, two, both + BitWave(true));
    RunConcat(Run(b7, two), both, BitWave(true));
  }

  // Seven bits of it.
  lemma SentHead(b: Bus, s: Sent)
    requires Quiet(b)
    ensures var b7, v := Run(b, BitsWave(s.byte[..7])), s.byte[7];
      && !b7.scl && !b7.t.sdaOe && b7.t.tally == b.t.tally
      && (b.t.ph == IDLE ==> b7.t.ph == IDLE && Run(b7, BitWave(v)).t == b.t)
      && (b.t.ph != IDLE ==> Listening(b7.t) && b7.t.bitno == 7)
  {
    hide Run, Step, BitWave, BitsWave;
    if b.t.ph == IDLE {
      DeafBits(b, s.byte[..7]);
      DeafBits(Run(b, BitsWave(s.byte[..7])), [s.byte[7]]);
      OneBit(s.byte[7]);
    } else {
      SevenBits(b, s.byte);
    }
  }

  // The ninth clock of it, if the byte was taken.
  lemma SentTail(b: Bus, c: Bus, byte: Octet)
    requires AtByte(b) && !c.scl
    requires var u := Took(b.t.(shift := byte, bitno := 8), byte); c.t == u.(sdaOe := u.selected, ph := ACK, bitno := 0)
    ensures var d := Run(c, BitWave(true)); AtByte(d) && d.t == Advance(b.t, byte)
  {
    AckRun(c);
    hide Run, Step, BitWave;
  }

  lemma DeafTail(c: Bus)
    requires !c.scl && c.t.ph == IDLE && !c.t.sdaOe
    ensures var d := Run(c, BitWave(true)); !d.scl && d.t == c.t
  {
    hide Run, Step, BitWave, BitsWave;
    DeafBits(c, [true]);
    OneBit(true);
  }

  // Such a byte is a byte like any other, or a STOP.
  lemma SentRun(b: Bus, s: Sent)
    requires Quiet(b)
    ensures var c := Run(b, s.Wave());
      && Quiet(c) && c.t.tally.nStops == b.t.tally.nStops + (if s.Stops() then 1 else 0)
      && (!s.Stops() && AtByte(b) ==> AtByte(c) && c.t == Advance(b.t, s.byte))
  {
    hide Run, Step, BitsWave, BitWave, Both, Took, Advance, Sent.Stops, Sent.Wave;
    var b7 := Run(b, BitsWave(s.byte[..7]));
    var c8 := Run(Run(b7, [Event.Sda(s.byte[7]), Scl(true)]), Both(false, true, s.sclFirst));
    SentPieces(b, s);
    SentHead(b, s);
    LastTwo(b7, s);
    if s.Stops() || b.t.ph == IDLE {
      DeafTail(c8);
    } else {
      SevenBits(b, s.byte);
      SentTail(b, c8, s.byte);
    }
  }

  lemma OneBit(v: bool)
    ensures BitsWave([v]) == BitWave(v)
  {
    assert [v][1..] == [];
  }

  lemma SevenBits(b: Bus, byte: Octet)
    requires AtByte(b)
    ensures var b7, u := Run(b, BitsWave(byte[..7])), Took(b.t.(shift := byte, bitno := 8), byte);
      && !b7.scl && !b7.t.sdaOe && Listening(b7.t) && b7.t.bitno == 7 && b7.t.tally == b.t.tally
      && Run(b7, BitWave(byte[7])).t == u.(sdaOe := u.selected, ph := ACK, bitno := 0)
  {
    var seven := byte[..7];
    assert byte == seven + [byte[7]];
    BitsRun(b, seven);
    BitsWaveSnoc(seven, byte[7]);
    RunConcat(b, BitsWave(seven), BitWave(byte[7]));
    OctetRun(b, byte);
  }

  function AdvanceAll(t: Target, bytes: seq<Octet>): Target
    requires Listening(t)
    decreases |bytes|
  {
    if bytes == [] then t else AdvanceAll(Advance(t, bytes[0]), bytes[1..])
  }

  lemma {:induction false} AdvancesAll(b: Bus, bytes: seq<Octet>)
    requires AtByte(b)
    ensures Run(b, BytesWave(bytes)).t == AdvanceAll(b.t, bytes)
    decreases |bytes|
  {
    if bytes != [] {
      hide Advance, ByteWave, Step;
      ByteRun(b, bytes[0]);
      RunConcat(b, ByteWave(bytes[0]), BytesWave(bytes[1..]));
      AdvancesAll(Run(b, ByteWave(bytes[0])), bytes[1..]);
    }
  }

  // Payload bytes: the STOPs the target sees; and with none, what it makes of them.
  lemma {:induction false} SentBytesRun(b: Bus, bytes: seq<Sent>)
    requires Quiet(b)
    ensures var c := Run(b, SentWave(bytes));
      && Quiet(c) && c.t.tally.nStops == b.t.tally.nStops + FalseStops(bytes)
      && (FalseStops(bytes) == 0 && AtByte(b) ==> AtByte(c) && c.t == AdvanceAll(b.t, Bytes(bytes)))
    decreases |bytes|
  {
    if bytes != [] {
      hide Quiet, Advance, Step, Sent.Wave, Sent.Stops;
      SentRun(b, bytes[0]);
      RunConcat(b, bytes[0].Wave(), SentWave(bytes[1..]));
      SentBytesRun(Run(b, bytes[0].Wave()), bytes[1..]);
    }
  }

  // From after the whole bytes to the end.
  lemma QuietTail(b: Bus, t: Transaction)
    requires Quiet(b)
    ensures var c := Run(b, BitsWave(t.cut) + (if t.stop then STOP_WAVE else []));
      && Between(c) && c.t.tally == b.t.tally.(nStops := b.t.tally.nStops + (if t.stop then 1 else 0))
  {
    hide Step, BitsWave;
    if b.t.ph == IDLE {
      var b1 := Run(b, BitsWave(t.cut));
      DeafBits(b, t.cut);
      RunConcat(b, BitsWave(t.cut), if t.stop then STOP_WAVE else []);
      if t.stop {
        StopRun(b1);
      }
    } else {
      TailRun(b, t);
    }
  }

  lemma BurstRun(b: Bus, w: Burst)
    requires Between(b)
    ensures var c := Run(b, w.Wave());
      && Between(c) && c.t.tally.nStops == b.t.tally.nStops + w.Stops() + (if w.stop then 1 else 0)
      && (w.Stops() == 0 ==> c.t.tally == Served(b.t.tally, w.Meant()))
  {
    hide Run, Step, ByteWave, BytesWave, BitsWave, Pairs, SentWave, Bytes, FalseStops, AdvanceAll, Sent.Wave, Sent.Stops;
    var t := w.Meant();
    var tail := BitsWave(w.cut) + (if w.stop then STOP_WAVE else []);
    var b1 := Run(b, START_WAVE);
    var b2 := Run(b1, w.addr.Wave());
    var b3 := Run(b2, SentWave(w.bytes));
    StartRun(b);
    SentRun(b1, w.addr);
    SentBytesRun(b2, w.bytes);
    QuietTail(b3, t);
    RunConcat(b2, SentWave(w.bytes), tail);
    RunConcat(b1, w.addr.Wave(), SentWave(w.bytes) + tail);
    RunConcat(b, START_WAVE, w.addr.Wave() + (SentWave(w.bytes) + tail));
    if w.Stops() == 0 {
      AdvancesAll(b2, t.bytes);
      BytesRun(b2, t.bytes);
    }
  }

  function BurstWaves(ws: seq<Burst>): seq<Event> {
    if ws == [] then [] else ws[0].Wave() + BurstWaves(ws[1..])
  }

  function AllMeant(ws: seq<Burst>): seq<Transaction> {
    if ws == [] then [] else [ws[0].Meant()] + AllMeant(ws[1..])
  }

  function AllStops(ws: seq<Burst>): nat {
    if ws == [] then 0 else ws[0].Stops() + AllStops(ws[1..])
  }

  lemma {:induction false} BurstsRun(b: Bus, ws: seq<Burst>)
    requires Between(b)
    ensures var c, ts := Run(b, BurstWaves(ws)), AllMeant(ws);
      && c.t.tally.nStops == b.t.tally.nStops + AllStops(ws) + Stopped(ts)
      && (AllStops(ws) == 0 ==> c.t.tally == ServedAll(b.t.tally, ts))
    decreases |ws|
  {
    if ws != [] {
      hide Burst.Wave, Burst.Meant, Burst.Stops, Served, Between, Step;
      BurstRun(b, ws[0]);
      RunConcat(b, ws[0].Wave(), BurstWaves(ws[1..]));
      BurstsRun(Run(b, ws[0].Wave()), ws[1..]);
      MeantStop(ws[0]);
    }
  }

  lemma MeantStop(w: Burst)
    ensures w.Meant().stop == w.stop
  {
  }

  // Main result, both ways: from power-up, what a master that moves both lines at once
  // says is taken as it was meant if and only if no byte of it that ends in a zero has
  // its SDA edge delivered first; each one that has is counted as a STOP.
  lemma TogetherExactly(ws: seq<Burst>)
    ensures var b, ts := Bus(true, true, POWER_UP), AllMeant(ws); var y := Run(b, BurstWaves(ws)).t.tally;
      && y.nStops == Stopped(ts) + AllStops(ws)
      && (y == Run(b, Waves(ts)).t.tally <==> AllStops(ws) == 0)
  {
    hide Run, Waves, BurstWaves, AllMeant, ServedAll, AllWrites, Latest, Stopped, Foreign, AllStops;
    var b, ts := Bus(true, true, POWER_UP), AllMeant(ws);
    BurstsRun(b, ws);
    ParsesWhatWasPrinted(b, ts);
    RoundTrip(ts);
  }

  // ------------------------------------------------------------------
  // The module itself
  // ------------------------------------------------------------------

  class TargetModel {
    const logQ: array<Write>
    var nWrites: nat
    var regs: map<Octet, Octet>
    var nStarts: nat
    var nStops: nat
    var badAddr: nat
    var ph: Phase
    var afterAck: Phase
    var shift: Octet
    var bitno: nat
    var curSub: Octet
    var selected: bool
    var sdaOe: bool

    ghost predicate Valid()
      reads this
    {
      logQ.Length == MAX_LOG
    }

    // The part of the log that has been written.
    function Kept(): nat
      reads this
    {
      if nWrites < MAX_LOG then nWrites else MAX_LOG
    }

    ghost function State(): Target
      requires Valid()
      reads this, logQ
    {
      Target(ph, afterAck, shift, bitno, curSub, selected, sdaOe,
             Tally(logQ[..Kept()], nWrites, regs, nStarts, nStops, badAddr))
    }

    constructor ()
      ensures Valid() && fresh(logQ) && State() == POWER_UP
    {
      logQ := new Write[MAX_LOG](_ => (Zeros(8), Zeros(8)));
      ph, afterAck, shift, bitno, curSub := IDLE, IDLE, Zeros(8), 0, Zeros(8);
      selected, sdaOe := false, false;
      nWrites, regs, nStarts, nStops, badAddr := 0, map[], 0, 0, 0;
    }

    method SdaFell(scl: bool)
      requires Valid()
      modifies this
      ensures Valid() && State() == (if scl then OnStart(old(State())) else old(State()))
    {
      if scl {
        nStarts := nStarts + 1;
        ph, bitno, shift, selected, sdaOe := ADDR, 0, Zeros(8), false, false;
      }
    }

    method SdaRose(scl: bool)
      requires Valid()
      modifies this
      ensures Valid() && State() == (if scl then OnStop(old(State())) else old(State()))
    {
      if scl {
        nStops := nStops + 1;
        ph, sdaOe := IDLE, false;
      }
    }

    method SclRose(sda: bool)
      requires Valid()
      modifies this
      ensures Valid() && State() == OnRise(old(State()), sda)
    {
      if ph == ADDR || ph == SUB || ph == DATA {
        shift := ShiftIn(shift, sda);
        bitno := bitno + 1;
      }
    }

    // The DATA case of the eighth bit.
    method Record()
      requires Valid()
      modifies this, logQ
      ensures Valid()
      ensures State() == old(State()).(tally := Logged1(old(State()).tally, (curSub, shift)))
    {
      regs := regs[curSub := shift];
      if nWrites < MAX_LOG {
        logQ[nWrites] := (curSub, shift);
      }
      nWrites := nWrites + 1;
    }

    method SclFell()
      requires Valid()
      modifies this, logQ
      ensures Valid() && State() == OnFall(old(State()))
    {
      hide Logged1, Zeros;
      if ph == ACK {
        sdaOe, shift, ph := false, Zeros(8), afterAck;
      } else if ph != IDLE && bitno == 8 {
        if ph == ADDR {
          selected := shift == SLAVE_ADDR;
          if !selected {
            badAddr := badAddr + 1;
          }
          afterAck := SUB;
        } else if ph == SUB {
          curSub := shift;
          afterAck := DATA;
        } else {
          if selected {
            Record();
          }
          afterAck := SUB;
        }
        sdaOe, ph, bitno := selected, ACK, 0;
      }
    }

    // One move of the master, as the simulator's edge detection delivers it.  No second
    // reaction is needed: the model's own output never moves SDA while SCL is high.
    method Deliver(scl: bool, msda: bool, e: Event) returns (nowScl: bool, nowMsda: bool)
      requires Valid() && Safe(State())
      modifies this, logQ
      ensures Valid() && Bus(nowScl, nowMsda, State()) == Step(Bus(scl, msda, old(State())), e) && Safe(State())
    {
      hide OnFall, OnRise, OnStart, OnStop;
      nowScl, nowMsda := scl, msda;
      StepSafe(Bus(scl, msda, State()), e);
      match e
      case Sda(v) =>
        nowMsda := v;
        var before, after := msda && !sdaOe, v && !sdaOe;
        if before && !after {
          SdaFell(scl);
        } else if !before && after {
          SdaRose(scl);
        }
      case Scl(v) =>
        nowScl := v;
        if v && !scl {
          SclRose(msda && !sdaOe);
        } else if !v && scl {
          SclFell();
        }
    }
  }
}
