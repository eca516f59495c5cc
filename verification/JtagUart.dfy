// The Avalon slave of tb/jtag_uart_model.sv: a two-cycle handshake in front of two
// FIFOs, with the counters compared against the true history of every run -- including
// the edges on which two non-blocking assignments meet and the later one wins.
module JtagUart {
  import opened Buffers
  import opened Division

  type Depth = n: nat | 1 <= n witness 1

  // The parameters, left open.
  const WDEPTH: Depth
  const RDEPTH: Depth

  datatype Uart = Uart(waitrequest: bool, readdata: nat, wcount: nat, rfifo: seq<Byte>,
                       rhead: nat, rtail: nat, rcount: nat, hostRxData: Byte, hostRxValid: bool)

  // One clock's inputs.  `rd` and `wr` are the strobes made positive; `control` is the
  // address bit.
  datatype In = In(cs: bool, rd: bool, wr: bool, control: bool, data: Byte,
                   push: bool, pushData: Byte, drain: bool)

  predicate Shaped(u: Uart) {
    |u.rfifo| == RDEPTH && u.rhead < RDEPTH && u.rtail < RDEPTH && u.rcount <= RDEPTH && u.wcount <= WDEPTH
  }

  // The ring's place for the n-th byte.
  function Slot(n: nat): (k: nat)
    ensures k < RDEPTH
  {
    n % RDEPTH
  }

  // What happens on an edge, each read from the state before it.
  predicate Transfers(u: Uart, i: In) {
    i.cs && u.waitrequest && (i.rd || i.wr)
  }

  predicate Pushes(u: Uart, i: In) {
    i.push && u.rcount < RDEPTH
  }

  predicate Pops(u: Uart, i: In) {
    i.cs && u.waitrequest && i.rd && !i.control && u.rcount != 0
  }

  predicate Sends(u: Uart, i: In) {
    i.cs && u.waitrequest && i.wr && !i.control && u.wcount < WDEPTH
  }

  predicate Drains(u: Uart, i: In) {
    i.drain && u.wcount > 0
  }

  // WSPACE is a seven-bit difference.
  function Wspace(u: Uart): nat {
    (WDEPTH % 128 - u.wcount % 128) % 128
  }

  const RVALID := 0x8000

  function Data(u: Uart): nat
    requires Shaped(u)
  {
    if u.rcount != 0 then RVALID + u.rfifo[u.rtail] else 0
  }

  function Control(u: Uart): nat {
    Wspace(u) * 0x1_0000 + (if u.rcount != 0 then RVALID else 0)
  }

  // One rising edge out of reset.  In each of rcount and wcount two assignments can
  // meet, and the one written later in the block is the one that counts.
  function Step(u: Uart, i: In): (r: Uart)
    requires Shaped(u)
    ensures Shaped(r)
  {
    u.(waitrequest := !(i.cs && (i.rd || i.wr) && u.waitrequest),
       readdata := if i.cs && u.waitrequest && i.rd then (if i.control then Control(u) else Data(u)) else u.readdata,
       rfifo := if Pushes(u, i) then u.rfifo[u.rhead := i.pushData] else u.rfifo,
       rhead := if Pushes(u, i) then Slot(u.rhead + 1) else u.rhead,
       rtail := if Pops(u, i) then Slot(u.rtail + 1) else u.rtail,
       rcount := if Pops(u, i) then u.rcount - 1 else if Pushes(u, i) then u.rcount + 1 else u.rcount,
       wcount := if Sends(u, i) then u.wcount + 1 else if Drains(u, i) then u.wcount - 1 else u.wcount,
       hostRxData := if Sends(u, i) then i.data else u.hostRxData,
       hostRxValid := Sends(u, i))
  }

  predicate AfterReset(u: Uart) {
    |u.rfifo| == RDEPTH && u.waitrequest && !u.hostRxValid
    && (u.wcount, u.rhead, u.rtail, u.rcount, u.readdata) == (0, 0, 0, 0, 0)
  }

  // ------------------------------------------------------------------
  // History: what both ends of the two FIFOs saw
  // ------------------------------------------------------------------

  // `read` is what the master got from DATA with RVALID set.  `origin` says of each slot
  // which pushed byte it holds; `taken` and `seen` say of each read which pushed byte it
  // returned and how many had been pushed by then.  `met` and `wmet` count the edges on
  // which the two assignments to rcount and to wcount met.
  datatype History = History(pushed: seq<Byte>, origin: seq<nat>, read: seq<Byte>, taken: seq<nat>, seen: seq<nat>,
                             met: nat, sent: seq<Byte>, drained: nat, wmet: nat, transfers: nat, edges: nat)

  const NOTHING := History([], Repeat(0, RDEPTH), [], [], [], 0, [], 0, 0, 0, 0)

  datatype Trace = Trace(u: Uart, h: History)

  predicate Followed(t: Trace) {
    Shaped(t.u) && |t.h.origin| == RDEPTH
  }

  function Record(t: Trace, i: In): (r: History)
    requires Followed(t)
    ensures |r.origin| == RDEPTH
  {
    var u, h, v := t.u, t.h, Step(t.u, i);
    History(if Pushes(u, i) then h.pushed + [i.pushData] else h.pushed,
            if Pushes(u, i) then h.origin[u.rhead := |h.pushed|] else h.origin,
            if Pops(u, i) then h.read + [v.readdata % 256] else h.read,
            if Pops(u, i) then h.taken + [h.origin[u.rtail]] else h.taken,
            if Pops(u, i) then h.seen + [|h.pushed|] else h.seen,
            h.met + (if Pops(u, i) && Pushes(u, i) then 1 else 0),
            if v.hostRxValid then h.sent + [v.hostRxData] else h.sent,
            h.drained + (if Drains(u, i) then 1 else 0),
            h.wmet + (if Sends(u, i) && Drains(u, i) then 1 else 0),
            h.transfers + (if Transfers(u, i) then 1 else 0),
            h.edges + 1)
  }

  function Edge(t: Trace, i: In): (r: Trace)
    requires Followed(t)
    ensures Followed(r)
  {
    Trace(Step(t.u, i), Record(t, i))
  }

  function Run(t: Trace, ins: seq<In>): (r: Trace)
    requires Followed(t)
    ensures Followed(r)
    decreases |ins|
  {
    if ins == [] then t else Run(Edge(t, ins[0]), ins[1..])
  }

  // ------------------------------------------------------------------
  // The counters, on every run
  // ------------------------------------------------------------------

  predicate Counted(t: Trace) {
    RingCounted(t) && SendCounted(t)
  }

  predicate RingCounted(t: Trace) {
    var u, h := t.u, t.h;
    |h.pushed| - |h.read| == u.rcount + h.met && u.rhead == Slot(|h.pushed|) && u.rtail == Slot(|h.read|)
  }

  predicate SendCounted(t: Trace) {
    var u, h := t.u, t.h;
    |h.sent| - h.drained == u.wcount - h.wmet && 2 * h.transfers <= h.edges + (if u.waitrequest then 0 else 1)
  }

  lemma StepCounted(t: Trace, i: In)
    requires Followed(t) && Counted(t)
    ensures Counted(Edge(t, i))
  {
    StepRing(t, i);
    StepSend(t, i);
    hide Edge, RingCounted, SendCounted;
  }

  lemma StepRing(t: Trace, i: In)
    requires Followed(t) && RingCounted(t)
    ensures RingCounted(Edge(t, i))
  {
    hide Slot, Data, Control, Wspace, Sends, Drains;
    NextSlot(|t.h.pushed|);
    NextSlot(|t.h.read|);
  }

  lemma StepSend(t: Trace, i: In)
    requires Followed(t) && SendCounted(t)
    ensures SendCounted(Edge(t, i))
  {
    hide Slot, Data, Control, Wspace, Pushes, Pops;
  }

  lemma NextSlot(n: nat)
    ensures Slot(Slot(n) + 1) == Slot(n + 1)
  {
    Successor(n, RDEPTH);
  }

  // Main result: on every run from reset, rcount is the number of bytes the host put in
  // and the master has not taken, less one for every edge on which a push met a pop; so
  // it is right exactly when none has.  wcount drifts the other way.
  lemma {:induction false} Drift(t: Trace, ins: seq<In>)
    requires Followed(t) && Counted(t)
    ensures Counted(Run(t, ins))
    decreases |ins|
  {
    if ins != [] {
      StepCounted(t, ins[0]);
      Drift(Edge(t, ins[0]), ins[1..]);
    }
  }

  lemma FromReset(u: Uart, ins: seq<In>)
    requires AfterReset(u)
    ensures var t := Run(Trace(u, NOTHING), ins); var waiting := |t.h.pushed| - |t.h.read|;
      && t.u.rcount == waiting - t.h.met
      && (t.u.rcount == waiting <==> t.h.met == 0)
      && t.u.wcount == |t.h.sent| - t.h.drained + t.h.wmet
      && 2 * t.h.transfers <= t.h.edges + 1
  {
    Drift(Trace(u, NOTHING), ins);
    var t := Run(Trace(u, NOTHING), ins);
  }

  // The room the host-bound FIFO has by what was sent and drained.
  function Free(h: History): int {
    WDEPTH - (|h.sent| - h.drained)
  }

  lemma WspaceOf(u: Uart)
    requires Shaped(u)
    ensures Wspace(u) == (WDEPTH - u.wcount) % 128 <= WDEPTH - u.wcount
  {
    SevenBits(WDEPTH, u.wcount);
  }

  // Main result, both ways: on every run from reset WSPACE is the free space if and only
  // if no edge has both sent and drained and seven bits can hold it.
  lemma WspaceIs(u: Uart, ins: seq<In>)
    requires AfterReset(u)
    ensures var t := Run(Trace(u, NOTHING), ins);
      && Wspace(t.u) == (Free(t.h) - t.h.wmet) % 128
      && (Wspace(t.u) == Free(t.h) <==> t.h.wmet == 0 && Free(t.h) < 128)
  {
    hide Wspace, Run;
    FromReset(u, ins);
    WspaceOf(Run(Trace(u, NOTHING), ins).u);
  }

  lemma SevenBits(a: nat, b: nat)
    requires b <= a
    ensures (a % 128 - b % 128) % 128 == (a - b) % 128
  {
    var k := a / 128 - b / 128;
    assert a - b == 128 * k + (a % 128 - b % 128);
  }

  // ------------------------------------------------------------------
  // The bytes, in order
  // ------------------------------------------------------------------

  lemma SlotsDiffer(a: nat, b: nat)
    requires a < b < a + RDEPTH
    ensures Slot(a) != Slot(b)
  {
    var m := RDEPTH;
    if a % m == b % m {
      assert b - a == m * (b / m) - m * (a / m) == m * (b / m - a / m);
      Multiple(b / m - a / m, m);
    }
  }

  // The last of the first p bytes to go into the slot of byte r.
  function Survivor(r: nat, p: nat): nat
    requires r < p
  {
    r + RDEPTH * ((p - 1 - r) / RDEPTH)
  }

  lemma SurvivorIs(r: nat, p: nat)
    requires r < p
    ensures r <= Survivor(r, p) < p <= Survivor(r, p) + RDEPTH
    ensures Slot(Survivor(r, p)) == Slot(r)
    ensures Survivor(r, p) == r <==> p - r <= RDEPTH
  {
    var q := (p - 1 - r) / RDEPTH;
    assert p - 1 - r == RDEPTH * q + (p - 1 - r) % RDEPTH;
    Multiple(q, RDEPTH);
    assert RDEPTH * (r / RDEPTH + q) == RDEPTH * (r / RDEPTH) + RDEPTH * q;
    Unique(Survivor(r, p), RDEPTH, r / RDEPTH + q, r % RDEPTH);
  }

  // The ring holds the last RDEPTH bytes pushed, whatever has become of rcount.
  predicate Latest(ring: seq<Byte>, origin: seq<nat>, pushed: seq<Byte>)
    requires |ring| == |origin| == RDEPTH
  {
    forall j: nat :: |pushed| - RDEPTH <= j < |pushed| ==> ring[Slot(j)] == pushed[j] && origin[Slot(j)] == j
  }

  predicate Slots(t: Trace)
    requires Followed(t)
  {
    Latest(t.u.rfifo, t.h.origin, t.h.pushed)
  }

  lemma LatestPush(ring: seq<Byte>, origin: seq<nat>, pushed: seq<Byte>, x: Byte)
    requires |ring| == |origin| == RDEPTH && Latest(ring, origin, pushed)
    ensures var m := |pushed|; Latest(ring[Slot(m) := x], origin[Slot(m) := m], pushed + [x])
  {
    hide Slot;
    var m := |pushed|;
    forall j: nat | m + 1 - RDEPTH <= j < m
      ensures Slot(j) != Slot(m)
    {
      SlotsDiffer(j, m);
    }
  }

  lemma StepSlots(t: Trace, i: In)
    requires Followed(t) && Counted(t) && Slots(t)
    ensures Slots(Edge(t, i))
  {
    LatestPush(t.u.rfifo, t.h.origin, t.h.pushed, i.pushData);
    hide Latest, Slot;
  }

  // Read r returned the byte in its slot, which is byte r unless more than RDEPTH were
  // waiting; and only met edges can bring that about.
  predicate Accounted(h: History) {
    && |h.taken| == |h.seen| == |h.read|
    && forall r :: 0 <= r < |h.read| ==>
         && r < h.seen[r] <= |h.pushed| && h.seen[r] - r <= RDEPTH + h.met
         && h.taken[r] == Survivor(r, h.seen[r]) < |h.pushed|
         && h.read[r] == h.pushed[h.taken[r]]
  }

  lemma Popped(t: Trace, i: In)
    requires Followed(t) && Counted(t) && Slots(t) && Pops(t.u, i)
    ensures var r, p := |t.h.read|, |t.h.pushed|;
      && r < p <= r + RDEPTH + t.h.met
      && t.h.origin[t.u.rtail] == Survivor(r, p) < p
      && Step(t.u, i).readdata % 256 == t.h.pushed[Survivor(r, p)]
  {
    hide Survivor, Slot;
    SurvivorIs(|t.h.read|, |t.h.pushed|);
    LowByte(t.u.rfifo[t.u.rtail]);
  }

  lemma LowByte(b: Byte)
    ensures (RVALID + b) % 256 == b
  {
  }

  lemma StepAccounted(t: Trace, i: In)
    requires Followed(t) && Counted(t) && Slots(t) && Accounted(t.h)
    ensures Accounted(Edge(t, i).h)
  {
    if Pops(t.u, i) {
      Popped(t, i);
    }
    hide Survivor, Slot, Slots, Counted, Pops, Pushes, Step;
  }

  lemma {:induction false} RunAccounted(t: Trace, ins: seq<In>)
    requires Followed(t) && Counted(t) && Slots(t) && Accounted(t.h)
    ensures Counted(Run(t, ins)) && Slots(Run(t, ins)) && Accounted(Run(t, ins).h)
    decreases |ins|
  {
    if ins != [] {
      StepCounted(t, ins[0]);
      StepSlots(t, ins[0]);
      StepAccounted(t, ins[0]);
      RunAccounted(Edge(t, ins[0]), ins[1..]);
    }
  }

  // The reads returned bytes 0, 1, 2 and so on of those the host pushed.
  predicate InTurn(h: History) {
    forall r :: 0 <= r < |h.taken| ==> h.taken[r] == r
  }

  // At no read were more bytes waiting than the ring has slots.
  predicate NeverOverrun(h: History) {
    forall r :: 0 <= r < |h.seen| ==> h.seen[r] - r <= RDEPTH
  }

  // Main result, both ways: on every run from reset, read r returns the last byte pushed
  // into its slot; and the reads return the host's bytes in order, each once, if and only
  // if no read found more than RDEPTH of them waiting.
  lemma InOrder(u: Uart, ins: seq<In>)
    requires AfterReset(u)
    ensures var h := Run(Trace(u, NOTHING), ins).h;
      && Accounted(h)
      && (InTurn(h) <==> NeverOverrun(h))
      && (InTurn(h) ==> h.read <= h.pushed)
  {
    RunAccounted(Trace(u, NOTHING), ins);
    var h := Run(Trace(u, NOTHING), ins).h;
    forall r | 0 <= r < |h.read|
      ensures h.taken[r] == r <==> h.seen[r] - r <= RDEPTH
    {
      SurvivorIs(r, h.seen[r]);
    }
    if InTurn(h) {
      TakenOnce(h);
    }
  }

  lemma TakenOnce(h: History)
    requires Accounted(h) && InTurn(h)
    ensures h.read <= h.pushed
  {
    assert forall r :: 0 <= r < |h.read| ==> h.taken[r] == r && h.read[r] == h.pushed[r];
    if |h.read| > 0 {
      assert h.taken[|h.read| - 1] == |h.read| - 1;
    }
  }

  // Main result: on every run from reset on which no push met a pop, the machine-bound
  // FIFO is a queue of at most RDEPTH bytes: reads return the host's bytes in order, and
  // rcount is the distance from the read pointer to the write pointer, zero or RDEPTH
  // when they are equal.
  lemma Queue(u: Uart, ins: seq<In>)
    requires AfterReset(u) && Run(Trace(u, NOTHING), ins).h.met == 0
    ensures var t := Run(Trace(u, NOTHING), ins); var d := (t.u.rhead - t.u.rtail) % RDEPTH;
      && InTurn(t.h) && t.h.read <= t.h.pushed
      && t.u.rcount == |t.h.pushed| - |t.h.read|
      && (t.u.rcount == d || (d == 0 && t.u.rcount == RDEPTH))
  {
    InOrder(u, ins);
    Drift(Trace(u, NOTHING), ins);
    var t := Run(Trace(u, NOTHING), ins);
    hide Run, Survivor, Accounted;
    PointerDistance(|t.h.pushed|, |t.h.read|, RDEPTH);
  }

  lemma PointerDistance(a: nat, b: nat, m: Depth)
    requires b <= a <= b + m
    ensures (a % m - b % m) % m == (if a - b == m then 0 else a - b)
  {
    var k := b / m - a / m;
    assert a == m * (a / m) + a % m && b == m * (b / m) + b % m;
    assert m * k == m * (b / m) - m * (a / m);
    if a - b == m {
      assert m * (k + 1) == m * k + m;
      Unique(a % m - b % m, m, k + 1, 0);
    } else {
      Unique(a % m - b % m, m, k, a - b);
    }
  }

  // ------------------------------------------------------------------
  // The failing runs
  // ------------------------------------------------------------------

  const PUSH := In(false, false, false, false, 0, true, 0, false)
  const READ := In(true, true, false, false, 0, false, 0, false)
  const BOTH := In(true, true, false, false, 0, true, 0, false)
  const REST := In(false, false, false, false, 0, false, 0, false)

  lemma {:induction false} RunConcat(t: Trace, a: seq<In>, b: seq<In>)
    requires Followed(t)
    ensures Run(t, a + b) == Run(Run(t, a), b)
    decreases |a|
  {
    if a == [] {
      assert a + b == b;
    } else {
      assert (a + b)[0] == a[0] && (a + b)[1..] == a[1..] + b;
      RunConcat(Edge(t, a[0]), a[1..], b);
    }
  }

  // The host fills the ring as far as rcount lets it.
  lemma {:induction false} Pushing(t: Trace, n: nat)
    requires Followed(t) && t.u.waitrequest && t.u.rcount + n <= RDEPTH
    ensures var r := Run(t, Repeat(PUSH, n));
      && r.u.waitrequest && r.u.rcount == t.u.rcount + n && |r.h.pushed| == |t.h.pushed| + n
      && (r.h.read, r.h.taken, r.h.seen, r.h.met) == (t.h.read, t.h.taken, t.h.seen, t.h.met)
    decreases n
  {
    if n > 0 {
      assert Repeat(PUSH, n)[1..] == Repeat(PUSH, n - 1);
      Pushing(Edge(t, PUSH), n - 1);
    }
  }

  // A byte in, then one out as another comes in: the second is waiting, and rcount is 0.
  const MEET := [PUSH, BOTH, REST]

  lemma Meets(u: Uart)
    requires AfterReset(u) && RDEPTH >= 2
    ensures var t := Run(Trace(u, NOTHING), MEET);
      t.h.met == 1 && t.u.rcount == 0 && t.u.waitrequest && |t.h.pushed| == 2 && |t.h.read| == 1
  {
    var t0 := Trace(u, NOTHING);
    var t1 := Edge(t0, PUSH);
    var t2 := Edge(t1, BOTH);
    assert MEET[1..] == [BOTH, REST] && MEET[1..][1..] == [REST];
    assert Run(t2, [REST]) == Edge(t2, REST);
  }

  // RDEPTH more are then accepted, one more than there is room for, and the next read
  // returns the newest of them all.
  lemma Overruns(u: Uart)
    requires AfterReset(u) && RDEPTH >= 2
    ensures var h := Run(Trace(u, NOTHING), MEET + Repeat(PUSH, RDEPTH) + [READ]).h;
      |h.taken| == 2 && h.taken[1] == RDEPTH + 1 == |h.pushed| - 1
  {
    hide Run, Survivor, Repeat;
    var t0 := Trace(u, NOTHING);
    var t1 := Run(t0, MEET);
    var t2 := Run(t1, Repeat(PUSH, RDEPTH));
    Meets(u);
    Pushing(t1, RDEPTH);
    RunConcat(t0, MEET, Repeat(PUSH, RDEPTH));
    RunConcat(t0, MEET + Repeat(PUSH, RDEPTH), [READ]);
    OneEdge(t2, READ);
    RunAccounted(t0, MEET + Repeat(PUSH, RDEPTH) + [READ]);
    NewestSurvives();
  }

  lemma OneEdge(t: Trace, i: In)
    requires Followed(t)
    ensures Run(t, [i]) == Edge(t, i)
  {
  }

  lemma NewestSurvives()
    ensures Survivor(1, RDEPTH + 2) == RDEPTH + 1
  {
    assert RDEPTH * 1 == RDEPTH;
  }

  // With one slot the host is held off whenever there is something to read.
  lemma {:induction false} OneSlotNeverMeets(t: Trace, ins: seq<In>)
    requires Followed(t) && RDEPTH == 1
    ensures Run(t, ins).h.met == t.h.met
    decreases |ins|
  {
    if ins != [] {
      OneSlotNeverMeets(Edge(t, ins[0]), ins[1..]);
    }
  }

  // Main result, both ways: some run from reset miscounts, and some run reads bytes out
  // of order, if and only if the ring has at least two slots.
  lemma FailsExactly(u: Uart)
    requires AfterReset(u)
    ensures (exists ins :: Run(Trace(u, NOTHING), ins).h.met > 0) <==> RDEPTH >= 2
    ensures (exists ins :: !InTurn(Run(Trace(u, NOTHING), ins).h)) <==> RDEPTH >= 2
  {
    if RDEPTH >= 2 {
      Meets(u);
      Overruns(u);
    } else {
      forall ins
        ensures Run(Trace(u, NOTHING), ins).h.met == 0 && InTurn(Run(Trace(u, NOTHING), ins).h)
      {
        OneSlotNeverMeets(Trace(u, NOTHING), ins);
        Queue(u, ins);
      }
    }
  }

  // The same of the host-bound FIFO: a byte sent, then another as the first is drained.
  const WRITE := In(true, false, true, false, 0, false, 0, false)
  const SWAP := In(true, false, true, false, 0, false, 0, true)
  const SENDS := [WRITE, REST, SWAP]

  // One byte is left in it, and wcount says two.
  lemma SendMeets(u: Uart)
    requires AfterReset(u) && WDEPTH >= 2
    ensures var t := Run(Trace(u, NOTHING), SENDS);
      t.h.wmet == 1 && Free(t.h) == WDEPTH - 1 && t.u.wcount == 2 && Wspace(t.u) == (WDEPTH - 2) % 128
  {
    hide Wspace;
    var t0 := Trace(u, NOTHING);
    var t1 := Edge(t0, WRITE);
    var t2 := Edge(t1, REST);
    assert SENDS[1..] == [REST, SWAP] && SENDS[1..][1..] == [SWAP];
    OneEdge(t2, SWAP);
    WspaceOf(Edge(t2, SWAP).u);
  }

  // With room for one byte a send waits for the drain before it.
  lemma {:induction false} OneDeepNeverMeets(t: Trace, ins: seq<In>)
    requires Followed(t) && WDEPTH == 1
    ensures Run(t, ins).h.wmet == t.h.wmet
    decreases |ins|
  {
    if ins != [] {
      OneDeepNeverMeets(Edge(t, ins[0]), ins[1..]);
    }
  }

  // Main result, both ways: some run from reset has a send meet a drain, and some run has
  // WSPACE wrong, if and only if the FIFO has room for at least two bytes.
  lemma WspaceFailsExactly(u: Uart)
    requires AfterReset(u)
    ensures (exists ins :: Run(Trace(u, NOTHING), ins).h.wmet > 0) <==> WDEPTH >= 2
    ensures (exists ins :: var t := Run(Trace(u, NOTHING), ins); Wspace(t.u) != Free(t.h)) <==> WDEPTH >= 2
  {
    hide Wspace, Free;
    if WDEPTH >= 2 {
      SendMeets(u);
      WspaceIs(u, SENDS);
    } else {
      forall ins
        ensures var t := Run(Trace(u, NOTHING), ins); t.h.wmet == 0 && Wspace(t.u) == Free(t.h)
      {
        OneDeepNeverMeets(Trace(u, NOTHING), ins);
        FreeOfOne(u, ins);
        WspaceIs(u, ins);
      }
    }
  }

  lemma FreeOfOne(u: Uart, ins: seq<In>)
    requires AfterReset(u) && WDEPTH == 1 && Run(Trace(u, NOTHING), ins).h.wmet == 0
    ensures Free(Run(Trace(u, NOTHING), ins).h) < 128
  {
    hide Run;
    FromReset(u, ins);
  }

  // ------------------------------------------------------------------
  // The handshake
  // ------------------------------------------------------------------

  // A request, a read or a write of either register, held until waitrequest falls: it
  // takes two edges and acts on the first only, and the answer to a read is still there
  // on the second.
  lemma TwoCycles(u: Uart, i: In, j: In)
    requires Shaped(u) && u.waitrequest && i.cs && (i.rd || i.wr)
    requires (j.cs, j.rd, j.wr, j.control) == (i.cs, i.rd, i.wr, i.control)
    ensures var t := Step(u, i); var v := Step(t, j);
      && Transfers(u, i) && !t.waitrequest && v.waitrequest
      && !Transfers(t, j) && !Pops(t, j) && !Sends(t, j) && !v.hostRxValid
      && v.readdata == t.readdata == (if !i.rd then u.readdata else if i.control then Control(u) else Data(u))
      && v.rtail == t.rtail == (if i.rd && !i.control && u.rcount != 0 then Slot(u.rtail + 1) else u.rtail)
      && t.hostRxValid == (i.wr && !i.control && u.wcount < WDEPTH) && (t.hostRxValid ==> t.hostRxData == i.data)
      && v.hostRxData == t.hostRxData
  {
    hide Wspace, Slot;
  }

  // What a run takes note of: a byte from the host exactly when it is offered to a ring
  // that rcount says is not full, a drain exactly when wcount is not zero, and from the
  // master what a transfer out of reset can do, one byte each way at most.
  lemma Noted(t: Trace, i: In)
    requires Followed(t)
    ensures var g, h, act := Record(t, i), t.h, i.cs && t.u.waitrequest && !i.control;
      && g.pushed == (if i.push && t.u.rcount < RDEPTH then h.pushed + [i.pushData] else h.pushed)
      && g.drained == (if i.drain && t.u.wcount > 0 then h.drained + 1 else h.drained)
      && g.sent == (if act && i.wr && t.u.wcount < WDEPTH then h.sent + [i.data] else h.sent)
      && |g.read| == (if act && i.rd && t.u.rcount > 0 then |h.read| + 1 else |h.read|)
      && g.transfers == (if i.cs && t.u.waitrequest && (i.rd || i.wr) then h.transfers + 1 else h.transfers)
      && g.edges == h.edges + 1
  {
    hide Data, Control, Wspace, Slot;
  }

  lemma Fields(high: nat, valid: bool, low: Byte)
    ensures var x := high * 0x1_0000 + (if valid then RVALID + low else 0);
      && x / 0x1_0000 == high && x / 0x8000 % 2 == (if valid then 1 else 0) && x % 0x8000 == if valid then low else 0
  {
  }

  // A CONTROL read answers with WSPACE in bits 22 to 16 and RVALID in bit 15, and
  // takes nothing; a DATA read has the byte under RVALID, or zero.
  lemma Answers(u: Uart, i: In)
    requires Shaped(u) && u.waitrequest && i.cs && i.rd
    ensures var t := Step(u, i);
      && t.readdata / 0x8000 % 2 == (if u.rcount != 0 then 1 else 0)
      && (i.control ==> t.readdata / 0x1_0000 == Wspace(u) && t.readdata % 0x8000 == 0 && t.rtail == u.rtail && !Pops(u, i))
      && (!i.control ==> t.readdata < 0x1_0000 && t.readdata % 0x8000 == if u.rcount != 0 then u.rfifo[u.rtail] else 0)
  {
    hide Wspace;
    if i.control {
      Fields(Wspace(u), u.rcount != 0, 0);
    } else {
      Fields(0, u.rcount != 0, u.rfifo[u.rtail]);
    }
  }

  // ------------------------------------------------------------------
  // The module itself
  // ------------------------------------------------------------------

  class UartModel {
    const rfifo: array<Byte>
    var waitrequest: bool
    var readdata: nat
    var wcount: nat
    var rhead: nat
    var rtail: nat
    var rcount: nat
    var hostRxData: Byte
    var hostRxValid: bool

    ghost function State(): Uart
      reads this, rfifo
    {
      Uart(waitrequest, readdata, wcount, rfifo[..], rhead, rtail, rcount, hostRxData, hostRxValid)
    }

    constructor ()
      ensures fresh(rfifo) && AfterReset(State())
    {
      rfifo := new Byte[RDEPTH](_ => 0);
      waitrequest, readdata, wcount, rhead, rtail, rcount := true, 0, 0, 0, 0, 0;
      hostRxData, hostRxValid := 0, false;
    }

    method Reset()
      requires Shaped(State())
      modifies this
      ensures AfterReset(State()) && rfifo[..] == old(rfifo[..])
    {
      waitrequest, readdata, wcount, rhead, rtail, rcount := true, 0, 0, 0, 0, 0;
      hostRxValid := false;
    }

    // The slave's answer to one edge; the arguments are the state before it.
    method Answer(i: In, count: nat, out: nat, front: Byte)
      requires rtail < RDEPTH
      modifies `readdata, `rtail, `rcount, `wcount, `hostRxData, `hostRxValid
      ensures readdata == (if !i.rd then old(readdata) else if !i.control then (if count != 0 then RVALID + front else 0)
                           else (WDEPTH % 128 - out % 128) % 128 * 0x1_0000 + (if count != 0 then RVALID else 0))
      ensures var pop := i.rd && !i.control && count != 0;
        rtail == (if pop then (old(rtail) + 1) % RDEPTH else old(rtail)) && rcount == (if pop then count - 1 else old(rcount))
      ensures var send := i.wr && !i.control && out < WDEPTH;
        wcount == (if send then out + 1 else old(wcount)) && hostRxData == (if send then i.data else old(hostRxData))
        && hostRxValid == (send || old(hostRxValid))
    {
      if i.rd {
        if !i.control {
          readdata := if count != 0 then RVALID + front else 0;
          if count != 0 {
            rtail := (rtail + 1) % RDEPTH;
            rcount := count - 1;
          }
        } else {
          readdata := (WDEPTH % 128 - out % 128) % 128 * 0x1_0000 + (if count != 0 then RVALID else 0);
        }
      }
      if i.wr && !i.control && out < WDEPTH {
        wcount := out + 1;
        hostRxData := i.data;
        hostRxValid := true;
      }
    }

    // The host's side; the arguments are the state before it.
    method HostEnd(i: In, count: nat, out: nat)
      requires rhead < RDEPTH == rfifo.Length
      modifies `rhead, `rcount, `wcount, rfifo
      ensures var push := i.push && count < RDEPTH;
        && rfifo[..] == (if push then old(rfifo[..])[old(rhead) := i.pushData] else old(rfifo[..]))
        && rhead == (if push then (old(rhead) + 1) % RDEPTH else old(rhead))
        && rcount == (if push then count + 1 else old(rcount))
      ensures wcount == if i.drain && out > 0 then out - 1 else old(wcount)
    {
      if i.push && !(count >= RDEPTH) {
        rfifo[rhead] := i.pushData;
        rhead := (rhead + 1) % RDEPTH;
        rcount := count + 1;
      }
      if i.drain && out > 0 {
        wcount := out - 1;
      }
    }

    method Posedge(i: In)
      requires Shaped(State())
      modifies this, rfifo
      ensures Shaped(State()) && State() == Step(old(State()), i)
    {
      var was, count, out, front := waitrequest, rcount, wcount, rfifo[rtail];
      hostRxValid := false;
      HostEnd(i, count, out);
      waitrequest := !(i.cs && (i.wr || i.rd) && was);
      if i.cs && was {
        Answer(i, count, out, front);
      }
    }
  }
}
