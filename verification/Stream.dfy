// The self-describing byte stream of tools/netchk.c and tools/netchk_host.py: both
// senders and both checkers, which must agree with each other, with tools/patwr.c, and
// with themselves however the network cuts the stream.
module Stream {
  import opened Buffers
  import opened Counting
  import opened Division
  import PatternWords

  const BUFSZ := 16384
  const CHUNK := 65536

  function Pat(p: nat): Byte {
    if p % 2 == 0 then 0x80 else p / 2 % 256
  }

  function Pattern(off: nat, n: nat): (s: seq<Byte>)
    ensures |s| == n && forall k :: 0 <= k < n ==> s[k] == Pat(off + k)
  {
    seq<Byte>(n, (k: nat) => Pat(off + k))
  }

  lemma PatternConcat(off: nat, m: nat, n: nat)
    ensures Pattern(off, m) + Pattern(off + m, n) == Pattern(off, m + n)
  {
  }

  // ------------------------------------------------------------------
  // One stream
  // ------------------------------------------------------------------

  lemma Periodic(p: nat, k: nat)
    ensures Pat(p + 512 * k) == Pat(p)
  {
    assert (p + 512 * k) / 2 == p / 2 + 256 * k;
  }

  // The 16 KiB reference tiles the stream for ever.
  lemma RefTiles(p: nat)
    ensures Pat(p) == Pattern(0, BUFSZ)[p % BUFSZ]
  {
    var q := p / BUFSZ;
    assert p == BUFSZ * q + p % BUFSZ;
    Periodic(p % BUFSZ, 32 * q);
  }

  // Words of tools/patwr.c -u, high byte first, are the stream from any sector boundary.
  lemma UniformWords(sec: nat, off: nat)
    requires off < PatternWords.WPS
    ensures PatternWords.PatWord(true, sec, off) == 256 * Pat(512 * sec + 2 * off) + Pat(512 * sec + 2 * off + 1)
  {
    Periodic(2 * off, sec);
    Periodic(2 * off + 1, sec);
  }

  // ------------------------------------------------------------------
  // Senders
  // ------------------------------------------------------------------

  method HostPattern(off: nat, n: nat) returns (b: array<Byte>)
    ensures fresh(b) && b[..] == Pattern(off, n)
  {
    b := new Byte[n](_ => 0);
    for k := 0 to n
      invariant b[..k] == Pattern(off, n)[..k]
    {
      var p := off + k;
      b[k] := if p % 2 == 0 then 0x80 else p / 2 % 256;
    }
  }

  method HostSend(total: nat) returns (sent: seq<Byte>)
    ensures sent == Pattern(0, total)
  {
    sent := [];
    var off := 0;
    while off < total
      invariant off <= total && sent == Pattern(0, off)
    {
      var n := if CHUNK < total - off then CHUNK else total - off;
      var b := HostPattern(off, n);
      PatternConcat(0, off, n);
      sent := sent + b[..];
      off := off + n;
    }
  }

  method BuildRef() returns (ref: array<Byte>)
    ensures fresh(ref) && ref[..] == Pattern(0, BUFSZ)
  {
    ref := new Byte[BUFSZ](_ => 0);
    for i := 0 to BUFSZ
      invariant ref[..i] == Pattern(0, BUFSZ)[..i]
    {
      ref[i] := if i % 2 == 0 then 0x80 else i / 2 % 256;
    }
  }

  // What a `write` that does not end the run returns: some or all of the buffer.
  type Written = n: nat | 0 < n <= BUFSZ witness 1

  // The bytes a list of successful writes puts on the wire: each begins at the start of
  // the reference, whatever the one before it managed.
  function Sent(ns: seq<Written>): seq<Byte>
    decreases |ns|
  {
    if ns == [] then [] else Pattern(0, ns[0]) + Sent(ns[1..])
  }

  // The run ends when enough has gone or when `write` returns nothing, which is where
  // `wrote` ends.
  method BoardSend(total: int, wrote: seq<Written>) returns (done: nat, sent: seq<Byte>, made: nat)
    ensures made <= |wrote| && sent == Sent(wrote[..made]) && done == |sent|
    ensures made < |wrote| ==> done >= total
    ensures made > 0 ==> done - wrote[made - 1] < total
  {
    var ref := BuildRef();
    done, sent, made := 0, [], 0;
    while done < total && made < |wrote|
      invariant made <= |wrote| && sent == Sent(wrote[..made]) && done == |sent|
      invariant ref[..] == Pattern(0, BUFSZ)
      invariant made > 0 ==> done - wrote[made - 1] < total
      decreases |wrote| - made
    {
      var n := wrote[made];
      SentSnoc(wrote[..made], n);
      assert wrote[..made + 1] == wrote[..made] + [n];
      assert ref[..n] == Pattern(0, BUFSZ)[..n] == Pattern(0, n);
      sent := sent + ref[..n];
      done := done + n;
      made := made + 1;
    }
  }

  lemma {:induction false} SentSnoc(ns: seq<Written>, n: Written)
    ensures Sent(ns + [n]) == Sent(ns) + Pattern(0, n)
    decreases |ns|
  {
    if ns == [] {
      assert ns + [n] == [n] && Sent([n][1..]) == [];
    } else {
      assert (ns + [n])[1..] == ns[1..] + [n];
      SentSnoc(ns[1..], n);
    }
  }

  // A write of n bytes of the reference continues the stream at offset o.
  predicate Continues(o: nat, n: nat) {
    o % 512 == 0 || (n == 1 && (o % 2 == 0 || o % 512 == 257))
  }

  predicate AllContinue(o: nat, ns: seq<Written>)
    decreases |ns|
  {
    ns != [] ==> Continues(o, ns[0]) && AllContinue(o + ns[0], ns[1..])
  }

  lemma AlignedRepeats(o: nat, n: nat)
    requires o % 512 == 0
    ensures Pattern(0, n) == Pattern(o, n)
  {
    forall k: nat | k < n
      ensures Pat(k) == Pat(o + k)
    {
      Periodic(k, o / 512);
    }
  }

  // The first two bytes of the reference give away any other offset.
  lemma UnalignedShows(o: nat)
    requires o % 512 != 0
    ensures Pat(0) == 0x80 && Pat(1) == 0 && Pat(o + 1) != 0
    ensures Pat(o) == 0x80 <==> o % 2 == 0 || o % 512 == 257
  {
    var q, r := o / 512, o % 512;
    assert o == 512 * q + r && o / 2 == 256 * q + r / 2;
    assert o / 2 % 256 == r / 2;
    if r % 2 == 0 {
      assert (o + 1) / 2 == 256 * q + r / 2;
    }
  }

  lemma ContinuesExactly(o: nat, n: nat)
    requires 0 < n
    ensures Pattern(0, n) == Pattern(o, n) <==> Continues(o, n)
  {
    hide Pat;
    if o % 512 == 0 {
      AlignedRepeats(o, n);
    } else {
      UnalignedShows(o);
      var a, b := Pattern(0, n), Pattern(o, n);
      assert a[0] == Pat(0) && b[0] == Pat(o);
      if n >= 2 {
        assert a[1] == Pat(1) && b[1] == Pat(o + 1);
      } else {
        assert a == [a[0]] && b == [b[0]];
      }
    }
  }

  // Main result: the board's stream is the pattern exactly when every write begins on a
  // multiple of 512, or is a single byte that happens to coincide.
  lemma {:induction false} SentExactly(o: nat, ns: seq<Written>)
    ensures Sent(ns) == Pattern(o, |Sent(ns)|) <==> AllContinue(o, ns)
    decreases |ns|
  {
    if ns != [] {
      ContinuesExactly(o, ns[0]);
      SentExactly(o + ns[0], ns[1..]);
      SplitAt(o, ns[0], Sent(ns[1..]));
    }
  }

  lemma SplitAt(o: nat, n: nat, rest: seq<Byte>)
    ensures Pattern(0, n) + rest == Pattern(o, n + |rest|) <==>
            Pattern(0, n) == Pattern(o, n) && rest == Pattern(o + n, |rest|)
  {
    PatternConcat(o, n, |rest|);
    var whole, joined := Pattern(o, n + |rest|), Pattern(0, n) + rest;
    assert whole[..n] == Pattern(o, n) && whole[n..] == Pattern(o + n, |rest|);
    assert joined[..n] == Pattern(0, n) && joined[n..] == rest;
  }

  // In particular for the runs the tool was meant for.
  lemma SentAligned(o: nat, ns: seq<Written>)
    requires o % 512 == 0 && forall i :: 0 <= i < |ns| ==> ns[i] as int % 512 == 0
    ensures Sent(ns) == Pattern(o, |Sent(ns)|)
  {
    AlignedContinue(o, ns);
    SentExactly(o, ns);
  }

  lemma {:induction false} AlignedContinue(o: nat, ns: seq<Written>)
    requires o % 512 == 0 && forall i :: 0 <= i < |ns| ==> ns[i] as int % 512 == 0
    ensures AllContinue(o, ns)
    decreases |ns|
  {
    if ns != [] {
      AlignedContinue(o + ns[0], ns[1..]);
    }
  }

  // ------------------------------------------------------------------
  // Checkers
  // ------------------------------------------------------------------

  // How the network hands over a stream: each read is offered up to cuts[i] bytes, and a
  // cut of zero is an end or an error.
  function Take(cut: nat, room: nat, left: nat): nat {
    if cut <= room && cut <= left then cut else if room <= left then room else left
  }

  // Every read brings something while there is something to bring.
  predicate Eager(cuts: seq<nat>, stream: seq<Byte>) {
    |cuts| > |stream| && forall i :: 0 <= i < |cuts| ==> cuts[i] > 0
  }

  function Down(n: nat): nat {
    n / BUFSZ * BUFSZ
  }

  function Up(n: int): nat {
    if n <= 0 then 0 else (n + BUFSZ - 1) / BUFSZ * BUFSZ
  }

  function Longs(s: seq<Byte>): (r: seq<seq<Byte>>)
    ensures |r| == |s| / 4
  {
    seq(|s| / 4, i requires 0 <= i < |s| / 4 => s[4 * i..4 * i + 4])
  }

  function WrongLongs(a: seq<Byte>, b: seq<Byte>): nat
    requires |a| == |b|
  {
    Differ(Longs(a), Longs(b))
  }

  lemma LongsConcat(a: seq<Byte>, b: seq<Byte>)
    requires |a| % 4 == 0
    ensures Longs(a + b) == Longs(a) + Longs(b)
  {
    var l, r := Longs(a + b), Longs(a) + Longs(b);
    forall i | 0 <= i < |l| ensures l[i] == r[i] {
      if i < |a| / 4 {
        assert (a + b)[4 * i..4 * i + 4] == a[4 * i..4 * i + 4];
      } else {
        var j := i - |a| / 4;
        assert (a + b)[4 * i..4 * i + 4] == b[4 * j..4 * j + 4];
      }
    }
  }

  // One wrong longword is at least one and at most four wrong bytes.
  lemma {:induction false} BytesAndLongs(a: seq<Byte>, b: seq<Byte>)
    requires |a| == |b| && |a| % 4 == 0
    ensures WrongLongs(a, b) <= Differ(a, b) <= 4 * WrongLongs(a, b)
    decreases |a|
  {
    hide Differ;
    if |a| > 0 {
      var n := |a| - 4;
      BytesAndLongs(a[..n], b[..n]);
      DifferConcat(a[..n], b[..n], a[n..], b[n..]);
      assert a == a[..n] + a[n..] && b == b[..n] + b[n..];
      LongsConcat(a[..n], a[n..]);
      LongsConcat(b[..n], b[n..]);
      DifferConcat(Longs(a[..n]), Longs(b[..n]), Longs(a[n..]), Longs(b[n..]));
      assert a[n..][0..4] == a[n..] && b[n..][0..4] == b[n..];
      assert Longs(a[n..]) == [a[n..]] && Longs(b[n..]) == [b[n..]];
      DifferZero([a[n..]], [b[n..]]);
      DifferZero(a[n..], b[n..]);
    }
  }

  // A whole block, one longword at a time.
  method CompareBlock(buf: array<Byte>, ref: array<Byte>) returns (bad: nat)
    requires buf.Length == ref.Length == BUFSZ
    ensures bad == WrongLongs(buf[..], ref[..])
  {
    hide Differ;
    ghost var p, q := Longs(buf[..]), Longs(ref[..]);
    bad := 0;
    DifferZero(p[..0], q[..0]);
    for i := 0 to BUFSZ / 4
      invariant bad == Differ(p[..i], q[..i])
    {
      DifferSnoc(p, q, i);
      assert p[i] == buf[4 * i..4 * i + 4] && q[i] == ref[4 * i..4 * i + 4];
      if buf[4 * i..4 * i + 4] != ref[4 * i..4 * i + 4] {
        bad := bad + 1;
      }
    }
    assert p[..BUFSZ / 4] == p && q[..BUFSZ / 4] == q;
  }

  lemma PatternAt(o: nat, n: nat)
    requires o % 512 == 0
    ensures Pattern(o, n) == Pattern(0, n)
  {
    if n > 0 {
      ContinuesExactly(o, n);
    }
  }

  lemma WrongConcat(a: seq<Byte>, b: seq<Byte>, p: seq<Byte>, q: seq<Byte>)
    requires |a| == |p| && |b| == |q| && |a| % 4 == 0
    ensures WrongLongs(a + b, p + q) == WrongLongs(a, p) + WrongLongs(b, q)
  {
    hide Longs, Differ;
    LongsConcat(a, b);
    LongsConcat(p, q);
    DifferConcat(Longs(a), Longs(p), Longs(b), Longs(q));
  }

  lemma Aligned(done: nat)
    requires done % BUFSZ == 0
    ensures done % 512 == 0 && done % 4 == 0
  {
    var q := done / BUFSZ;
    Unique(done, 512, 32 * q, 0);
    Unique(done, 4, 4096 * q, 0);
  }

  // One more block of the stream.
  lemma NextBlock(stream: seq<Byte>, done: nat, block: seq<Byte>)
    requires done % BUFSZ == 0 && done + BUFSZ <= |stream| && block == stream[done..done + BUFSZ]
    ensures WrongLongs(stream[..done + BUFSZ], Pattern(0, done + BUFSZ))
         == WrongLongs(stream[..done], Pattern(0, done)) + WrongLongs(block, Pattern(0, BUFSZ))
  {
    var a, p, q := stream[..done], Pattern(0, done), Pattern(0, BUFSZ);
    assert stream[..done + BUFSZ] == a + block;
    hide Pattern, WrongLongs;
    Aligned(done);
    PatternAt(done, BUFSZ);
    PatternConcat(0, done, BUFSZ);
    WrongConcat(a, block, p, q);
  }

  // Whole blocks taken, against those asked for and those there.
  lemma Blocks(done: nat, total: int, have: nat, len: nat)
    requires done % BUFSZ == 0 && have < BUFSZ && done + have <= len
    ensures done < total ==> done + BUFSZ <= Up(total)
    ensures done >= total ==> Up(total) <= done
    ensures done <= Down(len) && (done + have == len ==> done == Down(len))
  {
    var k := done / BUFSZ;
    assert done == BUFSZ * k;
    if done < total {
      assert (total + BUFSZ - 1) / BUFSZ >= k + 1;
    } else if total > 0 {
      assert (total + BUFSZ - 1) / BUFSZ <= k;
    }
    assert len / BUFSZ >= k && (done + have == len ==> len / BUFSZ == k);
  }

  // `read` of n more bytes into the buffer behind those it has.
  method Receive(buf: array<Byte>, have: nat, stream: seq<Byte>, done: nat, n: nat)
    requires have + n <= buf.Length && done + have + n <= |stream| && buf[..have] == stream[done..done + have]
    modifies buf
    ensures buf[..have + n] == stream[done..done + have + n]
  {
    forall k | 0 <= k < n {
      buf[have + k] := stream[done + have + k];
    }
    assert forall k :: 0 <= k < have ==> buf[k] == old(buf[..have])[k];
  }

  lemma NoLongs(stream: seq<Byte>)
    ensures WrongLongs(stream[..0], Pattern(0, 0)) == 0
  {
  }

  // The board's checker.  However the stream was cut, `nbad` is the number of wrong
  // longwords in the whole blocks it took, and if the network delivered what it had
  // those are all the blocks asked for that the stream contains.
  method BoardCheck(stream: seq<Byte>, total: int, cuts: seq<nat>) returns (done: nat, nbad: nat)
    ensures done % BUFSZ == 0 && done <= |stream| && done <= Up(total)
    ensures nbad == WrongLongs(stream[..done], Pattern(0, done))
    ensures |cuts| > |stream| && 0 !in cuts ==> done == if Down(|stream|) < Up(total) then Down(|stream|) else Up(total)
  {
    hide Pat, WrongLongs, Up, Down;
    NoLongs(stream);
    var ref := BuildRef();
    var buf := new Byte[BUFSZ](_ => 0);
    var have: nat, made: nat := 0, 0;
    done, nbad := 0, 0;
    while done < total && made < |cuts|
      invariant done % BUFSZ == 0 && have < BUFSZ && done + have <= |stream| && done <= Up(total)
      invariant made <= |cuts| && (Eager(cuts, stream) ==> made <= done + have)
      invariant buf[..have] == stream[done..done + have] && ref[..] == Pattern(0, BUFSZ)
      invariant nbad == WrongLongs(stream[..done], Pattern(0, done))
      decreases |cuts| - made
    {
      Blocks(done, total, have, |stream|);
      var n := Take(cuts[made], BUFSZ - have, |stream| - (done + have));
      if n == 0 {
        break;
      }
      made := made + 1;
      Receive(buf, have, stream, done, n);
      have := have + n;
      if have == BUFSZ {
        var bad := CompareBlock(buf, ref);
        NextBlock(stream, done, buf[..]);
        nbad := nbad + bad;
        done := done + BUFSZ;
        have := 0;
      }
    }
    Blocks(done, total, have, |stream|);
  }

  lemma DifferNone(stream: seq<Byte>)
    ensures Differ(stream[..0], Pattern(0, 0)) == 0
  {
  }

  // The host's checker counts every wrong byte, however the stream was cut.
  method HostCheck(stream: seq<Byte>, cuts: seq<nat>) returns (off: nat, bad: nat)
    ensures off <= |stream| && bad == Differ(stream[..off], Pattern(0, off))
    ensures |cuts| > |stream| && 0 !in cuts ==> off == |stream|
  {
    hide Differ, Pat;
    off, bad := 0, 0;
    DifferNone(stream);
    var made := 0;
    while made < |cuts|
      invariant off <= |stream| && bad == Differ(stream[..off], Pattern(0, off))
      invariant made <= |cuts| && (Eager(cuts, stream) ==> made <= off)
    {
      var n := Take(cuts[made], CHUNK, |stream| - off);
      if n == 0 {
        break;
      }
      made := made + 1;
      var d := stream[off..off + n];
      var exp := HostPattern(off, n);
      PatternConcat(0, off, n);
      DifferConcat(stream[..off], Pattern(0, off), d, Pattern(off, n));
      assert stream[..off] + d == stream[..off + n];
      DifferZero(d, exp[..]);
      if d != exp[..] {
        bad := CountBytes(d, exp, bad);
      }
      off := off + n;
    }
  }

  method CountBytes(d: seq<Byte>, exp: array<Byte>, bad0: nat) returns (bad: nat)
    requires |d| == exp.Length
    ensures bad == bad0 + Differ(d, exp[..])
  {
    bad := bad0;
    for k := 0 to |d|
      invariant bad == bad0 + Differ(d[..k], exp[..k])
    {
      DifferSnoc(d, exp[..], k);
      assert exp[..][..k] == exp[..k] && exp[..][..k + 1] == exp[..k + 1];
      if d[k] != exp[k] {
        bad := bad + 1;
      }
    }
    assert d[..|d|] == d && exp[..|d|] == exp[..];
  }

  // The two counts of the same whole blocks.
  lemma CountsAgree(stream: seq<Byte>, done: nat)
    requires done % BUFSZ == 0 && done <= |stream|
    ensures var longs, bytes := WrongLongs(stream[..done], Pattern(0, done)), Differ(stream[..done], Pattern(0, done));
      longs <= bytes <= 4 * longs
  {
    BytesAndLongs(stream[..done], Pattern(0, done));
  }

  // On a faultless network the host's count of wrong bytes is zero exactly when no short
  // write has moved the board off its alignment.
  lemma FalseAlarm(ns: seq<Written>)
    ensures Differ(Sent(ns), Pattern(0, |Sent(ns)|)) == 0 <==> AllContinue(0, ns)
  {
    SentExactly(0, ns);
    DifferZero(Sent(ns), Pattern(0, |Sent(ns)|));
  }
}
