// The self-describing words of tools/patwr.c and tools/memdwell.c: sixteen bits that
// name their own place, and the decoders that turn a misplaced one into a signed
// distance.
module PatternWords {
  import opened Buffers
  import opened Counting
  import opened Division

  const WPS := 256

  // ------------------------------------------------------------------
  // tools/patwr.c
  // ------------------------------------------------------------------

  // Fields that do not overlap, so the ORs are sums.  `& 0x7f` of a two's-complement
  // number is its remainder modulo 128, negative or not.
  function PatWord(uniform: bool, sec: int, off: int): Half {
    0x8000 + (if uniform then 0 else sec % 128 * 256) + off % 256
  }

  function FillWord(sec: int, off: int): Half {
    sec % 128 * 256 + off % 256
  }

  // Generation tag, sector modulo 128, offset.
  function Decode(w: Half): (bool, nat, nat) {
    (w / 0x8000 == 1, w / 256 % 128, w % 256)
  }

  datatype Report = NeverWritten | From(gen: bool, sec: nat, off: nat, words: int)

  function Displacement(sec: int, off: int, gsec: int, goff: int): int {
    var dw := (gsec - sec % 128) % 128 * WPS + (goff - off);
    if dw > 64 * WPS then dw - 128 * WPS else dw
  }

  function ReportOf(sec: int, off: int, got: Half): Report {
    var (gen, gsec, goff) := Decode(got);
    var dw := Displacement(sec, off, gsec, goff);
    if !gen && dw == 0 then NeverWritten else From(gen, gsec, goff, dw)
  }

  // The word of a generation that belongs at absolute word position p.
  function WordAt(gen: bool, p: int): Half {
    if gen then PatWord(false, p / WPS, p % WPS) else FillWord(p / WPS, p % WPS)
  }

  // Displacements a sixteen-bit word can tell apart.
  predicate Window(d: int) {
    -64 * WPS < d <= 64 * WPS
  }

  // Both generations are the position modulo 32768 behind a tag.
  lemma WordIs(gen: bool, p: int)
    ensures WordAt(gen, p) == (if gen then 0x8000 else 0) + p % 0x8000
  {
    var s := p / WPS;
    assert p == 256 * s + p % 256;
    assert s == 128 * (s / 128) + s % 128;
    var r := s % 128 * 256 + p % 256;
    assert p == 0x8000 * (s / 128) + r;
    assert p % 0x8000 == r by { Unique(p, 0x8000, s / 128, r); }
  }

  // Whatever the word, the decoder's distance is in the window and congruent to it.
  lemma DisplacementIs(p: int, w: Half)
    ensures var dw := Displacement(p / WPS, p % WPS, w / 256 % 128, w % 256);
      Window(dw) && (p + dw) % 0x8000 == w % 0x8000
  {
    var sec, off := p / WPS, p % WPS;
    var gsec, goff := w / 256 % 128, w % 256;
    assert p == 256 * sec + off && sec == 128 * (sec / 128) + sec % 128;
    assert w % 0x8000 == 256 * gsec + goff;
    var k := (gsec - sec % 128) % 128;
    var e := if gsec < sec % 128 then 1 else 0;
    assert k == gsec - sec % 128 + 128 * e;
    var raw := k * WPS + (goff - off);
    assert p + raw == 0x8000 * (sec / 128 + e) + (256 * gsec + goff);
    Unique(p + raw, 0x8000, sec / 128 + e, 256 * gsec + goff);
    if raw > 64 * WPS {
      assert p + (raw - 0x8000) == 0x8000 * (sec / 128 + e - 1) + (256 * gsec + goff);
      Unique(p + raw - 0x8000, 0x8000, sec / 128 + e - 1, 256 * gsec + goff);
    }
  }

  lemma WindowUnique(p: int, d: int, e: int)
    requires Window(d) && Window(e) && (p + d) % 0x8000 == (p + e) % 0x8000
    ensures d == e
  {
  }

  // Main result, both ways: a word found at position p is reported as having come from
  // d words away, with its generation, exactly when it is the word that belongs there --
  // for every place, every word and every d in the window.
  lemma ReportsExactly(p: int, w: Half, gen: bool, d: int)
    requires Window(d)
    ensures (w == WordAt(gen, p + d)) <==>
      ReportOf(p / WPS, p % WPS, w) ==
        (if !gen && d == 0 then NeverWritten else From(gen, (p + d) / WPS % 128, (p + d) % WPS, d))
  {
    var dw := Displacement(p / WPS, p % WPS, w / 256 % 128, w % 256);
    DisplacementIs(p, w);
    WordIs(gen, p + d);
    WordIs(gen, p + dw);
    var r := (p + dw) % 0x8000;
    assert w == (if w / 0x8000 == 1 then 0x8000 else 0) + r;
    if w == WordAt(gen, p + d) {
      WindowUnique(p, d, dw);
      FieldsOf(gen, p + d);
    }
  }

  lemma FieldsOf(gen: bool, p: int)
    ensures Decode(WordAt(gen, p)) == (gen, p / WPS % 128, p % WPS)
  {
  }

  // The encoding repeats every 32768 words and never sooner, and the two generations
  // never agree.
  lemma Injective(g: bool, p: int, h: bool, q: int)
    ensures WordAt(g, p) == WordAt(h, q) <==> g == h && (p - q) % 0x8000 == 0
  {
    WordIs(g, p);
    WordIs(h, q);
    Congruent(p, q);
  }

  lemma Congruent(p: int, q: int)
    ensures p % 0x8000 == q % 0x8000 <==> (p - q) % 0x8000 == 0
  {
    var a, b := p / 0x8000, q / 0x8000;
    assert p == 0x8000 * a + p % 0x8000 && q == 0x8000 * b + q % 0x8000;
    if p % 0x8000 == q % 0x8000 {
      Unique(p - q, 0x8000, a - b, 0);
    }
  }

  // Under -u the decoder names the right distance only of words from sectors that are
  // multiples of 128: the uniform word of p + d, found at p, is reported as d words away
  // with its sector exactly then.
  lemma UniformReports(p: int, d: int)
    requires Window(d)
    ensures var q := p + d; var r := ReportOf(p / WPS, p % WPS, PatWord(true, q / WPS, q % WPS));
      r == From(true, q / WPS % 128, q % WPS, d) <==> q / WPS % 128 == 0
  {
    var q := p + d;
    hide ReportOf;
    ReportsExactly(p, PatWord(true, q / WPS, q % WPS), true, d);
  }

  // What -u gives up: its words repeat every sector.
  lemma UniformRepeats(p: int, q: int)
    ensures PatWord(true, p / WPS, p % WPS) == PatWord(true, q / WPS, q % WPS) <==> p % WPS == q % WPS
  {
  }

  // ------------------------------------------------------------------
  // tools/memdwell.c
  // ------------------------------------------------------------------

  function Pat(i: int): Half {
    0x8000 + i % 0x8000
  }

  datatype Stray = NotPattern | At(index: nat, halves: int)

  function StrayOf(i: int, got: Half): Stray {
    if got < 0x8000 then NotPattern else
      var gi := got % 0x8000;
      var d := (gi - i % 0x8000) % 0x8000;
      At(gi, if d > 16384 then d - 32768 else d)
  }

  // The halfword decoder does the same on its own window, and a clear tag is never ours.
  lemma StrayExactly(i: int, got: Half, d: int)
    requires Window(d)
    ensures got == Pat(i + d) <==> StrayOf(i, got) == At((i + d) % 0x8000, d)
  {
    var gi := got % 0x8000;
    var raw := (gi - i % 0x8000) % 0x8000;
    var e := if gi < i % 0x8000 then 1 else 0;
    assert raw == gi - i % 0x8000 + 0x8000 * e;
    var q := i / 0x8000;
    assert i + raw == 0x8000 * (q + e) + gi;
    Unique(i + raw, 0x8000, q + e, gi);
    Unique(i + raw - 0x8000, 0x8000, q + e - 1, gi);
    var dw := if raw > 16384 then raw - 32768 else raw;
    if got == Pat(i + d) {
      WindowUnique(i, d, dw);
    }
  }

  function Pats(n: nat): (s: seq<Half>)
    ensures |s| == n
  {
    seq(n, i => Pat(i))
  }

  method Fill(buf: array<Half>)
    modifies buf
    ensures buf[..] == Pats(buf.Length)
  {
    for i := 0 to buf.Length
      invariant buf[..i] == Pats(buf.Length)[..i]
    {
      buf[i] := Pat(i);
    }
  }

  // `shown` is what is printed: the places of the first eight bad halfwords and what each
  // was decoded to.
  method Verify(buf: array<Half>) returns (bad: nat, shown: seq<(nat, Stray)>)
    ensures bad == Differ(buf[..], Pats(buf.Length))
    ensures |shown| == (if bad < 8 then bad else 8)
    ensures forall s :: s in shown ==> s.0 < buf.Length && buf[s.0] != Pat(s.0) && s.1 == StrayOf(s.0, buf[s.0])
  {
    bad, shown := 0, [];
    ghost var want := Pats(buf.Length);
    for i := 0 to buf.Length
      invariant bad == Differ(buf[..i], want[..i])
      invariant |shown| == (if bad < 8 then bad else 8)
      invariant forall s :: s in shown ==> s.0 < i && buf[s.0] != Pat(s.0) && s.1 == StrayOf(s.0, buf[s.0])
    {
      DifferSnoc(buf[..], want, i);
      assert buf[..][..i] == buf[..i] && buf[..][..i + 1] == buf[..i + 1];
      if buf[i] != Pat(i) {
        bad := bad + 1;
        if |shown| < 8 {
          shown := shown + [(i, StrayOf(i, buf[i]))];
        }
      }
    }
    assert buf[..buf.Length] == buf[..] && want[..buf.Length] == want;
  }
}
