// The write and verify passes of tools/patwr.c: 64 sectors at a time through one buffer,
// against a medium that is an array of words.
module PatternDisk {
  import opened Buffers
  import opened Counting
  import opened PatternWords

  const CHUNK := 64

  // The word that belongs at absolute word position p.
  function Word(fill: bool, uniform: bool, p: int): Half {
    if fill then FillWord(p / WPS, p % WPS) else PatWord(uniform, p / WPS, p % WPS)
  }

  function Words(fill: bool, uniform: bool, from: int, n: nat): (s: seq<Half>)
    ensures |s| == n
  {
    seq<Half>(n, k => Word(fill, uniform, from + k))
  }

  lemma WordsConcat(fill: bool, uniform: bool, from: int, m: nat, n: nat)
    ensures Words(fill, uniform, from, m) + Words(fill, uniform, from + m, n) == Words(fill, uniform, from, m + n)
  {
  }

  lemma SpliceConcat(d: seq<Half>, at: nat, a: seq<Half>, b: seq<Half>)
    requires at + |a| + |b| <= |d|
    ensures Splice(Splice(d, at, a), at + |a|, b) == Splice(d, at, a + b)
  {
  }

  // Sectors [start, start + n) exist.
  predicate Fits(words: nat, start: int, n: nat) {
    n == 0 || (0 <= start && (start + n) * WPS <= words)
  }

  lemma FitsPart(words: nat, start: int, base: nat, n: nat, total: nat)
    requires 0 < n && base + n <= total && Fits(words, start, base) && !Fits(words, start + base, n)
    ensures !Fits(words, start, total)
  {
  }

  // The medium after sectors [start, start + n) have been written with their words.
  function Stamped(d: seq<Half>, start: int, n: nat, fill: bool, uniform: bool): (r: seq<Half>)
    requires Fits(|d|, start, n)
    ensures |r| == |d|
  {
    if n == 0 then d else Splice(d, start * WPS, Words(fill, uniform, start * WPS, n * WPS))
  }

  lemma StampedMore(d: seq<Half>, start: int, n: nat, m: nat, fill: bool, uniform: bool)
    requires Fits(|d|, start, n) && Fits(|d|, start + n, m) && m > 0
    ensures Fits(|d|, start, n + m)
    ensures Splice(Stamped(d, start, n, fill, uniform), (start + n) * WPS, Words(fill, uniform, (start + n) * WPS, m * WPS))
      == Stamped(d, start, n + m, fill, uniform)
  {
    hide Words;
    if n > 0 {
      WordsConcat(fill, uniform, start * WPS, n * WPS, m * WPS);
      SpliceConcat(d, start * WPS, Words(fill, uniform, start * WPS, n * WPS),
                  Words(fill, uniform, (start + n) * WPS, m * WPS));
    }
  }

  // How many words of sectors [start, start + n) are not what belongs there.
  function Wrong(d: seq<Half>, start: int, n: nat, uniform: bool): (w: nat)
    requires Fits(|d|, start, n)
    ensures w <= n * WPS
  {
    if n == 0 then 0
    else Differ(d[start * WPS..(start + n) * WPS], Words(false, uniform, start * WPS, n * WPS))
  }

  lemma WrongMore(d: seq<Half>, start: int, n: nat, m: nat, uniform: bool)
    requires Fits(|d|, start, n) && Fits(|d|, start + n, m) && m > 0
    ensures Fits(|d|, start, n + m)
    ensures Wrong(d, start, n + m, uniform) == Wrong(d, start, n, uniform) + Wrong(d, start + n, m, uniform)
  {
    if n > 0 {
      var at, mid, end := start * WPS, (start + n) * WPS, (start + n + m) * WPS;
      WordsConcat(false, uniform, at, n * WPS, m * WPS);
      assert d[at..mid] + d[mid..end] == d[at..end];
      DifferConcat(d[at..mid], Words(false, uniform, at, n * WPS), d[mid..end], Words(false, uniform, mid, m * WPS));
    }
  }

  lemma StampedIsRight(d: seq<Half>, start: int, n: nat, uniform: bool)
    requires Fits(|d|, start, n)
    ensures Wrong(Stamped(d, start, n, false, uniform), start, n, uniform) == 0
  {
    if n > 0 {
      var at, ws := start * WPS, Words(false, uniform, start * WPS, n * WPS);
      assert Splice(d, at, ws)[at..at + n * WPS] == ws;
      DifferZero(ws, ws);
    }
  }

  // The words themselves, as numbers, by absolute word position: the position modulo
  // 32768, behind a tag unless it is the old generation; or under -u its low byte alone.
  lemma StampedWord(d: seq<Half>, start: int, n: nat, fill: bool, uniform: bool, p: nat)
    requires Fits(|d|, start, n) && p < |d|
    ensures Stamped(d, start, n, fill, uniform)[p] ==
      if !(256 * start <= p < 256 * (start + n)) then d[p]
      else if fill then p % 0x8000
      else 0x8000 + (if uniform then p % 256 else p % 0x8000)
  {
    WordIs(!fill, p);
    var ws := Words(fill, uniform, start * WPS, n * WPS);
    if 256 * start <= p < 256 * (start + n) {
      assert ws[p - start * WPS] == Word(fill, uniform, p);
    }
  }

  // Stamping again changes nothing.
  lemma StampedTwice(d: seq<Half>, start: int, n: nat, fill: bool, uniform: bool)
    requires Fits(|d|, start, n)
    ensures Stamped(Stamped(d, start, n, fill, uniform), start, n, fill, uniform) == Stamped(d, start, n, fill, uniform)
  {
  }

  // Consecutive transfers of one to 64 sectors that meet every sector of
  // [from, from + n) once and no other.
  predicate Covers(ios: seq<(int, int)>, from: int, n: int) {
    if ios == [] then n == 0
    else
      var (sector, count) := ios[|ios| - 1];
      1 <= count <= 64 && sector + count == from + n && Covers(ios[..|ios| - 1], from, n - count)
  }

  lemma CoversSnoc(ios: seq<(int, int)>, from: int, n: int, k: int)
    requires Covers(ios, from, n) && 1 <= k <= 64
    ensures Covers(ios + [(from + n, k)], from, n + k)
  {
    assert (ios + [(from + n, k)])[..|ios|] == ios;
  }

  // ------------------------------------------------------------------
  // One chunk
  // ------------------------------------------------------------------

  method FillBuffer(buf: array<Half>, fill: bool, uniform: bool, first: int, n: nat)
    requires buf.Length == CHUNK * WPS && n <= CHUNK
    modifies buf
    ensures buf[..n * WPS] == Words(fill, uniform, first * WPS, n * WPS)
  {
    ghost var want := Words(fill, uniform, first * WPS, n * WPS);
    for sec := 0 to n
      invariant buf[..sec * WPS] == want[..sec * WPS]
    {
      for off := 0 to WPS
        invariant buf[..sec * WPS + off] == want[..sec * WPS + off]
      {
        var k := sec * WPS + off;
        assert (first * WPS + k) / WPS == first + sec && (first * WPS + k) % WPS == off;
        buf[k] := if fill then FillWord(first + sec, off) else PatWord(uniform, first + sec, off);
        assert buf[..k + 1] == buf[..k] + [buf[k]];
      }
    }
  }

  // lseek and write: all of it or an error.
  method Write(disk: array<Half>, buf: array<Half>, sector: int, n: nat) returns (ok: bool)
    requires disk != buf && buf.Length == CHUNK * WPS && 0 < n <= CHUNK
    modifies disk
    ensures ok <==> Fits(disk.Length, sector, n)
    ensures ok ==> disk[..] == Splice(old(disk[..]), sector * WPS, buf[..n * WPS])
    ensures !ok ==> disk[..] == old(disk[..])
  {
    ok := 0 <= sector && (sector + n) * WPS <= disk.Length;
    if ok {
      forall k | 0 <= k < n * WPS {
        disk[sector * WPS + k] := buf[k];
      }
    }
  }

  method Read(disk: array<Half>, buf: array<Half>, sector: int, n: nat) returns (ok: bool)
    requires disk != buf && buf.Length == CHUNK * WPS && 0 < n <= CHUNK
    modifies buf
    ensures ok <==> Fits(disk.Length, sector, n)
    ensures ok ==> buf[..n * WPS] == disk[sector * WPS..(sector + n) * WPS]
  {
    ok := 0 <= sector && (sector + n) * WPS <= disk.Length;
    if ok {
      forall k | 0 <= k < n * WPS {
        buf[k] := disk[sector * WPS + k];
      }
    }
  }

  method CheckSector(buf: array<Half>, uniform: bool, first: int, sec: nat) returns (checked: nat, bad: nat)
    requires buf.Length == CHUNK * WPS && sec < CHUNK
    ensures checked == WPS
    ensures bad == Differ(buf[sec * WPS..(sec + 1) * WPS], Words(false, uniform, (first + sec) * WPS, WPS))
  {
    ghost var got, want := buf[sec * WPS..(sec + 1) * WPS], Words(false, uniform, (first + sec) * WPS, WPS);
    checked, bad := 0, 0;
    for off := 0 to WPS
      invariant checked == off && bad == Differ(got[..off], want[..off])
    {
      var w := PatWord(uniform, first + sec, off);
      assert ((first + sec) * WPS + off) / WPS == first + sec && ((first + sec) * WPS + off) % WPS == off;
      assert want[off] == w && got[off] == buf[sec * WPS + off];
      DifferSnoc(got, want, off);
      checked := checked + 1;
      if buf[sec * WPS + off] != w {
        bad := bad + 1;
      }
    }
    assert got[..WPS] == got && want[..WPS] == want;
  }

  method CheckBuffer(buf: array<Half>, uniform: bool, first: int, n: nat) returns (checked: nat, bad: nat)
    requires buf.Length == CHUNK * WPS && n <= CHUNK
    ensures checked == n * WPS
    ensures bad == Differ(buf[..n * WPS], Words(false, uniform, first * WPS, n * WPS))
  {
    checked, bad := 0, 0;
    for sec := 0 to n
      invariant checked == sec * WPS
      invariant bad == Differ(buf[..sec * WPS], Words(false, uniform, first * WPS, sec * WPS))
    {
      var c, b := CheckSector(buf, uniform, first, sec);
      WordsConcat(false, uniform, first * WPS, sec * WPS, WPS);
      DifferConcat(buf[..sec * WPS], Words(false, uniform, first * WPS, sec * WPS),
                   buf[sec * WPS..(sec + 1) * WPS], Words(false, uniform, (first + sec) * WPS, WPS));
      assert buf[..sec * WPS] + buf[sec * WPS..(sec + 1) * WPS] == buf[..(sec + 1) * WPS];
      checked, bad := checked + c, bad + b;
    }
  }

  // The next n sectors, `base` sectors into a range whose medium was `was`.
  method WriteChunk(disk: array<Half>, buf: array<Half>, start: int, base: nat, n: nat, fill: bool, uniform: bool,
                    ghost was: seq<Half>)
    returns (ok: bool)
    requires disk != buf && buf.Length == CHUNK * WPS && 0 < n <= CHUNK
    requires |was| == disk.Length && Fits(|was|, start, base) && disk[..] == Stamped(was, start, base, fill, uniform)
    modifies disk, buf
    ensures ok <==> Fits(disk.Length, start + base, n)
    ensures ok ==> Fits(|was|, start, base + n) && disk[..] == Stamped(was, start, base + n, fill, uniform)
  {
    FillBuffer(buf, fill, uniform, start + base, n);
    ok := Write(disk, buf, start + base, n);
    if ok {
      StampedMore(was, start, base, n, fill, uniform);
    }
  }

  method ReadChunk(disk: array<Half>, buf: array<Half>, sector: int, n: nat, uniform: bool)
    returns (ok: bool, checked: nat, bad: nat)
    requires disk != buf && buf.Length == CHUNK * WPS && 0 < n <= CHUNK
    modifies buf
    ensures ok <==> Fits(disk.Length, sector, n)
    ensures ok ==> checked == n * WPS && bad == Wrong(disk[..], sector, n, uniform)
  {
    checked, bad := 0, 0;
    ok := Read(disk, buf, sector, n);
    if ok {
      checked, bad := CheckBuffer(buf, uniform, sector, n);
      assert disk[..][sector * WPS..(sector + n) * WPS] == disk[sector * WPS..(sector + n) * WPS];
    }
  }

  // ------------------------------------------------------------------
  // One pass
  // ------------------------------------------------------------------

  // A count from the command line, which may be negative.
  function Clip(nsec: int): nat {
    if nsec <= 0 then 0 else nsec
  }

  method WritePass(disk: array<Half>, buf: array<Half>, start: int, nsec: int, fill: bool, uniform: bool)
    returns (ok: bool, ios: seq<(int, int)>)
    requires disk != buf && buf.Length == CHUNK * WPS
    modifies disk, buf
    ensures ok <==> Fits(disk.Length, start, Clip(nsec))
    ensures ok ==> Covers(ios, start, Clip(nsec)) && disk[..] == Stamped(old(disk[..]), start, Clip(nsec), fill, uniform)
  {
    ok, ios := true, [];
    var base := 0;
    ghost var was := disk[..];
    while base < nsec
      invariant 0 <= base <= Clip(nsec) && Fits(disk.Length, start, base)
      invariant Covers(ios, start, base)
      invariant disk[..] == Stamped(was, start, base, fill, uniform)
    {
      var n := if nsec - base < CHUNK then nsec - base else CHUNK;
      ok := WriteChunk(disk, buf, start, base, n, fill, uniform, was);
      if !ok {
        FitsPart(disk.Length, start, base, n, Clip(nsec));
        return;
      }
      CoversSnoc(ios, start, base, n);
      ios := ios + [(start + base, n)];
      base := base + n;
    }
  }

  method VerifyPass(disk: array<Half>, buf: array<Half>, start: int, nsec: int, uniform: bool)
    returns (ok: bool, checked: nat, bad: nat, ios: seq<(int, int)>)
    requires disk != buf && buf.Length == CHUNK * WPS
    modifies buf
    ensures ok <==> Fits(disk.Length, start, Clip(nsec))
    ensures ok ==> Covers(ios, start, Clip(nsec)) && checked == Clip(nsec) * WPS
                   && bad == Wrong(disk[..], start, Clip(nsec), uniform)
  {
    hide Words, Differ;
    ok, checked, bad, ios := true, 0, 0, [];
    var base := 0;
    while base < nsec
      invariant 0 <= base <= Clip(nsec) && Fits(disk.Length, start, base)
      invariant Covers(ios, start, base) && checked == base * WPS
      invariant bad == Wrong(disk[..], start, base, uniform)
    {
      var n := if nsec - base < CHUNK then nsec - base else CHUNK;
      var c: nat, b: nat;
      ok, c, b := ReadChunk(disk, buf, start + base, n, uniform);
      if !ok {
        FitsPart(disk.Length, start, base, n, Clip(nsec));
        return;
      }
      CoversSnoc(ios, start, base, n);
      WrongMore(disk[..], start, base, n, uniform);
      ios := ios + [(start + base, n)];
      checked, bad := checked + c, bad + b;
      base := base + n;
    }
  }

  // ------------------------------------------------------------------
  // The program
  // ------------------------------------------------------------------

  datatype Exit = Finished(wrong: bool) | FillWritten | Failed

  method OnePass(disk: array<Half>, buf: array<Half>, start: int, nsec: int, vonly: bool, fill: bool, uniform: bool)
    returns (ok: bool, checked: nat, bad: nat)
    requires disk != buf && buf.Length == CHUNK * WPS
    modifies disk, buf
    ensures ok <==> Fits(disk.Length, start, Clip(nsec))
    ensures vonly ==> disk[..] == old(disk[..])
    ensures ok && !vonly ==> disk[..] == Stamped(old(disk[..]), start, Clip(nsec), fill, uniform)
    ensures ok && (vonly || !fill) ==>
      checked == Clip(nsec) * WPS && bad == if vonly then Wrong(disk[..], start, Clip(nsec), uniform) else 0
  {
    ok, checked, bad := true, 0, 0;
    if !vonly {
      var ios;
      ok, ios := WritePass(disk, buf, start, nsec, fill, uniform);
      if !ok || fill {
        return;
      }
      StampedIsRight(old(disk[..]), start, Clip(nsec), uniform);
    }
    var ios;
    ok, checked, bad, ios := VerifyPass(disk, buf, start, nsec, uniform);
  }

  // Main result: on a medium that keeps what it is given, any number of passes stamps
  // the range and nothing else; a verify counts every word of the range once a pass, and
  // finds passes times the wrong ones when verifying only, and none after writing.
  method Patwr(disk: array<Half>, start: int, nsec: int, passes: int, vonly: bool, fill: bool, uniform: bool)
    returns (exit: Exit, checked: nat, bad: nat)
    modifies disk
    ensures exit == Failed <==> passes > 0 && !Fits(disk.Length, start, Clip(nsec))
    ensures exit == Failed <==> passes > 0 && nsec > 0 && (start < 0 || 256 * (start + nsec) > disk.Length)
    ensures vonly || passes <= 0 ==> disk[..] == old(disk[..])
    ensures !vonly && passes > 0 && exit != Failed ==>
      disk[..] == Stamped(old(disk[..]), start, Clip(nsec), fill, uniform)
    ensures exit == FillWritten <==> fill && !vonly && passes > 0 && exit != Failed
    ensures exit.Finished? ==>
      && checked == Clip(passes) * (Clip(nsec) * WPS)
      && (passes > 0 ==>
            bad == if vonly then passes * Wrong(old(disk[..]), start, Clip(nsec), uniform) else 0)
      && exit.wrong == (bad != 0)
  {
    var buf := new Half[CHUNK * WPS](_ => 0);
    checked, bad := 0, 0;
    ghost var n, was := Clip(nsec), disk[..];
    ghost var each := if Fits(disk.Length, start, n) && vonly then Wrong(was, start, n, uniform) else 0;
    for i := 0 to Clip(passes)
      invariant i > 0 ==> Fits(disk.Length, start, n) && (vonly || !fill)
      invariant disk[..] == if vonly || i == 0 then was else Stamped(was, start, n, fill, uniform)
      invariant checked == i * (n * WPS) && bad == i * each
    {
      if i > 0 {
        StampedTwice(was, start, n, fill, uniform);
      }
      var ok, c, b := OnePass(disk, buf, start, nsec, vonly, fill, uniform);
      if !ok {
        return Failed, checked, bad;
      }
      if fill && !vonly {
        return FillWritten, checked, bad;
      }
      Another(i, n * WPS);
      Another(i, each);
      checked, bad := checked + c, bad + b;
    }
    exit := Finished(bad != 0);
  }

  lemma Another(i: nat, k: nat)
    ensures (i + 1) * k == i * k + k
  {
  }
}
