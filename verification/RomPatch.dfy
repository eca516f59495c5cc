// The guarded PROM patcher of tools/rompatch.c: a list of word patches applied in order,
// each only over the word it expects, and an output file only if all of them took.
module RomPatch {
  import opened Buffers

  const ROM_BASE := 0xef0000
  const ROM_SIZE := 32768

  type Image = s: seq<Byte> | |s| == ROM_SIZE witness seq(ROM_SIZE, _ => 0)

  // A line as the scanner sees it: blank or a comment, three hexadecimal numbers, or
  // neither.
  datatype Line = Blank | Garbled | Patch(addr: U32, expected: U32, replacement: U32)

  // Exit status of a refusal: 2 for a bad line, 3 for an unexpected word, 1 for a file
  // that cannot be opened or is too short.
  datatype Outcome = Patched(rom: Image, applied: nat) | Refused(status: nat)

  predicate WellFormed(p: Line) {
    p.Patch? && ROM_BASE <= p.addr < ROM_BASE + ROM_SIZE && p.addr % 2 == 0
    && p.expected <= 0xffff && p.replacement <= 0xffff
  }

  function WordAt(rom: Image, offset: nat): nat
    requires offset + 1 < ROM_SIZE
  {
    rom[offset] as int * 256 + rom[offset + 1]
  }

  function Put(rom: Image, offset: nat, w: nat): Image
    requires offset + 1 < ROM_SIZE && w <= 0xffff
  {
    rom[offset := w / 256][offset + 1 := w % 256]
  }

  function ApplyLine(rom: Image, p: Line): Outcome {
    if p == Blank then Patched(rom, 0)
    else if !WellFormed(p) then Refused(2)
    else if WordAt(rom, p.addr - ROM_BASE) != p.expected then Refused(3)
    else Patched(Put(rom, p.addr - ROM_BASE, p.replacement), 1)
  }

  function ApplyLines(rom: Image, ps: seq<Line>): Outcome
    decreases |ps|
  {
    if ps == [] then Patched(rom, 0)
    else match ApplyLine(rom, ps[0])
      case Refused(status) => Refused(status)
      case Patched(rom1, n) =>
        match ApplyLines(rom1, ps[1..])
        case Refused(status) => Refused(status)
        case Patched(rom2, m) => Patched(rom2, n + m)
  }

  // ------------------------------------------------------------------
  // In place, as the program does it
  // ------------------------------------------------------------------

  method Apply(rom: array<Byte>, ps: seq<Line>) returns (status: nat, applied: nat)
    requires rom.Length == ROM_SIZE
    modifies rom
    ensures match ApplyLines(old(rom[..]), ps)
            case Refused(s) => status == s != 0
            case Patched(r, n) => status == 0 && rom[..] == r && applied == n
  {
    applied := 0;
    ghost var want := ApplyLines(rom[..], ps);
    for i := 0 to |ps|
      invariant want == (match ApplyLines(rom[..], ps[i..])
                         case Refused(s) => Refused(s)
                         case Patched(r, n) => Patched(r, applied + n))
    {
      var p := ps[i];
      assert ps[i..][0] == p && ps[i..][1..] == ps[i + 1..];
      if p == Blank {
        continue;
      }
      if p == Garbled || p.addr < ROM_BASE || p.addr >= ROM_BASE + ROM_SIZE || p.addr % 2 == 1 {
        return 2, applied;
      }
      if p.expected > 0xffff || p.replacement > 0xffff {
        return 2, applied;
      }
      var offset := p.addr - ROM_BASE;
      var held := rom[offset] as int * 256 + rom[offset + 1];
      if held != p.expected {
        return 3, applied;
      }
      ghost var was := rom[..];
      rom[offset] := p.replacement / 256;
      rom[offset + 1] := p.replacement % 256;
      assert rom[..] == Put(was, offset, p.replacement);
      applied := applied + 1;
    }
    assert ps[|ps|..] == [];
    status := 0;
  }

  datatype Option<T> = None | Some(value: T)

  // The lines of all the files, up to the first that cannot be opened.
  function Joined(files: seq<Option<seq<Line>>>): seq<Line> {
    if files == [] || files[0] == None then [] else files[0].value + Joined(files[1..])
  }

  lemma {:induction false} ApplyConcat(rom: Image, a: seq<Line>, b: seq<Line>)
    ensures ApplyLines(rom, a + b) ==
            match ApplyLines(rom, a)
            case Refused(s) => Refused(s)
            case Patched(r, n) =>
              match ApplyLines(r, b)
              case Refused(s) => Refused(s)
              case Patched(q, m) => Patched(q, n + m)
    decreases |a|
  {
    if a == [] {
      assert a + b == b;
    } else {
      assert (a + b)[0] == a[0] && (a + b)[1..] == a[1..] + b;
      match ApplyLine(rom, a[0])
      case Refused(_) =>
      case Patched(rom1, _) => ApplyConcat(rom1, a[1..], b);
    }
  }

  // What becomes of the output path: it does not open, it takes less than an image, or it
  // takes all of it.
  datatype Path = Closed | Short | Open

  // All the patches apply, in order, to a whole image.
  predicate AllApply(input: Option<seq<Byte>>, files: seq<Option<seq<Line>>>) {
    files != [] && None !in files && input.Some? && |input.value| >= ROM_SIZE
    && ApplyLines(input.value[..ROM_SIZE], Joined(files)).Patched?
  }

  // An image of exactly 32 KiB is whole, one byte less is not, and more is cut off.
  lemma OneFile(image: seq<Byte>, ps: seq<Line>)
    ensures AllApply(Some(image), [Some(ps)]) <==> |image| >= 0x8000 && ApplyLines(image[..0x8000], ps).Patched?
    ensures !AllApply(Some(image), []) && !AllApply(None, [Some(ps)]) && !AllApply(Some(image), [Some(ps), None])
  {
    var files: seq<Option<seq<Line>>> := [Some(ps)];
    assert files[1..] == [] && Joined(files[1..]) == [];
    assert Joined(files) == ps + [] == ps;
    var more: seq<Option<seq<Line>>> := [Some(ps), None];
    assert more[1] == None;
  }

  // The program.  Main result: it writes an output file exactly when there is a whole
  // image, at least one patch file, every patch file opens, every line of all of them
  // applies in order and the output path takes it; and what it writes is that fold over
  // the first ROM_SIZE bytes.  The path is not touched unless all of them apply.
  method Rompatch(input: Option<seq<Byte>>, files: seq<Option<seq<Line>>>, path: Path)
    returns (status: nat, touched: bool, output: Option<Image>)
    ensures output.Some? <==> status == 0
    ensures output.Some? <==> AllApply(input, files) && path == Open
    ensures output.Some? ==> output.value == ApplyLines(input.value[..ROM_SIZE], Joined(files)).rom
    ensures touched <==> AllApply(input, files) && path != Closed
    ensures AllApply(input, files) ==> status == match path case Closed => 1 case Short => 2 case Open => 0
  {
    touched := false;
    output := None;
    if files == [] || input == None || |input.value| < ROM_SIZE {
      return 1, false, None;
    }
    var rom := new Byte[ROM_SIZE](k requires 0 <= k < ROM_SIZE => input.value[k]);
    ghost var image := input.value[..ROM_SIZE];
    assert rom[..] == image;
    ghost var want := ApplyLines(image, Joined(files));
    ghost var done: nat := 0;
    for i := 0 to |files|
      invariant None !in files[..i]
      invariant want == (match ApplyLines(rom[..], Joined(files[i..]))
                         case Refused(s) => Refused(s)
                         case Patched(r, n) => Patched(r, done + n))
    {
      assert files[i..][0] == files[i] && files[i..][1..] == files[i + 1..];
      if files[i] == None {
        return 1, false, None;
      }
      ApplyConcat(rom[..], files[i].value, Joined(files[i + 1..]));
      var n;
      status, n := Apply(rom, files[i].value);
      if status != 0 {
        return;
      }
      done := done + n;
      assert files[..i + 1] == files[..i] + [files[i]];
    }
    assert files[|files|..] == [] && files[..|files|] == files;
    match path
    case Closed => status := 1;
    case Short => status, touched := 2, true;
    case Open => status, touched, output := 0, true, Some(rom[..]);
  }

  // ------------------------------------------------------------------
  // What an accepted list means
  // ------------------------------------------------------------------

  // The word at `addr` once the first k lines have been applied, by looking back for the
  // last line that names it.
  function Before(rom: Image, ps: seq<Line>, k: nat, addr: U32): nat
    requires k <= |ps| && ROM_BASE <= addr < ROM_BASE + ROM_SIZE && addr % 2 == 0
  {
    if k == 0 then WordAt(rom, addr - ROM_BASE)
    else if ps[k - 1].Patch? && ps[k - 1].addr == addr then ps[k - 1].replacement
    else Before(rom, ps, k - 1, addr)
  }

  // Line k names an even address of the PROM and two sixteen-bit words.
  predicate Acceptable(ps: seq<Line>, k: nat)
    requires k < |ps|
  {
    ps[k].Patch? && 0xef0000 <= ps[k].addr < 0xef8000 && ps[k].addr % 2 == 0
    && ps[k].expected < 0x1_0000 && ps[k].replacement < 0x1_0000
  }

  predicate Applies(rom: Image, ps: seq<Line>, k: nat)
    requires k < |ps|
  {
    ps[k] == Blank || (Acceptable(ps, k) && ps[k].expected == Before(rom, ps, k, ps[k].addr))
  }

  // Any word of the image may be replaced by any other, if it is named right.
  lemma AnyPatch(rom: Image, offset: nat, w: nat)
    requires offset % 2 == 0 && offset < 0x8000 && w <= 0xffff
    ensures var p := ApplyLine(rom, Patch(0xef0000 + offset, 256 * (rom[offset] as int) + rom[offset + 1], w));
      p.Patched? && p.applied == 1 && 256 * (p.rom[offset] as int) + p.rom[offset + 1] == w
      && forall i :: 0 <= i < 0x8000 && i != offset && i != offset + 1 ==> p.rom[i] == rom[i]
  {
  }

  // Which refusal it is, and that it is the first line that does not apply which decides:
  // status 3 if only the word expected is wrong, and 2 otherwise.
  lemma {:induction false} RefusedExactly(rom: Image, ps: seq<Line>, k: nat)
    requires k < |ps| && !Applies(rom, ps, k) && forall j :: 0 <= j < k ==> Applies(rom, ps, j)
    ensures ApplyLines(rom, ps) == Refused(if Acceptable(ps, k) then 3 else 2)
    decreases |ps|
  {
    if k > 0 {
      assert Applies(rom, ps, 0);
      var rom1, rest := ApplyLine(rom, ps[0]).rom, ps[1..];
      forall j | 0 <= j < |rest|
        ensures Applies(rom1, rest, j) <==> Applies(rom, ps, j + 1)
      {
        if Acceptable(ps, j + 1) {
          BeforeTail(rom, ps, j + 1, ps[j + 1].addr);
        }
      }
      RefusedExactly(rom1, rest, k - 1);
    }
  }

  // Lines that are neither blank nor comments.
  function Entries(ps: seq<Line>): nat {
    if ps == [] then 0 else (if ps[0] == Blank then 0 else 1) + Entries(ps[1..])
  }

  lemma {:induction false} AppliedCounts(rom: Image, ps: seq<Line>)
    requires ApplyLines(rom, ps).Patched?
    ensures ApplyLines(rom, ps).applied == Entries(ps)
    decreases |ps|
  {
    if ps != [] {
      AppliedCounts(ApplyLine(rom, ps[0]).rom, ps[1..]);
    }
  }

  lemma {:induction false} BeforeTail(rom: Image, ps: seq<Line>, k: nat, addr: U32)
    requires ROM_BASE <= addr < ROM_BASE + ROM_SIZE && addr % 2 == 0
    requires 0 < k <= |ps| && ApplyLine(rom, ps[0]).Patched?
    ensures Before(rom, ps, k, addr) == Before(ApplyLine(rom, ps[0]).rom, ps[1..], k - 1, addr)
  {
    if k > 1 {
      assert ps[1..][k - 2] == ps[k - 1];
      BeforeTail(rom, ps, k - 1, addr);
    }
  }

  // Main result: a list is accepted exactly when every line that is not blank is well
  // formed and expects the word the last earlier line left at its address, or the
  // original one; and then every word of the result is what the last line left there.
  lemma {:induction false} AcceptedExactly(rom: Image, ps: seq<Line>)
    ensures ApplyLines(rom, ps).Patched? <==> forall k :: 0 <= k < |ps| ==> Applies(rom, ps, k)
    ensures ApplyLines(rom, ps).Patched? ==>
      forall addr: U32 :: ROM_BASE <= addr < ROM_BASE + ROM_SIZE && addr % 2 == 0 ==>
        WordAt(ApplyLines(rom, ps).rom, addr - ROM_BASE) == Before(rom, ps, |ps|, addr)
    decreases |ps|
  {
    if ps != [] {
      if ApplyLine(rom, ps[0]).Refused? {
        assert !Applies(rom, ps, 0);
      } else {
        var rom1, rest := ApplyLine(rom, ps[0]).rom, ps[1..];
        AcceptedExactly(rom1, rest);
        forall j | 0 <= j < |rest|
          ensures Applies(rom1, rest, j) <==> Applies(rom, ps, j + 1)
        {
          if Acceptable(ps, j + 1) {
            BeforeTail(rom, ps, j + 1, ps[j + 1].addr);
          }
        }
        assert Applies(rom, ps, 0);
        assert forall k :: 0 < k < |ps| && Applies(rom1, rest, k - 1) ==> Applies(rom, ps, k);
        if ApplyLines(rom, ps).Patched? {
          forall addr: U32 | ROM_BASE <= addr < ROM_BASE + ROM_SIZE && addr % 2 == 0
            ensures WordAt(ApplyLines(rom, ps).rom, addr - ROM_BASE) == Before(rom, ps, |ps|, addr)
          {
            BeforeTail(rom, ps, |ps|, addr);
          }
        }
      }
    }
  }

  // ------------------------------------------------------------------
  // Undoing
  // ------------------------------------------------------------------

  function Inverse(p: Line): Line {
    if p.Patch? then Patch(p.addr, p.replacement, p.expected) else p
  }

  function Undo(ps: seq<Line>): seq<Line> {
    if ps == [] then [] else Undo(ps[1..]) + [Inverse(ps[0])]
  }

  lemma UndoLine(rom: Image, p: Line)
    requires ApplyLine(rom, p).Patched?
    ensures ApplyLine(ApplyLine(rom, p).rom, Inverse(p)) == Patched(rom, ApplyLine(rom, p).applied)
  {
    if p.Patch? {
      var at := p.addr - ROM_BASE;
      assert Put(Put(rom, at, p.replacement), at, p.expected) == rom;
    }
  }

  // Main result: the list backwards with expected and new exchanged restores the image.
  lemma {:induction false} UndoRestores(rom: Image, ps: seq<Line>)
    requires ApplyLines(rom, ps).Patched?
    ensures ApplyLines(ApplyLines(rom, ps).rom, Undo(ps)) == Patched(rom, ApplyLines(rom, ps).applied)
    decreases |ps|
  {
    if ps != [] {
      var rom1 := ApplyLine(rom, ps[0]).rom;
      UndoRestores(rom1, ps[1..]);
      UndoLine(rom, ps[0]);
      var last := [Inverse(ps[0])];
      assert ApplyLines(rom1, last) == ApplyLine(rom1, last[0]) by {
        assert last[1..] == [];
      }
      ApplyConcat(ApplyLines(rom, ps).rom, Undo(ps[1..]), last);
    }
  }
}
