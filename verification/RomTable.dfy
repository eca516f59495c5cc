// The case tables tools/rom.c prints for a PROM image, and what rtl/sun2-common/bootrom.v
// makes of one: patching the image and printing the table commute.
module RomTable {
  import opened Buffers
  import opened RomPatch

  // One case item: label and value.
  type Item = (nat, nat)

  function ByteItem(data: seq<Byte>, low: nat, a: nat): Item
    requires low + 2 * a < |data|
  {
    (a, data[low + 2 * a])
  }

  // Big-endian values of the words and doublewords.
  function WordItem(data: seq<Byte>, o: nat): Item
    requires 2 * o + 1 < |data|
  {
    (o, data[2 * o] as int * 0x100 + data[2 * o + 1])
  }

  function DoublewordItem(data: seq<Byte>, o: nat): Item
    requires 4 * o + 3 < |data|
  {
    (o, data[4 * o] as int * 0x100_0000 + data[4 * o + 1] as int * 0x1_0000
        + data[4 * o + 2] as int * 0x100 + data[4 * o + 3])
  }

  function Lane(data: seq<Byte>, low: nat): (t: seq<Item>)
    requires low <= 1
    ensures |t| == (|data| + 1 - low) / 2
  {
    seq((|data| + 1 - low) / 2, a requires 0 <= a < (|data| + 1 - low) / 2 => ByteItem(data, low, a))
  }

  function WordTable(data: seq<Byte>): (t: seq<Item>)
    ensures |t| == |data| / 2
  {
    seq(|data| / 2, o requires 0 <= o < |data| / 2 => WordItem(data, o))
  }

  function DoublewordTable(data: seq<Byte>): (t: seq<Item>)
    ensures |t| == |data| / 4
  {
    seq(|data| / 4, o requires 0 <= o < |data| / 4 => DoublewordItem(data, o))
  }

  // A little-endian host's loads, and the swaps the program applies to them.
  function Load16(data: seq<Byte>, o: nat): nat
    requires 2 * o + 1 < |data|
  {
    data[2 * o] as int + data[2 * o + 1] as int * 0x100
  }

  function Load32(data: seq<Byte>, o: nat): nat
    requires 4 * o + 3 < |data|
  {
    data[4 * o] as int + data[4 * o + 1] as int * 0x100 + data[4 * o + 2] as int * 0x1_0000
    + data[4 * o + 3] as int * 0x100_0000
  }

  function Swap16(w: nat): nat {
    w / 0x100 % 0x100 + w % 0x100 * 0x100
  }

  function Swap32(w: nat): nat {
    w / 0x100_0000 % 0x100 + w / 0x1_0000 % 0x100 * 0x100 + w / 0x100 % 0x100 * 0x1_0000 + w % 0x100 * 0x100_0000
  }

  lemma Swap16Is(data: seq<Byte>, o: nat)
    requires 2 * o + 1 < |data|
    ensures Swap16(Load16(data, o)) == WordItem(data, o).1
  {
  }

  lemma Bytes32(a: Byte, b: Byte, c: Byte, d: Byte, w: nat)
    requires w == a as int + b as int * 0x100 + c as int * 0x1_0000 + d as int * 0x100_0000
    ensures w % 0x100 == a && w / 0x100 % 0x100 == b && w / 0x1_0000 % 0x100 == c && w / 0x100_0000 % 0x100 == d
  {
    assert w / 0x100 == b as int + c as int * 0x100 + d as int * 0x1_0000;
    assert w / 0x1_0000 == c as int + d as int * 0x100;
  }

  lemma Swap32Is(data: seq<Byte>, o: nat)
    requires 4 * o + 3 < |data|
    ensures Swap32(Load32(data, o)) == DoublewordItem(data, o).1
  {
    Bytes32(data[4 * o], data[4 * o + 1], data[4 * o + 2], data[4 * o + 3], Load32(data, o));
  }

  // ------------------------------------------------------------------
  // The program
  // ------------------------------------------------------------------

  // The table the first letter of the argument asks for; anything but 0, W and D asks for
  // the even bytes.
  function Table(data: seq<Byte>, c: char): seq<Item> {
    if c == 'W' then WordTable(data) else if c == 'D' then DoublewordTable(data) else Lane(data, if c == '0' then 1 else 0)
  }

  method Print(data: seq<Byte>, c: char) returns (out: seq<Item>)
    ensures out == Table(data, c)
  {
    var word, doubleword := c == 'W', c == 'D';
    if !word && !doubleword {
      out := PrintLane(data, if c == '0' then 1 else 0);
    } else if word {
      out := PrintWords(data);
    } else {
      out := PrintDoublewords(data);
    }
  }

  method PrintLane(data: seq<Byte>, low: nat) returns (out: seq<Item>)
    requires low <= 1
    ensures out == Lane(data, low)
  {
    out := [];
    var o, a: nat := low, 0;
    while o < |data|
      invariant o == low + 2 * a && a <= |Lane(data, low)| && out == Lane(data, low)[..a]
    {
      out := out + [(a, data[o])];
      a := a + 1;
      o := o + 2;
    }
  }

  method PrintWords(data: seq<Byte>) returns (out: seq<Item>)
    ensures out == WordTable(data)
  {
    out := [];
    for o := 0 to |data| / 2
      invariant out == WordTable(data)[..o]
    {
      Swap16Is(data, o);
      out := out + [(o, Swap16(Load16(data, o)))];
    }
  }

  method PrintDoublewords(data: seq<Byte>) returns (out: seq<Item>)
    ensures out == DoublewordTable(data)
  {
    out := [];
    for o := 0 to |data| / 4
      invariant out == DoublewordTable(data)[..o]
    {
      Swap32Is(data, o);
      out := out + [(o, Swap32(Load32(data, o)))];
    }
  }

  // ------------------------------------------------------------------
  // The table as a ROM
  // ------------------------------------------------------------------

  // A case statement takes the first item whose label matches.
  function Lookup(t: seq<Item>, idx: nat): Option<nat> {
    if t == [] then None else if t[0].0 == idx then Some(t[0].1) else Lookup(t[1..], idx)
  }

  lemma {:induction false} LookupAt(t: seq<Item>, from: nat, idx: nat)
    requires forall i :: 0 <= i < |t| ==> t[i].0 == from + i
    ensures Lookup(t, idx) == if from <= idx < from + |t| then Some(t[idx - from].1) else None
    decreases |t|
  {
    if t != [] {
      LookupAt(t[1..], from + 1, idx);
    }
  }

  // Main result: for a whole image, every index of bootrom's fourteen-bit case has one
  // label, and reads the big-endian word at twice the index.
  lemma CaseComplete(rom: Image, idx: nat)
    requires idx < 0x4000
    ensures Lookup(WordTable(rom), idx) == Some(WordAt(rom, 2 * idx))
    ensures forall i, j :: 0 <= i < j < |WordTable(rom)| ==> WordTable(rom)[i].0 != WordTable(rom)[j].0
    ensures |WordTable(rom)| == 0x4000
  {
    LookupAt(WordTable(rom), 0, idx);
  }

  // One word patched is one label changed.
  lemma PutTable(rom: Image, addr: U32, w: nat)
    requires ROM_BASE <= addr < ROM_BASE + ROM_SIZE && addr % 2 == 0 && w <= 0xffff
    ensures var o := (addr - ROM_BASE) / 2;
      WordTable(Put(rom, addr - ROM_BASE, w)) == WordTable(rom)[o := (o, w)]
  {
    var at := addr - ROM_BASE;
    var o := at / 2;
    var r := Put(rom, at, w);
    var a, b := WordTable(r), WordTable(rom)[o := (o, w)];
    forall i | 0 <= i < |a|
      ensures a[i] == b[i]
    {
      assert a[i] == WordItem(r, i);
      if i != o {
        assert r[2 * i] == rom[2 * i] && r[2 * i + 1] == rom[2 * i + 1];
        assert b[i] == WordItem(rom, i);
      }
    }
  }

  // A patch list as edits of the printed table, in order.
  function Edit(t: seq<Item>, ps: seq<Line>): (r: seq<Item>)
    requires |t| == 0x4000
    decreases |ps|
  {
    if ps == [] then t
    else if !WellFormed(ps[0]) then Edit(t, ps[1..])
    else
      var o := (ps[0].addr - ROM_BASE) / 2;
      Edit(t[o := (o, ps[0].replacement)], ps[1..])
  }

  // Main result: printing a patched image is editing the printed table.
  lemma {:induction false} Commutes(rom: Image, ps: seq<Line>)
    requires ApplyLines(rom, ps).Patched?
    ensures WordTable(ApplyLines(rom, ps).rom) == Edit(WordTable(rom), ps)
    decreases |ps|
  {
    if ps != [] {
      if ps[0].Patch? {
        PutTable(rom, ps[0].addr, ps[0].replacement);
      }
      Commutes(ApplyLine(rom, ps[0]).rom, ps[1..]);
    }
  }

  // The two byte-lane tables, odd bytes and even ones, interleaved.
  function Interleave(even: seq<Item>, odd: seq<Item>): (s: seq<nat>)
    requires |even| == |odd|
    ensures |s| == 2 * |even|
  {
    seq(2 * |even|, i requires 0 <= i < 2 * |even| => if i % 2 == 0 then even[i / 2].1 else odd[i / 2].1)
  }

  lemma LaneAt(data: seq<Byte>, low: nat, a: nat)
    requires low <= 1 && low + 2 * a < |data|
    ensures a < |Lane(data, low)| && Lane(data, low)[a] == (a, data[low + 2 * a] as int)
  {
  }

  lemma InterleaveAt(rom: Image, i: nat)
    requires i < ROM_SIZE
    ensures |Lane(rom, 0)| == |Lane(rom, 1)| == 0x4000
    ensures Interleave(Lane(rom, 0), Lane(rom, 1))[i] == rom[i]
  {
    LaneAt(rom, i % 2, i / 2);
  }

  // Main result: what `rom 1` and `rom 0` print interleaves to the image, the first with
  // the even bytes.
  lemma LanesInterleave(rom: Image)
    ensures |Table(rom, '1')| == |Table(rom, '0')| == 0x4000
    ensures Interleave(Table(rom, '1'), Table(rom, '0')) == rom
  {
    var s := Interleave(Lane(rom, 0), Lane(rom, 1));
    forall i | 0 <= i < ROM_SIZE
      ensures s[i] == rom[i]
    {
      InterleaveAt(rom, i);
    }
  }

  // Item by item, the word table is the even lane over the odd one.
  lemma LanesMakeWords(rom: Image, o: nat)
    requires o < 0x4000
    ensures |Table(rom, 'W')| == |Table(rom, '1')| == |Table(rom, '0')| == 0x4000
    ensures Table(rom, 'W')[o] == (o, Table(rom, '1')[o].1 * 0x100 + Table(rom, '0')[o].1)
  {
    LaneAt(rom, 0, o);
    LaneAt(rom, 1, o);
    assert WordTable(rom)[o] == WordItem(rom, o);
  }

  // And each doubleword is two words, high one first.
  lemma WordsMakeDoublewords(rom: Image, o: nat)
    requires o < 0x2000
    ensures |Table(rom, 'D')| == 0x2000 && |Table(rom, 'W')| == 0x4000
    ensures Table(rom, 'D')[o] == (o, Table(rom, 'W')[2 * o].1 * 0x1_0000 + Table(rom, 'W')[2 * o + 1].1)
  {
    assert Table(rom, 'D')[o] == DoublewordItem(rom, o);
    assert Table(rom, 'W')[2 * o] == WordItem(rom, 2 * o) && Table(rom, 'W')[2 * o + 1] == WordItem(rom, 2 * o + 1);
  }
}
