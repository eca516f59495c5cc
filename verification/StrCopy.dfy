// The inner loop of libc's strncpy as tools/strprobe/strprobe.c reproduces it: entered at
// its dbeq, so the count is decremented before the first byte moves.
module StrCopy {
  import opened Buffers
  import opened M68k

  // How many bytes go: through the first NUL, but no more than the limit.
  function Length(src: seq<Byte>, limit: nat): (k: nat)
    ensures k <= limit && k <= |src|
    decreases |src|
  {
    if limit == 0 || src == [] then 0
    else if src[0] == 0 then 1
    else 1 + Length(src[1..], limit - 1)
  }

  // The limit was reached or the last byte was a NUL, and no byte before it was.
  predicate Stops(src: seq<Byte>, limit: nat, k: nat) {
    && k <= limit && k <= |src|
    && (forall j :: 0 <= j < k - 1 ==> src[j] != 0)
    && (k == limit || (k > 0 && src[k - 1] == 0))
  }

  // Length is where a copy that finds its end stops, and the only place it can.
  lemma {:induction false} LengthIs(src: seq<Byte>, limit: nat, k: nat)
    requires limit <= |src| || 0 in src
    ensures Stops(src, limit, k) <==> k == Length(src, limit)
    decreases |src|
  {
    if limit > 0 && src != [] && src[0] != 0 {
      var rest := src[1..];
      assert 0 in src ==> 0 in rest by {
        if 0 in src {
          var j :| 0 <= j < |src| && src[j] == 0;
          assert rest[j - 1] == 0;
        }
      }
      if k > 0 {
        LengthIs(rest, limit - 1, k - 1);
        assert forall j :: 0 <= j < |rest| ==> rest[j] == src[j + 1];
        assert forall j :: 0 < j < |src| ==> src[j] == rest[j - 1];
      }
    }
  }

  // While no NUL has gone by and the limit is not reached there is another byte to move.
  lemma {:induction false} Another(src: seq<Byte>, limit: nat, k: nat)
    requires limit <= |src| || 0 in src
    requires k < limit && k <= |src| && forall j :: 0 <= j < k ==> src[j] != 0
    ensures k < Length(src, limit)
    decreases |src|
  {
    if src == [] {
      assert false;
    } else if k > 0 {
      var rest := src[1..];
      assert 0 in src ==> 0 in rest by {
        if 0 in src {
          var j :| 0 <= j < |src| && src[j] == 0;
          assert rest[j - 1] == 0;
        }
      }
      Another(rest, limit - 1, k - 1);
    }
  }

  // bras 3f ; 2: moveb a1@+,a0@+ ; 3: dbeq d1,2b.  The condition codes on entry are those
  // of the move of the destination pointer, so a null destination copies nothing.
  // Main result: exactly the bytes through the first NUL or the count are copied, nothing
  // else is written, and d1 is what is left for the padding.
  method StrncpyLoop(dst: array<Byte>, src: seq<Byte>, n: U32, isNull: bool) returns (d1: U32, k: nat)
    requires n % 0x1_0000 <= |src| || 0 in src
    requires Length(src, n % 0x1_0000) <= dst.Length
    modifies dst
    ensures k == if isNull then 0 else Length(src, n % 0x1_0000)
    ensures k <= |src| && k <= dst.Length && dst[..k] == src[..k] && dst[k..] == old(dst[..])[k..]
    ensures isNull || (k > 0 && src[k - 1] == 0) ==> d1 == n - k
    ensures !isNull && !(k > 0 && src[k - 1] == 0) ==> d1 % 0x1_0000 == 0xffff
  {
    ghost var limit := n % 0x1_0000;
    k := 0;
    var r := Dbcc(isNull, n);
    var again: bool := r.0;
    d1 := r.1;
    while again
      invariant k <= |src| && k <= dst.Length
      invariant again ==> k < limit && d1 == n - k - 1 && !isNull && forall j :: 0 <= j < k ==> src[j] != 0
      invariant !again && !isNull ==> Stops(src, limit, k) && (if k > 0 && src[k - 1] == 0 then d1 == n - k else d1 % 0x1_0000 == 0xffff)
      invariant isNull ==> k == 0 && d1 == n && !again
      invariant dst[..k] == src[..k] && forall j :: k <= j < dst.Length ==> dst[j] == old(dst[j])
      decreases again, d1
    {
      Another(src, limit, k);
      LowWord(n, k);
      var byte := src[k];
      dst[k] := byte;
      k := k + 1;
      r := Dbcc(byte == 0, d1);
      again, d1 := r.0, r.1;
    }
    LengthIs(src, limit, k);
    assert dst[k..] == old(dst[..])[k..];
  }

  lemma LowWord(n: U32, k: nat)
    requires k < n % 0x1_0000
    ensures (n - k - 1) % 0x1_0000 == n % 0x1_0000 - k - 1
  {
  }
}
