// The machine's integers and the buffers they fill.
module Buffers {

  type Byte = b: int | 0 <= b < 0x100
  type Half = n: int | 0 <= n < 0x1_0000
  type U32 = n: int | 0 <= n < 0x1_0000_0000

  type Sector = s: seq<Byte> | |s| == 512 witness seq(512, _ => 0)

  // m with s written over it from `at`.
  function Splice<T>(m: seq<T>, at: nat, s: seq<T>): (r: seq<T>)
    requires at + |s| <= |m|
    ensures |r| == |m|
    ensures forall i :: 0 <= i < |m| ==> r[i] == if at <= i < at + |s| then s[i - at] else m[i]
  {
    m[..at] + s + m[at + |s|..]
  }

  function Repeat<T>(v: T, n: nat): (s: seq<T>)
    ensures |s| == n && forall i :: 0 <= i < n ==> s[i] == v
  {
    seq<T>(n, _ => v)
  }
}
