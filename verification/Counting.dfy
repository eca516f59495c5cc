// Counting the places where two sequences differ, which is what every checker in
// tools/ reports.
module Counting {

  function Differ<T(==)>(a: seq<T>, b: seq<T>): (n: nat)
    requires |a| == |b|
    ensures n <= |a|
    decreases |a|
  {
    if |a| == 0 then 0
    else Differ(a[..|a| - 1], b[..|b| - 1]) + (if a[|a| - 1] == b[|b| - 1] then 0 else 1)
  }

  // One more element, as a loop adds it.
  lemma DifferSnoc<T>(a: seq<T>, b: seq<T>, k: nat)
    requires |a| == |b| && k < |a|
    ensures Differ(a[..k + 1], b[..k + 1]) == Differ(a[..k], b[..k]) + (if a[k] == b[k] then 0 else 1)
  {
    assert a[..k + 1][..k] == a[..k] && b[..k + 1][..k] == b[..k];
  }

  lemma {:induction false} DifferConcat<T>(a: seq<T>, b: seq<T>, c: seq<T>, d: seq<T>)
    requires |a| == |b| && |c| == |d|
    ensures Differ(a + c, b + d) == Differ(a, b) + Differ(c, d)
    decreases |c|
  {
    if c == [] {
      assert a + c == a && b + d == b;
    } else {
      var n := |c| - 1;
      DifferConcat(a, b, c[..n], d[..n]);
      assert (a + c)[..|a| + n] == a + c[..n] && (b + d)[..|b| + n] == b + d[..n];
    }
  }

  lemma {:induction false} DifferZero<T>(a: seq<T>, b: seq<T>)
    requires |a| == |b|
    ensures Differ(a, b) == 0 <==> a == b
    decreases |a|
  {
    if |a| > 0 {
      var n := |a| - 1;
      DifferZero(a[..n], b[..n]);
      assert a == a[..n] + [a[n]] && b == b[..n] + [b[n]];
    }
  }

  lemma {:induction false} DifferAll<T>(a: seq<T>, b: seq<T>)
    requires |a| == |b| && forall i :: 0 <= i < |a| ==> a[i] != b[i]
    ensures Differ(a, b) == |a|
    decreases |a|
  {
    if |a| > 0 {
      DifferAll(a[..|a| - 1], b[..|b| - 1]);
    }
  }

  // Spoiling one good element is always counted.
  lemma {:induction false} DifferSpoil<T>(a: seq<T>, b: seq<T>, k: nat, x: T)
    requires |a| == |b| && k < |a| && a[k] == b[k] && x != b[k]
    ensures Differ(a[k := x], b) == Differ(a, b) + 1
    decreases |a|
  {
    var n := |a| - 1;
    if k < n {
      DifferSpoil(a[..n], b[..n], k, x);
      assert a[k := x][..n] == a[..n][k := x];
    } else {
      assert a[k := x][..n] == a[..n];
    }
  }
}
