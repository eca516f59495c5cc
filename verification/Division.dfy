// Division is determined by its defining equation.
module Division {

  lemma Multiple(k: int, m: int)
    requires m >= 1
    ensures k >= 1 ==> m * k >= m
    ensures k <= -1 ==> m * k <= -m
    ensures k == 0 ==> m * k == 0
  {
    if k >= 1 {
      assert m * k == m + m * (k - 1);
    } else if k <= -1 {
      assert m * k == -m + m * (k + 1);
    }
  }

  lemma Unique(n: int, m: int, q: int, r: int)
    requires n == m * q + r && 0 <= r < m
    ensures n / m == q && n % m == r
  {
    var q1, r1 := n / m, n % m;
    assert n == m * q1 + r1 && 0 <= r1 < m;
    assert m * (q - q1) == m * q - m * q1;
    Multiple(q - q1, m);
  }

  lemma AddMod(a: int, b: int, m: int)
    requires m >= 1
    ensures (a % m + b) % m == (a + b) % m
  {
    var q, t := a / m, (a % m + b) / m;
    assert a == m * q + a % m && a % m + b == m * t + (a % m + b) % m;
    assert m * (q + t) == m * q + m * t;
    Unique(a + b, m, q + t, (a % m + b) % m);
  }

  lemma Successor(n: nat, m: int)
    requires m >= 1
    ensures (n + 1) % m == (n % m + 1) % m
  {
    var q, r := n / m, n % m;
    assert n == m * q + r && 0 <= r < m;
    if r + 1 < m {
      Unique(n + 1, m, q, r + 1);
      Unique(r + 1, m, 0, r + 1);
    } else {
      assert m * (q + 1) == m * q + m;
      Unique(n + 1, m, q + 1, 0);
      Unique(r + 1, m, 1, 0);
    }
  }
}
