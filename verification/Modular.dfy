/** Positions in a ring of n cells. */
module Modular {

  lemma WrapOnce(x: int, n: int)
    requires 0 < n && 0 <= x < 2 * n
    ensures x % n == if x < n then x else x - n
  {
    if x >= n {
      var y := x - n;
      assert x == 1 * n + y;
      DivisionIs(x, n, 1, y);
    }
  }

  lemma DivisionIs(x: int, n: int, q: int, r: int)
    requires 0 < n && x == q * n + r && 0 <= r < n
    ensures x / n == q && x % n == r
  {
    var d := x / n - q;
    assert x == (x / n) * n + x % n;
    assert d * n == r - x % n by {
      assert (x / n) * n - q * n == d * n;
    }
    if d != 0 {
      MultipleIsFar(d, n);
    }
  }

  lemma MultipleIsFar(d: int, n: int)
    requires d != 0 && n > 0
    ensures d * n >= n || d * n <= -n
  {
  }

  /** Advancing a reduced position by one. */
  lemma Next(x: nat, n: nat)
    requires n > 0
    ensures (x % n + 1) % n == (x + 1) % n
  {
    var q, r := x / n, x % n;
    assert x == q * n + r;
    if r + 1 < n {
      DivisionIs(x + 1, n, q, r + 1);
      DivisionIs(r + 1, n, 0, r + 1);
    } else {
      assert x + 1 == (q + 1) * n + 0;
      DivisionIs(x + 1, n, q + 1, 0);
      DivisionIs(r + 1, n, 1, 0);
    }
  }

  /** The distance between two positions less than a lap apart. */
  lemma Lap(r: nat, w: nat, n: nat)
    requires n > 0 && r <= w < r + n
    ensures (w % n - r % n + n) % n == w - r
  {
    var q, a := r / n, r % n;
    assert r == q * n + a;
    var d := w - r;
    if a + d < n {
      assert w == q * n + (a + d);
      DivisionIs(w, n, q, a + d);
      WrapOnce(d + n, n);
    } else {
      assert w == (q + 1) * n + (a + d - n);
      DivisionIs(w, n, q + 1, a + d - n);
      WrapOnce(d, n);
    }
  }

  /** Two positions less than a lap apart occupy different cells. */
  lemma Apart(r: nat, w: nat, n: nat)
    requires n > 0 && r < w < r + n
    ensures r % n != w % n
  {
    Lap(r, w, n);
    if r % n == w % n {
      WrapOnce(n, n);
    }
  }
}
