/** The Hamming distance between two strings. */
module Distance {

  function Hamming<T(==)>(x: seq<T>, y: seq<T>): (h: nat)
    requires |x| == |y|
    ensures h <= |x|
  {
    if x == [] then 0 else (if x[0] == y[0] then 0 else 1) + Hamming(x[1..], y[1..])
  }

  lemma {:induction false} HammingZero<T>(x: seq<T>, y: seq<T>)
    requires |x| == |y|
    ensures Hamming(x, y) == 0 <==> x == y
  {
    if x != [] {
      HammingZero(x[1..], y[1..]);
      assert x == [x[0]] + x[1..] && y == [y[0]] + y[1..];
    }
  }

  lemma {:induction false} HammingTriangle<T>(x: seq<T>, y: seq<T>, z: seq<T>)
    requires |x| == |y| == |z|
    ensures Hamming(x, z) <= Hamming(x, y) + Hamming(y, z)
    ensures Hamming(x, y) == Hamming(y, x)
  {
    if x != [] {
      HammingTriangle(x[1..], y[1..], z[1..]);
    }
  }

  lemma {:induction false} HammingAppend<T>(a: seq<T>, b: seq<T>, c: seq<T>, d: seq<T>)
    requires |a| == |c| && |b| == |d|
    ensures Hamming(a + b, c + d) == Hamming(a, c) + Hamming(b, d)
  {
    if a == [] {
      assert a + b == b && c + d == d;
    } else {
      HammingAppend(a[1..], b, c[1..], d);
      assert (a + b)[1..] == a[1..] + b && (c + d)[1..] == c[1..] + d;
    }
  }

  /** Making two strings agree at one place. */
  lemma {:induction false} HammingRepair<T>(x: seq<T>, y: seq<T>, k: nat)
    requires |x| == |y| && k < |x|
    ensures Hamming(x, y) == (if x[k] == y[k] then 0 else 1) + Hamming(x[k := y[k]], y)
  {
    if k == 0 {
      assert x[0 := y[0]][1..] == x[1..];
    } else {
      HammingRepair(x[1..], y[1..], k - 1);
      assert x[k := y[k]][1..] == x[1..][k - 1 := y[1..][k - 1]];
    }
  }

  /** Scattering two strings into longer ones cannot bring them closer, and keeps their distance if the longer ones
      agree everywhere else. */
  lemma {:induction false} HammingScatter<T>(x: seq<T>, y: seq<T>, place: seq<nat>, x': seq<T>, y': seq<T>)
    requires |x| == |y| == |place| && |x'| == |y'|
    requires forall i :: 0 <= i < |place| ==> place[i] < |x'| && x'[place[i]] == x[i] && y'[place[i]] == y[i]
    requires forall i, j :: 0 <= i < j < |place| ==> place[i] != place[j]
    ensures Hamming(x, y) <= Hamming(x', y')
    ensures (forall k :: 0 <= k < |x'| && k !in place ==> x'[k] == y'[k]) ==> Hamming(x, y) == Hamming(x', y')
    decreases |x|
  {
    if x == [] {
      HammingZero(x', y');
    } else {
      var k := place[0];
      HammingRepair(x', y', k);
      var x1, y1, place1, r := x[1..], y[1..], place[1..], x'[k := y'[k]];
      forall i | 0 <= i < |place1|
        ensures place1[i] < |r| && r[place1[i]] == x1[i] && y'[place1[i]] == y1[i]
      {
        assert place1[i] == place[i + 1] && place[0] != place[i + 1];
      }
      assert place == [k] + place1;
      HammingScatter(x1, y1, place1, r, y');
    }
  }

  lemma {:induction false} OneDifference<T>(x: seq<T>, y: seq<T>) returns (i: nat)
    requires |x| == |y| && Hamming(x, y) == 1
    ensures i < |x| && forall k :: 0 <= k < |x| ==> (x[k] != y[k] <==> k == i)
  {
    if x[0] != y[0] {
      HammingZero(x[1..], y[1..]);
      i := 0;
      assert forall k :: 1 <= k < |x| ==> x[k] == x[1..][k - 1] && y[k] == y[1..][k - 1];
    } else {
      i := OneDifference(x[1..], y[1..]);
      i := i + 1;
      assert forall k :: 1 <= k < |x| ==> x[k] == x[1..][k - 1] && y[k] == y[1..][k - 1];
    }
  }

  lemma {:induction false} TwoDifferences<T>(x: seq<T>, y: seq<T>) returns (i: nat, j: nat)
    requires |x| == |y| && Hamming(x, y) == 2
    ensures i < j < |x| && forall k :: 0 <= k < |x| ==> (x[k] != y[k] <==> k == i || k == j)
  {
    if x[0] != y[0] {
      i := 0;
      j := OneDifference(x[1..], y[1..]);
    } else {
      i, j := TwoDifferences(x[1..], y[1..]);
      i := i + 1;
    }
    j := j + 1;
    assert forall k :: 1 <= k < |x| ==> x[k] == x[1..][k - 1] && y[k] == y[1..][k - 1];
  }
}
