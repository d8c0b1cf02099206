/** The transmitter's ring buffer (src/tx/SoapyTx.cpp), one thread at a time. */
module SoapyTx {
  import opened Bits
  import opened Modular

  /** Where the byte i places after position p is kept. */
  function Cell(p: nat, i: nat, n: nat): (k: nat)
    requires n > 0
    ensures k < n
  {
    (p + i) % n
  }

  lemma CellNext(p: nat, i: nat, n: nat)
    requires n > 0
    ensures (Cell(p, i, n) + 1) % n == Cell(p, i + 1, n)
  {
    Next(p + i, n);
  }

  lemma CellsDiffer(p: nat, i: nat, j: nat, n: nat)
    requires n > 0 && i < j < i + n
    ensures Cell(p, i, n) != Cell(p, j, n)
  {
    Apart(p + i, p + j, n);
  }

  lemma CellOfSum(p: nat, i: nat, j: nat, n: nat)
    requires n > 0
    ensures Cell(Cell(p, i, n), j, n) == Cell(p, i + j, n)
  {
    var x := p + i;
    var q, r := x / n, x % n;
    var q2, r2 := (r + j) / n, (r + j) % n;
    assert x + j == (q + q2) * n + r2 by {
      assert x == q * n + r && r + j == q2 * n + r2;
      assert (q + q2) * n == q * n + q2 * n;
    }
    DivisionIs(x + j, n, q + q2, r2);
  }

  /** c bytes of a ring, from position p on. */
  function Window(mem: seq<sample>, p: nat, c: nat): (s: seq<sample>)
    requires |mem| > 0
    ensures |s| == c
  {
    seq(c, i requires 0 <= i => mem[Cell(p, i, |mem|)])
  }

  lemma WindowGrows(mem: seq<sample>, p: nat, c: nat, x: sample)
    requires c < |mem|
    ensures Window(mem[Cell(p, c, |mem|) := x], p, c + 1) == Window(mem, p, c) + [x]
  {
    forall k | 0 <= k < c
      ensures Cell(p, k, |mem|) != Cell(p, c, |mem|)
    {
      CellsDiffer(p, k, c, |mem|);
    }
  }

  lemma WindowMoves(mem: seq<sample>, p: nat, c: nat, n: nat)
    requires |mem| > 0 && n <= c
    ensures Window(mem, Cell(p, n, |mem|), c - n) == Window(mem, p, c)[n..]
  {
    forall i | 0 <= i < c - n
      ensures Cell(Cell(p, n, |mem|), i, |mem|) == Cell(p, n + i, |mem|)
    {
      CellOfSum(p, n, i, |mem|);
    }
  }

  class SoapyTx {
    const size: nat
    const ring: array<sample>
    var wpos: nat
    var rpos: nat

    ghost predicate Valid()
      reads this
    {
      size > 0 && ring.Length == size && wpos < size && rpos < size
    }

    function Count(): (n: nat)
      requires Valid()
      reads this
      ensures n < size && wpos == Cell(rpos, n, size)
    {
      WrapOnce(wpos - rpos + size, size);
      WrapOnce(rpos + (wpos - rpos + size) % size, size);
      (wpos - rpos + size) % size
    }

    /** The bytes in the ring, oldest first. */
    ghost function Contents(): (s: seq<sample>)
      requires Valid()
      reads this, ring
      ensures |s| == Count()
    {
      Window(ring[..], rpos, Count())
    }

    constructor (n: nat)
      requires n > 0
      ensures Valid() && size == n && fresh(ring) && Contents() == []
    {
      size := n;
      ring := new sample[n](i => 0);
      wpos, rpos := 0, 0;
      new;
      WrapOnce(n, n);
    }

    method RingAvailable() returns (n: nat)
      requires Valid()
      ensures n == |Contents()| < size
    {
      n := (wpos - rpos + size) % size;
    }

    lemma CountIs(n: nat)
      requires Valid() && n < size && wpos == Cell(rpos, n, size)
      ensures Count() == n
    {
      if n < Count() {
        CellsDiffer(rpos, n, Count(), size);
      } else if Count() < n {
        CellsDiffer(rpos, Count(), n, size);
      }
    }

    method RingWrite(src: seq<sample>)
      requires Valid() && |Contents()| + |src| < size
      modifies `wpos, ring
      ensures Valid() && Contents() == old(Contents()) + src
    {
      ghost var before, c := Contents(), Count();
      var w := wpos;
      for i := 0 to |src|
        invariant w == Cell(rpos, c + i, size)
        invariant Window(ring[..], rpos, c + i) == before + src[..i]
      {
        hide Window;
        WindowGrows(ring[..], rpos, c + i, src[i]);
        CellNext(rpos, c + i, size);
        ghost var mem := ring[..];
        ring[w] := src[i];
        assert ring[..] == mem[w := src[i]];
        assert before + src[..i + 1] == before + src[..i] + [src[i]];
        w := (w + 1) % size;
      }
      wpos := w;
      CountIs(c + |src|);
      assert src[..|src|] == src;
    }

    method RingRead(dst: array<sample>, n: nat)
      requires Valid() && n <= |Contents()| && n <= dst.Length && dst != ring
      modifies `rpos, dst
      ensures Valid() && Contents() == old(Contents())[n..]
      ensures dst[..n] == old(Contents())[..n] && dst[n..] == old(dst[n..])
    {
      ghost var before, p, c := Contents(), rpos, Count();
      var r := rpos;
      WrapOnce(rpos, size);
      for i := 0 to n
        invariant r == Cell(p, i, size)
        invariant dst[..i] == before[..i]
        invariant dst[n..] == old(dst[n..])
      {
        CellNext(p, i, size);
        assert before[i] == ring[r];
        dst[i] := ring[r];
        assert dst[..i + 1] == before[..i] + [before[i]];
        r := (r + 1) % size;
      }
      rpos := r;
      CellOfSum(p, n, c - n, size);
      CountIs(c - n);
      WindowMoves(ring[..], p, c, n);
    }

    /** Where there is room; when the wait for room ends is a matter of both threads, see RingProtocol. */
    method Write(data: seq<sample>)
      requires Valid() && |Contents()| + |data| < size
      modifies `wpos, ring
      ensures Valid() && Contents() == old(Contents()) + data
    {
      RingWrite(data);
    }

    /** One turn of the hardware loop: a full chunk, or what there is and zeros. */
    method NextChunk(buf: array<sample>)
      requires Valid() && buf != ring
      modifies `rpos, buf
      ensures Valid()
      ensures
        var n := if |old(Contents())| < buf.Length then |old(Contents())| else buf.Length;
        && buf[..] == old(Contents())[..n] + seq(buf.Length - n, i => 0)
        && Contents() == old(Contents())[n..]
    {
      var avail := RingAvailable();
      if avail >= buf.Length {
        RingRead(buf, buf.Length);
      } else {
        if avail > 0 {
          RingRead(buf, avail);
        }
        for i := avail to buf.Length
          invariant buf[..avail] == old(Contents())[..avail]
          invariant forall k :: avail <= k < i ==> buf[k] == 0
          invariant Valid() && Contents() == old(Contents())[avail..]
        {
          buf[i] := 0;
        }
      }
    }
  }
}
