/** The CRC register a dibit at a time, fed at its low end: it ends at zero when the other one does. */
module DibitRegister {
  import opened Bits
  import opened CrcBytes
  import opened Frame
  import CrcDetection

  function Low(d: dibit): bv16 { d as bv16 }

  /** The register from s over the dibits z, each added below as the register makes two turns. */
  function Folded(s: bv16, z: seq<dibit>): bv16
    decreases |z|
  {
    if z == [] then s else Folded(Plus(Turn2(s), Low(z[0])), z[1..])
  }

  lemma {:induction false} FoldedJoin(s: bv16, a: seq<dibit>, b: seq<dibit>)
    ensures Folded(s, a + b) == Folded(Folded(s, a), b)
    decreases |a|
  {
    hide Plus, Turn2, Low;
    if a == [] {
      assert a + b == b;
    } else {
      assert (a + b)[1..] == a[1..] + b;
      FoldedJoin(Plus(Turn2(s), Low(a[0])), a[1..], b);
    }
  }

  lemma FoldedOne(s: bv16, d: dibit)
    ensures Folded(s, [d]) == Plus(Turn2(s), Low(d))
  {
    hide Plus, Turn2, Low;
    assert [d][1..] == [];
  }

  lemma NoTurns(s: bv16)
    ensures Turns(s, 0) == s
  {
  }

  lemma StillZero(x: bv16)
    ensures Turn2(0) == 0 && Plus(0, x) == x && Plus(x, 0) == x
  {
  }

  /** What the register held and what it was fed add up. */
  lemma {:induction false} FoldedLinear(s: bv16, z: seq<dibit>)
    ensures Folded(s, z) == Plus(Turns(s, 2 * |z|), Folded(0, z))
    decreases |z|
  {
    hide Plus, Turn2, Turns, Low;
    if z == [] {
      NoTurns(s);
      StillZero(s);
    } else {
      var d, rest, n := Low(z[0]), z[1..], 2 * |z| - 2;
      StillZero(d);
      FoldedLinear(Plus(Turn2(s), d), rest);
      FoldedLinear(d, rest);
      TurnsLinear(Turn2(s), d, n);
      TwoTurns(s);
      TurnsJoin(s, 2, n);
      PlusAssociates(Turns(Turn2(s), n), Turns(d, n), Folded(0, rest));
    }
  }

  predicate AllZero(z: seq<dibit>) { forall i :: 0 <= i < |z| ==> z[i] == 0 }

  lemma {:induction false} FoldedZeros(s: bv16, z: seq<dibit>)
    requires AllZero(z)
    ensures Folded(s, z) == Turns(s, 2 * |z|)
    decreases |z|
  {
    hide Plus, Turn2, Turns, Low;
    if z == [] {
      NoTurns(s);
    } else {
      ZeroAdds(Turn2(s));
      FoldedZeros(Turn2(s), z[1..]);
      TwoTurns(s);
      TurnsJoin(s, 2, 2 * |z| - 2);
    }
  }

  lemma ZeroAdds(s: bv16)
    ensures Plus(s, Low(0)) == s
  {
  }

  lemma {:induction false} ZeroTurns(s: bv16, n: nat)
    ensures Turns(s, n) == 0 <==> s == 0
  {
    hide Turn;
    if n > 0 {
      ZeroTurns(s, n - 1);
      CrcDetection.TurnToZero(Turns(s, n - 1));
    }
  }

  // ----- over whole bytes

  function Octet(b: byte): bv16 { b as bv16 }

  lemma FourAdded(a: dibit, b: dibit, c: dibit, d: dibit)
    ensures Folded(0, [a, b, c, d]) == Plus(Turn2(Plus(Turn2(Plus(Turn2(Low(a)), Low(b))), Low(c))), Low(d))
  {
    hide Plus, Turn2, Low;
    StillZero(Low(a));
    assert [a, b, c, d][1..] == [b, c, d] && [b, c, d][1..] == [c, d] && [c, d][1..] == [d];
    var s2 := Plus(Turn2(Low(a)), Low(b));
    assert Folded(0, [a, b, c, d]) == Folded(Low(a), [b, c, d]) == Folded(s2, [c, d]);
    FoldedOne(Plus(Turn2(s2), Low(c)), d);
  }

  lemma FourOfByte(b: byte)
    ensures Plus(Turn2(Plus(Turn2(Plus(Turn2(Low(ByteDibit(b, 0))), Low(ByteDibit(b, 1)))), Low(ByteDibit(b, 2)))),
              Low(ByteDibit(b, 3)))
         == Octet(b)
  {
  }

  lemma FoldedByte(s: bv16, b: byte)
    ensures Folded(s, ByteDibits(b)) == Plus(Turn8(s), Octet(b))
  {
    hide Plus, Turn2, Turn8, Turns, Low, Octet, ByteDibit;
    FoldedLinear(s, ByteDibits(b));
    FourAdded(ByteDibit(b, 0), ByteDibit(b, 1), ByteDibit(b, 2), ByteDibit(b, 3));
    FourOfByte(b);
    EightTurns(s);
  }

  lemma OctetTurned(b: byte)
    ensures Turn8(Octet(b)) == High(b)
  {
  }

  /** The register fed above is that fed below, sixteen turns on. */
  lemma FeedFolds(s: bv16, b: byte)
    ensures Feed(Turn8(Turn8(s)), b) == Turn8(Turn8(Folded(s, ByteDibits(b))))
  {
    hide Plus, Turn8, Folded, Octet, High, ByteDibits;
    FoldedByte(s, b);
    OctetTurned(b);
    Turn8Linear(Turn8(s), Octet(b));
  }

  lemma {:induction false} DigestFolds(s: bv16, data: seq<byte>)
    ensures Digest(Turn8(Turn8(s)), data) == Turn8(Turn8(Folded(s, Dibits(data))))
    decreases |data|
  {
    hide Feed, Turn8, Folded, ByteDibits, Dibits;
    if data == [] {
      NoDibits();
      NothingFolded(s);
    } else {
      FeedFolds(s, data[0]);
      DigestFolds(Folded(s, ByteDibits(data[0])), data[1..]);
      FirstByte(data);
      FoldedJoin(s, ByteDibits(data[0]), Dibits(data[1..]));
    }
  }

  lemma NothingFolded(s: bv16)
    ensures Folded(s, []) == s
  {
  }

  lemma Turn8Zero(s: bv16)
    ensures Turn8(s) == 0 <==> s == 0
  {
    hide Turns, Turn8;
    EightTurns(s);
    ZeroTurns(s, 8);
  }

  /** Bytes leave the register at zero exactly when their dibits leave this one at zero. */
  lemma ZeroDigest(data: seq<byte>)
    ensures Digest(0, data) == 0 <==> Folded(0, Dibits(data)) == 0
  {
    hide Digest, Folded, Turn8, Dibits;
    Turn8Zero(0);
    DigestFolds(0, data);
    Turn8Zero(Folded(0, Dibits(data)));
    Turn8Zero(Turn8(Folded(0, Dibits(data))));
  }
}
