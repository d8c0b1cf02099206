/** Two short runs of dibits, and how far apart the CRC register could carry one onto the other. */
module RunPatterns {
  import opened Bits
  import opened CrcBytes
  import opened DibitRegister

  /** A word of at most five dibits, none of them zero up to the last; or none at all. */
  predicate IsRun(x: bv16) {
    && x < 0x400 && (x & 0x003 == 0 ==> x == 0)
    && (x & 0x00C == 0 ==> x & 0x3F0 == 0)
    && (x & 0x030 == 0 ==> x & 0x3C0 == 0)
    && (x & 0x0C0 == 0 ==> x & 0x300 == 0)
  }

  /** How many bits of such a word are set. */
  function Ones(x: bv16): bv16 {
    (x & 1) + ((x >> 1) & 1) + ((x >> 2) & 1) + ((x >> 3) & 1) + ((x >> 4) & 1)
    + ((x >> 5) & 1) + ((x >> 6) & 1) + ((x >> 7) & 1) + ((x >> 8) & 1) + ((x >> 9) & 1)
  }

  lemma FewOnes(x: bv16)
    requires IsRun(x)
    ensures Ones(x) <= 10
  {
  }

  /** x moved up by at most three dibits. */
  predicate Shifted(x: bv16, y: bv16) { y == x || y == x << 2 || y == x << 4 || y == x << 6 }

  predicate SixOnes(f: bv16, h: bv16) { Ones(f) + Ones(h) <= 6 }

  // ----- no run is carried onto another, with six set bits or fewer between them

  lemma SecondLight1(f: bv16, x: bv16, h: bv16)
    requires IsRun(f) && IsRun(h) && SixOnes(f, h) && Ones(h) <= 3 && Shifted(f, x)
    requires x == Back8(h) || x == Back8(Back8(h))
    ensures f == 0
  {
  }

  lemma SecondLight3(f: bv16, x: bv16, h: bv16)
    requires IsRun(f) && IsRun(h) && SixOnes(f, h) && Ones(h) <= 3 && Shifted(f, x)
    requires x == Back8(Back8(Back8(h))) || x == Back8(Back8(Back8(Back8(h))))
    ensures f == 0
  {
  }

  lemma SecondLight5(f: bv16, x: bv16, h: bv16)
    requires IsRun(f) && IsRun(h) && SixOnes(f, h) && Ones(h) <= 3 && Shifted(f, x)
    requires x == Back8(Back8(Back8(Back8(Back8(h))))) || x == Back8(Back8(Back8(Back8(Back8(Back8(h))))))
    ensures f == 0
  {
  }

  lemma SecondLight7(f: bv16, x: bv16, h: bv16)
    requires IsRun(f) && IsRun(h) && SixOnes(f, h) && Ones(h) <= 3 && Shifted(f, x)
    requires
      || x == Back8(Back8(Back8(Back8(Back8(Back8(Back8(h)))))))
      || x == Back8(Back8(Back8(Back8(Back8(Back8(Back8(Back8(h))))))))
    ensures f == 0
  {
  }

  lemma SecondLight9(f: bv16, x: bv16, h: bv16)
    requires IsRun(f) && IsRun(h) && SixOnes(f, h) && Ones(h) <= 3 && Shifted(f, x)
    requires
      || x == Back8(Back8(Back8(Back8(Back8(Back8(Back8(Back8(Back8(h)))))))))
      || x == Back8(Back8(Back8(Back8(Back8(Back8(Back8(Back8(Back8(Back8(h))))))))))
    ensures f == 0
  {
  }

  lemma SecondLight11(f: bv16, x: bv16, h: bv16)
    requires IsRun(f) && IsRun(h) && SixOnes(f, h) && Ones(h) <= 3 && Shifted(f, x)
    requires x == Back8(Back8(Back8(Back8(Back8(Back8(Back8(Back8(Back8(Back8(Back8(h)))))))))))
    ensures f == 0
  {
  }

  lemma FirstLight1(f: bv16, x: bv16, h: bv16)
    requires IsRun(f) && IsRun(h) && SixOnes(f, h) && Ones(f) <= 3 && Shifted(f, x)
    requires x == Back8(h) || x == Back8(Back8(h))
    ensures f == 0
  {
  }

  lemma FirstLight3(f: bv16, x: bv16, h: bv16)
    requires IsRun(f) && IsRun(h) && SixOnes(f, h) && Ones(f) <= 3 && Shifted(f, x)
    requires x == Back8(Back8(Back8(h))) || x == Back8(Back8(Back8(Back8(h))))
    ensures f == 0
  {
  }

  lemma FirstLight5(f: bv16, x: bv16, h: bv16)
    requires IsRun(f) && IsRun(h) && SixOnes(f, h) && Ones(f) <= 3 && Shifted(f, x)
    requires x == Back8(Back8(Back8(Back8(Back8(h))))) || x == Back8(Back8(Back8(Back8(Back8(Back8(h))))))
    ensures f == 0
  {
  }

  lemma FirstLight7(f: bv16, x: bv16, h: bv16)
    requires IsRun(f) && IsRun(h) && SixOnes(f, h) && Ones(f) <= 3 && Shifted(f, x)
    requires
      || x == Back8(Back8(Back8(Back8(Back8(Back8(Back8(h)))))))
      || x == Back8(Back8(Back8(Back8(Back8(Back8(Back8(Back8(h))))))))
    ensures f == 0
  {
  }

  lemma FirstLight9(f: bv16, x: bv16, h: bv16)
    requires IsRun(f) && IsRun(h) && SixOnes(f, h) && Ones(f) <= 3 && Shifted(f, x)
    requires
      || x == Back8(Back8(Back8(Back8(Back8(Back8(Back8(Back8(Back8(h)))))))))
      || x == Back8(Back8(Back8(Back8(Back8(Back8(Back8(Back8(Back8(Back8(h))))))))))
    ensures f == 0
  {
  }

  lemma FirstLight11(f: bv16, x: bv16, h: bv16)
    requires IsRun(f) && IsRun(h) && SixOnes(f, h) && Ones(f) <= 3 && Shifted(f, x)
    requires x == Back8(Back8(Back8(Back8(Back8(Back8(Back8(Back8(Back8(Back8(Back8(h)))))))))))
    ensures f == 0
  {
  }

  // ----- a run that is carried by whole bytes

  function Eights(s: bv16, a: nat): bv16 { if a == 0 then s else Turn8(Eights(s, a - 1)) }

  function Backs(s: bv16, a: nat): bv16 { if a == 0 then s else Back8(Backs(s, a - 1)) }

  lemma {:induction false} EightsAreTurns(s: bv16, a: nat)
    ensures Eights(s, a) == Turns(s, 8 * a)
  {
    hide Turns, Turn8;
    if a == 0 {
      NoTurns(s);
    } else {
      EightsAreTurns(s, a - 1);
      TurnsJoin(s, 8 * a - 8, 8);
      EightTurns(Turns(s, 8 * a - 8));
    }
  }

  lemma {:induction false} BackFirst(s: bv16, a: nat)
    ensures Backs(Back8(s), a) == Back8(Backs(s, a))
  {
    hide Back8;
    if a > 0 {
      BackFirst(s, a - 1);
    }
  }

  lemma {:induction false} BacksUndo(s: bv16, a: nat)
    ensures Backs(Eights(s, a), a) == s
  {
    hide Back8, Turn8;
    if a > 0 {
      BackFirst(Eights(s, a), a - 1);
      BackTurns(Eights(s, a - 1));
      BacksUndo(s, a - 1);
    }
  }

  lemma BacksInFull(s: bv16)
    ensures Backs(s, 1) == Back8(s) && Backs(s, 2) == Back8(Backs(s, 1)) && Backs(s, 3) == Back8(Backs(s, 2))
    ensures Backs(s, 4) == Back8(Backs(s, 3)) && Backs(s, 5) == Back8(Backs(s, 4))
    ensures Backs(s, 6) == Back8(Backs(s, 5)) && Backs(s, 7) == Back8(Backs(s, 6))
    ensures Backs(s, 8) == Back8(Backs(s, 7)) && Backs(s, 9) == Back8(Backs(s, 8))
    ensures Backs(s, 10) == Back8(Backs(s, 9)) && Backs(s, 11) == Back8(Backs(s, 10))
  {
    hide Back8;
  }

  lemma ApartIfSecondLight(f: bv16, x: bv16, h: bv16, a: nat)
    requires IsRun(f) && IsRun(h) && SixOnes(f, h) && Ones(h) <= 3 && Shifted(f, x) && 1 <= a <= 11 && x == Backs(h, a)
    ensures f == 0
  {
    hide IsRun, Ones, SixOnes, Shifted, Back8, Backs;
    BacksInFull(h);
    if a <= 2 {
      SecondLight1(f, x, h);
    } else if a <= 4 {
      SecondLight3(f, x, h);
    } else if a <= 6 {
      SecondLight5(f, x, h);
    } else if a <= 8 {
      SecondLight7(f, x, h);
    } else if a <= 10 {
      SecondLight9(f, x, h);
    } else {
      SecondLight11(f, x, h);
    }
  }

  lemma ApartIfFirstLight(f: bv16, x: bv16, h: bv16, a: nat)
    requires IsRun(f) && IsRun(h) && SixOnes(f, h) && Ones(f) <= 3 && Shifted(f, x) && 1 <= a <= 11 && x == Backs(h, a)
    ensures f == 0
  {
    hide IsRun, Ones, SixOnes, Shifted, Back8, Backs;
    BacksInFull(h);
    if a <= 2 {
      FirstLight1(f, x, h);
    } else if a <= 4 {
      FirstLight3(f, x, h);
    } else if a <= 6 {
      FirstLight5(f, x, h);
    } else if a <= 8 {
      FirstLight7(f, x, h);
    } else if a <= 10 {
      FirstLight9(f, x, h);
    } else {
      FirstLight11(f, x, h);
    }
  }

  // ----- a run carried any distance within a block

  lemma Turn2Small(x: bv16)
    ensures x < 0x4000 ==> Turn2(x) == x << 2
    ensures x < 0x1000 ==> Turn4(x) == x << 4
  {
  }

  lemma Turn2Shifted(x: bv16)
    requires x < 0x400
    ensures Turn2(x << 4) == x << 6
  {
  }

  lemma ShiftedTurns(x: bv16, r: nat)
    requires IsRun(x) && r <= 3
    ensures Shifted(x, Turns(x, 2 * r))
  {
    hide Turns, Turn2, Turn4;
    NoTurns(x);
    TwoTurns(x);
    FourTurns(x);
    TurnsJoin(x, 4, 2);
    TwoTurns(Turns(x, 4));
    Turn2Small(x);
    Turn2Shifted(x);
  }

  lemma LowClear(f: bv16, h: bv16)
    requires IsRun(h) && (h == f << 4 || h == f << 6)
    ensures h == 0
  {
  }

  lemma OneIsLight(f: bv16, h: bv16)
    requires IsRun(f) && IsRun(h) && SixOnes(f, h)
    ensures Ones(f) <= 3 || Ones(h) <= 3
  {
    hide Ones, IsRun;
    FewOnes(f);
    FewOnes(h);
  }

  /** Two runs of dibits with at most six set bits between them: the register carries neither onto the other over
      as many dibits as a block has. */
  lemma NeverCarried(f: bv16, h: bv16, n: nat)
    requires IsRun(f) && IsRun(h) && f != 0 && h != 0 && SixOnes(f, h) && 2 <= n <= 47
    ensures Turns(f, 2 * n) != h
  {
    hide IsRun, Ones, SixOnes, Shifted, Turns, Eights, Backs;
    if Turns(f, 2 * n) == h {
      var a, r := n / 4, n % 4;
      var x := Turns(f, 2 * r);
      TurnsJoin(f, 2 * r, 8 * a);
      EightsAreTurns(x, a);
      ShiftedTurns(f, r);
      BacksUndo(x, a);
      OneIsLight(f, h);
      if a == 0 {
        TooNear(f, h, n);
      } else if Ones(h) <= 3 {
        ApartIfSecondLight(f, x, h, a);
      } else {
        ApartIfFirstLight(f, x, h, a);
      }
    }
  }

  lemma TooNear(f: bv16, h: bv16, n: nat)
    requires IsRun(f) && IsRun(h) && 2 <= n <= 3 && Turns(f, 2 * n) == h
    ensures h == 0
  {
    hide Turns, Turn2, Turn4;
    FourTurns(f);
    TurnsJoin(f, 4, 2);
    TwoTurns(Turns(f, 4));
    Turn2Small(f);
    Turn2Shifted(f);
    LowClear(f, h);
  }
}
