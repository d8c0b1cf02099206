/** Machine words as integers. */
module Words {

  function Value(w: bv64): int { w as int }

  function Up(w: bv64, bit: bool): bv64 { (w << 1) | if bit then 1 else 0 }

  function Down(w: bv64): bv64 { w >> 1 }

  predicate Low(w: bv64) { w & 1 == 1 }

  lemma ZeroValue(w: bv64)
    ensures Value(w) == 0 <==> w == 0
    ensures 0 <= Value(w) < 0x1_0000_0000_0000_0000
  {
  }

  lemma UpEven(w: bv64)
    requires w <= 0x7FFF_FFFF_FFFF_FFFF
    ensures (w << 1) as int == 2 * w as int
  {
  }

  lemma UpOdd(w: bv64)
    requires w <= 0x7FFF_FFFF_FFFF_FFFF
    ensures ((w << 1) | 1) as int == 2 * w as int + 1
  {
  }

  lemma UpIs(w: bv64, bit: bool)
    ensures Up(w, bit) == if bit then (w << 1) | 1 else w << 1
  {
  }

  lemma ValueIs(w: bv64)
    ensures Value(w) == w as int
  {
  }

  lemma UpValue(w: bv64, bit: bool)
    requires w <= 0x7FFF_FFFF_FFFF_FFFF
    ensures Value(Up(w, bit)) == 2 * Value(w) + if bit then 1 else 0
  {
    hide Value, Up;
    UpIs(w, bit);
    ValueIs(w);
    if bit {
      ValueIs((w << 1) | 1);
      UpOdd(w);
    } else {
      ValueIs(w << 1);
      UpEven(w);
    }
  }

  lemma HighHalf(w: bv64)
    requires w > 0x7FFF_FFFF_FFFF_FFFF
    ensures Value(w) >= 0x8000_0000_0000_0000
  {
  }

  lemma SameWord(w: bv64)
    ensures (w as int) as bv64 == w
  {
  }

  /** Every integer of 64 bits is the value of a word. */
  lemma {:induction false} WordOf(n: nat) returns (w: bv64)
    requires n < 0x1_0000_0000_0000_0000
    ensures Value(w) == n
  {
    hide Value, Up;
    if n == 0 {
      ZeroValue(0);
      w := 0;
    } else {
      var half := WordOf(n / 2);
      if half > 0x7FFF_FFFF_FFFF_FFFF {
        HighHalf(half);
      }
      UpValue(half, n % 2 == 1);
      w := Up(half, n % 2 == 1);
    }
  }

  /** A fifth of a word, rounded down. */
  function Fifth(w: bv64): bv64 { (w as int / 5) as bv64 }

  lemma FifthValue(w: bv64)
    ensures Value(Fifth(w)) == Value(w) / 5
  {
    var q := WordOf(w as int / 5);
    SameWord(q);
  }

  // ----- shifting down divides

  lemma DownUp(w: bv64)
    ensures Down(w) <= 0x7FFF_FFFF_FFFF_FFFF && Up(Down(w), Low(w)) == w
  {
  }

  lemma DownValue(w: bv64)
    ensures Value(Down(w)) == Value(w) / 2
  {
    hide Value, Up, Down, Low;
    DownUp(w);
    UpValue(Down(w), Low(w));
  }

  function Down2(w: bv64): bv64 { w >> 2 }
  function Down4(w: bv64): bv64 { w >> 4 }
  function Down8(w: bv64): bv64 { w >> 8 }
  function Down16(w: bv64): bv64 { w >> 16 }
  function Down32(w: bv64): bv64 { w >> 32 }

  lemma DownIs(w: bv64)
    ensures Down(w) == w >> 1 && Down(w >> 1) == Down2(w)
  {
  }

  lemma Down2Is(w: bv64)
    ensures Down2(w) == w >> 2 && Down2(w >> 2) == Down4(w)
  {
  }

  lemma Down4Is(w: bv64)
    ensures Down4(w) == w >> 4 && Down4(w >> 4) == Down8(w)
  {
  }

  lemma Down8Is(w: bv64)
    ensures Down8(w) == w >> 8 && Down8(w >> 8) == Down16(w)
  {
  }

  lemma Down16Is(w: bv64)
    ensures Down16(w) == w >> 16 && Down16(w >> 16) == Down32(w)
  {
  }

  lemma DownTwice(w: bv64)
    ensures Down(Down(w)) == Down2(w) && Down2(Down2(w)) == Down4(w) && Down4(Down4(w)) == Down8(w)
    ensures Down8(Down8(w)) == Down16(w) && Down16(Down16(w)) == Down32(w)
  {
    hide Down, Down2, Down4, Down8, Down16, Down32;
    DownIs(w);
    Down2Is(w);
    Down4Is(w);
    Down8Is(w);
    Down16Is(w);
  }

  lemma Down2Value(w: bv64)
    ensures Value(Down2(w)) == Value(w) / 4
  {
    hide Value, Down, Down2, Down4, Down8, Down16, Down32;
    DownTwice(w);
    DownValue(w);
    DownValue(Down(w));
  }

  lemma Down4Value(w: bv64)
    ensures Value(Down4(w)) == Value(w) / 16
  {
    hide Value, Down, Down2, Down4, Down8, Down16, Down32;
    DownTwice(w);
    Down2Value(w);
    Down2Value(Down2(w));
  }

  lemma Down8Value(w: bv64)
    ensures Value(Down8(w)) == Value(w) / 0x100
  {
    hide Value, Down, Down2, Down4, Down8, Down16, Down32;
    DownTwice(w);
    Down4Value(w);
    Down4Value(Down4(w));
  }

  lemma Down16Value(w: bv64)
    ensures Value(Down16(w)) == Value(w) / 0x1_0000
  {
    hide Value, Down, Down2, Down4, Down8, Down16, Down32;
    DownTwice(w);
    Down8Value(w);
    Down8Value(Down8(w));
  }

  lemma Down32Value(w: bv64)
    ensures Value(Down32(w)) == Value(w) / 0x1_0000_0000
  {
    hide Value, Down, Down2, Down4, Down8, Down16, Down32;
    DownTwice(w);
    Down16Value(w);
    Down16Value(Down16(w));
  }

  lemma NothingDown(w: bv64)
    ensures Down32(w) == 0 <==> w <= 0xFFFF_FFFF
  {
  }

  /** The words of 32 bits. */
  lemma Bits32(w: bv64)
    ensures w <= 0xFFFF_FFFF <==> Value(w) < 0x1_0000_0000
  {
    hide Value, Down32;
    Down32Value(w);
    NothingDown(w);
    ZeroValue(w);
    ZeroValue(Down32(w));
  }

  lemma LowWord(w: bv64)
    ensures w & 0xFFFF_FFFF <= 0xFFFF_FFFF && (w <= 0xFFFF_FFFF ==> w & 0xFFFF_FFFF == w)
  {
  }

  /** Five times the low 32 bits of a fifth are the word, to within five, exactly when the fifth has no more. */
  lemma FiveTimesFifth(w: bv64)
    ensures
      var units := Value(Fifth(w) & 0xFFFF_FFFF);
      5 * units <= Value(w) < 5 * units + 5 <==> Value(w) < 5 * 0x1_0000_0000
  {
    hide Value, Fifth;
    FifthValue(w);
    LowWord(Fifth(w));
    Bits32(Fifth(w));
    Bits32(Fifth(w) & 0xFFFF_FFFF);
  }
}
