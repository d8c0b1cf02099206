/** The network identifier code of src/p25/NID.hpp, BCH(64,16,23) of TIA-102.BAAA-A. */
module Nid {
  const DUID_TDU: bv16 := 0x03
  const DUID_TSBK: bv16 := 0x07

  const BCH_MATRIX: seq<bv64> := [
    0x8000cd930bdd3b2a, 0x4000ab5a8e33a6be,
    0x2000983e4cc4e874, 0x10004c1f2662743a,
    0x0800eb9c98ec0136, 0x0400b85d47ab3bb0,
    0x02005c2ea3d59dd8, 0x01002e1751eaceec,
    0x0080170ba8f56776, 0x0040c616dfa78890,
    0x0020630b6fd3c448, 0x00103185b7e9e224,
    0x000818c2dbf4f112, 0x0004c1f2662743a2,
    0x0002ad6a38ce9afb, 0x00019b2617ba7657
  ]

  function Row(i: nat): bv64
    requires i < 16
  {
    BCH_MATRIX[i]
  }

  function Mask(i: nat): bv16
    requires i < 16
  {
    0x8000 >> i
  }

  function Masked(data: bv16, mask: bv16): bv16 { data & mask }

  /** Addition of codewords, bit by bit. */
  function Add(x: bv64, y: bv64): bv64 { x ^ y }

  function Add16(x: bv16, y: bv16): bv16 { x ^ y }

  /** The contribution of matrix row i. */
  function Term(data: bv16, i: nat): bv64
    requires i < 16
  {
    if Masked(data, Mask(i)) != 0 then Row(i) else 0
  }

  /** The sum of the first n rows that the data selects. */
  function Sum(data: bv16, n: nat): bv64
    requires n <= 16
  {
    if n == 0 then 0 else Add(Sum(data, n - 1), Term(data, n - 1))
  }

  function Encoded(data: bv16): bv64 { Sum(data, 16) }

  method EncodeBch(data: bv16) returns (codeword: bv64)
    ensures codeword == Encoded(data)
  {
    hide Row, Add, Mask, Masked;
    codeword := 0;
    for i := 0 to 16
      invariant codeword == Sum(data, i)
    {
      AddNothing(codeword);
      if Masked(data, Mask(i)) != 0 {
        codeword := Add(codeword, Row(i));
      }
    }
  }

  // ----- addition

  lemma AddNothing(x: bv64)
    ensures Add(x, 0) == x && Add(0, x) == x
  {
  }

  lemma AddSelf(x: bv64)
    ensures Add(x, x) == 0
  {
  }

  lemma AddCommutes(x: bv64, y: bv64)
    ensures Add(x, y) == Add(y, x)
  {
  }

  lemma AddOf(x: bv64, y: bv64)
    ensures Add(x, y) == x ^ y
  {
  }

  lemma AddThree(x: bv64, y: bv64, z: bv64)
    ensures Add(x ^ y, z) == Add(x, y ^ z)
  {
  }

  lemma AddAssociates(x: bv64, y: bv64, z: bv64)
    ensures Add(Add(x, y), z) == Add(x, Add(y, z))
  {
    hide Add;
    AddOf(x, y);
    AddOf(y, z);
    AddThree(x, y, z);
  }

  lemma AddExchange(x: bv64, s: bv64, y: bv64, t: bv64)
    ensures Add(Add(x, s), Add(y, t)) == Add(Add(x, y), Add(s, t))
  {
    hide Add;
    AddAssociates(x, s, Add(y, t));
    AddAssociates(s, y, t);
    AddCommutes(s, y);
    AddAssociates(y, s, t);
    AddAssociates(x, y, Add(s, t));
  }

  // ----- linearity

  lemma MaskedTwoValued(data: bv16, i: nat)
    requires i < 16
    ensures Masked(data, Mask(i)) == 0 || Masked(data, Mask(i)) == Mask(i)
    ensures Mask(i) != 0
  {
  }

  lemma MaskedXor(a: bv16, b: bv16, m: bv16)
    ensures Masked(Add16(a, b), m) == Add16(Masked(a, m), Masked(b, m))
  {
  }

  lemma SmallXor(m: bv16)
    ensures Add16(m, m) == 0 && Add16(m, 0) == m && Add16(0, m) == m
  {
  }

  lemma MaskedLinear(a: bv16, b: bv16, i: nat)
    requires i < 16
    ensures Masked(Add16(a, b), Mask(i)) != 0 <==> ((Masked(a, Mask(i)) != 0) != (Masked(b, Mask(i)) != 0))
  {
    hide Mask, Masked, Add16;
    MaskedTwoValued(a, i);
    MaskedTwoValued(b, i);
    MaskedXor(a, b, Mask(i));
    SmallXor(Mask(i));
    SmallXor(0);
  }

  lemma TermLinear(a: bv16, b: bv16, i: nat)
    requires i < 16
    ensures Term(Add16(a, b), i) == Add(Term(a, i), Term(b, i))
  {
    hide Mask, Masked, Row, Add, Add16;
    MaskedLinear(a, b, i);
    AddSelf(Row(i));
    AddSelf(0);
    AddNothing(Row(i));
  }

  lemma {:induction false} SumLinear(a: bv16, b: bv16, n: nat)
    requires n <= 16
    ensures Sum(Add16(a, b), n) == Add(Sum(a, n), Sum(b, n))
  {
    hide Term, Add, Add16;
    if n == 0 {
      AddSelf(0);
    } else {
      SumLinear(a, b, n - 1);
      TermLinear(a, b, n - 1);
      AddExchange(Sum(a, n - 1), Term(a, n - 1), Sum(b, n - 1), Term(b, n - 1));
    }
  }

  /** The code is linear. */
  lemma Linear(a: bv16, b: bv16)
    ensures Encoded(a ^ b) == Add(Encoded(a), Encoded(b))
  {
    hide Sum, Add;
    SumLinear(a, b, 16);
  }

  // ----- the data is the first sixteen bits of the codeword

  function High(w: bv64): bv16 { (w >> 48) as bv16 }

  /** The mask of the n most significant bits. */
  function Top(n: nat): bv16
    requires n <= 16
  {
    !((0xffff as bv16) >> n)
  }

  lemma HighAdd(x: bv64, y: bv64)
    ensures High(Add(x, y)) == Add16(High(x), High(y))
  {
  }

  lemma HighRow(i: nat)
    requires i < 16
    ensures High(Row(i)) == Mask(i) && High(0) == 0
  {
  }

  lemma TopStep(n: nat)
    requires n < 16
    ensures Add16(Top(n), Mask(n)) == Top(n + 1)
  {
  }

  lemma TopEnds(data: bv16)
    ensures Masked(data, Top(0)) == 0 && Masked(data, Top(16)) == data
  {
  }

  lemma MaskedJoin(data: bv16, m: bv16, n: bv16)
    ensures Masked(data, Add16(m, n)) == Add16(Masked(data, m), Masked(data, n))
  {
  }

  lemma {:induction false} SumHigh(data: bv16, n: nat)
    requires n <= 16
    ensures High(Sum(data, n)) == Masked(data, Top(n))
  {
    hide Mask, Masked, Row, Add, Add16, High, Top;
    HighRow(0);
    TopEnds(data);
    if n > 0 {
      SumHigh(data, n - 1);
      HighAdd(Sum(data, n - 1), Term(data, n - 1));
      HighRow(n - 1);
      MaskedTwoValued(data, n - 1);
      TopStep(n - 1);
      SmallXor(Masked(data, Top(n - 1)));
      MaskedJoin(data, Top(n - 1), Mask(n - 1));
    }
  }

  /** The top sixteen bits of a codeword are its data. */
  lemma Systematic(data: bv16)
    ensures High(Encoded(data)) == data
  {
    hide High, Sum, Masked, Top;
    SumHigh(data, 16);
    TopEnds(data);
  }

  // ----- the data word

  /** NAC and DUID share sixteen bits; a NAC wider than twelve bits loses its top. */
  function NidData(nac: bv16, duid: bv16): bv16 { (nac << 4) | duid }

  lemma NidFields(nac: bv16, duid: bv16)
    requires duid < 16
    ensures NidData(nac, duid) >> 4 == nac & 0xfff
    ensures NidData(nac, duid) & 0xf == duid
  {
  }
}
