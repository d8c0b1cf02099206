/** Status symbols: one after every 35 data dibits, with zero padding (src/p25/Frame.cpp). */
module StatusSymbols {
  import opened Bits

  /** How many blocks of 35 dibits it takes to hold n of them. */
  function Blocks(n: nat): nat { (n + 34) / 35 }

  /** Where data dibit m is sent. */
  function Slot(m: nat): nat { m + m / 35 }

  /** What is sent: the status symbol in every slot 35 modulo 36, the data in between, zeros to fill. */
  function OnAir(data: seq<dibit>, ss: dibit): (air: seq<dibit>)
    ensures |air| == 36 * Blocks(|data|)
  {
    seq(36 * Blocks(|data|), k requires 0 <= k =>
      if k % 36 == 35 then ss else if k - k / 36 < |data| then data[k - k / 36] else 0)
  }

  lemma PlaceOf(q: nat, r: nat)
    requires r < 36
    ensures (36 * q + r) % 36 == r && (36 * q + r) / 36 == q
  {
  }

  lemma SlotPlace(m: nat)
    ensures Slot(m) % 36 == m % 35 && Slot(m) / 36 == m / 35 && Slot(m) - Slot(m) / 36 == m
  {
    PlaceOf(m / 35, m % 35);
    assert Slot(m) == 36 * (m / 35) + m % 35;
  }

  lemma SlotInRange(m: nat, n: nat)
    requires m < n
    ensures Slot(m) < 36 * Blocks(n)
  {
    assert m / 35 < Blocks(n);
    SlotPlace(m);
  }

  lemma SlotGrows(m: nat, n: nat)
    requires m < n
    ensures Slot(n) - Slot(m) >= n - m
  {
  }

  /** Every data dibit is found in its slot. */
  lemma DataAt(data: seq<dibit>, ss: dibit, m: nat)
    requires m < |data|
    ensures Slot(m) < |OnAir(data, ss)| && OnAir(data, ss)[Slot(m)] == data[m]
  {
    SlotInRange(m, |data|);
    SlotPlace(m);
  }

  /** The receiver's view: drop the status slots and keep n dibits. */
  function Stripped(air: seq<dibit>, n: nat): (data: seq<dibit>)
    requires n > 0 ==> Slot(n - 1) < |air|
    ensures |data| == n
  {
    seq(n, m requires 0 <= m < n => (SlotGrowsWeakly(m, n - 1); air[Slot(m)]))
  }

  lemma SlotGrowsWeakly(m: nat, n: nat)
    requires m <= n
    ensures Slot(m) <= Slot(n)
  {
  }

  /** Whatever the length, dropping the status slots gives the data back. */
  lemma Recovered(data: seq<dibit>, ss: dibit)
    ensures |data| > 0 ==> Slot(|data| - 1) < |OnAir(data, ss)|
    ensures Stripped(OnAir(data, ss), |data|) == data
  {
    if |data| > 0 {
      DataAt(data, ss, |data| - 1);
    }
    forall m | 0 <= m < |data|
      ensures Stripped(OnAir(data, ss), |data|)[m] == data[m]
    {
      DataAt(data, ss, m);
    }
  }

  /** What follows the first n data and padding dibits on air. */
  lemma NextOnAir(data: seq<dibit>, ss: dibit, n: nat)
    requires n < 35 * Blocks(|data|)
    ensures Slot(n + 1) <= |OnAir(data, ss)|
    ensures OnAir(data, ss)[Slot(n)] == if n < |data| then data[n] else 0
    ensures Slot(n + 1) == if (n + 1) % 35 == 0 then Slot(n) + 2 else Slot(n) + 1
    ensures (n + 1) % 35 == 0 ==> OnAir(data, ss)[Slot(n) + 1] == ss
    ensures (n + 1) / 35 == if (n + 1) % 35 == 0 then n / 35 + 1 else n / 35
  {
    var q, r, b := n / 35, n % 35, Blocks(|data|);
    SlotPlace(n);
    assert q < b && Slot(n) == 36 * q + r;
    assert Slot(n) < 36 * b;
    if r == 34 {
      assert n + 1 == 35 * (q + 1);
      assert (n + 1) % 35 == 0 && (Slot(n) + 1) % 36 == 35;
    }
  }

  method InsertStatusSymbols(data: seq<dibit>, ss: dibit) returns (out: seq<dibit>)
    ensures out == OnAir(data, ss)
  {
    hide OnAir, Slot;
    var numSS := (|data| + 34) / 35;
    out := [];
    var remaining := numSS;
    var i := 1;
    SlotZero();
    for n := 0 to |data|
      invariant i == n + 1 && |out| == Slot(n) <= |OnAir(data, ss)| && remaining == numSS - n / 35
      invariant out == OnAir(data, ss)[..|out|]
    {
      NextOnAir(data, ss, n);
      out := out + [data[n]];
      if i % 35 == 0 && remaining > 0 {
        out := out + [ss];
        remaining := remaining - 1;
      }
      i := i + 1;
    }
    while remaining > 0
      invariant i >= |data| + 1 && |out| == Slot(i - 1) <= |OnAir(data, ss)| && remaining == numSS - (i - 1) / 35
      invariant out == OnAir(data, ss)[..|out|] && 0 <= remaining && i - 1 <= 35 * numSS
      decreases 35 * numSS + 1 - i
    {
      NextOnAir(data, ss, i - 1);
      out := out + [0];
      if i % 35 == 0 {
        out := out + [ss];
        remaining := remaining - 1;
      }
      i := i + 1;
    }
    SlotPlace(i - 1);
  }

  lemma SlotZero()
    ensures Slot(0) == 0
  {
  }
}
