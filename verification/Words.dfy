/**
 Single bits of a 32-bit word, set, cleared and asked for by masks, as the host keeps the timers that
 run and TwinSock the socket numbers in use.  Masks are shifted ones; that shifting is doubling, that
 two masks have no bit in common, and that setting or clearing one bit leaves every other as it is, is
 proved by small steps, so that no proof elsewhere has to look into a word.
 */
module Words {
  const INT_BITS := 32

  /** `w` doubled `n` times, what falls off the top is lost. */
  function Shl(w: bv32, n: nat): bv32 { if n == 0 then w else Shl(w, n - 1) << 1 }

  function Mask(j: nat): bv32 { Shl(1, j) }

  lemma {:induction false} ShlTwice(w: bv32, m: nat, n: nat)
    ensures Shl(w, m + n) == Shl(Shl(w, m), n)
  {
    if n > 0 { ShlTwice(w, m, n - 1); }
  }

  lemma {:induction false} ZeroStays(n: nat)
    ensures Shl(0, n) == 0
  {
    if n > 0 { ZeroStays(n - 1); }
  }

  lemma TopBit()
    ensures Mask(31) != 0
  {
    assert Shl(1, 2) == 0x4;
    assert Shl(1, 4) == 0x10;
    assert Shl(1, 6) == 0x40;
    assert Shl(1, 8) == 0x100;
    assert Shl(1, 10) == 0x400;
    assert Shl(1, 12) == 0x1000;
    assert Shl(1, 14) == 0x4000;
    assert Shl(1, 16) == 0x1_0000;
    assert Shl(1, 18) == 0x4_0000;
    assert Shl(1, 20) == 0x10_0000;
    assert Shl(1, 22) == 0x40_0000;
    assert Shl(1, 24) == 0x100_0000;
    assert Shl(1, 26) == 0x400_0000;
    assert Shl(1, 28) == 0x1000_0000;
    assert Shl(1, 30) == 0x4000_0000;
  }

  /** Each mask is a bit. */
  lemma MaskIsSomething(j: nat)
    requires j < INT_BITS
    ensures Mask(j) != 0
  {
    TopBit();
    ShlTwice(1, j, 31 - j);
    ZeroStays(31 - j);
  }

  predicate Apart(v: bv32, w: bv32) { v & w == 0 }

  function Double(w: bv32): bv32 { w << 1 }

  /** No two masks share a bit. */
  lemma {:induction false} MasksApart(j: nat, k: nat)
    requires j != k
    ensures Apart(Mask(j), Mask(k))
    decreases j
  {
    hide Mask, Shl, Apart, Double;
    FirstMask();
    if j == 0 {
      NextMask(k - 1);
      OneApart(Mask(k - 1));
    } else if k == 0 {
      NextMask(j - 1);
      OneApart(Mask(j - 1));
    } else {
      NextMask(j - 1);
      NextMask(k - 1);
      MasksApart(j - 1, k - 1);
      DoubleApart(Mask(j - 1), Mask(k - 1));
    }
  }

  lemma FirstMask()
    ensures Mask(0) == 1
  {
  }

  lemma NextMask(j: nat)
    ensures Mask(j + 1) == Double(Mask(j))
  {
  }

  lemma DoubleApart(v: bv32, w: bv32)
    requires Apart(v, w)
    ensures Apart(Double(v), Double(w))
  {
  }

  lemma OneApart(w: bv32)
    ensures Apart(1, Double(w)) && Apart(Double(w), 1)
  {
  }

  predicate Has(w: bv32, m: bv32) { w & m != 0 }

  function With(w: bv32, m: bv32): bv32 { w | m }

  function Without(w: bv32, m: bv32): bv32 { w & !m }

  lemma OtherBitSet(w: bv32, v: bv32, m: bv32)
    requires Apart(v, m)
    ensures Has(With(w, v), m) <==> Has(w, m)
  {
  }

  lemma OtherBitCleared(w: bv32, v: bv32, m: bv32)
    requires Apart(v, m)
    ensures Has(Without(w, v), m) <==> Has(w, m)
  {
  }

  lemma OwnBitSet(w: bv32, m: bv32)
    requires m != 0
    ensures Has(With(w, m), m)
  {
  }

  lemma OwnBitCleared(w: bv32, m: bv32)
    ensures !Has(Without(w, m), m)
  {
  }

  /** Setting or clearing one bit is just that. */
  lemma BitChanges(w: bv32, j: nat, k: nat)
    requires j < INT_BITS && k < INT_BITS
    ensures Has(With(w, Mask(j)), Mask(k)) <==> j == k || Has(w, Mask(k))
    ensures Has(Without(w, Mask(j)), Mask(k)) <==> j != k && Has(w, Mask(k))
  {
    hide Mask, Has, With, Without, Apart;
    if j == k {
      MaskIsSomething(j);
      OwnBitSet(w, Mask(j));
      OwnBitCleared(w, Mask(j));
    } else {
      MasksApart(j, k);
      OtherBitSet(w, Mask(j), Mask(k));
      OtherBitCleared(w, Mask(j), Mask(k));
    }
  }

  lemma BitsChange(w: bv32, j: nat)
    requires j < INT_BITS
    ensures forall k: nat :: k < INT_BITS ==> (Has(With(w, Mask(j)), Mask(k)) <==> k == j || Has(w, Mask(k)))
    ensures forall k: nat :: k < INT_BITS ==>
      (Has(Without(w, Mask(j)), Mask(k)) <==> k != j && Has(w, Mask(k)))
  {
    hide Mask, Has, With, Without;
    forall k: nat | k < INT_BITS
      ensures Has(With(w, Mask(j)), Mask(k)) <==> j == k || Has(w, Mask(k))
      ensures Has(Without(w, Mask(j)), Mask(k)) <==> j != k && Has(w, Mask(k))
    {
      BitChanges(w, j, k);
    }
  }

  lemma ZeroAnd(w: bv32)
    ensures !Has(0, w) && Without(0, w) == 0
  {
  }
}
