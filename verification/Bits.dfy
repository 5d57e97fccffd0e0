/** Bits of machine words: what the bitwise operators, the shifts and the counts do to each bit. */
module Bits {
  import opened Words

  /** Bit `n` of a number. */
  predicate Bit(x: nat, n: nat) {
    if n == 0 then x % 2 == 1 else Bit(x / 2, n - 1)
  }

  function Halved(x: nat, k: nat): nat {
    if k == 0 then x else Halved(x / 2, k - 1)
  }

  lemma {:induction false} ZeroHasNoBit(n: nat)
    ensures !Bit(0, n)
  {
    if n > 0 {
      ZeroHasNoBit(n - 1);
    }
  }

  lemma {:induction false} SomeBit(x: nat) returns (n: nat)
    requires x != 0
    ensures Bit(x, n)
  {
    if x % 2 == 1 {
      n := 0;
    } else {
      var m := SomeBit(x / 2);
      n := m + 1;
    }
  }

  lemma {:induction false} ShiftedBit(x: nat, k: nat, n: nat)
    requires k <= n
    ensures Bit(x, n) == Bit(Halved(x, k), n - k)
    decreases k
  {
    if k > 0 {
      ShiftedBit(x / 2, k - 1, n - 1);
    }
  }

  /** A number is its bits. */
  lemma {:induction false} BitsDetermine(x: nat, y: nat)
    requires forall n: nat :: Bit(x, n) <==> Bit(y, n)
    ensures x == y
    decreases x + y
  {
    if x != 0 || y != 0 {
      assert Bit(x, 0) <==> Bit(y, 0);
      forall n: nat ensures Bit(x / 2, n) <==> Bit(y / 2, n) {
        assert Bit(x, n + 1) <==> Bit(y, n + 1);
      }
      BitsDetermine(x / 2, y / 2);
    }
  }

  lemma {:induction false} BelowPow2(x: nat, k: nat, n: nat)
    requires x < Pow2(k) && k <= n
    ensures !Bit(x, n)
    decreases n
  {
    if x == 0 {
      ZeroHasNoBit(n);
    } else if k > 0 {
      BelowPow2(x / 2, k - 1, n - 1);
    }
  }

  lemma WordBits(x: Word, n: nat)
    requires n >= 32
    ensures !Bit(x, n)
  {
    Pow2Values();
    BelowPow2(x, 32, n);
  }

  lemma HalfBits(x: Half, n: nat)
    requires n >= 16
    ensures !Bit(x, n)
  {
    Pow2Values();
    BelowPow2(x, 16, n);
  }

  // ----- and, or, exclusive or, complement -----

  lemma {:induction false} AndBit(x: nat, y: nat, n: nat)
    ensures Bit(And(x, y), n) <==> Bit(x, n) && Bit(y, n)
  {
    if x == 0 || y == 0 {
      ZeroHasNoBit(n);
    } else if n > 0 {
      AndBit(x / 2, y / 2, n - 1);
      assert And(x, y) / 2 == And(x / 2, y / 2);
    }
  }

  lemma {:induction false} OrBit(x: nat, y: nat, n: nat)
    ensures Bit(Or(x, y), n) <==> Bit(x, n) || Bit(y, n)
    decreases n
  {
    hide Or;
    if x == 0 || y == 0 {
      OrZero(x, y);
      ZeroHasNoBit(n);
    } else {
      HalfOr(x, y);
      if n > 0 {
        OrBit(x / 2, y / 2, n - 1);
      }
    }
  }

  lemma OrZero(x: nat, y: nat)
    requires x == 0 || y == 0
    ensures Or(x, y) == x + y
  {
  }

  lemma HalfOr(x: nat, y: nat)
    requires x != 0 && y != 0
    ensures Or(x, y) / 2 == Or(x / 2, y / 2) && (Or(x, y) % 2 == 1 <==> x % 2 == 1 || y % 2 == 1)
  {
  }

  lemma {:induction false} XorBit(x: nat, y: nat, n: nat)
    ensures Bit(Xor(x, y), n) <==> Bit(x, n) != Bit(y, n)
    decreases n
  {
    if x == 0 || y == 0 {
      ZeroHasNoBit(n);
    } else if n > 0 {
      XorBit(x / 2, y / 2, n - 1);
      assert Xor(x, y) / 2 == Xor(x / 2, y / 2);
    }
  }

  lemma {:induction false} ComplementBit(x: nat, k: nat, n: nat)
    requires x < Pow2(k)
    ensures Bit(Pow2(k) - 1 - x, n) <==> n < k && !Bit(x, n)
    decreases n
  {
    if k == 0 {
      ZeroHasNoBit(n);
    } else if n > 0 {
      ComplementBit(x / 2, k - 1, n - 1);
      assert (Pow2(k) - 1 - x) / 2 == Pow2(k - 1) - 1 - x / 2;
    }
  }

  lemma NotBit(x: Word, n: nat)
    ensures Bit(Not(x), n) <==> n < 32 && !Bit(x, n)
  {
    Pow2Values();
    ComplementBit(x, 32, n);
  }

  lemma AndMeans(x: Word, y: Word)
    ensures forall n: nat :: Bit(And(x, y), n) <==> Bit(x, n) && Bit(y, n)
  {
    hide Bit, And;
    forall n: nat ensures Bit(And(x, y), n) <==> Bit(x, n) && Bit(y, n) {
      AndBit(x, y, n);
    }
  }

  lemma OrMeans(x: Word, y: Word)
    ensures forall n: nat :: Bit(OrWord(x, y), n) <==> Bit(x, n) || Bit(y, n)
  {
    hide Bit, Or;
    forall n: nat ensures Bit(OrWord(x, y), n) <==> Bit(x, n) || Bit(y, n) {
      OrBit(x, y, n);
    }
  }

  lemma XorMeans(x: Word, y: Word)
    ensures forall n: nat :: Bit(XorWord(x, y), n) <==> Bit(x, n) != Bit(y, n)
  {
    hide Bit, Xor;
    forall n: nat ensures Bit(XorWord(x, y), n) <==> Bit(x, n) != Bit(y, n) {
      XorBit(x, y, n);
    }
  }

  lemma NotMeans(x: Word)
    ensures forall n: nat :: Bit(Not(x), n) <==> n < 32 && !Bit(x, n)
  {
    hide Bit, Not;
    forall n: nat ensures Bit(Not(x), n) <==> n < 32 && !Bit(x, n) {
      NotBit(x, n);
    }
  }

  // ----- shifts -----

  /** A number put above `k` bits. */
  lemma {:induction false} JoinedBit(high: nat, low: nat, k: nat, n: nat)
    requires low < Pow2(k)
    ensures Bit(Scale(high, k) + low, n) <==> if n < k then Bit(low, n) else Bit(high, n - k)
    decreases k
  {
    if k > 0 && n > 0 {
      JoinedBit(high, low / 2, k - 1, n - 1);
      assert (Scale(high, k) + low) / 2 == Scale(high, k - 1) + low / 2;
    }
  }

  /** Conversion to 32 bits drops the upper bits. */
  lemma WrapBit(x: nat, n: nat)
    ensures Bit(Wrap(x), n) <==> n < 32 && Bit(x, n)
  {
    var high, low := x / 0x1_0000_0000, x % 0x1_0000_0000;
    Pow2Values();
    ScaleIsProduct(high, 32);
    JoinedBit(high, low, 32, n);
    if n >= 32 {
      WordBits(low, n);
    }
  }

  lemma ShlBit(x: Word, k: nat, n: nat)
    ensures Bit(Shl(x, k), n) <==> k <= n < 32 && Bit(x, n - k)
  {
    hide Wrap, Scale, Bit;
    WrapBit(Scale(x, k), n);
    JoinedBit(x, 0, k, n);
    if n < k {
      ZeroHasNoBit(n);
    }
  }

  lemma {:induction false} ShrBit(x: Word, k: nat, n: nat)
    ensures Bit(Shr(x, k), n) <==> Bit(x, n + k)
    decreases k
  {
    if k > 0 {
      ShrBit(x, k - 1, n + 1);
      assert Bit(Shr(x, k - 1), n + 1) == Bit(Shr(x, k - 1) / 2, n);
    }
  }

  /** The sign is bit 31. */
  lemma SignBit(x: Word)
    ensures Bit(x, 31) <==> x >= 0x8000_0000
    ensures Bit(x, 31) <==> Signed(x) < 0
  {
    hide Bit;
    var high, low := x / 0x8000_0000, x % 0x8000_0000;
    Sign31();
    ScaleIsProduct(high, 31);
    JoinedBit(high, low, 31, 31);
    NextBit(high, 0);
  }

  /** Halving a signed word: shift right and keep the sign. */
  lemma HalveBit(y: int, n: nat)
    requires FitsSigned(y)
    ensures FitsSigned(y / 2)
    ensures Bit(Wrap(y / 2), n) <==> n < 32 && Bit(Wrap(y), if n == 31 then 31 else n + 1)
  {
    hide Bit, Wrap;
    var w, high := Wrap(y), if y < 0 then 1 else 0;
    HalfWord(y);
    Sign31();
    ScaleIsProduct(high, 31);
    JoinedBit(high, w / 2, 31, n);
    NextBit(w, n);
    if n >= 32 {
      WordBits(Wrap(y / 2), n);
    } else if n == 31 {
      SignBit(w);
      NextBit(high, 0);
    }
  }

  lemma HalfWord(y: int)
    requires FitsSigned(y)
    ensures Wrap(y / 2) == (if y < 0 then 0x8000_0000 else 0) + Wrap(y) / 2
    ensures Signed(Wrap(y)) == y
  {
  }

  lemma Sign31()
    ensures Pow2(31) == 0x8000_0000
  {
    Pow2Values();
    assert Pow2(32) == 2 * Pow2(31);
  }

  lemma NextBit(x: nat, n: nat)
    ensures Bit(x, n + 1) == Bit(x / 2, n) && Bit(x, 0) == (x % 2 == 1)
  {
  }

  lemma {:induction false} HalvesBit(y: int, k: nat, n: nat)
    requires FitsSigned(y) && n < 32
    ensures FitsSigned(Halve(y, k))
    ensures Bit(Wrap(Halve(y, k)), n) <==> Bit(Wrap(y), if n + k < 31 then n + k else 31)
    decreases k
  {
    hide Bit, Wrap;
    if k > 0 {
      HalvesBit(y, k - 1, n);
      HalvesBit(y, k - 1, if n == 31 then 31 else n + 1);
      HalveBit(Halve(y, k - 1), n);
    }
  }

  /** The arithmetic shift copies the sign into the upper bits. */
  lemma SarBit(x: Word, k: nat, n: nat)
    ensures Bit(Sar(x, k), n) <==> n < 32 && Bit(x, if n + k < 31 then n + k else 31)
  {
    hide Bit, Wrap, Halve;
    if n < 32 {
      HalvesBit(Signed(x), k, n);
      SignedWraps(x);
    } else {
      WordBits(Sar(x, k), n);
    }
  }

  lemma SignedWraps(x: Word)
    ensures Wrap(Signed(x)) == x && FitsSigned(Signed(x))
  {
  }

  // ----- leading bits -----

  /** The top bit set is bit `BitLength(x) - 1`. */
  lemma {:induction false} TopBit(x: nat, n: nat)
    requires n + 1 >= BitLength(x)
    ensures Bit(x, n) <==> n + 1 == BitLength(x)
    decreases x
  {
    if x == 0 {
      ZeroHasNoBit(n);
    } else if n == 0 {
      assert BitLength(x / 2) == 0;
    } else {
      TopBit(x / 2, n - 1);
    }
  }

  lemma {:induction false} LengthBound(x: nat, k: nat)
    requires x < Pow2(k)
    ensures BitLength(x) <= k
    decreases k
  {
    if x != 0 {
      LengthBound(x / 2, k - 1);
    }
  }
}
