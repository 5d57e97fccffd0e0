/** The 64-bit multiply of the execution core, built from 16-bit limbs, and the
    multiply-accumulate carries. */
module Multiply {
  import opened Words

  /** The HI and LO registers. */
  datatype HiLo = HiLo(hi: Word, lo: Word) {
    /** The register pair as an unsigned 64-bit number. */
    function Value(): int {
      hi * 0x1_0000_0000 + lo
    }
  }

  const TWO64: int := 0x1_0000_0000_0000_0000

  /** Schoolbook multiplication of `a||b` by `c||d`, every intermediate in 32 bits. */
  function UnsignedMultiply(v1: Word, v2: Word): HiLo {
    var a, b := v1 / 0x1_0000, v1 % 0x1_0000;
    var c, d := v2 / 0x1_0000, v2 % 0x1_0000;
    Combine(Wrap(a * c), Wrap(a * d), Wrap(c * b), Wrap(b * d))
  }

  /** Sum of the four limb products, with the carries out of the middle column. */
  function Combine(ac: Word, ad: Word, cb: Word, bd: Word): HiLo {
    var mid := Wrap(ad + cb);
    var carry := if mid < ad || mid < cb then 1 else 0;
    var mid2 := Wrap(mid + bd / 0x1_0000);
    var carry2 := if mid2 < mid || mid2 < bd / 0x1_0000 then carry + 1 else carry;
    HiLo(Wrap(ac + carry2 * 0x1_0000 + mid2 / 0x1_0000),
         bd % 0x1_0000 + mid2 % 0x1_0000 * 0x1_0000)
  }

  /** Multiply magnitudes, then complement-and-increment the pair when the signs differ. */
  function SignedMultiply(v1: Word, v2: Word): HiLo {
    var m1 := if Signed(v1) < 0 then Neg(v1) else v1;
    var m2 := if Signed(v2) < 0 then Neg(v2) else v2;
    var p := UnsignedMultiply(m1, m2);
    if (Signed(v1) < 0) != (Signed(v2) < 0) then Negate(p) else p
  }

  /** Unsigned negation, `-(u_reg_word)x`. */
  function Neg(x: int): Word {
    Wrap(-x)
  }

  function Negate(p: HiLo): HiLo {
    var lo := Wrap(Not(p.lo) + 1);
    HiLo(if lo == 0 then Wrap(Not(p.hi) + 1) else Not(p.hi), lo)
  }

  /** `madd`/`maddu`: add a product into HI:LO, the carry found by comparing the low word. */
  function Accumulate(acc: HiLo, product: HiLo): HiLo {
    var lo := Wrap(acc.lo + product.lo);
    var high := if lo < product.lo || lo < acc.lo then Wrap(acc.hi + 1) else acc.hi;
    HiLo(Wrap(high + product.hi), lo)
  }

  /** `msub`/`msubu`: subtract a product from HI:LO, with borrow. */
  function Deduct(acc: HiLo, product: HiLo): HiLo {
    var high := if product.lo > acc.lo then Wrap(acc.hi - 1) else acc.hi;
    HiLo(Wrap(high - product.hi), Wrap(acc.lo - product.lo))
  }

  // ----- correctness -----

  lemma MulMono(x: nat, m: nat, y: nat, n: nat)
    requires x <= m && y <= n
    ensures 0 <= x * y <= m * n
  {
    assert x * y <= x * n <= m * n;
  }

  lemma LimbBound(x: int, y: int)
    requires 0 <= x < 0x1_0000 && 0 <= y < 0x1_0000
    ensures 0 <= x * y <= 0xfffe_0001
  {
    MulMono(x, 0xffff, y, 0xffff);
  }

  lemma LimbExpansion(a: int, b: int, c: int, d: int)
    ensures (a * 0x1_0000 + b) * (c * 0x1_0000 + d)
            == a * c * 0x1_0000_0000 + (a * d + c * b) * 0x1_0000 + b * d
  {
  }

  /** A 32-bit sum that overflowed is smaller than both of its terms. */
  lemma CarryOut(x: Word, y: Word)
    ensures var s := Wrap(x + y);
            (s < x || s < y <==> x + y >= TWO32) && s == x + y - (if x + y >= TWO32 then TWO32 else 0)
  {
  }

  /** The carry bookkeeping, on arbitrary limb products. */
  lemma CombineExact(ac: Word, ad: Word, cb: Word, bd: Word)
    requires ac * 0x1_0000_0000 + (ad + cb) * 0x1_0000 + bd < TWO64
    ensures Combine(ac, ad, cb, bd).Value() == ac * 0x1_0000_0000 + (ad + cb) * 0x1_0000 + bd
  {
    hide Wrap;
    var mid := Wrap(ad + cb);
    var carry := if mid < ad || mid < cb then 1 else 0;
    var top, low := bd / 0x1_0000, bd % 0x1_0000;
    var mid2 := Wrap(mid + top);
    var carry2 := if mid2 < mid || mid2 < top then carry + 1 else carry;
    MiddleColumn(ad, cb, top);
    ColumnSum(ac, ad + cb, top, low, carry2, mid2 / 0x1_0000, mid2 % 0x1_0000);
  }

  /** The two carries out of the middle column. */
  lemma MiddleColumn(ad: Word, cb: Word, top: Half)
    ensures var mid := Wrap(ad + cb);
            var carry := if mid < ad || mid < cb then 1 else 0;
            var mid2 := Wrap(mid + top);
            ad + cb + top == (if mid2 < mid || mid2 < top then carry + 1 else carry) * 0x1_0000_0000 + mid2
  {
    CarryOut(ad, cb);
    CarryOut(Wrap(ad + cb), top);
  }

  lemma ColumnSum(ac: Word, mid: nat, top: Half, low: Half, carry: nat, midHigh: Half, midLow: Half)
    requires mid + top == carry * 0x1_0000_0000 + midHigh * 0x1_0000 + midLow
    requires ac * 0x1_0000_0000 + mid * 0x1_0000 + top * 0x1_0000 + low < TWO64
    ensures Wrap(ac + carry * 0x1_0000 + midHigh) * 0x1_0000_0000 + (low + midLow * 0x1_0000)
            == ac * 0x1_0000_0000 + mid * 0x1_0000 + top * 0x1_0000 + low
  {
    var h := ac + carry * 0x1_0000 + midHigh;
    assert h * 0x1_0000_0000 <= ac * 0x1_0000_0000 + mid * 0x1_0000 + top * 0x1_0000 + low;
    assert h < TWO32;
  }

  lemma ProductBound(x: int, y: int)
    requires 0 <= x < 0x1_0000_0000 && 0 <= y < 0x1_0000_0000
    ensures 0 <= x * y < TWO64
  {
    MulMono(x, 0xffff_ffff, y, 0xffff_ffff);
  }

  /** HI:LO is the exact unsigned product. */
  lemma UnsignedMultiplyExact(v1: Word, v2: Word)
    ensures UnsignedMultiply(v1, v2).Value() == v1 * v2
  {
    ProductBound(v1, v2);
    LimbProduct(v1 / 0x1_0000, v1 % 0x1_0000, v2 / 0x1_0000, v2 % 0x1_0000);
  }

  lemma LimbProduct(a: Half, b: Half, c: Half, d: Half)
    requires (a * 0x1_0000 + b) * (c * 0x1_0000 + d) < TWO64
    ensures Combine(Wrap(a * c), Wrap(a * d), Wrap(c * b), Wrap(b * d)).Value()
            == (a * 0x1_0000 + b) * (c * 0x1_0000 + d)
  {
    var ac, ad, cb, bd := a * c, a * d, c * b, b * d;
    LimbBound(b, d);
    LimbBound(a, d);
    LimbBound(c, b);
    LimbBound(a, c);
    LimbExpansion(a, b, c, d);
    WrapNoop(ac);
    WrapNoop(ad);
    WrapNoop(cb);
    WrapNoop(bd);
    CombineExact(ac, ad, cb, bd);
  }

  lemma WrapNoop(x: int)
    requires 0 <= x < TWO32
    ensures Wrap(x) == x
  {
  }

  lemma Mod64(x: int, q: int, r: int)
    requires 0 <= r < TWO64 && x == q * TWO64 + r
    ensures x % TWO64 == r
  {
  }

  /** HI:LO is the two's complement of the exact signed product, INT_MIN included. */
  lemma SignedMultiplyExact(v1: Word, v2: Word)
    ensures SignedMultiply(v1, v2).Value() == (Signed(v1) * Signed(v2)) % TWO64
  {
    var m1 := if Signed(v1) < 0 then Neg(v1) else v1;
    var m2 := if Signed(v2) < 0 then Neg(v2) else v2;
    assert m1 == if Signed(v1) < 0 then -Signed(v1) else Signed(v1);
    assert m2 == if Signed(v2) < 0 then -Signed(v2) else Signed(v2);
    UnsignedMultiplyExact(m1, m2);
    ProductBound(m1, m2);
    NegateExact(UnsignedMultiply(m1, m2));
    SignsMultiply(Signed(v1), Signed(v2), m1, m2);
    if (Signed(v1) < 0) == (Signed(v2) < 0) {
      Mod64(m1 * m2, 0, m1 * m2);
    }
  }

  lemma SignsMultiply(x: int, y: int, ax: int, ay: int)
    requires ax == (if x < 0 then -x else x) && ay == (if y < 0 then -y else y)
    ensures x * y == if (x < 0) == (y < 0) then ax * ay else -(ax * ay)
  {
  }

  lemma NegateValue(p: HiLo)
    ensures Negate(p).Value() == if p.Value() == 0 then 0 else TWO64 - p.Value()
  {
    CarryOut(Not(p.lo), 1);
    CarryOut(Not(p.hi), 1);
  }

  lemma NegateExact(p: HiLo)
    ensures Negate(p).Value() == (-p.Value()) % TWO64
  {
    NegateValue(p);
    Mod64(-p.Value(), if p.Value() == 0 then 0 else -1, Negate(p).Value());
  }

  lemma AccumulateValue(acc: HiLo, product: HiLo)
    ensures var sum := acc.Value() + product.Value();
            Accumulate(acc, product).Value() == if sum >= TWO64 then sum - TWO64 else sum
  {
    CarryOut(acc.lo, product.lo);
    CarryOut(acc.hi, 1);
    CarryOut(if acc.lo + product.lo >= TWO32 then Wrap(acc.hi + 1) else acc.hi, product.hi);
  }

  lemma Borrow(x: Word, y: Word)
    ensures Wrap(x - y) == x - y + (if x < y then TWO32 else 0)
  {
  }

  lemma DeductValue(acc: HiLo, product: HiLo)
    ensures var diff := acc.Value() - product.Value();
            Deduct(acc, product).Value() == if diff < 0 then diff + TWO64 else diff
  {
    Borrow(acc.lo, product.lo);
    Borrow(acc.hi, 1);
    Borrow(if product.lo > acc.lo then Wrap(acc.hi - 1) else acc.hi, product.hi);
  }

  /** madd/maddu and msub/msubu are addition and subtraction modulo 2^64. */
  lemma AccumulateExact(acc: HiLo, product: HiLo)
    ensures Accumulate(acc, product).Value() == (acc.Value() + product.Value()) % TWO64
    ensures Deduct(acc, product).Value() == (acc.Value() - product.Value()) % TWO64
  {
    AccumulateValue(acc, product);
    DeductValue(acc, product);
    var sum, diff := acc.Value() + product.Value(), acc.Value() - product.Value();
    Mod64(sum, if sum >= TWO64 then 1 else 0, Accumulate(acc, product).Value());
    Mod64(diff, if diff < 0 then -1 else 0, Deduct(acc, product).Value());
  }

  /** A signed product fits 32 bits exactly when HI is the sign extension of LO. */
  lemma SignedProductFits(v1: Word, v2: Word)
    ensures var p := SignedMultiply(v1, v2);
            FitsSigned(Signed(v1) * Signed(v2)) <==> p.hi == (if Signed(p.lo) < 0 then 0xffff_ffff else 0)
    ensures FitsSigned(Signed(v1) * Signed(v2)) ==>
              Signed(SignedMultiply(v1, v2).lo) == Signed(v1) * Signed(v2)
  {
    SignedMultiplyExact(v1, v2);
    SignedProductBound(Signed(v1), Signed(v2));
    var p, x := SignedMultiply(v1, v2), Signed(v1) * Signed(v2);
    Mod64(x, if x >= 0 then 0 else -1, if x >= 0 then x else x + TWO64);
  }

  lemma SignedProductBound(x: int, y: int)
    requires FitsSigned(x) && FitsSigned(y)
    ensures -0x4000_0000_0000_0000 <= x * y <= 0x4000_0000_0000_0000
  {
    var ax, ay := if x < 0 then -x else x, if y < 0 then -y else y;
    MulMono(ax, 0x8000_0000, ay, 0x8000_0000);
    assert x * y == ax * ay || x * y == -(ax * ay);
  }
}
