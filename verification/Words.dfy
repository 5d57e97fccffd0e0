/** Machine integers of the simulator: 32-bit words, halfwords, bytes and register
    numbers as bounded mathematical integers, with wrap-around and sign written out. */
module Words {
  const TWO32: int := 0x1_0000_0000

  type Word = x: int | 0 <= x < 0x1_0000_0000
  type Half = x: int | 0 <= x < 0x1_0000
  type Byte = x: int | 0 <= x < 0x100
  type Reg = x: int | 0 <= x < 32

  /** A bank of thirty-two words: the general registers, or the coprocessor 0 registers. */
  type Regs = s: seq<Word> | |s| == 32 witness seq(32, _ => 0)

  datatype Option<+T> = None | Some(value: T)

  /** Conversion of any integer to `uint32_t`. */
  function Wrap(x: int): Word {
    x % 0x1_0000_0000
  }

  /** The value of a word read as `int32_t`. */
  function Signed(w: Word): int {
    if w < 0x8000_0000 then w else w - 0x1_0000_0000
  }

  predicate FitsSigned(x: int) {
    -0x8000_0000 <= x < 0x8000_0000
  }

  /** `(int32_t)(int16_t)h`, as a word. */
  function SignEx(h: Half): Word {
    if h < 0x8000 then h else h + 0xffff_0000
  }

  /** `(int32_t)(int8_t)b`, as a word. */
  function SignExByte(b: Byte): Word {
    if b < 0x80 then b else b + 0xffff_ff00
  }

  function Pow2(n: nat): (p: nat)
    ensures p >= 1
  {
    if n == 0 then 1 else 2 * Pow2(n - 1)
  }

  // ----- bitwise operators, bit by bit -----

  function And(x: nat, y: nat): (r: nat)
    ensures r <= x && r <= y
  {
    if x == 0 || y == 0 then 0
    else (if x % 2 == 1 && y % 2 == 1 then 1 else 0) + 2 * And(x / 2, y / 2)
  }

  function Or(x: nat, y: nat): nat
    decreases x + y
  {
    if x == 0 then y else if y == 0 then x
    else (if x % 2 == 1 || y % 2 == 1 then 1 else 0) + 2 * Or(x / 2, y / 2)
  }

  function Xor(x: nat, y: nat): nat
    decreases x + y
  {
    if x == 0 then y else if y == 0 then x
    else (if x % 2 != y % 2 then 1 else 0) + 2 * Xor(x / 2, y / 2)
  }

  lemma {:induction false} OrBound(x: nat, y: nat, n: nat)
    requires x < Pow2(n) && y < Pow2(n)
    ensures Or(x, y) < Pow2(n)
    decreases n
  {
    if x != 0 && y != 0 {
      OrBound(x / 2, y / 2, n - 1);
    }
  }

  lemma {:induction false} XorBound(x: nat, y: nat, n: nat)
    requires x < Pow2(n) && y < Pow2(n)
    ensures Xor(x, y) < Pow2(n)
    decreases n
  {
    if x != 0 && y != 0 {
      XorBound(x / 2, y / 2, n - 1);
    }
  }

  /** `x` shifted left by `n` bits, unbounded. */
  function Scale(x: nat, n: nat): nat {
    if n == 0 then x else 2 * Scale(x, n - 1)
  }

  /** Two operands that share no bit: the upper one shifted by n, the lower one below 2^n. */
  lemma {:induction false} OrDisjoint(hi: nat, lo: nat, n: nat)
    requires lo < Pow2(n)
    ensures Or(Scale(hi, n), lo) == Scale(hi, n) + lo == Or(lo, Scale(hi, n))
    decreases n
  {
    if n > 0 {
      OrDisjoint(hi, lo / 2, n - 1);
    }
  }

  lemma Pow2Values()
    ensures Pow2(8) == 0x100 && Pow2(16) == 0x1_0000 && Pow2(24) == 0x100_0000 && Pow2(32) == 0x1_0000_0000
  {
    assert Pow2(8) == 0x100;
    assert Pow2(12) == 0x1000;
    assert Pow2(16) == 0x1_0000;
    assert Pow2(20) == 0x10_0000;
    assert Pow2(24) == 0x100_0000;
    assert Pow2(28) == 0x1000_0000;
  }

  lemma {:induction false} ScaleIsProduct(x: nat, n: nat)
    ensures Scale(x, n) == x * Pow2(n)
  {
    if n > 0 {
      ScaleIsProduct(x, n - 1);
      TwiceProduct(x, Pow2(n - 1));
    }
  }

  lemma TwiceProduct(x: nat, p: nat)
    ensures x * (2 * p) == 2 * (x * p)
  {
  }

  function OrWord(x: Word, y: Word): (r: Word) {
    Pow2Values(); OrBound(x, y, 32);
    Or(x, y)
  }

  function XorWord(x: Word, y: Word): (r: Word) {
    Pow2Values(); XorBound(x, y, 32);
    Xor(x, y)
  }

  /** `~x` */
  function Not(x: Word): Word {
    0xffff_ffff - x
  }

  /** A `lui`-style upper half or-ed with a lower half is their sum. */
  lemma OrHalves(hi: Half, lo: Half)
    ensures OrWord(hi * 0x1_0000, lo) == hi * 0x1_0000 + lo
  {
    Pow2Values();
    ScaleIsProduct(hi, 16);
    OrDisjoint(hi, lo, 16);
  }

  // ----- shifts -----

  function Shl(x: Word, n: nat): Word {
    Wrap(Scale(x, n))
  }

  function Shr(x: Word, n: nat): Word {
    if n == 0 then x else Shr(x, n - 1) / 2
  }

  /** Arithmetic shift right: rounds the signed value towards minus infinity. */
  function Sar(x: Word, n: nat): Word {
    Wrap(Halve(Signed(x), n))
  }

  function Halve(x: int, n: nat): int {
    if n == 0 then x else Halve(x, n - 1) / 2
  }

  function BitLength(x: nat): nat {
    if x == 0 then 0 else 1 + BitLength(x / 2)
  }

  // ----- C division (truncating) -----

  function TruncDiv(a: int, b: int): int
    requires b != 0
  {
    var q := (if a < 0 then -a else a) / (if b < 0 then -b else b);
    if (a < 0) == (b < 0) then q else -q
  }

  function TruncMod(a: int, b: int): int
    requires b != 0
  {
    a - b * TruncDiv(a, b)
  }
}
