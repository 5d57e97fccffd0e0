/** rol and ror, by a register or by a constant: two shifts and an or. */
module Rotate {
  import opened Words
  import opened Isa
  import opened Blocks
  import opened WideImmediates
  import opened Fixup
  import opened PseudoSteps
  import opened PseudoOps

  /** `r` is `x` with its `n` upper bits moved below the others. */
  ghost predicate Rotated(x: Word, n: nat, r: Word) {
    n <= 32 && exists hi: nat, lo: nat :: Exchanged(x, n, hi, lo, r)
  }

  ghost predicate Exchanged(x: Word, n: nat, hi: nat, lo: nat, r: Word)
    requires n <= 32
  {
    hi < Pow2(n) && lo < Pow2(32 - n) && x == Scale(hi, 32 - n) + lo && r == Scale(lo, n) + hi
  }

  // ----- shifts split a word -----

  lemma {:induction false} ScaleAdd(a: nat, b: nat, n: nat)
    ensures Scale(a + b, n) == Scale(a, n) + Scale(b, n)
  {
    if n > 0 {
      ScaleAdd(a, b, n - 1);
    }
  }

  lemma {:induction false} ScaleScale(x: nat, m: nat, n: nat)
    ensures Scale(Scale(x, m), n) == Scale(x, m + n)
  {
    if n > 0 {
      ScaleScale(x, m, n - 1);
    }
  }

  /** Scaling keeps strict order against powers of two, both ways. */
  lemma {:induction false} ScaleBound(x: nat, m: nat, n: nat)
    ensures x < Pow2(m) <==> Scale(x, n) < Pow2(m + n)
  {
    if n > 0 {
      ScaleBound(x, m, n - 1);
    }
  }

  lemma {:induction false} ShrSplit(x: Word, m: nat) returns (lo: nat)
    ensures lo < Pow2(m) && x == Scale(Shr(x, m), m) + lo
  {
    if m == 0 {
      lo := 0;
    } else {
      var low := ShrSplit(x, m - 1);
      var h := Shr(x, m - 1);
      lo := low + Scale(h % 2, m - 1);
      ScaleAdd(2 * (h / 2), h % 2, m - 1);
      ScaleTwice(h / 2, m - 1);
      BitScaled(h % 2, m - 1);
    }
  }

  lemma {:induction false} ScaleTwice(x: nat, n: nat)
    ensures Scale(2 * x, n) == Scale(x, n + 1)
  {
    if n > 0 {
      ScaleTwice(x, n - 1);
    }
  }

  lemma {:induction false} BitScaled(b: nat, n: nat)
    requires b < 2
    ensures Scale(b, n) == if b == 0 then 0 else Pow2(n)
  {
    if n > 0 {
      BitScaled(b, n - 1);
    }
  }

  /** The upper part falls off a left shift. */
  lemma ShlSplit(x: Word, n: nat, hi: nat, lo: nat)
    requires n <= 32 && lo < Pow2(32 - n) && x == Scale(hi, 32 - n) + lo
    ensures Shl(x, n) == Scale(lo, n)
  {
    hide Scale, Pow2;
    ScaleAdd(Scale(hi, 32 - n), lo, n);
    ScaleScale(hi, 32 - n, n);
    ScaleIsProduct(hi, 32);
    ScaleBound(lo, 32 - n, n);
    Pow2Values();
    DropMultiple(hi, Scale(lo, n));
  }

  lemma DropMultiple(hi: nat, lo: nat)
    requires lo < TWO32
    ensures Wrap(hi * TWO32 + lo) == lo
  {
  }

  lemma {:induction false} OrSelf(x: nat)
    ensures Or(x, x) == x
  {
    if x > 0 {
      OrSelf(x / 2);
    }
  }

  /** A left and a right shift by complementary amounts, or-ed in either order, rotate. */
  lemma ShiftsRotate(x: Word, n: nat)
    requires n < 32
    ensures var left, right := Shl(x, n), Shr(x, (32 - n) % 32);
            Rotated(x, n, OrWord(left, right)) && Rotated(x, n, OrWord(right, left))
  {
    hide Scale, Pow2, Shl, Shr, Or;
    if n == 0 {
      NoShift(x);
    } else {
      var hi := Shr(x, 32 - n);
      var lo := ShrSplit(x, 32 - n);
      ShlSplit(x, n, hi, lo);
      Pow2Values();
      ScaleBound(hi, n, 32 - n);
      OrDisjoint(lo, hi, n);
      var r := OrWord(Shl(x, n), hi);
      assert Exchanged(x, n, hi, lo, r);
    }
  }

  lemma NoShift(x: Word)
    ensures Rotated(x, 0, OrWord(Shl(x, 0), Shr(x, 0))) && Rotated(x, 0, OrWord(Shr(x, 0), Shl(x, 0)))
  {
    hide Or, Pow2, Scale;
    OrSelf(x);
    ByZero(x);
    Pow2Values();
    ScaleIsProduct(0, 32);
    assert Exchanged(x, 0, 0, x, x);
  }

  lemma ByZero(x: Word)
    ensures Shl(x, 0) == x && Shr(x, 0) == x && Scale(x, 0) == x && Pow2(0) == 1
  {
  }

  /** Rotating right is rotating left by the complement; the two undo each other. */
  lemma RotatedBack(x: Word, n: nat, r: Word)
    requires n <= 32
    ensures Rotated(x, n, r) <==> Rotated(r, 32 - n, x)
  {
    hide Scale, Pow2;
    if hi: nat, lo: nat :| Exchanged(x, n, hi, lo, r) {
      assert Exchanged(r, 32 - n, lo, hi, x);
    }
    var m := 32 - n;
    if hi: nat, lo: nat :| Exchanged(r, m, hi, lo, x) {
      assert Exchanged(x, n, lo, hi, r);
    }
  }

  /** A rotation has one result. */
  lemma RotatedOnce(x: Word, n: nat, r: Word, r': Word)
    requires Rotated(x, n, r) && Rotated(x, n, r')
    ensures r == r'
  {
    hide Scale, Pow2;
    var hi: nat, lo: nat :| Exchanged(x, n, hi, lo, r);
    var hi': nat, lo': nat :| Exchanged(x, n, hi', lo', r');
    SplitOnce(hi, lo, hi', lo', 32 - n);
  }

  lemma {:induction false} SplitOnce(hi: nat, lo: nat, hi': nat, lo': nat, n: nat)
    requires lo < Pow2(n) && lo' < Pow2(n) && Scale(hi, n) + lo == Scale(hi', n) + lo'
    ensures hi == hi' && lo == lo'
    decreases n
  {
    if n > 0 {
      SplitOnce(hi, lo / 2, hi', lo' / 2, n - 1);
    }
  }

  // ----- the expansions -----

  /** The register form: `rs` rotated by `rt`. */
  function RotateRegStmts(left: bool, rd: Reg, rs: Reg, rt: Reg): seq<Stmt> {
    [RegStmt(RType(SUBU, AT, 0, rt)),
     RegStmt(RType(if left then SRLV else SLLV, AT, AT, rs)),
     RegStmt(RType(if left then SLLV else SRLV, rd, rt, rs)),
     RegStmt(RType(OR, rd, rd, AT))]
  }

  /** The constant form; the shift amount of `-dist` is cut to five bits. */
  function RotateImmStmts(left: bool, rd: Reg, rs: Reg, dist: Reg): seq<Stmt> {
    [RegStmt(ShType(if left then SRL else SLL, AT, rs, (32 - dist) % 32)),
     RegStmt(ShType(if left then SLL else SRL, rd, rs, dist)),
     RegStmt(RType(OR, rd, rd, AT))]
  }

  /** The instructions of register statements. */
  lemma RegCode(stmts: seq<Stmt>, code: seq<Inst>)
    requires |stmts| == |code| && forall i | 0 <= i < |code| :: stmts[i] == RegStmt(code[i])
    ensures Code(stmts) == code
  {
    OneEachCode(stmts, code);
  }

  /** A shift into `$at`, a shift into `rd`, and their or. */
  lemma RunShiftsOr(base: Word, code: seq<Inst>, k: nat, s: State, rd: Reg, x: Word, y: Word)
    requires Placed(base, code) && k + 3 == |code| && s.pc == AddrOf(base, k) && !s.exc && rd != AT
    requires WritesTo(code[k], AT) && ValueOf(code[k], s) == x
    requires WritesTo(code[k + 1], rd) && ValueOf(code[k + 1], s) == y && code[k + 1].rs != AT && code[k + 1].rt != AT
    requires code[k + 2] == RType(OR, rd, rd, AT)
    ensures var exit := RunBlock(base, code, k, s);
            && exit.Reached? && exit.s.pc == AddrOf(base, |code|) && OnlyRegs(s, exit.s, {AT, rd})
            && (rd != 0 ==> exit.s.gpr[rd] == OrWord(y, x))
  {
    hide RunBlock, Wrote, Compute, OrWord;
    StepCompute(base, code, k, s, AT, x);
    var s1 := Wrote(s, AT, x);
    assert ValueOf(code[k + 1], s1) == y;
    StepCompute(base, code, k + 1, s1, rd, y);
    var s2 := Wrote(s1, rd, y);
    OnlyRegsTrans(s, s1, s2, {AT}, {rd});
    RunOr(base, code, k + 2, s2, rd);
  }

  lemma RunOr(base: Word, code: seq<Inst>, k: nat, s: State, rd: Reg)
    requires Placed(base, code) && k + 1 == |code| && s.pc == AddrOf(base, k) && !s.exc
    requires code[k] == RType(OR, rd, rd, AT)
    ensures var exit := RunBlock(base, code, k, s);
            && exit.Reached? && exit.s.pc == AddrOf(base, |code|) && OnlyRegs(s, exit.s, {rd})
            && exit.s.gpr[rd] == OrWord(Seen(s, rd), s.gpr[AT])
  {
    hide RunBlock, Wrote, OrWord;
    var r := OrWord(Seen(s, rd), s.gpr[AT]);
    StepCompute(base, code, k, s, rd, r);
    BlockEnds(base, code, Wrote(s, rd, r));
  }

  /** How a rotation ends. */
  ghost predicate RotateOutcome(exit: Exit, base: Word, n: nat, s: State, rd: Reg, x: Word, dist: nat) {
    && exit.Reached? && exit.s.pc == AddrOf(base, n) && OnlyRegs(s, exit.s, {AT, rd})
    && (rd != 0 ==> Rotated(x, dist, exit.s.gpr[rd]))
  }

  /** rol and ror by a constant 0 to 31; ror is the rotation left by the complement. */
  lemma RotateImmComputes(base: Word, left: bool, rd: Reg, rs: Reg, dist: Reg, s: State)
    requires Placed(base, Code(RotateImmStmts(left, rd, rs, dist))) && s.pc == base && !s.exc && rd != AT && rs != AT
    ensures var code := Code(RotateImmStmts(left, rd, rs, dist));
            RotateOutcome(RunBlock(base, code, 0, s), base, |code|, s, rd, Seen(s, rs), if left then dist else (32 - dist) % 32)
  {
    hide RunBlock, Shl, Shr, OrWord, Rotated, ValueOf, WritesTo, OnlyRegs, Placed, Code;
    var other: Reg := (32 - dist) % 32;
    var i1, i2 := ShType(if left then SRL else SLL, AT, rs, other), ShType(if left then SLL else SRL, rd, rs, dist);
    var code := [i1, i2, RType(OR, rd, rd, AT)];
    RegCode(RotateImmStmts(left, rd, rs, dist), code);
    ShiftValues(i1, s);
    ShiftValues(i2, s);
    RunShiftsOr(base, code, 0, s, rd, ValueOf(i1, s), ValueOf(i2, s));
    ShiftsRotate(Seen(s, rs), if left then dist else other);
  }

  lemma ShiftValues(i: Inst, s: State)
    requires i.op == SLL || i.op == SRL
    ensures WritesTo(i, i.rd) && ValueOf(i, s) == if i.op == SLL then Shl(Seen(s, i.rt), i.shamt) else Shr(Seen(s, i.rt), i.shamt)
  {
    hide Shl, Shr;
  }

  lemma VariableValues(i: Inst, s: State)
    requires i.op == SLLV || i.op == SRLV
    ensures WritesTo(i, i.rd)
    ensures var n := Seen(s, i.rs) % 32;
            ValueOf(i, s) == if i.op == SLLV then Shl(Seen(s, i.rt), n) else Shr(Seen(s, i.rt), n)
  {
    hide Shl, Shr;
  }

  lemma Complement32(n: Word)
    ensures WrapSub(0, n) % 32 == (32 - n % 32) % 32
  {
  }

  lemma SubuValue(rt: Reg, s: State)
    ensures WritesTo(RType(SUBU, AT, 0, rt), AT) && ValueOf(RType(SUBU, AT, 0, rt), s) == WrapSub(0, Seen(s, rt))
  {
  }

  /** rol and ror by a register: its low five bits count, for every aliasing of the three. */
  lemma RotateRegComputes(base: Word, left: bool, rd: Reg, rs: Reg, rt: Reg, s: State)
    requires Placed(base, Code(RotateRegStmts(left, rd, rs, rt))) && s.pc == base && !s.exc
    requires rd != AT && rs != AT && rt != AT
    ensures var code, n := Code(RotateRegStmts(left, rd, rs, rt)), Seen(s, rt) % 32;
            RotateOutcome(RunBlock(base, code, 0, s), base, |code|, s, rd, Seen(s, rs), if left then n else (32 - n) % 32)
  {
    hide RunBlock, Shl, Shr, OrWord, Rotated, Wrote, Compute, WrapSub;
    var i1, i2 := RType(if left then SRLV else SLLV, AT, AT, rs), RType(if left then SLLV else SRLV, rd, rt, rs);
    var code := [RType(SUBU, AT, 0, rt), i1, i2, RType(OR, rd, rd, AT)];
    RegCode(RotateRegStmts(left, rd, rs, rt), code);
    SubuValue(rt, s);
    var m := WrapSub(0, Seen(s, rt));
    StepCompute(base, code, 0, s, AT, m);
    var s1 := Wrote(s, AT, m);
    Complement32(Seen(s, rt));
    RunVariable(base, code, s1, left, rd, rs, rt);
    OnlyRegsTrans(s, s1, RunBlock(base, code, 1, s1).s, {AT}, {AT, rd});
    assert {AT} + {AT, rd} == {AT, rd};
  }

  /** The two variable shifts and the or, with the complement of the distance in `$at`. */
  lemma RunVariable(base: Word, code: seq<Inst>, s: State, left: bool, rd: Reg, rs: Reg, rt: Reg)
    requires Placed(base, code) && |code| == 4 && s.pc == AddrOf(base, 1) && !s.exc && rd != AT && rs != AT && rt != AT
    requires code[1] == RType(if left then SRLV else SLLV, AT, AT, rs) && code[2] == RType(if left then SLLV else SRLV, rd, rt, rs)
    requires code[3] == RType(OR, rd, rd, AT) && s.gpr[AT] % 32 == (32 - Seen(s, rt) % 32) % 32
    ensures var n := Seen(s, rt) % 32;
            RotateOutcome(RunBlock(base, code, 1, s), base, 4, s, rd, Seen(s, rs), if left then n else (32 - n) % 32)
  {
    hide RunBlock, Shl, Shr, OrWord, Rotated, ValueOf, WritesTo, OnlyRegs, Placed;
    VariableValues(code[1], s);
    VariableValues(code[2], s);
    RunShiftsOr(base, code, 1, s, rd, ValueOf(code[1], s), ValueOf(code[2], s));
    var n := Seen(s, rt) % 32;
    ShiftsRotate(Seen(s, rs), if left then n else (32 - n) % 32);
  }
}
