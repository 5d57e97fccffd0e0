/** mulo, mulou, three-operand div and rem, and abs. */
module PseudoArith {
  import opened Words
  import opened Multiply
  import opened Isa
  import opened Blocks
  import opened WideImmediates
  import opened Fixup
  import opened PseudoSteps
  import opened PseudoOps

  const BREAK_INST := RType(BREAK, 0, 0, 0)

  /** `mult_inst` for mulo and mulou. */
  function MuloStmts(unsigned: bool, rd: Reg, rs: Reg, rt: Reg): seq<Stmt> {
    [RegStmt(RType(if unsigned then MULTU else MULT, 0, rs, rt))]
    + (if rd == 0 then []
       else (if unsigned then [RegStmt(RType(MFHI, AT, 0, 0)), Skip(BEQ, 0, AT, 3)]
             else [RegStmt(RType(MFHI, AT, 0, 0)), RegStmt(RType(MFLO, rd, 0, 0)), RegStmt(ShType(SRA, rd, rd, 31)),
                   Skip(BEQ, rd, AT, 3)])
            + [NOP_STMT, RegStmt(BREAK_INST), RegStmt(RType(MFLO, rd, 0, 0))])
  }

  lemma MuloCodeIs(unsigned: bool, rd: Reg, rs: Reg, rt: Reg)
    ensures Code(MuloStmts(unsigned, rd, rs, rt)) == MuloCode(unsigned, rd, rs, rt)
  {
    SingleInstructions(BEQ, 0, AT, 0);
    SingleInstructions(BEQ, rd, AT, 0);
    OneEachCode(MuloStmts(unsigned, rd, rs, rt), MuloCode(unsigned, rd, rs, rt));
  }

  /** One instruction per statement, so the skips land where they should. */
  function MuloCode(unsigned: bool, rd: Reg, rs: Reg, rt: Reg): seq<Inst> {
    if rd == 0 then [RType(if unsigned then MULTU else MULT, 0, rs, rt)]
    else if unsigned then
      [RType(MULTU, 0, rs, rt), RType(MFHI, AT, 0, 0), IType(BEQ, 0, AT, 3), NOP, BREAK_INST, RType(MFLO, rd, 0, 0)]
    else
      [RType(MULT, 0, rs, rt), RType(MFHI, AT, 0, 0), RType(MFLO, rd, 0, 0), ShType(SRA, rd, rd, 31),
       IType(BEQ, rd, AT, 3), NOP, BREAK_INST, RType(MFLO, rd, 0, 0)]
  }

  lemma {:induction false} HalveRange(x: int, n: nat, k: nat)
    requires 0 <= x + Pow2(n + k) && x < Pow2(n + k)
    ensures 0 <= Halve(x, n) + Pow2(k) && Halve(x, n) < Pow2(k) && (x < 0 <==> Halve(x, n) < 0)
    decreases n
  {
    if n > 0 {
      HalveRange(x, n - 1, k + 1);
    }
  }

  lemma Sar31(x: Word)
    ensures Sar(x, 31) == if Signed(x) < 0 then 0xffff_ffff else 0
  {
    hide Halve, Pow2;
    Pow2Of31();
    HalveRange(Signed(x), 31, 0);
  }

  lemma Pow2Of31()
    ensures Pow2(31) == 0x8000_0000 && Pow2(0) == 1
  {
    assert Pow2(24) == 0x100_0000 by { Pow2Values(); }
    assert Pow2(28) == 0x1000_0000;
  }

  /** `mfhi $at; mflo rd; sra rd, rd, 31`: HI in `$at`, the sign of LO spread over `rd`. */
  lemma RunMuloSign(base: Word, code: seq<Inst>, s: State, rd: Reg) returns (t: State)
    requires Placed(base, code) && 4 <= |code| && s.pc == AddrOf(base, 1) && !s.exc && rd != 0 && rd != AT
    requires code[1] == RType(MFHI, AT, 0, 0) && code[2] == RType(MFLO, rd, 0, 0) && code[3] == ShType(SRA, rd, rd, 31)
    ensures t.pc == AddrOf(base, 4) && OnlyRegs(s, t, {AT, rd})
    ensures t.gpr[AT] == s.hilo.hi && t.gpr[rd] == if Signed(s.hilo.lo) < 0 then 0xffff_ffff else 0
    ensures RunBlock(base, code, 1, s) == RunBlock(base, code, 4, t)
  {
    hide RunBlock, Signed, OnlyRegs, Placed, AddrOf;
    var s2 := RunMoves(base, code, s, rd);
    SameFlags(s, s2, {AT, rd});
    t := RunSign(base, code, 3, s2, rd);
    OnlyRegsTrans(s, s2, t, {AT, rd}, {rd});
    assert {AT, rd} + {rd} == {AT, rd};
    KeepsReg(s2, t, {rd}, AT);
  }

  /** `mfhi $at; mflo rd` */
  lemma RunMoves(base: Word, code: seq<Inst>, s: State, rd: Reg) returns (t: State)
    requires Placed(base, code) && 3 <= |code| && s.pc == AddrOf(base, 1) && !s.exc && rd != 0 && rd != AT
    requires code[1] == RType(MFHI, AT, 0, 0) && code[2] == RType(MFLO, rd, 0, 0)
    ensures t.pc == AddrOf(base, 3) && OnlyRegs(s, t, {AT, rd})
    ensures t.gpr[AT] == s.hilo.hi && t.gpr[rd] == s.hilo.lo
    ensures RunBlock(base, code, 1, s) == RunBlock(base, code, 3, t)
  {
    hide RunBlock, Wrote, OnlyRegs, Placed, AddrOf;
    StepMove(base, code, 1, s, AT, s.hilo.hi);
    var s1 := Wrote(s, AT, s.hilo.hi);
    SameFlags(s, s1, {AT});
    StepMove(base, code, 2, s1, rd, s1.hilo.lo);
    t := Wrote(s1, rd, s1.hilo.lo);
    OnlyRegsTrans(s, s1, t, {AT}, {rd});
    assert {AT} + {rd} == {AT, rd};
    KeepsReg(s1, t, {rd}, AT);
  }

  lemma SameFlags(s: State, t: State, regs: set<Reg>)
    requires OnlyRegs(s, t, regs)
    ensures t.exc == s.exc && t.hilo == s.hilo
  {
  }

  lemma OnlyRegsRefl(s: State, regs: set<Reg>)
    ensures OnlyRegs(s, s, regs)
  {
  }

  lemma KeepsReg(s: State, t: State, regs: set<Reg>, r: Reg)
    requires OnlyRegs(s, t, regs) && r !in regs && r != 0
    ensures t.gpr[r] == s.gpr[r]
  {
  }

  /** `sra rd, rd, 31` */
  lemma RunSign(base: Word, code: seq<Inst>, k: nat, s: State, rd: Reg) returns (t: State)
    requires Placed(base, code) && k < |code| && s.pc == AddrOf(base, k) && !s.exc && rd != 0
    requires code[k] == ShType(SRA, rd, rd, 31)
    ensures t.pc == AddrOf(base, k + 1) && OnlyRegs(s, t, {rd})
    ensures t.gpr[rd] == if Signed(s.gpr[rd]) < 0 then 0xffff_ffff else 0
    ensures RunBlock(base, code, k, s) == RunBlock(base, code, k + 1, t)
  {
    hide RunBlock, Wrote, Compute, Signed, OnlyRegs, Placed, AddrOf;
    SraValue(rd, s);
    var sign := if Signed(s.gpr[rd]) < 0 then 0xffff_ffff else 0;
    StepCompute(base, code, k, s, rd, sign);
    t := Wrote(s, rd, sign);
  }

  lemma SraValue(rd: Reg, s: State)
    requires rd != 0
    ensures ValueOf(ShType(SRA, rd, rd, 31), s) == if Signed(s.gpr[rd]) < 0 then 0xffff_ffff else 0
  {
    hide Sar, Signed;
    Sar31(s.gpr[rd]);
  }

  /** `beq rd, $at` over `nop; break`, then `mflo rd`. */
  lemma RunMuloCheck(base: Word, code: seq<Inst>, k: nat, s: State, t: State, rd: Reg) returns (exit: Exit)
    requires Placed(base, code) && k + 4 == |code| && t.pc == AddrOf(base, k) && !s.exc && OnlyRegs(s, t, {AT, rd})
    requires code[k].op == BEQ && code[k].imm == 3 && code[k + 1] == NOP && code[k + 2] == BREAK_INST
    requires code[k + 3] == RType(MFLO, rd, 0, 0)
    ensures if Seen(t, code[k].rs) == Seen(t, code[k].rt)
            then exit.Reached? && exit.s.pc == AddrOf(base, |code|) && OnlyRegs(s, exit.s, {AT, rd}) && exit.s.gpr[rd] == s.hilo.lo
            else exit.Raised? && exit.s.cp0[CAUSE] / 4 % 32 == EXC_BP
    ensures exit == RunBlock(base, code, k, t)
  {
    hide RunBlock, Wrote;
    var taken := Seen(t, code[k].rs) == Seen(t, code[k].rt);
    exit := RunBlock(base, code, k, t);
    StepSkip(base, code, k, t, taken);
    var j := if taken then k + 3 else k + 1;
    var t1 := Skipped(t, AddrOf(base, j));
    SkippedOnly(t, AddrOf(base, j));
    if taken {
      OnlyRegsTrans(s, t, t1, {AT, rd}, {});
      StepMove(base, code, k + 3, t1, rd, t1.hilo.lo);
      var t2 := Wrote(t1, rd, t1.hilo.lo);
      OnlyRegsTrans(s, t1, t2, {AT, rd}, {rd});
      BlockEnds(base, code, t2);
    } else {
      RunTrap(base, code, k + 1, t1);
    }
  }

  /** `nop; break` */
  lemma RunTrap(base: Word, code: seq<Inst>, k: nat, s: State)
    requires Placed(base, code) && k + 2 <= |code| && s.pc == AddrOf(base, k) && !s.exc
    requires code[k] == NOP && code[k + 1] == BREAK_INST
    ensures var exit := RunBlock(base, code, k, s);
            exit.Raised? && exit.s.cp0[CAUSE] / 4 % 32 == EXC_BP
  {
    hide RunBlock, Wrote;
    NopValue(s);
    StepCompute(base, code, k, s, 0, 0);
    StepBreak(base, code, k + 1, Wrote(s, 0, 0));
  }

  /** mulo breaks if and only if the signed product does not fit 32 bits; otherwise `rd` holds
      the exact product. HI and LO hold the 64-bit product, nothing else changes but `$at`. */
  lemma MuloTrapsIff(base: Word, rd: Reg, rs: Reg, rt: Reg, s: State)
    requires rd != 0 && rd != AT && s.pc == base && !s.exc && Placed(base, MuloCode(false, rd, rs, rt))
    ensures var a, b := Seen(s, rs), Seen(s, rt);
            var product := Signed(a) * Signed(b);
            var exit := RunBlock(base, MuloCode(false, rd, rs, rt), 0, s);
            if FitsSigned(product)
            then exit.Reached? && exit.s.pc == AddrOf(base, 8) && OnlyRegs(s.(hilo := SignedMultiply(a, b)), exit.s, {AT, rd})
                 && Signed(exit.s.gpr[rd]) == product
            else exit.Raised? && exit.s.cp0[CAUSE] / 4 % 32 == EXC_BP
  {
    hide RunBlock, SignedMultiply, Signed, FitsSigned, OnlyRegs, Wrap, MulDiv;
    var code, a, b := MuloCode(false, rd, rs, rt), Seen(s, rs), Seen(s, rt);
    var p := SignedMultiply(a, b);
    SignedProductFits(a, b);
    MultValue(s.hilo, a, b);
    StepMulDiv(base, code, 0, s, p);
    var s1 := Next(Zeroed(s).(hilo := p));
    var exit := RunMulo(base, code, s1, rd);
    if exit.Reached? {
      OnlyRegsTrans(s.(hilo := p), s1, exit.s, {}, {AT, rd});
      assert {} + {AT, rd} == {AT, rd};
    }
  }

  lemma RunMulo(base: Word, code: seq<Inst>, s: State, rd: Reg) returns (exit: Exit)
    requires Placed(base, code) && |code| == 8 && s.pc == AddrOf(base, 1) && !s.exc && rd != 0 && rd != AT
    requires code[1] == RType(MFHI, AT, 0, 0) && code[2] == RType(MFLO, rd, 0, 0) && code[3] == ShType(SRA, rd, rd, 31)
    requires code[4] == IType(BEQ, rd, AT, 3)
    requires code[5] == NOP && code[6] == BREAK_INST && code[7] == RType(MFLO, rd, 0, 0)
    ensures if s.hilo.hi == if Signed(s.hilo.lo) < 0 then 0xffff_ffff else 0
            then exit.Reached? && exit.s.pc == AddrOf(base, 8) && OnlyRegs(s, exit.s, {AT, rd}) && exit.s.gpr[rd] == s.hilo.lo
            else exit.Raised? && exit.s.cp0[CAUSE] / 4 % 32 == EXC_BP
    ensures exit == RunBlock(base, code, 1, s)
  {
    hide RunBlock, Signed, OnlyRegs, Placed;
    var t := RunMuloSign(base, code, s, rd);
    SameFlags(s, t, {AT, rd});
    exit := RunMuloCheck(base, code, 4, s, t, rd);
  }

  lemma MultValue(hilo: HiLo, a: Word, b: Word)
    ensures MulDiv(MULT, hilo, a, b) == SignedMultiply(a, b)
    ensures MulDiv(MULTU, hilo, a, b) == UnsignedMultiply(a, b)
  {
    hide SignedMultiply, UnsignedMultiply, Signed;
  }

  /** mulou breaks if and only if the unsigned product is 2^32 or more. */
  lemma MulouTrapsIff(base: Word, rd: Reg, rs: Reg, rt: Reg, s: State)
    requires rd != 0 && s.pc == base && !s.exc && Placed(base, MuloCode(true, rd, rs, rt))
    ensures var a, b := Seen(s, rs), Seen(s, rt);
            var exit := RunBlock(base, MuloCode(true, rd, rs, rt), 0, s);
            if Times(a, b) < TWO32
            then exit.Reached? && exit.s.pc == AddrOf(base, 6) && OnlyRegs(s.(hilo := UnsignedMultiply(a, b)), exit.s, {AT, rd})
                 && exit.s.gpr[rd] == Times(a, b)
            else exit.Raised? && exit.s.cp0[CAUSE] / 4 % 32 == EXC_BP
  {
    hide RunBlock, UnsignedMultiply, Times;
    var code, a, b := MuloCode(true, rd, rs, rt), Seen(s, rs), Seen(s, rt);
    var p := UnsignedMultiply(a, b);
    UnsignedFits(a, b);
    MultValue(s.hilo, a, b);
    StepMulDiv(base, code, 0, s, p);
    var s1 := Next(Zeroed(s).(hilo := p));
    var exit := RunMulou(base, code, s1, rd);
    if exit.Reached? {
      OnlyRegsTrans(s.(hilo := p), s1, exit.s, {}, {AT, rd});
    }
  }

  lemma UnsignedFits(a: Word, b: Word)
    ensures var p := UnsignedMultiply(a, b);
            (Times(a, b) < TWO32 <==> p.hi == 0) && (p.hi == 0 ==> p.lo == Times(a, b))
  {
    hide UnsignedMultiply;
    UnsignedMultiplyExact(a, b);
  }

  lemma RunMulou(base: Word, code: seq<Inst>, s: State, rd: Reg) returns (exit: Exit)
    requires Placed(base, code) && |code| == 6 && s.pc == AddrOf(base, 1) && !s.exc && rd != 0
    requires code[1] == RType(MFHI, AT, 0, 0) && code[2] == IType(BEQ, 0, AT, 3)
    requires code[3] == NOP && code[4] == BREAK_INST && code[5] == RType(MFLO, rd, 0, 0)
    ensures if s.hilo.hi == 0
            then exit.Reached? && exit.s.pc == AddrOf(base, 6) && OnlyRegs(s, exit.s, {AT, rd}) && exit.s.gpr[rd] == s.hilo.lo
            else exit.Raised? && exit.s.cp0[CAUSE] / 4 % 32 == EXC_BP
    ensures exit == RunBlock(base, code, 1, s)
  {
    hide RunBlock, Wrote;
    StepMove(base, code, 1, s, AT, s.hilo.hi);
    var s1 := Wrote(s, AT, s.hilo.hi);
    exit := RunMuloCheck(base, code, 2, s, s1, rd);
  }

  function Times(a: int, b: int): int {
    a * b
  }

  /** With `$at` as destination the overflow test compares `$at` with itself and never fires. */
  lemma MuloIntoAtNeverTraps(base: Word, rs: Reg, rt: Reg, s: State)
    requires s.pc == base && !s.exc && Placed(base, MuloCode(false, AT, rs, rt))
    ensures RunBlock(base, MuloCode(false, AT, rs, rt), 0, s).Reached?
  {
    hide RunBlock, MulDiv;
    var code := MuloCode(false, AT, rs, rt);
    var p := MulDiv(MULT, s.hilo, Seen(s, rs), Seen(s, rt));
    StepMulDiv(base, code, 0, s, p);
    RunMuloIntoAt(base, code, Next(Zeroed(s).(hilo := p)));
  }

  lemma RunMuloIntoAt(base: Word, code: seq<Inst>, s: State)
    requires Placed(base, code) && |code| == 8 && s.pc == AddrOf(base, 1) && !s.exc
    requires code[1] == RType(MFHI, AT, 0, 0) && code[2] == RType(MFLO, AT, 0, 0) && code[3] == ShType(SRA, AT, AT, 31)
    requires code[4] == IType(BEQ, AT, AT, 3) && code[5] == NOP && code[6] == BREAK_INST && code[7] == RType(MFLO, AT, 0, 0)
    ensures RunBlock(base, code, 1, s).Reached?
  {
    hide RunBlock, Wrote, Compute, Signed, OnlyRegs, Placed, AddrOf;
    StepMove(base, code, 1, s, AT, s.hilo.hi);
    var s1 := Wrote(s, AT, s.hilo.hi);
    SameFlags(s, s1, {AT});
    StepMove(base, code, 2, s1, AT, s1.hilo.lo);
    var s2 := Wrote(s1, AT, s1.hilo.lo);
    SameFlags(s1, s2, {AT});
    var s3 := RunSign(base, code, 3, s2, AT);
    SameFlags(s2, s3, {AT});
    OnlyRegsRefl(s3, {AT, AT});
    var exit := RunMuloCheck(base, code, 4, s3, s3, AT);
  }

  // ----- division -----

  /** `div_inst`: three-operand div, divu, rem and remu on registers. */
  function DivStmts(unsigned: bool, remainder: bool, rd: Reg, rs: Reg, rt: Reg): seq<Stmt> {
    (if rd == 0 then [] else [Skip(BNE, 0, rt, 3), NOP_STMT, RegStmt(BREAK_INST)])
    + [RegStmt(RType(if unsigned then DIVU else DIV, 0, rs, rt))]
    + (if rd == 0 then [] else [RegStmt(RType(if remainder then MFHI else MFLO, rd, 0, 0))])
  }

  lemma DivCodeIs(unsigned: bool, remainder: bool, rd: Reg, rs: Reg, rt: Reg)
    ensures Code(DivStmts(unsigned, remainder, rd, rs, rt)) == DivCode(unsigned, remainder, rd, rs, rt)
  {
    SingleInstructions(BNE, 0, rt, 0);
    OneEachCode(DivStmts(unsigned, remainder, rd, rs, rt), DivCode(unsigned, remainder, rd, rs, rt));
  }

  function DivCode(unsigned: bool, remainder: bool, rd: Reg, rs: Reg, rt: Reg): seq<Inst> {
    var divide := RType(if unsigned then DIVU else DIV, 0, rs, rt);
    if rd == 0 then [divide]
    else [IType(BNE, 0, rt, 3), NOP, BREAK_INST, divide, RType(if remainder then MFHI else MFLO, rd, 0, 0)]
  }

  /** The quotient and remainder of C, the remainder with the dividend's sign. */
  ghost predicate Divides(unsigned: bool, a: Word, b: Word, p: HiLo) {
    if unsigned then p.lo * b + p.hi == a && p.hi < b
    else
      && Signed(p.lo) * Signed(b) + Signed(p.hi) == Signed(a)
      && Magnitude(Signed(p.hi)) < Magnitude(Signed(b))
      && (Signed(p.hi) != 0 ==> (Signed(p.hi) < 0 <==> Signed(a) < 0))
  }

  /** Whenever the instruction divides at all, it divides correctly. */
  lemma DivideExact(unsigned: bool, hilo: HiLo, a: Word, b: Word)
    requires !DivSkipped(a, b)
    ensures Divides(unsigned, a, b, if unsigned then DivUnsigned(hilo, a, b) else DivSigned(hilo, a, b))
  {
    if unsigned {
      UnsignedDivide(a, b);
    } else {
      SignedDivide(Signed(a), Signed(b));
      SignedRange(a, b);
    }
  }

  lemma UnsignedDivide(a: Word, b: Word)
    requires b != 0
    ensures Wrap(a / b) * b + Wrap(a % b) == a && Wrap(a % b) < b
  {
    hide Wrap;
    NatDivide(a, b);
    Unwrapped(a / b);
    Unwrapped(a % b);
  }

  lemma Unwrapped(x: Word)
    ensures Wrap(x) == x
  {
  }

  lemma QuotientBound(a: nat, b: nat)
    requires b >= 1
    ensures 0 <= a / b <= a
  {
    var q := a / b;
    assert a == b * q + a % b;
    assert b * q >= q by { MulAtLeast(b, q); }
  }

  lemma MulAtLeast(b: nat, q: nat)
    requires b >= 1
    ensures b * q >= q
  {
  }

  function Magnitude(a: int): nat {
    if a < 0 then -a else a
  }

  lemma NatDivide(m: nat, n: nat)
    requires n >= 1
    ensures m == n * (m / n) + m % n && 0 <= m % n < n && 0 <= m / n <= m
    ensures m / n == m && m != 0 ==> n == 1
  {
    QuotientBound(m, n);
    ProperQuotient(m, n, m / n);
  }

  lemma ProperQuotient(m: nat, n: nat, q: nat)
    requires n >= 1 && m >= n * q
    ensures q == m && m != 0 ==> n == 1
  {
    if n >= 2 {
      MulAtLeast(n - 1, q);
      assert n * q == (n - 1) * q + q;
    }
  }

  lemma SignedDivide(a: int, b: int)
    requires b != 0
    ensures var q, r := TruncDiv(a, b), TruncMod(a, b);
            && q * b + r == a && Magnitude(r) < Magnitude(b)
            && (r != 0 ==> (r < 0 <==> a < 0))
    ensures Magnitude(TruncDiv(a, b)) <= Magnitude(a)
    ensures TruncDiv(a, b) == Magnitude(a) && a != 0 ==> Magnitude(b) == 1
  {
    var m, n := Magnitude(a), Magnitude(b);
    NatDivide(m, n);
    Signs(b, m / n);
  }

  lemma Signs(b: int, q: int)
    ensures b * q == (if b < 0 then -(Magnitude(b) * q) else Magnitude(b) * q) == q * b && b * -q == -(b * q) == -q * b
  {
  }

  lemma SignedRange(a: Word, b: Word)
    requires !DivSkipped(a, b)
    ensures Signed(Wrap(TruncDiv(Signed(a), Signed(b)))) == TruncDiv(Signed(a), Signed(b))
    ensures Signed(Wrap(TruncMod(Signed(a), Signed(b)))) == TruncMod(Signed(a), Signed(b))
  {
    SignedDivide(Signed(a), Signed(b));
    var q, r := TruncDiv(Signed(a), Signed(b)), TruncMod(Signed(a), Signed(b));
    assert FitsSigned(r);
    assert FitsSigned(q);
    SignedOfWrap(q);
    SignedOfWrap(r);
  }

  lemma SignedOfWrap(x: int)
    requires FitsSigned(x)
    ensures Signed(Wrap(x)) == x
  {
  }

  /** The one defined pair on which divu does not divide: it keeps HI and LO, so the answer is
      right only if they held it already. */
  lemma DivuKeepsIff(hilo: HiLo)
    ensures Divides(true, 0x8000_0000, 0xffff_ffff, DivUnsigned(hilo, 0x8000_0000, 0xffff_ffff))
            <==> hilo == HiLo(0x8000_0000, 0)
  {
    if hilo.lo >= 1 {
      assert hilo.lo * 0xffff_ffff >= 0xffff_ffff;
    }
  }

  /** Three-operand division: break on a zero divisor, otherwise the quotient or remainder that
      the divide instruction left in LO or HI. */
  lemma DivTrapsIff(base: Word, unsigned: bool, remainder: bool, rd: Reg, rs: Reg, rt: Reg, s: State)
    requires rd != 0 && s.pc == base && !s.exc && Placed(base, DivCode(unsigned, remainder, rd, rs, rt))
    ensures var a, b := Seen(s, rs), Seen(s, rt);
            var p := if unsigned then DivUnsigned(s.hilo, a, b) else DivSigned(s.hilo, a, b);
            var exit := RunBlock(base, DivCode(unsigned, remainder, rd, rs, rt), 0, s);
            if b == 0 then exit.Raised? && exit.s.cp0[CAUSE] / 4 % 32 == EXC_BP
            else exit.Reached? && exit.s.pc == AddrOf(base, 5) && OnlyRegs(s.(hilo := p), exit.s, {rd})
                 && exit.s.gpr[rd] == (if remainder then p.hi else p.lo)
  {
    hide RunBlock, DivUnsigned, DivSigned, Wrap, MulDiv, OnlyRegs;
    var code, a, b := DivCode(unsigned, remainder, rd, rs, rt), Seen(s, rs), Seen(s, rt);
    StepSkip(base, code, 0, s, b != 0);
    if b == 0 {
      RunTrap(base, code, 1, Skipped(s, AddrOf(base, 1)));
    } else {
      var p := if unsigned then DivUnsigned(s.hilo, a, b) else DivSigned(s.hilo, a, b);
      SkippedOnly(s, AddrOf(base, 3));
      DivValue(s.hilo, a, b);
      RunDivide(base, code, s, p);
    }
  }

  /** The division after the zero test: divide, then move the result out. */
  lemma RunDivide(base: Word, code: seq<Inst>, s: State, p: HiLo)
    requires Placed(base, code) && |code| == 5 && !s.exc
    requires FamilyOf(code[3].op) == Multiplying && (code[4].op == MFHI || code[4].op == MFLO)
    requires p == MulDiv(code[3].op, s.hilo, Seen(s, code[3].rs), Seen(s, code[3].rt))
    ensures var exit := RunBlock(base, code, 3, Skipped(s, AddrOf(base, 3)));
            && exit.Reached? && exit.s.pc == AddrOf(base, 5) && OnlyRegs(s.(hilo := p), exit.s, {code[4].rd})
            && exit.s.gpr[code[4].rd] == (if code[4].op == MFHI then p.hi else p.lo)
  {
    hide RunBlock, Wrote, Wrap, MulDiv;
    var s1, rd := Skipped(s, AddrOf(base, 3)), code[4].rd;
    StepMulDiv(base, code, 3, s1, p);
    var s2 := Next(Zeroed(s1).(hilo := p));
    StepMove(base, code, 4, s2, rd, if code[4].op == MFHI then p.hi else p.lo);
    var s3 := Wrote(s2, rd, if code[4].op == MFHI then p.hi else p.lo);
    DivFrame(s, s2, s3, p, rd);
    BlockEnds(base, code, s3);
  }

  lemma DivValue(hilo: HiLo, a: Word, b: Word)
    ensures MulDiv(DIV, hilo, a, b) == DivSigned(hilo, a, b) && MulDiv(DIVU, hilo, a, b) == DivUnsigned(hilo, a, b)
  {
  }

  lemma DivFrame(s: State, s2: State, s3: State, p: HiLo, rd: Reg)
    requires OnlyRegs(s.(hilo := p), s2, {}) && OnlyRegs(s2, s3, {rd})
    ensures OnlyRegs(s.(hilo := p), s3, {rd})
  {
    OnlyRegsTrans(s.(hilo := p), s2, s3, {}, {rd});
  }

  // ----- absolute value -----

  /** `abs`: copy unless in place, then negate behind a branch on the sign. */
  function AbsStmts(rd: Reg, rs: Reg): seq<Stmt> {
    (if rd != rs then [RegStmt(RType(ADDU, rd, 0, rs))] else [])
    + [Skip(BGEZ, 0, rs, 3), NOP_STMT, RegStmt(RType(SUB, rd, 0, rs))]
  }

  lemma AbsCodeIs(rd: Reg, rs: Reg)
    ensures Code(AbsStmts(rd, rs)) == AbsCode(rd, rs)
  {
    SingleInstructions(BGEZ, 0, rs, 0);
    OneEachCode(AbsStmts(rd, rs), AbsCode(rd, rs));
  }

  function AbsCode(rd: Reg, rs: Reg): seq<Inst> {
    (if rd != rs then [RType(ADDU, rd, 0, rs)] else []) + [IType(BGEZ, 0, rs, 3), NOP, RType(SUB, rd, 0, rs)]
  }

  lemma RunAbs(base: Word, code: seq<Inst>, k: nat, s: State, rd: Reg, rs: Reg) returns (exit: Exit)
    requires Placed(base, code) && k + 3 == |code| && s.pc == AddrOf(base, k) && !s.exc
    requires code[k] == IType(BGEZ, 0, rs, 3) && code[k + 1] == NOP && code[k + 2] == RType(SUB, rd, 0, rs)
    requires rd != 0 ==> s.gpr[rd] == Seen(s, rs)
    ensures var a := Signed(Seen(s, rs));
            if a == -0x8000_0000 then exit.Raised? && exit.s.cp0[CAUSE] / 4 % 32 == EXC_OV
            else exit.Reached? && exit.s.pc == AddrOf(base, |code|) && OnlyRegs(s, exit.s, {rd})
                 && (rd != 0 ==> exit.s.gpr[rd] == if a < 0 then -a else a)
    ensures exit == RunBlock(base, code, k, s)
  {
    hide RunBlock, Wrote;
    exit := RunBlock(base, code, k, s);
    var a := Signed(Seen(s, rs));
    StepSkip(base, code, k, s, a >= 0);
    if a >= 0 {
      var s1 := Skipped(s, AddrOf(base, |code|));
      SkippedOnly(s, s1.pc);
      BlockEnds(base, code, s1);
    } else {
      var s1 := Skipped(s, AddrOf(base, k + 1));
      SkippedOnly(s, s1.pc);
      NopValue(s1);
      StepCompute(base, code, k + 1, s1, 0, 0);
      var s2 := Wrote(s1, 0, 0);
      assert OnlyRegs(s1, s2, {});
      OnlyRegsTrans(s, s1, s2, {}, {});
      RunNegate(base, code, k + 2, s2, rd, rs);
      if a != -0x8000_0000 {
        OnlyRegsTrans(s, s2, exit.s, {}, {rd});
      }
    }
  }

  lemma RunNegate(base: Word, code: seq<Inst>, k: nat, s: State, rd: Reg, rs: Reg)
    requires Placed(base, code) && k + 1 == |code| && s.pc == AddrOf(base, k) && !s.exc
    requires code[k] == RType(SUB, rd, 0, rs) && Signed(Seen(s, rs)) < 0
    ensures var a := Signed(Seen(s, rs));
            var exit := RunBlock(base, code, k, s);
            if a == -0x8000_0000 then exit.Raised? && exit.s.cp0[CAUSE] / 4 % 32 == EXC_OV
            else exit.Reached? && exit.s.pc == AddrOf(base, |code|) && OnlyRegs(s, exit.s, {rd}) && exit.s.gpr[rd] == -a
  {
    hide Run1, RunBlock, OnlyRegs, Wrap, WriteOrTrap, Placed, Signed;
    var a := Signed(Seen(s, rs));
    var x := if a == -0x8000_0000 then None else Some(Wrap(-a));
    NegateRuns(code[k], s, rd, rs);
    LastStep(base, code, k, s, rd, x);
  }

  lemma NegateRuns(i: Inst, s: State, rd: Reg, rs: Reg)
    requires i == RType(SUB, rd, 0, rs) && Signed(Seen(s, rs)) < 0
    ensures var a := Signed(Seen(s, rs));
            && (a != -0x8000_0000 ==> Wrap(-a) == -a)
            && Run1(i, s) == Some(WriteOrTrap(s, rd, if a == -0x8000_0000 then None else Some(Wrap(-a))))
  {
    hide Run1, Raise, Wrap, Signed, Zeroed;
    ZeroedReads(s, rs);
    RunChecked(i, s);
    var a := Signed(Seen(s, rs));
    assert -0x8000_0000 <= a by { SignedFloor(Seen(s, rs)); }
    Unwrapped(if a == -0x8000_0000 then 0 else -a);
  }

  lemma ZeroedReads(s: State, r: Reg)
    ensures Zeroed(s).gpr[r] == Seen(s, r) && Zeroed(s).gpr[0] == 0 && Signed(0) == 0
  {
  }

  lemma SignedFloor(x: Word)
    ensures -0x8000_0000 <= Signed(x)
  {
  }

  /** abs computes the absolute value, and traps on the one number that has none. */
  lemma AbsComputes(base: Word, rd: Reg, rs: Reg, s: State)
    requires s.pc == base && !s.exc && Placed(base, AbsCode(rd, rs))
    ensures var a := Signed(Seen(s, rs));
            var exit := RunBlock(base, AbsCode(rd, rs), 0, s);
            if a == -0x8000_0000 then exit.Raised? && exit.s.cp0[CAUSE] / 4 % 32 == EXC_OV
            else exit.Reached? && exit.s.pc == AddrOf(base, |AbsCode(rd, rs)|) && OnlyRegs(s, exit.s, {rd})
                 && (rd != 0 ==> exit.s.gpr[rd] == if a < 0 then -a else a)
  {
    hide RunBlock, Wrote, Signed;
    var code := AbsCode(rd, rs);
    if rd == rs {
      var exit := RunAbs(base, code, 0, s, rd, rs);
    } else {
      MoveValue(rd, rs, s);
      StepCompute(base, code, 0, s, rd, Seen(s, rs));
      var s1 := Wrote(s, rd, Seen(s, rs));
      var exit := RunAbs(base, code, 1, s1, rd, rs);
      if exit.Reached? {
        OnlyRegsTrans(s, s1, exit.s, {rd}, {rd});
      }
    }
  }

  lemma MoveValue(rd: Reg, rs: Reg, s: State)
    ensures ValueOf(RType(ADDU, rd, 0, rs), s) == Seen(s, rs)
  {
  }
}
