/** Executing the code emitted for a 32-bit immediate. */
module WideImmediates {
  import opened Words
  import opened Bits
  import opened Isa
  import opened Blocks
  import opened Assembler
  import opened Legalise

  /** `s'` differs from `s` at most in PC, in `$0` (cleared before every instruction) and in
      the registers `regs`. */
  ghost predicate OnlyRegs(s: State, s': State, regs: set<Reg>) {
    && s' == s.(gpr := s'.gpr, pc := s'.pc)
    && forall r: Reg | r != 0 && r !in regs :: s'.gpr[r] == s.gpr[r]
  }

  /** What an instruction sees in a register. */
  function Seen(s: State, r: Reg): Word {
    if r == 0 then 0 else s.gpr[r]
  }

  /** The meaning of an immediate instruction with a 32-bit immediate; None is the overflow trap. */
  function WideResult(op: Op, a: Word, v: Word): Option<Word> {
    match op
    case ADDI => if FitsSigned(Signed(a) + Signed(v)) then Some(Wrap(a + v)) else None
    case ADDIU => Some(Wrap(a + v))
    case ANDI => Some(And(a, v))
    case ORI => Some(OrWord(a, v))
    case XORI => Some(XorWord(a, v))
    case SLTI => Some(Flag(Signed(a) < Signed(v)))
    case SLTIU => Some(Flag(a < v))
    case _ => None
  }

  /** The state after an instruction that writes `x` to `rd`, or takes the overflow trap. */
  function WriteOrTrap(s: State, rd: Reg, x: Option<Word>): State {
    Next(match x case Some(w) => Put(Zeroed(s), rd, w) case None => Raise(Zeroed(s), EXC_OV))
  }

  /** An overflow exception at `pc`: EPC (unless EXL was set), the cause code and EXL; nothing else of
      the machine changes but `regs`, `$0` and PC. */
  ghost predicate TrappedAt(s: State, t: State, pc: int, regs: set<Reg>) {
    && t == s.(gpr := t.gpr, pc := t.pc, cp0 := t.cp0, exc := true)
    && (forall r: Reg | r != 0 && r !in regs :: t.gpr[r] == s.gpr[r])
    && t.cp0[CAUSE] / 4 % 32 == EXC_OV && Exl(t.cp0)
    && t.cp0[EPC] == (if Exl(s.cp0) then s.cp0[EPC] else pc)
    && forall r: Reg | r != CAUSE && r != EPC && r != STATUS :: t.cp0[r] == s.cp0[r]
  }

  lemma RaiseTrapsAt(s: State)
    requires s.pc % 4 == 0
    ensures TrappedAt(s, Next(Raise(Zeroed(s), EXC_OV)), s.pc, {})
  {
    hide Wrap;
    var t := Raise(Zeroed(s), EXC_OV);
    ExlSet(s.cp0[STATUS]);
    CodeSet(s.cp0[CAUSE], EXC_OV);
  }

  lemma ExlSet(status: Word)
    ensures status / 2 % 2 == 0 ==> (status + 2) / 2 % 2 == 1
  {
  }

  lemma CodeSet(cause: Word, code: nat)
    requires code < 32
    ensures (cause - cause / 4 % 32 * 4 + code * 4) / 4 % 32 == code
  {
    var q := cause / 4;
    assert cause - q % 32 * 4 + code * 4 == (q / 32 * 32 + code) * 4 + cause % 4;
    assert (cause - q % 32 * 4 + code * 4) / 4 == q / 32 * 32 + code;
  }

  lemma TrapThrough(s: State, s1: State, exit: Exit, pc: int)
    requires OnlyRegs(s, s1, {AT})
    ensures exit.Raised? && TrappedAt(s1, exit.s, pc, {}) ==> TrappedAt(s, exit.s, pc, {AT})
  {
  }

  predicate IsWide(op: Op) {
    op == ADDI || op == ADDIU || op == ANDI || op == ORI || op == XORI || op == SLTI || op == SLTIU
  }

  ghost predicate CodeAt(code: seq<Inst>, k: nat, part: seq<Inst>) {
    k + |part| <= |code| && code[k..k + |part|] == part
  }

  lemma CodeAtIndex(code: seq<Inst>, k: nat, part: seq<Inst>, j: nat)
    requires CodeAt(code, k, part) && j < |part|
    ensures code[k + j] == part[j]
  {
    assert code[k..k + |part|][j] == code[k + j];
  }

  lemma ComputeConst(a: Word, b: Word, imm: Half, shamt: Reg)
    ensures Compute(LUI, a, b, imm, shamt) == imm * 0x1_0000
    ensures a % 0x1_0000 == 0 ==> Compute(ORI, a, b, imm, shamt) == a + imm
  {
    if a % 0x1_0000 == 0 {
      OrHalves(a / 0x1_0000, imm);
    }
  }

  /** The state after an instruction that writes `x` to `rt`. */
  function Wrote(s: State, rt: Reg, x: Word): State {
    Next(Put(Zeroed(s), rt, x))
  }

  lemma WroteOnly(s: State, rt: Reg, x: Word)
    ensures OnlyRegs(s, Wrote(s, rt, x), {rt}) && Wrote(s, rt, x).gpr[rt] == x
  {
    hide Wrap;
  }

  lemma ConstFamily(op: Op)
    requires op == LUI || op == ORI
    ensures FamilyOf(op) == Computing && WritesRt(op)
  {
  }

  /** One `lui`, or `ori` from a register whose low half is zero: the register gets `x`. */
  lemma RunOneConst(base: Word, code: seq<Inst>, k: nat, s: State, x: Word)
    requires Placed(base, code) && k < |code| && s.pc == AddrOf(base, k) && !s.exc
    requires var i := code[k];
             || (i.op == LUI && x == i.imm * 0x1_0000)
             || (i.op == ORI && Seen(s, i.rs) % 0x1_0000 == 0 && x == Seen(s, i.rs) + i.imm)
    ensures Wrote(s, code[k].rt, x).pc == AddrOf(base, k + 1)
    ensures RunBlock(base, code, k, s) == RunBlock(base, code, k + 1, Wrote(s, code[k].rt, x))
  {
    hide Run1, RunBlock, Compute, Wrap, FamilyOf, WritesRt;
    var i := code[k];
    ConstFamily(i.op);
    RunCompute(i, s);
    ComputeConst(Seen(s, i.rs), Seen(s, i.rt), i.imm, i.shamt);
    StepTo(base, code, k, s, k + 1, Wrote(s, i.rt, x));
  }

  /** Running `LoadConst` puts the constant in its register, changing at most `$at` besides. */
  lemma RunLoadConst(base: Word, code: seq<Inst>, k: nat, s: State, rt: Reg, v: Word) returns (s': State)
    requires Placed(base, code) && CodeAt(code, k, LoadConst(rt, v)) && s.pc == AddrOf(base, k) && !s.exc
    ensures s'.pc == AddrOf(base, k + |LoadConst(rt, v)|)
    ensures OnlyRegs(s, s', {AT, rt}) && s'.gpr[rt] == v
    ensures RunBlock(base, code, k, s) == RunBlock(base, code, k + |LoadConst(rt, v)|, s')
  {
    hide RunBlock, Wrote;
    CodeAtIndex(code, k, LoadConst(rt, v), 0);
    if v % 0x1_0000 == 0 || v < 0x1_0000 {
      s' := Wrote(s, rt, v);
      RunOneConst(base, code, k, s, v);
      WroteOnly(s, rt, v);
    } else {
      CodeAtIndex(code, k, LoadConst(rt, v), 1);
      s' := RunTwoConsts(base, code, k, s, rt, v);
    }
  }

  lemma RunTwoConsts(base: Word, code: seq<Inst>, k: nat, s: State, rt: Reg, v: Word) returns (s': State)
    requires Placed(base, code) && k + 2 <= |code| && s.pc == AddrOf(base, k) && !s.exc
    requires code[k] == IType(LUI, AT, 0, v / 0x1_0000) && code[k + 1] == IType(ORI, rt, AT, v % 0x1_0000)
    ensures s'.pc == AddrOf(base, k + 2) && OnlyRegs(s, s', {AT, rt}) && s'.gpr[rt] == v
    ensures RunBlock(base, code, k, s) == RunBlock(base, code, k + 2, s')
  {
    hide RunBlock, Wrote;
    var high := v / 0x1_0000 * 0x1_0000;
    var s1 := Wrote(s, AT, high);
    RunOneConst(base, code, k, s, high);
    WroteOnly(s, AT, high);
    s' := Wrote(s1, rt, v);
    RunOneConst(base, code, k + 1, s1, v);
    WroteOnly(s1, rt, v);
  }

  lemma SignExRestores(b: Word)
    requires b < 0x8000 || b >= 0xffff_8000
    ensures SignEx(b % 0x1_0000) == b
  {
  }

  lemma WideValueImmediate(op: Op, a: Word, b: Word, c: Word, imm: Half, shamt: Reg)
    requires IsWide(op) && op != ADDI && b == (if SignExtends(op) then SignEx(imm) else imm)
    ensures WideResult(op, a, b) == Some(Compute(op, a, c, imm, shamt))
  {
    hide And, OrWord, XorWord, Signed, Wrap, SignEx;
  }

  lemma FitsRestores(op: Op, b: Word)
    requires IsWide(op) && Fits(op, Full, b)
    ensures b == if SignExtends(op) then SignEx(b % 0x1_0000) else b % 0x1_0000
  {
    if SignExtends(op) {
      SignExRestores(b);
    }
  }

  lemma WideValueRegister(op: Op, iop: Op, a: Word, b: Word, imm: Half, shamt: Reg)
    requires IsWide(op) && op != ADDI && RegisterForm(op) == Some(iop)
    ensures WideResult(op, a, b) == Some(Compute(iop, a, b, imm, shamt))
  {
    hide And, OrWord, XorWord, Signed, Wrap, Shl, Shr, Sar, SignEx, Not, Flag, WrapSub, BitLength;
    RegisterValues(a, b, imm, shamt);
    hide Compute;
  }

  lemma RegisterValues(a: Word, b: Word, imm: Half, shamt: Reg)
    ensures Compute(ADDU, a, b, imm, shamt) == Wrap(a + b)
    ensures Compute(AND, a, b, imm, shamt) == And(a, b)
    ensures Compute(OR, a, b, imm, shamt) == OrWord(a, b)
    ensures Compute(XOR, a, b, imm, shamt) == XorWord(a, b)
    ensures Compute(SLT, a, b, imm, shamt) == Flag(Signed(a) < Signed(b))
    ensures Compute(SLTU, a, b, imm, shamt) == Flag(a < b)
  {
    hide And, OrWord, XorWord, Signed, Wrap, Flag, Compute;
    LogicalValues(a, b, imm, shamt);
    OrderValues(a, b, imm, shamt);
  }

  lemma LogicalValues(a: Word, b: Word, imm: Half, shamt: Reg)
    ensures Compute(AND, a, b, imm, shamt) == And(a, b)
    ensures Compute(OR, a, b, imm, shamt) == OrWord(a, b)
    ensures Compute(XOR, a, b, imm, shamt) == XorWord(a, b)
  {
    hide And, OrWord, XorWord, Signed, Wrap, Flag, Shl, Shr, Sar, SignEx, Not, WrapSub, BitLength;
  }

  lemma OrderValues(a: Word, b: Word, imm: Half, shamt: Reg)
    ensures Compute(ADDU, a, b, imm, shamt) == Wrap(a + b)
    ensures Compute(SLT, a, b, imm, shamt) == Flag(Signed(a) < Signed(b))
    ensures Compute(SLTU, a, b, imm, shamt) == Flag(a < b)
  {
    hide And, OrWord, XorWord, Signed, Wrap, Flag, Shl, Shr, Sar, SignEx, Not, WrapSub, BitLength;
  }

  lemma WideSum(i: Inst, a: Word, b: Word, c: Word)
    requires (i.op == ADDI && i.imm == b % 0x1_0000 && Fits(ADDI, Full, b)) || (i.op == ADD && c == b)
    ensures ExactSum(i, a, c) == Signed(a) + Signed(b)
    ensures Wrap(ExactSum(i, a, c)) == Wrap(a + b)
  {
    if i.op == ADDI {
      SignExRestores(b);
    }
  }

  lemma ImmediateComputes(op: Op)
    requires IsWide(op) && op != ADDI
    ensures FamilyOf(op) == Computing && WritesRt(op)
  {
    hide FamilyOf, WritesRt;
    ImmediateFamilies();
    ImmediatesWriteRt();
    LogicalsWriteRt();
  }

  lemma ImmediateFamilies()
    ensures FamilyOf(ADDIU) == Computing && FamilyOf(ANDI) == Computing && FamilyOf(ORI) == Computing
    ensures FamilyOf(XORI) == Computing && FamilyOf(SLTI) == Computing && FamilyOf(SLTIU) == Computing
  {
    hide FamilyOf;
    assert FamilyOf(ADDIU) == Computing && FamilyOf(ANDI) == Computing && FamilyOf(ORI) == Computing by { SumImmFamilies(); }
    assert FamilyOf(XORI) == Computing && FamilyOf(SLTI) == Computing && FamilyOf(SLTIU) == Computing by { OrderImmFamilies(); }
  }

  lemma SumImmFamilies()
    ensures FamilyOf(ADDIU) == Computing && FamilyOf(ANDI) == Computing && FamilyOf(ORI) == Computing
  {
  }

  lemma OrderImmFamilies()
    ensures FamilyOf(XORI) == Computing && FamilyOf(SLTI) == Computing && FamilyOf(SLTIU) == Computing
  {
  }

  lemma ImmediatesWriteRt()
    ensures WritesRt(ADDIU) && WritesRt(SLTI) && WritesRt(SLTIU)
  {
  }

  lemma LogicalsWriteRt()
    ensures WritesRt(ANDI) && WritesRt(ORI) && WritesRt(XORI)
  {
  }

  lemma RegisterFamilies()
    ensures FamilyOf(ADDU) == Computing && FamilyOf(AND) == Computing && FamilyOf(OR) == Computing
    ensures FamilyOf(XOR) == Computing && FamilyOf(SLT) == Computing && FamilyOf(SLTU) == Computing
  {
    hide FamilyOf;
    assert FamilyOf(ADDU) == Computing && FamilyOf(AND) == Computing && FamilyOf(OR) == Computing by { SumFamilies(); }
    assert FamilyOf(XOR) == Computing && FamilyOf(SLT) == Computing && FamilyOf(SLTU) == Computing by { OrderFamilies(); }
  }

  lemma SumFamilies()
    ensures FamilyOf(ADDU) == Computing && FamilyOf(AND) == Computing && FamilyOf(OR) == Computing
  {
  }

  lemma OrderFamilies()
    ensures FamilyOf(XOR) == Computing && FamilyOf(SLT) == Computing && FamilyOf(SLTU) == Computing
  {
  }

  lemma RegistersWriteRd()
    ensures !WritesRt(ADDU) && !WritesRt(AND) && !WritesRt(OR) && !WritesRt(XOR) && !WritesRt(SLT) && !WritesRt(SLTU)
  {
  }

  lemma RegisterComputes(op: Op, iop: Op)
    requires IsWide(op) && op != ADDI && RegisterForm(op) == Some(iop)
    ensures FamilyOf(iop) == Computing && !WritesRt(iop) && iop != op
  {
    hide FamilyOf, WritesRt;
    RegisterFamilies();
    RegistersWriteRd();
  }

  /** The last instruction of a wide operation: register form against `$at`, or the immediate
      form itself. `b` is the value of its second operand. */
  lemma RunWideLast(op: Op, i: Inst, s: State, a: Word, b: Word)
    requires IsWide(op)
    requires (i.op == op && i.imm == b % 0x1_0000 && Fits(op, Full, b)) || (RegisterForm(op) == Some(i.op) && Seen(s, i.rt) == b)
    requires Seen(s, i.rs) == a
    ensures var rd := if i.op == op then i.rt else i.rd;
            Run1(i, s) == Some(WriteOrTrap(s, rd, WideResult(op, a, b)))
  {
    hide Run1, Raise, ExactSum, Fits, Wrap, Signed, WriteOrTrap;
    if op == ADDI {
      RunWideAdd(i, s, a, b);
    } else if i.op == op {
      RunWideImmediate(op, i, s, a, b);
    } else {
      RegisterComputes(op, i.op);
      RunWideRegister(op, i, s, a, b);
    }
  }

  lemma RunWideAdd(i: Inst, s: State, a: Word, b: Word)
    requires (i.op == ADDI && i.imm == b % 0x1_0000 && Fits(ADDI, Full, b))
             || (RegisterForm(ADDI) == Some(i.op) && Seen(s, i.rt) == b)
    requires Seen(s, i.rs) == a
    ensures Run1(i, s) == Some(WriteOrTrap(s, if i.op == ADDI then i.rt else i.rd, WideResult(ADDI, a, b)))
  {
    hide Run1, Raise, ExactSum, Fits, Wrap, Signed;
    RunChecked(i, s);
    WideSum(i, a, b, Seen(s, i.rt));
  }

  lemma RunWideImmediate(op: Op, i: Inst, s: State, a: Word, b: Word)
    requires IsWide(op) && op != ADDI && i.op == op && i.imm == b % 0x1_0000 && Fits(op, Full, b) && Seen(s, i.rs) == a
    ensures Run1(i, s) == Some(WriteOrTrap(s, i.rt, WideResult(op, a, b)))
  {
    hide Run1, Raise, Compute, Fits, Wrap, FamilyOf, WritesRt, WideResult, IsWide, SignExtends;
    ImmediateComputes(op);
    RunCompute(i, s);
    FitsRestores(op, b);
    WideValueImmediate(op, a, b, Seen(s, i.rt), i.imm, i.shamt);
  }

  lemma RunWideRegister(op: Op, i: Inst, s: State, a: Word, b: Word)
    requires IsWide(op) && op != ADDI && RegisterForm(op) == Some(i.op) && Seen(s, i.rt) == b && Seen(s, i.rs) == a
    ensures Run1(i, s) == Some(WriteOrTrap(s, i.rd, WideResult(op, a, b)))
  {
    hide Run1, Raise, Compute, Wrap, FamilyOf, WritesRt, WideResult, IsWide, RegisterForm;
    RegisterComputes(op, i.op);
    RunCompute(i, s);
    WideValueRegister(op, i.op, a, b, i.imm, i.shamt);
  }

  /** How a block that computes `op rt, rs, v` must end. */
  ghost predicate WideOutcome(exit: Exit, base: Word, n: nat, op: Op, rt: Reg, rs: Reg, v: Word, s: State) {
    match WideResult(op, Seen(s, rs), v)
    case Some(x) =>
      && exit.Reached?
      && exit.s.pc == AddrOf(base, n)
      && OnlyRegs(s, exit.s, {AT, rt})
      && (rt != 0 ==> exit.s.gpr[rt] == x)
      && (rt != AT && Fits(op, Full, v) ==> exit.s.gpr[AT] == s.gpr[AT])
    case None =>
      exit.Raised? && TrappedAt(s, exit.s, base + 4 * n - 4, {AT})
  }

  lemma WideUnsplit(base: Word, code: seq<Inst>, op: Op, rt: Reg, rs: Reg, v: Word, s: State)
    requires IsWide(op) && s.pc == base && !s.exc && Fits(op, Full, v)
    requires code == [IType(op, rt, rs, v % 0x1_0000)] && Placed(base, code)
    ensures WideOutcome(RunBlock(base, code, 0, s), base, 1, op, rt, rs, v, s)
  {
    hide Run1, Raise, Fits, WideResult, RunBlock, Exl;
    RunWideLast(op, code[0], s, Seen(s, rs), v);
    LastStep(base, code, 0, s, rt, WideResult(op, Seen(s, rs), v));
  }

  lemma WideFromZero(base: Word, code: seq<Inst>, op: Op, rt: Reg, v: Word, s: State)
    requires (op == ORI || op == ADDI || op == ADDIU) && s.pc == base && !s.exc && !Fits(op, Full, v)
    requires code == LoadConst(rt, v) && Placed(base, code)
    ensures WideOutcome(RunBlock(base, code, 0, s), base, |code|, op, rt, 0, v, s)
  {
    hide Run1, Fits, WideResult;
    var s' := RunLoadConst(base, code, 0, s, rt, v);
    ZeroSource(op, v);
  }

  lemma WideThroughAt(base: Word, code: seq<Inst>, op: Op, rop: Op, rt: Reg, rs: Reg, v: Word, s: State)
    requires IsWide(op) && s.pc == base && !s.exc && rs != AT && RegisterForm(op) == Some(rop) && rop != op && !Fits(op, Full, v)
    requires code == LoadConst(AT, v) + [RType(rop, rt, rs, AT)] && Placed(base, code)
    ensures WideOutcome(RunBlock(base, code, 0, s), base, |code|, op, rt, rs, v, s)
  {
    hide Run1, Raise, Fits, WideResult, RunBlock, RegisterForm, LoadConst, IsWide, Wrap, TrappedAt;
    assert CodeAt(code, 0, LoadConst(AT, v));
    var s1 := RunLoadConst(base, code, 0, s, AT, v);
    var k, x := |LoadConst(AT, v)|, WideResult(op, Seen(s, rs), v);
    RunWideLast(op, code[k], s1, Seen(s, rs), v);
    LastStep(base, code, k, s1, rt, x);
    TrapThrough(s, s1, RunBlock(base, code, k, s1), AddrOf(base, k));
  }

  /** What the instructions mean on 32-bit operands: exact or modular sums, comparisons, and bits. */
  ghost predicate WideMeans(op: Op, a: Word, v: Word, r: Word) {
    && (op == ADDI ==> Signed(r) == Signed(a) + Signed(v))
    && (op == ADDIU ==> (r - a - v) % TWO32 == 0)
    && (op == SLTI ==> r == if Signed(a) < Signed(v) then 1 else 0)
    && (op == SLTIU ==> r == if a < v then 1 else 0)
    && (op == ANDI ==> forall n: nat :: Bit(r, n) <==> Bit(a, n) && Bit(v, n))
    && (op == ORI ==> forall n: nat :: Bit(r, n) <==> Bit(a, n) || Bit(v, n))
    && (op == XORI ==> forall n: nat :: Bit(r, n) <==> Bit(a, n) != Bit(v, n))
  }

  /** There is no result exactly when `addi` overflows. */
  lemma WideResultMeans(op: Op, a: Word, v: Word)
    requires IsWide(op)
    ensures WideResult(op, a, v).None? <==> op == ADDI && !(-0x8000_0000 <= Signed(a) + Signed(v) <= 0x7fff_ffff)
    ensures WideResult(op, a, v).Some? ==> WideMeans(op, a, v, WideResult(op, a, v).value)
  {
    hide Bit, And, OrWord, XorWord;
    AndMeans(a, v);
    OrMeans(a, v);
    XorMeans(a, v);
    SumMeans(a, v);
    hide Wrap, Signed;
  }

  lemma SumMeans(a: Word, v: Word)
    ensures (Wrap(a + v) - a - v) % TWO32 == 0
    ensures FitsSigned(Signed(a) + Signed(v)) ==> Signed(Wrap(a + v)) == Signed(a) + Signed(v)
  {
  }

  /** For each of addi, addiu, andi, ori, xori, slti and sltiu and every 32-bit immediate: the
      emitted code computes `rs op v` into `rt` and falls through, or raises the overflow trap
      of `addi`, touching nothing else but `$at`. */
  lemma WideImmediateComputes(base: Word, op: Op, rt: Reg, rs: Reg, v: Word, s: State)
    requires IsWide(op) && s.pc == base && !s.exc && Placed(base, Legal(op, rt, rs, v))
    requires rs != AT || Fits(op, Full, v)
    ensures var exit := RunBlock(base, Legal(op, rt, rs, v), 0, s);
            && (exit.Reached? && rt != 0 ==> WideMeans(op, Seen(s, rs), v, exit.s.gpr[rt]))
            && (exit.Raised? <==> op == ADDI && !(-0x8000_0000 <= Signed(Seen(s, rs)) + Signed(v) <= 0x7fff_ffff))
    ensures WideOutcome(RunBlock(base, Legal(op, rt, rs, v), 0, s), base, |Legal(op, rt, rs, v)|, op, rt, rs, v, s)
  {
    hide WideMeans, WideResult, Signed, RunBlock, IsWide, Legal, Fits;
    WideResultMeans(op, Seen(s, rs), v);
    WideExecutes(base, op, rt, rs, v, s);
  }

  lemma WideExecutes(base: Word, op: Op, rt: Reg, rs: Reg, v: Word, s: State)
    requires IsWide(op) && s.pc == base && !s.exc && Placed(base, Legal(op, rt, rs, v))
    requires rs != AT || Fits(op, Full, v)
    ensures WideOutcome(RunBlock(base, Legal(op, rt, rs, v), 0, s), base, |Legal(op, rt, rs, v)|, op, rt, rs, v, s)
  {
    hide WideOutcome, RunBlock, Fits, LoadConst, IsMem, RegisterForm;
    var code := Legal(op, rt, rs, v);
    WideIsComputing(op);
    if Fits(op, Full, v) {
      WideUnsplit(base, code, op, rt, rs, v, s);
    } else if rs == 0 && (op == ORI || op == ADDI || op == ADDIU) {
      WideFromZero(base, code, op, rt, v, s);
    } else {
      WideThroughAt(base, code, op, RegisterForm(op).value, rt, rs, v, s);
    }
  }

  lemma WideIsComputing(op: Op)
    requires IsWide(op)
    ensures !IsMem(op) && op != LUI && RegisterForm(op).Some? && RegisterForm(op).value != op
  {
    hide FamilyOf, RegisterForm;
    WideHasRegisterForm(op);
    if op == ADDI {
      AddiFamily();
    } else {
      ImmediateFamilies();
    }
  }

  lemma WideHasRegisterForm(op: Op)
    requires IsWide(op)
    ensures RegisterForm(op).Some? && RegisterForm(op).value != op
  {
  }

  lemma AddiFamily()
    ensures FamilyOf(ADDI) == Other
  {
  }

  lemma ZeroSource(op: Op, v: Word)
    requires op == ORI || op == ADDI || op == ADDIU
    ensures WideResult(op, 0, v) == Some(v)
  {
  }

  /** The last instruction of a block writes `x` to `rd` or traps. */
  lemma LastStep(base: Word, code: seq<Inst>, k: nat, s: State, rd: Reg, x: Option<Word>)
    requires Placed(base, code) && k + 1 == |code| && s.pc == AddrOf(base, k) && !s.exc
    requires Run1(code[k], s) == Some(WriteOrTrap(s, rd, x))
    ensures var exit := RunBlock(base, code, k, s);
            match x
            case Some(w) => && exit.Reached? && exit.s.pc == AddrOf(base, |code|)
                            && OnlyRegs(s, exit.s, {rd}) && exit.s.gpr[rd] == w
            case None => exit.Raised? && TrappedAt(s, exit.s, AddrOf(base, k), {})
  {
    hide Run1, Wrap;
    if x.Some? {
      StepTo(base, code, k, s, k + 1, Run1(code[k], s).value);
    } else {
      RaiseTrapsAt(s);
    }
  }
}
