/** What the instructions compute, said without the functions that execute them: bit by bit, as
    congruences modulo 2^32 and as comparisons of signed and unsigned values. */
module InstructionMeaning {
  import opened Words
  import opened Multiply
  import opened Isa
  import opened Bits
  import opened Blocks
  import opened WideImmediates

  // ----- computing instructions -----

  predicate IsSum(op: Op) {
    op == ADDU || op == ADDIU || op == SUBU
  }

  predicate IsComparison(op: Op) {
    op == SLT || op == SLTU || op == SLTI || op == SLTIU
  }

  predicate IsLogical(op: Op) {
    op == AND || op == OR || op == XOR || op == NOR || op == ANDI || op == ORI || op == XORI || op == LUI
  }

  predicate IsCount(op: Op) {
    op == CLZ || op == CLO
  }

  predicate IsShift(op: Op) {
    op == SLL || op == SLLV || op == SRL || op == SRLV || op == SRA || op == SRAV
  }

  predicate IsComputing(op: Op) {
    IsSum(op) || IsComparison(op) || IsLogical(op) || IsCount(op) || IsShift(op)
  }

  function SignedHalf(imm: Half): int {
    if Bit(imm, 15) then imm - 0x1_0000 else imm
  }

  /** `r` is what `op` computes from its operands. */
  ghost predicate Computed(op: Op, rs: Word, rt: Word, imm: Half, shamt: Reg, r: Word) {
    && (IsSum(op) ==> Summed(op, rs, rt, imm, r))
    && (IsComparison(op) ==> Compared(op, rs, rt, imm, r))
    && (IsLogical(op) ==> Combined(op, rs, rt, imm, r))
    && (IsCount(op) ==> Leading(rs, op == CLO, r))
    && (IsShift(op) ==> Shifted(op, rs, rt, shamt, r))
  }

  ghost predicate Summed(op: Op, rs: Word, rt: Word, imm: Half, r: Word) {
    match op
    case ADDU => (r - rs - rt) % 0x1_0000_0000 == 0
    case ADDIU => (r - rs - SignedHalf(imm)) % 0x1_0000_0000 == 0
    case SUBU => (r + rt - rs) % 0x1_0000_0000 == 0
    case _ => false
  }

  ghost predicate Compared(op: Op, rs: Word, rt: Word, imm: Half, r: Word) {
    match op
    case SLT => r == if Signed(rs) < Signed(rt) then 1 else 0
    case SLTU => r == if rs < rt then 1 else 0
    case SLTI => r == if Signed(rs) < SignedHalf(imm) then 1 else 0
    case SLTIU => r == if rs < SignedHalf(imm) % 0x1_0000_0000 then 1 else 0
    case _ => false
  }

  /** The logical immediates are zero-extended: `imm` is a number without bits above 15. */
  ghost predicate Combined(op: Op, rs: Word, rt: Word, imm: Half, r: Word) {
    match op
    case AND => forall n: nat :: Bit(r, n) <==> Bit(rs, n) && Bit(rt, n)
    case ANDI => forall n: nat :: Bit(r, n) <==> Bit(rs, n) && Bit(imm, n)
    case OR => forall n: nat :: Bit(r, n) <==> Bit(rs, n) || Bit(rt, n)
    case ORI => forall n: nat :: Bit(r, n) <==> Bit(rs, n) || Bit(imm, n)
    case XOR => forall n: nat :: Bit(r, n) <==> Bit(rs, n) != Bit(rt, n)
    case XORI => forall n: nat :: Bit(r, n) <==> Bit(rs, n) != Bit(imm, n)
    case NOR => forall n: nat :: Bit(r, n) <==> n < 32 && !Bit(rs, n) && !Bit(rt, n)
    case LUI => forall n: nat :: Bit(r, n) <==> 16 <= n < 32 && Bit(imm, n - 16)
    case _ => false
  }

  ghost predicate ShiftedLeft(x: Word, k: Reg, r: Word) {
    forall n: nat :: Bit(r, n) <==> k <= n < 32 && Bit(x, n - k)
  }

  ghost predicate Shifted(op: Op, rs: Word, rt: Word, shamt: Reg, r: Word) {
    var k: Reg := if op == SLLV || op == SRLV || op == SRAV then rs % 32 else shamt;
    if op == SLL || op == SLLV then ShiftedLeft(rt, k, r) else ShiftedRight(rt, k, op == SRA || op == SRAV, r)
  }

  /** Arithmetic shifts fill with the sign, logical ones with zeros. */
  ghost predicate ShiftedRight(x: Word, k: Reg, arithmetic: bool, r: Word) {
    forall n: nat :: Bit(r, n) <==> n < 32 && if n + k < 32 then Bit(x, n + k) else arithmetic && Bit(x, 31)
  }

  /** The top `r` bits of `x` are all `value`, and the next one is not. */
  ghost predicate Leading(x: Word, value: bool, r: Word) {
    && r <= 32
    && (forall n: nat | 32 - r <= n < 32 :: Bit(x, n) == value)
    && (r < 32 ==> Bit(x, 31 - r) != value)
  }

  lemma HalfSign(imm: Half)
    ensures SignedHalf(imm) == (if imm < 0x8000 then imm else imm - 0x1_0000)
    ensures Signed(SignEx(imm)) == SignedHalf(imm) && SignEx(imm) == SignedHalf(imm) % 0x1_0000_0000
  {
    hide Bit;
    var high, low := imm / 0x8000, imm % 0x8000;
    Fifteen();
    ScaleIsProduct(high, 15);
    JoinedBit(high, low, 15, 15);
    NextBit(high, 0);
  }

  lemma Fifteen()
    ensures Pow2(15) == 0x8000
  {
    Pow2Values();
    assert Pow2(16) == 2 * Pow2(15);
  }

  lemma SumsMean(op: Op, rs: Word, rt: Word, imm: Half, shamt: Reg)
    requires IsSum(op)
    ensures Summed(op, rs, rt, imm, Compute(op, rs, rt, imm, shamt))
  {
    hide SignEx, SignedHalf, Wrap;
    HalfSign(imm);
    WrapCongruent(rs + rt);
    WrapCongruent(rs - rt);
    WrapCongruent(rs + SignedHalf(imm));
    WrapAgain(rs, SignedHalf(imm));
  }

  lemma WrapCongruent(x: int)
    ensures (Wrap(x) - x) % 0x1_0000_0000 == 0
  {
  }

  lemma WrapAgain(a: int, x: int)
    ensures Wrap(a + x % 0x1_0000_0000) == Wrap(a + x)
  {
  }

  lemma ComparesMean(op: Op, rs: Word, rt: Word, imm: Half, shamt: Reg)
    requires IsComparison(op)
    ensures Compared(op, rs, rt, imm, Compute(op, rs, rt, imm, shamt))
  {
    hide Compared, Compute;
    if op == SLT || op == SLTU {
      RegistersCompare(op, rs, rt, imm, shamt);
    } else {
      ImmediatesCompare(op, rs, rt, imm, shamt);
    }
  }

  lemma RegistersCompare(op: Op, rs: Word, rt: Word, imm: Half, shamt: Reg)
    requires op == SLT || op == SLTU
    ensures Compared(op, rs, rt, imm, Compute(op, rs, rt, imm, shamt))
  {
    hide SignEx, SignedHalf, Signed;
  }

  lemma ImmediatesCompare(op: Op, rs: Word, rt: Word, imm: Half, shamt: Reg)
    requires op == SLTI || op == SLTIU
    ensures Compared(op, rs, rt, imm, Compute(op, rs, rt, imm, shamt))
  {
    hide SignEx, SignedHalf, Signed;
    HalfSign(imm);
  }

  lemma RegistersCombine(op: Op, rs: Word, rt: Word, imm: Half, shamt: Reg)
    requires op == AND || op == OR || op == XOR || op == NOR
    ensures Combined(op, rs, rt, imm, Compute(op, rs, rt, imm, shamt))
  {
    hide Bit, And, OrWord, XorWord, Not;
    AndMeans(rs, rt);
    OrMeans(rs, rt);
    XorMeans(rs, rt);
    NotMeans(OrWord(rs, rt));
  }

  lemma AndiMeans(rs: Word, rt: Word, imm: Half, shamt: Reg)
    ensures Combined(ANDI, rs, rt, imm, Compute(ANDI, rs, rt, imm, shamt))
  {
    hide Bit, And;
    AndMeans(rs, imm);
  }

  lemma OriMeans(rs: Word, rt: Word, imm: Half, shamt: Reg)
    ensures Combined(ORI, rs, rt, imm, Compute(ORI, rs, rt, imm, shamt))
  {
    hide Bit, OrWord;
    OrMeans(rs, imm);
  }

  lemma XoriMeans(rs: Word, rt: Word, imm: Half, shamt: Reg)
    ensures Combined(XORI, rs, rt, imm, Compute(XORI, rs, rt, imm, shamt))
  {
    hide Bit, XorWord;
    XorMeans(rs, imm);
  }

  lemma LuiMeans(rs: Word, rt: Word, imm: Half, shamt: Reg)
    ensures Combined(LUI, rs, rt, imm, Compute(LUI, rs, rt, imm, shamt))
  {
    hide Bit;
    forall n: nat ensures Bit(imm * 0x1_0000, n) <==> 16 <= n < 32 && Bit(imm, n - 16) {
      UpperHalfBit(imm, n);
    }
  }

  lemma UpperHalfBit(imm: Half, n: nat)
    ensures Bit(imm * 0x1_0000, n) <==> 16 <= n < 32 && Bit(imm, n - 16)
  {
    hide Bit;
    Pow2Values();
    ScaleIsProduct(imm, 16);
    JoinedBit(imm, 0, 16, n);
    if n < 16 {
      ZeroHasNoBit(n);
    } else if n >= 32 {
      HalfBits(imm, n - 16);
    }
  }

  lemma ShiftsMean(x: Word, k: Reg)
    ensures ShiftedLeft(x, k, Shl(x, k)) && ShiftedRight(x, k, false, Shr(x, k)) && ShiftedRight(x, k, true, Sar(x, k))
  {
    hide Bit, Shl, Shr, Sar;
    forall n: nat ensures Bit(Shl(x, k), n) <==> k <= n < 32 && Bit(x, n - k)
                  ensures Bit(Shr(x, k), n) <==> n < 32 && n + k < 32 && Bit(x, n + k)
                  ensures Bit(Sar(x, k), n) <==> n < 32 && Bit(x, if n + k < 31 then n + k else 31)
    {
      ShlBit(x, k, n);
      ShrBit(x, k, n);
      SarBit(x, k, n);
      if n + k >= 32 {
        WordBits(x, n + k);
      }
    }
  }

  lemma LeadingMeans(x: Word)
    ensures Leading(x, false, Wrap(32 - BitLength(x))) && Leading(x, true, Wrap(32 - BitLength(Not(x))))
  {
    hide Bit, BitLength, Not;
    LeadingZeros(x);
    LeadingZeros(Not(x));
    forall n: nat | n < 32 ensures Bit(Not(x), n) == !Bit(x, n) {
      NotBit(x, n);
    }
  }

  lemma LeadingZeros(x: Word)
    ensures 0 <= 32 - BitLength(x) <= 32 && Leading(x, false, 32 - BitLength(x))
  {
    hide Bit, BitLength;
    Pow2Values();
    LengthBound(x, 32);
    forall n: nat | BitLength(x) <= n + 1 ensures Bit(x, n) <==> n + 1 == BitLength(x) {
      TopBit(x, n);
    }
  }

  lemma ShiftsCompute(op: Op, rs: Word, rt: Word, imm: Half, shamt: Reg)
    requires IsShift(op)
    ensures Shifted(op, rs, rt, shamt, Compute(op, rs, rt, imm, shamt))
  {
    hide Shl, Shr, Sar, ShiftedLeft, ShiftedRight;
    ShiftsMean(rt, shamt);
    ShiftsMean(rt, rs % 32);
  }

  lemma CountsCompute(op: Op, rs: Word, rt: Word, imm: Half, shamt: Reg)
    requires IsCount(op)
    ensures Leading(rs, op == CLO, Compute(op, rs, rt, imm, shamt))
  {
    hide Wrap, BitLength, Not, Leading;
    LeadingMeans(rs);
  }

  lemma LogicalsCompute(op: Op, rs: Word, rt: Word, imm: Half, shamt: Reg)
    requires IsLogical(op)
    ensures Combined(op, rs, rt, imm, Compute(op, rs, rt, imm, shamt))
  {
    hide Compute, Combined;
    if op == LUI {
      LuiMeans(rs, rt, imm, shamt);
    } else if op == ANDI {
      AndiMeans(rs, rt, imm, shamt);
    } else if op == ORI {
      OriMeans(rs, rt, imm, shamt);
    } else if op == XORI {
      XoriMeans(rs, rt, imm, shamt);
    } else {
      RegistersCombine(op, rs, rt, imm, shamt);
    }
  }

  /** Every computing instruction computes what its name says. */
  lemma ComputeMeans(op: Op, rs: Word, rt: Word, imm: Half, shamt: Reg)
    requires IsComputing(op)
    ensures Computed(op, rs, rt, imm, shamt, Compute(op, rs, rt, imm, shamt))
  {
    hide Compute, Summed, Compared, Combined, Shifted, Leading, IsSum, IsComparison, IsLogical, IsCount, IsShift;
    if IsSum(op) {
      SumsMean(op, rs, rt, imm, shamt);
    }
    if IsComparison(op) {
      ComparesMean(op, rs, rt, imm, shamt);
    }
    if IsLogical(op) {
      LogicalsCompute(op, rs, rt, imm, shamt);
    }
    if IsCount(op) {
      CountsCompute(op, rs, rt, imm, shamt);
    }
    if IsShift(op) {
      ShiftsCompute(op, rs, rt, imm, shamt);
    }
  }

  predicate IsImmediate(op: Op) {
    op == ADDIU || op == ANDI || op == LUI || op == ORI || op == SLTI || op == SLTIU || op == XORI
  }

  lemma ComparisonRows(op: Op)
    requires IsComparison(op)
    ensures FamilyOf(op) == Computing && (WritesRt(op) <==> IsImmediate(op))
  {
  }

  lemma SumRows(op: Op)
    requires IsSum(op)
    ensures FamilyOf(op) == Computing && (WritesRt(op) <==> IsImmediate(op))
  {
  }

  lemma RegisterLogicalRows(op: Op)
    requires op == AND || op == OR || op == XOR || op == NOR
    ensures FamilyOf(op) == Computing && (WritesRt(op) <==> IsImmediate(op))
  {
  }

  lemma ImmediateLogicalRows(op: Op)
    requires op == ANDI || op == ORI || op == XORI || op == LUI
    ensures FamilyOf(op) == Computing && (WritesRt(op) <==> IsImmediate(op))
  {
  }

  lemma CountRows(op: Op)
    requires IsCount(op)
    ensures FamilyOf(op) == Computing && (WritesRt(op) <==> IsImmediate(op))
  {
  }

  lemma ShiftRows(op: Op)
    requires IsShift(op)
    ensures FamilyOf(op) == Computing && (WritesRt(op) <==> IsImmediate(op))
  {
  }

  lemma ComputingRows(op: Op)
    requires IsComputing(op)
    ensures FamilyOf(op) == Computing && (WritesRt(op) <==> IsImmediate(op))
  {
    hide FamilyOf, WritesRt, IsImmediate, IsSum, IsComparison, IsShift, IsCount;
    if IsSum(op) {
      SumRows(op);
    } else if IsComparison(op) {
      ComparisonRows(op);
    } else if IsShift(op) {
      ShiftRows(op);
    } else if IsCount(op) {
      CountRows(op);
    } else if op == AND || op == OR || op == XOR || op == NOR {
      RegisterLogicalRows(op);
    } else {
      ImmediateLogicalRows(op);
    }
  }

  /** Executing one writes that value to `rt` in the immediate forms and to `rd` in the others, and
      changes nothing else. */
  lemma ComputingRuns(i: Inst, s: State) returns (r: Word)
    requires IsComputing(i.op)
    ensures Computed(i.op, Seen(s, i.rs), Seen(s, i.rt), i.imm, i.shamt, r)
    ensures Run1(i, s) == Some(Wrote(s, if IsImmediate(i.op) then i.rt else i.rd, r))
  {
    hide Run1, Compute, Computed, FamilyOf, WritesRt, IsComputing, IsImmediate, Wrap;
    r := Compute(i.op, Seen(s, i.rs), Seen(s, i.rt), i.imm, i.shamt);
    ComputeMeans(i.op, Seen(s, i.rs), Seen(s, i.rt), i.imm, i.shamt);
    ComputingRows(i.op);
    RunCompute(i, s);
  }

  // ----- tests of branches and traps -----

  predicate IsBranch(op: Op) {
    IsEqualityBranch(op) || IsSignBranch(op)
  }

  predicate IsEqualityBranch(op: Op) {
    op == BEQ || op == BEQL || op == BNE || op == BNEL
  }

  predicate IsSignBranch(op: Op) {
    || op == BGEZ || op == BGEZL || op == BGEZAL || op == BGEZALL || op == BLTZ || op == BLTZL || op == BLTZAL || op == BLTZALL
    || op == BGTZ || op == BGTZL || op == BLEZ || op == BLEZL
  }

  /** The tests of the sixteen conditional branches, by the sign bit of `rs`. */
  predicate BranchTest(op: Op, rs: Word, rt: Word) {
    || ((op == BEQ || op == BEQL) && rs == rt)
    || ((op == BNE || op == BNEL) && rs != rt)
    || ((op == BGEZ || op == BGEZL || op == BGEZAL || op == BGEZALL) && !Bit(rs, 31))
    || ((op == BLTZ || op == BLTZL || op == BLTZAL || op == BLTZALL) && Bit(rs, 31))
    || ((op == BGTZ || op == BGTZL) && rs != 0 && !Bit(rs, 31))
    || ((op == BLEZ || op == BLEZL) && (rs == 0 || Bit(rs, 31)))
  }

  predicate IsLikely(op: Op) {
    || op == BEQL || op == BNEL || op == BGEZL || op == BLTZL || op == BGTZL || op == BLEZL || op == BGEZALL || op == BLTZALL
  }

  predicate IsLinking(op: Op) {
    op == BGEZAL || op == BLTZAL || op == BGEZALL || op == BLTZALL
  }

  lemma BranchTested(op: Op, rs: Word, rt: Word)
    requires IsBranch(op)
    ensures Taken(op, rs, rt) <==> BranchTest(op, rs, rt)
  {
    hide Taken, BranchTest;
    if IsEqualityBranch(op) {
      EqualityTested(op, rs, rt);
    } else if op == BGTZ || op == BGTZL || op == BLEZ || op == BLEZL {
      ZeroTested(op, rs, rt);
    } else {
      SignTested(op, rs, rt);
    }
  }

  lemma EqualityTested(op: Op, rs: Word, rt: Word)
    requires IsEqualityBranch(op)
    ensures Taken(op, rs, rt) <==> BranchTest(op, rs, rt)
  {
    hide Bit, Signed;
  }

  lemma ZeroTested(op: Op, rs: Word, rt: Word)
    requires op == BGTZ || op == BGTZL || op == BLEZ || op == BLEZL
    ensures Taken(op, rs, rt) <==> BranchTest(op, rs, rt)
  {
    hide Bit, Signed;
    SignBit(rs);
    SignedZero(rs);
  }

  lemma SignTested(op: Op, rs: Word, rt: Word)
    requires op == BGEZ || op == BGEZL || op == BGEZAL || op == BGEZALL || op == BLTZ || op == BLTZL || op == BLTZAL || op == BLTZALL
    ensures Taken(op, rs, rt) <==> BranchTest(op, rs, rt)
  {
    hide Bit, Signed;
    SignBit(rs);
  }

  lemma SignedZero(x: Word)
    ensures x == 0 <==> Signed(x) == 0
  {
  }

  lemma EqualityRows(op: Op)
    requires IsEqualityBranch(op)
    ensures FamilyOf(op) == Branching && (Likely(op) <==> IsLikely(op)) && (Links(op) <==> IsLinking(op))
  {
  }

  lemma SignRows(op: Op)
    requires IsSignBranch(op)
    ensures FamilyOf(op) == Branching && (Likely(op) <==> IsLikely(op)) && (Links(op) <==> IsLinking(op))
  {
    hide FamilyOf, Likely, Links, IsLikely, IsLinking;
    SignFamily(op);
    SignLikely(op);
    SignLinks(op);
  }

  lemma SignLikely(op: Op)
    requires IsSignBranch(op)
    ensures Likely(op) <==> IsLikely(op)
  {
  }

  lemma SignLinks(op: Op)
    requires IsSignBranch(op)
    ensures Links(op) <==> IsLinking(op)
  {
  }

  lemma SignFamily(op: Op)
    requires IsSignBranch(op)
    ensures FamilyOf(op) == Branching
  {
    if op == BGTZ || op == BGTZL || op == BLEZ || op == BLEZL {
      ZeroFamily(op);
    }
  }

  lemma ZeroFamily(op: Op)
    requires op == BGTZ || op == BGTZL || op == BLEZ || op == BLEZL
    ensures FamilyOf(op) == Branching
  {
  }

  /** A branch writes `$31` if it links, and goes on at the target if its test holds, past the next
      instruction if the test fails and it is likely, and at the next instruction otherwise. The test
      reads `rs` after the link is written. */
  lemma BranchesRun(i: Inst, s: State)
    requires IsBranch(i.op)
    ensures var z := if IsLinking(i.op) then Put(Zeroed(s), 31, (s.pc + 4) % 0x1_0000_0000) else Zeroed(s);
            Run1(i, s) == Some(z.(pc := if BranchTest(i.op, z.gpr[i.rs], z.gpr[i.rt]) then Wrap(s.pc + BranchOffset(i.imm))
                                        else (s.pc + if IsLikely(i.op) then 8 else 4) % 0x1_0000_0000))
  {
    hide Taken, BranchTest, IsBranch, IsLikely, IsLinking, Likely, Links, FamilyOf, BranchOffset, Wrap, Compute, MulDiv, Trips,
      ExecLoad, ExecStore, ExecOther, Raise;
    BranchRows(i.op);
    var z := if IsLinking(i.op) then Put(Zeroed(s), 31, Wrap(s.pc + 4)) else Zeroed(s);
    BranchTested(i.op, z.gpr[i.rs], z.gpr[i.rt]);
    JumpLands(s.pc + BranchOffset(i.imm));
    Onward(s.pc);
  }

  lemma BranchRows(op: Op)
    requires IsBranch(op)
    ensures FamilyOf(op) == Branching && (Likely(op) <==> IsLikely(op)) && (Links(op) <==> IsLinking(op))
  {
    hide FamilyOf, Likely, Links, IsLikely, IsLinking, IsEqualityBranch, IsSignBranch;
    if IsEqualityBranch(op) {
      EqualityRows(op);
    } else {
      SignRows(op);
    }
  }

  lemma Onward(pc: Word)
    ensures Wrap(pc + 4) == (pc + 4) % 0x1_0000_0000 && Wrap(Wrap(pc + 4) + 4) == (pc + 8) % 0x1_0000_0000
  {
  }

  predicate IsTrap(op: Op) {
    IsRegisterTrap(op) || IsImmediateTrap(op)
  }

  predicate IsRegisterTrap(op: Op) {
    op == TEQ || op == TNE || op == TGE || op == TGEU || op == TLT || op == TLTU
  }

  predicate IsImmediateTrap(op: Op) {
    op == TEQI || op == TNEI || op == TGEI || op == TGEIU || op == TLTI || op == TLTIU
  }

  /** The comparisons of the trap instructions; the immediate is sign-extended, also in the unsigned ones. */
  predicate TrapTest(op: Op, rs: Word, rt: Word, imm: Half) {
    || (op == TEQ && rs == rt) || (op == TEQI && Signed(rs) == SignedHalf(imm))
    || (op == TNE && rs != rt) || (op == TNEI && Signed(rs) != SignedHalf(imm))
    || (op == TGE && Signed(rs) >= Signed(rt)) || (op == TGEI && Signed(rs) >= SignedHalf(imm))
    || (op == TGEU && rs >= rt) || (op == TGEIU && rs >= SignedHalf(imm) % 0x1_0000_0000)
    || (op == TLT && Signed(rs) < Signed(rt)) || (op == TLTI && Signed(rs) < SignedHalf(imm))
    || (op == TLTU && rs < rt) || (op == TLTIU && rs < SignedHalf(imm) % 0x1_0000_0000)
  }

  lemma TrapTested(op: Op, rs: Word, rt: Word, imm: Half)
    requires IsTrap(op)
    ensures FamilyOf(op) == Trapping && (Trips(op, rs, rt, SignEx(imm)) <==> TrapTest(op, rs, rt, imm))
  {
    hide SignEx, TrapTest, Trips, FamilyOf;
    TrapFamily(op);
    if op == TEQ || op == TEQI || op == TNE || op == TNEI {
      EqualTrap(op, rs, rt, imm);
    } else if op == TGE || op == TGEI || op == TLT || op == TLTI {
      SignedTrap(op, rs, rt, imm);
    } else {
      UnsignedTrap(op, rs, rt, imm);
    }
  }

  lemma TrapFamily(op: Op)
    requires IsTrap(op)
    ensures FamilyOf(op) == Trapping
  {
    hide FamilyOf, IsRegisterTrap, IsImmediateTrap;
    if IsRegisterTrap(op) {
      RegisterTrapFamily(op);
    } else {
      ImmediateTrapFamily(op);
    }
  }

  lemma RegisterTrapFamily(op: Op)
    requires IsRegisterTrap(op)
    ensures FamilyOf(op) == Trapping
  {
  }

  lemma ImmediateTrapFamily(op: Op)
    requires IsImmediateTrap(op)
    ensures FamilyOf(op) == Trapping
  {
  }

  lemma EqualTrap(op: Op, rs: Word, rt: Word, imm: Half)
    requires op == TEQ || op == TEQI || op == TNE || op == TNEI
    ensures Trips(op, rs, rt, SignEx(imm)) <==> TrapTest(op, rs, rt, imm)
  {
    hide SignEx, SignedHalf, Signed;
    HalfSign(imm);
    SameSigned(rs, SignEx(imm));
  }

  lemma SignedTrap(op: Op, rs: Word, rt: Word, imm: Half)
    requires op == TGE || op == TGEI || op == TLT || op == TLTI
    ensures Trips(op, rs, rt, SignEx(imm)) <==> TrapTest(op, rs, rt, imm)
  {
    hide SignEx, SignedHalf, Signed;
    HalfSign(imm);
  }

  lemma UnsignedTrap(op: Op, rs: Word, rt: Word, imm: Half)
    requires op == TGEU || op == TGEIU || op == TLTU || op == TLTIU
    ensures Trips(op, rs, rt, SignEx(imm)) <==> TrapTest(op, rs, rt, imm)
  {
    hide SignEx, SignedHalf, Signed;
    HalfSign(imm);
  }

  lemma SameSigned(a: Word, b: Word)
    ensures a == b <==> Signed(a) == Signed(b)
  {
  }

  /** A trap instruction raises exception 13 exactly when its comparison holds, and else does nothing. */
  lemma TrapsRun(i: Inst, s: State)
    requires IsTrap(i.op)
    ensures Run1(i, s) == Some(Next(if TrapTest(i.op, Seen(s, i.rs), Seen(s, i.rt), i.imm) then Raise(Zeroed(s), 13) else Zeroed(s)))
  {
    hide Trips, TrapTest, FamilyOf, IsTrap, SignEx, Wrap, Raise, Compute, Branch, MulDiv, ExecLoad, ExecStore, ExecOther;
    TrapTested(i.op, Seen(s, i.rs), Seen(s, i.rt), i.imm);
  }

  // ----- HI and LO -----

  predicate IsHiLo(op: Op) {
    IsProduct(op) || op == DIV || op == DIVU || op == MTHI || op == MTLO
  }

  predicate IsProduct(op: Op) {
    op == MULT || op == MULTU || op == MADD || op == MADDU || op == MSUB || op == MSUBU
  }

  /** HI:LO after an instruction, as a 64-bit number; division leaves quotient and remainder. */
  ghost predicate HiLoMeans(op: Op, was: HiLo, rs: Word, rt: Word, now: HiLo) {
    && (IsProduct(op) ==> ProductMeans(op, was.Value(), Signed(rs) * Signed(rt), rs * rt, now.Value()))
    && (op == MTHI ==> now == HiLo(rs, was.lo))
    && (op == MTLO ==> now == HiLo(was.hi, rs))
    && (op == DIV ==> now == DivSigned(was, rs, rt))
    && (op == DIVU ==> now == DivUnsigned(was, rs, rt))
  }

  ghost predicate ProductMeans(op: Op, was: int, signed: int, unsigned: int, now: int) {
    && (op == MULT ==> now == signed % TWO64)
    && (op == MULTU ==> now == unsigned)
    && (op == MADD ==> now == (was + signed % TWO64) % TWO64)
    && (op == MADDU ==> now == (was + unsigned) % TWO64)
    && (op == MSUB ==> now == (was - signed % TWO64) % TWO64)
    && (op == MSUBU ==> now == (was - unsigned) % TWO64)
  }

  lemma ProductComputed(op: Op, was: HiLo, rs: Word, rt: Word)
    requires IsProduct(op)
    ensures ProductMeans(op, was.Value(), Signed(rs) * Signed(rt), rs * rt, MulDiv(op, was, rs, rt).Value())
  {
    hide MulDiv, Signed, HiLo.Value, SignedMultiply, UnsignedMultiply, Accumulate, Deduct;
    SignedMultiplyExact(rs, rt);
    UnsignedMultiplyExact(rs, rt);
    if op == MULT || op == MULTU {
      MultiplyRows(was, rs, rt);
    } else {
      AccumulateExact(was, SignedMultiply(rs, rt));
      AccumulateExact(was, UnsignedMultiply(rs, rt));
      AddRows(was, rs, rt);
      SubtractRows(was, rs, rt);
    }
  }

  lemma MultiplyRows(was: HiLo, rs: Word, rt: Word)
    ensures MulDiv(MULT, was, rs, rt) == SignedMultiply(rs, rt) && MulDiv(MULTU, was, rs, rt) == UnsignedMultiply(rs, rt)
  {
    hide SignedMultiply, UnsignedMultiply, Accumulate, Deduct, DivSigned, DivUnsigned;
  }

  lemma AddRows(was: HiLo, rs: Word, rt: Word)
    ensures MulDiv(MADD, was, rs, rt) == Accumulate(was, SignedMultiply(rs, rt))
    ensures MulDiv(MADDU, was, rs, rt) == Accumulate(was, UnsignedMultiply(rs, rt))
  {
    hide SignedMultiply, UnsignedMultiply, Accumulate, Deduct, DivSigned, DivUnsigned;
  }

  lemma SubtractRows(was: HiLo, rs: Word, rt: Word)
    ensures MulDiv(MSUB, was, rs, rt) == Deduct(was, SignedMultiply(rs, rt))
    ensures MulDiv(MSUBU, was, rs, rt) == Deduct(was, UnsignedMultiply(rs, rt))
  {
    hide SignedMultiply, UnsignedMultiply, Accumulate, Deduct, DivSigned, DivUnsigned;
  }

  lemma HiLoComputed(op: Op, was: HiLo, rs: Word, rt: Word)
    requires IsHiLo(op)
    ensures HiLoMeans(op, was, rs, rt, MulDiv(op, was, rs, rt))
  {
    hide MulDiv, ProductMeans, IsProduct, HiLo.Value, DivSigned, DivUnsigned;
    if IsProduct(op) {
      ProductComputed(op, was, rs, rt);
    }
    MoveRows(was, rs, rt);
    QuotientRows(was, rs, rt);
  }

  lemma MoveRows(was: HiLo, rs: Word, rt: Word)
    ensures MulDiv(MTHI, was, rs, rt) == HiLo(rs, was.lo) && MulDiv(MTLO, was, rs, rt) == HiLo(was.hi, rs)
  {
    hide SignedMultiply, UnsignedMultiply, Accumulate, Deduct, DivSigned, DivUnsigned;
  }

  lemma QuotientRows(was: HiLo, rs: Word, rt: Word)
    ensures MulDiv(DIV, was, rs, rt) == DivSigned(was, rs, rt) && MulDiv(DIVU, was, rs, rt) == DivUnsigned(was, rs, rt)
  {
    hide SignedMultiply, UnsignedMultiply, Accumulate, Deduct, DivSigned, DivUnsigned;
  }

  lemma ProductFamily(op: Op)
    requires IsProduct(op)
    ensures FamilyOf(op) == Multiplying
  {
  }

  lemma HiLoRows(op: Op)
    requires IsHiLo(op)
    ensures FamilyOf(op) == Multiplying
  {
    if IsProduct(op) {
      ProductFamily(op);
    }
  }

  /** Executing one changes HI and LO as named, and nothing else. */
  lemma HiLoRuns(i: Inst, s: State) returns (now: HiLo)
    requires IsHiLo(i.op)
    ensures HiLoMeans(i.op, s.hilo, Seen(s, i.rs), Seen(s, i.rt), now) && Run1(i, s) == Some(Next(Zeroed(s).(hilo := now)))
  {
    hide Run1, HiLoMeans, MulDiv, FamilyOf, IsHiLo, Wrap;
    now := MulDiv(i.op, s.hilo, Seen(s, i.rs), Seen(s, i.rt));
    HiLoComputed(i.op, s.hilo, Seen(s, i.rs), Seen(s, i.rt));
    HiLoRows(i.op);
    RunMulDiv(i, s);
  }

  /** `mul` leaves the product in HI:LO as well as its low word in `rd`. */
  lemma MulRuns(i: Inst, s: State) returns (p: HiLo)
    requires i.op == MUL
    ensures p.Value() == (Signed(Seen(s, i.rs)) * Signed(Seen(s, i.rt))) % TWO64
    ensures Run1(i, s) == Some(Next(Put(Zeroed(s).(hilo := p), i.rd, p.lo)))
  {
    hide SignedMultiply, HiLo.Value, Signed, Wrap, Compute, Branch, MulDiv, Trips, ExecLoad, ExecStore;
    p := SignedMultiply(Seen(s, i.rs), Seen(s, i.rt));
    SignedMultiplyExact(Seen(s, i.rs), Seen(s, i.rt));
  }

  // ----- trapping sums -----

  /** `add`, `addi` and `sub` write the exact sum or difference, or raise exception 12 if it has no
      32-bit two's complement form. */
  lemma SumsRun(i: Inst, s: State) returns (r: Word)
    requires i.op == ADD || i.op == ADDI || i.op == SUB
    ensures var a, b := Signed(Seen(s, i.rs)), Signed(Seen(s, i.rt));
            var exact := if i.op == ADD then a + b else if i.op == SUB then a - b else a + SignedHalf(i.imm);
            if -0x8000_0000 <= exact <= 0x7fff_ffff
            then Signed(r) == exact && Run1(i, s) == Some(Wrote(s, if i.op == ADDI then i.rt else i.rd, r))
            else Run1(i, s) == Some(Next(Raise(Zeroed(s), 12)))
  {
    hide Run1, Raise, Wrap, SignEx, SignedHalf, Signed;
    RunChecked(i, s);
    HalfSign(i.imm);
    var exact := ExactSum(i, Seen(s, i.rs), Seen(s, i.rt));
    r := Wrap(exact);
    if FitsSigned(exact) {
      HalfWord(exact);
    }
  }

  // ----- moves -----

  /** Conditional moves, and moves from HI and LO. */
  lemma MovesRun(i: Inst, s: State)
    ensures i.op == MFHI ==> Run1(i, s) == Some(Wrote(s, i.rd, s.hilo.hi))
    ensures i.op == MFLO ==> Run1(i, s) == Some(Wrote(s, i.rd, s.hilo.lo))
    ensures i.op == MOVN ==> Run1(i, s) == Some(if Seen(s, i.rt) != 0 then Wrote(s, i.rd, Seen(s, i.rs)) else Next(Zeroed(s)))
    ensures i.op == MOVZ ==> Run1(i, s) == Some(if Seen(s, i.rt) == 0 then Wrote(s, i.rd, Seen(s, i.rs)) else Next(Zeroed(s)))
  {
    hide Run1, Wrap;
    if i.op == MFHI || i.op == MFLO {
      RunMoveFrom(i, s);
    } else if i.op == MOVN || i.op == MOVZ {
      ConditionalRuns(i, s);
    }
  }

  lemma ConditionalRuns(i: Inst, s: State)
    requires i.op == MOVN || i.op == MOVZ
    ensures Run1(i, s) == Some(if (Seen(s, i.rt) != 0) == (i.op == MOVN) then Wrote(s, i.rd, Seen(s, i.rs)) else Next(Zeroed(s)))
  {
    hide Exec, Run1, Wrap;
    ExecConditional(i, Zeroed(s));
    PlainRuns(i, s, if (Seen(s, i.rt) != 0) == (i.op == MOVN) then Put(Zeroed(s), i.rd, Seen(s, i.rs)) else Zeroed(s));
  }

  lemma PlainRuns(i: Inst, s: State, t: State)
    requires Exec(i, Zeroed(s)) == Plain(t)
    ensures Run1(i, s) == Some(Next(t))
  {
    hide Exec, Wrap;
  }

  lemma ExecConditional(i: Inst, z: State)
    requires i.op == MOVN || i.op == MOVZ
    ensures Exec(i, z) == Plain(if (z.gpr[i.rt] != 0) == (i.op == MOVN) then Put(z, i.rd, z.gpr[i.rs]) else z)
  {
    hide Put, Compute, Branch, MulDiv, Trips, ExecLoad, ExecStore;
  }

  // ----- coprocessor 0 -----

  /** `c` is `cp0` after `v` was written to register `r`: Status keeps user mode and coprocessors 0 and
      1 on, Status, Cause and Config have bits that cannot be written, and writing Compare takes the
      timer's line off Cause. */
  ghost predicate ControlMeans(cp0: Regs, r: Reg, v: Word, c: Regs) {
    && (forall k: Reg | k != r && (r == 11 ==> k != 13) :: c[k] == cp0[k])
    && (r == 12 ==> forall n: nat :: Bit(c[12], n) <==> Bit(0x3000_0010, n) || (Bit(0xf000_ff13, n) && Bit(v, n)))
    && (r == 13 ==> forall n: nat :: Bit(c[13], n) <==> Bit(0x8000_ff7c, n) && Bit(v, n))
    && (r == 16 ==> forall n: nat :: Bit(c[16], n) <==> Bit(0x000f_c380, n) && Bit(v, n))
    && (r == 11 ==> forall n: nat :: Bit(c[13], n) <==> n != 15 && Bit(cp0[13], n))
    && (r != 12 && r != 13 && r != 16 ==> c[r] == v)
  }

  lemma ControlWritten(cp0: Regs, r: Reg, v: Word)
    ensures ControlMeans(cp0, r, v, MoveToCp0(cp0, r, v))
  {
    hide Bit, And, OrWord;
    AndMeans(v, 0xf000_ff13);
    OrMeans(And(v, 0xf000_ff13), 0x3000_0010);
    AndMeans(v, 0x8000_ff7c);
    AndMeans(v, 0x000f_c380);
    Without15(cp0[13]);
  }

  lemma Without15(x: Word)
    ensures var y := if x / 0x8000 % 2 == 1 then x - 0x8000 else x;
            0 <= y && forall n: nat :: Bit(y, n) <==> n != 15 && Bit(x, n)
  {
    hide Bit;
    var y := if x / 0x8000 % 2 == 1 then x - 0x8000 else x;
    forall n: nat ensures Bit(y, n) <==> n != 15 && Bit(x, n) {
      ClearedBit(x, n);
    }
  }

  lemma ClearedBit(x: Word, n: nat)
    ensures Bit(if x / 0x8000 % 2 == 1 then x - 0x8000 else x, n) <==> n != 15 && Bit(x, n)
  {
    hide Bit;
    var high, low := x / 0x8000, x % 0x8000;
    var even := if high % 2 == 1 then high - 1 else high;
    Fifteen();
    ScaleIsProduct(high, 15);
    ScaleIsProduct(even, 15);
    JoinedBit(high, low, 15, n);
    JoinedBit(even, low, 15, n);
    NextBit(high, if n > 15 then n - 16 else 0);
    NextBit(even, if n > 15 then n - 16 else 0);
  }

  /** `mtc0`, `mfc0`, `ctc0` and `cfc0`. */
  lemma ControlRuns(i: Inst, s: State)
    ensures i.op == MTC0 ==> && ControlMeans(s.cp0, i.rd, Seen(s, i.rt), MoveToCp0(s.cp0, i.rd, Seen(s, i.rt)))
                             && Run1(i, s) == Some(Next(Zeroed(s).(cp0 := MoveToCp0(s.cp0, i.rd, Seen(s, i.rt)))))
    ensures i.op == MFC0 ==> Run1(i, s) == Some(Wrote(s, i.rt, s.cp0[i.rd]))
    ensures i.op == CTC0 ==> Run1(i, s) == Some(Next(Zeroed(s).(ctl := s.ctl[i.rd := Seen(s, i.rt)])))
    ensures i.op == CFC0 ==> Run1(i, s) == Some(Wrote(s, i.rt, s.ctl[i.rd]))
  {
    hide ControlMeans, MoveToCp0, Run1, Wrap;
    ControlWritten(s.cp0, i.rd, Seen(s, i.rt));
    if i.op == MTC0 || i.op == CTC0 {
      ToControl(i, s);
    } else if i.op == MFC0 || i.op == CFC0 {
      FromControl(i, s);
    }
  }

  lemma ToControl(i: Inst, s: State)
    requires i.op == MTC0 || i.op == CTC0
    ensures i.op == MTC0 ==> Run1(i, s) == Some(Next(Zeroed(s).(cp0 := MoveToCp0(s.cp0, i.rd, Seen(s, i.rt)))))
    ensures i.op == CTC0 ==> Run1(i, s) == Some(Next(Zeroed(s).(ctl := s.ctl[i.rd := Seen(s, i.rt)])))
  {
    hide Run1, Exec, MoveToCp0, Wrap;
    var z := Zeroed(s);
    ExecToControl(i, z);
    PlainRuns(i, s, if i.op == MTC0 then z.(cp0 := MoveToCp0(s.cp0, i.rd, Seen(s, i.rt)))
                    else z.(ctl := s.ctl[i.rd := Seen(s, i.rt)]));
  }

  lemma ExecToControl(i: Inst, z: State)
    requires i.op == MTC0 || i.op == CTC0
    ensures Exec(i, z) == Plain(if i.op == MTC0 then z.(cp0 := MoveToCp0(z.cp0, i.rd, z.gpr[i.rt]))
                                else z.(ctl := z.ctl[i.rd := z.gpr[i.rt]]))
  {
    hide MoveToCp0, Compute, Branch, MulDiv, Trips, ExecLoad, ExecStore;
  }

  lemma FromControl(i: Inst, s: State)
    requires i.op == MFC0 || i.op == CFC0
    ensures Run1(i, s) == Some(Wrote(s, i.rt, if i.op == MFC0 then s.cp0[i.rd] else s.ctl[i.rd]))
  {
    hide Run1, Exec, Wrap;
    ExecFromControl(i, Zeroed(s));
    PlainRuns(i, s, Put(Zeroed(s), i.rt, if i.op == MFC0 then s.cp0[i.rd] else s.ctl[i.rd]));
  }

  lemma ExecFromControl(i: Inst, z: State)
    requires i.op == MFC0 || i.op == CFC0
    ensures Exec(i, z) == Plain(Put(z, i.rt, if i.op == MFC0 then z.cp0[i.rd] else z.ctl[i.rd]))
  {
    hide Compute, Branch, MulDiv, Trips, ExecLoad, ExecStore, Put;
  }

  // ----- exceptions raised outright -----

  predicate IsReserved(op: Op) {
    op == RFE || op == TLBP || op == TLBR || op == TLBWI || op == TLBWR
  }

  /** What an exception records: its code, EXL, and unless EXL was set the address of the instruction;
      nothing else of the machine changes. */
  ghost predicate Recorded(s: State, t: State, code: int) {
    && t == s.(cp0 := t.cp0, exc := true)
    && t.cp0[13] / 4 % 32 == code && t.cp0[13] / 0x80 == s.cp0[13] / 0x80 && t.cp0[13] % 4 == s.cp0[13] % 4
    && t.cp0[12] / 2 % 2 == 1 && t.cp0[12] / 4 == s.cp0[12] / 4 && t.cp0[12] % 2 == s.cp0[12] % 2
    && t.cp0[14] == (if s.cp0[12] / 2 % 2 == 1 then s.cp0[14] else s.pc - s.pc % 4)
    && forall r: Reg | r != 12 && r != 13 && r != 14 :: t.cp0[r] == s.cp0[r]
  }

  lemma RaiseRecords(s: State, code: nat)
    requires 0 < code < 32
    ensures Recorded(s, Raise(s, code), code)
  {
    CodeField(s.cp0[13], code);
    ExlField(s.cp0[12]);
  }

  lemma CodeField(cause: Word, code: nat)
    requires code < 32
    ensures var c := cause - cause / 4 % 32 * 4 + code * 4;
            c / 4 % 32 == code && c / 0x80 == cause / 0x80 && c % 4 == cause % 4
  {
    var q, low := cause / 4, cause % 4;
    FieldSet(q / 32, q % 32, low);
    FieldSet(q / 32, code, low);
  }

  lemma FieldSet(high: nat, code: nat, low: nat)
    requires code < 32 && low < 4
    ensures var c := (high * 32 + code) * 4 + low;
            c / 4 == high * 32 + code && c / 4 % 32 == code && c / 0x80 == high && c % 4 == low
  {
  }

  lemma ExlField(status: Word)
    ensures status / 2 % 2 == 0 ==> && (status + 2) / 2 % 2 == 1 && (status + 2) / 4 == status / 4
                                    && (status + 2) % 2 == status % 2
  {
    var q, low := status / 4, status % 4;
    LowTwo(q, low);
    if low < 2 {
      LowTwo(q, low + 2);
    }
  }

  lemma LowTwo(q: nat, low: nat)
    requires low < 4
    ensures var x := 4 * q + low; x / 2 == 2 * q + low / 2 && x / 4 == q && x % 2 == low % 2
  {
    assert 4 * q + low == 2 * (2 * q + low / 2) + low % 2;
  }

  /** A program's `break` raises exception 9, an instruction that does not exist exception 10. */
  lemma BreaksRun(i: Inst, s: State)
    ensures i.op == BREAK && i.rd != 1 ==> Run1(i, s) == Some(Next(Raise(Zeroed(s), 9)))
    ensures IsReserved(i.op) ==> Run1(i, s) == Some(Next(Raise(Zeroed(s), 10)))
  {
    hide Run1, Raise, Wrap, Exec;
    if i.op == BREAK && i.rd != 1 {
      ExecBreak(i, Zeroed(s));
      PlainRuns(i, s, Raise(Zeroed(s), 9));
    } else if IsReserved(i.op) {
      ExecReserved(i, Zeroed(s));
      PlainRuns(i, s, Raise(Zeroed(s), 10));
    }
  }

  lemma ExecBreak(i: Inst, z: State)
    requires i.op == BREAK && i.rd != 1
    ensures Exec(i, z) == Plain(Raise(z, 9))
  {
    hide Raise, Compute, Branch, MulDiv, Trips, ExecLoad, ExecStore;
  }

  lemma ExecReserved(i: Inst, z: State)
    requires IsReserved(i.op)
    ensures Exec(i, z) == Plain(Raise(z, 10))
  {
    hide Raise, Compute, Branch, MulDiv, Trips, ExecLoad, ExecStore;
  }
}
