/** Stepping through the code of a pseudo-instruction, and the code its statements become. */
module PseudoSteps {
  import opened Words
  import opened Multiply
  import opened Isa
  import opened Blocks
  import opened Assembler
  import opened Legalise
  import opened WideImmediates
  import opened Fixup
  import opened BranchTargets

  // ----- statements without symbols -----

  /** `emit_i` with a constant. */
  function ConstStmt(op: Op, rt: Reg, rs: Reg, v: Word): Stmt {
    ImmStmt(op, rt, rs, v, None, false)
  }

  /** A branch over `n` instructions: `branch_offset(n)`, later shifted right by the encoder. */
  function Skip(op: Op, rt: Reg, rs: Reg, n: Half): Stmt {
    ConstStmt(op, rt, rs, 4 * n)
  }

  /** The instructions a statement without symbols assembles to (no delayed branches). */
  function StmtCode(stmt: Stmt): seq<Inst> {
    match stmt
    case RegStmt(inst) => [inst]
    case ImmStmt(op, rt, rs, v, _, _) =>
      if IsBranch(op) then [IType(op, rt, rs, BranchField(v, false))] else Legal(op, rt, rs, v)
    case _ => []
  }

  function Code(stmts: seq<Stmt>): seq<Inst>
    decreases |stmts|
  {
    if stmts == [] then [] else StmtCode(stmts[0]) + Code(stmts[1..])
  }

  predicate Constant(stmt: Stmt) {
    match stmt
    case RegStmt(_) => true
    case ImmStmt(op, _, _, v, symbol, rel) => symbol.None? && !rel && !IsJump(op) && (IsBranch(op) ==> v < 0x1_0000)
    case _ => false
  }

  lemma StmtEmits(a: Asm, stmt: Stmt)
    requires Constant(stmt) && !a.delayedBranches
    ensures Appended(a, Emit(a, stmt), StmtCode(stmt))
  {
    hide Appended, ITypeInst, Legal, BranchField, IsBranch, IsJump;
    match stmt
    case RegStmt(inst) => StoreAppends(a, Slot(inst, None));
    case ImmStmt(op, rt, rs, v, symbol, rel) =>
      NoBase(v);
      if IsBranch(op) {
        ConstBranchEmits(a, op, rt, rs, v);
      } else {
        EmitsLegal(a, op, rt, rs, Const(v));
      }
  }

  lemma ConstBranchEmits(a: Asm, op: Op, rt: Reg, rs: Reg, v: Half)
    requires IsBranch(op) && !a.delayedBranches
    ensures Appended(a, ITypeInst(a, op, rt, rs, Const(v)), [IType(op, rt, rs, BranchField(v, false))])
  {
    hide Appended, ITypeInst, BranchField, IsBranch, IsMem, IsJump, Eval, StoreResolved, Splits;
    BranchIsPlain(op);
    ConstValues(v);
    ConstBranchFits(a, op, v);
    BranchUnfolds(a, op, rt, rs, Const(v));
    ResolvedEmits(a, IType(op, rt, rs, 0), Const(v));
  }

  lemma ConstBranchFits(a: Asm, op: Op, v: Half)
    requires IsBranch(op)
    ensures !Splits(a, op, Const(v))
  {
  }

  /** The assembler turns constant statements into exactly their code. */
  lemma {:induction false} CodeEmits(a: Asm, stmts: seq<Stmt>)
    requires !a.delayedBranches && forall stmt | stmt in stmts :: Constant(stmt)
    ensures Appended(a, EmitAll(a, stmts), Code(stmts))
    decreases |stmts|
  {
    hide Emit, StmtCode, Constant;
    if stmts == [] {
      assert Insts(a.text) + [] == Insts(a.text);
    } else {
      StmtEmits(a, stmts[0]);
      var b := Emit(a, stmts[0]);
      CodeEmits(b, stmts[1..]);
      AppendedTrans(a, b, EmitAll(b, stmts[1..]), StmtCode(stmts[0]), Code(stmts[1..]));
    }
  }

  /** Each statement is one instruction. */
  ghost predicate OneEach(stmts: seq<Stmt>, code: seq<Inst>) {
    |stmts| == |code| && forall i | 0 <= i < |code| :: StmtCode(stmts[i]) == [code[i]]
  }

  lemma {:induction false} OneEachCode(stmts: seq<Stmt>, code: seq<Inst>)
    requires OneEach(stmts, code)
    ensures Code(stmts) == code
  {
    hide StmtCode;
    if stmts != [] {
      OneEachCode(stmts[1..], code[1..]);
      assert StmtCode(stmts[0]) == [code[0]];
      assert code == [code[0]] + code[1..];
    }
  }

  lemma SkipField(n: Half)
    requires n < 0x2000
    ensures BranchField(4 * n, false) == n
  {
  }

  // ----- stepping -----

  lemma OnlyRegsTrans(s: State, t: State, u: State, p: set<Reg>, q: set<Reg>)
    requires OnlyRegs(s, t, p) && OnlyRegs(t, u, q)
    ensures OnlyRegs(s, u, p + q)
  {
  }

  /** The state a taken skip leads to. */
  function Skipped(s: State, pc: Word): State {
    Zeroed(s).(pc := pc)
  }

  lemma SkippedOnly(s: State, pc: Word)
    ensures OnlyRegs(s, Skipped(s, pc), {})
  {
  }

  /** A computing instruction inside a block. */
  lemma StepCompute(base: Word, code: seq<Inst>, k: nat, s: State, rd: Reg, x: Word)
    requires Placed(base, code) && k < |code| && s.pc == AddrOf(base, k) && !s.exc
    requires FamilyOf(code[k].op) == Computing && rd == (if WritesRt(code[k].op) then code[k].rt else code[k].rd)
    requires x == Compute(code[k].op, Seen(s, code[k].rs), Seen(s, code[k].rt), code[k].imm, code[k].shamt)
    ensures OnlyRegs(s, Wrote(s, rd, x), {rd}) && Wrote(s, rd, x).gpr[rd] == x
    ensures Wrote(s, rd, x).pc == AddrOf(base, k + 1)
    ensures RunBlock(base, code, k, s) == RunBlock(base, code, k + 1, Wrote(s, rd, x))
  {
    hide Run1, RunBlock, Compute, Wrap;
    RunCompute(code[k], s);
    WroteOnly(s, rd, x);
    StepTo(base, code, k, s, k + 1, Wrote(s, rd, x));
  }

  /** A branch of a block that skips forward when taken. */
  lemma StepSkip(base: Word, code: seq<Inst>, k: nat, s: State, taken: bool)
    requires Placed(base, code) && k < |code| && s.pc == AddrOf(base, k) && !s.exc
    requires FamilyOf(code[k].op) == Branching && !Links(code[k].op) && !Likely(code[k].op)
    requires 0 < code[k].imm < 0x2000 && k + code[k].imm <= |code|
    requires taken == Taken(code[k].op, Seen(s, code[k].rs), Seen(s, code[k].rt))
    ensures var j := if taken then k + code[k].imm else k + 1;
            RunBlock(base, code, k, s) == RunBlock(base, code, j, Skipped(s, AddrOf(base, j)))
  {
    hide Run1, RunBlock, Taken, BranchOffset;
    var i := code[k];
    var j := if taken then k + i.imm else k + 1;
    RunBranch(i, s);
    SmallOffset(i.imm);
    assert Wrap(s.pc + 4 * i.imm) == s.pc + 4 * i.imm;
    StepTo(base, code, k, s, j, Skipped(s, AddrOf(base, j)));
  }

  lemma SmallOffset(imm: Half)
    requires imm < 0x2000
    ensures BranchOffset(imm) == 4 * imm
  {
  }

  lemma StepMove(base: Word, code: seq<Inst>, k: nat, s: State, rd: Reg, x: Word)
    requires Placed(base, code) && k < |code| && s.pc == AddrOf(base, k) && !s.exc
    requires code[k].op == MFHI || code[k].op == MFLO
    requires rd == code[k].rd && x == (if code[k].op == MFHI then s.hilo.hi else s.hilo.lo)
    ensures OnlyRegs(s, Wrote(s, rd, x), {rd}) && Wrote(s, rd, x).gpr[rd] == x
    ensures Wrote(s, rd, x).pc == AddrOf(base, k + 1)
    ensures RunBlock(base, code, k, s) == RunBlock(base, code, k + 1, Wrote(s, rd, x))
  {
    hide Run1, RunBlock, Wrap;
    RunMoveFrom(code[k], s);
    WroteOnly(s, rd, x);
    StepTo(base, code, k, s, k + 1, Wrote(s, rd, x));
  }

  lemma StepMulDiv(base: Word, code: seq<Inst>, k: nat, s: State, p: HiLo)
    requires Placed(base, code) && k < |code| && s.pc == AddrOf(base, k) && !s.exc
    requires FamilyOf(code[k].op) == Multiplying
    requires p == MulDiv(code[k].op, s.hilo, Seen(s, code[k].rs), Seen(s, code[k].rt))
    ensures var s' := Next(Zeroed(s).(hilo := p));
            && OnlyRegs(s.(hilo := p), s', {}) && s'.pc == AddrOf(base, k + 1)
            && RunBlock(base, code, k, s) == RunBlock(base, code, k + 1, s')
  {
    hide Run1, RunBlock, MulDiv, Wrap;
    RunMulDiv(code[k], s);
    StepTo(base, code, k, s, k + 1, Next(Zeroed(s).(hilo := p)));
  }

  /** A `break` inside a block ends it with the breakpoint exception; registers keep their values. */
  lemma StepBreak(base: Word, code: seq<Inst>, k: nat, s: State)
    requires Placed(base, code) && k < |code| && code[k] == RType(BREAK, 0, 0, 0) && !s.exc
    ensures var exit := RunBlock(base, code, k, s);
            && exit.Raised? && exit.s.cp0[CAUSE] / 4 % 32 == EXC_BP
            && exit.s.pc == Wrap(s.pc + 4)
            && forall r: Reg | r != 0 :: exit.s.gpr[r] == s.gpr[r]
  {
    hide Run1, Wrap;
    RunBreak(s);
  }
}
