/** Execution of a short straight piece of code, as the expansions of the assembler produce
    it: control moves forward until it leaves the block or an exception is raised. */
module Blocks {
  import opened Words
  import opened Multiply
  import opened Isa

  /** The instruction at index `k` of a block at address `base`. */
  function AddrOf(base: Word, k: nat): int {
    base + 4 * k
  }

  ghost predicate Placed(base: Word, code: seq<Inst>) {
    base % 4 == 0 && base + 4 * |code| < TWO32
  }

  /** How a block ends: control reached an address outside the block (or earlier in it), an
      exception was raised by the instruction at `s.pc - 4`, or the machine was left. */
  datatype Exit = Reached(s: State) | Raised(s: State) | Gone

  /** Run from index `k`, following forward control flow inside the block. */
  function RunBlock(base: Word, code: seq<Inst>, k: nat, s: State): Exit
    decreases |code| - k
  {
    if k >= |code| then Reached(s)
    else match Run1(code[k], s)
         case None => Gone
         case Some(s') =>
           if s'.exc then Raised(s')
           else if s'.pc < base || (s'.pc - base) % 4 != 0 || (s'.pc - base) / 4 <= k then Reached(s')
           else RunBlock(base, code, (s'.pc - base) / 4, s')
  }

  // ----- single instructions, family by family -----

  function Next(s: State): (s': State)
    ensures s.pc + 4 < TWO32 ==> s'.pc == s.pc + 4
  {
    s.(pc := Wrap(s.pc + 4))
  }

  lemma RunCompute(i: Inst, s: State)
    requires FamilyOf(i.op) == Computing
    ensures var z := Zeroed(s);
            Run1(i, s) == Some(Next(Put(z, if WritesRt(i.op) then i.rt else i.rd,
                                        Compute(i.op, z.gpr[i.rs], z.gpr[i.rt], i.imm, i.shamt))))
  {
    hide Compute;
  }

  lemma JumpLands(target: int)
    ensures Wrap(Wrap(target - 4) + 4) == Wrap(target)
  {
  }

  lemma RunBranch(i: Inst, s: State)
    requires FamilyOf(i.op) == Branching && !Links(i.op) && !Likely(i.op)
    ensures var z := Zeroed(s);
            Run1(i, s) == Some(if Taken(i.op, z.gpr[i.rs], z.gpr[i.rt])
                               then z.(pc := Wrap(s.pc + BranchOffset(i.imm))) else Next(z))
  {
    hide Taken, BranchOffset, Wrap, Compute, MulDiv, Trips, ExecLoad, ExecStore, ExecOther, Raise;
    JumpLands(s.pc + BranchOffset(i.imm));
  }

  lemma RunMulDiv(i: Inst, s: State)
    requires FamilyOf(i.op) == Multiplying
    ensures var z := Zeroed(s);
            Run1(i, s) == Some(Next(z.(hilo := MulDiv(i.op, s.hilo, z.gpr[i.rs], z.gpr[i.rt]))))
  {
    hide MulDiv;
  }

  lemma RunMoveFrom(i: Inst, s: State)
    requires i.op == MFHI || i.op == MFLO
    ensures Run1(i, s) == Some(Next(Put(Zeroed(s), i.rd, if i.op == MFHI then s.hilo.hi else s.hilo.lo)))
  {
    hide Checked, Signed, SignEx, Wrap, Compute, Branch, MulDiv, Trips, ExecLoad, ExecStore, Raise, MoveToCp0,
      SignedMultiply, JumpTarget, Isa.Jump, Exl;
  }

  /** The exact sum or difference of a trapping add or subtract. */
  function ExactSum(i: Inst, rs: Word, rt: Word): int {
    if i.op == ADDI then Signed(rs) + Signed(SignEx(i.imm))
    else if i.op == ADD then Signed(rs) + Signed(rt)
    else Signed(rs) - Signed(rt)
  }

  lemma ExecChecked(i: Inst, z: State)
    requires i.op == ADD || i.op == SUB || i.op == ADDI
    ensures Exec(i, z) == Checked(z, if i.op == ADDI then i.rt else i.rd, ExactSum(i, z.gpr[i.rs], z.gpr[i.rt]))
  {
    hide Checked, Signed, SignEx, Wrap, Compute, Branch, MulDiv, Trips, ExecLoad, ExecStore, Raise, MoveToCp0,
      SignedMultiply, JumpTarget, Isa.Jump, Exl;
  }

  lemma RunChecked(i: Inst, s: State)
    requires i.op == ADD || i.op == SUB || i.op == ADDI
    ensures var z := Zeroed(s);
            var exact := ExactSum(i, z.gpr[i.rs], z.gpr[i.rt]);
            Run1(i, s) == Some(Next(if FitsSigned(exact) then Put(z, if i.op == ADDI then i.rt else i.rd, Wrap(exact))
                                    else Raise(z, EXC_OV)))
  {
    hide Exec, Raise, ExactSum, Wrap;
    ExecChecked(i, Zeroed(s));
  }

  lemma RunBreak(s: State)
    ensures Run1(RType(BREAK, 0, 0, 0), s) == Some(Next(Raise(Zeroed(s), EXC_BP)))
  {
  }

  /** Step from index `k` to index `j` of a block. */
  lemma StepTo(base: Word, code: seq<Inst>, k: nat, s: State, j: nat, s': State)
    requires Placed(base, code) && k < j <= |code|
    requires Run1(code[k], s) == Some(s') && !s'.exc && s'.pc == AddrOf(base, j)
    ensures RunBlock(base, code, k, s) == RunBlock(base, code, j, s')
  {
    hide Run1;
    assert (s'.pc - base) / 4 == j;
  }
}
