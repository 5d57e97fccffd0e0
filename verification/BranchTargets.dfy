/** Branches and jumps to labels: where the patched instruction takes control. */
module BranchTargets {
  import opened Words
  import opened Isa
  import opened Blocks
  import opened Assembler
  import opened Legalise
  import opened Fixup

  // ----- landing -----

  /** The address a taken branch at `pc` reaches; with delayed branches the run loop adds 4. */
  function Landing(pc: Word, imm: Half, delayed: bool): Word {
    Wrap(pc + BranchOffset(imm) + (if delayed then 4 else 0))
  }

  function Displacement(pc: Word, target: Word): int {
    Signed(WrapSub(target, pc))
  }

  /** The displacements a patched branch can make: the signed 16-bit byte window, shifted up by
      one word when branches are delayed (-0x8000 is lost, +0x8000 gained). */
  predicate InWindow(d: int, delayed: bool) {
    if delayed then -0x7ffc <= d <= 0x8000 else -0x8000 <= d <= 0x7fff
  }

  /** The 16 low bits of a displacement that is a multiple of 4, read back as signed. */
  function Low16(d: int): int {
    var h := d % 0x1_0000;
    if h < 0x8000 then h else h - 0x1_0000
  }

  /** A number is its signed low half plus a multiple of 2^16. */
  lemma Low16Split(d: int) returns (k: int)
    ensures d == Low16(d) + 0x1_0000 * k
    ensures -0x8000 <= Low16(d) < 0x8000
  {
    k := d / 0x1_0000 + (if d % 0x1_0000 < 0x8000 then 0 else 1);
  }

  lemma Low16Aligned(d: int)
    requires d % 4 == 0
    ensures Low16(d) % 4 == 0
  {
    var k := Low16Split(d);
    hide Low16;
    var q := d / 4;
    assert d == 4 * q;
    assert Low16(d) == 4 * (q - 0x4000 * k);
  }

  lemma SignExIsLow16(d: int)
    ensures Signed(SignEx(d % 0x1_0000)) == Low16(d)
  {
  }

  lemma LowOfWrap(d: int)
    ensures Wrap(d) % 0x1_0000 == d % 0x1_0000
  {
  }

  lemma FieldOf(q: int, delayed: bool)
    requires -0x2000 <= q < 0x2000
    ensures var d := if delayed then 1 else 0;
            (q % 0x1_0000 - d) % 0x1_0000 == (q - d) % 0x1_0000
  {
  }

  lemma OffsetOf(f: int)
    requires -0x2001 <= f < 0x2000
    ensures Signed(BranchOffset(f % 0x1_0000)) == if f == -0x2001 then 0x7ffc else 4 * f
  {
    var h := f % 0x1_0000;
    assert h == if f < 0 then f + 0x1_0000 else f;
    assert h * 4 % 0x1_0000 == if f < -0x2000 then 0x7ffc else if f < 0 then 4 * f + 0x1_0000 else 4 * f;
  }

  lemma FieldRestores(d: int, delayed: bool)
    requires d % 4 == 0
    ensures var x := Low16(d) - (if delayed then 4 else 0);
            Signed(BranchOffset(BranchField(Wrap(d), delayed))) == if x < -0x8000 then 0x7ffc else x
  {
    hide Low16, BranchOffset, Signed, SignEx, Wrap;
    LowOfWrap(d);
    SignExIsLow16(d);
    Low16Aligned(d);
    var k := Low16Split(d);
    var q := Low16(d) / 4;
    FieldOf(q, delayed);
    OffsetOf(q - (if delayed then 1 else 0));
  }

  /** A branch patched for `target` lands there, if and only if the target is in the window. */
  lemma BranchLandsIff(pc: Word, target: Word, delayed: bool)
    requires pc % 4 == 0 && target % 4 == 0
    ensures Landing(pc, BranchField(WrapSub(target, pc), delayed), delayed) == target
            <==> InWindow(Displacement(pc, target), delayed)
  {
    hide Wrap, Signed, BranchField, BranchOffset, Low16;
    var d, x := Displacement(pc, target), if delayed then 4 else 0;
    AlignedDifference(pc, target);
    WrapOfSigned(WrapSub(target, pc));
    FieldRestores(d, delayed);
    var k := Low16Split(d);
    Low16Aligned(d);
    LandsAt(pc, target, BranchOffset(BranchField(Wrap(d), delayed)), x);
  }

  lemma WrapOfSigned(w: Word)
    ensures Wrap(Signed(w)) == w
  {
  }

  lemma AlignedDifference(pc: Word, target: Word)
    requires pc % 4 == 0 && target % 4 == 0
    ensures Displacement(pc, target) % 4 == 0
  {
    hide Signed;
    assert WrapSub(target, pc) == if target >= pc then target - pc else target - pc + TWO32;
    SignedAligned(WrapSub(target, pc));
  }

  lemma SignedAligned(w: Word)
    requires w % 4 == 0
    ensures Signed(w) % 4 == 0
  {
  }

  lemma WrapNear(y: int)
    requires -TWO32 <= y < 3 * TWO32
    ensures Wrap(y) == if y < 0 then y + TWO32 else if y < TWO32 then y else if y < 2 * TWO32 then y - TWO32 else y - 2 * TWO32
  {
  }

  lemma LandsAt(pc: int, target: int, w: Word, x: int)
    requires 0 <= pc < TWO32 && 0 <= target < TWO32 && 0 <= x <= 4 && -0x8000 <= Signed(w) < 0x8000
    ensures Wrap(pc + w + x) == target <==> Signed(w) + x == Signed(WrapSub(target, pc))
  {
    hide Wrap;
    WrapNear(pc + w + x);
    WrapNear(target - pc);
  }

  // ----- the emitted branch -----

  /** The expression of a branch target, with the offset left over from parsing. */
  function TargetExpr(stale: Word, name: string): Expr {
    Expr(stale, Some(name), Full, true)
  }

  lemma FieldIgnoresHigh(v: Word, delayed: bool)
    ensures BranchField(v % 0x1_0000, delayed) == BranchField(v, delayed)
  {
    hide Signed, SignEx;
    ModIdempotent(v);
  }

  /** The value a PC-relative expression has at its final place, whatever its stale offset. */
  lemma RelativeValue(e: Expr, pc: int, addr: Word)
    requires e.symbol.Some? && e.bits != Upper && 0 <= pc < TWO32
    ensures Eval(e.(offset := Negated(pc)), addr) % 0x1_0000 == WrapSub(addr, pc) % 0x1_0000
  {
    hide Wrap;
    WrapAdd(-pc, addr);
    assert Eval(e.(offset := Negated(pc)), addr) == if e.bits == Full then WrapSub(addr, pc) else WrapSub(addr, pc) % 0x1_0000;
    ModIdempotent(WrapSub(addr, pc));
  }

  lemma ModIdempotent(x: Word)
    ensures x % 0x1_0000 % 0x1_0000 == x % 0x1_0000
  {
  }

  lemma LastPatched(a: Asm, slot: Slot, inst: Inst, e: Option<Expr>)
    ensures Insts(Keep(a, slot).text[|a.text| := Slot(inst, e)]) == Insts(a.text) + [inst]
  {
  }

  /** Forward or backward, and whatever the stale offset, a branch is one instruction; its
      field is computed from the address it finally has. */
  lemma BackwardBranch(a: Asm, op: Op, rt: Reg, rs: Reg, stale: Word, name: string)
    requires IsBranch(op) && a.Defined(Some(name)) && a.base + 4 * |a.text| < TWO32
    ensures var pc := a.base + 4 * |a.text|;
            Appended(a, Emit(a, ImmStmt(op, rt, rs, stale, Some(name), true)),
                     [IType(op, rt, rs, BranchField(WrapSub(a.symbols[name], pc), a.delayedBranches))])
  {
    hide ITypeInst, BranchField, Appended, Eval;
    var e := TargetExpr(stale, name);
    BranchUnfolds(a, op, rt, rs, e);
    ResolvedBranch(a, op, rt, rs, e, name);
    ResolvedBranch(a, op, rt, rs, LowerOf(e), name);
  }

  lemma BranchUnfolds(a: Asm, op: Op, rt: Reg, rs: Reg, e: Expr)
    requires IsBranch(op) && e.bits == Full
    ensures ITypeInst(a, op, rt, rs, e) ==
            var x := if Splits(a, op, e) then LowerOf(e) else e;
            var slot := Slot(IType(op, rt, rs, 0), Some(x));
            if a.Defined(e.symbol) then StoreResolved(a, slot) else StoreWaiting(a, slot, e.symbol.value)
  {
    hide StoreResolved, StoreWaiting, ProduceImmediate, Eval, Fits;
    HalvesNeverSplit(a, e, op);
    if Splits(a, op, e) {
      assert ITypeInst(a, op, rt, rs, e) == FullWord(a, op, rt, rs, e) == ITypeInst(a, op, rt, rs, LowerOf(e));
    }
  }

  /** Where an expression's PC-relative offset comes from when it is resolved at `pc`. */
  function Rebased(e: Expr, pc: int): Expr {
    if e.pcRelative then e.(offset := Negated(pc)) else e
  }

  /** Storing a resolved instruction that is no load or store appends just that instruction. */
  lemma ResolvedEmits(a: Asm, inst: Inst, e: Expr)
    requires a.Defined(e.symbol) && !IsMem(inst.op)
    ensures var v := Value(a, Rebased(e, a.base + 4 * |a.text|));
            Appended(a, StoreResolved(a, Slot(inst, Some(e))), [Patched(inst, v, a.delayedBranches)])
  {
    hide Patched, Eval, IsMem, Insts, Negated;
    var b, k := Keep(a, Slot(inst, Some(e))), |a.text|;
    var e' := Rebased(e, a.base + 4 * k);
    assert ExprAt(b, k) == e' && Value(b, e') == Value(a, e');
    LastPatched(a, Slot(inst, Some(e)), Patched(inst, Value(a, e'), a.delayedBranches), Some(e'));
  }

  lemma ResolvedBranch(a: Asm, op: Op, rt: Reg, rs: Reg, e: Expr, name: string)
    requires IsBranch(op) && a.Defined(Some(name)) && a.base + 4 * |a.text| < TWO32
    requires e.symbol == Some(name) && e.pcRelative && e.bits != Upper
    ensures var pc := a.base + 4 * |a.text|;
            Appended(a, StoreResolved(a, Slot(IType(op, rt, rs, 0), Some(e))),
                     [IType(op, rt, rs, BranchField(WrapSub(a.symbols[name], pc), a.delayedBranches))])
  {
    hide BranchField, Eval, IsBranch, IsMem, IsJump, WrapSub, StoreResolved, Appended, Negated;
    BranchIsPlain(op);
    var pc := a.base + 4 * |a.text|;
    ResolvedEmits(a, IType(op, rt, rs, 0), e);
    RelativeValue(e, pc, a.symbols[name]);
    FieldIgnoresHigh(Eval(e.(offset := Negated(pc)), a.symbols[name]), a.delayedBranches);
    FieldIgnoresHigh(WrapSub(a.symbols[name], pc), a.delayedBranches);
  }

  lemma BranchIsPlain(op: Op)
    requires IsBranch(op)
    ensures !IsMem(op) && !IsJump(op) && op != LUI
  {
  }

  lemma BranchEmits(a: Asm, op: Op, rt: Reg, rs: Reg, stale: Word, name: string)
    requires IsBranch(op) && !a.Defined(Some(name))
    ensures var e := TargetExpr(stale, name);
            Emit(a, ImmStmt(op, rt, rs, stale, Some(name), true))
            == StoreWaiting(a, Slot(IType(op, rt, rs, 0), Some(if Splits(a, op, e) then LowerOf(e) else e)), name)
  {
    hide ITypeInst, Splits, StoreWaiting, StoreResolved;
    BranchUnfolds(a, op, rt, rs, TargetExpr(stale, name));
  }

  lemma WaitingBranch(a: Asm, op: Op, rt: Reg, rs: Reg, x: Expr, name: string, stmts: seq<Stmt>, addr: Word, line: Option<Stmt>)
    requires WellFormed(a) && IsBranch(op) && !a.Defined(Some(name)) && addr != 0 && a.base + 4 * |a.text| < TWO32
    requires AllSpare(stmts, name) && LineOk(line, name)
    requires x.symbol == Some(name) && x.pcRelative
    ensures var slot := Slot(IType(op, rt, rs, 0), Some(x));
            var after := Define(EmitAll(StoreWaiting(a, slot, name), stmts), name, addr, line);
            var v := Eval(x.(offset := Negated(a.base + 4 * |a.text|)), addr);
            && |a.text| < |after.text|
            && after.text[|a.text|].inst == IType(op, rt, rs, BranchField(v, a.delayedBranches))
  {
    hide WellFormed, EmitAll, BranchField, Eval, IsBranch, IsMem, IsJump, AllSpare, LineOk, Define, HasLui;
    BranchIsPlain(op);
    var n, slot := |a.text|, Slot(IType(op, rt, rs, 0), Some(x));
    var a1 := StoreWaiting(a, slot, name);
    WaitingWellFormed(a, slot, name);
    assert a1.UsesOf(name)[0] == n && a1.text[n] == slot;
    WaitingSettles(a1, n, stmts, name, addr, line);
    assert ExprAt(a1, n) == x.(offset := Negated(a.base + 4 * n));
  }

  /** A forward branch, through any statements to the definition of its label, whatever statement is
      on the label's line. */
  lemma ForwardBranch(a: Asm, op: Op, rt: Reg, rs: Reg, stale: Word, name: string, stmts: seq<Stmt>, addr: Word, line: Option<Stmt>)
    requires WellFormed(a) && IsBranch(op) && !a.Defined(Some(name)) && addr != 0 && a.base + 4 * |a.text| < TWO32
    requires AllSpare(stmts, name) && LineOk(line, name)
    ensures var pc := a.base + 4 * |a.text|;
            var before := EmitAll(Emit(a, ImmStmt(op, rt, rs, stale, Some(name), true)), stmts);
            var after := Define(before, name, addr, line);
            && |a.text| < |after.text|
            && after.text[|a.text|].inst == IType(op, rt, rs, BranchField(WrapSub(addr, pc), a.delayedBranches))
  {
    hide WellFormed, ITypeInst, Emit, EmitAll, StoreWaiting, BranchField, Eval, IsBranch, AllSpare, LineOk, Define, WrapSub, Splits;
    var pc := a.base + 4 * |a.text|;
    var e := TargetExpr(stale, name);
    BranchEmits(a, op, rt, rs, stale, name);
    var x := if Splits(a, op, e) then LowerOf(e) else e;
    WaitingBranch(a, op, rt, rs, x, name, stmts, addr, line);
    RelativeValue(x, pc, addr);
    FieldIgnoresHigh(Eval(x.(offset := Negated(pc)), addr), a.delayedBranches);
    FieldIgnoresHigh(WrapSub(addr, pc), a.delayedBranches);
  }

  /** In the run loop (no delayed branches) a taken branch goes to its landing address. */
  lemma TakenBranchLands(i: Inst, s: State)
    requires FamilyOf(i.op) == Branching
    requires var z := if Links(i.op) then Put(Zeroed(s), RA, Wrap(s.pc + 4)) else Zeroed(s);
             Taken(i.op, z.gpr[i.rs], z.gpr[i.rt])
    ensures Run1(i, s).Some? && Run1(i, s).value.pc == Landing(s.pc, i.imm, false)
  {
    hide Taken, BranchOffset, Wrap, Compute, MulDiv, Trips, ExecLoad, ExecStore, ExecOther, Raise;
    JumpLands(s.pc + BranchOffset(i.imm));
  }

  /** An untaken likely branch skips the next instruction, although nothing is delayed. */
  lemma UntakenLikelySkips(i: Inst, s: State)
    requires FamilyOf(i.op) == Branching && Likely(i.op)
    requires var z := if Links(i.op) then Put(Zeroed(s), RA, Wrap(s.pc + 4)) else Zeroed(s);
             !Taken(i.op, z.gpr[i.rs], z.gpr[i.rt])
    ensures Run1(i, s).Some? && Run1(i, s).value.pc == Wrap(s.pc + 8)
  {
    hide Taken, BranchOffset, Wrap, Compute, MulDiv, Trips, ExecLoad, ExecStore, ExecOther, Raise;
    TwiceNext(s.pc);
  }

  lemma TwiceNext(pc: Word)
    ensures Wrap(Wrap(pc + 4) + 4) == Wrap(pc + 8)
  {
  }

  // ----- jumps -----

  /** `j`/`jal` patched for an address lands there if and only if the address is in the jump's
      own 256 MB region and word aligned. */
  lemma JumpLandsIff(pc: Word, target: Word)
    ensures JumpTarget(pc, target % 0x1000_0000 / 4) == target
            <==> target / 0x1000_0000 == pc / 0x1000_0000 && target % 4 == 0
  {
    var t := target % 0x1000_0000;
    assert target == target / 0x1000_0000 * 0x1000_0000 + t;
    assert t / 4 * 4 == t - t % 4;
    assert target % 4 == t % 4;
  }

  lemma BackwardJump(a: Asm, op: Op, name: string)
    requires IsJump(op) && a.Defined(Some(name))
    ensures Appended(a, Emit(a, JumpStmt(op, Some(name))),
                     [Inst(op, 0, 0, 0, 0, 0, a.symbols[name] % 0x1000_0000 / 4)])
  {
    hide IsMem, StoreResolved, Appended, Wrap;
    JumpIsPlain(op);
    ResolvedEmits(a, Inst(op, 0, 0, 0, 0, 0, 0), Expr(0, Some(name), Full, false));
    NoBase(a.symbols[name]);
  }

  lemma ForwardJump(a: Asm, op: Op, name: string, stmts: seq<Stmt>, addr: Word, line: Option<Stmt>)
    requires WellFormed(a) && IsJump(op) && !a.Defined(Some(name)) && addr != 0
    requires AllSpare(stmts, name) && LineOk(line, name)
    ensures var before := EmitAll(Emit(a, JumpStmt(op, Some(name))), stmts);
            var after := Define(before, name, addr, line);
            && |a.text| < |after.text|
            && after.text[|a.text|].inst == Inst(op, 0, 0, 0, 0, 0, addr % 0x1000_0000 / 4)
  {
    hide WellFormed, EmitAll, AllSpare, LineOk, Define, IsMem, HasLui, Wrap;
    var n, e := |a.text|, Expr(0, Some(name), Full, false);
    var slot := Slot(Inst(op, 0, 0, 0, 0, 0, 0), Some(e));
    var a1 := StoreWaiting(a, slot, name);
    JumpIsPlain(op);
    WaitingWellFormed(a, slot, name);
    assert a1.UsesOf(name)[0] == n && a1.text[n] == slot;
    WaitingSettles(a1, n, stmts, name, addr, line);
    assert ExprAt(a1, n) == e;
    NoBase(addr);
  }

  lemma JumpIsPlain(op: Op)
    requires IsJump(op)
    ensures !IsMem(op) && op != LUI
  {
  }
}
