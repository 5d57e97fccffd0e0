/** Compare-and-branch pseudo-instructions from source to landing: the assembler produces their code
    with the right fields, and running it reaches the label exactly when the relation holds. */
module BranchAssembly {
  import opened Words
  import opened Isa
  import opened Blocks
  import opened Assembler
  import opened Legalise
  import opened WideImmediates
  import opened Fixup
  import opened BranchTargets
  import opened PseudoSteps
  import opened PseudoOps
  import opened PseudoBranches

  /** A branch to a label; `stale` is the offset computed when the line was parsed. */
  function ToLabel(op: Op, rt: Reg, rs: Reg, stale: Word, name: string): Stmt {
    ImmStmt(op, rt, rs, stale, Some(name), true)
  }

  function LabelStmts(onSet: bool, stale: Word, name: string): seq<Stmt> {
    [ToLabel(if onSet then BNE else BEQ, 0, AT, stale, name)]
  }

  /** The statements before the branch to the label, register form. */
  function CompareStmts(r: Relation, rs: Reg, rt: Reg): seq<Stmt> {
    var swap := r == GT || r == GTU || r == LE || r == LEU;
    [RegStmt(if swap then SetLess(Unsigned(r), AT, rt, rs) else SetLess(Unsigned(r), AT, rs, rt))]
  }

  function BranchStmts(r: Relation, rs: Reg, rt: Reg, stale: Word, name: string): seq<Stmt> {
    CompareStmts(r, rs, rt) + LabelStmts(r == GT || r == GTU || r == LT || r == LTU, stale, name)
  }

  /** bgt and ble compare with the immediate plus one. */
  function CompareImmStmt(r: Relation, rs: Reg, v: Word): Stmt {
    ConstStmt(if Unsigned(r) then SLTIU else SLTI, AT, rs, if r == GT || r == LE then Increment(v) else v)
  }

  /** The immediate forms. */
  function BranchImmStmts(r: Relation, rs: Reg, v: Word, stale: Word, name: string): seq<Stmt> {
    match r
    case GTU => [ConstStmt(ORI, AT, 0, v), Skip(BEQ, rs, AT, 3), RegStmt(RType(SLTU, AT, rs, AT))] + LabelStmts(false, stale, name)
    case LEU =>
      ([ConstStmt(ORI, AT, 0, v)] + [ToLabel(BEQ, rs, AT, stale, name)])
      + ([RegStmt(RType(SLTU, AT, rs, AT))] + LabelStmts(true, stale, name))
    case _ =>
      [CompareImmStmt(r, rs, v)] + LabelStmts(r == LE || r == LT || r == LTU, stale, name)
  }

  // ----- assembling -----

  lemma {:induction false} EmitAllSplit(a: Asm, p: seq<Stmt>, q: seq<Stmt>)
    ensures EmitAll(a, p + q) == EmitAll(EmitAll(a, p), q)
    decreases |p|
  {
    hide Emit;
    if p == [] {
      assert p + q == q;
    } else {
      assert (p + q)[1..] == p[1..] + q;
      EmitAllSplit(Emit(a, p[0]), p[1..], q);
    }
  }

  lemma EmitOne(a: Asm, stmt: Stmt)
    ensures EmitAll(a, [stmt]) == Emit(a, stmt)
  {
    hide Emit;
    assert [stmt][1..] == [];
    assert EmitAll(Emit(a, stmt), []) == Emit(a, stmt);
  }

  /** The field of a branch at text index `k` to a defined label. */
  function FieldAt(a: Asm, k: nat, name: string): Half
    requires name in a.symbols
  {
    BranchField(WrapSub(a.symbols[name], a.base + 4 * k), a.delayedBranches)
  }

  ghost predicate Room(a: Asm, n: nat) {
    !a.delayedBranches && a.base + 4 * (|a.text| + n) < TWO32
  }

  lemma AppendedKeeps(a: Asm, b: Asm, code: seq<Inst>)
    requires Appended(a, b, code)
    ensures |b.text| == |a.text| + |code| && b.symbols == a.symbols && b.base == a.base && b.delayedBranches == a.delayedBranches
  {
    assert |Insts(b.text)| == |Insts(a.text) + code|;
  }

  /** Constant statements, then a branch to a defined label. */
  lemma PrefixThenBranch(a: Asm, prefix: seq<Stmt>, code: seq<Inst>, op: Op, rt: Reg, rs: Reg, stale: Word, name: string)
    requires (forall stmt | stmt in prefix :: Constant(stmt)) && Code(prefix) == code
    requires IsBranch(op) && a.Defined(Some(name)) && Room(a, |code| + 1)
    ensures Appended(a, EmitAll(a, prefix + [ToLabel(op, rt, rs, stale, name)]),
                     code + [IType(op, rt, rs, FieldAt(a, |a.text| + |code|, name))])
  {
    hide Appended, Emit, EmitAll, Constant, IsBranch, BranchField, Code, WrapSub;
    var b := EmitAll(a, prefix);
    CodeEmits(a, prefix);
    AppendedKeeps(a, b, code);
    EmitAllSplit(a, prefix, [ToLabel(op, rt, rs, stale, name)]);
    EmitOne(b, ToLabel(op, rt, rs, stale, name));
    BackwardBranch(b, op, rt, rs, stale, name);
    AppendedTrans(a, b, Emit(b, ToLabel(op, rt, rs, stale, name)), code, [IType(op, rt, rs, FieldAt(a, |a.text| + |code|, name))]);
  }

  lemma BothBranch()
    ensures IsBranch(BEQ) && IsBranch(BNE)
  {
  }

  /** The register form assembles to its code, the field taken from where the branch is. */
  lemma BranchAssembles(a: Asm, r: Relation, rs: Reg, rt: Reg, stale: Word, name: string)
    requires IsOrder(r) && a.Defined(Some(name)) && Room(a, 2)
    ensures Appended(a, EmitAll(a, BranchStmts(r, rs, rt, stale, name)), BranchCode(r, rs, rt, FieldAt(a, |a.text| + 1, name)))
  {
    hide Appended, EmitAll, FieldAt, IsBranch, SetLess;
    var prefix := CompareStmts(r, rs, rt);
    var onSet := r == GT || r == GTU || r == LT || r == LTU;
    var inst := BranchCode(r, rs, rt, 0)[0];
    BothBranch();
    Code1(prefix[0]);
    assert Code(prefix) == [inst];
    PrefixThenBranch(a, prefix, [inst], if onSet then BNE else BEQ, 0, AT, stale, name);
    assert [inst] + [LabelBranch(onSet, FieldAt(a, |a.text| + 1, name))] == BranchCode(r, rs, rt, FieldAt(a, |a.text| + 1, name));
  }

  /** Where the code of an assembled block is. */
  function NextPc(a: Asm): int {
    a.base + 4 * |a.text|
  }

  /** From the source line to the landing: a register compare-and-branch to a label in the window goes
      there exactly when its relation holds, and falls through otherwise, changing only `$at`. */
  lemma BranchReaches(a: Asm, r: Relation, rs: Reg, rt: Reg, stale: Word, name: string, s: State)
    requires IsOrder(r) && a.Defined(Some(name)) && Room(a, 3) && a.base % 4 == 0
    requires s.pc == NextPc(a) && !s.exc
    requires var target := a.symbols[name];
             && target % 4 == 0 && (target <= NextPc(a) || target >= NextPc(a) + 8)
             && InWindow(Displacement(NextPc(a) + 4, target), false)
    ensures var code := BranchCode(r, rs, rt, FieldAt(a, |a.text| + 1, name));
            && Appended(a, EmitAll(a, BranchStmts(r, rs, rt, stale, name)), code)
            && BranchOutcome(RunBlock(NextPc(a), code, 0, s), NextPc(a), 2, s, a.symbols[name], Holds(r, Seen(s, rs), Seen(s, rt)))
  {
    hide Appended, EmitAll, BranchField, Landing, Displacement, Holds, RunBlock, BranchOutcome, WrapSub, BranchStmts;
    var f := FieldAt(a, |a.text| + 1, name);
    BranchAssembles(a, r, rs, rt, stale, name);
    BranchLandsIff(NextPc(a) + 4, a.symbols[name], false);
    BranchDecides(NextPc(a), r, rs, rt, f, s, a.symbols[name]);
  }

  // ----- immediate forms -----

  lemma PrefixConstants(op: Op, rt: Reg, rs: Reg, v: Word)
    requires op == ORI || op == SLTI || op == SLTIU
    ensures Constant(ConstStmt(op, rt, rs, v)) && StmtCode(ConstStmt(op, rt, rs, v)) == Legal(op, rt, rs, v)
    ensures Code([ConstStmt(op, rt, rs, v)]) == Legal(op, rt, rs, v)
  {
    hide Legal;
    Code1(ConstStmt(op, rt, rs, v));
  }

  lemma UnsignedPrefix(rs: Reg, v: Word)
    ensures var prefix := [ConstStmt(ORI, AT, 0, v), Skip(BEQ, rs, AT, 3), RegStmt(RType(SLTU, AT, rs, AT))];
            && (forall stmt | stmt in prefix :: Constant(stmt))
            && Code(prefix) == Legal(ORI, AT, 0, v) + [IType(BEQ, rs, AT, 3), RType(SLTU, AT, rs, AT)]
  {
    hide Legal, StmtCode, Constant;
    PrefixConstants(ORI, AT, 0, v);
    SkipConstant(rs);
    var rest := [Skip(BEQ, rs, AT, 3), RegStmt(RType(SLTU, AT, rs, AT))];
    SkipCode(rs);
    OneEachCode(rest, [IType(BEQ, rs, AT, 3), RType(SLTU, AT, rs, AT)]);
    CodeAppend([ConstStmt(ORI, AT, 0, v)], rest);
    assert [ConstStmt(ORI, AT, 0, v)] + rest == [ConstStmt(ORI, AT, 0, v), Skip(BEQ, rs, AT, 3), RegStmt(RType(SLTU, AT, rs, AT))];
  }

  lemma SkipConstant(rs: Reg)
    ensures Constant(Skip(BEQ, rs, AT, 3)) && Constant(RegStmt(RType(SLTU, AT, rs, AT)))
  {
  }

  lemma SkipCode(rs: Reg)
    ensures StmtCode(Skip(BEQ, rs, AT, 3)) == [IType(BEQ, rs, AT, 3)]
    ensures StmtCode(RegStmt(RType(SLTU, AT, rs, AT))) == [RType(SLTU, AT, rs, AT)]
  {
    SkipField(3);
  }

  lemma BgtuAssembles(a: Asm, rs: Reg, v: Word, stale: Word, name: string, g: Half)
    requires a.Defined(Some(name)) && Room(a, |Legal(ORI, AT, 0, v)| + 3)
    ensures Appended(a, EmitAll(a, BranchImmStmts(GTU, rs, v, stale, name)),
                     BranchImmCode(GTU, rs, v, FieldAt(a, |a.text| + |Legal(ORI, AT, 0, v)| + 2, name), g))
  {
    hide Appended, EmitAll, FieldAt, IsBranch, Legal, Code, Constant;
    BothBranch();
    UnsignedPrefix(rs, v);
    var prefix := [ConstStmt(ORI, AT, 0, v), Skip(BEQ, rs, AT, 3), RegStmt(RType(SLTU, AT, rs, AT))];
    PrefixThenBranch(a, prefix, Code(prefix), BEQ, 0, AT, stale, name);
    var f := FieldAt(a, |a.text| + |Code(prefix)|, name);
    assert Code(prefix) + [LabelBranch(false, f)] == BranchImmCode(GTU, rs, v, f, g);
  }

  /** Every immediate form but bleu, which has two branches to the label. */
  lemma BranchImmAssembles(a: Asm, r: Relation, rs: Reg, v: Word, stale: Word, name: string, g: Half)
    requires IsOrder(r) && r != LEU && a.Defined(Some(name)) && Room(a, |BranchImmCode(r, rs, v, 0, g)|)
    ensures var n := |BranchImmCode(r, rs, v, 0, g)|;
            Appended(a, EmitAll(a, BranchImmStmts(r, rs, v, stale, name)),
                     BranchImmCode(r, rs, v, FieldAt(a, |a.text| + n - 1, name), g))
  {
    hide Appended, EmitAll, FieldAt, BranchImmStmts, Legal;
    if r == GTU {
      BgtuAssembles(a, rs, v, stale, name, g);
    } else {
      ComparesAssembles(a, r, rs, v, stale, name, g);
    }
  }

  /** A comparison with the immediate into `$at`, then one branch on it. */
  lemma ComparesAssembles(a: Asm, r: Relation, rs: Reg, v: Word, stale: Word, name: string, g: Half)
    requires IsOrder(r) && r != LEU && r != GTU && a.Defined(Some(name)) && Room(a, |BranchImmCode(r, rs, v, 0, g)|)
    ensures var n := |BranchImmCode(r, rs, v, 0, g)|;
            Appended(a, EmitAll(a, BranchImmStmts(r, rs, v, stale, name)),
                     BranchImmCode(r, rs, v, FieldAt(a, |a.text| + n - 1, name), g))
  {
    hide Appended, EmitAll, FieldAt, IsBranch, Legal, Code, Constant, Increment, ConstStmt, ToLabel;
    BothBranch();
    var onSet := r == LE || r == LT || r == LTU;
    var op, w := if Unsigned(r) then SLTIU else SLTI, if r == GT || r == LE then Increment(v) else v;
    PrefixConstants(op, AT, rs, w);
    PrefixThenBranch(a, [ConstStmt(op, AT, rs, w)], Legal(op, AT, rs, w), if onSet then BNE else BEQ, 0, AT, stale, name);
  }

  /** bleu: equality branches to the label first. */
  lemma BleuAssembles(a: Asm, rs: Reg, v: Word, stale: Word, name: string)
    requires a.Defined(Some(name)) && Room(a, |Legal(ORI, AT, 0, v)| + 3)
    ensures var n := |a.text| + |Legal(ORI, AT, 0, v)|;
            Appended(a, EmitAll(a, BranchImmStmts(LEU, rs, v, stale, name)),
                     BranchImmCode(LEU, rs, v, FieldAt(a, n + 2, name), FieldAt(a, n, name)))
  {
    hide Appended, EmitAll, BranchField, IsBranch, Legal, Code, Constant, WrapSub;
    BothBranch();
    PrefixConstants(ORI, AT, 0, v);
    var first := [ConstStmt(ORI, AT, 0, v)] + [ToLabel(BEQ, rs, AT, stale, name)];
    var n := |a.text| + |Legal(ORI, AT, 0, v)|;
    var code1 := Legal(ORI, AT, 0, v) + [IType(BEQ, rs, AT, FieldAt(a, n, name))];
    PrefixThenBranch(a, [ConstStmt(ORI, AT, 0, v)], Legal(ORI, AT, 0, v), BEQ, rs, AT, stale, name);
    var b := EmitAll(a, first);
    AppendedKeeps(a, b, code1);
    var less := RegStmt(RType(SLTU, AT, rs, AT));
    LessCode(rs);
    PrefixThenBranch(b, [less], [RType(SLTU, AT, rs, AT)], BNE, 0, AT, stale, name);
    EmitAllSplit(a, first, [less] + LabelStmts(true, stale, name));
    var code2 := [RType(SLTU, AT, rs, AT)] + [LabelBranch(true, FieldAt(a, n + 2, name))];
    AppendedTrans(a, b, EmitAll(b, [less] + LabelStmts(true, stale, name)), code1, code2);
    assert code1 + code2 == BranchImmCode(LEU, rs, v, FieldAt(a, n + 2, name), FieldAt(a, n, name));
  }

  lemma LessCode(rs: Reg)
    ensures Constant(RegStmt(RType(SLTU, AT, rs, AT))) && Code([RegStmt(RType(SLTU, AT, rs, AT))]) == [RType(SLTU, AT, rs, AT)]
  {
    Code1(RegStmt(RType(SLTU, AT, rs, AT)));
  }
}
