/** Compare-and-branch pseudo-instructions to a label defined later: whatever is assembled in between,
    the finished text holds their code with the right fields. */
module ForwardBranches {
  import opened Words
  import opened Isa
  import opened Blocks
  import opened Assembler
  import opened Legalise
  import opened WideImmediates
  import opened Fixup
  import opened BranchTargets
  import opened PseudoSteps
  import opened PseudoOps
  import opened PseudoBranches
  import opened BranchAssembly

  // ----- instructions that wait for nothing never change -----

  /** `a'` has the instructions of `a` and perhaps more; every new use is of a new instruction. */
  ghost predicate Adds(a: Asm, a': Asm) {
    && |a.text| <= |a'.text|
    && (forall m | 0 <= m < |a.text| :: a'.text[m].inst == a.text[m].inst)
    && (forall name: string, k: nat | k in a'.UsesOf(name) :: k in a.UsesOf(name) || k >= |a.text|)
  }

  lemma AddsTrans(a: Asm, b: Asm, c: Asm)
    requires Adds(a, b) && Adds(b, c)
    ensures Adds(a, c)
  {
  }

  lemma KeepAdds(a: Asm, slot: Slot)
    ensures Adds(a, Keep(a, slot))
  {
  }

  lemma WaitingAdds(a: Asm, slot: Slot, symbol: string)
    ensures Adds(a, StoreWaiting(a, slot, symbol))
  {
  }

  /** Resolving changes one instruction; the carry changes only an expression. */
  lemma ResolveInst(a: Asm, k: nat, m: nat)
    requires k < |a.text| && m < |a.text| && m != k
    ensures Resolve(a, k).text[m].inst == a.text[m].inst
  {
    hide Patched, Value, IsMem, ExprAt;
  }

  lemma ResolvedAdds(a: Asm, slot: Slot)
    ensures Adds(a, StoreResolved(a, slot))
  {
    hide Resolve;
    var b, k := Keep(a, slot), |a.text|;
    forall m | 0 <= m < |a.text| ensures Resolve(b, k).text[m].inst == a.text[m].inst {
      ResolveInst(b, k, m);
    }
  }

  lemma UnsplitAdds(a: Asm, op: Op, rt: Reg, rs: Reg, e: Expr)
    requires !Splits(a, op, e)
    ensures Adds(a, ITypeInst(a, op, rt, rs, e))
  {
    hide Adds, StoreResolved, StoreWaiting, Fits, Value;
    var slot := Slot(IType(op, rt, rs, 0), Some(e));
    if a.Defined(e.symbol) {
      ResolvedAdds(a, slot);
    } else {
      WaitingAdds(a, slot, e.symbol.value);
    }
  }

  lemma ProduceAdds(a: Asm, e: Expr, rt: Reg)
    ensures Adds(a, ProduceImmediate(a, e, rt))
  {
    hide Adds, ITypeInst, Eval;
    HalvesNeverSplit(a, e, LUI);
    HalvesNeverSplit(a, e, ORI);
    UnsplitAdds(a, LUI, rt, 0, UpperOf(e));
    UnsplitAdds(a, ORI, rt, 0, LowerOf(e));
    UnsplitAdds(a, LUI, AT, 0, UpperOf(e));
    var b := ITypeInst(a, LUI, AT, 0, UpperOf(e));
    HalvesNeverSplit(b, e, ORI);
    UnsplitAdds(b, ORI, rt, AT, LowerOf(e));
    AddsTrans(a, b, ITypeInst(b, ORI, rt, AT, LowerOf(e)));
  }

  lemma AccessAdds(a: Asm, op: Op, rt: Reg, rs: Reg, high: Expr, low: Expr)
    requires !Splits(a, LUI, high) && forall b: Asm :: !Splits(b, op, low)
    ensures var a1 := ITypeInst(a, LUI, AT, 0, high);
            var a2 := if rs != 0 then RTypeInst(a1, ADDU, AT, AT, rs) else a1;
            Adds(a, ITypeInst(a2, op, rt, AT, low))
  {
    hide Adds, ITypeInst, Splits;
    var a1 := ITypeInst(a, LUI, AT, 0, high);
    UnsplitAdds(a, LUI, AT, 0, high);
    var a2 := if rs != 0 then RTypeInst(a1, ADDU, AT, AT, rs) else a1;
    KeepAdds(a1, Slot(RType(ADDU, AT, AT, rs), None));
    if rs != 0 {
      AddsTrans(a, a1, a2);
    }
    UnsplitAdds(a2, op, rt, AT, low);
    AddsTrans(a, a2, ITypeInst(a2, op, rt, AT, low));
  }

  lemma NeverSplits(op: Op, e: Expr)
    requires IsMem(op) || IsBranch(op)
    ensures forall b: Asm :: !Splits(b, op, LowerOf(e)) && !Splits(b, LUI, UpperOf(e))
  {
    hide Splits, IsMem, IsBranch;
    forall b: Asm ensures !Splits(b, op, LowerOf(e)) && !Splits(b, LUI, UpperOf(e)) {
      HalvesNeverSplit(b, e, op);
      HalvesNeverSplit(b, e, LUI);
    }
  }

  lemma MemAdds(a: Asm, op: Op, rt: Reg, rs: Reg, e: Expr)
    requires IsMem(op) && e.bits == Full && Splits(a, op, e)
    ensures Adds(a, ITypeInst(a, op, rt, rs, e))
  {
    hide Adds, ITypeInst, FullWord, IsMem, Eval, CarriedHigh, Fits;
    if a.Defined(e.symbol) {
      var v := Value(a, e);
      AccessUnfolds(a, op, rt, rs, e);
      ConstSplits(a, LUI, CarriedHigh(v));
      NeverSplits(op, Const(v % 0x1_0000));
      AccessAdds(a, op, rt, rs, Const(CarriedHigh(v)), LowerOf(Const(v % 0x1_0000)));
    } else {
      WaitingAccessUnfolds(a, op, rt, rs, e);
      NeverSplits(op, e);
      AccessAdds(a, op, rt, rs, UpperOf(e), LowerOf(e));
    }
  }

  lemma ComputeAdds(a: Asm, op: Op, rt: Reg, rs: Reg, e: Expr)
    requires !IsMem(op) && Splits(a, op, e)
    ensures Adds(a, ITypeInst(a, op, rt, rs, e))
  {
    hide Adds, ProduceImmediate, RegisterForm, Fits, Eval, StoreResolved, StoreWaiting, IsMem, IsBranch;
    assert ITypeInst(a, op, rt, rs, e) == FullWord(a, op, rt, rs, e);
    if IsBranch(op) {
      NeverSplits(op, e);
      UnsplitAdds(a, op, rt, rs, LowerOf(e));
    } else {
      ProduceAdds(a, e, rt);
      ProduceAdds(a, e, AT);
      var b := ProduceImmediate(a, e, AT);
      if RegisterForm(op).Some? {
        var slot := Slot(RType(RegisterForm(op).value, rt, rs, AT), None);
        KeepAdds(b, slot);
        AddsTrans(a, b, Keep(b, slot));
      }
    }
  }

  lemma StatementAdds(a: Asm, stmt: Stmt)
    requires !stmt.LabelStmt?
    ensures Adds(a, Emit(a, stmt))
  {
    hide Adds, ITypeInst, StoreResolved, StoreWaiting, IsMem, Splits;
    match stmt
    case RegStmt(inst) => KeepAdds(a, Slot(inst, None));
    case JumpStmt(op, symbol) =>
      var slot := Slot(Inst(op, 0, 0, 0, 0, 0, 0), Some(Expr(0, symbol, Full, false)));
      if a.Defined(symbol) {
        ResolvedAdds(a, slot);
      } else {
        WaitingAdds(a, slot, symbol.value);
      }
    case ImmStmt(op, rt, rs, offset, symbol, rel) =>
      var e := Expr(offset, symbol, Full, rel);
      if !Splits(a, op, e) {
        UnsplitAdds(a, op, rt, rs, e);
      } else if IsMem(op) {
        MemAdds(a, op, rt, rs, e);
      } else {
        ComputeAdds(a, op, rt, rs, e);
      }
  }

  /** No label's list holds `m`. */
  ghost predicate NotWaiting(a: Asm, m: nat) {
    m < |a.text| && forall name: string :: m !in a.UsesOf(name)
  }

  lemma {:induction false} ResolveUsesInst(a: Asm, us: seq<nat>, m: nat)
    requires m < |a.text| && m !in us
    ensures ResolveUses(a, us).text[m].inst == a.text[m].inst
    decreases |us|
  {
    hide Resolve;
    if us != [] {
      var b := if us[0] < |a.text| then Resolve(a, us[0]) else a;
      if us[0] < |a.text| {
        ResolveInst(a, us[0], m);
      }
      ResolveUsesInst(b, us[1..], m);
    }
  }

  lemma SettleKeeps(a: Asm, name: string, m: nat)
    requires NotWaiting(a, m)
    ensures var a' := Settle(a, name); NotWaiting(a', m) && a'.text[m].inst == a.text[m].inst
  {
    hide ResolveUses;
    ResolveUsesInst(a, a.UsesOf(name), m);
    var a' := Settle(a, name);
    forall other: string ensures m !in a'.UsesOf(other) {
      assert m !in a.UsesOf(other);
    }
  }

  lemma AddsKeeps(a: Asm, a': Asm, m: nat)
    requires Adds(a, a') && NotWaiting(a, m)
    ensures NotWaiting(a', m) && a'.text[m].inst == a.text[m].inst
  {
  }

  lemma EmitKeepsInst(a: Asm, stmt: Stmt, m: nat)
    requires NotWaiting(a, m)
    ensures var a' := Emit(a, stmt); NotWaiting(a', m) && a'.text[m].inst == a.text[m].inst
    decreases stmt
  {
    hide Adds, Settle, Record, NotWaiting;
    if stmt.LabelStmt? {
      var b := Record(a, stmt.name, stmt.addr);
      RecordKeeps(a, stmt.name, stmt.addr, m);
      if stmt.line.Some? {
        EmitKeepsInst(b, stmt.line.value, m);
        SettleKeeps(Emit(b, stmt.line.value), stmt.name, m);
      } else {
        SettleKeeps(b, stmt.name, m);
      }
    } else {
      StatementAdds(a, stmt);
      AddsKeeps(a, Emit(a, stmt), m);
    }
  }

  lemma RecordKeeps(a: Asm, name: string, addr: Word, m: nat)
    requires NotWaiting(a, m)
    ensures var b := Record(a, name, addr); NotWaiting(b, m) && b.text == a.text
  {
    assert forall other: string :: Record(a, name, addr).UsesOf(other) == a.UsesOf(other);
  }

  lemma {:induction false} EmitAllKeepsInst(a: Asm, stmts: seq<Stmt>, m: nat)
    requires NotWaiting(a, m)
    ensures var a' := EmitAll(a, stmts); NotWaiting(a', m) && a'.text[m].inst == a.text[m].inst
    decreases |stmts|
  {
    hide Emit, NotWaiting;
    if stmts != [] {
      EmitKeepsInst(a, stmts[0], m);
      EmitAllKeepsInst(Emit(a, stmts[0]), stmts[1..], m);
    }
  }

  /** Freshly appended code that waits for nothing is in the finished text as it was. */
  lemma CodeStays(a: Asm, b: Asm, code: seq<Inst>, stmts: seq<Stmt>, name: string, addr: Word, line: Option<Stmt>, m: nat)
    requires WellFormed(a) && Appended(a, b, code) && |a.text| <= m < |a.text| + |code|
    ensures var after := Define(EmitAll(b, stmts), name, addr, line);
            m < |after.text| && after.text[m].inst == code[m - |a.text|]
  {
    hide EmitAll, Emit, WellFormed;
    FreshNotWaiting(a, b, code, m);
    EmitAllKeepsInst(b, stmts, m);
    EmitKeepsInst(EmitAll(b, stmts), LabelStmt(name, addr, line), m);
  }

  lemma FreshNotWaiting(a: Asm, b: Asm, code: seq<Inst>, m: nat)
    requires WellFormed(a) && Appended(a, b, code) && |a.text| <= m < |a.text| + |code|
    ensures NotWaiting(b, m) && b.text[m].inst == code[m - |a.text|]
  {
    hide WellFormed;
    AppendedKeeps(a, b, code);
    assert Insts(b.text)[m] == (Insts(a.text) + code)[m];
    forall name: string ensures m !in b.UsesOf(name) {
      assert b.UsesOf(name) == a.UsesOf(name);
      UsesName(a, name);
    }
  }

  // ----- constant statements, then a branch to an undefined label -----

  /** The instructions at index `n`. */
  ghost predicate TextHas(a: Asm, n: nat, code: seq<Inst>) {
    n + |code| <= |a.text| && forall m: nat | m < |code| :: a.text[n + m].inst == code[m]
  }

  /** The field of a branch at text index `k` to `addr`. */
  function FieldTo(a: Asm, k: nat, addr: Word): Half {
    BranchField(WrapSub(addr, a.base + 4 * k), a.delayedBranches)
  }

  lemma ConstantsProper(stmts: seq<Stmt>, name: string)
    requires forall stmt | stmt in stmts :: Constant(stmt)
    ensures AllSpare(stmts, name)
  {
    hide IsMem, IsBranch, IsJump;
  }

  lemma PrefixThenForward(a: Asm, prefix: seq<Stmt>, code: seq<Inst>, op: Op, rt: Reg, rs: Reg, stale: Word, name: string,
                          stmts: seq<Stmt>, addr: Word, line: Option<Stmt>)
    requires WellFormed(a) && (forall stmt | stmt in prefix :: Constant(stmt)) && Code(prefix) == code
    requires IsBranch(op) && !a.Defined(Some(name)) && addr != 0 && Room(a, |code| + 1)
    requires AllSpare(stmts, name) && LineOk(line, name)
    ensures var b := EmitAll(a, prefix + [ToLabel(op, rt, rs, stale, name)]);
            TextHas(Define(EmitAll(b, stmts), name, addr, line), |a.text|, code + [IType(op, rt, rs, FieldTo(a, |a.text| + |code|, addr))])
  {
    hide WellFormed, Emit, EmitAll, Constant, IsBranch, BranchField, Code, WrapSub, AllSpare, LineOk, Appended, Define, Grows;
    var b := EmitAll(a, prefix);
    CodeEmits(a, prefix);
    AppendedKeeps(a, b, code);
    ConstantsProper(prefix, name);
    EmitAllGrows(a, prefix, name);
    var stmt := ToLabel(op, rt, rs, stale, name);
    EmitAllSplit(a, prefix, [stmt]);
    EmitOne(b, stmt);
    ForwardBranch(b, op, rt, rs, stale, name, stmts, addr, line);
    var after := Define(EmitAll(Emit(b, stmt), stmts), name, addr, line);
    EmitAllSplit(b, [stmt], stmts);
    forall m: nat | m < |code| ensures |a.text| + m < |after.text| && after.text[|a.text| + m].inst == code[m] {
      CodeStays(a, b, code, [stmt] + stmts, name, addr, line, |a.text| + m);
    }
  }

  // ----- the forms -----

  lemma TextHasIs(a: Asm, n: nat, code: seq<Inst>, code': seq<Inst>)
    requires TextHas(a, n, code) && code == code'
    ensures TextHas(a, n, code')
  {
  }

  /** The register form before its label: in the finished text, its code with the field of where the
      branch is. */
  lemma ForwardBranchAssembles(a: Asm, r: Relation, rs: Reg, rt: Reg, stale: Word, name: string,
                               stmts: seq<Stmt>, addr: Word, line: Option<Stmt>)
    requires WellFormed(a) && IsOrder(r) && !a.Defined(Some(name)) && addr != 0 && Room(a, 2)
    requires AllSpare(stmts, name) && LineOk(line, name)
    ensures var after := Define(EmitAll(EmitAll(a, BranchStmts(r, rs, rt, stale, name)), stmts), name, addr, line);
            TextHas(after, |a.text|, BranchCode(r, rs, rt, FieldTo(a, |a.text| + 1, addr)))
  {
    hide WellFormed, EmitAll, FieldTo, IsBranch, SetLess, TextHas, Define, AllSpare, LineOk;
    var prefix := CompareStmts(r, rs, rt);
    var onSet := r == GT || r == GTU || r == LT || r == LTU;
    var inst := BranchCode(r, rs, rt, 0)[0];
    BothBranch();
    Code1(prefix[0]);
    assert Code(prefix) == [inst];
    PrefixThenForward(a, prefix, [inst], if onSet then BNE else BEQ, 0, AT, stale, name, stmts, addr, line);
    assert [inst] + [LabelBranch(onSet, FieldTo(a, |a.text| + 1, addr))] == BranchCode(r, rs, rt, FieldTo(a, |a.text| + 1, addr));
  }

  lemma ForwardBgtuAssembles(a: Asm, rs: Reg, v: Word, stale: Word, name: string, g: Half,
                             stmts: seq<Stmt>, addr: Word, line: Option<Stmt>)
    requires WellFormed(a) && !a.Defined(Some(name)) && addr != 0 && Room(a, |Legal(ORI, AT, 0, v)| + 3)
    requires AllSpare(stmts, name) && LineOk(line, name)
    ensures var after := Define(EmitAll(EmitAll(a, BranchImmStmts(GTU, rs, v, stale, name)), stmts), name, addr, line);
            TextHas(after, |a.text|, BranchImmCode(GTU, rs, v, FieldTo(a, |a.text| + |Legal(ORI, AT, 0, v)| + 2, addr), g))
  {
    hide WellFormed, EmitAll, FieldTo, IsBranch, Legal, Code, Constant, TextHas, Define, AllSpare, LineOk;
    BothBranch();
    UnsignedPrefix(rs, v);
    var prefix := [ConstStmt(ORI, AT, 0, v), Skip(BEQ, rs, AT, 3), RegStmt(RType(SLTU, AT, rs, AT))];
    PrefixThenForward(a, prefix, Code(prefix), BEQ, 0, AT, stale, name, stmts, addr, line);
    var f := FieldTo(a, |a.text| + |Code(prefix)|, addr);
    assert Code(prefix) + [LabelBranch(false, f)] == BranchImmCode(GTU, rs, v, f, g);
  }

  /** Every immediate form but bleu. */
  lemma ForwardBranchImmAssembles(a: Asm, r: Relation, rs: Reg, v: Word, stale: Word, name: string, g: Half,
                                  stmts: seq<Stmt>, addr: Word, line: Option<Stmt>)
    requires WellFormed(a) && IsOrder(r) && r != LEU && !a.Defined(Some(name)) && addr != 0
    requires Room(a, |BranchImmCode(r, rs, v, 0, g)|) && AllSpare(stmts, name) && LineOk(line, name)
    ensures var n := |BranchImmCode(r, rs, v, 0, g)|;
            var after := Define(EmitAll(EmitAll(a, BranchImmStmts(r, rs, v, stale, name)), stmts), name, addr, line);
            TextHas(after, |a.text|, BranchImmCode(r, rs, v, FieldTo(a, |a.text| + n - 1, addr), g))
  {
    hide WellFormed, EmitAll, FieldTo, IsBranch, Legal, Code, Constant, Increment, ConstStmt, ToLabel, TextHas, Define, AllSpare,
      LineOk;
    if r == GTU {
      ForwardBgtuAssembles(a, rs, v, stale, name, g, stmts, addr, line);
    } else {
      BothBranch();
      var onSet := r == LE || r == LT || r == LTU;
      var op, w := if Unsigned(r) then SLTIU else SLTI, if r == GT || r == LE then Increment(v) else v;
      PrefixConstants(op, AT, rs, w);
      PrefixThenForward(a, [ConstStmt(op, AT, rs, w)], Legal(op, AT, rs, w), if onSet then BNE else BEQ, 0, AT, stale, name,
                        stmts, addr, line);
    }
  }

  lemma SpareLabel(op: Op, rt: Reg, rs: Reg, stale: Word, name: string, less: Inst, stmts: seq<Stmt>)
    requires IsBranch(op) && AllSpare(stmts, name)
    ensures AllSpare([RegStmt(less)] + [ToLabel(op, rt, rs, stale, name)] + stmts, name)
  {
    hide IsMem, IsBranch;
    BranchIsPlain(op);
  }

  /** bleu: both branches wait for the label; each gets the field of its own address. */
  lemma ForwardBleuAssembles(a: Asm, rs: Reg, v: Word, stale: Word, name: string,
                             stmts: seq<Stmt>, addr: Word, line: Option<Stmt>)
    requires WellFormed(a) && !a.Defined(Some(name)) && addr != 0 && Room(a, |Legal(ORI, AT, 0, v)| + 3)
    requires AllSpare(stmts, name) && LineOk(line, name)
    ensures var n := |a.text| + |Legal(ORI, AT, 0, v)|;
            var after := Define(EmitAll(EmitAll(a, BranchImmStmts(LEU, rs, v, stale, name)), stmts), name, addr, line);
            TextHas(after, |a.text|, BranchImmCode(LEU, rs, v, FieldTo(a, n + 2, addr), FieldTo(a, n, addr)))
  {
    hide WellFormed, Emit, EmitAll, BranchField, IsBranch, Legal, Code, Constant, WrapSub, TextHas, Define, AllSpare, LineOk, Grows;
    BothBranch();
    PrefixConstants(ORI, AT, 0, v);
    var load, first := [ConstStmt(ORI, AT, 0, v)], ToLabel(BEQ, rs, AT, stale, name);
    var less := RType(SLTU, AT, rs, AT);
    var last := [RegStmt(less)] + LabelStmts(true, stale, name);
    SpareLabel(BNE, 0, AT, stale, name, less, stmts);
    PrefixThenForward(a, load, Legal(ORI, AT, 0, v), BEQ, rs, AT, stale, name, last + stmts, addr, line);
    var b := EmitAll(a, load + [first]);
    BleuMiddle(a, load, first, v, b);
    LessCode(rs);
    PrefixThenForward(b, [RegStmt(less)], [less], BNE, 0, AT, stale, name, stmts, addr, line);
    EmitAllSplit(a, load + [first], last);
    EmitAllSplit(b, last, stmts);
    var after := Define(EmitAll(EmitAll(a, BranchImmStmts(LEU, rs, v, stale, name)), stmts), name, addr, line);
    var n := |a.text| + |Legal(ORI, AT, 0, v)|;
    var head := Legal(ORI, AT, 0, v) + [IType(BEQ, rs, AT, FieldTo(a, n, addr))];
    var tail := [less] + [LabelBranch(true, FieldTo(a, n + 2, addr))];
    JoinHolds(after, |a.text|, head, tail);
    TextHasIs(after, |a.text|, head + tail, BranchImmCode(LEU, rs, v, FieldTo(a, n + 2, addr), FieldTo(a, n, addr)));
  }

  lemma JoinHolds(a: Asm, n: nat, code: seq<Inst>, code': seq<Inst>)
    requires TextHas(a, n, code) && TextHas(a, n + |code|, code')
    ensures TextHas(a, n, code + code')
  {
    forall m: nat | m < |code + code'| ensures n + m < |a.text| && a.text[n + m].inst == (code + code')[m] {
      if m >= |code| {
        assert a.text[(n + |code|) + (m - |code|)].inst == code'[m - |code|];
      }
    }
  }

  /** After the first branch of bleu: well formed, the label still undefined, one more instruction. */
  lemma BleuMiddle(a: Asm, load: seq<Stmt>, first: Stmt, v: Word, b: Asm)
    requires WellFormed(a) && load == [ConstStmt(ORI, AT, 0, v)] && Room(a, |Legal(ORI, AT, 0, v)| + 3)
    requires first.ImmStmt? && IsBranch(first.op) && first.symbol.Some? && first.pcRelative && !a.Defined(first.symbol)
    requires b == EmitAll(a, load + [first])
    ensures WellFormed(b) && !b.Defined(first.symbol) && Room(b, 2)
    ensures |b.text| == |a.text| + |Legal(ORI, AT, 0, v)| + 1 && b.base == a.base && b.delayedBranches == a.delayedBranches
  {
    hide WellFormed, Emit, EmitAll, Legal, Code, Constant, Appended, Grows, IsBranch, StoreWaiting, Splits;
    var name := first.symbol.value;
    PrefixConstants(ORI, AT, 0, v);
    CodeEmits(a, load);
    var c := EmitAll(a, load);
    AppendedKeeps(a, c, Legal(ORI, AT, 0, v));
    ConstantsProper(load, name);
    EmitAllGrows(a, load, name);
    EmitAllSplit(a, load, [first]);
    EmitOne(c, first);
    BranchIsPlain(first.op);
    FirstProper(first, name);
    EmitGrows(c, first, name);
    BranchEmits(c, first.op, first.rt, first.rs, first.offset, name);
    WaitingLength(c, first);
  }

  lemma FirstProper(stmt: Stmt, name: string)
    requires stmt.ImmStmt? && !IsMem(stmt.op)
    ensures Proper(stmt) && Spares(stmt, name)
  {
  }

  lemma WaitingLength(a: Asm, stmt: Stmt)
    requires stmt.ImmStmt? && stmt.symbol.Some?
    ensures forall slot: Slot :: var b := StoreWaiting(a, slot, stmt.symbol.value);
              |b.text| == |a.text| + 1 && b.base == a.base && b.delayedBranches == a.delayedBranches
  {
  }

  // ----- landing -----

  /** From the source line to the landing, the label defined later, whatever is assembled in between:
      a register compare-and-branch reaches the label exactly when its relation holds. */
  lemma ForwardBranchReaches(a: Asm, r: Relation, rs: Reg, rt: Reg, stale: Word, name: string,
                             stmts: seq<Stmt>, addr: Word, line: Option<Stmt>, s: State)
    requires WellFormed(a) && IsOrder(r) && !a.Defined(Some(name)) && addr != 0 && Room(a, 3) && a.base % 4 == 0
    requires AllSpare(stmts, name) && LineOk(line, name) && s.pc == NextPc(a) && !s.exc
    requires addr % 4 == 0 && (addr <= NextPc(a) || addr >= NextPc(a) + 8) && InWindow(Displacement(NextPc(a) + 4, addr), false)
    ensures var after := Define(EmitAll(EmitAll(a, BranchStmts(r, rs, rt, stale, name)), stmts), name, addr, line);
            var code := BranchCode(r, rs, rt, FieldTo(a, |a.text| + 1, addr));
            && TextHas(after, |a.text|, code)
            && BranchOutcome(RunBlock(NextPc(a), code, 0, s), NextPc(a), 2, s, addr, Holds(r, Seen(s, rs), Seen(s, rt)))
  {
    hide WellFormed, EmitAll, BranchField, Landing, Displacement, Holds, RunBlock, BranchOutcome, WrapSub, BranchStmts,
      TextHas, Define, AllSpare, LineOk;
    ForwardBranchAssembles(a, r, rs, rt, stale, name, stmts, addr, line);
    BranchLandsIff(NextPc(a) + 4, addr, false);
    BranchDecides(NextPc(a), r, rs, rt, FieldTo(a, |a.text| + 1, addr), s, addr);
  }

  /** What the immediate forms need of their label: outside the expansion, and in the window of every
      branch to it. */
  ghost predicate Reachable(pc: int, r: Relation, n: nat, addr: Word) {
    && 0 <= pc && pc % 4 == 0 && pc + 4 * n < TWO32 && n >= 1 && (r == LEU ==> n >= 3)
    && addr % 4 == 0 && (addr <= pc || addr > pc + 4 * n)
    && InWindow(Displacement(pc + 4 * n - 4, addr), false)
    && (r == LEU ==> InWindow(Displacement(pc + 4 * n - 12, addr), false))
  }

  /** Running the immediate form with fields for a reachable label. */
  lemma ImmLands(base: Word, r: Relation, rs: Reg, v: Word, f: Half, g: Half, s: State, addr: Word)
    requires IsOrder(r) && rs != AT && s.pc == base && !s.exc
    requires var n := |BranchImmCode(r, rs, v, f, g)|;
             && Reachable(base, r, n, addr)
             && f == BranchField(WrapSub(addr, base + 4 * n - 4), false)
             && (r == LEU ==> g == BranchField(WrapSub(addr, base + 4 * n - 12), false))
    ensures var code := BranchImmCode(r, rs, v, f, g);
            BranchOutcome(RunBlock(base, code, 0, s), base, |code|, s, addr, Holds(r, Seen(s, rs), v))
            <==> !((r == GT || r == LE) && v == 0x7fff_ffff)
  {
    hide BranchImmCode, BranchField, Landing, Displacement, Holds, RunBlock, BranchOutcome, WrapSub, Seen;
    var n := |BranchImmCode(r, rs, v, f, g)|;
    BranchLandsIff(base + 4 * n - 4, addr, false);
    if r == LEU {
      BranchLandsIff(base + 4 * n - 12, addr, false);
    }
    BranchImmDecidesIff(base, r, rs, v, f, g, s, addr);
  }

  lemma ImmLength(r: Relation, rs: Reg, v: Word, f: Half, g: Half, f': Half, g': Half)
    ensures |BranchImmCode(r, rs, v, f, g)| == |BranchImmCode(r, rs, v, f', g')| >= 1
    ensures r == LEU ==> |BranchImmCode(r, rs, v, f, g)| == |Legal(ORI, AT, 0, v)| + 3
  {
    hide Legal;
  }

  /** Source to landing for the immediate forms, the label defined before or after. `code` is what the
      text holds; it branches exactly on the relation, except bgt and ble against 2^31 - 1. */
  lemma BranchImmReachesIff(a: Asm, r: Relation, rs: Reg, v: Word, stale: Word, name: string, s: State)
    requires IsOrder(r) && rs != AT && a.Defined(Some(name)) && s.pc == NextPc(a) && !s.exc
    requires var n := |BranchImmCode(r, rs, v, 0, 0)|;
             Room(a, n) && Reachable(NextPc(a), r, n, a.symbols[name])
    ensures var n, k := |BranchImmCode(r, rs, v, 0, 0)|, |a.text|;
            var code := BranchImmCode(r, rs, v, FieldAt(a, k + n - 1, name), if r == LEU then FieldAt(a, k + n - 3, name) else 0);
            && Appended(a, EmitAll(a, BranchImmStmts(r, rs, v, stale, name)), code)
            && (BranchOutcome(RunBlock(NextPc(a), code, 0, s), NextPc(a), n, s, a.symbols[name], Holds(r, Seen(s, rs), v))
                <==> !((r == GT || r == LE) && v == 0x7fff_ffff))
  {
    hide BranchImmCode, BranchImmStmts, BranchField, Holds, RunBlock, BranchOutcome, WrapSub, Appended, EmitAll, Reachable,
      Legal;
    var n, k := |BranchImmCode(r, rs, v, 0, 0)|, |a.text|;
    ImmLength(r, rs, v, 0, 0, 0, 0);
    if r == LEU {
      BleuAssembles(a, rs, v, stale, name);
    } else {
      BranchImmAssembles(a, r, rs, v, stale, name, 0);
    }
    var f, g := FieldAt(a, k + n - 1, name), if r == LEU then FieldAt(a, k + n - 3, name) else 0;
    ImmLength(r, rs, v, 0, 0, f, g);
    ImmLands(NextPc(a), r, rs, v, f, g, s, a.symbols[name]);
  }

  lemma ForwardBranchImmReachesIff(a: Asm, r: Relation, rs: Reg, v: Word, stale: Word, name: string,
                                   stmts: seq<Stmt>, addr: Word, line: Option<Stmt>, s: State)
    requires WellFormed(a) && IsOrder(r) && rs != AT && !a.Defined(Some(name)) && addr != 0 && s.pc == NextPc(a) && !s.exc
    requires AllSpare(stmts, name) && LineOk(line, name)
    requires var n := |BranchImmCode(r, rs, v, 0, 0)|;
             Room(a, n) && Reachable(NextPc(a), r, n, addr)
    ensures var n, k := |BranchImmCode(r, rs, v, 0, 0)|, |a.text|;
            var after := Define(EmitAll(EmitAll(a, BranchImmStmts(r, rs, v, stale, name)), stmts), name, addr, line);
            var code := BranchImmCode(r, rs, v, FieldTo(a, k + n - 1, addr), if r == LEU then FieldTo(a, k + n - 3, addr) else 0);
            && TextHas(after, k, code)
            && (BranchOutcome(RunBlock(NextPc(a), code, 0, s), NextPc(a), n, s, addr, Holds(r, Seen(s, rs), v))
                <==> !((r == GT || r == LE) && v == 0x7fff_ffff))
  {
    hide BranchImmCode, BranchImmStmts, BranchField, Holds, RunBlock, BranchOutcome, WrapSub, TextHas, EmitAll, Reachable,
      Legal, WellFormed, Define, AllSpare, LineOk;
    var n, k := |BranchImmCode(r, rs, v, 0, 0)|, |a.text|;
    ImmLength(r, rs, v, 0, 0, 0, 0);
    if r == LEU {
      ForwardBleuAssembles(a, rs, v, stale, name, stmts, addr, line);
    } else {
      ForwardBranchImmAssembles(a, r, rs, v, stale, name, 0, stmts, addr, line);
    }
    var f, g := FieldTo(a, k + n - 1, addr), if r == LEU then FieldTo(a, k + n - 3, addr) else 0;
    ImmLength(r, rs, v, 0, 0, f, g);
    ImmLands(NextPc(a), r, rs, v, f, g, s, addr);
  }
}
