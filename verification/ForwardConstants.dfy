/** Computing instructions whose immediate names a label defined later (`la` among them): the code
    they leave behind, and that running it computes with the label's address. */
module ForwardConstants {
  import opened Words
  import opened Isa
  import opened Blocks
  import opened Assembler
  import opened Legalise
  import opened WideImmediates
  import opened Fixup

  predicate IsConstant(op: Op) {
    !IsMem(op) && !IsBranch(op) && !IsJump(op)
  }

  /** The constant goes straight to the destination. */
  predicate Direct(op: Op, rs: Reg) {
    rs == 0 && (op == ORI || op == ADDI || op == ADDIU || op == LUI)
  }

  function ConstReg(op: Op, rt: Reg, rs: Reg): Reg {
    if Direct(op, rs) then rt else AT
  }

  /** The instruction after the constant, if there is one. */
  function Tail(op: Op, rt: Reg, rs: Reg): seq<Inst> {
    if Direct(op, rs) then [] else match RegisterForm(op) case Some(rop) => [RType(rop, rt, rs, AT)] case None => []
  }

  /** The code for the 32-bit value `v`, always in two halves. */
  function ForwardCode(op: Op, rt: Reg, rs: Reg, v: Word): seq<Inst> {
    [IType(LUI, AT, 0, v / 0x1_0000), IType(ORI, ConstReg(op, rt, rs), AT, v % 0x1_0000)] + Tail(op, rt, rs)
  }

  // ----- emitting -----

  function TailSlots(op: Op, rt: Reg, rs: Reg): seq<Slot> {
    if Tail(op, rt, rs) == [] then [] else [Slot(Tail(op, rt, rs)[0], None)]
  }

  /** The slots waiting for the label. */
  function ConstSlots(op: Op, rt: Reg, rs: Reg, e: Expr): seq<Slot> {
    [Slot(IType(LUI, AT, 0, 0), Some(UpperOf(e))), Slot(IType(ORI, ConstReg(op, rt, rs), AT, 0), Some(LowerOf(e)))]
      + TailSlots(op, rt, rs)
  }

  lemma SplitConstant(a: Asm, op: Op, rt: Reg, rs: Reg, e: Expr)
    requires !a.Defined(e.symbol) && e.bits == Full && IsConstant(op)
    ensures var b := ProduceImmediate(a, e, ConstReg(op, rt, rs));
            ITypeInst(a, op, rt, rs, e) == if Tail(op, rt, rs) == [] then b else Keep(b, TailSlots(op, rt, rs)[0])
  {
    hide ProduceImmediate, StoreResolved, StoreWaiting, Value, Fits, IsMem, IsBranch, IsJump, RegisterForm;
    assert ITypeInst(a, op, rt, rs, e) == FullWord(a, op, rt, rs, e);
  }

  lemma ProduceWaits(a: Asm, e: Expr, rt: Reg, name: string)
    requires !a.Defined(Some(name)) && e.symbol == Some(name)
    ensures var n := |a.text|;
            ProduceImmediate(a, e, rt) ==
            a.(text := a.text + [Slot(IType(LUI, AT, 0, 0), Some(UpperOf(e))), Slot(IType(ORI, rt, AT, 0), Some(LowerOf(e)))],
               uses := a.uses[name := [n + 1, n] + a.UsesOf(name)])
  {
    hide ITypeInst, Value;
    var a1 := ITypeInst(a, LUI, AT, 0, UpperOf(e));
    WaitingUnsplit(a, LUI, AT, 0, UpperOf(e));
    WaitingUnsplit(a1, ORI, rt, AT, LowerOf(e));
    assert a1.UsesOf(name) == [|a.text|] + a.UsesOf(name);
    assert [|a.text| + 1] + ([|a.text|] + a.UsesOf(name)) == [|a.text| + 1, |a.text|] + a.UsesOf(name);
  }

  lemma ConstantWaits(a: Asm, op: Op, rt: Reg, rs: Reg, offset: Word, name: string)
    requires !a.Defined(Some(name)) && IsConstant(op)
    ensures var a1, n := ITypeInst(a, op, rt, rs, AccessExpr(offset, name)), |a.text|;
            && a1.text == a.text + ConstSlots(op, rt, rs, AccessExpr(offset, name))
            && a1.UsesOf(name) == [n + 1, n] + a.UsesOf(name)
  {
    hide ITypeInst, ProduceImmediate, IsConstant, Tail;
    var e := AccessExpr(offset, name);
    SplitConstant(a, op, rt, rs, e);
    ProduceWaits(a, e, ConstReg(op, rt, rs), name);
    TailLength(op, rt, rs);
  }

  lemma TailLength(op: Op, rt: Reg, rs: Reg)
    ensures |Tail(op, rt, rs)| <= 1
  {
    hide RegisterForm;
  }

  lemma SlotsWait(text: seq<Slot>, op: Op, rt: Reg, rs: Reg, offset: Word, name: string)
    ensures var r, n := text + ConstSlots(op, rt, rs, AccessExpr(offset, name)), |text|;
            && Waits(r, n, n + 1, ORI, ConstReg(op, rt, rs), offset, offset, name)
            && |r| == n + 2 + |Tail(op, rt, rs)|
            && (Tail(op, rt, rs) != [] ==> r[n + 2] == Slot(Tail(op, rt, rs)[0], None))
  {
    hide Tail, ConstReg;
    TailLength(op, rt, rs);
  }

  // ----- the main result -----

  /** The instructions at index `n`. */
  function CodeFrom(a: Asm, n: nat, len: nat): seq<Inst> {
    if n + len <= |a.text| then Insts(a.text)[n..n + len] else []
  }

  /** From the patched slots to the instruction sequence. */
  lemma ConstantCode(a: Asm, n: nat, op: Op, rt: Reg, rs: Reg, high: Half, v: Word)
    requires n + 2 + |Tail(op, rt, rs)| <= |a.text|
    requires a.text[n].inst == IType(LUI, AT, 0, high)
    requires a.text[n + 1].inst == IType(ORI, ConstReg(op, rt, rs), AT, v % 0x1_0000)
    requires Tail(op, rt, rs) != [] ==> a.text[n + 2].inst == Tail(op, rt, rs)[0]
    ensures CodeFrom(a, n, |ForwardCode(op, rt, rs, v)|) == ForwardCode(op, rt, rs, v) <==> high == v / 0x1_0000
  {
    hide Tail, ConstReg;
    TailLength(op, rt, rs);
    var want := ForwardCode(op, rt, rs, v);
    var code := CodeFrom(a, n, |want|);
    assert code[0] == a.text[n].inst && code[1] == a.text[n + 1].inst;
    if Tail(op, rt, rs) != [] {
      assert code[2] == a.text[n + 2].inst;
    }
    if high == v / 0x1_0000 {
      assert code == want;
    }
  }

  lemma ConstantHigh(offset: Word, addr: Word)
    ensures Wrap(offset + 0) == offset
    ensures Wrap(Wrap(Wrap(offset + 0x1_0000) + 0) + addr) / 0x1_0000 != Wrap(offset + addr) / 0x1_0000
  {
    hide Wrap;
    HighWithCarries(offset, addr, 1);
    WrapAdd(offset + 0x1_0000, 0);
    NoBase(offset);
  }

  lemma OriCarries(low: Word, addr: Word)
    ensures CarryOf(ORI, low, addr) == 0 && IsLow(ORI)
  {
    hide FamilyOf;
    PrefixFamilies();
  }

  /** A computing instruction names an undefined label; any statements follow, other labels among
      them; then the label is defined. The instruction becomes exactly the code for its full 32-bit
      value if and only if the statement on the label's own line does not push its carry into it. */
  lemma ForwardConstantResolves(a: Asm, op: Op, rt: Reg, rs: Reg, offset: Word, name: string,
                                stmts: seq<Stmt>, addr: Word, line: Option<Stmt>)
    requires WellFormed(a) && !a.Defined(Some(name)) && IsConstant(op) && addr != 0
    requires AllSpare(stmts, name) && LineOk(line, name)
    ensures var before := EmitAll(Emit(a, ImmStmt(op, rt, rs, offset, Some(name), false)), stmts);
            var after := Define(before, name, addr, line);
            var want := ForwardCode(op, rt, rs, Wrap(offset + addr));
            CodeFrom(after, |a.text|, |want|) == want <==> !StealsFrom(before, |a.text|, name, addr, line)
  {
    hide WellFormed, Waits, Emit, EmitAll, Grows, StealsFrom, AllSpare, LineOk, ITypeInst, Wrap, CarryOf, CodeFrom, ForwardCode,
      Settle, KeepsPlain, Tail, ConstSlots, IsConstant, IsLow, ConstReg;
    var n := |a.text|;
    var a1 := ITypeInst(a, op, rt, rs, AccessExpr(offset, name));
    EmitIsIType(a, op, rt, rs, offset, name);
    ConstantWaits(a, op, rt, rs, offset, name);
    SlotsWait(a.text, op, rt, rs, offset, name);
    StillUndefined(a, op, rt, rs, offset, name);
    assert a1.UsesOf(name)[0] == n + 1 && a1.UsesOf(name)[1] == n;
    EmitAllGrows(a1, stmts, name);
    var a2 := EmitAll(a1, stmts);
    WaitsGrows(a1, a2, n, n + 1, ORI, ConstReg(op, rt, rs), offset, name);
    OriCarries(offset, addr);
    WaitsAfterLine(a2, name, addr, line, n, n + 1, ORI, ConstReg(op, rt, rs), offset);
    var a4 := Recorded(a2, name, addr, line);
    var high := if StealsFrom(a2, n, name, addr, line) then Wrap(offset + 0x1_0000) else offset;
    DefineIs(a2, name, addr, line);
    var r := SettlesTo(a4, n, n + 1, ORI, ConstReg(op, rt, rs), high, offset, name, addr);
    TailKept(a1.text, a2.text, a4.text, r, n + 2, |Tail(op, rt, rs)|);
    ConstantCode(Define(a2, name, addr, line), n, op, rt, rs, Wrap(Wrap(high + 0) + addr) / 0x1_0000, Wrap(offset + addr));
    ConstantHigh(offset, addr);
  }

  lemma StillUndefined(a: Asm, op: Op, rt: Reg, rs: Reg, offset: Word, name: string)
    requires WellFormed(a) && !a.Defined(Some(name)) && IsConstant(op)
    ensures var a1 := ITypeInst(a, op, rt, rs, AccessExpr(offset, name)); WellFormed(a1) && !a1.Defined(Some(name))
  {
    hide WellFormed, ITypeInst, Grows, IsMem, IsBranch, IsJump, Splits;
    ImmediateGrows(a, op, rt, rs, AccessExpr(offset, name), name);
  }

  lemma TailKept(t1: seq<Slot>, t2: seq<Slot>, t3: seq<Slot>, t4: seq<Slot>, m: nat, len: nat)
    requires KeepsPlain(t1, t2) && KeepsPlain(t2, t3) && KeepsPlain(t3, t4) && |t1| == m + len
    requires len > 0 ==> t1[m].expr.None?
    ensures |t4| >= m + len && (len > 0 ==> t4[m] == t1[m])
  {
  }

  // ----- running it -----

  /** How the code must end: as `op rt, rs, v`, with `$at` used. */
  ghost predicate ConstOutcome(exit: Exit, base: Word, n: nat, op: Op, rt: Reg, rs: Reg, v: Word, s: State) {
    match WideResult(op, Seen(s, rs), v)
    case Some(x) =>
      && exit.Reached? && exit.s.pc == AddrOf(base, n) && OnlyRegs(s, exit.s, {AT, rt}) && (rt != 0 ==> exit.s.gpr[rt] == x)
    case None =>
      && exit.Raised? && TrappedAt(s, exit.s, base + 4 * n - 4, {AT})
  }

  lemma RunDirect(base: Word, code: seq<Inst>, op: Op, rt: Reg, v: Word, s: State)
    requires (op == ORI || op == ADDI || op == ADDIU) && s.pc == base && !s.exc
    requires code == ForwardCode(op, rt, 0, v) && Placed(base, code)
    ensures ConstOutcome(RunBlock(base, code, 0, s), base, |code|, op, rt, 0, v, s)
  {
    hide RunBlock, WideResult;
    var s' := RunTwoConsts(base, code, 0, s, rt, v);
    ZeroSource(op, v);
    assert RunBlock(base, code, 2, s') == Reached(s') by { AtEnd(base, code, s'); }
  }

  lemma AtEnd(base: Word, code: seq<Inst>, s: State)
    ensures RunBlock(base, code, |code|, s) == Reached(s)
  {
  }

  lemma RunThroughAt(base: Word, code: seq<Inst>, op: Op, rop: Op, rt: Reg, rs: Reg, v: Word, s: State)
    requires IsWide(op) && !Direct(op, rs) && s.pc == base && !s.exc && rs != AT && RegisterForm(op) == Some(rop) && rop != op
    requires code == ForwardCode(op, rt, rs, v) && Placed(base, code)
    ensures ConstOutcome(RunBlock(base, code, 0, s), base, |code|, op, rt, rs, v, s)
  {
    hide Run1, Raise, Fits, WideResult, RunBlock, RegisterForm, IsWide, Wrap, TrappedAt;
    var s1 := RunTwoConsts(base, code, 0, s, AT, v);
    var x := WideResult(op, Seen(s, rs), v);
    RunWideLast(op, code[2], s1, Seen(s, rs), v);
    LastStep(base, code, 2, s1, rt, x);
    TrapThrough(s, s1, RunBlock(base, code, 2, s1), AddrOf(base, 2));
  }

  /** For each of addi, addiu, andi, ori, xori, slti and sltiu, running the code of a forward
      reference computes `rs op v` with the label's value, or takes the overflow trap of `addi`. */
  lemma ForwardConstantComputes(base: Word, op: Op, rt: Reg, rs: Reg, v: Word, s: State)
    requires IsWide(op) && s.pc == base && !s.exc && rs != AT && Placed(base, ForwardCode(op, rt, rs, v))
    ensures ConstOutcome(RunBlock(base, ForwardCode(op, rt, rs, v), 0, s), base, |ForwardCode(op, rt, rs, v)|, op, rt, rs, v, s)
  {
    hide ConstOutcome, RunBlock, ForwardCode, RegisterForm;
    if Direct(op, rs) {
      RunDirect(base, ForwardCode(op, rt, rs, v), op, rt, v, s);
    } else {
      WideHasRegisterForm(op);
      RunThroughAt(base, ForwardCode(op, rt, rs, v), op, RegisterForm(op).value, rt, rs, v, s);
    }
  }

  /** From the source line to the result: `op rt, rs, L + offset` before the definition of `L`. */
  lemma ForwardConstantReached(a: Asm, op: Op, rt: Reg, rs: Reg, offset: Word, name: string,
                               stmts: seq<Stmt>, before: Asm, addr: Word, line: Option<Stmt>, s: State)
    requires WellFormed(a) && !a.Defined(Some(name)) && IsWide(op) && addr != 0 && rs != AT
    requires AllSpare(stmts, name) && LineOk(line, name)
    requires before == EmitAll(Emit(a, ImmStmt(op, rt, rs, offset, Some(name), false)), stmts)
    requires !StealsFrom(before, |a.text|, name, addr, line)
    requires a.base % 4 == 0 && a.base + 4 * (|a.text| + 3) < TWO32 && s.pc == a.base + 4 * |a.text| && !s.exc
    ensures var code := ForwardCode(op, rt, rs, Wrap(offset + addr));
            && CodeFrom(Define(before, name, addr, line), |a.text|, |code|) == code
            && ConstOutcome(RunBlock(s.pc, code, 0, s), s.pc, |code|, op, rt, rs, Wrap(offset + addr), s)
  {
    hide WellFormed, Emit, EmitAll, AllSpare, LineOk, Wrap, Define, StealsFrom, CodeFrom, ConstOutcome, RunBlock, IsWide,
      ForwardCode, IsConstant;
    WideIsConstant(op);
    ForwardConstantResolves(a, op, rt, rs, offset, name, stmts, addr, line);
    ForwardLength(op, rt, rs, Wrap(offset + addr));
    ForwardConstantComputes(s.pc, op, rt, rs, Wrap(offset + addr), s);
  }

  lemma ForwardLength(op: Op, rt: Reg, rs: Reg, v: Word)
    ensures |ForwardCode(op, rt, rs, v)| <= 3
  {
    hide Tail;
    TailLength(op, rt, rs);
  }

  lemma WideIsConstant(op: Op)
    requires IsWide(op)
    ensures IsConstant(op)
  {
    hide FamilyOf;
    if op == ADDI {
      AddiFamily();
    } else {
      ImmediateFamilies();
    }
  }

  // ----- the corner where it fails -----

  /** `la $8, L` directly before `L: lw $9, L-0x40000c($10)`, text at 0x400000: `$8` gets 0x410008. */
  lemma CornerStealsConstant()
    ensures StealsFrom(EmitAll(Emit(CORNER, ImmStmt(ORI, 8, 0, 0, Some("L"), false)), []), 0, "L", 0x40_0008, Some(CORNER_LINE))
    ensures var before := EmitAll(Emit(CORNER, ImmStmt(ORI, 8, 0, 0, Some("L"), false)), []);
            CodeFrom(Define(before, "L", 0x40_0008, Some(CORNER_LINE)), 0, 2) != ForwardCode(ORI, 8, 0, 0x40_0008)
  {
    hide ITypeInst, ResolveUses, StealsFrom, ForwardCode, Define;
    EmptyWellFormed(0x40_0000, false);
    assert IsConstant(ORI) by { WideIsConstant(ORI); }
    CornerLineSteals();
    ForwardConstantResolves(CORNER, ORI, 8, 0, 0, "L", [], 0x40_0008, Some(CORNER_LINE));
    assert Wrap(0 + 0x40_0008) == 0x40_0008;
  }

  lemma CornerLineSteals()
    ensures StealsFrom(EmitAll(Emit(CORNER, ImmStmt(ORI, 8, 0, 0, Some("L"), false)), []), 0, "L", 0x40_0008, Some(CORNER_LINE))
  {
    hide ITypeInst, ResolveUses;
    EmptyWellFormed(0x40_0000, false);
    assert IsConstant(ORI) by { WideIsConstant(ORI); }
    ConstantWaits(CORNER, ORI, 8, 0, 0, "L");
    var before := EmitAll(Emit(CORNER, ImmStmt(ORI, 8, 0, 0, Some("L"), false)), []);
    assert |before.text| == 2;
    StillUndefined(CORNER, ORI, 8, 0, 0, "L");
    var e := Expr(0xffbf_fff4, Some("L"), Full, false);
    assert Value(Record(before, "L", 0x40_0008), e) == 0xffff_fffc;
  }
}
