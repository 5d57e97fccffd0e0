/** What the emitters produce for a known immediate, and that executing it computes with the
    full 32-bit immediate. */
module Legalise {
  import opened Words
  import opened Isa
  import opened Assembler

  function Insts(text: seq<Slot>): (r: seq<Inst>)
    ensures |r| == |text|
  {
    seq(|text|, k requires 0 <= k < |text| => text[k].inst)
  }

  /** Code that puts the constant `v` in `rt`, through `$at` when it takes two instructions. */
  function LoadConst(rt: Reg, v: Word): seq<Inst> {
    if v % 0x1_0000 == 0 then [IType(LUI, rt, 0, v / 0x1_0000)]
    else if v < 0x1_0000 then [IType(ORI, rt, 0, v)]
    else [IType(LUI, AT, 0, v / 0x1_0000), IType(ORI, rt, AT, v % 0x1_0000)]
  }

  /** The upper half of an address whose lower half will be sign-extended. */
  function CarriedHigh(v: Word): Half {
    (v / 0x1_0000 + (if v % 0x1_0000 >= 0x8000 then 1 else 0)) % 0x1_0000
  }

  /** `$at` gets the upper half, and the base register is added to it. */
  function AccessPrefix(rs: Reg, high: Half): seq<Inst> {
    [IType(LUI, AT, 0, high)] + (if rs != 0 then [RType(ADDU, AT, AT, rs)] else [])
  }

  /** A load or store split through `$at`. */
  function SplitAccess(op: Op, rt: Reg, rs: Reg, v: Word): seq<Inst> {
    AccessPrefix(rs, CarriedHigh(v)) + [IType(op, rt, AT, v % 0x1_0000)]
  }

  /** The code for `op rt, rs, v` with a 32-bit immediate, or `op rt, v(rs)` for an access. */
  function Legal(op: Op, rt: Reg, rs: Reg, v: Word): seq<Inst> {
    if Fits(op, Full, v) then [IType(op, rt, rs, v % 0x1_0000)]
    else if IsMem(op) then SplitAccess(op, rt, rs, v)
    else if rs == 0 && (op == ORI || op == ADDI || op == ADDIU || op == LUI) then LoadConst(rt, v)
    else LoadConst(AT, v) + (match RegisterForm(op) case Some(rop) => [RType(rop, rt, rs, AT)] case None => [])
  }

  // ----- the emitters produce exactly that code -----

  /** `a'` differs from `a` by the instructions `code` appended to its text, and perhaps by
      the expressions kept with instructions already resolved. */
  ghost predicate Appended(a: Asm, a': Asm, code: seq<Inst>) {
    && Insts(a'.text) == Insts(a.text) + code
    && a' == a.(text := a'.text)
  }

  lemma CompensateKeepsInsts(text: seq<Slot>, k: nat, symbol: Option<string>)
    requires k <= |text|
    ensures Insts(Compensate(text, k, symbol)) == Insts(text)
  {
  }

  lemma StoreAppends(a: Asm, slot: Slot)
    ensures Appended(a, Keep(a, slot), [slot.inst])
  {
  }

  lemma AppendedTrans(a: Asm, b: Asm, c: Asm, code1: seq<Inst>, code2: seq<Inst>)
    requires Appended(a, b, code1) && Appended(b, c, code2)
    ensures Appended(a, c, code1 + code2)
  {
    assert Insts(a.text) + code1 + code2 == Insts(a.text) + (code1 + code2);
  }

  /** An instruction that is not split takes the low 16 bits of its value. */
  lemma UnsplitEmits(a: Asm, op: Op, rt: Reg, rs: Reg, e: Expr)
    requires a.Defined(e.symbol) && !e.pcRelative && !IsBranch(op) && !IsJump(op)
    requires Fits(op, e.bits, Value(a, e))
    ensures Appended(a, ITypeInst(a, op, rt, rs, e), [IType(op, rt, rs, Value(a, e) % 0x1_0000)])
  {
    hide FullWord, ProduceImmediate, StoreWaiting, BranchField, IsMem, IsBranch, IsJump, Fits, Eval;
    var b := Keep(a, Slot(IType(op, rt, rs, 0), Some(e)));
    var k, v := |a.text|, Value(a, e);
    assert b.text[k] == Slot(IType(op, rt, rs, 0), Some(e)) && Value(b, e) == v;
    var text := b.text[k := Slot(IType(op, rt, rs, v % 0x1_0000), Some(e))];
    CompensateKeepsInsts(text, k, e.symbol);
    assert Insts(text) == Insts(a.text) + [IType(op, rt, rs, v % 0x1_0000)];
  }

  lemma HalfValues(a: Asm, e: Expr)
    requires e.bits == Full
    ensures Value(a, UpperOf(e)) == Value(a, e) / 0x1_0000 == Value(a, UpperOf(e)) % 0x1_0000
    ensures Value(a, LowerOf(e)) == Value(a, e) % 0x1_0000 == Value(a, LowerOf(e)) % 0x1_0000
  {
  }

  lemma ConstEmits(a: Asm, e: Expr, rt: Reg)
    requires a.Defined(e.symbol) && !e.pcRelative && e.bits == Full
    ensures Appended(a, ProduceImmediate(a, e, rt), LoadConst(rt, Value(a, e)))
  {
    hide Insts, ITypeInst, FullWord, Eval;
    var v := Value(a, e);
    HalfValues(a, e);
    if v % 0x1_0000 == 0 {
      UnsplitEmits(a, LUI, rt, 0, UpperOf(e));
    } else if v < 0x1_0000 {
      UnsplitEmits(a, ORI, rt, 0, LowerOf(e));
    } else {
      var b := ITypeInst(a, LUI, AT, 0, UpperOf(e));
      UnsplitEmits(a, LUI, AT, 0, UpperOf(e));
      assert Value(b, LowerOf(e)) == Value(a, LowerOf(e));
      UnsplitEmits(b, ORI, rt, AT, LowerOf(e));
      AppendedTrans(a, b, ProduceImmediate(a, e, rt), [IType(LUI, AT, 0, v / 0x1_0000)], [IType(ORI, rt, AT, v % 0x1_0000)]);
      assert [IType(LUI, AT, 0, v / 0x1_0000)] + [IType(ORI, rt, AT, v % 0x1_0000)] == LoadConst(rt, v);
    }
  }

  lemma AccessUnfolds(a: Asm, op: Op, rt: Reg, rs: Reg, e: Expr)
    requires a.Defined(e.symbol) && e.bits == Full && IsMem(op) && !Fits(op, Full, Value(a, e))
    ensures var v := Value(a, e);
            var a1 := ITypeInst(a, LUI, AT, 0, Const(CarriedHigh(v)));
            var a2 := if rs != 0 then RTypeInst(a1, ADDU, AT, AT, rs) else a1;
            ITypeInst(a, op, rt, rs, e) == ITypeInst(a2, op, rt, AT, LowerOf(Const(v % 0x1_0000)))
  {
    hide ITypeInst, FullWord, RTypeInst, Eval, Fits, IsMem;
    assert Splits(a, op, e);
    SplitUnfolds(a, op, rt, rs, e);
    FullAccessUnfolds(a, op, rt, rs, e);
    CarriedHighIs(op, Value(a, e));
  }

  lemma SplitUnfolds(a: Asm, op: Op, rt: Reg, rs: Reg, e: Expr)
    requires Splits(a, op, e)
    ensures ITypeInst(a, op, rt, rs, e) == FullWord(a, op, rt, rs, e)
  {
    hide FullWord, Splits, StoreResolved, StoreWaiting;
  }

  lemma FullAccessUnfolds(a: Asm, op: Op, rt: Reg, rs: Reg, e: Expr)
    requires a.Defined(e.symbol) && IsMem(op) && Splits(a, op, e)
    ensures var v := Value(a, e);
            var high := v / 0x1_0000 + (if v % 0x1_0000 >= 0x8000 then 1 else 0);
            var a1 := ITypeInst(a, LUI, AT, 0, Const(high));
            var a2 := if rs != 0 then RTypeInst(a1, ADDU, AT, AT, rs) else a1;
            FullWord(a, op, rt, rs, e) == ITypeInst(a2, op, rt, AT, LowerOf(Const(v % 0x1_0000)))
  {
    hide ITypeInst, RTypeInst, Eval, Splits, IsMem;
  }

  /** An address that must be split has room for the carry in its upper half. */
  lemma CarriedHighIs(op: Op, v: Word)
    requires IsMem(op) && !Fits(op, Full, v)
    ensures v / 0x1_0000 + (if v % 0x1_0000 >= 0x8000 then 1 else 0) == CarriedHigh(v)
  {
    hide IsMem;
  }

  lemma ConstValues(v: Half)
    ensures forall a: Asm :: Value(a, Const(v)) == v && Value(a, LowerOf(Const(v))) == v
  {
  }

  function EmitPrefix(a: Asm, rs: Reg, high: Half): Asm {
    var a1 := ITypeInst(a, LUI, AT, 0, Const(high));
    if rs != 0 then RTypeInst(a1, ADDU, AT, AT, rs) else a1
  }

  lemma PrefixEmits(a: Asm, rs: Reg, high: Half)
    ensures Appended(a, EmitPrefix(a, rs, high), AccessPrefix(rs, high))
  {
    hide Appended, ITypeInst, FullWord, Eval;
    ConstValues(high);
    UnsplitEmits(a, LUI, AT, 0, Const(high));
    var a1 := ITypeInst(a, LUI, AT, 0, Const(high));
    if rs != 0 {
      StoreAppends(a1, Slot(RType(ADDU, AT, AT, rs), None));
      AppendedTrans(a, a1, EmitPrefix(a, rs, high), [IType(LUI, AT, 0, high)], [RType(ADDU, AT, AT, rs)]);
    } else {
      assert AccessPrefix(rs, high) == [IType(LUI, AT, 0, high)];
    }
  }

  lemma AccessFits(op: Op, low: Half)
    requires IsMem(op)
    ensures Fits(op, Lower, low) && !IsBranch(op) && !IsJump(op)
  {
  }

  lemma AccessEmits(a: Asm, op: Op, rt: Reg, rs: Reg, e: Expr)
    requires a.Defined(e.symbol) && !e.pcRelative && e.bits == Full && IsMem(op)
    requires !Fits(op, Full, Value(a, e))
    ensures Appended(a, ITypeInst(a, op, rt, rs, e), SplitAccess(op, rt, rs, Value(a, e)))
  {
    hide Insts, ITypeInst, FullWord, Eval, Fits, IsMem, IsBranch, IsJump, CarriedHigh, AccessPrefix;
    var v := Value(a, e);
    var low, high := v % 0x1_0000, CarriedHigh(v);
    AccessUnfolds(a, op, rt, rs, e);
    PrefixEmits(a, rs, high);
    ConstValues(low);
    AccessFits(op, low);
    var a2 := EmitPrefix(a, rs, high);
    UnsplitEmits(a2, op, rt, AT, LowerOf(Const(low)));
    AppendedTrans(a, a2, ITypeInst(a2, op, rt, AT, LowerOf(Const(low))), AccessPrefix(rs, high), [IType(op, rt, AT, low)]);
  }

  lemma ComputeUnfolds(a: Asm, op: Op, rt: Reg, rs: Reg, e: Expr)
    requires a.Defined(e.symbol) && e.bits == Full && !IsMem(op) && !IsBranch(op) && !Fits(op, Full, Value(a, e))
    ensures ITypeInst(a, op, rt, rs, e) ==
            if rs == 0 && (op == ORI || op == ADDI || op == ADDIU || op == LUI) then ProduceImmediate(a, e, rt)
            else match RegisterForm(op)
                 case Some(rop) => RTypeInst(ProduceImmediate(a, e, AT), rop, rt, rs, AT)
                 case None => ProduceImmediate(a, e, AT)
  {
    hide ProduceImmediate, StoreResolved, StoreWaiting, RTypeInst, Eval;
    assert Splits(a, op, e);
    assert ITypeInst(a, op, rt, rs, e) == FullWord(a, op, rt, rs, e);
  }

  /** With a defined (or no) symbol the emitters append exactly `Legal` and record no use. */
  lemma EmitsLegal(a: Asm, op: Op, rt: Reg, rs: Reg, e: Expr)
    requires a.Defined(e.symbol) && !e.pcRelative && e.bits == Full && !IsBranch(op) && !IsJump(op)
    ensures Appended(a, ITypeInst(a, op, rt, rs, e), Legal(op, rt, rs, Value(a, e)))
  {
    hide Insts, ITypeInst, FullWord, ProduceImmediate, Eval, Fits, LoadConst, RegisterForm, IsMem, IsBranch;
    var v := Value(a, e);
    if Fits(op, Full, v) {
      UnsplitEmits(a, op, rt, rs, e);
    } else if IsMem(op) {
      AccessEmits(a, op, rt, rs, e);
    } else if rs == 0 && (op == ORI || op == ADDI || op == ADDIU || op == LUI) {
      ComputeUnfolds(a, op, rt, rs, e);
      ConstEmits(a, e, rt);
    } else {
      ComputeUnfolds(a, op, rt, rs, e);
      ConstEmits(a, e, AT);
      var b := ProduceImmediate(a, e, AT);
      if RegisterForm(op).Some? {
        var inst := RType(RegisterForm(op).value, rt, rs, AT);
        StoreAppends(b, Slot(inst, None));
        AppendedTrans(a, b, Keep(b, Slot(inst, None)), LoadConst(AT, v), [inst]);
      } else {
        assert LoadConst(AT, v) + [] == LoadConst(AT, v);
      }
    }
  }
}
