/** The assembler's back end: immediate expressions, the emitters that split an instruction
    whose immediate does not (or may not) fit 16 bits, and the label fix-up lists. Text
    segment of the default machine: not bare, no label held in the small-data area. */
module Assembler {
  import opened Words
  import opened Isa

  /** Which half of an expression's value an instruction takes. */
  datatype Bits = Full | Upper | Lower

  /** `symbol + offset`; a `pcRelative` expression has its offset replaced when resolved. */
  datatype Expr = Expr(offset: Word, symbol: Option<string>, bits: Bits, pcRelative: bool)

  function Const(v: Word): Expr {
    Expr(v, None, Full, false)
  }

  function UpperOf(e: Expr): Expr {
    e.(bits := Upper)
  }

  function LowerOf(e: Expr): Expr {
    e.(bits := Lower)
  }

  /** An instruction in the text segment with the expression it was built from. */
  datatype Slot = Slot(inst: Inst, expr: Option<Expr>)

  /** The assembler: text segment starting at `base`, the labels defined so far (an address of
      0 means undefined) and, for each label, the text indices waiting for it, newest first. */
  datatype Asm = Asm(base: Word, delayedBranches: bool, text: seq<Slot>,
                     symbols: map<string, Word>, uses: map<string, seq<nat>>)
  {
    predicate Defined(symbol: Option<string>) {
      symbol.Some? ==> symbol.value in symbols && symbols[symbol.value] != 0
    }

    function UsesOf(symbol: string): seq<nat> {
      if symbol in uses then uses[symbol] else []
    }
  }

  /** `eval_imm_expr` of an expression whose symbol, if any, has the address `addr`. */
  function Eval(e: Expr, addr: Word): Word {
    var v := Wrap(e.offset + (if e.symbol.Some? then addr else 0));
    match e.bits
    case Full => v
    case Upper => v / 0x1_0000
    case Lower => v % 0x1_0000
  }

  function AddrOfSymbol(a: Asm, symbol: Option<string>): Word {
    if symbol.Some? && symbol.value in a.symbols then a.symbols[symbol.value] else 0
  }

  function Value(a: Asm, e: Expr): Word {
    Eval(e, AddrOfSymbol(a, e.symbol))
  }

  predicate IsMem(op: Op) {
    FamilyOf(op) == Loading || FamilyOf(op) == Storing
  }

  predicate IsBranch(op: Op) {
    FamilyOf(op) == Branching
  }

  predicate IsJump(op: Op) {
    op == J || op == JAL
  }

  /** Instructions whose immediate is sign-extended at run time. */
  predicate SignExtends(op: Op) {
    match op
    case ADDI | ADDIU | SLTI | SLTIU | TEQI | TGEI | TGEIU | TLTI | TLTIU | TNEI => true
    case _ => false
  }

  /** Does value `v` fit the immediate field of `op` as it will be extended? */
  predicate Fits(op: Op, bits: Bits, v: Word) {
    if SignExtends(op) || (IsMem(op) && bits == Full) then v < 0x8000 || v >= 0xffff_8000
    else v < 0x1_0000
  }

  // ----- resolving an instruction in place -----

  predicate AwaitsCarry(slot: Slot, symbol: Option<string>) {
    slot.inst.op == LUI && slot.inst.imm == 0 && slot.expr.Some? && slot.expr.value.symbol == symbol
  }

  function CarryInto(slot: Slot): Slot
    requires slot.expr.Some?
  {
    slot.(expr := Some(slot.expr.value.(offset := Wrap(slot.expr.value.offset + 0x1_0000))))
  }

  /** A load or store at index `k` with a negative low half adds 1 to the upper half: the
      preceding `lui` of the same symbol, if it still has no immediate, gets 0x10000 added to
      its expression, either directly before or behind one other instruction. */
  function Compensate(text: seq<Slot>, k: nat, symbol: Option<string>): (r: seq<Slot>)
    requires k <= |text|
    ensures |r| == |text|
  {
    if k >= 1 && AwaitsCarry(text[k - 1], symbol) then text[k - 1 := CarryInto(text[k - 1])]
    else if k >= 2 && AwaitsCarry(text[k - 2], symbol) then text[k - 2 := CarryInto(text[k - 2])]
    else text
  }

  /** The branch field: displacement cut to 16 bits, sign-extended, shifted right, less one
      when branches are delayed. */
  function BranchField(v: Word, delayedBranches: bool): Half {
    (Signed(SignEx(v % 0x1_0000)) / 4 % 0x1_0000 - (if delayedBranches then 1 else 0)) % 0x1_0000
  }

  /** The expression of the instruction at index `k`, a PC-relative one taken from where the
      instruction now is. */
  function ExprAt(a: Asm, k: nat): Expr
    requires k < |a.text| && a.text[k].expr.Some?
  {
    var e := a.text[k].expr.value;
    if e.pcRelative then e.(offset := Negated(a.base + 4 * k)) else e
  }

  function Negated(x: int): Word {
    Wrap(-x)
  }

  /** The fields of an instruction whose expression has value `v`. */
  function Patched(inst: Inst, v: Word, delayedBranches: bool): Inst {
    if IsJump(inst.op) then inst.(target := v % 0x1000_0000 / 4)
    else if IsBranch(inst.op) then inst.(imm := BranchField(v, delayedBranches))
    else inst.(imm := v % 0x1_0000)
  }

  /** `resolve_a_label_sub` for the instruction at index `k`. */
  function Resolve(a: Asm, k: nat): (a': Asm)
    requires k < |a.text|
    ensures |a'.text| == |a.text| && a' == a.(text := a'.text)
  {
    var slot := a.text[k];
    if slot.expr.None? then a
    else
      var e := ExprAt(a, k);
      if !a.Defined(e.symbol) then a.(text := a.text[k := slot.(expr := Some(e))])
      else
        var v := Value(a, e);
        var text := a.text[k := Slot(Patched(slot.inst, v, a.delayedBranches), Some(e))];
        a.(text := if IsMem(slot.inst.op) && v / 0x8000 % 2 == 1 then Compensate(text, k, e.symbol) else text)
  }

  // ----- emitting -----

  function Keep(a: Asm, slot: Slot): Asm {
    a.(text := a.text + [slot])
  }

  function StoreResolved(a: Asm, slot: Slot): Asm {
    Resolve(Keep(a, slot), |a.text|)
  }

  /** `record_inst_uses_symbol`: the use goes to the front of the label's list. */
  function StoreWaiting(a: Asm, slot: Slot, symbol: string): Asm {
    Keep(a.(uses := a.uses[symbol := [|a.text|] + a.UsesOf(symbol)]), slot)
  }

  function RTypeInst(a: Asm, op: Op, rd: Reg, rs: Reg, rt: Reg): Asm {
    Keep(a, Slot(RType(op, rd, rs, rt), None))
  }

  /** Must the instruction be split? */
  predicate Splits(a: Asm, op: Op, e: Expr) {
    if a.Defined(e.symbol) then !Fits(op, e.bits, Value(a, e)) else e.bits == Full
  }

  /** `i_type_inst` */
  function ITypeInst(a: Asm, op: Op, rt: Reg, rs: Reg, e: Expr): Asm
    decreases if Splits(a, op, e) then 2 else 0, 0
  {
    if Splits(a, op, e) then FullWord(a, op, rt, rs, e)
    else
      var slot := Slot(IType(op, rt, rs, 0), Some(e));
      if a.Defined(e.symbol) then StoreResolved(a, slot) else StoreWaiting(a, slot, e.symbol.value)
  }

  /** `imm_op_to_op` for the computing instructions; the trap-immediates have no counterpart. */
  function RegisterForm(op: Op): Option<Op> {
    match op
    case ADDI => Some(ADD)
    case ADDIU => Some(ADDU)
    case ANDI => Some(AND)
    case ORI => Some(OR)
    case XORI => Some(XOR)
    case SLTI => Some(SLT)
    case SLTIU => Some(SLTU)
    case LUI => Some(ADDU)
    case _ => None
  }

  /** `i_type_inst_full_word`: build the value from its pieces. Since it is entered only for an
      immediate that does not fit, `high` never reaches 0x10000 and the original's special case
      for a sign-extending low half is dead. */
  function FullWord(a: Asm, op: Op, rt: Reg, rs: Reg, e: Expr): Asm
    requires Splits(a, op, e)
    decreases 1, 0
  {
    if IsMem(op) then
      if a.Defined(e.symbol) then
        var v := Value(a, e);
        var low := v % 0x1_0000;
        var high := v / 0x1_0000 + (if low >= 0x8000 then 1 else 0);
        var a1 := ITypeInst(a, LUI, AT, 0, Const(high));
        var a2 := if rs != 0 then RTypeInst(a1, ADDU, AT, AT, rs) else a1;
        ITypeInst(a2, op, rt, AT, LowerOf(Const(low)))
      else
        var a1 := ITypeInst(a, LUI, AT, 0, UpperOf(e));
        var a2 := if rs != 0 then RTypeInst(a1, ADDU, AT, AT, rs) else a1;
        ITypeInst(a2, op, rt, AT, LowerOf(e))
    else if IsBranch(op) then
      ITypeInst(a, op, rt, rs, LowerOf(e))
    else if rs == 0 && (op == ORI || op == ADDI || op == ADDIU || op == LUI) then
      ProduceImmediate(a, e, rt)
    else
      var a1 := ProduceImmediate(a, e, AT);
      match RegisterForm(op)
      case Some(rop) => RTypeInst(a1, rop, rt, rs, AT)
      case None => a1  // the original stops: it cannot convert the opcode
  }

  /** `produce_immediate` */
  function ProduceImmediate(a: Asm, e: Expr, rt: Reg): Asm
    decreases 0, 1
  {
    var known, v := a.Defined(e.symbol), Value(a, e);
    if known && v % 0x1_0000 == 0 then ITypeInst(a, LUI, rt, 0, UpperOf(e))
    else if known && v < 0x1_0000 then ITypeInst(a, ORI, rt, 0, LowerOf(e))
    else ITypeInst(ITypeInst(a, LUI, AT, 0, UpperOf(e)), ORI, rt, AT, LowerOf(e))
  }
}
