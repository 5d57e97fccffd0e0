/** The assembler's emitters and the label fix-up as the programs they are: instructions stored one
    after another and patched in place, uses queued per label. */
module AssemblerLoop {
  import opened Words
  import opened Isa
  import opened Assembler
  import opened Fixup

  class TextAssembler {
    const base: Word
    const delayedBranches: bool
    var text: seq<Slot>
    var symbols: map<string, Word>
    var uses: map<string, seq<nat>>

    constructor (base: Word, delayedBranches: bool)
      ensures Model() == Asm(base, delayedBranches, [], map[], map[])
    {
      this.base, this.delayedBranches := base, delayedBranches;
      text, symbols, uses := [], map[], map[];
    }

    function Model(): Asm
      reads this
    {
      Asm(base, delayedBranches, text, symbols, uses)
    }

    /** `resolve_a_label_sub`: patch the instruction at index `k`, and push the carry of a negative
        low half into the `lui` before it. */
    method ResolveAt(k: nat)
      requires k < |text|
      modifies this`text
      ensures Model() == Resolve(old(Model()), k) && |text| == |old(text)|
    {
      hide Patched, Eval, IsMem, Compensate;
      if text[k].expr.Some? {
        var e := ExprAt(Model(), k);
        text := text[k := text[k].(expr := Some(e))];
        if Model().Defined(e.symbol) {
          var v := Value(Model(), e);
          ghost var slot := Slot(Patched(text[k].inst, v, delayedBranches), Some(e));
          assert text[k := slot] == old(text)[k := slot];
          PatchAt(k, e, v);
        }
      }
    }

    method PatchAt(k: nat, e: Expr, v: Word)
      requires k < |text|
      modifies this`text
      ensures var inst := old(text)[k].inst;
              var patched := old(text)[k := Slot(Patched(inst, v, delayedBranches), Some(e))];
              text == if IsMem(inst.op) && v / 0x8000 % 2 == 1 then Compensate(patched, k, e.symbol) else patched
    {
      hide Patched, Compensate, IsMem;
      var inst := text[k].inst;
      text := text[k := Slot(Patched(inst, v, delayedBranches), Some(e))];
      if IsMem(inst.op) && v / 0x8000 % 2 == 1 {
        Carry(k, e.symbol);
      }
    }

    method Carry(k: nat, symbol: Option<string>)
      requires k < |text|
      modifies this`text
      ensures text == Compensate(old(text), k, symbol)
    {
      if k >= 1 && AwaitsCarry(text[k - 1], symbol) {
        text := text[k - 1 := CarryInto(text[k - 1])];
      } else if k >= 2 && AwaitsCarry(text[k - 2], symbol) {
        text := text[k - 2 := CarryInto(text[k - 2])];
      }
    }

    method StoreInst(slot: Slot)
      modifies this`text
      ensures Model() == Keep(old(Model()), slot)
    {
      text := text + [slot];
    }

    /** `r_type_inst` */
    method RType(op: Op, rd: Reg, rs: Reg, rt: Reg)
      modifies this`text
      ensures Model() == RTypeInst(old(Model()), op, rd, rs, rt)
    {
      StoreInst(Slot(Isa.RType(op, rd, rs, rt), None));
    }

    /** Store an instruction and resolve it, or queue it on its undefined label. */
    method StoreUse(slot: Slot, symbol: Option<string>)
      modifies this
      ensures Model() == if old(Model()).Defined(symbol) then StoreResolved(old(Model()), slot)
                         else StoreWaiting(old(Model()), slot, symbol.value)
    {
      hide Resolve;
      if Model().Defined(symbol) {
        StoreInst(slot);
        ResolveAt(|text| - 1);
      } else {
        uses := uses[symbol.value := [|text|] + Model().UsesOf(symbol.value)];
        StoreInst(slot);
      }
    }

    /** `i_type_inst` */
    method IType(op: Op, rt: Reg, rs: Reg, e: Expr)
      modifies this
      ensures Model() == ITypeInst(old(Model()), op, rt, rs, e)
      decreases if Splits(Model(), op, e) then 2 else 0, 0
    {
      hide StoreResolved, StoreWaiting, Splits, Assembler.FullWord;
      if Splits(Model(), op, e) {
        FullWord(op, rt, rs, e);
      } else {
        StoreUse(Slot(Isa.IType(op, rt, rs, 0), Some(e)), e.symbol);
      }
    }

    /** `i_type_inst_full_word` */
    method FullWord(op: Op, rt: Reg, rs: Reg, e: Expr)
      requires Splits(Model(), op, e)
      modifies this
      ensures Model() == Assembler.FullWord(old(Model()), op, rt, rs, e)
      decreases 1, 0
    {
      hide ITypeInst, Splits, IsMem, IsBranch, ProduceImmediate, RegisterForm, Assembler.FullWord;
      if IsMem(op) {
        FullAccess(op, rt, rs, e);
      } else {
        ComputeUnfolds(Model(), op, rt, rs, e);
        if IsBranch(op) {
          HalvesNeverSplit(Model(), e, op);
          IType(op, rt, rs, LowerOf(e));
        } else if rs == 0 && (op == ORI || op == ADDI || op == ADDIU || op == LUI) {
          Immediate(e, rt);
        } else {
          Immediate(e, AT);
          if RegisterForm(op).Some? {
            RType(RegisterForm(op).value, rt, rs, AT);
          }
        }
      }
    }

    method FullAccess(op: Op, rt: Reg, rs: Reg, e: Expr)
      requires IsMem(op) && Splits(Model(), op, e)
      modifies this
      ensures Model() == Assembler.FullWord(old(Model()), op, rt, rs, e)
      decreases 0, 2
    {
      hide ITypeInst, Splits, IsMem, Eval, AccessCode, Assembler.FullWord;
      AccessUnfolds(Model(), op, rt, rs, e);
      if Model().Defined(e.symbol) {
        var v := Value(Model(), e);
        var low := v % 0x1_0000;
        HighHalf(Model(), op, e);
        var high := v / 0x1_0000 + (if low >= 0x8000 then 1 else 0);
        ConstHalves(op, high, low);
        Access(op, rt, rs, Const(high), LowerOf(Const(low)));
      } else {
        SymbolHalves(op, e);
        Access(op, rt, rs, UpperOf(e), LowerOf(e));
      }
    }

    /** A load or store split through `$at`: `lui`, the base register added, the access. */
    method Access(op: Op, rt: Reg, rs: Reg, high: Expr, low: Expr)
      requires IsMem(op) && (forall a: Asm :: !Splits(a, LUI, high)) && forall a: Asm :: !Splits(a, op, low)
      modifies this
      ensures Model() == AccessCode(old(Model()), op, rt, rs, high, low)
      decreases 0, 1
    {
      hide ITypeInst, Splits, IsMem;
      IType(LUI, AT, 0, high);
      if rs != 0 {
        RType(ADDU, AT, AT, rs);
      }
      IType(op, rt, AT, low);
    }

    /** `produce_immediate` */
    method Immediate(e: Expr, rt: Reg)
      modifies this
      ensures Model() == ProduceImmediate(old(Model()), e, rt)
      decreases 0, 1
    {
      hide ITypeInst, Eval;
      var v := Value(Model(), e);
      HalvesNeverSplit(Model(), e, LUI);
      HalvesNeverSplit(Model(), e, ORI);
      if Model().Defined(e.symbol) && v % 0x1_0000 == 0 {
        IType(LUI, rt, 0, UpperOf(e));
      } else if Model().Defined(e.symbol) && v < 0x1_0000 {
        IType(ORI, rt, 0, LowerOf(e));
      } else {
        IType(LUI, AT, 0, UpperOf(e));
        HalvesNeverSplit(Model(), e, ORI);
        IType(ORI, rt, AT, LowerOf(e));
      }
    }

    /** `j_type_inst` */
    method JType(op: Op, symbol: Option<string>)
      modifies this
      ensures Model() == JTypeInst(old(Model()), op, symbol)
    {
      hide StoreResolved, StoreWaiting;
      var e := Expr(0, symbol, Full, false);
      StoreUse(Slot(Inst(op, 0, 0, 0, 0, 0, 0), Some(e)), symbol);
    }

    /** `resolve_label_uses`: from the latest use to the first. */
    method ResolveLabelUses(name: string)
      modifies this
      ensures Model() == Settle(old(Model()), name)
    {
      hide Resolve;
      var us := Model().UsesOf(name);
      var i := 0;
      assert us[0..] == us;
      while i < |us|
        invariant i <= |us| && ResolveUses(Model(), us[i..]) == ResolveUses(old(Model()), us)
        invariant symbols == old(symbols) && uses == old(uses)
      {
        assert us[i..][1..] == us[i + 1..];
        if us[i] < |text| {
          ResolveAt(us[i]);
        }
        i := i + 1;
      }
      assert us[i..] == [];
      uses := uses[name := []];
    }

    /** `record_label` without resolving. */
    method RecordLabel(name: string, addr: Word)
      modifies this`symbols
      ensures Model() == Record(old(Model()), name, addr)
    {
      if !Model().Defined(Some(name)) {
        symbols := symbols[name := addr];
      }
    }

    method EmitStmt(stmt: Stmt)
      requires !stmt.LabelStmt?
      modifies this
      ensures Model() == Emit(old(Model()), stmt)
    {
      hide ITypeInst, JTypeInst, Settle;
      match stmt
      case RegStmt(inst) => StoreInst(Slot(inst, None));
      case ImmStmt(op, rt, rs, offset, symbol, rel) => IType(op, rt, rs, Expr(offset, symbol, Full, rel));
      case JumpStmt(op, symbol) => JType(op, symbol);
    }

    /** `clear_labels` */
    method ClearLabels(names: seq<string>)
      modifies this
      ensures Model() == SettleAll(old(Model()), names)
    {
      hide Settle;
      var i := 0;
      assert names[0..] == names;
      while i < |names|
        invariant i <= |names| && SettleAll(Model(), names[i..]) == SettleAll(old(Model()), names)
      {
        assert names[i..][1..] == names[i + 1..];
        ResolveLabelUses(names[i]);
        i := i + 1;
      }
      assert names[i..] == [];
    }

    /** `emit_ast` over a text segment: labels wait for the statement after them, then their uses are
        resolved, the latest label first. */
    method EmitNodes(nodes: seq<Node>)
      requires forall node | node in nodes :: node.CodeNode? ==> !node.stmt.LabelStmt?
      modifies this
      ensures Model() == EmitAll(old(Model()), Lines(nodes))
    {
      hide Emit, Settle;
      var pending: seq<string> := [];
      var i := 0;
      assert nodes[0..] == nodes;
      while i < |nodes|
        invariant i <= |nodes| && RunNodes(Model(), pending, nodes[i..]) == RunNodes(old(Model()), [], nodes)
      {
        assert nodes[i..][1..] == nodes[i + 1..] && nodes[i] in nodes;
        if nodes[i].LabelNode? {
          RecordLabel(nodes[i].name, nodes[i].addr);
          pending := [nodes[i].name] + pending;
        } else {
          EmitStmt(nodes[i].stmt);
          ClearLabels(pending);
          pending := [];
        }
        i := i + 1;
      }
      assert nodes[i..] == [];
      ClearLabels(pending);
      NodesAreLines(old(Model()), [], nodes);
    }
  }

  // ----- nodes and lines -----

  /** A file as the parser leaves it: label definitions and statements, one after another. */
  datatype Node = LabelNode(name: string, addr: Word) | CodeNode(stmt: Stmt)

  /** The same with each label put before the statement it waits for. */
  function Lines(nodes: seq<Node>): seq<Stmt>
    decreases |nodes|
  {
    if nodes == [] then []
    else
      var rest := Lines(nodes[1..]);
      match nodes[0]
      case CodeNode(stmt) => [stmt] + rest
      case LabelNode(name, addr) =>
        if rest == [] then [LabelStmt(name, addr, None)] else [LabelStmt(name, addr, Some(rest[0]))] + rest[1..]
  }

  function SettleAll(a: Asm, names: seq<string>): Asm
    decreases |names|
  {
    if names == [] then a else SettleAll(Settle(a, names[0]), names[1..])
  }

  /** Node by node, with the labels still pending. */
  function RunNodes(a: Asm, pending: seq<string>, nodes: seq<Node>): Asm
    decreases |nodes|
  {
    if nodes == [] then SettleAll(a, pending)
    else match nodes[0]
         case LabelNode(name, addr) => RunNodes(Record(a, name, addr), [name] + pending, nodes[1..])
         case CodeNode(stmt) => RunNodes(SettleAll(Emit(a, stmt), pending), [], nodes[1..])
  }

  /** Walking the nodes with a list of pending labels is assembling the labelled lines. */
  lemma {:induction false} NodesAreLines(a: Asm, pending: seq<string>, nodes: seq<Node>)
    ensures var lines := Lines(nodes);
            RunNodes(a, pending, nodes) ==
            if lines == [] then SettleAll(a, pending) else EmitAll(SettleAll(Emit(a, lines[0]), pending), lines[1..])
    ensures pending == [] ==> RunNodes(a, pending, nodes) == EmitAll(a, Lines(nodes))
    decreases |nodes|
  {
    hide Settle, Record;
    if nodes != [] {
      var rest := Lines(nodes[1..]);
      match nodes[0]
      case CodeNode(stmt) =>
        NodesAreLines(SettleAll(Emit(a, stmt), pending), [], nodes[1..]);
        assert ([stmt] + rest)[1..] == rest;
      case LabelNode(name, addr) =>
        var b := Record(a, name, addr);
        NodesAreLines(b, [name] + pending, nodes[1..]);
        assert ([name] + pending)[1..] == pending;
        if rest != [] {
          assert ([LabelStmt(name, addr, Some(rest[0]))] + rest[1..])[1..] == rest[1..];
        }
    }
  }

  /** What an access split into `high` and `low` becomes. */
  function AccessCode(a: Asm, op: Op, rt: Reg, rs: Reg, high: Expr, low: Expr): Asm {
    var a1 := ITypeInst(a, LUI, AT, 0, high);
    var a2 := if rs != 0 then RTypeInst(a1, ADDU, AT, AT, rs) else a1;
    ITypeInst(a2, op, rt, AT, low)
  }

  lemma AccessUnfolds(a: Asm, op: Op, rt: Reg, rs: Reg, e: Expr)
    requires IsMem(op) && Splits(a, op, e)
    ensures FullWord(a, op, rt, rs, e) ==
            if a.Defined(e.symbol)
            then var v := Value(a, e);
                 AccessCode(a, op, rt, rs, Const(v / 0x1_0000 + (if v % 0x1_0000 >= 0x8000 then 1 else 0)),
                            LowerOf(Const(v % 0x1_0000)))
            else AccessCode(a, op, rt, rs, UpperOf(e), LowerOf(e))
  {
    hide ITypeInst, Eval, Splits, IsMem;
  }

  lemma ComputeUnfolds(a: Asm, op: Op, rt: Reg, rs: Reg, e: Expr)
    requires !IsMem(op) && Splits(a, op, e)
    ensures FullWord(a, op, rt, rs, e) ==
            if IsBranch(op) then ITypeInst(a, op, rt, rs, LowerOf(e))
            else if rs == 0 && (op == ORI || op == ADDI || op == ADDIU || op == LUI) then ProduceImmediate(a, e, rt)
            else match RegisterForm(op)
                 case Some(rop) => RTypeInst(ProduceImmediate(a, e, AT), rop, rt, rs, AT)
                 case None => ProduceImmediate(a, e, AT)
  {
    hide ITypeInst, Splits, IsMem, IsBranch, ProduceImmediate, RegisterForm;
  }

  lemma ConstHalves(op: Op, high: Half, low: Half)
    requires IsMem(op)
    ensures forall a: Asm :: !Splits(a, LUI, Const(high)) && !Splits(a, op, LowerOf(Const(low)))
  {
    hide Splits, IsMem;
    forall a: Asm ensures !Splits(a, LUI, Const(high)) && !Splits(a, op, LowerOf(Const(low))) {
      ConstSplits(a, LUI, high);
      ConstSplits(a, op, low);
    }
  }

  lemma SymbolHalves(op: Op, e: Expr)
    requires IsMem(op)
    ensures forall a: Asm :: !Splits(a, LUI, UpperOf(e)) && !Splits(a, op, LowerOf(e))
  {
    hide Splits, IsMem;
    forall a: Asm ensures !Splits(a, LUI, UpperOf(e)) && !Splits(a, op, LowerOf(e)) {
      HalvesNeverSplit(a, e, LUI);
      HalvesNeverSplit(a, e, op);
    }
  }

  /** A value that must be split has an upper half with room for the carry. */
  lemma HighHalf(a: Asm, op: Op, e: Expr)
    requires IsMem(op) && Splits(a, op, e) && a.Defined(e.symbol)
    ensures var v := Value(a, e); v / 0x1_0000 + (if v % 0x1_0000 >= 0x8000 then 1 else 0) < 0x1_0000
  {
    hide IsMem, SignExtends;
    if e.bits != Full {
      HalvesNeverSplit(a, e.(bits := Full), op);
    }
    assert SignExtends(op) ==> !IsMem(op) by { NotBoth(op); }
  }

  lemma NotBoth(op: Op)
    ensures !(SignExtends(op) && IsMem(op))
  {
  }
}
