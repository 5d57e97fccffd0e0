/** Forward references to labels: every load or store that names a label ends up addressing
    base + label + offset, whichever statements come between the use and the definition. */
module Fixup {
  import opened Words
  import opened Isa
  import opened Blocks
  import opened Assembler
  import opened Legalise

  // ----- statements -----

  /** What the assembler commits to the text segment, one source line at a time. Expressions
      written by the programmer take all 32 bits. A label stands before a statement (itself
      perhaps labelled), or at the end; its uses are resolved after that statement. */
  datatype Stmt =
    | RegStmt(inst: Inst)
    | ImmStmt(op: Op, rt: Reg, rs: Reg, offset: Word, symbol: Option<string>, pcRelative: bool)
    | JumpStmt(op: Op, symbol: Option<string>)
    | LabelStmt(name: string, addr: Word, line: Option<Stmt>)

  /** Resolve the waiting instructions in list order. */
  function ResolveUses(a: Asm, us: seq<nat>): (a': Asm)
    ensures |a'.text| == |a.text| && a' == a.(text := a'.text)
    decreases |us|
  {
    if us == [] then a
    else ResolveUses(if us[0] < |a.text| then Resolve(a, us[0]) else a, us[1..])
  }

  /** `resolve_label_uses` */
  function Settle(a: Asm, name: string): Asm {
    var a' := ResolveUses(a, a.UsesOf(name));
    a'.(uses := a'.uses[name := []])
  }

  /** `record_label`; a second definition is reported and ignored. */
  function Record(a: Asm, name: string, addr: Word): Asm {
    if a.Defined(Some(name)) then a else a.(symbols := a.symbols[name := addr])
  }

  function JTypeInst(a: Asm, op: Op, symbol: Option<string>): Asm {
    var e := Expr(0, symbol, Full, false);
    var slot := Slot(Inst(op, 0, 0, 0, 0, 0, 0), Some(e));
    if a.Defined(symbol) then StoreResolved(a, slot) else StoreWaiting(a, slot, symbol.value)
  }

  function Emit(a: Asm, stmt: Stmt): Asm
    decreases stmt
  {
    match stmt
    case RegStmt(inst) => Keep(a, Slot(inst, None))
    case ImmStmt(op, rt, rs, offset, symbol, rel) => ITypeInst(a, op, rt, rs, Expr(offset, symbol, Full, rel))
    case JumpStmt(op, symbol) => JTypeInst(a, op, symbol)
    case LabelStmt(name, addr, line) =>
      var b := Record(a, name, addr);
      Settle(match line case Some(stmt') => Emit(b, stmt') case None => b, name)
  }

  /** The definition of a label, with the statement on its line if there is one. */
  function Define(a: Asm, name: string, addr: Word, line: Option<Stmt>): Asm {
    Emit(a, LabelStmt(name, addr, line))
  }

  function EmitAll(a: Asm, stmts: seq<Stmt>): Asm
    decreases |stmts|
  {
    if stmts == [] then a else EmitAll(Emit(a, stmts[0]), stmts[1..])
  }

  // ----- well-formed fix-up lists -----

  ghost predicate Descending(us: seq<nat>) {
    forall i, j | 0 <= i < j < |us| :: us[i] > us[j]
  }

  /** The `lui` that belongs to the load or store at `k`: directly before it, or behind the
      `addu` of its base register. */
  ghost predicate HasLui(text: seq<Slot>, k: nat, name: string)
    requires k < |text|
  {
    || (k >= 1 && text[k - 1].inst.op == LUI && Names(text[k - 1], name))
    || (k >= 2 && text[k - 1].inst.op == ADDU && text[k - 1].expr.None? && text[k - 2].inst.op == LUI && Names(text[k - 2], name))
  }

  predicate Names(slot: Slot, name: string) {
    slot.expr.Some? && slot.expr.value.symbol == Some(name)
  }

  ghost predicate UseOk(text: seq<Slot>, k: nat, name: string) {
    k < |text| && Names(text[k], name) && (IsMem(text[k].inst.op) ==> HasLui(text, k, name))
  }

  ghost predicate WellFormed(a: Asm) {
    forall name :: Descending(a.UsesOf(name)) && forall k | k in a.UsesOf(name) :: UseOk(a.text, k, name)
  }

  // ----- what a step may change, seen from one label -----

  predicate SameShape(x: Slot, y: Slot) {
    && x.inst.op == y.inst.op
    && x.expr.Some? == y.expr.Some?
    && (x.expr.Some? ==> x.expr.value.symbol == y.expr.value.symbol)
  }

  /** Seen from label `name`, the text only grew: slots that name it, or name nothing, are as
      before, the others kept their shape; its list of uses grew at the front. */
  ghost predicate Grows(a: Asm, a': Asm, name: string) {
    && |a.text| <= |a'.text|
    && a'.base == a.base && a'.delayedBranches == a.delayedBranches
    && (forall k | 0 <= k < |a.text| :: SameShape(a.text[k], a'.text[k]))
    && (forall k | 0 <= k < |a.text| && (a.text[k].expr.None? || Names(a.text[k], name)) :: a'.text[k] == a.text[k])
    && (exists front: seq<nat> :: FrontOf(a, a', name, front))
  }

  ghost predicate FrontOf(a: Asm, a': Asm, name: string, front: seq<nat>) {
    && a'.UsesOf(name) == front + a.UsesOf(name)
    && forall k | k in front :: k >= |a.text|
  }

  lemma GrowsRefl(a: Asm, name: string)
    ensures Grows(a, a, name)
  {
    assert FrontOf(a, a, name, []);
  }

  lemma GrowsTrans(a: Asm, b: Asm, c: Asm, name: string)
    requires Grows(a, b, name) && Grows(b, c, name)
    ensures Grows(a, c, name)
  {
    var f :| FrontOf(a, b, name, f);
    var g :| FrontOf(b, c, name, g);
    assert FrontOf(a, c, name, g + f);
    forall k | 0 <= k < |a.text| ensures SameShape(a.text[k], c.text[k]) {
      assert SameShape(a.text[k], b.text[k]) && SameShape(b.text[k], c.text[k]);
    }
  }

  lemma KeepGrows(a: Asm, slot: Slot, name: string)
    ensures Grows(a, Keep(a, slot), name)
  {
    assert FrontOf(a, Keep(a, slot), name, []);
  }

  lemma WaitingGrows(a: Asm, slot: Slot, symbol: string, name: string)
    ensures Grows(a, StoreWaiting(a, slot, symbol), name)
  {
    var a' := StoreWaiting(a, slot, symbol);
    assert FrontOf(a, a', name, if symbol == name then [|a.text|] else []);
  }

  /** Does resolving this instruction, now, push a carry into an earlier `lui` of `name`? */
  predicate Pushes(a: Asm, op: Op, e: Expr, name: string) {
    e.symbol == Some(name) && a.Defined(Some(name)) && IsMem(op) && Value(a, e) / 0x8000 % 2 == 1
  }

  lemma CompensateTouches(text: seq<Slot>, k: nat, symbol: Option<string>, m: nat)
    requires k <= |text| && m < |text|
    ensures var r := Compensate(text, k, symbol);
            && SameShape(text[m], r[m])
            && (r[m] != text[m] ==> text[m].expr.Some? && text[m].expr.value.symbol == symbol && (m + 1 == k || m + 2 == k))
  {
  }

  lemma ResolveTouches(a: Asm, k: nat, m: nat)
    requires k < |a.text| && m < |a.text|
    ensures var r := Resolve(a, k).text;
            && SameShape(a.text[m], r[m])
            && (m != k && r[m] != a.text[m] ==>
                  && a.text[m].expr.Some? && a.text[k].expr.Some?
                  && a.text[m].expr.value.symbol == a.text[k].expr.value.symbol
                  && (m + 1 == k || m + 2 == k))
  {
    hide Compensate, BranchField, Value, IsMem, IsBranch, IsJump;
    if a.text[k].expr.Some? {
      var e := ExprAt(a, k);
      var patched := Slot(Patched(a.text[k].inst, Value(a, e), a.delayedBranches), Some(e));
      CompensateTouches(a.text[k := patched], k, e.symbol, m);
    }
  }

  lemma StoreResolvedGrows(a: Asm, slot: Slot, name: string)
    requires slot.expr.Some? && !Pushes(a, slot.inst.op, slot.expr.value, name)
    requires IsMem(slot.inst.op) ==> !slot.expr.value.pcRelative
    ensures Grows(a, StoreResolved(a, slot), name)
  {
    hide Resolve, IsMem, Value;
    var b, k := Keep(a, slot), |a.text|;
    var a' := Resolve(b, k);
    assert FrontOf(a, a', name, []);
    forall m | 0 <= m < k
      ensures SameShape(a.text[m], a'.text[m])
      ensures a.text[m].expr.None? || Names(a.text[m], name) ==> a'.text[m] == a.text[m]
    {
      assert b.text[m] == a.text[m];
      ResolveTouches(b, k, m);
      if Names(slot, name) {
        StoreResolvedSettled(a, slot, name, m);
      }
    }
  }

  lemma StoreResolvedSettled(a: Asm, slot: Slot, name: string, m: nat)
    requires Names(slot, name) && !Pushes(a, slot.inst.op, slot.expr.value, name) && m < |a.text|
    requires IsMem(slot.inst.op) ==> !slot.expr.value.pcRelative
    ensures Resolve(Keep(a, slot), |a.text|).text[m] == a.text[m]
  {
    hide Compensate, Patched, Eval, FamilyOf;
  }

  /** A split access, or one that does not fit, leaves the `lui`s of other statements alone. */
  predicate Steals(a: Asm, op: Op, e: Expr, name: string) {
    Pushes(a, op, e, name) && !Splits(a, op, e)
  }

  lemma UnsplitGrows(a: Asm, op: Op, rt: Reg, rs: Reg, e: Expr, name: string)
    requires !Splits(a, op, e) && !Pushes(a, op, e, name)
    requires IsMem(op) ==> !e.pcRelative
    ensures Grows(a, ITypeInst(a, op, rt, rs, e), name)
  {
    hide Grows, Resolve, Fits, Value, Pushes, IsMem, StoreWaiting, StoreResolved;
    var slot := Slot(IType(op, rt, rs, 0), Some(e));
    if a.Defined(e.symbol) {
      StoreResolvedGrows(a, slot, name);
    } else {
      WaitingGrows(a, slot, e.symbol.value, name);
    }
  }

  // ----- every statement keeps the lists well formed -----

  /** `text'` extends `text`, slot for slot of the same shape. */
  ghost predicate Extends(text: seq<Slot>, text': seq<Slot>) {
    |text| <= |text'| && forall k | 0 <= k < |text| :: SameShape(text[k], text'[k])
  }

  lemma UseOkExtends(text: seq<Slot>, text': seq<Slot>, k: nat, name: string)
    requires Extends(text, text') && UseOk(text, k, name)
    ensures UseOk(text', k, name)
  {
    hide IsMem;
    assert SameShape(text[k], text'[k]);
    if k >= 1 {
      assert SameShape(text[k - 1], text'[k - 1]);
    }
    if k >= 2 {
      assert SameShape(text[k - 2], text'[k - 2]);
    }
  }

  /** Growing the text without new uses. */
  lemma ExtendsWellFormed(a: Asm, a': Asm)
    requires WellFormed(a) && Extends(a.text, a'.text) && a'.uses == a.uses
    ensures WellFormed(a')
  {
    hide UseOk, Descending;
    forall name ensures Descending(a'.UsesOf(name)) && forall k | k in a'.UsesOf(name) :: UseOk(a'.text, k, name) {
      assert a'.UsesOf(name) == a.UsesOf(name);
      forall k | k in a'.UsesOf(name) ensures UseOk(a'.text, k, name) {
        UseOkExtends(a.text, a'.text, k, name);
      }
    }
  }

  lemma StoreResolvedExtends(a: Asm, slot: Slot)
    ensures Extends(a.text, StoreResolved(a, slot).text)
    ensures StoreResolved(a, slot).uses == a.uses && StoreResolved(a, slot).symbols == a.symbols
  {
    hide Resolve;
    var b, k := Keep(a, slot), |a.text|;
    forall m | 0 <= m < k ensures SameShape(a.text[m], Resolve(b, k).text[m]) {
      ResolveTouches(b, k, m);
    }
  }

  lemma WaitingWellFormed(a: Asm, slot: Slot, symbol: string)
    requires WellFormed(a) && Names(slot, symbol)
    requires IsMem(slot.inst.op) ==> HasLui(a.text + [slot], |a.text|, symbol)
    ensures WellFormed(StoreWaiting(a, slot, symbol))
    ensures Extends(a.text, StoreWaiting(a, slot, symbol).text)
  {
    hide UseOk, Descending;
    var a', n := StoreWaiting(a, slot, symbol), |a.text|;
    forall name ensures Descending(a'.UsesOf(name)) && forall k | k in a'.UsesOf(name) :: UseOk(a'.text, k, name) {
      forall k | k in a'.UsesOf(name) ensures UseOk(a'.text, k, name) {
        if k in a.UsesOf(name) {
          UseOkExtends(a.text, a'.text, k, name);
        } else {
          NewUseOk(a', n, symbol);
        }
      }
      PushDescending(a, name);
    }
  }

  lemma NewUseOk(a: Asm, n: nat, symbol: string)
    requires n < |a.text| && Names(a.text[n], symbol) && (IsMem(a.text[n].inst.op) ==> HasLui(a.text, n, symbol))
    ensures UseOk(a.text, n, symbol)
  {
  }

  lemma PushDescending(a: Asm, name: string)
    requires WellFormed(a)
    ensures Descending([|a.text|] + a.UsesOf(name)) && Descending(a.UsesOf(name))
  {
    hide HasLui;
    var us := a.UsesOf(name);
    forall j | 0 <= j < |us| ensures us[j] < |a.text| {
      assert us[j] in us && UseOk(a.text, us[j], name);
    }
  }

  /** One unsplit instruction, not a load or store still waiting for its label. */
  lemma UnsplitWellFormed(a: Asm, op: Op, rt: Reg, rs: Reg, e: Expr)
    requires WellFormed(a) && !Splits(a, op, e) && (IsMem(op) ==> a.Defined(e.symbol))
    ensures var a' := ITypeInst(a, op, rt, rs, e);
            WellFormed(a') && Extends(a.text, a'.text) && a'.symbols == a.symbols
  {
    hide WellFormed, Extends, Resolve, Fits, Value, IsMem, StoreResolved, StoreWaiting;
    var slot := Slot(IType(op, rt, rs, 0), Some(e));
    if a.Defined(e.symbol) {
      StoreResolvedExtends(a, slot);
      ExtendsWellFormed(a, StoreResolved(a, slot));
    } else {
      WaitingWellFormed(a, slot, e.symbol.value);
      WaitingSymbols(a, slot, e.symbol.value);
    }
  }

  lemma WaitingSymbols(a: Asm, slot: Slot, symbol: string)
    ensures StoreWaiting(a, slot, symbol).symbols == a.symbols
  {
  }

  // ----- a load or store of an undefined label -----

  function AccessExpr(offset: Word, name: string): Expr {
    Expr(offset, Some(name), Full, false)
  }

  /** The two or three instructions waiting for the label: `lui`, `addu` of the base, access. */
  function Group(op: Op, rt: Reg, rs: Reg, e: Expr): seq<Slot> {
    [Slot(IType(LUI, AT, 0, 0), Some(UpperOf(e)))]
      + (if rs != 0 then [Slot(RType(ADDU, AT, AT, rs), None)] else [])
      + [Slot(IType(op, rt, AT, 0), Some(LowerOf(e)))]
  }

  lemma WaitingUnsplit(a: Asm, op: Op, rt: Reg, rs: Reg, e: Expr)
    requires !a.Defined(e.symbol) && e.bits != Full
    ensures ITypeInst(a, op, rt, rs, e) == StoreWaiting(a, Slot(IType(op, rt, rs, 0), Some(e)), e.symbol.value)
  {
    hide FullWord, StoreResolved, StoreWaiting;
  }

  lemma WaitingAccessUnfolds(a: Asm, op: Op, rt: Reg, rs: Reg, e: Expr)
    requires !a.Defined(e.symbol) && e.bits == Full && IsMem(op)
    ensures var a1 := ITypeInst(a, LUI, AT, 0, UpperOf(e));
            var a2 := if rs != 0 then RTypeInst(a1, ADDU, AT, AT, rs) else a1;
            ITypeInst(a, op, rt, rs, e) == ITypeInst(a2, op, rt, AT, LowerOf(e))
  {
    hide ProduceImmediate, StoreResolved, StoreWaiting, RTypeInst, Value, Fits;
    assert ITypeInst(a, op, rt, rs, e) == FullWord(a, op, rt, rs, e);
  }

  lemma WaitingAccess(a: Asm, op: Op, rt: Reg, rs: Reg, offset: Word, name: string)
    requires !a.Defined(Some(name)) && IsMem(op)
    ensures var e := AccessExpr(offset, name);
            var n := |a.text|;
            var j := if rs != 0 then n + 2 else n + 1;
            ITypeInst(a, op, rt, rs, e)
            == a.(text := a.text + Group(op, rt, rs, e), uses := a.uses[name := [j, n] + a.UsesOf(name)])
  {
    hide ITypeInst, FullWord, IsMem, Wrap;
    var e, n := AccessExpr(offset, name), |a.text|;
    WaitingAccessUnfolds(a, op, rt, rs, e);
    var a1 := ITypeInst(a, LUI, AT, 0, UpperOf(e));
    WaitingUnsplit(a, LUI, AT, 0, UpperOf(e));
    var a2 := if rs != 0 then RTypeInst(a1, ADDU, AT, AT, rs) else a1;
    WaitingUnsplit(a2, op, rt, AT, LowerOf(e));
    TwoWaiting(a, rt, rs, op, e, a2);
  }

  lemma TwoWaiting(a: Asm, rt: Reg, rs: Reg, op: Op, e: Expr, a2: Asm)
    requires e.symbol.Some? && var a1 := StoreWaiting(a, Slot(IType(LUI, AT, 0, 0), Some(UpperOf(e))), e.symbol.value);
                               a2 == if rs != 0 then RTypeInst(a1, ADDU, AT, AT, rs) else a1
    ensures var n, name := |a.text|, e.symbol.value;
            var j := if rs != 0 then n + 2 else n + 1;
            StoreWaiting(a2, Slot(IType(op, rt, AT, 0), Some(LowerOf(e))), name)
            == a.(text := a.text + Group(op, rt, rs, e), uses := a.uses[name := [j, n] + a.UsesOf(name)])
  {
    var n, name := |a.text|, e.symbol.value;
    assert a2.UsesOf(name) == [n] + a.UsesOf(name);
    assert [|a2.text|] + ([n] + a.UsesOf(name)) == [|a2.text|, n] + a.UsesOf(name);
  }

  lemma LuiBefore(text: seq<Slot>, lui: Slot, addu: Slot, slot: Slot, name: string)
    requires lui.inst.op == LUI && Names(lui, name) && addu.inst.op == ADDU && addu.expr.None?
    ensures HasLui(text + [lui] + [slot], |text + [lui]|, name)
    ensures HasLui(text + [lui] + [addu] + [slot], |text + [lui] + [addu]|, name)
  {
  }

  lemma WaitingAccessWellFormed(a: Asm, op: Op, rt: Reg, rs: Reg, offset: Word, name: string)
    requires WellFormed(a) && !a.Defined(Some(name)) && IsMem(op)
    ensures WellFormed(ITypeInst(a, op, rt, rs, AccessExpr(offset, name)))
  {
    hide ITypeInst, FullWord, WellFormed, IsMem, HasLui;
    var e := AccessExpr(offset, name);
    WaitingAccessUnfolds(a, op, rt, rs, e);
    var lui, addu := Slot(IType(LUI, AT, 0, 0), Some(UpperOf(e))), Slot(RType(ADDU, AT, AT, rs), None);
    var last := Slot(IType(op, rt, AT, 0), Some(LowerOf(e)));
    var a1 := StoreWaiting(a, lui, name);
    WaitingUnsplit(a, LUI, AT, 0, UpperOf(e));
    LuiIsNotMem();
    WaitingWellFormed(a, lui, name);
    var a2 := if rs != 0 then Keep(a1, addu) else a1;
    AccessStep(a1, a2, addu);
    WaitingUnsplit(a2, op, rt, AT, LowerOf(e));
    LuiBefore(a.text, lui, addu, last, name);
    WaitingWellFormed(a2, last, name);
  }

  lemma AccessStep(a1: Asm, a2: Asm, addu: Slot)
    requires WellFormed(a1) && (a2 == a1 || a2 == Keep(a1, addu))
    ensures WellFormed(a2)
  {
    hide WellFormed;
    if a2 != a1 {
      ExtendsWellFormed(a1, a2);
    }
  }

  lemma LuiIsNotMem()
    ensures !IsMem(LUI)
  {
  }

  // ----- splitting in general -----

  /** The steps of a split statement that is not a waiting access. */
  lemma ProduceGrows(a: Asm, e: Expr, rt: Reg, name: string)
    requires WellFormed(a)
    ensures var a' := ProduceImmediate(a, e, rt);
            Grows(a, a', name) && WellFormed(a') && a'.symbols == a.symbols
  {
    hide Grows, WellFormed, ITypeInst, FullWord, Eval, Extends;
    var v := Value(a, e);
    HalvesNeverSplit(a, e, LUI);
    HalvesNeverSplit(a, e, ORI);
    if a.Defined(e.symbol) && v % 0x1_0000 == 0 {
      UnsplitGrows(a, LUI, rt, 0, UpperOf(e), name);
      UnsplitWellFormed(a, LUI, rt, 0, UpperOf(e));
    } else if a.Defined(e.symbol) && v < 0x1_0000 {
      UnsplitGrows(a, ORI, rt, 0, LowerOf(e), name);
      UnsplitWellFormed(a, ORI, rt, 0, LowerOf(e));
    } else {
      UnsplitGrows(a, LUI, AT, 0, UpperOf(e), name);
      UnsplitWellFormed(a, LUI, AT, 0, UpperOf(e));
      var b := ITypeInst(a, LUI, AT, 0, UpperOf(e));
      HalvesNeverSplit(b, e, ORI);
      UnsplitGrows(b, ORI, rt, AT, LowerOf(e), name);
      UnsplitWellFormed(b, ORI, rt, AT, LowerOf(e));
      GrowsTrans(a, b, ProduceImmediate(a, e, rt), name);
    }
  }

  lemma HalvesAreSmall(a: Asm, e: Expr)
    ensures Value(a, UpperOf(e)) < 0x1_0000 && Value(a, LowerOf(e)) < 0x1_0000
  {
  }

  lemma SmallFits(op: Op, bits: Bits, v: Word)
    requires (op == LUI || op == ORI || IsMem(op) || IsBranch(op)) && bits != Full && v < 0x1_0000
    ensures Fits(op, bits, v)
    ensures op == LUI || op == ORI || IsBranch(op) ==> !IsMem(op)
  {
  }

  lemma HalvesNeverSplit(a: Asm, e: Expr, op: Op)
    requires op == LUI || op == ORI || IsMem(op) || IsBranch(op)
    ensures !Splits(a, op, UpperOf(e)) && !Splits(a, op, LowerOf(e))
    ensures op == LUI || op == ORI || IsBranch(op) ==> !IsMem(op)
  {
    hide Fits, Value, IsMem, IsBranch;
    HalvesAreSmall(a, e);
    SmallFits(op, Upper, Value(a, UpperOf(e)));
    SmallFits(op, Lower, Value(a, LowerOf(e)));
  }

  lemma KnownAccessGrows(a: Asm, op: Op, rt: Reg, rs: Reg, e: Expr, name: string)
    requires WellFormed(a) && IsMem(op) && a.Defined(e.symbol) && e.bits == Full && Splits(a, op, e)
    ensures var a' := ITypeInst(a, op, rt, rs, e);
            Grows(a, a', name) && WellFormed(a') && a'.symbols == a.symbols
  {
    hide Grows, WellFormed, ITypeInst, FullWord, Eval, Extends, CarriedHigh, IsMem, Fits;
    var v := Value(a, e);
    var low, high := v % 0x1_0000, CarriedHigh(v);
    AccessUnfolds(a, op, rt, rs, e);
    PrefixGrows(a, rs, high, name);
    var a2 := EmitPrefix(a, rs, high);
    ConstSplits(a2, op, low);
    UnsplitGrows(a2, op, rt, AT, LowerOf(Const(low)), name);
    UnsplitWellFormed(a2, op, rt, AT, LowerOf(Const(low)));
    GrowsTrans(a, a2, ITypeInst(a2, op, rt, AT, LowerOf(Const(low))), name);
  }

  lemma PrefixGrows(a: Asm, rs: Reg, high: Half, name: string)
    requires WellFormed(a)
    ensures var a2 := EmitPrefix(a, rs, high);
            Grows(a, a2, name) && WellFormed(a2) && a2.symbols == a.symbols
  {
    hide Grows, WellFormed, ITypeInst, FullWord, Extends, Fits, Eval;
    ConstSplits(a, LUI, high);
    LuiIsNotMem();
    var a1 := ITypeInst(a, LUI, AT, 0, Const(high));
    UnsplitGrows(a, LUI, AT, 0, Const(high), name);
    UnsplitWellFormed(a, LUI, AT, 0, Const(high));
    if rs != 0 {
      var addu := Slot(RType(ADDU, AT, AT, rs), None);
      AccessStep(a1, Keep(a1, addu), addu);
      KeepGrows(a1, addu, name);
      GrowsTrans(a, a1, Keep(a1, addu), name);
    }
  }

  lemma ConstSplits(a: Asm, op: Op, v: Half)
    requires op == LUI || IsMem(op)
    ensures op == LUI ==> !Splits(a, op, Const(v))
    ensures !Splits(a, op, LowerOf(Const(v)))
    ensures forall name: string :: !Pushes(a, op, Const(v), name) && !Pushes(a, op, LowerOf(Const(v)), name)
  {
    hide FamilyOf;
    ConstValues(v);
    if IsMem(op) {
      SmallFits(op, Lower, v);
    }
  }

  lemma RegisterFormGrows(a: Asm, op: Op, rt: Reg, rs: Reg, name: string)
    requires WellFormed(a)
    ensures var a' := match RegisterForm(op) case Some(rop) => RTypeInst(a, rop, rt, rs, AT) case None => a;
            Grows(a, a', name) && WellFormed(a') && a'.symbols == a.symbols
  {
    hide Grows, WellFormed, RegisterForm;
    GrowsRefl(a, name);
    if RegisterForm(op).Some? {
      var slot := Slot(RType(RegisterForm(op).value, rt, rs, AT), None);
      KeepGrows(a, slot, name);
      AccessStep2(a, slot);
    }
  }

  lemma AccessStep2(a: Asm, slot: Slot)
    requires WellFormed(a)
    ensures WellFormed(Keep(a, slot))
  {
    hide WellFormed;
    ExtendsWellFormed(a, Keep(a, slot));
  }

  lemma SplitComputeGrows(a: Asm, op: Op, rt: Reg, rs: Reg, e: Expr, name: string)
    requires WellFormed(a) && !IsMem(op) && !IsBranch(op) && Splits(a, op, e)
    ensures var a' := ITypeInst(a, op, rt, rs, e);
            Grows(a, a', name) && WellFormed(a') && a'.symbols == a.symbols
  {
    hide Grows, WellFormed, ProduceImmediate, RTypeInst, RegisterForm, Fits, Eval, StoreResolved, StoreWaiting;
    assert ITypeInst(a, op, rt, rs, e) == FullWord(a, op, rt, rs, e);
    if rs == 0 && (op == ORI || op == ADDI || op == ADDIU || op == LUI) {
      ProduceGrows(a, e, rt, name);
    } else {
      ProduceGrows(a, e, AT, name);
      var b := ProduceImmediate(a, e, AT);
      RegisterFormGrows(b, op, rt, rs, name);
      GrowsTrans(a, b, ITypeInst(a, op, rt, rs, e), name);
    }
  }

  lemma SplitBranchGrows(a: Asm, op: Op, rt: Reg, rs: Reg, e: Expr, name: string)
    requires WellFormed(a) && IsBranch(op) && Splits(a, op, e)
    ensures var a' := ITypeInst(a, op, rt, rs, e);
            Grows(a, a', name) && WellFormed(a') && a'.symbols == a.symbols
  {
    hide Grows, WellFormed, ProduceImmediate, RTypeInst, Fits, Eval, StoreResolved, StoreWaiting, Extends;
    HalvesNeverSplit(a, e, op);
    assert ITypeInst(a, op, rt, rs, e) == FullWord(a, op, rt, rs, e) == ITypeInst(a, op, rt, rs, LowerOf(e));
    UnsplitGrows(a, op, rt, rs, LowerOf(e), name);
    UnsplitWellFormed(a, op, rt, rs, LowerOf(e));
  }

  /** An immediate-type statement, seen from any label it does not steal from. */
  lemma ImmediateGrows(a: Asm, op: Op, rt: Reg, rs: Reg, e: Expr, name: string)
    requires WellFormed(a) && e.bits == Full && (IsMem(op) ==> !e.pcRelative) && !Steals(a, op, e, name)
    ensures var a' := ITypeInst(a, op, rt, rs, e);
            Grows(a, a', name) && WellFormed(a') && a'.symbols == a.symbols
  {
    hide Grows, WellFormed, ITypeInst, FullWord, Fits, Eval, IsBranch, IsMem, Extends;
    if !Splits(a, op, e) {
      UnsplitGrows(a, op, rt, rs, e, name);
      UnsplitWellFormed(a, op, rt, rs, e);
    } else if IsBranch(op) {
      SplitBranchGrows(a, op, rt, rs, e, name);
    } else if !IsMem(op) {
      SplitComputeGrows(a, op, rt, rs, e, name);
    } else if a.Defined(e.symbol) {
      KnownAccessGrows(a, op, rt, rs, e, name);
    } else {
      assert e == AccessExpr(e.offset, e.symbol.value);
      WaitingAccess(a, op, rt, rs, e.offset, e.symbol.value);
      WaitingAccessWellFormed(a, op, rt, rs, e.offset, e.symbol.value);
      WaitingAccessGrows(a, op, rt, rs, e.offset, e.symbol.value, name);
    }
  }

  lemma WaitingAccessGrows(a: Asm, op: Op, rt: Reg, rs: Reg, offset: Word, symbol: string, name: string)
    requires !a.Defined(Some(symbol)) && IsMem(op)
    ensures Grows(a, ITypeInst(a, op, rt, rs, AccessExpr(offset, symbol)), name)
  {
    hide ITypeInst, FullWord, IsMem;
    WaitingAccess(a, op, rt, rs, offset, symbol);
    var a' := ITypeInst(a, op, rt, rs, AccessExpr(offset, symbol));
    var n := |a.text|;
    var j := if rs != 0 then n + 2 else n + 1;
    assert FrontOf(a, a', name, if symbol == name then [j, n] else []);
  }

  // ----- other statements, and other labels -----

  lemma JumpGrows(a: Asm, op: Op, symbol: Option<string>, name: string)
    requires WellFormed(a) && IsJump(op)
    ensures var a' := JTypeInst(a, op, symbol);
            Grows(a, a', name) && WellFormed(a') && a'.symbols == a.symbols
  {
    hide Grows, WellFormed, StoreResolved, StoreWaiting, Extends, Value;
    var e := Expr(0, symbol, Full, false);
    var slot := Slot(Inst(op, 0, 0, 0, 0, 0, 0), Some(e));
    if a.Defined(symbol) {
      StoreResolvedGrows(a, slot, name);
      StoreResolvedExtends(a, slot);
      ExtendsWellFormed(a, StoreResolved(a, slot));
    } else {
      WaitingGrows(a, slot, symbol.value, name);
      WaitingWellFormed(a, slot, symbol.value);
      WaitingSymbols(a, slot, symbol.value);
    }
  }

  /** Resolving instructions that name `other` leaves the slots of `name` alone. */
  lemma {:induction false} ResolveUsesGrows(a: Asm, us: seq<nat>, other: string, name: string)
    requires name != other
    requires forall k | k in us :: k < |a.text| && Names(a.text[k], other)
    ensures var a' := ResolveUses(a, us);
            && Extends(a.text, a'.text)
            && forall m | 0 <= m < |a.text| && (a.text[m].expr.None? || Names(a.text[m], name)) :: a'.text[m] == a.text[m]
    decreases |us|
  {
    hide Resolve;
    if us != [] {
      var k := us[0];
      assert k in us;
      var b := Resolve(a, k);
      forall m | 0 <= m < |a.text|
        ensures SameShape(a.text[m], b.text[m])
        ensures a.text[m].expr.None? || Names(a.text[m], name) ==> b.text[m] == a.text[m]
      {
        ResolveTouches(a, k, m);
      }
      forall j | j in us[1..] ensures j < |b.text| && Names(b.text[j], other) {
        assert j in us;
        assert SameShape(a.text[j], b.text[j]);
      }
      ResolveUsesGrows(b, us[1..], other, name);
      var c := ResolveUses(b, us[1..]);
      forall m | 0 <= m < |a.text| ensures SameShape(a.text[m], c.text[m]) {
        assert SameShape(a.text[m], b.text[m]) && SameShape(b.text[m], c.text[m]);
      }
    }
  }

  lemma UsesName(a: Asm, other: string)
    requires WellFormed(a)
    ensures forall k | k in a.UsesOf(other) :: k < |a.text| && Names(a.text[k], other)
  {
    forall k | k in a.UsesOf(other) ensures k < |a.text| && Names(a.text[k], other) {
      assert UseOk(a.text, k, other);
    }
  }

  lemma SettleGrows(a: Asm, other: string, name: string)
    requires WellFormed(a) && name != other
    ensures var a' := Settle(a, other); Grows(a, a', name) && a'.symbols == a.symbols
  {
    hide WellFormed, ResolveUses;
    UsesName(a, other);
    ResolveUsesGrows(a, a.UsesOf(other), other, name);
    assert FrontOf(a, Settle(a, other), name, []);
  }

  lemma SettleWellFormed(a: Asm, other: string)
    requires WellFormed(a)
    ensures WellFormed(Settle(a, other))
  {
    hide ResolveUses, UseOk, Descending;
    UsesName(a, other);
    assert |other + "?"| == |other| + 1;
    ResolveUsesGrows(a, a.UsesOf(other), other, other + "?");
    var a' := Settle(a, other);
    forall name ensures Descending(a'.UsesOf(name)) && forall k | k in a'.UsesOf(name) :: UseOk(a'.text, k, name) {
      if name == other {
        EmptyDescending();
      } else {
        assert a'.UsesOf(name) == a.UsesOf(name);
        forall k | k in a'.UsesOf(name) ensures UseOk(a'.text, k, name) {
          UseOkExtends(a.text, a'.text, k, name);
        }
      }
    }
  }

  lemma RecordGrows(a: Asm, other: string, addr: Word, name: string)
    requires name != other
    ensures var a' := Record(a, other, addr);
            Grows(a, a', name) && AddrOfSymbol(a', Some(name)) == AddrOfSymbol(a, Some(name))
    ensures Record(a, other, addr).Defined(Some(name)) <==> a.Defined(Some(name))
  {
    assert FrontOf(a, Record(a, other, addr), name, []);
  }

  lemma EmptyDescending()
    ensures Descending([])
  {
  }

  /** A statement as the parser produces it: addresses are absolute, `j` and `jal` are the
      only jumps. */
  predicate Proper(stmt: Stmt) {
    match stmt
    case ImmStmt(op, _, _, _, _, rel) => IsMem(op) ==> !rel
    case JumpStmt(op, _) => IsJump(op)
    case LabelStmt(_, _, line) => line.Some? ==> Proper(line.value)
    case _ => true
  }

  /** The statement does not define `name`. */
  predicate Spares(stmt: Stmt, name: string) {
    match stmt
    case LabelStmt(other, _, line) => other != name && (line.Some? ==> Spares(line.value, name))
    case _ => true
  }

  ghost predicate AllSpare(stmts: seq<Stmt>, name: string) {
    forall stmt | stmt in stmts :: Proper(stmt) && Spares(stmt, name)
  }

  /** Every statement other than the definition of `name` keeps an undefined label's uses. */
  lemma EmitGrows(a: Asm, stmt: Stmt, name: string)
    requires WellFormed(a) && Proper(stmt) && !a.Defined(Some(name)) && Spares(stmt, name)
    ensures var a' := Emit(a, stmt);
            Grows(a, a', name) && WellFormed(a') && !a'.Defined(Some(name))
    decreases stmt
  {
    hide Grows, WellFormed, ITypeInst, JTypeInst, Settle, Record, IsMem, IsJump;
    match stmt
    case RegStmt(inst) =>
      KeepGrows(a, Slot(inst, None), name);
      AccessStep2(a, Slot(inst, None));
    case ImmStmt(op, rt, rs, offset, symbol, rel) =>
      ImmediateGrows(a, op, rt, rs, Expr(offset, symbol, Full, rel), name);
    case JumpStmt(op, symbol) =>
      JumpGrows(a, op, symbol, name);
    case LabelStmt(other, addr, line) =>
      var b := Record(a, other, addr);
      RecordGrows(a, other, addr, name);
      RecordWellFormed(a, other, addr);
      GrowsRefl(b, name);
      if line.Some? {
        EmitGrows(b, line.value, name);
      }
      var c := if line.Some? then Emit(b, line.value) else b;
      SettleGrows(c, other, name);
      SettleWellFormed(c, other);
      GrowsTrans(a, b, c, name);
      GrowsTrans(a, c, Settle(c, other), name);
  }

  lemma {:induction false} EmitAllGrows(a: Asm, stmts: seq<Stmt>, name: string)
    requires WellFormed(a) && !a.Defined(Some(name)) && AllSpare(stmts, name)
    ensures var a' := EmitAll(a, stmts);
            Grows(a, a', name) && WellFormed(a') && !a'.Defined(Some(name))
    decreases |stmts|
  {
    hide Grows, WellFormed, Emit, Proper, Spares;
    if stmts == [] {
      GrowsRefl(a, name);
    } else {
      EmitGrows(a, stmts[0], name);
      var b := Emit(a, stmts[0]);
      EmitAllGrows(b, stmts[1..], name);
      GrowsTrans(a, b, EmitAll(b, stmts[1..]), name);
    }
  }

  // ----- resolving the list, newest use first -----

  /** Instructions that take the lower half of a split value: accesses, and the `ori` of a
      constant. */
  predicate IsLow(op: Op) {
    IsMem(op) || op == ORI
  }

  /** A waiting pair in the text: the `lui` at `i` with expression offset `high`, the lower half
      at `j` with expression offset `low`. */
  ghost predicate Waits(text: seq<Slot>, i: nat, j: nat, op: Op, rt: Reg, high: Word, low: Word, name: string) {
    && i < j < |text|
    && (j == i + 1 || (j == i + 2 && text[i + 1].inst.op == ADDU && text[i + 1].expr.None?))
    && text[i] == Slot(IType(LUI, AT, 0, 0), Some(Expr(high, Some(name), Upper, false)))
    && text[j] == Slot(IType(op, rt, AT, 0), Some(Expr(low, Some(name), Lower, false)))
  }

  lemma {:induction false} ResolveUsesBelow(a: Asm, us: seq<nat>, m: nat)
    requires m < |a.text| && forall k | k in us :: k < m
    ensures ResolveUses(a, us).text[m] == a.text[m]
    decreases |us|
  {
    hide Resolve;
    if us != [] {
      assert us[0] in us;
      ResolveTouches(a, us[0], m);
      forall k | k in us[1..] ensures k < m {
        assert k in us;
      }
      ResolveUsesBelow(Resolve(a, us[0]), us[1..], m);
    }
  }

  /** A use above the group cannot reach the group's `lui`: its own is in between. */
  lemma LaterUseSpares(a: Asm, k: nat, i: nat, j: nat, op: Op, rt: Reg, high: Word, low: Word, name: string)
    requires Waits(a.text, i, j, op, rt, high, low, name) && IsLow(op) && j < k && UseOk(a.text, k, name)
    ensures Waits(Resolve(a, k).text, i, j, op, rt, high, low, name)
  {
    hide Resolve, IsMem;
    LowIsNotPrefix(op);
    var r := Resolve(a, k).text;
    ResolveTouches(a, k, i);
    ResolveTouches(a, k, i + 1);
    ResolveTouches(a, k, j);
    if r[i] != a.text[i] {
      assert k == i + 2 && j == i + 1;
      LuiSpared(a, k, i);
    }
    if r[j] != a.text[j] {
      LuiOnly(a, k, j);
    }
  }

  lemma LowIsNotPrefix(op: Op)
    requires IsLow(op)
    ensures op != LUI && op != ADDU && !IsJump(op) && !IsBranch(op)
  {
    hide FamilyOf;
    PrefixFamilies();
  }

  lemma PrefixFamilies()
    ensures FamilyOf(LUI) == Computing && FamilyOf(ADDU) == Computing && FamilyOf(ORI) == Computing
    ensures FamilyOf(J) == Other && FamilyOf(JAL) == Other
  {
  }

  /** Only an instruction of the load/store family pushes, and only into a `lui`. */
  lemma LuiOnly(a: Asm, k: nat, m: nat)
    requires k < |a.text| && m < |a.text| && m != k && Resolve(a, k).text[m] != a.text[m]
    ensures IsMem(a.text[k].inst.op) && a.text[m].inst.op == LUI
  {
    hide Value, Patched, IsMem;
  }

  lemma LuiSpared(a: Asm, k: nat, i: nat)
    requires k < |a.text| && k == i + 2 && Resolve(a, k).text[i] != a.text[i]
    requires a.text[k - 1].inst.op != LUI && a.text[k - 1].inst.op != ADDU
    ensures a.text[k].expr.Some? && a.text[k].expr.value.symbol.Some? ==> !UseOk(a.text, k, a.text[k].expr.value.symbol.value)
  {
    hide IsMem, Resolve;
    LuiOnly(a, k, i);
  }

  /** What the lower half adds to the upper one when it is resolved: an access sign-extends. */
  function CarryOf(op: Op, low: Word, addr: Word): Word {
    if IsMem(op) && Wrap(low + addr) % 0x1_0000 >= 0x8000 then 0x1_0000 else 0
  }

  /** The carry of the access at `j` reaches its own `lui`. */
  lemma CarryReaches(text: seq<Slot>, i: nat, j: nat, high: Word, name: string)
    requires i < j < |text| && (j == i + 1 || (j == i + 2 && text[i + 1].inst.op == ADDU))
    requires text[i] == Slot(IType(LUI, AT, 0, 0), Some(Expr(high, Some(name), Upper, false)))
    ensures Compensate(text, j, Some(name))
            == text[i := Slot(IType(LUI, AT, 0, 0), Some(Expr(Wrap(high + 0x1_0000), Some(name), Upper, false)))]
  {
    hide Wrap;
  }

  /** Resolving the access of the group: its low half, and the carry into its own `lui`. */
  lemma ResolveAccess(a: Asm, i: nat, j: nat, op: Op, rt: Reg, high: Word, low: Word, name: string, addr: Word)
    requires Waits(a.text, i, j, op, rt, high, low, name) && IsLow(op)
    requires name in a.symbols && a.symbols[name] == addr != 0
    ensures var r := Resolve(a, j).text;
            && r[j].inst == IType(op, rt, AT, Wrap(low + addr) % 0x1_0000)
            && r[i] == Slot(IType(LUI, AT, 0, 0), Some(Expr(Wrap(high + CarryOf(op, low, addr)), Some(name), Upper, false)))
  {
    hide Wrap, IsMem, IsJump, IsBranch, Compensate;
    LowIsNotPrefix(op);
    LowHalf(low, addr, high);
    var e := Expr(low, Some(name), Lower, false);
    assert ExprAt(a, j) == e;
    var v := Wrap(low + addr) % 0x1_0000;
    assert Value(a, e) == v;
    var text := a.text[j := Slot(IType(op, rt, AT, v), Some(e))];
    CarryReaches(text, i, j, high, name);
    assert Resolve(a, j).text == if IsMem(op) && v >= 0x8000 then Compensate(text, j, Some(name)) else text;
  }

  lemma MemIsPlain(op: Op)
    requires IsMem(op)
    ensures !IsJump(op) && !IsBranch(op)
  {
  }

  lemma LowHalf(low: Word, addr: Word, high: Word)
    ensures var v := Wrap(low + addr) % 0x1_0000;
            v % 0x1_0000 == v && (v / 0x8000 % 2 == 1 <==> v >= 0x8000)
    ensures Wrap(high + 0) == high
  {
  }

  lemma ResolveLui(a: Asm, i: nat, high: Word, name: string, addr: Word)
    requires i < |a.text| && a.text[i] == Slot(IType(LUI, AT, 0, 0), Some(Expr(high, Some(name), Upper, false)))
    requires name in a.symbols && a.symbols[name] == addr != 0
    ensures Resolve(a, i).text[i].inst == IType(LUI, AT, 0, Wrap(high + addr) / 0x1_0000)
  {
    hide Wrap, IsMem, IsBranch;
    LuiIsNotMem();
    assert !IsBranch(LUI) by { LuiIsNotBranch(); }
    assert ExprAt(a, i) == a.text[i].expr.value;
    assert Value(a, ExprAt(a, i)) == Wrap(high + addr) / 0x1_0000;
  }

  lemma LuiIsNotBranch()
    ensures !IsBranch(LUI)
  {
  }

  /** Instructions without an expression are never touched. */
  ghost predicate KeepsPlain(text: seq<Slot>, text': seq<Slot>) {
    |text| <= |text'| && forall m | 0 <= m < |text| && text[m].expr.None? :: text'[m] == text[m]
  }

  lemma ResolveKeepsPlain(a: Asm, k: nat)
    requires k < |a.text|
    ensures KeepsPlain(a.text, Resolve(a, k).text)
  {
    hide Resolve;
    var r := Resolve(a, k).text;
    forall m | 0 <= m < |a.text| && a.text[m].expr.None? ensures r[m] == a.text[m] {
      ResolveTouches(a, k, m);
      if m == k {
        NothingToResolve(a, k);
      }
    }
  }

  lemma NothingToResolve(a: Asm, k: nat)
    requires k < |a.text| && a.text[k].expr.None?
    ensures Resolve(a, k) == a
  {
  }

  lemma {:induction false} ResolveUsesKeepPlain(a: Asm, us: seq<nat>)
    ensures KeepsPlain(a.text, ResolveUses(a, us).text)
    decreases |us|
  {
    hide Resolve;
    if us != [] {
      var b := if us[0] < |a.text| then Resolve(a, us[0]) else a;
      if us[0] < |a.text| {
        ResolveKeepsPlain(a, us[0]);
      }
      ResolveUsesKeepPlain(b, us[1..]);
    }
  }

  /** The whole list, newest first: the access settles before its `lui`, so the carry it pushes
      is still picked up. */
  lemma {:induction false} ResolveGroup(a: Asm, us: seq<nat>, i: nat, j: nat, op: Op, rt: Reg, high: Word, low: Word,
                                        name: string, addr: Word)
    requires Waits(a.text, i, j, op, rt, high, low, name) && IsLow(op)
    requires name in a.symbols && a.symbols[name] == addr != 0
    requires Descending(us) && i in us && j in us && forall k | k in us :: UseOk(a.text, k, name)
    ensures var r := ResolveUses(a, us).text;
            && r[i].inst == IType(LUI, AT, 0, Wrap(Wrap(high + CarryOf(op, low, addr)) + addr) / 0x1_0000)
            && r[j].inst == IType(op, rt, AT, Wrap(low + addr) % 0x1_0000)
    decreases |us|
  {
    hide Resolve, Wrap, CarryOf, UseOk, IsMem;
    var k, rest := us[0], us[1..];
    assert k in us;
    UseInText(a.text, k, name);
    var b := Resolve(a, k);
    if k > j {
      LaterUseSpares(a, k, i, j, op, rt, high, low, name);
      StillUses(a, k, rest, name);
      assert i in rest && j in rest;
      ResolveGroup(b, rest, i, j, op, rt, high, low, name, addr);
    } else {
      DescendingFrom(us, j);
      assert k == j;
      DescendingTail(us);
      ResolveAccess(a, i, j, op, rt, high, low, name, addr);
      StillUses(a, k, rest, name);
      ResolveTouches(a, k, i + 1);
      ResolveLuiNext(b, rest, i, j, Wrap(high + CarryOf(op, low, addr)), name, addr);
    }
  }

  lemma UseInText(text: seq<Slot>, k: nat, name: string)
    requires UseOk(text, k, name)
    ensures k < |text| && Names(text[k], name)
  {
    hide HasLui, IsMem;
  }

  lemma DescendingFrom(us: seq<nat>, m: nat)
    requires Descending(us) && m in us
    ensures us[0] >= m
  {
  }

  lemma DescendingTail(us: seq<nat>)
    requires Descending(us) && us != []
    ensures Descending(us[1..]) && forall k | k in us[1..] :: k < us[0]
  {
  }

  lemma StillUses(a: Asm, k: nat, rest: seq<nat>, name: string)
    requires k < |a.text| && forall m | m in rest :: UseOk(a.text, m, name)
    ensures forall m | m in rest :: UseOk(Resolve(a, k).text, m, name)
  {
    hide UseOk, Resolve;
    var b := Resolve(a, k);
    forall m | 0 <= m < |a.text| ensures SameShape(a.text[m], b.text[m]) {
      ResolveTouches(a, k, m);
    }
    forall m | m in rest ensures UseOk(b.text, m, name) {
      UseOkExtends(a.text, b.text, m, name);
    }
  }

  /** After the access, its `lui` is the next use in the list. */
  lemma ResolveLuiNext(a: Asm, us: seq<nat>, i: nat, j: nat, high: Word, name: string, addr: Word)
    requires i < j < |a.text| && (j == i + 1 || (j == i + 2 && a.text[i + 1].expr.None?))
    requires a.text[i] == Slot(IType(LUI, AT, 0, 0), Some(Expr(high, Some(name), Upper, false)))
    requires name in a.symbols && a.symbols[name] == addr != 0
    requires Descending(us) && i in us && forall k | k in us :: k < j && UseOk(a.text, k, name)
    ensures var r := ResolveUses(a, us).text;
            && r[i].inst == IType(LUI, AT, 0, Wrap(high + addr) / 0x1_0000)
            && forall m | i < m < |a.text| :: r[m] == a.text[m]
  {
    hide Resolve, Wrap, UseOk;
    DescendingFrom(us, i);
    assert us[0] in us;
    UseInText(a.text, us[0], name);
    assert us[0] == i;
    ResolveLui(a, i, high, name, addr);
    var b := Resolve(a, i);
    DescendingTail(us);
    ResolveUsesBelow(b, us[1..], i);
    forall m | i < m < |a.text| ensures ResolveUses(a, us).text[m] == a.text[m] {
      ResolveTouches(a, i, m);
      ResolveUsesBelow(b, us[1..], m);
    }
  }

  // ----- the main result -----

  /** The effective address of the last instruction of an access sequence. */
  function Effective(code: seq<Inst>, s: State): Option<Word>
    requires |code| > 0
    decreases |code|
  {
    if |code| == 1 then Some(Address(Zeroed(s), code[0]))
    else match Run1(code[0], s)
         case Some(s') => Effective(code[1..], s')
         case None => None
  }

  /** The instructions a waiting access occupies. */
  function CodeOf(a: Asm, n: nat, rs: Reg): seq<Inst> {
    var len := if rs != 0 then 3 else 2;
    if n + len <= |a.text| then Insts(a.text)[n..n + len] else []
  }

  lemma WrapAdd(x: int, y: int)
    ensures Wrap(Wrap(x) + y) == Wrap(x + y)
  {
  }

  lemma HighPlus(v: int, n: nat)
    requires 0 <= v < TWO32 && n <= 2
    ensures Wrap(v + 0x1_0000 * n) / 0x1_0000 == (v / 0x1_0000 + n) % 0x1_0000
  {
  }

  lemma HighWithCarries(offset: int, addr: int, n: nat)
    requires n <= 2
    ensures Wrap(Wrap(offset + 0x1_0000 * n) + addr) / 0x1_0000 == (Wrap(offset + addr) / 0x1_0000 + n) % 0x1_0000
  {
    hide Wrap;
    WrapAdd(offset + 0x1_0000 * n, addr);
    WrapAdd(offset + addr, 0x1_0000 * n);
    HighPlus(Wrap(offset + addr), n);
  }

  lemma CarriedHighIs(op: Op, offset: Word, addr: Word)
    requires IsMem(op)
    ensures Wrap(Wrap(offset + CarryOf(op, offset, addr)) + addr) / 0x1_0000 == CarriedHigh(Wrap(offset + addr))
  {
    hide Wrap, IsMem;
    HighWithCarries(offset, addr, if Wrap(offset + addr) % 0x1_0000 >= 0x8000 then 1 else 0);
  }

  /** An extra carry pushed into the `lui` shows in its immediate. */
  lemma StolenHighIs(op: Op, offset: Word, addr: Word)
    requires IsMem(op)
    ensures Wrap(Wrap(Wrap(offset + 0x1_0000) + CarryOf(op, offset, addr)) + addr) / 0x1_0000
            != CarriedHigh(Wrap(offset + addr))
  {
    hide Wrap, IsMem;
    var n := if Wrap(offset + addr) % 0x1_0000 >= 0x8000 then 1 else 0;
    WrapAdd(offset + 0x1_0000, CarryOf(op, offset, addr));
    HighWithCarries(offset, addr, n + 1);
    HighWithCarries(offset, addr, n);
  }

  /** The statement on the label's own line is resolved before the uses that wait for the
      label. If it is an access of that label whose whole value fits the field and is negative,
      its carry is pushed into the `lui` two slots up, though that one is not its own. */
  predicate StealsFrom(a: Asm, n: nat, name: string, addr: Word, line: Option<Stmt>) {
    line.Some? && LineSteals(Record(a, name, addr), line.value, name) && n + 2 == |a.text|
  }

  /** The statement behind the labels of a line. */
  predicate LineSteals(a: Asm, stmt: Stmt, name: string)
    decreases stmt
  {
    match stmt
    case ImmStmt(op, _, _, offset, symbol, rel) => Steals(a, op, Expr(offset, symbol, Full, rel), name)
    case LabelStmt(other, addr, line) => line.Some? && LineSteals(Record(a, other, addr), line.value, name)
    case _ => false
  }

  /** The statement on the line, when it does not push. */
  lemma LineGrows(a: Asm, stmt: Stmt, name: string)
    requires WellFormed(a) && Proper(stmt) && Spares(stmt, name) && a.Defined(Some(name)) && !LineSteals(a, stmt, name)
    ensures var a' := Emit(a, stmt);
            Grows(a, a', name) && WellFormed(a') && AddrOfSymbol(a', Some(name)) == AddrOfSymbol(a, Some(name))
    decreases stmt
  {
    hide Grows, WellFormed, ITypeInst, JTypeInst, Settle, Record, IsMem, IsJump, Steals;
    match stmt
    case RegStmt(inst) =>
      KeepGrows(a, Slot(inst, None), name);
      AccessStep2(a, Slot(inst, None));
    case ImmStmt(op, rt, rs, offset, symbol, rel) =>
      ImmediateGrows(a, op, rt, rs, Expr(offset, symbol, Full, rel), name);
    case JumpStmt(op, symbol) =>
      JumpGrows(a, op, symbol, name);
    case LabelStmt(other, addr, line) =>
      var b := Record(a, other, addr);
      RecordGrows(a, other, addr, name);
      RecordWellFormed(a, other, addr);
      GrowsRefl(b, name);
      if line.Some? {
        LineGrows(b, line.value, name);
      }
      var c := if line.Some? then Emit(b, line.value) else b;
      SettleGrows(c, other, name);
      SettleWellFormed(c, other);
      GrowsTrans(a, b, c, name);
      GrowsTrans(a, c, Settle(c, other), name);
  }

  /** What a stealing line leaves: the pair still waits, its `lui` with an extra carry if it is two
      slots before the end. */
  ghost predicate Pushed(a: Asm, a': Asm, i: nat, j: nat, op: Op, rt: Reg, offset: Word, name: string) {
    && WellFormed(a') && KeepsPlain(a.text, a'.text)
    && AddrOfSymbol(a', Some(name)) == AddrOfSymbol(a, Some(name)) && a'.UsesOf(name) == a.UsesOf(name)
    && Waits(a'.text, i, j, op, rt, if i + 2 == |a.text| then Wrap(offset + 0x1_0000) else offset, offset, name)
  }

  /** The statement on the line, when it pushes. */
  lemma LinePushes(a: Asm, stmt: Stmt, name: string, i: nat, j: nat, op: Op, rt: Reg, offset: Word)
    requires WellFormed(a) && Proper(stmt) && Spares(stmt, name) && LineSteals(a, stmt, name)
    requires Waits(a.text, i, j, op, rt, offset, offset, name) && IsLow(op)
    ensures Pushed(a, Emit(a, stmt), i, j, op, rt, offset, name)
    decreases stmt
  {
    hide WellFormed, Resolve, ITypeInst, IsLow, Settle, Record, Wrap, Waits, KeepsPlain, Steals;
    match stmt
    case ImmStmt(_, _, _, _, _, _) => StatementPushes(a, stmt, name, i, j, op, rt, offset);
    case LabelStmt(other, addr, line) =>
      var b := Record(a, other, addr);
      RecordGrows(a, other, addr, name);
      RecordWellFormed(a, other, addr);
      RecordSame(a, other, addr);
      LinePushes(b, line.value, name, i, j, op, rt, offset);
      SettlePushed(a, b, Emit(b, line.value), other, i, j, op, rt, offset, name);
  }

  lemma RecordSame(a: Asm, other: string, addr: Word)
    ensures var b := Record(a, other, addr); b.text == a.text && b.uses == a.uses
  {
  }

  lemma SettlePushed(a: Asm, b: Asm, c: Asm, other: string, i: nat, j: nat, op: Op, rt: Reg, offset: Word, name: string)
    requires b.text == a.text && b.uses == a.uses && AddrOfSymbol(b, Some(name)) == AddrOfSymbol(a, Some(name))
    requires Pushed(b, c, i, j, op, rt, offset, name) && other != name
    ensures Pushed(a, Settle(c, other), i, j, op, rt, offset, name)
  {
    hide WellFormed, Wrap, Settle, Grows, KeepsPlain, Waits;
    var d, high := Settle(c, other), if i + 2 == |a.text| then Wrap(offset + 0x1_0000) else offset;
    SettleGrows(c, other, name);
    SettleWellFormed(c, other);
    GrowsPlain(a.text, c, d, name);
    GrowsWaits(c, d, i, j, op, rt, high, offset, name);
    assert d.UsesOf(name) == c.UsesOf(name) by { SettleUses(c, other, name); }
  }

  lemma SettleUses(a: Asm, other: string, name: string)
    requires other != name
    ensures Settle(a, other).UsesOf(name) == a.UsesOf(name)
  {
    hide ResolveUses;
  }

  lemma GrowsPlain(text: seq<Slot>, a: Asm, a': Asm, name: string)
    requires KeepsPlain(text, a.text) && Grows(a, a', name)
    ensures KeepsPlain(text, a'.text)
  {
  }

  lemma GrowsWaits(a: Asm, a': Asm, i: nat, j: nat, op: Op, rt: Reg, high: Word, low: Word, name: string)
    requires Grows(a, a', name) && Waits(a.text, i, j, op, rt, high, low, name)
    ensures Waits(a'.text, i, j, op, rt, high, low, name)
  {
    assert Names(a.text[i], name) && Names(a.text[j], name);
  }

  lemma StatementPushes(a: Asm, stmt: Stmt, name: string, i: nat, j: nat, op: Op, rt: Reg, offset: Word)
    requires WellFormed(a) && Proper(stmt) && stmt.ImmStmt?
    requires Steals(a, stmt.op, Expr(stmt.offset, stmt.symbol, Full, stmt.pcRelative), name)
    requires Waits(a.text, i, j, op, rt, offset, offset, name) && IsLow(op)
    ensures Pushed(a, Emit(a, stmt), i, j, op, rt, offset, name)
  {
    hide WellFormed, Resolve, FullWord, IsMem, Fits, Value, Wrap, Waits, KeepsPlain, StoreResolved;
    var e := Expr(stmt.offset, stmt.symbol, Full, stmt.pcRelative);
    var slot := Slot(IType(stmt.op, stmt.rt, stmt.rs, 0), Some(e));
    assert Emit(a, stmt) == StoreResolved(a, slot);
    StoreResolvedExtends(a, slot);
    ExtendsWellFormed(a, StoreResolved(a, slot));
    StoreResolvedKeepsPlain(a, slot);
    PushLands(a, slot, name, i, j, op, rt, offset);
  }

  lemma StoreResolvedKeepsPlain(a: Asm, slot: Slot)
    ensures KeepsPlain(a.text, StoreResolved(a, slot).text)
  {
    hide Resolve;
    var b := Keep(a, slot);
    ResolveKeepsPlain(b, |a.text|);
    assert forall m | 0 <= m < |a.text| :: b.text[m] == a.text[m];
  }

  lemma PushLands(a: Asm, slot: Slot, name: string, i: nat, j: nat, op: Op, rt: Reg, offset: Word)
    requires slot.expr.Some? && !slot.expr.value.pcRelative && Pushes(a, slot.inst.op, slot.expr.value, name)
    requires Waits(a.text, i, j, op, rt, offset, offset, name) && IsLow(op)
    ensures Waits(StoreResolved(a, slot).text, i, j, op, rt, if i + 2 == |a.text| then Wrap(offset + 0x1_0000) else offset,
                  offset, name)
  {
    hide Wrap, Patched, IsMem, Compensate, Eval;
    LowIsNotPrefix(op);
    var b, k := Keep(a, slot), |a.text|;
    var v := Value(a, slot.expr.value);
    assert Value(b, ExprAt(b, k)) == v;
    var text := b.text[k := Slot(Patched(slot.inst, v, a.delayedBranches), slot.expr)];
    assert StoreResolved(a, slot).text == Compensate(text, k, Some(name));
    CompensateTouches(text, k, Some(name), j);
    CompensateTouches(text, k, Some(name), i + 1);
    PushInto(text, k, name, i, j, op, rt, offset);
  }

  lemma PushInto(text: seq<Slot>, k: nat, name: string, i: nat, j: nat, op: Op, rt: Reg, offset: Word)
    requires k < |text| && j < k && Waits(text, i, j, op, rt, offset, offset, name) && op != LUI && op != ADDU
    ensures Waits(Compensate(text, k, Some(name)), i, j, op, rt, if i + 2 == k then Wrap(offset + 0x1_0000) else offset,
                  offset, name)
  {
    hide Wrap;
  }

  lemma GroupWaits(a: Asm, op: Op, rt: Reg, rs: Reg, offset: Word, name: string)
    requires !a.Defined(Some(name)) && IsMem(op)
    ensures var a1 := ITypeInst(a, op, rt, rs, AccessExpr(offset, name));
            var n := |a.text|;
            var j := if rs != 0 then n + 2 else n + 1;
            && Waits(a1.text, n, j, op, rt, offset, offset, name)
            && n in a1.UsesOf(name) && j in a1.UsesOf(name)
            && (rs != 0 ==> n + 1 < |a1.text| && a1.text[n + 1] == Slot(RType(ADDU, AT, AT, rs), None))
            && !a1.Defined(Some(name))
  {
    hide ITypeInst, IsMem, Group, Waits;
    WaitingAccess(a, op, rt, rs, offset, name);
    var n := |a.text|;
    var j := if rs != 0 then n + 2 else n + 1;
    var e := AccessExpr(offset, name);
    GroupIn(a.text, op, rt, rs, offset, name);
    assert ([j, n] + a.UsesOf(name))[0] == j && ([j, n] + a.UsesOf(name))[1] == n;
  }

  lemma GroupIn(text: seq<Slot>, op: Op, rt: Reg, rs: Reg, offset: Word, name: string)
    requires IsMem(op)
    ensures var r := text + Group(op, rt, rs, AccessExpr(offset, name));
            var n := |text|;
            var j := if rs != 0 then n + 2 else n + 1;
            && Waits(r, n, j, op, rt, offset, offset, name)
            && (rs != 0 ==> n + 1 < |r| && r[n + 1] == Slot(RType(ADDU, AT, AT, rs), None))
  {
    hide IsMem;
  }

  lemma WaitsGrows(a: Asm, a': Asm, i: nat, j: nat, op: Op, rt: Reg, offset: Word, name: string)
    requires Waits(a.text, i, j, op, rt, offset, offset, name) && i in a.UsesOf(name) && j in a.UsesOf(name)
    requires Grows(a, a', name)
    ensures Waits(a'.text, i, j, op, rt, offset, offset, name) && i in a'.UsesOf(name) && j in a'.UsesOf(name)
    ensures KeepsPlain(a.text, a'.text)
  {
  }

  /** The label is recorded and its line assembled: the pair still waits, with an extra carry
      exactly when the line stole one. */
  function Recorded(a: Asm, name: string, addr: Word, line: Option<Stmt>): Asm {
    match line case Some(stmt) => Emit(Record(a, name, addr), stmt) case None => Record(a, name, addr)
  }

  ghost predicate LineOk(line: Option<Stmt>, name: string) {
    line.Some? ==> Proper(line.value) && Spares(line.value, name)
  }

  lemma WaitsAfterLine(a: Asm, name: string, addr: Word, line: Option<Stmt>, i: nat, j: nat, op: Op, rt: Reg, offset: Word)
    requires WellFormed(a) && !a.Defined(Some(name)) && addr != 0 && LineOk(line, name)
    requires Waits(a.text, i, j, op, rt, offset, offset, name) && IsLow(op) && i in a.UsesOf(name) && j in a.UsesOf(name)
    ensures var a' := Recorded(a, name, addr, line);
            && WellFormed(a') && i in a'.UsesOf(name) && j in a'.UsesOf(name)
            && name in a'.symbols && a'.symbols[name] == addr
            && Waits(a'.text, i, j, op, rt, if StealsFrom(a, i, name, addr, line) then Wrap(offset + 0x1_0000) else offset,
                     offset, name)
            && KeepsPlain(a.text, a'.text)
  {
    hide WellFormed, Waits, Wrap, Emit, Grows, LineSteals, Proper, Spares, IsLow, KeepsPlain;
    var b := Record(a, name, addr);
    RecordWellFormed(a, name, addr);
    assert b.text == a.text && b.uses == a.uses && b.Defined(Some(name));
    if line.Some? {
      var stmt := line.value;
      if LineSteals(b, stmt, name) {
        LinePushes(b, stmt, name, i, j, op, rt, offset);
      } else {
        LineGrows(b, stmt, name);
        WaitsGrows(b, Emit(b, stmt), i, j, op, rt, offset, name);
      }
    } else {
      PlainRefl(a.text);
    }
  }

  lemma PlainRefl(text: seq<Slot>)
    ensures KeepsPlain(text, text)
  {
  }

  lemma RecordWellFormed(a: Asm, name: string, addr: Word)
    requires WellFormed(a)
    ensures WellFormed(Record(a, name, addr))
  {
    hide WellFormed;
    ExtendsWellFormed(a, Record(a, name, addr));
  }

  /** A load or store names an undefined label; any statements follow, other labels among them;
      then the label is defined. The access becomes exactly the code for its full 32-bit address
      if and only if the statement on the label's own line does not steal its carry. */
  lemma ForwardAccessResolves(a: Asm, op: Op, rt: Reg, rs: Reg, offset: Word, name: string,
                              stmts: seq<Stmt>, addr: Word, line: Option<Stmt>)
    requires WellFormed(a) && !a.Defined(Some(name)) && IsMem(op) && addr != 0
    requires AllSpare(stmts, name) && LineOk(line, name)
    ensures var before := EmitAll(Emit(a, ImmStmt(op, rt, rs, offset, Some(name), false)), stmts);
            var after := Define(before, name, addr, line);
            CodeOf(after, |a.text|, rs) == SplitAccess(op, rt, rs, Wrap(offset + addr))
            <==> !StealsFrom(before, |a.text|, name, addr, line)
  {
    hide WellFormed, Waits, Emit, EmitAll, Grows, StealsFrom, AllSpare, LineOk, IsMem, ITypeInst, Wrap, CarryOf, CarriedHigh,
      CodeOf, SplitAccess, Settle, KeepsPlain;
    var n := |a.text|;
    var j := if rs != 0 then n + 2 else n + 1;
    var a1 := ITypeInst(a, op, rt, rs, AccessExpr(offset, name));
    EmitIsIType(a, op, rt, rs, offset, name);
    GroupWaits(a, op, rt, rs, offset, name);
    WaitingAccessWellFormed(a, op, rt, rs, offset, name);
    EmitAllGrows(a1, stmts, name);
    var a2 := EmitAll(a1, stmts);
    WaitsGrows(a1, a2, n, j, op, rt, offset, name);
    WaitsAfterLine(a2, name, addr, line, n, j, op, rt, offset);
    var a4 := Recorded(a2, name, addr, line);
    var high := if StealsFrom(a2, n, name, addr, line) then Wrap(offset + 0x1_0000) else offset;
    DefineIs(a2, name, addr, line);
    var r := SettlesTo(a4, n, j, op, rt, high, offset, name, addr);
    if rs != 0 {
      PlainSlot(a1.text, a2.text, n + 1);
      PlainSlot(a2.text, a4.text, n + 1);
      PlainSlot(a4.text, r, n + 1);
    }
    GroupCode(Define(a2, name, addr, line), n, j, op, rt, rs, high, offset, addr);
    CarriedHighIs(op, offset, addr);
    StolenHighIs(op, offset, addr);
  }

  lemma DefineIs(a: Asm, name: string, addr: Word, line: Option<Stmt>)
    ensures Define(a, name, addr, line) == Settle(Recorded(a, name, addr, line), name)
  {
    hide Settle, Record;
  }

  lemma PlainSlot(text: seq<Slot>, text': seq<Slot>, m: nat)
    requires KeepsPlain(text, text') && m < |text| && text[m].expr.None?
    ensures m < |text'| && text'[m] == text[m]
  {
  }

  lemma EmitIsIType(a: Asm, op: Op, rt: Reg, rs: Reg, offset: Word, name: string)
    ensures Emit(a, ImmStmt(op, rt, rs, offset, Some(name), false)) == ITypeInst(a, op, rt, rs, AccessExpr(offset, name))
  {
    hide ITypeInst;
  }

  lemma SettlesTo(a: Asm, i: nat, j: nat, op: Op, rt: Reg, high: Word, low: Word, name: string, addr: Word)
    returns (r: seq<Slot>)
    requires WellFormed(a) && Waits(a.text, i, j, op, rt, high, low, name) && IsLow(op)
    requires name in a.symbols && a.symbols[name] == addr != 0 && i in a.UsesOf(name) && j in a.UsesOf(name)
    ensures i < j < |r| == |a.text|
    ensures r[i].inst == IType(LUI, AT, 0, Wrap(Wrap(high + CarryOf(op, low, addr)) + addr) / 0x1_0000)
    ensures r[j].inst == IType(op, rt, AT, Wrap(low + addr) % 0x1_0000)
    ensures KeepsPlain(a.text, r)
    ensures r == Settle(a, name).text
  {
    hide ResolveUses, UseOk, Wrap, CarryOf, Descending, KeepsPlain;
    r := Settle(a, name).text;
    var us := a.UsesOf(name);
    assert Descending(us) && forall k | k in us :: UseOk(a.text, k, name);
    ResolveGroup(a, us, i, j, op, rt, high, low, name, addr);
    ResolveUsesKeepPlain(a, us);
  }

  /** From the patched slots to the instruction sequence. */
  lemma GroupCode(a: Asm, n: nat, j: nat, op: Op, rt: Reg, rs: Reg, high: Word, offset: Word, addr: Word)
    requires j == (if rs != 0 then n + 2 else n + 1) && j < |a.text|
    requires a.text[n].inst == IType(LUI, AT, 0, Wrap(Wrap(high + CarryOf(op, offset, addr)) + addr) / 0x1_0000)
    requires a.text[j].inst == IType(op, rt, AT, Wrap(offset + addr) % 0x1_0000)
    requires rs != 0 ==> a.text[n + 1].inst == RType(ADDU, AT, AT, rs)
    ensures CodeOf(a, n, rs) == SplitAccess(op, rt, rs, Wrap(offset + addr))
            <==> Wrap(Wrap(high + CarryOf(op, offset, addr)) + addr) / 0x1_0000 == CarriedHigh(Wrap(offset + addr))
  {
    hide Wrap, CarryOf, CarriedHigh;
    var code, want := CodeOf(a, n, rs), SplitAccess(op, rt, rs, Wrap(offset + addr));
    assert code[0] == a.text[n].inst && code[|code| - 1] == a.text[j].inst;
    if rs != 0 {
      assert code[1] == a.text[n + 1].inst;
    }
    if a.text[n].inst == want[0] {
      assert code == want;
    }
  }

  // ----- where the access lands -----

  /** A base register's contribution to an address: `$0` counts as 0. */
  function BaseValue(s: State, rs: Reg): Word {
    if rs == 0 then 0 else s.gpr[rs]
  }

  lemma SplitValue(v: Word)
    ensures Wrap(CarriedHigh(v) * 0x1_0000 + SignEx(v % 0x1_0000)) == v
  {
    var low, high := v % 0x1_0000, v / 0x1_0000;
    if low < 0x8000 {
      assert CarriedHigh(v) == high;
    } else if high == 0xffff {
      assert CarriedHigh(v) == 0;
    } else {
      assert CarriedHigh(v) == high + 1;
    }
  }

  lemma SplitSum(v: Word, b: Word)
    ensures Wrap(CarriedHigh(v) * 0x1_0000 + SignEx(v % 0x1_0000)) == v
    ensures Wrap(Wrap(CarriedHigh(v) * 0x1_0000 + b) + SignEx(v % 0x1_0000)) == Wrap(b + v)
  {
    hide Wrap, CarriedHigh, SignEx;
    SplitValue(v);
    WrapAdd(CarriedHigh(v) * 0x1_0000 + b, SignEx(v % 0x1_0000));
    WrapAdd(CarriedHigh(v) * 0x1_0000 + SignEx(v % 0x1_0000), b);
  }

  lemma LuiValue(s: State, high: Half)
    ensures var x: int := high;
            Run1(IType(LUI, AT, 0, high), s) == Some(Next(Put(Zeroed(s), AT, x * 0x1_0000)))
  {
    RunCompute(IType(LUI, AT, 0, high), s);
  }

  lemma AdduValue(s: State, rs: Reg)
    requires rs != 0
    ensures var x: int := s.gpr[AT];
            Run1(RType(ADDU, AT, AT, rs), s) == Some(Next(Put(Zeroed(s), AT, Wrap(x + s.gpr[rs]))))
  {
    RunCompute(RType(ADDU, AT, AT, rs), s);
  }

  /** The split sequence addresses base + v, for every 32-bit v. */
  lemma SplitReaches(op: Op, rt: Reg, rs: Reg, v: Word, s: State)
    requires rs != AT
    ensures Effective(SplitAccess(op, rt, rs, v), s) == Some(Wrap(BaseValue(s, rs) + v))
  {
    hide Run1, Wrap, CarriedHigh, SignEx;
    var code, high := SplitAccess(op, rt, rs, v), CarriedHigh(v);
    var last := IType(op, rt, AT, v % 0x1_0000);
    SplitSum(v, BaseValue(s, rs));
    LuiValue(s, high);
    var x: int, y: int := high, BaseValue(s, rs);
    var s1 := Next(Put(Zeroed(s), AT, x * 0x1_0000));
    if rs == 0 {
      assert code == [IType(LUI, AT, 0, high), last];
      assert code[1..] == [last];
      assert Effective([last], s1) == Some(Address(Zeroed(s1), last));
      NoBase(v);
    } else {
      assert code == [IType(LUI, AT, 0, high), RType(ADDU, AT, AT, rs), last];
      assert code[1..] == [RType(ADDU, AT, AT, rs), last];
      AdduValue(s1, rs);
      var s2 := Next(Put(Zeroed(s1), AT, Wrap(x * 0x1_0000 + y)));
      assert code[1..][1..] == [last];
      assert Effective(code[1..][1..], s2) == Some(Address(Zeroed(s2), last));
    }
  }

  lemma NoBase(v: Word)
    ensures Wrap(0 + v) == v
  {
  }

  /** The code for a defined label addresses the same place. */
  lemma SplitLength(op: Op, rt: Reg, rs: Reg, v: Word)
    ensures |SplitAccess(op, rt, rs, v)| > 0
  {
  }

  lemma KnownReaches(op: Op, rt: Reg, rs: Reg, v: Word, s: State)
    requires IsMem(op) && (rs != AT || Fits(op, Full, v))
    ensures |Legal(op, rt, rs, v)| > 0
    ensures Effective(Legal(op, rt, rs, v), s) == Some(Wrap(BaseValue(s, rs) + v))
  {
    hide Run1, Wrap, CarriedHigh, SplitAccess, Effective;
    assert |SplitAccess(op, rt, rs, v)| > 0 by { SplitLength(op, rt, rs, v); }
    if Fits(op, Full, v) {
      FittingRestores(op, v);
      OneInstruction(IType(op, rt, rs, v % 0x1_0000), s);
    } else {
      SplitReaches(op, rt, rs, v, s);
    }
  }

  lemma FittingRestores(op: Op, v: Word)
    requires IsMem(op) && Fits(op, Full, v)
    ensures SignEx(v % 0x1_0000) == v
  {
  }

  lemma OneInstruction(i: Inst, s: State)
    ensures Effective([i], s) == Some(Wrap(BaseValue(s, i.rs) + SignEx(i.imm)))
  {
  }

  /** A load or store naming a label already defined reaches base + label + offset. */
  lemma KnownLabelReached(a: Asm, op: Op, rt: Reg, rs: Reg, offset: Word, name: string, s: State)
    requires a.Defined(Some(name)) && IsMem(op) && rs != AT
    ensures var v := Wrap(offset + a.symbols[name]);
            && Appended(a, Emit(a, ImmStmt(op, rt, rs, offset, Some(name), false)), Legal(op, rt, rs, v))
            && |Legal(op, rt, rs, v)| > 0
            && Effective(Legal(op, rt, rs, v), s) == Some(Wrap(BaseValue(s, rs) + v))
  {
    hide Emit, Effective, IsMem, Wrap, Appended, Legal, ITypeInst, BaseValue, Fits, IsBranch, IsJump;
    var e := AccessExpr(offset, name);
    EmitIsIType(a, op, rt, rs, offset, name);
    assert Value(a, e) == Wrap(offset + a.symbols[name]);
    MemIsPlain(op);
    EmitsLegal(a, op, rt, rs, e);
    KnownReaches(op, rt, rs, Wrap(offset + a.symbols[name]), s);
  }

  /** A forward reference reaches the same address, whatever is assembled in between. */
  lemma ForwardLabelReached(a: Asm, op: Op, rt: Reg, rs: Reg, offset: Word, name: string,
                            stmts: seq<Stmt>, addr: Word, line: Option<Stmt>, s: State)
    requires WellFormed(a) && !a.Defined(Some(name)) && IsMem(op) && addr != 0 && rs != AT
    requires AllSpare(stmts, name) && LineOk(line, name)
    requires !StealsFrom(EmitAll(Emit(a, ImmStmt(op, rt, rs, offset, Some(name), false)), stmts), |a.text|, name, addr, line)
    ensures var before := EmitAll(Emit(a, ImmStmt(op, rt, rs, offset, Some(name), false)), stmts);
            var code := CodeOf(Define(before, name, addr, line), |a.text|, rs);
            |code| > 0 && Effective(code, s) == Some(Wrap(BaseValue(s, rs) + Wrap(offset + addr)))
  {
    hide WellFormed, Emit, EmitAll, Effective, IsMem, AllSpare, LineOk, Wrap, Define, StealsFrom, CodeOf;
    ForwardAccessResolves(a, op, rt, rs, offset, name, stmts, addr, line);
    SplitReaches(op, rt, rs, Wrap(offset + addr), s);
  }

  // ----- the corner where it fails -----

  /** `lw $8, L` directly before `L: lw $9, L-0x40000c($10)`, text at 0x400000. */
  const CORNER: Asm := Asm(0x40_0000, false, [], map[], map[])
  const CORNER_LINE: Stmt := ImmStmt(LW, 9, 10, 0xffbf_fff4, Some("L"), false)

  lemma EmptyWellFormed(base: Word, delayed: bool)
    ensures WellFormed(Asm(base, delayed, [], map[], map[]))
  {
  }

  lemma CornerSteals()
    ensures StealsFrom(EmitAll(Emit(CORNER, ImmStmt(LW, 8, 0, 0, Some("L"), false)), []), 0, "L", 0x40_0008, Some(CORNER_LINE))
    ensures CodeOf(Define(EmitAll(Emit(CORNER, ImmStmt(LW, 8, 0, 0, Some("L"), false)), []), "L", 0x40_0008, Some(CORNER_LINE)), 0, 0)
            != SplitAccess(LW, 8, 0, 0x40_0008)
  {
    hide ITypeInst, ResolveUses;
    EmptyWellFormed(0x40_0000, false);
    WaitingAccess(CORNER, LW, 8, 0, 0, "L");
    var before := EmitAll(Emit(CORNER, ImmStmt(LW, 8, 0, 0, Some("L"), false)), []);
    assert |before.text| == 2 && before.symbols == map[];
    var e := Expr(0xffbf_fff4, Some("L"), Full, false);
    assert Value(Record(before, "L", 0x40_0008), e) == 0xffff_fffc;
    ForwardAccessResolves(CORNER, LW, 8, 0, 0, "L", [], 0x40_0008, Some(CORNER_LINE));
    assert Wrap(0 + 0x40_0008) == 0x40_0008;
  }

  // ----- any other waiting instruction -----

  /** A waiting instruction that is not a `lui` ends up with its own expression's value. */
  lemma {:induction false} WaitingPatched(a: Asm, us: seq<nat>, k: nat)
    requires Descending(us) && k in us && k < |a.text| && (forall m | m in us :: m < |a.text|)
    requires a.text[k].expr.Some? && a.text[k].inst.op != LUI && a.Defined(a.text[k].expr.value.symbol)
    ensures ResolveUses(a, us).text[k].inst == Patched(a.text[k].inst, Value(a, ExprAt(a, k)), a.delayedBranches)
    decreases |us|
  {
    hide Resolve, Patched, Eval, Wrap;
    DescendingTail(us);
    DescendingFrom(us, k);
    assert us[0] in us;
    var b := Resolve(a, us[0]);
    if us[0] == k {
      ResolvedHere(a, k);
      ResolveUsesBelow(b, us[1..], k);
    } else {
      OtherSpares(a, us[0], k);
      WaitingPatched(b, us[1..], k);
    }
  }

  lemma OtherSpares(a: Asm, m: nat, k: nat)
    requires m < |a.text| && k < |a.text| && m != k && a.text[k].inst.op != LUI
    ensures Resolve(a, m).text[k] == a.text[k]
  {
    hide Resolve;
    ResolveTouches(a, m, k);
    if Resolve(a, m).text[k] != a.text[k] {
      LuiOnly(a, m, k);
    }
  }

  lemma ResolvedHere(a: Asm, k: nat)
    requires k < |a.text| && a.text[k].expr.Some? && a.Defined(a.text[k].expr.value.symbol)
    ensures Resolve(a, k).text[k].inst == Patched(a.text[k].inst, Value(a, ExprAt(a, k)), a.delayedBranches)
  {
    hide Patched, Value, IsMem, Compensate;
    var e := ExprAt(a, k);
    var text := a.text[k := Slot(Patched(a.text[k].inst, Value(a, e), a.delayedBranches), Some(e))];
    CompensateTouches(text, k, e.symbol, k);
  }

  /** The line of the label leaves every waiting slot alone but a `lui`. */
  lemma LineKeeps(a: Asm, stmt: Stmt, name: string, k: nat)
    requires WellFormed(a) && Proper(stmt) && Spares(stmt, name) && a.Defined(Some(name))
    requires k in a.UsesOf(name) && k < |a.text| && Names(a.text[k], name) && a.text[k].inst.op != LUI
    ensures var a' := Emit(a, stmt);
            && WellFormed(a') && k in a'.UsesOf(name) && k < |a'.text| && a'.text[k] == a.text[k]
            && AddrOfSymbol(a', Some(name)) == AddrOfSymbol(a, Some(name))
            && a'.base == a.base && a'.delayedBranches == a.delayedBranches
    decreases stmt
  {
    hide Grows, WellFormed, ITypeInst, Settle, Record, Steals, StoreResolved;
    if !LineSteals(a, stmt, name) {
      LineGrows(a, stmt, name);
      GrowsKeepsUse(a, Emit(a, stmt), k, name);
    } else if stmt.ImmStmt? {
      StealKeeps(a, stmt, name, k);
    } else {
      var b := Record(a, stmt.name, stmt.addr);
      RecordGrows(a, stmt.name, stmt.addr, name);
      RecordWellFormed(a, stmt.name, stmt.addr);
      GrowsKeepsUse(a, b, k, name);
      var c := Emit(b, stmt.line.value);
      LineKeeps(b, stmt.line.value, name, k);
      SettleGrows(c, stmt.name, name);
      SettleWellFormed(c, stmt.name);
      GrowsKeepsUse(c, Settle(c, stmt.name), k, name);
    }
  }

  lemma StealKeeps(a: Asm, stmt: Stmt, name: string, k: nat)
    requires WellFormed(a) && stmt.ImmStmt? && Steals(a, stmt.op, Expr(stmt.offset, stmt.symbol, Full, stmt.pcRelative), name)
    requires k < |a.text| && a.text[k].inst.op != LUI
    ensures var a' := Emit(a, stmt);
            && WellFormed(a') && a'.uses == a.uses && a'.symbols == a.symbols && k < |a'.text| && a'.text[k] == a.text[k]
            && a'.base == a.base && a'.delayedBranches == a.delayedBranches
  {
    hide WellFormed, Resolve, FullWord, IsMem, Fits, Value;
    var e := Expr(stmt.offset, stmt.symbol, Full, stmt.pcRelative);
    var slot := Slot(IType(stmt.op, stmt.rt, stmt.rs, 0), Some(e));
    assert Emit(a, stmt) == StoreResolved(a, slot);
    StoreResolvedExtends(a, slot);
    ExtendsWellFormed(a, StoreResolved(a, slot));
    var b := Keep(a, slot);
    assert b.text[k] == a.text[k];
    if Resolve(b, |a.text|).text[k] != b.text[k] {
      LuiOnly(b, |a.text|, k);
    }
  }

  /** One waiting instruction other than a `lui`, through any statements to its label and whatever
      statement is on the label's line. */
  lemma WaitingSettles(a: Asm, k: nat, stmts: seq<Stmt>, name: string, addr: Word, line: Option<Stmt>)
    requires WellFormed(a) && !a.Defined(Some(name)) && addr != 0
    requires k in a.UsesOf(name) && k < |a.text| && Names(a.text[k], name) && a.text[k].inst.op != LUI
    requires AllSpare(stmts, name) && LineOk(line, name)
    ensures var before := EmitAll(a, stmts);
            var after := Define(before, name, addr, line);
            && k < |after.text|
            && after.text[k].inst == Patched(a.text[k].inst, Eval(ExprAt(a, k), addr), a.delayedBranches)
  {
    hide Emit, EmitAll, Grows, AllSpare, Proper, Spares, ResolveUses, WellFormed, Patched, Eval;
    EmitAllGrows(a, stmts, name);
    var before := EmitAll(a, stmts);
    GrowsKeepsUse(a, before, k, name);
    DefinedSlot(before, k, name, addr, line);
    assert ExprAt(before, k) == ExprAt(a, k);
  }

  /** Defining a label, with the statement on its line, patches a waiting slot that is not a `lui`. */
  lemma DefinedSlot(a: Asm, k: nat, name: string, addr: Word, line: Option<Stmt>)
    requires WellFormed(a) && !a.Defined(Some(name)) && addr != 0 && LineOk(line, name)
    requires k in a.UsesOf(name) && k < |a.text| && Names(a.text[k], name) && a.text[k].inst.op != LUI
    ensures var after := Define(a, name, addr, line);
            && k < |after.text|
            && after.text[k].inst == Patched(a.text[k].inst, Eval(ExprAt(a, k), addr), a.delayedBranches)
  {
    hide Emit, Grows, Proper, Spares, ResolveUses, WellFormed, Patched, Eval;
    var b := Record(a, name, addr);
    RecordWellFormed(a, name, addr);
    assert b.text == a.text && b.uses == a.uses && b.Defined(Some(name));
    if line.Some? {
      LineKeeps(b, line.value, name, k);
    }
    var c := Recorded(a, name, addr, line);
    DefineIs(a, name, addr, line);
    SettledSlot(c, name, k);
    assert ExprAt(c, k) == ExprAt(a, k);
  }

  lemma SettledSlot(a: Asm, name: string, k: nat)
    requires WellFormed(a) && k in a.UsesOf(name) && k < |a.text| && Names(a.text[k], name) && a.text[k].inst.op != LUI
    requires a.Defined(Some(name))
    ensures var a' := Settle(a, name);
            |a'.text| == |a.text| && a'.text[k].inst == Patched(a.text[k].inst, Value(a, ExprAt(a, k)), a.delayedBranches)
  {
    hide ResolveUses, Patched, Eval, UseOk;
    UsesName(a, name);
    WaitingPatched(a, a.UsesOf(name), k);
  }

  lemma GrowsKeepsUse(a: Asm, a': Asm, k: nat, name: string)
    requires Grows(a, a', name) && k in a.UsesOf(name) && k < |a.text| && Names(a.text[k], name)
    ensures k in a'.UsesOf(name) && k < |a'.text| && a'.text[k] == a.text[k]
    ensures a'.base == a.base && a'.delayedBranches == a.delayedBranches
  {
  }
}
