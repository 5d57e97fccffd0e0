/** Execution with `delayed_branches` on: a taken branch or a jump first runs the instruction after
    it, by a nested run of one step, and only then sets PC. */
module DelaySlots {
  import opened Words
  import opened MemModel
  import opened Isa
  import opened Assembler
  import opened BranchTargets
  import Exceptions
  import InstructionMeaning

  predicate IsTransfer(op: Op) {
    FamilyOf(op) == Branching || op == J || op == JAL || op == JR || op == JALR || op == ERET
  }

  /** Where a transfer goes. The target of a branch or a register jump is fixed before the slot runs;
      that of `j`, `jal` and `eret` is worked out after it, from the PC or the EPC of that moment. */
  datatype Goal = Fixed(target: Word) | Region(field: Field26) | ToEpc | Untaken

  /** The machine and the goal just before the slot: the link register is already written, `eret`
      has cleared EXL. `s` has `$0` clear. */
  function Prepare(i: Inst, s: State): (State, Goal)
    requires IsTransfer(i.op)
  {
    var link := Wrap(s.pc + 8);
    if FamilyOf(i.op) == Branching then
      var z := if Links(i.op) then Put(s, RA, link) else s;
      (z, if Taken(i.op, z.gpr[i.rs], z.gpr[i.rt]) then Fixed(Landing(s.pc, i.imm, true)) else Untaken)
    else if i.op == J then (s, Region(i.target))
    else if i.op == JAL then (Put(s, RA, link), Region(i.target))
    else if i.op == JR then (s, Fixed(s.gpr[i.rs]))
    else if i.op == JALR then (Put(s, i.rd, link), Fixed(s.gpr[i.rs]))
    else
      var status := if Exl(s.cp0) then s.cp0[STATUS] - 2 else s.cp0[STATUS];
      (s.(cp0 := s.cp0[STATUS := status]), ToEpc)
  }

  /** PC after the slot has left the machine in `t`. */
  function Arrive(goal: Goal, t: State): Word {
    match goal
    case Fixed(target) => target
    case Region(field) => JumpTarget(t.pc, field)
    case ToEpc => t.cp0[EPC]
    case Untaken => t.pc
  }

  const BD := 0x8000_0000

  /** The exception of an instruction started in `z`, as raised inside a slot: unless EXL was set, EPC
      is the word before and Cause has BD. */
  function SlotRaised(z: State, u: State): State {
    if !u.exc || Exl(z.cp0) then u
    else
      var cause := u.cp0[CAUSE];
      u.(cp0 := u.cp0[EPC := Exceptions.RoundDown4(Wrap(z.pc - 4))][CAUSE := if cause >= BD then cause else cause + BD])
  }

  /** The nested run delivers a pending interrupt first. */
  function EnterSlot(z: State): State {
    if Exceptions.Deliverable(z.cp0) then Handle(SlotRaised(z, Raise(z, EXC_INT))) else z
  }

  /** An instruction that is no transfer, with its exception, if any, sent to the handler. */
  function RunPlain(i: Inst, s: State, inSlot: bool): Option<State> {
    match Run1(i, s)
    case Some(t) => Some(Handle(if inSlot then SlotRaised(s, t) else t))
    case None => None
  }

  /** One instruction at PC, outside a slot or in one. The slot of a transfer may be a transfer again;
      `depth` bounds how far that nests. None: no instruction there, or the machine is left. */
  function StepSlots(text: map<Word, Inst>, s: State, inSlot: bool, depth: nat): Option<State>
    decreases depth
  {
    if s.pc !in text then None
    else
      var i := text[s.pc];
      if !IsTransfer(i.op) then RunPlain(i, s, inSlot)
      else
        var (z, goal) := Prepare(i, Zeroed(s));
        if goal.Untaken? then Some(z.(pc := if Likely(i.op) then Wrap(s.pc + 8) else Wrap(s.pc + 4)))
        else if depth == 0 then None
        else match StepSlots(text, EnterSlot(z.(pc := Wrap(s.pc + 4))), true, depth - 1)
             case Some(t) => Some(t.(pc := Arrive(goal, t)))
             case None => None
  }

  ghost predicate TakesBranch(text: map<Word, Inst>, s: State) {
    s.pc in text && FamilyOf(text[s.pc].op) == Branching && !Prepare(text[s.pc], Zeroed(s)).1.Untaken?
  }

  /** A taken branch continues at its landing address, whatever the slot does: it may be a branch
      itself, or raise an exception. */
  lemma TakenBranchLandsDelayed(text: map<Word, Inst>, s: State, inSlot: bool, depth: nat, t: State)
    requires TakesBranch(text, s) && StepSlots(text, s, inSlot, depth) == Some(t)
    ensures t.pc == Landing(s.pc, text[s.pc].imm, true)
  {
    hide RunPlain, Taken, Wrap, BranchOffset, EnterSlot;
  }

  /** So a branch patched for a label reaches it if and only if the label is in the window of this
      mode. */
  lemma DelayedBranchReachesIff(text: map<Word, Inst>, s: State, inSlot: bool, depth: nat, t: State, target: Word)
    requires TakesBranch(text, s) && StepSlots(text, s, inSlot, depth) == Some(t)
    requires s.pc % 4 == 0 && target % 4 == 0 && text[s.pc].imm == BranchField(WrapSub(target, s.pc), true)
    ensures t.pc == target <==> InWindow(Displacement(s.pc, target), true)
  {
    hide StepSlots, TakesBranch, Landing, BranchField;
    TakenBranchLandsDelayed(text, s, inSlot, depth, t);
    BranchLandsIff(s.pc, target, true);
  }

  /** No interrupt is pending in `z`, and its slot holds an instruction that is no transfer and leaves
      the machine in `u`, its exception not yet handled. */
  ghost predicate SlotRuns(text: map<Word, Inst>, z: State, u: State) {
    !Exceptions.Deliverable(z.cp0) && z.pc in text && !IsTransfer(text[z.pc].op) && Run1(text[z.pc], z) == Some(u)
  }

  /** The slot runs without exception. */
  ghost predicate PlainSlot(text: map<Word, Inst>, z: State, u: State) {
    SlotRuns(text, z, u) && !u.exc
  }

  /** A transfer with such a slot: the slot's whole effect, its exception handled, then the goal. */
  lemma SlotThenGoal(text: map<Word, Inst>, s: State, inSlot: bool, depth: nat, u: State)
    requires s.pc in text && IsTransfer(text[s.pc].op) && depth > 0
    requires var (z, goal) := Prepare(text[s.pc], Zeroed(s));
             !goal.Untaken? && SlotRuns(text, z.(pc := Wrap(s.pc + 4)), u)
    ensures var (z, goal) := Prepare(text[s.pc], Zeroed(s));
            var t := Handle(SlotRaised(z.(pc := Wrap(s.pc + 4)), u));
            StepSlots(text, s, inSlot, depth) == Some(t.(pc := Arrive(goal, t)))
  {
    hide Run1, Prepare, Wrap, IsTransfer, Handle, SlotRaised;
    var (z, goal) := Prepare(text[s.pc], Zeroed(s));
    var z' := z.(pc := Wrap(s.pc + 4));
    assert EnterSlot(z') == z';
    assert StepSlots(text, z', true, depth - 1) == Some(Handle(SlotRaised(z', u)));
  }

  /** What an exception in the slot of the transfer at `pc` leaves: EXL, and unless it was set before,
      EPC at the transfer and BD in Cause. */
  ghost predicate SlotTrap(z: State, t: State, pc: Word) {
    && Exl(t.cp0) && !t.exc
    && (if Exl(z.cp0) then t.cp0[EPC] == z.cp0[EPC] else t.cp0[EPC] == Exceptions.RoundDown4(pc) && t.cp0[CAUSE] >= 0x8000_0000)
  }

  /** An exception in a delay slot is recorded but never handled: the transfer overwrites the address of
      the handler. A branch or register jump goes on to its target, `j` and `jal` into the region of the
      handler, and the handler is entered if and only if that is its address. */
  lemma SlotExceptionLost(text: map<Word, Inst>, s: State, inSlot: bool, depth: nat, u: State)
    requires s.pc in text && IsTransfer(text[s.pc].op) && text[s.pc].op != ERET && depth > 0 && !s.exc
    requires var (z, goal) := Prepare(text[s.pc], Zeroed(s));
             !goal.Untaken? && SlotRuns(text, z.(pc := Wrap(s.pc + 4)), u) && u.exc
    ensures var (z, goal) := Prepare(text[s.pc], Zeroed(s));
            var r := StepSlots(text, s, inSlot, depth);
            && r.Some? && SlotTrap(s, r.value, s.pc)
            && r.value.pc == match goal case Region(field) => JumpTarget(EXCEPTION_ADDR, field)
                                        case Fixed(target) => target
                                        case _ => EXCEPTION_ADDR
  {
    hide Run1, StepSlots, Wrap, IsTransfer, JumpTarget, Exl;
    var (z, goal) := Prepare(text[s.pc], Zeroed(s));
    var z' := z.(pc := Wrap(s.pc + 4));
    assert z.cp0 == s.cp0 && z.exc == s.exc && !goal.ToEpc? by { PrepareKeeps(text[s.pc], Zeroed(s)); }
    SlotThenGoal(text, s, inSlot, depth, u);
    SlotTraps(text[z'.pc], z', u, s.pc);
  }

  /** An interrupt pending at a slot: the first instruction of the handler runs in place of the slot's,
      and the transfer goes on from there. */
  lemma InterruptReplacesSlot(text: map<Word, Inst>, s: State, inSlot: bool, depth: nat, u: State)
    requires s.pc in text && IsTransfer(text[s.pc].op) && depth > 0
    requires EXCEPTION_ADDR in text && !IsTransfer(text[EXCEPTION_ADDR].op)
    requires var (z, goal) := Prepare(text[s.pc], Zeroed(s));
             var z' := z.(pc := Wrap(s.pc + 4));
             && !goal.Untaken? && Exceptions.Deliverable(z'.cp0)
             && Run1(text[EXCEPTION_ADDR], EnterSlot(z')) == Some(u) && !u.exc
    ensures var (z, goal) := Prepare(text[s.pc], Zeroed(s));
            && SlotTrap(z, EnterSlot(z.(pc := Wrap(s.pc + 4))), s.pc)
            && StepSlots(text, s, inSlot, depth) == Some(u.(pc := Arrive(goal, u)))
  {
    hide Run1, Prepare, Wrap, IsTransfer, EnterSlot;
    var (z, goal) := Prepare(text[s.pc], Zeroed(s));
    var z' := z.(pc := Wrap(s.pc + 4));
    InterruptEnters(z', s.pc);
    assert StepSlots(text, EnterSlot(z'), true, depth - 1) == Some(u);
  }

  lemma InterruptEnters(z: State, pc: Word)
    requires Exceptions.Deliverable(z.cp0) && z.pc == Wrap(pc + 4)
    ensures EnterSlot(z).pc == EXCEPTION_ADDR && SlotTrap(z, EnterSlot(z), pc)
  {
    hide Wrap, Exceptions.RoundDown4, Pending;
    Exceptions.ExlOf(z.cp0[STATUS]);
    BackFour(pc);
  }

  lemma PrepareKeeps(i: Inst, s: State)
    requires IsTransfer(i.op) && i.op != ERET
    ensures var (z, goal) := Prepare(i, s); z.cp0 == s.cp0 && z.exc == s.exc && !goal.ToEpc?
  {
    hide Wrap, Taken, Landing;
  }

  lemma SlotTraps(i: Inst, z: State, u: State, pc: Word)
    requires !IsTransfer(i.op) && !z.exc && Run1(i, z) == Some(u) && u.exc && z.pc == Wrap(pc + 4)
    ensures SlotTrap(z, Handle(SlotRaised(z, u)), pc)
  {
    hide Run1, Wrap, IsTransfer;
    RaisedIsTrapped(i, z, u);
    TrapInSlot(z, u, pc);
  }

  lemma TrapInSlot(z: State, u: State, pc: Word)
    requires Exceptions.Trapped(z, u) && z.pc == Wrap(pc + 4)
    ensures SlotTrap(z, Handle(SlotRaised(z, u)), pc)
  {
    hide Wrap, Exceptions.RoundDown4;
    Exceptions.ExlOf(z.cp0[STATUS]);
    BackFour(pc);
  }

  lemma RaisedIsTrapped(i: Inst, z: State, u: State)
    requires !IsTransfer(i.op) && !z.exc && Run1(i, z) == Some(u) && u.exc
    ensures Exceptions.Trapped(z, u)
  {
    hide Exec, Wrap, Exl, IsTransfer;
    assert i.op != ERET by { EretTransfers(); }
    MoveRaisesNothing(i, Zeroed(z));
    Exceptions.ExecTraps(i, Zeroed(z));
  }

  lemma EretTransfers()
    ensures IsTransfer(ERET)
  {
  }

  lemma BackFour(pc: Word)
    ensures Wrap(Wrap(pc + 4) - 4) == pc
  {
  }

  lemma MoveRaisesNothing(i: Inst, z: State)
    ensures i.op == MTC0 ==> Exec(i, z) == Plain(z.(cp0 := MoveToCp0(z.cp0, i.rd, z.gpr[i.rt])))
  {
    hide MoveToCp0;
  }

  /** An ordinary instruction leaves PC at the next one. */
  lemma {:induction false} SlotEnds(i: Inst, z: State, u: State)
    requires !IsTransfer(i.op) && Run1(i, z) == Some(u)
    ensures u.pc == Wrap(z.pc + 4)
  {
    hide Wrap, Exec;
    ExecKeepsPc(i, Zeroed(z));
  }

  lemma ExecKeepsPc(i: Inst, z: State)
    requires !IsTransfer(i.op)
    ensures var e := Exec(i, z); e.Effect? ==> e.s.pc == z.pc
  {
    hide Compute, MulDiv, Trips, ExecLoad, ExecStore, ExecOther, Branch;
    RaisePc(z);
    match FamilyOf(i.op)
    case Loading => LoadKeepsPc(i, z);
    case Storing => StoreKeepsPc(i, z);
    case Other => OtherKeepsPc(i, z);
    case _ =>
  }

  lemma RaisePc(s: State)
    ensures forall code: nat | code < 32 :: Raise(s, code).pc == s.pc
  {
  }

  lemma FetchPc(s: State, w: Width, addr: Word)
    ensures var f := Fetch(s, w, addr); f.Fetched? ==> f.s.pc == s.pc
  {
    hide Read, Raise;
    RaisePc(s);
  }

  lemma StorePc(s: State, w: Width, addr: Word, v: Word)
    ensures var e := StoreAt(s, w, addr, v); e.Effect? ==> e.s.pc == s.pc
  {
    hide Write, Raise;
    RaisePc(s);
  }

  lemma LoadKeepsPc(i: Inst, s: State)
    ensures var e := ExecLoad(i, s); e.Effect? ==> e.s.pc == s.pc
  {
    hide Fetch, Address, MergeLeft, MergeRight;
    var addr := Address(s, i);
    FetchPc(s, W, addr - addr % 4);
    FetchPc(s, WidthOf(i.op), addr);
  }

  lemma StoreKeepsPc(i: Inst, s: State)
    ensures var e := ExecStore(i, s); e.Effect? ==> e.s.pc == s.pc
  {
    hide Fetch, StoreAt, Address, SpillLeft, SpillRight;
    var addr := Address(s, i);
    FetchPc(s, W, addr - addr % 4);
    StorePc(s, WidthOf(i.op), addr, s.gpr[i.rt]);
    var f := Fetch(s, W, addr - addr % 4);
    if f.Fetched? {
      var reg, k := s.gpr[i.rt], addr % 4;
      StorePc(f.s, W, addr - addr % 4, SpillLeft(f.value, reg, k));
      StorePc(f.s, W, addr - addr % 4, SpillRight(f.value, reg, k));
    }
  }

  lemma OtherKeepsPc(i: Inst, s: State)
    requires !IsTransfer(i.op) && FamilyOf(i.op) == Other
    ensures var e := ExecOther(i, s); e.Effect? ==> e.s.pc == s.pc
  {
    hide ExecOther, FamilyOf, IsMove;
    if i.op == ADD || i.op == ADDI || i.op == SUB {
      CheckedKeepsPc(i, s);
    } else if IsMove(i.op) {
      MoveIsQuiet(i, s);
    } else {
      RestKeepsPc(i, s);
    }
  }

  lemma RestKeepsPc(i: Inst, s: State)
    requires !IsMove(i.op) && i.op != ADD && i.op != ADDI && i.op != SUB
    requires i.op != J && i.op != JAL && i.op != JR && i.op != JALR && i.op != ERET
    ensures var e := ExecOther(i, s); e.Effect? ==> e.s.pc == s.pc
  {
    hide ExecOther, Raise, MoveToCp0;
    if ExecOther(i, s) != Plain(s) {
      assert ExecOther(i, s).Effect? ==> RaisesOrMoves(i, s) by { RestCases(i, s); }
      RaisePc(s);
    }
  }

  ghost predicate RaisesOrMoves(i: Inst, s: State) {
    var e := ExecOther(i, s);
    || e == Plain(Raise(s, EXC_BP)) || e == Plain(Raise(s, EXC_RI))
    || e == Plain(s.(cp0 := MoveToCp0(s.cp0, i.rd, s.gpr[i.rt]))) || e == Plain(s.(ctl := s.ctl[i.rd := s.gpr[i.rt]]))
  }

  lemma RestCases(i: Inst, s: State)
    requires !IsMove(i.op) && i.op != ADD && i.op != ADDI && i.op != SUB
    requires i.op != J && i.op != JAL && i.op != JR && i.op != JALR && i.op != ERET
    ensures ExecOther(i, s) == Plain(s) || (ExecOther(i, s).Effect? ==> RaisesOrMoves(i, s))
  {
    hide MoveToCp0, Raise;
  }

  lemma CheckedKeepsPc(i: Inst, s: State)
    requires i.op == ADD || i.op == ADDI || i.op == SUB
    ensures ExecOther(i, s).Effect? && ExecOther(i, s).s.pc == s.pc
  {
    hide Signed, SignEx, Wrap, Raise;
    RaisePc(s);
  }

  /** `j` and `jal` with an ordinary slot: the region is that of the instruction after the slot, so a
      patched jump lands on its target if and only if the target is aligned and in that region. */
  lemma DelayedJumpLandsIff(text: map<Word, Inst>, s: State, inSlot: bool, depth: nat, u: State, target: Word)
    requires s.pc in text && (text[s.pc].op == J || text[s.pc].op == JAL) && depth > 0
    requires text[s.pc].target == target % 0x1000_0000 / 4
    requires PlainSlot(text, Prepare(text[s.pc], Zeroed(s)).0.(pc := Wrap(s.pc + 4)), u)
    ensures var t := StepSlots(text, s, inSlot, depth);
            && t.Some? && t.value == u.(pc := t.value.pc)
            && (t.value.pc == target <==> target / 0x1000_0000 == Wrap(s.pc + 8) / 0x1000_0000 && target % 4 == 0)
  {
    hide Run1, StepSlots, Wrap;
    var i := text[s.pc];
    assert IsTransfer(i.op) && FamilyOf(i.op) != Branching by { JumpFamily(); }
    var z := Prepare(i, Zeroed(s)).0.(pc := Wrap(s.pc + 4));
    SlotThenGoal(text, s, inSlot, depth, u);
    SlotEnds(text[z.pc], z, u);
    NextTwice(s.pc);
    JumpLandsIff(u.pc, target);
  }

  lemma JumpFamily()
    ensures FamilyOf(J) == Other && FamilyOf(JAL) == Other
  {
  }

  lemma NextTwice(pc: Word)
    ensures Wrap(Wrap(pc + 4) + 4) == Wrap(pc + 8)
  {
  }

  /** A taken branch with an ordinary slot: exactly the slot's effect, at the landing address. */
  lemma DelayedBranchRuns(text: map<Word, Inst>, s: State, inSlot: bool, depth: nat, u: State)
    requires TakesBranch(text, s) && depth > 0
    requires PlainSlot(text, Prepare(text[s.pc], Zeroed(s)).0.(pc := Wrap(s.pc + 4)), u)
    ensures StepSlots(text, s, inSlot, depth) == Some(u.(pc := Landing(s.pc, text[s.pc].imm, true)))
  {
    hide Run1, StepSlots, Wrap, SlotRuns, Taken;
    SlotThenGoal(text, s, inSlot, depth, u);
  }

  /** A branch that is not taken runs no slot: it goes on at the next instruction, or past it if it is
      likely; a linking one has linked. */
  lemma UntakenDelayed(text: map<Word, Inst>, s: State, inSlot: bool, depth: nat)
    requires s.pc in text && InstructionMeaning.IsBranch(text[s.pc].op)
    ensures var i := text[s.pc];
            var z := if InstructionMeaning.IsLinking(i.op) then Put(Zeroed(s), 31, Wrap(s.pc + 8)) else Zeroed(s);
            !InstructionMeaning.BranchTest(i.op, z.gpr[i.rs], z.gpr[i.rt]) ==>
              StepSlots(text, s, inSlot, depth) == Some(z.(pc := Wrap(s.pc + if InstructionMeaning.IsLikely(i.op) then 8 else 4)))
  {
    hide InstructionMeaning.BranchTest, InstructionMeaning.IsLikely, InstructionMeaning.IsLinking, InstructionMeaning.IsBranch,
      Taken, Likely, Links, FamilyOf, Wrap, RunPlain, EnterSlot, Landing;
    var i := text[s.pc];
    InstructionMeaning.BranchRows(i.op);
    var z := if InstructionMeaning.IsLinking(i.op) then Put(Zeroed(s), 31, Wrap(s.pc + 8)) else Zeroed(s);
    InstructionMeaning.BranchTested(i.op, z.gpr[i.rs], z.gpr[i.rt]);
  }

  /** `eret` with a slot that runs without exception and leaves EPC alone: EXL is off while the slot
      runs, and execution goes on at EPC. */
  lemma DelayedEretReturns(text: map<Word, Inst>, s: State, inSlot: bool, depth: nat, u: State)
    requires s.pc in text && text[s.pc].op == ERET && depth > 0
    requires var z := Zeroed(s);
             PlainSlot(text, z.(pc := Wrap(s.pc + 4), cp0 := s.cp0[12 := if Exl(s.cp0) then s.cp0[12] - 2 else s.cp0[12]]), u)
    requires u.cp0[14] == s.cp0[14]
    ensures StepSlots(text, s, inSlot, depth) == Some(u.(pc := s.cp0[14]))
  {
    hide Run1, StepSlots, SlotRuns, Wrap, Exl;
    EretTransfers();
    assert FamilyOf(ERET) == Other;
    SlotThenGoal(text, s, inSlot, depth, u);
  }
}
