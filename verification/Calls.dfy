/** Calls: what `jal`, `jalr` and the linking branches leave in the link register, and where a `jr`
    through it continues, with and without delay slots. */
module Calls {
  import opened Words
  import opened Isa
  import opened Bits
  import opened MemModel
  import opened Multiply
  import opened Blocks
  import opened WideImmediates
  import opened InstructionMeaning
  import opened DelayedLoads
  import Exceptions
  import DelaySlots

  predicate IsCall(i: Inst) {
    i.op == JAL || (i.op == JALR && i.rd != 0) || IsLinking(i.op)
  }

  function LinkOf(i: Inst): Reg {
    if i.op == JALR then i.rd else 31
  }

  /** Where a call goes. `jalr` jumps to the old value of its register, also when it is the link
      register; a linking branch tests its register after the link is written. */
  function CalleeOf(i: Inst, s: State): Word {
    if i.op == JAL then s.pc / 0x1000_0000 * 0x1000_0000 + 4 * i.target
    else if i.op == JALR then Seen(s, i.rs)
    else BranchedTo(i, s)
  }

  function BranchedTo(i: Inst, s: State): Word {
    var rs := if i.rs == 31 then (s.pc + 4) % 0x1_0000_0000 else Seen(s, i.rs);
    if Bit(rs, 31) == (i.op == BLTZAL || i.op == BLTZALL) then Wrap(s.pc + BranchOffset(i.imm))
    else (s.pc + if i.op == BGEZALL || i.op == BLTZALL then 8 else 4) % 0x1_0000_0000
  }

  /** A call goes to its callee with the address of the next instruction in its link register; a
      branch that is not taken links too. Nothing else changes. */
  lemma CallLinks(i: Inst, s: State)
    requires IsCall(i)
    ensures Run1(i, s) == Some(Put(Zeroed(s), LinkOf(i), (s.pc + 4) % 0x1_0000_0000).(pc := CalleeOf(i, s)))
  {
    hide Run1, IsLinking;
    LinkingNames(i.op);
    if i.op == JAL {
      JumpLinks(i, s);
    } else if i.op == JALR {
      RegisterJumpLinks(i, s);
    } else {
      BranchLinks(i, s);
    }
  }

  lemma LinkingNames(op: Op)
    ensures IsLinking(op) ==> op != JAL && op != JALR
  {
  }

  lemma BranchLinks(i: Inst, s: State)
    requires IsLinking(i.op)
    ensures Run1(i, s) == Some(Put(Zeroed(s), 31, (s.pc + 4) % 0x1_0000_0000).(pc := BranchedTo(i, s)))
  {
    hide Run1, BranchTest, BranchOffset, Bit, IsLikely, Wrap, InstructionMeaning.IsBranch, IsLinking;
    LinkingBranches(i.op);
    BranchesRun(i, s);
    var z := Put(Zeroed(s), 31, (s.pc + 4) % 0x1_0000_0000);
    assert z.gpr[i.rs] == if i.rs == 31 then (s.pc + 4) % 0x1_0000_0000 else Seen(s, i.rs);
    LinkTest(i.op, z.gpr[i.rs], z.gpr[i.rt]);
  }

  lemma LinkingBranches(op: Op)
    requires IsLinking(op)
    ensures InstructionMeaning.IsBranch(op)
  {
  }

  lemma LinkTest(op: Op, rs: Word, rt: Word)
    requires IsLinking(op)
    ensures BranchTest(op, rs, rt) <==> Bit(rs, 31) == (op == BLTZAL || op == BLTZALL)
    ensures IsLikely(op) <==> op == BGEZALL || op == BLTZALL
  {
    hide Bit;
  }

  lemma JumpLinks(i: Inst, s: State)
    requires i.op == JAL
    ensures Run1(i, s) == Some(Put(Zeroed(s), 31, (s.pc + 4) % 0x1_0000_0000).(pc := s.pc / 0x1000_0000 * 0x1000_0000 + 4 * i.target))
  {
    hide Wrap, Exec, JumpTarget;
    var target := JumpTarget(s.pc, i.target);
    ExecJumpLinks(i, Zeroed(s));
    JumpLands(target);
    Onward(s.pc);
    Unwrap(target);
    TargetIs(s.pc, i.target);
  }

  lemma TargetIs(pc: Word, target: Field26)
    ensures JumpTarget(pc, target) == pc / 0x1000_0000 * 0x1000_0000 + 4 * target
  {
  }

  lemma ExecJumpLinks(i: Inst, z: State)
    requires i.op == JAL
    ensures Exec(i, z) == Plain(Isa.Jump(Put(z, 31, Wrap(z.pc + 4)), JumpTarget(z.pc, i.target)))
  {
    hide Wrap, JumpTarget, Isa.Jump, Compute, Branch, MulDiv, Trips, ExecLoad, ExecStore, Raise;
  }

  lemma RegisterJumpLinks(i: Inst, s: State)
    requires i.op == JALR
    ensures Run1(i, s) == Some(Put(Zeroed(s), i.rd, (s.pc + 4) % 0x1_0000_0000).(pc := Seen(s, i.rs)))
  {
    hide Wrap, Compute, Branch, MulDiv, Trips, ExecLoad, ExecStore, Raise;
    JumpLands(Seen(s, i.rs));
    Onward(s.pc);
    Unwrap(Seen(s, i.rs));
  }

  lemma Unwrap(x: Word)
    ensures Wrap(x) == x
  {
  }

  lemma ReturnRuns(i: Inst, s: State)
    requires i.op == JR
    ensures Run1(i, s) == Some(Zeroed(s).(pc := Seen(s, i.rs)))
  {
    hide Wrap, Compute, Branch, MulDiv, Trips, ExecLoad, ExecStore, Raise;
    JumpLands(Seen(s, i.rs));
    Unwrap(Seen(s, i.rs));
  }

  // ----- registers that a run leaves alone -----

  lemma FetchKeepsRegisters(s: State, w: Width, addr: Word)
    ensures var f := Fetch(s, w, addr); f.Fetched? ==> f.s.gpr == s.gpr
  {
    hide Read;
  }

  lemma StoreKeepsRegisters(s: State, w: Width, addr: Word, v: Word)
    ensures var e := StoreAt(s, w, addr, v); e.Effect? ==> e.s.gpr == s.gpr && e.load == None
  {
    hide Write;
  }

  lemma LoadKeepsRegisters(i: Inst, z: State)
    ensures var e := ExecLoad(i, z); e.Effect? ==> e.s.gpr == z.gpr && (e.load.Some? ==> e.load.value.dest == i.rt)
  {
    hide Fetch, MergeLeft, MergeRight;
    var addr := Address(z, i);
    FetchKeepsRegisters(z, W, addr - addr % 4);
    FetchKeepsRegisters(z, WidthOf(i.op), addr);
  }

  lemma StoresKeepRegisters(i: Inst, z: State)
    ensures var e := ExecStore(i, z); e.Effect? ==> e.s.gpr == z.gpr && e.load == None
  {
    hide Fetch, StoreAt, SpillLeft, SpillRight;
    var addr := Address(z, i);
    var f := Fetch(z, W, addr - addr % 4);
    FetchKeepsRegisters(z, W, addr - addr % 4);
    if f.Fetched? {
      StoreKeepsRegisters(f.s, W, addr - addr % 4, if i.op == SWL then SpillLeft(f.value, z.gpr[i.rt], addr % 4)
                                                   else SpillRight(f.value, z.gpr[i.rt], addr % 4));
    }
    StoreKeepsRegisters(z, WidthOf(i.op), addr, z.gpr[i.rt]);
  }

  lemma OtherKeepsRegister(i: Inst, z: State, r: Reg)
    requires FamilyOf(i.op) == Other && r !in Writes(i)
    ensures var e := ExecOther(i, z); e.Effect? ==> e.s.gpr[r] == z.gpr[r] && e.load == None
  {
    hide Wrap, Signed, SignEx, SignedMultiply, MoveToCp0, JumpTarget, Exl, FamilyOf;
  }

  lemma DestinationWritten(i: Inst)
    requires FamilyOf(i.op) == Computing
    ensures (if WritesRt(i.op) then i.rt else i.rd) in Writes(i)
  {
  }

  lemma LoadWritten(i: Inst)
    requires FamilyOf(i.op) == Loading
    ensures i.rt in Writes(i)
  {
  }

  lemma LinkWritten(i: Inst)
    requires Links(i.op)
    ensures RA in Writes(i)
  {
  }

  /** An instruction changes no general register but those it writes, and `$0`. */
  lemma RunKeepsRegister(i: Inst, s: State, r: Reg)
    requires r !in Writes(i) && r != 0
    ensures var t := Run1(i, s); t.Some? ==> t.value.gpr[r] == s.gpr[r]
  {
    hide Compute, MulDiv, Trips, ExecLoad, ExecStore, ExecOther, Taken, BranchOffset, Wrap, Writes, WritesRt, Links, Likely;
    var z := Zeroed(s);
    if FamilyOf(i.op) == Computing {
      DestinationWritten(i);
    } else if FamilyOf(i.op) == Loading {
      LoadKeepsRegisters(i, z);
      LoadWritten(i);
    } else if FamilyOf(i.op) == Storing {
      StoresKeepRegisters(i, z);
    } else if FamilyOf(i.op) == Other {
      OtherKeepsRegister(i, z, r);
    } else if FamilyOf(i.op) == Branching && Links(i.op) {
      LinkWritten(i);
    }
  }

  /** No instruction of the run writes `r`. */
  ghost predicate LeavesAlone(evs: seq<Exceptions.Event>, r: Reg) {
    forall ev | ev in evs :: ev.Step? ==> r !in Writes(ev.inst)
  }

  lemma EventKeepsRegister(s: State, ev: Exceptions.Event, t: State, r: Reg)
    requires r != 0 && (ev.Step? ==> r !in Writes(ev.inst)) && Exceptions.Next1(s, ev) == Some(t)
    ensures t.gpr[r] == s.gpr[r]
  {
    hide Run1, Writes, Poll, Exceptions.Deliverable;
    if ev.Step? {
      RunKeepsRegister(ev.inst, s, r);
    }
  }

  lemma {:induction false} RunKeeps(s: State, evs: seq<Exceptions.Event>, t: State, r: Reg)
    requires r != 0 && LeavesAlone(evs, r) && Exceptions.RunEvents(s, evs) == Some(t)
    ensures t.gpr[r] == s.gpr[r]
    decreases |evs|
  {
    hide Exceptions.Next1, Writes;
    if evs != [] {
      var s1 := Exceptions.Next1(s, evs[0]).value;
      EventKeepsRegister(s, evs[0], s1, r);
      RunKeeps(s1, evs[1..], t, r);
    }
  }

  // ----- calls return -----

  lemma CallEnters(call: Inst, s: State)
    requires IsCall(call) && !s.exc
    ensures Exceptions.Next1(s, Exceptions.Step(call)) == Run1(call, s) && Run1(call, s).Some?
    ensures Run1(call, s).value.gpr[LinkOf(call)] == (s.pc + 4) % 0x1_0000_0000
  {
    hide Run1, CalleeOf;
    CallLinks(call, s);
  }

  /** A call, any run of instructions, faults and interrupts, and then a `jr` of a register that holds
      what the call left in its link register: execution continues behind the call. */
  lemma SavedLinkReturns(call: Inst, s: State, s1: State, body: seq<Exceptions.Event>, u: State, jr: Inst)
    requires IsCall(call) && jr.op == JR && jr.rs != 0 && !s.exc && !u.exc
    requires Run1(call, s) == Some(s1) && Exceptions.RunEvents(s1, body) == Some(u)
    requires u.gpr[jr.rs] == s1.gpr[LinkOf(call)]
    ensures Exceptions.Next1(u, Exceptions.Step(jr)) == Some(Zeroed(u).(pc := (s.pc + 4) % 0x1_0000_0000))
  {
    hide Run1;
    CallEnters(call, s);
    ReturnRuns(jr, u);
  }

  /** A call, any run that does not write the link register, and `jr` of it: execution continues behind
      the call. */
  lemma CallReturns(call: Inst, s: State, body: seq<Exceptions.Event>, jr: Inst, t: State)
    requires IsCall(call) && jr.op == JR && jr.rs == LinkOf(call) && !s.exc && LeavesAlone(body, LinkOf(call))
    requires Exceptions.RunEvents(s, [Exceptions.Step(call)] + body + [Exceptions.Step(jr)]) == Some(t)
    ensures t.pc == (s.pc + 4) % 0x1_0000_0000
  {
    hide Run1, IsCall, Exceptions.Next1;
    var evs := [Exceptions.Step(call)] + body + [Exceptions.Step(jr)];
    assert evs[1..] == body + [Exceptions.Step(jr)];
    CallEnters(call, s);
    var s1 := Run1(call, s).value;
    Exceptions.RunSplit(s1, body, [Exceptions.Step(jr)]);
    var u := Exceptions.RunEvents(s1, body).value;
    Exceptions.RunOne(u, Exceptions.Step(jr));
    LinkIsReal(call);
    RunKeeps(s1, body, u, LinkOf(call));
    CallKeepsFlag(call, s);
    RunEndsClean(s1, body, u);
    SavedLinkReturns(call, s, s1, body, u, jr);
  }

  lemma CallKeepsFlag(call: Inst, s: State)
    requires IsCall(call) && !s.exc
    ensures Run1(call, s).Some? && !Run1(call, s).value.exc
  {
    hide Run1, CalleeOf;
    CallLinks(call, s);
  }

  lemma EventEndsClean(s: State, ev: Exceptions.Event, t: State)
    requires !s.exc && Exceptions.Next1(s, ev) == Some(t)
    ensures !t.exc
  {
    hide Run1, Poll, Exceptions.Deliverable;
  }

  /** Exceptions are handled before the next event. */
  lemma {:induction false} RunEndsClean(s: State, evs: seq<Exceptions.Event>, t: State)
    requires !s.exc && Exceptions.RunEvents(s, evs) == Some(t)
    ensures !t.exc
    decreases |evs|
  {
    hide Exceptions.Next1;
    if evs != [] {
      EventEndsClean(s, evs[0], Exceptions.Next1(s, evs[0]).value);
      RunEndsClean(Exceptions.Next1(s, evs[0]).value, evs[1..], t);
    }
  }

  lemma LinkIsReal(call: Inst)
    requires IsCall(call)
    ensures LinkOf(call) != 0
  {
  }

  // ----- with delay slots -----

  lemma CallPrepares(i: Inst, s: State)
    requires IsCall(i)
    ensures DelaySlots.IsTransfer(i.op)
    ensures var (z, goal) := DelaySlots.Prepare(i, Zeroed(s));
            && z == Put(Zeroed(s), LinkOf(i), (s.pc + 8) % 0x1_0000_0000)
            && (i.op == JALR ==> goal == DelaySlots.Fixed(Seen(s, i.rs)))
            && (i.op == JAL ==> goal == DelaySlots.Region(i.target))
  {
    hide Taken, DelaySlots.IsTransfer, FamilyOf, Links, IsLinking;
    if i.op == JAL || i.op == JALR {
      JumpTransfers(i.op);
    } else {
      BranchTransfers(i.op);
    }
  }

  lemma JumpTransfers(op: Op)
    requires op == JAL || op == JALR
    ensures DelaySlots.IsTransfer(op) && FamilyOf(op) != Branching
  {
  }

  lemma BranchTransfers(op: Op)
    requires IsLinking(op)
    ensures DelaySlots.IsTransfer(op) && FamilyOf(op) == Branching && Links(op) && op != JAL && op != JALR
  {
  }

  /** With delay slots the link is the address behind the slot; a slot that does not write the link
      register leaves it there, whether or not it raises an exception. */
  lemma DelayedCallLinks(text: map<Word, Inst>, s: State, depth: nat, u: State) returns (t: State)
    requires s.pc in text && IsCall(text[s.pc]) && depth > 0
    requires DelaySlots.IsTransfer(text[s.pc].op)
    requires var (z, goal) := DelaySlots.Prepare(text[s.pc], Zeroed(s));
             var z' := z.(pc := Wrap(s.pc + 4));
             !goal.Untaken? && DelaySlots.SlotRuns(text, z', u) && LinkOf(text[s.pc]) !in Writes(text[z'.pc])
    ensures DelaySlots.StepSlots(text, s, false, depth) == Some(t) && t.gpr[LinkOf(text[s.pc])] == (s.pc + 8) % 0x1_0000_0000
  {
    hide Run1, Wrap, DelaySlots.StepSlots, DelaySlots.Prepare, Writes, IsCall;
    var call := text[s.pc];
    CallPrepares(call, s);
    LinkIsReal(call);
    DelaySlots.SlotThenGoal(text, s, false, depth, u);
    var (z, goal) := DelaySlots.Prepare(call, Zeroed(s));
    var z' := z.(pc := Wrap(s.pc + 4));
    RunKeepsRegister(text[z'.pc], z', LinkOf(call));
    t := DelaySlots.StepSlots(text, s, false, depth).value;
  }

  /** `jr` with a delay slot goes where its register pointed before the slot, whatever the slot does. */
  lemma DelayedReturn(text: map<Word, Inst>, s: State, inSlot: bool, depth: nat, t: State)
    requires s.pc in text && text[s.pc].op == JR && DelaySlots.StepSlots(text, s, inSlot, depth) == Some(t)
    ensures t.pc == Seen(s, text[s.pc].rs)
  {
    hide DelaySlots.EnterSlot, DelaySlots.RunPlain;
    assert FamilyOf(JR) == Other;
  }

  /** So a call and a later `jr` of a register that holds the link continue behind the slot. */
  lemma DelayedCallReturns(text: map<Word, Inst>, s: State, depth: nat, slot: State, u: State, t: State)
    requires s.pc in text && IsCall(text[s.pc]) && depth > 0
    requires DelaySlots.IsTransfer(text[s.pc].op)
    requires var (z, goal) := DelaySlots.Prepare(text[s.pc], Zeroed(s));
             var z' := z.(pc := Wrap(s.pc + 4));
             !goal.Untaken? && DelaySlots.SlotRuns(text, z', slot) && LinkOf(text[s.pc]) !in Writes(text[z'.pc])
    requires DelaySlots.StepSlots(text, s, false, depth).Some?
    requires u.pc in text && text[u.pc].op == JR && text[u.pc].rs != 0
    requires u.gpr[text[u.pc].rs] == DelaySlots.StepSlots(text, s, false, depth).value.gpr[LinkOf(text[s.pc])]
    requires DelaySlots.StepSlots(text, u, false, depth) == Some(t)
    ensures t.pc == (s.pc + 8) % 0x1_0000_0000
  {
    hide DelaySlots.StepSlots, DelaySlots.Prepare, DelaySlots.SlotRuns, Writes, Wrap, IsCall;
    var t1 := DelayedCallLinks(text, s, depth, slot);
    DelayedReturn(text, u, false, depth, t);
  }
}
