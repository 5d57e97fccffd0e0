/** The exception protocol over whole runs: device polls, timer ticks, instruction fetch faults and
    instructions in any order. */
module Exceptions {
  import opened Words
  import opened MemModel
  import opened Multiply
  import opened Isa
  import opened Bits

  /** What polling the console finds: memory-mapped I/O is off, nothing typed, or a character. */
  datatype Console = Unmapped | Quiet | Typed(c: Byte)

  /** Interval: the start of an I/O interval, which polls the devices and then looks for an interrupt. Tick: the timer expires.
      BadFetch: PC is outside the text segments. Step: the instruction at PC executes. */
  datatype Event = Interval(input: Console) | Tick | BadFetch | Step(inst: Inst)

  /** `check_memory_mapped_IO` */
  function Polled(s: State, input: Console): State {
    if input.Unmapped? then s
    else match Poll(s.mem.io, s.cp0[CAUSE], if input.Typed? then Some(input.c) else None)
         case IoDone(io, cause, _) => s.(mem := s.mem.(io := io), cp0 := s.cp0[CAUSE := cause])
         case IoAbort => s
  }

  /** A character typed while the receiver is idle is in its buffer after the poll. */
  lemma PolledTakes(s: State, c: Byte)
    requires s.mem.io.recvTimer == 0
    ensures var io := Polled(s, Typed(c)).mem.io; io.recvReady && io.recvBuffer == c
    ensures Polled(s, Quiet).mem.io.recvBuffer == s.mem.io.recvBuffer && Polled(s, Unmapped) == s
  {
    hide RaiseInterrupt, ClearInterrupt;
  }

  predicate Deliverable(cp0: Regs) {
    InterruptsOn(cp0) && !Exl(cp0) && Pending(cp0) != 0
  }

  function TakeInterrupt(s: State): State {
    if Deliverable(s.cp0) then Handle(Raise(s, EXC_INT)) else s
  }

  /** `bump_CP0_timer`; level 7 is bit 15 of Cause. */
  function Ticked(s: State): State {
    var was: int := s.cp0[COUNT];
    var count := Wrap(was + 1);
    var due: int := if count == s.cp0[COMPARE] && s.cp0[CAUSE] / 0x8000 % 2 == 0 then 0x8000 else 0;
    s.(cp0 := s.cp0[COUNT := count][CAUSE := Wrap(s.cp0[CAUSE] + due)])
  }

  /** What an event does; None when it leaves the modelled machine. */
  function Next1(s: State, ev: Event): Option<State> {
    match ev
    case Interval(input) => Some(TakeInterrupt(Polled(s, input)))
    case Tick => Some(Ticked(s))
    case BadFetch => Some(Handle(RaiseAt(Zeroed(s), EXC_IBE, s.pc)))
    case Step(i) =>
      match Run1(i, s)
      case Some(t) => Some(Handle(t))
      case None => None
  }

  function RunEvents(s: State, evs: seq<Event>): Option<State>
    decreases |evs|
  {
    if evs == [] then Some(s)
    else match Next1(s, evs[0])
         case Some(t) => RunEvents(t, evs[1..])
         case None => None
  }

  /** The program never writes Status or EPC itself. */
  predicate Allowed(ev: Event) {
    !(ev.Step? && ev.inst.op == MTC0 && (ev.inst.rd == STATUS || ev.inst.rd == EPC))
  }

  predicate IsEret(ev: Event) {
    ev.Step? && ev.inst.op == ERET
  }

  // ----- what exceptions do to Status and EPC -----

  function RoundDown4(pc: Word): Word {
    pc - pc % 4
  }

  /** Status and EPC as they were. */
  ghost predicate Kept(s: State, t: State) {
    t.cp0[STATUS] == s.cp0[STATUS] && t.cp0[EPC] == s.cp0[EPC] && t.exc == s.exc
  }

  /** Status and EPC after an exception at the PC of `s`. */
  ghost predicate Trapped(s: State, t: State) {
    && t.exc
    && t.cp0[EPC] == (if Exl(s.cp0) then s.cp0[EPC] else RoundDown4(s.pc))
    && t.cp0[STATUS] == (if Exl(s.cp0) then s.cp0[STATUS] else s.cp0[STATUS] + 2)
  }

  ghost predicate KeptOrTrapped(s: State, t: State) {
    Kept(s, t) || Trapped(s, t)
  }

  lemma RaiseTraps(s: State, code: nat, addr: Word)
    requires code < 32 && code != EXC_INT
    ensures Trapped(s, Raise(s, code)) && Trapped(s, RaiseAt(s, code, addr))
  {
  }

  lemma FetchTraps(s: State, w: Width, addr: Word)
    ensures var f := Fetch(s, w, addr); f.Fetched? ==> KeptOrTrapped(s, f.s) && f.s.pc == s.pc
  {
    hide Read, Raise;
    RaiseTraps(s, EXC_ADEL, addr);
    RaiseTraps(s, EXC_DBE, addr);
    ReadCodes(s.mem, s.cp0[CAUSE], w, addr);
    RaiseKeepsPc(s);
  }

  lemma RaiseKeepsPc(s: State)
    ensures forall code: nat | code < 32 :: Raise(s, code).pc == s.pc
  {
  }

  lemma ReadCodes(m: Mem, cause: Word, w: Width, addr: Word)
    ensures var r := Read(m, cause, w, addr); r.Fault? ==> r.code == EXC_ADEL || r.code == EXC_DBE
  {
    hide Locate, ReadSeg, ExpandStack, ReadIo;
  }

  lemma WriteCodes(m: Mem, cause: Word, w: Width, addr: Word, v: Word)
    ensures var r := Write(m, cause, w, addr, v); r.Fault? ==> r.code == EXC_ADES || r.code == EXC_DBE
  {
    hide Locate, WriteSeg, ExpandStack, WriteIo;
  }

  lemma StoreTraps(s: State, w: Width, addr: Word, v: Word)
    ensures var e := StoreAt(s, w, addr, v); e.Effect? ==> KeptOrTrapped(s, e.s)
  {
    hide Write, Raise;
    RaiseTraps(s, EXC_ADES, addr);
    RaiseTraps(s, EXC_DBE, addr);
    WriteCodes(s.mem, s.cp0[CAUSE], w, addr, v);
  }

  /** A second exception in one instruction changes nothing more. */
  lemma TrapsTrans(s: State, t: State, u: State)
    requires KeptOrTrapped(s, t) && KeptOrTrapped(t, u) && t.pc == s.pc
    ensures KeptOrTrapped(s, u)
  {
    if Trapped(s, t) && !Exl(s.cp0) {
      assert Exl(t.cp0);
    }
  }

  lemma SpillTraps(s: State, f: Fetched, addr: Word, reg: Word, k: nat, left: bool)
    requires k < 4 && (f.Fetched? ==> KeptOrTrapped(s, f.s) && f.s.pc == s.pc)
    ensures var e := Spilled(f, addr, reg, k, left); e.Effect? ==> KeptOrTrapped(s, e.s)
  {
    hide StoreAt, SpillLeft, SpillRight, KeptOrTrapped;
    if f.Fetched? {
      var v := if left then SpillLeft(f.value, reg, k) else SpillRight(f.value, reg, k);
      StoreTraps(f.s, W, addr, v);
      if StoreAt(f.s, W, addr, v).Effect? {
        TrapsTrans(s, f.s, StoreAt(f.s, W, addr, v).s);
      }
    }
  }

  lemma LoadsTrap(i: Inst, s: State)
    requires FamilyOf(i.op) == Loading
    ensures var e := ExecLoad(i, s); e.Effect? ==> KeptOrTrapped(s, e.s)
  {
    hide Fetch, Address, MergeLeft, MergeRight, KeptOrTrapped;
    var addr := Address(s, i);
    FetchTraps(s, W, addr - addr % 4);
    FetchTraps(s, WidthOf(i.op), addr);
  }

  lemma StoresTrap(i: Inst, s: State)
    requires FamilyOf(i.op) == Storing
    ensures var e := ExecStore(i, s); e.Effect? ==> KeptOrTrapped(s, e.s)
  {
    hide Fetch, StoreAt, Address, Spilled, KeptOrTrapped;
    var addr := Address(s, i);
    if i.op == SWL || i.op == SWR {
      FetchTraps(s, W, addr - addr % 4);
      SpillTraps(s, Fetch(s, W, addr - addr % 4), addr - addr % 4, s.gpr[i.rt], addr % 4, i.op == SWL);
    } else {
      StoreTraps(s, WidthOf(i.op), addr, s.gpr[i.rt]);
    }
  }

  lemma CheckedTraps(s: State, r: Reg, exact: int)
    ensures KeptOrTrapped(s, Checked(s, r, exact).s)
  {
    hide Raise;
    RaiseTraps(s, EXC_OV, 0);
  }

  lemma MoveKeeps(cp0: Regs, r: Reg, v: Word)
    requires r != STATUS && r != EPC
    ensures MoveToCp0(cp0, r, v)[STATUS] == cp0[STATUS] && MoveToCp0(cp0, r, v)[EPC] == cp0[EPC]
  {
    hide And, OrWord;
  }

  predicate MayRaise(op: Op) {
    match op
    case ADD | ADDI | SUB | BREAK | RFE | TLBP | TLBR | TLBWI | TLBWR | MTC0 => true
    case _ => false
  }

  lemma OthersTrap(i: Inst, s: State)
    requires FamilyOf(i.op) == Other && i.op != ERET && Allowed(Step(i))
    ensures var e := ExecOther(i, s); e.Effect? ==> KeptOrTrapped(s, e.s)
  {
    hide ExecOther, FamilyOf, Trapped;
    if MayRaise(i.op) {
      RaisingTrap(i, s);
    } else {
      QuietKeep(i, s);
    }
  }

  lemma RaisingTrap(i: Inst, s: State)
    requires MayRaise(i.op) && Allowed(Step(i))
    ensures var e := ExecOther(i, s); e.Effect? ==> KeptOrTrapped(s, e.s)
  {
    hide Checked, Signed, SignEx, Raise, MoveToCp0, SignedMultiply, JumpTarget, Exl, Wrap, Trapped;
    var rs, rt := s.gpr[i.rs], s.gpr[i.rt];
    match i.op
    case ADD => CheckedTraps(s, i.rd, Signed(rs) + Signed(rt));
    case ADDI => CheckedTraps(s, i.rt, Signed(rs) + Signed(SignEx(i.imm)));
    case SUB => CheckedTraps(s, i.rd, Signed(rs) - Signed(rt));
    case BREAK => RaiseTraps(s, EXC_BP, 0);
    case MTC0 => MoveKeeps(s.cp0, i.rd, rt);
    case RFE | TLBP | TLBR | TLBWI | TLBWR => RaiseTraps(s, EXC_RI, 0);
    case _ =>
  }

  lemma QuietKeep(i: Inst, s: State)
    requires FamilyOf(i.op) == Other && i.op != ERET && !MayRaise(i.op)
    ensures var e := ExecOther(i, s); e.Effect? ==> Kept(s, e.s)
  {
    hide ExecOther, FamilyOf, MayRaise, IsMove;
    if IsMove(i.op) {
      MoveIsQuiet(i, s);
    } else if i.op == J || i.op == JAL || i.op == JALR || i.op == JR {
      JumpKeeps(i, s);
    } else {
      IdleKeeps(i, s);
    }
  }

  lemma JumpKeeps(i: Inst, s: State)
    requires i.op == J || i.op == JAL || i.op == JALR || i.op == JR
    ensures var e := ExecOther(i, s); e.Effect? ==> Kept(s, e.s)
  {
    hide JumpTarget, Wrap;
  }

  lemma IdleKeeps(i: Inst, s: State)
    requires i.op != ERET && !MayRaise(i.op) && !IsMove(i.op) && i.op != J && i.op != JAL && i.op != JALR && i.op != JR
    ensures var e := ExecOther(i, s); e.Effect? ==> Kept(s, e.s)
  {
    assert i.op != CTC0 && i.op != SYSCALL ==> ExecOther(i, s) == Plain(s);
  }

  /** Every instruction but `eret` leaves Status and EPC alone or takes an exception at its PC. */
  lemma ExecTraps(i: Inst, s: State)
    requires i.op != ERET && Allowed(Step(i))
    ensures var e := Exec(i, s); e.Effect? ==> KeptOrTrapped(s, e.s)
  {
    hide Compute, Branch, MulDiv, Trips, ExecLoad, ExecStore, ExecOther, Raise, Trapped;
    match FamilyOf(i.op)
    case Branching => BranchKeeps(s, i.op, i.rs, i.rt, i.imm);
    case Trapping => RaiseTraps(s, EXC_TR, 0);
    case Loading => LoadsTrap(i, s);
    case Storing => StoresTrap(i, s);
    case Other => OthersTrap(i, s);
    case _ =>
  }

  lemma BranchKeeps(s: State, op: Op, rs: Reg, rt: Reg, imm: Half)
    ensures Kept(s, Branch(s, op, rs, rt, imm))
  {
    hide Taken, BranchOffset, Wrap;
  }

  // ----- one event -----

  /** The handler is entered for an exception at the PC of `s`. */
  ghost predicate Entered(s: State, t: State) {
    && t.pc == EXCEPTION_ADDR
    && t.cp0[EPC] == (if Exl(s.cp0) then s.cp0[EPC] else RoundDown4(s.pc))
    && t.cp0[STATUS] == (if Exl(s.cp0) then s.cp0[STATUS] else s.cp0[STATUS] + 2)
  }

  ghost predicate Undisturbed(s: State, t: State) {
    t.cp0[STATUS] == s.cp0[STATUS] && t.cp0[EPC] == s.cp0[EPC]
  }

  lemma StepEnters(i: Inst, s: State, t: State)
    requires !s.exc && i.op != ERET && Allowed(Step(i)) && Next1(s, Step(i)) == Some(t)
    ensures !t.exc && (Undisturbed(s, t) || Entered(s, t))
  {
    hide Exec;
    ExecTraps(i, Zeroed(s));
  }

  lemma PollKeeps(s: State, input: Console)
    ensures var t := Polled(s, input);
            t == s.(mem := t.mem, cp0 := t.cp0) && forall r: Reg | r != CAUSE :: t.cp0[r] == s.cp0[r]
  {
    hide Poll;
  }

  lemma IntervalEnters(s: State, input: Console)
    requires !s.exc
    ensures var p := Polled(s, input);
            var t := TakeInterrupt(p);
            && !t.exc
            && (if Deliverable(p.cp0) then Entered(s, t) && t.cp0[CAUSE] / 4 % 32 == EXC_INT && !Exl(s.cp0)
                else t == p && Undisturbed(s, t))
  {
    hide Polled, Pending;
    PollKeeps(s, input);
  }

  /** Every event but `eret` leaves Status and EPC alone or enters the handler, with EPC set to the
      interrupted instruction exactly when EXL was clear. */
  lemma EventEnters(s: State, ev: Event, t: State)
    requires !s.exc && !IsEret(ev) && Allowed(ev) && Next1(s, ev) == Some(t)
    ensures !t.exc && (Undisturbed(s, t) || Entered(s, t))
  {
    hide Run1, TakeInterrupt, Polled, Wrap, Raise;
    match ev
    case Interval(input) => IntervalEnters(s, input);
    case Tick =>
    case BadFetch => RaiseTraps(Zeroed(s), EXC_IBE, s.pc);
    case Step(i) => StepEnters(i, s, t);
  }

  lemma JumpBack(epc: Word)
    ensures Wrap(Wrap(epc - 4) + 4) == epc
  {
  }

  /** `eret`: jump to EPC, clear EXL, nothing else. */
  lemma EretReturns(i: Inst, s: State)
    requires !s.exc && i.op == ERET
    ensures var status := if Exl(s.cp0) then s.cp0[STATUS] - 2 else s.cp0[STATUS];
            Next1(s, Step(i)) == Some(Zeroed(s).(pc := s.cp0[EPC], cp0 := s.cp0[STATUS := status]))
  {
    hide Wrap, Raise, MoveToCp0, Compute, Branch, MulDiv, Trips, ExecLoad, ExecStore, Checked, Signed, SignEx,
      SignedMultiply, JumpTarget;
    JumpBack(s.cp0[EPC]);
  }

  // ----- whole runs -----

  ghost predicate Handler(evs: seq<Event>) {
    forall ev | ev in evs :: Allowed(ev) && !IsEret(ev)
  }

  ghost predicate AllAllowed(evs: seq<Event>) {
    forall ev | ev in evs :: Allowed(ev)
  }

  lemma ExlOf(status: Word)
    ensures status / 2 % 2 == 0 ==> status + 2 < TWO32 && (status + 2) / 2 % 2 == 1 && (status + 2) % 2 == status % 2
    ensures status / 2 % 2 == 1 ==> status >= 2 && (status - 2) / 2 % 2 == 0 && (status - 2) % 2 == status % 2
  {
  }

  lemma EventWhileExl(s: State, ev: Event, t: State)
    requires !s.exc && Exl(s.cp0) && Allowed(ev) && Next1(s, ev) == Some(t)
    ensures !t.exc && t.cp0[EPC] == s.cp0[EPC] && (!IsEret(ev) ==> t.cp0[STATUS] == s.cp0[STATUS])
  {
    hide Next1;
    if IsEret(ev) {
      EretReturns(ev.inst, s);
    } else {
      EventEnters(s, ev, t);
    }
  }

  /** From EXL set until `eret`, however long: EPC and Status stand still, whatever faults and
      interrupts come in. */
  lemma {:induction false} HandlerKeepsEpc(s: State, evs: seq<Event>, t: State)
    requires !s.exc && Exl(s.cp0) && Handler(evs) && RunEvents(s, evs) == Some(t)
    ensures !t.exc && Undisturbed(s, t)
    decreases |evs|
  {
    hide Next1;
    if evs != [] {
      var s1 := Next1(s, evs[0]).value;
      EventWhileExl(s, evs[0], s1);
      HandlerKeepsEpc(s1, evs[1..], t);
    }
  }

  /** A taken interrupt, any handler run, and its `eret`: execution resumes at the address of the
      instruction that was about to execute, rounded down to a word, with Status as before. */
  lemma InterruptReturns(s: State, input: Console, handler: seq<Event>, eret: Inst, t: State)
    requires !s.exc && Deliverable(Polled(s, input).cp0) && Handler(handler) && eret.op == ERET
    requires RunEvents(s, [Interval(input)] + handler + [Step(eret)]) == Some(t)
    ensures t.pc == RoundDown4(s.pc) && t.cp0[STATUS] == s.cp0[STATUS] && !t.exc
    ensures t.pc == s.pc <==> s.pc % 4 == 0
  {
    hide Next1, Polled, TakeInterrupt, Handler;
    var evs := [Interval(input)] + handler + [Step(eret)];
    assert evs[1..] == handler + [Step(eret)];
    var s1 := TakeInterrupt(Polled(s, input));
    IntervalEnters(s, input);
    assert Next1(s, Interval(input)) == Some(s1) by { IntervalIs(s, input); }
    RunSplit(s1, handler, [Step(eret)]);
    var s2 := RunEvents(s1, handler).value;
    ExlOf(s.cp0[STATUS]);
    HandlerKeepsEpc(s1, handler, s2);
    RunOne(s2, Step(eret));
    EretReturns(eret, s2);
  }

  lemma IntervalIs(s: State, input: Console)
    ensures Next1(s, Interval(input)) == Some(TakeInterrupt(Polled(s, input)))
  {
  }

  lemma RunOne(s: State, ev: Event)
    ensures RunEvents(s, [ev]) == Next1(s, ev)
  {
    hide Next1;
    if Next1(s, ev).Some? {
      assert [ev][1..] == [];
      assert RunEvents(Next1(s, ev).value, []) == Some(Next1(s, ev).value);
    }
  }

  lemma {:induction false} RunSplit(s: State, evs: seq<Event>, more: seq<Event>)
    ensures RunEvents(s, evs + more) == match RunEvents(s, evs) case Some(t) => RunEvents(t, more) case None => None
    decreases |evs|
  {
    hide Next1;
    if evs == [] {
      assert evs + more == more;
    } else {
      assert (evs + more)[1..] == evs[1..] + more;
      if Next1(s, evs[0]).Some? {
        RunSplit(Next1(s, evs[0]).value, evs[1..], more);
      }
    }
  }

  lemma {:induction false} RunsClean(s: State, evs: seq<Event>, t: State)
    requires !s.exc && AllAllowed(evs) && RunEvents(s, evs) == Some(t)
    ensures !t.exc
    decreases |evs|
  {
    hide Next1;
    if evs != [] {
      var s1 := Next1(s, evs[0]).value;
      if IsEret(evs[0]) {
        EretReturns(evs[0].inst, s);
      } else {
        EventEnters(s, evs[0], s1);
      }
      RunsClean(s1, evs[1..], t);
    }
  }

  /** At every point of every run: EPC changes only if EXL was clear, and then to the address of the
      instruction about to execute, with the handler entered and EXL set. */
  lemma EpcChangesOnlyWithExlClear(s: State, before: seq<Event>, ev: Event, u: State, t: State)
    requires !s.exc && AllAllowed(before) && Allowed(ev)
    requires RunEvents(s, before) == Some(u) && RunEvents(s, before + [ev]) == Some(t)
    ensures t.cp0[EPC] != u.cp0[EPC] ==>
              !Exl(u.cp0) && Exl(t.cp0) && t.cp0[EPC] == RoundDown4(u.pc) && t.pc == 0x8000_0180
  {
    hide Next1, Exl;
    RunsClean(s, before, u);
    RunSplit(s, before, [ev]);
    RunOne(u, ev);
    EventEpc(u, ev, t);
  }

  lemma EventEpc(u: State, ev: Event, t: State)
    requires !u.exc && Allowed(ev) && Next1(u, ev) == Some(t)
    ensures t.cp0[EPC] != u.cp0[EPC] ==>
              !Exl(u.cp0) && Exl(t.cp0) && t.cp0[EPC] == RoundDown4(u.pc) && t.pc == 0x8000_0180
  {
    hide Next1, Allowed, RoundDown4;
    if IsEret(ev) {
      EretReturns(ev.inst, u);
    } else {
      EventEnters(u, ev, t);
      ExlOf(u.cp0[STATUS]);
    }
  }

  // ----- which interrupts are delivered -----

  /** Interrupt line `n` is pending in Cause and unmasked in Status. */
  ghost predicate LineUp(cp0: Regs, n: nat) {
    n < 8 && Bit(cp0[CAUSE], 8 + n) && Bit(cp0[STATUS], 8 + n)
  }

  /** The mask 0xff00 selects bits 8 to 15. */
  lemma MaskBits(n: nat)
    ensures Bit(0xff00, n) <==> 8 <= n < 16
  {
    if n < 8 {
      LowMask(n);
    } else {
      assert Halved(0xff00, 8) == 0xff by { assert Halved(0xff0, 4) == 0xff; }
      ShiftedBit(0xff00, 8, n);
      if n < 16 {
        HighMask(n - 8);
      } else {
        assert Halved(0xff, 8) == 0 by { assert Halved(0xf, 4) == 0; }
        ShiftedBit(0xff, 8, n - 8);
        ZeroHasNoBit(n - 16);
      }
    }
  }

  lemma {:induction false} LowMask(n: nat)
    requires n < 8
    ensures !Bit(0xff00, n)
  {
    if n < 4 {
      assert !Bit(0xff00, 0) && !Bit(0xff00, 1) && !Bit(0xff00, 2) && !Bit(0xff00, 3);
    } else {
      assert Halved(0xff00, 4) == 0xff0;
      ShiftedBit(0xff00, 4, n);
      assert !Bit(0xff0, 0) && !Bit(0xff0, 1) && !Bit(0xff0, 2) && !Bit(0xff0, 3);
    }
  }

  lemma {:induction false} HighMask(n: nat)
    requires n < 8
    ensures Bit(0xff, n)
  {
    if n < 4 {
      assert Bit(0xff, 0) && Bit(0xff, 1) && Bit(0xff, 2) && Bit(0xff, 3);
    } else {
      assert Halved(0xff, 4) == 0xf;
      ShiftedBit(0xff, 4, n);
      assert Bit(0xf, 0) && Bit(0xf, 1) && Bit(0xf, 2) && Bit(0xf, 3);
    }
  }

  lemma PendingBit(cp0: Regs, n: nat)
    ensures Bit(Pending(cp0), n) <==> 8 <= n < 16 && Bit(cp0[CAUSE], n) && Bit(cp0[STATUS], n)
  {
    hide Bit, And;
    AndBit(And(cp0[CAUSE], 0xff00), And(cp0[STATUS], 0xff00), n);
    AndBit(cp0[CAUSE], 0xff00, n);
    AndBit(cp0[STATUS], 0xff00, n);
    MaskBits(n);
  }

  lemma PendingIffLineUp(cp0: Regs)
    ensures Pending(cp0) != 0 <==> exists n: nat :: LineUp(cp0, n)
  {
    hide Bit, Pending;
    if Pending(cp0) != 0 {
      var n := SomeBit(Pending(cp0));
      PendingBit(cp0, n);
      assert LineUp(cp0, n - 8);
    }
    if n: nat :| LineUp(cp0, n) {
      PendingBit(cp0, n + 8);
      ZeroHasNoBit(n + 8);
    }
  }

  /** At every point of every run, an interrupt is delivered at the start of an interval if and only
      if interrupts are enabled, EXL is clear and some line is both pending and unmasked. Delivery is
      what a program can see of it: EXL comes on. */
  lemma InterruptDeliveredIff(s: State, before: seq<Event>, input: Console, u: State, t: State)
    requires !s.exc && AllAllowed(before)
    requires RunEvents(s, before) == Some(u) && RunEvents(s, before + [Interval(input)]) == Some(t)
    ensures var polled := Polled(u, input).cp0;
            !Exl(u.cp0) && Exl(t.cp0) <==> InterruptsOn(u.cp0) && !Exl(u.cp0) && exists n: nat :: LineUp(polled, n)
    ensures Exl(t.cp0) && !Exl(u.cp0) ==> Entered(u, t) && t.cp0[CAUSE] / 4 % 32 == EXC_INT
    ensures !(Exl(t.cp0) && !Exl(u.cp0)) ==> t == Polled(u, input)
  {
    hide Next1, Polled, TakeInterrupt, Pending, LineUp;
    RunsClean(s, before, u);
    RunSplit(s, before, [Interval(input)]);
    RunOne(u, Interval(input));
    IntervalIs(u, input);
    IntervalEnters(u, input);
    PollKeeps(u, input);
    PendingIffLineUp(Polled(u, input).cp0);
    ExlOf(u.cp0[STATUS]);
  }
}
