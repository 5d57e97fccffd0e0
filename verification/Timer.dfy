/** The CP0 timer over whole runs: Count counts the ticks, and the timer line comes on at the tick where
    Count reaches Compare. */
module Timer {
  import opened Words
  import opened MemModel
  import opened Isa
  import opened Exceptions

  /** Count, Compare and bits 15 and up of Cause as they were. */
  ghost predicate TimerSame(s: State, t: State) {
    && t.cp0[9] == s.cp0[9] && t.cp0[11] == s.cp0[11]
    && t.cp0[13] / 0x8000 == s.cp0[13] / 0x8000
  }

  ghost predicate LineOn(s: State) {
    s.cp0[13] / 0x8000 % 2 == 1
  }

  // ----- what leaves the timer alone -----

  lemma CodeBelow(cause: Word, code: nat)
    requires code < 32
    ensures (cause - cause / 4 % 32 * 4 + code * 4) / 0x8000 == cause / 0x8000
  {
    var high, low := cause / 0x80, cause % 0x80;
    assert cause / 4 % 32 == low / 4 by {
      assert (high * 0x80 + low) / 4 == high * 32 + low / 4;
    }
    Above(high, low);
    Above(high, low % 4 + code * 4);
  }

  lemma Above(high: nat, low: nat)
    requires low < 0x80
    ensures (high * 0x80 + low) / 0x8000 == high / 0x100
  {
  }

  lemma RaiseTimer(s: State, code: nat, addr: Word)
    requires code < 32
    ensures TimerSame(s, Raise(s, code)) && TimerSame(s, RaiseAt(s, code, addr))
  {
    CodeBelow(s.cp0[CAUSE], code);
  }

  lemma LinesBelow(cause: Word, bit: int)
    requires bit == RECV_INT_BIT || bit == TRANS_INT_BIT
    ensures RaiseInterrupt(cause, bit) / 0x8000 == cause / 0x8000 && ClearInterrupt(cause, bit) / 0x8000 == cause / 0x8000
  {
    hide RaiseInterrupt, ClearInterrupt;
    RecvBelow(cause);
    TransBelow(cause);
  }

  lemma RecvBelow(cause: Word)
    ensures RaiseInterrupt(cause, 0x800) / 0x8000 == cause / 0x8000 && ClearInterrupt(cause, 0x800) / 0x8000 == cause / 0x8000
  {
    if cause / 0x800 % 2 == 0 {
      RecvSet(cause / 0x800, cause % 0x800);
    } else {
      RecvSet(cause / 0x800 - 1, cause % 0x800);
      assert cause - 0x800 == (cause / 0x800 - 1) * 0x800 + cause % 0x800;
    }
  }

  lemma RecvSet(q: nat, low: nat)
    requires q % 2 == 0 && low < 0x800
    ensures (q * 0x800 + low + 0x800) / 0x8000 == (q * 0x800 + low) / 0x8000
  {
    RecvAbove(q, low);
    RecvAbove(q + 1, low);
    assert (q + 1) / 0x10 == q / 0x10;
  }

  lemma RecvAbove(q: nat, low: nat)
    requires low < 0x800
    ensures (q * 0x800 + low) / 0x8000 == q / 0x10
  {
    assert q == q / 0x10 * 0x10 + q % 0x10;
  }

  lemma TransBelow(cause: Word)
    ensures RaiseInterrupt(cause, 0x400) / 0x8000 == cause / 0x8000 && ClearInterrupt(cause, 0x400) / 0x8000 == cause / 0x8000
  {
    if cause / 0x400 % 2 == 0 {
      TransSet(cause / 0x400, cause % 0x400);
    } else {
      TransSet(cause / 0x400 - 1, cause % 0x400);
      assert cause - 0x400 == (cause / 0x400 - 1) * 0x400 + cause % 0x400;
    }
  }

  lemma TransSet(q: nat, low: nat)
    requires q % 2 == 0 && low < 0x400
    ensures (q * 0x400 + low + 0x400) / 0x8000 == (q * 0x400 + low) / 0x8000
  {
    TransAbove(q, low);
    TransAbove(q + 1, low);
    assert (q + 1) / 0x20 == q / 0x20;
  }

  lemma TransAbove(q: nat, low: nat)
    requires low < 0x400
    ensures (q * 0x400 + low) / 0x8000 == q / 0x20
  {
    assert q == q / 0x20 * 0x20 + q % 0x20;
  }

  lemma DevicesBelow(io: Io, cause: Word, addr: Word, v: Word)
    ensures var r := ReadIo(io, cause, addr); r.IoDone? ==> r.cause / 0x8000 == cause / 0x8000
    ensures var r := WriteIo(io, cause, addr, v); r.IoDone? ==> r.cause / 0x8000 == cause / 0x8000
  {
    hide RaiseInterrupt, ClearInterrupt;
    LinesBelow(cause, RECV_INT_BIT);
    LinesBelow(cause, TRANS_INT_BIT);
  }

  lemma PollBelow(io: Io, cause: Word, input: Option<Byte>)
    ensures var r := Poll(io, cause, input); r.IoDone? ==> r.cause / 0x8000 == cause / 0x8000
  {
    hide RaiseInterrupt, ClearInterrupt;
    LinesBelow(cause, RECV_INT_BIT);
    LinesBelow(PollRecv(io, cause, input).cause, TRANS_INT_BIT);
  }

  lemma AccessBelow(m: Mem, cause: Word, w: Width, addr: Word, v: Word)
    ensures var r := Read(m, cause, w, addr); r.Done? ==> r.cause / 0x8000 == cause / 0x8000
    ensures var r := Write(m, cause, w, addr, v); r.Done? ==> r.cause / 0x8000 == cause / 0x8000
  {
    hide Locate, ReadSeg, Store, ExpandStack, ReadIo, WriteIo, InStackGap, InStack;
    DevicesBelow(m.io, cause, addr, v);
  }

  lemma FetchTimer(s: State, w: Width, addr: Word)
    ensures var f := Fetch(s, w, addr); f.Fetched? ==> TimerSame(s, f.s)
  {
    hide Read, RaiseAt;
    AccessBelow(s.mem, s.cp0[CAUSE], w, addr, 0);
    var r := Read(s.mem, s.cp0[CAUSE], w, addr);
    if r.Fault? && r.code < 32 {
      RaiseTimer(s, r.code, addr);
    }
  }

  lemma StoreTimer(s: State, w: Width, addr: Word, v: Word)
    ensures var e := StoreAt(s, w, addr, v); e.Effect? ==> TimerSame(s, e.s)
  {
    hide Write, RaiseAt;
    AccessBelow(s.mem, s.cp0[CAUSE], w, addr, v);
    var r := Write(s.mem, s.cp0[CAUSE], w, addr, v);
    if r.Fault? && r.code < 32 {
      RaiseTimer(s, r.code, addr);
    }
  }

  lemma LoadTimer(i: Inst, z: State)
    ensures var e := ExecLoad(i, z); e.Effect? ==> TimerSame(z, e.s)
  {
    hide Fetch, MergeLeft, MergeRight, TimerSame;
    var addr := Address(z, i);
    FetchTimer(z, W, addr - addr % 4);
    FetchTimer(z, WidthOf(i.op), addr);
  }

  lemma StoresTimer(i: Inst, z: State)
    ensures var e := ExecStore(i, z); e.Effect? ==> TimerSame(z, e.s)
  {
    hide Fetch, StoreAt, SpillLeft, SpillRight;
    var addr := Address(z, i);
    var f := Fetch(z, W, addr - addr % 4);
    FetchTimer(z, W, addr - addr % 4);
    if f.Fetched? {
      StoreTimer(f.s, W, addr - addr % 4, if i.op == SWL then SpillLeft(f.value, z.gpr[i.rt], addr % 4)
                                          else SpillRight(f.value, z.gpr[i.rt], addr % 4));
    }
    StoreTimer(z, WidthOf(i.op), addr, z.gpr[i.rt]);
  }

  /** The instruction is not a `mtc0` to Count, Compare or Cause. */
  predicate LeavesTimer(i: Inst) {
    !(i.op == MTC0 && (i.rd == 9 || i.rd == 11 || i.rd == 13))
  }

  lemma OtherTimer(i: Inst, z: State)
    requires LeavesTimer(i)
    ensures var e := ExecOther(i, z); e.Effect? ==> TimerSame(z, e.s)
  {
    hide ExecOther, TimerSame, IsMove;
    if IsMove(i.op) {
      MoveTimer(i, z);
    } else if i.op == ADD || i.op == ADDI || i.op == SUB {
      SumTimer(i, z);
    } else if i.op == MTC0 {
      ControlTimer(i, z);
    } else {
      RestTimer(i, z);
    }
  }

  lemma MoveTimer(i: Inst, z: State)
    requires IsMove(i.op)
    ensures var e := ExecOther(i, z); e.Effect? ==> TimerSame(z, e.s)
  {
    hide ExecOther;
    MoveIsQuiet(i, z);
  }

  lemma SumTimer(i: Inst, z: State)
    requires i.op == ADD || i.op == ADDI || i.op == SUB
    ensures var e := ExecOther(i, z); e.Effect? ==> TimerSame(z, e.s)
  {
    hide Signed, SignEx, Wrap, Raise;
    RaiseTimer(z, EXC_OV, 0);
  }

  lemma ControlTimer(i: Inst, z: State)
    requires i.op == MTC0 && LeavesTimer(i)
    ensures var e := ExecOther(i, z); e.Effect? ==> TimerSame(z, e.s)
  {
    hide And, OrWord;
  }

  lemma RestTimer(i: Inst, z: State)
    requires !IsMove(i.op) && i.op != ADD && i.op != ADDI && i.op != SUB && i.op != MTC0
    ensures var e := ExecOther(i, z); e.Effect? ==> TimerSame(z, e.s)
  {
    hide ExecOther, TimerSame;
    if i.op == J || i.op == JAL || i.op == JR || i.op == JALR || i.op == ERET {
      JumpTimer(i, z);
    } else if i.op == BREAK || i.op == RFE || i.op == TLBP || i.op == TLBR || i.op == TLBWI || i.op == TLBWR {
      TrapTimer(i, z);
    } else {
      IdleTimer(i, z);
    }
  }

  lemma JumpTimer(i: Inst, z: State)
    requires i.op == J || i.op == JAL || i.op == JR || i.op == JALR || i.op == ERET
    ensures var e := ExecOther(i, z); e.Effect? ==> TimerSame(z, e.s)
  {
    hide Wrap, JumpTarget, Exl;
  }

  lemma TrapTimer(i: Inst, z: State)
    requires i.op == BREAK || i.op == RFE || i.op == TLBP || i.op == TLBR || i.op == TLBWI || i.op == TLBWR
    ensures var e := ExecOther(i, z); e.Effect? ==> TimerSame(z, e.s)
  {
    hide Raise;
    RaiseTimer(z, EXC_BP, 0);
    RaiseTimer(z, EXC_RI, 0);
  }

  lemma IdleTimer(i: Inst, z: State)
    requires !IsMove(i.op) && i.op != ADD && i.op != ADDI && i.op != SUB && i.op != MTC0
    requires i.op != J && i.op != JAL && i.op != JR && i.op != JALR && i.op != ERET
    requires i.op != BREAK && i.op != RFE && i.op != TLBP && i.op != TLBR && i.op != TLBWI && i.op != TLBWR
    ensures var e := ExecOther(i, z); e.Effect? ==> TimerSame(z, e.s)
  {
    if i.op != CTC0 && i.op != SYSCALL {
      IdleStays(i, z);
    }
  }

  lemma IdleStays(i: Inst, z: State)
    requires !IsMove(i.op) && i.op != ADD && i.op != ADDI && i.op != SUB && i.op != MTC0
    requires i.op != J && i.op != JAL && i.op != JR && i.op != JALR && i.op != ERET
    requires i.op != BREAK && i.op != RFE && i.op != TLBP && i.op != TLBR && i.op != TLBWI && i.op != TLBWR
    requires i.op != CTC0 && i.op != SYSCALL
    ensures ExecOther(i, z) == Plain(z)
  {
  }

  lemma RunTimer(i: Inst, s: State)
    requires LeavesTimer(i)
    ensures var t := Run1(i, s); t.Some? ==> TimerSame(s, t.value)
  {
    hide Compute, MulDiv, Trips, ExecLoad, ExecStore, ExecOther, Taken, BranchOffset, Wrap, Raise;
    var z := Zeroed(s);
    if FamilyOf(i.op) == Loading {
      LoadTimer(i, z);
    } else if FamilyOf(i.op) == Storing {
      StoresTimer(i, z);
    } else if FamilyOf(i.op) == Other {
      OtherTimer(i, z);
    } else {
      RaiseTimer(z, EXC_TR, 0);
    }
  }

  lemma EventTimer(s: State, ev: Event, t: State)
    requires !ev.Tick? && (ev.Step? ==> LeavesTimer(ev.inst)) && Next1(s, ev) == Some(t)
    ensures TimerSame(s, t)
  {
    hide Run1, Poll, Deliverable, Raise, RaiseAt;
    match ev
    case Step(i) => RunTimer(i, s);
    case BadFetch => RaiseTimer(Zeroed(s), EXC_IBE, s.pc);
    case Interval(input) =>
      PollBelow(s.mem.io, s.cp0[CAUSE], if input.Typed? then Some(input.c) else None);
      RaiseTimer(Polled(s, input), EXC_INT, 0);
    case Tick =>
  }

  // ----- ticks -----

  function Ticks(evs: seq<Event>): nat
    decreases |evs|
  {
    if evs == [] then 0 else (if evs[0].Tick? then 1 else 0) + Ticks(evs[1..])
  }

  /** How many ticks until Count has counted up to Compare; a full turn if it is there already. */
  function TicksLeft(s: State): int {
    var count: int, compare: int := s.cp0[9], s.cp0[11];
    if compare > count then compare - count else compare - count + 0x1_0000_0000
  }

  lemma TickCounts(s: State)
    ensures var t := Ticked(s);
            var count: int := s.cp0[9];
            && t.cp0[9] == Wrap(count + 1) && t.cp0[11] == s.cp0[11]
            && (LineOn(t) <==> LineOn(s) || TicksLeft(s) == 1)
            && (TicksLeft(s) > 1 ==> TicksLeft(t) == TicksLeft(s) - 1)
  {
    LineAdds(s.cp0[CAUSE]);
  }

  lemma LineAdds(cause: Word)
    ensures cause / 0x8000 % 2 == 0 ==> (cause + 0x8000) / 0x8000 % 2 == 1 && cause + 0x8000 < 0x1_0000_0000
  {
    assert (cause + 0x8000) / 0x8000 == cause / 0x8000 + 1;
  }

  /** The program leaves the timer's registers alone. */
  ghost predicate TimerAlone(evs: seq<Event>) {
    forall ev | ev in evs :: ev.Step? ==> LeavesTimer(ev.inst)
  }

  /** Over every run: Count is the number of ticks further, and the timer line is on if and only if it
      was on before or Count has reached Compare since. */
  lemma {:induction false} TimerRises(s: State, evs: seq<Event>, t: State)
    requires TimerAlone(evs) && RunEvents(s, evs) == Some(t)
    ensures var count: int := s.cp0[9]; t.cp0[9] == Wrap(count + Ticks(evs))
    ensures LineOn(t) <==> LineOn(s) || Ticks(evs) >= TicksLeft(s)
    decreases |evs|
  {
    hide Next1, Ticked, LeavesTimer, Wrap;
    CountsOn(s.cp0[9], Ticks(evs));
    if evs != [] {
      var s1 := Next1(s, evs[0]).value;
      assert evs[0] in evs;
      if evs[0].Tick? {
        TickIs(s);
        TickCounts(s);
      } else {
        EventTimer(s, evs[0], s1);
      }
      TimerRises(s1, evs[1..], t);
    }
  }

  lemma CountsOn(count: Word, n: nat)
    ensures n > 0 ==> Wrap(Wrap(count + 1) + (n - 1)) == Wrap(count + n)
    ensures Wrap(count) == count
  {
  }

  lemma TickIs(s: State)
    ensures Next1(s, Tick) == Some(Ticked(s))
  {
  }
}
