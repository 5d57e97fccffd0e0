/** The memory-mapped console: invariants over every interleaving of device polls, program
    accesses, exceptions and timer interrupts. */
module Devices {
  import opened Words
  import opened MemModel
  import opened Bits

  /** Check: `check_memory_mapped_IO` with what the console has. Get and Put: the program reads or
      writes a device address. Except, Timer, Compare and SetCause: other parts of the processor change
      Cause (an exception, the timer expiring, `mtc0` to Compare, `mtc0` to Cause itself). */
  datatype Event =
    | Check(input: Option<Byte>) | Get(addr: Word) | Put(addr: Word, value: Word)
    | Except(code: nat) | Timer | Compare | SetCause(value: Word)

  /** The exception code field of Cause (bits 2 to 6), the timer's bit 15, or all that a program may set. */
  function Disturbed(cause: Word, ev: Event): Word {
    if ev.SetCause? then And(ev.value, 0x8000_ff7c)
    else if ev.Except? then cause - cause / 4 % 32 * 4 + ev.code % 32 * 4
    else if ev.Compare? then (if cause / 0x8000 % 2 == 1 then cause - 0x8000 else cause)
    else if cause / 0x8000 % 2 == 0 then cause + 0x8000 else cause
  }

  function Next(io: Io, cause: Word, ev: Event): IoAccess {
    match ev
    case Check(input) => Poll(io, cause, input)
    case Get(addr) => ReadIo(io, cause, addr)
    case Put(addr, value) => WriteIo(io, cause, addr, value)
    case _ => IoDone(io, Disturbed(cause, ev), 0)
  }

  /** The device after a run; accesses to unused device addresses end it. */
  function Run(io: Io, cause: Word, evs: seq<Event>): IoAccess
    decreases |evs|
  {
    if evs == [] then IoDone(io, cause, 0)
    else match Next(io, cause, evs[0])
         case IoDone(io', cause', _) => Run(io', cause', evs[1..])
         case IoAbort => IoAbort
  }

  // ----- interrupt bits -----

  /** Each device's Cause bit says READY and interrupt-enabled; the timers agree with READY. */
  ghost predicate Consistent(io: Io, cause: Word) {
    && LinesAgree(io, cause)
    && (io.transReady ==> io.transTimer == 0)
    && (io.recvTimer > 0 ==> io.recvReady)
  }

  ghost predicate LinesAgree(io: Io, cause: Word) {
    && (BitSet(cause, 0x800) <==> io.recvReady && io.recvEnable)
    && (BitSet(cause, 0x400) <==> io.transReady && io.transEnable)
  }

  /** An event that is not a program overwriting the device lines of Cause with something else. */
  ghost predicate LeavesLines(io: Io, ev: Event) {
    ev.SetCause? ==> LinesAgree(io, ev.value)
  }

  lemma ResetConsistent()
    ensures Consistent(IO_RESET, 0)
  {
  }

  /** Raising or clearing one line sets or clears its bit and keeps the other. */
  lemma LineBits(cause: Word, bit: int, other: int)
    requires (bit == RECV_INT_BIT && other == TRANS_INT_BIT) || (bit == TRANS_INT_BIT && other == RECV_INT_BIT)
    ensures BitSet(RaiseInterrupt(cause, bit), bit) && !BitSet(ClearInterrupt(cause, bit), bit)
    ensures BitSet(RaiseInterrupt(cause, bit), other) == BitSet(cause, other) == BitSet(ClearInterrupt(cause, bit), other)
  {
    hide BitSet, RaiseInterrupt, ClearInterrupt;
    if bit == RECV_INT_BIT {
      RecvLine(cause);
    } else {
      TransLine(cause);
    }
  }

  lemma RecvLine(cause: Word)
    ensures var raised, cleared := RaiseInterrupt(cause, RECV_INT_BIT), ClearInterrupt(cause, RECV_INT_BIT);
            && BitSet(raised, RECV_INT_BIT) && !BitSet(cleared, RECV_INT_BIT)
            && BitSet(raised, TRANS_INT_BIT) == BitSet(cause, TRANS_INT_BIT) == BitSet(cleared, TRANS_INT_BIT)
  {
    hide BitSet;
    var q := cause / 0x400;
    LineValues(cause);
    LineValues(RaiseInterrupt(cause, RECV_INT_BIT));
    LineValues(ClearInterrupt(cause, RECV_INT_BIT));
    TwoBits(cause, 2);
    TwoBits(cause, -2);
    NextPairs(q);
  }

  /** Bits 10 and 11, from the number above bit 9. */
  lemma LineValues(x: Word)
    ensures BitSet(x, TRANS_INT_BIT) <==> x / 0x400 % 2 == 1
    ensures BitSet(x, RECV_INT_BIT) <==> x / 0x400 / 2 % 2 == 1
  {
    TwoBits(x, 0);
  }

  lemma NextPairs(q: nat)
    ensures (q + 2) % 2 == q % 2 == (q - 2) % 2
    ensures (q + 2) / 2 == q / 2 + 1 && (q - 2) / 2 == q / 2 - 1
    ensures q % 2 == 0 ==> (q + 1) / 2 == q / 2 && (q + 1) % 2 == 1
    ensures q % 2 == 1 ==> (q - 1) / 2 == q / 2 && (q - 1) % 2 == 0
  {
  }

  lemma TransLine(cause: Word)
    ensures var raised, cleared := RaiseInterrupt(cause, TRANS_INT_BIT), ClearInterrupt(cause, TRANS_INT_BIT);
            && BitSet(raised, TRANS_INT_BIT) && !BitSet(cleared, TRANS_INT_BIT)
            && BitSet(raised, RECV_INT_BIT) == BitSet(cause, RECV_INT_BIT) == BitSet(cleared, RECV_INT_BIT)
  {
    hide BitSet;
    var q := cause / 0x400;
    LineValues(cause);
    LineValues(RaiseInterrupt(cause, TRANS_INT_BIT));
    LineValues(ClearInterrupt(cause, TRANS_INT_BIT));
    TwoBits(cause, 1);
    TwoBits(cause, -1);
    NextPairs(q);
  }

  /** Bits 10 and 11 after adding `d` at bit 10, in terms of the number above them. */
  lemma TwoBits(cause: int, d: int)
    ensures (cause + d * 0x400) / 0x400 == cause / 0x400 + d
    ensures (cause + d * 0x400) / 0x800 == (cause / 0x400 + d) / 2
  {
    var q := cause / 0x400 + d;
    assert (cause + d * 0x400) / 0x400 == q;
    assert (cause + d * 0x400) / 0x800 == q / 2;
  }

  lemma DisturbedBits(cause: Word, ev: Event)
    requires !ev.SetCause?
    ensures BitSet(Disturbed(cause, ev), RECV_INT_BIT) == BitSet(cause, RECV_INT_BIT)
    ensures BitSet(Disturbed(cause, ev), TRANS_INT_BIT) == BitSet(cause, TRANS_INT_BIT)
  {
    if ev.Except? {
      CodeBits(cause, ev.code % 32);
    } else if ev.Compare? {
      if cause >= 0x8000 {
        TimerBits(cause - 0x8000);
      }
    } else {
      TimerBits(cause);
    }
  }

  lemma CodeBits(cause: Word, code: nat)
    requires code < 32
    ensures (cause - cause / 4 % 32 * 4 + code * 4) / 0x400 == cause / 0x400
    ensures (cause - cause / 4 % 32 * 4 + code * 4) / 0x800 == cause / 0x800
  {
    var high, low := cause / 0x80, cause % 0x80;
    assert cause / 4 % 32 == low / 4 by { FieldOf(high, low); }
    UpperBits(high, low);
    UpperBits(high, low % 4 + code * 4);
  }

  lemma FieldOf(high: nat, low: nat)
    requires low < 0x80
    ensures (high * 0x80 + low) / 4 % 32 == low / 4
  {
    assert (high * 0x80 + low) / 4 == high * 32 + low / 4;
  }

  lemma UpperBits(high: nat, low: nat)
    requires low < 0x80
    ensures (high * 0x80 + low) / 0x400 == high / 8 && (high * 0x80 + low) / 0x800 == high / 16
  {
  }

  lemma TimerBits(cause: Word)
    ensures (cause + 0x8000) / 0x400 % 2 == cause / 0x400 % 2 && (cause + 0x8000) / 0x800 % 2 == cause / 0x800 % 2
  {
    assert (cause + 0x8000) / 0x400 == cause / 0x400 + 32;
    assert (cause + 0x8000) / 0x800 == cause / 0x800 + 16;
  }

  /** Writing Cause keeps the bits of the device lines as written. */
  lemma WrittenBits(v: Word)
    ensures BitSet(And(v, 0x8000_ff7c), RECV_INT_BIT) == BitSet(v, RECV_INT_BIT)
    ensures BitSet(And(v, 0x8000_ff7c), TRANS_INT_BIT) == BitSet(v, TRANS_INT_BIT)
  {
    hide And, Bit;
    AndBit(v, 0x8000_ff7c, 10);
    AndBit(v, 0x8000_ff7c, 11);
    LinesAreBits(v);
    LinesAreBits(0x8000_ff7c);
    LinesAreBits(And(v, 0x8000_ff7c));
  }

  lemma LinesAreBits(v: Word)
    ensures Bit(v, 10) == (v / 0x400 % 2 == 1) && Bit(v, 11) == (v / 0x800 % 2 == 1)
  {
    ShiftedBit(v, 5, 10);
    ShiftedBit(v, 5, 11);
    HalvedFive(v);
    ShiftedBit(v / 32, 5, 5);
    ShiftedBit(v / 32, 5, 6);
    HalvedFive(v / 32);
    assert v / 32 / 32 == v / 0x400 && v / 0x400 / 2 == v / 0x800;
    assert Bit(v / 0x400, 1) == Bit(v / 0x800, 0);
  }

  lemma HalvedFive(x: nat)
    ensures Halved(x, 5) == x / 32
  {
    var q := x / 2 / 2;
    assert Halved(x, 5) == Halved(x / 2, 4) == Halved(q, 3);
    assert Halved(q, 3) == Halved(q / 2, 2) == Halved(q / 2 / 2, 1) == q / 2 / 2 / 2;
  }

  /** An event keeps the invariant if and only if it leaves the lines alone. */
  lemma NextConsistentIff(io: Io, cause: Word, ev: Event)
    requires Consistent(io, cause)
    ensures var r := Next(io, cause, ev);
            if r.IoDone? then Consistent(r.io, r.cause) <==> LeavesLines(io, ev) else LeavesLines(io, ev)
  {
    hide BitSet, RaiseInterrupt, ClearInterrupt, And;
    if ev.SetCause? {
      WrittenBits(ev.value);
    } else {
      NextConsistent(io, cause, ev);
    }
  }

  lemma NextConsistent(io: Io, cause: Word, ev: Event)
    requires Consistent(io, cause) && !ev.SetCause?
    ensures var r := Next(io, cause, ev); r.IoDone? ==> Consistent(r.io, r.cause)
  {
    hide BitSet, RaiseInterrupt, ClearInterrupt, Disturbed;
    LineBits(cause, RECV_INT_BIT, TRANS_INT_BIT);
    LineBits(cause, TRANS_INT_BIT, RECV_INT_BIT);
    DisturbedBits(cause, ev);
    if ev.Check? {
      LineBits(PollRecv(io, cause, ev.input).cause, TRANS_INT_BIT, RECV_INT_BIT);
    }
  }

  /** The invariant at every point of a run. */
  ghost predicate AlwaysConsistent(io: Io, cause: Word, evs: seq<Event>)
    decreases |evs|
  {
    && Consistent(io, cause)
    && (evs != [] ==> match Next(io, cause, evs[0])
                      case IoDone(io', cause', _) => AlwaysConsistent(io', cause', evs[1..])
                      case IoAbort => true)
  }

  /** No event of a run overwrites the device lines. */
  ghost predicate NeverOverwrites(io: Io, cause: Word, evs: seq<Event>)
    decreases |evs|
  {
    evs != [] ==> LeavesLines(io, evs[0]) && match Next(io, cause, evs[0])
                                             case IoDone(io', cause', _) => NeverOverwrites(io', cause', evs[1..])
                                             case IoAbort => true
  }

  /** The invariant holds at every point of a run if and only if the program never writes other device
      lines into Cause than are there; and then at its end. */
  lemma {:induction false} RunConsistent(io: Io, cause: Word, evs: seq<Event>)
    requires Consistent(io, cause)
    ensures AlwaysConsistent(io, cause, evs) <==> NeverOverwrites(io, cause, evs)
    ensures var r := Run(io, cause, evs); NeverOverwrites(io, cause, evs) && r.IoDone? ==> Consistent(r.io, r.cause)
    decreases |evs|
  {
    hide Next, Consistent, LeavesLines;
    if evs != [] {
      var r := Next(io, cause, evs[0]);
      NextConsistentIff(io, cause, evs[0]);
      if r.IoDone? {
        if Consistent(r.io, r.cause) {
          RunConsistent(r.io, r.cause, evs[1..]);
        } else {
          assert !AlwaysConsistent(r.io, r.cause, evs[1..]);
        }
      }
    }
  }

  /** `mtc0` to Cause can raise the receiver's line while the receiver is idle. */
  lemma CauseWriteForges()
    ensures Consistent(IO_RESET, 0) && !AlwaysConsistent(IO_RESET, 0, [SetCause(0x800)])
  {
    hide And;
    ResetConsistent();
    RunConsistent(IO_RESET, 0, [SetCause(0x800)]);
  }

  // ----- pace of the transmitter -----

  function Polls(evs: seq<Event>): nat
    decreases |evs|
  {
    if evs == [] then 0 else (if evs[0].Check? then 1 else 0) + Polls(evs[1..])
  }

  /** The polls still needed before the transmitter takes a character. */
  function Wait(io: Io): nat {
    if io.transReady then 0 else io.transTimer + 1
  }

  /** An output is accepted: a character reaches the console. */
  ghost predicate Accepts(io: Io, ev: Event) {
    ev.Put? && ev.addr == TRANS_BUFFER_ADDR && io.transReady
  }

  lemma NextWaits(io: Io, cause: Word, ev: Event)
    ensures var r := Next(io, cause, ev);
            r.IoDone? ==>
              && (Accepts(io, ev) ==> Wait(r.io) == TRANS_LATENCY + 1 && r.io.sent == io.sent + [ev.value % 0x100])
              && (!Accepts(io, ev) ==> r.io.sent == io.sent)
              && (!Accepts(io, ev) ==> Wait(r.io) == if ev.Check? && Wait(io) > 0 then Wait(io) - 1 else Wait(io))
  {
    hide RaiseInterrupt, ClearInterrupt, BitSet, Disturbed;
  }

  lemma {:induction false} RunWaits(io: Io, cause: Word, evs: seq<Event>)
    ensures var r := Run(io, cause, evs); r.IoDone? ==> Wait(r.io) + Polls(evs) >= Wait(io)
    decreases |evs|
  {
    hide Next, Wait;
    if evs != [] {
      var r := Next(io, cause, evs[0]);
      NextWaits(io, cause, evs[0]);
      if r.IoDone? {
        if Accepts(io, evs[0]) {
          assert Wait(io) == 0 by { ReadyWait(io); }
        }
        RunWaits(r.io, r.cause, evs[1..]);
      }
    }
  }

  lemma ReadyWait(io: Io)
    ensures io.transReady <==> Wait(io) == 0
  {
  }

  lemma {:induction false} RunSplit(io: Io, cause: Word, evs: seq<Event>, more: seq<Event>)
    ensures Run(io, cause, evs + more) ==
            match Run(io, cause, evs) case IoDone(io', cause', _) => Run(io', cause', more) case IoAbort => IoAbort
    decreases |evs|
  {
    hide Next;
    if evs == [] {
      assert evs + more == more;
    } else {
      assert (evs + more)[1..] == evs[1..] + more;
      var r := Next(io, cause, evs[0]);
      if r.IoDone? {
        RunSplit(r.io, r.cause, evs[1..], more);
      }
    }
  }

  /** Two accepted output characters are at least 101 polls apart, in every run. */
  lemma OutputsApart(io: Io, cause: Word, first: Event, between: seq<Event>, second: Event)
    requires Accepts(io, first) && Run(io, cause, [first] + between).IoDone?
    requires Accepts(Run(io, cause, [first] + between).io, second)
    ensures Polls(between) >= 101
  {
    hide Next, Wait;
    RunSplit(io, cause, [first], between);
    var r := Next(io, cause, first);
    assert Run(io, cause, [first]) == match r case IoDone(io', c', _) => IoDone(io', c', 0) case IoAbort => IoAbort by {
      RunFirst(io, cause, first);
    }
    NextWaits(io, cause, first);
    RunWaits(r.io, r.cause, between);
    ReadyWait(Run(io, cause, [first] + between).io);
  }

  lemma RunFirst(io: Io, cause: Word, ev: Event)
    ensures Run(io, cause, [ev]) == match Next(io, cause, ev) case IoDone(io', c', _) => IoDone(io', c', 0) case IoAbort => IoAbort
  {
    hide Next;
    var r := Next(io, cause, ev);
    assert [ev][1..] == [];
    if r.IoDone? {
      assert Run(r.io, r.cause, []) == IoDone(r.io, r.cause, 0);
    }
  }

  /** No output is accepted anywhere in a run. */
  ghost predicate Silent(io: Io, cause: Word, evs: seq<Event>)
    decreases |evs|
  {
    evs == [] ||
    (!Accepts(io, evs[0]) && match Next(io, cause, evs[0])
                             case IoDone(io', cause', _) => Silent(io', cause', evs[1..])
                             case IoAbort => true)
  }

  /** While no character is accepted, the transmitter is ready again after exactly that many polls. */
  lemma {:induction false} ReadyAgainIff(io: Io, cause: Word, evs: seq<Event>)
    requires Silent(io, cause, evs)
    ensures var r := Run(io, cause, evs);
            r.IoDone? ==> (r.io.transReady <==> Polls(evs) >= Wait(io)) && r.io.sent == io.sent
    decreases |evs|
  {
    hide Next, Wait;
    ReadyWait(io);
    if evs != [] {
      var r := Next(io, cause, evs[0]);
      NextWaits(io, cause, evs[0]);
      if r.IoDone? {
        ReadyAgainIff(r.io, r.cause, evs[1..]);
        ReadyWait(r.io);
      }
    }
  }

  // ----- what is typed is read -----

  /** The program reads the receiver's buffer. */
  predicate TakesChar(ev: Event) {
    ev.Get? && ev.addr == 0xffff_0004
  }

  lemma NextHolds(io: Io, cause: Word, ev: Event)
    requires io.recvReady && !TakesChar(ev) && (ev.Check? ==> io.recvTimer > 0)
    ensures var r := Next(io, cause, ev);
            r.IoDone? ==> && r.io.recvReady && r.io.recvBuffer == io.recvBuffer
                          && r.io.recvTimer == if ev.Check? then io.recvTimer - 1 else io.recvTimer
  {
    hide RaiseInterrupt, ClearInterrupt, Disturbed;
  }

  lemma {:induction false} CharHeld(io: Io, cause: Word, evs: seq<Event>)
    requires io.recvReady && Polls(evs) <= io.recvTimer && forall ev | ev in evs :: !TakesChar(ev)
    ensures var r := Run(io, cause, evs);
            r.IoDone? ==> r.io.recvReady && r.io.recvBuffer == io.recvBuffer && r.io.recvTimer == io.recvTimer - Polls(evs)
    decreases |evs|
  {
    hide Next;
    if evs != [] {
      var r := Next(io, cause, evs[0]);
      NextHolds(io, cause, evs[0]);
      if r.IoDone? {
        CharHeld(r.io, r.cause, evs[1..]);
      }
    }
  }

  /** What a program sees at 0xffff0000 and 0xffff0004: READY in bit 0, and the character; reading it
      clears READY. */
  lemma ReadsChar(io: Io, cause: Word)
    ensures var r := Next(io, cause, Get(0xffff_0000)); r.IoDone? && (r.value % 2 == 1 <==> io.recvReady)
    ensures var r := Next(io, cause, Get(0xffff_0004)); r.IoDone? && r.value == io.recvBuffer && !r.io.recvReady
  {
    hide ClearInterrupt;
  }

  /** The control words read back: READY in bit 0, and in bit 1 the interrupt enable last written. */
  lemma ControlReadsBack(io: Io, cause: Word, addr: Word, v: Word)
    requires addr == 0xffff_0000 || addr == 0xffff_0008
    ensures var r := Next(io, cause, Put(addr, v));
            && r.IoDone?
            && var x := Next(r.io, r.cause, Get(addr));
               x.IoDone? && x.value == 2 * (v / 2 % 2) + if addr == 0xffff_0000 then (if io.recvReady then 1 else 0)
                                                         else (if io.transReady then 1 else 0)
  {
    hide RaiseInterrupt, ClearInterrupt;
  }

  /** A character typed when the receiver polls for one is what the program reads within the next 100
      polls, whatever it and the devices do in between; READY says so. */
  lemma TypedIsRead(io: Io, cause: Word, c: Byte, between: seq<Event>)
    requires io.recvTimer == 0 && Polls(between) <= 100 && forall ev | ev in between :: !TakesChar(ev)
    ensures var r := Run(io, cause, [Check(Some(c))] + between);
            r.IoDone? ==>
              && (var x := Next(r.io, r.cause, Get(0xffff_0000)); x.IoDone? && x.value % 2 == 1)
              && (var x := Next(r.io, r.cause, Get(0xffff_0004)); x.IoDone? && x.value == c && !x.io.recvReady)
  {
    hide Next;
    var r := Next(io, cause, Check(Some(c)));
    PollTakes(io, cause, c);
    RunFrom(io, cause, Check(Some(c)), between);
    CharHeld(r.io, r.cause, between);
    var t := Run(r.io, r.cause, between);
    if t.IoDone? {
      ReadsChar(t.io, t.cause);
    }
  }

  lemma PollTakes(io: Io, cause: Word, c: Byte)
    requires io.recvTimer == 0
    ensures var r := Next(io, cause, Check(Some(c)));
            r.IoDone? && r.io.recvReady && r.io.recvBuffer == c && r.io.recvTimer == 100
  {
    hide RaiseInterrupt, ClearInterrupt;
  }

  lemma RunFrom(io: Io, cause: Word, ev: Event, evs: seq<Event>)
    requires Next(io, cause, ev).IoDone?
    ensures var r := Next(io, cause, ev); Run(io, cause, [ev] + evs) == Run(r.io, r.cause, evs)
  {
    hide Next;
    assert ([ev] + evs)[1..] == evs;
  }

  /** After exactly 100 polls the next character typed overwrites one not yet read. */
  lemma TypedIsOverwritten(io: Io, cause: Word, c: Byte, between: seq<Event>, d: Byte)
    requires io.recvTimer == 0 && Polls(between) == 100 && forall ev | ev in between :: !TakesChar(ev)
    ensures var r := Run(io, cause, [Check(Some(c))] + between);
            r.IoDone? ==> var x := Next(r.io, r.cause, Check(Some(d)));
                          x.IoDone? && Next(x.io, x.cause, Get(0xffff_0004)).IoDone? && Next(x.io, x.cause, Get(0xffff_0004)).value == d
  {
    hide Next;
    var r := Next(io, cause, Check(Some(c)));
    PollTakes(io, cause, c);
    RunFrom(io, cause, Check(Some(c)), between);
    CharHeld(r.io, r.cause, between);
    var t := Run(r.io, r.cause, between);
    if t.IoDone? {
      PollTakes(t.io, t.cause, d);
      var x := Next(t.io, t.cause, Check(Some(d)));
      ReadsChar(x.io, x.cause);
    }
  }

  // ----- the device registers -----

  const READY := 1
  const INT_ENABLE := 2

  predicate Has(control: nat, bit: nat)
    requires bit > 0
  {
    control / bit % 2 == 1
  }

  function With(control: nat, bit: nat): (r: nat)
    requires bit == READY || bit == INT_ENABLE
    ensures Has(r, bit) && Has(r, 3 - bit) == Has(control, 3 - bit) && (control < 4 ==> r < 4)
  {
    if Has(control, bit) then control else control + bit
  }

  function Without(control: nat, bit: nat): (r: nat)
    requires bit == READY || bit == INT_ENABLE
    ensures !Has(r, bit) && Has(r, 3 - bit) == Has(control, 3 - bit) && (control < 4 ==> r < 4)
  {
    if Has(control, bit) then control - bit else control
  }

  /** The control words, buffers and timers as they are kept, with the Cause register. */
  class Registers {
    var recvControl: nat
    var recvBuffer: Byte
    var recvTimer: nat
    var transControl: nat
    var transBuffer: Byte
    var transTimer: nat
    var sent: seq<Byte>
    var cause: Word

    ghost predicate Valid()
      reads this
    {
      recvControl < 4 && transControl < 4
    }

    function Model(): Io
      reads this
    {
      Io(Has(recvControl, READY), Has(recvControl, INT_ENABLE), recvBuffer, recvTimer,
         Has(transControl, READY), Has(transControl, INT_ENABLE), transBuffer, transTimer, sent)
    }

    constructor ()
      ensures Valid() && Model() == IO_RESET && cause == 0
    {
      recvControl, recvBuffer, recvTimer := 0, 0, 0;
      transControl, transBuffer, transTimer := READY, 0, 0;
      sent, cause := [], 0;
    }

    /** `check_memory_mapped_IO` */
    method PollDevices(input: Option<Byte>)
      requires Valid()
      modifies this
      ensures Valid() && Poll(old(Model()), old(cause), input) == IoDone(Model(), cause, 0)
    {
      hide RaiseInterrupt, ClearInterrupt, With, Without, Has;
      if recvTimer > 0 {
        recvTimer := recvTimer - 1;
      } else if input.Some? {
        recvBuffer := input.value;
        recvControl := With(recvControl, READY);
        recvTimer := RECV_INTERVAL;
        if Has(recvControl, INT_ENABLE) {
          cause := RaiseInterrupt(cause, RECV_INT_BIT);
        }
      }
      if transTimer > 0 {
        transTimer := transTimer - 1;
      } else if !Has(transControl, READY) {
        transControl := With(transControl, READY);
        if Has(transControl, INT_ENABLE) {
          cause := RaiseInterrupt(cause, TRANS_INT_BIT);
        }
      }
    }

    /** `write_memory_mapped_IO`; false for an unused address. */
    method WriteDevice(addr: Word, value: Word) returns (ok: bool)
      requires Valid()
      modifies this
      ensures Valid()
      ensures WriteIo(old(Model()), old(cause), addr, value) == if ok then IoDone(Model(), cause, 0) else IoAbort
    {
      hide RaiseInterrupt, ClearInterrupt, With, Without;
      ok := true;
      if addr == TRANS_CTRL_ADDR {
        if Has(value, INT_ENABLE) {
          transControl := With(transControl, INT_ENABLE);
          if Has(transControl, READY) {
            cause := RaiseInterrupt(cause, TRANS_INT_BIT);
          }
        } else {
          transControl := Without(transControl, INT_ENABLE);
          cause := ClearInterrupt(cause, TRANS_INT_BIT);
        }
      } else if addr == TRANS_BUFFER_ADDR {
        if Has(transControl, READY) {
          transBuffer := value % 0x100;
          sent := sent + [transBuffer];
          transControl := Without(transControl, READY);
          transTimer := TRANS_LATENCY;
          cause := ClearInterrupt(cause, TRANS_INT_BIT);
        }
      } else if addr == RECV_CTRL_ADDR {
        if Has(value, INT_ENABLE) {
          recvControl := With(recvControl, INT_ENABLE);
          if Has(recvControl, READY) {
            cause := RaiseInterrupt(cause, RECV_INT_BIT);
          }
        } else {
          recvControl := Without(recvControl, INT_ENABLE);
          cause := ClearInterrupt(cause, RECV_INT_BIT);
        }
      } else {
        ok := addr == RECV_BUFFER_ADDR;
      }
    }

    /** `read_memory_mapped_IO`; None for an unused address. */
    method ReadDevice(addr: Word) returns (r: Option<Word>)
      requires Valid()
      modifies this
      ensures Valid()
      ensures ReadIo(old(Model()), old(cause), addr) == if r.Some? then IoDone(Model(), cause, r.value) else IoAbort
    {
      hide RaiseInterrupt, ClearInterrupt, With, Without;
      if addr == TRANS_CTRL_ADDR {
        r := Some(transControl);
      } else if addr == TRANS_BUFFER_ADDR {
        var c: Word := transBuffer;
        r := Some(c);
      } else if addr == RECV_CTRL_ADDR {
        r := Some(recvControl);
      } else if addr == RECV_BUFFER_ADDR {
        recvControl := Without(recvControl, READY);
        recvTimer := 0;
        cause := ClearInterrupt(cause, RECV_INT_BIT);
        var c: Word := recvBuffer;
        r := Some(c);
      } else {
        r := None;
      }
    }
  }
}
