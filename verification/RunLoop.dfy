/** The run loop as the program it is: registers updated in place, intervals of steps, exceptions
    handled between instructions. Every run of the loop is a run of the event machine. */
module RunLoop {
  import opened Words
  import opened MemModel
  import opened Multiply
  import opened Isa
  import opened Exceptions

  const IO_INTERVAL := 100

  /** Instructions started by a run: executed, or faulting at their fetch. */
  function Started(evs: seq<Event>): nat {
    if evs == [] then 0
    else Started(evs[..|evs| - 1]) + (if evs[|evs| - 1].Step? || evs[|evs| - 1].BadFetch? then 1 else 0)
  }

  /** Steps left in the current interval; None if an event came out of turn. */
  function StepsLeft(evs: seq<Event>, size: nat): Option<nat> {
    if evs == [] then Some(0)
    else
      var left := StepsLeft(evs[..|evs| - 1], size);
      if left.None? then None
      else match evs[|evs| - 1]
           case Interval(_) => if left.value == 0 then Some(size) else None
           case Tick => if left.value > 0 then left else None
           case _ => if left.value > 0 then Some(left.value - 1) else None
  }

  /** The instruction of event `k` is the one at PC when it starts. */
  ghost predicate FromText(text: map<Word, Option<Inst>>, s: State, evs: seq<Event>, k: nat)
    requires k < |evs|
  {
    evs[k].Step? || evs[k].BadFetch? ==>
      match RunEvents(s, evs[..k])
      case None => false
      case Some(u) => if evs[k].BadFetch? then u.pc !in text else u.pc in text && text[u.pc] == Some(evs[k].inst)
  }

  /** A run of the loop: the events happen, in turn, with the program's own instructions. */
  ghost predicate IsRun(text: map<Word, Option<Inst>>, size: nat, s: State, evs: seq<Event>, t: State) {
    && RunEvents(s, evs) == Some(t)
    && StepsLeft(evs, size).Some?
    && forall k: nat | k < |evs| :: FromText(text, s, evs, k)
  }

  /** May `ev` come next? */
  ghost predicate InTurn(text: map<Word, Option<Inst>>, ev: Event, left: nat, t: State) {
    match ev
    case Interval(_) => left == 0
    case Tick => left > 0
    case BadFetch => left > 0 && t.pc !in text
    case Step(i) => left > 0 && t.pc in text && text[t.pc] == Some(i)
  }

  lemma Extend(text: map<Word, Option<Inst>>, size: nat, s: State, evs: seq<Event>, t: State, ev: Event, u: State)
    requires IsRun(text, size, s, evs, t) && InTurn(text, ev, StepsLeft(evs, size).value, t) && Next1(t, ev) == Some(u)
    ensures IsRun(text, size, s, evs + [ev], u)
    ensures Started(evs + [ev]) == Started(evs) + (if ev.Step? || ev.BadFetch? then 1 else 0)
    ensures StepsLeft(evs + [ev], size).value ==
            match ev case Interval(_) => size case Tick => StepsLeft(evs, size).value case _ => StepsLeft(evs, size).value - 1
  {
    hide Next1;
    var all := evs + [ev];
    assert all[..|all| - 1] == evs;
    RunSplit(s, evs, [ev]);
    RunOne(t, ev);
    forall k: nat | k < |all| ensures FromText(text, s, all, k) {
      if k < |evs| {
        assert FromText(text, s, evs, k);
        assert all[..k] == evs[..k];
      } else {
        assert all[..k] == evs;
      }
    }
  }

  lemma EmptyRun(text: map<Word, Option<Inst>>, size: nat, s: State)
    ensures IsRun(text, size, s, [], s)
  {
  }

  /** How a run ends: all steps done, the user interrupted it (`force_break`), a debugger breakpoint
      (`break` with code 1), or an instruction that cannot be run. The program can be continued after
      the first three. */
  datatype Ended = Finished | Forced | Breakpoint | Stopped

  predicate AtBreakpoint(text: map<Word, Option<Inst>>, s: State) {
    s.pc in text && text[s.pc].Some? && text[s.pc].value.op == BREAK && text[s.pc].value.rd == 1
  }

  /** PC is at an empty word of the text segments, or at an instruction that leaves the machine. */
  ghost predicate CannotRun(text: map<Word, Option<Inst>>, s: State) {
    s.pc in text && (text[s.pc].Some? ==> Next1(s, Step(text[s.pc].value)).None? && !AtBreakpoint(text, s))
  }

  /** The machine is where the run `evs` brought it, or has just taken a debugger breakpoint there. */
  ghost predicate EndsWell(text: map<Word, Option<Inst>>, size: nat, s0: State, evs: seq<Event>, ended: Ended, u: State, now: State) {
    && IsRun(text, size, s0, evs, u)
    && (if ended == Breakpoint then AtBreakpoint(text, u) && now == Raise(Zeroed(u), EXC_BP) else now == u)
    && (ended == Stopped ==> CannotRun(text, u))
  }

  class Machine {
    var gpr: Regs
    var hilo: HiLo
    var pc: Word
    var cp0: Regs
    var ctl: Regs
    var exc: bool
    var mem: Mem
    const text: map<Word, Option<Inst>>  // None: a word of the text segments without an instruction

    constructor (text: map<Word, Option<Inst>>, s: State)
      ensures Snapshot() == s && this.text == text
    {
      this.text := text;
      gpr, hilo, pc, cp0, ctl, exc, mem := s.gpr, s.hilo, s.pc, s.cp0, s.ctl, s.exc, s.mem;
    }

    function Snapshot(): State
      reads this
    {
      State(gpr, hilo, pc, cp0, ctl, exc, mem)
    }

    /** `raise_exception` outside a delay slot. */
    method RaiseException(code: nat)
      requires code < 32
      modifies this
      ensures Snapshot() == Raise(old(Snapshot()), code)
    {
      if code != EXC_INT || (InterruptsOn(cp0) && !Exl(cp0)) {
        exc := true;
        var exl := Exl(cp0);
        if !exl {
          cp0 := cp0[EPC := pc - pc % 4];
        }
        cp0 := cp0[CAUSE := cp0[CAUSE] - cp0[CAUSE] / 4 % 32 * 4 + code * 4];
        if !exl {
          cp0 := cp0[STATUS := cp0[STATUS] + 2];
        }
        assert cp0 == Raise(old(Snapshot()), code).cp0;
      }
    }

    method HandleException()
      modifies this
      ensures Snapshot() == old(Snapshot()).(exc := false, pc := EXCEPTION_ADDR)
    {
      exc := false;
      pc := EXCEPTION_ADDR;
    }

    method CheckMappedIo(input: Console)
      modifies this
      ensures Snapshot() == Polled(old(Snapshot()), input)
    {
      if !input.Unmapped? {
        var r := Poll(mem.io, cp0[CAUSE], if input.Typed? then Some(input.c) else None);
        if r.IoDone? {
          mem := mem.(io := r.io);
          cp0 := cp0[CAUSE := r.cause];
        }
      }
    }

    /** The top of an interval. */
    method BeginInterval(input: Console)
      requires !exc
      modifies this
      ensures Some(Snapshot()) == Next1(old(Snapshot()), Interval(input)) && !exc
    {
      CheckMappedIo(input);
      PollKeeps(old(Snapshot()), input);
      if InterruptsOn(cp0) && !Exl(cp0) && Pending(cp0) != 0 {
        RaiseException(EXC_INT);
        HandleException();
      }
    }

    method BumpTimer()
      modifies this
      ensures Some(Snapshot()) == Next1(old(Snapshot()), Tick) && exc == old(exc)
    {
      var count: int := cp0[COUNT];
      cp0 := cp0[COUNT := Wrap(count + 1)];
      if cp0[COUNT] == cp0[COMPARE] && cp0[CAUSE] / 0x8000 % 2 == 0 {
        var cause: int := cp0[CAUSE];
        cp0 := cp0[CAUSE := Wrap(cause + 0x8000)];
      }
      assert cp0 == Ticked(old(Snapshot())).cp0;
    }

    method FetchFault()
      modifies this
      ensures Some(Snapshot()) == Next1(old(Snapshot()), BadFetch) && !exc
    {
      gpr := gpr[0 := 0];
      RaiseException(EXC_IBE);
      cp0 := cp0[BADVADDR := pc];
      HandleException();
    }

    /** One instruction: execute, bump PC, handle its exception. False when it leaves the machine. */
    method Execute(i: Inst) returns (ok: bool)
      modifies this
      ensures ok <==> Next1(old(Snapshot()), Step(i)).Some?
      ensures ok ==> Some(Snapshot()) == Next1(old(Snapshot()), Step(i)) && !exc
      ensures !ok ==> Snapshot() == old(Snapshot())
    {
      hide Exec, Wrap;
      assert State(gpr[0 := 0], hilo, pc, cp0, ctl, exc, mem) == Zeroed(Snapshot());
      var r := Exec(i, State(gpr[0 := 0], hilo, pc, cp0, ctl, exc, mem));
      if r.Foreign? {
        return false;
      }
      gpr, hilo, pc, cp0, ctl, exc, mem := r.s.gpr, r.s.hilo, r.s.pc, r.s.cp0, r.s.ctl, r.s.exc, r.s.mem;
      if r.load.Some? {
        gpr := gpr[r.load.value.dest := r.load.value.value];
      }
      pc := Wrap(pc + 4);
      if exc {
        HandleException();
      }
      return true;
    }

    /** The body of the inner loop: the timer, the fetch, the instruction. Not Finished ends the run. */
    method StepOnce(tick: bool, ghost size: nat, ghost s0: State, ghost evs: seq<Event>)
      returns (ended: Ended, ghost evs': seq<Event>, ghost u: State)
      requires !exc && IsRun(text, size, s0, evs, Snapshot()) && StepsLeft(evs, size).value > 0
      modifies this
      ensures ended != Forced && EndsWell(text, size, s0, evs', ended, u, Snapshot())
      ensures ended == Finished ==> !exc && Started(evs') == Started(evs) + 1
      ensures ended == Finished ==> StepsLeft(evs', size) == Some(StepsLeft(evs, size).value - 1)
      ensures ended != Finished ==> Started(evs') == Started(evs)
    {
      hide Exceptions.Next1, FromText, Raise;
      evs' := evs;
      ghost var before := Snapshot();
      if tick {
        BumpTimer();
        Extend(text, size, s0, evs', before, Tick, Snapshot());
        evs' := evs' + [Tick];
      }
      before := Snapshot();
      ended, u := Finished, before;
      if pc !in text {
        FetchFault();
        Extend(text, size, s0, evs', before, BadFetch, Snapshot());
        evs' := evs' + [BadFetch];
        u := Snapshot();
      } else if text[pc].None? {
        ended := Stopped;
      } else if text[pc].value.op == BREAK && text[pc].value.rd == 1 {
        gpr := gpr[0 := 0];
        RaiseException(EXC_BP);
        ended := Breakpoint;
      } else {
        var i := text[pc].value;
        var ok := Execute(i);
        if ok {
          Extend(text, size, s0, evs', before, Step(i), Snapshot());
          evs' := evs' + [Step(i)];
          u := Snapshot();
        } else {
          ended := Stopped;
        }
      }
    }

    /** `run_spim`: at most `steps` instructions from `start`. `inputs`, `expired` and `stops` are what
        the host's console, timer and user say, in order. The machine ends in the state reached by a run
        of the event machine (or the breakpoint exception taken there); it finished if and only if it
        ran all its steps. */
    method Run(start: Word, steps: nat, mapped: bool, inputs: seq<Option<Byte>>, expired: seq<bool>, stops: seq<bool>)
      returns (ended: Ended, ghost evs: seq<Event>, ghost u: State)
      requires !exc
      modifies this
      ensures EndsWell(text, if mapped then 100 else steps, old(Snapshot()).(pc := start), evs, ended, u, Snapshot())
      ensures Started(evs) <= steps && (ended == Finished <==> Started(evs) == steps)
    {
      hide Exceptions.Next1, IsRun;
      EmptyRun(text, if mapped then IO_INTERVAL else steps, Snapshot().(pc := start));
      pc := start;
      evs := [];
      ghost var s0 := Snapshot();
      var nextStep := if mapped then IO_INTERVAL else steps;
      var remaining, interval, done := steps, 0, 0;
      while remaining > 0
        invariant IsRun(text, nextStep, s0, evs, Snapshot()) && !exc
        invariant remaining >= 0 && Started(evs) + remaining == steps && (remaining > 0 ==> StepsLeft(evs, nextStep) == Some(0))
        decreases remaining
      {
        var size := if nextStep < remaining then nextStep else remaining;
        ghost var before := Snapshot();
        var input := if !mapped then Unmapped
                     else if interval < |inputs| && inputs[interval].Some? then Typed(inputs[interval].value) else Quiet;
        BeginInterval(input);
        Extend(text, nextStep, s0, evs, before, Interval(input), Snapshot());
        evs := evs + [Interval(input)];
        interval := interval + 1;
        var step := 0;
        while step < size
          invariant step <= size
          invariant IsRun(text, nextStep, s0, evs, Snapshot()) && !exc
          invariant Started(evs) + remaining == steps + step && StepsLeft(evs, nextStep) == Some(nextStep - step)
        {
          if done < |stops| && stops[done] {
            return Forced, evs, Snapshot();
          }
          var end;
          end, evs, u := StepOnce(done < |expired| && expired[done], nextStep, s0, evs);
          done := done + 1;
          if end != Finished {
            return end, evs, u;
          }
          step := step + 1;
        }
        remaining := remaining - size;
      }
      ended, u := Finished, Snapshot();
    }
  }
}
