/** The two-slot delayed-load pipeline of the run loop against immediate loads. */
module DelayedLoads {
  import opened Words
  import opened MemModel
  import opened Multiply
  import opened Isa

  // ----- registers an instruction reads and writes -----

  predicate ReadsRs(op: Op) {
    match op
    case BREAK | CACHE | CFC0 | CTC0 | ERET | J | JAL | LUI | MFC0 | MFHI | MFLO | MTC0 | PREF | RFE | SLL | SRA | SRL
       | SYNC | SYSCALL | TLBP | TLBR | TLBWI | TLBWR => false
    case _ => true
  }

  predicate ReadsRt(op: Op) {
    match op
    case ADD | ADDU | AND | BEQ | BEQL | BNE | BNEL | CTC0 | DIV | DIVU | LWL | LWR | MADD | MADDU | MOVN | MOVZ
       | MSUB | MSUBU | MTC0 | MUL | MULT | MULTU | NOR | OR | SB | SC | SH | SLL | SLLV | SLT | SLTU | SRA | SRAV | SRL
       | SRLV | SUB | SUBU | SW | SWL | SWR | TEQ | TGE | TGEU | TLT | TLTU | TNE | XOR => true
    case _ => false
  }

  /** Registers an instruction may read. */
  function Reads(i: Inst): set<Reg> {
    (if ReadsRs(i.op) then {i.rs} else {}) + (if ReadsRt(i.op) then {i.rt} else {})
  }

  /** Registers an instruction may write, a load's destination included. */
  function Writes(i: Inst): set<Reg> {
    match i.op
    case ADD | ADDU | AND | MOVN | MOVZ | MUL | NOR | OR | SLLV | SLT | SLTU | SRAV | SRLV | SUB | SUBU | XOR
       | CLO | CLZ | JALR | MFHI | MFLO | SLL | SRA | SRL => {i.rd}
    case ADDI | ADDIU | ANDI | ORI | XORI | SLTI | SLTIU | LUI | CFC0 | MFC0
       | LB | LBU | LH | LHU | LL | LW | LWL | LWR => {i.rt}
    case BGEZAL | BGEZALL | BLTZAL | BLTZALL | JAL => {RA}
    case _ => {}
  }

  predicate IsLoad(op: Op) {
    FamilyOf(op) == Loading
  }

  /** Executing with a register changed that the instruction neither reads nor writes only
      carries the change along. */
  ghost predicate Framed(i: Inst, s: State, d: Reg, v: Word) {
    Exec(i, Put(s, d, v)) == PutEffect(Exec(i, s), d, v)
  }

  /** The effect of changing one register on a fetch and on an instruction's outcome. */
  ghost function PutFetched(f: Fetched, d: Reg, v: Word): Fetched {
    match f case Fetched(s, x) => Fetched(Put(s, d, v), x) case Lost => Lost
  }

  ghost function PutEffect(e: Effect, d: Reg, v: Word): Effect {
    match e case Effect(s, load) => Effect(Put(s, d, v), load) case Foreign => Foreign
  }

  lemma FetchFramed(s: State, d: Reg, v: Word, w: Width, addr: Word)
    ensures Fetch(Put(s, d, v), w, addr) == PutFetched(Fetch(s, w, addr), d, v)
  {
  }

  lemma StoreFramed(s: State, d: Reg, v: Word, w: Width, addr: Word, x: Word)
    ensures StoreAt(Put(s, d, v), w, addr, x) == PutEffect(StoreAt(s, w, addr, x), d, v)
  {
  }

  lemma SpilledFramed(f: Fetched, d: Reg, v: Word, addr: Word, reg: Word, k: nat, left: bool)
    requires k < 4
    ensures Spilled(PutFetched(f, d, v), addr, reg, k, left) == PutEffect(Spilled(f, addr, reg, k, left), d, v)
  {
    if f.Fetched? {
      StoreFramed(f.s, d, v, W, addr, if left then SpillLeft(f.value, reg, k) else SpillRight(f.value, reg, k));
    }
  }

  lemma PutsCommute(s: State, r: Reg, x: Word, d: Reg, v: Word)
    requires r != d
    ensures Put(Put(s, r, x), d, v) == Put(Put(s, d, v), r, x)
  {
    assert s.gpr[r := x][d := v] == s.gpr[d := v][r := x];
  }

  lemma LoadPartFramed(i: Inst, s: State, d: Reg, v: Word, left: bool)
    requires d != i.rs && d != i.rt
    ensures LoadPart(Put(s, d, v), i, left) == PutEffect(LoadPart(s, i, left), d, v)
  {
    var addr := Address(s, i);
    assert Address(Put(s, d, v), i) == addr;
    FetchFramed(s, d, v, W, addr - addr % 4);
  }

  lemma LoadToFramed(i: Inst, s: State, d: Reg, v: Word, w: Width, unsigned: bool)
    requires d != i.rs
    ensures LoadTo(Put(s, d, v), i.rt, w, Address(Put(s, d, v), i), unsigned)
            == PutEffect(LoadTo(s, i.rt, w, Address(s, i), unsigned), d, v)
  {
    FetchFramed(s, d, v, w, Address(s, i));
  }

  lemma LoadFramed(i: Inst, s: State, d: Reg, v: Word)
    requires d !in Reads(i) && IsLoad(i.op)
    ensures Framed(i, s, d, v)
  {
    if i.op == LWL || i.op == LWR {
      LoadPartFramed(i, s, d, v, i.op == LWL);
    } else {
      LoadToFramed(i, s, d, v, WidthOf(i.op), i.op == LBU || i.op == LHU);
    }
  }

  lemma StorePartFramed(i: Inst, s: State, d: Reg, v: Word, left: bool)
    requires d != i.rs && d != i.rt
    ensures StorePart(Put(s, d, v), i, left) == PutEffect(StorePart(s, i, left), d, v)
  {
    hide Read, Write, StoreAt;
    var addr := Address(s, i);
    assert Address(Put(s, d, v), i) == addr;
    FetchFramed(s, d, v, W, addr - addr % 4);
    SpilledFramed(Fetch(s, W, addr - addr % 4), d, v, addr - addr % 4, s.gpr[i.rt], addr % 4, left);
  }

  lemma StoresFramed(i: Inst, s: State, d: Reg, v: Word)
    requires d !in Reads(i) && FamilyOf(i.op) == Storing
    ensures Framed(i, s, d, v)
  {
    hide Read, Write, StoreAt, StorePart, Compute, Branch, MulDiv, Trips, ExecLoad, ExecOther, Raise, Wrap, SignEx;
    if i.op == SWL || i.op == SWR {
      StorePartFramed(i, s, d, v, i.op == SWL);
    } else {
      StoreFramed(s, d, v, WidthOf(i.op), Address(s, i), s.gpr[i.rt]);
    }
  }

  /** A computed value, a branch test, a multiplier result and a trap test depend only on the
      registers read. */
  lemma ComputeReads(op: Op, a: Word, a': Word, b: Word, b': Word, imm: Half, shamt: Reg)
    requires ReadsRs(op) ==> a == a'
    requires ReadsRt(op) ==> b == b'
    ensures Compute(op, a, b, imm, shamt) == Compute(op, a', b', imm, shamt)
  {
  }

  lemma TestsRead(op: Op, a: Word, a': Word, b: Word, b': Word, imm: Word, hilo: HiLo)
    requires ReadsRs(op) ==> a == a'
    requires ReadsRt(op) ==> b == b'
    ensures Taken(op, a, b) == Taken(op, a', b')
    ensures Trips(op, a, b, imm) == Trips(op, a', b', imm)
    ensures MulDiv(op, hilo, a, b) == MulDiv(op, hilo, a', b')
  {
  }

  lemma ComputeFramed(i: Inst, s: State, d: Reg, v: Word)
    requires d !in Reads(i) && d !in Writes(i) && FamilyOf(i.op) == Computing
    ensures Framed(i, s, d, v)
  {
    var s' := Put(s, d, v);
    ComputeReads(i.op, s.gpr[i.rs], s'.gpr[i.rs], s.gpr[i.rt], s'.gpr[i.rt], i.imm, i.shamt);
    var r := if WritesRt(i.op) then i.rt else i.rd;
    assert r != d;
    PutsCommute(s, r, Compute(i.op, s.gpr[i.rs], s.gpr[i.rt], i.imm, i.shamt), d, v);
  }

  lemma BranchFramed(i: Inst, s: State, d: Reg, v: Word)
    requires d !in Reads(i) && d !in Writes(i) && FamilyOf(i.op) == Branching
    ensures Framed(i, s, d, v)
  {
    var s1 := if Links(i.op) then Put(s, RA, Wrap(s.pc + 4)) else s;
    if Links(i.op) {
      PutsCommute(s, RA, Wrap(s.pc + 4), d, v);
    }
    var s2 := Put(s1, d, v);
    TestsRead(i.op, s1.gpr[i.rs], s2.gpr[i.rs], s1.gpr[i.rt], s2.gpr[i.rt], 0, s.hilo);
  }

  lemma CheckedFramed(s: State, r: Reg, exact: int, d: Reg, v: Word)
    requires r != d
    ensures Checked(Put(s, d, v), r, exact) == PutEffect(Checked(s, r, exact), d, v)
  {
    PutsCommute(s, r, Wrap(exact), d, v);
  }

  lemma ArithmeticFramed(i: Inst, s: State, d: Reg, v: Word)
    requires d !in Reads(i) && d !in Writes(i)
    requires i.op == ADD || i.op == ADDI || i.op == SUB || i.op == MOVN || i.op == MOVZ || i.op == MUL
    ensures Framed(i, s, d, v)
  {
    hide Wrap, Signed, SignEx, SignedMultiply, Checked, Raise, Compute, MulDiv, ExecLoad, ExecStore, Branch, Trips,
      MoveToCp0, JumpTarget, Exl;
    var rs, rt := s.gpr[i.rs], s.gpr[i.rt];
    match i.op
    case ADD => CheckedFramed(s, i.rd, Signed(rs) + Signed(rt), d, v);
    case ADDI => CheckedFramed(s, i.rt, Signed(rs) + Signed(SignEx(i.imm)), d, v);
    case SUB => CheckedFramed(s, i.rd, Signed(rs) - Signed(rt), d, v);
    case MUL =>
      var p := SignedMultiply(rs, rt);
      PutsCommute(s.(hilo := p), i.rd, p.lo, d, v);
    case _ => PutsCommute(s, i.rd, rs, d, v);
  }

  lemma OtherFramed(i: Inst, s: State, d: Reg, v: Word)
    requires d !in Reads(i) && d !in Writes(i) && FamilyOf(i.op) == Other
    ensures Framed(i, s, d, v)
  {
    hide Wrap, Signed, SignEx, SignedMultiply, MoveToCp0, JumpTarget, Checked, Exl, Compute, MulDiv,
      ExecLoad, ExecStore, Branch, Trips;
    match i.op
    case ADD | ADDI | SUB | MOVN | MOVZ | MUL => ArithmeticFramed(i, s, d, v);
    case CFC0 => PutsCommute(s, i.rt, s.ctl[i.rd], d, v);
    case MFC0 => PutsCommute(s, i.rt, s.cp0[i.rd], d, v);
    case MFHI => PutsCommute(s, i.rd, s.hilo.hi, d, v);
    case MFLO => PutsCommute(s, i.rd, s.hilo.lo, d, v);
    case JAL => PutsCommute(s, RA, Wrap(s.pc + 4), d, v);
    case JALR => PutsCommute(s, i.rd, Wrap(s.pc + 4), d, v);
    case _ =>
  }

  lemma ExecFramed(i: Inst, s: State, d: Reg, v: Word)
    requires d !in Reads(i) && d !in Writes(i)
    ensures Framed(i, s, d, v)
  {
    var s' := Put(s, d, v);
    match FamilyOf(i.op)
    case Computing => ComputeFramed(i, s, d, v);
    case Branching => BranchFramed(i, s, d, v);
    case Multiplying =>
      TestsRead(i.op, s.gpr[i.rs], s'.gpr[i.rs], s.gpr[i.rt], s'.gpr[i.rt], SignEx(i.imm), s.hilo);
    case Trapping =>
      TestsRead(i.op, s.gpr[i.rs], s'.gpr[i.rs], s.gpr[i.rt], s'.gpr[i.rt], SignEx(i.imm), s.hilo);
    case Loading => LoadFramed(i, s, d, v);
    case Storing => StoresFramed(i, s, d, v);
    case Other => OtherFramed(i, s, d, v);
  }

  /** Only a load leaves a register to be committed, and that register is its `rt`. */
  lemma LoadsOnlyFromLoads(i: Inst, s: State)
    requires Exec(i, s).Effect?
    ensures Exec(i, s).load.Some? <==> IsLoad(i.op)
    ensures Exec(i, s).load.Some? ==> Exec(i, s).load.value.dest == i.rt
  {
    hide Read, Write, Compute, MulDiv, Trips, Branch;
  }

  // ----- the pipeline -----

  /** The processor with the two-element shift register of pending loads: `slot1` was filled
      by the last instruction, `slot2` by the one before. */
  datatype Pipe = Pipe(s: State, slot1: Option<Load>, slot2: Option<Load>)

  /** One instruction with `delayed_loads` on: clear `$0`, write the older pending load, shift,
      execute, and park a new load in the first slot. */
  function StepDelayed(i: Inst, p: Pipe): Option<Pipe> {
    match Exec(i, Commit(Zeroed(p.s), p.slot2))
    case Effect(s, load) => Some(Pipe(s.(pc := Wrap(s.pc + 4)), load, p.slot1))
    case Foreign => None
  }

  /** The registers once both pending loads have arrived. */
  function Drained(p: Pipe): State {
    Commit(Commit(p.s, p.slot2), p.slot1)
  }

  function RunDelayed(text: map<Word, Inst>, p: Pipe, n: nat): Option<Pipe>
    decreases n
  {
    if n == 0 then Some(p)
    else if p.s.pc !in text then None
    else match StepDelayed(text[p.s.pc], p)
         case Some(p') => RunDelayed(text, p', n - 1)
         case None => None
  }

  function RunImmediate(text: map<Word, Inst>, s: State, n: nat): Option<State>
    decreases n
  {
    if n == 0 then Some(s)
    else if s.pc !in text then None
    else match Run1(text[s.pc], s)
         case Some(s') => RunImmediate(text, s', n - 1)
         case None => None
  }

  /** The load delay rule for one instruction: it leaves the destination of the load just
      before it alone, and is not itself a load of `$0`. */
  ghost predicate ObeysDelay(i: Inst, pending: Option<Load>) {
    && (pending.Some? ==> pending.value.dest !in Reads(i) && pending.value.dest !in Writes(i))
    && (IsLoad(i.op) ==> i.rt != 0)
  }

  /** `n` instructions of an immediate-load run, none raising an exception, each obeying the
      load delay rule. */
  ghost predicate HazardFree(text: map<Word, Inst>, s: State, pending: Option<Load>, n: nat)
    decreases n
  {
    n == 0 ||
    (&& s.pc in text
     && ObeysDelay(text[s.pc], pending)
     && Run1(text[s.pc], s).Some?
     && !Run1(text[s.pc], s).value.exc
     && HazardFree(text, Run1(text[s.pc], s).value, Exec(text[s.pc], Zeroed(s)).load, n - 1))
  }

  ghost predicate NotZero(slot: Option<Load>) {
    slot.Some? ==> slot.value.dest != 0
  }

  lemma CommitZeroed(s: State, slot: Option<Load>)
    requires NotZero(slot)
    ensures Commit(Zeroed(s), slot) == Zeroed(Commit(s, slot))
  {
    if slot.Some? {
      PutsCommute(s, 0, 0, slot.value.dest, slot.value.value);
    }
  }

  /** One step of the delayed machine simulates one step of the immediate machine. */
  lemma StepSimulates(i: Inst, s: State, p: Pipe)
    requires s == Drained(p) && NotZero(p.slot1) && NotZero(p.slot2)
    requires ObeysDelay(i, p.slot1) && Run1(i, s).Some?
    ensures StepDelayed(i, p).Some?
    ensures var p' := StepDelayed(i, p).value;
            && Drained(p') == Run1(i, s).value
            && p'.slot1 == Exec(i, Zeroed(s)).load
            && p'.slot2 == p.slot1
            && NotZero(p'.slot1)
  {
    hide Exec;
    var s1 := Commit(Zeroed(p.s), p.slot2);
    CommitZeroed(p.s, p.slot2);
    CommitZeroed(Commit(p.s, p.slot2), p.slot1);
    assert Zeroed(s) == Commit(s1, p.slot1);
    if p.slot1.Some? {
      ExecFramed(i, s1, p.slot1.value.dest, p.slot1.value.value);
    }
    LoadsOnlyFromLoads(i, s1);
  }

  /** Every exception-free run that obeys the load delay rule is simulated step for step: after
      any number of instructions the two machines agree up to the loads still in flight. */
  lemma {:induction false} DelayedSimulatesImmediate(text: map<Word, Inst>, s: State, p: Pipe, n: nat)
    requires s == Drained(p) && NotZero(p.slot1) && NotZero(p.slot2)
    requires HazardFree(text, s, p.slot1, n)
    ensures RunImmediate(text, s, n).Some? && RunDelayed(text, p, n).Some?
    ensures RunImmediate(text, s, n).value == Drained(RunDelayed(text, p, n).value)
    decreases n
  {
    hide Exec, Reads, Writes;
    if n > 0 {
      var i := text[s.pc];
      assert p.s.pc == s.pc;
      StepSimulates(i, s, p);
      DelayedSimulatesImmediate(text, Run1(i, s).value, StepDelayed(i, p).value, n - 1);
    }
  }

  /** From an empty pipeline the machines agree on PC, HI, LO, coprocessor 0 and memory after
      every step, and on every register except the at most two still waiting for a load. */
  lemma DelayedLoadsAreInvisible(text: map<Word, Inst>, s: State, n: nat)
    requires HazardFree(text, s, None, n)
    ensures RunImmediate(text, s, n).Some? && RunDelayed(text, Pipe(s, None, None), n).Some?
    ensures var a, p := RunImmediate(text, s, n).value, RunDelayed(text, Pipe(s, None, None), n).value;
            && p.s.(gpr := a.gpr) == a
            && forall r: Reg | p.slot1 != Some(Load(r, a.gpr[r])) && p.slot2 != Some(Load(r, a.gpr[r])) ::
                 p.s.gpr[r] == a.gpr[r]
  {
    hide Exec, HazardFree, RunImmediate, RunDelayed;
    DelayedSimulatesImmediate(text, s, Pipe(s, None, None), n);
  }

  /** Without the rule the machines part: the instruction after a load still sees the old value. */
  lemma HazardIsVisible(s: State, loaded: Word)
    requires s.gpr[8] != loaded
    requires Fetch(Zeroed(s), W, Address(Zeroed(s), IType(LW, 8, 9, 0))) == Fetched(Zeroed(s), loaded)
    ensures var lw, move := IType(LW, 8, 9, 0), RType(ADDU, 10, 8, 0);
            var p, a := StepDelayed(lw, Pipe(s, None, None)), Run1(lw, s);
            && a.Some? && p.Some?
            && Run1(move, a.value).Some? && StepDelayed(move, p.value).Some?
            && Run1(move, a.value).value.gpr[10] == loaded
            && StepDelayed(move, p.value).value.s.gpr[10] == s.gpr[8]
  {
    hide Exec, Fetch, Wrap;
    var lw, move := IType(LW, 8, 9, 0), RType(ADDU, 10, 8, 0);
    LoadWord(Zeroed(s), loaded);
    var a, b := Run1(lw, s).value, Zeroed(s).(pc := Wrap(s.pc + 4));
    MoveWord(Zeroed(a));
    MoveWord(Zeroed(b));
  }

  lemma LoadWord(z: State, loaded: Word)
    requires Fetch(z, W, Address(z, IType(LW, 8, 9, 0))) == Fetched(z, loaded)
    ensures Exec(IType(LW, 8, 9, 0), z) == Effect(z, Some(Load(8, loaded)))
  {
    hide Fetch, Address;
  }

  lemma MoveWord(z: State)
    requires z.gpr[0] == 0
    ensures Exec(RType(ADDU, 10, 8, 0), z) == Plain(Put(z, 10, z.gpr[8]))
  {
  }
}
