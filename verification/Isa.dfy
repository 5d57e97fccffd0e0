/** The integer instructions of the simulator and their execution, one instruction at a time:
    little-endian, `delayed_branches` off. Loads are returned separately from the rest of an
    instruction's effect, so that immediate and delayed loads share one definition. */
module Isa {
  import opened Words
  import opened MemModel
  import opened Multiply

  datatype Op =
    | ADD | ADDI | ADDIU | ADDU | AND | ANDI
    | BEQ | BEQL | BGEZ | BGEZAL | BGEZALL | BGEZL | BGTZ | BGTZL | BLEZ | BLEZL
    | BLTZ | BLTZAL | BLTZALL | BLTZL | BNE | BNEL | BREAK
    | CACHE | CFC0 | CLO | CLZ | CTC0 | DIV | DIVU | ERET | J | JAL | JALR | JR
    | LB | LBU | LH | LHU | LL | LUI | LW | LWL | LWR
    | MADD | MADDU | MFC0 | MFHI | MFLO | MOVN | MOVZ | MSUB | MSUBU | MTC0 | MTHI | MTLO
    | MUL | MULT | MULTU | NOR | OR | ORI | PREF | RFE
    | SB | SC | SH | SLL | SLLV | SLT | SLTI | SLTIU | SLTU | SRA | SRAV | SRL | SRLV
    | SUB | SUBU | SW | SWL | SWR | SYNC | SYSCALL
    | TEQ | TEQI | TGE | TGEI | TGEIU | TGEU | TLBP | TLBR | TLBWI | TLBWR
    | TLT | TLTI | TLTIU | TLTU | TNE | TNEI | XOR | XORI

  type Field26 = x: int | 0 <= x < 0x400_0000

  /** An instruction's fields, as the simulator keeps them. `imm` holds the 16 immediate bits,
      `target` the 26-bit jump field. */
  datatype Inst = Inst(op: Op, rs: Reg, rt: Reg, rd: Reg, shamt: Reg, imm: Half, target: Field26)

  function RType(op: Op, rd: Reg, rs: Reg, rt: Reg): Inst {
    Inst(op, rs, rt, rd, 0, 0, 0)
  }

  function ShType(op: Op, rd: Reg, rt: Reg, shamt: Reg): Inst {
    Inst(op, 0, rt, rd, shamt, 0, 0)
  }

  function IType(op: Op, rt: Reg, rs: Reg, imm: Half): Inst {
    Inst(op, rs, rt, 0, 0, imm, 0)
  }

  const NOP := ShType(SLL, 0, 0, 0)
  const AT: Reg := 1  // $at, the assembler's scratch register
  const RA: Reg := 31

  // coprocessor 0 register numbers
  const BADVADDR := 8
  const COUNT := 9
  const COMPARE := 11
  const STATUS := 12
  const CAUSE := 13
  const EPC := 14
  const CONFIG := 16

  const EXC_INT := 0
  const EXC_IBE := 6
  const EXC_BP := 9
  const EXC_RI := 10
  const EXC_OV := 12
  const EXC_TR := 13
  const EXCEPTION_ADDR: Word := 0x8000_0180

  /** The processor: general registers, HI/LO, PC, coprocessor 0 data and control registers,
      the `exception_occurred` flag and memory. */
  datatype State = State(gpr: Regs, hilo: HiLo, pc: Word, cp0: Regs, ctl: Regs, exc: bool, mem: Mem)

  datatype Load = Load(dest: Reg, value: Word)

  /** What one instruction does: the new state plus a register load still to be committed;
      or it leaves the modelled machine (system call, debugger breakpoint, `run_error`,
      text segment accessed as data). */
  datatype Effect = Effect(s: State, load: Option<Load>) | Foreign

  // ----- exceptions -----

  predicate Exl(cp0: Regs) {
    cp0[STATUS] / 2 % 2 == 1
  }

  predicate InterruptsOn(cp0: Regs) {
    cp0[STATUS] % 2 == 1
  }

  /** Interrupt lines both pending in Cause and unmasked in Status (bits 8 to 15 of each). */
  function Pending(cp0: Regs): nat {
    And(And(cp0[CAUSE], 0xff00), And(cp0[STATUS], 0xff00))
  }

  /** `raise_exception` outside a delay slot. */
  function Raise(s: State, code: nat): State
    requires code < 32
  {
    if code == EXC_INT && !(InterruptsOn(s.cp0) && !Exl(s.cp0)) then s
    else
      var epc := if Exl(s.cp0) then s.cp0[EPC] else s.pc - s.pc % 4;
      var cause := s.cp0[CAUSE] - s.cp0[CAUSE] / 4 % 32 * 4 + code * 4;
      var status := if Exl(s.cp0) then s.cp0[STATUS] else s.cp0[STATUS] + 2;
      s.(exc := true, cp0 := s.cp0[EPC := epc][CAUSE := cause][STATUS := status])
  }

  function RaiseAt(s: State, code: nat, addr: Word): State
    requires code < 32
  {
    var s' := Raise(s, code);
    s'.(cp0 := s'.cp0[BADVADDR := addr])
  }

  // ----- helpers -----

  function Put(s: State, r: Reg, v: Word): State {
    s.(gpr := s.gpr[r := v])
  }

  function Plain(s: State): Effect {
    Effect(s, None)
  }

  /** `JUMP_INST`: 4 less than the target, since PC is bumped after the instruction. */
  function Jump(s: State, target: int): State {
    s.(pc := Wrap(target - 4))
  }

  /** `BRANCH_OFFSET`: the low 16 bits of the shifted field, sign-extended. */
  function BranchOffset(imm: Half): Word {
    SignEx(imm * 4 % 0x1_0000)
  }

  /** `ckd_add`/`ckd_sub`: trap without writing when the exact result does not fit. */
  function Checked(s: State, r: Reg, exact: int): Effect {
    Plain(if FitsSigned(exact) then Put(s, r, Wrap(exact)) else Raise(s, EXC_OV))
  }

  function Flag(b: bool): Word {
    if b then 1 else 0
  }

  function Address(s: State, i: Inst): Word {
    Wrap(s.gpr[i.rs] + SignEx(i.imm))
  }

  datatype Fetched = Fetched(s: State, value: Word) | Lost

  /** A read whose fault is raised and yields 0. */
  function Fetch(s: State, w: Width, addr: Word): Fetched {
    match Read(s.mem, s.cp0[CAUSE], w, addr)
    case Done(m, cause, v) => Fetched(s.(mem := m, cp0 := s.cp0[CAUSE := cause]), v)
    case Fault(code) => if code < 32 then Fetched(RaiseAt(s, code, addr), 0) else Lost
    case Abort => Lost
  }

  function LoadTo(s: State, rt: Reg, w: Width, addr: Word, unsigned: bool): Effect {
    match Fetch(s, w, addr)
    case Fetched(s', v) =>
      Effect(s', Some(Load(rt, if !unsigned then v else if w == B then v % 0x100 else v % 0x1_0000)))
    case Lost => Foreign
  }

  function StoreAt(s: State, w: Width, addr: Word, v: Word): Effect {
    match Write(s.mem, s.cp0[CAUSE], w, addr, v)
    case Done(m, cause, _) => Plain(s.(mem := m, cp0 := s.cp0[CAUSE := cause]))
    case Fault(code) => if code < 32 then Plain(RaiseAt(s, code, addr)) else Foreign
    case Abort => Foreign
  }

  // ----- unaligned merges; k is the byte position of the address in its word -----

  /** `lwl`: the low k+1 bytes of the word become the high bytes of the register. */
  function MergeLeft(word: Word, reg: Word, k: nat): Word
    requires k < 4
  {
    if k == 0 then word % 0x100 * 0x100_0000 + reg % 0x100_0000
    else if k == 1 then word % 0x1_0000 * 0x1_0000 + reg % 0x1_0000
    else if k == 2 then word % 0x100_0000 * 0x100 + reg % 0x100
    else word
  }

  /** `lwr`: the high 4-k bytes of the word become the low bytes of the register. */
  function MergeRight(word: Word, reg: Word, k: nat): Word
    requires k < 4
  {
    if k == 0 then word
    else if k == 1 then reg / 0x100_0000 * 0x100_0000 + word / 0x100
    else if k == 2 then reg / 0x1_0000 * 0x1_0000 + word / 0x1_0000
    else reg / 0x100 * 0x100 + word / 0x100_0000
  }

  /** `swl`: the high k+1 bytes of the register become the low bytes of the word. */
  function SpillLeft(word: Word, reg: Word, k: nat): Word
    requires k < 4
  {
    if k == 0 then word / 0x100 * 0x100 + reg / 0x100_0000
    else if k == 1 then word / 0x1_0000 * 0x1_0000 + reg / 0x1_0000
    else if k == 2 then word / 0x100_0000 * 0x100_0000 + reg / 0x100
    else reg
  }

  /** `swr`: the low 4-k bytes of the register become the high bytes of the word. */
  function SpillRight(word: Word, reg: Word, k: nat): Word
    requires k < 4
  {
    if k == 0 then reg
    else if k == 1 then reg % 0x100_0000 * 0x100 + word % 0x100
    else if k == 2 then reg % 0x1_0000 * 0x1_0000 + word % 0x1_0000
    else reg % 0x100 * 0x100_0000 + word % 0x100_0000
  }

  function LoadPart(s: State, i: Inst, left: bool): Effect {
    var addr := Address(s, i);
    Merged(Fetch(s, W, addr - addr % 4), i.rt, s.gpr[i.rt], addr % 4, left)
  }

  function Merged(f: Fetched, rt: Reg, reg: Word, k: nat, left: bool): Effect
    requires k < 4
  {
    match f
    case Fetched(s, word) =>
      var v := if s.exc then word else if left then MergeLeft(word, reg, k) else MergeRight(word, reg, k);
      Effect(s, Some(Load(rt, v)))
    case Lost => Foreign
  }

  function StorePart(s: State, i: Inst, left: bool): Effect {
    var addr := Address(s, i);
    Spilled(Fetch(s, W, addr - addr % 4), addr - addr % 4, s.gpr[i.rt], addr % 4, left)
  }

  function Spilled(f: Fetched, addr: Word, reg: Word, k: nat, left: bool): Effect
    requires k < 4
  {
    match f
    case Fetched(s, word) => StoreAt(s, W, addr, if left then SpillLeft(word, reg, k) else SpillRight(word, reg, k))
    case Lost => Foreign
  }

  // ----- division -----

  /** The operand pairs for which `div` and `divu` leave HI and LO alone. */
  predicate DivSkipped(a: Word, b: Word) {
    b == 0 || (a == 0x8000_0000 && b == 0xffff_ffff)
  }

  function DivSigned(hilo: HiLo, a: Word, b: Word): HiLo {
    if DivSkipped(a, b) then hilo
    else HiLo(Wrap(TruncMod(Signed(a), Signed(b))), Wrap(TruncDiv(Signed(a), Signed(b))))
  }

  function DivUnsigned(hilo: HiLo, a: Word, b: Word): HiLo {
    if DivSkipped(a, b) then hilo else HiLo(Wrap(a % b), Wrap(a / b))
  }

  // ----- coprocessor 0 -----

  /** `mtc0`: only implemented bits of Status, Cause and Config can be written; writing
      Compare acknowledges the timer interrupt. */
  function MoveToCp0(cp0: Regs, r: Reg, v: Word): Regs {
    var cp0' := cp0[r := v];
    if r == COMPARE then
      cp0'[CAUSE := if cp0'[CAUSE] / 0x8000 % 2 == 1 then cp0'[CAUSE] - 0x8000 else cp0'[CAUSE]]
    else if r == STATUS then cp0'[STATUS := OrWord(And(v, 0xf000_ff13), 0x3000_0010)]
    else if r == CAUSE then cp0'[CAUSE := And(v, 0x8000_ff7c)]
    else if r == CONFIG then cp0'[CONFIG := And(v, 0x000f_c380)]
    else cp0'
  }

  // ----- families of instructions -----

  datatype Family = Computing | Branching | Multiplying | Trapping | Loading | Storing | Other

  function FamilyOf(op: Op): Family {
    match op
    case ADDIU | ADDU | AND | ANDI | CLO | CLZ | LUI | NOR | OR | ORI | SLL | SLLV | SLT | SLTI | SLTIU | SLTU
       | SRA | SRAV | SRL | SRLV | SUBU | XOR | XORI => Computing
    case BEQ | BEQL | BGEZ | BGEZAL | BGEZALL | BGEZL | BGTZ | BGTZL | BLEZ | BLEZL
       | BLTZ | BLTZAL | BLTZALL | BLTZL | BNE | BNEL => Branching
    case DIV | DIVU | MADD | MADDU | MSUB | MSUBU | MTHI | MTLO | MULT | MULTU => Multiplying
    case TEQ | TEQI | TGE | TGEI | TGEIU | TGEU | TLT | TLTI | TLTIU | TLTU | TNE | TNEI => Trapping
    case LB | LBU | LH | LHU | LL | LW | LWL | LWR => Loading
    case SB | SC | SH | SW | SWL | SWR => Storing
    case _ => Other
  }

  /** Does a computing instruction write `rt` (immediate form) rather than `rd`? */
  predicate WritesRt(op: Op) {
    match op
    case ADDIU | ANDI | LUI | ORI | SLTI | SLTIU | XORI => true
    case _ => false
  }

  /** The value a computing instruction writes. */
  function Compute(op: Op, rs: Word, rt: Word, imm: Half, shamt: Reg): Word {
    match op
    case ADDIU => Wrap(rs + SignEx(imm))
    case ADDU => Wrap(rs + rt)
    case AND => And(rs, rt)
    case ANDI => And(rs, imm)
    case CLO => Wrap(32 - BitLength(Not(rs)))
    case CLZ => Wrap(32 - BitLength(rs))
    case LUI => imm * 0x1_0000
    case NOR => Not(OrWord(rs, rt))
    case OR => OrWord(rs, rt)
    case ORI => OrWord(rs, imm)
    case SLL => Shl(rt, shamt)
    case SLLV => Shl(rt, rs % 32)
    case SLT => Flag(Signed(rs) < Signed(rt))
    case SLTI => Flag(Signed(rs) < Signed(SignEx(imm)))
    case SLTIU => Flag(rs < SignEx(imm))
    case SLTU => Flag(rs < rt)
    case SRA => Sar(rt, shamt)
    case SRAV => Sar(rt, rs % 32)
    case SRL => Shr(rt, shamt)
    case SRLV => Shr(rt, rs % 32)
    case SUBU => WrapSub(rs, rt)
    case XOR => XorWord(rs, rt)
    case XORI => XorWord(rs, imm)
    case _ => 0
  }

  /** The test of a conditional branch. */
  predicate Taken(op: Op, rs: Word, rt: Word) {
    match op
    case BEQ | BEQL => rs == rt
    case BNE | BNEL => rs != rt
    case BGEZ | BGEZL | BGEZAL | BGEZALL => Signed(rs) >= 0
    case BGTZ | BGTZL => Signed(rs) > 0
    case BLEZ | BLEZL => Signed(rs) <= 0
    case BLTZ | BLTZL | BLTZAL | BLTZALL => Signed(rs) < 0
    case _ => false
  }

  /** Branch-and-link: `$31` is written before the test. */
  predicate Links(op: Op) {
    match op case BGEZAL | BGEZALL | BLTZAL | BLTZALL => true case _ => false
  }

  /** Branch-likely: the following instruction is skipped when the test fails. */
  predicate Likely(op: Op) {
    match op case BEQL | BNEL | BGEZL | BGEZALL | BGTZL | BLEZL | BLTZL | BLTZALL => true case _ => false
  }

  function Branch(s: State, op: Op, rs: Reg, rt: Reg, imm: Half): State {
    var s' := if Links(op) then Put(s, RA, Wrap(s.pc + 4)) else s;
    if Taken(op, s'.gpr[rs], s'.gpr[rt]) then Jump(s', s'.pc + BranchOffset(imm))
    else if Likely(op) then s'.(pc := Wrap(s'.pc + 4))
    else s'
  }

  /** The new HI and LO. */
  function MulDiv(op: Op, hilo: HiLo, rs: Word, rt: Word): HiLo {
    match op
    case DIV => DivSigned(hilo, rs, rt)
    case DIVU => DivUnsigned(hilo, rs, rt)
    case MADD => Accumulate(hilo, SignedMultiply(rs, rt))
    case MADDU => Accumulate(hilo, UnsignedMultiply(rs, rt))
    case MSUB => Deduct(hilo, SignedMultiply(rs, rt))
    case MSUBU => Deduct(hilo, UnsignedMultiply(rs, rt))
    case MTHI => hilo.(hi := rs)
    case MTLO => hilo.(lo := rs)
    case MULT => SignedMultiply(rs, rt)
    case MULTU => UnsignedMultiply(rs, rt)
    case _ => hilo
  }

  /** The test of a trap instruction. */
  predicate Trips(op: Op, rs: Word, rt: Word, imm: Word) {
    match op
    case TEQ => rs == rt
    case TEQI => rs == imm
    case TGE => Signed(rs) >= Signed(rt)
    case TGEI => Signed(rs) >= Signed(imm)
    case TGEIU => rs >= imm
    case TGEU => rs >= rt
    case TLT => Signed(rs) < Signed(rt)
    case TLTI => Signed(rs) < Signed(imm)
    case TLTIU => rs < imm
    case TLTU => rs < rt
    case TNE => rs != rt
    case TNEI => rs != imm
    case _ => false
  }

  function WidthOf(op: Op): Width {
    match op
    case LB | LBU | SB => B
    case LH | LHU | SH => H
    case _ => W
  }

  function ExecLoad(i: Inst, s: State): Effect {
    if i.op == LWL || i.op == LWR then LoadPart(s, i, i.op == LWL)
    else LoadTo(s, i.rt, WidthOf(i.op), Address(s, i), i.op == LBU || i.op == LHU)
  }

  function ExecStore(i: Inst, s: State): Effect {
    if i.op == SWL || i.op == SWR then StorePart(s, i, i.op == SWL)
    else StoreAt(s, WidthOf(i.op), Address(s, i), s.gpr[i.rt])
  }

  function ExecOther(i: Inst, s: State): Effect {
    var rs, rt := s.gpr[i.rs], s.gpr[i.rt];
    match i.op
    case ADD => Checked(s, i.rd, Signed(rs) + Signed(rt))
    case ADDI => Checked(s, i.rt, Signed(rs) + Signed(SignEx(i.imm)))
    case SUB => Checked(s, i.rd, Signed(rs) - Signed(rt))
    case BREAK => if i.rd == 1 then Foreign else Plain(Raise(s, EXC_BP))
    case CFC0 => Plain(Put(s, i.rt, s.ctl[i.rd]))
    case CTC0 => Plain(s.(ctl := s.ctl[i.rd := rt]))
    case ERET =>
      var status := if Exl(s.cp0) then s.cp0[STATUS] - 2 else s.cp0[STATUS];
      Plain(Jump(s.(cp0 := s.cp0[STATUS := status]), s.cp0[EPC]))
    case J => Plain(Jump(s, JumpTarget(s.pc, i.target)))
    case JAL => Plain(Jump(Put(s, RA, Wrap(s.pc + 4)), JumpTarget(s.pc, i.target)))
    case JALR => Plain(Jump(Put(s, i.rd, Wrap(s.pc + 4)), rs))
    case JR => Plain(Jump(s, rs))
    case MFC0 => Plain(Put(s, i.rt, s.cp0[i.rd]))
    case MFHI => Plain(Put(s, i.rd, s.hilo.hi))
    case MFLO => Plain(Put(s, i.rd, s.hilo.lo))
    case MOVN => Plain(if rt != 0 then Put(s, i.rd, rs) else s)
    case MOVZ => Plain(if rt == 0 then Put(s, i.rd, rs) else s)
    case MTC0 => Plain(s.(cp0 := MoveToCp0(s.cp0, i.rd, rt)))
    case MUL => var p := SignedMultiply(rs, rt); Plain(Put(s.(hilo := p), i.rd, p.lo))
    case RFE | TLBP | TLBR | TLBWI | TLBWR => Plain(Raise(s, EXC_RI))
    case SYSCALL => Foreign
    case _ => Plain(s)  // cache, pref, sync
  }

  predicate IsMove(op: Op) {
    match op
    case CFC0 | MFC0 | MFHI | MFLO | MOVN | MOVZ | MUL => true
    case _ => false
  }

  /** Moving a value into a general register touches neither coprocessor 0 nor PC. */
  lemma MoveIsQuiet(i: Inst, s: State)
    requires IsMove(i.op)
    ensures var e := ExecOther(i, s); e.Effect? && e.s.pc == s.pc && e.s.cp0 == s.cp0 && e.s.exc == s.exc
  {
    hide SignedMultiply;
  }

  // ----- one instruction -----

  /** The `switch` of the run loop. `$0` reads as 0: the caller has cleared it. */
  function Exec(i: Inst, s: State): Effect {
    match FamilyOf(i.op)
    case Computing =>
      Plain(Put(s, if WritesRt(i.op) then i.rt else i.rd, Compute(i.op, s.gpr[i.rs], s.gpr[i.rt], i.imm, i.shamt)))
    case Branching => Plain(Branch(s, i.op, i.rs, i.rt, i.imm))
    case Multiplying => Plain(s.(hilo := MulDiv(i.op, s.hilo, s.gpr[i.rs], s.gpr[i.rt])))
    case Trapping => Plain(if Trips(i.op, s.gpr[i.rs], s.gpr[i.rt], SignEx(i.imm)) then Raise(s, EXC_TR) else s)
    case Loading => ExecLoad(i, s)
    case Storing => ExecStore(i, s)
    case Other => ExecOther(i, s)
  }

  function JumpTarget(pc: Word, target: Field26): Word {
    pc / 0x1000_0000 * 0x1000_0000 + target * 4
  }

  function WrapSub(a: int, b: int): Word {
    Wrap(a - b)
  }

  // ----- committing an instruction -----

  function Zeroed(s: State): State {
    Put(s, 0, 0)
  }

  function Commit(s: State, load: Option<Load>): State {
    if load.Some? then Put(s, load.value.dest, load.value.value) else s
  }

  /** One instruction with immediate loads, up to but not including exception handling:
      clear `$0`, execute, write the loaded register, bump PC. */
  function Run1(i: Inst, s: State): Option<State> {
    match Exec(i, Zeroed(s))
    case Effect(s', load) =>
      var s'' := Commit(s', load);
      Some(s''.(pc := Wrap(s''.pc + 4)))
    case Foreign => None
  }

  /** `handle_exception`: redirect PC to the handler. */
  function Handle(s: State): State {
    if s.exc then s.(exc := false, pc := EXCEPTION_ADDR) else s
  }
}
