/** Binary encoding of instructions: decoding what was encoded gives the instruction back. */
module Encoding {
  import opened Words
  import opened Isa

  /** Which fields an instruction has in its binary form. */
  datatype Form = RdRsRt | RtRsImm | RsImm | NoArg | RtCop | RsRt | Target | RdRs | Rs | Rd | RdRtShamt

  function FormOf(op: Op): Form {
    match op
    case ADD | ADDU | AND | CLO | CLZ | MOVN | MOVZ | MUL | NOR | OR | SLLV | SLT | SLTU | SRAV | SRLV | SUB | SUBU
       | XOR => RdRsRt
    case ADDI | ADDIU | ANDI | BEQ | BEQL | BNE | BNEL | CACHE | LB | LBU | LH | LHU | LL | LUI | LW | LWL | LWR | ORI
       | PREF | SB | SC | SH | SLTI | SLTIU | SW | SWL | SWR | XORI => RtRsImm
    case BGEZ | BGEZAL | BGEZALL | BGEZL | BGTZ | BGTZL | BLEZ | BLEZL | BLTZ | BLTZAL | BLTZALL | BLTZL | TEQI | TGEI
       | TGEIU | TLTI | TLTIU | TNEI => RsImm
    case BREAK | ERET | RFE | SYNC | SYSCALL | TLBP | TLBR | TLBWI | TLBWR => NoArg
    case CFC0 | CTC0 | MFC0 | MTC0 => RtCop
    case DIV | DIVU | MADD | MADDU | MSUB | MSUBU | MULT | MULTU | TEQ | TGE | TGEU | TLT | TLTU | TNE => RsRt
    case J | JAL => Target
    case JALR => RdRs
    case JR | MTHI | MTLO => Rs
    case MFHI | MFLO => Rd
    case SLL | SRA | SRL => RdRtShamt
  }

  /** The opcode table: the word with all fields zero. */
  function Key(op: Op): Word {
    match op
    case ADD => 0x0000_0020
    case ADDI => 0x2000_0000
    case ADDIU => 0x2400_0000
    case ADDU => 0x0000_0021
    case AND => 0x0000_0024
    case ANDI => 0x3000_0000
    case BEQ => 0x1000_0000
    case BEQL => 0x5000_0000
    case BGEZ => 0x0401_0000
    case BGEZAL => 0x0411_0000
    case BGEZALL => 0x0413_0000
    case BGEZL => 0x0403_0000
    case BGTZ => 0x1c00_0000
    case BGTZL => 0x5c00_0000
    case BLEZ => 0x1800_0000
    case BLEZL => 0x5800_0000
    case BLTZ => 0x0400_0000
    case BLTZAL => 0x0410_0000
    case BLTZALL => 0x0412_0000
    case BLTZL => 0x0402_0000
    case BNE => 0x1400_0000
    case BNEL => 0x5400_0000
    case BREAK => 0x0000_000d
    case CACHE => 0xbc00_0000
    case CFC0 => 0x4040_0000
    case CLO => 0x7000_0021
    case CLZ => 0x7000_0020
    case CTC0 => 0x40c0_0000
    case DIV => 0x0000_001a
    case DIVU => 0x0000_001b
    case ERET => 0x4200_0018
    case J => 0x0800_0000
    case JAL => 0x0c00_0000
    case JALR => 0x0000_0009
    case JR => 0x0000_0008
    case LB => 0x8000_0000
    case LBU => 0x9000_0000
    case LH => 0x8400_0000
    case LHU => 0x9400_0000
    case LL => 0xc000_0000
    case LUI => 0x3c00_0000
    case LW => 0x8c00_0000
    case LWL => 0x8800_0000
    case LWR => 0x9800_0000
    case MADD => 0x7000_0000
    case MADDU => 0x7000_0001
    case MFC0 => 0x4000_0000
    case MFHI => 0x0000_0010
    case MFLO => 0x0000_0012
    case MOVN => 0x0000_000b
    case MOVZ => 0x0000_000a
    case MSUB => 0x7000_0004
    case MSUBU => 0x7000_0005
    case MTC0 => 0x4080_0000
    case MTHI => 0x0000_0011
    case MTLO => 0x0000_0013
    case MUL => 0x7000_0002
    case MULT => 0x0000_0018
    case MULTU => 0x0000_0019
    case NOR => 0x0000_0027
    case OR => 0x0000_0025
    case ORI => 0x3400_0000
    case PREF => 0xcc00_0000
    case RFE => 0x4200_0010
    case SB => 0xa000_0000
    case SC => 0xe000_0000
    case SH => 0xa400_0000
    case SLL => 0x0000_0000
    case SLLV => 0x0000_0004
    case SLT => 0x0000_002a
    case SLTI => 0x2800_0000
    case SLTIU => 0x2c00_0000
    case SLTU => 0x0000_002b
    case SRA => 0x0000_0003
    case SRAV => 0x0000_0007
    case SRL => 0x0000_0002
    case SRLV => 0x0000_0006
    case SUB => 0x0000_0022
    case SUBU => 0x0000_0023
    case SW => 0xac00_0000
    case SWL => 0xa800_0000
    case SWR => 0xb800_0000
    case SYNC => 0x0000_000f
    case SYSCALL => 0x0000_000c
    case TEQ => 0x0000_0034
    case TEQI => 0x040c_0000
    case TGE => 0x0000_0030
    case TGEI => 0x0408_0000
    case TGEIU => 0x0409_0000
    case TGEU => 0x0000_0031
    case TLBP => 0x4200_0008
    case TLBR => 0x4200_0001
    case TLBWI => 0x4200_0002
    case TLBWR => 0x4200_0006
    case TLT => 0x0000_0032
    case TLTI => 0x040a_0000
    case TLTIU => 0x040b_0000
    case TLTU => 0x0000_0033
    case TNE => 0x0000_0036
    case TNEI => 0x040e_0000
    case XOR => 0x0000_0026
    case XORI => 0x3800_0000
  }

  // ----- encoding -----

  /** `REGS(r, shift)` for the five register fields; the fields of a form and its key are disjoint
      bits (`KeyLeavesFields`), so or-ing them is adding them. */
  function Encode(i: Inst): Word {
    var rs, rt, rd, shamt := i.rs * 0x20_0000, i.rt * 0x1_0000, i.rd * 0x800, i.shamt * 0x40;
    Wrap(Key(i.op) + match FormOf(i.op)
                     case RdRsRt => rs + rt + rd
                     case RtRsImm => rs + rt + i.imm
                     case RsImm => rs + i.imm
                     case NoArg => 0
                     case RtCop => rt + rd
                     case RsRt => rs + rt
                     case Target => i.target
                     case RdRs => rs + rd
                     case Rs => rs
                     case Rd => rd
                     case RdRtShamt => rt + rd + shamt)
  }

  /** The fields that `form` does not encode are zero, as the assembler leaves them. */
  ghost predicate Canonical(i: Inst) {
    match FormOf(i.op)
    case RdRsRt => i == Inst(i.op, i.rs, i.rt, i.rd, 0, 0, 0)
    case RtRsImm => i == Inst(i.op, i.rs, i.rt, 0, 0, i.imm, 0)
    case RsImm => i == Inst(i.op, i.rs, 0, 0, 0, i.imm, 0)
    case NoArg => i == Inst(i.op, 0, 0, 0, 0, 0, 0)
    case RtCop => i == Inst(i.op, 0, i.rt, i.rd, 0, 0, 0)
    case RsRt => i == Inst(i.op, i.rs, i.rt, 0, 0, 0, 0)
    case Target => i == Inst(i.op, 0, 0, 0, 0, 0, i.target)
    case RdRs => i == Inst(i.op, i.rs, 0, i.rd, 0, 0, 0)
    case Rs => i == Inst(i.op, i.rs, 0, 0, 0, 0, 0)
    case Rd => i == Inst(i.op, 0, 0, i.rd, 0, 0, 0)
    case RdRtShamt => i == Inst(i.op, 0, i.rt, i.rd, i.shamt, 0, 0)
  }

  // ----- decoding -----

  function BinRs(v: Word): Reg { v / 0x20_0000 % 32 }
  function BinRt(v: Word): Reg { v / 0x1_0000 % 32 }
  function BinRd(v: Word): Reg { v / 0x800 % 32 }
  function BinShamt(v: Word): Reg { v / 0x40 % 32 }

  /** The part of a word that selects the opcode. */
  function Masked(v: Word): Word {
    var top := v / 0x400_0000;
    var major := top * 0x400_0000;
    if top == 0 || top == 0x1c then major + v % 0x40  // SPECIAL, SPECIAL2
    else if top == 1 then major + BinRt(v) * 0x1_0000  // REGIMM
    else if top == 0x10 then major + BinRs(v) * 0x20_0000 + v % 0x20  // COP0
    else if top == 0x11 then  // COP1
      major + BinRs(v) * 0x20_0000 + (if v / 0x100_0000 == 0x45 then v / 0x1_0000 % 2 * 0x1_0000 else v % 0x40)
    else if top == 0x12 || top == 0x13 then major + BinRs(v) * 0x20_0000
    else major
  }

  /** The row of the table with a given key, among the instructions of this model. */
  ghost function Lookup(key: Word): (r: Option<Op>)
    ensures r.Some? ==> Key(r.value) == key
    ensures r.None? ==> forall op: Op :: Key(op) != key
  {
    if exists op: Op :: Key(op) == key then (var op: Op :| Key(op) == key; Some(op)) else None
  }

  ghost function Decode(v: Word): Option<Inst> {
    match Lookup(Masked(v))
    case None => None
    case Some(op) =>
      Some(match FormOf(op)
           case RdRsRt => Inst(op, BinRs(v), BinRt(v), BinRd(v), 0, 0, 0)
           case RtRsImm => Inst(op, BinRs(v), BinRt(v), 0, 0, v % 0x1_0000, 0)
           case RsImm => Inst(op, BinRs(v), 0, 0, 0, v % 0x1_0000, 0)
           case NoArg => Inst(op, 0, 0, 0, 0, 0, 0)
           case RtCop => Inst(op, 0, BinRt(v), BinRd(v), 0, 0, 0)
           case RsRt => Inst(op, BinRs(v), BinRt(v), 0, 0, 0, 0)
           case Target => Inst(op, 0, 0, 0, 0, 0, v % 0x400_0000)
           case RdRs => Inst(op, BinRs(v), 0, BinRd(v), 0, 0, 0)
           case Rs => Inst(op, BinRs(v), 0, 0, 0, 0, 0)
           case Rd => Inst(op, 0, 0, BinRd(v), 0, 0, 0)
           case RdRtShamt => Inst(op, 0, BinRt(v), BinRd(v), BinShamt(v), 0, 0))
  }

  // ----- the table turned round, to show that no key occurs twice -----

  function RowAt(key: Word): Option<Op> {
    if key < 0x0000_0010 then Special0(key)
    else if key < 0x0000_0020 then Special1(key)
    else if key < 0x0000_0030 then Special2(key)
    else if key < 0x0000_0040 then Special3(key)
    else if key < 0x0800_0000 then Regimm(key)
    else if key < 0x2000_0000 then Major0(key)
    else if key < 0x4000_0000 then Major1(key)
    else if key < 0x4400_0000 then Cop0(key)
    else if key < 0x7000_0000 then Major2(key)
    else if key < 0x7000_0040 then Second(key)
    else if key < 0xa000_0000 then Major3(key)
    else Major4(key)
  }

  function Special0(key: Word): Option<Op> {
    match key
    case 0x0000_0000 => Some(SLL)
    case 0x0000_0002 => Some(SRL)
    case 0x0000_0003 => Some(SRA)
    case 0x0000_0004 => Some(SLLV)
    case 0x0000_0006 => Some(SRLV)
    case 0x0000_0007 => Some(SRAV)
    case 0x0000_0008 => Some(JR)
    case 0x0000_0009 => Some(JALR)
    case 0x0000_000a => Some(MOVZ)
    case 0x0000_000b => Some(MOVN)
    case 0x0000_000c => Some(SYSCALL)
    case 0x0000_000d => Some(BREAK)
    case 0x0000_000f => Some(SYNC)
    case _ => None
  }

  function Special1(key: Word): Option<Op> {
    match key
    case 0x0000_0010 => Some(MFHI)
    case 0x0000_0011 => Some(MTHI)
    case 0x0000_0012 => Some(MFLO)
    case 0x0000_0013 => Some(MTLO)
    case 0x0000_0018 => Some(MULT)
    case 0x0000_0019 => Some(MULTU)
    case 0x0000_001a => Some(DIV)
    case 0x0000_001b => Some(DIVU)
    case _ => None
  }

  function Special2(key: Word): Option<Op> {
    match key
    case 0x0000_0020 => Some(ADD)
    case 0x0000_0021 => Some(ADDU)
    case 0x0000_0022 => Some(SUB)
    case 0x0000_0023 => Some(SUBU)
    case 0x0000_0024 => Some(AND)
    case 0x0000_0025 => Some(OR)
    case 0x0000_0026 => Some(XOR)
    case 0x0000_0027 => Some(NOR)
    case 0x0000_002a => Some(SLT)
    case 0x0000_002b => Some(SLTU)
    case _ => None
  }

  function Special3(key: Word): Option<Op> {
    match key
    case 0x0000_0030 => Some(TGE)
    case 0x0000_0031 => Some(TGEU)
    case 0x0000_0032 => Some(TLT)
    case 0x0000_0033 => Some(TLTU)
    case 0x0000_0034 => Some(TEQ)
    case 0x0000_0036 => Some(TNE)
    case _ => None
  }

  function Regimm(key: Word): Option<Op> {
    match key
    case 0x0400_0000 => Some(BLTZ)
    case 0x0401_0000 => Some(BGEZ)
    case 0x0402_0000 => Some(BLTZL)
    case 0x0403_0000 => Some(BGEZL)
    case 0x0408_0000 => Some(TGEI)
    case 0x0409_0000 => Some(TGEIU)
    case 0x040a_0000 => Some(TLTI)
    case 0x040b_0000 => Some(TLTIU)
    case 0x040c_0000 => Some(TEQI)
    case 0x040e_0000 => Some(TNEI)
    case 0x0410_0000 => Some(BLTZAL)
    case 0x0411_0000 => Some(BGEZAL)
    case 0x0412_0000 => Some(BLTZALL)
    case 0x0413_0000 => Some(BGEZALL)
    case _ => None
  }

  function Major0(key: Word): Option<Op> {
    match key
    case 0x0800_0000 => Some(J)
    case 0x0c00_0000 => Some(JAL)
    case 0x1000_0000 => Some(BEQ)
    case 0x1400_0000 => Some(BNE)
    case 0x1800_0000 => Some(BLEZ)
    case 0x1c00_0000 => Some(BGTZ)
    case _ => None
  }

  function Major1(key: Word): Option<Op> {
    match key
    case 0x2000_0000 => Some(ADDI)
    case 0x2400_0000 => Some(ADDIU)
    case 0x2800_0000 => Some(SLTI)
    case 0x2c00_0000 => Some(SLTIU)
    case 0x3000_0000 => Some(ANDI)
    case 0x3400_0000 => Some(ORI)
    case 0x3800_0000 => Some(XORI)
    case 0x3c00_0000 => Some(LUI)
    case _ => None
  }

  function Cop0(key: Word): Option<Op> {
    match key
    case 0x4000_0000 => Some(MFC0)
    case 0x4040_0000 => Some(CFC0)
    case 0x4080_0000 => Some(MTC0)
    case 0x40c0_0000 => Some(CTC0)
    case 0x4200_0001 => Some(TLBR)
    case 0x4200_0002 => Some(TLBWI)
    case 0x4200_0006 => Some(TLBWR)
    case 0x4200_0008 => Some(TLBP)
    case 0x4200_0010 => Some(RFE)
    case 0x4200_0018 => Some(ERET)
    case _ => None
  }

  function Major2(key: Word): Option<Op> {
    match key
    case 0x5000_0000 => Some(BEQL)
    case 0x5400_0000 => Some(BNEL)
    case 0x5800_0000 => Some(BLEZL)
    case 0x5c00_0000 => Some(BGTZL)
    case _ => None
  }

  function Second(key: Word): Option<Op> {
    match key
    case 0x7000_0000 => Some(MADD)
    case 0x7000_0001 => Some(MADDU)
    case 0x7000_0002 => Some(MUL)
    case 0x7000_0004 => Some(MSUB)
    case 0x7000_0005 => Some(MSUBU)
    case 0x7000_0020 => Some(CLZ)
    case 0x7000_0021 => Some(CLO)
    case _ => None
  }

  function Major3(key: Word): Option<Op> {
    match key
    case 0x8000_0000 => Some(LB)
    case 0x8400_0000 => Some(LH)
    case 0x8800_0000 => Some(LWL)
    case 0x8c00_0000 => Some(LW)
    case 0x9000_0000 => Some(LBU)
    case 0x9400_0000 => Some(LHU)
    case 0x9800_0000 => Some(LWR)
    case _ => None
  }

  function Major4(key: Word): Option<Op> {
    match key
    case 0xa000_0000 => Some(SB)
    case 0xa400_0000 => Some(SH)
    case 0xa800_0000 => Some(SWL)
    case 0xac00_0000 => Some(SW)
    case 0xb800_0000 => Some(SWR)
    case 0xbc00_0000 => Some(CACHE)
    case 0xc000_0000 => Some(LL)
    case 0xcc00_0000 => Some(PREF)
    case 0xe000_0000 => Some(SC)
    case _ => None
  }

  lemma RowOfKey(op: Op)
    ensures RowAt(Key(op)) == Some(op)
  {
    hide Key, Special0, Special1, Special2, Special3, Regimm, Major0, Major1, Cop0, Major2, Second, Major3, Major4;
    KeyRange(op);
    if Key(op) < 0x0000_0010 {
      Special0Row(op);
    } else if Key(op) < 0x0000_0020 {
      Special1Row(op);
    } else if Key(op) < 0x0000_0030 {
      Special2Row(op);
    } else if Key(op) < 0x0000_0040 {
      Special3Row(op);
    } else if Key(op) < 0x0800_0000 {
      RegimmRow(op);
    } else if Key(op) < 0x2000_0000 {
      Major0Row(op);
    } else if Key(op) < 0x4000_0000 {
      Major1Row(op);
    } else if Key(op) < 0x4400_0000 {
      Cop0Row(op);
    } else if Key(op) < 0x7000_0000 {
      Major2Row(op);
    } else if Key(op) < 0x7000_0040 {
      SecondRow(op);
    } else if Key(op) < 0xa000_0000 {
      Major3Row(op);
    } else {
      Major4Row(op);
    }
  }

  /** The ranges that keys are in. */
  lemma KeyRange(op: Op)
    ensures Key(op) < 0x40 || 0x0400_0000 <= Key(op) < 0x4400_0000 || 0x5000_0000 <= Key(op) < 0x7000_0040 || 0x8000_0000 <= Key(op)
  {
  }

  lemma Special0Row(op: Op)
    requires Key(op) < 0x0000_0010
    ensures Special0(Key(op)) == Some(op)
    ensures IsRegister(FormOf(op)) || FormOf(op) == NoArg
  {
  }

  lemma Special1Row(op: Op)
    requires 0x0000_0010 <= Key(op) < 0x0000_0020
    ensures Special1(Key(op)) == Some(op)
    ensures IsRegister(FormOf(op)) || FormOf(op) == NoArg
  {
  }

  lemma Special2Row(op: Op)
    requires 0x0000_0020 <= Key(op) < 0x0000_0030
    ensures Special2(Key(op)) == Some(op)
    ensures IsRegister(FormOf(op)) || FormOf(op) == NoArg
  {
  }

  lemma Special3Row(op: Op)
    requires 0x0000_0030 <= Key(op) < 0x0000_0040
    ensures Special3(Key(op)) == Some(op)
    ensures IsRegister(FormOf(op)) || FormOf(op) == NoArg
  {
  }

  lemma RegimmRow(op: Op)
    requires 0x0400_0000 <= Key(op) < 0x0800_0000
    ensures Regimm(Key(op)) == Some(op)
    ensures FormOf(op) == RsImm
  {
  }

  lemma Major0Row(op: Op)
    requires 0x0800_0000 <= Key(op) < 0x2000_0000
    ensures Major0(Key(op)) == Some(op)
    ensures FormOf(op) == RtRsImm || FormOf(op) == RsImm || FormOf(op) == Target
  {
  }

  lemma Major1Row(op: Op)
    requires 0x2000_0000 <= Key(op) < 0x4000_0000
    ensures Major1(Key(op)) == Some(op)
    ensures FormOf(op) == RtRsImm || FormOf(op) == RsImm || FormOf(op) == Target
  {
  }

  lemma Cop0Row(op: Op)
    requires 0x4000_0000 <= Key(op) < 0x4400_0000
    ensures Cop0(Key(op)) == Some(op)
    ensures FormOf(op) == RtCop || FormOf(op) == NoArg
  {
  }

  lemma Major2Row(op: Op)
    requires 0x5000_0000 <= Key(op) < 0x7000_0000
    ensures Major2(Key(op)) == Some(op)
    ensures FormOf(op) == RtRsImm || FormOf(op) == RsImm || FormOf(op) == Target
  {
  }

  lemma SecondRow(op: Op)
    requires 0x7000_0000 <= Key(op) < 0x7000_0040
    ensures Second(Key(op)) == Some(op)
    ensures IsRegister(FormOf(op))
  {
  }

  lemma Major3Row(op: Op)
    requires 0x8000_0000 <= Key(op) < 0xa000_0000
    ensures Major3(Key(op)) == Some(op)
    ensures FormOf(op) == RtRsImm || FormOf(op) == RsImm || FormOf(op) == Target
  {
  }

  lemma Major4Row(op: Op)
    requires 0xa000_0000 <= Key(op)
    ensures Major4(Key(op)) == Some(op)
    ensures FormOf(op) == RtRsImm || FormOf(op) == RsImm || FormOf(op) == Target
  {
  }

  predicate IsRegister(form: Form) {
    match form case RdRsRt | RsRt | RdRs | Rs | Rd | RdRtShamt => true case _ => false
  }

  /** Keys are unique. */
  lemma KeysUnique(a: Op, b: Op)
    requires Key(a) == Key(b)
    ensures a == b
  {
    hide Key, RowAt;
    RowOfKey(a);
    RowOfKey(b);
  }

  /** Searching for a key finds exactly the instruction that has it. */
  lemma LookupIff(key: Word, op: Op)
    ensures Lookup(key) == Some(op) <==> Key(op) == key
  {
    hide Key;
    if Key(op) == key {
      KeysUnique(Lookup(key).value, op);
    }
  }

  // ----- the search -----

  /** The sorted table: every instruction's row, in order of keys. */
  ghost predicate IsTable(rows: seq<(Word, Op)>) {
    && (forall i, j | 0 <= i < j < |rows| :: rows[i].0 < rows[j].0)
    && (forall i | 0 <= i < |rows| :: Key(rows[i].1) == rows[i].0)
    && forall op: Op :: HasRow(rows, op)
  }

  ghost predicate HasRow(rows: seq<(Word, Op)>, op: Op) {
    exists i :: 0 <= i < |rows| && rows[i].1 == op
  }

  lemma RowFound(rows: seq<(Word, Op)>, key: Word, k: nat)
    requires IsTable(rows) && k < |rows| && rows[k].0 == key
    ensures Lookup(key) == Some(rows[k].1)
  {
    hide Key, HasRow;
    LookupIff(key, rows[k].1);
  }

  lemma NoRowFound(rows: seq<(Word, Op)>, key: Word)
    requires IsTable(rows)
    requires forall i | 0 <= i < |rows| :: rows[i].0 != key
    ensures Lookup(key) == None
  {
    hide Key;
    assert Lookup(key).Some? ==> HasRow(rows, Lookup(key).value);
  }

  /** `map_int_to_name_val_val`: binary search for a key finds the row that has it. */
  method Search(rows: seq<(Word, Op)>, key: Word) returns (r: Option<Op>)
    requires IsTable(rows)
    ensures r == Lookup(key)
  {
    hide Key, Lookup, HasRow;
    var lo, hi := 0, |rows|;
    while lo < hi
      invariant 0 <= lo <= hi <= |rows|
      invariant forall i | 0 <= i < lo :: rows[i].0 < key
      invariant forall i | hi <= i < |rows| :: rows[i].0 > key
    {
      var mid := (lo + hi) / 2;
      if rows[mid].0 == key {
        RowFound(rows, key, mid);
        return Some(rows[mid].1);
      } else if rows[mid].0 < key {
        lo := mid + 1;
      } else {
        hi := mid;
      }
    }
    NoRowFound(rows, key);
    r := None;
  }

  /** The other integer, coprocessor 0 and memory rows of the table have keys of their own. */
  predicate OtherRow(key: Word) {
    match key
    case 0x0000_0001 | 0x0000_0040 | 0x0000_00c0 | 0x0000_0408 | 0x0000_0409 | 0x0001_0001 | 0x0020_0002 | 0x0020_0003
       | 0x0414_0000 | 0x4140_0000 | 0x4160_6000 | 0x4160_6020 | 0x41c0_0000 | 0x4200_001f | 0x7000_003f | 0x7c00_0000
       | 0x7c00_0004 | 0x7c00_003b | 0x7c00_00a0 | 0x7c00_0420 | 0x7c00_0620 | 0xc400_0000 | 0xc800_0000 | 0xd400_0000
       | 0xd800_0000 | 0xe400_0000 | 0xe800_0000 | 0xf400_0000 | 0xf800_0000 => true
    case _ => false
  }

  lemma OtherRowsApart(op: Op)
    ensures !OtherRow(Key(op))
  {
    hide Key, RowAt;
    RowOfKey(op);
    if OtherRow(Key(op)) {
      OtherRowNotFound(Key(op));
    }
  }

  lemma OtherRowNotFound(key: Word)
    requires OtherRow(key)
    ensures RowAt(key) == None
  {
  }

  // ----- fields -----

  /** A word from its fields. */
  function Pack(top: nat, rs: nat, rt: nat, rd: nat, shamt: nat, func: nat): nat {
    func + 0x40 * shamt + 0x800 * rd + 0x1_0000 * rt + 0x20_0000 * rs + 0x400_0000 * top
  }

  lemma Unpack(top: nat, rs: Reg, rt: Reg, rd: Reg, shamt: Reg, func: nat)
    requires top < 64 && func < 64
    ensures var v := Pack(top, rs, rt, rd, shamt, func);
            && v < TWO32 && v / 0x400_0000 == top && BinRs(v) == rs && BinRt(v) == rt && BinRd(v) == rd && BinShamt(v) == shamt
            && v % 0x40 == func && v % 0x20 == func % 0x20
            && v % 0x1_0000 == 0x800 * rd + 0x40 * shamt + func
            && v % 0x400_0000 == v - 0x400_0000 * top
  {
    var v := Pack(top, rs, rt, rd, shamt, func);
    assert v / 0x400_0000 == top;
    assert v / 0x20_0000 == rs + 32 * top;
    assert v / 0x1_0000 == rt + 32 * (rs + 32 * top);
    assert v / 0x800 == rd + 32 * (rt + 32 * (rs + 32 * top));
    assert v / 0x40 == shamt + 32 * (rd + 32 * (rt + 32 * (rs + 32 * top)));
  }

  /** A 16-bit immediate lies over the rd, shamt and func fields. */
  lemma ImmediateFields(imm: Half)
    ensures imm == 0x800 * (imm / 0x800) + 0x40 * (imm / 0x40 % 32) + imm % 0x40 && imm / 0x800 < 32
  {
  }

  predicate IsSpecial(op: Op) {
    Key(op) < 0x40 || 0x7000_0000 <= Key(op) < 0x7000_0040
  }

  predicate IsRegimm(op: Op) {
    0x400_0000 <= Key(op) < 0x800_0000
  }

  predicate IsCop0(op: Op) {
    0x4000_0000 <= Key(op) < 0x4400_0000
  }

  /** Each part of the table has its own forms. */
  lemma ClassOfKey(op: Op)
    ensures IsSpecial(op) ==> IsRegister(FormOf(op)) || FormOf(op) == NoArg
    ensures IsRegimm(op) ==> FormOf(op) == RsImm && Key(op) % 0x1_0000 == 0 && Key(op) < 0x420_0000
    ensures IsCop0(op) ==> (FormOf(op) == RtCop && Key(op) % 0x20_0000 == 0) || (FormOf(op) == NoArg && Key(op) % 0x20_0000 < 0x20)
    ensures !IsSpecial(op) && !IsRegimm(op) && !IsCop0(op) ==>
              && (FormOf(op) == RtRsImm || FormOf(op) == RsImm || FormOf(op) == Target)
              && Key(op) % 0x400_0000 == 0 && Key(op) >= 0x800_0000
              && !(0x4000_0000 <= Key(op) < 0x5000_0000) && !(0x7000_0000 <= Key(op) < 0x8000_0000)
  {
    hide Key, FormOf, IsRegister;
    KeyRange(op);
    if IsRegimm(op) {
      RegimmRow(op);
      RegimmKeys(Key(op));
    } else if IsCop0(op) {
      Cop0Row(op);
      Cop0Forms(op);
    } else if IsSpecial(op) {
      SpecialForms(op);
    } else {
      MajorForms(op);
    }
  }

  lemma SpecialForms(op: Op)
    requires IsSpecial(op)
    ensures IsRegister(FormOf(op)) || FormOf(op) == NoArg
  {
    hide Key, FormOf, IsRegister;
    if Key(op) < 0x10 {
      Special0Row(op);
    } else if Key(op) < 0x20 {
      Special1Row(op);
    } else if Key(op) < 0x30 {
      Special2Row(op);
    } else if Key(op) < 0x40 {
      Special3Row(op);
    } else {
      SecondRow(op);
    }
  }

  lemma MajorForms(op: Op)
    requires 0x800_0000 <= Key(op) && !(0x4000_0000 <= Key(op) < 0x5000_0000) && !(0x7000_0000 <= Key(op) < 0x8000_0000)
    ensures FormOf(op) == RtRsImm || FormOf(op) == RsImm || FormOf(op) == Target
    ensures Key(op) % 0x400_0000 == 0
  {
    hide Key, FormOf;
    if Key(op) < 0x2000_0000 {
      Major0Row(op);
    } else if Key(op) < 0x4000_0000 {
      Major1Row(op);
    } else if Key(op) < 0x7000_0000 {
      Major2Row(op);
    } else if Key(op) < 0xa000_0000 {
      Major3Row(op);
    } else {
      Major4Row(op);
    }
    MajorKeys(Key(op));
  }

  lemma MajorKeys(key: Word)
    ensures Major0(key).Some? || Major1(key).Some? || Major2(key).Some? || Major3(key).Some? || Major4(key).Some?
            ==> key % 0x400_0000 == 0
  {
  }

  lemma RegimmKeys(key: Word)
    ensures Regimm(key).Some? ==> key % 0x1_0000 == 0 && key < 0x420_0000
  {
  }

  lemma Cop0Forms(op: Op)
    requires IsCop0(op)
    ensures (FormOf(op) == RtCop && Key(op) % 0x20_0000 == 0) || (FormOf(op) == NoArg && Key(op) % 0x20_0000 < 0x20)
  {
    Cop0Row(op);
  }

  /** The key is zero in every field its form encodes. */
  lemma KeyLeavesFields(op: Op)
    ensures match FormOf(op)
            case RtRsImm | Target => Key(op) % 0x400_0000 == 0
            case RsImm => Key(op) % 0x1_0000 == 0 && BinRs(Key(op)) == 0
            case RtCop => Key(op) % 0x20_0000 == 0
            case NoArg => true
            case _ => Key(op) % 0x400_0000 < 0x40
  {
    hide Key, FormOf;
    ClassOfKey(op);
    KeyRange(op);
  }

  // ----- round trip -----

  /** The fields of `v` that the form of `i` uses are those of `i`. */
  ghost predicate Carries(v: Word, i: Inst) {
    match FormOf(i.op)
    case RdRsRt => BinRs(v) == i.rs && BinRt(v) == i.rt && BinRd(v) == i.rd
    case RtRsImm => BinRs(v) == i.rs && BinRt(v) == i.rt && v % 0x1_0000 == i.imm
    case RsImm => BinRs(v) == i.rs && v % 0x1_0000 == i.imm
    case NoArg => true
    case RtCop => BinRt(v) == i.rt && BinRd(v) == i.rd
    case RsRt => BinRs(v) == i.rs && BinRt(v) == i.rt
    case Target => v % 0x400_0000 == i.target
    case RdRs => BinRs(v) == i.rs && BinRd(v) == i.rd
    case Rs => BinRs(v) == i.rs
    case Rd => BinRd(v) == i.rd
    case RdRtShamt => BinRt(v) == i.rt && BinRd(v) == i.rd && BinShamt(v) == i.shamt
  }

  lemma DecodeCarried(v: Word, i: Inst)
    requires Canonical(i) && Masked(v) == Key(i.op) && Carries(v, i)
    ensures Decode(v) == Some(i)
  {
    hide Key, Lookup, FormOf, BinRs, BinRt, BinRd, BinShamt, Masked;
    LookupIff(Masked(v), i.op);
  }

  lemma MaskedPack(top: nat, rs: Reg, rt: Reg, rd: Reg, shamt: Reg, func: nat)
    requires top < 64 && func < 64 && top != 0x11 && top != 0x12 && top != 0x13
    ensures var v := Pack(top, rs, rt, rd, shamt, func);
            v < TWO32 && Masked(v) ==
                         if top == 0 || top == 0x1c then 0x400_0000 * top + func
                         else if top == 1 then 0x400_0000 + 0x1_0000 * rt
                         else if top == 0x10 then 0x4000_0000 + 0x20_0000 * rs + func % 0x20
                         else 0x400_0000 * top
  {
    hide Pack, BinRs, BinRt, BinRd, BinShamt;
    Unpack(top, rs, rt, rd, shamt, func);
  }

  /** Register forms and no-argument forms under SPECIAL and SPECIAL2. */
  lemma SpecialRoundTrip(i: Inst)
    requires Canonical(i) && IsSpecial(i.op)
    ensures Decode(Encode(i)) == Some(i)
  {
    hide Key, FormOf, BinRs, BinRt, BinRd, BinShamt, Masked, Decode, Pack, Encode;
    ClassOfKey(i.op);
    var top := if Key(i.op) < 0x40 then 0 else 0x1c;
    var func := Key(i.op) - 0x400_0000 * top;
    EncodeSpecial(i, top);
    MaskedPack(top, i.rs, i.rt, i.rd, i.shamt, func);
    Unpack(top, i.rs, i.rt, i.rd, i.shamt, func);
    DecodeCarried(Encode(i), i);
  }

  lemma EncodeSpecial(i: Inst, top: nat)
    requires Canonical(i) && 0 <= Key(i.op) - 0x400_0000 * top < 0x40 && (top == 0 || top == 0x1c)
    ensures Encode(i) == Pack(top, i.rs, i.rt, i.rd, i.shamt, Key(i.op) - 0x400_0000 * top)
  {
    hide Key, FormOf, Wrap;
    ClassOfKey(i.op);
    var v := Pack(top, i.rs, i.rt, i.rd, i.shamt, Key(i.op) - 0x400_0000 * top);
    Unwrapped(v);
  }

  lemma Unwrapped(v: int)
    requires 0 <= v < TWO32
    ensures Wrap(v) == v
  {
  }

  lemma Cop0RoundTrip(i: Inst)
    requires Canonical(i) && IsCop0(i.op)
    ensures Decode(Encode(i)) == Some(i)
  {
    hide Key, FormOf, BinRs, BinRt, BinRd, BinShamt, Masked, Decode, Pack, Encode;
    ClassOfKey(i.op);
    var rs, func := EncodeCop0(i);
    MaskedPack(0x10, rs, i.rt, i.rd, 0, func);
    Unpack(0x10, rs, i.rt, i.rd, 0, func);
    DecodeCarried(Encode(i), i);
  }

  lemma EncodeCop0(i: Inst) returns (rs: Reg, func: nat)
    requires Canonical(i) && IsCop0(i.op)
    ensures func < 0x20 && Key(i.op) == 0x4000_0000 + 0x20_0000 * rs + func
    ensures Encode(i) == Pack(0x10, rs, i.rt, i.rd, 0, func)
  {
    hide Key, FormOf, Wrap;
    ClassOfKey(i.op);
    rs := (Key(i.op) - 0x4000_0000) / 0x20_0000;
    func := Key(i.op) % 0x20_0000;
    assert Key(i.op) == 0x4000_0000 + 0x20_0000 * rs + func;
    Unwrapped(Pack(0x10, rs, i.rt, i.rd, 0, func));
  }

  lemma RegimmRoundTrip(i: Inst)
    requires Canonical(i) && IsRegimm(i.op)
    ensures Decode(Encode(i)) == Some(i)
  {
    hide Key, FormOf, BinRs, BinRt, BinRd, BinShamt, Masked, Decode, Pack, Encode;
    ClassOfKey(i.op);
    var rt := (Key(i.op) - 0x400_0000) / 0x1_0000;
    var rd, shamt, func := i.imm / 0x800, i.imm / 0x40 % 32, i.imm % 0x40;
    ImmediateFields(i.imm);
    EncodeImmediate(i, 1, rt, rd, shamt, func);
    MaskedPack(1, i.rs, rt, rd, shamt, func);
    Unpack(1, i.rs, rt, rd, shamt, func);
    DecodeCarried(Encode(i), i);
  }

  lemma EncodeImmediate(i: Inst, top: nat, rt: Reg, rd: Reg, shamt: Reg, func: nat)
    requires Canonical(i) && (FormOf(i.op) == RtRsImm || FormOf(i.op) == RsImm) && top < 64 && func < 64
    requires i.imm == 0x800 * rd + 0x40 * shamt + func && Key(i.op) == 0x400_0000 * top + 0x1_0000 * (rt - i.rt)
    ensures Encode(i) == Pack(top, i.rs, rt, rd, shamt, func)
  {
    hide Key, FormOf, Wrap;
    Unwrapped(Pack(top, i.rs, rt, rd, shamt, func));
  }

  predicate IsMajor(op: Op) {
    !IsSpecial(op) && !IsRegimm(op) && !IsCop0(op)
  }

  lemma MajorRoundTrip(i: Inst)
    requires Canonical(i) && IsMajor(i.op) && !FormOf(i.op).Target?
    ensures Decode(Encode(i)) == Some(i)
  {
    hide Key, FormOf, BinRs, BinRt, BinRd, BinShamt, Masked, Decode, Pack, Encode;
    ClassOfKey(i.op);
    var top := Key(i.op) / 0x400_0000;
    var rd, shamt, func := i.imm / 0x800, i.imm / 0x40 % 32, i.imm % 0x40;
    ImmediateFields(i.imm);
    EncodeImmediate(i, top, i.rt, rd, shamt, func);
    MaskedPack(top, i.rs, i.rt, rd, shamt, func);
    Unpack(top, i.rs, i.rt, rd, shamt, func);
    DecodeCarried(Encode(i), i);
  }

  lemma JumpRoundTrip(i: Inst)
    requires Canonical(i) && IsMajor(i.op) && FormOf(i.op).Target?
    ensures Decode(Encode(i)) == Some(i)
  {
    hide Key, FormOf, Lookup, Decode;
    ClassOfKey(i.op);
    var top := Key(i.op) / 0x400_0000;
    assert Encode(i) == top * 0x400_0000 + i.target;
    assert Encode(i) / 0x400_0000 == top;
    DecodeCarried(Encode(i), i);
  }

  /** Decoding an encoded instruction gives it back, for every instruction whose unused fields are
      zero. */
  lemma RoundTrip(i: Inst)
    requires Canonical(i)
    ensures Decode(Encode(i)) == Some(i)
  {
    hide Decode, Encode, Canonical, Key, FormOf;
    if IsSpecial(i.op) {
      SpecialRoundTrip(i);
    } else if IsCop0(i.op) {
      Cop0RoundTrip(i);
    } else if IsRegimm(i.op) {
      RegimmRoundTrip(i);
    } else if FormOf(i.op).Target? {
      JumpRoundTrip(i);
    } else {
      MajorRoundTrip(i);
    }
  }

  /** So no two such instructions have the same encoding. */
  lemma EncodeInjective(i: Inst, j: Inst)
    requires Canonical(i) && Canonical(j) && Encode(i) == Encode(j)
    ensures i == j
  {
    hide Decode, Encode, Canonical;
    RoundTrip(i);
    RoundTrip(j);
  }

  // ----- the opcode tables of MIPS32, rows of eight -----

  /** Instructions with an opcode of their own: bits 31 to 26. */
  function OpcodeTable(n: nat): Option<Op>
    requires n < 64
  {
    var row :=
      match n / 8
      case 0 => [None, None, Some(J), Some(JAL), Some(BEQ), Some(BNE), Some(BLEZ), Some(BGTZ)]
      case 1 => [Some(ADDI), Some(ADDIU), Some(SLTI), Some(SLTIU), Some(ANDI), Some(ORI), Some(XORI), Some(LUI)]
      case 2 => [None, None, None, None, Some(BEQL), Some(BNEL), Some(BLEZL), Some(BGTZL)]
      case 4 => [Some(LB), Some(LH), Some(LWL), Some(LW), Some(LBU), Some(LHU), Some(LWR), None]
      case 5 => [Some(SB), Some(SH), Some(SWL), Some(SW), None, None, Some(SWR), Some(CACHE)]
      case 6 => [Some(LL), None, None, Some(PREF), None, None, None, None]
      case 7 => [Some(SC), None, None, None, None, None, None, None]
      case _ => [None, None, None, None, None, None, None, None];
    row[n % 8]
  }

  /** Opcode SPECIAL (0): bits 5 to 0. */
  function SpecialTable(n: nat): Option<Op>
    requires n < 64
  {
    var row :=
      match n / 8
      case 0 => [Some(SLL), None, Some(SRL), Some(SRA), Some(SLLV), None, Some(SRLV), Some(SRAV)]
      case 1 => [Some(JR), Some(JALR), Some(MOVZ), Some(MOVN), Some(SYSCALL), Some(BREAK), None, Some(SYNC)]
      case 2 => [Some(MFHI), Some(MTHI), Some(MFLO), Some(MTLO), None, None, None, None]
      case 3 => [Some(MULT), Some(MULTU), Some(DIV), Some(DIVU), None, None, None, None]
      case 4 => [Some(ADD), Some(ADDU), Some(SUB), Some(SUBU), Some(AND), Some(OR), Some(XOR), Some(NOR)]
      case 5 => [None, None, Some(SLT), Some(SLTU), None, None, None, None]
      case 6 => [Some(TGE), Some(TGEU), Some(TLT), Some(TLTU), Some(TEQ), None, Some(TNE), None]
      case _ => [None, None, None, None, None, None, None, None];
    row[n % 8]
  }

  /** Opcode REGIMM (1): bits 20 to 16. */
  function RegimmTable(n: nat): Option<Op>
    requires n < 32
  {
    var row :=
      match n / 8
      case 0 => [Some(BLTZ), Some(BGEZ), Some(BLTZL), Some(BGEZL), None, None, None, None]
      case 1 => [Some(TGEI), Some(TGEIU), Some(TLTI), Some(TLTIU), Some(TEQI), None, Some(TNEI), None]
      case 2 => [Some(BLTZAL), Some(BGEZAL), Some(BLTZALL), Some(BGEZALL), None, None, None, None]
      case _ => [None, None, None, None, None, None, None, None];
    row[n % 8]
  }

  /** Opcode SPECIAL2 (0x1c): bits 5 to 0. */
  function Special2Table(n: nat): Option<Op>
    requires n < 64
  {
    var row :=
      match n / 8
      case 0 => [Some(MADD), Some(MADDU), Some(MUL), None, Some(MSUB), Some(MSUBU), None, None]
      case 4 => [Some(CLZ), Some(CLO), None, None, None, None, None, None]
      case _ => [None, None, None, None, None, None, None, None];
    row[n % 8]
  }

  /** Opcode COP0 (0x10): bits 25 to 21, below 16. */
  function Cop0Table(n: nat): Option<Op>
    requires n < 16
  {
    var row :=
      match n / 8
      case 0 => [Some(MFC0), None, Some(CFC0), None, Some(MTC0), None, Some(CTC0), None]
      case _ => [None, None, None, None, None, None, None, None];
    row[n % 8]
  }

  /** Opcode COP0 with bit 25 set: bits 5 to 0. */
  function CoTable(n: nat): Option<Op>
    requires n < 64
  {
    var row :=
      match n / 8
      case 0 => [None, Some(TLBR), Some(TLBWI), None, None, None, Some(TLBWR), None]
      case 1 => [Some(TLBP), None, None, None, None, None, None, None]
      case 2 => [Some(RFE), None, None, None, None, None, None, None]
      case 3 => [Some(ERET), None, None, None, None, None, None, None]
      case _ => [None, None, None, None, None, None, None, None];
    row[n % 8]
  }

  lemma OpcodeTableKeys(n: nat)
    requires n < 64 && OpcodeTable(n).Some?
    ensures Key(OpcodeTable(n).value) == n * 0x400_0000
  {
    hide Key;
    match n / 4
    case 0 => OpcodeTableFrom0(n);
    case 1 => OpcodeTableFrom4(n);
    case 2 => OpcodeTableFrom8(n);
    case 3 => OpcodeTableFrom12(n);
    case 5 => OpcodeTableFrom20(n);
    case 8 => OpcodeTableFrom32(n);
    case 9 => OpcodeTableFrom36(n);
    case 10 => OpcodeTableFrom40(n);
    case 11 => OpcodeTableFrom44(n);
    case 12 => OpcodeTableFrom48(n);
    case 14 => OpcodeTableFrom56(n);
    case _ =>
  }

  lemma OpcodeTableFrom0(n: nat)
    requires 0 <= n < 4 && OpcodeTable(n).Some?
    ensures Key(OpcodeTable(n).value) == n * 0x400_0000
  {
  }

  lemma OpcodeTableFrom4(n: nat)
    requires 4 <= n < 8 && OpcodeTable(n).Some?
    ensures Key(OpcodeTable(n).value) == n * 0x400_0000
  {
  }

  lemma OpcodeTableFrom8(n: nat)
    requires 8 <= n < 12 && OpcodeTable(n).Some?
    ensures Key(OpcodeTable(n).value) == n * 0x400_0000
  {
  }

  lemma OpcodeTableFrom12(n: nat)
    requires 12 <= n < 16 && OpcodeTable(n).Some?
    ensures Key(OpcodeTable(n).value) == n * 0x400_0000
  {
  }

  lemma OpcodeTableFrom20(n: nat)
    requires 20 <= n < 24 && OpcodeTable(n).Some?
    ensures Key(OpcodeTable(n).value) == n * 0x400_0000
  {
  }

  lemma OpcodeTableFrom32(n: nat)
    requires 32 <= n < 36 && OpcodeTable(n).Some?
    ensures Key(OpcodeTable(n).value) == n * 0x400_0000
  {
  }

  lemma OpcodeTableFrom36(n: nat)
    requires 36 <= n < 40 && OpcodeTable(n).Some?
    ensures Key(OpcodeTable(n).value) == n * 0x400_0000
  {
  }

  lemma OpcodeTableFrom40(n: nat)
    requires 40 <= n < 44 && OpcodeTable(n).Some?
    ensures Key(OpcodeTable(n).value) == n * 0x400_0000
  {
  }

  lemma OpcodeTableFrom44(n: nat)
    requires 44 <= n < 48 && OpcodeTable(n).Some?
    ensures Key(OpcodeTable(n).value) == n * 0x400_0000
  {
  }

  lemma OpcodeTableFrom48(n: nat)
    requires 48 <= n < 52 && OpcodeTable(n).Some?
    ensures Key(OpcodeTable(n).value) == n * 0x400_0000
  {
  }

  lemma OpcodeTableFrom56(n: nat)
    requires 56 <= n < 60 && OpcodeTable(n).Some?
    ensures Key(OpcodeTable(n).value) == n * 0x400_0000
  {
  }

  lemma SpecialTableKeys(n: nat)
    requires n < 64 && SpecialTable(n).Some?
    ensures Key(SpecialTable(n).value) == n
  {
    hide Key;
    match n / 4
    case 0 => SpecialTableFrom0(n);
    case 1 => SpecialTableFrom4(n);
    case 2 => SpecialTableFrom8(n);
    case 3 => SpecialTableFrom12(n);
    case 4 => SpecialTableFrom16(n);
    case 6 => SpecialTableFrom24(n);
    case 8 => SpecialTableFrom32(n);
    case 9 => SpecialTableFrom36(n);
    case 10 => SpecialTableFrom40(n);
    case 12 => SpecialTableFrom48(n);
    case 13 => SpecialTableFrom52(n);
    case _ =>
  }

  lemma SpecialTableFrom0(n: nat)
    requires 0 <= n < 4 && SpecialTable(n).Some?
    ensures Key(SpecialTable(n).value) == n
  {
  }

  lemma SpecialTableFrom4(n: nat)
    requires 4 <= n < 8 && SpecialTable(n).Some?
    ensures Key(SpecialTable(n).value) == n
  {
  }

  lemma SpecialTableFrom8(n: nat)
    requires 8 <= n < 12 && SpecialTable(n).Some?
    ensures Key(SpecialTable(n).value) == n
  {
  }

  lemma SpecialTableFrom12(n: nat)
    requires 12 <= n < 16 && SpecialTable(n).Some?
    ensures Key(SpecialTable(n).value) == n
  {
  }

  lemma SpecialTableFrom16(n: nat)
    requires 16 <= n < 20 && SpecialTable(n).Some?
    ensures Key(SpecialTable(n).value) == n
  {
  }

  lemma SpecialTableFrom24(n: nat)
    requires 24 <= n < 28 && SpecialTable(n).Some?
    ensures Key(SpecialTable(n).value) == n
  {
  }

  lemma SpecialTableFrom32(n: nat)
    requires 32 <= n < 36 && SpecialTable(n).Some?
    ensures Key(SpecialTable(n).value) == n
  {
  }

  lemma SpecialTableFrom36(n: nat)
    requires 36 <= n < 40 && SpecialTable(n).Some?
    ensures Key(SpecialTable(n).value) == n
  {
  }

  lemma SpecialTableFrom40(n: nat)
    requires 40 <= n < 44 && SpecialTable(n).Some?
    ensures Key(SpecialTable(n).value) == n
  {
  }

  lemma SpecialTableFrom48(n: nat)
    requires 48 <= n < 52 && SpecialTable(n).Some?
    ensures Key(SpecialTable(n).value) == n
  {
    hide Key;
    if n < 50 {
      SpecialTableFrom48Pair(n);
    } else {
      SpecialTableFrom50Pair(n);
    }
  }

  lemma SpecialTableFrom48Pair(n: nat)
    requires 48 <= n < 50
    ensures SpecialTable(n).Some? && Key(SpecialTable(n).value) == n
  {
  }

  lemma SpecialTableFrom50Pair(n: nat)
    requires 50 <= n < 52
    ensures SpecialTable(n).Some? && Key(SpecialTable(n).value) == n
  {
  }

  lemma SpecialTableFrom52(n: nat)
    requires 52 <= n < 56 && SpecialTable(n).Some?
    ensures Key(SpecialTable(n).value) == n
  {
  }

  lemma RegimmTableKeys(n: nat)
    requires n < 32 && RegimmTable(n).Some?
    ensures Key(RegimmTable(n).value) == 0x400_0000 + n * 0x1_0000
  {
    hide Key;
    match n / 4
    case 0 => RegimmTableFrom0(n);
    case 2 => RegimmTableFrom8(n);
    case 3 => RegimmTableFrom12(n);
    case 4 => RegimmTableFrom16(n);
    case _ =>
  }

  lemma RegimmTableFrom0(n: nat)
    requires 0 <= n < 4 && RegimmTable(n).Some?
    ensures Key(RegimmTable(n).value) == 0x400_0000 + n * 0x1_0000
  {
  }

  lemma RegimmTableFrom8(n: nat)
    requires 8 <= n < 12 && RegimmTable(n).Some?
    ensures Key(RegimmTable(n).value) == 0x400_0000 + n * 0x1_0000
  {
  }

  lemma RegimmTableFrom12(n: nat)
    requires 12 <= n < 16 && RegimmTable(n).Some?
    ensures Key(RegimmTable(n).value) == 0x400_0000 + n * 0x1_0000
  {
  }

  lemma RegimmTableFrom16(n: nat)
    requires 16 <= n < 20 && RegimmTable(n).Some?
    ensures Key(RegimmTable(n).value) == 0x400_0000 + n * 0x1_0000
  {
  }

  lemma Special2TableKeys(n: nat)
    requires n < 64 && Special2Table(n).Some?
    ensures Key(Special2Table(n).value) == 0x7000_0000 + n
  {
  }

  lemma Cop0TableKeys(n: nat)
    requires n < 16 && Cop0Table(n).Some?
    ensures Key(Cop0Table(n).value) == 0x4000_0000 + n * 0x20_0000
  {
  }

  lemma CoTableKeys(n: nat)
    requires n < 64 && CoTable(n).Some?
    ensures Key(CoTable(n).value) == 0x4200_0000 + n
  {
    hide Key;
    match n / 4
    case 0 => CoTableFrom0(n);
    case 1 => CoTableFrom4(n);
    case 2 => CoTableFrom8(n);
    case 4 => CoTableFrom16(n);
    case 6 => CoTableFrom24(n);
    case _ =>
  }

  lemma CoTableFrom0(n: nat)
    requires 0 <= n < 4 && CoTable(n).Some?
    ensures Key(CoTable(n).value) == 0x4200_0000 + n
  {
  }

  lemma CoTableFrom4(n: nat)
    requires 4 <= n < 8 && CoTable(n).Some?
    ensures Key(CoTable(n).value) == 0x4200_0000 + n
  {
  }

  lemma CoTableFrom8(n: nat)
    requires 8 <= n < 12 && CoTable(n).Some?
    ensures Key(CoTable(n).value) == 0x4200_0000 + n
  {
  }

  lemma CoTableFrom16(n: nat)
    requires 16 <= n < 20 && CoTable(n).Some?
    ensures Key(CoTable(n).value) == 0x4200_0000 + n
  {
  }

  lemma CoTableFrom24(n: nat)
    requires 24 <= n < 28 && CoTable(n).Some?
    ensures Key(CoTable(n).value) == 0x4200_0000 + n
  {
  }

  /** The register fields and immediates sit where MIPS32 puts them. */
  lemma FieldPlaces(i: Inst)
    requires Canonical(i)
    ensures var v := Encode(i);
            && (i.rs != 0 ==> v / 0x20_0000 % 32 == i.rs)
            && (i.rt != 0 ==> v / 0x1_0000 % 32 == i.rt)
            && (i.rd != 0 ==> v / 0x800 % 32 == i.rd)
            && (i.shamt != 0 ==> v / 0x40 % 32 == i.shamt)
            && (i.imm != 0 ==> v % 0x1_0000 == i.imm)
            && (i.target != 0 ==> v % 0x400_0000 == i.target)
  {
    hide Encode, Lookup, Key, Masked, Canonical;
    RoundTrip(i);
  }
}
