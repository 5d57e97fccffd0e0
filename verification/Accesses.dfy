/** Aligned loads and stores as instructions: the bytes they read and write, and what a fault
    leaves behind. */
module Accesses {
  import opened Words
  import opened MemModel
  import opened ByteMap
  import opened Isa
  import opened Blocks
  import opened WideImmediates
  import InstructionMeaning

  predicate IsPlainLoad(op: Op) {
    op == LB || op == LBU || op == LH || op == LHU || op == LW || op == LL
  }

  predicate IsPlainStore(op: Op) {
    op == SB || op == SH || op == SW || op == SC
  }

  predicate ZeroExtends(op: Op) {
    op == LBU || op == LHU
  }

  /** The bytes at `addr` as an unsigned number. */
  function Unsigned(m: Mem, addr: Word, w: Width): Word
    requires Covered(m, addr, w)
  {
    match w
    case B => ByteAt(m, addr).value
    case H => ByteAt(m, addr).value + 0x100 * ByteAt(m, addr + 1).value
    case W => Assembled(m, addr, W)
  }

  lemma ExecPlainLoad(i: Inst, z: State)
    requires IsPlainLoad(i.op)
    ensures Exec(i, z) == LoadTo(z, i.rt, WidthOf(i.op), Address(z, i), ZeroExtends(i.op))
  {
    hide LoadTo, Address;
  }

  lemma ExecPlainStore(i: Inst, z: State)
    requires IsPlainStore(i.op)
    ensures Exec(i, z) == StoreAt(z, WidthOf(i.op), Address(z, i), z.gpr[i.rt])
  {
    hide StoreAt, Address;
  }

  lemma FetchedValue(z: State, w: Width, addr: Word)
    requires Located(z.mem, addr) && Aligned(w, addr % 4)
    ensures Covered(z.mem, addr, w) && Fetch(z, w, addr) == Fetched(z, Assembled(z.mem, addr, w))
  {
    hide Locate, Read, Assembled, Covered;
    ReadRefines(z.mem, z.cp0[CAUSE], w, addr);
    assert z.(mem := z.mem, cp0 := z.cp0[CAUSE := z.cp0[CAUSE]]) == z by { SameCause(z); }
  }

  lemma SameCause(z: State)
    ensures z.(mem := z.mem, cp0 := z.cp0[CAUSE := z.cp0[CAUSE]]) == z
  {
    assert z.cp0[CAUSE := z.cp0[CAUSE]] == z.cp0;
  }

  lemma Unextended(m: Mem, addr: Word, w: Width)
    requires Covered(m, addr, w) && w != W
    ensures (if w == B then Assembled(m, addr, w) % 0x100 else Assembled(m, addr, w) % 0x1_0000) == Unsigned(m, addr, w)
  {
    hide ByteAt;
  }

  /** A load from memory puts its bytes in the register, sign-extended or zero-extended as its name
      says, and changes nothing else. */
  lemma LoadReads(i: Inst, s: State, addr: Word)
    requires IsPlainLoad(i.op) && addr == Address(Zeroed(s), i)
    requires Located(s.mem, addr) && Aligned(WidthOf(i.op), addr % 4)
    ensures Covered(s.mem, addr, WidthOf(i.op))
    ensures var w := WidthOf(i.op);
            Run1(i, s) == Some(Wrote(s, i.rt, if ZeroExtends(i.op) then Unsigned(s.mem, addr, w) else Assembled(s.mem, addr, w)))
  {
    hide Exec, LoadTo, Address, Locate, Assembled, Unsigned, Covered, Wrap, Aligned, WidthOf, ZeroExtends, IsPlainLoad;
    ExecPlainLoad(i, Zeroed(s));
    NarrowOnly(i.op);
    LoadedValue(Zeroed(s), i.rt, WidthOf(i.op), addr, ZeroExtends(i.op));
  }

  lemma NarrowOnly(op: Op)
    ensures ZeroExtends(op) ==> WidthOf(op) != W
  {
  }

  lemma LoadedValue(z: State, rt: Reg, w: Width, addr: Word, unsigned: bool)
    requires Located(z.mem, addr) && Aligned(w, addr % 4) && (unsigned ==> w != W)
    ensures Covered(z.mem, addr, w)
    ensures LoadTo(z, rt, w, addr, unsigned) ==
            Effect(z, Some(Load(rt, if unsigned then Unsigned(z.mem, addr, w) else Assembled(z.mem, addr, w))))
  {
    hide Fetch, Locate, Assembled, Unsigned, Covered, Aligned;
    FetchedValue(z, w, addr);
    if unsigned {
      Unextended(z.mem, addr, w);
    }
  }

  /** A store changes exactly its bytes. */
  lemma StoreWrites(i: Inst, s: State, addr: Word) returns (s': State)
    requires IsPlainStore(i.op) && addr == Address(Zeroed(s), i)
    requires Located(s.mem, addr) && Aligned(WidthOf(i.op), addr % 4)
    ensures s' == Next(Zeroed(s).(mem := s'.mem)) && BytesSet(s.mem, s'.mem, addr, WidthOf(i.op), Seen(s, i.rt))
    ensures Run1(i, s) == Some(s')
  {
    hide Exec, Address, Locate, Write, BytesSet, Wrap, Aligned, IsPlainStore;
    var z := Zeroed(s);
    ExecPlainStore(i, z);
    WriteRefines(s.mem, s.cp0[CAUSE], WidthOf(i.op), addr, Seen(s, i.rt));
    var r := Write(s.mem, s.cp0[CAUSE], WidthOf(i.op), addr, Seen(s, i.rt));
    SameCause(z);
    assert z.(mem := r.mem, cp0 := z.cp0[CAUSE := r.cause]) == z.(mem := r.mem);
    s' := Next(z.(mem := r.mem));
  }

  /** A load that faults still writes its register: with 0. The exception is an address error for a
      misaligned address and a bus error otherwise, and BadVAddr is the address. */
  lemma FaultingLoadWritesZero(i: Inst, s: State, addr: Word, code: nat)
    requires IsPlainLoad(i.op) && addr == Address(Zeroed(s), i) && Read(s.mem, s.cp0[CAUSE], WidthOf(i.op), addr) == Fault(code)
    ensures code == (if Aligned(WidthOf(i.op), addr % 4) then EXC_DBE else EXC_ADEL)
    ensures Run1(i, s) == Some(Wrote(RaiseAt(Zeroed(s), code, addr), i.rt, 0))
  {
    hide Exec, Address, Read, RaiseAt, Wrap, IsPlainLoad, Aligned, LoadTo, WidthOf, ZeroExtends;
    ExecPlainLoad(i, Zeroed(s));
    FaultCodes(s.mem, s.cp0[CAUSE], WidthOf(i.op), addr);
    LoadFaults(Zeroed(s), i.rt, WidthOf(i.op), addr, ZeroExtends(i.op), code);
    ZeroStays(Zeroed(s), code, addr);
  }

  lemma LoadFaults(z: State, rt: Reg, w: Width, addr: Word, unsigned: bool, code: nat)
    requires Read(z.mem, z.cp0[CAUSE], w, addr) == Fault(code) && code < 32
    ensures LoadTo(z, rt, w, addr, unsigned) == Effect(RaiseAt(z, code, addr), Some(Load(rt, 0)))
  {
    hide Read, RaiseAt;
  }

  lemma FaultCodes(m: Mem, cause: Word, w: Width, addr: Word)
    ensures var r := Read(m, cause, w, addr);
            r.Fault? ==> r.code == (if Aligned(w, addr % 4) then EXC_DBE else EXC_ADEL)
  {
    hide Locate, ReadSeg, ExpandStack, ReadIo;
  }

  lemma ZeroStays(z: State, code: nat, addr: Word)
    requires z.gpr[0] == 0 && code < 32
    ensures Zeroed(RaiseAt(z, code, addr)) == RaiseAt(z, code, addr)
  {
    assert z.gpr[0 := 0] == z.gpr;
  }

  // ----- each instruction by name -----

  /** The byte at an address of memory. */
  function ByteOrZero(m: Mem, a: int): Byte {
    if 0 <= a < TWO32 && ByteAt(m, a).Some? then ByteAt(m, a).value else 0
  }

  predicate OnItsBoundary(op: Op, addr: Word) {
    && (op == LH || op == LHU || op == SH ==> addr % 2 == 0)
    && (op == LW || op == LL || op == SW || op == SC ==> addr % 4 == 0)
  }

  /** What a load makes of the bytes at `addr`, the first being the least significant. */
  ghost predicate LoadMeans(op: Op, m: Mem, addr: Word, r: Word) {
    var b, h := ByteOrZero(m, addr), ByteOrZero(m, addr) + 0x100 * ByteOrZero(m, addr + 1);
    && (op == LBU ==> r == b)
    && (op == LB ==> Signed(r) == if b < 0x80 then b else b - 0x100)
    && (op == LHU ==> r == h)
    && (op == LH ==> Signed(r) == if h < 0x8000 then h else h - 0x1_0000)
    && (op == LW || op == LL ==> r == h + 0x1_0000 * ByteOrZero(m, addr + 2) + 0x100_0000 * ByteOrZero(m, addr + 3))
  }

  lemma LoadedBytes(m: Mem, addr: Word, w: Width)
    requires Covered(m, addr, w)
    ensures w == B ==> Unsigned(m, addr, w) == ByteOrZero(m, addr) && Assembled(m, addr, w) == SignExByte(ByteOrZero(m, addr))
    ensures w == H ==> && Unsigned(m, addr, w) == ByteOrZero(m, addr) + 0x100 * ByteOrZero(m, addr + 1)
                       && Assembled(m, addr, w) == SignEx(ByteOrZero(m, addr) + 0x100 * ByteOrZero(m, addr + 1))
    ensures w == W ==> Assembled(m, addr, w) == ByteOrZero(m, addr) + 0x100 * ByteOrZero(m, addr + 1)
                                                + 0x1_0000 * ByteOrZero(m, addr + 2) + 0x100_0000 * ByteOrZero(m, addr + 3)
  {
    hide ByteAt, SignEx, SignExByte;
  }

  lemma ExtendedSigns(b: Byte, h: Half)
    ensures Signed(SignExByte(b)) == if b < 0x80 then b else b - 0x100
    ensures Signed(SignEx(h)) == if h < 0x8000 then h else h - 0x1_0000
  {
  }

  lemma LoadRows(op: Op)
    requires IsPlainLoad(op)
    ensures WidthOf(op) == if op == LB || op == LBU then B else if op == LH || op == LHU then H else W
    ensures ZeroExtends(op) <==> op == LBU || op == LHU
  {
  }

  /** An aligned load of an address in memory: base register plus signed offset. */
  lemma LoadsRun(i: Inst, s: State, addr: Word) returns (r: Word)
    requires i.op == LB || i.op == LBU || i.op == LH || i.op == LHU || i.op == LW || i.op == LL
    requires addr == (Seen(s, i.rs) + if i.imm < 0x8000 then i.imm else i.imm - 0x1_0000) % TWO32
    requires ByteAt(s.mem, addr).Some? && OnItsBoundary(i.op, addr)
    ensures LoadMeans(i.op, s.mem, addr, r) && Run1(i, s) == Some(Wrote(s, i.rt, r))
  {
    hide Run1, ByteAt, Locate, Assembled, Unsigned, Covered, LoadMeans, Address, Aligned, ZeroExtends, WidthOf, OnItsBoundary;
    AddressIs(i, s);
    LocatedByte(s.mem, addr);
    BoundaryAligned(i.op, addr);
    LoadReads(i, s, addr);
    r := if ZeroExtends(i.op) then Unsigned(s.mem, addr, WidthOf(i.op)) else Assembled(s.mem, addr, WidthOf(i.op));
    LoadedMeans(i.op, s.mem, addr);
  }

  lemma LoadedMeans(op: Op, m: Mem, addr: Word)
    requires IsPlainLoad(op) && Covered(m, addr, WidthOf(op))
    ensures LoadMeans(op, m, addr, if ZeroExtends(op) then Unsigned(m, addr, WidthOf(op)) else Assembled(m, addr, WidthOf(op)))
  {
    hide ByteAt, Assembled, Unsigned, Covered, ByteOrZero, ZeroExtends, WidthOf, Signed, SignEx, SignExByte;
    LoadRows(op);
    LoadedBytes(m, addr, WidthOf(op));
    ExtendedSigns(ByteOrZero(m, addr), ByteOrZero(m, addr) + 0x100 * ByteOrZero(m, addr + 1));
  }

  lemma AddressIs(i: Inst, s: State)
    ensures Address(Zeroed(s), i) == (Seen(s, i.rs) + if i.imm < 0x8000 then i.imm else i.imm - 0x1_0000) % TWO32
  {
  }

  lemma BoundaryAligned(op: Op, addr: Word)
    requires OnItsBoundary(op, addr) && (IsPlainLoad(op) || IsPlainStore(op))
    ensures Aligned(WidthOf(op), addr % 4)
  {
    hide WidthOf;
    SameParity(addr / 4, addr % 4);
    if IsPlainLoad(op) {
      LoadRows(op);
    } else {
      StoreRows(op);
    }
  }

  /** How many bytes a store writes. */
  function StoreSize(op: Op): nat {
    if op == SB then 1 else if op == SH then 2 else 4
  }

  /** An aligned store to an address in memory: that many low bytes of the register, the least
      significant first, and no other byte. */
  lemma StoresRun(i: Inst, s: State, addr: Word) returns (t: State)
    requires i.op == SB || i.op == SH || i.op == SW || i.op == SC
    requires addr == (Seen(s, i.rs) + if i.imm < 0x8000 then i.imm else i.imm - 0x1_0000) % TWO32
    requires ByteAt(s.mem, addr).Some? && OnItsBoundary(i.op, addr)
    ensures Run1(i, s) == Some(t) && t == Next(Zeroed(s).(mem := t.mem))
    ensures var v, n := Seen(s, i.rt), StoreSize(i.op);
            forall a: Word :: ByteAt(t.mem, a) == if a == addr then Some(v % 0x100)
                                                  else if a == addr + 1 && n >= 2 then Some(v / 0x100 % 0x100)
                                                  else if a == addr + 2 && n == 4 then Some(v / 0x1_0000 % 0x100)
                                                  else if a == addr + 3 && n == 4 then Some(v / 0x100_0000)
                                                  else ByteAt(s.mem, a)
  {
    hide Run1, ByteAt, Locate, Address, Aligned, WidthOf;
    StoreRows(i.op);
    AddressIs(i, s);
    LocatedByte(s.mem, addr);
    BoundaryAligned(i.op, addr);
    t := StoreWrites(i, s, addr);
    LanesOf(Seen(s, i.rt));
  }

  lemma StoreRows(op: Op)
    requires IsPlainStore(op)
    ensures WidthOf(op) == if op == SB then B else if op == SH then H else W
  {
  }

  lemma LanesOf(v: Word)
    ensures Lane(v, 0) == v % 0x100 && Lane(v, 1) == v / 0x100 % 0x100 && Lane(v, 2) == v / 0x1_0000 % 0x100
    ensures Lane(v, 3) == v / 0x100_0000
  {
  }

  // ----- accesses that fault -----

  lemma FaultingStore(i: Inst, s: State, addr: Word, code: nat)
    requires IsPlainStore(i.op) && addr == Address(Zeroed(s), i) && code < 32
    requires Write(s.mem, s.cp0[CAUSE], WidthOf(i.op), addr, Seen(s, i.rt)) == Fault(code)
    ensures Run1(i, s) == Some(Next(RaiseAt(Zeroed(s), code, addr)))
  {
    hide Exec, Address, Write, RaiseAt, Wrap, IsPlainStore, WidthOf;
    ExecPlainStore(i, Zeroed(s));
  }

  lemma MisalignedByName(op: Op, addr: Word)
    requires IsPlainLoad(op) || IsPlainStore(op)
    ensures Misaligned(WidthOf(op), addr) <==> !OnItsBoundary(op, addr)
  {
    hide WidthOf;
    if IsPlainLoad(op) {
      LoadRows(op);
    } else {
      StoreRows(op);
    }
  }

  /** No memory, no text, no device, and the stack does not grow there. */
  ghost predicate Nothing(m: Mem, addr: Word) {
    !Located(m, addr) && !InText(m, addr) && !BelowStack(m, addr) && addr < 0xffff_0000
  }

  /** `f` is `s` with exception `code` recorded and the address in BadVAddr. */
  ghost predicate FaultRecorded(s: State, f: State, code: int, addr: Word) {
    f.cp0[8] == addr && InstructionMeaning.Recorded(s, f.(cp0 := f.cp0[8 := s.cp0[8]]), code)
  }

  lemma RaiseAtRecords(s: State, code: nat, addr: Word)
    requires 0 < code < 32
    ensures FaultRecorded(s, RaiseAt(s, code, addr), code, addr)
  {
    hide Raise;
    InstructionMeaning.RaiseRecords(s, code);
    var t := Raise(s, code);
    assert t.cp0[8 := addr][8 := s.cp0[8]] == t.cp0;
  }

  /** A load or store off its boundary raises exception 4 or 5, one at an address where there is nothing
      exception 7; a load then writes 0. */
  lemma FaultsRun(i: Inst, s: State, addr: Word) returns (f: State)
    requires (IsPlainLoad(i.op) || IsPlainStore(i.op)) && s.mem.Valid()
    requires addr == (Seen(s, i.rs) + if i.imm < 0x8000 then i.imm else i.imm - 0x1_0000) % TWO32
    requires !OnItsBoundary(i.op, addr) || Nothing(s.mem, addr)
    ensures FaultRecorded(Zeroed(s), f, if OnItsBoundary(i.op, addr) then 7 else if IsPlainLoad(i.op) then 4 else 5, addr)
    ensures Run1(i, s) == Some(if IsPlainLoad(i.op) then Wrote(f, i.rt, 0) else Next(f))
  {
    hide Run1, Read, Write, Address, WidthOf, OnItsBoundary, FaultRecorded, RaiseAt, Located, BelowStack, InText, Misaligned, Wrap;
    var w := WidthOf(i.op);
    AddressIs(i, s);
    MisalignedByName(i.op, addr);
    var code := if OnItsBoundary(i.op, addr) then 7 else if IsPlainLoad(i.op) then 4 else 5;
    f := RaiseAt(Zeroed(s), code, addr);
    RaiseAtRecords(Zeroed(s), code, addr);
    if IsPlainLoad(i.op) {
      ReadFaults(s.mem, s.cp0[CAUSE], w, addr);
      FaultingLoadWritesZero(i, s, addr, code);
    } else {
      WriteFaults(s.mem, s.cp0[CAUSE], w, addr, Seen(s, i.rt));
      FaultingStore(i, s, addr, code);
    }
  }

  lemma ReadFaults(m: Mem, cause: Word, w: Width, addr: Word)
    requires m.Valid() && (Misaligned(w, addr) || Nothing(m, addr))
    ensures Read(m, cause, w, addr) == Fault(if Misaligned(w, addr) then 4 else 7)
  {
    hide Read, Located, BelowStack, Misaligned, StackAfter, StackGrown;
    ReadOutcome(m, cause, w, addr);
  }

  lemma WriteFaults(m: Mem, cause: Word, w: Width, addr: Word, v: Word)
    requires m.Valid() && (Misaligned(w, addr) || Nothing(m, addr))
    ensures Write(m, cause, w, addr, v) == Fault(if Misaligned(w, addr) then 5 else 7)
  {
    hide Write, Located, BelowStack, Misaligned, StackAfter, StackGrown, BytesSet;
    WriteOutcome(m, cause, w, addr, v);
  }
}
