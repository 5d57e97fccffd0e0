/** The expansions of `usw` and `ulw` with any 32-bit offset: each half may take up to three
    instructions through `$at`. */
module UnalignedCode {
  import opened Words
  import opened MemModel
  import opened ByteMap
  import opened Isa
  import opened Blocks
  import opened Assembler
  import opened Legalise
  import opened WideImmediates
  import opened Fixup
  import opened PseudoSteps
  import opened PseudoOps
  import opened Unaligned

  /** `usw rt, offset(rs)` and `ulw rt, offset(rs)`; `ops` are swl, swr or lwl, lwr. */
  function PairStmts(ops: (Op, Op), rt: Reg, rs: Reg, offset: Word): seq<Stmt> {
    [ConstStmt(ops.0, rt, rs, Wrap(offset + 3)), ConstStmt(ops.1, rt, rs, offset)]
  }

  predicate IsPart(op: Op) {
    op == SWL || op == SWR || op == LWL || op == LWR
  }

  lemma PartIsMem(op: Op)
    requires IsPart(op)
    ensures IsMem(op) && !IsBranch(op)
  {
  }

  /** The expansion is the legal code of the two accesses, three bytes apart. */
  lemma PairAssembles(ops: (Op, Op), rt: Reg, rs: Reg, offset: Word)
    requires IsPart(ops.0) && IsPart(ops.1)
    ensures Code(PairStmts(ops, rt, rs, offset)) == Legal(ops.0, rt, rs, Wrap(offset + 3)) + Legal(ops.1, rt, rs, offset)
  {
    hide Legal, IsBranch, Wrap, IsPart;
    PartIsMem(ops.0);
    PartIsMem(ops.1);
    var x, y := ConstStmt(ops.0, rt, rs, Wrap(offset + 3)), ConstStmt(ops.1, rt, rs, offset);
    Code1(x);
    Code1(y);
    CodeAppend([x], [y]);
    assert [x] + [y] == [x, y];
  }

  // ----- reaching an access -----

  /** Running the legal code of an access up to the access itself: only `$at` changes, and the
      instruction addresses base + v. */
  lemma ReachAccess(base: Word, code: seq<Inst>, k: nat, op: Op, rt: Reg, rs: Reg, v: Word, s: State) returns (j: nat, t: State)
    requires Placed(base, code) && CodeAt(code, k, Legal(op, rt, rs, v)) && s.pc == AddrOf(base, k) && !s.exc && IsMem(op) && rs != AT
    ensures k <= j && j + 1 == k + |Legal(op, rt, rs, v)| <= |code|
    ensures code[j].op == op && code[j].rt == rt && (code[j].rs == rs || code[j].rs == AT)
    ensures Address(Zeroed(t), code[j]) == Wrap(Seen(s, rs) + v)
    ensures t.pc == AddrOf(base, j) && OnlyRegs(s, t, {AT})
    ensures RunBlock(base, code, k, s) == RunBlock(base, code, j, t)
  {
    hide RunBlock, Wrap, Fits, SplitAccess, SignEx;
    if Fits(op, Full, v) {
      j, t := k, s;
      CodeAtIndex(code, k, Legal(op, rt, rs, v), 0);
      FittingRestores(op, v);
    } else {
      assert Legal(op, rt, rs, v) == SplitAccess(op, rt, rs, v);
      j, t := ReachSplit(base, code, k, op, rt, rs, v, s);
    }
  }

  lemma ReachSplit(base: Word, code: seq<Inst>, k: nat, op: Op, rt: Reg, rs: Reg, v: Word, s: State) returns (j: nat, t: State)
    requires Placed(base, code) && CodeAt(code, k, SplitAccess(op, rt, rs, v)) && s.pc == AddrOf(base, k) && !s.exc && rs != AT
    ensures k <= j && j + 1 == k + |SplitAccess(op, rt, rs, v)| <= |code|
    ensures code[j] == IType(op, rt, AT, v % 0x1_0000)
    ensures Address(Zeroed(t), code[j]) == Wrap(Seen(s, rs) + v)
    ensures t.pc == AddrOf(base, j) && OnlyRegs(s, t, {AT})
    ensures RunBlock(base, code, k, s) == RunBlock(base, code, j, t)
  {
    hide RunBlock, Wrap, Wrote, CarriedHigh, SignEx, OnlyRegs;
    var split, high: Half := SplitAccess(op, rt, rs, v), CarriedHigh(v);
    CodeAtIndex(code, k, split, 0);
    CodeAtIndex(code, k, split, 1);
    SplitSum(v, Seen(s, rs));
    NoBase(v);
    RunOneConst(base, code, k, s, high * 0x1_0000);
    WroteOnly(s, AT, high * 0x1_0000);
    var s1 := Wrote(s, AT, high * 0x1_0000);
    if rs == 0 {
      j, t := k + 1, s1;
      AtAddress(t, code[j], high * 0x1_0000);
    } else {
      CodeAtIndex(code, k, split, 2);
      var x: int := high * 0x1_0000;
      t := AddBase(base, code, k + 1, s, s1, rs, x);
      j := k + 2;
      AtAddress(t, code[j], Wrap(x + Seen(s, rs)));
    }
  }

  lemma AtAddress(t: State, i: Inst, x: Word)
    requires i.rs == AT && t.gpr[AT] == x
    ensures Address(Zeroed(t), i) == Wrap(x + SignEx(i.imm))
  {
    hide Wrap, SignEx;
  }

  /** `addu $at, $at, rs` */
  lemma AddBase(base: Word, code: seq<Inst>, k: nat, s: State, s1: State, rs: Reg, x: int) returns (t: State)
    requires Placed(base, code) && k < |code| && code[k] == RType(ADDU, AT, AT, rs) && rs != 0 && rs != AT
    requires s1.pc == AddrOf(base, k) && !s.exc && OnlyRegs(s, s1, {AT}) && s1.gpr[AT] == x
    ensures t.pc == AddrOf(base, k + 1) && OnlyRegs(s, t, {AT}) && t.gpr[AT] == Wrap(x + Seen(s, rs))
    ensures RunBlock(base, code, k, s1) == RunBlock(base, code, k + 1, t)
  {
    hide RunBlock, Wrap, Run1;
    AdduValue(s1, rs);
    var y: int := s1.gpr[AT];
    t := Next(Put(Zeroed(s1), AT, Wrap(y + s1.gpr[rs])));
    StepTo(base, code, k, s1, k + 1, t);
  }

  // ----- usw -----

  /** Only memory, `$at`, `$0` and PC differ. */
  ghost predicate OnlyMemory(s: State, t: State) {
    && t == s.(gpr := t.gpr, pc := t.pc, mem := t.mem)
    && forall r: Reg | r != 0 && r != AT :: t.gpr[r] == s.gpr[r]
  }

  lemma StoreHalf(base: Word, code: seq<Inst>, k: nat, op: Op, rt: Reg, rs: Reg, v: Word, s: State, addr: Word) returns (t: State)
    requires Placed(base, code) && CodeAt(code, k, Legal(op, rt, rs, v)) && s.pc == AddrOf(base, k) && !s.exc
    requires (op == SWL || op == SWR) && rs != AT && rt != AT && addr == Wrap(Seen(s, rs) + v) && Located(s.mem, addr)
    ensures t.pc == AddrOf(base, k + |Legal(op, rt, rs, v)|) && OnlyMemory(s, t)
    ensures t.mem == PartStored(s.mem, addr, Seen(s, rt), op == SWL)
    ensures RunBlock(base, code, k, s) == RunBlock(base, code, k + |Legal(op, rt, rs, v)|, t)
  {
    hide RunBlock, Run1, Legal, Wrap, PartStored, IsMem, Address, Locate;
    PartIsMem(op);
    var j, u := ReachAccess(base, code, k, op, rt, rs, v, s);
    RunPartStore(code[j], u, addr);
    t := Next(Zeroed(u).(mem := PartStored(u.mem, addr, Seen(u, rt), op == SWL)));
    StepTo(base, code, j, u, j + 1, t);
  }

  lemma SeenThrough(s: State, t: State, r: Reg)
    requires OnlyMemory(s, t) && r != AT
    ensures Seen(t, r) == Seen(s, r)
  {
  }

  lemma OnlyMemoryTrans(s: State, t: State, u: State)
    requires OnlyMemory(s, t) && OnlyMemory(t, u)
    ensures OnlyMemory(s, u)
  {
  }

  lemma CodeHalves(x: seq<Inst>, y: seq<Inst>)
    ensures CodeAt(x + y, 0, x) && CodeAt(x + y, |x|, y)
  {
  }

  /** The bytes `a` to `a + 3` for `offset(rs)`. */
  ghost predicate Reaches(s: State, rs: Reg, offset: Word, a: Word) {
    a == Wrap(Seen(s, rs) + offset) && a + 3 < TWO32 && Located(s.mem, a) && Located(s.mem, a + 3)
  }

  lemma ThreeUp(x: Word, offset: Word, a: Word)
    requires a == Wrap(x + offset) && a + 3 < TWO32
    ensures Wrap(x + Wrap(offset + 3)) == a + 3
  {
    hide Wrap;
    WrapAdd(offset + 3, x);
    WrapAdd(x + offset, 3);
    assert Wrap(a + 3) == a + 3 by { NoBase(a + 3); }
  }

  /** `usw rt, offset(rs)` for every 32-bit offset and every alignment: exactly the four bytes at
      base + offset change, to those of `rt`. */
  lemma UswStores(base: Word, rt: Reg, rs: Reg, offset: Word, s: State, a: Word) returns (t: State)
    requires rs != AT && rt != AT && s.pc == base && !s.exc && Reaches(s, rs, offset, a)
    requires Placed(base, Code(PairStmts((SWL, SWR), rt, rs, offset)))
    ensures var code := Code(PairStmts((SWL, SWR), rt, rs, offset));
            && t.pc == AddrOf(base, |code|) && OnlyMemory(s, t) && Wrote4(s.mem, t.mem, a, Seen(s, rt))
            && RunBlock(base, code, 0, s) == Reached(t)
  {
    hide RunBlock, Legal, Code, Wrap, PartStored, Wrote4, Locate, OnlyMemory;
    PairAssembles((SWL, SWR), rt, rs, offset);
    var x, y := Legal(SWL, rt, rs, Wrap(offset + 3)), Legal(SWR, rt, rs, offset);
    var code := x + y;
    CodeHalves(x, y);
    ThreeUp(Seen(s, rs), offset, a);
    UswBytes(s.mem, a, Seen(s, rt));
    var u := StoreHalf(base, code, 0, SWL, rt, rs, Wrap(offset + 3), s, a + 3);
    SeenThrough(s, u, rs);
    SeenThrough(s, u, rt);
    t := StoreRight(base, code, |x|, rt, rs, offset, s, u, a);
    BlockEnds(base, code, t);
  }

  lemma StoreRight(base: Word, code: seq<Inst>, k: nat, rt: Reg, rs: Reg, v: Word, s: State, u: State, a: Word) returns (t: State)
    requires Placed(base, code) && CodeAt(code, k, Legal(SWR, rt, rs, v)) && u.pc == AddrOf(base, k) && !s.exc && OnlyMemory(s, u)
    requires rs != AT && rt != AT && a == Wrap(Seen(u, rs) + v) && Located(u.mem, a)
    ensures t.pc == AddrOf(base, k + |Legal(SWR, rt, rs, v)|) && OnlyMemory(s, t)
    ensures t.mem == PartStored(u.mem, a, Seen(u, rt), false)
    ensures RunBlock(base, code, k, u) == RunBlock(base, code, k + |Legal(SWR, rt, rs, v)|, t)
  {
    hide RunBlock, Legal, Wrap, PartStored, Locate;
    t := StoreHalf(base, code, k, SWR, rt, rs, v, u, a);
    OnlyMemoryTrans(s, u, t);
  }

  // ----- ulw -----

  lemma LoadHalf(base: Word, code: seq<Inst>, k: nat, op: Op, rt: Reg, rs: Reg, v: Word, s: State, addr: Word) returns (t: State)
    requires Placed(base, code) && CodeAt(code, k, Legal(op, rt, rs, v)) && s.pc == AddrOf(base, k) && !s.exc
    requires (op == LWL || op == LWR) && rs != AT && rt != AT && addr == Wrap(Seen(s, rs) + v) && Located(s.mem, addr)
    ensures t.pc == AddrOf(base, k + |Legal(op, rt, rs, v)|) && OnlyRegs(s, t, {AT, rt})
    ensures t.gpr[rt] == if op == LWL then MergeLeft(WordAt(s.mem, addr), Seen(s, rt), addr % 4)
                         else MergeRight(WordAt(s.mem, addr), Seen(s, rt), addr % 4)
    ensures RunBlock(base, code, k, s) == RunBlock(base, code, k + |Legal(op, rt, rs, v)|, t)
  {
    hide RunBlock, Run1, Legal, Wrap, MergeLeft, MergeRight, WordAt, IsMem, Address, Locate;
    PartIsMem(op);
    var j, u := ReachAccess(base, code, k, op, rt, rs, v, s);
    RunPartLoad(code[j], u, addr);
    var x := if op == LWL then MergeLeft(WordAt(s.mem, addr), Seen(s, rt), addr % 4)
             else MergeRight(WordAt(s.mem, addr), Seen(s, rt), addr % 4);
    t := Wrote(u, rt, x);
    StepTo(base, code, j, u, j + 1, t);
  }

  /** `ulw rt, offset(rs)` for every 32-bit offset and every alignment, the destination not the base:
      `rt` gets the word whose bytes are at base + offset; nothing else changes but `$at`. */
  lemma UlwLoads(base: Word, rt: Reg, rs: Reg, offset: Word, s: State, a: Word, v: Word) returns (t: State)
    requires rs != AT && rt != AT && rt != 0 && rt != rs && s.pc == base && !s.exc && Reaches(s, rs, offset, a) && Holds4(s.mem, a, v)
    requires Placed(base, Code(PairStmts((LWL, LWR), rt, rs, offset)))
    ensures var code := Code(PairStmts((LWL, LWR), rt, rs, offset));
            && t.pc == AddrOf(base, |code|) && OnlyRegs(s, t, {AT, rt}) && t.gpr[rt] == v
            && RunBlock(base, code, 0, s) == Reached(t)
  {
    hide RunBlock, Legal, Code, Wrap, Locate, MergeLeft, MergeRight, WordAt, Holds4;
    PairAssembles((LWL, LWR), rt, rs, offset);
    var x, y := Legal(LWL, rt, rs, Wrap(offset + 3)), Legal(LWR, rt, rs, offset);
    var code := x + y;
    CodeHalves(x, y);
    ThreeUp(Seen(s, rs), offset, a);
    UlwLanes(s.mem, a, Seen(s, rt), v);
    var u := LoadHalf(base, code, 0, LWL, rt, rs, Wrap(offset + 3), s, a + 3);
    t := LoadHalf(base, code, |x|, LWR, rt, rs, offset, u, a);
    BlockEnds(base, code, t);
  }

  /** Storing with `usw` and loading back with `ulw`, wherever and however far: the same value. */
  lemma StoredIsLoaded(base: Word, base': Word, rt: Reg, rd: Reg, rs: Reg, offset: Word, s: State, a: Word) returns (t: State, u: State)
    requires rs != AT && rt != AT && rd != AT && rd != 0 && rd != rs && s.pc == base && !s.exc && Reaches(s, rs, offset, a)
    requires Placed(base, Code(PairStmts((SWL, SWR), rt, rs, offset))) && Placed(base', Code(PairStmts((LWL, LWR), rd, rs, offset)))
    ensures RunBlock(base, Code(PairStmts((SWL, SWR), rt, rs, offset)), 0, s) == Reached(t)
    ensures RunBlock(base', Code(PairStmts((LWL, LWR), rd, rs, offset)), 0, t.(pc := base')) == Reached(u)
    ensures u.gpr[rd] == Seen(s, rt)
  {
    hide RunBlock, Code, Wrap, Locate, ByteAt, Lane;
    t := UswStores(base, rt, rs, offset, s, a);
    ShapeLocates(s.mem, t.mem, a);
    ShapeLocates(s.mem, t.mem, a + 3);
    SeenThrough(s, t, rs);
    u := UlwLoads(base', rd, rs, offset, t.(pc := base'), a, Seen(s, rt));
  }
}
