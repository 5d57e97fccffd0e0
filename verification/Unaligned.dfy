/** The unaligned loads and stores: `usw` writes, and `ulw` reads, the four little-endian bytes
    at any byte address. */
module Unaligned {
  import opened Words
  import opened MemModel
  import opened ByteMap
  import opened Isa
  import opened Blocks
  import opened WideImmediates

  /** `m'` is `m` with the four bytes at `a` replaced by those of `b`. */
  ghost predicate Wrote4(m: Mem, m': Mem, a: Word, b: Word) {
    && SameLayout(m, m')
    && forall addr: Word :: ByteAt(m', addr) == if a <= addr < a + 4 then Some(Lane(b, addr - a)) else ByteAt(m, addr)
  }

  // ----- the four merges, lane by lane -----

  lemma MergeLeftLanes(word: Word, reg: Word, k: nat, j: nat)
    requires k < 4 && j < 4
    ensures Lane(MergeLeft(word, reg, k), j) == if j >= 3 - k then Lane(word, j - (3 - k)) else Lane(reg, j)
  {
    hide Lane, Join;
    var w0, w1, w2, w3 := Lane(word, 0), Lane(word, 1), Lane(word, 2), Lane(word, 3);
    var r0, r1, r2 := Lane(reg, 0), Lane(reg, 1), Lane(reg, 2);
    MergeLeftJoin(word, reg);
    JoinLanes(r0, r1, r2, w0);
    JoinLanes(r0, r1, w0, w1);
    JoinLanes(r0, w0, w1, w2);
  }

  lemma MergeLeftJoin(w: Word, r: Word)
    ensures MergeLeft(w, r, 0) == Join(Lane(r, 0), Lane(r, 1), Lane(r, 2), Lane(w, 0))
    ensures MergeLeft(w, r, 1) == Join(Lane(r, 0), Lane(r, 1), Lane(w, 0), Lane(w, 1))
    ensures MergeLeft(w, r, 2) == Join(Lane(r, 0), Lane(w, 0), Lane(w, 1), Lane(w, 2))
  {
    Halves(w);
    Halves(r);
  }

  lemma MergeRightLanes(word: Word, reg: Word, k: nat, j: nat)
    requires k < 4 && j < 4
    ensures Lane(MergeRight(word, reg, k), j) == if j < 4 - k then Lane(word, j + k) else Lane(reg, j)
  {
    hide Lane, Join;
    var w1, w2, w3 := Lane(word, 1), Lane(word, 2), Lane(word, 3);
    var r1, r2, r3 := Lane(reg, 1), Lane(reg, 2), Lane(reg, 3);
    MergeRightJoin(word, reg);
    JoinLanes(w1, w2, w3, r3);
    JoinLanes(w2, w3, r2, r3);
    JoinLanes(w3, r1, r2, r3);
  }

  lemma MergeRightJoin(w: Word, r: Word)
    ensures MergeRight(w, r, 1) == Join(Lane(w, 1), Lane(w, 2), Lane(w, 3), Lane(r, 3))
    ensures MergeRight(w, r, 2) == Join(Lane(w, 2), Lane(w, 3), Lane(r, 2), Lane(r, 3))
    ensures MergeRight(w, r, 3) == Join(Lane(w, 3), Lane(r, 1), Lane(r, 2), Lane(r, 3))
  {
    Halves(w);
    Halves(r);
  }

  lemma SpillLeftLanes(word: Word, reg: Word, k: nat, j: nat)
    requires k < 4 && j < 4
    ensures Lane(SpillLeft(word, reg, k), j) == if j <= k then Lane(reg, 3 - k + j) else Lane(word, j)
  {
    hide Lane, Join;
    SpillMerge(word, reg);
    if k < 3 {
      MergeRightLanes(reg, word, 3 - k, j);
    }
  }

  lemma SpillRightLanes(word: Word, reg: Word, k: nat, j: nat)
    requires k < 4 && j < 4
    ensures Lane(SpillRight(word, reg, k), j) == if j >= k then Lane(reg, j - k) else Lane(word, j)
  {
    hide Lane, Join;
    SpillMerge(word, reg);
    if k > 0 {
      MergeLeftLanes(reg, word, 3 - k, j);
    }
  }

  /** A store merge is the opposite load merge with the word and the register exchanged. */
  lemma SpillMerge(w: Word, r: Word)
    ensures forall k: nat | k < 4 :: SpillLeft(w, r, k) == MergeRight(r, w, 3 - k)
    ensures forall k: nat | k < 4 :: SpillRight(w, r, k) == MergeLeft(r, w, 3 - k)
  {
  }

  // ----- one partial store -----

  lemma WordReads(m: Mem, cause: Word, addr: Word)
    requires Located(m, addr) && addr % 4 == 0
    ensures var loc := Locate(m, addr);
            Read(m, cause, W, addr) == Done(m, cause, SegWords(m, loc.seg)[loc.off / 4])
  {
  }

  lemma WordWrites(m: Mem, cause: Word, addr: Word, v: Word)
    requires Located(m, addr) && addr % 4 == 0
    ensures var loc := Locate(m, addr);
            Write(m, cause, W, addr, v) == Done(SetWord(m, loc.seg, loc.off / 4, v), cause, 0)
  {
  }

  /** Memory after `swl` (`left`) or `swr` of `reg` at `addr`. */
  function PartStored(m: Mem, addr: Word, reg: Word, left: bool): Mem
    requires Located(m, addr)
  {
    var loc := Locate(m, addr);
    var word := WordAt(m, addr);
    SetWord(m, loc.seg, loc.off / 4,
            if left then SpillLeft(word, reg, addr % 4) else SpillRight(word, reg, addr % 4))
  }

  /** `swl` writes the bytes of its word up to its address, `swr` those from its address on. */
  lemma PartStoredBytes(m: Mem, a: Word, reg: Word, left: bool, addr: Word)
    requires a + 3 < TWO32
    requires Located(m, if left then a + 3 else a)
    ensures var at := if left then a + 3 else a;
            var m' := PartStored(m, at, reg, left);
            && SameLayout(m, m')
            && ByteAt(m', addr) ==
               if addr - addr % 4 == at - at % 4 && (if left then addr <= at else addr >= at)
               then Some(Lane(reg, addr - a)) else ByteAt(m, addr)
  {
    hide Lane, SpillLeft, SpillRight;
    var at := if left then a + 3 else a;
    var word := WordAt(m, at);
    var v := if left then SpillLeft(word, reg, at % 4) else SpillRight(word, reg, at % 4);
    SetWordBytes(m, at, v, addr);
    if addr - addr % 4 == at - at % 4 {
      WordBytes(m, at, addr);
      if left {
        SpillLeftLanes(word, reg, at % 4, addr % 4);
      } else {
        SpillRightLanes(word, reg, at % 4, addr % 4);
      }
    }
  }

  lemma UnchangedCause(s: State)
    ensures s.(mem := s.mem, cp0 := s.cp0[CAUSE := s.cp0[CAUSE]]) == s
  {
    assert s.cp0[CAUSE := s.cp0[CAUSE]] == s.cp0;
  }

  lemma FetchWord(s: State, addr: Word)
    requires Located(s.mem, addr)
    ensures Fetch(s, W, addr - addr % 4) == Fetched(s, WordAt(s.mem, addr))
  {
    LocateWord(s.mem, addr);
    WordReads(s.mem, s.cp0[CAUSE], addr - addr % 4);
    UnchangedCause(s);
  }

  lemma RunPartStore(i: Inst, s: State, addr: Word)
    requires (i.op == SWL || i.op == SWR) && addr == Address(Zeroed(s), i) && Located(s.mem, addr)
    ensures Run1(i, s) == Some(Next(Zeroed(s).(mem := PartStored(s.mem, addr, Seen(s, i.rt), i.op == SWL))))
  {
    hide Exec, ExecStore, Wrap, Address, Located, PartStored, Zeroed;
    var z := Zeroed(s);
    assert z.mem == s.mem && z.gpr[i.rt] == Seen(s, i.rt) by { ZeroedParts(s, i.rt); }
    ExecIsStore(i, z);
    ExecPartStore(i, z, addr);
  }

  lemma ZeroedParts(s: State, r: Reg)
    ensures Zeroed(s).mem == s.mem && Zeroed(s).gpr[r] == Seen(s, r)
  {
  }

  lemma ExecIsStore(i: Inst, z: State)
    requires i.op == SWL || i.op == SWR
    ensures Exec(i, z) == ExecStore(i, z)
  {
    hide ExecStore;
  }

  lemma ExecPartStore(i: Inst, z: State, addr: Word)
    requires (i.op == SWL || i.op == SWR) && addr == Address(z, i) && Located(z.mem, addr)
    ensures ExecStore(i, z) == Plain(z.(mem := PartStored(z.mem, addr, z.gpr[i.rt], i.op == SWL)))
  {
    hide Fetch, SpillLeft, SpillRight, Wrap, Address, Locate, Write, SetWord;
    FetchWord(z, addr);
    LocateWord(z.mem, addr);
    var word := WordAt(z.mem, addr);
    var v := if i.op == SWL then SpillLeft(word, z.gpr[i.rt], addr % 4) else SpillRight(word, z.gpr[i.rt], addr % 4);
    WordWrites(z.mem, z.cp0[CAUSE], addr - addr % 4, v);
    UnchangedCause(z);
  }

  /** The two instructions of `usw` and `ulw`, at the byte addresses `a + 3` and `a`. */
  ghost predicate IsPair(left: Inst, right: Inst, ops: (Op, Op), s: State, a: Word) {
    && left.op == ops.0 && right.op == ops.1 && left.rt == right.rt
    && a + 3 < TWO32 && Address(Zeroed(s), left) == a + 3 && Address(Zeroed(s), right) == a
    && Located(s.mem, a) && Located(s.mem, a + 3)
  }

  /** `usw` at any alignment: exactly the four bytes from `a` change, to the little-endian bytes of
      the register; registers and processor state stay. */
  lemma UswWrites(left: Inst, right: Inst, s: State, a: Word) returns (s': State)
    requires IsPair(left, right, (SWL, SWR), s, a)
    ensures s' == Zeroed(s).(mem := s'.mem, pc := Wrap(s.pc + 8))
    ensures Wrote4(s.mem, s'.mem, a, Seen(s, left.rt))
    ensures var s1 := Run1(left, s); s1.Some? && Run1(right, s1.value) == Some(s')
  {
    hide Run1, PartStored, Wrap, Wrote4, Address, Locate;
    var reg := Seen(s, left.rt);
    RunPartStore(left, s, a + 3);
    var m1 := PartStored(s.mem, a + 3, reg, true);
    UswBytes(s.mem, a, reg);
    s' := SecondStore(right, s, Next(Zeroed(s).(mem := m1)), a);
  }

  lemma SecondStore(i: Inst, s: State, s1: State, a: Word) returns (s': State)
    requires i.op == SWR && Address(Zeroed(s), i) == a && s1 == Next(Zeroed(s).(mem := s1.mem)) && Located(s1.mem, a)
    ensures s' == Zeroed(s).(mem := PartStored(s1.mem, a, Seen(s, i.rt), false), pc := Wrap(s.pc + 8))
    ensures Run1(i, s1) == Some(s')
  {
    hide Run1, PartStored, Wrap, Address, Located, Zeroed, Next;
    ghost var mem := PartStored(s1.mem, a, Seen(s, i.rt), false);
    assert s1.gpr == Zeroed(s).gpr && Next(Zeroed(s1).(mem := mem)) == Zeroed(s).(mem := mem, pc := Wrap(s.pc + 8)) by {
      NextTwice(s, s1, mem);
    }
    SameAddress(i, s, s1);
    RunPartStore(i, s1, a);
    s' := Zeroed(s).(mem := mem, pc := Wrap(s.pc + 8));
  }

  lemma NextTwice(s: State, s1: State, mem: Mem)
    requires s1 == Next(Zeroed(s).(mem := s1.mem))
    ensures s1.gpr == Zeroed(s).gpr && Next(Zeroed(s1).(mem := mem)) == Zeroed(s).(mem := mem, pc := Wrap(s.pc + 8))
  {
    hide Wrap;
    assert Zeroed(s1).gpr == Zeroed(s).gpr;
    TwoNexts(s.pc);
  }

  lemma TwoNexts(pc: Word)
    ensures Wrap(Wrap(pc + 4) + 4) == Wrap(pc + 8)
  {
  }

  lemma SameAddress(i: Inst, s: State, s1: State)
    requires s1.gpr == Zeroed(s).gpr
    ensures Address(Zeroed(s1), i) == Address(Zeroed(s), i) && Seen(s1, i.rt) == Seen(s, i.rt)
  {
    hide Wrap;
    assert Zeroed(s1).gpr == Zeroed(s).gpr;
  }

  lemma UswBytes(m: Mem, a: Word, reg: Word)
    requires a + 3 < TWO32 && Located(m, a) && Located(m, a + 3)
    ensures var m1 := PartStored(m, a + 3, reg, true);
            Located(m1, a) && Wrote4(m, PartStored(m1, a, reg, false), a, reg)
  {
    hide Lane, PartStored, Locate, ByteAt;
    var m1 := PartStored(m, a + 3, reg, true);
    PartStoredBytes(m, a, reg, true, a);
    ShapeLocates(m, m1, a);
    PartStoredBytes(m1, a, reg, false, a);
    var m2 := PartStored(m1, a, reg, false);
    forall addr: Word
      ensures ByteAt(m2, addr) == if a <= addr < a + 4 then Some(Lane(reg, addr - a)) else ByteAt(m, addr)
    {
      PartStoredBytes(m, a, reg, true, addr);
      PartStoredBytes(m1, a, reg, false, addr);
    }
  }

  // ----- unaligned load -----

  lemma RunPartLoad(i: Inst, s: State, addr: Word)
    requires (i.op == LWL || i.op == LWR) && addr == Address(Zeroed(s), i) && Located(s.mem, addr) && !s.exc
    ensures var word, reg := WordAt(s.mem, addr), Seen(s, i.rt);
            Run1(i, s) == Some(Wrote(s, i.rt, if i.op == LWL then MergeLeft(word, reg, addr % 4)
                                              else MergeRight(word, reg, addr % 4)))
  {
    hide MergeLeft, MergeRight, Wrap, ExecLoad, WordAt, Exec, Locate, Address;
    ExecPartLoad(i, Zeroed(s), addr);
    ExecIsLoad(i, Zeroed(s));
  }

  lemma ExecIsLoad(i: Inst, z: State)
    requires i.op == LWL || i.op == LWR
    ensures Exec(i, z) == ExecLoad(i, z)
  {
    hide ExecLoad;
  }

  lemma ExecPartLoad(i: Inst, z: State, addr: Word)
    requires (i.op == LWL || i.op == LWR) && addr == Address(z, i) && Located(z.mem, addr) && !z.exc
    ensures var word, reg := WordAt(z.mem, addr), z.gpr[i.rt];
            ExecLoad(i, z) == Effect(z, Some(Load(i.rt, if i.op == LWL then MergeLeft(word, reg, addr % 4)
                                                        else MergeRight(word, reg, addr % 4))))
  {
    hide Fetch, MergeLeft, MergeRight, Address, WordAt, Locate;
    FetchWord(z, addr);
  }

  /** The word whose little-endian bytes are at `a`. */
  ghost predicate Holds4(m: Mem, a: Word, v: Word) {
    a + 3 < TWO32 && forall j: nat | j < 4 :: ByteAt(m, a + j) == Some(Lane(v, j))
  }

  lemma UlwLanes(m: Mem, a: Word, reg: Word, v: Word)
    requires Holds4(m, a, v) && Located(m, a) && Located(m, a + 3)
    ensures MergeRight(WordAt(m, a), MergeLeft(WordAt(m, a + 3), reg, (a + 3) % 4), a % 4) == v
  {
    hide Lane, MergeLeft, MergeRight, Locate, WordAt, ByteAt;
    var high := MergeLeft(WordAt(m, a + 3), reg, (a + 3) % 4);
    var r := MergeRight(WordAt(m, a), high, a % 4);
    forall j: nat | j < 4 ensures Lane(r, j) == Lane(v, j) {
      MergeRightLanes(WordAt(m, a), high, a % 4, j);
      MergeLeftLanes(WordAt(m, a + 3), reg, (a + 3) % 4, j);
      assert ByteAt(m, a + j) == Some(Lane(v, j));
      if j < 4 - a % 4 {
        WordBytes(m, a, a + j);
      } else {
        WordBytes(m, a + 3, a + j);
      }
    }
    SameLanes(r, v);
  }

  lemma SameLanes(v: Word, w: Word)
    requires forall j: nat | j < 4 :: Lane(v, j) == Lane(w, j)
    ensures v == w
  {
    hide Lane, Join;
    LanesJoin(v);
    LanesJoin(w);
  }

  /** `ulw` at any alignment, the destination not the base: the register gets the word whose four
      bytes are at `a`; nothing else changes. */
  lemma UlwReads(left: Inst, right: Inst, s: State, a: Word, v: Word) returns (s': State)
    requires IsPair(left, right, (LWL, LWR), s, a) && !s.exc && left.rt != 0 && right.rs != left.rt
    requires Holds4(s.mem, a, v)
    ensures OnlyRegs(s, s', {left.rt}) && s'.gpr[left.rt] == v && s'.pc == Wrap(s.pc + 8)
    ensures var s1 := Run1(left, s); s1.Some? && Run1(right, s1.value) == Some(s')
  {
    hide Run1, Lane, Wrap, Locate, Address, MergeLeft, MergeRight, WordAt, Holds4, OnlyRegs, Wrote;
    var rt := left.rt;
    RunPartLoad(left, s, a + 3);
    var high := MergeLeft(WordAt(s.mem, a + 3), Seen(s, rt), (a + 3) % 4);
    UlwLanes(s.mem, a, Seen(s, rt), v);
    s' := SecondLoad(right, s, high, a);
  }

  lemma SecondLoad(i: Inst, s: State, high: Word, a: Word) returns (s': State)
    requires i.op == LWR && Address(Zeroed(s), i) == a && Located(s.mem, a) && i.rs != i.rt && i.rt != 0 && !s.exc
    ensures OnlyRegs(s, s', {i.rt}) && s'.gpr[i.rt] == MergeRight(WordAt(s.mem, a), high, a % 4) && s'.pc == Wrap(s.pc + 8)
    ensures Run1(i, Wrote(s, i.rt, high)) == Some(s')
  {
    hide Run1, Wrap, Address, Located, MergeRight, WordAt;
    BaseKept(i, s, i.rt, high);
    RunPartLoad(i, Wrote(s, i.rt, high), a);
    s' := Wrote(Wrote(s, i.rt, high), i.rt, MergeRight(WordAt(s.mem, a), high, a % 4));
    TwoNexts(s.pc);
  }

  lemma BaseKept(i: Inst, s: State, rt: Reg, x: Word)
    requires i.rs != rt
    ensures Address(Zeroed(Wrote(s, rt, x)), i) == Address(Zeroed(s), i)
  {
    hide Wrap;
  }

  /** Storing a register with `usw` and loading it back with `ulw` gives the same value. */
  lemma UnalignedRoundTrip(store: (Inst, Inst), load: (Inst, Inst), s: State, a: Word) returns (s': State, s'': State)
    requires IsPair(store.0, store.1, (SWL, SWR), s, a) && !s.exc
    requires IsPair(load.0, load.1, (LWL, LWR), s, a) && load.0.rt != 0 && load.1.rs != load.0.rt
    ensures s''.gpr[load.0.rt] == Seen(s, store.0.rt)
    ensures OnlyRegs(s', s'', {load.0.rt}) && Wrote4(s.mem, s''.mem, a, Seen(s, store.0.rt))
    ensures var s1 := Run1(store.0, s); s1.Some? && Run1(store.1, s1.value) == Some(s')
    ensures var s1 := Run1(load.0, s'); s1.Some? && Run1(load.1, s1.value) == Some(s'')
  {
    hide Run1, Lane, Wrap, Locate, Address, ByteAt;
    s' := UswWrites(store.0, store.1, s, a);
    ShapeLocates(s.mem, s'.mem, a);
    ShapeLocates(s.mem, s'.mem, a + 3);
    SameAddress(load.0, s, s');
    SameAddress(load.1, s, s');
    s'' := UlwReads(load.0, load.1, s', a, Seen(s, store.0.rt));
  }
}
