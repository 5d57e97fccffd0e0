/** Memory as a map from addresses to bytes, and the three access widths as views of it. */
module ByteMap {
  import opened Words
  import opened MemModel

  // ----- memory as a map from addresses to bytes -----

  /** The byte at an address of the data, stack or kernel data segment. */
  function ByteAt(m: Mem, addr: Word): Option<Byte> {
    var loc := Locate(m, addr);
    if loc.At? then Some(Lane(SegWords(m, loc.seg)[loc.off / 4], loc.off % 4)) else None
  }

  /** Two memories that differ in segment contents only. */
  ghost predicate SameLayout(m: Mem, m': Mem) {
    && m' == m.(data := m'.data, stack := m'.stack, kdata := m'.kdata)
    && |m'.data| == |m.data| && |m'.stack| == |m.stack| && |m'.kdata| == |m.kdata|
  }

  ghost predicate Located(m: Mem, addr: Word) {
    Locate(m, addr).At?
  }

  lemma LocateWord(m: Mem, addr: Word)
    requires Located(m, addr)
    ensures var loc, start := Locate(m, addr), Locate(m, addr - addr % 4);
            start.At? && start.seg == loc.seg && start.off == loc.off - addr % 4 && start.off % 4 == 0
  {
  }

  /** Addresses in the same word are lanes of the same segment word; others are elsewhere. */
  lemma SameWord(m: Mem, a: Word, b: Word)
    requires Located(m, a) && Located(m, b)
    ensures var p, q := Locate(m, a), Locate(m, b);
            a - a % 4 == b - b % 4 <==> p.seg == q.seg && p.off / 4 == q.off / 4
  {
  }

  function WordAt(m: Mem, addr: Word): Word
    requires Located(m, addr)
  {
    var loc := Locate(m, addr);
    SegWords(m, loc.seg)[loc.off / 4]
  }

  lemma WordBytes(m: Mem, at: Word, addr: Word)
    requires Located(m, at) && addr - addr % 4 == at - at % 4
    ensures ByteAt(m, addr) == Some(Lane(WordAt(m, at), addr % 4))
  {
    hide Lane;
    LocateWord(m, at);
    assert Locate(m, addr).At?;
    SameWord(m, at, addr);
  }

  lemma ShapeLocates(m: Mem, m': Mem, a: Word)
    requires SameLayout(m, m')
    ensures Locate(m', a) == Locate(m, a)
  {
  }

  lemma SetWordBytes(m: Mem, start: Word, v: Word, addr: Word)
    requires Located(m, start)
    ensures var loc := Locate(m, start);
            var m' := SetWord(m, loc.seg, loc.off / 4, v);
            && SameLayout(m, m')
            && ByteAt(m', addr) == if addr - addr % 4 == start - start % 4 then Some(Lane(v, addr % 4)) else ByteAt(m, addr)
  {
    hide Lane;
    var loc := Locate(m, start);
    var m' := SetWord(m, loc.seg, loc.off / 4, v);
    assert Locate(m', addr) == Locate(m, addr);
    if Located(m, addr) {
      SameWord(m, start, addr);
    } else {
      assert addr - addr % 4 != start - start % 4;
    }
  }

  /** The lower parts of a word in terms of its lanes. */
  lemma Halves(w: Word)
    ensures w % 0x1_0000 == Lane(w, 0) + 0x100 * Lane(w, 1)
    ensures w % 0x100_0000 == Lane(w, 0) + 0x100 * Lane(w, 1) + 0x1_0000 * Lane(w, 2)
    ensures w / 0x100 == Lane(w, 1) + 0x100 * Lane(w, 2) + 0x1_0000 * Lane(w, 3)
    ensures w / 0x1_0000 == Lane(w, 2) + 0x100 * Lane(w, 3)
    ensures w / 0x100_0000 == Lane(w, 3)
  {
    LanesJoin(w);
  }

  // ----- accesses of every width -----

  function SizeOf(w: Width): nat {
    match w case B => 1 case H => 2 case W => 4
  }

  /** The bytes at `addr` are all in memory. */
  ghost predicate Covered(m: Mem, addr: Word, w: Width) {
    addr + SizeOf(w) <= TWO32 && forall a: Word | addr <= a < addr + SizeOf(w) :: ByteAt(m, a).Some?
  }

  /** The value of the bytes at `addr`, sign-extended. */
  function Assembled(m: Mem, addr: Word, w: Width): Word
    requires Covered(m, addr, w)
  {
    match w
    case B => SignExByte(ByteAt(m, addr).value)
    case H => SignEx(ByteAt(m, addr).value + 0x100 * ByteAt(m, addr + 1).value)
    case W => Join(ByteAt(m, addr).value, ByteAt(m, addr + 1).value, ByteAt(m, addr + 2).value, ByteAt(m, addr + 3).value)
  }

  /** An aligned access lies in one word. */
  lemma AlignedBytes(m: Mem, addr: Word, w: Width, k: nat)
    requires Located(m, addr) && Aligned(w, addr % 4) && k < SizeOf(w)
    ensures addr + k < TWO32 && addr % 4 + k < 4 && ByteAt(m, addr + k) == Some(Lane(WordAt(m, addr), addr % 4 + k))
  {
    hide Lane, Locate;
    assert addr % 4 + SizeOf(w) <= 4;
    assert (addr + k) % 4 == addr % 4 + k;
    WordBytes(m, addr, addr + k);
  }

  lemma AlignedCovered(m: Mem, addr: Word, w: Width)
    requires Located(m, addr) && Aligned(w, addr % 4)
    ensures Covered(m, addr, w)
  {
    hide ByteAt, Locate;
    AlignedBytes(m, addr, w, SizeOf(w) - 1);
    forall a: Word | addr <= a < addr + SizeOf(w) ensures ByteAt(m, a).Some? {
      AlignedBytes(m, addr, w, a - addr);
    }
  }

  /** A read of any width returns the bytes of the map and changes nothing. */
  lemma ReadRefines(m: Mem, cause: Word, w: Width, addr: Word)
    requires Located(m, addr) && Aligned(w, addr % 4)
    ensures Covered(m, addr, w) && Read(m, cause, w, addr) == Done(m, cause, Assembled(m, addr, w))
  {
    hide Lane, Join, SignEx, SignExByte, ByteAt;
    AlignedCovered(m, addr, w);
    AlignedBytes(m, addr, w, 0);
    if w != B {
      AlignedBytes(m, addr, w, 1);
    }
    if w == W {
      AlignedBytes(m, addr, w, 2);
      AlignedBytes(m, addr, w, 3);
    }
    LanesJoin(WordAt(m, addr));
  }

  /** `m'` is `m` with the bytes of `value` at `addr`, and no other byte changed. */
  ghost predicate BytesSet(m: Mem, m': Mem, addr: Word, w: Width, value: Word) {
    && SameLayout(m, m')
    && forall a: Word :: ByteAt(m', a) ==
                         if addr <= a < addr + SizeOf(w) then Some(Lane(value, a - addr)) else ByteAt(m, a)
  }

  lemma WithLaneLanes(word: Word, k: nat, b: Byte, j: nat)
    requires k < 4 && j < 4
    ensures Lane(WithLane(word, k, b), j) == if j == k then b else Lane(word, j)
  {
    hide Lane, Join;
    JoinLanes(if k == 0 then b else Lane(word, 0), if k == 1 then b else Lane(word, 1),
              if k == 2 then b else Lane(word, 2), if k == 3 then b else Lane(word, 3));
  }

  lemma WriteSegLanes(word: Word, off: nat, w: Width, value: Word, j: nat)
    requires Aligned(w, off % 4) && j < 4
    ensures Lane(WriteSeg(word, off, w, value), j) ==
            if off % 4 <= j < off % 4 + SizeOf(w) then Lane(value, j - off % 4) else Lane(word, j)
  {
    hide WithLane;
    WithLaneLanes(word, off % 4, value % 0x100, j);
    if w == H {
      WithLaneLanes(WithLane(word, off % 4, value % 0x100), off % 4 + 1, value / 0x100 % 0x100, j);
    }
  }

  lemma StoreBytes(m: Mem, addr: Word, w: Width, value: Word)
    requires Located(m, addr) && Aligned(w, addr % 4)
    ensures BytesSet(m, Store(m, Locate(m, addr), w, value), addr, w, value)
  {
    hide Lane, WriteSeg, ByteAt, SetWord, Locate;
    var loc := Locate(m, addr);
    var v := WriteSeg(WordAt(m, addr), loc.off, w, value);
    var m' := Store(m, loc, w, value);
    forall a: Word
      ensures SameLayout(m, m')
      ensures ByteAt(m', a) == if addr <= a < addr + SizeOf(w) then Some(Lane(value, a - addr)) else ByteAt(m, a)
    {
      SetWordBytes(m, addr, v, a);
      WriteSegLanes(WordAt(m, addr), loc.off, w, value, a % 4);
      if a - a % 4 == addr - addr % 4 {
        WordBytes(m, addr, a);
      }
    }
    assert SameLayout(m, m') by { SetWordBytes(m, addr, v, 0); }
  }

  /** A write of any width sets exactly its bytes. */
  lemma WriteRefines(m: Mem, cause: Word, w: Width, addr: Word, value: Word)
    requires Located(m, addr) && Aligned(w, addr % 4)
    ensures var r := Write(m, cause, w, addr, value);
            r.Done? && r.cause == cause && BytesSet(m, r.mem, addr, w, value)
  {
    hide Store, BytesSet, InStackGap, WriteIo, ExpandStack;
    StoreBytes(m, addr, w, value);
  }

  // ----- stack growth -----

  /** Growth by `addl` bytes: every byte stays, the new ones are zero. */
  lemma GrowthKeepsBytes(m: Mem, addl: nat, m': Mem, a: Word)
    requires m.Valid() && ExpandStack(m, addl) == Some(m')
    ensures m'.Valid() && m' == m.(stack := m'.stack) && m'.StackBot() <= m.StackBot() - addl
    ensures ByteAt(m', a) == if ByteAt(m, a).Some? then ByteAt(m, a)
                             else if m'.StackBot() <= a < STACK_TOP then Some(0) else None
  {
    hide Lane;
    assert Lane(0, 0) == 0 && Lane(0, 1) == 0 && Lane(0, 2) == 0 && Lane(0, 3) == 0 by { ZeroLanes(); }
    var extra := |m'.stack| - |m.stack|;
    assert m'.StackBot() == m.StackBot() - 4 * extra;
    if m'.StackBot() <= a < STACK_TOP && !(DATA_BOT <= a < m.DataTop()) {
      StackByte(m, m', extra, a);
    }
  }

  lemma ZeroLanes()
    ensures Lane(0, 0) == 0 && Lane(0, 1) == 0 && Lane(0, 2) == 0 && Lane(0, 3) == 0
  {
  }

  lemma StackByte(m: Mem, m': Mem, extra: nat, a: Word)
    requires m' == m.(stack := seq(extra, _ => 0) + m.stack) && m'.StackBot() <= a < STACK_TOP
    ensures var off := a - m'.StackBot();
            off / 4 < |m'.stack| &&
            if m.StackBot() <= a
            then (a - m.StackBot()) / 4 == off / 4 - extra && (a - m.StackBot()) % 4 == off % 4
                 && m'.stack[off / 4] == m.stack[(a - m.StackBot()) / 4]
            else m'.stack[off / 4] == 0
  {
    var off := a - m'.StackBot();
    assert off / 4 < |m'.stack|;
  }

  /** An access in the gap below the stack grows it over the whole accessed word: the bus error
      after growth cannot happen. */
  lemma GrowthCovers(m: Mem, addr: Word, m': Mem)
    requires m.Valid() && InStackGap(m, addr) && ExpandStack(m, m.StackBot() - addr + 4) == Some(m')
    ensures !Located(m, addr) ==> Located(m', addr) && Locate(m', addr) == InStack(m', addr)
    ensures m'.StackBot() <= addr
  {
  }

  /** The grown word is zero. */
  lemma GrownReadsZero(m: Mem, cause: Word, w: Width, addr: Word, m': Mem)
    requires m.Valid() && !Located(m, addr) && Aligned(w, addr % 4)
    requires InStackGap(m, addr) && ExpandStack(m, m.StackBot() - addr + 4) == Some(m')
    ensures Located(m', addr) && Read(m', cause, w, addr) == Done(m', cause, 0)
  {
    hide Locate, Lane, ExpandStack, Read, ByteAt, SignEx, SignExByte, Join;
    GrowthCovers(m, addr, m');
    ReadRefines(m', cause, w, addr);
    forall a: Word | addr <= a < addr + SizeOf(w) ensures ByteAt(m', a) == Some(0) {
      UnlocatedWord(m, addr, a);
      GrowthKeepsBytes(m, m.StackBot() - addr + 4, m', a);
      AlignedBytes(m', addr, w, a - addr);
    }
    ZeroValues();
  }

  lemma ZeroValues()
    ensures SignEx(0) == 0 && SignExByte(0) == 0 && Join(0, 0, 0, 0) == 0
  {
  }

  lemma UnlocatedWord(m: Mem, addr: Word, a: Word)
    requires !Located(m, addr) && a - a % 4 <= addr < a - a % 4 + 4
    ensures !Located(m, a) && ByteAt(m, a) == None
  {
  }

  ghost predicate InText(m: Mem, addr: Word) {
    TEXT_BOT <= addr < m.textTop
  }

  /** The access would grow the stack: between data and stack, less than 16 MB below the stack. */
  ghost predicate BelowStack(m: Mem, addr: Word) {
    && 0x1000_0000 + 4 * |m.data| < addr < 0x8000_0000 - 4 * |m.stack|
    && 0x8000_0000 - 4 * |m.stack| - addr < 0x100_0000
  }

  /** The stack in bytes after growing down to `addr`: twice the size, or as far as needed. */
  ghost function StackAfter(m: Mem, addr: Word): int {
    var size, need := 4 * |m.stack|, (0x8000_0000 - 4 * |m.stack| - addr + 4 + 3) / 4 * 4;
    size + if need > size then need else size
  }

  lemma AfterIs(m: Mem, addr: Word)
    requires BelowStack(m, addr)
    ensures GrownSize(m, m.StackBot() - addr + 4) == StackAfter(m, addr)
  {
  }

  lemma GapIff(m: Mem, addr: Word)
    requires m.Valid()
    ensures InStackGap(m, addr) <==> BelowStack(m, addr)
  {
  }

  /** A read that grows the stack returns what reading again returns; it fails only at the limit. */
  lemma GrowingRead(m: Mem, cause: Word, w: Width, addr: Word)
    requires m.Valid() && !Located(m, addr) && Aligned(w, addr % 4) && BelowStack(m, addr) && !InText(m, addr)
    ensures var r := Read(m, cause, w, addr);
            && (r.Abort? <==> StackAfter(m, addr) > m.stackLimit)
            && (!r.Abort? ==> r.Done? && r.value == 0 && Read(r.mem, cause, w, addr) == r)
  {
    hide GrownSize, Locate, ReadSeg, Wrap, InStackGap, StackAfter;
    GapIff(m, addr);
    assert GrownSize(m, m.StackBot() - addr + 4) == StackAfter(m, addr) by { AfterIs(m, addr); }
    var grown := ExpandStack(m, m.StackBot() - addr + 4);
    assert Read(m, cause, w, addr) == match grown case Some(m') => Done(m', cause, 0) case None => Abort;
    if grown.Some? {
      GrownReadsZero(m, cause, w, addr, grown.value);
    }
  }

  /** A write that grows the stack always finds its address: it stores into the grown segment. */
  lemma GrowingWrite(m: Mem, cause: Word, w: Width, addr: Word, value: Word)
    requires m.Valid() && !Located(m, addr) && Aligned(w, addr % 4) && BelowStack(m, addr) && !InText(m, addr)
    ensures var r, grown := Write(m, cause, w, addr, value), ExpandStack(m, m.StackBot() - addr + 4);
            && (r.Abort? <==> grown.None?)
            && (grown.Some? ==> r.Done? && r.cause == cause && BytesSet(grown.value, r.mem, addr, w, value))
  {
    hide ExpandStack, Store, BytesSet, Wrap, InStackGap;
    GapIff(m, addr);
    var grown := ExpandStack(m, m.StackBot() - addr + 4);
    if grown.Some? {
      GrowthCovers(m, addr, grown.value);
      StoreBytes(grown.value, addr, w, value);
    }
  }

  // ----- every address -----

  /** The segments: data from 0x10000000 up, the stack below 0x80000000, kernel data from 0x90000000
      up; and each byte is that of its word, least significant first. */
  lemma LocatedIff(m: Mem, addr: Word)
    ensures Located(m, addr) <==> || 0x1000_0000 <= addr < 0x1000_0000 + 4 * |m.data|
                                  || 0x8000_0000 - 4 * |m.stack| <= addr < 0x8000_0000
                                  || 0x9000_0000 <= addr < 0x9000_0000 + 4 * |m.kdata|
  {
  }

  lemma SegmentBytes(m: Mem, addr: Word, i: nat, k: nat)
    requires m.DataTop() <= m.StackBot() && k < 4
    ensures i < |m.data| && addr == 0x1000_0000 + 4 * i + k ==> ByteAt(m, addr) == Some(Lane(m.data[i], k))
    ensures i < |m.stack| && addr == 0x8000_0000 - 4 * |m.stack| + 4 * i + k ==> ByteAt(m, addr) == Some(Lane(m.stack[i], k))
    ensures i < |m.kdata| && addr == 0x9000_0000 + 4 * i + k ==> ByteAt(m, addr) == Some(Lane(m.kdata[i], k))
  {
    hide Lane;
  }

  /** `m'` is `m` with a stack of that size, old words on top of zeros. */
  ghost predicate StackGrown(m: Mem, m': Mem, addr: Word) {
    && m' == m.(stack := m'.stack)
    && 4 * |m'.stack| == StackAfter(m, addr) && |m.stack| <= |m'.stack|
    && (forall k | 0 <= k < |m.stack| :: m'.stack[|m'.stack| - |m.stack| + k] == m.stack[k])
    && (forall k | 0 <= k < |m'.stack| - |m.stack| :: m'.stack[k] == 0)
  }

  ghost predicate IsDevice(addr: Word) {
    addr == 0xffff_0000 || addr == 0xffff_0004 || addr == 0xffff_0008 || addr == 0xffff_000c
  }

  ghost predicate Misaligned(w: Width, addr: Word) {
    (w == H && addr % 2 != 0) || (w == W && addr % 4 != 0)
  }

  /** What a read does at every address: address error, the bytes there, out of the model in text,
      growth or its failure below the stack, a device, bus error. */
  lemma ReadOutcome(m: Mem, cause: Word, w: Width, addr: Word)
    requires m.Valid()
    ensures var r := Read(m, cause, w, addr);
            if Misaligned(w, addr) then r == Fault(4)
            else if Located(m, addr) then Covered(m, addr, w) && r == Done(m, cause, Assembled(m, addr, w))
            else if 0x40_0000 <= addr < m.textTop then r == Abort
            else if BelowStack(m, addr) then
              if StackAfter(m, addr) > m.stackLimit then r == Abort
              else r.Done? && r.value == 0 && r.cause == cause && StackGrown(m, r.mem, addr)
            else if IsDevice(addr) then r.Done? && r.mem == m.(io := r.mem.io)
            else r == if addr >= 0xffff_0000 then Abort else Fault(7)
  {
    hide Read, Located, Assembled, Covered, ExpandStack, StackGrown, StackAfter, ReadIo, IsDevice, Aligned, Misaligned;
    DevicesAnswer(m.io, cause, addr, 0);
    MisalignedIff(w, addr);
    if Misaligned(w, addr) {
      ReadMisaligned(m, cause, w, addr, 0);
    } else if Located(m, addr) {
      ReadRefines(m, cause, w, addr);
    } else {
      ReadElsewhere(m, cause, w, addr);
      if BelowStack(m, addr) {
        GrownIs(m, addr);
      }
    }
  }

  /** What a write does at every address. */
  lemma WriteOutcome(m: Mem, cause: Word, w: Width, addr: Word, value: Word)
    requires m.Valid()
    ensures var r := Write(m, cause, w, addr, value);
            if Misaligned(w, addr) then r == Fault(5)
            else if Located(m, addr) then r.Done? && r.cause == cause && BytesSet(m, r.mem, addr, w, value)
            else if 0x40_0000 <= addr < m.textTop then r == Abort
            else if BelowStack(m, addr) then
              if StackAfter(m, addr) > m.stackLimit then r == Abort
              else && r.Done? && r.cause == cause
                   && exists grown: Mem :: StackGrown(m, grown, addr) && BytesSet(grown, r.mem, addr, w, value)
            else if IsDevice(addr) then r.Done? && r.mem == m.(io := r.mem.io)
            else r == if addr >= 0xffff_0000 then Abort else Fault(7)
  {
    hide Write, Located, BytesSet, ExpandStack, StackGrown, StackAfter, WriteIo, IsDevice, Aligned, Misaligned;
    DevicesAnswer(m.io, cause, addr, value);
    MisalignedIff(w, addr);
    if Misaligned(w, addr) {
      ReadMisaligned(m, cause, w, addr, value);
    } else if Located(m, addr) {
      WriteRefines(m, cause, w, addr, value);
    } else if BelowStack(m, addr) && !InText(m, addr) {
      GrownIs(m, addr);
      GrowingWrite(m, cause, w, addr, value);
    } else {
      WriteElsewhere(m, cause, w, addr, value);
    }
  }

  /** Four device addresses answer; any other above them stops the simulation. */
  lemma DevicesAnswer(io: Io, cause: Word, addr: Word, value: Word)
    ensures ReadIo(io, cause, addr).IoDone? <==> IsDevice(addr)
    ensures WriteIo(io, cause, addr, value).IoDone? <==> IsDevice(addr)
    ensures IsDevice(addr) ==> addr >= 0xffff_0000
  {
    hide RaiseInterrupt, ClearInterrupt;
  }

  lemma GrownIs(m: Mem, addr: Word)
    requires m.Valid() && BelowStack(m, addr)
    ensures var grown := ExpandStack(m, m.StackBot() - addr + 4);
            && (grown.None? <==> StackAfter(m, addr) > m.stackLimit)
            && (grown.Some? ==> StackGrown(m, grown.value, addr))
  {
    hide GrownSize, StackAfter;
    var size := StackAfter(m, addr);
    AfterIs(m, addr);
    WholeWords(m, addr);
    if size <= m.stackLimit {
      var grown := ExpandStack(m, m.StackBot() - addr + 4).value;
      assert |grown.stack| == size / 4;
    }
  }

  lemma WholeWords(m: Mem, addr: Word)
    requires BelowStack(m, addr)
    ensures StackAfter(m, addr) % 4 == 0 && StackAfter(m, addr) >= 4 * |m.stack|
  {
  }

  lemma MisalignedIff(w: Width, addr: Word)
    ensures Misaligned(w, addr) <==> !Aligned(w, addr % 4)
  {
    SameParity(addr / 4, addr % 4);
  }

  lemma SameParity(q: nat, r: nat)
    ensures (4 * q + r) % 2 == r % 2
  {
    EvenPlus(2 * q + r / 2, r % 2);
  }

  lemma EvenPlus(k: nat, b: nat)
    requires b < 2
    ensures (2 * k + b) % 2 == b
  {
  }

  lemma ReadMisaligned(m: Mem, cause: Word, w: Width, addr: Word, value: Word)
    requires !Aligned(w, addr % 4)
    ensures Read(m, cause, w, addr) == Fault(4) && Write(m, cause, w, addr, value) == Fault(5)
  {
    hide Aligned, Locate, ReadSeg, Store, ExpandStack, InStackGap, ReadIo, WriteIo;
  }

  /** An aligned read outside the segments. */
  lemma ReadElsewhere(m: Mem, cause: Word, w: Width, addr: Word)
    requires m.Valid() && !Located(m, addr) && Aligned(w, addr % 4)
    ensures var r := Read(m, cause, w, addr);
            r == if 0x40_0000 <= addr < m.textTop then Abort
                 else if BelowStack(m, addr) then
                   match ExpandStack(m, m.StackBot() - addr + 4) case Some(m') => Done(m', cause, 0) case None => Abort
                 else if addr >= 0xffff_0000 then
                   match ReadIo(m.io, cause, addr) case IoDone(io, cause', v) => Done(m.(io := io), cause', v) case IoAbort => Abort
                 else Fault(7)
  {
    hide Locate, ReadSeg, ExpandStack, InStackGap, ReadIo, Aligned, Wrap;
    GapIff(m, addr);
  }

  /** An aligned write outside the segments and not below the stack. */
  lemma WriteElsewhere(m: Mem, cause: Word, w: Width, addr: Word, value: Word)
    requires m.Valid() && !Located(m, addr) && Aligned(w, addr % 4) && (BelowStack(m, addr) ==> InText(m, addr))
    ensures var r := Write(m, cause, w, addr, value);
            r == if 0x40_0000 <= addr < m.textTop then Abort
                 else if addr >= 0xffff_0000 then
                   match WriteIo(m.io, cause, addr, value)
                   case IoDone(io, cause', v) => Done(m.(io := io), cause', v) case IoAbort => Abort
                 else Fault(7)
  {
    hide Locate, Store, ExpandStack, InStackGap, WriteIo, Aligned, Wrap;
    GapIff(m, addr);
  }

  // ----- every run of accesses -----

  datatype Access1 = Take(w: Width, addr: Word) | Save(w: Width, addr: Word, value: Word)

  /** Memory and Cause after an access; a fault changes neither. */
  function After(m: Mem, cause: Word, x: Access1): Option<(Mem, Word)> {
    match (match x case Take(w, addr) => Read(m, cause, w, addr) case Save(w, addr, v) => Write(m, cause, w, addr, v))
    case Done(m', cause', _) => Some((m', cause'))
    case Fault(_) => Some((m, cause))
    case Abort => None
  }

  function AfterAll(m: Mem, cause: Word, xs: seq<Access1>): Option<(Mem, Word)>
    decreases |xs|
  {
    if xs == [] then Some((m, cause))
    else match After(m, cause, xs[0])
         case Some((m', cause')) => AfterAll(m', cause', xs[1..])
         case None => None
  }

  /** The byte an access leaves at `a`: only an aligned write over it changes it. */
  function ByteAfter(x: Access1, a: Word, b: Byte): Byte {
    if x.Save? && Aligned(x.w, x.addr % 4) && x.addr <= a < x.addr + SizeOf(x.w) then Lane(x.value, a - x.addr) else b
  }

  /** The byte last written at `a`, or the one that was there. */
  function LastByte(xs: seq<Access1>, a: Word, b: Byte): Byte {
    if xs == [] then b else LastByte(xs[1..], a, ByteAfter(xs[0], a, b))
  }

  lemma IoKeepsBytes(m: Mem, io: Io, a: Word)
    ensures ByteAt(m.(io := io), a) == ByteAt(m, a) && (m.Valid() ==> m.(io := io).Valid())
  {
  }

  lemma SetWordLayout(m: Mem, m': Mem)
    requires m.Valid() && SameLayout(m, m')
    ensures m'.Valid()
  {
  }

  lemma LoadKeeps(m: Mem, cause: Word, w: Width, addr: Word, a: Word)
    requires m.Valid() && Located(m, a)
    ensures var r := Read(m, cause, w, addr); r.Done? ==> r.mem.Valid() && ByteAt(r.mem, a) == ByteAt(m, a)
  {
    hide ByteAt, ReadSeg, ExpandStack, ReadIo, Wrap;
    var r := Read(m, cause, w, addr);
    if r.Done? {
      if InStackGap(m, addr) && ExpandStack(m, m.StackBot() - addr + 4) == Some(r.mem) {
        GrowthKeepsBytes(m, m.StackBot() - addr + 4, r.mem, a);
        LocatedByte(m, a);
      }
      IoKeepsBytes(m, r.mem.io, a);
    }
  }

  lemma LocatedByte(m: Mem, a: Word)
    ensures ByteAt(m, a).Some? <==> Located(m, a)
  {
  }

  /** An aligned write over a byte of memory starts in memory. */
  lemma CoveringStart(m: Mem, w: Width, addr: Word, a: Word)
    requires Located(m, a) && Aligned(w, addr % 4) && addr <= a < addr + SizeOf(w)
    ensures Located(m, addr)
  {
    hide Locate;
    InOneWord(w, addr, a);
    if !Located(m, addr) {
      UnlocatedWord(m, addr, a);
    }
  }

  lemma InOneWord(w: Width, addr: Word, a: Word)
    requires Aligned(w, addr % 4) && addr <= a < addr + SizeOf(w)
    ensures addr - addr % 4 == a - a % 4
  {
    assert a % 4 == addr % 4 + (a - addr);
  }

  lemma SaveLocated(m: Mem, cause: Word, x: Access1, a: Word)
    requires m.Valid() && Located(m, a) && x.Save? && Aligned(x.w, x.addr % 4) && Located(m, x.addr)
    ensures var r := Write(m, cause, x.w, x.addr, x.value);
            r.Done? && r.mem.Valid() && ByteAt(r.mem, a) == Some(ByteAfter(x, a, ByteAt(m, a).value))
  {
    hide ByteAt, Write, Locate, Lane;
    WriteRefines(m, cause, x.w, x.addr, x.value);
    SetWordLayout(m, Write(m, cause, x.w, x.addr, x.value).mem);
    LocatedByte(m, a);
  }

  lemma SaveElsewhere(m: Mem, cause: Word, x: Access1, a: Word)
    requires m.Valid() && Located(m, a) && x.Save? && !(Aligned(x.w, x.addr % 4) && Located(m, x.addr))
    ensures var r := Write(m, cause, x.w, x.addr, x.value);
            r.Done? ==> r.mem.Valid() && ByteAt(r.mem, a) == ByteAt(m, a)
    ensures Aligned(x.w, x.addr % 4) ==> !(x.addr <= a < x.addr + SizeOf(x.w))
  {
    hide ByteAt, Store, ExpandStack, WriteIo, BytesSet, Locate, Wrap;
    var r := Write(m, cause, x.w, x.addr, x.value);
    if Aligned(x.w, x.addr % 4) && x.addr <= a < x.addr + SizeOf(x.w) {
      CoveringStart(m, x.w, x.addr, a);
      assert false;
    }
    if r.Done? {
      IoKeepsBytes(m, r.mem.io, a);
      if InStackGap(m, x.addr) && !InText(m, x.addr) {
        var m' := ExpandStack(m, m.StackBot() - x.addr + 4).value;
        GapIff(m, x.addr);
        GrowingWrite(m, cause, x.w, x.addr, x.value);
        GrowthKeepsBytes(m, m.StackBot() - x.addr + 4, m', a);
        LocatedByte(m, a);
        SetElsewhere(m', r.mem, x, a);
      }
    }
  }

  lemma SetElsewhere(m: Mem, m': Mem, x: Access1, a: Word)
    requires x.Save? && m.Valid() && BytesSet(m, m', x.addr, x.w, x.value) && !(x.addr <= a < x.addr + SizeOf(x.w))
    ensures m'.Valid() && ByteAt(m', a) == ByteAt(m, a)
  {
    hide ByteAt;
    SetWordLayout(m, m');
  }

  lemma AccessByte(m: Mem, cause: Word, x: Access1, a: Word)
    requires m.Valid() && Located(m, a)
    ensures var r := After(m, cause, x);
            r.Some? ==> r.value.0.Valid() && ByteAt(r.value.0, a) == Some(ByteAfter(x, a, ByteAt(m, a).value))
  {
    hide ByteAt, Read, Write, Locate, Lane, SizeOf, Aligned;
    LocatedByte(m, a);
    match x
    case Take(w, addr) => LoadKeeps(m, cause, w, addr, a);
    case Save(w, addr, v) =>
      if Aligned(w, addr % 4) && Located(m, addr) {
        SaveLocated(m, cause, x, a);
      } else {
        SaveElsewhere(m, cause, x, a);
      }
  }

  /** Over every run of reads and writes of all widths, with the stack growing as it will: a byte of
      memory is the one last written at its address. */
  lemma {:induction false} BytesPersist(m: Mem, cause: Word, xs: seq<Access1>, a: Word)
    requires m.Valid() && Located(m, a)
    ensures var r := AfterAll(m, cause, xs);
            r.Some? ==> r.value.0.Valid() && ByteAt(r.value.0, a) == Some(LastByte(xs, a, ByteAt(m, a).value))
    decreases |xs|
  {
    hide ByteAt, After, ByteAfter, Locate;
    LocatedByte(m, a);
    if xs != [] {
      var r := After(m, cause, xs[0]);
      if r.Some? {
        AccessByte(m, cause, xs[0], a);
        LocatedByte(r.value.0, a);
        BytesPersist(r.value.0, r.value.1, xs[1..], a);
      }
    }
  }

  // ----- bytes that the run itself brings in -----

  ghost predicate Covers(x: Access1, a: Word) {
    x.Save? && Aligned(x.w, x.addr % 4) && x.addr <= a < x.addr + SizeOf(x.w)
  }

  /** The byte last written at `a` while it was in memory, or `b`. */
  ghost function Tracked(m: Mem, cause: Word, xs: seq<Access1>, a: Word, b: Byte): Byte
    decreases |xs|
  {
    if xs == [] then b
    else match After(m, cause, xs[0])
         case None => b
         case Some((m', cause')) =>
           Tracked(m', cause', xs[1..], a, if Located(m', a) then ByteAfter(xs[0], a, b) else b)
  }

  lemma TakeBringsZero(m: Mem, cause: Word, w: Width, addr: Word, a: Word)
    requires m.Valid() && !Located(m, a)
    ensures var r := Read(m, cause, w, addr); r.Done? ==> r.mem.Valid() && (Located(r.mem, a) ==> ByteAt(r.mem, a) == Some(0))
  {
    hide ByteAt, ReadSeg, ExpandStack, ReadIo, Wrap, Locate;
    var r := Read(m, cause, w, addr);
    LocatedByte(m, a);
    if r.Done? {
      LocatedByte(r.mem, a);
      if InStackGap(m, addr) && ExpandStack(m, m.StackBot() - addr + 4) == Some(r.mem) {
        GrowthKeepsBytes(m, m.StackBot() - addr + 4, r.mem, a);
      }
      IoKeepsBytes(m, r.mem.io, a);
    }
  }

  lemma SaveInPlace(m: Mem, cause: Word, x: Access1, a: Word)
    requires m.Valid() && !Located(m, a) && x.Save? && Aligned(x.w, x.addr % 4) && Located(m, x.addr)
    ensures var r := Write(m, cause, x.w, x.addr, x.value); r.Done? && r.mem.Valid() && !Located(r.mem, a)
  {
    hide ByteAt, Write;
    WriteRefines(m, cause, x.w, x.addr, x.value);
    var m' := Write(m, cause, x.w, x.addr, x.value).mem;
    SetWordLayout(m, m');
    ShapeLocates(m, m', a);
  }

  lemma SaveBrings(m: Mem, cause: Word, x: Access1, a: Word)
    requires m.Valid() && !Located(m, a) && x.Save? && !(Aligned(x.w, x.addr % 4) && Located(m, x.addr))
    ensures var r := Write(m, cause, x.w, x.addr, x.value);
            r.Done? ==> r.mem.Valid() && (Located(r.mem, a) ==> ByteAt(r.mem, a) == Some(ByteAfter(x, a, 0)))
  {
    hide ByteAt, Store, ExpandStack, WriteIo, BytesSet, Locate, Wrap, Lane;
    var r := Write(m, cause, x.w, x.addr, x.value);
    LocatedByte(m, a);
    if r.Done? {
      IoKeepsBytes(m, r.mem.io, a);
      LocatedByte(r.mem, a);
      if InStackGap(m, x.addr) && !InText(m, x.addr) {
        var m' := ExpandStack(m, m.StackBot() - x.addr + 4).value;
        GapIff(m, x.addr);
        GrowingWrite(m, cause, x.w, x.addr, x.value);
        GrowthKeepsBytes(m, m.StackBot() - x.addr + 4, m', a);
        SetByte(m', r.mem, x, a);
      }
    }
  }

  lemma SetByte(m: Mem, m': Mem, x: Access1, a: Word)
    requires x.Save? && m.Valid() && Aligned(x.w, x.addr % 4) && BytesSet(m, m', x.addr, x.w, x.value)
    ensures m'.Valid() && (ByteAt(m', a).Some? <==> ByteAt(m, a).Some? || Covers(x, a))
    ensures ByteAt(m', a).Some? ==> ByteAt(m', a).value == ByteAfter(x, a, if ByteAt(m, a).Some? then ByteAt(m, a).value else 0)
  {
    hide ByteAt, Lane;
    SetWordLayout(m, m');
  }

  /** One access, an address outside memory before it. */
  lemma AccessBrings(m: Mem, cause: Word, x: Access1, a: Word)
    requires m.Valid() && !Located(m, a)
    ensures var r := After(m, cause, x);
            r.Some? ==> r.value.0.Valid() && (Located(r.value.0, a) ==> ByteAt(r.value.0, a) == Some(ByteAfter(x, a, 0)))
  {
    hide ByteAt, Read, Write, Locate, Lane, SizeOf, Aligned;
    match x
    case Take(w, addr) => TakeBringsZero(m, cause, w, addr, a);
    case Save(w, addr, v) =>
      if Aligned(w, addr % 4) && Located(m, addr) {
        SaveInPlace(m, cause, x, a);
      } else {
        SaveBrings(m, cause, x, a);
      }
  }

  /** Over every run, every address in memory at its end: the byte is the last one written there, else
      the one that was there at the start, else the zero of stack growth. */
  lemma {:induction false} BytesAtEnd(m: Mem, cause: Word, xs: seq<Access1>, a: Word)
    requires m.Valid()
    ensures var r := AfterAll(m, cause, xs);
            r.Some? ==> && r.value.0.Valid()
                        && (Located(r.value.0, a) ==>
                              ByteAt(r.value.0, a) == Some(Tracked(m, cause, xs, a, if ByteAt(m, a).Some? then ByteAt(m, a).value else 0)))
    decreases |xs|
  {
    hide ByteAt, After, ByteAfter, Locate;
    LocatedByte(m, a);
    if xs != [] {
      var r := After(m, cause, xs[0]);
      if r.Some? {
        if Located(m, a) {
          AccessByte(m, cause, xs[0], a);
        } else {
          AccessBrings(m, cause, xs[0], a);
        }
        LocatedByte(r.value.0, a);
        BytesAtEnd(r.value.0, r.value.1, xs[1..], a);
      }
    }
  }
}
