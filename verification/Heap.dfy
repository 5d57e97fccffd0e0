/** The first-fit heap: headers and payloads tile the heap exactly, whatever is allocated and
    released, with 32-bit addresses. */
module Heap {
  import opened Words
  import opened MemModel

  const HEADER_SIZE := 8
  const UNAVAILABLE: Word := 0
  const AVAILABLE: Word := 1

  /** A region: header at `start`, then `size` bytes of payload. */
  datatype Block = Block(start: int, size: Word, free: bool)
  {
    function Payload(): int {
      start + HEADER_SIZE
    }

    function End(): int {
      start + HEADER_SIZE + size
    }
  }

  /** The blocks follow one another from `from` exactly to `to`. */
  ghost predicate Tiles(blocks: seq<Block>, from: int, to: int)
    decreases |blocks|
  {
    if blocks == [] then from == to
    else blocks[0].start == from && Tiles(blocks[1..], blocks[0].End(), to)
  }

  // ----- consequences of tiling -----

  lemma {:induction false} TilesBound(blocks: seq<Block>, from: int, to: int, i: nat)
    requires Tiles(blocks, from, to) && i < |blocks|
    ensures from <= blocks[i].start && blocks[i].End() <= to
    decreases |blocks|
  {
    if i > 0 {
      TilesBound(blocks[1..], blocks[0].End(), to, i - 1);
    } else {
      TilesOrder(blocks[1..], blocks[0].End(), to);
    }
  }

  lemma {:induction false} TilesOrder(blocks: seq<Block>, from: int, to: int)
    requires Tiles(blocks, from, to)
    ensures from <= to
    decreases |blocks|
  {
    if blocks != [] {
      TilesOrder(blocks[1..], blocks[0].End(), to);
    }
  }

  /** Two blocks never overlap: neither payloads with each other, nor a payload with a header. */
  lemma {:induction false} BlocksDisjoint(blocks: seq<Block>, from: int, to: int, i: nat, j: nat)
    requires Tiles(blocks, from, to) && i < j < |blocks|
    ensures blocks[i].End() <= blocks[j].start
    decreases |blocks|
  {
    if i > 0 {
      BlocksDisjoint(blocks[1..], blocks[0].End(), to, i - 1, j - 1);
    } else {
      TilesBound(blocks[1..], blocks[0].End(), to, j - 1);
    }
  }

  /** Every byte of the heap is in some block: nothing is lost between them. */
  lemma {:induction false} TilesCover(blocks: seq<Block>, from: int, to: int, a: int) returns (i: nat)
    requires Tiles(blocks, from, to) && from <= a < to
    ensures i < |blocks| && blocks[i].start <= a < blocks[i].End()
    decreases |blocks|
  {
    if a < blocks[0].End() {
      i := 0;
    } else {
      var k := TilesCover(blocks[1..], blocks[0].End(), to, a);
      i := k + 1;
    }
  }

  lemma {:induction false} TilesAppend(blocks: seq<Block>, from: int, to: int, b: Block)
    requires Tiles(blocks, from, to) && b.start == to
    ensures Tiles(blocks + [b], from, b.End())
    decreases |blocks|
  {
    if blocks == [] {
      assert (blocks + [b])[1..] == [];
    } else {
      assert (blocks + [b])[1..] == blocks[1..] + [b];
      TilesAppend(blocks[1..], blocks[0].End(), to, b);
    }
  }

  /** Marking a block keeps the tiling. */
  lemma {:induction false} TilesMark(blocks: seq<Block>, from: int, to: int, i: nat, free: bool)
    requires Tiles(blocks, from, to) && i < |blocks|
    ensures Tiles(blocks[i := blocks[i].(free := free)], from, to)
    decreases |blocks|
  {
    var marked := blocks[i := blocks[i].(free := free)];
    if i == 0 {
      assert marked[1..] == blocks[1..];
    } else {
      assert marked[1..] == blocks[1..][i - 1 := blocks[1..][i - 1].(free := free)];
      TilesMark(blocks[1..], blocks[0].End(), to, i - 1, free);
    }
  }

  /** The walk `ptr += HEADER_SIZE + size` steps from block to block and stops at the break. */
  lemma {:induction false} WalkStep(blocks: seq<Block>, from: int, to: int, i: nat)
    requires Tiles(blocks, from, to) && i <= |blocks|
    ensures Tiles(blocks[i..], StartOf(blocks, i, to), to)
    ensures i < |blocks| ==> StartOf(blocks, i + 1, to) == blocks[i].End() && blocks[i].start != to
    decreases i
  {
    if i == 0 {
      assert blocks[0..] == blocks;
      if blocks != [] {
        TilesBound(blocks, from, to, 0);
        NextStart(blocks[1..], blocks[0].End(), to);
      }
    } else {
      WalkStep(blocks[1..], blocks[0].End(), to, i - 1);
      assert blocks[1..][i - 1..] == blocks[i..];
    }
  }

  lemma NextStart(blocks: seq<Block>, from: int, to: int)
    requires Tiles(blocks, from, to)
    ensures StartOf(blocks, 0, to) == from
  {
  }

  function StartOf(blocks: seq<Block>, i: nat, to: int): int {
    if i < |blocks| then blocks[i].start else to
  }

  // ----- the heap as a value, and every run of operations -----

  predicate Fit(b: Block, size: Word) {
    b.free && size <= b.size
  }

  function FirstFit(blocks: seq<Block>, size: Word): (r: Option<nat>)
    ensures r.Some? ==> r.value < |blocks| && Fit(blocks[r.value], size)
    ensures r.Some? ==> forall j | 0 <= j < r.value :: !Fit(blocks[j], size)
    ensures r.None? ==> forall b | b in blocks :: !Fit(b, size)
    decreases |blocks|
  {
    if blocks == [] then None
    else if Fit(blocks[0], size) then Some(0)
    else match FirstFit(blocks[1..], size) case Some(k) => Some(k + 1) case None => None
  }

  datatype HeapState = HeapState(begin: int, brk: int, blocks: seq<Block>)
  {
    ghost predicate Tiled() {
      Tiles(blocks, begin, brk)
    }
  }

  /** A request: to allocate, `granted` telling whether the system extends the break when asked; or
      to release block `i`. */
  datatype Request = Allocate(size: Word, granted: bool) | Release(i: nat)

  /** The break asked for wraps at 2^32. */
  function NewBreak(brk: int, size: Word): Word {
    Wrap(brk + HEADER_SIZE + size)
  }

  function Serve(h: HeapState, q: Request): HeapState {
    match q
    case Allocate(size, granted) =>
      (match FirstFit(h.blocks, size)
       case Some(k) => h.(blocks := h.blocks[k := h.blocks[k].(free := false)])
       case None =>
         if granted then HeapState(h.begin, NewBreak(h.brk, size), h.blocks + [Block(h.brk, size, false)]) else h)
    case Release(i) => if i < |h.blocks| then h.(blocks := h.blocks[i := h.blocks[i].(free := true)]) else h
  }

  function ServeAll(h: HeapState, qs: seq<Request>): HeapState
    decreases |qs|
  {
    if qs == [] then h else ServeAll(Serve(h, qs[0]), qs[1..])
  }

  /** Growing the heap keeps the tiling if and only if the new break does not wrap. */
  lemma GrowthTilesIff(h: HeapState, size: Word)
    requires h.Tiled() && 0 <= h.brk < TWO32 && FirstFit(h.blocks, size).None?
    ensures Serve(h, Allocate(size, true)).Tiled() <==> h.brk + HEADER_SIZE + size < TWO32
  {
    hide Tiles, Wrap;
    GrowthWraps(h, size);
  }

  lemma GrowthWraps(h: HeapState, size: Word)
    requires h.Tiled() && 0 <= h.brk < TWO32
    ensures Tiles(h.blocks + [Block(h.brk, size, false)], h.begin, NewBreak(h.brk, size)) <==> h.brk + HEADER_SIZE + size < TWO32
  {
    var b := Block(h.brk, size, false);
    TilesAppend(h.blocks, h.begin, h.brk, b);
    if h.brk + HEADER_SIZE + size >= TWO32 && Tiles(h.blocks + [b], h.begin, NewBreak(h.brk, size)) {
      TilesBound(h.blocks + [b], h.begin, NewBreak(h.brk, size), |h.blocks|);
      assert false;
    }
  }

  /** The system never grants a break beyond the end of the address space. */
  ghost predicate Honest(h: HeapState, q: Request) {
    q.Allocate? && q.granted && FirstFit(h.blocks, q.size).None? ==> h.brk + HEADER_SIZE + q.size < TWO32
  }

  ghost predicate AllHonest(h: HeapState, qs: seq<Request>)
    decreases |qs|
  {
    qs == [] || (Honest(h, qs[0]) && AllHonest(Serve(h, qs[0]), qs[1..]))
  }

  lemma ServeTiles(h: HeapState, q: Request)
    requires h.Tiled() && 0 <= h.brk < TWO32 && Honest(h, q)
    ensures var h' := Serve(h, q); h'.Tiled() && 0 <= h'.brk < TWO32 && h'.begin == h.begin && h'.brk >= h.brk
  {
    match q
    case Allocate(size, granted) =>
      var fit := FirstFit(h.blocks, size);
      if fit.Some? {
        TilesMark(h.blocks, h.begin, h.brk, fit.value, false);
      } else if granted {
        GrowthTilesIff(h, size);
      }
    case Release(i) =>
      if i < |h.blocks| {
        TilesMark(h.blocks, h.begin, h.brk, i, true);
      }
  }

  /** After every run of requests the blocks tile the heap exactly. */
  lemma {:induction false} RunTiles(h: HeapState, qs: seq<Request>)
    requires h.Tiled() && 0 <= h.brk < TWO32 && AllHonest(h, qs)
    ensures var h' := ServeAll(h, qs); h'.Tiled() && 0 <= h'.brk < TWO32 && h'.begin == h.begin && h'.brk >= h.brk
    decreases |qs|
  {
    hide Serve, Honest;
    if qs != [] {
      ServeTiles(h, qs[0]);
      RunTiles(Serve(h, qs[0]), qs[1..]);
    }
  }

  /** A live block keeps its place and size through any run that does not release it, and no request
      is given it again. */
  lemma {:induction false} LiveStays(h: HeapState, qs: seq<Request>, i: nat)
    requires i < |h.blocks| && !h.blocks[i].free && Release(i) !in qs
    ensures var h' := ServeAll(h, qs); i < |h'.blocks| && h'.blocks[i] == h.blocks[i]
    decreases |qs|
  {
    if qs != [] {
      var h1 := Serve(h, qs[0]);
      assert i < |h1.blocks| && h1.blocks[i] == h.blocks[i];
      LiveStays(h1, qs[1..], i);
    }
  }

  // ----- bytes -----

  /** The address space. */
  type Space = Word -> Byte

  /** A 32-bit word at any byte address; addresses wrap. */
  function Peek(m: Space, a: int): Word {
    Join(m(Wrap(a)), m(Wrap(a + 1)), m(Wrap(a + 2)), m(Wrap(a + 3)))
  }

  function Poke(m: Space, a: int, w: Word): Space {
    (b: Word) => if Wrap(b - a) < 4 then Lane(w, Wrap(b - a)) else m(b)
  }

  /** The distance from `a` to `b`. */
  lemma Distance(a: int, b: int)
    requires 0 <= a && a + 3 < TWO32 && 0 <= b < TWO32
    ensures Wrap(b) == b && (Wrap(b - a) < 4 <==> a <= b < a + 4) && (a <= b ==> Wrap(b - a) == b - a)
  {
  }

  lemma PokeAt(m: Space, a: int, w: Word, b: Word)
    requires 0 <= a && a + 3 < TWO32
    ensures Poke(m, a, w)(b) == if a <= b < a + 4 then Lane(w, b - a) else m(b)
  {
    hide Lane, Wrap;
    Distance(a, b);
  }

  lemma PeekIs(m: Space, a: int)
    requires 0 <= a && a + 3 < TWO32
    ensures Peek(m, a) == Join(m(a), m(a + 1), m(a + 2), m(a + 3))
  {
    hide Join, Wrap;
    Distance(a, a);
    Distance(a, a + 1);
    Distance(a, a + 2);
    Distance(a, a + 3);
  }

  lemma PeekPoke(m: Space, a: int, w: Word, b: int)
    requires 0 <= a && a + 3 < TWO32 && 0 <= b && b + 3 < TWO32 && (a == b || a + 4 <= b || b + 4 <= a)
    ensures Peek(Poke(m, a, w), b) == if a == b then w else Peek(m, b)
  {
    hide Lane, Join, Poke, Peek;
    LanesJoin(w);
    PeekIs(Poke(m, a, w), b);
    PeekIs(m, b);
    PokeAt(m, a, w, b);
    PokeAt(m, a, w, b + 1);
    PokeAt(m, a, w, b + 2);
    PokeAt(m, a, w, b + 3);
  }

  /** The header of a block, as stored. */
  ghost predicate HeaderOk(m: Space, b: Block) {
    && 0 <= b.start && b.start + 7 < TWO32
    && Peek(m, b.start) == (if b.free then AVAILABLE else UNAVAILABLE)
    && Peek(m, b.start + 4) == b.size
  }

  ghost predicate HeadersOk(m: Space, blocks: seq<Block>) {
    forall i | 0 <= i < |blocks| :: HeaderOk(m, blocks[i])
  }

  /** As the bytes say: the region at `a` is marked 1 and its size field is at least `size`. */
  ghost predicate HasRoom(m: Space, a: int, size: Word) {
    Peek(m, a) == 1 && size <= Peek(m, a + 4)
  }

  /** Region `k` is the first with room. */
  ghost predicate FirstRoom(m: Space, blocks: seq<Block>, k: nat, size: Word) {
    k < |blocks| && HasRoom(m, blocks[k].start, size) && forall j | 0 <= j < k :: !HasRoom(m, blocks[j].start, size)
  }

  ghost predicate Full(m: Space, blocks: seq<Block>, size: Word) {
    forall j | 0 <= j < |blocks| :: !HasRoom(m, blocks[j].start, size)
  }

  /** Block `k` is handed out at `p`: its marker is 0, and no other block differs. */
  ghost predicate Taken(m: Space, was: seq<Block>, now: seq<Block>, k: nat, p: Word) {
    && k < |was| == |now| && p == was[k].start + 8 && Peek(m, p - 8) == 0
    && forall j | 0 <= j < |was| && j != k :: now[j] == was[j]
  }

  /** The first fit is the first region with room. */
  lemma FirstFitIff(m: Space, blocks: seq<Block>, k: nat, size: Word)
    requires HeadersOk(m, blocks)
    ensures FirstRoom(m, blocks, k, size) <==> FirstFit(blocks, size) == Some(k)
    ensures FirstFit(blocks, size) == None <==> Full(m, blocks, size)
  {
    hide Peek;
    forall j | 0 <= j < |blocks| ensures HasRoom(m, blocks[j].start, size) <==> Fit(blocks[j], size) {
      assert HeaderOk(m, blocks[j]);
    }
    if FirstRoom(m, blocks, k, size) {
      FirstFitIs(blocks, size, k);
    }
    if forall j | 0 <= j < |blocks| :: !HasRoom(m, blocks[j].start, size) {
      var r := FirstFit(blocks, size);
    } else {
      var j :| 0 <= j < |blocks| && HasRoom(m, blocks[j].start, size);
      assert Fit(blocks[j], size) && blocks[j] in blocks;
    }
  }

  /** If some region has room, there is a first one, at or before it. */
  lemma SomeFirst(m: Space, blocks: seq<Block>, k: nat, size: Word) returns (j: nat)
    requires k < |blocks| && HasRoom(m, blocks[k].start, size)
    ensures j <= k && FirstRoom(m, blocks, j, size)
    ensures (forall i | 0 <= i < k :: !HasRoom(m, blocks[i].start, size)) ==> j == k
  {
    hide HasRoom;
    j := 0;
    while !HasRoom(m, blocks[j].start, size)
      invariant j <= k && forall i | 0 <= i < j :: !HasRoom(m, blocks[i].start, size)
      decreases k - j
    {
      j := j + 1;
    }
  }

  lemma OtherHeader(m: Space, a: int, w: Word, b: Block)
    requires 0 <= a && a + 3 < TWO32 && HeaderOk(m, b) && (a + 4 <= b.start || b.start + 8 <= a)
    ensures HeaderOk(Poke(m, a, w), b)
  {
    hide Peek, Poke;
    PeekPoke(m, a, w, b.start);
    PeekPoke(m, a, w, b.start + 4);
  }

  /** Writing the marker of block `i` makes its header that of the marked block; other headers stay. */
  lemma MarkHeaders(m: Space, blocks: seq<Block>, from: int, to: int, i: nat, free: bool)
    requires Tiles(blocks, from, to) && HeadersOk(m, blocks) && i < |blocks|
    ensures HeadersOk(Poke(m, blocks[i].start, if free then AVAILABLE else UNAVAILABLE), blocks[i := blocks[i].(free := free)])
  {
    hide Peek, Poke, Tiles;
    var a, w := blocks[i].start, if free then AVAILABLE else UNAVAILABLE;
    var marked := blocks[i := blocks[i].(free := free)];
    assert HeaderOk(m, blocks[i]);
    forall j | 0 <= j < |marked| ensures HeaderOk(Poke(m, a, w), marked[j]) {
      assert HeaderOk(m, blocks[j]);
      if j == i {
        PeekPoke(m, a, w, a);
        PeekPoke(m, a, w, a + 4);
      } else {
        if j < i {
          BlocksDisjoint(blocks, from, to, j, i);
        } else {
          BlocksDisjoint(blocks, from, to, i, j);
        }
        OtherHeader(m, a, w, blocks[j]);
      }
    }
  }

  /** Writing a fresh header at the break. */
  lemma FreshHeaders(m: Space, blocks: seq<Block>, from: int, to: int, size: Word)
    requires Tiles(blocks, from, to) && HeadersOk(m, blocks) && 0 <= to && to + 7 < TWO32
    ensures HeadersOk(Poke(Poke(m, to, UNAVAILABLE), to + 4, size), blocks + [Block(to, size, false)])
  {
    hide Peek, Poke, Tiles;
    var all := blocks + [Block(to, size, false)];
    var m1 := Poke(m, to, UNAVAILABLE);
    forall j | 0 <= j < |all| ensures HeaderOk(Poke(m1, to + 4, size), all[j]) {
      if j < |blocks| {
        assert HeaderOk(m, blocks[j]);
        TilesBound(blocks, from, to, j);
        OtherHeader(m, to, UNAVAILABLE, blocks[j]);
        OtherHeader(m1, to + 4, size, blocks[j]);
      } else {
        PeekPoke(m, to, UNAVAILABLE, to);
        PeekPoke(m1, to + 4, size, to);
        PeekPoke(m1, to + 4, size, to + 4);
      }
    }
  }

  /** A program may write any payload byte without touching a header. */
  lemma PayloadWrite(m: Space, blocks: seq<Block>, from: int, to: int, i: nat, a: Word, v: Byte)
    requires Tiles(blocks, from, to) && HeadersOk(m, blocks) && i < |blocks| && blocks[i].Payload() <= a < blocks[i].End()
    ensures HeadersOk(b => if b == a then v else m(b), blocks)
  {
    hide Tiles;
    var m': Space := b => if b == a then v else m(b);
    forall j | 0 <= j < |blocks| ensures HeaderOk(m', blocks[j]) {
      assert HeaderOk(m, blocks[j]);
      HeaderApart(blocks, from, to, i, j, a);
      HeaderKept(m, m', blocks[j]);
    }
  }

  /** No payload byte is in a header. */
  lemma HeaderApart(blocks: seq<Block>, from: int, to: int, i: nat, j: nat, a: Word)
    requires Tiles(blocks, from, to) && i < |blocks| && j < |blocks| && blocks[i].Payload() <= a < blocks[i].End()
    ensures a < blocks[j].start || blocks[j].start + 7 < a
  {
    hide Tiles;
    if j < i {
      BlocksDisjoint(blocks, from, to, j, i);
    } else if j > i {
      BlocksDisjoint(blocks, from, to, i, j);
    }
  }

  lemma HeaderKept(m: Space, m': Space, b: Block)
    requires HeaderOk(m, b) && forall k: Word | b.start <= k <= b.start + 7 :: m'(k) == m(k)
    ensures HeaderOk(m', b)
  {
    hide Peek;
    SamePeek(m, m', b.start);
    SamePeek(m, m', b.start + 4);
  }

  lemma SamePeek(m: Space, m': Space, a: int)
    requires 0 <= a && a + 3 < TWO32 && m'(a) == m(a) && m'(a + 1) == m(a + 1) && m'(a + 2) == m(a + 2) && m'(a + 3) == m(a + 3)
    ensures Peek(m', a) == Peek(m, a)
  {
    hide Join, Peek;
    PeekIs(m, a);
    PeekIs(m', a);
  }

  /** Is `a` a byte of some header? */
  ghost predicate InHeader(blocks: seq<Block>, a: int) {
    exists i :: 0 <= i < |blocks| && blocks[i].start <= a < blocks[i].start + HEADER_SIZE
  }

  /** No byte outside the headers differs. */
  ghost predicate SamePayloads(m: Space, m': Space, blocks: seq<Block>) {
    forall a: Word | !InHeader(blocks, a) :: m'(a) == m(a)
  }

  lemma SamePayloadsTrans(m: Space, m': Space, m'': Space, blocks: seq<Block>)
    requires SamePayloads(m, m', blocks) && SamePayloads(m', m'', blocks)
    ensures SamePayloads(m, m'', blocks)
  {
  }

  lemma PokeHeader(m: Space, a: int, w: Word, blocks: seq<Block>, i: nat)
    requires i < |blocks| && 0 <= a && a + 3 < TWO32 && blocks[i].start <= a && a + 4 <= blocks[i].start + HEADER_SIZE
    ensures SamePayloads(m, Poke(m, a, w), blocks)
  {
    hide Poke;
    forall b: Word | !InHeader(blocks, b) ensures Poke(m, a, w)(b) == m(b) {
      PokeAt(m, a, w, b);
    }
  }

  lemma HeaderAt(m: Space, blocks: seq<Block>, k: nat)
    requires HeadersOk(m, blocks) && k < |blocks|
    ensures HeaderOk(m, blocks[k])
  {
  }

  lemma SamePayloadsRefl(m: Space, blocks: seq<Block>)
    ensures SamePayloads(m, m, blocks)
  {
  }

  // ----- the allocator -----

  class Allocator {
    var heapBegin: Word
    var currentBreak: Word
    var mem: Space
    ghost var blocks: seq<Block>

    ghost predicate Valid()
      reads this
    {
      Tiles(blocks, heapBegin, currentBreak) && HeadersOk(mem, blocks)
    }

    ghost function State(): HeapState
      reads this
    {
      HeapState(heapBegin, currentBreak, blocks)
    }

    /** `allocate_init`: `brk` is the program break the system reports. */
    constructor (brk: Word, mem: Space)
      ensures Valid() && blocks == [] && this.mem == mem && heapBegin == currentBreak == Wrap(brk + 1)
    {
      this.mem := mem;
      blocks := [];
      heapBegin := Wrap(brk + 1);
      currentBreak := Wrap(brk + 1);
    }

    /** `allocate`: walk the regions for the first that is available and large enough, else extend
        the break. `granted` is the system's answer; 0 is returned when it refuses. The heap stays well
        formed exactly when the system does not grant a break that wraps. */
    method Allocate(size: Word, granted: bool) returns (p: Word)
      requires Valid()
      modifies this
      ensures State() == Serve(old(State()), Request.Allocate(size, granted))
      ensures Valid() <==> old(Honest(State(), Request.Allocate(size, granted)))
      ensures match FirstFit(old(blocks), size)
              case Some(k) => p == old(blocks[k].Payload()) && blocks[k].size >= size && !blocks[k].free
              case None => p == if granted then Wrap(old(currentBreak) + HEADER_SIZE) else 0
      ensures Valid() ==> SamePayloads(old(mem), mem, blocks)
      ensures forall k: nat :: old(FirstRoom(mem, blocks, k, size)) ==>
                currentBreak == old(currentBreak) && Taken(mem, old(blocks), blocks, k, p)
      ensures old(Full(mem, blocks, size)) ==>
                if granted then p == Wrap(old(currentBreak) + 8) && currentBreak == Wrap(old(currentBreak) + 8 + size)
                else p == 0 && currentBreak == old(currentBreak) && mem == old(mem)
    {
      hide Poke, Peek, Tiles, SamePayloads, HeadersOk, FirstFit, FirstRoom, HasRoom, Full;
      forall k: nat
        ensures FirstRoom(mem, blocks, k, size) <==> FirstFit(blocks, size) == Some(k)
      {
        FirstFitIff(mem, blocks, k, size);
      }
      FirstFitIff(mem, blocks, 0, size);
      var ptr := heapBegin;
      ghost var k := 0;
      NextStart(blocks, heapBegin, currentBreak);
      while ptr != currentBreak
        invariant k <= |blocks| && ptr == StartOf(blocks, k, currentBreak)
        invariant forall j | 0 <= j < k :: !Fit(blocks[j], size)
        invariant Valid() && State() == old(State()) && mem == old(mem)
        decreases |blocks| - k
      {
        WalkStep(blocks, heapBegin, currentBreak, k);
        HeaderAt(mem, blocks, k);
        TilesBound(blocks, heapBegin, currentBreak, k);
        var avail, rsize := Peek(mem, ptr), Peek(mem, ptr + 4);
        if avail == AVAILABLE && size <= rsize {
          FirstFitIs(blocks, size, k);
          TakeBlock(ptr, k);
          HeaderAt(mem, blocks, k);
          return ptr + HEADER_SIZE;
        }
        ptr := ptr + HEADER_SIZE + rsize;
        k := k + 1;
      }
      NoFit(blocks, size, k, heapBegin, currentBreak);
      SamePayloadsRefl(mem, blocks);
      if !granted {
        return 0;
      }
      p := Wrap(currentBreak + HEADER_SIZE);
      Extend(size);
    }

    method TakeBlock(ptr: Word, ghost k: nat)
      requires Valid() && k < |blocks| && ptr == blocks[k].start
      modifies this
      ensures Valid() && heapBegin == old(heapBegin) && currentBreak == old(currentBreak)
      ensures blocks == old(blocks)[k := old(blocks)[k].(free := false)]
      ensures SamePayloads(old(mem), mem, blocks)
    {
      hide Poke, Peek, Tiles, SamePayloads;
      assert HeaderOk(mem, blocks[k]);
      ghost var marked := blocks[k := blocks[k].(free := false)];
      MarkHeaders(mem, blocks, heapBegin, currentBreak, k, false);
      TilesMark(blocks, heapBegin, currentBreak, k, false);
      PokeHeader(mem, ptr, UNAVAILABLE, marked, k);
      mem := Poke(mem, ptr, UNAVAILABLE);
      blocks := marked;
    }

    method Extend(size: Word)
      requires Valid()
      modifies this
      ensures heapBegin == old(heapBegin) && currentBreak == NewBreak(old(currentBreak), size)
      ensures blocks == old(blocks) + [Block(old(currentBreak), size, false)]
      ensures Valid() <==> old(currentBreak) + HEADER_SIZE + size < TWO32
      ensures Valid() ==> SamePayloads(old(mem), mem, blocks)
    {
      hide Poke, Peek, Tiles, SamePayloads, HeadersOk, Wrap;
      ghost var m0, was := mem, State();
      ghost var all := blocks + [Block(currentBreak, size, false)];
      mem := Poke(mem, currentBreak, UNAVAILABLE);
      mem := Poke(mem, currentBreak + 4, size);
      blocks := all;
      currentBreak := NewBreak(currentBreak, size);
      ExtendValid(m0, was, size);
    }

    /** `deallocate` of a pointer that is live. */
    method Deallocate(p: Word, ghost k: nat)
      requires Valid() && k < |blocks| && !blocks[k].free && p == blocks[k].Payload()
      modifies this
      ensures Valid() && State() == Serve(old(State()), Release(k))
      ensures SamePayloads(old(mem), mem, blocks)
      ensures heapBegin == old(heapBegin) && currentBreak == old(currentBreak)
      ensures blocks == old(blocks)[k := Block(old(blocks)[k].start, old(blocks)[k].size, true)]
      ensures Peek(mem, p - 8) == 1 && forall a: Word | a < p - 8 || p - 4 <= a :: mem(a) == old(mem)(a)
    {
      hide Poke, Peek, Tiles, SamePayloads;
      assert HeaderOk(mem, blocks[k]);
      forall a: Word ensures Poke(mem, p - 8, AVAILABLE)(a) == if p - 8 <= a < p - 4 then Lane(AVAILABLE, a - (p - 8)) else mem(a) {
        PokeAt(mem, p - 8, AVAILABLE, a);
      }
      PeekPoke(mem, p - 8, AVAILABLE, p - 8);
      var ptr := p - HEADER_SIZE;
      ghost var marked := blocks[k := blocks[k].(free := true)];
      MarkHeaders(mem, blocks, heapBegin, currentBreak, k, true);
      TilesMark(blocks, heapBegin, currentBreak, k, true);
      PokeHeader(mem, ptr, AVAILABLE, marked, k);
      mem := Poke(mem, ptr, AVAILABLE);
      blocks := marked;
    }

    /** A block released and then asked for again: when its stored size is enough, the heap does not
        grow, and the block returned is the first with room, no later than the released one; it is the
        released one if no earlier block has room. */
    method ReleaseAndAllocate(p: Word, ghost k: nat, size: Word, granted: bool) returns (q: Word)
      requires Valid() && k < |blocks| && !blocks[k].free && p == blocks[k].Payload() && size <= Peek(mem, p - 4)
      modifies this
      ensures Valid() && currentBreak == old(currentBreak)
      ensures exists j | 0 <= j <= k :: q == old(blocks)[j].start + 8
      ensures old(forall j | 0 <= j < k :: !HasRoom(mem, blocks[j].start, size)) ==> q == p
    {
      hide Peek, Poke, Tiles, SamePayloads, HeadersOk, FirstFit, FirstRoom, Serve;
      ghost var m0, was := mem, blocks;
      Deallocate(p, k);
      RoomsAre(m0, was, mem, heapBegin, currentBreak, k, size);
      ghost var j := SomeFirst(mem, blocks, k, size);
      FirstFitIff(mem, blocks, j, size);
      q := Allocate(size, granted);
    }

    /** The program stores into a payload it holds. */
    method WritePayload(a: Word, v: Byte, ghost k: nat)
      requires Valid() && k < |blocks| && !blocks[k].free && blocks[k].Payload() <= a < blocks[k].End()
      modifies this`mem
      ensures Valid() && mem(a) == v && forall b: Word | b != a :: mem(b) == old(mem)(b)
    {
      PayloadWrite(mem, blocks, heapBegin, currentBreak, k, a, v);
      var m := mem;
      mem := b => if b == a then v else m(b);
    }
  }

  /** A fresh header at the break: the tiling holds, and with it the headers, exactly when the new
      break does not wrap. */
  lemma ExtendValid(m: Space, h: HeapState, size: Word)
    requires h.Tiled() && HeadersOk(m, h.blocks) && 0 <= h.brk < TWO32
    ensures var all := h.blocks + [Block(h.brk, size, false)];
            var m' := Poke(Poke(m, h.brk, UNAVAILABLE), h.brk + 4, size);
            && (Tiles(all, h.begin, NewBreak(h.brk, size)) <==> h.brk + HEADER_SIZE + size < TWO32)
            && (h.brk + HEADER_SIZE + size < TWO32 ==> HeadersOk(m', all) && SamePayloads(m, m', all))
  {
    hide Poke, Peek, Tiles, HeadersOk, SamePayloads, Wrap;
    var all := h.blocks + [Block(h.brk, size, false)];
    GrowthWraps(h, size);
    if h.brk + HEADER_SIZE + size < TWO32 {
      FreshHeaders(m, h.blocks, h.begin, h.brk, size);
      var m1 := Poke(m, h.brk, UNAVAILABLE);
      PokeHeader(m, h.brk, UNAVAILABLE, all, |h.blocks|);
      PokeHeader(m1, h.brk + 4, size, all, |h.blocks|);
      SamePayloadsTrans(m, m1, Poke(m1, h.brk + 4, size), all);
    }
  }

  /** Setting the marker of region `k` to 1 gives it room for its size, and changes no other region. */
  lemma RoomsAre(m: Space, blocks: seq<Block>, m': Space, from: int, to: int, k: nat, size: Word)
    requires Tiles(blocks, from, to) && HeadersOk(m, blocks) && k < |blocks| && size <= Peek(m, blocks[k].start + 4)
    requires Peek(m', blocks[k].start) == 1
    requires forall a: Word | a < blocks[k].start || blocks[k].start + 4 <= a :: m'(a) == m(a)
    ensures HasRoom(m', blocks[k].start, size)
    ensures forall j | 0 <= j < |blocks| && j != k :: HasRoom(m', blocks[j].start, size) <==> HasRoom(m, blocks[j].start, size)
  {
    hide Peek, Tiles;
    assert HeaderOk(m, blocks[k]);
    SamePeek(m, m', blocks[k].start + 4);
    forall j | 0 <= j < |blocks| && j != k
      ensures HasRoom(m', blocks[j].start, size) <==> HasRoom(m, blocks[j].start, size)
    {
      assert HeaderOk(m, blocks[j]);
      if j < k {
        BlocksDisjoint(blocks, from, to, j, k);
      } else {
        BlocksDisjoint(blocks, from, to, k, j);
      }
      SamePeek(m, m', blocks[j].start);
      SamePeek(m, m', blocks[j].start + 4);
    }
  }

  lemma FirstFitIs(blocks: seq<Block>, size: Word, k: nat)
    requires k < |blocks| && Fit(blocks[k], size) && forall j | 0 <= j < k :: !Fit(blocks[j], size)
    ensures FirstFit(blocks, size) == Some(k)
  {
    var r := FirstFit(blocks, size);
    assert r.Some?;
  }

  lemma NoFit(blocks: seq<Block>, size: Word, k: nat, from: int, to: int)
    requires Tiles(blocks, from, to) && k <= |blocks| && StartOf(blocks, k, to) == to
    requires forall j | 0 <= j < k :: !Fit(blocks[j], size)
    ensures FirstFit(blocks, size) == None
  {
    if k < |blocks| {
      TilesBound(blocks, from, to, k);
    }
    var r := FirstFit(blocks, size);
  }
}
