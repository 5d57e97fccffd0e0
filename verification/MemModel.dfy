/** The simulated address space as a value: three word-array segments, viewed as bytes,
    halfwords and words (little-endian), automatic stack growth, and the memory-mapped
    console device. The imperative memory in `Memory.dfy` is proved against these functions. */
module MemModel {
  import opened Words

  const TEXT_BOT: Word := 0x40_0000
  const DATA_BOT: Word := 0x1000_0000
  const STACK_TOP: Word := 0x8000_0000
  const K_DATA_BOT: Word := 0x9000_0000
  const MM_IO_BOT: Word := 0xffff_0000
  const MEGA := 0x10_0000

  const RECV_CTRL_ADDR: Word := 0xffff_0000
  const RECV_BUFFER_ADDR: Word := 0xffff_0004
  const TRANS_CTRL_ADDR: Word := 0xffff_0008
  const TRANS_BUFFER_ADDR: Word := 0xffff_000c
  const RECV_INTERVAL := 100
  const TRANS_LATENCY := 100
  const RECV_INT_BIT := 0x800  // HW interrupt 1: Cause bit RECV_INT_LEVEL + 8
  const TRANS_INT_BIT := 0x400  // HW interrupt 0: Cause bit TRANS_INT_LEVEL + 8

  const EXC_ADEL := 4
  const EXC_ADES := 5
  const EXC_DBE := 7

  // ----- console device -----

  /** The receiver and transmitter: READY and INT_ENABLE of each control word, the buffers
      and the two countdown timers. `sent` lists the characters put on the console. */
  datatype Io = Io(
    recvReady: bool, recvEnable: bool, recvBuffer: Byte, recvTimer: nat,
    transReady: bool, transEnable: bool, transBuffer: Byte, transTimer: nat,
    sent: seq<Byte>)

  const IO_RESET := Io(false, false, 0, 0, true, false, 0, 0, [])

  /** Is the single-bit mask `bit` set in `cause`? */
  predicate BitSet(cause: Word, bit: int)
    requires bit > 0
  {
    cause / bit % 2 == 1
  }

  function RaiseInterrupt(cause: Word, bit: int): (r: Word)
    requires bit == RECV_INT_BIT || bit == TRANS_INT_BIT
  {
    if BitSet(cause, bit) then cause else cause + bit
  }

  function ClearInterrupt(cause: Word, bit: int): (r: Word)
    requires bit == RECV_INT_BIT || bit == TRANS_INT_BIT
  {
    if BitSet(cause, bit) then cause - bit else cause
  }

  /** The result of a memory access: the new memory, the new Cause register and the value
      read; or an exception code; or an abort of the whole simulation (`run_error`) or an
      access to a text segment as data, which this model does not follow. */
  datatype Access =
    | Done(mem: Mem, cause: Word, value: Word)
    | Fault(code: nat)
    | Abort

  datatype IoAccess = IoDone(io: Io, cause: Word, value: Word) | IoAbort

  function ReadIo(io: Io, cause: Word, addr: Word): IoAccess {
    if addr == TRANS_CTRL_ADDR then
      IoDone(io, cause, (if io.transReady then 1 else 0) + (if io.transEnable then 2 else 0))
    else if addr == TRANS_BUFFER_ADDR then
      IoDone(io, cause, io.transBuffer)
    else if addr == RECV_CTRL_ADDR then
      IoDone(io, cause, (if io.recvReady then 1 else 0) + (if io.recvEnable then 2 else 0))
    else if addr == RECV_BUFFER_ADDR then
      IoDone(io.(recvReady := false, recvTimer := 0), ClearInterrupt(cause, RECV_INT_BIT), io.recvBuffer)
    else
      IoAbort
  }

  function WriteIo(io: Io, cause: Word, addr: Word, value: Word): IoAccess {
    if addr == TRANS_CTRL_ADDR then
      if value / 2 % 2 == 1 then
        IoDone(io.(transEnable := true), if io.transReady then RaiseInterrupt(cause, TRANS_INT_BIT) else cause, 0)
      else
        IoDone(io.(transEnable := false), ClearInterrupt(cause, TRANS_INT_BIT), 0)
    else if addr == TRANS_BUFFER_ADDR then
      if io.transReady then
        var c: Byte := value % 0x100;
        IoDone(io.(transBuffer := c, sent := io.sent + [c], transReady := false, transTimer := TRANS_LATENCY),
               ClearInterrupt(cause, TRANS_INT_BIT), 0)
      else
        IoDone(io, cause, 0)
    else if addr == RECV_CTRL_ADDR then
      if value / 2 % 2 == 1 then
        IoDone(io.(recvEnable := true), if io.recvReady then RaiseInterrupt(cause, RECV_INT_BIT) else cause, 0)
      else
        IoDone(io.(recvEnable := false), ClearInterrupt(cause, RECV_INT_BIT), 0)
    else if addr == RECV_BUFFER_ADDR then
      IoDone(io, cause, 0)
    else
      IoAbort
  }

  /** One poll of the devices; `input` is the character waiting on the console, if any. */
  function PollRecv(io: Io, cause: Word, input: Option<Byte>): IoAccess {
    if io.recvTimer > 0 then
      IoDone(io.(recvTimer := io.recvTimer - 1), cause, 0)
    else if input.Some? then
      IoDone(io.(recvBuffer := input.value, recvReady := true, recvTimer := RECV_INTERVAL),
             if io.recvEnable then RaiseInterrupt(cause, RECV_INT_BIT) else cause, 0)
    else
      IoDone(io, cause, 0)
  }

  function PollTrans(io: Io, cause: Word): IoAccess {
    if io.transTimer > 0 then
      IoDone(io.(transTimer := io.transTimer - 1), cause, 0)
    else if !io.transReady then
      IoDone(io.(transReady := true),
             if io.transEnable then RaiseInterrupt(cause, TRANS_INT_BIT) else cause, 0)
    else
      IoDone(io, cause, 0)
  }

  function Poll(io: Io, cause: Word, input: Option<Byte>): IoAccess {
    var r := PollRecv(io, cause, input);
    if r.IoDone? then PollTrans(r.io, r.cause) else r
  }

  // ----- segments -----

  /** Segments are arrays of words; `data` and `kdata` grow upwards from their bottom, the
      stack occupies the words just below STACK_TOP. `stackLimit` is in bytes. */
  datatype Mem = Mem(textTop: Word, data: seq<Word>, stack: seq<Word>, kdata: seq<Word>, stackLimit: nat, io: Io)
  {
    ghost predicate Valid() {
      && DATA_BOT + 4 * |data| < TWO32
      && 4 * |stack| <= STACK_TOP
      && stackLimit <= STACK_TOP
      && K_DATA_BOT + 4 * |kdata| < TWO32
    }

    function DataTop(): int {
      DATA_BOT + 4 * |data|
    }

    function StackBot(): int {
      STACK_TOP - 4 * |stack|
    }
  }

  datatype Seg = Data | Stack | KData

  /** Where an address lives: a byte offset in a segment. */
  datatype Loc = At(seg: Seg, off: nat) | Nowhere

  function Locate(m: Mem, addr: Word): (loc: Loc)
    ensures loc.At? ==> loc.off / 4 < |SegWords(m, loc.seg)| && loc.off % 4 == addr % 4
  {
    if DATA_BOT <= addr < m.DataTop() then At(Data, addr - DATA_BOT)
    else if m.StackBot() <= addr < STACK_TOP then InStack(m, addr)
    else if K_DATA_BOT <= addr < K_DATA_BOT + 4 * |m.kdata| then At(KData, addr - K_DATA_BOT)
    else Nowhere
  }

  function InStack(m: Mem, addr: Word): (loc: Loc)
    requires m.StackBot() <= addr < STACK_TOP
    ensures loc.At? && loc.seg == Stack && loc.off / 4 < |m.stack| && loc.off % 4 == addr % 4
  {
    At(Stack, addr - m.StackBot())
  }

  function SegWords(m: Mem, seg: Seg): seq<Word> {
    match seg
    case Data => m.data
    case Stack => m.stack
    case KData => m.kdata
  }

  function SetWord(m: Mem, seg: Seg, i: nat, w: Word): (m': Mem)
    requires i < |SegWords(m, seg)|
    ensures m.Valid() ==> m'.Valid()
  {
    match seg
    case Data => m.(data := m.data[i := w])
    case Stack => m.(stack := m.stack[i := w])
    case KData => m.(kdata := m.kdata[i := w])
  }

  // ----- byte lanes of a word (little-endian) -----

  /** Byte `k` of a word, `k == 0` the least significant. */
  function Lane(w: Word, k: nat): Byte
    requires k < 4
  {
    if k == 0 then w % 0x100
    else if k == 1 then w / 0x100 % 0x100
    else if k == 2 then w / 0x100 / 0x100 % 0x100
    else w / 0x100 / 0x100 / 0x100
  }

  function Join(b0: Byte, b1: Byte, b2: Byte, b3: Byte): Word {
    b0 + 0x100 * (b1 + 0x100 * (b2 + 0x100 * b3))
  }

  function WithLane(w: Word, k: nat, b: Byte): Word
    requires k < 4
  {
    Join(if k == 0 then b else Lane(w, 0), if k == 1 then b else Lane(w, 1),
         if k == 2 then b else Lane(w, 2), if k == 3 then b else Lane(w, 3))
  }

  lemma JoinLanes(b0: Byte, b1: Byte, b2: Byte, b3: Byte)
    ensures var w := Join(b0, b1, b2, b3);
            Lane(w, 0) == b0 && Lane(w, 1) == b1 && Lane(w, 2) == b2 && Lane(w, 3) == b3
  {
    var w := Join(b0, b1, b2, b3);
    assert w / 0x100 == b1 + 0x100 * (b2 + 0x100 * b3);
    assert w / 0x100 / 0x100 == b2 + 0x100 * b3;
  }

  lemma LanesJoin(w: Word)
    ensures Join(Lane(w, 0), Lane(w, 1), Lane(w, 2), Lane(w, 3)) == w
  {
  }

  // ----- accesses -----

  datatype Width = B | H | W

  /** May an access of this width start at byte `k` of a word? (`addr & mask == 0`) */
  predicate Aligned(w: Width, k: nat) {
    match w case B => true case H => k % 2 == 0 case W => k == 0
  }

  /** The stack is grown for an address in the gap above the data segment, at most 16 MB down. */
  predicate InStackGap(m: Mem, addr: Word) {
    m.DataTop() < addr < m.StackBot() && addr > Wrap(m.StackBot() - 16 * MEGA)
  }

  function RoundUp4(n: nat): nat {
    (n + 3) / 4 * 4
  }

  /** Byte size of the stack after it is asked for `addl` more bytes: it at least doubles. */
  function GrownSize(m: Mem, addl: nat): nat {
    var size := 4 * |m.stack|;
    size + (if RoundUp4(addl) > size then RoundUp4(addl) else size)
  }

  /** `expand_stack`: old words stay at the top of the new array, the rest is zero. */
  function ExpandStack(m: Mem, addl: nat): Option<Mem> {
    if GrownSize(m, addl) > m.stackLimit then None
    else Some(m.(stack := seq(GrownSize(m, addl) / 4 - |m.stack|, _ => 0) + m.stack))
  }

  function ReadSeg(ws: seq<Word>, off: nat, w: Width): Word
    requires off / 4 < |ws| && Aligned(w, off % 4)
  {
    match w
    case B => SignExByte(Lane(ws[off / 4], off % 4))
    case H => SignEx(Lane(ws[off / 4], off % 4) + 0x100 * Lane(ws[off / 4], off % 4 + 1))
    case W => ws[off / 4]
  }

  function WriteSeg(word: Word, off: nat, w: Width, value: Word): Word
    requires Aligned(w, off % 4)
  {
    match w
    case B => WithLane(word, off % 4, value % 0x100)
    case H => WithLane(WithLane(word, off % 4, value % 0x100), off % 4 + 1, value / 0x100 % 0x100)
    case W => value
  }

  /** `mem_read_byte`, `mem_read_half`, `mem_read_word` and `bad_mem_read`. */
  function Read(m: Mem, cause: Word, w: Width, addr: Word): Access {
    if !Aligned(w, addr % 4) then Fault(EXC_ADEL)
    else
      var loc := Locate(m, addr);
      if loc.At? then Done(m, cause, ReadSeg(SegWords(m, loc.seg), loc.off, w))
      else if TEXT_BOT <= addr < m.textTop then Abort
      else if InStackGap(m, addr) then
        match ExpandStack(m, m.StackBot() - addr + 4)
        case Some(m') => Done(m', cause, 0)
        case None => Abort
      else if MM_IO_BOT <= addr then
        match ReadIo(m.io, cause, addr)
        case IoDone(io, cause', v) => Done(m.(io := io), cause', v)
        case IoAbort => Abort
      else Fault(EXC_DBE)
  }

  /** `mem_write_byte`, `mem_write_half`, `mem_write_word` and `bad_mem_write`. */
  function Write(m: Mem, cause: Word, w: Width, addr: Word, value: Word): Access {
    if !Aligned(w, addr % 4) then Fault(EXC_ADES)
    else
      var loc := Locate(m, addr);
      if loc.At? then Done(Store(m, loc, w, value), cause, 0)
      else if TEXT_BOT <= addr < m.textTop then Abort
      else if InStackGap(m, addr) then
        match ExpandStack(m, m.StackBot() - addr + 4)
        case Some(m') =>
          if m'.StackBot() <= addr
          then Done(Store(m', InStack(m', addr), w, value), cause, 0)
          else Fault(EXC_DBE)  // the bus error after growth; see ByteMap.GrowingWrite
        case None => Abort
      else if MM_IO_BOT <= addr then
        match WriteIo(m.io, cause, addr, value)
        case IoDone(io, cause', v) => Done(m.(io := io), cause', v)
        case IoAbort => Abort
      else Fault(EXC_DBE)
  }

  function Store(m: Mem, loc: Loc, w: Width, value: Word): Mem
    requires loc.At? && Aligned(w, loc.off % 4) && loc.off / 4 < |SegWords(m, loc.seg)|
  {
    var i := loc.off / 4;
    SetWord(m, loc.seg, i, WriteSeg(SegWords(m, loc.seg)[i], loc.off, w, value))
  }
}
