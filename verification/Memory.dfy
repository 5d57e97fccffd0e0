/** The memory as the simulator keeps it: segment arrays written in place, the stack segment
    reallocated and copied when it grows. Each operation is proved against `MemModel`, whose bytes
    `ByteMap` describes. */
module Memory {
  import opened Words
  import opened MemModel
  import opened ByteMap

  datatype Status = Got(value: Word) | Faulted(code: nat) | Aborted

  /** Data segment growth: `addl` bytes rounded up to words, all zero. */
  function GrownData(m: Mem, addl: nat): Mem {
    m.(data := m.data + seq(RoundUp4(addl) / 4, _ => 0))
  }

  /** Old data bytes stay, the new ones are zero, everything outside the new range is as before. */
  lemma DataGrowthKeepsBytes(m: Mem, addl: nat, a: Word)
    requires m.Valid() && GrownData(m, addl).Valid()
    ensures var m' := GrownData(m, addl);
            && m'.DataTop() >= m.DataTop() + addl
            && ByteAt(m', a) == if m.DataTop() <= a < m'.DataTop() then Some(0) else ByteAt(m, a)
  {
    hide Lane;
    ZeroLanes();
  }

  /** Accesses inside the segments. */
  lemma InPlace(m: Mem, cause: Word, w: Width, addr: Word, value: Word)
    ensures Located(m, addr) && Aligned(w, addr % 4) ==>
              var loc := Locate(m, addr);
              && Read(m, cause, w, addr) == Done(m, cause, ReadSeg(SegWords(m, loc.seg), loc.off, w))
              && Write(m, cause, w, addr, value) ==
                 Done(SetWord(m, loc.seg, loc.off / 4, WriteSeg(WordAt(m, addr), loc.off, w, value)), cause, 0)
  {
    hide ReadSeg, WriteSeg, Aligned;
  }

  class Segments {
    const textTop: Word
    const stackLimit: nat
    const dataLimit: nat
    var data: array<Word>
    var stack: array<Word>
    var kdata: array<Word>
    var io: Io
    var cause: Word

    ghost predicate Valid()
      reads this, data, stack, kdata
    {
      && data != stack && data != kdata && stack != kdata
      && dataLimit <= STACK_TOP - DATA_BOT
      && Model().Valid()
    }

    function Model(): Mem
      reads this, data, stack, kdata
    {
      Mem(textTop, data[..], stack[..], kdata[..], stackLimit, io)
    }

    /** `make_memory` with the segment sizes in words. */
    constructor (textTop: Word, dataWords: nat, stackWords: nat, kdataWords: nat, stackLimit: nat, dataLimit: nat)
      requires DATA_BOT + 4 * dataWords < TWO32 && 4 * stackWords <= STACK_TOP && K_DATA_BOT + 4 * kdataWords < TWO32
      requires stackLimit <= STACK_TOP && dataLimit <= STACK_TOP - DATA_BOT
      ensures Valid() && fresh(data) && fresh(stack) && fresh(kdata) && cause == 0
      ensures Model() == Mem(textTop, seq(dataWords, _ => 0), seq(stackWords, _ => 0), seq(kdataWords, _ => 0), stackLimit,
                             IO_RESET)
    {
      this.textTop, this.stackLimit, this.dataLimit := textTop, stackLimit, dataLimit;
      data := new Word[dataWords](_ => 0);
      stack := new Word[stackWords](_ => 0);
      kdata := new Word[kdataWords](_ => 0);
      io, cause := IO_RESET, 0;
    }

    /** `expand_stack`: a zeroed block of the new size, the old words copied to its top. */
    method GrowStack(addl: int) returns (ok: bool)
      requires Valid()
      modifies this`stack
      ensures Valid() && (stack == old(stack) || fresh(stack))
      ensures ok <==> addl >= 0 && ExpandStack(old(Model()), addl).Some?
      ensures ok ==> Some(Model()) == ExpandStack(old(Model()), addl)
      ensures !ok ==> stack == old(stack)
    {
      var delta := (addl + 3) / 4 * 4;
      var oldSize := 4 * stack.Length;
      var newSize := oldSize + (if delta > oldSize then delta else oldSize);
      if addl < 0 || newSize > stackLimit {
        return false;
      }
      assert newSize == 4 * (newSize / 4) && RoundUp4(addl) == delta;
      var seg := stack;
      var block := new Word[newSize / 4](_ => 0);
      var po, pn := seg.Length - 1, block.Length - 1;
      ghost var shift := block.Length - seg.Length;
      while po >= 0
        invariant -1 <= po < seg.Length && pn == po + shift && shift >= 0
        invariant forall j | 0 <= j <= pn :: block[j] == 0
        invariant forall j | pn < j < block.Length :: block[j] == seg[j - shift]
      {
        block[pn] := seg[po];
        pn, po := pn - 1, po - 1;
      }
      assert block[..] == seq(shift, _ => 0) + seg[..];
      stack := block;
      return true;
    }

    /** `expand_data`: the block is extended and the new part cleared. */
    method GrowData(addl: int) returns (ok: bool)
      requires Valid()
      modifies this`data
      ensures Valid() && (data == old(data) || fresh(data))
      ensures ok <==> addl >= 0 && 4 * |old(Model()).data| + RoundUp4(addl) <= dataLimit
      ensures Model() == if ok then GrownData(old(Model()), addl) else old(Model())
    {
      var delta := (addl + 3) / 4 * 4;
      var oldSize := 4 * data.Length;
      var newSize := oldSize + delta;
      if addl < 0 || newSize > dataLimit {
        return false;
      }
      assert newSize == 4 * (newSize / 4) && newSize / 4 == data.Length + delta / 4 && RoundUp4(addl) == delta;
      var seg := data;
      var block := new Word[newSize / 4];
      forall j | 0 <= j < seg.Length {
        block[j] := seg[j];
      }
      var p := seg.Length;
      while p < block.Length
        invariant seg.Length <= p <= block.Length
        invariant forall j | 0 <= j < seg.Length :: block[j] == seg[j]
        invariant forall j | seg.Length <= j < p :: block[j] == 0
      {
        block[p] := 0;
        p := p + 1;
      }
      assert block[..] == seg[..] + seq(delta / 4, _ => 0);
      data := block;
      return true;
    }

    /** `mem_read_byte`, `mem_read_half`, `mem_read_word`. */
    method ReadMem(w: Width, addr: Word) returns (r: Status)
      requires Valid()
      modifies this`stack, this`io, this`cause
      ensures Valid() && (stack == old(stack) || fresh(stack))
      ensures match Read(old(Model()), old(cause), w, addr)
              case Done(m, c, v) => r == Got(v) && Model() == m && cause == c
              case Fault(code) => r == Faulted(code) && Model() == old(Model()) && cause == old(cause)
              case Abort => r == Aborted && Model() == old(Model()) && cause == old(cause)
    {
      hide ReadSeg, Read, Aligned;
      var aligned := Aligned(w, addr % 4);
      InPlace(Model(), cause, w, addr, 0);
      var stackBot := STACK_TOP - 4 * stack.Length;
      if DATA_BOT <= addr < DATA_BOT + 4 * data.Length && aligned {
        r := Got(View(data, addr - DATA_BOT, w));
      } else if stackBot <= addr < STACK_TOP && aligned {
        r := Got(View(stack, addr - stackBot, w));
      } else if K_DATA_BOT <= addr < K_DATA_BOT + 4 * kdata.Length && aligned {
        r := Got(View(kdata, addr - K_DATA_BOT, w));
      } else {
        r := BadRead(w, addr);
      }
    }

    /** A segment seen as bytes, halfwords or words. */
    function View(seg: array<Word>, off: nat, w: Width): Word
      requires off / 4 < seg.Length && Aligned(w, off % 4)
      reads seg
      ensures View(seg, off, w) == ReadSeg(seg[..], off, w)
    {
      match w
      case B => SignExByte(Lane(seg[off / 4], off % 4))
      case H => SignEx(Lane(seg[off / 4], off % 4) + 0x100 * Lane(seg[off / 4], off % 4 + 1))
      case W => seg[off / 4]
    }

    /** `bad_mem_read`: misaligned, text, below the stack, device or nowhere. */
    method BadRead(w: Width, addr: Word) returns (r: Status)
      requires Valid() && (!Aligned(w, addr % 4) || !Located(Model(), addr))
      modifies this`stack, this`io, this`cause
      ensures Valid() && (stack == old(stack) || fresh(stack))
      ensures match Read(old(Model()), old(cause), w, addr)
              case Done(m, c, v) => r == Got(v) && Model() == m && cause == c
              case Fault(code) => r == Faulted(code) && Model() == old(Model()) && cause == old(cause)
              case Abort => r == Aborted && Model() == old(Model()) && cause == old(cause)
    {
      var stackBot := STACK_TOP - 4 * stack.Length;
      if !Aligned(w, addr % 4) {
        r := Faulted(EXC_ADEL);
      } else if TEXT_BOT <= addr < textTop {
        r := Aborted;
      } else if DATA_BOT + 4 * data.Length < addr < stackBot && addr > Wrap(stackBot - 16 * MEGA) {
        var ok := GrowStack(stackBot - addr + 4);
        r := if ok then Got(0) else Aborted;
      } else if MM_IO_BOT <= addr {
        var x := ReadIo(io, cause, addr);
        if x.IoDone? {
          io, cause := x.io, x.cause;
          r := Got(x.value);
        } else {
          r := Aborted;
        }
      } else {
        r := Faulted(EXC_DBE);
      }
    }

    /** Assign into a segment seen as bytes, halfwords or words. */
    method Assign(seg: array<Word>, off: nat, w: Width, value: Word)
      requires off / 4 < seg.Length && Aligned(w, off % 4)
      modifies seg
      ensures seg[..] == old(seg[..])[off / 4 := WriteSeg(old(seg[off / 4]), off, w, value)]
    {
      hide WithLane;
      var i, k := off / 4, off % 4;
      match w
      case B => seg[i] := WithLane(seg[i], k, value % 0x100);
      case H =>
        seg[i] := WithLane(seg[i], k, value % 0x100);
        seg[i] := WithLane(seg[i], k + 1, value / 0x100 % 0x100);
      case W => seg[i] := value;
    }

    /** `mem_write_byte`, `mem_write_half`, `mem_write_word`. */
    method WriteMem(w: Width, addr: Word, value: Word) returns (r: Status)
      requires Valid()
      modifies this`stack, this`io, this`cause, data, stack, kdata
      ensures Valid() && (stack == old(stack) || fresh(stack))
      ensures match Write(old(Model()), old(cause), w, addr, value)
              case Done(m, c, v) => r == Got(v) && Model() == m && cause == c
              case Fault(code) => r == Faulted(code) && Model() == old(Model()) && cause == old(cause)
              case Abort => r == Aborted && Model() == old(Model()) && cause == old(cause)
    {
      hide WriteSeg, Write, Aligned;
      var aligned := Aligned(w, addr % 4);
      InPlace(Model(), cause, w, addr, value);
      var stackBot := STACK_TOP - 4 * stack.Length;
      r := Got(0);
      if DATA_BOT <= addr < DATA_BOT + 4 * data.Length && aligned {
        Assign(data, addr - DATA_BOT, w, value);
      } else if stackBot <= addr < STACK_TOP && aligned {
        Assign(stack, addr - stackBot, w, value);
      } else if K_DATA_BOT <= addr < K_DATA_BOT + 4 * kdata.Length && aligned {
        Assign(kdata, addr - K_DATA_BOT, w, value);
      } else {
        r := BadWrite(w, addr, value);
      }
    }

    /** `bad_mem_write`; its last bus error, after growth, is never reached. */
    method BadWrite(w: Width, addr: Word, value: Word) returns (r: Status)
      requires Valid() && (!Aligned(w, addr % 4) || !Located(Model(), addr))
      modifies this`stack, this`io, this`cause
      ensures Valid() && (stack == old(stack) || fresh(stack))
      ensures match Write(old(Model()), old(cause), w, addr, value)
              case Done(m, c, v) => r == Got(v) && Model() == m && cause == c
              case Fault(code) => r == Faulted(code) && Model() == old(Model()) && cause == old(cause)
              case Abort => r == Aborted && Model() == old(Model()) && cause == old(cause)
    {
      hide WriteSeg, WriteIo, ExpandStack;
      var stackBot := STACK_TOP - 4 * stack.Length;
      if !Aligned(w, addr % 4) {
        r := Faulted(EXC_ADES);
      } else if TEXT_BOT <= addr < textTop {
        r := Aborted;
      } else if DATA_BOT + 4 * data.Length < addr < stackBot && addr > Wrap(stackBot - 16 * MEGA) {
        r := GrowAndWrite(w, addr, value);
      } else if MM_IO_BOT <= addr {
        var x := WriteIo(io, cause, addr, value);
        if x.IoDone? {
          io, cause := x.io, x.cause;
          r := Got(x.value);
        } else {
          r := Aborted;
        }
      } else {
        r := Faulted(EXC_DBE);
      }
    }

    method GrowAndWrite(w: Width, addr: Word, value: Word) returns (r: Status)
      requires Valid() && !Located(Model(), addr) && Aligned(w, addr % 4) && InStackGap(Model(), addr) && !InText(Model(), addr)
      modifies this`stack
      ensures Valid() && (stack == old(stack) || fresh(stack))
      ensures match ExpandStack(old(Model()), old(Model()).StackBot() - addr + 4)
              case Some(m) => r == Got(0) && m.StackBot() <= addr && Model() == Store(m, InStack(m, addr), w, value)
              case None => r == Aborted && Model() == old(Model())
    {
      hide WriteSeg, ExpandStack, Wrap;
      ghost var before := Model();
      var stackBot := STACK_TOP - 4 * stack.Length;
      var ok := GrowStack(stackBot - addr + 4);
      if !ok {
        return Aborted;
      }
      GrowthCovers(before, addr, Model());
      stackBot := STACK_TOP - 4 * stack.Length;
      Assign(stack, addr - stackBot, w, value);
      r := Got(0);
    }
  }
}
