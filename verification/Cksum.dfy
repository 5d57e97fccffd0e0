/** `cksum`: the table-driven CRC is the remainder of dividing the message, followed by its length,
    by the generator polynomial one bit at a time. */
module Cksum {
  import opened CrcTable

  type Bytes = seq<bv8>

  // ----- reference: long division, one bit at a time -----

  /** Long division of a bit string: bring down the next bit; when the bit that falls out of the
      32-bit remainder is set, subtract the polynomial. */
  function Divide(bits: seq<bool>, r: bv32): bv32
    decreases |bits|
  {
    if bits == [] then r
    else Divide(bits[1..], Add(Feed(r), Coefficient(bits[0], 1)))
  }

  function Coefficient(bit: bool, p: bv32): bv32 {
    if bit then p else 0
  }

  /** The bits of a byte, most significant first. */
  function BitsOf(b: bv8): seq<bool> {
    [b & 0x80 != 0, b & 0x40 != 0, b & 0x20 != 0, b & 0x10 != 0,
     b & 0x08 != 0, b & 0x04 != 0, b & 0x02 != 0, b & 0x01 != 0]
  }

  function MessageBits(data: Bytes): seq<bool> {
    if data == [] then [] else BitsOf(data[0]) + MessageBits(data[1..])
  }

  /** The length in as few octets as it takes, least significant first; none for 0. */
  function LengthBytes(n: nat): Bytes {
    if n == 0 then [] else [(n % 0x100) as bv8] + LengthBytes(n / 0x100)
  }

  function Zeros(n: nat): seq<bool> {
    seq(n, _ => false)
  }

  function Complement(x: bv32): bv32 {
    !x
  }

  /** The POSIX definition: the message and its length, times x^32, divided; complemented. */
  function PosixCrc(data: Bytes, length: nat): bv32 {
    Complement(Divide(MessageBits(data + LengthBytes(length)) + Zeros(32), 0))
  }

  // ----- the division step is linear -----

  lemma AddZero(x: bv32)
    ensures Add(x, 0) == x && Add(0, x) == x && Add(x, x) == 0
  {
  }

  lemma AddAssoc(x: bv32, y: bv32, z: bv32)
    ensures Add(Add(x, y), z) == Add(x, Add(y, z))
  {
  }

  lemma AddComm(x: bv32, y: bv32)
    ensures Add(x, y) == Add(y, x)
  {
  }

  lemma TimesAdd(x: bv32, y: bv32)
    ensures Times(Add(x, y)) == Add(Times(x), Times(y))
  {
  }

  lemma TopAdd(x: bv32, y: bv32)
    ensures Top(Add(x, y)) <==> Top(x) != Top(y)
  {
  }

  /** (x + p) + (y + p) == x + y and (x + p) + y == (x + y) + p. */
  lemma AddTwice(x: bv32, y: bv32, p: bv32)
    ensures Add(Add(x, p), Add(y, p)) == Add(x, y) && Add(Add(x, p), y) == Add(Add(x, y), p)
  {
    hide Add;
    AddAssoc(x, p, Add(y, p));
    AddComm(y, p);
    AddAssoc(p, p, y);
    AddZero(p);
    AddZero(y);
    AddAssoc(x, p, y);
    AddAssoc(x, y, p);
  }

  lemma FeedLinear(x: bv32, y: bv32)
    ensures Feed(Add(x, y)) == Add(Feed(x), Feed(y))
  {
    hide Add, Times, Top;
    TimesAdd(x, y);
    TopAdd(x, y);
    AddTwice(Times(x), Times(y), POLY);
    AddAssoc(Times(x), Times(y), POLY);
  }

  function FeedN(r: bv32, n: nat): bv32 {
    if n == 0 then r else Feed(FeedN(r, n - 1))
  }

  lemma {:induction false} FeedNLinear(x: bv32, y: bv32, n: nat)
    ensures FeedN(Add(x, y), n) == Add(FeedN(x, n), FeedN(y, n))
  {
    hide Feed, Add;
    if n > 0 {
      FeedNLinear(x, y, n - 1);
      FeedLinear(FeedN(x, n - 1), FeedN(y, n - 1));
    }
  }

  lemma {:induction false} FeedNPlus(r: bv32, n: nat, k: nat)
    ensures FeedN(FeedN(r, n), k) == FeedN(r, n + k)
  {
    hide Feed;
    if k > 0 {
      FeedNPlus(r, n, k - 1);
    }
  }

  lemma Feed8Is(r: bv32)
    ensures Feed8(r) == FeedN(r, 8)
  {
    hide Feed;
    assert FeedN(r, 0) == r;
    assert FeedN(r, 2) == Feed(Feed(r));
    assert FeedN(r, 4) == Feed(Feed(Feed(Feed(r))));
    assert FeedN(r, 6) == Feed(Feed(FeedN(r, 4)));
  }

  /** A bit 32 places up is the polynomial. */
  lemma TopIsPoly()
    ensures FeedN(1, 32) == POLY && FeedN(0, 32) == 0
  {
    hide FeedN, Feed8;
    EightUp();
    FeedNPlus(1, 8, 8);
    FeedNPlus(1, 16, 8);
    FeedNPlus(1, 24, 8);
    Feed8Is(1);
    Feed8Is(0x100);
    Feed8Is(0x1_0000);
    Feed8Is(0x100_0000);
    FeedNPlus(0, 8, 8);
    FeedNPlus(0, 16, 16);
    Feed8Is(0);
  }

  lemma EightUp()
    ensures Feed8(0) == 0 && Feed8(1) == 0x100 && Feed8(0x100) == 0x1_0000 && Feed8(0x1_0000) == 0x100_0000
    ensures Feed8(0x100_0000) == POLY
  {
  }

  // ----- appending 32 zeros, against feeding bits at the top -----

  /** The register form: each bit meets the bit falling out. */
  function Register(bits: seq<bool>, r: bv32): bv32
    decreases |bits|
  {
    if bits == [] then r
    else Register(bits[1..], Add(Feed(r), Coefficient(bits[0], POLY)))
  }

  /** Division keeps a remainder 32 places behind the register. */
  lemma {:induction false} RegisterAhead(bits: seq<bool>, r: bv32)
    ensures Register(bits, FeedN(r, 32)) == FeedN(Divide(bits, r), 32)
    decreases |bits|
  {
    hide Feed, FeedN, Add;
    if bits != [] {
      var b := Coefficient(bits[0], 1);
      TopIsPoly();
      assert FeedN(b, 32) == Coefficient(bits[0], POLY);
      FeedNLinear(Feed(r), b, 32);
      FeedCommutes(r, 32);
      RegisterAhead(bits[1..], Add(Feed(r), b));
    }
  }

  lemma {:induction false} FeedCommutes(r: bv32, n: nat)
    ensures FeedN(Feed(r), n) == Feed(FeedN(r, n))
  {
    hide Feed;
    if n > 0 {
      FeedCommutes(r, n - 1);
    }
  }

  lemma {:induction false} DivideZeros(r: bv32, n: nat)
    ensures Divide(Zeros(n), r) == FeedN(r, n)
    decreases n
  {
    hide Feed, Add;
    if n > 0 {
      assert Zeros(n)[1..] == Zeros(n - 1);
      AddZero(Feed(r));
      DivideZeros(Feed(r), n - 1);
      FeedCommutes(r, n - 1);
    }
  }

  lemma {:induction false} DivideSplit(x: seq<bool>, y: seq<bool>, r: bv32)
    ensures Divide(x + y, r) == Divide(y, Divide(x, r))
    decreases |x|
  {
    hide Feed, Add, Coefficient;
    if x == [] {
      assert x + y == y;
    } else {
      assert (x + y)[1..] == x[1..] + y;
      DivideSplit(x[1..], y, Add(Feed(r), Coefficient(x[0], 1)));
    }
  }

  lemma RegisterDivides(bits: seq<bool>)
    ensures Register(bits, 0) == Divide(bits + Zeros(32), 0)
  {
    TopIsPoly();
    RegisterAhead(bits, 0);
    DivideSplit(bits, Zeros(32), 0);
    DivideZeros(Divide(bits, 0), 32);
  }

  // ----- a byte at a time, through the table -----

  lemma TableDivides(i: bv8)
    ensures Table(i) == Feed8(OnTop(i))
  {
    hide Feed8;
    if i < 0x10 { Row0Divides(i); } else if i < 0x20 { Row1Divides(i); }
    else if i < 0x30 { Row2Divides(i); } else if i < 0x40 { Row3Divides(i); }
    else if i < 0x50 { Row4Divides(i); } else if i < 0x60 { Row5Divides(i); }
    else if i < 0x70 { Row6Divides(i); } else if i < 0x80 { Row7Divides(i); }
    else if i < 0x90 { Row8Divides(i); } else if i < 0xa0 { Row9Divides(i); }
    else if i < 0xb0 { Row10Divides(i); } else if i < 0xc0 { Row11Divides(i); }
    else if i < 0xd0 { Row12Divides(i); } else if i < 0xe0 { Row13Divides(i); }
    else if i < 0xf0 { Row14Divides(i); } else { Row15Divides(i); }
  }

  function Index(ck: bv32, byte: bv8): bv8 {
    ((ck >> 24) as bv8) ^ byte
  }

  /** A byte as the eight highest coefficients. */
  function OnTop(byte: bv8): bv32 {
    (byte as bv32) << 24
  }

  /** One step of the loop: `(ck << 8) ^ crctab[(ck >> 24) ^ byte]`. */
  function StepByte(ck: bv32, byte: bv8): bv32 {
    Add(ck << 8, Table(Index(ck, byte)))
  }

  lemma ShiftedOut(r: bv32)
    ensures Feed8(r & 0x00ff_ffff) == r << 8
  {
  }

  lemma TopAndRest(ck: bv32, byte: bv8)
    ensures Add(ck, OnTop(byte)) == Add(OnTop(Index(ck, byte)), ck & 0x00ff_ffff)
  {
    hide Add, OnTop, Index;
    var high, low := OnTop((ck >> 24) as bv8), ck & 0x00ff_ffff;
    HighAndLow(ck);
    IndexOnTop(ck, byte);
    AddAssoc(high, low, OnTop(byte));
    AddComm(low, OnTop(byte));
    AddAssoc(high, OnTop(byte), low);
  }

  lemma HighAndLow(ck: bv32)
    ensures ck == Add(OnTop((ck >> 24) as bv8), ck & 0x00ff_ffff)
  {
  }

  lemma IndexOnTop(ck: bv32, byte: bv8)
    ensures OnTop(Index(ck, byte)) == Add(OnTop((ck >> 24) as bv8), OnTop(byte))
  {
  }

  lemma Feed8Linear(x: bv32, y: bv32)
    ensures Feed8(Add(x, y)) == Add(Feed8(x), Feed8(y))
  {
    hide Feed8, FeedN, Add;
    Feed8Is(x);
    Feed8Is(y);
    Feed8Is(Add(x, y));
    FeedNLinear(x, y, 8);
  }

  /** The table step is eight division steps with the byte on top. */
  lemma StepByteFeeds(ck: bv32, byte: bv8)
    ensures StepByte(ck, byte) == Feed8(Add(ck, OnTop(byte)))
  {
    hide Feed8, Table, Add, OnTop, Index;
    var i := Index(ck, byte);
    TopAndRest(ck, byte);
    Feed8Linear(OnTop(i), ck & 0x00ff_ffff);
    ShiftedOut(ck);
    TableDivides(i);
    AddComm(Table(i), ck << 8);
  }

  /** One bit: the bits still to come ride on top of the register. */
  lemma BitOnTop(r: bv32, w: bv32)
    ensures Feed(Add(r, w)) == Add(Add(Feed(r), Coefficient(Top(w), POLY)), Times(w))
  {
    hide Feed, Add, Times;
    FeedLinear(r, w);
    FeedIs(w);
    var c := Coefficient(Top(w), POLY);
    AddAssoc(Feed(r), c, Times(w));
    AddComm(c, Times(w));
  }

  lemma FeedIs(w: bv32)
    ensures Feed(w) == Add(Times(w), Coefficient(Top(w), POLY))
  {
    hide Add, Times, Top;
    AddZero(Times(w));
  }

  lemma {:induction false} RegisterOnTop(bits: seq<bool>, r: bv32, w: bv32)
    requires TopBits(bits, w)
    ensures Register(bits, r) == FeedN(Add(r, w), |bits|)
    decreases |bits|
  {
    hide Feed, Add, Top, Times;
    if bits == [] {
      AddZero(r);
    } else {
      BitOnTop(r, w);
      RegisterOnTop(bits[1..], Add(Feed(r), Coefficient(bits[0], POLY)), Times(w));
      FeedCommutes(Add(r, w), |bits| - 1);
    }
  }

  /** `w` holds exactly these bits, from its top. */
  ghost predicate TopBits(bits: seq<bool>, w: bv32)
    decreases |bits|
  {
    if bits == [] then w == 0 else bits[0] == Top(w) && TopBits(bits[1..], Times(w))
  }

  lemma ByteOnTop(b: bv8)
    ensures TopBits(BitsOf(b), OnTop(b))
  {
    hide Top, Times, OnTop, TopBits, Four, BitsOf;
    var w := OnTop(b);
    var w4 := Times(Times(Times(Times(w))));
    FoursOfByte(b);
    assert TopBits([], Times(Times(Times(Times(w4))))) by { NoTopBits(); }
    FourOnTop(w4, []);
    FourOnTop(w, Four(w4) + []);
  }

  lemma FoursOfByte(b: bv8)
    ensures var w4 := Times(Times(Times(Times(OnTop(b)))));
            BitsOf(b) == Four(OnTop(b)) + (Four(w4) + []) && Times(Times(Times(Times(w4)))) == 0
  {
    hide Top, Times, OnTop;
    TopOfByte(b);
  }

  function Four(w: bv32): seq<bool> {
    [Top(w), Top(Times(w)), Top(Times(Times(w))), Top(Times(Times(Times(w))))]
  }

  lemma NoTopBits()
    ensures TopBits([], 0)
  {
  }

  lemma FourOnTop(w: bv32, rest: seq<bool>)
    requires TopBits(rest, Times(Times(Times(Times(w)))))
    ensures TopBits(Four(w) + rest, w)
  {
    hide Top, Times, TopBits;
    var w1 := Times(w);
    var w2 := Times(w1);
    var w3 := Times(w2);
    OneOnTop(w3, rest);
    OneOnTop(w2, [Top(w3)] + rest);
    OneOnTop(w1, [Top(w2)] + ([Top(w3)] + rest));
    OneOnTop(w, [Top(w1)] + ([Top(w2)] + ([Top(w3)] + rest)));
    assert Four(w) + rest == [Top(w)] + ([Top(w1)] + ([Top(w2)] + ([Top(w3)] + rest)));
  }

  lemma OneOnTop(w: bv32, rest: seq<bool>)
    requires TopBits(rest, Times(w))
    ensures TopBits([Top(w)] + rest, w)
  {
    hide Top, Times;
    assert ([Top(w)] + rest)[1..] == rest;
  }

  lemma TopOfByte(b: bv8)
    ensures var w0 := OnTop(b);
            var w1 := Times(w0);
            var w2 := Times(w1);
            var w3 := Times(w2);
            && Top(w0) == (b & 0x80 != 0) && Top(w1) == (b & 0x40 != 0)
            && Top(w2) == (b & 0x20 != 0) && Top(w3) == (b & 0x10 != 0)
            && var w4 := Times(w3);
            var w5 := Times(w4);
            var w6 := Times(w5);
            var w7 := Times(w6);
            && Top(w4) == (b & 0x08 != 0) && Top(w5) == (b & 0x04 != 0)
            && Top(w6) == (b & 0x02 != 0) && Top(w7) == (b & 0x01 != 0) && Times(w7) == 0
  {
  }

  lemma StepByteRegisters(ck: bv32, byte: bv8)
    ensures StepByte(ck, byte) == Register(BitsOf(byte), ck)
  {
    hide Feed8, FeedN, StepByte, TopBits, Add, OnTop;
    StepByteFeeds(ck, byte);
    ByteOnTop(byte);
    RegisterOnTop(BitsOf(byte), ck, OnTop(byte));
    Feed8Is(Add(ck, OnTop(byte)));
  }

  // ----- whole buffers -----

  function StepBytes(ck: bv32, data: Bytes): bv32
    decreases |data|
  {
    if data == [] then ck else StepBytes(StepByte(ck, data[0]), data[1..])
  }

  lemma {:induction false} StepBytesSplit(ck: bv32, x: Bytes, y: Bytes)
    ensures StepBytes(ck, x + y) == StepBytes(StepBytes(ck, x), y)
    decreases |x|
  {
    hide StepByte;
    if x == [] {
      assert x + y == y;
    } else {
      assert (x + y)[1..] == x[1..] + y;
      StepBytesSplit(StepByte(ck, x[0]), x[1..], y);
    }
  }

  lemma {:induction false} RegisterSplit(x: seq<bool>, y: seq<bool>, r: bv32)
    ensures Register(x + y, r) == Register(y, Register(x, r))
    decreases |x|
  {
    hide Feed, Add, Coefficient;
    if x == [] {
      assert x + y == y;
    } else {
      assert (x + y)[1..] == x[1..] + y;
      RegisterSplit(x[1..], y, Add(Feed(r), Coefficient(x[0], POLY)));
    }
  }

  lemma {:induction false} BytesRegister(ck: bv32, data: Bytes)
    ensures StepBytes(ck, data) == Register(MessageBits(data), ck)
    decreases |data|
  {
    hide StepByte, Register, BitsOf;
    if data == [] {
      assert Register([], ck) == ck by { NoBits(ck); }
    } else {
      StepByteRegisters(ck, data[0]);
      RegisterSplit(BitsOf(data[0]), MessageBits(data[1..]), ck);
      BytesRegister(StepByte(ck, data[0]), data[1..]);
    }
  }

  lemma NoBits(ck: bv32)
    ensures Register([], ck) == ck
  {
  }

  /** The table-driven computation is the POSIX definition. */
  lemma TableComputesPosix(data: Bytes, length: nat)
    ensures Complement(StepBytes(StepBytes(0, data), LengthBytes(length))) == PosixCrc(data, length)
  {
    hide StepBytes, Register, Divide, MessageBits, LengthBytes, Zeros, Complement;
    var all := data + LengthBytes(length);
    StepBytesSplit(0, data, LengthBytes(length));
    BytesRegister(0, all);
    RegisterDivides(MessageBits(all));
    assert StepBytes(0, all) == Divide(MessageBits(all) + Zeros(32), 0);
  }

  // ----- the programs -----

  /** The length loop shared by both programs. */
  method FoldLength(start: bv32, length: nat) returns (ck: bv32)
    ensures ck == StepBytes(start, LengthBytes(length))
  {
    ck := start;
    var n := length;
    while n != 0
      invariant n >= 0 && StepBytes(ck, LengthBytes(n)) == StepBytes(start, LengthBytes(length))
    {
      hide StepByte;
      assert LengthBytes(n)[1..] == LengthBytes(n / 0x100);
      ck := StepByte(ck, (n % 0x100) as bv8);
      n := n / 0x100;
    }
  }

  /** The byte loop over one buffer. */
  method FoldBuffer(start: bv32, data: Bytes) returns (ck: bv32)
    ensures ck == StepBytes(start, data)
  {
    ck := start;
    var i := 0;
    while i < |data|
      invariant i <= |data| && StepBytes(ck, data[i..]) == StepBytes(start, data)
    {
      hide StepByte;
      assert data[i..][1..] == data[i + 1..];
      ck := StepByte(ck, data[i]);
      i := i + 1;
    }
    assert data[i..] == [];
  }

  /** `cksum_of`. The length is a 32-bit unsigned number. */
  method CksumOf(data: Bytes) returns (crc: bv32)
    requires |data| < 0x1_0000_0000
    ensures crc == PosixCrc(data, |data|)
  {
    hide StepBytes, PosixCrc, Complement, LengthBytes;
    var ck := FoldBuffer(0, data);
    ck := FoldLength(ck, |data|);
    TableComputesPosix(data, |data|);
    crc := Complement(ck);
  }

  function Joined(blocks: seq<Bytes>): Bytes {
    if blocks == [] then [] else blocks[0] + Joined(blocks[1..])
  }

  lemma NoBytes(ck: bv32)
    ensures StepBytes(ck, []) == ck
  {
  }

  lemma Wraps(a: nat, b: nat, c: nat)
    ensures ((a + b) % 0x1_0000_0000 + c) % 0x1_0000_0000 == (a + (b + c)) % 0x1_0000_0000
  {
  }

  /** `cksum` reading block by block, the count wrapping at 2^32: however the input is split, the
      result is that of the whole input. */
  method CksumStream(blocks: seq<Bytes>) returns (crc: bv32, length: nat)
    ensures length == |Joined(blocks)| % 0x1_0000_0000
    ensures crc == PosixCrc(Joined(blocks), length)
  {
    hide StepBytes, PosixCrc, Complement, LengthBytes;
    var ck: bv32 := 0;
    length := 0;
    var k := 0;
    assert blocks[0..] == blocks;
    while k < |blocks|
      invariant k <= |blocks|
      invariant StepBytes(ck, Joined(blocks[k..])) == StepBytes(0, Joined(blocks))
      invariant 0 <= length < 0x1_0000_0000
      invariant (length + |Joined(blocks[k..])|) % 0x1_0000_0000 == |Joined(blocks)| % 0x1_0000_0000
    {
      assert blocks[k..][1..] == blocks[k + 1..];
      StepBytesSplit(ck, blocks[k], Joined(blocks[k + 1..]));
      Wraps(length, |blocks[k]|, |Joined(blocks[k + 1..])|);
      ck := FoldBuffer(ck, blocks[k]);
      length := (length + |blocks[k]|) % 0x1_0000_0000;
      k := k + 1;
    }
    assert blocks[k..] == [];
    NoBytes(ck);
    ck := FoldLength(ck, length);
    TableComputesPosix(Joined(blocks), length);
    crc := Complement(ck);
  }
}
