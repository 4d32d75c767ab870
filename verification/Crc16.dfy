/** The CRC-16 of the Modbus RTU simulator (simulator_modbus/main.cpp, lines 161-190).

    `Crc` is the byte-wise checksum the loops compute. The theorems look at the frame as a
    stream of bits - bytes in order, least significant bit first - where one bit is one
    application of the shift register, and show which corruptions a receiver must notice. */
module Crc16 {

  const INIT: bv16 := 0xFFFF

  /** One round of the shift register: the reflected polynomial 0xA001 is added when the bit
      shifted out is 1 (`0 - (c & 1)` is then the all-ones mask). */
  function Shift(c: bv16): bv16 {
    Plus(Half(c), Added(c))
  }

  function Plus(v: bv16, w: bv16): bv16 { v ^ w }

  function Half(c: bv16): bv16 { c >> 1 }

  function Added(c: bv16): bv16 {
    0xA001 & (0 - (c & 1))
  }

  function Shifts(c: bv16, n: nat): bv16
    decreases n
  {
    if n == 0 then c else Shifts(Shift(c), n - 1)
  }

  function ByteStep(c: bv16, b: bv8): bv16 {
    Shifts(Plus(c, Wide(b)), 8)
  }

  function CrcFrom(c: bv16, data: seq<bv8>): bv16
    decreases |data|
  {
    if data == [] then c else CrcFrom(ByteStep(c, data[0]), data[1..])
  }

  function Crc(data: seq<bv8>): bv16 {
    CrcFrom(INIT, data)
  }

  function LowByte(w: bv16): bv8 { (w & 0xFF) as bv8 }

  function HighByte(w: bv16): bv8 { (w >> 8) as bv8 }

  function Word(high: bv8, low: bv8): bv16 {
    (low as bv16) | ((high as bv16) << 8)
  }

  /** A frame is acceptable when its last two bytes are the checksum of the rest, low byte first. */
  predicate Accepted(frame: seq<bv8>) {
    var n := |frame|;
    n >= 3 && Crc(frame[..n - 2]) == Word(frame[n - 1], frame[n - 2])
  }

  method ComputeCrc(data: seq<bv8>, len: nat) returns (crc: bv16)
    requires len <= |data|
    ensures crc == Crc(data[..len])
  {
    crc := 0xFFFF;
    for i := 0 to len
      invariant CrcFrom(crc, data[i..len]) == Crc(data[..len])
    {
      ghost var entry := crc;
      crc := crc ^ (data[i] as bv16);
      for j := 0 to 8
        invariant Shifts(crc, 8 - j) == ByteStep(entry, data[i])
      {
        if crc & 0x0001 == 1 {
          crc := (crc >> 1) ^ 0xA001;
        } else {
          crc := crc >> 1;
        }
      }
      assert data[i..len][1..] == data[i + 1..len];
    }
  }

  method AppendCrc(frame: seq<bv8>) returns (r: seq<bv8>)
    ensures r == WithCrc(frame)
  {
    var crc := ComputeCrc(frame, |frame|);
    assert frame[..|frame|] == frame;
    r := frame + [(crc & 0xFF) as bv8];
    r := r + [((crc >> 8) & 0xFF) as bv8];
  }

  method ValidCrc(frame: seq<bv8>, length: nat) returns (ok: bool)
    requires length <= |frame|
    ensures ok == Accepted(frame[..length])
  {
    if length < 3 {
      return false;
    }
    var expected := ComputeCrc(frame, length - 2);
    var actual := Word(frame[length - 1], frame[length - 2]);
    ok := expected == actual;
    hide *;
    AcceptedTrailer(frame[..length]);
    assert frame[..length][..length - 2] == frame[..length - 2];
  }

  function WithCrc(frame: seq<bv8>): seq<bv8> {
    frame + [LowByte(Crc(frame)), HighByte(Crc(frame))]
  }

  lemma WordOfBytes(w: bv16)
    ensures Word(HighByte(w), LowByte(w)) == w
  {}

  lemma BytesOfWord(high: bv8, low: bv8)
    ensures HighByte(Word(high, low)) == high && LowByte(Word(high, low)) == low
  {}

  /** The number two bytes stand for, the high one first. */
  function BigEndian(high: bv8, low: bv8): nat {
    256 * ByteValue(high) + ByteValue(low)
  }

  function ByteValue(b: bv8): (n: nat)
    ensures n < 256
  {
    b as nat
  }

  lemma WordIsBigEndian(high: bv8, low: bv8)
    ensures Word(high, low) as nat == BigEndian(high, low)
  {
    hide Word, LowPart, HighPart, AsLow, AsHigh;
    WordParts(high, low);
    SumOfParts(Word(high, low));
    AsLowIs(low);
    AsHighIs(high);
  }

  // The parts of a word, each with its number.

  function LowPart(w: bv16): bv16 { w & 0xFF }

  function HighPart(w: bv16): bv16 { w & 0xFF00 }

  function AsLow(b: bv8): bv16 { b as bv16 }

  function AsHigh(b: bv8): bv16 { (b as bv16) << 8 }

  lemma WordParts(high: bv8, low: bv8)
    ensures LowPart(Word(high, low)) == AsLow(low) && HighPart(Word(high, low)) == AsHigh(high)
  {}

  lemma SumOfParts(w: bv16)
    ensures w as nat == LowPart(w) as nat + HighPart(w) as nat
  {
    ByteSum(w);
  }

  lemma ByteSum(w: bv16)
    ensures w as nat == (w & 0xFF) as nat + (w & 0xFF00) as nat
  {}

  lemma AsLowIs(b: bv8)
    ensures AsLow(b) as nat == b as nat
  {}

  lemma AsHighIs(b: bv8)
    ensures AsHigh(b) as nat == 256 * (b as nat)
  {}

  /** Whatever is appended to is afterwards accepted, unless it was empty: the receiver
      refuses frames shorter than three bytes. */
  lemma AppendedIsAccepted(frame: seq<bv8>)
    ensures Accepted(WithCrc(frame)) <==> frame != []
  {
    var r := WithCrc(frame);
    assert r[..|r| - 2] == frame;
    WordOfBytes(Crc(frame));
  }

  // ----- The register and the frame as bits -----

  /** The word with only bit `k` set, the lowest being bit 0. */
  function Mask(k: nat): bv16 {
    if k == 0 then 0x1
    else if k == 1 then 0x2
    else if k == 2 then 0x4
    else if k == 3 then 0x8
    else if k == 4 then 0x10
    else if k == 5 then 0x20
    else if k == 6 then 0x40
    else if k == 7 then 0x80
    else if k == 8 then 0x100
    else if k == 9 then 0x200
    else if k == 10 then 0x400
    else if k == 11 then 0x800
    else if k == 12 then 0x1000
    else if k == 13 then 0x2000
    else if k == 14 then 0x4000
    else if k == 15 then 0x8000
    else 0
  }

  predicate Bit(w: bv16, k: nat) {
    w & Mask(k) != 0
  }

  /** A word as its sixteen bits, a byte as its eight, lowest first. */
  function Reg(w: bv16): (r: seq<bool>)
    ensures |r| == 16
  {
    seq(16, k requires 0 <= k < 16 => Bit(w, k))
  }

  function Wide(b: bv8): bv16 { b as bv16 }

  function ByteBits(b: bv8): (r: seq<bool>)
    ensures |r| == 8
  {
    seq(8, k requires 0 <= k < 8 => Bit(Wide(b), k))
  }

  function FrameBits(frame: seq<bv8>): (r: seq<bool>)
    ensures |r| == 8 * |frame|
  {
    if frame == [] then [] else ByteBits(frame[0]) + FrameBits(frame[1..])
  }

  function Zeros(n: nat): (r: seq<bool>)
    ensures |r| == n
  {
    seq(n, k => false)
  }

  function Xor(x: seq<bool>, y: seq<bool>): (r: seq<bool>)
    requires |x| == |y|
    ensures |r| == |x|
  {
    seq(|x|, k requires 0 <= k < |x| => x[k] != y[k])
  }

  /** The shift register on bits: 0xA001 has the bits 0, 13 and 15. */
  function Round(r: seq<bool>): (shifted: seq<bool>)
    requires |r| == 16
    ensures |shifted| == 16
  {
    seq(16, k requires 0 <= k < 16 => (k < 15 && r[k + 1]) != (r[0] && (k == 0 || k == 13 || k == 15)))
  }

  function Rounds(r: seq<bool>, n: nat): (shifted: seq<bool>)
    requires |r| == 16
    ensures |shifted| == 16
    decreases n
  {
    if n == 0 then r else Rounds(Round(r), n - 1)
  }

  /** One bit of the frame enters at the bottom of the register. */
  function Feed(r: seq<bool>, bits: seq<bool>): (shifted: seq<bool>)
    requires |r| == 16
    ensures |shifted| == 16
    decreases |bits|
  {
    if bits == [] then r else Feed(Round(r[0 := r[0] != bits[0]]), bits[1..])
  }

  // The facts about machine words that the rest builds on.

  lemma RegInjective(v: bv16, w: bv16)
    requires Reg(v) == Reg(w)
    ensures v == w
  {
    forall k | 0 <= k < 16 ensures Bit(v, k) == Bit(w, k) {
      assert Reg(v)[k] == Reg(w)[k];
    }
    BitsDetermine(v, w);
  }

  lemma BitsDetermine(v: bv16, w: bv16)
    requires forall k :: 0 <= k < 16 ==> Bit(v, k) == Bit(w, k)
    ensures v == w
  {
    if v != w {
      hide Bit;
      var k := SetBit(v ^ w);
      XorBit(v, w, k);
      assert false;
    }
  }

  lemma SetBit(d: bv16) returns (k: nat)
    requires d != 0
    ensures k < 16 && Bit(d, k)
  {
    if d & 0x1 != 0 {
      k := 0;
    } else if d & 0x2 != 0 {
      k := 1;
    } else if d & 0x4 != 0 {
      k := 2;
    } else if d & 0x8 != 0 {
      k := 3;
    } else if d & 0x10 != 0 {
      k := 4;
    } else if d & 0x20 != 0 {
      k := 5;
    } else if d & 0x40 != 0 {
      k := 6;
    } else if d & 0x80 != 0 {
      k := 7;
    } else if d & 0x100 != 0 {
      k := 8;
    } else if d & 0x200 != 0 {
      k := 9;
    } else if d & 0x400 != 0 {
      k := 10;
    } else if d & 0x800 != 0 {
      k := 11;
    } else if d & 0x1000 != 0 {
      k := 12;
    } else if d & 0x2000 != 0 {
      k := 13;
    } else if d & 0x4000 != 0 {
      k := 14;
    } else if d & 0x8000 != 0 {
      k := 15;
    } else {
      assert false;
    }
  }

  lemma RegShift(c: bv16)
    ensures Reg(Shift(c)) == Round(Reg(c))
  {
    hide Bit, Shift, Mask;
    assert !Bit(c, 16) by { TopBit(c); }
    forall k | 0 <= k < 16 ensures Reg(Shift(c))[k] == Round(Reg(c))[k] {
      ShiftBit(c, k);
    }
  }

  lemma TopBit(c: bv16)
    ensures !Bit(c, 16)
  {}

  lemma ShiftBit(c: bv16, k: nat)
    requires k < 16
    ensures Bit(Shift(c), k) == (Bit(c, k + 1) != (Bit(c, 0) && (k == 0 || k == 13 || k == 15)))
  {
    hide *;
    ShiftParts(c, k);
    ShiftedBit(c, k);
    AddedBit(c, k);
  }

  lemma ShiftParts(c: bv16, k: nat)
    ensures Bit(Shift(c), k) == (Bit(Half(c), k) != Bit(Added(c), k))
  {
    hide Bit, Mask, Half, Added, Plus;
    XorBit(Half(c), Added(c), k);
  }

  lemma ShiftedBit(c: bv16, k: nat)
    ensures Bit(Half(c), k) == Bit(c, k + 1)
  {
    NextMask(k);
    hide Mask;
    ShiftedMask(c, Mask(k));
  }

  lemma NextMask(k: nat)
    ensures Mask(k + 1) == Mask(k) << 1
  {}

  lemma ShiftedMask(c: bv16, m: bv16)
    ensures (c >> 1) & m != 0 <==> c & (m << 1) != 0
  {}

  lemma AddedBit(c: bv16, k: nat)
    ensures Bit(Added(c), k) == (Bit(c, 0) && (k == 0 || k == 13 || k == 15))
  {
    AddedMask(c, Mask(k));
  }

  lemma AddedMask(c: bv16, m: bv16)
    requires OneBit(m)
    ensures (0xA001 & (0 - (c & 1))) & m != 0 <==> c & 1 != 0 && (m == 0x1 || m == 0x2000 || m == 0x8000)
  {}

  predicate OneBit(m: bv16) {
    m & (m - 1) == 0
  }

  lemma RegXorByte(c: bv16, b: bv8)
    ensures Reg(Plus(c, Wide(b))) == Xor(Reg(c), ByteBits(b) + Zeros(8))
  {
    hide Bit, Wide;
    RegXor(c, Wide(b));
    forall k | 0 <= k < 16 ensures Reg(Wide(b))[k] == (ByteBits(b) + Zeros(8))[k] {
      if k >= 8 {
        ByteBit(b, k);
      }
    }
    assert Reg(Wide(b)) == ByteBits(b) + Zeros(8);
  }

  lemma RegXor(v: bv16, w: bv16)
    ensures Reg(Plus(v, w)) == Xor(Reg(v), Reg(w))
  {
    hide Bit;
    forall k | 0 <= k < 16 ensures Reg(Plus(v, w))[k] == Xor(Reg(v), Reg(w))[k] {
      XorBit(v, w, k);
    }
  }

  lemma XorBit(v: bv16, w: bv16, k: nat)
    ensures Bit(Plus(v, w), k) == (Bit(v, k) != Bit(w, k))
  {
    assert OneBit(Mask(k));
    XorMask(v, w, Mask(k));
  }

  lemma XorMask(v: bv16, w: bv16, m: bv16)
    requires OneBit(m)
    ensures ((v ^ w) & m != 0) == ((v & m != 0) != (w & m != 0))
  {
    assert (v & m == 0 || v & m == m) && (w & m == 0 || w & m == m);
    assert (v ^ w) & m == (v & m) ^ (w & m);
  }

  lemma ByteBit(b: bv8, k: nat)
    requires 8 <= k
    ensures !Bit(Wide(b), k)
  {
    ByteMasks(Wide(b));
  }

  lemma ByteMasks(w: bv16)
    requires w & 0xFF00 == 0
    ensures w & 0x100 == 0 && w & 0x200 == 0 && w & 0x400 == 0 && w & 0x800 == 0
    ensures w & 0x1000 == 0 && w & 0x2000 == 0 && w & 0x4000 == 0 && w & 0x8000 == 0
  {}

  lemma RegWord(high: bv8, low: bv8)
    ensures Reg(Word(high, low)) == ByteBits(low) + ByteBits(high)
  {
    forall k | 0 <= k < 16 ensures Reg(Word(high, low))[k] == (ByteBits(low) + ByteBits(high))[k] {
      WordBit(high, low, k);
    }
  }

  lemma WordBit(high: bv8, low: bv8, k: nat)
    requires k < 16
    ensures Bit(Word(high, low), k) == if k < 8 then Bit(Wide(low), k) else Bit(Wide(high), k - 8)
  {
    hide *;
    WideBytes(high, low);
    if k < 8 {
      LowBit(Wide(high), Wide(low), k);
    } else {
      HighBit(Wide(high), Wide(low), k);
    }
  }

  lemma WideBytes(high: bv8, low: bv8)
    ensures Word(high, low) == Join(Wide(high), Wide(low))
    ensures Wide(low) & 0xFF00 == 0
  {}

  function Join(h: bv16, l: bv16): bv16 { l | (h << 8) }

  lemma LowBit(h: bv16, l: bv16, k: nat)
    requires k < 8
    ensures Bit(Join(h, l), k) == Bit(l, k)
  {
    LowMask(k);
    hide Mask;
    LowHalf(h, l, Mask(k));
  }

  lemma LowMask(k: nat)
    requires k < 8
    ensures Mask(k) & 0xFF00 == 0
  {}

  lemma HighMask(k: nat)
    requires 8 <= k < 16
    ensures Mask(k) == Mask(k - 8) << 8 && Mask(k - 8) & 0xFF00 == 0
  {}

  lemma HighBit(h: bv16, l: bv16, k: nat)
    requires 8 <= k < 16 && l & 0xFF00 == 0
    ensures Bit(Join(h, l), k) == Bit(h, k - 8)
  {
    HighMask(k);
    hide Mask;
    HighHalf(h, l, Mask(k - 8));
  }

  lemma LowHalf(h: bv16, l: bv16, m: bv16)
    requires m & 0xFF00 == 0
    ensures (l | (h << 8)) & m == l & m
  {}

  lemma HighHalf(h: bv16, l: bv16, m: bv16)
    requires l & 0xFF00 == 0 && m & 0xFF00 == 0
    ensures (l | (h << 8)) & (m << 8) != 0 <==> h & m != 0
  {}

  lemma ByteBitsInjective(p: bv8, q: bv8)
    requires ByteBits(p) == ByteBits(q)
    ensures p == q
  {
    forall k: nat | k < 16 ensures Bit(Wide(p), k) == Bit(Wide(q), k) {
      if k < 8 {
        assert ByteBits(p)[k] == ByteBits(q)[k];
      } else {
        ByteBit(p, k);
        ByteBit(q, k);
      }
    }
    BitsDetermine(Wide(p), Wide(q));
  }

  // ----- The checksum of a frame is the bits of the frame, fed in one by one -----

  lemma {:induction false} RegShifts(c: bv16, n: nat)
    ensures Reg(Shifts(c, n)) == Rounds(Reg(c), n)
    decreases n
  {
    if n > 0 {
      RegShift(c);
      RegShifts(Shift(c), n - 1);
    }
  }

  lemma {:induction false} FeedConcat(r: seq<bool>, x: seq<bool>, y: seq<bool>)
    requires |r| == 16
    ensures Feed(r, x + y) == Feed(Feed(r, x), y)
    decreases |x|
  {
    if x == [] {
      assert x + y == y;
    } else {
      assert (x + y)[1..] == x[1..] + y;
      FeedConcat(Round(r[0 := r[0] != x[0]]), x[1..], y);
    }
  }

  lemma {:induction false} CrcConcat(c: bv16, x: seq<bv8>, y: seq<bv8>)
    ensures CrcFrom(c, x + y) == CrcFrom(CrcFrom(c, x), y)
    decreases |x|
  {
    if x == [] {
      assert x + y == y;
    } else {
      assert (x + y)[1..] == x[1..] + y;
      CrcConcat(ByteStep(c, x[0]), x[1..], y);
    }
  }

  /** A word added to the register at once enters bit by bit: the bit `k` places up waits `k`
      rounds, and after `n` rounds the rest is still waiting. */
  lemma {:induction false} WaitingBits(r: seq<bool>, w: seq<bool>, n: nat)
    requires |r| == |w| == 16
    requires n <= 16
    ensures Rounds(Xor(r, w), n) == Xor(Feed(r, w[..n]), w[n..] + Zeros(n))
    decreases n
  {
    if n == 0 {
      assert w[0..] + Zeros(0) == w;
    } else {
      var r1 := Round(r[0 := r[0] != w[0]]);
      var w1 := w[1..] + [false];
      assert Round(Xor(r, w)) == Xor(r1, w1);
      WaitingBits(r1, w1, n - 1);
      assert w[..n][1..] == w1[..n - 1];
      assert w1[n - 1..] + Zeros(n - 1) == w[n..] + Zeros(n);
    }
  }

  lemma ByteAsBits(c: bv16, b: bv8)
    ensures Reg(ByteStep(c, b)) == Feed(Reg(c), ByteBits(b))
  {
    hide Shifts, Reg, Rounds, Feed, Bit;
    var w := ByteBits(b) + Zeros(8);
    RegXorByte(c, b);
    RegShifts(Plus(c, Wide(b)), 8);
    WaitingBits(Reg(c), w, 8);
    assert w[..8] == ByteBits(b);
    assert Xor(Feed(Reg(c), w[..8]), w[8..] + Zeros(8)) == Feed(Reg(c), w[..8]);
  }

  lemma {:induction false} CrcAsBits(c: bv16, frame: seq<bv8>)
    ensures Reg(CrcFrom(c, frame)) == Feed(Reg(c), FrameBits(frame))
    decreases |frame|
  {
    if frame != [] {
      ByteAsBits(c, frame[0]);
      CrcAsBits(ByteStep(c, frame[0]), frame[1..]);
      FeedConcat(Reg(c), ByteBits(frame[0]), FrameBits(frame[1..]));
    }
  }

  /** Sixteen bits fill the register. */
  lemma SixteenBits(r: seq<bool>, u: seq<bool>)
    requires |r| == |u| == 16
    ensures Feed(r, u) == Rounds(Xor(r, u), 16)
  {
    WaitingBits(r, u, 16);
    assert u[..16] == u;
    assert Xor(Feed(r, u), u[16..] + Zeros(16)) == Feed(r, u);
  }

  lemma RoundInjective(x: seq<bool>, y: seq<bool>)
    requires |x| == |y| == 16
    requires Round(x) == Round(y)
    ensures x == y
  {
    var u, v := Round(x), Round(y);
    // Nothing is shifted into bit 15, so it tells whether the polynomial was added.
    assert x[0] == u[15] == v[15] == y[0];
    forall k | 1 <= k < 16 ensures x[k] == y[k] {
      assert u[k - 1] == v[k - 1];
    }
  }

  lemma {:induction false} RoundsInjective(x: seq<bool>, y: seq<bool>, n: nat)
    requires |x| == |y| == 16
    requires Rounds(x, n) == Rounds(y, n)
    ensures x == y
    decreases n
  {
    if n > 0 {
      RoundsInjective(Round(x), Round(y), n - 1);
      RoundInjective(x, y);
    }
  }

  lemma {:induction false} RoundsOfZeros(n: nat)
    ensures Rounds(Zeros(16), n) == Zeros(16)
    decreases n
  {
    if n > 0 {
      assert Round(Zeros(16)) == Zeros(16);
      RoundsOfZeros(n - 1);
    }
  }

  /** The trailer is right exactly when the whole frame drives the register to zero. */
  lemma AcceptedIffZero(frame: seq<bv8>)
    requires |frame| >= 3
    ensures Accepted(frame) <==> Feed(Reg(INIT), FrameBits(frame)) == Zeros(16)
  {
    hide *;
    var n := |frame|;
    var body, low, high := frame[..n - 2], frame[n - 2], frame[n - 1];
    assert frame == body + [low, high];
    FeedTrailer(body, low, high);
    TrailerToZero(Crc(body), low, high);
    AcceptedTrailer(frame);
  }

  lemma AcceptedTrailer(frame: seq<bv8>)
    requires |frame| >= 3
    ensures Accepted(frame) == (Crc(frame[..|frame| - 2]) == Word(frame[|frame| - 1], frame[|frame| - 2]))
  {
    hide Word, Crc;
  }

  lemma FeedTrailer(body: seq<bv8>, low: bv8, high: bv8)
    ensures Feed(Reg(INIT), FrameBits(body + [low, high])) == Feed(Reg(Crc(body)), ByteBits(low) + ByteBits(high))
  {
    hide Reg, Feed, FrameBits, CrcFrom, Crc, ByteBits;
    FrameBitsConcat(body, [low, high]);
    TwoByteBits(low, high);
    FeedConcat(Reg(INIT), FrameBits(body), ByteBits(low) + ByteBits(high));
    RegCrc(body);
  }

  lemma RegCrc(data: seq<bv8>)
    ensures Reg(Crc(data)) == Feed(Reg(INIT), FrameBits(data))
  {
    CrcAsBits(INIT, data);
  }

  /** From any register, two bytes lead to zero exactly when they are its own two bytes. */
  lemma TrailerToZero(c: bv16, low: bv8, high: bv8)
    ensures c == Word(high, low) <==> Feed(Reg(c), ByteBits(low) + ByteBits(high)) == Zeros(16)
  {
    hide Reg, Feed, Rounds, ByteBits, Word;
    var r, u := Reg(c), ByteBits(low) + ByteBits(high);
    SixteenBits(r, u);
    RegWord(high, low);
    RoundsOfZeros(16);
    if c == Word(high, low) {
      assert Xor(r, u) == Zeros(16);
    }
    if Feed(r, u) == Zeros(16) {
      RoundsInjective(Xor(r, u), Zeros(16), 16);
      EqualIfXorZero(r, u);
      RegInjective(c, Word(high, low));
    }
  }

  lemma EqualIfXorZero(x: seq<bool>, y: seq<bool>)
    requires |x| == |y|
    requires Xor(x, y) == Zeros(|x|)
    ensures x == y
  {
    forall k | 0 <= k < |x| ensures x[k] == y[k] {
      assert Xor(x, y)[k] == Zeros(|x|)[k];
    }
  }

  lemma TwoByteBits(low: bv8, high: bv8)
    ensures FrameBits([low, high]) == ByteBits(low) + ByteBits(high)
  {
    assert [low, high][1..] == [high];
    assert FrameBits([high]) == ByteBits(high) + FrameBits([]);
  }

  lemma {:induction false} FrameBitsConcat(x: seq<bv8>, y: seq<bv8>)
    ensures FrameBits(x + y) == FrameBits(x) + FrameBits(y)
    decreases |x|
  {
    if x == [] {
      assert x + y == y;
    } else {
      assert (x + y)[1..] == x[1..] + y;
      FrameBitsConcat(x[1..], y);
    }
  }

  // ----- What a receiver cannot miss -----

  lemma {:induction false} FeedInjective(r: seq<bool>, s: seq<bool>, bits: seq<bool>)
    requires |r| == |s| == 16
    requires Feed(r, bits) == Feed(s, bits)
    ensures r == s
    decreases |bits|
  {
    if bits != [] {
      var x, y := r[0 := r[0] != bits[0]], s[0 := s[0] != bits[0]];
      FeedInjective(Round(x), Round(y), bits[1..]);
      RoundInjective(x, y);
      forall k | 0 <= k < 16 ensures r[k] == s[k] {
        assert x[k] == y[k];
      }
    }
  }

  lemma {:induction false} FrameBitsInjective(a: seq<bv8>, b: seq<bv8>)
    requires |a| == |b|
    requires FrameBits(a) == FrameBits(b)
    ensures a == b
    decreases |a|
  {
    if a != [] {
      var x, y := FrameBits(a), FrameBits(b);
      assert ByteBits(a[0]) == x[..8] == y[..8] == ByteBits(b[0]);
      assert FrameBits(a[1..]) == x[8..] == y[8..] == FrameBits(b[1..]);
      ByteBitsInjective(a[0], b[0]);
      FrameBitsInjective(a[1..], b[1..]);
      assert a == [a[0]] + a[1..] && b == [b[0]] + b[1..];
    }
  }

  /** Every error burst is caught: of two different frames of the same length whose bits differ
      only inside some sixteen consecutive positions - trailer included - at most one is accepted. */
  lemma BurstsAreCaught(a: seq<bv8>, b: seq<bv8>, start: nat)
    requires |a| == |b| && a != b
    requires forall k :: 0 <= k < 8 * |a| && FrameBits(a)[k] != FrameBits(b)[k] ==> start <= k < start + 16
    ensures !(Accepted(a) && Accepted(b))
  {
    if Accepted(a) && Accepted(b) {
      var x, y := FrameBits(a), FrameBits(b);
      var s := if start + 16 <= |x| then start else |x| - 16;
      AcceptedIffZero(a);
      AcceptedIffZero(b);
      BurstOnBits(Reg(INIT), x, y, s);
      FrameBitsInjective(a, b);
    }
  }

  lemma Cut(x: seq<bool>, s: nat)
    requires s + 16 <= |x|
    ensures x == x[..s] + (x[s..s + 16] + x[s + 16..])
  {}

  lemma BurstOnBits(r: seq<bool>, x: seq<bool>, y: seq<bool>, s: nat)
    requires |r| == 16
    requires |x| == |y| && s + 16 <= |x|
    requires forall k :: 0 <= k < |x| && x[k] != y[k] ==> s <= k < s + 16
    requires Feed(r, x) == Feed(r, y)
    ensures x == y
  {
    hide Feed, Rounds;
    var before, after := x[..s], x[s + 16..];
    var u, v := x[s..s + 16], y[s..s + 16];
    Cut(x, s);
    Cut(y, s);
    assert before == y[..s];
    assert after == y[s + 16..];
    var q := Feed(r, before);
    FeedConcat(r, before, u + after);
    FeedConcat(r, before, v + after);
    FeedConcat(q, u, after);
    FeedConcat(q, v, after);
    FeedInjective(Feed(q, u), Feed(q, v), after);
    SixteenBits(q, u);
    SixteenBits(q, v);
    RoundsInjective(Xor(q, u), Xor(q, v), 16);
    forall k | 0 <= k < 16 ensures u[k] == v[k] {
      assert Xor(q, u)[k] == Xor(q, v)[k];
    }
  }

  // ----- Odd numbers of errors -----

  /** Whether a bit string has an odd number of ones. */
  function Odd(bits: seq<bool>): bool {
    if bits == [] then false else bits[0] != Odd(bits[1..])
  }

  lemma {:induction false} OddConcat(x: seq<bool>, y: seq<bool>)
    ensures Odd(x + y) == (Odd(x) != Odd(y))
    decreases |x|
  {
    if x == [] {
      assert x + y == y;
    } else {
      assert (x + y)[1..] == x[1..] + y;
      OddConcat(x[1..], y);
    }
  }

  lemma {:induction false} OddXor(x: seq<bool>, y: seq<bool>)
    requires |x| == |y|
    ensures Odd(Xor(x, y)) == (Odd(x) != Odd(y))
    decreases |x|
  {
    if x != [] {
      assert Xor(x, y)[1..] == Xor(x[1..], y[1..]);
      OddXor(x[1..], y[1..]);
    }
  }

  lemma {:induction false} OddZeros(n: nat)
    ensures !Odd(Zeros(n))
    decreases n
  {
    if n > 0 {
      assert Zeros(n)[1..] == Zeros(n - 1);
      OddZeros(n - 1);
    }
  }

  /** The polynomial adds three bits whenever it costs one, so a round keeps the parity. */
  lemma RoundParity(r: seq<bool>)
    requires |r| == 16
    ensures Odd(Round(r)) == Odd(r)
  {
    var shifted := r[1..] + [false];
    OddConcat(r[1..], [false]);
    assert [false] == Zeros(1);
    OddZeros(1);
    if r[0] {
      var polynomial := [true] + (Zeros(12) + ([true, false] + [true]));
      assert Round(r) == Xor(shifted, polynomial);
      OddXor(shifted, polynomial);
      OddConcat([true], Zeros(12) + ([true, false] + [true]));
      OddConcat(Zeros(12), [true, false] + [true]);
      OddConcat([true, false], [true]);
      OddConcat([true], [false]);
      assert [true] + [false] == [true, false];
      OddZeros(12);
      assert Odd([true]);
    } else {
      assert Round(r) == shifted;
    }
  }

  lemma {:induction false} FeedParity(r: seq<bool>, bits: seq<bool>)
    requires |r| == 16
    ensures Odd(Feed(r, bits)) == (Odd(r) != Odd(bits))
    decreases |bits|
  {
    if bits != [] {
      var s := r[0 := r[0] != bits[0]];
      assert s[1..] == r[1..];
      RoundParity(s);
      FeedParity(Round(s), bits[1..]);
    }
  }

  /** An accepted frame has an even number of 1 bits: two accepted frames never differ in an odd
      number of bits, however far apart these are. */
  lemma OddErrorsAreCaught(a: seq<bv8>, b: seq<bv8>)
    requires |a| == |b|
    requires Odd(Xor(FrameBits(a), FrameBits(b)))
    ensures !(Accepted(a) && Accepted(b))
  {
    if Accepted(a) && Accepted(b) {
      AcceptedIsEven(a);
      AcceptedIsEven(b);
      OddXor(FrameBits(a), FrameBits(b));
    }
  }

  lemma AcceptedIsEven(frame: seq<bv8>)
    requires Accepted(frame)
    ensures !Odd(FrameBits(frame))
  {
    hide Reg, Feed, FrameBits, Odd, Crc;
    AcceptedIffZero(frame);
    FeedParity(Reg(INIT), FrameBits(frame));
    OddZeros(16);
    InitIsEven();
  }

  lemma InitIsEven()
    ensures !Odd(Reg(INIT))
  {
    hide Odd;
    var ones := seq(8, k => true);
    forall k | 0 <= k < 16 ensures Reg(INIT)[k] {
      InitBit(k);
    }
    assert Reg(INIT) == ones + ones;
    OddConcat(ones, ones);
  }

  lemma InitBit(k: nat)
    requires k < 16
    ensures Bit(INIT, k)
  {}
}
