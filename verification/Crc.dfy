/** The CRC of packet.c, proved against the bit-serial register it stands for. */
module Crc {
  import opened Bytes
  import opened ShiftRegister

  const RESET: bv16 := 0xFFFF
  const POLYNOMIAL: bv16 := 0x8408

  function Xor(r: bv16, s: bv16): bv16 { r ^ s }

  function Half(r: bv16): bv16 { r >> 1 }

  predicate IsOdd(r: bv16) { r & 1 == 1 }

  /** The register of appendix C of RFC 1662: the low bit falls out, and the reversed polynomial is fed back. */
  const CCITT: Register<bv16> := Register(Xor, Half, IsOdd, POLYNOMIAL)

  /** The bit-serial CRC of a bit string. */
  function BitSerial(register: bv16, bits: seq<bool>): bv16 {
    CCITT.Run(register, bits)
  }

  /** The eight bits of a byte, lowest first. */
  function ByteBits(b: byte): (bits: seq<bool>)
    ensures |bits| == 8
  {
    CCITT.LowBits(b as bv16, 8)
  }

  /** The bits of a message, low bit of each byte first. */
  function Bits(data: seq<byte>): (bits: seq<bool>)
    ensures |bits| == 8 * |data|
  {
    if data == [] then [] else ByteBits(data[0]) + Bits(data[1..])
  }

  /** The CRC of a message: its bits through the serial register. */
  function Update(register: bv16, data: seq<byte>): bv16 {
    BitSerial(register, Bits(data))
  }

  /** The update the source makes for one byte. */
  function UpdateByte(crc: bv16, b: byte): bv16 {
    var mixed := b ^ (crc & 0xFF) as byte;
    var val := mixed ^ (mixed << 4);
    (((val as bv16) << 8) | ((crc >> 8) & 0xFF)) ^ ((val >> 4) as bv16) ^ ((val as bv16) << 3)
  }

  // The byte-wise update is the bit-serial one.

  lemma HalfXor(r: bv16, s: bv16)
    ensures Half(Xor(r, s)) == Xor(Half(r), Half(s))
  {
  }

  lemma OddXor(r: bv16, s: bv16)
    ensures IsOdd(Xor(r, s)) == (IsOdd(r) != IsOdd(s))
  {
  }

  lemma TapsMove(r: bv16, s: bv16)
    ensures Xor(Xor(r, POLYNOMIAL), s) == Xor(Xor(r, s), POLYNOMIAL)
  {
  }

  lemma TapsJoin(r: bv16, s: bv16)
    ensures Xor(r, Xor(s, POLYNOMIAL)) == Xor(Xor(r, s), POLYNOMIAL)
  {
  }

  lemma TapsCancel(r: bv16, s: bv16)
    ensures Xor(Xor(r, POLYNOMIAL), Xor(s, POLYNOMIAL)) == Xor(r, s)
  {
  }

  lemma RegisterIsLinear()
    ensures Linear(CCITT)
  {
    hide Xor, Half, IsOdd;
    forall x, y
      ensures LinearAt(CCITT, x, y)
    {
      HalfXor(x, y);
      OddXor(x, y);
      TapsMove(x, y);
      TapsJoin(x, y);
      TapsCancel(x, y);
    }
  }

  /** Two to the power n. */
  function Power(n: nat): (p: bv16)
    requires n <= 15
    ensures n < 15 ==> p <= 0x4000
  {
    [0x1, 0x2, 0x4, 0x8, 0x10, 0x20, 0x40, 0x80, 0x100, 0x200, 0x400, 0x800, 0x1000, 0x2000, 0x4000, 0x8000][n]
  }

  function Double(bound: bv16): bv16 { bound << 1 }

  lemma HalfBelow(word: bv16, bound: bv16)
    requires bound <= 0x4000 && word < Double(bound)
    ensures Half(word) < bound
  {
  }

  lemma PowerDoubles(n: nat)
    requires 0 < n <= 15
    ensures Power(n) == Double(Power(n - 1))
  {
  }

  predicate Fits(word: bv16, n: nat)
    requires n <= 15
  {
    word < Power(n)
  }

  lemma FitsNothing(word: bv16)
    requires Fits(word, 0)
    ensures word == 0
  {
  }

  lemma FitsHalf(word: bv16, n: nat)
    requires 0 < n <= 15 && Fits(word, n)
    ensures Fits(Half(word), n - 1)
  {
    hide Half, Power, Double;
    PowerDoubles(n);
    HalfBelow(word, Power(n - 1));
  }

  lemma {:induction false} NothingLeft(word: bv16, n: nat)
    requires n <= 15 && Fits(word, n)
    ensures CCITT.Rest(word, n) == 0
    decreases n
  {
    hide Half, Xor, IsOdd, Fits;
    if n == 0 {
      FitsNothing(word);
    } else {
      FitsHalf(word, n);
      NothingLeft(Half(word), n - 1);
    }
  }

  lemma XorNothing(r: bv16)
    ensures Xor(r, 0) == r
  {
  }

  /** Four shifts in closed form. */
  function Nibble(x: bv16): bv16 {
    (x >> 4) ^ ((x & 0xF) << 12) ^ ((x & 0xF) << 7) ^ (x & 0xF)
  }

  /** A step fed with a zero, without a branch. */
  function Shift(r: bv16): bv16 {
    (r >> 1) ^ ((r & 1) << 15) ^ ((r & 1) << 10) ^ ((r & 1) << 3)
  }

  lemma ShiftOdd(r: bv16)
    requires r & 1 == 1
    ensures Xor(Half(r), POLYNOMIAL) == Shift(r)
  {
  }

  lemma ShiftEven(r: bv16)
    requires r & 1 != 1
    ensures Half(r) == Shift(r)
  {
  }

  lemma StepIsShift(r: bv16)
    ensures CCITT.Step(r, false) == Shift(r)
  {
    hide Xor, Half, Shift;
    if IsOdd(r) {
      ShiftOdd(r);
    } else {
      ShiftEven(r);
    }
  }

  lemma ClosedForm(r: bv16)
    ensures Shift(Shift(Shift(Shift(r)))) == Nibble(r)
  {
  }

  lemma FourShifts(r: bv16)
    ensures BitSerial(r, Zeros(4)) == Nibble(r)
  {
    hide Nibble, Shift, Xor, Half, IsOdd;
    RunFourZeros(CCITT, r);
    StepIsShift(r);
    StepIsShift(Shift(r));
    StepIsShift(Shift(Shift(r)));
    StepIsShift(Shift(Shift(Shift(r))));
    ClosedForm(r);
  }

  lemma EightShifts(r: bv16)
    ensures BitSerial(r, Zeros(8)) == Nibble(Nibble(r))
  {
    hide Nibble, Xor, Half, IsOdd;
    assert Zeros(8) == Zeros(4) + Zeros(4);
    RunConcat(CCITT, r, Zeros(4), Zeros(4));
    FourShifts(r);
    FourShifts(Nibble(r));
  }

  /** The update of one byte depends only on the register with the byte joined in. */
  function Joined(x: bv16): bv16 {
    var low := x & 0xFF;
    var val := (low ^ (low << 4)) & 0xFF;
    ((val << 8) | (x >> 8)) ^ (val >> 4) ^ (val << 3)
  }

  lemma JoinLow(r: bv16, b: byte)
    ensures (b ^ (r & 0xFF) as byte) as bv16 == (r ^ (b as bv16)) & 0xFF
  {
  }

  lemma JoinHigh(r: bv16, b: byte)
    ensures (r >> 8) & 0xFF == (r ^ (b as bv16)) >> 8
  {
  }

  lemma Widen(mixed: byte)
    ensures (mixed ^ (mixed << 4)) as bv16 == ((mixed as bv16) ^ ((mixed as bv16) << 4)) & 0xFF
  {
  }

  lemma WidenShift(val: byte)
    ensures (val >> 4) as bv16 == (val as bv16) >> 4
  {
  }

  lemma UpdateJoins(r: bv16, b: byte)
    ensures UpdateByte(r, b) == Joined(r ^ (b as bv16))
  {
    JoinLow(r, b);
    JoinHigh(r, b);
    var mixed := b ^ (r & 0xFF) as byte;
    Widen(mixed);
    WidenShift(mixed ^ (mixed << 4));
  }

  lemma JoinedIsTwoNibbles(x: bv16)
    ensures Joined(x) == Nibble(Nibble(x))
  {
  }

  lemma XorIs(r: bv16, s: bv16)
    ensures Xor(r, s) == r ^ s
  {
  }

  lemma ByteFits(b: byte)
    ensures Fits(b as bv16, 8)
  {
  }

  /** The byte-wise update is eight steps of the bit-serial register, for every register and every byte. */
  lemma ByteUpdate(r: bv16, b: byte)
    ensures UpdateByte(r, b) == BitSerial(r, ByteBits(b))
  {
    hide UpdateByte, Joined, Nibble, Xor, Half, IsOdd, Fits;
    var word := b as bv16;
    RegisterIsLinear();
    RunFeeds(CCITT, r, word, 8);
    ByteFits(b);
    NothingLeft(word, 8);
    XorNothing(BitSerial(r, ByteBits(b)));
    EightShifts(Xor(r, word));
    UpdateJoins(r, b);
    XorIs(r, word);
    JoinedIsTwoNibbles(Xor(r, word));
  }

  lemma {:induction false} BitsConcat(a: seq<byte>, b: seq<byte>)
    ensures Bits(a + b) == Bits(a) + Bits(b)
  {
    if a == [] {
      assert a + b == b;
    } else {
      hide ByteBits;
      assert (a + b)[1..] == a[1..] + b;
      BitsConcat(a[1..], b);
    }
  }

  /** Running over a message in two chunks is running over it in one pass. */
  lemma UpdateConcat(r: bv16, a: seq<byte>, b: seq<byte>)
    ensures Update(r, a + b) == Update(Update(r, a), b)
  {
    BitsConcat(a, b);
    RunConcat(CCITT, r, Bits(a), Bits(b));
  }

  lemma UpdateOne(r: bv16, b: byte)
    ensures Update(r, [b]) == UpdateByte(r, b)
  {
    hide UpdateByte;
    ByteUpdate(r, b);
    assert Bits([b]) == ByteBits(b) + Bits([]) == ByteBits(b);
  }

  /** The byte loop of the source computes the bit-serial CRC. */
  method CrcUpdate(start: bv16, data: seq<byte>) returns (crc: bv16)
    ensures crc == Update(start, data)
  {
    hide UpdateByte, Update;
    crc := start;
    var idx := 0;
    UpdateNothing(start);
    assert data[..0] == [];
    while idx < |data|
      invariant idx <= |data|
      invariant crc == Update(start, data[..idx])
    {
      assert data[..idx + 1] == data[..idx] + [data[idx]];
      UpdateConcat(start, data[..idx], [data[idx]]);
      UpdateOne(crc, data[idx]);
      crc := UpdateByte(crc, data[idx]);
      idx := idx + 1;
    }
    assert data[..idx] == data;
  }

  lemma UpdateNothing(r: bv16)
    ensures Update(r, []) == r
  {
  }

  // Error detection: the XOR of two runs is a run over the differences.

  lemma XorSelf(r: bv16, s: bv16)
    ensures Xor(r, r) == 0 && (r == s ==> Xor(r, s) == 0)
  {
  }

  lemma DifferenceRuns(r: bv16, a: seq<byte>, b: seq<byte>)
    requires |a| == |b|
    ensures Xor(Update(r, a), Update(r, b)) == BitSerial(0, Differences(Bits(a), Bits(b)))
  {
    hide Xor;
    RegisterIsLinear();
    RunLinear(CCITT, r, Bits(a), r, Bits(b));
    XorSelf(r, r);
  }

  predicate AtLeast(r: bv16, n: nat) {
    if n <= 15 then r >= Power(n) else false
  }

  lemma StepHalves(d: bv16, bit: bool, bound: bv16)
    requires bound <= 0x4000 && d >= Double(bound)
    ensures CCITT.Step(d, bit) >= bound
  {
  }

  lemma LevelDrops(d: bv16, bit: bool, n: nat)
    requires 0 < n && AtLeast(d, n)
    ensures AtLeast(CCITT.Step(d, bit), n - 1)
  {
    hide Xor, Half, IsOdd, Power, Double;
    PowerDoubles(n);
    StepHalves(d, bit, Power(n - 1));
  }

  lemma LevelStays(d: bv16)
    requires AtLeast(d, 0)
    ensures AtLeast(CCITT.Step(d, false), 0)
  {
  }

  lemma StepStarts()
    ensures CCITT.Step(0, true) == 0x8408 && CCITT.Step(0, false) == 0
  {
  }

  lemma LevelsOfStep()
    ensures forall x, bit, n: nat {:trigger CCITT.Step(x, bit), AtLeast(x, n)} ::
              0 < n && AtLeast(x, n) ==> AtLeast(CCITT.Step(x, bit), n - 1)
    ensures forall x :: AtLeast(x, 0) ==> AtLeast(CCITT.Step(x, false), 0)
  {
    hide Xor, Half, IsOdd, AtLeast;
    forall x, bit, n: nat {:trigger CCITT.Step(x, bit), AtLeast(x, n)} | 0 < n && AtLeast(x, n)
      ensures AtLeast(CCITT.Step(x, bit), n - 1)
    {
      LevelDrops(x, bit, n);
    }
    forall x | AtLeast(x, 0)
      ensures AtLeast(CCITT.Step(x, false), 0)
    {
      LevelStays(x);
    }
  }

  lemma AtLeastPositive(r: bv16, n: nat)
    requires AtLeast(r, n)
    ensures r >= 1
  {
  }

  /** After the first damaged bit the register is too large for fifteen more bits to bring it back to zero. */
  lemma NeverZero(bits: seq<bool>)
    requires forall k :: 15 <= k < |bits| ==> !bits[k]
    ensures BitSerial(0x8408, bits) >= 1
  {
    assert AtLeast(0x8408, 15);
    hide Xor, Half, IsOdd, AtLeast;
    LevelsOfStep();
    RunKeeps(CCITT, AtLeast, 0x8408, bits, 15);
    var n: nat :| n <= 15 && AtLeast(CCITT.Run(0x8408, bits), n);
    AtLeastPositive(BitSerial(0x8408, bits), n);
  }

  lemma {:induction false} BurstNonZero(bits: seq<bool>, first: int)
    requires exists k :: 0 <= k < |bits| && bits[k]
    requires forall k :: 0 <= k < |bits| && bits[k] ==> first <= k < first + 16
    ensures BitSerial(0, bits) >= 1
    decreases |bits|
  {
    hide Xor, Half, IsOdd;
    StepStarts();
    if bits[0] {
      NeverZero(bits[1..]);
    } else {
      var k :| 0 <= k < |bits| && bits[k];
      assert bits[1..][k - 1];
      BurstNonZero(bits[1..], first - 1);
    }
  }

  lemma WordsDiffer(w: bv16, v: bv16)
    requires Half(w) == Half(v) && IsOdd(w) == IsOdd(v)
    ensures w == v
  {
  }

  lemma ByteInjective(a: byte, b: byte)
    requires ByteBits(a) == ByteBits(b)
    ensures a as bv16 == b as bv16
  {
    hide Xor, Half, IsOdd, Fits;
    ByteFits(a);
    ByteFits(b);
    NothingLeft(a as bv16, 8);
    NothingLeft(b as bv16, 8);
    forall w, v | Half(w) == Half(v) && IsOdd(w) == IsOdd(v)
      ensures w == v
    {
      WordsDiffer(w, v);
    }
    WordInjective(CCITT, a as bv16, b as bv16, 8);
  }

  lemma {:induction false} BitsInjective(a: seq<byte>, b: seq<byte>)
    requires |a| == |b| && Bits(a) == Bits(b)
    ensures a == b
  {
    if a != [] {
      hide ByteBits;
      assert Bits(a)[..8] == ByteBits(a[0]) && Bits(b)[..8] == ByteBits(b[0]);
      assert Bits(a)[8..] == Bits(a[1..]) && Bits(b)[8..] == Bits(b[1..]);
      ByteInjective(a[0], b[0]);
      BitsInjective(a[1..], b[1..]);
    }
  }

  /** Two messages that differ, and only inside some 16 consecutive bits, have different CRCs. */
  lemma BurstDetected(r: bv16, a: seq<byte>, b: seq<byte>, first: int)
    requires |a| == |b| && a != b
    requires forall k :: 0 <= k < 8 * |a| && Bits(a)[k] != Bits(b)[k] ==> first <= k < first + 16
    ensures Update(r, a) != Update(r, b)
  {
    if Bits(a) == Bits(b) {
      BitsInjective(a, b);
    }
    hide Xor, Half, IsOdd;
    var d := Differences(Bits(a), Bits(b));
    var k :| 0 <= k < 8 * |a| && Bits(a)[k] != Bits(b)[k];
    assert d[k];
    BurstNonZero(d, first);
    DifferenceRuns(r, a, b);
    XorSelf(Update(r, a), Update(r, b));
  }

  // An odd number of damaged bits.

  lemma OddUnfold(word: bv16, n: nat)
    requires n > 0
    ensures Odd(CCITT, n, word) == (IsOdd(word) != Odd(CCITT, n - 1, Half(word)))
  {
    hide IsOdd, Half;
    assert CCITT.LowBits(word, n)[1..] == CCITT.LowBits(Half(word), n - 1);
  }

  lemma HalvesOfTaps()
    ensures Half(0x8408) == 0x4204 && Half(0x4204) == 0x2102 && Half(0x2102) == 0x1081 && Half(0x1081) == 0x840
    ensures Half(0x840) == 0x420 && Half(0x420) == 0x210 && Half(0x210) == 0x108 && Half(0x108) == 0x84
    ensures Half(0x84) == 0x42 && Half(0x42) == 0x21 && Half(0x21) == 0x10 && Half(0x10) == 8
    ensures Half(8) == 4 && Half(4) == 2 && Half(2) == 1 && IsOdd(0x1081) && IsOdd(0x21) && IsOdd(1)
    ensures !IsOdd(0x8408) && !IsOdd(0x4204) && !IsOdd(0x2102) && !IsOdd(0x840) && !IsOdd(0x420) && !IsOdd(0x210)
    ensures !IsOdd(0x108) && !IsOdd(0x84) && !IsOdd(0x42) && !IsOdd(0x10) && !IsOdd(8) && !IsOdd(4) && !IsOdd(2)
  {
  }

  /** The reversed polynomial has three ones. */
  lemma TapsAreOdd()
    ensures Odd(CCITT, 16, POLYNOMIAL)
  {
    hide IsOdd, Half;
    HalvesOfTaps();
    OddUnfold(0x8408, 16);
    OddUnfold(0x4204, 15);
    OddUnfold(0x2102, 14);
    OddUnfold(0x1081, 13);
    OddUnfold(0x840, 12);
    OddUnfold(0x420, 11);
    OddUnfold(0x210, 10);
    OddUnfold(0x108, 9);
    OddUnfold(0x84, 8);
    OddUnfold(0x42, 7);
    OddUnfold(0x21, 6);
    OddUnfold(0x10, 5);
    OddUnfold(8, 4);
    OddUnfold(4, 3);
    OddUnfold(2, 2);
    OddUnfold(1, 1);
  }

  lemma HalfFits(r: bv16)
    ensures Fits(Half(r), 15)
  {
  }

  lemma NothingLeftOf16(r: bv16)
    ensures CCITT.Rest(r, 16) == 0
  {
    hide IsOdd, Half, Fits;
    HalfFits(r);
    NothingLeft(Half(r), 15);
  }

  lemma ZeroIsEven()
    ensures !IsOdd(0)
  {
  }

  /** Two messages of equal length that differ in an odd number of bits have different CRCs. */
  lemma OddDamageDetected(r: bv16, a: seq<byte>, b: seq<byte>)
    requires |a| == |b| && OddOnes(Differences(Bits(a), Bits(b)))
    ensures Update(r, a) != Update(r, b)
  {
    hide Xor, Half, IsOdd;
    RegisterIsLinear();
    TapsAreOdd();
    forall x
      ensures !CCITT.low(CCITT.Rest(x, 16))
    {
      NothingLeftOf16(x);
      ZeroIsEven();
    }
    RunToggles(CCITT, 16, 0, Differences(Bits(a), Bits(b)));
    DifferenceRuns(r, a, b);
    XorSelf(Update(r, a), Update(r, b));
  }

  /** The published check value of this polynomial and start value, without a final complement: the digits 1 to 9. */
  lemma CheckValue()
    ensures Update(RESET, [0x31, 0x32, 0x33, 0x34, 0x35, 0x36, 0x37, 0x38, 0x39]) == 0x6F91
  {
    hide Update;
    var d9: seq<byte> := [0x39];
    var d8 := [0x38] + d9;
    var d7 := [0x37] + d8;
    var d6 := [0x36] + d7;
    var d5 := [0x35] + d6;
    var d4 := [0x34] + d5;
    var d3 := [0x33] + d4;
    var d2 := [0x32] + d3;
    assert [0x31] + d2 == [0x31, 0x32, 0x33, 0x34, 0x35, 0x36, 0x37, 0x38, 0x39];
    Digit(0xFFFF, 0x31, 0x2F8D, d2);
    Digit(0x2F8D, 0x32, 0x4D53, d3);
    Digit(0x4D53, 0x33, 0x634B, d4);
    Digit(0x634B, 0x34, 0x8B13, d5);
    Digit(0x8B13, 0x35, 0x44BF, d6);
    Digit(0x44BF, 0x36, 0x198D, d7);
    Digit(0x198D, 0x37, 0x1AC8, d8);
    Digit(0x1AC8, 0x38, 0xF795, d9);
    UpdateOne(0xF795, 0x39);
  }

  lemma Digit(r: bv16, b: byte, next: bv16, rest: seq<byte>)
    requires UpdateByte(r, b) == next
    ensures Update(r, [b] + rest) == Update(next, rest)
  {
    hide Update, UpdateByte;
    UpdateConcat(r, [b], rest);
    UpdateOne(r, b);
  }
}
