/** The CRC pinned from outside: the residue every checked word leaves behind, and the check value of the standard
    test string, computed on registers as machine words. */
module CrcChecks {
  import opened Wire
  import opened Crc

  // ---- a number and its bytes ----

  function Halved(v: nat, n: nat): nat
    decreases n
  {
    if n == 0 then v else Halved(v / 2, n - 1)
  }

  lemma {:induction false} BitsSplit(v: nat, m: nat, n: nat)
    ensures Bits(v, m + n) == Bits(v, m) + Bits(Halved(v, m), n)
    decreases m
  {
    if m > 0 {
      BitsSplit(v / 2, m - 1, n);
    }
  }

  lemma EightHalves(v: nat)
    ensures Halved(v, 8) == v / 0x100
  {
    assert Halved(v, 8) == Halved(v / 2 / 2 / 2 / 2, 4);
    assert v / 2 / 2 / 2 / 2 == v / 16;
  }

  lemma {:induction false} LowBits(v: nat, w: nat, k: nat, n: nat)
    requires v == w + k * Pow2(n)
    ensures Bits(v, n) == Bits(w, n)
    decreases n
  {
    if n > 0 {
      assert k * Pow2(n) == 2 * (k * Pow2(n - 1));
      LowBits(v / 2, w / 2, k, n - 1);
    }
  }

  lemma ByteSplit(v: nat, n: nat)
    ensures Bits(v, 8 + n) == Bits(v % 0x100, 8) + Bits(v / 0x100, n)
  {
    hide Bits, Pow2, Halved;
    BitsSplit(v, 8, n);
    EightHalves(v);
    Pow2Of8();
    LowBits(v, v % 0x100, v / 0x100, 8);
  }

  lemma JoinedIsBits(v: u32)
    ensures Joined(PutU32(v)) == Bits(v, 32)
  {
    hide Bits;
    ByteSplit(v, 24);
    ByteSplit(v / 0x100, 16);
    ByteSplit(v / 0x1_0000, 8);
    assert v / 0x100 / 0x100 == v / 0x1_0000 && v / 0x1_0000 / 0x100 == v / 0x100_0000;
    assert v / 0x100_0000 < 0x100;
  }

  // ---- registers as machine words, to compute with ----

  function Low(b: bv32): bool { b & 1 == 1 }

  function Half(b: bv32): bv32 { b >> 1 }

  function Bit(b: bv32, i: nat): bool
    decreases i
  {
    if i == 0 then Low(b) else Bit(Half(b), i - 1)
  }

  function WordOf(b: bv32): (w: Word)
    ensures forall i | 0 <= i < 32 :: w[i] == Bit(b, i)
  {
    seq(32, i requires 0 <= i < 32 => Bit(b, i))
  }

  lemma XorLow(a: bv32, b: bv32)
    ensures Low(a ^ b) <==> Low(a) != Low(b)
  {
  }

  lemma XorHalf(a: bv32, b: bv32)
    ensures Half(a ^ b) == Half(a) ^ Half(b)
  {
  }

  lemma {:induction false} XorBit(a: bv32, b: bv32, i: nat)
    ensures Bit(a ^ b, i) == (Bit(a, i) != Bit(b, i))
    decreases i
  {
    hide Low, Half;
    XorLow(a, b);
    XorHalf(a, b);
    if i > 0 {
      XorBit(Half(a), Half(b), i - 1);
    }
  }

  lemma XorWords(a: bv32, b: bv32)
    ensures Xor(WordOf(a), WordOf(b)) == WordOf(a ^ b)
  {
    hide Bit, WordOf, Xor;
    forall i | 0 <= i < 32 ensures Xor(WordOf(a), WordOf(b))[i] == WordOf(a ^ b)[i] {
      XorBit(a, b, i);
    }
  }

  lemma FirstFour(b: bv32)
    ensures Bit(b, 0) == (b & 1 == 1) && Bit(b, 1) == ((b >> 1) & 1 == 1)
    ensures Bit(b, 2) == ((b >> 2) & 1 == 1) && Bit(b, 3) == ((b >> 3) & 1 == 1)
  {
    assert (b >> 1) >> 1 == b >> 2 && (b >> 2) >> 1 == b >> 3;
    assert Bit(b, 2) == Bit(b >> 1, 1);
    assert Bit(b, 3) == Bit(b >> 1, 2) == Bit(b >> 2, 1);
  }

  lemma SkipFour(b: bv32, i: nat)
    ensures Bit(b, i + 4) == Bit(b >> 4, i)
  {
    assert (b >> 1) >> 1 == b >> 2 && (b >> 2) >> 1 == b >> 3 && (b >> 3) >> 1 == b >> 4;
    assert Bit(b, i + 4) == Bit(b >> 1, i + 3);
    assert Bit(b >> 1, i + 3) == Bit(b >> 2, i + 2);
    assert Bit(b >> 2, i + 2) == Bit(b >> 3, i + 1);
  }

  function ByteOff(b: bv32): bv32 { b >> 8 }

  lemma SkipByte(b: bv32, i: nat)
    ensures Bit(b, i + 8) == Bit(ByteOff(b), i)
  {
    hide Bit;
    SkipFour(b, i + 4);
    SkipFour(b >> 4, i);
    assert (b >> 4) >> 4 == b >> 8;
  }

  lemma EightBits(b: bv32)
    ensures Bit(b, 0) == (b & 1 == 1) && Bit(b, 1) == ((b >> 1) & 1 == 1)
    ensures Bit(b, 2) == ((b >> 2) & 1 == 1) && Bit(b, 3) == ((b >> 3) & 1 == 1)
    ensures Bit(b, 4) == ((b >> 4) & 1 == 1) && Bit(b, 5) == ((b >> 5) & 1 == 1)
    ensures Bit(b, 6) == ((b >> 6) & 1 == 1) && Bit(b, 7) == ((b >> 7) & 1 == 1)
  {
    hide Bit;
    FirstFour(b);
    FirstFour(b >> 4);
    SkipFour(b, 0);
    SkipFour(b, 1);
    SkipFour(b, 2);
    SkipFour(b, 3);
    assert (b >> 4) >> 1 == b >> 5 && (b >> 4) >> 2 == b >> 6 && (b >> 4) >> 3 == b >> 7;
  }

  function N(bit: bool): nat { if bit then 1 else 0 }

  /** The lowest eight bits are those of v. */
  predicate LowByteIs(b: bv32, v: byte) {
    v == N(Bit(b, 0)) + 2 * N(Bit(b, 1)) + 4 * N(Bit(b, 2)) + 8 * N(Bit(b, 3))
         + 16 * N(Bit(b, 4)) + 32 * N(Bit(b, 5)) + 64 * N(Bit(b, 6)) + 128 * N(Bit(b, 7))
  }

  lemma LowByteAt(b: bv32, v: byte, i: nat)
    requires LowByteIs(b, v) && i < 8
    ensures Bit(b, i) == Bits(v, 8)[i]
  {
    hide Bit, Bits;
    Spells([Bit(b, 0), Bit(b, 1), Bit(b, 2), Bit(b, 3), Bit(b, 4), Bit(b, 5), Bit(b, 6), Bit(b, 7)], v);
  }

  lemma Spells(w: seq<bool>, v: nat)
    requires |w| == 8
    requires v == N(w[0]) + 2 * N(w[1]) + 4 * N(w[2]) + 8 * N(w[3])
                  + 16 * N(w[4]) + 32 * N(w[5]) + 64 * N(w[6]) + 128 * N(w[7])
    ensures Bits(v, 8) == w
  {
    hide Bits, N;
    assert w[4..][4..] == [];
    FourMore(w, w[4..]);
    FourMore(w[4..], []);
    BitsOfValue(w);
  }

  lemma FourMore(w: seq<bool>, rest: seq<bool>)
    requires |w| >= 4 && w[4..] == rest
    ensures Value(w) == N(w[0]) + 2 * N(w[1]) + 4 * N(w[2]) + 8 * N(w[3]) + 16 * Value(rest)
  {
    assert w[1..][1..] == w[2..] && w[2..][1..] == w[3..] && w[3..][1..] == w[4..];
    assert Value(w) == N(w[0]) + 2 * Value(w[1..]);
    assert Value(w[1..]) == N(w[1]) + 2 * Value(w[2..]);
    assert Value(w[2..]) == N(w[2]) + 2 * Value(w[3..]);
    assert Value(w[3..]) == N(w[3]) + 2 * Value(rest);
  }

  /** The register whose four bytes these are. */
  lemma WordIs(b: bv32, b1: bv32, b2: bv32, b3: bv32, s: seq<byte>)
    requires b1 == ByteOff(b) && b2 == ByteOff(b1) && b3 == ByteOff(b2)
    requires |s| == 4 && LowByteIs(b, s[0]) && LowByteIs(b1, s[1]) && LowByteIs(b2, s[2]) && LowByteIs(b3, s[3])
    ensures WordOf(b) == Joined(s)
  {
    hide Bit, Bits, WordOf, ByteOff, LowByteIs;
    forall i: nat | i < 32 ensures WordOf(b)[i] == Joined(s)[i] {
      if i < 8 {
        LowByteAt(b, s[0], i);
      } else if i < 16 {
        SkipByte(b, i - 8);
        LowByteAt(b1, s[1], i - 8);
      } else if i < 24 {
        SkipByte(b, i - 8);
        SkipByte(b1, i - 16);
        LowByteAt(b2, s[2], i - 16);
      } else {
        SkipByte(b, i - 8);
        SkipByte(b1, i - 16);
        SkipByte(b2, i - 24);
        LowByteAt(b3, s[3], i - 24);
      }
    }
  }

  lemma TopBitGoes(b: bv32)
    ensures !Bit(Half(b), 31)
  {
    hide Bit;
    SkipByte(Half(b), 23);
    SkipByte(ByteOff(Half(b)), 15);
    SkipByte(ByteOff(ByteOff(Half(b))), 7);
    EightBits(ByteOff(ByteOff(ByteOff(Half(b)))));
  }

  lemma ShiftWord(b: bv32)
    ensures ShiftRight(WordOf(b), 1) == WordOf(Half(b))
  {
    hide WordOf, Half;
    TopBitGoes(b);
    forall i | 0 <= i < 32 ensures ShiftRight(WordOf(b), 1)[i] == WordOf(Half(b))[i] {
      assert i < 31 ==> Bit(b, i + 1) == Bit(Half(b), i);
    }
  }

  lemma PolynomialWord()
    ensures WordOf(0xEDB88320) == POLYNOMIAL
  {
    PolynomialBytes();
    hide LowByteIs, Bits, WordOf, Joined;
    WordIs(0xEDB88320, 0xEDB883, 0xEDB8, 0xED, [0x20, 0x83, 0xB8, 0xED]);
    JoinedIsBits(0xEDB88320);
    assert PutU32(0xEDB88320) == [0x20, 0x83, 0xB8, 0xED];
  }

  lemma PolynomialBytes()
    ensures LowByteIs(0xEDB88320, 0x20) && LowByteIs(0xEDB883, 0x83) && LowByteIs(0xEDB8, 0xB8) && LowByteIs(0xED, 0xED)
  {
    hide Bit;
    EightBits(0xEDB88320);
    EightBits(0xEDB883);
    EightBits(0xEDB8);
    EightBits(0xED);
  }

  function Next(b: bv32): bv32 { if Low(b) then Half(b) ^ 0xEDB88320 else Half(b) }

  lemma NextIsStep(b: bv32)
    ensures Step(WordOf(b)) == WordOf(Next(b))
  {
    hide WordOf, Half, Xor, ShiftRight;
    ShiftWord(b);
    PolynomialWord();
    XorWords(Half(b), 0xEDB88320);
    assert WordOf(b)[0] == Bit(b, 0) == Low(b);
  }

  function Eight(b: bv32): bv32 { Next(Next(Next(Next(Next(Next(Next(Next(b)))))))) }

  lemma EightSteps(b: bv32)
    ensures Steps(WordOf(b), 8) == WordOf(Eight(b))
  {
    hide Next, WordOf, Step;
    var b1 := Next(b);
    var b2 := Next(b1);
    var b3 := Next(b2);
    var b4 := Next(b3);
    FourSteps(b, 4);
    FourSteps(b4, 0);
  }

  lemma FourSteps(b: bv32, n: nat)
    ensures Steps(WordOf(b), n + 4) == Steps(WordOf(Next(Next(Next(Next(b))))), n)
  {
    hide Next, WordOf, Step;
    NextIsStep(b);
    NextIsStep(Next(b));
    NextIsStep(Next(Next(b)));
    NextIsStep(Next(Next(Next(b))));
    assert Steps(WordOf(b), n + 4) == Steps(WordOf(Next(b)), n + 3);
    assert Steps(WordOf(Next(b)), n + 3) == Steps(WordOf(Next(Next(b))), n + 2);
    assert Steps(WordOf(Next(Next(b))), n + 2) == Steps(WordOf(Next(Next(Next(b)))), n + 1);
  }

  // ---- the residue ----

  lemma XorBack(c: Word)
    ensures Xor(c, Xor(c, ONES)) == ONES
  {
    hide Repeat;
  }

  lemma OnesWord()
    ensures WordOf(0xFFFF_FFFF) == ONES
  {
    hide Bits, Bit, WordOf;
    forall i: nat | i < 32 ensures Bit(0xFFFF_FFFF, i) {
      OnesBit(i);
    }
  }

  lemma OnesBit(i: nat)
    requires i < 32
    ensures Bit(0xFFFF_FFFF, i)
  {
    hide Bit;
    if i >= 8 {
      SkipByte(0xFFFF_FFFF, i - 8);
    }
    if i >= 16 {
      SkipByte(0xFF_FFFF, i - 16);
    }
    if i >= 24 {
      SkipByte(0xFFFF, i - 24);
    }
    EightBits(if i < 8 then 0xFFFF_FFFF else if i < 16 then 0xFF_FFFF else if i < 24 then 0xFFFF else 0xFF);
  }

  lemma OnesResidue()
    ensures Steps(ONES, 32) == Bits(0xDEBB20E3, 32)
  {
    hide Steps, WordOf, Bits;
    OnesWord();
    assert Eight(0xFFFF_FFFF) == 0x2DFD1072 && Eight(0x2DFD1072) == 0xBE26ED00;
    assert Eight(0xBE26ED00) == 0x00BE26ED && Eight(0x00BE26ED) == 0xDEBB20E3;
    hide Eight;
    EightSteps(0xFFFF_FFFF);
    EightSteps(0x2DFD1072);
    EightSteps(0xBE26ED00);
    EightSteps(0x00BE26ED);
    StepsAdd(ONES, 8, 24);
    StepsAdd(WordOf(0x2DFD1072), 8, 16);
    StepsAdd(WordOf(0xBE26ED00), 8, 8);
    ResidueWord();
  }

  lemma ResidueWord()
    ensures WordOf(0xDEBB20E3) == Bits(0xDEBB20E3, 32)
  {
    ResidueBytes();
    hide LowByteIs, Bits, WordOf, Joined;
    WordIs(0xDEBB20E3, 0xDEBB20, 0xDEBB, 0xDE, [0xE3, 0x20, 0xBB, 0xDE]);
    JoinedIsBits(0xDEBB20E3);
    assert PutU32(0xDEBB20E3) == [0xE3, 0x20, 0xBB, 0xDE];
  }

  lemma ResidueBytes()
    ensures LowByteIs(0xDEBB20E3, 0xE3) && LowByteIs(0xDEBB20, 0x20)
    ensures LowByteIs(0xDEBB, 0xBB) && LowByteIs(0xDE, 0xDE)
  {
    hide Bit;
    EightBits(0xDEBB20E3);
    EightBits(0xDEBB20);
    EightBits(0xDEBB);
    EightBits(0xDE);
  }

  /** Whatever the data, running their CRC through the register behind them leaves one and the same value there. */
  lemma ResidueIsFixed(s: seq<byte>)
    ensures UpdateAll(ONES, s + PutU32(Crc32(s))) == Bits(0xDEBB20E3, 32)
  {
    hide Bits, Steps, UpdateAll, Joined, Xor, PutU32, Repeat;
    var c := UpdateAll(ONES, s);
    UpdateAllConcat(ONES, s, PutU32(Crc32(s)));
    FourBytes(c, PutU32(Crc32(s)));
    JoinedIsBits(Crc32(s));
    BitsOfValue(Register(s));
    XorBack(c);
    OnesResidue();
  }

  /** ... and no other four bytes do. */
  lemma ResidueIff(s: seq<byte>, t: seq<byte>)
    requires |t| == 4
    ensures UpdateAll(ONES, s + t) == Bits(0xDEBB20E3, 32) <==> t == PutU32(Crc32(s))
  {
    hide Bits, Steps, UpdateAll, Joined, Xor, PutU32, Repeat;
    ResidueIsFixed(s);
    var c, u := UpdateAll(ONES, s), PutU32(Crc32(s));
    UpdateAllConcat(ONES, s, t);
    UpdateAllConcat(ONES, s, u);
    FourBytes(c, t);
    FourBytes(c, u);
    if UpdateAll(ONES, s + t) == Bits(0xDEBB20E3, 32) {
      StepsInjective(Xor(c, Joined(t)), Xor(c, Joined(u)), 32);
      XorCancels(c, Joined(t), Joined(u));
      SameFour(t, u);
    }
  }

  // ---- the check value ----

  const DIGITS: seq<byte> := [0x31, 0x32, 0x33, 0x34, 0x35, 0x36, 0x37, 0x38, 0x39]

  /** The register before and after digit i. */
  lemma DigitTaken(i: nat, digit: bv32, before: bv32, after: bv32)
    requires i < 9 && LowByteIs(digit, DIGITS[i]) && ByteOff(digit) == 0 && Eight(before ^ digit) == after
    ensures UpdateAll(WordOf(before), DIGITS[i..]) == UpdateAll(WordOf(after), DIGITS[i + 1..])
  {
    hide Bits, Eight, WordOf, LowByteIs, ByteOff, Joined, Steps, Xor, At, UpdateAll;
    ByteWord(digit, DIGITS[i]);
    XorWords(before, digit);
    EightSteps(before ^ digit);
    assert Update(WordOf(before), DIGITS[i]) == WordOf(after);
    assert DIGITS[i..][1..] == DIGITS[i + 1..];
    UpdateFirst(WordOf(before), DIGITS[i..]);
  }

  lemma UpdateFirst(c: Word, s: seq<byte>)
    requires s != []
    ensures UpdateAll(c, s) == UpdateAll(Update(c, s[0]), s[1..])
  {
  }

  lemma ByteWord(b: bv32, v: byte)
    requires LowByteIs(b, v) && ByteOff(b) == 0
    ensures WordOf(b) == At(0, Bits(v, 8))
  {
    NoByte();
    hide Bits, LowByteIs, Bit, WordOf;
    WordIs(b, 0, 0, 0, [v, 0, 0, 0]);
    assert Joined([v, 0, 0, 0]) == Bits(v, 8) + Zeros(8) + Zeros(8) + Zeros(8);
    assert At(0, Bits(v, 8)) == Zeros(0) + Bits(v, 8) + Zeros(24);
  }

  lemma NoByte()
    ensures LowByteIs(0, 0) && Bits(0, 8) == Zeros(8)
  {
    hide Bit;
    EightBits(0);
  }

  lemma Digits123()
    ensures UpdateAll(WordOf(0xFFFFFFFF), DIGITS[0..]) == UpdateAll(WordOf(0x77B79C2D), DIGITS[3..])
  {
    DigitBytes123();
    hide UpdateAll, WordOf, Bits, LowByteIs;
    DigitTaken(0, 0x31, 0xFFFFFFFF, 0x7C231048);
    DigitTaken(1, 0x32, 0x7C231048, 0xB0ACBB32);
    DigitTaken(2, 0x33, 0xB0ACBB32, 0x77B79C2D);
  }

  lemma DigitBytes123()
    ensures LowByteIs(0x31, 0x31) && LowByteIs(0x32, 0x32) && LowByteIs(0x33, 0x33)
  {
    hide Bit;
    EightBits(0x31);
    EightBits(0x32);
    EightBits(0x33);
  }

  lemma Digits456()
    ensures UpdateAll(WordOf(0x77B79C2D), DIGITS[3..]) == UpdateAll(WordOf(0xF68D2C9E), DIGITS[6..])
  {
    DigitBytes456();
    hide UpdateAll, WordOf, Bits, LowByteIs;
    DigitTaken(3, 0x34, 0x77B79C2D, 0x641C1F5C);
    DigitTaken(4, 0x35, 0x641C1F5C, 0x340AC5E3);
    DigitTaken(5, 0x36, 0x340AC5E3, 0xF68D2C9E);
  }

  lemma DigitBytes456()
    ensures LowByteIs(0x34, 0x34) && LowByteIs(0x35, 0x35) && LowByteIs(0x36, 0x36)
  {
    hide Bit;
    EightBits(0x34);
    EightBits(0x35);
    EightBits(0x36);
  }

  lemma Digits789()
    ensures UpdateAll(WordOf(0xF68D2C9E), DIGITS[6..]) == UpdateAll(WordOf(0x340BC6D9), DIGITS[9..])
  {
    DigitBytes789();
    hide UpdateAll, WordOf, Bits, LowByteIs;
    DigitTaken(6, 0x37, 0xF68D2C9E, 0xAFFC9660);
    DigitTaken(7, 0x38, 0xAFFC9660, 0x651F2550);
    DigitTaken(8, 0x39, 0x651F2550, 0x340BC6D9);
  }

  lemma DigitBytes789()
    ensures LowByteIs(0x37, 0x37) && LowByteIs(0x38, 0x38) && LowByteIs(0x39, 0x39)
  {
    hide Bit;
    EightBits(0x37);
    EightBits(0x38);
    EightBits(0x39);
  }

  lemma LastWord()
    ensures Value(WordOf(0xCBF43926)) == 0xCBF43926 && Value(WordOf(0)) == 0
  {
    LastBytes();
    NoByte();
    hide LowByteIs, Bits, WordOf, Joined, Pow2, Value;
    WordIs(0xCBF43926, 0xCBF439, 0xCBF4, 0xCB, [0x26, 0x39, 0xF4, 0xCB]);
    JoinedIsBits(0xCBF43926);
    assert PutU32(0xCBF43926) == [0x26, 0x39, 0xF4, 0xCB];
    WordIs(0, 0, 0, 0, [0, 0, 0, 0]);
    JoinedIsBits(0);
    assert PutU32(0) == [0, 0, 0, 0];
    Pow2Of32();
    ValueOfBits(0xCBF43926, 32);
    ValueOfBits(0, 32);
  }

  lemma LastBytes()
    ensures LowByteIs(0xCBF43926, 0x26) && LowByteIs(0xCBF439, 0x39) && LowByteIs(0xCBF4, 0xF4) && LowByteIs(0xCB, 0xCB)
  {
    hide Bit;
    EightBits(0xCBF43926);
    EightBits(0xCBF439);
    EightBits(0xCBF4);
    EightBits(0xCB);
  }

  lemma NothingMore(c: Word)
    ensures UpdateAll(c, []) == c
  {
  }

  /** The value the standard test string "123456789" must have, and that of no data at all. */
  lemma CheckValue()
    ensures Crc32(DIGITS) == 0xCBF43926 && Crc32([]) == 0
  {
    hide UpdateAll, WordOf, Xor, Bits, Repeat, Value;
    Digits123();
    Digits456();
    Digits789();
    OnesWord();
    assert DIGITS[0..] == DIGITS && DIGITS[9..] == [];
    NothingMore(WordOf(0x340BC6D9));
    NothingMore(ONES);
    XorWords(0x340BC6D9, 0xFFFF_FFFF);
    XorWords(0xFFFF_FFFF, 0xFFFF_FFFF);
    LastWord();
  }
}
