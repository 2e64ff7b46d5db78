/** CRC-32 as the protocol pins it (README.md:67-68, section 8 of RFC 1952): polynomial 0xEDB88320 reflected, register
    started and finished with all ones. A register is its 32 bits, the lowest first. */
module Crc {
  import opened Wire

  type Word = w: seq<bool> | |w| == 32 witness Repeat(false, 32)

  function Repeat(bit: bool, n: nat): (s: seq<bool>)
    ensures |s| == n && forall i | 0 <= i < n :: s[i] == bit
  {
    if n == 0 then [] else [bit] + Repeat(bit, n - 1)
  }

  const POLYNOMIAL: Word := Bits(0xEDB88320, 32)

  const ONES: Word := Repeat(true, 32)

  // ---- bits and numbers ----

  function Bits(v: nat, n: nat): (b: seq<bool>)
    ensures |b| == n
  {
    if n == 0 then [] else [v % 2 == 1] + Bits(v / 2, n - 1)
  }

  function Value(b: seq<bool>): nat {
    if b == [] then 0 else (if b[0] then 1 else 0) + 2 * Value(b[1..])
  }

  function Pow2(n: nat): nat { if n == 0 then 1 else 2 * Pow2(n - 1) }

  lemma {:induction false} ValueOfBits(v: nat, n: nat)
    requires v < Pow2(n)
    ensures Value(Bits(v, n)) == v
    decreases n
  {
    if n > 0 {
      ValueOfBits(v / 2, n - 1);
      assert Bits(v, n)[1..] == Bits(v / 2, n - 1);
    }
  }

  lemma {:induction false} ValueBounded(b: seq<bool>)
    ensures Value(b) < Pow2(|b|)
    decreases |b|
  {
    if b != [] {
      ValueBounded(b[1..]);
    }
  }

  lemma {:induction false} ValueInjective(a: seq<bool>, b: seq<bool>)
    requires |a| == |b| && Value(a) == Value(b)
    ensures a == b
    decreases |a|
  {
    if a != [] {
      ValueInjective(a[1..], b[1..]);
      assert a == [a[0]] + a[1..] && b == [b[0]] + b[1..];
    }
  }

  lemma Pow2Of8()
    ensures Pow2(8) == 0x100
  {
    assert Pow2(4) == 16;
    assert Pow2(6) == 64;
  }

  lemma {:induction false} Pow2Adds(m: nat, n: nat)
    ensures Pow2(m + n) == Pow2(m) * Pow2(n)
    decreases m
  {
    if m > 0 {
      Pow2Adds(m - 1, n);
    }
  }

  lemma Pow2Of32()
    ensures Pow2(32) == 0x1_0000_0000
  {
    Pow2Of8();
    Pow2Adds(8, 8);
    Pow2Adds(16, 16);
  }

  lemma {:induction false} ValueBelowHalf(b: seq<bool>)
    requires b != [] && !b[|b| - 1]
    ensures Value(b) < Pow2(|b| - 1)
    decreases |b|
  {
    if |b| > 1 {
      ValueBelowHalf(b[1..]);
    }
  }

  lemma Pow2Of31()
    ensures Pow2(31) == 0x8000_0000
  {
    Pow2Of32();
    assert Pow2(32) == 2 * Pow2(31);
  }

  lemma TopBit()
    ensures POLYNOMIAL[31]
  {
    hide Bits, Value, Pow2;
    Pow2Of32();
    Pow2Of31();
    ValueOfBits(0xEDB88320, 32);
    if !POLYNOMIAL[31] {
      ValueBelowHalf(POLYNOMIAL);
      assert false;
    }
  }

  lemma BitsInjective(a: byte, b: byte)
    requires Bits(a, 8) == Bits(b, 8)
    ensures a == b
  {
    Pow2Of8();
    ValueOfBits(a, 8);
    ValueOfBits(b, 8);
  }

  // ---- the register ----

  function Xor(a: seq<bool>, b: seq<bool>): (r: seq<bool>)
    requires |a| == |b|
    ensures |r| == |a| && forall i | 0 <= i < |a| :: r[i] == (a[i] != b[i])
  {
    if a == [] then [] else [a[0] != b[0]] + Xor(a[1..], b[1..])
  }

  function Zeros(n: nat): seq<bool> { Repeat(false, n) }

  /** bits at positions k.. of an otherwise empty register. */
  function At(k: nat, bits: seq<bool>): Word
    requires k + |bits| <= 32
  {
    Zeros(k) + bits + Zeros(32 - k - |bits|)
  }

  function ShiftRight(c: Word, n: nat): Word
    requires n <= 32
  {
    c[n..] + Zeros(n)
  }

  /** One bit of polynomial division. */
  function Step(c: Word): Word {
    if c[0] then Xor(ShiftRight(c, 1), POLYNOMIAL) else ShiftRight(c, 1)
  }

  function Steps(c: Word, n: nat): Word
    decreases n
  {
    if n == 0 then c else Steps(Step(c), n - 1)
  }

  function Update(c: Word, b: byte): Word { Steps(Xor(c, At(0, Bits(b, 8))), 8) }

  function UpdateAll(c: Word, s: seq<byte>): Word
    decreases |s|
  {
    if s == [] then c else UpdateAll(Update(c, s[0]), s[1..])
  }

  function Register(s: seq<byte>): Word { Xor(UpdateAll(ONES, s), ONES) }

  function Crc32(s: seq<byte>): u32 {
    ValueBounded(Register(s));
    Pow2Of32();
    Value(Register(s))
  }

  // ---- division is linear and loses nothing ----

  lemma StepLinear(a: Word, b: Word)
    ensures Step(Xor(a, b)) == Xor(Step(a), Step(b))
  {
  }

  lemma {:induction false} StepsLinear(a: Word, b: Word, n: nat)
    ensures Steps(Xor(a, b), n) == Xor(Steps(a, n), Steps(b, n))
    decreases n
  {
    if n > 0 {
      StepLinear(a, b);
      StepsLinear(Step(a), Step(b), n - 1);
    }
  }

  /** The top bit of the polynomial tells which branch was taken. */
  lemma StepInjective(a: Word, b: Word)
    requires Step(a) == Step(b)
    ensures a == b
  {
    TopBit();
    hide Bits;
    assert Step(a)[31] == a[0] && Step(b)[31] == b[0];
    forall i | 0 <= i < 32 ensures a[i] == b[i] {
      if i > 0 {
        assert Step(a)[i - 1] == Step(b)[i - 1];
      }
    }
  }

  lemma {:induction false} StepsInjective(a: Word, b: Word, n: nat)
    requires Steps(a, n) == Steps(b, n)
    ensures a == b
    decreases n
  {
    hide Step;
    if n > 0 {
      StepsInjective(Step(a), Step(b), n - 1);
      StepInjective(a, b);
    }
  }

  /** Low zero bits are just shifted out. */
  lemma {:induction false} StepsShift(c: Word, n: nat)
    requires n <= 32 && forall i | 0 <= i < n :: !c[i]
    ensures Steps(c, n) == ShiftRight(c, n)
    decreases n
  {
    if n > 0 {
      var d := Step(c);
      assert d == ShiftRight(c, 1);
      StepsShift(d, n - 1);
      assert ShiftRight(d, n - 1) == ShiftRight(c, n);
    } else {
      assert c[0..] + [] == c;
    }
  }

  // ---- the table form of the source ----

  function Table(i: byte): Word { Steps(At(0, Bits(i, 8)), 8) }

  function LowByte(c: Word): byte {
    ValueBounded(c[..8]);
    Pow2Of8();
    Value(c[..8])
  }

  lemma {:induction false} BitsOfValue(b: seq<bool>)
    ensures Bits(Value(b), |b|) == b
    decreases |b|
  {
    if b != [] {
      BitsOfValue(b[1..]);
      assert Value(b) / 2 == Value(b[1..]);
    }
  }

  lemma TableForm(c: Word, b: byte)
    ensures Update(c, b) == Xor(Table(LowByte(Xor(c, At(0, Bits(b, 8))))), ShiftRight(c, 8))
  {
    var x := Xor(c, At(0, Bits(b, 8)));
    var low, high: Word := At(0, x[..8]), Zeros(8) + x[8..];
    assert x == Xor(low, high);
    assert ShiftRight(high, 8) == ShiftRight(c, 8) by { hide Bits; }
    assert forall i | 0 <= i < 8 :: !high[i];
    hide Steps, Xor, At, ShiftRight, Value, Bits;
    BitsOfValue(x[..8]);
    StepsLinear(low, high, 8);
    StepsShift(high, 8);
  }

  /** crc32Update and crc32 (shared/protocol/crc32.cpp:14-41). */
  method ComputeCrc32(data: seq<byte>) returns (crc: Word)
    ensures crc == Register(data) && Value(crc) == Crc32(data)
  {
    var table := BuildTable();
    crc := ONES;
    for i := 0 to |data|
      invariant forall k: byte :: table[k] == Table(k)
      invariant UpdateAll(crc, data[i..]) == UpdateAll(ONES, data)
    {
      TableForm(crc, data[i]);
      crc := Xor(table[LowByte(Xor(crc, At(0, Bits(data[i], 8))))], ShiftRight(crc, 8));
      assert data[i..][1..] == data[i + 1..];
    }
    crc := Xor(crc, ONES);
  }

  method BuildTable() returns (table: array<Word>)
    ensures fresh(table) && table.Length == 0x100 && forall k: byte :: table[k] == Table(k)
  {
    hide Table, Bits, Repeat;
    table := new Word[0x100](_ => ONES);
    for i := 0 to 0x100
      invariant forall k | 0 <= k < i :: table[k] == Table(k)
    {
      table[i] := TableEntry(i);
    }
  }

  method TableEntry(i: byte) returns (c: Word)
    ensures c == Table(i)
  {
    hide Bits, At, Xor;
    c := At(0, Bits(i, 8));
    for bit := 0 to 8
      invariant Steps(c, 8 - bit) == Table(i)
    {
      XorFlip(POLYNOMIAL, ShiftRight(c, 1));
      c := if c[0] then Xor(POLYNOMIAL, ShiftRight(c, 1)) else ShiftRight(c, 1);
    }
  }

  // ---- what changes of the data it detects ----

  lemma XorCancels(c: Word, a: Word, b: Word)
    requires Xor(c, a) == Xor(c, b)
    ensures a == b
  {
    forall i | 0 <= i < 32 ensures a[i] == b[i] {
      assert Xor(c, a)[i] == Xor(c, b)[i];
    }
  }

  lemma XorFlip(a: Word, b: Word)
    ensures Xor(a, b) == Xor(b, a)
  {
  }

  lemma {:induction false} UpdateAllInjective(a: Word, b: Word, s: seq<byte>)
    requires UpdateAll(a, s) == UpdateAll(b, s)
    ensures a == b
    decreases |s|
  {
    if s != [] {
      UpdateAllInjective(Update(a, s[0]), Update(b, s[0]), s[1..]);
      var w := At(0, Bits(s[0], 8));
      StepsInjective(Xor(a, w), Xor(b, w), 8);
      XorFlip(a, w);
      XorFlip(b, w);
      XorCancels(w, a, b);
    }
  }

  lemma {:induction false} UpdateAllConcat(c: Word, s: seq<byte>, t: seq<byte>)
    ensures UpdateAll(c, s + t) == UpdateAll(UpdateAll(c, s), t)
    decreases |s|
  {
    if s == [] {
      assert s + t == t;
    } else {
      assert (s + t)[1..] == s[1..] + t;
      UpdateAllConcat(Update(c, s[0]), s[1..], t);
    }
  }

  /** Data that differ only in a middle part with different effects on the register have different CRCs. */
  lemma MiddleDetected(before: seq<byte>, a: seq<byte>, b: seq<byte>, after: seq<byte>)
    requires forall c: Word :: UpdateAll(c, a) != UpdateAll(c, b)
    ensures Crc32(before + a + after) != Crc32(before + b + after)
  {
    var c := UpdateAll(ONES, before);
    UpdateAllConcat(ONES, before, a);
    UpdateAllConcat(ONES, before, b);
    UpdateAllConcat(ONES, before + a, after);
    UpdateAllConcat(ONES, before + b, after);
    var ra, rb := UpdateAll(ONES, before + a + after), UpdateAll(ONES, before + b + after);
    if Crc32(before + a + after) == Crc32(before + b + after) {
      ValueInjective(Xor(ra, ONES), Xor(rb, ONES));
      XorFlip(ra, ONES);
      XorFlip(rb, ONES);
      XorCancels(ONES, ra, rb);
      UpdateAllInjective(UpdateAll(c, a), UpdateAll(c, b), after);
      assert false;
    }
  }

  /** Any change of one byte. */
  lemma OneByteDetected(before: seq<byte>, x: byte, y: byte, after: seq<byte>)
    requires x != y
    ensures Crc32(before + [x] + after) != Crc32(before + [y] + after)
  {
    forall c: Word ensures UpdateAll(c, [x]) != UpdateAll(c, [y]) {
      assert [x][1..] == [] && [y][1..] == [];
      assert UpdateAll(c, [x]) == UpdateAll(Update(c, x), []) && UpdateAll(c, [y]) == UpdateAll(Update(c, y), []);
      if UpdateAll(c, [x]) == UpdateAll(c, [y]) {
        StepsInjective(Xor(c, At(0, Bits(x, 8))), Xor(c, At(0, Bits(y, 8))), 8);
        XorCancels(c, At(0, Bits(x, 8)), At(0, Bits(y, 8)));
        assert Bits(x, 8) == At(0, Bits(x, 8))[..8] && Bits(y, 8) == At(0, Bits(y, 8))[..8];
        BitsInjective(x, y);
        assert false;
      }
    }
    MiddleDetected(before, [x], [y], after);
  }

  /** A byte can be mixed in before the division steps that precede it, at the position it will have moved from. */
  lemma MixEarlier(x: Word, k: nat, b: byte, n: nat)
    requires k + n + 8 <= 32
    ensures Xor(Steps(x, n), At(k, Bits(b, 8))) == Steps(Xor(x, At(k + n, Bits(b, 8))), n)
  {
    var y := At(k + n, Bits(b, 8));
    StepsShift(y, n);
    assert ShiftRight(y, n) == At(k, Bits(b, 8));
    StepsLinear(x, y, n);
  }

  lemma {:induction false} StepsAdd(c: Word, m: nat, n: nat)
    ensures Steps(Steps(c, m), n) == Steps(c, m + n)
    decreases m
  {
    if m > 0 {
      StepsAdd(Step(c), m - 1, n);
    }
  }

  /** One more byte on a register that has taken n / 8 bytes since it was x. */
  lemma OneMoreByte(x: Word, b: byte, n: nat)
    requires n + 8 <= 32
    ensures Update(Steps(x, n), b) == Steps(Xor(x, At(n, Bits(b, 8))), n + 8)
  {
    MixEarlier(x, 0, b, n);
    hide Steps, At, Xor, Bits;
    StepsAdd(Xor(x, At(n, Bits(b, 8))), n, 8);
  }

  /** Four bytes at once: the register takes them as one word. */
  lemma FourBytes(c: Word, s: seq<byte>)
    requires |s| == 4
    ensures UpdateAll(c, s) == Steps(Xor(c, Joined(s)), 32)
  {
    var x1: Word := Xor(c, At(0, Bits(s[0], 8)));
    var x2: Word := Xor(x1, At(8, Bits(s[1], 8)));
    var x3: Word := Xor(x2, At(16, Bits(s[2], 8)));
    var x4: Word := Xor(x3, At(24, Bits(s[3], 8)));
    JoinedMix(c, s);
    UpdateFour(c, s);
    assert Update(c, s[0]) == Steps(x1, 8);
    hide Update, Steps, Xor, At, Bits;
    OneMoreByte(x1, s[1], 8);
    OneMoreByte(x2, s[2], 16);
    OneMoreByte(x3, s[3], 24);
  }

  lemma JoinedMix(c: Word, s: seq<byte>)
    requires |s| == 4
    ensures Xor(c, Joined(s)) ==
            Xor(Xor(Xor(Xor(c, At(0, Bits(s[0], 8))), At(8, Bits(s[1], 8))), At(16, Bits(s[2], 8))), At(24, Bits(s[3], 8)))
  {
    hide Bits;
    var w := At(0, Bits(s[0], 8));
    forall i | 0 <= i < 32
      ensures Joined(s)[i] == (if i < 8 then At(0, Bits(s[0], 8))[i] else if i < 16 then At(8, Bits(s[1], 8))[i]
                               else if i < 24 then At(16, Bits(s[2], 8))[i] else At(24, Bits(s[3], 8))[i])
    {
    }
  }

  lemma UpdateFour(c: Word, s: seq<byte>)
    requires |s| == 4
    ensures UpdateAll(c, s) == Update(Update(Update(Update(c, s[0]), s[1]), s[2]), s[3])
  {
    hide Update;
    assert s[1..][1..] == s[2..] && s[2..][1..] == s[3..] && s[3..][1..] == [];
    var c1 := Update(c, s[0]);
    var c2 := Update(c1, s[1]);
    var c3 := Update(c2, s[2]);
    assert UpdateAll(c, s) == UpdateAll(c1, s[1..]) == UpdateAll(c2, s[2..]) == UpdateAll(c3, s[3..]);
    assert UpdateAll(c3, s[3..]) == UpdateAll(Update(c3, s[3]), []);
  }

  function Joined(s: seq<byte>): Word
    requires |s| == 4
  {
    Bits(s[0], 8) + Bits(s[1], 8) + Bits(s[2], 8) + Bits(s[3], 8)
  }

  /** Any change confined to four adjacent bytes. */
  lemma FourBytesDetected(before: seq<byte>, s: seq<byte>, t: seq<byte>, after: seq<byte>)
    requires |s| == 4 == |t| && s != t
    ensures Crc32(before + s + after) != Crc32(before + t + after)
  {
    forall c: Word ensures UpdateAll(c, s) != UpdateAll(c, t) {
      if UpdateAll(c, s) == UpdateAll(c, t) {
        FourBytes(c, s);
        FourBytes(c, t);
        hide UpdateAll, Steps, Xor, Joined;
        StepsInjective(Xor(c, Joined(s)), Xor(c, Joined(t)), 32);
        XorCancels(c, Joined(s), Joined(t));
        SameFour(s, t);
        assert false;
      }
    }
    MiddleDetected(before, s, t, after);
  }

  lemma SameFour(s: seq<byte>, t: seq<byte>)
    requires |s| == 4 == |t| && Joined(s) == Joined(t)
    ensures s == t
  {
    hide Bits;
    var ws, wt := Joined(s), Joined(t);
    assert Bits(s[0], 8) == ws[..8] && Bits(s[1], 8) == ws[8..16] && Bits(s[2], 8) == ws[16..24] && Bits(s[3], 8) == ws[24..];
    assert Bits(t[0], 8) == wt[..8] && Bits(t[1], 8) == wt[8..16] && Bits(t[2], 8) == wt[16..24] && Bits(t[3], 8) == wt[24..];
    BitsInjective(s[0], t[0]);
    BitsInjective(s[1], t[1]);
    BitsInjective(s[2], t[2]);
    BitsInjective(s[3], t[3]);
  }
}
