/** The saturating number parsers of shared/display/physical_status.cpp:38-169, each a loop proved to compute the
    mathematical value of its digits, cut off at the limit of its type. */
module NumberParsers {
  import opened Wire
  import opened Text

  const U64_MAX := 0xFFFF_FFFF_FFFF_FFFF
  const I64_MAX := 0x7FFF_FFFF_FFFF_FFFF
  const U32_MAX := 0xFFFF_FFFF

  // ---- what they compute ----

  function U64Of(s: string): Option<nat> {
    if s != [] && AllDigits(10, s) then Some(Min(NumberOf(10, s), U64_MAX)) else None
  }

  function HexBody(s: string): string {
    if |s| >= 2 && s[0] == '0' && (s[1] == 'x' || s[1] == 'X') then s[2..] else s
  }

  function HexOf(s: string): Option<nat> {
    var b := HexBody(s);
    if b != [] && AllDigits(16, b) then Some(Min(NumberOf(16, b), U64_MAX)) else None
  }

  predicate Signed(s: string) { s != [] && (s[0] == '-' || s[0] == '+') }

  function ClampI64(n: int): int { if n > I64_MAX then I64_MAX else if n < -I64_MAX - 1 then -I64_MAX - 1 else n }

  function I64Of(s: string): Option<int> {
    var digits := if Signed(s) then s[1..] else s;
    if digits != [] && AllDigits(10, digits)
    then
      var mag: int := NumberOf(10, digits);
      Some(ClampI64(if Signed(s) && s[0] == '-' then -mag else mag))
    else None
  }

  /** The first two decimals count; the third is still looked at. */
  function FractionOf(f: string): Option<nat> {
    if !AllDigits(10, f[..Min(3, |f|)]) then None
    else Some((if |f| >= 1 then DigitValue(f[0]) * 10 else 0) + (if |f| >= 2 then DigitValue(f[1]) else 0))
  }

  /** Hundredths of "X.YY", cut off at 32 bits. */
  function FpsOf(s: string): Option<nat> {
    var dot := IndexOf(s, '.');
    var whole := s[..dot];
    var fraction := if dot == |s| then Some(0) else FractionOf(s[dot + 1..]);
    if whole != [] && AllDigits(10, whole) && fraction.Some?
    then Some(Min(NumberOf(10, whole) * 100 + fraction.value, U32_MAX)) else None
  }

  // ---- how they compute it ----

  lemma MulMono(a: nat, b: nat, c: nat)
    requires a <= b
    ensures a * c <= b * c
  {
  }

  /** Comparing with the quotient is comparing the product. */
  lemma Fits(v: nat, base: nat, room: nat)
    requires base >= 1
    ensures v > room / base <==> v * base > room
  {
    var q := room / base;
    assert q * base <= room < q * base + base;
    if v > q {
      MulMono(q + 1, v, base);
      assert (q + 1) * base == q * base + base;
    } else {
      MulMono(v, q, base);
    }
  }

  /** One more digit on an accumulator that has been cut off at the limit: the overflow test is exact. */
  lemma Saturates(n: nat, base: nat, d: nat, max: nat)
    requires base >= 2 && d <= max && max >= 1
    ensures var v := Min(n, max);
            Min(n * base + d, max) == if v > (max - d) / base then max else v * base + d
  {
    var v := Min(n, max);
    Fits(v, base, max - d);
    MulMono(v, n, base);
    if n > max {
      MulMono(2, base, max);
      assert base * max == max * base;
    }
  }

  method ParseU64Clamp(s: string) returns (r: Option<nat>)
    ensures r == U64Of(s)
  {
    if s == [] {
      return None;
    }
    var v: nat := 0;
    for i := 0 to |s|
      invariant AllDigits(10, s[..i]) && v == Min(NumberOf(10, s[..i]), U64_MAX)
    {
      var c := s[i];
      if c < '0' || c > '9' {
        assert !IsDigitIn(10, s[i]);
        return None;
      }
      var d := c as int - '0' as int;
      assert s[..i + 1] == s[..i] + [c];
      NumberSnoc(10, s[..i], c);
      Saturates(NumberOf(10, s[..i]), 10, d, U64_MAX);
      if v > (U64_MAX - d) / 10 {
        v := U64_MAX;
      } else {
        v := v * 10 + d;
      }
    }
    assert s[..|s|] == s;
    r := Some(v);
  }

  method ParseI64Clamp(s: string) returns (r: Option<int>)
    ensures r == I64Of(s)
  {
    var neg, digits := false, s;
    if s != [] && (s[0] == '-' || s[0] == '+') {
      neg := s[0] == '-';
      digits := s[1..];
    }
    var parsed := ParseU64Clamp(digits);
    if parsed.None? {
      return None;
    }
    var mag := parsed.value;
    if neg {
      if mag > I64_MAX + 1 {
        mag := I64_MAX + 1;
      }
      r := Some(-mag);
    } else {
      if mag > I64_MAX {
        mag := I64_MAX;
      }
      r := Some(mag);
    }
  }

  method ParseHexClamp(s: string) returns (r: Option<nat>)
    ensures r == HexOf(s)
  {
    var b := s;
    if |s| >= 2 && s[0] == '0' && (s[1] == 'x' || s[1] == 'X') {
      b := s[2..];
    }
    if b == [] {
      return None;
    }
    var v: nat := 0;
    for i := 0 to |b|
      invariant AllDigits(16, b[..i]) && v == Min(NumberOf(16, b[..i]), U64_MAX)
    {
      var c := b[i];
      var d: nat;
      if '0' <= c <= '9' {
        d := c as int - '0' as int;
      } else if 'a' <= c <= 'f' {
        d := c as int - 'a' as int + 10;
      } else if 'A' <= c <= 'F' {
        d := c as int - 'A' as int + 10;
      } else {
        assert !IsDigitIn(16, b[i]);
        return None;
      }
      assert b[..i + 1] == b[..i] + [c];
      NumberSnoc(16, b[..i], c);
      Saturates(NumberOf(16, b[..i]), 16, d, U64_MAX);
      if v > (U64_MAX - d) / 16 {
        v := U64_MAX;
      } else {
        v := v * 16 + d;
      }
    }
    assert b[..|b|] == b;
    r := Some(v);
  }

  method ParseFpsHundredths(s: string) returns (r: Option<nat>)
    ensures r == FpsOf(s)
  {
    var dot := IndexOf(s, '.');
    var intPart := ParseU64Clamp(s[..dot]);
    if intPart.None? {
      return None;
    }
    var frac: nat := 0;
    if dot < |s| {
      var f := ParseFraction(s[dot + 1..]);
      if f.None? {
        return None;
      }
      frac := f.value;
    }
    assert frac < 100;
    if intPart.value > (U32_MAX - frac) / 100 {
      r := Some(U32_MAX);
    } else {
      r := Some(intPart.value * 100 + frac);
    }
  }

  /** The loop over the decimals: stops behind the second, but only after looking at the third. */
  method ParseFraction(f: string) returns (r: Option<nat>)
    ensures r == FractionOf(f) && (r.Some? ==> r.value < 100)
  {
    var frac: nat, place: nat, i: nat := 0, 10, 0;
    while i < |f|
      invariant i <= 2 && i <= |f| && AllDigits(10, f[..i])
      invariant place == (if i == 0 then 10 else if i == 1 then 1 else 0)
      invariant frac == (if i >= 1 then DigitValue(f[0]) * 10 else 0) + (if i >= 2 then DigitValue(f[1]) else 0)
    {
      var c := f[i];
      if c < '0' || c > '9' {
        assert f[..Min(3, |f|)][i] == c && !IsDigitIn(10, c);
        return None;
      }
      assert f[..i + 1] == f[..i] + [c];
      if i >= 2 {
        break;
      }
      frac := frac + (c as int - '0' as int) * place;
      place := place / 10;
      i := i + 1;
    }
    r := Some(frac);
  }

  // ---- what printing gives, they take back ----

  lemma U64IsRead(n: nat)
    requires n <= U64_MAX
    ensures U64Of(Decimal(n)) == Some(n)
  {
    DecimalIsRead(n);
  }

  lemma I64IsRead(n: int)
    requires -I64_MAX - 1 <= n <= I64_MAX
    ensures I64Of(SignedDecimal(n)) == Some(n)
  {
    hide Decimal, NumberOf;
    if n < 0 {
      DecimalIsRead(-n);
      assert SignedDecimal(n)[1..] == Decimal(-n);
    } else {
      DecimalIsRead(n);
      assert IsDigitIn(10, Decimal(n)[0]);
    }
  }

  lemma HexIsRead(n: nat)
    requires n < 256
    ensures HexOf("0x" + Hex2(n)) == Some(n)
  {
    Hex2IsRead(n);
    assert ("0x" + Hex2(n))[2..] == Hex2(n);
  }

  /** "%u.%02u" of a number of hundredths. */
  function PrintFps(n: nat): string {
    Decimal(n / 100) + "." + [DecimalDigit(n / 10 % 10), DecimalDigit(n % 10)]
  }

  lemma NoDotInDigits(s: string)
    requires AllDigits(10, s)
    ensures '.' !in s
  {
    forall i | 0 <= i < |s| ensures s[i] != '.' {
      assert IsDigitIn(10, s[i]);
    }
  }

  /** parseFpsHundredths inverts the printed form up to its limit, and is cut off exactly above it. */
  lemma FpsIsRead(n: nat)
    ensures FpsOf(PrintFps(n)) == Some(Min(n, U32_MAX))
  {
    var whole, f := Decimal(n / 100), [DecimalDigit(n / 10 % 10), DecimalDigit(n % 10)];
    DecimalIsRead(n / 100);
    NoDotInDigits(whole);
    IndexOfJoined(whole, '.', f);
    var s := PrintFps(n);
    assert s == whole + ['.'] + f;
    assert s[..|whole|] == whole && s[|whole| + 1..] == f;
    assert f[..Min(3, |f|)] == f;
    assert n == n / 100 * 100 + n / 10 % 10 * 10 + n % 10;
  }

  // ---- every form of a number ----

  /** Unsigned: digits only, saturating. */
  lemma U64Forms(n: nat, s: string, i: nat)
    ensures U64Of(Decimal(n)) == Some(if n <= 0xFFFF_FFFF_FFFF_FFFF then n else 0xFFFF_FFFF_FFFF_FFFF)
    ensures U64Of("") == None && (i < |s| && !('0' <= s[i] <= '9') ==> U64Of(s) == None)
  {
    DecimalIsRead(n);
    assert i < |s| && !('0' <= s[i] <= '9') ==> !IsDigitIn(10, s[i]);
  }

  /** Signed: one sign of either kind, saturating at both ends. */
  lemma I64Forms(n: nat, sign: char)
    ensures I64Of(Decimal(n)) == Some(if n <= 0x7FFF_FFFF_FFFF_FFFF then n else 0x7FFF_FFFF_FFFF_FFFF)
    ensures sign == '+' ==> I64Of([sign] + Decimal(n)) == I64Of(Decimal(n))
    ensures sign == '-' ==>
              I64Of([sign] + Decimal(n)) == Some(-(if n <= 0x8000_0000_0000_0000 then n else 0x8000_0000_0000_0000))
    ensures sign == '+' || sign == '-' ==> I64Of([sign]) == None
  {
    hide Decimal, NumberOf;
    DecimalIsRead(n);
    assert IsDigitIn(10, Decimal(n)[0]);
    assert ([sign] + Decimal(n))[1..] == Decimal(n) && [sign][1..] == [];
  }

  /** Hexadecimal: either case, with or without either prefix. */
  lemma HexForms(hi: char, lo: char, prefix: string)
    requires prefix in {"", "0x", "0X"} && (prefix == "" ==> lo != 'x' && lo != 'X')
    ensures HexOf(prefix + [hi, lo]) ==
            if Hexit(hi) < 16 && Hexit(lo) < 16 then Some(16 * Hexit(hi) + Hexit(lo)) else None
    ensures HexOf("0x") == None && HexOf("0X") == None && HexOf("") == None
  {
    hide NumberOf, DigitValue;
    Unprefixed(prefix, hi, lo);
    TwoHexits(hi, lo);
  }

  lemma Unprefixed(prefix: string, hi: char, lo: char)
    requires prefix in {"", "0x", "0X"} && (prefix == "" ==> lo != 'x' && lo != 'X')
    ensures HexBody(prefix + [hi, lo]) == [hi, lo]
  {
    var s := prefix + [hi, lo];
    if prefix == "" {
      assert s == [hi, lo];
    } else {
      assert s[2..] == [hi, lo];
    }
  }

  lemma TwoHexits(hi: char, lo: char)
    ensures AllDigits(16, [hi, lo]) <==> Hexit(hi) < 16 && Hexit(lo) < 16
    ensures AllDigits(16, [hi, lo]) ==> NumberOf(16, [hi, lo]) == 16 * Hexit(hi) + Hexit(lo)
  {
    assert [hi, lo][0] == hi && [hi, lo][1] == lo;
    assert IsDigitIn(16, hi) <==> Hexit(hi) < 16;
    assert IsDigitIn(16, lo) <==> Hexit(lo) < 16;
    if AllDigits(16, [hi, lo]) {
      assert DigitValue(hi) == Hexit(hi) && DigitValue(lo) == Hexit(lo);
      hide DigitValue, Hexit, IsDigitIn;
      NumberSnoc(16, [], hi);
      NumberSnoc(16, [hi], lo);
      assert [] + [hi] == [hi] && [hi] + [lo] == [hi, lo];
    }
  }

  function Hexit(c: char): nat {
    if '0' <= c <= '9' then c as int - 48
    else if 'a' <= c <= 'f' then c as int - 87
    else if 'A' <= c <= 'F' then c as int - 55
    else 16
  }

  /** Hundredths: no decimals, one, two, or more, of which the third must be a digit. */
  lemma FpsForms(n: nat, d: char, e: char, f: char, tail: string)
    requires '0' <= d <= '9' && '0' <= e <= '9'
    ensures var whole, tenths, hundredths := Decimal(n), 10 * (d as int - 48), e as int - 48;
            && FpsOf(whole) == FpsOf(whole + ".") == Some(Least(100 * n))
            && FpsOf(whole + "." + [d]) == Some(Least(100 * n + tenths))
            && FpsOf(whole + "." + [d, e]) == Some(Least(100 * n + tenths + hundredths))
            && FpsOf(whole + "." + ([d, e, f] + tail)) ==
               if '0' <= f <= '9' then Some(Least(100 * n + tenths + hundredths)) else None
  {
    hide Decimal, NumberOf, FractionOf;
    DecimalIsRead(n);
    NoDotInDigits(Decimal(n));
    IndexOfNone(Decimal(n), '.');
    assert Decimal(n)[..|Decimal(n)|] == Decimal(n);
    WithFraction(n, []);
    assert Decimal(n) + "." + [] == Decimal(n) + ".";
    WithFraction(n, [d]);
    WithFraction(n, [d, e]);
    WithFraction(n, [d, e, f] + tail);
    Fractions(d, e, f, tail);
  }

  function Least(v: nat): nat { if v <= 0xFFFF_FFFF then v else 0xFFFF_FFFF }

  lemma WithFraction(n: nat, f: string)
    ensures FpsOf(Decimal(n) + "." + f) ==
            if FractionOf(f).Some? then Some(Least(100 * n + FractionOf(f).value)) else None
  {
    hide Decimal, NumberOf, FractionOf;
    DecimalIsRead(n);
    NoDotInDigits(Decimal(n));
    IndexOfJoined(Decimal(n), '.', f);
    var s := Decimal(n) + ['.'] + f;
    assert s == Decimal(n) + "." + f && s[..|Decimal(n)|] == Decimal(n) && s[|Decimal(n)| + 1..] == f;
  }

  lemma Fractions(d: char, e: char, f: char, tail: string)
    requires '0' <= d <= '9' && '0' <= e <= '9'
    ensures FractionOf([]) == Some(0) && FractionOf([d]) == Some(10 * (d as int - 48))
    ensures FractionOf([d, e]) == Some(10 * (d as int - 48) + (e as int - 48))
    ensures FractionOf([d, e, f] + tail) == if '0' <= f <= '9' then FractionOf([d, e]) else None
  {
    assert [d, e][..2] == [d, e] && [d][..1] == [d];
    var s := [d, e, f] + tail;
    assert s[..3] == [d, e, f] && s[0] == d && s[1] == e && s[2] == f;
    assert AllDigits(10, [d, e, f]) <==> IsDigitIn(10, f) by {
      assert [d, e, f][2] == f;
    }
  }
}
