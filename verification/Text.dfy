/** Numbers as text: what snprintf prints and what the digits of a string mean. */
module Text {

  // ---- digits in any base up to 16 ----

  predicate IsHexDigit(c: char) { '0' <= c <= '9' || 'a' <= c <= 'f' || 'A' <= c <= 'F' }

  function DigitValue(c: char): (d: nat)
    requires IsHexDigit(c)
    ensures d < 16
  {
    if c <= '9' then c as int - '0' as int
    else if c <= 'F' then c as int - 'A' as int + 10
    else c as int - 'a' as int + 10
  }

  predicate IsDigitIn(base: nat, c: char) { IsHexDigit(c) && DigitValue(c) < base }

  predicate AllDigits(base: nat, s: string) { forall i | 0 <= i < |s| :: IsDigitIn(base, s[i]) }

  /** The number a string of digits stands for. */
  function NumberOf(base: nat, s: string): nat
    requires AllDigits(base, s)
  {
    if s == [] then 0 else NumberOf(base, s[..|s| - 1]) * base + DigitValue(s[|s| - 1])
  }

  lemma NumberSnoc(base: nat, s: string, c: char)
    requires AllDigits(base, s) && IsDigitIn(base, c)
    ensures AllDigits(base, s + [c]) && NumberOf(base, s + [c]) == NumberOf(base, s) * base + DigitValue(c)
  {
    assert (s + [c])[..|s|] == s;
  }

  function Min(a: nat, b: nat): nat { if a < b then a else b }

  // ---- decimal ----

  function DecimalDigit(d: nat): (c: char)
    requires d < 10
    ensures IsDigitIn(10, c) && DigitValue(c) == d
  {
    ('0' as int + d) as char
  }

  /** %u and %llu. */
  function Decimal(n: nat): (s: string)
    ensures |s| >= 1
  {
    if n < 10 then [DecimalDigit(n)] else Decimal(n / 10) + [DecimalDigit(n % 10)]
  }

  /** %d. */
  function SignedDecimal(n: int): string { if n < 0 then "-" + Decimal(-n) else Decimal(n) }

  lemma {:induction false} DecimalIsRead(n: nat)
    ensures AllDigits(10, Decimal(n)) && NumberOf(10, Decimal(n)) == n
    decreases n
  {
    if n < 10 {
      NumberSnoc(10, [], DecimalDigit(n));
      assert [] + [DecimalDigit(n)] == Decimal(n);
    } else {
      DecimalIsRead(n / 10);
      NumberSnoc(10, Decimal(n / 10), DecimalDigit(n % 10));
    }
  }

  function Pow10(k: nat): nat { if k == 0 then 1 else 10 * Pow10(k - 1) }

  lemma {:induction false} DecimalIsShort(n: nat, k: nat)
    requires k >= 1 && n < Pow10(k)
    ensures |Decimal(n)| <= k
    decreases n
  {
    if n >= 10 {
      assert Pow10(k) == 10 * Pow10(k - 1);
      DecimalIsShort(n / 10, k - 1);
    }
  }

  predicate Canonical(s: string) { s != [] && AllDigits(10, s) && (s[0] != '0' || |s| == 1) }

  lemma {:induction false} DecimalIsCanonical(n: nat)
    ensures Canonical(Decimal(n)) && (Decimal(n)[0] == '0' ==> n == 0)
    decreases n
  {
    DecimalIsRead(n);
    if n >= 10 {
      DecimalIsCanonical(n / 10);
    }
  }

  lemma {:induction false} NumberOfCanonical(s: string)
    requires Canonical(s)
    ensures NumberOf(10, s) == 0 <==> s == "0"
    ensures NumberOf(10, s) < 10 <==> |s| == 1
    ensures Decimal(NumberOf(10, s)) == s
    decreases |s|
  {
    var n := |s| - 1;
    var init, last := s[..n], s[n];
    if |s| == 1 {
      assert init == [] && NumberOf(10, s) == DigitValue(last);
      assert s == [last];
    } else {
      NumberOfCanonical(init);
      assert s == init + [last];
      var v := NumberOf(10, init);
      assert v > 0 && NumberOf(10, s) == v * 10 + DigitValue(last);
      assert DecimalDigit(DigitValue(last)) == last;
    }
  }

  // ---- two hexadecimal digits ----

  function HexDigit(d: nat): (c: char)
    requires d < 16
    ensures IsDigitIn(16, c) && DigitValue(c) == d
  {
    if d < 10 then ('0' as int + d) as char else ('A' as int + (d - 10)) as char
  }

  /** %02X of a byte. */
  function Hex2(n: nat): string
    requires n < 256
  {
    [HexDigit(n / 16), HexDigit(n % 16)]
  }

  lemma Hex2IsRead(n: nat)
    requires n < 256
    ensures AllDigits(16, Hex2(n)) && NumberOf(16, Hex2(n)) == n
  {
    NumberSnoc(16, [], HexDigit(n / 16));
    NumberSnoc(16, [] + [HexDigit(n / 16)], HexDigit(n % 16));
    assert [] + [HexDigit(n / 16)] + [HexDigit(n % 16)] == Hex2(n);
  }

  // ---- searching ----

  /** The position of the first c, or the length. */
  function IndexOf(s: string, c: char): (i: nat)
    ensures i <= |s| && (i < |s| ==> s[i] == c) && forall j | 0 <= j < i :: s[j] != c
  {
    if s == [] || s[0] == c then 0 else 1 + IndexOf(s[1..], c)
  }

  lemma IndexOfJoined(a: string, c: char, b: string)
    requires c !in a
    ensures IndexOf(a + [c] + b, c) == |a|
  {
    var s := a + [c] + b;
    assert s[|a|] == c;
    assert forall j | 0 <= j < |a| :: s[j] == a[j];
  }

  lemma IndexOfNone(a: string, c: char)
    requires c !in a
    ensures IndexOf(a, c) == |a|
  {
  }
}
