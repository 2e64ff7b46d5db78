/** Dotted-decimal addresses: the wizard's validator (pc/src/wifi_wizard_state.cpp:20-54), its conversion to a number
    (pc/src/wifi_wizard_dialog.cpp:59-70) and the firmware's printing of it (esp32/main/main.cpp:850-854). */
module Ipv4 {
  import opened Wire
  import opened Text

  // ---- groups between dots ----

  /** The groups in front of a dot, and what follows the last dot. */
  datatype Groups = Groups(closed: seq<string>, rest: string)

  function Add(g: Groups, c: char): Groups {
    if c == '.' then Groups(g.closed + [g.rest], "") else Groups(g.closed, g.rest + [c])
  }

  function GroupsOf(s: string): Groups {
    if s == [] then Groups([], "") else Add(GroupsOf(s[..|s| - 1]), s[|s| - 1])
  }

  lemma GroupsSnoc(s: string, c: char)
    ensures GroupsOf(s + [c]) == Add(GroupsOf(s), c)
  {
    assert (s + [c])[..|s|] == s;
  }

  lemma {:induction false} GroupsAppend(a: string, b: string)
    requires '.' !in b
    ensures GroupsOf(a + b) == Groups(GroupsOf(a).closed, GroupsOf(a).rest + b)
    decreases |b|
  {
    hide GroupsOf;
    if b == [] {
      assert a + b == a && GroupsOf(a).rest + b == GroupsOf(a).rest;
    } else {
      var init, c := b[..|b| - 1], b[|b| - 1];
      GroupsAppend(a, init);
      GroupsSnoc(a + init, c);
      assert a + b == a + init + [c];
      assert GroupsOf(a).rest + b == GroupsOf(a).rest + init + [c];
    }
  }

  lemma GroupsJoined(a: string, b: string)
    requires '.' !in b
    ensures GroupsOf(a + "." + b) == Groups(GroupsOf(a).closed + [GroupsOf(a).rest], b)
  {
    hide GroupsOf;
    GroupsSnoc(a, '.');
    GroupsAppend(a + ".", b);
    assert "" + b == b;
  }

  lemma GroupsPlain(b: string)
    requires '.' !in b
    ensures GroupsOf(b) == Groups([], b)
  {
    GroupsAppend("", b);
    assert "" + b == b;
  }

  function WithDots(closed: seq<string>): string {
    if closed == [] then "" else WithDots(closed[..|closed| - 1]) + (closed[|closed| - 1] + ".")
  }

  /** Splitting loses nothing. */
  lemma {:induction false} TextOfGroups(s: string)
    ensures WithDots(GroupsOf(s).closed) + GroupsOf(s).rest == s
    decreases |s|
  {
    if s != [] {
      var init, c := s[..|s| - 1], s[|s| - 1];
      var g := GroupsOf(init);
      TextOfGroups(init);
      assert s == init + [c];
      hide GroupsOf;
      if c == '.' {
        assert (g.closed + [g.rest])[..|g.closed|] == g.closed;
        assert WithDots(g.closed + [g.rest]) == WithDots(g.closed) + (g.rest + ".");
        assert WithDots(g.closed) + (g.rest + ".") + "" == WithDots(g.closed) + g.rest + ".";
      } else {
        assert WithDots(g.closed) + (g.rest + [c]) == WithDots(g.closed) + g.rest + [c];
      }
    }
  }

  // ---- validation ----

  predicate GroupOk(g: string) { 1 <= |g| <= 3 && AllDigits(10, g) && NumberOf(10, g) <= 255 }

  predicate AllOk(gs: seq<string>) { forall k | 0 <= k < |gs| :: GroupOk(gs[k]) }

  /** Exactly four groups of one to three digits, each at most 255. */
  predicate DottedQuad(s: string) {
    var g := GroupsOf(s);
    |g.closed| == 3 && AllOk(g.closed) && GroupOk(g.rest)
  }

  lemma {:induction false} NumberGrows(s: string, i: nat)
    requires AllDigits(10, s) && i <= |s|
    ensures NumberOf(10, s[..i]) <= NumberOf(10, s)
    decreases |s|
  {
    if i == |s| {
      assert s[..i] == s;
    } else {
      NumberGrows(s[..|s| - 1], i);
      assert s[..|s| - 1][..i] == s[..i];
    }
  }

  /** Nothing that could still become a valid group. */
  predicate Hopeless(g: string) { g != [] && !GroupOk(g) }

  lemma PrefixOk(g: string, n: nat)
    requires GroupOk(g) && 1 <= n <= |g|
    ensures GroupOk(g[..n])
  {
    NumberGrows(g, n);
  }

  lemma HopelessStays(g: string, c: char)
    requires Hopeless(g)
    ensures Hopeless(g + [c])
  {
    var h := g + [c];
    assert h[..|g|] == g;
    if GroupOk(h) {
      PrefixOk(h, |g|);
    }
  }

  predicate Rejected(g: Groups) { !AllOk(g.closed) || Hopeless(g.rest) }

  lemma RejectedStays(g: Groups, c: char)
    requires Rejected(g)
    ensures Rejected(Add(g, c))
  {
    hide GroupOk;
    if !AllOk(g.closed) {
      var k :| 0 <= k < |g.closed| && !GroupOk(g.closed[k]);
      assert Add(g, c).closed[k] == g.closed[k];
    } else if c == '.' {
      assert Add(g, c).closed[|g.closed|] == g.rest;
    } else {
      HopelessStays(g.rest, c);
    }
  }

  /** A prefix that has gone wrong makes the whole text invalid. */
  lemma {:induction false} RejectedIsInvalid(s: string, i: nat)
    requires i <= |s| && Rejected(GroupsOf(s[..i]))
    ensures Rejected(GroupsOf(s)) && !DottedQuad(s)
    decreases |s| - i
  {
    if i < |s| {
      assert s[..i + 1] == s[..i] + [s[i]];
      hide Rejected;
      GroupsSnoc(s[..i], s[i]);
      RejectedStays(GroupsOf(s[..i]), s[i]);
      RejectedIsInvalid(s, i + 1);
    } else {
      assert s[..i] == s;
    }
  }

  /** Where the scan stands: so many good closed groups, and an open one with its value. */
  ghost predicate Scanned(g: Groups, octets: nat, value: nat, digits: nat) {
    && |g.closed| == octets && AllOk(g.closed)
    && digits == |g.rest| && AllDigits(10, g.rest) && value == NumberOf(10, g.rest)
    && (digits > 0 ==> GroupOk(g.rest))
  }

  method IsIpv4DottedDecimal(s: string) returns (ok: bool)
    ensures ok <==> DottedQuad(s)
  {
    hide GroupsOf, Scanned, Rejected;
    if s == [] {
      NothingScanned();
      assert !DottedQuad(s);
      return false;
    }
    var octets: nat, value: nat, digits: nat := 0, 0, 0;
    NothingScanned();
    assert s[..0] == [];
    for i := 0 to |s|
      invariant Scanned(GroupsOf(s[..i]), octets, value, digits)
    {
      assert s[..i + 1] == s[..i] + [s[i]];
      GroupsSnoc(s[..i], s[i]);
      var good: bool;
      good, octets, value, digits := Scan(s[i], octets, value, digits, GroupsOf(s[..i]));
      if !good {
        RejectedIsInvalid(s, i + 1);
        return false;
      }
    }
    assert s[..|s|] == s;
    ok := digits != 0 && octets == 3;
    ScannedMeans(GroupsOf(s), octets, value, digits);
  }

  /** One character of the loop. */
  method Scan(c: char, octets: nat, value: nat, digits: nat, ghost g: Groups)
    returns (good: bool, octets': nat, value': nat, digits': nat)
    requires Scanned(g, octets, value, digits)
    ensures if good then Scanned(Add(g, c), octets', value', digits') else Rejected(Add(g, c))
  {
    octets', value', digits' := octets, value, digits;
    if c == '.' {
      if digits == 0 {
        assert Add(g, c).closed[octets] == "";
        return false, octets, value, digits;
      }
      octets', value', digits' := octets + 1, 0, 0;
      return true, octets', value', digits';
    }
    assert Add(g, c).rest == g.rest + [c];
    if c < '0' || c > '9' {
      assert !IsDigitIn(10, (g.rest + [c])[digits]);
      return false, octets, value, digits;
    }
    NumberSnoc(10, g.rest, c);
    value' := value * 10 + (c as int - '0' as int);
    if value' > 255 {
      return false, octets, value, digits;
    }
    digits' := digits + 1;
    good := digits' <= 3;
  }

  lemma NothingScanned()
    ensures Scanned(GroupsOf([]), 0, 0, 0) && !DottedQuad([])
  {
  }

  lemma ScannedMeans(g: Groups, octets: nat, value: nat, digits: nat)
    requires Scanned(g, octets, value, digits)
    ensures |g.closed| == octets && AllOk(g.closed) && (GroupOk(g.rest) <==> digits > 0)
  {
  }

  // ---- conversion ----

  /** ipv4ToNetworkOrder on validated text. */
  function AddressOf(s: string): u32
    requires DottedQuad(s)
  {
    var g := GroupsOf(s);
    assert GroupOk(g.closed[0]) && GroupOk(g.closed[1]) && GroupOk(g.closed[2]);
    NumberOf(10, g.closed[0]) * 0x100_0000 + NumberOf(10, g.closed[1]) * 0x1_0000 + NumberOf(10, g.closed[2]) * 0x100
    + NumberOf(10, g.rest)
  }

  /** The firmware's "%u.%u.%u.%u". */
  function DottedOf(ip: u32): string {
    Decimal(ip / 0x100_0000) + "." + Decimal(ip / 0x1_0000 % 0x100) + "." + Decimal(ip / 0x100 % 0x100) + "." + Decimal(ip % 0x100)
  }

  lemma NoDot(n: nat)
    ensures '.' !in Decimal(n)
  {
    DecimalIsRead(n);
    forall i | 0 <= i < |Decimal(n)| ensures Decimal(n)[i] != '.' {
      assert IsDigitIn(10, Decimal(n)[i]);
    }
  }

  lemma OctetOk(n: nat)
    requires n <= 255
    ensures GroupOk(Decimal(n)) && NumberOf(10, Decimal(n)) == n
  {
    DecimalIsRead(n);
    assert Pow10(3) == 1000;
    DecimalIsShort(n, 3);
  }

  lemma PrintedGroups(ip: u32)
    ensures GroupsOf(DottedOf(ip)) ==
            Groups([Decimal(ip / 0x100_0000), Decimal(ip / 0x1_0000 % 0x100), Decimal(ip / 0x100 % 0x100)], Decimal(ip % 0x100))
  {
    hide Decimal, GroupsOf;
    var a, b, c, d := Decimal(ip / 0x100_0000), Decimal(ip / 0x1_0000 % 0x100), Decimal(ip / 0x100 % 0x100), Decimal(ip % 0x100);
    NoDot(ip / 0x100_0000);
    NoDot(ip / 0x1_0000 % 0x100);
    NoDot(ip / 0x100 % 0x100);
    NoDot(ip % 0x100);
    GroupsPlain(a);
    GroupsJoined(a, b);
    GroupsJoined(a + "." + b, c);
    GroupsJoined(a + "." + b + "." + c, d);
  }

  /** One to three decimal digits and the number they are, digit by digit. */
  predicate OctetText(g: string) {
    1 <= |g| <= 3 && (forall i | 0 <= i < |g| :: '0' <= g[i] <= '9') && OctetValue(g) <= 255
  }

  function OctetValue(g: string): int {
    if |g| == 1 then Digit(g[0]) else if |g| == 2 then 10 * Digit(g[0]) + Digit(g[1])
    else if |g| == 3 then 100 * Digit(g[0]) + 10 * Digit(g[1]) + Digit(g[2]) else 0
  }

  function Digit(c: char): int { c as int - 48 }

  lemma OctetTextIff(g: string)
    ensures GroupOk(g) <==> OctetText(g)
    ensures GroupOk(g) ==> NumberOf(10, g) == OctetValue(g)
  {
    hide NumberOf;
    if 1 <= |g| <= 3 && AllDigits(10, g) {
      assert forall i | 0 <= i < |g| :: IsDigitIn(10, g[i]);
      ShortNumber(g);
    }
    if OctetText(g) {
      assert forall i | 0 <= i < |g| :: IsDigitIn(10, g[i]);
    }
  }

  lemma ShortNumber(g: string)
    requires 1 <= |g| <= 3 && AllDigits(10, g)
    ensures NumberOf(10, g) == OctetValue(g)
  {
    assert IsDigitIn(10, g[0]) && (|g| >= 2 ==> IsDigitIn(10, g[1])) && (|g| == 3 ==> IsDigitIn(10, g[2]));
    NumberSnoc(10, [], g[0]);
    assert [] + [g[0]] == [g[0]];
    hide NumberOf;
    assert NumberOf(10, []) == 0 by { NoNumber(); }
    if |g| >= 2 {
      NumberSnoc(10, [g[0]], g[1]);
      assert [g[0]] + [g[1]] == [g[0], g[1]];
    }
    if |g| == 3 {
      NumberSnoc(10, [g[0], g[1]], g[2]);
    }
    assert g == if |g| == 1 then [g[0]] else if |g| == 2 then [g[0], g[1]] else [g[0], g[1]] + [g[2]];
  }

  lemma NoNumber()
    ensures NumberOf(10, []) == 0
  {
  }

  /** Which texts with three dots are addresses, and of what number. */
  lemma QuadIff(a: string, b: string, c: string, d: string)
    requires '.' !in a && '.' !in b && '.' !in c && '.' !in d
    ensures var s := a + "." + b + "." + c + "." + d;
            && (DottedQuad(s) <==> OctetText(a) && OctetText(b) && OctetText(c) && OctetText(d))
            && (DottedQuad(s) ==>
                  AddressOf(s) ==
                  OctetValue(a) * 0x100_0000 + OctetValue(b) * 0x1_0000 + OctetValue(c) * 0x100 + OctetValue(d))
  {
    hide GroupsOf, GroupOk, OctetText, OctetValue, NumberOf;
    GroupsPlain(a);
    GroupsJoined(a, b);
    GroupsJoined(a + "." + b, c);
    GroupsJoined(a + "." + b + "." + c, d);
    OctetTextIff(a);
    OctetTextIff(b);
    OctetTextIff(c);
    OctetTextIff(d);
    var closed := GroupsOf(a + "." + b + "." + c + "." + d).closed;
    assert closed == [a, b, c];
    assert AllOk(closed) ==> GroupOk(closed[0]) && GroupOk(closed[1]) && GroupOk(closed[2]);
  }

  /** Texts with any other number of dots are none. */
  lemma {:induction false} DotsCounted(s: string)
    ensures |GroupsOf(s).closed| == multiset(s)['.'] && (DottedQuad(s) ==> multiset(s)['.'] == 3)
    decreases |s|
  {
    if s != [] {
      DotsCounted(s[..|s| - 1]);
      assert s == s[..|s| - 1] + [s[|s| - 1]];
    }
    hide GroupOk;
  }

  /** The first octet is the highest byte of the address. */
  lemma FirstOctetIsHighest(a: byte, b: byte, c: byte, d: byte)
    ensures var s := Decimal(a) + "." + Decimal(b) + "." + Decimal(c) + "." + Decimal(d);
            var ip := a * 0x100_0000 + b * 0x1_0000 + c * 0x100 + d;
            DottedQuad(s) && AddressOf(s) == ip && DottedOf(ip) == s
  {
    hide Decimal, AddressOf, DottedQuad, DottedOf;
    AddressOctets(a, b, c, d);
    var ip := a * 0x100_0000 + b * 0x1_0000 + c * 0x100 + d;
    PrintedAddressIsRead(ip);
    PrintedAs(ip, a, b, c, d);
  }

  lemma PrintedAs(ip: u32, a: byte, b: byte, c: byte, d: byte)
    requires ip / 0x100_0000 == a && ip / 0x1_0000 % 0x100 == b && ip / 0x100 % 0x100 == c && ip % 0x100 == d
    ensures DottedOf(ip) == Decimal(a) + "." + Decimal(b) + "." + Decimal(c) + "." + Decimal(d)
  {
    hide Decimal;
  }

  /** Every printed address is valid and converts back to itself. */
  lemma PrintedAddressIsRead(ip: u32)
    ensures DottedQuad(DottedOf(ip)) && AddressOf(DottedOf(ip)) == ip
  {
    hide Decimal, GroupsOf, DottedOf, GroupOk, NumberOf;
    PrintedGroups(ip);
    U32Parts(ip);
    OctetOk(ip / 0x100_0000);
    OctetOk(ip / 0x1_0000 % 0x100);
    OctetOk(ip / 0x100 % 0x100);
    OctetOk(ip % 0x100);
  }

  predicate NoLeadingZeros(s: string) {
    var g := GroupsOf(s);
    Canonical(g.rest) && forall k | 0 <= k < |g.closed| :: Canonical(g.closed[k])
  }

  lemma SameGroupsSameText(s: string, t: string)
    requires GroupsOf(s) == GroupsOf(t)
    ensures s == t
  {
    TextOfGroups(s);
    TextOfGroups(t);
  }

  lemma AddressOctets(a: nat, b: nat, c: nat, d: nat)
    requires a <= 255 && b <= 255 && c <= 255 && d <= 255
    ensures var ip := a * 0x100_0000 + b * 0x1_0000 + c * 0x100 + d;
            ip / 0x100_0000 == a && ip / 0x1_0000 % 0x100 == b && ip / 0x100 % 0x100 == c && ip % 0x100 == d
  {
    var ip := a * 0x100_0000 + b * 0x1_0000 + c * 0x100 + d;
    assert ip / 0x100 == a * 0x1_0000 + b * 0x100 + c;
    assert ip / 0x1_0000 == a * 0x100 + b;
  }

  /** Printing the address of a text prints the number of each of its groups. */
  lemma PrintedBack(s: string)
    requires DottedQuad(s)
    ensures var g, t := GroupsOf(s), GroupsOf(DottedOf(AddressOf(s)));
            && |t.closed| == 3
            && (forall k | 0 <= k < 3 :: AllDigits(10, g.closed[k]) && t.closed[k] == Decimal(NumberOf(10, g.closed[k])))
            && AllDigits(10, g.rest) && t.rest == Decimal(NumberOf(10, g.rest))
  {
    hide Decimal, GroupsOf, DottedOf, NumberOf;
    var g := GroupsOf(s);
    assert GroupOk(g.closed[0]) && GroupOk(g.closed[1]) && GroupOk(g.closed[2]);
    var a, b, c, d := NumberOf(10, g.closed[0]), NumberOf(10, g.closed[1]), NumberOf(10, g.closed[2]), NumberOf(10, g.rest);
    AddressOctets(a, b, c, d);
    var ip := AddressOf(s);
    assert ip == a * 0x100_0000 + b * 0x1_0000 + c * 0x100 + d;
    hide AddressOf;
    PrintedGroups(ip);
  }

  /** Text converted and printed again is the same text exactly if no group has a leading zero. */
  lemma TextSurvivesIff(s: string)
    requires DottedQuad(s)
    ensures DottedOf(AddressOf(s)) == s <==> NoLeadingZeros(s)
  {
    hide Decimal, GroupsOf, DottedOf, NumberOf, AddressOf, Canonical, GroupOk;
    PrintedBack(s);
    var g, t := GroupsOf(s), DottedOf(AddressOf(s));
    if NoLeadingZeros(s) {
      forall k | 0 <= k < 3 ensures GroupsOf(t).closed[k] == g.closed[k] {
        assert Canonical(g.closed[k]);
        NumberOfCanonical(g.closed[k]);
      }
      NumberOfCanonical(g.rest);
      assert GroupsOf(t).closed == g.closed;
      SameGroupsSameText(s, t);
    }
    if t == s {
      forall k | 0 <= k < 3 ensures Canonical(g.closed[k]) {
        DecimalIsCanonical(NumberOf(10, g.closed[k]));
      }
      DecimalIsCanonical(NumberOf(10, g.rest));
    }
  }
}
