/** Lost packets (shared/protocol/decoder.cpp:315-323): exactly when the decoder notices, and that it never joins what came
    before the gap to what comes after it. */
module SequenceGaps {
  import opened Wire
  import opened Packets
  import opened Messages
  import opened BrokenMessages

  const GAP := Failed(SequenceGap)

  /** Each packet carries the number after the one before it, the first one the number given. */
  predicate Numbered(ps: seq<Packet>, number: u16) { forall i | 0 <= i < |ps| :: ps[i].number == Plus(number, i) }

  /** The number the decoder expects at packet i. */
  function Expected(number: u16, ps: seq<Packet>, i: nat): u16
    requires i <= |ps|
  {
    if i == 0 then number else Messages.After(ps[i - 1].number)
  }

  /** A packet is in its place if it starts a session or carries the number expected. */
  predicate InPlace(number: u16, ps: seq<Packet>, i: nat)
    requires i < |ps|
  {
    ps[i].ptype == TYPE_HELLO || ps[i].number == Expected(number, ps, i)
  }

  lemma TakeOne(d: Decoder, p: Packet)
    ensures var (es, d1) := Take(d, p);
            && d1.expected == Messages.After(p.number) && d1.limit == d.limit && d1.buf == d.buf
            && (GAP in es <==> p.ptype != TYPE_HELLO && p.number != d.expected)
            && (GAP in es ==> es == [GAP] && d1.partial.None?)
  {
  }

  /** Intact packets: a gap is reported exactly if one of them is out of place. */
  lemma {:induction false} GapIff(d: Decoder, ps: seq<Packet>)
    ensures GAP !in TakeAll(d, Wholes(ps)).0 <==> forall i | 0 <= i < |ps| :: InPlace(d.expected, ps, i)
    decreases |ps|
  {
    hide Take;
    if ps == [] {
    } else {
      TakeOne(d, ps[0]);
      var (es, d1) := Take(d, ps[0]);
      GapIff(d1, ps[1..]);
      FirstOfAll(d, ps);
      assert GAP in TakeAll(d, Wholes(ps)).0 <==> GAP in es || GAP in TakeAll(d1, Wholes(ps[1..])).0;
      assert GAP in es <==> !InPlace(d.expected, ps, 0);
      forall i | 0 < i < |ps| ensures InPlace(d.expected, ps, i) <==> InPlace(d1.expected, ps[1..], i - 1) {
      }
      if forall i | 0 <= i < |ps[1..]| :: InPlace(d1.expected, ps[1..], i) {
        forall i | 0 < i < |ps| ensures InPlace(d.expected, ps, i) {
          assert InPlace(d1.expected, ps[1..], i - 1);
        }
      } else {
        var i :| 0 <= i < |ps[1..]| && !InPlace(d1.expected, ps[1..], i);
        assert !InPlace(d.expected, ps, i + 1);
      }
    }
  }

  lemma FirstOfAll(d: Decoder, ps: seq<Packet>)
    requires ps != []
    ensures var (es, d1) := Take(d, ps[0]);
            var (fs, d2) := TakeAll(d1, Wholes(ps[1..]));
            TakeAll(d, Wholes(ps)) == (es + fs, d2)
  {
    hide Take;
    assert Wholes(ps)[0] == Whole(ps[0]) && Wholes(ps)[1..] == Wholes(ps[1..]);
  }

  lemma {:induction false} ExpectedAfter(d: Decoder, ps: seq<Packet>)
    ensures var d1 := TakeAll(d, Wholes(ps)).1;
            d1.expected == Expected(d.expected, ps, |ps|) && d1.limit == d.limit && d1.buf == d.buf
    decreases |ps|
  {
    hide Take;
    if ps != [] {
      FirstOfAll(d, ps);
      TakeOne(d, ps[0]);
      ExpectedAfter(Take(d, ps[0]).1, ps[1..]);
    }
  }

  lemma WholesConcat(a: seq<Packet>, b: seq<Packet>)
    ensures Wholes(a + b) == Wholes(a) + Wholes(b)
  {
  }

  lemma NumberedInPlace(ps: seq<Packet>, number: u16)
    requires Numbered(ps, number)
    ensures forall i | 0 <= i < |ps| :: InPlace(number, ps, i)
    ensures Expected(number, ps, |ps|) == Plus(number, |ps|)
  {
    hide Plus;
    forall i | 0 <= i <= |ps| ensures Expected(number, ps, i) == Plus(number, i) {
      if i > 0 {
        AfterPlus(number, i - 1);
      } else {
        PlusNothing(number);
      }
    }
  }

  lemma PlusNothing(number: u16)
    ensures Plus(number, 0) == number
  {
  }

  /** Numbers n packets apart are the same exactly if n is a multiple of 2^16. */
  lemma SameNumberIff(number: u16, n: nat)
    ensures Plus(number, n) == number <==> n % 0x1_0000 == 0
  {
    var q := (number + n) / 0x1_0000;
    assert number + n == 0x1_0000 * q + Plus(number, n);
    if Plus(number, n) == number {
      assert n == 0x1_0000 * q;
    } else if n % 0x1_0000 == 0 {
      Multiple(number, n / 0x1_0000);
      assert false;
    }
  }

  lemma Multiple(number: u16, k: nat)
    ensures Plus(number, 0x1_0000 * k) == number
  {
  }

  /** The number expected behind a block that went missing is not the number that comes, unless 2^16 packets or a multiple
      of it are missing. */
  lemma Jump(number: u16, a: seq<Packet>, lost: seq<Packet>, b: seq<Packet>)
    requires Numbered(a + lost + b, number) && b != []
    ensures Numbered(a, number) && Expected(number, a, |a|) == Plus(number, |a|)
    ensures b[0].number == Plus(Plus(number, |a|), |lost|) && Numbered(b[1..], Messages.After(b[0].number))
    ensures b[0].number == Plus(number, |a|) <==> |lost| % 0x1_0000 == 0
  {
    hide Plus;
    var all := a + lost + b;
    assert forall i | 0 <= i < |a| :: all[i] == a[i];
    NumberedInPlace(a, number);
    assert all[|a| + |lost|] == b[0];
    PlusPlus(number, |a|, |lost|);
    SameNumberIff(Plus(number, |a|), |lost|);
    AfterPlus(number, |a| + |lost|);
    forall i | 0 <= i < |b[1..]| ensures b[1..][i].number == Plus(Messages.After(b[0].number), i) {
      assert all[|a| + |lost| + 1 + i] == b[1..][i];
      PlusPlus(number, |a| + |lost| + 1, i);
    }
  }

  /** Where decoding goes on behind a gap: the packet that showed it is gone, and so is whatever was in assembly. */
  function BehindGap(d: Decoder, p: Packet): Decoder { d.(expected := Messages.After(p.number), partial := None) }

  /** Of consecutively numbered packets a block in the middle is lost. Unless its length is a multiple of 2^16, the decoder
      reports one gap there; what it decodes before depends on the packets before only, what it decodes after on the
      packets after only. */
  lemma LostBlock(d: Decoder, a: seq<Packet>, lost: seq<Packet>, b: seq<Packet>)
    requires Numbered(a + lost + b, d.expected) && b != [] && b[0].ptype != TYPE_HELLO
    ensures var es := TakeAll(d, Wholes(a + b)).0;
            var before, after := TakeAll(d, Wholes(a)).0, TakeAll(BehindGap(d, b[0]), Wholes(b[1..])).0;
            && GAP !in before && GAP !in after
            && (GAP in es <==> |lost| % 0x1_0000 != 0)
            && (|lost| % 0x1_0000 != 0 ==> es == before + [GAP] + after)
  {
    hide Take, Plus, TakeAll, Wholes, Numbered;
    Jump(d.expected, a, lost, b);
    NoGap(d, a);
    NoGap(BehindGap(d, b[0]), b[1..]);
    ExpectedAfter(d, a);
    WholesConcat(a, b);
    TakeAllConcat(d, Wholes(a), Wholes(b));
    var d1 := TakeAll(d, Wholes(a)).1;
    FirstOfAll(d1, b);
    TakeOne(d1, b[0]);
    var before, after := TakeAll(d, Wholes(a)).0, TakeAll(BehindGap(d, b[0]), Wholes(b[1..])).0;
    if |lost| % 0x1_0000 != 0 {
      GapTaken(d1, b[0]);
      assert Take(d1, b[0]).1 == BehindGap(d, b[0]);
      Associates(before, [GAP], after);
    } else {
      NoGapBehind(d1, b);
    }
  }

  lemma GapTaken(d: Decoder, p: Packet)
    requires p.ptype != TYPE_HELLO && p.number != d.expected
    ensures Take(d, p) == ([GAP], BehindGap(d, p))
  {
  }

  lemma NoGap(d: Decoder, ps: seq<Packet>)
    requires Numbered(ps, d.expected)
    ensures GAP !in TakeAll(d, Wholes(ps)).0
  {
    NumberedInPlace(ps, d.expected);
    GapIff(d, ps);
  }

  lemma NoGapBehind(d: Decoder, b: seq<Packet>)
    requires b != [] && b[0].number == d.expected && Numbered(b[1..], Messages.After(b[0].number))
    ensures GAP !in TakeAll(d, Wholes(b)).0
  {
    hide Plus, TakeAll;
    NumberedInPlace(b[1..], Messages.After(b[0].number));
    forall i | 0 <= i < |b| ensures InPlace(d.expected, b, i) {
      if i > 0 {
        assert InPlace(Messages.After(b[0].number), b[1..], i - 1);
      }
    }
    GapIff(d, b);
  }

  /** The same on the bytes, cut anyhow. */
  lemma LostBytes(limit: nat, number: u16, a: seq<Packet>, lost: seq<Packet>, b: seq<Packet>, chunks: seq<seq<byte>>)
    requires Numbered(a + lost + b, number) && b != [] && b[0].ptype != TYPE_HELLO && |lost| % 0x1_0000 != 0
    requires AllArrive(Wholes(a + b)) && Concat(chunks) == AllBytes(Wholes(a + b))
    ensures var d := Decoder(limit, [], number, None);
            Messages.Receive(d, chunks).0 ==
            TakeAll(d, Wholes(a)).0 + [GAP] + TakeAll(BehindGap(d, b[0]), Wholes(b[1..])).0
  {
    hide TakeAll, Wholes, Numbered, Decode, One, Garbage, Messages.Receive, AllBytes, AllArrive, Concat;
    var d, bytes := Decoder(limit, [], number, None), AllBytes(Wholes(a + b));
    NothingDecodes(d);
    CuttingIsInvisible(d, chunks);
    assert [] + bytes == bytes && bytes + [] == bytes;
    ItemsDecode(Messages.Fed(d, bytes), Wholes(a + b), []);
    assert Messages.Fed(d, bytes).(buf := []) == d;
    LostBlock(d, a, lost, b);
    var (es, d1) := TakeAll(d, Wholes(a + b));
    ExpectedAfter(d, a + b);
    NothingDecodes(d1);
    assert es + [] == es;
  }

  // ---- the packets of a message ----

  function Least(a: nat, b: nat): nat { if a <= b then a else b }

  /** Packet i of a message sent as n packets from the given number on. */
  function Part(m: Logical, number: u16, n: nat, i: nat): Packet
    requires Encodable(m) && MAX_PAYLOAD * i <= |m.payload|
  {
    Packet(m.kind, if i + 1 < n then m.flags + FLAG_CHUNKED else m.flags, Plus(number, i),
           m.payload[MAX_PAYLOAD * i..Least(MAX_PAYLOAD * (i + 1), |m.payload|)])
  }

  /** As few packets as hold the payload, one at least: all but the last full and marked, numbered on. */
  lemma {:induction false} SplitIs(m: Logical, number: u16)
    requires Encodable(m)
    ensures var n := |Split(m, number)|;
            && MAX_PAYLOAD * (n - 1) <= |m.payload| <= MAX_PAYLOAD * n
            && (n > 1 ==> MAX_PAYLOAD * (n - 1) < |m.payload|)
            && forall i | 0 <= i < n :: MAX_PAYLOAD * i <= |m.payload| && Split(m, number)[i] == Part(m, number, n, i)
    decreases |m.payload|
  {
    hide Plus;
    SplitShape(m, number);
    PlusNothing(number);
    var ps := Split(m, number);
    if |m.payload| > MAX_PAYLOAD {
      var m1 := m.(payload := m.payload[MAX_PAYLOAD..]);
      SplitIs(m1, Messages.After(number));
      hide Split;
      var n := |ps|;
      hide Part;
      assert n == |Split(m1, Messages.After(number))| + 1;
      forall i | 0 <= i < n ensures MAX_PAYLOAD * i <= |m.payload| && ps[i] == Part(m, number, n, i) {
        if i > 0 {
          assert ps[i] == ps[1..][i - 1] == Part(m1, Messages.After(number), n - 1, i - 1);
          PartBehindFirst(m, number, n, i);
        } else {
          FirstPart(m, number, n);
        }
      }
    } else {
      assert m.payload[0..|m.payload|] == m.payload;
    }
  }

  lemma PartBehindFirst(m: Logical, number: u16, n: nat, i: nat)
    requires Encodable(m) && 0 < i < n && MAX_PAYLOAD * i <= |m.payload|
    ensures var m1 := m.(payload := m.payload[MAX_PAYLOAD..]);
            Part(m1, Messages.After(number), n - 1, i - 1) == Part(m, number, n, i)
  {
    hide Plus;
    Later(number, i);
    Slice(m.payload, i);
  }

  lemma FirstPart(m: Logical, number: u16, n: nat)
    requires Encodable(m) && n > 1 && |m.payload| > MAX_PAYLOAD
    ensures Part(m, number, n, 0) == Packet(m.kind, m.flags + FLAG_CHUNKED, number, m.payload[..MAX_PAYLOAD])
  {
    PlusNothing(number);
    hide Plus;
  }

  lemma Slice(s: seq<byte>, i: nat)
    requires i > 0 && MAX_PAYLOAD * i <= |s|
    ensures s[MAX_PAYLOAD..][MAX_PAYLOAD * (i - 1)..Least(MAX_PAYLOAD * i, |s| - MAX_PAYLOAD)]
            == s[MAX_PAYLOAD * i..Least(MAX_PAYLOAD * (i + 1), |s|)]
  {
  }

  // ---- how long a message can get ----

  predicate AllWithin(es: seq<Event>, n: nat) { forall e | e in es && e.Decoded? :: |e.m.payload| <= n }

  predicate Bounded(d: Decoder) { d.partial.Some? ==> |d.partial.value.payload| <= d.limit }

  lemma TakeBounded(d: Decoder, p: Packet)
    requires Bounded(d) && |p.payload| <= MAX_PAYLOAD
    ensures var (es, d1) := Take(d, p); Bounded(d1) && d1.limit == d.limit && AllWithin(es, Most(d.limit))
  {
  }

  function Most(limit: nat): nat { if limit < MAX_PAYLOAD then MAX_PAYLOAD else limit }

  /** Nothing longer than the limit is ever put together, whatever packets come, damaged or not, in whatever order. */
  lemma {:induction false} DecodedIsBounded(d: Decoder, its: seq<Item>)
    requires Bounded(d) && forall i | 0 <= i < |its| :: |its[i].p.payload| <= MAX_PAYLOAD
    ensures AllWithin(TakeAll(d, its).0, Most(d.limit)) && Bounded(TakeAll(d, its).1)
    decreases |its|
  {
    hide Take;
    if its != [] {
      if its[0].Whole? {
        TakeBounded(d, its[0].p);
      }
      DecodedIsBounded(TakeItem(d, its[0]).1, its[1..]);
    }
  }

  /** A message of several packets comes through exactly if it is within the limit. */
  lemma ComesThroughIff(d: Decoder, m: Logical)
    requires Encodable(m) && d.partial.None? && |m.payload| > MAX_PAYLOAD
    ensures Decoded(m) in TakeAll(d, Wholes(Split(m, d.expected))).0 <==> |m.payload| <= d.limit
  {
    hide Split, TakeAll, Wholes, Plus;
    var ps := Split(m, d.expected);
    if |m.payload| <= d.limit {
      MessageTaken(d, m);
    } else {
      assert forall i | 0 <= i < |ps| :: |Wholes(ps)[i].p.payload| <= MAX_PAYLOAD by {
        assert forall i | 0 <= i < |ps| :: Wholes(ps)[i] == Whole(ps[i]);
      }
      DecodedIsBounded(d, Wholes(ps));
    }
  }
}
