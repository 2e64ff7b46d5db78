/** What the decoder makes of messages that arrive cut short between packets, or with a damaged packet
    (shared/protocol/decoder.cpp:119-199, 280-294): packet by packet first, then on the bytes. */
module BrokenMessages {
  import opened Wire
  import opened Crc
  import opened Packets
  import opened Messages

  // ---- packets as they arrive ----

  /** A packet, or one with payload byte i changed to x. */
  datatype Item = Whole(p: Packet) | Hurt(p: Packet, i: nat, x: byte)

  predicate Arrives(it: Item) {
    && Sendable(it.p)
    && (it.Hurt? ==> HEADER_LEN <= it.i < Size(it.p) && it.x != Build(it.p)[it.i])
  }

  predicate AllArrive(its: seq<Item>) { forall k | 0 <= k < |its| :: Arrives(its[k]) }

  function BytesOf(it: Item): seq<byte>
    requires Arrives(it)
  {
    if it.Whole? then Build(it.p) else Build(it.p)[it.i := it.x]
  }

  function AllBytes(its: seq<Item>): seq<byte>
    requires AllArrive(its)
  {
    if its == [] then []
    else
      assert Arrives(its[0]);
      BytesOf(its[0]) + AllBytes(its[1..])
  }

  function TakeItem(d: Decoder, it: Item): (seq<Event>, Decoder) {
    if it.Whole? then Take(d, it.p)
    else ([Failed(CrcMismatch)], d.(partial := None, expected := Messages.After(it.p.number)))
  }

  function TakeAll(d: Decoder, its: seq<Item>): (seq<Event>, Decoder)
    decreases |its|
  {
    if its == [] then ([], d)
    else
      var (es, d1) := TakeItem(d, its[0]);
      var (fs, d2) := TakeAll(d1, its[1..]);
      (es + fs, d2)
  }

  lemma TakeKeepsBuf(d: Decoder, it: Item)
    ensures TakeItem(d, it).1.buf == d.buf && TakeItem(d, it).1.limit == d.limit
  {
  }

  lemma ItemDecodes(d: Decoder, it: Item, rest: seq<byte>)
    requires Arrives(it) && d.buf == BytesOf(it) + rest
    ensures var (es, d1) := TakeItem(d.(buf := rest), it);
            Decode(d) == (es + Decode(d1).0, Decode(d1).1)
  {
    hide Build, Decode, One, Take;
    DecodeOne(d);
    if it.Whole? {
      OneBuilt(d, it.p, rest);
    } else {
      assert BytesOf(it) + rest == (Build(it.p) + rest)[it.i := it.x];
      DamageIsOneError(d, it.p, it.i, it.x, rest);
    }
  }

  /** Decoding the bytes is taking the packets. */
  lemma {:induction false} ItemsDecode(d: Decoder, its: seq<Item>, rest: seq<byte>)
    requires AllArrive(its) && d.buf == AllBytes(its) + rest
    ensures var (es, d1) := TakeAll(d.(buf := rest), its);
            Decode(d) == (es + Decode(d1).0, Decode(d1).1)
    decreases |its|
  {
    hide Decode, BytesOf, TakeItem, Arrives;
    if its == [] {
      assert [] + rest == rest && d.(buf := rest) == d;
      assert [] + Decode(d).0 == Decode(d).0;
    } else {
      var it, more := its[0], AllBytes(its[1..]);
      assert d.buf == BytesOf(it) + (more + rest);
      ItemDecodes(d, it, more + rest);
      var d1 := TakeItem(d.(buf := more + rest), it).1;
      TakeKeepsBuf(d.(buf := more + rest), it);
      TakeIgnoresBuf(d, it, more + rest, rest);
      ItemsDecode(d1, its[1..], rest);
      var fs := TakeAll(d1.(buf := rest), its[1..]);
      Associates(TakeItem(d.(buf := rest), it).0, fs.0, Decode(fs.1).0);
    }
  }

  lemma Associates(a: seq<Event>, b: seq<Event>, c: seq<Event>)
    ensures a + b + c == a + (b + c)
  {
  }

  lemma TakeIgnoresBuf(d: Decoder, it: Item, buf: seq<byte>, rest: seq<byte>)
    ensures var r := TakeItem(d.(buf := buf), it);
            TakeItem(d.(buf := rest), it) == (r.0, r.1.(buf := rest))
  {
  }

  lemma {:induction false} TakeAllConcat(d: Decoder, a: seq<Item>, b: seq<Item>)
    ensures var (es, d1) := TakeAll(d, a);
            var (fs, d2) := TakeAll(d1, b);
            TakeAll(d, a + b) == (es + fs, d2)
    decreases |a|
  {
    hide TakeItem;
    if a == [] {
      assert a + b == b && [] + TakeAll(d, b).0 == TakeAll(d, b).0;
    } else {
      assert (a + b)[1..] == a[1..] + b;
      var (es, d1) := TakeItem(d, a[0]);
      TakeAllConcat(d1, a[1..], b);
      Associates(es, TakeAll(d1, a[1..]).0, TakeAll(TakeAll(d1, a[1..]).1, b).0);
    }
  }

  lemma {:induction false} AllBytesConcat(a: seq<Item>, b: seq<Item>)
    requires AllArrive(a) && AllArrive(b)
    ensures AllArrive(a + b) && AllBytes(a + b) == AllBytes(a) + AllBytes(b)
    decreases |a|
  {
    hide Arrives, BytesOf;
    if a == [] {
      assert a + b == b;
    } else {
      assert (a + b)[1..] == a[1..] + b;
      AllBytesConcat(a[1..], b);
    }
  }

  function Wholes(ps: seq<Packet>): (its: seq<Item>)
    ensures |its| == |ps| && forall k | 0 <= k < |ps| :: its[k] == Whole(ps[k])
  {
    seq(|ps|, k requires 0 <= k < |ps| => Whole(ps[k]))
  }

  // ---- damaged headers ----

  /** A packet with another version, an unknown type or too long a payload is named as that, and the search for the next
      one goes on behind its first byte. */
  lemma BadHeaderIsNamed(d: Decoder, p: Packet, i: nat, x: byte, rest: seq<byte>)
    requires Sendable(p) && ((i == 4 && x != 1) || (i == 5 && !(1 <= x <= 0x51)))
    requires |d.buf| == Size(p) + |rest| && d.buf == (Build(p) + rest)[i := x]
    ensures One(d) == Some(([Failed(if i == 4 then BadVersion else BadType)], d.(buf := d.buf[1..])))
  {
    hide Build, Accepted, Garbage, Look, One, Crc32, ReadU16, ReadU32;
    var good := Build(p) + rest;
    BuiltStartsClean(p, good);
    BuiltFields(p, good);
    OneDamagedByte(p, good, i, x);
    MagicStays(good, i, x);
    OneIsFront(d);
    assert d.buf[0..] == d.buf && d.buf[4] == (if i == 4 then x else 1) && d.buf[5] == if i == 5 then x else p.ptype;
  }

  lemma MagicStays(b: seq<byte>, i: nat, x: byte)
    requires 4 <= i < |b| && Garbage(b) == 0
    ensures Garbage(b[i := x]) == 0
  {
    assert forall k | 0 <= k < 4 :: b[i := x][k] == b[k];
  }

  /** ... and so is one that claims more than a packet may carry. */
  lemma TooLongIsNamed(d: Decoder, p: Packet, n: u32, rest: seq<byte>)
    requires Sendable(p) && n > MAX_PAYLOAD
    requires d.buf == Build(p)[..10] + PutU32(n) + Build(p)[14..] + rest
    ensures One(d) == Some(([Failed(BadLength)], d.(buf := d.buf[1..])))
  {
    hide Build, Garbage, Look, One, Crc32, ReadU16, ReadU32, PutU32;
    var b := d.buf;
    BuiltFields(p, Build(p));
    assert b[10..14] == PutU32(n);
    U32RoundTrip(n, b, 10);
    assert forall i | 0 <= i < 6 :: b[i] == Build(p)[i];
    assert b[..4] == Build(p)[..4];
    StartsClean(b);
    LooksBad(b);
    OneIsFront(d);
    assert b[0..] == b;
  }

  lemma StartsClean(b: seq<byte>)
    requires |b| >= 4 && b[..4] == MAGIC
    ensures Garbage(b) == 0
  {
    forall i | 0 <= i < 4 ensures b[i] == MAGIC[i] {
      assert b[..4][i] == b[i];
    }
  }

  lemma LooksBad(b: seq<byte>)
    requires |b| >= HEADER_LEN && b[..4] == MAGIC && ReadU32(b, 10) > MAX_PAYLOAD
    ensures Look(b) == BadHeader
  {
    hide Crc32, ReadU32;
  }

  // ---- the first packets of a message ----

  /** The payload of the first j packets, and of the others. */
  function Head(payload: seq<byte>, j: nat): seq<byte> {
    if j == 0 then []
    else if |payload| <= MAX_PAYLOAD then payload
    else payload[..MAX_PAYLOAD] + Head(payload[MAX_PAYLOAD..], j - 1)
  }

  function Tail(payload: seq<byte>, j: nat): seq<byte> {
    if j == 0 then payload
    else if |payload| <= MAX_PAYLOAD then []
    else Tail(payload[MAX_PAYLOAD..], j - 1)
  }

  lemma {:induction false} HeadAndTail(payload: seq<byte>, j: nat)
    ensures Head(payload, j) + Tail(payload, j) == payload
    decreases j
  {
    if j > 0 && |payload| > MAX_PAYLOAD {
      HeadAndTail(payload[MAX_PAYLOAD..], j - 1);
      assert payload[..MAX_PAYLOAD] + payload[MAX_PAYLOAD..] == payload;
    }
  }

  lemma {:induction false} SplitTail(m: Logical, number: u16, j: nat)
    requires j < |Split(m, number)|
    ensures Split(m, number)[j..] == Split(m.(payload := Tail(m.payload, j)), Plus(number, j))
    decreases j
  {
    if j > 0 {
      var m1 := m.(payload := m.payload[MAX_PAYLOAD..]);
      SplitTail(m1, Messages.After(number), j - 1);
      Later(number, j);
      assert Split(m, number)[1..] == Split(m1, Messages.After(number));
      assert Split(m, number)[j..] == Split(m, number)[1..][j - 1..];
    }
  }

  function Plus(number: u16, j: nat): u16 { (number + j) % 0x1_0000 }

  lemma Later(number: u16, j: nat)
    requires j > 0
    ensures Plus(Messages.After(number), j - 1) == Plus(number, j) && Plus(number, 1) == Messages.After(number)
  {
  }

  /** Where the decoder stands after the first j packets of a message, pre being the payload it had already. */
  function Assembled(d: Decoder, m: Logical, pre: seq<byte>, j: nat): (seq<Event>, Decoder) {
    var d1 := d.(expected := Plus(d.expected, j));
    if j == |Split(m, d.expected)| then ([Decoded(m.(payload := pre + m.payload))], d1.(partial := None))
    else ([], d1.(partial := Some(m.(payload := pre + Head(m.payload, j)))))
  }

  predicate Fitting(m: Logical, number: u16, pre: seq<byte>, j: nat, limit: nat) {
    |pre| + (if j == |Split(m, number)| then |m.payload| else |Head(m.payload, j)|) <= limit
  }

  /** Taking the first j of some packets is taking one and then j - 1 of the others. */
  lemma TakeFirst(d: Decoder, ps: seq<Packet>, j: nat)
    requires 0 < j <= |ps|
    ensures var (es, d1) := Take(d, ps[0]);
            var (fs, d2) := TakeAll(d1, Wholes(ps[1..][..j - 1]));
            TakeAll(d, Wholes(ps[..j])) == (es + fs, d2)
  {
    hide Take;
    var its := Wholes(ps[..j]);
    assert its[0] == Whole(ps[0]) && its[1..] == Wholes(ps[1..][..j - 1]);
  }

  lemma NoneTaken(d: Decoder, ps: seq<Packet>)
    ensures TakeAll(d, Wholes(ps[..0])) == ([], d)
  {
  }

  lemma SplitShape(m: Logical, number: u16)
    ensures var ps := Split(m, number);
            if |m.payload| <= MAX_PAYLOAD then ps == [Packet(m.kind, Plain(m.flags), number, m.payload)]
            else
              && ps[0] == Packet(m.kind, Plain(m.flags) + FLAG_CHUNKED, number, m.payload[..MAX_PAYLOAD])
              && ps[1..] == Split(m.(payload := m.payload[MAX_PAYLOAD..]), Messages.After(number)) && |ps| > 1
  {
  }

  lemma HeadShape(payload: seq<byte>, j: nat)
    requires j > 0
    ensures Head(payload, 1) == if |payload| <= MAX_PAYLOAD then payload else payload[..MAX_PAYLOAD]
    ensures Head(payload, j) == if |payload| <= MAX_PAYLOAD then payload
                                 else payload[..MAX_PAYLOAD] + Head(payload[MAX_PAYLOAD..], j - 1)
  {
    if |payload| > MAX_PAYLOAD {
      assert payload[..MAX_PAYLOAD] + Head(payload[MAX_PAYLOAD..], 0) == payload[..MAX_PAYLOAD];
    }
  }

  /** What the first packet of m does: with the beginning of m in assembly, or with that of another message. */
  lemma FirstPacket(d: Decoder, m: Logical, pre: seq<byte>)
    requires Encodable(m)
    requires d.partial == Some(m.(payload := pre)) || (OtherKind(d.partial, m) && pre == [])
    requires Fitting(m, d.expected, pre, 1, d.limit)
    ensures var ps := Split(m, d.expected);
            var err := if d.partial == Some(m.(payload := pre)) then [] else Interrupted(d.partial, ps[0]);
            var r := Assembled(d, m, pre, 1);
            Take(d, ps[0]) == (err + r.0, r.1)
  {
    hide Split, Head, Plus;
    SplitShape(m, d.expected);
    HeadShape(m.payload, 1);
    Later(d.expected, 1);
    assert Plain(m.flags) == m.flags && Plain(m.flags + FLAG_CHUNKED) == m.flags;
    assert [] + m.payload == m.payload && [] + Head(m.payload, 1) == Head(m.payload, 1);
    assert [] + Assembled(d, m, pre, 1).0 == Assembled(d, m, pre, 1).0;
  }

  /** One packet further, the rest of m is a message of its own as far as the decoder can tell. */
  lemma NextPart(d: Decoder, m: Logical, pre: seq<byte>, j: nat)
    requires 1 < j <= |Split(m, d.expected)|
    ensures |m.payload| > MAX_PAYLOAD
    ensures var m1 := m.(payload := m.payload[MAX_PAYLOAD..]);
            var pre1 := pre + m.payload[..MAX_PAYLOAD];
            var d1 := d.(expected := Messages.After(d.expected), partial := Some(m.(payload := pre1)));
            && Split(m, d.expected)[1..] == Split(m1, d1.expected)
            && Assembled(d, m, pre, 1) == ([], d1)
            && Assembled(d1, m1, pre1, j - 1) == Assembled(d, m, pre, j)
            && (Fitting(m, d.expected, pre, j, d.limit) ==> Fitting(m1, d1.expected, pre1, j - 1, d.limit))
  {
    hide Split, Head, Plus;
    SplitShape(m, d.expected);
    HeadShape(m.payload, j);
    Later(d.expected, j);
    var m1 := m.(payload := m.payload[MAX_PAYLOAD..]);
    var pre1 := pre + m.payload[..MAX_PAYLOAD];
    assert pre1 + m1.payload == pre + m.payload;
    assert pre1 + Head(m1.payload, j - 1) == pre + Head(m.payload, j);
  }

  lemma {:induction false} Continues(d: Decoder, m: Logical, pre: seq<byte>, j: nat)
    requires Encodable(m) && d.partial == Some(m.(payload := pre)) && 0 < j <= |Split(m, d.expected)|
    requires Fitting(m, d.expected, pre, j, d.limit)
    ensures TakeAll(d, Wholes(Split(m, d.expected)[..j])) == Assembled(d, m, pre, j)
    decreases j
  {
    hide Wholes, Take, TakeAll, Split, Assembled, Fitting;
    var ps := Split(m, d.expected);
    TakeFirst(d, ps, j);
    OneFits(m, d.expected, pre, j, d.limit);
    FirstPacket(d, m, pre);
    if j == 1 {
      NoneTaken(Take(d, ps[0]).1, ps[1..]);
      assert [] + Assembled(d, m, pre, 1).0 == Take(d, ps[0]).0 + [] == Assembled(d, m, pre, 1).0;
    } else {
      NextPart(d, m, pre, j);
      Continues(Take(d, ps[0]).1, m.(payload := m.payload[MAX_PAYLOAD..]), pre + m.payload[..MAX_PAYLOAD], j - 1);
      assert Take(d, ps[0]).0 + Assembled(d, m, pre, j).0 == Assembled(d, m, pre, j).0;
    }
  }

  lemma OneFits(m: Logical, number: u16, pre: seq<byte>, j: nat, limit: nat)
    requires 0 < j <= |Split(m, number)| && Fitting(m, number, pre, j, limit)
    ensures Fitting(m, number, pre, 1, limit)
  {
    hide Split, Head;
    SplitShape(m, number);
    HeadShape(m.payload, j);
  }

  /** The error a message in assembly costs when a packet of another type comes. */
  function Interrupted(partial: Option<Logical>, p: Packet): seq<Event> {
    if partial.None? then []
    else [Failed(if p.ptype != partial.value.kind && Chunked(p.flags) then ChunkTypeMismatch else ChunkViolation)]
  }

  /** What is in assembly, if anything, is not of the type and flags of m. */
  predicate OtherKind(partial: Option<Logical>, m: Logical) {
    partial.Some? ==> partial.value.kind != m.kind || partial.value.flags != m.flags
  }

  /** The first packets of a message with another one, of another type, still in assembly: the error comes first. */
  lemma Begins(d: Decoder, m: Logical, j: nat)
    requires Encodable(m) && OtherKind(d.partial, m) && 0 < j <= |Split(m, d.expected)|
    requires Fitting(m, d.expected, [], j, d.limit)
    ensures var ps := Split(m, d.expected);
            var r := Assembled(d, m, [], j);
            TakeAll(d, Wholes(ps[..j])) == (Interrupted(d.partial, ps[0]) + r.0, r.1)
  {
    hide Wholes, Take, TakeAll, Split, Assembled, Fitting, Interrupted;
    var ps := Split(m, d.expected);
    TakeFirst(d, ps, j);
    OneFits(m, d.expected, [], j, d.limit);
    FirstPacket(d, m, []);
    if j == 1 {
      NoneTaken(Take(d, ps[0]).1, ps[1..]);
      assert Take(d, ps[0]).0 + [] == Take(d, ps[0]).0;
    } else {
      NextPart(d, m, [], j);
      Continues(Take(d, ps[0]).1, m.(payload := m.payload[MAX_PAYLOAD..]), [] + m.payload[..MAX_PAYLOAD], j - 1);
      assert Take(d, ps[0]).0 + Assembled(d, m, [], j).0 == Interrupted(d.partial, ps[0]) + Assembled(d, m, [], j).0;
    }
  }

  // ---- whole messages, messages cut short, and messages with a damaged packet ----

  lemma HeadIsShort(payload: seq<byte>, j: nat)
    ensures |Head(payload, j)| <= |payload|
  {
    HeadAndTail(payload, j);
  }

  lemma MessageTaken(d: Decoder, m: Logical)
    requires Encodable(m) && OtherKind(d.partial, m) && |m.payload| <= d.limit
    ensures var ps := Split(m, d.expected);
            TakeAll(d, Wholes(ps)) ==
            (Interrupted(d.partial, ps[0]) + [Decoded(m)], d.(expected := Plus(d.expected, |ps|), partial := None))
  {
    hide Split, TakeAll, Wholes, Interrupted, Plus;
    var ps := Split(m, d.expected);
    Begins(d, m, |ps|);
    assert ps[..|ps|] == ps && [] + m.payload == m.payload;
  }

  /** Behind a message cut short, the next one is appended to it without any error exactly if it has the same type and
      flags. */
  lemma SplicedIff(d: Decoder, m: Logical)
    requires Encodable(m) && d.partial.Some?
    requires |d.partial.value.payload| + |m.payload| <= d.limit
    ensures TakeAll(d, Wholes(Split(m, d.expected))).0 == [Decoded(m.(payload := d.partial.value.payload + m.payload))]
            <==> d.partial.value.kind == m.kind && d.partial.value.flags == m.flags
  {
    hide Split, TakeAll, Wholes, Plus;
    var ps, pre := Split(m, d.expected), d.partial.value.payload;
    assert ps[..|ps|] == ps;
    if d.partial.value.kind == m.kind && d.partial.value.flags == m.flags {
      assert d.partial == Some(m.(payload := pre));
      Continues(d, m, pre, |ps|);
    } else {
      MessageTaken(d, m);
    }
  }

  /** Cut short after j of its packets: nothing is decoded, and what came waits for more. */
  lemma CutShort(d: Decoder, m: Logical, j: nat)
    requires Encodable(m) && OtherKind(d.partial, m)
    requires 0 < j < |Split(m, d.expected)| && |Head(m.payload, j)| <= d.limit
    ensures var ps := Split(m, d.expected);
            TakeAll(d, Wholes(ps[..j])) ==
            (Interrupted(d.partial, ps[0]), d.(expected := Plus(d.expected, j), partial := Some(m.(payload := Head(m.payload, j)))))
  {
    hide Split, TakeAll, Wholes, Interrupted, Plus, Head;
    var ps := Split(m, d.expected);
    Begins(d, m, j);
    assert [] + Head(m.payload, j) == Head(m.payload, j);
    assert Interrupted(d.partial, ps[0]) + [] == Interrupted(d.partial, ps[0]);
  }

  /** The packets of m with packet j damaged. */
  function Damaged(ps: seq<Packet>, j: nat, i: nat, x: byte): seq<Item>
    requires j < |ps|
  {
    Wholes(ps[..j]) + [Hurt(ps[j], i, x)] + Wholes(ps[j + 1..])
  }

  /** What m leaves behind once packet j is damaged: its later packets pass for a message. */
  function Remains(m: Logical, number: u16, j: nat): seq<Event> {
    if j + 1 < |Split(m, number)| then [Decoded(m.(payload := Tail(m.payload, j + 1)))] else []
  }

  /** The packets up to the damaged one: the message is given up. */
  lemma UpToDamage(d: Decoder, m: Logical, j: nat, i: nat, x: byte)
    requires Encodable(m) && OtherKind(d.partial, m) && |m.payload| <= d.limit
    requires j < |Split(m, d.expected)|
    ensures var ps := Split(m, d.expected);
            TakeAll(d, Wholes(ps[..j]) + [Hurt(ps[j], i, x)]) ==
            ((if j > 0 then Interrupted(d.partial, ps[0]) else []) + [Failed(CrcMismatch)],
             d.(expected := Plus(d.expected, j + 1), partial := None))
  {
    hide Split, TakeAll, Wholes, Interrupted, Plus, Head, Tail;
    var ps := Split(m, d.expected);
    TakeAllConcat(d, Wholes(ps[..j]), [Hurt(ps[j], i, x)]);
    if j > 0 {
      HeadIsShort(m.payload, j);
      CutShort(d, m, j);
    } else {
      NoneTaken(d, ps);
    }
    SplitTail(m, d.expected, j);
    SplitShape(m.(payload := Tail(m.payload, j)), Plus(d.expected, j));
    assert ps[j] == ps[j..][0];
    HurtTaken(TakeAll(d, Wholes(ps[..j])).1, Hurt(ps[j], i, x));
    AfterPlus(d.expected, j);
  }

  lemma BehindDamage(d: Decoder, m: Logical, number: u16, j: nat)
    requires Encodable(m) && d.partial.None? && |m.payload| <= d.limit
    requires j < |Split(m, number)| && d.expected == Plus(number, j + 1)
    ensures var ps := Split(m, number);
            TakeAll(d, Wholes(ps[j + 1..])) == (Remains(m, number, j), d.(expected := Plus(number, |ps|)))
  {
    hide Split, TakeAll, Wholes, Plus, Head, Tail;
    var ps := Split(m, number);
    if j + 1 < |ps| {
      SplitTail(m, number, j + 1);
      var tail := m.(payload := Tail(m.payload, j + 1));
      HeadAndTail(m.payload, j + 1);
      MessageTaken(d, tail);
      PlusPlus(number, j + 1, |ps| - j - 1);
      assert [] + [Decoded(tail)] == [Decoded(tail)];
    } else {
      assert ps[j + 1..] == ps[..0];
      NoneTaken(d, ps);
    }
  }

  /** The error always comes before anything that is left of the message. */
  lemma DamagedTaken(d: Decoder, m: Logical, j: nat, i: nat, x: byte)
    requires Encodable(m) && OtherKind(d.partial, m) && |m.payload| <= d.limit
    requires j < |Split(m, d.expected)|
    ensures var ps := Split(m, d.expected);
            TakeAll(d, Damaged(ps, j, i, x)) ==
            ((if j > 0 then Interrupted(d.partial, ps[0]) else []) + [Failed(CrcMismatch)] + Remains(m, d.expected, j),
             d.(expected := Plus(d.expected, |ps|), partial := None))
  {
    hide Split, TakeAll, Wholes, Interrupted, Plus, Remains;
    var ps := Split(m, d.expected);
    UpToDamage(d, m, j, i, x);
    TakeAllConcat(d, Wholes(ps[..j]) + [Hurt(ps[j], i, x)], Wholes(ps[j + 1..]));
    BehindDamage(d.(expected := Plus(d.expected, j + 1), partial := None), m, d.expected, j);
  }

  lemma HurtTaken(d: Decoder, it: Item)
    requires it.Hurt?
    ensures TakeAll(d, [it]) == ([Failed(CrcMismatch)], d.(partial := None, expected := Messages.After(it.p.number)))
  {
    assert [it][1..] == [];
    var es: seq<Event> := [Failed(CrcMismatch)];
    assert es + [] == es;
  }

  lemma AfterPlus(number: u16, j: nat)
    ensures Messages.After(Plus(number, j)) == Plus(number, j + 1)
  {
    PlusPlus(number, j, 1);
  }

  lemma PlusPlus(number: u16, a: nat, b: nat)
    ensures Plus(Plus(number, a), b) == Plus(number, a + b)
  {
    var q := (number + a) / 0x1_0000;
    assert number + a + b == Plus(number, a) + b + 0x1_0000 * q;
  }
}
