/** Messages as sequences of packets (shared/protocol/encoder.cpp) and back (shared/protocol/decoder.cpp): the rules
    as functions, and that a stream of encoded messages is decoded exactly, however it is cut. */
module Messages {
  import opened Wire
  import opened Packets
  import opened Crc

  /** A logical message: its type, its flags without the CHUNKED bit, and its whole payload. */
  datatype Logical = Logical(kind: byte, flags: byte, payload: seq<byte>)

  const FLAG_CHUNKED := 1
  const TYPE_HELLO: byte := 1

  predicate Chunked(flags: byte) { flags % 2 == 1 }

  /** The flags without the CHUNKED bit. */
  function Plain(flags: byte): byte { flags - flags % 2 }

  function After(number: u16): u16 { (number + 1) % 0x1_0000 }

  // ---- messages to packets ----

  /** Full packets marked CHUNKED, then one that is not. */
  function Split(m: Logical, number: u16): (ps: seq<Packet>)
    ensures ps != [] && AllSized(ps)
    decreases |m.payload|
  {
    if |m.payload| <= MAX_PAYLOAD then [Packet(m.kind, Plain(m.flags), number, m.payload)]
    else
      [Packet(m.kind, Plain(m.flags) + FLAG_CHUNKED, number, m.payload[..MAX_PAYLOAD])]
      + Split(m.(payload := m.payload[MAX_PAYLOAD..]), After(number))
  }

  predicate Encodable(m: Logical) { 1 <= m.kind <= 0x51 && !Chunked(m.flags) }

  lemma {:induction false} SplitIsSendable(m: Logical, number: u16)
    requires 1 <= m.kind <= 0x51
    ensures AllSendable(Split(m, number))
    decreases |m.payload|
  {
    if |m.payload| > MAX_PAYLOAD {
      SplitIsSendable(m.(payload := m.payload[MAX_PAYLOAD..]), After(number));
    }
  }

  // ---- packets to messages ----

  datatype DecodeError =
    | BadVersion | BadType | BadLength | CrcMismatch | SequenceGap | ChunkTypeMismatch | ChunkViolation | MessageTooLarge

  datatype Event = Decoded(m: Logical) | Failed(e: DecodeError)

  /** limit bounds the payload of a message put together from several packets. */
  datatype Decoder = Decoder(limit: nat, buf: seq<byte>, expected: u16, partial: Option<Logical>)

  /** A packet at a message boundary. */
  function Opening(limit: nat, p: Packet): (seq<Event>, Option<Logical>) {
    if !Chunked(p.flags) then ([Decoded(Logical(p.ptype, Plain(p.flags), p.payload))], None)
    else if |p.payload| > limit then ([Failed(MessageTooLarge)], None)
    else ([], Some(Logical(p.ptype, Plain(p.flags), p.payload)))
  }

  function Assemble(limit: nat, partial: Option<Logical>, p: Packet): (seq<Event>, Option<Logical>) {
    match partial
    case None => Opening(limit, p)
    case Some(a) =>
      if p.ptype != a.kind || Plain(p.flags) != a.flags then
        var e := if p.ptype != a.kind && Chunked(p.flags) then ChunkTypeMismatch else ChunkViolation;
        ([Failed(e)] + Opening(limit, p).0, Opening(limit, p).1)
      else if |a.payload| + |p.payload| > limit then ([Failed(MessageTooLarge)], None)
      else
        var whole := a.(payload := a.payload + p.payload);
        if Chunked(p.flags) then ([], Some(whole)) else ([Decoded(whole)], None)
  }

  /** A packet with a good CRC. HELLO starts a session, so its number is taken as it is. */
  function Take(d: Decoder, p: Packet): (seq<Event>, Decoder) {
    var d1 := d.(expected := After(p.number));
    if p.ptype != TYPE_HELLO && p.number != d.expected then ([Failed(SequenceGap)], d1.(partial := None))
    else
      var (es, partial) := Assemble(d.limit, d.partial, p);
      (es, d1.(partial := partial))
  }

  /** The buffer could start with a packet, as far as can be seen. */
  predicate Plausible(b: seq<byte>) {
    b != [] && forall i | 0 <= i < |b| && i < 4 :: b[i] == MAGIC[i]
  }

  /** Bytes that cannot be the start of a packet. */
  function Garbage(b: seq<byte>): (n: nat)
    ensures n <= |b| && (n < |b| ==> Plausible(b[n..]))
  {
    if b == [] || Plausible(b) then 0 else 1 + Garbage(b[1..])
  }

  function HeaderError(b: seq<byte>): DecodeError
    requires |b| >= HEADER_LEN
  {
    if b[4] != 1 then BadVersion else if b[5] < 1 || b[5] > 0x51 then BadType else BadLength
  }

  /** One packet, good or bad, from the front of a buffer free of garbage; None when more bytes are needed. */
  function Front(d: Decoder, b: seq<byte>): (r: Option<(seq<Event>, Decoder)>)
    ensures r.Some? ==> |r.value.1.buf| < |b|
  {
    GotFits(b);
    LookNeeds(b);
    match Look(b)
    case NeedMore => None
    case BadMagic => None  // not after the garbage is gone
    case BadHeader => Some(([Failed(HeaderError(b))], d.(buf := b[1..])))
    case BadCrc =>
      Some(([Failed(CrcMismatch)],
            d.(buf := b[HEADER_LEN + ReadU32(b, 10)..], partial := None, expected := After(ReadU16(b, 8)))))
    case Got(p) => Some(Take(d.(buf := b[Size(p)..]), p))
  }

  lemma LookNeeds(b: seq<byte>)
    ensures Look(b) != NeedMore ==> |b| >= HEADER_LEN
    ensures Look(b).BadCrc? ==> |b| >= HEADER_LEN + ReadU32(b, 10)
    ensures |b| >= HEADER_LEN && b[..4] == MAGIC ==> Look(b) != BadMagic
  {
    hide Crc32, ReadU32, ReadU16;
  }

  function One(d: Decoder): (r: Option<(seq<Event>, Decoder)>)
    ensures r.Some? ==> |r.value.1.buf| < |d.buf|
  {
    Front(d, d.buf[Garbage(d.buf)..])
  }

  /** Everything that can be decoded now. */
  function Decode(d: Decoder): (seq<Event>, Decoder)
    decreases |d.buf|
  {
    match One(d)
    case None => ([], d.(buf := d.buf[Garbage(d.buf)..]))
    case Some(r) =>
      var (es, d') := Decode(r.1);
      (r.0 + es, d')
  }

  function Fed(d: Decoder, data: seq<byte>): Decoder { d.(buf := d.buf + data) }

  // ---- how the stream is cut does not matter ----

  lemma {:induction false} GarbageGrows(b: seq<byte>, more: seq<byte>)
    ensures Garbage(b + more) == Garbage(b) + Garbage(b[Garbage(b)..] + more)
    decreases |b|
  {
    if b == [] {
      assert b + more == more && b[0..] + more == more;
    } else if !Plausible(b) {
      assert !Plausible(b + more);
      assert (b + more)[1..] == b[1..] + more;
      GarbageGrows(b[1..], more);
      assert b[Garbage(b)..] == b[1..][Garbage(b[1..])..];
    } else {
      assert b[0..] == b;
    }
  }

  lemma {:induction false} GarbageGone(b: seq<byte>)
    ensures Garbage(b[Garbage(b)..]) == 0
  {
  }

  lemma PlausibleStays(b: seq<byte>, more: seq<byte>)
    requires |b| >= 4 && Plausible(b)
    ensures Plausible(b + more) && b[..4] == MAGIC
  {
    forall i | 0 <= i < 4 ensures (b + more)[i] == MAGIC[i] {
      assert (b + more)[i] == b[i];
    }
  }

  lemma FrontIsStable(d: Decoder, b: seq<byte>, more: seq<byte>)
    requires Front(d, b).Some?
    ensures Front(d, b + more) == Some((Front(d, b).value.0, Fed(Front(d, b).value.1, more)))
  {
    hide Look, Take, HeaderError, ReadU16, ReadU32;
    LookNeeds(b);
    GotFits(b);
    LookIsStable(b, more);
    HeadStays(b, more);
    match Look(b) {
      case BadHeader => assert (b + more)[1..] == b[1..] + more;
      case BadCrc =>
        var n := HEADER_LEN + ReadU32(b, 10);
        assert (b + more)[n..] == b[n..] + more;
      case Got(p) =>
        assert (b + more)[Size(p)..] == b[Size(p)..] + more;
        TakeKeepsBuffer(d, p, b[Size(p)..], more);
    }
  }

  lemma TakeKeepsBuffer(d: Decoder, p: Packet, buf: seq<byte>, more: seq<byte>)
    ensures var r := Take(d.(buf := buf), p);
            Take(d.(buf := buf + more), p) == (r.0, Fed(r.1, more))
  {
    hide Assemble;
  }

  lemma HeadStays(b: seq<byte>, more: seq<byte>)
    requires |b| >= HEADER_LEN
    ensures ReadU32(b + more, 10) == ReadU32(b, 10) && ReadU16(b + more, 8) == ReadU16(b, 8)
    ensures HeaderError(b + more) == HeaderError(b)
  {
  }

  lemma OneIsFront(d: Decoder)
    ensures One(d) == Front(d, d.buf[Garbage(d.buf)..])
  {
    hide Front, Garbage;
  }

  lemma NoNewGarbage(b: seq<byte>, more: seq<byte>)
    requires |b| >= 4 && Plausible(b)
    ensures Garbage(b + more) == 0
  {
    PlausibleStays(b, more);
  }

  lemma FrontNeeds(d: Decoder, b: seq<byte>)
    requires Front(d, b).Some?
    ensures |b| >= HEADER_LEN
  {
    LookNeeds(b);
  }

  lemma OneIsStable(d: Decoder, more: seq<byte>)
    requires One(d).Some?
    ensures One(Fed(d, more)) == Some((One(d).value.0, Fed(One(d).value.1, more)))
  {
    hide Garbage, Front, One;
    var g := Garbage(d.buf);
    var b := d.buf[g..];
    OneIsFront(d);
    OneIsFront(Fed(d, more));
    FrontNeeds(d, b);
    NoNewGarbage(b, more);
    GarbageGrows(d.buf, more);
    assert (d.buf + more)[g..] == b + more;
    FrontIsStable(d, b, more);
    FrontIgnores(d, d.buf + more, b + more);
  }

  lemma FrontIgnores(d: Decoder, buf: seq<byte>, b: seq<byte>)
    ensures Front(d.(buf := buf), b) == Front(d, b)
  {
    hide Look, Assemble;
  }

  lemma {:induction false} DecodeFed(d: Decoder, more: seq<byte>)
    ensures var (es, d1) := Decode(d);
            var (fs, d2) := Decode(Fed(d1, more));
            Decode(Fed(d, more)) == (es + fs, d2)
    decreases |d.buf|
  {
    hide One, Garbage;
    if One(d).Some? {
      OneIsStable(d, more);
      var r := One(d).value;
      DecodeFed(r.1, more);
      var es, fs := Decode(r.1).0, Decode(Fed(Decode(d).1, more)).0;
      assert r.0 + (es + fs) == r.0 + es + fs;
    } else {
      DropFirst(d, more);
      var fs := Decode(Fed(Decode(d).1, more)).0;
      assert [] + fs == fs;
    }
  }

  /** Dropping the garbage early changes nothing. */
  lemma DropFirst(d: Decoder, more: seq<byte>)
    ensures Decode(Fed(d.(buf := d.buf[Garbage(d.buf)..]), more)) == Decode(Fed(d, more))
  {
    hide Garbage, Front, Decode, One;
    var b := d.buf[Garbage(d.buf)..];
    var d1, d2 := Fed(d.(buf := b), more), Fed(d, more);
    GarbageGrows(d.buf, more);
    var x := d2.buf[Garbage(d2.buf)..];
    assert d1.buf[Garbage(d1.buf)..] == x;
    assert d1 == d2.(buf := b + more);
    FrontIgnores(d2, b + more, x);
    OneIsFront(d1);
    OneIsFront(d2);
    DecodeOne(d1);
    DecodeOne(d2);
  }

  lemma DecodeOne(d: Decoder)
    ensures Decode(d) == match One(d)
                         case None => ([], d.(buf := d.buf[Garbage(d.buf)..]))
                         case Some(r) => (r.0 + Decode(r.1).0, Decode(r.1).1)
  {
    hide One, Garbage;
  }

  lemma {:induction false} DecodeRests(d: Decoder)
    ensures One(Decode(d).1).None? && Garbage(Decode(d).1.buf) == 0
    decreases |d.buf|
  {
    if One(d).Some? {
      hide One, Garbage;
      DecodeRests(One(d).value.1);
    } else {
      GarbageGone(d.buf);
      var b := d.buf[Garbage(d.buf)..];
      assert b[0..] == b;
      hide Look, Garbage;
    }
  }

  function Receive(d: Decoder, chunks: seq<seq<byte>>): (seq<Event>, Decoder)
    decreases |chunks|
  {
    if chunks == [] then ([], d)
    else
      var (es, d1) := Decode(Fed(d, chunks[0]));
      var (fs, d2) := Receive(d1, chunks[1..]);
      (es + fs, d2)
  }

  lemma {:induction false} CuttingIsInvisible(d: Decoder, chunks: seq<seq<byte>>)
    requires One(d).None? && Garbage(d.buf) == 0
    ensures Receive(d, chunks) == Decode(Fed(d, Concat(chunks)))
    decreases |chunks|
  {
    hide One, Garbage, Decode;
    if chunks == [] {
      DecodeOne(d);
      assert d.buf + [] == d.buf && d.buf[0..] == d.buf;
    } else {
      var d1 := Decode(Fed(d, chunks[0])).1;
      DecodeRests(Fed(d, chunks[0]));
      CuttingIsInvisible(d1, chunks[1..]);
      DecodeFed(Fed(d, chunks[0]), Concat(chunks[1..]));
      assert d.buf + chunks[0] + Concat(chunks[1..]) == d.buf + Concat(chunks);
    }
  }

  // ---- round trip ----

  lemma BuiltStartsClean(p: Packet, d: seq<byte>)
    requires Sendable(p) && Build(p) <= d
    ensures Garbage(d) == 0
  {
    hide Build, Accepted, Crc32;
    BuiltFields(p, d);
    forall i | 0 <= i < 4 ensures d[i] == MAGIC[i] {
      assert d[..4][i] == d[i];
    }
  }

  lemma OneBuilt(d: Decoder, p: Packet, rest: seq<byte>)
    requires Sendable(p) && d.buf == Build(p) + rest
    ensures One(d) == Some(Take(d.(buf := rest), p))
  {
    hide Build, Accepted, Garbage, Look, One, Assemble;
    BuiltStartsClean(p, d.buf);
    BuiltIsAccepted(p, d.buf);
    OneIsFront(d);
    assert d.buf[0..] == d.buf && d.buf[Size(p)..] == rest;
  }

  /** The decoder after n more packets, with nothing half assembled. */
  function Advanced(d: Decoder, n: nat, rest: seq<byte>): Decoder {
    d.(buf := rest, expected := (d.expected + n) % 0x1_0000, partial := None)
  }

  /** The packets still to come of a message whose beginning has been received. */
  lemma {:induction false} RestDecodes(d: Decoder, m: Logical, rest: seq<byte>)
    requires Encodable(m) && d.partial.Some? && d.partial.value == m.(payload := d.partial.value.payload)
    requires |d.partial.value.payload| + |m.payload| <= d.limit
    requires AllSendable(Split(m, d.expected)) && d.buf == BuildAll(Split(m, d.expected)) + rest
    ensures var whole := m.(payload := d.partial.value.payload + m.payload);
            var d' := Advanced(d, |Split(m, d.expected)|, rest);
            Decode(d) == ([Decoded(whole)] + Decode(d').0, Decode(d').1)
    decreases |m.payload|
  {
    hide Build, Decode, One, BuildAll, Garbage;
    var ps := Split(m, d.expected);
    var more := BuildAll(ps[1..]);
    BuildAllFirst(ps);
    assert Sendable(ps[0]) && d.buf == Build(ps[0]) + (more + rest);
    OneBuilt(d, ps[0], more + rest);
    DecodeOne(d);
    var d1 := Take(d.(buf := more + rest), ps[0]).1;
    if |m.payload| <= MAX_PAYLOAD {
      BuildAllNone();
      assert [] + rest == rest;
    } else {
      var m1 := m.(payload := m.payload[MAX_PAYLOAD..]);
      assert ps[1..] == Split(m1, d1.expected);
      assert d1.partial == Some(m.(payload := d.partial.value.payload + m.payload[..MAX_PAYLOAD]));
      RestDecodes(d1, m1, rest);
      assert [] + Decode(d1).0 == Decode(d1).0;
      assert d.partial.value.payload + m.payload[..MAX_PAYLOAD] + m1.payload == d.partial.value.payload + m.payload;
      AdvancedTwice(d, d1, |ps[1..]|, rest);
    }
  }

  lemma AdvancedTwice(d: Decoder, d1: Decoder, n: nat, rest: seq<byte>)
    requires d1 == d.(buf := d1.buf, expected := (d.expected + 1) % 0x1_0000, partial := d1.partial)
    ensures Advanced(d1, n, rest) == Advanced(d, n + 1, rest)
  {
  }

  lemma BuildAllFirst(ps: seq<Packet>)
    requires ps != [] && AllSendable(ps)
    ensures Sendable(ps[0]) && AllSendable(ps[1..]) && BuildAll(ps) == Build(ps[0]) + BuildAll(ps[1..])
  {
    hide Build;
    assert Sendable(ps[0]);
  }

  lemma BuildAllNone()
    ensures BuildAll([]) == []
  {
  }

  /** A message that fits one packet, or the limit. */
  predicate Short(m: Logical, limit: nat) { |m.payload| <= MAX_PAYLOAD || |m.payload| <= limit }

  lemma AdvancedOn(d: Decoder, d1: Decoder, n: nat, rest: seq<byte>)
    requires d1 == d.(buf := d1.buf, expected := After(d.expected), partial := d1.partial)
    ensures Advanced(d1, n, rest) == Advanced(d, n + 1, rest)
  {
  }

  lemma AdvancedOnce(d: Decoder, rest: seq<byte>)
    ensures Advanced(d.(buf := rest), 1, rest) == Advanced(d, 1, rest)
  {
  }

  lemma FirstTaken(d: Decoder, m: Logical)
    requires Encodable(m) && Short(m, d.limit) && d.partial.None?
    ensures Take(d, Split(m, d.expected)[0]) ==
            if |m.payload| <= MAX_PAYLOAD then ([Decoded(m)], Advanced(d, 1, d.buf))
            else ([], d.(expected := After(d.expected), partial := Some(m.(payload := m.payload[..MAX_PAYLOAD]))))
  {
    assert Plain(m.flags) == m.flags && Plain(m.flags + FLAG_CHUNKED) == m.flags;
  }

  lemma MessageDecodes(d: Decoder, m: Logical, rest: seq<byte>)
    requires Encodable(m) && Short(m, d.limit) && d.partial.None?
    requires AllSendable(Split(m, d.expected)) && d.buf == BuildAll(Split(m, d.expected)) + rest
    ensures var d' := Advanced(d, |Split(m, d.expected)|, rest);
            Decode(d) == ([Decoded(m)] + Decode(d').0, Decode(d').1)
  {
    hide Build, Decode, One, BuildAll, Garbage, Take, Plain, Chunked, Advanced;
    var ps := Split(m, d.expected);
    var more := BuildAll(ps[1..]);
    BuildAllFirst(ps);
    assert d.buf == Build(ps[0]) + (more + rest);
    OneBuilt(d, ps[0], more + rest);
    DecodeOne(d);
    FirstTaken(d.(buf := more + rest), m);
    var d1 := Take(d.(buf := more + rest), ps[0]).1;
    if |m.payload| <= MAX_PAYLOAD {
      BuildAllNone();
      assert |ps| == 1 && ps[1..] == [] && more + rest == rest;
      AdvancedOnce(d, rest);
    } else {
      var m1 := m.(payload := m.payload[MAX_PAYLOAD..]);
      assert ps[1..] == Split(m1, d1.expected);
      hide Split;
      RestDecodes(d1, m1, rest);
      assert [] + Decode(d1).0 == Decode(d1).0;
      assert m.payload[..MAX_PAYLOAD] + m1.payload == m.payload;
      AdvancedOn(d, d1, |ps[1..]|, rest);
    }
  }

  predicate AllEncodable(ms: seq<Logical>) { forall i | 0 <= i < |ms| :: Encodable(ms[i]) }

  predicate AllShort(ms: seq<Logical>, limit: nat) { forall i | 0 <= i < |ms| :: Short(ms[i], limit) }

  /** Messages sent one after the other, numbered on. */
  function Encode(ms: seq<Logical>, number: u16): seq<byte>
    decreases |ms|
  {
    if ms == [] then []
    else
      var ps := Split(ms[0], number);
      BuildAll(ps) + Encode(ms[1..], (number + |ps|) % 0x1_0000)
  }

  function Events(ms: seq<Logical>): seq<Event> {
    if ms == [] then [] else [Decoded(ms[0])] + Events(ms[1..])
  }

  function NumberAfter(ms: seq<Logical>, number: u16): u16
    decreases |ms|
  {
    if ms == [] then number else NumberAfter(ms[1..], (number + |Split(ms[0], number)|) % 0x1_0000)
  }

  lemma {:induction false} MessagesDecode(d: Decoder, ms: seq<Logical>)
    requires d.partial.None? && AllEncodable(ms) && AllShort(ms, d.limit)
    requires d.buf == Encode(ms, d.expected)
    ensures Decode(d) == (Events(ms), d.(buf := [], expected := NumberAfter(ms, d.expected)))
    decreases |ms|
  {
    hide Split, BuildAll, Decode, One, Garbage;
    if ms == [] {
      NothingDecodes(d);
    } else {
      assert Encodable(ms[0]) && Short(ms[0], d.limit);
      SplitIsSendable(ms[0], d.expected);
      var n := |Split(ms[0], d.expected)|;
      var rest := Encode(ms[1..], (d.expected + n) % 0x1_0000);
      MessageDecodes(d, ms[0], rest);
      MessagesDecode(Advanced(d, n, rest), ms[1..]);
    }
  }

  lemma NothingDecodes(d: Decoder)
    requires d.buf == []
    ensures Decode(d) == ([], d) && One(d).None? && Garbage(d.buf) == 0
  {
    assert d.buf[0..] == [];
  }

  /** Round trip: messages encoded one after the other are decoded exactly, with no error and nothing left over, however
      the bytes are cut on the way. */
  lemma MessagesRoundTrip(ms: seq<Logical>, number: u16, limit: nat, chunks: seq<seq<byte>>)
    requires AllEncodable(ms) && AllShort(ms, limit)
    requires Concat(chunks) == Encode(ms, number)
    ensures Receive(Decoder(limit, [], number, None), chunks) == (Events(ms), Decoder(limit, [], NumberAfter(ms, number), None))
  {
    hide Decode, One, Garbage, Encode, Concat, Receive;
    var d := Decoder(limit, [], number, None);
    NothingDecodes(d);
    CuttingIsInvisible(d, chunks);
    assert [] + Concat(chunks) == Encode(ms, number);
    MessagesDecode(Fed(d, Concat(chunks)), ms);
  }

  /** A packet with one damaged payload byte costs one error and the message it belongs to; decoding goes on behind it. */
  lemma DamageIsOneError(d: Decoder, p: Packet, i: nat, x: byte, rest: seq<byte>)
    requires Sendable(p) && HEADER_LEN <= i < Size(p) && x != (Build(p) + rest)[i] && d.buf == (Build(p) + rest)[i := x]
    ensures One(d) == Some(([Failed(CrcMismatch)], d.(buf := rest, partial := None, expected := After(p.number))))
  {
    hide Build, Accepted, Garbage, Look, One, Crc32, ReadU16, ReadU32;
    var good := Build(p) + rest;
    BuiltIsAccepted(p, good);
    BuiltStartsClean(p, good);
    BuiltFields(p, good);
    CoveredByte(good, i, x, Size(p));
    assert d.buf[..HEADER_LEN] == good[..HEADER_LEN];
    DamagedPayload(good, d.buf, |p.payload|);
    HeadersAgree(good, d.buf);
    SameStart(good, d.buf);
    OneIsFront(d);
    assert d.buf[0..] == d.buf && d.buf[Size(p)..] == rest;
  }

  lemma SameStart(a: seq<byte>, b: seq<byte>)
    requires |a| >= HEADER_LEN && |b| >= HEADER_LEN && a[..HEADER_LEN] == b[..HEADER_LEN] && Garbage(a) == 0
    ensures Garbage(b) == 0 && ReadU16(a, 8) == ReadU16(b, 8)
  {
    forall i | 0 <= i < HEADER_LEN ensures a[i] == b[i] {
      assert a[..HEADER_LEN][i] == b[..HEADER_LEN][i];
    }
  }
}
