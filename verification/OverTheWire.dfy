/** What the outcomes in the sender's log mean in bytes: packets on the wire, cut anywhere, decoded and assembled, give
    the receiver that Fidelity.Heard reads off the log; messages damaged in any packet or cut short between packets, and
    restarts of the session, included. */
module OverTheWire {
  import opened Wire
  import opened SenderState
  import opened FrameAssembly
  import opened Fidelity
  import opened Packets
  import opened Messages
  import opened BrokenMessages

  function ToLogical(m: Message): Logical { Logical(TypeOf(m), 0, Payload(m)) }

  // ---- the receiver on decoder events ----

  /** The endpoint hands decoded messages to the assembler and tells it about every error. */
  function React(a: Assembler, e: Event): Assembler {
    match e
    case Decoded(m) => OnMessage(a, m.kind, m.payload)
    case Failed(_) => OnStreamError(a)
  }

  function Listen(a: Assembler, es: seq<Event>): Assembler
    decreases |es|
  {
    if es == [] then a else Listen(React(a, es[0]), es[1..])
  }

  lemma {:induction false} ListenConcat(a: Assembler, es: seq<Event>, fs: seq<Event>)
    ensures Listen(a, es + fs) == Listen(Listen(a, es), fs)
    decreases |es|
  {
    hide React;
    if es == [] {
      assert es + fs == fs;
    } else {
      assert (es + fs)[1..] == es[1..] + fs;
      ListenConcat(React(a, es[0]), es[1..], fs);
    }
  }

  function HearAll(a: Assembler, log: seq<Entry>): Assembler
    decreases |log|
  {
    if log == [] then a else HearAll(Hear(a, log[0]), log[1..])
  }

  lemma {:induction false} HearAllSnoc(a: Assembler, log: seq<Entry>)
    requires log != []
    ensures HearAll(a, log) == Hear(HearAll(a, log[..|log| - 1]), log[|log| - 1])
    decreases |log|
  {
    hide Hear;
    if |log| > 1 {
      HearAllSnoc(Hear(a, log[0]), log[1..]);
      assert log[1..][..|log| - 2] == log[..|log| - 1][1..];
    } else {
      assert log[..0] == [] && log[1..] == [];
    }
  }

  lemma {:induction false} HeardIsHearAll(log: seq<Entry>)
    ensures Heard(log) == HearAll(FRESH, log)
    decreases |log|
  {
    hide Hear;
    if log != [] {
      HeardIsHearAll(log[..|log| - 1]);
      HearAllSnoc(FRESH, log);
    }
  }

  // ---- the packets of one log entry ----

  /** Where a message was hit: `at` is the packet damaged, or the number of packets sent before it was cut short; i and x
      are the damaged byte of that packet and its new value. */
  datatype Hit = Hit(at: nat, i: nat, x: byte)

  /** The entry travels as whole packets, or hit as its outcome says; it does not follow a message of its own type that
      was cut short. */
  predicate Passes(e: Entry, number: u16, partial: Option<Logical>, hit: Hit) {
    e.Sent? &&
    var m := ToLogical(e.msg);
    var ps := Split(m, number);
    && (e.outcome.Refused? || OtherKind(partial, m))
    && match e.outcome
       case Delivered => |m.payload| <= MAX_MESSAGE_PAYLOAD
       case Refused => true
       case Corrupted =>
         && |m.payload| <= MAX_MESSAGE_PAYLOAD && hit.at < |ps|
         && HEADER_LEN <= hit.i < Size(ps[hit.at]) && hit.x != Build(ps[hit.at])[hit.i]
       case Torn => 0 < hit.at < |ps| && |Head(m.payload, hit.at)| <= MAX_MESSAGE_PAYLOAD
  }

  function Packeted(e: Entry, number: u16, hit: Hit): seq<Item>
    requires e.Sent? && (e.outcome.Corrupted? ==> hit.at < |Split(ToLogical(e.msg), number)|)
    requires e.outcome.Torn? ==> hit.at <= |Split(ToLogical(e.msg), number)|
  {
    var ps := Split(ToLogical(e.msg), number);
    match e.outcome
    case Delivered => Wholes(ps)
    case Refused => []
    case Corrupted => Damaged(ps, hit.at, hit.i, hit.x)
    case Torn => Wholes(ps[..hit.at])
  }

  lemma PacketedArrives(e: Entry, number: u16, partial: Option<Logical>, hit: Hit)
    requires Passes(e, number, partial, hit)
    ensures AllArrive(Packeted(e, number, hit))
  {
    hide Split, Build;
    SplitIsSendable(ToLogical(e.msg), number);
    var ps := Split(ToLogical(e.msg), number);
    assert forall k | 0 <= k < |ps| :: Sendable(ps[k]);
  }

  // ---- the receiver, message by message ----

  /** The receiver once the error owed for a message in assembly has been reported. */
  function Settled(a: Assembler, partial: Option<Logical>): Assembler {
    if partial.Some? then OnStreamError(a) else a
  }

  lemma ListenOne(a: Assembler, e: Event)
    ensures Listen(a, [e]) == React(a, e)
  {
    hide React;
    assert [e][1..] == [];
  }

  lemma ListenNothing(a: Assembler)
    ensures Listen(a, []) == a
  {
  }

  lemma ListenInterrupted(a: Assembler, partial: Option<Logical>, p: Packet)
    ensures Listen(a, Interrupted(partial, p)) == Settled(a, partial)
  {
    if partial.Some? {
      ListenOne(a, Interrupted(partial, p)[0]);
    }
  }

  /** Only FRAME_RECT takes more than one packet; what is left of a damaged one comes too late to matter. */
  lemma RemainsIgnored(a: Assembler, msg: Message, number: u16, j: nat)
    requires a.state != InFrame
    ensures Listen(a, Remains(ToLogical(msg), number, j)) == a
  {
    hide ParseRect;
    var es := Remains(ToLogical(msg), number, j);
    if es != [] {
      ListenOne(a, es[0]);
      ManyPacketsMeanRect(msg, number);
    }
  }

  lemma ManyPacketsMeanRect(msg: Message, number: u16)
    requires |Split(ToLogical(msg), number)| > 1
    ensures msg.FrameRect?
  {
    hide PutU16, PutU32;
  }

  /** Taking the packets of an entry moves the receiver as the entry does. */
  lemma EntryHeard(a: Assembler, d: Decoder, e: Entry, hit: Hit)
    requires d.limit == MAX_MESSAGE_PAYLOAD && Passes(e, d.expected, d.partial, hit)
    ensures var (es, d1) := TakeAll(d, Packeted(e, d.expected, hit));
            Settled(Listen(a, es), d1.partial) == Hear(Settled(a, d.partial), e)
  {
    hide Split, TakeAll, Payload, OnMessage, Build, Remains, Interrupted, Plus, Head, Wholes;
    var m := ToLogical(e.msg);
    var ps := Split(m, d.expected);
    var err := Interrupted(d.partial, ps[0]);
    ListenInterrupted(a, d.partial, ps[0]);
    ListenNothing(a);
    match e.outcome {
      case Delivered =>
        MessageTaken(d, m);
        ListenConcat(a, err, [Decoded(m)]);
        ListenOne(Listen(a, err), Decoded(m));
      case Refused =>
        NoneTaken(d, ps);
        NothingWhole(ps);
      case Corrupted =>
        DamagedTaken(d, m, hit.at, hit.i, hit.x);
        var before := if hit.at > 0 then err else [];
        ListenConcat(a, before + [Failed(CrcMismatch)], Remains(m, d.expected, hit.at));
        ListenConcat(a, before, [Failed(CrcMismatch)]);
        ListenOne(Listen(a, before), Failed(CrcMismatch));
        RemainsIgnored(OnStreamError(Listen(a, before)), e.msg, d.expected, hit.at);
      case Torn =>
        CutShort(d, m, hit.at);
    }
  }

  lemma NothingWhole(ps: seq<Packet>)
    ensures Wholes(ps[..0]) == []
  {
  }

  // ---- the log of a session ----

  predicate PassesAll(d: Decoder, log: seq<Entry>, hits: seq<Hit>)
    decreases |log|
  {
    && |hits| == |log|
    && (log != [] ==>
          && Passes(log[0], d.expected, d.partial, hits[0])
          && PassesAll(TakeAll(d, Packeted(log[0], d.expected, hits[0])).1, log[1..], hits[1..]))
  }

  /** The bytes of a log, from a decoder that stands where d does. */
  function Bytes(d: Decoder, log: seq<Entry>, hits: seq<Hit>): seq<byte>
    requires PassesAll(d, log, hits)
    decreases |log|
  {
    if log == [] then []
    else
      var its := Packeted(log[0], d.expected, hits[0]);
      PacketedArrives(log[0], d.expected, d.partial, hits[0]);
      AllBytes(its) + Bytes(TakeAll(d, its).1, log[1..], hits[1..])
  }

  lemma {:induction false} TakeAllKeeps(d: Decoder, its: seq<Item>, buf: seq<byte>)
    ensures TakeAll(d, its).1.limit == d.limit && TakeAll(d, its).1.buf == d.buf
    ensures TakeAll(d.(buf := buf), its) == (TakeAll(d, its).0, TakeAll(d, its).1.(buf := buf))
    decreases |its|
  {
    hide TakeItem;
    if its != [] {
      TakeKeepsBuf(d, its[0]);
      TakeIgnoresBuf(d, its[0], d.buf, buf);
      TakeAllKeeps(TakeItem(d, its[0]).1, its[1..], buf);
    }
  }

  lemma {:induction false} LogDecodes(a: Assembler, d: Decoder, log: seq<Entry>, hits: seq<Hit>)
    requires d.buf == [] && d.limit == MAX_MESSAGE_PAYLOAD && PassesAll(d, log, hits)
    ensures var (es, d1) := Decode(d.(buf := Bytes(d, log, hits)));
            Settled(Listen(a, es), d1.partial) == HearAll(Settled(a, d.partial), log)
    decreases |log|
  {
    hide Decode, Listen, Hear, Packeted, TakeAll, Settled, AllBytes, Split, Build;
    if log == [] {
      NothingDecodes(d);
      ListenNothing(a);
    } else {
      var its := Packeted(log[0], d.expected, hits[0]);
      var (es, d1) := TakeAll(d, its);
      var rest := Bytes(d1, log[1..], hits[1..]);
      PacketedArrives(log[0], d.expected, d.partial, hits[0]);
      ItemsDecode(d.(buf := AllBytes(its) + rest), its, rest);
      TakeAllKeeps(d, its, rest);
      EntryHeard(a, d, log[0], hits[0]);
      LogDecodes(Listen(a, es), d1, log[1..], hits[1..]);
      ListenConcat(a, es, Decode(d1.(buf := rest)).0);
    }
  }

  /** A decoder at the start of a session. */
  function Boundary(number: u16): Decoder { Decoder(MAX_MESSAGE_PAYLOAD, [], number, None) }

  // ---- whole runs: one session after the other ----

  /** What was logged in a session, how it passed, the number of its first packet, and how its bytes were cut. */
  datatype Leg = Leg(log: seq<Entry>, hits: seq<Hit>, number: u16, chunks: seq<seq<byte>>)

  predicate Carried(leg: Leg) {
    && PassesAll(Boundary(leg.number), leg.log, leg.hits)
    && Concat(leg.chunks) == Bytes(Boundary(leg.number), leg.log, leg.hits)
  }

  predicate AllCarried(legs: seq<Leg>) { forall k | 0 <= k < |legs| :: Carried(legs[k]) }

  /** The log of the whole run. */
  function Joined(legs: seq<Leg>): seq<Entry> {
    if legs == [] then [] else [SessionReset] + legs[0].log + Joined(legs[1..])
  }

  /** The receiver at the other end: decoder and assembler start afresh with every session. */
  function ListenAll(a: Assembler, legs: seq<Leg>): Assembler
    decreases |legs|
  {
    if legs == [] then a
    else
      var (es, d) := Messages.Receive(Boundary(legs[0].number), legs[0].chunks);
      ListenAll(Settled(Listen(OnReset(a), es), d.partial), legs[1..])
  }

  lemma LegHeard(a: Assembler, leg: Leg)
    requires Carried(leg)
    ensures var (es, d) := Messages.Receive(Boundary(leg.number), leg.chunks);
            Settled(Listen(a, es), d.partial) == HearAll(a, leg.log)
  {
    hide Decode, One, Garbage, Listen, HearAll, Concat, PassesAll, Bytes;
    var d := Boundary(leg.number);
    NothingDecodes(d);
    CuttingIsInvisible(d, leg.chunks);
    assert [] + Concat(leg.chunks) == Concat(leg.chunks);
    LogDecodes(a, d, leg.log, leg.hits);
  }

  lemma {:induction false} HearAllConcat(a: Assembler, x: seq<Entry>, y: seq<Entry>)
    ensures HearAll(a, x + y) == HearAll(HearAll(a, x), y)
    decreases |x|
  {
    hide Hear;
    if x == [] {
      assert x + y == y;
    } else {
      assert (x + y)[1..] == x[1..] + y;
      HearAllConcat(Hear(a, x[0]), x[1..], y);
    }
  }

  lemma ResetHeard(a: Assembler, log: seq<Entry>)
    ensures HearAll(a, [SessionReset] + log) == HearAll(OnReset(a), log)
  {
    assert ([SessionReset] + log)[1..] == log;
  }

  lemma {:induction false} LegsHeard(a: Assembler, legs: seq<Leg>)
    requires AllCarried(legs)
    ensures ListenAll(a, legs) == HearAll(a, Joined(legs))
    decreases |legs|
  {
    hide Carried, Listen, HearAll, Settled, OnReset;
    if legs == [] {
      HearNothing(a);
    } else {
      assert Carried(legs[0]);
      LegHeard(OnReset(a), legs[0]);
      ResetHeard(a, legs[0].log);
      HearAllConcat(a, [SessionReset] + legs[0].log, Joined(legs[1..]));
      LegsHeard(HearAll(OnReset(a), legs[0].log), legs[1..]);
    }
  }

  lemma HearNothing(a: Assembler)
    ensures HearAll(a, []) == a
  {
  }

  /** However the bytes of the logged messages are cut on the way, decoding and assembling them gives the receiver that
      the log describes; a message half received at the end of a session counts as the error it will cost. */
  lemma HeardOverTheWire(legs: seq<Leg>)
    requires AllCarried(legs)
    ensures ListenAll(FRESH, legs) == Heard(Joined(legs))
  {
    hide Carried, Listen, HearAll, Heard, Joined;
    LegsHeard(FRESH, legs);
    HeardIsHearAll(Joined(legs));
  }
}
