/** What a telemetry line says about each field, whatever else is on it: the last pair with the field's key whose value can
    be read, cut off at the field's range; without one the field keeps what was known. */
module TelemetryFields {
  import opened Wire
  import Text
  import opened NumberParsers
  import opened Telemetry

  /** The last value of that key that can be read. */
  function Latest<T>(kvs: seq<KeyValue>, key: string, read: string -> Option<T>): Option<T> {
    if kvs == [] then None
    else
      var later := Latest(kvs[1..], key, read);
      if later.Some? then later else if kvs[0].key == key then read(kvs[0].value) else None
  }

  /** It is what it claims to be. */
  lemma {:induction false} LatestIs<T>(kvs: seq<KeyValue>, key: string, read: string -> Option<T>)
    ensures Latest(kvs, key, read).Some? <==> exists i | 0 <= i < |kvs| :: kvs[i].key == key && read(kvs[i].value).Some?
    ensures forall i | 0 <= i < |kvs| && kvs[i].key == key && read(kvs[i].value).Some?
              && (forall j | i < j < |kvs| && kvs[j].key == key :: read(kvs[j].value).None?) ::
              Latest(kvs, key, read) == read(kvs[i].value)
    decreases |kvs|
  {
    if kvs != [] {
      LatestIs(kvs[1..], key, read);
      assert forall i | 0 < i < |kvs| :: kvs[i] == kvs[1..][i - 1];
      forall i | 0 <= i < |kvs| && kvs[i].key == key && read(kvs[i].value).Some?
          && (forall j | i < j < |kvs| && kvs[j].key == key :: read(kvs[j].value).None?)
        ensures Latest(kvs, key, read) == read(kvs[i].value)
      {
        if i > 0 {
          assert kvs[1..][i - 1] == kvs[i];
          assert forall j | i - 1 < j < |kvs[1..]| && kvs[1..][j].key == key :: read(kvs[1..][j].value).None?;
        }
      }
      if exists i | 0 <= i < |kvs| :: kvs[i].key == key && read(kvs[i].value).Some? {
        var i :| 0 <= i < |kvs| && kvs[i].key == key && read(kvs[i].value).Some?;
        if i > 0 {
          assert kvs[1..][i - 1] == kvs[i];
        }
      }
    }
  }

  function Known<T>(latest: Option<T>, before: T): T { if latest.Some? then latest.value else before }

  /** Cut off above. */
  function Upto(latest: Option<nat>, max: nat, before: nat): nat {
    match latest
    case None => before
    case Some(v) => if v <= max then v else max
  }

  function Name(s: string): Option<string> { Some(s) }

  lemma {:induction false} OledFields(g: Oled, kvs: seq<KeyValue>)
    ensures var r := Fold(g, kvs, OledField);
            && r.address == Upto(Latest(kvs, "a", HexOf), 0xFF, g.address)
            && r.controller == (match Latest(kvs, "c", Name)
                                case None => g.controller
                                case Some(name) => if name == "SSD1306" then Ssd1306 else if name == "SH1106" then Sh1106
                                                   else if name == "AUTO" then Auto else UnknownController)
            && r.errCount == Known(Latest(kvs, "err", U64Of), g.errCount)
            && r.ok == (match Latest(kvs, "ok", U64Of) case None => g.ok case Some(v) => v != 0)
    decreases |kvs|
  {
    hide HexOf, U64Of;
    if kvs != [] {
      OledFields(OledField(g, kvs[0]), kvs[1..]);
    }
  }

  lemma {:induction false} TransportFields(g: Transport, kvs: seq<KeyValue>)
    ensures var r := Fold(g, kvs, TransportField);
            && r.rssi == (match Latest(kvs, "rssi", I64Of)
                          case None => g.rssi
                          case Some(v) => if v < -128 then -128 else if v > 127 then 127 else v)
            && r.channel == Upto(Latest(kvs, "ch", U64Of), 0xFF, g.channel)
    decreases |kvs|
  {
    hide I64Of, U64Of;
    if kvs != [] {
      TransportFields(TransportField(g, kvs[0]), kvs[1..]);
    }
  }

  lemma {:induction false} MemoryFields(g: Memory, kvs: seq<KeyValue>)
    ensures Fold(g, kvs, MemoryField) ==
            Memory(Known(Latest(kvs, "h", U64Of), g.free), Known(Latest(kvs, "lg", U64Of), g.largest),
                   Known(Latest(kvs, "mn", U64Of), g.minFree))
    decreases |kvs|
  {
    hide U64Of;
    if kvs != [] {
      MemoryFields(MemoryField(g, kvs[0]), kvs[1..]);
    }
  }

  lemma {:induction false} DisplayFrameFields(g: Display, kvs: seq<KeyValue>)
    ensures var r := Fold(g, kvs, DisplayField);
            && r.frameId == Upto(Latest(kvs, "id", U64Of), 0xFFFF, g.frameId)
            && r.frameType == Upto(Latest(kvs, "t", U64Of), 0xFF, g.frameType)
            && r.rects == Upto(Latest(kvs, "r", U64Of), 0xFFFF_FFFF, g.rects)
            && r.bytes == Upto(Latest(kvs, "b", U64Of), 0xFFFF_FFFF, g.bytes)
    decreases |kvs|
  {
    hide U64Of, FpsOf;
    if kvs != [] {
      DisplayFrameFields(DisplayField(g, kvs[0]), kvs[1..]);
    }
  }

  lemma {:induction false} DisplayRateFields(g: Display, kvs: seq<KeyValue>)
    ensures var r := Fold(g, kvs, DisplayField);
            && r.elapsedMs == Known(Latest(kvs, "e", U64Of), g.elapsedMs)
            && r.fps == Upto(Latest(kvs, "f", FpsOf), 0xFFFF_FFFF, g.fps)
            && r.dropped == Known(Latest(kvs, "d", U64Of), g.dropped)
            && r.queueFull == Known(Latest(kvs, "q", U64Of), g.queueFull)
    decreases |kvs|
  {
    hide U64Of, FpsOf;
    if kvs != [] {
      DisplayRateFields(DisplayField(g, kvs[0]), kvs[1..]);
    }
  }

  lemma {:induction false} ModeFields(g: Mode, kvs: seq<KeyValue>)
    ensures var r := Fold(g, kvs, ModeField);
            && r.mode == Upto(Latest(kvs, "sw", U64Of), 3, g.mode)
            && r.router == (match Latest(kvs, "st", I64Of)
                            case None => g.router case Some(v) => if 0 <= v <= 3 then v else 0xFF)
            && r.scene == (match Latest(kvs, "scene", I64Of)
                           case None => g.scene case Some(v) => if 0 <= v <= 1 then v else 0xFF)
    decreases |kvs|
  {
    hide U64Of, I64Of;
    if kvs != [] {
      ModeFields(ModeField(g, kvs[0]), kvs[1..]);
    }
  }

  /** The first number of "tx/rx", whatever follows the slash. */
  function First(s: string): Option<nat> {
    var slash := Text.IndexOf(s, '/');
    if slash == |s| then None else U64Of(s[..slash])
  }

  /** The second number, if both can be read. */
  function Second(s: string): Option<nat> {
    var slash := Text.IndexOf(s, '/');
    if slash == |s| || U64Of(s[..slash]).None? then None else U64Of(s[slash + 1..])
  }

  lemma {:induction false} ScanHello(g: SessionScan, kvs: seq<KeyValue>)
    ensures var r := Fold(g, kvs, SessionField);
            && r.state == Upto(Latest(kvs, "st", U64Of), 0xFF, g.state)
            && r.haveHello == (g.haveHello || Latest(kvs, "h", Second).Some?)
            && r.txHello == Known(Latest(kvs, "h", First), g.txHello)
            && r.rxHello == Known(Latest(kvs, "h", Second), g.rxHello)
    decreases |kvs|
  {
    hide U64Of;
    if kvs != [] {
      ScanHello(SessionField(g, kvs[0]), kvs[1..]);
    }
  }

  lemma {:induction false} ScanPing(g: SessionScan, kvs: seq<KeyValue>)
    ensures var r := Fold(g, kvs, SessionField);
            && r.havePing == (g.havePing || Latest(kvs, "p", Second).Some?)
            && r.rxPing == Known(Latest(kvs, "p", Second), g.rxPing)
    decreases |kvs|
  {
    hide U64Of;
    if kvs != [] {
      ScanPing(SessionField(g, kvs[0]), kvs[1..]);
    }
  }

  /** The hello flag takes its two counters from different pairs if the last one can be read by half only. */
  lemma SessionFields(s: Session, kvs: seq<KeyValue>)
    ensures var r := SessionOf(s, Fold(ScanSession(s), kvs, SessionField));
            && r.state == Upto(Latest(kvs, "st", U64Of), 0xFF, s.state)
            && r.helloOk == (match Latest(kvs, "h", Second)
                             case None => s.helloOk
                             case Some(rx) => Known(Latest(kvs, "h", First), 0) > 0 && rx > 0)
            && r.pingOk == (match Latest(kvs, "p", Second) case None => s.pingOk case Some(rx) => rx > 0)
  {
    ScanHello(ScanSession(s), kvs);
    ScanPing(ScanSession(s), kvs);
  }

  lemma KindNames(word: string)
    ensures KindOf(word) == Some(OledLine) <==> word == "oled"
    ensures KindOf(word) == Some(TransportLine) <==> word == "trx"
    ensures KindOf(word) == Some(MemoryLine) <==> word == "mem"
    ensures KindOf(word) == Some(DisplayLine) <==> word == "disp"
    ensures KindOf(word) == Some(SessionLine) <==> word == "sess"
    ensures KindOf(word) == Some(ModeLine) <==> word == "mod"
  {
  }

  /** Everything but one group. */
  predicate OthersSame(kind: Kind, st: Status, st': Status) {
    && (kind == OledLine || (st'.oled == st.oled && st'.oledValid == st.oledValid))
    && (kind == TransportLine || (st'.transport == st.transport && st'.transportValid == st.transportValid))
    && (kind == MemoryLine || (st'.memory == st.memory && st'.memoryValid == st.memoryValid))
    && (kind == DisplayLine || (st'.display == st.display && st'.displayValid == st.displayValid))
    && (kind == SessionLine || (st'.session == st.session && st'.sessionValid == st.sessionValid))
    && (kind == ModeLine || (st'.mode == st.mode && st'.modeValid == st.modeValid))
  }

  predicate GroupValid(kind: Kind, st: Status) {
    match kind
    case OledLine => st.oledValid
    case TransportLine => st.transportValid
    case MemoryLine => st.memoryValid
    case DisplayLine => st.displayValid
    case SessionLine => st.sessionValid
    case ModeLine => st.modeValid
  }

  lemma UpdateOthers(kind: Kind, kvs: seq<KeyValue>, st: Status)
    ensures OthersSame(kind, st, Update(kind, kvs, st)) && GroupValid(kind, Update(kind, kvs, st))
  {
    hide Fold, SessionOf;
  }

  /** A line updates the group of its first word and no other; none at an unknown word. */
  lemma OneGroupChanges(line: string, st: Status)
    ensures var (ok, st'), kind := Read(line, st), KindOf(NextToken(line).0);
            && (ok <==> kind.Some?) && (ok ==> OthersSame(kind.value, st, st') && GroupValid(kind.value, st'))
            && (!ok ==> st' == st)
  {
    hide NextToken, Pairs, KindOf, Update, OthersSame, GroupValid;
    var kind := KindOf(NextToken(line).0);
    if kind.Some? {
      UpdateOthers(kind.value, Pairs(NextToken(line).1), st);
    }
  }
}
