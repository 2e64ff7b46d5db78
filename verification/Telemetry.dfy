/** Telemetry lines as text (shared/display/physical_status.cpp): tokens, key=value pairs, and the six kinds of line,
    each of which updates its own group of the status. */
module Telemetry {
  import opened Wire
  import opened Text
  import opened NumberParsers

  // ---- tokens ----

  predicate IsBlank(c: char) { c == ' ' || c == '\t' || c == '\r' || c == '\n' }

  function Blanks(s: string): (n: nat)
    ensures n <= |s| && (n < |s| ==> !IsBlank(s[n])) && forall i | 0 <= i < n :: IsBlank(s[i])
  {
    if s == [] || !IsBlank(s[0]) then 0 else 1 + Blanks(s[1..])
  }

  function WordLength(s: string): (n: nat)
    ensures n <= |s| && (n < |s| ==> IsBlank(s[n])) && forall i | 0 <= i < n :: !IsBlank(s[i])
  {
    if s == [] || IsBlank(s[0]) then 0 else 1 + WordLength(s[1..])
  }

  /** The next word and what follows it. */
  function NextToken(s: string): (r: (string, string))
    ensures r.0 != [] ==> |r.1| < |s|
  {
    var t := s[Blanks(s)..];
    (t[..WordLength(t)], t[WordLength(t)..])
  }

  function Tokens(s: string): seq<string>
    decreases |s|
  {
    var (tok, rest) := NextToken(s);
    if tok == [] then [] else [tok] + Tokens(rest)
  }

  datatype KeyValue = KeyValue(key: string, value: string)

  const NO_PAIR := KeyValue("", "")

  /** Split at the first '='; None without one. */
  function PairOf(tok: string): Option<KeyValue> {
    var eq := IndexOf(tok, '=');
    if eq == |tok| then None else Some(KeyValue(tok[..eq], tok[eq + 1..]))
  }

  function PairsOf(toks: seq<string>): seq<KeyValue> {
    if toks == [] then []
    else (if PairOf(toks[0]).Some? then [PairOf(toks[0]).value] else []) + PairsOf(toks[1..])
  }

  function Pairs(s: string): seq<KeyValue> { PairsOf(Tokens(s)) }

  function Fold<G>(g: G, kvs: seq<KeyValue>, field: (G, KeyValue) -> G): G
    decreases |kvs|
  {
    if kvs == [] then g else Fold(field(g, kvs[0]), kvs[1..], field)
  }

  method ReadToken(s: string) returns (tok: string, rest: string)
    ensures (tok, rest) == NextToken(s)
  {
    var start := 0;
    while start < |s| && IsBlank(s[start])
      invariant start <= Blanks(s)
    {
      start := start + 1;
    }
    var t := s[start..];
    var n := 0;
    while n < |t| && !IsBlank(t[n])
      invariant n <= WordLength(t)
    {
      n := n + 1;
    }
    tok, rest := t[..n], t[n..];
  }

  /** Leaves the previous pair in place when the token has no '='. */
  method NextKeyValue(s: string, kv: KeyValue) returns (more: bool, rest: string, kv': KeyValue)
    ensures var r := NextToken(s);
            more == (r.0 != []) && rest == r.1
            && kv' == if r.0 != [] && PairOf(r.0).Some? then PairOf(r.0).value else kv
  {
    var tok: string;
    tok, rest := ReadToken(s);
    kv' := kv;
    if tok == [] {
      return false, rest, kv';
    }
    var eq := IndexOf(tok, '=');
    if eq < |tok| {
      kv' := KeyValue(tok[..eq], tok[eq + 1..]);
    }
    more := true;
  }

  /** The loop of every line parser. A token without '=' makes it apply the previous pair again, which changes nothing:
      the result is that of the pairs alone. */
  method ParseFields<G(!new)>(s: string, start: G, field: (G, KeyValue) -> G) returns (g: G)
    requires forall h, kv :: field(field(h, kv), kv) == field(h, kv)
    requires forall h :: field(h, NO_PAIR) == h
    ensures g == Fold(start, Pairs(s), field)
  {
    g := start;
    var rest, kv, more := s, NO_PAIR, true;
    more, rest, kv := NextKeyValue(rest, kv);
    ghost var seen := s;
    assert field(g, NO_PAIR) == g;
    ghost var last := NO_PAIR;
    while more
      invariant more == (NextToken(seen).0 != []) && rest == NextToken(seen).1
      invariant kv == if more && PairOf(NextToken(seen).0).Some? then PairOf(NextToken(seen).0).value else last
      invariant field(g, last) == g
      invariant Fold(g, Pairs(seen), field) == Fold(start, Pairs(s), field)
      decreases |seen|
    {
      FoldOne(g, seen, field);
      g := field(g, kv);
      last := kv;
      seen := rest;
      more, rest, kv := NextKeyValue(rest, kv);
    }
    FoldNone(g, seen, field);
  }

  lemma FoldOne<G>(g: G, s: string, field: (G, KeyValue) -> G)
    requires NextToken(s).0 != []
    ensures var (tok, rest) := NextToken(s);
            Fold(g, Pairs(s), field) == Fold(if PairOf(tok).Some? then field(g, PairOf(tok).value) else g, Pairs(rest), field)
  {
    hide NextToken, PairOf;
    var (tok, rest) := NextToken(s);
    assert Tokens(s) == [tok] + Tokens(rest);
    assert ([tok] + Tokens(rest))[1..] == Tokens(rest);
    if PairOf(tok).Some? {
      assert ([PairOf(tok).value] + Pairs(rest))[1..] == Pairs(rest);
    } else {
      assert [] + Pairs(rest) == Pairs(rest);
    }
  }

  lemma FoldNone<G>(g: G, s: string, field: (G, KeyValue) -> G)
    requires NextToken(s).0 == []
    ensures Fold(g, Pairs(s), field) == g
  {
  }

  // ---- the status and its six groups ----

  datatype Controller = Auto | Ssd1306 | Sh1106 | UnknownController

  datatype Oled = Oled(address: byte, controller: Controller, errCount: nat, ok: bool)
  datatype Transport = Transport(rssi: int, channel: byte)
  datatype Memory = Memory(free: nat, largest: nat, minFree: nat)
  datatype Display = Display(frameId: u16, frameType: byte, rects: u32, bytes: u32, elapsedMs: nat, fps: u32,
                             dropped: nat, queueFull: nat)
  datatype Session = Session(state: byte, helloOk: bool, pingOk: bool)
  datatype Mode = Mode(mode: byte, router: byte, scene: byte)

  datatype Status = Status(
    oled: Oled, oledValid: bool, transport: Transport, transportValid: bool, memory: Memory, memoryValid: bool,
    display: Display, displayValid: bool, session: Session, sessionValid: bool, mode: Mode, modeValid: bool)

  const UNKNOWN: byte := 0xFF

  function ControllerOf(name: string): Controller {
    if name == "SSD1306" then Ssd1306 else if name == "SH1106" then Sh1106 else if name == "AUTO" then Auto
    else UnknownController
  }

  /** Narrowing to an unsigned field. */
  function Narrow(v: nat, max: nat): (r: nat)
    ensures r <= max
  {
    Min(v, max)
  }

  function NarrowI8(v: int): int { if v < -128 then -128 else if v > 127 then 127 else v }

  // ---- what one pair does to a group ----

  function OledField(g: Oled, kv: KeyValue): Oled {
    if kv.key == "a" then
      match HexOf(kv.value) { case Some(v) => g.(address := Narrow(v, 0xFF)) case None => g }
    else if kv.key == "c" then g.(controller := ControllerOf(kv.value))
    else if kv.key == "err" then
      match U64Of(kv.value) { case Some(v) => g.(errCount := v) case None => g }
    else if kv.key == "ok" then
      match U64Of(kv.value) { case Some(v) => g.(ok := v != 0) case None => g }
    else g
  }

  function TransportField(g: Transport, kv: KeyValue): Transport {
    if kv.key == "rssi" then
      match I64Of(kv.value) { case Some(v) => g.(rssi := NarrowI8(v)) case None => g }
    else if kv.key == "ch" then
      match U64Of(kv.value) { case Some(v) => g.(channel := Narrow(v, 0xFF)) case None => g }
    else g
  }

  function MemoryField(g: Memory, kv: KeyValue): Memory {
    match U64Of(kv.value) {
      case None => g
      case Some(v) =>
        if kv.key == "h" then g.(free := v) else if kv.key == "lg" then g.(largest := v)
        else if kv.key == "mn" then g.(minFree := v) else g
    }
  }

  function DisplayField(g: Display, kv: KeyValue): Display {
    if kv.key == "f" then
      match FpsOf(kv.value) { case Some(v) => g.(fps := Narrow(v, U32_MAX)) case None => g }
    else
      match U64Of(kv.value) {
        case None => g
        case Some(v) =>
          if kv.key == "id" then g.(frameId := Narrow(v, 0xFFFF))
          else if kv.key == "t" then g.(frameType := Narrow(v, 0xFF))
          else if kv.key == "r" then g.(rects := Narrow(v, U32_MAX))
          else if kv.key == "b" then g.(bytes := Narrow(v, U32_MAX))
          else if kv.key == "e" then g.(elapsedMs := v)
          else if kv.key == "d" then g.(dropped := v)
          else if kv.key == "q" then g.(queueFull := v)
          else g
      }
  }

  /** The locals of the session parser: a half-parsed pair of counters still overwrites the first one. */
  datatype SessionScan = SessionScan(state: byte, haveHello: bool, havePing: bool, txHello: nat, rxHello: nat, txPing: nat,
                                     rxPing: nat)

  /** "tx/rx": the first number if it parses, and the second if both do. */
  function TwoCounters(value: string): (Option<nat>, Option<nat>) {
    var slash := IndexOf(value, '/');
    if slash == |value| then (None, None)
    else
      var tx := U64Of(value[..slash]);
      (tx, if tx.Some? then U64Of(value[slash + 1..]) else None)
  }

  function SessionField(g: SessionScan, kv: KeyValue): SessionScan {
    if kv.key == "st" then
      match U64Of(kv.value) { case Some(v) => g.(state := Narrow(v, 0xFF)) case None => g }
    else if kv.key == "h" then
      var (tx, rx) := TwoCounters(kv.value);
      if tx.Some? && rx.Some? then g.(txHello := tx.value, rxHello := rx.value, haveHello := true)
      else if tx.Some? then g.(txHello := tx.value)
      else g
    else if kv.key == "p" then
      var (tx, rx) := TwoCounters(kv.value);
      if tx.Some? && rx.Some? then g.(txPing := tx.value, rxPing := rx.value, havePing := true)
      else if tx.Some? then g.(txPing := tx.value)
      else g
    else g
  }

  function ScanSession(s: Session): SessionScan { SessionScan(s.state, false, false, 0, 0, 0, 0) }

  function SessionOf(s: Session, g: SessionScan): Session {
    Session(g.state,
            if g.haveHello then g.txHello > 0 && g.rxHello > 0 else s.helloOk,
            if g.havePing then g.rxPing > 0 else s.pingOk)
  }

  function ModeField(g: Mode, kv: KeyValue): Mode {
    if kv.key == "sw" then
      match U64Of(kv.value) { case Some(v) => g.(mode := Narrow(v, 3)) case None => g }
    else if kv.key == "st" then
      match I64Of(kv.value) { case Some(v) => g.(router := if v < 0 || v > 3 then UNKNOWN else v) case None => g }
    else if kv.key == "scene" then
      match I64Of(kv.value) { case Some(v) => g.(scene := if v == 0 || v == 1 then v else UNKNOWN) case None => g }
    else g
  }

  datatype Kind = OledLine | TransportLine | MemoryLine | DisplayLine | SessionLine | ModeLine

  function KindOf(word: string): Option<Kind> {
    if word == "oled" then Some(OledLine) else if word == "trx" then Some(TransportLine)
    else if word == "mem" then Some(MemoryLine) else if word == "disp" then Some(DisplayLine)
    else if word == "sess" then Some(SessionLine) else if word == "mod" then Some(ModeLine) else None
  }

  /** The pairs of a line update the group of its kind. */
  function Update(kind: Kind, kvs: seq<KeyValue>, st: Status): Status {
    match kind
    case OledLine => st.(oled := Fold(st.oled, kvs, OledField), oledValid := true)
    case TransportLine => st.(transport := Fold(st.transport, kvs, TransportField), transportValid := true)
    case MemoryLine => st.(memory := Fold(st.memory, kvs, MemoryField), memoryValid := true)
    case DisplayLine => st.(display := Fold(st.display, kvs, DisplayField), displayValid := true)
    case SessionLine =>
      st.(session := SessionOf(st.session, Fold(ScanSession(st.session), kvs, SessionField)), sessionValid := true)
    case ModeLine => st.(mode := Fold(st.mode, kvs, ModeField), modeValid := true)
  }

  /** A whole line: false, and nothing updated, if its first word names none of the six kinds. */
  function Read(line: string, st: Status): (bool, Status) {
    var (word, rest) := NextToken(line);
    match KindOf(word)
    case Some(kind) => (true, Update(kind, Pairs(rest), st))
    case None => (false, st)
  }

  /** parsePhysicalStatusLine. */
  method ParsePhysicalStatusLine(line: string, st: Status) returns (ok: bool, st': Status)
    ensures (ok, st') == Read(line, st)
  {
    hide HexOf, U64Of, I64Of, FpsOf, Fold, Pairs, NextToken;
    st' := st;
    var kind, rest := ReadToken(line);
    if kind == "oled" {
      var g := ParseFields(rest, st.oled, OledField);
      return true, st.(oled := g, oledValid := true);
    }
    if kind == "trx" {
      var g := ParseFields(rest, st.transport, TransportField);
      return true, st.(transport := g, transportValid := true);
    }
    if kind == "mem" {
      var g := ParseFields(rest, st.memory, MemoryField);
      return true, st.(memory := g, memoryValid := true);
    }
    if kind == "disp" {
      var g := ParseFields(rest, st.display, DisplayField);
      return true, st.(display := g, displayValid := true);
    }
    if kind == "sess" {
      var g := ParseFields(rest, ScanSession(st.session), SessionField);
      return true, st.(session := SessionOf(st.session, g), sessionValid := true);
    }
    if kind == "mod" {
      var g := ParseFields(rest, st.mode, ModeField);
      return true, st.(mode := g, modeValid := true);
    }
    ok := false;
  }

  // ---- lines and their order ----

  lemma UpdatesCommute(a: Kind, x: seq<KeyValue>, b: Kind, y: seq<KeyValue>, st: Status)
    requires a != b
    ensures Update(b, y, Update(a, x, st)) == Update(a, x, Update(b, y, st))
  {
    hide Fold, SessionOf;
  }

  /** Lines of different kinds may arrive in either order. */
  lemma DifferentKindsCommute(a: string, b: string, st: Status)
    requires KindOf(NextToken(a).0) != KindOf(NextToken(b).0)
    ensures Read(b, Read(a, st).1).1 == Read(a, Read(b, st).1).1
  {
    hide NextToken, Pairs, KindOf, Update;
    var ka, kb := KindOf(NextToken(a).0), KindOf(NextToken(b).0);
    if ka.Some? && kb.Some? {
      UpdatesCommute(ka.value, Pairs(NextToken(a).1), kb.value, Pairs(NextToken(b).1), st);
    }
  }
}
