/** The telemetry lines the firmware prints (esp32/main/main.cpp:726-731, 1008-1016, 1082-1143), and that parsing a
    printed line recovers what was printed. */
module TelemetryPrinters {
  import opened Wire
  import opened Text
  import opened NumberParsers
  import opened Telemetry

  const MAX_LINE := 64

  // ---- words and lines ----

  predicate Word(s: string) { s != [] && forall i | 0 <= i < |s| :: !IsBlank(s[i]) }

  predicate AllWords(ws: seq<string>) { forall i | 0 <= i < |ws| :: Word(ws[i]) }

  function Spaced(ws: seq<string>): string { if ws == [] then "" else " " + ws[0] + Spaced(ws[1..]) }

  lemma SpacedStart(ws: seq<string>)
    ensures Spaced(ws) == "" || IsBlank(Spaced(ws)[0])
  {
  }

  lemma WordIsToken(w: string, tail: string)
    requires Word(w) && (tail == "" || IsBlank(tail[0]))
    ensures NextToken(w + tail) == (w, tail) && NextToken(" " + w + tail) == (w, tail)
  {
    var s, t := w + tail, " " + w + tail;
    assert forall i | 0 <= i < |w| :: s[i] == w[i] && t[i + 1] == w[i];
    assert tail != "" ==> s[|w|] == tail[0];
    assert Blanks(s) == 0 && WordLength(s) == |w|;
    assert s[0..] == s && s[..|w|] == w && s[|w|..] == tail;
    assert t[1..] == s && Blanks(t) == 1;
  }

  /** A space, tab, return or newline ends a word, and is skipped before one. */
  lemma BlanksSeparate(w: string, c: char, tail: string)
    requires w != "" && (forall i | 0 <= i < |w| :: w[i] !in " \t\r\n") && c in " \t\r\n"
    ensures NextToken(w + ([c] + tail)) == (w, [c] + tail)
    ensures NextToken([c] + tail) == NextToken(tail)
  {
    assert Word(w) && IsBlank(c);
    WordIsToken(w, [c] + tail);
    OneBlank(c, tail);
  }

  lemma OneBlank(c: char, s: string)
    requires IsBlank(c)
    ensures NextToken([c] + s) == NextToken(s)
  {
    var t := [c] + s;
    assert t[1..] == s;
    assert t[Blanks(t)..] == s[Blanks(s)..];
  }

  /** The first '=' ends the key; the value may hold others. */
  lemma FirstEqualsSplits(key: string, value: string)
    requires '=' !in key
    ensures PairOf(key + "=" + value) == Some(KeyValue(key, value))
  {
    IndexOfJoined(key, '=', value);
    var s := key + ['='] + value;
    assert s == key + "=" + value && s[..|key|] == key && s[|key| + 1..] == value;
  }

  lemma {:induction false} SpacedIsRead(ws: seq<string>)
    requires AllWords(ws)
    ensures Tokens(Spaced(ws)) == ws
    decreases |ws|
  {
    hide NextToken;
    if ws == [] {
      NothingToRead();
    } else {
      SpacedStart(ws[1..]);
      WordIsToken(ws[0], Spaced(ws[1..]));
      SpacedIsRead(ws[1..]);
    }
  }

  lemma NothingToRead()
    ensures Tokens("") == []
  {
  }

  lemma LineStart(w: string, ws: seq<string>)
    requires Word(w) && AllWords(ws)
    ensures NextToken(w + Spaced(ws)) == (w, Spaced(ws)) && Tokens(Spaced(ws)) == ws
  {
    SpacedStart(ws);
    WordIsToken(w, Spaced(ws));
    SpacedIsRead(ws);
  }

  lemma {:induction false} PairsOfConcat(a: seq<string>, b: seq<string>)
    ensures PairsOf(a + b) == PairsOf(a) + PairsOf(b)
    decreases |a|
  {
    hide PairOf;
    if a == [] {
      assert a + b == b;
    } else {
      assert (a + b)[1..] == a[1..] + b;
      PairsOfConcat(a[1..], b);
      var first := if PairOf(a[0]).Some? then [PairOf(a[0]).value] else [];
      assert first + (PairsOf(a[1..]) + PairsOf(b)) == first + PairsOf(a[1..]) + PairsOf(b);
    }
  }

  /** A word without '=' anywhere in a line has no effect. */
  lemma BareWordsDoNothing(w: string, before: seq<string>, bare: string, after: seq<string>, st: Status)
    requires Word(w) && AllWords(before) && Word(bare) && '=' !in bare && AllWords(after)
    ensures Read(w + Spaced(before + [bare] + after), st) == Read(w + Spaced(before + after), st)
  {
    hide NextToken, Update, KindOf, Tokens, Spaced;
    LineStart(w, before + [bare] + after);
    LineStart(w, before + after);
    PairsOfConcat(before + [bare], after);
    PairsOfConcat(before, [bare]);
    PairsOfConcat(before, after);
    IndexOfNone(bare, '=');
    BareAlone(bare);
    assert PairsOf(before) + [] == PairsOf(before);
  }

  lemma BareAlone(bare: string)
    requires PairOf(bare).None?
    ensures PairsOf([bare]) == []
  {
    hide PairOf;
    assert [bare][1..] == [];
  }

  // ---- key=value words ----

  function KeyText(kv: KeyValue): string { kv.key + "=" + kv.value }

  function Texts(kvs: seq<KeyValue>): (ws: seq<string>)
    ensures |ws| == |kvs| && forall i | 0 <= i < |kvs| :: ws[i] == KeyText(kvs[i])
  {
    if kvs == [] then [] else [KeyText(kvs[0])] + Texts(kvs[1..])
  }

  /** Neither blank nor '='. */
  predicate Clean(s: string) { forall i | 0 <= i < |s| :: !IsBlank(s[i]) && s[i] != '=' }

  predicate CleanPair(kv: KeyValue) { Clean(kv.key) && Clean(kv.value) }

  predicate AllClean(kvs: seq<KeyValue>) { forall i | 0 <= i < |kvs| :: CleanPair(kvs[i]) }

  lemma CleanIsRead(kv: KeyValue)
    requires CleanPair(kv)
    ensures Word(KeyText(kv)) && PairOf(KeyText(kv)) == Some(kv)
  {
    var s := KeyText(kv);
    assert '=' !in kv.key;
    IndexOfJoined(kv.key, '=', kv.value);
    assert s == kv.key + ['='] + kv.value;
    assert s[..|kv.key|] == kv.key && s[|kv.key| + 1..] == kv.value;
    forall i | 0 <= i < |s| ensures !IsBlank(s[i]) {
      assert i < |kv.key| ==> s[i] == kv.key[i];
      assert i > |kv.key| ==> s[i] == kv.value[i - |kv.key| - 1];
    }
  }

  lemma {:induction false} TextsAreRead(kvs: seq<KeyValue>)
    requires AllClean(kvs)
    ensures AllWords(Texts(kvs)) && PairsOf(Texts(kvs)) == kvs
    decreases |kvs|
  {
    hide PairOf, KeyText;
    if kvs != [] {
      assert CleanPair(kvs[0]);
      CleanIsRead(kvs[0]);
      TextsAreRead(kvs[1..]);
      assert Texts(kvs)[1..] == Texts(kvs[1..]);
      assert kvs == [kvs[0]] + kvs[1..];
      forall i | 0 <= i < |kvs| ensures Word(Texts(kvs)[i]) {
        assert i > 0 ==> Texts(kvs)[i] == Texts(kvs[1..])[i - 1];
      }
    }
  }

  function Line(word: string, kvs: seq<KeyValue>): string { word + Spaced(Texts(kvs)) }

  lemma LineIsRead(word: string, kind: Kind, kvs: seq<KeyValue>, st: Status)
    requires Word(word) && KindOf(word) == Some(kind) && AllClean(kvs)
    ensures Read(Line(word, kvs), st) == (true, Update(kind, kvs, st))
  {
    hide NextToken, Update, KindOf, Tokens, Spaced, Texts;
    TextsAreRead(kvs);
    LineStart(word, Texts(kvs));
  }

  lemma Kinds()
    ensures KindOf("oled") == Some(OledLine) && KindOf("trx") == Some(TransportLine) && KindOf("mem") == Some(MemoryLine)
    ensures KindOf("disp") == Some(DisplayLine) && KindOf("sess") == Some(SessionLine) && KindOf("mod") == Some(ModeLine)
    ensures Word("oled") && Word("trx") && Word("mem") && Word("disp") && Word("sess") && Word("mod")
  {
  }

  // ---- clean values ----

  lemma DigitsAreClean(base: nat, s: string)
    requires AllDigits(base, s)
    ensures Clean(s)
  {
    forall i | 0 <= i < |s| ensures !IsBlank(s[i]) && s[i] != '=' {
      assert IsDigitIn(base, s[i]);
    }
  }

  lemma DecimalIsClean(n: nat)
    ensures Clean(Decimal(n))
  {
    DecimalIsRead(n);
    DigitsAreClean(10, Decimal(n));
  }

  lemma SignedIsClean(n: int)
    ensures Clean(SignedDecimal(n))
  {
    DecimalIsClean(if n < 0 then -n else n);
  }

  // ---- applying a few pairs ----

  lemma FoldTwo<G>(g: G, a: KeyValue, b: KeyValue, rest: seq<KeyValue>, field: (G, KeyValue) -> G)
    ensures Fold(g, [a, b] + rest, field) == Fold(field(field(g, a), b), rest, field)
  {
    var kvs := [a, b] + rest;
    assert kvs[1..] == [b] + rest;
    assert kvs[1..][1..] == rest;
  }

  lemma FoldFour<G>(g: G, a: KeyValue, b: KeyValue, c: KeyValue, d: KeyValue, field: (G, KeyValue) -> G)
    ensures Fold(g, [a, b, c, d], field) == field(field(field(field(g, a), b), c), d)
  {
    assert [a, b, c, d] == [a, b] + [c, d] && [c, d] == [c, d] + [];
    FoldTwo(g, a, b, [c, d], field);
    FoldTwo(field(field(g, a), b), c, d, [], field);
  }

  lemma FoldThree<G>(g: G, a: KeyValue, b: KeyValue, c: KeyValue, field: (G, KeyValue) -> G)
    ensures Fold(g, [a, b, c], field) == field(field(field(g, a), b), c)
  {
    assert [a, b, c] == [a, b] + [c];
    FoldTwo(g, a, b, [c], field);
    assert [c][1..] == [];
  }

  // ---- the oled line ----

  function ControllerName(c: Controller): string {
    match c
    case Ssd1306 => "SSD1306"
    case Sh1106 => "SH1106"
    case Auto => "AUTO"
    case UnknownController => "UNKNOWN"
  }

  function OledPairs(address: byte, c: Controller, errors: nat, ok: bool): seq<KeyValue> {
    [KeyValue("a", "0x" + Hex2(address)), KeyValue("c", ControllerName(c)), KeyValue("err", Decimal(Min(errors, 99999))),
     KeyValue("ok", if ok then "1" else "0")]
  }

  function OledText(address: byte, c: Controller, errors: nat, ok: bool): string {
    Line("oled", OledPairs(address, c, errors, ok))
  }

  lemma OledClean(address: byte, c: Controller, errors: nat, ok: bool)
    ensures AllClean(OledPairs(address, c, errors, ok))
  {
    hide Decimal;
    Hex2IsRead(address);
    DigitsAreClean(16, Hex2(address));
    DecimalIsClean(Min(errors, 99999));
  }

  lemma FlagIsRead(b: bool)
    ensures U64Of(if b then "1" else "0") == Some(if b then 1 else 0)
  {
    U64IsRead(if b then 1 else 0);
    assert Decimal(1) == "1" && Decimal(0) == "0";
  }

  lemma OledRoundTrip(address: byte, c: Controller, errors: nat, ok: bool, st: Status)
    ensures Read(OledText(address, c, errors, ok), st) ==
            (true, st.(oled := Oled(address, c, Min(errors, 99999), ok), oledValid := true))
  {
    hide Line, Fold, OledField, OledPairs, KindOf, Word, AllClean;
    Kinds();
    OledClean(address, c, errors, ok);
    LineIsRead("oled", OledLine, OledPairs(address, c, errors, ok), st);
    OledFields(address, c, errors, ok, st.oled);
  }

  lemma OledFields(address: byte, c: Controller, errors: nat, ok: bool, g: Oled)
    ensures Fold(g, OledPairs(address, c, errors, ok), OledField) == Oled(address, c, Min(errors, 99999), ok)
  {
    hide Decimal, Hex2, HexOf, U64Of, Fold;
    var kvs := OledPairs(address, c, errors, ok);
    HexIsRead(address);
    U64IsRead(Min(errors, 99999));
    FlagIsRead(ok);
    FoldFour(g, kvs[0], kvs[1], kvs[2], kvs[3], OledField);
  }

  // ---- the mem line ----

  const MEM_CLAMP := 99999999

  function MemPairs(free: nat, largest: nat, minFree: nat): seq<KeyValue> {
    [KeyValue("h", Decimal(Min(free, MEM_CLAMP))), KeyValue("lg", Decimal(Min(largest, MEM_CLAMP))),
     KeyValue("mn", Decimal(Min(minFree, MEM_CLAMP)))]
  }

  lemma MemRoundTrip(free: nat, largest: nat, minFree: nat, st: Status)
    ensures Read(Line("mem", MemPairs(free, largest, minFree)), st) ==
            (true, st.(memory := Memory(Min(free, MEM_CLAMP), Min(largest, MEM_CLAMP), Min(minFree, MEM_CLAMP)),
                       memoryValid := true))
  {
    hide Decimal, Line, U64Of, Fold;
    var kvs := MemPairs(free, largest, minFree);
    DecimalIsClean(Min(free, MEM_CLAMP));
    DecimalIsClean(Min(largest, MEM_CLAMP));
    DecimalIsClean(Min(minFree, MEM_CLAMP));
    LineIsRead("mem", MemoryLine, kvs, st);
    U64IsRead(Min(free, MEM_CLAMP));
    U64IsRead(Min(largest, MEM_CLAMP));
    U64IsRead(Min(minFree, MEM_CLAMP));
    FoldThree(st.memory, kvs[0], kvs[1], kvs[2], MemoryField);
  }

  // ---- the trx line: only the signal fields are kept ----

  datatype Diagnosis = Diagnosis(tcp: bool, state: byte, switches: nat, reconnects: nat, txBytes: nat, rxBytes: nat,
                                 rssi: int, channel: byte)

  const TRX_CLAMP := 9999

  function TrxOthers(d: Diagnosis): seq<KeyValue> {
    [KeyValue("tr", if d.tcp then "1" else "0"), KeyValue("st", Decimal(d.state)),
     KeyValue("sw", Decimal(Min(d.switches, TRX_CLAMP))), KeyValue("rc", Decimal(Min(d.reconnects, TRX_CLAMP))),
     KeyValue("tx", Decimal(Min(d.txBytes, TRX_CLAMP))), KeyValue("rx", Decimal(Min(d.rxBytes, TRX_CLAMP)))]
  }

  function TrxPairs(d: Diagnosis): seq<KeyValue> {
    TrxOthers(d) + [KeyValue("rssi", SignedDecimal(d.rssi)), KeyValue("ch", Decimal(d.channel))]
  }

  lemma TrxClean(d: Diagnosis)
    ensures AllClean(TrxPairs(d))
  {
    hide Decimal, SignedDecimal;
    DecimalIsClean(d.state);
    DecimalIsClean(Min(d.switches, TRX_CLAMP));
    DecimalIsClean(Min(d.reconnects, TRX_CLAMP));
    DecimalIsClean(Min(d.txBytes, TRX_CLAMP));
    DecimalIsClean(Min(d.rxBytes, TRX_CLAMP));
    SignedIsClean(d.rssi);
    DecimalIsClean(d.channel);
  }

  lemma {:induction false} FoldSkips<G>(g: G, skipped: seq<KeyValue>, rest: seq<KeyValue>, field: (G, KeyValue) -> G)
    requires forall i | 0 <= i < |skipped| :: field(g, skipped[i]) == g
    ensures Fold(g, skipped + rest, field) == Fold(g, rest, field)
    decreases |skipped|
  {
    if skipped == [] {
      assert skipped + rest == rest;
    } else {
      assert (skipped + rest)[1..] == skipped[1..] + rest;
      FoldSkips(g, skipped[1..], rest, field);
    }
  }

  lemma TrxFields(d: Diagnosis, g: Transport)
    requires -128 <= d.rssi <= 127
    ensures Fold(g, TrxPairs(d), TransportField) == Transport(d.rssi, d.channel)
  {
    hide Decimal, SignedDecimal, U64Of, I64Of, Fold;
    I64IsRead(d.rssi);
    U64IsRead(d.channel);
    var a, b := KeyValue("rssi", SignedDecimal(d.rssi)), KeyValue("ch", Decimal(d.channel));
    FoldSkips(g, TrxOthers(d), [a, b], TransportField);
    FoldJustTwo(g, a, b, TransportField);
  }

  lemma FoldJustTwo<G>(g: G, a: KeyValue, b: KeyValue, field: (G, KeyValue) -> G)
    ensures Fold(g, [a, b], field) == field(field(g, a), b)
  {
    assert [a, b] == [a, b] + [];
    FoldTwo(g, a, b, [], field);
  }

  lemma TrxRoundTrip(d: Diagnosis, st: Status)
    requires -128 <= d.rssi <= 127
    ensures Read(Line("trx", TrxPairs(d)), st) ==
            (true, st.(transport := Transport(d.rssi, d.channel), transportValid := true))
  {
    hide Line, Fold, TransportField, TrxPairs, KindOf, Word, AllClean;
    Kinds();
    TrxClean(d);
    LineIsRead("trx", TransportLine, TrxPairs(d), st);
    TrxFields(d, st.transport);
  }

  // ---- the sess line ----

  const SESS_CLAMP := 99999

  function TwoText(tx: nat, rx: nat): string { Decimal(Min(tx, SESS_CLAMP)) + "/" + Decimal(Min(rx, SESS_CLAMP)) }

  lemma TwoIsRead(tx: nat, rx: nat)
    ensures TwoCounters(TwoText(tx, rx)) == (Some(Min(tx, SESS_CLAMP)), Some(Min(rx, SESS_CLAMP))) && Clean(TwoText(tx, rx))
  {
    hide Decimal, U64Of;
    var a, b := Decimal(Min(tx, SESS_CLAMP)), Decimal(Min(rx, SESS_CLAMP));
    DecimalIsRead(Min(tx, SESS_CLAMP));
    U64IsRead(Min(tx, SESS_CLAMP));
    U64IsRead(Min(rx, SESS_CLAMP));
    DecimalIsClean(Min(tx, SESS_CLAMP));
    DecimalIsClean(Min(rx, SESS_CLAMP));
    forall i | 0 <= i < |a| ensures a[i] != '/' {
      assert IsDigitIn(10, a[i]);
    }
    IndexOfJoined(a, '/', b);
    var s := TwoText(tx, rx);
    assert s == a + ['/'] + b && s[..|a|] == a && s[|a| + 1..] == b;
  }

  function SessPairs(state: byte, txHello: nat, rxHello: nat, txPing: nat, rxPing: nat): seq<KeyValue> {
    [KeyValue("st", Decimal(state)), KeyValue("h", TwoText(txHello, rxHello)), KeyValue("p", TwoText(txPing, rxPing))]
  }

  lemma SessClean(state: byte, txHello: nat, rxHello: nat, txPing: nat, rxPing: nat)
    ensures AllClean(SessPairs(state, txHello, rxHello, txPing, rxPing))
  {
    hide Decimal, TwoCounters, TwoText;
    DecimalIsClean(state);
    TwoIsRead(txHello, rxHello);
    TwoIsRead(txPing, rxPing);
  }

  /** The state and the two liveness flags survive the clamping of the counters. */
  lemma SessRoundTrip(state: byte, txHello: nat, rxHello: nat, txPing: nat, rxPing: nat, st: Status)
    ensures Read(Line("sess", SessPairs(state, txHello, rxHello, txPing, rxPing)), st) ==
            (true, st.(session := Session(state, txHello > 0 && rxHello > 0, rxPing > 0), sessionValid := true))
  {
    hide Line, Fold, SessionField, SessPairs, KindOf, Word, AllClean;
    Kinds();
    SessClean(state, txHello, rxHello, txPing, rxPing);
    LineIsRead("sess", SessionLine, SessPairs(state, txHello, rxHello, txPing, rxPing), st);
    SessFields(state, txHello, rxHello, txPing, rxPing, ScanSession(st.session));
  }

  lemma SessFields(state: byte, txHello: nat, rxHello: nat, txPing: nat, rxPing: nat, g: SessionScan)
    ensures Fold(g, SessPairs(state, txHello, rxHello, txPing, rxPing), SessionField) ==
            SessionScan(state, true, true, Min(txHello, SESS_CLAMP), Min(rxHello, SESS_CLAMP), Min(txPing, SESS_CLAMP),
                        Min(rxPing, SESS_CLAMP))
  {
    hide Decimal, U64Of, TwoCounters, TwoText, Fold;
    var kvs := SessPairs(state, txHello, rxHello, txPing, rxPing);
    TwoIsRead(txHello, rxHello);
    TwoIsRead(txPing, rxPing);
    U64IsRead(state);
    FoldThree(g, kvs[0], kvs[1], kvs[2], SessionField);
  }

  // ---- the mod line ----

  function ModPairs(mode: nat, router: int, scene: int): seq<KeyValue> {
    [KeyValue("sw", Decimal(mode)), KeyValue("st", SignedDecimal(router)), KeyValue("scene", SignedDecimal(scene))]
  }

  lemma ModClean(mode: nat, router: int, scene: int)
    ensures AllClean(ModPairs(mode, router, scene))
  {
    hide Decimal, SignedDecimal;
    DecimalIsClean(mode);
    SignedIsClean(router);
    SignedIsClean(scene);
  }

  /** -1, for no router or no display, comes back as unknown. */
  lemma ModRoundTrip(mode: nat, router: int, scene: int, st: Status)
    requires mode <= 3 && -1 <= router <= 3 && -1 <= scene <= 1
    ensures Read(Line("mod", ModPairs(mode, router, scene)), st) ==
            (true, st.(mode := Mode(mode, if router < 0 then UNKNOWN else router, if scene < 0 then UNKNOWN else scene),
                       modeValid := true))
  {
    hide Line, Fold, ModeField, ModPairs, KindOf, Word, AllClean;
    Kinds();
    ModClean(mode, router, scene);
    LineIsRead("mod", ModeLine, ModPairs(mode, router, scene), st);
    ModFields(mode, router, scene, st.mode);
  }

  lemma ModFields(mode: nat, router: int, scene: int, g: Mode)
    requires mode <= 3 && -1 <= router <= 3 && -1 <= scene <= 1
    ensures Fold(g, ModPairs(mode, router, scene), ModeField) ==
            Mode(mode, if router < 0 then UNKNOWN else router, if scene < 0 then UNKNOWN else scene)
  {
    hide Decimal, SignedDecimal, U64Of, I64Of, Fold;
    var kvs := ModPairs(mode, router, scene);
    U64IsRead(mode);
    I64IsRead(router);
    I64IsRead(scene);
    FoldThree(g, kvs[0], kvs[1], kvs[2], ModeField);
  }

  // ---- every one of these lines fits its buffer and the message ----

  function TotalLength(kvs: seq<KeyValue>): nat {
    if kvs == [] then 0 else 2 + |kvs[0].key| + |kvs[0].value| + TotalLength(kvs[1..])
  }

  lemma {:induction false} LineLength(word: string, kvs: seq<KeyValue>)
    ensures |Line(word, kvs)| == |word| + TotalLength(kvs)
    decreases |kvs|
  {
    if kvs != [] {
      LineLength(word, kvs[1..]);
      assert Texts(kvs)[1..] == Texts(kvs[1..]);
    }
  }

  lemma Length3(a: KeyValue, b: KeyValue, c: KeyValue)
    ensures TotalLength([a, b, c]) == 6 + |a.key| + |a.value| + |b.key| + |b.value| + |c.key| + |c.value|
  {
    hide TotalLength;
    assert [a, b, c] == [a] + [b] + [c];
    LengthConcat([a] + [b], [c]);
    LengthConcat([a], [b]);
    Length1(a);
    Length1(b);
    Length1(c);
  }

  lemma {:induction false} LengthConcat(a: seq<KeyValue>, b: seq<KeyValue>)
    ensures TotalLength(a + b) == TotalLength(a) + TotalLength(b)
    decreases |a|
  {
    if a == [] {
      assert a + b == b;
    } else {
      assert (a + b)[1..] == a[1..] + b;
      LengthConcat(a[1..], b);
    }
  }

  lemma Powers()
    ensures Pow10(1) == 10 && Pow10(3) == 1000 && Pow10(4) == 10000 && Pow10(5) == 100000 && Pow10(8) == 100000000
  {
    assert Pow10(2) == 100;
    assert Pow10(6) == 1000000;
  }

  lemma OledAndMemFit(address: byte, c: Controller, errors: nat, ok: bool, free: nat, largest: nat, minFree: nat)
    ensures |OledText(address, c, errors, ok)| <= MAX_LINE
    ensures |Line("mem", MemPairs(free, largest, minFree))| <= MAX_LINE
  {
    hide Decimal, Hex2, Line, Pow10, TotalLength;
    Powers();
    var o, m := OledPairs(address, c, errors, ok), MemPairs(free, largest, minFree);
    DecimalIsShort(Min(errors, 99999), 5);
    DecimalIsShort(Min(free, MEM_CLAMP), 8);
    DecimalIsShort(Min(largest, MEM_CLAMP), 8);
    DecimalIsShort(Min(minFree, MEM_CLAMP), 8);
    LineLength("oled", o);
    LineLength("mem", m);
    assert o == [o[0], o[1], o[2]] + [o[3]];
    LengthConcat([o[0], o[1], o[2]], [o[3]]);
    Length3(o[0], o[1], o[2]);
    Length3(m[0], m[1], m[2]);
    HexLength(address);
    Length1(o[3]);
  }

  lemma HexLength(n: byte)
    ensures |Hex2(n)| == 2
  {
  }

  lemma Length1(a: KeyValue)
    ensures TotalLength([a]) == 2 + |a.key| + |a.value|
  {
    assert [a][1..] == [];
  }

  const LONGEST := Diagnosis(true, 255, 9999, 9999, 9999, 9999, -128, 255)

  lemma TrxLength(d: Diagnosis)
    ensures |Line("trx", TrxPairs(d))| ==
            38 + |Decimal(d.state)| + |Decimal(Min(d.switches, TRX_CLAMP))| + |Decimal(Min(d.reconnects, TRX_CLAMP))|
            + |Decimal(Min(d.txBytes, TRX_CLAMP))| + |Decimal(Min(d.rxBytes, TRX_CLAMP))| + |SignedDecimal(d.rssi)|
            + |Decimal(d.channel)|
  {
    hide Decimal, SignedDecimal, Line, TotalLength;
    var o, k := TrxOthers(d), TrxPairs(d);
    LineLength("trx", k);
    assert k == [o[0], o[1], o[2]] + [o[3], o[4], o[5]] + [k[6]] + [k[7]];
    LengthConcat([o[0], o[1], o[2]] + [o[3], o[4], o[5]] + [k[6]], [k[7]]);
    LengthConcat([o[0], o[1], o[2]] + [o[3], o[4], o[5]], [k[6]]);
    LengthConcat([o[0], o[1], o[2]], [o[3], o[4], o[5]]);
    Length3(o[0], o[1], o[2]);
    Length3(o[3], o[4], o[5]);
    Length1(k[6]);
    Length1(k[7]);
  }

  lemma LongestLength()
    ensures |Line("trx", TrxPairs(LONGEST))| == MAX_LINE
  {
    hide Line;
    TrxLength(LONGEST);
    assert |Decimal(9)| == 1 && |Decimal(99)| == 2 && |Decimal(999)| == 3 && |Decimal(9999)| == 4;
    assert |Decimal(25)| == 2 && |Decimal(255)| == 3 && |Decimal(12)| == 2 && |Decimal(128)| == 3;
  }

  /** The longest of them takes the 64 characters exactly. */
  lemma TrxFits(d: Diagnosis)
    requires -128 <= d.rssi <= 127
    ensures |Line("trx", TrxPairs(d))| <= MAX_LINE == |Line("trx", TrxPairs(LONGEST))|
  {
    hide Decimal, Line, Pow10, TotalLength;
    Powers();
    LongestLength();
    TrxLength(d);
    DecimalIsShort(d.state, 3);
    DecimalIsShort(Min(d.switches, TRX_CLAMP), 4);
    DecimalIsShort(Min(d.reconnects, TRX_CLAMP), 4);
    DecimalIsShort(Min(d.txBytes, TRX_CLAMP), 4);
    DecimalIsShort(Min(d.rxBytes, TRX_CLAMP), 4);
    DecimalIsShort(if d.rssi < 0 then -d.rssi else d.rssi, 3);
    DecimalIsShort(d.channel, 3);
  }

  lemma SessAndModFit(state: byte, txHello: nat, rxHello: nat, txPing: nat, rxPing: nat, mode: nat, router: int, scene: int)
    requires mode <= 3 && -1 <= router <= 3 && -1 <= scene <= 1
    ensures |Line("sess", SessPairs(state, txHello, rxHello, txPing, rxPing))| < MAX_LINE
    ensures |Line("mod", ModPairs(mode, router, scene))| < MAX_LINE
  {
    hide Decimal, Line, Pow10, TotalLength;
    Powers();
    var s, m := SessPairs(state, txHello, rxHello, txPing, rxPing), ModPairs(mode, router, scene);
    DecimalIsShort(state, 3);
    DecimalIsShort(Min(txHello, SESS_CLAMP), 5);
    DecimalIsShort(Min(rxHello, SESS_CLAMP), 5);
    DecimalIsShort(Min(txPing, SESS_CLAMP), 5);
    DecimalIsShort(Min(rxPing, SESS_CLAMP), 5);
    DecimalIsShort(mode, 1);
    DecimalIsShort(if router < 0 then -router else router, 1);
    DecimalIsShort(if scene < 0 then -scene else scene, 1);
    LineLength("sess", s);
    LineLength("mod", m);
    Length3(s[0], s[1], s[2]);
    Length3(m[0], m[1], m[2]);
  }
}
