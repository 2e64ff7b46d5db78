/** The disp line (esp32/components/lvgl_port/src/lvgl_port.cpp:383-393): the one line printed without clamping, into a
    buffer of 64 bytes. It is recovered exactly as long as it fits. */
module DisplayLines {
  import opened Wire
  import opened Text
  import opened NumberParsers
  import opened Telemetry
  import opened TelemetryPrinters

  /** What snprintf leaves of a line in char buf[64]. */
  const BUFFER_CHARS := 63

  datatype FrameStats = FrameStats(id: u16, ftype: byte, rects: u32, bytes: u32, elapsedMs: nat, fps: nat, dropped: nat,
                                   queueFull: nat)

  predicate Fits64Bits(s: FrameStats) {
    s.elapsedMs <= U64_MAX && s.fps <= U64_MAX && s.dropped <= U64_MAX && s.queueFull <= U64_MAX
  }

  /** The whole frames per second are narrowed to 32 bits for printing. */
  function PrintedFps(fps: nat): nat { fps / 100 % 0x1_0000_0000 * 100 + fps % 100 }

  function Head(s: FrameStats): seq<KeyValue> {
    [KeyValue("id", Decimal(s.id)), KeyValue("t", Decimal(s.ftype)), KeyValue("r", Decimal(s.rects))]
    + [KeyValue("b", Decimal(s.bytes)), KeyValue("e", Decimal(s.elapsedMs)), KeyValue("f", PrintFps(PrintedFps(s.fps))),
       KeyValue("d", Decimal(s.dropped))]
  }

  function Whole(s: FrameStats): string { Line("disp", Head(s) + [KeyValue("q", Decimal(s.queueFull))]) }

  function Printed(s: FrameStats): string { Whole(s)[..Min(BUFFER_CHARS, |Whole(s)|)] }

  /** What a reader should end up with. */
  function Meant(s: FrameStats): Display {
    Display(s.id, s.ftype, s.rects, s.bytes, s.elapsedMs, Min(PrintedFps(s.fps), U32_MAX), s.dropped, s.queueFull)
  }

  // ---- a line that fits ----

  lemma FpsIsClean(n: nat)
    ensures Clean(PrintFps(n))
  {
    DecimalIsClean(n / 100);
    var a, b := Decimal(n / 100), [DecimalDigit(n / 10 % 10), DecimalDigit(n % 10)];
    DigitsAreClean(10, b);
    var s := PrintFps(n);
    assert s == a + "." + b;
    forall i | 0 <= i < |s| ensures !IsBlank(s[i]) && s[i] != '=' {
      assert i < |a| ==> s[i] == a[i];
      assert i > |a| ==> s[i] == b[i - |a| - 1];
    }
  }

  lemma HeadIsClean(s: FrameStats)
    ensures AllClean(Head(s)) && |Head(s)| == 7
  {
    hide Decimal, PrintFps, PrintedFps;
    DecimalIsClean(s.id);
    DecimalIsClean(s.ftype);
    DecimalIsClean(s.rects);
    DecimalIsClean(s.bytes);
    DecimalIsClean(s.elapsedMs);
    FpsIsClean(PrintedFps(s.fps));
    DecimalIsClean(s.dropped);
  }

  lemma CleanSnoc(kvs: seq<KeyValue>, kv: KeyValue)
    requires AllClean(kvs) && CleanPair(kv)
    ensures AllClean(kvs + [kv])
  {
  }

  lemma {:induction false} FoldConcat<G>(g: G, a: seq<KeyValue>, b: seq<KeyValue>, field: (G, KeyValue) -> G)
    ensures Fold(g, a + b, field) == Fold(Fold(g, a, field), b, field)
    decreases |a|
  {
    if a == [] {
      assert a + b == b;
    } else {
      assert (a + b)[1..] == a[1..] + b;
      FoldConcat(field(g, a[0]), a[1..], b, field);
    }
  }

  /** Whatever the last pair is, the first seven set their fields. */
  lemma HeadFields(s: FrameStats, g: Display)
    requires Fits64Bits(s)
    ensures Fold(g, Head(s), DisplayField) == Meant(s).(queueFull := g.queueFull)
  {
    hide Fold, Decimal, PrintFps, PrintedFps, U64Of, FpsOf;
    var h := Head(s);
    var a, b := [h[0], h[1], h[2]], [h[3], h[4], h[5], h[6]];
    FoldConcat(g, a, b, DisplayField);
    FoldThree(g, h[0], h[1], h[2], DisplayField);
    FoldFour(Fold(g, a, DisplayField), h[3], h[4], h[5], h[6], DisplayField);
    U64IsRead(s.id);
    U64IsRead(s.ftype);
    U64IsRead(s.rects);
    U64IsRead(s.bytes);
    U64IsRead(s.elapsedMs);
    FpsIsRead(PrintedFps(s.fps));
    U64IsRead(s.dropped);
  }

  lemma ReadWithQueue(s: FrameStats, value: string, st: Status)
    requires Fits64Bits(s) && Clean(value) && U64Of(value).Some?
    ensures Read(Line("disp", Head(s) + [KeyValue("q", value)]), st).1.display == Meant(s).(queueFull := U64Of(value).value)
  {
    hide Fold, Head, Line, U64Of, FpsOf, KindOf, Word, AllClean, Meant, Read, PairOf, Fits64Bits;
    var q := KeyValue("q", value);
    HeadIsClean(s);
    CleanSnoc(Head(s), q);
    Kinds();
    LineIsRead("disp", DisplayLine, Head(s) + [q], st);
    HeadFields(s, st.display);
    FoldConcat(st.display, Head(s), [q], DisplayField);
    FoldSingle(Meant(s).(queueFull := st.display.queueFull), q, DisplayField);
  }

  lemma FoldSingle<G>(g: G, kv: KeyValue, field: (G, KeyValue) -> G)
    ensures Fold(g, [kv], field) == field(g, kv)
  {
    assert [kv][1..] == [];
  }

  lemma FittingLineIsRead(s: FrameStats, st: Status)
    requires Fits64Bits(s) && |Whole(s)| <= BUFFER_CHARS
    ensures Read(Printed(s), st).1.display == Meant(s)
  {
    hide Line, Head, Read, PrintedFps;
    DecimalIsClean(s.queueFull);
    U64IsRead(s.queueFull);
    ReadWithQueue(s, Decimal(s.queueFull), st);
    assert Printed(s) == Whole(s);
  }

  // ---- a line that is cut inside its last number ----

  lemma {:induction false} CutNumberIsSmaller(s: string, m: nat)
    requires Canonical(s) && 1 <= m < |s|
    ensures AllDigits(10, s[..m]) && NumberOf(10, s[..m]) < NumberOf(10, s) && NumberOf(10, s[..m]) >= 1
    decreases |s| - m, m
  {
    PrefixPositive(s, m);
    if m + 1 < |s| {
      CutNumberIsSmaller(s, m + 1);
    } else {
      assert s[..m + 1] == s;
    }
    NumberSnoc(10, s[..m], s[m]);
    assert s[..m + 1] == s[..m] + [s[m]];
  }

  lemma {:induction false} PrefixPositive(s: string, m: nat)
    requires Canonical(s) && |s| > 1 && 1 <= m <= |s|
    ensures AllDigits(10, s[..m]) && NumberOf(10, s[..m]) >= 1
    decreases m
  {
    assert s[..m] == s[..m - 1] + [s[m - 1]];
    NumberSnoc(10, s[..m - 1], s[m - 1]);
    if m > 1 {
      PrefixPositive(s, m - 1);
    } else {
      assert s[..0] == [];
    }
  }

  lemma WholeParts(s: FrameStats, value: string)
    ensures Line("disp", Head(s) + [KeyValue("q", value)]) == Line("disp", Head(s)) + " q=" + value
  {
    hide Head;
    SpacedConcat(Texts(Head(s)), [KeyText(KeyValue("q", value))]);
    TextsConcat(Head(s), [KeyValue("q", value)]);
    var ws := [KeyText(KeyValue("q", value))];
    assert Texts([KeyValue("q", value)]) == ws;
    SpacedSingle(KeyText(KeyValue("q", value)));
    var l, a := Line("disp", Head(s)), Spaced(Texts(Head(s)));
    assert "disp" + (a + (" " + ("q" + "=" + value))) == "disp" + a + " q=" + value;
  }

  lemma SpacedSingle(w: string)
    ensures Spaced([w]) == " " + w
  {
    assert [w][1..] == [];
  }

  lemma {:induction false} SpacedConcat(a: seq<string>, b: seq<string>)
    ensures Spaced(a + b) == Spaced(a) + Spaced(b)
    decreases |a|
  {
    if a == [] {
      assert a + b == b;
    } else {
      assert (a + b)[1..] == a[1..] + b;
      SpacedConcat(a[1..], b);
    }
  }

  lemma {:induction false} TextsConcat(a: seq<KeyValue>, b: seq<KeyValue>)
    ensures Texts(a + b) == Texts(a) + Texts(b)
    decreases |a|
  {
    if a == [] {
      assert a + b == b;
    } else {
      assert (a + b)[1..] == a[1..] + b;
      TextsConcat(a[1..], b);
    }
  }

  lemma CutInNumber(s: FrameStats, st: Status)
    requires Fits64Bits(s) && |Whole(s)| > BUFFER_CHARS && |Line("disp", Head(s))| + 3 < BUFFER_CHARS
    ensures Read(Printed(s), st).1.display.queueFull < s.queueFull
  {
    hide Line, Head, Read, Meant, Decimal, NumberOf;
    var digits, h := Decimal(s.queueFull), Line("disp", Head(s));
    var m := BUFFER_CHARS - |h| - 3;
    WholeParts(s, digits);
    WholeParts(s, digits[..m]);
    assert Printed(s) == h + " q=" + digits[..m];
    DecimalIsRead(s.queueFull);
    DecimalIsCanonical(s.queueFull);
    CutNumberIsSmaller(digits, m);
    DigitsAreClean(10, digits[..m]);
    ReadWithQueue(s, digits[..m], st);
  }

  // ---- a line that is cut before its last number ----

  /** What a cut leaves of a line: some whole words and the beginning of the next. */
  lemma {:induction false} CutWords(ws: seq<string>, n: nat) returns (k: nat, p: string)
    requires AllWords(ws) && n <= |Spaced(ws)|
    ensures k <= |ws| && Tokens(Spaced(ws)[..n]) == ws[..k] + (if p == "" then [] else [p])
    ensures p != "" ==> k < |ws| && p <= ws[k]
    decreases |ws|
  {
    hide NextToken;
    var t := Spaced(ws);
    if n == 0 {
      NothingToRead();
      k, p := 0, "";
      assert t[..0] == "";
    } else if n <= 1 + |ws[0]| {
      k, p := 0, ws[0][..n - 1];
      assert t[..n] == " " + p;
      LoneWord(p);
    } else {
      var rest := Spaced(ws[1..]);
      var n1 := n - 1 - |ws[0]|;
      k, p := CutWords(ws[1..], n1);
      assert t[..n] == " " + ws[0] + rest[..n1];
      SpacedStart(ws[1..]);
      assert rest != "" ==> rest[..n1][0] == rest[0];
      WordIsToken(ws[0], rest[..n1]);
      assert Tokens(t[..n]) == [ws[0]] + Tokens(rest[..n1]);
      assert ws[..k + 1] == [ws[0]] + ws[1..][..k];
      k := k + 1;
    }
  }

  lemma LoneWord(p: string)
    requires p == "" || Word(p)
    ensures Tokens(" " + p) == if p == "" then [] else [p]
  {
    if p == "" {
      assert Blanks(" ") == 1;
    } else {
      WordIsToken(p, "");
      NothingToRead();
      assert " " + p + "" == " " + p;
    }
  }

  /** The beginning of key=value has the same key, if it has one. */
  lemma BeginningOfPair(kv: KeyValue, p: string)
    requires CleanPair(kv) && p <= KeyText(kv)
    ensures PairOf(p).Some? ==> PairOf(p).value.key == kv.key && |PairOf(p).value.value| <= |kv.value|
  {
    var s, eq := KeyText(kv), IndexOf(p, '=');
    CleanIsRead(kv);
    if eq < |p| {
      assert s[|kv.key|] == '=' && forall j | 0 <= j < |kv.key| :: s[j] == kv.key[j];
      assert p == s[..|p|];
      assert p[eq] == s[eq];
      assert eq == |kv.key|;
      assert p[..eq] == kv.key;
    }
  }

  predicate Unrelated(kv: KeyValue) { kv.key != "q" || kv.value == "" }

  predicate AllUnrelated(kvs: seq<KeyValue>) { forall i | 0 <= i < |kvs| :: Unrelated(kvs[i]) }

  lemma {:induction false} QueueUntouched(g: Display, kvs: seq<KeyValue>)
    requires AllUnrelated(kvs)
    ensures Fold(g, kvs, DisplayField).queueFull == g.queueFull
    decreases |kvs|
  {
    if kvs != [] {
      hide U64Of, FpsOf;
      assert Unrelated(kvs[0]);
      assert U64Of("").None? by { EmptyIsNoNumber(); }
      QueueUntouched(DisplayField(g, kvs[0]), kvs[1..]);
    }
  }

  lemma EmptyIsNoNumber()
    ensures U64Of("").None?
  {
  }

  lemma HeadIsUnrelated(s: FrameStats)
    ensures AllUnrelated(Head(s))
  {
  }

  /** Cut anywhere before the first digit of the last number, the line leaves the old count standing. */
  lemma CutBeforeNumber(s: FrameStats, st: Status)
    requires |Whole(s)| > BUFFER_CHARS && |Line("disp", Head(s))| + 3 >= BUFFER_CHARS
    ensures Read(Printed(s), st).1.display.queueFull == st.display.queueFull
  {
    hide Head, Texts, Spaced, Tokens, NextToken, KindOf, Word, Fold, PairOf, DisplayField, Decimal;
    var kvs := Head(s) + [KeyValue("q", "")];
    var ws := Texts(kvs);
    WholeParts(s, Decimal(s.queueFull));
    WholeParts(s, "");
    var line := Line("disp", kvs);
    assert line == "disp" + Spaced(ws) && line <= Whole(s) && |line| >= BUFFER_CHARS;
    var n := BUFFER_CHARS - 4;
    assert Printed(s) == "disp" + Spaced(ws)[..n];
    HeadIsClean(s);
    CleanSnoc(Head(s), KeyValue("q", ""));
    TextsAreRead(kvs);
    var k, p := CutWords(ws, n);
    Kinds();
    SpacedStart(ws);
    WordIsToken("disp", Spaced(ws)[..n]);
    CutPairs(s, kvs, k, p);
    QueueUntouched(st.display, PairsOf(ws[..k] + (if p == "" then [] else [p])));
  }

  lemma CutPairs(s: FrameStats, kvs: seq<KeyValue>, k: nat, p: string)
    requires kvs == Head(s) + [KeyValue("q", "")] && AllClean(kvs)
    requires k <= |kvs| && (p != "" ==> k < |kvs| && p <= Texts(kvs)[k])
    ensures AllUnrelated(PairsOf(Texts(kvs)[..k] + (if p == "" then [] else [p])))
  {
    hide Head, Texts, PairOf, Unrelated;
    HeadIsUnrelated(s);
    assert Unrelated(KeyValue("q", "")) by { EmptyIsUnrelated(); }
    var ws := Texts(kvs);
    TextsTake(kvs, k);
    TextsAreRead(kvs[..k]);
    PairsOfConcat(ws[..k], if p == "" then [] else [p]);
    assert PairsOf(ws[..k]) == kvs[..k];
    if p == "" {
      assert kvs[..k] + PairsOf([]) == kvs[..k];
    } else {
      BeginningOfPair(kvs[k], p);
      OnePair(p);
      BeginningIsUnrelated(kvs[k], p);
    }
  }

  lemma EmptyIsUnrelated()
    ensures Unrelated(KeyValue("q", ""))
  {
  }

  lemma BeginningIsUnrelated(kv: KeyValue, p: string)
    requires Unrelated(kv) && (PairOf(p).Some? ==> PairOf(p).value.key == kv.key && |PairOf(p).value.value| <= |kv.value|)
    ensures PairOf(p).Some? ==> Unrelated(PairOf(p).value)
  {
    hide PairOf;
  }

  lemma OnePair(p: string)
    ensures PairsOf([p]) == if PairOf(p).Some? then [PairOf(p).value] else []
  {
    hide PairOf;
    assert [p][1..] == [];
  }

  lemma TextsTake(kvs: seq<KeyValue>, k: nat)
    requires k <= |kvs|
    ensures Texts(kvs)[..k] == Texts(kvs[..k])
  {
    hide KeyText;
  }

  // ---- exactly when ----

  /** The line is recovered, whatever was known before, exactly if it fits the buffer. */
  lemma DispSurvivesIff(s: FrameStats)
    requires Fits64Bits(s)
    ensures (forall st :: Read(Printed(s), st).1.display == Meant(s)) <==> |Whole(s)| <= BUFFER_CHARS
  {
    hide Line, Head, Read, Whole, Printed, Decimal;
    if |Whole(s)| <= BUFFER_CHARS {
      forall st ensures Read(Printed(s), st).1.display == Meant(s) {
        FittingLineIsRead(s, st);
      }
    } else {
      var blank := Display(0, 0, 0, 0, 0, 0, 0, s.queueFull + 1);
      var st := Status(Oled(0, UnknownController, 0, false), false, Transport(0, 0), false, Memory(0, 0, 0), false,
                       blank, true, Session(0, false, false), false, Mode(0, 0, 0), false);
      if |Line("disp", Head(s))| + 3 < BUFFER_CHARS {
        CutInNumber(s, st);
      } else {
        CutBeforeNumber(s, st);
      }
      assert Read(Printed(s), st).1.display.queueFull != s.queueFull;
    }
  }
}
