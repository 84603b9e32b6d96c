/**
 * What an escape sequence is, byte by byte: control sequences and control strings (sections 5.4 and 5.6 of ECMA-48),
 * charset designations and two-character escapes. Both scanners are measured against it: streams of text and such
 * sequences show their text and nothing else, however they are cut, and an unfinished sequence is held back whole.
 */
module Sequences {
  import opened Bytes
  import opened Utf8
  import opened EscapeScan
  import opened StripAnsi
  import opened SplitSafety
  import opened Retention
  import opened TranscriptRuns
  import opened HeldPrefixes
  import opened TornCuts

  // ---------------------------------------------------------------------
  // Sequences
  // ---------------------------------------------------------------------

  /** `ESC [`, a body without a byte from `@` to `~`, and one such byte. */
  predicate IsControlSequence(q: seq<Byte>) {
    && 3 <= |q| && q[0] == 0x1B && q[1] == 0x5B && 0x40 <= q[|q| - 1] <= 0x7E
    && forall i :: 2 <= i < |q| - 1 ==> !(0x40 <= q[i] <= 0x7E)
  }

  /** `ESC ]`, a body without BEL and ESC, and BEL. */
  predicate IsBellCommand(q: seq<Byte>) {
    && 3 <= |q| && q[0] == 0x1B && q[1] == 0x5D && q[|q| - 1] == 0x07
    && forall i :: 2 <= i < |q| - 1 ==> q[i] != 0x07 && q[i] != 0x1B
  }

  /** `ESC ]` or the opening of a DCS, SOS, PM or APC, a body without ESC, in the first case without BEL, and `ESC \`. */
  predicate IsTerminatedString(q: seq<Byte>) {
    && 4 <= |q| && q[0] == 0x1B && (q[1] == 0x5D || q[1] == 0x50 || q[1] == 0x58 || q[1] == 0x5E || q[1] == 0x5F)
    && q[|q| - 2] == 0x1B && q[|q| - 1] == 0x5C
    && forall i :: 2 <= i < |q| - 2 ==> q[i] != 0x1B && (q[1] == 0x5D ==> q[i] != 0x07)
  }

  /** `ESC`, one of `# % ( ) * + - . /`, and an ASCII character. */
  predicate IsDesignation(q: seq<Byte>) {
    && |q| == 3 && q[0] == 0x1B && q[2] < 0x80
    && (q[1] == 0x23 || q[1] == 0x25 || 0x28 <= q[1] <= 0x2B || 0x2D <= q[1] <= 0x2F)
  }

  /** `ESC` and one of `7 8 < = >`, or one from `@` to `_` that opens nothing longer. */
  predicate IsShortEscape(q: seq<Byte>) {
    && |q| == 2 && q[0] == 0x1B
    && (q[1] == 0x37 || q[1] == 0x38 || 0x3C <= q[1] <= 0x3E || 0x40 <= q[1] <= 0x4F || 0x51 <= q[1] <= 0x57
        || q[1] == 0x59 || q[1] == 0x5A || q[1] == 0x5C)
  }

  predicate IsSequence(q: seq<Byte>) {
    IsControlSequence(q) || IsBellCommand(q) || IsTerminatedString(q) || IsDesignation(q) || IsShortEscape(q)
  }

  /** The bytes that make a sequence of an ESC. */
  predicate MakesSequence(b: Byte) {
    || b == 0x23 || b == 0x25 || 0x28 <= b <= 0x2B || 0x2D <= b <= 0x2F
    || b == 0x37 || b == 0x38 || 0x3C <= b <= 0x3E || 0x40 <= b <= 0x5F
  }

  // ---------------------------------------------------------------------
  // Both scanners on one sequence
  // ---------------------------------------------------------------------

  /** Both scanners read it from ground to ground in step, without text and without a character cut off at its end. */
  predicate Skips(q: seq<Byte>) {
    && TrackAll(Ground, q) == Ground && NextBytes(Ground, q) == Ground && InStep(Ground, Ground, q)
    && EmitAll(Ground, Decode(q)) == [] && q != [] && q[|q| - 1] < 0x80
  }

  /** Both scanners stay in mode `m` and say nothing. */
  predicate Within(m: Mode, body: seq<Byte>) {
    forall i :: 0 <= i < |body| ==> Track(m, body[i]) == m && Next(m, body[i]) == m
  }

  lemma {:induction false} WithinStays(m: Mode, body: seq<Byte>)
    requires (m == Csi || m == Osc || m == Str) && Within(m, body)
    ensures TrackAll(m, body) == m && NextBytes(m, body) == m && InStep(m, m, body)
    decreases |body|
  {
    if body != [] {
      WithinStays(m, body[1..]);
    }
  }

  lemma {:induction false} WithinIsSilent(m: Mode, body: seq<Byte>)
    requires (m == Csi || m == Osc || m == Str) && Within(m, body)
    ensures NextAll(m, Decode(body)) == m && EmitAll(m, Decode(body)) == []
    decreases |body|
  {
    if body != [] {
      var u, rest := FirstUnit(body), body[UnitLength(body)..];
      assert u.Key() == body[0] && Decode(body)[0] == u && Decode(body)[1..] == Decode(rest);
      WithinIsSilent(m, rest);
    }
  }

  /** An opening of two bytes, a body, and what closes it. */
  lemma FramedSkips(m: Mode, c: Byte, body: seq<Byte>, close: seq<Byte>)
    requires (m == Csi || m == Osc || m == Str) && c < 0x80 && Track(Escape, c) == m == Next(Escape, c) && Within(m, body)
    requires Closes(m, close)
    ensures Skips([ESC, c] + body + close)
  {
    hide Within, Decode, InStep, TrackAll, NextBytes, EmitAll, NextAll, Closes;
    var opening: seq<Byte> := [ESC, c];
    OpeningReads(m, c);
    WithinStays(m, body);
    WithinIsSilent(m, body);
    ClosingReads(m, close);
    InStepJoins(Ground, opening, body, m);
    InStepJoins(Ground, opening + body, close, m);
    CutsCleanlyHere(opening, body, close);
    DecodeSplits(opening, body);
    DecodeSplits(opening + body, close);
    var us, vs, ws := Decode(opening), Decode(body), Decode(close);
    EmitAppend(Ground, us, vs);
    NextAppend(Ground, us, vs);
    EmitAppend(Ground, us + vs, ws);
    assert (opening + body + close)[|opening + body + close| - 1] == close[|close| - 1];
  }

  lemma InStepJoins(t: Mode, a: seq<Byte>, b: seq<Byte>, m: Mode)
    requires InStep(t, t, a) && TrackAll(t, a) == m == NextBytes(t, a) && InStep(m, m, b)
    ensures InStep(t, t, a + b) && TrackAll(t, a + b) == TrackAll(m, b) && NextBytes(t, a + b) == NextBytes(m, b)
  {
    InStepAppend(t, t, a, b);
    TrackAppend(t, a, b);
    NextBytesAppend(t, a, b);
  }

  lemma OpeningReads(m: Mode, c: Byte)
    requires (m == Csi || m == Osc || m == Str) && c < 0x80 && Track(Escape, c) == m == Next(Escape, c)
    ensures
      var s: seq<Byte> := [ESC, c];
      && TrackAll(Ground, s) == m && NextBytes(Ground, s) == m && InStep(Ground, Ground, s)
      && NextAll(Ground, Decode(s)) == m && EmitAll(Ground, Decode(s)) == []
  {
    var s: seq<Byte> := [ESC, c];
    assert s[1..] == [c] && [c][1..] == [];
    ReadTwo(Ground, s);
    assert InStep(Escape, Escape, [c]) == !Parts(Escape, Escape, c);
  }

  /** Two ASCII bytes, byte by byte and character by character. */
  lemma ReadTwo(m: Mode, s: seq<Byte>)
    requires |s| == 2 && s[0] < 0x80 && s[1] < 0x80
    ensures NextBytes(m, s) == Next(Next(m, s[0]), s[1]) && TrackAll(m, s) == Track(Track(m, s[0]), s[1])
    ensures NextAll(m, Decode(s)) == Next(Next(m, s[0]), s[1])
    ensures EmitAll(m, Decode(s)) == Emit(m, Ascii(s[0])) + Emit(Next(m, s[0]), Ascii(s[1]))
  {
    DecodeAscii(s);
    var us, last, rest := Decode(s), Ascii(s[1]), s[1..];
    assert us == [Ascii(s[0]), last] && us[1..] == [last] && us[1..][1..] == [];
    assert rest == [s[1]] && rest[1..] == [];
    assert NextBytes(m, s) == NextBytes(Next(m, s[0]), rest) == NextBytes(Next(Next(m, s[0]), s[1]), []);
    assert TrackAll(m, s) == TrackAll(Track(m, s[0]), rest) == TrackAll(Track(Track(m, s[0]), s[1]), []);
    assert NextAll(m, us) == NextAll(Next(m, s[0]), us[1..]) == NextAll(Next(Next(m, s[0]), s[1]), []);
    assert EmitAll(Next(m, s[0]), us[1..]) == Emit(Next(m, s[0]), us[1]) + [];
  }

  lemma ReadOne(m: Mode, b: Byte)
    requires b < 0x80
    ensures NextBytes(m, [b]) == Next(m, b) && TrackAll(m, [b]) == Track(m, b)
    ensures NextAll(m, Decode([b])) == Next(m, b) && EmitAll(m, Decode([b])) == Emit(m, Ascii(b))
  {
    DecodeAscii([b]);
    assert Decode([b]) == [Ascii(b)] && [Ascii(b)][1..] == [] && [b][1..] == [];
  }

  /** What ends a sequence of which the scanners are inside. */
  predicate Closes(m: Mode, close: seq<Byte>) {
    || (m == Csi && |close| == 1 && 0x40 <= close[0] <= 0x7E)
    || (m == Osc && close == [0x07])
    || (m != Csi && close == [0x1B, 0x5C])
  }

  lemma ClosingReads(m: Mode, close: seq<Byte>)
    requires (m == Csi || m == Osc || m == Str) && Closes(m, close)
    ensures close != [] && !IsContinuation(close[0]) && close[|close| - 1] < 0x80
    ensures TrackAll(m, close) == Ground == NextBytes(m, close) && InStep(m, m, close)
    ensures NextAll(m, Decode(close)) == Ground && EmitAll(m, Decode(close)) == []
  {
    if |close| == 1 {
      assert close == [close[0]] && close[1..] == [];
      ReadOne(m, close[0]);
    } else {
      var last: seq<Byte> := [0x5C];
      assert close[0] == ESC && close[1] == 0x5C && close[1..] == last && last[1..] == [];
      ReadTwo(m, close);
      var inner := Track(m, ESC);
      assert inner == Next(m, ESC) == if m == Osc then OscEscape else StrEscape;
      assert Track(inner, 0x5C) == Ground == Next(inner, 0x5C);
      assert TrackAll(m, close) == TrackAll(inner, last) == TrackAll(Ground, []);
      assert InStep(m, m, close) == InStep(inner, inner, last) == InStep(Ground, Ground, []);
    }
  }

  lemma CutsCleanlyHere(opening: seq<Byte>, body: seq<Byte>, close: seq<Byte>)
    requires opening != [] && opening[|opening| - 1] < 0x80 && close != [] && !IsContinuation(close[0])
    ensures CutsCleanly(opening, body) && CutsCleanly(opening + body, close)
  {
    EndsInAscii(opening);
  }

  /** How a sequence is put together: nothing else is needed of it below. */
  datatype Form = Framed(mode: Mode, opener: Byte, body: seq<Byte>, close: seq<Byte>) | Designation(b: Byte, p: Byte) | Short(b: Byte)

  predicate HasForm(q: seq<Byte>, form: Form) {
    match form
    case Framed(m, c, body, close) =>
      && (m == Csi || m == Osc || m == Str) && c < 0x80 && Track(Escape, c) == m == Next(Escape, c)
      && Within(m, body) && Closes(m, close) && q == [ESC, c] + body + close
    case Designation(b, p) => q == [ESC, b, p] && p < 0x80 && Track(Escape, b) == Charset == Next(Escape, b) && b < 0x80
    case Short(b) =>
      && q == [ESC, b] && b < 0x80 && Track(Escape, b) == Ground == Next(Escape, b)
      && Emit(Escape, Ascii(b)) == []
  }

  lemma FormOf(q: seq<Byte>) returns (form: Form)
    requires IsSequence(q)
    ensures HasForm(q, form)
  {
    if IsDesignation(q) {
      form := Designation(q[1], q[2]);
    } else if IsShortEscape(q) {
      form := Short(q[1]);
    } else if IsTerminatedString(q) {
      form := Framed(if q[1] == 0x5D then Osc else Str, q[1], q[2..|q| - 2], q[|q| - 2..]);
      assert q == [ESC, q[1]] + q[2..|q| - 2] + q[|q| - 2..];
    } else {
      form := Framed(if q[1] == 0x5D then Osc else Csi, q[1], q[2..|q| - 1], q[|q| - 1..]);
      assert q == [ESC, q[1]] + q[2..|q| - 1] + q[|q| - 1..];
    }
  }

  lemma SequenceSkips(q: seq<Byte>)
    requires IsSequence(q)
    ensures Skips(q)
  {
    hide IsSequence, Skips;
    var form := FormOf(q);
    match form
    case Framed(m, c, body, close) => FramedSkips(m, c, body, close);
    case Designation(b, p) => DesignationSkips(b, p);
    case Short(b) => ShortSkips(b);
  }

  lemma ShortSkips(b: Byte)
    requires HasForm([ESC, b], Short(b))
    ensures Skips([ESC, b])
  {
    var s: seq<Byte> := [ESC, b];
    assert s[1..] == [b] && [b][1..] == [];
    ReadTwo(Ground, s);
    ReadOne(Escape, b);
    assert InStep(Ground, Ground, s) == InStep(Escape, Escape, [b]);
    assert InStep(Escape, Escape, [b]) == !Parts(Escape, Escape, b);
    assert TrackAll(Ground, s) == TrackAll(Escape, [b]);
  }

  lemma DesignationSkips(b: Byte, p: Byte)
    requires HasForm([ESC, b, p], Designation(b, p))
    ensures Skips([ESC, b, p])
  {
    hide Decode, EmitAll, NextAll;
    var opening: seq<Byte> := [ESC, b];
    var s := opening + [p];
    assert s == [ESC, b, p];
    ReadTwo(Ground, opening);
    ReadOne(Charset, p);
    OpeningInStep(b);
    OneInStep(Charset, p);
    InStepJoins(Ground, opening, [p], Charset);
    EndsInAscii(opening);
    DecodeSplits(opening, [p]);
    EmitAppend(Ground, Decode(opening), Decode([p]));
  }

  lemma OneInStep(m: Mode, b: Byte)
    ensures InStep(m, m, [b]) <==> !Parts(m, m, b)
  {
    assert [b][1..] == [];
  }

  lemma OpeningInStep(b: Byte)
    ensures InStep(Ground, Ground, [ESC, b])
  {
    assert [ESC, b][1..] == [b];
    OneInStep(Escape, b);
  }

  // ---------------------------------------------------------------------
  // Streams of text and sequences
  // ---------------------------------------------------------------------

  /** A sequence, or a lone ESC, and the text behind it. */
  datatype Segment = Segment(escape: seq<Byte>, text: seq<Byte>)
  {
    /** The text has no ESC, and what it begins with makes no sequence of a lone ESC. */
    predicate Proper() {
      && 0x1B !in text
      && (IsSequence(escape) || (escape == [0x1B] && text != [] && !MakesSequence(text[0])))
    }

    /** Of the escape nothing shows, unless it is a lone ESC; the text shows as it is decoded. */
    function Shown(): seq<Byte> { (if escape == [0x1B] then escape else []) + TextOf(Decode(text)) }
  }

  function StreamOf(first: seq<Byte>, segments: seq<Segment>): seq<Byte> {
    if segments == [] then first
    else
      var last := segments[|segments| - 1];
      StreamOf(first, segments[..|segments| - 1]) + (last.escape + last.text)
  }

  function ShownOf(first: seq<Byte>, segments: seq<Segment>): seq<Byte> {
    if segments == [] then TextOf(Decode(first))
    else ShownOf(first, segments[..|segments| - 1]) + segments[|segments| - 1].Shown()
  }

  predicate Proper(first: seq<Byte>, segments: seq<Segment>) {
    0x1B !in first && forall i :: 0 <= i < |segments| ==> segments[i].Proper()
  }

  /** What both scanners make of a stream: they end at the ground, in step, with this text. */
  predicate Reads(s: seq<Byte>, shown: seq<Byte>) {
    && TrackAll(Ground, s) == Ground == NextBytes(Ground, s) && InStep(Ground, Ground, s)
    && EmitAll(Ground, Decode(s)) == shown
  }

  lemma {:induction false} TextReads(s: seq<Byte>)
    requires 0x1B !in s
    ensures Reads(s, TextOf(Decode(s)))
    decreases |s|
  {
    StaysInGround(s);
    PlainIsSafe(s);
    PlainStripsToItself(s);
    NextIsBytewise(Ground, s);
  }

  /** Where text or a sequence follows that begins with no continuation byte, the readings join. */
  lemma ReadsJoin(a: seq<Byte>, shown: seq<Byte>, b: seq<Byte>, more: seq<Byte>)
    requires Reads(a, shown) && Reads(b, more) && CutsCleanly(a, b)
    ensures Reads(a + b, shown + more)
  {
    hide CutsCleanly, Decode, EmitAll, NextAll;
    InStepJoins(Ground, a, b, Ground);
    DecodeSplits(a, b);
    NextIsBytewise(Ground, a);
    EmitAppend(Ground, Decode(a), Decode(b));
  }

  lemma SegmentReads(g: Segment)
    requires g.Proper()
    ensures Reads(g.escape + g.text, g.Shown()) && g.escape != [] && g.escape[0] == 0x1B && g.escape[|g.escape| - 1] < 0x80
  {
    TextReads(g.text);
    if g.escape == [0x1B] {
      LoneEscapeReads(g.text);
    } else {
      hide Decode, EmitAll, TextOf, InStep;
      SequenceSkips(g.escape);
      CleanBehindAscii(g.escape, g.text);
      ReadsJoin(g.escape, [], g.text, TextOf(Decode(g.text)));
      assert g.escape != [] && g.escape[0] == 0x1B;
    }
  }

  lemma CleanBehindAscii(a: seq<Byte>, b: seq<Byte>)
    requires a != [] && a[|a| - 1] < 0x80
    ensures CutsCleanly(a, b)
  {
    EndsInAscii(a);
  }

  lemma LoneEscapeReads(text: seq<Byte>)
    requires 0x1B !in text && text != [] && !MakesSequence(text[0])
    ensures Reads([0x1B] + text, [0x1B] + TextOf(Decode(text)))
  {
    hide Decode, EmitAll, NextAll;
    var escape: seq<Byte> := [0x1B];
    var s := escape + text;
    TextReads(text);
    ReadOne(Ground, 0x1B);
    CleanBehindAscii(escape, text);
    DecodeSplits(escape, text);
    EmitAppend(Ground, Decode(escape), Decode(text));
    LiteralText(text);
    LiteralSteps(text);
    assert s[0] == ESC && s[1..] == text;
  }

  lemma LiteralText(text: seq<Byte>)
    requires text != [] && !MakesSequence(text[0]) && text[0] != 0x1B
    ensures EmitAll(Escape, Decode(text)) == [0x1B] + EmitAll(Ground, Decode(text))
  {
    hide Decode, UnitLength;
    var u := FirstUnit(text);
    FirstDecodes(text);
    assert u.Key() == text[0] && Decode(text)[0] == u;
    LiteralUnits(Decode(text));
  }

  lemma LiteralUnits(us: seq<Unit>)
    requires us != [] && !MakesSequence(us[0].Key()) && us[0].Key() != 0x1B
    ensures EmitAll(Escape, us) == [0x1B] + EmitAll(Ground, us)
  {
    hide Emit, Next;
    var u := us[0];
    assert !Introduces(u.Key());
    LiteralStep(u);
    Regroup([0x1B], Emit(Ground, u), EmitAll(Next(Ground, u.Key()), us[1..]));
  }

  lemma LiteralSteps(text: seq<Byte>)
    requires text != [] && !MakesSequence(text[0]) && text[0] != 0x1B
    ensures TrackAll(Escape, text) == TrackAll(Ground, text) && NextBytes(Escape, text) == NextBytes(Ground, text)
    ensures InStep(Escape, Escape, text) == InStep(Ground, Ground, text)
  {
    assert Track(Escape, text[0]) == Track(Ground, text[0]) == Ground;
    assert Next(Escape, text[0]) == Next(Ground, text[0]) == Ground;
  }

  lemma {:induction false} StreamReads(first: seq<Byte>, segments: seq<Segment>)
    requires Proper(first, segments)
    ensures Reads(StreamOf(first, segments), ShownOf(first, segments))
    decreases |segments|
  {
    hide Reads, CutsCleanly;
    if segments == [] {
      TextReads(first);
    } else {
      var n := |segments| - 1;
      var before, g := segments[..n], segments[n];
      StreamReads(first, before);
      SegmentReads(g);
      CleanBeforeEscape(StreamOf(first, before), g.escape + g.text);
      ReadsJoin(StreamOf(first, before), ShownOf(first, before), g.escape + g.text, g.Shown());
    }
  }

  lemma CleanBeforeEscape(a: seq<Byte>, b: seq<Byte>)
    requires b != [] && b[0] == 0x1B
    ensures CutsCleanly(a, b)
  {
  }

  /** The text behind the last sequence. */
  function LastText(first: seq<Byte>, segments: seq<Segment>): seq<Byte> {
    if segments == [] then first else segments[|segments| - 1].text
  }

  /**
   * A stream of text and sequences shows its text, and its lone ESCs, in order and nothing else; at its end nothing
   * of a sequence is held back, only a character that its last text leaves unfinished.
   */
  lemma StreamIsStripped(first: seq<Byte>, segments: seq<Segment>)
    requires Proper(first, segments)
    ensures
      var s := StreamOf(first, segments);
      Strip(s) == ShownOf(first, segments) && SplitSafe(s) && HoldBack(s) == TailHold(LastText(first, segments))
  {
    hide Proper, Decode, EmitAll, NextAll, TailHold;
    var s, shown := StreamOf(first, segments), ShownOf(first, segments);
    StreamReads(first, segments);
    NextIsBytewise(Ground, s);
    assert shown + [] == shown;
    LastTextHolds(first, segments);
  }

  lemma LastTextHolds(first: seq<Byte>, segments: seq<Segment>)
    requires Proper(first, segments)
    ensures TailHold(StreamOf(first, segments)) == TailHold(LastText(first, segments))
  {
    hide Proper, TailHold, Reads, IsSequence, MakesSequence;
    if segments != [] {
      var n := |segments| - 1;
      LastIsProper(first, segments);
      SegmentReads(segments[n]);
      OnlyTextHolds(StreamOf(first, segments[..n]), segments[n].escape, segments[n].text);
    }
  }

  lemma OnlyTextHolds(e: seq<Byte>, escape: seq<Byte>, text: seq<Byte>)
    requires escape != [] && escape[|escape| - 1] < 0x80
    ensures TailHold(e + (escape + text)) == TailHold(text)
  {
    hide TailHold;
    var before := e + escape;
    assert before + text == e + (escape + text);
    TailBehindAscii(before, text, |text|);
    TailFrom(before + text);
    TailFrom(text);
  }

  lemma LastIsProper(first: seq<Byte>, segments: seq<Segment>)
    requires Proper(first, segments) && segments != []
    ensures segments[|segments| - 1].Proper()
  {
  }

  /** However such a stream is cut into frames, the text is the same. */
  lemma CutStreamShowsItsText(first: seq<Byte>, segments: seq<Segment>, frames: seq<seq<Byte>>)
    requires Proper(first, segments) && Concat(frames) == StreamOf(first, segments)
    ensures StreamText([], frames) == ShownOf(first, segments)
  {
    hide Proper, StreamText, HoldBack, Strip;
    StreamIsStripped(first, segments);
    assert [] + Concat(frames) == Concat(frames);
    SplitIndependence([], frames);
  }

  /** And so it is the transcript's, or what the limits retain of it. */
  lemma TranscriptShowsItsText(
    mode: TranscriptMode, maxBytes: nat, maxLines: nat, first: seq<Byte>, segments: seq<Segment>,
    frames: seq<seq<Byte>>)
    requires mode == PlainText || mode == Both
    requires Proper(first, segments) && Concat(frames) == StreamOf(first, segments) && PrefixBounded(frames)
    ensures
      var l := Run(Empty(mode, maxBytes, maxLines), Feeds(frames) + [Flush]);
      var text := ShownOf(first, segments);
      && l.RetainedPlainStart() <= |text| && l.plain == text[l.RetainedPlainStart()..]
      && (maxBytes == 0 && maxLines == 0 ==> l.plain == text)
  {
    hide Proper, HoldBack, Strip, PrefixBounded, Run;
    StreamIsStripped(first, segments);
    TextIsSplitIndependent(mode, maxBytes, maxLines, frames);
  }

  // ---------------------------------------------------------------------
  // Unfinished sequences
  // ---------------------------------------------------------------------

  /** Both scanners are inside, at the same place, and nothing was shown. */
  predicate Open(p: seq<Byte>) {
    && p != [] && TrackAll(Ground, p) != Ground && NextBytes(Ground, p) == TrackAll(Ground, p)
    && EmitAll(Ground, Decode(p)) == [] && (NextBytes(Ground, p) == Escape <==> p == [0x1B])
  }

  lemma PrefixIsOpen(q: seq<Byte>, k: nat)
    requires IsSequence(q) && 1 <= k < |q|
    ensures Open(q[..k])
  {
    hide IsSequence, Open;
    var form := FormOf(q);
    if k == 1 {
      assert q[..1] == [ESC];
      FirstIsOpen();
    } else {
      match form
      case Framed(m, c, body, close) =>
        if k <= 2 + |body| {
          assert q[..k] == [ESC, c] + body[..k - 2];
          BodyIsOpen(m, c, body[..k - 2]);
        } else {
          assert q[..k] == [ESC, c] + body + [ESC];
          CloseIsOpen(m, c, body);
        }
      case Designation(b, p) =>
        assert q[..k] == [ESC, b];
        DesignationIsOpen(b);
    }
  }

  lemma FirstIsOpen()
    ensures Open([0x1B])
  {
    ReadOne(Ground, 0x1B);
  }

  lemma BodyIsOpen(m: Mode, c: Byte, body: seq<Byte>)
    requires (m == Csi || m == Osc || m == Str) && c < 0x80 && Track(Escape, c) == m == Next(Escape, c) && Within(m, body)
    ensures Open([ESC, c] + body)
    ensures NextAll(Ground, Decode([ESC, c] + body)) == m == NextBytes(Ground, [ESC, c] + body)
  {
    hide Within, Decode, TrackAll, NextBytes, EmitAll, NextAll, InStep;
    var opening: seq<Byte> := [ESC, c];
    OpeningReads(m, c);
    WithinStays(m, body);
    WithinIsSilent(m, body);
    InStepJoins(Ground, opening, body, m);
    CleanBehindAscii(opening, body);
    DecodeSplits(opening, body);
    EmitAppend(Ground, Decode(opening), Decode(body));
    NextAppend(Ground, Decode(opening), Decode(body));
  }

  lemma CloseIsOpen(m: Mode, c: Byte, body: seq<Byte>)
    requires (m == Osc || m == Str) && c < 0x80 && Track(Escape, c) == m == Next(Escape, c) && Within(m, body)
    ensures Open([ESC, c] + body + [ESC])
  {
    hide Within, Decode, TrackAll, NextBytes, EmitAll, NextAll;
    var p := [ESC, c] + body;
    BodyIsOpen(m, c, body);
    ReadOne(m, ESC);
    TrackAppend(Ground, p, [ESC]);
    NextBytesAppend(Ground, p, [ESC]);
    CleanBeforeEscape(p, [ESC]);
    DecodeSplits(p, [ESC]);
    EmitAppend(Ground, Decode(p), Decode([ESC]));
  }

  lemma DesignationIsOpen(b: Byte)
    requires b < 0x80 && Track(Escape, b) == Charset == Next(Escape, b)
    ensures Open([ESC, b])
  {
    ReadTwo(Ground, [ESC, b]);
    assert [ESC, b][1..] == [b] && [b][1..] == [];
  }

  /**
   * A sequence that the end of the stream leaves unfinished is held back, all of it and nothing else; flushed, it
   * shows nothing, unless it is no more than its ESC.
   */
  lemma UnfinishedIsHeld(first: seq<Byte>, segments: seq<Segment>, q: seq<Byte>, k: nat)
    requires Proper(first, segments) && IsSequence(q) && 1 <= k < |q|
    ensures
      var s := StreamOf(first, segments) + q[..k];
      HoldBack(s) == k && Strip(s) == ShownOf(first, segments) + (if k == 1 then [0x1B] else [])
  {
    hide Proper, IsSequence, HoldBack, Strip, Reads;
    StreamReads(first, segments);
    OpenIsHeldWhole(StreamOf(first, segments), ShownOf(first, segments), q, k);
  }

  lemma OpenIsHeldWhole(a: seq<Byte>, shown: seq<Byte>, q: seq<Byte>, k: nat)
    requires Reads(a, shown) && IsSequence(q) && 1 <= k < |q|
    ensures HoldBack(a + q[..k]) == k && Strip(a + q[..k]) == shown + (if k == 1 then [0x1B] else [])
  {
    hide IsSequence, Decode, EmitAll, NextAll, InStep;
    var p := q[..k];
    forall j | 1 <= j <= |p|
      ensures TrackAll(Ground, p[..j]) != Ground
    {
      assert p[..j] == q[..j];
      PrefixIsOpen(q, j);
    }
    PrefixIsOpen(q, k);
    OpenFromTheStart(p);
    OpenBehind(a, p);
    StartsWithEscape(q);
    CleanBeforeEscape(a, p);
    StripAcrossCut(a, p);
    NextIsBytewise(Ground, a);
    NextIsBytewise(Ground, p);
    assert p == [0x1B] <==> k == 1;
    assert StripFrom(Ground, Decode(p)) == [] + Finish(NextBytes(Ground, p));
  }

  lemma StartsWithEscape(q: seq<Byte>)
    requires IsSequence(q)
    ensures q != [] && q[0] == 0x1B
  {
  }

  // ---------------------------------------------------------------------
  // Strings as the hold-back check reads them
  // ---------------------------------------------------------------------

  predicate OpensAString(c: Byte) { c == 0x5D || c == 0x50 || c == 0x58 || c == 0x5E || c == 0x5F }

  /**
   * What does not end a string opened by `ESC c`: bytes other than ESC, and BEL in a command; an ESC with a byte that
   * neither terminates nor opens a control sequence; a whole control sequence, whatever its body holds.
   */
  predicate InString(c: Byte, part: seq<Byte>) {
    || (0x1B !in part && (c == 0x5D ==> 0x07 !in part))
    || (|part| == 2 && part[0] == 0x1B && part[1] != 0x5C && part[1] != 0x5B)
    || IsControlSequence(part)
  }

  function StringMode(c: Byte): Mode { if c == 0x5D then Osc else Str }

  lemma PartStays(c: Byte, part: seq<Byte>)
    requires InString(c, part)
    ensures TrackAll(StringMode(c), part) == StringMode(c)
    ensures forall k :: 0 <= k <= |part| ==> TrackAll(StringMode(c), part[..k]) != Ground
  {
    var m := StringMode(c);
    forall k | 0 <= k <= |part|
      ensures TrackAll(m, part[..k]) != Ground && (k == |part| ==> TrackAll(m, part[..k]) == m)
    {
      PartPrefix(c, part, k);
    }
    assert part[..|part|] == part;
  }

  lemma {:induction false} PartPrefix(c: Byte, part: seq<Byte>, k: nat)
    requires InString(c, part) && k <= |part|
    ensures
      var m, at := StringMode(c), TrackAll(StringMode(c), part[..k]);
      if k == |part| || k == 0 then at == m
      else if part[0] != 0x1B then at == m
      else if k == 1 then at == (if m == Osc then OscEscape else StrEscape)
      else at == (if m == Osc then OscCsi else StrCsi)
    decreases k
  {
    if k == 0 {
      assert part[..0] == [];
    } else {
      PartPrefix(c, part, k - 1);
      assert part[..k] == part[..k - 1] + [part[k - 1]];
      TrackOneMore(StringMode(c), part[..k - 1], part[k - 1]);
      assert part[k - 1] in part;
    }
  }

  function Opened(c: Byte, parts: seq<seq<Byte>>): seq<Byte> {
    if parts == [] then [0x1B, c] else Opened(c, parts[..|parts| - 1]) + parts[|parts| - 1]
  }

  /** As long as nothing ends it a string is held back whole. */
  lemma {:induction false} StringIsHeld(c: Byte, parts: seq<seq<Byte>>)
    requires OpensAString(c) && forall i :: 0 <= i < |parts| ==> InString(c, parts[i])
    ensures
      var s := Opened(c, parts);
      TrackAll(Ground, s) == StringMode(c) && OpenAt(s) == 0 && HoldBack(s) == |s|
    decreases |parts|
  {
    hide InString;
    if parts == [] {
      StringOpens(c);
    } else {
      var n := |parts| - 1;
      StringIsHeld(c, parts[..n]);
      PartStays(c, parts[n]);
      WholeHeld(Opened(c, parts[..n]), parts[n]);
      TrackAppend(Ground, Opened(c, parts[..n]), parts[n]);
    }
  }

  lemma StringOpens(c: Byte)
    requires OpensAString(c)
    ensures
      var s: seq<Byte> := [0x1B, c];
      TrackAll(Ground, s) == StringMode(c) && OpenAt(s) == 0
  {
    var s: seq<Byte> := [0x1B, c];
    assert s == [] + [0x1B] + [c] && s[..1] == [] + [0x1B];
    TrackOneMore(Ground, [], 0x1B);
    TrackOneMore(Ground, [0x1B], c);
    forall k | 1 <= k <= |s|
      ensures TrackAll(Ground, s[..k]) != Ground
    {
      assert k == 2 ==> s[..k] == s;
    }
    OpenFromTheStart(s);
  }

  /** So is one whose terminator, or nested control sequence, has begun; with its terminator nothing is. */
  lemma StringEnds(c: Byte, parts: seq<seq<Byte>>, body: seq<Byte>)
    requires OpensAString(c) && forall i :: 0 <= i < |parts| ==> InString(c, parts[i])
    requires forall i :: 0 <= i < |body| ==> !(0x40 <= body[i] <= 0x7E)
    ensures
      var s := Opened(c, parts);
      && HoldBack(s + [0x1B]) == |s| + 1
      && HoldBack(s + ([0x1B, 0x5B] + body)) == |s| + 2 + |body|
      && HoldBack(s + [0x1B, 0x5C]) == 0 && (c == 0x5D ==> HoldBack(s + [0x07]) == 0)
  {
    hide InString;
    var s, m := Opened(c, parts), StringMode(c);
    var nested: seq<Byte> := [0x1B, 0x5B] + body + [0x40];
    StringIsHeld(c, parts);
    assert IsControlSequence(nested) && InString(c, nested) by { NestedIsPart(c, body); }
    PartStays(c, nested);
    forall k | 0 <= k < |nested|
      ensures HoldBack(s + nested[..k]) == |s| + k
    {
      assert forall j :: 0 <= j <= k ==> nested[..k][..j] == nested[..j];
      WholeHeld(s, nested[..k]);
    }
    assert nested[..1] == [0x1B] && nested[..2 + |body|] == [0x1B, 0x5B] + body;
    TrackAppend(Ground, s, [0x1B, 0x5C]);
    TrackAppend(Ground, s, [0x07]);
    EndsInAscii(s + [0x1B, 0x5C]);
    EndsInAscii(s + [0x07]);
    StringCloses(m);
  }

  lemma NestedIsPart(c: Byte, body: seq<Byte>)
    requires forall i :: 0 <= i < |body| ==> !(0x40 <= body[i] <= 0x7E)
    ensures var nested := [0x1B, 0x5B] + body + [0x40]; IsControlSequence(nested) && InString(c, nested)
  {
  }

  lemma StringCloses(m: Mode)
    requires m == Osc || m == Str
    ensures TrackAll(m, [0x1B, 0x5C]) == Ground && (m == Osc ==> TrackAll(m, [0x07]) == Ground)
  {
    ReadTwo(m, [0x1B, 0x5C]);
    ReadOne(m, 0x07);
  }
}
