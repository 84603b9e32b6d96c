/** Scroll keys and wheel reports taken out of what is typed during a managed attach. */
module ViewportControls {
  import opened Bytes
  import opened ModeOverlay
  import opened Encoder

  datatype ViewportAction = ScrollUp(rows: nat) | ScrollDown(rows: nat) | PageUp | PageDown | Home | End

  datatype Control = Control(sequence: seq<Byte>, action: ViewportAction)

  const KEYS: seq<Control> := [
    Control([ESC, 0x5B, 0x35, 0x7E], PageUp), Control([ESC, 0x5B, 0x36, 0x7E], PageDown),
    Control([ESC, 0x5B, 0x48], Home), Control([ESC, 0x5B, 0x31, 0x7E], Home),
    Control([ESC, 0x5B, 0x37, 0x7E], Home), Control([ESC, 0x4F, 0x48], Home),
    Control([ESC, 0x5B, 0x46], End), Control([ESC, 0x5B, 0x34, 0x7E], End),
    Control([ESC, 0x5B, 0x38, 0x7E], End), Control([ESC, 0x4F, 0x46], End)]

  function KeyAt(s: seq<Byte>, keys: seq<Control>): (c: Option<Control>)
    ensures c.Some? ==> c.value in keys && c.value.sequence <= s
    ensures c.None? ==> forall k :: k in keys ==> !(k.sequence <= s)
  {
    if keys == [] then None
    else if keys[0].sequence <= s then Some(keys[0])
    else KeyAt(s, keys[1..])
  }

  /** The position of the first `M` or `m`. */
  function ReportEnd(s: seq<Byte>): (end: nat)
    ensures end <= |s| && (end < |s| ==> s[end] == 0x4D || s[end] == 0x6D)
    ensures forall i :: 0 <= i < end ==> s[i] != 0x4D && s[i] != 0x6D
  {
    if s == [] || s[0] == 0x4D || s[0] == 0x6D then 0 else 1 + ReportEnd(s[1..])
  }

  function ParseU16(digits: seq<Byte>): Option<nat> {
    if digits == [] then None else ParseDigits(digits)
  }

  const SGR_PREFIX: seq<Byte> := [ESC, 0x5B, 0x3C]

  /** An SGR mouse report of an unmodified wheel. */
  function WheelAt(s: seq<Byte>): (c: Option<Control>)
    ensures c.Some? ==> c.value.sequence <= s && |c.value.sequence| > 3
  {
    if !(SGR_PREFIX <= s) || ReportEnd(s) == |s| then None
    else
      var end := ReportEnd(s);
      var button := ParseU16(Split(s[3..end], 0x3B)[0]);
      if button == Some(64) then Some(Control(s[..end + 1], ViewportAction.ScrollUp(3)))
      else if button == Some(65) then Some(Control(s[..end + 1], ViewportAction.ScrollDown(3)))
      else None
  }

  function ControlAt(s: seq<Byte>): (c: Option<Control>)
    ensures c.Some? ==> c.value.sequence <= s && |c.value.sequence| > 0
  {
    var key := KeyAt(s, KEYS);
    if key.Some? then key else WheelAt(s)
  }

  datatype Piece = Typed(byte: Byte) | Taken(control: Control)

  /** The input cut into bytes to forward and controls to act on. */
  function Pieces(s: seq<Byte>): seq<Piece>
    decreases |s|
  {
    if s == [] then []
    else
      match ControlAt(s)
      case Some(c) => [Taken(c)] + Pieces(s[|c.sequence|..])
      case None => [Typed(s[0])] + Pieces(s[1..])
  }

  function BytesOf(pieces: seq<Piece>): seq<Byte> {
    if pieces == [] then []
    else (match pieces[0] case Typed(b) => [b] case Taken(c) => c.sequence) + BytesOf(pieces[1..])
  }

  function TypedIn(pieces: seq<Piece>): seq<Byte> {
    if pieces == [] then []
    else (match pieces[0] case Typed(b) => [b] case Taken(_) => []) + TypedIn(pieces[1..])
  }

  function ActionsIn(pieces: seq<Piece>): seq<ViewportAction> {
    if pieces == [] then []
    else (match pieces[0] case Typed(_) => [] case Taken(c) => [c.action]) + ActionsIn(pieces[1..])
  }

  method SplitAttachViewportControls(bytes: seq<Byte>) returns (forward: seq<Byte>, actions: seq<ViewportAction>)
    ensures forward == TypedIn(Pieces(bytes)) && actions == ActionsIn(Pieces(bytes))
  {
    hide ControlAt, Pieces, TypedIn, ActionsIn;
    forward, actions := [], [];
    var idx := 0;
    while idx < |bytes|
      invariant 0 <= idx <= |bytes|
      invariant forward + TypedIn(Pieces(bytes[idx..])) == TypedIn(Pieces(bytes))
      invariant actions + ActionsIn(Pieces(bytes[idx..])) == ActionsIn(Pieces(bytes))
      decreases |bytes| - idx
    {
      var control := ControlAt(bytes[idx..]);
      PiecesStep(bytes[idx..]);
      if control.Some? {
        var consumed := |control.value.sequence|;
        assert bytes[idx..][consumed..] == bytes[idx + consumed..];
        actions := actions + [control.value.action];
        idx := idx + consumed;
      } else {
        assert bytes[idx..][1..] == bytes[idx + 1..];
        forward := forward + [bytes[idx]];
        idx := idx + 1;
      }
    }
    NoPieces(bytes[idx..]);
  }

  lemma NoPieces(s: seq<Byte>)
    requires s == []
    ensures TypedIn(Pieces(s)) == [] && ActionsIn(Pieces(s)) == []
  {
  }

  lemma PiecesStep(s: seq<Byte>)
    requires s != []
    ensures
      match ControlAt(s)
      case Some(c) =>
        && TypedIn(Pieces(s)) == TypedIn(Pieces(s[|c.sequence|..]))
        && ActionsIn(Pieces(s)) == [c.action] + ActionsIn(Pieces(s[|c.sequence|..]))
      case None =>
        TypedIn(Pieces(s)) == [s[0]] + TypedIn(Pieces(s[1..])) && ActionsIn(Pieces(s)) == ActionsIn(Pieces(s[1..]))
  {
    hide ControlAt;
    var rest := Pieces(s)[1..];
    assert rest == if ControlAt(s).Some? then Pieces(s[|ControlAt(s).value.sequence|..]) else Pieces(s[1..]);
    assert [] + TypedIn(rest) == TypedIn(rest) && [] + ActionsIn(rest) == ActionsIn(rest);
  }

  /** Nothing is lost, added or reordered, and what is taken out are controls only. */
  lemma {:induction false} PiecesAreTheInput(s: seq<Byte>)
    ensures BytesOf(Pieces(s)) == s
    ensures forall p :: p in Pieces(s) && p.Taken? ==> exists rest :: ControlAt(p.control.sequence + rest) == Some(p.control)
    decreases |s|
  {
    hide ControlAt;
    if s != [] {
      var control := ControlAt(s);
      var n := if control.Some? then |control.value.sequence| else 1;
      PiecesAreTheInput(s[n..]);
      var first := if control.Some? then Taken(control.value) else Typed(s[0]);
      assert Pieces(s) == [first] + Pieces(s[n..]);
      assert s == s[..n] + s[n..];
      if control.Some? {
        assert control.value.sequence == s[..n];
        assert ControlAt(control.value.sequence + s[n..]) == Some(control.value);
      }
    }
  }

  /** The bytes typed are all forwarded exactly when no control is among them. */
  lemma {:induction false} ForwardsAllOrActs(s: seq<Byte>)
    ensures |TypedIn(Pieces(s))| <= |s|
    ensures ActionsIn(Pieces(s)) == [] <==> TypedIn(Pieces(s)) == s
    decreases |s|
  {
    hide ControlAt;
    if s != [] {
      PiecesStep(s);
      var control := ControlAt(s);
      if control.Some? {
        ForwardsAllOrActs(s[|control.value.sequence|..]);
      } else {
        ForwardsAllOrActs(s[1..]);
        assert s == [s[0]] + s[1..];
      }
    }
  }

  lemma {:induction false} TextPasses(s: seq<Byte>)
    requires ESC !in s
    ensures TypedIn(Pieces(s)) == s
    decreases |s|
  {
    if s != [] {
      PiecesStep(s);
      StartsWithEsc(s);
      TextPasses(s[1..]);
      assert s == [s[0]] + s[1..];
    }
  }

  /** Every key starts with ESC, and none like a mouse report. */
  lemma KeysAreEscapes()
    ensures forall k :: k in KEYS ==>
      |k.sequence| > 2 && k.sequence[0] == ESC && (k.sequence[1] != 0x5B || k.sequence[2] != 0x3C)
  {
    hide KeyAt;
  }

  lemma StartsWithEsc(s: seq<Byte>)
    requires s != [] && s[0] != ESC
    ensures ControlAt(s) == None
  {
    hide KeyAt, ReportEnd, ParseU16, Split, KEYS;
    KeysAreEscapes();
    assert KeyAt(s, KEYS).None?;
  }

  /** The keys, as terminals send them. */
  predicate IsScrollKey(q: seq<Byte>, action: ViewportAction) {
    match action
    case PageUp => q == [0x1B, 0x5B, 0x35, 0x7E]
    case PageDown => q == [0x1B, 0x5B, 0x36, 0x7E]
    case Home =>
      || q == [0x1B, 0x5B, 0x48] || q == [0x1B, 0x4F, 0x48]
      || q == [0x1B, 0x5B, 0x31, 0x7E] || q == [0x1B, 0x5B, 0x37, 0x7E]
    case End =>
      || q == [0x1B, 0x5B, 0x46] || q == [0x1B, 0x4F, 0x46]
      || q == [0x1B, 0x5B, 0x34, 0x7E] || q == [0x1B, 0x5B, 0x38, 0x7E]
    case _ => false
  }

  /** Exactly these keys are taken, and nothing else but reports of a wheel, which scroll three rows. */
  lemma KeysAreTaken(s: seq<Byte>, q: seq<Byte>, action: ViewportAction)
    ensures IsScrollKey(q, action) && q <= s ==> ControlAt(s) == Some(Control(q, action))
    ensures ControlAt(s) == Some(Control(q, action)) ==>
      IsScrollKey(q, action) || ([0x1B, 0x5B, 0x3C] <= q && action in {ViewportAction.ScrollUp(3), ViewportAction.ScrollDown(3)})
  {
    hide KeyAt, WheelAt;
    KeysAreListed(q, action);
    if IsScrollKey(q, action) && q <= s {
      assert Control(q, action) in KEYS;
      var c := KeyAt(s, KEYS).value;
      OneKey(s, c, Control(q, action));
    }
    if KeyAt(s, KEYS).Some? {
      KeysAreListed(KeyAt(s, KEYS).value.sequence, KeyAt(s, KEYS).value.action);
    } else {
      WheelScrolls(s);
    }
  }

  lemma KeysAreListed(q: seq<Byte>, action: ViewportAction)
    ensures Control(q, action) in KEYS <==> IsScrollKey(q, action)
  {
    hide KEYS, IsScrollKey;
    var c := Control(q, action);
    if IsScrollKey(q, action) {
      var i := PlaceOf(q, action);
      assert KEYS[i] in KEYS;
    }
    if c in KEYS {
      var i :| 0 <= i < |KEYS| && KEYS[i] == c;
      ListedIsKey(i);
    }
  }

  lemma PlaceOf(q: seq<Byte>, action: ViewportAction) returns (i: nat)
    requires IsScrollKey(q, action)
    ensures i < |KEYS| && KEYS[i] == Control(q, action)
  {
    i := if action.PageUp? then 0 else if action.PageDown? then 1
         else if action.Home? then (if |q| == 3 then (if q[1] == 0x5B then 2 else 5) else if q[2] == 0x31 then 3 else 4)
         else (if |q| == 3 then (if q[1] == 0x5B then 6 else 9) else if q[2] == 0x34 then 7 else 8);
    assert KEYS[i].sequence == q;
  }

  lemma ListedIsKey(i: nat)
    requires i < |KEYS|
    ensures IsScrollKey(KEYS[i].sequence, KEYS[i].action)
  {
    assert |KEYS| == 10;
    if i < 5 {
      assert i == 0 || i == 1 || i == 2 || i == 3 || i == 4;
    } else {
      assert i == 5 || i == 6 || i == 7 || i == 8 || i == 9;
    }
  }

  /** No key begins another. */
  lemma OneKey(s: seq<Byte>, a: Control, b: Control)
    requires a in KEYS && b in KEYS && a.sequence <= s && b.sequence <= s
    ensures a == b
  {
    KeysAreListed(a.sequence, a.action);
    KeysAreListed(b.sequence, b.action);
    assert s[1] == a.sequence[1] == b.sequence[1] && s[2] == a.sequence[2] == b.sequence[2];
  }

  lemma WheelScrolls(s: seq<Byte>)
    ensures WheelAt(s).Some? ==>
      && [0x1B, 0x5B, 0x3C] <= WheelAt(s).value.sequence
      && WheelAt(s).value.action in {ViewportAction.ScrollUp(3), ViewportAction.ScrollDown(3)}
  {
    hide ParseU16, Split, ReportEnd;
    if WheelAt(s).Some? {
      var n := |WheelAt(s).value.sequence|;
      assert s[..n][..3] == s[..3];
    }
  }

  /** A report as the encoder writes it. */
  function Report(code: nat, column: nat, row: nat, up: bool): seq<Byte>
    requires code <= 0xFFFF && column <= 0xFFFF && row <= 0xFFFF
  {
    SGR_PREFIX + MouseBody(code, column, row) + [if up then 0x6D else 0x4D]
  }

  /** An encoded mouse report is taken out, and whole, exactly when it is an unmodified wheel. */
  lemma WheelReportsScroll(code: nat, column: nat, row: nat, up: bool, rest: seq<Byte>)
    requires code <= 0xFFFF && column <= 0xFFFF && row <= 0xFFFF
    ensures
      var report := Report(code, column, row, up);
      ControlAt(report + rest) ==
        if code == 64 then Some(Control(report, ViewportAction.ScrollUp(3)))
        else if code == 65 then Some(Control(report, ViewportAction.ScrollDown(3)))
        else None
  {
    hide ParseDigits, Split, MouseBody, ReportEnd, KeyAt, WheelAt;
    var body, report := MouseBody(code, column, row), Report(code, column, row, up);
    var s := report + rest;
    NoKey(s);
    BodyHasNoEnd(code, column, row);
    MouseReportParses(code, column, row);
    FirstField(code, column, row);
    ReportIsRead(body, if up then 0x6D else 0x4D, rest);
    assert report == SGR_PREFIX + body + [if up then 0x6D else 0x4D];
  }

  /** What a report is read as, whatever its body. */
  lemma ReportIsRead(body: seq<Byte>, end: Byte, rest: seq<Byte>)
    requires (end == 0x4D || end == 0x6D) && forall i :: 0 <= i < |body| ==> body[i] != 0x4D && body[i] != 0x6D
    ensures
      var report := SGR_PREFIX + body + [end];
      WheelAt(report + rest) ==
        var button := ParseU16(Split(body, 0x3B)[0]);
        if button == Some(64) then Some(Control(report, ViewportAction.ScrollUp(3)))
        else if button == Some(65) then Some(Control(report, ViewportAction.ScrollDown(3)))
        else None
  {
    hide ParseU16, Split, ReportEnd, WheelAt;
    var report := SGR_PREFIX + body + [end];
    var s := report + rest;
    assert s[..3 + |body| + 1] == report && SGR_PREFIX <= s;
    assert s[3..3 + |body|] == body by { assert report[3..3 + |body|] == body; }
    assert forall i :: 3 <= i < 3 + |body| ==> s[i] == s[3..3 + |body|][i - 3];
    EndIsAt(s, 3 + |body|);
    WheelIs(s, 3 + |body|);
  }

  lemma WheelIs(s: seq<Byte>, n: nat)
    requires SGR_PREFIX <= s && 3 <= n < |s| && ReportEnd(s) == n
    ensures WheelAt(s) ==
      var button := ParseU16(Split(s[3..n], 0x3B)[0]);
      if button == Some(64) then Some(Control(s[..n + 1], ViewportAction.ScrollUp(3)))
      else if button == Some(65) then Some(Control(s[..n + 1], ViewportAction.ScrollDown(3)))
      else None
  {
    hide ParseU16, Split, ReportEnd;
  }

  lemma NoKey(s: seq<Byte>)
    requires SGR_PREFIX <= s
    ensures KeyAt(s, KEYS) == None
  {
    hide KeyAt, KEYS;
    KeysAreEscapes();
    assert s[1] == 0x5B && s[2] == 0x3C;
  }

  lemma {:induction false} EndIsAt(s: seq<Byte>, n: nat)
    requires n < |s| && (s[n] == 0x4D || s[n] == 0x6D)
    requires forall i :: 0 <= i < n ==> s[i] != 0x4D && s[i] != 0x6D
    ensures ReportEnd(s) == n
  {
  }

  lemma BodyHasNoEnd(code: nat, column: nat, row: nat)
    requires code <= 0xFFFF && column <= 0xFFFF && row <= 0xFFFF
    ensures forall i :: 0 <= i < |MouseBody(code, column, row)| ==>
      MouseBody(code, column, row)[i] != 0x4D && MouseBody(code, column, row)[i] != 0x6D
  {
  }

  lemma FirstField(code: nat, column: nat, row: nat)
    requires code <= 0xFFFF && column <= 0xFFFF && row <= 0xFFFF
    ensures Split(MouseBody(code, column, row), 0x3B)[0] != []
  {
    MouseReportParses(code, column, row);
    var a, b, c := Decimal(code), Decimal(OneBased(column)), Decimal(OneBased(row));
    assert MouseBody(code, column, row) == a + [0x3B] + (b + [0x3B] + c);
    SplitDigits(a, b + [0x3B] + c);
  }
}
