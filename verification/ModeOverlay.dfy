/**
 * Terminal modes read off raw output: private mode sets and resets (`ESC [ ? ... h` and `l`) and the full reset
 * `ESC c`. Each feed rescans the last 64 bytes of the feeds before it, so sequences in that tail are applied again.
 */
module ModeOverlay {
  import opened Bytes

  const MODE_TAIL_LIMIT: nat := 64

  datatype MouseMode = NoMouse | X10 | Normal | ButtonEvent | AnyEvent | Sgr

  datatype TerminalModes = TerminalModes(
    bracketedPaste: bool, focusEvents: bool, applicationCursor: bool, alternateScreen: bool, mouse: MouseMode)

  datatype MouseModeFlags = MouseModeFlags(x10: bool, normal: bool, buttonEvent: bool, anyEvent: bool, sgr: bool)
  {
    /** The highest-priority enabled mode. */
    function Active(): MouseMode {
      if sgr then Sgr else if anyEvent then AnyEvent else if buttonEvent then ButtonEvent
      else if normal then Normal else if x10 then X10 else NoMouse
    }
  }

  datatype Tracked = Tracked(modes: TerminalModes, flags: MouseModeFlags)
  {
    predicate Coherent() { modes.mouse == flags.Active() }
  }

  const DEFAULTS: Tracked :=
    Tracked(TerminalModes(false, false, false, false, NoMouse), MouseModeFlags(false, false, false, false, false))

  // ---------------------------------------------------------------------
  // One sequence
  // ---------------------------------------------------------------------

  /** A decimal parameter; `None` when it does not fit 16 bits or a byte lies below `0`. */
  function ParseDigits(part: seq<Byte>): Option<nat> {
    if part == [] then Some(0)
    else
      match ParseDigits(part[..|part| - 1])
      case None => None
      case Some(value) =>
        var digit := part[|part| - 1];
        if value * 10 > 0xFFFF || digit < 0x30 || value * 10 + (digit - 0x30) > 0xFFFF then None
        else Some(value * 10 + (digit - 0x30))
  }

  lemma {:induction false} DigitsOfPrefix(part: seq<Byte>, i: nat)
    requires i <= |part| && ParseDigits(part[..i]) == None
    ensures ParseDigits(part) == None
    decreases |part| - i
  {
    if i < |part| {
      assert part[..i + 1][..i] == part[..i];
      DigitsOfPrefix(part, i + 1);
    } else {
      assert part[..i] == part;
    }
  }

  method ParsePrivateMode(part: seq<Byte>) returns (code: Option<nat>)
    ensures code == ParseDigits(part)
  {
    var value: nat := 0;
    for i := 0 to |part|
      invariant ParseDigits(part[..i]) == Some(value)
    {
      assert part[..i + 1][..i] == part[..i];
      if value * 10 > 0xFFFF || part[i] < 0x30 || value * 10 + (part[i] - 0x30) > 0xFFFF {
        DigitsOfPrefix(part, i + 1);
        return None;
      }
      value := value * 10 + (part[i] - 0x30);
    }
    assert part[..|part|] == part;
    return Some(value);
  }

  function ApplyMode(t: Tracked, code: nat, enabled: bool): Tracked {
    if code == 9 || code == 1000 || code == 1002 || code == 1003 || code == 1006 then
      var f := t.flags;
      var flags :=
        if code == 9 then f.(x10 := enabled) else if code == 1000 then f.(normal := enabled)
        else if code == 1002 then f.(buttonEvent := enabled) else if code == 1003 then f.(anyEvent := enabled)
        else f.(sgr := enabled);
      Tracked(t.modes.(mouse := flags.Active()), flags)
    else if code == 1 then t.(modes := t.modes.(applicationCursor := enabled))
    else if code == 1004 then t.(modes := t.modes.(focusEvents := enabled))
    else if code == 47 || code == 1047 || code == 1049 then t.(modes := t.modes.(alternateScreen := enabled))
    else if code == 2004 then t.(modes := t.modes.(bracketedPaste := enabled))
    else t
  }

  function ApplyParts(t: Tracked, parts: seq<seq<Byte>>, enabled: bool): Tracked
    decreases |parts|
  {
    if parts == [] then t
    else
      var code := ParseDigits(parts[0]);
      ApplyParts(if code.Some? then ApplyMode(t, code.value, enabled) else t, parts[1..], enabled)
  }

  predicate IsParam(b: Byte) { 0x30 <= b <= 0x39 || b == 0x3B }

  /** The end of the run of parameter bytes that starts at `i`. */
  function ParamsEnd(s: seq<Byte>, i: nat): (end: nat)
    requires i <= |s|
    ensures i <= end <= |s| && (end < |s| ==> !IsParam(s[end]))
    ensures forall j :: i <= j < end ==> IsParam(s[j])
    decreases |s| - i
  {
    if i < |s| && IsParam(s[i]) then ParamsEnd(s, i + 1) else i
  }

  predicate WellFormedParams(params: seq<Byte>) {
    params != [] && forall part :: part in Split(params, 0x3B) ==> part != []
  }

  predicate OpensPrivate(s: seq<Byte>, e: nat) {
    e + 3 <= |s| && s[e] == ESC && s[e + 1] == 0x5B && s[e + 2] == 0x3F
  }

  predicate IsReset(s: seq<Byte>, e: nat) { e + 2 <= |s| && s[e] == ESC && s[e + 1] == 0x63 }

  /** The end of the complete mode sequence that starts at `e`, if one does. */
  function SequenceEnd(s: seq<Byte>, e: nat): (end: Option<nat>)
    ensures end.Some? ==> e + 2 <= end.value <= |s| && s[e] == ESC
  {
    if IsReset(s, e) then Some(e + 2)
    else if !OpensPrivate(s, e) then None
    else
      var cursor := ParamsEnd(s, e + 3);
      if cursor >= |s| || (s[cursor] != 0x68 && s[cursor] != 0x6C) || !WellFormedParams(s[e + 3..cursor]) then None
      else Some(cursor + 1)
  }

  /** What the sequence starting at `e` does to the modes; nothing when none starts there. */
  function EffectAt(s: seq<Byte>, e: nat, t: Tracked): Tracked {
    match SequenceEnd(s, e)
    case None => t
    case Some(end) =>
      if IsReset(s, e) then DEFAULTS
      else ApplyParts(t, Split(s[e + 3..end - 1], 0x3B), s[end - 1] == 0x68)
  }

  /** One pass over `s` from position `i`. */
  function ApplyFrom(s: seq<Byte>, i: nat, t: Tracked): Tracked
    decreases |s| - i
  {
    if i >= |s| then t else ApplyFrom(s, i + 1, EffectAt(s, i, t))
  }

  function Apply(s: seq<Byte>, t: Tracked): Tracked { ApplyFrom(s, 0, t) }

  // ---------------------------------------------------------------------
  // The scan
  // ---------------------------------------------------------------------

  lemma {:induction false} SkipToEscape(s: seq<Byte>, i: nat, j: nat, t: Tracked)
    requires i <= j <= |s| && forall k :: i <= k < j ==> s[k] != ESC
    ensures ApplyFrom(s, i, t) == ApplyFrom(s, j, t)
    decreases j - i
  {
    if i < j {
      SkipToEscape(s, i + 1, j, t);
    }
  }

  method FindEscape(bytes: seq<Byte>, from: nat) returns (esc: nat)
    requires from <= |bytes|
    ensures from <= esc <= |bytes| && (esc < |bytes| ==> bytes[esc] == ESC)
    ensures forall k :: from <= k < esc ==> bytes[k] != ESC
  {
    esc := from;
    while esc < |bytes| && bytes[esc] != ESC
      invariant from <= esc <= |bytes|
      invariant forall k :: from <= k < esc ==> bytes[k] != ESC
    {
      esc := esc + 1;
    }
  }

  method ApplyParams(t: Tracked, params: seq<Byte>, enabled: bool) returns (result: Tracked)
    ensures result == ApplyParts(t, Split(params, 0x3B), enabled)
  {
    var parts := Split(params, 0x3B);
    result := t;
    for i := 0 to |parts|
      invariant ApplyParts(t, parts, enabled) == ApplyParts(result, parts[i..], enabled)
    {
      var code := ParsePrivateMode(parts[i]);
      if code.Some? {
        result := ApplyMode(result, code.value, enabled);
      }
      assert parts[i..][1..] == parts[i + 1..];
    }
  }

  method ScanParams(bytes: seq<Byte>, from: nat) returns (cursor: nat)
    requires from <= |bytes|
    ensures cursor == ParamsEnd(bytes, from)
  {
    cursor := from;
    while cursor < |bytes| && IsParam(bytes[cursor])
      invariant from <= cursor <= |bytes|
      invariant ParamsEnd(bytes, from) == ParamsEnd(bytes, cursor)
    {
      cursor := cursor + 1;
    }
  }

  /** A pass that moves from `esc` to `index` and turns `t` into `t'` accounts for everything in between. */
  lemma PassOver(s: seq<Byte>, esc: nat, index: nat, t: Tracked)
    requires esc < index <= |s| && forall k :: esc < k < index ==> s[k] != ESC
    ensures ApplyFrom(s, esc, t) == ApplyFrom(s, index, EffectAt(s, esc, t))
  {
    SkipToEscape(s, esc + 1, index, EffectAt(s, esc, t));
  }

  /** The sequence at `esc`: its effect, and where the scan goes on. */
  method ReadSequence(bytes: seq<Byte>, esc: nat, before: Tracked) returns (t: Tracked, index: nat)
    requires esc < |bytes| && bytes[esc] == ESC
    ensures t == EffectAt(bytes, esc, before)
    ensures esc < index <= |bytes| && forall k :: esc < k < index ==> bytes[k] != ESC
  {
    t := before;
    if esc + 1 < |bytes| && bytes[esc + 1] == 0x63 {
      return DEFAULTS, esc + 2;
    }
    if !(esc + 2 < |bytes| && bytes[esc + 1] == 0x5B && bytes[esc + 2] == 0x3F) {
      return t, esc + 1;
    }
    var cursor := ScanParams(bytes, esc + 3);
    if cursor >= |bytes| {
      return t, |bytes|;
    }
    var action := bytes[cursor];
    if action != 0x68 && action != 0x6C {
      return t, esc + 1;
    }
    var params := bytes[esc + 3..cursor];
    if !WellFormedParams(params) {
      return t, esc + 1;
    }
    t := ApplyParams(t, params, action == 0x68);
    return t, cursor + 1;
  }

  method ApplyTerminalModeSequences(bytes: seq<Byte>, before: Tracked) returns (t: Tracked)
    ensures t == Apply(bytes, before)
  {
    t := before;
    var index := 0;
    while true
      invariant 0 <= index <= |bytes|
      invariant ApplyFrom(bytes, index, t) == Apply(bytes, before)
      decreases |bytes| - index
    {
      var esc := FindEscape(bytes, index);
      SkipToEscape(bytes, index, esc, t);
      if esc == |bytes| {
        return;
      }
      ghost var t0 := t;
      t, index := ReadSequence(bytes, esc, t);
      PassOver(bytes, esc, index, t0);
    }
  }

  // ---------------------------------------------------------------------
  // The overlay object
  // ---------------------------------------------------------------------

  /** The overlay's value: the modes so far and the bytes the next feed rescans. */
  datatype OverlayState = OverlayState(tracked: Tracked, tail: seq<Byte>)

  const FRESH: OverlayState := OverlayState(DEFAULTS, [])

  function LastBytes(s: seq<Byte>): seq<Byte> {
    if |s| <= MODE_TAIL_LIMIT then s else s[|s| - MODE_TAIL_LIMIT..]
  }

  function Updated(o: OverlayState, bytes: seq<Byte>): OverlayState {
    OverlayState(Apply(o.tail + bytes, o.tracked), LastBytes(o.tail + bytes))
  }

  function Merge(tracked: TerminalModes, surface: TerminalModes): TerminalModes {
    TerminalModes(
      surface.bracketedPaste || tracked.bracketedPaste,
      surface.focusEvents || tracked.focusEvents,
      surface.applicationCursor || tracked.applicationCursor,
      surface.alternateScreen || tracked.alternateScreen,
      if tracked.mouse != NoMouse then tracked.mouse else surface.mouse)
  }

  class TerminalModeOverlay {
    var tracked: Tracked
    var tail: seq<Byte>

    function View(): OverlayState
      reads this
    {
      OverlayState(tracked, tail)
    }

    constructor ()
      ensures View() == FRESH
    {
      tracked, tail := DEFAULTS, [];
    }

    method UpdateFromOutput(bytes: seq<Byte>) returns (changed: bool)
      modifies this
      ensures View() == Updated(old(View()), bytes)
      ensures changed <==> tracked.modes != old(tracked.modes)
    {
      var before := tracked.modes;
      var data := tail + bytes;
      tail := [];
      tracked := ApplyTerminalModeSequences(data, tracked);
      var keep := Min(|data|, MODE_TAIL_LIMIT);
      tail := data[|data| - keep..];
      changed := tracked.modes != before;
    }

    function MergeWith(surface: TerminalModes): TerminalModes
      reads this
    {
      Merge(tracked.modes, surface)
    }
  }
}
