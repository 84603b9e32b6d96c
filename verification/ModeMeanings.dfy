/**
 * What the tracked modes are, read off the bytes alone: a mode is on exactly when the stream sets it and does not
 * reset it afterwards, and the mouse mode is the first enabled one of a fixed order.
 */
module ModeMeanings {
  import opened Bytes
  import opened ModeOverlay
  import opened OverlayChunks
  import opened OverlayLosses

  // ---------------------------------------------------------------------
  // Sets and resets as bytes
  // ---------------------------------------------------------------------

  predicate IsNumber(field: seq<Byte>) { field != [] && forall i :: 0 <= i < |field| ==> 0x30 <= field[i] <= 0x39 }

  function NumberOf(field: seq<Byte>): int {
    if field == [] then 0 else NumberOf(field[..|field| - 1]) * 10 + field[|field| - 1] - 0x30
  }

  /** The fields with `;` between them. */
  function Joined(fields: seq<seq<Byte>>): seq<Byte>
    requires fields != []
  {
    if |fields| == 1 then fields[0] else fields[0] + [0x3B] + Joined(fields[1..])
  }

  /** `ESC [ ? fields h` or `l` */
  function Spelled(fields: seq<seq<Byte>>, on: bool): seq<Byte>
    requires fields != []
  {
    [0x1B, 0x5B, 0x3F] + Joined(fields) + [if on then 0x68 else 0x6C]
  }

  /** At `e` the stream has that sequence, with numbers as fields and one of `codes` among them. */
  ghost predicate SpelledAt(s: seq<Byte>, e: nat, codes: set<int>, on: bool, fields: seq<seq<Byte>>) {
    && e <= |s| && fields != [] && (forall i :: 0 <= i < |fields| ==> IsNumber(fields[i]))
    && Spelled(fields, on) <= s[e..] && exists i :: 0 <= i < |fields| && NumberOf(fields[i]) in codes
  }

  /** At `e` the stream sets one of `codes`, or resets one, if only by the full reset `ESC c`. */
  ghost predicate Switches(s: seq<Byte>, e: nat, codes: set<int>, on: bool) {
    || (exists fields :: SpelledAt(s, e, codes, on, fields))
    || (!on && e + 2 <= |s| && s[e] == 0x1B && s[e + 1] == 0x63)
  }

  /** The stream sets one of `codes` and does not reset one behind that. */
  ghost predicate On(s: seq<Byte>, codes: set<int>) {
    exists e: nat :: e < |s| && Switches(s, e, codes, true) && forall k :: e < k < |s| ==> !Switches(s, k, codes, false)
  }

  // ---------------------------------------------------------------------
  // Fields
  // ---------------------------------------------------------------------

  lemma {:induction false} SplitJoins(fields: seq<seq<Byte>>)
    requires fields != [] && forall i :: 0 <= i < |fields| ==> 0x3B !in fields[i]
    ensures Split(Joined(fields), 0x3B) == fields
    decreases |fields|
  {
    if |fields| == 1 {
      NothingToSplit(fields[0], 0x3B);
    } else {
      SplitJoins(fields[1..]);
      SplitBehind(fields[0], Joined(fields[1..]));
    }
  }

  lemma {:induction false} SplitBehind(field: seq<Byte>, rest: seq<Byte>)
    requires 0x3B !in field
    ensures Split(field + [0x3B] + rest, 0x3B) == [field] + Split(rest, 0x3B)
    decreases |field|
  {
    var s := field + [0x3B] + rest;
    if field == [] {
      assert s[1..] == rest;
    } else {
      assert s[1..] == field[1..] + [0x3B] + rest;
      SplitBehind(field[1..], rest);
      assert [s[0]] + field[1..] == field;
    }
  }

  predicate IsFieldOf(field: seq<Byte>, s: seq<Byte>) { forall b :: b in field ==> b in s && b != 0x3B }

  /** The fields of `s` are pieces of it without `;`, and joined they are it. */
  lemma {:induction false} FieldsOf(s: seq<Byte>)
    ensures Joined(Split(s, 0x3B)) == s
    ensures forall i :: 0 <= i < |Split(s, 0x3B)| ==> IsFieldOf(Split(s, 0x3B)[i], s)
    decreases |s|
  {
    if s != [] {
      var rest := Split(s[1..], 0x3B);
      FieldsOf(s[1..]);
      assert s == [s[0]] + s[1..];
      assert forall i :: 0 <= i < |rest| ==> IsFieldOf(rest[i], s);
      if s[0] == 0x3B {
        assert Split(s, 0x3B) == [[]] + rest && Split(s, 0x3B)[1..] == rest;
        assert [] + [0x3B] + s[1..] == s;
        assert IsFieldOf([], s);
      } else {
        var first := [s[0]] + rest[0];
        assert IsFieldOf(first, s);
        assert Split(s, 0x3B) == [first] + rest[1..] && Split(s, 0x3B)[1..] == rest[1..];
        if |rest| > 1 {
          assert s[1..] == rest[0] + [0x3B] + Joined(rest[1..]);
          assert first + [0x3B] + Joined(rest[1..]) == [s[0]] + s[1..];
        }
      }
    }
  }

  lemma {:induction false} ParsedIsNumber(field: seq<Byte>)
    requires forall i :: 0 <= i < |field| ==> 0x30 <= field[i] <= 0x39
    ensures NumberOf(field) >= 0
    ensures ParseDigits(field) == if NumberOf(field) <= 0xFFFF then Some(NumberOf(field)) else None
    decreases |field|
  {
    if field != [] {
      ParsedIsNumber(field[..|field| - 1]);
    }
  }

  // ---------------------------------------------------------------------
  // A set or reset is what the overlay reads
  // ---------------------------------------------------------------------

  function CodesOf(f: Flag): set<int> {
    match f
    case Paste => {2004}
    case Focus => {1004}
    case Cursor => {1}
    case AltScreen => {47, 1047, 1049}
    case MouseX10 => {9}
    case MouseNormal => {1000}
    case MouseButton => {1002}
    case MouseAny => {1003}
    case MouseSgr => {1006}
  }

  lemma CodeOfFlag(code: nat, on: bool, f: Flag)
    ensures f in CodePatch(code, on) <==> code in CodesOf(f)
    ensures f in CodePatch(code, on) ==> CodePatch(code, on)[f] == on
  {
  }

  lemma {:induction false} PartsSwitch(fields: seq<seq<Byte>>, on: bool, f: Flag)
    requires forall i :: 0 <= i < |fields| ==> IsNumber(fields[i])
    ensures f in PartsPatch(fields, on) <==> exists i :: 0 <= i < |fields| && NumberOf(fields[i]) in CodesOf(f)
    ensures f in PartsPatch(fields, on) ==> PartsPatch(fields, on)[f] == on
    decreases |fields|
  {
    hide CodePatch, CodesOf, NumberOf, ParseDigits;
    if fields != [] {
      PartsSwitch(fields[1..], on, f);
      ParsedIsNumber(fields[0]);
      SmallCodes(f);
      if NumberOf(fields[0]) <= 0xFFFF {
        CodeOfFlag(NumberOf(fields[0]), on, f);
      }
      if exists i :: 0 <= i < |fields| && NumberOf(fields[i]) in CodesOf(f) {
        var i :| 0 <= i < |fields| && NumberOf(fields[i]) in CodesOf(f);
        assert i > 0 ==> fields[1..][i - 1] == fields[i];
      }
      if f in PartsPatch(fields[1..], on) {
        var i :| 0 <= i < |fields[1..]| && NumberOf(fields[1..][i]) in CodesOf(f);
        assert fields[i + 1] == fields[1..][i];
      }
    }
  }

  lemma SmallCodes(f: Flag)
    ensures forall code :: code in CodesOf(f) ==> 0 <= code <= 0xFFFF
  {
  }

  /** The sequence the overlay reads at `e`, in its fields. */
  lemma ReadIsSpelled(s: seq<Byte>, e: nat) returns (fields: seq<seq<Byte>>, on: bool)
    requires SequenceEnd(s, e).Some? && !IsReset(s, e)
    ensures fields != [] && (forall i :: 0 <= i < |fields| ==> IsNumber(fields[i])) && Spelled(fields, on) <= s[e..]
    ensures PatchAt(s, e) == PartsPatch(fields, on)
  {
    hide PartsPatch, Split;
    var end := SequenceEnd(s, e).value;
    var params := s[e + 3..end - 1];
    fields, on := Split(params, 0x3B), s[end - 1] == 0x68;
    FieldsOf(params);
    forall i | 0 <= i < |fields|
      ensures IsNumber(fields[i])
    {
      assert fields[i] in fields && IsFieldOf(fields[i], params);
      forall j | 0 <= j < |fields[i]|
        ensures 0x30 <= fields[i][j] <= 0x39
      {
        assert fields[i][j] in fields[i] && fields[i][j] in params;
        assert forall b :: b in params ==> IsParam(b);
      }
    }
    assert Spelled(fields, on) == s[e..end];
    assert s[e..end] == s[e..][..end - e];
  }

  lemma {:induction false} JoinedBytes(fields: seq<seq<Byte>>)
    requires fields != [] && forall i :: 0 <= i < |fields| ==> IsNumber(fields[i])
    ensures Joined(fields) != [] && forall i :: 0 <= i < |Joined(fields)| ==> IsParam(Joined(fields)[i])
    ensures forall i :: 0 <= i < |fields| ==> 0x3B !in fields[i]
    decreases |fields|
  {
    if |fields| > 1 {
      JoinedBytes(fields[1..]);
      assert forall i :: 1 <= i < |fields| ==> fields[i] == fields[1..][i - 1];
    }
  }

  /** What is spelled at `e` is read there. */
  lemma SpelledIsRead(s: seq<Byte>, e: nat, fields: seq<seq<Byte>>, on: bool)
    requires e <= |s| && fields != [] && (forall i :: 0 <= i < |fields| ==> IsNumber(fields[i]))
    requires Spelled(fields, on) <= s[e..]
    ensures PatchAt(s, e) == PartsPatch(fields, on) && SequenceEnd(s, e).Some? && !IsReset(s, e)
  {
    hide PartsPatch, Split, Joined, NumberOf;
    var params := Joined(fields);
    JoinedBytes(fields);
    SpelledBytes(s, e, params, on);
    ParamsUpTo(s, e + 3, e + 3 + |params|);
    SplitJoins(fields);
    assert forall part :: part in fields ==> part != [];
  }

  lemma SpelledBytes(s: seq<Byte>, e: nat, params: seq<Byte>, on: bool)
    requires e <= |s| && [0x1B, 0x5B, 0x3F] + params + [if on then 0x68 else 0x6C] <= s[e..]
    ensures
      var end := e + 3 + |params|;
      && end < |s| && s[e] == 0x1B && s[e + 1] == 0x5B && s[e + 2] == 0x3F && s[e + 3..end] == params
      && s[end] == (if on then 0x68 else 0x6C) && !IsParam(s[end])
  {
    var q := [0x1B, 0x5B, 0x3F] + params + [if on then 0x68 else 0x6C];
    assert forall i :: 0 <= i < |q| ==> s[e + i] == s[e..][i] == q[i];
  }

  lemma PatchIsSwitch(s: seq<Byte>, e: nat, f: Flag, on: bool)
    ensures f in PatchAt(s, e) && PatchAt(s, e)[f] == on <==> Switches(s, e, CodesOf(f), on)
  {
    hide PatchAt, CodesOf, PartsPatch, Spelled, NumberOf;
    if IsReset(s, e) {
      ResetIsOff(s, e, f);
    } else {
      if SequenceEnd(s, e).Some? {
        var fields, value := ReadIsSpelled(s, e);
        PartsSwitch(fields, value, f);
        if value == on && f in PatchAt(s, e) {
          assert SpelledAt(s, e, CodesOf(f), on, fields);
        }
      } else {
        NothingRead(s, e);
      }
      forall fields | SpelledAt(s, e, CodesOf(f), on, fields)
        ensures f in PatchAt(s, e) && PatchAt(s, e)[f] == on
      {
        SpelledIsRead(s, e, fields, on);
        PartsSwitch(fields, on, f);
      }
    }
  }

  lemma NothingRead(s: seq<Byte>, e: nat)
    requires SequenceEnd(s, e).None?
    ensures PatchAt(s, e) == map[]
  {
  }

  lemma ResetIsOff(s: seq<Byte>, e: nat, f: Flag)
    requires IsReset(s, e)
    ensures f in PatchAt(s, e) && !PatchAt(s, e)[f]
    ensures forall fields, on :: !SpelledAt(s, e, CodesOf(f), on, fields)
  {
    hide CodesOf;
    forall fields, on
      ensures !SpelledAt(s, e, CodesOf(f), on, fields)
    {
      if SpelledAt(s, e, CodesOf(f), on, fields) {
        SpelledIsRead(s, e, fields, on);
      }
    }
  }

  // ---------------------------------------------------------------------
  // The last one counts
  // ---------------------------------------------------------------------

  ghost predicate WrittenOn(s: seq<Byte>, e: nat, f: Flag, on: bool) { f in PatchAt(s, e) && PatchAt(s, e)[f] == on }

  lemma {:induction false} LastWriteCounts(s: seq<Byte>, i: nat, f: Flag)
    requires i <= |s|
    ensures (f in Writes(s, i, |s|) && Writes(s, i, |s|)[f]) <==>
      exists e :: i <= e < |s| && WrittenOn(s, e, f, true) && forall k :: e < k < |s| ==> !WrittenOn(s, k, f, false)
    ensures (f in Writes(s, i, |s|) && !Writes(s, i, |s|)[f]) ==> exists k :: i <= k < |s| && WrittenOn(s, k, f, false)
    ensures f !in Writes(s, i, |s|) ==> forall k :: i <= k < |s| ==> !WrittenOn(s, k, f, true) && !WrittenOn(s, k, f, false)
    decreases |s| - i
  {
    hide PatchAt;
    if i < |s| {
      LastWriteCounts(s, i + 1, f);
      var rest := Writes(s, i + 1, |s|);
      if f !in rest && WrittenOn(s, i, f, true) {
        assert forall k :: i < k < |s| ==> !WrittenOn(s, k, f, false);
      }
      assert f !in rest && f in PatchAt(s, i) && !PatchAt(s, i)[f] ==> WrittenOn(s, i, f, false);
    }
  }

  /** A flag is on after a stream exactly when the stream has set it and not reset it since. */
  lemma FlagIsOn(s: seq<Byte>, f: Flag)
    ensures Get(Apply(s, DEFAULTS), f) <==> On(s, CodesOf(f))
  {
    hide PatchAt, Switches, Writes, CodesOf;
    PassWrites(s, 0, DEFAULTS);
    LastWriteCounts(s, 0, f);
    forall e: nat, on | e < |s|
      ensures WrittenOn(s, e, f, on) <==> Switches(s, e, CodesOf(f), on)
    {
      PatchIsSwitch(s, e, f, on);
    }
  }

  /** What every mode is after a stream. */
  lemma ModesMean(s: seq<Byte>)
    ensures
      var m := Apply(s, DEFAULTS).modes;
      && (m.bracketedPaste <==> On(s, {2004}))
      && (m.focusEvents <==> On(s, {1004}))
      && (m.applicationCursor <==> On(s, {1}))
      && (m.alternateScreen <==> On(s, {47, 1047, 1049}))
      && m.mouse == MouseOf(s)
  {
    hide On, Apply;
    forall f: Flag
      ensures Get(Apply(s, DEFAULTS), f) <==> On(s, CodesOf(f))
    {
      FlagIsOn(s, f);
    }
    var t := Apply(s, DEFAULTS);
    assert Get(t, Paste) <==> On(s, CodesOf(Paste));
    assert Get(t, Focus) <==> On(s, CodesOf(Focus));
    assert Get(t, Cursor) <==> On(s, CodesOf(Cursor));
    assert Get(t, AltScreen) <==> On(s, CodesOf(AltScreen));
    MouseMeans(s);
  }

  /** SGR reports first, then all motion, dragging, clicks, and presses only. */
  ghost function MouseOf(s: seq<Byte>): MouseMode {
    if On(s, {1006}) then Sgr
    else if On(s, {1003}) then AnyEvent
    else if On(s, {1002}) then ButtonEvent
    else if On(s, {1000}) then Normal
    else if On(s, {9}) then X10
    else NoMouse
  }

  lemma MouseMeans(s: seq<Byte>)
    ensures Apply(s, DEFAULTS).modes.mouse == MouseOf(s)
  {
    hide On, Apply;
    var t := Apply(s, DEFAULTS);
    FlagIsOn(s, MouseX10);
    FlagIsOn(s, MouseNormal);
    FlagIsOn(s, MouseButton);
    FlagIsOn(s, MouseAny);
    FlagIsOn(s, MouseSgr);
    assert t.Coherent() by { PassIsCoherent(s); }
  }

  lemma PassIsCoherent(s: seq<Byte>)
    ensures Apply(s, DEFAULTS).Coherent()
  {
    PassWrites(s, 0, DEFAULTS);
  }

  /** The overlay's modes after any cut of a stream on which a loss does not show. */
  lemma OverlayModesMean(frames: seq<seq<Byte>>)
    requires LossesDoNotShow(Concat(frames))
    ensures
      var m, s := UpdatedAll(FRESH, frames).tracked.modes, Concat(frames);
      && (m.bracketedPaste <==> On(s, {2004}))
      && (m.focusEvents <==> On(s, {1004}))
      && (m.applicationCursor <==> On(s, {1}))
      && (m.alternateScreen <==> On(s, {47, 1047, 1049}))
      && m.mouse == MouseOf(s)
  {
    hide On, MouseOf, LossesDoNotShow;
    CutsAgreeExactlyWhenLossesDoNotShow(Concat(frames));
    ModesMean(Concat(frames));
  }

  /** Merged with a surface's, a mode is on if either says so; a tracked mouse mode wins over the surface's. */
  lemma MergedModesMean(s: seq<Byte>, surface: TerminalModes)
    ensures
      var m := Merge(Apply(s, DEFAULTS).modes, surface);
      && (m.bracketedPaste <==> On(s, {2004}) || surface.bracketedPaste)
      && (m.focusEvents <==> On(s, {1004}) || surface.focusEvents)
      && (m.applicationCursor <==> On(s, {1}) || surface.applicationCursor)
      && (m.alternateScreen <==> On(s, {47, 1047, 1049}) || surface.alternateScreen)
      && m.mouse == if MouseOf(s) == NoMouse then surface.mouse else MouseOf(s)
  {
    hide On, MouseOf;
    ModesMean(s);
  }

  /** What was there before does not matter to a sequence that ends a stream. */
  lemma LastSetIsOn(s: seq<Byte>, fields: seq<seq<Byte>>, codes: set<int>)
    requires fields != [] && SpelledAt(Spelled(fields, true), 0, codes, true, fields)
    ensures On(s + Spelled(fields, true), codes)
  {
    var q := Spelled(fields, true);
    var w := s + q;
    assert w[|s|..] == q && q[0..] == q;
    assert SpelledAt(w, |s|, codes, true, fields);
    assert Switches(w, |s|, codes, true);
    JoinedBytes(fields);
    forall k | |s| < k < |w|
      ensures !Switches(w, k, codes, false)
    {
      assert w[k] == q[k - |s|] != 0x1B;
      forall others
        ensures !SpelledAt(w, k, codes, false, others)
      {
        SpelledBegins(w, k, codes, others);
      }
    }
  }

  lemma SpelledBegins(s: seq<Byte>, e: nat, codes: set<int>, fields: seq<seq<Byte>>)
    ensures SpelledAt(s, e, codes, false, fields) ==> e < |s| && s[e] == 0x1B
  {
    if SpelledAt(s, e, codes, false, fields) {
      SpelledBytes(s, e, Joined(fields), false);
    }
  }
}
