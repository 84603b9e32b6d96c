/**
 * The overlay does not depend on how output was cut into feeds. Applying a sequence twice is harmless because every
 * sequence overwrites a set of flags with constants, so rescanning a tail only repeats writes that come last anyway.
 */
module OverlayChunks {
  import opened Bytes
  import opened ModeOverlay

  // ---------------------------------------------------------------------
  // Sequences as writes of flags
  // ---------------------------------------------------------------------

  datatype Flag = Paste | Focus | Cursor | AltScreen | MouseX10 | MouseNormal | MouseButton | MouseAny | MouseSgr

  type Patch = map<Flag, bool>

  function Get(t: Tracked, f: Flag): bool {
    match f
    case Paste => t.modes.bracketedPaste
    case Focus => t.modes.focusEvents
    case Cursor => t.modes.applicationCursor
    case AltScreen => t.modes.alternateScreen
    case MouseX10 => t.flags.x10
    case MouseNormal => t.flags.normal
    case MouseButton => t.flags.buttonEvent
    case MouseAny => t.flags.anyEvent
    case MouseSgr => t.flags.sgr
  }

  function Pick(t: Tracked, p: Patch, f: Flag): bool { if f in p then p[f] else Get(t, f) }

  function Write(t: Tracked, p: Patch): (w: Tracked)
    ensures w.Coherent() && forall f :: Get(w, f) == Pick(t, p, f)
  {
    var flags := MouseModeFlags(
      Pick(t, p, MouseX10), Pick(t, p, MouseNormal), Pick(t, p, MouseButton), Pick(t, p, MouseAny),
      Pick(t, p, MouseSgr));
    Tracked(
      TerminalModes(Pick(t, p, Paste), Pick(t, p, Focus), Pick(t, p, Cursor), Pick(t, p, AltScreen), flags.Active()),
      flags)
  }

  /** The flags determine coherent modes. */
  lemma SameFlags(a: Tracked, b: Tracked)
    requires a.Coherent() && b.Coherent() && forall f :: Get(a, f) == Get(b, f)
    ensures a == b
  {
    assert Get(a, Paste) == Get(b, Paste) && Get(a, Focus) == Get(b, Focus);
    assert Get(a, Cursor) == Get(b, Cursor) && Get(a, AltScreen) == Get(b, AltScreen);
    assert Get(a, MouseX10) == Get(b, MouseX10) && Get(a, MouseNormal) == Get(b, MouseNormal);
    assert Get(a, MouseButton) == Get(b, MouseButton) && Get(a, MouseAny) == Get(b, MouseAny);
    assert Get(a, MouseSgr) == Get(b, MouseSgr);
  }

  lemma WriteNothing(t: Tracked)
    requires t.Coherent()
    ensures Write(t, map[]) == t
  {
    SameFlags(Write(t, map[]), t);
  }

  lemma WriteTwice(t: Tracked, p: Patch, q: Patch)
    ensures Write(Write(t, p), q) == Write(t, p + q)
  {
    var once, twice := Write(t, p + q), Write(Write(t, p), q);
    hide Write, Get;
    forall f
      ensures Get(twice, f) == Get(once, f)
    {
      assert Get(twice, f) == Pick(Write(t, p), q, f) && Get(once, f) == Pick(t, p + q, f);
    }
    SameFlags(twice, once);
  }

  function CodePatch(code: nat, enabled: bool): Patch {
    if code == 9 then map[MouseX10 := enabled]
    else if code == 1000 then map[MouseNormal := enabled]
    else if code == 1002 then map[MouseButton := enabled]
    else if code == 1003 then map[MouseAny := enabled]
    else if code == 1006 then map[MouseSgr := enabled]
    else if code == 1 then map[Cursor := enabled]
    else if code == 1004 then map[Focus := enabled]
    else if code == 47 || code == 1047 || code == 1049 then map[AltScreen := enabled]
    else if code == 2004 then map[Paste := enabled]
    else map[]
  }

  lemma CodeWrites(t: Tracked, code: nat, enabled: bool)
    requires t.Coherent()
    ensures ApplyMode(t, code, enabled) == Write(t, CodePatch(code, enabled))
  {
    hide Write, ApplyMode, CodePatch, Get;
    var a, w := ApplyMode(t, code, enabled), Write(t, CodePatch(code, enabled));
    CodeKeepsCoherent(t, code, enabled);
    forall f ensures Get(a, f) == Get(w, f) {
      CodeSetsFlag(t, code, enabled, f);
    }
    SameFlags(a, w);
  }

  lemma CodeSetsFlag(t: Tracked, code: nat, enabled: bool, f: Flag)
    requires t.Coherent()
    ensures Get(ApplyMode(t, code, enabled), f) == Pick(t, CodePatch(code, enabled), f)
  {
  }

  lemma CodeKeepsCoherent(t: Tracked, code: nat, enabled: bool)
    requires t.Coherent()
    ensures ApplyMode(t, code, enabled).Coherent()
  {
  }

  function PartsPatch(parts: seq<seq<Byte>>, enabled: bool): Patch
    decreases |parts|
  {
    if parts == [] then map[]
    else
      var code := ParseDigits(parts[0]);
      (if code.Some? then CodePatch(code.value, enabled) else map[]) + PartsPatch(parts[1..], enabled)
  }

  lemma {:induction false} PartsWrite(t: Tracked, parts: seq<seq<Byte>>, enabled: bool)
    requires t.Coherent()
    ensures ApplyParts(t, parts, enabled) == Write(t, PartsPatch(parts, enabled))
    decreases |parts|
  {
    if parts == [] {
      WriteNothing(t);
    } else {
      var code := ParseDigits(parts[0]);
      var p := if code.Some? then CodePatch(code.value, enabled) else map[];
      if code.Some? {
        CodeWrites(t, code.value, enabled);
      } else {
        WriteNothing(t);
      }
      PartsWrite(Write(t, p), parts[1..], enabled);
      WriteTwice(t, p, PartsPatch(parts[1..], enabled));
    }
  }

  const RESET: Patch := map[
    Paste := false, Focus := false, Cursor := false, AltScreen := false, MouseX10 := false, MouseNormal := false,
    MouseButton := false, MouseAny := false, MouseSgr := false]

  /** The flags written by the sequence that starts at `e`. */
  function PatchAt(s: seq<Byte>, e: nat): Patch {
    match SequenceEnd(s, e)
    case None => map[]
    case Some(end) =>
      if IsReset(s, e) then RESET else PartsPatch(Split(s[e + 3..end - 1], 0x3B), s[end - 1] == 0x68)
  }

  lemma ResetWrites(t: Tracked)
    ensures Write(t, RESET) == DEFAULTS
  {
  }

  lemma EffectWrites(s: seq<Byte>, e: nat, t: Tracked)
    requires t.Coherent()
    ensures EffectAt(s, e, t) == Write(t, PatchAt(s, e))
  {
    match SequenceEnd(s, e)
    case None => WriteNothing(t);
    case Some(end) =>
      if IsReset(s, e) {
        ResetWrites(t);
      } else {
        PartsWrite(t, Split(s[e + 3..end - 1], 0x3B), s[end - 1] == 0x68);
      }
  }

  /** Everything written by the sequences that start in `[i, j)`, the later ones on top. */
  function Writes(s: seq<Byte>, i: nat, j: nat): Patch
    requires i <= j
    decreases j - i
  {
    if i == j then map[] else PatchAt(s, i) + Writes(s, i + 1, j)
  }

  lemma {:induction false} PassWrites(s: seq<Byte>, i: nat, t: Tracked)
    requires i <= |s| && t.Coherent()
    ensures ApplyFrom(s, i, t) == Write(t, Writes(s, i, |s|))
    decreases |s| - i
  {
    if i == |s| {
      WriteNothing(t);
    } else {
      EffectWrites(s, i, t);
      PassWrites(s, i + 1, Write(t, PatchAt(s, i)));
      WriteTwice(t, PatchAt(s, i), Writes(s, i + 1, |s|));
    }
  }

  lemma {:induction false} WritesSplit(s: seq<Byte>, i: nat, k: nat, j: nat)
    requires i <= k <= j
    ensures Writes(s, i, j) == Writes(s, i, k) + Writes(s, k, j)
    decreases k - i
  {
    if i < k {
      WritesSplit(s, i + 1, k, j);
      MergeAssociates(PatchAt(s, i), Writes(s, i + 1, k), Writes(s, k, j));
    }
  }

  lemma MergeAssociates(a: Patch, b: Patch, c: Patch)
    ensures a + (b + c) == (a + b) + c
  {
  }

  // ---------------------------------------------------------------------
  // Sequences in a suffix and in a prefix
  // ---------------------------------------------------------------------

  lemma {:induction false} ParamsEndOfSuffix(s: seq<Byte>, k: nat, i: nat)
    requires k <= |s| && i <= |s| - k
    ensures ParamsEnd(s, k + i) == k + ParamsEnd(s[k..], i)
    decreases |s| - k - i
  {
    if k + i < |s| && IsParam(s[k + i]) {
      ParamsEndOfSuffix(s, k, i + 1);
    }
  }

  lemma PatchOfSuffix(s: seq<Byte>, k: nat, e: nat)
    requires k <= |s|
    ensures PatchAt(s[k..], e) == PatchAt(s, k + e)
    ensures SequenceEnd(s, k + e)
      == match SequenceEnd(s[k..], e) case None => None case Some(end) => Some(k + end)
  {
    hide PartsPatch, Split, WellFormedParams, ParamsEnd;
    var t := s[k..];
    assert IsReset(t, e) <==> IsReset(s, k + e);
    assert OpensPrivate(t, e) <==> OpensPrivate(s, k + e);
    if !IsReset(t, e) && OpensPrivate(t, e) {
      ParamsEndOfSuffix(s, k, e + 3);
      var cursor := ParamsEnd(t, e + 3);
      assert t[e + 3..cursor] == s[k + e + 3..k + cursor];
    }
  }

  lemma {:induction false} WritesOfSuffix(s: seq<Byte>, k: nat, i: nat)
    requires k <= |s| && i <= |s| - k
    ensures Writes(s[k..], i, |s| - k) == Writes(s, k + i, |s|)
    decreases |s| - k - i
  {
    if k + i < |s| {
      PatchOfSuffix(s, k, i);
      WritesOfSuffix(s, k, i + 1);
    }
  }

  lemma {:induction false} ParamsEndOfPrefix(s: seq<Byte>, b: seq<Byte>, i: nat)
    requires i <= |s|
    ensures ParamsEnd(s, i) == Min(|s|, ParamsEnd(s + b, i))
    decreases |s| - i
  {
    if i < |s| && IsParam(s[i]) {
      ParamsEndOfPrefix(s, b, i + 1);
    }
  }

  /** A prefix holds exactly the sequences of the whole that end inside it, with the same effect. */
  lemma SequenceOfPrefix(s: seq<Byte>, b: seq<Byte>, e: nat)
    requires e < |s|
    ensures
      var whole := SequenceEnd(s + b, e);
      if whole.Some? && whole.value <= |s| then
        SequenceEnd(s, e) == whole && PatchAt(s, e) == PatchAt(s + b, e)
      else SequenceEnd(s, e) == None
  {
    var w := s + b;
    if !IsReset(w, e) && OpensPrivate(w, e) && e + 3 <= |s| {
      ParamsEndOfPrefix(s, b, e + 3);
      var cursor := ParamsEnd(s, e + 3);
      if cursor < |s| {
        assert s[e + 3..cursor] == w[e + 3..cursor];
      }
    }
  }

  // ---------------------------------------------------------------------
  // Independence of the cut
  // ---------------------------------------------------------------------

  /** No complete mode sequence in `s` is longer than the tail and one new byte together. */
  predicate ShortSequences(s: seq<Byte>) {
    forall e :: 0 <= e < |s| && SequenceEnd(s, e).Some? ==> SequenceEnd(s, e).value - e <= MODE_TAIL_LIMIT + 1
  }

  lemma ShortPrefix(s: seq<Byte>, b: seq<Byte>)
    requires ShortSequences(s + b)
    ensures ShortSequences(s)
  {
    forall e | 0 <= e < |s| && SequenceEnd(s, e).Some?
      ensures SequenceEnd(s, e).value - e <= MODE_TAIL_LIMIT + 1
    {
      SequenceOfPrefix(s, b, e);
    }
  }

  /** Before the tail a prefix and the whole write the same. */
  lemma {:induction false} OldWritesAgree(s: seq<Byte>, b: seq<Byte>, i: nat, k: nat)
    requires ShortSequences(s + b) && i <= k <= |s| && |s| - k >= Min(|s|, MODE_TAIL_LIMIT)
    ensures Writes(s, i, k) == Writes(s + b, i, k)
    decreases k - i
  {
    if i < k {
      SequenceOfPrefix(s, b, i);
      OldWritesAgree(s, b, i + 1, k);
    }
  }

  /** Inside the tail the prefix writes no flag that the whole does not write again. */
  lemma {:induction false} TailWritesReturn(s: seq<Byte>, b: seq<Byte>, i: nat)
    requires i <= |s|
    ensures Writes(s, i, |s|).Keys <= Writes(s + b, i, |s + b|).Keys
    decreases |s| - i
  {
    if i < |s| {
      SequenceOfPrefix(s, b, i);
      TailWritesReturn(s, b, i + 1);
    }
  }

  lemma Covered(a: Patch, b: Patch, d: Patch)
    requires b.Keys <= d.Keys
    ensures (a + b) + d == a + d
  {
  }

  /** One feed: rescanning the tail and the new bytes gives one pass over everything. */
  lemma FeedExtendsPass(s: seq<Byte>, b: seq<Byte>)
    requires ShortSequences(s + b)
    ensures Updated(OverlayState(Apply(s, DEFAULTS), LastBytes(s)), b)
      == OverlayState(Apply(s + b, DEFAULTS), LastBytes(s + b))
  {
    hide Writes, Write, PatchAt, ShortSequences;
    var w, k := s + b, |s| - |LastBytes(s)|;
    var data := LastBytes(s) + b;
    assert data == w[k..];
    var kept, again, later := Writes(s, 0, k), Writes(s, k, |s|), Writes(w, k, |w|);
    assert Apply(s, DEFAULTS) == Write(DEFAULTS, kept + again) by {
      PassWrites(s, 0, DEFAULTS);
      WritesSplit(s, 0, k, |s|);
    }
    assert Apply(data, Write(DEFAULTS, kept + again)) == Write(DEFAULTS, (kept + again) + later) by {
      PassWrites(data, 0, Write(DEFAULTS, kept + again));
      WritesOfSuffix(w, k, 0);
      WriteTwice(DEFAULTS, kept + again, later);
    }
    assert Apply(w, DEFAULTS) == Write(DEFAULTS, kept + later) by {
      PassWrites(w, 0, DEFAULTS);
      WritesSplit(w, 0, k, |w|);
      OldWritesAgree(s, b, 0, k);
    }
    TailWritesReturn(s, b, k);
    Covered(kept, again, later);
    assert LastBytes(data) == LastBytes(w);
  }

  function UpdatedAll(o: OverlayState, frames: seq<seq<Byte>>): OverlayState
    decreases |frames|
  {
    if frames == [] then o else UpdatedAll(Updated(o, frames[0]), frames[1..])
  }

  lemma {:induction false} FeedsExtendPass(s: seq<Byte>, frames: seq<seq<Byte>>)
    requires ShortSequences(s + Concat(frames))
    ensures UpdatedAll(OverlayState(Apply(s, DEFAULTS), LastBytes(s)), frames)
      == OverlayState(Apply(s + Concat(frames), DEFAULTS), LastBytes(s + Concat(frames)))
    decreases |frames|
  {
    if frames == [] {
      assert s + Concat(frames) == s;
    } else {
      var next := s + frames[0];
      assert s + Concat(frames) == next + Concat(frames[1..]);
      ShortPrefix(next, Concat(frames[1..]));
      FeedExtendsPass(s, frames[0]);
      FeedsExtendPass(next, frames[1..]);
    }
  }

  /** After any split of the stream the modes are those of one pass over all of it. */
  lemma ChunkIndependence(frames: seq<seq<Byte>>)
    requires ShortSequences(Concat(frames))
    ensures UpdatedAll(FRESH, frames) == OverlayState(Apply(Concat(frames), DEFAULTS), LastBytes(Concat(frames)))
  {
    assert [] + Concat(frames) == Concat(frames);
    FeedsExtendPass([], frames);
  }
}
