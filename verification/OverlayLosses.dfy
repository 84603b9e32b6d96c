/**
 * What a cut can cost the overlay. A mode sequence longer than the tail and one byte is lost when it is cut before
 * its last byte; whether that shows depends on what the other sequences write.
 */
module OverlayLosses {
  import opened Bytes
  import opened ModeOverlay
  import opened OverlayChunks

  /** A complete sequence that a cut can lose. */
  predicate Long(s: seq<Byte>, e: nat) {
    SequenceEnd(s, e).Some? && SequenceEnd(s, e).value - e > MODE_TAIL_LIMIT + 1
  }

  /** Everything written by the sequences that start in `[i, j)`, of the long ones only those in `keep`. */
  function Kept(s: seq<Byte>, keep: set<nat>, i: nat, j: nat): Patch
    requires i <= j
    decreases j - i
  {
    if i == j then map[]
    else (if Long(s, i) && i !in keep then map[] else PatchAt(s, i)) + Kept(s, keep, i + 1, j)
  }

  lemma {:induction false} KeptSplit(s: seq<Byte>, keep: set<nat>, i: nat, k: nat, j: nat)
    requires i <= k <= j
    ensures Kept(s, keep, i, j) == Kept(s, keep, i, k) + Kept(s, keep, k, j)
    decreases k - i
  {
    if i < k {
      KeptSplit(s, keep, i + 1, k, j);
      var first := if Long(s, i) && i !in keep then map[] else PatchAt(s, i);
      MergeAssociates(first, Kept(s, keep, i + 1, k), Kept(s, keep, k, j));
    }
  }

  /** Where every long sequence is kept, everything is. */
  lemma {:induction false} KeptAll(s: seq<Byte>, keep: set<nat>, i: nat, j: nat)
    requires i <= j && forall k :: i <= k < j && Long(s, k) ==> k in keep
    ensures Kept(s, keep, i, j) == Writes(s, i, j)
    decreases j - i
  {
    if i < j {
      KeptAll(s, keep, i + 1, j);
    }
  }

  lemma {:induction false} KeptIsWritten(s: seq<Byte>, keep: set<nat>, i: nat, j: nat)
    requires i <= j
    ensures Kept(s, keep, i, j).Keys <= Writes(s, i, j).Keys
    decreases j - i
  {
    if i < j {
      KeptIsWritten(s, keep, i + 1, j);
    }
  }

  /** Only what is kept within the range matters. */
  lemma {:induction false} KeptInRange(s: seq<Byte>, a: set<nat>, b: set<nat>, i: nat, j: nat)
    requires i <= j && forall k :: i <= k < j ==> (k in a <==> k in b)
    ensures Kept(s, a, i, j) == Kept(s, b, i, j)
    decreases j - i
  {
    if i < j {
      KeptInRange(s, a, b, i + 1, j);
    }
  }

  /** The long sequences from `k` on. */
  function LongFrom(s: seq<Byte>, k: nat): set<nat> { set e: nat | k <= e < |s| && Long(s, e) }

  /** The overlay that has seen `s` and applied, of its long sequences, those in `keep`. */
  function StateOf(s: seq<Byte>, keep: set<nat>): OverlayState {
    OverlayState(Write(DEFAULTS, Kept(s, keep, 0, |s|)), LastBytes(s))
  }

  // ---------------------------------------------------------------------
  // One feed and many
  // ---------------------------------------------------------------------

  lemma LongInPrefix(s: seq<Byte>, b: seq<Byte>, e: nat)
    requires e < |s|
    ensures Long(s, e) ==> Long(s + b, e) && PatchAt(s, e) == PatchAt(s + b, e)
    ensures Long(s + b, e) && SequenceEnd(s + b, e).value <= |s| ==> Long(s, e)
  {
    SequenceOfPrefix(s, b, e);
  }

  /** Before the tail a prefix keeps what the whole keeps. */
  lemma {:induction false} OldKeptAgree(s: seq<Byte>, b: seq<Byte>, keep: set<nat>, more: set<nat>, i: nat, k: nat)
    requires i <= k <= |s| && |s| - k >= Min(|s|, MODE_TAIL_LIMIT)
    requires keep <= LongFrom(s, 0) && forall e :: e in more ==> k <= e
    ensures Kept(s, keep, i, k) == Kept(s + b, keep + more, i, k)
    decreases k - i
  {
    hide Long, PatchAt, LongFrom;
    if i < k {
      OneKeptAgrees(s, b, keep, more, i, k);
      OldKeptAgree(s, b, keep, more, i + 1, k);
    }
  }

  lemma OneKeptAgrees(s: seq<Byte>, b: seq<Byte>, keep: set<nat>, more: set<nat>, i: nat, k: nat)
    requires i < k <= |s| && |s| - k >= Min(|s|, MODE_TAIL_LIMIT)
    requires keep <= LongFrom(s, 0) && forall e :: e in more ==> k <= e
    ensures (if Long(s, i) && i !in keep then map[] else PatchAt(s, i))
      == (if Long(s + b, i) && i !in keep + more then map[] else PatchAt(s + b, i))
  {
    hide PartsPatch;
    SequenceOfPrefix(s, b, i);
    LongInPrefix(s, b, i);
  }

  /** One feed applies every sequence that starts in the tail or behind it, and nothing else anew. */
  lemma FeedKeeps(s: seq<Byte>, b: seq<Byte>, keep: set<nat>)
    requires keep <= LongFrom(s, 0)
    ensures
      var more := LongFrom(s + b, |s| - |LastBytes(s)|);
      && Updated(StateOf(s, keep), b) == StateOf(s + b, keep + more)
      && keep + more <= LongFrom(s + b, 0)
  {
    hide Writes, Write, PatchAt, Kept, Long;
    var w, k := s + b, |s| - |LastBytes(s)|;
    var data, more := LastBytes(s) + b, LongFrom(w, k);
    assert data == w[k..];
    var kept, again, later := Kept(s, keep, 0, k), Kept(s, keep, k, |s|), Writes(w, k, |w|);
    KeptSplit(s, keep, 0, k, |s|);
    assert Apply(data, Write(DEFAULTS, kept + again)) == Write(DEFAULTS, (kept + again) + later) by {
      PassWrites(data, 0, Write(DEFAULTS, kept + again));
      WritesOfSuffix(w, k, 0);
      WriteTwice(DEFAULTS, kept + again, later);
    }
    assert Kept(w, keep + more, 0, |w|) == kept + later by {
      KeptSplit(w, keep + more, 0, k, |w|);
      KeptAll(w, keep + more, k, |w|);
      OldKeptAgree(s, b, keep, more, 0, k);
    }
    TailWritesReturn(s, b, k);
    KeptIsWritten(s, keep, k, |s|);
    Covered(kept, again, later);
    assert LastBytes(data) == LastBytes(w);
    forall e | e in keep
      ensures e in LongFrom(w, 0)
    {
      LongInPrefix(s, b, e);
    }
  }

  /** However a stream is cut, the overlay ends with all its short sequences and some of its long ones applied. */
  lemma {:induction false} FeedsKeep(s: seq<Byte>, keep: set<nat>, frames: seq<seq<Byte>>) returns (all: set<nat>)
    requires keep <= LongFrom(s, 0)
    ensures UpdatedAll(StateOf(s, keep), frames) == StateOf(s + Concat(frames), all)
    decreases |frames|
  {
    hide Updated, StateOf, LongFrom;
    if frames == [] {
      assert s + Concat(frames) == s;
      all := keep;
    } else {
      var next := s + frames[0];
      assert s + Concat(frames) == next + Concat(frames[1..]);
      FeedKeeps(s, frames[0], keep);
      all := FeedsKeep(next, keep + LongFrom(next, |s| - |LastBytes(s)|), frames[1..]);
    }
  }

  lemma Fresh()
    ensures StateOf([], {}) == FRESH && LongFrom([], 0) == {}
  {
    WriteNothing(DEFAULTS);
  }

  // ---------------------------------------------------------------------
  // When a loss does not show
  // ---------------------------------------------------------------------

  /** What the short sequences alone make of a flag. */
  function ShortValue(s: seq<Byte>, f: Flag): bool { Pick(DEFAULTS, Kept(s, {}, 0, |s|), f) }

  /**
   * Every flag a long sequence writes is written again by a later short one, or has the value that the short
   * sequences alone give it.
   */
  predicate LossesDoNotShow(s: seq<Byte>) {
    forall e: nat, f: Flag ::
      e < |s| && Long(s, e) && f in PatchAt(s, e) ==>
        f in Kept(s, {}, e + 1, |s|) || PatchAt(s, e)[f] == ShortValue(s, f)
  }

  /** Without long sequences there is nothing to lose. */
  lemma ShortHasNoLosses(s: seq<Byte>)
    requires ShortSequences(s)
    ensures LossesDoNotShow(s)
  {
    hide Kept, PatchAt;
  }

  /** Then it does not matter which long sequences are kept. */
  lemma {:induction false} KeptValue(s: seq<Byte>, keep: set<nat>, i: nat, f: Flag)
    requires LossesDoNotShow(s) && i <= |s|
    ensures f in Kept(s, {}, i, |s|) ==> f in Kept(s, keep, i, |s|)
    ensures f in Kept(s, keep, i, |s|) ==> Kept(s, keep, i, |s|)[f] == ShortValue(s, f)
    decreases |s| - i
  {
    hide PatchAt, Long;
    if i < |s| {
      KeptValue(s, keep, i + 1, f);
      KeptSplit(s, {}, 0, i, |s|);
      var rest := Kept(s, keep, i + 1, |s|);
      if f !in rest && f in PatchAt(s, i) && !Long(s, i) {
        assert Kept(s, {}, i, |s|)[f] == PatchAt(s, i)[f];
      }
    }
  }

  /** What any cut of a stream leaves: the stream with some of its long sequences applied. */
  ghost predicate Seen(s: seq<Byte>, o: OverlayState) {
    exists keep: set<nat> :: keep <= LongFrom(s, 0) && o == StateOf(s, keep)
  }

  lemma SeenGrows(s: seq<Byte>, b: seq<Byte>, o: OverlayState)
    requires Seen(s, o)
    ensures Seen(s + b, Updated(o, b))
  {
    hide StateOf, LongFrom;
    var keep :| keep <= LongFrom(s, 0) && o == StateOf(s, keep);
    FeedKeeps(s, b, keep);
  }

  lemma SeenIsAll(s: seq<Byte>, o: OverlayState)
    requires Seen(s, o) && LossesDoNotShow(s)
    ensures o.tracked == Apply(s, DEFAULTS)
  {
    hide StateOf, LongFrom, LossesDoNotShow;
    var keep :| keep <= LongFrom(s, 0) && o == StateOf(s, keep);
    AnyKeptIsAll(s, keep);
  }

  lemma NothingSeen()
    ensures Seen([], FRESH)
  {
    Fresh();
  }

  lemma AnyKeptIsAll(s: seq<Byte>, keep: set<nat>)
    requires LossesDoNotShow(s)
    ensures StateOf(s, keep).tracked == Apply(s, DEFAULTS)
  {
    hide Write, Kept, LossesDoNotShow;
    PassWrites(s, 0, DEFAULTS);
    KeptAll(s, LongFrom(s, 0), 0, |s|);
    var some, all := Kept(s, keep, 0, |s|), Kept(s, LongFrom(s, 0), 0, |s|);
    forall f: Flag
      ensures Get(Write(DEFAULTS, some), f) == Get(Write(DEFAULTS, all), f)
    {
      KeptValue(s, keep, 0, f);
      KeptValue(s, LongFrom(s, 0), 0, f);
      assert Pick(DEFAULTS, some, f) == Pick(DEFAULTS, all, f) by {
        Unwritten(s, keep, f);
        Unwritten(s, LongFrom(s, 0), f);
      }
    }
    SameFlags(Write(DEFAULTS, some), Write(DEFAULTS, all));
  }

  /** A flag nothing kept writes is not written by a short sequence either. */
  lemma Unwritten(s: seq<Byte>, keep: set<nat>, f: Flag)
    requires f in Kept(s, {}, 0, |s|) ==> f in Kept(s, keep, 0, |s|)
    ensures f !in Kept(s, keep, 0, |s|) ==> ShortValue(s, f) == Get(DEFAULTS, f)
  {
  }

  // ---------------------------------------------------------------------
  // When it does
  // ---------------------------------------------------------------------

  function Singles(s: seq<Byte>): seq<seq<Byte>> {
    if s == [] then [] else [[s[0]]] + Singles(s[1..])
  }

  lemma {:induction false} SinglesConcat(s: seq<Byte>)
    ensures Concat(Singles(s)) == s
    decreases |s|
  {
    if s != [] {
      SinglesConcat(s[1..]);
      assert Singles(s)[1..] == Singles(s[1..]) && s == [s[0]] + s[1..];
    }
  }

  lemma {:induction false} UpdatedAppend(o: OverlayState, a: seq<seq<Byte>>, b: seq<seq<Byte>>)
    ensures UpdatedAll(o, a + b) == UpdatedAll(UpdatedAll(o, a), b)
    decreases |a|
  {
    if a == [] {
      assert a + b == b;
    } else {
      assert (a + b)[1..] == a[1..] + b;
      UpdatedAppend(Updated(o, a[0]), a[1..], b);
    }
  }

  /** Byte by byte every long sequence is lost. */
  lemma {:induction false} SinglesLose(s: seq<Byte>, rest: seq<Byte>, keep: set<nat>)
    requires keep <= LongFrom(s, 0)
    ensures UpdatedAll(StateOf(s, keep), Singles(rest)) == StateOf(s + rest, keep)
    ensures keep <= LongFrom(s + rest, 0)
    decreases |rest|
  {
    hide Updated, StateOf;
    if rest == [] {
      assert s + rest == s;
    } else {
      var next := s + [rest[0]];
      FeedKeeps(s, [rest[0]], keep);
      var more := LongFrom(next, |s| - |LastBytes(s)|);
      assert more == {} by {
        forall e | e in more
          ensures false
        {
          EndInside(next, e);
        }
      }
      assert keep + more == keep;
      assert s + rest == next + rest[1..] && Singles(rest)[1..] == Singles(rest[1..]);
      SinglesLose(next, rest[1..], keep);
    }
  }

  lemma EndInside(s: seq<Byte>, e: nat)
    ensures SequenceEnd(s, e).Some? ==> e < SequenceEnd(s, e).value <= |s| && s[e] == ESC
    ensures SequenceEnd(s, e).Some? ==> forall k :: e < k < SequenceEnd(s, e).value ==> s[k] != ESC
  {
  }

  /** A long sequence that arrives in one piece is the only one its feed applies. */
  lemma OnlyOneArrives(s: seq<Byte>, e: nat)
    requires e < |s| && Long(s, e)
    ensures
      var end := SequenceEnd(s, e).value;
      end <= |s| && LongFrom(s[..end], e - |LastBytes(s[..e])|) == {e}
  {
    hide PatchAt;
    var end := SequenceEnd(s, e).value;
    EndInside(s, e);
    var w, k := s[..end], e - |LastBytes(s[..e])|;
    assert s == w + s[end..];
    LongInPrefix(w, s[end..], e);
    forall i: nat | k <= i < |w| && Long(w, i)
      ensures i == e
    {
      EndInside(w, i);
      assert w[e] == ESC && forall j :: e < j < end ==> w[j] == s[j];
    }
  }

  /** The whole stream byte by byte but for one long sequence, which arrives in one piece. */
  lemma KeepsOne(s: seq<Byte>, e: nat) returns (frames: seq<seq<Byte>>)
    requires e < |s| && Long(s, e)
    ensures Concat(frames) == s && UpdatedAll(FRESH, frames) == StateOf(s, {e})
  {
    hide Updated, StateOf, LongFrom, LastBytes;
    var end := SequenceEnd(s, e).value;
    OnlyOneArrives(s, e);
    EndInside(s, e);
    var a, q, r := s[..e], s[e..end], s[end..];
    assert a + q == s[..end] && (a + q) + r == s;
    OneArrives(a, q, e);
    SinglesLose(a + q, r, {e});
    frames := AroundOne(a, q, r, StateOf(a + q, {e}));
  }

  /** A sequence in one piece, after its stream byte by byte. */
  lemma OneArrives(a: seq<Byte>, q: seq<Byte>, e: nat)
    requires e == |a| && LongFrom(a + q, e - |LastBytes(a)|) == {e}
    ensures Updated(UpdatedAll(FRESH, Singles(a)), q) == StateOf(a + q, {e}) && {e} <= LongFrom(a + q, 0)
  {
    hide Updated, StateOf, LastBytes;
    Fresh();
    SinglesLose([], a, {});
    assert [] + a == a;
    FeedKeeps(a, q, {});
    assert {} + {e} == {e};
  }

  lemma AroundOne(a: seq<Byte>, q: seq<Byte>, r: seq<Byte>, middle: OverlayState) returns (frames: seq<seq<Byte>>)
    requires Updated(UpdatedAll(FRESH, Singles(a)), q) == middle
    ensures Concat(frames) == (a + q) + r && UpdatedAll(FRESH, frames) == UpdatedAll(middle, Singles(r))
  {
    hide Updated;
    var behind := [q] + Singles(r);
    assert behind[0] == q && behind[1..] == Singles(r);
    frames := Singles(a) + behind;
    UpdatedAppend(FRESH, Singles(a), behind);
    ConcatAppend(Singles(a), behind);
    SinglesConcat(a);
    SinglesConcat(r);
    Regroup(a, q, r);
  }

  lemma LosesAll(s: seq<Byte>)
    ensures Concat(Singles(s)) == s && UpdatedAll(FRESH, Singles(s)) == StateOf(s, {})
  {
    Fresh();
    SinglesLose([], s, {});
    SinglesConcat(s);
    assert [] + s == s;
  }

  /** With or without a long sequence that matters, a flag differs. */
  lemma LossShows(s: seq<Byte>, e: nat, f: Flag)
    requires e < |s| && Long(s, e) && f in PatchAt(s, e)
    requires f !in Kept(s, {}, e + 1, |s|) && PatchAt(s, e)[f] != ShortValue(s, f)
    ensures StateOf(s, {e}).tracked != StateOf(s, {}).tracked
  {
    hide Write, Kept, PatchAt, Long, Get;
    KeptSplit(s, {e}, 0, e, |s|);
    KeptStep(s, {e}, e);
    KeptInRange(s, {e}, {}, e + 1, |s|);
    var one, none := Kept(s, {e}, 0, |s|), Kept(s, {}, 0, |s|);
    assert one[f] == PatchAt(s, e)[f];
    assert Get(Write(DEFAULTS, one), f) == Pick(DEFAULTS, one, f);
    assert Get(Write(DEFAULTS, none), f) == Pick(DEFAULTS, none, f);
  }

  lemma KeptStep(s: seq<Byte>, keep: set<nat>, i: nat)
    requires i < |s|
    ensures Kept(s, keep, i, |s|)
      == (if Long(s, i) && i !in keep then map[] else PatchAt(s, i)) + Kept(s, keep, i + 1, |s|)
  {
  }

  /** A stream comes out as in one pass, however it is cut, if and only if its losses do not show. */
  lemma CutsAgreeExactlyWhenLossesDoNotShow(s: seq<Byte>)
    ensures (forall frames: seq<seq<Byte>> | Concat(frames) == s :: UpdatedAll(FRESH, frames).tracked == Apply(s, DEFAULTS))
      <==> LossesDoNotShow(s)
  {
    hide StateOf, Kept, PatchAt, Long, Apply, ShortValue;
    if LossesDoNotShow(s) {
      forall frames: seq<seq<Byte>> | Concat(frames) == s
        ensures UpdatedAll(FRESH, frames).tracked == Apply(s, DEFAULTS)
      {
        Fresh();
        var keep := FeedsKeep([], {}, frames);
        assert [] + s == s;
        AnyKeptIsAll(s, keep);
      }
    } else {
      var e: nat, f: Flag :| e < |s| && Long(s, e) && f in PatchAt(s, e)
        && f !in Kept(s, {}, e + 1, |s|) && PatchAt(s, e)[f] != ShortValue(s, f);
      var frames := KeepsOne(s, e);
      LosesAll(s);
      LossShows(s, e, f);
    }
  }

  // ---------------------------------------------------------------------
  // A single sequence
  // ---------------------------------------------------------------------

  /** `q` is a single complete private-mode sequence and nothing else. */
  predicate IsOneSequence(q: seq<Byte>) { OpensPrivate(q, 0) && SequenceEnd(q, 0) == Some(|q|) }

  lemma {:induction false} SilentBehind(q: seq<Byte>, i: nat)
    requires IsOneSequence(q) && 1 <= i <= |q|
    ensures Kept(q, {}, i, |q|) == map[] && Writes(q, i, |q|) == map[]
    decreases |q| - i
  {
    if i < |q| {
      EndInside(q, 0);
      EndInside(q, i);
      SilentBehind(q, i + 1);
    }
  }

  /** For a single sequence the cut matters exactly when it is longer than 65 bytes and does something. */
  lemma SingleSequenceBound(q: seq<Byte>)
    requires IsOneSequence(q)
    ensures (forall frames: seq<seq<Byte>> | Concat(frames) == q :: UpdatedAll(FRESH, frames).tracked == Apply(q, DEFAULTS))
      <==> (|q| <= MODE_TAIL_LIMIT + 1 || Apply(q, DEFAULTS) == DEFAULTS)
  {
    CutsAgreeExactlyWhenLossesDoNotShow(q);
    SilentBehind(q, 1);
    PassWrites(q, 0, DEFAULTS);
    var p := PatchAt(q, 0);
    assert Writes(q, 0, |q|) == p && Apply(q, DEFAULTS) == Write(DEFAULTS, p);
    OnlyLong(q);
    if |q| > MODE_TAIL_LIMIT + 1 {
      OneSequenceShows(q, p);
    }
  }

  lemma OnlyLong(q: seq<Byte>)
    requires IsOneSequence(q)
    ensures Long(q, 0) <==> |q| > MODE_TAIL_LIMIT + 1
    ensures forall e: nat :: 0 < e < |q| ==> !Long(q, e)
  {
    EndInside(q, 0);
    forall e: nat | 0 < e < |q|
      ensures !Long(q, e)
    {
      EndInside(q, e);
    }
  }

  lemma OneSequenceShows(q: seq<Byte>, p: Patch)
    requires IsOneSequence(q) && Long(q, 0) && p == PatchAt(q, 0) && forall e: nat :: 0 < e < |q| ==> !Long(q, e)
    ensures LossesDoNotShow(q) <==> Write(DEFAULTS, p) == DEFAULTS
  {
    hide Write, PatchAt, Long;
    SilentBehind(q, 1);
    assert Kept(q, {}, 0, |q|) == map[] by { KeptStep(q, {}, 0); }
    assert forall f: Flag :: ShortValue(q, f) == Get(DEFAULTS, f);
    assert LossesDoNotShow(q) <==> forall f: Flag :: f in p ==> p[f] == Get(DEFAULTS, f);
    assert forall f: Flag :: Get(Write(DEFAULTS, p), f) == Pick(DEFAULTS, p, f);
    if forall f: Flag :: f in p ==> p[f] == Get(DEFAULTS, f) {
      SameFlags(Write(DEFAULTS, p), DEFAULTS);
    }
  }

  /** `CSI ? 0...01 h`, which sets the application cursor mode however many zeros are written. */
  function Padded(n: nat): seq<Byte> { [ESC, 0x5B, 0x3F] + Digits(n) + [0x68] }

  function Digits(n: nat): (s: seq<Byte>)
    ensures |s| == n + 1 && s[n] == 0x31 && forall i :: 0 <= i < n ==> s[i] == 0x30
  {
    seq(n, _ => 0x30) + [0x31]
  }

  lemma {:induction false} ZerosParse(s: seq<Byte>)
    requires forall i :: 0 <= i < |s| ==> s[i] == 0x30
    ensures ParseDigits(s) == Some(0)
    decreases |s|
  {
    if s != [] {
      ZerosParse(s[..|s| - 1]);
    }
  }

  lemma {:induction false} ParamsUpTo(s: seq<Byte>, i: nat, end: nat)
    requires i <= end < |s| && !IsParam(s[end]) && forall j :: i <= j < end ==> IsParam(s[j])
    ensures ParamsEnd(s, i) == end
    decreases end - i
  {
    if i < end {
      ParamsUpTo(s, i + 1, end);
    }
  }

  /** The bound is met and exceeded: with 60 zeros no cut matters, with one more a cut loses the mode. */
  lemma PaddedSequenceIsLost(n: nat)
    ensures IsOneSequence(Padded(n)) && |Padded(n)| == n + 5
    ensures Apply(Padded(n), DEFAULTS).modes.applicationCursor
    ensures n <= 60 ==>
      forall frames: seq<seq<Byte>> | Concat(frames) == Padded(n) ::
        UpdatedAll(FRESH, frames).tracked == Apply(Padded(n), DEFAULTS)
    ensures n > 60 ==>
      UpdatedAll(FRESH, [Padded(n)[..n + 4], Padded(n)[n + 4..]]).tracked == DEFAULTS != Apply(Padded(n), DEFAULTS)
  {
    var q := Padded(n);
    PaddedIsOne(n);
    SilentBehind(q, 1);
    PassWrites(q, 0, DEFAULTS);
    assert Writes(q, 0, |q|) == map[Cursor := true];
    assert Get(Apply(q, DEFAULTS), Cursor);
    if n > 60 {
      LongSequenceIsLost(q);
    } else {
      SingleSequenceBound(q);
    }
  }

  lemma PaddedIsOne(n: nat)
    ensures IsOneSequence(Padded(n)) && PatchAt(Padded(n), 0) == map[Cursor := true]
  {
    hide ParseDigits;
    var q, d := Padded(n), Digits(n);
    assert q[3..n + 4] == d && q[n + 4] == 0x68;
    assert forall j :: 3 <= j < n + 4 ==> q[j] == d[j - 3];
    ParamsUpTo(q, 3, n + 4);
    NothingToSplit(d, 0x3B);
    assert d[..n + 1] == d && ParseDigits(d) == Some(1) by { PaddedParses(n); }
    var parts := [d];
    assert parts[1..] == [] && PartsPatch(parts[1..], true) == map[];
    assert PartsPatch(parts, true) == map[Cursor := true] + map[];
  }

  lemma PaddedParses(n: nat)
    ensures ParseDigits(Digits(n)) == Some(1)
  {
    var d := Digits(n);
    ZerosParse(d[..n]);
    assert d[..|d| - 1] == d[..n];
  }

  lemma {:induction false} QuietPass(s: seq<Byte>, i: nat, t: Tracked)
    requires i <= |s| && forall k :: i <= k < |s| ==> s[k] != ESC
    ensures ApplyFrom(s, i, t) == t
    decreases |s| - i
  {
    if i < |s| {
      QuietPass(s, i + 1, t);
    }
  }

  /** A sequence too long for the tail has no effect when its last byte arrives alone. */
  lemma LongSequenceIsLost(q: seq<Byte>)
    requires IsOneSequence(q) && |q| > MODE_TAIL_LIMIT + 1
    ensures UpdatedAll(FRESH, [q[..|q| - 1], q[|q| - 1..]]).tracked == DEFAULTS
  {
    var a, b := q[..|q| - 1], q[|q| - 1..];
    assert a + b == q;
    SequenceOfPrefix(a, b, 0);
    assert a[0] == ESC && EffectAt(a, 0, DEFAULTS) == DEFAULTS;
    QuietPass(a, 1, DEFAULTS);
    assert [] + a == a;
    var first := Updated(FRESH, a);
    assert first == OverlayState(DEFAULTS, LastBytes(a));
    QuietPass(LastBytes(a) + b, 0, DEFAULTS);
    var last: seq<seq<Byte>> := [b];
    assert [a, b][1..] == last && last[1..] == [];
    assert UpdatedAll(first, [b]) == UpdatedAll(Updated(first, b), []);
  }
}
