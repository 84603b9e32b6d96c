/**
 * An exit during an attach that delays the replay: the manager flushes what was held back before it has recorded the
 * output it holds for replay. When does that show in the text?
 */
module ReplayOrder {
  import opened Bytes
  import opened Utf8
  import opened EscapeScan
  import opened StripAnsi
  import opened SplitSafety
  import opened Retention
  import opened TranscriptRuns
  import opened PaneLifecycle
  import opened PaneTexts
  import opened HeldPrefixes

  /** The transcript when output held for replay is recorded only behind the exit, and when it is recorded in order. */
  function ReplayedBehindExit(l: Log, output: seq<Byte>): Log
    requires Accounted(l)
  {
    Step(Step(Step(l, Flush), Feed(output)), Flush)
  }

  function InOrder(l: Log, output: seq<Byte>): Log
    requires Accounted(l)
  {
    Step(Step(l, Feed(output)), Flush)
  }

  /** What the manager does with an exit before the replay, and with the same frames in order. */
  lemma ExitOrders(v: View, output: seq<Byte>, code: Option<int>, changed: bool)
    requires Accounted(v.log)
    ensures FlushedPane(OutputPane(ExitedPane(v, code), output, Accepted(changed))).log == ReplayedBehindExit(v.log, output)
    ensures ExitedPane(OutputPane(v, output, Accepted(changed)), code).log == InOrder(v.log, output)
  {
    hide Step, Accounted, ExitedPane, OutputPane;
    ExitedLog(v, code);
    OutputLog(ExitedPane(v, code), output, changed);
    FlushedLog(OutputPane(ExitedPane(v, code), output, Accepted(changed)));
    OutputLog(v, output, changed);
    ExitedLog(OutputPane(v, output, Accepted(changed)), code);
  }

  lemma FlushedLog(v: View)
    requires Accounted(v.log)
    ensures FlushedPane(v).log == Step(v.log, Flush)
  {
    hide Step, Accounted, FlushedRotation;
  }

  lemma ExitedLog(v: View, code: Option<int>)
    requires Accounted(v.log)
    ensures ExitedPane(v, code).log == Step(v.log, Flush)
  {
    hide Step, Accounted, FlushedRotation;
  }

  lemma OutputLog(v: View, output: seq<Byte>, changed: bool)
    requires Accounted(v.log)
    ensures OutputPane(v, output, Accepted(changed)).log == Step(v.log, Feed(output))
  {
    hide Step, Accounted, RecordedRotation, OffsetOf;
  }

  /** Without limits the two texts, for every output; an overlong prefix is flushed early, which does not show here. */
  lemma ExitAheadOfReplay(l: Log, output: seq<Byte>)
    requires Accounted(l) && l.mode.Plain() && l.maxBytes == 0 && l.maxLines == 0
    ensures ReplayedBehindExit(l, output).plain == l.plain + (Strip(l.pending) + StreamText([], [output]))
    ensures InOrder(l, output).plain == l.plain + StreamText(l.pending, [output])
  {
    hide Strip, Step, Accounted, StreamText;
    UnlimitedFlush(l);
    FedAndFlushed(Step(l, Flush), output);
    FedAndFlushed(l, output);
    Regroup(l.plain, Strip(l.pending), StreamText([], [output]));
  }

  lemma FedAndFlushed(l: Log, output: seq<Byte>)
    requires Accounted(l) && l.mode.Plain() && l.maxBytes == 0 && l.maxLines == 0
    ensures Step(Step(l, Feed(output)), Flush).plain == l.plain + StreamText(l.pending, [output])
  {
    hide Strip, Step, Accounted, Absorb;
    var fed := Absorb(l.pending, output);
    UnlimitedFeed(l, output);
    UnlimitedFlush(Step(l, Feed(output)));
    NothingStrips();
    assert [output][1..] == [] && StreamText(fed.1, []) == Strip(fed.1);
    assert StreamText(l.pending, [output]) == fed.0 + StreamText(fed.1, []);
    Regroup(l.plain, fed.0, Strip(fed.1));
    assert (l.plain + StreamText(l.pending, [output])) + [] == l.plain + StreamText(l.pending, [output]);
  }

  lemma UnlimitedFlush(l: Log)
    requires Accounted(l) && l.maxBytes == 0 && l.maxLines == 0
    ensures Step(l, Flush).plain == l.plain + Strip(l.pending) && Step(l, Flush).pending == []
    ensures SameMode(Step(l, Flush), l)
  {
    NothingStrips();
    assert l.plain + [] == l.plain;
    if l.pending != [] {
      NothingDropped(Drained(l));
    }
  }

  /** What is fed is text, held, or flushed early because too much is held. */
  lemma UnlimitedFeed(l: Log, output: seq<Byte>)
    requires Accounted(l) && l.maxBytes == 0 && l.maxLines == 0 && l.mode.Plain()
    ensures
      var (text, held) := Absorb(l.pending, output);
      var after := Step(l, Feed(output));
      && SameMode(after, l)
      && (|| (after.plain == l.plain + text && after.pending == held)
          || (after.plain == (l.plain + text) + Strip(held) && after.pending == []))
  {
    hide Strip, Enforce, Accounted, ChunkOf, CountNewlines, HoldBack;
    if output == [] {
      assert l.plain + [] == l.plain;
    } else {
      AppendedIsAccounted(l, output);
      NothingDropped(Appended(l, output));
      var text := Absorb(l.pending, output).0;
      assert (l.plain + text) + [] == l.plain + text;
    }
  }

  lemma NothingDropped(l: Log)
    requires l.maxBytes == 0 && l.maxLines == 0
    ensures Accounted(l) ==> Enforce(l) == l
  {
    if Accounted(l) {
      RotationCountsTheLoss(l);
      assert !OverAfter(l, 0) || l.chunks == [];
    }
  }

  /**
   * An exit ahead of the replay leaves the text that order would have left, whatever output it came before, exactly
   * when what was held back then is final. What a run holds back is as required here (`PendingIsHeld`).
   */
  lemma OrderShowsExactlyWhen(l: Log)
    requires Accounted(l) && l.mode.Plain() && l.maxBytes == 0 && l.maxLines == 0
    requires HoldBack(l.pending) == |l.pending|
    ensures (forall output :: ReplayedBehindExit(l, output).plain == InOrder(l, output).plain) <==> Final(l.pending)
  {
    hide HoldBack, Strip, StreamText, Step, Accounted, Final, ReplayedBehindExit, InOrder;
    if Final(l.pending) {
      forall output
        ensures ReplayedBehindExit(l, output).plain == InOrder(l, output).plain
      {
        ExitAheadOfReplay(l, output);
        FlushDoesNotShow(l.pending, output);
      }
    } else {
      var x := FlushShows(l.pending);
      ExitAheadOfReplay(l, x);
      SamePrefix(l.plain, Strip(l.pending) + StreamText([], [x]), StreamText(l.pending, [x]));
    }
  }

  /** The pane's text with the exit ahead of the replay, and flushed at the end, is the one the order received gives. */
  predicate SameEitherWay(v: View, code: Option<int>, output: seq<Byte>, changed: bool)
    requires Accounted(v.log)
  {
    FlushedPane(OutputPane(ExitedPane(v, code), output, Accepted(changed))).log.plain
      == ExitedPane(OutputPane(v, output, Accepted(changed)), code).log.plain
  }

  lemma ExitShowsExactlyWhen(v: View, code: Option<int>)
    requires Consistent(v) && v.log.mode.Plain() && v.log.maxBytes == 0 && v.log.maxLines == 0
    ensures Accounted(v.log)
    ensures (forall output: seq<Byte>, changed: bool :: SameEitherWay(v, code, output, changed)) <==> Final(v.log.pending)
  {
    hide Step, ExitedPane, OutputPane, FlushedPane, Accounted, Final, HoldBack, ReplayedBehindExit, InOrder;
    ConsistentLog(v);
    PendingIsHeld(v.log.mode, v.log.maxBytes, v.log.maxLines, v.ops);
    OrderShowsExactlyWhen(v.log);
    forall output: seq<Byte>, changed: bool
      ensures SameEitherWay(v, code, output, changed)
        <==> ReplayedBehindExit(v.log, output).plain == InOrder(v.log, output).plain
    {
      ExitOrders(v, output, code, changed);
    }
    if !Final(v.log.pending) {
      var output :| ReplayedBehindExit(v.log, output).plain != InOrder(v.log, output).plain;
      assert !SameEitherWay(v, code, output, true);
    }
  }

  lemma ConsistentLog(v: View)
    requires Consistent(v)
    ensures Accounted(v.log) && v.log == Run(Empty(v.log.mode, v.log.maxBytes, v.log.maxLines), v.ops)
  {
  }

  lemma SamePrefix<T>(a: seq<T>, b: seq<T>, c: seq<T>)
    ensures a + b == a + c <==> b == c
  {
    assert (a + b)[|a|..] == b && (a + c)[|a|..] == c;
  }

  /**
   * They are not always the same: an ESC received before the attach and the rest of its sequence during it make no
   * text in order, and three characters when the exit comes between.
   */
  lemma ExitCanSplitASequence(l: Log)
    requires Accounted(l) && l.mode.Plain() && l.maxBytes == 0 && l.maxLines == 0 && l.pending == [ESC]
    ensures
      var output: seq<Byte> := [0x5B, 0x6D];
      && InOrder(l, output).plain == l.plain
      && ReplayedBehindExit(l, output).plain == l.plain + [ESC, 0x5B, 0x6D]
  {
    hide Strip, HoldBack, Step, Accounted, StreamText;
    var output: seq<Byte> := [0x5B, 0x6D];
    SequenceTexts();
    assert [ESC] + output == [ESC, 0x5B, 0x6D] && [] + output == output;
    assert output[..2] == output && output[2..] == [];
    ExitAheadOfReplay(l, output);
    assert l.plain + [] == l.plain;
  }

  lemma SequenceTexts()
    ensures
      var output: seq<Byte> := [0x5B, 0x6D];
      && HoldBack(output) == 0 && HoldBack([ESC] + output) == 0
      && Strip([ESC]) == [ESC] && StreamText([], [output]) == output && StreamText([ESC], [output]) == []
  {
    var output: seq<Byte> := [0x5B, 0x6D];
    PlainOutput(output);
    OneEscape();
    WholeText([ESC] + output);
  }

  lemma PlainOutput(output: seq<Byte>)
    requires output == [0x5B, 0x6D]
    ensures HoldBack(output) == 0 && StreamText([], [output]) == output
  {
    hide StreamText, Strip, TailHold, TextOf, Decode;
    EndsInAscii(output);
    StaysInGround(output);
    OutputDecodes(output);
    ConcatFew(output, []);
    HoldBackIsLossless([output]);
  }

  lemma OutputDecodes(output: seq<Byte>)
    requires output == [0x5B, 0x6D]
    ensures TextOf(Decode(output)) == output
  {
    DecodeAscii(output);
    var us := Decode(output);
    assert us == [Ascii(0x5B), Ascii(0x6D)] && us[1..] == [Ascii(0x6D)];
    assert TextOf(us[1..]) == [0x6D] + TextOf(us[1..][1..]) && us[1..][1..] == [];
    assert TextOf(us) == [0x5B] + TextOf(us[1..]);
  }

  lemma WholeIsSilent(whole: seq<Byte>)
    requires whole == [ESC, 0x5B, 0x6D]
    ensures HoldBack(whole) == 0 && Strip(whole) == []
  {
    hide EmitAll, NextAll, Decode, TailHold;
    EndsInAscii(whole);
    var second, third := whole[1..], whole[1..][1..];
    assert second == [0x5B, 0x6D] && third == [0x6D] && third[1..] == [];
    assert TrackAll(Csi, third) == TrackAll(Ground, third[1..]);
    assert TrackAll(Ground, whole) == TrackAll(Escape, second) == TrackAll(Csi, third);
    DecodeAscii(whole);
    var us := Decode(whole);
    assert us[0].Key() == ESC && us[1].Key() == 0x5B && us[2].Key() == 0x6D;
    SilentUnit(Ground, us);
    SilentUnit(Escape, us[1..]);
    SilentUnit(Csi, us[2..]);
    assert us[1..][1..] == us[2..] && us[2..][1..] == [];
    NothingSilent();
  }

  lemma NothingSilent()
    ensures EmitAll(Ground, []) == [] && NextAll(Ground, []) == Ground
  {
  }

  lemma WholeText(whole: seq<Byte>)
    requires whole == [ESC, 0x5B, 0x6D]
    ensures HoldBack(whole) == 0 && StreamText([ESC], [[0x5B, 0x6D]]) == []
  {
    var output: seq<Byte> := [0x5B, 0x6D];
    WholeIsSilent(whole);
    hide Strip, HoldBack;
    assert [ESC] + output == whole && whole[..3] == whole && whole[3..] == [];
    assert [output][1..] == [];
    NothingStrips();
    assert StreamText([ESC], [output]) == Strip(whole) + StreamText([], []);
  }
}
