/** Feeding a slice against feeding its bytes one at a time, and encoded chords against normalised input. */
module MatcherSlices {
  import opened Bytes
  import opened DetachEncoding
  import opened DetachMatcher
  import opened MatcherRuns

  // ---------------------------------------------------------------------
  // A slice is its bytes, one at a time
  // ---------------------------------------------------------------------

  /** The bytes fed one at a time at the same instant, up to the first detach. */
  function OneByOne(m: Matcher, bytes: seq<Byte>, now: nat): (Matcher, FeedBytesResult)
    requires m.Aligned()
    decreases |bytes|
  {
    if bytes == [] then (m, FeedBytesResult([], false, []))
    else
      var (m', r) := FedTimed(m, bytes[0], now);
      if r.Detach? then (m', FeedBytesResult([], true, bytes[1..]))
      else
        var (last, rest) := OneByOne(m', bytes[1..], now);
        (last, rest.(forward := r.bytes + rest.forward))
  }

  /** Right after a byte at `now` nothing can be expired at `now`. */
  lemma FreshIsNotExpired(m: Matcher, byte: Byte, now: nat)
    requires m.Valid() && m.Before(now) && !Expired(m, now)
    requires m.timeout > 0 || |m.chord| <= 1
    ensures !Expired(FedByte(m, byte, now).matcher, now)
  {
    hide Beginning;
    var fed := FedByte(m, byte, now);
    FedByteKeepsValid(m, byte, now);
    if fed.matcher.heldAt != [] && m.chord != [] {
      var at := m.heldAt + [now];
      assert fed.matcher.heldAt[0] in at;
      if m.heldAt != [] {
        FirstIsLeast(at, fed.matcher.heldAt[0]);
      }
    }
  }

  lemma FirstIsLeast(at: seq<nat>, t: nat)
    requires |at| >= 2 && Sorted(at[..|at| - 1]) && at[|at| - 2] <= at[|at| - 1] && t in at
    ensures at[0] <= t
  {
    var k :| 0 <= k < |at| && at[k] == t;
    var earlier := at[..|at| - 1];
    if k < |earlier| {
      assert earlier[0] <= earlier[k];
    } else {
      assert earlier[0] <= earlier[|earlier| - 1];
    }
  }

  lemma {:induction false} SliceIsOneByOne(m: Matcher, bytes: seq<Byte>, now: nat)
    requires m.Valid() && m.Before(now) && !Expired(m, now)
    requires CtrlLetter(m.chord).None? && (m.timeout > 0 || |m.chord| <= 1)
    ensures FedSlice(m, bytes, now) == OneByOne(m, bytes, now)
    decreases |bytes|
  {
    hide FedByte, Expired;
    if bytes != [] {
      var fed := FedByte(m, bytes[0], now);
      assert NextKey(bytes, m.chord) == Encoded(bytes[0], 1);
      FedByteKeepsValid(m, bytes[0], now);
      assert [] + fed.forward == fed.forward;
      assert FedTimed(m, bytes[0], now) == (fed.matcher, if fed.detached then Detach else Forward(fed.forward));
      if !fed.detached {
        FreshIsNotExpired(m, bytes[0], now);
        SliceIsOneByOne(fed.matcher, bytes[1..], now);
      }
    }
  }

  /** The first byte releases what the slice would release. */
  lemma ReleaseComesFirst(m: Matcher, bytes: seq<Byte>, now: nat)
    requires m.Valid() && m.Before(now) && bytes != []
    ensures
      var (m1, released) := Released(m, now);
      var (last, r) := OneByOne(m1, bytes, now);
      !Expired(m1, now) ==> OneByOne(m, bytes, now) == (last, r.(forward := released + r.forward))
  {
    hide FedByte;
    var (m1, released) := Released(m, now);
    ReleaseKeepsBytes(m, now);
    var fed := FedByte(m1, bytes[0], now);
    assert [] + fed.forward == fed.forward;
    if fed.detached {
      TimedDetachIsWhole(m, bytes[0], now);
      assert released + [] == [];
    } else if !Expired(m1, now) {
      var rest := OneByOne(fed.matcher, bytes[1..], now).1;
      assert (released + fed.forward) + rest.forward == released + (fed.forward + rest.forward);
    }
  }

  lemma SlicesAgree(m: Matcher, bytes: seq<Byte>, now: nat)
    requires m.Valid() && m.Before(now) && bytes != []
    requires CtrlLetter(m.chord).None? && (m.timeout > 0 || |m.chord| <= 1)
    ensures FedBytes(m, bytes, now) == OneByOne(m, bytes, now)
  {
    var m1 := Released(m, now).0;
    ReleaseKeepsBytes(m, now);
    assert !Expired(m1, now);
    SliceIsOneByOne(m1, bytes, now);
    ReleaseComesFirst(m, bytes, now);
  }

  // ---------------------------------------------------------------------
  // And exactly then
  // ---------------------------------------------------------------------

  /** One at a time without patience: every byte is released before the next can join it. */
  lemma {:induction false} ImpatientNeverDetaches(m: Matcher, bytes: seq<Byte>, now: nat)
    requires m.Valid() && m.Before(now) && m.timeout == 0 && |m.chord| >= 2
    ensures !OneByOne(m, bytes, now).1.detached
    decreases |bytes|
  {
    if bytes != [] {
      var m1 := Released(m, now).0;
      ReleaseKeepsBytes(m, now);
      assert m1.held == [];
      FedByteKeepsValid(m1, bytes[0], now);
      ImpatientNeverDetaches(FedByte(m1, bytes[0], now).matcher, bytes[1..], now);
    }
  }

  /** Bytes that do not occur in a one-byte chord never detach one at a time. */
  lemma {:induction false} OtherBytesNeverDetach(m: Matcher, bytes: seq<Byte>, now: nat)
    requires m.Valid() && m.Before(now) && |m.chord| == 1 && m.chord[0] !in bytes
    ensures !OneByOne(m, bytes, now).1.detached
    decreases |bytes|
  {
    if bytes != [] {
      var m1 := Released(m, now).0;
      ReleaseKeepsBytes(m, now);
      assert m1.held + [bytes[0]] == [bytes[0]];
      FedByteKeepsValid(m1, bytes[0], now);
      OtherBytesNeverDetach(FedByte(m1, bytes[0], now).matcher, bytes[1..], now);
    }
  }

  /** While `m` holds the first `n` bytes of the chord, feeding the rest of it as a slice detaches. */
  lemma {:induction false} RestOfChordDetaches(m: Matcher, now: nat)
    requires m.Valid() && m.Before(now) && |m.chord| >= 2 && m.held == m.chord[..|m.held|] && |m.held| < |m.chord|
    ensures FedSlice(m, m.chord[|m.held|..], now).1.detached
    decreases |m.chord| - |m.held|
  {
    var n, rest := |m.held|, m.chord[|m.held|..];
    assert NextKey(rest, m.chord) == Encoded(rest[0], 1);
    assert m.held + [rest[0]] == m.chord[..n + 1];
    assert rest[1..] == m.chord[n + 1..];
    FedByteKeepsValid(m, rest[0], now);
    if n + 1 < |m.chord| {
      assert Begins(m.chord, m.chord[..n + 1]);
      RestOfChordDetaches(FedByte(m, rest[0], now).matcher, now);
    } else {
      assert m.chord[..n + 1] == m.chord;
    }
  }

  /** The CSI-u spelling of a Ctrl-letter, with two digits. */
  function Spelled(raw: Byte): seq<Byte>
    requires 1 <= raw <= 26
  {
    [ESC, 0x5B, 0x30 + raw / 10, 0x30 + raw % 10, 0x75]
  }

  lemma TwoDigits(a: Byte, b: Byte)
    requires 0x30 <= a <= 0x32 && 0x30 <= b <= 0x39
    ensures Split([a, b], 0x3B) == [[a, b]] && Split([a, b], 0x3A) == [[a, b]]
    ensures ParseUnsigned([a, b], 0xFFFF_FFFF) == Some((a - 0x30) * 10 + (b - 0x30))
  {
    NothingToSplit([a, b], 0x3B);
    NothingToSplit([a, b], 0x3A);
    assert [a, b][..1] == [a] && [a][..0] == [];
    assert Digits([a]) == Some(a - 0x30);
    assert Digits([a, b]) == Some((a - 0x30) * 10 + (b - 0x30));
  }

  lemma SpelledIsChord(raw: Byte)
    requires 1 <= raw <= 26
    ensures NextKey(Spelled(raw), [raw]) == Encoded(raw, 5)
  {
    var s := Spelled(raw);
    var a, b := s[2], s[3];
    TwoDigits(a, b);
    assert s[1..][1..][1..][1..] == [0x75];
    UFirst(s);
    assert s[2..4] == [a, b];
    assert MainNumber([a, b], 0xFFFF_FFFF) == Some(raw);
    assert ParseCsiU(s, raw) == Some(Encoded(raw, 5));
  }

  lemma UFirst(s: seq<Byte>)
    requires |s| == 5 && s[4] == 0x75 && forall i :: 0 <= i < 4 ==> s[i] != 0x75
    ensures IndexOf(s, 0x75) == Some(4)
  {
    var s1 := s[1..];
    var s2 := s1[1..];
    var s3 := s2[1..];
    var s4 := s3[1..];
    assert s4[0] == 0x75;
    assert IndexOf(s4, 0x75) == Some(0);
    assert IndexOf(s3, 0x75) == Some(1);
    assert IndexOf(s2, 0x75) == Some(2);
    assert IndexOf(s1, 0x75) == Some(3);
  }

  lemma SpelledDetaches(m: Matcher, raw: Byte, now: nat)
    requires m.Valid() && m.Before(now) && m.chord == [raw] && 1 <= raw <= 26 && m.held == []
    ensures FedBytes(m, Spelled(raw), now).1.detached && !OneByOne(m, Spelled(raw), now).1.detached
  {
    SpelledIsChord(raw);
    ReleaseKeepsBytes(m, now);
    assert m.held + [raw] == m.chord;
    assert raw !in Spelled(raw);
    OtherBytesNeverDetach(m, Spelled(raw), now);
  }

  /**
   * For a chord and a timeout: feeding a slice is feeding its bytes one at a time, for every state, slice and
   * instant, exactly when the chord is not one Ctrl-letter and the timeout is positive or irrelevant.
   */
  lemma SlicesAgreeExactlyWhen(chord: seq<Byte>, timeout: nat)
    ensures
      (forall m: Matcher, bytes: seq<Byte>, now: nat ::
        m.chord == chord && m.timeout == timeout && m.Valid() && m.Before(now) && bytes != [] ==>
          FedBytes(m, bytes, now) == OneByOne(m, bytes, now))
      <==> CtrlLetter(chord).None? && (timeout > 0 || |chord| <= 1)
  {
    if CtrlLetter(chord).None? && (timeout > 0 || |chord| <= 1) {
      forall m: Matcher, bytes: seq<Byte>, now: nat |
        m.chord == chord && m.timeout == timeout && m.Valid() && m.Before(now) && bytes != []
        ensures FedBytes(m, bytes, now) == OneByOne(m, bytes, now)
      {
        SlicesAgree(m, bytes, now);
      }
    } else {
      var m := Matcher(chord, timeout, [], []);
      var bytes := Disagreement(chord, timeout);
      assert FedBytes(m, bytes, 0) != OneByOne(m, bytes, 0);
    }
  }

  lemma Disagreement(chord: seq<Byte>, timeout: nat) returns (bytes: seq<Byte>)
    requires CtrlLetter(chord).Some? || (timeout == 0 && |chord| >= 2)
    ensures var m := Matcher(chord, timeout, [], []);
      bytes != [] && FedBytes(m, bytes, 0).1.detached && !OneByOne(m, bytes, 0).1.detached
  {
    var m := Matcher(chord, timeout, [], []);
    if CtrlLetter(chord).Some? {
      bytes := Spelled(chord[0]);
      assert chord == [chord[0]];
      SpelledDetaches(m, chord[0], 0);
    } else {
      bytes := chord;
      assert chord[0..] == chord && chord[..0] == [];
      RestOfChordDetaches(m, 0);
      ImpatientNeverDetaches(m, chord, 0);
    }
  }

  // ---------------------------------------------------------------------
  // Encoded chords and normalised input
  // ---------------------------------------------------------------------

  /** The slice against its normal form, for a one-byte Ctrl-letter chord. */
  predicate AgreesWithNormal(chord: seq<Byte>, bytes: seq<Byte>, r: FeedBytesResult) {
    if r.detached then Normalize(bytes, chord) == r.forward + (chord + Normalize(r.remaining, chord))
    else r.forward == bytes && Normalize(bytes, chord) == bytes
  }

  lemma {:induction false} SliceAgreesWithNormal(m: Matcher, bytes: seq<Byte>, now: nat)
    requires m.Valid() && CtrlLetter(m.chord).Some? && m.held == []
    ensures
      var r := FedSlice(m, bytes, now).1;
      && AgreesWithNormal(m.chord, bytes, r)
      && (r.detached <==> m.chord[0] in Normalize(bytes, m.chord))
      && (r.detached ==> m.chord[0] !in r.forward)
    decreases |bytes|
  {
    hide NextKey, FedByte;
    if bytes != [] {
      var key := NextKey(bytes, m.chord);
      var rest := bytes[key.consumed..];
      var raw := m.chord[0];
      assert m.chord == [raw] && m.held + [key.normalized] == [key.normalized];
      EncodedDetaches(m, bytes, now);
      if key.normalized == raw {
        RawByteDetaches(m, now);
        assert Normalize(bytes, m.chord) == [raw] + Normalize(rest, m.chord);
        assert [] + (m.chord + Normalize(rest, m.chord)) == [raw] + Normalize(rest, m.chord);
      } else {
        OtherByteIsForwarded(m, key.normalized, now);
        SliceAgreesWithNormal(m, rest, now);
        var r := FedSlice(m, rest, now).1;
        assert bytes == [bytes[0]] + rest && key.consumed == 1;
        assert FedSlice(m, bytes, now).1 == r.(forward := [bytes[0]] + r.forward);
        assert Normalize(bytes, m.chord) == [bytes[0]] + Normalize(rest, m.chord);
        PrependKeepsAgreement(m.chord, bytes[0], rest, r, Normalize(rest, m.chord), Normalize(r.remaining, m.chord));
      }
    }
  }

  lemma PrependKeepsAgreement(
    chord: seq<Byte>, first: Byte, rest: seq<Byte>, r: FeedBytesResult, normal: seq<Byte>, after: seq<Byte>)
    requires if r.detached then normal == r.forward + (chord + after) else r.forward == rest && normal == rest
    ensures
      if r.detached then [first] + normal == ([first] + r.forward) + (chord + after)
      else [first] + r.forward == [first] + rest && [first] + normal == [first] + rest
  {
  }

  lemma RawByteDetaches(m: Matcher, now: nat)
    requires m.Valid() && |m.chord| == 1 && m.held == []
    ensures FedByte(m, m.chord[0], now).detached && FedByte(m, m.chord[0], now).forward == []
  {
    assert m.held + [m.chord[0]] == m.chord;
  }

  lemma OtherByteIsForwarded(m: Matcher, byte: Byte, now: nat)
    requires m.Valid() && |m.chord| == 1 && m.held == [] && byte != m.chord[0]
    ensures FedByte(m, byte, now) == Fed(m, [byte], false)
  {
    assert m.held + [byte] == [byte];
    assert [byte][..1] == [byte] && m.heldAt == [] && [now][1..] == [];
    assert m.held == [];
  }

  /**
   * A Ctrl-letter chord detaches exactly when the normalised chunk contains it; what is forwarded is the raw input
   * before its first occurrence, and what remains normalises to the rest.
   */
  lemma EncodedChordAgrees(m: Matcher, bytes: seq<Byte>, now: nat)
    requires m.Valid() && m.Before(now) && CtrlLetter(m.chord).Some?
    ensures
      var r := FedBytes(m, bytes, now).1;
      && (r.detached <==> m.chord[0] in Normalize(bytes, m.chord))
      && (r.detached ==>
        Normalize(bytes, m.chord) == r.forward + (m.chord + Normalize(r.remaining, m.chord))
        && m.chord[0] !in r.forward)
      && (!r.detached ==> r.forward == bytes)
  {
    hide FedSlice, Normalize;
    assert m.held == [];
    ReleaseKeepsBytes(m, now);
    SliceAgreesWithNormal(m, bytes, now);
    var r := FedSlice(m, bytes, now).1;
    assert [] + r.forward == r.forward;
  }

  /** What remains behind a detach is the end of the slice. */
  lemma {:induction false} SliceRemains(m: Matcher, bytes: seq<Byte>, now: nat)
    requires m.Aligned()
    ensures FedSlice(m, bytes, now).1.detached ==> EndsWith(bytes, FedSlice(m, bytes, now).1.remaining)
    decreases |bytes|
  {
    hide NextKey, FedByte;
    if bytes != [] {
      var key := NextKey(bytes, m.chord);
      var fed, rest := FedByte(m, key.normalized, now), bytes[key.consumed..];
      if !fed.detached {
        SliceRemains(fed.matcher, rest, now);
        var remaining := FedSlice(fed.matcher, rest, now).1.remaining;
        if |remaining| <= |rest| {
          assert bytes[|bytes| - |remaining|..] == rest[|rest| - |remaining|..];
        }
      }
    }
  }

  lemma RemainingIsTheEnd(m: Matcher, bytes: seq<Byte>, now: nat)
    requires m.Aligned()
    ensures FedBytes(m, bytes, now).1.detached ==> EndsWith(bytes, FedBytes(m, bytes, now).1.remaining)
  {
    SliceRemains(Released(m, now).0, bytes, now);
  }

  /** Of a chord that is one letter nothing can be held. */
  lemma LetterHoldsNothing(m: Matcher)
    requires m.Valid() && CtrlLetter(m.chord).Some?
    ensures m.held == []
  {
  }
}
