/** The detach matcher under the clock: how old held bytes are, when they are given up, and which chords are found. */
module MatcherTimes {
  import opened Bytes
  import opened DetachEncoding
  import opened DetachMatcher
  import opened MatcherRuns

  /** When each byte a call feeds is read. */
  function TimesOf(call: Call): seq<nat> { seq(|BytesOf(call)|, _ => call.at) }

  function TimesOfAll(calls: seq<Call>): seq<nat> {
    if calls == [] then [] else TimesOfAll(calls[..|calls| - 1]) + TimesOf(calls[|calls| - 1])
  }

  /** Held bytes carry the last of these times. */
  predicate Timed(m: Matcher, times: seq<nat>) {
    |m.held| == |m.heldAt| <= |times| && m.heldAt == times[|times| - |m.held|..]
  }

  lemma TimedStep(m: Matcher, byte: Byte, now: nat, times: seq<nat>)
    requires m.Valid() && m.Before(now) && Timed(m, times) && !FedByte(m, byte, now).detached
    ensures Timed(FedByte(m, byte, now).matcher, times + [now])
  {
    hide Beginning;
    if m.chord != [] {
      var held := Beginning(m.chord, m.held + [byte]);
      var at, all := m.heldAt + [now], times + [now];
      var k, cut := |times| - |m.held|, |m.held| + 1 - |held|;
      assert at == all[k..];
      assert all[k..][cut..] == all[k + cut..];
      NotFound(m, byte, now);
    } else {
      assert m.held == [] && m.heldAt == [] && (times + [now])[|times + [now]|..] == [];
    }
  }

  lemma NotFound(m: Matcher, byte: Byte, now: nat)
    requires m.Aligned() && m.chord != [] && !FedByte(m, byte, now).detached
    ensures
      var held := Beginning(m.chord, m.held + [byte]);
      FedByte(m, byte, now).matcher
        == m.(held := held, heldAt := (m.heldAt + [now])[|m.held| + 1 - |held|..])
  {
    hide Beginning;
  }

  lemma TimedRelease(m: Matcher, now: nat, times: seq<nat>)
    requires m.Valid() && Timed(m, times)
    ensures Timed(Released(m, now).0, times)
  {
  }

  lemma {:induction false} TimedSlice(m: Matcher, bytes: seq<Byte>, now: nat, times: seq<nat>)
    requires m.Valid() && m.Before(now) && Timed(m, times) && !FedSlice(m, bytes, now).1.detached
    ensures Timed(FedSlice(m, bytes, now).0, times + seq(|bytes|, _ => now))
    decreases |bytes|
  {
    hide NextKey, FedByte, Timed;
    var more := seq(|bytes|, _ => now);
    if bytes == [] {
      assert times + more == times;
    } else {
      var key := NextKey(bytes, m.chord);
      EncodedDetaches(m, bytes, now);
      assert key == Encoded(bytes[0], 1);
      FedByteKeepsValid(m, bytes[0], now);
      TimedStep(m, bytes[0], now, times);
      var rest := bytes[1..];
      TimedSlice(FedByte(m, bytes[0], now).matcher, rest, now, times + [now]);
      assert (times + [now]) + seq(|rest|, _ => now) == times + more;
    }
  }

  lemma TimedCall(m: Matcher, call: Call, times: seq<nat>)
    requires m.Valid() && m.Before(call.at) && Timed(m, times) && Called(m, call).remaining.None?
    ensures Timed(Called(m, call).matcher, times + TimesOf(call))
  {
    hide FedByte, FedSlice, Timed, Released;
    var released := Released(m, call.at).0;
    ReleaseKeepsBytes(m, call.at);
    TimedRelease(m, call.at, times);
    match call
    case FeedOne(byte, at) =>
      TimedStep(released, byte, at, times);
      assert TimesOf(call) == [at];
    case FeedMany(bytes, at) => TimedSlice(released, bytes, at, times);
    case Poll(at) => assert times + TimesOf(call) == times;
  }

  /** Nothing held is as old as the timeout. */
  predicate Young(m: Matcher, now: nat) { m.heldAt != [] ==> now < m.heldAt[0] + m.timeout }

  lemma ReleasedIsYoung(m: Matcher, now: nat)
    requires m.Valid() && m.Before(now)
    ensures Young(Released(m, now).0, now)
  {
  }

  lemma YoungStep(m: Matcher, byte: Byte, now: nat)
    requires m.Valid() && m.Before(now) && Young(m, now) && m.timeout > 0
    ensures Young(FedByte(m, byte, now).matcher, now)
  {
    hide Beginning, Begins;
    FedByteKeepsValid(m, byte, now);
    var at := m.heldAt + [now];
    assert forall i :: 0 <= i < |at| ==> now < at[i] + m.timeout;
  }

  lemma {:induction false} YoungSlice(m: Matcher, bytes: seq<Byte>, now: nat)
    requires m.Valid() && m.Before(now) && Young(m, now) && m.timeout > 0
    ensures Young(FedSlice(m, bytes, now).0, now)
    decreases |bytes|
  {
    hide NextKey, FedByte, Young;
    if bytes != [] {
      var key := NextKey(bytes, m.chord);
      var fed := FedByte(m, key.normalized, now);
      FedByteKeepsValid(m, key.normalized, now);
      YoungStep(m, key.normalized, now);
      if !fed.detached {
        YoungSlice(fed.matcher, bytes[key.consumed..], now);
      }
    }
  }

  lemma YoungCall(m: Matcher, call: Call)
    requires m.Valid() && m.Before(call.at) && m.timeout > 0
    ensures Young(Called(m, call).matcher, call.at)
  {
    hide FedByte, FedSlice, Young, Released;
    ReleaseKeepsBytes(m, call.at);
    ReleasedIsYoung(m, call.at);
    var released := Released(m, call.at).0;
    match call
    case FeedOne(byte, at) => YoungStep(released, byte, at);
    case FeedMany(bytes, at) => YoungSlice(released, bytes, at);
    case Poll(_) =>
  }

  /** One call more. */
  lemma CallKeepsTimes(e: Effect, call: Call, times: seq<nat>)
    requires e.matcher.Valid() && e.matcher.Before(call.at) && Timed(e.matcher, times)
    requires Called(e.matcher, call).remaining.None?
    ensures
      var m := Called(e.matcher, call).matcher;
      Timed(m, times + TimesOf(call)) && (e.matcher.timeout > 0 ==> m.timeout == e.matcher.timeout && Young(m, call.at))
  {
    hide Called, Timed, Young;
    TimedCall(e.matcher, call, times);
    CallConserves(e.matcher, call);
    if e.matcher.timeout > 0 {
      YoungCall(e.matcher, call);
    }
  }

  /**
   * After any detach-free calls under a clock that does not run backwards, the held bytes carry the times at which
   * they were read, and with a timeout the oldest of them was read less than it ago.
   */
  lemma {:induction false} HeldBytesAreYoung(chord: seq<Byte>, timeout: nat, calls: seq<Call>)
    requires Monotone(calls) && Calls(Matcher(chord, timeout, [], []), calls).remaining.None?
    ensures
      var m := Calls(Matcher(chord, timeout, [], []), calls).matcher;
      && m.timeout == timeout && Timed(m, TimesOfAll(calls))
      && (timeout > 0 && calls != [] ==> Young(m, calls[|calls| - 1].at))
    decreases |calls|
  {
    hide Called, Timed, Young;
    if calls == [] {
      NothingTimed(chord, timeout);
    } else {
      var n := |calls| - 1;
      var before := Calls(Matcher(chord, timeout, [], []), calls[..n]);
      HeldBytesAreYoung(chord, timeout, calls[..n]);
      CallsConserve(chord, timeout, calls[..n]);
      CallsConserve(chord, timeout, calls);
      LaterCall(before.matcher, calls, n);
      CallKeepsTimes(before, calls[n], TimesOfAll(calls[..n]));
    }
  }

  lemma NothingTimed(chord: seq<Byte>, timeout: nat)
    ensures Timed(Matcher(chord, timeout, [], []), [])
  {
  }

  lemma LaterCall(m: Matcher, calls: seq<Call>, n: nat)
    requires Monotone(calls) && n == |calls| - 1
    requires (n == 0 ==> m.heldAt == []) && (n > 0 ==> m.Before(calls[n - 1].at))
    ensures m.Before(calls[n].at)
  {
    assert n > 0 ==> calls[n - 1].at <= calls[n].at;
  }

  /** A look at the clock gives held bytes up exactly when the first of them was read the timeout or longer ago. */
  lemma PollReleasesExactlyWhenOld(chord: seq<Byte>, timeout: nat, calls: seq<Call>, now: nat)
    requires Monotone(calls) && Calls(Matcher(chord, timeout, [], []), calls).remaining.None?
    requires calls != [] ==> calls[|calls| - 1].at <= now
    ensures
      var e, times := Calls(Matcher(chord, timeout, [], []), calls), TimesOfAll(calls);
      var after := Calls(Matcher(chord, timeout, [], []), calls + [Poll(now)]);
      && |e.matcher.held| <= |times| && after.remaining.None?
      && if e.matcher.held != [] && now - times[|times| - |e.matcher.held|] >= timeout
         then after.forward == e.forward + e.matcher.held && after.matcher.held == []
         else after.forward == e.forward && after.matcher == e.matcher
  {
    hide Called, Calls;
    var m0 := Matcher(chord, timeout, [], []);
    var e := Calls(m0, calls);
    HeldBytesAreYoung(chord, timeout, calls);
    CallsConserve(chord, timeout, calls);
    PollIsLast(m0, calls, now);
    PollOne(e.matcher, now, TimesOfAll(calls));
    assert e.forward + [] == e.forward;
  }

  lemma PollIsLast(m: Matcher, calls: seq<Call>, now: nat)
    requires m.Aligned() && Calls(m, calls).remaining.None?
    ensures
      var before, e := Calls(m, calls), Called(Calls(m, calls).matcher, Poll(now));
      Calls(m, calls + [Poll(now)]) == e.(forward := before.forward + e.forward)
  {
    hide Called;
    assert (calls + [Poll(now)])[..|calls|] == calls;
  }

  lemma PollOne(m: Matcher, now: nat, times: seq<nat>)
    requires m.Valid() && m.Before(now) && Timed(m, times)
    ensures
      Called(m, Poll(now)) ==
        if m.held != [] && now - times[|times| - |m.held|] >= m.timeout
        then Effect(m.(held := [], heldAt := []), m.held, None) else Effect(m, [], None)
  {
    if m.held != [] {
      assert m.heldAt[0] == times[|times| - |m.held|];
      assert m.heldAt[0] <= m.heldAt[|m.heldAt| - 1];
    } else {
      assert m.heldAt == [];
    }
  }

  // ---------------------------------------------------------------------
  // A chord typed in time
  // ---------------------------------------------------------------------

  /** The chord's bytes one at a time. */
  function Typed(chord: seq<Byte>, times: seq<nat>, n: nat): seq<Call>
    requires n <= |chord| == |times|
  {
    seq(n, i requires 0 <= i < n => FeedOne(chord[i], times[i]))
  }

  lemma {:induction false} BeginningIsHeld(m: Matcher, times: seq<nat>, n: nat)
    requires m.Aligned() && m.held == [] && n < |m.chord| == |times|
    requires forall i :: 0 <= i < |times| ==> times[0] <= times[i] < times[0] + m.timeout
    ensures Calls(m, Typed(m.chord, times, n)) == Effect(m.(held := m.chord[..n], heldAt := times[..n]), [], None)
    decreases n
  {
    hide Called;
    if n == 0 {
      assert m.chord[..0] == [] && times[..0] == [];
    } else {
      var calls := Typed(m.chord, times, n);
      assert calls[..n - 1] == Typed(m.chord, times, n - 1);
      BeginningIsHeld(m, times, n - 1);
      var before := m.(held := m.chord[..n - 1], heldAt := times[..n - 1]);
      assert before.held + [m.chord[n - 1]] == m.chord[..n] && before.heldAt + [times[n - 1]] == times[..n];
      NextIsHeld(before, m.chord[n - 1], times[n - 1]);
    }
  }

  lemma NotYetReleased(m: Matcher, now: nat)
    requires m.heldAt != [] ==> m.heldAt[0] <= now < m.heldAt[0] + m.timeout
    ensures Released(m, now) == (m, [])
  {
  }

  lemma NextIsHeld(m: Matcher, byte: Byte, now: nat)
    requires m.Aligned() && |m.held| + 1 < |m.chord| && m.held + [byte] <= m.chord
    requires m.heldAt != [] ==> m.heldAt[0] <= now < m.heldAt[0] + m.timeout
    ensures Called(m, FeedOne(byte, now)) == Effect(m.(held := m.held + [byte], heldAt := m.heldAt + [now]), [], None)
  {
    hide Released;
    NotYetReleased(m, now);
    var combined := m.held + [byte];
    assert Begins(m.chord, combined) && combined[..0] == [];
    assert Beginning(m.chord, combined) == combined;
    assert (m.heldAt + [now])[0..] == m.heldAt + [now];
  }

  lemma LastIsFound(m: Matcher, byte: Byte, now: nat)
    requires m.Aligned() && m.chord != [] && m.held + [byte] == m.chord
    requires m.heldAt != [] ==> m.heldAt[0] <= now < m.heldAt[0] + m.timeout
    ensures Called(m, FeedOne(byte, now)) == Effect(m.(held := [], heldAt := []), [], Some([]))
  {
    hide Released, Beginning;
    NotYetReleased(m, now);
  }

  /**
   * A chord whose bytes are all typed within the timeout of the first is found at its last byte, and nothing of it
   * is forwarded, whatever came before.
   */
  lemma ChordTypedInTimeDetaches(m: Matcher, times: seq<nat>)
    requires m.Aligned() && m.held == [] && m.chord != [] && |times| == |m.chord|
    requires |m.chord| == 1 || forall i :: 0 <= i < |times| ==> times[0] <= times[i] < times[0] + m.timeout
    ensures
      var e := Calls(m, Typed(m.chord, times, |m.chord|));
      e.remaining == Some([]) && e.forward == [] && e.matcher.held == []
  {
    hide Called;
    var n := |m.chord| - 1;
    var calls := Typed(m.chord, times, n + 1);
    assert calls[..n] == Typed(m.chord, times, n);
    if n > 0 {
      BeginningIsHeld(m, times, n);
    }
    var before := m.(held := m.chord[..n], heldAt := times[..n]);
    assert Calls(m, calls[..n]) == Effect(before, [], None);
    assert before.held + [m.chord[n]] == m.chord;
    assert n > 0 ==> times[..n][0] == times[0];
    LastIsFound(before, m.chord[n], times[n]);
  }
}
