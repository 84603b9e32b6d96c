/** The detach-chord matcher: an online search whose unfinished match is given up byte by byte or by timeout. */
module DetachMatcher {
  import opened Bytes
  import opened DetachEncoding

  /** The matcher's value; `heldAt[i]` is when `held[i]` was read. */
  datatype Matcher = Matcher(chord: seq<Byte>, timeout: nat, held: seq<Byte>, heldAt: seq<nat>)
  {
    predicate Aligned() { |held| == |heldAt| }

    predicate Valid() {
      && Aligned()
      && Sorted(heldAt)
      && (held == [] || Begins(chord, held))
    }

    /** Nothing was read after `now`. */
    predicate Before(now: nat) { heldAt == [] || heldAt[|heldAt| - 1] <= now }
  }

  predicate Sorted(times: seq<nat>) { forall i, j :: 0 <= i < j < |times| ==> times[i] <= times[j] }

  datatype MatchResult = Forward(bytes: seq<Byte>) | Detach

  datatype FeedBytesResult = FeedBytesResult(forward: seq<Byte>, detached: bool, remaining: seq<Byte>)

  // ---------------------------------------------------------------------
  // One byte
  // ---------------------------------------------------------------------

  /** `s` begins the chord and does not complete it. */
  predicate Begins(chord: seq<Byte>, s: seq<Byte>) { |s| < |chord| && s <= chord }

  /** The longest suffix of `s` that begins the chord. */
  function Beginning(chord: seq<Byte>, s: seq<Byte>): (held: seq<Byte>)
    requires chord != []
    ensures |held| <= |s| && Begins(chord, held)
    decreases |s|
  {
    if Begins(chord, s) then s else Beginning(chord, s[1..])
  }

  datatype Fed = Fed(matcher: Matcher, forward: seq<Byte>, detached: bool)

  /** What one byte does: complete the chord, or leave the longest possible beginning of it held. */
  function FedByte(m: Matcher, byte: Byte, now: nat): (fed: Fed)
    requires m.Aligned()
    ensures fed.matcher.Aligned() && fed.matcher.chord == m.chord && fed.matcher.timeout == m.timeout
  {
    if m.chord == [] then Fed(m, [byte], false)
    else
      var combined, at := m.held + [byte], m.heldAt + [now];
      if combined == m.chord then Fed(m.(held := [], heldAt := []), [], true)
      else
        var held := Beginning(m.chord, combined);
        var cut := |combined| - |held|;
        Fed(m.(held := held, heldAt := at[cut..]), combined[..cut], false)
  }

  predicate Expired(m: Matcher, now: nat) {
    m.heldAt != [] && (if now < m.heldAt[0] then 0 else now - m.heldAt[0]) >= m.timeout
  }

  /** A partial match that has been held too long is given up. */
  function Released(m: Matcher, now: nat): (Matcher, seq<Byte>) {
    if Expired(m, now) then (m.(held := [], heldAt := []), m.held) else (m, [])
  }

  function FedTimed(m: Matcher, byte: Byte, now: nat): (r: (Matcher, MatchResult))
    requires m.Aligned()
    ensures r.0.Aligned()
  {
    var (m', released) := Released(m, now);
    var fed := FedByte(m', byte, now);
    (fed.matcher, if fed.detached then Detach else Forward(released + fed.forward))
  }

  function FedSlice(m: Matcher, bytes: seq<Byte>, now: nat): (r: (Matcher, FeedBytesResult))
    requires m.Aligned()
    ensures r.0.Aligned()
    decreases |bytes|
  {
    if bytes == [] then (m, FeedBytesResult([], false, []))
    else
      var key := NextKey(bytes, m.chord);
      var fed := FedByte(m, key.normalized, now);
      if fed.detached then (fed.matcher, FeedBytesResult(fed.forward, true, bytes[key.consumed..]))
      else
        var (last, rest) := FedSlice(fed.matcher, bytes[key.consumed..], now);
        (last, rest.(forward := fed.forward + rest.forward))
  }

  function FedBytes(m: Matcher, bytes: seq<Byte>, now: nat): (r: (Matcher, FeedBytesResult))
    requires m.Aligned()
    ensures r.0.Aligned()
  {
    var (m', released) := Released(m, now);
    var (last, rest) := FedSlice(m', bytes, now);
    (last, rest.(forward := released + rest.forward))
  }

  lemma TailStaysSorted(times: seq<nat>, now: nat, cut: nat)
    requires Sorted(times) && (times == [] || times[|times| - 1] <= now) && cut <= |times| + 1
    ensures Sorted((times + [now])[cut..])
  {
    var tail := (times + [now])[cut..];
    forall i, j | 0 <= i < j < |tail|
      ensures tail[i] <= tail[j]
    {
      if j == |tail| - 1 && times != [] {
        assert times[cut + i] <= times[|times| - 1];
      }
    }
  }

  /** No byte is lost, duplicated or reordered, and bytes stay aligned with nondecreasing times. */
  lemma FedByteKeepsValid(m: Matcher, byte: Byte, now: nat)
    requires m.Valid() && m.Before(now)
    ensures var fed := FedByte(m, byte, now);
      && fed.matcher.Valid() && fed.matcher.Before(now)
      && fed.matcher.chord == m.chord && fed.matcher.timeout == m.timeout
      && (!fed.detached ==> fed.forward + fed.matcher.held == m.held + [byte])
      && (fed.detached ==> fed.matcher.held == [] && fed.forward == [] && m.held + [byte] == m.chord)
  {
    hide Beginning;
    var combined := m.held + [byte];
    if m.chord != [] && combined != m.chord {
      var held := Beginning(m.chord, combined);
      BeginningIsSuffix(m.chord, combined);
      TailStaysSorted(m.heldAt, now, |combined| - |held|);
    }
  }

  lemma {:induction false} BeginningIsSuffix(chord: seq<Byte>, s: seq<Byte>)
    requires chord != []
    ensures var held := Beginning(chord, s); s == s[..|s| - |held|] + held
    decreases |s|
  {
    if !Begins(chord, s) {
      var held := Beginning(chord, s[1..]);
      BeginningIsSuffix(chord, s[1..]);
      assert s[..|s| - |held|] == [s[0]] + s[1..][..|s[1..]| - |held|];
    }
  }

  // ---------------------------------------------------------------------
  // The object
  // ---------------------------------------------------------------------

  class DetachMatcher {
    const chord: seq<Byte>
    const timeout: nat
    var held: seq<Byte>
    var heldAt: seq<nat>

    function View(): Matcher
      reads this
    {
      Matcher(chord, timeout, held, heldAt)
    }

    constructor (chord: seq<Byte>, timeout: nat)
      ensures View() == Matcher(chord, timeout, [], []) && View().Valid()
    {
      this.chord, this.timeout := chord, timeout;
      held, heldAt := [], [];
    }

    method FeedByte(byte: Byte, now: nat) returns (result: MatchResult)
      requires View().Valid() && View().Before(now)
      modifies this
      ensures View().Valid() && View().Before(now)
      ensures (View(), result) == FedTimed(old(View()), byte, now)
    {
      var forward := CheckTimeout(now);
      ghost var released := View();
      FedByteKeepsValid(released, byte, now);
      var more, detached := FeedByteInner(byte, now);
      if detached {
        // Nothing released by the timeout can be lost here: one byte completes only a one-byte chord.
        assert forward == [];
        return Detach;
      }
      return Forward(forward + more);
    }

    method FeedByteInner(byte: Byte, now: nat) returns (forward: seq<Byte>, detached: bool)
      requires View().Valid() && View().Before(now)
      modifies this
      ensures View().Valid() && View().Before(now)
      ensures Fed(View(), forward, detached) == FedByte(old(View()), byte, now)
    {
      FedByteKeepsValid(View(), byte, now);
      if chord == [] {
        return [byte], false;
      }
      if held == [] {
        if byte == chord[0] {
          held, heldAt := held + [byte], heldAt + [now];
          if |chord| == 1 {
            Reset();
            return [], true;
          }
          assert Begins(chord, [byte]);
          return [], false;
        }
        assert !Begins(chord, [byte]) && [byte][1..] == [];
        return [byte], false;
      }

      var nextIdx := |held|;
      if nextIdx < |chord| && byte == chord[nextIdx] {
        held, heldAt := held + [byte], heldAt + [now];
        assert held == chord[..nextIdx + 1];
        if |held| == |chord| {
          Reset();
          return [], true;
        }
        assert Begins(chord, held);
        return [], false;
      }

      // Mismatch: keep the longest suffix that can still begin the chord, forward the rest.
      var combined, combinedAt := held + [byte], heldAt + [now];
      held, heldAt := [], [];
      var suffixLen := FindOverlap(combined);
      assert |Beginning(chord, combined)| == suffixLen;
      var splitIdx := |combined| - suffixLen;
      if suffixLen != 0 {
        held, heldAt := combined[splitIdx..], combinedAt[splitIdx..];
      }
      return combined[..splitIdx], false;
    }

    method FindOverlap(combined: seq<Byte>) returns (suffixLen: nat)
      requires chord != [] && |combined| <= |chord| && combined != chord
      ensures suffixLen <= |combined| && combined[|combined| - suffixLen..] == Beginning(chord, combined)
    {
      var k := Min(|combined|, |chord|);
      assert combined[0..] == combined;
      while k >= 1
        invariant 0 <= k <= |combined|
        invariant Beginning(chord, combined) == Beginning(chord, combined[|combined| - k..])
      {
        var suffix := combined[|combined| - k..];
        if suffix == chord[..k] {
          assert Begins(chord, suffix);
          return k;
        }
        assert suffix[1..] == combined[|combined| - (k - 1)..];
        k := k - 1;
      }
      return 0;
    }

    method FeedBytes(bytes: seq<Byte>, now: nat) returns (result: FeedBytesResult)
      requires View().Valid() && View().Before(now)
      modifies this
      ensures View().Valid() && View().Before(now)
      ensures (View(), result) == FedBytes(old(View()), bytes, now)
    {
      hide NextKey, FedSlice, FedByte;
      var forward := CheckTimeout(now);
      ghost var start, released := View(), forward;
      var idx := 0;
      assert bytes[0..] == bytes;
      while idx < |bytes|
        invariant 0 <= idx <= |bytes|
        invariant View().Valid() && View().Before(now)
        invariant Continues(start, released, bytes, now, View(), forward, idx)
      {
        var key := ReadKey(bytes, chord, idx);
        ghost var before := View();
        var more, detached := FeedByteInner(key.normalized, now);
        ContinueStep(start, released, bytes, now, before, forward, idx, key, Fed(View(), more, detached));
        forward := forward + more;
        if detached {
          return FeedBytesResult(forward, true, bytes[idx + key.consumed..]);
        }
        idx := idx + key.consumed;
      }
      ContinueEnd(start, released, bytes, now, View(), forward);
      return FeedBytesResult(forward, false, []);
    }

    method CheckTimeout(now: nat) returns (released: seq<Byte>)
      requires View().Valid()
      modifies this
      ensures (View(), released) == Released(old(View()), now)
      ensures View().Valid() && (old(View()).Before(now) ==> View().Before(now))
    {
      released := [];
      if heldAt != [] {
        var start := heldAt[0];
        if (if now < start then 0 else now - start) >= timeout {
          heldAt := [];
          released := held;
          held := [];
        }
      }
    }

    method Reset()
      modifies this
      ensures held == [] && heldAt == []
    {
      held, heldAt := [], [];
    }
  }

  /** The slice fed from `start` is the part before `idx`, already forwarded, and the rest fed from `m`. */
  ghost predicate Continues(
    start: Matcher, released: seq<Byte>, bytes: seq<Byte>, now: nat, m: Matcher, forward: seq<Byte>, idx: nat)
  {
    && start.Aligned() && m.Aligned() && idx <= |bytes|
    && var (last, all) := FedSlice(start, bytes, now);
       var (last', rest) := FedSlice(m, bytes[idx..], now);
       last == last' && all.detached == rest.detached && all.remaining == rest.remaining
       && released + all.forward == forward + rest.forward
  }

  lemma ContinueStep(
    start: Matcher, released: seq<Byte>, bytes: seq<Byte>, now: nat, m: Matcher, forward: seq<Byte>, idx: nat,
    key: Encoded, fed: Fed)
    requires Continues(start, released, bytes, now, m, forward, idx) && idx < |bytes|
    requires key == NextKey(bytes[idx..], m.chord) && fed == FedByte(m, key.normalized, now)
    ensures fed.detached ==>
      FedSlice(start, bytes, now).0 == fed.matcher && FedSlice(start, bytes, now).1.detached
      && FedSlice(start, bytes, now).1.remaining == bytes[idx + key.consumed..]
      && released + FedSlice(start, bytes, now).1.forward == forward + fed.forward
    ensures !fed.detached ==>
      Continues(start, released, bytes, now, fed.matcher, forward + fed.forward, idx + key.consumed)
  {
    assert bytes[idx..][key.consumed..] == bytes[idx + key.consumed..];
  }

  lemma ContinueEnd(
    start: Matcher, released: seq<Byte>, bytes: seq<Byte>, now: nat, m: Matcher, forward: seq<Byte>)
    requires Continues(start, released, bytes, now, m, forward, |bytes|)
    ensures FedSlice(start, bytes, now).0 == m
    ensures FedSlice(start, bytes, now).1 == FeedBytesResult(FedSlice(start, bytes, now).1.forward, false, [])
    ensures released + FedSlice(start, bytes, now).1.forward == forward
  {
    assert bytes[|bytes|..] == [];
  }
}
