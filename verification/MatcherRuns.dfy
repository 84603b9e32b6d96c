/** What the detach matcher achieves over whole streams and over every mix of calls. */
module MatcherRuns {
  import opened Bytes
  import opened DetachEncoding
  import opened DetachMatcher

  // ---------------------------------------------------------------------
  // An exact online search
  // ---------------------------------------------------------------------

  predicate EndsWith(s: seq<Byte>, tail: seq<Byte>) { |tail| <= |s| && s[|s| - |tail|..] == tail }

  lemma EndsWithTail(s: seq<Byte>, tail: seq<Byte>)
    requires s != [] && s != tail
    ensures EndsWith(s, tail) <==> EndsWith(s[1..], tail)
  {
    if |tail| < |s| {
      assert s[1..][|s| - 1 - |tail|..] == s[|s| - |tail|..];
    } else if |tail| == |s| {
      assert s[0..] == s;
    }
  }

  /** What is held is the longest suffix that begins the chord: every other such suffix is no longer. */
  lemma {:induction false} BeginningIsLongest(chord: seq<Byte>, s: seq<Byte>, t: seq<Byte>)
    requires chord != [] && EndsWith(s, t) && Begins(chord, t)
    ensures |t| <= |Beginning(chord, s)|
    decreases |s|
  {
    if !Begins(chord, s) {
      assert s[0..] == s;
      EndsWithTail(s, t);
      BeginningIsLongest(chord, s[1..], t);
    }
  }

  lemma ShorterBegins(chord: seq<Byte>, x: seq<Byte>, b: Byte)
    requires x + [b] <= chord
    ensures Begins(chord, x)
  {
    assert x == (x + [b])[..|x|];
  }

  /** One more byte: the chord ends here, or what is held next depends on what was held and the byte alone. */
  lemma {:induction false} ByteExtends(chord: seq<Byte>, x: seq<Byte>, b: Byte)
    requires chord != []
    ensures EndsWith(x + [b], chord) <==> Beginning(chord, x) + [b] == chord
    ensures !EndsWith(x + [b], chord) ==> Beginning(chord, x + [b]) == Beginning(chord, Beginning(chord, x) + [b])
    decreases |x|
  {
    var y := x + [b];
    assert y[0..] == y;
    if !Begins(chord, x) {
      assert !(y <= chord) by {
        if y <= chord {
          ShorterBegins(chord, x, b);
        }
      }
      assert y[1..] == x[1..] + [b];
      EndsWithTail(y, chord);
      ByteExtends(chord, x[1..], b);
    }
  }

  datatype Progress = Searching(matcher: Matcher, forward: seq<Byte>) | Found(forward: seq<Byte>, end: nat)

  /** The keys fed one after the other to a fresh matcher, no timeout intervening. */
  function Search(chord: seq<Byte>, timeout: nat, keys: seq<Byte>, times: seq<nat>): (p: Progress)
    requires |keys| == |times|
    ensures p.Searching? ==> p.matcher.Aligned() && p.matcher.chord == chord
    decreases |keys|
  {
    if keys == [] then Searching(Matcher(chord, timeout, [], []), [])
    else
      var n := |keys| - 1;
      match Search(chord, timeout, keys[..n], times[..n])
      case Found(forward, end) => Found(forward, end)
      case Searching(m, forward) =>
        var fed := FedByte(m, keys[n], times[n]);
        if fed.detached then Found(forward + fed.forward, n + 1) else Searching(fed.matcher, forward + fed.forward)
  }

  /** The search so far, against the stream it was fed. */
  predicate Exact(chord: seq<Byte>, keys: seq<Byte>, p: Progress) {
    match p
    case Searching(m, forward) =>
      && (forall e :: 0 <= e <= |keys| ==> !EndsWith(keys[..e], chord))
      && chord != [] && m.held == Beginning(chord, keys) && forward + m.held == keys
    case Found(forward, end) =>
      && end <= |keys| && EndsWith(keys[..end], chord)
      && (forall e :: 0 <= e < end ==> !EndsWith(keys[..e], chord))
      && forward + chord == keys[..end]
  }

  lemma ExactAfterFound(chord: seq<Byte>, x: seq<Byte>, b: Byte, p: Progress)
    requires Exact(chord, x, p) && p.Found?
    ensures Exact(chord, x + [b], p)
  {
    assert forall e :: 0 <= e <= p.end ==> (x + [b])[..e] == x[..e];
  }

  lemma PrefixesOfSnoc(x: seq<Byte>, b: Byte)
    ensures (x + [b])[..|x| + 1] == x + [b] && forall e :: 0 <= e <= |x| ==> (x + [b])[..e] == x[..e]
  {
  }

  lemma ExactAfterByte(chord: seq<Byte>, x: seq<Byte>, b: Byte, p: Progress, now: nat)
    requires Exact(chord, x, p) && p.Searching? && p.matcher.Aligned() && p.matcher.chord == chord
    ensures
      var fed := FedByte(p.matcher, b, now);
      Exact(chord, x + [b],
        if fed.detached then Found(p.forward + fed.forward, |x| + 1)
        else Searching(fed.matcher, p.forward + fed.forward))
  {
    hide EndsWith, Beginning, Begins;
    var keys, held := x + [b], p.matcher.held;
    var fed := FedByte(p.matcher, b, now);
    ByteExtends(chord, x, b);
    PrefixesOfSnoc(x, b);
    assert [] + x == x && [] + keys == keys;
    if fed.detached {
      assert fed.forward == [] && held + [b] == chord;
      assert (p.forward + []) + chord == (p.forward + held) + [b];
    } else {
      BeginningIsSuffix(chord, held + [b]);
      Carry(p.forward, fed.forward, fed.matcher.held, [], held, x, [b]);
    }
  }

  /**
   * The search is exact. While it goes on the chord has not occurred, the held bytes are the longest suffix of the
   * stream that could still become it, and forwarded and held bytes together are the stream; it ends at the first
   * occurrence of the chord, having forwarded exactly what came before it.
   */
  lemma {:induction false} SearchIsExact(chord: seq<Byte>, timeout: nat, keys: seq<Byte>, times: seq<nat>)
    requires chord != [] && |keys| == |times|
    ensures Exact(chord, keys, Search(chord, timeout, keys, times))
    decreases |keys|
  {
    if keys == [] {
      assert Begins(chord, []);
    } else {
      var n := |keys| - 1;
      var p := Search(chord, timeout, keys[..n], times[..n]);
      assert keys == keys[..n] + [keys[n]];
      SearchIsExact(chord, timeout, keys[..n], times[..n]);
      if p.Found? {
        ExactAfterFound(chord, keys[..n], keys[n], p);
      } else {
        ExactAfterByte(chord, keys[..n], keys[n], p, times[n]);
      }
    }
  }

  // ---------------------------------------------------------------------
  // Any mix of calls under a clock that does not run backwards
  // ---------------------------------------------------------------------

  datatype Call = FeedOne(byte: Byte, at: nat) | FeedMany(bytes: seq<Byte>, at: nat) | Poll(at: nat)

  /** The bytes a call feeds. */
  function BytesOf(call: Call): seq<Byte> {
    match call case FeedOne(byte, _) => [byte] case FeedMany(bytes, _) => bytes case Poll(_) => []
  }

  /** The matcher after a call, what it forwarded, and the unread rest if it detached. */
  datatype Effect = Effect(matcher: Matcher, forward: seq<Byte>, remaining: Option<seq<Byte>>)

  function Called(m: Matcher, call: Call): (e: Effect)
    requires m.Aligned()
    ensures e.matcher.Aligned()
  {
    match call
    case FeedOne(byte, at) =>
      var (m', r) := FedTimed(m, byte, at);
      if r.Detach? then Effect(m', [], Some([])) else Effect(m', r.bytes, None)
    case FeedMany(bytes, at) =>
      var (m', r) := FedBytes(m, bytes, at);
      Effect(m', r.forward, if r.detached then Some(r.remaining) else None)
    case Poll(at) =>
      var (m', released) := Released(m, at);
      Effect(m', released, None)
  }

  /**
   * Nothing lost, duplicated or reordered: what was held and what was fed is what was forwarded and what is held
   * now, or, at a detach, what was forwarded, the chord, and the unread rest. An encoded chord is not spelled like
   * the chord, so a detach by one is excepted here and described by `EncodedChordAgrees`.
   */
  predicate Conserves(m: Matcher, fed: seq<Byte>, e: Effect) {
    && e.matcher.Valid() && e.matcher.chord == m.chord && e.matcher.timeout == m.timeout
    && (e.remaining.None? ==> e.forward + e.matcher.held == m.held + fed)
    && (e.remaining.Some? && CtrlLetter(m.chord).None? ==> e.forward + (m.chord + e.remaining.value) == m.held + fed)
  }

  /** Two steps in a row: `rest` is whatever follows the forwarded bytes after the second. */
  lemma Carry(first: seq<Byte>, second: seq<Byte>, rest: seq<Byte>, held: seq<Byte>, between: seq<Byte>,
              fed: seq<Byte>, more: seq<Byte>)
    requires first + between == held + fed && second + rest == between + more
    ensures (first + second) + rest == held + (fed + more)
  {
    assert (first + second) + rest == first + (second + rest);
    assert first + (between + more) == (first + between) + more;
  }

  lemma ReleaseKeepsBytes(m: Matcher, now: nat)
    requires m.Valid() && m.Before(now)
    ensures
      var (m', released) := Released(m, now);
      && m'.Valid() && m'.Before(now) && m'.chord == m.chord && m'.timeout == m.timeout
      && released + m'.held == m.held + [] && (m.held == [] ==> m' == m && released == [])
  {
    if m.held == [] {
      assert m.heldAt == [];
    }
  }

  /** An encoded key always completes the chord; so a key that does not is one raw byte. */
  lemma EncodedDetaches(m: Matcher, bytes: seq<Byte>, now: nat)
    requires m.Valid() && bytes != []
    ensures
      var key := NextKey(bytes, m.chord);
      (FedByte(m, key.normalized, now).detached && CtrlLetter(m.chord).Some?) || key == Encoded(bytes[0], 1)
  {
    hide ParseCtrlDetach;
    var key := NextKey(bytes, m.chord);
    if key != Encoded(bytes[0], 1) {
      assert m.held == [] && m.chord == [key.normalized];
      assert m.held + [key.normalized] == m.chord;
    }
  }

  function SliceEffect(m: Matcher, bytes: seq<Byte>, now: nat): Effect
    requires m.Aligned()
  {
    var (m', r) := FedSlice(m, bytes, now);
    Effect(m', r.forward, if r.detached then Some(r.remaining) else None)
  }

  /** Within a slice no byte is lost, duplicated or reordered. */
  lemma {:induction false} SliceConserves(m: Matcher, bytes: seq<Byte>, now: nat)
    requires m.Valid() && m.Before(now)
    ensures Conserves(m, bytes, SliceEffect(m, bytes, now)) && SliceEffect(m, bytes, now).matcher.Before(now)
    decreases |bytes|
  {
    hide NextKey, CtrlLetter, FedByte;
    if bytes == [] {
      assert m.held + bytes == m.held && [] + m.held == m.held;
    } else {
      var key := NextKey(bytes, m.chord);
      var fed := FedByte(m, key.normalized, now);
      FedByteKeepsValid(m, key.normalized, now);
      EncodedDetaches(m, bytes, now);
      var rest := bytes[key.consumed..];
      if fed.detached {
        if CtrlLetter(m.chord).None? {
          assert bytes == [bytes[0]] + rest;
          assert fed.forward + (m.chord + rest) == m.held + bytes;
        }
      } else {
        SliceConserves(fed.matcher, rest, now);
        assert bytes == [bytes[0]] + rest;
        var e := SliceEffect(fed.matcher, rest, now);
        if e.remaining.None? {
          Carry(fed.forward, e.forward, e.matcher.held, m.held, fed.matcher.held, [bytes[0]], rest);
        } else if CtrlLetter(m.chord).None? {
          Carry(fed.forward, e.forward, m.chord + e.remaining.value, m.held, fed.matcher.held, [bytes[0]], rest);
        }
      }
    }
  }

  /** A byte that completes the chord never finds bytes just released by the timeout, so none are dropped. */
  lemma TimedDetachIsWhole(m: Matcher, byte: Byte, now: nat)
    requires m.Valid() && m.Before(now) && FedTimed(m, byte, now).1.Detach?
    ensures Released(m, now).1 == [] && FedTimed(m, byte, now).0.held == [] && m.held + [byte] == m.chord
  {
    ReleaseKeepsBytes(m, now);
    FedByteKeepsValid(Released(m, now).0, byte, now);
  }

  lemma OneConserves(m: Matcher, byte: Byte, at: nat)
    requires m.Valid() && m.Before(at)
    ensures var e := Called(m, FeedOne(byte, at)); Conserves(m, [byte], e) && e.matcher.Before(at)
  {
    hide FedByte, CtrlLetter, Expired;
    var (m1, released) := Released(m, at);
    var fed := FedByte(m1, byte, at);
    ReleaseKeepsBytes(m, at);
    FedByteKeepsValid(m1, byte, at);
    if fed.detached {
      TimedDetachIsWhole(m, byte, at);
      assert [] + (m.chord + []) == m.held + [byte];
    } else {
      Carry(released, fed.forward, fed.matcher.held, m.held, m1.held, [], [byte]);
      assert [] + [byte] == [byte];
    }
  }

  lemma ManyConserves(m: Matcher, bytes: seq<Byte>, at: nat)
    requires m.Valid() && m.Before(at)
    ensures var e := Called(m, FeedMany(bytes, at)); Conserves(m, bytes, e) && e.matcher.Before(at)
  {
    hide FedSlice, CtrlLetter, Expired;
    var (m1, released) := Released(m, at);
    var e := SliceEffect(m1, bytes, at);
    ReleaseKeepsBytes(m, at);
    SliceConserves(m1, bytes, at);
    assert [] + bytes == bytes;
    if e.remaining.None? {
      Carry(released, e.forward, e.matcher.held, m.held, m1.held, [], bytes);
    } else if CtrlLetter(m.chord).None? {
      Carry(released, e.forward, m.chord + e.remaining.value, m.held, m1.held, [], bytes);
    }
  }

  /** One call, whatever it is. */
  lemma CallConserves(m: Matcher, call: Call)
    requires m.Valid() && m.Before(call.at)
    ensures Conserves(m, BytesOf(call), Called(m, call)) && Called(m, call).matcher.Before(call.at)
  {
    match call
    case FeedOne(byte, at) => OneConserves(m, byte, at);
    case FeedMany(bytes, at) => ManyConserves(m, bytes, at);
    case Poll(at) => ReleaseKeepsBytes(m, at);
  }

  predicate Monotone(calls: seq<Call>) { forall i, j :: 0 <= i < j < |calls| ==> calls[i].at <= calls[j].at }

  /** Every byte the calls fed, in order. */
  function BytesOfAll(calls: seq<Call>): seq<Byte> {
    if calls == [] then [] else BytesOfAll(calls[..|calls| - 1]) + BytesOf(calls[|calls| - 1])
  }

  /** The calls made one after the other, up to the first detach. */
  function Calls(m: Matcher, calls: seq<Call>): (e: Effect)
    requires m.Aligned()
    ensures e.matcher.Aligned()
  {
    if calls == [] then Effect(m, [], None)
    else
      var before := Calls(m, calls[..|calls| - 1]);
      if before.remaining.Some? then before
      else
        var e := Called(before.matcher, calls[|calls| - 1]);
        e.(forward := before.forward + e.forward)
  }

  /**
   * Across any mix of calls under a clock that does not run backwards, everything fed is forwarded or still held, in
   * order and once; held bytes stay aligned with their nondecreasing times and begin the chord.
   */
  lemma {:induction false} CallsConserve(chord: seq<Byte>, timeout: nat, calls: seq<Call>)
    requires Monotone(calls) && Calls(Matcher(chord, timeout, [], []), calls).remaining.None?
    ensures
      var e := Calls(Matcher(chord, timeout, [], []), calls);
      && e.matcher.Valid() && e.matcher.chord == chord && e.matcher.timeout == timeout
      && (calls == [] ==> e.matcher.held == [])
      && (calls != [] ==> e.matcher.Before(calls[|calls| - 1].at))
      && e.forward + e.matcher.held == BytesOfAll(calls)
    decreases |calls|
  {
    if calls != [] {
      var n := |calls| - 1;
      var before := Calls(Matcher(chord, timeout, [], []), calls[..n]);
      CallsConserve(chord, timeout, calls[..n]);
      assert n > 0 ==> calls[n - 1].at <= calls[n].at;
      CallConserves(before.matcher, calls[n]);
      var e := Called(before.matcher, calls[n]);
      Carry(before.forward, e.forward, e.matcher.held, [], before.matcher.held, BytesOfAll(calls[..n]), BytesOf(calls[n]));
      assert [] + BytesOfAll(calls) == BytesOfAll(calls) && [] + BytesOfAll(calls[..n]) == BytesOfAll(calls[..n]);
    }
  }
}
