/** The one-shot stripper: lossy decoding followed by a scan over characters with one character of lookahead. */
module StripAnsi {
  import opened Bytes
  import opened Utf8
  import opened EscapeScan

  /** `ESC` followed by one of these characters is a complete two-character escape. */
  predicate EndsEscape(c: Byte) {
    c == 0x3D || c == 0x3E || c == 0x3C || c == 0x37 || c == 0x38 || 0x40 <= c <= 0x5F
  }

  /** Whether `ESC c` is an escape sequence or the start of one. */
  predicate Introduces(c: Byte) { OpensCharset(c) || EndsEscape(c) }

  /** The mode the stripper is in after one more unit. It never enters the nested-CSI modes. */
  function Next(m: Mode, c: Byte): Mode {
    match m
    case Ground => if c == ESC then Escape else Ground
    case Escape =>
      if c == 0x5B then Csi else if c == 0x5D then Osc
      else if OpensString(c) then Str else if OpensCharset(c) then Charset
      else if c == ESC then Escape else Ground
    case Csi => if IsFinal(c) then Ground else Csi
    case Osc => if c == BEL then Ground else if c == ESC then OscEscape else Osc
    case OscEscape =>
      if c == 0x5C || c == BEL then Ground else if c == ESC then OscEscape else Osc
    case Str => if c == ESC then StrEscape else Str
    case StrEscape => if c == 0x5C then Ground else if c == ESC then StrEscape else Str
    case Charset => Ground
    case OscCsi => Ground
    case StrCsi => Ground
  }

  /** The text one more unit contributes. An ESC that introduces nothing is literal text. */
  function Emit(m: Mode, u: Unit): seq<Byte> {
    var c := u.Key();
    match m
    case Ground => if c == ESC then [] else u.Text()
    case Escape =>
      if c == ESC then [ESC]
      else if Introduces(c) then []
      else [ESC] + u.Text()
    case _ => []
  }

  /** The end of the input: a lone ESC is literal text, any other open sequence is dropped. */
  function Finish(m: Mode): seq<Byte> {
    if m == Escape then [ESC] else []
  }

  function NextAll(m: Mode, us: seq<Unit>): Mode
    decreases |us|
  {
    if us == [] then m else NextAll(Next(m, us[0].Key()), us[1..])
  }

  function EmitAll(m: Mode, us: seq<Unit>): seq<Byte>
    decreases |us|
  {
    if us == [] then [] else Emit(m, us[0]) + EmitAll(Next(m, us[0].Key()), us[1..])
  }

  /** All the text of `us`, read from mode `m` to the end of the input. */
  function StripFrom(m: Mode, us: seq<Unit>): seq<Byte> {
    EmitAll(m, us) + Finish(NextAll(m, us))
  }

  function Strip(bytes: seq<Byte>): seq<Byte> {
    StripFrom(Ground, Decode(bytes))
  }

  lemma {:induction false} NextAppend(m: Mode, a: seq<Unit>, b: seq<Unit>)
    ensures NextAll(m, a + b) == NextAll(NextAll(m, a), b)
    decreases |a|
  {
    if a == [] {
      assert a + b == b;
    } else {
      assert (a + b)[1..] == a[1..] + b;
      NextAppend(Next(m, a[0].Key()), a[1..], b);
    }
  }

  lemma {:induction false} EmitAppend(m: Mode, a: seq<Unit>, b: seq<Unit>)
    ensures EmitAll(m, a + b) == EmitAll(m, a) + EmitAll(NextAll(m, a), b)
    decreases |a|
  {
    if a == [] {
      assert a + b == b;
    } else {
      assert (a + b)[1..] == a[1..] + b;
      EmitAppend(Next(m, a[0].Key()), a[1..], b);
    }
  }

  lemma StripFromAppend(m: Mode, a: seq<Unit>, b: seq<Unit>)
    ensures StripFrom(m, a + b) == EmitAll(m, a) + StripFrom(NextAll(m, a), b)
  {
    hide NextAll, EmitAll, Finish;
    NextAppend(m, a, b);
    EmitAppend(m, a, b);
    Regroup(EmitAll(m, a), EmitAll(NextAll(m, a), b), Finish(NextAll(m, a + b)));
  }

  lemma StripFromCons(m: Mode, us: seq<Unit>)
    requires us != []
    ensures StripFrom(m, us) == Emit(m, us[0]) + StripFrom(Next(m, us[0].Key()), us[1..])
  {
    assert us == [us[0]] + us[1..];
    assert EmitAll(m, [us[0]]) == Emit(m, us[0]) + EmitAll(Next(m, us[0].Key()), []);
    assert NextAll(m, [us[0]]) == NextAll(Next(m, us[0].Key()), []);
    StripFromAppend(m, [us[0]], us[1..]);
  }

  // ---------------------------------------------------------------------
  // The scan itself
  // ---------------------------------------------------------------------

  /** Everything from `i` on, read in mode `m`, completes `done` to `whole`. */
  ghost predicate Remains(whole: seq<Byte>, done: seq<Byte>, m: Mode, us: seq<Unit>, i: nat) {
    i <= |us| && whole == done + StripFrom(m, us[i..])
  }

  lemma Consume(whole: seq<Byte>, done: seq<Byte>, m: Mode, us: seq<Unit>, i: nat)
    requires Remains(whole, done, m, us, i) && i < |us|
    ensures Remains(whole, done + Emit(m, us[i]), Next(m, us[i].Key()), us, i + 1)
  {
    StripFromCons(m, us[i..]);
    assert us[i..][1..] == us[i + 1..];
  }

  method SkipCsi(us: seq<Unit>, from: nat, ghost whole: seq<Byte>, ghost done: seq<Byte>) returns (i: nat)
    requires Remains(whole, done, Csi, us, from)
    ensures from <= i && Remains(whole, done, Ground, us, i)
  {
    i := from;
    while i < |us|
      invariant from <= i && Remains(whole, done, Csi, us, i)
    {
      var c := us[i].Key();
      Consume(whole, done, Csi, us, i);
      assert done + [] == done;
      i := i + 1;
      if 0x40 <= c <= 0x7E {
        break;
      }
    }
    if i == |us| {
      assert us[i..] == [];
    }
  }

  /** Scans a control string body; an ESC not followed by `\` is swallowed and scanning goes on after it. */
  method SkipString(us: seq<Unit>, from: nat, bell: bool, ghost whole: seq<Byte>, ghost done: seq<Byte>)
    returns (i: nat)
    requires Remains(whole, done, if bell then Osc else Str, us, from)
    ensures from <= i && Remains(whole, done, Ground, us, i)
  {
    hide StripFrom;
    i := from;
    ghost var m := if bell then Osc else Str;
    assert done + [] == done;
    while i < |us|
      invariant from <= i && Remains(whole, done, m, us, i)
      invariant m == (if bell then Osc else Str) || m == (if bell then OscEscape else StrEscape)
      invariant m == OscEscape || m == StrEscape ==> i < |us| ==> us[i].Key() != 0x5C
    {
      var c := us[i].Key();
      Consume(whole, done, m, us, i);
      m := Next(m, c);
      i := i + 1;
      if bell && c == BEL {
        break;
      }
      if c == ESC && i < |us| && us[i].Key() == 0x5C {
        Consume(whole, done, m, us, i);
        m := Ground;
        i := i + 1;
        break;
      }
    }
    if i == |us| {
      assert us[i..] == [];
      UnfinishedString(m);
    }
  }

  /** A sequence cut off by the end of the input leaves nothing, a lone ESC itself. */
  lemma UnfinishedString(m: Mode)
    ensures StripFrom(Ground, []) == [] && StripFrom(Escape, []) == [ESC]
    ensures m != Escape ==> StripFrom(m, []) == []
  {
  }

  /** Everything that belongs to a known escape sequence, from its introducer on. */
  method SkipEscape(us: seq<Unit>, from: nat, ghost whole: seq<Byte>, ghost done: seq<Byte>) returns (i: nat)
    requires from < |us| && Introduces(us[from].Key()) && Remains(whole, done, Escape, us, from)
    ensures from < i && Remains(whole, done, Ground, us, i)
  {
    hide StripFrom;
    i := from;
    var next := us[i].Key();
    Consume(whole, done, Escape, us, i);
    assert done + [] == done;
    if next == 0x5B {
      i := SkipCsi(us, i + 1, whole, done);
    } else if next == 0x5D || OpensString(next) {
      i := SkipString(us, i + 1, next == 0x5D, whole, done);
    } else if OpensCharset(next) {
      i := i + 1;
      if i < |us| {
        Consume(whole, done, Charset, us, i);
        i := i + 1;
      } else {
        assert us[i..] == [];
        UnfinishedString(Charset);
      }
    } else {
      i := i + 1;
    }
  }

  method StripText(bytes: seq<Byte>) returns (result: seq<Byte>)
    ensures result == Strip(bytes)
  {
    hide StripFrom, Introduces;
    var us := Decode(bytes);
    ghost var whole := Strip(bytes);
    result := [];
    var i := 0;
    assert us[0..] == us;
    UnfinishedString(Ground);
    while i < |us|
      invariant Remains(whole, result, Ground, us, i)
    {
      var c := us[i].Key();
      Consume(whole, result, Ground, us, i);
      assert result + [] == result;
      i := i + 1;
      if c == ESC {
        if i == |us| {
          assert us[i..] == [];
          return result + [ESC];
        }
        if !Introduces(us[i].Key()) {
          // Unknown introducer: this ESC is literal and the next character is examined on its own.
          KeepEscape(whole, result, us, i);
          result := result + [ESC];
          continue;
        }
        i := SkipEscape(us, i, whole, result);
      } else {
        result := result + us[i - 1].Text();
      }
    }
    assert us[i..] == [];
  }

  /** After an ESC that introduces nothing, the next character is read from the ground. */
  lemma KeepEscape(whole: seq<Byte>, done: seq<Byte>, us: seq<Unit>, i: nat)
    requires Remains(whole, done, Escape, us, i) && i < |us| && !Introduces(us[i].Key())
    ensures Remains(whole, done + [ESC], Ground, us, i)
  {
    LiteralEscape(us[i..]);
    assert (done + [ESC]) + StripFrom(Ground, us[i..]) == done + ([ESC] + StripFrom(Ground, us[i..]));
  }

  lemma LiteralEscape(us: seq<Unit>)
    requires us != [] && !Introduces(us[0].Key())
    ensures StripFrom(Escape, us) == [ESC] + StripFrom(Ground, us)
  {
    var u, tail := us[0], StripFrom(Next(Ground, us[0].Key()), us[1..]);
    LiteralStep(u);
    assert StripFrom(Escape, us) == Emit(Escape, u) + tail by { StripFromCons(Escape, us); }
    assert StripFrom(Ground, us) == Emit(Ground, u) + tail by { StripFromCons(Ground, us); }
    Regroup([ESC], Emit(Ground, u), tail);
  }

  lemma LiteralStep(u: Unit)
    requires !Introduces(u.Key())
    ensures Emit(Escape, u) == [ESC] + Emit(Ground, u) && Next(Escape, u.Key()) == Next(Ground, u.Key())
  {
  }
}
