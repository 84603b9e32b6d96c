/** Which encodings of a key are read as the detach chord, for every key code and modifier parameter there is. */
module DetachSpellings {
  import opened Bytes
  import opened Encoder
  import opened DetachEncoding

  const MAX_CODE: nat := 0xFFFF_FFFF
  const MAX_MASK: nat := 0xFFFF

  /** `ESC [ code ; modifiers u` */
  function Kitty(code: nat, mask: nat): seq<Byte> {
    [ESC, 0x5B] + (Decimal(code) + [0x3B] + Decimal(mask)) + [0x75]
  }

  /** `ESC [ 27 ; modifiers ; code ~` */
  function Xterm(mask: nat, code: nat): seq<Byte> {
    [ESC, 0x5B] + (Decimal(27) + [0x3B] + (Decimal(mask) + [0x3B] + Decimal(code))) + [0x7E]
  }

  // ---------------------------------------------------------------------
  // Reading fields
  // ---------------------------------------------------------------------

  lemma {:induction false} DigitsOfDecimal(n: nat)
    ensures Digits(Decimal(n)) == Some(n)
    decreases n
  {
    var s := Decimal(n);
    if n < 10 {
      assert s[..0] == [];
    } else {
      DigitsOfDecimal(n / 10);
      assert s[..|s| - 1] == Decimal(n / 10);
    }
  }

  lemma DecimalIsRead(n: nat, max: nat)
    ensures MainNumber(Decimal(n), max) == if n <= max then Some(n) else None
  {
    hide Decimal, Digits, Split;
    var d := Decimal(n);
    assert 0x3A !in d && d[0] != 0x2B;
    NothingToSplit(d, 0x3A);
    DigitsOfDecimal(n);
  }

  lemma {:induction false} NotOnlyDigits(s: seq<Byte>, k: nat)
    requires k < |s| && !(0x30 <= s[k] <= 0x39)
    ensures Digits(s) == None
    decreases |s|
  {
    if k < |s| - 1 {
      NotOnlyDigits(s[..|s| - 1], k);
    }
  }

  lemma {:induction false} FirstPart(s: seq<Byte>, separator: Byte, k: nat)
    requires k <= |s| && forall i :: 0 <= i < k ==> s[i] != separator
    ensures |Split(s, separator)[0]| >= k && Split(s, separator)[0][..k] == s[..k]
    decreases k
  {
    if k > 0 {
      FirstPart(s[1..], separator, k - 1);
      var rest := Split(s[1..], separator)[0];
      assert Split(s, separator)[0] == [s[0]] + rest;
      assert ([s[0]] + rest)[..k] == [s[0]] + rest[..k - 1] && s[..k] == [s[0]] + s[1..][..k - 1];
    }
  }

  lemma {:induction false} FirstIs(before: seq<Byte>, b: Byte, rest: seq<Byte>)
    requires b !in before
    ensures IndexOf(before + [b] + rest, b) == Some(|before|)
    decreases |before|
  {
    var s := before + [b] + rest;
    if before != [] {
      assert s[1..] == before[1..] + [b] + rest;
      FirstIs(before[1..], b, rest);
    }
  }

  lemma {:induction false} NotBefore(s: seq<Byte>, b: Byte, k: nat)
    requires k <= |s| && forall i :: 0 <= i < k ==> s[i] != b
    ensures IndexOf(s, b).Some? ==> IndexOf(s, b).value >= k
    decreases |s|
  {
    if k > 0 {
      NotBefore(s[1..], b, k - 1);
    }
  }

  // ---------------------------------------------------------------------
  // The two encodings
  // ---------------------------------------------------------------------

  /** A field of digits, the next field, and whatever follows. */
  lemma TwoFields(a: nat, b: seq<Byte>)
    ensures Split(Decimal(a) + [0x3B] + b, 0x3B) == [Decimal(a)] + Split(b, 0x3B)
  {
    hide Decimal;
    SplitDigits(Decimal(a), b);
  }

  lemma KittyByItself(code: nat, mask: nat, rest: seq<Byte>, raw: Byte)
    requires 1 <= raw <= 26 && code <= MAX_CODE && mask <= MAX_MASK
    ensures ParseCsiU(Kitty(code, mask) + rest, raw)
      == if CsiUMatches(code, Some(mask), raw) then Some(Encoded(raw, |Kitty(code, mask)|)) else None
  {
    hide Decimal, Split, MainNumber, IndexOf;
    var body := Decimal(code) + [0x3B] + Decimal(mask);
    var before := [ESC, 0x5B] + body;
    var s := Kitty(code, mask) + rest;
    assert s == before + [0x75] + rest && 0x75 !in before;
    FirstIs(before, 0x75, rest);
    assert s[2..|before|] == body;
    TwoFields(code, Decimal(mask));
    assert 0x3B !in Decimal(mask);
    NothingToSplit(Decimal(mask), 0x3B);
    DecimalIsRead(code, MAX_CODE);
    DecimalIsRead(mask, MAX_MASK);
  }

  /** Read as the other encoding it fails, even when a `~` follows somewhere. */
  lemma KittyIsNotXterm(code: nat, mask: nat, rest: seq<Byte>, raw: Byte)
    requires code <= MAX_CODE
    ensures ParseModifyOtherKeys(Kitty(code, mask) + rest, raw) == None
  {
    hide Decimal, Split, IndexOf;
    var body := Decimal(code) + [0x3B] + Decimal(mask);
    var s := Kitty(code, mask) + rest;
    var n := |Kitty(code, mask)|;
    assert forall i :: 0 <= i < n ==> s[i] != 0x7E;
    NotBefore(s, 0x7E, n);
    if IndexOf(s, 0x7E).Some? {
      var end := IndexOf(s, 0x7E).value;
      var second := Decimal(mask) + [0x75] + s[n..end];
      assert s[2..end] == Decimal(code) + [0x3B] + second;
      TwoFields(code, second);
      SecondFieldFails(mask, s[n..end]);
    }
  }

  lemma SecondFieldFails(mask: nat, tail: seq<Byte>)
    ensures MainNumber(Split(Decimal(mask) + [0x75] + tail, 0x3B)[0], MAX_MASK) == None
  {
    hide Decimal, Split, Digits;
    var k := |Decimal(mask)| + 1;
    var second := Decimal(mask) + [0x75] + tail;
    FirstPart(second, 0x3B, k);
    var field := Split(second, 0x3B)[0];
    assert forall i :: 0 <= i < k ==> field[i] == field[..k][i] == second[i];
    FirstPart(field, 0x3A, k);
    var main := Split(field, 0x3A)[0];
    assert main[0] == main[..k][0] == second[0] && main[k - 1] == main[..k][k - 1] == 0x75;
    NotOnlyDigits(main, k - 1);
  }

  lemma XtermByItself(mask: nat, code: nat, rest: seq<Byte>, raw: Byte)
    requires 1 <= raw <= 26 && code <= MAX_CODE && mask <= MAX_MASK
    ensures ParseModifyOtherKeys(Xterm(mask, code) + rest, raw)
      == if HasControl(mask) && LetterOrRaw(code, raw) then Some(Encoded(raw, |Xterm(mask, code)|)) else None
  {
    hide Decimal, Split, MainNumber, IndexOf;
    var tail := Decimal(mask) + [0x3B] + Decimal(code);
    var body := Decimal(27) + [0x3B] + tail;
    var before := [ESC, 0x5B] + body;
    var s := Xterm(mask, code) + rest;
    assert s == before + [0x7E] + rest && 0x7E !in before;
    FirstIs(before, 0x7E, rest);
    assert s[2..|before|] == body;
    TwoFields(27, tail);
    TwoFields(mask, Decimal(code));
    assert 0x3B !in Decimal(code);
    NothingToSplit(Decimal(code), 0x3B);
    DecimalIsRead(27, MAX_CODE);
    DecimalIsRead(mask, MAX_MASK);
    DecimalIsRead(code, MAX_CODE);
  }

  /** Read as the other encoding it is the key 27, which is no letter. */
  lemma XtermIsNotKitty(mask: nat, code: nat, rest: seq<Byte>, raw: Byte)
    requires 1 <= raw <= 26
    ensures ParseCsiU(Xterm(mask, code) + rest, raw) == None
  {
    hide Decimal, Split, MainNumber, IndexOf;
    var tail := Decimal(mask) + [0x3B] + Decimal(code);
    var s := Xterm(mask, code) + rest;
    var n := |Xterm(mask, code)|;
    assert forall i :: 0 <= i < n ==> s[i] != 0x75;
    NotBefore(s, 0x75, n);
    if IndexOf(s, 0x75).Some? {
      var end := IndexOf(s, 0x75).value;
      var second := tail + [0x7E] + s[n..end];
      assert s[2..end] == Decimal(27) + [0x3B] + second;
      TwoFields(27, second);
      DecimalIsRead(27, MAX_CODE);
    }
  }

  /**
   * Whatever follows, the CSI-u encoding of a key is read as the chord, whole, exactly when its code is the control
   * byte itself, or its modifiers hold Control and its code is the letter in either case.
   */
  lemma KittyIsReadExactlyWhen(code: nat, mask: nat, rest: seq<Byte>, raw: Byte)
    requires 1 <= raw <= 26 && code <= MAX_CODE && mask <= MAX_MASK
    ensures ParseCtrlDetach(Kitty(code, mask) + rest, [raw])
      == if code == raw || (HasControl(mask) && LetterOrRaw(code, raw)) then Some(Encoded(raw, |Kitty(code, mask)|))
         else None
  {
    hide ParseCsiU, ParseModifyOtherKeys, Kitty;
    KittyByItself(code, mask, rest, raw);
    KittyIsNotXterm(code, mask, rest, raw);
  }

  /** The xterm encoding is read as the chord exactly when its modifiers hold Control and its code is the letter. */
  lemma XtermIsReadExactlyWhen(mask: nat, code: nat, rest: seq<Byte>, raw: Byte)
    requires 1 <= raw <= 26 && code <= MAX_CODE && mask <= MAX_MASK
    ensures ParseCtrlDetach(Xterm(mask, code) + rest, [raw])
      == if HasControl(mask) && LetterOrRaw(code, raw) then Some(Encoded(raw, |Xterm(mask, code)|)) else None
  {
    hide ParseCsiU, ParseModifyOtherKeys, Xterm;
    XtermIsNotKitty(mask, code, rest, raw);
    XtermByItself(mask, code, rest, raw);
  }

  /** The modifier parameter is one more than shift 1, alt 2, control 4 and others together. */
  lemma ControlIsBitFour(shift: nat, alt: nat, control: nat, others: nat)
    requires shift < 2 && alt < 2 && control < 2
    ensures HasControl(1 + shift + 2 * alt + 4 * control + 8 * others) <==> control == 1
    ensures !HasControl(0)
  {
    var bits := shift + 2 * alt + 4 * (control + 2 * others);
    assert bits / 4 == control + 2 * others;
  }

  /** A letter's code is its control byte in the lowest five bits, in either case. */
  lemma LettersOfControl(code: nat, raw: Byte)
    requires 1 <= raw <= 26
    ensures LetterOrRaw(code, raw) <==>
      code == raw || ((0x41 <= code <= 0x5A || 0x61 <= code <= 0x7A) && code % 32 == raw)
  {
  }

  // ---------------------------------------------------------------------
  // An encoding by itself
  // ---------------------------------------------------------------------

  lemma {:induction false} IndexIsFirst(s: seq<Byte>, b: Byte)
    ensures match IndexOf(s, b)
      case None => b !in s
      case Some(i) => b !in s[..i]
    decreases |s|
  {
    if s != [] && s[0] != b {
      IndexIsFirst(s[1..], b);
      if IndexOf(s, b).Some? {
        var i := IndexOf(s, b).value;
        assert s[..i] == [s[0]] + s[1..][..i - 1];
      }
    }
  }

  /** Two inputs that agree up to the first `b` of one have their first `b` at the same place. */
  lemma SameIndex(s: seq<Byte>, w: seq<Byte>, b: Byte, n: nat)
    requires n <= |s| && n <= |w| && s[..n] == w[..n]
    ensures IndexOf(s, b).Some? && IndexOf(s, b).value < n ==> IndexOf(w, b) == IndexOf(s, b)
  {
    IndexIsFirst(s, b);
    if IndexOf(s, b).Some? && IndexOf(s, b).value < n {
      var i := IndexOf(s, b).value;
      assert w[i] == w[..n][i] == s[..n][i] == b;
      assert w[..i] == w[..n][..i] == s[..n][..i] == s[..i];
      assert w == w[..i] + [b] + w[i + 1..];
      FirstIs(w[..i], b, w[i + 1..]);
    }
  }

  /** A field that something follows is the first field of every input that begins alike. */
  lemma {:induction false} FirstFieldStays(s: seq<Byte>, w: seq<Byte>, separator: Byte)
    requires |Split(s, separator)| > 1 && s <= w
    ensures Split(w, separator)[0] == Split(s, separator)[0]
    decreases |s|
  {
    if s[0] != separator {
      assert s[1..] <= w[1..];
      FirstFieldStays(s[1..], w[1..], separator);
    }
  }

  /** What comes behind the first `u` does not matter to the CSI-u reading, and before it there is none. */
  lemma CsiUStandsAlone(s: seq<Byte>, w: seq<Byte>, raw: Byte, n: nat)
    requires n <= |s| && n <= |w| && s[..n] == w[..n]
    requires IndexOf(s, 0x75).Some? && IndexOf(s, 0x75).value < n
    ensures ParseCsiU(w, raw) == ParseCsiU(s, raw)
  {
    hide IndexOf, Split, MainNumber, CsiUMatches, StartsCsi;
    var end := IndexOf(s, 0x75).value;
    SameIndex(s, w, 0x75, n);
    AgreeBelow(s, w, end, n);
    CsiAtTwo(s);
    CsiAtTwo(w);
  }

  lemma AgreeBelow(s: seq<Byte>, w: seq<Byte>, end: nat, n: nat)
    requires end < n <= |s| && n <= |w| && s[..n] == w[..n]
    ensures s[..end] == w[..end] && (2 <= end ==> s[2..end] == w[2..end])
    ensures StartsCsi(s) && end >= 2 ==> StartsCsi(w)
    ensures StartsCsi(w) && end >= 2 ==> StartsCsi(s)
    ensures s[end] == w[end]
  {
    assert forall i :: 0 <= i < n ==> s[i] == s[..n][i] == w[..n][i] == w[i];
  }

  lemma XtermStandsAlone(s: seq<Byte>, w: seq<Byte>, raw: Byte, n: nat)
    requires n <= |s| && n <= |w| && s[..n] == w[..n]
    requires IndexOf(s, 0x7E).Some? && IndexOf(s, 0x7E).value < n
    ensures ParseModifyOtherKeys(w, raw) == ParseModifyOtherKeys(s, raw)
  {
    hide IndexOf, Split, MainNumber, LetterOrRaw, HasControl, StartsCsi;
    var end := IndexOf(s, 0x7E).value;
    SameIndex(s, w, 0x7E, n);
    AgreeBelow(s, w, end, n);
    CsiAtTwo(s);
    CsiAtTwo(w);
  }

  /** Neither final byte is part of the introducer. */
  lemma CsiAtTwo(s: seq<Byte>)
    ensures StartsCsi(s) && IndexOf(s, 0x75).Some? ==> IndexOf(s, 0x75).value >= 2
    ensures StartsCsi(s) && IndexOf(s, 0x7E).Some? ==> IndexOf(s, 0x7E).value >= 2
  {
    hide IndexOf;
  }

  /** The parameters of an xterm encoding. */
  predicate XtermParams(t: seq<Byte>) {
    MainNumber(Split(t, 0x3B)[0], MAX_CODE) == Some(27) && |Split(t, 0x3B)| == 3
  }

  lemma ReadAsXterm(s: seq<Byte>, raw: Byte)
    requires ParseModifyOtherKeys(s, raw).Some?
    ensures IndexOf(s, 0x7E).Some? && 2 <= IndexOf(s, 0x7E).value
    ensures XtermParams(s[2..IndexOf(s, 0x7E).value])
    ensures ParseModifyOtherKeys(s, raw).value.consumed == IndexOf(s, 0x7E).value + 1
  {
    hide IndexOf, Split, MainNumber;
  }

  lemma ReadAsCsiU(s: seq<Byte>, raw: Byte)
    requires ParseCsiU(s, raw).Some?
    ensures IndexOf(s, 0x75).Some? && 2 <= IndexOf(s, 0x75).value
    ensures ParseCsiU(s, raw).value.consumed == IndexOf(s, 0x75).value + 1
  {
    hide IndexOf, Split, MainNumber;
  }

  /** Behind the parameters of an xterm encoding there is no CSI-u one: its key would be 27. */
  lemma NotCsiUBehind(t: seq<Byte>, w: seq<Byte>, raw: Byte)
    requires 1 <= raw <= 26 && XtermParams(t)
    requires IndexOf(w, 0x75).Some? && 2 <= IndexOf(w, 0x75).value && t <= w[2..IndexOf(w, 0x75).value]
    ensures ParseCsiU(w, raw) == None
  {
    hide IndexOf, Split, MainNumber;
    FirstFieldStays(t, w[2..IndexOf(w, 0x75).value], 0x3B);
  }

  /**
   * An encoding is read from its own bytes: from fewer it is not read, and whatever follows makes no difference. So
   * the first key of an input is settled by the bytes it takes.
   */
  lemma EncodingStandsAlone(s: seq<Byte>, chord: seq<Byte>, n: nat, rest: seq<Byte>)
    requires ParseCtrlDetach(s, chord).Some?
    ensures
      var k := ParseCtrlDetach(s, chord).value.consumed;
      && (n < k ==> ParseCtrlDetach(s[..n], chord) == None)
      && ParseCtrlDetach(s[..k] + rest, chord) == ParseCtrlDetach(s, chord)
  {
    hide IndexOf, ParseCsiU, ParseModifyOtherKeys, XtermParams;
    var raw := CtrlLetter(chord).value;
    var k := ParseCtrlDetach(s, chord).value.consumed;
    var w := s[..k] + rest;
    assert w[..k] == s[..k];
    if ParseCsiU(s, raw).Some? {
      ReadAsCsiU(s, raw);
      CsiUStandsAlone(s, w, raw, k);
      if n < k {
        CsiUNotSooner(s, raw, n);
      }
    } else {
      ReadAsXterm(s, raw);
      XtermStandsAlone(s, w, raw, k);
      StillNotCsiU(s, w, raw, k);
      if n < k {
        XtermNotSooner(s, raw, n);
      }
    }
  }

  lemma CsiUNotSooner(s: seq<Byte>, raw: Byte, n: nat)
    requires 1 <= raw <= 26 && ParseCsiU(s, raw).Some? && n < ParseCsiU(s, raw).value.consumed
    ensures ParseCsiU(s[..n], raw) == None && ParseModifyOtherKeys(s[..n], raw) == None
  {
    hide IndexOf, ParseCsiU, ParseModifyOtherKeys, XtermParams;
    var p := s[..n];
    ReadAsCsiU(s, raw);
    IndexIsFirst(s, 0x75);
    assert 0x75 !in p by {
      assert forall b :: b in p ==> b in s[..IndexOf(s, 0x75).value];
    }
    if ParseCsiU(p, raw).Some? {
      ReadAsCsiU(p, raw);
    }
    if ParseModifyOtherKeys(p, raw).Some? {
      ReadAsXterm(p, raw);
      var t := IndexOf(p, 0x7E).value;
      assert p[2..t] == s[2..t] <= s[2..IndexOf(s, 0x75).value];
      NotCsiUBehind(p[2..t], s, raw);
    }
  }

  lemma XtermNotSooner(s: seq<Byte>, raw: Byte, n: nat)
    requires ParseCsiU(s, raw) == None && ParseModifyOtherKeys(s, raw).Some?
    requires n < ParseModifyOtherKeys(s, raw).value.consumed
    ensures ParseCsiU(s[..n], raw) == None && ParseModifyOtherKeys(s[..n], raw) == None
  {
    hide IndexOf, ParseCsiU, ParseModifyOtherKeys, XtermParams;
    var p := s[..n];
    ReadAsXterm(s, raw);
    IndexIsFirst(s, 0x7E);
    assert 0x7E !in p by {
      assert forall b :: b in p ==> b in s[..IndexOf(s, 0x7E).value];
    }
    if ParseModifyOtherKeys(p, raw).Some? {
      ReadAsXterm(p, raw);
    }
    if ParseCsiU(p, raw).Some? {
      ReadAsCsiU(p, raw);
      assert p[..n] == s[..n];
      CsiUStandsAlone(p, s, raw, n);
    }
  }

  lemma StillNotCsiU(s: seq<Byte>, w: seq<Byte>, raw: Byte, k: nat)
    requires 1 <= raw <= 26 && ParseCsiU(s, raw) == None && ParseModifyOtherKeys(s, raw).Some?
    requires k == ParseModifyOtherKeys(s, raw).value.consumed <= |w| && s[..k] == w[..k]
    ensures ParseCsiU(w, raw) == None
  {
    hide IndexOf, ParseCsiU, ParseModifyOtherKeys, XtermParams;
    ReadAsXterm(s, raw);
    var t := IndexOf(s, 0x7E).value;
    if ParseCsiU(w, raw).Some? {
      ReadAsCsiU(w, raw);
      var end := IndexOf(w, 0x75).value;
      if end < k {
        CsiUStandsAlone(w, s, raw, k);
      } else {
        assert s[2..t] == s[..k][2..t] == w[..k][2..t] == w[2..t] <= w[2..end];
        NotCsiUBehind(s[2..t], w, raw);
      }
    }
  }
}
