/** Input encoding: newline policies for pasted text, decimal numbers, and SGR mouse reports. */
module Encoder {
  import opened Bytes
  import opened ModeOverlay

  // ---------------------------------------------------------------------
  // Pasted text
  // ---------------------------------------------------------------------

  datatype PasteNewlinePolicy = Preserve | NormalizeToLf | NormalizeToCr

  /** Every non-overlapping CR LF, from the left, replaced by one byte. */
  function ReplaceCrLf(s: seq<Byte>, target: Byte): seq<Byte>
    decreases |s|
  {
    if s == [] then []
    else if |s| >= 2 && s[0] == CR && s[1] == LF then [target] + ReplaceCrLf(s[2..], target)
    else [s[0]] + ReplaceCrLf(s[1..], target)
  }

  function ReplaceByte(s: seq<Byte>, what: Byte, target: Byte): seq<Byte> {
    if s == [] then [] else [if s[0] == what then target else s[0]] + ReplaceByte(s[1..], what, target)
  }

  function Processed(text: seq<Byte>, policy: PasteNewlinePolicy): seq<Byte> {
    match policy
    case Preserve => text
    case NormalizeToLf => ReplaceByte(ReplaceCrLf(text, LF), CR, LF)
    case NormalizeToCr => ReplaceByte(ReplaceCrLf(text, CR), LF, CR)
  }

  const PASTE_START: seq<Byte> := [ESC, 0x5B, 0x32, 0x30, 0x30, 0x7E]
  const PASTE_END: seq<Byte> := [ESC, 0x5B, 0x32, 0x30, 0x31, 0x7E]

  function EncodePaste(text: seq<Byte>, policy: PasteNewlinePolicy, bracketed: bool): seq<Byte> {
    if bracketed then PASTE_START + Processed(text, policy) + PASTE_END else Processed(text, policy)
  }

  /** A universal-newline reader: each CR LF, CR or LF is one line end, written as `newline`. */
  function Universal(s: seq<Byte>, newline: Byte): seq<Byte>
    decreases |s|
  {
    if s == [] then []
    else if |s| >= 2 && s[0] == CR && s[1] == LF then [newline] + Universal(s[2..], newline)
    else if s[0] == CR || s[0] == LF then [newline] + Universal(s[1..], newline)
    else [s[0]] + Universal(s[1..], newline)
  }

  lemma {:induction false} TwoPassesAreOne(s: seq<Byte>, newline: Byte, other: Byte)
    requires (newline == LF && other == CR) || (newline == CR && other == LF)
    ensures ReplaceByte(ReplaceCrLf(s, newline), other, newline) == Universal(s, newline)
    decreases |s|
  {
    if s != [] {
      var n := if |s| >= 2 && s[0] == CR && s[1] == LF then 2 else 1;
      TwoPassesAreOne(s[n..], newline, other);
      assert ReplaceCrLf(s, newline)[1..] == ReplaceCrLf(s[n..], newline);
    }
  }

  predicate NoneOf(s: seq<Byte>, b: Byte) { b !in s }

  lemma {:induction false} OnlyTargetRemains(s: seq<Byte>, newline: Byte, other: Byte)
    requires (newline == LF && other == CR) || (newline == CR && other == LF)
    ensures NoneOf(Universal(s, newline), other)
    decreases |s|
  {
    if s != [] {
      var n := if |s| >= 2 && s[0] == CR && s[1] == LF then 2 else 1;
      OnlyTargetRemains(s[n..], newline, other);
    }
  }

  /** Once one kind of newline remains, a further pass only rewrites it byte by byte. */
  lemma {:induction false} SecondPass(s: seq<Byte>, newline: Byte, other: Byte, again: Byte)
    requires (newline == LF && other == CR) || (newline == CR && other == LF)
    requires again == LF || again == CR
    ensures Universal(Universal(s, newline), again) == Universal(s, again)
    decreases |s|
  {
    if s != [] {
      var n := if |s| >= 2 && s[0] == CR && s[1] == LF then 2 else 1;
      var rest := Universal(s[n..], newline);
      OnlyTargetRemains(s[n..], newline, other);
      OnlyTargetRemains(s, newline, other);
      SecondPass(s[n..], newline, other, again);
      var u := Universal(s, newline);
      assert u[1..] == rest;
      assert |u| >= 2 ==> !(u[0] == CR && u[1] == LF) by {
        if |u| >= 2 {
          assert u[0] != other && u[1] != other;
        }
      }
    }
  }

  /**
   * Both two-pass policies are a one-pass universal-newline scan, idempotent, and normalising to LF after CR is
   * normalising to LF.
   */
  lemma {:induction false} NewlinePolicies(text: seq<Byte>)
    ensures Processed(text, NormalizeToLf) == Universal(text, LF)
    ensures Processed(text, NormalizeToCr) == Universal(text, CR)
    ensures Processed(Processed(text, NormalizeToLf), NormalizeToLf) == Processed(text, NormalizeToLf)
    ensures Processed(Processed(text, NormalizeToCr), NormalizeToCr) == Processed(text, NormalizeToCr)
    ensures Processed(Processed(text, NormalizeToCr), NormalizeToLf) == Processed(text, NormalizeToLf)
    ensures Processed(Processed(text, NormalizeToLf), NormalizeToCr) == Processed(text, NormalizeToCr)
  {
    var lf, cr := Universal(text, LF), Universal(text, CR);
    TwoPassesAreOne(text, LF, CR);
    TwoPassesAreOne(text, CR, LF);
    TwoPassesAreOne(lf, LF, CR);
    TwoPassesAreOne(lf, CR, LF);
    TwoPassesAreOne(cr, LF, CR);
    TwoPassesAreOne(cr, CR, LF);
    SecondPass(text, LF, CR, LF);
    SecondPass(text, LF, CR, CR);
    SecondPass(text, CR, LF, LF);
    SecondPass(text, CR, LF, CR);
  }

  // ---------------------------------------------------------------------
  // Numbers
  // ---------------------------------------------------------------------

  function Decimal(n: nat): (s: seq<Byte>)
    ensures s != [] && forall i :: 0 <= i < |s| ==> 0x30 <= s[i] <= 0x39
  {
    if n < 10 then [0x30 + n] else Decimal(n / 10) + [0x30 + n % 10]
  }

  function Reversed(s: seq<Byte>): seq<Byte> {
    if s == [] then [] else Reversed(s[1..]) + [s[0]]
  }

  lemma {:induction false} ReversedSnoc(s: seq<Byte>, b: Byte)
    ensures Reversed(s + [b]) == [b] + Reversed(s)
    decreases |s|
  {
    if s == [] {
      assert (s + [b])[1..] == [];
    } else {
      assert (s + [b])[1..] == s[1..] + [b];
      ReversedSnoc(s[1..], b);
    }
  }

  /** Digits are pushed from the lowest up and turned round at the end. */
  method WriteU16(value: nat, buf: seq<Byte>) returns (out: seq<Byte>)
    requires value <= 0xFFFF
    ensures out == buf + Decimal(value)
  {
    var n := value;
    if n == 0 {
      return buf + [0x30];
    }
    out := buf;
    var start := |out|;
    ghost var pushed: seq<Byte> := [];
    while n > 0
      invariant 0 <= n && out == buf + pushed && start == |buf|
      invariant Decimal(value) == (if n == 0 then [] else Decimal(n)) + Reversed(pushed)
    {
      ReversedSnoc(pushed, 0x30 + n % 10);
      pushed := pushed + [0x30 + n % 10];
      out := out + [0x30 + n % 10];
      n := n / 10;
    }
    out := out[..start] + Reversed(out[start..]);
    assert buf + pushed == out[..start] + pushed;
  }

  lemma {:induction false} DecimalParses(n: nat)
    requires n <= 0xFFFF
    ensures ParseDigits(Decimal(n)) == Some(n)
    decreases n
  {
    var s := Decimal(n);
    if n < 10 {
      assert s[..0] == [];
    } else {
      DecimalParses(n / 10);
      assert s[..|s| - 1] == Decimal(n / 10);
    }
  }

  // ---------------------------------------------------------------------
  // SGR mouse reports
  // ---------------------------------------------------------------------

  datatype MouseButton = Left | Middle | Right
  datatype MouseEventKind =
    | Down(MouseButton) | Up(MouseButton) | Drag(MouseButton)
    | Moved | ScrollDown | ScrollUp | ScrollLeft | ScrollRight
  datatype KeyModifiers = KeyModifiers(shift: bool, alt: bool, control: bool)
  datatype MouseInput = MouseInput(kind: MouseEventKind, column: nat, row: nat, modifiers: KeyModifiers)

  /** Bits 4, 8 and 16. */
  function ModifierBits(m: KeyModifiers): nat {
    (if m.shift then 4 else 0) + (if m.alt then 8 else 0) + (if m.control then 16 else 0)
  }

  function ButtonNumber(b: MouseButton): nat { match b case Left => 0 case Middle => 1 case Right => 2 }

  /** The button code; the modifier bits never meet the others, so adding them sets them. */
  function ButtonCode(m: MouseInput): Option<nat> {
    match m.kind
    case Down(b) => Some(ButtonNumber(b) + ModifierBits(m.modifiers))
    case Up(b) => Some(ButtonNumber(b) + ModifierBits(m.modifiers))
    case Drag(b) => Some(ButtonNumber(b) + 32 + ModifierBits(m.modifiers))
    case Moved => Some(35 + ModifierBits(m.modifiers))
    case ScrollDown => Some(65 + ModifierBits(m.modifiers))
    case ScrollUp => Some(64 + ModifierBits(m.modifiers))
    case ScrollLeft => None
    case ScrollRight => None
  }

  /** The one-based coordinate in 16 bits: the largest one wraps to 0, where overflow checks would stop the program. */
  function OneBased(k: nat): nat { (k + 1) % 0x1_0000 }

  lemma OneBasedFits(k: nat)
    requires k <= 0xFFFF
    ensures OneBased(k) <= 0xFFFF && (k < 0xFFFF <==> OneBased(k) == k + 1)
  {
  }

  function MouseBody(code: nat, column: nat, row: nat): seq<Byte> {
    Decimal(code) + [0x3B] + Decimal(OneBased(column)) + [0x3B] + Decimal(OneBased(row))
  }

  /** The report for a mouse event; nothing unless SGR mode is on and the event has a code. */
  method EncodeMouse(mouse: MouseInput, mode: MouseMode) returns (report: Option<seq<Byte>>)
    requires mouse.column <= 0xFFFF && mouse.row <= 0xFFFF
    ensures report.Some? <==> mode == Sgr && ButtonCode(mouse).Some?
    ensures report.Some? ==>
      report.value == [ESC, 0x5B, 0x3C] + MouseBody(ButtonCode(mouse).value, mouse.column, mouse.row)
                      + [if mouse.kind.Up? then 0x6D else 0x4D]
  {
    if mode == NoMouse || mode != Sgr {
      return None;
    }
    var code := ButtonCode(mouse);
    if code.None? {
      return None;
    }
    var buf := [ESC, 0x5B, 0x3C];
    buf := WriteU16(code.value, buf);
    buf := buf + [0x3B];
    buf := WriteU16(OneBased(mouse.column), buf);
    buf := buf + [0x3B];
    buf := WriteU16(OneBased(mouse.row), buf);
    buf := buf + [if mouse.kind.Up? then 0x6D else 0x4D];
    return Some(buf);
  }

  lemma {:induction false} SplitDigits(s: seq<Byte>, rest: seq<Byte>)
    requires forall i :: 0 <= i < |s| ==> 0x30 <= s[i] <= 0x39
    ensures Split(s, 0x3B) == [s]
    ensures Split(s + [0x3B] + rest, 0x3B) == [s] + Split(rest, 0x3B)
    decreases |s|
  {
    var all := s + [0x3B] + rest;
    if s == [] {
      assert all[1..] == rest;
    } else {
      SplitDigits(s[1..], rest);
      assert all[1..] == s[1..] + [0x3B] + rest;
      assert [s[0]] + s[1..] == s;
      assert ([s[1..]] + Split(rest, 0x3B))[1..] == Split(rest, 0x3B);
    }
  }

  /** A report's fields read back as the code and the one-based position. */
  lemma MouseReportParses(code: nat, column: nat, row: nat)
    requires code <= 0xFFFF && column <= 0xFFFF && row <= 0xFFFF
    ensures
      var fields := Split(MouseBody(code, column, row), 0x3B);
      && |fields| == 3 && ParseDigits(fields[0]) == Some(code)
      && ParseDigits(fields[1]) == Some(OneBased(column)) && ParseDigits(fields[2]) == Some(OneBased(row))
      && (column < 0xFFFF <==> OneBased(column) == column + 1) && (row < 0xFFFF <==> OneBased(row) == row + 1)
  {
    hide Decimal, Split, ParseDigits, OneBased;
    OneBasedFits(column);
    OneBasedFits(row);
    var a, b, c := Decimal(code), Decimal(OneBased(column)), Decimal(OneBased(row));
    assert MouseBody(code, column, row) == a + [0x3B] + (b + [0x3B] + c);
    SplitDigits(a, b + [0x3B] + c);
    SplitDigits(b, c);
    SplitDigits(c, []);
    DecimalParses(code);
    DecimalParses(OneBased(column));
    DecimalParses(OneBased(row));
  }

  /** The two low bits and everything from bit 5 up, which together name the event; the rest is modifiers. */
  function KindBits(k: MouseEventKind): (nat, nat) {
    match k
    case Down(b) => (ButtonNumber(b), 0)
    case Up(b) => (ButtonNumber(b), 0)
    case Drag(b) => (ButtonNumber(b), 1)
    case Moved => (3, 1)
    case ScrollDown => (1, 2)
    case ScrollUp => (0, 2)
    case _ => (0, 0)
  }

  lemma CodeParts(m: MouseInput)
    requires ButtonCode(m).Some?
    ensures ButtonCode(m).value == KindBits(m.kind).0 + ModifierBits(m.modifiers) + 32 * KindBits(m.kind).1
    ensures KindBits(m.kind).0 < 4 && ModifierBits(m.modifiers) < 32
  {
  }

  lemma SameModifiers(a: KeyModifiers, b: KeyModifiers, x: nat, y: nat)
    requires x < 4 && y < 4 && x + ModifierBits(a) == y + ModifierBits(b)
    ensures a == b && x == y
  {
  }

  /** The button code tells the kind of event, the button and the modifiers apart; a release shares the press's code. */
  lemma ButtonCodeIsFaithful(a: MouseInput, b: MouseInput)
    requires ButtonCode(a).Some? && ButtonCode(a) == ButtonCode(b) && a.kind.Up? == b.kind.Up?
    ensures a.kind == b.kind && a.modifiers == b.modifiers
  {
    CodeParts(a);
    CodeParts(b);
    var x, y := KindBits(a.kind), KindBits(b.kind);
    assert x.1 == y.1 && x.0 + ModifierBits(a.modifiers) == y.0 + ModifierBits(b.modifiers);
    SameModifiers(a.modifiers, b.modifiers, x.0, y.0);
    SameKind(a.kind, b.kind);
  }

  /** What the bits of a button code say: modifiers 4, 8 and 16, motion 32, wheel 64, and the button in the low two. */
  lemma ButtonCodeBits(m: MouseInput)
    requires ButtonCode(m).Some?
    ensures
      var code := ButtonCode(m).value;
      && (code / 4 % 2 == 1 <==> m.modifiers.shift)
      && (code / 8 % 2 == 1 <==> m.modifiers.alt)
      && (code / 16 % 2 == 1 <==> m.modifiers.control)
      && (code / 32 % 2 == 1 <==> m.kind.Drag? || m.kind.Moved?)
      && (code / 64 == 1 <==> m.kind.ScrollUp? || m.kind.ScrollDown?) && code < 128
      && match code % 4
         case 0 => m.kind in {Down(Left), Up(Left), Drag(Left), ScrollUp}
         case 1 => m.kind in {Down(Middle), Up(Middle), Drag(Middle), ScrollDown}
         case 2 => m.kind in {Down(Right), Up(Right), Drag(Right)}
         case _ => m.kind == Moved
  {
    hide ButtonCode, KindBits, ModifierBits;
    var low, high := KindBits(m.kind).0, KindBits(m.kind).1;
    var shift, alt, control :=
      if m.modifiers.shift then 1 else 0, if m.modifiers.alt then 1 else 0, if m.modifiers.control then 1 else 0;
    CodeParts(m);
    ModifiersAdd(m.modifiers, shift, alt, control);
    KindOfBits(m);
    ReadBits(low, shift, alt, control, high);
  }

  lemma ModifiersAdd(m: KeyModifiers, shift: nat, alt: nat, control: nat)
    requires shift == (if m.shift then 1 else 0) && alt == (if m.alt then 1 else 0)
    requires control == if m.control then 1 else 0
    ensures ModifierBits(m) == 4 * shift + 8 * alt + 16 * control
  {
  }

  lemma KindOfBits(m: MouseInput)
    requires ButtonCode(m).Some?
    ensures
      var (low, high) := KindBits(m.kind);
      && low < 4 && high < 3 && (high == 1 <==> m.kind.Drag? || m.kind.Moved?)
      && (high == 2 <==> m.kind.ScrollUp? || m.kind.ScrollDown?)
      && match low
         case 0 => m.kind in {Down(Left), Up(Left), Drag(Left), ScrollUp}
         case 1 => m.kind in {Down(Middle), Up(Middle), Drag(Middle), ScrollDown}
         case 2 => m.kind in {Down(Right), Up(Right), Drag(Right)}
         case _ => m.kind == Moved
  {
  }

  lemma ReadBits(low: nat, shift: nat, alt: nat, control: nat, high: nat)
    requires low < 4 && shift < 2 && alt < 2 && control < 2 && high < 3
    ensures
      var code := low + (4 * shift + 8 * alt + 16 * control) + 32 * high;
      && code % 4 == low && code / 4 % 2 == shift && code / 8 % 2 == alt && code / 16 % 2 == control
      && code / 32 % 2 == high % 2 && code / 64 == high / 2
  {
    var a := control + 2 * high;
    var b := alt + 2 * a;
    var c := shift + 2 * b;
    var code := low + (4 * shift + 8 * alt + 16 * control) + 32 * high;
    assert code == low + 4 * c;
    assert code / 4 == c && code / 8 == b && code / 16 == a && code / 32 == high && code / 64 == high / 2;
  }

  /** A bracketed paste is the text between `ESC [ 200 ~` and `ESC [ 201 ~`. */
  lemma PasteIsBracketed(text: seq<Byte>, policy: PasteNewlinePolicy)
    ensures EncodePaste(text, policy, true)
      == [0x1B, 0x5B, 0x32, 0x30, 0x30, 0x7E] + EncodePaste(text, policy, false) + [0x1B, 0x5B, 0x32, 0x30, 0x31, 0x7E]
    ensures EncodePaste(text, Preserve, false) == text
  {
  }

  /** A number is written without leading zeros. */
  lemma {:induction false} NoLeadingZero(n: nat)
    ensures Decimal(n)[0] == 0x30 <==> n == 0
    decreases n
  {
    if n >= 10 {
      NoLeadingZero(n / 10);
    }
  }

  lemma SameKind(a: MouseEventKind, b: MouseEventKind)
    requires KindBits(a) == KindBits(b) && a.Up? == b.Up?
    requires !a.ScrollLeft? && !a.ScrollRight? && !b.ScrollLeft? && !b.ScrollRight?
    ensures a == b
  {
  }
}
