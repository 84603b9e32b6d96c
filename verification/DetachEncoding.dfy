/** Terminal encodings of a Ctrl-letter key that count as the raw control byte of a one-byte detach chord. */
module DetachEncoding {
  import opened Bytes

  datatype Encoded = Encoded(normalized: Byte, consumed: nat)

  /** The chord's control byte when it is one Ctrl-letter. */
  function CtrlLetter(chord: seq<Byte>): Option<Byte> {
    if |chord| == 1 && 0x01 <= chord[0] <= 0x1a then Some(chord[0]) else None
  }

  /** The position of the first `b`. */
  function IndexOf(s: seq<Byte>, b: Byte): (i: Option<nat>)
    ensures i.Some? ==> i.value < |s| && s[i.value] == b
  {
    if s == [] then None
    else if s[0] == b then Some(0)
    else
      match IndexOf(s[1..], b)
      case None => None
      case Some(j) => Some(j + 1)
  }

  /** The value of a digit string; `None` on any other byte. */
  function Digits(s: seq<Byte>): Option<nat> {
    if s == [] then Some(0)
    else
      match Digits(s[..|s| - 1])
      case None => None
      case Some(v) => var d := s[|s| - 1]; if 0x30 <= d <= 0x39 then Some(v * 10 + (d - 0x30)) else None
  }

  /** An unsigned number as the standard library reads it: an optional `+`, at least one digit, no overflow. */
  function ParseUnsigned(s: seq<Byte>, max: nat): Option<nat> {
    var digits := if s != [] && s[0] == 0x2B then s[1..] else s;
    if digits == [] then None
    else
      match Digits(digits)
      case None => None
      case Some(v) => if v <= max then Some(v) else None
  }

  /** The part of a parameter before its first `:`, unless that is empty. */
  function MainParam(field: seq<Byte>): Option<seq<Byte>> {
    var main := Split(field, 0x3A)[0];
    if main == [] then None else Some(main)
  }

  function MainNumber(field: seq<Byte>, max: nat): Option<nat> {
    match MainParam(field)
    case None => None
    case Some(main) => ParseUnsigned(main, max)
  }

  /** Modifiers are sent as one more than their bit mask; Control is bit 2. */
  predicate HasControl(mask: nat) { mask > 0 && (mask - 1) / 4 % 2 == 1 }

  predicate LetterOrRaw(code: nat, raw: Byte) {
    code == 0x61 + raw - 1 || code == 0x41 + raw - 1 || code == raw
  }

  predicate CsiUMatches(code: nat, mask: Option<nat>, raw: Byte) {
    code == raw || (mask.Some? && HasControl(mask.value) && LetterOrRaw(code, raw))
  }

  predicate StartsCsi(s: seq<Byte>) { 2 <= |s| && s[0] == ESC && s[1] == 0x5B }

  /** `ESC [ key ; modifiers u` */
  function ParseCsiU(s: seq<Byte>, raw: Byte): (r: Option<Encoded>)
    ensures r.Some? ==> 2 <= r.value.consumed <= |s| && r.value.normalized == raw && s[0] == ESC
  {
    if !StartsCsi(s) then None
    else
      match IndexOf(s, 0x75)
      case None => None
      case Some(end) =>
        var fields := Split(s[2..end], 0x3B);
        match MainNumber(fields[0], 0xFFFF_FFFF)
        case None => None
        case Some(code) =>
          var mask := if |fields| > 1 then MainNumber(fields[1], 0xFFFF) else None;
          if CsiUMatches(code, mask, raw) then Some(Encoded(raw, end + 1)) else None
  }

  /** `ESC [ 27 ; modifiers ; key ~` */
  function ParseModifyOtherKeys(s: seq<Byte>, raw: Byte): (r: Option<Encoded>)
    ensures r.Some? ==> 2 <= r.value.consumed <= |s| && r.value.normalized == raw && s[0] == ESC
  {
    if !StartsCsi(s) then None
    else
      match IndexOf(s, 0x7E)
      case None => None
      case Some(end) =>
        var fields := Split(s[2..end], 0x3B);
        if MainNumber(fields[0], 0xFFFF_FFFF) != Some(27) || |fields| != 3 then None
        else
          var mask, code := MainNumber(fields[1], 0xFFFF), MainNumber(fields[2], 0xFFFF_FFFF);
          if mask.Some? && code.Some? && HasControl(mask.value) && LetterOrRaw(code.value, raw) then
            Some(Encoded(raw, end + 1))
          else None
  }

  function ParseCtrlDetach(s: seq<Byte>, chord: seq<Byte>): (r: Option<Encoded>)
    ensures r.Some? ==> CtrlLetter(chord) == Some(r.value.normalized) && 2 <= r.value.consumed <= |s| && s[0] == ESC
  {
    match CtrlLetter(chord)
    case None => None
    case Some(raw) =>
      var first := ParseCsiU(s, raw);
      if first.Some? then first else ParseModifyOtherKeys(s, raw)
  }

  /** The first key of `s`, raw or encoded, and how many bytes it takes. */
  function NextKey(s: seq<Byte>, chord: seq<Byte>): (k: Encoded)
    requires s != []
    ensures 1 <= k.consumed <= |s|
    ensures k == Encoded(s[0], 1) || CtrlLetter(chord) == Some(k.normalized)
  {
    match ParseCtrlDetach(s, chord)
    case Some(matched) => matched
    case None => Encoded(s[0], 1)
  }

  /** Every complete encoding of the chord replaced by its raw byte. */
  function Normalize(s: seq<Byte>, chord: seq<Byte>): seq<Byte>
    decreases |s|
  {
    if s == [] then []
    else
      var key := NextKey(s, chord);
      [key.normalized] + Normalize(s[key.consumed..], chord)
  }

  /** `done` is the normal form of `bytes[..idx]` and the rest is still to come. */
  ghost predicate Normalizing(bytes: seq<Byte>, chord: seq<Byte>, done: seq<Byte>, idx: nat) {
    idx <= |bytes| && Normalize(bytes, chord) == done + Normalize(bytes[idx..], chord)
  }

  lemma NormalizingStep(bytes: seq<Byte>, chord: seq<Byte>, done: seq<Byte>, idx: nat, key: Encoded)
    requires Normalizing(bytes, chord, done, idx) && idx < |bytes| && key == NextKey(bytes[idx..], chord)
    ensures Normalizing(bytes, chord, done + [key.normalized], idx + key.consumed)
  {
    var rest := Normalize(bytes[idx..][key.consumed..], chord);
    assert Normalize(bytes[idx..], chord) == [key.normalized] + rest;
    assert bytes[idx..][key.consumed..] == bytes[idx + key.consumed..];
    assert done + ([key.normalized] + rest) == (done + [key.normalized]) + rest;
  }

  /** The next key at `idx`. */
  method ReadKey(bytes: seq<Byte>, chord: seq<Byte>, idx: nat) returns (key: Encoded)
    requires idx < |bytes|
    ensures key == NextKey(bytes[idx..], chord) && 1 <= key.consumed <= |bytes| - idx
  {
    key := NextKey(bytes[idx..], chord);
  }

  method NormalizeAttachDetachInput(bytes: seq<Byte>, chord: seq<Byte>) returns (normalized: seq<Byte>)
    ensures normalized == Normalize(bytes, chord)
  {
    hide NextKey;
    normalized := [];
    var idx := 0;
    assert bytes[0..] == bytes;
    while idx < |bytes|
      invariant Normalizing(bytes, chord, normalized, idx)
    {
      var key := ReadKey(bytes, chord, idx);
      NormalizingStep(bytes, chord, normalized, idx, key);
      normalized := normalized + [key.normalized];
      idx := idx + key.consumed;
    }
  }
}
