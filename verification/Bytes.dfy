/** Bytes, the option type and the sequence facts every other module shares. */
module Bytes {

  type Byte = b: int | 0 <= b < 256

  const ESC: Byte := 0x1b
  const BEL: Byte := 0x07
  const LF: Byte := 0x0a
  const CR: Byte := 0x0d

  datatype Option<+T> = None | Some(value: T)

  datatype Result<+T, +E> = Success(value: T) | Failure(error: E)

  /** The bytes of a run of frames, in order. */
  function Concat<T>(parts: seq<seq<T>>): seq<T> {
    if parts == [] then [] else parts[0] + Concat(parts[1..])
  }

  lemma ConcatSnoc<T>(parts: seq<seq<T>>, last: seq<T>)
    ensures Concat(parts + [last]) == Concat(parts) + last
  {
    if parts == [] {
      assert parts + [last] == [last];
      assert Concat([last]) == last + Concat<T>([]);
    } else {
      assert (parts + [last])[1..] == parts[1..] + [last];
      ConcatSnoc(parts[1..], last);
    }
  }

  lemma ConcatFew<T>(first: seq<T>, second: seq<T>)
    ensures Concat([first]) == first && Concat([first, second]) == first + second
  {
    assert Concat([first]) == first + Concat([first][1..]) && [first][1..] == [];
    assert Concat([second]) == second + Concat([second][1..]) && [second][1..] == [];
    assert [first, second][1..] == [second];
  }

  lemma ConcatAppend<T>(left: seq<seq<T>>, right: seq<seq<T>>)
    ensures Concat(left + right) == Concat(left) + Concat(right)
  {
    if left == [] {
      assert left + right == right;
    } else {
      assert (left + right)[1..] == left[1..] + right;
      ConcatAppend(left[1..], right);
    }
  }

  /** The fields of `s` between separators, as a slice's `split` yields them: one more than there are separators. */
  function Split(s: seq<Byte>, separator: Byte): (fields: seq<seq<Byte>>)
    ensures |fields| >= 1
  {
    if s == [] then [[]]
    else
      var rest := Split(s[1..], separator);
      if s[0] == separator then [[]] + rest else [[s[0]] + rest[0]] + rest[1..]
  }

  lemma {:induction false} NothingToSplit(s: seq<Byte>, separator: Byte)
    requires separator !in s
    ensures Split(s, separator) == [s]
    decreases |s|
  {
    if s != [] {
      NothingToSplit(s[1..], separator);
      assert [s[0]] + s[1..] == s;
    }
  }

  lemma Regroup<T>(a: seq<T>, b: seq<T>, c: seq<T>)
    ensures (a + b) + c == a + (b + c)
  {
  }

  datatype Size = Size(rows: nat, cols: nat)

  function Max(a: nat, b: nat): nat { if a < b then b else a }

  function Min(a: nat, b: nat): nat { if a < b then a else b }
}
