/** Reading length-prefixed array elements, one at a time or all at once. */
module ArrayReader {
  import opened Utf8
  import opened Sequences
  import opened Wrappers

  type Text = seq<Byte>

  datatype Kind = I32 | I64 | Str

  datatype Value = Number(n: int) | Chars(text: Text)

  datatype Error =
    | ShortLength(actual: nat)
    | NullElement
    | NegativeLength(length: int)
    | ShortElement(actual: nat, required: nat)
    | Width(kind: Kind, actual: nat)
    | NotUtf8(valid: nat)
    | Trailing(actual: nat)

  // ---- big-endian numbers ----

  function Pow256(n: nat): nat
  {
    if n == 0 then 1 else 256 * Pow256(n - 1)
  }

  function Unsigned(s: Text): nat
  {
    if s == [] then 0 else 256 * Unsigned(s[..|s| - 1]) + s[|s| - 1]
  }

  /** Two's complement of the given width in bytes. */
  function Signed(s: Text): int
  {
    var v := Unsigned(s);
    if s != [] && s[0] >= 128 then v - Pow256(|s|) else v
  }

  function BigEndian(v: nat, width: nat): (r: Text)
    ensures |r| == width
  {
    if width == 0 then [] else BigEndian(v / 256, width - 1) + [v % 256]
  }

  lemma {:induction false} UnsignedBound(s: Text)
    ensures Unsigned(s) < Pow256(|s|)
    decreases |s|
  {
    if s != [] {
      UnsignedBound(s[..|s| - 1]);
    }
  }

  lemma {:induction false} BigEndianReads(v: nat, width: nat)
    requires v < Pow256(width)
    ensures Unsigned(BigEndian(v, width)) == v
    decreases width
  {
    if width > 0 {
      var s := BigEndian(v, width);
      BigEndianReads(v / 256, width - 1);
      assert s[..|s| - 1] == BigEndian(v / 256, width - 1);
    }
  }

  lemma LastByte(high: nat, low: nat)
    requires low < 256
    ensures (256 * high + low) / 256 == high && (256 * high + low) % 256 == low
  {
  }

  lemma {:induction false} UnsignedWrites(s: Text)
    ensures BigEndian(Unsigned(s), |s|) == s
    decreases |s|
  {
    if s != [] {
      var init, low := s[..|s| - 1], s[|s| - 1];
      UnsignedWrites(init);
      LastByte(Unsigned(init), low);
      assert BigEndian(Unsigned(s), |s|) == BigEndian(Unsigned(init), |init|) + [low];
      assert s == init + [low];
    }
  }

  /** The top byte decides the sign. */
  lemma {:induction false} TopByte(s: Text)
    requires s != []
    ensures Unsigned(s) >= 128 * Pow256(|s| - 1) <==> s[0] >= 128
    decreases |s|
  {
    if |s| == 1 {
      assert s[..0] == [];
    } else {
      var init := s[..|s| - 1];
      TopByte(init);
      UnsignedBound(init);
    }
  }

  function Wrapped(n: int, width: nat): int
  {
    if n < 0 then n + Pow256(width) else n
  }

  predicate InRange(n: int, width: nat)
  {
    width > 0 && -128 * Pow256(width - 1) <= n < 128 * Pow256(width - 1)
  }

  lemma SignedReads(n: int, width: nat)
    requires InRange(n, width)
    ensures 0 <= Wrapped(n, width) < Pow256(width) && Signed(BigEndian(Wrapped(n, width), width)) == n
  {
    var s := BigEndian(Wrapped(n, width), width);
    BigEndianReads(Wrapped(n, width), width);
    TopByte(s);
  }

  lemma SignedWraps(s: Text)
    requires s != []
    ensures InRange(Signed(s), |s|) && Wrapped(Signed(s), |s|) == Unsigned(s)
  {
    var p := Pow256(|s| - 1);
    UnsignedBound(s);
    TopByte(s);
    assert Pow256(|s|) == 256 * p;
    assert Signed(s) == if s[0] >= 128 then Unsigned(s) - 256 * p else Unsigned(s);
  }

  lemma SignedWrites(s: Text)
    requires s != []
    ensures InRange(Signed(s), |s|) && 0 <= Wrapped(Signed(s), |s|) && BigEndian(Wrapped(Signed(s), |s|), |s|) == s
  {
    SignedWraps(s);
    UnsignedWrites(s);
  }

  // ---- one element ----

  function WidthOf(kind: Kind): nat
  {
    if kind.I32? then 4 else 8
  }

  const I32_MAX: nat := 0x7fff_ffff

  /** Splits one element off: a length in four bytes, then that many bytes. */
  function Element(bytes: Text): (r: Result<(Text, Text), Error>)
    ensures r.Ok? ==> |r.value.1| < |bytes|
  {
    if |bytes| < 4 then Err(ShortLength(|bytes|))
    else
      var len, tail := Signed(bytes[..4]), bytes[4..];
      if len == -1 then Err(NullElement)
      else if len < 0 then Err(NegativeLength(len))
      else if len > |tail| then Err(ShortElement(|tail|, len))
      else Ok((tail[..len], tail[len..]))
  }

  function Read(kind: Kind, bytes: Text): (r: Result<(Value, Text), Error>)
    ensures r.Ok? ==> |r.value.1| < |bytes|
  {
    var (head, rest) :- Element(bytes);
    match kind
    case Str =>
      if IsUtf8(head) then Ok((Chars(head), rest)) else Err(NotUtf8(ValidUpTo(head)))
    case _ =>
      if |head| == WidthOf(kind) then Ok((Number(Signed(head)), rest)) else Err(Width(kind, |head|))
  }

  /** Values that an array of this kind can hold. */
  predicate Holds(kind: Kind, v: Value)
  {
    match kind
    case Str => v.Chars? && IsUtf8(v.text) && |v.text| <= I32_MAX
    case _ => v.Number? && InRange(v.n, WidthOf(kind))
  }

  function Payload(kind: Kind, v: Value): Text
    requires Holds(kind, v)
  {
    match v
    case Chars(text) => text
    case Number(n) =>
      SignedReads(n, WidthOf(kind));
      BigEndian(Wrapped(n, WidthOf(kind)), WidthOf(kind))
  }

  function Write(kind: Kind, v: Value): Text
    requires Holds(kind, v)
  {
    var payload := Payload(kind, v);
    Length(|payload|) + payload
  }

  /** The four bytes of a length. */
  function Length(n: nat): (r: Text)
    ensures |r| == 4
  {
    BigEndian(n, 4)
  }

  lemma LengthReads(n: nat)
    requires n <= I32_MAX
    ensures Signed(Length(n)) == n
  {
    assert 128 * Pow256(3) == I32_MAX + 1;
    SignedReads(n, 4);
  }

  lemma LengthWrites(s: Text)
    requires |s| == 4 && Signed(s) >= 0
    ensures Signed(s) <= I32_MAX && s == Length(Signed(s))
  {
    assert 128 * Pow256(3) == I32_MAX + 1;
    SignedWrites(s);
  }

  lemma ElementWritten(payload: Text, rest: Text)
    requires |payload| <= I32_MAX
    ensures Element(Length(|payload|) + payload + rest) == Ok((payload, rest))
  {
    var bytes := Length(|payload|) + payload + rest;
    LengthReads(|payload|);
    assert bytes[..4] == Length(|payload|);
    assert bytes[4..] == payload + rest;
  }

  lemma ReadWritten(kind: Kind, v: Value, rest: Text)
    requires Holds(kind, v)
    ensures Read(kind, Write(kind, v) + rest) == Ok((v, rest))
  {
    ElementWritten(Payload(kind, v), rest);
    if v.Number? {
      SignedReads(v.n, WidthOf(kind));
    }
  }

  lemma ElementSplits(bytes: Text)
    requires Element(bytes).Ok?
    ensures var (head, rest) := Element(bytes).value;
            |head| <= I32_MAX && bytes == Length(|head|) + head + rest
  {
    LengthWrites(bytes[..4]);
    var (head, rest) := Element(bytes).value;
    assert bytes[4..] == head + rest;
    assert bytes == bytes[..4] + bytes[4..];
  }

  /** Whatever is read was written that way. */
  lemma ReadIsWritten(kind: Kind, bytes: Text)
    requires Read(kind, bytes).Ok?
    ensures var (v, rest) := Read(kind, bytes).value;
            Holds(kind, v) && bytes == Write(kind, v) + rest
  {
    ElementSplits(bytes);
    var head := Element(bytes).value.0;
    if !kind.Str? {
      SignedWrites(head);
    }
  }

  /** A big-endian number of four bytes, written out. */
  lemma FourBytes(a: Byte, b: Byte, c: Byte, d: Byte)
    ensures Unsigned([a, b, c, d]) == 0x100_0000 * a + 0x1_0000 * b + 0x100 * c + d
  {
    assert [a][..0] == [] && Unsigned([a]) == a;
    assert [a, b][..1] == [a] && Unsigned([a, b]) == 256 * Unsigned([a]) + b;
    assert [a, b, c][..2] == [a, b] && Unsigned([a, b, c]) == 256 * Unsigned([a, b]) + c;
    assert [a, b, c, d][..3] == [a, b, c] && Unsigned([a, b, c, d]) == 256 * Unsigned([a, b, c]) + d;
  }

  /** The bytes of a signed 32-bit number. */
  function I32Bytes(n: int): (r: Text)
    requires InRange(n, 4)
    ensures |r| == 4
  {
    SignedReads(n, 4);
    BigEndian(Wrapped(n, 4), 4)
  }

  /** Which numbers an array holds. */
  lemma NumbersHeld(n: int)
    ensures Holds(I32, Number(n)) <==> -0x8000_0000 <= n <= 0x7fff_ffff
    ensures Holds(I64, Number(n)) <==> -0x8000_0000_0000_0000 <= n <= 0x7fff_ffff_ffff_ffff
  {
    assert Pow256(3) == 0x100_0000 && Pow256(7) == 0x100_0000_0000_0000;
  }

  /** What is wrong with an element, by the length it claims and what follows; anything else is read. */
  lemma ReadFails(kind: Kind, n: int, tail: Text)
    requires InRange(n, 4)
    ensures var read := Read(kind, I32Bytes(n) + tail);
            && (n == -1 ==> read == Err(NullElement))
            && (n < -1 ==> read == Err(NegativeLength(n)))
            && (n > |tail| ==> read == Err(ShortElement(|tail|, n)))
            && (0 <= n <= |tail| && kind.Str? && !IsUtf8(tail[..n]) ==> read == Err(NotUtf8(ValidUpTo(tail[..n]))))
            && (0 <= n <= |tail| && kind.I32? && n != 4 ==> read == Err(Width(I32, n)))
            && (0 <= n <= |tail| && kind.I64? && n != 8 ==> read == Err(Width(I64, n)))
            && (0 <= n <= |tail| && (if kind.Str? then IsUtf8(tail[..n]) else n == if kind.I32? then 4 else 8) ==>
                  read.Ok? && read.value.1 == tail[n..])
  {
    SignedReads(n, 4);
    var bytes := I32Bytes(n) + tail;
    assert bytes[..4] == I32Bytes(n) && bytes[4..] == tail;
  }

  /** Without four bytes there is not even a length. */
  lemma ReadNeedsLength(kind: Kind, bytes: Text)
    ensures |bytes| < 4 <==> Read(kind, bytes) == Err(ShortLength(|bytes|))
  {
  }

  // ---- all elements ----

  predicate AllHold(kind: Kind, values: seq<Value>)
  {
    forall i :: 0 <= i < |values| ==> Holds(kind, values[i])
  }

  function WriteAll(kind: Kind, values: seq<Value>): Text
    requires AllHold(kind, values)
  {
    if values == [] then [] else Write(kind, values[0]) + WriteAll(kind, values[1..])
  }

  /** The values of an array that says it has `count`, and the first error. */
  function Decode(kind: Kind, bytes: Text, count: nat): (r: (seq<Value>, Option<Error>))
    ensures |r.0| <= count && (r.1.None? ==> |r.0| == count)
  {
    if count == 0 then ([], if bytes == [] then None else Some(Trailing(|bytes|)))
    else
      match Read(kind, bytes)
      case Err(error) => ([], Some(error))
      case Ok((v, rest)) =>
        var more := Decode(kind, rest, count - 1);
        ([v] + more.0, more.1)
  }

  lemma DecodeNext(kind: Kind, bytes: Text, count: nat, v: Value, rest: Text)
    requires count > 0 && Read(kind, bytes) == Ok((v, rest))
    ensures Decode(kind, bytes, count) == ([v] + Decode(kind, rest, count - 1).0, Decode(kind, rest, count - 1).1)
  {
  }

  /** Reading inverts writing. */
  lemma {:induction false} DecodeWritten(kind: Kind, values: seq<Value>)
    requires AllHold(kind, values)
    ensures Decode(kind, WriteAll(kind, values), |values|) == (values, None)
    decreases |values|
  {
    if values != [] {
      var rest := WriteAll(kind, values[1..]);
      ReadWritten(kind, values[0], rest);
      DecodeWritten(kind, values[1..]);
      DecodeNext(kind, WriteAll(kind, values), |values|, values[0], rest);
      assert values == [values[0]] + values[1..];
    }
  }

  /** Values as they are written, and more bytes. */
  function WriteThen(kind: Kind, values: seq<Value>, tail: Text): Text
    requires AllHold(kind, values)
  {
    if values == [] then tail else Write(kind, values[0]) + WriteThen(kind, values[1..], tail)
  }

  lemma {:induction false} WriteThenIsText(kind: Kind, values: seq<Value>, tail: Text)
    requires AllHold(kind, values)
    ensures WriteThen(kind, values, tail) == WriteAll(kind, values) + tail
    decreases |values|
  {
    if values == [] {
      NoMore(tail);
    } else {
      WriteThenIsText(kind, values[1..], tail);
      Assoc(Write(kind, values[0]), WriteAll(kind, values[1..]), tail);
    }
  }

  lemma FirstAndRest(values: seq<Value>, left: seq<Value>)
    requires values != []
    ensures [values[0]] + (values[1..] + left) == values + left
  {
  }

  /** What was written well is read, whatever follows. */
  lemma {:induction false} DecodeAfter(kind: Kind, values: seq<Value>, tail: Text, n: nat)
    requires AllHold(kind, values)
    ensures Decode(kind, WriteThen(kind, values, tail), |values| + n)
         == (values + Decode(kind, tail, n).0, Decode(kind, tail, n).1)
    decreases |values|
  {
    if values == [] {
      NoMore(Decode(kind, tail, n).0);
    } else {
      var rest := WriteThen(kind, values[1..], tail);
      ReadWritten(kind, values[0], rest);
      DecodeAfter(kind, values[1..], tail, n);
      DecodeNext(kind, WriteThen(kind, values, tail), |values| + n, values[0], rest);
      FirstAndRest(values, Decode(kind, tail, n).0);
    }
  }

  /** The first fault is reported; bytes that are left over come last. */
  lemma DecodeStops(kind: Kind, tail: Text, n: nat)
    ensures n == 0 ==> Decode(kind, tail, n) == ([], if tail == [] then None else Some(Trailing(|tail|)))
    ensures n > 0 && Read(kind, tail).Err? ==> Decode(kind, tail, n) == ([], Some(Read(kind, tail).error))
  {
  }

  /** And nothing else is accepted: without an error the bytes are exactly what writing gives. */
  lemma {:induction false} DecodedIsWritten(kind: Kind, bytes: Text, count: nat)
    requires Decode(kind, bytes, count).1.None?
    ensures var values := Decode(kind, bytes, count).0;
            AllHold(kind, values) && bytes == WriteAll(kind, values)
    decreases count
  {
    if count > 0 {
      var (v, rest) := Read(kind, bytes).value;
      var more := Decode(kind, rest, count - 1);
      DecodeNext(kind, bytes, count, v, rest);
      DecodedIsWritten(kind, rest, count - 1);
      OneMoreWritten(kind, bytes, v, rest, more.0);
      assert Decode(kind, bytes, count).0 == [v] + more.0;
    } else {
      assert WriteAll(kind, []) == [];
    }
  }

  lemma OneMoreWritten(kind: Kind, bytes: Text, v: Value, rest: Text, more: seq<Value>)
    requires Read(kind, bytes) == Ok((v, rest)) && AllHold(kind, more) && rest == WriteAll(kind, more)
    ensures AllHold(kind, [v] + more) && bytes == WriteAll(kind, [v] + more)
  {
    ReadIsWritten(kind, bytes);
    WriteMore(kind, v, more);
  }

  lemma WriteMore(kind: Kind, v: Value, more: seq<Value>)
    requires Holds(kind, v) && AllHold(kind, more)
    ensures AllHold(kind, [v] + more)
    ensures WriteAll(kind, [v] + more) == Write(kind, v) + WriteAll(kind, more)
  {
    assert ([v] + more)[1..] == more;
  }

  /** Values collected so far, and what is still to be read, make up the whole. */
  ghost predicate Partway(kind: Kind, values: seq<Value>, cursor: Text, left: nat, all: (seq<Value>, Option<Error>))
  {
    var more := Decode(kind, cursor, left);
    values + more.0 == all.0 && more.1 == all.1
  }

  lemma PartwayNext(kind: Kind, values: seq<Value>, cursor: Text, left: nat, all: (seq<Value>, Option<Error>))
    requires left > 0 && Partway(kind, values, cursor, left, all)
    ensures Read(kind, cursor).Err? ==> all == (values, Some(Read(kind, cursor).error))
    ensures Read(kind, cursor).Ok? ==>
      var (v, rest) := Read(kind, cursor).value;
      Partway(kind, values + [v], rest, left - 1, all)
  {
    if Read(kind, cursor).Ok? {
      var (v, rest) := Read(kind, cursor).value;
      DecodeNext(kind, cursor, left, v, rest);
      Assoc(values, [v], Decode(kind, rest, left - 1).0);
    } else {
      assert values + [] == values;
    }
  }

  lemma PartwayEnds(kind: Kind, values: seq<Value>, cursor: Text, all: (seq<Value>, Option<Error>))
    requires Partway(kind, values, cursor, 0, all)
    ensures all == (values, if cursor == [] then None else Some(Trailing(|cursor|)))
  {
    assert values + [] == values;
  }

  lemma PartwayStarts(kind: Kind, bytes: Text, len: nat)
    ensures Partway(kind, [], bytes, len, Decode(kind, bytes, len))
  {
    assert [] + Decode(kind, bytes, len).0 == Decode(kind, bytes, len).0;
  }

  /** Collects every value, or stops at the first error; trailing bytes come last. */
  method TryCollect(kind: Kind, bytes: Text, len: nat) returns (r: Result<seq<Value>, Error>)
    ensures var decoded := Decode(kind, bytes, len);
            r == if decoded.1.None? then Ok(decoded.0) else Err(decoded.1.value)
  {
    var left: nat, cursor := len, bytes;
    var values: seq<Value> := [];
    ghost var all := Decode(kind, bytes, len);
    PartwayStarts(kind, bytes, len);
    while left > 0
      invariant Partway(kind, values, cursor, left, all)
      decreases left
    {
      var read := Read(kind, cursor);
      PartwayNext(kind, values, cursor, left, all);
      if read.Err? {
        return Err(read.error);
      }
      values := values + [read.value.0];
      cursor := read.value.1;
      left := left - 1;
    }
    PartwayEnds(kind, values, cursor, all);
    if cursor != [] {
      return Err(Trailing(|cursor|));
    }
    r := Ok(values);
  }

  // ---- one at a time ----

  datatype State = Reading(bytes: Text, left: nat) | Done

  function Left(state: State): nat
  {
    if state.Done? then 0 else state.left + 1
  }

  const USIZE_MAX: nat := 0xffff_ffff_ffff_ffff

  class Iter {
    const kind: Kind
    var state: State

    /** Everything still to come. */
    ghost function Rest(): seq<Result<Value, Error>>
      reads this
    {
      if state.Done? then [] else Stream(kind, state.bytes, state.left)
    }

    constructor (kind: Kind, bytes: Text, len: nat)
      ensures this.kind == kind && state == Reading(bytes, len)
    {
      this.kind, state := kind, Reading(bytes, len);
    }

    /** Gives exactly the next thing to come; after an error nothing comes. */
    method Next() returns (r: Option<Result<Value, Error>>)
      modifies this
      ensures r.None? <==> old(Rest()) == []
      ensures r.None? ==> Rest() == []
      ensures r.Some? ==> old(Rest()) == [r.value] + Rest()
      ensures r.Some? && r.value.Err? ==> state.Done?
      ensures r.Some? ==> Left(state) < Left(old(state))
    {
      if state.Done? {
        return None;
      }
      if state.left == 0 {
        r := if state.bytes == [] then None else Some(Err(Trailing(|state.bytes|)));
        state := Done;
        return;
      }
      var left := state.left - 1;
      var read := Read(kind, state.bytes);
      match read
      case Ok((v, rest)) =>
        state := Reading(rest, left);
        r := Some(Ok(v));
      case Err(error) =>
        state := Done;
        r := Some(Err(error));
    }

    /** The bounds hold at every step: at most one item more than the elements left, for an error. */
    method SizeHint() returns (low: nat, high: Option<nat>)
      ensures low <= |Rest()| && (high.Some? ==> |Rest()| <= high.value)
      ensures high.None? ==> state.Reading? && state.left >= USIZE_MAX
    {
      low := 0;
      high := if state.Done? then Some(0) else if state.left + 1 <= USIZE_MAX then Some(state.left + 1) else None;
    }
  }

  /** What an iterator gives, one item after the other. */
  function Stream(kind: Kind, bytes: Text, count: nat): (r: seq<Result<Value, Error>>)
    ensures |r| <= count + 1
  {
    if count == 0 then (if bytes == [] then [] else [Err(Trailing(|bytes|))])
    else
      match Read(kind, bytes)
      case Err(error) => [Err(error)]
      case Ok((v, rest)) => [Ok(v)] + Stream(kind, rest, count - 1)
  }

  /** The values, then the error if there is one. */
  function Items(values: seq<Value>, error: Option<Error>): seq<Result<Value, Error>>
  {
    if values == [] then (if error.Some? then [Err(error.value)] else [])
    else [Ok(values[0])] + Items(values[1..], error)
  }

  lemma {:induction false} StreamIsItems(kind: Kind, bytes: Text, count: nat)
    ensures Stream(kind, bytes, count) == Items(Decode(kind, bytes, count).0, Decode(kind, bytes, count).1)
    decreases count
  {
    if count > 0 && Read(kind, bytes).Ok? {
      var (v, rest) := Read(kind, bytes).value;
      StreamIsItems(kind, rest, count - 1);
      var more := Decode(kind, rest, count - 1).0;
      assert ([v] + more)[1..] == more;
    }
  }

  /** Run to its end the iterator gives the same values, or the same first error, as collecting. */
  method RunIter(kind: Kind, bytes: Text, len: nat) returns (items: seq<Result<Value, Error>>)
    ensures items == Items(Decode(kind, bytes, len).0, Decode(kind, bytes, len).1)
  {
    StreamIsItems(kind, bytes, len);
    items := RunStream(kind, bytes, len);
  }

  method RunStream(kind: Kind, bytes: Text, len: nat) returns (items: seq<Result<Value, Error>>)
    ensures items == Stream(kind, bytes, len)
  {
    var iter := new Iter(kind, bytes, len);
    items := [];
    ghost var all := iter.Rest();
    var more := true;
    while more
      invariant fresh(iter)
      invariant items + iter.Rest() == all
      invariant !more ==> iter.Rest() == []
      decreases more, Left(iter.state)
    {
      ghost var before := iter.Rest();
      var next := iter.Next();
      if next.None? {
        more := false;
      } else {
        Assoc(items, [next.value], iter.Rest());
        items := items + [next.value];
      }
    }
    assert items + [] == items;
  }
}
