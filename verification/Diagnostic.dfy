/**
 PostgreSQL diagnostics ("Error and Notice Message Fields" of the frontend/backend protocol): a
 parser that checks everything, and a replay of the same bytes that checks nothing.
 */
module Diagnostic {
  import opened IntegerText
  import opened Utf8
  import opened Sequences
  import opened Wrappers

  type Text = seq<Byte>

  newtype U32 = x: int | 0 <= x <= 0xffff_ffff

  const U32_MAX: nat := 0xffff_ffff

  // ---- the format ----

  datatype Field = Field(kind: Byte, value: Text)

  /** One field as it is sent: its kind, its value, and a zero byte. */
  function One(f: Field): Text
  {
    [f.kind] + f.value + [0]
  }

  function Part(fields: seq<Field>): Text
  {
    if fields == [] then [] else One(fields[0]) + Part(fields[1..])
  }

  function Encode(fields: seq<Field>): Text
  {
    Part(fields) + [0]
  }

  function Code(c: char): Byte
    requires c < 128 as char
  {
    c as int
  }

  predicate Numeric(kind: Byte)
  {
    kind == Code('P') || kind == Code('p') || kind == Code('L')
  }

  /** A position or line: digits that make a nonzero 32-bit number. */
  predicate NumberText(v: Text)
  {
    v != [] && Fits(v, U32_MAX) && Value(v) > 0
  }

  predicate NoZero(v: Text)
  {
    forall i :: 0 <= i < |v| ==> v[i] != 0
  }

  /** A field that can be framed. */
  predicate Framed(f: Field)
  {
    f.kind != 0 && NoZero(f.value)
  }

  predicate Sound(f: Field)
  {
    Framed(f) && IsUtf8(f.value) && (Numeric(f.kind) ==> NumberText(f.value))
  }

  function RecognizedBit(kind: Byte): Option<nat>
  {
    if kind == Code('S') then Some(0)
    else if kind == Code('V') then Some(1)
    else if kind == Code('C') then Some(2)
    else if kind == Code('M') then Some(3)
    else if kind == Code('D') then Some(4)
    else if kind == Code('H') then Some(5)
    else if kind == Code('P') then Some(6)
    else if kind == Code('p') then Some(7)
    else if kind == Code('q') then Some(8)
    else if kind == Code('W') then Some(9)
    else if kind == Code('s') then Some(10)
    else if kind == Code('t') then Some(11)
    else if kind == Code('c') then Some(12)
    else if kind == Code('d') then Some(13)
    else if kind == Code('n') then Some(14)
    else if kind == Code('F') then Some(15)
    else if kind == Code('L') then Some(16)
    else if kind == Code('R') then Some(17)
    else None
  }

  lemma BitsDiffer(a: Byte, b: Byte)
    ensures RecognizedBit(a).Some? ==> RecognizedBit(a).value < 18
    ensures RecognizedBit(a).Some? && RecognizedBit(a) == RecognizedBit(b) ==> a == b
  {
  }

  const KINDS := "SVCMDHPpqWstcdnFLR"

  /** The recognized kinds, in the order of their bits. */
  lemma RecognizedKinds(kind: Byte, bit: nat)
    ensures bit < |KINDS| ==> (RecognizedBit(kind) == Some(bit) <==> kind == KINDS[bit] as int)
    ensures bit >= |KINDS| ==> RecognizedBit(kind) != Some(bit)
  {
    assert KINDS == ['S', 'V', 'C', 'M', 'D', 'H', 'P', 'p', 'q', 'W', 's', 't', 'c', 'd', 'n', 'F', 'L', 'R'];
  }

  predicate Repeats(fields: seq<Field>, kind: Byte)
  {
    RecognizedBit(kind).Some? && exists i :: 0 <= i < |fields| && fields[i].kind == kind
  }

  /** Every field is sound and no recognized kind comes twice. */
  predicate Clean(fields: seq<Field>)
  {
    && (forall i :: 0 <= i < |fields| ==> Sound(fields[i]))
    && (forall i :: 0 <= i < |fields| ==> !Repeats(fields[..i], fields[i].kind))
  }

  /** The value of a kind. */
  function Lookup(fields: seq<Field>, kind: Byte): Option<Text>
  {
    if fields == [] then None
    else
      var last := fields[|fields| - 1];
      if last.kind == kind then Some(last.value) else Lookup(fields[..|fields| - 1], kind)
  }

  predicate IsSqlstate(v: Text)
  {
    |v| == 5 && forall i :: 0 <= i < |v| ==> SqlstateByte(v[i])
  }

  predicate SqlstateByte(b: Byte)
  {
    'A' as int <= b <= 'Z' as int || IsDigit(b)
  }

  /** What a code may be made of. */
  lemma SqlstateBytes(b: Byte)
    ensures SqlstateByte(b) <==> b < 128 && b as char in "0123456789ABCDEFGHIJKLMNOPQRSTUVWXYZ"
  {
    var all := "0123456789ABCDEFGHIJKLMNOPQRSTUVWXYZ";
    assert forall i :: 0 <= i < 10 ==> all[i] as int == '0' as int + i;
    assert forall i :: 10 <= i < 36 ==> all[i] as int == 'A' as int + i - 10;
    if SqlstateByte(b) {
      assert b as char == all[if IsDigit(b) then b - '0' as int else b - 'A' as int + 10];
    }
  }

  /** The severity: not localized if that is given. */
  function Severity(fields: seq<Field>): Option<Text>
  {
    if Lookup(fields, Code('V')).Some? then Lookup(fields, Code('V')) else Lookup(fields, Code('S'))
  }

  predicate Complete(fields: seq<Field>)
  {
    var code := Lookup(fields, Code('C'));
    && Severity(fields).Some? && Severity(fields).value != []
    && code.Some? && IsSqlstate(code.value)
    && Lookup(fields, Code('M')).Some?
  }

  ghost predicate Admits(payload: Text, fields: seq<Field>)
  {
    payload == Encode(fields) && Clean(fields) && Complete(fields)
  }

  // ---- what a diagnostic says ----

  datatype Context = Context(
    detail: Option<Text>, hint: Option<Text>, position: Option<U32>, innerPosition: Option<U32>,
    innerQuery: Option<Text>, location: Option<Text>, schema: Option<Text>, table: Option<Text>,
    column: Option<Text>, dataType: Option<Text>, constraint: Option<Text>, file: Option<Text>,
    line: Option<U32>, routine: Option<Text>)

  datatype Fields = Fields(severity: Text, code: Text, message: Text, context: Context)

  const NO_CONTEXT: Context := Context(None, None, None, None, None, None, None, None, None, None, None, None, None, None)

  function Number(v: Option<Text>): Option<U32>
  {
    if v.Some? && NumberText(v.value) then Some(Value(v.value) as U32) else None
  }

  function ContextOf(fields: seq<Field>): Context
  {
    Context(
      Lookup(fields, Code('D')), Lookup(fields, Code('H')),
      Number(Lookup(fields, Code('P'))), Number(Lookup(fields, Code('p'))),
      Lookup(fields, Code('q')), Lookup(fields, Code('W')), Lookup(fields, Code('s')), Lookup(fields, Code('t')),
      Lookup(fields, Code('c')), Lookup(fields, Code('d')), Lookup(fields, Code('n')), Lookup(fields, Code('F')),
      Number(Lookup(fields, Code('L'))), Lookup(fields, Code('R')))
  }

  function View(fields: seq<Field>): Fields
    requires Complete(fields)
  {
    Fields(
      Severity(fields).value, Lookup(fields, Code('C')).value, Lookup(fields, Code('M')).value, ContextOf(fields))
  }

  lemma LookupNext(fields: seq<Field>, f: Field, kind: Byte)
    ensures Lookup(fields + [f], kind) == if f.kind == kind then Some(f.value) else Lookup(fields, kind)
  {
    assert (fields + [f])[..|fields|] == fields;
  }

  lemma {:induction false} LookupIs(fields: seq<Field>, kind: Byte, i: nat)
    requires Clean(fields) && RecognizedBit(kind).Some? && i < |fields| && fields[i].kind == kind
    ensures Lookup(fields, kind) == Some(fields[i].value)
    decreases |fields|
  {
    var n := |fields| - 1;
    if i < n {
      assert !Repeats(fields[..n], fields[n].kind);
      assert fields[..n][i] == fields[i];
      assert forall k :: 0 <= k < n ==> fields[..n][..k] == fields[..k];
      LookupIs(fields[..n], kind, i);
    }
  }

  lemma {:induction false} LookupNone(fields: seq<Field>, kind: Byte)
    ensures Lookup(fields, kind).None? <==> forall i :: 0 <= i < |fields| ==> fields[i].kind != kind
    decreases |fields|
  {
    if fields != [] {
      LookupNone(fields[..|fields| - 1], kind);
    }
  }

  /** What the field of this kind says, in the words of the sender. */
  function Said(c: Context, kind: Byte): Option<Text>
  {
    if kind == Code('D') then c.detail
    else if kind == Code('H') then c.hint
    else if kind == Code('q') then c.innerQuery
    else if kind == Code('W') then c.location
    else if kind == Code('s') then c.schema
    else if kind == Code('t') then c.table
    else if kind == Code('c') then c.column
    else if kind == Code('d') then c.dataType
    else if kind == Code('n') then c.constraint
    else if kind == Code('F') then c.file
    else if kind == Code('R') then c.routine
    else None
  }

  /** Nothing that was sent is lost: every recognized field is where it belongs, and V wins over S. */
  lemma EveryFieldIsSaid(fields: seq<Field>, i: nat)
    requires Clean(fields) && Complete(fields) && i < |fields| && RecognizedBit(fields[i].kind).Some?
    ensures var kind, value, view := fields[i].kind, fields[i].value, View(fields);
            && (kind == Code('V') ==> view.severity == value)
            && (kind == Code('S') && Lookup(fields, Code('V')).None? ==> view.severity == value)
            && (kind == Code('C') ==> view.code == value)
            && (kind == Code('M') ==> view.message == value)
            && (kind == Code('P') ==> view.context.position == Some(Value(value) as U32))
            && (kind == Code('p') ==> view.context.innerPosition == Some(Value(value) as U32))
            && (kind == Code('L') ==> view.context.line == Some(Value(value) as U32))
            && (!Numeric(kind) && !Heading(kind) ==> Said(view.context, kind) == Some(value))
  {
    LookupIs(fields, fields[i].kind, i);
    if Numeric(fields[i].kind) {
      assert Sound(fields[i]);
    } else {
      SaidIsLookup(fields, fields[i].kind);
    }
  }

  /** Severity, code and message are no part of the context. */
  predicate Heading(kind: Byte)
  {
    kind == Code('S') || kind == Code('V') || kind == Code('C') || kind == Code('M')
  }

  lemma SaidIsLookup(fields: seq<Field>, kind: Byte)
    ensures RecognizedBit(kind).Some? && !Numeric(kind) && !Heading(kind) ==>
      Said(ContextOf(fields), kind) == Lookup(fields, kind)
    ensures RecognizedBit(kind).None? || Numeric(kind) || Heading(kind) ==> Said(ContextOf(fields), kind).None?
  {
  }

  /** And nothing is said that was not sent. */
  lemma NothingElseIsSaid(fields: seq<Field>, kind: Byte)
    requires Complete(fields) && forall i :: 0 <= i < |fields| ==> fields[i].kind != kind
    ensures Said(View(fields).context, kind).None?
    ensures kind == Code('P') ==> View(fields).context.position.None?
    ensures kind == Code('p') ==> View(fields).context.innerPosition.None?
    ensures kind == Code('L') ==> View(fields).context.line.None?
  {
    LookupNone(fields, kind);
    SaidIsLookup(fields, kind);
  }

  /** The three fields that hold numbers. */
  datatype Slot = Position | InnerPosition | Line

  function SlotOf(kind: Byte): Slot
  {
    if kind == Code('P') then Position else if kind == Code('p') then InnerPosition else Line
  }

  /** Sets a text field of the context, or says which number the value belongs to. */
  method SetField(context: Context, kind: Byte, value: Text) returns (r: Context, slot: Option<Slot>)
    ensures slot == if Numeric(kind) then Some(SlotOf(kind)) else None
    ensures r == WithText(context, kind, value)
  {
    r, slot := context, None;
    if kind == Code('D') {
      r := context.(detail := Some(value));
    } else if kind == Code('H') {
      r := context.(hint := Some(value));
    } else if kind == Code('P') {
      slot := Some(Position);
    } else if kind == Code('p') {
      slot := Some(InnerPosition);
    } else if kind == Code('q') {
      r := context.(innerQuery := Some(value));
    } else if kind == Code('W') {
      r := context.(location := Some(value));
    } else if kind == Code('s') {
      r := context.(schema := Some(value));
    } else if kind == Code('t') {
      r := context.(table := Some(value));
    } else if kind == Code('c') {
      r := context.(column := Some(value));
    } else if kind == Code('d') {
      r := context.(dataType := Some(value));
    } else if kind == Code('n') {
      r := context.(constraint := Some(value));
    } else if kind == Code('F') {
      r := context.(file := Some(value));
    } else if kind == Code('L') {
      slot := Some(Line);
    } else if kind == Code('R') {
      r := context.(routine := Some(value));
    }
  }

  function Put(before: Option<Text>, kind: Byte, letter: char, value: Text): Option<Text>
    requires letter < 128 as char
  {
    if kind == Code(letter) then Some(value) else before
  }

  function WithText(c: Context, kind: Byte, value: Text): Context
  {
    Context(
      Put(c.detail, kind, 'D', value), Put(c.hint, kind, 'H', value), c.position, c.innerPosition,
      Put(c.innerQuery, kind, 'q', value), Put(c.location, kind, 'W', value), Put(c.schema, kind, 's', value),
      Put(c.table, kind, 't', value), Put(c.column, kind, 'c', value), Put(c.dataType, kind, 'd', value),
      Put(c.constraint, kind, 'n', value), Put(c.file, kind, 'F', value), c.line, Put(c.routine, kind, 'R', value))
  }

  function WithNumber(c: Context, slot: Slot, n: U32): Context
  {
    match slot
    case Position => c.(position := Some(n))
    case InnerPosition => c.(innerPosition := Some(n))
    case Line => c.(line := Some(n))
  }

  lemma ContextNextText(fields: seq<Field>, f: Field)
    requires Sound(f) && !Numeric(f.kind)
    ensures ContextOf(fields + [f]) == WithText(ContextOf(fields), f.kind, f.value)
  {
    LookupAll(fields, f);
  }

  lemma ContextNextNumber(fields: seq<Field>, f: Field)
    requires Sound(f) && Numeric(f.kind)
    ensures ContextOf(fields + [f]) == WithNumber(ContextOf(fields), SlotOf(f.kind), Value(f.value) as U32)
  {
    LookupAll(fields, f);
  }

  // ---- framing is unambiguous ----

  /** The position of the first zero byte, or the length. */
  function FirstZero(s: Text): (n: nat)
    ensures n <= |s| && (n < |s| ==> s[n] == 0)
    ensures forall i :: 0 <= i < n ==> s[i] != 0
  {
    if s == [] || s[0] == 0 then 0 else 1 + FirstZero(s[1..])
  }

  lemma {:induction false} FirstZeroOf(value: Text, rest: Text)
    requires NoZero(value)
    ensures FirstZero(value + [0] + rest) == |value|
    decreases |value|
  {
    var s := value + [0] + rest;
    if value != [] {
      assert s[1..] == value[1..] + [0] + rest;
      FirstZeroOf(value[1..], rest);
    }
  }

  lemma OneSplits(f: Field, x: Text, g: Field, y: Text)
    requires Framed(f) && Framed(g) && One(f) + x == One(g) + y
    ensures f == g && x == y
  {
    var s := One(f) + x;
    assert s[0] == f.kind == g.kind;
    assert s[1..] == f.value + [0] + x == g.value + [0] + y;
    FirstZeroOf(f.value, x);
    FirstZeroOf(g.value, y);
    assert f.value == s[1..][..|f.value|] == g.value;
    assert x == s[1..][|f.value| + 1..] == y;
  }

  predicate AllFramed(fields: seq<Field>)
  {
    forall i :: 0 <= i < |fields| ==> Framed(fields[i])
  }

  lemma OneThenPart(f: Field, tail: Text, rest: Text)
    ensures One(f) + tail + rest == One(f) + (tail + rest)
  {
  }

  /** An encoding starts with the kind of its first field, or is the final zero. */
  lemma FirstByte(fields: seq<Field>)
    ensures fields == [] ==> Encode(fields) == [0]
    ensures fields != [] ==> Encode(fields) == One(fields[0]) + Encode(fields[1..])
    ensures Encode(fields)[0] == if fields == [] then 0 else fields[0].kind
  {
    if fields != [] {
      OneThenPart(fields[0], Part(fields[1..]), [0]);
    }
  }

  /** Whatever was read one field after the other is how any encoding of the payload begins. */
  lemma {:induction false} Begins(fields: seq<Field>, rest: Text, all: seq<Field>)
    requires AllFramed(fields) && AllFramed(all) && Part(fields) + rest == Encode(all)
    ensures |fields| <= |all| && all[..|fields|] == fields && rest == Encode(all[|fields|..])
    decreases |fields|
  {
    if fields == [] {
      assert Part(fields) + rest == rest;
      assert all[0..] == all;
    } else {
      OneThenPart(fields[0], Part(fields[1..]), rest);
      assert (One(fields[0]) + (Part(fields[1..]) + rest))[0] == fields[0].kind;
      FirstByte(all);
      OneThenPart(all[0], Part(all[1..]), [0]);
      OneSplits(fields[0], Part(fields[1..]) + rest, all[0], Encode(all[1..]));
      Begins(fields[1..], rest, all[1..]);
      assert all == [all[0]] + all[1..] && fields == [fields[0]] + fields[1..];
      assert all[|fields|..] == all[1..][|fields| - 1..];
    }
  }

  lemma CleanIsFramed(fields: seq<Field>)
    requires Clean(fields)
    ensures AllFramed(fields)
  {
  }

  /** A payload is the encoding of at most one list of fields. */
  lemma EncodingIsUnique(payload: Text, a: seq<Field>, b: seq<Field>)
    requires Admits(payload, a) && Admits(payload, b)
    ensures a == b
  {
    SameEncoding(a, b);
  }

  lemma {:induction false} PartSnoc(fields: seq<Field>, f: Field)
    ensures Part(fields + [f]) == Part(fields) + One(f)
    decreases |fields|
  {
    if fields == [] {
      assert (fields + [f])[1..] == [];
      assert One(f) + [] == One(f);
    } else {
      assert (fields + [f])[1..] == fields[1..] + [f];
      PartSnoc(fields[1..], f);
      OneThenPart(fields[0], Part(fields[1..]), One(f));
    }
  }

  // ---- numbers and codes ----

  datatype NumberError = EmptyNumber | BadDigit(offset: nat, byte: Byte) | TooLarge(offset: nat, byte: Byte) | Zero

  /** What is wrong with a position or line. */
  ghost predicate NumberFails(v: Text, error: NumberError)
  {
    match error
    case EmptyNumber => v == []
    case BadDigit(at, byte) => FailsAt(v, U32_MAX, at) && v[at] == byte && !IsDigit(byte)
    case TooLarge(at, byte) => FailsAt(v, U32_MAX, at) && v[at] == byte && IsDigit(byte)
    case Zero => v != [] && Fits(v, U32_MAX) && Value(v) == 0
  }

  method TryNumber(value: Text) returns (r: Result<U32, NumberError>)
    ensures r.Ok? ==> NumberText(value) && r.value as int == Value(value)
    ensures r.Err? ==> NumberFails(value, r.error)
  {
    if value == [] {
      return Err(EmptyNumber);
    }
    var number: nat := 0;
    var bytes := value;
    while bytes != []
      invariant |bytes| <= |value| && bytes == value[|value| - |bytes|..]
      invariant Fits(value[..|value| - |bytes|], U32_MAX) && number == Value(value[..|value| - |bytes|])
      decreases |bytes|
    {
      var at := |value| - |bytes|;
      var byte := bytes[0];
      assert byte == value[at];
      assert value[..at + 1][..at] == value[..at] && value[..at + 1][at] == byte;
      if !IsDigit(byte) {
        return Err(BadDigit(at, byte));
      }
      var next := 10 * number + (byte - '0' as int);
      assert AllDigits(value[..at + 1]) && Value(value[..at + 1]) == next;
      if next > U32_MAX {
        return Err(TooLarge(at, byte));
      }
      number := next;
      bytes := bytes[1..];
    }
    assert value[..|value|] == value;
    if number == 0 {
      return Err(Zero);
    }
    r := Ok(number as U32);
  }

  lemma NumberFailsRight(v: Text, error: NumberError)
    requires NumberFails(v, error)
    ensures !NumberText(v)
  {
    match error
    case EmptyNumber =>
    case BadDigit(at, _) => PrefixFails(v, U32_MAX, at);
    case TooLarge(at, _) => PrefixFails(v, U32_MAX, at);
    case Zero =>
  }

  /** The replay: no check, in 32-bit arithmetic, and still neither overflow nor zero. */
  method ReplayNumber(value: Text) returns (number: U32)
    requires NumberText(value)
    ensures number as int == Value(value) && number != 0
  {
    number := 0;
    for i := 0 to |value|
      invariant number as int == Value(value[..i])
    {
      assert value[..i + 1][..i] == value[..i];
      ValueGrows(value, i + 1);
      number := number * 10 + (value[i] - '0' as int) as U32;
    }
    assert value[..|value|] == value;
  }

  datatype Error =
    | MissingTerminator(offset: nat)
    | Trailing(offset: nat, actual: nat)
    | Unterminated(kind: Byte, offset: nat, actual: nat)
    | BadUtf8(kind: Byte, offset: nat)
    | Duplicate(kind: Byte)
    | BadNumber(kind: Byte, number: NumberError)
    | BadSeverity
    | SqlstateLength(actual: nat)
    | SqlstateCharacter(actual: nat, offset: nat, byte: Byte)
    | NoMessage

  ghost predicate CodeFails(code: Option<Text>, error: Error)
  {
    match error
    case SqlstateLength(actual) =>
      if code.None? then actual == 0
      else actual == |code.value| && actual != 5 && forall i :: 0 <= i < actual ==> SqlstateByte(code.value[i])
    case SqlstateCharacter(actual, offset, byte) =>
      && code.Some? && actual == |code.value| && offset < actual && code.value[offset] == byte && !SqlstateByte(byte)
      && forall i :: 0 <= i < offset ==> SqlstateByte(code.value[i])
    case _ => false
  }

  /** The characters are checked before the length. */
  method TryCode(value: Text) returns (r: Result<Text, Error>)
    ensures r.Ok? ==> IsSqlstate(value) && r.value == value
    ensures r.Err? ==> CodeFails(Some(value), r.error)
  {
    for i := 0 to |value|
      invariant forall k :: 0 <= k < i ==> SqlstateByte(value[k])
    {
      if !SqlstateByte(value[i]) {
        return Err(SqlstateCharacter(|value|, i, value[i]));
      }
    }
    if |value| != 5 {
      return Err(SqlstateLength(|value|));
    }
    r := Ok(value);
  }

  // ---- collecting fields ----

  /** The four required fields and the context, as far as they are known. */
  class Parts {
    var severity: Option<Text>
    var nonlocalized: Option<Text>
    var code: Option<Text>
    var message: Option<Text>
    var context: Context

    /** Holds what these fields say. */
    ghost predicate Holds(fields: seq<Field>)
      reads this
    {
      && severity == Lookup(fields, Code('S')) && nonlocalized == Lookup(fields, Code('V'))
      && code == Lookup(fields, Code('C')) && message == Lookup(fields, Code('M'))
      && context == ContextOf(fields)
    }

    constructor ()
      ensures Holds([])
    {
      severity, nonlocalized, code, message, context := None, None, None, None, NO_CONTEXT;
    }

    /** One of the four required fields; says whether it was. */
    method SetRequired(kind: Byte, value: Text) returns (done: bool)
      modifies this
      ensures done <==> kind in {Code('S'), Code('V'), Code('C'), Code('M')}
      ensures severity == Put(old(severity), kind, 'S', value)
      ensures nonlocalized == Put(old(nonlocalized), kind, 'V', value)
      ensures code == Put(old(code), kind, 'C', value)
      ensures message == Put(old(message), kind, 'M', value)
      ensures context == old(context)
    {
      done := true;
      if kind == Code('S') {
        severity := Some(value);
      } else if kind == Code('V') {
        nonlocalized := Some(value);
      } else if kind == Code('C') {
        code := Some(value);
      } else if kind == Code('M') {
        message := Some(value);
      } else {
        done := false;
      }
    }

    /** Sets a field, checking a number. */
    method TrySet(kind: Byte, value: Text, ghost fields: seq<Field>) returns (r: Result<(), Error>)
      requires Holds(fields) && Framed(Field(kind, value)) && IsUtf8(value)
      modifies this
      ensures r.Ok? ==> Sound(Field(kind, value)) && Holds(fields + [Field(kind, value)])
      ensures r.Err? ==> Numeric(kind) && exists e :: NumberFails(value, e) && r.error == BadNumber(kind, e)
    {
      LookupAll(fields, Field(kind, value));
      var done := SetRequired(kind, value);
      var slot: Option<Slot> := None;
      if !done {
        context, slot := SetField(context, kind, value);
      }
      if slot.Some? {
        var number := TryNumber(value);
        if number.Err? {
          return Err(BadNumber(kind, number.error));
        }
        context := WithNumber(context, slot.value, number.value);
      }
      if Numeric(kind) {
        ContextNextNumber(fields, Field(kind, value));
      } else {
        ContextNextText(fields, Field(kind, value));
      }
      RequiredKeepContext(ContextOf(fields), kind, value);
      r := Ok(());
    }

    /** Sets a field without checking anything. */
    method Set(kind: Byte, value: Text, ghost fields: seq<Field>)
      requires Holds(fields) && Sound(Field(kind, value))
      modifies this
      ensures Holds(fields + [Field(kind, value)])
    {
      LookupAll(fields, Field(kind, value));
      var done := SetRequired(kind, value);
      var slot: Option<Slot> := None;
      if !done {
        context, slot := SetField(context, kind, value);
      }
      if slot.Some? {
        var number := ReplayNumber(value);
        context := WithNumber(context, slot.value, number);
      }
      if Numeric(kind) {
        ContextNextNumber(fields, Field(kind, value));
      } else {
        ContextNextText(fields, Field(kind, value));
      }
      RequiredKeepContext(ContextOf(fields), kind, value);
    }

    method TryFinish(ghost fields: seq<Field>) returns (r: Result<Fields, Error>)
      requires Holds(fields)
      ensures r.Ok? ==> Complete(fields) && r.value == View(fields)
      ensures r.Err? ==> Incomplete(fields, r.error)
    {
      var chosen := if nonlocalized.Some? then nonlocalized else severity;
      if chosen.None? || chosen.value == [] {
        return Err(BadSeverity);
      }
      if code.None? {
        return Err(SqlstateLength(0));
      }
      var checked := TryCode(code.value);
      if checked.Err? {
        return Err(checked.error);
      }
      if message.None? {
        return Err(NoMessage);
      }
      r := Ok(Fields(chosen.value, checked.value, message.value, context));
    }

    /** Takes the required fields as initialised, which they are. */
    method Finish(ghost fields: seq<Field>) returns (r: Fields)
      requires Holds(fields) && Complete(fields)
      ensures r == View(fields)
    {
      var chosen := if nonlocalized.Some? then nonlocalized.value else severity.value;
      r := Fields(chosen, code.value, message.value, context);
    }
  }

  lemma LookupAll(fields: seq<Field>, f: Field)
    ensures forall kind: Byte ::
      Lookup(fields + [f], kind) == if f.kind == kind then Some(f.value) else Lookup(fields, kind)
  {
    forall kind: Byte
      ensures Lookup(fields + [f], kind) == if f.kind == kind then Some(f.value) else Lookup(fields, kind)
    {
      LookupNext(fields, f, kind);
    }
  }

  lemma RequiredKeepContext(c: Context, kind: Byte, value: Text)
    ensures kind in {Code('S'), Code('V'), Code('C'), Code('M')} ==> WithText(c, kind, value) == c && !Numeric(kind)
    ensures Numeric(kind) ==> WithText(c, kind, value) == c
  {
  }

  ghost predicate Incomplete(fields: seq<Field>, error: Error)
  {
    var severity := Severity(fields);
    var code := Lookup(fields, Code('C'));
    if severity.None? || severity.value == [] then error == BadSeverity
    else if code.None? || !IsSqlstate(code.value) then CodeFails(code, error)
    else Lookup(fields, Code('M')).None? && error == NoMessage
  }

  // ---- the checked parser ----

  /** Clean fields were read, `error` says what came next, and `f` and `rest` are the field it blames. */
  ghost predicate Refuses(payload: Text, fields: seq<Field>, f: Field, rest: Text, error: Error)
  {
    && Clean(fields)
    && match error
       case MissingTerminator(offset) => payload == Part(fields) && offset == |payload|
       case Trailing(offset, actual) =>
         payload == Encode(fields) + rest && rest != [] && actual == |rest| && offset == |payload| - actual
       case Unterminated(kind, offset, actual) =>
         && payload == Part(fields) + [kind] + rest && kind != 0 && NoZero(rest)
         && actual == |rest| && offset == |payload| - actual
       case BadUtf8(kind, offset) =>
         && Next(payload, fields, f, rest, kind) && !IsUtf8(f.value)
         && offset == |Part(fields)| + 1 + ValidUpTo(f.value)
       case Duplicate(kind) => Next(payload, fields, f, rest, kind) && Repeats(fields, kind)
       case BadNumber(kind, number) =>
         Next(payload, fields, f, rest, kind) && Numeric(kind) && NumberFails(f.value, number)
       case _ => payload == Encode(fields) && Incomplete(fields, error)
  }

  ghost predicate Next(payload: Text, fields: seq<Field>, f: Field, rest: Text, kind: Byte)
  {
    payload == Part(fields) + (One(f) + rest) && Framed(f) && f.kind == kind
  }

  lemma CleanNext(fields: seq<Field>, f: Field)
    requires Clean(fields) && Sound(f) && !Repeats(fields, f.kind)
    ensures Clean(fields + [f])
  {
    var all := fields + [f];
    forall i | 0 <= i < |all| ensures !Repeats(all[..i], all[i].kind) {
      assert all[..i] == fields[..i];
      assert fields[..|fields|] == fields;
    }
  }

  function Mask(bit: nat): bv32
    requires bit < 18
  {
    (1 as bv32) << bit
  }

  function BitSet(bit: Option<nat>): set<nat>
  {
    if bit.Some? then {bit.value} else {}
  }

  /** The bits of the recognized kinds among these fields. */
  function Bits(fields: seq<Field>): set<nat>
  {
    if fields == [] then {}
    else
      var bit := RecognizedBit(fields[|fields| - 1].kind);
      Bits(fields[..|fields| - 1]) + BitSet(bit)
  }

  ghost predicate Tracks(seen: bv32, bits: set<nat>)
  {
    forall bit: nat :: bit < 18 ==> (seen & Mask(bit) != 0 <==> bit in bits)
  }

  lemma {:induction false} BitsAreRepeats(fields: seq<Field>, kind: Byte)
    requires RecognizedBit(kind).Some?
    ensures RecognizedBit(kind).value in Bits(fields) <==> Repeats(fields, kind)
    decreases |fields|
  {
    if fields != [] {
      var n := |fields| - 1;
      assert fields == fields[..n] + [fields[n]];
      BitsAreRepeats(fields[..n], kind);
      RepeatsNext(fields[..n], fields[n], kind);
      BitsDiffer(fields[n].kind, kind);
    }
  }

  lemma MasksJoin(seen: bv32, a: nat, b: nat)
    requires a < 18 && b < 18
    ensures (seen | Mask(a)) & Mask(b) != 0 <==> (a == b || seen & Mask(b) != 0)
  {
    MasksDiffer(a, b);
  }

  lemma MasksDiffer(a: nat, b: nat)
    requires a < 18 && b < 18
    ensures a != b ==> Mask(a) & Mask(b) == 0
    ensures Mask(a) != 0
  {
  }

  lemma RepeatsNext(fields: seq<Field>, f: Field, kind: Byte)
    ensures Repeats(fields + [f], kind) <==> Repeats(fields, kind) || (RecognizedBit(kind).Some? && kind == f.kind)
  {
    var all := fields + [f];
    if i :| 0 <= i < |fields| && fields[i].kind == kind {
      assert all[i].kind == kind;
    }
    assert all[|fields|] == f;
  }

  lemma TracksNext(seen: bv32, bits: set<nat>, bit: nat)
    requires bit < 18 && Tracks(seen, bits)
    ensures Tracks(seen | Mask(bit), bits + {bit})
  {
    forall other: nat | other < 18
      ensures (seen | Mask(bit)) & Mask(other) != 0 <==> other in bits + {bit}
    {
      MasksJoin(seen, bit, other);
    }
  }

  lemma BitsNext(fields: seq<Field>, f: Field)
    ensures Bits(fields + [f]) == Bits(fields) + BitSet(RecognizedBit(f.kind))
  {
    assert (fields + [f])[..|fields|] == fields;
  }

  method TestBit(seen: bv32, bit: nat, ghost bits: set<nat>) returns (taken: bool)
    requires bit < 18 && Tracks(seen, bits)
    ensures taken <==> bit in bits
  {
    taken := seen & Mask(bit) != 0;
  }

  method SetBit(seen: bv32, bit: nat, ghost bits: set<nat>) returns (mask: bv32)
    requires bit < 18 && Tracks(seen, bits)
    ensures Tracks(mask, bits + {bit})
  {
    TracksNext(seen, bits, bit);
    mask := seen | Mask(bit);
  }

  /** Refuses a bit that is set, and sets one that is not. */
  method MarkBit(seen: bv32, bit: Option<nat>, ghost bits: set<nat>) returns (fine: bool, mask: bv32)
    requires Tracks(seen, bits) && (bit.Some? ==> bit.value < 18)
    ensures fine <==> bit.None? || bit.value !in bits
    ensures fine ==> Tracks(mask, bits + BitSet(bit))
  {
    fine, mask := true, seen;
    if bit.Some? {
      var taken := TestBit(seen, bit.value, bits);
      if taken {
        fine := false;
      } else {
        mask := SetBit(seen, bit.value, bits);
      }
    }
  }

  lemma RepeatsByBit(fields: seq<Field>, kind: Byte)
    ensures RecognizedBit(kind).Some? ==> RecognizedBit(kind).value < 18
    ensures Repeats(fields, kind) <==> RecognizedBit(kind).Some? && RecognizedBit(kind).value in Bits(fields)
  {
    BitsDiffer(kind, kind);
    if RecognizedBit(kind).Some? {
      BitsAreRepeats(fields, kind);
    }
  }

  /** Splits a field off: its kind, its value up to the first zero, and the rest. */
  lemma FieldSplits(cursor: Text, at: nat)
    requires cursor != [] && at == FirstZero(cursor[1..]) && at < |cursor| - 1
    ensures cursor == One(Field(cursor[0], cursor[1..][..at])) + cursor[1..][at + 1..]
  {
  }

  /** Checks the value of a field, and takes it. */
  method TakeValue(payload: Text, f: Field, rest: Text, parts: Parts, seen: bv32, ghost fields: seq<Field>)
    returns (r: Result<bv32, Error>)
    requires Next(payload, fields, f, rest, f.kind)
    requires Clean(fields) && parts.Holds(fields) && Tracks(seen, Bits(fields))
    modifies parts
    ensures r.Ok? ==> Clean(fields + [f]) && parts.Holds(fields + [f]) && Tracks(r.value, Bits(fields + [f]))
    ensures r.Err? ==> Refuses(payload, fields, f, rest, r.error)
  {
    var valid := ValidUpTo(f.value);
    if valid < |f.value| {
      var tail := |f.value| + 1 + |rest|;
      return Err(BadUtf8(f.kind, |payload| - (tail - valid)));
    }
    RepeatsByBit(fields, f.kind);
    BitsNext(fields, f);
    var fine, mask := MarkBit(seen, RecognizedBit(f.kind), Bits(fields));
    if !fine {
      return Err(Duplicate(f.kind));
    }
    var done := parts.TrySet(f.kind, f.value, fields);
    if done.Err? {
      return Err(done.error);
    }
    CleanNext(fields, f);
    r := Ok(mask);
  }

  /** Splits one field off and takes it. */
  method TakeField(payload: Text, cursor: Text, parts: Parts, seen: bv32, ghost fields: seq<Field>)
    returns (r: Result<(Text, bv32), Error>, ghost f: Field)
    requires cursor != [] && cursor[0] != 0 && payload == Part(fields) + cursor
    requires Clean(fields) && parts.Holds(fields) && Tracks(seen, Bits(fields))
    modifies parts
    ensures r.Ok? ==> |r.value.0| < |cursor| && payload == Part(fields + [f]) + r.value.0
    ensures r.Ok? ==> Clean(fields + [f]) && parts.Holds(fields + [f]) && Tracks(r.value.1, Bits(fields + [f]))
    ensures r.Err? ==> exists rest :: Refuses(payload, fields, f, rest, r.error)
  {
    var kind, tail := cursor[0], cursor[1..];
    var at := FirstZero(tail);
    var field := Field(kind, tail[..at]);
    f := field;
    if at == |tail| {
      NoEnd(payload, fields, cursor, f);
      return Err(Unterminated(kind, |payload| - |tail|, |tail|)), f;
    }
    var rest := tail[at + 1..];
    FieldSplits(cursor, at);
    assert Next(payload, fields, f, rest, kind);
    var taken := TakeValue(payload, field, rest, parts, seen, fields);
    if taken.Err? {
      assert Refuses(payload, fields, f, rest, taken.error);
      return Err(taken.error), f;
    }
    PartSnoc(fields, f);
    Assoc(Part(fields), One(f), rest);
    r := Ok((rest, taken.value));
  }

  lemma NoEnd(payload: Text, fields: seq<Field>, cursor: Text, f: Field)
    requires cursor != [] && cursor[0] != 0 && payload == Part(fields) + cursor && NoZero(cursor[1..])
    requires f.kind == cursor[0] && Clean(fields)
    ensures var tail := cursor[1..];
            Refuses(payload, fields, f, tail, Unterminated(f.kind, |payload| - |tail|, |tail|))
  {
    var tail := cursor[1..];
    assert [cursor[0]] + tail == cursor;
    Assoc(Part(fields), [cursor[0]], tail);
    assert payload == Part(fields) + [cursor[0]] + tail;
  }

  /** Accepts exactly the encodings of clean and complete fields, and says what they say. */
  method TryParse(payload: Text) returns (r: Result<Fields, Error>)
    requires |payload| <= U32_MAX
    ensures r.Ok? ==> exists fields :: Admits(payload, fields) && r.value == View(fields)
    ensures r.Err? ==> exists fields, f, rest :: Refuses(payload, fields, f, rest, r.error)
  {
    var parts := new Parts();
    var seen: bv32 := 0;
    var cursor := payload;
    ghost var fields: seq<Field> := [];
    while true
      invariant payload == Part(fields) + cursor
      invariant Clean(fields) && parts.Holds(fields) && Tracks(seen, Bits(fields))
      invariant fresh(parts)
      decreases |cursor|
    {
      if cursor == [] {
        assert Refuses(payload, fields, Field(0, []), [], MissingTerminator(|payload|));
        return Err(MissingTerminator(|payload|));
      }
      if cursor[0] == 0 {
        var tail := cursor[1..];
        assert cursor == [0] + tail;
        Assoc(Part(fields), [0], tail);
        if tail != [] {
          assert Refuses(payload, fields, Field(0, []), tail, Trailing(|payload| - |tail|, |tail|));
          return Err(Trailing(|payload| - |tail|, |tail|));
        }
        break;
      }
      var taken, f := TakeField(payload, cursor, parts, seen, fields);
      if taken.Err? {
        return Err(taken.error);
      }
      fields := fields + [f];
      cursor, seen := taken.value.0, taken.value.1;
    }
    assert payload == Encode(fields);
    var finished := parts.TryFinish(fields);
    if finished.Err? {
      IncompleteIsRefusal(payload, fields, finished.error);
      return Err(finished.error);
    }
    assert Admits(payload, fields);
    r := finished;
  }

  lemma IncompleteIsRefusal(payload: Text, fields: seq<Field>, error: Error)
    requires payload == Encode(fields) && Clean(fields) && Incomplete(fields, error)
    ensures Refuses(payload, fields, Field(0, []), [], error) && !Complete(fields)
  {
  }

  // ---- a refusal is right ----

  lemma NextIsThere(payload: Text, fields: seq<Field>, f: Field, rest: Text, all: seq<Field>)
    requires Clean(fields) && Framed(f) && AllFramed(all)
    requires payload == Part(fields) + (One(f) + rest) && payload == Encode(all)
    ensures |fields| < |all| && all[..|fields|] == fields && all[|fields|] == f
  {
    CleanIsFramed(fields);
    Begins(fields, One(f) + rest, all);
    var more := all[|fields|..];
    FirstByte(more);
    OneSplits(f, rest, more[0], Encode(more[1..]));
  }

  lemma FieldIsRefused(payload: Text, fields: seq<Field>, f: Field, rest: Text, error: Error, all: seq<Field>)
    requires Refuses(payload, fields, f, rest, error) && (error.BadUtf8? || error.Duplicate? || error.BadNumber?)
    requires payload == Encode(all) && AllFramed(all)
    ensures !Clean(all)
  {
    NextIsThere(payload, fields, f, rest, all);
    if error.BadNumber? {
      NumberFailsRight(f.value, error.number);
    }
    assert !Sound(all[|fields|]) || Repeats(all[..|fields|], all[|fields|].kind);
  }

  lemma FramingIsRefused(payload: Text, fields: seq<Field>, f: Field, rest: Text, error: Error, all: seq<Field>)
    requires Refuses(payload, fields, f, rest, error)
    requires error.MissingTerminator? || error.Trailing? || error.Unterminated?
    requires AllFramed(all)
    ensures payload != Encode(all)
  {
    CleanIsFramed(fields);
    var after := payload[|Part(fields)|..];
    assert payload == Part(fields) + after;
    if payload == Encode(all) {
      Begins(fields, after, all);
      NotEncoding(after, all[|fields|..]);
    }
  }

  /** Nothing at all, something after the final zero, or a field without its zero. */
  lemma NotEncoding(after: Text, more: seq<Field>)
    requires AllFramed(more)
    requires after == [] || (after[0] == 0 && |after| > 1) || (after[0] != 0 && NoZero(after[1..]))
    ensures after != Encode(more)
  {
    FirstByte(more);
    var text := Encode(more);
    assert text[|text| - 1] == 0;
    if |after| == |text| && after != [] && after[0] != 0 && |text| > 1 {
      assert after[|text| - 1] == after[1..][|text| - 2];
    }
  }

  /** Every refusal is right: no list of fields would have been admitted. */
  lemma RefusalIsRight(payload: Text, fields: seq<Field>, f: Field, rest: Text, error: Error, all: seq<Field>)
    requires Refuses(payload, fields, f, rest, error)
    ensures !Admits(payload, all)
  {
    if payload == Encode(all) && Clean(all) {
      CleanIsFramed(all);
      if error.BadUtf8? || error.Duplicate? || error.BadNumber? {
        FieldIsRefused(payload, fields, f, rest, error, all);
      } else if error.MissingTerminator? || error.Trailing? || error.Unterminated? {
        FramingIsRefused(payload, fields, f, rest, error, all);
      } else {
        SameEncoding(fields, all);
      }
    }
  }

  lemma SameEncoding(a: seq<Field>, b: seq<Field>)
    requires Clean(a) && Clean(b) && Encode(a) == Encode(b)
    ensures a == b
  {
    CleanIsFramed(a);
    CleanIsFramed(b);
    Begins(a, [0], b);
    FirstByte(b[|a|..]);
  }

  // ---- the replay ----

  /** Looks for the zero that ends a value, which is there. */
  method ScanValue(payload: Text, from: nat, ghost value: Text) returns (end: nat)
    requires NoZero(value) && from + |value| < |payload| && payload[from + |value|] == 0
    requires forall i :: 0 <= i < |value| ==> payload[from + i] == value[i]
    ensures end == |value|
  {
    end := 0;
    ghost var ended := value + [0];
    while payload[from + end] != 0
      invariant end <= |value| && payload[from + end] == ended[end]
      decreases |value| - end
    {
      end := end + 1;
    }
  }

  /** Reads the next field of an admitted payload, at `cursor`, without checking anything. */
  method ReplayField(payload: Text, cursor: nat, parts: Parts, ghost fields: seq<Field>, ghost at: nat) returns (next: nat)
    requires payload == Encode(fields) && Clean(fields) && at < |fields|
    requires cursor == |Part(fields[..at])| && parts.Holds(fields[..at]) && cursor < |payload| && payload[cursor] != 0
    modifies parts
    ensures next == |Part(fields[..at + 1])| && next < |payload|
    ensures parts.Holds(fields[..at + 1])
  {
    ghost var f := fields[at];
    FieldAt(payload, fields, at);
    var kind := payload[cursor];
    var end := ScanValue(payload, cursor + 1, f.value);
    assert payload[cursor + 1..cursor + 1 + end] == f.value;
    assert fields[..at + 1] == fields[..at] + [f];
    parts.Set(kind, payload[cursor + 1..cursor + 1 + end], fields[..at]);
    PartSnoc(fields[..at], f);
    next := cursor + 1 + end + 1;
  }

  /** Where the bytes of a field are. */
  lemma FieldAt(payload: Text, fields: seq<Field>, at: nat)
    requires payload == Encode(fields) && Clean(fields) && at < |fields|
    ensures var f, from := fields[at], |Part(fields[..at])|;
            && Framed(f) && Sound(f)
            && from + |One(f)| < |payload| && payload[from] == f.kind
            && (forall i :: 0 <= i < |f.value| ==> payload[from + 1 + i] == f.value[i])
            && payload[from + 1 + |f.value|] == 0
  {
    PartSplits(fields, at);
    assert payload[|Part(fields[..at])|..] == One(fields[at]) + Encode(fields[at + 1..]);
  }

  lemma {:induction false} PartSplits(fields: seq<Field>, at: nat)
    requires at < |fields|
    ensures Encode(fields) == Part(fields[..at]) + (One(fields[at]) + Encode(fields[at + 1..]))
    decreases at
  {
    FirstByte(fields);
    if at == 0 {
      assert Part(fields[..0]) == [];
    } else {
      PartSplits(fields[1..], at - 1);
      assert fields[1..][..at - 1] == fields[..at][1..];
      assert fields[1..][at..] == fields[at + 1..];
      assert fields[..at][0] == fields[0];
      Assoc(One(fields[0]), Part(fields[..at][1..]), One(fields[at]) + Encode(fields[at + 1..]));
    }
  }

  /**
   On bytes that were admitted, the unchecked replay stays inside the payload, finds severity,
   code and message, and returns the very same fields.
   */
  method FromValid(payload: Text, ghost fields: seq<Field>) returns (r: Fields)
    requires Admits(payload, fields)
    ensures r == View(fields)
  {
    var parts := new Parts();
    var cursor := 0;
    ghost var at := 0;
    FirstByte(fields);
    assert fields[..0] == [];
    while payload[cursor] != 0
      invariant at <= |fields| && cursor == |Part(fields[..at])| < |payload|
      invariant parts.Holds(fields[..at]) && fresh(parts)
      invariant payload[cursor] == 0 <==> at == |fields|
      decreases |fields| - at
    {
      cursor := ReplayField(payload, cursor, parts, fields, at);
      at := at + 1;
      EndIsZero(payload, fields, at);
    }
    assert fields[..|fields|] == fields;
    r := parts.Finish(fields);
  }

  lemma EndIsZero(payload: Text, fields: seq<Field>, at: nat)
    requires payload == Encode(fields) && Clean(fields) && at <= |fields| && |Part(fields[..at])| < |payload|
    ensures payload[|Part(fields[..at])|] == 0 <==> at == |fields|
  {
    if at < |fields| {
      FieldAt(payload, fields, at);
    } else {
      assert fields[..at] == fields;
    }
  }

  /** A complete diagnostic has a severity and a code of five capital letters and digits. */
  lemma CompleteSays(fields: seq<Field>)
    requires Complete(fields)
    ensures View(fields).severity != [] && |View(fields).code| == 5
    ensures forall b <- View(fields).code :: '0' as int <= b <= '9' as int || 'A' as int <= b <= 'Z' as int
  {
  }

  /** Whenever the parser accepts, the replay of the same bytes agrees with it. */
  method ParseThenReplay(payload: Text) returns (parsed: Result<Fields, Error>, replayed: Option<Fields>)
    requires |payload| <= U32_MAX
    ensures replayed == if parsed.Ok? then Some(parsed.value) else None
    ensures parsed.Ok? <==> exists fields :: Admits(payload, fields)
    ensures parsed.Ok? ==> forall fields :: Admits(payload, fields) ==> parsed.value == View(fields)
    ensures parsed.Ok? ==> parsed.value.severity != [] && |parsed.value.code| == 5
    ensures parsed.Ok? ==> forall b <- parsed.value.code ::
      '0' as int <= b <= '9' as int || 'A' as int <= b <= 'Z' as int
  {
    parsed := TryParse(payload);
    if parsed.Err? {
      ghost var fields, f, rest :| Refuses(payload, fields, f, rest, parsed.error);
      forall all ensures !Admits(payload, all) {
        RefusalIsRight(payload, fields, f, rest, parsed.error, all);
      }
      return parsed, None;
    }
    ghost var fields :| Admits(payload, fields) && parsed.value == View(fields);
    forall other | Admits(payload, other) ensures other == fields {
      EncodingIsUnique(payload, other, fields);
    }
    CompleteSays(fields);
    var again := FromValid(payload, fields);
    replayed := Some(again);
  }
}
