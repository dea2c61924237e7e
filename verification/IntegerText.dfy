/** Decimal text: bounded parsing that reports the byte at fault, and printing into 20 bytes. */
module IntegerText {
  import opened Utf8
  import opened Sequences
  import opened Wrappers

  const U64_MAX: nat := 0xffff_ffff_ffff_ffff
  const I64_MAX: nat := 0x7fff_ffff_ffff_ffff
  const I64_MIN: int := -0x8000_0000_0000_0000

  datatype Invalid =
    | Empty
    | Missing(offset: nat)
    | BadByte(offset: nat, actual: Byte)
    | Overflow(offset: nat)

  predicate IsDigit(b: Byte)
  {
    '0' as int <= b <= '9' as int
  }

  predicate AllDigits(s: seq<Byte>)
  {
    forall i :: 0 <= i < |s| ==> IsDigit(s[i])
  }

  function Value(s: seq<Byte>): nat
    requires AllDigits(s)
  {
    if s == [] then 0 else 10 * Value(s[..|s| - 1]) + (s[|s| - 1] - '0' as int)
  }

  lemma {:induction false} ValueGrows(s: seq<Byte>, k: nat)
    requires AllDigits(s) && k <= |s|
    ensures Value(s[..k]) <= Value(s)
    decreases |s|
  {
    if k == |s| {
      assert s[..k] == s;
    } else {
      assert s[..|s| - 1][..k] == s[..k];
      ValueGrows(s[..|s| - 1], k);
    }
  }

  /** Text up to here is a number within the limit. */
  predicate Fits(s: seq<Byte>, limit: nat)
  {
    AllDigits(s) && Value(s) <= limit
  }

  /** The first byte at which the text stops being a number within the limit. */
  predicate FailsAt(s: seq<Byte>, limit: nat, at: nat)
  {
    at < |s| && Fits(s[..at], limit) && !Fits(s[..at + 1], limit)
  }

  /** `error` names that byte, counted from `start`, and says whether it is the byte or the size that is wrong. */
  predicate Blames(s: seq<Byte>, start: nat, limit: nat, at: nat, error: Invalid)
  {
    FailsAt(s, limit, at) && error == if IsDigit(s[at]) then Overflow(start + at) else BadByte(start + at, s[at])
  }

  method Magnitude(bytes: seq<Byte>, start: nat, limit: nat) returns (r: Result<nat, Invalid>)
    requires limit <= U64_MAX
    ensures r.Ok? <==> bytes != [] && Fits(bytes, limit)
    ensures r.Ok? ==> r.value == Value(bytes)
    ensures bytes == [] ==> r == Err(Missing(start))
    ensures bytes != [] && r.Err? ==> exists at :: Blames(bytes, start, limit, at, r.error)
  {
    if bytes == [] {
      return Err(Missing(start));
    }
    var value: nat := 0;
    for index := 0 to |bytes|
      invariant Fits(bytes[..index], limit) && value == Value(bytes[..index])
    {
      var byte := bytes[index];
      assert bytes[..index + 1][..index] == bytes[..index];
      assert bytes[..index + 1][index] == byte;
      if !IsDigit(byte) {
        PrefixFails(bytes, limit, index);
        assert Blames(bytes, start, limit, index, BadByte(start + index, byte));
        return Err(BadByte(start + index, byte));
      }
      var next := 10 * value + (byte - '0' as int);
      assert AllDigits(bytes[..index + 1]);
      assert Value(bytes[..index + 1]) == next;
      // checked_mul and checked_add give nothing past the 64-bit range.
      if next > U64_MAX || next > limit {
        PrefixFails(bytes, limit, index);
        assert Blames(bytes, start, limit, index, Overflow(start + index));
        return Err(Overflow(start + index));
      }
      value := next;
    }
    assert bytes[..|bytes|] == bytes;
    r := Ok(value);
  }

  lemma PrefixFails(bytes: seq<Byte>, limit: nat, at: nat)
    requires FailsAt(bytes, limit, at)
    ensures !Fits(bytes, limit)
  {
    if AllDigits(bytes) {
      ValueGrows(bytes, at + 1);
    }
  }

  function AsI64(v: nat): int
    requires v <= U64_MAX
  {
    if v <= I64_MAX then v else v - U64_MAX - 1
  }

  function WrappingNeg(v: int): int
  {
    if v == I64_MIN then v else -v
  }

  const MINUS: Byte := '-' as int
  const PLUS: Byte := '+' as int

  /** The digits of signed text. */
  function Unsigned(s: seq<Byte>): seq<Byte>
  {
    if s != [] && (s[0] == MINUS || s[0] == PLUS) then s[1..] else s
  }

  /** The number signed text stands for. */
  function SignedValue(s: seq<Byte>): int
    requires AllDigits(Unsigned(s))
  {
    var v: int := Value(Unsigned(s));
    if s != [] && s[0] == MINUS then -v else v
  }

  function SignedLimit(s: seq<Byte>): nat
  {
    if s != [] && s[0] == MINUS then I64_MAX + 1 else I64_MAX
  }

  /** What Magnitude reports for the digits of `s`. */
  ghost predicate Reports(s: seq<Byte>, limit: nat, error: Invalid)
  {
    var digits := Unsigned(s);
    var start := |s| - |digits|;
    if s == [] then error == Empty
    else if digits == [] then error == Missing(start)
    else exists at :: Blames(digits, start, limit, at, error)
  }

  lemma PassOn(s: seq<Byte>, digits: seq<Byte>, start: nat, limit: nat, error: Invalid)
    requires s != [] && digits == Unsigned(s) && start == |s| - |digits|
    requires if digits == [] then error == Missing(start) else exists at :: Blames(digits, start, limit, at, error)
    ensures Reports(s, limit, error)
  {
  }

  /** All of i64, its minimum included, and nothing else. */
  method Signed(bytes: seq<Byte>) returns (r: Result<int, Invalid>)
    ensures r.Ok? <==> Unsigned(bytes) != [] && AllDigits(Unsigned(bytes)) && I64_MIN <= SignedValue(bytes) <= I64_MAX
    ensures r.Ok? ==> r.value == SignedValue(bytes)
    ensures r.Err? ==> Reports(bytes, SignedLimit(bytes), r.error)
  {
    if bytes == [] {
      return Err(Empty);
    }
    var negative, digits, start := false, bytes, 0;
    if bytes[0] == MINUS {
      negative, digits, start := true, bytes[1..], 1;
    } else if bytes[0] == PLUS {
      negative, digits, start := false, bytes[1..], 1;
    }
    var limit := if negative then I64_MAX + 1 else I64_MAX;
    var value := Magnitude(digits, start, limit);
    match value
    case Err(error) =>
      PassOn(bytes, digits, start, limit, error);
      r := Err(error);
    case Ok(v) => r := Ok(if negative then WrappingNeg(AsI64(v)) else AsI64(v));
  }

  datatype UnsignedError = Rejected(invalid: Invalid) | Negative(value: int)

  /** A minus sign is refused as negative, unless the number is zero or not even an i64. */
  method ParseUnsigned(bytes: seq<Byte>) returns (r: Result<nat, UnsignedError>)
    ensures r.Ok? <==> Unsigned(bytes) != [] && AllDigits(Unsigned(bytes)) && 0 <= SignedValue(bytes) <= U64_MAX
    ensures r.Ok? ==> r.value == SignedValue(bytes)
    ensures r.Err? && r.error.Negative? <==>
            Unsigned(bytes) != [] && AllDigits(Unsigned(bytes)) && I64_MIN <= SignedValue(bytes) < 0
    ensures r.Err? && r.error.Negative? ==> r.error.value == SignedValue(bytes)
    ensures r.Err? && r.error.Rejected? ==>
      Reports(bytes, if bytes != [] && bytes[0] == MINUS then I64_MAX + 1 else U64_MAX, r.error.invalid)
  {
    if bytes == [] {
      return Err(Rejected(Empty));
    }
    if bytes[0] == MINUS {
      var value := Signed(bytes);
      match value {
        case Err(error) => return Err(Rejected(error));
        case Ok(v) => return if v < 0 then Err(Negative(v)) else Ok(0);
      }
    }
    var digits, start := bytes, 0;
    if bytes[0] == PLUS {
      digits, start := bytes[1..], 1;
    }
    var value := Magnitude(digits, start, U64_MAX);
    match value
    case Err(error) =>
      PassOn(bytes, digits, start, U64_MAX, error);
      r := Err(Rejected(error));
    case Ok(v) => r := Ok(v);
  }

  // ---- printing ----

  function Power(n: nat): nat
  {
    if n == 0 then 1 else 10 * Power(n - 1)
  }

  /** The shortest decimal text. */
  function Digits(v: nat): (s: seq<Byte>)
    ensures s != [] && AllDigits(s)
  {
    var last := '0' as int + v % 10;
    if v < 10 then [last] else Digits(v / 10) + [last]
  }

  lemma {:induction false} DigitsCount(v: nat, n: nat)
    requires v < Power(n) && n > 0
    ensures |Digits(v)| <= n
    decreases n
  {
    if v >= 10 {
      DigitsCount(v / 10, n - 1);
    }
  }

  lemma TwentyDigits()
    ensures U64_MAX < Power(20)
  {
    assert Power(5) == 100_000;
    assert Power(10) == 10_000_000_000;
    assert Power(15) == 1_000_000_000_000_000;
  }

  method PutByte(buffer: array<Byte>, index: nat, byte: Byte)
    requires index < buffer.Length
    modifies buffer
    ensures buffer[index..] == [byte] + old(buffer[index + 1..])
    ensures forall k :: 0 <= k < index ==> buffer[k] == old(buffer[k])
  {
    buffer[index] := byte;
  }

  /** Twenty bytes are enough, and the digits end where the buffer ends. */
  method WriteDigits(buffer: array<Byte>, value: nat) returns (index: nat)
    requires buffer.Length == 20 && value <= U64_MAX
    modifies buffer
    ensures index < 20 && buffer[index..] == Digits(value)
    ensures forall k :: 0 <= k < index ==> buffer[k] == old(buffer[k])
  {
    TwentyDigits();
    DigitsCount(value, 20);
    index := 20;
    var rest := value;
    var more := true;
    ghost var left := Digits(value);
    assert left + buffer[20..] == left;
    while more
      invariant index <= 20 && |left| <= index && (index == 20 ==> more)
      invariant if more then left == Digits(rest) else left == []
      invariant Digits(value) == left + buffer[index..]
      invariant forall k :: 0 <= k < index ==> buffer[k] == old(buffer[k])
      decreases more, rest
    {
      ghost var tail := buffer[index..];
      DigitsSplit(rest);
      index := index - 1;
      left := Higher(rest);
      PutByte(buffer, index, '0' as int + rest % 10);
      Assoc(left, [('0' as int + rest % 10) as Byte], tail);
      rest := rest / 10;
      if rest == 0 {
        more := false;
      }
    }
  }

  /** The digits before the last one. */
  ghost function Higher(v: nat): seq<Byte>
  {
    if v / 10 == 0 then [] else Digits(v / 10)
  }

  lemma DigitsSplit(v: nat)
    ensures Digits(v) == Higher(v) + [('0' as int + v % 10) as Byte]
  {
  }

  lemma {:induction false} DigitsRead(v: nat)
    ensures Value(Digits(v)) == v
  {
    var s := Digits(v);
    if v < 10 {
      assert s[..0] == [];
    } else {
      DigitsRead(v / 10);
      assert s[..|s| - 1] == Digits(v / 10);
    }
  }

  /** There is no shorter way: whatever denotes the number without a leading zero is what is printed. */
  lemma {:induction false} DigitsAreShortest(s: seq<Byte>)
    requires s != [] && AllDigits(s) && (|s| > 1 ==> s[0] != '0' as int)
    ensures Digits(Value(s)) == s
    decreases |s|
  {
    var n := |s| - 1;
    if n == 0 {
      assert s[..0] == [];
    } else {
      DigitsAreShortest(s[..n]);
      LeadingDigit(s[..n]);
      assert s == s[..n] + [s[n]];
    }
  }

  lemma {:induction false} LeadingDigit(s: seq<Byte>)
    requires s != [] && AllDigits(s) && s[0] != '0' as int
    ensures Value(s) > 0
    decreases |s|
  {
    if |s| > 1 {
      LeadingDigit(s[..|s| - 1]);
    } else {
      assert s[..0] == [];
    }
  }

  /** What is printed parses back to the same number. */
  method PrintThenParse(value: nat) returns (r: Result<nat, Invalid>)
    requires value <= U64_MAX
    ensures r == Ok(value)
  {
    var buffer := new Byte[20](_ => 0);
    var index := WriteDigits(buffer, value);
    DigitsRead(value);
    r := Magnitude(buffer[index..], 0, U64_MAX);
  }

  function SignedText(v: int): seq<Byte>
  {
    if v < 0 then [MINUS] + Digits(-v) else Digits(v)
  }

  lemma SignedTextReads(v: int)
    ensures Unsigned(SignedText(v)) != [] && AllDigits(Unsigned(SignedText(v))) && SignedValue(SignedText(v)) == v
  {
    var s := SignedText(v);
    if v < 0 {
      assert s[1..] == Digits(-v);
      DigitsRead(-v);
    } else {
      assert IsDigit(s[0]);
      DigitsRead(v);
    }
  }

  method ParsePrinted(v: int) returns (r: Result<int, Invalid>)
    requires I64_MIN <= v <= I64_MAX
    ensures r == Ok(v)
  {
    SignedTextReads(v);
    r := Signed(SignedText(v));
  }
}
