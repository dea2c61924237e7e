/** UTF-8 encoding of a prepared password into a buffer of exactly the measured size. */
module TextEncoding {
  import opened Sequences
  import opened Utf8

  function EncodeChar(c: char): (r: seq<Byte>)
    ensures 1 <= |r| <= 4
  {
    var v := c as int;
    // Groups of six bits, from the right.
    var x := v / 0x40;
    var y := x / 0x40;
    var z := y / 0x40;
    if v < 0x80 then [v]
    else if v < 0x800 then [0xc0 + x, 0x80 + v % 0x40]
    else if v < 0x1_0000 then [0xe0 + y, 0x80 + x % 0x40, 0x80 + v % 0x40]
    else [0xf0 + z, 0x80 + y % 0x40, 0x80 + x % 0x40, 0x80 + v % 0x40]
  }

  function EncodeAll(chars: seq<char>): seq<Byte>
  {
    if chars == [] then [] else EncodeAll(chars[..|chars| - 1]) + EncodeChar(chars[|chars| - 1])
  }

  /** The code point of one sequence. */
  function CodePoint(s: seq<Byte>): int
    requires 1 <= |s| <= 4
  {
    if |s| == 1 then s[0]
    else if |s| == 2 then Shift(Low(s[0], 0xc0), s[1])
    else if |s| == 3 then Shift(Shift(Low(s[0], 0xe0), s[1]), s[2])
    else Shift(Shift(Shift(Low(s[0], 0xf0), s[1]), s[2]), s[3])
  }

  function Low(b: Byte, mark: int): int
  {
    b - mark
  }

  function Shift(high: int, b: Byte): int
  {
    high * 0x40 + Low(b, 0x80)
  }

  /** The code points of text up to its first fault. */
  function Decode(s: seq<Byte>): seq<int>
    decreases |s|
  {
    var n := SequenceLength(s);
    if n == 0 || n > 4 then [] else [CodePoint(s[..n])] + Decode(s[n..])
  }

  function CodePoints(chars: seq<char>): (r: seq<int>)
    ensures |r| == |chars| && forall i :: 0 <= i < |r| ==> r[i] == chars[i] as int
  {
    seq(|chars|, i requires 0 <= i < |chars| => chars[i] as int)
  }

  lemma CharReads(c: char)
    ensures CodePoint(EncodeChar(c)) == c as int
  {
  }

  /** Every character becomes one well-formed sequence, whatever follows. */
  lemma CharIsSequence(c: char, rest: seq<Byte>)
    ensures SequenceLength(EncodeChar(c) + rest) == |EncodeChar(c)|
  {
  }

  lemma {:induction false} EncodeFirst(chars: seq<char>)
    requires chars != []
    ensures EncodeAll(chars) == EncodeChar(chars[0]) + EncodeAll(chars[1..])
    decreases |chars|
  {
    var n := |chars| - 1;
    if n == 0 {
      assert chars[..0] == [] && chars[1..] == [];
      assert EncodeAll(chars[..0]) + EncodeChar(chars[0]) == EncodeChar(chars[0]) + EncodeAll(chars[1..]);
    } else {
      EncodeFirst(chars[..n]);
      assert chars[..n][1..] == chars[1..][..n - 1];
      assert chars[1..][n - 1] == chars[n];
      Assoc(EncodeChar(chars[0]), EncodeAll(chars[1..][..n - 1]), EncodeChar(chars[n]));
    }
  }

  /** The output is valid UTF-8 and decodes to the same characters. */
  lemma {:induction false} EncodedDecodes(chars: seq<char>)
    ensures IsUtf8(EncodeAll(chars)) && Decode(EncodeAll(chars)) == CodePoints(chars)
    decreases |chars|
  {
    if chars != [] {
      var s, first, rest := EncodeAll(chars), EncodeChar(chars[0]), EncodeAll(chars[1..]);
      EncodeFirst(chars);
      CharIsSequence(chars[0], rest);
      CharReads(chars[0]);
      EncodedDecodes(chars[1..]);
      assert s[..|first|] == first && s[|first|..] == rest;
      assert CodePoints(chars) == [chars[0] as int] + CodePoints(chars[1..]);
    }
  }

  /** A well-formed sequence is the encoding of one character, and of no surrogate. */
  lemma SequenceIsChar(s: seq<Byte>) returns (c: char)
    requires SequenceLength(s) > 0
    ensures EncodeChar(c) == s[..SequenceLength(s)]
  {
    var n := SequenceLength(s);
    var v := CodePoint(s[..n]);
    IsScalar(v, s, n);
    c := v as char;
    Sextets(v, s, n);
  }

  lemma IsScalar(v: int, s: seq<Byte>, n: nat)
    requires 0 < n == SequenceLength(s) && v == CodePoint(s[..n])
    ensures 0 <= v < 0xd800 || 0xe000 <= v < 0x11_0000
    ensures n == 1 <==> v < 0x80
    ensures n <= 2 <==> v < 0x800
    ensures n <= 3 <==> v < 0x1_0000
  {
  }

  /** The groups of six bits of a code point are what the bytes carry. */
  lemma Sextets(v: int, s: seq<Byte>, n: nat)
    requires 0 < n == SequenceLength(s) && v == CodePoint(s[..n])
    ensures n == 2 ==> v / 0x40 == s[0] - 0xc0 && v % 0x40 == s[1] - 0x80
    ensures n == 3 ==> v / 0x40 / 0x40 == s[0] - 0xe0 && v / 0x40 % 0x40 == s[1] - 0x80 && v % 0x40 == s[2] - 0x80
    ensures n == 4 ==>
      && v / 0x40 / 0x40 / 0x40 == s[0] - 0xf0 && v / 0x40 / 0x40 % 0x40 == s[1] - 0x80
      && v / 0x40 % 0x40 == s[2] - 0x80 && v % 0x40 == s[3] - 0x80
  {
  }

  lemma Prepended(c: char, rest: seq<char>, s: seq<Byte>, n: nat)
    requires n <= |s| && EncodeChar(c) == s[..n] && EncodeAll(rest) == s[n..]
    ensures EncodeAll([c] + rest) == s
  {
    EncodeFirst([c] + rest);
    assert ([c] + rest)[1..] == rest;
    assert s[..n] + s[n..] == s;
  }

  lemma {:induction false} DecodeWhole(s: seq<Byte>) returns (chars: seq<char>)
    requires IsUtf8(s)
    ensures EncodeAll(chars) == s
    decreases |s|
  {
    if s == [] {
      chars := [];
    } else {
      var n := SequenceLength(s);
      NextSequence(s, n);
      var c := SequenceIsChar(s);
      var rest := DecodeWhole(s[n..]);
      chars := [c] + rest;
      Prepended(c, rest, s, n);
    }
  }

  /** Text is valid UTF-8 if and only if it is the encoding of some characters. */
  lemma Utf8IsEncoding(s: seq<Byte>)
    ensures IsUtf8(s) <==> exists chars :: EncodeAll(chars) == s
  {
    if IsUtf8(s) {
      var chars := DecodeWhole(s);
    }
    if chars :| EncodeAll(chars) == s {
      EncodedDecodes(chars);
    }
  }

  lemma SequenceOfPrefix(s: seq<Byte>, k: nat)
    requires k <= |s|
    ensures SequenceLength(s[..k]) == if SequenceLength(s) <= k then SequenceLength(s) else 0
  {
  }

  lemma NextSequence(s: seq<Byte>, n: nat)
    requires n == SequenceLength(s)
    ensures n == 0 ==> ValidUpTo(s) == 0 && (IsUtf8(s) <==> s == [])
    ensures n > 0 ==> ValidUpTo(s) == n + ValidUpTo(s[n..]) && (IsUtf8(s) <==> IsUtf8(s[n..]))
  {
  }

  /** The valid prefix is valid. */
  lemma {:induction false} PrefixIsValid(s: seq<Byte>)
    ensures IsUtf8(s[..ValidUpTo(s)])
    decreases |s|
  {
    var n := SequenceLength(s);
    NextSequence(s, n);
    if n > 0 {
      PrefixIsValid(s[n..]);
      PrefixFrom(s, n, ValidUpTo(s[n..]));
    } else {
      assert s[..0] == [];
    }
  }

  /** A prefix is valid when what follows its first sequence is. */
  lemma PrefixFrom(s: seq<Byte>, n: nat, k: nat)
    requires 0 < n == SequenceLength(s) && n + k <= |s|
    ensures IsUtf8(s[..n + k]) <==> IsUtf8(s[n..][..k])
  {
    SequenceOfPrefix(s, n + k);
    NextSequence(s[..n + k], n);
    DropTake(s, n, k);
  }

  /** And no longer prefix is. */
  lemma {:induction false} NoLongerPrefix(s: seq<Byte>, k: nat)
    requires k <= |s| && IsUtf8(s[..k])
    ensures k <= ValidUpTo(s)
    decreases |s|
  {
    var n := SequenceLength(s);
    NextSequence(s, n);
    if 0 < n <= k {
      PrefixFrom(s, n, k - n);
      NoLongerPrefix(s[n..], k - n);
    } else {
      SequenceOfPrefix(s, k);
      NextSequence(s[..k], 0);
    }
  }

  method Measure(chars: seq<char>) returns (bytes: nat)
    ensures bytes == |EncodeAll(chars)|
  {
    bytes := 0;
    for i := 0 to |chars|
      invariant bytes == |EncodeAll(chars[..i])|
    {
      assert chars[..i + 1][..i] == chars[..i];
      bytes := bytes + |EncodeChar(chars[i])|;
    }
    assert chars[..|chars|] == chars;
  }

  method Copy(output: array<Byte>, cursor: nat, encoded: seq<Byte>)
    requires cursor + |encoded| <= output.Length
    modifies output
    ensures output[..cursor + |encoded|] == old(output[..cursor]) + encoded
  {
    for i := 0 to |encoded|
      invariant forall k :: 0 <= k < i ==> output[cursor + k] == encoded[k]
      invariant forall k :: 0 <= k < cursor ==> output[k] == old(output[k])
    {
      output[cursor + i] := encoded[i];
    }
  }

  lemma EncodedNext(chars: seq<char>, i: nat)
    requires i < |chars|
    ensures EncodeAll(chars[..i + 1]) == EncodeAll(chars[..i]) + EncodeChar(chars[i])
    ensures |EncodeAll(chars[..i + 1])| <= |EncodeAll(chars)|
  {
    assert chars[..i + 1][..i] == chars[..i];
    PrefixFits(chars, i + 1);
  }

  lemma {:induction false} PrefixFits(chars: seq<char>, i: nat)
    requires i <= |chars|
    ensures |EncodeAll(chars[..i])| <= |EncodeAll(chars)|
    decreases |chars| - i
  {
    if i == |chars| {
      assert chars[..i] == chars;
    } else {
      assert chars[..i + 1][..i] == chars[..i];
      PrefixFits(chars, i + 1);
    }
  }

  /** Every fragment lands inside the measured allocation, and together they fill it. */
  method Encode(chars: seq<char>) returns (output: array<Byte>)
    ensures fresh(output) && output[..] == EncodeAll(chars) && IsUtf8(output[..])
  {
    var bytes := Measure(chars);
    output := new Byte[bytes](_ => 0);
    var cursor := 0;
    for i := 0 to |chars|
      invariant cursor == |EncodeAll(chars[..i])| <= output.Length == |EncodeAll(chars)|
      invariant output[..cursor] == EncodeAll(chars[..i])
    {
      var encoded := EncodeChar(chars[i]);
      EncodedNext(chars, i);
      Copy(output, cursor, encoded);
      cursor := cursor + |encoded|;
    }
    assert chars[..|chars|] == chars;
    EncodedDecodes(chars);
  }
}
