/** UTF-8 validity, by section 4 of RFC 3629. */
module Utf8 {
  type Byte = b: int | 0 <= b < 256

  predicate Tail(s: seq<Byte>, i: nat)
  {
    i < |s| && 0x80 <= s[i] < 0xc0
  }

  /** The length of the UTF-8 sequence that `s` starts with, by section 4 of RFC 3629; 0 if there is none. */
  function SequenceLength(s: seq<Byte>): (n: nat)
    ensures n <= |s|
    ensures n == 0 && s != [] ==> s[0] >= 0x80
  {
    if s == [] then 0
    else if s[0] < 0x80 then 1
    else if 0xc2 <= s[0] < 0xe0 && Tail(s, 1) then 2
    else if 0xe0 <= s[0] < 0xf0 && Tail(s, 1) && Tail(s, 2)
      && (s[0] == 0xe0 ==> s[1] >= 0xa0) && (s[0] == 0xed ==> s[1] < 0xa0) then 3
    else if 0xf0 <= s[0] < 0xf5 && Tail(s, 1) && Tail(s, 2) && Tail(s, 3)
      && (s[0] == 0xf0 ==> s[1] >= 0x90) && (s[0] == 0xf4 ==> s[1] < 0x90) then 4
    else 0
  }

  /** The length of the longest valid prefix. */
  function ValidUpTo(s: seq<Byte>): (n: nat)
    ensures n <= |s|
    ensures n < |s| ==> s[n] >= 0x80
    decreases |s|
  {
    var n := SequenceLength(s);
    if n == 0 then 0 else n + ValidUpTo(s[n..])
  }

  predicate IsUtf8(s: seq<Byte>)
  {
    ValidUpTo(s) == |s|
  }
}
