/**
 SASLprep (RFC 4013) as the SCRAM password normalizer runs it: a counting pass that decides
 whether the password can be prepared and how much scratch space that takes, a second pass
 that decomposes, and the in-place normalization. A password that RFC 4013 rejects is used
 unprepared.
 */
module Password {
  import opened Sequences
  import opened Wrappers
  import opened CanonicalOrder
  import opened Composition
  import opened ComposeInPlace

  const USIZE_MAX: nat := 0xFFFF_FFFF_FFFF_FFFF

  datatype Error = PasswordCapacity | Allocation

  /** The RFC 3454 and Unicode tables. */
  datatype Tables = Tables(
    ucd: Ucd,
    space: char -> bool,
    nothing: char -> bool,
    prohibited: char -> bool,
    unassigned: char -> bool,
    right: char -> bool,
    left: char -> bool)

  /** Section 2.1 of RFC 4013: other spaces become U+0020, some characters vanish. */
  function Mapped(t: Tables, value: seq<char>): seq<char>
  {
    if value == [] then []
    else
      var n := |value| - 1;
      var ch := if t.space(value[n]) then ' ' else value[n];
      Mapped(t, value[..n]) + if t.nothing(ch) then [] else [ch]
  }

  function Decomposed(t: Tables, mapped: seq<char>): seq<char>
  {
    if mapped == [] then []
    else
      var n := |mapped| - 1;
      Decomposed(t, mapped[..n]) + t.ucd.decompose(mapped[n])
  }

  /** What one character is mapped to: a space to U+0020, what is commonly mapped to nothing to nothing. */
  lemma MappedOne(t: Tables, ch: char)
    ensures t.space(ch) && !t.nothing(' ') ==> Mapped(t, [ch]) == [' ']
    ensures t.space(ch) && t.nothing(' ') ==> Mapped(t, [ch]) == []
    ensures !t.space(ch) && t.nothing(ch) ==> Mapped(t, [ch]) == []
    ensures !t.space(ch) && !t.nothing(ch) ==> Mapped(t, [ch]) == [ch]
  {
    assert [ch][..0] == [];
  }

  /** Text is mapped character by character, in order. */
  lemma {:induction false} MappedParts(t: Tables, a: seq<char>, b: seq<char>)
    ensures Mapped(t, a + b) == Mapped(t, a) + Mapped(t, b)
  {
    if b == [] {
      assert a + b == a;
    } else {
      MappedParts(t, a, b[..|b| - 1]);
      assert (a + b)[..|a + b| - 1] == a + b[..|b| - 1];
    }
  }

  /** What the mapping leaves has nothing in it that should be gone, and no space but U+0020. */
  lemma {:induction false} MappedIsClean(t: Tables, value: seq<char>)
    ensures forall ch <- Mapped(t, value) :: !t.nothing(ch) && (t.space(ch) ==> ch == ' ')
  {
    if value != [] {
      MappedIsClean(t, value[..|value| - 1]);
    }
  }

  /** Text is decomposed character by character, in order. */
  lemma {:induction false} DecomposedParts(t: Tables, a: seq<char>, b: seq<char>)
    ensures Decomposed(t, a + b) == Decomposed(t, a) + Decomposed(t, b)
    ensures forall ch :: Decomposed(t, [ch]) == t.ucd.decompose(ch)
  {
    forall ch ensures Decomposed(t, [ch]) == t.ucd.decompose(ch) {
      assert [ch][..0] == [];
    }
    if b == [] {
      assert a + b == a;
    } else {
      DecomposedParts(t, a, b[..|b| - 1]);
      assert (a + b)[..|a + b| - 1] == a + b[..|b| - 1];
    }
  }

  /** Section 2.3 and 2.5 of RFC 4013. */
  ghost predicate Refused(t: Tables, mapped: seq<char>)
  {
    exists ch <- mapped :: t.prohibited(ch) || t.unassigned(ch)
  }

  /** Section 6 of RFC 3454: right-to-left text has no left-to-right part and both ends are right-to-left. */
  ghost predicate BidiViolated(t: Tables, mapped: seq<char>)
    requires mapped != []
  {
    && (exists ch <- mapped :: t.right(ch))
    && ((exists ch <- mapped :: t.left(ch)) || !t.right(mapped[0]) || !t.right(mapped[|mapped| - 1]))
  }

  ghost predicate Unprepared(t: Tables, mapped: seq<char>)
  {
    mapped == [] || Refused(t, mapped) || BidiViolated(t, mapped)
  }

  ghost function Prepared(t: Tables, value: seq<char>): seq<char>
  {
    var mapped := Mapped(t, value);
    if Unprepared(t, mapped) then value else Normalize(t.ucd, Decomposed(t, mapped))
  }

  /** `scratch` is the length of the longest disordered segment, and zero without any. */
  ghost predicate Longest(ccc: Classes, text: seq<char>, scratch: nat)
  {
    && Admits(ccc, text, scratch)
    && (scratch > 0 ==>
          exists start: nat, end: nat ::
            SegmentAt(ccc, text, start, end) && !Ordered(ccc, text[start..end]) && end - start == scratch)
  }

  lemma LongestIsZeroIffOrdered(ccc: Classes, text: seq<char>, scratch: nat)
    requires Longest(ccc, text, scratch)
    ensures scratch == 0 <==> Ordered(ccc, text)
  {
    if scratch == 0 {
      WholeIsOrdered(ccc, text);
    } else {
      var start: nat, end: nat :|
        SegmentAt(ccc, text, start, end) && !Ordered(ccc, text[start..end]) && end - start == scratch;
      var i: nat :| i + 1 < end - start && Reorderable(ccc, text[start..end], i);
      assert Reorderable(ccc, text, start + i);
    }
  }

  lemma LongestIsUnique(ccc: Classes, text: seq<char>, a: nat, b: nat)
    requires Longest(ccc, text, a) && Longest(ccc, text, b)
    ensures a == b
  {
    NoLonger(ccc, text, a, b);
    NoLonger(ccc, text, b, a);
  }

  lemma NoLonger(ccc: Classes, text: seq<char>, a: nat, b: nat)
    requires Longest(ccc, text, a) && Longest(ccc, text, b)
    ensures a <= b
  {
    if a > 0 {
      var start: nat, end: nat :|
        SegmentAt(ccc, text, start, end) && !Ordered(ccc, text[start..end]) && end - start == a;
    }
  }

  /** The decomposition and its scratch tail are more than the allocator gives out. */
  ghost predicate NoRoom(ccc: Classes, text: seq<char>, grants: nat)
  {
    exists scratch: nat :: Longest(ccc, text, scratch) && |text| + scratch > grants
  }

  /** Why a password cannot be prepared: its decomposition cannot be counted, or not be allocated. */
  ghost function Failure(t: Tables, value: seq<char>, grants: nat): Option<Error>
  {
    var mapped := Mapped(t, value);
    var text := Decomposed(t, mapped);
    if Unprepared(t, mapped) then None
    else if |text| > USIZE_MAX then Some(PasswordCapacity)
    else if NoRoom(t.ucd.ccc, text, grants) then Some(Allocation)
    else None
  }

  /** The segments that a later starter has already closed. */
  ghost predicate ClosedFit(ccc: Classes, text: seq<char>, scratch: nat)
  {
    forall start: nat, end: nat ::
      SegmentAt(ccc, text, start, end) && end < |text| && !Ordered(ccc, text[start..end]) ==> end - start <= scratch
  }

  ghost predicate ClosedReaches(ccc: Classes, text: seq<char>, scratch: nat)
  {
    scratch > 0 ==>
      exists start: nat, end: nat ::
        SegmentAt(ccc, text, start, end) && end < |text| && !Ordered(ccc, text[start..end]) && end - start == scratch
  }

  /** text[start..] is the segment that is still open. */
  ghost predicate Open(ccc: Classes, text: seq<char>, start: nat)
  {
    && start <= |text| && (text == [] ==> start == 0) && (text != [] ==> start < |text|)
    && (start == 0 || ccc(text[start]) == 0)
    && forall j :: start < j < |text| ==> ccc(text[j]) != 0
  }

  lemma OpenIsOnly(ccc: Classes, text: seq<char>, start: nat, at: nat)
    requires Open(ccc, text, start) && SegmentAt(ccc, text, at, |text|)
    ensures at == start
  {
  }

  /** The bound that closing the segment text[start..] leads to. */
  ghost function Raised(ccc: Classes, text: seq<char>, start: nat, scratch: nat): nat
    requires start <= |text|
  {
    if !Ordered(ccc, text[start..]) && |text| - start > scratch then |text| - start else scratch
  }

  lemma CloseFits(ccc: Classes, text: seq<char>, start: nat, scratch: nat, c: char)
    requires Open(ccc, text, start) && ccc(c) == 0 && ClosedFit(ccc, text, scratch)
    ensures ClosedFit(ccc, text + [c], Raised(ccc, text, start, scratch))
  {
    var t := text + [c];
    forall a: nat, b: nat | SegmentAt(ccc, t, a, b) && b < |t| && !Ordered(ccc, t[a..b])
      ensures b - a <= Raised(ccc, text, start, scratch)
    {
      assert t[a..b] == text[a..b];
      assert forall j :: a < j < b ==> text[j] == t[j];
      assert SegmentAt(ccc, text, a, b);
      if b == |text| {
        OpenIsOnly(ccc, text, start, a);
        assert text[a..b] == text[start..];
      }
    }
  }

  lemma CloseReaches(ccc: Classes, text: seq<char>, start: nat, scratch: nat, c: char)
    requires Open(ccc, text, start) && ccc(c) == 0 && ClosedReaches(ccc, text, scratch)
    ensures ClosedReaches(ccc, text + [c], Raised(ccc, text, start, scratch))
  {
    var t := text + [c];
    if Raised(ccc, text, start, scratch) > scratch {
      assert t[start..|text|] == text[start..] && SegmentAt(ccc, t, start, |text|);
    } else {
      ExtendReaches(ccc, text, scratch, c);
    }
  }

  /** A segment that was closed is the same segment of a longer text. */
  lemma SameSegment(ccc: Classes, text: seq<char>, c: char, a: nat, b: nat)
    requires a <= b < |text|
    ensures (text + [c])[a..b] == text[a..b]
    ensures SegmentAt(ccc, text + [c], a, b) <==> SegmentAt(ccc, text, a, b)
  {
    var t := text + [c];
    assert forall j :: 0 <= j < |text| ==> t[j] == text[j];
  }

  lemma ExtendFits(ccc: Classes, text: seq<char>, scratch: nat, c: char)
    requires ccc(c) != 0 && ClosedFit(ccc, text, scratch)
    ensures ClosedFit(ccc, text + [c], scratch)
  {
    var t := text + [c];
    forall a: nat, b: nat | SegmentAt(ccc, t, a, b) && b < |t| && !Ordered(ccc, t[a..b])
      ensures b - a <= scratch
    {
      assert b < |text|;
      SameSegment(ccc, text, c, a, b);
    }
  }

  lemma ExtendReaches(ccc: Classes, text: seq<char>, scratch: nat, c: char)
    requires ClosedReaches(ccc, text, scratch)
    ensures ClosedReaches(ccc, text + [c], scratch)
  {
    if scratch > 0 {
      var a: nat, b: nat :|
        SegmentAt(ccc, text, a, b) && b < |text| && !Ordered(ccc, text[a..b]) && b - a == scratch;
      SameSegment(ccc, text, c, a, b);
    }
  }

  /** The last segment is closed by the end of the text. */
  lemma CloseText(ccc: Classes, text: seq<char>, start: nat, scratch: nat)
    requires Open(ccc, text, start)
    requires ClosedFit(ccc, text, scratch) && ClosedReaches(ccc, text, scratch)
    ensures Longest(ccc, text, Raised(ccc, text, start, scratch))
  {
    var next := Raised(ccc, text, start, scratch);
    forall a: nat, b: nat | SegmentAt(ccc, text, a, b) && !Ordered(ccc, text[a..b])
      ensures b - a <= next
    {
      if b == |text| {
        OpenIsOnly(ccc, text, start, a);
        assert text[a..b] == text[start..];
      }
    }
    if next > scratch {
      assert text[start..|text|] == text[start..] && SegmentAt(ccc, text, start, |text|);
    }
  }

  /** What the counters of the first pass say about the text counted so far. */
  ghost predicate Surveyed(ccc: Classes, text: seq<char>, start: nat, last: Class, disordered: bool, scratch: nat)
  {
    && Open(ccc, text, start)
    && last == (if text == [] then 0 else ccc(text[|text| - 1]))
    && (disordered <==> !Ordered(ccc, text[start..]))
    && ClosedFit(ccc, text, scratch) && ClosedReaches(ccc, text, scratch)
  }

  lemma StarterStep(ccc: Classes, text: seq<char>, start: nat, last: Class, disordered: bool, scratch: nat, c: char)
    requires Surveyed(ccc, text, start, last, disordered, scratch) && ccc(c) == 0
    ensures Surveyed(ccc, text + [c], |text|, 0, false, Raised(ccc, text, start, scratch))
  {
    CloseFits(ccc, text, start, scratch, c);
    CloseReaches(ccc, text, start, scratch, c);
    assert (text + [c])[|text|..] == [c];
  }

  lemma MarkStep(ccc: Classes, text: seq<char>, start: nat, last: Class, disordered: bool, scratch: nat, c: char)
    requires Surveyed(ccc, text, start, last, disordered, scratch) && ccc(c) != 0
    ensures Surveyed(ccc, text + [c], start, ccc(c), disordered || last > ccc(c), scratch)
  {
    ExtendFits(ccc, text, scratch, c);
    ExtendReaches(ccc, text, scratch, c);
    OrderedSnoc(ccc, text[start..], c);
    assert (text + [c])[start..] == text[start..] + [c];
  }

  /** The counters that the first pass updates for every decomposed character. */
  class Tally {
    ghost var text: seq<char>
    var length: Option<nat>
    var start: nat
    var last: Class
    var disordered: bool
    var scratch: nat

    ghost predicate Valid(ccc: Classes)
      reads this
    {
      && (length.None? <==> |text| > USIZE_MAX)
      && (length.Some? ==>
            length.value == |text| && Surveyed(ccc, text, start, last, disordered, scratch))
    }

    constructor (ccc: Classes)
      ensures Valid(ccc) && text == []
    {
      text, length, start, last, disordered, scratch := [], Some(0), 0, 0, false, 0;
    }

    /** A starter closes the segment before it and opens the next one. */
    method CountStarter(ccc: Classes, ch: char, len: nat)
      requires len == |text| && ccc(ch) == 0 && Surveyed(ccc, text, start, last, disordered, scratch)
      modifies this`start, this`disordered, this`scratch
      ensures Surveyed(ccc, text + [ch], start, 0, disordered, scratch)
    {
      StarterStep(ccc, text, start, last, disordered, scratch, ch);
      if disordered && len - start > scratch {
        scratch := len - start;
      }
      start := len;
      disordered := false;
    }

    method Count(ccc: Classes, ch: char)
      requires Valid(ccc)
      modifies this
      ensures Valid(ccc) && text == old(text) + [ch]
    {
      if length.Some? {
        var len, class_ := length.value, ccc(ch);
        if class_ == 0 {
          CountStarter(ccc, ch, len);
        } else {
          MarkStep(ccc, text, start, last, disordered, scratch, ch);
          disordered := disordered || last > class_;
        }
        last := class_;
        length := if len == USIZE_MAX then None else Some(len + 1);
      }
      text := text + [ch];
    }

    method CountAll(ccc: Classes, chars: seq<char>)
      requires Valid(ccc)
      modifies this
      ensures Valid(ccc) && text == old(text) + chars
    {
      var i := 0;
      while i < |chars|
        invariant i <= |chars|
        invariant Valid(ccc) && text == old(text) + chars[..i]
      {
        Count(ccc, chars[i]);
        assert chars[..i + 1] == chars[..i] + [chars[i]];
        i := i + 1;
      }
    }

    /** The scratch length that the whole text needs. */
    method Finish(ccc: Classes) returns (needed: nat)
      requires Valid(ccc) && length.Some?
      ensures Longest(ccc, text, needed)
    {
      CloseText(ccc, text, start, scratch);
      needed := if disordered && length.value - start > scratch then length.value - start else scratch;
    }
  }

  method MapAll(t: Tables, value: seq<char>) returns (mapped: seq<char>)
    ensures mapped == Mapped(t, value)
    ensures forall ch <- mapped :: !t.nothing(ch) && (t.space(ch) ==> ch == ' ')
  {
    MappedIsClean(t, value);
    mapped := [];
    var i := 0;
    while i < |value|
      invariant i <= |value| && mapped == Mapped(t, value[..i])
    {
      assert value[..i + 1][..i] == value[..i];
      var ch := if t.space(value[i]) then ' ' else value[i];
      if !t.nothing(ch) {
        mapped := mapped + [ch];
      }
      i := i + 1;
    }
    assert value[..|value|] == value;
  }

  /** What the first pass knows of the first `i` characters. */
  ghost predicate Noted(t: Tables, mapped: seq<char>, i: nat, lastRight: bool, right: bool, left: bool)
    requires i <= |mapped|
  {
    && (forall k :: 0 <= k < i ==> !t.prohibited(mapped[k]) && !t.unassigned(mapped[k]))
    && lastRight == (i > 0 && t.right(mapped[i - 1]))
    && (right <==> exists k :: 0 <= k < i && t.right(mapped[k]))
    && (left <==> exists k :: 0 <= k < i && t.left(mapped[k]))
  }

  lemma NotedNext(t: Tables, mapped: seq<char>, i: nat, lastRight: bool, right: bool, left: bool)
    requires i < |mapped| && Noted(t, mapped, i, lastRight, right, left)
    requires !t.prohibited(mapped[i]) && !t.unassigned(mapped[i])
    ensures var ch := mapped[i];
            Noted(t, mapped, i + 1, t.right(ch), right || t.right(ch), left || t.left(ch))
  {
  }

  lemma NotedAll(t: Tables, mapped: seq<char>, lastRight: bool, right: bool, left: bool)
    requires mapped != [] && Noted(t, mapped, |mapped|, lastRight, right, left)
    ensures !Refused(t, mapped)
    ensures BidiViolated(t, mapped) <==> right && (left || !t.right(mapped[0]) || !lastRight)
  {
  }

  /**
   The first pass. `proceed` is false exactly when the password must stay as it is; otherwise
   the tally has counted the whole decomposition.
   */
  method Survey(t: Tables, mapped: seq<char>, tally: Tally) returns (proceed: bool)
    requires mapped != [] && tally.Valid(t.ucd.ccc) && tally.text == []
    modifies tally
    ensures proceed <==> !Unprepared(t, mapped)
    ensures tally.Valid(t.ucd.ccc)
    ensures proceed ==> tally.text == Decomposed(t, mapped)
  {
    var lastRight, right, left := false, false, false;
    var i := 0;
    while i < |mapped|
      invariant i <= |mapped| && Noted(t, mapped, i, lastRight, right, left)
      invariant tally.Valid(t.ucd.ccc) && tally.text == Decomposed(t, mapped[..i])
    {
      var ch := mapped[i];
      if t.prohibited(ch) || t.unassigned(ch) {
        assert ch in mapped;
        return false;
      }
      NotedNext(t, mapped, i, lastRight, right, left);
      lastRight := t.right(ch);
      right := right || lastRight;
      left := left || t.left(ch);
      tally.CountAll(t.ucd.ccc, t.ucd.decompose(ch));
      assert mapped[..i + 1][..i] == mapped[..i];
      i := i + 1;
    }
    assert mapped[..|mapped|] == mapped;
    NotedAll(t, mapped, lastRight, right, left);
    return !(right && (left || !t.right(mapped[0]) || !lastRight));
  }

  method Append(values: array<char>, len: nat, chars: seq<char>)
    requires len + |chars| <= values.Length
    modifies values
    ensures values[..len + |chars|] == old(values[..len]) + chars
  {
    var k := 0;
    while k < |chars|
      invariant k <= |chars|
      invariant forall j :: 0 <= j < len ==> values[j] == old(values[j])
      invariant forall j :: 0 <= j < k ==> values[len + j] == chars[j]
    {
      values[len + k] := chars[k];
      k := k + 1;
    }
  }

  /** The second pass writes the decomposition into the front of the buffer. */
  method Fill(t: Tables, mapped: seq<char>, values: array<char>)
    requires |Decomposed(t, mapped)| <= values.Length
    modifies values
    ensures values[..|Decomposed(t, mapped)|] == Decomposed(t, mapped)
  {
    var i, len := 0, 0;
    while i < |mapped|
      invariant i <= |mapped| && len == |Decomposed(t, mapped[..i])| <= values.Length
      invariant values[..len] == Decomposed(t, mapped[..i])
    {
      DecomposedPrefix(t, mapped, i + 1);
      assert mapped[..i + 1][..i] == mapped[..i];
      var chars := t.ucd.decompose(mapped[i]);
      Append(values, len, chars);
      len := len + |chars|;
      i := i + 1;
    }
    assert mapped[..|mapped|] == mapped;
  }

  lemma {:induction false} DecomposedPrefix(t: Tables, mapped: seq<char>, i: nat)
    requires i <= |mapped|
    ensures |Decomposed(t, mapped[..i])| <= |Decomposed(t, mapped)|
    decreases |mapped| - i
  {
    if i == |mapped| {
      assert mapped[..i] == mapped;
    } else {
      DecomposedPrefix(t, mapped, i + 1);
      assert mapped[..i + 1][..i] == mapped[..i];
    }
  }

  /** Allocates, fills and composes. */
  method Normalized(t: Tables, mapped: seq<char>, len: nat, scratch: nat, grants: nat) returns (r: Result<seq<char>, Error>)
    requires Lawful(t.ucd) && grants < USIZE_MAX && len == |Decomposed(t, mapped)|
    requires Longest(t.ucd.ccc, Decomposed(t, mapped), scratch)
    ensures r == if NoRoom(t.ucd.ccc, Decomposed(t, mapped), grants) then Err(Allocation)
                 else Ok(Normalize(t.ucd, Decomposed(t, mapped)))
  {
    forall other: nat | Longest(t.ucd.ccc, Decomposed(t, mapped), other) ensures other == scratch {
      LongestIsUnique(t.ucd.ccc, Decomposed(t, mapped), other, scratch);
    }
    var capacity := if len + scratch > USIZE_MAX then USIZE_MAX else len + scratch;
    if capacity > grants {
      return Err(Allocation);
    }
    var values := new char[capacity](_ => ' ');
    Fill(t, mapped, values);
    var written := ComposeAll(t.ucd, values, len);
    return Ok(values[..written]);
  }

  /**
   Prepares `value`. `grants` is what the allocator gives out at most, in characters: the
   request for the decomposition and its scratch tail succeeds exactly up to that size.
   */
  method Prepare(t: Tables, value: seq<char>, grants: nat) returns (r: Result<seq<char>, Error>)
    requires Lawful(t.ucd) && grants < USIZE_MAX
    ensures r == if Failure(t, value, grants).Some? then Err(Failure(t, value, grants).value) else Ok(Prepared(t, value))
    ensures var mapped := Mapped(t, value);
            var text := Decomposed(t, mapped);
            && (Unprepared(t, mapped) ==> r == Ok(value))
            && (!Unprepared(t, mapped) && |text| > 0xffff_ffff_ffff_ffff ==> r == Err(PasswordCapacity))
            && (!Unprepared(t, mapped) && |text| <= 0xffff_ffff_ffff_ffff ==>
                  r == if NoRoom(t.ucd.ccc, text, grants) then Err(Allocation) else Ok(Normalize(t.ucd, text)))
  {
    var mapped := MapAll(t, value);
    if mapped == [] {
      return Ok(value);
    }
    var ccc := t.ucd.ccc;
    var tally := new Tally(ccc);
    var proceed := Survey(t, mapped, tally);
    if !proceed {
      return Ok(value);
    }
    if tally.length.None? {
      return Err(PasswordCapacity);
    }
    var len := tally.length.value;
    var scratch := tally.Finish(ccc);
    r := Normalized(t, mapped, len, scratch, grants);
  }

  // ---- the ASCII shortcut ----

  predicate Plain(ch: char)
  {
    ' ' <= ch <= '~'
  }

  predicate AllPlain(value: seq<char>)
  {
    forall k :: 0 <= k < |value| ==> Plain(value[k])
  }

  /** What the tables say about printable ASCII. */
  ghost predicate AsciiLaws(t: Tables)
  {
    && (forall ch | Plain(ch) ::
          && !t.space(ch) && !t.nothing(ch) && t.ucd.decompose(ch) == [ch] && t.ucd.ccc(ch) == 0)
    && forall a, b | Plain(a) && Plain(b) :: t.ucd.compose(a, b).None?
  }

  lemma PlainMore(t: Tables, init: seq<char>, ch: char)
    requires AsciiLaws(t) && Plain(ch)
    ensures Mapped(t, init + [ch]) == Mapped(t, init) + [ch]
    ensures Decomposed(t, init + [ch]) == Decomposed(t, init) + [ch]
    ensures Order(t.ucd.ccc, init + [ch]) == Order(t.ucd.ccc, init) + [ch]
  {
    var all := init + [ch];
    assert all[..|all| - 1] == init && all[|all| - 1] == ch;
    OrderSnoc(t.ucd.ccc, init, ch);
  }

  lemma {:induction false} PlainMapsToItself(t: Tables, value: seq<char>)
    requires AsciiLaws(t) && AllPlain(value)
    ensures Mapped(t, value) == value && Decomposed(t, value) == value
    ensures Order(t.ucd.ccc, value) == value
  {
    if value != [] {
      var init, ch := value[..|value| - 1], value[|value| - 1];
      Last(value);
      PlainMapsToItself(t, init);
      PlainMore(t, init, ch);
    }
  }

  lemma {:induction false} PlainNeverComposes(t: Tables, kept: seq<char>, rest: seq<char>)
    requires AsciiLaws(t)
    requires AllPlain(kept) && AllPlain(rest)
    ensures Compose(t.ucd, kept, rest) == kept + rest
    decreases |rest|
  {
    if rest != [] {
      PlainNeverComposes(t, kept + [rest[0]], rest[1..]);
      assert Plain(rest[0]);
      assert kept + [rest[0]] + rest[1..] == kept + rest;
    } else {
      assert kept + rest == kept;
    }
  }

  /** Printable ASCII is its own preparation, so skipping the tables changes nothing. */
  lemma PlainIsPrepared(t: Tables, value: seq<char>)
    requires AsciiLaws(t) && AllPlain(value)
    ensures Prepared(t, value) == value
  {
    PlainMapsToItself(t, value);
    PlainNeverComposes(t, [], value);
  }

  /** The fast path gives the preparation, and cannot fail where the tables would have been consulted. */
  method TryPrepare(t: Tables, value: seq<char>, grants: nat) returns (r: Result<seq<char>, Error>)
    requires Lawful(t.ucd) && AsciiLaws(t) && grants < USIZE_MAX
    ensures r == if !AllPlain(value) && Failure(t, value, grants).Some? then Err(Failure(t, value, grants).value)
                 else Ok(Prepared(t, value))
    ensures (forall ch <- value :: ' ' <= ch <= '~') ==> r == Ok(value)
  {
    var i := 0;
    while i < |value| && Plain(value[i])
      invariant i <= |value| && AllPlain(value[..i])
    {
      assert value[..i + 1] == value[..i] + [value[i]];
      i := i + 1;
    }
    if i == |value| {
      assert value[..i] == value;
      PlainIsPrepared(t, value);
      return Ok(value);
    }
    assert value[i] in value && !Plain(value[i]);
    r := Prepare(t, value, grants);
  }
}
