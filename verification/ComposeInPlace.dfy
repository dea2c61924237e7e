/**
 The in-place normalization of a decomposed password: one segment after the other is put into
 canonical order (through a scratch tail when it is disordered) and composed towards the front
 of the same buffer.
 */
module ComposeInPlace {
  import opened Wrappers
  import opened CanonicalOrder
  import opened Composition
  import opened SegmentSort

  /** s[start..end] is a whole canonical segment: from a starter to just before the next one. */
  predicate SegmentAt(ccc: Classes, s: seq<char>, start: nat, end: nat)
  {
    && start < end <= |s|
    && (start == 0 || ccc(s[start]) == 0)
    && (forall j :: start < j < end ==> ccc(s[j]) != 0)
    && (end == |s| || ccc(s[end]) == 0)
  }

  /** Every segment with a reorderable pair fits into `room` scratch characters. */
  ghost predicate Admits(ccc: Classes, s: seq<char>, room: nat)
  {
    forall start: nat, end: nat ::
      SegmentAt(ccc, s, start, end) && !Ordered(ccc, s[start..end]) ==> end - start <= room
  }

  lemma SegmentShape(ccc: Classes, s: seq<char>, start: nat, end: nat)
    requires SegmentAt(ccc, s, start, end)
    ensures Segment(ccc, s[start..end])
  {
  }

  /** What is left from `start` on is s[start..end], ordered, and then the ordered rest. */
  ghost predicate Splits(ccc: Classes, s: seq<char>, start: nat, end: nat)
  {
    && start <= end <= |s|
    && Order(ccc, s[start..]) == Order(ccc, s[start..end]) + Order(ccc, s[end..])
  }

  lemma OrderSegment(ccc: Classes, s: seq<char>, start: nat, end: nat)
    requires SegmentAt(ccc, s, start, end)
    ensures Splits(ccc, s, start, end)
  {
    assert s[start..] == s[start..end] + s[end..];
    if end < |s| {
      OrderSplitsAtStarter(ccc, s[start..end], s[end..]);
    } else {
      assert s[end..] == [] && s[start..end] == s[start..];
      assert Order(ccc, s[end..]) == [];
    }
  }

  /** Without room for a disordered segment there is none, so the whole text is in order. */
  lemma NoRoomMeansOrdered(ccc: Classes, s: seq<char>, i: nat)
    requires Admits(ccc, s, 0)
    ensures !Reorderable(ccc, s, i)
  {
    if Reorderable(ccc, s, i) {
      var start, end := Around(ccc, s, i);
      var k: nat := i - start;
      var t := s[start..end];
      assert t[k] == s[i] && t[k + 1] == s[i + 1];
      assert Reorderable(ccc, t, k);
    }
  }

  /** The segment that a reorderable pair lies in. */
  lemma Around(ccc: Classes, s: seq<char>, i: nat) returns (start: nat, end: nat)
    requires Reorderable(ccc, s, i)
    ensures SegmentAt(ccc, s, start, end) && start <= i && i + 1 < end
  {
    start := i;
    while start > 0 && ccc(s[start]) != 0
      invariant start <= i
      invariant forall j :: start < j <= i ==> ccc(s[j]) != 0
    {
      start := start - 1;
    }
    end := i + 2;
    while end < |s| && ccc(s[end]) != 0
      invariant i + 2 <= end <= |s|
      invariant forall j :: i < j < end ==> ccc(s[j]) != 0
    {
      end := end + 1;
    }
  }

  /** Finds the end of the segment at `start`, and whether its classes are in order. */
  method ScanSegment(ccc: Classes, values: array<char>, len: nat, start: nat, whole: bool)
    returns (end: nat, ordered: bool)
    requires start < len <= values.Length
    requires whole ==> Ordered(ccc, values[start..len])
    requires start == 0 || ccc(values[start]) == 0
    ensures start < end <= len
    ensures whole ==> end == len && ordered
    ensures !whole ==> SegmentAt(ccc, values[..len], start, end)
    ensures ordered <==> Ordered(ccc, values[start..end])
  {
    end := if whole then len else start;
    var last: nat := 0;
    ordered := true;
    while end < len
      invariant start <= end <= len
      invariant whole ==> end == len && ordered
      invariant !whole ==> last == (if end == start then 0 else ccc(values[end - 1]))
      invariant !whole ==> forall j :: start < j < end ==> ccc(values[j]) != 0
      invariant !whole ==> (ordered <==> Ordered(ccc, values[start..end]))
    {
      var class_ := ccc(values[end]);
      if class_ == 0 && end != start {
        break;
      }
      OrderedSnoc(ccc, values[start..end], values[end]);
      assert values[start..end + 1] == values[start..end] + [values[end]];
      ordered := ordered && last <= class_;
      last := class_;
      end := end + 1;
    }
  }

  lemma OrderedSnoc(ccc: Classes, s: seq<char>, c: char)
    ensures Ordered(ccc, s + [c]) <==>
            Ordered(ccc, s) && (s == [] || ccc(c) == 0 || ccc(s[|s| - 1]) <= ccc(c))
  {
    var t := s + [c];
    if Ordered(ccc, t) {
      forall i: nat | i + 1 < |s| ensures !Reorderable(ccc, s, i) {
        assert !Reorderable(ccc, t, i);
      }
      if s != [] {
        assert !Reorderable(ccc, t, |s| - 1);
      }
    }
    if Ordered(ccc, s) && (s == [] || ccc(c) == 0 || ccc(s[|s| - 1]) <= ccc(c)) {
      forall i: nat | i + 1 < |t| ensures !Reorderable(ccc, t, i) {
        if i + 1 < |s| {
          assert !Reorderable(ccc, s, i);
        }
      }
    }
  }

  /** Composing `rest` onto the tracked text `kept` still leads to `goal`. */
  ghost predicate Composing(
    u: Ucd, kept: seq<char>, starter: Option<nat>, previous: Class, rest: seq<char>, goal: seq<char>
  )
  {
    && Tracks(u, kept, starter, previous)
    && Ordered(u.ccc, rest) && Ready(u, starter, previous, rest)
    && Compose(u, kept, rest) == goal
  }

  lemma Joined(u: Ucd, kept: seq<char>, starter: Option<nat>, previous: Class, rest: seq<char>, goal: seq<char>)
    requires Lawful(u) && Composing(u, kept, starter, previous, rest, goal) && rest != []
    requires FastJoins(u, kept, starter, previous, rest[0])
    ensures Composing(u, kept[starter.value := u.compose(kept[starter.value], rest[0]).value], starter, previous, rest[1..], goal)
  {
    JoinKeepsTracking(u, kept, starter, previous, rest);
    OrderedTail(u.ccc, rest);
  }

  lemma Kept(u: Ucd, kept: seq<char>, starter: Option<nat>, previous: Class, rest: seq<char>, goal: seq<char>)
    requires Lawful(u) && Composing(u, kept, starter, previous, rest, goal) && rest != []
    requires !FastJoins(u, kept, starter, previous, rest[0])
    ensures Composing(u, kept + [rest[0]], if u.ccc(rest[0]) == 0 then Some(|kept|) else starter, u.ccc(rest[0]), rest[1..], goal)
  {
    KeepKeepsTracking(u, kept, starter, previous, rest);
    OrderedTail(u.ccc, rest);
  }

  method Overwrite(values: array<char>, at: nat, c: char, ghost written: nat)
    requires at < written <= values.Length
    modifies values
    ensures values[..written] == old(values[..written])[at := c]
    ensures forall j :: written <= j < values.Length ==> values[j] == old(values[j])
  {
    values[at] := c;
  }

  method Append(values: array<char>, written: nat, c: char)
    requires written < values.Length
    modifies values
    ensures values[..written + 1] == old(values[..written]) + [c]
    ensures forall j :: written < j < values.Length ==> values[j] == old(values[j])
  {
    values[written] := c;
  }

  /** Joins `ch` to the last starter, or else writes it behind the text values[..written0]. */
  method TakeOne(
    u: Ucd, values: array<char>, ch: char,
    written0: nat, starter0: Option<nat>, previous0: Class, ghost rest: seq<char>, ghost goal: seq<char>
  ) returns (written: nat, starter: Option<nat>, previous: Class)
    requires Lawful(u)
    requires written0 < values.Length && rest != [] && rest[0] == ch
    requires Composing(u, values[..written0], starter0, previous0, rest, goal)
    modifies values
    ensures written0 <= written <= written0 + 1
    ensures Composing(u, values[..written], starter, previous, rest[1..], goal)
    ensures forall j :: written0 < j < values.Length ==> values[j] == old(values[j])
    ensures written == written0 ==> forall j :: written0 <= j < values.Length ==> values[j] == old(values[j])
  {
    written, starter, previous := written0, starter0, previous0;
    ghost var kept := values[..written];
    var joined := None;
    if starter.Some? && (previous == 0 || previous < u.ccc(ch)) {
      joined := u.compose(values[starter.value], ch);
    }
    if joined.Some? {
      Joined(u, kept, starter, previous, rest, goal);
      Overwrite(values, starter.value, joined.value, written);
    } else {
      Kept(u, kept, starter, previous, rest, goal);
      Append(values, written, ch);
      if u.ccc(ch) == 0 {
        starter := Some(written);
      }
      previous := u.ccc(ch);
      written := written + 1;
    }
  }

  /**
   Composes the `count` ordered characters at `from` onto the text values[..written]. Reading
   stays ahead of writing, so nothing is overwritten before it has been read.
   */
  method ComposeRun(
    u: Ucd, values: array<char>, from: nat, count: nat,
    written0: nat, starter0: Option<nat>, previous0: Class, ghost seg: seq<char>, ghost tail: seq<char>
  ) returns (written: nat, starter: Option<nat>, previous: Class)
    requires Lawful(u)
    requires written0 <= from && from + count <= values.Length
    requires Tracks(u, values[..written0], starter0, previous0)
    requires values[from..from + count] == seg
    requires Ordered(u.ccc, seg + tail) && Ready(u, starter0, previous0, seg + tail)
    modifies values
    ensures written <= written0 + count
    ensures Tracks(u, values[..written], starter, previous)
    ensures Ready(u, starter, previous, tail)
    ensures Compose(u, values[..written], tail) == old(Compose(u, values[..written0], seg + tail))
    ensures forall j :: written0 + count <= j < values.Length ==> values[j] == old(values[j])
  {
    ghost var text := seg + tail;
    ghost var goal := Compose(u, values[..written0], text);
    assert forall k :: 0 <= k < count ==> values[from + k] == seg[k] == text[k];
    written, starter, previous := RunOver(u, values, from, count, written0, starter0, previous0, text, goal);
    assert text[count..] == tail;
  }

  method RunOver(
    u: Ucd, values: array<char>, from: nat, count: nat,
    written0: nat, starter0: Option<nat>, previous0: Class, ghost text: seq<char>, ghost goal: seq<char>
  ) returns (written: nat, starter: Option<nat>, previous: Class)
    requires Lawful(u)
    requires written0 <= from && from + count <= values.Length && count <= |text|
    requires forall k :: 0 <= k < count ==> values[from + k] == text[k]
    requires Composing(u, values[..written0], starter0, previous0, text, goal)
    modifies values
    ensures written <= written0 + count
    ensures Composing(u, values[..written], starter, previous, text[count..], goal)
    ensures forall j :: written0 + count <= j < values.Length ==> values[j] == old(values[j])
  {
    written, starter, previous := written0, starter0, previous0;
    var index := 0;
    assert text[0..] == text;
    while index < count
      invariant index <= count && written <= written0 + index
      invariant forall j :: written0 + index <= j < values.Length ==> values[j] == old(values[j])
      invariant Composing(u, values[..written], starter, previous, text[index..], goal)
    {
      assert values[from + index] == text[index] == text[index..][0];
      assert text[index..][1..] == text[index + 1..];
      written, starter, previous :=
        TakeOne(u, values, values[from + index], written, starter, previous, text[index..], goal);
      index := index + 1;
    }
  }

  /**
   Finds the segment at `start` and where its characters can be read in canonical order: in
   place when they already are, otherwise in the scratch area behind values[..len].
   */
  method SelectSource(
    u: Ucd, values: array<char>, len: nat, start: nat, ghost written: nat, ghost input: seq<char>, ghost text: seq<char>
  ) returns (end: nat, source: nat, ghost seg: seq<char>, ghost tail: seq<char>)
    requires written <= start < len <= values.Length && |input| == len
    requires Admits(u.ccc, input, values.Length - len)
    requires Boundary(u.ccc, input, start, values[start..len], text)
    requires values.Length == len ==> start == 0
    modifies values
    ensures start < end <= len
    ensures values.Length == len ==> end == len
    ensures start <= source && source + (end - start) <= values.Length
    ensures values[..written] == old(values[..written])
    ensures values[source..source + (end - start)] == seg
    ensures text == seg + tail
    ensures Boundary(u.ccc, input, end, values[end..len], tail)
  {
    var ordered;
    end, ordered, seg, tail := SegmentBounds(u.ccc, values, len, start, input, text);
    if ordered {
      source := start;
      assert source + (end - start) == end;
    } else {
      ScatterKeeping(u.ccc, values, start, end, len, written);
      source := len;
    }
  }

  /** Scatters into the scratch area and leaves the written and the unread text alone. */
  method ScatterKeeping(ccc: Classes, values: array<char>, start: nat, end: nat, len: nat, ghost written: nat)
    requires written <= start <= end <= len && len + (end - start) <= values.Length
    requires Segment(ccc, values[start..end])
    modifies values
    ensures values[..written] == old(values[..written])
    ensures values[end..len] == old(values[end..len])
    ensures values[len..len + (end - start)] == Order(ccc, old(values[start..end]))
  {
    Scatter(ccc, values, start, end, len);
  }

  /** Scans the segment at `start` and relates it to the original text. */
  method SegmentBounds(
    ccc: Classes, values: array<char>, len: nat, start: nat, ghost input: seq<char>, ghost text: seq<char>
  ) returns (end: nat, ordered: bool, ghost seg: seq<char>, ghost tail: seq<char>)
    requires start < len <= values.Length && |input| == len
    requires Admits(ccc, input, values.Length - len)
    requires Boundary(ccc, input, start, values[start..len], text)
    requires values.Length == len ==> start == 0
    ensures start < end <= len
    ensures values.Length == len ==> end == len && ordered
    ensures text == seg + tail && seg == Order(ccc, values[start..end])
    ensures Boundary(ccc, input, end, values[end..len], tail)
    ensures ordered ==> seg == values[start..end]
    ensures !ordered ==> Segment(ccc, values[start..end]) && end - start <= values.Length - len
  {
    var orderedAll := values.Length == len;
    if orderedAll {
      assert values[start..len] == input;
      WholeIsOrdered(ccc, input);
    }
    ghost var now := values[..len];
    assert now[start..] == input[start..];
    SliceOfInput(input, now, start);
    end, ordered := ScanSegment(ccc, values, len, start, orderedAll);
    SegmentOf(ccc, input, now, start, end, orderedAll);
    assert values[start..end] == input[start..end];
    seg, tail := Order(ccc, input[start..end]), Order(ccc, input[end..]);
    if ordered {
      OrderedIsFixed(ccc, values[start..end]);
    } else {
      SegmentShape(ccc, input, start, end);
    }
  }

  lemma SliceOfInput(input: seq<char>, now: seq<char>, start: nat)
    requires start <= |now| == |input| && now[start..] == input[start..]
    ensures forall j :: start <= j < |now| ==> now[j] == input[j]
  {
    forall j | start <= j < |now| ensures now[j] == input[j] {
      assert now[start..][j - start] == input[start..][j - start];
    }
  }

  /**
   Between two segments: normalizing `input` has come down to composing the ordered rest `text`
   onto the text written so far.
   */
  ghost predicate Progress(
    u: Ucd, kept: seq<char>, text: seq<char>, input: seq<char>, starter: Option<nat>, previous: Class
  )
  {
    && Ordered(u.ccc, text)
    && Tracks(u, kept, starter, previous)
    && Ready(u, starter, previous, text)
    && Compose(u, kept, text) == Normalize(u, input)
  }

  /** Where the segment at `start` ends, and what is left of the input from there on. */
  ghost predicate Boundary(ccc: Classes, input: seq<char>, start: nat, rest: seq<char>, text: seq<char>)
  {
    && start <= |input|
    && (start == 0 || start == |input| || ccc(input[start]) == 0)
    && rest == input[start..] && text == Order(ccc, input[start..])
  }

  /**
   Normalizes values[..len] in place and returns the length of the result. The characters from
   `len` on are scratch space.
   */
  method ComposeAll(u: Ucd, values: array<char>, len: nat) returns (written: nat)
    requires Lawful(u)
    requires len <= values.Length
    requires Admits(u.ccc, values[..len], values.Length - len)
    modifies values
    ensures written <= len
    ensures values[..written] == Normalize(u, old(values[..len]))
  {
    ghost var input := values[..len];
    ghost var text := Order(u.ccc, input);
    var starter: Option<nat>, previous: Class := None, 0;
    written := 0;
    var start := 0;
    OrderIsOrdered(u.ccc, input);
    assert input[0..] == input && values[..0] == [] && values[0..len] == input;
    while start < len
      invariant written <= start <= len
      invariant values.Length == len ==> start == 0 || start == len
      invariant Boundary(u.ccc, input, start, values[start..len], text)
      invariant Progress(u, values[..written], text, input, starter, previous)
    {
      var end, source;
      ghost var seg, tail;
      end, source, seg, tail := SelectSource(u, values, len, start, written, input, text);
      written, starter, previous := ComposeSegment(
        u, values, source, len, start, end, written, starter, previous, seg, tail, input);
      start, text := end, tail;
    }
    assert input[len..] == [];
  }

  /** Composes one ordered segment onto the text before it. */
  method ComposeSegment(
    u: Ucd, values: array<char>, source: nat, len: nat, start: nat, end: nat,
    written0: nat, starter0: Option<nat>, previous0: Class,
    ghost seg: seq<char>, ghost tail: seq<char>, ghost input: seq<char>
  ) returns (written: nat, starter: Option<nat>, previous: Class)
    requires Lawful(u)
    requires written0 <= start < end <= len <= values.Length
    requires start <= source && source + (end - start) <= values.Length
    requires values[source..source + (end - start)] == seg
    requires Progress(u, values[..written0], seg + tail, input, starter0, previous0)
    modifies values
    ensures written <= end
    ensures Progress(u, values[..written], tail, input, starter, previous)
    ensures values[end..len] == old(values[end..len])
  {
    written, starter, previous :=
      ComposeRun(u, values, source, end - start, written0, starter0, previous0, seg, tail);
    OrderedSuffix(u.ccc, seg, tail);
  }

  lemma OrderedSuffix(ccc: Classes, s: seq<char>, t: seq<char>)
    requires Ordered(ccc, s + t)
    ensures Ordered(ccc, t)
  {
    forall i: nat | i + 1 < |t| ensures !Reorderable(ccc, t, i) {
      assert !Reorderable(ccc, s + t, |s| + i);
    }
  }

  lemma WholeIsOrdered(ccc: Classes, s: seq<char>)
    requires Admits(ccc, s, 0)
    ensures Ordered(ccc, s)
  {
    forall i: nat | i + 1 < |s| ensures !Reorderable(ccc, s, i) {
      NoRoomMeansOrdered(ccc, s, i);
    }
  }

  /** Scanning the partly rewritten buffer finds the segments of the original text. */
  lemma SegmentOf(ccc: Classes, input: seq<char>, now: seq<char>, start: nat, end: nat, whole: bool)
    requires |input| == |now| && start < end <= |input|
    requires forall j :: start <= j < |input| ==> now[j] == input[j]
    requires whole ==> start == 0 && end == |input| && Ordered(ccc, input)
    requires !whole ==> SegmentAt(ccc, now, start, end)
    ensures !whole ==> SegmentAt(ccc, input, start, end)
    ensures Splits(ccc, input, start, end)
  {
    if whole {
      assert input[end..] == [] && input[start..] == input[start..end];
    } else {
      OrderSegment(ccc, input, start, end);
    }
  }
}
