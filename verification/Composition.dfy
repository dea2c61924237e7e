/**
 The canonical composition algorithm of section 3.11 of the Unicode Standard (D115, D117),
 and the reason why remembering one combining class is enough to run it.
 */
module Composition {
  import opened Wrappers
  import opened CanonicalOrder

  /** The Unicode tables are parameters; only `Lawful` says anything about them. */
  datatype Ucd = Ucd(ccc: Classes, compose: (char, char) -> Option<char>, decompose: char -> seq<char>)

  /** Primary composites of a starter are starters (D114 with the composition exclusions). */
  ghost predicate Lawful(u: Ucd)
  {
    forall a, b :: u.ccc(a) == 0 && u.compose(a, b).Some? ==> u.ccc(u.compose(a, b).value) == 0
  }

  function LastStarter(u: Ucd, s: seq<char>): (r: Option<nat>)
    ensures r.Some? ==> r.value < |s| && u.ccc(s[r.value]) == 0
    ensures forall j :: (r.Some? ==> r.value < j) && 0 <= j < |s| ==> u.ccc(s[j]) != 0
  {
    if s == [] then None
    else if u.ccc(s[|s| - 1]) == 0 then Some(|s| - 1)
    else LastStarter(u, s[..|s| - 1])
  }

  /** D115: `c`, following the text `s`, is blocked from the starter at `l`. */
  ghost predicate Blocked(u: Ucd, s: seq<char>, l: nat, c: char)
  {
    exists k: nat :: l < k < |s| && (u.ccc(s[k]) == 0 || u.ccc(s[k]) >= u.ccc(c))
  }

  /** D117, R1 and R2: whether `c` is absorbed by the last starter of `kept`. */
  ghost predicate Joins(u: Ucd, kept: seq<char>, c: char)
  {
    var l := LastStarter(u, kept);
    l.Some? && !Blocked(u, kept, l.value, c) && u.compose(kept[l.value], c).Some?
  }

  /** D117: takes the characters of `rest` one after the other, left to right. */
  ghost function Compose(u: Ucd, kept: seq<char>, rest: seq<char>): (r: seq<char>)
    ensures |r| <= |kept| + |rest|
    decreases |rest|
  {
    if rest == [] then kept
    else if Joins(u, kept, rest[0]) then
      var l := LastStarter(u, kept).value;
      Compose(u, kept[l := u.compose(kept[l], rest[0]).value], rest[1..])
    else Compose(u, kept + [rest[0]], rest[1..])
  }

  /** Normalization of an already decomposed text: D109, then D117. */
  ghost function Normalize(u: Ucd, decomposed: seq<char>): seq<char>
  {
    Compose(u, [], Order(u.ccc, decomposed))
  }

  /**
   What the fast form keeps about the text written so far: where its last starter is, the
   class of its last character, and that classes after that starter never decrease.
   */
  ghost predicate Tracks(u: Ucd, kept: seq<char>, starter: Option<nat>, previous: Class)
  {
    && starter == LastStarter(u, kept)
    && previous == (if kept == [] then 0 else u.ccc(kept[|kept| - 1]))
    && (starter.Some? ==>
          forall i, j :: starter.value < i <= j < |kept| ==> u.ccc(kept[i]) <= u.ccc(kept[j]))
  }

  /** The next character cannot lower the class, unless it is a starter. */
  ghost predicate Ready(u: Ucd, starter: Option<nat>, previous: Class, rest: seq<char>)
  {
    rest == [] || u.ccc(rest[0]) == 0 || starter.None? || previous <= u.ccc(rest[0])
  }

  predicate FastJoins(u: Ucd, kept: seq<char>, starter: Option<nat>, previous: Class, c: char)
    requires starter.Some? ==> starter.value < |kept|
  {
    && starter.Some?
    && (previous == 0 || previous < u.ccc(c))
    && u.compose(kept[starter.value], c).Some?
  }

  lemma LastStarterIs(u: Ucd, s: seq<char>, l: nat)
    requires l < |s| && u.ccc(s[l]) == 0
    requires forall j :: l < j < |s| ==> u.ccc(s[j]) != 0
    ensures LastStarter(u, s) == Some(l)
  {
  }

  /** One remembered class decides D115. */
  lemma PreviousDecidesBlocked(u: Ucd, kept: seq<char>, starter: Option<nat>, previous: Class, c: char)
    requires Tracks(u, kept, starter, previous) && starter.Some?
    ensures Blocked(u, kept, starter.value, c) <==> !(previous == 0 || previous < u.ccc(c))
  {
    var last := |kept| - 1;
    if !(previous == 0 || previous < u.ccc(c)) {
      assert starter.value < last;
    }
  }

  lemma JoinKeepsTracking(u: Ucd, kept: seq<char>, starter: Option<nat>, previous: Class, rest: seq<char>)
    requires Lawful(u) && Tracks(u, kept, starter, previous)
    requires rest != [] && Ordered(u.ccc, rest) && Ready(u, starter, previous, rest)
    requires FastJoins(u, kept, starter, previous, rest[0])
    ensures Joins(u, kept, rest[0])
    ensures Tracks(u, kept[starter.value := u.compose(kept[starter.value], rest[0]).value], starter, previous)
    ensures Ready(u, starter, previous, rest[1..])
  {
    PreviousDecidesBlocked(u, kept, starter, previous, rest[0]);
    var joined := u.compose(kept[starter.value], rest[0]).value;
    LastStarterIs(u, kept[starter.value := joined], starter.value);
    assert !Reorderable(u.ccc, rest, 0);
  }

  lemma KeepKeepsTracking(u: Ucd, kept: seq<char>, starter: Option<nat>, previous: Class, rest: seq<char>)
    requires Tracks(u, kept, starter, previous)
    requires rest != [] && Ordered(u.ccc, rest) && Ready(u, starter, previous, rest)
    requires !FastJoins(u, kept, starter, previous, rest[0])
    ensures !Joins(u, kept, rest[0])
    ensures var c := u.ccc(rest[0]);
            var next := if c == 0 then Some(|kept|) else starter;
            Tracks(u, kept + [rest[0]], next, c) && Ready(u, next, c, rest[1..])
  {
    var c := rest[0];
    if starter.Some? {
      PreviousDecidesBlocked(u, kept, starter, previous, c);
    }
    assert !Reorderable(u.ccc, rest, 0);
    var r := kept + [c];
    assert r[..|kept|] == kept;
    var next := if u.ccc(c) == 0 then Some(|kept|) else starter;
    assert next == LastStarter(u, r);
    if next.Some? {
      forall i, j | next.value < i <= j < |r| ensures u.ccc(r[i]) <= u.ccc(r[j]) {
        if j == |kept| && i < |kept| {
          assert u.ccc(kept[i]) <= u.ccc(kept[|kept| - 1]) == previous;
        }
      }
    }
  }

  lemma OrderedTail(ccc: Classes, s: seq<char>)
    requires s != [] && Ordered(ccc, s)
    ensures Ordered(ccc, s[1..])
  {
    forall i: nat | i + 1 < |s[1..]| ensures !Reorderable(ccc, s[1..], i) {
      assert !Reorderable(ccc, s, i + 1);
    }
  }
}
