/**
 The counting sort that puts one disordered segment into canonical order, and why its buckets
 are the insertion order of CanonicalOrder.
 */
module SegmentSort {
  import opened CanonicalOrder
  import opened Sequences

  const CLASSES: nat := 256

  function Bucket(ccc: Classes, s: seq<char>, c: nat): (r: seq<char>)
    ensures |r| <= |s|
  {
    if s == [] then []
    else
      var n := |s| - 1;
      Bucket(ccc, s[..n], c) + if ccc(s[n]) == c then [s[n]] else []
  }

  /** The buckets of the classes in lo..hi, one after the other. */
  function Buckets(ccc: Classes, s: seq<char>, lo: nat, hi: nat): (r: seq<char>)
    decreases hi - lo, s
  {
    if lo >= hi then [] else Buckets(ccc, s, lo, hi - 1) + Bucket(ccc, s, hi - 1)
  }

  lemma {:induction false} BucketClass(ccc: Classes, s: seq<char>, c: nat, k: nat)
    requires k < |Bucket(ccc, s, c)|
    ensures ccc(Bucket(ccc, s, c)[k]) == c
  {
    var n := |s| - 1;
    if k < |Bucket(ccc, s[..n], c)| {
      BucketClass(ccc, s[..n], c, k);
    }
  }

  lemma {:induction false} BucketsClass(ccc: Classes, s: seq<char>, lo: nat, hi: nat, k: nat)
    requires k < |Buckets(ccc, s, lo, hi)|
    ensures lo <= ccc(Buckets(ccc, s, lo, hi)[k]) < hi
    decreases hi - lo
  {
    var before := |Buckets(ccc, s, lo, hi - 1)|;
    if k < before {
      BucketsClass(ccc, s, lo, hi - 1, k);
    } else {
      BucketClass(ccc, s, hi - 1, k - before);
    }
  }

  lemma {:induction false} BucketsSplit(ccc: Classes, s: seq<char>, lo: nat, mid: nat, hi: nat)
    requires lo <= mid <= hi
    ensures Buckets(ccc, s, lo, hi) == Buckets(ccc, s, lo, mid) + Buckets(ccc, s, mid, hi)
    decreases hi - mid
  {
    if mid < hi {
      BucketsSplit(ccc, s, lo, mid, hi - 1);
      Assoc(Buckets(ccc, s, lo, mid), Buckets(ccc, s, mid, hi - 1), Bucket(ccc, s, hi - 1));
    } else {
      NoMore(Buckets(ccc, s, lo, mid));
    }
  }

  lemma BucketSnoc(ccc: Classes, s: seq<char>, x: char, c: nat)
    ensures Bucket(ccc, s + [x], c) == Bucket(ccc, s, c) + if ccc(x) == c then [x] else []
  {
    assert (s + [x])[..|s|] == s;
  }

  lemma {:induction false} BucketsMiss(ccc: Classes, s: seq<char>, x: char, lo: nat, hi: nat)
    requires !(lo <= ccc(x) < hi)
    ensures Buckets(ccc, s + [x], lo, hi) == Buckets(ccc, s, lo, hi)
    decreases hi - lo
  {
    if lo < hi {
      BucketsMiss(ccc, s, x, lo, hi - 1);
      BucketSnoc(ccc, s, x, hi - 1);
    }
  }

  /** One more character goes to the end of its own bucket. */
  lemma BucketsSnoc(ccc: Classes, s: seq<char>, x: char, c: nat)
    requires c == ccc(x)
    ensures Buckets(ccc, s + [x], 0, CLASSES) ==
            Buckets(ccc, s, 0, c + 1) + [x] + Buckets(ccc, s, c + 1, CLASSES)
    ensures Buckets(ccc, s, 0, CLASSES) == Buckets(ccc, s, 0, c + 1) + Buckets(ccc, s, c + 1, CLASSES)
  {
    BucketsSplit(ccc, s, 0, c + 1, CLASSES);
    BucketsSplit(ccc, s + [x], 0, c + 1, CLASSES);
    BucketsMiss(ccc, s, x, c + 1, CLASSES);
    BucketsMiss(ccc, s, x, 0, c);
    BucketSnoc(ccc, s, x, c);
    assert Buckets(ccc, s + [x], 0, c + 1) == Buckets(ccc, s, 0, c + 1) + [x];
  }

  lemma {:induction false} InsertBefore(ccc: Classes, d: seq<char>, e: seq<char>, x: char)
    requires ccc(x) > 0
    requires d == [] || ccc(d[|d| - 1]) <= ccc(x)
    requires forall k :: 0 <= k < |e| ==> ccc(e[k]) > ccc(x)
    ensures Insert(ccc, d + e, x) == d + [x] + e
    decreases |e|
  {
    if e == [] {
      assert d + e == d;
      assert d + [x] + e == d + [x];
    } else {
      var n := |e| - 1;
      InsertBefore(ccc, d, e[..n], x);
      LastOfBoth(d, e);
      LastOfBoth(d + [x], e);
    }
  }

  lemma LastOfBoth(d: seq<char>, e: seq<char>)
    requires e != []
    ensures var n := |e| - 1;
            (d + e)[..|d + e| - 1] == d + e[..n] && (d + e)[|d + e| - 1] == e[n] && d + e == d + e[..n] + [e[n]]
  {
  }

  /** A canonical segment: only its first character may be a starter. */
  predicate Segment(ccc: Classes, s: seq<char>)
  {
    forall j :: 0 < j < |s| ==> ccc(s[j]) != 0
  }

  lemma {:induction false} BucketsAreOrder(ccc: Classes, s: seq<char>)
    requires Segment(ccc, s)
    ensures Buckets(ccc, s, 0, CLASSES) == Order(ccc, s)
  {
    if s == [] {
      NoBuckets(ccc, s, 0, CLASSES);
    } else {
      var n := |s| - 1;
      assert Segment(ccc, s[..n]);
      BucketsAreOrder(ccc, s[..n]);
      assert s == s[..n] + [s[n]];
      OrderSnoc(ccc, s[..n], s[n]);
      BucketsInsert(ccc, s[..n], s[n]);
    }
  }

  lemma BucketsInsert(ccc: Classes, s: seq<char>, x: char)
    requires s != [] ==> ccc(x) > 0
    ensures Buckets(ccc, s + [x], 0, CLASSES) == Insert(ccc, Buckets(ccc, s, 0, CLASSES), x)
  {
    var c: nat := ccc(x);
    BucketsSnoc(ccc, s, x, c);
    var d := Buckets(ccc, s, 0, c + 1);
    var e := Buckets(ccc, s, c + 1, CLASSES);
    if s == [] {
      NoBuckets(ccc, s, 0, c + 1);
      NoBuckets(ccc, s, c + 1, CLASSES);
      NoBuckets(ccc, s, 0, CLASSES);
    } else {
      if d != [] {
        BucketsClass(ccc, s, 0, c + 1, |d| - 1);
      }
      forall k | 0 <= k < |e| ensures ccc(e[k]) > ccc(x) {
        BucketsClass(ccc, s, c + 1, CLASSES, k);
      }
      InsertBefore(ccc, d, e, x);
    }
  }

  lemma {:induction false} NoBuckets(ccc: Classes, s: seq<char>, lo: nat, hi: nat)
    requires s == []
    ensures Buckets(ccc, s, lo, hi) == []
    decreases hi - lo
  {
    if lo < hi {
      NoBuckets(ccc, s, lo, hi - 1);
    }
  }

  lemma {:induction false} BucketsLength(ccc: Classes, s: seq<char>)
    ensures |Buckets(ccc, s, 0, CLASSES)| == |s|
    decreases |s|
  {
    if s == [] {
      NoBuckets(ccc, s, 0, CLASSES);
    } else {
      var n := |s| - 1;
      BucketsLength(ccc, s[..n]);
      assert s == s[..n] + [s[n]];
      BucketsSnoc(ccc, s[..n], s[n], ccc(s[n]));
    }
  }

  /** Where the bucket of class `c` begins. */
  ghost function Offset(ccc: Classes, s: seq<char>, c: nat): nat
  {
    |Buckets(ccc, s, 0, c)|
  }

  lemma OffsetsGrow(ccc: Classes, s: seq<char>, c: nat, d: nat)
    requires c < d
    ensures Offset(ccc, s, c) + |Bucket(ccc, s, c)| == Offset(ccc, s, c + 1) <= Offset(ccc, s, d)
  {
    BucketsSplit(ccc, s, 0, c + 1, d);
  }

  lemma {:induction false} BucketOfPrefix(ccc: Classes, s: seq<char>, i: nat, c: nat)
    requires i <= |s|
    ensures |Bucket(ccc, s[..i], c)| <= |Bucket(ccc, s, c)|
    decreases |s| - i
  {
    if i < |s| {
      BucketOfPrefix(ccc, s, i + 1, c);
      assert s[..i + 1] == s[..i] + [s[i]];
      BucketSnoc(ccc, s[..i], s[i], c);
    } else {
      assert s[..i] == s;
    }
  }

  // ---- the three loops of the sort, step by step ----

  /** After `i` characters each entry is the number of characters of its class. */
  ghost predicate Counted(ccc: Classes, s: seq<char>, i: nat, counts: seq<nat>)
  {
    && i <= |s| && |counts| == CLASSES
    && forall c: nat | c < CLASSES :: counts[c] == |Bucket(ccc, s[..i], c)|
  }

  lemma CountStep(ccc: Classes, s: seq<char>, i: nat, counts: seq<nat>)
    requires i < |s| && Counted(ccc, s, i, counts)
    ensures Counted(ccc, s, i + 1, counts[ccc(s[i]) := counts[ccc(s[i])] + 1])
  {
    assert s[..i + 1] == s[..i] + [s[i]];
    forall c: nat | c < CLASSES
      ensures |Bucket(ccc, s[..i + 1], c)| == |Bucket(ccc, s[..i], c)| + if ccc(s[i]) == c then 1 else 0
    {
      BucketSnoc(ccc, s[..i], s[i], c);
    }
  }

  /** The next free slot of every class after `i` characters have been scattered. */
  ghost predicate Placed(ccc: Classes, s: seq<char>, i: nat, positions: seq<nat>)
  {
    && i <= |s| && |positions| == CLASSES
    && forall c: nat | c < CLASSES :: positions[c] == Offset(ccc, s, c) + |Bucket(ccc, s[..i], c)|
  }

  lemma PlaceStep(ccc: Classes, s: seq<char>, i: nat, positions: seq<nat>)
    requires i < |s| && Placed(ccc, s, i, positions)
    ensures Placed(ccc, s, i + 1, positions[ccc(s[i]) := positions[ccc(s[i])] + 1])
  {
    assert s[..i + 1] == s[..i] + [s[i]];
    forall c: nat | c < CLASSES
      ensures |Bucket(ccc, s[..i + 1], c)| == |Bucket(ccc, s[..i], c)| + if ccc(s[i]) == c then 1 else 0
    {
      BucketSnoc(ccc, s[..i], s[i], c);
    }
  }

  /** The part of the scratch area that class `c` has filled after `i` characters. */
  ghost predicate Filled(ccc: Classes, s: seq<char>, i: nat, scratch: seq<char>, c: nat)
    requires i <= |s|
  {
    var at := Offset(ccc, s, c);
    var bucket := Bucket(ccc, s[..i], c);
    at + |bucket| <= |scratch| && scratch[at..at + |bucket|] == bucket
  }

  ghost predicate AllFilled(ccc: Classes, s: seq<char>, i: nat, scratch: seq<char>)
  {
    i <= |s| && forall c: nat | c < CLASSES :: Filled(ccc, s, i, scratch, c)
  }

  /** The slot that the next character goes to lies inside its own bucket. */
  lemma SlotInBucket(ccc: Classes, s: seq<char>, i: nat, k: nat)
    requires i < |s| && k == ccc(s[i])
    ensures Offset(ccc, s, k) + |Bucket(ccc, s[..i], k)| < Offset(ccc, s, k + 1) <= |s|
  {
    assert s[..i + 1] == s[..i] + [s[i]];
    BucketSnoc(ccc, s[..i], s[i], k);
    BucketOfPrefix(ccc, s, i + 1, k);
    OffsetsGrow(ccc, s, k, CLASSES);
    BucketsLength(ccc, s);
  }

  lemma FillOther(ccc: Classes, s: seq<char>, i: nat, scratch: seq<char>, c: nat)
    requires i < |s| == |scratch| && c < CLASSES && c != ccc(s[i])
    requires Filled(ccc, s, i, scratch, c)
    ensures var k := ccc(s[i]);
            var at := Offset(ccc, s, k) + |Bucket(ccc, s[..i], k)|;
            at < |s| && Filled(ccc, s, i + 1, scratch[at := s[i]], c)
  {
    var k: nat := ccc(s[i]);
    var at := Offset(ccc, s, k) + |Bucket(ccc, s[..i], k)|;
    SlotInBucket(ccc, s, i, k);
    assert s[..i + 1] == s[..i] + [s[i]];
    BucketSnoc(ccc, s[..i], s[i], c);
    BucketOfPrefix(ccc, s, i, c);
    var from := Offset(ccc, s, c);
    var b := Bucket(ccc, s[..i], c);
    if c < k { OffsetsGrow(ccc, s, c, k); } else { OffsetsGrow(ccc, s, k, c); }
    assert scratch[at := s[i]][from..from + |b|] == scratch[from..from + |b|];
  }

  lemma FillOwn(ccc: Classes, s: seq<char>, i: nat, scratch: seq<char>)
    requires i < |s| == |scratch|
    requires Filled(ccc, s, i, scratch, ccc(s[i]))
    ensures var k := ccc(s[i]);
            var at := Offset(ccc, s, k) + |Bucket(ccc, s[..i], k)|;
            at < |s| && Filled(ccc, s, i + 1, scratch[at := s[i]], k)
  {
    var k: nat := ccc(s[i]);
    SlotInBucket(ccc, s, i, k);
    assert s[..i + 1] == s[..i] + [s[i]];
    BucketSnoc(ccc, s[..i], s[i], k);
    var from := Offset(ccc, s, k);
    var b := Bucket(ccc, s[..i], k);
    assert scratch[from + |b| := s[i]][from..from + |b| + 1] == scratch[from..from + |b|] + [s[i]];
  }

  lemma FillStep(ccc: Classes, s: seq<char>, i: nat, scratch: seq<char>, at: nat)
    requires i < |s| == |scratch| && AllFilled(ccc, s, i, scratch)
    requires at == Offset(ccc, s, ccc(s[i])) + |Bucket(ccc, s[..i], ccc(s[i]))|
    ensures at < |s| && AllFilled(ccc, s, i + 1, scratch[at := s[i]])
  {
    SlotInBucket(ccc, s, i, ccc(s[i]));
    var after := scratch[at := s[i]];
    var next := i + 1;
    forall c: nat | c < CLASSES ensures Filled(ccc, s, next, after, c) {
      assert Filled(ccc, s, i, scratch, c);
      if c == ccc(s[i]) { FillOwn(ccc, s, i, scratch); } else { FillOther(ccc, s, i, scratch, c); }
    }
  }

  lemma NothingFilled(ccc: Classes, s: seq<char>, scratch: seq<char>)
    requires |scratch| == |s|
    ensures AllFilled(ccc, s, 0, scratch)
  {
    forall c: nat | c < CLASSES ensures Filled(ccc, s, 0, scratch, c) {
      OffsetsGrow(ccc, s, c, CLASSES);
      BucketsLength(ccc, s);
      assert s[..0] == [];
    }
  }

  lemma PrefixGrows(s: seq<char>, at: nat, to: nat)
    requires at <= to <= |s|
    ensures s[..to] == s[..at] + s[at..to]
  {
  }

  lemma OneBucketMore(ccc: Classes, s: seq<char>, scratch: seq<char>, c: nat)
    requires AllFilled(ccc, s, |s|, scratch) && c < CLASSES && Offset(ccc, s, c) <= |scratch|
    requires scratch[..Offset(ccc, s, c)] == Buckets(ccc, s, 0, c)
    ensures Offset(ccc, s, c + 1) <= |scratch|
    ensures scratch[..Offset(ccc, s, c + 1)] == Buckets(ccc, s, 0, c + 1)
  {
    assert s[..|s|] == s;
    assert Filled(ccc, s, |s|, scratch, c);
    var at := Offset(ccc, s, c);
    PrefixGrows(scratch, at, at + |Bucket(ccc, s, c)|);
  }

  lemma {:induction false} FilledIsBuckets(ccc: Classes, s: seq<char>, scratch: seq<char>, hi: nat)
    requires hi <= CLASSES && AllFilled(ccc, s, |s|, scratch)
    ensures Offset(ccc, s, hi) <= |scratch|
    ensures scratch[..Offset(ccc, s, hi)] == Buckets(ccc, s, 0, hi)
  {
    if hi > 0 {
      FilledIsBuckets(ccc, s, scratch, hi - 1);
      OneBucketMore(ccc, s, scratch, hi - 1);
    }
  }

  lemma FilledIsOrder(ccc: Classes, s: seq<char>, scratch: seq<char>)
    requires |scratch| == |s| && AllFilled(ccc, s, |s|, scratch) && Segment(ccc, s)
    ensures scratch == Order(ccc, s)
  {
    FilledIsBuckets(ccc, s, scratch, CLASSES);
    BucketsLength(ccc, s);
    BucketsAreOrder(ccc, s);
    assert scratch[..|s|] == scratch;
  }

  lemma NothingCounted(ccc: Classes, s: seq<char>, counts: seq<nat>)
    requires |counts| == CLASSES && forall c :: 0 <= c < CLASSES ==> counts[c] == 0
    ensures Counted(ccc, s, 0, counts)
  {
    assert s[..0] == [];
  }

  lemma AllCounted(ccc: Classes, s: seq<char>, counts: seq<nat>, k: nat)
    requires Counted(ccc, s, |s|, counts) && k < CLASSES
    ensures counts[k] == |Bucket(ccc, s, k)|
    ensures Offset(ccc, s, k + 1) == Offset(ccc, s, k) + counts[k]
  {
    assert s[..|s|] == s;
    OffsetsGrow(ccc, s, k, k + 1);
  }

  lemma OffsetsPlace(ccc: Classes, s: seq<char>, positions: seq<nat>)
    requires |positions| == CLASSES
    requires forall c: nat | c < CLASSES :: positions[c] == Offset(ccc, s, c)
    ensures Placed(ccc, s, 0, positions)
  {
    assert s[..0] == [];
  }

  method CountOne(ccc: Classes, counts: array<nat>, ch: char, ghost s: seq<char>, ghost i: nat)
    requires i < |s| && s[i] == ch && counts.Length == CLASSES && Counted(ccc, s, i, counts[..])
    modifies counts
    ensures Counted(ccc, s, i + 1, counts[..])
  {
    ghost var before := counts[..];
    CountStep(ccc, s, i, before);
    counts[ccc(ch)] := counts[ccc(ch)] + 1;
    assert counts[..] == before[ccc(ch) := before[ccc(ch)] + 1];
  }

  method CountClasses(ccc: Classes, values: array<char>, start: nat, end: nat) returns (counts: array<nat>)
    requires start <= end <= values.Length
    ensures fresh(counts) && counts.Length == CLASSES
    ensures Counted(ccc, values[start..end], end - start, counts[..])
  {
    counts := new nat[CLASSES](_ => 0);
    ghost var s := values[start..end];
    NothingCounted(ccc, s, counts[..]);
    var index := start;
    while index < end
      invariant start <= index <= end
      invariant Counted(ccc, s, index - start, counts[..])
    {
      CountOne(ccc, counts, values[index], s, index - start);
      index := index + 1;
    }
  }

  /** The first `k` counts are turned into offsets. */
  ghost predicate Summed(ccc: Classes, s: seq<char>, slots: seq<nat>, counts: seq<nat>, k: nat)
  {
    && |slots| == CLASSES == |counts| && k <= CLASSES
    && (forall c: nat | c < k :: slots[c] == Offset(ccc, s, c))
    && (forall c: nat | k <= c < CLASSES :: slots[c] == counts[c])
  }

  lemma SumStep(ccc: Classes, s: seq<char>, slots: seq<nat>, counts: seq<nat>, k: nat)
    requires k < CLASSES && Summed(ccc, s, slots, counts, k) && Counted(ccc, s, |s|, counts)
    ensures Summed(ccc, s, slots[k := Offset(ccc, s, k)], counts, k + 1)
    ensures Offset(ccc, s, k + 1) == Offset(ccc, s, k) + slots[k]
  {
    AllCounted(ccc, s, counts, k);
  }

  method SumUp(ccc: Classes, ghost s: seq<char>, positions: array<nat>, ghost counts: seq<nat>)
    requires positions.Length == CLASSES && Counted(ccc, s, |s|, counts) && Summed(ccc, s, positions[..], counts, 0)
    modifies positions
    ensures Summed(ccc, s, positions[..], counts, CLASSES)
  {
    var offset, k := 0, 0;
    while k < positions.Length
      invariant k <= CLASSES && offset == Offset(ccc, s, k)
      invariant Summed(ccc, s, positions[..], counts, k)
    {
      ghost var before := positions[..];
      SumStep(ccc, s, before, counts, k);
      var next := offset + positions[k];
      positions[k] := offset;
      assert positions[..] == before[k := offset];
      offset := next;
      k := k + 1;
    }
  }

  /** Turns the counts into the offsets at which the buckets begin. */
  method PrefixSums(ccc: Classes, ghost s: seq<char>, positions: array<nat>)
    requires Counted(ccc, s, |s|, positions[..])
    modifies positions
    ensures Placed(ccc, s, 0, positions[..])
  {
    ghost var counts := positions[..];
    SumUp(ccc, s, positions, counts);
    OffsetsPlace(ccc, s, positions[..]);
  }

  /** Writes the next character of the segment to the next free slot of its class. */
  method PlaceOne(
    ccc: Classes, values: array<char>, positions: array<nat>, ch: char, base: nat, ghost s: seq<char>, ghost i: nat
  )
    requires i < |s| && ch == s[i] && base + |s| <= values.Length
    requires Placed(ccc, s, i, positions[..]) && AllFilled(ccc, s, i, values[base..base + |s|])
    modifies values, positions
    ensures forall j :: 0 <= j < base ==> values[j] == old(values[j])
    ensures Placed(ccc, s, i + 1, positions[..]) && AllFilled(ccc, s, i + 1, values[base..base + |s|])
  {
    var at := positions[ccc(ch)];
    ghost var before, slots := values[base..base + |s|], positions[..];
    FillStep(ccc, s, i, before, at);
    PlaceStep(ccc, s, i, slots);
    values[base + at] := ch;
    assert values[base..base + |s|] == before[at := ch];
    positions[ccc(ch)] := at + 1;
    assert positions[..] == slots[ccc(ch) := at + 1];
  }

  /** Writes every character of the segment. */
  method PlaceAll(
    ccc: Classes, values: array<char>, positions: array<nat>, start: nat, end: nat, base: nat, ghost s: seq<char>
  )
    requires start <= end <= base && base + |s| <= values.Length
    requires |s| == end - start && forall j :: 0 <= j < |s| ==> values[start + j] == s[j]
    requires Placed(ccc, s, 0, positions[..]) && AllFilled(ccc, s, 0, values[base..base + |s|])
    modifies values, positions
    ensures forall j :: 0 <= j < base ==> values[j] == old(values[j])
    ensures AllFilled(ccc, s, |s|, values[base..base + |s|])
  {
    var index := start;
    while index < end
      invariant start <= index <= end
      invariant forall j :: 0 <= j < base ==> values[j] == old(values[j])
      invariant Placed(ccc, s, index - start, positions[..])
      invariant AllFilled(ccc, s, index - start, values[base..base + |s|])
    {
      assert values[start + (index - start)] == s[index - start];
      PlaceOne(ccc, values, positions, values[index], base, s, index - start);
      index := index + 1;
    }
  }

  /**
   Scatters values[start..end] into the scratch area that begins at `base`. Each scratch slot
   up to the length of the segment is written exactly once, in class order and stably.
   */
  method Scatter(ccc: Classes, values: array<char>, start: nat, end: nat, base: nat)
    requires start <= end <= base && base + (end - start) <= values.Length
    requires Segment(ccc, values[start..end])
    modifies values
    ensures forall j :: 0 <= j < base ==> values[j] == old(values[j])
    ensures values[base..base + (end - start)] == Order(ccc, old(values[start..end]))
  {
    ghost var s := values[start..end];
    var positions := CountClasses(ccc, values, start, end);
    PrefixSums(ccc, s, positions);
    NothingFilled(ccc, s, values[base..base + |s|]);
    PlaceAll(ccc, values, positions, start, end, base, s);
    FilledIsOrder(ccc, s, values[base..base + |s|]);
  }
}
