/** One failure slot per connection lane, and a cached pointer to the lowest that is occupied. */
module FailureIndex {
  import opened Wrappers

  /** The lowest occupied lane at or after `from`. */
  function Lowest<F>(lanes: seq<Option<F>>, from: nat): (r: Option<nat>)
    requires from <= |lanes|
    ensures r.Some? ==> from <= r.value < |lanes| && lanes[r.value].Some?
    ensures r.Some? ==> forall i :: from <= i < r.value ==> lanes[i].None?
    ensures r.None? <==> forall i :: from <= i < |lanes| ==> lanes[i].None?
    decreases |lanes| - from
  {
    if from == |lanes| then None else if lanes[from].Some? then Some(from) else Lowest(lanes, from + 1)
  }

  /** Being the lowest is decided by what is below. */
  lemma LowestIs<F>(lanes: seq<Option<F>>, at: nat)
    requires at < |lanes| && lanes[at].Some? && forall i :: 0 <= i < at ==> lanes[i].None?
    ensures Lowest(lanes, 0) == Some(at)
  {
    assert Lowest(lanes, 0).Some? ==> lanes[Lowest(lanes, 0).value].Some?;
  }

  class Failures<F> {
    const lanes: array<Option<F>>
    /** Stands for the pointer to the payload in that lane. */
    var first: Option<nat>

    ghost predicate Valid()
      reads this, lanes
    {
      first == Lowest(lanes[..], 0)
    }

    constructor (count: nat)
      ensures Valid() && fresh(lanes) && lanes.Length == count
      ensures forall i :: 0 <= i < count ==> lanes[i].None?
    {
      lanes := new Option<F>[count](_ => None);
      first := None;
    }

    /** The failure a full scan would find first. */
    method Cause() returns (r: Option<F>)
      requires Valid()
      ensures r.None? <==> forall i :: 0 <= i < lanes.Length ==> lanes[i].None?
      ensures r.Some? ==> exists i :: 0 <= i < lanes.Length && lanes[i] == r && forall k :: 0 <= k < i ==> lanes[k].None?
    {
      r := if first.Some? then lanes[first.value] else None;
    }

    method Record(position: nat, failure: F) returns (previous: Option<F>)
      requires Valid() && position < lanes.Length
      modifies this, lanes
      ensures Valid() && previous == old(lanes[position])
      ensures lanes[..] == old(lanes[..])[position := Some(failure)]
    {
      previous := lanes[position];
      lanes[position] := Some(failure);
      first := if first.Some? && first.value < position then first else Some(position);
      LowestIs(lanes[..], first.value);
    }

    /** Rescans only past the cleared lane, and only when it held the cached one. */
    method Clear(position: nat) returns (previous: Option<F>)
      requires Valid() && position < lanes.Length
      modifies this, lanes
      ensures Valid() && previous == old(lanes[position])
      ensures lanes[..] == old(lanes[..])[position := None]
    {
      var cached := first == Some(position) && lanes[position].Some?;
      if cached {
        first := None;
      }
      previous := lanes[position];
      lanes[position] := None;
      if cached {
        var at := position + 1;
        while at < lanes.Length && lanes[at].None?
          invariant position < at <= lanes.Length
          invariant forall i :: 0 <= i < at ==> lanes[i].None?
        {
          at := at + 1;
        }
        first := if at < lanes.Length then Some(at) else None;
        if at < lanes.Length {
          LowestIs(lanes[..], at);
        }
      } else if first.Some? {
        LowestIs(lanes[..], first.value);
      }
    }
  }

  datatype Step<F> = Record(position: nat, failure: F) | Clear(position: nat)

  /** What the lanes hold after some steps. */
  function After<F>(lanes: seq<Option<F>>, steps: seq<Step<F>>): seq<Option<F>>
    decreases |steps|
  {
    if steps == [] then lanes
    else
      var step := steps[0];
      var next := if step.position >= |lanes| then lanes
                  else lanes[step.position := if step.Record? then Some(step.failure) else None];
      After(next, steps[1..])
  }

  /** After any run the cache is what a scan of the lanes would give. */
  method Run<F>(count: nat, steps: seq<Step<F>>) returns (r: Option<F>, failures: Failures<F>)
    requires forall i :: 0 <= i < |steps| ==> steps[i].position < count
    ensures fresh(failures) && fresh(failures.lanes) && failures.Valid()
    ensures failures.lanes[..] == After(seq(count, _ => None), steps)
    ensures var lowest := Lowest(failures.lanes[..], 0);
            r == if lowest.Some? then failures.lanes[lowest.value] else None
  {
    failures := new Failures(count);
    var at := 0;
    ghost var start: seq<Option<F>> := seq(count, _ => None);
    assert failures.lanes[..] == start;
    while at < |steps|
      invariant at <= |steps| && fresh(failures) && fresh(failures.lanes) && failures.Valid()
      invariant failures.lanes.Length == count
      invariant After(failures.lanes[..], steps[at..]) == After(start, steps)
    {
      ghost var before := failures.lanes[..];
      assert steps[at..][1..] == steps[at + 1..];
      if steps[at].Record? {
        var _ := failures.Record(steps[at].position, steps[at].failure);
      } else {
        var _ := failures.Clear(steps[at].position);
      }
      at := at + 1;
    }
    r := failures.Cause();
  }
}
