/**
 Weighted request queues: several FIFO lanes over one bounded pool. A detached guard owns its slot
 and its charge until it is published, restored, released or forgotten.
 */
module RequestQueue {
  import opened Wrappers

  const USIZE_MAX: nat := 0xffff_ffff_ffff_ffff

  function WrappingSub(a: int, b: int): nat
  {
    (a - b) % (USIZE_MAX + 1)
  }

  datatype Entry<T> = Entry(value: T, weight: nat)

  /** One lane: its entries in order, and the weight it is charged for. */
  datatype Lane<T> = Lane(queue: seq<Entry<T>>, held: nat)

  /** A slot and a charge taken out of a lane. */
  datatype Front = Front(lane: nat, weight: nat)

  datatype Rejection =
    | Overflow(lane: nat, held: nat, requested: nat)
    | Capacity

  datatype DrainEnd = Empty | Exhausted

  // ---- sums ----

  function Weights<T>(queue: seq<Entry<T>>): nat
  {
    if queue == [] then 0 else queue[0].weight + Weights(queue[1..])
  }

  function Values<T>(queue: seq<Entry<T>>): (r: seq<T>)
    ensures |r| == |queue| && forall i :: 0 <= i < |r| ==> r[i] == queue[i].value
  {
    seq(|queue|, i requires 0 <= i < |queue| => queue[i].value)
  }

  /** What the guards of a lane hold together. */
  function Out(fronts: seq<Front>, lane: nat): nat
  {
    if fronts == [] then 0
    else
      var last := fronts[|fronts| - 1];
      Out(fronts[..|fronts| - 1], lane) + (if last.lane == lane then last.weight else 0)
  }

  function Queued<T>(lanes: seq<Lane<T>>): nat
  {
    if lanes == [] then 0 else |lanes[0].queue| + Queued(lanes[1..])
  }

  lemma {:induction false} WeightsAppend<T>(a: seq<Entry<T>>, b: seq<Entry<T>>)
    ensures Weights(a + b) == Weights(a) + Weights(b)
    decreases |a|
  {
    if a == [] {
      assert a + b == b;
    } else {
      assert (a + b)[1..] == a[1..] + b;
      WeightsAppend(a[1..], b);
    }
  }

  lemma {:induction false} QueuedUpdate<T>(lanes: seq<Lane<T>>, at: nat, lane: Lane<T>)
    requires at < |lanes|
    ensures Queued(lanes[at := lane]) == Queued(lanes) - |lanes[at].queue| + |lane.queue|
    decreases |lanes|
  {
    if at > 0 {
      QueuedUpdate(lanes[1..], at - 1, lane);
      assert lanes[at := lane][1..] == lanes[1..][at - 1 := lane];
    } else {
      assert lanes[0 := lane][1..] == lanes[1..];
    }
  }

  /** The guards but for the newest one that equals `front`. */
  function Without(fronts: seq<Front>, front: Front): (r: seq<Front>)
    requires front in fronts
    ensures |r| == |fronts| - 1
  {
    var n := |fronts| - 1;
    if fronts[n] == front then fronts[..n] else Without(fronts[..n], front) + [fronts[n]]
  }

  lemma {:induction false} WithoutWeight(fronts: seq<Front>, front: Front, lane: nat)
    requires front in fronts
    ensures Out(Without(fronts, front), lane) == Out(fronts, lane) - (if front.lane == lane then front.weight else 0)
    ensures front.lane == lane ==> Out(fronts, lane) >= front.weight
    decreases |fronts|
  {
    var n := |fronts| - 1;
    if fronts[n] != front {
      var rest := Without(fronts[..n], front);
      WithoutWeight(fronts[..n], front, lane);
      assert (rest + [fronts[n]])[..|rest|] == rest;
    }
  }

  lemma {:induction false} WithoutKeeps(fronts: seq<Front>, front: Front, bound: nat)
    requires front in fronts && forall f <- fronts :: f.lane < bound
    ensures forall f <- Without(fronts, front) :: f.lane < bound
    decreases |fronts|
  {
    var n := |fronts| - 1;
    if fronts[n] != front {
      WithoutKeeps(fronts[..n], front, bound);
    }
  }

  // ---- the arena ----

  /** Held weight is what is queued, plus what is detached, plus what was forgotten. */
  ghost predicate Charged<T>(lane: Lane<T>, out: nat, leaked: nat)
  {
    lane.held == Weights(lane.queue) + out + leaked <= USIZE_MAX
  }

  ghost predicate Accounted<T>(lanes: seq<Lane<T>>, fronts: seq<Front>, leaked: seq<nat>)
  {
    && |lanes| == |leaked|
    && (forall f <- fronts :: f.lane < |lanes|)
    && forall l :: 0 <= l < |lanes| ==> Charged(lanes[l], Out(fronts, l), leaked[l])
  }

  lemma StillAccounted<T>(
    lanes: seq<Lane<T>>, fronts: seq<Front>, leaked: seq<nat>, at: nat, lane: Lane<T>, after: seq<Front>
  )
    requires Accounted(lanes, fronts, leaked) && at < |lanes| && forall f <- after :: f.lane < |lanes|
    requires forall l :: 0 <= l < |lanes| && l != at ==> Out(after, l) == Out(fronts, l)
    requires Charged(lane, Out(after, at), leaked[at])
    ensures Accounted(lanes[at := lane], after, leaked)
  {
    var all := lanes[at := lane];
    forall l | 0 <= l < |all| ensures Charged(all[l], Out(after, l), leaked[l]) {
      if l != at {
        assert Charged(lanes[l], Out(fronts, l), leaked[l]);
      }
    }
  }

  lemma AccountedCovers<T>(lanes: seq<Lane<T>>, fronts: seq<Front>, leaked: seq<nat>)
    ensures Accounted(lanes, fronts, leaked) ==> forall l :: 0 <= l < |lanes| ==> Covered(lanes[l])
  {
    if Accounted(lanes, fronts, leaked) {
      forall l | 0 <= l < |lanes| ensures Covered(lanes[l]) {
        assert Charged(lanes[l], Out(fronts, l), leaked[l]);
      }
    }
  }

  /** One guard more. */
  lemma OutMore(fronts: seq<Front>, front: Front)
    ensures forall l: nat :: Out(fronts + [front], l) == Out(fronts, l) + (if l == front.lane then front.weight else 0)
  {
    assert (fronts + [front])[..|fronts|] == fronts;
  }

  /** One guard less. */
  lemma OutLess(fronts: seq<Front>, front: Front, bound: nat)
    requires front in fronts && forall f <- fronts :: f.lane < bound
    ensures forall f <- Without(fronts, front) :: f.lane < bound
    ensures Out(fronts, front.lane) >= front.weight
    ensures forall l: nat ::
      Out(Without(fronts, front), l) == Out(fronts, l) - (if front.lane == l then front.weight else 0)
  {
    WithoutKeeps(fronts, front, bound);
    WithoutWeight(fronts, front, front.lane);
    forall l: nat ensures Out(Without(fronts, front), l) == Out(fronts, l) - (if front.lane == l then front.weight else 0) {
      WithoutWeight(fronts, front, l);
    }
  }

  /** Too much weight is reported before too few slots. */
  function Refusal<T>(lanes: seq<Lane<T>>, lane: nat, weight: nat): Rejection
    requires lane < |lanes|
  {
    if lanes[lane].held + weight > USIZE_MAX then Overflow(lane, lanes[lane].held, weight) else Capacity
  }

  class Arena<T> {
    const capacity: nat
    var lanes: seq<Lane<T>>
    var free: nat
    /** Guards that are detached and not yet consumed. */
    ghost var fronts: seq<Front>
    /** Weight and slots of guards that were forgotten. */
    ghost var leaked: seq<nat>
    ghost var leakedSlots: nat

    /** Every charge and every slot is accounted for. */
    ghost predicate Valid()
      reads this
      ensures Valid() ==> forall l :: 0 <= l < |lanes| ==> Covered(lanes[l])
    {
      AccountedCovers(lanes, fronts, leaked);
      Accounted(lanes, fronts, leaked) && free + Queued(lanes) + |fronts| + leakedSlots == capacity
    }

    constructor (capacity: nat, count: nat)
      ensures Valid() && this.capacity == free == capacity && |lanes| == count
      ensures fronts == [] && forall l :: 0 <= l < count ==> lanes[l] == Lane([], 0) && leaked[l] == 0
    {
      this.capacity, free := capacity, capacity;
      lanes := seq(count, _ => Lane([], 0));
      fronts, leaked, leakedSlots := [], seq(count, _ => 0), 0;
      new;
      NothingQueued(lanes);
    }

    /** Takes a slot and charges the weight; on a refusal nothing changes. */
    method TryReserve(lane: nat, weight: nat, share: bool) returns (r: Result<Front, Rejection>)
      requires Valid() && lane < |lanes| && weight <= USIZE_MAX
      modifies this
      ensures Valid() && leaked == old(leaked) && leakedSlots == old(leakedSlots)
      ensures r.Ok? <==> old(lanes)[lane].held + weight <= USIZE_MAX && share && old(free) > 0
      ensures r.Ok? ==> r.value == Front(lane, weight) && free == old(free) - 1 && fronts == old(fronts) + [r.value]
      ensures r.Ok? ==> lanes == old(lanes)[lane := Lane(old(lanes)[lane].queue, old(lanes)[lane].held + weight)]
      ensures r.Err? ==> lanes == old(lanes) && free == old(free) && fronts == old(fronts)
      ensures old(lanes)[lane].held + weight > USIZE_MAX ==> r == Err(Overflow(lane, old(lanes)[lane].held, weight))
      ensures old(lanes)[lane].held + weight <= USIZE_MAX && (!share || old(free) == 0) ==> r == Err(Capacity)
      ensures r.Err? ==> r.error == Refusal(old(lanes), lane, weight)
    {
      var held := lanes[lane].held;
      if held + weight > USIZE_MAX {
        return Err(Overflow(lane, held, weight));
      }
      if !share || free == 0 {
        return Err(Capacity);
      }
      var front := Front(lane, weight);
      var charged := Lane(lanes[lane].queue, held + weight);
      QueuedUpdate(lanes, lane, charged);
      OutMore(fronts, front);
      assert Charged(lanes[lane], Out(fronts, lane), leaked[lane]);
      StillAccounted(lanes, fronts, leaked, lane, charged, fronts + [front]);
      free := free - 1;
      lanes := lanes[lane := charged];
      fronts := fronts + [front];
      r := Ok(front);
    }

    /** Puts a value into the guard's slot, at the end of its lane or at the front. */
    method Put(front: Front, value: T, last: bool)
      requires Valid() && front in fronts
      modifies this
      ensures Valid() && free == old(free) && fronts == Without(old(fronts), front)
      ensures leaked == old(leaked) && leakedSlots == old(leakedSlots) && front.lane < |old(lanes)|
      ensures var lane := old(lanes)[front.lane];
              var entry := [Entry(value, front.weight)];
              lanes == old(lanes)[front.lane := Lane(if last then lane.queue + entry else entry + lane.queue, lane.held)]
    {
      var lane := lanes[front.lane];
      var entry := [Entry(value, front.weight)];
      var filled := Lane(if last then lane.queue + entry else entry + lane.queue, lane.held);
      WeightsAppend(lane.queue, entry);
      WeightsAppend(entry, lane.queue);
      assert Weights(entry) == front.weight;
      QueuedUpdate(lanes, front.lane, filled);
      OutLess(fronts, front, |lanes|);
      assert Charged(lane, Out(fronts, front.lane), leaked[front.lane]);
      StillAccounted(lanes, fronts, leaked, front.lane, filled, Without(fronts, front));
      lanes := lanes[front.lane := filled];
      fronts := Without(fronts, front);
    }

    /** Refunds the charge; the subtraction cannot wrap. */
    method Release(front: Front)
      requires Valid() && front in fronts
      modifies this
      ensures Valid() && free == old(free) + 1 && fronts == Without(old(fronts), front)
      ensures leaked == old(leaked) && leakedSlots == old(leakedSlots) && front.lane < |old(lanes)|
      ensures old(lanes)[front.lane].held >= front.weight
      ensures var lane := old(lanes)[front.lane];
              lanes == old(lanes)[front.lane := Lane(lane.queue, lane.held - front.weight)]
    {
      Refunds(lanes, fronts, leaked, front);
      var lane := lanes[front.lane];
      NoWrap(lane.held, front.weight);
      lanes := lanes[front.lane := Lane(lane.queue, WrappingSub(lane.held, front.weight))];
      fronts := Without(fronts, front);
      free := free + 1;
    }

    /** A guard that is never consumed only leaves excess weight and a slot behind. */
    ghost method Forget(front: Front)
      requires Valid() && front in fronts
      modifies this`fronts, this`leaked, this`leakedSlots
      ensures Valid() && fronts == Without(old(fronts), front)
    {
      OutLess(fronts, front, |lanes|);
      forall l | 0 <= l < |lanes|
        ensures Charged(lanes[l], Out(Without(fronts, front), l),
                        leaked[front.lane := leaked[front.lane] + front.weight][l])
      {
        assert Charged(lanes[l], Out(fronts, l), leaked[l]);
      }
      leaked := leaked[front.lane := leaked[front.lane] + front.weight];
      leakedSlots := leakedSlots + 1;
      fronts := Without(fronts, front);
    }

    /** Detaches the head, which keeps its slot and its charge. */
    method TakeFront(lane: nat) returns (r: Option<(T, Front)>)
      requires Valid() && lane < |lanes|
      modifies this
      ensures Valid() && free == old(free) && leaked == old(leaked) && leakedSlots == old(leakedSlots)
      ensures r.None? <==> old(lanes)[lane].queue == []
      ensures r.None? ==> lanes == old(lanes) && fronts == old(fronts)
      ensures r.Some? ==>
        var head := old(lanes)[lane].queue[0];
        && r.value == (head.value, Front(lane, head.weight)) && fronts == old(fronts) + [r.value.1]
        && lanes == old(lanes)[lane := Lane(old(lanes)[lane].queue[1..], old(lanes)[lane].held)]
    {
      var queue := lanes[lane].queue;
      if queue == [] {
        return None;
      }
      var front := Front(lane, queue[0].weight);
      var shorter := Lane(queue[1..], lanes[lane].held);
      QueuedUpdate(lanes, lane, shorter);
      OutMore(fronts, front);
      assert Charged(lanes[lane], Out(fronts, lane), leaked[lane]);
      StillAccounted(lanes, fronts, leaked, lane, shorter, fronts + [front]);
      lanes := lanes[lane := shorter];
      fronts := fronts + [front];
      r := Some((queue[0].value, front));
    }

    /** Takes the head away for good and refunds it. */
    method PopFront(lane: nat) returns (r: Option<T>)
      requires Valid() && lane < |lanes|
      modifies this
      ensures Valid() && fronts == old(fronts) && leaked == old(leaked) && leakedSlots == old(leakedSlots)
      ensures r.None? <==> old(lanes)[lane].queue == []
      ensures r.None? ==> lanes == old(lanes) && free == old(free)
      ensures r.Some? ==> r.value == old(lanes)[lane].queue[0].value && free == old(free) + 1
      ensures r.Some? ==> lanes == Shortened(old(lanes), lane, 1)
    {
      var taken := TakeFront(lane);
      if taken.None? {
        return None;
      }
      var (value, front) := taken.value;
      NewestFirst(old(fronts), front);
      CutOne(old(lanes)[lane]);
      Release(front);
      r := Some(value);
    }

    /** One thing that a preparation may do to the queues while the reservation is held. */
    method Perform(step: Step<T>)
      requires Valid()
      modifies this
      ensures Valid() && fronts == old(fronts) && leaked == old(leaked) && leakedSlots == old(leakedSlots)
      ensures AllCovered(old(lanes)) && Pool(lanes, free) == After(Pool(old(lanes), old(free)), step)
    {
      match step
      case Enqueue(lane, weight, share, value) =>
        TryEnqueue(lane, weight, share, value);
      case Dequeue(lane) =>
        if lane < |lanes| {
          var _ := PopFront(lane);
        }
    }

    method TryEnqueue(lane: nat, weight: nat, share: bool, value: T)
      requires Valid()
      modifies this
      ensures Valid() && fronts == old(fronts) && leaked == old(leaked) && leakedSlots == old(leakedSlots)
      ensures var pool := Pool(old(lanes), old(free));
              if Admitted(pool, lane, weight, share)
              then lanes == Extended(old(lanes), lane, Entry(value, weight)) && free == old(free) - 1
              else lanes == old(lanes) && free == old(free)
    {
      if lane < |lanes| && weight <= USIZE_MAX {
        var reserved := TryReserve(lane, weight, share);
        if reserved.Ok? {
          NewestFirst(old(fronts), reserved.value);
          Put(reserved.value, value, true);
        }
      }
    }

    method PerformAll(steps: seq<Step<T>>)
      requires Valid()
      modifies this
      ensures Valid() && fronts == old(fronts) && leaked == old(leaked) && leakedSlots == old(leakedSlots)
      ensures AllCovered(old(lanes)) && Pool(lanes, free) == AfterAll(Pool(old(lanes), old(free)), steps)
    {
      for at := 0 to |steps|
        invariant Valid() && fronts == old(fronts) && leaked == old(leaked) && leakedSlots == old(leakedSlots)
        invariant AllCovered(old(lanes)) && Pool(lanes, free) == AfterAll(Pool(old(lanes), old(free)), steps[..at])
      {
        Perform(steps[at]);
        assert steps[..at + 1][..at] == steps[..at];
      }
      assert steps[..|steps|] == steps;
    }

    /**
     Reserves, prepares, publishes. The preparation may push to and pop from any lane while the
     reservation is held, and hands over an item or its input with an error. When the weight or
     the pool refuses, nothing happens; when the preparation does, the charge and the slot are
     given back and nothing else is undone.
     */
    method TryWith<I, J, E>(
      lane: nat, weight: nat, share: bool, input: I, steps: seq<Step<T>>, prepared: Result<J, (E, I)>, build: J -> T
    ) returns (r: Result<(), (Failure<E>, I)>)
      requires Valid() && lane < |lanes| && weight <= USIZE_MAX
      modifies this
      ensures Valid() && fronts == old(fronts) && leaked == old(leaked) && leakedSlots == old(leakedSlots)
      ensures AllCovered(old(lanes))
      ensures r.Ok? <==> Admitted(Pool(old(lanes), old(free)), lane, weight, share) && prepared.Ok?
      ensures !Admitted(Pool(old(lanes), old(free)), lane, weight, share) ==>
        && r == Err((Queue(Refusal(old(lanes), lane, weight)), input))
        && lanes == old(lanes) && free == old(free)
      ensures Admitted(Pool(old(lanes), old(free)), lane, weight, share) ==>
        var pool := AfterAll(Reserved(Pool(old(lanes), old(free)), lane, weight), steps);
        && lane < |pool.lanes| && pool.lanes[lane].held >= weight
        && Pool(lanes, free) == (
             if prepared.Ok? then Published(pool, lane, Entry(build(prepared.value), weight))
             else Unreserved(pool, lane, weight))
        && (prepared.Err? ==> r == Err((Failure.Prepare(prepared.error.0), prepared.error.1)))
    {
      var reserved := TryReserve(lane, weight, share);
      if reserved.Err? {
        return Err((Queue(reserved.error), input));
      }
      assert Pool(lanes, free) == Reserved(Pool(old(lanes), old(free)), lane, weight);
      NewestFirst(old(fronts), reserved.value);
      PrepareAndConclude(reserved.value, steps, if prepared.Ok? then Some(build(prepared.value)) else None);
      r := if prepared.Ok? then Ok(()) else Err((Failure.Prepare(prepared.error.0), prepared.error.1));
    }

    method PrepareAndConclude(front: Front, steps: seq<Step<T>>, item: Option<T>)
      requires Valid() && front in fronts
      modifies this
      ensures Valid() && fronts == Without(old(fronts), front) && leaked == old(leaked) && leakedSlots == old(leakedSlots)
      ensures AllCovered(old(lanes)) && front.lane < |old(lanes)|
      ensures var pool := AfterAll(Pool(old(lanes), old(free)), steps);
              && pool.lanes[front.lane].held >= front.weight
              && Pool(lanes, free) ==
                 if item.Some? then Published(pool, front.lane, Entry(item.value, front.weight))
                 else Unreserved(pool, front.lane, front.weight)
    {
      PerformAll(steps);
      Conclude(front, item);
    }

    /** Publishes what was built, or gives the charge and the slot back. */
    method Conclude(front: Front, item: Option<T>)
      requires Valid() && front in fronts
      modifies this
      ensures Valid() && fronts == Without(old(fronts), front) && leaked == old(leaked) && leakedSlots == old(leakedSlots)
      ensures front.lane < |old(lanes)| && old(lanes)[front.lane].held >= front.weight
      ensures var pool := Pool(old(lanes), old(free));
              Pool(lanes, free) ==
              if item.Some? then Published(pool, front.lane, Entry(item.value, front.weight))
              else Unreserved(pool, front.lane, front.weight)
    {
      HeldCovers(lanes, fronts, leaked, front);
      if item.Some? {
        Put(front, item.value, true);
      } else {
        Release(front);
      }
    }

    /** Empties a lane as far as the work quota allows, oldest entries first. */
    method Clear(lane: nat, quota: nat) returns (r: DrainEnd, released: seq<T>)
      requires Valid() && lane < |lanes|
      modifies this
      ensures Valid() && fronts == old(fronts) && leaked == old(leaked) && leakedSlots == old(leakedSlots)
      ensures |released| == if quota <= |old(lanes)[lane].queue| then quota else |old(lanes)[lane].queue|
      ensures Moved(old(lanes), lanes, lane, released) && free == old(free) + |released|
      ensures r.Empty? <==> |released| == |old(lanes)[lane].queue|
    {
      released := [];
      var left := quota;
      CutNone(lanes[lane]);
      while left > 0
        invariant Valid() && fronts == old(fronts) && leaked == old(leaked) && leakedSlots == old(leakedSlots)
        invariant |released| == quota - left && Moved(old(lanes), lanes, lane, released)
        invariant free == old(free) + |released|
        decreases left
      {
        ghost var before := lanes;
        var item := PopFront(lane);
        if item.None? {
          return Empty, released;
        }
        MovedNext(old(lanes), before, lanes, lane, released, item.value);
        released := released + [item.value];
        left := left - 1;
      }
      r := if lanes[lane].queue == [] then Empty else Exhausted;
    }

    /**
     Sends heads for as long as they are admitted; the first that is not goes back to the front
     with its charge, and only what was sent is refunded.
     */
    method Drain(lane: nat, verdicts: seq<Verdict>) returns (r: Result<(), nat>, sent: seq<T>)
      requires Valid() && lane < |lanes|
      modifies this
      ensures Valid() && fronts == old(fronts) && leaked == old(leaked) && leakedSlots == old(leakedSlots)
      ensures |sent| <= |old(lanes)[lane].queue| && |sent| <= |verdicts|
      ensures forall i :: 0 <= i < |sent| ==> verdicts[i].Ready?
      ensures |sent| == |old(lanes)[lane].queue| || |sent| == |verdicts| || !verdicts[|sent|].Ready?
      ensures Moved(old(lanes), lanes, lane, sent) && free == old(free) + |sent|
      ensures r == if |sent| < |old(lanes)[lane].queue| && |sent| < |verdicts| && verdicts[|sent|].Rejected?
                   then Err(verdicts[|sent|].cause) else Ok(())
    {
      sent := [];
      CutNone(lanes[lane]);
      while |sent| < |verdicts|
        invariant Valid() && fronts == old(fronts) && leaked == old(leaked) && leakedSlots == old(leakedSlots)
        invariant |sent| <= |verdicts| && forall i :: 0 <= i < |sent| ==> verdicts[i].Ready?
        invariant Moved(old(lanes), lanes, lane, sent) && free == old(free) + |sent|
        decreases |verdicts| - |sent|
      {
        ghost var before := lanes;
        var value, stopped := SendHead(lane, verdicts[|sent|]);
        if value.None? {
          return Ok(()), sent;
        }
        if stopped {
          return if verdicts[|sent|].Rejected? then Err(verdicts[|sent|].cause) else Ok(()), sent;
        }
        MovedNext(old(lanes), before, lanes, lane, sent, value.value);
        sent := sent + [value.value];
      }
      r := Ok(());
    }

    /** Offers the head once. */
    method SendHead(lane: nat, verdict: Verdict) returns (value: Option<T>, stopped: bool)
      requires Valid() && lane < |lanes|
      modifies this
      ensures Valid() && fronts == old(fronts) && leaked == old(leaked) && leakedSlots == old(leakedSlots)
      ensures value.None? <==> old(lanes)[lane].queue == []
      ensures value.Some? ==> value.value == old(lanes)[lane].queue[0].value && (stopped <==> !verdict.Ready?)
      ensures value.Some? && !stopped ==> lanes == Shortened(old(lanes), lane, 1) && free == old(free) + 1
      ensures value.None? || stopped ==> lanes == old(lanes) && free == old(free)
    {
      var taken := TakeFront(lane);
      if taken.None? {
        return None, false;
      }
      var (head, front) := taken.value;
      NewestFirst(old(fronts), front);
      ghost var queue := old(lanes)[lane].queue;
      assert queue == [queue[0]] + queue[1..];
      if verdict.Ready? {
        CutOne(old(lanes)[lane]);
        Release(front);
        return Some(head), false;
      }
      Put(front, head, false);
      assert lanes == old(lanes);
      return Some(head), true;
    }
  }

  /** The entries of all lanes and what is left of the pool. */
  datatype Pool<T> = Pool(lanes: seq<Lane<T>>, free: nat)

  datatype Step<T> = Enqueue(lane: nat, weight: nat, share: bool, value: T) | Dequeue(lane: nat)

  predicate AllCovered<T>(lanes: seq<Lane<T>>)
  {
    forall l :: 0 <= l < |lanes| ==> Covered(lanes[l])
  }

  predicate Admitted<T>(pool: Pool<T>, lane: nat, weight: nat, share: bool)
  {
    lane < |pool.lanes| && Fits(pool.lanes, lane, weight) && share && pool.free > 0
  }

  function Reserved<T>(pool: Pool<T>, lane: nat, weight: nat): Pool<T>
    requires lane < |pool.lanes| && pool.free > 0
  {
    Pool(pool.lanes[lane := Lane(pool.lanes[lane].queue, pool.lanes[lane].held + weight)], pool.free - 1)
  }

  function Unreserved<T>(pool: Pool<T>, lane: nat, weight: nat): Pool<T>
    requires lane < |pool.lanes| && pool.lanes[lane].held >= weight
  {
    Pool(pool.lanes[lane := Lane(pool.lanes[lane].queue, pool.lanes[lane].held - weight)], pool.free + 1)
  }

  /** The reserved slot becomes an entry at the end of its lane, which is charged for it already. */
  function Published<T>(pool: Pool<T>, lane: nat, entry: Entry<T>): Pool<T>
    requires lane < |pool.lanes|
  {
    Pool(pool.lanes[lane := Lane(pool.lanes[lane].queue + [entry], pool.lanes[lane].held)], pool.free)
  }

  lemma ExtendedCovers<T>(lanes: seq<Lane<T>>, lane: nat, entry: Entry<T>)
    requires lane < |lanes| && AllCovered(lanes)
    ensures AllCovered(Extended(lanes, lane, entry))
  {
    WeightsAppend(lanes[lane].queue, [entry]);
    assert Weights([entry]) == entry.weight;
  }

  lemma ShortenedCovers<T>(lanes: seq<Lane<T>>, lane: nat)
    requires lane < |lanes| && AllCovered(lanes) && lanes[lane].queue != []
    ensures AllCovered(Shortened(lanes, lane, 1))
  {
    CutOne(lanes[lane]);
  }

  function After<T>(pool: Pool<T>, step: Step<T>): (r: Pool<T>)
    requires AllCovered(pool.lanes)
    ensures AllCovered(r.lanes) && |r.lanes| == |pool.lanes|
  {
    match step
    case Enqueue(lane, weight, share, value) =>
      if Admitted(pool, lane, weight, share) then
        ExtendedCovers(pool.lanes, lane, Entry(value, weight));
        Pool(Extended(pool.lanes, lane, Entry(value, weight)), pool.free - 1)
      else pool
    case Dequeue(lane) =>
      if lane < |pool.lanes| && pool.lanes[lane].queue != [] then
        ShortenedCovers(pool.lanes, lane);
        Pool(Shortened(pool.lanes, lane, 1), pool.free + 1)
      else pool
  }

  function AfterAll<T>(pool: Pool<T>, steps: seq<Step<T>>): (r: Pool<T>)
    requires AllCovered(pool.lanes)
    ensures AllCovered(r.lanes) && |r.lanes| == |pool.lanes|
    decreases |steps|
  {
    if steps == [] then pool else After(AfterAll(pool, steps[..|steps| - 1]), steps[|steps| - 1])
  }

  /** The reservation refuses nothing to the step that it would have got without it. */
  predicate Unhindered<T>(pool: Pool<T>, lane: nat, weight: nat, step: Step<T>)
    requires lane < |pool.lanes| && pool.free > 0
  {
    step.Enqueue? ==>
      (Admitted(pool, step.lane, step.weight, step.share) <==>
       Admitted(Reserved(pool, lane, weight), step.lane, step.weight, step.share))
  }

  /** A step that is not hindered does the same under the reservation as without it. */
  lemma StepUnderReservation<T>(pool: Pool<T>, lane: nat, weight: nat, step: Step<T>)
    requires AllCovered(pool.lanes) && lane < |pool.lanes| && pool.free > 0 && Unhindered(pool, lane, weight, step)
    ensures AllCovered(Reserved(pool, lane, weight).lanes) && After(pool, step).free > 0
    ensures After(Reserved(pool, lane, weight), step) == Reserved(After(pool, step), lane, weight)
  {
    var reserved := Reserved(pool, lane, weight);
    if step.Dequeue? && step.lane < |pool.lanes| && pool.lanes[step.lane].queue != [] {
      CutOne(pool.lanes[step.lane]);
      CutOne(reserved.lanes[step.lane]);
    }
    assert After(reserved, step).lanes == Reserved(After(pool, step), lane, weight).lanes;
  }

  /** What becomes of a reservation when nothing happens meanwhile. */
  lemma ReservedAndBack<T>(pool: Pool<T>, lane: nat, weight: nat, value: T)
    requires lane < |pool.lanes| && pool.free > 0
    ensures var reserved := Reserved(pool, lane, weight);
            && Unreserved(reserved, lane, weight) == pool
            && Published(reserved, lane, Entry(value, weight))
               == Pool(Extended(pool.lanes, lane, Entry(value, weight)), pool.free - 1)
  {
    var reserved := Reserved(pool, lane, weight);
    assert Unreserved(reserved, lane, weight).lanes == pool.lanes;
    assert Published(reserved, lane, Entry(value, weight)).lanes == Extended(pool.lanes, lane, Entry(value, weight));
  }

  /** No step of the preparation is hindered. */
  predicate AllUnhindered<T>(pool: Pool<T>, lane: nat, weight: nat, steps: seq<Step<T>>)
    requires AllCovered(pool.lanes) && lane < |pool.lanes|
    decreases |steps|
  {
    steps != [] ==>
      var n := |steps| - 1;
      var before := AfterAll(pool, steps[..n]);
      AllUnhindered(pool, lane, weight, steps[..n]) && before.free > 0 && Unhindered(before, lane, weight, steps[n])
  }

  lemma {:induction false} AllUnderReservation<T>(pool: Pool<T>, lane: nat, weight: nat, steps: seq<Step<T>>)
    requires AllCovered(pool.lanes) && lane < |pool.lanes| && pool.free > 0 && AllUnhindered(pool, lane, weight, steps)
    ensures AllCovered(Reserved(pool, lane, weight).lanes) && AfterAll(pool, steps).free > 0
    ensures AfterAll(Reserved(pool, lane, weight), steps) == Reserved(AfterAll(pool, steps), lane, weight)
    decreases |steps|
  {
    if steps != [] {
      var n := |steps| - 1;
      AllUnderReservation(pool, lane, weight, steps[..n]);
      StepUnderReservation(AfterAll(pool, steps[..n]), lane, weight, steps[n]);
    } else {
      forall l | 0 <= l < |pool.lanes| ensures Covered(Reserved(pool, lane, weight).lanes[l]) {
        assert Covered(pool.lanes[l]);
      }
    }
  }

  /**
   So a publication whose preparation fails leaves the queues, their weights and the pool exactly
   as if only the preparation had run, and one that succeeds adds one entry to that: unless the
   reservation itself took from the preparation what it needed.
   */
  lemma PreparationAlone<T>(pool: Pool<T>, lane: nat, weight: nat, steps: seq<Step<T>>, value: T)
    requires AllCovered(pool.lanes) && lane < |pool.lanes| && pool.free > 0 && AllUnhindered(pool, lane, weight, steps)
    ensures AllCovered(Reserved(pool, lane, weight).lanes)
    ensures var after, alone := AfterAll(Reserved(pool, lane, weight), steps), AfterAll(pool, steps);
            && after.lanes[lane].held >= weight && alone.free > 0
            && Unreserved(after, lane, weight) == alone
            && Published(after, lane, Entry(value, weight))
               == Pool(Extended(alone.lanes, lane, Entry(value, weight)), alone.free - 1)
  {
    AllUnderReservation(pool, lane, weight, steps);
    var alone := AfterAll(pool, steps);
    ReservedAndBack(alone, lane, weight, value);
  }

  lemma NoWrap(a: nat, b: nat)
    requires b <= a <= USIZE_MAX
    ensures WrappingSub(a, b) == a - b
  {
  }

  /** Without the guard and its charge everything is still accounted for. */
  lemma Refunds<T>(lanes: seq<Lane<T>>, fronts: seq<Front>, leaked: seq<nat>, front: Front)
    requires Accounted(lanes, fronts, leaked) && front in fronts
    ensures front.lane < |lanes| && front.weight <= lanes[front.lane].held <= USIZE_MAX
    ensures var after := lanes[front.lane := Lane(lanes[front.lane].queue, lanes[front.lane].held - front.weight)];
            Accounted(after, Without(fronts, front), leaked) && Queued(after) == Queued(lanes)
  {
    var lane := lanes[front.lane];
    HeldCovers(lanes, fronts, leaked, front);
    assert Charged(lane, Out(fronts, front.lane), leaked[front.lane]);
    OutLess(fronts, front, |lanes|);
    var refunded := Lane(lane.queue, lane.held - front.weight);
    QueuedUpdate(lanes, front.lane, refunded);
    StillAccounted(lanes, fronts, leaked, front.lane, refunded, Without(fronts, front));
  }

  /** A lane is charged for every guard it has out. */
  lemma HeldCovers<T>(lanes: seq<Lane<T>>, fronts: seq<Front>, leaked: seq<nat>, front: Front)
    requires Accounted(lanes, fronts, leaked) && front in fronts
    ensures front.lane < |lanes| && lanes[front.lane].held >= front.weight
  {
    OutLess(fronts, front, |lanes|);
    assert Charged(lanes[front.lane], Out(fronts, front.lane), leaked[front.lane]);
  }

  datatype Failure<E> = Queue(rejection: Rejection) | Prepare(cause: E)

  datatype Verdict = Ready | Saturated | Rejected(cause: nat)

  predicate Fits<T>(lanes: seq<Lane<T>>, lane: nat, weight: nat)
    requires lane < |lanes|
  {
    lanes[lane].held + weight <= USIZE_MAX
  }

  /** One entry more at the end of a lane. */
  function Extended<T>(lanes: seq<Lane<T>>, lane: nat, entry: Entry<T>): seq<Lane<T>>
    requires lane < |lanes|
  {
    lanes[lane := Lane(lanes[lane].queue + [entry], lanes[lane].held + entry.weight)]
  }

  /** A lane is charged for at least what is queued in it. */
  predicate Covered<T>(lane: Lane<T>)
  {
    lane.held >= Weights(lane.queue)
  }

  /** The first `n` entries gone, and their weight with them. */
  function Cut<T>(lane: Lane<T>, n: nat): Lane<T>
    requires n <= |lane.queue| && Covered(lane)
  {
    WeightsSplit(lane.queue, n);
    Lane(lane.queue[n..], lane.held - Weights(lane.queue[..n]))
  }

  function Shortened<T>(lanes: seq<Lane<T>>, lane: nat, n: nat): seq<Lane<T>>
    requires lane < |lanes| && n <= |lanes[lane].queue| && Covered(lanes[lane])
  {
    lanes[lane := Cut(lanes[lane], n)]
  }

  lemma WeightsSplit<T>(queue: seq<Entry<T>>, n: nat)
    requires n <= |queue|
    ensures Weights(queue) == Weights(queue[..n]) + Weights(queue[n..])
  {
    assert queue == queue[..n] + queue[n..];
    WeightsAppend(queue[..n], queue[n..]);
  }

  lemma CutNone<T>(lane: Lane<T>)
    requires Covered(lane)
    ensures Cut(lane, 0) == lane
  {
    assert lane.queue[..0] == [] && lane.queue[0..] == lane.queue;
  }

  lemma CutMore<T>(lane: Lane<T>, n: nat)
    requires n < |lane.queue| && Covered(lane)
    ensures Covered(Cut(lane, n)) && Cut(lane, n + 1) == Cut(Cut(lane, n), 1)
    ensures lane.queue[n..][0] == lane.queue[n]
  {
    var queue := lane.queue;
    WeightsSplit(queue, n);
    assert queue[..n + 1] == queue[..n] + queue[n..][..1];
    WeightsAppend(queue[..n], queue[n..][..1]);
    assert queue[n..][1..] == queue[n + 1..];
  }

  lemma CutOne<T>(lane: Lane<T>)
    requires lane.queue != [] && Covered(lane)
    ensures lane.held >= lane.queue[0].weight
    ensures Cut(lane, 1) == Lane(lane.queue[1..], lane.held - lane.queue[0].weight)
  {
    assert lane.queue[..1] == [lane.queue[0]];
    assert Weights(lane.queue[..1]) == lane.queue[0].weight;
    WeightsSplit(lane.queue, 1);
  }

  /** Exactly the oldest entries left the lane, in order, and nothing else changed. */
  ghost predicate Moved<T>(before: seq<Lane<T>>, after: seq<Lane<T>>, lane: nat, out: seq<T>)
  {
    && lane < |before| && |out| <= |before[lane].queue| && Covered(before[lane])
    && out == Values(before[lane].queue[..|out|])
    && after == Shortened(before, lane, |out|)
  }

  lemma MovedNext<T>(
    before: seq<Lane<T>>, middle: seq<Lane<T>>, after: seq<Lane<T>>, lane: nat, out: seq<T>, value: T
  )
    requires Moved(before, middle, lane, out) && middle[lane].queue != [] && Covered(middle[lane])
    requires value == middle[lane].queue[0].value && after == Shortened(middle, lane, 1)
    ensures Moved(before, after, lane, out + [value])
  {
    CutMore(before[lane], |out|);
    assert before[lane].queue[..|out| + 1] == before[lane].queue[..|out|] + [before[lane].queue[|out|]];
  }

  /** Nothing is lost: what left, then what stayed, is the old queue. */
  lemma MovedConserves<T>(before: seq<Lane<T>>, after: seq<Lane<T>>, lane: nat, out: seq<T>)
    requires Moved(before, after, lane, out)
    ensures out + Values(after[lane].queue) == Values(before[lane].queue)
    ensures after[lane].held + Weights(before[lane].queue[..|out|]) == before[lane].held
    ensures forall l :: 0 <= l < |before| && l != lane ==> after[l] == before[l]
  {
  }

  /** What is published last leaves last: after everything that was queued before, and not one entry later. */
  lemma LastInLastOut<T>(before: seq<Lane<T>>, lane: nat, entry: Entry<T>, after: seq<Lane<T>>, out: seq<T>)
    requires AllCovered(before) && lane < |before| && Moved(Extended(before, lane, entry), after, lane, out)
    ensures var queued := Values(before[lane].queue);
            && |out| <= |queued| + 1
            && out == (if |out| <= |queued| then queued[..|out|] else queued + [entry.value])
            && after[lane].queue == (if |out| <= |queued| then before[lane].queue[|out|..] + [entry] else [])
            && (|out| == |queued| + 1 ==> after[lane].held + Weights(before[lane].queue) == before[lane].held)
  {
    var all := before[lane].queue + [entry];
    assert all[..|all|] == all;
    WeightsAppend(before[lane].queue, [entry]);
    assert Weights([entry]) == entry.weight;
  }

  /** A reservation that is published is such an extension: the charge was paid when it was made. */
  lemma PublishedExtends<T>(pool: Pool<T>, lane: nat, entry: Entry<T>)
    requires lane < |pool.lanes| && pool.lanes[lane].held >= entry.weight
    ensures var paid := pool.lanes[lane := Lane(pool.lanes[lane].queue, pool.lanes[lane].held - entry.weight)];
            Published(pool, lane, entry) == Pool(Extended(paid, lane, entry), pool.free)
  {
    var paid := pool.lanes[lane := Lane(pool.lanes[lane].queue, pool.lanes[lane].held - entry.weight)];
    assert Published(pool, lane, entry).lanes == Extended(paid, lane, entry);
  }

  lemma NewestFirst(fronts: seq<Front>, front: Front)
    ensures front in fronts + [front] && Without(fronts + [front], front) == fronts
  {
    assert (fronts + [front])[..|fronts|] == fronts;
  }

  lemma {:induction false} NothingQueued<T>(lanes: seq<Lane<T>>)
    requires forall l :: 0 <= l < |lanes| ==> lanes[l].queue == []
    ensures Queued(lanes) == 0
    decreases |lanes|
  {
    if lanes != [] {
      NothingQueued(lanes[1..]);
    }
  }

  // ---- requests and replies together ----

  datatype ReplyError = NoReplySlot

  /** A request lane paired with the lane its replies come back on. */
  class Handoff<T, K> {
    const requests: Arena<T>
    const slots: nat
    var replies: seq<K>

    ghost predicate Valid()
      reads this, requests
    {
      requests.Valid() && |replies| <= slots
    }

    constructor (requests: Arena<T>, slots: nat)
      requires requests.Valid()
      ensures Valid() && this.requests == requests && this.slots == slots && replies == []
    {
      this.requests, this.slots, replies := requests, slots, [];
    }

    /** Either the reply is awaited and the request queued, or neither, and the input comes back. */
    method TryPublish<I>(lane: nat, weight: nat, share: bool, tag: K, input: I, build: I -> T)
      returns (r: Result<(), (Failure<ReplyError>, I)>)
      requires Valid() && lane < |requests.lanes| && weight <= USIZE_MAX
      modifies this, requests
      ensures Valid() && requests.fronts == old(requests.fronts)
      ensures r.Ok? <==>
        Fits(old(requests.lanes), lane, weight) && share && old(requests.free) > 0 && |old(replies)| < slots
      ensures r.Ok? ==> replies == old(replies) + [tag] && requests.free == old(requests.free) - 1
      ensures r.Ok? ==> requests.lanes == Extended(old(requests.lanes), lane, Entry(build(input), weight))
      ensures r.Err? ==> replies == old(replies) && requests.free == old(requests.free) && r.error.1 == input
      ensures r.Err? ==> requests.lanes == old(requests.lanes)
      ensures r.Err? && Fits(old(requests.lanes), lane, weight) && share && old(requests.free) > 0 ==>
        r.error.0 == Failure.Prepare(NoReplySlot)
      ensures r.Err? && !(Fits(old(requests.lanes), lane, weight) && share && old(requests.free) > 0) ==>
        r.error.0 == Queue(Refusal(old(requests.lanes), lane, weight))
    {
      var reserved := requests.TryReserve(lane, weight, share);
      if reserved.Err? {
        return Err((Queue(reserved.error), input));
      }
      NewestFirst(old(requests.fronts), reserved.value);
      ReservedAndBack(Pool(old(requests.lanes), old(requests.free)), lane, weight, build(input));
      var attached := TryTagged(tag);
      requests.Conclude(reserved.value, if attached.Ok? then Some(build(input)) else None);
      r := if attached.Ok? then Ok(()) else Err((Failure.Prepare(attached.error), input));
    }

    /** Takes a reply slot, if there is one. */
    method TryTagged(tag: K) returns (r: Result<(), ReplyError>)
      requires |replies| <= slots
      modifies this
      ensures r == if |old(replies)| < slots then Ok(()) else Err(NoReplySlot)
      ensures replies == if r.Ok? then old(replies) + [tag] else old(replies)
    {
      if |replies| == slots {
        return Err(NoReplySlot);
      }
      replies := replies + [tag];
      r := Ok(());
    }
  }
}
