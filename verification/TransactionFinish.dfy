/**
 Ending a transaction: COMMIT or ROLLBACK is sent at most once, only while the transaction is
 current and nothing else is in flight, and its lease is settled or aborted exactly once.
 */
module TransactionFinish {
  import opened Deadline
  import opened Wrappers

  datatype End = Commit | Rollback

  datatype Disposition = Reusable | Lost

  datatype Error =
    | Closed
    | NoTimer
    | RequestTimeout(phase: Phase)
    | Wait(code: nat)
    | Pinned
    | Backpressure
    | Encoding(code: nat)
    | Admission(code: nat)
    | Answer(code: nat)

  type Outcome = Result<(), Error>

  /** What a finalizing transaction waits for, or already got. */
  datatype Finalization = Unsettled | Settled(mode: Disposition)

  // ---- what one poll may find ----

  datatype PrepareFailure = Fatal(error: Error) | Throttled

  /** The answers the admission path gets. */
  datatype Admitting = Admitting(
    open: Outcome,
    selected: Result<bool, ()>,
    blocking: bool,
    register: Outcome,
    prepare: Result<(), PrepareFailure>,
    egress: Outcome)

  datatype World = World(
    now: nat -> nat,
    current: bool,
    load: Option<nat>,
    heldSettled: Poll<Result<Disposition, Error>>,
    encode: Outcome,
    admitting: Admitting,
    sealed: Finalization,
    reply: Poll<Outcome>,
    settled: Poll<Result<Disposition, Error>>)

  /** The request can be published now. */
  predicate Publishable(a: Admitting)
  {
    a.open.Ok? && a.selected == Ok(true) && a.prepare.Ok?
  }

  /** Nothing stands in the way of the end of this transaction, and its connection ends up as `mode`. */
  predicate Smooth(w: World, mode: Disposition)
  {
    && w.current && w.load == Some(0) && w.encode.Ok? && Publishable(w.admitting) && w.reply.Ready?
    && (w.sealed == Settled(mode) || (w.sealed.Unsettled? && w.settled == Ready(Ok(mode))))
  }

  /** Something in the world stands in the way. */
  predicate Hindered(w: World)
  {
    || !w.current || w.load != Some(0) || w.encode.Err? || !Publishable(w.admitting)
    || (w.settled.Ready? && w.settled.value.Err?)
  }

  // ---- history ----

  datatype Event =
    | Checked
    | Published(end: End, target: Finalization)
    | Replied(outcome: Outcome)
    | SettledAs(mode: Disposition)
    | Aborted

  type History = seq<Event>

  /** The event happened because this poll's world said so. */
  predicate Justified(w: World, log: History, i: nat)
    requires i < |log|
  {
    match log[i]
    case Checked => w.current && w.load == Some(0) && w.encode.Ok?
    case Published(_, target) =>
      && w.admitting.open.Ok? && w.admitting.selected == Ok(true) && w.admitting.prepare.Ok? && target == w.sealed
    case Replied(outcome) => w.reply == Ready(outcome)
    case SettledAs(mode) =>
      && i == 3 && log[1].Published?
      && (log[1].target == Settled(mode) || (log[1].target.Unsettled? && w.settled == Ready(Ok(mode))))
    case Aborted => true
  }

  /** The history only grew, by events this poll's world explains; there are never more than four. */
  ghost predicate Explains(w: World, before: History, after: History)
  {
    && before <= after && |after| <= 4
    && (|before| <= 0 < |after| ==> Justified(w, after, 0))
    && (|before| <= 1 < |after| ==> Justified(w, after, 1))
    && (|before| <= 2 < |after| ==> Justified(w, after, 2))
    && (|before| <= 3 < |after| ==> Justified(w, after, 3))
  }

  // ---- the request that carries COMMIT or ROLLBACK ----

  datatype Stage = Connecting | Admitted(target: Finalization) | Failed(error: Error) | Gone

  class Core {
    const pinned: bool
    var admission: Stage
    var detached: bool

    constructor (pinned: bool)
      ensures admission == Connecting && !detached && this.pinned == pinned
    {
      this.pinned := pinned;
      admission, detached := Connecting, false;
    }

    function RequestPhase(): Phase
      reads this
    {
      if admission.Admitted? then Response else Phase.Admission
    }

    /** Drops whatever the request holds; a lease in it is aborted. */
    method Cancel(error: Error) returns (r: Error, dropped: bool)
      modifies this`admission
      ensures admission == Gone
      ensures dropped <==> old(admission).Connecting? || old(admission).Admitted?
      ensures r == if old(admission).Failed? then old(admission).error else error
    {
      dropped := admission.Connecting? || admission.Admitted?;
      r := if admission.Failed? then admission.error else error;
      admission := Gone;
    }

    method Abort(error: Error) returns (r: Error, dropped: bool)
      modifies this
      ensures admission == Gone && detached
      ensures dropped <==> old(admission).Connecting? || old(admission).Admitted?
      ensures r == if old(admission).Failed? then old(admission).error else error
    {
      detached := true;
      r, dropped := Cancel(error);
    }

    /**
     Finds a connection and publishes. Only a published request becomes admitted; after an error
     the request is gone; otherwise it still waits and `registered` says so.
     */
    method PollAdmit(w: World, registered: bool) returns (r: Poll<Outcome>, waits: bool)
      modifies this`admission
      ensures r.Ready? && r.value.Ok? <==> admission.Admitted?
      ensures r.Pending? <==> admission.Connecting?
      ensures r.Ready? && r.value.Err? <==> admission.Gone?
      ensures old(admission).Admitted? ==> r == Ready(Ok(())) && admission == old(admission) && waits == registered
      ensures old(admission).Gone? ==> r == Ready(Err(Closed))
      ensures old(admission).Failed? ==> r == Ready(Err(old(admission).error))
      ensures old(admission).Connecting? ==> (admission.Admitted? <==> Publishable(w.admitting))
      ensures old(admission).Connecting? && admission.Admitted? ==> admission.target == w.sealed
      ensures old(admission).Connecting? ==> (waits <==> r.Pending?)
      ensures old(admission).Connecting? ==>
        var a := w.admitting;
        && (a.open.Err? ==> r == Ready(Err(a.open.error)))
        && (a.open.Ok? && a.selected.Err? ==> r == Ready(Err(Pinned)))
        && (a.open.Ok? && a.selected == Ok(false) && !pinned && a.blocking ==> r == Ready(Err(Backpressure)))
        && (a.open.Ok? && a.selected == Ok(false) && (pinned || !a.blocking) ==>
              r == if a.register.Err? then Ready(Err(a.register.error)) else Pending)
      ensures old(admission).Connecting? && w.admitting.open.Ok? && w.admitting.selected == Ok(true) ==>
        var a := w.admitting;
        && (a.prepare.Err? && a.prepare.error.Fatal? ==> r == Ready(Err(a.prepare.error.error)))
        && (a.prepare.Err? && a.prepare.error.Throttled? ==>
              r == if a.egress.Err? then Ready(Err(a.egress.error)) else Pending)
    {
      waits := registered;
      if admission.Admitted? {
        return Ready(Ok(())), waits;
      }
      if !admission.Connecting? {
        var error, _ := Cancel(Closed);
        return Ready(Err(error)), waits;
      }
      var found := Select(w.admitting);
      match found {
        case Err(error) =>
          admission := Gone;
          return Ready(Err(error)), false;
        case Ok(false) =>
          return Pending, true;
        case Ok(true) =>
      }
      if w.admitting.prepare.Ok? {
        admission := Admitted(w.sealed);
        return Ready(Ok(())), false;
      }
      match w.admitting.prepare.error {
        case Fatal(error) =>
          admission := Gone;
          return Ready(Err(error)), false;
        case Throttled =>
      }
      if w.admitting.egress.Err? {
        admission := Gone;
        return Ready(Err(w.admitting.egress.error)), false;
      }
      return Pending, true;
    }

    /**
     Whether a connection is ready now; `Ok(false)` when the waiter was registered for one. The
     reported error is that of the first obstacle; only a request for no particular connection
     can meet backpressure.
     */
    method Select(a: Admitting) returns (r: Result<bool, Error>)
      ensures r == Ok(true) <==> a.open.Ok? && a.selected == Ok(true)
      ensures r == Ok(false) <==> a.open.Ok? && a.selected == Ok(false) && (pinned || !a.blocking) && a.register.Ok?
      ensures a.open.Err? ==> r == Err(a.open.error)
      ensures a.open.Ok? && a.selected.Err? ==> r == Err(Pinned)
      ensures a.open.Ok? && a.selected == Ok(false) && !pinned && a.blocking ==> r == Err(Backpressure)
      ensures a.open.Ok? && a.selected == Ok(false) && (pinned || !a.blocking) && a.register.Err? ==>
        r == Err(a.register.error)
    {
      if a.open.Err? {
        return Err(a.open.error);
      }
      if a.selected.Err? {
        return Err(Pinned);
      }
      if a.selected.value {
        return Ok(true);
      }
      if !pinned && a.blocking {
        return Err(Backpressure);
      }
      if a.register.Err? {
        return Err(a.register.error);
      }
      r := Ok(false);
    }
  }

  // ---- the whole fiber ----

  datatype State =
    | Holding
    | Dispatching(call: Core)
    | Settling(target: Finalization, outcome: Outcome)
    | Done

  function Rank(s: State): nat
  {
    match s
    case Holding => 3
    case Dispatching(_) => 2
    case Settling(_, _) => 1
    case Done => 0
  }

  /** The history of a lease that is still held. */
  predicate Held(log: History, end: End)
  {
    || log == []
    || log == [Checked]
    || (|log| == 2 && log[0] == Checked && log[1].Published? && log[1].end == end)
    || (|log| == 3 && log[0] == Checked && log[1].Published? && log[1].end == end && log[2].Replied?)
  }

  /** The history of a lease that is gone: settled after a reply, or aborted. */
  predicate Over(log: History, end: End)
  {
    log != [] && Held(log[..|log| - 1], end) &&
    var last := log[|log| - 1];
    last == Aborted || (last.SettledAs? && |log| == 4)
  }

  /** The history that each state comes with. */
  ghost predicate Tells(state: State, stage: Stage, log: History, end: End)
  {
    match state
    case Holding => log == []
    case Dispatching(_) =>
      && Held(log, end) && (stage.Connecting? || stage.Admitted?)
      && |log| == (if stage.Connecting? then 1 else 2)
      && (stage.Admitted? ==> log[1].target == stage.target)
    case Settling(target, outcome) =>
      Held(log, end) && |log| == 3 && log[1].target == target && log[2].outcome == outcome
    case Done => Over(log, end)
  }

  /** What the fiber may return, given its history. */
  predicate Returns(log: History, result: Outcome)
  {
    if |log| == 4 && log[3].SettledAs? && log[2].Replied? then
      result == if log[3].mode.Lost? && log[2].outcome.Ok? then Err(Closed) else log[2].outcome
    else result.Err?
  }

  /** The first poll of all fixes the deadline. */
  function Anchored(before: Option<nat>, w: World): Option<nat>
  {
    if before.Some? then before else Some(w.now(0))
  }

  class Finish {
    const end: End
    const timer: Option<Guard>
    var state: State
    var registered: bool
    ghost var log: History

    ghost function Repr(): set<object>
      reads this
    {
      {this} + (if timer.Some? then {timer.value} else {}) + (if state.Dispatching? then {state.call} else {})
    }

    ghost predicate Timed()
      reads this, if timer.Some? then {timer.value} else {}
    {
      timer.Some? ==> timer.value.Valid() && (timer.value.state.Live? || timer.value.anchor.Some?)
    }

    ghost predicate Valid()
      reads this, Repr()
    {
      && Timed()
      && (state.Dispatching? ==> state.call.pinned)
      && Tells(state, if state.Dispatching? then state.call.admission else Gone, log, end)
    }

    /** A fresh fiber; the timer is missing when none could be had. */
    constructor (end: End, timer: Option<Guard>)
      requires timer.Some? ==> timer.value.Valid() && timer.value.state.Live?
      ensures Valid() && this.end == end && this.timer == timer && state == Holding && log == []
    {
      this.end, this.timer := end, timer;
      state, registered, log := Holding, false, [];
    }

    /** Gives up: whatever the state holds is aborted. */
    method Fail(error: Error, ghost w: World) returns (r: Error)
      requires Valid()
      modifies Repr()
      ensures Valid() && state == Done && Explains(w, old(log), log) && registered == old(registered)
      ensures log == if old(state).Done? then old(log) else old(log) + [Aborted]
      ensures timer.Some? ==> unchanged(timer.value)
      ensures r == if old(state).Settling? && old(state).outcome.Err? then old(state).outcome.error else error
    {
      HeldUntilDone();
      r := GiveUp(error);
      DropUnlessDone(w);
    }

    method DropUnlessDone(ghost w: World)
      requires if state.Done? then Over(log, end) else Held(log, end)
      modifies this`state, this`log
      ensures state == Done && Over(log, end) && Explains(w, old(log), log)
      ensures log == if old(state).Done? then old(log) else old(log) + [Aborted]
    {
      if !state.Done? {
        Drop(w);
      }
    }

    /** Aborts a request that is under way; an error that already came back is the one to report. */
    method GiveUp(error: Error) returns (r: Error)
      requires Valid()
      modifies if state.Dispatching? then {state.call} else {}
      ensures r == if state.Settling? && state.outcome.Err? then state.outcome.error else error
      ensures Timed() && (timer.Some? ==> unchanged(timer.value))
    {
      r := error;
      match state
      case Dispatching(call) =>
        r := AbortCall(call, error);
      case Settling(_, outcome) =>
        if outcome.Err? {
          r := outcome.error;
        }
      case _ =>
    }

    lemma HeldUntilDone()
      requires Valid()
      ensures if state.Done? then Over(log, end) else Held(log, end)
    {
    }

    /** Aborts a request that still waits or was sent. */
    method AbortCall(call: Core, error: Error) returns (r: Error)
      requires call.admission.Connecting? || call.admission.Admitted?
      modifies call
      ensures call.admission == Gone && r == error
    {
      var dropped;
      r, dropped := call.Abort(error);
      assert dropped;
    }

    /** The lease goes without being settled, which aborts it. */
    method Drop(ghost w: World)
      requires Held(log, end)
      modifies this`state, this`log
      ensures state == Done && log == old(log) + [Aborted] && Over(log, end) && Explains(w, old(log), log)
    {
      assert (log + [Aborted])[..|log|] == log;
      log := log + [Aborted];
      state := Done;
    }

    /** The fiber is over: no wake is wanted and the timer is off. */
    method Leave()
      requires timer.Some? && timer.value.Valid()
      modifies this`registered, timer.value
      ensures !registered && timer.value.Valid() && timer.value.state == Complete
      ensures timer.value.anchor == old(timer.value.anchor)
    {
      registered := false;
      timer.value.Finish();
    }

    /** Ends the fiber with an error; the lease goes without being settled. */
    method Close(error: Error, ghost w: World) returns (r: Poll<Outcome>)
      requires timer.Some? && timer.value.Valid() && timer.value.anchor.Some? && Held(log, end)
      modifies this`state, this`log, this`registered, timer.value
      ensures r == Ready(Err(error)) && state == Done && !registered
      ensures log == old(log) + [Aborted] && Explains(w, old(log), log) && Over(log, end) && Returns(log, Err(error))
      ensures timer.value.Valid() && timer.value.state == Complete && timer.value.anchor == old(timer.value.anchor)
    {
      Drop(w);
      Leave();
      r := Ready(Err(error));
    }

    /** What a fiber waits for, and the world withholds. */
    ghost predicate WaitsFor(w: World)
      reads this, if state.Dispatching? then {state.call} else {}
    {
      match state
      case Holding => w.current && w.load != Some(0) && w.heldSettled.Pending?
      case Dispatching(call) => if call.admission.Admitted? then w.reply.Pending? else !Publishable(w.admitting)
      case Settling(target, _) => target.Unsettled? && w.settled.Pending?
      case Done => false
    }

    /** On the way through one world, before anything went wrong. */
    ghost predicate OnTrack(w: World)
      reads this, if state.Dispatching? then {state.call} else {}
    {
      match state
      case Holding => true
      case Dispatching(call) => call.admission.Connecting?
      case Settling(target, outcome) =>
        target == w.sealed && w.reply == Ready(outcome) && log == [Checked, Published(end, w.sealed), Replied(outcome)]
      case Done => false
    }

    /** The whole history of a fiber that met nothing in its way, and what it returns then. */
    ghost predicate Finished(w: World, mode: Disposition, result: Outcome)
      requires w.reply.Ready?
      reads this
    {
      && log == [Checked, Published(end, w.sealed), Replied(w.reply.value), SettledAs(mode)]
      && result == if mode.Lost? && w.reply.value.Ok? then Err(Closed) else w.reply.value
    }

    /** `None` to go round again. */
    method StepHolding(w: World) returns (r: Option<Poll<Outcome>>)
      requires Valid() && state.Holding? && timer.Some? && timer.value.anchor.Some?
      modifies Repr()
      ensures Valid() && Explains(w, old(log), log) && fresh(Repr() - old(Repr()))
      ensures timer.value.anchor == old(timer.value.anchor)
      ensures r.None? ==> Rank(state) + 1 == Rank(old(state)) && timer.value.state == old(timer.value.state)
      ensures r.Some? && r.value.Ready? ==> state.Done? && Returns(log, r.value.value) && !registered
      ensures r.Some? && r.value.Ready? ==> log == [Aborted]
      ensures r.Some? && r.value.Pending? ==> state.Holding? && registered && WaitsFor(w)
      ensures w.current && w.load == Some(0) && w.encode.Ok? ==>
        r.None? && state.Dispatching? && state.call.admission.Connecting? && log == [Checked]
      ensures w.current && w.load == Some(0) && w.encode.Err? ==> r == Some(Ready(Err(w.encode.error)))
      ensures w.current && w.load != Some(0) && w.heldSettled.Pending? ==> r == Some(Pending)
      ensures w.current && w.load != Some(0) && w.heldSettled.Ready? ==>
        r == Some(Ready(Err(if w.heldSettled.value.Ok? then Closed else w.heldSettled.value.error)))
      ensures !w.current ==> r == Some(Ready(Err(Closed)))
    {
      var closed;
      if !w.current {
        closed := Close(Closed, w);
        return Some(closed);
      }
      if w.load != Some(0) {
        match w.heldSettled {
          case Pending =>
            registered := true;
            return Some(Pending);
          case Ready(settled) =>
            closed := Close(if settled.Ok? then Closed else settled.error, w);
            return Some(closed);
        }
      }
      if w.encode.Err? {
        closed := Close(w.encode.error, w);
        return Some(closed);
      }
      var call := new Core(true);
      log := log + [Checked];
      state := Dispatching(call);
      r := None;
    }

    /** The request is out, or can go out now. */
    ghost predicate Sendable(w: World)
      reads this, if state.Dispatching? then {state.call} else {}
    {
      state.Dispatching? && (state.call.admission.Admitted? || Publishable(w.admitting))
    }

    /** The history has the request, as it went out earlier or now, and the reply if there is one. */
    ghost predicate Sent(w: World, before: History, after: History)
      reads this
    {
      after == before
               + (if |before| == 1 then [Published(end, w.sealed)] else [])
               + (if w.reply.Ready? then [Replied(w.reply.value)] else [])
    }

    method StepDispatching(w: World) returns (r: Option<Poll<Outcome>>)
      requires Valid() && state.Dispatching? && timer.Some? && timer.value.anchor.Some?
      modifies Repr()
      ensures Valid() && Explains(w, old(log), log) && fresh(Repr() - old(Repr()))
      ensures timer.value.anchor == old(timer.value.anchor)
      ensures r.None? ==> Rank(state) + 1 == Rank(old(state)) && timer.value.state == old(timer.value.state)
      ensures r.Some? && r.value.Ready? ==> state.Done? && Returns(log, r.value.value) && !registered
      ensures r.Some? && r.value.Ready? ==> log == old(log) + [Aborted]
      ensures r.Some? && r.value.Pending? ==> state == old(state) && WaitsFor(w)
      ensures old(Sendable(w)) ==> if w.reply.Pending? then r == Some(Pending) else r.None?
      ensures old(Sendable(w)) ==> Sent(w, old(log), log)
      ensures r.None? ==> old(Sendable(w)) && w.reply.Ready? && state == Settling(log[1].target, w.reply.value)
      ensures old(!Sendable(w)) ==>
        var a := w.admitting;
        && (a.open.Err? ==> r == Some(Ready(Err(a.open.error))))
        && (a.open.Ok? && a.selected.Err? ==> r == Some(Ready(Err(Pinned))))
        && (a.open.Ok? && a.selected == Ok(false) ==>
              r == Some(if a.register.Err? then Ready(Err(a.register.error)) else Pending))
      ensures old(!Sendable(w)) && w.admitting.open.Ok? && w.admitting.selected == Ok(true) ==>
        var a := w.admitting;
        && (a.prepare.error.Fatal? ==> r == Some(Ready(Err(a.prepare.error.error))))
        && (a.prepare.error.Throttled? ==> r == Some(if a.egress.Err? then Ready(Err(a.egress.error)) else Pending))
    {
      var call := state.call;
      ghost var before, first := log, call.admission;
      var admitted;
      admitted, registered := call.PollAdmit(w, registered);
      if first.Connecting? && call.admission.Admitted? {
        Publish(w, call);
      }
      match admitted {
        case Pending => return Some(Pending);
        case Ready(outcome) =>
          if outcome.Err? {
            assert log == before;
            var closed := Close(outcome.error, w);
            return Some(closed);
          }
      }
      match w.reply {
        case Pending => return Some(Pending);
        case Ready(outcome) => Reply(w, before, call, outcome);
      }
      r := None;
    }

    /** The request went out: the lease now waits for the transaction to finish. */
    ghost method Publish(w: World, call: Core)
      requires call.admission == Admitted(w.sealed) && log == [Checked]
      requires w.admitting.open.Ok? && w.admitting.selected == Ok(true) && w.admitting.prepare.Ok?
      modifies this`log
      ensures log == [Checked, Published(end, w.sealed)] && Explains(w, old(log), log) && Held(log, end)
    {
      log := log + [Published(end, w.sealed)];
    }

    /** Takes the lease out of the request. */
    method Reply(w: World, ghost before: History, call: Core, outcome: Outcome)
      requires state.Dispatching? && state.call == call && call.admission.Admitted? && w.reply == Ready(outcome)
      requires Held(log, end) && |log| == 2 && log[1].target == call.admission.target && Explains(w, before, log)
      modifies this`state, this`log, call
      ensures state.Settling? && Held(log, end) && |log| == 3 && Explains(w, before, log)
      ensures log[1].target == state.target && log[2].outcome == state.outcome
    {
      log := log + [Replied(outcome)];
      state := Settling(call.admission.target, outcome);
      call.admission := Gone;
    }

    method StepSettling(w: World) returns (r: Poll<Outcome>)
      requires Valid() && state.Settling? && timer.Some? && timer.value.anchor.Some?
      modifies Repr()
      ensures Valid() && Explains(w, old(log), log) && fresh(Repr() - old(Repr()))
      ensures timer.value.anchor == old(timer.value.anchor)
      ensures r.Ready? ==> state.Done? && Returns(log, r.value) && !registered
      ensures r.Pending? ==> state == old(state) && log == old(log) && registered && WaitsFor(w)
      ensures forall mode ::
        old(state).target == Settled(mode) || (old(state).target.Unsettled? && w.settled == Ready(Ok(mode))) ==>
          && log == old(log) + [SettledAs(mode)]
          && r == Ready(if mode.Lost? && old(state).outcome.Ok? then Err(Closed) else old(state).outcome)
      ensures old(state).target.Unsettled? && w.settled.Pending? ==> r == Pending
      ensures old(state).target.Unsettled? && w.settled.Ready? && w.settled.value.Err? ==>
        && log == old(log) + [Aborted]
        && r == Ready(Err(if old(state).outcome.Err? then old(state).outcome.error else w.settled.value.error))
    {
      var outcome := state.outcome;
      var mode := Lost;
      match state.target {
        case Settled(known) => mode := known;
        case Unsettled =>
          match w.settled {
            case Pending =>
              registered := true;
              return Pending;
            case Ready(settled) =>
              if settled.Err? {
                r := Close(if outcome.Err? then outcome.error else settled.error, w);
                return;
              }
              mode := settled.value;
          }
      }
      assert (log + [SettledAs(mode)])[..|log|] == log;
      log := log + [SettledAs(mode)];
      state := Done;
      Leave();
      r := Ready(if mode.Lost? && outcome.Ok? then Err(Closed) else outcome);
    }

    /** A timeout is blamed on the connection, on the server, or on settling. */
    function PhaseNow(): (r: Phase)
      reads this, if state.Dispatching? then {state.call} else {}
      ensures r == Phase.Admission <==> state.Dispatching? && !state.call.admission.Admitted?
      ensures r == Response <==> state.Dispatching? && state.call.admission.Admitted?
      ensures r == Settlement <==> !state.Dispatching?
    {
      if state.Dispatching? then state.call.RequestPhase() else Settlement
    }

    /** The deadline, fixed by the first poll of all, has passed. */
    ghost predicate Late(now: nat)
      requires timer.Some?
      reads timer.value
    {
      var guard := timer.value;
      guard.state.Elapsed?
      || (guard.state.Live? && Passed(if guard.anchor.Some? then guard.anchor.value else now, guard.window, now))
    }

    /** The deadline comes before every step. */
    method Expire(w: World, now: nat) returns (r: Option<Outcome>)
      requires Valid() && timer.Some?
      modifies Repr()
      ensures Valid() && Explains(w, old(log), log) && Repr() <= old(Repr())
      ensures timer.value.anchor == if old(timer.value.anchor).Some? then old(timer.value.anchor) else Some(now)
      ensures r.None? ==> state == old(state) && log == old(log)
      ensures r.Some? <==> old(Late(now))
      ensures r.None? && old(timer.value.state).Live? ==> timer.value.state.Live?
      ensures r.Some? ==> timer.value.state.Elapsed? && state.Done? && !registered
      ensures r.Some? ==> r.value == Err(
        if old(state).Settling? && old(state).outcome.Err? then old(state).outcome.error else RequestTimeout(old(PhaseNow())))
      ensures r.Some? ==> log == if old(state).Done? then old(log) else old(log) + [Aborted]
    {
      HeldUntilDone();
      var expired := PollTimer(now);
      if expired.Pending? {
        return None;
      }
      var error := Fail(RequestTimeout(expired.value), w);
      Unregister();
      r := Some(Err(error));
    }

    method PollTimer(now: nat) returns (expired: Poll<Phase>)
      requires Valid() && timer.Some?
      modifies timer.value
      ensures Valid()
      ensures timer.value.anchor == if old(timer.value.anchor).Some? then old(timer.value.anchor) else Some(now)
      ensures expired.Ready? <==> timer.value.state.Elapsed?
      ensures expired.Ready? ==> expired.value == old(PhaseNow())
      ensures timer.value.state.Elapsed? <==> old(Late(now))
      ensures old(timer.value.state).Live? && expired.Pending? ==> timer.value.state.Live?
    {
      expired := timer.value.PollExpired(now, PhaseNow());
    }

    method Unregister()
      requires Valid()
      modifies this`registered
      ensures Valid() && !registered
    {
      registered := false;
    }

    /** The timer runs, and none of the three rounds that a poll can take comes too late. */
    ghost predicate InTime(w: World)
      reads this, if timer.Some? then {timer.value} else {}
    {
      timer.Some? && timer.value.state.Live? && forall k: nat | k < 3 ::
        !Passed(if timer.value.anchor.Some? then timer.value.anchor.value else w.now(0), timer.value.window, w.now(k))
    }

    /**
     One poll. It ends the fiber with a result its history explains, or leaves it waiting with its
     lease; once over, nothing more happens.
     */
    method Poll(w: World) returns (r: Poll<Outcome>)
      requires Valid()
      modifies Repr()
      ensures Valid() && Explains(w, old(log), log) && fresh(Repr() - old(Repr()))
      ensures r.Ready? <==> state.Done?
      ensures r.Ready? ==> !registered && (if old(state).Done? then log == old(log) && r.value.Err? else Returns(log, r.value))
      ensures timer.Some? ==> timer.value.anchor == Anchored(old(timer.value.anchor), w)
      ensures r.Pending? ==> WaitsFor(w)
      ensures timer.None? ==>
        r == Ready(Err(if old(state).Settling? && old(state).outcome.Err? then old(state).outcome.error else NoTimer))
      ensures state.Done? && !old(state).Done? && log[|log| - 1] == Aborted ==>
        timer.None? || timer.value.state.Elapsed? || Hindered(w)
      ensures forall mode | Smooth(w, mode) && old(state).Holding? && old(InTime(w)) ::
        && log == [Checked, Published(end, w.sealed), Replied(w.reply.value), SettledAs(mode)]
        && r == Ready(if mode.Lost? && w.reply.value.Ok? then Err(Closed) else w.reply.value)
    {
      if timer.None? {
        var error := FailTimerless(w);
        return Ready(Err(error));
      }
      r := Rounds(w);
    }

    method FailTimerless(ghost w: World) returns (r: Error)
      requires Valid() && timer.None?
      modifies Repr()
      ensures Valid() && state == Done && Explains(w, old(log), log) && !registered
      ensures log == if old(state).Done? then old(log) else old(log) + [Aborted]
      ensures r == if old(state).Settling? && old(state).outcome.Err? then old(state).outcome.error else NoTimer
    {
      r := Fail(NoTimer, w);
      Unregister();
    }

    /** Round after round, until the fiber is over or has to wait. */
    method Rounds(w: World) returns (r: Poll<Outcome>)
      requires Valid() && timer.Some?
      modifies Repr()
      ensures Valid() && Explains(w, old(log), log) && fresh(Repr() - old(Repr()))
      ensures r.Ready? <==> state.Done?
      ensures r.Ready? ==> !registered && (if old(state).Done? then log == old(log) && r.value.Err? else Returns(log, r.value))
      ensures timer.value.anchor == Anchored(old(timer.value.anchor), w)
      ensures r.Pending? ==> WaitsFor(w)
      ensures state.Done? && !old(state).Done? && log[|log| - 1] == Aborted ==> timer.value.state.Elapsed? || Hindered(w)
      ensures forall mode | Smooth(w, mode) && old(state).Holding? && old(InTime(w)) :: r.Ready? && Finished(w, mode, r.value)
    {
      var round: nat := 0;
      ghost var start := log;
      while true
        invariant Valid() && Explains(w, start, log) && fresh(Repr() - old(Repr()))
        invariant round == 0 ==> timer.value.anchor == old(timer.value.anchor)
        invariant round > 0 ==> timer.value.anchor == Anchored(old(timer.value.anchor), w)
        invariant round == 0 || !state.Done?
        invariant round == 0 ==> state == old(state) && log == start
        invariant old(state).Done? ==> round == 0
        invariant old(state).Holding? ==> round + Rank(state) == 3
        invariant old(InTime(w)) ==> timer.value.state.Live?
        invariant forall mode | Smooth(w, mode) && old(state).Holding? && old(InTime(w)) :: OnTrack(w)
        decreases Rank(state)
      {
        ghost var before := log;
        var step := Round(w, w.now(round));
        if step.Some? {
          return step.value;
        }
        round := round + 1;
      }
    }

    /** The deadline, then one step. */
    method Round(w: World, now: nat) returns (r: Option<Poll<Outcome>>)
      requires Valid() && timer.Some?
      modifies Repr()
      ensures Valid() && Explains(w, old(log), log) && fresh(Repr() - old(Repr()))
      ensures timer.value.anchor == if old(timer.value.anchor).Some? then old(timer.value.anchor) else Some(now)
      ensures r.None? ==> Rank(state) + 1 == Rank(old(state)) && !state.Done?
      ensures r.None? && old(timer.value.state).Live? ==> timer.value.state.Live?
      ensures r.Some? ==> (r.value.Ready? <==> state.Done?)
      ensures r.Some? && r.value.Ready? ==> !registered
      ensures r.Some? && r.value.Ready? && !old(state).Done? ==> Returns(log, r.value.value)
      ensures r.Some? && r.value.Pending? ==> WaitsFor(w)
      ensures !old(state).Done? && state.Done? && log[|log| - 1] == Aborted ==> timer.value.state.Elapsed? || Hindered(w)
      ensures forall mode | Smooth(w, mode) :: old(OnTrack(w) && !Late(now)) ==>
        if old(state).Settling? then r.Some? && r.value.Ready? && Finished(w, mode, r.value.value) else r.None? && OnTrack(w)
      ensures old(state).Done? ==> r.Some? && r.value.Ready? && log == old(log) && r.value.value.Err?
    {
      var late := Expire(w, now);
      if late.Some? {
        return Some(Ready(late.value));
      }
      ghost var middle := log;
      match state
      case Holding => r := StepHolding(w);
      case Dispatching(_) => r := StepDispatching(w);
      case Settling(_, _) =>
        var settled := StepSettling(w);
        r := Some(settled);
      case Done =>
        Leave();
        r := Some(Ready(Err(Closed)));
    }
  }

  // ---- over every run ----

  /** Whatever the fiber does, its command goes out at most once, and only after the check. */
  lemma SentAtMostOnce(log: History, end: End, i: nat, j: nat)
    requires Held(log, end) || Over(log, end)
    requires i < |log| && j < |log| && log[i].Published? && log[j].Published?
    ensures i == j == 1 && log[0] == Checked && log[i].end == end
  {
    if Over(log, end) {
      var held := log[..|log| - 1];
      assert forall k :: 0 <= k < |held| ==> held[k] == log[k];
    }
  }

  /** The lease is given up once: settled, or aborted. */
  lemma GivenUpOnce(log: History, end: End, i: nat)
    requires Held(log, end) || Over(log, end)
    requires i < |log| && (log[i].SettledAs? || log[i] == Aborted)
    ensures Over(log, end) && i == |log| - 1
    ensures log[i].SettledAs? ==> i == 3 && log[1].Published? && log[2].Replied?
  {
    if Over(log, end) {
      var held := log[..|log| - 1];
      assert forall k :: 0 <= k < |held| ==> held[k] == log[k];
    }
  }

  /** Success means exactly this: checked, sent, answered Ok, settled reusable. */
  lemma OkMeansSettledReusable(log: History, end: End, result: Outcome)
    requires Over(log, end) && Returns(log, result)
    ensures result.Ok? <==>
      |log| == 4 && log[0] == Checked && log[1].Published? && log[1].end == end
      && log[2].Replied? && log[2].outcome.Ok? && log[3] == SettledAs(Reusable)
  {
    var held := log[..|log| - 1];
    assert forall k :: 0 <= k < |held| ==> held[k] == log[k];
  }

  /** Each event of the history, and the poll in whose world it happened; polls follow one another. */
  ghost predicate Traced(worlds: seq<World>, log: History, polls: seq<nat>)
  {
    && |polls| == |log|
    && (forall i :: 0 <= i < |log| ==> polls[i] < |worlds| && Justified(worlds[polls[i]], log, i))
    && (forall i, j :: 0 <= i < j < |log| ==> polls[i] <= polls[j])
  }

  /** What justified an event is not changed by later ones. */
  lemma JustifiedMore(w: World, before: History, after: History, i: nat)
    requires before <= after && i < |before| && Justified(w, before, i)
    ensures Justified(w, after, i)
  {
    assert forall k :: 0 <= k < |before| ==> after[k] == before[k];
  }

  lemma ExplainedAt(w: World, before: History, after: History, i: nat)
    requires Explains(w, before, after) && |before| <= i < |after|
    ensures Justified(w, after, i)
  {
  }

  /** One poll more: whatever it added happened in its world. */
  lemma TracedMore(worlds: seq<World>, before: History, polls: seq<nat>, k: nat, after: History) returns (more: seq<nat>)
    requires k < |worlds| && Traced(worlds, before, polls) && Explains(worlds[k], before, after)
    requires forall i :: 0 <= i < |polls| ==> polls[i] <= k
    ensures Traced(worlds, after, more) && forall i :: 0 <= i < |more| ==> more[i] <= k
  {
    more := polls + seq(|after| - |before|, _ => k);
    forall i | 0 <= i < |after| ensures more[i] < |worlds| && Justified(worlds[more[i]], after, i) {
      if i < |before| {
        JustifiedMore(worlds[polls[i]], before, after, i);
      } else {
        ExplainedAt(worlds[k], before, after, i);
      }
    }
  }

  /**
   Over a whole run: a command that went out did so in a poll that could publish it, at or after a
   poll that found the transaction current with nothing in flight.
   */
  lemma SentWhileCurrent(worlds: seq<World>, log: History, polls: seq<nat>, end: End, i: nat)
    requires Traced(worlds, log, polls) && (Held(log, end) || Over(log, end))
    requires i < |log| && log[i].Published?
    ensures i == 1 && polls[0] <= polls[1] < |worlds|
    ensures worlds[polls[0]].current && worlds[polls[0]].load == Some(0)
    ensures var a := worlds[polls[1]].admitting; a.open.Ok? && a.selected == Ok(true) && a.prepare.Ok?
  {
    SentAtMostOnce(log, end, i, i);
    assert Justified(worlds[polls[0]], log, 0) && Justified(worlds[polls[1]], log, 1);
  }

  /** And success comes from worlds that answered Ok and knew, or then learned, that the connection is reusable. */
  lemma OkWasAnswered(worlds: seq<World>, log: History, polls: seq<nat>, end: End, result: Outcome)
    requires Traced(worlds, log, polls) && Over(log, end) && Returns(log, result) && result.Ok?
    ensures |polls| == 4 && polls[0] <= polls[1] <= polls[2] <= polls[3] < |worlds|
    ensures worlds[polls[2]].reply.Ready? && worlds[polls[2]].reply.value.Ok?
    ensures worlds[polls[1]].sealed == Settled(Reusable)
         || (worlds[polls[1]].sealed.Unsettled? && worlds[polls[3]].settled == Ready(Ok(Reusable)))
  {
    OkMeansSettledReusable(log, end, result);
    assert Justified(worlds[polls[1]], log, 1) && Justified(worlds[polls[2]], log, 2) && Justified(worlds[polls[3]], log, 3);
  }

  /** Polls a new fiber in one world after the other, whatever they are. */
  method Run(end: End, timer: Option<Guard>, worlds: seq<World>)
    returns (fiber: Finish, first: Option<Outcome>, ghost polls: seq<nat>)
    requires timer.Some? ==> timer.value.Valid() && timer.value.state == Live(None)
    modifies if timer.Some? then {timer.value} else {}
    ensures fresh(fiber) && fiber.end == end && fiber.Valid()
    ensures first.None? <==> !fiber.state.Done?
    ensures first.None? ==> Held(fiber.log, end)
    ensures first.Some? ==> Over(fiber.log, end) && Returns(fiber.log, first.value)
    ensures Traced(worlds, fiber.log, polls)
    ensures timer.Some? && worlds != [] ==> timer.value.anchor == Some(worlds[0].now(0))
  {
    fiber := new Finish(end, timer);
    first, polls := None, [];
    for i := 0 to |worlds|
      invariant fiber.Valid() && fresh(fiber.Repr() - (if timer.Some? then {timer.value} else {}))
      invariant fresh(fiber) && fiber.end == end && fiber.timer == timer
      invariant first.None? <==> !fiber.state.Done?
      invariant first.Some? ==> Returns(fiber.log, first.value)
      invariant Traced(worlds, fiber.log, polls) && forall k :: 0 <= k < |polls| ==> polls[k] < i
      invariant timer.Some? && i == 0 ==> timer.value.state == Live(None)
      invariant timer.Some? && i > 0 ==> timer.value.anchor == Some(worlds[0].now(0))
    {
      ghost var before := fiber.log;
      var r := fiber.Poll(worlds[i]);
      polls := TracedMore(worlds, before, polls, i, fiber.log);
      if first.None? && r.Ready? {
        first := Some(r.value);
      }
    }
  }
}
