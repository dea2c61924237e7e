/** Absolute deadlines that the first poll fixes and nothing moves. */
module Deadline {
  import opened Wrappers

  datatype Phase = Admission | Response | Settlement | Lease | Contention

  datatype Poll<+T> = Pending | Ready(value: T)

  /** The last representable instant. */
  const LAST: nat := 0xffff_ffff_ffff_ffff

  function ClampAdd(now: nat, window: nat): nat
  {
    if now + window <= LAST then now + window else LAST
  }

  /** At or after first poll plus window, or at the end of time. */
  predicate Passed(anchor: nat, window: nat, now: nat)
  {
    now >= anchor + window || now >= LAST
  }

  datatype GuardState = Live(due: Option<nat>) | Elapsed | Complete

  class Guard {
    const window: nat
    var state: GuardState
    /** The time of the first poll. */
    ghost var anchor: Option<nat>
    /** The time of the poll that found the deadline passed. */
    ghost var missed: Option<nat>

    ghost predicate Valid()
      reads this
    {
      && (state.Live? ==> missed.None?)
      && (state == Live(None) ==> anchor.None?)
      && (state.Live? && state.due.Some? ==> anchor.Some? && state.due.value == ClampAdd(anchor.value, window))
      && (state.Elapsed? ==> anchor.Some? && missed.Some?)
      && (missed.Some? ==> anchor.Some? && missed.value >= ClampAdd(anchor.value, window))
    }

    constructor (window: nat)
      ensures Valid() && state == Live(None) && this.window == window && anchor.None? && missed.None?
    {
      this.window := window;
      state, anchor, missed := Live(None), None, None;
    }

    /** Passed exactly when the time is not before first poll plus window; then it stays passed. */
    method PollExpired(now: nat, phase: Phase) returns (r: Poll<Phase>)
      requires Valid()
      modifies this
      ensures Valid() && (r.Ready? ==> r.value == phase)
      ensures anchor == if old(anchor).Some? || !old(state).Live? then old(anchor) else Some(now)
      ensures r.Ready? <==> state.Elapsed?
      ensures old(state).Live? ==> (r.Ready? <==> Passed(anchor.value, window, now))
      ensures old(state).Live? && r.Pending? ==> state.Live?
      ensures !old(state).Live? ==> state == old(state)
    {
      match state
      case Elapsed => r := Ready(phase);
      case Complete => r := Pending;
      case Live(armed) =>
        var due := if armed.Some? then armed.value else ClampAdd(now, window);
        if armed.None? {
          anchor := Some(now);
        }
        if now >= due {
          state, missed := Elapsed, Some(now);
          r := Ready(phase);
        } else {
          state := Live(Some(due));
          r := Pending;
        }
    }

    method Finish()
      requires Valid()
      modifies this
      ensures Valid() && state == Complete && anchor == old(anchor) && missed == old(missed)
    {
      state := Complete;
    }
  }

  datatype BudgetState = Fresh(window: nat) | Armed(due: nat) | Spent

  /** A deadline shared by several operations; each brings its own alarm. */
  class Budget {
    var state: BudgetState
    ghost const total: nat
    ghost var anchor: Option<nat>

    ghost predicate Valid()
      reads this
    {
      match state
      case Fresh(window) => anchor.None? && window == total
      case Armed(due) => anchor.Some? && due == ClampAdd(anchor.value, total)
      case Spent => anchor.Some?
    }

    constructor (window: nat)
      ensures Valid() && state == Fresh(window) && total == window
    {
      state, total, anchor := Fresh(window), window, None;
    }

    /**
     `alarm` is the due time of the operation's own alarm, if it was armed, and `fired` whether
     that alarm is ready; whichever operation polls first fixes the deadline for all of them.
     */
    method PollExpired(now: nat, alarm: Option<nat>, fired: bool, phase: Phase) returns (r: Poll<Phase>, armed: Option<nat>)
      requires Valid()
      requires alarm.Some? ==> state.Spent? || (state.Armed? && alarm.value == state.due)
      requires fired ==> alarm.Some?
      modifies this
      ensures Valid() && (r.Ready? ==> r.value == phase)
      ensures anchor == if old(anchor).Some? then old(anchor) else Some(now)
      ensures r.Ready? <==> state.Spent?
      ensures !old(state).Spent? ==> (r.Ready? <==> Passed(anchor.value, total, now) || fired)
      ensures r.Pending? ==> armed == Some(ClampAdd(anchor.value, total))
    {
      armed := alarm;
      var due := 0;
      match state {
        case Spent => return Ready(phase), armed;
        case Armed(at) => due := at;
        case Fresh(window) =>
          due := ClampAdd(now, window);
          anchor := Some(now);
          state := Armed(due);
      }
      if now >= due {
        state := Spent;
        return Ready(phase), armed;
      }
      if alarm.None? {
        return Pending, Some(due);
      }
      if fired {
        state := Spent;
        return Ready(phase), armed;
      }
      r := Pending;
    }
  }
}
