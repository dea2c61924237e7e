/** Taking one required row out of every outcome of a Sync group, or giving all of them back. */
module GroupRows {
  import opened Wrappers

  datatype Outcome<P, E> =
    | Completed(payload: P)
    | Failed(error: E)
    | Interrupted(error: E)
    | Server
    | Skipped
    | Unobserved

  datatype Error = NotFound | OtherError(code: nat)

  datatype Sync = Complete | Incomplete

  /** What the group's reply left behind besides its outcomes. */
  datatype Reply<D> = Reply(sync: Sync, syncError: Option<Error>, cause: Option<Error>, diagnostics: seq<D>)

  datatype GroupResult<P, D> =
    | Rows(rows: seq<P>)
    | Failure(outcomes: seq<Outcome<P, Error>>, reply: Reply<D>)

  predicate Clean<D>(reply: Reply<D>)
  {
    reply.sync.Complete? && reply.syncError.None? && reply.cause.None? && reply.diagnostics == []
  }

  predicate HasRow<P>(outcome: Outcome<Option<P>, Error>)
  {
    outcome.Completed? && outcome.payload.Some?
  }

  /** A completed outcome without a row is a row not found. */
  function Returned<P>(outcome: Outcome<Option<P>, Error>): Outcome<P, Error>
  {
    match outcome
    case Completed(Some(payload)) => Completed(payload)
    case Completed(None) => Failed(NotFound)
    case Failed(error) => Failed(error)
    case Interrupted(error) => Interrupted(error)
    case Server => Server
    case Skipped => Skipped
    case Unobserved => Unobserved
  }

  /** The outcome that comes back as this one. */
  function Original<P>(outcome: Outcome<P, Error>): Outcome<Option<P>, Error>
  {
    match outcome
    case Completed(payload) => Completed(Some(payload))
    case Failed(error) => Failed(error)
    case Interrupted(error) => Interrupted(error)
    case Server => Server
    case Skipped => Skipped
    case Unobserved => Unobserved
  }

  /** Outcomes come back as what they are; only completion without a row becomes a failure. */
  lemma ReturnedIsOriginal<P>(before: Outcome<Option<P>, Error>, after: Outcome<P, Error>)
    ensures Returned(before) == after <==>
            before == Original(after) || (before == Completed(None) && after == Failed(NotFound))
  {
  }

  /** Takes the payload of an outcome, leaving nothing in its place. */
  method Take<P>(outcomes: array<Outcome<Option<P>, Error>>, at: nat) returns (payload: Option<P>)
    requires at < outcomes.Length
    modifies outcomes
    ensures payload.Some? <==> HasRow(old(outcomes[at]))
    ensures payload.Some? ==> old(outcomes[at]) == Completed(payload) && outcomes[at] == Completed(None)
    ensures payload.None? ==> outcomes[at] == old(outcomes[at])
    ensures forall i :: 0 <= i < outcomes.Length && i != at ==> outcomes[i] == old(outcomes[i])
  {
    if outcomes[at].Completed? {
      payload := outcomes[at].payload;
      outcomes[at] := Completed(None);
    } else {
      payload := None;
    }
  }

  /** Puts a prefix of rows back where it came from. */
  method Restore<P>(outcomes: array<Outcome<Option<P>, Error>>, rows: seq<P>)
    requires |rows| <= outcomes.Length
    modifies outcomes
    ensures forall i :: 0 <= i < |rows| ==> outcomes[i] == Completed(Some(rows[i]))
    ensures forall i :: |rows| <= i < outcomes.Length ==> outcomes[i] == old(outcomes[i])
  {
    var at := 0;
    while at < outcomes.Length && at < |rows|
      invariant at <= |rows|
      invariant forall i :: 0 <= i < at ==> outcomes[i] == Completed(Some(rows[i]))
      invariant forall i :: at <= i < outcomes.Length ==> outcomes[i] == old(outcomes[i])
    {
      outcomes[at] := Completed(Some(rows[at]));
      at := at + 1;
    }
  }

  method TakeAll<P>(outcomes: array<Outcome<Option<P>, Error>>) returns (rows: seq<P>, full: bool)
    modifies outcomes
    ensures full <==> forall i :: 0 <= i < outcomes.Length ==> HasRow(old(outcomes[i]))
    ensures full ==> |rows| == outcomes.Length
    ensures full ==> forall i :: 0 <= i < |rows| ==> old(outcomes[i]) == Completed(Some(rows[i]))
    ensures full ==> forall i :: 0 <= i < outcomes.Length ==> outcomes[i] == Completed(None)
    ensures !full ==> outcomes[..] == old(outcomes[..])
  {
    rows := [];
    while |rows| < outcomes.Length
      invariant |rows| <= outcomes.Length
      invariant forall i :: 0 <= i < |rows| ==> old(outcomes[i]) == Completed(Some(rows[i])) && outcomes[i] == Completed(None)
      invariant forall i :: |rows| <= i < outcomes.Length ==> outcomes[i] == old(outcomes[i])
      decreases outcomes.Length - |rows|
    {
      var payload := Take(outcomes, |rows|);
      if payload.None? {
        Restore(outcomes, rows);
        assert !HasRow(old(outcomes[|rows|]));
        return rows, false;
      }
      rows := rows + [payload.value];
    }
    full := true;
  }

  /**
   All rows, in order, exactly when the sync was clean and every outcome has one; then nothing is
   left in the outcomes. Otherwise every original outcome comes back at its own index.
   */
  method Required<P, D>(outcomes: array<Outcome<Option<P>, Error>>, reply: Reply<D>) returns (r: GroupResult<P, D>)
    modifies outcomes
    ensures r.Rows? <==>
      && reply.sync.Complete? && reply.syncError.None? && reply.cause.None? && reply.diagnostics == []
      && forall i :: 0 <= i < outcomes.Length ==> HasRow(old(outcomes[i]))
    ensures r.Rows? ==> |r.rows| == outcomes.Length
    ensures r.Rows? ==> forall i :: 0 <= i < |r.rows| ==> old(outcomes[i]) == Completed(Some(r.rows[i]))
    ensures r.Rows? ==> forall i :: 0 <= i < outcomes.Length ==> outcomes[i] == Completed(None)
    ensures r.Failure? ==> r.reply == reply && |r.outcomes| == outcomes.Length
    ensures r.Failure? ==> forall i :: 0 <= i < outcomes.Length ==> r.outcomes[i] == Returned(old(outcomes[i]))
  {
    if Clean(reply) {
      var rows, full := TakeAll(outcomes);
      if full {
        return Rows(rows);
      }
      assert forall i :: 0 <= i < outcomes.Length ==> outcomes[..][i] == old(outcomes[..])[i];
    }
    var returned := [];
    for at := 0 to outcomes.Length
      invariant |returned| == at
      invariant forall i :: 0 <= i < outcomes.Length ==> outcomes[i] == old(outcomes[i])
      invariant forall i :: 0 <= i < at ==> returned[i] == Returned(old(outcomes[i]))
    {
      returned := returned + [Returned(outcomes[at])];
    }
    r := Failure(returned, reply);
  }

  /** The payloads among some outcomes, in order. */
  function Payloads<P>(outcomes: seq<Outcome<Option<P>, Error>>): seq<P>
  {
    if outcomes == [] then []
    else (if HasRow(outcomes[0]) then [outcomes[0].payload.value] else []) + Payloads(outcomes[1..])
  }

  function Kept<P>(outcomes: seq<Outcome<P, Error>>): seq<P>
  {
    if outcomes == [] then []
    else (if outcomes[0].Completed? then [outcomes[0].payload] else []) + Kept(outcomes[1..])
  }

  /** No payload is lost, duplicated or moved by a failure. */
  lemma {:induction false} FailureKeepsPayloads<P>(before: seq<Outcome<Option<P>, Error>>, after: seq<Outcome<P, Error>>)
    requires |after| == |before| && forall i :: 0 <= i < |before| ==> after[i] == Returned(before[i])
    ensures Kept(after) == Payloads(before)
    decreases |before|
  {
    if before != [] {
      assert after[0] == Returned(before[0]);
      FailureKeepsPayloads(before[1..], after[1..]);
    }
  }
}
