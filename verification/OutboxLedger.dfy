/**
 * What an outbox row's status says about its past, whatever its kind: done means an execution succeeded,
 * dead that five failed, canceled that a cancel won, and anything else is still waiting or running.
 */
module OutboxLedger {
  import opened Wrappers
  import opened Intents
  import opened Outbox

  datatype What = Success | Failure | CancelWins | Begin

  /** What the event does to row `i`. */
  predicate Happens(s: State, e: Event, i: nat, what: What) {
    s.owed.None? &&
    match what
    case Success => e == Finish(i, true) && i in s.claimed && s.claimed[i].started
    case Failure => e == Finish(i, false) && i in s.claimed && s.claimed[i].started
    case CancelWins => e == Cancel(i) && i < |s.rows| && s.rows[i].status.Pending?
    case Begin => e == Start(i) && i in s.claimed && !s.claimed[i].started
  }

  /** How often it happens in a run. */
  function Times(s: State, es: seq<Event>, i: nat, what: What): nat
    decreases |es|
  {
    if es == [] then 0 else (if Happens(s, es[0], i, what) then 1 else 0) + Times(Step(s, es[0]), es[1..], i, what)
  }

  /** The status of row `i`; a row that is not there yet counts as waiting, with no attempts. */
  function StatusOf(s: State, i: nat): Status {
    if i < |s.rows| then s.rows[i].status else Pending
  }

  function AttemptsOf(s: State, i: nat): nat {
    if i < |s.rows| then s.rows[i].attempts else 0
  }

  /** Row `i` is held by the running pass, and its server action has begun. */
  predicate Running(s: State, i: nat) {
    i in s.claimed && s.claimed[i].started
  }

  /** The one thing a row's status may turn into at a step, by what happened to it. */
  ghost predicate Moved(s: State, t: State, e: Event, i: nat) {
    && AttemptsOf(t, i) == AttemptsOf(s, i) + (if Happens(s, e, i, Failure) then 1 else 0)
    && (StatusOf(t, i).Done? <==> StatusOf(s, i).Done? || Happens(s, e, i, Success))
    && (StatusOf(t, i).Canceled? <==> StatusOf(s, i).Canceled? || Happens(s, e, i, CancelWins))
    && (StatusOf(t, i).Dead? <==> StatusOf(s, i).Dead? || (Happens(s, e, i, Failure) && AttemptsOf(t, i) >= MAX_ATTEMPTS))
    && |t.rows| >= |s.rows|
  }

  lemma {:induction false} StepMoves(s: State, e: Event, i: nat)
    requires Inv(s)
    ensures Moved(s, Step(s, e), e, i)
  {
    if s.owed.Some? {
      SettledStatus(s, i);
    } else {
      ActMoves(s, e, i);
    }
  }

  /** Applying the owed inverse moves no row's status. */
  lemma {:induction false} SettledStatus(s: State, i: nat)
    requires Inv(s)
    ensures |Settled(s).rows| == |s.rows| && StatusOf(Settled(s), i) == StatusOf(s, i) && AttemptsOf(Settled(s), i) == AttemptsOf(s, i)
    ensures Settled(s).claimed == s.claimed
  {
    forall k | 0 <= k < |s.rows| ensures SameKind(s.rows[k].intent, s.rows[k].intent) {
      assert RowOk(s, k);
    }
    if s.owed.Some? {
      var o := s.owed.value;
      if o.intent.SetFlags? && o.intent.change.Some? && s.rows[o.i].messageId in s.messages {
        HandOversFrame(s.rows, o.i, s.rows[o.i].messageId, o.intent.change.value, 2);
      }
    }
  }

  lemma {:induction false} ActMoves(s: State, e: Event, i: nat)
    requires Inv(s) && s.owed.None?
    ensures Moved(s, Act(s, e), e, i)
  {
    hide Inv, Act, Moved;
    match e {
      case EnqueueSend => EnqueueMoves(s, e, i);
      case EnqueueDelete(_) => EnqueueMoves(s, e, i);
      case EnqueueMove(_, _, _) => EnqueueMoves(s, e, i);
      case EnqueueFlags(_, _) => EnqueueMoves(s, e, i);
      case Cancel(_) => CancelMoves(s, e, i);
      case Finish(_, _) => FinishMoves(s, e, i);
      case _ => PassMoves(s, e, i);
    }
  }

  lemma {:induction false} EnqueueMoves(s: State, e: Event, i: nat)
    requires Inv(s) && s.owed.None? && (e.EnqueueSend? || e.EnqueueDelete? || e.EnqueueMove? || e.EnqueueFlags?)
    ensures Moved(s, Act(s, e), e, i)
  {
    hide Inv, ApplyDelete, ApplyMove, ApplyFlags;
  }

  lemma {:induction false} CancelMoves(s: State, e: Event, i: nat)
    requires Inv(s) && s.owed.None? && e.Cancel?
    ensures Moved(s, Act(s, e), e, i)
  {
    hide Inv, Invert;
  }

  lemma {:induction false} FinishMoves(s: State, e: Event, i: nat)
    requires Inv(s) && s.owed.None? && e.Finish?
    ensures Moved(s, Act(s, e), e, i)
  {
    hide SameKind, Invert;
    if e.i in s.claimed { assert ClaimOk(s, e.i) && RowOk(s, e.i); }
  }

  lemma {:induction false} PassMoves(s: State, e: Event, i: nat)
    requires Inv(s) && s.owed.None? && (e.Claim? || e.Start? || e.Restart? || e.Undo? || e.Abandon?)
    ensures Moved(s, Act(s, e), e, i)
  {
    hide Inv;
  }

  /**
   * A failed row below the cap waits again, whatever its kind: pending, with one attempt more and otherwise as it
   * was, out of the pass, and no message touched.
   */
  lemma {:induction false} FailedWaitsAgain(s: State, i: nat)
    requires Inv(s) && Happens(s, Finish(i, false), i, Failure) && AttemptsOf(s, i) + 1 < MAX_ATTEMPTS
    ensures var t := Step(s, Finish(i, false));
            && i < |s.rows| && t.rows == s.rows[i := s.rows[i].(status := Pending, attempts := s.rows[i].attempts + 1)]
            && i !in t.claimed && t.messages == s.messages && t.owed.None?
  {
    assert ClaimOk(s, i) && RowOk(s, i);
  }

  /** A restart makes every row that was running wait again, whatever its kind, and changes no row otherwise. */
  lemma {:induction false} RestartedWaitsAgain(s: State, i: nat)
    requires Inv(s) && i < |s.rows|
    ensures var t := Step(s, Restart);
            && |t.rows| == |s.rows| && t.rows[i] == s.rows[i].(status := if s.rows[i].status.Sending? then Pending else s.rows[i].status)
            && t.claimed == map[] && t.messages == s.messages
  {
  }

  /** Over a run the counts add up. */
  lemma {:induction false} RunMoves(s: State, es: seq<Event>, i: nat)
    requires Inv(s) && (StatusOf(s, i).Dead? <==> AttemptsOf(s, i) >= MAX_ATTEMPTS)
    ensures var t := Run(s, es);
            && AttemptsOf(t, i) == AttemptsOf(s, i) + Times(s, es, i, Failure)
            && (StatusOf(t, i).Done? <==> StatusOf(s, i).Done? || Times(s, es, i, Success) > 0)
            && (StatusOf(t, i).Canceled? <==> StatusOf(s, i).Canceled? || Times(s, es, i, CancelWins) > 0)
            && (StatusOf(t, i).Dead? <==> AttemptsOf(t, i) >= MAX_ATTEMPTS)
            && Inv(t)
    decreases |es|
  {
    hide Happens, Step;
    if es != [] {
      StepKeepsInv(s, es[0]);
      StepMoves(s, es[0], i);
      RunMoves(Step(s, es[0]), es[1..], i);
    }
  }

  /**
   * Over every run from an empty outbox and for rows of every kind: a row is done if and only if an execution of it
   * succeeded, canceled if and only if a cancel won, dead if and only if five executions failed; its attempts are
   * the failures; and otherwise it is waiting, or held by the running pass.
   */
  lemma {:induction false} StatusSays(messages: map<MessageId, Message>, es: seq<Event>, i: nat)
    ensures var s0 := Fresh(messages); var t := Run(s0, es);
            i < |t.rows| ==>
            && t.rows[i].attempts == Times(s0, es, i, Failure)
            && (t.rows[i].status.Done? <==> Times(s0, es, i, Success) > 0)
            && (t.rows[i].status.Canceled? <==> Times(s0, es, i, CancelWins) > 0)
            && (t.rows[i].status.Dead? <==> Times(s0, es, i, Failure) >= MAX_ATTEMPTS)
            && (t.rows[i].status.Sending? <==> i in t.claimed)
  {
    var s0 := Fresh(messages);
    FreshInv(messages);
    RunMoves(s0, es, i);
    if i < |Run(s0, es).rows| { assert RowOk(Run(s0, es), i); }
  }

  lemma {:induction false} FreshInv(messages: map<MessageId, Message>)
    ensures Inv(Fresh(messages))
  {
  }

  // ---- nothing succeeds or fails without having begun ----

  /** Executions begun, against those that ended and the one that may be running. */
  lemma {:induction false} StepBegins(s: State, e: Event, i: nat)
    requires Inv(s)
    ensures var t := Step(s, e);
            (if Running(t, i) then 1 else 0) + (if Happens(s, e, i, Success) || Happens(s, e, i, Failure) then 1 else 0)
            <= (if Running(s, i) then 1 else 0) + (if Happens(s, e, i, Begin) then 1 else 0)
  {
    hide SameKind, Invert;
    if s.owed.Some? {
      SettledStatus(s, i);
    } else if e.Finish? && e.i in s.claimed {
      assert ClaimOk(s, e.i) && RowOk(s, e.i);
    }
  }

  /** Every success and every failure over a run is of an execution that was begun in it. */
  lemma {:induction false} NothingUnbegun(s: State, es: seq<Event>, i: nat)
    requires Inv(s)
    ensures (if Running(Run(s, es), i) then 1 else 0) + Times(s, es, i, Success) + Times(s, es, i, Failure)
            <= (if Running(s, i) then 1 else 0) + Times(s, es, i, Begin)
    decreases |es|
  {
    hide Happens, Step, Running;
    if es != [] {
      StepKeepsInv(s, es[0]);
      StepBegins(s, es[0], i);
      NothingUnbegun(Step(s, es[0]), es[1..], i);
      OneEnding(s, es[0], i);
    }
  }

  lemma {:induction false} OneEnding(s: State, e: Event, i: nat)
    ensures !(Happens(s, e, i, Success) && Happens(s, e, i, Failure))
  {
  }
}
