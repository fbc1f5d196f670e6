/**
 * What an outbox row may live through, over every interleaving of enqueues, cancels, claims,
 * executions, failures and restarts: who may win, how often the inverse runs, how many executions.
 */
module OutboxProtocol {
  import opened Wrappers
  import opened Intents
  import opened Outbox

  /** How often an action happened. */
  ghost function Times(s: State, a: Action): nat {
    multiset(s.log)[a]
  }

  predicate Terminal(status: Status) {
    status.Done? || status.Canceled? || status.Dead?
  }

  /** The inverse of row `i` is still to come. */
  predicate Owes(s: State, i: nat) {
    s.owed.Some? && s.owed.value.i == i
  }

  /**
   * One row's history, given where the row is now: what was canceled or died - a queued mail apart - is
   * inverted once, or owed its inverse, or has lost it for good; no other row was ever inverted.
   */
  ghost predicate RowHistory(s: State, i: nat) {
    if i >= |s.rows| then
      Times(s, Executed(i)) == Times(s, CancelWon(i)) == Times(s, Inverted(i)) == Times(s, Lost(i)) == 0
    else
      var row := s.rows[i];
      && Times(s, CancelWon(i)) == (if row.status.Canceled? then 1 else 0)
      && Times(s, Inverted(i)) + Times(s, Lost(i)) + (if Owes(s, i) then 1 else 0)
         == (if (row.status.Canceled? || row.status.Dead?) && !row.intent.Send? then 1 else 0)
      && Times(s, Executed(i)) <= row.attempts + (if row.status.Done? then 1 else 0)
                                  + (if i in s.claimed && s.claimed[i].started then 1 else 0) + s.restarts
  }

  /** No execution of a row is recorded after its cancel. */
  ghost predicate CancelEndsIt(log: seq<Action>) {
    forall a, b :: 0 <= a < b < |log| && log[a].CancelWon? && log[b].Executed? ==> log[a].i != log[b].i
  }

  ghost predicate History(s: State) {
    CancelEndsIt(s.log) && forall i: nat :: RowHistory(s, i)
  }

  lemma {:induction false} TimesAfter(s: State, t: State, a: Action, b: Action)
    requires t.log == s.log + [a]
    ensures Times(t, b) == Times(s, b) + (if a == b then 1 else 0)
  {
  }

  lemma {:induction false} TimesAfterAll(s: State, t: State, a: Action, i: nat)
    requires t.log == s.log + [a]
    ensures Times(t, Executed(i)) == Times(s, Executed(i)) + if a == Executed(i) then 1 else 0
    ensures Times(t, CancelWon(i)) == Times(s, CancelWon(i)) + if a == CancelWon(i) then 1 else 0
    ensures Times(t, Inverted(i)) == Times(s, Inverted(i)) + if a == Inverted(i) then 1 else 0
    ensures Times(t, Lost(i)) == Times(s, Lost(i)) + if a == Lost(i) then 1 else 0
  {
    TimesAfter(s, t, a, Executed(i));
    TimesAfter(s, t, a, CancelWon(i));
    TimesAfter(s, t, a, Inverted(i));
    TimesAfter(s, t, a, Lost(i));
  }

  lemma {:induction false} InvKept(s: State)
    requires Inv(s)
    ensures Inv(s.(owed := None))
  {
    forall j | 0 <= j < |s.rows| ensures RowOk(s.(owed := None), j) { assert RowOk(s, j); }
    forall j | j in s.claimed ensures ClaimOk(s.(owed := None), j) { assert ClaimOk(s, j); }
  }

  /** The inverse records itself and moves no row's status. */
  lemma {:induction false} InvertHistory(s: State, i: nat, intent: Intent, j: nat)
    requires i < |s.rows| && Inv(s) && SameKind(intent, s.rows[i].intent)
    ensures var r := Invert(s, i, intent);
            && Times(r, Executed(j)) == Times(s, Executed(j)) && Times(r, CancelWon(j)) == Times(s, CancelWon(j))
            && Times(r, Inverted(j)) == Times(s, Inverted(j)) + (if i == j && !intent.Send? then 1 else 0)
            && Times(r, Lost(j)) == Times(s, Lost(j))
            && (j < |s.rows| ==> SameRow(s.rows[j], r.rows[j]) && (s.rows[j].intent.Send? <==> r.rows[j].intent.Send?))
  {
    forall k | 0 <= k < |s.rows| ensures SameKind(s.rows[k].intent, s.rows[k].intent) {
      assert RowOk(s, k);
    }
    if intent.SetFlags? && intent.change.Some? && s.rows[i].messageId in s.messages {
      HandOversFrame(s.rows, i, s.rows[i].messageId, intent.change.value, 2);
    }
  }

  /** A row that may be closed as canceled or dead, its inverse still to come. */
  ghost predicate MayClose(s: State, i: nat, status: Status, attempts: nat, intent: Intent) {
    && s.owed.None? && i < |s.rows| && Active(s.rows[i]) && SameKind(intent, s.rows[i].intent)
    && ((status.Canceled? && s.rows[i].status.Pending? && attempts == s.rows[i].attempts)
        || (status.Dead? && attempts == s.rows[i].attempts + 1 && i in s.claimed))
  }

  /** Closing a row as canceled or dead keeps every row's history: its inverse is owed from then on. */
  lemma {:induction false} ClosingKeepsHistory(s: State, i: nat, status: Status, attempts: nat, intent: Intent)
    requires Inv(s) && History(s) && MayClose(s, i, status, attempts, intent)
    ensures History(Owing(Closing(s, i, status, attempts), i, intent))
  {
    hide RowHistory, RowOk, ClaimOk, SameKind;
    var r := Owing(Closing(s, i, status, attempts), i, intent);
    assert RowOk(s, i) && RowHistory(s, i);
    forall j: nat ensures RowHistory(r, j) {
      assert RowHistory(s, j);
      if j == i { ClosedRowHistory(s, i, status, attempts, intent); } else { OtherRowHistory(s, i, status, attempts, intent, j); }
    }
  }

  lemma {:induction false} ClosedRowHistory(s: State, i: nat, status: Status, attempts: nat, intent: Intent)
    requires RowHistory(s, i) && MayClose(s, i, status, attempts, intent) && RowOk(s, i)
    ensures RowHistory(Owing(Closing(s, i, status, attempts), i, intent), i)
  {
    assert intent.Send? <==> s.rows[i].intent.Send?;
    hide SameKind;
    ClosingLog(s, i, status, attempts, i);
    hide Times;
  }

  lemma {:induction false} OtherRowHistory(s: State, i: nat, status: Status, attempts: nat, intent: Intent, j: nat)
    requires RowHistory(s, j) && s.owed.None? && i < |s.rows| && i != j
    ensures RowHistory(Owing(Closing(s, i, status, attempts), i, intent), j)
  {
    ClosingLog(s, i, status, attempts, j);
    hide Times;
  }

  lemma {:induction false} ClosingLog(s: State, i: nat, status: Status, attempts: nat, j: nat)
    requires i < |s.rows|
    ensures var t := Closing(s, i, status, attempts);
            && Times(t, Executed(j)) == Times(s, Executed(j)) && Times(t, Inverted(j)) == Times(s, Inverted(j))
            && Times(t, Lost(j)) == Times(s, Lost(j))
            && Times(t, CancelWon(j)) == Times(s, CancelWon(j)) + if status.Canceled? && i == j then 1 else 0
  {
    if status.Canceled? {
      TimesAfterAll(s, Closing(s, i, status, attempts), CancelWon(i), j);
    }
  }

  /** An owed inverse that comes is recorded as such, one that is forgotten as lost. */
  lemma {:induction false} SettleKeepsHistory(s: State)
    requires Inv(s) && History(s) && s.owed.Some?
    ensures History(Settled(s)) && History(Forgotten(s))
  {
    hide RowHistory, Inv;
    SettledCancels(s);
    forall j: nat ensures RowHistory(Settled(s), j) && RowHistory(Forgotten(s), j) {
      SettledRowHistory(s, j);
      ForgottenRowHistory(s, j);
    }
  }

  lemma {:induction false} SettledCancels(s: State)
    requires Inv(s) && CancelEndsIt(s.log) && s.owed.Some?
    ensures CancelEndsIt(Settled(s).log) && CancelEndsIt(Forgotten(s).log)
  {
  }

  lemma {:induction false} SettledRowHistory(s: State, j: nat)
    requires Inv(s) && RowHistory(s, j) && s.owed.Some?
    ensures RowHistory(Settled(s), j)
  {
    var t, i, intent := s.(owed := None), s.owed.value.i, s.owed.value.intent;
    InvKept(s);
    InvertHistory(t, i, intent, j);
    hide Invert, Inv, Times, SameKind;
  }

  lemma {:induction false} ForgottenRowHistory(s: State, j: nat)
    requires Inv(s) && RowHistory(s, j) && s.owed.Some?
    ensures RowHistory(Forgotten(s), j)
  {
    TimesAfterAll(s, Forgotten(s), Lost(s.owed.value.i), j);
    hide Times;
  }

  lemma {:induction false} StartKeepsHistory(s: State, i: nat)
    requires Inv(s) && History(s) && s.owed.None?
    ensures History(Act(s, Start(i)))
  {
    var t := Act(s, Start(i));
    if i in s.claimed && !s.claimed[i].started {
      assert ClaimOk(s, i) && RowOk(s, i) && RowHistory(s, i);
      assert CancelWon(i) !in s.log;
      forall j: nat ensures RowHistory(t, j) {
        assert RowHistory(s, j);
        TimesAfterAll(s, t, Executed(i), j);
      }
    }
  }

  /** Steps that record nothing and neither cancel nor kill a row. */
  lemma {:induction false} QuietKeepsHistory(s: State, e: Event)
    requires Inv(s) && History(s) && !e.Cancel? && !e.Start? && s.owed.None?
    requires e.Finish? && e.i in s.claimed ==> e.ok || s.claimed[e.i].row.attempts + 1 < MAX_ATTEMPTS
    ensures History(Act(s, e))
  {
    var t := Act(s, e);
    assert t.log == s.log && t.owed == s.owed;
    forall j: nat ensures RowHistory(t, j) {
      assert RowHistory(s, j);
      if j < |s.rows| { assert RowOk(s, j); }
      if j in s.claimed { assert ClaimOk(s, j); }
    }
  }

  lemma {:induction false} StepKeepsHistory(s: State, e: Event)
    requires Inv(s) && History(s)
    ensures History(Step(s, e))
  {
    if s.owed.None? {
      ActKeepsHistory(s, e);
    } else {
      SettleKeepsHistory(s);
      SettleKeepsInv(s);
      QuietKeepsHistory(Forgotten(s), Restart);
    }
  }

  lemma {:induction false} ActKeepsHistory(s: State, e: Event)
    requires Inv(s) && History(s) && s.owed.None?
    ensures History(Act(s, e))
  {
    if e.Cancel? {
      if e.i < |s.rows| && s.rows[e.i].status.Pending? {
        assert RowOk(s, e.i);
        ClosingKeepsHistory(s, e.i, Canceled, s.rows[e.i].attempts, s.rows[e.i].intent);
      }
    } else if e.Start? {
      StartKeepsHistory(s, e.i);
    } else if e.Finish? && e.i in s.claimed && s.claimed[e.i].started && !e.ok && s.claimed[e.i].row.attempts + 1 >= MAX_ATTEMPTS {
      assert ClaimOk(s, e.i) && RowOk(s, e.i);
      ClosingKeepsHistory(s, e.i, Dead, s.claimed[e.i].row.attempts + 1, s.claimed[e.i].row.intent);
    } else if e.Finish? && e.i in s.claimed && !s.claimed[e.i].started {
      assert Act(s, e) == s;
    } else {
      QuietKeepsHistory(s, e);
    }
  }

  /**
   * Every run keeps the protocol: cancel and inverse at most once per row, the inverse only for rows
   * that were canceled or died, and exactly once for those unless it is still owed or was lost between
   * the two transactions; and no execution recorded after a cancel won.
   */
  lemma {:induction false} RunKeepsHistory(s: State, es: seq<Event>)
    requires Inv(s) && History(s)
    ensures Inv(Run(s, es)) && History(Run(s, es))
    decreases |es|
  {
    if es != [] {
      StepKeepsInv(s, es[0]);
      StepKeepsHistory(s, es[0]);
      RunKeepsHistory(Step(s, es[0]), es[1..]);
    }
  }

  lemma {:induction false} FreshHistory(messages: map<MessageId, Message>)
    ensures Inv(Fresh(messages)) && History(Fresh(messages))
  {
  }

  /**
   * A row is executed at most five times, plus once for every restart that interrupted it; and a row
   * that was executed five times without a restart and is not running now has reached its end.
   */
  lemma {:induction false} ExecutionsBounded(messages: map<MessageId, Message>, es: seq<Event>, i: nat)
    ensures var s := Run(Fresh(messages), es);
            && Times(s, Executed(i)) <= MAX_ATTEMPTS + s.restarts
            && (&& i < |s.rows| && Times(s, Executed(i)) >= MAX_ATTEMPTS && s.restarts == 0
                && !(i in s.claimed && s.claimed[i].started)
                ==> Terminal(s.rows[i].status))
  {
    FreshHistory(messages);
    RunKeepsHistory(Fresh(messages), es);
    var s := Run(Fresh(messages), es);
    assert RowHistory(s, i);
    if i < |s.rows| {
      assert RowOk(s, i);
    }
  }

  /**
   * Read off the history: over any run from an empty outbox, the inverse of a row runs at most once, and exactly
   * once if and only if the row is a mailbox intent that was canceled or died, its inverse is not still to
   * come, and the second transaction neither failed for good nor fell to a crash.
   */
  lemma {:induction false} InvertedExactly(messages: map<MessageId, Message>, es: seq<Event>, i: nat)
    ensures var s := Run(Fresh(messages), es);
            && Times(s, Inverted(i)) <= 1
            && (Times(s, Inverted(i)) == 1 <==>
                && i < |s.rows| && (s.rows[i].status.Canceled? || s.rows[i].status.Dead?) && !s.rows[i].intent.Send?
                && !Owes(s, i) && Lost(i) !in s.log)
  {
    FreshHistory(messages);
    RunKeepsHistory(Fresh(messages), es);
    var s := Run(Fresh(messages), es);
    assert RowHistory(s, i);
    assert Times(s, Lost(i)) > 0 <==> Lost(i) in s.log;
  }

  /** What happens to a row that has ended: nothing, but that an owed inverse comes or is lost. */
  ghost predicate Untouched(s: State, t: State, i: nat) {
    && i < |s.rows| && i < |t.rows| && t.rows[i].status == s.rows[i].status && t.rows[i].attempts == s.rows[i].attempts
    && Times(t, Executed(i)) == Times(s, Executed(i))
    && Times(t, CancelWon(i)) == Times(s, CancelWon(i))
    && (Owes(t, i) ==> Owes(s, i))
    && (!Owes(s, i) ==> Times(t, Inverted(i)) == Times(s, Inverted(i)) && Times(t, Lost(i)) == Times(s, Lost(i)))
  }

  lemma {:induction false} TerminalClosing(s: State, k: nat, status: Status, attempts: nat, intent: Intent, i: nat)
    requires s.owed.None? && i < |s.rows| && k < |s.rows| && k != i
    ensures Untouched(s, Owing(Closing(s, k, status, attempts), k, intent), i)
  {
    if status.Canceled? {
      TimesAfterAll(s, Closing(s, k, status, attempts), CancelWon(k), i);
    }
  }

  lemma {:induction false} TerminalSettle(s: State, e: Event, i: nat)
    requires Inv(s) && i < |s.rows| && Terminal(s.rows[i].status) && s.owed.Some?
    ensures Untouched(s, Step(s, e), i)
  {
    var k, intent := s.owed.value.i, s.owed.value.intent;
    if e.Undo? {
      SettleKeepsInv(s);
      InvKept(s);
      InvertHistory(s.(owed := None), k, intent, i);
    } else if e.Abandon? || e.Restart? {
      TimesAfterAll(s, Forgotten(s), Lost(k), i);
    }
  }

  lemma {:induction false} TerminalAct(s: State, e: Event, i: nat)
    requires Inv(s) && i < |s.rows| && Terminal(s.rows[i].status) && s.owed.None?
    ensures Untouched(s, Act(s, e), i)
  {
    hide SameKind, Times;
    assert RowOk(s, i);
    match e
    case Cancel(k) =>
      if k < |s.rows| && s.rows[k].status.Pending? {
        TerminalClosing(s, k, Canceled, s.rows[k].attempts, s.rows[k].intent, i);
      }
    case Start(k) =>
      if k in s.claimed && !s.claimed[k].started {
        assert ClaimOk(s, k) && RowOk(s, k);
        TimesAfterAll(s, Act(s, e), Executed(k), i);
      }
    case Finish(k, ok) => TerminalFinish(s, k, ok, i);
    case _ => TerminalQuiet(s, e, i);
  }

  lemma {:induction false} TerminalFinish(s: State, k: nat, ok: bool, i: nat)
    requires Inv(s) && i < |s.rows| && Terminal(s.rows[i].status) && s.owed.None?
    ensures Untouched(s, Act(s, Finish(k, ok)), i)
  {
    hide SameKind;
    assert RowOk(s, i);
    if k in s.claimed { assert ClaimOk(s, k) && RowOk(s, k); }
    assert Act(s, Finish(k, ok)).log == s.log;
  }

  lemma {:induction false} TerminalQuiet(s: State, e: Event, i: nat)
    requires i < |s.rows| && Terminal(s.rows[i].status) && RowOk(s, i) && s.owed.None? && !e.Cancel? && !e.Start? && !e.Finish?
    ensures Untouched(s, Act(s, e), i)
  {
    assert Act(s, e).log == s.log;
  }

  /** Done, canceled and dead are final: whatever happens later, the row keeps its status and nothing more is done for it. */
  lemma {:induction false} TerminalIsFinal(s: State, es: seq<Event>, i: nat)
    requires Inv(s) && i < |s.rows| && Terminal(s.rows[i].status)
    ensures Untouched(s, Run(s, es), i)
    decreases |es|
  {
    if es != [] {
      StepKeepsInv(s, es[0]);
      if s.owed.None? { TerminalAct(s, es[0], i); } else { TerminalSettle(s, es[0], i); }
      TerminalIsFinal(Step(s, es[0]), es[1..], i);
    }
  }
}
