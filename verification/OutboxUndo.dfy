/**
 * Undo, newest first, of any stack of deletes, moves and flag changes over any messages.
 */
module OutboxUndo {
  import opened Wrappers
  import opened Intents
  import opened Outbox
  import FlagReplay

  /** A mailbox intent on a known message whose move, if it is one, names two different folders. */
  predicate Undoable(s: State, e: Event) {
    match e
    case EnqueueDelete(m) => m in s.messages
    case EnqueueMove(m, fromId, destId) => m in s.messages && fromId != Some(destId)
    case EnqueueFlags(m, _) => m in s.messages
    case _ => false
  }

  /** Cancels of rows `hi - 1` down to `lo`, each followed by its inverse. */
  function CancelsDown(lo: nat, hi: nat): seq<Event>
    requires lo <= hi
    decreases hi - lo
  {
    if lo == hi then [] else CancelsDown(lo + 1, hi) + [Cancel(lo), Undo]
  }

  /** `t` is `s` with only canceled rows added behind it. */
  ghost predicate OnlyCanceledAdded(s: State, t: State) {
    && t.messages == s.messages && s.rows <= t.rows && s.owed == None == t.owed
    && forall k :: |s.rows| <= k < |t.rows| ==> t.rows[k].status.Canceled?
  }

  /** Canceling an intent when nothing newer stands takes back exactly its own effect. */
  lemma {:induction false} CancelTakesBack(s: State, e: Event, t: State)
    requires Undoable(s, e) && s.owed.None? && OnlyCanceledAdded(Step(s, e), t)
    ensures OnlyCanceledAdded(s, Step(Step(t, Cancel(|s.rows|)), Undo))
  {
    hide Restored, HandOvers, NextHit;
    var n := |s.rows|;
    var u := Step(s, e);
    var m := e.messageId;
    assert t.rows[n] == u.rows[n];
    var closed := Closing(t, n, Canceled, t.rows[n].attempts);
    match e
    case EnqueueDelete(_) =>
      DeleteRoundTrip(s.messages[m]);
    case EnqueueMove(_, fromId, destId) =>
      MoveRoundTripExact(s.messages[m], fromId, destId);
    case EnqueueFlags(_, values) =>
      var p := ApplyFlags(s.messages[m], values).1;
      var cur := t.messages[m].flags;
      assert forall k :: n < k < |closed.rows| ==> closed.rows[k] == t.rows[k] && !Alive(closed.rows[k]);
      assert forall f :: FlagOutcome(closed.rows, n, m, p, f) == if f in values then Restore else Leave;
      FlagReplay.RestoredFlag(closed.rows, n, m, p, cur, Seen);
      FlagReplay.RestoredFlag(closed.rows, n, m, p, cur, Flagged);
      NoHandOver(closed.rows, n, m, p);
      var back := cur.With(Restored(closed.rows, n, m, p, cur, 2));
      assert back.Get(Seen) == s.messages[m].flags.Get(Seen) && back.Get(Flagged) == s.messages[m].flags.Get(Flagged);
  }

  lemma {:induction false} UndoableStep(s: State, e: Event)
    requires Undoable(s, e) && s.owed.None?
    ensures var u := Step(s, e); u.owed.None? && |u.rows| == |s.rows| + 1 && u.messages.Keys == s.messages.Keys && s.rows <= u.rows
  {
  }

  lemma {:induction false} RunThenCancel(s: State, es: seq<Event>, i: nat)
    ensures Run(s, es + [Cancel(i), Undo]) == Step(Step(Run(s, es), Cancel(i)), Undo)
  {
    hide Step;
    var last := [Cancel(i), Undo];
    RunAppend(s, es, last);
    assert last[1..] == [Undo] && [Undo][1..] == [];
  }

  lemma {:induction false} NoHandOver(rows: seq<Row>, i: nat, m: MessageId, p: FlagsPayload)
    requires forall f :: !FlagOutcome(rows, i, m, p, f).HandTo?
    ensures HandOvers(rows, i, m, p, 2) == rows
  {
    assert HandOvers(rows, i, m, p, 1) == rows;
  }

  /**
   * Make any intents, then cancel them newest first: every message is exactly what it was - folder
   * mappings with their UIDs, tombstone and flags - and no older row has changed.
   */
  lemma {:induction false} NewestFirstRestores(s: State, es: seq<Event>)
    requires s.owed.None? && forall k :: 0 <= k < |es| ==> Undoable(s, es[k])
    ensures var n := |s.rows|; var t := Run(s, es + CancelsDown(n, n + |es|));
            t.owed.None? && t.messages == s.messages && s.rows <= t.rows && |t.rows| == n + |es|
            && forall k :: n <= k < n + |es| ==> t.rows[k].status.Canceled?
    decreases |es|
  {
    var n := |s.rows|;
    if es != [] {
      var u := Step(s, es[0]);
      var rest := es[1..];
      UndoableStep(s, es[0]);
      forall k | 0 <= k < |rest| ensures Undoable(u, rest[k]) {
        assert Undoable(s, es[k + 1]);
      }
      hide Undoable, Step, Act, Settled, Invert, Run;
      NewestFirstRestores(u, rest);
      var downs := CancelsDown(n + 1, n + |es|);
      var t := Run(u, rest + downs);
      CancelTakesBack(s, es[0], t);
      RunThenCancel(u, rest + downs, n);
      assert (es + CancelsDown(n, n + |es|))[0] == es[0];
      assert (es + CancelsDown(n, n + |es|))[1..] == rest + downs + [Cancel(n), Undo];
    } else {
      assert es + CancelsDown(n, n) == [];
    }
  }
}
