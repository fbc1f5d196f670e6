/**
 * The outbox as the program runs it: one mailbox whose messages and rows the intents and the runner
 * rewrite in place. Every method is proved to be its event of the state machine in `Outbox`.
 */
module OutboxRunner {
  import opened Wrappers
  import I = Intents
  import opened Outbox

  type MessageId = I.MessageId
  type FolderId = I.FolderId
  type FlagName = I.FlagName
  type FlagSet = I.FlagSet

  datatype CancelOutcome = WasCanceled | TooLate | NotFound

  class Mailbox {
    var messages: map<MessageId, I.Message>
    var rows: seq<Row>
    var claimed: map<nat, Claimed>
    ghost var owed: Option<Owed>
    ghost var log: seq<Action>
    ghost var restarts: nat

    ghost function St(): State
      reads this
    {
      State(messages, rows, claimed, owed, log, restarts)
    }

    constructor (messages: map<MessageId, I.Message>)
      ensures St() == Fresh(messages)
    {
      this.messages, rows, claimed, owed, log, restarts := messages, [], map[], None, [], 0;
    }

    // ---- the local half of each intent (outbox/intents.ts) ----

    method ApplyDelete(m: MessageId) returns (p: I.DeletePayload)
      requires m in messages
      modifies this`messages
      ensures m in messages && (messages[m], p) == I.ApplyDelete(old(messages[m])) && messages == old(messages)[m := messages[m]]
    {
      p := I.DeletePayload(messages[m].deleted);
      messages := messages[m := messages[m].(deleted := true)];
    }

    method RevertDelete(m: MessageId, p: Option<I.DeletePayload>) returns (changed: bool)
      requires m in messages
      modifies this`messages
      ensures messages == old(messages)[m := I.RevertDelete(old(messages[m]), p)]
      ensures !changed ==> messages == old(messages)
    {
      if p.Some? && p.value.wasDeleted {
        return false;
      }
      messages := messages[m := messages[m].(deleted := false)];
      return true;
    }

    method ApplyMove(m: MessageId, fromId: Option<FolderId>, destId: FolderId) returns (p: I.MovePayload)
      requires m in messages
      modifies this`messages
      ensures m in messages && (messages[m], p) == I.ApplyMove(old(messages[m]), fromId, destId)
      ensures messages == old(messages)[m := messages[m]]
    {
      var mapped := messages[m].mapped;
      if fromId.None? || fromId.value !in mapped {
        return I.MovePayload(None, destId, false);
      }
      var from := I.Mapping(fromId.value, mapped[fromId.value]);
      mapped := mapped - {fromId.value};
      var added := destId !in mapped;
      if added {
        mapped := mapped[destId := None];
      }
      messages := messages[m := messages[m].(mapped := mapped)];
      return I.MovePayload(Some(from), destId, added);
    }

    method RevertMove(m: MessageId, p: Option<I.MovePayload>) returns (changed: bool)
      requires m in messages
      modifies this`messages
      ensures messages == old(messages)[m := I.RevertMove(old(messages[m]), p)]
      ensures !changed ==> messages == old(messages)
    {
      if p.None? || p.value.from.None? {
        return false;
      }
      var from := p.value.from.value;
      var mapped := messages[m].mapped;
      if from.folderId !in mapped {
        mapped := mapped[from.folderId := from.uid];
      }
      if p.value.addedDest && p.value.destId in mapped && mapped[p.value.destId].None? {
        mapped := mapped - {p.value.destId};
      }
      messages := messages[m := messages[m].(mapped := mapped)];
      return true;
    }

    method ApplyFlags(m: MessageId, values: FlagSet) returns (p: I.FlagsPayload)
      requires m in messages
      modifies this`messages
      ensures m in messages && (messages[m], p) == I.ApplyFlags(old(messages[m]), values)
      ensures messages == old(messages)[m := messages[m]]
    {
      var cur := messages[m].flags;
      var prev: FlagSet := map[];
      for k := 0 to |I.FLAG_NAMES|
        invariant prev == map f | f in I.FLAG_NAMES[..k] && f in values :: cur.Get(f)
      {
        var f := I.FLAG_NAMES[k];
        assert I.FLAG_NAMES[..k + 1] == I.FLAG_NAMES[..k] + [f];
        if f in values {
          prev := prev[f := cur.Get(f)];
        }
      }
      forall f | f in values ensures f in I.FLAG_NAMES {
        assert I.FLAG_NAMES[if f == I.Seen then 0 else 1] == f;
      }
      assert I.FLAG_NAMES[..|I.FLAG_NAMES|] == I.FLAG_NAMES;
      assert prev == map f | f in values :: cur.Get(f);
      messages := messages[m := messages[m].(flags := cur.With(values))];
      return I.FlagsPayload(values, prev);
    }

    /** The first newer row of this message that still stands for `f`, in the list as first read. */
    method FindNewer(newer: seq<Row>, i: nat, m: MessageId, f: FlagName) returns (next: Option<nat>)
      ensures next == NextHit(newer, m, f, i + 1)
    {
      var j := i + 1;
      while j < |newer|
        invariant j > i
        invariant NextHit(newer, m, f, i + 1) == NextHit(newer, m, f, j)
      {
        if Hit(newer[j], m, f) {
          return Some(j);
        }
        j := j + 1;
      }
      return None;
    }

    /** The flags of `RevertFlags`: hand each previous value to a newer row, or put it back on the message. */
    method RevertFlags(i: nat, m: MessageId, p: Option<I.FlagsPayload>) returns (changed: bool)
      requires m in messages
      modifies this`messages, this`rows
      ensures (messages, rows) == Outbox.RevertFlags(old(messages), old(rows), i, m, p)
      ensures !changed ==> messages == old(messages)
    {
      if p.None? {
        return false;
      }
      var newer := rows;
      var restore: FlagSet := map[];
      var cur := messages[m].flags;
      for k := 0 to |I.FLAG_NAMES|
        invariant messages == old(messages)
        invariant rows == HandOvers(newer, i, m, p.value, k)
        invariant restore == Restored(newer, i, m, p.value, cur, k)
      {
        var f := I.FLAG_NAMES[k];
        if f in p.value.values && f in p.value.prev {
          var target, prev := p.value.values[f], p.value.prev[f];
          var next := FindNewer(newer, i, m, f);
          if next.Some? && newer[next.value].status.Done? {
            // A newer intent that landed owns the flag.
          } else if next.Some? {
            var np := newer[next.value].intent.change.value;
            rows := rows[next.value := rows[next.value].(intent := SetFlags(Some(np.(prev := np.prev[f := prev]))))];
          } else if cur.Get(f) == target && prev != target {
            restore := restore[f := prev];
          }
        }
      }
      if restore == map[] {
        assert messages == messages[m := messages[m].(flags := cur.With(restore))];
        return false;
      }
      messages := messages[m := messages[m].(flags := cur.With(restore))];
      return true;
    }

    // ---- the runner (outbox/runner.ts) ----

    /** Apply the local effect and record the row, together. An unknown message fails both. */
    method EnqueueDelete(m: MessageId) returns (id: Option<nat>)
      requires owed.None?
      modifies this
      ensures St() == Step(old(St()), Event.EnqueueDelete(m))
      ensures id == if m in old(messages) then Some(old(|rows|)) else None
    {
      if m !in messages {
        return None;
      }
      var p := ApplyDelete(m);
      rows := rows + [Row(m, Delete(Some(p)), Pending, 0)];
      return Some(|rows| - 1);
    }

    /** Archive and move alike; archive passes the inbox, if the account has one. */
    method EnqueueMove(m: MessageId, fromId: Option<FolderId>, destId: FolderId) returns (id: Option<nat>)
      requires owed.None?
      modifies this
      ensures St() == Step(old(St()), Event.EnqueueMove(m, fromId, destId))
      ensures id == if m in old(messages) then Some(old(|rows|)) else None
    {
      if m !in messages {
        return None;
      }
      var p := ApplyMove(m, fromId, destId);
      rows := rows + [Row(m, Move(Some(p)), Pending, 0)];
      return Some(|rows| - 1);
    }

    method EnqueueFlags(m: MessageId, values: FlagSet) returns (flags: Option<I.Flags>)
      requires owed.None?
      modifies this
      ensures St() == Step(old(St()), Event.EnqueueFlags(m, values))
      ensures flags == if m in old(messages) then Some(old(messages)[m].flags.With(values)) else None
    {
      if m !in messages {
        return None;
      }
      var p := ApplyFlags(m, values);
      rows := rows + [Row(m, SetFlags(Some(p)), Pending, 0)];
      return Some(messages[m].flags);
    }

    method EnqueueSend()
      requires owed.None?
      modifies this
      ensures St() == Step(old(St()), Event.EnqueueSend)
    {
      rows := rows + [Row(NO_MESSAGE, Send, Pending, 0)];
    }

    /** Apply the inverse of row `i`, with the payload the caller read: the second transaction of a cancel or a death. */
    method RevertIntent(i: nat, intent: Intent)
      requires i < |rows| && (if intent.Send? then owed.None? else owed == Some(Owed(i, intent)))
      modifies this
      ensures intent.Send? ==> St() == old(St())
      ensures !intent.Send? ==> St() == Step(old(St()), Undo)
    {
      var m := rows[i].messageId;
      if intent.Send? {
        return;
      }
      owed := None;
      log := log + [Inverted(i)];
      if m !in messages {
        return;
      }
      match intent {
        case Delete(p) => var _ := RevertDelete(m, p);
        case Move(p) => var _ := RevertMove(m, p);
        case SetFlags(p) => var _ := RevertFlags(i, m, p);
      }
    }

    /** The first transaction of a cancel: reading the status and flipping it is one conditional update, so a claim cannot come between. */
    method FlipCanceled(i: nat) returns (won: bool)
      requires owed.None? && i < |rows|
      modifies this`rows, this`log, this`owed
      ensures won <==> old(rows)[i].status.Pending?
      ensures St() == Step(old(St()), Cancel(i))
    {
      if !rows[i].status.Pending? {
        return false;
      }
      owed := if rows[i].intent.Send? then None else Some(Owed(i, rows[i].intent));
      rows := rows[i := rows[i].(status := Canceled)];
      log := log + [CancelWon(i)];
      return true;
    }

    /**
     * A cancel. The second transaction may fail for good, `reverted` says whether it commits: then the row is
     * canceled and its local effect stays. A crash between the two is `FlipCanceled` and then `ResetInflight`.
     */
    method CancelOutbox(i: nat, reverted: bool) returns (outcome: CancelOutcome)
      requires owed.None?
      modifies this
      ensures St() == Step(Step(old(St()), Cancel(i)), if reverted then Undo else Abandon)
      ensures outcome == if i >= old(|rows|) then NotFound else if old(rows)[i].status.Pending? then WasCanceled else TooLate
    {
      if i >= |rows| {
        return NotFound;
      }
      var row := rows[i];
      var won := FlipCanceled(i);
      if !won {
        return TooLate;
      }
      if reverted {
        RevertIntent(i, row.intent);
      } else {
        GiveUp();
      }
      return WasCanceled;
    }

    /** The inverse's transaction failed for good: nothing is left to remember it by. */
    ghost method GiveUp()
      modifies this`owed, this`log
      ensures St() == Forgotten(old(St()))
    {
      if owed.Some? {
        log := log + [Lost(owed.value.i)];
        owed := None;
      }
    }

    method ClaimRow(i: nat) returns (won: bool)
      requires owed.None?
      modifies this`rows, this`claimed
      ensures St() == Step(old(St()), Claim(i))
      ensures won <==> i < old(|rows|) && old(rows)[i].status.Pending?
    {
      if i >= |rows| || !rows[i].status.Pending? {
        return false;
      }
      claimed := claimed[i := Claimed(rows[i], false)];
      rows := rows[i := rows[i].(status := Sending)];
      return true;
    }

    method StartRow(i: nat)
      requires owed.None? && i in claimed && !claimed[i].started
      modifies this`claimed, this`log
      ensures St() == Step(old(St()), Start(i))
    {
      claimed := claimed[i := claimed[i].(started := true)];
      log := log + [Executed(i)];
    }

    method MarkDone(i: nat)
      requires owed.None? && i < |rows| && i in claimed && claimed[i].started
      modifies this
      ensures St() == Step(old(St()), Finish(i, true))
    {
      rows := rows[i := rows[i].(status := Done)];
      claimed := claimed - {i};
    }

    /** The first transaction of a failed attempt: one more attempt, or the row is dead. */
    method FlipFailed(i: nat) returns (terminal: bool)
      requires owed.None? && i < |rows| && i in claimed && claimed[i].started
      modifies this`rows, this`claimed, this`owed
      ensures terminal <==> old(claimed)[i].row.attempts + 1 >= MAX_ATTEMPTS
      ensures St() == Step(old(St()), Finish(i, false))
    {
      var row := claimed[i].row;
      var attempts := row.attempts + 1;
      terminal := attempts >= MAX_ATTEMPTS;
      rows := rows[i := rows[i].(attempts := attempts, status := if terminal then Dead else Pending)];
      claimed := claimed - {i};
      owed := if terminal && !row.intent.Send? then Some(Owed(i, row.intent)) else None;
    }

    /** A failed attempt; a row that dies is reverted in a second transaction, which may fail for good. */
    method MarkFailed(i: nat, reverted: bool)
      requires owed.None? && i < |rows| && i in claimed && claimed[i].started
      modifies this
      ensures St() == Step(Step(old(St()), Finish(i, false)), if reverted then Undo else Abandon)
    {
      var row := claimed[i].row;
      var terminal := FlipFailed(i);
      if terminal && reverted {
        RevertIntent(i, row.intent);
      } else if terminal {
        GiveUp();
      }
    }

    /** Startup after a crash: nothing is running, so every row caught mid-action waits again. */
    method ResetInflight()
      modifies this
      ensures St() == Step(old(St()), Restart)
    {
      GiveUp();
      ghost var start := St();
      var i := 0;
      var was := rows;
      while i < |rows|
        invariant |rows| == |was| && i <= |rows|
        invariant St() == start.(rows := rows)
        invariant forall k :: 0 <= k < i ==> rows[k] == if was[k].status.Sending? then was[k].(status := Pending) else was[k]
        invariant forall k :: i <= k < |rows| ==> rows[k] == was[k]
      {
        if rows[i].status.Sending? {
          rows := rows[i := rows[i].(status := Pending)];
        }
        i := i + 1;
      }
      claimed := map[];
      restarts := restarts + 1;
    }
  }
}
