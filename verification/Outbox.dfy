/**
 * The outbox as a state machine (outbox/runner.ts): rows in insertion order, the messages their local
 * effects touch, and the rows a running pass holds in memory. One event is one transaction; which due
 * row runs when is left to whoever chooses the events. A cancel and a death commit the row's new status
 * first and take its local effect back in a second transaction, which may fail or never come.
 */
module Outbox {
  import opened Wrappers
  import opened Intents

  /** Retries before a row is parked as dead. */
  const MAX_ATTEMPTS: nat := 5

  /** The kind of a row with its payload; `None` is a row queued before payloads existed. */
  datatype Intent =
    | Send
    | Delete(deletion: Option<DeletePayload>)
    | Move(move: Option<MovePayload>)
    | SetFlags(change: Option<FlagsPayload>)

  datatype Status = Pending | Sending | Done | Canceled | Dead

  datatype Row = Row(messageId: MessageId, intent: Intent, status: Status, attempts: nat)

  /** A row as a pass read it when it claimed it, and whether its server action has started. */
  datatype Claimed = Claimed(row: Row, started: bool)

  /** The inverse of row `i` still to be applied, with the payload in hand. */
  datatype Owed = Owed(i: nat, intent: Intent)

  /** The history: server actions begun, cancels won, inverses applied, inverses that never came. */
  datatype Action = Executed(i: nat) | CancelWon(i: nat) | Inverted(i: nat) | Lost(i: nat)

  datatype State = State(
    messages: map<MessageId, Message>,
    rows: seq<Row>,
    claimed: map<nat, Claimed>,
    owed: Option<Owed>,
    log: seq<Action>,
    restarts: nat)

  datatype Event =
    | EnqueueSend
    | EnqueueDelete(messageId: MessageId)
    | EnqueueMove(messageId: MessageId, fromId: Option<FolderId>, destId: FolderId)
    | EnqueueFlags(messageId: MessageId, values: FlagSet)
    | Cancel(i: nat)
    | Claim(i: nat)
    | Start(i: nat)
    | Finish(i: nat, ok: bool)
    | Undo
    | Abandon
    | Restart

  predicate Alive(row: Row) {
    row.status.Pending? || row.status.Sending? || row.status.Done?
  }

  predicate Active(row: Row) {
    row.status.Pending? || row.status.Sending?
  }

  /** The row changes flag `f` of message `m`. */
  predicate Touches(row: Row, m: MessageId, f: FlagName) {
    row.messageId == m && row.intent.SetFlags? && row.intent.change.Some? && f in row.intent.change.value.values
  }

  predicate Hit(row: Row, m: MessageId, f: FlagName) {
    Alive(row) && Touches(row, m, f)
  }

  /** The first row at or after `j` that still stands for flag `f` of message `m`. */
  function NextHit(rows: seq<Row>, m: MessageId, f: FlagName, j: nat): (r: Option<nat>)
    ensures r.None? ==> forall t :: j <= t < |rows| ==> !Hit(rows[t], m, f)
    ensures r.Some? ==> j <= r.value < |rows| && Hit(rows[r.value], m, f) && forall t :: j <= t < r.value ==> !Hit(rows[t], m, f)
    decreases |rows| - j
  {
    if j >= |rows| then None
    else if Hit(rows[j], m, f) then Some(j)
    else NextHit(rows, m, f, j + 1)
  }

  /** What undoing row `i` means for one flag. */
  datatype Outcome = Leave | HandTo(j: nat) | Restore

  function FlagOutcome(rows: seq<Row>, i: nat, m: MessageId, p: FlagsPayload, f: FlagName): Outcome {
    if f !in p.values || f !in p.prev then Leave
    else
      var next := NextHit(rows, m, f, i + 1);
      if next.None? then Restore
      else if rows[next.value].status.Done? then Leave
      else HandTo(next.value)
  }

  /** Rewrite row `j`'s payload as it was in `read`, with one previous value replaced. */
  function HandOver(rows: seq<Row>, read: seq<Row>, j: nat, f: FlagName, v: bool): seq<Row>
    requires j < |rows| == |read|
    requires read[j].intent.SetFlags? && read[j].intent.change.Some?
  {
    var np := read[j].intent.change.value;
    rows[j := rows[j].(intent := SetFlags(Some(np.(prev := np.prev[f := v]))))]
  }

  /** The row list after handing over the first `k` flags; every write starts from the list as first read. */
  function HandOvers(rows: seq<Row>, i: nat, m: MessageId, p: FlagsPayload, k: nat): (r: seq<Row>)
    requires k <= |FLAG_NAMES|
    ensures |r| == |rows|
  {
    if k == 0 then rows
    else
      var f := FLAG_NAMES[k - 1];
      var before := HandOvers(rows, i, m, p, k - 1);
      var o := FlagOutcome(rows, i, m, p, f);
      if o.HandTo? then HandOver(before, rows, o.j, f, p.prev[f]) else before
  }

  /** The flags put back on the message itself by the first `k` flags. */
  function Restored(rows: seq<Row>, i: nat, m: MessageId, p: FlagsPayload, cur: Flags, k: nat): FlagSet
    requires k <= |FLAG_NAMES|
  {
    if k == 0 then map[]
    else
      var f := FLAG_NAMES[k - 1];
      var before := Restored(rows, i, m, p, cur, k - 1);
      if FlagOutcome(rows, i, m, p, f).Restore? && cur.Get(f) == p.values[f] && p.prev[f] != p.values[f]
      then before[f := p.prev[f]] else before
  }

  /** Undo the flags intent of row `i`. */
  function RevertFlags(messages: map<MessageId, Message>, rows: seq<Row>, i: nat, m: MessageId, p: Option<FlagsPayload>)
    : (r: (map<MessageId, Message>, seq<Row>))
    requires m in messages
    ensures r.0.Keys == messages.Keys && |r.1| == |rows|
  {
    if p.None? then (messages, rows)
    else
      var msg := messages[m];
      var restored := Restored(rows, i, m, p.value, msg.flags, 2);
      (messages[m := msg.(flags := msg.flags.With(restored))], HandOvers(rows, i, m, p.value, 2))
  }

  /** Take back the local effect of row `i`, using the payload `intent` the caller holds. */
  function Invert(s: State, i: nat, intent: Intent): (r: State)
    requires i < |s.rows|
    ensures r.messages.Keys == s.messages.Keys && |r.rows| == |s.rows|
    ensures r.claimed == s.claimed && r.restarts == s.restarts && r.owed == s.owed
    ensures r.log == if intent.Send? then s.log else s.log + [Inverted(i)]
  {
    var m := s.rows[i].messageId;
    if intent.Send? then s
    else
      var t := s.(log := s.log + [Inverted(i)]);
      if m !in s.messages then t
      else match intent
        case Delete(p) => t.(messages := s.messages[m := RevertDelete(s.messages[m], p)])
        case Move(p) => t.(messages := s.messages[m := RevertMove(s.messages[m], p)])
        case SetFlags(p) =>
          var (messages, rows) := RevertFlags(s.messages, s.rows, i, m, p);
          t.(messages := messages, rows := rows)
  }

  function Append(s: State, m: MessageId, msg: Message, intent: Intent): State {
    s.(messages := s.messages[m := msg], rows := s.rows + [Row(m, intent, Pending, 0)])
  }

  /** Row `i` gets its new status: a running row leaves the pass, a waiting one is canceled and that is recorded. */
  function Closing(s: State, i: nat, status: Status, attempts: nat): State
    requires i < |s.rows|
  {
    s.(rows := s.rows[i := s.rows[i].(status := status, attempts := attempts)],
       claimed := if status.Canceled? then s.claimed else s.claimed - {i},
       log := if status.Canceled? then s.log + [CancelWon(i)] else s.log)
  }

  /** The message a queued mail belongs to: none. */
  const NO_MESSAGE: MessageId := ""

  /** The inverse of a closed row is owed. A queued mail has none. */
  function Owing(s: State, i: nat, intent: Intent): State {
    s.(owed := if intent.Send? then None else Some(Owed(i, intent)))
  }

  /** What an event does while no inverse is owed. */
  function Act(s: State, e: Event): State {
    match e
    case EnqueueSend => s.(rows := s.rows + [Row(NO_MESSAGE, Send, Pending, 0)])
    // An intent for an unknown message fails its foreign key, and the transaction rolls back.
    case EnqueueDelete(m) =>
      if m !in s.messages then s
      else var (msg, p) := ApplyDelete(s.messages[m]); Append(s, m, msg, Delete(Some(p)))
    case EnqueueMove(m, fromId, destId) =>
      if m !in s.messages then s
      else var (msg, p) := ApplyMove(s.messages[m], fromId, destId); Append(s, m, msg, Move(Some(p)))
    case EnqueueFlags(m, values) =>
      if m !in s.messages then s
      else var (msg, p) := ApplyFlags(s.messages[m], values); Append(s, m, msg, SetFlags(Some(p)))
    case Cancel(i) =>
      if i >= |s.rows| || !s.rows[i].status.Pending? then s
      else
        Owing(Closing(s, i, Canceled, s.rows[i].attempts), i, s.rows[i].intent)
    case Claim(i) =>
      if i >= |s.rows| || !s.rows[i].status.Pending? then s
      else
        s.(rows := s.rows[i := s.rows[i].(status := Sending)], claimed := s.claimed[i := Claimed(s.rows[i], false)])
    case Start(i) =>
      if i !in s.claimed || s.claimed[i].started then s
      else s.(claimed := s.claimed[i := s.claimed[i].(started := true)], log := s.log + [Executed(i)])
    case Finish(i, ok) =>
      if i !in s.claimed || !s.claimed[i].started || i >= |s.rows| then s
      else
        var row := s.claimed[i].row;
        if ok then Closing(s, i, Done, s.rows[i].attempts)
        else if row.attempts + 1 < MAX_ATTEMPTS then Closing(s, i, Pending, row.attempts + 1)
        else Owing(Closing(s, i, Dead, row.attempts + 1), i, row.intent)
    case Restart => Rearmed(s)
    case _ => s
  }

  /** A crash forgets the running pass; startup re-arms what it had claimed. */
  function Rearmed(s: State): State {
    s.(rows := seq(|s.rows|, i requires 0 <= i < |s.rows| =>
                     if s.rows[i].status.Sending? then s.rows[i].(status := Pending) else s.rows[i]),
       claimed := map[], restarts := s.restarts + 1)
  }

  /** The state once the owed inverse, if any, has been applied. */
  function Settled(s: State): (r: State)
    ensures r.owed.None? && r.messages.Keys == s.messages.Keys && |r.rows| == |s.rows|
  {
    if s.owed.None? || s.owed.value.i >= |s.rows| then s.(owed := None)
    else Invert(s.(owed := None), s.owed.value.i, s.owed.value.intent)
  }

  /** The owed inverse will not come: its transaction failed for good, or the process died before it. */
  function Forgotten(s: State): State {
    if s.owed.None? then s else s.(owed := None, log := s.log + [Lost(s.owed.value.i)])
  }

  /**
   * The status of a canceled or dead row and its inverse are one synchronous stretch of two transactions,
   * so while an inverse is owed nothing else happens.
   */
  function Step(s: State, e: Event): State {
    if s.owed.None? then Act(s, e)
    else match e
      case Undo => Settled(s)
      case Abandon => Forgotten(s)
      case Restart => Rearmed(Forgotten(s))
      case _ => s
  }

  function Run(s: State, es: seq<Event>): State
    decreases |es|
  {
    if es == [] then s else Run(Step(s, es[0]), es[1..])
  }

  lemma {:induction false} RunAppend(s: State, es: seq<Event>, fs: seq<Event>)
    ensures Run(s, es + fs) == Run(Run(s, es), fs)
    decreases |es|
  {
    if es == [] {
      assert es + fs == fs;
    } else {
      RunAppend(Step(s, es[0]), es[1..], fs);
      assert (es + fs)[1..] == es[1..] + fs;
    }
  }

  /** An empty outbox over some messages. */
  function Fresh(messages: map<MessageId, Message>): State {
    State(messages, [], map[], None, [], 0)
  }

  /** Same kind and, for flags, the same values, each with a recorded previous value. */
  predicate SameKind(a: Intent, b: Intent) {
    match a
    case Send => b.Send?
    case Delete(_) => a == b
    case Move(_) => a == b
    case SetFlags(p) =>
      && b.SetFlags? && (p.Some? <==> b.change.Some?)
      && (p.Some? ==>
            && p.value.values == b.change.value.values
            && p.value.prev.Keys == p.value.values.Keys == b.change.value.prev.Keys)
  }

  ghost predicate RowOk(s: State, i: nat)
    requires i < |s.rows|
  {
    var row := s.rows[i];
    && (row.status.Sending? <==> i in s.claimed)
    && row.attempts <= MAX_ATTEMPTS
    && (!row.status.Dead? ==> row.attempts < MAX_ATTEMPTS)
    && (row.intent.Send? || row.messageId in s.messages)
    && SameKind(row.intent, row.intent)
  }

  ghost predicate ClaimOk(s: State, i: nat)
    requires i in s.claimed
  {
    && i < |s.rows|
    && s.claimed[i].row.attempts == s.rows[i].attempts
    && SameKind(s.claimed[i].row.intent, s.rows[i].intent)
  }

  ghost predicate OwedOk(s: State) {
    s.owed.Some? ==>
      var o := s.owed.value;
      && o.i < |s.rows| && (s.rows[o.i].status.Canceled? || s.rows[o.i].status.Dead?)
      && !o.intent.Send? && SameKind(o.intent, s.rows[o.i].intent)
  }

  /** What the rows and the running pass agree on. */
  ghost predicate Inv(s: State) {
    && OwedOk(s)
    && (forall i :: 0 <= i < |s.rows| ==> RowOk(s, i))
    && (forall i :: i in s.claimed ==> ClaimOk(s, i))
  }

  ghost predicate SameRow(a: Row, b: Row) {
    a.status == b.status && a.attempts == b.attempts && a.messageId == b.messageId && SameKind(a.intent, b.intent)
  }

  /** Handing previous values over changes nothing in any row but the previous values of flags intents. */
  lemma {:induction false} HandOversFrame(rows: seq<Row>, i: nat, m: MessageId, p: FlagsPayload, k: nat)
    requires k <= |FLAG_NAMES|
    requires forall t :: 0 <= t < |rows| ==> SameKind(rows[t].intent, rows[t].intent)
    ensures forall t :: 0 <= t < |rows| ==> SameRow(rows[t], HandOvers(rows, i, m, p, k)[t])
  {
    if k > 0 {
      HandOversFrame(rows, i, m, p, k - 1);
    }
  }

  lemma {:induction false} InvertKeepsInv(s: State, i: nat, intent: Intent)
    requires i < |s.rows| && Inv(s) && s.owed.None?
    ensures Inv(Invert(s, i, intent))
  {
    var m := s.rows[i].messageId;
    if intent.SetFlags? && intent.change.Some? && m in s.messages {
      assert forall t :: 0 <= t < |s.rows| ==> RowOk(s, t) ==> SameKind(s.rows[t].intent, s.rows[t].intent);
      HandOversFrame(s.rows, i, m, intent.change.value, 2);
      var r := Invert(s, i, intent);
      assert r.rows == HandOvers(s.rows, i, m, intent.change.value, 2);
      forall t | 0 <= t < |r.rows| ensures RowOk(r, t) {
        assert SameRow(s.rows[t], r.rows[t]) && RowOk(s, t);
      }
      forall t | t in r.claimed ensures ClaimOk(r, t) {
        assert ClaimOk(s, t) && SameRow(s.rows[t], r.rows[t]);
      }
    } else {
      var r := Invert(s, i, intent);
      assert r.rows == s.rows;
      forall t | 0 <= t < |r.rows| ensures RowOk(r, t) {
        assert RowOk(s, t);
      }
      forall t | t in r.claimed ensures ClaimOk(r, t) {
        assert ClaimOk(s, t);
      }
    }
  }

  lemma {:induction false} ClosingKeepsInv(s: State, i: nat, status: Status, attempts: nat)
    requires Inv(s) && i < |s.rows| && attempts <= MAX_ATTEMPTS && !status.Sending?
    requires !status.Dead? ==> attempts < MAX_ATTEMPTS
    requires status.Canceled? ==> i !in s.claimed
    requires s.owed.None?
    ensures Inv(Closing(s, i, status, attempts))
  {
    var t := Closing(s, i, status, attempts);
    forall j | 0 <= j < |t.rows| ensures RowOk(t, j) {
      assert RowOk(s, j);
    }
    forall j | j in t.claimed ensures ClaimOk(t, j) {
      assert ClaimOk(s, j);
    }
  }

  lemma {:induction false} OwingKeepsInv(s: State, i: nat, status: Status, attempts: nat, intent: Intent)
    requires Inv(s) && i < |s.rows| && attempts <= MAX_ATTEMPTS && s.owed.None? && SameKind(intent, s.rows[i].intent)
    requires status.Dead? || (status.Canceled? && attempts < MAX_ATTEMPTS && i !in s.claimed)
    ensures Inv(Owing(Closing(s, i, status, attempts), i, intent))
  {
    var t := Closing(s, i, status, attempts);
    ClosingKeepsInv(s, i, status, attempts);
    forall j | 0 <= j < |t.rows| ensures RowOk(Owing(t, i, intent), j) {
      assert RowOk(t, j);
    }
    forall j | j in t.claimed ensures ClaimOk(Owing(t, i, intent), j) {
      assert ClaimOk(t, j);
    }
  }

  /** Applying the owed inverse, or forgetting it, keeps the invariant. */
  lemma {:induction false} SettleKeepsInv(s: State)
    requires Inv(s)
    ensures Inv(Settled(s)) && Inv(Forgotten(s))
  {
    var t := s.(owed := None);
    forall j | 0 <= j < |t.rows| ensures RowOk(t, j) && RowOk(Forgotten(s), j) {
      assert RowOk(s, j);
    }
    forall j | j in t.claimed ensures ClaimOk(t, j) && ClaimOk(Forgotten(s), j) {
      assert ClaimOk(s, j);
    }
    if s.owed.Some? {
      InvertKeepsInv(t, s.owed.value.i, s.owed.value.intent);
    }
  }

  /** A step that only adds rows, or only moves rows between waiting and claimed. */
  lemma {:induction false} EasyStepKeepsInv(s: State, r: State)
    requires Inv(s) && |s.rows| <= |r.rows| && s.messages.Keys == r.messages.Keys && s.owed == None == r.owed
    requires forall t :: 0 <= t < |s.rows| ==>
               r.rows[t] == s.rows[t].(status := r.rows[t].status)
               && (r.rows[t].status == s.rows[t].status || (Active(r.rows[t]) && Active(s.rows[t]))) && (r.rows[t].status.Sending? <==> t in r.claimed)
    requires forall t :: |s.rows| <= t < |r.rows| ==>
               r.rows[t].status.Pending? && r.rows[t].attempts == 0 && t !in r.claimed
               && (r.rows[t].intent.Send? || r.rows[t].messageId in r.messages) && SameKind(r.rows[t].intent, r.rows[t].intent)
    requires forall t :: t in r.claimed ==>
               t < |s.rows| && (r.claimed[t].row == s.rows[t] || (t in s.claimed && r.claimed[t].row == s.claimed[t].row))
    ensures Inv(r)
  {
    forall t | 0 <= t < |r.rows| ensures RowOk(r, t) {
      if t < |s.rows| { assert RowOk(s, t); }
    }
    forall t | t in r.claimed ensures ClaimOk(r, t) {
      if t in s.claimed { assert ClaimOk(s, t); }
      assert RowOk(s, t);
    }
  }

  lemma {:induction false} EnqueueKeepsInv(s: State, m: MessageId, msg: Message, intent: Intent)
    requires Inv(s) && m in s.messages && SameKind(intent, intent) && s.owed.None?
    ensures Inv(Append(s, m, msg, intent))
  {
    forall t | 0 <= t < |s.rows| || t in s.claimed ensures t < |s.rows| && RowOk(s, t) {
      if t in s.claimed { assert ClaimOk(s, t); }
    }
    EasyStepKeepsInv(s, Append(s, m, msg, intent));
  }

  lemma {:induction false} PassStepKeepsInv(s: State, e: Event)
    requires Inv(s) && (e.EnqueueSend? || e.Claim? || e.Start? || e.Restart?) && s.owed.None?
    ensures Inv(Act(s, e))
  {
    forall t | 0 <= t < |s.rows| || t in s.claimed ensures t < |s.rows| && RowOk(s, t) {
      if t in s.claimed { assert ClaimOk(s, t); }
    }
    EasyStepKeepsInv(s, Act(s, e));
  }

  lemma {:induction false} StepKeepsInv(s: State, e: Event)
    requires Inv(s)
    ensures Inv(Step(s, e))
  {
    if s.owed.None? {
      ActKeepsInv(s, e);
    } else {
      SettleKeepsInv(s);
      PassStepKeepsInv(Forgotten(s), Restart);
    }
  }

  lemma {:induction false} ActKeepsInv(s: State, e: Event)
    requires Inv(s) && s.owed.None?
    ensures Inv(Act(s, e))
  {
    match e {
      case EnqueueDelete(m) =>
        if m in s.messages {
          EnqueueKeepsInv(s, m, ApplyDelete(s.messages[m]).0, Delete(Some(ApplyDelete(s.messages[m]).1)));
        }
      case EnqueueMove(m, fromId, destId) =>
        if m in s.messages {
          var (msg, p) := ApplyMove(s.messages[m], fromId, destId);
          EnqueueKeepsInv(s, m, msg, Move(Some(p)));
        }
      case EnqueueFlags(m, values) =>
        if m in s.messages {
          var (msg, p) := ApplyFlags(s.messages[m], values);
          EnqueueKeepsInv(s, m, msg, SetFlags(Some(p)));
        }
      case Cancel(i) =>
        if i < |s.rows| && s.rows[i].status.Pending? {
          assert RowOk(s, i);
          OwingKeepsInv(s, i, Canceled, s.rows[i].attempts, s.rows[i].intent);
        }
      case Finish(i, ok) =>
        if i in s.claimed && s.claimed[i].started && i < |s.rows| {
          assert ClaimOk(s, i) && RowOk(s, i);
          var n := s.rows[i].attempts;
          if ok {
            ClosingKeepsInv(s, i, Done, n);
          } else if n + 1 < MAX_ATTEMPTS {
            ClosingKeepsInv(s, i, Pending, n + 1);
          } else {
            OwingKeepsInv(s, i, Dead, n + 1, s.claimed[i].row.intent);
          }
        }
      case Undo =>
      case Abandon =>
      case _ => PassStepKeepsInv(s, e);
    }
  }

  /** Every run from an empty outbox keeps the invariant. */
  lemma {:induction false} RunKeepsInv(s: State, es: seq<Event>)
    requires Inv(s)
    ensures Inv(Run(s, es))
    decreases |es|
  {
    if es != [] {
      StepKeepsInv(s, es[0]);
      RunKeepsInv(Step(s, es[0]), es[1..]);
    }
  }
}
