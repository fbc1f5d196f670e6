/**
 * Undoing flag intents is replay: whatever was canceled or died, each local flag is what the newest
 * surviving intent set, or the original value. The exact steps that keep this are stated and proved.
 */
module FlagReplay {
  import opened Wrappers
  import opened Intents
  import opened Outbox

  /** Replaying the surviving intents of the first `n` rows over the original value. */
  ghost function Replayed(rows: seq<Row>, m: MessageId, f: FlagName, n: nat, base: bool): bool
    requires n <= |rows|
  {
    if n == 0 then base
    else if Hit(rows[n - 1], m, f) then rows[n - 1].intent.change.value.values[f]
    else Replayed(rows, m, f, n - 1, base)
  }

  /** Row `i` remembers, for `f`, what its nearest older survivor set. */
  ghost predicate Remembers(rows: seq<Row>, i: nat, f: FlagName, base: bool)
    requires i < |rows| && rows[i].intent.SetFlags? && rows[i].intent.change.Some?
  {
    var p := rows[i].intent.change.value;
    f in p.prev && p.prev[f] == Replayed(rows, rows[i].messageId, f, i, base)
  }

  /** One flag of one message: the local value is the replayed one, and so is every waiting row's memory. */
  ghost predicate FlagOk(messages: map<MessageId, Message>, rows: seq<Row>, m: MessageId, f: FlagName, base: bool)
    requires m in messages
  {
    && messages[m].flags.Get(f) == Replayed(rows, m, f, |rows|, base)
    && (forall i :: 0 <= i < |rows| && Active(rows[i]) && Touches(rows[i], m, f) ==> Remembers(rows, i, f, base))
  }

  ghost predicate Replay(s: State, base: map<MessageId, Flags>) {
    && base.Keys == s.messages.Keys
    && (forall m, f :: m in s.messages ==> FlagOk(s.messages, s.rows, m, f, base[m].Get(f)))
  }

  /**
   * Whether undoing row `i` with the payload `p` in hand keeps flag `f` right: a newer intent that
   * landed owns it; otherwise `p` must still hold the row's current previous value - except that
   * when both flags go to one newer row the write for the star replaces the write for read, so for
   * read the undone row must not have changed anything.
   */
  predicate KeepsFlag(rows: seq<Row>, i: nat, p: FlagsPayload, f: FlagName)
    requires i < |rows| && rows[i].intent.SetFlags? && SameKind(SetFlags(Some(p)), rows[i].intent) && f in p.values
  {
    var own := rows[i].intent.change.value;
    var m := rows[i].messageId;
    match FlagOutcome(rows, i, m, p, f)
    case Leave => true
    case Restore => p.prev[f] == own.prev[f]
    case HandTo(j) =>
      if f == Seen && FlagOutcome(rows, i, m, p, Flagged) == HandTo(j) then p.values[f] == own.prev[f]
      else p.prev[f] == own.prev[f]
  }

  /** Undoing row `i` with the payload in `intent` loses no flag's previous value. */
  predicate Lossless(rows: seq<Row>, i: nat, intent: Intent)
    requires i < |rows| && SameKind(intent, rows[i].intent)
  {
    intent.SetFlags? && intent.change.Some? ==>
      forall f :: f in intent.change.value.values ==> KeepsFlag(rows, i, intent.change.value, f)
  }

  /** The two rows say the same about flag `f` of message `m`. */
  ghost predicate SameHit(a: Row, b: Row, m: MessageId, f: FlagName) {
    && (Hit(a, m, f) <==> Hit(b, m, f))
    && (Hit(a, m, f) ==> a.intent.change.value.values[f] == b.intent.change.value.values[f])
  }

  /** Replay depends on a row only through whether it stands and what it sets. */
  lemma {:induction false} ReplayedSame(a: seq<Row>, b: seq<Row>, m: MessageId, f: FlagName, lo: nat, n: nat, base: bool)
    requires lo <= n <= |a| == |b|
    requires Replayed(a, m, f, lo, base) == Replayed(b, m, f, lo, base)
    requires forall t :: lo <= t < n ==> SameHit(a[t], b[t], m, f)
    ensures Replayed(a, m, f, n, base) == Replayed(b, m, f, n, base)
  {
    if lo < n {
      ReplayedSame(a, b, m, f, lo, n - 1, base);
      assert SameHit(a[n - 1], b[n - 1], m, f);
    }
  }

  lemma {:induction false} ReplayedSkips(rows: seq<Row>, m: MessageId, f: FlagName, lo: nat, n: nat, base: bool)
    requires lo <= n <= |rows|
    requires forall t :: lo <= t < n ==> !Hit(rows[t], m, f)
    ensures Replayed(rows, m, f, n, base) == Replayed(rows, m, f, lo, base)
  {
    if lo < n {
      ReplayedSkips(rows, m, f, lo, n - 1, base);
    }
  }

  /** `gone` is `rows` with row `i` no longer standing, as far as flag `f` of message `m` can tell. */
  ghost predicate Without(rows: seq<Row>, gone: seq<Row>, i: nat, m: MessageId, f: FlagName) {
    && i < |rows| == |gone| && !Alive(gone[i])
    && forall t :: 0 <= t < |rows| && t != i ==> SameHit(rows[t], gone[t], m, f)
  }

  /** Removing row `i` changes nothing at or before it, nor past the next survivor. */
  lemma {:induction false} RemovalKeeps(rows: seq<Row>, gone: seq<Row>, i: nat, m: MessageId, f: FlagName, n: nat, base: bool)
    requires Without(rows, gone, i, m, f) && n <= |rows|
    requires n <= i || !Hit(rows[i], m, f) || (NextHit(rows, m, f, i + 1).Some? && NextHit(rows, m, f, i + 1).value < n)
    ensures Replayed(gone, m, f, n, base) == Replayed(rows, m, f, n, base)
  {
    if n <= i {
      ReplayedSame(rows, gone, m, f, 0, n, base);
    } else if !Hit(rows[i], m, f) {
      assert SameHit(rows[i], gone[i], m, f);
      ReplayedSame(rows, gone, m, f, 0, n, base);
    } else {
      var j := NextHit(rows, m, f, i + 1).value;
      assert SameHit(rows[j], gone[j], m, f);
      ReplayedSame(rows, gone, m, f, j + 1, n, base);
    }
  }

  /** Between row `i` and the next survivor, the value falls back to the one before `i`. */
  lemma {:induction false} RemovalUncovers(rows: seq<Row>, gone: seq<Row>, i: nat, m: MessageId, f: FlagName, n: nat, base: bool)
    requires Without(rows, gone, i, m, f) && i < n <= |rows|
    requires NextHit(rows, m, f, i + 1).Some? ==> n <= NextHit(rows, m, f, i + 1).value
    ensures Replayed(gone, m, f, n, base) == Replayed(rows, m, f, i, base)
  {
    RemovalKeeps(rows, gone, i, m, f, i, base);
    forall t | i <= t < n ensures !Hit(gone[t], m, f) {
      if t > i { assert SameHit(rows[t], gone[t], m, f); }
    }
    ReplayedSkips(gone, m, f, i, n, base);
  }

  /** A row list with row `i` taken out of the survivors by a cancel or a death. */
  ghost predicate Retired(rows: seq<Row>, closed: seq<Row>, i: nat) {
    && i < |rows| == |closed| && Active(rows[i]) && (closed[i].status.Canceled? || closed[i].status.Dead?)
    && closed[i] == rows[i].(status := closed[i].status, attempts := closed[i].attempts)
    && forall t :: 0 <= t < |rows| && t != i ==> closed[t] == rows[t]
  }

  lemma {:induction false} NextHitSame(a: seq<Row>, b: seq<Row>, m: MessageId, f: FlagName, j: nat)
    requires |a| == |b| && forall t :: j <= t < |a| ==> a[t] == b[t]
    ensures NextHit(a, m, f, j) == NextHit(b, m, f, j)
    decreases |a| - j
  {
    if j < |a| {
      NextHitSame(a, b, m, f, j + 1);
    }
  }

  /** Which previous values a row holds after the handovers. */
  lemma {:induction false} HandOversResult(rows: seq<Row>, i: nat, m: MessageId, p: FlagsPayload, t: nat, f: FlagName)
    requires t < |rows| && forall k :: 0 <= k < |rows| ==> SameKind(rows[k].intent, rows[k].intent)
    ensures var r := HandOvers(rows, i, m, p, 2);
            && SameRow(rows[t], r[t])
            && (Touches(rows[t], m, f) ==>
                  r[t].intent.change.value.prev[f] ==
                  if FlagOutcome(rows, i, m, p, f) == HandTo(t)
                     && !(f == Seen && FlagOutcome(rows, i, m, p, Flagged) == HandTo(t))
                  then p.prev[f] else rows[t].intent.change.value.prev[f])
            && (t <= i || rows[t].messageId != m ==> r[t] == rows[t])
  {
    HandOversFrame(rows, i, m, p, 2);
    assert HandOvers(rows, i, m, p, 0) == rows;
    var one := HandOvers(rows, i, m, p, 1);
    assert FLAG_NAMES[0] == Seen && FLAG_NAMES[1] == Flagged;
    assert HandOvers(rows, i, m, p, 2) ==
           if FlagOutcome(rows, i, m, p, Flagged).HandTo?
           then HandOver(one, rows, FlagOutcome(rows, i, m, p, Flagged).j, Flagged, p.prev[Flagged]) else one;
  }

  /** The flag value on the message after the inverse. */
  lemma {:induction false} RestoredFlag(rows: seq<Row>, i: nat, m: MessageId, p: FlagsPayload, cur: Flags, f: FlagName)
    ensures cur.With(Restored(rows, i, m, p, cur, 2)).Get(f) ==
            if FlagOutcome(rows, i, m, p, f).Restore? && cur.Get(f) == p.values[f] then p.prev[f] else cur.Get(f)
  {
    assert FLAG_NAMES[0] == Seen && FLAG_NAMES[1] == Flagged;
    assert Restored(rows, i, m, p, cur, 0) == map[];
    var one := Restored(rows, i, m, p, cur, 1);
    assert Flagged !in one;
  }

  /** One flag of one message across the undo of row `i`: it stays right exactly when `KeepsFlag` says so. */
  lemma {:induction false} UndoneFlag(messages: map<MessageId, Message>, rows: seq<Row>, closed: seq<Row>, i: nat, p: FlagsPayload,
                   m: MessageId, f: FlagName, base: bool)
    requires Retired(rows, closed, i) && m in messages && rows[i].messageId in messages
    requires rows[i].intent.SetFlags? && SameKind(SetFlags(Some(p)), rows[i].intent)
    requires forall k :: 0 <= k < |rows| ==> SameKind(rows[k].intent, rows[k].intent)
    requires FlagOk(messages, rows, m, f, base)
    ensures var r := RevertFlags(messages, closed, i, rows[i].messageId, Some(p));
            FlagOk(r.0, r.1, m, f, base) <==> (rows[i].messageId == m && f in p.values ==> KeepsFlag(rows, i, p, f))
  {
    hide Replayed, HandOvers, Restored, Without, Remembers;
    var own := rows[i].messageId;
    var (messages', rows') := RevertFlags(messages, closed, i, own, Some(p));
    UndoneRows(rows, closed, i, p, m, f);
    UndoneRows(rows, closed, i, p, own, f);
    RestoredFlag(closed, i, own, p, messages[own].flags, f);
    forall k | 0 <= k < |rows| && Active(rows'[k]) && Touches(rows'[k], m, f)
      ensures Remembers(rows', k, f, base) <==>
              (own == m && FlagOutcome(rows, i, m, p, f) == HandTo(k) ==> KeepsFlag(rows, i, p, f))
    {
      UndoneMemory(rows, closed, i, p, m, f, k, base);
    }
    if own == m && f in p.values {
      OwnValue(messages, rows, closed, i, p, f, base);
    } else {
      RemovalKeeps(rows, rows', i, m, f, |rows|, base);
    }
  }

  /** Every waiting row's memory after the undo. */
  lemma {:induction false} UndoneMemory(rows: seq<Row>, closed: seq<Row>, i: nat, p: FlagsPayload, m: MessageId, f: FlagName, k: nat, base: bool)
    requires Retired(rows, closed, i) && k < |rows|
    requires rows[i].intent.SetFlags? && SameKind(SetFlags(Some(p)), rows[i].intent)
    requires forall t :: 0 <= t < |rows| ==> SameKind(rows[t].intent, rows[t].intent)
    requires forall t :: 0 <= t < |rows| && Active(rows[t]) && Touches(rows[t], m, f) ==> Remembers(rows, t, f, base)
    requires var rows' := HandOvers(closed, i, rows[i].messageId, p, 2); Active(rows'[k]) && Touches(rows'[k], m, f)
    ensures var own := rows[i].messageId;
            Remembers(HandOvers(closed, i, own, p, 2), k, f, base) <==>
            (own == m && FlagOutcome(rows, i, m, p, f) == HandTo(k) ==> KeepsFlag(rows, i, p, f))
  {
    hide Replayed, HandOvers, Restored, KeepsFlag, Remembers;
    var own := rows[i].messageId;
    HandOversResult(closed, i, own, p, k, f);
    if own == m && FlagOutcome(rows, i, m, p, f) == HandTo(k) {
      HeirMemory(rows, closed, i, p, k, f, base);
    } else {
      OtherMemory(rows, closed, i, p, k, f, base);
    }
  }

  /** The local value after the undo: where no other row is involved, it is right exactly when `KeepsFlag` says so. */
  lemma {:induction false} OwnValue(messages: map<MessageId, Message>, rows: seq<Row>, closed: seq<Row>, i: nat, p: FlagsPayload, f: FlagName, base: bool)
    requires Retired(rows, closed, i) && rows[i].messageId in messages
    requires rows[i].intent.SetFlags? && SameKind(SetFlags(Some(p)), rows[i].intent) && f in p.values
    requires forall k :: 0 <= k < |rows| ==> SameKind(rows[k].intent, rows[k].intent)
    requires FlagOk(messages, rows, rows[i].messageId, f, base)
    ensures var m := rows[i].messageId;
            var r := RevertFlags(messages, closed, i, m, Some(p));
            var o := FlagOutcome(rows, i, m, p, f);
            var right := r.0[m].flags.Get(f) == Replayed(r.1, m, f, |r.1|, base);
            && (o.Restore? ==> (right <==> KeepsFlag(rows, i, p, f)))
            && (!o.Restore? ==> right)
            && (o.HandTo? ==> o.j < |r.1| && Active(r.1[o.j]) && Touches(r.1[o.j], m, f))
  {
    hide Replayed, HandOvers, Restored, Without;
    var m := rows[i].messageId;
    var r := RevertFlags(messages, closed, i, m, Some(p));
    UndoneRows(rows, closed, i, p, m, f);
    RestoredFlag(closed, i, m, p, messages[m].flags, f);
    UndoneValue(rows, r.1, i, p, f, base);
    var o := FlagOutcome(rows, i, m, p, f);
    if o.HandTo? {
      HandOversResult(closed, i, m, p, o.j, f);
    }
  }

  /** The undo leaves every row but `i` saying the same about every flag. */
  lemma {:induction false} UndoneRows(rows: seq<Row>, closed: seq<Row>, i: nat, p: FlagsPayload, m: MessageId, f: FlagName)
    requires Retired(rows, closed, i)
    requires forall t :: 0 <= t < |rows| ==> SameKind(rows[t].intent, rows[t].intent)
    ensures Without(rows, HandOvers(closed, i, rows[i].messageId, p, 2), i, m, f)
    ensures FlagOutcome(closed, i, rows[i].messageId, p, f) == FlagOutcome(rows, i, rows[i].messageId, p, f)
  {
    var own := rows[i].messageId;
    var rows' := HandOvers(closed, i, own, p, 2);
    forall t | 0 <= t < |rows| && t != i ensures SameHit(rows[t], rows'[t], m, f) {
      HandOversResult(closed, i, own, p, t, f);
    }
    HandOversResult(closed, i, own, p, i, f);
    NextHitSame(rows, closed, own, f, i + 1);
  }

  /** The row that inherits a previous value remembers rightly exactly when `KeepsFlag` says so. */
  lemma {:induction false} HeirMemory(rows: seq<Row>, closed: seq<Row>, i: nat, p: FlagsPayload, k: nat, f: FlagName, base: bool)
    requires Retired(rows, closed, i) && k < |rows|
    requires rows[i].intent.SetFlags? && SameKind(SetFlags(Some(p)), rows[i].intent) && f in p.values
    requires forall t :: 0 <= t < |rows| ==> SameKind(rows[t].intent, rows[t].intent)
    requires FlagOutcome(rows, i, rows[i].messageId, p, f) == HandTo(k)
    requires Remembers(rows, i, f, base) && Remembers(rows, k, f, base)
    ensures var rows' := HandOvers(closed, i, rows[i].messageId, p, 2);
            && SameRow(closed[k], rows'[k])
            && (Remembers(rows', k, f, base) <==> KeepsFlag(rows, i, p, f))
  {
    var own := rows[i].messageId;
    var rows' := HandOvers(closed, i, own, p, 2);
    UndoneRows(rows, closed, i, p, own, f);
    UndoneRows(rows, closed, i, p, own, Flagged);
    HandOversResult(closed, i, own, p, k, f);
    RemovalUncovers(rows, rows', i, own, f, k, base);
    ReplayedSkips(rows, own, f, i + 1, k, base);
  }

  /** Every other waiting row keeps remembering rightly. */
  lemma {:induction false} OtherMemory(rows: seq<Row>, closed: seq<Row>, i: nat, p: FlagsPayload, k: nat, f: FlagName, base: bool)
    requires Retired(rows, closed, i) && k < |rows| && k != i
    requires rows[i].intent.SetFlags? && SameKind(SetFlags(Some(p)), rows[i].intent)
    requires forall t :: 0 <= t < |rows| ==> SameKind(rows[t].intent, rows[t].intent)
    requires Active(rows[k]) && Touches(rows[k], rows[k].messageId, f) && Remembers(rows, k, f, base)
    requires !(rows[k].messageId == rows[i].messageId && FlagOutcome(rows, i, rows[i].messageId, p, f) == HandTo(k))
    ensures var rows' := HandOvers(closed, i, rows[i].messageId, p, 2);
            SameRow(closed[k], rows'[k]) && Remembers(rows', k, f, base)
  {
    var own := rows[i].messageId;
    var m := rows[k].messageId;
    UndoneRows(rows, closed, i, p, m, f);
    UndoneRows(rows, closed, i, p, own, f);
    HandOversResult(closed, i, own, p, k, f);
    RemovalKeeps(rows, HandOvers(closed, i, own, p, 2), i, m, f, k, base);
  }

  /** The local value the replay expects after the undo. */
  lemma {:induction false} UndoneValue(rows: seq<Row>, rows': seq<Row>, i: nat, p: FlagsPayload, f: FlagName, base: bool)
    requires i < |rows| && Without(rows, rows', i, rows[i].messageId, f) && Active(rows[i])
    requires rows[i].intent.SetFlags? && SameKind(SetFlags(Some(p)), rows[i].intent) && f in p.values
    ensures var m := rows[i].messageId; var o := FlagOutcome(rows, i, m, p, f);
            && (o.Restore? ==> Replayed(rows, m, f, |rows|, base) == p.values[f]
                               && Replayed(rows', m, f, |rows|, base) == Replayed(rows, m, f, i, base))
            && (!o.Restore? ==> Replayed(rows', m, f, |rows|, base) == Replayed(rows, m, f, |rows|, base))
  {
    var m := rows[i].messageId;
    if FlagOutcome(rows, i, m, p, f).Restore? {
      RemovalUncovers(rows, rows', i, m, f, |rows|, base);
      ReplayedSkips(rows, m, f, i + 1, |rows|, base);
    } else {
      RemovalKeeps(rows, rows', i, m, f, |rows|, base);
    }
  }

  /**
   * The guard of one step, readable off the state before it: a won cancel and a death must lose nothing,
   * and an owed inverse that never comes must have had nothing to do.
   */
  ghost predicate StepLossless(s: State, e: Event)
    requires Inv(s)
  {
    if s.owed.Some? then e.Abandon? || e.Restart? ==> NothingOwed(s)
    else match e
      case Cancel(i) =>
        i < |s.rows| && s.rows[i].status.Pending? ==>
          assert RowOk(s, i); Lossless(s.rows, i, s.rows[i].intent)
      case Finish(i, ok) =>
        i in s.claimed && s.claimed[i].started && !ok && s.claimed[i].row.attempts + 1 >= MAX_ATTEMPTS ==>
          assert ClaimOk(s, i); Lossless(s.rows, i, s.claimed[i].row.intent)
      case _ => true
  }

  /** The owed inverse changes no flag and no row's payload. */
  predicate NothingOwed(s: State) {
    var r := Settled(s);
    r.rows == s.rows && forall m :: m in s.messages ==> r.messages[m].flags == s.messages[m].flags
  }

  /** A step that changes no flag, no survivor and no remembered value. */
  lemma {:induction false} QuietStep(s: State, t: State, base: map<MessageId, Flags>)
    requires Replay(s, base) && s.messages.Keys == t.messages.Keys && |s.rows| == |t.rows|
    requires forall m :: m in s.messages ==> s.messages[m].flags == t.messages[m].flags
    requires forall i :: 0 <= i < |s.rows| ==> Quiet(s.rows[i], t.rows[i])
    ensures Replay(t, base)
  {
    forall m, f | m in t.messages ensures FlagOk(t.messages, t.rows, m, f, base[m].Get(f)) {
      var b := base[m].Get(f);
      assert FlagOk(s.messages, s.rows, m, f, b);
      forall i | 0 <= i < |s.rows| ensures SameHit(s.rows[i], t.rows[i], m, f) {
        assert Quiet(s.rows[i], t.rows[i]);
      }
      ReplayedSame(s.rows, t.rows, m, f, 0, |s.rows|, b);
      forall i | 0 <= i < |t.rows| && Active(t.rows[i]) && Touches(t.rows[i], m, f) ensures Remembers(t.rows, i, f, b) {
        assert Quiet(s.rows[i], t.rows[i]);
        assert Remembers(s.rows, i, f, b);
        ReplayedSame(s.rows, t.rows, m, f, 0, i, b);
      }
    }
  }

  /** Same row apart from its status, which may change only among the standing ones unless it sets no flag. */
  ghost predicate Quiet(a: Row, b: Row) {
    && a.messageId == b.messageId && a.intent == b.intent
    && (Active(b) ==> Active(a) || !(a.intent.SetFlags? && a.intent.change.Some?))
    && ((Alive(a) <==> Alive(b)) || !(a.intent.SetFlags? && a.intent.change.Some?))
  }

  lemma {:induction false} ReplayedPrefix(rows: seq<Row>, more: seq<Row>, m: MessageId, f: FlagName, n: nat, base: bool)
    requires n <= |rows|
    ensures Replayed(rows + more, m, f, n, base) == Replayed(rows, m, f, n, base)
  {
    if n > 0 {
      ReplayedPrefix(rows, more, m, f, n - 1, base);
    }
  }

  /** A new row at the end remembers the local value it replaced. */
  lemma {:induction false} EnqueueKeepsReplay(s: State, m: MessageId, msg: Message, intent: Intent, base: map<MessageId, Flags>)
    requires Replay(s, base) && m in s.messages
    requires if intent.SetFlags? && intent.change.Some?
             then (msg, intent.change.value) == ApplyFlags(s.messages[m], intent.change.value.values)
             else msg.flags == s.messages[m].flags
    ensures Replay(Append(s, m, msg, intent), base)
  {
    var t := Append(s, m, msg, intent);
    var row := [Row(m, intent, Pending, 0)];
    forall n, f | n in t.messages ensures FlagOk(t.messages, t.rows, n, f, base[n].Get(f)) {
      var b := base[n].Get(f);
      assert FlagOk(s.messages, s.rows, n, f, b);
      ReplayedPrefix(s.rows, row, n, f, |s.rows|, b);
      forall i | 0 <= i < |t.rows| && Active(t.rows[i]) && Touches(t.rows[i], n, f) ensures Remembers(t.rows, i, f, b) {
        if i < |s.rows| {
          assert Remembers(s.rows, i, f, b);
          ReplayedPrefix(s.rows, row, n, f, i, b);
        }
      }
    }
  }

  /** Undoing one row keeps the replay exactly when the payload in hand loses nothing. */
  lemma {:induction false} UndoExact(s: State, i: nat, status: Status, attempts: nat, intent: Intent, base: map<MessageId, Flags>)
    requires Inv(s) && Replay(s, base) && i < |s.rows| && Active(s.rows[i]) && s.owed.None?
    requires SameKind(intent, s.rows[i].intent) && (status.Canceled? || status.Dead?)
    ensures Replay(Invert(Closing(s, i, status, attempts), i, intent), base) <==> Lossless(s.rows, i, intent)
  {
    var t := Closing(s, i, status, attempts);
    var r := Invert(t, i, intent);
    assert RowOk(s, i);
    if intent.SetFlags? && intent.change.Some? {
      var p := intent.change.value;
      var own := s.rows[i].messageId;
      assert Retired(s.rows, t.rows, i);
      forall k | 0 <= k < |s.rows| ensures SameKind(s.rows[k].intent, s.rows[k].intent) {
        assert RowOk(s, k);
      }
      forall m, f | m in s.messages
        ensures FlagOk(r.messages, r.rows, m, f, base[m].Get(f)) <==> (own == m && f in p.values ==> KeepsFlag(s.rows, i, p, f))
      {
        UndoneFlag(s.messages, s.rows, t.rows, i, p, m, f, base[m].Get(f));
      }
      if Replay(r, base) {
        forall f | f in p.values ensures KeepsFlag(s.rows, i, p, f) {
          assert FlagOk(r.messages, r.rows, own, f, base[own].Get(f));
        }
      }
    } else {
      forall k | 0 <= k < |s.rows| ensures Quiet(s.rows[k], r.rows[k]) {
        assert RowOk(s, k);
      }
      QuietStep(s, r, base);
    }
  }

  /** Replay looks at messages' flags, survivors and payloads only. */
  lemma {:induction false} ReplayLooksAt(s: State, t: State, base: map<MessageId, Flags>)
    requires s.messages.Keys == t.messages.Keys && s.rows == t.rows
    requires forall m :: m in s.messages ==> s.messages[m].flags == t.messages[m].flags
    ensures Replay(s, base) <==> Replay(t, base)
  {
    if Replay(s, base) {
      forall m, f | m in t.messages ensures FlagOk(t.messages, t.rows, m, f, base[m].Get(f)) {
        assert FlagOk(s.messages, s.rows, m, f, base[m].Get(f));
      }
    }
    if Replay(t, base) {
      forall m, f | m in s.messages ensures FlagOk(s.messages, s.rows, m, f, base[m].Get(f)) {
        assert FlagOk(t.messages, t.rows, m, f, base[m].Get(f));
      }
    }
  }

  /** While `a` waits, both rows remember the same previous value for every flag it sets. */
  ghost predicate SameMemory(a: Row, b: Row) {
    forall f :: Active(a) && Touches(a, a.messageId, f) ==>
      && Touches(b, a.messageId, f) && f in a.intent.change.value.prev && f in b.intent.change.value.prev
      && a.intent.change.value.prev[f] == b.intent.change.value.prev[f]
  }

  /** Two states with the same standing rows that both replay agree in every flag and every waiting row's memory. */
  lemma {:induction false} ReplaysAgree(s: State, t: State, base: map<MessageId, Flags>)
    requires Replay(s, base) && Replay(t, base) && |s.rows| == |t.rows|
    requires forall k :: 0 <= k < |s.rows| ==> SameRow(s.rows[k], t.rows[k])
    ensures forall m :: m in s.messages ==> s.messages[m].flags == t.messages[m].flags
    ensures forall k :: 0 <= k < |s.rows| && s.rows[k].messageId in s.messages ==> SameMemory(s.rows[k], t.rows[k])
  {
    forall m, f | m in s.messages ensures s.messages[m].flags.Get(f) == t.messages[m].flags.Get(f) {
      SameReplay(s, t, m, f, |s.rows|, base);
    }
    forall m | m in s.messages ensures s.messages[m].flags == t.messages[m].flags {
      assert s.messages[m].flags.Get(Seen) == t.messages[m].flags.Get(Seen);
      assert s.messages[m].flags.Get(Flagged) == t.messages[m].flags.Get(Flagged);
    }
    forall k | 0 <= k < |s.rows| && s.rows[k].messageId in s.messages ensures SameMemory(s.rows[k], t.rows[k]) {
      var m := s.rows[k].messageId;
      assert SameRow(s.rows[k], t.rows[k]);
      forall f | Active(s.rows[k]) && Touches(s.rows[k], m, f) ensures Remembers(s.rows, k, f, base[m].Get(f)) && Remembers(t.rows, k, f, base[m].Get(f)) {
        SameReplay(s, t, m, f, k, base);
      }
      forall f | Active(s.rows[k]) && Touches(s.rows[k], m, f)
        ensures s.rows[k].intent.change.value.prev[f] == t.rows[k].intent.change.value.prev[f]
      {
        SameReplay(s, t, m, f, k, base);
        assert Remembers(s.rows, k, f, base[m].Get(f)) && Remembers(t.rows, k, f, base[m].Get(f));
      }
    }
  }

  lemma {:induction false} SameReplay(s: State, t: State, m: MessageId, f: FlagName, n: nat, base: map<MessageId, Flags>)
    requires Replay(s, base) && Replay(t, base) && |s.rows| == |t.rows| && m in s.messages && n <= |s.rows|
    requires forall k :: 0 <= k < |s.rows| ==> SameRow(s.rows[k], t.rows[k])
    ensures FlagOk(s.messages, s.rows, m, f, base[m].Get(f)) && FlagOk(t.messages, t.rows, m, f, base[m].Get(f))
    ensures Replayed(s.rows, m, f, n, base[m].Get(f)) == Replayed(t.rows, m, f, n, base[m].Get(f))
  {
    forall k | 0 <= k < |s.rows| ensures SameHit(s.rows[k], t.rows[k], m, f) {
      assert SameRow(s.rows[k], t.rows[k]);
    }
    ReplayedSame(s.rows, t.rows, m, f, 0, n, base[m].Get(f));
  }

  /** An owed inverse that never comes leaves every flag right exactly when it had nothing to do. */
  lemma {:induction false} LosingExact(s: State, base: map<MessageId, Flags>)
    requires Inv(s) && s.owed.Some? && Replay(Settled(s), base)
    ensures Replay(s, base) <==> NothingOwed(s)
  {
    var r := Settled(s);
    if NothingOwed(s) {
      ReplayLooksAt(s, r, base);
    }
    if Replay(s, base) {
      SettledRows(s);
      ReplaysAgree(s, r, base);
      forall k | 0 <= k < |s.rows| ensures r.rows[k] == s.rows[k] {
        assert RowOk(s, k);
        SettledRow(s, k);
      }
    }
  }

  lemma {:induction false} SettledRows(s: State)
    requires Inv(s)
    ensures forall k :: 0 <= k < |s.rows| ==> SameRow(s.rows[k], Settled(s).rows[k])
  {
    forall k | 0 <= k < |s.rows| ensures SameKind(s.rows[k].intent, s.rows[k].intent) {
      assert RowOk(s, k);
    }
    if s.owed.Some? {
      var o := s.owed.value;
      if o.intent.SetFlags? && o.intent.change.Some? && s.rows[o.i].messageId in s.messages {
        HandOversFrame(s.rows, o.i, s.rows[o.i].messageId, o.intent.change.value, 2);
      }
    }
  }

  /** Row `k` is as it was unless a waiting row's memory of some flag has changed. */
  lemma {:induction false} SettledRow(s: State, k: nat)
    requires Inv(s) && k < |s.rows|
    requires SameMemory(s.rows[k], Settled(s).rows[k])
    ensures Settled(s).rows[k] == s.rows[k]
  {
    SettledRows(s);
    forall t | 0 <= t < |s.rows| ensures SameKind(s.rows[t].intent, s.rows[t].intent) {
      assert RowOk(s, t);
    }
    var r := Settled(s).rows[k];
    assert SameRow(s.rows[k], r);
    if s.owed.Some? && s.rows[k].intent.SetFlags? && s.rows[k].intent.change.Some? {
      var o := s.owed.value;
      var p, q := s.rows[k].intent.change.value, r.intent.change.value;
      if o.intent.SetFlags? && o.intent.change.Some? && s.rows[o.i].messageId in s.messages {
        forall f | f in p.prev ensures q.prev[f] == p.prev[f] {
          HandOversResult(s.rows, o.i, s.rows[o.i].messageId, o.intent.change.value, k, f);
        }
        assert p.prev == q.prev;
      }
    }
  }

  /** Re-arming what a pass had claimed changes nothing the replay looks at. */
  lemma {:induction false} RearmedReplays(s: State, base: map<MessageId, Flags>)
    ensures Replay(Rearmed(s), base) <==> Replay(s, base)
  {
    if Replay(s, base) { QuietStep(s, Rearmed(s), base); }
    if Replay(Rearmed(s), base) { QuietStep(Rearmed(s), s, base); }
  }

  /**
   * One step of the outbox keeps every flag equal to its replay exactly when its guard holds; while an
   * inverse is owed, what counts is the state it will leave.
   */
  lemma {:induction false} StepExact(s: State, e: Event, base: map<MessageId, Flags>)
    requires Inv(s) && Replay(Settled(s), base)
    ensures Replay(Settled(Step(s, e)), base) <==> StepLossless(s, e)
  {
    hide Replay, Lossless, Inv, Invert, SameKind, NothingOwed, Rearmed;
    if s.owed.None? {
      ActExact(s, e, base);
    } else if e.Abandon? || e.Restart? {
      LosingExact(s, base);
      ReplayLooksAt(s, Forgotten(s), base);
      RearmedReplays(Forgotten(s), base);
      assert Settled(Forgotten(s)) == Forgotten(s);
      RearmedOwes(Forgotten(s));
    }
  }

  lemma {:induction false} RearmedOwes(s: State)
    ensures Rearmed(s).owed == s.owed
  {
  }

  /** Closing a row and settling what it then owes is undoing it. */
  lemma {:induction false} SettledClosing(s: State, i: nat, status: Status, attempts: nat, intent: Intent)
    requires i < |s.rows| && s.owed.None?
    ensures Settled(Owing(Closing(s, i, status, attempts), i, intent)) == Invert(Closing(s, i, status, attempts), i, intent)
  {
  }

  lemma {:induction false} ActExact(s: State, e: Event, base: map<MessageId, Flags>)
    requires Inv(s) && s.owed.None? && Replay(s, base)
    ensures Replay(Settled(Act(s, e)), base) <==> StepLossless(s, e)
  {
    hide Replay, Lossless, Append, Invert, Closing, SameKind, Rearmed, Inv;
    match e {
      case EnqueueDelete(_) => EnqueueExact(s, e, base);
      case EnqueueMove(_, _, _) => EnqueueExact(s, e, base);
      case EnqueueFlags(_, _) => EnqueueExact(s, e, base);
      case EnqueueSend => SendKeepsReplay(s, base);
      case Cancel(i) => CancelExact(s, i, base);
      case Finish(i, ok) => FinishExact(s, i, ok, base);
      case Restart =>
        RearmedReplays(s, base);
        RearmedOwes(s);
      case _ => PassReplays(s, e, base);
    }
  }

  lemma {:induction false} PassReplays(s: State, e: Event, base: map<MessageId, Flags>)
    requires s.owed.None? && Replay(s, base) && (e.Claim? || e.Start? || e.Undo? || e.Abandon?)
    ensures Replay(Act(s, e), base) && Act(s, e).owed.None?
  {
    hide Replay;
    QuietStep(s, Act(s, e), base);
  }

  lemma {:induction false} EnqueueExact(s: State, e: Event, base: map<MessageId, Flags>)
    requires s.owed.None? && Replay(s, base) && (e.EnqueueDelete? || e.EnqueueMove? || e.EnqueueFlags?)
    ensures Replay(Act(s, e), base) && Act(s, e).owed.None?
  {
    hide Replay, Append;
    match e {
      case EnqueueDelete(m) =>
        if m in s.messages {
          var (msg, p) := ApplyDelete(s.messages[m]);
          EnqueueKeepsReplay(s, m, msg, Delete(Some(p)), base);
          AppendOwes(s, m, msg, Delete(Some(p)));
        }
      case EnqueueMove(m, fromId, destId) =>
        if m in s.messages {
          var (msg, p) := ApplyMove(s.messages[m], fromId, destId);
          EnqueueKeepsReplay(s, m, msg, Move(Some(p)), base);
          AppendOwes(s, m, msg, Move(Some(p)));
        }
      case EnqueueFlags(m, values) =>
        if m in s.messages {
          var (msg, p) := ApplyFlags(s.messages[m], values);
          EnqueueKeepsReplay(s, m, msg, SetFlags(Some(p)), base);
          AppendOwes(s, m, msg, SetFlags(Some(p)));
        }
    }
  }

  lemma {:induction false} CancelExact(s: State, i: nat, base: map<MessageId, Flags>)
    requires Inv(s) && s.owed.None? && Replay(s, base)
    ensures Replay(Settled(Act(s, Cancel(i))), base) <==> StepLossless(s, Cancel(i))
  {
    hide Replay, Lossless, Invert, Closing, SameKind;
    if i < |s.rows| && s.rows[i].status.Pending? {
      assert RowOk(s, i);
      UndoExact(s, i, Canceled, s.rows[i].attempts, s.rows[i].intent, base);
      SettledClosing(s, i, Canceled, s.rows[i].attempts, s.rows[i].intent);
    }
  }

  lemma {:induction false} FinishExact(s: State, i: nat, ok: bool, base: map<MessageId, Flags>)
    requires Inv(s) && s.owed.None? && Replay(s, base)
    ensures Replay(Settled(Act(s, Finish(i, ok))), base) <==> StepLossless(s, Finish(i, ok))
  {
    hide Replay, Lossless, Invert, SameKind;
    if i in s.claimed && s.claimed[i].started {
      assert ClaimOk(s, i) && RowOk(s, i);
      if !ok && s.claimed[i].row.attempts + 1 >= MAX_ATTEMPTS {
        UndoExact(s, i, Dead, s.claimed[i].row.attempts + 1, s.claimed[i].row.intent, base);
        SettledClosing(s, i, Dead, s.claimed[i].row.attempts + 1, s.claimed[i].row.intent);
      } else {
        QuietStep(s, Act(s, Finish(i, ok)), base);
      }
    }
  }

  lemma {:induction false} AppendOwes(s: State, m: MessageId, msg: Message, intent: Intent)
    ensures Append(s, m, msg, intent).owed == s.owed
  {
  }

  lemma {:induction false} SendKeepsReplay(s: State, base: map<MessageId, Flags>)
    requires Replay(s, base) && s.owed.None?
    ensures Replay(Act(s, EnqueueSend), base)
  {
    var t := Act(s, EnqueueSend);
    var row := [Row(NO_MESSAGE, Send, Pending, 0)];
    forall m, f | m in t.messages ensures FlagOk(t.messages, t.rows, m, f, base[m].Get(f)) {
      var b := base[m].Get(f);
      assert FlagOk(s.messages, s.rows, m, f, b);
      ReplayedPrefix(s.rows, row, m, f, |s.rows|, b);
      forall i | 0 <= i < |t.rows| && Active(t.rows[i]) && Touches(t.rows[i], m, f) ensures Remembers(t.rows, i, f, b) {
        assert Remembers(s.rows, i, f, b);
        ReplayedPrefix(s.rows, row, m, f, i, b);
      }
    }
  }

  /** The change of row `i` shows nowhere: a newer intent that landed owns the flag, or the row set what was there. */
  predicate Invisible(rows: seq<Row>, i: nat)
    requires i < |rows| && rows[i].intent.SetFlags? && rows[i].intent.change.Some?
  {
    var p := rows[i].intent.change.value;
    forall f :: f in p.values && f in p.prev ==> FlagOutcome(rows, i, rows[i].messageId, p, f).Leave? || p.prev[f] == p.values[f]
  }

  /** Closing a row and never applying its inverse keeps every flag right exactly when its change shows nowhere. */
  lemma {:induction false} CutOffExact(s: State, i: nat, status: Status, attempts: nat, base: map<MessageId, Flags>)
    requires Inv(s) && Replay(s, base) && i < |s.rows| && Active(s.rows[i]) && s.owed.None?
    requires s.rows[i].intent.SetFlags? && s.rows[i].intent.change.Some?
    requires status.Dead? || (status.Canceled? && attempts < MAX_ATTEMPTS && i !in s.claimed)
    requires attempts <= MAX_ATTEMPTS
    ensures Replay(Forgotten(Owing(Closing(s, i, status, attempts), i, s.rows[i].intent)), base) <==> Invisible(s.rows, i)
  {
    assert RowOk(s, i);
    var p, m := s.rows[i].intent.change.value, s.rows[i].messageId;
    var q := SetFlags(Some(FlagsPayload(p.values, p.values)));
    var closed := Closing(s, i, status, attempts);
    var idle := Owing(closed, i, q);
    UndoExact(s, i, status, attempts, q, base);
    OwingKeepsInv(s, i, status, attempts, q);
    SettledClosing(s, i, status, attempts, q);
    IdleInverse(s, i, status, attempts, base);
    ReplayLooksAt(closed, Settled(idle), base);
    ReplayLooksAt(closed, Forgotten(Owing(closed, i, s.rows[i].intent)), base);
    assert forall f :: FlagOutcome(s.rows, i, m, FlagsPayload(p.values, p.values), f) == FlagOutcome(s.rows, i, m, p, f);
    hide Replay, FlagOutcome, Inv, Invert;
  }

  /** An inverse that puts back what the row set changes nothing. */
  lemma {:induction false} IdleInverse(s: State, i: nat, status: Status, attempts: nat, base: map<MessageId, Flags>)
    requires Inv(s) && Replay(s, base) && i < |s.rows| && Active(s.rows[i]) && s.owed.None?
    requires s.rows[i].intent.SetFlags? && s.rows[i].intent.change.Some?
    requires status.Dead? || (status.Canceled? && attempts < MAX_ATTEMPTS && i !in s.claimed)
    requires attempts <= MAX_ATTEMPTS
    ensures var p := s.rows[i].intent.change.value;
            NothingOwed(Owing(Closing(s, i, status, attempts), i, SetFlags(Some(FlagsPayload(p.values, p.values)))))
  {
    assert RowOk(s, i);
    var p, m := s.rows[i].intent.change.value, s.rows[i].messageId;
    var q := FlagsPayload(p.values, p.values);
    var idle := Owing(Closing(s, i, status, attempts), i, SetFlags(Some(q)));
    OwingKeepsInv(s, i, status, attempts, SetFlags(Some(q)));
    var r := Settled(idle);
    forall k | 0 <= k < |idle.rows| ensures r.rows[k] == idle.rows[k] {
      IdleMemory(s, i, status, attempts, base, k);
      SettledRow(idle, k);
    }
    var cur := s.messages[m].flags;
    RestoredFlag(idle.rows, i, m, q, cur, Seen);
    RestoredFlag(idle.rows, i, m, q, cur, Flagged);
    var back := cur.With(Restored(idle.rows, i, m, q, cur, 2));
    assert back.Get(Seen) == cur.Get(Seen) && back.Get(Flagged) == cur.Get(Flagged);
    assert r.messages[m].flags == back;
  }

  /** The row next in line for a flag remembers what row `i` set. */
  lemma {:induction false} HeirHolds(rows: seq<Row>, i: nat, f: FlagName, k: nat, base: bool)
    requires i < |rows| && Active(rows[i]) && rows[i].intent.SetFlags? && rows[i].intent.change.Some?
    requires Touches(rows[i], rows[i].messageId, f) && NextHit(rows, rows[i].messageId, f, i + 1) == Some(k)
    requires Remembers(rows, k, f, base)
    ensures rows[k].intent.change.value.prev[f] == rows[i].intent.change.value.values[f]
  {
    ReplayedSkips(rows, rows[i].messageId, f, i + 1, k, base);
  }

  /** The rows that an owed flags inverse leaves. */
  lemma {:induction false} SettledHandsOver(s: State)
    requires s.owed.Some? && s.owed.value.i < |s.rows| && s.owed.value.intent.SetFlags? && s.owed.value.intent.change.Some?
    requires s.rows[s.owed.value.i].messageId in s.messages
    ensures Settled(s).rows == HandOvers(s.rows, s.owed.value.i, s.rows[s.owed.value.i].messageId, s.owed.value.intent.change.value, 2)
  {
    hide HandOvers, Restored;
  }

  /** One flag of one waiting row across an inverse that puts back what row `i` set. */
  lemma {:induction false} IdleFlag(rows: seq<Row>, closed: seq<Row>, i: nat, k: nat, f: FlagName, base: bool)
    requires Retired(rows, closed, i) && k < |rows|
    requires rows[i].intent.SetFlags? && rows[i].intent.change.Some? && SameKind(rows[i].intent, rows[i].intent)
    requires forall t :: 0 <= t < |closed| ==> SameKind(closed[t].intent, closed[t].intent)
    requires Active(closed[k]) && Touches(closed[k], closed[k].messageId, f) && Remembers(rows, k, f, base)
    ensures var p := rows[i].intent.change.value;
            var r := HandOvers(closed, i, rows[i].messageId, FlagsPayload(p.values, p.values), 2);
            SameRow(closed[k], r[k]) && closed[k].intent.change.value.prev[f] == r[k].intent.change.value.prev[f]
  {
    hide HandOvers, Replayed, Remembers;
    var p, m := rows[i].intent.change.value, rows[i].messageId;
    var q := FlagsPayload(p.values, p.values);
    HandOversResult(closed, i, m, q, k, f);
    NextHitSame(rows, closed, m, f, i + 1);
    if FlagOutcome(closed, i, m, q, f) == HandTo(k) && rows[k].messageId == m {
      HeirHolds(rows, i, f, k, base);
    }
  }

  lemma {:induction false} IdleMemory(s: State, i: nat, status: Status, attempts: nat, base: map<MessageId, Flags>, k: nat)
    requires Inv(s) && Replay(s, base) && i < |s.rows| && Active(s.rows[i]) && s.owed.None? && k < |s.rows|
    requires s.rows[i].intent.SetFlags? && s.rows[i].intent.change.Some?
    requires status.Dead? || status.Canceled?
    ensures var p := s.rows[i].intent.change.value;
            var idle := Owing(Closing(s, i, status, attempts), i, SetFlags(Some(FlagsPayload(p.values, p.values))));
            SameMemory(idle.rows[k], Settled(idle).rows[k])
  {
    assert RowOk(s, i) && RowOk(s, k);
    var p := s.rows[i].intent.change.value;
    var idle := Owing(Closing(s, i, status, attempts), i, SetFlags(Some(FlagsPayload(p.values, p.values))));
    forall t | 0 <= t < |idle.rows| ensures SameKind(idle.rows[t].intent, idle.rows[t].intent) {
      assert RowOk(s, t);
    }
    assert Retired(s.rows, idle.rows, i);
    hide HandOvers, Restored, Replayed, Settled, Remembers, SameKind;
    SettledHandsOver(idle);
    forall f | Active(idle.rows[k]) && Touches(idle.rows[k], idle.rows[k].messageId, f)
      ensures SameRow(idle.rows[k], Settled(idle).rows[k])
      ensures idle.rows[k].intent.change.value.prev[f] == Settled(idle).rows[k].intent.change.value.prev[f]
    {
      var b := base[s.rows[k].messageId].Get(f);
      assert FlagOk(s.messages, s.rows, s.rows[k].messageId, f, b);
      assert Remembers(s.rows, k, f, b);
      IdleFlag(s.rows, idle.rows, i, k, f, b);
    }
  }

  /** Every step of a run has its guard. */
  ghost predicate RunLossless(s: State, es: seq<Event>)
    requires Inv(s)
    decreases |es|
  {
    es == [] || (StepKeepsInv(s, es[0]); StepLossless(s, es[0]) && RunLossless(Step(s, es[0]), es[1..]))
  }

  /** Undo is replay over every run whose cancels, deaths and lost inverses are guarded. */
  lemma {:induction false} RunReplays(s: State, es: seq<Event>, base: map<MessageId, Flags>)
    requires Inv(s) && Replay(Settled(s), base) && RunLossless(s, es)
    ensures Replay(Settled(Run(s, es)), base)
    ensures Run(s, es).owed.None? ==> Replay(Run(s, es), base)
    decreases |es|
  {
    if es != [] {
      StepKeepsInv(s, es[0]);
      StepExact(s, es[0], base);
      RunReplays(Step(s, es[0]), es[1..], base);
    }
  }

  /** With no flags intent left standing, every flag of every message is back to what it was. */
  lemma {:induction false} NothingLeftRestoresAll(s: State, base: map<MessageId, Flags>, m: MessageId)
    requires Replay(s, base) && m in s.messages
    requires forall i :: 0 <= i < |s.rows| && s.rows[i].intent.SetFlags? ==> !Alive(s.rows[i])
    ensures s.messages[m].flags == base[m]
  {
    forall f ensures s.messages[m].flags.Get(f) == base[m].Get(f) {
      assert FlagOk(s.messages, s.rows, m, f, base[m].Get(f));
      ReplayedSkips(s.rows, m, f, 0, |s.rows|, base[m].Get(f));
    }
    assert s.messages[m].flags.Get(Seen) == base[m].Get(Seen);
    assert s.messages[m].flags.Get(Flagged) == base[m].Get(Flagged);
  }

  /** The intent sets at most one flag. */
  predicate OneFlag(intent: Intent) {
    intent.SetFlags? && intent.change.Some? ==>
      !(Seen in intent.change.value.values && Flagged in intent.change.value.values)
  }

  ghost predicate OneFlagRows(rows: seq<Row>) {
    forall i :: 0 <= i < |rows| ==> OneFlag(rows[i].intent)
  }

  /** The last attempt of a row fails. */
  predicate Dies(s: State, e: Event) {
    s.owed.None? && e.Finish? && !e.ok && e.i in s.claimed && s.claimed[e.i].started && s.claimed[e.i].row.attempts + 1 >= MAX_ATTEMPTS
  }

  /** A later row of the same message sets a flag that row `i` sets too. */
  predicate Sharing(rows: seq<Row>, i: nat, k: nat) {
    i < k < |rows| && rows[i].messageId == rows[k].messageId && exists f :: SetsBoth(rows[i], rows[k], f)
  }

  predicate SetsBoth(a: Row, b: Row, f: FlagName) {
    Touches(a, a.messageId, f) && Touches(b, b.messageId, f)
  }

  /** The claimed rows for which an older row setting the same flag was undone since their claim. */
  function StaleAfter(s: State, e: Event, stale: set<nat>): set<nat> {
    if s.owed.Some? then
      if e.Undo? then stale + set k | k in s.claimed && Sharing(s.rows, s.owed.value.i, k) else stale
    else match e
      case Claim(i) => if i < |s.rows| && s.rows[i].status.Pending? then stale - {i} else stale
      case Restart => {}
      case _ => stale
  }

  /** An event a client of single-flag toggles makes, where no inverse is lost and no stale row dies. */
  predicate OneFlagEvent(s: State, e: Event, stale: set<nat>) {
    && (e.EnqueueFlags? ==> !(Seen in e.values && Flagged in e.values))
    && (s.owed.Some? ==> !e.Abandon? && !e.Restart?)
    && (Dies(s, e) ==> e.i !in stale)
  }

  predicate OneFlagRun(s: State, es: seq<Event>, stale: set<nat>)
    decreases |es|
  {
    es == [] || (OneFlagEvent(s, es[0], stale) && OneFlagRun(Step(s, es[0]), es[1..], StaleAfter(s, es[0], stale)))
  }

  /** Every claimed row that is not stale was read with the payload it still has. */
  ghost predicate ClaimsCurrent(s: State, stale: set<nat>) {
    forall i :: i in s.claimed && i !in stale ==> i < |s.rows| && s.claimed[i].row.intent == s.rows[i].intent
  }

  lemma {:induction false} OneFlagLossless(rows: seq<Row>, i: nat)
    requires i < |rows| && OneFlag(rows[i].intent) && SameKind(rows[i].intent, rows[i].intent)
    ensures Lossless(rows, i, rows[i].intent)
  {
  }

  lemma {:induction false} OneFlagGuard(s: State, e: Event, stale: set<nat>)
    requires Inv(s) && OneFlagRows(s.rows) && ClaimsCurrent(s, stale) && OneFlagEvent(s, e, stale)
    ensures StepLossless(s, e)
  {
    if s.owed.None? && e.Cancel? && e.i < |s.rows| && s.rows[e.i].status.Pending? {
      assert RowOk(s, e.i) && OneFlag(s.rows[e.i].intent);
      OneFlagLossless(s.rows, e.i);
    }
    if Dies(s, e) {
      assert ClaimOk(s, e.i) && RowOk(s, e.i) && OneFlag(s.rows[e.i].intent);
      OneFlagLossless(s.rows, e.i);
    }
  }

  /** The inverse leaves every row alone that does not share a flag with the row it undoes. */
  lemma {:induction false} UnsharedKept(s: State, k: nat)
    requires Inv(s) && s.owed.Some? && k < |s.rows| && !Sharing(s.rows, s.owed.value.i, k)
    ensures Settled(s).rows[k] == s.rows[k]
  {
    var o := s.owed.value;
    forall t | 0 <= t < |s.rows| ensures SameKind(s.rows[t].intent, s.rows[t].intent) {
      assert RowOk(s, t);
    }
    SettledRows(s);
    var m := s.rows[k].messageId;
    if o.intent.SetFlags? && o.intent.change.Some? && s.rows[o.i].messageId in s.messages {
      forall f | Active(s.rows[k]) && Touches(s.rows[k], m, f)
        ensures Settled(s).rows[k].intent.change.value.prev[f] == s.rows[k].intent.change.value.prev[f]
      {
        HandOversResult(s.rows, o.i, s.rows[o.i].messageId, o.intent.change.value, k, f);
        assert !SetsBoth(s.rows[o.i], s.rows[k], f) || s.rows[o.i].messageId != m || k <= o.i;
      }
    }
    assert SameRow(s.rows[k], Settled(s).rows[k]) && RowOk(s, k);
    SettledRow(s, k);
  }

  lemma {:induction false} OneFlagSettled(s: State, stale: set<nat>)
    requires Inv(s) && OneFlagRows(s.rows) && ClaimsCurrent(s, stale) && s.owed.Some?
    ensures OneFlagRows(Settled(s).rows) && ClaimsCurrent(Settled(s), StaleAfter(s, Undo, stale))
  {
    SettledRows(s);
    forall k | 0 <= k < |s.rows| ensures OneFlag(Settled(s).rows[k].intent) {
      assert OneFlag(s.rows[k].intent) && SameRow(s.rows[k], Settled(s).rows[k]);
    }
    forall k | k in s.claimed && k !in StaleAfter(s, Undo, stale) ensures s.claimed[k].row.intent == Settled(s).rows[k].intent {
      assert ClaimOk(s, k);
      UnsharedKept(s, k);
    }
  }

  lemma {:induction false} OneFlagStep(s: State, e: Event, stale: set<nat>)
    requires Inv(s) && OneFlagRows(s.rows) && ClaimsCurrent(s, stale) && OneFlagEvent(s, e, stale)
    ensures OneFlagRows(Step(s, e).rows) && ClaimsCurrent(Step(s, e), StaleAfter(s, e, stale))
  {
    if s.owed.Some? {
      if e.Undo? { OneFlagSettled(s, stale); }
    } else {
      hide Invert, SameKind;
      OneFlagAct(s, e, stale);
      ClaimsAct(s, e, stale);
    }
  }

  lemma {:induction false} OneFlagAct(s: State, e: Event, stale: set<nat>)
    requires OneFlagRows(s.rows) && OneFlagEvent(s, e, stale) && s.owed.None?
    ensures OneFlagRows(Act(s, e).rows)
  {
    var t := Act(s, e);
    forall k | 0 <= k < |t.rows| ensures OneFlag(t.rows[k].intent) {
      if k < |s.rows| { assert OneFlag(s.rows[k].intent); }
    }
  }

  lemma {:induction false} ClaimsAct(s: State, e: Event, stale: set<nat>)
    requires Inv(s) && ClaimsCurrent(s, stale) && s.owed.None?
    ensures ClaimsCurrent(Act(s, e), StaleAfter(s, e, stale))
  {
    forall k | k in s.claimed ensures k < |s.rows| {
      assert ClaimOk(s, k);
    }
    hide Inv;
  }

  /**
   * Toggling one flag at a time, canceled in any order and with any successes, retries, deaths, restarts and
   * other intents in between: every local flag is always the newest surviving toggle's, or the original,
   * as long as no inverse is lost and no row dies for which an older row of its message and flag was
   * undone after it was claimed.
   */
  lemma {:induction false} OneFlagRunsReplay(s: State, es: seq<Event>, base: map<MessageId, Flags>, stale: set<nat>)
    requires Inv(s) && Replay(Settled(s), base) && OneFlagRows(s.rows) && ClaimsCurrent(s, stale)
    requires OneFlagRun(s, es, stale)
    ensures RunLossless(s, es) && Replay(Settled(Run(s, es)), base)
    decreases |es|
  {
    if es != [] {
      StepKeepsInv(s, es[0]);
      OneFlagGuard(s, es[0], stale);
      OneFlagStep(s, es[0], stale);
      StepExact(s, es[0], base);
      OneFlagRunsReplay(Step(s, es[0]), es[1..], base, StaleAfter(s, es[0], stale));
    }
  }

  // ---- where the code loses a value: concrete runs ----

  const M: MessageId := "m"

  function One(flags: Flags, rows: seq<Row>, claimed: map<nat, Claimed>): State {
    State(map[M := Message(flags, false, false, map[])], rows, claimed, None, [], 0)
  }

  function FlagsRow(values: FlagSet, prev: FlagSet, status: Status, attempts: nat): Row {
    Row(M, SetFlags(Some(FlagsPayload(values, prev))), status, attempts)
  }

  /** Undoing row 0 of two rows that set the same flags: everything goes to row 1 as it was first read. */
  lemma {:induction false} UndoFirstOfTwo(flags: Flags, r0: Row, r1: Row, p0: FlagsPayload, p1: FlagsPayload)
    requires !Alive(r0) && Active(r1) && r0.messageId == M == r1.messageId
    requires r1.intent == SetFlags(Some(p1)) && Seen in p1.values && Seen in p0.values && Seen in p0.prev
    requires (Flagged in p0.values <==> Flagged in p0.prev) && (Flagged in p0.values <==> Flagged in p1.values)
    ensures var msg := Message(flags, false, false, map[]);
            var np := if Flagged in p0.values then p1.prev[Flagged := p0.prev[Flagged]] else p1.prev[Seen := p0.prev[Seen]];
            RevertFlags(map[M := msg], [r0, r1], 0, M, Some(p0)) ==
            (map[M := msg], [r0, r1.(intent := SetFlags(Some(p1.(prev := np))))])
  {
    var rows := [r0, r1];
    assert NextHit(rows, M, Seen, 1) == Some(1);
    if Flagged in p0.values { assert NextHit(rows, M, Flagged, 1) == Some(1); }
    assert FLAG_NAMES[0] == Seen && FLAG_NAMES[1] == Flagged;
    assert Restored(rows, 0, M, p0, flags, 0) == map[];
    assert Restored(rows, 0, M, p0, flags, 1) == map[];
    assert Restored(rows, 0, M, p0, flags, 2) == map[];
    var one := HandOvers(rows, 0, M, p0, 1);
    assert HandOvers(rows, 0, M, p0, 0) == rows;
    assert one == [r0, r1.(intent := SetFlags(Some(p1.(prev := p1.prev[Seen := p0.prev[Seen]]))))];
    assert Flagged !in p0.values ==> HandOvers(rows, 0, M, p0, 2) == one;
    assert Flagged in p0.values ==> HandOvers(rows, 0, M, p0, 2) == HandOver(one, rows, 1, Flagged, p0.prev[Flagged]);
    assert flags.With(map[]) == flags;
    var np := if Flagged in p0.values then p1.prev[Flagged := p0.prev[Flagged]] else p1.prev[Seen := p0.prev[Seen]];
    assert HandOvers(rows, 0, M, p0, 2) == [r0, r1.(intent := SetFlags(Some(p1.(prev := np))))];
    var msg := Message(flags, false, false, map[]);
    assert map[M := msg][M := msg] == map[M := msg];
  }

  /** Undoing row 1 of two rows when row 0 no longer stands: its previous values go to the message. */
  lemma {:induction false} UndoLastOfTwo(flags: Flags, r0: Row, r1: Row, p1: FlagsPayload)
    requires !Alive(r0) && !Alive(r1) && r0.messageId == M == r1.messageId
    ensures var msg := Message(flags, false, false, map[]);
            var r := RevertFlags(map[M := msg], [r0, r1], 1, M, Some(p1));
            r.1 == [r0, r1] && M in r.0 &&
            forall f :: r.0[M].flags.Get(f) ==
                        if f in p1.values && f in p1.prev && flags.Get(f) == p1.values[f] then p1.prev[f] else flags.Get(f)
  {
    var rows := [r0, r1];
    assert FLAG_NAMES[0] == Seen && FLAG_NAMES[1] == Flagged;
    assert HandOvers(rows, 1, M, p1, 1) == rows;
    RestoredFlag(rows, 1, M, p1, flags, Seen);
    RestoredFlag(rows, 1, M, p1, flags, Flagged);
  }

  /** Nothing queued: every flag is its own original. */
  lemma {:induction false} FreshReplays(messages: map<MessageId, Message>)
    ensures Inv(Fresh(messages)) && Replay(Fresh(messages), map m | m in messages :: messages[m].flags)
  {
  }

  function Unread(): State {
    One(Flags(false, false), [], map[])
  }

  /** What a cancel of row `i` and its inverse leave, message and rows. */
  lemma {:induction false} CancelOf(s: State, i: nat)
    requires s.owed.None? && i < |s.rows| && s.rows[i].status.Pending? && s.rows[i].messageId in s.messages && s.rows[i].intent.SetFlags?
    ensures var t := Step(Step(s, Cancel(i)), Undo);
            && t.owed.None?
            && (t.messages, t.rows) ==
               RevertFlags(s.messages, s.rows[i := s.rows[i].(status := Canceled)], i, s.rows[i].messageId, s.rows[i].intent.change)
  {
    assert s.rows[i].(status := Canceled, attempts := s.rows[i].attempts) == s.rows[i].(status := Canceled);
  }

  lemma {:induction false} MarkedTwice(on: FlagSet, off: FlagSet)
    requires on == map[Seen := true, Flagged := true] && off == map[Seen := false, Flagged := false]
    ensures Run(Unread(), [EnqueueFlags(M, on), EnqueueFlags(M, off)])
            == One(Flags(false, false), [FlagsRow(on, off, Pending, 0), FlagsRow(off, on, Pending, 0)], map[])
  {
    var es := [EnqueueFlags(M, on), EnqueueFlags(M, off)];
    var s := Step(Unread(), es[0]);
    assert (map f | f in on :: Flags(false, false).Get(f)) == off;
    assert s == One(Flags(true, true), [FlagsRow(on, off, Pending, 0)], map[]);
    assert (map f | f in off :: Flags(true, true).Get(f)) == on;
    var t := Step(s, es[1]);
    assert t == One(Flags(false, false), [FlagsRow(on, off, Pending, 0), FlagsRow(off, on, Pending, 0)], map[]);
    assert es[1..] == [es[1]] && es[1..][1..] == [];
    assert Run(t, []) == t && Run(s, es[1..]) == Run(Step(s, es[1..][0]), es[1..][1..]);
  }

  /**
   * Two intents on both flags of an untouched message, the older canceled first: the write for the star
   * drops the one for read, and canceling the newer leaves the message read although nothing stands.
   */
  lemma {:induction false} DroppedHandover()
    ensures var on, off := map[Seen := true, Flagged := true], map[Seen := false, Flagged := false];
            var s := Run(Unread(), [EnqueueFlags(M, on), EnqueueFlags(M, off)]);
            var t := Step(Step(Step(Step(s, Cancel(0)), Undo), Cancel(1)), Undo);
            && Inv(Unread()) && Replay(Unread(), map[M := Flags(false, false)])
            && |t.rows| == 2 && !Alive(t.rows[0]) && !Alive(t.rows[1])
            && M in t.messages && t.messages[M].flags == Flags(true, false)
  {
    hide Run, RevertFlags;
    var on, off := map[Seen := true, Flagged := true], map[Seen := false, Flagged := false];
    MarkedTwice(on, off);
    UnreadReplays();
    var r0, r1 := FlagsRow(on, off, Pending, 0), FlagsRow(off, on, Pending, 0);
    var s := One(Flags(false, false), [r0, r1], map[]);
    CancelOf(s, 0);
    var u := Step(Step(s, Cancel(0)), Undo);
    var c0 := r0.(status := Canceled);
    UndoFirstOfTwo(Flags(false, false), c0, r1, FlagsPayload(on, off), FlagsPayload(off, on));
    var p1 := FlagsPayload(off, on[Flagged := false]);
    var r1' := r1.(intent := SetFlags(Some(p1)));
    assert s.rows[0 := c0] == [c0, r1];
    assert u.rows == [c0, r1'];
    UndoLastOfTwo(Flags(false, false), c0, r1'.(status := Canceled), p1);
    assert u.rows[1 := r1'.(status := Canceled)] == [c0, r1'.(status := Canceled)];
    CancelOf(u, 1);
    var t := Step(Step(u, Cancel(1)), Undo);
    assert t.messages[M].flags.Get(Seen) && !t.messages[M].flags.Get(Flagged);
  }

  lemma {:induction false} UnreadReplays()
    ensures Inv(Unread()) && Replay(Unread(), map[M := Flags(false, false)])
  {
    var messages := map[M := Message(Flags(false, false), false, false, map[])];
    FreshReplays(messages);
    assert (map m | m in messages :: messages[m].flags) == map[M := Flags(false, false)];
  }

  /**
   * The process dies between the cancel and its inverse: the message stays read although nothing stands and
   * neither the cancel nor a restart will try again.
   */
  lemma {:induction false} LostInverse()
    ensures var read := map[Seen := true];
            var s := Step(Unread(), EnqueueFlags(M, read));
            var t := Step(Step(s, Cancel(0)), Restart);
            && |t.rows| == 1 && t.rows[0].status.Canceled? && t.owed.None? && Lost(0) in t.log
            && M in t.messages && t.messages[M].flags == Flags(true, false)
  {
  }

  /** One failed attempt of row `i`. */
  function Retry(i: nat): seq<Event> {
    [Claim(i), Start(i), Finish(i, false)]
  }

  function Retries(i: nat, n: nat): seq<Event> {
    if n == 0 then [] else Retries(i, n - 1) + Retry(i)
  }

  /** A message marked read twice; each row fails four times and is claimed for the last. */
  function ReadTwice(): seq<Event> {
    var read := EnqueueFlags(M, map[Seen := true]);
    [read, read] + (Retries(0, 4) + (Retries(1, 4) + [Claim(0), Start(0), Claim(1), Start(1)]))
  }

  /** The same waiting rows, each with so many attempts behind it, none running. */
  ghost predicate Waiting(s: State, a: nat, b: nat) {
    && s.messages == map[M := Message(Flags(true, false), false, false, map[])] && s.claimed == map[] && s.owed.None?
    && s.rows == [FlagsRow(map[Seen := true], map[Seen := false], Pending, a), FlagsRow(map[Seen := true], map[Seen := true], Pending, b)]
  }

  lemma {:induction false} RunThree(s: State, a: Event, b: Event, c: Event)
    ensures Run(s, [a, b, c]) == Step(Step(Step(s, a), b), c)
  {
    hide Step;
    var es := [a, b, c];
    assert es[1..] == [b, c] && [b, c][1..] == [c] && [c][1..] == [];
    assert Run(s, es) == Run(Step(s, a), es[1..]);
    assert Run(Step(s, a), [b, c]) == Run(Step(Step(s, a), b), [b, c][1..]);
    assert Run(Step(Step(s, a), b), [c]) == Run(Step(Step(Step(s, a), b), c), [c][1..]);
  }

  lemma {:induction false} OneRetry(s: State, i: nat, a: nat, b: nat)
    requires Waiting(s, a, b) && i < 2 && (if i == 0 then a else b) + 1 < MAX_ATTEMPTS
    ensures if i == 0 then Waiting(Run(s, Retry(i)), a + 1, b) else Waiting(Run(s, Retry(i)), a, b + 1)
  {
    RunThree(s, Claim(i), Start(i), Finish(i, false));
    var u := Step(s, Claim(i));
    assert u.rows == s.rows[i := s.rows[i].(status := Sending)] && u.claimed == map[i := Claimed(s.rows[i], false)];
    var v := Step(u, Start(i));
    assert v.rows == u.rows && v.claimed == map[i := Claimed(s.rows[i], true)];
    var t := Step(v, Finish(i, false));
    assert t.claimed == map[];
  }

  lemma {:induction false} SomeRetries(s: State, i: nat, n: nat, b: nat)
    requires i < 2 && n < MAX_ATTEMPTS && (if i == 0 then Waiting(s, 0, b) else Waiting(s, b, 0))
    ensures var t := Run(s, Retries(i, n)); if i == 0 then Waiting(t, n, b) else Waiting(t, b, n)
  {
    hide Waiting, Step;
    if n > 0 {
      SomeRetries(s, i, n - 1, b);
      RunAppend(s, Retries(i, n - 1), Retry(i));
      var t := Run(s, Retries(i, n - 1));
      if i == 0 { OneRetry(t, 0, n - 1, b); } else { OneRetry(t, 1, b, n - 1); }
    }
  }

  lemma {:induction false} MarkedRead()
    ensures var read := EnqueueFlags(M, map[Seen := true]); Waiting(Run(Unread(), [read, read]), 0, 0)
  {
    var on: FlagSet := map[Seen := true];
    var es := [EnqueueFlags(M, on), EnqueueFlags(M, on)];
    var s := Step(Unread(), es[0]);
    assert (map f | f in on :: Flags(false, false).Get(f)) == map[Seen := false];
    assert (map f | f in on :: Flags(true, false).Get(f)) == map[Seen := true];
    assert s.rows == [FlagsRow(on, map[Seen := false], Pending, 0)];
    var t := Step(s, es[1]);
    assert t.rows == [FlagsRow(on, map[Seen := false], Pending, 0), FlagsRow(on, on, Pending, 0)];
    assert es[1..] == [es[1]] && es[1..][1..] == [];
    assert Run(t, []) == t && Run(s, es[1..]) == Run(Step(s, es[1..][0]), es[1..][1..]);
  }

  /** Both rows are running their last attempt. */
  ghost predicate LastAttempts(s: State) {
    var r0, r1 := FlagsRow(map[Seen := true], map[Seen := false], Sending, 4), FlagsRow(map[Seen := true], map[Seen := true], Sending, 4);
    && s.messages == map[M := Message(Flags(true, false), false, false, map[])] && s.rows == [r0, r1] && s.owed.None?
    && s.claimed == map[0 := Claimed(r0.(status := Pending), true), 1 := Claimed(r1.(status := Pending), true)]
  }

  lemma {:induction false} ClaimedBoth(s: State)
    requires Waiting(s, 4, 4)
    ensures LastAttempts(Run(s, [Claim(0), Start(0), Claim(1), Start(1)]))
  {
    var es := [Claim(0), Start(0), Claim(1), Start(1)];
    assert es == [Claim(0), Start(0)] + [Claim(1), Start(1)];
    var u := Step(Step(s, Claim(0)), Start(0));
    var t := Step(Step(u, Claim(1)), Start(1));
    assert u.claimed == map[0 := Claimed(s.rows[0], true)] && u.rows == [s.rows[0].(status := Sending), s.rows[1]];
    assert t.rows == [s.rows[0].(status := Sending), s.rows[1].(status := Sending)];
    assert t.claimed == map[0 := Claimed(s.rows[0], true), 1 := Claimed(s.rows[1], true)];
    hide Step;
    RunAppend(s, [Claim(0), Start(0)], [Claim(1), Start(1)]);
    RunTwo(s, Claim(0), Start(0));
    RunTwo(u, Claim(1), Start(1));
  }

  lemma {:induction false} RunTwo(s: State, a: Event, b: Event)
    ensures Run(s, [a, b]) == Step(Step(s, a), b)
  {
    hide Step;
    var es := [a, b];
    assert es[1..] == [b] && [b][1..] == [];
    assert Run(s, es) == Run(Step(s, a), [b]);
  }

  /** That state is reached from an empty outbox over an unread message, and every flag there is its own replay. */
  lemma {:induction false} ReadTwiceReached()
    ensures var s := Run(Unread(), ReadTwice());
            LastAttempts(s) && Inv(s) && Replay(s, map[M := Flags(false, false)])
  {
    hide Waiting, LastAttempts, Step, Inv, Replay;
    var read := EnqueueFlags(M, map[Seen := true]);
    var last := [Claim(0), Start(0), Claim(1), Start(1)];
    var s0 := Run(Unread(), [read, read]);
    var s1 := Run(s0, Retries(0, 4));
    var s2 := Run(s1, Retries(1, 4));
    MarkedRead();
    SomeRetries(s0, 0, 4, 0);
    SomeRetries(s1, 1, 4, 4);
    ClaimedBoth(s2);
    RunAppend(Unread(), [read, read], Retries(0, 4) + (Retries(1, 4) + last));
    RunAppend(s0, Retries(0, 4), Retries(1, 4) + last);
    RunAppend(s1, Retries(1, 4), last);
    UnreadReplays();
    RunKeepsInv(Unread(), ReadTwice());
    LastAttemptsReplay(Run(Unread(), ReadTwice()));
  }

  lemma {:induction false} LastAttemptsReplay(s: State)
    requires LastAttempts(s)
    ensures Replay(s, map[M := Flags(false, false)])
  {
    assert Replayed(s.rows, M, Seen, 1, false) && !Replayed(s.rows, M, Flagged, 1, false);
    assert FlagOk(s.messages, s.rows, M, Seen, false) && FlagOk(s.messages, s.rows, M, Flagged, false);
  }

  /**
   * The older row dies and hands "unread" to the newer in the table, but the newer dies with the payload
   * read at claim time, which says the message was read. It stays read, although the replay of what is
   * left is "unread" and neither change ever reached the server.
   */
  lemma {:induction false} StaleDeath()
    ensures var s := Run(Unread(), ReadTwice());
            var t := Step(Step(Step(Step(s, Finish(0, false)), Undo), Finish(1, false)), Undo);
            && |t.rows| == 2 && t.rows[0].status.Dead? && t.rows[1].status.Dead?
            && M in t.messages && t.messages[M].flags == Flags(true, false)
  {
    hide Run;
    ReadTwiceReached();
    BothDie(Run(Unread(), ReadTwice()));
  }

  lemma {:induction false} BothDie(s: State)
    requires LastAttempts(s)
    ensures var t := Step(Step(Step(Step(s, Finish(0, false)), Undo), Finish(1, false)), Undo);
            && |t.rows| == 2 && t.rows[0].status.Dead? && t.rows[1].status.Dead?
            && M in t.messages && t.messages[M].flags == Flags(true, false)
  {
    var read, unread := map[Seen := true], map[Seen := false];
    var r0, r1 := s.rows[0], s.rows[1];
    var c0 := r0.(status := Dead, attempts := 5);
    UndoFirstOfTwo(Flags(true, false), c0, r1, FlagsPayload(read, unread), FlagsPayload(read, read));
    var r1' := r1.(intent := SetFlags(Some(FlagsPayload(read, read[Seen := false]))));
    assert s.rows[0 := c0] == [c0, r1];
    hide RevertFlags, Act, Settled, Closing;
    DeathOf(s, 0);
    var u := Step(Step(s, Finish(0, false)), Undo);
    assert u.rows == [c0, r1'];
    assert u.claimed[1] == Claimed(r1.(status := Pending), true);
    var c1 := r1'.(status := Dead, attempts := 5);
    UndoLastOfTwo(Flags(true, false), c0, c1, FlagsPayload(read, read));
    assert u.rows[1 := c1] == [c0, c1];
    DeathOf(u, 1);
    var t := Step(Step(u, Finish(1, false)), Undo);
    hide Step, NextHit;
    assert t.messages[M].flags.Get(Seen) && !t.messages[M].flags.Get(Flagged);
  }

  /** What the death of row `i` and its inverse leave, message, rows and running pass. */
  lemma {:induction false} DeathOf(s: State, i: nat)
    requires s.owed.None? && i < |s.rows| && s.rows[i].messageId in s.messages && Dies(s, Finish(i, false))
    requires s.claimed[i].row.intent.SetFlags?
    ensures var t := Step(Step(s, Finish(i, false)), Undo);
            && t.owed.None? && t.claimed == s.claimed - {i}
            && (t.messages, t.rows) ==
               RevertFlags(s.messages, s.rows[i := s.rows[i].(status := Dead, attempts := s.claimed[i].row.attempts + 1)], i,
                           s.rows[i].messageId, s.claimed[i].row.intent.change)
  {
  }
}
