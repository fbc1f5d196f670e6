/**
 * Where a flag change is sent while moves are still waiting (outbox/runner.ts, db/placement.ts): the local
 * mappings already show the destination, but the server copy has not moved.
 */
module Placement {
  import opened Wrappers
  import opened Intents
  import opened Outbox
  import opened OutboxUndo

  datatype ServerPlacement = Server(folderId: FolderId, uid: nat) | LocalOnly | Unplaced

  /** The copy with a UID in the first folder that has one; `order` lists role-bearing folders first, then by path. */
  function Mapped(mapped: map<FolderId, Option<nat>>, order: seq<FolderId>): ServerPlacement {
    if order == [] then Unplaced
    else if order[0] in mapped && mapped[order[0]].Some? then Server(order[0], mapped[order[0]].value)
    else Mapped(mapped, order[1..])
  }

  predicate Moving(row: Row, m: MessageId) {
    row.messageId == m && row.intent.Move? && Active(row)
  }

  /** The oldest move of `m` at or after row `j` that has not run. */
  function OldestMove(rows: seq<Row>, m: MessageId, j: nat): (r: Option<nat>)
    ensures r.Some? ==> j <= r.value < |rows| && Moving(rows[r.value], m) && forall k :: j <= k < r.value ==> !Moving(rows[k], m)
    ensures r.None? ==> forall k :: j <= k < |rows| ==> !Moving(rows[k], m)
    decreases |rows| - j
  {
    if j >= |rows| then None else if Moving(rows[j], m) then Some(j) else OldestMove(rows, m, j + 1)
  }

  /** The server copy a move recorded when it took the message out of its folder. */
  function Taken(intent: Intent): Option<Mapping> {
    if intent.Move? && intent.move.Some? && intent.move.value.from.Some? && intent.move.value.from.value.uid.Some?
    then intent.move.value.from else None
  }

  /** Where a flag STORE for `m` goes: the copy the oldest waiting move will take, or the mapped one. */
  function FlagPlacement(s: State, m: MessageId, localOnly: bool, order: seq<FolderId>): ServerPlacement
    requires m in s.messages
  {
    if localOnly then LocalOnly
    else
      var next := OldestMove(s.rows, m, 0);
      var from := if next.Some? then Taken(s.rows[next.value].intent) else None;
      if from.Some? && from.value.folderId in order then Server(from.value.folderId, from.value.uid.value)
      else Mapped(s.messages[m].mapped, order)
  }

  lemma {:induction false} MappedIsMapped(mapped: map<FolderId, Option<nat>>, order: seq<FolderId>)
    ensures var p := Mapped(mapped, order);
            && !p.LocalOnly? && (p.Server? ==> p.folderId in mapped && mapped[p.folderId] == Some(p.uid))
            && (p.Unplaced? <==> forall f :: f in order && f in mapped ==> mapped[f].None?)
            && (p.Server? ==> exists k: nat :: FirstCopy(mapped, order, k) && order[k] == p.folderId)
  {
    if order != [] {
      MappedIsMapped(mapped, order[1..]);
      var q := Mapped(mapped, order[1..]);
      if order[0] in mapped && mapped[order[0]].Some? {
        assert FirstCopy(mapped, order, 0);
      } else if q.Server? {
        var k: nat :| FirstCopy(mapped, order[1..], k) && order[1..][k] == q.folderId;
        forall j | 0 <= j < k + 1 ensures !HasCopy(mapped, order[j]) {
          if j > 0 { assert order[1..][j - 1] == order[j]; }
        }
        assert FirstCopy(mapped, order, k + 1);
      }
    }
  }

  predicate HasCopy(mapped: map<FolderId, Option<nat>>, f: FolderId) {
    f in mapped && mapped[f].Some?
  }

  /** The first folder in the order that has a copy. */
  predicate FirstCopy(mapped: map<FolderId, Option<nat>>, order: seq<FolderId>, k: nat) {
    k < |order| && HasCopy(mapped, order[k]) && forall j :: 0 <= j < k ==> !HasCopy(mapped, order[j])
  }

  /** A flag change stays local exactly for detached mail, whatever moves wait and wherever it is mapped. */
  lemma {:induction false} LocalExactly(s: State, m: MessageId, localOnly: bool, order: seq<FolderId>)
    requires m in s.messages
    ensures FlagPlacement(s, m, localOnly, order).LocalOnly? <==> localOnly
  {
    MappedIsMapped(s.messages[m].mapped, order);
  }

  // ---- never a copy the message does not have ----

  /** The mappings' UIDs and those recorded by moves are all UIDs of the copies `held` on the server. */
  ghost predicate Copies(s: State, m: MessageId, held: map<FolderId, nat>) {
    && m in s.messages
    && (forall f :: f in s.messages[m].mapped && s.messages[m].mapped[f].Some? ==> f in held && held[f] == s.messages[m].mapped[f].value)
    && forall i :: 0 <= i < |s.rows| ==> RowCopy(s.rows[i], m, held)
  }

  predicate RowCopy(row: Row, m: MessageId, held: map<FolderId, nat>) {
    var from := Taken(row.intent);
    row.messageId == m && from.Some? ==> from.value.folderId in held && held[from.value.folderId] == from.value.uid.value
  }

  lemma {:induction false} InvertKeepsCopies(s: State, i: nat, intent: Intent, m: MessageId, held: map<FolderId, nat>)
    requires Inv(s) && Copies(s, m, held) && i < |s.rows| && SameKind(intent, s.rows[i].intent)
    ensures Copies(Invert(s, i, intent), m, held)
  {
    var r := Invert(s, i, intent);
    assert RowCopy(s.rows[i], m, held);
    forall k | 0 <= k < |s.rows| ensures SameKind(s.rows[k].intent, s.rows[k].intent) {
      assert RowOk(s, k);
    }
    if intent.SetFlags? && intent.change.Some? && s.rows[i].messageId in s.messages {
      HandOversFrame(s.rows, i, s.rows[i].messageId, intent.change.value, 2);
    }
    forall k | 0 <= k < |r.rows| ensures RowCopy(r.rows[k], m, held) {
      assert RowCopy(s.rows[k], m, held);
    }
  }

  lemma {:induction false} StepKeepsCopies(s: State, e: Event, m: MessageId, held: map<FolderId, nat>)
    requires Inv(s) && Copies(s, m, held)
    ensures Copies(Step(s, e), m, held)
  {
    if s.owed.None? {
      ActKeepsCopies(s, e, m, held);
    } else if e.Undo? {
      SettledKeepsCopies(s, m, held);
    } else if e.Abandon? || e.Restart? {
      ForgottenKeepsCopies(s, m, held);
      ActKeepsCopies(Forgotten(s), Restart, m, held);
    }
  }

  lemma {:induction false} SettledKeepsCopies(s: State, m: MessageId, held: map<FolderId, nat>)
    requires Inv(s) && Copies(s, m, held)
    ensures Copies(Settled(s), m, held)
  {
    var t := s.(owed := None);
    assert Inv(t) by {
      forall j | 0 <= j < |t.rows| ensures RowOk(t, j) { assert RowOk(s, j); }
      forall j | j in t.claimed ensures ClaimOk(t, j) { assert ClaimOk(s, j); }
    }
    if s.owed.Some? {
      InvertKeepsCopies(t, s.owed.value.i, s.owed.value.intent, m, held);
    }
  }

  lemma {:induction false} ForgottenKeepsCopies(s: State, m: MessageId, held: map<FolderId, nat>)
    requires Copies(s, m, held)
    ensures Copies(Forgotten(s), m, held)
  {
  }

  lemma {:induction false} ActKeepsCopies(s: State, e: Event, m: MessageId, held: map<FolderId, nat>)
    requires Copies(s, m, held) && s.owed.None?
    ensures Copies(Act(s, e), m, held)
  {
    hide Invert;
    var t := Act(s, e);
    forall k | 0 <= k < |t.rows| ensures RowCopy(t.rows[k], m, held) {
      if k < |s.rows| { assert RowCopy(s.rows[k], m, held); }
    }
  }

  /** No move of `m` succeeds on the server during the run, so its copies stay where they are. */
  predicate NoMoveLands(s: State, es: seq<Event>, m: MessageId)
    decreases |es|
  {
    es == [] || (!Lands(s, es[0], m) && NoMoveLands(Step(s, es[0]), es[1..], m))
  }

  predicate Lands(s: State, e: Event, m: MessageId) {
    s.owed.None? && e.Finish? && e.ok && e.i in s.claimed && s.claimed[e.i].started
    && s.claimed[e.i].row.intent.Move? && s.claimed[e.i].row.messageId == m
  }

  /**
   * As long as no move of the message lands, whatever is enqueued, canceled, claimed, killed or re-armed,
   * its flag changes go to a copy it really has on the server, or nowhere.
   */
  lemma {:induction false} NeverAWrongCopy(s: State, es: seq<Event>, m: MessageId, order: seq<FolderId>, held: map<FolderId, nat>)
    requires Inv(s) && Copies(s, m, held) && NoMoveLands(s, es, m)
    ensures m in Run(s, es).messages
    ensures var p := FlagPlacement(Run(s, es), m, false, order); p.Unplaced? || (p.Server? && p.folderId in held && held[p.folderId] == p.uid)
    decreases |es|
  {
    hide Step, Inv, Lands;
    if es == [] {
      MappedIsMapped(s.messages[m].mapped, order);
      var next := OldestMove(s.rows, m, 0);
      if next.Some? { assert RowCopy(s.rows[next.value], m, held); }
    } else {
      StepKeepsInv(s, es[0]);
      StepKeepsCopies(s, es[0], m, held);
      NeverAWrongCopy(Step(s, es[0]), es[1..], m, order, held);
    }
  }

  // ---- and when it finds the copy ----

  predicate MoveOf(e: Event, m: MessageId) {
    e.EnqueueMove? && e.messageId == m
  }

  predicate HasMove(es: seq<Event>, m: MessageId) {
    exists k :: 0 <= k < |es| && MoveOf(es[k], m)
  }

  /** Some move takes the message out of folder `a`. */
  predicate Takes(es: seq<Event>, m: MessageId, a: FolderId) {
    exists k :: 0 <= k < |es| && MoveOf(es[k], m) && es[k].fromId == Some(a)
  }

  /** The first move of the message names a folder other than `a`. */
  predicate FirstMisses(es: seq<Event>, m: MessageId, a: FolderId) {
    if es == [] then false
    else if MoveOf(es[0], m) then es[0].fromId != Some(a)
    else FirstMisses(es[1..], m, a)
  }

  lemma {:induction false} FirstMissesAppend(es: seq<Event>, e: Event, m: MessageId, a: FolderId)
    ensures FirstMisses(es + [e], m, a) <==> if HasMove(es, m) then FirstMisses(es, m, a) else MoveOf(e, m) && e.fromId != Some(a)
    ensures HasMove(es + [e], m) <==> HasMove(es, m) || MoveOf(e, m)
    ensures Takes(es + [e], m, a) <==> Takes(es, m, a) || (MoveOf(e, m) && e.fromId == Some(a))
  {
    var all := es + [e];
    assert forall k :: 0 <= k < |es| ==> all[k] == es[k];
    assert all[|es|] == e;
    FirstAppend(es, e, m, a);
  }

  lemma {:induction false} FirstAppend(es: seq<Event>, e: Event, m: MessageId, a: FolderId)
    ensures FirstMisses(es + [e], m, a) <==> if HasMove(es, m) then FirstMisses(es, m, a) else MoveOf(e, m) && e.fromId != Some(a)
  {
    if es == [] {
      assert es + [e] == [e] && [e][1..] == [];
    } else {
      FirstAppend(es[1..], e, m, a);
      assert (es + [e])[0] == es[0] && (es + [e])[1..] == es[1..] + [e];
      if !MoveOf(es[0], m) {
        assert forall k :: 0 < k < |es| ==> es[k] == es[1..][k - 1];
        assert forall k :: 0 <= k < |es[1..]| ==> es[1..][k] == es[k + 1];
      }
    }
  }

  /** What a stack of intents over a message mapped once, with UID `u` in `a`, leaves of the mapping and the oldest move. */
  ghost predicate Stacked(t: State, n: nat, es: seq<Event>, m: MessageId, a: FolderId, u: nat) {
    var next := OldestMove(t.rows, m, 0);
    && m in t.messages && n <= |t.rows| && t.owed.None?
    && (next.Some? <==> HasMove(es, m))
    && (next.Some? ==> Taken(t.rows[next.value].intent) == if FirstMisses(es, m, a) then None else Some(Mapping(a, Some(u))))
    && if Takes(es, m, a) then forall f :: f in t.messages[m].mapped ==> t.messages[m].mapped[f].None?
       else t.messages[m].mapped == map[a := Some(u)]
  }

  lemma {:induction false} OldestAppend(rows: seq<Row>, row: Row, m: MessageId, j: nat)
    requires j <= |rows|
    ensures OldestMove(rows + [row], m, j)
            == if OldestMove(rows, m, j).Some? then OldestMove(rows, m, j) else if Moving(row, m) then Some(|rows|) else None
    decreases |rows| - j
  {
    if j < |rows| {
      assert (rows + [row])[j] == rows[j];
      OldestAppend(rows, row, m, j + 1);
    } else {
      assert (rows + [row])[j] == row;
    }
  }

  lemma {:induction false} StackStep(t: State, n: nat, es: seq<Event>, e: Event, m: MessageId, a: FolderId, u: nat)
    requires Stacked(t, n, es, m, a, u) && Undoable(t, e)
    requires Takes(es, m, a) ==> HasMove(es, m)
    ensures Stacked(Step(t, e), n, es + [e], m, a, u)
  {
    FirstMissesAppend(es, e, m, a);
    hide FirstMisses, Takes, HasMove;
    var r := Step(t, e);
    assert r.rows == t.rows + [r.rows[|t.rows|]];
    OldestAppend(t.rows, r.rows[|t.rows|], m, 0);
    if MoveOf(e, m) {
      StackedMove(t.messages[m].mapped, e.fromId, e.destId, a, u);
    }
  }

  lemma {:induction false} StackedMove(mapped: map<FolderId, Option<nat>>, fromId: Option<FolderId>, destId: FolderId, a: FolderId, u: nat)
    requires fromId != Some(destId)
    ensures var (after, p) := MoveMappings(mapped, fromId, destId);
            && (mapped == map[a := Some(u)] && fromId == Some(a) ==>
                  p.from == Some(Mapping(a, Some(u))) && forall f :: f in after ==> after[f].None?)
            && (mapped == map[a := Some(u)] && fromId != Some(a) ==> after == mapped && p.from.None?)
            && ((forall f :: f in mapped ==> mapped[f].None?) ==> forall f :: f in after ==> after[f].None?)
  {
  }

  lemma {:induction false} StackRun(s: State, es: seq<Event>, m: MessageId, a: FolderId, u: nat)
    requires m in s.messages && s.owed.None? && s.messages[m].mapped == map[a := Some(u)] && OldestMove(s.rows, m, 0).None?
    requires forall k :: 0 <= k < |es| ==> Undoable(s, es[k])
    ensures Stacked(Run(s, es), |s.rows|, es, m, a, u) && Run(s, es).messages.Keys == s.messages.Keys
  {
    if es != [] {
      var front, last := es[..|es| - 1], es[|es| - 1];
      assert es == front + [last];
      StackRun(s, front, m, a, u);
      RunAppend(s, front, [last]);
      var t := Run(s, front);
      assert Run(t, [last]) == Step(t, last) by { assert [last][1..] == []; }
      assert Undoable(s, es[|es| - 1]);
      UndoableAlike(s, t, last);
      if k :| 0 <= k < |front| && MoveOf(front[k], m) && front[k].fromId == Some(a) { assert HasMove(front, m); }
      hide Stacked;
      StackStep(t, |s.rows|, front, last, m, a, u);
      UndoableStep(t, last);
    }
  }

  lemma {:induction false} UndoableAlike(s: State, t: State, e: Event)
    requires s.messages.Keys == t.messages.Keys && Undoable(s, e)
    ensures Undoable(t, e)
  {
  }

  /**
   * While a stack of intents waits over a message with one server copy in a ranked folder, a flag change finds that
   * copy exactly unless a move that named another folder was queued before the first one that took the copy: the runner only
   * looks at the oldest waiting move, and such a move recorded nothing.
   */
  lemma {:induction false} CopyFoundExact(s: State, es: seq<Event>, m: MessageId, a: FolderId, u: nat, order: seq<FolderId>)
    requires m in s.messages && s.owed.None? && s.messages[m].mapped == map[a := Some(u)] && OldestMove(s.rows, m, 0).None?
    requires forall k :: 0 <= k < |es| ==> Undoable(s, es[k])
    ensures m in Run(s, es).messages
    ensures FlagPlacement(Run(s, es), m, false, order)
            == if a !in order || (FirstMisses(es, m, a) && Takes(es, m, a)) then Unplaced else Server(a, u)
  {
    hide FirstMisses, Takes, HasMove, Undoable, Run;
    StackRun(s, es, m, a, u);
    var t := Run(s, es);
    MappedIsMapped(t.messages[m].mapped, order);
    if !FirstMisses(es, m, a) && Takes(es, m, a) { TakesHasMove(es, m, a); }
  }

  lemma {:induction false} TakesHasMove(es: seq<Event>, m: MessageId, a: FolderId)
    requires Takes(es, m, a)
    ensures HasMove(es, m)
  {
  }

  lemma {:induction false} OldestIgnoresCanceled(rows: seq<Row>, more: seq<Row>, m: MessageId, j: nat)
    requires rows <= more && j <= |rows| && forall k :: |rows| <= k < |more| ==> more[k].status.Canceled?
    ensures OldestMove(more, m, j) == OldestMove(rows, m, j)
    decreases |rows| - j
  {
    if j < |rows| {
      assert more[j] == rows[j];
      OldestIgnoresCanceled(rows, more, m, j + 1);
    }
  }

  /** Canceling the newest of the stack makes flag changes go where they went before those were made. */
  lemma {:induction false} CancelsRestorePlacement(s: State, es: seq<Event>, fs: seq<Event>, m: MessageId, localOnly: bool, order: seq<FolderId>)
    requires forall k :: 0 <= k < |fs| ==> Undoable(Run(s, es), fs[k])
    requires m in Run(s, es).messages && Run(s, es).owed.None?
    ensures var n := |Run(s, es).rows|;
            var t := Run(s, es + (fs + CancelsDown(n, n + |fs|)));
            m in t.messages && FlagPlacement(t, m, localOnly, order) == FlagPlacement(Run(s, es), m, localOnly, order)
  {
    hide Undoable, Run, CancelsDown;
    var u := Run(s, es);
    var n := |u.rows|;
    RunAppend(s, es, fs + CancelsDown(n, n + |fs|));
    NewestFirstRestores(u, fs);
    var t := Run(u, fs + CancelsDown(n, n + |fs|));
    OldestIgnoresCanceled(u.rows, t.rows, m, 0);
  }

  // ---- where the copy is lost: concrete runs ----

  const M: MessageId := "m"

  function InInbox(): State {
    Fresh(map[M := Message(Flags(false, false), false, false, map["INBOX" := Some(7)])])
  }

  /** Archived although it is not in the folder named, then moved to spam: a flag change now reaches no copy. */
  lemma {:induction false} EmptyMoveHidesTheCopy()
    ensures var es := [EnqueueMove(M, Some("Work"), "Archive"), EnqueueMove(M, Some("INBOX"), "Spam")];
            var t := Run(InInbox(), es);
            M in t.messages && FlagPlacement(t, M, false, ["INBOX", "Archive", "Spam", "Work"]) == Unplaced
  {
    var es := [EnqueueMove(M, Some("Work"), "Archive"), EnqueueMove(M, Some("INBOX"), "Spam")];
    assert MoveOf(es[0], M) && MoveOf(es[1], M) && es[1].fromId == Some("INBOX");
    assert "Work" != "INBOX" && "INBOX" != "Spam" && "Work" != "Archive" by {
      assert |"Work"| == 4 && |"INBOX"| == 5 && |"Archive"| == 7;
    }
    CopyFoundExact(InInbox(), es, M, "INBOX", 7, ["INBOX", "Archive", "Spam", "Work"]);
  }

  // ---- two moves undone oldest first ----

  /**
   * Two moves, the second from any folder the first left the message in, come back exactly when undone oldest
   * first, unless the second moved into the folder the first had left, or it moved the placeholder on that
   * the first had added.
   */
  lemma {:induction false} OldestFirstExact(msg: Message, a: FolderId, b: FolderId, c: FolderId, d: FolderId)
    requires a != b && c != d && a in msg.mapped && c in ApplyMove(msg, Some(a), b).0.mapped
    ensures var (out, p) := ApplyMove(msg, Some(a), b);
            var (out', q) := ApplyMove(out, Some(c), d);
            RevertMove(RevertMove(out', Some(p)), Some(q)) == msg <==> d != a && !(c == b && b !in msg.mapped)
  {
    var (out, p) := ApplyMove(msg, Some(a), b);
    var (out', q) := ApplyMove(out, Some(c), d);
    var back := RevertMove(RevertMove(out', Some(p)), Some(q)).mapped;
    if d == a {
      OldestFirstInto(msg, a, b, c);
    } else if c == b && b !in msg.mapped {
      assert b in back;
    } else {
      assert back == msg.mapped;
    }
  }

  lemma {:induction false} OldestFirstInto(msg: Message, a: FolderId, b: FolderId, c: FolderId)
    requires a != b && c != a && a in msg.mapped && c in ApplyMove(msg, Some(a), b).0.mapped
    ensures var (out, p) := ApplyMove(msg, Some(a), b);
            var (back, q) := ApplyMove(out, Some(c), a);
            RevertMove(RevertMove(back, Some(p)), Some(q)) != msg
  {
    var (out, p) := ApplyMove(msg, Some(a), b);
    var (back, q) := ApplyMove(out, Some(c), a);
    assert a !in RevertMove(RevertMove(back, Some(p)), Some(q)).mapped;
  }

  /**
   * So, moved out and back, then the first move canceled and the second: the message ends mapped without UID
   * to the folder it was only passing through.
   */
  lemma {:induction false} OldestFirstLosesTheCopy(msg: Message, a: FolderId, b: FolderId, u: nat)
    requires a != b && msg.mapped == map[a := Some(u)]
    ensures var (out, p) := ApplyMove(msg, Some(a), b);
            var (back, q) := ApplyMove(out, Some(b), a);
            RevertMove(RevertMove(back, Some(p)), Some(q)).mapped == map[b := None]
  {
    var (out, p) := ApplyMove(msg, Some(a), b);
    assert out.mapped == map[b := None];
    var (back, q) := ApplyMove(out, Some(b), a);
    assert back.mapped == map[a := None];
  }
}
