/**
 * Expunge reconciliation, tombstones and detached mail (imap/resync.ts, imap/store.ts, cleanup/purge.ts,
 * db/placement.ts).
 */
module Reconcile {
  import opened Wrappers
  import opened MailModel

  /** A purged shell is always tombstoned too; the normal views rely on it. */
  predicate Coherent(s: Store) {
    forall k :: 0 <= k < |s.messages| && s.messages[k].purged ==> s.messages[k].deleted
  }

  /** The tracked mappings of a folder with a UID all name live messages. */
  ghost predicate Settled(s: Store, folder: FolderId, present: set<nat>) {
    ReconcilableUids(s, folder) <= present
  }

  /** What a detached message keeps: its row and every mapping. */
  ghost predicate Frozen(s: Store, t: Store, id: nat)
    requires id < |s.messages| == |t.messages|
  {
    && t.messages[id] == s.messages[id]
    && forall f :: (Link(id, f) in s.mapped <==> Link(id, f) in t.mapped)
                   && (Link(id, f) in s.mapped ==> t.mapped[Link(id, f)] == s.mapped[Link(id, f)])
  }

  /** What dropping UIDs does to one message and to one mapping. */
  lemma {:induction false} UnlinkEffect(s: Store, folder: FolderId, uids: set<nat>)
    requires Valid(s)
    ensures var t := Unlink(s, folder, uids);
            && Valid(t) && |t.messages| == |s.messages|
            && (forall l :: l in t.mapped <==> l in s.mapped && l !in Dropped(s, folder, uids))
            && (forall l :: l in t.mapped ==> t.mapped[l] == s.mapped[l])
            && (forall k :: 0 <= k < |s.messages| ==>
                  t.messages[k] == s.messages[k].(deleted := s.messages[k].deleted
                                                   || (Link(k, folder) in Dropped(s, folder, uids) && !Mapped(t.mapped, k))))
  {
  }

  /**
   * One pass against the live UIDs settles the folder, and a second finds nothing to report and changes
   * nothing: the reconcile converges even though detached mappings keep UIDs the server no longer has.
   */
  lemma {:induction false} ReconcileConverges(s: Store, folder: FolderId, present: set<nat>)
    requires Valid(s)
    ensures var t := Reconcile(s, folder, present);
            && Settled(t, folder, present)
            && ReconcilableUids(t, folder) - present == {}
            && Reconcile(t, folder, present) == t
  {
    var uids := ReconcilableUids(s, folder) - present;
    var t := Reconcile(s, folder, present);
    UnlinkEffect(s, folder, uids);
    forall u | u in ReconcilableUids(t, folder) ensures u in present {
      var l :| l in t.mapped && l.folder == folder && Tracked(t, l) && t.mapped[l] == Some(u);
      assert Tracked(s, l) && s.mapped[l] == Some(u);
      assert u in ReconcilableUids(s, folder);
    }
    assert ReconcilableUids(t, folder) - present == {};
    var again := Reconcile(t, folder, present);
    assert Dropped(t, folder, {}) == {};
    assert again.messages == t.messages && again.mapped == t.mapped;
  }

  /**
   * What a pass may do: detached messages keep row and mappings; nothing in another folder, no mapping
   * whose UID is live and no placeholder without UID is dropped; and a message is tombstoned by the
   * pass exactly when the pass took its last mapping.
   */
  lemma {:induction false} ReconcileTouchesOnlyTheGone(s: Store, folder: FolderId, present: set<nat>, id: nat)
    requires Valid(s) && id < |s.messages|
    ensures var t := Reconcile(s, folder, present);
            && |t.messages| == |s.messages|
            && (s.messages[id].localOnly ==> Frozen(s, t, id))
            && (forall f :: Link(id, f) in s.mapped ==>
                  (Link(id, f) !in t.mapped <==>
                   f == folder && !s.messages[id].localOnly && s.mapped[Link(id, f)].Some? && s.mapped[Link(id, f)].value !in present))
            && (forall f :: Link(id, f) in t.mapped ==> Link(id, f) in s.mapped && t.mapped[Link(id, f)] == s.mapped[Link(id, f)])
            && (t.messages[id] == s.messages[id].(deleted := t.messages[id].deleted))
            && (t.messages[id].deleted <==> s.messages[id].deleted || (Mapped(s.mapped, id) && !Mapped(t.mapped, id)))
  {
    var uids := ReconcilableUids(s, folder) - present;
    var t := Reconcile(s, folder, present);
    UnlinkEffect(s, folder, uids);
    var l := Link(id, folder);
    forall f | Link(id, f) in s.mapped
      ensures Link(id, f) in Dropped(s, folder, uids) <==>
              f == folder && !s.messages[id].localOnly && s.mapped[Link(id, f)].Some? && s.mapped[Link(id, f)].value !in present
    {
      if f == folder && !s.messages[id].localOnly && s.mapped[l].Some? {
        assert Tracked(s, l);
        assert s.mapped[l].value in ReconcilableUids(s, folder);
      }
    }
    if Mapped(s.mapped, id) && !Mapped(t.mapped, id) {
      var m :| m in s.mapped && m.id == id;
      assert m == Link(id, m.folder) && m in Dropped(s, folder, uids);
    }
    if l in Dropped(s, folder, uids) {
      assert Mapped(s.mapped, id);
    }
  }

  // ---- arrivals ----

  /** A message not known before becomes one live row with the envelope's ids and flags, mapped to its folder with its UID. */
  lemma {:induction false} ArrivalLands(s: Store, folder: FolderId, uid: Option<nat>, p: Parsed, role: Role)
    requires Valid(s) && FindExisting(s.messages, p.gmMsgId, p.messageId).None?
    ensures var t := Upsert(s, folder, uid, p, role); var id := |s.messages|;
            && Valid(t) && |t.messages| == id + 1
            && (var m := t.messages[id];
                && m.gmMsgId == p.gmMsgId && m.messageId == p.messageId && m.inReplyTo == p.inReplyTo && m.flags == p.flags
                && !m.localOnly && !m.deleted && !m.purged)
            && (forall k :: 0 <= k < id ==> t.messages[k] == s.messages[k].(thread := t.messages[k].thread))
            && (forall l :: l in t.mapped <==> l in s.mapped || l == Link(id, folder))
            && (forall l :: l in s.mapped ==> t.mapped[l] == s.mapped[l])
            && t.mapped[Link(id, folder)] == uid
  {
    ArriveMarks(s.messages, p);
  }

  /** Its folder then has exactly that UID more to reconcile, and no other folder has any. */
  lemma {:induction false} ArrivalReconcilable(s: Store, folder: FolderId, uid: Option<nat>, p: Parsed, role: Role, other: FolderId)
    requires Valid(s) && FindExisting(s.messages, p.gmMsgId, p.messageId).None? && other != folder
    ensures var t := Upsert(s, folder, uid, p, role);
            && ReconcilableUids(t, folder) == ReconcilableUids(s, folder) + (if uid.Some? then {uid.value} else {})
            && ReconcilableUids(t, other) == ReconcilableUids(s, other)
  {
    hide Upsert;
    ArrivalLands(s, folder, uid, p, role);
    var t := Upsert(s, folder, uid, p, role);
    forall l | l in s.mapped ensures Tracked(t, l) <==> Tracked(s, l) {
      assert t.messages[l.id] == s.messages[l.id].(thread := t.messages[l.id].thread);
    }
    SameUids(s, t, other);
    forall u | u in ReconcilableUids(s, folder) ensures u in ReconcilableUids(t, folder) {
      var l :| l in s.mapped && l.folder == folder && Tracked(s, l) && s.mapped[l] == Some(u);
      assert Tracked(t, l);
    }
    if uid.Some? {
      assert Tracked(t, Link(|s.messages|, folder));
      assert uid.value in ReconcilableUids(t, folder);
    }
    forall u | u in ReconcilableUids(t, folder) ensures u in ReconcilableUids(s, folder) || uid == Some(u) {
      var l :| l in t.mapped && l.folder == folder && Tracked(t, l) && t.mapped[l] == Some(u);
      if l != Link(|s.messages|, folder) { assert Tracked(s, l); }
    }
  }

  /** Stores that map the folder alike reconcile it alike. */
  lemma {:induction false} SameUids(s: Store, t: Store, folder: FolderId)
    requires forall l: Link :: l.folder == folder ==> (l in t.mapped <==> l in s.mapped) && (l in s.mapped ==> s.mapped[l] == t.mapped[l] && (Tracked(t, l) <==> Tracked(s, l)))
    ensures ReconcilableUids(t, folder) == ReconcilableUids(s, folder)
  {
    forall u | u in ReconcilableUids(s, folder) ensures u in ReconcilableUids(t, folder) {
      var l :| l in s.mapped && l.folder == folder && Tracked(s, l) && s.mapped[l] == Some(u);
      assert l in t.mapped && Tracked(t, l) && t.mapped[l] == Some(u);
    }
    forall u | u in ReconcilableUids(t, folder) ensures u in ReconcilableUids(s, folder) {
      var l :| l in t.mapped && l.folder == folder && Tracked(t, l) && t.mapped[l] == Some(u);
      assert l in s.mapped && Tracked(s, l) && s.mapped[l] == Some(u);
    }
  }

  /**
   * From there on the folder's listing decides: a pass against one that has the UID leaves the new message live and
   * mapped, a pass against one without it tombstones it and drops the mapping. Without a UID it stays either way.
   */
  lemma {:induction false} ArrivalThenReconcile(s: Store, folder: FolderId, uid: Option<nat>, p: Parsed, role: Role, present: set<nat>)
    requires Valid(s) && FindExisting(s.messages, p.gmMsgId, p.messageId).None?
    ensures var id := |s.messages|; var t := Reconcile(Upsert(s, folder, uid, p, role), folder, present);
            && |t.messages| == id + 1
            && (Link(id, folder) in t.mapped <==> uid.None? || uid.value in present)
            && (t.messages[id].deleted <==> uid.Some? && uid.value !in present)
  {
    hide Upsert, Reconcile;
    var id, t := |s.messages|, Upsert(s, folder, uid, p, role);
    ArrivalLands(s, folder, uid, p, role);
    ReconcileTouchesOnlyTheGone(t, folder, present, id);
    var r := Reconcile(t, folder, present);
    assert Mapped(t.mapped, id) by { assert Link(id, folder) in t.mapped; }
    assert forall l :: l in t.mapped && l.id == id ==> l == Link(id, folder);
    forall l | l in r.mapped && l.id == id ensures l == Link(id, folder) {
      assert l == Link(id, l.folder);
    }
    assert Mapped(r.mapped, id) <==> Link(id, folder) in r.mapped;
  }

  /**
   * A known message seen again in a folder is mapped there with the UID it now has and takes over the flags it has
   * on the server; its tombstone is lifted exactly outside Trash and unless it is purged. A detached one is left
   * alone, and so is everything else.
   */
  lemma {:induction false} SightingLands(s: Store, folder: FolderId, uid: Option<nat>, p: Parsed, role: Role)
    requires Valid(s) && FindExisting(s.messages, p.gmMsgId, p.messageId).Some?
    ensures var id := FindExisting(s.messages, p.gmMsgId, p.messageId).value; var t := Upsert(s, folder, uid, p, role); var m := s.messages[id];
            if m.localOnly then t == s
            else
              && |t.messages| == |s.messages| && (forall k :: 0 <= k < |s.messages| && k != id ==> t.messages[k] == s.messages[k])
              && t.messages[id] == m.(flags := p.flags, deleted := t.messages[id].deleted)
              && (t.messages[id].deleted <==> m.deleted && (role.Trash? || m.purged))
              && (forall l :: l in t.mapped <==> l in s.mapped || l == Link(id, folder))
              && (forall l :: l in s.mapped && l != Link(id, folder) ==> t.mapped[l] == s.mapped[l])
              && t.mapped[Link(id, folder)] == uid
  {
  }

  /** A purge tombstones and purges exactly the given rows and changes nothing else about them, no other row and no mapping. */
  lemma {:induction false} PurgeLeaves(s: Store, ids: set<nat>, k: nat)
    requires k < |s.messages|
    ensures var t := Purge(s, ids);
            && |t.messages| == |s.messages| && t.mapped == s.mapped
            && (t.messages[k].purged <==> s.messages[k].purged || k in ids) && (t.messages[k].deleted <==> s.messages[k].deleted || k in ids)
            && t.messages[k] == s.messages[k].(deleted := t.messages[k].deleted, purged := t.messages[k].purged)
  {
  }

  // ---- clearing a folder, relinking a message ----

  /**
   * After the folder is cleared it has no UID left to reconcile, so until it is fetched again a pass against
   * any listing changes nothing - no message is tombstoned for a UID of the old numbering. Detached
   * messages keep everything, other folders reconcile as before, and clearing again does nothing.
   */
  lemma {:induction false} ClearFolderLeaves(s: Store, folder: FolderId, present: set<nat>, other: FolderId)
    requires Valid(s) && other != folder
    ensures var t := ClearFolder(s, folder);
            && t.messages == s.messages
            && Reconcile(t, folder, present) == t && ClearFolder(t, folder) == t
            && ReconcilableUids(t, other) == ReconcilableUids(s, other)
            && (forall id :: 0 <= id < |s.messages| && s.messages[id].localOnly ==> Frozen(s, t, id))
            && (forall id, f :: 0 <= id < |s.messages| && !s.messages[id].localOnly ==> (Link(id, f) in t.mapped <==> Link(id, f) in s.mapped && f != folder))
  {
    var t := ClearFolder(s, folder);
    assert forall l :: Tracked(t, l) <==> Tracked(s, l) && l.folder != folder;
    assert ReconcilableUids(t, folder) == {};
    assert Dropped(t, folder, {}) == {};
    assert Reconcile(t, folder, present).mapped == t.mapped;
    assert Reconcile(t, folder, present).messages == t.messages;
    assert ClearFolder(t, folder).mapped == t.mapped;
    forall u | u in ReconcilableUids(s, other) ensures u in ReconcilableUids(t, other) {
      var l :| l in s.mapped && l.folder == other && Tracked(s, l) && s.mapped[l] == Some(u);
      assert Tracked(t, l) && t.mapped[l] == Some(u);
    }
    forall u | u in ReconcilableUids(t, other) ensures u in ReconcilableUids(s, other) {
      var l :| l in t.mapped && l.folder == other && Tracked(t, l) && t.mapped[l] == Some(u);
      assert Tracked(s, l) && s.mapped[l] == Some(u);
    }
  }

  /** The message is mapped to one folder, with that UID. */
  ghost predicate OnlyIn(s: Store, id: nat, folder: FolderId, uid: Option<nat>) {
    && (forall f :: Link(id, f) in s.mapped <==> f == folder)
    && s.mapped[Link(id, folder)] == uid
  }

  /**
   * A relink leaves the message in one folder with that UID; the last of two decides; and one back undoes
   * one away exactly when the message was in that one folder with that UID before - any other mapping it
   * had is gone for good.
   */
  lemma {:induction false} RelinkLeaves(s: Store, id: nat, a: FolderId, u: Option<nat>, b: FolderId, v: Option<nat>)
    ensures OnlyIn(Relink(s, id, b, v), id, b, v)
    ensures Relink(Relink(s, id, b, v), id, a, u) == Relink(s, id, a, u)
    ensures Relink(Relink(s, id, b, v), id, a, u) == s <==> OnlyIn(s, id, a, u)
  {
    var t := Relink(s, id, a, u);
    assert Relink(Relink(s, id, b, v), id, a, u).mapped == t.mapped;
    assert OnlyIn(t, id, a, u);
    if OnlyIn(s, id, a, u) {
      forall l | l in s.mapped && l.id == id ensures l == Link(id, a) {
        assert l == Link(id, l.folder);
      }
      assert t.mapped == s.mapped;
    }
  }

  // ---- tombstone coherence ----

  lemma {:induction false} StepsKeepCoherent(s: Store, folder: FolderId, uid: Option<nat>, uids: set<nat>, p: Parsed, role: Role, ids: set<nat>)
    requires Valid(s) && Coherent(s)
    ensures Valid(Upsert(s, folder, uid, p, role)) && Coherent(Upsert(s, folder, uid, p, role))
    ensures Coherent(Unlink(s, folder, uids)) && Coherent(ClearFolder(s, folder)) && Coherent(Purge(s, ids))
  {
    var t := Upsert(s, folder, uid, p, role);
    if FindExisting(s.messages, p.gmMsgId, p.messageId).None? {
      ArriveMarks(s.messages, p);
    }
  }

  /** An arrival changes no existing row but its thread, and the new row is live. */
  lemma {:induction false} ArriveMarks(ms: seq<Message>, p: Parsed)
    ensures var after := Arrive(ms, p);
            && |after| >= |ms|
            && (forall k :: 0 <= k < |ms| ==> after[k] == ms[k].(thread := after[k].thread))
            && (forall k :: |ms| <= k < |after| ==> !after[k].purged && !after[k].deleted)
            && (FindExisting(ms, p.gmMsgId, p.messageId).None? ==> |after| == |ms| + 1)
  {
  }

  /** Lifting a tombstone without looking at `purged` keeps coherence exactly when the row is not purged. */
  lemma {:induction false} ClearTombstoneExact(s: Store, id: nat)
    requires Coherent(s) && id < |s.messages|
    ensures Coherent(ClearTombstone(s, id)) <==> !s.messages[id].purged
  {
    var t := ClearTombstone(s, id);
    assert t.messages[id].purged == s.messages[id].purged && !t.messages[id].deleted;
  }

  // ---- one message moved elsewhere, two folders reconciled in either order ----

  /** The pass that drops the source copy took the message's only mapping. */
  ghost predicate OrphanedBy(s: Store, id: nat, folder: FolderId, uids: set<nat>) {
    Link(id, folder) in Dropped(s, folder, uids) && forall f :: Link(id, f) in s.mapped ==> f == folder
  }

  /** Two mappings that agree on a message map it alike. */
  lemma {:induction false} OthersMappedAlike(m: map<Link, Option<nat>>, n: map<Link, Option<nat>>, id: nat, k: nat)
    requires k != id && forall l: Link :: l.id != id ==> (l in m <==> l in n)
    ensures Mapped(m, k) <==> Mapped(n, k)
  {
    if Mapped(m, k) {
      var l :| l in m && l.id == k;
      assert l in n;
    }
    if Mapped(n, k) {
      var l :| l in n && l.id == k;
      assert l in m;
    }
  }

  /** Seeing `id` in another folder drops the same mappings from the first and changes no other message. */
  lemma {:induction false} TouchThenUnlink(s: Store, id: nat, a: FolderId, gone: set<nat>, b: FolderId, uid: Option<nat>, flags: Flags, role: Role)
    requires Valid(s) && id < |s.messages| && a != b && !s.messages[id].localOnly
    ensures var w := Touch(s, id, b, uid, flags, role); var t := Unlink(w, a, gone); var u := Unlink(s, a, gone);
            && t.mapped == u.mapped[Link(id, b) := uid] && |t.messages| == |s.messages|
            && t.messages[id] == w.messages[id]
            && forall k :: 0 <= k < |s.messages| && k != id ==> t.messages[k] == u.messages[k]
  {
    hide Unlink, Dropped, Mapped, Touch;
    var w := Touch(s, id, b, uid, flags, role);
    var t, u := Unlink(w, a, gone), Unlink(s, a, gone);
    TouchEffect(s, id, b, uid, flags, role);
    SameDropped(s, id, a, gone, b, uid, flags, role);
    UnlinkEffect(s, a, gone);
    UnlinkEffect(w, a, gone);
    assert t.mapped == u.mapped[Link(id, b) := uid];
    MappedBy(t.mapped, Link(id, b));
    forall k | 0 <= k < |s.messages| && k != id ensures t.messages[k] == u.messages[k] {
      OthersMappedAlike(u.mapped, t.mapped, id, k);
    }
  }

  lemma {:induction false} TouchEffect(s: Store, id: nat, b: FolderId, uid: Option<nat>, flags: Flags, role: Role)
    requires Valid(s) && id < |s.messages| && !s.messages[id].localOnly
    ensures var w := Touch(s, id, b, uid, flags, role);
            && Valid(w) && w.mapped == s.mapped[Link(id, b) := uid] && |w.messages| == |s.messages|
            && forall k :: 0 <= k < |s.messages| && k != id ==> w.messages[k] == s.messages[k]
  {
  }

  lemma {:induction false} SameDropped(s: Store, id: nat, a: FolderId, gone: set<nat>, b: FolderId, uid: Option<nat>, flags: Flags, role: Role)
    requires id < |s.messages| && a != b && !s.messages[id].localOnly
    ensures Dropped(Touch(s, id, b, uid, flags, role), a, gone) == Dropped(s, a, gone) && Link(id, b) !in Dropped(s, a, gone)
  {
  }

  lemma {:induction false} MappedBy(mapped: map<Link, Option<nat>>, l: Link)
    requires l in mapped
    ensures Mapped(mapped, l.id)
  {
  }

  lemma {:induction false} OrphanedMeansUnmapped(s: Store, id: nat, a: FolderId, gone: set<nat>)
    requires Valid(s) && id < |s.messages|
    ensures OrphanedBy(s, id, a, gone) <==> Link(id, a) in Dropped(s, a, gone) && !Mapped(Unlink(s, a, gone).mapped, id)
  {
    var u := Unlink(s, a, gone);
    UnlinkEffect(s, a, gone);
    if OrphanedBy(s, id, a, gone) {
      forall l | l in u.mapped ensures l.id != id {
        assert l == Link(l.id, l.folder);
      }
    }
    assert forall f :: Link(id, f) in s.mapped && f != a ==> Link(id, f) in u.mapped;
  }

  /**
   * A message left folder `a` and showed up in folder `b`. Reconciling `a` first and `b` first give the
   * same store, except when `b` is Trash and the message was live and mapped to `a` alone: then only
   * "a first" tombstones it.
   */
  lemma {:induction false} OrderExact(s: Store, id: nat, a: FolderId, gone: set<nat>, b: FolderId, uid: Option<nat>, flags: Flags, role: Role)
    requires Valid(s) && Coherent(s) && id < |s.messages| && a != b
    ensures Touch(Unlink(s, a, gone), id, b, uid, flags, role) == Unlink(Touch(s, id, b, uid, flags, role), a, gone) <==>
            !(role.Trash? && !s.messages[id].deleted && OrphanedBy(s, id, a, gone))
  {
    var u := Unlink(s, a, gone);
    UnlinkEffect(s, a, gone);
    if !s.messages[id].localOnly {
      TouchThenUnlink(s, id, a, gone, b, uid, flags, role);
      OrphanedMeansUnmapped(s, id, a, gone);
      var aFirst := Touch(u, id, b, uid, flags, role);
      var bFirst := Unlink(Touch(s, id, b, uid, flags, role), a, gone);
      assert aFirst.messages[id] == bFirst.messages[id] ==> aFirst.messages == bFirst.messages;
    }
  }

  /** Moved between two folders that are not Trash, an unpurged tracked message ends live and mapped to the destination only. */
  lemma {:induction false} MovedEndsLive(s: Store, id: nat, a: FolderId, gone: set<nat>, b: FolderId, uid: nat, flags: Flags)
    requires Valid(s) && Coherent(s) && id < |s.messages| && a != b && !s.messages[id].purged
    requires OrphanedBy(s, id, a, gone)
    ensures var t := Touch(Unlink(s, a, gone), id, b, Some(uid), flags, Other);
            && t == Unlink(Touch(s, id, b, Some(uid), flags, Other), a, gone)
            && !t.messages[id].deleted && t.messages[id].flags == flags
            && forall f :: Link(id, f) in t.mapped <==> f == b
  {
    OrderExact(s, id, a, gone, b, Some(uid), flags, Other);
    UnlinkEffect(s, a, gone);
  }
}
