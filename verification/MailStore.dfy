/**
 * The message store as the program keeps it: rows and mappings rewritten in place, query by query.
 * Each method is proved to do what its function in `MailModel` says.
 */
module MailStore {
  import opened Wrappers
  import opened MailModel

  /** Rows handled per statement when purging. */
  const CHUNK: nat := 500

  class Mailbox {
    var messages: seq<Message>
    var mapped: map<Link, Option<nat>>

    ghost function St(): Store
      reads this
    {
      Store(messages, mapped)
    }

    constructor ()
      ensures St() == Store([], map[])
    {
      messages, mapped := [], map[];
    }

    // ---- identity and threads ----

    method FindExistingId(gm: Option<string>, mid: Option<string>) returns (id: Option<nat>)
      ensures id == FindExisting(messages, gm, mid)
    {
      if Truthy(gm) {
        var i := 0;
        while i < |messages|
          invariant i <= |messages| && FirstWith(messages, gm, None, 0) == FirstWith(messages, gm, None, i)
        {
          if messages[i].gmMsgId == gm {
            return Some(i);
          }
          i := i + 1;
        }
      }
      if Truthy(mid) {
        var i := 0;
        while i < |messages|
          invariant i <= |messages| && FirstWith(messages, None, mid, 0) == FirstWith(messages, None, mid, i)
        {
          if messages[i].messageId == mid {
            return Some(i);
          }
          i := i + 1;
        }
      }
      return None;
    }

    method ResolveThreadId(p: Parsed) returns (t: ThreadId)
      ensures t == ResolveThread(messages, p)
    {
      if Truthy(p.providerThreadId) {
        return Named(p.providerThreadId.value);
      }
      var i := 0;
      while i < |messages| && !IsAncestor(p, messages[i].messageId)
        invariant i <= |messages| && FirstAncestor(messages, p, 0) == FirstAncestor(messages, p, i)
      {
        i := i + 1;
      }
      if i < |messages| && TruthyThread(messages[i].thread) {
        return messages[i].thread;
      }
      return if p.messageId.Some? then Named(p.messageId.value) else Random(|messages|);
    }

    /** Fold each stale thread of an earlier reply into the new message's thread, one update per thread. */
    method MergeOrphanReplies(newId: nat)
      requires newId < |messages|
      modifies this`messages
      ensures messages == MergeOrphans(old(messages), newId)
    {
      var mid, own := messages[newId].messageId, messages[newId].thread;
      if !Truthy(mid) || !TruthyThread(own) {
        return;
      }
      var todo := StaleThreads(messages, mid, own);
      ghost var was, stale := messages, todo;
      assert Repoint(was, {}, own) == was;
      while todo != {}
        invariant todo <= stale && own !in stale
        invariant messages == Repoint(was, stale - todo, own)
        decreases todo
      {
        var t :| t in todo;
        var ms := messages;
        messages := seq(|ms|, k requires 0 <= k < |ms| => if ms[k].thread == t then ms[k].(thread := own) else ms[k]);
        assert stale - (todo - {t}) == (stale - todo) + {t};
        todo := todo - {t};
      }
      assert stale - {} == stale;
    }

    // ---- writes ----

    method TouchKnownMessage(id: nat, folder: FolderId, uid: Option<nat>, flags: Flags, role: Role)
      requires id < |messages|
      modifies this
      ensures St() == Touch(old(St()), id, folder, uid, flags, role)
    {
      if messages[id].localOnly {
        return;
      }
      messages := messages[id := messages[id].(flags := flags)];
      if role.Other? && messages[id].deleted && !messages[id].purged {
        messages := messages[id := messages[id].(deleted := false)];
      }
      mapped := mapped[Link(id, folder) := uid];
    }

    method UpsertMessage(folder: FolderId, uid: Option<nat>, p: Parsed, role: Role) returns (id: nat, inserted: bool)
      modifies this
      ensures St() == Upsert(old(St()), folder, uid, p, role)
      ensures inserted <==> FindExisting(old(messages), p.gmMsgId, p.messageId).None?
      ensures id < |messages| && Some(id) == if inserted then Some(old(|messages|)) else FindExisting(old(messages), p.gmMsgId, p.messageId)
    {
      var existing := FindExistingId(p.gmMsgId, p.messageId);
      if existing.Some? {
        TouchKnownMessage(existing.value, folder, uid, p.flags, role);
        return existing.value, false;
      }
      var thread := ResolveThreadId(p);
      id := |messages|;
      messages := messages + [Message(p.gmMsgId, p.messageId, p.inReplyTo, thread, p.flags, false, false, false)];
      mapped := mapped[Link(id, folder) := uid];
      MergeOrphanReplies(id);
      inserted := true;
    }

    method MarkMessageDeleted(id: nat)
      requires id < |messages|
      modifies this`messages
      ensures messages == old(messages)[id := old(messages)[id].(deleted := true)]
    {
      messages := messages[id := messages[id].(deleted := true)];
    }

    /** Drop the mappings and tombstone, one by one, what is mapped nowhere any more. */
    method UnlinkUids(folder: FolderId, uids: set<nat>)
      modifies this
      ensures St() == Unlink(old(St()), folder, uids)
    {
      ghost var was := St();
      var gone := set l | l in mapped && l.folder == folder && l.id < |messages| && !messages[l.id].localOnly
                          && mapped[l].Some? && mapped[l].value in uids;
      assert gone == Dropped(was, folder, uids);
      mapped := mapped - gone;
      var id := 0;
      while id < |messages|
        invariant |messages| == |was.messages| && id <= |messages| && mapped == was.mapped - gone
        invariant forall k :: 0 <= k < |messages| ==>
                    messages[k] == if k < id && Link(k, folder) in gone && !Mapped(mapped, k)
                                   then was.messages[k].(deleted := true) else was.messages[k]
      {
        if Link(id, folder) in gone {
          var stillMapped := exists l :: l in mapped && l.id == id;
          assert stillMapped == Mapped(mapped, id);
          if !stillMapped {
            MarkMessageDeleted(id);
          }
        }
        id := id + 1;
      }
    }

    /** Unlink what the server no longer has; the count is the number of mappings found gone. */
    method ReconcileExpunges(folder: FolderId, present: set<nat>) returns (expunged: nat)
      modifies this
      ensures St() == Reconcile(old(St()), folder, present)
      ensures expunged == |Dropped(old(St()), folder, ReconcilableUids(old(St()), folder) - present)|
    {
      var known := set l | l in mapped && l.folder == folder && l.id < |messages| && !messages[l.id].localOnly && mapped[l].Some?;
      var gone := set l | l in known && mapped[l].value !in present;
      var uids := set l | l in gone :: mapped[l].value;
      assert uids == ReconcilableUids(St(), folder) - present;
      assert gone == Dropped(St(), folder, uids);
      UnlinkUids(folder, uids);
      expunged := |gone|;
    }

    /** The folder's UIDs lost their meaning: of its mappings only those of detached messages stay, and every other folder keeps all of its own. */
    method ClearFolderUids(folder: FolderId)
      modifies this`mapped
      ensures St() == ClearFolder(old(St()), folder)
      ensures ReconcilableUids(St(), folder) == {}
      ensures forall l :: l in old(mapped) && (l.folder != folder || (l.id < |messages| && messages[l.id].localOnly)) ==>
                l in mapped && mapped[l] == old(mapped)[l]
      ensures forall l :: l in mapped ==> l in old(mapped)
    {
      mapped := map l | l in mapped && !(l.folder == folder && l.id < |messages| && !messages[l.id].localOnly) :: mapped[l];
    }

    /** The message is in that folder and nowhere else; every other message stays where it was. */
    method RelinkMessageToFolder(id: nat, folder: FolderId, uid: Option<nat>)
      modifies this`mapped
      ensures St() == Relink(old(St()), id, folder, uid)
      ensures forall f :: Link(id, f) in mapped <==> f == folder
      ensures mapped[Link(id, folder)] == uid
      ensures forall l: Link :: l.id != id ==> (l in mapped <==> l in old(mapped)) && (l in mapped ==> mapped[l] == old(mapped)[l])
    {
      mapped := map l | l in mapped && l.id != id :: mapped[l];
      mapped := mapped[Link(id, folder) := uid];
    }

    /** Purge in chunks of rows; each chunk is one update. */
    method PurgeRows(ids: seq<nat>)
      modifies this`messages
      ensures St() == Purge(old(St()), set k | k in ids)
    {
      ghost var was := messages;
      var i := 0;
      while i < |ids|
        invariant i <= |ids| + CHUNK && |messages| == |was|
        invariant forall k :: 0 <= k < |was| ==>
                    messages[k] == if k in ids[..if i < |ids| then i else |ids|] then was[k].(deleted := true, purged := true) else was[k]
        decreases |ids| - i
      {
        var hi := if i + CHUNK < |ids| then i + CHUNK else |ids|;
        var chunk := ids[i..hi];
        assert ids[..hi] == ids[..i] + chunk;
        var ms := messages;
        messages := seq(|ms|, k requires 0 <= k < |ms| => if k in chunk then ms[k].(deleted := true, purged := true) else ms[k]);
        i := i + CHUNK;
      }
      assert ids[..|ids|] == ids;
    }
  }
}
