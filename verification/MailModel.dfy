/**
 * One account's stored mail (imap/store.ts) as values: message rows, folder mappings with their UIDs,
 * and what each store operation does to them.
 */
module MailModel {
  import opened Wrappers

  type FolderId = string

  /** A thread key: a Message-ID or provider id, or a random id, numbered here by the row that drew it. */
  datatype ThreadId = Named(name: string) | Random(n: nat)

  datatype Flags = Flags(seen: bool, flagged: bool, answered: bool, draft: bool)

  datatype Role = Trash | Other

  datatype Message = Message(
    gmMsgId: Option<string>,
    messageId: Option<string>,
    inReplyTo: Option<string>,
    thread: ThreadId,
    flags: Flags,
    localOnly: bool,
    deleted: bool,
    purged: bool)

  datatype Link = Link(id: nat, folder: FolderId)

  /** Rows are numbered in insertion order; `mapped` is the message-folder table. */
  datatype Store = Store(messages: seq<Message>, mapped: map<Link, Option<nat>>)

  /** What the envelope of an incoming message says. */
  datatype Parsed = Parsed(
    gmMsgId: Option<string>,
    messageId: Option<string>,
    providerThreadId: Option<string>,
    inReplyTo: Option<string>,
    references: seq<string>,
    flags: Flags)

  /** Present and not the empty string. */
  predicate Truthy(s: Option<string>) {
    s.Some? && s.value != ""
  }

  predicate TruthyThread(t: ThreadId) {
    t.Named? ==> t.name != ""
  }

  /** The first row satisfying one of the two identities. */
  function FirstWith(ms: seq<Message>, gm: Option<string>, mid: Option<string>, i: nat): (r: Option<nat>)
    ensures r.Some? ==> i <= r.value < |ms| && (ms[r.value].gmMsgId == gm || ms[r.value].messageId == mid)
    ensures r.Some? ==> (gm.Some? && ms[r.value].gmMsgId == gm) || (mid.Some? && ms[r.value].messageId == mid)
    ensures r.None? ==> forall k :: i <= k < |ms| ==> !(gm.Some? && ms[k].gmMsgId == gm) && !(mid.Some? && ms[k].messageId == mid)
    decreases |ms| - i
  {
    if i >= |ms| then None
    else if (gm.Some? && ms[i].gmMsgId == gm) || (mid.Some? && ms[i].messageId == mid) then Some(i)
    else FirstWith(ms, gm, mid, i + 1)
  }

  /** An existing row by the strongest identity: the provider's message id, else the Message-ID. */
  function FindExisting(ms: seq<Message>, gm: Option<string>, mid: Option<string>): (r: Option<nat>)
    ensures r.Some? ==> r.value < |ms|
  {
    var byGm := if Truthy(gm) then FirstWith(ms, gm, None, 0) else None;
    if byGm.Some? then byGm
    else if Truthy(mid) then FirstWith(ms, None, mid, 0) else None
  }

  // ---- threads ----

  predicate IsAncestor(p: Parsed, mid: Option<string>) {
    Truthy(mid) && (p.inReplyTo == mid || mid.value in p.references)
  }

  /** The first stored row the headers name as an ancestor. The query names no order; rows are taken here as they were inserted. */
  function FirstAncestor(ms: seq<Message>, p: Parsed, i: nat): (r: Option<nat>)
    ensures r.Some? ==> i <= r.value < |ms| && IsAncestor(p, ms[r.value].messageId)
    ensures r.None? ==> forall k :: i <= k < |ms| ==> !IsAncestor(p, ms[k].messageId)
    decreases |ms| - i
  {
    if i >= |ms| then None
    else if IsAncestor(p, ms[i].messageId) then Some(i)
    else FirstAncestor(ms, p, i + 1)
  }

  function ResolveThread(ms: seq<Message>, p: Parsed): ThreadId {
    var parent := FirstAncestor(ms, p, 0);
    if Truthy(p.providerThreadId) then Named(p.providerThreadId.value)
    else if parent.Some? && TruthyThread(ms[parent.value].thread) then ms[parent.value].thread
    else if p.messageId.Some? then Named(p.messageId.value)
    else Random(|ms|)
  }

  /** Threads of stored direct replies to `mid` that are not `own`. */
  function StaleThreads(ms: seq<Message>, mid: Option<string>, own: ThreadId): set<ThreadId> {
    set k | 0 <= k < |ms| && ms[k].inReplyTo == mid && ms[k].thread != own && TruthyThread(ms[k].thread) :: ms[k].thread
  }

  function Repoint(ms: seq<Message>, stale: set<ThreadId>, own: ThreadId): seq<Message> {
    seq(|ms|, k requires 0 <= k < |ms| => if ms[k].thread in stale then ms[k].(thread := own) else ms[k])
  }

  /** Fold the threads of replies that came before row `n` into its own. */
  function MergeOrphans(ms: seq<Message>, n: nat): (r: seq<Message>)
    requires n < |ms|
    ensures |r| == |ms|
  {
    if !Truthy(ms[n].messageId) || !TruthyThread(ms[n].thread) then ms
    else Repoint(ms, StaleThreads(ms, ms[n].messageId, ms[n].thread), ms[n].thread)
  }

  function NewMessage(ms: seq<Message>, p: Parsed): Message {
    Message(p.gmMsgId, p.messageId, p.inReplyTo, ResolveThread(ms, p), p.flags, false, false, false)
  }

  /** The message rows after an arrival, as far as identity and threads go. */
  function Arrive(ms: seq<Message>, p: Parsed): seq<Message> {
    if FindExisting(ms, p.gmMsgId, p.messageId).Some? then ms
    else MergeOrphans(ms + [NewMessage(ms, p)], |ms|)
  }

  // ---- mappings and tombstones ----

  function SetMessage(s: Store, id: nat, m: Message): Store
    requires id < |s.messages|
  {
    s.(messages := s.messages[id := m])
  }

  /** A known message seen again. Detached mail is inert; outside Trash a re-sight lifts the tombstone, unless purged. */
  function Touch(s: Store, id: nat, folder: FolderId, uid: Option<nat>, flags: Flags, role: Role): Store
    requires id < |s.messages|
  {
    var m := s.messages[id];
    if m.localOnly then s
    else
      var lift := role.Other? && !m.purged;
      SetMessage(s, id, m.(flags := flags, deleted := m.deleted && !lift)).(mapped := s.mapped[Link(id, folder) := uid])
  }

  function Upsert(s: Store, folder: FolderId, uid: Option<nat>, p: Parsed, role: Role): Store {
    var existing := FindExisting(s.messages, p.gmMsgId, p.messageId);
    if existing.Some? then Touch(s, existing.value, folder, uid, p.flags, role)
    else Store(Arrive(s.messages, p), s.mapped[Link(|s.messages|, folder) := uid])
  }

  /** The mapping follows a live server UID: it does not belong to a detached message. */
  predicate Tracked(s: Store, l: Link) {
    l in s.mapped && l.id < |s.messages| && !s.messages[l.id].localOnly
  }

  /** Tracked mappings of a folder whose UID is among `uids`. */
  function Dropped(s: Store, folder: FolderId, uids: set<nat>): set<Link> {
    set l | l in s.mapped && l.folder == folder && Tracked(s, l) && s.mapped[l].Some? && s.mapped[l].value in uids
  }

  predicate Mapped(mapped: map<Link, Option<nat>>, id: nat) {
    exists l :: l in mapped && l.id == id
  }

  /** Drop mappings by UID and tombstone what is mapped nowhere any more. */
  function Unlink(s: Store, folder: FolderId, uids: set<nat>): Store {
    var gone := Dropped(s, folder, uids);
    var left := s.mapped - gone;
    Store(seq(|s.messages|, k requires 0 <= k < |s.messages| =>
                if Link(k, folder) in gone && !Mapped(left, k) then s.messages[k].(deleted := true) else s.messages[k]),
          left)
  }

  /** UIDs expunge reconciliation may act on. */
  function ReconcilableUids(s: Store, folder: FolderId): set<nat> {
    set l | l in s.mapped && l.folder == folder && Tracked(s, l) && s.mapped[l].Some? :: s.mapped[l].value
  }

  function Reconcile(s: Store, folder: FolderId, present: set<nat>): Store {
    Unlink(s, folder, ReconcilableUids(s, folder) - present)
  }

  /** UIDVALIDITY changed: every tracked mapping of the folder goes, whatever its UID. */
  function ClearFolder(s: Store, folder: FolderId): Store {
    s.(mapped := map l | l in s.mapped && !(l.folder == folder && Tracked(s, l)) :: s.mapped[l])
  }

  function Relink(s: Store, id: nat, folder: FolderId, uid: Option<nat>): Store {
    s.(mapped := (map l | l in s.mapped && l.id != id :: s.mapped[l])[Link(id, folder) := uid])
  }

  function Purge(s: Store, ids: set<nat>): Store {
    s.(messages := seq(|s.messages|, k requires 0 <= k < |s.messages| =>
                         if k in ids then s.messages[k].(deleted := true, purged := true) else s.messages[k]))
  }

  function ClearTombstone(s: Store, id: nat): Store
    requires id < |s.messages|
  {
    SetMessage(s, id, s.messages[id].(deleted := false))
  }

  /** Every mapping belongs to a stored row. */
  ghost predicate Valid(s: Store) {
    forall l :: l in s.mapped ==> l.id < |s.messages|
  }
}
