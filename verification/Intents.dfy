/**
 * Mailbox intents (outbox/intents.ts): what a delete, move or flag change does to one message,
 * what it records about the state it replaced, and how that record takes the change back.
 */
module Intents {
  import opened Wrappers

  type FolderId = string
  type MessageId = string

  datatype FlagName = Seen | Flagged

  const FLAG_NAMES: seq<FlagName> := [Seen, Flagged]

  /** A partial assignment of flags. */
  type FlagSet = map<FlagName, bool>

  datatype Flags = Flags(seen: bool, flagged: bool) {
    function Get(f: FlagName): bool {
      match f
      case Seen => seen
      case Flagged => flagged
    }

    function With(vs: FlagSet): Flags {
      Flags(if Seen in vs then vs[Seen] else seen, if Flagged in vs then vs[Flagged] else flagged)
    }
  }

  /** The columns an intent touches. `mapped` holds the message's folder mappings with their UIDs. */
  datatype Message = Message(flags: Flags, deleted: bool, purged: bool, mapped: map<FolderId, Option<nat>>)

  datatype DeletePayload = DeletePayload(wasDeleted: bool)

  datatype Mapping = Mapping(folderId: FolderId, uid: Option<nat>)

  datatype MovePayload = MovePayload(from: Option<Mapping>, destId: FolderId, addedDest: bool)

  datatype FlagsPayload = FlagsPayload(values: FlagSet, prev: FlagSet)

  // ---- delete ----

  function ApplyDelete(msg: Message): (Message, DeletePayload) {
    (msg.(deleted := true), DeletePayload(msg.deleted))
  }

  /** A row written before payloads existed has none; it tombstoned the message too. */
  function RevertDelete(msg: Message, p: Option<DeletePayload>): Message {
    if p.Some? && p.value.wasDeleted then msg else msg.(deleted := false)
  }

  // ---- archive / move ----

  /** Drop the source mapping and map into the destination with no UID, unless it is mapped already. */
  function MoveMappings(mapped: map<FolderId, Option<nat>>, fromId: Option<FolderId>, destId: FolderId)
    : (map<FolderId, Option<nat>>, MovePayload)
  {
    if fromId.None? || fromId.value !in mapped then
      (mapped, MovePayload(None, destId, false))
    else
      var from := Mapping(fromId.value, mapped[fromId.value]);
      var left := mapped - {fromId.value};
      if destId in left then (left, MovePayload(Some(from), destId, false))
      else (left[destId := None], MovePayload(Some(from), destId, true))
  }

  /** Put the source mapping back; drop the destination mapping only while it is the placeholder. */
  function RestoreMappings(mapped: map<FolderId, Option<nat>>, p: Option<MovePayload>)
    : map<FolderId, Option<nat>>
  {
    if p.None? || p.value.from.None? then mapped
    else
      var from := p.value.from.value;
      var back := if from.folderId in mapped then mapped else mapped[from.folderId := from.uid];
      if p.value.addedDest && p.value.destId in back && back[p.value.destId].None? then back - {p.value.destId}
      else back
  }

  function ApplyMove(msg: Message, fromId: Option<FolderId>, destId: FolderId): (Message, MovePayload) {
    var (mapped, p) := MoveMappings(msg.mapped, fromId, destId);
    (msg.(mapped := mapped), p)
  }

  function RevertMove(msg: Message, p: Option<MovePayload>): Message {
    msg.(mapped := RestoreMappings(msg.mapped, p))
  }

  // ---- flags ----

  function ApplyFlags(msg: Message, values: FlagSet): (Message, FlagsPayload) {
    (msg.(flags := msg.flags.With(values)), FlagsPayload(values, map f | f in values :: msg.flags.Get(f)))
  }

  /** What `purged` stands for elsewhere: a purged shell is always tombstoned too. */
  predicate Coherent(msg: Message) {
    msg.purged ==> msg.deleted
  }

  /** A delete taken back restores the message exactly, whatever its tombstone was before. */
  lemma {:induction false} DeleteRoundTrip(msg: Message)
    ensures var (gone, p) := ApplyDelete(msg);
            gone.deleted && RevertDelete(gone, Some(p)) == msg
  {
    var (gone, p) := ApplyDelete(msg);
    assert RevertDelete(gone, Some(p)).deleted == msg.deleted;
  }

  /**
   * A move taken back restores every mapping with its UID exactly when it found nothing to move or
   * named two different folders: a move onto its own folder turns the real mapping into a
   * placeholder, which the inverse then removes.
   */
  lemma {:induction false} MoveRoundTripExact(msg: Message, fromId: Option<FolderId>, destId: FolderId)
    ensures var (moved, p) := ApplyMove(msg, fromId, destId);
            RevertMove(moved, Some(p)) == msg <==>
            fromId.None? || fromId.value !in msg.mapped || fromId.value != destId
  {
    if fromId.Some? && fromId.value in msg.mapped {
      var (moved, p) := ApplyMove(msg, fromId, destId);
      var back := RevertMove(moved, Some(p));
      var src := fromId.value;
      if src == destId {
        assert destId !in back.mapped;
      } else {
        assert back.mapped == msg.mapped;
      }
    }
  }

  /** After a move nothing is mapped to the source, and every other mapping keeps its UID. */
  lemma {:induction false} MoveEffect(msg: Message, src: FolderId, destId: FolderId)
    requires src in msg.mapped && src != destId
    ensures var (moved, p) := ApplyMove(msg, Some(src), destId);
            && moved.mapped.Keys == msg.mapped.Keys - {src} + {destId}
            && (forall k :: k in msg.mapped && k != src ==> moved.mapped[k] == msg.mapped[k])
            && (destId !in msg.mapped ==> moved.mapped[destId].None?)
            && moved.flags == msg.flags && moved.deleted == msg.deleted
  {
  }

  /**
   * What taking a move back does, whatever happened to the mappings since: the source is mapped again, with the
   * UID it had unless it has been mapped anew; the destination goes exactly if the move had added it and it still
   * has no UID; every other mapping stays. A move that found nothing to take, or left no record, is taken back by
   * doing nothing; a delete without record is taken back by lifting the tombstone.
   */
  lemma {:induction false} RevertMoveEffect(msg: Message, from: Mapping, destId: FolderId, added: bool, f: FolderId)
    ensures var back := RevertMove(msg, Some(MovePayload(Some(from), destId, added))).mapped;
            var gone := added && destId in msg.mapped && msg.mapped[destId].None?;
            && (f != from.folderId && !(gone && f == destId) ==> (f in back <==> f in msg.mapped) && (f in back ==> back[f] == msg.mapped[f]))
            && (gone && from.folderId != destId ==> destId !in back)
            && (from.folderId != destId ==>
                  from.folderId in back && back[from.folderId] == if from.folderId in msg.mapped then msg.mapped[from.folderId] else from.uid)
    ensures RevertMove(msg, Some(MovePayload(None, destId, added))) == msg == RevertMove(msg, None)
    ensures RevertDelete(msg, None) == msg.(deleted := false)
    ensures var r := RevertMove(msg, Some(MovePayload(Some(from), destId, added))); r == msg.(mapped := r.mapped)
  {
  }

  /**
   * Taking a delete back keeps "purged implies tombstoned" exactly when the message was tombstoned
   * before the delete or has not been purged since: the inverse does not look at `purged`.
   */
  lemma {:induction false} RevertDeleteCoherentExact(msg: Message, p: Option<DeletePayload>)
    requires Coherent(msg)
    ensures Coherent(RevertDelete(msg, p)) <==> (p.Some? && p.value.wasDeleted) || !msg.purged
  {
    assert RevertDelete(msg, p).purged == msg.purged;
  }

  /** Intents of different kinds on one message commute: same message, same recorded payloads. */
  lemma {:induction false} DifferentKindsCommute(msg: Message, fromId: Option<FolderId>, destId: FolderId, values: FlagSet)
    ensures var (d, dp) := ApplyDelete(msg); var (mv, mp) := ApplyMove(msg, fromId, destId);
            var (fl, fp) := ApplyFlags(msg, values);
            && ApplyMove(d, fromId, destId) == (ApplyDelete(mv).0, mp)
            && ApplyDelete(mv) == (ApplyMove(d, fromId, destId).0, dp)
            && ApplyFlags(d, values) == (ApplyDelete(fl).0, fp)
            && ApplyDelete(fl) == (ApplyFlags(d, values).0, dp)
            && ApplyFlags(mv, values) == (ApplyMove(fl, fromId, destId).0, fp)
            && ApplyMove(fl, fromId, destId) == (ApplyFlags(mv, values).0, mp)
  {
  }

  /** So do their inverses, and an inverse with an intent of another kind made since. */
  lemma {:induction false} InversesCommute(msg: Message, dp: Option<DeletePayload>, mp: Option<MovePayload>, values: FlagSet)
    ensures RevertMove(RevertDelete(msg, dp), mp) == RevertDelete(RevertMove(msg, mp), dp)
    ensures RevertDelete(ApplyFlags(msg, values).0, dp) == ApplyFlags(RevertDelete(msg, dp), values).0
    ensures RevertMove(ApplyFlags(msg, values).0, mp) == ApplyFlags(RevertMove(msg, mp), values).0
    ensures RevertMove(ApplyDelete(msg).0, mp) == ApplyDelete(RevertMove(msg, mp)).0
  {
  }
}
