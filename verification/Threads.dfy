/**
 * Derived threads are connected components: whatever order replies and their parents arrive in, two
 * stored messages share a thread exactly when a chain of replies among stored messages links them.
 */
module Threads {
  import opened Wrappers
  import opened MailModel
  import Graph

  /** Mail outside Gmail whose ids are not empty strings. Its References may name anything. */
  predicate Plain(p: Parsed) {
    && p.gmMsgId.None? && p.providerThreadId.None?
    && p.messageId != Some("") && p.inReplyTo != Some("")
  }

  /** References names at most the In-Reply-To parent. */
  predicate ParentOnly(p: Parsed) {
    Plain(p) && forall r :: r in p.references ==> r == "" || p.inReplyTo == Some(r)
  }

  function ArriveAll(ps: seq<Parsed>): seq<Message> {
    if ps == [] then [] else Arrive(ArriveAll(ps[..|ps| - 1]), ps[|ps| - 1])
  }

  predicate RepliesTo(a: Message, b: Message) {
    a.inReplyTo.Some? && a.inReplyTo == b.messageId
  }

  ghost function ReplyEdges(ms: seq<Message>): Graph.Edges {
    set i: nat, j: nat | i < |ms| && j < |ms| && RepliesTo(ms[i], ms[j]) :: (i, j)
  }

  /** The row a thread is named after, which is always in it. */
  predicate Founded(ms: seq<Message>, t: ThreadId) {
    exists i :: 0 <= i < |ms| && ms[i].thread == t && t == OwnThread(ms[i].messageId, i)
  }

  ghost predicate Components(ms: seq<Message>) {
    forall i, j :: 0 <= i < |ms| && 0 <= j < |ms| ==> (ms[i].thread == ms[j].thread <==> Graph.Connected(ReplyEdges(ms), i, j))
  }

  ghost predicate DistinctIds(ms: seq<Message>) {
    forall i, j :: 0 <= i < j < |ms| && ms[i].messageId.Some? ==> ms[i].messageId != ms[j].messageId
  }

  predicate PlainRow(m: Message) {
    m.gmMsgId.None? && m.messageId != Some("") && m.inReplyTo != Some("") && TruthyThread(m.thread)
  }

  /** What plain mail leaves, whatever its References name. */
  ghost predicate Rows(ms: seq<Message>) {
    && DistinctIds(ms)
    && (forall i :: 0 <= i < |ms| ==> PlainRow(ms[i]))
    && (forall i :: 0 <= i < |ms| ==> Founded(ms, ms[i].thread))
  }

  ghost predicate ThreadInv(ms: seq<Message>) {
    Rows(ms) && Components(ms)
  }

  /** The rows after a new message was stored in some thread and the threads of its replies merged into that one. */
  ghost predicate Stored(ms: seq<Message>, after: seq<Message>, p: Parsed) {
    var n := |ms|;
    && |after| == n + 1
    && after[n].messageId == p.messageId && after[n].inReplyTo == p.inReplyTo && after[n].gmMsgId.None?
    && (forall k :: 0 <= k < n ==> after[k] == ms[k].(thread := after[k].thread))
    && (forall k :: 0 <= k < n ==> after[k].thread == if Merges(ms, p.messageId, after[n].thread, ms[k].thread) then after[n].thread else ms[k].thread)
  }

  /** The message is stored in its parent's thread, or founds its own. */
  ghost predicate Arrived(ms: seq<Message>, after: seq<Message>, p: Parsed) {
    var n := |ms|;
    && Stored(ms, after, p)
    && (forall k :: 0 <= k < n && RepliesTo(after[n], ms[k]) ==> after[n].thread == ms[k].thread)
    && ((forall k :: 0 <= k < n ==> !RepliesTo(after[n], ms[k])) ==> after[n].thread == OwnThread(p.messageId, n))
  }

  function OwnThread(mid: Option<string>, n: nat): ThreadId {
    if mid.Some? then Named(mid.value) else Random(n)
  }

  /** Thread `t` holds a direct reply to the arriving message. */
  ghost predicate Merges(ms: seq<Message>, mid: Option<string>, own: ThreadId, t: ThreadId) {
    mid.Some? && t != own && exists k :: 0 <= k < |ms| && ms[k].inReplyTo == mid && ms[k].thread == t
  }

  /** A new message joins its stored parent's thread, or founds its own. */
  lemma {:induction false} NewThread(ms: seq<Message>, p: Parsed)
    requires Rows(ms) && ParentOnly(p)
    ensures var m := NewMessage(ms, p);
            && PlainRow(m)
            && (forall k :: 0 <= k < |ms| && RepliesTo(m, ms[k]) ==> m.thread == ms[k].thread)
            && ((forall k :: 0 <= k < |ms| ==> !RepliesTo(m, ms[k])) ==> m.thread == OwnThread(p.messageId, |ms|))
  {
    var m := NewMessage(ms, p);
    forall k | 0 <= k < |ms| ensures IsAncestor(p, ms[k].messageId) <==> RepliesTo(m, ms[k]) {
      assert PlainRow(ms[k]);
    }
    var parent := FirstAncestor(ms, p, 0);
    if parent.Some? {
      assert PlainRow(ms[parent.value]) && RepliesTo(m, ms[parent.value]);
    }
  }

  /** Which rows the merge moves into the new message's thread. */
  lemma {:induction false} MergeSpec(ms: seq<Message>, m: Message)
    requires PlainRow(m) && forall i :: 0 <= i < |ms| ==> PlainRow(ms[i])
    ensures var after := MergeOrphans(ms + [m], |ms|);
            && after[|ms|] == m
            && forall k :: 0 <= k < |ms| ==>
                 after[k] == ms[k].(thread := if Merges(ms, m.messageId, m.thread, ms[k].thread) then m.thread else ms[k].thread)
  {
    var n, one := |ms|, ms + [m];
    if m.messageId.Some? {
      var stale := StaleThreads(one, m.messageId, m.thread);
      forall k | 0 <= k < n ensures ms[k].thread in stale <==> Merges(ms, m.messageId, m.thread, ms[k].thread) {
        if ms[k].thread in stale {
          var j :| 0 <= j < n + 1 && one[j].inReplyTo == m.messageId && one[j].thread != m.thread && one[j].thread == ms[k].thread;
          assert ms[j].inReplyTo == m.messageId;
        }
        if Merges(ms, m.messageId, m.thread, ms[k].thread) {
          var j :| 0 <= j < n && ms[j].inReplyTo == m.messageId && ms[j].thread == ms[k].thread;
          assert one[j] == ms[j] && PlainRow(ms[j]);
        }
      }
    }
  }

  lemma {:induction false} ArriveSpec(ms: seq<Message>, p: Parsed)
    requires Rows(ms) && ParentOnly(p) && FindExisting(ms, p.gmMsgId, p.messageId).None?
    ensures Arrived(ms, Arrive(ms, p), p)
    ensures p.messageId.Some? ==> forall k :: 0 <= k < |ms| ==> ms[k].messageId != p.messageId
    ensures forall k :: 0 <= k <= |ms| ==> PlainRow(Arrive(ms, p)[k])
  {
    NewThread(ms, p);
    MergeSpec(ms, NewMessage(ms, p));
    forall k | 0 <= k < |ms| ensures PlainRow(Arrive(ms, p)[k]) {
      assert PlainRow(ms[k]);
    }
  }

  /** No stored message is in the thread a message founds before it arrives. */
  lemma {:induction false} OwnThreadIsNew(ms: seq<Message>, mid: Option<string>, k: nat)
    requires Rows(ms) && k < |ms|
    requires mid.Some? ==> forall i :: 0 <= i < |ms| ==> ms[i].messageId != mid
    ensures ms[k].thread != OwnThread(mid, |ms|)
  {
    assert Founded(ms, ms[k].thread);
  }

  /** The founder of a surviving thread stays in it, and a thread that merges away leaves no member. */
  lemma {:induction false} StoredFounded(ms: seq<Message>, after: seq<Message>, p: Parsed, k: nat)
    requires Rows(ms) && Stored(ms, after, p) && k < |after|
    requires after[|ms|].thread == OwnThread(p.messageId, |ms|) || exists i :: 0 <= i < |ms| && ms[i].thread == after[|ms|].thread
    requires p.messageId.Some? ==> forall i :: 0 <= i < |ms| ==> ms[i].messageId != p.messageId
    ensures Founded(after, after[k].thread)
  {
    var n := |ms|;
    var t := after[k].thread;
    if exists i :: 0 <= i < n && ms[i].thread == t {
      var i :| 0 <= i < n && ms[i].thread == t;
      assert Founded(ms, ms[i].thread);
      var f :| 0 <= f < n && ms[f].thread == t && t == OwnThread(ms[f].messageId, f);
      assert after[f].thread == t;
    } else {
      assert t == after[n].thread == OwnThread(p.messageId, n);
    }
  }

  /** Sharing a thread after the arrival means being connected. */
  lemma {:induction false} SharedConnected(ms: seq<Message>, after: seq<Message>, p: Parsed, k: nat)
    requires ThreadInv(ms) && Arrived(ms, after, p) && k < |ms| && after[k].thread == after[|ms|].thread
    requires p.messageId.Some? ==> forall i :: 0 <= i < |ms| ==> ms[i].messageId != p.messageId
    ensures Graph.Connected(ReplyEdges(after), k, |ms|)
  {
    var n := |ms|;
    var own := after[n].thread;
    var es := ReplyEdges(after);
    assert ReplyEdges(ms) <= es by {
      forall i: nat, j: nat | i < n && j < n && RepliesTo(ms[i], ms[j]) ensures RepliesTo(after[i], after[j]) {
        assert after[i] == ms[i].(thread := after[i].thread) && after[j] == ms[j].(thread := after[j].thread);
      }
    }
    if Merges(ms, p.messageId, own, ms[k].thread) {
      var o :| 0 <= o < n && ms[o].inReplyTo == p.messageId && ms[o].thread == ms[k].thread;
      Graph.Monotone(ReplyEdges(ms), es, k, o);
      assert after[o] == ms[o].(thread := after[o].thread);
      assert RepliesTo(after[o], after[n]) && Graph.Linked(es, o, n);
      Graph.LinkConnects(es, o, n);
      Graph.Transitive(es, k, o, n);
    } else {
      if forall i :: 0 <= i < n ==> !RepliesTo(after[n], ms[i]) {
        OwnThreadIsNew(ms, p.messageId, k);
        assert false;
      } else {
        var i :| 0 <= i < n && RepliesTo(after[n], ms[i]);
        Graph.Monotone(ReplyEdges(ms), es, k, i);
        assert after[i] == ms[i].(thread := after[i].thread);
        assert RepliesTo(after[n], after[i]) && Graph.Linked(es, i, n);
        Graph.LinkConnects(es, i, n);
        Graph.Transitive(es, k, i, n);
      }
    }
  }

  /** Every reply edge after the arrival stays inside one thread. */
  lemma {:induction false} EdgeShares(ms: seq<Message>, after: seq<Message>, p: Parsed, a: nat, b: nat)
    requires ThreadInv(ms) && Arrived(ms, after, p) && a < |after| && b < |after| && RepliesTo(after[a], after[b])
    ensures after[a].thread == after[b].thread
  {
    var n := |ms|;
    if a < n && b < n {
      assert after[a] == ms[a].(thread := after[a].thread) && after[b] == ms[b].(thread := after[b].thread);
      assert RepliesTo(ms[a], ms[b]) && Graph.Linked(ReplyEdges(ms), a, b);
      Graph.LinkConnects(ReplyEdges(ms), a, b);
    } else if a < n {
      assert after[a] == ms[a].(thread := after[a].thread);
      assert ms[a].inReplyTo == p.messageId;
    } else if b < n {
      assert after[b] == ms[b].(thread := after[b].thread);
      assert RepliesTo(after[n], ms[b]);
    }
  }

  lemma {:induction false} ArrivedComponents(ms: seq<Message>, after: seq<Message>, p: Parsed)
    requires ThreadInv(ms) && Arrived(ms, after, p)
    requires p.messageId.Some? ==> forall i :: 0 <= i < |ms| ==> ms[i].messageId != p.messageId
    ensures Components(after)
  {
    var n := |ms|;
    var es := ReplyEdges(after);
    var tag := map k: nat | k < |after| :: after[k].thread;
    forall i: nat, j: nat | i < |after| && j < |after|
      ensures after[i].thread == after[j].thread <==> Graph.Connected(es, i, j)
    {
      if Graph.Connected(es, i, j) {
        forall a: nat, b: nat | Graph.Linked(es, a, b) && a in tag ensures b in tag && tag[a] == tag[b] {
          if (a, b) in es { EdgeShares(ms, after, p, a, b); } else { EdgeShares(ms, after, p, b, a); }
        }
        Graph.LabelsAgree(es, tag, i, j);
      }
      if after[i].thread == after[j].thread {
        SharedPairConnected(ms, after, p, i, j);
      }
    }
  }

  lemma {:induction false} SharedPairConnected(ms: seq<Message>, after: seq<Message>, p: Parsed, i: nat, j: nat)
    requires ThreadInv(ms) && Arrived(ms, after, p) && i < |after| && j < |after| && after[i].thread == after[j].thread
    requires p.messageId.Some? ==> forall k :: 0 <= k < |ms| ==> ms[k].messageId != p.messageId
    ensures Graph.Connected(ReplyEdges(after), i, j)
  {
    var n := |ms|;
    var es := ReplyEdges(after);
    if after[i].thread == after[n].thread {
      Graph.Reflexive(es, n);
      if i < n { SharedConnected(ms, after, p, i); }
      if j < n { SharedConnected(ms, after, p, j); Graph.Symmetric(es, j, n); }
      Graph.Transitive(es, i, n, j);
    } else {
      assert ms[i].thread == ms[j].thread;
      forall a: nat, b: nat | (a, b) in ReplyEdges(ms) ensures (a, b) in es {
        assert after[a] == ms[a].(thread := after[a].thread) && after[b] == ms[b].(thread := after[b].thread);
      }
      Graph.Monotone(ReplyEdges(ms), es, i, j);
    }
  }

  lemma {:induction false} StoredDistinct(ms: seq<Message>, after: seq<Message>, p: Parsed)
    requires DistinctIds(ms) && Stored(ms, after, p)
    requires p.messageId.Some? ==> forall k :: 0 <= k < |ms| ==> ms[k].messageId != p.messageId
    ensures DistinctIds(after)
  {
    forall i, j | 0 <= i < j < |after| && after[i].messageId.Some? ensures after[i].messageId != after[j].messageId {
      assert after[i] == ms[i].(thread := after[i].thread);
      if j < |ms| { assert after[j] == ms[j].(thread := after[j].thread); }
    }
  }

  /** Where a new plain message is stored: in the thread of the first row its headers name, or its own. */
  lemma {:induction false} StoredWhere(ms: seq<Message>, p: Parsed)
    requires Rows(ms) && Plain(p) && FindExisting(ms, p.gmMsgId, p.messageId).None?
    ensures var after, first := Arrive(ms, p), FirstAncestor(ms, p, 0);
            && Stored(ms, after, p)
            && after[|ms|].thread == (if first.Some? then ms[first.value].thread else OwnThread(p.messageId, |ms|))
            && (forall k :: 0 <= k <= |ms| ==> PlainRow(after[k]))
    ensures p.messageId.Some? ==> forall k :: 0 <= k < |ms| ==> ms[k].messageId != p.messageId
  {
    var first := FirstAncestor(ms, p, 0);
    if first.Some? { assert PlainRow(ms[first.value]); }
    MergeSpec(ms, NewMessage(ms, p));
    forall k | 0 <= k < |ms| ensures PlainRow(Arrive(ms, p)[k]) {
      assert PlainRow(ms[k]);
      if first.Some? { assert PlainRow(ms[first.value]); }
    }
  }

  /** Any plain arrival keeps ids distinct and threads founded. */
  lemma {:induction false} ArriveKeepsRows(ms: seq<Message>, p: Parsed)
    requires Rows(ms) && Plain(p)
    ensures Rows(Arrive(ms, p))
  {
    if FindExisting(ms, p.gmMsgId, p.messageId).None? {
      var after := Arrive(ms, p);
      StoredWhere(ms, p);
      forall k | 0 <= k < |after| ensures Founded(after, after[k].thread) {
        StoredFounded(ms, after, p, k);
      }
      StoredDistinct(ms, after, p);
    }
  }

  // ---- exactly when an arrival keeps threads and components the same ----

  /** Thread `t` holds a stored reply to the message. */
  ghost predicate HoldsReply(ms: seq<Message>, mid: Option<string>, t: ThreadId) {
    mid.Some? && exists k :: 0 <= k < |ms| && ms[k].inReplyTo == mid && ms[k].thread == t
  }

  /**
   * Which arrivals put a message where its replies put it: no stored row is named as an ancestor; or the
   * first row that is shares its thread with the stored parent, up to the threads of the message's own
   * stored replies, which are merged anyway; or, with no parent stored, it is among those threads.
   */
  ghost predicate FitsReplies(ms: seq<Message>, p: Parsed) {
    var first := FirstAncestor(ms, p, 0);
    first.None? ||
    (var t := ms[first.value].thread;
     if HasParent(ms, p) then
       forall k :: ParentRow(ms, p, k) ==>
         t == ms[k].thread || (HoldsReply(ms, p.messageId, t) && HoldsReply(ms, p.messageId, ms[k].thread))
     else HoldsReply(ms, p.messageId, t))
  }

  ghost predicate HasParent(ms: seq<Message>, p: Parsed) {
    exists k :: ParentRow(ms, p, k)
  }

  predicate ParentRow(ms: seq<Message>, p: Parsed, k: int) {
    0 <= k < |ms| && p.inReplyTo.Some? && ms[k].messageId == p.inReplyTo
  }

  /** The rows in the arriving message's thread afterwards: those of its thread, and of its replies' threads. */
  lemma {:induction false} SharesWithNew(ms: seq<Message>, after: seq<Message>, p: Parsed, k: nat)
    requires Stored(ms, after, p) && k < |ms|
    ensures after[k].thread == after[|ms|].thread <==> ms[k].thread == after[|ms|].thread || HoldsReply(ms, p.messageId, ms[k].thread)
  {
  }

  lemma {:induction false} SharesElsewhere(ms: seq<Message>, after: seq<Message>, p: Parsed, i: nat, j: nat)
    requires Stored(ms, after, p) && i < |ms| && j < |ms|
    requires after[i].thread != after[|ms|].thread && after[j].thread != after[|ms|].thread
    ensures after[i].thread == after[j].thread <==> ms[i].thread == ms[j].thread
  {
  }

  ghost predicate SamePartition(a: seq<Message>, b: seq<Message>) {
    |a| == |b| && forall i, j :: 0 <= i < |a| && 0 <= j < |a| ==> (a[i].thread == a[j].thread <==> b[i].thread == b[j].thread)
  }

  /** Two placements of the same message give the same threads exactly if the same rows end up with it. */
  lemma {:induction false} SamePlacement(ms: seq<Message>, a: seq<Message>, b: seq<Message>, p: Parsed, q: Parsed)
    requires Stored(ms, a, p) && Stored(ms, b, q) && p.messageId == q.messageId
    ensures SamePartition(a, b) <==> forall k :: 0 <= k < |ms| ==> (a[k].thread == a[|ms|].thread <==> b[k].thread == b[|ms|].thread)
  {
    var n := |ms|;
    if forall k :: 0 <= k < n ==> (a[k].thread == a[n].thread <==> b[k].thread == b[n].thread) {
      forall i, j | 0 <= i <= n && 0 <= j <= n ensures a[i].thread == a[j].thread <==> b[i].thread == b[j].thread {
        if i < n && j < n && a[i].thread != a[n].thread && a[j].thread != a[n].thread {
          SharesElsewhere(ms, a, p, i, j);
          SharesElsewhere(ms, b, q, i, j);
        }
      }
    }
  }

  /** The arrival, had its References been empty: it is what the replies alone ask for. */
  lemma {:induction false} WithoutReferences(ms: seq<Message>, p: Parsed)
    requires ThreadInv(ms) && Plain(p) && FindExisting(ms, p.gmMsgId, p.messageId).None?
    ensures var q := p.(references := []);
            && |Arrive(ms, q)| == |Arrive(ms, p)| && Arrived(ms, Arrive(ms, q), q) && Components(Arrive(ms, q))
            && ReplyEdges(Arrive(ms, q)) == ReplyEdges(Arrive(ms, p))
  {
    hide Arrive, Stored, ReplyEdges, Rows, Components, FindExisting;
    var q := p.(references := []);
    ArriveSpec(ms, q);
    ArrivedComponents(ms, Arrive(ms, q), q);
    StoredWhere(ms, p);
    SameEdges(ms, Arrive(ms, p), Arrive(ms, q), p, q);
  }

  lemma {:induction false} SameEdges(ms: seq<Message>, a: seq<Message>, b: seq<Message>, p: Parsed, q: Parsed)
    requires Stored(ms, a, p) && Stored(ms, b, q) && p.messageId == q.messageId && p.inReplyTo == q.inReplyTo
    ensures |a| == |b| && ReplyEdges(a) == ReplyEdges(b)
  {
    forall k | 0 <= k < |a| ensures a[k].messageId == b[k].messageId && a[k].inReplyTo == b[k].inReplyTo {
      if k < |ms| { assert a[k] == ms[k].(thread := a[k].thread) && b[k] == ms[k].(thread := b[k].thread); }
    }
  }

  /** Where that arrival is stored. */
  lemma {:induction false} WithoutReferencesThread(ms: seq<Message>, b: seq<Message>, q: Parsed)
    requires Rows(ms) && Arrived(ms, b, q)
    ensures forall k :: ParentRow(ms, q, k) ==> b[|ms|].thread == ms[k].thread
    ensures !HasParent(ms, q) ==> b[|ms|].thread == OwnThread(q.messageId, |ms|)
  {
    forall k | 0 <= k < |ms| ensures RepliesTo(b[|ms|], ms[k]) <==> ParentRow(ms, q, k) {
    }
  }

  ghost predicate InCompany(ms: seq<Message>, mid: Option<string>, own: ThreadId, t: ThreadId) {
    t == own || HoldsReply(ms, mid, t)
  }

  /** Two threads of stored rows draw the same rows together exactly if they are one, or both hold replies. */
  lemma {:induction false} SameDraw(ms: seq<Message>, mid: Option<string>, i: nat, j: nat)
    requires i < |ms| && j < |ms|
    ensures (forall k :: 0 <= k < |ms| ==> (InCompany(ms, mid, ms[i].thread, ms[k].thread) <==> InCompany(ms, mid, ms[j].thread, ms[k].thread)))
            <==> ms[i].thread == ms[j].thread || (HoldsReply(ms, mid, ms[i].thread) && HoldsReply(ms, mid, ms[j].thread))
  {
    hide HoldsReply;
    assert InCompany(ms, mid, ms[i].thread, ms[i].thread) && InCompany(ms, mid, ms[j].thread, ms[j].thread);
    assert InCompany(ms, mid, ms[i].thread, ms[j].thread) <==> ms[i].thread == ms[j].thread || HoldsReply(ms, mid, ms[j].thread);
    assert InCompany(ms, mid, ms[j].thread, ms[i].thread) <==> ms[i].thread == ms[j].thread || HoldsReply(ms, mid, ms[i].thread);
  }

  /** A thread of a stored row draws no more than a new one exactly if it holds replies. */
  lemma {:induction false} NoMoreDraw(ms: seq<Message>, mid: Option<string>, i: nat, own: ThreadId)
    requires i < |ms| && forall k :: 0 <= k < |ms| ==> ms[k].thread != own
    ensures (forall k :: 0 <= k < |ms| ==> (InCompany(ms, mid, ms[i].thread, ms[k].thread) <==> InCompany(ms, mid, own, ms[k].thread)))
            <==> HoldsReply(ms, mid, ms[i].thread)
  {
    hide HoldsReply;
    assert InCompany(ms, mid, ms[i].thread, ms[i].thread);
    assert InCompany(ms, mid, own, ms[i].thread) <==> HoldsReply(ms, mid, ms[i].thread);
  }

  /** The rows that end up with the message are those that should, exactly if it fits its replies. */
  lemma {:induction false} SameCompany(ms: seq<Message>, a: seq<Message>, b: seq<Message>, p: Parsed)
    requires Rows(ms) && Plain(p) && FindExisting(ms, p.gmMsgId, p.messageId).None? && a == Arrive(ms, p)
    requires Arrived(ms, b, p.(references := []))
    ensures (forall k :: 0 <= k < |ms| ==> (a[k].thread == a[|ms|].thread <==> b[k].thread == b[|ms|].thread)) <==> FitsReplies(ms, p)
  {
    var n, q, mid, first := |ms|, p.(references := []), p.messageId, FirstAncestor(ms, p, 0);
    StoredWhere(ms, p);
    WithoutReferencesThread(ms, b, q);
    forall k | 0 <= k < n
      ensures a[k].thread == a[n].thread <==> InCompany(ms, mid, a[n].thread, ms[k].thread)
      ensures b[k].thread == b[n].thread <==> InCompany(ms, mid, b[n].thread, ms[k].thread)
      ensures ms[k].thread != OwnThread(mid, n)
      ensures ParentRow(ms, p, k) <==> ParentRow(ms, q, k)
      ensures ParentRow(ms, p, k) ==> IsAncestor(p, ms[k].messageId)
    {
      assert PlainRow(ms[k]);
      SharesWithNew(ms, a, p, k);
      SharesWithNew(ms, b, q, k);
      OwnThreadIsNew(ms, mid, k);
    }
    OneParentThread(ms, p);
    hide Stored, HoldsReply, IsAncestor, Rows, FirstAncestor, InCompany, FindExisting, Arrive;
    if HasParent(ms, p) {
      var k :| ParentRow(ms, p, k);
      assert ParentRow(ms, q, k);
      assert first.Some?;
      SameDraw(ms, mid, first.value, k);
    } else {
      assert !HasParent(ms, q);
      if first.Some? { NoMoreDraw(ms, mid, first.value, OwnThread(mid, n)); }
    }
  }

  lemma {:induction false} OneParentThread(ms: seq<Message>, p: Parsed)
    requires Rows(ms)
    ensures forall j, k :: ParentRow(ms, p, j) && ParentRow(ms, p, k) ==> j == k
  {
  }

  /**
   * A new message with any References header leaves threads and components of the reply graph the same
   * exactly when it fits its replies, which can be read off the rows before it is stored.
   */
  lemma {:induction false} ArrivalExact(ms: seq<Message>, p: Parsed)
    requires ThreadInv(ms) && Plain(p) && FindExisting(ms, p.gmMsgId, p.messageId).None?
    ensures Components(Arrive(ms, p)) <==> FitsReplies(ms, p)
  {
    hide FitsReplies, Stored, Rows, Arrive, ReplyEdges, Components, SamePartition, FindExisting;
    var q := p.(references := []);
    var a, b := Arrive(ms, p), Arrive(ms, q);
    assert ThreadInv(ms) ==> Rows(ms);
    WithoutReferences(ms, p);
    StoredWhere(ms, p);
    SamePlacement(ms, a, b, p, q);
    SameCompany(ms, a, b, p);
    SamePartitionComponents(a, b);
  }

  lemma {:induction false} SamePartitionComponents(a: seq<Message>, b: seq<Message>)
    requires |a| == |b| && ReplyEdges(a) == ReplyEdges(b) && Components(b)
    ensures Components(a) <==> SamePartition(a, b)
  {
    hide ReplyEdges, Graph.Connected;
  }

  /** Stored already, or fitting its replies. */
  ghost predicate Fits(ms: seq<Message>, p: Parsed) {
    FindExisting(ms, p.gmMsgId, p.messageId).Some? || FitsReplies(ms, p)
  }

  /** After every arrival threads and components are the same. */
  ghost predicate AlwaysComponents(ps: seq<Parsed>) {
    forall k :: 0 <= k <= |ps| ==> Components(ArriveAll(ps[..k]))
  }

  ghost predicate AllFit(ps: seq<Parsed>) {
    forall k :: 0 <= k < |ps| ==> Fits(ArriveAll(ps[..k]), ps[k])
  }

  lemma {:induction false} RowsAfter(ps: seq<Parsed>)
    requires forall k :: 0 <= k < |ps| ==> Plain(ps[k])
    ensures Rows(ArriveAll(ps))
  {
    if ps != [] {
      RowsAfter(ps[..|ps| - 1]);
      ArriveKeepsRows(ArriveAll(ps[..|ps| - 1]), ps[|ps| - 1]);
    }
  }

  /**
   * Threads are exactly the connected components of the reply graph after every arrival, in any order and
   * with any References headers, if and only if every arrival fits its replies.
   */
  lemma {:induction false} ThreadsAreComponents(ps: seq<Parsed>)
    requires forall k :: 0 <= k < |ps| ==> Plain(ps[k])
    ensures AlwaysComponents(ps) <==> AllFit(ps)
  {
    if ps != [] {
      var n := |ps| - 1;
      var front := ps[..n];
      ThreadsAreComponents(front);
      RowsAfter(front);
      OneMore(ps);
      var ms := ArriveAll(front);
      assert AlwaysComponents(front) ==> Components(ms) by { assert front[..n] == front; }
      if Components(ms) && FindExisting(ms, ps[n].gmMsgId, ps[n].messageId).None? {
        ArrivalExact(ms, ps[n]);
      }
    }
  }

  lemma {:induction false} OneMore(ps: seq<Parsed>)
    requires ps != []
    ensures var n := |ps| - 1; var front := ps[..n];
            && (AlwaysComponents(ps) <==> AlwaysComponents(front) && Components(Arrive(ArriveAll(front), ps[n])))
            && (AllFit(ps) <==> AllFit(front) && Fits(ArriveAll(front), ps[n]))
  {
    hide Components, Fits, Arrive;
    var n := |ps| - 1;
    var front := ps[..n];
    assert forall k :: 0 <= k <= n ==> front[..k] == ps[..k];
    assert ps[..n + 1] == ps;
    assert ArriveAll(ps) == Arrive(ArriveAll(front), ps[n]);
  }

  /** Mail that names at most its parent always fits. */
  lemma {:induction false} ParentOnlyFits(ps: seq<Parsed>)
    requires forall k :: 0 <= k < |ps| ==> ParentOnly(ps[k])
    ensures AllFit(ps)
  {
    forall k | 0 <= k < |ps| ensures Fits(ArriveAll(ps[..k]), ps[k]) {
      RowsAfter(ps[..k]);
      OneParent(ArriveAll(ps[..k]), ps[k]);
    }
  }

  lemma {:induction false} OneParent(ms: seq<Message>, p: Parsed)
    requires Rows(ms) && ParentOnly(p)
    ensures FitsReplies(ms, p)
  {
    var first := FirstAncestor(ms, p, 0);
    if first.Some? {
      assert PlainRow(ms[first.value]) && ParentRow(ms, p, first.value);
      forall k | ParentRow(ms, p, k) ensures k == first.value {
        assert ms[k].messageId == ms[first.value].messageId;
      }
    }
  }

  // ---- the partition does not depend on the order of arrival ----

  ghost predicate DistinctArrivals(ps: seq<Parsed>) {
    forall i, j :: 0 <= i < j < |ps| && ps[i].messageId.Some? ==> ps[i].messageId != ps[j].messageId
  }

  /** The rows of `ps` hold its messages. */
  ghost predicate Holds(ms: seq<Message>, ps: seq<Parsed>) {
    |ms| == |ps| && forall k :: 0 <= k < |ps| ==> ms[k].messageId == ps[k].messageId && ms[k].inReplyTo == ps[k].inReplyTo
  }

  /** With no Message-ID arriving twice, every arrival gets its own row, in order. */
  lemma {:induction false} AllStored(ps: seq<Parsed>)
    requires forall k :: 0 <= k < |ps| ==> Plain(ps[k])
    requires DistinctArrivals(ps)
    ensures Holds(ArriveAll(ps), ps)
  {
    hide Arrive, Rows;
    if ps != [] {
      var n := |ps| - 1;
      var front := ps[..n];
      AllStored(front);
      RowsAfter(front);
      var ms := ArriveAll(front);
      assert forall k :: 0 <= k < n ==> front[k] == ps[k];
      assert forall k :: 0 <= k < n ==> ms[k].messageId == ps[k].messageId && ms[k].inReplyTo == ps[k].inReplyTo;
      StoredAnew(ms, ps[n]);
      assert ArriveAll(ps) == Arrive(ms, ps[n]);
    }
  }

  lemma {:induction false} StoredAnew(ms: seq<Message>, p: Parsed)
    requires Rows(ms) && Plain(p) && (p.messageId.Some? ==> forall k :: 0 <= k < |ms| ==> ms[k].messageId != p.messageId)
    ensures var after := Arrive(ms, p);
            && |after| == |ms| + 1 && after[|ms|].messageId == p.messageId && after[|ms|].inReplyTo == p.inReplyTo
            && forall k :: 0 <= k < |ms| ==> after[k].messageId == ms[k].messageId && after[k].inReplyTo == ms[k].inReplyTo
  {
    assert FindExisting(ms, p.gmMsgId, p.messageId).None?;
    StoredWhere(ms, p);
    var after := Arrive(ms, p);
    forall k | 0 <= k < |ms| ensures after[k].messageId == ms[k].messageId && after[k].inReplyTo == ms[k].inReplyTo {
      assert after[k] == ms[k].(thread := after[k].thread);
    }
  }

  /** The row that stores the same arrival in another order. */
  ghost predicate Twin(a: Message, b: Message) {
    a.messageId == b.messageId && a.inReplyTo == b.inReplyTo
  }

  /** A chain of replies among one set of rows is one among any rows that hold the same messages. */
  lemma {:induction false} PathMaps(ms: seq<Message>, ns: seq<Message>, path: seq<nat>, i: nat, j: nat, j': nat)
    requires forall k :: 0 <= k < |ms| ==> exists t :: 0 <= t < |ns| && Twin(ms[k], ns[t])
    requires i < |ns| && j' < |ns| && DistinctIds(ns)
    requires |path| > 0 && Graph.PathFrom(ReplyEdges(ms), path, path[0], j) && path[0] < |ms| && j < |ms|
    requires Twin(ms[path[0]], ns[i]) && ns[i].messageId.Some?
    requires Twin(ms[j], ns[j']) && ns[j'].messageId.Some?
    ensures Graph.Connected(ReplyEdges(ns), i, j')
    decreases |path|
  {
    var es := ReplyEdges(ns);
    if |path| == 1 {
      assert i == j';
      Graph.Reflexive(es, i);
    } else {
      var a, b := path[0], path[1];
      assert Graph.Linked(ReplyEdges(ms), a, b);
      var t :| 0 <= t < |ns| && Twin(ms[b], ns[t]);
      assert RepliesTo(ms[a], ms[b]) || RepliesTo(ms[b], ms[a]);
      assert Graph.Linked(es, i, t);
      Graph.LinkConnects(es, i, t);
      var rest := path[1..];
      forall k | 0 <= k < |rest| - 1 ensures Graph.Linked(ReplyEdges(ms), rest[k], rest[k + 1]) {
        assert rest[k] == path[k + 1] && rest[k + 1] == path[k + 2];
      }
      assert rest[|rest| - 1] == path[|path| - 1];
      if ns[t].messageId.Some? {
        PathMaps(ms, ns, rest, t, j, j');
      } else {
        LeafBounce(ms, ns, rest, t, j, j');
      }
      Graph.Transitive(es, i, t, j');
    }
  }

  /** A row without Message-ID has no replies, so the chain leaves it the way it came: to its parent. */
  lemma {:induction false} LeafBounce(ms: seq<Message>, ns: seq<Message>, path: seq<nat>, t: nat, j: nat, j': nat)
    requires forall k :: 0 <= k < |ms| ==> exists t :: 0 <= t < |ns| && Twin(ms[k], ns[t])
    requires t < |ns| && j' < |ns| && DistinctIds(ns)
    requires |path| > 0 && Graph.PathFrom(ReplyEdges(ms), path, path[0], j) && path[0] < |ms| && j < |ms|
    requires Twin(ms[path[0]], ns[t]) && ns[t].messageId.None?
    requires Twin(ms[j], ns[j']) && ns[j'].messageId.Some?
    ensures Graph.Connected(ReplyEdges(ns), t, j')
    decreases |path|
  {
    var es := ReplyEdges(ns);
    var a, b := path[0], path[1];
    assert Graph.Linked(ReplyEdges(ms), a, b);
    var u :| 0 <= u < |ns| && Twin(ms[b], ns[u]);
    assert RepliesTo(ms[a], ms[b]);
    assert Graph.Linked(es, t, u);
    Graph.LinkConnects(es, t, u);
    var rest := path[1..];
    forall k | 0 <= k < |rest| - 1 ensures Graph.Linked(ReplyEdges(ms), rest[k], rest[k + 1]) {
      assert rest[k] == path[k + 1] && rest[k + 1] == path[k + 2];
    }
    assert rest[|rest| - 1] == path[|path| - 1];
    PathMaps(ms, ns, rest, u, j, j');
    Graph.Transitive(es, t, u, j');
  }

  /**
   * Two mailboxes that received the same messages in different orders, each arrival fitting its replies,
   * agree on every pair: in one thread here exactly when in one thread there.
   */
  lemma {:induction false} OrderDoesNotMatter(ps: seq<Parsed>, qs: seq<Parsed>, i: nat, j: nat, i': nat, j': nat)
    requires forall k :: 0 <= k < |ps| ==> Plain(ps[k])
    requires forall k :: 0 <= k < |qs| ==> Plain(qs[k])
    requires AllFit(ps) && AllFit(qs)
    requires DistinctArrivals(ps) && DistinctArrivals(qs)
    requires forall p :: p in ps <==> p in qs
    requires i < |ps| && j < |ps| && i' < |qs| && j' < |qs|
    requires ps[i] == qs[i'] && ps[j] == qs[j'] && ps[i].messageId.Some? && ps[j].messageId.Some?
    ensures |ArriveAll(ps)| == |ps| && |ArriveAll(qs)| == |qs|
    ensures ArriveAll(ps)[i].thread == ArriveAll(ps)[j].thread <==> ArriveAll(qs)[i'].thread == ArriveAll(qs)[j'].thread
  {
    hide AllFit, ReplyEdges, Graph.Connected, Arrive;
    AllStored(ps);
    AllStored(qs);
    EndComponents(ps);
    EndComponents(qs);
    if Graph.Connected(ReplyEdges(ArriveAll(ps)), i, j) {
      ConnectedThere(ps, qs, i, j, i', j');
    }
    if Graph.Connected(ReplyEdges(ArriveAll(qs)), i', j') {
      ConnectedThere(qs, ps, i', j', i, j);
    }
  }

  lemma {:induction false} EndComponents(ps: seq<Parsed>)
    requires (forall k :: 0 <= k < |ps| ==> Plain(ps[k])) && AllFit(ps)
    ensures Components(ArriveAll(ps)) && DistinctIds(ArriveAll(ps))
  {
    hide AllFit, Components;
    ThreadsAreComponents(ps);
    RowsAfter(ps);
    assert ps[..|ps|] == ps;
  }

  lemma {:induction false} ConnectedThere(ps: seq<Parsed>, qs: seq<Parsed>, i: nat, j: nat, i': nat, j': nat)
    requires Holds(ArriveAll(ps), ps) && Holds(ArriveAll(qs), qs) && DistinctIds(ArriveAll(qs))
    requires forall p :: p in ps ==> p in qs
    requires i < |ps| && j < |ps| && i' < |qs| && j' < |qs|
    requires ps[i] == qs[i'] && ps[j] == qs[j'] && ps[i].messageId.Some? && ps[j].messageId.Some?
    requires Graph.Connected(ReplyEdges(ArriveAll(ps)), i, j)
    ensures Graph.Connected(ReplyEdges(ArriveAll(qs)), i', j')
  {
    var ms, ns := ArriveAll(ps), ArriveAll(qs);
    forall k | 0 <= k < |ms| ensures exists t :: 0 <= t < |ns| && Twin(ms[k], ns[t]) {
      assert ps[k] in qs;
      var t :| 0 <= t < |qs| && qs[t] == ps[k];
      assert Twin(ms[k], ns[t]);
    }
    var path :| Graph.PathFrom(ReplyEdges(ms), path, i, j);
    PathMaps(ms, ns, path, i', j, j');
  }

  // ---- which row, which thread ----

  /** A row with the same provider id, first of all; without one a row with the same Message-ID. Empty ids identify nothing. */
  lemma {:induction false} FoundExactly(ms: seq<Message>, gm: Option<string>, mid: Option<string>)
    ensures var r := FindExisting(ms, gm, mid);
            && (r.Some? <==> exists k :: 0 <= k < |ms| && (SameId(gm, ms[k].gmMsgId) || SameId(mid, ms[k].messageId)))
            && (r.Some? && (exists k :: 0 <= k < |ms| && SameId(gm, ms[k].gmMsgId)) ==> SameId(gm, ms[r.value].gmMsgId))
            && (r.Some? && (forall k :: 0 <= k < |ms| ==> !SameId(gm, ms[k].gmMsgId)) ==> SameId(mid, ms[r.value].messageId))
  {
  }

  predicate SameId(a: Option<string>, b: Option<string>) {
    a == b && a.Some? && a.value != ""
  }

  /**
   * The thread of a new message: the provider's; else that of a stored row its In-Reply-To or References name; else the
   * one named by its own Message-ID; else a random one no row was given before.
   */
  lemma {:induction false} ThreadResolved(ms: seq<Message>, p: Parsed)
    requires forall k :: 0 <= k < |ms| ==> ms[k].thread != Named("")
    ensures var t := ResolveThread(ms, p);
            && (p.providerThreadId.Some? && p.providerThreadId.value != "" ==> t == Named(p.providerThreadId.value))
            && (p.providerThreadId.None? && (exists k :: 0 <= k < |ms| && NamedBy(p, ms[k])) ==>
                  exists k :: 0 <= k < |ms| && NamedBy(p, ms[k]) && t == ms[k].thread)
            && (p.providerThreadId.None? && (forall k :: 0 <= k < |ms| ==> !NamedBy(p, ms[k])) ==>
                  t == if p.messageId.Some? then Named(p.messageId.value) else Random(|ms|))
  {
    var first := FirstAncestor(ms, p, 0);
    forall k | 0 <= k < |ms| ensures NamedBy(p, ms[k]) <==> IsAncestor(p, ms[k].messageId) {
    }
  }

  /** The headers name the row: as the message it answers, or among the references. */
  predicate NamedBy(p: Parsed, m: Message) {
    m.messageId.Some? && m.messageId.value != "" && (p.inReplyTo == m.messageId || m.messageId.value in p.references)
  }

  // ---- where the hypotheses are needed ----

  function Mail(mid: Option<string>, parent: Option<string>, references: seq<string>): Parsed {
    Parsed(None, mid, None, parent, references, Flags(false, false, false, false))
  }

  /** The same mail arriving twice, without a provider id, is one row exactly if it has a Message-ID and that is not empty. */
  lemma {:induction false} TwiceExact(ms: seq<Message>, p: Parsed)
    requires !Truthy(p.gmMsgId)
    ensures |Arrive(Arrive(ms, p), p)| == |Arrive(ms, p)| <==> Truthy(p.messageId)
  {
    var one := Arrive(ms, p);
    if Truthy(p.messageId) && FindExisting(ms, p.gmMsgId, p.messageId).None? {
      assert one[|ms|].messageId == p.messageId;
    }
  }

  /** An empty Message-ID names a thread, so all mail that has one and no stored ancestor shares it. */
  lemma {:induction false} EmptyIdsShareAThread(ms: seq<Message>, p: Parsed)
    requires !Truthy(p.gmMsgId) && !Truthy(p.providerThreadId) && p.messageId == Some("") && FirstAncestor(ms, p, 0).None?
    ensures var after := Arrive(ms, p); |after| == |ms| + 1 && after[|ms|].thread == Named("") && after[..|ms|] == ms
  {
  }

  /**
   * A message naming its grandparent only in References joins it when the grandparent came first, and
   * stays apart when it came second: the back-fill looks at In-Reply-To alone.
   */
  lemma {:induction false} LongReferencesDependOnOrder()
    ensures var a, b := Mail(Some("a"), None, []), Mail(Some("b"), None, ["a"]);
            var first, second := Arrive(Arrive([], a), b), Arrive(Arrive([], b), a);
            && |first| == 2 && first[0].thread == first[1].thread
            && |second| == 2 && second[0].thread != second[1].thread
  {
    var a, b := Mail(Some("a"), None, []), Mail(Some("b"), None, ["a"]);
    assert Arrive([], a) == [NewMessage([], a)] && Arrive([], b) == [NewMessage([], b)];
    var va, vb := [NewMessage([], a)], [NewMessage([], b)];
    assert IsAncestor(b, Some("a"));
    assert StaleThreads(va + [NewMessage(va, b)], Some("b"), Named("a")) == {};
    assert Arrive(va, b) == va + [NewMessage(va, b)];
    assert StaleThreads(vb + [NewMessage(vb, a)], Some("a"), Named("a")) == {};
    assert Arrive(vb, a) == vb + [NewMessage(vb, a)];
  }
}
