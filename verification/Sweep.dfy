/**
 * The full-source sweep of a folder (imap/sync.ts, sweepFolderSource): it walks the UIDs downward from a
 * stored watermark, may stop for lack of budget between any two messages or fail at any command, and
 * resumes without jumping over a message.
 */
module Sweep {
  import opened Wrappers
  import opened Imap

  const FETCH_BATCH: nat := 100

  datatype Outcome = Outcome(done: bool, budgetExhausted: bool, failed: bool)

  class Folder {
    var synced: bool                  // UIDVALIDITY is known
    var oldestSynced: Option<nat>     // the watermark
    var source: set<Identity>         // messages whose raw source is archived
    ghost var ceiling: nat            // where the sweep of this folder began
    ghost var passedOver: set<nat>    // UIDs whose source could not be fetched or stored when their turn came

    constructor (synced: bool, source: set<Identity>)
      ensures this.synced == synced && this.source == source && oldestSynced == None && passedOver == {}
    {
      this.synced, this.source := synced, source;
      oldestSynced, ceiling, passedOver := None, 0, {};
    }
  }

  /** What the sweep has behind it: archived messages, and UIDs it gave up on. */
  datatype Work = Work(source: set<Identity>, passedOver: set<nat>)

  ghost function WorkOf(folder: Folder): Work
    reads folder
  {
    Work(folder.source, folder.passedOver)
  }

  ghost predicate Grew(a: Work, b: Work) {
    a.source <= b.source && a.passedOver <= b.passedOver
  }

  /**
   * Between the two moments only downloaded messages were archived, each with a download of its own, and every
   * UID given up used up another one, and a download or a write of its own that failed.
   */
  ghost predicate Honest(a: Link, w: Work, b: Link, w': Work) {
    && Grew(w, w') && Onward(a, b) && w'.source <= w.source + b.loaded
    && |w'.passedOver| + b.failures <= |w.passedOver| + a.failures
    && |w'.source| + |w'.passedOver| + a.downloads <= |w.source| + |w.passedOver| + b.downloads
  }

  lemma {:induction false} HonestStart(a: Link, w: Work)
    ensures Honest(a, w, a, w)
  {
  }

  /** A command that is no download does nothing. */
  lemma {:induction false} HonestFetch(a: Link, w: Work, b: Link)
    ensures Onward(a, b) && a.downloads == b.downloads ==> Honest(a, w, b, w)
  {
  }

  lemma {:induction false} HonestAfter(a: Link, b: Link, w: Work, c: Link, w': Work)
    requires Onward(a, b) && Honest(b, w, c, w')
    ensures Honest(a, w, c, w') && Grew(w, w')
  {
  }

  /** The message had its turn: its source is archived, or the attempt failed and was given up. */
  ghost predicate Handled(w: Work, box: Box, u: nat)
    requires u in box.mail
  {
    box.mail[u] in w.source || u in w.passedOver
  }

  /** Every message on the server between `low` and `high` had its turn. */
  ghost predicate HandledFrom(w: Work, box: Box, low: nat, high: nat) {
    forall u :: u in box.mail && low <= u <= high ==> Handled(w, box, u)
  }

  /** The watermark claims no more than was done. */
  ghost predicate Swept(folder: Folder, box: Box)
    reads folder
  {
    && ValidBox(box)
    && (folder.oldestSynced.Some? ==>
          && 1 <= folder.oldestSynced.value <= folder.ceiling + 1 && folder.ceiling < box.uidNext
          && HandledFrom(WorkOf(folder), box, folder.oldestSynced.value, folder.ceiling))
  }

  /** The server moving on and the archive growing undo nothing. */
  lemma {:induction false} HandledLater(w: Work, a: Box, w': Work, b: Box, low: nat, high: nat)
    requires HandledFrom(w, a, low, high) && Later(a, b) && high < a.uidNext && Grew(w, w')
    ensures HandledFrom(w', b, low, high)
  {
    forall u | u in b.mail && low <= u <= high ensures Handled(w', b, u) {
      assert u in a.mail && Handled(w, a, u);
    }
  }

  predicate Descending(s: seq<nat>) {
    forall i, j :: 0 <= i < j < |s| ==> s[i] > s[j]
  }

  method SortedDown(uids: set<nat>) returns (s: seq<nat>)
    ensures Descending(s) && forall u :: u in s <==> u in uids
  {
    var up := Sorted(uids);
    s := seq(|up|, k requires 0 <= k < |up| => up[|up| - 1 - k]);
    forall u | u in uids ensures u in s {
      var k :| 0 <= k < |up| && up[k] == u;
      assert s[|up| - 1 - k] == u;
    }
    forall k | 0 <= k < |s| ensures s[k] in up {
    }
  }

  /** One message: archive its source. Whatever goes wrong is logged and the message passed over. */
  method HandleOne(s: Session, folder: Folder, uid: nat, message: Identity)
    requires ValidBox(s.box)
    modifies s, folder`source, folder`passedOver
    ensures ValidBox(s.box) && Later(old(s.box), s.box) && Honest(old(LinkOf(s)), old(WorkOf(folder)), LinkOf(s), WorkOf(folder))
    ensures LinkOf(s).downloads == old(LinkOf(s)).downloads + 1
    ensures message in folder.source || (uid in folder.passedOver && LinkOf(s).failures < old(LinkOf(s)).failures)
    ensures folder.passedOver <= old(folder.passedOver) + {uid} && folder.source <= old(folder.source) + {message}
  {
    ghost var start := s.box;
    var done := s.Download(message);
    if done {
      ghost var before := s.box;
      done := s.Write();
      LaterTransitive(start, before, s.box);
    }
    if done {
      folder.source := folder.source + {message};
    } else {
      folder.passedOver := folder.passedOver + {uid};
    }
  }

  /** Of the budget's answers so many were asked for, one after the other: all of them yes, but the last if it was the end. */
  predicate Consulted(budget: seq<bool>, n: nat, no: bool) {
    (forall j :: 0 <= j < n && j < |budget| ==> budget[j] == !(no && j == n - 1)) && (no ==> 0 < n <= |budget|)
  }

  /** The answers still to come; with none left the answer is yes. */
  function Drop(budget: seq<bool>, n: nat): seq<bool> {
    if n <= |budget| then budget[n..] else []
  }

  lemma {:induction false} ConsultedOn(budget: seq<bool>, n: nat, m: nat, no: bool)
    requires Consulted(budget, n, false) && Consulted(Drop(budget, n), m, no)
    ensures Consulted(budget, n + m, no) && Drop(Drop(budget, n), m) == Drop(budget, n + m)
  {
    if n <= |budget| {
      assert forall j :: n <= j < n + m && j < |budget| ==> budget[j] == Drop(budget, n)[j - n];
    }
  }

  /** The next answer is no. */
  predicate SaysNo(budget: seq<bool>) {
    budget != [] && !budget[0]
  }

  /** One answer more. */
  lemma {:induction false} ConsultOnce(budget: seq<bool>, n: nat)
    requires Consulted(budget, n, false)
    ensures Consulted(budget, n + 1, SaysNo(Drop(budget, n))) && Drop(Drop(budget, n), 1) == Drop(budget, n + 1)
  {
    if n < |budget| { assert Drop(budget, n)[0] == budget[n]; }
  }

  lemma {:induction false} ConsultedNo(budget: seq<bool>, n: nat)
    ensures Consulted(budget, n, true) ==> false in budget
    ensures Drop(budget, 0) == budget && Consulted(budget, 0, false)
  {
    if Consulted(budget, n, true) { assert budget[n - 1] == false; }
  }

  /** How often the budget says yes before it first says no. */
  function Allowed(budget: seq<bool>): nat {
    if budget == [] || !budget[0] then 0 else 1 + Allowed(budget[1..])
  }

  /** No more than that was asked for, or the last answer was the first no. */
  lemma {:induction false} ConsultedAllowed(budget: seq<bool>, n: nat, no: bool)
    requires Consulted(budget, n, no) && false in budget
    ensures if no then n == Allowed(budget) + 1 else n <= Allowed(budget)
  {
    if n > 0 && budget[0] {
      var rest := budget[1..];
      assert forall j :: 0 <= j < |rest| ==> rest[j] == budget[j + 1];
      assert budget == [budget[0]] + rest;
      if n > 1 || !no { ConsultedAllowed(rest, n - 1, no); }
    }
  }

  /**
   * One fetched batch, in descending order, until the budget runs out. `lowest` is the lowest UID that
   * had its turn, or one past the ceiling if none had.
   */
  method SweepBatch(s: Session, folder: Folder, batch: seq<nat>, ceiling: nat, fetched: Box, budget: seq<bool>)
    returns (lowest: nat, stopped: bool, rest: seq<bool>, taken: nat, ghost asked: nat)
    requires ValidBox(fetched) && ValidBox(s.box) && Later(fetched, s.box) && ceiling < fetched.uidNext
    requires Descending(batch) && forall k :: 0 <= k < |batch| ==> batch[k] <= ceiling
    modifies s, folder`source, folder`passedOver
    ensures ValidBox(s.box) && Later(old(s.box), s.box) && Later(fetched, s.box) && Honest(old(LinkOf(s)), old(WorkOf(folder)), LinkOf(s), WorkOf(folder))
    ensures taken <= |batch| && (!stopped ==> taken == |batch|)
    ensures Consulted(budget, asked, stopped) && rest == Drop(budget, asked)
    ensures LinkOf(s).downloads + (if stopped then 1 else 0) == old(LinkOf(s)).downloads + asked
    ensures lowest == if taken > 0 then batch[taken - 1] else ceiling + 1
    ensures taken == 0 ==> WorkOf(folder) == old(WorkOf(folder))
    ensures forall k :: 0 <= k < taken && batch[k] in s.box.mail ==> Handled(WorkOf(folder), s.box, batch[k])
  {
    hide Consulted, Drop;
    lowest, stopped, rest, taken, asked := ceiling + 1, false, budget, 0, 0;
    ConsultedNo(budget, 0);
    while taken < |batch|
      invariant taken <= |batch| && !stopped && Consulted(budget, asked, false) && rest == Drop(budget, asked)
      invariant LinkOf(s).downloads == old(LinkOf(s)).downloads + asked
      invariant ValidBox(s.box) && Later(old(s.box), s.box) && Later(fetched, s.box) && Honest(old(LinkOf(s)), old(WorkOf(folder)), LinkOf(s), WorkOf(folder))
      invariant lowest == if taken > 0 then batch[taken - 1] else ceiling + 1
      invariant taken == 0 ==> WorkOf(folder) == old(WorkOf(folder))
      invariant forall k :: 0 <= k < taken && batch[k] in fetched.mail ==> Handled(WorkOf(folder), fetched, batch[k])
    {
      var uid := batch[taken];
      if uid in fetched.mail && fetched.mail[uid] !in folder.source {
        // The budget is asked again before every download.
        ConsultOnce(budget, asked);
        asked := asked + 1;
        stopped := SaysNo(rest);
        rest := Drop(rest, 1);
        if stopped {
          break;
        }
        ghost var before := s.box;
        HandleOne(s, folder, uid, fetched.mail[uid]);
        LaterTransitive(old(s.box), before, s.box);
        LaterTransitive(fetched, before, s.box);
      }
      lowest := uid;
      taken := taken + 1;
    }
  }

  /**
   * A pass that has visited the first `i` of the UIDs it searched: they had their turn, and so did
   * everything from above its ceiling up to where the sweep began.
   */
  ghost predicate Descended(w: Work, top: nat, searched: Box, box: Box, all: seq<nat>, i: nat, ceiling: nat)
    requires i <= |all|
  {
    && ValidBox(searched) && ValidBox(box) && Later(searched, box)
    && top < searched.uidNext && ceiling <= top
    && Descending(all)
    && (forall u :: u in searched.mail && u <= ceiling ==> u in all)
    && (forall k :: 0 <= k < |all| ==> 1 <= all[k] <= ceiling)
    && HandledFrom(w, box, ceiling + 1, top)
    && (forall k :: 0 <= k < i && all[k] in box.mail ==> Handled(w, box, all[k]))
  }

  lemma {:induction false} DescendedLater(w: Work, top: nat, searched: Box, a: Box, all: seq<nat>, i: nat, ceiling: nat, w': Work, b: Box)
    requires i <= |all| && Descended(w, top, searched, a, all, i, ceiling) && Later(a, b) && ValidBox(b) && Grew(w, w')
    ensures Descended(w', top, searched, b, all, i, ceiling)
  {
    LaterTransitive(searched, a, b);
    HandledLater(w, a, w', b, ceiling + 1, top);
    forall k | 0 <= k < i && all[k] in b.mail ensures Handled(w', b, all[k]) {
      assert all[k] in a.mail && Handled(w, a, all[k]);
    }
  }

  /** Having visited the first `i` UIDs, the pass has handled everything from the last of them up. */
  lemma {:induction false} DescendedFrom(w: Work, top: nat, searched: Box, box: Box, all: seq<nat>, i: nat, ceiling: nat, low: nat)
    requires i <= |all| && Descended(w, top, searched, box, all, i, ceiling)
    requires forall k :: i <= k < |all| ==> all[k] < low
    ensures HandledFrom(w, box, low, top)
  {
    forall u | u in box.mail && low <= u <= top ensures Handled(w, box, u) {
      if u <= ceiling {
        assert u in searched.mail;
        var k :| 0 <= k < |all| && all[k] == u;
      }
    }
  }

  /** No more downloads than yes answers. */
  ghost predicate Granted(a: Link, b: Link, asked: nat, no: bool) {
    b.downloads + (if no then 1 else 0) <= a.downloads + asked
  }

  /** The watermark is at or below where the pass began, so that it resumes below what it did. */
  ghost predicate Lowered(oldest: Option<nat>, ceiling: nat) {
    oldest.Some? && oldest.value <= ceiling
  }

  /** A pass that is not done ran out of budget, or had a command go unanswered. */
  ghost predicate StopsOnlyFor(outcome: Outcome, link: Link, budget: seq<bool>) {
    outcome.done || (outcome.budgetExhausted && false in budget) || (outcome.failed && link.failures > 0)
  }

  /** Work down the searched UIDs batch by batch, moving the watermark after each. */
  method Descend(s: Session, folder: Folder, all: seq<nat>, ghost searched: Box, ceiling: nat, budget: seq<bool>)
    returns (outcome: Outcome, ghost asked: nat)
    requires Descended(WorkOf(folder), folder.ceiling, searched, s.box, all, 0, ceiling) && Swept(folder, s.box)
    modifies s, folder`source, folder`passedOver, folder`oldestSynced
    ensures Swept(folder, s.box) && Later(old(s.box), s.box) && Honest(old(LinkOf(s)), old(WorkOf(folder)), LinkOf(s), WorkOf(folder))
    ensures outcome.done ==> folder.oldestSynced == Some(1)
    ensures StopsOnlyFor(outcome, old(LinkOf(s)), budget)
    ensures Consulted(budget, asked, outcome.budgetExhausted) && Granted(old(LinkOf(s)), LinkOf(s), asked, outcome.budgetExhausted)
    ensures old(folder.oldestSynced).Some? ==> folder.oldestSynced.Some?
    ensures WorkOf(folder) != old(WorkOf(folder)) ==> Lowered(folder.oldestSynced, ceiling)
  {
    hide Consulted, Drop, HandledFrom;
    var rest := budget;
    var i := 0;
    asked := 0;
    ConsultedNo(budget, 0);
    while i < |all|
      invariant i <= |all| && Descended(WorkOf(folder), folder.ceiling, searched, s.box, all, i, ceiling)
      invariant Swept(folder, s.box) && Later(old(s.box), s.box) && Honest(old(LinkOf(s)), old(WorkOf(folder)), LinkOf(s), WorkOf(folder))
      invariant old(folder.oldestSynced).Some? ==> folder.oldestSynced.Some?
      invariant Consulted(budget, asked, false) && rest == Drop(budget, asked) && Granted(old(LinkOf(s)), LinkOf(s), asked, false)
      invariant WorkOf(folder) != old(WorkOf(folder)) ==> Lowered(folder.oldestSynced, ceiling)
    {
      var no := SaysNo(rest);
      ConsultOnce(budget, asked);
      asked := asked + 1;
      if no {
        ConsultedNo(budget, asked);
        return Outcome(false, true, false), asked;
      }
      rest := Drop(rest, 1);
      var hi := if i + FETCH_BATCH < |all| then i + FETCH_BATCH else |all|;
      ghost var link, more := LinkOf(s), 0;
      var taken, stopped, answered;
      taken, stopped, answered, rest, more := SweepRange(s, folder, all, i, hi, searched, ceiling, rest);
      ConsultedOn(budget, asked, more, stopped);
      asked := asked + more;
      if !answered {
        return Outcome(false, false, true), asked;
      }
      if stopped {
        ConsultedNo(budget, asked);
        return Outcome(false, true, false), asked;
      }
      i := hi;
    }
    DescendedFrom(WorkOf(folder), folder.ceiling, searched, s.box, all, |all|, ceiling, 1);
    folder.oldestSynced := Some(1);
    assert all != [] ==> all[0] >= 1 && all[0] <= ceiling;
    outcome := Outcome(true, false, false);
  }

  /** Fetch `all[i..hi]`, sweep it, and lower the watermark to the lowest UID that had its turn. */
  method SweepRange(s: Session, folder: Folder, all: seq<nat>, i: nat, hi: nat, ghost searched: Box, ceiling: nat, budget: seq<bool>)
    returns (taken: nat, stopped: bool, answered: bool, rest: seq<bool>, ghost asked: nat)
    requires i < hi <= |all| && Descended(WorkOf(folder), folder.ceiling, searched, s.box, all, i, ceiling) && Swept(folder, s.box)
    modifies s, folder`source, folder`passedOver, folder`oldestSynced
    ensures Swept(folder, s.box) && Later(old(s.box), s.box) && Honest(old(LinkOf(s)), old(WorkOf(folder)), LinkOf(s), WorkOf(folder))
    ensures old(folder.oldestSynced).Some? ==> folder.oldestSynced.Some?
    ensures !answered ==> old(LinkOf(s)).failures > 0 && !stopped
    ensures Consulted(budget, asked, stopped) && rest == Drop(budget, asked) && Granted(old(LinkOf(s)), LinkOf(s), asked, stopped)
    ensures WorkOf(folder) != old(WorkOf(folder)) ==> Lowered(folder.oldestSynced, ceiling)
    ensures folder.oldestSynced == old(folder.oldestSynced) || Lowered(folder.oldestSynced, ceiling)
    ensures i + taken <= hi && (answered && !stopped ==> i + taken == hi)
    ensures Descended(WorkOf(folder), folder.ceiling, searched, s.box, all, i + taken, ceiling)
  {
    hide HandledFrom, Consulted, Drop, Honest;
    ghost var before, had, link := s.box, WorkOf(folder), LinkOf(s);
    HonestStart(link, had);
    taken, stopped, rest, asked := 0, false, budget, 0;
    ConsultedNo(budget, 0);
    var captured := s.Fetch(all[i..hi]);
    answered := captured.Some?;
    DescendedLater(had, folder.ceiling, searched, before, all, i, ceiling, had, s.box);
    SweptLater(folder.oldestSynced, folder.ceiling, had, before, had, s.box);
    ghost var linked := LinkOf(s);
    HonestFetch(link, had, linked);
    if answered {
      ghost var listing := s.box;
      var batch := all[i..hi];
      var lowest;
      lowest, stopped, rest, taken, asked := SweepBatch(s, folder, batch, ceiling, s.box, rest);
      LaterTransitive(before, listing, s.box);
      HonestAfter(link, linked, had, LinkOf(s), WorkOf(folder));
      DescendedLater(had, folder.ceiling, searched, listing, all, i, ceiling, WorkOf(folder), s.box);
      SweptLater(folder.oldestSynced, folder.ceiling, had, listing, WorkOf(folder), s.box);
      forall k | i <= k < i + taken && all[k] in s.box.mail ensures Handled(WorkOf(folder), s.box, all[k]) {
        assert batch[k - i] == all[k];
      }
      if lowest <= ceiling {
        assert taken > 0 && lowest == all[i + taken - 1];
        DescendedFrom(WorkOf(folder), folder.ceiling, searched, s.box, all, i + taken, ceiling, lowest);
        folder.oldestSynced := Some(lowest);
      }
    }
  }

  lemma {:induction false} SweptLater(oldest: Option<nat>, top: nat, w: Work, a: Box, w': Work, b: Box)
    requires ValidBox(b) && Later(a, b) && Grew(w, w')
    requires oldest.Some? ==> top < a.uidNext && HandledFrom(w, a, oldest.value, top)
    ensures oldest.Some? ==> top < b.uidNext && HandledFrom(w', b, oldest.value, top)
  {
    if oldest.Some? {
      HandledLater(w, a, w', b, oldest.value, top);
    }
  }

  /** The bookkeeping alone: the watermark is a UID of the range, whatever was done. */
  ghost predicate Marked(folder: Folder, box: Box)
    reads folder
  {
    ValidBox(box) && (folder.oldestSynced.Some? ==> 1 <= folder.oldestSynced.value <= folder.ceiling + 1 && folder.ceiling < box.uidNext)
  }

  /** Where a pass begins: one below the watermark, or below UIDNEXT. */
  function Top(oldest: Option<nat>, selectedNext: nat): (n: nat)
    requires selectedNext >= 1 && (oldest.Some? ==> oldest.value >= 1)
  {
    (if oldest.Some? then oldest.value else selectedNext) - 1
  }

  /** The pass gets as far as its SEARCH, and that is refused. */
  predicate SearchRefused(synced: bool, oldest: Option<nat>, selectedNext: nat, script: seq<Turn>, budget: seq<bool>)
    requires selectedNext >= 1 && (oldest.Some? ==> oldest.value >= 1)
  {
    synced && !SaysNo(budget) && Top(oldest, selectedNext) >= 1 && Refuses(script)
  }

  /**
   * One pass. At every exit - done, out of budget in the middle of a batch, or a failed command - each
   * message at or above the stored watermark and at or below where the sweep began has had its turn;
   * and a pass that reports `done` has reached the bottom.
   *
   * But a SEARCH answered with an error is taken for an empty folder: the watermark drops to 1 and the pass
   * reports `done`. Then the watermark claims no more than was done exactly if everything from 1 up to where
   * this pass began had had its turn before.
   *
   * The pass stops at the first no of the budget: of its answers it asks for no more, downloads no more often
   * than they were yes, and reports an exhausted budget exactly if the last one was no. A pass that did
   * anything leaves its watermark below where it began, so the next one goes on from there.
   */
  method SweepFolderSource(s: Session, folder: Folder, selectedNext: nat, budget: seq<bool>) returns (outcome: Outcome, ghost asked: nat)
    requires Swept(folder, s.box) && 1 <= selectedNext <= s.box.uidNext
    modifies s, folder`source, folder`passedOver, folder`oldestSynced, folder`ceiling
    ensures Marked(folder, s.box) && Later(old(s.box), s.box) && Honest(old(LinkOf(s)), old(WorkOf(folder)), LinkOf(s), WorkOf(folder))
    ensures old(folder.oldestSynced).Some? ==> folder.oldestSynced.Some? && folder.ceiling == old(folder.ceiling)
    ensures (outcome.done || folder.oldestSynced.Some?) && old(folder.oldestSynced).None? ==> folder.ceiling == selectedNext - 1
    ensures outcome.done ==> folder.synced
    ensures folder.synced ==> StopsOnlyFor(outcome, old(LinkOf(s)), budget)
    ensures Consulted(budget, asked, outcome.budgetExhausted) && Granted(old(LinkOf(s)), LinkOf(s), asked, outcome.budgetExhausted)
    ensures WorkOf(folder) != old(WorkOf(folder)) ==> Lowered(folder.oldestSynced, Top(old(folder.oldestSynced), selectedNext))
    ensures !SearchRefused(folder.synced, old(folder.oldestSynced), selectedNext, old(s.script), budget) ==>
              Swept(folder, s.box) && (outcome.done ==> HandledFrom(WorkOf(folder), s.box, 1, folder.ceiling))
    ensures SearchRefused(folder.synced, old(folder.oldestSynced), selectedNext, old(s.script), budget) ==>
              && outcome.done && folder.oldestSynced == Some(1) && WorkOf(folder) == old(WorkOf(folder))
              && s.box == Next(old(s.box), old(s.script))
              && (Swept(folder, s.box) <==> HandledFrom(old(WorkOf(folder)), s.box, 1, Top(old(folder.oldestSynced), selectedNext)))
  {
    hide Later, HandledFrom, Consulted, Drop, Descended;
    LaterSame(s.box);
    asked := 0;
    ConsultedNo(budget, 0);
    if !folder.synced {
      return Outcome(false, false, false), 0;
    }
    ConsultOnce(budget, 0);
    asked := 1;
    if SaysNo(budget) {
      ConsultedNo(budget, 1);
      return Outcome(false, true, false), 1;
    }
    var rest := Drop(budget, 1);
    ghost var more := 0;
    var ceiling: nat := Top(folder.oldestSynced, selectedNext);
    if folder.oldestSynced.None? {
      folder.ceiling := ceiling;
    }
    EmptyRange(WorkOf(folder), s.box, ceiling);
    if ceiling < 1 {
      return Outcome(true, false, false), asked;
    }
    ghost var before, oldest := s.box, folder.oldestSynced;
    var hits := s.Search(Everything());
    SweptLater(folder.oldestSynced, folder.ceiling, WorkOf(folder), before, WorkOf(folder), s.box);
    EmptyRange(WorkOf(folder), s.box, ceiling);
    if hits.None? {
      return Outcome(false, false, true), asked;
    }
    var found := set u | u in hits.value && u <= ceiling;
    if found == {} {
      folder.oldestSynced := Some(1);
      if Refuses(old(s.script)) {
        HandledJoins(WorkOf(folder), s.box, ceiling, folder.ceiling);
      } else {
        NoneBelow(WorkOf(folder), s.box, found, ceiling, folder.ceiling);
      }
      return Outcome(true, false, false), asked;
    }
    var all := SortedDown(found);
    ghost var searched := s.box;
    DescentBegins(WorkOf(folder), folder.ceiling, s.box, found, all, ceiling);
    outcome, more := Descend(s, folder, all, searched, ceiling, rest);
    ConsultedOn(budget, 1, more, outcome.budgetExhausted);
    asked := 1 + more;
    if outcome.budgetExhausted { ConsultedNo(budget, asked); }
    LaterTransitive(before, searched, s.box);
  }

  lemma {:induction false} EmptyRange(w: Work, box: Box, n: nat)
    ensures HandledFrom(w, box, n + 1, n)
  {
  }

  /** With the upper part handled, all is handled exactly if the lower part is. */
  lemma {:induction false} HandledJoins(w: Work, box: Box, ceiling: nat, top: nat)
    requires ceiling <= top && HandledFrom(w, box, ceiling + 1, top)
    ensures HandledFrom(w, box, 1, top) <==> HandledFrom(w, box, 1, ceiling)
  {
  }

  lemma {:induction false} NoneBelow(w: Work, box: Box, found: set<nat>, ceiling: nat, top: nat)
    requires found == {} && found == (set u | u in Hits(box, Everything()) && u <= ceiling) && HandledFrom(w, box, ceiling + 1, top)
    ensures HandledFrom(w, box, 1, top)
  {
    forall u | u in box.mail && 1 <= u <= top ensures Handled(w, box, u) {
      assert u <= ceiling ==> u in found;
    }
  }

  lemma {:induction false} DescentBegins(w: Work, top: nat, box: Box, found: set<nat>, all: seq<nat>, ceiling: nat)
    requires found == (set u | u in Hits(box, Everything()) && u <= ceiling) && Descending(all) && forall u :: u in all <==> u in found
    requires ValidBox(box) && top < box.uidNext && ceiling <= top && HandledFrom(w, box, ceiling + 1, top)
    ensures Descended(w, top, box, box, all, 0, ceiling)
  {
    hide HandledFrom;
    assert forall u :: u in box.mail && u <= ceiling ==> u in found;
    assert forall k :: 0 <= k < |all| ==> all[k] in found;
  }
  /** Which messages of the range were neither archived nor given up on. */
  ghost function Unarchived(w: Work, box: Box, low: nat, high: nat): set<Identity> {
    set u | u in box.mail && low <= u <= high && box.mail[u] !in w.source && u !in w.passedOver :: box.mail[u]
  }

  lemma {:induction false} FewerMembers<T>(a: set<T>, b: set<T>)
    requires a <= b
    ensures |a| <= |b|
  {
    assert b == a + (b - a);
  }

  ghost function Messages(box: Box, uids: set<nat>): set<Identity> {
    set u | u in uids && u in box.mail :: box.mail[u]
  }

  lemma {:induction false} FewerMessages(box: Box, uids: set<nat>)
    ensures |Messages(box, uids)| <= |uids|
    decreases |uids|
  {
    if uids != {} {
      var u :| u in uids;
      var rest := uids - {u};
      FewerMessages(box, rest);
      if u in box.mail {
        assert Messages(box, uids) == Messages(box, rest) + {box.mail[u]};
      } else {
        assert Messages(box, uids) == Messages(box, rest);
      }
    }
  }

  /** Every message that had its turn since was archived or given up since. */
  lemma {:induction false} TurnsTaken(w: Work, w': Work, box: Box, low: nat, high: nat)
    requires Grew(w, w') && HandledFrom(w', box, low, high)
    ensures |Unarchived(w, box, low, high)| + |w.source| + |w.passedOver| <= |w'.source| + |w'.passedOver|
  {
    var archived, given := w'.source - w.source, w'.passedOver - w.passedOver;
    assert w'.source == w.source + archived && w'.passedOver == w.passedOver + given;
    FewerMessages(box, given);
    forall m | m in Unarchived(w, box, low, high) ensures m in archived + Messages(box, given) {
      var u :| u in box.mail && low <= u <= high && box.mail[u] !in w.source && u !in w.passedOver && box.mail[u] == m;
      assert Handled(w', box, u);
    }
    FewerMembers(Unarchived(w, box, low, high), archived + Messages(box, given));
  }

 /**
   * What a pass does under a budget that comes to say no: it downloads at most as often as the budget says yes
   * before that; it reports an exhausted budget exactly if it asked once more; and it gets to the bottom only
   * if no more messages were left to archive.
   */
  lemma {:induction false} BudgetStops(budget: seq<bool>, asked: nat, no: bool, a: Link, w: Work, b: Link, w': Work, box: Box, top: nat)
    requires Consulted(budget, asked, no) && Granted(a, b, asked, no) && Honest(a, w, b, w') && false in budget
    ensures b.downloads <= a.downloads + Allowed(budget) && (no <==> asked > Allowed(budget))
    ensures |w'.source| + |w'.passedOver| <= |w.source| + |w.passedOver| + Allowed(budget)
    ensures HandledFrom(w', box, 1, top) ==> |Unarchived(w, box, 1, top)| <= Allowed(budget)
  {
    ConsultedAllowed(budget, asked, no);
    if HandledFrom(w', box, 1, top) {
      TurnsTaken(w, w', box, 1, top);
    }
  }

  /** The refused SEARCH over a folder with one message that is not archived: swept, by its own account. */
  method RefusedSearchIsDone(message: Identity) returns (s: Session, folder: Folder, outcome: Outcome)
    ensures outcome.done && folder.oldestSynced == Some(1) && folder.source == {} && folder.passedOver == {}
    ensures s.box == Box(map[1 := message], 2) && !Swept(folder, s.box)
  {
    s := new Session(Box(map[1 := message], 2), [Turn([], Refused)], m => 1);
    folder := new Folder(true, {});
    ghost var asked;
    outcome, asked := SweepFolderSource(s, folder, 2, []);
    assert 1 in s.box.mail && !Handled(WorkOf(folder), s.box, 1);
  }

  /** What a pass may find: the server as it has become, a UIDNEXT reported `lag` behind it, a script for the connection, and the budget. */
  datatype PassPlan = PassPlan(idle: seq<ServerStep>, lag: nat, script: seq<Turn>, budget: seq<bool>)

  /** How many commands go unanswered over all the passes. */
  function Failures(plans: seq<PassPlan>): nat {
    if plans == [] then 0 else Failures(plans[..|plans| - 1]) + Unanswered(plans[|plans| - 1].script)
  }

  lemma {:induction false} FailuresStep(plans: seq<PassPlan>, k: nat)
    requires k < |plans|
    ensures Failures(plans[..k + 1]) == Failures(plans[..k]) + Unanswered(plans[k].script)
  {
    assert plans[..k + 1][..k] == plans[..k];
  }

  lemma {:induction false} FailuresPrefix(plans: seq<PassPlan>, k: nat)
    requires k <= |plans|
    ensures Failures(plans[..k]) <= Failures(plans)
    decreases |plans| - k
  {
    if k < |plans| {
      FailuresStep(plans, k);
      FailuresPrefix(plans, k + 1);
    } else {
      assert plans[..k] == plans;
    }
  }

  /** No UIDNEXT was out of date. */
  predicate Prompt(plans: seq<PassPlan>) {
    forall k :: 0 <= k < |plans| ==> plans[k].lag == 0
  }

  /** Nothing stops this pass. */
  predicate Smooth(plan: PassPlan) {
    Unanswered(plan.script) == 0 && false !in plan.budget
  }

  /** Every budget comes to say no. */
  predicate AllLimited(plans: seq<PassPlan>) {
    forall k :: 0 <= k < |plans| ==> false in plans[k].budget
  }

  /** How often the budgets of all the passes say yes before they say no. */
  function AllowedInAll(plans: seq<PassPlan>): nat {
    if plans == [] then 0 else AllowedInAll(plans[..|plans| - 1]) + Allowed(plans[|plans| - 1].budget)
  }

  lemma {:induction false} AllowedStep(plans: seq<PassPlan>, k: nat)
    requires k < |plans|
    ensures AllowedInAll(plans[..k + 1]) == AllowedInAll(plans[..k]) + Allowed(plans[k].budget)
  {
    assert plans[..k + 1][..k] == plans[..k];
  }

  lemma {:induction false} AllowedPrefix(plans: seq<PassPlan>, k: nat)
    requires k <= |plans|
    ensures AllowedInAll(plans[..k]) <= AllowedInAll(plans)
    decreases |plans| - k
  {
    if k < |plans| {
      AllowedStep(plans, k);
      AllowedPrefix(plans, k + 1);
    } else {
      assert plans[..k] == plans;
    }
  }

  /** What any number of passes with so many unanswered commands may have done. */
  ghost predicate Between(w: Work, w': Work, loaded: set<Identity>, failures: nat) {
    Grew(w, w') && w'.source <= w.source + loaded && |w'.passedOver| <= |w.passedOver| + failures
  }

  lemma {:induction false} BetweenStep(w: Work, mid: Work, a: Link, failures: nat, w': Work, b: Link)
    requires Between(w, mid, a.loaded, failures) && Honest(a, mid, b, w')
    ensures Between(w, w', b.loaded, failures + a.failures)
  {
  }

  /** Which messages of the range are archived, when none was given up on since. */
  lemma {:induction false} AllArchived(w: Work, w': Work, loaded: set<Identity>, box: Box, low: nat, high: nat)
    requires HandledFrom(w', box, low, high) && Between(w, w', loaded, 0)
    ensures forall u :: u in box.mail && low <= u <= high && u !in w.passedOver ==> box.mail[u] in w'.source
  {
    assert |w'.passedOver - w.passedOver| == |w'.passedOver| - |w.passedOver|;
    assert w'.passedOver - w.passedOver == {};
    forall u | u in box.mail && low <= u <= high && u !in w.passedOver ensures box.mail[u] in w'.source {
      assert Handled(w', box, u);
    }
  }

  lemma {:induction false} SweptIsMarked(folder: Folder, box: Box)
    requires Swept(folder, box)
    ensures Marked(folder, box)
  {
  }

  lemma {:induction false} MarkedIsValid(folder: Folder, box: Box)
    requires Marked(folder, box)
    ensures ValidBox(box) && (folder.oldestSynced.Some? ==> folder.oldestSynced.value >= 1)
  {
  }

  lemma {:induction false} SweptStays(folder: Folder, a: Box, b: Box)
    requires Swept(folder, a) && ValidBox(b) && Later(a, b)
    ensures Swept(folder, b)
  {
    SweptLater(folder.oldestSynced, folder.ceiling, WorkOf(folder), a, WorkOf(folder), b);
  }

  lemma {:induction false} OnlyRefused(synced: bool, oldest: Option<nat>, selectedNext: nat, plans: seq<PassPlan>, k: nat)
    requires k < |plans| && selectedNext >= 1 && (oldest.Some? ==> oldest.value >= 1)
    ensures SearchRefused(synced, oldest, selectedNext, plans[k].script, plans[k].budget) ==> AnyRefused(plans)
  {
  }

  lemma {:induction false} NoFailureNoRefusal(plans: seq<PassPlan>)
    ensures Failures(plans) == 0 ==> !AnyRefused(plans)
  {
    if plans != [] {
      var front := plans[..|plans| - 1];
      NoFailureNoRefusal(front);
      forall k | 0 <= k < |plans| && Failures(plans) == 0 ensures !Refuses(plans[k].script) {
        if k < |front| { assert front[k] == plans[k]; }
      }
    }
  }

  /** Some SEARCH of these passes would be refused: a pass whose first command is. */
  predicate AnyRefused(plans: seq<PassPlan>) {
    exists k :: 0 <= k < |plans| && Refuses(plans[k].script)
  }

  /**
   * Any number of resumed passes, with the server free to deliver and expunge between and during them.
   * Only downloaded messages are archived, and no more UIDs are given up than downloads and writes failed.
   * With budgets that come to say no there are no more downloads than they say yes before that. A sweep of a synced folder is done once one pass meets neither a failure nor an exhausted budget. Unless a
   * SEARCH is refused the watermark never claims more than was done; and when the sweep is done, every message
   * that is still there and was there when it began had its turn. If nothing failed, each of them is archived.
   */
  method AnyPasses(s: Session, folder: Folder, plans: seq<PassPlan>) returns (done: bool)
    requires Swept(folder, s.box)
    modifies s, folder`source, folder`passedOver, folder`oldestSynced, folder`ceiling
    ensures Marked(folder, s.box) && Later(old(s.box), s.box) && Grew(old(WorkOf(folder)), WorkOf(folder))
    ensures folder.source <= old(folder.source) + s.loaded
    ensures |folder.passedOver| <= |old(folder.passedOver)| + Failures(plans)
    ensures AllLimited(plans) ==> s.downloads <= old(s.downloads) + AllowedInAll(plans)
    ensures folder.synced && plans != [] && Smooth(plans[|plans| - 1]) ==> done
    ensures old(folder.oldestSynced).Some? ==> folder.ceiling == old(folder.ceiling)
    ensures done && old(folder.oldestSynced).None? && Prompt(plans) ==> folder.ceiling + 1 >= old(s.box).uidNext
    ensures done ==> folder.synced
    ensures !AnyRefused(plans) ==> Swept(folder, s.box) && (done ==> HandledFrom(WorkOf(folder), s.box, 1, folder.ceiling))
    ensures done && Failures(plans) == 0 ==>
              forall u :: u in s.box.mail && u <= folder.ceiling && u !in old(folder.passedOver) ==> s.box.mail[u] in folder.source
  {
    hide Later, Unanswered, Failures, HandledFrom, Swept, Marked, SearchRefused, Consulted, Granted, Allowed, AllowedInAll;
    LaterSame(s.box);
    done := false;
    var k := 0;
    ghost var had, start := WorkOf(folder), s.box;
    assert plans[..0] == [];
    SweptIsMarked(folder, s.box);
    while k < |plans| && !done
      invariant k <= |plans| && Marked(folder, s.box) && Later(start, s.box)
      invariant Between(had, WorkOf(folder), s.loaded, Failures(plans[..k]))
      invariant old(folder.oldestSynced).Some? ==> folder.oldestSynced.Some? && folder.ceiling == old(folder.ceiling)
      invariant (done || folder.oldestSynced.Some?) && old(folder.oldestSynced).None? && Prompt(plans) ==> folder.ceiling + 1 >= start.uidNext
      invariant done ==> folder.synced
      invariant AllLimited(plans) ==> s.downloads <= old(s.downloads) + AllowedInAll(plans[..k])
      invariant !done || !AnyRefused(plans) ==> Swept(folder, s.box)
      invariant done && !AnyRefused(plans) ==> HandledFrom(WorkOf(folder), s.box, 1, folder.ceiling)
      invariant k > 0 && folder.synced && Smooth(plans[k - 1]) ==> done
    {
      ghost var before := s.box;
      MarkedIsValid(folder, s.box);
      ServerMovesOn(s.box, plans[k].idle);
      s.box := ServerRuns(s.box, plans[k].idle);
      s.script := plans[k].script;
      LaterTransitive(start, before, s.box);
      SweptStays(folder, before, s.box);
      ghost var selected, mid, link := s.box, WorkOf(folder), LinkOf(s);
      var next := ReportedNext(s.box, plans[k].lag);
      OnlyRefused(folder.synced, folder.oldestSynced, next, plans, k);
      ghost var asked;
      var outcome;
      outcome, asked := SweepFolderSource(s, folder, next, plans[k].budget);
      if AllLimited(plans) {
        BudgetStops(plans[k].budget, asked, outcome.budgetExhausted, link, mid, LinkOf(s), WorkOf(folder), s.box, folder.ceiling);
      }
      AllowedStep(plans, k);
      LaterTransitive(start, selected, s.box);
      BetweenStep(had, mid, link, Failures(plans[..k]), WorkOf(folder), LinkOf(s));
      FailuresStep(plans, k);
      done := outcome.done;
      k := k + 1;
    }
    FailuresPrefix(plans, k);
    AllowedPrefix(plans, k);
    if done && Failures(plans) == 0 {
      NoFailureNoRefusal(plans);
      MarkedIsValid(folder, s.box);
      AllArchived(had, WorkOf(folder), s.loaded, s.box, 1, folder.ceiling);
    }
  }
}
