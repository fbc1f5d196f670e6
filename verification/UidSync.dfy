/**
 * UID bookkeeping of a folder (imap/sync.ts, imap/resync.ts): full syncs interrupted anywhere, incremental
 * passes, and mail delivered or expunged in the middle of them never make the sync skip a message.
 */
module UidSync {
  import opened Wrappers
  import opened Imap

  const FETCH_BATCH: nat := 100

  class Folder {
    var synced: bool            // UIDVALIDITY has been stored
    var lastUid: Option<nat>
    var stored: set<Identity>

    constructor ()
      ensures !synced && lastUid == None && stored == {}
    {
      synced, lastUid, stored := false, None, {};
    }

    /** Where the next incremental pass starts. */
    function From(): nat
      reads this
    {
      if lastUid.Some? then lastUid.value else 1
    }
  }

  /** What the boundary claims is within the server's UIDs. */
  ghost predicate Sound(folder: Folder, box: Box)
    reads folder
  {
    ValidBox(box) && folder.From() <= box.uidNext && (folder.lastUid.Some? ==> folder.synced)
  }

  /** No message in the cache window is lost: each is stored, or lies where the next pass looks. */
  ghost predicate NoSkip(folder: Folder, box: Box, inWindow: Identity -> bool)
    reads folder
  {
    Sound(folder, box) && StoredBelow(folder.From(), folder.stored, box, inWindow)
  }

  /** Of an empty window nothing is lost. */
  function Nothing(): Identity -> bool {
    m => false
  }

  /** Every one of `uids` that is still on the server is stored. */
  ghost predicate AllStored(uids: seq<nat>, stored: set<Identity>, box: Box) {
    forall u :: u in uids && u in box.mail ==> box.mail[u] in stored
  }

  /** Every message of the window below `from` is stored. */
  ghost predicate StoredBelow(from: nat, stored: set<Identity>, box: Box, inWindow: Identity -> bool) {
    forall u :: u in box.mail && u < from && inWindow(box.mail[u]) ==> box.mail[u] in stored
  }

  predicate Issued(uids: seq<nat>, box: Box) {
    forall u :: u in uids ==> u < box.uidNext
  }

  lemma {:induction false} AllStoredLater(uids: seq<nat>, stored: set<Identity>, a: Box, stored': set<Identity>, b: Box)
    requires AllStored(uids, stored, a) && Issued(uids, a) && stored <= stored' && Later(a, b)
    ensures AllStored(uids, stored', b)
  {
  }

  lemma {:induction false} IssuedLater(uids: seq<nat>, a: Box, some: seq<nat>, b: Box)
    requires Issued(uids, a) && Later(a, b) && forall u :: u in some ==> u in uids
    ensures Issued(some, b)
  {
  }

  lemma {:induction false} IssuedBelow(uids: seq<nat>, box: Box, u: nat)
    requires Issued(uids, box) && u in uids
    ensures u < box.uidNext
  {
  }

  lemma {:induction false} NoneToStore(stored: set<Identity>, box: Box)
    ensures AllStored([], stored, box)
  {
  }

  lemma {:induction false} CapturedStored(uids: seq<nat>, captured: map<nat, Identity>, stored: set<Identity>, box: Box)
    requires captured == (map u | u in uids && u in box.mail :: box.mail[u]) && forall u :: u in captured ==> captured[u] in stored
    ensures AllStored(uids, stored, box)
  {
    forall u | u in uids && u in box.mail ensures box.mail[u] in stored {
      assert u in captured;
    }
  }

  lemma {:induction false} AllStoredAppend(a: seq<nat>, b: seq<nat>, stored: set<Identity>, box: Box)
    requires AllStored(a, stored, box) && AllStored(b, stored, box)
    ensures AllStored(a + b, stored, box)
  {
  }

  /** The server moving on loses nothing that was safe. */
  lemma {:induction false} NoSkipLater(folder: Folder, a: Box, b: Box, inWindow: Identity -> bool)
    requires NoSkip(folder, a, inWindow) && ValidBox(b) && Later(a, b)
    ensures NoSkip(folder, b, inWindow)
  {
  }

  /** Between the two moments only messages that a FETCH delivered were stored, and no failure came back. */
  ghost predicate Fair(a: Link, had: set<Identity>, b: Link, has: set<Identity>) {
    Onward(a, b) && had <= has <= had + b.listed
  }

  lemma {:induction false} FairStart(a: Link, had: set<Identity>)
    ensures Fair(a, had, a, had)
  {
  }

  lemma {:induction false} FairOn(a: Link, had: set<Identity>, b: Link, has: set<Identity>, c: Link, more: set<Identity>)
    requires Fair(a, had, b, has) && Fair(b, has, c, more)
    ensures Fair(a, had, c, more) && b.failures <= a.failures && has <= more
  {
  }

  /** Fetch a batch, then store what the fetch returned. The answer is false only when a fetch or a write failed. */
  method FetchAndStore(s: Session, folder: Folder, uids: seq<nat>, live: bool) returns (ok: bool)
    requires ValidBox(s.box) && Issued(uids, s.box)
    modifies s, folder`stored
    ensures ValidBox(s.box) && Later(old(s.box), s.box) && Fair(old(LinkOf(s)), old(folder.stored), LinkOf(s), folder.stored)
    ensures ok ==> AllStored(uids, folder.stored, s.box)
    ensures !ok ==> LinkOf(s).failures < old(LinkOf(s)).failures
    ensures uids == [] ==> ok && s.box == old(s.box) && folder.stored == old(folder.stored)
    ensures s.asked <= old(s.asked) + |uids|
  {
    hide Later, AllStored, Issued, ValidBox;
    LaterSame(s.box);
    NoneToStore(folder.stored, s.box);
    var i := 0;
    while i < |uids|
      invariant i <= |uids| && s.asked <= old(s.asked) + i
      invariant ValidBox(s.box) && Later(old(s.box), s.box) && Fair(old(LinkOf(s)), old(folder.stored), LinkOf(s), folder.stored)
      invariant AllStored(uids[..i], folder.stored, s.box)
      invariant uids == [] ==> s.box == old(s.box) && folder.stored == old(folder.stored)
    {
      var hi := if i + FETCH_BATCH < |uids| then i + FETCH_BATCH else |uids|;
      ghost var before, had := s.box, folder.stored;
      var captured := s.Fetch(uids[i..hi]);
      LaterTransitive(old(s.box), before, s.box);
      ghost var fetched := s.box;
      LaterSame(s.box);
      if captured.None? {
        return false;
      }
      ok := StoreCaptured(s, folder, captured.value, live);
      LaterTransitive(before, fetched, s.box);
      LaterTransitive(old(s.box), fetched, s.box);
      if !ok {
        return false;
      }
      assert forall u :: u in uids[..i] || u in uids[i..hi] ==> u in uids;
      IssuedLater(uids, old(s.box), uids[..i], before);
      IssuedLater(uids, old(s.box), uids[i..hi], fetched);
      LaterTransitive(before, fetched, s.box);
      AllStoredLater(uids[..i], had, before, folder.stored, s.box);
      CapturedStored(uids[i..hi], captured.value, folder.stored, fetched);
      AllStoredLater(uids[i..hi], folder.stored, fetched, folder.stored, s.box);
      AllStoredAppend(uids[..i], uids[i..hi], folder.stored, s.box);
      assert uids[..hi] == uids[..i] + uids[i..hi];
      i := hi;
    }
    assert uids[..|uids|] == uids;
    return true;
  }

  /**
   * Store the messages a FETCH delivered one by one. A new one first gets its body, as far as it can be had;
   * what cannot be downloaded is left out and the message is stored all the same. Only a failed write ends it.
   */
  method StoreCaptured(s: Session, folder: Folder, captured: map<nat, Identity>, live: bool) returns (ok: bool)
    requires ValidBox(s.box) && captured.Values <= s.listed
    modifies s, folder`stored
    ensures ValidBox(s.box) && Later(old(s.box), s.box) && Fair(old(LinkOf(s)), old(folder.stored), LinkOf(s), folder.stored)
    ensures s.asked == old(s.asked)
    ensures ok ==> forall u :: u in captured ==> captured[u] in folder.stored
    ensures !ok ==> LinkOf(s).failures < old(LinkOf(s)).failures
  {
    var left := captured.Keys;
    while left != {}
      invariant s.asked == old(s.asked)
      invariant left <= captured.Keys && ValidBox(s.box) && Later(old(s.box), s.box) && Fair(old(LinkOf(s)), old(folder.stored), LinkOf(s), folder.stored)
      invariant forall u :: u in captured.Keys - left ==> captured[u] in folder.stored
      decreases left
    {
      var u :| u in left;
      ghost var before := s.box;
      if captured[u] !in folder.stored {
        AcquireBody(s, captured[u], live);
        LaterTransitive(old(s.box), before, s.box);
      }
      ghost var acquired := s.box;
      ok := s.Write();
      LaterTransitive(old(s.box), acquired, s.box);
      if !ok {
        return false;
      }
      assert captured[u] in captured.Values;
      folder.stored := folder.stored + {captured[u]};
      left := left - {u};
    }
    return true;
  }

  /** The whole message on the live path, else or failing that the parts of its body one by one. What cannot be had is done without. */
  method AcquireBody(s: Session, message: Identity, live: bool)
    requires ValidBox(s.box)
    modifies s
    ensures ValidBox(s.box) && Later(old(s.box), s.box) && Onward(old(LinkOf(s)), LinkOf(s)) && s.asked == old(s.asked)
  {
    if live {
      var whole := s.Download(message);
      if whole {
        return;
      }
    }
    ghost var start := old(s.box);
    LaterSame(start);
    for k := 0 to s.parts(message)
      invariant ValidBox(s.box) && Later(start, s.box) && Onward(old(LinkOf(s)), LinkOf(s)) && s.asked == old(s.asked)
    {
      ghost var before := s.box;
      var _ := s.Download(message);
      LaterTransitive(start, before, s.box);
    }
  }

  /**
   * A full sync that has worked off the first `i` of the UIDs it searched: they are stored, the boundary
   * lies at or below the others, and what the search left out lies outside the window.
   */
  ghost predicate Resumable(folder: Folder, searched: Box, box: Box, uids: seq<nat>, i: nat, inWindow: Identity -> bool)
    requires i <= |uids|
    reads folder
  {
    && ValidBox(searched) && ValidBox(box) && Later(searched, box) && Issued(uids, searched)
    && folder.synced && folder.lastUid.Some? && folder.lastUid.value <= searched.uidNext
    && (forall u :: u in searched.mail ==> u in uids || !inWindow(searched.mail[u]))
    && AllStored(uids[..i], folder.stored, box)
    && (forall k :: i <= k < |uids| ==> folder.lastUid.value <= uids[k])
  }

  lemma {:induction false} ResumableIsSafe(folder: Folder, searched: Box, box: Box, uids: seq<nat>, i: nat, inWindow: Identity -> bool)
    requires i <= |uids| && Resumable(folder, searched, box, uids, i, inWindow)
    ensures NoSkip(folder, box, inWindow)
  {
    forall u | u in box.mail && u < folder.From() && inWindow(box.mail[u]) ensures box.mail[u] in folder.stored {
      assert u in searched.mail;
      var k :| 0 <= k < |uids| && uids[k] == u;
      assert u in uids[..i];
    }
  }

  /**
   * Fetch the searched UIDs batch by batch, advancing the boundary after each: when it is cut off, the boundary is
   * at the last of the first `i` UIDs, and no more than one batch was fetched beyond those.
   */
  method FetchWindow(s: Session, folder: Folder, uids: seq<nat>, ghost searched: Box, ghost inWindow: Identity -> bool) returns (ok: bool, ghost i: nat)
    requires Ascending(uids) && Resumable(folder, searched, s.box, uids, 0, inWindow)
    modifies s, folder`stored, folder`lastUid
    ensures NoSkip(folder, s.box, inWindow) && Later(old(s.box), s.box) && Fair(old(LinkOf(s)), old(folder.stored), LinkOf(s), folder.stored)
    ensures ok ==> Resumable(folder, searched, s.box, uids, |uids|, inWindow)
    ensures !ok ==> LinkOf(s).failures < old(LinkOf(s)).failures
    ensures uids == [] ==> ok && s.box == old(s.box) && folder.stored == old(folder.stored)
    ensures i <= |uids| && folder.lastUid == (if i > 0 then Some(uids[i - 1]) else old(folder.lastUid)) && (ok ==> i == |uids|)
    ensures s.asked <= old(s.asked) + i + if ok then 0 else FETCH_BATCH
  {
    hide Later, AllStored, Issued, ValidBox, Fair;
    LaterSame(s.box);
    ghost var link, start := LinkOf(s), folder.stored;
    FairStart(link, start);
    var k := 0;
    i := 0;
    while k < |uids|
      invariant k == i <= |uids| && folder.lastUid == (if i > 0 then Some(uids[i - 1]) else old(folder.lastUid))
      invariant s.asked <= old(s.asked) + i
      invariant uids == [] ==> s.box == old(s.box) && folder.stored == old(folder.stored)
      invariant i <= |uids| && Resumable(folder, searched, s.box, uids, i, inWindow)
      invariant Later(old(s.box), s.box) && Fair(old(LinkOf(s)), old(folder.stored), LinkOf(s), folder.stored)
    {
      var hi := if k + FETCH_BATCH < |uids| then k + FETCH_BATCH else |uids|;
      var batch := uids[k..hi];
      ghost var before, had, linked := s.box, folder.stored, LinkOf(s);
      assert forall u :: u in batch || u in uids[..i] ==> u in uids;
      IssuedLater(uids, searched, batch, s.box);
      IssuedLater(uids, searched, uids[..i], s.box);
      ok := FetchAndStore(s, folder, batch, false);
      FairOn(link, start, linked, had, LinkOf(s), folder.stored);
      LaterTransitive(searched, before, s.box);
      LaterTransitive(old(s.box), before, s.box);
      AllStoredLater(uids[..i], had, before, folder.stored, s.box);
      if !ok {
        ResumableIsSafe(folder, searched, s.box, uids, i, inWindow);
        return false, i;
      }
      AllStoredAppend(uids[..i], batch, folder.stored, s.box);
      assert uids[..hi] == uids[..k] + batch;
      var batchTop := batch[|batch| - 1];
      assert batchTop == uids[hi - 1] && batchTop in uids;
      IssuedBelow(uids, searched, batchTop);
      folder.lastUid := Some(batchTop);
      k, i := hi, hi;
    }
    ResumableIsSafe(folder, searched, s.box, uids, i, inWindow);
    return true, i;
  }

  /**
   * First sight of a folder. UIDVALIDITY and a resume floor are stored before any fetch, and the floor
   * advances batch by batch, so being cut off anywhere leaves nothing behind the floor. `selectedNext`
   * is the UIDNEXT the SELECT reported, which may be out of date by the time of the search.
   *
   * A SEARCH answered with an error is taken for an empty window: the pass ends as if all were well, with the
   * boundary at `selectedNext` and nothing fetched. That skips nothing exactly if everything of the window
   * below was stored already.
   */
  method FullSync(s: Session, folder: Folder, selectedNext: nat, inWindow: Identity -> bool) returns (ok: bool)
    requires Sound(folder, s.box) && !folder.synced && 1 <= selectedNext <= s.box.uidNext
    modifies s, folder
    ensures Sound(folder, s.box) && Later(old(s.box), s.box) && Fair(old(LinkOf(s)), old(folder.stored), LinkOf(s), folder.stored)
    ensures folder.synced <==> !Breaks(old(s.script))
    ensures ok ==> folder.synced && folder.lastUid == Some(selectedNext)
    ensures !ok ==> LinkOf(s).failures < old(LinkOf(s)).failures
    ensures !Refuses(old(s.script)) ==> NoSkip(folder, s.box, inWindow)
    ensures !Refuses(old(s.script)) && ok ==> StoredBelow(old(s.box).uidNext, folder.stored, s.box, inWindow)
    ensures Refuses(old(s.script)) ==>
              && ok && folder.stored == old(folder.stored) && s.box == Next(old(s.box), old(s.script))
              && (NoSkip(folder, s.box, inWindow) <==> StoredBelow(selectedNext, old(folder.stored), s.box, inWindow))
  {
    hide Later;
    var found := s.Search(inWindow);
    if found.None? {
      return false;
    }
    ghost var searched := s.box;
    ghost var window := if Refuses(old(s.script)) then Nothing() else inWindow;
    var uids := Sorted(found.value);
    assert forall k :: 0 <= k < |uids| ==> uids[k] in found.value;
    folder.synced := true;
    var floor: nat := (if |uids| > 0 then uids[0] else selectedNext) - 1;
    folder.lastUid := Some(floor);
    LaterSame(s.box);
    ghost var worked;
    ok, worked := FetchWindow(s, folder, uids, searched, window);
    LaterTransitive(old(s.box), searched, s.box);
    if ok {
      assert uids[..|uids|] == uids;
      folder.lastUid := Some(selectedNext);
      ResumableIsSafe(folder, searched, s.box, uids, |uids|, window);
      if !Refuses(old(s.script)) {
        AllBelow(folder, old(s.box), searched, s.box, uids, inWindow);
      }
    }
  }

  /** Everything searched is stored, so everything of the window that was there all along is. */
  lemma {:induction false} AllBelow(folder: Folder, start: Box, searched: Box, box: Box, uids: seq<nat>, inWindow: Identity -> bool)
    requires Resumable(folder, searched, box, uids, |uids|, inWindow) && Later(start, searched)
    ensures StoredBelow(start.uidNext, folder.stored, box, inWindow)
  {
    assert uids[..|uids|] == uids;
    forall u | u in box.mail && u < start.uidNext && inWindow(box.mail[u]) ensures box.mail[u] in folder.stored {
      assert u in searched.mail && u in uids;
    }
  }

  /**
   * A SEARCH that is refused while one message waits: it is below the boundary from then on, and not stored.
   */
  method RefusedSearchLosesMail(message: Identity) returns (s: Session, folder: Folder, ok: bool)
    ensures ok && folder.synced && folder.lastUid == Some(2) && folder.stored == {}
    ensures s.box == Box(map[1 := message], 2) && !NoSkip(folder, s.box, Everything())
  {
    s := new Session(Box(map[1 := message], 2), [Turn([], Refused)], m => 1);
    folder := new Folder();
    ok := FullSync(s, folder, 2, Everything());
    assert 1 in s.box.mail && s.box.mail[1] !in folder.stored;
  }

  /** The UIDs a fetch of `from:*` answers: those at or above `from`, and the last message in any case. */
  function FetchFrom(box: Box, from: nat): set<nat> {
    set u | u in box.mail && (u >= from || forall v :: v in box.mail ==> v <= u)
  }

  /** Of those, the ones the pass keeps. */
  function Incoming(box: Box, from: nat): set<nat> {
    set u | u in FetchFrom(box, from) && u >= from
  }

  lemma {:induction false} IncomingIssued(uids: seq<nat>, box: Box, from: nat)
    requires ValidBox(box) && forall u :: u in uids <==> u in Incoming(box, from)
    ensures Issued(uids, box) && forall u :: u in uids <==> u in box.mail && u >= from
  {
  }

  lemma {:induction false} NoSkipIf(folder: Folder, box: Box, inWindow: Identity -> bool)
    requires ValidBox(box) && folder.From() <= box.uidNext && folder.synced
    requires StoredBelow(folder.From(), folder.stored, box, inWindow)
    ensures NoSkip(folder, box, inWindow)
  {
  }

  lemma {:induction false} MoreStored(from: nat, had: set<Identity>, a: Box, b: Box, has: set<Identity>, inWindow: Identity -> bool)
    requires StoredBelow(from, had, a, inWindow) && Later(a, b) && had <= has && from <= a.uidNext
    ensures StoredBelow(from, has, b, inWindow) && from <= b.uidNext
  {
  }

  /** One past the highest UID fetched, and never below the boundary so far. */
  method Boundary(from: nat, uids: seq<nat>) returns (top: nat)
    ensures top >= from && forall u :: u in uids ==> u < top
    ensures top == from || (top > 0 && top - 1 in uids)
  {
    top := from;
    for k := 0 to |uids|
      invariant top >= from && (top == from || (top > 0 && top - 1 in uids))
      invariant forall j :: 0 <= j < k ==> uids[j] < top
    {
      top := if uids[k] + 1 > top then uids[k] + 1 else top;
    }
  }

  /** With everything below `from` stored before and everything from there on stored now, nothing is missing below the new boundary. */
  lemma {:induction false} CaughtUp(from: nat, had: set<Identity>, start: Box, fetched: Box, uids: seq<nat>, has: set<Identity>, now: Box, top: nat, inWindow: Identity -> bool)
    requires ValidBox(fetched) && Later(start, fetched) && Later(fetched, now) && had <= has
    requires StoredBelow(from, had, start, inWindow) && from <= start.uidNext && AllStored(uids, has, now)
    requires forall u :: u in uids <==> u in fetched.mail && u >= from
    requires top == from || (top > 0 && top - 1 in uids)
    ensures top <= now.uidNext && StoredBelow(top, has, now, inWindow)
    ensures StoredBelow(start.uidNext, has, now, inWindow)
  {
    forall u | u in now.mail && (u < top || u < start.uidNext) && inWindow(now.mail[u]) ensures now.mail[u] in has {
      assert u < fetched.uidNext && u in fetched.mail;
      if u >= from {
        assert u in uids;
      } else {
        assert u in start.mail;
      }
    }
  }

  /** An incremental pass: new mail from the stored boundary on, then the expunge scan, then the boundary. */
  method Incremental(s: Session, folder: Folder, ghost inWindow: Identity -> bool) returns (ok: bool)
    requires NoSkip(folder, s.box, inWindow) && folder.synced
    modifies s, folder`stored, folder`lastUid
    ensures NoSkip(folder, s.box, inWindow) && Later(old(s.box), s.box) && Fair(old(LinkOf(s)), old(folder.stored), LinkOf(s), folder.stored)
    ensures folder.From() >= old(folder.From()) && (!ok ==> folder.lastUid == old(folder.lastUid))
    ensures ok ==> forall u :: u in old(s.box).mail && u in s.box.mail ==> u < folder.From()
    ensures ok ==> StoredBelow(old(s.box).uidNext, folder.stored, s.box, inWindow)
    ensures !ok ==> LinkOf(s).failures < old(LinkOf(s)).failures
  {
    hide Later, AllStored, ValidBox, NoSkip, StoredBelow, FetchFrom, Issued;
    var from := folder.From();
    ghost var start, had := s.box, folder.stored;
    NoSkipMeans(folder, s.box, inWindow);
    var answered := s.Command();
    NoSkipLater(folder, start, s.box, inWindow);
    if !answered {
      return false;
    }
    ghost var fetched := s.box;
    var incoming := Incoming(s.box, from);
    var newUids := Sorted(incoming);
    IncomingIssued(newUids, s.box, from);
    ok := FetchAndStore(s, folder, newUids, true);
    LaterTransitive(start, fetched, s.box);
    MoreStored(from, had, start, s.box, folder.stored, inWindow);
    NoSkipIf(folder, s.box, inWindow);
    if !ok {
      return false;
    }
    ghost var before := s.box;
    IssuedLater(newUids, fetched, newUids, before);
    answered := s.Command(); // the expunge scan
    LaterTransitive(start, before, s.box);
    LaterTransitive(fetched, before, s.box);
    NoSkipLater(folder, before, s.box, inWindow);
    if !answered {
      return false;
    }
    AllStoredLater(newUids, folder.stored, before, folder.stored, s.box);
    var top := Boundary(from, newUids);
    CaughtUp(from, had, start, fetched, newUids, folder.stored, s.box, top, inWindow);
    folder.lastUid := Some(top);
    NoSkipIf(folder, s.box, inWindow);
    return true;
  }

  /** Of a sound state nothing is lost of an empty window. */
  lemma {:induction false} SoundKeepsNothing(folder: Folder, box: Box)
    requires Sound(folder, box)
    ensures NoSkip(folder, box, Nothing())
  {
  }

  lemma {:induction false} NoSkipMeans(folder: Folder, box: Box, inWindow: Identity -> bool)
    requires NoSkip(folder, box, inWindow)
    ensures Sound(folder, box) && ValidBox(box) && folder.From() <= box.uidNext && StoredBelow(folder.From(), folder.stored, box, inWindow)
  {
  }

  /** The pass is a first one and its SEARCH is refused. */
  predicate SearchRefused(synced: bool, script: seq<Turn>) {
    !synced && Refuses(script)
  }

  /**
   * One pass over the folder: a full sync the first time, an incremental pass from then on. Unless its SEARCH
   * is refused nothing is skipped, and unless a fetch or a write fails, every message of the window that was
   * there and still is has been stored.
   */
  method ResyncFolder(s: Session, folder: Folder, selectedNext: nat, inWindow: Identity -> bool) returns (ok: bool)
    requires Sound(folder, s.box) && 1 <= selectedNext <= s.box.uidNext
    modifies s, folder
    ensures Sound(folder, s.box) && Later(old(s.box), s.box) && Fair(old(LinkOf(s)), old(folder.stored), LinkOf(s), folder.stored)
    ensures folder.synced <==> old(folder.synced) || !Breaks(old(s.script))
    ensures !ok ==> LinkOf(s).failures < old(LinkOf(s)).failures
    ensures old(NoSkip(folder, s.box, inWindow)) && !SearchRefused(old(folder.synced), old(s.script)) ==>
              NoSkip(folder, s.box, inWindow) && (ok ==> StoredBelow(old(s.box).uidNext, folder.stored, s.box, inWindow))
    ensures SearchRefused(old(folder.synced), old(s.script)) ==>
              ok && (NoSkip(folder, s.box, inWindow) <==> StoredBelow(selectedNext, old(folder.stored), s.box, inWindow))
  {
    if !folder.synced {
      ok := FullSync(s, folder, selectedNext, inWindow);
    } else {
      SoundKeepsNothing(folder, s.box);
      ghost var window := if NoSkip(folder, s.box, inWindow) then inWindow else Nothing();
      ok := Incremental(s, folder, window);
      NoSkipMeans(folder, s.box, window);
    }
  }

  /** What a pass may find: the server as it has become, a UIDNEXT reported `lag` behind it, and a script for the connection. */
  datatype PassPlan = PassPlan(idle: seq<ServerStep>, lag: nat, script: seq<Turn>)

  /** The first SEARCH that comes back at all is refused. */
  predicate RunRefused(synced: bool, plans: seq<PassPlan>)
    decreases |plans|
  {
    !synced && plans != [] && (if Breaks(plans[0].script) then RunRefused(false, plans[1..]) else Refuses(plans[0].script))
  }

  /**
   * Any number of passes over one folder, each cut off wherever its script says, with the server free to
   * deliver and expunge at every command and between passes. Nothing is stored that no FETCH delivered, and
   * the boundary never passes the server's UIDNEXT. Unless the one SEARCH of the run is refused, no message of
   * the window is ever skipped; and whatever happened to the passes before, after one that no failed fetch or
   * write cuts off every message of the window that was there all along is stored.
   */
  method AnyPasses(s: Session, folder: Folder, plans: seq<PassPlan>, inWindow: Identity -> bool) returns (caughtUp: bool)
    requires NoSkip(folder, s.box, inWindow)
    modifies s, folder
    ensures Sound(folder, s.box) && Later(old(s.box), s.box)
    ensures old(folder.stored) <= folder.stored <= old(folder.stored) + s.listed
    ensures !RunRefused(old(folder.synced), plans) ==>
              NoSkip(folder, s.box, inWindow) && (caughtUp ==> StoredBelow(old(s.box).uidNext, folder.stored, s.box, inWindow))
    ensures plans != [] && Unanswered(plans[|plans| - 1].script) == 0 ==> caughtUp
  {
    hide Later, NoSkip, Sound, StoredBelow, Unanswered;
    LaterSame(s.box);
    caughtUp := false;
    ghost var start, synced, refused := s.box, folder.synced, false;
    NoSkipMeans(folder, s.box, inWindow);
    assert plans[0..] == plans;
    for k := 0 to |plans|
      invariant Sound(folder, s.box) && Later(start, s.box)
      invariant old(folder.stored) <= folder.stored <= old(folder.stored) + s.listed
      invariant RunRefused(synced, plans) <==> refused || RunRefused(folder.synced, plans[k..])
      invariant !refused ==> NoSkip(folder, s.box, inWindow) && (caughtUp ==> StoredBelow(start.uidNext, folder.stored, s.box, inWindow))
      invariant k > 0 && Unanswered(plans[k - 1].script) == 0 ==> caughtUp
    {
      ghost var before := s.box;
      SoundIsValid(folder, s.box);
      ServerMovesOn(s.box, plans[k].idle);
      s.box := ServerRuns(s.box, plans[k].idle);
      s.script := plans[k].script;
      LaterTransitive(start, before, s.box);
      SoundLater(folder, before, s.box);
      if !refused { NoSkipLater(folder, before, s.box, inWindow); }
      ghost var selected := s.box;
      assert plans[k..][0] == plans[k] && plans[k..][1..] == plans[k + 1..];
      refused := refused || SearchRefused(folder.synced, s.script);
      caughtUp := ResyncFolder(s, folder, ReportedNext(s.box, plans[k].lag), inWindow);
      LaterTransitive(start, selected, s.box);
      if caughtUp && !refused { StoredBelowLess(start, selected, folder.stored, s.box, inWindow); }
    }
    assert plans[|plans|..] == [];
  }

  lemma {:induction false} SoundIsValid(folder: Folder, box: Box)
    requires Sound(folder, box)
    ensures ValidBox(box)
  {
  }

  lemma {:induction false} SoundLater(folder: Folder, a: Box, b: Box)
    requires Sound(folder, a) && ValidBox(b) && Later(a, b)
    ensures Sound(folder, b)
  {
  }

  lemma {:induction false} StoredBelowLess(start: Box, selected: Box, stored: set<Identity>, box: Box, inWindow: Identity -> bool)
    requires Later(start, selected) && StoredBelow(selected.uidNext, stored, box, inWindow)
    ensures StoredBelow(start.uidNext, stored, box, inWindow)
  {
  }
}
