/**
 * The billing export feed (pipeline/billing-export.ts): a consumer pages over ledger rows in the order
 * of `(updated_at, id)` behind a settle window, while rows are committed and re-stamped under it.
 */
module Billing {
  import opened Wrappers

  const SETTLE_MS: int := 5000

  /** A position in the feed: a stamp and the ledger row id. */
  datatype Key = Key(at: int, id: nat)

  /** A ledger row. It is `listed` while it is a current invoice row of an unpurged message. */
  datatype Row = Row(at: int, listed: bool, readable: bool)

  type Table = map<nat, Row>

  predicate Less(a: Key, b: Key) {
    a.at < b.at || (a.at == b.at && a.id < b.id)
  }

  predicate Past(after: Option<Key>, k: Key) {
    after.None? || Less(after.value, k)
  }

  predicate Ordered(s: seq<Key>) {
    forall i, j :: 0 <= i < j < |s| ==> Less(s[i], s[j])
  }

  /** What a page may list: settled listed rows past the cursor. */
  function Candidates(t: Table, after: Option<Key>, settledBefore: int): set<Key> {
    set id | id in t && t[id].listed && t[id].at <= settledBefore && Past(after, Key(t[id].at, id)) :: Key(t[id].at, id)
  }

  /** A page in order: the candidates below every candidate it leaves out. */
  ghost predicate IsPage(t: Table, after: Option<Key>, settledBefore: int, limit: nat, page: seq<Key>, hasMore: bool) {
    var all := Candidates(t, after, settledBefore);
    && Ordered(page) && |page| <= limit
    && (forall k :: k in page ==> k in all)
    && (forall k :: k in all && k !in page ==> hasMore && |page| == limit && forall p :: p in page ==> Less(p, k))
    && (hasMore ==> exists k :: k in all && k !in page)
  }

  /** Which rows a page holds, said of the ledger: settled ones past the cursor that are listed, all of them up to its last. */
  lemma {:induction false} PageRows(t: Table, after: Option<Key>, settledBefore: int, limit: nat, page: seq<Key>, hasMore: bool, k: Key)
    requires IsPage(t, after, settledBefore, limit, page, hasMore)
    ensures k in page ==> k.id in t && t[k.id].listed && t[k.id].at == k.at <= settledBefore && Past(after, k)
    ensures k.id in t && t[k.id].listed && t[k.id].at == k.at <= settledBefore && Past(after, k) ==>
              k in page || (hasMore && |page| == limit && forall p :: p in page ==> Less(p, k))
  {
    assert k in page ==> k in Candidates(t, after, settledBefore);
    if k.id in t && t[k.id].listed && t[k.id].at == k.at <= settledBefore && Past(after, k) {
      assert Key(t[k.id].at, k.id) == k;
      assert k in Candidates(t, after, settledBefore);
    }
  }

  /** The items of a page are exactly its readable rows, in its order. */
  lemma {:induction false} ItemsExactly(t: Table, page: seq<Key>, k: Key)
    ensures k in Readable(t, page) <==> k in page && k.id in t && t[k.id].readable
    ensures Ordered(page) ==> Ordered(Readable(t, page))
  {
    if page != [] {
      var front := page[..|page| - 1];
      ItemsExactly(t, front, k);
      assert page == front + [page[|page| - 1]];
      forall i | 0 <= i < |Readable(t, front)| ensures Readable(t, front)[i] in front {
        ItemsExactly(t, front, Readable(t, front)[i]);
      }
    }
  }

  method LeastKey(ks: set<Key>) returns (least: Key)
    requires ks != {}
    ensures least in ks && forall k :: k in ks && k != least ==> Less(least, k)
  {
    least :| least in ks;
    var left := ks - {least};
    while left != {}
      invariant left <= ks && least in ks
      invariant forall k :: k in ks && k !in left && k != least ==> Less(least, k)
      decreases left
    {
      var k :| k in left;
      if Less(k, least) {
        least := k;
      }
      left := left - {k};
    }
  }

  /** Rows in key order, at most `n` of them. */
  method SelectOrdered(all: set<Key>, n: nat) returns (rows: seq<Key>, ghost left: set<Key>)
    ensures Ordered(rows) && |rows| <= n && left <= all
    ensures forall k :: k in all <==> k in rows || k in left
    ensures forall k :: k in left ==> k !in rows
    ensures forall r, k :: r in rows && k in left ==> Less(r, k)
    ensures left != {} ==> |rows| == n
  {
    rows := [];
    var rest := all;
    while rest != {} && |rows| < n
      invariant Ordered(rows) && |rows| <= n && rest <= all
      invariant forall k :: k in all <==> k in rows || k in rest
      invariant forall k :: k in rest ==> k !in rows
      invariant forall r, k :: r in rows && k in rest ==> Less(r, k)
      decreases rest
    {
      var k := LeastKey(rest);
      assert forall i :: 0 <= i < |rows| ==> rows[i] in rows;
      rows := rows + [k];
      rest := rest - {k};
    }
    left := rest;
  }

  /** One row more than the limit is read to know whether there is more. */
  method TakePage(all: set<Key>, limit: nat) returns (page: seq<Key>, hasMore: bool)
    ensures Ordered(page) && |page| <= limit && forall k :: k in page ==> k in all
    ensures forall k :: k in all && k !in page ==> hasMore && |page| == limit && forall p :: p in page ==> Less(p, k)
    ensures hasMore ==> exists k :: k in all && k !in page
  {
    ghost var left;
    page, left := SelectOrdered(all, limit + 1);
    hasMore := |page| > limit;
    if hasMore {
      var extra := page[limit];
      assert extra in page;
      assert page == page[..limit] + [extra];
      page := page[..limit];
      forall p | p in page ensures Less(p, extra) {
        var i :| 0 <= i < |page| && page[i] == p;
      }
      assert extra !in page;
    }
  }

  /** The answer for one scanned page: its readable rows, and a cursor past all of them. */
  predicate Answers(t: Table, after: Option<Key>, page: seq<Key>, items: seq<Key>, cursor: Option<Key>) {
    items == Readable(t, page) && cursor == if |page| == 0 then after else Some(page[|page| - 1])
  }

  /** The cursor moves past every scanned row, also one whose facts cannot be read, which is left out of the items. */
  method BillingExportPage(t: Table, after: Option<Key>, limit: nat, now: int)
    returns (items: seq<Key>, cursor: Option<Key>, hasMore: bool)
    ensures exists page :: IsPage(t, after, now - SETTLE_MS, limit, page, hasMore) && Answers(t, after, page, items, cursor)
  {
    var scanned;
    scanned, hasMore := TakePage(Candidates(t, after, now - SETTLE_MS), limit);
    items := [];
    cursor := after;
    for i := 0 to |scanned|
      invariant cursor == if i == 0 then after else Some(scanned[i - 1])
      invariant items == Readable(t, scanned[..i])
    {
      var row := scanned[i];
      assert row in scanned;
      assert scanned[..i + 1][..i] == scanned[..i];
      cursor := Some(row);
      if t[row.id].readable {
        items := items + [row];
      }
    }
    assert scanned[..|scanned|] == scanned;
    assert IsPage(t, after, now - SETTLE_MS, limit, scanned, hasMore) && Answers(t, after, scanned, items, cursor);
  }

  function Readable(t: Table, page: seq<Key>): seq<Key> {
    if page == [] then []
    else
      var k := page[|page| - 1];
      Readable(t, page[..|page| - 1]) + if k.id in t && t[k.id].readable then [k] else []
  }

  // ---- a consumer following the feed ----

  /** The clock, the ledger, the consumer's cursor and every row it has scanned. */
  datatype Feed = Feed(now: int, table: Table, cursor: Option<Key>, scanned: seq<Key>)

  datatype Event =
    | Tick(ms: nat)
    | Commit(id: nat, row: Row)
    | Unlist(id: nat)
    | Read(limit: nat, page: seq<Key>, hasMore: bool)

  /** A read happens with whatever page the feed answers; the others are the pipeline's doing. */
  ghost predicate Possible(f: Feed, e: Event) {
    e.Read? ==> IsPage(f.table, f.cursor, f.now - SETTLE_MS, e.limit, e.page, e.hasMore)
  }

  function Step(f: Feed, e: Event): Feed {
    match e
    case Tick(ms) => f.(now := f.now + ms)
    case Commit(id, row) => f.(table := f.table[id := row])
    case Unlist(id) => if id in f.table then f.(table := f.table[id := f.table[id].(listed := false)]) else f
    case Read(_, page, _) => f.(cursor := if page == [] then f.cursor else Some(page[|page| - 1]), scanned := f.scanned + page)
  }

  /** The row's stamp was taken less than the settle window before it is committed. */
  predicate Prompt(f: Feed, e: Event) {
    e.Commit? ==> f.now - e.row.at < SETTLE_MS
  }

  ghost predicate Legal(f: Feed, es: seq<Event>)
    decreases |es|
  {
    es == [] || (Possible(f, es[0]) && Prompt(f, es[0]) && Legal(Step(f, es[0]), es[1..]))
  }

  function Run(f: Feed, es: seq<Event>): Feed
    decreases |es|
  {
    if es == [] then f else Run(Step(f, es[0]), es[1..])
  }

  /** Nothing listed lies behind the cursor unscanned, and the scan is in strict key order up to the cursor. */
  ghost predicate Lossless(f: Feed) {
    && Ordered(f.scanned)
    && (f.cursor.Some? ==> f.cursor.value.at <= f.now - SETTLE_MS)
    && (f.scanned == [] || f.cursor == Some(f.scanned[|f.scanned| - 1]))
    && (forall id :: id in f.table && f.table[id].listed && !Past(f.cursor, Key(f.table[id].at, id)) ==>
          Key(f.table[id].at, id) in f.scanned)
  }

  ghost predicate NotBefore(a: Option<Key>, b: Option<Key>) {
    a.None? || (b.Some? && (a == b || Less(a.value, b.value)))
  }

  /** One step: the feed stays lossless, the cursor never moves back, and nothing scanned is unscanned. */
  lemma {:induction false} StepKeeps(f: Feed, e: Event)
    requires Lossless(f) && Possible(f, e) && Prompt(f, e)
    ensures Lossless(Step(f, e)) && NotBefore(f.cursor, Step(f, e).cursor) && f.scanned <= Step(f, e).scanned
  {
    if e.Read? {
      ReadKeeps(f, e.limit, e.page, e.hasMore);
    }
  }

  lemma {:induction false} ReadKeeps(f: Feed, limit: nat, page: seq<Key>, hasMore: bool)
    requires Lossless(f) && Possible(f, Read(limit, page, hasMore))
    ensures var g := Step(f, Read(limit, page, hasMore)); Lossless(g) && NotBefore(f.cursor, g.cursor)
  {
    var g := Step(f, Read(limit, page, hasMore));
    forall i | 0 <= i < |page| ensures Past(f.cursor, page[i]) && page[i].at <= f.now - SETTLE_MS {
      assert page[i] in Candidates(f.table, f.cursor, f.now - SETTLE_MS);
    }
    if page != [] {
      assert page[|page| - 1] in page;
      forall id | id in g.table && g.table[id].listed && !Past(g.cursor, Key(g.table[id].at, id))
        ensures Key(g.table[id].at, id) in g.scanned
      {
        var k := Key(g.table[id].at, id);
        assert Past(f.cursor, k) ==> k in Candidates(f.table, f.cursor, f.now - SETTLE_MS);
      }
    }
  }

  /**
   * Over any interleaving of commits, re-stamps, withdrawals and reads in which every row is committed
   * promptly: the cursor only moves forward, no listed row is ever behind it unscanned, and what was
   * scanned is in strict order - so each version of a row at most once.
   */
  lemma {:induction false} FollowingLosesNothing(f: Feed, es: seq<Event>)
    requires Lossless(f) && Legal(f, es)
    ensures Lossless(Run(f, es)) && NotBefore(f.cursor, Run(f, es).cursor) && f.scanned <= Run(f, es).scanned
    decreases |es|
  {
    if es != [] {
      StepKeeps(f, es[0]);
      FollowingLosesNothing(Step(f, es[0]), es[1..]);
    }
  }

  /** Having read to the end, the consumer has every settled listed row. */
  lemma {:induction false} DrainedHasEverything(f: Feed, limit: nat, page: seq<Key>, id: nat)
    requires Lossless(f) && Possible(f, Read(limit, page, false))
    requires id in f.table && f.table[id].listed && f.table[id].at <= f.now - SETTLE_MS
    ensures Key(f.table[id].at, id) in Step(f, Read(limit, page, false)).scanned
  {
    var k := Key(f.table[id].at, id);
    if Past(f.cursor, k) {
      assert k in Candidates(f.table, f.cursor, f.now - SETTLE_MS);
    }
  }

  /** A page that is not the last brings at least one new row, so reading on gets to the end. */
  lemma {:induction false} MoreMeansProgress(f: Feed, page: seq<Key>, limit: nat)
    requires limit > 0 && IsPage(f.table, f.cursor, f.now - SETTLE_MS, limit, page, true)
    ensures |page| == limit && Candidates(f.table, Step(f, Read(limit, page, true)).cursor, f.now - SETTLE_MS) < Candidates(f.table, f.cursor, f.now - SETTLE_MS)
  {
    var all := Candidates(f.table, f.cursor, f.now - SETTLE_MS);
    var g := Step(f, Read(limit, page, true));
    var k :| k in all && k !in page;
    var last := page[|page| - 1];
    assert last in page && last in all;
    forall c | c in Candidates(f.table, g.cursor, f.now - SETTLE_MS) ensures c in all {
      assert Less(last, c);
    }
    assert last !in Candidates(f.table, g.cursor, f.now - SETTLE_MS);
  }

  /** What lies behind the cursor unscanned is never scanned later. */
  lemma {:induction false} BehindStaysBehind(f: Feed, es: seq<Event>, k: Key)
    requires Lossless(f) && Legal(f, es) && !Past(f.cursor, k) && k !in f.scanned
    ensures k !in Run(f, es).scanned
    decreases |es|
  {
    if es != [] {
      StepKeeps(f, es[0]);
      if es[0].Read? {
        forall i | 0 <= i < |es[0].page| ensures es[0].page[i] != k {
          assert es[0].page[i] in es[0].page;
        }
      }
      BehindStaysBehind(Step(f, es[0]), es[1..], k);
    }
  }

  /** One row is committed, settles, and is read to the end of the feed. */
  function OneRowRead(): seq<Event> {
    [Commit(5, Row(0, true, true)), Tick(SETTLE_MS as nat), Read(1, [Key(0, 5)], false)]
  }

  lemma {:induction false} OneRowReadIsLegal()
    ensures Legal(Feed(0, map[], None, []), OneRowRead())
    ensures Run(Feed(0, map[], None, []), OneRowRead()) == Feed(SETTLE_MS, map[5 := Row(0, true, true)], Some(Key(0, 5)), [Key(0, 5)])
  {
    var es, f0 := OneRowRead(), Feed(0, map[], None, []);
    var f1 := Step(f0, es[0]);
    var f2 := Step(f1, es[1]);
    assert f2.table == map[5 := Row(0, true, true)] && f2.now == SETTLE_MS;
    assert 5 in f2.table && Key(f2.table[5].at, 5) in Candidates(f2.table, f2.cursor, f2.now - SETTLE_MS);
    assert Possible(f2, es[2]);
    assert es[1..] == [es[1], es[2]] && es[1..][1..] == [es[2]] && [es[2]][1..] == [];
    assert Legal(f2, [es[2]]) && Legal(f1, [es[1], es[2]]);
    assert Run(f2, [es[2]]) == Step(f2, es[2]);
    assert Run(f1, [es[1], es[2]]) == Run(f2, [es[2]]);
  }

  /**
   * The settle window is exactly what is needed: for every lag that reaches it, a row committed with
   * that lag after this legal history lies behind the cursor, unscanned.
   */
  lemma {:induction false} LateCommitIsLost(lag: int)
    requires lag >= SETTLE_MS
    ensures var f := Run(Feed(0, map[], None, []), OneRowRead());
            var late := Row(f.now - lag, true, true);
            var g := Step(f, Commit(3, late));
            && 3 in g.table && g.table[3].listed
            && !Past(g.cursor, Key(late.at, 3)) && Key(late.at, 3) !in g.scanned && !Lossless(g)
  {
    OneRowReadIsLegal();
    var f := Run(Feed(0, map[], None, []), OneRowRead());
    var g := Step(f, Commit(3, Row(f.now - lag, true, true)));
    assert g.table[3] == Row(SETTLE_MS - lag, true, true);
  }
}
