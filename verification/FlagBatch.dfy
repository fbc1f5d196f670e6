/**
 * Claimed flags rows executed as batched STOREs (outbox/runner.ts, executeFlags): one STORE per
 * account, folder, flag and value. The batch is proved to do what the rows one by one would do.
 */
module FlagBatch {
  import opened Wrappers
  import opened Intents

  /** A claimed flags row; `change` is absent when its payload does not parse. */
  datatype DueRow = DueRow(id: nat, account: string, messageId: MessageId, change: Option<FlagsPayload>)

  /** A server copy: mailbox path and UID. Messages without one are absent from a placement. */
  datatype Place = Place(path: string, uid: nat)

  /** One flag of one server copy. */
  datatype Cell = Cell(account: string, path: string, uid: nat, flag: FlagName)

  /** One STORE command, up to its UID set. */
  datatype Store = Store(account: string, path: string, flag: FlagName, value: bool)

  type Server = map<Cell, bool>
  type Placement = map<MessageId, Place>

  /** The message and flag a final value is kept for. */
  datatype Key = Key(account: string, messageId: MessageId, flag: FlagName)

  datatype Final = Final(value: bool, path: string, uid: nat, rowIds: seq<nat>)

  datatype Group = Group(uids: set<nat>, rowIds: set<nat>)

  /** The row has a server copy and changes flag `f`. */
  predicate Sets(row: DueRow, at: Placement, f: FlagName) {
    row.change.Some? && row.messageId in at && f in row.change.value.values
  }

  function CellOf(row: DueRow, at: Placement, f: FlagName): Cell
    requires Sets(row, at, f)
  {
    Cell(row.account, at[row.messageId].path, at[row.messageId].uid, f)
  }

  predicate Writes(row: DueRow, at: Placement, c: Cell) {
    Sets(row, at, c.flag) && CellOf(row, at, c.flag) == c
  }

  // ---- one by one ----

  /** One row's own STOREs: a STORE changes only copies the server has. */
  function StoreRow(server: Server, row: DueRow, at: Placement): Server {
    map c | c in server :: if Writes(row, at, c) then row.change.value.values[c.flag] else server[c]
  }

  /** The first `n` rows, each sent on its own, in order. */
  function OneByOne(server: Server, rows: seq<DueRow>, at: Placement, n: nat): (r: Server)
    requires n <= |rows|
    ensures r.Keys == server.Keys
  {
    if n == 0 then server else StoreRow(OneByOne(server, rows, at, n - 1), rows[n - 1], at)
  }

  /** The value the last writer of a cell wants, if anyone writes it. */
  function LastValue(rows: seq<DueRow>, at: Placement, c: Cell, n: nat): Option<bool>
    requires n <= |rows|
  {
    if n == 0 then None
    else if Writes(rows[n - 1], at, c) then Some(rows[n - 1].change.value.values[c.flag])
    else LastValue(rows, at, c, n - 1)
  }

  /** One by one, the last writer of a cell decides it. */
  lemma {:induction false} OneByOneValue(server: Server, rows: seq<DueRow>, at: Placement, c: Cell, n: nat)
    requires n <= |rows| && c in server
    ensures OneByOne(server, rows, at, n)[c] ==
            if LastValue(rows, at, c, n).Some? then LastValue(rows, at, c, n).value else server[c]
  {
    if n > 0 {
      OneByOneValue(server, rows, at, c, n - 1);
    }
  }

  /**
   * What one row sends: for every flag it names, and only for those, the value it names, to the copy of its message
   * in the row's account; a row whose payload does not parse, or whose message has no copy, sends nothing.
   */
  lemma {:induction false} OneRowSent(server: Server, row: DueRow, at: Placement, c: Cell)
    requires c in server
    ensures var after := StoreRow(server, row, at)[c];
            if row.change.Some? && row.messageId in at && c.account == row.account && c.path == at[row.messageId].path
               && c.uid == at[row.messageId].uid && c.flag in row.change.value.values
            then after == row.change.value.values[c.flag] else after == server[c]
  {
  }

  // ---- the batch ----

  /** A folder and UID name one message: no two messages of these rows share a server copy. */
  ghost predicate OneMessagePerPlace(rows: seq<DueRow>, at: Placement) {
    forall i, j | 0 <= i < |rows| && 0 <= j < |rows| && rows[i].account == rows[j].account ::
      rows[i].messageId in at && rows[j].messageId in at && at[rows[i].messageId] == at[rows[j].messageId] ==>
        rows[i].messageId == rows[j].messageId
  }

  /** The final value of a key after one more row. */
  function After(prior: Option<Final>, row: DueRow, at: Placement, key: Key): Option<Final> {
    if Key(row.account, row.messageId, key.flag) == key && Sets(row, at, key.flag) then
      Some(Final(row.change.value.values[key.flag], at[row.messageId].path, at[row.messageId].uid,
                 (if prior.Some? then prior.value.rowIds else []) + [row.id]))
    else prior
  }

  /** What the first `n` rows leave as the final value of a key, with every row that touched it. */
  function FinalOf(rows: seq<DueRow>, at: Placement, key: Key, n: nat): Option<Final>
    requires n <= |rows|
  {
    if n == 0 then None else After(FinalOf(rows, at, key, n - 1), rows[n - 1], at, key)
  }

  function Look(finals: map<Key, Final>, key: Key): Option<Final> {
    if key in finals then Some(finals[key]) else None
  }

  ghost predicate Agrees(finals: map<Key, Final>, key: Key, final: Option<Final>) {
    Look(finals, key) == final
  }

  function StoreOf(key: Key, fin: Final): Store {
    Store(key.account, fin.path, key.flag, fin.value)
  }

  /** The STORE a row's change to `f` ends up in: that of the last value for its cell. */
  function StoreFor(rows: seq<DueRow>, at: Placement, c: Cell): Option<Store> {
    var v := LastValue(rows, at, c, |rows|);
    if v.None? then None else Some(Store(c.account, c.path, c.flag, v.value))
  }

  /** The row touched a cell whose STORE failed - even if a later row's value was the one sent. */
  predicate Contributed(rows: seq<DueRow>, at: Placement, answer: Store -> bool, row: DueRow) {
    exists f :: Sets(row, at, f) && StoreFor(rows, at, CellOf(row, at, f)).Some?
                && !answer(StoreFor(rows, at, CellOf(row, at, f)).value)
  }

  /** A row fails if the STORE that carries the last value for one of its flags fails, and one that sends nothing does not fail. */
  lemma {:induction false} FailsExactly(rows: seq<DueRow>, at: Placement, answer: Store -> bool, r: nat)
    requires r < |rows|
    ensures rows[r].change.None? || rows[r].messageId !in at ==> !Contributed(rows, at, answer, rows[r])
    ensures rows[r].change.Some? && rows[r].messageId in at ==>
              var place, values := at[rows[r].messageId], rows[r].change.value.values;
              (Contributed(rows, at, answer, rows[r]) <==>
                 exists f :: f in values && LastFails(rows, at, answer, Cell(rows[r].account, place.path, place.uid, f)))
  {
    var row := rows[r];
    if row.change.Some? && row.messageId in at {
      var place, values := at[row.messageId], row.change.value.values;
      forall f ensures f in values <==> Sets(row, at, f) {
      }
      if Contributed(rows, at, answer, row) {
        var f :| Sets(row, at, f) && StoreFor(rows, at, CellOf(row, at, f)).Some? && !answer(StoreFor(rows, at, CellOf(row, at, f)).value);
        assert LastFails(rows, at, answer, Cell(row.account, place.path, place.uid, f));
      }
      if f :| f in values && LastFails(rows, at, answer, Cell(row.account, place.path, place.uid, f)) {
        assert CellOf(row, at, f) == Cell(row.account, place.path, place.uid, f);
      }
    }
  }

  /** The STORE with the cell's last value goes unanswered. */
  predicate LastFails(rows: seq<DueRow>, at: Placement, answer: Store -> bool, c: Cell) {
    var v := LastValue(rows, at, c, |rows|);
    v.Some? && !answer(Store(c.account, c.path, c.flag, v.value))
  }

  method CollectFinals(rows: seq<DueRow>, at: Placement) returns (finals: map<Key, Final>)
    ensures forall key :: Agrees(finals, key, FinalOf(rows, at, key, |rows|))
  {
    finals := map[];
    for i := 0 to |rows|
      invariant forall key :: Agrees(finals, key, FinalOf(rows, at, key, i))
    {
      ghost var before := finals;
      finals := CollectRow(finals, rows[i], at);
      NextFinals(rows, at, before, finals, i, i + 1);
    }
  }

  lemma {:induction false} NextFinals(rows: seq<DueRow>, at: Placement, before: map<Key, Final>, finals: map<Key, Final>, i: nat, n: nat)
    requires i < n == i + 1 <= |rows|
    requires forall key :: Agrees(before, key, FinalOf(rows, at, key, i))
    requires forall key :: Look(finals, key) == After(Look(before, key), rows[i], at, key)
    ensures forall key :: Agrees(finals, key, FinalOf(rows, at, key, n))
  {
    hide After, Look;
    forall key ensures Agrees(finals, key, FinalOf(rows, at, key, n)) {
      assert Agrees(before, key, FinalOf(rows, at, key, i));
    }
  }

  /** One row's part of the loop: its flags one after the other. */
  method CollectRow(was: map<Key, Final>, row: DueRow, at: Placement) returns (finals: map<Key, Final>)
    ensures forall key :: Look(finals, key) == After(Look(was, key), row, at, key)
  {
    finals := was;
    if row.change.Some? && row.messageId in at {
      var p, loc := row.change.value, at[row.messageId];
      for k := 0 to |FLAG_NAMES|
        invariant forall key: Key :: key.flag in FLAG_NAMES[..k] ==> Look(finals, key) == After(Look(was, key), row, at, key)
        invariant forall key: Key :: key.flag !in FLAG_NAMES[..k] ==> Look(finals, key) == Look(was, key)
      {
        var f := FLAG_NAMES[k];
        assert FLAG_NAMES[..k + 1] == FLAG_NAMES[..k] + [f];
        assert FLAG_NAMES[0] != FLAG_NAMES[1] && f !in FLAG_NAMES[..k];
        if f in p.values {
          var key := Key(row.account, row.messageId, f);
          assert Look(finals, key) == Look(was, key);
          var prior := if key in finals then finals[key].rowIds else [];
          finals := finals[key := Final(p.values[f], loc.path, loc.uid, prior + [row.id])];
        }
      }
      forall f: FlagName ensures f in FLAG_NAMES[..|FLAG_NAMES|] {
        assert FLAG_NAMES[..|FLAG_NAMES|][if f == Seen then 0 else 1] == f;
      }
    }
  }

  /** The group of a STORE over the keys `ks`. */
  ghost predicate GroupOk(finals: map<Key, Final>, ks: set<Key>, st: Store, g: Group)
    requires ks <= finals.Keys
  {
    && (forall uid :: uid in g.uids <==> exists key :: key in ks && StoreOf(key, finals[key]) == st && finals[key].uid == uid)
    && (forall id :: id in g.rowIds <==> exists key :: key in ks && StoreOf(key, finals[key]) == st && id in finals[key].rowIds)
  }

  method GroupFinals(finals: map<Key, Final>) returns (groups: map<Store, Group>)
    ensures forall st :: st in groups <==> exists key :: key in finals && StoreOf(key, finals[key]) == st
    ensures forall st :: st in groups ==> GroupOk(finals, finals.Keys, st, groups[st])
  {
    groups := map[];
    var left := finals.Keys;
    while left != {}
      invariant left <= finals.Keys
      invariant forall st :: st in groups <==> exists key :: key in finals.Keys - left && StoreOf(key, finals[key]) == st
      invariant forall st :: st in groups ==> GroupOk(finals, finals.Keys - left, st, groups[st])
      decreases left
    {
      var key :| key in left;
      var fin := finals[key];
      var st := StoreOf(key, fin);
      var g := if st in groups then groups[st] else Group({}, {});
      ghost var before := groups;
      groups := groups[st := Group(g.uids + {fin.uid}, g.rowIds + set id | id in fin.rowIds)];
      assert finals.Keys - (left - {key}) == (finals.Keys - left) + {key};
      left := left - {key};
    }
  }

  predicate Covers(st: Store, g: Group, c: Cell) {
    c.account == st.account && c.path == st.path && c.flag == st.flag && c.uid in g.uids
  }

  /** Send every STORE; a failed one changes nothing and fails every row that contributed to it. */
  method StoreGroups(server: Server, groups: map<Store, Group>, answer: Store -> bool) returns (after: Server, failed: set<nat>)
    requires forall s, t, c: Cell :: s in groups && t in groups && Covers(s, groups[s], c) && Covers(t, groups[t], c) ==> s == t
    ensures after.Keys == server.Keys
    ensures forall st, c :: st in groups && c in server && Covers(st, groups[st], c) ==>
              after[c] == if answer(st) then st.value else server[c]
    ensures forall c :: c in server && (forall st :: st in groups ==> !Covers(st, groups[st], c)) ==> after[c] == server[c]
    ensures forall id :: id in failed <==> exists st :: st in groups && !answer(st) && id in groups[st].rowIds
  {
    after, failed := server, {};
    var left := groups.Keys;
    while left != {}
      invariant left <= groups.Keys && after.Keys == server.Keys
      invariant forall st, c :: st in groups.Keys - left && c in server && Covers(st, groups[st], c) ==>
                  after[c] == if answer(st) then st.value else server[c]
      invariant forall c :: c in server && (forall st :: st in groups.Keys - left ==> !Covers(st, groups[st], c)) ==> after[c] == server[c]
      invariant forall id :: id in failed <==> exists st :: st in groups.Keys - left && !answer(st) && id in groups[st].rowIds
      decreases left
    {
      var st :| st in left;
      if answer(st) {
        after := map c | c in after :: if Covers(st, groups[st], c) then st.value else after[c];
      } else {
        failed := failed + groups[st].rowIds;
      }
      left := left - {st};
    }
  }

  /** The cell a key's final value is sent to. */
  function KeyCell(key: Key, fin: Final): Cell {
    Cell(key.account, fin.path, fin.uid, key.flag)
  }

  predicate Touched(rows: seq<DueRow>, at: Placement, key: Key, r: nat)
    requires r < |rows|
  {
    Key(rows[r].account, rows[r].messageId, key.flag) == key && Sets(rows[r], at, key.flag)
  }

  /** The final value of a key is the last value of its cell, and its rows are those that touched it. */
  lemma {:induction false} FinalIsLast(rows: seq<DueRow>, at: Placement, key: Key, n: nat)
    requires n <= |rows| && OneMessagePerPlace(rows, at)
    ensures var fin := FinalOf(rows, at, key, n);
            && (fin.Some? <==> exists r: nat :: r < n && Touched(rows, at, key, r))
            && (fin.Some? ==>
                  && key.messageId in at && fin.value.path == at[key.messageId].path && fin.value.uid == at[key.messageId].uid
                  && LastValue(rows, at, KeyCell(key, fin.value), n) == Some(fin.value.value)
                  && forall id :: id in fin.value.rowIds <==> exists r: nat :: r < n && Touched(rows, at, key, r) && rows[r].id == id)
  {
    if n > 0 {
      FinalIsLast(rows, at, key, n - 1);
      var fin := FinalOf(rows, at, key, n);
      var row := rows[n - 1];
      if Touched(rows, at, key, n - 1) {
        forall id ensures id in fin.value.rowIds <==> exists r: nat :: r < n && Touched(rows, at, key, r) && rows[r].id == id {
          if id == row.id { assert Touched(rows, at, key, n - 1) && rows[n - 1].id == id; }
        }
      }
    }
  }

  /** Whoever decides a cell has a key. */
  lemma {:induction false} WriterHasKey(rows: seq<DueRow>, at: Placement, c: Cell, n: nat) returns (r: nat)
    requires n <= |rows| && LastValue(rows, at, c, n).Some?
    ensures r < n && Writes(rows[r], at, c)
  {
    if Writes(rows[n - 1], at, c) {
      r := n - 1;
    } else {
      r := WriterHasKey(rows, at, c, n - 1);
    }
  }

  /**
   * The whole batch. Every cell a row wanted to change holds the last row's value if its STORE was
   * answered and its old value otherwise, and nothing else changes; so with every STORE answered the
   * server is as if each row had been sent alone, in order. The rows marked failed are exactly those
   * that contributed to a failed STORE, whatever the order in which the STOREs go out.
   */
  method ExecuteFlags(server: Server, rows: seq<DueRow>, at: Placement, answer: Store -> bool)
    returns (after: Server, marks: seq<(nat, bool)>)
    requires OneMessagePerPlace(rows, at)
    requires forall i, j :: 0 <= i < j < |rows| ==> rows[i].id != rows[j].id
    ensures after.Keys == server.Keys
    ensures forall c :: c in server ==> CellOk(server, rows, at, answer, after, c)
    ensures (forall st :: answer(st)) ==> after == OneByOne(server, rows, at, |rows|)
    ensures |marks| == |rows|
    ensures forall r :: 0 <= r < |rows| ==> marks[r] == (rows[r].id, !Contributed(rows, at, answer, rows[r]))
  {
    hide Batched, FinalOf, CellOk, Contributed, OneMessagePerPlace, GroupOk, Covers, StoreFor, OneByOne;
    var finals := CollectFinals(rows, at);
    var groups := GroupFinals(finals);
    GroupsCoverTheirCells(rows, at, finals, groups);
    var failed;
    after, failed := StoreGroups(server, groups, answer);
    forall c | c in server
      ensures CellOk(server, rows, at, answer, after, c)
      ensures (forall st :: answer(st)) ==> after[c] == OneByOne(server, rows, at, |rows|)[c]
    {
      BatchCell(server, rows, at, finals, groups, answer, after, c);
    }
    marks := [];
    for r := 0 to |rows|
      invariant |marks| == r
      invariant forall k :: 0 <= k < r ==> marks[k] == (rows[k].id, !Contributed(rows, at, answer, rows[k]))
    {
      FailedIff(rows, at, finals, groups, answer, failed, r);
      marks := marks + [(rows[r].id, rows[r].id !in failed)];
    }
  }

  /** The final values and the STOREs they are grouped into. */
  ghost predicate Batched(rows: seq<DueRow>, at: Placement, finals: map<Key, Final>, groups: map<Store, Group>) {
    && OneMessagePerPlace(rows, at)
    && (forall key :: Agrees(finals, key, FinalOf(rows, at, key, |rows|)))
    && (forall st :: st in groups <==> exists key :: key in finals && StoreOf(key, finals[key]) == st)
    && (forall st :: st in groups ==> GroupOk(finals, finals.Keys, st, groups[st]))
  }

  /** A STORE only covers cells whose last value it carries, so no two STOREs meet in a cell. */
  lemma {:induction false} GroupsCoverTheirCells(rows: seq<DueRow>, at: Placement, finals: map<Key, Final>, groups: map<Store, Group>)
    requires Batched(rows, at, finals, groups)
    ensures forall st, c: Cell :: st in groups && Covers(st, groups[st], c) ==> StoreFor(rows, at, c) == Some(st)
    ensures forall s, t, c: Cell :: s in groups && t in groups && Covers(s, groups[s], c) && Covers(t, groups[t], c) ==> s == t
  {
    forall st, c: Cell | st in groups && Covers(st, groups[st], c) ensures StoreFor(rows, at, c) == Some(st) {
      assert GroupOk(finals, finals.Keys, st, groups[st]);
      var key :| key in finals.Keys && StoreOf(key, finals[key]) == st && finals[key].uid == c.uid;
      assert Agrees(finals, key, FinalOf(rows, at, key, |rows|));
      FinalIsLast(rows, at, key, |rows|);
      assert KeyCell(key, finals[key]) == c;
    }
    forall s, t, c: Cell | s in groups && t in groups && Covers(s, groups[s], c) && Covers(t, groups[t], c) ensures s == t {
      assert StoreFor(rows, at, c) == Some(s) && StoreFor(rows, at, c) == Some(t);
    }
  }

  /** What the batch promises about one cell. */
  ghost predicate CellOk(server: Server, rows: seq<DueRow>, at: Placement, answer: Store -> bool, after: Server, c: Cell)
    requires c in server && after.Keys == server.Keys
  {
    after[c] == if StoreFor(rows, at, c).Some? && answer(StoreFor(rows, at, c).value)
                then OneByOne(server, rows, at, |rows|)[c] else server[c]
  }

  lemma {:induction false} BatchCell(server: Server, rows: seq<DueRow>, at: Placement, finals: map<Key, Final>, groups: map<Store, Group>,
                  answer: Store -> bool, after: Server, c: Cell)
    requires Batched(rows, at, finals, groups) && after.Keys == server.Keys && c in server
    requires forall st :: st in groups && Covers(st, groups[st], c) ==> after[c] == if answer(st) then st.value else server[c]
    requires (forall st :: st in groups ==> !Covers(st, groups[st], c)) ==> after[c] == server[c]
    ensures CellOk(server, rows, at, answer, after, c)
    ensures (forall st :: answer(st)) ==> after[c] == OneByOne(server, rows, at, |rows|)[c]
  {
    GroupsCoverTheirCells(rows, at, finals, groups);
    OneByOneValue(server, rows, at, c, |rows|);
    if StoreFor(rows, at, c).Some? {
      var r := WriterHasKey(rows, at, c, |rows|);
      RowGroup(rows, at, finals, groups, r, c.flag);
    }
  }

  ghost predicate KeyOk(rows: seq<DueRow>, at: Placement, finals: map<Key, Final>, key: Key)
    requires key in finals
  {
    && key.messageId in at && finals[key].path == at[key.messageId].path && finals[key].uid == at[key.messageId].uid
    && forall id :: id in finals[key].rowIds <==> exists r: nat :: r < |rows| && Touched(rows, at, key, r) && rows[r].id == id
  }

  /** A row that sets a flag has its key, and its cell is covered by its key's group. */
  lemma {:induction false} RowGroup(rows: seq<DueRow>, at: Placement, finals: map<Key, Final>, groups: map<Store, Group>, r: nat, f: FlagName)
    requires r < |rows| && Sets(rows[r], at, f)
    requires Batched(rows, at, finals, groups)
    ensures var key := Key(rows[r].account, rows[r].messageId, f); var c := CellOf(rows[r], at, f);
            && key in finals && KeyOk(rows, at, finals, key) && KeyCell(key, finals[key]) == c
            && StoreFor(rows, at, c) == Some(StoreOf(key, finals[key]))
            && StoreOf(key, finals[key]) in groups && Covers(StoreOf(key, finals[key]), groups[StoreOf(key, finals[key])], c)
            && rows[r].id in finals[key].rowIds
  {
    var key := Key(rows[r].account, rows[r].messageId, f);
    assert Touched(rows, at, key, r);
    FinalIsLast(rows, at, key, |rows|);
    assert Agrees(finals, key, FinalOf(rows, at, key, |rows|));
    assert GroupOk(finals, finals.Keys, StoreOf(key, finals[key]), groups[StoreOf(key, finals[key])]);
  }

  lemma {:induction false} FailedIff(rows: seq<DueRow>, at: Placement, finals: map<Key, Final>, groups: map<Store, Group>, answer: Store -> bool,
                  failed: set<nat>, r: nat)
    requires r < |rows|
    requires forall i, j :: 0 <= i < j < |rows| ==> rows[i].id != rows[j].id
    requires Batched(rows, at, finals, groups)
    requires forall id :: id in failed <==> exists st :: st in groups && !answer(st) && id in groups[st].rowIds
    ensures rows[r].id in failed <==> Contributed(rows, at, answer, rows[r])
  {
    var id := rows[r].id;
    if id in failed {
      var st :| st in groups && !answer(st) && id in groups[st].rowIds;
      assert GroupOk(finals, finals.Keys, st, groups[st]);
      var key :| key in finals && StoreOf(key, finals[key]) == st && id in finals[key].rowIds;
      assert Agrees(finals, key, FinalOf(rows, at, key, |rows|));
      FinalIsLast(rows, at, key, |rows|);
      var t: nat :| t < |rows| && Touched(rows, at, key, t) && rows[t].id == id;
      assert t == r;
      RowGroup(rows, at, finals, groups, r, key.flag);
    }
    if Contributed(rows, at, answer, rows[r]) {
      var f :| Sets(rows[r], at, f) && StoreFor(rows, at, CellOf(rows[r], at, f)).Some?
               && !answer(StoreFor(rows, at, CellOf(rows[r], at, f)).value);
      RowGroup(rows, at, finals, groups, r, f);
      var key := Key(rows[r].account, rows[r].messageId, f);
      var st := StoreOf(key, finals[key]);
      assert GroupOk(finals, finals.Keys, st, groups[st]);
      assert id in groups[st].rowIds;
    }
  }
}
