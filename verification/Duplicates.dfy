/**
 * Duplicate clustering over the cached address books (contacts/duplicates.ts): a disjoint-set forest
 * with path compression, and the groups read off it.
 */
module Duplicates {
  import Graph

  /** Disjoint-set over card indices. `root` names each element's root; `height` grows towards it. */
  class Groups {
    const parent: array<nat>
    ghost var root: seq<nat>
    ghost var height: seq<nat>
    ghost var top: nat

    /** One element: its parent shares its root, and is higher unless the element is the root. */
    ghost predicate Hangs(i: nat)
      reads this, parent
      requires |root| == |height| == parent.Length && i < parent.Length
    {
      var p := parent[i];
      && p < parent.Length && root[i] < parent.Length && height[i] <= top
      && root[p] == root[i] && parent[root[i]] == root[i]
      && (p == i ==> root[i] == i)
      && (p != i ==> height[i] < height[p])
      && (root[i] != i ==> height[i] < height[root[i]])
    }

    ghost predicate Valid()
      reads this, parent
    {
      && |root| == |height| == parent.Length
      && (forall i :: 0 <= i < parent.Length ==> Hangs(i))
    }

    constructor (size: nat)
      ensures Valid() && fresh(parent) && parent.Length == size
      ensures root == seq(size, i => i)
    {
      parent := new nat[size](i => i);
      root := seq(size, i => i);
      height := seq(size, i => 0);
      top := 0;
    }

    /** The root of `i`. Path compression rewrites parents but no element changes its root. */
    method Find(i: nat) returns (r: nat)
      requires Valid() && i < parent.Length
      modifies parent
      ensures Valid() && r == root[i]
    {
      r := i;
      while parent[r] != r
        invariant r < |root| && root[r] == root[i] && height[i] <= height[r]
        decreases top - height[r]
      {
        assert Hangs(r);
        r := parent[r];
      }
      assert Hangs(r) && Hangs(i);
      var cur: nat := i;
      while parent[cur] != r
        invariant Valid() && r < |root| && cur < |root| && root[cur] == r && parent[r] == r
        decreases top - height[cur]
      {
        var next := parent[cur];
        assert Hangs(cur) && Hangs(next);
        label Before:
        parent[cur] := r;
        forall k | 0 <= k < parent.Length ensures Hangs(k) {
          assert old@Before(Hangs(k));
        }
        cur := next;
      }
    }

    /** Everything that had `b`'s root now has `a`'s. */
    method Union(a: nat, b: nat)
      requires Valid() && a < parent.Length && b < parent.Length
      modifies this, parent
      ensures Valid() && |root| == |old(root)|
      ensures forall k :: 0 <= k < |root| ==> root[k] == if old(root)[k] == old(root)[b] then old(root)[a] else old(root)[k]
    {
      var ra := Find(a);
      var rb := Find(b);
      if ra != rb {
        assert Hangs(a) && Hangs(b) && Hangs(ra) && Hangs(rb);
        label Joining:
        parent[rb] := ra;
        height := height[ra := if height[ra] > height[rb] then height[ra] else height[rb] + 1];
        top := top + 1;
        ghost var was := root;
        root := seq(|was|, k requires 0 <= k < |was| => if was[k] == rb then ra else was[k]);
        forall k | 0 <= k < parent.Length ensures Hangs(k) {
          assert old@Joining(Hangs(k));
        }
      }
    }
  }

  /** A contact card: a missing name is the empty string. */
  datatype Card = Card(uid: string, name: string, emails: seq<string>)

  /** How names and addresses are folded before they are compared; any folding will do. */
  datatype Folding = Folding(email: string -> string, name: string -> string)

  predicate HasEmail(card: Card, fold: Folding, e: string) {
    e != "" && exists k :: 0 <= k < |card.emails| && fold.email(card.emails[k]) == e
  }

  predicate HasName(card: Card, fold: Folding, n: string) {
    n != "" && fold.name(card.name) == n
  }

  /** The two cards have a folded address in common, or the same non-empty folded name. */
  ghost predicate Shares(a: Card, b: Card, fold: Folding) {
    (exists e :: HasEmail(a, fold, e) && HasEmail(b, fold, e)) || (exists n :: HasName(a, fold, n) && HasName(b, fold, n))
  }

  ghost function ShareEdges(cards: seq<Card>, fold: Folding): Graph.Edges {
    set i: nat, j: nat | i < |cards| && j < |cards| && Shares(cards[i], cards[j], fold) :: (i, j)
  }

  /** Two cards are linked exactly if an address of one and an address of the other, neither blank, or their names, not blank, fold alike. */
  lemma {:induction false} LinkedExactly(cards: seq<Card>, fold: Folding, i: nat, j: nat)
    requires i < |cards| && j < |cards|
    ensures (i, j) in ShareEdges(cards, fold) <==>
            || (exists a, b :: 0 <= a < |cards[i].emails| && 0 <= b < |cards[j].emails| && SameFolded(fold.email, cards[i].emails[a], cards[j].emails[b]))
            || SameFolded(fold.name, cards[i].name, cards[j].name)
    ensures (i, j) in ShareEdges(cards, fold) ==> Graph.Connected(ShareEdges(cards, fold), i, j)
  {
    var x, y := cards[i], cards[j];
    if (i, j) in ShareEdges(cards, fold) {
      assert Graph.Linked(ShareEdges(cards, fold), i, j);
      Graph.LinkConnects(ShareEdges(cards, fold), i, j);
      if e :| HasEmail(x, fold, e) && HasEmail(y, fold, e) {
        var a :| 0 <= a < |x.emails| && fold.email(x.emails[a]) == e;
        var b :| 0 <= b < |y.emails| && fold.email(y.emails[b]) == e;
        assert SameFolded(fold.email, x.emails[a], y.emails[b]);
      }
    }
    if a, b :| 0 <= a < |x.emails| && 0 <= b < |y.emails| && SameFolded(fold.email, x.emails[a], y.emails[b]) {
      assert HasEmail(x, fold, fold.email(x.emails[a])) && HasEmail(y, fold, fold.email(x.emails[a]));
    }
    if SameFolded(fold.name, x.name, y.name) {
      assert HasName(x, fold, fold.name(x.name)) && HasName(y, fold, fold.name(x.name));
    }
  }

  predicate SameFolded(fold: string -> string, a: string, b: string) {
    fold(a) == fold(b) && fold(a) != ""
  }

  /** Same root only for connected cards. */
  ghost predicate Sound(es: Graph.Edges, root: seq<nat>) {
    forall a, b :: 0 <= a < |root| && 0 <= b < |root| && root[a] == root[b] ==> Graph.Connected(es, a, b)
  }

  /** The cards that were in one class still are. */
  ghost predicate Coarser(root: seq<nat>, after: seq<nat>) {
    |root| == |after| && forall a, b :: 0 <= a < |root| && 0 <= b < |root| && root[a] == root[b] ==> after[a] == after[b]
  }

  /** Card `i` is in the class of the first card that had the key. */
  ghost predicate Joined(root: seq<nat>, first: map<string, nat>, key: string, i: nat)
    requires i < |root|
  {
    key in first && first[key] < |root| && root[first[key]] == root[i]
  }

  /** Joining two linked classes keeps the partition sound. */
  lemma {:induction false} JoinSound(es: Graph.Edges, root: seq<nat>, after: seq<nat>, a: nat, b: nat)
    requires Sound(es, root) && |after| == |root| && a < |root| && b < |root| && Graph.Linked(es, a, b)
    requires forall k :: 0 <= k < |root| ==> after[k] == if root[k] == root[b] then root[a] else root[k]
    ensures Sound(es, after) && Coarser(root, after) && after[a] == after[b]
  {
    Graph.LinkConnects(es, a, b);
    Graph.Symmetric(es, a, b);
    forall x, y | 0 <= x < |root| && 0 <= y < |root| && after[x] == after[y] ensures Graph.Connected(es, x, y) {
      if root[x] != root[y] {
        var u, v := if root[x] == root[b] then b else a, if root[x] == root[b] then a else b;
        Graph.Transitive(es, x, u, v);
        Graph.Transitive(es, x, v, y);
      }
    }
  }

  /** Remember the first card with a key, or join a later card to it. */
  method Link(groups: Groups, ghost es: Graph.Edges, first: map<string, nat>, key: string, i: nat) returns (after: map<string, nat>)
    requires groups.Valid() && i < groups.parent.Length && Sound(es, groups.root)
    requires key in first ==> first[key] < groups.parent.Length && Graph.Linked(es, first[key], i)
    modifies groups, groups.parent
    ensures groups.Valid() && Sound(es, groups.root) && Coarser(old(groups.root), groups.root)
    ensures after == (if key in first then first else first[key := i])
    ensures Joined(groups.root, after, key, i)
  {
    if key !in first {
      after := first[key := i];
    } else {
      after := first;
      groups.Union(first[key], i);
      JoinSound(es, old(groups.root), groups.root, first[key], i);
    }
  }

  /** Every card up to `i` is in the class of the first holder of each of its addresses and of its name. */
  ghost predicate AllJoined(cards: seq<Card>, fold: Folding, root: seq<nat>, byEmail: map<string, nat>, byName: map<string, nat>, i: nat)
    requires i <= |cards| == |root|
  {
    && (forall k, e :: 0 <= k < i && HasEmail(cards[k], fold, e) ==> Joined(root, byEmail, e, k))
    && (forall k, n :: 0 <= k < i && HasName(cards[k], fold, n) ==> Joined(root, byName, n, k))
  }

  ghost predicate Holders(cards: seq<Card>, fold: Folding, byEmail: map<string, nat>, byName: map<string, nat>) {
    && (forall e :: e in byEmail ==> byEmail[e] < |cards| && HasEmail(cards[byEmail[e]], fold, e))
    && (forall n :: n in byName ==> byName[n] < |cards| && HasName(cards[byName[n]], fold, n))
  }

  lemma {:induction false} StillJoined(cards: seq<Card>, fold: Folding, root: seq<nat>, after: seq<nat>, byEmail: map<string, nat>, byName: map<string, nat>,
                    byEmail': map<string, nat>, byName': map<string, nat>, i: nat)
    requires i <= |cards| == |root| && AllJoined(cards, fold, root, byEmail, byName, i) && Coarser(root, after)
    requires forall e :: e in byEmail ==> e in byEmail' && byEmail'[e] == byEmail[e]
    requires forall n :: n in byName ==> n in byName' && byName'[n] == byName[n]
    ensures AllJoined(cards, fold, after, byEmail', byName', i)
  {
    forall k, e | 0 <= k < i && HasEmail(cards[k], fold, e) ensures Joined(after, byEmail', e, k) {
      assert Joined(root, byEmail, e, k);
    }
    forall k, n | 0 <= k < i && HasName(cards[k], fold, n) ensures Joined(after, byName', n, k) {
      assert Joined(root, byName, n, k);
    }
  }

  /** The state of the linking pass before card `i`. */
  ghost predicate Linking(groups: Groups, cards: seq<Card>, fold: Folding, byEmail: map<string, nat>, byName: map<string, nat>, i: nat)
    requires i <= |cards|
    reads groups, groups.parent
  {
    && groups.Valid() && groups.parent.Length == |cards|
    && Sound(ShareEdges(cards, fold), groups.root)
    && Holders(cards, fold, byEmail, byName)
    && AllJoined(cards, fold, groups.root, byEmail, byName, i)
  }

  method LinkEmails(groups: Groups, cards: seq<Card>, fold: Folding, first: map<string, nat>, ghost byName: map<string, nat>, i: nat)
    returns (byEmail: map<string, nat>)
    requires i < |cards| && Linking(groups, cards, fold, first, byName, i)
    modifies groups, groups.parent
    ensures Linking(groups, cards, fold, byEmail, byName, i)
    ensures forall e :: HasEmail(cards[i], fold, e) ==> Joined(groups.root, byEmail, e, i)
  {
    byEmail := first;
    for k := 0 to |cards[i].emails|
      invariant Linking(groups, cards, fold, byEmail, byName, i)
      invariant forall t :: 0 <= t < k && fold.email(cards[i].emails[t]) != "" ==>
                  Joined(groups.root, byEmail, fold.email(cards[i].emails[t]), i)
    {
      var email := fold.email(cards[i].emails[k]);
      if email != "" {
        assert HasEmail(cards[i], fold, email);
        ghost var was, before := groups.root, byEmail;
        byEmail := Link(groups, ShareEdges(cards, fold), byEmail, email, i);
        StillJoined(cards, fold, was, groups.root, before, byName, byEmail, byName, i);
        forall t | 0 <= t < k && fold.email(cards[i].emails[t]) != ""
          ensures Joined(groups.root, byEmail, fold.email(cards[i].emails[t]), i)
        {
          assert Joined(was, before, fold.email(cards[i].emails[t]), i);
        }
      }
    }
  }

  method LinkName(groups: Groups, cards: seq<Card>, fold: Folding, ghost byEmail: map<string, nat>, first: map<string, nat>, i: nat)
    returns (byName: map<string, nat>)
    requires i < |cards| && Linking(groups, cards, fold, byEmail, first, i)
    requires forall e :: HasEmail(cards[i], fold, e) ==> Joined(groups.root, byEmail, e, i)
    modifies groups, groups.parent
    ensures Linking(groups, cards, fold, byEmail, byName, i + 1)
  {
    byName := first;
    var name := fold.name(cards[i].name);
    if name != "" {
      assert HasName(cards[i], fold, name);
      ghost var was := groups.root;
      byName := Link(groups, ShareEdges(cards, fold), byName, name, i);
      StillJoined(cards, fold, was, groups.root, byEmail, first, byEmail, byName, i);
      forall e | HasEmail(cards[i], fold, e) ensures Joined(groups.root, byEmail, e, i) {
        assert Joined(was, byEmail, e, i);
      }
    }
  }

  /** Join every card to the first holder of each of its keys: the classes are exactly the connected ones. */
  method LinkAll(cards: seq<Card>, fold: Folding) returns (groups: Groups)
    ensures fresh(groups) && fresh(groups.parent) && groups.Valid() && groups.parent.Length == |cards|
    ensures forall i, j :: 0 <= i < |cards| && 0 <= j < |cards| ==>
              (groups.root[i] == groups.root[j] <==> Graph.Connected(ShareEdges(cards, fold), i, j))
  {
    groups := new Groups(|cards|);
    forall a | 0 <= a < |cards| ensures Graph.Connected(ShareEdges(cards, fold), a, a) {
      Graph.Reflexive(ShareEdges(cards, fold), a);
    }
    var byEmail: map<string, nat>, byName: map<string, nat> := map[], map[];
    for i := 0 to |cards|
      invariant fresh(groups) && fresh(groups.parent) && Linking(groups, cards, fold, byEmail, byName, i)
    {
      byEmail := LinkEmails(groups, cards, fold, byEmail, byName, i);
      byName := LinkName(groups, cards, fold, byEmail, byName, i);
    }
    forall i, j | 0 <= i < |cards| && 0 <= j < |cards| && Graph.Connected(ShareEdges(cards, fold), i, j)
      ensures groups.root[i] == groups.root[j]
    {
      ConnectedJoined(cards, fold, groups.root, byEmail, byName, i, j);
    }
  }

  /** Once every key is joined, connected cards share a root. */
  lemma {:induction false} ConnectedJoined(cards: seq<Card>, fold: Folding, root: seq<nat>, byEmail: map<string, nat>, byName: map<string, nat>, i: nat, j: nat)
    requires |cards| == |root| && AllJoined(cards, fold, root, byEmail, byName, |cards|)
    requires i < |cards| && j < |cards| && Graph.Connected(ShareEdges(cards, fold), i, j)
    ensures root[i] == root[j]
  {
    var es := ShareEdges(cards, fold);
    var tag := map k: nat | k < |root| :: root[k];
    forall a: nat, b: nat | Graph.Linked(es, a, b) && a in tag ensures b in tag && tag[a] == tag[b] {
      assert Shares(cards[a], cards[b], fold);
      if e :| HasEmail(cards[a], fold, e) && HasEmail(cards[b], fold, e) {
        assert Joined(root, byEmail, e, a) && Joined(root, byEmail, e, b);
      } else if n :| HasName(cards[a], fold, n) && HasName(cards[b], fold, n) {
        assert Joined(root, byName, n, a) && Joined(root, byName, n, b);
      }
    }
    Graph.LabelsAgree(es, tag, i, j);
  }

  /** The elements below `n` with root `r`, in order. */
  function ClassOf(root: seq<nat>, r: nat, n: nat): (c: seq<nat>)
    requires n <= |root|
    ensures forall k: nat :: k in c <==> k < n && root[k] == r
    ensures forall a, b :: 0 <= a < b < |c| ==> c[a] < c[b]
  {
    if n == 0 then []
    else
      var c := ClassOf(root, r, n - 1);
      assert forall a :: 0 <= a < |c| ==> c[a] in c;
      if root[n - 1] == r then c + [n - 1] else c
  }

  /** A duplicate group: at least two cards, in order, and exactly the cards connected to each of them. */
  ghost predicate IsGroup(cards: seq<Card>, fold: Folding, g: seq<nat>) {
    && |g| >= 2
    && (forall a, b :: 0 <= a < b < |g| ==> g[a] < g[b])
    && (forall i :: i in g ==> i < |cards|)
    && (forall i, j :: i in g && 0 <= j < |cards| ==> (j in g <==> Graph.Connected(ShareEdges(cards, fold), i, j)))
  }

  ghost predicate Distinct(s: seq<nat>) {
    forall a, b :: 0 <= a < b < |s| ==> s[a] != s[b]
  }

  /** Each class under its root, with the roots in the order their first card appears. */
  ghost predicate Collected(root: seq<nat>, members: map<nat, seq<nat>>, order: seq<nat>, n: nat)
    requires n <= |root|
  {
    && Distinct(order)
    && (forall r :: r in members <==> r in order)
    && (forall r :: r in members ==> members[r] == ClassOf(root, r, n))
    && (forall k :: 0 <= k < n ==> root[k] in members)
  }

  lemma {:induction false} ClassEmpty(root: seq<nat>, r: nat, n: nat)
    requires n <= |root| && forall k :: 0 <= k < n ==> root[k] != r
    ensures ClassOf(root, r, n) == []
  {
    if n > 0 { ClassEmpty(root, r, n - 1); }
  }

  /** Card `i` extends the class of its own root and no other. */
  lemma {:induction false} ClassGrows(root: seq<nat>, q: nat, i: nat)
    requires i < |root|
    ensures ClassOf(root, q, i + 1) == if root[i] == q then ClassOf(root, q, i) + [i] else ClassOf(root, q, i)
  {
  }

  lemma {:induction false} CollectOne(root: seq<nat>, members: map<nat, seq<nat>>, order: seq<nat>, i: nat)
    requires i < |root| && Collected(root, members, order, i)
    ensures var r := root[i];
            if r in members then Collected(root, members[r := members[r] + [i]], order, i + 1)
            else Collected(root, members[r := [i]], order + [r], i + 1)
  {
    var r := root[i];
    var m := if r in members then members[r := members[r] + [i]] else members[r := [i]];
    if r !in members {
      ClassEmpty(root, r, i);
    }
    forall q | q in m ensures m[q] == ClassOf(root, q, i + 1) {
      ClassGrows(root, q, i);
    }
  }

  /** Put `i` under its root. */
  method Collect(members: map<nat, seq<nat>>, order: seq<nat>, r: nat, i: nat) returns (m: map<nat, seq<nat>>, o: seq<nat>)
    ensures m == if r in members then members[r := members[r] + [i]] else members[r := [i]]
    ensures o == if r in members then order else order + [r]
  {
    m, o := members, order;
    if r in members {
      m := members[r := members[r] + [i]];
    } else {
      m := members[r := [i]];
      o := order + [r];
    }
  }

  method CollectMembers(groups: Groups) returns (members: map<nat, seq<nat>>, order: seq<nat>)
    requires groups.Valid()
    modifies groups.parent
    ensures groups.Valid() && Collected(groups.root, members, order, |groups.root|)
  {
    members, order := map[], [];
    ghost var root := groups.root;
    for i := 0 to groups.parent.Length
      invariant groups.Valid() && groups.root == root && |root| == groups.parent.Length
      invariant Collected(root, members, order, i)
    {
      CollectOne(root, members, order, i);
      var r := groups.Find(i);
      members, order := Collect(members, order, r, i);
    }
  }

  /** The roots among the first `k` of `order` that lead two or more cards. */
  function Large(members: map<nat, seq<nat>>, order: seq<nat>, k: nat): seq<nat>
    requires k <= |order| && forall t :: 0 <= t < |order| ==> order[t] in members
  {
    if k == 0 then []
    else if |members[order[k - 1]]| >= 2 then Large(members, order, k - 1) + [order[k - 1]]
    else Large(members, order, k - 1)
  }

  lemma {:induction false} LargeMembers(members: map<nat, seq<nat>>, order: seq<nat>, k: nat)
    requires k <= |order| && forall t :: 0 <= t < |order| ==> order[t] in members
    ensures forall r :: r in Large(members, order, k) <==> r in order[..k] && |members[r]| >= 2
    ensures Distinct(order) ==> Distinct(Large(members, order, k))
  {
    if k > 0 {
      LargeMembers(members, order, k - 1);
      assert order[..k] == order[..k - 1] + [order[k - 1]];
      var p := Large(members, order, k - 1);
      forall a | 0 <= a < |p| ensures p[a] in order[..k - 1] {
        assert p[a] in p;
      }
    }
  }

  method PickGroups(members: map<nat, seq<nat>>, order: seq<nat>) returns (out: seq<seq<nat>>)
    requires forall t :: 0 <= t < |order| ==> order[t] in members
    ensures var picked := Large(members, order, |order|);
            |out| == |picked| && forall g :: 0 <= g < |out| ==> picked[g] in members && out[g] == members[picked[g]]
  {
    out := [];
    for k := 0 to |order|
      invariant |out| == |Large(members, order, k)|
      invariant forall g :: 0 <= g < |out| ==> Large(members, order, k)[g] in members && out[g] == members[Large(members, order, k)[g]]
    {
      if |members[order[k]]| >= 2 {
        out := out + [members[order[k]]];
      }
    }
  }

  /** What the groups read off a finished collection: one group per class of two or more cards. */
  ghost predicate Picked(root: seq<nat>, members: map<nat, seq<nat>>, order: seq<nat>, out: seq<seq<nat>>, picked: seq<nat>) {
    && Collected(root, members, order, |root|) && Distinct(picked) && |out| == |picked|
    && (forall r :: r in picked <==> r in order && r in members && |members[r]| >= 2)
    && (forall g :: 0 <= g < |out| ==> picked[g] in members && out[g] == members[picked[g]])
  }

  lemma {:induction false} PickedClass(root: seq<nat>, members: map<nat, seq<nat>>, order: seq<nat>, out: seq<seq<nat>>, picked: seq<nat>, g: nat)
    requires Picked(root, members, order, out, picked) && g < |out|
    ensures out[g] == ClassOf(root, picked[g], |root|) && |out[g]| >= 2
  {
    assert picked[g] in picked;
  }

  lemma {:induction false} TwoArePicked(root: seq<nat>, members: map<nat, seq<nat>>, order: seq<nat>, out: seq<seq<nat>>, picked: seq<nat>, i: nat, j: nat)
    requires Picked(root, members, order, out, picked) && i < |root| && j < |root| && i != j && root[i] == root[j]
    ensures exists g :: 0 <= g < |out| && i in out[g] && j in out[g]
  {
    var c := ClassOf(root, root[i], |root|);
    assert i in c && j in c;
    assert |c| >= 2;
    assert root[i] in members && members[root[i]] == c;
    var g :| 0 <= g < |picked| && picked[g] == root[i];
    assert out[g] == c;
  }

  /**
   * The groups are exactly the classes of two or more of the transitive closure of "shares a folded
   * address or a non-empty folded name": each is one, each card with a duplicate is in one, and no
   * card is in two. Their order, and the order of the cards in one, are for display.
   */
  method FindDuplicateGroups(cards: seq<Card>, fold: Folding) returns (out: seq<seq<nat>>)
    ensures forall g :: 0 <= g < |out| ==> IsGroup(cards, fold, out[g])
    ensures forall i, j :: 0 <= i < |cards| && 0 <= j < |cards| && i != j && Graph.Connected(ShareEdges(cards, fold), i, j) ==>
              exists g :: 0 <= g < |out| && i in out[g] && j in out[g]
    ensures forall g, h, i :: 0 <= g < h < |out| && i in out[g] ==> i !in out[h]
  {
    var groups := LinkAll(cards, fold);
    ghost var root := groups.root;
    var members, order := CollectMembers(groups);
    ghost var picked := Large(members, order, |order|);
    out := PickGroups(members, order);
    LargeMembers(members, order, |order|);
    assert order[..|order|] == order;
    assert Picked(root, members, order, out, picked);
    forall g | 0 <= g < |out| ensures IsGroup(cards, fold, out[g]) {
      PickedClass(root, members, order, out, picked, g);
    }
    forall i, j | 0 <= i < |cards| && 0 <= j < |cards| && i != j && Graph.Connected(ShareEdges(cards, fold), i, j)
      ensures exists g :: 0 <= g < |out| && i in out[g] && j in out[g]
    {
      TwoArePicked(root, members, order, out, picked, i, j);
    }
    forall g, h, i | 0 <= g < h < |out| && i in out[g] ensures i !in out[h] {
      PickedClass(root, members, order, out, picked, g);
      PickedClass(root, members, order, out, picked, h);
    }
  }
}
