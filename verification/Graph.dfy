/** Undirected reachability over numbered nodes: what "transitive" means wherever things are clustered. */
module Graph {
  type Edges = set<(nat, nat)>

  predicate Linked(es: Edges, a: nat, b: nat) {
    (a, b) in es || (b, a) in es
  }

  ghost predicate Path(es: Edges, p: seq<nat>) {
    |p| > 0 && forall k :: 0 <= k < |p| - 1 ==> Linked(es, p[k], p[k + 1])
  }

  ghost predicate PathFrom(es: Edges, p: seq<nat>, i: nat, j: nat) {
    Path(es, p) && p[0] == i && p[|p| - 1] == j
  }

  /** Some chain of links leads from `i` to `j`; a node is connected to itself. */
  ghost predicate Connected(es: Edges, i: nat, j: nat) {
    exists p :: PathFrom(es, p, i, j)
  }

  lemma {:induction false} Reflexive(es: Edges, i: nat)
    ensures Connected(es, i, i)
  {
    assert PathFrom(es, [i], i, i);
  }

  lemma {:induction false} LinkConnects(es: Edges, i: nat, j: nat)
    requires Linked(es, i, j)
    ensures Connected(es, i, j)
  {
    assert PathFrom(es, [i, j], i, j);
  }

  lemma {:induction false} Transitive(es: Edges, i: nat, j: nat, k: nat)
    requires Connected(es, i, j) && Connected(es, j, k)
    ensures Connected(es, i, k)
  {
    var p :| PathFrom(es, p, i, j);
    var q :| PathFrom(es, q, j, k);
    var r := p + q[1..];
    forall t | 0 <= t < |r| - 1 ensures Linked(es, r[t], r[t + 1]) {
      if t < |p| - 1 {
        assert r[t] == p[t] && r[t + 1] == p[t + 1];
      } else {
        assert r[t] == q[t - |p| + 1] && r[t + 1] == q[t - |p| + 2];
      }
    }
    assert PathFrom(es, r, i, k);
  }

  lemma {:induction false} Symmetric(es: Edges, i: nat, j: nat)
    requires Connected(es, i, j)
    ensures Connected(es, j, i)
  {
    var p :| PathFrom(es, p, i, j);
    var r := seq(|p|, k requires 0 <= k < |p| => p[|p| - 1 - k]);
    forall t | 0 <= t < |r| - 1 ensures Linked(es, r[t], r[t + 1]) {
      assert Linked(es, p[|p| - 2 - t], p[|p| - 1 - t]);
    }
    assert PathFrom(es, r, j, i);
  }

  lemma {:induction false} Monotone(es: Edges, fs: Edges, i: nat, j: nat)
    requires es <= fs && Connected(es, i, j)
    ensures Connected(fs, i, j)
  {
    var p :| PathFrom(es, p, i, j);
    forall k | 0 <= k < |p| - 1 ensures Linked(fs, p[k], p[k + 1]) {
      assert Linked(es, p[k], p[k + 1]);
    }
    assert PathFrom(fs, p, i, j);
  }

  /** A labelling that agrees across every link agrees across everything connected. */
  lemma {:induction false} LabelsAgree<T>(es: Edges, tag: map<nat, T>, i: nat, j: nat)
    requires Connected(es, i, j) && i in tag
    requires forall a, b :: Linked(es, a, b) && a in tag ==> b in tag && tag[a] == tag[b]
    ensures j in tag && tag[i] == tag[j]
  {
    var p :| PathFrom(es, p, i, j);
    LabelsAlong(es, tag, p, |p| - 1);
  }

  lemma {:induction false} LabelsAlong<T>(es: Edges, tag: map<nat, T>, p: seq<nat>, k: nat)
    requires Path(es, p) && k < |p| && p[0] in tag
    requires forall a, b :: Linked(es, a, b) && a in tag ==> b in tag && tag[a] == tag[b]
    ensures p[k] in tag && tag[p[k]] == tag[p[0]]
  {
    if k > 0 {
      LabelsAlong(es, tag, p, k - 1);
      assert Linked(es, p[k - 1], p[k]);
    }
  }
}
