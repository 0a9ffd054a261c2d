/** Walks in a directed graph, their cost, and the cutting of cycles. */
module Walks {

  type Graph<V(==)> = set<(V, V)>
  type Weights<V(==)> = map<(V, V), nat>

  ghost predicate IsWalk<V>(g: Graph<V>, p: seq<V>) {
    && |p| > 0
    && forall i :: 0 < i < |p| ==> (p[i - 1], p[i]) in g
  }

  ghost predicate Connects<V>(g: Graph<V>, p: seq<V>, s: V, t: V) {
    IsWalk(g, p) && p[0] == s && p[|p| - 1] == t
  }

  ghost predicate Distinct<V>(p: seq<V>) {
    forall i, j :: 0 <= i < j < |p| ==> p[i] != p[j]
  }

  ghost predicate Connected<V(!new)>(g: Graph<V>, nodes: set<V>) {
    forall x, y :: x in nodes && y in nodes ==> exists p :: Connects(g, p, x, y)
  }

  ghost predicate Symmetric<V(!new)>(g: Graph<V>) {
    forall x, y :: (x, y) in g ==> (y, x) in g
  }

  ghost predicate Over<V(!new)>(g: Graph<V>, nodes: set<V>) {
    forall x, y :: (x, y) in g ==> x in nodes && y in nodes
  }

  ghost function Neighbours<V>(g: Graph<V>, x: V): set<V> {
    set e | e in g && e.0 == x :: e.1
  }

  ghost function Cost<V>(w: Weights<V>, p: seq<V>): nat
    requires IsWalk(w.Keys, p)
    decreases |p|
  {
    if |p| == 1 then 0 else Cost(w, p[..|p| - 1]) + w[(p[|p| - 2], p[|p| - 1])]
  }

  /** A cheapest walk from s to t. */
  ghost predicate Shortest<V(!new)>(w: Weights<V>, p: seq<V>, s: V, t: V) {
    && Connects(w.Keys, p, s, t)
    && forall q :: Connects(w.Keys, q, s, t) ==> Cost(w, p) <= Cost(w, q)
  }

  lemma Join<V>(g: Graph<V>, p: seq<V>, q: seq<V>)
    requires IsWalk(g, p) && IsWalk(g, q) && p[|p| - 1] == q[0]
    ensures Connects(g, p + q[1..], p[0], q[|q| - 1])
  {
    var r := p + q[1..];
    forall i | 0 < i < |r| ensures (r[i - 1], r[i]) in g {
      if i >= |p| { assert r[i] == q[i - |p| + 1]; assert r[i - 1] == q[i - |p|]; }
    }
  }

  lemma {:induction false} CostJoin<V>(w: Weights<V>, p: seq<V>, q: seq<V>)
    requires IsWalk(w.Keys, p) && IsWalk(w.Keys, q) && p[|p| - 1] == q[0]
    ensures IsWalk(w.Keys, p + q[1..])
    ensures Cost(w, p + q[1..]) == Cost(w, p) + Cost(w, q)
    decreases |q|
  {
    Join(w.Keys, p, q);
    var r := p + q[1..];
    if |q| == 1 {
      assert r == p;
    } else {
      var q' := q[..|q| - 1];
      CostJoin(w, p, q');
      assert r[..|r| - 1] == p + q'[1..];
      assert r[|r| - 2] == q[|q| - 2];
    }
  }

  lemma Stretch<V>(g: Graph<V>, p: seq<V>, i: nat, j: nat)
    requires IsWalk(g, p) && i < j <= |p|
    ensures IsWalk(g, p[i..j])
  {
    var q := p[i..j];
    forall k | 0 < k < |q| ensures (q[k - 1], q[k]) in g {
      assert q[k] == p[i + k] && q[k - 1] == p[i + k - 1];
    }
  }

  lemma CostSplit<V>(w: Weights<V>, p: seq<V>, i: nat)
    requires IsWalk(w.Keys, p) && i < |p|
    ensures IsWalk(w.Keys, p[..i + 1]) && IsWalk(w.Keys, p[i..])
    ensures Cost(w, p) == Cost(w, p[..i + 1]) + Cost(w, p[i..])
  {
    hide IsWalk, Cost;
    Stretch(w.Keys, p, 0, i + 1);
    Stretch(w.Keys, p, i, |p|);
    assert p[0..i + 1] == p[..i + 1] && p[i..|p|] == p[i..];
    CostJoin(w, p[..i + 1], p[i..]);
    assert p == p[..i + 1] + p[i..][1..];
  }

  /** Taking out a closed stretch leaves a walk that costs no more. */
  lemma CutOnce<V>(w: Weights<V>, p: seq<V>, i: nat, j: nat)
    requires IsWalk(w.Keys, p) && i < j < |p| && p[i] == p[j]
    ensures IsWalk(w.Keys, p[..i + 1] + p[j..][1..])
    ensures Cost(w, p[..i + 1] + p[j..][1..]) <= Cost(w, p)
  {
    hide IsWalk, Cost;
    CostSplit(w, p, i);
    CostSplit(w, p[i..], j - i);
    assert p[i..][j - i..] == p[j..];
    CostJoin(w, p[..i + 1], p[j..]);
  }

  /** Every walk can be cut down to one that visits no vertex twice and costs no more. */
  lemma {:induction false} CutCycles<V>(w: Weights<V>, p: seq<V>) returns (q: seq<V>)
    requires IsWalk(w.Keys, p)
    ensures Connects(w.Keys, q, p[0], p[|p| - 1]) && Distinct(q) && Cost(w, q) <= Cost(w, p)
    ensures forall v :: v in q ==> v in p
    decreases |p|
  {
    if Distinct(p) {
      q := p;
    } else {
      var i, j :| 0 <= i < j < |p| && p[i] == p[j];
      CutOnce(w, p, i, j);
      q := CutCycles(w, p[..i + 1] + p[j..][1..]);
    }
  }

  /** The same for plain walks. */
  lemma Simplify<V>(g: Graph<V>, p: seq<V>) returns (q: seq<V>)
    requires IsWalk(g, p)
    ensures Connects(g, q, p[0], p[|p| - 1]) && Distinct(q)
    ensures forall v :: v in q ==> v in p
  {
    var w: Weights<V> := map e | e in g :: 0;
    assert w.Keys == g;
    q := CutCycles(w, p);
  }

  lemma {:induction false} DistinctFits<V>(p: seq<V>, vs: set<V>)
    requires Distinct(p) && forall v :: v in p ==> v in vs
    ensures |p| <= |vs|
    decreases |p|
  {
    if p != [] {
      var l := p[|p| - 1];
      forall v | v in p[..|p| - 1] ensures v in vs - {l} { }
      DistinctFits(p[..|p| - 1], vs - {l});
    }
  }

  lemma {:induction false} CostBound<V>(w: Weights<V>, p: seq<V>, top: nat)
    requires IsWalk(w.Keys, p) && forall e :: e in w ==> w[e] <= top
    ensures Cost(w, p) <= (|p| - 1) * top
    decreases |p|
  {
    if |p| > 1 {
      CostBound(w, p[..|p| - 1], top);
      assert (|p| - 2) * top + top == (|p| - 1) * top;
    }
  }

  lemma Widen(a: nat, b: nat, top: nat)
    requires a <= b
    ensures a * top <= b * top
  { }

  lemma StaysOver<V(!new)>(g: Graph<V>, vs: set<V>, p: seq<V>)
    requires IsWalk(g, p) && p[0] in vs && Over(g, vs)
    ensures forall v :: v in p ==> v in vs
  {
    forall i | 0 < i < |p| ensures p[i] in vs {
      assert (p[i - 1], p[i]) in g;
    }
  }

  /** In a graph over `vs` two joined vertices are joined by a walk of cost at most |vs| - 1 times the dearest edge. */
  lemma CheapWalk<V(!new)>(w: Weights<V>, vs: set<V>, p: seq<V>, top: nat) returns (q: seq<V>)
    requires IsWalk(w.Keys, p) && p[0] in vs && Over(w.Keys, vs)
    requires forall e :: e in w ==> w[e] <= top
    ensures Connects(w.Keys, q, p[0], p[|p| - 1])
    ensures vs != {} && Cost(w, q) <= (|vs| - 1) * top
  {
    q := CutCycles(w, p);
    StaysOver(w.Keys, vs, q);
    DistinctFits(q, vs);
    CostBound(w, q, top);
    hide *;
    Widen(|q| - 1, |vs| - 1, top);
  }

  lemma ShortestBound<V(!new)>(w: Weights<V>, vs: set<V>, p: seq<V>, s: V, t: V, top: nat)
    requires Shortest(w, p, s, t) && s in vs && Over(w.Keys, vs)
    requires forall e :: e in w ==> w[e] <= top
    ensures vs != {} && Cost(w, p) <= (|vs| - 1) * top
  {
    var q := CheapWalk(w, vs, p, top);
  }
}
