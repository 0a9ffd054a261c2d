/** Acyclic peer graphs: every link is a bridge, and behind each link lies a branch of its own. */
module Trees {
  import opened Walks

  /** An undirected peer graph without self-links. */
  ghost predicate IsPeerGraph<V(!new)>(g: Graph<V>, nodes: set<V>) {
    Over(g, nodes) && Symmetric(g) && forall x :: (x, x) !in g
  }

  ghost function Cut<V>(g: Graph<V>, u: V, v: V): Graph<V> {
    g - {(u, v), (v, u)}
  }

  ghost predicate Joined<V(!new)>(g: Graph<V>, x: V, y: V) {
    exists p :: Connects(g, p, x, y)
  }

  /** Every link is a bridge. */
  ghost predicate Acyclic<V(!new)>(g: Graph<V>) {
    forall u, v :: (u, v) in g ==> !Joined(Cut(g, u, v), u, v)
  }

  /** The nodes on v's side of the link between u and v. */
  ghost function Branch<V(!new)>(g: Graph<V>, nodes: set<V>, u: V, v: V): set<V> {
    set t | t in nodes && Joined(Cut(g, u, v), v, t)
  }

  ghost function Reversed<V>(p: seq<V>): seq<V> {
    seq(|p|, i requires 0 <= i < |p| => p[|p| - 1 - i])
  }

  lemma JoinedBack<V(!new)>(g: Graph<V>, x: V, y: V)
    requires Symmetric(g) && Joined(g, x, y)
    ensures Joined(g, y, x)
  {
    var p :| Connects(g, p, x, y);
    var q := Reversed(p);
    forall i | 0 < i < |q| ensures (q[i - 1], q[i]) in g {
      assert (p[|p| - 1 - i], p[|p| - i]) in g;
    }
    assert Connects(g, q, y, x);
  }

  lemma JoinedVia<V(!new)>(g: Graph<V>, x: V, y: V, z: V)
    requires Joined(g, x, y) && Joined(g, y, z)
    ensures Joined(g, x, z)
  {
    var p :| Connects(g, p, x, y);
    var q :| Connects(g, q, y, z);
    Join(g, p, q);
  }

  lemma CutIsSymmetric<V(!new)>(g: Graph<V>, u: V, v: V)
    requires Symmetric(g)
    ensures Symmetric(Cut(g, u, v)) && Cut(g, u, v) == Cut(g, v, u)
  { }

  lemma Reaches<V(!new)>(g: Graph<V>, p: seq<V>, i: nat)
    requires IsWalk(g, p) && i < |p|
    ensures Joined(g, p[0], p[i]) && Joined(g, p[i], p[|p| - 1])
  {
    Stretch(g, p, 0, i + 1);
    Stretch(g, p, i, |p|);
    assert Connects(g, p[0..i + 1], p[0], p[i]) && Connects(g, p[i..|p|], p[i], p[|p| - 1]);
  }

  /** On the far side of a bridge no walk comes back to the near end. */
  lemma NeverBack<V(!new)>(g: Graph<V>, v: V, y: V, p: seq<V>)
    requires Symmetric(g) && Acyclic(g) && (v, y) in g && IsWalk(Cut(g, v, y), p) && p[0] == y
    ensures v !in p
  {
    if v in p {
      var i :| 0 <= i < |p| && p[i] == v;
      Reaches(Cut(g, v, y), p, i);
      CutIsSymmetric(g, v, y);
      JoinedBack(Cut(g, v, y), y, v);
      assert false;
    }
  }

  lemma AvoidsLinks<V(!new)>(g: Graph<V>, h: Graph<V>, p: seq<V>, v: V, z: V)
    requires h <= g && IsWalk(h, p) && v !in p
    ensures IsWalk(Cut(g, v, z), p) && IsWalk(Cut(g, z, v), p)
  {
    forall i | 0 < i < |p| ensures (p[i - 1], p[i]) in Cut(g, v, z) && (p[i - 1], p[i]) in Cut(g, z, v) {
      assert p[i - 1] in p && p[i] in p && (p[i - 1], p[i]) in h;
    }
  }

  lemma BranchHasRoot<V(!new)>(g: Graph<V>, nodes: set<V>, u: V, v: V)
    requires IsPeerGraph(g, nodes) && (u, v) in g
    ensures v in Branch(g, nodes, u, v)
    ensures Acyclic(g) ==> u !in Branch(g, nodes, u, v)
  {
    assert Connects(Cut(g, u, v), [v], v, v);
    if Joined(Cut(g, u, v), v, u) {
      CutIsSymmetric(g, u, v);
      JoinedBack(Cut(g, u, v), v, u);
    }
  }

  /** Going on from v: whatever lies beyond v lies behind one of v's other links. */
  lemma BranchGoesOn<V(!new)>(g: Graph<V>, nodes: set<V>, h: Graph<V>, v: V, t: V) returns (y: V)
    requires IsPeerGraph(g, nodes) && h <= g && t in nodes && t != v && Joined(h, v, t)
    ensures (v, y) in h && t in Branch(g, nodes, v, y)
  {
    var p0 :| Connects(h, p0, v, t);
    var p := Simplify(h, p0);
    y := p[1];
    assert (p[0], p[1]) in h;
    Stretch(h, p, 1, |p|);
    var q := p[1..|p|];
    AvoidsLinks(g, h, q, v, y);
    assert Connects(Cut(g, v, y), q, y, t);
  }

  lemma BranchComesFrom<V(!new)>(g: Graph<V>, nodes: set<V>, u: V, v: V, y: V, t: V)
    requires IsPeerGraph(g, nodes) && Acyclic(g) && (v, y) in g && y != u && t in Branch(g, nodes, v, y)
    ensures t in Branch(g, nodes, u, v)
  {
    var p :| Connects(Cut(g, v, y), p, y, t);
    NeverBack(g, v, y, p);
    AvoidsLinks(g, Cut(g, v, y), p, v, u);
    var q := [v, y];
    assert IsWalk(Cut(g, u, v), q);
    Join(Cut(g, u, v), q, p);
  }

  lemma BranchesDisjoint<V(!new)>(g: Graph<V>, nodes: set<V>, v: V, y: V, z: V)
    requires IsPeerGraph(g, nodes) && Acyclic(g) && (v, y) in g && (v, z) in g && y != z
    ensures Branch(g, nodes, v, y) !! Branch(g, nodes, v, z)
  {
    forall t | t in Branch(g, nodes, v, y) && t in Branch(g, nodes, v, z) ensures false {
      var h := Cut(g, v, y);
      CutIsSymmetric(g, v, y);
      var q :| Connects(Cut(g, v, z), q, z, t);
      NeverBack(g, v, z, q);
      AvoidsLinks(g, Cut(g, v, z), q, v, y);
      assert Connects(h, q, z, t) && Joined(h, z, t);
      JoinedBack(h, z, t);
      assert Connects(h, [z, v], z, v) && Joined(h, z, v);
      JoinedVia(h, y, t, z);
      JoinedVia(h, y, z, v);
      JoinedBack(h, y, v);
    }
  }

  /** The branches behind the links from v to `ys`. */
  ghost function Beyond<V(!new)>(g: Graph<V>, nodes: set<V>, v: V, ys: set<V>): set<V> {
    set y, t | y in ys && t in Branch(g, nodes, v, y) :: t
  }

  /** A branch is its root and, apart, the branches behind the root's other links. */
  lemma BranchSplits<V(!new)>(g: Graph<V>, nodes: set<V>, u: V, v: V)
    requires IsPeerGraph(g, nodes) && Acyclic(g) && (u, v) in g
    ensures Branch(g, nodes, u, v) == {v} + Beyond(g, nodes, v, Neighbours(g, v) - {u})
    ensures v !in Beyond(g, nodes, v, Neighbours(g, v) - {u})
  {
    var b, r := Branch(g, nodes, u, v), Beyond(g, nodes, v, Neighbours(g, v) - {u});
    BranchHasRoot(g, nodes, u, v);
    forall t | t in b && t != v ensures t in r {
      var y := BranchGoesOn(g, nodes, Cut(g, u, v), v, t);
      assert (v, y) in g && y in Neighbours(g, v);
    }
    forall t | t in r ensures t in b && t != v {
      var y :| y in Neighbours(g, v) - {u} && t in Branch(g, nodes, v, y);
      BranchComesFrom(g, nodes, u, v, y, t);
      BranchHasRoot(g, nodes, v, y);
    }
  }

  /** Seen from any node of a connected acyclic graph, the branches are all the other nodes. */
  lemma BranchesAreTheRest<V(!new)>(g: Graph<V>, nodes: set<V>, x: V)
    requires IsPeerGraph(g, nodes) && Acyclic(g) && Connected(g, nodes) && x in nodes
    ensures Beyond(g, nodes, x, Neighbours(g, x)) == nodes - {x}
  {
    var r := Beyond(g, nodes, x, Neighbours(g, x));
    forall t | t in nodes && t != x ensures t in r {
      var p :| Connects(g, p, x, t);
      assert Joined(g, x, t);
      var y := BranchGoesOn(g, nodes, g, x, t);
      assert (x, y) in g && y in Neighbours(g, x);
    }
    forall t | t in r ensures t in nodes - {x} {
      var y :| y in Neighbours(g, x) && t in Branch(g, nodes, x, y);
      BranchHasRoot(g, nodes, x, y);
    }
  }

  /** From x the tour goes on to a peer, not straight back, and differently in the two directions. */
  ghost predicate Turns<V(!new)>(g: Graph<V>, next: map<V, V>, prev: map<V, V>, x: V) {
    && x in next && x in prev && next[x] in next && prev[x] in prev && (x, next[x]) in g && (x, prev[x]) in g
    && next[next[x]] != x && prev[prev[x]] != x && next[x] != prev[x]
  }

  /** A closed tour of at least three nodes, with its reverse. */
  ghost predicate IsRing<V(!new)>(g: Graph<V>, next: map<V, V>, prev: map<V, V>) {
    && next != map[] && prev.Keys == next.Keys
    && forall x :: x in next ==> Turns(g, next, prev, x)
  }

  ghost predicate Closes<V>(g: Graph<V>, p: seq<V>) {
    |p| >= 3 && Distinct(p) && forall i :: 0 <= i < |p| ==>
        (p[i], p[After(i, |p|)]) in g && (p[i], p[Before(i, |p|)]) in g
  }

  ghost function NextOn<V(!new)>(p: seq<V>): map<V, V>
    requires Distinct(p)
  {
    map i | 0 <= i < |p| :: p[i] := p[After(i, |p|)]
  }

  ghost function PrevOn<V(!new)>(p: seq<V>): map<V, V>
    requires Distinct(p)
  {
    map i | 0 <= i < |p| :: p[i] := p[Before(i, |p|)]
  }

  lemma At<V(!new)>(p: seq<V>, i: nat)
    requires Distinct(p) && i < |p|
    ensures p[i] in NextOn(p) && NextOn(p)[p[i]] == p[After(i, |p|)]
    ensures p[i] in PrevOn(p) && PrevOn(p)[p[i]] == p[Before(i, |p|)]
  { }

  lemma Tours<V(!new)>(p: seq<V>)
    requires Distinct(p)
    ensures forall x :: (x in NextOn(p) <==> x in p) && (x in PrevOn(p) <==> x in p)
  { }

  lemma RingAt<V(!new)>(g: Graph<V>, p: seq<V>, i: nat)
    requires Closes(g, p) && i < |p|
    ensures Turns(g, NextOn(p), PrevOn(p), p[i])
  {
    Around(i, |p|);
    At(p, i);
    At(p, After(i, |p|));
    At(p, Before(i, |p|));
    hide NextOn, PrevOn, After, Before;
  }

  lemma RingOf<V(!new)>(g: Graph<V>, p: seq<V>)
    requires Closes(g, p)
    ensures IsRing(g, NextOn(p), PrevOn(p))
  {
    Tours(p);
    At(p, 0);
    assert NextOn(p) != map[] && NextOn(p).Keys == PrevOn(p).Keys;
    hide NextOn, PrevOn, Closes, Distinct, Turns;
    forall x | x in NextOn(p) ensures Turns(g, NextOn(p), PrevOn(p), x) {
      var i :| 0 <= i < |p| && p[i] == x;
      RingAt(g, p, i);
    }
  }

  lemma Around(i: nat, k: nat)
    requires i < k && k >= 3
    ensures After(i, k) < k && Before(i, k) < k && After(i, k) != Before(i, k)
    ensures After(After(i, k), k) != i && Before(Before(i, k), k) != i
  { }

  /** A peer graph with a link that is no bridge has a ring. */
  lemma CyclicHasRing<V(!new)>(g: Graph<V>, nodes: set<V>) returns (next: map<V, V>, prev: map<V, V>)
    requires IsPeerGraph(g, nodes) && !Acyclic(g)
    ensures IsRing(g, next, prev)
  {
    var u, v :| (u, v) in g && Joined(Cut(g, u, v), u, v);
    var p0 :| Connects(Cut(g, u, v), p0, u, v);
    var p := Simplify(Cut(g, u, v), p0);
    forall i | 0 <= i < |p| ensures (p[i], p[After(i, |p|)]) in g && (p[i], p[Before(i, |p|)]) in g {
      assert 0 < i ==> (p[i - 1], p[i]) in Cut(g, u, v);
      assert i < |p| - 1 ==> (p[(i + 1) - 1], p[i + 1]) in Cut(g, u, v);
    }
    assert Closes(g, p);
    next, prev := NextOn(p), PrevOn(p);
    RingOf(g, p);
  }

  function After(i: nat, k: nat): nat
    requires i < k
  {
    if i == k - 1 then 0 else i + 1
  }

  function Before(i: nat, k: nat): nat
    requires i < k
  {
    if i == 0 then k - 1 else i - 1
  }
}
