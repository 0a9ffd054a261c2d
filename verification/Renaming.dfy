/** Walks over node indices and walks over node names are the same walks. */
module Renaming {
  import opened Walks
  import opened Meshes
  import opened DiGraphs
  import opened ShortestPaths
  import opened Forwarding

  ghost function IndexCosts(nodes: seq<NodeId>, m: Mesh): Weights<nat> {
    map i, j | 0 <= i < |nodes| && 0 <= j < |nodes| && (nodes[i], nodes[j]) in m.links ::
        (i, j) := EntryCost(m, (nodes[i], nodes[j]))
  }

  /** The node vector, its index map and the mesh speak of the same nodes. */
  ghost predicate Names(nodes: seq<NodeId>, indices: map<NodeId, nat>, m: Mesh) {
    Indexed(nodes, indices) && (forall n :: n in nodes <==> n in m.nodes) && WellFormed(m)
  }

  ghost predicate Finished(w: Weights<nat>, s: nat, dist: Distances, pred: map<nat, nat>, paths: Paths) {
    Rooted(w, s, dist.Keys, dist, pred, paths) && Relaxed(w, Outgoing(w, dist.Keys), dist.Keys, dist)
  }

  ghost predicate Bounded(nodes: seq<NodeId>, p: seq<nat>) {
    forall i :: 0 <= i < |p| ==> p[i] < |nodes|
  }

  ghost function NamePath(nodes: seq<NodeId>, p: seq<nat>): seq<NodeId>
    requires Bounded(nodes, p)
  {
    seq(|p|, i requires 0 <= i < |p| => nodes[p[i]])
  }

  ghost function IndexPath(indices: map<NodeId, nat>, q: seq<NodeId>): seq<nat>
    requires forall i :: 0 <= i < |q| ==> q[i] in indices
  {
    seq(|q|, i requires 0 <= i < |q| => indices[q[i]])
  }

  lemma IndexCost(nodes: seq<NodeId>, m: Mesh, i: nat, j: nat)
    ensures (i, j) in IndexCosts(nodes, m) <==> i < |nodes| && j < |nodes| && (nodes[i], nodes[j]) in Costs(m)
    ensures (i, j) in IndexCosts(nodes, m) ==> IndexCosts(nodes, m)[(i, j)] == Costs(m)[(nodes[i], nodes[j])]
  { }

  lemma {:induction false} NamesOfWalk(nodes: seq<NodeId>, m: Mesh, p: seq<nat>)
    requires IsWalk(IndexCosts(nodes, m).Keys, p) && p[0] < |nodes|
    ensures Bounded(nodes, p)
    ensures IsWalk(Costs(m).Keys, NamePath(nodes, p))
    ensures Cost(Costs(m), NamePath(nodes, p)) == Cost(IndexCosts(nodes, m), p)
    decreases |p|
  {
    hide IndexCosts, Costs;
    if |p| > 1 {
      var p', i, j := p[..|p| - 1], p[|p| - 2], p[|p| - 1];
      NamesOfWalk(nodes, m, p');
      assert (i, j) in IndexCosts(nodes, m).Keys;
      IndexCost(nodes, m, i, j);
      assert NamePath(nodes, p)[..|p| - 1] == NamePath(nodes, p');
      forall k | 0 < k < |p| ensures (NamePath(nodes, p)[k - 1], NamePath(nodes, p)[k]) in Costs(m).Keys {
        if k < |p| - 1 { assert (NamePath(nodes, p')[k - 1], NamePath(nodes, p')[k]) in Costs(m).Keys; }
      }
    }
  }

  lemma IndicesOfWalk(nodes: seq<NodeId>, indices: map<NodeId, nat>, m: Mesh, q: seq<NodeId>) returns (p: seq<nat>)
    requires Names(nodes, indices, m)
    requires IsWalk(Costs(m).Keys, q) && q[0] in nodes
    ensures IsWalk(IndexCosts(nodes, m).Keys, p) && p[0] < |nodes| && Bounded(nodes, p) && NamePath(nodes, p) == q
  {
    forall i | 0 <= i < |q| ensures q[i] in indices {
      if i > 0 { assert (q[i - 1], q[i]) in m.links; }
    }
    p := IndexPath(indices, q);
    forall i | 0 < i < |p| ensures (p[i - 1], p[i]) in IndexCosts(nodes, m) {
      assert (q[i - 1], q[i]) in m.links;
    }
  }

  /** Naming keeps cheapest walks cheapest. */
  lemma NamesOfShortest(nodes: seq<NodeId>, indices: map<NodeId, nat>, m: Mesh, p: seq<nat>, s: nat, t: nat)
    requires Names(nodes, indices, m)
    requires s < |nodes| && Shortest(IndexCosts(nodes, m), p, s, t)
    ensures Bounded(nodes, p) && t < |nodes| && Shortest(Costs(m), NamePath(nodes, p), nodes[s], nodes[t])
    ensures Cost(Costs(m), NamePath(nodes, p)) == Cost(IndexCosts(nodes, m), p)
  {
    NamesOfWalk(nodes, m, p);
    forall q | Connects(Costs(m).Keys, q, nodes[s], nodes[t])
      ensures Cost(Costs(m), NamePath(nodes, p)) <= Cost(Costs(m), q)
    {
      var p' := IndicesOfWalk(nodes, indices, m, q);
      NamesOfWalk(nodes, m, p');
      assert indices[nodes[p'[0]]] == p'[0] && indices[nodes[p'[|p'| - 1]]] == p'[|p'| - 1];
      assert Connects(IndexCosts(nodes, m).Keys, p', s, t);
    }
  }

  lemma OverflowNames(nodes: seq<NodeId>, indices: map<NodeId, nat>, m: Mesh, s: nat, p: seq<nat>, v: nat)
    requires Names(nodes, indices, m)
    requires s < |nodes| && Overflows(IndexCosts(nodes, m), s, p, v)
    ensures Bounded(nodes, p) && v < |nodes| && Overflows(Costs(m), nodes[s], NamePath(nodes, p), nodes[v])
  {
    hide IndexCosts, Costs;
    NamesOfShortest(nodes, indices, m, p, s, p[|p| - 1]);
    IndexCost(nodes, m, p[|p| - 1], v);
  }

  lemma OverflowIndices(nodes: seq<NodeId>, indices: map<NodeId, nat>, m: Mesh, s: nat, q: seq<NodeId>, x: NodeId)
      returns (p: seq<nat>, v: nat)
    requires Names(nodes, indices, m)
    requires s < |nodes| && Overflows(Costs(m), nodes[s], q, x)
    ensures Overflows(IndexCosts(nodes, m), s, p, v)
  {
    p := IndicesOfWalk(nodes, indices, m, q);
    assert (q[|q| - 1], x) in m.links;
    v := indices[x];
    hide IndexCosts, Costs;
    NamesOfWalk(nodes, m, p);
    var t := p[|p| - 1];
    IndexCost(nodes, m, t, v);
    assert p[0] == s by { assert indices[nodes[p[0]]] == p[0] && indices[nodes[s]] == s; }
    forall p' | Connects(IndexCosts(nodes, m).Keys, p', s, t)
      ensures Cost(IndexCosts(nodes, m), p) <= Cost(IndexCosts(nodes, m), p')
    {
      NamesOfWalk(nodes, m, p');
      assert Connects(Costs(m).Keys, NamePath(nodes, p'), nodes[s], nodes[t]);
    }
  }

  lemma NoOverflowByName(nodes: seq<NodeId>, indices: map<NodeId, nat>, m: Mesh, s: nat, dist: Distances,
        pred: map<nat, nat>, paths: Paths)
    requires Names(nodes, indices, m) && s < |nodes| && Finished(IndexCosts(nodes, m), s, dist, pred, paths)
    ensures forall q, x :: !Overflows(Costs(m), nodes[s], q, x)
  {
    SearchFits(IndexCosts(nodes, m), s, dist, pred, paths);
    forall q, x ensures !Overflows(Costs(m), nodes[s], q, x) {
      if Overflows(Costs(m), nodes[s], q, x) {
        var p, v := OverflowIndices(nodes, indices, m, s, q, x);
        assert false;
      }
    }
  }

  ghost predicate InDomain(nodes: seq<NodeId>, paths: Paths) {
    forall t :: t in paths ==> t < |nodes| && Bounded(nodes, paths[t])
  }

  ghost function NamedRoutes(nodes: seq<NodeId>, indices: map<NodeId, nat>, paths: Paths): Routes<NodeId>
    requires InDomain(nodes, paths)
  {
    map n | n in indices && indices[n] in paths :: NamePath(nodes, paths[indices[n]])
  }

  lemma RoutesAreShortest(nodes: seq<NodeId>, indices: map<NodeId, nat>, m: Mesh, s: nat, dist: Distances,
        pred: map<nat, nat>, paths: Paths)
    requires Names(nodes, indices, m) && s < |nodes| && Finished(IndexCosts(nodes, m), s, dist, pred, paths)
    ensures InDomain(nodes, paths)
    ensures forall n :: n in NamedRoutes(nodes, indices, paths) ==>
      && Shortest(Costs(m), NamedRoutes(nodes, indices, paths)[n], nodes[s], n)
      && Cost(Costs(m), NamedRoutes(nodes, indices, paths)[n]) < INFINITY
  {
    hide IndexCosts, Costs, Relaxed;
    SearchIsExact(IndexCosts(nodes, m), s, dist, pred, paths);
    forall t | t in paths
      ensures t < |nodes| && Bounded(nodes, paths[t])
      ensures Shortest(Costs(m), NamePath(nodes, paths[t]), nodes[s], nodes[t])
      ensures Cost(Costs(m), NamePath(nodes, paths[t])) < INFINITY
    {
      NamesOfShortest(nodes, indices, m, paths[t], s, t);
    }
  }

  lemma RoutesAreComplete(nodes: seq<NodeId>, indices: map<NodeId, nat>, m: Mesh, s: nat, dist: Distances,
        pred: map<nat, nat>, paths: Paths, q: seq<NodeId>, n: NodeId)
    requires Names(nodes, indices, m) && s < |nodes| && Finished(IndexCosts(nodes, m), s, dist, pred, paths)
    requires InDomain(nodes, paths)
    requires Connects(Costs(m).Keys, q, nodes[s], n) && Cost(Costs(m), q) < INFINITY
    ensures n in NamedRoutes(nodes, indices, paths)
  {
    hide IndexCosts, Costs, Relaxed;
    SearchIsExact(IndexCosts(nodes, m), s, dist, pred, paths);
    var p := IndicesOfWalk(nodes, indices, m, q);
    NamesOfWalk(nodes, m, p);
    assert indices[nodes[p[0]]] == p[0] && indices[nodes[p[|p| - 1]]] == p[|p| - 1];
    assert Connects(IndexCosts(nodes, m).Keys, p, s, p[|p| - 1]);
  }

  lemma RoutesFormTree(nodes: seq<NodeId>, indices: map<NodeId, nat>, m: Mesh, s: nat, dist: Distances,
        pred: map<nat, nat>, paths: Paths, n: NodeId)
    requires Names(nodes, indices, m) && s < |nodes| && Finished(IndexCosts(nodes, m), s, dist, pred, paths)
    requires InDomain(nodes, paths)
    requires n in NamedRoutes(nodes, indices, paths) && n != nodes[s]
    ensures var routes := NamedRoutes(nodes, indices, paths); var r := routes[n];
      |r| > 1 && r[|r| - 2] in routes && r == routes[r[|r| - 2]] + [n]
  {
    hide IndexCosts, Costs, Relaxed;
    var t := indices[n];
    assert t in pred;
    var u := pred[t];
    assert paths[t] == paths[u] + [t] && Connects(IndexCosts(nodes, m).Keys, paths[u], s, u);
    assert indices[nodes[u]] == u;
  }

  /** The walks that the search recorded are, by name, one cheapest route per node. */
  lemma SearchYieldsRoutes(nodes: seq<NodeId>, indices: map<NodeId, nat>, m: Mesh, s: nat, dist: Distances,
        pred: map<nat, nat>, paths: Paths)
    requires Names(nodes, indices, m) && s < |nodes| && Finished(IndexCosts(nodes, m), s, dist, pred, paths)
    ensures InDomain(nodes, paths)
    ensures AreRoutes(Costs(m), nodes[s], NamedRoutes(nodes, indices, paths))
  {
    RoutesAreShortest(nodes, indices, m, s, dist, pred, paths);
    assert NamedRoutes(nodes, indices, paths)[nodes[s]] == [nodes[s]];
    hide IndexCosts, Costs, NamedRoutes, Finished, Names;
    forall q, n | Connects(Costs(m).Keys, q, nodes[s], n) && Cost(Costs(m), q) < INFINITY
      ensures n in NamedRoutes(nodes, indices, paths)
    {
      RoutesAreComplete(nodes, indices, m, s, dist, pred, paths, q, n);
    }
    forall n | n in NamedRoutes(nodes, indices, paths) && n != nodes[s]
      ensures var routes := NamedRoutes(nodes, indices, paths); var r := routes[n];
        |r| > 1 && r[|r| - 2] in routes && r == routes[r[|r| - 2]] + [n]
    {
      RoutesFormTree(nodes, indices, m, s, dist, pred, paths, n);
    }
  }

  /** The tree holds what it held before the walk back from `start`, plus the steps of its route beyond `current`. */
  ghost predicate WalkedBack(nodes: seq<NodeId>, paths: Paths, start: nat, current: nat, tree0: Table<NodeId>,
        tree: Table<NodeId>)
  {
    && InDomain(nodes, paths)
    && if start !in paths then current == start && tree == tree0 else
         && current in paths && |paths[current]| <= |paths[start]| && paths[current] == paths[start][..|paths[current]|]
         && forall a, b :: Sends(tree, a, b) <==>
              Sends(tree0, a, b) || StepFrom(NamePath(nodes, paths[start]), |paths[current]|, a, b)
  }

  lemma WalkBackStarts(nodes: seq<NodeId>, paths: Paths, start: nat, tree: Table<NodeId>)
    requires InDomain(nodes, paths)
    ensures WalkedBack(nodes, paths, start, start, tree, tree)
  {
    if start in paths {
      assert paths[start] == paths[start][..|paths[start]|];
    }
  }

  lemma WalkBackStep(nodes: seq<NodeId>, w: Weights<nat>, s: nat, dist: Distances, pred: map<nat, nat>, paths: Paths,
                     start: nat, current: nat, tree0: Table<NodeId>, tree: Table<NodeId>)
    requires Rooted(w, s, dist.Keys, dist, pred, paths) && current in pred
    requires WalkedBack(nodes, paths, start, current, tree0, tree)
    ensures var u := pred[current];
      && u < |nodes| && current < |nodes| && u in paths && current in paths && |paths[u]| < |paths[current]|
      && WalkedBack(nodes, paths, start, u, tree0, Insert(tree, nodes[u], nodes[current]))
  {
    assert start in paths;
    StepBack(w, s, dist, pred, paths, start, current);
    AddStep(NamePath(nodes, paths[start]), |paths[pred[current]]|, tree0, tree, nodes[pred[current]], nodes[current]);
  }

  lemma WalkBackDone(nodes: seq<NodeId>, w: Weights<nat>, s: nat, dist: Distances, pred: map<nat, nat>, paths: Paths,
                     start: nat, current: nat, tree0: Table<NodeId>, tree: Table<NodeId>)
    requires Rooted(w, s, dist.Keys, dist, pred, paths) && (current !in pred || current == s)
    requires WalkedBack(nodes, paths, start, current, tree0, tree)
    ensures forall a, b :: Sends(tree, a, b) <==>
      Sends(tree0, a, b) || (start in paths && Step(NamePath(nodes, paths[start]), a, b))
  {
    if start in paths {
      assert current == s;
      forall a, b
        ensures Step(NamePath(nodes, paths[start]), a, b) <==> StepFrom(NamePath(nodes, paths[start]), 1, a, b)
      {
        if Step(NamePath(nodes, paths[start]), a, b) {
          var i :| StepAt(NamePath(nodes, paths[start]), i, a, b);
          assert 1 <= i;
        }
      }
    }
  }
}
