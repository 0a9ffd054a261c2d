/** The topology graph of a node. Every method is tied to the operation of the same name on the name-keyed mesh. */
module GlobalGraphs {
  import opened DiGraphs
  import opened Forwarding
  import opened Meshes
  import opened Renaming
  import opened ShortestPaths
  import opened Wrappers
  import Walks

  /** Overflow happens: one link into an aggregator whose hop cost and penalty exceed 32 bits is enough. */
  lemma PenaltyOverflows(a: NodeId, b: NodeId, hop: u32)
    requires a != b && hop > U32_MAX - AGGREGATOR_PENALTY
    ensures var m := Penalised(a, b, hop); WellFormed(m) && a in m.nodes && Overflows(Costs(m), a, [a], b)
  {
    var m := Penalised(a, b, hop);
    assert (a, b) in m.links && EntryCost(m, (a, b)) == hop + AGGREGATOR_PENALTY;
    assert Walks.Shortest(Costs(m), [a], a, a);
  }

  /** The mesh after adding an aggregator b and a link to it. */
  ghost function Penalised(a: NodeId, b: NodeId, hop: u32): Mesh {
    AddLink(AddNode(EMPTY, NodeDescriptor(b, AGGREGATOR, map[], 0)), LinkDescriptor(a, b, LinkWeight(hop, 0)))
  }

  class GlobalGraph {
    var graph: DiGraph
    var nodeIndices: map<NodeId, nat>
    var nodeMetadata: map<NodeId, NodeDescriptor>
    ghost var mesh: Mesh
    ghost var slots: Slots

    ghost predicate Valid()
      reads this
    {
      && Indexed(graph.nodes, nodeIndices)
      && Represents(graph, mesh, slots)
      && nodeMetadata == mesh.metadata
      && WellFormed(mesh)
    }

    constructor ()
      ensures Valid() && mesh == EMPTY
    {
      graph := DiGraph([], []);
      nodeIndices, nodeMetadata := map[], map[];
      mesh, slots := EMPTY, map[];
    }

    method AddNode(d: NodeDescriptor)
      requires Valid()
      modifies this
      ensures Valid() && mesh == Meshes.AddNode(old(mesh), d)
    {
      if d.nodeId !in nodeIndices {
        AddNodeEdged(graph.nodes, d.nodeId, graph.edges, mesh.links, slots);
        nodeIndices := nodeIndices[d.nodeId := |graph.nodes|];
        graph := graph.AddNode(d.nodeId);
      }
      AddNodeKeeps(mesh, d);
      nodeMetadata := nodeMetadata[d.nodeId := d];
      mesh := Meshes.AddNode(mesh, d);
    }

    /** Rebuilds the index map from the node vector. */
    method Reindex()
      requires Walks.Distinct(graph.nodes)
      modifies this`nodeIndices
      ensures Indexed(graph.nodes, nodeIndices)
    {
      nodeIndices := map[];
      for k := 0 to |graph.nodes|
        invariant Indexed(graph.nodes[..k], nodeIndices)
      {
        assert graph.nodes[..k + 1] == graph.nodes[..k] + [graph.nodes[k]];
        assert graph.nodes[k] !in graph.nodes[..k];
        nodeIndices := nodeIndices[graph.nodes[k] := k];
      }
      assert graph.nodes[..|graph.nodes|] == graph.nodes;
    }

    method RemoveNode(n: NodeId)
      requires Valid()
      modifies this
      ensures Valid() && mesh == Meshes.RemoveNode(old(mesh), n)
    {
      RemoveNodeKeeps(mesh, n);
      if n in nodeIndices {
        var a := nodeIndices[n];
        slots := RemoveNodeEdged(graph, mesh.links, slots, nodeIndices, a);
        SwapRemoveNames(graph.nodes, nodeIndices, a);
        graph := graph.RemoveNode(a);
        nodeMetadata := nodeMetadata - {n};
        mesh := Meshes.RemoveNode(mesh, n);
        Reindex();
      }
    }

    /** The entry-or-insert on the index map that AddLink performs for each end. */
    method Ensure(n: NodeId) returns (i: nat)
      requires Indexed(graph.nodes, nodeIndices) && Represents(graph, mesh, slots)
      modifies this`graph, this`nodeIndices, this`mesh
      ensures Indexed(graph.nodes, nodeIndices) && Represents(graph, mesh, slots)
      ensures mesh == old(mesh).(nodes := old(mesh).nodes + {n})
      ensures old(graph.nodes) <= graph.nodes && i < |graph.nodes| && graph.nodes[i] == n
    {
      if n !in nodeIndices {
        AddNodeEdged(graph.nodes, n, graph.edges, mesh.links, slots);
        nodeIndices := nodeIndices[n := |graph.nodes|];
        graph := graph.AddNode(n);
      }
      mesh := mesh.(nodes := mesh.nodes + {n});
      i := nodeIndices[n];
    }

    /** Adds the directed edge from a to b, or replaces its weight. */
    method SetDirected(a: nat, b: nat, w: LinkWeight)
      requires Indexed(graph.nodes, nodeIndices) && Represents(graph, mesh, slots) && a < |graph.nodes|
      requires b < |graph.nodes|
      modifies this`graph, this`mesh, this`slots
      ensures Represents(graph, mesh, slots) && graph.nodes == old(graph.nodes)
      ensures mesh == old(mesh).(links := old(mesh).links[(graph.nodes[a], graph.nodes[b]) := w])
    {
      slots := UpdateEdgeEdged(graph, nodeIndices, mesh.links, slots, a, b, w);
      graph := graph.UpdateEdge(a, b, w);
      mesh := mesh.(links := mesh.links[(graph.nodes[a], graph.nodes[b]) := w]);
    }

    method AddLink(l: LinkDescriptor)
      requires Valid()
      modifies this
      ensures Valid() && mesh == Meshes.AddLink(old(mesh), l)
    {
      hide Indexed, Represents, WellFormed;
      AddLinkKeeps(mesh, l);
      var a := Ensure(l.nodeA);
      var b := Ensure(l.nodeB);
      SetDirected(a, b, l.weight);
      SetDirected(b, a, l.weight);
      assert mesh == Meshes.AddLink(old(mesh), l);
    }

    /** Removes the directed edge from a to b, when there is one. */
    method RemoveDirected(a: nat, b: nat)
      requires Indexed(graph.nodes, nodeIndices) && Represents(graph, mesh, slots) && a < |graph.nodes|
      requires b < |graph.nodes|
      modifies this`graph, this`mesh, this`slots
      ensures Represents(graph, mesh, slots) && graph.nodes == old(graph.nodes)
      ensures mesh == old(mesh).(links := old(mesh).links - {(graph.nodes[a], graph.nodes[b])})
    {
      Found(graph, nodeIndices, mesh.links, slots, a, b);
      mesh := mesh.(links := mesh.links - {(graph.nodes[a], graph.nodes[b])});
      match graph.FindEdge(a, b)
      case Some(i) =>
        slots := RemoveEdgeEdged(graph, old(mesh).links, slots, i);
        graph := graph.RemoveEdge(i);
      case None =>
        assert mesh.links == old(mesh).links;
    }

    method RemoveLink(a: NodeId, b: NodeId)
      requires Valid()
      modifies this
      ensures Valid() && mesh == Meshes.RemoveLink(old(mesh), a, b)
    {
      RemoveLinkKeeps(mesh, a, b);
      if a in nodeIndices && b in nodeIndices {
        RemoveDirected(nodeIndices[a], nodeIndices[b]);
        RemoveDirected(nodeIndices[b], nodeIndices[a]);
      }
    }

    method AddNodes(ds: seq<NodeDescriptor>)
      requires Valid()
      modifies this
      ensures Valid() && mesh == Meshes.AddNodes(old(mesh), ds)
    {
      for k := 0 to |ds|
        invariant Valid() && mesh == Meshes.AddNodes(old(mesh), ds[..k])
      {
        assert ds[..k + 1][..k] == ds[..k];
        AddNode(ds[k]);
      }
      assert ds[..|ds|] == ds;
    }

    method RemoveNodes(ns: seq<NodeId>)
      requires Valid()
      modifies this
      ensures Valid() && mesh == Meshes.RemoveNodes(old(mesh), ns)
    {
      for k := 0 to |ns|
        invariant Valid() && mesh == Meshes.RemoveNodes(old(mesh), ns[..k])
      {
        assert ns[..k + 1][..k] == ns[..k];
        RemoveNode(ns[k]);
      }
      assert ns[..|ns|] == ns;
    }

    method AddLinks(ls: seq<LinkDescriptor>)
      requires Valid()
      modifies this
      ensures Valid() && mesh == Meshes.AddLinks(old(mesh), ls)
    {
      for k := 0 to |ls|
        invariant Valid() && mesh == Meshes.AddLinks(old(mesh), ls[..k])
      {
        assert ls[..k + 1][..k] == ls[..k];
        AddLink(ls[k]);
      }
      assert ls[..|ls|] == ls;
    }

    method RemoveLinks(ls: seq<(NodeId, NodeId)>)
      requires Valid()
      modifies this
      ensures Valid() && mesh == Meshes.RemoveLinks(old(mesh), ls)
    {
      for k := 0 to |ls|
        invariant Valid() && mesh == Meshes.RemoveLinks(old(mesh), ls[..k])
      {
        assert ls[..k + 1][..k] == ls[..k];
        RemoveLink(ls[k].0, ls[k].1);
      }
      assert ls[..|ls|] == ls;
    }

    method ApplyUpdate(u: TopologyUpdate)
      requires Valid()
      modifies this
      ensures Valid() && mesh == Meshes.Apply(old(mesh), u)
    {
      AddNodes(u.nodesAdded);
      RemoveNodes(u.nodesRemoved);
      AddLinks(u.linksAdded);
      RemoveLinks(u.linksRemoved);
    }

    method NodeDescriptors() returns (ds: seq<NodeDescriptor>)
      requires forall k :: k in nodeMetadata ==> nodeMetadata[k].nodeId == k
      ensures forall d :: d in ds <==> d.nodeId in nodeMetadata && nodeMetadata[d.nodeId] == d
    {
      ds := [];
      var todo := nodeMetadata.Keys;
      while todo != {}
        invariant todo <= nodeMetadata.Keys
        invariant forall d :: d in ds <==> d.nodeId in nodeMetadata && d.nodeId !in todo && nodeMetadata[d.nodeId] == d
      {
        var k :| k in todo;
        todo := todo - {k};
        ds := ds + [nodeMetadata[k]];
      }
    }

    method LinkDescriptors() returns (ls: seq<LinkDescriptor>)
      requires Edged(graph.nodes, graph.edges, mesh.links, slots)
      ensures forall l :: l in ls <==> (l.nodeA, l.nodeB) in mesh.links && mesh.links[(l.nodeA, l.nodeB)] == l.weight
    {
      ls := [];
      for i := 0 to |graph.edges|
        invariant |ls| == i
        invariant forall j :: 0 <= j < i ==>
          var k := Ends(graph.nodes, graph.edges[j]); ls[j] == LinkDescriptor(k.0, k.1, graph.edges[j].weight)
      {
        var e := graph.edges[i];
        ls := ls + [LinkDescriptor(graph.nodes[e.src], graph.nodes[e.dst], e.weight)];
      }
      forall l: LinkDescriptor | (l.nodeA, l.nodeB) in mesh.links && mesh.links[(l.nodeA, l.nodeB)] == l.weight
        ensures l in ls
      {
        assert ls[slots[(l.nodeA, l.nodeB)]] == l;
      }
    }

    method GetDescriptors() returns (ds: seq<NodeDescriptor>, ls: seq<LinkDescriptor>)
      requires Valid()
      ensures IsSnapshot(mesh, ds, ls)
    {
      ds := NodeDescriptors();
      ls := LinkDescriptors();
    }

    /** Whether the graph has the directed edge between two named nodes. */
    method HasLink(a: NodeId, b: NodeId) returns (r: bool)
      requires Valid()
      ensures r <==> (a, b) in mesh.links
    {
      if a in nodeIndices && b in nodeIndices {
        Found(graph, nodeIndices, mesh.links, slots, nodeIndices[a], nodeIndices[b]);
        r := graph.FindEdge(nodeIndices[a], nodeIndices[b]).Some?;
      } else {
        r := false;
      }
    }

    // ─── Path computation ───

    ghost function Weighted(): Walks.Weights<nat>
      reads this
    {
      IndexCosts(graph.nodes, mesh)
    }

    /** The cost of taking edge k: its hop cost, plus the penalty for entering an aggregator. */
    method EdgeCost(k: nat) returns (c: nat)
      requires Valid() && k < |graph.edges|
      ensures (graph.edges[k].src, graph.edges[k].dst) in Weighted()
      ensures c == Weighted()[(graph.edges[k].src, graph.edges[k].dst)]
      ensures var e := graph.edges[k];
        && e.dst < |graph.nodes|
        && var target := graph.nodes[e.dst];
           c == e.weight.hopCost + if target in nodeMetadata && nodeMetadata[target].role == 1 then 10000 else 0
    {
      var e := graph.edges[k];
      IndexCost(graph.nodes, mesh, e.src, e.dst);
      assert Ends(graph.nodes, e) in slots;
      c := e.weight.hopCost;
      var target := graph.nodes[e.dst];
      if target in nodeMetadata && nodeMetadata[target].role == AGGREGATOR {
        c := c + AGGREGATOR_PENALTY;
      }
    }

    /** Scans the outgoing edges of a node that has just been settled; stops at the first sum beyond 32 bits. */
    method Scan(u: nat, dist0: Distances, pred0: map<nat, nat>, heap0: Heap, ghost s: nat, ghost settled: set<nat>,
          ghost paths0: Paths)
      returns (ok: bool, dist: Distances, pred: map<nat, nat>, heap: Heap, ghost paths: Paths, ghost bad: nat)
      requires Valid() && u in settled && s in settled
      requires Rooted(Weighted(), s, settled, dist0, pred0, paths0) && Queued(settled, dist0, heap0)
      requires Relaxed(Weighted(), Outgoing(Weighted(), settled - {u}), settled, dist0)
      requires forall x :: x in settled ==> dist0[x] <= dist0[u]
      ensures ok ==> Rooted(Weighted(), s, settled, dist, pred, paths) && Queued(settled, dist, heap)
      ensures ok ==> Relaxed(Weighted(), Outgoing(Weighted(), settled), settled, dist)
      ensures !ok ==> (u, bad) in Weighted() && dist0[u] + Weighted()[(u, bad)] > INFINITY
    {
      hide Valid, IndexCosts, Rooted, Queued, Weighted, Relaxed, Outgoing;
      ghost var w := Weighted();
      ghost var scanned := Outgoing(w, settled - {u});
      Domains(w, s, settled, dist0, pred0, paths0);
      ok, dist, pred, heap, paths, bad := true, dist0, pred0, heap0, paths0, 0;
      for k := 0 to |graph.edges|
        invariant ok && Rooted(w, s, settled, dist, pred, paths) && Queued(settled, dist, heap)
        invariant Relaxed(w, scanned, settled, dist)
        invariant Outgoing(w, settled - {u}) <= scanned
        invariant forall j :: 0 <= j < k && graph.edges[j].src == u ==> (u, graph.edges[j].dst) in scanned
        invariant forall x :: x in settled ==> x in dist && x in dist0 && dist[x] == dist0[x]
      {
        if graph.edges[k].src == u {
          var v := graph.edges[k].dst;
          var c := EdgeCost(k);
          var next := dist0[u] + c;
          Domains(w, s, settled, dist, pred, paths);
          if next > INFINITY {
            ok, bad := false, v;
            return;
          }
          if next < (if v in dist then dist[v] else INFINITY) {
            ImproveRooted(w, s, settled, dist, pred, paths, u, v);
            ImproveQueued(settled, dist, heap, v, next);
            ImproveRelaxed(w, scanned, settled, dist, v, next);
            paths := paths[v := paths[u] + [v]];
            dist := dist[v := next];
            pred := pred[v := u];
            heap := heap + multiset{HeapEntry(next, v)};
          }
          ScanOne(w, scanned, settled, dist, u, v);
          scanned := scanned + {(u, v)};
        }
      }
      AllScanned(u, settled, scanned);
      ScanFewer(w, scanned, Outgoing(w, settled), settled, dist);
    }

    lemma AllScanned(u: nat, settled: set<nat>, scanned: set<(nat, nat)>)
      requires Valid() && Outgoing(Weighted(), settled - {u}) <= scanned
      requires forall j :: 0 <= j < |graph.edges| && graph.edges[j].src == u ==> (u, graph.edges[j].dst) in scanned
      ensures Outgoing(Weighted(), settled) <= scanned
    {
      hide Valid, Weighted;
      forall e | e in Outgoing(Weighted(), settled) ensures e in scanned {
        if e.0 == u {
          EdgeFor(u, e.1);
        } else {
          assert e in Outgoing(Weighted(), settled - {u});
        }
      }
    }

    lemma EdgeFor(u: nat, v: nat)
      requires Valid() && (u, v) in Weighted()
      ensures exists j :: 0 <= j < |graph.edges| && graph.edges[j].src == u && graph.edges[j].dst == v
    {
      IndexCost(graph.nodes, mesh, u, v);
      var j := slots[(graph.nodes[u], graph.nodes[v])];
      var f := graph.edges[j];
      assert nodeIndices[graph.nodes[f.src]] == f.src && nodeIndices[graph.nodes[f.dst]] == f.dst;
    }

    /** Dijkstra's search with a heap that is cleaned when stale entries surface. */
    method Search(s: nat)
      returns (ok: bool, dist: Distances, pred: map<nat, nat>, ghost paths: Paths, ghost bad: (seq<nat>, nat))
      requires Valid() && s < |graph.nodes|
      ensures ok ==> Rooted(Weighted(), s, dist.Keys, dist, pred, paths)
      ensures ok ==> Relaxed(Weighted(), Outgoing(Weighted(), dist.Keys), dist.Keys, dist)
      ensures !ok ==> Overflows(Weighted(), s, bad.0, bad.1)
    {
      ghost var w := Weighted();
      InRangeOnly(s);
      hide *;
      ok, dist, pred, paths, bad := true, map[s := 0], map[], map[s := [s]], ([], 0);
      var heap := multiset{HeapEntry(0, s)};
      ghost var settled: set<nat> := {};
      Start(w, s);
      while heap != multiset{}
        invariant ok && Rooted(w, s, settled, dist, pred, paths) && Queued(settled, dist, heap)
        invariant Relaxed(w, Outgoing(w, settled), settled, dist)
        invariant s in settled || settled == {}
        decreases Range(|graph.nodes|) - settled, |heap|
      {
        var e, rest := Pop(heap);
        EntryIsKnown(settled, dist, heap, e);
        if e.cost > dist[e.node] {
          PopStale(settled, dist, heap, e);
          heap := rest;
        } else {
          var u := e.node;
          PopSettles(settled, dist, heap, e);
          Domains(w, s, settled, dist, pred, paths);
          ScanOverflows(w, s, settled, dist, pred, paths, u);
          Settle(w, s, settled, dist, pred, paths, heap, e);
          KnownInRange(w, s, settled, dist, pred, paths, u, |graph.nodes|);
          assert Range(|graph.nodes|) - (settled + {u}) < Range(|graph.nodes|) - settled;
          settled := settled + {u};
          ghost var v;
          ghost var p := paths[u];
          ok, dist, pred, heap, paths, v := Scan(u, dist, pred, rest, s, settled, paths);
          if !ok {
            bad := (p, v);
            return;
          }
        }
      }
      Drained(settled, dist);
    }

    lemma InRangeOnly(s: nat)
      ensures forall i, j :: (i, j) in Weighted() ==> i < |graph.nodes| && j < |graph.nodes|
    { }

    /** Follows the predecessors from `start` to the source and adds every step to the tree. */
    method WalkBack(s: nat, start: nat, pred: map<nat, nat>, tree0: Table<NodeId>, ghost dist: Distances,
          ghost paths: Paths)
      returns (tree: Table<NodeId>)
      requires Rooted(Weighted(), s, dist.Keys, dist, pred, paths) && InDomain(graph.nodes, paths)
      requires NoEmptyEntry(tree0)
      ensures NoEmptyEntry(tree)
      ensures forall a, b :: Sends(tree, a, b) <==>
        Sends(tree0, a, b) || (start in paths && Step(NamePath(graph.nodes, paths[start]), a, b))
    {
      hide *;
      tree := tree0;
      var current := start;
      WalkBackStarts(graph.nodes, paths, start, tree0);
      while current in pred
        invariant NoEmptyEntry(tree) && WalkedBack(graph.nodes, paths, start, current, tree0, tree)
        decreases if current in paths then |paths[current]| else 0
      {
        var parent := pred[current];
        WalkBackStep(graph.nodes, Weighted(), s, dist, pred, paths, start, current, tree0, tree);
        InsertSends(tree, graph.nodes[parent], graph.nodes[current]);
        tree := Insert(tree, graph.nodes[parent], graph.nodes[current]);
        current := parent;
        if current == s { break; }
      }
      WalkBackDone(graph.nodes, Weighted(), s, dist, pred, paths, start, current, tree0, tree);
    }

    /** The table of the multicast tree from `source` to the subscribers; `routes` is the ghost witness of its tree. */
    method ComputeForwardingTable(source: NodeId, subscribers: set<NodeId>)
      returns (r: Outcome<NodeId>, ghost routes: Routes<NodeId>)
      requires Valid()
      ensures subscribers == {} || source !in mesh.nodes ==> r == Computed(map[])
      ensures subscribers != {} && source in mesh.nodes ==>
        (r.Overflow? <==> exists p, v :: Overflows(Costs(mesh), source, p, v))
      ensures subscribers != {} && source in mesh.nodes && r.Computed? ==>
        IsForwardingTable(Costs(mesh), source, subscribers, routes, r.table)
    {
      routes := map[];
      if subscribers == {} || source !in nodeIndices {
        return Computed(map[]), routes;
      }
      var s := nodeIndices[source];
      var ok, dist, pred;
      ghost var paths, bad;
      ok, dist, pred, paths, bad := Search(s);
      assert Names(graph.nodes, nodeIndices, mesh);
      if !ok {
        OverflowNames(graph.nodes, nodeIndices, mesh, s, bad.0, bad.1);
        return Overflow, routes;
      }
      NoOverflowByName(graph.nodes, nodeIndices, mesh, s, dist, pred, paths);
      SearchYieldsRoutes(graph.nodes, nodeIndices, mesh, s, dist, pred, paths);
      routes := NamedRoutes(graph.nodes, nodeIndices, paths);
      var tree := BuildTree(s, subscribers, pred, dist, paths);
      r := Computed(tree);
    }

    method BuildTree(s: nat, subscribers: set<NodeId>, pred: map<nat, nat>, ghost dist: Distances, ghost paths: Paths)
      returns (tree: Table<NodeId>)
      requires Rooted(Weighted(), s, dist.Keys, dist, pred, paths) && InDomain(graph.nodes, paths)
      ensures Pruned(subscribers, NamedRoutes(graph.nodes, nodeIndices, paths), tree)
    {
      tree := map[];
      ghost var routes := NamedRoutes(graph.nodes, nodeIndices, paths);
      var todo := subscribers;
      ghost var visited: set<NodeId> := {};
      while todo != {}
        invariant todo + visited == subscribers
        invariant Pruned(visited, routes, tree)
      {
        var sub :| sub in todo;
        todo := todo - {sub};
        ghost var before := tree;
        if sub in nodeIndices {
          tree := WalkBack(s, nodeIndices[sub], pred, tree, dist, paths);
        }
        PrunedStep(visited, routes, before, tree, sub);
        visited := visited + {sub};
      }
      assert visited == subscribers;
    }
  }
}
