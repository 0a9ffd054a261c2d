/** The mesh topology as a plain name-keyed weighted graph: the reference that the index-based graph refines. */
module Meshes {

  datatype NodeId = NodeId(name: string)
  const U32_MAX := 0xFFFF_FFFF
  type u32 = x: int | 0 <= x <= U32_MAX

  /** NodeRole::Aggregator on the wire; every other value is an ordinary node. */
  const AGGREGATOR := 1
  const AGGREGATOR_PENALTY := 10000

  datatype NodeDescriptor = NodeDescriptor(nodeId: NodeId, role: int, capabilities: map<string, string>, lastSeen: nat)
  datatype LinkWeight = LinkWeight(hopCost: u32, rttMicros: nat)
  datatype LinkDescriptor = LinkDescriptor(nodeA: NodeId, nodeB: NodeId, weight: LinkWeight)
  datatype TopologyUpdate = TopologyUpdate(
    origin: NodeId, epoch: nat,
    nodesAdded: seq<NodeDescriptor>, nodesRemoved: seq<NodeId>,
    linksAdded: seq<LinkDescriptor>, linksRemoved: seq<(NodeId, NodeId)>)

  datatype Mesh = Mesh(
    nodes: set<NodeId>,
    links: map<(NodeId, NodeId), LinkWeight>,
    metadata: map<NodeId, NodeDescriptor>)

  const EMPTY := Mesh({}, map[], map[])

  /** Metadata only about known nodes, under their own names; links between known nodes, symmetric, equal weights. */
  ghost predicate WellFormed(m: Mesh) {
    && m.metadata.Keys <= m.nodes
    && (forall k :: k in m.metadata ==> m.metadata[k].nodeId == k)
    && (forall a, b :: (a, b) in m.links ==>
          a in m.nodes && b in m.nodes && (b, a) in m.links && m.links[(b, a)] == m.links[(a, b)])
  }

  ghost function AddNode(m: Mesh, d: NodeDescriptor): Mesh {
    Mesh(m.nodes + {d.nodeId}, m.links, m.metadata[d.nodeId := d])
  }

  /** The links that do not touch n. */
  ghost function Without(links: map<(NodeId, NodeId), LinkWeight>, n: NodeId): map<(NodeId, NodeId), LinkWeight> {
    map k | k in links && k.0 != n && k.1 != n :: links[k]
  }

  ghost function RemoveNode(m: Mesh, n: NodeId): Mesh {
    Mesh(m.nodes - {n}, Without(m.links, n), m.metadata - {n})
  }

  ghost function AddLink(m: Mesh, l: LinkDescriptor): Mesh {
    Mesh(m.nodes + {l.nodeA} + {l.nodeB},
         m.links[(l.nodeA, l.nodeB) := l.weight][(l.nodeB, l.nodeA) := l.weight],
         m.metadata)
  }

  ghost function RemoveLink(m: Mesh, a: NodeId, b: NodeId): Mesh {
    m.(links := m.links - {(a, b), (b, a)})
  }

  ghost function AddNodes(m: Mesh, ds: seq<NodeDescriptor>): Mesh {
    if ds == [] then m else AddNode(AddNodes(m, ds[..|ds| - 1]), ds[|ds| - 1])
  }

  ghost function RemoveNodes(m: Mesh, ns: seq<NodeId>): Mesh {
    if ns == [] then m else RemoveNode(RemoveNodes(m, ns[..|ns| - 1]), ns[|ns| - 1])
  }

  ghost function AddLinks(m: Mesh, ls: seq<LinkDescriptor>): Mesh {
    if ls == [] then m else AddLink(AddLinks(m, ls[..|ls| - 1]), ls[|ls| - 1])
  }

  ghost function RemoveLinks(m: Mesh, ls: seq<(NodeId, NodeId)>): Mesh {
    if ls == [] then m else
      var l := ls[|ls| - 1];
      RemoveLink(RemoveLinks(m, ls[..|ls| - 1]), l.0, l.1)
  }

  ghost function Apply(m: Mesh, u: TopologyUpdate): Mesh {
    RemoveLinks(AddLinks(RemoveNodes(AddNodes(m, u.nodesAdded), u.nodesRemoved), u.linksAdded), u.linksRemoved)
  }

  /** (ds, ls) lists the metadata and the directed links of m, in some order. */
  ghost predicate IsSnapshot(m: Mesh, ds: seq<NodeDescriptor>, ls: seq<LinkDescriptor>) {
    && (forall d :: d in ds <==> d.nodeId in m.metadata && m.metadata[d.nodeId] == d)
    && (forall l :: l in ls <==> (l.nodeA, l.nodeB) in m.links && m.links[(l.nodeA, l.nodeB)] == l.weight)
  }

  ghost function Firsts(ks: set<(NodeId, NodeId)>): set<NodeId> {
    set k | k in ks :: k.0
  }

  /** Both directions of every listed link. */
  ghost function BothWays(ls: seq<LinkDescriptor>): set<(NodeId, NodeId)> {
    if ls == [] then {} else
      var l := ls[|ls| - 1];
      BothWays(ls[..|ls| - 1]) + {(l.nodeA, l.nodeB), (l.nodeB, l.nodeA)}
  }

  ghost function Ids(ds: seq<NodeDescriptor>): set<NodeId> {
    set d | d in ds :: d.nodeId
  }

  /** r is m with the values of t laid over it on the keys ks. */
  ghost predicate Overlaid<K(!new), T(!new)>(r: map<K, T>, m: map<K, T>, t: map<K, T>, ks: set<K>) {
    && ks <= t.Keys
    && r.Keys == m.Keys + ks
    && forall k :: k in r ==> r[k] == if k in ks then t[k] else m[k]
  }

  lemma {:induction false} AddNodesMerges(m: Mesh, ds: seq<NodeDescriptor>, t: map<NodeId, NodeDescriptor>)
    requires forall d :: d in ds ==> d.nodeId in t && t[d.nodeId] == d
    ensures AddNodes(m, ds).nodes == m.nodes + Ids(ds) && AddNodes(m, ds).links == m.links
    ensures Overlaid(AddNodes(m, ds).metadata, m.metadata, t, Ids(ds))
  {
    if ds != [] {
      var init, last := ds[..|ds| - 1], ds[|ds| - 1];
      assert ds == init + [last];
      AddNodesMerges(m, init, t);
      assert Ids(ds) == Ids(init) + {last.nodeId};
    }
  }

  lemma {:induction false} BothWaysHas(ls: seq<LinkDescriptor>, l: LinkDescriptor)
    requires l in ls
    ensures (l.nodeA, l.nodeB) in BothWays(ls)
  {
    var last := |ls| - 1;
    if l != ls[last] { BothWaysHas(ls[..last], l); }
  }

  lemma {:induction false} AddLinksMerges(m: Mesh, ls: seq<LinkDescriptor>, t: map<(NodeId, NodeId), LinkWeight>)
    requires forall l :: l in ls ==> (l.nodeA, l.nodeB) in t && t[(l.nodeA, l.nodeB)] == l.weight
    requires forall a, b :: (a, b) in t ==> (b, a) in t && t[(b, a)] == t[(a, b)]
    ensures AddLinks(m, ls).nodes == m.nodes + Firsts(BothWays(ls)) && AddLinks(m, ls).metadata == m.metadata
    ensures Overlaid(AddLinks(m, ls).links, m.links, t, BothWays(ls))
  {
    if ls != [] {
      var init, last := ls[..|ls| - 1], ls[|ls| - 1];
      AddLinksMerges(m, init, t);
      assert BothWays(ls) == BothWays(init) + {(last.nodeA, last.nodeB), (last.nodeB, last.nodeA)};
      FirstsAdd(BothWays(init), last.nodeA, last.nodeB);
      assert AddLinks(m, ls) == AddLink(AddLinks(m, init), last);
      assert last in ls;
      hide BothWays, AddLinks, Firsts, Overlaid;
      OverlayTwo(AddLinks(m, init).links, m.links, t, BothWays(init), (last.nodeA, last.nodeB),
          (last.nodeB, last.nodeA), last.weight);
    }
  }

  lemma OverlayTwo<K(!new), T(!new)>(r: map<K, T>, m: map<K, T>, t: map<K, T>, ks: set<K>, k: K, l: K, v: T)
    requires Overlaid(r, m, t, ks) && k in t && l in t && t[k] == v && t[l] == v
    ensures Overlaid(r[k := v][l := v], m, t, ks + {k, l})
  { }

  lemma FirstsAdd(ks: set<(NodeId, NodeId)>, a: NodeId, b: NodeId)
    ensures Firsts(ks + {(a, b), (b, a)}) == Firsts(ks) + {a} + {b}
  {
    assert (a, b) in ks + {(a, b), (b, a)} && (b, a) in ks + {(a, b), (b, a)};
  }

  lemma SnapshotKeys(g: Mesh, ds: seq<NodeDescriptor>, ls: seq<LinkDescriptor>)
    requires WellFormed(g) && IsSnapshot(g, ds, ls)
    ensures Ids(ds) == g.metadata.Keys
    ensures BothWays(ls) == g.links.Keys
  {
    forall k | k in g.metadata ensures k in Ids(ds) { assert g.metadata[k] in ds; }
    forall k | k in g.links ensures k in BothWays(ls) { BothWaysHas(ls, LinkDescriptor(k.0, k.1, g.links[k])); }
    BothWaysWithin(g, ls);
  }

  lemma {:induction false} BothWaysWithin(g: Mesh, ls: seq<LinkDescriptor>)
    requires WellFormed(g) && forall l :: l in ls ==> (l.nodeA, l.nodeB) in g.links
    ensures BothWays(ls) <= g.links.Keys
  {
    if ls != [] { BothWaysWithin(g, ls[..|ls| - 1]); }
  }

  lemma OverlaidIsSum<K(!new), T(!new)>(r: map<K, T>, m: map<K, T>, t: map<K, T>)
    requires Overlaid(r, m, t, t.Keys)
    ensures r == m + t
  { }

  /** Applying a snapshot of g to h, in any emission order, lays g's metadata and links over h's. */
  lemma SnapshotMerges(h: Mesh, g: Mesh, u: TopologyUpdate)
    requires WellFormed(g)
    requires IsSnapshot(g, u.nodesAdded, u.linksAdded) && u.nodesRemoved == [] && u.linksRemoved == []
    ensures Apply(h, u) ==
      Mesh(h.nodes + g.metadata.Keys + Firsts(g.links.Keys), h.links + g.links, h.metadata + g.metadata)
  {
    var ds, ls := u.nodesAdded, u.linksAdded;
    SnapshotKeys(g, ds, ls);
    AddNodesMerges(h, ds, g.metadata);
    AddLinksMerges(AddNodes(h, ds), ls, g.links);
    hide Overlaid, Ids, BothWays, AddNodes, AddLinks, IsSnapshot, WellFormed, Firsts;
    OverlaidIsSum(AddNodes(h, ds).metadata, h.metadata, g.metadata);
    OverlaidIsSum(AddLinks(AddNodes(h, ds), ls).links, h.links, g.links);
  }

  /** The snapshot sent on connect rebuilds the metadata and the links; only nodes with neither are lost. */
  lemma SnapshotRebuilds(g: Mesh, u: TopologyUpdate)
    requires WellFormed(g)
    requires IsSnapshot(g, u.nodesAdded, u.linksAdded) && u.nodesRemoved == [] && u.linksRemoved == []
    ensures Apply(EMPTY, u).metadata == g.metadata && Apply(EMPTY, u).links == g.links
    ensures forall n :: n in g.nodes - Apply(EMPTY, u).nodes <==>
      n in g.nodes && n !in g.metadata && forall k :: k in g.links ==> n != k.0 && n != k.1
  {
    SnapshotMerges(EMPTY, g, u);
    EndpointsAreFirsts(g);
    hide Apply, IsSnapshot, WellFormed, Firsts;
    assert EMPTY.links + g.links == g.links && EMPTY.metadata + g.metadata == g.metadata;
  }

  lemma EndpointsAreFirsts(g: Mesh)
    requires WellFormed(g)
    ensures forall n :: n in Firsts(g.links.Keys) <==> exists k :: k in g.links && (n == k.0 || n == k.1)
  {
    forall k | k in g.links ensures k.1 in Firsts(g.links.Keys) { assert (k.1, k.0) in g.links; }
  }

  /** Receiving one's own snapshot changes nothing. */
  lemma SnapshotIdempotent(g: Mesh, u: TopologyUpdate)
    requires WellFormed(g)
    requires IsSnapshot(g, u.nodesAdded, u.linksAdded) && u.nodesRemoved == [] && u.linksRemoved == []
    ensures Apply(g, u) == g
  {
    hide Apply, IsSnapshot;
    SnapshotMerges(g, g, u);
    assert g.links + g.links == g.links && g.metadata + g.metadata == g.metadata;
    assert g.nodes + g.metadata.Keys + Firsts(g.links.Keys) == g.nodes;
  }

  lemma AddNodeKeeps(m: Mesh, d: NodeDescriptor)
    requires WellFormed(m)
    ensures WellFormed(AddNode(m, d))
  { }

  lemma RemoveNodeKeeps(m: Mesh, n: NodeId)
    requires WellFormed(m)
    ensures WellFormed(RemoveNode(m, n))
    ensures n !in m.nodes ==> RemoveNode(m, n) == m
    ensures n !in RemoveNode(m, n).nodes && forall k :: k in RemoveNode(m, n).links ==> k.0 != n && k.1 != n
    ensures forall k :: k in m.links && k.0 != n && k.1 != n ==>
      k in RemoveNode(m, n).links && RemoveNode(m, n).links[k] == m.links[k]
    ensures forall o :: o in m.metadata && o != n ==>
      o in RemoveNode(m, n).metadata && RemoveNode(m, n).metadata[o] == m.metadata[o]
  {
    if n !in m.nodes {
      assert RemoveNode(m, n).links == m.links && RemoveNode(m, n).metadata == m.metadata;
    }
  }

  lemma AddLinkKeeps(m: Mesh, l: LinkDescriptor)
    requires WellFormed(m)
    ensures WellFormed(AddLink(m, l))
  { }

  lemma RemoveLinkKeeps(m: Mesh, a: NodeId, b: NodeId)
    requires WellFormed(m)
    ensures WellFormed(RemoveLink(m, a, b))
    ensures a !in m.nodes || b !in m.nodes ==> RemoveLink(m, a, b) == m
    ensures m.links - {(a, b)} - {(b, a)} == RemoveLink(m, a, b).links
  {
    assert m.links - {(a, b)} - {(b, a)} == RemoveLink(m, a, b).links;
    if a !in m.nodes || b !in m.nodes {
      assert RemoveLink(m, a, b).links == m.links;
    }
  }

  // ─── What an update leaves ───

  /** The link between a and b is on the list, in either direction. */
  ghost predicate ListsLink(ls: seq<LinkDescriptor>, a: NodeId, b: NodeId) {
    exists l :: l in ls && ((l.nodeA == a && l.nodeB == b) || (l.nodeA == b && l.nodeB == a))
  }

  ghost predicate ListsEnd(ls: seq<LinkDescriptor>, n: NodeId) {
    exists l :: l in ls && (l.nodeA == n || l.nodeB == n)
  }

  lemma {:induction false} AddNodesHas(m: Mesh, ds: seq<NodeDescriptor>, n: NodeId)
    ensures AddNodes(m, ds).links == m.links
    ensures n in AddNodes(m, ds).nodes <==> n in m.nodes || exists d :: d in ds && d.nodeId == n
    ensures n in AddNodes(m, ds).metadata <==> n in m.metadata || exists d :: d in ds && d.nodeId == n
  {
    if ds != [] {
      var init, last := ds[..|ds| - 1], ds[|ds| - 1];
      assert ds == init + [last];
      AddNodesHas(m, init, n);
    }
  }

  lemma {:induction false} RemoveNodesHas(m: Mesh, ns: seq<NodeId>, n: NodeId, k: (NodeId, NodeId))
    ensures n in RemoveNodes(m, ns).nodes <==> n in m.nodes && n !in ns
    ensures n in RemoveNodes(m, ns).metadata <==> n in m.metadata && n !in ns
    ensures k in RemoveNodes(m, ns).links <==> k in m.links && k.0 !in ns && k.1 !in ns
  {
    if ns != [] {
      var init, last := ns[..|ns| - 1], ns[|ns| - 1];
      assert ns == init + [last];
      RemoveNodesHas(m, init, n, k);
    }
  }

  lemma {:induction false} AddLinksHas(m: Mesh, ls: seq<LinkDescriptor>, n: NodeId, k: (NodeId, NodeId))
    ensures AddLinks(m, ls).metadata == m.metadata
    ensures n in AddLinks(m, ls).nodes <==> n in m.nodes || ListsEnd(ls, n)
    ensures k in AddLinks(m, ls).links <==> k in m.links || ListsLink(ls, k.0, k.1)
  {
    if ls != [] {
      var init, last := ls[..|ls| - 1], ls[|ls| - 1];
      assert ls == init + [last];
      AddLinksHas(m, init, n, k);
    }
  }

  lemma {:induction false} RemoveLinksHas(m: Mesh, ls: seq<(NodeId, NodeId)>, k: (NodeId, NodeId))
    ensures RemoveLinks(m, ls).metadata == m.metadata && RemoveLinks(m, ls).nodes == m.nodes
    ensures k in RemoveLinks(m, ls).links <==> k in m.links && k !in ls && (k.1, k.0) !in ls
  {
    if ls != [] {
      var init, last := ls[..|ls| - 1], ls[|ls| - 1];
      assert ls == init + [last];
      RemoveLinksHas(m, init, k);
    }
  }

  /**
   * What an update that names things more than once leaves: a node both added and removed has no metadata, and is there
   * only as the end of an added link; a link both added and removed is gone; a link of a removed node is there only if
   * the update adds it.
   */
  lemma UpdateLeaves(m: Mesh, u: TopologyUpdate, n: NodeId, k: (NodeId, NodeId))
    ensures n in Apply(m, u).metadata <==>
      n !in u.nodesRemoved && (n in m.metadata || exists d :: d in u.nodesAdded && d.nodeId == n)
    ensures n in Apply(m, u).nodes <==>
      ListsEnd(u.linksAdded, n) ||
      (n !in u.nodesRemoved && (n in m.nodes || exists d :: d in u.nodesAdded && d.nodeId == n))
    ensures k in Apply(m, u).links <==>
      && k !in u.linksRemoved && (k.1, k.0) !in u.linksRemoved
      && (ListsLink(u.linksAdded, k.0, k.1) || (k in m.links && k.0 !in u.nodesRemoved && k.1 !in u.nodesRemoved))
  {
    var m1 := AddNodes(m, u.nodesAdded);
    var m2 := RemoveNodes(m1, u.nodesRemoved);
    var m3 := AddLinks(m2, u.linksAdded);
    AddNodesHas(m, u.nodesAdded, n);
    RemoveNodesHas(m1, u.nodesRemoved, n, k);
    AddLinksHas(m2, u.linksAdded, n, k);
    RemoveLinksHas(m3, u.linksRemoved, k);
    hide ListsEnd, ListsLink, AddNodes, RemoveNodes, AddLinks, RemoveLinks;
  }

  /** Of several descriptors of one node the last one counts. */
  lemma {:induction false} LastDescriptorCounts(m: Mesh, ds: seq<NodeDescriptor>, i: nat)
    requires i < |ds| && forall j :: i < j < |ds| ==> ds[j].nodeId != ds[i].nodeId
    ensures ds[i].nodeId in AddNodes(m, ds).metadata && AddNodes(m, ds).metadata[ds[i].nodeId] == ds[i]
    decreases |ds|
  {
    if i < |ds| - 1 { LastDescriptorCounts(m, ds[..|ds| - 1], i); }
  }

  /** Of several descriptors of one link, in either direction, the last one counts, for both directions. */
  lemma {:induction false} LastWeightCounts(m: Mesh, ls: seq<LinkDescriptor>, i: nat)
    requires i < |ls|
    requires forall j :: i < j < |ls| ==> !ListsLink([ls[j]], ls[i].nodeA, ls[i].nodeB)
    ensures var links, l := AddLinks(m, ls).links, ls[i];
      && (l.nodeA, l.nodeB) in links && links[(l.nodeA, l.nodeB)] == l.weight
      && (l.nodeB, l.nodeA) in links && links[(l.nodeB, l.nodeA)] == l.weight
    decreases |ls|
  {
    if i < |ls| - 1 {
      LastWeightCounts(m, ls[..|ls| - 1], i);
      var last := ls[|ls| - 1];
      assert last in [last];
    }
  }

  /** Cost of the directed link k: its hop cost, plus the penalty when it enters an aggregator. */
  ghost function EntryCost(m: Mesh, k: (NodeId, NodeId)): nat
    requires k in m.links
  {
    m.links[k].hopCost + if k.1 in m.metadata && m.metadata[k.1].role == AGGREGATOR then AGGREGATOR_PENALTY else 0
  }

  ghost function Costs(m: Mesh): map<(NodeId, NodeId), nat> {
    map k | k in m.links :: EntryCost(m, k)
  }
}
