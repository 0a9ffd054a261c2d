/** The index-based graph: nodes and edges in vectors, removal by swapping in the last element. */
module DiGraphs {
  import opened Meshes
  import opened Wrappers
  import Walks

  type Links = map<(NodeId, NodeId), LinkWeight>
  type Slots = map<(NodeId, NodeId), nat>
  datatype Edge = Edge(src: nat, dst: nat, weight: LinkWeight)

  function SwapRemove<T>(s: seq<T>, i: nat): seq<T>
    requires i < |s|
  {
    s[i := s[|s| - 1]][..|s| - 1]
  }

  function Search(edges: seq<Edge>, a: nat, b: nat): (r: Option<nat>)
    ensures r.Some? ==> r.value < |edges| && edges[r.value].src == a && edges[r.value].dst == b
    ensures r.None? ==> forall e :: e in edges ==> e.src != a || e.dst != b
  {
    if edges == [] then None
    else if edges[|edges| - 1].src == a && edges[|edges| - 1].dst == b then Some(|edges| - 1)
    else Search(edges[..|edges| - 1], a, b)
  }

  function FirstTouching(edges: seq<Edge>, a: nat): (r: Option<nat>)
    ensures r.Some? ==> r.value < |edges| && Touches(edges[r.value], a)
    ensures r.None? ==> forall i :: 0 <= i < |edges| ==> !Touches(edges[i], a)
  {
    if edges == [] then None
    else if Touches(edges[|edges| - 1], a) then Some(|edges| - 1)
    else FirstTouching(edges[..|edges| - 1], a)
  }

  predicate Touches(e: Edge, a: nat) {
    e.src == a || e.dst == a
  }

  /** Edge removal, one swap at a time, until no edge touches node a. */
  function Detach(edges: seq<Edge>, a: nat): (r: seq<Edge>)
    ensures forall i :: 0 <= i < |r| ==> !Touches(r[i], a)
    decreases |edges|
  {
    match FirstTouching(edges, a)
    case None => edges
    case Some(i) => Detach(SwapRemove(edges, i), a)
  }

  /** Where a node sits after node a has been swap-removed and `last` took its slot. */
  function Moved(i: nat, a: nat, last: nat): nat {
    if i == last then a else i
  }

  function Redirect(edges: seq<Edge>, a: nat, last: nat): seq<Edge> {
    seq(|edges|, i requires 0 <= i < |edges| =>
      Edge(Moved(edges[i].src, a, last), Moved(edges[i].dst, a, last), edges[i].weight))
  }

  datatype DiGraph = DiGraph(nodes: seq<NodeId>, edges: seq<Edge>) {
    function AddNode(n: NodeId): DiGraph {
      DiGraph(nodes + [n], edges)
    }

    function FindEdge(a: nat, b: nat): Option<nat> {
      Search(edges, a, b)
    }

    function UpdateEdge(a: nat, b: nat, w: LinkWeight): DiGraph {
      match FindEdge(a, b)
      case Some(i) => DiGraph(nodes, edges[i := Edge(a, b, w)])
      case None => DiGraph(nodes, edges + [Edge(a, b, w)])
    }

    function RemoveEdge(i: nat): DiGraph
      requires i < |edges|
    {
      DiGraph(nodes, SwapRemove(edges, i))
    }

    function RemoveNode(a: nat): DiGraph
      requires a < |nodes|
    {
      DiGraph(SwapRemove(nodes, a), Redirect(Detach(edges, a), a, |nodes| - 1))
    }
  }

  /** The index map is the exact inverse of the node vector. */
  ghost predicate Indexed(nodes: seq<NodeId>, indices: map<NodeId, nat>) {
    && (forall n :: n in indices ==> indices[n] < |nodes| && nodes[indices[n]] == n)
    && (forall i :: 0 <= i < |nodes| ==> nodes[i] in indices && indices[nodes[i]] == i)
  }

  ghost predicate InRange(nodes: seq<NodeId>, e: Edge) {
    e.src < |nodes| && e.dst < |nodes|
  }

  ghost function Ends(nodes: seq<NodeId>, e: Edge): (NodeId, NodeId)
    requires InRange(nodes, e)
  {
    (nodes[e.src], nodes[e.dst])
  }

  /** The edges are exactly the links: link k sits in slot slots[k] and nowhere else, so no two edges are parallel. */
  ghost predicate Edged(nodes: seq<NodeId>, edges: seq<Edge>, links: Links, slots: Slots) {
    && slots.Keys == links.Keys
    && (forall k :: k in slots ==> slots[k] < |edges| && edges[slots[k]].weight == links[k])
    && (forall i :: 0 <= i < |edges| ==>
          InRange(nodes, edges[i]) && Ends(nodes, edges[i]) in slots && slots[Ends(nodes, edges[i])] == i)
    && (forall k :: k in slots ==> InRange(nodes, edges[slots[k]]) && Ends(nodes, edges[slots[k]]) == k)
  }

  ghost predicate Represents(g: DiGraph, m: Mesh, slots: Slots) {
    && (forall n :: n in g.nodes <==> n in m.nodes)
    && Edged(g.nodes, g.edges, m.links, slots)
  }

  lemma SwapRemoveNames(nodes: seq<NodeId>, indices: map<NodeId, nat>, a: nat)
    requires Indexed(nodes, indices) && a < |nodes|
    ensures Walks.Distinct(SwapRemove(nodes, a))
    ensures forall n :: n in SwapRemove(nodes, a) <==> n in nodes && n != nodes[a]
  {
    var nodes', last := SwapRemove(nodes, a), |nodes| - 1;
    assert forall i :: 0 <= i < last ==> nodes'[i] == nodes[if i == a then last else i];
    forall n | n in nodes && n != nodes[a] ensures n in nodes' {
      assert nodes'[Moved(indices[n], a, last)] == n;
    }
    forall n | n in nodes' ensures n != nodes[a] {
      var i :| 0 <= i < last && nodes'[i] == n;
      assert indices[n] == if i == a then last else i;
    }
    forall i, j | 0 <= i < j < last ensures nodes'[i] != nodes'[j] {
      assert indices[nodes'[i]] == if i == a then last else i;
      assert indices[nodes'[j]] == if j == a then last else j;
    }
  }

  lemma AddNodeEdged(nodes: seq<NodeId>, n: NodeId, edges: seq<Edge>, links: Links, slots: Slots)
    requires Edged(nodes, edges, links, slots)
    ensures Edged(nodes + [n], edges, links, slots)
  {
    assert forall e :: InRange(nodes, e) ==> InRange(nodes + [n], e) && Ends(nodes + [n], e) == Ends(nodes, e);
  }

  lemma Found(g: DiGraph, indices: map<NodeId, nat>, links: Links, slots: Slots, a: nat, b: nat)
    requires Indexed(g.nodes, indices) && Edged(g.nodes, g.edges, links, slots) && a < |g.nodes| && b < |g.nodes|
    ensures var k := (g.nodes[a], g.nodes[b]);
      && (k in links <==> g.FindEdge(a, b).Some?)
      && (k in links ==> slots[k] == g.FindEdge(a, b).value)
  {
    var k := (g.nodes[a], g.nodes[b]);
    if k in links {
      var e := g.edges[slots[k]];
      assert e.src == indices[g.nodes[e.src]] == a && e.dst == indices[g.nodes[e.dst]] == b;
      assert e in g.edges;
    }
  }

  lemma UpdateEdgeEdged(g: DiGraph, indices: map<NodeId, nat>, links: Links, slots: Slots, a: nat, b: nat,
        w: LinkWeight) returns (slots': Slots)
    requires Indexed(g.nodes, indices) && Edged(g.nodes, g.edges, links, slots) && a < |g.nodes| && b < |g.nodes|
    ensures Edged(g.nodes, g.UpdateEdge(a, b, w).edges, links[(g.nodes[a], g.nodes[b]) := w], slots')
  {
    Found(g, indices, links, slots, a, b);
    var k := (g.nodes[a], g.nodes[b]);
    slots' := if k in links then slots else slots[k := |g.edges|];
  }

  lemma SwapRemoveAt<T>(s: seq<T>, i: nat)
    requires i < |s|
    ensures |SwapRemove(s, i)| == |s| - 1
    ensures forall j :: 0 <= j < |s| - 1 ==> SwapRemove(s, i)[j] == s[if j == i then |s| - 1 else j]
  { }

  lemma RemoveEdgeEdged(g: DiGraph, links: Links, slots: Slots, i: nat) returns (slots': Slots)
    requires Edged(g.nodes, g.edges, links, slots) && i < |g.edges|
    ensures Edged(g.nodes, g.RemoveEdge(i).edges, links - {Ends(g.nodes, g.edges[i])}, slots')
  {
    SwapRemoveAt(g.edges, i);
    hide SwapRemove;
    var k, last := Ends(g.nodes, g.edges[i]), |g.edges| - 1;
    slots' := (if i == last then slots else slots[Ends(g.nodes, g.edges[last]) := i]) - {k};
  }

  lemma Untouched(g: DiGraph, links: Links, slots: Slots, indices: map<NodeId, nat>, a: nat)
    requires Indexed(g.nodes, indices) && Edged(g.nodes, g.edges, links, slots) && a < |g.nodes|
    requires forall i :: 0 <= i < |g.edges| ==> !Touches(g.edges[i], a)
    ensures Without(links, g.nodes[a]) == links
  {
    forall k | k in links ensures k.0 != g.nodes[a] && k.1 != g.nodes[a] {
      var e := g.edges[slots[k]];
      assert indices[g.nodes[e.src]] == e.src && indices[g.nodes[e.dst]] == e.dst && indices[g.nodes[a]] == a;
    }
  }

  lemma WithoutStep(links: Links, k: (NodeId, NodeId), n: NodeId)
    requires k.0 == n || k.1 == n
    ensures Without(links - {k}, n) == Without(links, n)
  { }

  lemma {:induction false} DetachEdged(g: DiGraph, links: Links, slots: Slots, indices: map<NodeId, nat>, a: nat)
      returns (slots': Slots)
    requires Indexed(g.nodes, indices) && Edged(g.nodes, g.edges, links, slots) && a < |g.nodes|
    ensures Edged(g.nodes, Detach(g.edges, a), Without(links, g.nodes[a]), slots')
    decreases |g.edges|
  {
    match FirstTouching(g.edges, a)
    case None =>
      slots' := slots;
      Untouched(g, links, slots, indices, a);
    case Some(i) =>
      var k := Ends(g.nodes, g.edges[i]);
      var s := RemoveEdgeEdged(g, links, slots, i);
      slots' := DetachEdged(g.RemoveEdge(i), links - {k}, s, indices, a);
      WithoutStep(links, k, g.nodes[a]);
  }

  lemma MovedEnds(nodes: seq<NodeId>, e: Edge, a: nat)
    requires a < |nodes| && InRange(nodes, e) && !Touches(e, a)
    ensures var e' := Edge(Moved(e.src, a, |nodes| - 1), Moved(e.dst, a, |nodes| - 1), e.weight);
      InRange(SwapRemove(nodes, a), e') && Ends(SwapRemove(nodes, a), e') == Ends(nodes, e)
  { }

  lemma RedirectEdged(nodes: seq<NodeId>, edges: seq<Edge>, links: Links, slots: Slots, a: nat)
    requires Edged(nodes, edges, links, slots) && a < |nodes|
    requires forall i :: 0 <= i < |edges| ==> !Touches(edges[i], a)
    ensures Edged(SwapRemove(nodes, a), Redirect(edges, a, |nodes| - 1), links, slots)
  {
    var nodes', edges' := SwapRemove(nodes, a), Redirect(edges, a, |nodes| - 1);
    forall i | 0 <= i < |edges| ensures InRange(nodes', edges'[i]) && Ends(nodes', edges'[i]) == Ends(nodes, edges[i]) {
      MovedEnds(nodes, edges[i], a);
    }
  }

  lemma RemoveNodeEdged(g: DiGraph, links: Links, slots: Slots, indices: map<NodeId, nat>, a: nat)
      returns (slots': Slots)
    requires Indexed(g.nodes, indices) && Edged(g.nodes, g.edges, links, slots) && a < |g.nodes|
    ensures Edged(g.RemoveNode(a).nodes, g.RemoveNode(a).edges, Without(links, g.nodes[a]), slots')
  {
    slots' := DetachEdged(g, links, slots, indices, a);
    RedirectEdged(g.nodes, Detach(g.edges, a), Without(links, g.nodes[a]), slots', a);
  }
}
