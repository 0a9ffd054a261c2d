/** What routing minimises, in the terms of the descriptors: hop costs, and 10000 for every aggregator entered. */
module Penalties {
  import opened Forwarding
  import opened Meshes
  import opened ShortestPaths
  import opened Walks

  ghost function HopCosts(m: Mesh): Weights<NodeId> {
    map k | k in m.links :: m.links[k].hopCost
  }

  /** A node that advertises role 1. */
  ghost predicate IsAggregator(m: Mesh, n: NodeId) {
    n in m.metadata && m.metadata[n].role == 1
  }

  /** The aggregators that the walk enters, as often as it enters them; where it starts does not count. */
  ghost function Entered(m: Mesh, p: seq<NodeId>): nat {
    if |p| <= 1 then 0 else Entered(m, p[..|p| - 1]) + if IsAggregator(m, p[|p| - 1]) then 1 else 0
  }

  lemma LinkCost(m: Mesh, k: (NodeId, NodeId))
    requires k in m.links
    ensures k in Costs(m) && Costs(m)[k] == m.links[k].hopCost + if IsAggregator(m, k.1) then 10000 else 0
  { }

  /** A walk costs the sum of its hop costs and 10000 for each aggregator it enters. */
  lemma {:induction false} WalkCost(m: Mesh, p: seq<NodeId>)
    requires IsWalk(m.links.Keys, p)
    ensures Costs(m).Keys == HopCosts(m).Keys == m.links.Keys
    ensures Cost(Costs(m), p) == Cost(HopCosts(m), p) + 10000 * Entered(m, p)
    decreases |p|
  {
    if |p| > 1 {
      var n := |p| - 1;
      assert (p[n - 1], p[n]) in m.links.Keys;
      LinkCost(m, (p[n - 1], p[n]));
      WalkCost(m, p[..n]);
    }
  }

  /**
   * Every walk in the table from the source has the least sum of hop costs and penalties of all walks between its ends.
   */
  lemma TableMinimises(m: Mesh, s: NodeId, subs: set<NodeId>, routes: Routes<NodeId>, table: Table<NodeId>,
        p: seq<NodeId>, q: seq<NodeId>)
    requires IsForwardingTable(Costs(m), s, subs, routes, table)
    requires |p| > 0 && IsTableWalk(table, p) && p[0] == s && Connects(m.links.Keys, q, s, p[|p| - 1])
    ensures IsWalk(m.links.Keys, p)
    ensures Cost(HopCosts(m), p) + 10000 * Entered(m, p) <= Cost(HopCosts(m), q) + 10000 * Entered(m, q)
  {
    TableWalkIsRoute(Costs(m), s, subs, routes, table, p);
    WalkCost(m, q);
    WalkCost(m, p);
  }

  /** Without aggregators the table minimises the sum of hop costs. */
  lemma PlainTableMinimises(m: Mesh, s: NodeId, subs: set<NodeId>, routes: Routes<NodeId>, table: Table<NodeId>,
        p: seq<NodeId>)
    requires IsForwardingTable(Costs(m), s, subs, routes, table)
    requires forall n :: n in m.metadata ==> m.metadata[n].role != 1
    requires |p| > 0 && IsTableWalk(table, p) && p[0] == s
    ensures Shortest(HopCosts(m), p, s, p[|p| - 1])
  {
    TableWalkIsRoute(Costs(m), s, subs, routes, table, p);
    assert Costs(m) == HopCosts(m);
  }

  /** Making a node an aggregator raises exactly the links into it, each by 10000. */
  lemma PenaltyRaises(m: Mesh, n: NodeId, k: (NodeId, NodeId))
    requires n in m.metadata && m.metadata[n].role != 1 && k in m.links
    ensures var m' := m.(metadata := m.metadata[n := m.metadata[n].(role := 1)]);
      k in Costs(m') && Costs(m')[k] == Costs(m)[k] + if k.1 == n then 10000 else 0
  {
    LinkCost(m, k);
    LinkCost(m.(metadata := m.metadata[n := m.metadata[n].(role := 1)]), k);
  }
}
