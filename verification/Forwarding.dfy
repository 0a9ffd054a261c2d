/** What a forwarding table must be, in terms of walks between node names, and the laws every such table obeys. */
module Forwarding {
  import opened Walks
  import opened ShortestPaths

  type Table<V(==)> = map<V, set<V>>
  type Routes<V> = map<V, seq<V>>

  datatype Outcome<V(==)> = Overflow | Computed(table: Table<V>)

  /** A cheapest walk p whose extension by the link to v exceeds the 32-bit range. */
  ghost predicate Overflows<V(!new)>(w: Weights<V>, s: V, p: seq<V>, v: V) {
    && |p| > 0 && Shortest(w, p, s, p[|p| - 1]) && (p[|p| - 1], v) in w
    && Cost(w, p) < INFINITY < Cost(w, p) + w[(p[|p| - 1], v)]
  }

  /** One cheapest walk per node that some walk below the sentinel reaches; the walks form a tree. */
  ghost predicate AreRoutes<V(!new)>(w: Weights<V>, s: V, routes: Routes<V>) {
    && s in routes && routes[s] == [s]
    && (forall t :: t in routes ==> Shortest(w, routes[t], s, t) && Cost(w, routes[t]) < INFINITY)
    && (forall q, t :: Connects(w.Keys, q, s, t) && Cost(w, q) < INFINITY ==> t in routes)
    && (forall t :: t in routes && t != s ==>
          && |routes[t]| > 1 && routes[t][|routes[t]| - 2] in routes
          && routes[t] == routes[routes[t][|routes[t]| - 2]] + [t])
  }

  /** When a settled node's scan goes beyond 32 bits, the node's route and that link are the reason. */
  lemma ScanOverflows(w: Weights<nat>, s: nat, settled: set<nat>, dist: Distances, pred: map<nat, nat>,
        paths: map<nat, seq<nat>>, u: nat)
    requires Rooted(w, s, settled, dist, pred, paths) && Relaxed(w, Outgoing(w, settled), settled, dist)
    requires u in dist && u in paths && (s in settled || settled == {})
    requires forall v :: v in dist && v !in settled ==> dist[u] <= dist[v]
    ensures forall v :: (u, v) in w && dist[u] + w[(u, v)] > INFINITY ==> Overflows(w, s, paths[u], v)
    ensures settled == {} ==> u == s
  {
    PopIsShortest(w, s, settled, dist, pred, paths, u);
  }

  lemma SearchFitsAt(w: Weights<nat>, s: nat, dist: Distances, pred: map<nat, nat>, paths: map<nat, seq<nat>>,
        p: seq<nat>, v: nat)
    requires Rooted(w, s, dist.Keys, dist, pred, paths) && Relaxed(w, Outgoing(w, dist.Keys), dist.Keys, dist)
    requires |p| > 0 && Shortest(w, p, s, p[|p| - 1]) && (p[|p| - 1], v) in w && Cost(w, p) < INFINITY
    ensures Cost(w, p) + w[(p[|p| - 1], v)] <= INFINITY
  {
    SearchIsExact(w, s, dist, pred, paths);
    var u := p[|p| - 1];
    assert Shortest(w, paths[u], s, u);
    assert (u, v) in Outgoing(w, dist.Keys);
  }

  /** A completed search met no overflow. */
  lemma SearchFits(w: Weights<nat>, s: nat, dist: Distances, pred: map<nat, nat>, paths: map<nat, seq<nat>>)
    requires Rooted(w, s, dist.Keys, dist, pred, paths) && Relaxed(w, Outgoing(w, dist.Keys), dist.Keys, dist)
    ensures forall p, v :: !Overflows(w, s, p, v)
  {
    forall p: seq<nat>, v: nat ensures !Overflows(w, s, p, v) {
      if |p| > 0 && Shortest(w, p, s, p[|p| - 1]) && (p[|p| - 1], v) in w && Cost(w, p) < INFINITY {
        SearchFitsAt(w, s, dist, pred, paths, p, v);
      }
    }
  }

  ghost predicate StepAt<V>(p: seq<V>, i: int, a: V, b: V) {
    0 < i < |p| && p[i - 1] == a && p[i] == b
  }

  ghost predicate Step<V>(p: seq<V>, a: V, b: V) {
    exists i :: StepAt(p, i, a, b)
  }

  /** A step at position k or later. */
  ghost predicate StepFrom<V>(p: seq<V>, k: nat, a: V, b: V) {
    exists i :: k <= i && StepAt(p, i, a, b)
  }

  ghost predicate Sends<V>(table: Table<V>, a: V, b: V) {
    a in table && b in table[a]
  }

  function Insert<V>(table: Table<V>, a: V, b: V): Table<V> {
    table[a := (if a in table then table[a] else {}) + {b}]
  }

  ghost predicate NoEmptyEntry<V>(table: Table<V>) {
    forall a :: a in table ==> table[a] != {}
  }

  lemma InsertSends<V(!new)>(table: Table<V>, a: V, b: V)
    ensures forall x, y :: Sends(Insert(table, a, b), x, y) <==> Sends(table, x, y) || (x == a && y == b)
    ensures NoEmptyEntry(table) ==> NoEmptyEntry(Insert(table, a, b))
  { }

  /** The tree built from position k + 1 of a route on, extended by the step before it. */
  lemma AddStep<V(!new)>(route: seq<V>, k: nat, tree0: Table<V>, tree: Table<V>, a: V, b: V)
    requires 0 < k < |route| && route[k - 1] == a && route[k] == b
    requires forall x, y :: Sends(tree, x, y) <==> Sends(tree0, x, y) || StepFrom(route, k + 1, x, y)
    ensures forall x, y :: Sends(Insert(tree, a, b), x, y) <==> Sends(tree0, x, y) || StepFrom(route, k, x, y)
  {
    InsertSends(tree, a, b);
    forall x, y ensures StepFrom(route, k, x, y) <==> StepFrom(route, k + 1, x, y) || (x == a && y == b) {
      assert StepAt(route, k, a, b);
    }
  }

  /** One predecessor step back along the route to `start`. */
  lemma StepBack(w: Weights<nat>, s: nat, dist: Distances, pred: map<nat, nat>, paths: map<nat, seq<nat>>, start: nat,
        current: nat)
    requires Rooted(w, s, dist.Keys, dist, pred, paths) && current in pred
    requires start in paths && current in paths && |paths[current]| <= |paths[start]|
    requires paths[current] == paths[start][..|paths[current]|]
    ensures var u := pred[current]; var k := |paths[current]| - 1;
      && u in paths && 0 < k < |paths[start]| && |paths[u]| == k
      && paths[u] == paths[start][..k] && paths[start][k - 1] == u && paths[start][k] == current
  {
    var u, k := pred[current], |paths[current]| - 1;
    assert Connects(w.Keys, paths[u], s, u);
    assert paths[current] == paths[u] + [current];
    assert paths[start][..k] == paths[current][..k];
    assert paths[start][k] == paths[current][k] && paths[start][k - 1] == paths[current][k - 1];
  }

  /** The table holds exactly the steps of the routes to the subscribers. */
  ghost predicate Pruned<V(!new)>(subs: set<V>, routes: Routes<V>, table: Table<V>) {
    && NoEmptyEntry(table)
    && (forall a, b :: Sends(table, a, b) <==> exists t :: t in subs && t in routes && Step(routes[t], a, b))
  }

  lemma PrunedStep<V(!new)>(visited: set<V>, routes: Routes<V>, before: Table<V>, table: Table<V>, sub: V)
    requires Pruned(visited, routes, before) && NoEmptyEntry(table)
    requires forall a, b :: Sends(table, a, b) <==> Sends(before, a, b) || (sub in routes && Step(routes[sub], a, b))
    ensures Pruned(visited + {sub}, routes, table)
  { }

  ghost predicate IsForwardingTable<V(!new)>(w: Weights<V>, s: V, subs: set<V>, routes: Routes<V>, table: Table<V>) {
    AreRoutes(w, s, routes) && Pruned(subs, routes, table)
  }

  /** Every prefix of a route is the route to its last node. */
  lemma {:induction false} RoutePrefix<V(!new)>(w: Weights<V>, s: V, routes: Routes<V>, t: V, i: nat)
    requires AreRoutes(w, s, routes) && t in routes && i < |routes[t]|
    ensures routes[t][i] in routes && routes[routes[t][i]] == routes[t][..i + 1]
    decreases |routes[t]|
  {
    var p := routes[t];
    assert Shortest(w, p, s, t);
    if i == |p| - 1 {
      assert p[..i + 1] == p;
    } else {
      var u := p[|p| - 2];
      assert t != s;
      assert p == routes[u] + [t];
      RoutePrefix(w, s, routes, u, i);
      assert p[..i + 1] == routes[u][..i + 1];
    }
  }

  /** The only sender of b is the node before b on b's own route. */
  lemma SenderIsUnique<V(!new)>(w: Weights<V>, s: V, subs: set<V>, routes: Routes<V>, table: Table<V>, a: V, b: V)
    requires IsForwardingTable(w, s, subs, routes, table) && Sends(table, a, b)
    ensures b in routes && |routes[b]| > 1 && routes[b][|routes[b]| - 2] == a
    ensures b != s && (a, b) in w && a in routes && routes[b] == routes[a] + [b]
  {
    var t :| t in subs && t in routes && Step(routes[t], a, b);
    var i :| StepAt(routes[t], i, a, b);
    RoutePrefix(w, s, routes, t, i);
    assert Shortest(w, routes[t], s, t);
  }

  /** Every key but the source is sent to by another key, so the table has no dead part. */
  lemma KeysAreFed<V(!new)>(w: Weights<V>, s: V, subs: set<V>, routes: Routes<V>, table: Table<V>, a: V) returns (c: V)
    requires IsForwardingTable(w, s, subs, routes, table) && a in table && a != s
    ensures Sends(table, c, a)
  {
    var b :| b in table[a];
    assert Sends(table, a, b);
    var t :| t in subs && t in routes && Step(routes[t], a, b);
    var i :| StepAt(routes[t], i, a, b);
    assert Shortest(w, routes[t], s, t);
    c := routes[t][i - 2];
    assert StepAt(routes[t], i - 1, c, a);
  }

  lemma InnerNodesForward<V(!new)>(subs: set<V>, routes: Routes<V>, table: Table<V>, t: V, i: nat)
    requires Pruned(subs, routes, table) && t in subs && t in routes && i < |routes[t]| - 1
    ensures routes[t][i] in table
  {
    assert StepAt(routes[t], i + 1, routes[t][i], routes[t][i + 1]);
    assert Sends(table, routes[t][i], routes[t][i + 1]);
  }

  /** A node that receives and does not forward is a subscriber. */
  lemma LeavesSubscribe<V(!new)>(w: Weights<V>, s: V, subs: set<V>, routes: Routes<V>, table: Table<V>, a: V, b: V)
    requires IsForwardingTable(w, s, subs, routes, table) && Sends(table, a, b) && b !in table
    ensures b in subs
  {
    var t :| t in subs && t in routes && Step(routes[t], a, b);
    var i :| StepAt(routes[t], i, a, b);
    assert Shortest(w, routes[t], s, t);
    if i < |routes[t]| - 1 { InnerNodesForward(subs, routes, table, t, i); assert false; }
  }

  ghost predicate IsTableWalk<V>(table: Table<V>, p: seq<V>) {
    |p| > 0 && forall i :: 0 < i < |p| ==> Sends(table, p[i - 1], p[i])
  }

  lemma RouteOf<V(!new)>(w: Weights<V>, s: V, routes: Routes<V>, t: V)
    requires AreRoutes(w, s, routes) && (t in routes || t == s)
    ensures t in routes && Shortest(w, routes[t], s, t) && (t == s ==> routes[t] == [s])
  { }

  /** From the source the table leads to each node along one walk only, and that walk is a cheapest one. */
  lemma {:induction false} TableWalkIsRoute<V(!new)>(w: Weights<V>, s: V, subs: set<V>, routes: Routes<V>,
        table: Table<V>, p: seq<V>)
    requires |p| > 0 && IsForwardingTable(w, s, subs, routes, table) && IsTableWalk(table, p) && p[0] == s
    ensures p[|p| - 1] in routes && p == routes[p[|p| - 1]] && Shortest(w, p, s, p[|p| - 1])
    decreases |p|
  {
    assert AreRoutes(w, s, routes);
    hide *;
    var last := p[|p| - 1];
    if |p| == 1 {
      RouteOf(w, s, routes, s);
    } else {
      var p' := p[..|p| - 1];
      LastStep(table, p);
      TableWalkIsRoute(w, s, subs, routes, table, p');
      SenderIsUnique(w, s, subs, routes, table, p[|p| - 2], last);
      RouteOf(w, s, routes, last);
    }
  }

  lemma LastStep<V>(table: Table<V>, p: seq<V>)
    requires IsTableWalk(table, p) && |p| > 1
    ensures IsTableWalk(table, p[..|p| - 1]) && Sends(table, p[|p| - 2], p[|p| - 1]) && p == p[..|p| - 1] + [p[|p| - 1]]
  { }

  /** Every subscriber that some walk below the sentinel reaches is reached in the table. */
  lemma SubscriberHasTableWalk<V(!new)>(w: Weights<V>, s: V, subs: set<V>, routes: Routes<V>, table: Table<V>,
        q: seq<V>, t: V)
    requires IsForwardingTable(w, s, subs, routes, table) && t in subs
    requires Connects(w.Keys, q, s, t) && Cost(w, q) < INFINITY
    ensures t in routes && IsTableWalk(table, routes[t]) && routes[t][0] == s && routes[t][|routes[t]| - 1] == t
  {
    var p := routes[t];
    assert Shortest(w, p, s, t);
    forall i | 0 < i < |p| ensures Sends(table, p[i - 1], p[i]) {
      assert StepAt(p, i, p[i - 1], p[i]);
      assert Step(p, p[i - 1], p[i]);
    }
  }

  /** With n nodes and links of at most `top`, n * top below the sentinel rules out overflow and hides no node. */
  lemma ArithmeticBound<V(!new)>(w: Weights<V>, vs: set<V>, s: V, top: nat)
    requires s in vs && Over(w.Keys, vs) && (forall e :: e in w ==> w[e] <= top) && |vs| * top < 0xFFFF_FFFF
    ensures forall p, v :: !Overflows(w, s, p, v)
    ensures forall q, t :: Connects(w.Keys, q, s, t) ==> exists p :: Connects(w.Keys, p, s, t) && Cost(w, p) < INFINITY
  {
    assert (|vs| - 1) * top + top == |vs| * top;
    forall p, v ensures !Overflows(w, s, p, v) {
      if Overflows(w, s, p, v) {
        ShortestBound(w, vs, p, s, p[|p| - 1], top);
        assert false;
      }
    }
    forall q, t | Connects(w.Keys, q, s, t) ensures exists p :: Connects(w.Keys, p, s, t) && Cost(w, p) < INFINITY {
      var p := CheapWalk(w, vs, q, top);
    }
  }
}
