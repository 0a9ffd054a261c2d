/** The search state of the path computation: tentative distances, predecessors and a lazily cleaned heap. */
module ShortestPaths {
  import opened Walks

  /** The sentinel that stands for "no distance yet", and the largest cost that can be represented. */
  const INFINITY := 0xFFFF_FFFF

  datatype HeapEntry = HeapEntry(cost: nat, node: nat)
  type Heap = multiset<HeapEntry>
  type Distances = map<nat, nat>
  type Paths = map<nat, seq<nat>>

  /** The recorded walks form a tree rooted at s: each is its predecessor's walk plus one step. */
  ghost predicate Rooted(w: Weights<nat>, s: nat, settled: set<nat>, dist: Distances, pred: map<nat, nat>,
        paths: Paths)
  {
    && settled <= dist.Keys == paths.Keys
    && pred.Keys == dist.Keys - {s}
    && s in dist && dist[s] == 0 && paths[s] == [s]
    && (forall v :: v in pred ==>
          && pred[v] in settled && (pred[v], v) in w
          && paths[v] == paths[pred[v]] + [v]
          && dist[v] == dist[pred[v]] + w[(pred[v], v)])
    && (forall v :: v in dist ==> Connects(w.Keys, paths[v], s, v) && Cost(w, paths[v]) == dist[v] < INFINITY)
  }

  /** A node's current distance is in the heap exactly once until the node is settled; other entries of it are stale. */
  ghost predicate Queued(settled: set<nat>, dist: Distances, heap: Heap) {
    && (forall e :: e in heap ==> e.node in dist && dist[e.node] <= e.cost)
    && (forall v :: v in dist ==> heap[HeapEntry(dist[v], v)] == if v in settled then 0 else 1)
    && settled <= dist.Keys
    && (forall u, e :: u in settled && e in heap ==> dist[u] <= e.cost)
  }

  /** Every edge in `scanned` was added without overflow and cannot improve its target any more. */
  ghost predicate Relaxed(w: Weights<nat>, scanned: set<(nat, nat)>, settled: set<nat>, dist: Distances) {
    forall e :: e in scanned ==>
      && e in w && e.0 in settled && e.0 in dist
      && dist[e.0] + w[e] <= INFINITY
      && (dist[e.0] + w[e] == INFINITY || (e.1 in dist && dist[e.1] <= dist[e.0] + w[e]))
  }

  ghost function Outgoing(w: Weights<nat>, settled: set<nat>): set<(nat, nat)> {
    set e | e in w && e.0 in settled
  }

  /** Every walk either stays among settled nodes at no less than their distance, or costs at least `least`. */
  lemma {:induction false} Frontier(w: Weights<nat>, s: nat, settled: set<nat>, dist: Distances, least: nat,
        q: seq<nat>)
    requires s in settled && s in dist && dist[s] == 0 && settled <= dist.Keys && least <= INFINITY
    requires Relaxed(w, Outgoing(w, settled), settled, dist)
    requires forall v :: v in dist && v !in settled ==> least <= dist[v]
    requires IsWalk(w.Keys, q) && q[0] == s
    ensures Cost(w, q) >= least || (q[|q| - 1] in settled && dist[q[|q| - 1]] <= Cost(w, q))
    decreases |q|
  {
    if |q| > 1 {
      var q' := q[..|q| - 1];
      Frontier(w, s, settled, dist, least, q');
      var e := (q[|q| - 2], q[|q| - 1]);
      assert e in w.Keys;
      if Cost(w, q') < least { assert e in Outgoing(w, settled); }
    }
  }

  lemma {:induction false} HasLeast(heap: Heap) returns (e: HeapEntry)
    requires heap != multiset{}
    ensures e in heap && forall f :: f in heap ==> e.cost <= f.cost
    decreases |heap|
  {
    var x :| x in heap;
    var rest := heap - multiset{x};
    assert forall g :: g in heap ==> g == x || g in rest;
    if rest == multiset{} {
      e := x;
    } else {
      var f := HasLeast(rest);
      e := if f.cost < x.cost then f else x;
    }
  }

  /** Some entry of least cost; ties are broken arbitrarily. */
  method Pop(heap: Heap) returns (e: HeapEntry, rest: Heap)
    requires heap != multiset{}
    ensures e in heap && (forall f :: f in heap ==> e.cost <= f.cost) && rest == heap - multiset{e}
  {
    ghost var g := HasLeast(heap);
    e :| e in heap && forall f :: f in heap ==> e.cost <= f.cost;
    rest := heap - multiset{e};
  }

  lemma PopStale(settled: set<nat>, dist: Distances, heap: Heap, e: HeapEntry)
    requires Queued(settled, dist, heap) && e in heap && dist[e.node] < e.cost
    ensures Queued(settled, dist, heap - multiset{e})
  { }

  /** An entry that is not stale belongs to an unsettled node, so no node is expanded twice. */
  lemma PopSettles(settled: set<nat>, dist: Distances, heap: Heap, e: HeapEntry)
    requires Queued(settled, dist, heap) && settled <= dist.Keys
    requires e in heap && (forall f :: f in heap ==> e.cost <= f.cost) && e.cost <= dist[e.node]
    ensures e.node !in settled && dist[e.node] == e.cost
    ensures Queued(settled + {e.node}, dist, heap - multiset{e})
    ensures forall v :: v in dist && v !in settled ==> e.cost <= dist[v]
  {
    forall v | v in dist && v !in settled ensures e.cost <= dist[v] {
      assert HeapEntry(dist[v], v) in heap;
    }
  }

  /** A relaxation that improves v never touches a settled node, and keeps the tree. */
  lemma ImproveRooted(w: Weights<nat>, s: nat, settled: set<nat>, dist: Distances, pred: map<nat, nat>, paths: Paths,
        u: nat, v: nat)
    requires Rooted(w, s, settled, dist, pred, paths)
    requires u in settled && s in settled && (u, v) in w && dist[u] + w[(u, v)] < INFINITY
    requires forall x :: x in settled ==> dist[x] <= dist[u]
    requires v in dist ==> dist[u] + w[(u, v)] < dist[v]
    ensures v !in settled
    ensures Rooted(w, s, settled, dist[v := dist[u] + w[(u, v)]], pred[v := u], paths[v := paths[u] + [v]])
  {
    var d := dist[u] + w[(u, v)];
    var p := paths[u] + [v];
    assert p[..|p| - 1] == paths[u];
    assert Connects(w.Keys, p, s, v);
    assert Cost(w, p) == d;
  }

  lemma ImproveQueued(settled: set<nat>, dist: Distances, heap: Heap, v: nat, d: nat)
    requires Queued(settled, dist, heap) && v !in settled
    requires v in dist ==> d < dist[v]
    requires forall x :: x in settled ==> dist[x] <= d
    ensures Queued(settled, dist[v := d], heap + multiset{HeapEntry(d, v)})
  {
    assert HeapEntry(d, v) !in heap;
  }

  lemma ScanOne(w: Weights<nat>, scanned: set<(nat, nat)>, settled: set<nat>, dist: Distances, u: nat, v: nat)
    requires Relaxed(w, scanned, settled, dist) && (u, v) in w && u in settled && u in dist
    requires dist[u] + w[(u, v)] <= INFINITY
    requires dist[u] + w[(u, v)] == INFINITY || (v in dist && dist[v] <= dist[u] + w[(u, v)])
    ensures Relaxed(w, scanned + {(u, v)}, settled, dist)
  { }

  lemma ScanFewer(w: Weights<nat>, scanned: set<(nat, nat)>, fewer: set<(nat, nat)>, settled: set<nat>, dist: Distances)
    requires Relaxed(w, scanned, settled, dist) && fewer <= scanned
    ensures Relaxed(w, fewer, settled, dist)
  { }

  lemma ImproveRelaxed(w: Weights<nat>, scanned: set<(nat, nat)>, settled: set<nat>, dist: Distances, v: nat, d: nat)
    requires Relaxed(w, scanned, settled, dist) && v !in settled && (v in dist ==> d < dist[v])
    ensures Relaxed(w, scanned, settled, dist[v := d])
  { }

  ghost function Range(n: nat): (r: set<nat>)
    ensures forall i: nat :: i in r <==> i < n
  {
    if n == 0 then {} else Range(n - 1) + {n - 1}
  }

  lemma Domains(w: Weights<nat>, s: nat, settled: set<nat>, dist: Distances, pred: map<nat, nat>, paths: Paths)
    requires Rooted(w, s, settled, dist, pred, paths)
    ensures settled <= dist.Keys == paths.Keys
    ensures forall v :: v in dist ==> dist[v] < INFINITY
  { }

  lemma Start(w: Weights<nat>, s: nat)
    ensures Rooted(w, s, {}, map[s := 0], map[], map[s := [s]])
    ensures Queued({}, map[s := 0], multiset{HeapEntry(0, s)})
    ensures Relaxed(w, Outgoing(w, {}), {}, map[s := 0])
  { }

  lemma EntryIsKnown(settled: set<nat>, dist: Distances, heap: Heap, e: HeapEntry)
    requires Queued(settled, dist, heap) && e in heap
    ensures e.node in dist && settled <= dist.Keys
  { }

  lemma KnownInRange(w: Weights<nat>, s: nat, settled: set<nat>, dist: Distances, pred: map<nat, nat>, paths: Paths,
        u: nat, n: nat)
    requires Rooted(w, s, settled, dist, pred, paths) && u in dist && s < n
    requires forall i, j :: (i, j) in w ==> i < n && j < n
    ensures u < n
  { }

  /** A node of least tentative distance among the unsettled ones has its final distance. */
  lemma PopIsShortest(w: Weights<nat>, s: nat, settled: set<nat>, dist: Distances, pred: map<nat, nat>, paths: Paths,
        u: nat)
    requires Rooted(w, s, settled, dist, pred, paths) && Relaxed(w, Outgoing(w, settled), settled, dist)
    requires u in dist && (s in settled || settled == {})
    requires forall v :: v in dist && v !in settled ==> dist[u] <= dist[v]
    ensures Shortest(w, paths[u], s, u) && Cost(w, paths[u]) == dist[u] < INFINITY
    ensures settled == {} ==> u == s
  {
    assert u != s ==> u in pred;
    forall q | Connects(w.Keys, q, s, u) ensures dist[u] <= Cost(w, q) {
      if s in settled { Frontier(w, s, settled, dist, dist[u], q); }
    }
  }

  lemma Settle(w: Weights<nat>, s: nat, settled: set<nat>, dist: Distances, pred: map<nat, nat>, paths: Paths,
        heap: Heap, e: HeapEntry)
    requires Rooted(w, s, settled, dist, pred, paths) && Relaxed(w, Outgoing(w, settled), settled, dist)
    requires Queued(settled, dist, heap)
    requires e in heap && e.node !in settled && e.node in dist && dist[e.node] == e.cost
    ensures Rooted(w, s, settled + {e.node}, dist, pred, paths)
    ensures Relaxed(w, Outgoing(w, settled + {e.node} - {e.node}), settled + {e.node}, dist)
    ensures forall x :: x in settled + {e.node} ==> x in dist && dist[x] <= dist[e.node]
  {
    assert settled + {e.node} - {e.node} == settled;
  }

  lemma Drained(settled: set<nat>, dist: Distances)
    requires Queued(settled, dist, multiset{})
    ensures settled == dist.Keys
  {
    forall v | v in dist ensures v in settled { assert multiset{}[HeapEntry(dist[v], v)] == 0; }
  }

  /** After the search the distances are the exact minima, for all nodes that a walk below the sentinel reaches. */
  lemma SearchIsExact(w: Weights<nat>, s: nat, dist: Distances, pred: map<nat, nat>, paths: Paths)
    requires Rooted(w, s, dist.Keys, dist, pred, paths) && Relaxed(w, Outgoing(w, dist.Keys), dist.Keys, dist)
    ensures forall t :: t in dist ==> Shortest(w, paths[t], s, t) && Cost(w, paths[t]) == dist[t] < INFINITY
    ensures forall q, t :: Connects(w.Keys, q, s, t) && Cost(w, q) < INFINITY ==> t in dist
  {
    forall q, t | Connects(w.Keys, q, s, t) && Cost(w, q) < INFINITY ensures t in dist && dist[t] <= Cost(w, q) {
      Frontier(w, s, dist.Keys, dist, INFINITY, q);
    }
    forall q, t | t in dist && Connects(w.Keys, q, s, t) ensures dist[t] <= Cost(w, q) {
      Frontier(w, s, dist.Keys, dist, INFINITY, q);
    }
  }
}
