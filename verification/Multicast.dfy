/** Source-routed delivery of one envelope: publish at the source, relay at every node, in any interleaving. */
module Multicast {
  import opened Walks
  import opened ShortestPaths
  import opened Forwarding

  /** Copies under way, by destination, and copies received. `up` holds the open connections. */
  datatype Network<V(==)> = Network(inFlight: multiset<V>, received: multiset<V>)

  /** The next hops of x in the header's table that x has a connection to. */
  ghost function Targets<V(!new)>(table: Table<V>, up: Graph<V>, x: V): (r: set<V>)
    ensures forall y :: y in r <==> Sends(table, x, y) && (x, y) in up
  {
    if x in table then set y | y in table[x] && (x, y) in up else {}
  }

  ghost predicate Published<V(!new)>(table: Table<V>, up: Graph<V>, s: V, n: Network<V>) {
    n == Network(multiset(Targets(table, up, s)), multiset{})
  }

  /** x takes one copy and relays it. */
  ghost predicate Relays<V(!new)>(table: Table<V>, up: Graph<V>, n: Network<V>, x: V, n': Network<V>) {
    && x in n.inFlight
    && n' == Network(n.inFlight - multiset{x} + multiset(Targets(table, up, x)), n.received + multiset{x})
  }

  ghost predicate IsRun<V(!new)>(table: Table<V>, up: Graph<V>, s: V, run: seq<Network<V>>) {
    && |run| > 0 && Published(table, up, s, run[0])
    && forall i :: 0 < i < |run| ==> Steps(table, up, run[i - 1], run[i])
  }

  ghost predicate Steps<V(!new)>(table: Table<V>, up: Graph<V>, n: Network<V>, n': Network<V>) {
    exists x :: Relays(table, up, n, x, n')
  }

  ghost function Final<V>(run: seq<Network<V>>): Network<V>
    requires |run| > 0
  {
    run[|run| - 1]
  }

  ghost predicate HasCopy<V>(s: V, n: Network<V>, a: V) {
    a == s || a in n.received
  }

  /** Some node that holds the envelope sends it to y over an open connection. */
  ghost predicate Fed<V(!new)>(table: Table<V>, up: Graph<V>, s: V, n: Network<V>, y: V) {
    exists a :: Sends(table, a, y) && (a, y) in up && HasCopy(s, n, a)
  }

  ghost function Copies<V>(n: Network<V>, y: V): nat {
    n.inFlight[y] + n.received[y]
  }

  /** Exactly one copy was made for every node that is fed, and none for any other. */
  ghost predicate Accounted<V(!new)>(table: Table<V>, up: Graph<V>, s: V, n: Network<V>) {
    forall y :: Copies(n, y) == if Fed(table, up, s, n, y) then 1 else 0
  }

  lemma PublishAccounts<V(!new)>(table: Table<V>, up: Graph<V>, s: V, n: Network<V>)
    requires Published(table, up, s, n)
    ensures Accounted(table, up, s, n)
  {
    forall y ensures Copies(n, y) == if Fed(table, up, s, n, y) then 1 else 0 {
      if y in Targets(table, up, s) { assert Sends(table, s, y); }
    }
  }

  /** A relay makes a copy for exactly those nodes that it is the first, and only, to feed. */
  lemma RelayCopies<V(!new)>(w: Weights<V>, s: V, subs: set<V>, routes: Routes<V>, table: Table<V>, up: Graph<V>,
        n: Network<V>, x: V, n': Network<V>, y: V)
    requires IsForwardingTable(w, s, subs, routes, table)
    requires Accounted(table, up, s, n) && Relays(table, up, n, x, n')
    ensures Fed(table, up, s, n', y) <==> Fed(table, up, s, n, y) || y in Targets(table, up, x)
    ensures !(Fed(table, up, s, n, y) && y in Targets(table, up, x))
  {
    FedNotSource(w, s, subs, routes, table, up, n, x);
    Received(n, n', table, up, x, s);
    hide IsForwardingTable, Accounted, Relays, HasCopy, Targets;
    if Fed(table, up, s, n, y) {
      var a :| Sends(table, a, y) && (a, y) in up && HasCopy(s, n, a);
      SenderIsUnique(w, s, subs, routes, table, a, y);
      if y in Targets(table, up, x) { SenderIsUnique(w, s, subs, routes, table, x, y); assert false; }
    }
  }

  lemma Received<V(!new)>(n: Network<V>, n': Network<V>, table: Table<V>, up: Graph<V>, x: V, s: V)
    requires Relays(table, up, n, x, n') && Copies(n, x) <= 1 && x != s
    ensures !HasCopy(s, n, x)
    ensures forall a :: HasCopy(s, n', a) <==> HasCopy(s, n, a) || a == x
  { }

  lemma RelayAccounts<V(!new)>(w: Weights<V>, s: V, subs: set<V>, routes: Routes<V>, table: Table<V>, up: Graph<V>,
        n: Network<V>, x: V, n': Network<V>)
    requires IsForwardingTable(w, s, subs, routes, table)
    requires Accounted(table, up, s, n) && Relays(table, up, n, x, n')
    ensures Accounted(table, up, s, n')
  {
    hide IsForwardingTable, Fed;
    forall y ensures Copies(n', y) == if Fed(table, up, s, n', y) then 1 else 0 {
      RelayCopies(w, s, subs, routes, table, up, n, x, n', y);
      assert Copies(n', y) == Copies(n, y) + if y in Targets(table, up, x) then 1 else 0;
    }
  }

  lemma FedNotSource<V(!new)>(w: Weights<V>, s: V, subs: set<V>, routes: Routes<V>, table: Table<V>, up: Graph<V>,
        n: Network<V>, x: V)
    requires IsForwardingTable(w, s, subs, routes, table) && Accounted(table, up, s, n) && Copies(n, x) > 0
    ensures x != s && x in routes
  {
    var a :| Sends(table, a, x) && (a, x) in up && HasCopy(s, n, a);
    SenderIsUnique(w, s, subs, routes, table, a, x);
  }

  /** In every state of every run each node gets the envelope at most once, and the source never. */
  lemma {:induction false} AtMostOnce<V(!new)>(w: Weights<V>, s: V, subs: set<V>, routes: Routes<V>, table: Table<V>,
        up: Graph<V>, run: seq<Network<V>>)
    requires IsForwardingTable(w, s, subs, routes, table) && IsRun(table, up, s, run)
    ensures Accounted(table, up, s, Final(run))
    ensures forall y :: Copies(Final(run), y) <= 1
    ensures Copies(Final(run), s) == 0
    ensures |Final(run).received| == |run| - 1
    decreases |run|
  {
    hide IsForwardingTable, Accounted, Published, Relays;
    var n := Final(run);
    if |run| == 1 {
      PublishAccounts(table, up, s, n);
      PublishIsFresh(table, up, s, n);
    } else {
      var init := run[..|run| - 1];
      AtMostOnce(w, s, subs, routes, table, up, init);
      assert Steps(table, up, Final(init), n);
      var x :| Relays(table, up, Final(init), x, n);
      RelayAccounts(w, s, subs, routes, table, up, Final(init), x, n);
      RelayGrows(table, up, Final(init), x, n);
    }
    OnceEach(table, up, s, n);
    if Copies(n, s) > 0 { FedNotSource(w, s, subs, routes, table, up, n, s); }
  }

  lemma RelayGrows<V(!new)>(table: Table<V>, up: Graph<V>, n: Network<V>, x: V, n': Network<V>)
    requires Relays(table, up, n, x, n')
    ensures |n'.received| == |n.received| + 1
  { }

  lemma PublishIsFresh<V(!new)>(table: Table<V>, up: Graph<V>, s: V, n: Network<V>)
    requires Published(table, up, s, n)
    ensures |n.received| == 0
  { }

  lemma OnceEach<V(!new)>(table: Table<V>, up: Graph<V>, s: V, n: Network<V>)
    requires Accounted(table, up, s, n)
    ensures forall y :: Copies(n, y) <= 1
  { }

  /** No run goes on for ever: it takes no more relay steps than there are routed nodes besides the source. */
  lemma RunsAreShort<V(!new)>(w: Weights<V>, s: V, subs: set<V>, routes: Routes<V>, table: Table<V>, up: Graph<V>,
        run: seq<Network<V>>)
    requires IsForwardingTable(w, s, subs, routes, table) && IsRun(table, up, s, run)
    ensures |run| <= |routes|
  {
    AtMostOnce(w, s, subs, routes, table, up, run);
    var n := Final(run);
    forall y | y in n.received ensures y in routes.Keys - {s} {
      FedNotSource(w, s, subs, routes, table, up, n, y);
    }
    assert forall y :: n.received[y] <= Copies(n, y);
    DistinctCount(n.received, routes.Keys - {s});
  }

  /** A copy under way can always be relayed. */
  lemma NotStuck<V(!new)>(table: Table<V>, up: Graph<V>, n: Network<V>, x: V) returns (n': Network<V>)
    requires x in n.inFlight
    ensures Relays(table, up, n, x, n')
  {
    n' := Network(n.inFlight - multiset{x} + multiset(Targets(table, up, x)), n.received + multiset{x});
  }

  /** Every run goes on to one that leaves nothing under way, in no more relay steps than there are routed nodes. */
  lemma {:induction false} GoesQuiet<V(!new)>(w: Weights<V>, s: V, subs: set<V>, routes: Routes<V>, table: Table<V>,
        up: Graph<V>, run: seq<Network<V>>)
      returns (run': seq<Network<V>>)
    requires IsForwardingTable(w, s, subs, routes, table) && IsRun(table, up, s, run)
    ensures IsRun(table, up, s, run') && run <= run' && Final(run').inFlight == multiset{} && |run'| <= |routes|
    decreases |routes| - |run|
  {
    hide IsForwardingTable, Published, Relays;
    RunsAreShort(w, s, subs, routes, table, up, run);
    var n := Final(run);
    if n.inFlight == multiset{} {
      run' := run;
    } else {
      var x :| x in n.inFlight;
      var n1 := NotStuck(table, up, n, x);
      assert Steps(table, up, n, n1);
      hide Steps;
      RunsAreShort(w, s, subs, routes, table, up, run + [n1]);
      run' := GoesQuiet(w, s, subs, routes, table, up, run + [n1]);
    }
  }

  lemma {:induction false} DistinctCount<V(!new)>(m: multiset<V>, vs: set<V>)
    requires forall y :: y in m ==> y in vs && m[y] <= 1
    ensures |m| <= |vs|
    decreases |m|
  {
    if m != multiset{} {
      var y :| y in m;
      DistinctCount(m - multiset{y}, vs - {y});
    }
  }

  /** Every hop of the walk has an open connection. */
  ghost predicate Open<V>(up: Graph<V>, p: seq<V>) {
    forall i :: 0 < i < |p| ==> (p[i - 1], p[i]) in up
  }

  /** t is on the tree and every hop towards it is open. */
  ghost predicate OpenRoute<V>(table: Table<V>, up: Graph<V>, routes: Routes<V>, t: V) {
    t in routes && IsTableWalk(table, routes[t]) && Open(up, routes[t])
  }

  /**
   * When nothing is under way any more, a node has the envelope exactly once if it is on the tree and every hop of
   * its route is open, and never otherwise.
   */
  lemma {:induction false} DeliveredExactly<V(!new)>(w: Weights<V>, s: V, subs: set<V>, routes: Routes<V>,
        table: Table<V>, up: Graph<V>, run: seq<Network<V>>, t: V)
    requires IsForwardingTable(w, s, subs, routes, table) && IsRun(table, up, s, run)
    requires Final(run).inFlight == multiset{}
    ensures Final(run).received[t] == if t != s && OpenRoute(table, up, routes, t) then 1 else 0
    decreases if t in routes then |routes[t]| else 0
  {
    AtMostOnce(w, s, subs, routes, table, up, run);
    var n := Final(run);
    assert n.received[t] == Copies(n, t);
    if Fed(table, up, s, n, t) {
      var a :| Sends(table, a, t) && (a, t) in up && HasCopy(s, n, a);
      SenderIsUnique(w, s, subs, routes, table, a, t);
      assert Shortest(w, routes[a], s, a);
      if a != s { DeliveredExactly(w, s, subs, routes, table, up, run, a); }
      ExtendOpen(table, up, routes[a], t);
    }
    if t != s && OpenRoute(table, up, routes, t) {
      var r := routes[t];
      var a := r[|r| - 2];
      assert Sends(table, a, r[|r| - 1]) && (a, r[|r| - 1]) in up;
      assert Shortest(w, routes[a], s, a) && routes[t] == routes[a] + [t];
      ShrinkOpen(table, up, routes[a], t);
      if a != s { DeliveredExactly(w, s, subs, routes, table, up, run, a); }
      assert HasCopy(s, n, a);
    }
  }

  lemma ExtendOpen<V>(table: Table<V>, up: Graph<V>, p: seq<V>, t: V)
    requires IsTableWalk(table, p) && Open(up, p) && Sends(table, p[|p| - 1], t) && (p[|p| - 1], t) in up
    ensures IsTableWalk(table, p + [t]) && Open(up, p + [t])
  { }

  lemma ShrinkOpen<V>(table: Table<V>, up: Graph<V>, p: seq<V>, t: V)
    requires |p| > 0 && IsTableWalk(table, p + [t]) && Open(up, p + [t])
    ensures IsTableWalk(table, p) && Open(up, p)
  {
    forall i | 0 < i < |p| ensures Sends(table, p[i - 1], p[i]) && (p[i - 1], p[i]) in up {
      assert (p + [t])[i] == p[i] && (p + [t])[i - 1] == p[i - 1];
    }
  }

  /** With every table hop open, each reachable subscriber other than the source gets the envelope exactly once. */
  lemma EverySubscriberOnce<V(!new)>(w: Weights<V>, s: V, subs: set<V>, routes: Routes<V>, table: Table<V>,
        up: Graph<V>, run: seq<Network<V>>, q: seq<V>, t: V)
    requires IsForwardingTable(w, s, subs, routes, table) && IsRun(table, up, s, run)
    requires Final(run).inFlight == multiset{}
    requires forall a, b :: Sends(table, a, b) ==> (a, b) in up
    requires t in subs && t != s && Connects(w.Keys, q, s, t) && Cost(w, q) < INFINITY
    ensures Final(run).received[t] == 1
  {
    SubscriberHasTableWalk(w, s, subs, routes, table, q, t);
    DeliveredExactly(w, s, subs, routes, table, up, run, t);
  }
}
