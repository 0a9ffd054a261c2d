/** How much traffic merge mode makes: exactly one message per other node and write on a tree, endless on a cycle. */
module Traffic {
  import opened Merge
  import opened Networks
  import opened Trees
  import opened Walks

  ghost predicate OnLinks<V(!new), D(!new)>(m: Peering<V>, s: State<V, D>) {
    s.data.Keys == m.nodes && forall msg :: msg in s.net ==> (msg.src, msg.dst) in m.peers
  }

  lemma OnLinksKept<V(!new), D(!new)>(m: Peering<V>, f: (D, D) -> D, s: State<V, D>, a: Action<V, D>, s': State<V, D>)
    requires IsPeerGraph(m.peers, m.nodes) && OnLinks(m, s) && Step(m, f, s, a, s')
    ensures OnLinks(m, s')
  {
    match a
    case Deliver(i, out) =>
      assert s.net[i] in s.net;
      forall msg | msg in s'.net ensures (msg.src, msg.dst) in m.peers { assert msg in s.net || msg in out; }
    case Write(x, d, out) =>
  }

  lemma {:induction false} RunOnLinks<V(!new), D(!new)>(m: Peering<V>, f: (D, D) -> D, d0: D, states: seq<State<V, D>>,
        acts: seq<Action<V, D>>)
    requires IsPeerGraph(m.peers, m.nodes) && IsRun(m, f, d0, states, acts)
    ensures OnLinks(m, Final(states))
    decreases |acts|
  {
    if |acts| > 0 {
      var n := |acts| - 1;
      RunOnLinks(m, f, d0, states[..n + 1], acts[..n]);
      OnLinksKept(m, f, states[n], acts[n], states[n + 1]);
    }
  }

  // ─── Trees ───

  /** The deliveries still to come: each message will visit every node of its branch. */
  ghost function Load<V(!new), D(!new)>(m: Peering<V>, net: seq<Message<V, D>>): nat {
    if net == [] then 0 else
      var msg := net[|net| - 1];
      Load(m, net[..|net| - 1]) + |Branch(m.peers, m.nodes, msg.src, msg.dst)|
  }

  lemma {:induction false} LoadConcat<V(!new), D(!new)>(m: Peering<V>, a: seq<Message<V, D>>, b: seq<Message<V, D>>)
    ensures Load(m, a + b) == Load(m, a) + Load(m, b)
    decreases |b|
  {
    if b == [] {
      assert a + b == a;
    } else {
      LoadConcat(m, a, b[..|b| - 1]);
      assert (a + b)[..|a + b| - 1] == a + b[..|b| - 1];
    }
  }

  lemma LoadWithout<V(!new), D(!new)>(m: Peering<V>, net: seq<Message<V, D>>, i: nat)
    requires i < |net|
    ensures Load(m, net) == Load(m, Without(net, i)) + |Branch(m.peers, m.nodes, net[i].src, net[i].dst)|
  {
    var head, tail := net[..i + 1], net[i + 1..];
    assert net == head + tail && head[..i] == net[..i];
    LoadConcat(m, head, tail);
    LoadConcat(m, net[..i], tail);
  }

  ghost function Destinations<V, D>(out: seq<Message<V, D>>): set<V> {
    set msg | msg in out :: msg.dst
  }

  lemma {:induction false} LoadOfFanOut<V(!new), D(!new)>(m: Peering<V>, x: V, out: seq<Message<V, D>>)
    requires IsPeerGraph(m.peers, m.nodes) && Acyclic(m.peers)
    requires forall i, j :: 0 <= i < j < |out| ==> out[i].dst != out[j].dst
    requires forall msg :: msg in out ==> msg.src == x && (x, msg.dst) in m.peers
    ensures Load(m, out) == |Beyond(m.peers, m.nodes, x, Destinations(out))|
    decreases |out|
  {
    hide Branch, IsPeerGraph, Acyclic;
    if out == [] {
      assert Beyond(m.peers, m.nodes, x, Destinations(out)) == {};
    } else {
      var init, last := out[..|out| - 1], out[|out| - 1];
      assert out == init + [last];
      LoadOfFanOut(m, x, init);
      assert Destinations(out) == Destinations(init) + {last.dst};
      BeyondAdds(m, x, Destinations(init), last.dst);
    }
  }

  lemma BeyondAdds<V(!new)>(m: Peering<V>, x: V, ys: set<V>, z: V)
    requires IsPeerGraph(m.peers, m.nodes) && Acyclic(m.peers) && z !in ys && (x, z) in m.peers
    requires forall y :: y in ys ==> (x, y) in m.peers
    ensures |Beyond(m.peers, m.nodes, x, ys + {z})| ==
      |Beyond(m.peers, m.nodes, x, ys)| + |Branch(m.peers, m.nodes, x, z)|
  {
    hide Branch, IsPeerGraph, Acyclic;
    var b, rest := Branch(m.peers, m.nodes, x, z), Beyond(m.peers, m.nodes, x, ys);
    assert Beyond(m.peers, m.nodes, x, ys + {z}) == rest + b;
    forall t | t in rest ensures t !in b {
      var y :| y in ys && t in Branch(m.peers, m.nodes, x, y);
      BranchesDisjoint(m.peers, m.nodes, x, y, z);
    }
  }

  lemma FanOutLoad<V(!new), D(!new)>(m: Peering<V>, x: V, out: seq<Message<V, D>>, targets: set<V>, d: D)
    requires IsPeerGraph(m.peers, m.nodes) && Acyclic(m.peers) && IsFanOut(out, x, targets, d)
    requires targets <= Neighbours(m.peers, x)
    ensures Load(m, out) == |Beyond(m.peers, m.nodes, x, targets)|
  {
    LoadOfFanOut(m, x, out);
    assert Destinations(out) == targets by {
      forall y | y in targets ensures y in Destinations(out) { assert Message(x, y, d) in out; }
    }
  }

  lemma DeliverLoad<V(!new), D(!new)>(m: Peering<V>, f: (D, D) -> D, s: State<V, D>, i: nat, out: seq<Message<V, D>>,
        s': State<V, D>)
    requires IsPeerGraph(m.peers, m.nodes) && Acyclic(m.peers) && OnLinks(m, s) && Delivers(m, f, s, i, out, s')
    ensures Load(m, s'.net) + 1 == Load(m, s.net)
  {
    var msg := s.net[i];
    assert msg in s.net;
    var ys := Neighbours(m.peers, msg.dst) - {msg.src};
    LoadWithout(m, s.net, i);
    LoadConcat(m, Without(s.net, i), out);
    FanOutLoad(m, msg.dst, out, ys, f(s.data[msg.dst], msg.body));
    hide Load, Branch, Beyond, IsFanOut, Without, Acyclic, IsPeerGraph;
    BranchSplits(m.peers, m.nodes, msg.src, msg.dst);
    assert |{msg.dst} + Beyond(m.peers, m.nodes, msg.dst, ys)| == 1 + |Beyond(m.peers, m.nodes, msg.dst, ys)|;
  }

  lemma WriteLoad<V(!new), D(!new)>(m: Peering<V>, f: (D, D) -> D, s: State<V, D>, x: V, d: D, out: seq<Message<V, D>>,
        s': State<V, D>)
    requires IsPeerGraph(m.peers, m.nodes) && Acyclic(m.peers) && Connected(m.peers, m.nodes)
    requires Writes(m, f, s, x, d, out, s')
    ensures Load(m, s'.net) == Load(m, s.net) + |m.nodes| - 1
  {
    hide Load, Branch, Beyond, IsFanOut, Acyclic, IsPeerGraph, Connected;
    LoadConcat(m, s.net, out);
    FanOutLoad(m, x, out, Neighbours(m.peers, x), d);
    BranchesAreTheRest(m.peers, m.nodes, x);
  }

  /** A delivery uses up exactly one unit; a write adds one for every other node. */
  lemma StepLoad<V(!new), D(!new)>(m: Peering<V>, f: (D, D) -> D, s: State<V, D>, a: Action<V, D>, s': State<V, D>)
    requires IsPeerGraph(m.peers, m.nodes) && Acyclic(m.peers) && Connected(m.peers, m.nodes) && OnLinks(m, s)
    requires Step(m, f, s, a, s')
    ensures match a
      case Deliver(_, _) => Load(m, s'.net) + 1 == Load(m, s.net)
      case Write(_, _, _) => Load(m, s'.net) == Load(m, s.net) + |m.nodes| - 1
  {
    hide Load, Delivers, Writes, OnLinks, Acyclic, IsPeerGraph, Connected;
    match a
    case Deliver(i, out) => DeliverLoad(m, f, s, i, out, s');
    case Write(x, d, out) => WriteLoad(m, f, s, x, d, out, s');
  }

  ghost function Deliveries<V, D>(acts: seq<Action<V, D>>): nat {
    if acts == [] then 0 else Deliveries(acts[..|acts| - 1]) + if acts[|acts| - 1].Deliver? then 1 else 0
  }

  ghost function WriteCount<V, D>(acts: seq<Action<V, D>>): nat {
    if acts == [] then 0 else WriteCount(acts[..|acts| - 1]) + if acts[|acts| - 1].Write? then 1 else 0
  }

  /** n - 1 for every write. */
  ghost function Expected<V, D>(n: nat, acts: seq<Action<V, D>>): int {
    if acts == [] then 0 else Expected(n, acts[..|acts| - 1]) + if acts[|acts| - 1].Write? then n - 1 else 0
  }

  lemma {:induction false} ExpectedIs<V, D>(n: nat, acts: seq<Action<V, D>>)
    ensures Expected(n, acts) == (n - 1) * WriteCount(acts)
  {
    if acts != [] { ExpectedIs(n, acts[..|acts| - 1]); }
  }

  lemma {:induction false} LoadBalance<V(!new), D(!new)>(m: Peering<V>, f: (D, D) -> D, d0: D, states: seq<State<V, D>>,
        acts: seq<Action<V, D>>)
    requires IsPeerGraph(m.peers, m.nodes) && Acyclic(m.peers) && Connected(m.peers, m.nodes)
    requires IsRun(m, f, d0, states, acts)
    ensures Deliveries(acts) + Load(m, Final(states).net) == Expected(|m.nodes|, acts)
    decreases |acts|
  {
    if |acts| > 0 {
      var n := |acts| - 1;
      hide Acyclic, Connected, IsPeerGraph, Step, OnLinks;
      LoadBalance(m, f, d0, states[..n + 1], acts[..n]);
      RunOnLinks(m, f, d0, states[..n + 1], acts[..n]);
      StepLoad(m, f, states[n], acts[n], states[n + 1]);
    }
  }

  /**
   * On a connected acyclic peer graph of n nodes no schedule makes more than n - 1 deliveries per write, and the run is
   * quiet exactly when it has made all of them.
   */
  lemma TreesAreFrugal<V(!new), D(!new)>(m: Peering<V>, f: (D, D) -> D, d0: D, states: seq<State<V, D>>,
        acts: seq<Action<V, D>>)
    requires IsPeerGraph(m.peers, m.nodes) && Acyclic(m.peers) && Connected(m.peers, m.nodes) && m.nodes != {}
    requires IsRun(m, f, d0, states, acts)
    ensures Deliveries(acts) <= (|m.nodes| - 1) * WriteCount(acts)
    ensures Final(states).net == [] <==> Deliveries(acts) == (|m.nodes| - 1) * WriteCount(acts)
  {
    LoadBalance(m, f, d0, states, acts);
    ExpectedIs(|m.nodes|, acts);
    RunOnLinks(m, f, d0, states, acts);
    var net := Final(states).net;
    if net != [] {
      assert net[|net| - 1] in net;
      BranchHasRoot(m.peers, m.nodes, net[|net| - 1].src, net[|net| - 1].dst);
    }
  }

  /** One more delivery, of any message under way, is always possible. */
  lemma Onward<V(!new), D(!new)>(m: Peering<V>, f: (D, D) -> D, d0: D, states: seq<State<V, D>>,
        acts: seq<Action<V, D>>, i: nat)
      returns (states': seq<State<V, D>>, acts': seq<Action<V, D>>)
    requires IsPeerGraph(m.peers, m.nodes) && IsRun(m, f, d0, states, acts) && i < |Final(states).net|
    ensures IsRun(m, f, d0, states', acts') && Continues(states, acts, states', acts') && |acts'| == |acts| + 1
    ensures acts'[|acts|].Deliver? && acts'[|acts|].i == i
    ensures Deliveries(acts') == Deliveries(acts) + 1 && WriteCount(acts') == WriteCount(acts)
  {
    RunOnLinks(m, f, d0, states, acts);
    var s := Final(states);
    assert s.net[i] in s.net;
    var a, s1 := NotStuck(m, f, s, i);
    hide Step;
    states', acts' := states + [s1], acts + [a];
    assert acts'[..|acts|] == acts;
  }

  /**
   * Quiescence: on a connected acyclic peer graph of n nodes every run goes on, by deliveries alone, to a quiet state,
   * after exactly n - 1 deliveries per write.
   */
  lemma {:induction false} TreesGoQuiet<V(!new), D(!new)>(m: Peering<V>, f: (D, D) -> D, d0: D,
        states: seq<State<V, D>>, acts: seq<Action<V, D>>)
      returns (states': seq<State<V, D>>, acts': seq<Action<V, D>>)
    requires IsPeerGraph(m.peers, m.nodes) && Acyclic(m.peers) && Connected(m.peers, m.nodes) && m.nodes != {}
    requires IsRun(m, f, d0, states, acts)
    ensures IsRun(m, f, d0, states', acts') && Continues(states, acts, states', acts') && Final(states').net == []
    ensures WriteCount(acts') == WriteCount(acts) && Deliveries(acts') == (|m.nodes| - 1) * WriteCount(acts)
    decreases (|m.nodes| - 1) * WriteCount(acts) - Deliveries(acts)
  {
    hide Acyclic, Connected, IsPeerGraph, Step, Deliveries, WriteCount;
    TreesAreFrugal(m, f, d0, states, acts);
    if Final(states).net == [] {
      states', acts' := states, acts;
    } else {
      var states1, acts1 := Onward(m, f, d0, states, acts, 0);
      TreesAreFrugal(m, f, d0, states1, acts1);
      states', acts' := TreesGoQuiet(m, f, d0, states1, acts1);
    }
  }

  // ─── Cycles ───

  /** A message is travelling around the ring. */
  ghost predicate Circling<V(!new), D(!new)>(next: map<V, V>, net: seq<Message<V, D>>) {
    exists msg :: msg in net && msg.src in next && msg.dst == next[msg.src]
  }

  lemma Forwarded<V(!new), D(!new)>(m: Peering<V>, f: (D, D) -> D, s: State<V, D>, a: Action<V, D>, s': State<V, D>,
        x: V, y: V)
    requires Step(m, f, s, a, s') && x == Actor(s, a) && (x, y) in m.peers && (a.Deliver? ==> s.net[a.i].src != y)
    ensures exists msg :: msg in s'.net && msg.src == x && msg.dst == y
  {
    assert (x, y).1 in Neighbours(m.peers, x);
    var d := match a case Deliver(i, _) => f(s.data[x], s.net[i].body) case Write(_, d, _) => d;
    assert Message(x, y, d) in s'.net;
  }

  /** The node that a step happens at. */
  ghost function Actor<V, D>(s: State<V, D>, a: Action<V, D>): V
    requires a.Deliver? ==> a.i < |s.net|
  {
    match a case Deliver(i, _) => s.net[i].dst case Write(x, _, _) => x
  }

  lemma CirclingKept<V(!new), D(!new)>(m: Peering<V>, f: (D, D) -> D, next: map<V, V>, prev: map<V, V>, s: State<V, D>,
        a: Action<V, D>, s': State<V, D>)
    requires IsRing(m.peers, next, prev) && Step(m, f, s, a, s')
    ensures Circling(next, s.net) ==> Circling(next, s'.net)
    ensures Circling(prev, s.net) ==> Circling(prev, s'.net)
  {
    hide Turns, Step;
    if Circling(next, s.net) {
      var msg :| msg in s.net && msg.src in next && msg.dst == next[msg.src];
      AroundKept(m, f, next, prev, s, a, s', msg);
    }
    if Circling(prev, s.net) {
      var msg :| msg in s.net && msg.src in prev && msg.dst == prev[msg.src];
      AroundKept(m, f, prev, next, s, a, s', msg);
    }
  }

  lemma AroundKept<V(!new), D(!new)>(m: Peering<V>, f: (D, D) -> D, next: map<V, V>, prev: map<V, V>, s: State<V, D>,
        a: Action<V, D>, s': State<V, D>, msg: Message<V, D>)
    requires Step(m, f, s, a, s') && msg in s.net && msg.src in next && msg.dst == next[msg.src]
    requires forall x :: x in next ==> Turns(m.peers, next, prev, x) || Turns(m.peers, prev, next, x)
    ensures Circling(next, s'.net)
  {
    var x := msg.src;
    assert next[x] in next && next[next[x]] != x by {
      assert Turns(m.peers, next, prev, x) || Turns(m.peers, prev, next, x);
    }
    var v := msg.dst;
    assert (v, next[v]) in m.peers by { assert Turns(m.peers, next, prev, v) || Turns(m.peers, prev, next, v); }
    hide Turns;
    if a.Deliver? && msg == s.net[a.i] {
      Forwarded(m, f, s, a, s', v, next[v]);
    } else {
      StillThere(m, f, s, a, s', msg);
    }
  }

  /** The nodes that have written or received something. */
  ghost function Touched<V, D>(states: seq<State<V, D>>, acts: seq<Action<V, D>>): set<V>
    requires |states| == |acts| + 1
  {
    if acts == [] then {} else
      var n := |acts| - 1;
      Touched(states[..n + 1], acts[..n]) +
      if acts[n].Deliver? && acts[n].i >= |states[n].net| then {} else {Actor(states[n], acts[n])}
  }

  ghost predicate Reaching<V(!new), D(!new)>(m: Peering<V>, touched: set<V>, net: seq<Message<V, D>>) {
    && (forall msg :: msg in net ==> msg.src in touched)
    && (forall x, y :: x in touched && (x, y) in m.peers ==> y in touched || exists msg :: msg in net && msg.dst == y)
  }

  /** Once a node of the ring has been touched, a message travels around the ring one way or the other. */
  ghost predicate Turning<V(!new), D(!new)>(next: map<V, V>, prev: map<V, V>, touched: set<V>,
        net: seq<Message<V, D>>)
  {
    (exists x :: x in touched && x in next) ==> Circling(next, net) || Circling(prev, net)
  }

  lemma ReachingKept<V(!new), D(!new)>(m: Peering<V>, f: (D, D) -> D, t: set<V>, s: State<V, D>, a: Action<V, D>,
        s': State<V, D>)
    requires Reaching(m, t, s.net) && Step(m, f, s, a, s')
    ensures Reaching(m, t + {Actor(s, a)}, s'.net)
  {
    var x := Actor(s, a);
    forall z, y | z in t + {x} && (z, y) in m.peers
      ensures y in t + {x} || exists msg :: msg in s'.net && msg.dst == y
    {
      if y !in t + {x} {
        if z in t {
          var msg :| msg in s.net && msg.dst == y;
          StillThere(m, f, s, a, s', msg);
        } else {
          if a.Deliver? { assert s.net[a.i] in s.net; }
          Forwarded(m, f, s, a, s', x, y);
        }
      }
    }
  }

  lemma StillThere<V(!new), D(!new)>(m: Peering<V>, f: (D, D) -> D, s: State<V, D>, a: Action<V, D>, s': State<V, D>,
        msg: Message<V, D>)
    requires Step(m, f, s, a, s') && msg in s.net && (a.Deliver? ==> msg != s.net[a.i])
    ensures msg in s'.net
  {
    if a.Deliver? { assert msg in Without(s.net, a.i); }
  }

  lemma TurningKept<V(!new), D(!new)>(m: Peering<V>, f: (D, D) -> D, next: map<V, V>, prev: map<V, V>, t: set<V>,
        s: State<V, D>, a: Action<V, D>, s': State<V, D>, x: V)
    requires IsRing(m.peers, next, prev) && Turning(next, prev, t, s.net) && Step(m, f, s, a, s') && x == Actor(s, a)
    ensures Turning(next, prev, t + {x}, s'.net)
  {
    hide *;
    if x in next {
      TurnsThere(m.peers, next, prev, x);
      StartsTurning(m, f, next, prev, s, a, s', x);
      TurningIntro(next, prev, t + {x}, s'.net);
    } else {
      CirclingKept(m, f, next, prev, s, a, s');
      TurningFrom(next, prev, t, x, s.net, s'.net);
    }
  }

  lemma TurningIntro<V(!new), D(!new)>(next: map<V, V>, prev: map<V, V>, t: set<V>, net: seq<Message<V, D>>)
    requires Circling(next, net) || Circling(prev, net)
    ensures Turning(next, prev, t, net)
  { }

  lemma TurningFrom<V(!new), D(!new)>(next: map<V, V>, prev: map<V, V>, t: set<V>, x: V, net: seq<Message<V, D>>,
        net': seq<Message<V, D>>)
    requires x !in next && Turning(next, prev, t, net)
    requires (Circling(next, net) ==> Circling(next, net')) && (Circling(prev, net) ==> Circling(prev, net'))
    ensures Turning(next, prev, t + {x}, net')
  {
    hide Circling;
  }

  lemma TurnsThere<V(!new)>(g: Graph<V>, next: map<V, V>, prev: map<V, V>, x: V)
    requires IsRing(g, next, prev) && x in next
    ensures Turns(g, next, prev, x)
  { }

  lemma StartsTurning<V(!new), D(!new)>(m: Peering<V>, f: (D, D) -> D, next: map<V, V>, prev: map<V, V>, s: State<V, D>,
        a: Action<V, D>, s': State<V, D>, x: V)
    requires Step(m, f, s, a, s') && x == Actor(s, a) && Turns(m.peers, next, prev, x)
    ensures Circling(next, s'.net) || Circling(prev, s'.net)
  {
    if a.Deliver? && s.net[a.i].src == next[x] {
      Forwarded(m, f, s, a, s', x, prev[x]);
    } else {
      Forwarded(m, f, s, a, s', x, next[x]);
    }
  }

  lemma {:induction false} RunTurns<V(!new), D(!new)>(m: Peering<V>, f: (D, D) -> D, d0: D, next: map<V, V>,
        prev: map<V, V>, states: seq<State<V, D>>, acts: seq<Action<V, D>>)
    requires IsRing(m.peers, next, prev) && IsRun(m, f, d0, states, acts)
    ensures Reaching(m, Touched(states, acts), Final(states).net)
    ensures Turning(next, prev, Touched(states, acts), Final(states).net)
    ensures WriteCount(acts) > 0 ==> Touched(states, acts) * m.nodes != {}
    decreases |acts|
  {
    hide IsRing;
    if |acts| > 0 {
      var n := |acts| - 1;
      var before := Touched(states[..n + 1], acts[..n]);
      RunTurns(m, f, d0, next, prev, states[..n + 1], acts[..n]);
      assert Step(m, f, states[n], acts[n], states[n + 1]);
      var x := Actor(states[n], acts[n]);
      assert Touched(states, acts) == before + {x};
      assert acts[n].Write? ==> acts[n].x in m.nodes;
      hide *;
      ReachingKept(m, f, before, states[n], acts[n], states[n + 1]);
      TurningKept(m, f, next, prev, before, states[n], acts[n], states[n + 1], x);
      TouchedGrows(m, acts, before, states[n]);
      assert Final(states) == states[n + 1] by { LastIs(states); }
    }
  }

  lemma LastIs<V, D>(states: seq<State<V, D>>)
    requires |states| > 0
    ensures Final(states) == states[|states| - 1]
  { }

  lemma TouchedGrows<V(!new), D(!new)>(m: Peering<V>, acts: seq<Action<V, D>>, before: set<V>, s: State<V, D>)
    requires |acts| > 0 && (acts[|acts| - 1].Deliver? ==> acts[|acts| - 1].i < |s.net|)
    requires acts[|acts| - 1].Write? ==> acts[|acts| - 1].x in m.nodes
    requires WriteCount(acts[..|acts| - 1]) > 0 ==> before * m.nodes != {}
    ensures WriteCount(acts) > 0 ==> (before + {Actor(s, acts[|acts| - 1])}) * m.nodes != {}
  {
    var x := Actor(s, acts[|acts| - 1]);
    if acts[|acts| - 1].Write? {
      assert x in (before + {x}) * m.nodes;
    } else if WriteCount(acts) > 0 {
      var y :| y in before * m.nodes;
      assert y in (before + {x}) * m.nodes;
    }
  }

  lemma {:induction false} TouchedSpreads<V(!new), D(!new)>(m: Peering<V>, t: set<V>, p: seq<V>)
    requires Reaching<V, D>(m, t, []) && IsWalk(m.peers, p) && p[0] in t
    ensures p[|p| - 1] in t
    decreases |p|
  {
    if |p| > 1 {
      TouchedSpreads<V, D>(m, t, p[..|p| - 1]);
      assert (p[|p| - 2], p[|p| - 1]) in m.peers;
    }
  }

  /** On a connected peer graph with a cycle, merge mode never goes quiet after a write. */
  lemma CyclesNeverGoQuiet<V(!new), D(!new)>(m: Peering<V>, f: (D, D) -> D, d0: D, states: seq<State<V, D>>,
        acts: seq<Action<V, D>>)
    requires IsPeerGraph(m.peers, m.nodes) && !Acyclic(m.peers) && Connected(m.peers, m.nodes)
    requires IsRun(m, f, d0, states, acts) && WriteCount(acts) > 0
    ensures Final(states).net != []
  {
    hide Acyclic, Connected, IsRing, Reaching, Turning, Circling, Touched, Step;
    var next, prev := CyclicHasRing(m.peers, m.nodes);
    RunTurns(m, f, d0, next, prev, states, acts);
    var c := RingNode(m.peers, m.nodes, next, prev);
    var x :| x in Touched(states, acts) * m.nodes;
    var p := Route(m.peers, m.nodes, x, c);
    StillTurning(m, next, prev, Touched(states, acts), Final(states).net, p);
  }

  /** After a write on a cyclic graph the deliveries never end: every run goes on for as long as one likes. */
  lemma {:induction false} CyclesGoOn<V(!new), D(!new)>(m: Peering<V>, f: (D, D) -> D, d0: D, states: seq<State<V, D>>,
        acts: seq<Action<V, D>>, k: nat)
      returns (states': seq<State<V, D>>, acts': seq<Action<V, D>>)
    requires IsPeerGraph(m.peers, m.nodes) && !Acyclic(m.peers) && Connected(m.peers, m.nodes)
    requires IsRun(m, f, d0, states, acts) && WriteCount(acts) > 0
    ensures IsRun(m, f, d0, states', acts') && Continues(states, acts, states', acts') && |acts'| == |acts| + k
    decreases k
  {
    hide Acyclic, Connected, IsPeerGraph, Step, Deliveries, WriteCount;
    if k == 0 {
      states', acts' := states, acts;
    } else {
      CyclesNeverGoQuiet(m, f, d0, states, acts);
      var states1, acts1 := Onward(m, f, d0, states, acts, 0);
      states', acts' := CyclesGoOn(m, f, d0, states1, acts1, k - 1);
    }
  }

  lemma StillTurning<V(!new), D(!new)>(m: Peering<V>, next: map<V, V>, prev: map<V, V>, t: set<V>,
        net: seq<Message<V, D>>, p: seq<V>)
    requires Reaching(m, t, net) && Turning(next, prev, t, net) && IsWalk(m.peers, p) && p[0] in t && p[|p| - 1] in next
    ensures net != []
  {
    if net == [] {
      TouchedSpreads<V, D>(m, t, p);
      NothingTurns<V, D>(next, prev, t, p[|p| - 1]);
    }
  }

  lemma Route<V(!new)>(g: Graph<V>, nodes: set<V>, x: V, y: V) returns (p: seq<V>)
    requires Connected(g, nodes) && x in nodes && y in nodes
    ensures IsWalk(g, p) && p[0] == x && p[|p| - 1] == y
  {
    p :| Connects(g, p, x, y);
  }

  lemma NothingTurns<V(!new), D(!new)>(next: map<V, V>, prev: map<V, V>, t: set<V>, c: V)
    requires c in t && c in next
    ensures !Turning<V, D>(next, prev, t, [])
  { }

  lemma RingNode<V(!new)>(g: Graph<V>, nodes: set<V>, next: map<V, V>, prev: map<V, V>) returns (c: V)
    requires Over(g, nodes) && IsRing(g, next, prev)
    ensures c in nodes && c in next
  {
    c :| c in next;
    assert Turns(g, next, prev, c);
  }

  /** Merge mode can come to rest after a write exactly on the acyclic peer graphs. */
  lemma QuietOnlyOnTrees<V(!new), D(!new)>(m: Peering<V>, f: (D, D) -> D, d0: D, states: seq<State<V, D>>,
        acts: seq<Action<V, D>>)
    requires IsPeerGraph(m.peers, m.nodes) && Connected(m.peers, m.nodes) && m.nodes != {}
    requires IsRun(m, f, d0, states, acts) && WriteCount(acts) > 0
    ensures Final(states).net == [] <==> Acyclic(m.peers) && Deliveries(acts) == (|m.nodes| - 1) * WriteCount(acts)
  {
    if Acyclic(m.peers) {
      TreesAreFrugal(m, f, d0, states, acts);
    } else {
      CyclesNeverGoQuiet(m, f, d0, states, acts);
    }
  }
}
