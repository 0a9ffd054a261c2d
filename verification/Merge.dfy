/** Session sync in merge mode: every arriving state is merged, and the result is sent on to all other peers. */
module Merge {
  import opened Networks
  import opened Trees
  import opened Walks

  datatype State<V(==), D> = State(data: map<V, D>, net: seq<Message<V, D>>)
  datatype Peering<V(==)> = Peering(nodes: set<V>, peers: Graph<V>)

  /** Deliver: the message at position i arrives. Write: a local update. `out` is what is sent. */
  datatype Action<V, D> =
    | Deliver(i: nat, out: seq<Message<V, D>>)
    | Write(x: V, data: D, out: seq<Message<V, D>>)

  ghost predicate IsJoin<D(!new)>(f: (D, D) -> D) {
    && (forall a, b, c :: f(f(a, b), c) == f(a, f(b, c)))
    && (forall a, b :: f(a, b) == f(b, a))
    && (forall a :: f(a, a) == a)
  }

  ghost predicate Leq<D>(f: (D, D) -> D, a: D, b: D) {
    f(a, b) == b
  }

  /** What node x does with an arriving state: merge it and send the result on. */
  ghost predicate Reacts<V(!new), D(!new)>(
    f: (D, D) -> D, held: D, x: V, peers: set<V>, src: V, d: D, out: seq<Message<V, D>>, held': D)
  {
    held' == f(held, d) && IsFanOut(out, x, peers - {src}, held')
  }

  /** What node x does with its own update: merge it, and send the update itself. */
  ghost predicate Updates<V(!new), D(!new)>(
    f: (D, D) -> D, held: D, x: V, peers: set<V>, d: D, out: seq<Message<V, D>>, held': D)
  {
    held' == f(held, d) && IsFanOut(out, x, peers, d)
  }

  ghost predicate Delivers<V(!new), D(!new)>(m: Peering<V>, f: (D, D) -> D, s: State<V, D>, i: nat,
        out: seq<Message<V, D>>, s': State<V, D>)
  {
    && i < |s.net| && s.net[i].dst in s.data
    && var msg := s.net[i];
       var merged := f(s.data[msg.dst], msg.body);
       && Reacts(f, s.data[msg.dst], msg.dst, Neighbours(m.peers, msg.dst), msg.src, msg.body, out, merged)
       && s' == State(s.data[msg.dst := merged], Without(s.net, i) + out)
  }

  ghost predicate Writes<V(!new), D(!new)>(m: Peering<V>, f: (D, D) -> D, s: State<V, D>, x: V, d: D,
        out: seq<Message<V, D>>, s': State<V, D>)
  {
    && x in m.nodes && x in s.data
    && var merged := f(s.data[x], d);
       && Updates(f, s.data[x], x, Neighbours(m.peers, x), d, out, merged)
       && s' == State(s.data[x := merged], s.net + out)
  }

  ghost predicate Step<V(!new), D(!new)>(m: Peering<V>, f: (D, D) -> D, s: State<V, D>, a: Action<V, D>,
        s': State<V, D>)
  {
    match a
    case Deliver(i, out) => Delivers(m, f, s, i, out, s')
    case Write(x, d, out) => Writes(m, f, s, x, d, out, s')
  }

  ghost predicate IsRun<V(!new), D(!new)>(m: Peering<V>, f: (D, D) -> D, d0: D, states: seq<State<V, D>>,
        acts: seq<Action<V, D>>)
  {
    && |states| == |acts| + 1
    && states[0] == State(map x | x in m.nodes :: d0, [])
    && forall i :: 0 <= i < |acts| ==> Step(m, f, states[i], acts[i], states[i + 1])
  }

  ghost function Final<V, D>(states: seq<State<V, D>>): State<V, D>
    requires |states| > 0
  {
    states[|states| - 1]
  }

  /** A message under way can always be delivered. */
  lemma NotStuck<V(!new), D(!new)>(m: Peering<V>, f: (D, D) -> D, s: State<V, D>, i: nat)
      returns (a: Action<V, D>, s': State<V, D>)
    requires i < |s.net| && s.net[i].dst in s.data
    ensures a.Deliver? && a.i == i && Step(m, f, s, a, s')
  {
    var msg := s.net[i];
    var merged := f(s.data[msg.dst], msg.body);
    var out := FanOut(msg.dst, Neighbours(m.peers, msg.dst) - {msg.src}, merged);
    a, s' := Deliver(i, out), State(s.data[msg.dst := merged], Without(s.net, i) + out);
  }

  /** The second run starts as the first and goes on with deliveries only. */
  ghost predicate Continues<V, D>(
    states: seq<State<V, D>>, acts: seq<Action<V, D>>, states': seq<State<V, D>>, acts': seq<Action<V, D>>)
  {
    states <= states' && acts <= acts' && forall i :: |acts| <= i < |acts'| ==> acts'[i].Deliver?
  }

  // ─── Convergence ───

  lemma LeqMerge<D(!new)>(f: (D, D) -> D, a: D, b: D, u: D)
    requires IsJoin(f)
    ensures Leq(f, f(a, b), u) <==> Leq(f, a, u) && Leq(f, b, u)
    ensures Leq(f, a, f(a, b)) && Leq(f, b, f(a, b)) && Leq(f, a, a)
  {
    assert f(f(a, b), u) == f(a, f(b, u));
    assert f(b, f(a, b)) == f(f(a, b), b) == f(a, f(b, b));
    assert f(a, f(a, b)) == f(f(a, a), b);
    if Leq(f, f(a, b), u) {
      assert f(a, u) == f(a, f(f(a, b), u)) == f(f(a, f(a, b)), u);
      assert f(b, u) == f(b, f(f(a, b), u)) == f(f(b, f(a, b)), u);
    }
  }

  lemma LeqTrans<D(!new)>(f: (D, D) -> D, a: D, b: D, c: D)
    requires IsJoin(f) && Leq(f, a, b) && Leq(f, b, c)
    ensures Leq(f, a, c)
  {
    assert f(a, c) == f(a, f(b, c)) == f(f(a, b), c);
  }

  lemma LeqAntisym<D(!new)>(f: (D, D) -> D, a: D, b: D)
    requires IsJoin(f) && Leq(f, a, b) && Leq(f, b, a)
    ensures a == b
  { }

  ghost predicate InPlace<V(!new), D(!new)>(m: Peering<V>, f: (D, D) -> D, s: State<V, D>) {
    && s.data.Keys == m.nodes
    && forall msg :: msg in s.net ==>
         (msg.src, msg.dst) in m.peers && msg.src in s.data && Leq(f, msg.body, s.data[msg.src])
  }

  /** u is above y's state and above everything on its way to y. */
  ghost predicate Caps<V(!new), D(!new)>(f: (D, D) -> D, s: State<V, D>, y: V, u: D) {
    && y in s.data && Leq(f, s.data[y], u)
    && forall msg :: msg in s.net && msg.dst == y ==> Leq(f, msg.body, u)
  }

  /** What x holds is within what its peer y holds and is about to be sent. */
  ghost predicate Spread<V(!new), D(!new)>(m: Peering<V>, f: (D, D) -> D, s: State<V, D>) {
    forall x, y, u :: (x, y) in m.peers && x in s.data && Caps(f, s, y, u) ==> Leq(f, s.data[x], u)
  }

  lemma InPlaceKept<V(!new), D(!new)>(m: Peering<V>, f: (D, D) -> D, s: State<V, D>, a: Action<V, D>, s': State<V, D>)
    requires IsPeerGraph(m.peers, m.nodes) && IsJoin(f) && InPlace(m, f, s) && Step(m, f, s, a, s')
    ensures InPlace(m, f, s')
    ensures forall x :: x in m.nodes ==> Leq(f, s.data[x], s'.data[x])
  {
    hide IsJoin, Leq;
    forall x | x in m.nodes ensures Leq(f, s.data[x], s'.data[x]) {
      match a
      case Deliver(i, out) => assert s.net[i] in s.net; LeqMerge(f, s.data[x], s.net[i].body, s.data[x]);
      case Write(_, d, out) => LeqMerge(f, s.data[x], d, s.data[x]);
    }
    forall msg | msg in s'.net
      ensures (msg.src, msg.dst) in m.peers && msg.src in s'.data && Leq(f, msg.body, s'.data[msg.src])
    {
      if msg in s.net {
        LeqTrans(f, msg.body, s.data[msg.src], s'.data[msg.src]);
      } else {
        match a
        case Deliver(i, out) => LeqMerge(f, msg.body, msg.body, msg.body);
        case Write(x, d, out) => LeqMerge(f, s.data[x], d, d);
      }
    }
  }

  /** Whatever caps y after a step capped y before it. */
  lemma CapsBack<V(!new), D(!new)>(m: Peering<V>, f: (D, D) -> D, s: State<V, D>, a: Action<V, D>, s': State<V, D>,
        y: V, u: D)
    requires IsJoin(f) && InPlace(m, f, s) && Step(m, f, s, a, s') && Caps(f, s', y, u)
    ensures Caps(f, s, y, u)
  {
    hide IsJoin, Leq;
    match a
    case Deliver(i, out) =>
      LeqMerge(f, s.data[s.net[i].dst], s.net[i].body, u);
      forall msg | msg in s.net && msg.dst == y ensures Leq(f, msg.body, u) {
        assert msg == s.net[i] || msg in Without(s.net, i);
      }
    case Write(x, d, out) =>
      LeqMerge(f, s.data[x], d, u);
  }

  lemma SpreadKept<V(!new), D(!new)>(m: Peering<V>, f: (D, D) -> D, s: State<V, D>, a: Action<V, D>, s': State<V, D>)
    requires IsPeerGraph(m.peers, m.nodes) && IsJoin(f) && InPlace(m, f, s) && Spread(m, f, s) && Step(m, f, s, a, s')
    ensures Spread(m, f, s')
  {
    hide IsJoin, Leq;
    forall x, y, u | (x, y) in m.peers && x in s'.data && Caps(f, s', y, u) ensures Leq(f, s'.data[x], u) {
      CapsBack(m, f, s, a, s', y, u);
      assert Leq(f, s.data[x], u);
      SpreadAt(m, f, s, a, s', x, y, u);
    }
  }

  lemma SpreadAt<V(!new), D(!new)>(m: Peering<V>, f: (D, D) -> D, s: State<V, D>, a: Action<V, D>, s': State<V, D>,
        x: V, y: V, u: D)
    requires IsPeerGraph(m.peers, m.nodes) && IsJoin(f) && InPlace(m, f, s) && Step(m, f, s, a, s')
    requires (x, y) in m.peers && x in s.data && Leq(f, s.data[x], u) && Caps(f, s, y, u) && Caps(f, s', y, u)
    ensures x in s'.data && Leq(f, s'.data[x], u)
  {
    hide IsJoin, Leq;
    match a
    case Deliver(i, out) =>
      var msg := s.net[i];
      assert msg in s.net;
      if x == msg.dst {
        if y == msg.src {
          LeqTrans(f, msg.body, s.data[y], u);
          LeqMerge(f, s.data[x], msg.body, u);
        } else {
          assert y in Neighbours(m.peers, x) by { assert (x, y) in m.peers && (x, y).1 == y; }
          assert Message(x, y, s'.data[x]) in s'.net;
        }
      }
    case Write(z, d, out) =>
      if x == z {
        assert y in Neighbours(m.peers, x) by { assert (x, y) in m.peers && (x, y).1 == y; }
        assert Message(x, y, d) in s'.net;
        LeqMerge(f, s.data[x], d, u);
      }
  }

  ghost function Written<V, D>(d0: D, acts: seq<Action<V, D>>): set<D> {
    if acts == [] then {d0} else
      Written(d0, acts[..|acts| - 1]) + if acts[|acts| - 1].Write? then {acts[|acts| - 1].data} else {}
  }

  ghost predicate UpperBound<D(!new)>(f: (D, D) -> D, ds: set<D>, u: D) {
    forall d :: d in ds ==> Leq(f, d, u)
  }

  ghost predicate Below<V(!new), D(!new)>(f: (D, D) -> D, s: State<V, D>, u: D) {
    && (forall x :: x in s.data ==> Leq(f, s.data[x], u))
    && (forall msg :: msg in s.net ==> Leq(f, msg.body, u))
  }

  lemma BelowKept<V(!new), D(!new)>(m: Peering<V>, f: (D, D) -> D, s: State<V, D>, a: Action<V, D>, s': State<V, D>,
        u: D)
    requires IsJoin(f) && Below(f, s, u) && Step(m, f, s, a, s') && (a.Write? ==> Leq(f, a.data, u))
    ensures Below(f, s', u)
  {
    hide IsJoin, Leq;
    match a
    case Deliver(i, out) =>
      assert s.net[i] in s.net;
      LeqMerge(f, s.data[s.net[i].dst], s.net[i].body, u);
    case Write(x, d, out) =>
      LeqMerge(f, s.data[x], d, u);
  }

  lemma {:induction false} RunKeeps<V(!new), D(!new)>(m: Peering<V>, f: (D, D) -> D, d0: D, states: seq<State<V, D>>,
        acts: seq<Action<V, D>>)
    requires IsPeerGraph(m.peers, m.nodes) && IsJoin(f) && IsRun(m, f, d0, states, acts)
    ensures InPlace(m, f, Final(states)) && Spread(m, f, Final(states))
    decreases |acts|
  {
    hide IsJoin, Leq, Step;
    if |acts| > 0 {
      var n := |acts| - 1;
      RunKeeps(m, f, d0, states[..n + 1], acts[..n]);
      InPlaceKept(m, f, states[n], acts[n], states[n + 1]);
      SpreadKept(m, f, states[n], acts[n], states[n + 1]);
    }
  }

  lemma {:induction false} RunStaysBelow<V(!new), D(!new)>(m: Peering<V>, f: (D, D) -> D, d0: D,
        states: seq<State<V, D>>, acts: seq<Action<V, D>>, u: D)
    requires IsJoin(f) && IsRun(m, f, d0, states, acts) && UpperBound(f, Written(d0, acts), u)
    ensures Below(f, Final(states), u)
    decreases |acts|
  {
    hide IsJoin, Leq, Step;
    if |acts| > 0 {
      var n := |acts| - 1;
      RunStaysBelow(m, f, d0, states[..n + 1], acts[..n], u);
      BelowKept(m, f, states[n], acts[n], states[n + 1], u);
    } else {
      assert d0 in Written(d0, acts);
    }
  }

  lemma {:induction false} WritesStay<V(!new), D(!new)>(m: Peering<V>, f: (D, D) -> D, d0: D, states: seq<State<V, D>>,
        acts: seq<Action<V, D>>, d: D) returns (x: V)
    requires IsPeerGraph(m.peers, m.nodes) && m.nodes != {} && IsJoin(f) && IsRun(m, f, d0, states, acts)
    requires d in Written(d0, acts)
    ensures x in m.nodes && x in Final(states).data && Leq(f, d, Final(states).data[x])
    decreases |acts|
  {
    hide IsJoin, Leq;
    if |acts| == 0 {
      x :| x in m.nodes;
      LeqMerge(f, d, d, d);
    } else {
      var n := |acts| - 1;
      RunKeeps(m, f, d0, states[..n + 1], acts[..n]);
      InPlaceKept(m, f, states[n], acts[n], states[n + 1]);
      if acts[n].Write? && acts[n].data == d {
        x := acts[n].x;
        LeqMerge(f, states[n].data[x], d, d);
      } else {
        x := WritesStay(m, f, d0, states[..n + 1], acts[..n], d);
        LeqTrans(f, d, states[n].data[x], states[n + 1].data[x]);
      }
    }
  }

  lemma {:induction false} LeqAlong<V(!new), D(!new)>(m: Peering<V>, f: (D, D) -> D, s: State<V, D>, p: seq<V>)
    requires IsPeerGraph(m.peers, m.nodes) && IsJoin(f) && InPlace(m, f, s) && Spread(m, f, s) && s.net == []
    requires IsWalk(m.peers, p) && p[0] in m.nodes
    ensures p[|p| - 1] in s.data && Leq(f, s.data[p[0]], s.data[p[|p| - 1]])
    decreases |p|
  {
    hide IsJoin, Leq;
    if |p| == 1 {
      LeqMerge(f, s.data[p[0]], s.data[p[0]], s.data[p[0]]);
    } else {
      LeqAlong(m, f, s, p[..|p| - 1]);
      var x, y := p[|p| - 2], p[|p| - 1];
      assert (x, y) in m.peers;
      LeqMerge(f, s.data[y], s.data[y], s.data[y]);
      assert Caps(f, s, y, s.data[y]);
      LeqTrans(f, s.data[p[0]], s.data[x], s.data[y]);
    }
  }

  /**
   * Merge-mode convergence: with a merge that is a join, once nothing is under way all nodes of a connected peer graph
   * hold one state, the least upper bound of the initial state and everything written.
   */
  lemma Converges<V(!new), D(!new)>(m: Peering<V>, f: (D, D) -> D, d0: D, states: seq<State<V, D>>,
        acts: seq<Action<V, D>>, x: V, y: V)
    requires IsPeerGraph(m.peers, m.nodes) && Connected(m.peers, m.nodes) && IsJoin(f)
    requires IsRun(m, f, d0, states, acts) && Final(states).net == [] && x in m.nodes && y in m.nodes
    ensures x in Final(states).data && y in Final(states).data && Final(states).data[x] == Final(states).data[y]
    ensures UpperBound(f, Written(d0, acts), Final(states).data[x])
    ensures forall u :: UpperBound(f, Written(d0, acts), u) ==> Leq(f, Final(states).data[x], u)
  {
    hide IsJoin, Leq;
    var s := Final(states);
    RunKeeps(m, f, d0, states, acts);
    Ordered(m, f, s, x, y);
    Ordered(m, f, s, y, x);
    LeqAntisym(f, s.data[x], s.data[y]);
    forall d | d in Written(d0, acts) ensures Leq(f, d, s.data[x]) {
      var v := WritesStay(m, f, d0, states, acts, d);
      Ordered(m, f, s, v, x);
      LeqTrans(f, d, s.data[v], s.data[x]);
    }
    forall u | UpperBound(f, Written(d0, acts), u) ensures Leq(f, s.data[x], u) {
      RunStaysBelow(m, f, d0, states, acts, u);
    }
  }

  lemma Ordered<V(!new), D(!new)>(m: Peering<V>, f: (D, D) -> D, s: State<V, D>, x: V, y: V)
    requires IsPeerGraph(m.peers, m.nodes) && Connected(m.peers, m.nodes) && IsJoin(f) && InPlace(m, f, s)
    requires Spread(m, f, s) && s.net == []
    requires x in m.nodes && y in m.nodes
    ensures Leq(f, s.data[x], s.data[y])
  {
    hide IsJoin, Leq;
    var p :| Connects(m.peers, p, x, y);
    LeqAlong(m, f, s, p);
  }
}
