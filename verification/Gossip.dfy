/**
 * Stamped gossip over a fixed peer graph: a node keeps the newest entry it has seen and forwards what it accepts.
 * Topology and subscription flooding (stamp = epoch, the origin is muted) and last-write-wins session sync
 * (stamp = timestamp and version, nobody is muted) are its two instances.
 */
module Gossip {
  import opened Networks
  import opened Walks

  datatype Stamp = Stamp(time: nat, version: nat)
  datatype Entry<D> = Entry(stamp: Stamp, data: D)
  datatype State<V(==), D> = State(stored: map<V, Entry<D>>, net: seq<Message<V, Entry<D>>>)

  /** Peers are fixed during a run; nothing is forwarded to a muted node. */
  datatype Overlay<V(==)> = Overlay(nodes: set<V>, peers: Graph<V>, mute: set<V>)

  /**
   * Deliver: the message at position i arrives, and `out` is what its receiver forwards.
   * Write: a node replaces its own entry and sends it to all its peers.
   * Announce: a muted origin sends an entry to some of its peers.
   */
  datatype Action<V(==), D> =
    | Deliver(i: nat, out: seq<Message<V, Entry<D>>>)
    | Write(x: V, entry: Entry<D>, out: seq<Message<V, Entry<D>>>)
    | Announce(origin: V, targets: set<V>, entry: Entry<D>, out: seq<Message<V, Entry<D>>>)

  predicate Newer(a: Stamp, b: Stamp) {
    a.time > b.time || (a.time == b.time && a.version > b.version)
  }

  /** Stamps are in one strict order, time first: of two different ones exactly one is newer. */
  lemma StampsAreOrdered(a: Stamp, b: Stamp, c: Stamp)
    ensures a.time > b.time ==> Newer(a, b)
    ensures a.time == b.time ==> (Newer(a, b) <==> a.version > b.version)
    ensures a != b <==> Newer(a, b) || Newer(b, a)
    ensures !(Newer(a, b) && Newer(b, a)) && (Newer(a, b) && Newer(b, c) ==> Newer(a, c))
  { }

  /** The guard of the receiving branch: nothing stored yet, or strictly newer. */
  predicate Accepts<V, D>(stored: map<V, Entry<D>>, x: V, s: Stamp) {
    x !in stored || Newer(s, stored[x].stamp)
  }

  ghost predicate WellFormed<V(!new)>(m: Overlay<V>) {
    Over(m.peers, m.nodes) && Symmetric(m.peers)
  }

  /** What node x does with an arriving message: keep and forward what is newer, drop the rest. */
  ghost predicate Reacts<V(!new), D(!new)>(
    stored: map<V, Entry<D>>, x: V, peers: set<V>, mute: set<V>, src: V, e: Entry<D>,
    out: seq<Message<V, Entry<D>>>, stored': map<V, Entry<D>>)
  {
    if Accepts(stored, x, e.stamp)
    then IsFanOut(out, x, peers - {src} - mute, e) && stored' == stored[x := e]
    else out == [] && stored' == stored
  }

  ghost predicate Delivers<V(!new), D(!new)>(m: Overlay<V>, s: State<V, D>, i: nat, out: seq<Message<V, Entry<D>>>,
        s': State<V, D>)
  {
    && i < |s.net|
    && var msg := s.net[i];
       && Reacts(s.stored, msg.dst, Neighbours(m.peers, msg.dst), m.mute, msg.src, msg.body, out, s'.stored)
       && s'.net == Without(s.net, i) + out
  }

  ghost predicate Writes<V(!new), D(!new)>(m: Overlay<V>, s: State<V, D>, x: V, e: Entry<D>,
        out: seq<Message<V, Entry<D>>>, s': State<V, D>)
  {
    && x in m.nodes - m.mute
    && IsFanOut(out, x, Neighbours(m.peers, x), e)
    && s' == State(s.stored[x := e], s.net + out)
  }

  ghost predicate Announces<V(!new), D(!new)>(m: Overlay<V>, s: State<V, D>, o: V, targets: set<V>, e: Entry<D>,
        out: seq<Message<V, Entry<D>>>, s': State<V, D>)
  {
    && o in m.mute && targets <= Neighbours(m.peers, o)
    && IsFanOut(out, o, targets, e)
    && s' == State(s.stored, s.net + out)
  }

  ghost predicate Step<V(!new), D(!new)>(m: Overlay<V>, s: State<V, D>, a: Action<V, D>, s': State<V, D>) {
    match a
    case Deliver(i, out) => Delivers(m, s, i, out, s')
    case Write(x, e, out) => Writes(m, s, x, e, out, s')
    case Announce(o, targets, e, out) => Announces(m, s, o, targets, e, out, s')
  }

  /** A write that takes its place after what its node already stores. */
  ghost predicate InOrder<V, D>(s: State<V, D>, a: Action<V, D>) {
    a.Write? ==> Accepts(s.stored, a.x, a.entry.stamp)
  }

  ghost predicate IsRun<V(!new), D(!new)>(m: Overlay<V>, states: seq<State<V, D>>, acts: seq<Action<V, D>>) {
    && |states| == |acts| + 1
    && forall i :: 0 <= i < |acts| ==> Step(m, states[i], acts[i], states[i + 1]) && InOrder(states[i], acts[i])
  }

  ghost function Final<V, D>(states: seq<State<V, D>>): State<V, D>
    requires |states| > 0
  {
    states[|states| - 1]
  }

  // ─── What every step keeps ───

  /** x stores a stamp of at least s. */
  ghost predicate Holds<V, D>(s: State<V, D>, x: V, t: Stamp) {
    !Accepts(s.stored, x, t)
  }

  ghost predicate Bound<V(!new), D(!new)>(s: State<V, D>, y: V, t: Stamp) {
    exists k :: 0 <= k < |s.net| && s.net[k].dst == y && !Newer(t, s.net[k].body.stamp)
  }

  /** y stores at least t, or something of at least t is on its way to y. */
  ghost predicate Covered<V(!new), D(!new)>(s: State<V, D>, y: V, t: Stamp) {
    Holds(s, y, t) || Bound(s, y, t)
  }

  lemma HoldsKept<V(!new), D(!new)>(m: Overlay<V>, s: State<V, D>, a: Action<V, D>, s': State<V, D>, x: V, t: Stamp)
    requires Step(m, s, a, s') && InOrder(s, a) && Holds(s, x, t)
    ensures Holds(s', x, t)
  { }

  /** Whatever covers a node now covers it for ever. */
  lemma CoveredKept<V(!new), D(!new)>(m: Overlay<V>, s: State<V, D>, a: Action<V, D>, s': State<V, D>, y: V, t: Stamp)
    requires Step(m, s, a, s') && InOrder(s, a) && Covered(s, y, t)
    ensures Covered(s', y, t)
  {
    if Holds(s, y, t) {
      HoldsKept(m, s, a, s', y, t);
    } else {
      var k :| 0 <= k < |s.net| && s.net[k].dst == y && !Newer(t, s.net[k].body.stamp);
      match a
      case Deliver(i, out) =>
        if k != i {
          WithoutKeeps(s.net, i, k, out);
          assert Bound(s', y, t);
        }
      case Write(x, e, out) => assert s'.net[k] == s.net[k];
      case Announce(o, targets, e, out) => assert s'.net[k] == s.net[k];
    }
  }

  /** Messages travel between peers, and their unmuted senders store at least what they sent. */
  ghost predicate Backed<V(!new), D(!new)>(m: Overlay<V>, s: State<V, D>) {
    forall msg :: msg in s.net ==>
      && (msg.src, msg.dst) in m.peers
      && (msg.src !in m.mute ==> Holds(s, msg.src, msg.body.stamp))
  }

  /** What an unmuted node stores, its unmuted peers store or are about to be told. */
  ghost predicate Spread<V(!new), D(!new)>(m: Overlay<V>, s: State<V, D>) {
    forall x, y :: (x, y) in m.peers && x !in m.mute && y !in m.mute && x in s.stored ==>
        Covered(s, y, s.stored[x].stamp)
  }

  lemma FreshIsCovered<V(!new), D(!new)>(s: State<V, D>, x: V, y: V, e: Entry<D>)
    requires Message(x, y, e) in s.net
    ensures Covered(s, y, e.stamp)
  {
    var k :| 0 <= k < |s.net| && s.net[k] == Message(x, y, e);
    assert !Newer(e.stamp, s.net[k].body.stamp);
  }

  lemma BackedKept<V(!new), D(!new)>(m: Overlay<V>, s: State<V, D>, a: Action<V, D>, s': State<V, D>)
    requires Backed(m, s) && Step(m, s, a, s') && InOrder(s, a)
    ensures Backed(m, s')
  {
    forall msg | msg in s'.net
      ensures (msg.src, msg.dst) in m.peers && (msg.src !in m.mute ==> Holds(s', msg.src, msg.body.stamp))
    {
      if msg in s.net && msg.src !in m.mute { HoldsKept(m, s, a, s', msg.src, msg.body.stamp); }
    }
  }

  lemma SpreadKept<V(!new), D(!new)>(m: Overlay<V>, s: State<V, D>, a: Action<V, D>, s': State<V, D>)
    requires Backed(m, s) && Spread(m, s) && Step(m, s, a, s') && InOrder(s, a)
    ensures Spread(m, s')
  {
    hide Covered, Backed;
    forall x, y | (x, y) in m.peers && x !in m.mute && y !in m.mute && x in s'.stored
      ensures Covered(s', y, s'.stored[x].stamp)
    {
      if x in s.stored && s'.stored[x] == s.stored[x] {
        CoveredKept(m, s, a, s', y, s.stored[x].stamp);
      } else {
        NewIsCovered(m, s, a, s', x, y);
      }
    }
  }

  /** A node that has just changed its entry told every peer, except one that sent it. */
  lemma NewIsCovered<V(!new), D(!new)>(m: Overlay<V>, s: State<V, D>, a: Action<V, D>, s': State<V, D>, x: V, y: V)
    requires Backed(m, s) && Step(m, s, a, s') && InOrder(s, a)
    requires (x, y) in m.peers && x !in m.mute && y !in m.mute
    requires x in s'.stored && (x in s.stored ==> s'.stored[x] != s.stored[x])
    ensures Covered(s', y, s'.stored[x].stamp)
  {
    match a
    case Deliver(i, out) =>
      var msg := s.net[i];
      assert msg in s.net;
      if y == msg.src {
        HoldsKept(m, s, a, s', y, msg.body.stamp);
      } else {
        FreshIsCovered(s', x, y, msg.body);
      }
    case Write(_, e, out) => FreshIsCovered(s', x, y, e);
    case Announce(_, _, _, _) =>
  }

  lemma {:induction false} RunKeeps<V(!new), D(!new)>(m: Overlay<V>, states: seq<State<V, D>>, acts: seq<Action<V, D>>)
    requires IsRun(m, states, acts) && Backed(m, states[0]) && Spread(m, states[0])
    ensures Backed(m, Final(states)) && Spread(m, Final(states))
    decreases |acts|
  {
    if |acts| > 0 {
      var n := |acts| - 1;
      RunKeeps(m, states[..n + 1], acts[..n]);
      BackedKept(m, states[n], acts[n], states[n + 1]);
      SpreadKept(m, states[n], acts[n], states[n + 1]);
    }
  }

  lemma {:induction false} RunCovers<V(!new), D(!new)>(m: Overlay<V>, states: seq<State<V, D>>, acts: seq<Action<V, D>>,
        j: nat, y: V, t: Stamp)
    requires IsRun(m, states, acts) && j < |states| && Covered(states[j], y, t)
    ensures Covered(Final(states), y, t)
    decreases |states| - j
  {
    if j < |acts| {
      CoveredKept(m, states[j], acts[j], states[j + 1], y, t);
      RunCovers(m, states, acts, j + 1, y, t);
    }
  }

  /** Stored stamps never go back. */
  lemma {:induction false} HeldFrom<V(!new), D(!new)>(m: Overlay<V>, states: seq<State<V, D>>, acts: seq<Action<V, D>>,
        j: nat, k: nat, x: V, t: Stamp)
    requires IsRun(m, states, acts) && j <= k < |states| && Holds(states[j], x, t)
    ensures Holds(states[k], x, t)
    decreases k - j
  {
    if j < k {
      HoldsKept(m, states[j], acts[j], states[j + 1], x, t);
      HeldFrom(m, states, acts, j + 1, k, x, t);
    }
  }

  /** Of two deliveries of one stamp to one node, at any distance in a run, the later is not accepted. */
  lemma AcceptedOnce<V(!new), D(!new)>(m: Overlay<V>, states: seq<State<V, D>>, acts: seq<Action<V, D>>, j: nat, k: nat)
    requires IsRun(m, states, acts) && j < k < |acts| && acts[j].Deliver? && acts[k].Deliver?
    requires acts[j].i < |states[j].net| && acts[k].i < |states[k].net|
    requires states[j].net[acts[j].i].dst == states[k].net[acts[k].i].dst
    requires states[j].net[acts[j].i].body.stamp == states[k].net[acts[k].i].body.stamp
    ensures var msg := states[k].net[acts[k].i]; !Accepts(states[k].stored, msg.dst, msg.body.stamp)
  {
    var msg := states[j].net[acts[j].i];
    assert Step(m, states[j], acts[j], states[j + 1]);
    assert Holds(states[j + 1], msg.dst, msg.body.stamp);
    HeldFrom(m, states, acts, j + 1, k, msg.dst, msg.body.stamp);
  }

  lemma {:induction false} HoldsAlong<V(!new), D(!new)>(m: Overlay<V>, s: State<V, D>, p: seq<V>, t: Stamp)
    requires Spread(m, s) && s.net == [] && IsWalk(m.peers, p) && Holds(s, p[0], t)
    requires forall v :: v in p ==> v !in m.mute
    ensures Holds(s, p[|p| - 1], t)
    decreases |p|
  {
    if |p| > 1 {
      HoldsAlong(m, s, p[..|p| - 1], t);
      var x, y := p[|p| - 2], p[|p| - 1];
      assert (x, y) in m.peers;
      assert Covered(s, y, s.stored[x].stamp);
    }
  }

  /** The initial entries and everything written or announced. */
  ghost function Written<V, D>(initial: set<Entry<D>>, acts: seq<Action<V, D>>): set<Entry<D>> {
    if acts == [] then initial else
      Written(initial, acts[..|acts| - 1]) + if acts[|acts| - 1].Deliver? then {} else {acts[|acts| - 1].entry}
  }

  ghost predicate Genuine<V(!new), D(!new)>(es: set<Entry<D>>, s: State<V, D>) {
    && (forall msg :: msg in s.net ==> msg.body in es)
    && (forall x :: x in s.stored ==> s.stored[x] in es)
  }

  lemma {:induction false} StoredIsGenuine<V(!new), D(!new)>(m: Overlay<V>, initial: set<Entry<D>>,
        states: seq<State<V, D>>, acts: seq<Action<V, D>>)
    requires IsRun(m, states, acts) && Genuine(initial, states[0])
    ensures Genuine(Written(initial, acts), Final(states))
    decreases |acts|
  {
    if |acts| > 0 {
      var n := |acts| - 1;
      StoredIsGenuine(m, initial, states[..n + 1], acts[..n]);
      assert Step(m, states[n], acts[n], states[n + 1]);
    }
  }

  /** e is written, and nothing written is newer. */
  ghost predicate Latest<D(!new)>(es: set<Entry<D>>, e: Entry<D>) {
    e in es && forall c :: c in es ==> !Newer(c.stamp, e.stamp)
  }

  // ─── Flooding ───

  /**
   * Flood coverage: once nothing is under way, every node other than the origin stores at least every epoch that the
   * origin broadcast, although nobody forwards to the origin or back to the sender.
   */
  lemma FloodCovers<V(!new), D(!new)>(m: Overlay<V>, o: V, states: seq<State<V, D>>, acts: seq<Action<V, D>>, j: nat,
        y: V)
    requires WellFormed(m) && o in m.nodes && m.mute == {o} && Connected(m.peers, m.nodes)
    requires IsRun(m, states, acts) && states[0] == State(map[], []) && Final(states).net == []
    requires j < |acts| && acts[j].Announce? && acts[j].origin == o && acts[j].targets == Neighbours(m.peers, o)
    requires y in m.nodes && y != o
    ensures Holds(Final(states), y, acts[j].entry.stamp)
  {
    RunKeeps(m, states, acts);
    var t := acts[j].entry.stamp;
    var p0 :| Connects(m.peers, p0, o, y);
    var p := Simplify(m.peers, p0);
    var x := p[1];
    assert (p[0], p[1]) in m.peers && (o, x).1 in Neighbours(m.peers, o);
    assert Step(m, states[j], acts[j], states[j + 1]);
    assert Message(o, x, acts[j].entry) in acts[j].out;
    FreshIsCovered(states[j + 1], o, x, acts[j].entry);
    RunCovers(m, states, acts, j + 1, x, t);
    Stretch(m.peers, p, 1, |p|);
    HoldsAlong(m, Final(states), p[1..], t);
  }

  /**
   * With no epoch reused for other content, a quiet network means that every node other than the origin has accepted
   * exactly the origin's latest broadcast.
   */
  lemma FloodDelivers<V(!new), D(!new)>(m: Overlay<V>, o: V, states: seq<State<V, D>>, acts: seq<Action<V, D>>, j: nat,
        y: V)
    requires WellFormed(m) && o in m.nodes && m.mute == {o} && Connected(m.peers, m.nodes)
    requires IsRun(m, states, acts) && states[0] == State(map[], []) && Final(states).net == []
    requires j < |acts| && acts[j].Announce? && acts[j].origin == o && acts[j].targets == Neighbours(m.peers, o)
    requires y in m.nodes && y != o
    requires Latest(Written({}, acts), acts[j].entry)
    requires forall e :: Latest(Written({}, acts), e) ==> e == acts[j].entry
    ensures y in Final(states).stored && Final(states).stored[y] == acts[j].entry
  {
    FloodCovers(m, o, states, acts, j, y);
    StoredIsGenuine(m, {}, states, acts);
    hide Connected, Step;
    var e := Final(states).stored[y];
    assert Latest(Written({}, acts), e);
  }

  // ─── Termination ───

  ghost predicate Stamped<V(!new), D(!new)>(stamps: set<Stamp>, s: State<V, D>) {
    forall msg :: msg in s.net ==> msg.body.stamp in stamps
  }

  ghost predicate Uses<V, D>(stamps: set<Stamp>, a: Action<V, D>) {
    match a
    case Deliver(_, _) => true
    case Write(_, e, _) => e.stamp in stamps
    case Announce(_, _, e, _) => e.stamp in stamps
  }

  /** The (node, stamp) pairs that can still be accepted. */
  ghost function Pending<V, D>(nodes: set<V>, stamps: set<Stamp>, s: State<V, D>): set<(V, Stamp)> {
    set x, t | x in nodes && t in stamps && Accepts(s.stored, x, t) :: (x, t)
  }

  /** Accepting costs one pending pair and sends at most one message per node; rejecting costs one message. */
  ghost function Fuel<V, D>(nodes: set<V>, stamps: set<Stamp>, s: State<V, D>): nat {
    (|nodes| + 1) * |Pending(nodes, stamps, s)| + |s.net|
  }

  lemma PendingShrinks<V(!new), D(!new)>(nodes: set<V>, stamps: set<Stamp>, s: State<V, D>, x: V, e: Entry<D>,
        net: seq<Message<V, Entry<D>>>)
    requires x in nodes && e.stamp in stamps && Accepts(s.stored, x, e.stamp)
    ensures |Pending(nodes, stamps, State(s.stored[x := e], net))| < |Pending(nodes, stamps, s)|
  {
    var p, p' := Pending(nodes, stamps, s), Pending(nodes, stamps, State(s.stored[x := e], net));
    assert (x, e.stamp) in p && (x, e.stamp) !in p';
    assert p' <= p - {(x, e.stamp)};
    Smaller(p', p - {(x, e.stamp)});
  }

  lemma {:induction false} Smaller<T>(a: set<T>, b: set<T>)
    requires a <= b
    ensures |a| <= |b|
    decreases |a|
  {
    if a != {} {
      var x :| x in a;
      Smaller(a - {x}, b - {x});
    }
  }

  lemma FewPeers<V(!new)>(m: Overlay<V>, x: V)
    requires WellFormed(m)
    ensures Neighbours(m.peers, x) <= m.nodes
  { }

  /** Every delivery and every write burns fuel; an announcement adds at most one message per node. */
  lemma FuelBurns<V(!new), D(!new)>(m: Overlay<V>, stamps: set<Stamp>, s: State<V, D>, a: Action<V, D>, s': State<V, D>)
    requires WellFormed(m) && Backed(m, s) && Stamped(stamps, s) && Step(m, s, a, s') && InOrder(s, a)
    requires Uses(stamps, a)
    ensures Stamped(stamps, s')
    ensures Fuel(m.nodes, stamps, s') + 1 <= Fuel(m.nodes, stamps, s) + if a.Announce? then |m.nodes| + 1 else 0
  {
    var n := |m.nodes|;
    match a
    case Deliver(i, out) =>
      var msg := s.net[i];
      assert msg in s.net;
      if Accepts(s.stored, msg.dst, msg.body.stamp) {
        FewPeers(m, msg.dst);
        FanOutFits(m, out, msg.dst, Neighbours(m.peers, msg.dst) - {msg.src} - m.mute, msg.body);
        PendingShrinks(m.nodes, stamps, s, msg.dst, msg.body, s'.net);
        Scale(n, |Pending(m.nodes, stamps, s')|, |Pending(m.nodes, stamps, s)|);
      }
    case Write(x, e, out) =>
      FewPeers(m, x);
      FanOutFits(m, out, x, Neighbours(m.peers, x), e);
      PendingShrinks(m.nodes, stamps, s, x, e, s'.net);
      Scale(n, |Pending(m.nodes, stamps, s')|, |Pending(m.nodes, stamps, s)|);
    case Announce(o, targets, e, out) =>
      FewPeers(m, o);
      FanOutFits(m, out, o, targets, e);
  }

  lemma FanOutFits<V(!new), D(!new)>(m: Overlay<V>, out: seq<Message<V, Entry<D>>>, x: V, targets: set<V>, e: Entry<D>)
    requires targets <= m.nodes && IsFanOut(out, x, targets, e)
    ensures |out| <= |m.nodes|
  {
    FanOutSize(out, x, targets, e);
    Smaller(targets, m.nodes);
  }

  lemma Scale(n: nat, a: nat, b: nat)
    requires a < b
    ensures (n + 1) * a + n + 1 <= (n + 1) * b
  {
    Grow(n + 1, a + 1, b);
    assert (n + 1) * (a + 1) == (n + 1) * a + n + 1;
  }

  lemma {:induction false} Grow(c: nat, a: nat, b: nat)
    requires a <= b
    ensures c * a <= c * b
    decreases b
  {
    if a < b {
      Grow(c, a, b - 1);
      assert c * b == c * (b - 1) + c;
    }
  }

  ghost function Announcements<V, D>(acts: seq<Action<V, D>>): nat {
    if acts == [] then 0 else Announcements(acts[..|acts| - 1]) + if acts[|acts| - 1].Announce? then 1 else 0
  }

  lemma {:induction false} FuelLasts<V(!new), D(!new)>(m: Overlay<V>, stamps: set<Stamp>, states: seq<State<V, D>>,
        acts: seq<Action<V, D>>)
    requires WellFormed(m) && IsRun(m, states, acts) && Backed(m, states[0]) && Spread(m, states[0])
    requires Stamped(stamps, states[0])
    requires forall i :: 0 <= i < |acts| ==> Uses(stamps, acts[i])
    ensures Stamped(stamps, Final(states))
    ensures Fuel(m.nodes, stamps, Final(states)) + |acts| <=
      Fuel(m.nodes, stamps, states[0]) + (|m.nodes| + 1) * Announcements(acts)
    decreases |acts|
  {
    hide Fuel, Backed, Spread, Stamped, Step, InOrder, WellFormed;
    if |acts| > 0 {
      var n := |acts| - 1;
      FuelLasts(m, stamps, states[..n + 1], acts[..n]);
      RunKeeps(m, states[..n + 1], acts[..n]);
      FuelBurns(m, stamps, states[n], acts[n], states[n + 1]);
      Distribute(|m.nodes| + 1, Announcements(acts[..n]), 1);
    }
  }

  ghost function Pairs<V, T>(nodes: set<V>, ts: set<T>): set<(V, T)> {
    set x, t | x in nodes && t in ts :: (x, t)
  }

  lemma {:induction false} ProductSize<V, T>(nodes: set<V>, ts: set<T>)
    ensures |Pairs(nodes, ts)| == |nodes| * |ts|
    decreases |nodes|
  {
    var all := Pairs(nodes, ts);
    if nodes == {} {
      assert all == {};
    } else {
      var v :| v in nodes;
      ProductSize(nodes - {v}, ts);
      var rest := Pairs(nodes - {v}, ts);
      var row := set t | t in ts :: (v, t);
      RowSize(v, ts);
      assert all == rest + row && rest !! row;
      assert (|nodes| - 1) * |ts| + |ts| == |nodes| * |ts|;
    }
  }

  lemma {:induction false} RowSize<V, T>(v: V, ts: set<T>)
    ensures |set t | t in ts :: (v, t)| == |ts|
    decreases |ts|
  {
    if ts != {} {
      var u :| u in ts;
      RowSize(v, ts - {u});
      assert (set t | t in ts :: (v, t)) == (set t | t in ts - {u} :: (v, t)) + {(v, u)};
    }
  }

  lemma Distribute(c: nat, a: nat, b: nat)
    ensures c * (a + b) == c * a + c * b
  { }

  lemma PendingIsBounded<V(!new), D(!new)>(nodes: set<V>, stamps: set<Stamp>, s: State<V, D>)
    ensures |Pending(nodes, stamps, s)| <= |nodes| * |stamps|
  {
    ProductSize(nodes, stamps);
    Smaller(Pending(nodes, stamps, s), Pairs(nodes, stamps));
  }

  /**
   * No schedule goes on for ever, cycles included: with n nodes, a run whose stamps come from a finite set takes at
   * most (n + 1) * (n * |stamps| + announcements) steps.
   */
  lemma RunsAreBounded<V(!new), D(!new)>(m: Overlay<V>, stamps: set<Stamp>, states: seq<State<V, D>>,
        acts: seq<Action<V, D>>)
    requires WellFormed(m) && IsRun(m, states, acts) && Spread(m, states[0]) && states[0].net == []
    requires forall i :: 0 <= i < |acts| ==> Uses(stamps, acts[i])
    ensures |acts| <= (|m.nodes| + 1) * (|m.nodes| * |stamps| + Announcements(acts))
  {
    FuelLasts(m, stamps, states, acts);
    PendingIsBounded(m.nodes, stamps, states[0]);
    var n, p, q, k := |m.nodes| + 1, |Pending(m.nodes, stamps, states[0])|, |m.nodes| * |stamps|, Announcements(acts);
    assert |acts| <= n * p + n * k;
    hide *;
    Grow(n, p, q);
    Distribute(n, q, k);
  }

  /** A message under way can always be delivered. */
  lemma NotStuck<V(!new), D(!new)>(m: Overlay<V>, s: State<V, D>, i: nat) returns (a: Action<V, D>, s': State<V, D>)
    requires i < |s.net|
    ensures a.Deliver? && a.i == i && Step(m, s, a, s')
  {
    var msg := s.net[i];
    if Accepts(s.stored, msg.dst, msg.body.stamp) {
      var out := FanOut(msg.dst, Neighbours(m.peers, msg.dst) - {msg.src} - m.mute, msg.body);
      a, s' := Deliver(i, out), State(s.stored[msg.dst := msg.body], Without(s.net, i) + out);
    } else {
      a, s' := Deliver(i, []), State(s.stored, Without(s.net, i) + []);
    }
  }

  /** The second run starts as the first and goes on with deliveries only. */
  ghost predicate Continues<V, D>(
    states: seq<State<V, D>>, acts: seq<Action<V, D>>, states': seq<State<V, D>>, acts': seq<Action<V, D>>)
  {
    states <= states' && acts <= acts' && forall i :: |acts| <= i < |acts'| ==> acts'[i].Deliver?
  }

  /**
   * Quiescence: every run whose stamps come from a finite set goes on, by deliveries alone, to a quiet state, and the
   * whole is no longer than (n + 1) * (n * |stamps| + announcements).
   */
  lemma GoesQuiet<V(!new), D(!new)>(m: Overlay<V>, stamps: set<Stamp>, states: seq<State<V, D>>,
        acts: seq<Action<V, D>>)
      returns (states': seq<State<V, D>>, acts': seq<Action<V, D>>)
    requires WellFormed(m) && IsRun(m, states, acts) && Spread(m, states[0]) && states[0].net == []
    requires forall i :: 0 <= i < |acts| ==> Uses(stamps, acts[i])
    ensures IsRun(m, states', acts') && Continues(states, acts, states', acts') && Final(states').net == []
    ensures |acts'| <= (|m.nodes| + 1) * (|m.nodes| * |stamps| + Announcements(acts))
  {
    states', acts' := Drain(m, stamps, states, acts);
    RunsAreBounded(m, stamps, states', acts');
    SameAnnouncements(acts, acts');
  }

  lemma {:induction false} Drain<V(!new), D(!new)>(m: Overlay<V>, stamps: set<Stamp>, states: seq<State<V, D>>,
        acts: seq<Action<V, D>>)
      returns (states': seq<State<V, D>>, acts': seq<Action<V, D>>)
    requires WellFormed(m) && IsRun(m, states, acts) && Spread(m, states[0]) && states[0].net == []
    requires forall i :: 0 <= i < |acts| ==> Uses(stamps, acts[i])
    ensures IsRun(m, states', acts') && Continues(states, acts, states', acts') && Final(states').net == []
    ensures forall i :: 0 <= i < |acts'| ==> Uses(stamps, acts'[i])
    decreases Fuel(m.nodes, stamps, Final(states))
  {
    FuelLasts(m, stamps, states, acts);
    RunKeeps(m, states, acts);
    hide Fuel, Step, Spread, Backed, WellFormed;
    var s := Final(states);
    if s.net == [] {
      states', acts' := states, acts;
    } else {
      var a, s1 := NotStuck(m, s, 0);
      FuelBurns(m, stamps, s, a, s1);
      states', acts' := Drain(m, stamps, states + [s1], acts + [a]);
    }
  }

  lemma {:induction false} SameAnnouncements<V, D>(acts: seq<Action<V, D>>, acts': seq<Action<V, D>>)
    requires acts <= acts' && forall i :: |acts| <= i < |acts'| ==> acts'[i].Deliver?
    ensures Announcements(acts') == Announcements(acts)
    decreases |acts'|
  {
    if |acts| < |acts'| { SameAnnouncements(acts, acts'[..|acts'| - 1]); } else { assert acts == acts'; }
  }

  // ─── Last write wins ───

  /** The stamp of a local write: the wall clock, and one version more than the stored one. */
  function WriteStamp(stored: Stamp, now: nat): Stamp {
    Stamp(now, stored.version + 1)
  }

  /** A local write takes its place after the stored entry exactly when the clock is not behind it. */
  lemma WriteIsNewer(stored: Stamp, now: nat)
    ensures Newer(WriteStamp(stored, now), stored) <==> now >= stored.time
  { }

  ghost predicate AllStore<V, D>(nodes: set<V>, s: State<V, D>, e: Entry<D>) {
    forall x :: x in nodes ==> x in s.stored && s.stored[x] == e
  }

  /** No written entry is newer than what every node ends up with. */
  lemma {:induction false} WritesAreOutdone<V(!new), D(!new)>(m: Overlay<V>, e0: Entry<D>, states: seq<State<V, D>>,
        acts: seq<Action<V, D>>, e: Entry<D>) returns (x: V)
    requires m.mute == {} && m.nodes != {} && IsRun(m, states, acts) && AllStore(m.nodes, states[0], e0)
    requires e in Written({e0}, acts)
    ensures x in m.nodes && Holds(Final(states), x, e.stamp)
    decreases |acts|
  {
    if |acts| == 0 {
      x :| x in m.nodes;
    } else {
      var n := |acts| - 1;
      assert Step(m, states[n], acts[n], states[n + 1]) && InOrder(states[n], acts[n]);
      assert !acts[n].Announce?;
      if acts[n].Write? && acts[n].entry == e {
        x := acts[n].x;
      } else {
        x := WritesAreOutdone(m, e0, states[..n + 1], acts[..n], e);
        HoldsKept(m, states[n], acts[n], states[n + 1], x, e.stamp);
      }
    }
  }

  lemma QuietAgrees<V(!new), D(!new)>(m: Overlay<V>, s: State<V, D>, x: V, y: V)
    requires WellFormed(m) && m.mute == {} && Connected(m.peers, m.nodes) && Spread(m, s) && s.net == []
    requires x in m.nodes && y in m.nodes && x in s.stored
    ensures Holds(s, y, s.stored[x].stamp)
  {
    var p :| Connects(m.peers, p, x, y);
    HoldsAlong(m, s, p, s.stored[x].stamp);
  }

  /**
   * Last-write-wins convergence: when the clocks never fall behind and nothing is under way, every node holds a latest
   * of the entries really written, hence one and the same stamp; and one and the same entry if only one is latest.
   */
  lemma LastWriteWins<V(!new), D(!new)>(m: Overlay<V>, e0: Entry<D>, states: seq<State<V, D>>, acts: seq<Action<V, D>>,
        x: V, y: V)
    requires WellFormed(m) && m.mute == {} && Connected(m.peers, m.nodes)
    requires IsRun(m, states, acts) && AllStore(m.nodes, states[0], e0) && states[0].stored.Keys == m.nodes
    requires states[0].net == []
    requires Final(states).net == [] && x in m.nodes && y in m.nodes
    ensures var stored := Final(states).stored; var es := Written({e0}, acts);
      && x in stored && y in stored && stored[x].stamp == stored[y].stamp
      && Latest(es, stored[x]) && Latest(es, stored[y])
      && (OneLatest(es) ==> stored[x] == stored[y])
  {
    StoresLatest(m, e0, states, acts, x);
    StoresLatest(m, e0, states, acts, y);
  }

  lemma StoresLatest<V(!new), D(!new)>(m: Overlay<V>, e0: Entry<D>, states: seq<State<V, D>>, acts: seq<Action<V, D>>,
        x: V)
    requires WellFormed(m) && m.mute == {} && Connected(m.peers, m.nodes)
    requires IsRun(m, states, acts) && AllStore(m.nodes, states[0], e0) && states[0].stored.Keys == m.nodes
    requires states[0].net == []
    requires Final(states).net == [] && x in m.nodes
    ensures x in Final(states).stored && Latest(Written({e0}, acts), Final(states).stored[x])
  {
    var f := Final(states);
    RunKeeps(m, states, acts);
    StoredIsGenuine(m, {e0}, states, acts);
    hide Connected, Spread;
    forall c | c in Written({e0}, acts) ensures Holds(f, x, c.stamp) {
      var v := WritesAreOutdone(m, e0, states, acts, c);
      QuietAgrees(m, f, v, x);
    }
    WrittenHasFirst(e0, acts);
  }

  lemma {:induction false} WrittenHasFirst<V(!new), D(!new)>(e0: Entry<D>, acts: seq<Action<V, D>>)
    ensures e0 in Written({e0}, acts)
  {
    if acts != [] { WrittenHasFirst(e0, acts[..|acts| - 1]); }
  }

  /** x alone holds an entry that its peers, holding e, will never accept. */
  ghost predicate Stuck<V(!new), D(!new)>(m: Overlay<V>, s: State<V, D>, x: V, late: Entry<D>, e: Entry<D>) {
    && x in s.stored && s.stored[x] == late
    && (forall y :: y in m.nodes && y != x ==> y in s.stored && s.stored[y] == e)
    && (forall msg :: msg in s.net ==> msg.dst in m.nodes && msg.body == late)
  }

  /**
   * A clock behind the stored timestamp breaks convergence for good: from a quiet state in which all agree, such a
   * write leaves its node with an entry of its own in every later state, whatever is delivered in whatever order.
   */
  lemma {:induction false} ClockBehindDiverges<V(!new), D(!new)>(m: Overlay<V>, e: Entry<D>, states: seq<State<V, D>>,
        acts: seq<Action<V, D>>)
    requires |states| == |acts| + 1 && WellFormed(m) && AllStore(m.nodes, states[0], e) && states[0].net == []
    requires |acts| > 0 && acts[0].Write? && acts[0].entry.stamp == WriteStamp(e.stamp, acts[0].entry.stamp.time)
    requires acts[0].entry.stamp.time < e.stamp.time
    requires forall i :: 0 <= i < |acts| ==> Step(m, states[i], acts[i], states[i + 1])
    requires forall i :: 0 < i < |acts| ==> acts[i].Deliver?
    ensures Stuck(m, Final(states), acts[0].x, acts[0].entry, e)
    decreases |acts|
  {
    var x, late := acts[0].x, acts[0].entry;
    if |acts| == 1 {
      FewPeers(m, x);
      assert Step(m, states[0], acts[0], states[1]);
    } else {
      var n := |acts| - 1;
      ClockBehindDiverges(m, e, states[..n + 1], acts[..n]);
      assert Step(m, states[n], acts[n], states[n + 1]);
      assert acts[n].Deliver? && states[n].net[acts[n].i] in states[n].net;
    }
  }

  /**
   * From a quiet state in which all agree, one local write at x and the deliveries it causes lead, once quiet again, to
   * agreement of all nodes if and only if the clock of x was not behind the stored timestamp.
   */
  lemma AgreesIffClockNotBehind<V(!new), D(!new)>(m: Overlay<V>, e: Entry<D>, states: seq<State<V, D>>,
        acts: seq<Action<V, D>>, y: V)
    requires |states| == |acts| + 1 && |acts| > 0 && WellFormed(m) && m.mute == {} && Connected(m.peers, m.nodes)
    requires AllStore(m.nodes, states[0], e) && states[0].stored.Keys == m.nodes && states[0].net == []
    requires acts[0].Write? && acts[0].entry.stamp == WriteStamp(e.stamp, acts[0].entry.stamp.time) && y in m.nodes
    requires y != acts[0].x
    requires forall i :: 0 <= i < |acts| ==> Step(m, states[i], acts[i], states[i + 1])
    requires forall i :: 0 < i < |acts| ==> acts[i].Deliver?
    requires Final(states).net == []
    ensures AllStore(m.nodes, Final(states), acts[0].entry) <==> acts[0].entry.stamp.time >= e.stamp.time
  {
    hide Step, Connected;
    if acts[0].entry.stamp.time < e.stamp.time {
      ClockBehindDiverges(m, e, states, acts);
    } else {
      FairWriteIsRun(m, e, states, acts);
      OneWrite(e, acts);
      forall v | v in m.nodes ensures v in Final(states).stored && Final(states).stored[v] == acts[0].entry {
        StoresLatest(m, e, states, acts, v);
      }
    }
  }

  lemma FairWriteIsRun<V(!new), D(!new)>(m: Overlay<V>, e: Entry<D>, states: seq<State<V, D>>, acts: seq<Action<V, D>>)
    requires |states| == |acts| + 1 && |acts| > 0 && AllStore(m.nodes, states[0], e)
    requires acts[0].Write? && acts[0].entry.stamp == WriteStamp(e.stamp, acts[0].entry.stamp.time)
    requires acts[0].entry.stamp.time >= e.stamp.time
    requires forall i :: 0 <= i < |acts| ==> Step(m, states[i], acts[i], states[i + 1])
    requires forall i :: 0 < i < |acts| ==> acts[i].Deliver?
    ensures IsRun(m, states, acts)
  {
    WriteIsNewer(e.stamp, acts[0].entry.stamp.time);
    assert Step(m, states[0], acts[0], states[1]);
    hide Step;
  }

  lemma {:induction false} OneWrite<V(!new), D(!new)>(e: Entry<D>, acts: seq<Action<V, D>>)
    requires |acts| > 0 && acts[0].Write? && forall i :: 0 < i < |acts| ==> acts[i].Deliver?
    ensures Written({e}, acts) == {e, acts[0].entry}
    decreases |acts|
  {
    if |acts| > 1 { OneWrite(e, acts[..|acts| - 1]); }
  }

  /** An entry that nothing written is newer than is never given up by the node that wrote it. */
  lemma {:induction false} LatestIsKept<V(!new), D(!new)>(m: Overlay<V>, e0: Entry<D>, states: seq<State<V, D>>,
        acts: seq<Action<V, D>>, a: Entry<D>) returns (x: V)
    requires m.mute == {} && m.nodes != {} && IsRun(m, states, acts)
    requires AllStore(m.nodes, states[0], e0) && states[0].stored.Keys == m.nodes && states[0].net == []
    requires Latest(Written({e0}, acts), a)
    ensures x in m.nodes && x in Final(states).stored && Final(states).stored[x] == a
    decreases |acts|
  {
    if |acts| == 0 {
      x :| x in m.nodes;
    } else {
      var n := |acts| - 1;
      assert Step(m, states[n], acts[n], states[n + 1]) && InOrder(states[n], acts[n]);
      assert acts[n].Write? ==> acts[n].x in m.nodes && acts[n].x in states[n + 1].stored;
      assert acts[n].Write? ==> states[n + 1].stored[acts[n].x] == acts[n].entry;
      assert !acts[n].Announce?;
      hide Step, InOrder;
      if acts[n].Write? && acts[n].entry == a {
        x := acts[n].x;
      } else {
        x := LatestIsKept(m, e0, states[..n + 1], acts[..n], a);
        StoredIsGenuine(m, {e0}, states[..n + 1], acts[..n]);
        LatestSurvives(m, Written({e0}, acts), states[n], acts[n], states[n + 1], a, x);
      }
    }
  }

  lemma LatestSurvives<V(!new), D(!new)>(m: Overlay<V>, es: set<Entry<D>>, s: State<V, D>, act: Action<V, D>,
        s': State<V, D>, a: Entry<D>, x: V)
    requires Step(m, s, act, s') && InOrder(s, act) && (!act.Deliver? ==> act.entry in es)
    requires Latest(es, a) && x in s.stored && s.stored[x] == a && forall msg :: msg in s.net ==> msg.body in es
    ensures x in s'.stored && s'.stored[x] == a
  {
    if act.Deliver? { assert s.net[act.i] in s.net; }
  }

  /**
   * The exact condition for agreement: in every quiet state of every run on a connected graph all nodes store one entry
   * if and only if only one of the entries written has the largest stamp.
   */
  lemma AgreeIffOneLatest<V(!new), D(!new)>(m: Overlay<V>, e0: Entry<D>, states: seq<State<V, D>>,
        acts: seq<Action<V, D>>)
    requires WellFormed(m) && m.mute == {} && m.nodes != {} && Connected(m.peers, m.nodes)
    requires IsRun(m, states, acts) && AllStore(m.nodes, states[0], e0) && states[0].stored.Keys == m.nodes
    requires states[0].net == [] && Final(states).net == []
    ensures (exists e :: AllStore(m.nodes, Final(states), e)) <==> OneLatest(Written({e0}, acts))
  {
    hide Step, Connected, WellFormed;
    var es := Written({e0}, acts);
    if e :| AllStore(m.nodes, Final(states), e) {
      forall a, b | Latest(es, a) && Latest(es, b) ensures a == b {
        var x := LatestIsKept(m, e0, states, acts, a);
        var y := LatestIsKept(m, e0, states, acts, b);
      }
    }
    if OneLatest(es) {
      var x :| x in m.nodes;
      StoresLatest(m, e0, states, acts, x);
      forall y | y in m.nodes ensures y in Final(states).stored && Final(states).stored[y] == Final(states).stored[x] {
        StoresLatest(m, e0, states, acts, y);
      }
      assert AllStore(m.nodes, Final(states), Final(states).stored[x]);
    }
  }

  ghost predicate OneLatest<D(!new)>(es: set<Entry<D>>) {
    forall a, b :: Latest(es, a) && Latest(es, b) ==> a == b
  }

  /** Such ties happen: for any stamp and any two data there is a run whose two writers keep their own. */
  lemma TieDiverges<D(!new)>(e0: Entry<D>, t: Stamp, d1: D, d2: D)
      returns (m: Overlay<bool>, states: seq<State<bool, D>>, acts: seq<Action<bool, D>>)
    requires Newer(t, e0.stamp) && d1 != d2
    ensures WellFormed(m) && m.mute == {} && m.nodes == {false, true} && IsRun(m, states, acts)
    ensures AllStore(m.nodes, states[0], e0) && states[0].net == []
    ensures |acts| == 4 && acts[0].Write? && acts[1].Write? && acts[0].entry == Entry(t, d1)
    ensures acts[1].entry == Entry(t, d2)
    ensures Final(states).net == [] && Final(states).stored == map[false := Entry(t, d1), true := Entry(t, d2)]
  {
    hide Step;
    m := Overlay({false, true}, {(false, true), (true, false)}, {});
    var e1, e2 := Entry(t, d1), Entry(t, d2);
    var ab, ba := Message(false, true, e1), Message(true, false, e2);
    var s0 := State(map[false := e0, true := e0], []);
    var s1 := State(s0.stored[false := e1], s0.net + [ab]);
    var s2 := State(s1.stored[true := e2], s1.net + [ba]);
    var s3 := State(s2.stored, Without(s2.net, 0) + []);
    var s4 := State(s3.stored, Without(s3.net, 0) + []);
    states := [s0, s1, s2, s3, s4];
    acts := [Write(false, e1, [ab]), Write(true, e2, [ba]), Deliver(0, []), Deliver(0, [])];
    TieWrite(m, s0, false, true, e1);
    TieWrite(m, s1, true, false, e2);
    assert s2.net == [ab, ba] && s3.net == [ba] && s4.net == [];
    assert s2.stored == map[false := e1, true := e2];
    TieDrop(m, s2);
    TieDrop(m, s3);
    assert Step(m, s2, acts[2], s3) && Step(m, s3, acts[3], s4);
    hide Accepts, Without;
  }

  lemma TieWrite<D(!new)>(m: Overlay<bool>, s: State<bool, D>, x: bool, y: bool, e: Entry<D>)
    requires m == Overlay({false, true}, {(false, true), (true, false)}, {}) && y == !x
    ensures Step(m, s, Write(x, e, [Message(x, y, e)]), State(s.stored[x := e], s.net + [Message(x, y, e)]))
  {
    assert Neighbours(m.peers, x) == {y} by { assert (x, y) in m.peers; }
  }

  lemma TieDrop<D(!new)>(m: Overlay<bool>, s: State<bool, D>)
    requires |s.net| > 0 && !Accepts(s.stored, s.net[0].dst, s.net[0].body.stamp)
    ensures Step(m, s, Deliver(0, []), State(s.stored, Without(s.net, 0) + []))
  { }
}
