/** A mesh node: its control-loop branches, session updates and publishing, tied to the network-wide protocols. */
module FlowNodes {
  import opened GlobalGraphs
  import opened Meshes
  import opened Networks
  import opened Walks
  import opened Wrappers
  import Forwarding
  import Gossip
  import Merge
  import Multicast

  type Bytes = seq<bv8>
  type SessionId = string
  type MergeFn = (Bytes, Bytes) -> Result<Bytes>

  datatype Session = Session(data: Bytes, version: nat, timestamp: nat)
  datatype StateSync = StateSync(sessionId: SessionId, sender: NodeId, timestamp: nat, version: nat, data: Bytes)
  const SUBSCRIBE := 0
  const FLOW := 0
  datatype SubscriptionEntry = SubscriptionEntry(pattern: string, action: int)
  datatype SubscriptionUpdate = SubscriptionUpdate(nodeId: NodeId, entries: seq<SubscriptionEntry>, epoch: nat)

  /** One recipient per element, each once. */
  ghost predicate Lists(ds: seq<NodeId>, targets: set<NodeId>) {
    Distinct(ds) && |ds| == |targets| && forall x :: x in ds <==> x in targets
  }

  lemma ListsNone()
    ensures Lists([], {})
  { }

  lemma ListsOneMore(ds: seq<NodeId>, targets: set<NodeId>, x: NodeId)
    requires Lists(ds, targets) && x !in targets
    ensures Lists(ds + [x], targets + {x})
  { }

  function EpochEntry<D>(epoch: nat, d: D): Gossip.Entry<D> {
    Gossip.Entry(Gossip.Stamp(epoch, 0), d)
  }

  /** One body to each of the recipients. */
  function Copies<B>(src: NodeId, ds: seq<NodeId>, b: B): seq<Message<NodeId, B>> {
    seq(|ds|, i requires 0 <= i < |ds| => Message(src, ds[i], b))
  }

  lemma CopiesFanOut<B(!new)>(src: NodeId, ds: seq<NodeId>, targets: set<NodeId>, b: B)
    requires Lists(ds, targets)
    ensures IsFanOut(Copies(src, ds, b), src, targets, b)
  {
    var out := Copies(src, ds, b);
    forall y | y in targets ensures Message(src, y, b) in out {
      var i :| 0 <= i < |ds| && ds[i] == y;
      assert out[i] == Message(src, y, b);
    }
  }

  /** The messages as merge mode sees them: it looks at the data only. */
  ghost function Bare(out: seq<Message<NodeId, Gossip.Entry<Bytes>>>): seq<Message<NodeId, Bytes>> {
    seq(|out|, i requires 0 <= i < |out| => Message(out[i].src, out[i].dst, out[i].body.data))
  }

  lemma BareFanOut(out: seq<Message<NodeId, Gossip.Entry<Bytes>>>, x: NodeId, targets: set<NodeId>,
        e: Gossip.Entry<Bytes>)
    requires IsFanOut(out, x, targets, e)
    ensures IsFanOut(Bare(out), x, targets, e.data)
  {
    forall y | y in targets ensures Message(x, y, e.data) in Bare(out) {
      var i :| 0 <= i < |out| && out[i] == Message(x, y, e);
      assert Bare(out)[i] == Message(x, y, e.data);
    }
    forall msg | msg in Bare(out) ensures msg.src == x && msg.dst in targets && msg.body == e.data {
      var i :| 0 <= i < |out| && Bare(out)[i] == msg;
      assert out[i] in out;
    }
  }

  ghost function View<D>(x: NodeId, epochs: map<NodeId, nat>, updates: map<NodeId, D>, o: NodeId)
      : map<NodeId, Gossip.Entry<D>>
  {
    if o in epochs && o in updates then map[x := EpochEntry(epochs[o], updates[o])] else map[]
  }

  /** The guard of the control loop is the guard of the protocol, and what it stores is what the protocol stores. */
  lemma Accepted<D(!new)>(x: NodeId, epochs: map<NodeId, nat>, updates: map<NodeId, D>, o: NodeId, epoch: nat, u: D)
    requires updates.Keys == epochs.Keys
    ensures Gossip.Accepts(View(x, epochs, updates, o), x, Gossip.Stamp(epoch, 0)) <==>
        o !in epochs || epoch > epochs[o]
    ensures View(x, epochs[o := epoch], updates[o := u], o) == View(x, epochs, updates, o)[x := EpochEntry(epoch, u)]
    ensures forall p :: p != o ==> View(x, epochs[o := epoch], updates[o := u], p) == View(x, epochs, updates, p)
  { }

  class FlowNode {
    const nodeId: NodeId
    const graph: GlobalGraph
    var lastEpochs: map<NodeId, nat>
    var lastSubscriptionEpochs: map<NodeId, nat>
    var sessions: map<SessionId, Session>
    var mergeFns: map<SessionId, MergeFn>
    var peers: set<NodeId>
    /** The update last accepted from each origin. */
    ghost var updates: map<NodeId, TopologyUpdate>
    ghost var subscriptions: map<NodeId, SubscriptionUpdate>

    ghost predicate Valid()
      reads this, graph
    {
      && graph.Valid()
      && updates.Keys == lastEpochs.Keys && subscriptions.Keys == lastSubscriptionEpochs.Keys
    }

    constructor (id: NodeId)
      ensures Valid() && fresh(graph) && nodeId == id && graph.mesh == EMPTY
      ensures lastEpochs == map[] && lastSubscriptionEpochs == map[] && sessions == map[] && mergeFns == map[]
      ensures peers == {}
    {
      nodeId := id;
      graph := new GlobalGraph();
      lastEpochs, lastSubscriptionEpochs, sessions, mergeFns, peers := map[], map[], map[], map[], {};
      updates, subscriptions := map[], map[];
    }

    /** This node's part of the flood of origin o: what it stores, if anything. */
    ghost function TopologyView(o: NodeId): map<NodeId, Gossip.Entry<TopologyUpdate>>
      reads this
    {
      View(nodeId, lastEpochs, updates, o)
    }

    ghost function SubscriptionView(o: NodeId): map<NodeId, Gossip.Entry<SubscriptionUpdate>>
      reads this
    {
      View(nodeId, lastSubscriptionEpochs, subscriptions, o)
    }

    /** This node's part of the sync of a session. */
    ghost function SessionView(id: SessionId): map<NodeId, Gossip.Entry<Bytes>>
      reads this
    {
      if id in sessions then map[nodeId := Stamped(sessions[id])] else map[]
    }

    static function Stamped(s: Session): Gossip.Entry<Bytes> {
      Gossip.Entry(Gossip.Stamp(s.timestamp, s.version), s.data)
    }

    /** The recipients of a gossip loop: every peer that is not skipped. */
    method Recipients(skip: set<NodeId>) returns (ds: seq<NodeId>)
      ensures Lists(ds, peers - skip)
    {
      ds := [];
      var todo := peers;
      ghost var chosen: set<NodeId> := {};
      hide Lists;
      ListsNone();
      while todo != {}
        invariant todo <= peers && chosen == peers - todo - skip
        invariant Lists(ds, chosen)
      {
        var peer :| peer in todo;
        todo := todo - {peer};
        if peer !in skip {
          ListsOneMore(ds, chosen, peer);
          ds := ds + [peer];
          chosen := chosen + {peer};
        }
      }
      assert chosen == peers - skip;
    }

    /** Topology gossip: a newer epoch of its origin is applied and forwarded, anything else is dropped. */
    method OnTopologyUpdate(from: NodeId, u: TopologyUpdate)
        returns (out: seq<Message<NodeId, Gossip.Entry<TopologyUpdate>>>)
      requires Valid()
      modifies this`lastEpochs, this`updates, graph
      ensures Valid()
      ensures Gossip.Reacts(old(TopologyView(u.origin)), nodeId, peers, {u.origin}, from, EpochEntry(u.epoch, u), out,
          TopologyView(u.origin))
      ensures if u.origin !in old(lastEpochs) || u.epoch > old(lastEpochs)[u.origin] then
          && graph.mesh == Apply(old(graph.mesh), u) && lastEpochs == old(lastEpochs)[u.origin := u.epoch]
          && IsFanOut(out, nodeId, peers - {from, u.origin}, EpochEntry(u.epoch, u))
        else graph.mesh == old(graph.mesh) && lastEpochs == old(lastEpochs) && out == []
      ensures forall o :: o != u.origin ==> TopologyView(o) == old(TopologyView(o))
    {
      hide GlobalGraph.Valid, Apply, Lists, IsFanOut, Copies, View, Gossip.Accepts;
      Accepted(nodeId, lastEpochs, updates, u.origin, u.epoch, u);
      out := [];
      if u.origin !in lastEpochs || u.epoch > lastEpochs[u.origin] {
        lastEpochs := lastEpochs[u.origin := u.epoch];
        updates := updates[u.origin := u];
        graph.ApplyUpdate(u);
        var ds := Recipients({from, u.origin});
        assert peers - {from, u.origin} == peers - {from} - {u.origin};
        CopiesFanOut(nodeId, ds, peers - {from} - {u.origin}, EpochEntry(u.epoch, u));
        out := Copies(nodeId, ds, EpochEntry(u.epoch, u));
      }
    }

    /** An ordinary node whose capabilities are exactly the patterns of the Subscribe entries. */
    static ghost function Described(u: SubscriptionUpdate, now: nat): NodeDescriptor {
      NodeDescriptor(u.nodeId, FLOW, map k | k in Keys(u.entries) :: "", now)
    }

    static ghost function Keys(entries: seq<SubscriptionEntry>): set<string> {
      set e | e in entries && e.action == SUBSCRIBE :: "sub:" + e.pattern
    }

    /** An accepted subscription makes its node a subscriber of exactly the topics that its Subscribe entries match. */
    static lemma SubscriptionRoundTrip(m: Mesh, u: SubscriptionUpdate, now: nat, matches: string -> bool)
      ensures var m' := AddNode(m, Described(u, now));
        && u.nodeId in m'.metadata && m'.metadata[u.nodeId].role == 0 && m'.metadata[u.nodeId].lastSeen == now
        && (Subscribed(m'.metadata[u.nodeId], matches) <==>
            exists e :: e in u.entries && e.action == 0 && matches(e.pattern))
      ensures forall n :: n != u.nodeId && n in m.metadata ==>
        n in AddNode(m, Described(u, now)).metadata && AddNode(m, Described(u, now)).metadata[n] == m.metadata[n]
    {
      var d := Described(u, now);
      if Subscribed(d, matches) {
        var pattern :| "sub:" + pattern in d.capabilities && matches(pattern);
        var e :| e in u.entries && e.action == SUBSCRIBE && "sub:" + e.pattern == "sub:" + pattern;
        assert ("sub:" + e.pattern)[4..] == e.pattern && ("sub:" + pattern)[4..] == pattern;
      }
      if e :| e in u.entries && e.action == 0 && matches(e.pattern) {
        assert "sub:" + e.pattern in d.capabilities;
      }
    }

    static method Descriptor(u: SubscriptionUpdate, now: nat) returns (d: NodeDescriptor)
      ensures d == Described(u, now)
    {
      var capabilities: map<string, string> := map[];
      for i := 0 to |u.entries|
        invariant capabilities == map k | k in Keys(u.entries[..i]) :: ""
      {
        var e := u.entries[i];
        assert u.entries[..i + 1] == u.entries[..i] + [e];
        if e.action == SUBSCRIBE {
          assert Keys(u.entries[..i + 1]) == Keys(u.entries[..i]) + {"sub:" + e.pattern};
          capabilities := capabilities["sub:" + e.pattern := ""];
        } else {
          assert Keys(u.entries[..i + 1]) == Keys(u.entries[..i]);
        }
      }
      assert u.entries[..|u.entries|] == u.entries;
      d := NodeDescriptor(u.nodeId, FLOW, capabilities, now);
    }

    /** Subscription gossip: as above, and the origin's capabilities are replaced by its subscriptions. */
    method OnSubscriptionUpdate(from: NodeId, u: SubscriptionUpdate, now: nat)
        returns (out: seq<Message<NodeId, Gossip.Entry<SubscriptionUpdate>>>)
      requires Valid()
      modifies this`lastSubscriptionEpochs, this`subscriptions, graph
      ensures Valid()
      ensures Gossip.Reacts(old(SubscriptionView(u.nodeId)), nodeId, peers, {u.nodeId}, from, EpochEntry(u.epoch, u),
          out, SubscriptionView(u.nodeId))
      ensures if u.nodeId !in old(lastSubscriptionEpochs) || u.epoch > old(lastSubscriptionEpochs)[u.nodeId] then
          && graph.mesh == AddNode(old(graph.mesh), Described(u, now))
          && lastSubscriptionEpochs == old(lastSubscriptionEpochs)[u.nodeId := u.epoch]
          && IsFanOut(out, nodeId, peers - {from, u.nodeId}, EpochEntry(u.epoch, u))
        else graph.mesh == old(graph.mesh) && lastSubscriptionEpochs == old(lastSubscriptionEpochs) && out == []
      ensures forall o :: o != u.nodeId ==> SubscriptionView(o) == old(SubscriptionView(o))
    {
      hide GlobalGraph.Valid, AddNode, Lists, IsFanOut, Described, Copies, View, Gossip.Accepts;
      Accepted(nodeId, lastSubscriptionEpochs, subscriptions, u.nodeId, u.epoch, u);
      out := [];
      if u.nodeId !in lastSubscriptionEpochs || u.epoch > lastSubscriptionEpochs[u.nodeId] {
        lastSubscriptionEpochs := lastSubscriptionEpochs[u.nodeId := u.epoch];
        subscriptions := subscriptions[u.nodeId := u];
        var d := Descriptor(u, now);
        graph.AddNode(d);
        var ds := Recipients({from, u.nodeId});
        assert peers - {from, u.nodeId} == peers - {from} - {u.nodeId};
        CopiesFanOut(nodeId, ds, peers - {from} - {u.nodeId}, EpochEntry(u.epoch, u));
        out := Copies(nodeId, ds, EpochEntry(u.epoch, u));
      }
    }

    /** A pong confirms the link to its sender; a link not known before is announced with the next epoch. */
    method OnPong(from: NodeId, sentAt: nat, now: nat)
        returns (out: seq<Message<NodeId, Gossip.Entry<TopologyUpdate>>>)
      requires Valid()
      modifies this`lastEpochs, this`updates, graph
      ensures Valid()
      ensures var rttMillis := if now > sentAt then now - sentAt else 0;
        graph.mesh == AddLink(old(graph.mesh), LinkDescriptor(nodeId, from, LinkWeight(1, rttMillis * 1000)))
      ensures (nodeId, from) in old(graph.mesh.links) ==>
        out == [] && lastEpochs == old(lastEpochs) && updates == old(updates)
      ensures (nodeId, from) !in old(graph.mesh.links) ==>
        var epoch := 1 + if nodeId in old(lastEpochs) then old(lastEpochs)[nodeId] else 0;
        && lastEpochs == old(lastEpochs)[nodeId := epoch]
        && exists u :: && IsFanOut(out, nodeId, peers, EpochEntry(epoch, u)) && u.origin == nodeId && u.epoch == epoch
             && IsSnapshot(graph.mesh, u.nodesAdded, u.linksAdded) && u.nodesRemoved == [] && u.linksRemoved == []
             && TopologyView(nodeId) == map[nodeId := EpochEntry(epoch, u)]
      ensures forall o :: o != nodeId ==> TopologyView(o) == old(TopologyView(o))
    {
      hide GlobalGraph.Valid, AddLink, IsSnapshot, Lists, IsFanOut;
      out := [];
      var rttMillis := if now > sentAt then now - sentAt else 0;
      var linkExists := graph.HasLink(nodeId, from);
      graph.AddLink(LinkDescriptor(nodeId, from, LinkWeight(1, rttMillis * 1000)));
      if !linkExists {
        var epoch := 1 + if nodeId in lastEpochs then lastEpochs[nodeId] else 0;
        lastEpochs := lastEpochs[nodeId := epoch];
        var nodesAdded, linksAdded := graph.GetDescriptors();
        var u := TopologyUpdate(nodeId, epoch, nodesAdded, [], linksAdded, []);
        updates := updates[nodeId := u];
        var ds := Recipients({});
        assert peers - {} == peers;
        CopiesFanOut(nodeId, ds, peers, EpochEntry(epoch, u));
        out := Copies(nodeId, ds, EpochEntry(epoch, u));
      }
    }

    /**
     * A session state arrives. Without a merge function the strictly newer stamp wins; with one the states are merged.
     * Only an accepted state is sent on. For a merge that behaves as f here, this is a step of the merging network.
     */
    method OnStateSync(from: NodeId, sync: StateSync, ghost f: (Bytes, Bytes) -> Bytes)
        returns (out: seq<Message<NodeId, Gossip.Entry<Bytes>>>)
      requires Valid()
      modifies this`sessions
      ensures sessions.Keys == old(sessions.Keys)
      ensures forall id :: id in sessions && id != sync.sessionId ==> sessions[id] == old(sessions[id])
      ensures sync.sessionId !in sessions ==> out == []
      ensures sync.sessionId in sessions && sync.sessionId !in mergeFns && sync.sender == from ==>
        Gossip.Reacts(old(SessionView(sync.sessionId)), nodeId, peers, {}, from, SyncEntry(sync), out,
                      SessionView(sync.sessionId))
      ensures sync.sessionId in sessions && sync.sessionId in mergeFns && sync.sender == from ==>
        var before, after := old(sessions[sync.sessionId]), sessions[sync.sessionId];
        mergeFns[sync.sessionId](before.data, sync.data) == Ok(f(before.data, sync.data)) ==>
          Merge.Reacts(f, before.data, nodeId, peers, from, sync.data, Bare(out), after.data)
      ensures sync.sessionId in sessions && sync.sessionId !in mergeFns ==>
        var before, after := old(sessions[sync.sessionId]), sessions[sync.sessionId];
        if sync.timestamp > before.timestamp || (sync.timestamp == before.timestamp && sync.version > before.version)
        then && after == Session(sync.data, sync.version, sync.timestamp)
             && IsFanOut(out, nodeId, peers - {from, sync.sender}, Stamped(after))
        else out == [] && after == before
      ensures sync.sessionId in sessions && sync.sessionId in mergeFns ==>
        var before, after := old(sessions[sync.sessionId]), sessions[sync.sessionId];
        match mergeFns[sync.sessionId](before.data, sync.data)
        case Err(_) => out == [] && after == before
        case Ok(merged) =>
          && after.data == merged && IsFanOut(out, nodeId, peers - {from, sync.sender}, Stamped(after))
          && after.version > before.version && after.version > sync.version
          && (after.version == before.version + 1 || after.version == sync.version + 1)
          && after.timestamp >= before.timestamp && after.timestamp >= sync.timestamp
          && (after.timestamp == before.timestamp || after.timestamp == sync.timestamp)
    {
      hide IsFanOut, Copies, Lists, Bare;
      out := [];
      if sync.sessionId !in sessions {
        return;
      }
      var s := sessions[sync.sessionId];
      var shouldUpdate := false;
      var sent := s;
      if sync.sessionId in mergeFns {
        match mergeFns[sync.sessionId](s.data, sync.data)
        case Ok(merged) =>
          sent := Session(merged, Max(s.version, sync.version) + 1, Max(s.timestamp, sync.timestamp));
          shouldUpdate := true;
        case Err(_) =>
      } else if sync.timestamp > s.timestamp || (sync.timestamp == s.timestamp && sync.version > s.version) {
        sent := Session(sync.data, sync.version, sync.timestamp);
        shouldUpdate := true;
      }
      if shouldUpdate {
        sessions := sessions[sync.sessionId := sent];
        var ds := Recipients({from, sync.sender});
        out := Copies(nodeId, ds, Stamped(sent));
        CopiesFanOut(nodeId, ds, peers - {from, sync.sender}, Stamped(sent));
        BareFanOut(out, nodeId, peers - {from, sync.sender}, Stamped(sent));
        if sync.sender == from {
          assert peers - {from, sync.sender} == peers - {from} == peers - {from} - {};
        }
      }
    }

    static ghost function SyncEntry(sync: StateSync): Gossip.Entry<Bytes> {
      Gossip.Entry(Gossip.Stamp(sync.timestamp, sync.version), sync.data)
    }

    static function Max(a: nat, b: nat): nat {
      if a > b then a else b
    }

    /**
     * A local update. The stamp is taken before the merge is tried, so a failing merge leaves the data alone but
     * advances the version and the timestamp, and nothing is sent. For a merge that behaves as f here, this is an
     * update of the merging network.
     */
    method SyncSessionState(id: SessionId, data: Bytes, now: nat, ghost f: (Bytes, Bytes) -> Bytes)
        returns (r: Result<()>, out: seq<Message<NodeId, Gossip.Entry<Bytes>>>)
      requires Valid()
      modifies this`sessions
      ensures sessions.Keys == old(sessions.Keys)
      ensures forall k :: k in sessions && k != id ==> sessions[k] == old(sessions[k])
      ensures id !in sessions ==> r.Err? && out == []
      ensures id in sessions ==>
        var before := old(sessions[id]);
        var after := sessions[id];
        && after.version == before.version + 1 && after.timestamp == now
        && Stamped(after).stamp == Gossip.WriteStamp(Stamped(before).stamp, now)
        && if id !in mergeFns then
             r.Ok? && after.data == data && IsFanOut(out, nodeId, peers, Stamped(after))
           else match mergeFns[id](before.data, data)
             case Err(_) => r.Err? && out == [] && after.data == before.data
             case Ok(merged) =>
               && r.Ok? && after.data == merged
               && IsFanOut(out, nodeId, peers, Gossip.Entry(Stamped(after).stamp, data))
      ensures id in sessions && id in mergeFns ==>
        var before, after := old(sessions[id]), sessions[id];
        mergeFns[id](before.data, data) == Ok(f(before.data, data)) ==>
          Merge.Updates(f, before.data, nodeId, peers, data, Bare(out), after.data)
    {
      hide IsFanOut, Copies, Lists, Bare;
      out := [];
      if id !in sessions {
        return Err("session not found"), out;
      }
      var s := sessions[id].(version := sessions[id].version + 1, timestamp := now);
      sessions := sessions[id := s];
      if id in mergeFns {
        match mergeFns[id](s.data, data)
        case Ok(merged) => sessions := sessions[id := s.(data := merged)];
        case Err(e) => return Err(e), out;
      } else {
        sessions := sessions[id := s.(data := data)];
      }
      var ds := Recipients({});
      assert peers - {} == peers;
      var entry := Gossip.Entry(Gossip.Stamp(s.timestamp, s.version), data);
      r, out := Ok(()), Copies(nodeId, ds, entry);
      CopiesFanOut(nodeId, ds, peers, entry);
      BareFanOut(out, nodeId, peers, entry);
    }

    /** The nodes that advertise a subscription matching the topic. */
    method Subscribers(matches: string -> bool) returns (subs: set<NodeId>)
      requires Valid()
      ensures forall n :: n in subs <==>
        && n in graph.mesh.metadata
        && exists pattern :: "sub:" + pattern in graph.mesh.metadata[n].capabilities && matches(pattern)
    {
      subs := {};
      var todo := graph.nodeMetadata.Keys;
      while todo != {}
        invariant todo <= graph.nodeMetadata.Keys
        invariant forall n :: n in subs <==>
          n in graph.nodeMetadata && n !in todo && Subscribed(graph.nodeMetadata[n], matches)
      {
        var n :| n in todo;
        todo := todo - {n};
        SubscribedByKey(graph.nodeMetadata[n], matches);
        if exists key :: key in graph.nodeMetadata[n].capabilities && "sub:" <= key && matches(key[4..]) {
          subs := subs + {n};
        }
      }
    }

    /** The node advertises a pattern that the topic matches. */
    static ghost predicate Subscribed(d: NodeDescriptor, matches: string -> bool) {
      exists pattern :: "sub:" + pattern in d.capabilities && matches(pattern)
    }

    static lemma SubscribedByKey(d: NodeDescriptor, matches: string -> bool)
      ensures Subscribed(d, matches) <==> exists key :: key in d.capabilities && "sub:" <= key && matches(key[4..])
    {
      if key :| key in d.capabilities && "sub:" <= key && matches(key[4..]) {
        assert key == "sub:" + key[4..];
      }
      if pattern :| "sub:" + pattern in d.capabilities && matches(pattern) {
        var key := "sub:" + pattern;
        assert "sub:" <= key && key[4..] == pattern;
      }
    }

    /** Publishing computes the table for the matching subscribers and sends to the first connected hops. */
    method Publish(matches: string -> bool, connected: set<NodeId>)
      returns (r: Forwarding.Outcome<NodeId>, hops: set<NodeId>, ghost subs: set<NodeId>,
          ghost routes: Forwarding.Routes<NodeId>)
      requires Valid()
      ensures forall n :: n in subs <==>
        && n in graph.mesh.metadata
        && exists pattern :: "sub:" + pattern in graph.mesh.metadata[n].capabilities && matches(pattern)
      ensures r.Computed? && subs != {} && nodeId in graph.mesh.nodes ==>
        Forwarding.IsForwardingTable(Costs(graph.mesh), nodeId, subs, routes, r.table)
      ensures subs != {} && nodeId in graph.mesh.nodes ==>
        (r.Overflow? <==> exists p, v :: Forwarding.Overflows(Costs(graph.mesh), nodeId, p, v))
      ensures r.Computed? ==> hops == Multicast.Targets(r.table, set y | y in connected :: (nodeId, y), nodeId)
      ensures forall y :: y in hops <==> r.Computed? && nodeId in r.table && y in r.table[nodeId] && y in connected
      ensures subs == {} || nodeId !in graph.mesh.nodes ==> r == Forwarding.Computed(map[])
    {
      hops := {};
      var found := Subscribers(matches);
      subs := found;
      r, routes := graph.ComputeForwardingTable(nodeId, found);
      match r
      case Overflow =>
      case Computed(table) =>
        hops := NextHops(table, connected);
    }

    /** Stateless forwarding: the node looks itself up in the header's table and sends to its connected targets. */
    method NextHops(table: Forwarding.Table<NodeId>, connected: set<NodeId>) returns (hops: set<NodeId>)
      ensures hops == Multicast.Targets(table, set y | y in connected :: (nodeId, y), nodeId)
      ensures forall y :: y in hops <==> nodeId in table && y in table[nodeId] && y in connected
    {
      hops := {};
      if nodeId in table {
        var todo := table[nodeId];
        while todo != {}
          invariant todo <= table[nodeId]
          invariant hops == set y | y in table[nodeId] && y !in todo && y in connected
        {
          var next :| next in todo;
          todo := todo - {next};
          if next in connected { hops := hops + {next}; }
        }
      }
    }
  }
}
