/**
 * The keep-alive pool: a manager places streams on workers through bounded channels; an underloaded worker hands its
 * streams back and exits. Every await on a full channel is a state of its own, so steps interleave freely.
 */
module KeepAlive {
  type Stream = nat
  const CAPACITY := 100

  datatype Phase =
    | Running
    | HandingOff(streams: seq<Stream>)  // waiting for room in the pool's inbox
    | Exiting                           // handed off, but its queue still accepts streams
    | Gone
  datatype Worker = Worker(held: seq<Stream>, queue: seq<Stream>, phase: Phase)

  datatype Command = AddStream(stream: Stream) | Underloaded(worker: nat, streams: seq<Stream>)

  datatype Manager =
    | Idle
    | Placing(pending: seq<Stream>)
    | Sending(worker: nat, stream: Stream, pending: seq<Stream>)  // waiting for room in the worker's queue

  /** All workers ever started, by id; `handles` are the ids the manager still lists, oldest first. */
  datatype Pool = Pool(
    limit: nat, inbox: seq<Command>, manager: Manager, handles: seq<nat>, nextId: nat, workers: map<nat, Worker>,
    closed: multiset<Stream>, dropped: multiset<Stream>)

  datatype Step =
    | Submit(stream: Stream)
    | Take
    | Place
    | Send
    | Receive(w: nat)
    | Tick(w: nat, dead: set<Stream>)
    | Post(w: nat)
    | Exit(w: nat)

  function Fresh(limit: nat): Pool {
    Pool(limit, [], Idle, [], 0, map[], multiset{}, multiset{})
  }

  /** The count that the manager reads: what the worker holds. */
  predicate HasRoom(p: Pool, w: nat) {
    w in p.workers && (p.limit == 0 || |p.workers[w].held| < p.limit)
  }

  /** The position of the first listed worker with room, from position i on; the list's length if there is none. */
  function FirstWithRoom(p: Pool, i: nat): (r: nat)
    requires i <= |p.handles|
    ensures i <= r <= |p.handles| && (r < |p.handles| ==> HasRoom(p, p.handles[r]))
    ensures forall j :: i <= j < r ==> !HasRoom(p, p.handles[j])
    decreases |p.handles| - i
  {
    if i == |p.handles| || HasRoom(p, p.handles[i]) then i else FirstWithRoom(p, i + 1)
  }

  function Drop(handles: seq<nat>, w: nat): seq<nat> {
    if handles == [] then [] else (if handles[0] == w then [] else [handles[0]]) + Drop(handles[1..], w)
  }

  /** The streams that stay after a round of pings in which the `dead` ones fail. */
  function Alive(streams: seq<Stream>, dead: set<Stream>): seq<Stream> {
    if streams == [] then [] else
      var n := |streams| - 1;
      Alive(streams[..n], dead) + if streams[n] in dead then [] else [streams[n]]
  }

  function Lost(streams: seq<Stream>, dead: set<Stream>): multiset<Stream> {
    if streams == [] then multiset{} else
      var n := |streams| - 1;
      Lost(streams[..n], dead) + if streams[n] in dead then multiset{streams[n]} else multiset{}
  }

  function Spawn(p: Pool, s: Stream, pending: seq<Stream>): Pool {
    p.(manager := Placing(pending), handles := p.handles + [p.nextId], nextId := p.nextId + 1,
       workers := p.workers[p.nextId := Worker([s], [], Running)])
  }

  predicate IsUnderloaded(limit: nat, held: nat) {
    limit > 0 && held > 0 && held < limit / 2
  }

  function Ticked(limit: nat, k: Worker, dead: set<Stream>): Worker {
    var held := Alive(k.held, dead);
    if IsUnderloaded(limit, |held|) then Worker([], k.queue, HandingOff(held)) else k.(held := held)
  }

  predicate Enabled(p: Pool, a: Step) {
    match a
    case Submit(_) => |p.inbox| < CAPACITY
    case Take => p.manager.Idle? && p.inbox != []
    case Place => p.manager.Placing?
    case Send => p.manager.Sending? && p.manager.worker in p.workers &&
      (p.workers[p.manager.worker].phase.Gone? || |p.workers[p.manager.worker].queue| < CAPACITY)
    case Receive(w) => w in p.workers && p.workers[w].phase.Running? && p.workers[w].queue != []
    case Tick(w, _) => w in p.workers && p.workers[w].phase.Running?
    case Post(w) => w in p.workers && p.workers[w].phase.HandingOff? && |p.inbox| < CAPACITY
    case Exit(w) => w in p.workers && p.workers[w].phase.Exiting?
  }

  function Apply(p: Pool, a: Step): Pool
    requires Enabled(p, a)
  {
    match a
    case Submit(s) => p.(inbox := p.inbox + [AddStream(s)])
    case Take => (
      match p.inbox[0]
      case AddStream(s) => p.(inbox := p.inbox[1..], manager := Placing([s]))
      case Underloaded(w, ss) => p.(inbox := p.inbox[1..], manager := Placing(ss), handles := Drop(p.handles, w)))
    case Place => (
      if p.manager.pending == [] then p.(manager := Idle) else
        var s, rest := p.manager.pending[0], p.manager.pending[1..];
        var i := FirstWithRoom(p, 0);
        if i == |p.handles| then Spawn(p, s, rest) else p.(manager := Sending(p.handles[i], s, rest)))
    case Send => (
      var w, s, rest := p.manager.worker, p.manager.stream, p.manager.pending;
      if p.workers[w].phase.Gone? then Spawn(p, s, rest) else
        p.(manager := Placing(rest), workers := p.workers[w := p.workers[w].(queue := p.workers[w].queue + [s])]))
    case Receive(w) =>
      var k := p.workers[w];
      p.(workers := p.workers[w := k.(held := k.held + [k.queue[0]], queue := k.queue[1..])])
    case Tick(w, dead) =>
      var k := p.workers[w];
      p.(workers := p.workers[w := Ticked(p.limit, k, dead)], closed := p.closed + Lost(k.held, dead))
    case Post(w) =>
      var k := p.workers[w];
      p.(inbox := p.inbox + [Underloaded(w, k.phase.streams)], workers := p.workers[w := k.(phase := Exiting)])
    case Exit(w) =>
      p.(workers := p.workers[w := Worker([], [], Gone)], dropped := p.dropped + multiset(p.workers[w].queue))
  }

  ghost predicate IsRun(limit: nat, states: seq<Pool>, steps: seq<Step>) {
    && |states| == |steps| + 1 && states[0] == Fresh(limit)
    && forall i :: 0 <= i < |steps| ==> Enabled(states[i], steps[i]) && states[i + 1] == Apply(states[i], steps[i])
  }

  ghost function Final(states: seq<Pool>): Pool
    requires |states| > 0
  {
    states[|states| - 1]
  }

  lemma SweepStep(all: seq<Stream>, done: nat, dead: set<Stream>)
    requires done < |all|
    ensures Alive(all[..done + 1], dead) == Alive(all[..done], dead) + if all[done] in dead then [] else [all[done]]
    ensures Lost(all[..done + 1], dead) == Lost(all[..done], dead) + if all[done] in dead then multiset{all[done]}
        else multiset{}
  {
    assert all[..done + 1][..done] == all[..done];
  }

  /**
   * A worker's own state. The count that the manager reads is stored only when the list changes, and is the length of
   * the list whenever the worker waits for its next event.
   */
  class KeepAliveWorker {
    const limit: nat
    var streams: seq<Stream>
    var localCount: nat
    var count: nat

    predicate Valid()
      reads this
    {
      localCount == |streams| && count == |streams|
    }

    constructor (limit: nat, s: Stream)
      ensures Valid() && this.limit == limit && streams == [s]
    {
      this.limit, streams, localCount, count := limit, [s], 1, 1;
    }

    method UpdateCounts()
      modifies this`localCount, this`count
      ensures Valid()
    {
      localCount := |streams|;
      count := localCount;
    }

    method Receive(s: Stream)
      modifies this
      ensures Valid() && streams == old(streams) + [s]
    {
      streams := streams + [s];
      UpdateCounts();
    }

    /** The ping round: an index loop that removes the failed streams in place. */
    method Sweep(dead: set<Stream>) returns (changed: bool, ghost removed: multiset<Stream>)
      modifies this`streams
      ensures streams == Alive(old(streams), dead) && removed == Lost(old(streams), dead)
      ensures !changed ==> streams == old(streams)
    {
      changed, removed := false, multiset{};
      ghost var all, done := streams, 0;
      var i := 0;
      while i < |streams|
        invariant 0 <= i <= |streams| && 0 <= done <= |all|
        invariant streams[i..] == all[done..] && (!changed ==> streams == all)
        invariant streams[..i] == Alive(all[..done], dead) && removed == Lost(all[..done], dead)
        decreases |streams| - i
      {
        SweepStep(all, done, dead);
        assert streams[i] == streams[i..][0] == all[done];
        hide Alive, Lost;
        if streams[i] in dead {
          removed := removed + multiset{streams[i]};
          ghost var tail := streams[i + 1..];
          streams := streams[..i] + streams[i + 1..];
          changed := true;
          assert streams[i..] == tail;
        } else {
          assert streams[..i + 1] == streams[..i] + [streams[i]];
          i := i + 1;
        }
        done := done + 1;
      }
      assert all[..done] == all && streams[..i] == streams;
    }

    /** A tick is the pool's Tick step seen from the worker: what it returns is what it hands off. */
    method Tick(dead: set<Stream>) returns (phase: Phase, ghost removed: multiset<Stream>)
      requires Valid()
      modifies this
      ensures Valid() && removed == Lost(old(streams), dead)
      ensures forall queue :: Worker(streams, queue, phase) == Ticked(limit, Worker(old(streams), queue, Running), dead)
      ensures var kept := Alive(old(streams), dead);
        if 0 < |kept| && 2 * |kept| + 2 <= limit then phase == HandingOff(kept) && streams == []
        else phase == Running && streams == kept
    {
      var changed;
      changed, removed := Sweep(dead);
      if changed {
        UpdateCounts();
      }
      phase := Running;
      if limit > 0 && localCount > 0 && localCount < limit / 2 {
        phase := HandingOff(streams);
        streams := [];
        UpdateCounts();
      }
    }
  }

  lemma AliveStep(streams: seq<Stream>, dead: set<Stream>)
    requires streams != []
    ensures var n := |streams| - 1;
      Alive(streams, dead) == Alive(streams[..n], dead) + if streams[n] in dead then [] else [streams[n]]
  { }

  /** The survivors of a ping round: every stream that is not dead, as often as it was there. */
  lemma {:induction false} AliveIs(streams: seq<Stream>, dead: set<Stream>, x: Stream)
    ensures multiset(Alive(streams, dead))[x] == if x in dead then 0 else multiset(streams)[x]
  {
    if streams != [] {
      var n := |streams| - 1;
      AliveStep(streams, dead);
      hide Alive;
      AliveIs(streams[..n], dead, x);
      assert streams == streams[..n] + [streams[n]];
      assert multiset(streams) == multiset(streams[..n]) + multiset{streams[n]};
      if streams[n] in dead {
        assert Alive(streams, dead) == Alive(streams[..n], dead);
      } else {
        assert multiset(Alive(streams, dead)) == multiset(Alive(streams[..n], dead)) + multiset{streams[n]};
      }
    } else {
      assert Alive(streams, dead) == [];
    }
  }

  /** A ping round keeps the order: it works on any split of the list part by part, and leaves live streams alone. */
  lemma {:induction false} AliveInOrder(a: seq<Stream>, b: seq<Stream>, dead: set<Stream>)
    ensures Alive(a + b, dead) == Alive(a, dead) + Alive(b, dead)
    decreases |b|
  {
    if b == [] {
      assert a + b == a;
    } else {
      var init, last := b[..|b| - 1], b[|b| - 1];
      assert (a + b)[..|a + b| - 1] == a + init && (a + b)[|a + b| - 1] == last;
      AliveStep(a + b, dead);
      AliveStep(b, dead);
      AliveInOrder(a, init, dead);
      hide Alive;
      var tail := if last in dead then [] else [last];
      assert Alive(a, dead) + Alive(init, dead) + tail == Alive(a, dead) + (Alive(init, dead) + tail);
    }
  }

  lemma {:induction false} AliveKeepsLive(a: seq<Stream>, dead: set<Stream>)
    requires forall s :: s in a ==> s !in dead
    ensures Alive(a, dead) == a
  {
    if a != [] {
      AliveKeepsLive(a[..|a| - 1], dead);
      assert a == a[..|a| - 1] + [a[|a| - 1]];
    }
  }

  // ─── Placement ───

  /**
   * Placing a stream starts a worker exactly when no worker is listed, or there is a limit and every listed worker
   * holds that many; otherwise it goes to the first listed worker that holds fewer, or to the first one if there is no
   * limit.
   */
  lemma PlacesWhere(p: Pool)
    requires Sound(p) && p.manager.Placing? && p.manager.pending != []
    ensures var s, rest := p.manager.pending[0], p.manager.pending[1..];
      if p.handles == [] || (p.limit > 0 && forall h :: h in p.handles ==> |p.workers[h].held| >= p.limit) then
        Apply(p, Place) == p.(manager := Placing(rest), handles := p.handles + [p.nextId], nextId := p.nextId + 1,
                              workers := p.workers[p.nextId := Worker([s], [], Running)])
      else exists i :: 0 <= i < |p.handles| && Apply(p, Place) == p.(manager := Sending(p.handles[i], s, rest))
             && (p.limit == 0 || |p.workers[p.handles[i]].held| < p.limit)
             && forall j :: 0 <= j < i ==> p.limit > 0 && |p.workers[p.handles[j]].held| >= p.limit
  {
    var i := FirstWithRoom(p, 0);
    if i < |p.handles| {
      assert p.handles[i] in p.handles;
      assert Apply(p, Place) == p.(manager := Sending(p.handles[i], p.manager.pending[0], p.manager.pending[1..]));
    } else {
      forall h | h in p.handles ensures p.limit > 0 && |p.workers[h].held| >= p.limit {
        var j :| 0 <= j < |p.handles| && p.handles[j] == h;
        assert !HasRoom(p, p.handles[j]);
      }
    }
  }

  /** Commands are taken in order; the worker of an underload report is off the list before its streams are placed. */
  lemma TakesNext(p: Pool)
    requires p.manager.Idle? && p.inbox != []
    ensures var p' := Apply(p, Take);
      && p'.inbox == p.inbox[1..] && p'.workers == p.workers && p'.nextId == p.nextId
      && match p.inbox[0]
         case AddStream(s) => p'.manager == Placing([s]) && p'.handles == p.handles
         case Underloaded(w, ss) =>
           p'.manager == Placing(ss) && forall h :: h in p'.handles <==> h in p.handles && h != w
  {
    if p.inbox[0].Underloaded? { DropKeeps(p.handles, p.inbox[0].worker); }
  }

  /** With no limit there is at most one worker: it stays, and it gets everything. */
  ghost predicate OneWorker(p: Pool) {
    && p.limit == 0
    && (forall c :: c in p.inbox ==> c.AddStream?)
    && (if p.nextId == 0 then p.handles == [] && p.workers == map[] && !p.manager.Sending?
        else p.nextId == 1 && p.handles == [0] && p.workers.Keys == {0} && p.workers[0].phase.Running?
             && (p.manager.Sending? ==> p.manager.worker == 0))
  }

  lemma OneWorkerKept(p: Pool, a: Step)
    requires OneWorker(p) && Enabled(p, a)
    ensures OneWorker(Apply(p, a))
  {
    if a.Place? && p.manager.pending != [] && p.nextId == 1 {
      assert HasRoom(p, p.handles[0]);
      assert FirstWithRoom(p, 0) == 0;
    }
  }

  lemma {:induction false} UnlimitedPoolsUseOneWorker(states: seq<Pool>, steps: seq<Step>)
    requires IsRun(0, states, steps)
    ensures OneWorker(Final(states)) && Final(states).nextId <= 1
    decreases |steps|
  {
    if |steps| > 0 {
      var n := |steps| - 1;
      UnlimitedPoolsUseOneWorker(states[..n + 1], steps[..n]);
      OneWorkerKept(states[n], steps[n]);
      hide OneWorker;
    }
  }

  // ─── The ownership ledger ───

  function Times(ss: seq<Stream>, x: Stream): nat {
    multiset(ss)[x]
  }

  function One(s: Stream, x: Stream): nat {
    if s == x then 1 else 0
  }

  function InMessage(c: Command, x: Stream): nat {
    match c case AddStream(s) => One(s, x) case Underloaded(_, ss) => Times(ss, x)
  }

  function InInbox(cs: seq<Command>, x: Stream): nat {
    if cs == [] then 0 else InInbox(cs[..|cs| - 1], x) + InMessage(cs[|cs| - 1], x)
  }

  function AtManager(m: Manager, x: Stream): nat {
    match m
    case Idle => 0
    case Placing(ss) => Times(ss, x)
    case Sending(_, s, ss) => One(s, x) + Times(ss, x)
  }

  function AtWorker(k: Worker, x: Stream): nat {
    Times(k.held, x) + Times(k.queue, x) + if k.phase.HandingOff? then Times(k.phase.streams, x) else 0
  }

  /** The workers with an id below n. */
  function AtWorkers(ks: map<nat, Worker>, n: nat, x: Stream): nat {
    if n == 0 then 0 else AtWorkers(ks, n - 1, x) + if n - 1 in ks then AtWorker(ks[n - 1], x) else 0
  }

  /** How often x occurs in all the places a stream can be. */
  function Ledger(p: Pool, x: Stream): nat {
    InInbox(p.inbox, x) + AtManager(p.manager, x) + AtWorkers(p.workers, p.nextId, x) + p.closed[x] + p.dropped[x]
  }

  ghost function Submissions(steps: seq<Step>, x: Stream): nat {
    if steps == [] then 0 else
      Submissions(steps[..|steps| - 1], x) + if steps[|steps| - 1] == Submit(x) then 1 else 0
  }

  lemma TimesConcat(a: seq<Stream>, b: seq<Stream>, x: Stream)
    ensures Times(a + b, x) == Times(a, x) + Times(b, x)
  {
    assert multiset(a + b) == multiset(a) + multiset(b);
  }

  lemma TimesHead(s: seq<Stream>, x: Stream)
    requires s != []
    ensures Times(s, x) == One(s[0], x) + Times(s[1..], x)
  {
    assert s == [s[0]] + s[1..];
    TimesConcat([s[0]], s[1..], x);
  }

  lemma {:induction false} InboxHead(cs: seq<Command>, x: Stream)
    requires cs != []
    ensures InInbox(cs, x) == InMessage(cs[0], x) + InInbox(cs[1..], x)
    decreases |cs|
  {
    if |cs| > 1 {
      InboxHead(cs[..|cs| - 1], x);
      assert cs[..|cs| - 1][1..] == cs[1..][..|cs| - 2];
    }
  }

  lemma InboxTail(cs: seq<Command>, c: Command, x: Stream)
    ensures InInbox(cs + [c], x) == InInbox(cs, x) + InMessage(c, x)
  {
    assert (cs + [c])[..|cs|] == cs;
  }

  lemma {:induction false} WorkerAbove(ks: map<nat, Worker>, n: nat, w: nat, k: Worker, x: Stream)
    requires n <= w
    ensures AtWorkers(ks[w := k], n, x) == AtWorkers(ks, n, x)
  {
    if n > 0 { WorkerAbove(ks, n - 1, w, k, x); }
  }

  lemma {:induction false} WorkerUpdate(ks: map<nat, Worker>, n: nat, w: nat, k: Worker, x: Stream)
    requires w < n && w in ks
    ensures AtWorkers(ks[w := k], n, x) == AtWorkers(ks, n, x) - AtWorker(ks[w], x) + AtWorker(k, x)
    decreases n
  {
    hide AtWorker;
    if w < n - 1 { WorkerUpdate(ks, n - 1, w, k, x); } else { WorkerAbove(ks, n - 1, w, k, x); }
  }

  lemma {:induction false} SweepSplits(streams: seq<Stream>, dead: set<Stream>, x: Stream)
    ensures Times(Alive(streams, dead), x) + Lost(streams, dead)[x] == Times(streams, x)
  {
    if streams != [] {
      var n := |streams| - 1;
      var a := Alive(streams[..n], dead);
      TimesHead([streams[n]], x);
      assert Times([], x) == 0;
      hide Times;
      SweepSplits(streams[..n], dead, x);
      assert streams == streams[..n] + [streams[n]];
      TimesConcat(streams[..n], [streams[n]], x);
      TimesConcat(a, [streams[n]], x);
      TimesConcat(a, [], x);
    }
  }

  lemma SpawnBalances(p: Pool, s: Stream, rest: seq<Stream>, x: Stream)
    ensures Ledger(Spawn(p, s, rest), x) == Ledger(p, x) - AtManager(p.manager, x) + One(s, x) + Times(rest, x)
  {
    WorkerAbove(p.workers, p.nextId, p.nextId, Worker([s], [], Running), x);
    TimesHead([s], x);
  }

  lemma SendBalances(p: Pool, x: Stream)
    requires Sound(p) && Enabled(p, Send)
    ensures Ledger(Apply(p, Send), x) == Ledger(p, x)
  {
    var w, s := p.manager.worker, p.manager.stream;
    var k := p.workers[w];
    if k.phase.Gone? {
      SpawnBalances(p, s, p.manager.pending, x);
    } else {
      WorkerUpdate(p.workers, p.nextId, w, k.(queue := k.queue + [s]), x);
      TimesConcat(k.queue, [s], x);
      TimesHead([s], x);
    }
  }

  lemma ReceiveBalances(p: Pool, w: nat, x: Stream)
    requires Sound(p) && Enabled(p, Receive(w))
    ensures Ledger(Apply(p, Receive(w)), x) == Ledger(p, x)
  {
    var k := p.workers[w];
    WorkerUpdate(p.workers, p.nextId, w, k.(held := k.held + [k.queue[0]], queue := k.queue[1..]), x);
    TimesHead(k.queue, x);
    TimesConcat(k.held, [k.queue[0]], x);
    TimesHead([k.queue[0]], x);
  }

  lemma TickBalances(p: Pool, w: nat, dead: set<Stream>, x: Stream)
    requires Sound(p) && Enabled(p, Tick(w, dead))
    ensures Ledger(Apply(p, Tick(w, dead)), x) == Ledger(p, x)
  {
    var k := p.workers[w];
    SweepSplits(k.held, dead, x);
    WorkerUpdate(p.workers, p.nextId, w, Apply(p, Tick(w, dead)).workers[w], x);
    assert Times([], x) == 0;
  }

  lemma PostBalances(p: Pool, w: nat, x: Stream)
    requires Sound(p) && Enabled(p, Post(w))
    ensures Ledger(Apply(p, Post(w)), x) == Ledger(p, x)
  {
    var k := p.workers[w];
    InboxTail(p.inbox, Underloaded(w, k.phase.streams), x);
    WorkerUpdate(p.workers, p.nextId, w, k.(phase := Exiting), x);
  }

  lemma ExitBalances(p: Pool, w: nat, x: Stream)
    requires Sound(p) && Enabled(p, Exit(w))
    ensures Ledger(Apply(p, Exit(w)), x) == Ledger(p, x)
  {
    WorkerUpdate(p.workers, p.nextId, w, Worker([], [], Gone), x);
    assert Times([], x) == 0;
  }

  lemma PlaceBalances(p: Pool, x: Stream)
    requires Enabled(p, Place)
    ensures Ledger(Apply(p, Place), x) == Ledger(p, x)
  {
    if p.manager.pending != [] {
      TimesHead(p.manager.pending, x);
      SpawnBalances(p, p.manager.pending[0], p.manager.pending[1..], x);
    }
  }

  /** Every step but Submit moves streams between places; Submit adds one. */
  lemma StepBalances(p: Pool, a: Step, x: Stream)
    requires Sound(p) && Enabled(p, a)
    ensures Ledger(Apply(p, a), x) == Ledger(p, x) + if a == Submit(x) then 1 else 0
  {
    match a
    case Submit(s) => InboxTail(p.inbox, AddStream(s), x);
    case Take => InboxHead(p.inbox, x);
    case Place => PlaceBalances(p, x);
    case Send => SendBalances(p, x);
    case Receive(w) => ReceiveBalances(p, w, x);
    case Tick(w, dead) => TickBalances(p, w, dead, x);
    case Post(w) => PostBalances(p, w, x);
    case Exit(w) => ExitBalances(p, w, x);
  }

  /** In every run each stream is in as many places as it was submitted: nothing is lost or doubled unaccounted. */
  lemma {:induction false} LedgerBalances(limit: nat, states: seq<Pool>, steps: seq<Step>, x: Stream)
    requires IsRun(limit, states, steps)
    ensures Ledger(Final(states), x) == Submissions(steps, x)
    decreases |steps|
  {
    if |steps| > 0 {
      var n := |steps| - 1;
      LedgerBalances(limit, states[..n + 1], steps[..n], x);
      LoadIsBounded(limit, states[..n + 1], steps[..n]);
      StepBalances(states[n], steps[n], x);
      hide Ledger, Apply, Enabled;
    }
  }

  // ─── Handles, ids and load ───

  /** Load of a worker: what it holds, hands off or has queued, and a stream that the manager is about to queue. */
  function Load(p: Pool, w: nat): nat
    requires w in p.workers
  {
    var k := p.workers[w];
    |k.held| + |k.queue| + (if k.phase.HandingOff? then |k.phase.streams| else 0) +
    if p.manager.Sending? && p.manager.worker == w then 1 else 0
  }

  ghost predicate Sound(p: Pool) {
    && |p.inbox| <= CAPACITY
    && (forall h :: h in p.handles ==> h in p.workers)
    && (forall w :: w in p.workers ==> w < p.nextId)
    && (p.manager.Sending? ==> p.manager.worker in p.workers)
    && (forall w :: w in p.workers ==>
          && |p.workers[w].queue| <= CAPACITY
          && (p.limit > 0 ==> Load(p, w) <= p.limit + CAPACITY)
          && (!p.workers[w].phase.Running? ==> p.workers[w].held == [])
          && (p.workers[w].phase.HandingOff? ==> IsUnderloaded(p.limit, |p.workers[w].phase.streams|))
          && (p.workers[w].phase.Exiting? ==> p.limit >= 4))
  }

  lemma {:induction false} DropKeeps(handles: seq<nat>, w: nat)
    ensures forall h :: h in Drop(handles, w) <==> h in handles && h != w
  {
    if handles != [] { DropKeeps(handles[1..], w); }
  }

  /** Taking a worker off the list keeps the order of the others. */
  lemma {:induction false} DropInOrder(a: seq<nat>, b: seq<nat>, w: nat)
    ensures Drop(a + b, w) == Drop(a, w) + Drop(b, w)
  {
    if a == [] {
      assert a + b == b;
    } else {
      var head := if a[0] == w then [] else [a[0]];
      assert (a + b)[1..] == a[1..] + b && (a + b)[0] == a[0];
      assert Drop(a + b, w) == head + Drop(a[1..] + b, w) && Drop(a, w) == head + Drop(a[1..], w);
      DropInOrder(a[1..], b, w);
      hide Drop;
      assert head + (Drop(a[1..], w) + Drop(b, w)) == head + Drop(a[1..], w) + Drop(b, w);
    }
  }

  lemma {:induction false} DropOther(a: seq<nat>, w: nat)
    requires w !in a
    ensures Drop(a, w) == a
  {
    if a != [] {
      DropOther(a[1..], w);
      assert a == [a[0]] + a[1..];
    }
  }

  lemma {:induction false} AliveShrinks(streams: seq<Stream>, dead: set<Stream>)
    ensures |Alive(streams, dead)| <= |streams|
  {
    if streams != [] { AliveShrinks(streams[..|streams| - 1], dead); }
  }

  lemma CommandKeepsSound(p: Pool, a: Step)
    requires Sound(p) && Enabled(p, a) && (a.Submit? || a.Take?)
    ensures Sound(Apply(p, a))
  {
    match a
    case Submit(_) =>
    case Take => if p.inbox[0].Underloaded? { DropKeeps(p.handles, p.inbox[0].worker); }
  }

  lemma SpawnKeepsSound(p: Pool, s: Stream, rest: seq<Stream>)
    requires Sound(p)
    ensures Sound(Spawn(p, s, rest))
  { }

  lemma PlacingKeepsSound(p: Pool, a: Step)
    requires Sound(p) && Enabled(p, a) && (a.Place? || a.Send?)
    ensures Sound(Apply(p, a))
  {
    if a.Place? && p.manager.pending != [] {
      SpawnKeepsSound(p, p.manager.pending[0], p.manager.pending[1..]);
    } else if a.Send? {
      SpawnKeepsSound(p, p.manager.stream, p.manager.pending);
    }
    hide Spawn;
  }

  lemma WorkerKeepsSound(p: Pool, a: Step)
    requires Sound(p) && Enabled(p, a) && !(a.Submit? || a.Take? || a.Place? || a.Send?)
    ensures Sound(Apply(p, a))
  {
    match a
    case Receive(_) =>
    case Tick(w, dead) => AliveShrinks(p.workers[w].held, dead);
    case Post(_) =>
    case Exit(_) =>
  }

  lemma SoundKept(p: Pool, a: Step)
    requires Sound(p) && Enabled(p, a)
    ensures Sound(Apply(p, a))
  {
    hide Sound, Enabled, Apply;
    if a.Submit? || a.Take? {
      CommandKeepsSound(p, a);
    } else if a.Place? || a.Send? {
      PlacingKeepsSound(p, a);
    } else {
      WorkerKeepsSound(p, a);
    }
  }

  /**
   * Load bound: a worker never has more than limit + 100 streams held, handed off, queued and under way to it, although
   * the manager reads a count that lags behind its own sends.
   */
  lemma {:induction false} LoadIsBounded(limit: nat, states: seq<Pool>, steps: seq<Step>)
    requires IsRun(limit, states, steps)
    ensures Final(states).limit == limit && Sound(Final(states))
    ensures limit > 0 ==> forall w :: w in Final(states).workers ==> Load(Final(states), w) <= limit + 100
    decreases |steps|
  {
    if |steps| > 0 {
      var n := |steps| - 1;
      LoadIsBounded(limit, states[..n + 1], steps[..n]);
      SoundKept(states[n], steps[n]);
      hide Sound;
    }
  }

  /** No id is given out twice: a worker that has exited stays as it is under its id, whatever is spawned later. */
  lemma {:induction false} IdsAreNotReused(limit: nat, states: seq<Pool>, steps: seq<Step>, i: nat, w: nat)
    requires IsRun(limit, states, steps) && i < |states| && w in states[i].workers && states[i].workers[w].phase.Gone?
    ensures w in Final(states).workers && Final(states).workers[w] == states[i].workers[w]
    decreases |states| - i
  {
    if i < |steps| {
      assert Enabled(states[i], steps[i]) && states[i + 1] == Apply(states[i], steps[i]);
      LoadIsBounded(limit, states[..i + 1], steps[..i]);
      GoneStays(states[i], steps[i], w);
      IdsAreNotReused(limit, states, steps, i + 1, w);
    }
  }

  lemma GoneStays(p: Pool, a: Step, w: nat)
    requires Sound(p) && Enabled(p, a) && w in p.workers && p.workers[w].phase.Gone?
    ensures w in Apply(p, a).workers && Apply(p, a).workers[w] == p.workers[w]
  { }

  lemma {:induction false} SmallLimitsNeverDrop(limit: nat, states: seq<Pool>, steps: seq<Step>)
    requires IsRun(limit, states, steps) && limit < 4
    ensures Final(states).dropped == multiset{}
    decreases |steps|
  {
    if |steps| > 0 {
      var n := |steps| - 1;
      SmallLimitsNeverDrop(limit, states[..n + 1], steps[..n]);
      LoadIsBounded(limit, states[..n + 1], steps[..n]);
      NoDropBelowFour(states[n], steps[n]);
    }
  }

  lemma NoDropBelowFour(p: Pool, a: Step)
    requires Sound(p) && Enabled(p, a) && p.limit < 4
    ensures Apply(p, a).dropped == p.dropped
  { }

  // ─── Reachable trouble ───

  ghost predicate Reachable(limit: nat, p: Pool) {
    exists states, steps :: IsRun(limit, states, steps) && Final(states) == p
  }

  lemma ReachFresh(limit: nat)
    ensures Reachable(limit, Fresh(limit))
  {
    assert IsRun(limit, [Fresh(limit)], []) && Final([Fresh(limit)]) == Fresh(limit);
  }

  /** One more step from a reachable state, with the state it leads to. */
  lemma Reach(limit: nat, p: Pool, a: Step, q: Pool)
    requires Reachable(limit, p) && Enabled(p, a) && Same(Apply(p, a), q)
    ensures Reachable(limit, q)
  {
    var states, steps :| IsRun(limit, states, steps) && Final(states) == p;
    assert Apply(p, a) == q;
    hide Enabled, Apply;
    assert IsRun(limit, states + [q], steps + [a]) && Final(states + [q]) == q;
  }

  predicate Same(p: Pool, q: Pool) {
    && p.limit == q.limit && p.inbox == q.inbox && p.manager == q.manager && p.handles == q.handles
    && p.nextId == q.nextId && p.workers == q.workers && p.closed == q.closed && p.dropped == q.dropped
  }

  function Queue(k: nat): seq<Stream> {
    seq(k, i => i + 1)
  }

  /** One worker, holding stream 0, with k more streams in its queue; `inbox` and `manager` as given. */
  function Lone(limit: nat, inbox: seq<Command>, manager: Manager, k: nat): Pool {
    Pool(limit, inbox, manager, [0], 1, map[0 := Worker([0], Queue(k), Running)], multiset{}, multiset{})
  }

  lemma LoneStarts(limit: nat)
    ensures Reachable(limit, Lone(limit, [], Idle, 0))
  {
    hide Reachable;
    ReachFresh(limit);
    var p1 := Fresh(limit).(inbox := [AddStream(0)]);
    var p2 := Fresh(limit).(manager := Placing([0]));
    Reach(limit, Fresh(limit), Submit(0), p1);
    Reach(limit, p1, Take, p2);
    assert Queue(0) == [] && p2.workers[0 := Worker([0], [], Running)] == map[0 := Worker([0], [], Running)];
    Reach(limit, p2, Place, Lone(limit, [], Placing([]), 0));
    Reach(limit, Lone(limit, [], Placing([]), 0), Place, Lone(limit, [], Idle, 0));
  }

  /** The manager takes the next stream and chooses the worker. */
  lemma LoneSending(limit: nat, k: nat)
    requires limit >= 4 && Reachable(limit, Lone(limit, [], Idle, k))
    ensures Reachable(limit, Lone(limit, [], Sending(0, k + 1, []), k))
  {
    hide Reachable;
    Reach(limit, Lone(limit, [], Idle, k), Submit(k + 1), Lone(limit, [AddStream(k + 1)], Idle, k));
    Reach(limit, Lone(limit, [AddStream(k + 1)], Idle, k), Take, Lone(limit, [], Placing([k + 1]), k));
    Reach(limit, Lone(limit, [], Placing([k + 1]), k), Place, Lone(limit, [], Sending(0, k + 1, []), k));
  }

  lemma {:induction false} LoneFills(limit: nat, k: nat)
    requires limit >= 4 && k <= CAPACITY
    ensures Reachable(limit, Lone(limit, [], Idle, k))
    decreases k
  {
    hide Reachable;
    if k == 0 {
      LoneStarts(limit);
    } else {
      LoneFills(limit, k - 1);
      LoneSending(limit, k - 1);
      assert Queue(k - 1) + [k] == Queue(k);
      Reach(limit, Lone(limit, [], Sending(0, k, []), k - 1), Send, Lone(limit, [], Placing([]), k));
      Reach(limit, Lone(limit, [], Placing([]), k), Place, Lone(limit, [], Idle, k));
    }
  }

  /** The same worker once it has found itself underloaded. */
  function Leaving(limit: nat, inbox: seq<Command>, manager: Manager, k: nat): Pool {
    Pool(limit, inbox, manager, [0], 1, map[0 := Worker([], Queue(k), HandingOff([0]))], multiset{}, multiset{})
  }

  lemma LoneLeaves(limit: nat, manager: Manager, k: nat)
    requires limit >= 4 && Reachable(limit, Lone(limit, [], manager, k))
    ensures Reachable(limit, Leaving(limit, [], manager, k))
  {
    assert Alive([0], {}) == [0] && Lost([0], {}) == multiset{};
    Reach(limit, Lone(limit, [], manager, k), Tick(0, {}), Leaving(limit, [], manager, k));
  }

  /** From a limit of four on, a stream queued to a worker that is handing off is lost. */
  lemma LargeLimitsCanDrop(limit: nat)
    requires limit >= 4
    ensures exists p, x :: Reachable(limit, p) && x in p.dropped
  {
    LoneFills(limit, 1);
    LoneLeaves(limit, Idle, 1);
    hide Reachable;
    var p := Leaving(limit, [], Idle, 1);
    var q := p.(inbox := [Underloaded(0, [0])], workers := map[0 := Worker([], Queue(1), Exiting)]);
    Reach(limit, p, Post(0), q);
    var last := q.(workers := map[0 := Worker([], [], Gone)], dropped := multiset{1});
    assert multiset(Queue(1)) == multiset{1};
    Reach(limit, q, Exit(0), last);
    assert 1 in last.dropped;
  }

  /** The pool can lose a stream that is still being kept alive exactly when the limit is at least four. */
  lemma DropsIffLimitIsFour(limit: nat)
    ensures limit >= 4 <==> exists p, x :: Reachable(limit, p) && x in p.dropped
  {
    if limit >= 4 {
      LargeLimitsCanDrop(limit);
    } else {
      forall p, x | Reachable(limit, p) ensures x !in p.dropped {
        var states, steps :| IsRun(limit, states, steps) && Final(states) == p;
        SmallLimitsNeverDrop(limit, states, steps);
      }
    }
  }

  ghost predicate Deadlocked(p: Pool) {
    forall a :: !Enabled(p, a)
  }

  /** The manager waits for room in w's queue, and w waits for room in the manager's inbox. */
  predicate IsCircularWait(p: Pool) {
    && |p.inbox| == 100 && p.manager.Sending? && p.manager.worker in p.workers
    && var k := p.workers[p.manager.worker]; k.phase.HandingOff? && |k.queue| == 100
  }

  lemma DeadlockIsCircular(p: Pool)
    requires Sound(p) && Deadlocked(p)
    ensures IsCircularWait(p) && p.limit >= 4
  {
    assert !Enabled(p, Submit(0)) && !Enabled(p, Take) && !Enabled(p, Place) && !Enabled(p, Send);
    var w := p.manager.worker;
    assert !Enabled(p, Tick(w, {})) && !Enabled(p, Exit(w));
  }

  function Commands(k: nat): seq<Command> {
    seq(k, (i: nat) => AddStream(CAPACITY + 2 + i))
  }

  lemma {:induction false} Jams(limit: nat, k: nat)
    requires limit >= 4 && k <= CAPACITY
    ensures Reachable(limit, Leaving(limit, Commands(k), Sending(0, CAPACITY + 1, []), CAPACITY))
    decreases k
  {
    var manager := Sending(0, CAPACITY + 1, []);
    hide Reachable;
    if k == 0 {
      LoneFills(limit, CAPACITY);
      LoneSending(limit, CAPACITY);
      LoneLeaves(limit, manager, CAPACITY);
      assert Commands(0) == [];
    } else {
      Jams(limit, k - 1);
      assert Commands(k - 1) + [AddStream(CAPACITY + 1 + k)] == Commands(k);
      Reach(limit, Leaving(limit, Commands(k - 1), manager, CAPACITY), Submit(CAPACITY + 1 + k),
            Leaving(limit, Commands(k), manager, CAPACITY));
    }
  }

  /**
   * The pool can come to a standstill, with streams in it and no step possible at all, exactly when the limit is at
   * least four; and a standstill is always the circular wait of manager and worker.
   */
  lemma DeadlocksIffLimitIsFour(limit: nat)
    ensures limit >= 4 <==> exists p :: Reachable(limit, p) && Deadlocked(p)
    ensures forall p :: Reachable(limit, p) && Deadlocked(p) ==> IsCircularWait(p)
  {
    forall p | Reachable(limit, p) && Deadlocked(p) ensures IsCircularWait(p) && limit >= 4 {
      var states, steps :| IsRun(limit, states, steps) && Final(states) == p;
      LoadIsBounded(limit, states, steps);
      DeadlockIsCircular(p);
    }
    if limit >= 4 {
      Jams(limit, CAPACITY);
      var p := Leaving(limit, Commands(CAPACITY), Sending(0, CAPACITY + 1, []), CAPACITY);
      assert Deadlocked(p);
    }
  }
}
