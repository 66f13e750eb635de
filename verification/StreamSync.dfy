/** The central safety property of the live-log protocol: for every socket that broadcasts reach, the
    messages in flight turn what the streamer holds into exactly the gateway's active subscriptions. */
module StreamSync {
  import opened Options
  import opened ReferenceCounts
  import opened StreamProtocol
  import opened StreamWiring

  /** The container and the service subscriptions a streamer on `host` should hold: the gateway's keys,
      without the empty key, and for containers only those that exist on the node. */
  function Wanted(s: System, host: Host): (set<Key>, set<Key>) {
    (s.subs.Keys * PresentOn(s, host) - {""}, s.svcs.Keys - {""})
  }

  predicate SocketFits(s: System, j: SockId) {
    j < |s.sockets| && s.sockets[j].conn < |s.conns|
  }

  function HostOf(s: System, j: SockId): Host
    requires SocketFits(s, j)
  {
    s.conns[s.sockets[j].conn].host
  }

  predicate InSync(s: System, j: SockId)
    requires SocketFits(s, j)
  {
    var socket := s.sockets[j];
    var final := Replay(socket.peer, socket.queue, PresentOn(s, HostOf(s, j)));
    socket.peer.alive ==> (final.containers, final.services) == Wanted(s, HostOf(s, j))
  }

  predicate Untouched(socket: Socket) {
    socket.queue == [] && socket.peer.containers == {} && socket.peer.services == {}
  }

  ghost predicate HearersInSync(s: System) {
    forall j: nat | Hears(s, j) :: InSync(s, j)
  }

  ghost predicate ConnectingUntouched(s: System) {
    forall j: nat | j < |s.sockets| && s.sockets[j].state == Connecting :: Untouched(s.sockets[j])
  }

  ghost predicate Synced(s: System) {
    HearersInSync(s) && ConnectingUntouched(s) && NoZeroCounts(s.subs) && NoZeroCounts(s.svcs)
  }

  // ---------------------------------------------------------------------------------------------
  // Replaying messages
  // ---------------------------------------------------------------------------------------------

  lemma {:induction false} ReplayAppend(peer: Peer, q: seq<Message>, r: seq<Message>, present: set<Key>)
    ensures Replay(peer, q + r, present) == Replay(Replay(peer, q, present), r, present)
    decreases |q|
  {
    if q == [] {
      assert q + r == r;
    } else {
      assert (q + r)[0] == q[0] && (q + r)[1..] == q[1..] + r;
      ReplayAppend(Apply(peer, q[0], present), q[1..], r, present);
    }
  }

  lemma {:induction false} ReplayOne(peer: Peer, q: seq<Message>, m: Message, present: set<Key>)
    ensures Replay(peer, q + [m], present) == Apply(Replay(peer, q, present), m, present)
  {
    ReplayAppend(peer, q, [m], present);
    var last := Apply(Replay(peer, q, present), m, present);
    assert [m][1..] == [];
    assert Replay(last, [], present) == last;
  }

  /** Resending every key, in whatever order, adds exactly the keys the streamer accepts. */
  lemma {:induction false} ReplayResend(peer: Peer, kind: Kind, order: seq<Key>, present: set<Key>)
    ensures var final := Replay(peer, Resend(kind, order), present);
            && final.containers == (if kind == Container then peer.containers + (Elements(order) * present - {""})
                                    else peer.containers)
            && final.services == (if kind == Service then peer.services + (Elements(order) - {""}) else peer.services)
    decreases |order|
  {
    if order != [] {
      var m := SubscribeTo(kind, order[0]);
      assert Resend(kind, order)[0] == m && Resend(kind, order)[1..] == Resend(kind, order[1..]);
      ReplayResend(Apply(peer, m, present), kind, order[1..], present);
      assert Elements(order) == {order[0]} + Elements(order[1..]) by { assert order == [order[0]] + order[1..]; }
    }
  }

  // ---------------------------------------------------------------------------------------------
  // Steps
  // ---------------------------------------------------------------------------------------------

  /** Nothing that `InSync(_, j)` depends on changes. */
  predicate SameTraffic(s: System, after: System, j: SockId) {
    && SocketFits(s, j) && SocketFits(after, j)
    && after.sockets[j].queue == s.sockets[j].queue && after.sockets[j].peer == s.sockets[j].peer
    && HostOf(after, j) == HostOf(s, j) && after.present == s.present
    && after.subs.Keys == s.subs.Keys && after.svcs.Keys == s.svcs.Keys
  }

  /** A step that only moves sockets, connections and timers around keeps the synchronisation. */
  lemma FrameKeepsSync(s: System, after: System)
    requires Synced(s)
    requires forall j: nat | Hears(after, j) :: Hears(s, j) && SameTraffic(s, after, j)
    requires ConnectingUntouched(after) && NoZeroCounts(after.subs) && NoZeroCounts(after.svcs)
    ensures Synced(after)
  {
    forall j: nat | Hears(after, j) ensures InSync(after, j) {
      assert InSync(s, j);
    }
  }

  /** The keys of one kind after a message of some kind. */
  function KeysAfter(keys: set<Key>, kind: Kind, m: Message): set<Key> {
    if m.kind != kind then keys else if m.SubscribeTo? then keys + {m.key} else keys - {m.key}
  }

  lemma ApplyToKeys(peer: Peer, m: Message, subs: set<Key>, svcs: set<Key>, present: set<Key>)
    requires peer.containers == subs * present - {""} && peer.services == svcs - {""}
    ensures var next := Apply(peer, m, present);
            && next.containers == KeysAfter(subs, Container, m) * present - {""}
            && next.services == KeysAfter(svcs, Service, m) - {""}
  {
  }

  lemma BroadcastKeepsSync(s: System, kind: Kind, counts: Counts, m: Message, j: SockId)
    requires SocketFits(s, j) && Hears(s, j) && InSync(s, j) && m.kind == kind
    requires counts.Keys == KeysAfter(Active(s, kind).Keys, kind, m)
    ensures InSync(Broadcast(WithActive(s, kind, counts), m), j)
  {
    var socket, present := s.sockets[j], PresentOn(s, HostOf(s, j));
    var next := WithActive(s, kind, counts);
    assert Hears(next, j);
    assert Broadcast(next, m).sockets[j] == Enqueue(socket, [m]);
    ReplayOne(socket.peer, socket.queue, m, present);
    if socket.peer.alive {
      ApplyToKeys(Replay(socket.peer, socket.queue, present), m, s.subs.Keys, s.svcs.Keys, present);
    }
  }

  lemma CallKeepsSync(s: System, kind: Kind, key: Key)
    requires Wired(s) && Synced(s)
    ensures Synced(Subscribed(s, kind, key)) && Synced(Returned(s, kind, key))
  {
    SubscribedKeepsSync(s, kind, key);
    ReturnedKeepsSync(s, kind, key);
  }

  lemma SubscribedKeepsSync(s: System, kind: Kind, key: Key)
    requires TableFits(s) && Synced(s)
    ensures Synced(Subscribed(s, kind, key))
  {
    var (counts, first) := Retain(Active(s, kind), key);
    var after := Subscribed(s, kind, key);
    if first {
      forall j: nat | Hears(after, j) ensures InSync(after, j) {
        assert Hears(s, j);
        BroadcastKeepsSync(s, kind, counts, SubscribeTo(kind, key), j);
      }
    } else {
      assert counts.Keys == Active(s, kind).Keys;
      FrameKeepsSync(s, after);
    }
  }

  lemma ReturnedKeepsSync(s: System, kind: Kind, key: Key)
    requires TableFits(s) && Synced(s)
    ensures Synced(Returned(s, kind, key))
  {
    var (counts, last) := Release(Active(s, kind), key);
    var after := Returned(s, kind, key);
    if last {
      forall j: nat | Hears(after, j) ensures InSync(after, j) {
        assert Hears(s, j);
        BroadcastKeepsSync(s, kind, counts, UnsubscribeFrom(kind, key), j);
      }
    } else {
      assert counts.Keys == Active(s, kind).Keys;
      FrameKeepsSync(s, after);
    }
  }

  lemma ScheduleKeepsSync(s: System, c: ConnId)
    requires TableFits(s) && Synced(s) && c < |s.conns|
    ensures Synced(ScheduleReconnect(s, c))
  {
    FrameKeepsSync(s, ScheduleReconnect(s, c));
  }

  lemma ConnectKeepsSync(s: System, c: ConnId, fails: bool)
    requires TableFits(s) && Synced(s) && c < |s.conns|
    ensures Synced(ConnectWebSocket(s, c, fails))
  {
    if fails && !s.shuttingDown {
      ScheduleKeepsSync(s, c);
    } else {
      FrameKeepsSync(s, ConnectWebSocket(s, c, fails));
    }
  }

  lemma CloseHostsKeepsSync(s: System, hosts: set<Host>)
    requires TableFits(s) && Synced(s)
    ensures Synced(CloseHosts(s, hosts))
  {
    FrameKeepsSync(s, CloseHosts(s, hosts));
  }

  lemma AddHostKeepsSync(s: System, host: Host, fails: bool)
    requires TableFits(s) && Synced(s)
    ensures Synced(AddHost(s, host, fails))
  {
    if host !in s.connections {
      var c := |s.conns|;
      var before := s.(conns := s.conns + [Conn(host, None, None, 0)], connections := s.connections[host := c]);
      FrameKeepsSync(s, before);
      ConnectKeepsSync(before, c, fails);
    }
  }

  lemma {:induction false} AddHostsKeepsSync(s: System, hosts: seq<Host>, broken: set<Host>)
    requires Wired(s) && Synced(s)
    ensures Synced(AddHosts(s, hosts, broken))
    decreases |hosts|
  {
    if hosts != [] {
      AddHostKeeps(s, hosts[0], hosts[0] in broken);
      AddHostKeepsSync(s, hosts[0], hosts[0] in broken);
      AddHostsKeepsSync(AddHost(s, hosts[0], hosts[0] in broken), hosts[1..], broken);
    }
  }

  /** Resending both tables to a streamer that holds nothing gives it every key it accepts. */
  lemma {:induction false} ReplayBothTables(peer: Peer, containerOrder: seq<Key>, serviceOrder: seq<Key>,
                                            present: set<Key>)
    requires peer.containers == {} && peer.services == {}
    ensures var final := Replay(peer, Resend(Container, containerOrder) + Resend(Service, serviceOrder), present);
            && final.containers == Elements(containerOrder) * present - {""}
            && final.services == Elements(serviceOrder) - {""}
  {
    var a := Resend(Container, containerOrder);
    ReplayAppend(peer, a, Resend(Service, serviceOrder), present);
    ReplayResend(peer, Container, containerOrder, present);
    ReplayResend(Replay(peer, a, present), Service, serviceOrder, present);
  }

  /** The open handler resends every active key to the socket that opened, which starts out empty. */
  lemma OpenedSyncsTheSocket(s: System, j: SockId, containerOrder: seq<Key>, serviceOrder: seq<Key>)
    requires SocketFits(s, j) && Untouched(s.sockets[j])
    requires ListsOnce(containerOrder, s.subs.Keys) && ListsOnce(serviceOrder, s.svcs.Keys)
    ensures InSync(SentOnOpen(s, j, Resend(Container, containerOrder) + Resend(Service, serviceOrder)), j)
  {
    var messages := Resend(Container, containerOrder) + Resend(Service, serviceOrder);
    ReplayBothTables(s.sockets[j].peer, containerOrder, serviceOrder, PresentOn(s, HostOf(s, j)));
    assert [] + messages == messages;
  }

  lemma OpenedKeepsSync(s: System, j: SockId, containerOrder: seq<Key>, serviceOrder: seq<Key>)
    requires Wired(s) && Synced(s) && Enabled(s, SocketOpened(j, containerOrder, serviceOrder))
    ensures Synced(Opened(s, j, containerOrder, serviceOrder))
  {
    OpenHandlerSendsOnItsOwnSocket(s, j, containerOrder, serviceOrder);
    OpenedSyncsTheSocket(s, j, containerOrder, serviceOrder);
    var after := Opened(s, j, containerOrder, serviceOrder);
    forall k: nat | Hears(after, k) ensures InSync(after, k) {
      if k != j {
        assert Hears(s, k) && InSync(s, k) && SameTraffic(s, after, k);
      }
    }
  }

  lemma DeliveredKeepsSync(s: System, j: SockId)
    requires TableFits(s) && Synced(s) && Enabled(s, Delivered(j))
    ensures Synced(Step(s, Delivered(j)))
  {
    var after := Step(s, Delivered(j));
    forall k: nat | Hears(after, k) ensures InSync(after, k) {
      assert Hears(s, k) && InSync(s, k);
    }
  }

  lemma ClosedKeepsSync(s: System, j: SockId, before: System)
    requires Wired(s) && Synced(s) && Enabled(s, SocketClosed(j))
    requires before == s.(sockets := s.sockets[j := s.sockets[j].(state := Closed)])
    ensures Synced(ScheduleReconnect(before, s.sockets[j].conn))
  {
    FrameKeepsSync(s, before);
    ScheduleKeepsSync(before, s.sockets[j].conn);
  }

  lemma FiredKeepsSync(s: System, t: TimerId, fails: bool, before: System)
    requires Wired(s) && Synced(s) && Enabled(s, TimerFired(t, fails))
    requires before == s.(timers := s.timers[t := s.timers[t].(pending := false)])
    ensures Synced(ConnectWebSocket(before, s.timers[t].conn, fails))
  {
    FrameKeepsSync(s, before);
    ConnectKeepsSync(before, s.timers[t].conn, fails);
  }

  lemma SocketStepKeepsSync(s: System, e: Event)
    requires Wired(s) && Synced(s) && Enabled(s, e) && (e.SocketClosing? || e.SocketClosed? || e.TimerFired?)
    ensures Synced(Step(s, e))
  {
    match e
    case SocketClosing(j) => FrameKeepsSync(s, Step(s, e));
    case SocketClosed(j) => ClosedKeepsSync(s, j, s.(sockets := s.sockets[j := s.sockets[j].(state := Closed)]));
    case TimerFired(t, fails) =>
      FiredKeepsSync(s, t, fails, s.(timers := s.timers[t := s.timers[t].(pending := false)]));
  }

  lemma ReconciledKeepsSync(s: System, hosts: seq<Host>, broken: set<Host>)
    requires Wired(s) && Synced(s)
    ensures Synced(Reconciled(s, hosts, broken))
  {
    var stale := s.connections.Keys - Elements(hosts);
    CloseHostsKeepsSync(s, stale);
    CloseHostsKeeps(s, stale);
    AddHostsKeepsSync(CloseHosts(s, stale), hosts, broken);
  }

  /** Lookups and the shutdown flag play no part in the wiring or the synchronisation. */
  lemma FlagsKeepSync(s: System, lookups: nat, shuttingDown: bool)
    requires Synced(s)
    ensures Synced(s.(lookups := lookups, shuttingDown := shuttingDown))
  {
    var after := s.(lookups := lookups, shuttingDown := shuttingDown);
    forall j: nat | Hears(after, j) ensures InSync(after, j) {
      assert Hears(s, j) && InSync(s, j);
    }
  }

  lemma LookupDoneKeepsSync(s: System, hosts: seq<Host>, broken: set<Host>)
    requires Wired(s) && Synced(s) && s.lookups > 0
    ensures Synced(Step(s, LookupDone(hosts, broken)))
  {
    ReconciledKeepsSync(s, hosts, broken);
    var after := Reconciled(s, hosts, broken);
    FlagsKeepSync(after, s.lookups - 1, after.shuttingDown);
  }

  lemma ShutDownKeepsSync(s: System)
    requires Wired(s) && Synced(s)
    ensures Synced(Step(s, ShutDown))
  {
    FlagsKeepSync(s, s.lookups, true);
    CloseHostsKeepsSync(s.(shuttingDown := true), s.connections.Keys);
  }

  lemma PeerDroppedKeepsSync(s: System, j: SockId)
    requires TableFits(s) && Synced(s) && j < |s.sockets|
    ensures Synced(Step(s, PeerDropped(j)))
  {
    var after := Step(s, PeerDropped(j));
    forall k: nat | Hears(after, k) ensures InSync(after, k) {
      assert Hears(s, k) && InSync(s, k);
    }
  }

  lemma StepKeepsSync(s: System, e: Event)
    requires Wired(s) && Synced(s) && Enabled(s, e)
    ensures Synced(Step(s, e))
  {
    match e
    case SubscribeCall(kind, key) => CallKeepsSync(s, kind, key);
    case ReturnCall(kind, key) => CallKeepsSync(s, kind, key);
    case SocketOpened(j, containerOrder, serviceOrder) => OpenedKeepsSync(s, j, containerOrder, serviceOrder);
    case Delivered(j) => DeliveredKeepsSync(s, j);
    case PeerDropped(j) => PeerDroppedKeepsSync(s, j);
    case SocketClosing(_) => SocketStepKeepsSync(s, e);
    case SocketClosed(_) => SocketStepKeepsSync(s, e);
    case TimerFired(_, _) => SocketStepKeepsSync(s, e);
    case LookupStarted => FlagsKeepSync(s, s.lookups + 1, s.shuttingDown);
    case LookupDone(hosts, broken) => LookupDoneKeepsSync(s, hosts, broken);
    case LookupFailed => FlagsKeepSync(s, s.lookups - 1, s.shuttingDown);
    case ShutDown => ShutDownKeepsSync(s);
  }

  lemma {:induction false} SyncedInRuns(states: seq<System>, events: seq<Event>, n: nat)
    requires Run(states, events) && n <= |events|
    ensures Synced(states[n])
  {
    if n > 0 {
      WiredInRuns(states, events, n - 1);
      SyncedInRuns(states, events, n - 1);
      StepKeepsSync(states[n - 1], events[n - 1]);
    }
  }

  // ---------------------------------------------------------------------------------------------
  // Theorems
  // ---------------------------------------------------------------------------------------------

  /** In every state of every run, on every open socket of a mapped connection whose streamer still
      reads: once the messages in flight are read, the streamer holds exactly the wanted keys. */
  lemma QueuesLeadToTheActiveKeys(states: seq<System>, events: seq<Event>, n: nat, host: Host)
    requires Run(states, events) && n <= |events| && host in states[n].connections
    ensures var s := states[n];
            && s.connections[host] < |s.conns|
            && var ws := s.conns[s.connections[host]].ws;
            && (ws.Some? ==> ws.value < |s.sockets|)
            && (ws.Some? && s.sockets[ws.value].state == Open && s.sockets[ws.value].peer.alive ==>
                  var socket, present := s.sockets[ws.value], if host in s.present then s.present[host] else {};
                  var final := Replay(socket.peer, socket.queue, present);
                  && final.services == s.svcs.Keys - {""}
                  && final.containers == s.subs.Keys * present - {""})
  {
    WiredInRuns(states, events, n);
    SyncedInRuns(states, events, n);
    var s := states[n];
    var c := s.connections[host];
    if s.conns[c].ws.Some? && s.sockets[s.conns[c].ws.value].state == Open {
      assert Hears(s, s.conns[c].ws.value);
    }
  }

  /** When nothing is in flight, the streamer's subscriptions are the wanted ones. */
  lemma QuietStreamersHoldTheActiveKeys(states: seq<System>, events: seq<Event>, n: nat, j: SockId)
    requires Run(states, events) && n <= |events| && Hears(states[n], j)
    requires states[n].sockets[j].peer.alive && states[n].sockets[j].queue == []
    ensures var s := states[n];
            var host := s.conns[s.sockets[j].conn].host;
            && s.sockets[j].peer.services == s.svcs.Keys - {""}
            && s.sockets[j].peer.containers
               == s.subs.Keys * (if host in s.present then s.present[host] else {}) - {""}
  {
    SyncedInRuns(states, events, n);
    assert InSync(states[n], j);
  }
}
