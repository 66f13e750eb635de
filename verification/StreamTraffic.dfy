/** What travels to the streamers: every message on every socket, step by step. */
module StreamTraffic {
  import opened ReferenceCounts
  import opened StreamProtocol
  import opened StreamWiring
  import opened StreamSync
  import opened StreamLifecycle

  /** What an event puts on socket `j`: the first subscriber of a key and the last return of one are announced
      once on every open socket of a mapped connection, a socket that opens gets the active keys, and nothing else
      is ever sent. */
  function Sent(s: System, e: Event, j: SockId): seq<Message> {
    match e
    case SubscribeCall(kind, key) =>
      if Hears(s, j) && key !in Active(s, kind) then [SubscribeTo(kind, key)] else []
    case ReturnCall(kind, key) =>
      if Hears(s, j) && key in Active(s, kind) && Active(s, kind)[key] == 1 then [UnsubscribeFrom(kind, key)] else []
    case SocketOpened(i, containerOrder, serviceOrder) =>
      if i == j then Resend(Container, containerOrder) + Resend(Service, serviceOrder) else []
    case _ => []
  }

  /** The sockets are the same with the same queues, and new ones have sent nothing. */
  ghost predicate SameQueues(s: System, after: System) {
    && |s.sockets| <= |after.sockets|
    && (forall j: nat | j < |s.sockets| :: after.sockets[j].queue == s.sockets[j].queue)
    && forall j: nat | |s.sockets| <= j < |after.sockets| :: after.sockets[j].queue == []
  }

  lemma {:induction false} AddHostsKeepQueues(s: System, hosts: seq<Host>, broken: set<Host>)
    ensures SameQueues(s, AddHosts(s, hosts, broken))
    decreases |hosts|
  {
    if hosts != [] {
      var next := AddHost(s, hosts[0], hosts[0] in broken);
      assert SameQueues(s, next);
      AddHostsKeepQueues(next, hosts[1..], broken);
    }
  }

  lemma {:induction false} ReconciledKeepsQueues(s: System, hosts: seq<Host>, broken: set<Host>)
    ensures SameQueues(s, Reconciled(s, hosts, broken))
  {
    var closed := CloseHosts(s, s.connections.Keys - Elements(hosts));
    assert SameQueues(s, closed);
    AddHostsKeepQueues(closed, hosts, broken);
  }

  function QueueOf(s: System, j: SockId): seq<Message> {
    if j < |s.sockets| then s.sockets[j].queue else []
  }

  /** A step that adds to the queue of socket `j` what is sent. */
  predicate Sends(s: System, e: Event, after: System, j: SockId) {
    j < |after.sockets| ==> QueueOf(after, j) == QueueOf(s, j) + Sent(s, e, j)
  }

  lemma SubscribeSends(s: System, kind: Kind, key: Key, j: SockId)
    requires NoZeroCounts(Active(s, kind))
    ensures Sends(s, SubscribeCall(kind, key), Subscribed(s, kind, key), j)
  {
    assert Hears(WithActive(s, kind, Retain(Active(s, kind), key).0), j) <==> Hears(s, j);
  }

  lemma ReturnSends(s: System, kind: Kind, key: Key, j: SockId)
    requires NoZeroCounts(Active(s, kind))
    ensures Sends(s, ReturnCall(kind, key), Returned(s, kind, key), j)
  {
    assert Hears(WithActive(s, kind, Release(Active(s, kind), key).0), j) <==> Hears(s, j);
  }

  lemma OpenSends(s: System, e: Event, j: SockId)
    requires Wired(s) && e.SocketOpened? && Enabled(s, e)
    ensures Sends(s, e, Opened(s, e.sock, e.containerOrder, e.serviceOrder), j)
  {
    OpenHandlerSendsOnItsOwnSocket(s, e.sock, e.containerOrder, e.serviceOrder);
  }

  lemma OthersSendNothing(s: System, e: Event, j: SockId)
    requires Enabled(s, e) && !e.SubscribeCall? && !e.ReturnCall? && !e.SocketOpened? && !e.Delivered?
    ensures Sends(s, e, Step(s, e), j)
  {
    if e.LookupDone? {
      ReconciledKeepsQueues(s, e.hosts, e.broken);
    } else {
      assert SameQueues(s, Step(s, e));
    }
  }

  lemma DeliveryTakesTheFirst(s: System, e: Event, j: SockId)
    requires e.Delivered? && Enabled(s, e)
    ensures var queue := QueueOf(s, j);
            && (e == Delivered(j) ==> queue != [])
            && QueueOf(Step(s, e), j) == if e == Delivered(j) then queue[1..] else queue
  {
  }

  lemma StepSends(s: System, e: Event, after: System, j: SockId)
    requires Wired(s) && NoZeroCounts(s.subs) && NoZeroCounts(s.svcs)
    requires Enabled(s, e) && !e.Delivered? && after == Step(s, e)
    ensures Sends(s, e, after, j)
  {
    match e
    case SubscribeCall(kind, key) => SubscribeSends(s, kind, key, j);
    case ReturnCall(kind, key) => ReturnSends(s, kind, key, j);
    case SocketOpened(_, _, _) => OpenSends(s, e, j);
    case _ => OthersSendNothing(s, e, j);
  }

  lemma CountsInRuns(states: seq<System>, events: seq<Event>, n: nat)
    requires Run(states, events) && n <= |events|
    ensures Wired(states[n]) && NoZeroCounts(states[n].subs) && NoZeroCounts(states[n].svcs)
  {
    WiredInRuns(states, events, n);
    SyncedInRuns(states, events, n);
  }

  /** In every run a step takes from a queue what is read, and adds what is sent. */
  lemma QueuesGrowExactly(states: seq<System>, events: seq<Event>, n: nat, next: nat, j: SockId)
    requires Run(states, events) && n < |events| && next == n + 1 && j < |states[next].sockets|
    ensures var queue := QueueOf(states[n], j);
            && (events[n] == Delivered(j) ==> queue != [])
            && QueueOf(states[next], j)
               == (if events[n] == Delivered(j) then queue[1..] else queue) + Sent(states[n], events[n], j)
  {
    RunStep(states, events, n, next);
    CountsInRuns(states, events, n);
    if events[n].Delivered? {
      DeliveryTakesTheFirst(states[n], events[n], j);
    } else {
      StepSends(states[n], events[n], states[next], j);
    }
  }

  lemma {:induction false} ResendHas(kind: Kind, order: seq<Key>, m: Message)
    ensures m in Resend(kind, order) <==> m.SubscribeTo? && m.kind == kind && m.key in order
  {
    if m.SubscribeTo? && m.kind == kind && m.key in order {
      var i :| 0 <= i < |order| && order[i] == m.key;
      assert Resend(kind, order)[i] == m;
    }
  }

  /** A socket that opens has exactly the active keys on its queue, each of them once. */
  lemma OpenSocketGetsEveryKeyOnce(states: seq<System>, events: seq<Event>, n: nat, next: nat, j: SockId)
    requires Run(states, events) && n < |events| && next == n + 1
    requires events[n].SocketOpened? && events[n].sock == j
    ensures j < |states[next].sockets|
    ensures var s, queue := states[n], states[next].sockets[j].queue;
            && |queue| == |s.subs| + |s.svcs|
            && forall m: Message :: m in queue <==> m.SubscribeTo? && m.key in Active(s, m.kind)
  {
    var s, e := states[n], events[n];
    SyncedInRuns(states, events, n);
    RunStep(states, events, n, next);
    QueuesGrowExactly(states, events, n, next, j);
    assert s.sockets[j].queue == [];
    assert [] + Sent(s, e, j) == Sent(s, e, j);
    assert |s.subs| == |s.subs.Keys| && |s.svcs| == |s.svcs.Keys|;
    forall m: Message
      ensures m in Sent(s, e, j) <==> m.SubscribeTo? && m.key in Active(s, m.kind)
    {
      ResendHas(Container, e.containerOrder, m);
      ResendHas(Service, e.serviceOrder, m);
      assert m.key in e.containerOrder <==> m.key in Elements(e.containerOrder);
      assert m.key in e.serviceOrder <==> m.key in Elements(e.serviceOrder);
    }
  }
}
