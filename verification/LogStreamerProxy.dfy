/** The gateway's proxy service as the object it is: each handler updates the tables, connection objects
    and sockets in place, and is proved to take exactly the protocol step of its event. */
module LogStreamerProxy {
  import opened Options
  import opened ReferenceCounts
  import opened StreamProtocol
  import opened StreamWiring

  /** Closing the hosts one by one comes to the same as closing them together. */
  lemma CloseOneMore(s: System, closed: set<Host>, host: Host)
    requires TableFits(s) && host !in closed
    ensures CloseHosts(CloseHosts(s, closed), {host}) == CloseHosts(s, closed + {host})
  {
    var mid := CloseHosts(s, closed);
    var both := CloseHosts(mid, {host});
    var once := CloseHosts(s, closed + {host});
    forall c: nat | c < |s.conns| ensures both.conns[c] == once.conns[c] {}
    forall j: nat | j < |s.sockets| ensures both.sockets[j] == once.sockets[j] {}
    forall t: nat | t < |s.timers| ensures both.timers[t] == once.timers[t] {}
    assert both.connections == once.connections;
  }

  /** closeConnection on connection `c` alone, and its host out of the table. */
  function ClosedAlone(s: System, host: Host, c: ConnId): System
    requires c < |s.conns|
  {
    var conn := s.conns[c];
    s.(connections := s.connections - {host},
       conns := s.conns[c := conn.(ws := None, timer := None)],
       sockets := if conn.ws.Some? && conn.ws.value < |s.sockets|
                     && s.sockets[conn.ws.value].state in {Connecting, Open}
                  then s.sockets[conn.ws.value := s.sockets[conn.ws.value].(state := Closing)] else s.sockets,
       timers := if conn.timer.Some? && conn.timer.value < |s.timers|
                 then s.timers[conn.timer.value := s.timers[conn.timer.value].(pending := false)] else s.timers)
  }

  lemma ClosingOneHostTouchesOneConnection(s: System, host: Host)
    requires TableFits(s) && ConnsPoint(s) && host in s.connections
    ensures CloseHosts(s, {host}) == ClosedAlone(s, host, s.connections[host])
  {
    var all, alone := CloseHosts(s, {host}), ClosedAlone(s, host, s.connections[host]);
    forall c: nat | c < |s.conns| ensures all.conns[c] == alone.conns[c] {}
    forall j: nat | j < |s.sockets| ensures all.sockets[j] == alone.sockets[j] {}
    forall t: nat | t < |s.timers| ensures all.timers[t] == alone.timers[t] {}
    assert all.conns == alone.conns && all.sockets == alone.sockets && all.timers == alone.timers;
  }

  class LogStreamerProxyService {
    var isShuttingDown: bool
    var lookups: nat
    var connections: map<Host, ConnId>
    var activeSubscriptions: Counts
    var activeServiceSubscriptions: Counts
    var conns: seq<Conn>
    var sockets: seq<Socket>
    var timers: seq<Timer>
    ghost const present: map<Host, set<Key>>

    ghost function State(): System
      reads this
    {
      System(isShuttingDown, lookups, connections, activeSubscriptions, activeServiceSubscriptions,
             conns, sockets, timers, present)
    }

    ghost predicate Valid()
      reads this
    {
      Wired(State())
    }

    constructor (ghost present: map<Host, set<Key>>)
      ensures Valid() && Init(State()) && this.present == present
    {
      this.present := present;
      isShuttingDown, lookups := false, 0;
      connections, activeSubscriptions, activeServiceSubscriptions := map[], map[], map[];
      conns, sockets, timers := [], [], [];
    }

    // -------------------------------------------------------------------------------------------
    // Reference counts
    // -------------------------------------------------------------------------------------------

    method RetainSubscription(kind: Kind, key: Key) returns (first: bool)
      modifies this`activeSubscriptions, this`activeServiceSubscriptions
      ensures (Active(State(), kind), first) == Retain(old(Active(State(), kind)), key)
      ensures State() == WithActive(old(State()), kind, Active(State(), kind))
    {
      var subscriptions := if kind == Container then activeSubscriptions else activeServiceSubscriptions;
      var nextCount := (if key in subscriptions then subscriptions[key] else 0) + 1;
      subscriptions := subscriptions[key := nextCount];
      if kind == Container {
        activeSubscriptions := subscriptions;
      } else {
        activeServiceSubscriptions := subscriptions;
      }
      first := nextCount == 1;
    }

    method ReleaseSubscription(kind: Kind, key: Key) returns (last: bool)
      modifies this`activeSubscriptions, this`activeServiceSubscriptions
      ensures (Active(State(), kind), last) == Release(old(Active(State(), kind)), key)
      ensures State() == WithActive(old(State()), kind, Active(State(), kind))
    {
      var subscriptions := if kind == Container then activeSubscriptions else activeServiceSubscriptions;
      if key !in subscriptions || subscriptions[key] == 0 {
        return false;
      }
      var currentCount := subscriptions[key];
      last := currentCount == 1;
      if last {
        subscriptions := subscriptions - {key};
      } else {
        subscriptions := subscriptions[key := currentCount - 1];
      }
      if kind == Container {
        activeSubscriptions := subscriptions;
      } else {
        activeServiceSubscriptions := subscriptions;
      }
    }

    // -------------------------------------------------------------------------------------------
    // Sending
    // -------------------------------------------------------------------------------------------

    /** Sends `m` on the open socket of every connection in the table. */
    method BroadcastToAll(m: Message)
      requires TableFits(State()) && ConnsPoint(State())
      modifies this`sockets
      ensures State() == Broadcast(old(State()), m)
    {
      ghost var s := State();
      var left := connections.Keys;
      while left != {}
        invariant left <= connections.Keys && |sockets| == |s.sockets|
        invariant forall j: nat | j < |sockets| ::
            sockets[j] == if Hears(s, j) && s.conns[s.sockets[j].conn].host !in left
                          then Enqueue(s.sockets[j], [m]) else s.sockets[j]
      {
        var host :| host in left;
        var ws := conns[connections[host]].ws;
        if ws.Some? && sockets[ws.value].state == Open {
          sockets := sockets[ws.value := Enqueue(sockets[ws.value], [m])];
        }
        left := left - {host};
      }
      assert sockets == Broadcast(s, m).sockets;
    }

    /** The part of a subscribe call after the channel is ready. */
    method Subscribe(kind: Kind, key: Key)
      requires Valid()
      modifies this
      ensures State() == Step(old(State()), SubscribeCall(kind, key)) && Valid()
    {
      StepKeepsWiring(State(), SubscribeCall(kind, key));
      var first := RetainSubscription(kind, key);
      if first {
        BroadcastToAll(SubscribeTo(kind, key));
      }
    }

    /** `return` of a wrapper. */
    method ReturnWrapper(kind: Kind, key: Key)
      requires Valid()
      modifies this
      ensures State() == Step(old(State()), ReturnCall(kind, key)) && Valid()
    {
      StepKeepsWiring(State(), ReturnCall(kind, key));
      var last := ReleaseSubscription(kind, key);
      if last {
        BroadcastToAll(UnsubscribeFrom(kind, key));
      }
    }

    // -------------------------------------------------------------------------------------------
    // Connecting
    // -------------------------------------------------------------------------------------------

    method ScheduleReconnectFor(c: ConnId)
      requires c < |conns|
      modifies this`conns, this`timers
      ensures State() == ScheduleReconnect(old(State()), c)
    {
      if isShuttingDown || conns[c].host !in connections {
        return;
      }
      conns := conns[c := conns[c].(attempts := conns[c].attempts + 1)];
      var delay := Delay(conns[c].attempts);
      timers := timers + [Timer(c, delay, true)];
      conns := conns[c := conns[c].(timer := Some(|timers| - 1))];
    }

    /** The delay before reconnect attempt `attempts`, with the power computed by repeated doubling. */
    method Delay(attempts: nat) returns (delay: nat)
      requires attempts > 0
      ensures delay == Backoff(attempts)
    {
      var power := 1;
      for i := 0 to attempts - 1
        invariant power == Pow2(i)
      {
        power := 2 * power;
      }
      delay := BASE_RECONNECT_MS * power;
      if delay > MAX_RECONNECT_MS {
        delay := MAX_RECONNECT_MS;
      }
    }

    method Connect(c: ConnId, fails: bool)
      requires c < |conns|
      modifies this`conns, this`sockets, this`timers
      ensures State() == ConnectWebSocket(old(State()), c, fails)
    {
      if isShuttingDown {
        return;
      }
      if fails {
        ScheduleReconnectFor(c);
      } else {
        sockets := sockets + [Socket(c, Connecting, [], Peer(true, {}, {}))];
        conns := conns[c := conns[c].(ws := Some(|sockets| - 1))];
      }
    }

    /** Clears the timer and closes the socket of one mapped connection, which leaves the table. */
    method CloseAndForget(host: Host)
      requires host in connections && TableFits(State()) && ConnsPoint(State())
      modifies this`connections, this`conns, this`sockets, this`timers
      ensures State() == CloseHosts(old(State()), {host})
    {
      ghost var s := State();
      var c := connections[host];
      var conn := conns[c];
      if conn.timer.Some? {
        timers := timers[conn.timer.value := timers[conn.timer.value].(pending := false)];
        conns := conns[c := conns[c].(timer := None)];
      }
      if conn.ws.Some? {
        if sockets[conn.ws.value].state in {Connecting, Open} {
          sockets := sockets[conn.ws.value := sockets[conn.ws.value].(state := Closing)];
        }
        conns := conns[c := conns[c].(ws := None)];
      }
      connections := connections - {host};
      assert conns == s.conns[c := conn.(ws := None, timer := None)];
      assert State() == ClosedAlone(s, host, c);
      ClosingOneHostTouchesOneConnection(s, host);
    }

    lemma CloseNext(s: System, hosts: set<Host>, left: set<Host>, host: Host)
      requires TableFits(s) && ConnsPoint(s) && LivePoint(s)
      requires host in left && left <= hosts <= s.connections.Keys
      ensures var mid := CloseHosts(s, hosts - left);
              && TableFits(mid) && ConnsPoint(mid) && host in mid.connections
              && CloseHosts(mid, {host}) == CloseHosts(s, hosts - (left - {host}))
    {
      CloseHostsPointsBack(s, hosts - left);
      CloseOneMore(s, hosts - left, host);
      assert hosts - (left - {host}) == (hosts - left) + {host};
    }

    method CloseAll(hosts: set<Host>)
      requires hosts <= connections.Keys && TableFits(State()) && ConnsPoint(State()) && LivePoint(State())
      modifies this`connections, this`conns, this`sockets, this`timers
      ensures State() == CloseHosts(old(State()), hosts)
    {
      ghost var s := State();
      CloseNothing(s);
      var left := hosts;
      assert hosts - left == {};
      while left != {}
        invariant left <= hosts
        invariant State() == CloseHosts(s, hosts - left)
      {
        var host :| host in left;
        CloseNext(s, hosts, left, host);
        CloseAndForget(host);
        left := left - {host};
      }
      assert hosts - left == hosts;
    }

    lemma CloseNothing(s: System)
      ensures CloseHosts(s, {}) == s
    {
      var same := CloseHosts(s, {});
      assert same.conns == s.conns && same.sockets == s.sockets && same.timers == s.timers;
      assert same.connections == s.connections;
    }

    // -------------------------------------------------------------------------------------------
    // Events
    // -------------------------------------------------------------------------------------------

    method StartLookup()
      requires Valid()
      modifies this`lookups
      ensures State() == Step(old(State()), LookupStarted) && Valid()
    {
      StepKeepsWiring(State(), LookupStarted);
      if !isShuttingDown {
        lookups := lookups + 1;
      }
    }

    lemma {:induction false} AddHostsNext(s: System, hosts: seq<Host>, i: nat, broken: set<Host>)
      requires i < |hosts|
      ensures AddHosts(s, hosts[i..], broken)
              == AddHosts(AddHost(s, hosts[i], hosts[i] in broken), hosts[i + 1..], broken)
    {
      assert hosts[i..][0] == hosts[i] && hosts[i..][1..] == hosts[i + 1..];
    }

    method AddConnection(host: Host, fails: bool)
      requires host !in connections
      modifies this`connections, this`conns, this`sockets, this`timers
      ensures State() == AddHost(old(State()), host, fails)
      ensures connections.Keys == old(connections.Keys) + {host}
    {
      conns := conns + [Conn(host, None, None, 0)];
      connections := connections[host := |conns| - 1];
      Connect(|conns| - 1, fails);
    }

    /** Connects the discovered hosts that were not in the table before; each host once. */
    method AddDiscovered(hosts: seq<Host>, currentHosts: set<Host>, broken: set<Host>)
      requires connections.Keys == currentHosts * Elements(hosts)
      modifies this`connections, this`conns, this`sockets, this`timers
      ensures State() == AddHosts(old(State()), hosts, broken)
    {
      ghost var s := State();
      var seen := {};
      assert hosts[0..] == hosts;
      for i := 0 to |hosts|
        invariant connections.Keys == currentHosts * Elements(hosts) + seen
        invariant AddHosts(State(), hosts[i..], broken) == AddHosts(s, hosts, broken)
      {
        var host := hosts[i];
        AddHostsNext(State(), hosts, i, broken);
        if host !in seen && host !in currentHosts {
          AddConnection(host, host in broken);
          seen := seen + {host};
        } else {
          assert host in connections;
        }
      }
      assert hosts[|hosts|..] == [];
    }

    method CloseAndAdd(hosts: seq<Host>, broken: set<Host>)
      requires TableFits(State()) && ConnsPoint(State()) && LivePoint(State())
      modifies this`connections, this`conns, this`sockets, this`timers
      ensures State() == Reconciled(old(State()), hosts, broken)
    {
      var currentHosts := connections.Keys;
      CloseAll(currentHosts - (set host | host in hosts));
      AddDiscovered(hosts, currentHosts, broken);
    }

    /** The part of a reconcile after the lookup's answer. */
    method Reconcile(hosts: seq<Host>, broken: set<Host>)
      requires Valid() && lookups > 0
      modifies this
      ensures State() == Step(old(State()), LookupDone(hosts, broken)) && Valid()
    {
      LookupDoneKeeps(State(), hosts, broken);
      CloseAndAdd(hosts, broken);
      lookups := lookups - 1;
    }

    /** The open handler; the orders are those in which the keys were resent. */
    method OnOpen(j: SockId) returns (ghost containerOrder: seq<Key>, ghost serviceOrder: seq<Key>)
      requires Valid() && j < |sockets| && sockets[j].state == Connecting
      modifies this`conns, this`sockets
      ensures old(Enabled(State(), SocketOpened(j, containerOrder, serviceOrder)))
      ensures State() == Step(old(State()), SocketOpened(j, containerOrder, serviceOrder)) && Valid()
    {
      ghost var s := State();
      var c := sockets[j].conn;
      sockets := sockets[j := sockets[j].(state := Open)];
      conns := conns[c := conns[c].(attempts := 0)];
      var ws := conns[c].ws.value;  // never null, see OpenHandlerSendsOnItsOwnSocket
      assert s.sockets[j].queue + [] == s.sockets[j].queue;
      containerOrder := Resubscribe(ws, Container, activeSubscriptions.Keys);
      serviceOrder := Resubscribe(ws, Service, activeServiceSubscriptions.Keys);
      OpenHandlerSendsOnItsOwnSocket(s, j, containerOrder, serviceOrder);
      ghost var a, b := Resend(Container, containerOrder), Resend(Service, serviceOrder);
      assert s.sockets[j].queue + a + b == s.sockets[j].queue + (a + b);
      assert State() == SentOnOpen(s, j, a + b);
      SentOnOpenKeeps(s, j, a + b);
    }

    lemma ResendOneMore(socket: Socket, kind: Kind, order: seq<Key>, key: Key)
      ensures Enqueue(Enqueue(socket, Resend(kind, order)), [SubscribeTo(kind, key)])
           == Enqueue(socket, Resend(kind, order + [key]))
      ensures Enqueue(socket, Resend(kind, [])) == socket
    {
      assert Resend(kind, order + [key]) == Resend(kind, order) + [SubscribeTo(kind, key)];
      assert socket.queue + Resend(kind, []) == socket.queue;
      assert socket.queue + Resend(kind, order) + [SubscribeTo(kind, key)]
          == socket.queue + (Resend(kind, order) + [SubscribeTo(kind, key)]);
    }

    method Resubscribe(ws: SockId, kind: Kind, keys: set<Key>) returns (ghost order: seq<Key>)
      requires ws < |sockets|
      modifies this`sockets
      ensures ListsOnce(order, keys)
      ensures sockets == old(sockets)[ws := Enqueue(old(sockets[ws]), Resend(kind, order))]
    {
      order := [];
      var left := keys;
      ghost var socket := sockets[ws];
      ResendOneMore(socket, kind, [], "");
      while left != {}
        invariant left <= keys && |order| + |left| == |keys| && Elements(order) == keys - left
        invariant sockets == old(sockets)[ws := Enqueue(socket, Resend(kind, order))]
      {
        var key :| key in left;
        sockets := sockets[ws := Enqueue(sockets[ws], [SubscribeTo(kind, key)])];
        ResendOneMore(socket, kind, order, key);
        ElementsAppend(order, key);
        order := order + [key];
        left := left - {key};
      }
    }

    method OnClose(j: SockId)
      requires Valid() && Enabled(State(), SocketClosed(j))
      modifies this`conns, this`sockets, this`timers
      ensures State() == Step(old(State()), SocketClosed(j)) && Valid()
    {
      StepKeepsWiring(State(), SocketClosed(j));
      sockets := sockets[j := sockets[j].(state := Closed)];
      ScheduleReconnectFor(sockets[j].conn);
    }

    method OnTimer(t: TimerId, fails: bool)
      requires Valid() && Enabled(State(), TimerFired(t, fails))
      modifies this`conns, this`sockets, this`timers
      ensures State() == Step(old(State()), TimerFired(t, fails)) && Valid()
    {
      StepKeepsWiring(State(), TimerFired(t, fails));
      timers := timers[t := timers[t].(pending := false)];
      Connect(timers[t].conn, fails);
    }

    method OnModuleDestroy()
      requires Valid()
      modifies this
      ensures State() == Step(old(State()), ShutDown) && Valid()
    {
      ShutDownKeeps(State());
      isShuttingDown := true;
      CloseAll(connections.Keys);
    }
  }
}
