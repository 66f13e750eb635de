/** The structural invariant of the protocol: how the gateway's tables, connection objects, sockets and
    timers fit together in every reachable state. */
module StreamWiring {
  import opened Options
  import opened ReferenceCounts
  import opened StreamProtocol

  predicate Unclosed(s: System, j: SockId) {
    j < |s.sockets| && s.sockets[j].state != Closed
  }

  predicate Pending(s: System, t: TimerId) {
    t < |s.timers| && s.timers[t].pending
  }

  /** Ids are in range, and the table maps a host to a connection object for that host. */
  ghost predicate TableFits(s: System) {
    && (forall h <- s.connections :: s.connections[h] < |s.conns| && s.conns[s.connections[h]].host == h)
    && (forall j: nat | j < |s.sockets| :: s.sockets[j].conn < |s.conns|)
    && (forall t: nat | t < |s.timers| :: s.timers[t].conn < |s.conns|)
  }

  /** `ws` and `timer` point to a socket and a timer of the connection itself. */
  ghost predicate ConnsPoint(s: System) {
    && (forall c: nat | c < |s.conns| && s.conns[c].ws.Some? ::
          s.conns[c].ws.value < |s.sockets| && s.sockets[s.conns[c].ws.value].conn == c)
    && (forall c: nat | c < |s.conns| && s.conns[c].timer.Some? ::
          s.conns[c].timer.value < |s.timers| && s.timers[s.conns[c].timer.value].conn == c)
  }

  /** A connecting or open socket is the `ws` of its connection, a pending timer is its `timer`. */
  ghost predicate LivePoint(s: System) {
    && (forall j: nat | j < |s.sockets| && s.sockets[j].state in {Connecting, Open} ::
          s.sockets[j].conn < |s.conns| && s.conns[s.sockets[j].conn].ws == Some(j))
    && (forall t: nat | t < |s.timers| && s.timers[t].pending ::
          s.timers[t].conn < |s.conns| && s.conns[s.timers[t].conn].timer == Some(t))
  }

  /** A connection object has at most one activity: a socket that is not closed, or a pending timer. */
  ghost predicate OneActivity(s: System) {
    && (forall j: nat, k: nat | j < k < |s.sockets| && s.sockets[j].state != Closed && s.sockets[k].state != Closed ::
          s.sockets[j].conn != s.sockets[k].conn)
    && (forall t: nat, u: nat | t < u < |s.timers| && s.timers[t].pending && s.timers[u].pending ::
          s.timers[t].conn != s.timers[u].conn)
    && (forall j: nat, t: nat | j < |s.sockets| && t < |s.timers|
                                && s.sockets[j].state != Closed && s.timers[t].pending ::
          s.sockets[j].conn != s.timers[t].conn)
  }

  ghost predicate Idle(s: System, c: ConnId) {
    && (forall j: nat | j < |s.sockets| && s.sockets[j].state != Closed :: s.sockets[j].conn != c)
    && (forall t: nat | t < |s.timers| && s.timers[t].pending :: s.timers[t].conn != c)
  }

  predicate Covered(s: System, c: ConnId) {
    && c < |s.conns|
    && (|| (s.conns[c].ws.Some? && Unclosed(s, s.conns[c].ws.value))
        || (s.conns[c].timer.Some? && Pending(s, s.conns[c].timer.value)))
  }

  /** Until shutdown every mapped connection, except possibly `but`, has an activity. */
  ghost predicate AllCovered(s: System, but: set<ConnId>) {
    !s.shuttingDown ==> forall c: nat | c < |s.conns| && Mapped(s, c) && c !in but :: Covered(s, c)
  }

  ghost predicate DelaysFit(s: System) {
    forall t: nat | t < |s.timers| && s.timers[t].pending && s.timers[t].conn < |s.conns| ::
      s.conns[s.timers[t].conn].attempts > 0 && s.timers[t].delay == Backoff(s.conns[s.timers[t].conn].attempts)
  }

  ghost predicate WiredBut(s: System, but: set<ConnId>) {
    TableFits(s) && ConnsPoint(s) && LivePoint(s) && OneActivity(s) && AllCovered(s, but) && DelaysFit(s)
  }

  ghost predicate Wired(s: System) {
    WiredBut(s, {})
  }

  // ---------------------------------------------------------------------------------------------
  // Steps
  // ---------------------------------------------------------------------------------------------

  /** Broadcasts, deliveries and counts do not touch the wiring. */
  ghost predicate SameWiring(s: System, after: System) {
    && after.shuttingDown == s.shuttingDown && after.connections == s.connections && after.conns == s.conns
    && after.timers == s.timers && |after.sockets| == |s.sockets|
    && forall j: nat | j < |s.sockets| ::
         after.sockets[j].conn == s.sockets[j].conn && after.sockets[j].state == s.sockets[j].state
  }

  lemma SameWiringKeeps(s: System, after: System)
    requires Wired(s) && SameWiring(s, after)
    ensures Wired(after)
  {
    forall c: nat | c < |after.conns| && Mapped(after, c) && !s.shuttingDown ensures Covered(after, c) {
      assert Mapped(s, c) && Covered(s, c);
    }
  }

  lemma ScheduleConnsPoint(s: System, c: ConnId)
    requires TableFits(s) && ConnsPoint(s) && c < |s.conns|
    ensures ConnsPoint(ScheduleReconnect(s, c))
  {
  }

  lemma ScheduleLivePoint(s: System, c: ConnId)
    requires TableFits(s) && LivePoint(s) && c < |s.conns| && Idle(s, c)
    ensures LivePoint(ScheduleReconnect(s, c))
  {
  }

  lemma ScheduleCovers(s: System, c: ConnId)
    requires TableFits(s) && AllCovered(s, {c}) && c < |s.conns|
    ensures AllCovered(ScheduleReconnect(s, c), {})
  {
    var after := ScheduleReconnect(s, c);
    forall d: nat | d < |after.conns| && Mapped(after, d) && !s.shuttingDown ensures Covered(after, d) {
      assert Mapped(s, d) && (d == c || Covered(s, d));
    }
  }

  lemma ScheduleOneActivity(s: System, c: ConnId)
    requires TableFits(s) && LivePoint(s) && OneActivity(s) && DelaysFit(s) && c < |s.conns| && Idle(s, c)
    ensures OneActivity(ScheduleReconnect(s, c)) && DelaysFit(ScheduleReconnect(s, c))
  {
  }

  lemma ScheduleKeeps(s: System, c: ConnId)
    requires WiredBut(s, {c}) && c < |s.conns| && Idle(s, c)
    ensures Wired(ScheduleReconnect(s, c))
  {
    ScheduleOneActivity(s, c);
    ScheduleConnsPoint(s, c);
    ScheduleLivePoint(s, c);
    ScheduleCovers(s, c);
  }

  lemma ConnectFits(s: System, c: ConnId)
    requires TableFits(s) && ConnsPoint(s) && c < |s.conns|
    ensures TableFits(ConnectWebSocket(s, c, false)) && ConnsPoint(ConnectWebSocket(s, c, false))
  {
  }

  lemma ConnectLivePoint(s: System, c: ConnId)
    requires TableFits(s) && LivePoint(s) && c < |s.conns| && Idle(s, c)
    ensures LivePoint(ConnectWebSocket(s, c, false))
  {
  }

  lemma ConnectOneActivity(s: System, c: ConnId)
    requires TableFits(s) && OneActivity(s) && DelaysFit(s) && c < |s.conns| && Idle(s, c)
    ensures OneActivity(ConnectWebSocket(s, c, false)) && DelaysFit(ConnectWebSocket(s, c, false))
  {
  }

  lemma ConnectCovers(s: System, c: ConnId)
    requires TableFits(s) && AllCovered(s, {c}) && c < |s.conns|
    ensures AllCovered(ConnectWebSocket(s, c, false), {})
  {
    var after := ConnectWebSocket(s, c, false);
    forall d: nat | d < |after.conns| && Mapped(after, d) && !s.shuttingDown ensures Covered(after, d) {
      assert Mapped(s, d) && (d == c || Covered(s, d));
    }
  }

  lemma ConnectKeeps(s: System, c: ConnId, fails: bool)
    requires WiredBut(s, {c}) && c < |s.conns| && Idle(s, c)
    ensures Wired(ConnectWebSocket(s, c, fails))
  {
    if fails && !s.shuttingDown {
      ScheduleKeeps(s, c);
    } else {
      ConnectFits(s, c);
      ConnectLivePoint(s, c);
      ConnectOneActivity(s, c);
      ConnectCovers(s, c);
    }
  }

  lemma CloseHostsFits(s: System, hosts: set<Host>)
    requires TableFits(s) && ConnsPoint(s)
    ensures TableFits(CloseHosts(s, hosts)) && ConnsPoint(CloseHosts(s, hosts))
  {
  }

  lemma CloseHostsLive(s: System, hosts: set<Host>)
    requires TableFits(s) && LivePoint(s)
    ensures LivePoint(CloseHosts(s, hosts))
  {
  }

  lemma CloseHostsPointsBack(s: System, hosts: set<Host>)
    requires TableFits(s) && ConnsPoint(s) && LivePoint(s)
    ensures var after := CloseHosts(s, hosts); TableFits(after) && ConnsPoint(after) && LivePoint(after)
  {
    CloseHostsFits(s, hosts);
    CloseHostsLive(s, hosts);
  }

  lemma CloseHostsDelays(s: System, hosts: set<Host>)
    requires TableFits(s) && DelaysFit(s)
    ensures DelaysFit(CloseHosts(s, hosts))
  {
  }

  lemma CloseHostsOneActivity(s: System, hosts: set<Host>)
    requires TableFits(s) && OneActivity(s)
    ensures OneActivity(CloseHosts(s, hosts))
  {
  }

  lemma CloseHostsCovers(s: System, hosts: set<Host>)
    requires TableFits(s) && ConnsPoint(s) && AllCovered(s, {})
    ensures AllCovered(CloseHosts(s, hosts), {})
  {
    var after := CloseHosts(s, hosts);
    forall d: nat | d < |after.conns| && Mapped(after, d) && !s.shuttingDown ensures Covered(after, d) {
      assert Mapped(s, d) && Covered(s, d);
    }
  }

  lemma CloseHostsKeeps(s: System, hosts: set<Host>)
    requires Wired(s)
    ensures Wired(CloseHosts(s, hosts))
  {
    CloseHostsPointsBack(s, hosts);
    CloseHostsOneActivity(s, hosts);
    CloseHostsDelays(s, hosts);
    CloseHostsCovers(s, hosts);
  }

  lemma AddHostKeeps(s: System, host: Host, fails: bool)
    requires Wired(s)
    ensures Wired(AddHost(s, host, fails))
  {
    if host !in s.connections {
      var c := |s.conns|;
      var before := s.(conns := s.conns + [Conn(host, None, None, 0)], connections := s.connections[host := c]);
      forall d: nat | d < |before.conns| && Mapped(before, d) && d != c && !s.shuttingDown ensures Covered(before, d) {
        assert Mapped(s, d) && Covered(s, d);
      }
      ConnectKeeps(before, c, fails);
    }
  }

  lemma {:induction false} AddHostsKeeps(s: System, hosts: seq<Host>, broken: set<Host>)
    requires Wired(s)
    ensures Wired(AddHosts(s, hosts, broken))
    decreases |hosts|
  {
    if hosts != [] {
      AddHostKeeps(s, hosts[0], hosts[0] in broken);
      AddHostsKeeps(AddHost(s, hosts[0], hosts[0] in broken), hosts[1..], broken);
    }
  }

  /** The state after the open handler when it sends on the socket that opened. */
  function SentOnOpen(s: System, j: SockId, messages: seq<Message>): System
    requires j < |s.sockets| && s.sockets[j].conn < |s.conns|
  {
    var c := s.sockets[j].conn;
    s.(sockets := s.sockets[j := Enqueue(s.sockets[j].(state := Open), messages)],
       conns := s.conns[c := s.conns[c].(attempts := 0)])
  }

  /** `conn.ws!` in the open handler is never null and is the socket that has just opened. */
  lemma OpenHandlerSendsOnItsOwnSocket(s: System, j: SockId, containerOrder: seq<Key>, serviceOrder: seq<Key>)
    requires Wired(s) && j < |s.sockets| && s.sockets[j].state == Connecting
    ensures s.conns[s.sockets[j].conn].ws == Some(j)
    ensures Opened(s, j, containerOrder, serviceOrder)
         == SentOnOpen(s, j, Resend(Container, containerOrder) + Resend(Service, serviceOrder))
  {
  }

  lemma SentOnOpenPointsBack(s: System, j: SockId, messages: seq<Message>)
    requires TableFits(s) && ConnsPoint(s) && LivePoint(s) && j < |s.sockets| && s.sockets[j].state == Connecting
    ensures var after := SentOnOpen(s, j, messages); TableFits(after) && ConnsPoint(after) && LivePoint(after)
  {
  }

  lemma SentOnOpenActivity(s: System, j: SockId, messages: seq<Message>)
    requires TableFits(s) && OneActivity(s) && DelaysFit(s) && j < |s.sockets| && s.sockets[j].state == Connecting
    ensures var after := SentOnOpen(s, j, messages); OneActivity(after) && DelaysFit(after)
  {
  }

  lemma SentOnOpenCovers(s: System, j: SockId, messages: seq<Message>)
    requires TableFits(s) && AllCovered(s, {}) && j < |s.sockets| && s.sockets[j].state == Connecting
    ensures AllCovered(SentOnOpen(s, j, messages), {})
  {
    var after := SentOnOpen(s, j, messages);
    forall d: nat | d < |after.conns| && Mapped(after, d) && !s.shuttingDown ensures Covered(after, d) {
      assert Mapped(s, d) && Covered(s, d);
    }
  }

  lemma SentOnOpenKeeps(s: System, j: SockId, messages: seq<Message>)
    requires Wired(s) && j < |s.sockets| && s.sockets[j].state == Connecting
    ensures Wired(SentOnOpen(s, j, messages))
  {
    SentOnOpenPointsBack(s, j, messages);
    SentOnOpenActivity(s, j, messages);
    SentOnOpenCovers(s, j, messages);
  }

  lemma ClosedKeeps(s: System, j: SockId)
    requires Wired(s) && Unclosed(s, j)
    ensures Wired(ScheduleReconnect(s.(sockets := s.sockets[j := s.sockets[j].(state := Closed)]), s.sockets[j].conn))
  {
    var c := s.sockets[j].conn;
    var before := s.(sockets := s.sockets[j := s.sockets[j].(state := Closed)]);
    forall d: nat | d < |before.conns| && Mapped(before, d) && d != c && !s.shuttingDown ensures Covered(before, d) {
      assert Mapped(s, d) && Covered(s, d);
    }
    ScheduleKeeps(before, c);
  }

  lemma FiredKeeps(s: System, t: TimerId, fails: bool)
    requires Wired(s) && Pending(s, t)
    ensures Wired(ConnectWebSocket(s.(timers := s.timers[t := s.timers[t].(pending := false)]), s.timers[t].conn,
                                   fails))
  {
    var c := s.timers[t].conn;
    var before := s.(timers := s.timers[t := s.timers[t].(pending := false)]);
    forall d: nat | d < |before.conns| && Mapped(before, d) && d != c && !s.shuttingDown ensures Covered(before, d) {
      assert Mapped(s, d) && Covered(s, d);
    }
    ConnectKeeps(before, c, fails);
  }

  lemma ClosingPointsBack(s: System, j: SockId)
    requires TableFits(s) && ConnsPoint(s) && LivePoint(s) && OneActivity(s) && Unclosed(s, j)
    ensures var after := s.(sockets := s.sockets[j := s.sockets[j].(state := Closing)]);
            TableFits(after) && ConnsPoint(after) && LivePoint(after) && OneActivity(after)
  {
  }

  lemma ClosingKeeps(s: System, j: SockId)
    requires Wired(s) && Unclosed(s, j)
    ensures Wired(s.(sockets := s.sockets[j := s.sockets[j].(state := Closing)]))
  {
    ClosingPointsBack(s, j);
    var after := s.(sockets := s.sockets[j := s.sockets[j].(state := Closing)]);
    forall d: nat | d < |after.conns| && Mapped(after, d) && !s.shuttingDown ensures Covered(after, d) {
      assert Mapped(s, d) && Covered(s, d);
    }
  }

  lemma ReconciledKeeps(s: System, hosts: seq<Host>, broken: set<Host>)
    requires Wired(s)
    ensures Wired(Reconciled(s, hosts, broken))
  {
    CloseHostsKeeps(s, s.connections.Keys - Elements(hosts));
    AddHostsKeeps(CloseHosts(s, s.connections.Keys - Elements(hosts)), hosts, broken);
  }

  lemma ShuttingDownKeepsWiring(s: System)
    requires Wired(s)
    ensures Wired(s.(shuttingDown := true))
  {
  }

  lemma ShutDownKeeps(s: System)
    requires Wired(s)
    ensures Wired(CloseHosts(s.(shuttingDown := true), s.connections.Keys))
  {
    ShuttingDownKeepsWiring(s);
    CloseHostsKeeps(s.(shuttingDown := true), s.connections.Keys);
  }

  predicate TouchesWiring(e: Event) {
    e.LookupDone? || e.SocketOpened? || e.SocketClosing? || e.SocketClosed? || e.TimerFired? || e.ShutDown?
  }

  lemma BroadcastIsQuiet(s: System, m: Message)
    ensures SameWiring(s, Broadcast(s, m))
  {
  }

  lemma CallIsQuiet(s: System, kind: Kind, key: Key)
    ensures SameWiring(s, Subscribed(s, kind, key)) && SameWiring(s, Returned(s, kind, key))
  {
    BroadcastIsQuiet(WithActive(s, kind, Retain(Active(s, kind), key).0), SubscribeTo(kind, key));
    BroadcastIsQuiet(WithActive(s, kind, Release(Active(s, kind), key).0), UnsubscribeFrom(kind, key));
  }

  lemma QuietStep(s: System, e: Event)
    requires Enabled(s, e) && !TouchesWiring(e)
    ensures SameWiring(s, Step(s, e))
  {
    if e.SubscribeCall? || e.ReturnCall? {
      CallIsQuiet(s, e.kind, e.key);
    }
  }

  lemma LookupDoneKeeps(s: System, hosts: seq<Host>, broken: set<Host>)
    requires Wired(s) && s.lookups > 0
    ensures Wired(Step(s, LookupDone(hosts, broken)))
  {
    ReconciledKeeps(s, hosts, broken);
    SameWiringKeeps(Reconciled(s, hosts, broken), Step(s, LookupDone(hosts, broken)));
  }

  lemma SocketStepKeeps(s: System, e: Event)
    requires Wired(s) && Enabled(s, e) && (e.SocketOpened? || e.SocketClosing? || e.SocketClosed? || e.TimerFired?)
    ensures Wired(Step(s, e))
  {
    match e
    case SocketOpened(j, containerOrder, serviceOrder) =>
      OpenHandlerSendsOnItsOwnSocket(s, j, containerOrder, serviceOrder);
      SentOnOpenKeeps(s, j, Resend(Container, containerOrder) + Resend(Service, serviceOrder));
    case SocketClosing(j) => ClosingKeeps(s, j);
    case SocketClosed(j) => ClosedKeeps(s, j);
    case TimerFired(t, fails) => FiredKeeps(s, t, fails);
  }

  lemma StepKeepsWiring(s: System, e: Event)
    requires Wired(s) && Enabled(s, e)
    ensures Wired(Step(s, e))
  {
    if !TouchesWiring(e) {
      QuietStep(s, e);
      SameWiringKeeps(s, Step(s, e));
    } else if e.LookupDone? {
      LookupDoneKeeps(s, e.hosts, e.broken);
    } else if e.ShutDown? {
      ShutDownKeeps(s);
    } else {
      SocketStepKeeps(s, e);
    }
  }

  lemma {:induction false} WiredInRuns(states: seq<System>, events: seq<Event>, n: nat)
    requires Run(states, events) && n <= |events|
    ensures Wired(states[n])
  {
    if n > 0 {
      WiredInRuns(states, events, n - 1);
      StepKeepsWiring(states[n - 1], events[n - 1]);
    }
  }
}
