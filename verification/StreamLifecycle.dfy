/** The life of connections: sockets, timers, backoff, removal and shutdown, over all runs. */
module StreamLifecycle {
  import opened Options
  import opened ReferenceCounts
  import opened StreamProtocol
  import opened StreamWiring
  import opened StreamSync
  import Runs

  ghost predicate HasSocket(s: System, c: ConnId) {
    exists j: nat :: Unclosed(s, j) && s.sockets[j].conn == c
  }

  ghost predicate HasTimer(s: System, c: ConnId) {
    exists t: nat :: Pending(s, t) && s.timers[t].conn == c
  }

  /** Until shutdown every mapped connection has exactly one socket that is not closed or exactly one
      pending reconnect timer, and never both. */
  lemma ExactlyOneActivity(states: seq<System>, events: seq<Event>, n: nat, host: Host)
    requires Run(states, events) && n <= |events| && !states[n].shuttingDown && host in states[n].connections
    ensures var s := states[n];
            var c := s.connections[host];
            && (HasSocket(s, c) <==> !HasTimer(s, c))
            && (forall j: nat, k: nat | Unclosed(s, j) && Unclosed(s, k)
                                        && s.sockets[j].conn == c == s.sockets[k].conn :: j == k)
            && (forall t: nat, u: nat | Pending(s, t) && Pending(s, u)
                                        && s.timers[t].conn == c == s.timers[u].conn :: t == u)
  {
    WiredInRuns(states, events, n);
    assert Covered(states[n], states[n].connections[host]);
  }

  // ---------------------------------------------------------------------------------------------
  // Reconciliation
  // ---------------------------------------------------------------------------------------------

  lemma {:induction false} AddHostsMapsThem(s: System, hosts: seq<Host>, broken: set<Host>)
    ensures AddHosts(s, hosts, broken).connections.Keys == s.connections.Keys + Elements(hosts)
    decreases |hosts|
  {
    if hosts != [] {
      AddHostsMapsThem(AddHost(s, hosts[0], hosts[0] in broken), hosts[1..], broken);
      assert hosts == [hosts[0]] + hosts[1..];
      assert Elements(hosts) == {hosts[0]} + Elements(hosts[1..]);
    }
  }

  /** After a reconcile the mapped hosts are the discovered ones, even when the answer comes after shutdown. */
  lemma ReconcileMapsTheDiscoveredHosts(s: System, hosts: seq<Host>, broken: set<Host>)
    requires s.lookups > 0
    ensures Step(s, LookupDone(hosts, broken)).connections.Keys == Elements(hosts)
  {
    AddHostsMapsThem(CloseHosts(s, s.connections.Keys - Elements(hosts)), hosts, broken);
  }

  // ---------------------------------------------------------------------------------------------
  // Shutdown
  // ---------------------------------------------------------------------------------------------

  lemma {:induction false} AddHostsDuringShutdown(s: System, hosts: seq<Host>, broken: set<Host>)
    requires s.shuttingDown
    ensures var after := AddHosts(s, hosts, broken);
            after.shuttingDown && after.sockets == s.sockets && after.timers == s.timers
    decreases |hosts|
  {
    if hosts != [] {
      AddHostsDuringShutdown(AddHost(s, hosts[0], hosts[0] in broken), hosts[1..], broken);
    }
  }

  ghost predicate NothingNew(s: System, after: System) {
    after.shuttingDown && |after.sockets| == |s.sockets| && |after.timers| == |s.timers|
  }

  lemma ReconciledDuringShutdown(s: System, hosts: seq<Host>, broken: set<Host>)
    requires s.shuttingDown
    ensures NothingNew(s, Reconciled(s, hosts, broken))
  {
    AddHostsDuringShutdown(CloseHosts(s, s.connections.Keys - Elements(hosts)), hosts, broken);
  }

  lemma SocketStepDuringShutdown(s: System, e: Event)
    requires s.shuttingDown && Enabled(s, e)
    requires e.SocketOpened? || e.SocketClosing? || e.SocketClosed? || e.TimerFired?
    ensures NothingNew(s, Step(s, e))
  {
  }

  lemma StepDuringShutdown(s: System, e: Event)
    requires s.shuttingDown && Enabled(s, e)
    ensures NothingNew(s, Step(s, e))
  {
    if !TouchesWiring(e) {
      QuietStep(s, e);
    } else if e.LookupDone? {
      ReconciledDuringShutdown(s, e.hosts, e.broken);
    } else if !e.ShutDown? {
      SocketStepDuringShutdown(s, e);
    }
  }

  lemma RunStep(states: seq<System>, events: seq<Event>, k: nat, n: nat)
    requires Run(states, events) && n == k + 1 <= |events|
    ensures Enabled(states[k], events[k]) && states[n] == Step(states[k], events[k])
  {
  }

  /** After shutdown no step of any run constructs a socket or sets a timer. */
  lemma {:induction false} NothingIsCreatedAfterShutdown(states: seq<System>, events: seq<Event>, m: nat, n: nat)
    requires Run(states, events) && m <= n <= |events| && states[m].shuttingDown
    ensures states[n].shuttingDown
    ensures |states[n].sockets| == |states[m].sockets| && |states[n].timers| == |states[m].timers|
  {
    if m < n {
      var k: nat := n - 1;
      NothingIsCreatedAfterShutdown(states, events, m, k);
      RunStep(states, events, k, n);
      StepDuringShutdown(states[k], events[k]);
    }
  }

  /** After shutdown only an answer of a lookup that was still under way can fill the table again. */
  predicate Refills(e: Event) {
    e.LookupDone? && Elements(e.hosts) != {}
  }

  lemma EmptyTableStep(s: System, e: Event)
    requires s.shuttingDown && s.connections == map[] && Enabled(s, e)
    ensures Step(s, e).connections == map[] <==> !Refills(e)
  {
    if !TouchesWiring(e) {
      QuietStep(s, e);
    } else if e.LookupDone? {
      ReconcileMapsTheDiscoveredHosts(s, e.hosts, e.broken);
      assert Step(s, e).connections == map[] <==> Step(s, e).connections.Keys == {};
    }
  }

  ghost predicate EmptyFromTo(states: seq<System>, m: nat, n: nat)
    requires n < |states|
  {
    forall i: nat | m <= i <= n :: states[i].connections == map[]
  }

  predicate NotRefilled(events: seq<Event>, m: nat, n: nat)
    requires n <= |events|
  {
    forall i: nat | m <= i < n :: !Refills(events[i])
  }

  lemma OneMoreEmpty(states: seq<System>, m: nat, k: nat)
    requires m <= k && k + 1 < |states|
    ensures EmptyFromTo(states, m, k + 1) <==> EmptyFromTo(states, m, k) && states[k + 1].connections == map[]
  {
  }

  lemma OneMoreEvent(events: seq<Event>, m: nat, k: nat)
    requires m <= k < |events|
    ensures NotRefilled(events, m, k + 1) <==> NotRefilled(events, m, k) && !Refills(events[k])
  {
  }

  /** The shutdown empties the table, and over runs it stays empty exactly as long as no lookup answers with hosts. */
  lemma {:induction false} EmptyAfterShutdownExactly(states: seq<System>, events: seq<Event>, m: nat, n: nat)
    requires Run(states, events) && m <= n <= |events|
    requires states[m].shuttingDown && states[m].connections == map[]
    ensures EmptyFromTo(states, m, n) <==> NotRefilled(events, m, n)
  {
    if m < n {
      var k: nat := n - 1;
      EmptyAfterShutdownExactly(states, events, m, k);
      NothingIsCreatedAfterShutdown(states, events, m, k);
      RunStep(states, events, k, n);
      OneMoreEmpty(states, m, k);
      OneMoreEvent(events, m, k);
      if EmptyFromTo(states, m, k) {
        EmptyTableStep(states[k], events[k]);
      }
    }
  }

  predicate Answers(e: Event) {
    e.LookupDone? || e.LookupFailed?
  }

  function AnswersIn(events: seq<Event>, m: nat, n: nat): nat
    requires m <= n <= |events|
  {
    if m == n then 0 else AnswersIn(events, m, n - 1) + if Answers(events[n - 1]) then 1 else 0
  }

  lemma {:induction false} AddHostsKeepsLookups(s: System, hosts: seq<Host>, broken: set<Host>)
    ensures AddHosts(s, hosts, broken).lookups == s.lookups
    decreases |hosts|
  {
    if hosts != [] {
      AddHostsKeepsLookups(AddHost(s, hosts[0], hosts[0] in broken), hosts[1..], broken);
    }
  }

  lemma LookupStep(s: System, e: Event, after: System)
    requires s.shuttingDown && Enabled(s, e) && after == Step(s, e)
    ensures after.lookups + (if Answers(e) then 1 else 0) == s.lookups
  {
    if e.LookupDone? {
      AddHostsKeepsLookups(CloseHosts(s, s.connections.Keys - Elements(e.hosts)), e.hosts, e.broken);
    }
  }

  lemma {:induction false} AnswersNext(events: seq<Event>, m: nat, k: nat, n: nat)
    requires m <= k && n == k + 1 <= |events|
    ensures AnswersIn(events, m, n) == AnswersIn(events, m, k) + if Answers(events[k]) then 1 else 0
  {
  }

  lemma LookupsOfStep(states: seq<System>, events: seq<Event>, m: nat, k: nat, n: nat)
    requires Run(states, events) && m <= k && n == k + 1 <= |events| && states[m].shuttingDown
    ensures states[n].lookups + (if Answers(events[k]) then 1 else 0) == states[k].lookups
  {
    NothingIsCreatedAfterShutdown(states, events, m, k);
    RunStep(states, events, k, n);
    LookupStep(states[k], events[k], states[n]);
  }

  /** And after shutdown no lookup is started: those that were under way are answered, and no others. */
  lemma {:induction false} NoLookupStartsAfterShutdown(states: seq<System>, events: seq<Event>, m: nat, n: nat)
    requires Run(states, events) && m <= n <= |events| && states[m].shuttingDown
    ensures states[n].lookups + AnswersIn(events, m, n) == states[m].lookups
  {
    if m < n {
      var k: nat := n - 1;
      NoLookupStartsAfterShutdown(states, events, m, k);
      LookupsOfStep(states, events, m, k, n);
      AnswersNext(events, m, k, n);
    }
  }

  lemma ShutdownEmptiesTheTable(s: System)
    ensures Step(s, ShutDown).shuttingDown && Step(s, ShutDown).connections == map[]
  {
    assert s.connections - s.connections.Keys == map[];
  }

  function StartOn(present: map<Host, set<Key>>): System {
    System(false, 0, map[], map[], map[], [], [], [], present)
  }

  lemma ExtendRun(states: seq<System>, events: seq<Event>, e: Event) returns (more: seq<System>)
    requires Run(states, events) && Enabled(states[|events|], e)
    ensures more == states + [Step(states[|events|], e)]
    ensures Run(more, events + [e])
  {
    more := states + [Step(states[|events|], e)];
  }

  /** Such a run: the answer comes after the shutdown, and its host is mapped, to a connection without socket. */
  lemma AnswerAfterShutdown(present: map<Host, set<Key>>) returns (states: seq<System>)
    ensures var events := [LookupStarted, ShutDown, LookupDone(["a"], {})];
            && Run(states, events)
            && states[2] == StartOn(present).(lookups := 1, shuttingDown := true)
            && states[3] == StartOn(present).(shuttingDown := true, connections := map["a" := 0],
                                              conns := [Conn("a", None, None, 0)])
  {
    states := [StartOn(present)];
    states := ExtendRun(states, [], LookupStarted);
    states := ExtendRun(states, [LookupStarted], ShutDown);
    LateAnswer(states[2]);
    states := ExtendRun(states, [LookupStarted, ShutDown], LookupDone(["a"], {}));
  }

  lemma LateAnswer(s: System)
    requires s == StartOn(s.present).(lookups := 1, shuttingDown := true)
    ensures Step(s, LookupDone(["a"], {}))
         == s.(lookups := 0, connections := map["a" := 0], conns := [Conn("a", None, None, 0)])
  {
    AddOneHost(CloseHosts(s, {}), "a");
  }

  lemma {:induction false} AddOneHost(s: System, host: Host)
    ensures AddHosts(s, [host], {}) == AddHost(s, host, false)
  {
    assert AddHosts(AddHost(s, host, false), [], {}) == AddHost(s, host, false);
    assert [host][1..] == [];
  }

  // ---------------------------------------------------------------------------------------------
  // Backoff
  // ---------------------------------------------------------------------------------------------

  lemma {:induction false} Pow2Grows(m: nat, n: nat)
    requires m <= n
    ensures 1 <= Pow2(m) <= Pow2(n)
    decreases n
  {
    if m < n {
      Pow2Grows(m, n - 1);
    } else if n > 0 {
      Pow2Grows(m - 1, n - 1);
    }
  }

  /** The delay lies within 1 s and 30 s and never gets shorter with more attempts. */
  lemma BackoffGrows(m: nat, n: nat)
    requires 0 < m <= n
    ensures BASE_RECONNECT_MS <= Backoff(m) <= Backoff(n) <= MAX_RECONNECT_MS
    ensures Backoff(1) == BASE_RECONNECT_MS
    ensures n >= 6 ==> Backoff(n) == MAX_RECONNECT_MS
  {
    Pow2Grows(m - 1, n - 1);
    if n >= 6 {
      Pow2Grows(5, n - 1);
      assert Pow2(5) == 32 by { assert Pow2(2) == 4; assert Pow2(3) == 8; assert Pow2(4) == 16; }
    }
  }

  predicate Opens(s: System, e: Event, c: ConnId) {
    e.SocketOpened? && e.sock < |s.sockets| && s.sockets[e.sock].conn == c
  }

  ghost predicate AttemptsKept(s: System, after: System, c: ConnId) {
    c < |s.conns| ==> c < |after.conns| && s.conns[c].attempts <= after.conns[c].attempts
  }

  lemma {:induction false} AddHostsKeepsAttempts(s: System, hosts: seq<Host>, broken: set<Host>, c: ConnId)
    ensures AttemptsKept(s, AddHosts(s, hosts, broken), c)
    decreases |hosts|
  {
    if hosts != [] {
      AddHostsKeepsAttempts(AddHost(s, hosts[0], hosts[0] in broken), hosts[1..], broken, c);
    }
  }

  lemma ReconciledKeepsAttempts(s: System, hosts: seq<Host>, broken: set<Host>, c: ConnId)
    ensures AttemptsKept(s, Reconciled(s, hosts, broken), c)
  {
    AddHostsKeepsAttempts(CloseHosts(s, s.connections.Keys - Elements(hosts)), hosts, broken, c);
  }

  lemma SocketStepKeepsAttempts(s: System, e: Event, c: ConnId)
    requires Enabled(s, e) && !Opens(s, e, c)
    requires e.SocketOpened? || e.SocketClosing? || e.SocketClosed? || e.TimerFired?
    ensures AttemptsKept(s, Step(s, e), c)
  {
  }

  lemma StepKeepsAttempts(s: System, e: Event, c: ConnId)
    requires Enabled(s, e) && !Opens(s, e, c)
    ensures AttemptsKept(s, Step(s, e), c)
  {
    if !TouchesWiring(e) {
      QuietStep(s, e);
    } else if e.LookupDone? {
      ReconciledKeepsAttempts(s, e.hosts, e.broken, c);
    } else if !e.ShutDown? {
      SocketStepKeepsAttempts(s, e, c);
    }
  }

  lemma {:induction false} AttemptsGrowBetweenOpens(states: seq<System>, events: seq<Event>, m: nat, n: nat, c: ConnId)
    requires Run(states, events) && m <= n <= |events| && c < |states[m].conns|
    requires forall i | m <= i < n :: !Opens(states[i], events[i], c)
    ensures AttemptsKept(states[m], states[n], c)
  {
    if m < n {
      var k: nat := n - 1;
      AttemptsGrowBetweenOpens(states, events, m, k, c);
      RunStep(states, events, k, n);
      StepKeepsAttempts(states[k], events[k], c);
    }
  }

  /** Of two timers of one connection, pending at different times with no open in between, the later
      one never waits shorter; every delay lies within the bounds. */
  lemma DelaysGrowBetweenOpens(states: seq<System>, events: seq<Event>, m: nat, n: nat, t: TimerId, u: TimerId)
    requires Run(states, events) && m <= n <= |events|
    requires Pending(states[m], t) && Pending(states[n], u) && states[m].timers[t].conn == states[n].timers[u].conn
    requires forall i | m <= i < n :: !Opens(states[i], events[i], states[m].timers[t].conn)
    ensures BASE_RECONNECT_MS <= states[m].timers[t].delay <= states[n].timers[u].delay <= MAX_RECONNECT_MS
  {
    var c := states[m].timers[t].conn;
    WiredInRuns(states, events, m);
    WiredInRuns(states, events, n);
    AttemptsGrowBetweenOpens(states, events, m, n, c);
    BackoffGrows(states[m].conns[c].attempts, states[n].conns[c].attempts);
  }

  // ---------------------------------------------------------------------------------------------
  // Removed connections
  // ---------------------------------------------------------------------------------------------

  /** A connection object that is out of the table and has neither socket nor timer. */
  ghost predicate Dead(s: System, c: ConnId) {
    c < |s.conns| && !Mapped(s, c) && Idle(s, c)
  }

  lemma {:induction false} AddHostsKeepsDead(s: System, hosts: seq<Host>, broken: set<Host>, c: ConnId)
    requires Dead(s, c)
    ensures Dead(AddHosts(s, hosts, broken), c)
    decreases |hosts|
  {
    if hosts != [] {
      AddHostsKeepsDead(AddHost(s, hosts[0], hosts[0] in broken), hosts[1..], broken, c);
    }
  }

  lemma CloseHostsKeepsDead(s: System, hosts: set<Host>, c: ConnId)
    requires Dead(s, c)
    ensures Dead(CloseHosts(s, hosts), c)
  {
  }

  lemma ReconciledKeepsDead(s: System, hosts: seq<Host>, broken: set<Host>, c: ConnId)
    requires Dead(s, c)
    ensures Dead(Reconciled(s, hosts, broken), c)
  {
    var stale := s.connections.Keys - Elements(hosts);
    CloseHostsKeepsDead(s, stale, c);
    AddHostsKeepsDead(CloseHosts(s, stale), hosts, broken, c);
  }

  lemma SentOnOpenKeepsDead(s: System, j: SockId, messages: seq<Message>, c: ConnId)
    requires Dead(s, c) && SocketFits(s, j) && s.sockets[j].state == Connecting
    ensures Dead(SentOnOpen(s, j, messages), c)
  {
  }

  lemma SocketStepKeepsDead(s: System, e: Event, c: ConnId)
    requires Dead(s, c) && Enabled(s, e) && (e.SocketClosing? || e.SocketClosed?)
    ensures Dead(Step(s, e), c)
  {
  }

  lemma TimerStepKeepsDead(s: System, t: TimerId, fails: bool, c: ConnId)
    requires Dead(s, c) && Enabled(s, TimerFired(t, fails))
    ensures Dead(Step(s, TimerFired(t, fails)), c)
  {
  }

  lemma StepKeepsDead(s: System, e: Event, c: ConnId)
    requires Wired(s) && Dead(s, c) && Enabled(s, e)
    ensures Dead(Step(s, e), c)
  {
    if !TouchesWiring(e) {
      QuietStep(s, e);
    } else {
      match e
      case LookupDone(hosts, broken) => ReconciledKeepsDead(s, hosts, broken, c);
      case ShutDown => CloseHostsKeepsDead(s.(shuttingDown := true), s.connections.Keys, c);
      case TimerFired(t, fails) => TimerStepKeepsDead(s, t, fails, c);
      case SocketOpened(j, containerOrder, serviceOrder) =>
        OpenHandlerSendsOnItsOwnSocket(s, j, containerOrder, serviceOrder);
        SentOnOpenKeepsDead(s, j, Resend(Container, containerOrder) + Resend(Service, serviceOrder), c);
      case _ => SocketStepKeepsDead(s, e, c);
    }
  }

  /** A dead connection object never gets a socket or a timer again. */
  lemma {:induction false} DeadStaysDead(states: seq<System>, events: seq<Event>, m: nat, n: nat, c: ConnId)
    requires Run(states, events) && m <= n <= |events| && Dead(states[m], c)
    ensures Dead(states[n], c)
  {
    if m < n {
      DeadStaysDead(states, events, m, n - 1, c);
      WiredInRuns(states, events, n - 1);
      StepKeepsDead(states[n - 1], events[n - 1], c);
    }
  }

  /** The close event of a removed connection leaves it dead exactly when its host is not in the table
      again by then, or the gateway is shutting down. */
  lemma RemovedConnectionDiesUnlessRediscovered(s: System, j: SockId)
    requires Wired(s) && Enabled(s, SocketClosed(j)) && !Mapped(s, s.sockets[j].conn)
    ensures var c := s.sockets[j].conn;
            Dead(Step(s, SocketClosed(j)), c) <==> (s.shuttingDown || s.conns[c].host !in s.connections)
  {
    var c := s.sockets[j].conn;
    var after := Step(s, SocketClosed(j));
    if !s.shuttingDown && s.conns[c].host in s.connections {
      assert after.timers[|s.timers|].pending && after.timers[|s.timers|].conn == c;
    }
  }

  /** Every connecting or open socket and every pending timer belongs to a mapped connection. */
  ghost predicate Current(s: System) {
    && (forall j: nat | j < |s.sockets| && s.sockets[j].state in {Connecting, Open} :: Mapped(s, s.sockets[j].conn))
    && (forall t: nat | t < |s.timers| && s.timers[t].pending :: Mapped(s, s.timers[t].conn))
  }

  /** A removed connection's close event does not find its host back in the table. */
  predicate Tidy(s: System, e: Event) {
    e.SocketClosed? && e.sock < |s.sockets| && s.sockets[e.sock].conn < |s.conns|
        && !Mapped(s, s.sockets[e.sock].conn) ==>
      s.shuttingDown || s.conns[s.sockets[e.sock].conn].host !in s.connections
  }

  lemma NotClosedSocket(s: System, hosts: set<Host>, j: nat)
    requires Wired(s) && Current(s) && j < |s.sockets| && ClosedSocket(s, hosts, j).state in {Connecting, Open}
    ensures Mapped(CloseHosts(s, hosts), s.sockets[j].conn)
  {
    assert Mapped(s, s.sockets[j].conn);
  }

  lemma NotClearedTimer(s: System, hosts: set<Host>, t: nat)
    requires Wired(s) && Current(s) && t < |s.timers| && ClearedTimer(s, hosts, t).pending
    ensures Mapped(CloseHosts(s, hosts), s.timers[t].conn)
  {
    assert Mapped(s, s.timers[t].conn);
  }

  lemma CloseHostsKeepsCurrent(s: System, hosts: set<Host>)
    requires Wired(s) && Current(s)
    ensures Current(CloseHosts(s, hosts))
  {
    var after := CloseHosts(s, hosts);
    forall j: nat | j < |after.sockets| && after.sockets[j].state in {Connecting, Open}
      ensures Mapped(after, after.sockets[j].conn)
    {
      NotClosedSocket(s, hosts, j);
    }
    forall t: nat | t < |after.timers| && after.timers[t].pending ensures Mapped(after, after.timers[t].conn) {
      NotClearedTimer(s, hosts, t);
    }
  }

  lemma AddHostKeepsCurrent(s: System, host: Host, fails: bool)
    requires TableFits(s) && Current(s)
    ensures Current(AddHost(s, host, fails))
  {
    if host !in s.connections {
      var c := |s.conns|;
      var before := s.(conns := s.conns + [Conn(host, None, None, 0)], connections := s.connections[host := c]);
      assert Current(before);
    }
  }

  lemma {:induction false} AddHostsKeepsCurrent(s: System, hosts: seq<Host>, broken: set<Host>)
    requires Wired(s) && Current(s)
    ensures Current(AddHosts(s, hosts, broken))
    decreases |hosts|
  {
    if hosts != [] {
      AddHostKeeps(s, hosts[0], hosts[0] in broken);
      AddHostKeepsCurrent(s, hosts[0], hosts[0] in broken);
      AddHostsKeepsCurrent(AddHost(s, hosts[0], hosts[0] in broken), hosts[1..], broken);
    }
  }

  lemma ReconciledKeepsCurrent(s: System, hosts: seq<Host>, broken: set<Host>)
    requires Wired(s) && Current(s)
    ensures Current(Reconciled(s, hosts, broken))
  {
    var stale := s.connections.Keys - Elements(hosts);
    CloseHostsKeeps(s, stale);
    CloseHostsKeepsCurrent(s, stale);
    AddHostsKeepsCurrent(CloseHosts(s, stale), hosts, broken);
  }

  lemma TidyCloseKeepsCurrent(s: System, j: SockId)
    requires TableFits(s) && Current(s) && Enabled(s, SocketClosed(j)) && Tidy(s, SocketClosed(j))
    ensures Current(Step(s, SocketClosed(j)))
  {
  }

  lemma ClosedKeepsCurrentWhenTidy(s: System, j: SockId)
    requires TableFits(s) && Current(s) && Enabled(s, SocketClosed(j))
    ensures Current(Step(s, SocketClosed(j))) <==> Tidy(s, SocketClosed(j))
  {
    if Tidy(s, SocketClosed(j)) {
      TidyCloseKeepsCurrent(s, j);
    } else {
      var after := Step(s, SocketClosed(j));
      assert after.timers[|s.timers|].pending && !Mapped(after, after.timers[|s.timers|].conn);
    }
  }

  lemma QuietKeepsCurrent(s: System, after: System)
    requires Current(s) && SameWiring(s, after)
    ensures Current(after)
  {
    forall j: nat | j < |after.sockets| && after.sockets[j].state in {Connecting, Open}
      ensures Mapped(after, after.sockets[j].conn)
    {
      assert Mapped(s, s.sockets[j].conn);
    }
  }

  lemma SentOnOpenKeepsCurrent(s: System, j: SockId, messages: seq<Message>)
    requires Current(s) && SocketFits(s, j) && s.sockets[j].state == Connecting
    ensures Current(SentOnOpen(s, j, messages))
  {
    var after := SentOnOpen(s, j, messages);
    forall k: nat | k < |after.sockets| && after.sockets[k].state in {Connecting, Open}
      ensures Mapped(after, after.sockets[k].conn)
    {
      assert Mapped(s, s.sockets[k].conn);
    }
  }

  lemma OpenedKeepsCurrent(s: System, j: SockId, containerOrder: seq<Key>, serviceOrder: seq<Key>)
    requires Wired(s) && Current(s) && j < |s.sockets| && s.sockets[j].state == Connecting
    ensures Current(Opened(s, j, containerOrder, serviceOrder))
  {
    OpenHandlerSendsOnItsOwnSocket(s, j, containerOrder, serviceOrder);
    SentOnOpenKeepsCurrent(s, j, Resend(Container, containerOrder) + Resend(Service, serviceOrder));
  }

  lemma FiredKeepsCurrent(s: System, t: TimerId, fails: bool)
    requires TableFits(s) && Current(s) && Enabled(s, TimerFired(t, fails))
    ensures Current(Step(s, TimerFired(t, fails)))
  {
    assert Mapped(s, s.timers[t].conn);
  }

  lemma LookupDoneKeepsCurrent(s: System, hosts: seq<Host>, broken: set<Host>)
    requires Wired(s) && Current(s) && s.lookups > 0
    ensures Current(Step(s, LookupDone(hosts, broken)))
  {
    ReconciledKeepsCurrent(s, hosts, broken);
    QuietKeepsCurrent(Reconciled(s, hosts, broken), Step(s, LookupDone(hosts, broken)));
  }

  lemma ShutDownKeepsCurrent(s: System)
    requires Wired(s) && Current(s)
    ensures Current(CloseHosts(s.(shuttingDown := true), s.connections.Keys))
  {
    ShuttingDownKeepsWiring(s);
    CloseHostsKeepsCurrent(s.(shuttingDown := true), s.connections.Keys);
  }

  /** One step keeps every activity with a mapped connection exactly when it is tidy. */
  lemma StepKeepsCurrentWhenTidy(s: System, e: Event)
    requires Wired(s) && Current(s) && Enabled(s, e)
    ensures Current(Step(s, e)) <==> Tidy(s, e)
  {
    if !TouchesWiring(e) {
      QuietStep(s, e);
      QuietKeepsCurrent(s, Step(s, e));
    } else {
      match e
      case SocketClosed(j) => ClosedKeepsCurrentWhenTidy(s, j);
      case LookupDone(hosts, broken) => LookupDoneKeepsCurrent(s, hosts, broken);
      case ShutDown => ShutDownKeepsCurrent(s);
      case SocketOpened(j, containerOrder, serviceOrder) => OpenedKeepsCurrent(s, j, containerOrder, serviceOrder);
      case TimerFired(t, fails) => FiredKeepsCurrent(s, t, fails);
      case _ =>
    }
  }

  ghost predicate CurrentAt(states: seq<System>, n: nat) {
    n < |states| ==> Current(states[n])
  }

  predicate TidyAt(states: seq<System>, events: seq<Event>, n: nat) {
    n < |states| && n < |events| ==> Tidy(states[n], events[n])
  }

  lemma CurrentAfterStepOfRun(states: seq<System>, events: seq<Event>, n: nat)
    requires Run(states, events) && n < |events| && CurrentAt(states, n)
    ensures CurrentAt(states, n + 1) <==> TidyAt(states, events, n)
  {
    WiredInRuns(states, events, n);
    StepKeepsCurrentWhenTidy(states[n], events[n]);
  }

  /** Over a whole run: all activity stays with mapped connections if and only if every step is tidy. */
  lemma CurrentExactlyInTidyRuns(states: seq<System>, events: seq<Event>, n: nat)
    requires Run(states, events) && n <= |events|
    ensures (forall i: nat | i <= n :: CurrentAt(states, i)) <==> (forall i: nat | i < n :: TidyAt(states, events, i))
  {
    assert CurrentAt(states, 0);
    forall i: nat | i < n && CurrentAt(states, i) ensures CurrentAt(states, i + 1) <==> TidyAt(states, events, i) {
      CurrentAfterStepOfRun(states, events, i);
    }
    var good := (i: nat) => CurrentAt(states, i);
    var allowed := (i: nat) => TidyAt(states, events, i);
    Runs.GoodExactlyWhileAllowed(good, allowed, n);
    forall i: nat ensures good(i) <==> CurrentAt(states, i) {}
    forall i: nat ensures allowed(i) <==> TidyAt(states, events, i) {}
  }

  /** In tidy runs the synchronisation holds of every open socket there is. */
  lemma TidyRunsSyncEveryOpenSocket(states: seq<System>, events: seq<Event>, n: nat, j: SockId)
    requires Run(states, events) && n <= |events|
    requires forall i: nat | i < n :: TidyAt(states, events, i)
    requires j < |states[n].sockets| && states[n].sockets[j].state == Open
    ensures SocketFits(states[n], j) && InSync(states[n], j)
  {
    CurrentExactlyInTidyRuns(states, events, n);
    WiredInRuns(states, events, n);
    SyncedInRuns(states, events, n);
    assert CurrentAt(states, n);
    assert Hears(states[n], j);
  }
}
