/** What happens when a removed connection closes after its host was rediscovered: its object reconnects, and its
    socket misses every later broadcast. */
module StaleConnections {
  import opened Options
  import opened ReferenceCounts
  import opened StreamProtocol
  import opened StreamWiring
  import opened StreamSync
  import opened StreamLifecycle
  import Runs

  // ---------------------------------------------------------------------------------------------
  // From an untidy close to a socket that is out of step
  // ---------------------------------------------------------------------------------------------

  /** A socket that broadcasts do not reach loses the synchronisation with the first new key. */
  lemma UnheardKey(s: System, k: SockId, key: Key)
    requires SocketFits(s, k) && !Hears(s, k) && s.sockets[k].peer.alive && InSync(s, k)
    requires key != "" && key !in s.svcs
    ensures var after := Subscribed(s, Service, key);
            && SocketFits(after, k) && after.sockets[k] == s.sockets[k] && !InSync(after, k)
  {
    var after, host := Subscribed(s, Service, key), HostOf(s, k);
    assert after.sockets[k] == s.sockets[k];
    assert key in Wanted(after, host).1 && key !in Wanted(s, host).1;
  }

  /** The removed connection schedules a reconnect of its own. */
  lemma StaleTimer(s: System, j: SockId)
    requires Wired(s) && Enabled(s, SocketClosed(j)) && !Tidy(s, SocketClosed(j))
    ensures var s1, t, c := Step(s, SocketClosed(j)), |s.timers|, s.sockets[j].conn;
            && Wired(s1) && Enabled(s1, TimerFired(t, false)) && s1.timers[t].conn == c < |s1.conns| && !Mapped(s1, c)
            && !s1.shuttingDown && |s1.sockets| == |s.sockets| && s1.subs == s.subs && s1.svcs == s.svcs
  {
    StepKeepsWiring(s, SocketClosed(j));
  }

  /** Its timer constructs a socket. */
  lemma StaleSocket(s: System, t: TimerId)
    requires Wired(s) && Enabled(s, TimerFired(t, false)) && !s.shuttingDown && !Mapped(s, s.timers[t].conn)
    ensures var after, k := Step(s, TimerFired(t, false)), |s.sockets|;
            && Wired(after) && SocketFits(after, k) && after.sockets[k].state == Connecting
            && Untouched(after.sockets[k]) && after.sockets[k].peer.alive && !Mapped(after, after.sockets[k].conn)
            && after.subs == s.subs && after.svcs == s.svcs
  {
    StepKeepsWiring(s, TimerFired(t, false));
  }

  /** The socket opens, and its streamer gets all keys there are by then. */
  lemma StaleOpen(s: System, k: SockId, containerOrder: seq<Key>, serviceOrder: seq<Key>)
    requires Wired(s) && SocketFits(s, k) && s.sockets[k].state == Connecting && Untouched(s.sockets[k])
    requires s.sockets[k].peer.alive && !Mapped(s, s.sockets[k].conn)
    requires ListsOnce(containerOrder, s.subs.Keys) && ListsOnce(serviceOrder, s.svcs.Keys)
    ensures var after := Step(s, SocketOpened(k, containerOrder, serviceOrder));
            && SocketFits(after, k) && after.sockets[k].state == Open && after.sockets[k].peer.alive
            && InSync(after, k) && !Hears(after, k) && after.svcs == s.svcs
  {
    OpenHandlerSendsOnItsOwnSocket(s, k, containerOrder, serviceOrder);
    OpenedSyncsTheSocket(s, k, containerOrder, serviceOrder);
  }

  /** Whenever a close is not tidy, these steps are possible after it, and leave an open socket whose streamer never
      hears of the new key. */
  lemma UntidyCloseLosesSync(s: System, j: SockId, containerOrder: seq<Key>, serviceOrder: seq<Key>, key: Key)
    requires Wired(s) && Enabled(s, SocketClosed(j)) && !Tidy(s, SocketClosed(j))
    requires ListsOnce(containerOrder, s.subs.Keys) && ListsOnce(serviceOrder, s.svcs.Keys)
    requires key != "" && key !in s.svcs
    ensures var k := |s.sockets|;
            var fire, open, call :=
              TimerFired(|s.timers|, false), SocketOpened(k, containerOrder, serviceOrder), SubscribeCall(Service, key);
            var s1 := Step(s, SocketClosed(j));
            && Enabled(s1, fire) && var s2 := Step(s1, fire);
            && Enabled(s2, open) && var s3 := Step(s2, open);
            && Enabled(s3, call) && var s4 := Step(s3, call);
            && SocketFits(s4, k) && s4.sockets[k].state == Open && !InSync(s4, k)
  {
    var k, t := |s.sockets|, |s.timers|;
    StaleTimer(s, j);
    var s1 := Step(s, SocketClosed(j));
    StaleSocket(s1, t);
    var s2 := Step(s1, TimerFired(t, false));
    StaleOpen(s2, k, containerOrder, serviceOrder);
    UnheardKey(Step(s2, SocketOpened(k, containerOrder, serviceOrder)), k, key);
  }

  // ---------------------------------------------------------------------------------------------
  // Tidiness is exactly what keeps every open socket in step
  // ---------------------------------------------------------------------------------------------

  /** Every open socket there is, mapped or not, is in sync. */
  ghost predicate AllInSync(s: System) {
    forall j: nat | j < |s.sockets| && s.sockets[j].state == Open :: SocketFits(s, j) && InSync(s, j)
  }

  /** All open sockets are in sync, and stay so through these events as long as they are possible and tidy. */
  ghost predicate StaysInSync(s: System, events: seq<Event>)
    decreases |events|
  {
    && AllInSync(s)
    && (events != [] && Enabled(s, events[0]) && Tidy(s, events[0]) ==> StaysInSync(Step(s, events[0]), events[1..]))
  }

  /** Whatever follows, unless a close is untidy, all open sockets are in sync. */
  ghost predicate Safe(s: System) {
    forall events: seq<Event> :: StaysInSync(s, events)
  }

  lemma {:induction false} CurrentStaysInSync(s: System, events: seq<Event>)
    requires Wired(s) && Synced(s) && Current(s)
    ensures StaysInSync(s, events)
    decreases |events|
  {
    forall j: nat | j < |s.sockets| && s.sockets[j].state == Open ensures SocketFits(s, j) && InSync(s, j) {
      assert Hears(s, j);
    }
    if events != [] && Enabled(s, events[0]) && Tidy(s, events[0]) {
      StepKeepsWiring(s, events[0]);
      StepKeepsSync(s, events[0]);
      StepKeepsCurrentWhenTidy(s, events[0]);
      CurrentStaysInSync(Step(s, events[0]), events[1..]);
    }
  }

  lemma TidyStepStaysSafe(s: System, e: Event)
    requires Safe(s) && Enabled(s, e) && Tidy(s, e)
    ensures Safe(Step(s, e))
  {
    forall events: seq<Event> ensures StaysInSync(Step(s, e), events) {
      assert StaysInSync(s, [e] + events);
      assert ([e] + events)[1..] == events;
    }
  }

  /** Some order lists the keys. */
  lemma {:induction false} Listing(keys: set<Key>) returns (order: seq<Key>)
    ensures ListsOnce(order, keys)
    decreases |keys|
  {
    order := [];
    if keys != {} {
      var key :| key in keys;
      var rest := Listing(keys - {key});
      order := rest + [key];
      ElementsAppend(rest, key);
    }
  }

  lemma {:induction false} LongerKey(keys: set<Key>) returns (n: nat)
    ensures forall key <- keys :: |key| < n
    decreases |keys|
  {
    n := 0;
    if keys != {} {
      var key :| key in keys;
      var m := LongerKey(keys - {key});
      n := if |key| < m then m else |key| + 1;
    }
  }

  lemma NewKey(keys: set<Key>) returns (key: Key)
    ensures key != "" && key !in keys
  {
    var n := LongerKey(keys);
    key := seq(n + 1, i => 'a');
  }

  lemma SafeIsInSync(s: System)
    requires Safe(s)
    ensures AllInSync(s)
  {
    assert StaysInSync(s, []);
  }

  lemma SafeThroughTidySteps(s: System, a: Event, b: Event, c: Event)
    requires Safe(s) && !a.SocketClosed? && !b.SocketClosed? && !c.SocketClosed?
    requires Enabled(s, a) && Enabled(Step(s, a), b) && Enabled(Step(Step(s, a), b), c)
    ensures AllInSync(Step(Step(Step(s, a), b), c))
  {
    TidyStepStaysSafe(s, a);
    TidyStepStaysSafe(Step(s, a), b);
    TidyStepStaysSafe(Step(Step(s, a), b), c);
    SafeIsInSync(Step(Step(Step(s, a), b), c));
  }

  lemma UntidyStepIsNotSafe(s: System, e: Event)
    requires Wired(s) && Enabled(s, e) && !Tidy(s, e)
    ensures !Safe(Step(s, e))
  {
    var containerOrder := Listing(s.subs.Keys);
    var serviceOrder := Listing(s.svcs.Keys);
    var key := NewKey(s.svcs.Keys);
    UntidyCloseLosesSync(s, e.sock, containerOrder, serviceOrder, key);
    var fire, open := TimerFired(|s.timers|, false), SocketOpened(|s.sockets|, containerOrder, serviceOrder);
    var call := SubscribeCall(Service, key);
    if Safe(Step(s, e)) {
      SafeThroughTidySteps(Step(s, e), fire, open, call);
    }
  }

  ghost predicate SafeAt(states: seq<System>, n: nat) {
    n < |states| ==> Safe(states[n])
  }

  lemma SafeAfterStepOfRun(states: seq<System>, events: seq<Event>, n: nat)
    requires Run(states, events) && n < |events| && SafeAt(states, n)
    ensures SafeAt(states, n + 1) <==> TidyAt(states, events, n)
  {
    var next: nat := n + 1;
    RunStep(states, events, n, next);
    if Tidy(states[n], events[n]) {
      TidyStepStaysSafe(states[n], events[n]);
    } else {
      WiredInRuns(states, events, n);
      UntidyStepIsNotSafe(states[n], events[n]);
    }
  }

  lemma SafeAtFirst(states: seq<System>, events: seq<Event>)
    requires Run(states, events)
    ensures SafeAt(states, 0)
  {
    WiredInRuns(states, events, 0);
    SyncedInRuns(states, events, 0);
    forall more: seq<Event> ensures StaysInSync(states[0], more) {
      CurrentStaysInSync(states[0], more);
    }
  }

  /** Over a whole run: all open sockets are in sync in every state, and in whatever follows without untidy closes,
      if and only if no close of the run is untidy. */
  lemma SyncExactlyInTidyRuns(states: seq<System>, events: seq<Event>, n: nat)
    requires Run(states, events) && n <= |events|
    ensures (forall i: nat | i <= n :: SafeAt(states, i)) <==> (forall i: nat | i < n :: TidyAt(states, events, i))
  {
    SafeAtFirst(states, events);
    forall i: nat | i < n && SafeAt(states, i) ensures SafeAt(states, i + 1) <==> TidyAt(states, events, i) {
      SafeAfterStepOfRun(states, events, i);
    }
    var good := (i: nat) => SafeAt(states, i);
    var allowed := (i: nat) => TidyAt(states, events, i);
    Runs.GoodExactlyWhileAllowed(good, allowed, n);
    forall i: nat ensures good(i) <==> SafeAt(states, i) {}
    forall i: nat ensures allowed(i) <==> TidyAt(states, events, i) {}
  }

  // ---------------------------------------------------------------------------------------------
  // Such a run
  // ---------------------------------------------------------------------------------------------

  const FRESH_PEER := Peer(true, {}, {})

  lemma Discover(present: map<Host, set<Key>>) returns (states: seq<System>, events: seq<Event>)
    ensures Run(states, events)
    ensures states[|events|] == System(false, 0, map["a" := 0], map[], map[],
                                       [Conn("a", Some(0), None, 0)], [Socket(0, Connecting, [], FRESH_PEER)], [],
                                       present)
  {
    states, events := [StartOn(present)], [];
    states := ExtendRun(states, events, LookupStarted);
    events := events + [LookupStarted];
    var found := LookupDone(["a"], {});
    AddOneHost(CloseHosts(states[1], {}), "a");
    states := ExtendRun(states, events, found);
    events := events + [found];
  }

  lemma DiscoverAndLose(present: map<Host, set<Key>>) returns (states: seq<System>, events: seq<Event>)
    ensures Run(states, events)
    ensures states[|events|] == System(false, 0, map[], map[], map[],
                                       [Conn("a", None, None, 0)], [Socket(0, Closing, [], FRESH_PEER)], [], present)
  {
    states, events := Discover(present);
    states := ExtendRun(states, events, LookupStarted);
    events := events + [LookupStarted];
    var lost := LookupDone([], {});
    assert Elements<Host>([]) == {};
    states := ExtendRun(states, events, lost);
    events := events + [lost];
  }

  lemma Rediscover(present: map<Host, set<Key>>) returns (states: seq<System>, events: seq<Event>)
    ensures Run(states, events)
    ensures states[|events|] == System(false, 0, map["a" := 1], map[], map[],
                                       [Conn("a", None, None, 0), Conn("a", Some(1), None, 0)],
                                       [Socket(0, Closing, [], FRESH_PEER), Socket(1, Connecting, [], FRESH_PEER)],
                                       [], present)
  {
    states, events := DiscoverAndLose(present);
    states := ExtendRun(states, events, LookupStarted);
    events := events + [LookupStarted];
    var found := LookupDone(["a"], {});
    AddOneHost(CloseHosts(states[|events|], {}), "a");
    states := ExtendRun(states, events, found);
    events := events + [found];
  }

  lemma OldSocketCloses(present: map<Host, set<Key>>) returns (states: seq<System>, events: seq<Event>)
    ensures Run(states, events)
    ensures states[|events|] == System(false, 0, map["a" := 1], map[], map[],
                                       [Conn("a", Some(2), Some(0), 1), Conn("a", Some(1), None, 0)],
                                       [Socket(0, Closed, [], FRESH_PEER), Socket(1, Connecting, [], FRESH_PEER),
                                        Socket(0, Connecting, [], FRESH_PEER)],
                                       [Timer(0, 1000, false)], present)
  {
    states, events := Rediscover(present);
    states := ExtendRun(states, events, SocketClosed(0));
    events := events + [SocketClosed(0)];
    states := ExtendRun(states, events, TimerFired(0, false));
    events := events + [TimerFired(0, false)];
  }

  lemma NewSocketOpens(present: map<Host, set<Key>>) returns (states: seq<System>, events: seq<Event>)
    ensures Run(states, events)
    ensures states[|events|] == System(false, 0, map["a" := 1], map[], map[],
                                       [Conn("a", Some(2), Some(0), 1), Conn("a", Some(1), None, 0)],
                                       [Socket(0, Closed, [], FRESH_PEER), Socket(1, Open, [], FRESH_PEER),
                                        Socket(0, Connecting, [], FRESH_PEER)],
                                       [Timer(0, 1000, false)], present)
  {
    states, events := OldSocketCloses(present);
    assert Resend(Container, []) + Resend(Service, []) == [];
    states := ExtendRun(states, events, SocketOpened(1, [], []));
    events := events + [SocketOpened(1, [], [])];
  }

  lemma BothSocketsOpen(present: map<Host, set<Key>>) returns (states: seq<System>, events: seq<Event>)
    ensures Run(states, events)
    ensures states[|events|] == System(false, 0, map["a" := 1], map[], map[],
                                       [Conn("a", Some(2), Some(0), 0), Conn("a", Some(1), None, 0)],
                                       [Socket(0, Closed, [], FRESH_PEER), Socket(1, Open, [], FRESH_PEER),
                                        Socket(0, Open, [], FRESH_PEER)],
                                       [Timer(0, 1000, false)], present)
  {
    states, events := NewSocketOpens(present);
    assert Resend(Container, []) + Resend(Service, []) == [];
    states := ExtendRun(states, events, SocketOpened(2, [], []));
    events := events + [SocketOpened(2, [], [])];
  }

  /** A host disappears and is discovered again before its old socket reports the close: the old
      connection object reconnects, both sockets are open, and the old one misses the broadcasts. */
  lemma StaleConnectionMissesBroadcasts(present: map<Host, set<Key>>) returns (states: seq<System>, events: seq<Event>)
    ensures Run(states, events)
    ensures var s := states[|events|];
            && |s.sockets| == 3 && s.sockets[1].state == Open && s.sockets[2].state == Open
            && s.sockets[2].peer.alive && SocketFits(s, 1) && SocketFits(s, 2) && HostOf(s, 1) == HostOf(s, 2)
            && InSync(s, 1) && !InSync(s, 2)
  {
    states, events := BothSocketsOpen(present);
    var call := SubscribeCall(Service, "web");
    states := ExtendRun(states, events, call);
    events := events + [call];
    SyncedInRuns(states, events, |events|);
    var s := states[|events|];
    assert Hears(s, 1);
    assert InSync(s, 1);
    assert s.sockets[2] == Socket(0, Open, [], FRESH_PEER);
    assert "web" in Wanted(s, "a").1;
    assert Replay(FRESH_PEER, [], PresentOn(s, "a")) == FRESH_PEER;
  }
}
