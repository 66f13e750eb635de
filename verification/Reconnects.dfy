/** Reconnecting: every retry is counted, and its number since the last open decides how long it waits. */
module Reconnects {
  import opened Options
  import opened ReferenceCounts
  import opened StreamProtocol
  import opened StreamWiring
  import opened StreamLifecycle

  /** The wait before retry number `k` since the last open, in milliseconds. */
  function RetryDelay(k: int): nat {
    match k
    case 1 => 1000
    case 2 => 2000
    case 3 => 4000
    case 4 => 8000
    case 5 => 16000
    case _ => 30000
  }

  lemma BackoffIsTheDelay(k: nat)
    requires k > 0
    ensures Backoff(k) == RetryDelay(k)
  {
    assert Pow2(1) == 2 && Pow2(2) == 4 && Pow2(3) == 8 && Pow2(4) == 16;
    if k >= 6 {
      BackoffGrows(1, k);
    }
  }

  // ---------------------------------------------------------------------------------------------
  // Counting the timers of a connection
  // ---------------------------------------------------------------------------------------------

  function TimersOf(timers: seq<Timer>, c: ConnId): nat {
    if timers == [] then 0
    else TimersOf(timers[..|timers| - 1], c) + if timers[|timers| - 1].conn == c then 1 else 0
  }

  lemma {:induction false} TimersOfSnoc(timers: seq<Timer>, t: Timer, c: ConnId)
    ensures TimersOf(timers + [t], c) == TimersOf(timers, c) + if t.conn == c then 1 else 0
  {
    assert (timers + [t])[..|timers|] == timers;
  }

  lemma {:induction false} SameTimersOf(a: seq<Timer>, b: seq<Timer>, c: ConnId)
    requires |a| == |b| && forall t | 0 <= t < |a| :: a[t].conn == b[t].conn
    ensures TimersOf(a, c) == TimersOf(b, c)
  {
    if a != [] {
      SameTimersOf(a[..|a| - 1], b[..|b| - 1], c);
    }
  }

  function AttemptsOf(s: System, c: ConnId): nat {
    if c < |s.conns| then s.conns[c].attempts else 0
  }

  /** The attempts of a connection less its timers; only an open changes the difference. */
  function Excess(s: System, c: ConnId): int {
    AttemptsOf(s, c) - TimersOf(s.timers, c)
  }

  lemma {:induction false} ScheduleKeepsExcess(s: System, d: ConnId, c: ConnId)
    requires d < |s.conns|
    ensures Excess(ScheduleReconnect(s, d), c) == Excess(s, c)
  {
    var after := ScheduleReconnect(s, d);
    if after != s {
      TimersOfSnoc(s.timers, after.timers[|s.timers|], c);
    }
  }

  lemma {:induction false} AddHostKeepsExcess(s: System, host: Host, fails: bool, c: ConnId)
    ensures Excess(AddHost(s, host, fails), c) == Excess(s, c)
  {
    if host !in s.connections {
      var d := |s.conns|;
      var added := s.(conns := s.conns + [Conn(host, None, None, 0)], connections := s.connections[host := d]);
      assert Excess(added, c) == Excess(s, c);
      if fails {
        ScheduleKeepsExcess(added, d, c);
      }
    }
  }

  lemma {:induction false} AddHostsKeepExcess(s: System, hosts: seq<Host>, broken: set<Host>, c: ConnId)
    ensures Excess(AddHosts(s, hosts, broken), c) == Excess(s, c)
    decreases |hosts|
  {
    if hosts != [] {
      AddHostKeepsExcess(s, hosts[0], hosts[0] in broken, c);
      AddHostsKeepExcess(AddHost(s, hosts[0], hosts[0] in broken), hosts[1..], broken, c);
    }
  }

  lemma {:induction false} CloseHostsKeepsExcess(s: System, hosts: set<Host>, c: ConnId)
    ensures Excess(CloseHosts(s, hosts), c) == Excess(s, c)
  {
    SameTimersOf(s.timers, CloseHosts(s, hosts).timers, c);
  }

  lemma {:induction false} TimerKeepsExcess(s: System, t: TimerId, fails: bool, c: ConnId)
    requires Enabled(s, TimerFired(t, fails))
    ensures Excess(Step(s, TimerFired(t, fails)), c) == Excess(s, c)
  {
    var fired := s.(timers := s.timers[t := s.timers[t].(pending := false)]);
    SameTimersOf(s.timers, fired.timers, c);
    ScheduleKeepsExcess(fired, s.timers[t].conn, c);
  }

  lemma {:induction false} OpenResets(s: System, j: SockId, containerOrder: seq<Key>, serviceOrder: seq<Key>, c: ConnId)
    requires j < |s.sockets|
    ensures var after := Opened(s, j, containerOrder, serviceOrder);
            && after.timers == s.timers
            && AttemptsOf(after, c) == if c == s.sockets[j].conn then 0 else AttemptsOf(s, c)
  {
    var after, d := Opened(s, j, containerOrder, serviceOrder), s.sockets[j].conn;
    assert after.timers == s.timers;
    assert after.conns == if d < |s.conns| then s.conns[d := s.conns[d].(attempts := 0)] else s.conns;
  }

  lemma {:induction false} StepKeepsExcess(s: System, e: Event, c: ConnId)
    requires Enabled(s, e)
    ensures if Opens(s, e, c) then AttemptsOf(Step(s, e), c) == 0 else Excess(Step(s, e), c) == Excess(s, c)
  {
    if !TouchesWiring(e) {
      QuietStep(s, e);
    } else {
      match e
      case LookupDone(hosts, broken) =>
        var stale := s.connections.Keys - Elements(hosts);
        CloseHostsKeepsExcess(s, stale, c);
        AddHostsKeepExcess(CloseHosts(s, stale), hosts, broken, c);
      case ShutDown => CloseHostsKeepsExcess(s.(shuttingDown := true), s.connections.Keys, c);
      case SocketOpened(j, containerOrder, serviceOrder) => OpenResets(s, j, containerOrder, serviceOrder, c);
      case SocketClosed(j) =>
        ScheduleKeepsExcess(s.(sockets := s.sockets[j := s.sockets[j].(state := Closed)]), s.sockets[j].conn, c);
      case TimerFired(t, fails) => TimerKeepsExcess(s, t, fails, c);
      case _ =>
    }
  }

  // ---------------------------------------------------------------------------------------------
  // Retries of a run
  // ---------------------------------------------------------------------------------------------

  /** The timers that were set for a connection since its last open, or since it was created. */
  ghost function Retries(states: seq<System>, events: seq<Event>, n: nat, c: ConnId): int
    requires n <= |events| < |states|
  {
    if n == 0 then 0
    else if Opens(states[n - 1], events[n - 1], c) then 0
    else Retries(states, events, n - 1, c) + TimersOf(states[n].timers, c) - TimersOf(states[n - 1].timers, c)
  }

  /** Every retry is counted, and nothing else is. */
  lemma {:induction false} AttemptsAreRetries(states: seq<System>, events: seq<Event>, n: nat, c: ConnId)
    requires Run(states, events) && n <= |events|
    ensures AttemptsOf(states[n], c) == Retries(states, events, n, c)
  {
    if n > 0 {
      var k: nat := n - 1;
      AttemptsAreRetries(states, events, k, c);
      RunStep(states, events, k, n);
      StepKeepsExcess(states[k], events[k], c);
    }
  }

  /** In every run: a timer that is pending while its connection has had `k` timers since its last open is a retry
      (`k` is not zero) and waits min(1000 * 2^(k - 1), 30000) milliseconds; so the first one waits 1000 again. */
  lemma {:induction false} RetryWaits(states: seq<System>, events: seq<Event>, n: nat, t: TimerId)
    requires Run(states, events) && n <= |events| && Pending(states[n], t)
    ensures var k := Retries(states, events, n, states[n].timers[t].conn);
            k >= 1 && states[n].timers[t].delay == RetryDelay(k)
  {
    WiredInRuns(states, events, n);
    AttemptsAreRetries(states, events, n, states[n].timers[t].conn);
    BackoffIsTheDelay(states[n].conns[states[n].timers[t].conn].attempts);
  }
}
