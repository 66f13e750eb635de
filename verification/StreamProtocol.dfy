/** The live-log subscription protocol between the gateway and its log-streamers, as a transition system.

    The gateway's objects are kept in append-only heaps (`conns`, `sockets`, `timers`), so that a
    connection object that was dropped from the `connections` table, but still receives events, is
    part of the state.  Every event of the JavaScript event loop, every delivery of a message to a
    streamer and every failure of a socket is one step. */
module StreamProtocol {
  import opened Options
  import opened ReferenceCounts

  type Host = string
  type ConnId = nat
  type SockId = nat
  type TimerId = nat

  const BASE_RECONNECT_MS: nat := 1000
  const MAX_RECONNECT_MS: nat := 30000

  datatype Kind = Container | Service
  datatype Message = SubscribeTo(kind: Kind, key: Key) | UnsubscribeFrom(kind: Kind, key: Key)

  /** The streamer's end of one socket: the two subscription sets of its subscription manager. */
  datatype Peer = Peer(alive: bool, containers: set<Key>, services: set<Key>)

  datatype ReadyState = Connecting | Open | Closing | Closed
  /** A gateway WebSocket; `queue` holds what was sent and not yet read by the streamer. */
  datatype Socket = Socket(conn: ConnId, state: ReadyState, queue: seq<Message>, peer: Peer)
  datatype Conn = Conn(host: Host, ws: Option<SockId>, timer: Option<TimerId>, attempts: nat)
  datatype Timer = Timer(conn: ConnId, delay: nat, pending: bool)

  datatype System = System(
    shuttingDown: bool,
    lookups: nat,                      // DNS lookups that were started and not answered yet
    connections: map<Host, ConnId>,
    subs: Counts,                      // container subscriptions
    svcs: Counts,                      // service subscriptions
    conns: seq<Conn>,
    sockets: seq<Socket>,
    timers: seq<Timer>,
    present: map<Host, set<Key>>)      // the containers that exist on each node

  datatype Event =
    | SubscribeCall(kind: Kind, key: Key)
    | ReturnCall(kind: Kind, key: Key)
    | LookupStarted
    | LookupDone(hosts: seq<Host>, broken: set<Host>)  // for `broken` hosts the socket constructor throws
    | LookupFailed
    | SocketOpened(sock: SockId, containerOrder: seq<Key>, serviceOrder: seq<Key>)
    | SocketClosing(sock: SockId)                      // close frame or error seen, close event still to come
    | SocketClosed(sock: SockId)
    | TimerFired(timer: TimerId, fails: bool)
    | Delivered(sock: SockId)
    | PeerDropped(sock: SockId)
    | ShutDown

  // ---------------------------------------------------------------------------------------------
  // The streamer
  // ---------------------------------------------------------------------------------------------

  /** One message handled by the streamer.  An empty key is refused; a container must exist on the node. */
  function Apply(peer: Peer, m: Message, present: set<Key>): Peer {
    if m.key == "" then peer
    else match m
      case SubscribeTo(Container, key) =>
        if key in present then peer.(containers := peer.containers + {key}) else peer
      case UnsubscribeFrom(Container, key) => peer.(containers := peer.containers - {key})
      case SubscribeTo(Service, key) => peer.(services := peer.services + {key})
      case UnsubscribeFrom(Service, key) => peer.(services := peer.services - {key})
  }

  function Replay(peer: Peer, queue: seq<Message>, present: set<Key>): Peer
    decreases |queue|
  {
    if queue == [] then peer else Replay(Apply(peer, queue[0], present), queue[1..], present)
  }

  // ---------------------------------------------------------------------------------------------
  // The gateway's helpers
  // ---------------------------------------------------------------------------------------------

  function Pow2(n: nat): nat {
    if n == 0 then 1 else 2 * Pow2(n - 1)
  }

  function Backoff(attempts: nat): nat
    requires attempts > 0
  {
    var delay := BASE_RECONNECT_MS * Pow2(attempts - 1);
    if delay < MAX_RECONNECT_MS then delay else MAX_RECONNECT_MS
  }

  function PresentOn(s: System, host: Host): set<Key> {
    if host in s.present then s.present[host] else {}
  }

  function Active(s: System, kind: Kind): Counts {
    match kind case Container => s.subs case Service => s.svcs
  }

  function WithActive(s: System, kind: Kind, counts: Counts): System {
    match kind case Container => s.(subs := counts) case Service => s.(svcs := counts)
  }

  /** Connection object `c` is the one the `connections` table holds for its host. */
  predicate Mapped(s: System, c: ConnId) {
    c < |s.conns| && s.conns[c].host in s.connections && s.connections[s.conns[c].host] == c
  }

  /** Socket `j` is the open socket of a mapped connection, which is where broadcasts go. */
  predicate Hears(s: System, j: SockId) {
    && j < |s.sockets|
    && Mapped(s, s.sockets[j].conn)
    && s.conns[s.sockets[j].conn].ws == Some(j)
    && s.sockets[j].state == Open
  }

  function Enqueue(socket: Socket, messages: seq<Message>): Socket {
    socket.(queue := socket.queue + messages)
  }

  function Broadcast(s: System, m: Message): System {
    s.(sockets := seq(|s.sockets|, j requires 0 <= j < |s.sockets| =>
                                     if Hears(s, j) then Enqueue(s.sockets[j], [m]) else s.sockets[j]))
  }

  function ScheduleReconnect(s: System, c: ConnId): System
    requires c < |s.conns|
  {
    if s.shuttingDown || s.conns[c].host !in s.connections then s
    else
      var attempts := s.conns[c].attempts + 1;
      s.(timers := s.timers + [Timer(c, Backoff(attempts), true)],
         conns := s.conns[c := s.conns[c].(attempts := attempts, timer := Some(|s.timers|))])
  }

  function ConnectWebSocket(s: System, c: ConnId, fails: bool): System
    requires c < |s.conns|
  {
    if s.shuttingDown then s
    else if fails then ScheduleReconnect(s, c)
    else s.(sockets := s.sockets + [Socket(c, Connecting, [], Peer(true, {}, {}))],
            conns := s.conns[c := s.conns[c].(ws := Some(|s.sockets|))])
  }

  /** Connection `c` is mapped and its host is among `hosts`. */
  predicate Dropped(s: System, hosts: set<Host>, c: ConnId) {
    Mapped(s, c) && s.conns[c].host in hosts
  }

  function ClosedConn(s: System, hosts: set<Host>, c: ConnId): Conn
    requires c < |s.conns|
  {
    if Dropped(s, hosts, c) then s.conns[c].(ws := None, timer := None) else s.conns[c]
  }

  function ClosedSocket(s: System, hosts: set<Host>, j: SockId): Socket
    requires j < |s.sockets|
  {
    var socket := s.sockets[j];
    if Dropped(s, hosts, socket.conn) && s.conns[socket.conn].ws == Some(j) && socket.state in {Connecting, Open}
    then socket.(state := Closing) else socket
  }

  function ClearedTimer(s: System, hosts: set<Host>, t: TimerId): Timer
    requires t < |s.timers|
  {
    var timer := s.timers[t];
    if Dropped(s, hosts, timer.conn) && s.conns[timer.conn].timer == Some(t)
    then timer.(pending := false) else timer
  }

  /** closeConnection on the connections of `hosts`, which then leave the table. */
  function CloseHosts(s: System, hosts: set<Host>): System {
    s.(connections := s.connections - hosts,
       conns := seq(|s.conns|, c requires 0 <= c < |s.conns| => ClosedConn(s, hosts, c)),
       sockets := seq(|s.sockets|, j requires 0 <= j < |s.sockets| => ClosedSocket(s, hosts, j)),
       timers := seq(|s.timers|, t requires 0 <= t < |s.timers| => ClearedTimer(s, hosts, t)))
  }

  function AddHost(s: System, host: Host, fails: bool): System {
    if host in s.connections then s
    else
      var c := |s.conns|;
      ConnectWebSocket(s.(conns := s.conns + [Conn(host, None, None, 0)], connections := s.connections[host := c]),
                       c, fails)
  }

  function AddHosts(s: System, hosts: seq<Host>, broken: set<Host>): System
    decreases |hosts|
  {
    if hosts == [] then s else AddHosts(AddHost(s, hosts[0], hosts[0] in broken), hosts[1..], broken)
  }

  function Elements<T>(xs: seq<T>): set<T> {
    set x | x in xs
  }

  lemma ElementsAppend<T>(xs: seq<T>, x: T)
    ensures Elements(xs + [x]) == Elements(xs) + {x}
  {
  }

  function Resend(kind: Kind, order: seq<Key>): seq<Message> {
    seq(|order|, i requires 0 <= i < |order| => SubscribeTo(kind, order[i]))
  }

  // ---------------------------------------------------------------------------------------------
  // Steps
  // ---------------------------------------------------------------------------------------------

  predicate ListsOnce(order: seq<Key>, keys: set<Key>) {
    |order| == |keys| && Elements(order) == keys
  }

  predicate Enabled(s: System, e: Event) {
    match e
    case SubscribeCall(_, _) => true
    case ReturnCall(_, _) => true
    case LookupStarted => true
    case LookupDone(_, _) => s.lookups > 0
    case LookupFailed => s.lookups > 0
    case SocketOpened(j, containerOrder, serviceOrder) =>
      && j < |s.sockets| && s.sockets[j].state == Connecting
      && ListsOnce(containerOrder, s.subs.Keys) && ListsOnce(serviceOrder, s.svcs.Keys)
    case SocketClosing(j) => j < |s.sockets| && s.sockets[j].state in {Connecting, Open}
    case SocketClosed(j) => j < |s.sockets| && s.sockets[j].state != Closed && s.sockets[j].conn < |s.conns|
    case TimerFired(t, _) => t < |s.timers| && s.timers[t].pending && s.timers[t].conn < |s.conns|
    case Delivered(j) => j < |s.sockets| && s.sockets[j].peer.alive && s.sockets[j].queue != []
    case PeerDropped(j) => j < |s.sockets|
    case ShutDown => true
  }

  function Subscribed(s: System, kind: Kind, key: Key): System {
    var (counts, first) := Retain(Active(s, kind), key);
    var next := WithActive(s, kind, counts);
    if first then Broadcast(next, SubscribeTo(kind, key)) else next
  }

  function Returned(s: System, kind: Kind, key: Key): System {
    var (counts, last) := Release(Active(s, kind), key);
    var next := WithActive(s, kind, counts);
    if last then Broadcast(next, UnsubscribeFrom(kind, key)) else next
  }

  /** The lookup's answer is used without looking at `shuttingDown` again. */
  function Reconciled(s: System, hosts: seq<Host>, broken: set<Host>): System {
    AddHosts(CloseHosts(s, s.connections.Keys - Elements(hosts)), hosts, broken)
  }

  /** The open handler: resets the attempts and sends on the connection's current `ws`. */
  function Opened(s: System, j: SockId, containerOrder: seq<Key>, serviceOrder: seq<Key>): System
    requires j < |s.sockets|
  {
    var next := s.(sockets := s.sockets[j := s.sockets[j].(state := Open)]);
    var c := s.sockets[j].conn;
    if c >= |s.conns| then next
    else
      var reset := next.(conns := s.conns[c := s.conns[c].(attempts := 0)]);
      var target := s.conns[c].ws;
      if target.None? || target.value >= |s.sockets| then reset
      else
        var t := target.value;
        reset.(sockets := next.sockets[t := Enqueue(next.sockets[t],
                                                   Resend(Container, containerOrder) + Resend(Service, serviceOrder))])
  }

  function Step(s: System, e: Event): System
    requires Enabled(s, e)
  {
    match e
    case SubscribeCall(kind, key) => Subscribed(s, kind, key)
    case ReturnCall(kind, key) => Returned(s, kind, key)
    case LookupStarted => if s.shuttingDown then s else s.(lookups := s.lookups + 1)
    case LookupDone(hosts, broken) => Reconciled(s, hosts, broken).(lookups := s.lookups - 1)
    case LookupFailed => s.(lookups := s.lookups - 1)
    case SocketOpened(j, containerOrder, serviceOrder) => Opened(s, j, containerOrder, serviceOrder)
    case SocketClosing(j) => s.(sockets := s.sockets[j := s.sockets[j].(state := Closing)])
    case SocketClosed(j) =>
      ScheduleReconnect(s.(sockets := s.sockets[j := s.sockets[j].(state := Closed)]), s.sockets[j].conn)
    case TimerFired(t, fails) =>
      ConnectWebSocket(s.(timers := s.timers[t := s.timers[t].(pending := false)]), s.timers[t].conn, fails)
    case Delivered(j) =>
      var socket := s.sockets[j];
      var host := if socket.conn < |s.conns| then s.conns[socket.conn].host else "";
      var peer := Apply(socket.peer, socket.queue[0], PresentOn(s, host));
      s.(sockets := s.sockets[j := socket.(queue := socket.queue[1..], peer := peer)])
    case PeerDropped(j) => s.(sockets := s.sockets[j := s.sockets[j].(peer := Peer(false, {}, {}))])
    case ShutDown => CloseHosts(s.(shuttingDown := true), s.connections.Keys)
  }

  predicate Init(s: System) {
    && !s.shuttingDown && s.lookups == 0 && s.connections == map[] && s.subs == map[] && s.svcs == map[]
    && s.conns == [] && s.sockets == [] && s.timers == []
  }

  /** A run: `states[i]` is the state before `events[i]`. */
  ghost predicate Run(states: seq<System>, events: seq<Event>) {
    && |states| == |events| + 1
    && Init(states[0])
    && forall i | 0 <= i < |events| :: Enabled(states[i], events[i]) && states[i + 1] == Step(states[i], events[i])
  }
}
