/** The streamer's side of one WebSocket: the subscription manager, its service subscriptions and the
    streams they own.

    Handler calls, container events and the two halves of stopping a service are separate steps, because
    the event watcher of a service runs concurrently with the handler and takes only the service's lock. */
module StreamerSubscriptions {
  import opened ReferenceCounts
  import opened StreamProtocol

  type ContainerId = string

  /** The cancellable context of one log stream within service subscription `service`. */
  datatype Stream = Stream(service: nat, container: ContainerId, cancelled: bool)
  /** A service subscription: its own context, and the cancel function per container. */
  datatype ServiceSub = ServiceSub(cancelled: bool, containers: map<ContainerId, nat>)

  datatype Manager = Manager(
    subs: map<Key, nat>,          // container subscription -> its cancel channel
    closes: seq<nat>,             // how often each cancel channel was closed
    serviceSubs: map<Key, nat>,
    services: seq<ServiceSub>,
    streams: seq<Stream>)

  datatype Action =
    | Handle(m: Message, listed: seq<ContainerId>)  // `listed`: the containers a new service subscription finds
    | StopSweeps(service: nat)                      // second half of a stop: streams are cancelled and forgotten
    | ContainerStarted(service: nat, container: ContainerId)
    | ContainerDied(service: nat, container: ContainerId)

  const IDLE := Manager(map[], [], map[], [], [])

  // ---------------------------------------------------------------------------------------------
  // Steps
  // ---------------------------------------------------------------------------------------------

  function CloseChannel(m: Manager, channel: nat): Manager
    requires channel < |m.closes|
  {
    m.(closes := m.closes[channel := m.closes[channel] + 1])
  }

  function ContainerSubscribed(m: Manager, key: Key, found: bool): Manager {
    if key in m.subs || !found then m else m.(subs := m.subs[key := |m.closes|], closes := m.closes + [0])
  }

  function ContainerUnsubscribed(m: Manager, key: Key): Manager {
    if key in m.subs && m.subs[key] < |m.closes|
    then CloseChannel(m, m.subs[key]).(subs := m.subs - {key}) else m
  }

  /** A context derived from a cancelled one is cancelled from the start. */
  function StreamStarted(m: Manager, service: nat, container: ContainerId): Manager {
    if service >= |m.services| || container in m.services[service].containers then m
    else
      var sub := m.services[service];
      m.(streams := m.streams + [Stream(service, container, sub.cancelled)],
         services := m.services[service := sub.(containers := sub.containers[container := |m.streams|])])
  }

  function StreamsStarted(m: Manager, service: nat, containers: seq<ContainerId>): Manager
    decreases |containers|
  {
    if containers == [] then m else StreamsStarted(StreamStarted(m, service, containers[0]), service, containers[1..])
  }

  function StreamStopped(m: Manager, service: nat, container: ContainerId): Manager {
    if service >= |m.services| || container !in m.services[service].containers then m
    else
      var sub := m.services[service];
      var t := sub.containers[container];
      m.(streams := if t < |m.streams| then m.streams[t := m.streams[t].(cancelled := true)] else m.streams,
         services := m.services[service := sub.(containers := sub.containers - {container})])
  }

  /** Cancelling a context cancels every context derived from it. */
  function ServiceCancelled(m: Manager, service: nat): Manager
    requires service < |m.services|
  {
    m.(services := m.services[service := m.services[service].(cancelled := true)],
       streams := seq(|m.streams|, t requires 0 <= t < |m.streams| =>
                                     if m.streams[t].service == service then m.streams[t].(cancelled := true)
                                     else m.streams[t]))
  }

  /** Stream `t` is the one that `service` keeps for its container. */
  predicate Owned(m: Manager, service: nat, t: nat)
    requires service < |m.services| && t < |m.streams|
  {
    var containers := m.services[service].containers;
    m.streams[t].container in containers && containers[m.streams[t].container] == t
  }

  function ServiceSwept(m: Manager, service: nat): Manager
    requires service < |m.services|
  {
    m.(services := m.services[service := m.services[service].(containers := map[])],
       streams := seq(|m.streams|, t requires 0 <= t < |m.streams| =>
                                     if Owned(m, service, t) then m.streams[t].(cancelled := true) else m.streams[t]))
  }

  /** The manager with a fresh, still empty service subscription under `key`. */
  function ServiceAdded(m: Manager, key: Key): Manager {
    m.(serviceSubs := m.serviceSubs[key := |m.services|], services := m.services + [ServiceSub(false, map[])])
  }

  function ServiceSubscribed(m: Manager, key: Key, listed: seq<ContainerId>): Manager {
    if key in m.serviceSubs then m
    else
      StreamsStarted(ServiceAdded(m, key), |m.services|, listed)
  }

  /** Unsubscribing a service: the entry goes, its context is cancelled.  The sweep is a step of its own. */
  function ServiceUnsubscribed(m: Manager, key: Key): Manager {
    if key in m.serviceSubs && m.serviceSubs[key] < |m.services|
    then ServiceCancelled(m, m.serviceSubs[key]).(serviceSubs := m.serviceSubs - {key}) else m
  }

  function Handled(m: Manager, message: Message, listed: seq<ContainerId>, present: set<Key>): Manager {
    if message.key == "" then m
    else match message
      case SubscribeTo(Container, key) => ContainerSubscribed(m, key, key in present)
      case UnsubscribeFrom(Container, key) => ContainerUnsubscribed(m, key)
      case SubscribeTo(Service, key) => ServiceSubscribed(m, key, listed)
      case UnsubscribeFrom(Service, key) => ServiceUnsubscribed(m, key)
  }

  predicate Enabled(m: Manager, a: Action) {
    match a
    case Handle(_, _) => true
    case StopSweeps(service) => service < |m.services| && m.services[service].cancelled
    case ContainerStarted(service, _) => service < |m.services|
    case ContainerDied(service, _) => service < |m.services|
  }

  function Next(m: Manager, a: Action, present: set<Key>): Manager
    requires Enabled(m, a)
  {
    match a
    case Handle(message, listed) => Handled(m, message, listed, present)
    case StopSweeps(service) => ServiceSwept(m, service)
    case ContainerStarted(service, container) => StreamStarted(m, service, container)
    case ContainerDied(service, container) => StreamStopped(m, service, container)
  }

  ghost predicate Run(states: seq<Manager>, actions: seq<Action>, present: set<Key>) {
    && |states| == |actions| + 1 && states[0] == IDLE
    && forall i | 0 <= i < |actions| ::
         Enabled(states[i], actions[i]) && states[i + 1] == Next(states[i], actions[i], present)
  }

  // ---------------------------------------------------------------------------------------------
  // The invariant
  // ---------------------------------------------------------------------------------------------

  /** A subscribed container's channel is open; every other channel was closed exactly once. */
  ghost predicate ChannelsFit(m: Manager) {
    && (forall key <- m.subs :: m.subs[key] < |m.closes| && m.closes[m.subs[key]] == 0)
    && (forall k1 <- m.subs, k2 <- m.subs :: m.subs[k1] == m.subs[k2] ==> k1 == k2)
    && (forall c: nat | c < |m.closes| && c !in m.subs.Values :: m.closes[c] == 1)
  }

  /** The map of a service holds streams of that service under their own container. */
  ghost predicate OwnersFit(m: Manager) {
    && (forall t: nat | t < |m.streams| :: m.streams[t].service < |m.services|)
    && (forall i: nat | i < |m.services| :: forall c <- m.services[i].containers ::
          && m.services[i].containers[c] < |m.streams|
          && m.streams[m.services[i].containers[c]].service == i
          && m.streams[m.services[i].containers[c]].container == c)
  }

  /** A stream is live exactly while its service is, and holds it in its map. */
  ghost predicate LiveExactlyWhenOwned(m: Manager) {
    forall t: nat | t < |m.streams| && m.streams[t].service < |m.services| ::
      var sub := m.services[m.streams[t].service];
      var c := m.streams[t].container;
      !m.streams[t].cancelled <==> !sub.cancelled && c in sub.containers && sub.containers[c] == t
  }

  /** A service subscription is live exactly while the manager holds it, under one name. */
  ghost predicate ServicesFit(m: Manager) {
    && (forall key <- m.serviceSubs :: m.serviceSubs[key] < |m.services| && !m.services[m.serviceSubs[key]].cancelled)
    && (forall k1 <- m.serviceSubs, k2 <- m.serviceSubs :: m.serviceSubs[k1] == m.serviceSubs[k2] ==> k1 == k2)
    && (forall i: nat | i < |m.services| && !m.services[i].cancelled ::
          exists key <- m.serviceSubs :: m.serviceSubs[key] == i)
  }

  ghost predicate Inv(m: Manager) {
    ChannelsFit(m) && OwnersFit(m) && LiveExactlyWhenOwned(m) && ServicesFit(m)
  }

  /** Steps of a service's streams leave the manager's tables and the services' contexts alone. */
  ghost predicate SameTables(m: Manager, after: Manager) {
    && after.subs == m.subs && after.closes == m.closes && after.serviceSubs == m.serviceSubs
    && |after.services| == |m.services|
    && forall i: nat | i < |m.services| :: after.services[i].cancelled == m.services[i].cancelled
  }

  lemma SameTablesKeep(m: Manager, after: Manager)
    requires ChannelsFit(m) && ServicesFit(m) && SameTables(m, after)
    ensures ChannelsFit(after) && ServicesFit(after)
  {
  }

  lemma StreamStartedOwners(m: Manager, service: nat, container: ContainerId)
    requires OwnersFit(m)
    ensures OwnersFit(StreamStarted(m, service, container))
  {
  }

  lemma StreamStartedLive(m: Manager, service: nat, container: ContainerId)
    requires OwnersFit(m) && LiveExactlyWhenOwned(m)
    ensures LiveExactlyWhenOwned(StreamStarted(m, service, container))
  {
    var after := StreamStarted(m, service, container);
    forall t: nat | t < |after.streams| && after.streams[t].service < |after.services|
      ensures var sub := after.services[after.streams[t].service];
              var c := after.streams[t].container;
              !after.streams[t].cancelled <==> !sub.cancelled && c in sub.containers && sub.containers[c] == t
    {
      if t < |m.streams| {
        assert after.streams[t] == m.streams[t];
      }
    }
  }

  lemma StreamStartedKeeps(m: Manager, service: nat, container: ContainerId)
    requires Inv(m)
    ensures Inv(StreamStarted(m, service, container))
  {
    StreamStartedOwners(m, service, container);
    StreamStartedLive(m, service, container);
    SameTablesKeep(m, StreamStarted(m, service, container));
  }

  lemma {:induction false} StreamsStartedKeep(m: Manager, service: nat, containers: seq<ContainerId>)
    requires Inv(m)
    ensures var after := StreamsStarted(m, service, containers);
            Inv(after) && after.subs == m.subs && after.closes == m.closes && after.serviceSubs == m.serviceSubs
    decreases |containers|
  {
    if containers != [] {
      StreamStartedKeeps(m, service, containers[0]);
      StreamsStartedKeep(StreamStarted(m, service, containers[0]), service, containers[1..]);
    }
  }

  lemma SubscribedKeeps(m: Manager, key: Key, found: bool)
    requires ChannelsFit(m)
    ensures ChannelsFit(ContainerSubscribed(m, key, found))
  {
    var after := ContainerSubscribed(m, key, found);
    if after != m {
      NewChannelFits(m, after, key);
    }
  }

  lemma NewChannelFits(m: Manager, after: Manager, key: Key)
    requires ChannelsFit(m) && key !in m.subs
    requires after.subs == m.subs[key := |m.closes|] && after.closes == m.closes + [0]
    ensures ChannelsFit(after)
  {
    forall c: nat | c < |after.closes| ensures c in after.subs.Values || after.closes[c] == 1 {
      if c == |m.closes| {
        assert after.subs[key] == c;
      } else if c in m.subs.Values {
        var k :| k in m.subs && m.subs[k] == c;
        assert after.subs[k] == c;
      }
    }
  }

  lemma UnsubscribedKeeps(m: Manager, key: Key)
    requires ChannelsFit(m)
    ensures ChannelsFit(ContainerUnsubscribed(m, key))
  {
    var after := ContainerUnsubscribed(m, key);
    forall c: nat | c < |after.closes| ensures c in after.subs.Values || after.closes[c] == 1 {
      if c in m.subs.Values {
        var k :| k in m.subs && m.subs[k] == c;
        if k != key {
          assert after.subs[k] == c;
        }
      }
    }
  }

  lemma ContainerUnsubscribedKeeps(m: Manager, key: Key)
    requires Inv(m)
    ensures Inv(ContainerUnsubscribed(m, key))
  {
    UnsubscribedKeeps(m, key);
  }

  lemma CancelledStreamsFit(m: Manager, key: Key)
    requires Inv(m) && key in m.serviceSubs
    ensures var after := ServiceUnsubscribed(m, key); OwnersFit(after) && LiveExactlyWhenOwned(after)
  {
  }

  lemma ServiceUnsubscribedKeeps(m: Manager, key: Key)
    requires Inv(m)
    ensures Inv(ServiceUnsubscribed(m, key))
  {
    var after := ServiceUnsubscribed(m, key);
    if key in m.serviceSubs {
      CancelledStreamsFit(m, key);
      forall i: nat | i < |after.services| && !after.services[i].cancelled
        ensures exists k <- after.serviceSubs :: after.serviceSubs[k] == i
      {
        var k :| k in m.serviceSubs && m.serviceSubs[k] == i;
        assert k in after.serviceSubs;
      }
    }
  }

  lemma ServiceSweptFits(m: Manager, service: nat)
    requires OwnersFit(m) && LiveExactlyWhenOwned(m) && service < |m.services|
    ensures var after := ServiceSwept(m, service); OwnersFit(after) && LiveExactlyWhenOwned(after)
  {
  }

  lemma ServiceSweptKeeps(m: Manager, service: nat)
    requires Inv(m) && service < |m.services|
    ensures Inv(ServiceSwept(m, service))
  {
    ServiceSweptFits(m, service);
    SameTablesKeep(m, ServiceSwept(m, service));
  }

  lemma StreamStoppedOwners(m: Manager, service: nat, container: ContainerId)
    requires OwnersFit(m)
    ensures OwnersFit(StreamStopped(m, service, container))
  {
  }

  lemma StreamStoppedLive(m: Manager, service: nat, container: ContainerId)
    requires OwnersFit(m) && LiveExactlyWhenOwned(m)
    ensures LiveExactlyWhenOwned(StreamStopped(m, service, container))
  {
  }

  lemma StreamStoppedKeeps(m: Manager, service: nat, container: ContainerId)
    requires Inv(m)
    ensures Inv(StreamStopped(m, service, container))
  {
    StreamStoppedOwners(m, service, container);
    StreamStoppedLive(m, service, container);
    SameTablesKeep(m, StreamStopped(m, service, container));
  }

  lemma ServiceAddedStreams(m: Manager, key: Key)
    requires OwnersFit(m) && LiveExactlyWhenOwned(m)
    ensures OwnersFit(ServiceAdded(m, key)) && LiveExactlyWhenOwned(ServiceAdded(m, key))
  {
  }

  lemma ServiceAddedServices(m: Manager, key: Key)
    requires ServicesFit(m) && key !in m.serviceSubs
    ensures ServicesFit(ServiceAdded(m, key))
  {
    var after := ServiceAdded(m, key);
    forall i: nat | i < |after.services| && !after.services[i].cancelled
      ensures exists k <- after.serviceSubs :: after.serviceSubs[k] == i
    {
      HeldService(m, key, i);
    }
  }

  lemma HeldService(m: Manager, key: Key, i: nat)
    requires ServicesFit(m) && key !in m.serviceSubs && i <= |m.services|
    requires i < |m.services| ==> !m.services[i].cancelled
    ensures exists k <- ServiceAdded(m, key).serviceSubs :: ServiceAdded(m, key).serviceSubs[k] == i
  {
    var after := ServiceAdded(m, key).serviceSubs;
    if i == |m.services| {
      assert key in after && after[key] == i;
    } else {
      var k :| k in m.serviceSubs && m.serviceSubs[k] == i;
      assert k in after && after[k] == i;
    }
  }

  lemma ServiceAddedKeeps(m: Manager, key: Key)
    requires Inv(m) && key !in m.serviceSubs
    ensures Inv(ServiceAdded(m, key))
  {
    ServiceAddedStreams(m, key);
    ServiceAddedServices(m, key);
  }

  lemma ServiceSubscribedKeeps(m: Manager, key: Key, listed: seq<ContainerId>)
    requires Inv(m)
    ensures Inv(ServiceSubscribed(m, key, listed))
  {
    if key !in m.serviceSubs {
      ServiceAddedKeeps(m, key);
      StreamsStartedKeep(ServiceAdded(m, key), |m.services|, listed);
    }
  }

  lemma HandledKeeps(m: Manager, message: Message, listed: seq<ContainerId>, present: set<Key>)
    requires Inv(m)
    ensures Inv(Handled(m, message, listed, present))
  {
    match message
    case SubscribeTo(Container, key) => SubscribedKeeps(m, key, key in present);
    case UnsubscribeFrom(Container, key) => UnsubscribedKeeps(m, key);
    case SubscribeTo(Service, key) => ServiceSubscribedKeeps(m, key, listed);
    case UnsubscribeFrom(Service, key) => ServiceUnsubscribedKeeps(m, key);
  }

  lemma NextKeeps(m: Manager, a: Action, present: set<Key>)
    requires Inv(m) && Enabled(m, a)
    ensures Inv(Next(m, a, present))
  {
    match a
    case Handle(message, listed) => HandledKeeps(m, message, listed, present);
    case StopSweeps(service) => ServiceSweptKeeps(m, service);
    case ContainerStarted(service, container) => StreamStartedKeeps(m, service, container);
    case ContainerDied(service, container) => StreamStoppedKeeps(m, service, container);
  }

  lemma {:induction false} InvInRuns(states: seq<Manager>, actions: seq<Action>, present: set<Key>, n: nat)
    requires Run(states, actions, present) && n <= |actions|
    ensures Inv(states[n])
  {
    if n > 0 {
      InvInRuns(states, actions, present, n - 1);
      NextKeeps(states[n - 1], actions[n - 1], present);
    }
  }

  // ---------------------------------------------------------------------------------------------
  // Theorems
  // ---------------------------------------------------------------------------------------------

  /** What the manager holds, as the gateway's protocol sees it. */
  function Held(m: Manager): Peer {
    Peer(true, m.subs.Keys, m.serviceSubs.Keys)
  }

  lemma {:induction false} StreamsDoNotChangeHeld(m: Manager, service: nat, containers: seq<ContainerId>)
    ensures Held(StreamsStarted(m, service, containers)) == Held(m)
    decreases |containers|
  {
    if containers != [] {
      StreamsDoNotChangeHeld(StreamStarted(m, service, containers[0]), service, containers[1..]);
    }
  }

  lemma ContainerStepHolds(m: Manager, key: Key, found: bool)
    requires ChannelsFit(m)
    ensures Held(ContainerSubscribed(m, key, found))
            == Held(m).(containers := if found then m.subs.Keys + {key} else m.subs.Keys)
    ensures Held(ContainerUnsubscribed(m, key)) == Held(m).(containers := m.subs.Keys - {key})
  {
  }

  lemma ServiceStepHolds(m: Manager, key: Key, listed: seq<ContainerId>)
    requires ServicesFit(m)
    ensures Held(ServiceSubscribed(m, key, listed)) == Held(m).(services := m.serviceSubs.Keys + {key})
    ensures Held(ServiceUnsubscribed(m, key)) == Held(m).(services := m.serviceSubs.Keys - {key})
  {
    StreamsDoNotChangeHeld(ServiceAdded(m, key), |m.services|, listed);
  }

  lemma HandledHolds(m: Manager, message: Message, listed: seq<ContainerId>, present: set<Key>)
    requires ChannelsFit(m) && ServicesFit(m)
    ensures Held(Handled(m, message, listed, present)) == Apply(Held(m), message, present)
  {
    ContainerStepHolds(m, message.key, message.key in present);
    ServiceStepHolds(m, message.key, listed);
  }

  /** Handling a message changes the held subscriptions as the protocol says; nothing else changes them. */
  lemma HandlerRefinesTheProtocol(m: Manager, a: Action, present: set<Key>)
    requires Inv(m) && Enabled(m, a)
    ensures Held(Next(m, a, present)) == if a.Handle? then Apply(Held(m), a.m, present) else Held(m)
  {
    if a.Handle? {
      HandledHolds(m, a.m, a.listed, present);
    }
  }

  /** In every interleaving: as long as a service is not being stopped, its live streams are exactly the
      entries of its map, so there is at most one per container. */
  lemma LiveStreamsAreTheMapEntries(states: seq<Manager>, actions: seq<Action>, present: set<Key>, n: nat, service: nat)
    requires Run(states, actions, present) && n <= |actions|
    requires service < |states[n].services| && !states[n].services[service].cancelled
    ensures var m := states[n];
            && (forall t: nat | t < |m.streams| && m.streams[t].service == service ::
                  !m.streams[t].cancelled <==> t in m.services[service].containers.Values)
            && (forall t: nat, u: nat | t < |m.streams| && u < |m.streams|
                                        && m.streams[t].service == service == m.streams[u].service
                                        && !m.streams[t].cancelled && !m.streams[u].cancelled
                                        && m.streams[t].container == m.streams[u].container :: t == u)
  {
    InvInRuns(states, actions, present, n);
    var m := states[n];
    forall t: nat | t < |m.streams| && m.streams[t].service == service
      ensures !m.streams[t].cancelled <==> t in m.services[service].containers.Values
    {
      if t in m.services[service].containers.Values {
        var c :| c in m.services[service].containers && m.services[service].containers[c] == t;
      }
    }
  }

  lemma {:induction false} StreamsStartedKeepCancelled(m: Manager, service: nat, containers: seq<ContainerId>,
                                                       stopped: nat)
    requires stopped < |m.services| && m.services[stopped].cancelled
    ensures var after := StreamsStarted(m, service, containers);
            stopped < |after.services| && after.services[stopped].cancelled
    decreases |containers|
  {
    if containers != [] {
      StreamsStartedKeepCancelled(StreamStarted(m, service, containers[0]), service, containers[1..], stopped);
    }
  }

  lemma CancelledStays(m: Manager, a: Action, present: set<Key>, service: nat)
    requires Enabled(m, a) && service < |m.services| && m.services[service].cancelled
    ensures var after := Next(m, a, present); service < |after.services| && after.services[service].cancelled
  {
    if a.Handle? && a.m.SubscribeTo? && a.m.kind == Service && a.m.key !in m.serviceSubs {
      StreamsStartedKeepCancelled(ServiceAdded(m, a.m.key), |m.services|, a.listed, service);
    }
  }

  /** Once the stop of a service has begun, every one of its streams is cancelled for good, including the
      ones that the watcher starts afterwards. */
  lemma {:induction false} StoppedServicesStreamNothing(states: seq<Manager>, actions: seq<Action>, present: set<Key>,
                                                        k: nat, n: nat, service: nat, t: nat)
    requires Run(states, actions, present) && k <= n <= |actions|
    requires service < |states[k].services| && states[k].services[service].cancelled
    requires t < |states[n].streams| && states[n].streams[t].service == service
    ensures states[n].streams[t].cancelled
  {
    CancelledInRuns(states, actions, present, k, n, service);
    InvInRuns(states, actions, present, n);
  }

  lemma {:induction false} CancelledInRuns(states: seq<Manager>, actions: seq<Action>, present: set<Key>,
                                           k: nat, n: nat, service: nat)
    requires Run(states, actions, present) && k <= n <= |actions|
    requires service < |states[k].services| && states[k].services[service].cancelled
    ensures service < |states[n].services| && states[n].services[service].cancelled
  {
    if k < n {
      CancelledInRuns(states, actions, present, k, n - 1, service);
      CancelledStays(states[n - 1], actions[n - 1], present, service);
    }
  }

  /** No cancel channel is ever closed twice, and it is closed exactly when its container is unsubscribed. */
  lemma ChannelsCloseOnce(states: seq<Manager>, actions: seq<Action>, present: set<Key>, n: nat, channel: nat)
    requires Run(states, actions, present) && n <= |actions| && channel < |states[n].closes|
    ensures states[n].closes[channel] == if channel in states[n].subs.Values then 0 else 1
  {
    InvInRuns(states, actions, present, n);
  }

  /** Whenever the manager holds no subscription, as after closing all of them, nothing is left behind:
      every stream ever started is cancelled and every cancel channel was closed exactly once. */
  lemma EmptyManagerLeaksNothing(states: seq<Manager>, actions: seq<Action>, present: set<Key>, n: nat)
    requires Run(states, actions, present) && n <= |actions|
    requires states[n].subs == map[] && states[n].serviceSubs == map[]
    ensures forall t: nat | t < |states[n].streams| :: states[n].streams[t].cancelled
    ensures forall c: nat | c < |states[n].closes| :: states[n].closes[c] == 1
  {
    InvInRuns(states, actions, present, n);
    NothingHeldNothingLeft(states[n]);
  }

  lemma NothingHeldNothingLeft(m: Manager)
    requires Inv(m) && m.subs == map[] && m.serviceSubs == map[]
    ensures forall t: nat | t < |m.streams| :: m.streams[t].cancelled
    ensures forall c: nat | c < |m.closes| :: m.closes[c] == 1
  {
  }

  // ---------------------------------------------------------------------------------------------
  // Which containers are streamed
  // ---------------------------------------------------------------------------------------------

  /** A live stream of this service and container. */
  predicate Streams(m: Manager, t: nat, service: nat, container: ContainerId) {
    t < |m.streams| && m.streams[t] == Stream(service, container, false)
  }

  ghost predicate StreamedOnce(m: Manager, service: nat, container: ContainerId) {
    && (exists t: nat :: Streams(m, t, service, container))
    && (forall t: nat, u: nat | Streams(m, t, service, container) && Streams(m, u, service, container) :: t == u)
  }

  ghost predicate NotStreamed(m: Manager, service: nat, container: ContainerId) {
    forall t: nat :: !Streams(m, t, service, container)
  }

  /** The containers in the map of a live service have one live stream each, and no others have one. */
  lemma StreamedExactlyWhenHeld(m: Manager, service: nat, container: ContainerId)
    requires OwnersFit(m) && LiveExactlyWhenOwned(m) && service < |m.services| && !m.services[service].cancelled
    ensures container in m.services[service].containers ==> StreamedOnce(m, service, container)
    ensures container !in m.services[service].containers ==> NotStreamed(m, service, container)
  {
    if container in m.services[service].containers {
      assert Streams(m, m.services[service].containers[container], service, container);
    }
  }

  /** Earlier streams and the other services stay as they are; new streams belong to this service. */
  ghost predicate OnlyAdds(m: Manager, after: Manager, service: nat) {
    && m.streams <= after.streams
    && (forall t: nat | |m.streams| <= t < |after.streams| :: after.streams[t].service == service)
    && |after.services| == |m.services|
    && (forall i: nat | i < |m.services| && i != service :: after.services[i] == m.services[i])
    && after.subs == m.subs && after.closes == m.closes && after.serviceSubs == m.serviceSubs
  }

  lemma {:induction false} ListedAreHeld(m: Manager, service: nat, listed: seq<ContainerId>)
    requires service < |m.services|
    ensures var after := StreamsStarted(m, service, listed);
            && OnlyAdds(m, after, service)
            && after.services[service].cancelled == m.services[service].cancelled
            && after.services[service].containers.Keys == m.services[service].containers.Keys + Elements(listed)
    decreases |listed|
  {
    if listed != [] {
      assert listed == [listed[0]] + listed[1..];
      assert Elements(listed) == {listed[0]} + Elements(listed[1..]);
      ListedAreHeld(StreamStarted(m, service, listed[0]), service, listed[1..]);
    }
  }

  /** After the subscription of a service it is live under its name, and each of the containers that were listed, and
      no other, is streamed, once; everything else is as it was. */
  lemma SubscribedServiceIsStreamed(m: Manager, key: Key, listed: seq<ContainerId>, present: set<Key>)
    requires Inv(m) && key != "" && key !in m.serviceSubs
    ensures var after, service := Handled(m, SubscribeTo(Service, key), listed, present), |m.services|;
            && after.serviceSubs == m.serviceSubs[key := service]
            && |after.services| == service + 1 && after.services[..service] == m.services
            && !after.services[service].cancelled
            && (forall c :: if c in listed then StreamedOnce(after, service, c) else NotStreamed(after, service, c))
            && m.streams <= after.streams
            && (forall t: nat | |m.streams| <= t < |after.streams| :: after.streams[t].service == service)
            && after.subs == m.subs && after.closes == m.closes
  {
    var after, service := Handled(m, SubscribeTo(Service, key), listed, present), |m.services|;
    ServiceSubscribedKeeps(m, key, listed);
    ListedAreHeld(ServiceAdded(m, key), service, listed);
    forall c ensures if c in listed then StreamedOnce(after, service, c) else NotStreamed(after, service, c) {
      StreamedExactlyWhenHeld(after, service, c);
    }
  }

  /** A repeated subscription, and one with an empty name, change nothing. */
  lemma OtherSubscriptionsAreIgnored(m: Manager, key: Key, listed: seq<ContainerId>, present: set<Key>)
    requires key == "" || key in m.serviceSubs
    ensures Handled(m, SubscribeTo(Service, key), listed, present) == m
  {
  }

  lemma StartedContainer(m: Manager, service: nat, container: ContainerId)
    requires Inv(m) && service < |m.services| && !m.services[service].cancelled
    ensures StreamedOnce(StreamStarted(m, service, container), service, container)
    ensures forall t: nat, i: nat, c | i != service || c != container ::
              Streams(StreamStarted(m, service, container), t, i, c) <==> Streams(m, t, i, c)
  {
    StreamStartedKeeps(m, service, container);
    StreamedExactlyWhenHeld(StreamStarted(m, service, container), service, container);
  }

  lemma DeadContainer(m: Manager, service: nat, container: ContainerId)
    requires Inv(m) && service < |m.services| && !m.services[service].cancelled
    ensures NotStreamed(StreamStopped(m, service, container), service, container)
    ensures forall t: nat, i: nat, c | i != service || c != container ::
              Streams(StreamStopped(m, service, container), t, i, c) <==> Streams(m, t, i, c)
  {
    StreamStoppedKeeps(m, service, container);
    StreamedExactlyWhenHeld(StreamStopped(m, service, container), service, container);
  }

  /** A container that starts is streamed, once, and one that dies is not; other containers and services stay as they
      are. */
  lemma ContainerEvents(m: Manager, service: nat, container: ContainerId)
    requires Inv(m) && service < |m.services| && !m.services[service].cancelled
    ensures StreamedOnce(StreamStarted(m, service, container), service, container)
    ensures NotStreamed(StreamStopped(m, service, container), service, container)
    ensures forall t: nat, i: nat, c | i != service || c != container ::
              && (Streams(StreamStarted(m, service, container), t, i, c) <==> Streams(m, t, i, c))
              && (Streams(StreamStopped(m, service, container), t, i, c) <==> Streams(m, t, i, c))
  {
    StartedContainer(m, service, container);
    DeadContainer(m, service, container);
  }

  /** The containers that service subscription `service` has heard of and that have not died since: those that were
      listed when it was made, and those that started. */
  ghost function Known(states: seq<Manager>, actions: seq<Action>, n: nat, service: nat): set<ContainerId>
    requires n <= |actions| < |states|
  {
    if n == 0 then {}
    else
      var known := Known(states, actions, n - 1, service);
      match actions[n - 1]
      case Handle(_, listed) =>
        if |states[n - 1].services| == service < |states[n].services| then Elements(listed) else known
      case ContainerStarted(i, c) => if i == service then known + {c} else known
      case ContainerDied(i, c) => if i == service then known - {c} else known
      case StopSweeps(_) => known
  }

  function Holding(m: Manager, service: nat): set<ContainerId> {
    if service < |m.services| then m.services[service].containers.Keys else {}
  }

  lemma {:induction false} SubscribeStepHolds(m: Manager, key: Key, listed: seq<ContainerId>, service: nat)
    ensures var after := ServiceSubscribed(m, key, listed);
            Holding(after, service)
            == if |m.services| == service < |after.services| then Elements(listed) else Holding(m, service)
  {
    if key !in m.serviceSubs {
      ListedAreHeld(ServiceAdded(m, key), |m.services|, listed);
    }
  }

  lemma {:induction false} HandleHolds(m: Manager, message: Message, listed: seq<ContainerId>, present: set<Key>,
                                       service: nat)
    ensures var after := Handled(m, message, listed, present);
            Holding(after, service)
            == if |m.services| == service < |after.services| then Elements(listed) else Holding(m, service)
  {
    SubscribeStepHolds(m, message.key, listed, service);
  }

  lemma StreamStepHolds(m: Manager, i: nat, c: ContainerId, service: nat)
    requires i < |m.services|
    ensures Holding(StreamStarted(m, i, c), service) == Holding(m, service) + if i == service then {c} else {}
    ensures Holding(StreamStopped(m, i, c), service) == Holding(m, service) - if i == service then {c} else {}
    ensures i != service ==> Holding(ServiceSwept(m, i), service) == Holding(m, service)
  {
  }

  lemma RunNext(states: seq<Manager>, actions: seq<Action>, present: set<Key>, k: nat, n: nat)
    requires Run(states, actions, present) && n == k + 1 <= |actions|
    ensures Enabled(states[k], actions[k]) && states[n] == Next(states[k], actions[k], present)
  {
  }

  lemma {:induction false} HoldingStep(states: seq<Manager>, actions: seq<Action>, present: set<Key>, k: nat, n: nat,
                                       service: nat)
    requires Run(states, actions, present) && n == k + 1 <= |actions|
    requires Holding(states[k], service) == Known(states, actions, k, service)
    requires actions[k] != StopSweeps(service)
    ensures Holding(states[n], service) == Known(states, actions, n, service)
  {
    RunNext(states, actions, present, k, n);
    match actions[k]
    case Handle(message, listed) => HandleHolds(states[k], message, listed, present, service);
    case ContainerStarted(i, c) => StreamStepHolds(states[k], i, c, service);
    case ContainerDied(i, c) => StreamStepHolds(states[k], i, c, service);
    case StopSweeps(i) => StreamStepHolds(states[k], i, "", service);
  }

  lemma {:induction false} LiveBefore(states: seq<Manager>, actions: seq<Action>, present: set<Key>, k: nat, n: nat,
                                      service: nat)
    requires Run(states, actions, present) && n == k + 1 <= |actions|
    requires service < |states[n].services| ==> !states[n].services[service].cancelled
    ensures service < |states[k].services| ==> !states[k].services[service].cancelled
    ensures actions[k] != StopSweeps(service)
  {
    RunNext(states, actions, present, k, n);
    if service < |states[k].services| && states[k].services[service].cancelled {
      CancelledStays(states[k], actions[k], present, service);
    }
  }

  lemma {:induction false} HoldingIsKnown(states: seq<Manager>, actions: seq<Action>, present: set<Key>, n: nat,
                                          service: nat)
    requires Run(states, actions, present) && n <= |actions|
    requires service < |states[n].services| ==> !states[n].services[service].cancelled
    ensures Holding(states[n], service) == Known(states, actions, n, service)
  {
    if n > 0 {
      var k: nat := n - 1;
      LiveBefore(states, actions, present, k, n, service);
      HoldingIsKnown(states, actions, present, k, service);
      HoldingStep(states, actions, present, k, n, service);
    }
  }

  /** In every interleaving: as long as a service is not being stopped, exactly the containers it knows of are streamed,
      each of them once. */
  lemma {:induction false} KnownContainersAreStreamed(states: seq<Manager>, actions: seq<Action>, present: set<Key>,
                                                      n: nat, service: nat, c: ContainerId)
    requires Run(states, actions, present) && n <= |actions|
    requires service < |states[n].services| && !states[n].services[service].cancelled
    ensures if c in Known(states, actions, n, service) then StreamedOnce(states[n], service, c)
            else NotStreamed(states[n], service, c)
  {
    InvInRuns(states, actions, present, n);
    HoldingIsKnown(states, actions, present, n, service);
    StreamedExactlyWhenHeld(states[n], service, c);
  }

  /** The second half of a stop forgets the containers of the service.  Their streams were cancelled by the first half
      already, so nothing else changes. */
  lemma SweptServiceHoldsNothing(m: Manager, service: nat, present: set<Key>)
    requires Inv(m) && Enabled(m, StopSweeps(service))
    ensures Next(m, StopSweeps(service), present)
         == m.(services := m.services[service := ServiceSub(true, map[])])
  {
    var after := Next(m, StopSweeps(service), present);
    forall t: nat | t < |m.streams| ensures after.streams[t] == m.streams[t] {
      if Owned(m, service, t) {
        assert m.streams[t].cancelled;
      }
    }
    assert after.streams == m.streams;
  }

  // ---------------------------------------------------------------------------------------------
  // The manager object
  // ---------------------------------------------------------------------------------------------

  class SubscriptionManager {
    var subs: map<Key, nat>
    var closes: seq<nat>
    var serviceSubs: map<Key, nat>
    var services: seq<ServiceSub>
    var streams: seq<Stream>

    ghost function State(): Manager
      reads this
    {
      Manager(subs, closes, serviceSubs, services, streams)
    }

    constructor ()
      ensures State() == IDLE
    {
      subs, closes, serviceSubs, services, streams := map[], [], map[], [], [];
    }

    method Subscribe(key: Key, containerExists: bool)
      modifies this`subs, this`closes
      ensures State() == ContainerSubscribed(old(State()), key, containerExists)
    {
      if key in subs || !containerExists {
        return;
      }
      closes := closes + [0];
      subs := subs[key := |closes| - 1];
    }

    method Unsubscribe(key: Key)
      requires Inv(State())
      modifies this`subs, this`closes
      ensures State() == ContainerUnsubscribed(old(State()), key)
    {
      if key in subs {
        closes := closes[subs[key] := closes[subs[key]] + 1];
        subs := subs - {key};
      }
    }

    method StartContainerStream(service: nat, container: ContainerId)
      requires service < |services|
      modifies this`services, this`streams
      ensures State() == StreamStarted(old(State()), service, container)
    {
      var sub := services[service];
      if container in sub.containers {
        return;
      }
      streams := streams + [Stream(service, container, sub.cancelled)];
      services := services[service := sub.(containers := sub.containers[container := |streams| - 1])];
    }

    method StopContainerStream(service: nat, container: ContainerId)
      requires service < |services| && OwnersFit(State())
      modifies this`services, this`streams
      ensures State() == StreamStopped(old(State()), service, container)
    {
      var sub := services[service];
      if container in sub.containers {
        var t := sub.containers[container];
        streams := streams[t := streams[t].(cancelled := true)];
        services := services[service := sub.(containers := sub.containers - {container})];
      }
    }

    method SubscribeService(key: Key, listed: seq<ContainerId>)
      modifies this`serviceSubs, this`services, this`streams
      ensures State() == ServiceSubscribed(old(State()), key, listed)
    {
      if key in serviceSubs {
        return;
      }
      var service := |services|;
      services := services + [ServiceSub(false, map[])];
      serviceSubs := serviceSubs[key := service];
      ghost var added := State();
      assert listed[0..] == listed;
      for i := 0 to |listed|
        invariant service < |services|
        invariant StreamsStarted(State(), service, listed[i..]) == StreamsStarted(added, service, listed)
      {
        assert listed[i..][0] == listed[i] && listed[i..][1..] == listed[i + 1..];
        StartContainerStream(service, listed[i]);
      }
      assert listed[|listed|..] == [];
    }

    /** Second half of a stop: cancels the streams in the service's map one by one and empties it. */
    method Sweep(service: nat)
      requires service < |services| && OwnersFit(State())
      modifies this`services, this`streams
      ensures State() == ServiceSwept(old(State()), service)
    {
      ghost var m := State();
      var containers := services[service].containers;
      var left := containers.Keys;
      while left != {}
        invariant left <= containers.Keys && services == m.services && |streams| == |m.streams|
        invariant forall t: nat | t < |streams| ::
            streams[t] == if Owned(m, service, t) && m.streams[t].container !in left
                          then m.streams[t].(cancelled := true) else m.streams[t]
      {
        var c :| c in left;
        streams := streams[containers[c] := streams[containers[c]].(cancelled := true)];
        left := left - {c};
      }
      services := services[service := services[service].(containers := map[])];
      assert streams == ServiceSwept(m, service).streams;
    }

    method UnsubscribeService(key: Key)
      requires Inv(State())
      modifies this`serviceSubs, this`services, this`streams
      ensures key !in old(serviceSubs) ==> State() == old(State())
      ensures key in old(serviceSubs) ==>
                State() == ServiceSwept(ServiceUnsubscribed(old(State()), key), old(serviceSubs[key]))
      ensures Inv(State()) && serviceSubs == old(serviceSubs) - {key}
    {
      if key in serviceSubs {
        ghost var m := State();
        ServiceUnsubscribedKeeps(m, key);
        var service := serviceSubs[key];
        services := services[service := services[service].(cancelled := true)];
        var all := streams;
        streams := seq(|all|, t requires 0 <= t < |all| =>
                         if all[t].service == service then all[t].(cancelled := true) else all[t]);
        serviceSubs := serviceSubs - {key};
        assert State() == ServiceUnsubscribed(m, key);
        ServiceSweptKeeps(State(), service);
        Sweep(service);
      }
    }

    method CloseContainer(key: Key)
      requires Inv(State()) && key in subs
      modifies this`subs, this`closes
      ensures Inv(State()) && subs.Keys + {key} == old(subs).Keys && |subs| < old(|subs|) && |closes| == old(|closes|)
    {
      ghost var before := subs;
      ContainerUnsubscribedKeeps(State(), key);
      Unsubscribe(key);
      assert before.Keys == subs.Keys + {key};
    }

    method CloseContainers()
      requires Inv(State())
      modifies this`subs, this`closes
      ensures Inv(State()) && subs == map[] && |closes| == old(|closes|)
    {
      while subs != map[]
        invariant Inv(State()) && |closes| == old(|closes|)
        decreases |subs|
      {
        var key :| key in subs;
        CloseContainer(key);
      }
    }

    method CloseService(key: Key)
      requires Inv(State()) && key in serviceSubs
      modifies this`serviceSubs, this`services, this`streams
      ensures Inv(State()) && serviceSubs.Keys + {key} == old(serviceSubs).Keys && |serviceSubs| < old(|serviceSubs|)
      ensures |streams| == old(|streams|)
    {
      ghost var before := serviceSubs;
      UnsubscribeService(key);
      assert before.Keys == serviceSubs.Keys + {key};
    }

    method CloseServices()
      requires Inv(State())
      modifies this`serviceSubs, this`services, this`streams
      ensures Inv(State()) && serviceSubs == map[] && |streams| == old(|streams|)
    {
      while serviceSubs != map[]
        invariant Inv(State()) && |streams| == old(|streams|)
        decreases |serviceSubs|
      {
        var key :| key in serviceSubs;
        CloseService(key);
      }
    }

    /** Run when the socket's read loop ends.  Every cancel channel there is was then closed once, and every stream
        is cancelled. */
    method CloseAll()
      requires Inv(State())
      modifies this
      ensures Inv(State()) && subs == map[] && serviceSubs == map[]
      ensures |closes| == old(|closes|) && forall c: nat | c < |closes| :: closes[c] == 1
      ensures |streams| == old(|streams|) && forall t: nat | t < |streams| :: streams[t].cancelled
    {
      CloseContainers();
      CloseServices();
      NothingHeldNothingLeft(State());
    }
  }
}
