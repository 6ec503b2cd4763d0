/** The client state machine as steps on values (cloudmqtt-core/src/client/mod.rs). The
    classes of ClientMachine are proved against these steps; whole runs are studied in
    ClientLaws. Every panic, assertion and unwrap of the source is a condition that
    enables a step. */
module ClientSpec {
  import opened Wire
  import opened Sections
  import opened Packets
  import opened IdentifierStore

  datatype PingState = WaitingForElapsed | WaitingForPingresp(since: nat)

  datatype Connection =
    | Disconnected
    | Connecting(connectSent: nat)
    | Connected(lastSent: nat, ping: PingState)

  datatype Client =
    Client(keepAlive: nat, idHash: Option<nat>, lastRun: nat, conn: Connection, ids: Ids)

  datatype Action =
    | SendPacket(packet: Raw)
    | SaveClientIdentifier(clientId: bytes)
    | StorePacket(id: nat)
    | ReleasePacket(id: nat)
    | ReceivePacket(packet: Raw)
    | ReceiveAndAcknowledge(packet: Raw, token: nat)
    | CloseConnection

  /** FxHasher on a client identifier; which function it is plays no role. */
  type Hash = bytes -> nat

  /** elapsed_seconds: the absolute difference, whichever time is later. */
  function Elapsed(a: nat, b: nat): nat {
    if a <= b then b - a else a - b
  }

  function NewClient(): Client {
    Client(0, None, 0, Disconnected, map[])
  }

  // -------------------------------------------------------------- entry points

  predicate CanConnect(h: Hash, c: Client, p: Raw) {
    && p.Connect? && c.conn.Disconnected?
    && (c.idHash.Some? ==> p.clientId != [] && h(p.clientId) == c.idHash.value)
  }

  function HandleConnect(h: Hash, c: Client, t: nat, p: Raw): Client
    requires CanConnect(h, c, p)
  {
    var idHash := if p.clientId == [] then None else Some(h(p.clientId));
    c.(keepAlive := p.keepAlive, idHash := if c.idHash.Some? then c.idHash else idHash,
       conn := Connecting(t))
  }

  /** reset_connection: publish identifiers survive. */
  function ResetConnection(c: Client): Client {
    c.(ids := KeepPublish(c.ids), conn := Disconnected)
  }

  function ConnectionLost(c: Client, t: nat): Client {
    ResetConnection(c.(lastRun := t))
  }

  function ServerKeepAlive(props: Lazy): Option<nat> {
    if 0x13 in props && props[0x13].Num? then Some(props[0x13].n) else None
  }

  function AssignedClientId(props: Lazy): Option<bytes> {
    if 0x12 in props && props[0x12].Data? then Some(props[0x12].b) else None
  }

  /** When consuming a packet does not panic. */
  predicate CanConsume(c: Client, p: Raw) {
    match c.conn
    case Disconnected => true
    case Connecting(_) => p.Connack? && p.reason == 0
    case Connected(_, ping) =>
      match p
      case Publish(_, qos, _, _, pid, _, _) => qos == AtMostOnce || (qos == AtLeastOnce && pid.Some?)
      case Disconnect(_, _) => true
      case Ack(kind, id, _, _) => kind == Puback && id in c.ids
      case Suback(id, _, _) => id in c.ids
      case Pingresp => ping.WaitingForPingresp?
      case _ => false
  }

  function ConsumeConnack(h: Hash, c: Client, p: Raw): (Client, Option<Action>)
    requires c.conn.Connecting? && p.Connack?
  {
    var given := ServerKeepAlive(p.props);
    var fromServer := AssignedClientId(p.props);
    var interval := if given.Some? then given.value else c.keepAlive;
    var hash := if fromServer.Some? then Some(h(fromServer.value)) else c.idHash;
    (c.(keepAlive := interval, idHash := hash, conn := Connected(c.conn.connectSent, WaitingForElapsed)),
     if fromServer.Some? then Some(SaveClientIdentifier(fromServer.value)) else None)
  }

  function ConsumeConnected(c: Client, p: Raw): (Client, Option<Action>)
    requires c.conn.Connected? && CanConsume(c, p)
  {
    match p
    case Publish(_, qos, _, _, pid, _, _) =>
      (c, Some(if qos == AtMostOnce then ReceivePacket(p) else ReceiveAndAcknowledge(p, pid.value)))
    case Disconnect(_, _) => (ResetConnection(c), Some(CloseConnection))
    case Ack(_, id, _, _) => (c.(ids := c.ids - {id}), Some(ReleasePacket(id)))
    case Suback(id, _, _) => (c.(ids := c.ids - {id}), None)
    case Pingresp => (c.(conn := Connected(c.conn.lastSent, WaitingForElapsed)), None)
    case _ => (c, None)
  }

  function Consume(h: Hash, c: Client, t: nat, p: Raw): (Client, Option<Action>)
    requires CanConsume(c, p)
  {
    var (c', a) := match c.conn
                   case Disconnected => (c, None)
                   case Connecting(_) => ConsumeConnack(h, c, p)
                   case Connected(_, _) => ConsumeConnected(c, p);
    (c'.(lastRun := t), a)
  }

  /** Handing an outgoing packet to `inner_run`: lost when disconnected, sent when
      connected, not implemented in between. */
  function SendOut(c: Client, t: nat, p: Raw): (Client, Option<Action>)
    requires !c.conn.Connecting?
  {
    if c.conn.Connected? then
      (c.(conn := Connected(t, c.conn.ping), lastRun := t), Some(SendPacket(p)))
    else (c.(lastRun := t), None)
  }

  function PingDue(c: Client, t: nat): bool {
    && c.conn.Connected? && c.keepAlive > 0 && c.conn.ping.WaitingForElapsed?
    && Elapsed(c.conn.lastSent, t) >= c.keepAlive
  }

  /** `run` without external information. */
  function RunIdle(c: Client, t: nat): (Client, Option<Action>) {
    if PingDue(c, t) then
      (c.(conn := Connected(t, WaitingForPingresp(t)), lastRun := t), Some(SendPacket(Pingreq)))
    else (c.(lastRun := t), None)
  }

  predicate CanSubscribe(c: Client, p: Raw) {
    p.Subscribe? && c.conn.Connected? && NextFree(c.ids, 1).Some?
  }

  function DoSubscribe(c: Client, t: nat, p: Raw): (Client, Option<Action>)
    requires CanSubscribe(c, p)
  {
    var id := NextFree(c.ids, 1).value;
    SendOut(c.(ids := c.ids[id := NotForPublish]), t, Subscribe(id, p.props, p.entries))
  }

  function PubackFor(id: nat): Raw {
    Ack(Puback, id, 0, map[])
  }

  function Acknowledge(c: Client, t: nat, id: nat): (Client, Option<Action>)
    requires c.conn.Connected?
  {
    SendOut(c, t, PubackFor(id))
  }

  // ------------------------------------------------------------ publisher, disconnecter

  datatype PublishingState = Store | Send | Finished

  datatype Publisher = Publisher(packet: Option<Raw>, state: PublishingState)

  function NewPublisher(p: Raw): Publisher
    requires p.Publish?
  {
    Publisher(Some(p), if p.qos == AtMostOnce then Send else Store)
  }

  function Stamp(p: Raw, id: nat): Raw
    requires p.Publish?
  {
    Publish(p.dup, p.qos, p.retain, p.topic, Some(id), p.props, p.payload)
  }

  predicate PublisherValid(b: Publisher) {
    && (b.packet.Some? ==> b.packet.value.Publish?)
    && (b.state.Store? ==> b.packet.Some? && b.packet.value.qos != AtMostOnce)
    && (b.state.Send? ==> b.packet.Some?)
  }

  predicate CanRunPublisher(c: Client, b: Publisher) {
    && PublisherValid(b)
    && (b.state.Store? ==> NextFree(c.ids, 1).Some?)
    && (b.state.Send? ==> !c.conn.Connecting?)
  }

  function RunPublisher(c: Client, b: Publisher, t: nat): (Client, Publisher, Option<Action>)
    requires CanRunPublisher(c, b)
  {
    match b.state
    case Store =>
      var id := NextFree(c.ids, 1).value;
      (c.(ids := c.ids[id := ForPublish]), Publisher(Some(Stamp(b.packet.value, id)), Send),
       Some(StorePacket(id)))
    case Send =>
      var (c', a) := SendOut(c, t, b.packet.value);
      (c', Publisher(None, Finished), a)
    case Finished => (c, b, None)
  }

  datatype DisconnectState = DisconnectWith(packet: Raw) | DisconnectConnection | DisconnectDone

  function RunDisconnecter(c: Client, d: DisconnectState): (Client, DisconnectState, Option<Action>) {
    match d
    case DisconnectWith(p) => (c, DisconnectConnection, Some(SendPacket(p)))
    case DisconnectConnection => (ResetConnection(c), DisconnectDone, Some(CloseConnection))
    case DisconnectDone => (c, DisconnectDone, None)
  }

  // -------------------------------------------------------------------- whole system

  /** The publisher or disconnecter that currently borrows the client. */
  datatype Handle = Idle | Publishing(publisher: Publisher) | Disconnecting(state: DisconnectState)

  /** The client, the handle that borrows it, and the acknowledgement tokens its user
      holds: a token comes from a received packet and is used up by acknowledging. */
  datatype System = System(client: Client, handle: Handle, tokens: multiset<nat>)

  datatype Event =
    | EConnect(t: nat, packet: Raw)
    | EConsume(t: nat, packet: Raw)
    | ERun(t: nat)
    | ELost(t: nat)
    | ESubscribe(t: nat, packet: Raw)
    | EAcknowledge(t: nat, id: nat)
    | EPublish(packet: Raw)
    | ERunPublisher(t: nat)
    | EDisconnect(packet: Raw)
    | ERunDisconnecter(t: nat)

  predicate Enabled(h: Hash, s: System, e: Event) {
    match e
    case EConnect(_, p) => CanConnect(h, s.client, p)
    case EConsume(_, p) => CanConsume(s.client, p)
    case ERun(_) => true
    case ELost(_) => true
    case ESubscribe(_, p) => CanSubscribe(s.client, p)
    case EAcknowledge(_, id) => s.client.conn.Connected? && id in s.tokens
    case EPublish(p) => p.Publish?
    case ERunPublisher(_) => s.handle.Publishing? && CanRunPublisher(s.client, s.handle.publisher)
    case EDisconnect(p) => p.Disconnect?
    case ERunDisconnecter(_) => s.handle.Disconnecting?
  }

  /** A call on the client itself ends the borrow of any handle. */
  function Free(s: System, r: (Client, Option<Action>)): (System, Option<Action>) {
    (System(r.0, Idle, s.tokens), r.1)
  }

  function GainToken(tokens: multiset<nat>, a: Option<Action>): multiset<nat> {
    if a.Some? && a.value.ReceiveAndAcknowledge? then tokens + multiset{a.value.token} else tokens
  }

  function Step(h: Hash, s: System, e: Event): (System, Option<Action>)
    requires Enabled(h, s, e)
  {
    match e
    case EConnect(t, p) => Free(s, (HandleConnect(h, s.client, t, p), Some(SendPacket(p))))
    case EConsume(t, p) => (
      var (c, a) := Consume(h, s.client, t, p);
      (System(c, Idle, GainToken(s.tokens, a)), a))
    case ERun(t) => Free(s, RunIdle(s.client, t))
    case ELost(t) => Free(s, (ConnectionLost(s.client, t), None))
    case ESubscribe(t, p) => Free(s, DoSubscribe(s.client, t, p))
    case EAcknowledge(t, id) =>
      Free(s.(tokens := s.tokens - multiset{id}), Acknowledge(s.client, t, id))
    case EPublish(p) => (s.(handle := Publishing(NewPublisher(p))), None)
    case ERunPublisher(t) => (
      var (c, b, a) := RunPublisher(s.client, s.handle.publisher, t);
      (System(c, Publishing(b), s.tokens), a))
    case EDisconnect(p) => (s.(handle := Disconnecting(DisconnectWith(p))), None)
    case ERunDisconnecter(_) => (
      var (c, d, a) := RunDisconnecter(s.client, s.handle.state);
      (System(c, Disconnecting(d), s.tokens), a))
  }

  /** One line of a trace: what was called and what came back. */
  datatype Label = Label(event: Event, action: Option<Action>)

  function Start(): System {
    System(NewClient(), Idle, multiset{})
  }

  /** A run: the states passed and the trace, from the initial state. */
  ghost predicate Run(h: Hash, states: seq<System>, labels: seq<Label>) {
    && |states| == |labels| + 1 && states[0] == Start()
    && forall i :: 0 <= i < |labels| ==> Stepped(h, states[i], labels[i], states[i + 1])
  }

  ghost predicate Stepped(h: Hash, s: System, l: Label, s': System) {
    Enabled(h, s, l.event) && Step(h, s, l.event) == (s', l.action)
  }
}
