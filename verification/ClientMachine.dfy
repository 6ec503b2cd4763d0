/** The client state machine with its fields updated in place, its publisher and its
    disconnecter (cloudmqtt-core/src/client/mod.rs). Every method is the step of
    ClientSpec of the same name. */
module ClientMachine {
  import opened Wire
  import opened Packets
  import opened IdentifierStore
  import opened ClientSpec

  class MqttClientFSM {
    const hash: Hash
    const store: UsizePacketIdentifierStore
    var keepAlive: nat
    var idHash: Option<nat>
    var lastRun: nat
    var conn: Connection

    ghost predicate Valid()
      reads this, store
    {
      store.Valid()
    }

    /** The value the fields and the two words of the store represent. */
    ghost function State(): Client
      reads this, store
    {
      Client(keepAlive, idHash, lastRun, conn, store.Ids())
    }

    constructor (hash: Hash)
      ensures Valid() && fresh(store) && State() == NewClient() && this.hash == hash
    {
      this.hash := hash;
      store := new UsizePacketIdentifierStore();
      keepAlive, idHash, lastRun, conn := 0, None, 0, Disconnected;
    }

    method HandleConnect(t: nat, p: Raw) returns (action: Action)
      requires Valid() && CanConnect(hash, State(), p)
      modifies this
      ensures Valid() && State() == ClientSpec.HandleConnect(hash, old(State()), t, p)
      ensures action == SendPacket(p)
    {
      keepAlive := p.keepAlive;
      var clientHash := if p.clientId == [] then None else Some(hash(p.clientId));
      if idHash.None? {
        idHash := clientHash;
      }
      conn := Connecting(t);
      action := SendPacket(p);
    }

    method ResetConnection()
      requires Valid()
      modifies this, store
      ensures Valid() && State() == ClientSpec.ResetConnection(old(State()))
    {
      store.ReleaseNonPublishSlots();
      conn := Disconnected;
    }

    method ConnectionLost(t: nat)
      requires Valid()
      modifies this, store
      ensures Valid() && State() == ClientSpec.ConnectionLost(old(State()), t)
    {
      lastRun := t;
      ResetConnection();
    }

    method ConsumeConnack(p: Raw) returns (action: Option<Action>)
      requires Valid() && conn.Connecting? && p.Connack?
      modifies this
      ensures Valid() && (State(), action) == ClientSpec.ConsumeConnack(hash, old(State()), p)
    {
      var interval := ServerKeepAlive(p.props);
      if interval.Some? {
        keepAlive := interval.value;
      }
      var clientId := AssignedClientId(p.props);
      action := None;
      if clientId.Some? {
        idHash := Some(hash(clientId.value));
        action := Some(SaveClientIdentifier(clientId.value));
      }
      conn := Connected(conn.connectSent, WaitingForElapsed);
    }

    method ConsumeConnected(p: Raw) returns (action: Option<Action>)
      requires Valid() && conn.Connected? && CanConsume(State(), p)
      modifies this, store
      ensures Valid() && (State(), action) == ClientSpec.ConsumeConnected(old(State()), p)
    {
      action := None;
      match p
      case Publish(_, qos, _, _, pid, _, _) =>
        if qos == AtMostOnce {
          action := Some(ReceivePacket(p));
        } else {
          action := Some(ReceiveAndAcknowledge(p, pid.value));
        }
      case Disconnect(_, _) =>
        ResetConnection();
        action := Some(CloseConnection);
      case Ack(_, id, _, _) =>
        store.Release(id);
        action := Some(ReleasePacket(id));
      case Suback(id, _, _) =>
        store.Release(id);
      case Pingresp =>
        conn := Connected(conn.lastSent, WaitingForElapsed);
      case _ =>
    }

    /** MqttClientConsumer::run. */
    method Consume(t: nat, p: Raw) returns (action: Option<Action>)
      requires Valid() && CanConsume(State(), p)
      modifies this, store
      ensures Valid() && (State(), action) == ClientSpec.Consume(hash, old(State()), t, p)
    {
      ghost var before := State();
      match conn
      case Disconnected =>
        action := None;
        lastRun := t;
        assert State() == before.(lastRun := t);
      case Connecting(_) =>
        action := ConsumeConnack(p);
        lastRun := t;
      case Connected(_, _) =>
        action := ConsumeConnected(p);
        lastRun := t;
    }

    /** `inner_run` with a packet to send. */
    method SendOut(t: nat, p: Raw) returns (action: Option<Action>)
      requires Valid() && !conn.Connecting?
      modifies this
      ensures Valid() && (State(), action) == ClientSpec.SendOut(old(State()), t, p)
    {
      action := None;
      if conn.Connected? {
        conn := Connected(t, conn.ping);
        action := Some(SendPacket(p));
      }
      lastRun := t;
    }

    /** `run` with nothing to consume or send: the keep-alive. */
    method Run(t: nat) returns (action: Option<Action>)
      requires Valid()
      modifies this
      ensures Valid() && (State(), action) == RunIdle(old(State()), t)
    {
      action := None;
      if conn.Connected? && keepAlive > 0 {
        match conn.ping
        case WaitingForElapsed =>
          if Elapsed(conn.lastSent, t) >= keepAlive {
            conn := Connected(t, WaitingForPingresp(t));
            action := Some(SendPacket(Pingreq));
          }
        case WaitingForPingresp(_) =>
      }
      lastRun := t;
    }

    method Subscribe(t: nat, p: Raw) returns (action: Action)
      requires Valid() && CanSubscribe(State(), p)
      modifies this, store
      ensures Valid() && (State(), Some(action)) == DoSubscribe(old(State()), t, p)
    {
      var id := store.GetNextFree(NotForPublish);
      var sent := SendOut(t, Packet.Subscribe(id.value, p.props, p.entries));
      action := sent.value;
    }

    method Acknowledge(t: nat, id: nat) returns (action: Action)
      requires Valid() && conn.Connected?
      modifies this
      ensures Valid() && (State(), Some(action)) == ClientSpec.Acknowledge(old(State()), t, id)
    {
      var sent := SendOut(t, PubackFor(id));
      action := sent.value;
    }
  }

  /** MqttClientPublisher: borrows the client until the publish is through. */
  class MqttClientPublisher {
    const client: MqttClientFSM
    var packet: Option<Raw>
    var state: PublishingState

    ghost function Value(): Publisher
      reads this
    {
      Publisher(packet, state)
    }

    constructor (client: MqttClientFSM, p: Raw)
      requires p.Publish?
      ensures this.client == client && Value() == NewPublisher(p)
    {
      this.client := client;
      packet := Some(p);
      state := if p.qos == AtMostOnce then Send else Store;
    }

    method Run(t: nat) returns (action: Option<Action>)
      requires client.Valid() && CanRunPublisher(client.State(), Value())
      modifies this, client, client.store
      ensures client.Valid()
      ensures (client.State(), Value(), action) == RunPublisher(old(client.State()), old(Value()), t)
    {
      match state
      case Store =>
        var id := client.store.GetNextFree(ForPublish);
        packet := Some(Stamp(packet.value, id.value));
        state := Send;
        action := Some(StorePacket(id.value));
      case Send =>
        var outgoing := packet.value;
        state := Finished;
        packet := None;
        action := client.SendOut(t, outgoing);
      case Finished =>
        action := None;
    }
  }

  /** What driving a publisher to its end yields on an open connection. */
  function PublishScript(ids: Ids, p: Raw): seq<Action>
    requires p.Publish? && (p.qos != AtMostOnce ==> NextFree(ids, 1).Some?)
  {
    if p.qos == AtMostOnce then [SendPacket(p)]
    else
      var id := NextFree(ids, 1).value;
      [StorePacket(id), SendPacket(Stamp(p, id))]
  }

  /** The driver loop of cloudmqtt/src/client.rs: run the publisher until it yields
      nothing. On an open connection with a free identifier it ends, sends the message
      exactly once, and above QoS 0 announces first the fresh identifier it stamps. */
  method DrivePublisher(client: MqttClientFSM, p: Raw, clock: nat -> nat) returns (actions: seq<Action>)
    requires client.Valid() && client.conn.Connected? && p.Publish?
    requires p.qos != AtMostOnce ==> NextFree(client.State().ids, 1).Some?
    modifies client, client.store
    ensures client.Valid() && client.conn.Connected?
    ensures p.qos == AtMostOnce ==> actions == [SendPacket(p)]
    ensures p.qos != AtMostOnce ==>
              var id := NextFree(old(client.State().ids), 1).value;
              actions == [StorePacket(id), SendPacket(p.(pid := Some(id)))]
    ensures client.State().ids == if p.qos == AtMostOnce then old(client.State().ids)
                                  else old(client.State().ids)[NextFree(old(client.State().ids), 1).value := ForPublish]
  {
    hide NextFree;
    var publisher := new MqttClientPublisher(client, p);
    actions := [];
    var calls := 0;
    ghost var ids := client.State().ids;
    ghost var script := PublishScript(ids, p);
    ghost var after := if p.qos == AtMostOnce then ids else ids[NextFree(ids, 1).value := ForPublish];
    var action := publisher.Run(clock(calls));
    while action.Some?
      invariant client.Valid() && client.conn.Connected? && publisher.client == client && fresh(publisher)
      invariant PublisherValid(publisher.Value()) && !publisher.state.Store?
      invariant script == actions
                          + (if action.Some? then [action.value] else [])
                          + (if publisher.state.Send? then [SendPacket(publisher.packet.value)] else [])
      invariant action.None? ==> publisher.state.Finished?
      invariant client.State().ids == after
      decreases publisher.state.Send?, action.Some?
    {
      actions := actions + [action.value];
      calls := calls + 1;
      action := publisher.Run(clock(calls));
    }
  }

  /** MqttClientDisconnecter. */
  class MqttClientDisconnecter {
    const client: MqttClientFSM
    var state: DisconnectState

    constructor (client: MqttClientFSM, p: Raw)
      requires p.Disconnect?
      ensures this.client == client && state == DisconnectWith(p)
    {
      this.client := client;
      state := DisconnectWith(p);
    }

    method Run(t: nat) returns (action: Option<Action>)
      requires client.Valid()
      modifies this, client, client.store
      ensures client.Valid()
      ensures (client.State(), state, action) == RunDisconnecter(old(client.State()), old(state))
    {
      match state
      case DisconnectWith(p) =>
        state := DisconnectConnection;
        action := Some(SendPacket(p));
      case DisconnectConnection =>
        state := DisconnectDone;
        client.ResetConnection();
        action := Some(CloseConnection);
      case DisconnectDone =>
        action := None;
    }
  }
}
