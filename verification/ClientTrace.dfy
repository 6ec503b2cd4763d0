/** The trace decides: from the calls made so far and what came back, it is known which
    calls are allowed next, that is, do not panic, and what each of them gives. The state
    of the client appears in the proofs only. */
module ClientTrace {
  import opened Wire
  import opened Properties
  import opened Sections
  import opened SectionLaws
  import opened Packets
  import opened IdentifierStore
  import opened ClientSpec
  import opened ClientLaws

  // ---------------------------------------------------------------- identifiers held

  /** What a step does to the identifiers in use, read off its label: StorePacket and
      SUBSCRIBE take one, PUBACK and SUBACK give one back, and a reset keeps those of
      publishes only. */
  function IdsAfter(ids: Ids, l: Label, open: bool): Ids {
    if IsReset(l) then map id | id in ids && ids[id] == ForPublish :: ForPublish
    else if l.action.Some? && l.action.value.StorePacket? then ids[l.action.value.id := ForPublish]
    else if l.action.Some? && l.action.value.ReleasePacket? then ids - {l.action.value.id}
    else if l.action.Some? && l.action.value.SendPacket? && l.action.value.packet.Subscribe? then
      ids[l.action.value.packet.id := NotForPublish]
    else if l.event.EConsume? && l.event.packet.Suback? && open then ids - {l.event.packet.id}
    else ids
  }

  /** The identifiers in use and for what, by the trace. */
  ghost function Held(labels: seq<Label>, n: nat): Ids
    requires n <= |labels|
  {
    if n == 0 then map[] else IdsAfter(Held(labels, n - 1), labels[n - 1], ConnectionOpen(labels, n - 1))
  }

  lemma KeepPublishIs(ids: Ids)
    ensures KeepPublish(ids) == map id | id in ids && ids[id] == ForPublish :: ForPublish
  {
  }

  lemma ConsumeIds(h: Hash, s: System, l: Label, s': System)
    requires Stepped(h, s, l, s') && l.event.EConsume?
    ensures s'.client.ids == IdsAfter(s.client.ids, l, s.client.conn.Connected?)
  {
    hide ServerKeepAlive, AssignedClientId, KeepPublish;
    KeepPublishIs(s.client.ids);
  }

  lemma PublisherIds(h: Hash, s: System, l: Label, s': System)
    requires Stepped(h, s, l, s') && HandleOk(s.handle) && l.event.ERunPublisher?
    ensures s'.client.ids == IdsAfter(s.client.ids, l, s.client.conn.Connected?)
  {
    hide NextFree;
  }

  lemma SubscribeIds(h: Hash, s: System, l: Label, s': System)
    requires Stepped(h, s, l, s') && l.event.ESubscribe?
    ensures s'.client.ids == IdsAfter(s.client.ids, l, s.client.conn.Connected?)
  {
    hide NextFree;
  }

  lemma ResettingIds(h: Hash, s: System, l: Label, s': System)
    requires Stepped(h, s, l, s') && HandleOk(s.handle) && (l.event.ERunDisconnecter? || l.event.ELost?)
    ensures s'.client.ids == IdsAfter(s.client.ids, l, s.client.conn.Connected?)
  {
    hide KeepPublish;
    KeepPublishIs(s.client.ids);
  }

  lemma OtherIds(h: Hash, s: System, l: Label, s': System)
    requires Stepped(h, s, l, s')
    requires !l.event.EConsume? && !l.event.ERunPublisher? && !l.event.ESubscribe?
    requires !l.event.ERunDisconnecter? && !l.event.ELost?
    ensures s'.client.ids == IdsAfter(s.client.ids, l, s.client.conn.Connected?)
  {
    hide Elapsed;
  }

  lemma StepIds(h: Hash, s: System, l: Label, s': System)
    requires Stepped(h, s, l, s') && HandleOk(s.handle)
    ensures s'.client.ids == IdsAfter(s.client.ids, l, s.client.conn.Connected?)
  {
    hide Stepped, HandleOk, IdsAfter;
    match l.event
    case EConsume(_, _) => ConsumeIds(h, s, l, s');
    case ERunPublisher(_) => PublisherIds(h, s, l, s');
    case ESubscribe(_, _) => SubscribeIds(h, s, l, s');
    case ERunDisconnecter(_) => ResettingIds(h, s, l, s');
    case ELost(_) => ResettingIds(h, s, l, s');
    case _ => OtherIds(h, s, l, s');
  }

  /** The store holds exactly the identifiers that the trace says are in use. */
  lemma {:induction false} HeldInvariant(h: Hash, states: seq<System>, labels: seq<Label>, n: nat)
    requires Run(h, states, labels) && n <= |labels|
    ensures states[n].client.ids == Held(labels, n)
    decreases n
  {
    hide Step, Enabled, HandleOk, IdsOk, ConnectionOpen;
    if n == 0 {
    } else {
      var m := n - 1;
      HeldInvariant(h, states, labels, m);
      assert Stepped(h, states[m], labels[m], states[m + 1]);
      RunKeepsOk(h, states, labels, m);
      ConnectedMeansHandshake(h, states, labels, m);
      StepIds(h, states[m], labels[m], states[n]);
    }
  }

  ghost predicate Free(ids: Ids, id: nat) {
    1 <= id <= BITS && id !in ids
  }

  ghost predicate LeastFree(ids: Ids, id: nat) {
    Free(ids, id) && forall k :: 1 <= k < id ==> k in ids
  }

  lemma NextFreeFound(ids: Ids)
    ensures NextFree(ids, 1).Some? <==> exists id :: Free(ids, id)
    ensures NextFree(ids, 1).Some? ==> LeastFree(ids, NextFree(ids, 1).value)
  {
    hide NextFree;
    NextFreeIsLeast(ids, 1);
    if NextFree(ids, 1).Some? {
      assert Free(ids, NextFree(ids, 1).value);
    }
  }

  // ------------------------------------------------------------- publisher, disconnecter

  /** The publish in progress: its message and how often its publisher has been run. Any
      call on the client itself ends it. */
  function PublishCalls(labels: seq<Label>, n: nat): Option<(Raw, nat)>
    requires n <= |labels|
  {
    if n == 0 then None
    else
      match labels[n - 1].event
      case EPublish(p) => Some((p, 0))
      case ERunPublisher(_) => (
        match PublishCalls(labels, n - 1)
        case None => None
        case Some(r) => Some((r.0, r.1 + 1)))
      case _ => None
  }

  function DisconnectCalls(labels: seq<Label>, n: nat): Option<(Raw, nat)>
    requires n <= |labels|
  {
    if n == 0 then None
    else
      match labels[n - 1].event
      case EDisconnect(p) => Some((p, 0))
      case ERunDisconnecter(_) => (
        match DisconnectCalls(labels, n - 1)
        case None => None
        case Some(r) => Some((r.0, r.1 + 1)))
      case _ => None
  }

  /** The publisher that has been run j times on the message p; `stored` is the
      identifier it announced in its last run. */
  predicate PublisherAt(b: Publisher, p: Raw, j: nat, stored: Option<nat>) {
    && p.Publish?
    && if p.qos == AtMostOnce then
         b == if j == 0 then Publisher(Some(p), Send) else Publisher(None, Finished)
       else if j == 0 then b == Publisher(Some(p), Store)
       else if j == 1 then stored.Some? && b == Publisher(Some(p.(pid := Some(stored.value))), Send)
       else b == Publisher(None, Finished)
  }

  function StoredBy(l: Label): Option<nat> {
    match l.action case Some(StorePacket(id)) => Some(id) case _ => None
  }

  ghost predicate HandleFollows(s: System, labels: seq<Label>, n: nat)
    requires n <= |labels|
  {
    && (s.handle.Publishing? <==> PublishCalls(labels, n).Some?)
    && (s.handle.Disconnecting? <==> DisconnectCalls(labels, n).Some?)
    && (match PublishCalls(labels, n)
        case None => true
        case Some((p, j)) =>
          PublisherAt(s.handle.publisher, p, j, if n == 0 then None else StoredBy(labels[n - 1])))
    && (match DisconnectCalls(labels, n)
        case None => true
        case Some((p, j)) =>
          s.handle.state == if j == 0 then DisconnectWith(p)
                            else if j == 1 then DisconnectConnection else DisconnectDone)
  }

  lemma PublisherRuns(h: Hash, s: System, l: Label, s': System, p: Raw, j: nat, stored: Option<nat>)
    requires Stepped(h, s, l, s') && l.event.ERunPublisher?
    requires s.handle.Publishing? && PublisherAt(s.handle.publisher, p, j, stored)
    ensures s'.handle.Publishing? && PublisherAt(s'.handle.publisher, p, j + 1, StoredBy(l))
    ensures l.action == PublishAction(p, j, stored, s.client.conn.Connected?, NextFree(s.client.ids, 1))
  {
    hide NextFree;
  }

  /** What running a publisher for the j-th time gives. */
  function PublishAction(p: Raw, j: nat, stored: Option<nat>, open: bool, free: Option<nat>): Option<Action>
    requires p.Publish?
  {
    if p.qos == AtMostOnce then if j == 0 && open then Some(SendPacket(p)) else None
    else if j == 0 then (match free case None => None case Some(id) => Some(StorePacket(id)))
    else if j == 1 && open && stored.Some? then Some(SendPacket(p.(pid := Some(stored.value))))
    else None
  }

  lemma OtherHandles(h: Hash, s: System, l: Label, s': System)
    requires Stepped(h, s, l, s') && !l.event.ERunPublisher?
    ensures s'.handle ==
            match l.event
            case EPublish(p) => Handle.Publishing(NewPublisher(p))
            case EDisconnect(p) => Disconnecting(DisconnectWith(p))
            case ERunDisconnecter(_) => (
              match s.handle.state
              case DisconnectWith(_) => Disconnecting(DisconnectConnection)
              case _ => Disconnecting(DisconnectDone))
            case _ => Idle
    ensures l.event.EPublish? ==> l.event.packet.Publish?
    ensures l.event.ERunDisconnecter? ==> s.handle.Disconnecting?
  {
    hide Consume, CanConsume, DoSubscribe, CanSubscribe, HandleConnect, CanConnect, RunIdle, Acknowledge,
      ResetConnection;
  }

  /** Publisher and disconnecter are where the trace says. */
  lemma {:induction false} HandleInvariant(h: Hash, states: seq<System>, labels: seq<Label>, n: nat)
    requires Run(h, states, labels) && n <= |labels|
    ensures HandleFollows(states[n], labels, n)
    decreases n
  {
    hide Step, Enabled, PublishAction;
    if n == 0 {
    } else {
      var m := n - 1;
      HandleInvariant(h, states, labels, m);
      assert Stepped(h, states[m], labels[m], states[m + 1]);
      if labels[m].event.ERunPublisher? {
        PublisherBorrows(h, states[m], labels[m], states[n]);
        var (p, j) := PublishCalls(labels, m).value;
        PublisherRuns(h, states[m], labels[m], states[n], p, j, if m == 0 then None else StoredBy(labels[m - 1]));
      } else {
        OtherHandles(h, states[m], labels[m], states[n]);
      }
    }
  }

  lemma PublisherBorrows(h: Hash, s: System, l: Label, s': System)
    requires Stepped(h, s, l, s') && l.event.ERunPublisher?
    ensures s.handle.Publishing? && CanRunPublisher(s.client, s.handle.publisher)
  {
    hide CanRunPublisher, RunPublisher;
  }

  /** A publisher follows its script: the message itself at QoS 0; above, first the least
      free identifier, then the message with that identifier and otherwise unchanged.
      Sending is lost without a connection. After that nothing comes any more. */
  lemma PublishScriptFollowed(h: Hash, states: seq<System>, labels: seq<Label>, k: nat)
    requires Run(h, states, labels) && k < |labels| && labels[k].event.ERunPublisher?
    ensures PublishCalls(labels, k).Some? && PublishCalls(labels, k).value.0.Publish?
    ensures var (p, j) := PublishCalls(labels, k).value;
            if p.qos == AtMostOnce then
              labels[k].action == if j == 0 && ConnectionOpen(labels, k) then Some(SendPacket(p)) else None
            else if j == 0 then
              && labels[k].action.Some? && labels[k].action.value.StorePacket?
              && LeastFree(Held(labels, k), labels[k].action.value.id)
            else if j == 1 then
              && k > 0 && labels[k - 1].action.Some? && labels[k - 1].action.value.StorePacket?
              && labels[k].action == if ConnectionOpen(labels, k)
                                     then Some(SendPacket(p.(pid := Some(labels[k - 1].action.value.id)))) else None
            else labels[k].action == None
  {
    hide Step, Enabled, NextFree, ConnectionOpen, LeastFree;
    HandleInvariant(h, states, labels, k);
    HeldInvariant(h, states, labels, k);
    ConnectedMeansHandshake(h, states, labels, k);
    assert Stepped(h, states[k], labels[k], states[k + 1]);
    PublisherBorrows(h, states[k], labels[k], states[k + 1]);
    NextFreeFound(states[k].client.ids);
    var (p, j) := PublishCalls(labels, k).value;
    PublisherRuns(h, states[k], labels[k], states[k + 1], p, j, if k == 0 then None else StoredBy(labels[k - 1]));
  }

  /** The message of the last call to publish. */
  function LastPublish(labels: seq<Label>, n: nat): Option<Raw>
    requires n <= |labels|
  {
    if n == 0 then None
    else if labels[n - 1].event.EPublish? then Some(labels[n - 1].event.packet)
    else LastPublish(labels, n - 1)
  }

  lemma {:induction false} CallsAreOfLast(labels: seq<Label>, n: nat)
    requires n <= |labels| && PublishCalls(labels, n).Some?
    ensures LastPublish(labels, n) == Some(PublishCalls(labels, n).value.0)
    decreases n
  {
    if labels[n - 1].event.EPublish? {
    } else {
      CallsAreOfLast(labels, n - 1);
    }
  }

  /** Every PUBLISH that leaves is the message of the last call to publish, with nothing
      but the identifier replaced, and that only above QoS 0. */
  lemma PublishUnchanged(h: Hash, states: seq<System>, labels: seq<Label>, k: nat)
    requires Run(h, states, labels) && k < |labels|
    requires labels[k].action.Some? && labels[k].action.value.SendPacket? && labels[k].action.value.packet.Publish?
    ensures LastPublish(labels, k).Some? && LastPublish(labels, k).value.Publish?
    ensures var sent, p := labels[k].action.value.packet, LastPublish(labels, k).value;
            if p.qos == AtMostOnce then sent == p else sent.pid.Some? && sent == p.(pid := sent.pid)
  {
    hide Step, Enabled, HandleOk, IdsOk, PublishCalls, LastPublish, ConnectionOpen;
    assert Stepped(h, states[k], labels[k], states[k + 1]);
    RunKeepsOk(h, states, labels, k);
    OnlyPublisherPublishes(h, states[k], labels[k], states[k + 1]);
    PublishScriptFollowed(h, states, labels, k);
    CallsAreOfLast(labels, k);
  }

  lemma OnlyPublisherPublishes(h: Hash, s: System, l: Label, s': System)
    requires Stepped(h, s, l, s') && HandleOk(s.handle)
    requires l.action.Some? && l.action.value.SendPacket? && l.action.value.packet.Publish?
    ensures l.event.ERunPublisher?
  {
    hide Consume, CanConsume, NextFree, KeepPublish, Elapsed, RunPublisher, CanRunPublisher;
    if l.event.EConsume? {
      ConsumeFacts(h, s.client, l.event.t, l.event.packet);
    }
  }

  /** A disconnecter sends its packet, then closes the connection, then is done. */
  lemma DisconnectScriptFollowed(h: Hash, states: seq<System>, labels: seq<Label>, k: nat)
    requires Run(h, states, labels) && k < |labels| && labels[k].event.ERunDisconnecter?
    ensures DisconnectCalls(labels, k).Some?
    ensures var (p, j) := DisconnectCalls(labels, k).value;
            labels[k].action == if j == 0 then Some(SendPacket(p)) else if j == 1 then Some(CloseConnection) else None
  {
    hide Enabled, PublisherAt, RunPublisher, CanRunPublisher, Consume, CanConsume, KeepPublish;
    HandleInvariant(h, states, labels, k);
    assert Stepped(h, states[k], labels[k], states[k + 1]);
    OtherHandles(h, states[k], labels[k], states[k + 1]);
  }

  // -------------------------------------------------------------------- other calls

  const ASSIGNED_CLIENT_IDENTIFIER: nat := 0x12

  /** What consuming a packet on an open connection gives. */
  function ConsumedOpen(p: Raw): Option<Action> {
    match p
    case Publish(_, AtMostOnce, _, _, _, _, _) => Some(ReceivePacket(p))
    case Publish(_, AtLeastOnce, _, _, Some(id), _, _) => Some(ReceiveAndAcknowledge(p, id))
    case Disconnect(_, _) => Some(CloseConnection)
    case Ack(Puback, id, _, _) => Some(ReleasePacket(id))
    case _ => None
  }

  /** What consuming the CONNACK gives: the identifier that the server assigned. */
  function ConsumedConnack(p: Raw): Option<Action>
    requires p.Connack?
  {
    if ASSIGNED_CLIENT_IDENTIFIER in p.props && p.props[ASSIGNED_CLIENT_IDENTIFIER].Data? then
      Some(SaveClientIdentifier(p.props[ASSIGNED_CLIENT_IDENTIFIER].b))
    else None
  }

  lemma StepConsumed(h: Hash, s: System, l: Label, s': System)
    requires Stepped(h, s, l, s') && l.event.EConsume?
    ensures match s.client.conn
            case Disconnected => l.action == None
            case Connecting(_) => l.event.packet.Connack? && l.action == ConsumedConnack(l.event.packet)
            case Connected(_, _) => l.action == ConsumedOpen(l.event.packet)
  {
    hide ServerKeepAlive, KeepPublish;
  }

  /** Consuming a packet gives what its kind and the connection call for. */
  lemma ConsumedGives(h: Hash, states: seq<System>, labels: seq<Label>, k: nat)
    requires Run(h, states, labels) && k < |labels| && labels[k].event.EConsume?
    ensures var p := labels[k].event.packet;
            if ConnectionOpen(labels, k) then labels[k].action == ConsumedOpen(p)
            else if exists i :: LiveConnect(labels, k, i) then p.Connack? && labels[k].action == ConsumedConnack(p)
            else labels[k].action == None
  {
    hide Step, Enabled, LiveConnect, Acked, ConnectionOpen, ConsumedOpen, ConsumedConnack;
    var i := Phase(h, states, labels, k);
    ConnectedMeansHandshake(h, states, labels, k);
    assert Stepped(h, states[k], labels[k], states[k + 1]);
    StepConsumed(h, states[k], labels[k], states[k + 1]);
  }

  lemma StepRequest(h: Hash, s: System, l: Label, s': System)
    requires Stepped(h, s, l, s')
    ensures match l.event
            case EConnect(_, p) => l.action == Some(SendPacket(p))
            case ESubscribe(_, p) =>
              && p.Subscribe? && NextFree(s.client.ids, 1).Some?
              && l.action == Some(SendPacket(Subscribe(NextFree(s.client.ids, 1).value, p.props, p.entries)))
            case EAcknowledge(_, id) => l.action == Some(SendPacket(Ack(Puback, id, 0, map[])))
            case ELost(_) => l.action == None
            case EPublish(_) => l.action == None
            case EDisconnect(_) => l.action == None
            case ERun(_) => l.action.None? || l.action == Some(SendPacket(Pingreq))
            case _ => true
  {
    hide NextFree, KeepPublish, Elapsed, Consume, CanConsume, RunPublisher, CanRunPublisher, RunDisconnecter;
  }

  /** The requests of the caller leave as they are: CONNECT; SUBSCRIBE with its properties
      and entries under the least free identifier; a PUBACK with reason 0 for the token.
      `run` gives a PINGREQ or nothing, the other calls nothing. */
  lemma RequestsLeave(h: Hash, states: seq<System>, labels: seq<Label>, k: nat)
    requires Run(h, states, labels) && k < |labels|
    ensures match labels[k].event
            case EConnect(_, p) => labels[k].action == Some(SendPacket(p))
            case ESubscribe(_, p) =>
              && p.Subscribe? && labels[k].action.Some? && labels[k].action.value.SendPacket?
              && labels[k].action.value.packet.Subscribe?
              && LeastFree(Held(labels, k), labels[k].action.value.packet.id)
              && labels[k].action.value.packet == Subscribe(labels[k].action.value.packet.id, p.props, p.entries)
            case EAcknowledge(_, id) => labels[k].action == Some(SendPacket(Ack(Puback, id, 0, map[])))
            case ERun(_) => labels[k].action == if SendsPing(labels[k]) then Some(SendPacket(Pingreq)) else None
            case ELost(_) => labels[k].action == None
            case EPublish(_) => labels[k].action == None
            case EDisconnect(_) => labels[k].action == None
            case _ => true
  {
    hide Step, Enabled, NextFree, LeastFree, ConnectionOpen;
    assert Stepped(h, states[k], labels[k], states[k + 1]);
    StepRequest(h, states[k], labels[k], states[k + 1]);
    HeldInvariant(h, states, labels, k);
    NextFreeFound(states[k].client.ids);
  }

  // ------------------------------------------------------------- which calls are allowed

  ghost predicate Live(labels: seq<Label>, n: nat)
    requires n <= |labels|
  {
    exists i :: LiveConnect(labels, n, i)
  }

  /** Between CONNECT and CONNACK. */
  ghost predicate Waits(labels: seq<Label>, n: nat)
    requires n <= |labels|
  {
    Live(labels, n) && !ConnectionOpen(labels, n)
  }

  ghost predicate PingUnanswered(labels: seq<Label>, n: nat)
    requires n <= |labels|
  {
    exists i :: LiveConnect(labels, n, i) && PingBalance(labels, i, n) == 1
  }

  /** When consuming a packet does not panic. */
  ghost predicate MayConsume(labels: seq<Label>, n: nat, p: Raw)
    requires n <= |labels|
  {
    if ConnectionOpen(labels, n) then
      match p
      case Publish(_, qos, _, _, pid, _, _) => qos == AtMostOnce || (qos == AtLeastOnce && pid.Some?)
      case Disconnect(_, _) => true
      case Ack(Puback, id, _, _) => id in Held(labels, n)
      case Suback(id, _, _) => id in Held(labels, n)
      case Pingresp => PingUnanswered(labels, n)
      case _ => false
    else Live(labels, n) ==> p.Connack? && p.reason == 0
  }

  ghost predicate MayRunPublisher(labels: seq<Label>, n: nat)
    requires n <= |labels|
  {
    match PublishCalls(labels, n)
    case None => false
    case Some((p, j)) =>
      p.Publish? &&
      if p.qos == AtMostOnce then j == 0 ==> !Waits(labels, n)
      else if j == 0 then exists id :: Free(Held(labels, n), id)
      else j == 1 ==> !Waits(labels, n)
  }

  /** The calls allowed after n steps: none of them panics, and no others are. */
  ghost predicate Allowed(h: Hash, labels: seq<Label>, n: nat, e: Event)
    requires n <= |labels|
  {
    match e
    case EConnect(_, p) =>
      && p.Connect? && !Live(labels, n)
      && (KnownAs(h, labels, n).Some? ==> p.clientId != [] && h(p.clientId) == KnownAs(h, labels, n).value)
    case EConsume(_, p) => MayConsume(labels, n, p)
    case ERun(_) => true
    case ELost(_) => true
    case ESubscribe(_, p) => p.Subscribe? && ConnectionOpen(labels, n) && exists id :: Free(Held(labels, n), id)
    case EAcknowledge(_, id) => ConnectionOpen(labels, n) && PubacksSent(labels, n)[id] < Receipts(labels, n)[id]
    case EPublish(p) => p.Publish?
    case ERunPublisher(_) => MayRunPublisher(labels, n)
    case EDisconnect(p) => p.Disconnect?
    case ERunDisconnecter(_) => DisconnectCalls(labels, n).Some?
  }

  lemma RunLength(h: Hash, states: seq<System>, labels: seq<Label>)
    requires Run(h, states, labels)
    ensures |states| == |labels| + 1
  {
  }

  lemma ConnectionRead(h: Hash, states: seq<System>, labels: seq<Label>, n: nat)
    requires Run(h, states, labels) && n <= |labels|
    ensures states[n].client.conn.Connected? <==> ConnectionOpen(labels, n)
    ensures states[n].client.conn.Disconnected? <==> !Live(labels, n)
    ensures states[n].client.conn.Connecting? <==> Waits(labels, n)
    ensures ConnectionOpen(labels, n) ==>
              (states[n].client.conn.ping.WaitingForPingresp? <==> PingUnanswered(labels, n))
  {
    hide Step, Enabled, LiveConnect, Acked, ConnectionOpen, PingBalance;
    var i := Phase(h, states, labels, n);
    ConnectedMeansHandshake(h, states, labels, n);
    if !states[n].client.conn.Disconnected? {
      PingBalanceInvariant(h, states, labels, n, i);
      forall j | LiveConnect(labels, n, j) ensures j == i {
        LiveConnectUnique(h, states, labels, n, i, j);
      }
    }
  }

  lemma ConsumeAllowed(h: Hash, states: seq<System>, labels: seq<Label>, n: nat, p: Raw)
    requires Run(h, states, labels) && n <= |labels|
    ensures CanConsume(states[n].client, p) <==> MayConsume(labels, n, p)
  {
    hide Run, ConnectionOpen, Live, Waits, PingUnanswered, Held;
    RunLength(h, states, labels);
    ConnectionRead(h, states, labels, n);
    HeldInvariant(h, states, labels, n);
  }

  lemma TokensRead(h: Hash, states: seq<System>, labels: seq<Label>, n: nat, id: nat)
    requires Run(h, states, labels) && n <= |labels|
    ensures id in states[n].tokens <==> PubacksSent(labels, n)[id] < Receipts(labels, n)[id]
  {
    hide Run, PubacksSent, Receipts;
    RunLength(h, states, labels);
    AcknowledgementBalance(h, states, labels, n);
    var sent, held := PubacksSent(labels, n), states[n].tokens;
    assert (sent + held)[id] == sent[id] + held[id];
  }

  lemma PublisherAllowed(h: Hash, states: seq<System>, labels: seq<Label>, n: nat)
    requires Run(h, states, labels) && n <= |labels|
    ensures states[n].handle.Publishing? && CanRunPublisher(states[n].client, states[n].handle.publisher) <==>
            MayRunPublisher(labels, n)
  {
    hide Run, ConnectionOpen, Live, Waits, PingUnanswered, Held, NextFree, PublishCalls, DisconnectCalls;
    RunLength(h, states, labels);
    ConnectionRead(h, states, labels, n);
    HeldInvariant(h, states, labels, n);
    HandleInvariant(h, states, labels, n);
    NextFreeFound(states[n].client.ids);
  }

  /** After any run, a call does not panic if and only if the trace allows it. */
  lemma CallsAllowed(h: Hash, states: seq<System>, labels: seq<Label>, n: nat, e: Event)
    requires Run(h, states, labels) && n <= |labels|
    ensures Enabled(h, states[n], e) <==> Allowed(h, labels, n, e)
  {
    hide Run, ConnectionOpen, Live, Waits, PingUnanswered, Held, NextFree, PublishCalls, DisconnectCalls, MayConsume,
      CanConsume, MayRunPublisher, CanRunPublisher, KnownAs, PubacksSent, Receipts, PublisherAt;
    RunLength(h, states, labels);
    match e
    case EConsume(_, p) => ConsumeAllowed(h, states, labels, n, p);
    case ERunPublisher(_) => PublisherAllowed(h, states, labels, n);
    case EAcknowledge(_, id) =>
      ConnectionRead(h, states, labels, n);
      TokensRead(h, states, labels, n, id);
    case EConnect(_, _) =>
      ConnectionRead(h, states, labels, n);
      KnownAsInvariant(h, states, labels, n);
    case ESubscribe(_, _) =>
      ConnectionRead(h, states, labels, n);
      HeldInvariant(h, states, labels, n);
      NextFreeFound(states[n].client.ids);
    case ERunDisconnecter(_) => HandleInvariant(h, states, labels, n);
    case _ =>
  }

  // --------------------------------------------------------------------- last run time

  /** The time of the last call that records one: all but connecting, handing over a
      publish or a DISCONNECT, announcing an identifier, and disconnecting. */
  function LastRunTime(labels: seq<Label>, n: nat): nat
    requires n <= |labels|
  {
    if n == 0 then 0
    else if Records(labels, n - 1) then TimeOf(labels[n - 1].event)
    else LastRunTime(labels, n - 1)
  }

  predicate Records(labels: seq<Label>, k: nat)
    requires k < |labels|
  {
    match labels[k].event
    case EConsume(_, _) => true
    case ERun(_) => true
    case ELost(_) => true
    case ESubscribe(_, _) => true
    case EAcknowledge(_, _) => true
    case ERunPublisher(_) => (
      match PublishCalls(labels, k)
      case None => false
      case Some((p, j)) => p.Publish? && j == if p.qos == AtMostOnce then 0 else 1)
    case _ => false
  }

  lemma StepRecords(h: Hash, s: System, l: Label, s': System)
    requires Stepped(h, s, l, s')
    ensures s'.client.lastRun ==
            match l.event
            case EConnect(_, _) => s.client.lastRun
            case EPublish(_) => s.client.lastRun
            case EDisconnect(_) => s.client.lastRun
            case ERunDisconnecter(_) => s.client.lastRun
            case ERunPublisher(t) =>
              if s.handle.Publishing? && s.handle.publisher.state.Send? then t else s.client.lastRun
            case e => e.t
  {
    hide NextFree, KeepPublish, Elapsed, ServerKeepAlive, AssignedClientId;
  }

  lemma {:induction false} LastRunInvariant(h: Hash, states: seq<System>, labels: seq<Label>, n: nat)
    requires Run(h, states, labels) && n <= |labels|
    ensures states[n].client.lastRun == LastRunTime(labels, n)
    decreases n
  {
    hide Step, Enabled, PublishCalls, DisconnectCalls;
    if n == 0 {
    } else {
      var m := n - 1;
      LastRunInvariant(h, states, labels, m);
      HandleInvariant(h, states, labels, m);
      assert Stepped(h, states[m], labels[m], states[m + 1]);
      StepRecords(h, states[m], labels[m], states[n]);
      if labels[m].event.ERunPublisher? {
        PublisherBorrows(h, states[m], labels[m], states[n]);
      }
    }
  }

  // ------------------------------------------------------------------- CONNACK on the wire

  /** A CONNACK section that was accepted gives the interval, or the identifier, that
      stands in it as property 0x13, or 0x12. */
  lemma ConnackOnWire(s: bytes, n: nat, b: bytes)
    requires ParseSlots(SectionIds(TConnack), map[], s).Some?
    ensures var props := ParseSlots(SectionIds(TConnack), map[], s).value;
            && ParseItems(s).Some?
            && (ServerKeepAlive(props) == Some(n) <==> Item(0x13, Num(n)) in ParseItems(s).value)
            && (AssignedClientId(props) == Some(b) <==> Item(0x12, Data(b)) in ParseItems(s).value)
  {
    hide ParseSlots, ParseItems, SectionIds, UsersOf;
    SectionAccepted(SectionIds(TConnack), s);
    ParsedItemsFit(s);
    ScalarOnWire(ParseSlots(SectionIds(TConnack), map[], s).value, ParseItems(s).value, 0x13, Num(n));
    ScalarOnWire(ParseSlots(SectionIds(TConnack), map[], s).value, ParseItems(s).value, 0x12, Data(b));
    ScalarKinds();
  }

  lemma ScalarKinds()
    ensures KindOf(0x13) == Some(U16) && KindOf(0x12) == Some(Kind.Text)
  {
  }

  lemma ScalarOnWire(props: Lazy, items: seq<Item>, id: nat, v: Value<Pair>)
    requires Describes(ViewSection(props), items) && id != USER_PROPERTY && !v.Users?
    requires forall i :: 0 <= i < |items| ==> ItemFits(items[i])
    ensures Item(id, v) in items <==> id in props && props[id] == Recast(v)
  {
    hide UsersOf, UserList;
    assert ViewSection(props).Keys == props.Keys;
    forall i | 0 <= i < |items| && items[i].id == id
      ensures id in props && !items[i].value.Users? && ViewValue(props[id]) == Recast(items[i].value)
    {
      ItemShape(items[i]);
      assert ViewSection(props)[id] == ViewValue(props[id]);
    }
    if id in props {
      assert HasId(items, id);
      var i :| 0 <= i < |items| && items[i].id == id;
      assert items[i] == Item(id, items[i].value);
    }
  }
}
