/** What every run of the client keeps: handshake order, identifiers, keep-alive and
    acknowledgements. The conditions under which a law holds are read off the trace, as
    a caller sees it; what a law says may also concern the state. */
module ClientLaws {
  import opened Wire
  import opened Packets
  import opened PacketLaws
  import opened IdentifierStore
  import opened ClientSpec

  // ------------------------------------------------------------------ reading a trace

  predicate IsConnect(l: Label) {
    l.event.EConnect?
  }

  /** A successful CONNACK. */
  predicate IsConnack(l: Label) {
    l.event.EConsume? && l.event.packet.Connack? && l.event.packet.reason == 0
  }

  /** The connection is gone: reported lost, or closed by either side. */
  predicate IsReset(l: Label) {
    l.event.ELost? || l.action == Some(CloseConnection)
  }

  /** A CONNECT was sent at `i` and no reset came after it. */
  ghost predicate LiveConnect(labels: seq<Label>, n: nat, i: nat)
    requires n <= |labels|
  {
    i < n && IsConnect(labels[i]) && forall k :: i < k < n ==> !IsReset(labels[k])
  }

  /** A successful CONNACK was consumed after `i`. */
  ghost predicate Acked(labels: seq<Label>, n: nat, i: nat)
    requires n <= |labels|
  {
    exists j :: i < j < n && IsConnack(labels[j])
  }

  /** The trace shows an open connection: a CONNECT, a successful CONNACK after it, no
      reset since the CONNECT. */
  ghost predicate ConnectionOpen(labels: seq<Label>, n: nat)
    requires n <= |labels|
  {
    exists i :: LiveConnect(labels, n, i) && Acked(labels, n, i)
  }

  // ----------------------------------------------------------------- one step at a time

  function Waiting(c: Connection): int {
    if c.Connected? && c.ping.WaitingForPingresp? then 1 else 0
  }

  function SentAt(c: Connection): nat
    requires !c.Disconnected?
  {
    if c.Connecting? then c.connectSent else c.lastSent
  }

  /** Consuming a packet sends nothing; it answers an outstanding PINGREQ, starts or ends
      a connection, or hands out a token. */
  lemma ConsumeFacts(h: Hash, c: Client, t: nat, p: Raw)
    requires CanConsume(c, p)
    ensures var (c', a) := Consume(h, c, t, p);
            && (a.Some? ==> !a.value.SendPacket?)
            && (a == Some(CloseConnection) ==> c'.conn.Disconnected?)
            && (c.conn.Disconnected? ==> c'.conn.Disconnected? && a.None?)
            && (c.conn.Connecting? ==> c'.conn.Connected? && p.Connack? && p.reason == 0)
            && (c.conn.Connected? && a != Some(CloseConnection) ==> c'.conn.Connected? && !p.Connack?)
            && (!c'.conn.Disconnected? ==> !c.conn.Disconnected? && SentAt(c'.conn) == SentAt(c.conn))
            && (!c.conn.Disconnected? && a != Some(CloseConnection) ==>
                  Waiting(c'.conn) == Waiting(c.conn) - (if p.Pingresp? then 1 else 0))
            && (a.Some? && a.value.ReceiveAndAcknowledge? ==>
                  && p.Publish? && p.qos == AtLeastOnce && p.pid == Some(a.value.token)
                  && a.value.packet == p)
  {
    hide ServerKeepAlive, AssignedClientId, KeepPublish;
  }

  lemma StepConnection(h: Hash, s: System, l: Label, s': System)
    requires Stepped(h, s, l, s')
    ensures IsReset(l) ==> s'.client.conn.Disconnected? && !IsConnect(l)
    ensures IsConnect(l) ==> s.client.conn.Disconnected? && s'.client.conn.Connecting?
    ensures !IsReset(l) && !IsConnect(l) && s.client.conn.Disconnected? ==> s'.client.conn.Disconnected?
    ensures !IsReset(l) && s.client.conn.Connecting? ==>
              if IsConnack(l) then s'.client.conn.Connected? else s'.client.conn == s.client.conn
    ensures !IsReset(l) && s.client.conn.Connected? ==> s'.client.conn.Connected? && !IsConnack(l)
  {
    hide NextFree, Consume, CanConsume, KeepPublish, Elapsed;
    if l.event.EConsume? {
      ConsumeFacts(h, s.client, l.event.t, l.event.packet);
    }
  }

  /** The state and the trace agree up to `n`; `i` is the CONNECT of the connection. */
  lemma {:induction false} Phase(h: Hash, states: seq<System>, labels: seq<Label>, n: nat) returns (i: nat)
    requires Run(h, states, labels) && n <= |labels|
    ensures states[n].client.conn.Disconnected? ==> forall k :: !LiveConnect(labels, n, k)
    ensures !states[n].client.conn.Disconnected? ==>
              LiveConnect(labels, n, i) && (states[n].client.conn.Connected? <==> Acked(labels, n, i))
    decreases n
  {
    hide Step, Enabled, IsReset, IsConnack, IsConnect;
    i := 0;
    if n == 0 {
    } else {
      var m := n - 1;
      var l := labels[m];
      i := Phase(h, states, labels, m);
      assert Stepped(h, states[m], labels[m], states[m + 1]);
      StepConnection(h, states[m], l, states[n]);
      forall k | LiveConnect(labels, n, k) && k != m ensures LiveConnect(labels, m, k) && !IsReset(l) {
      }
      if IsConnect(l) {
        i := m;
      } else if !IsReset(l) && !states[m].client.conn.Disconnected? {
        assert LiveConnect(labels, n, i);
        if Acked(labels, m, i) {
          var j :| i < j < m && IsConnack(labels[j]);
          assert Acked(labels, n, i);
        } else if Acked(labels, n, i) {
          var j :| i < j < n && IsConnack(labels[j]);
          assert j == m;
        }
      }
    }
  }

  lemma ConnectFindsNoneLive(h: Hash, states: seq<System>, labels: seq<Label>, k: nat)
    requires Run(h, states, labels) && k < |labels|
    ensures IsConnect(labels[k]) ==> forall i :: !LiveConnect(labels, k, i)
  {
    hide Step, Enabled, IsReset, IsConnack, IsConnect, LiveConnect;
    assert Stepped(h, states[k], labels[k], states[k + 1]);
    StepConnection(h, states[k], labels[k], states[k + 1]);
    var i := Phase(h, states, labels, k);
  }

  lemma LiveConnectUnique(h: Hash, states: seq<System>, labels: seq<Label>, n: nat, i: nat, j: nat)
    requires Run(h, states, labels) && n <= |labels|
    requires LiveConnect(labels, n, i) && LiveConnect(labels, n, j)
    ensures i == j
  {
    hide Run, IsReset, IsConnect;
    var early, late := if i < j then i else j, if i < j then j else i;
    assert early < late ==> LiveConnect(labels, late, early);
    ConnectFindsNoneLive(h, states, labels, late);
  }

  // ------------------------------------------------------------------------ handshake

  /** At every point of every run the client is connected exactly when the trace shows a
      CONNECT, a successful CONNACK after it and no reset since. */
  lemma ConnectedMeansHandshake(h: Hash, states: seq<System>, labels: seq<Label>, n: nat)
    requires Run(h, states, labels) && n <= |labels|
    ensures states[n].client.conn.Connected? <==> ConnectionOpen(labels, n)
  {
    hide Run, LiveConnect, Acked;
    var i := Phase(h, states, labels, n);
    if ConnectionOpen(labels, n) {
      var k :| LiveConnect(labels, n, k) && Acked(labels, n, k);
      LiveConnectUnique(h, states, labels, n, i, k);
    }
  }

  lemma StepSends(h: Hash, s: System, l: Label, s': System)
    requires Stepped(h, s, l, s') && SystemOk(s) && l.action.Some? && l.action.value.SendPacket?
    ensures var p := l.action.value.packet;
            && (p.Connect? <==> IsConnect(l))
            && (p.Disconnect? <==> l.event.ERunDisconnecter?)
            && (p.Disconnect? ==> s.handle == Disconnecting(DisconnectWith(p)))
            && (!p.Connect? && !p.Disconnect? ==> s.client.conn.Connected? && s'.client.conn.Connected?)
  {
    hide NextFree, Consume, CanConsume, KeepPublish, Elapsed, IdsOk;
    if l.event.EConsume? {
      ConsumeFacts(h, s.client, l.event.t, l.event.packet);
    }
  }

  /** Identifiers are in range and, unless connected, all held for publishes. */
  ghost predicate IdsOk(c: Client) {
    InRange(c.ids) && (c.conn.Connected? || forall id :: id in c.ids ==> c.ids[id] == ForPublish)
  }

  ghost predicate HandleOk(handle: Handle) {
    && (handle.Publishing? ==> PublisherValid(handle.publisher))
    && (handle.Disconnecting? && handle.state.DisconnectWith? ==> handle.state.packet.Disconnect?)
  }

  /** What every state of a run satisfies. */
  ghost predicate SystemOk(s: System) {
    IdsOk(s.client) && HandleOk(s.handle)
  }

  lemma ConsumeKeepsIds(h: Hash, c: Client, t: nat, p: Raw)
    requires CanConsume(c, p) && IdsOk(c)
    ensures IdsOk(Consume(h, c, t, p).0)
  {
    hide ServerKeepAlive, AssignedClientId;
  }

  lemma TakeKeepsIds(c: Client, usage: Usage)
    requires IdsOk(c) && NextFree(c.ids, 1).Some? && (usage == ForPublish || c.conn.Connected?)
    ensures IdsOk(c.(ids := c.ids[NextFree(c.ids, 1).value := usage]))
  {
    hide NextFree;
    NextFreeIsLeast(c.ids, 1);
  }

  lemma PublisherKeepsIds(c: Client, b: Publisher, t: nat)
    requires CanRunPublisher(c, b) && IdsOk(c)
    ensures IdsOk(RunPublisher(c, b, t).0)
  {
    hide NextFree;
    if b.state.Store? {
      TakeKeepsIds(c, ForPublish);
    }
  }

  lemma SubscribeKeepsIds(c: Client, t: nat, p: Raw)
    requires CanSubscribe(c, p) && IdsOk(c)
    ensures IdsOk(DoSubscribe(c, t, p).0)
  {
    hide NextFree;
    TakeKeepsIds(c, NotForPublish);
  }

  lemma StepKeepsIds(h: Hash, s: System, l: Label, s': System)
    requires Stepped(h, s, l, s') && IdsOk(s.client)
    ensures IdsOk(s'.client)
  {
    hide Consume, RunPublisher, DoSubscribe, CanConsume, CanRunPublisher, CanSubscribe;
    match l.event
    case EConsume(t, p) => ConsumeKeepsIds(h, s.client, t, p);
    case ERunPublisher(t) => PublisherKeepsIds(s.client, s.handle.publisher, t);
    case ESubscribe(t, p) => SubscribeKeepsIds(s.client, t, p);
    case _ =>
  }

  lemma StepKeepsHandle(h: Hash, s: System, l: Label, s': System)
    requires Stepped(h, s, l, s') && HandleOk(s.handle)
    ensures HandleOk(s'.handle)
  {
    hide HandleConnect, Consume, ConnectionLost, DoSubscribe, Acknowledge, RunIdle, SendOut, NextFree, CanConsume,
      CanConnect, CanSubscribe;
  }

  lemma StepKeepsOk(h: Hash, s: System, l: Label, s': System)
    requires Stepped(h, s, l, s') && SystemOk(s)
    ensures SystemOk(s')
  {
    hide Stepped, IdsOk, HandleOk;
    StepKeepsIds(h, s, l, s');
    StepKeepsHandle(h, s, l, s');
  }

  lemma {:induction false} RunKeepsOk(h: Hash, states: seq<System>, labels: seq<Label>, n: nat)
    requires Run(h, states, labels) && n <= |labels|
    ensures SystemOk(states[n])
    decreases n
  {
    hide Step, Enabled, SystemOk;
    if n == 0 {
      StartOk();
    } else {
      RunKeepsOk(h, states, labels, n - 1);
      assert Stepped(h, states[n - 1], labels[n - 1], states[n - 1 + 1]);
      StepKeepsOk(h, states[n - 1], labels[n - 1], states[n]);
    }
  }

  lemma StartOk()
    ensures SystemOk(Start())
  {
  }

  /** Only a request puts a DISCONNECT into the hands of a disconnecter. */
  lemma StepRequests(h: Hash, s: System, l: Label, s': System, p: Raw)
    requires Stepped(h, s, l, s') && s'.handle == Disconnecting(DisconnectWith(p))
    ensures l.event == EDisconnect(p)
  {
    hide NextFree, Consume, CanConsume, KeepPublish, Elapsed, RunPublisher, CanRunPublisher;
  }

  /** A DISCONNECT that leaves was requested, that very packet, by the call just before. */
  lemma DisconnectRequested(h: Hash, states: seq<System>, labels: seq<Label>, k: nat)
    requires Run(h, states, labels) && k < |labels| && labels[k].action.Some?
    requires labels[k].action.value.SendPacket? && labels[k].action.value.packet.Disconnect?
    ensures labels[k].event.ERunDisconnecter?
    ensures k > 0 && labels[k - 1].event == EDisconnect(labels[k].action.value.packet)
  {
    hide Step, Enabled, SystemOk;
    assert Stepped(h, states[k], labels[k], states[k + 1]);
    RunKeepsOk(h, states, labels, k);
    StepSends(h, states[k], labels[k], states[k + 1]);
    if k > 0 {
      assert Stepped(h, states[k - 1], labels[k - 1], states[k - 1 + 1]);
      StepRequests(h, states[k - 1], labels[k - 1], states[k], labels[k].action.value.packet);
    }
  }

  /** Handshake safety: every CONNECT leaves when no earlier one is live; a DISCONNECT is
      the one that the call just before requested; every other packet leaves only on an
      open connection, hence after a successful CONNACK. */
  lemma HandshakeSafety(h: Hash, states: seq<System>, labels: seq<Label>, k: nat)
    requires Run(h, states, labels) && k < |labels|
    requires labels[k].action.Some? && labels[k].action.value.SendPacket?
    ensures var p := labels[k].action.value.packet;
            if p.Connect? then forall i :: !LiveConnect(labels, k, i)
            else if p.Disconnect? then k > 0 && labels[k - 1].event == EDisconnect(p)
            else ConnectionOpen(labels, k) && ConnectionOpen(labels, k + 1)
  {
    hide Step, Enabled, SystemOk, LiveConnect, IsConnect, IsReset, ConnectionOpen;
    assert Stepped(h, states[k], labels[k], states[k + 1]);
    RunKeepsOk(h, states, labels, k);
    StepSends(h, states[k], labels[k], states[k + 1]);
    StepConnection(h, states[k], labels[k], states[k + 1]);
    var i := Phase(h, states, labels, k);
    ConnectedMeansHandshake(h, states, labels, k);
    ConnectedMeansHandshake(h, states, labels, k + 1);
    if labels[k].action.value.packet.Disconnect? {
      DisconnectRequested(h, states, labels, k);
    }
  }

  /** Identifiers of subscriptions never outlive the connection; after a reset only
      publish identifiers are held. */
  lemma OnlyPublishIdsSurvive(h: Hash, states: seq<System>, labels: seq<Label>, n: nat, id: nat)
    requires Run(h, states, labels) && n <= |labels|
    requires id in states[n].client.ids && states[n].client.ids[id] == NotForPublish
    ensures ConnectionOpen(labels, n)
    ensures n > 0 && !IsReset(labels[n - 1])
  {
    hide Step, Enabled, IsReset, IsConnect, ConnectionOpen;
    RunKeepsOk(h, states, labels, n);
    ConnectedMeansHandshake(h, states, labels, n);
    if n > 0 {
      assert Stepped(h, states[n - 1], labels[n - 1], states[n - 1 + 1]);
      StepConnection(h, states[n - 1], labels[n - 1], states[n]);
    }
  }

  // ---------------------------------------------------------------------- identifiers

  /** Announced by StorePacket and not yet by ReleasePacket. */
  function Outstanding(labels: seq<Label>, n: nat): set<nat>
    requires n <= |labels|
  {
    if n == 0 then {}
    else
      var before := Outstanding(labels, n - 1);
      match labels[n - 1].action
      case Some(StorePacket(id)) => before + {id}
      case Some(ReleasePacket(id)) => before - {id}
      case _ => before
  }

  function PublishIds(ids: Ids): set<nat> {
    set id | id in ids && ids[id] == ForPublish
  }

  predicate SubackConsumed(s: System, l: Label) {
    l.event.EConsume? && l.event.packet.Suback? && s.client.conn.Connected?
  }

  /** A SUBACK on an open connection that names an identifier announced for a publish and
      not yet released. */
  ghost predicate StraySuback(labels: seq<Label>, k: nat)
    requires k < |labels|
  {
    && labels[k].event.EConsume? && labels[k].event.packet.Suback?
    && ConnectionOpen(labels, k) && labels[k].event.packet.id in Outstanding(labels, k)
  }

  lemma PublishIdsUpdates(ids: Ids, id: nat)
    ensures PublishIds(ids[id := ForPublish]) == PublishIds(ids) + {id}
    ensures id !in ids ==> PublishIds(ids[id := NotForPublish]) == PublishIds(ids)
    ensures PublishIds(ids - {id}) == PublishIds(ids) - {id}
    ensures PublishIds(KeepPublish(ids)) == PublishIds(ids)
  {
  }

  lemma ConsumePublishIds(h: Hash, c: Client, t: nat, p: Raw)
    requires CanConsume(c, p)
    ensures var (c', a) := Consume(h, c, t, p);
            match a
            case Some(ReleasePacket(id)) => id in c.ids && PublishIds(c'.ids) == PublishIds(c.ids) - {id}
            case Some(StorePacket(_)) => false
            case _ =>
              PublishIds(c'.ids)
              == if p.Suback? && c.conn.Connected? then PublishIds(c.ids) - {p.id} else PublishIds(c.ids)
  {
    hide ServerKeepAlive, AssignedClientId, PublishIds, KeepPublish;
    PublishIdsUpdates(c.ids, if p.Suback? || p.Ack? then p.id else 0);
  }

  /** What one step does to the identifiers held for publishes, read off its label. */
  lemma StepPublishIds(h: Hash, s: System, l: Label, s': System)
    requires Stepped(h, s, l, s')
    ensures match l.action
            case Some(StorePacket(id)) =>
              id !in s.client.ids && PublishIds(s'.client.ids) == PublishIds(s.client.ids) + {id}
            case Some(ReleasePacket(id)) =>
              id in s.client.ids && PublishIds(s'.client.ids) == PublishIds(s.client.ids) - {id}
            case _ =>
              PublishIds(s'.client.ids)
              == if SubackConsumed(s, l) then PublishIds(s.client.ids) - {l.event.packet.id}
                 else PublishIds(s.client.ids)
    ensures l.action.Some? && (l.action.value.StorePacket? || l.action.value.ReleasePacket?) ==> !SubackConsumed(s, l)
  {
    hide Consume, CanConsume, PublishIds, KeepPublish, NextFree, CanConnect, Elapsed;
    var ids := s.client.ids;
    NextFreeIsLeast(ids, 1);
    match l.event
    case EConsume(t, p) =>
      ConsumePublishIds(h, s.client, t, p);
      if p.Suback? {
        SubackReleasesNothing(h, s.client, t, p);
      }
    case ERunPublisher(t) =>
      if NextFree(ids, 1).Some? {
        PublishIdsUpdates(ids, NextFree(ids, 1).value);
      }
    case ESubscribe(t, p) => PublishIdsUpdates(ids, NextFree(ids, 1).value);
    case _ => PublishIdsUpdates(ids, 0);
  }

  lemma SubackReleasesNothing(h: Hash, c: Client, t: nat, p: Raw)
    requires CanConsume(c, p) && p.Suback?
    ensures var a := Consume(h, c, t, p).1; a.None? || a.value.SaveClientIdentifier?
  {
  }

  ghost predicate Conserved(states: seq<System>, labels: seq<Label>, k: nat)
    requires k <= |labels| < |states|
  {
    Outstanding(labels, k) == PublishIds(states[k].client.ids)
  }

  lemma ConservedStep(h: Hash, states: seq<System>, labels: seq<Label>, k: nat)
    requires Run(h, states, labels) && k < |labels| && Conserved(states, labels, k)
    ensures Conserved(states, labels, k + 1) <==> !StraySuback(labels, k)
  {
    hide Step, Enabled, PublishIds, ConnectionOpen;
    ConnectedMeansHandshake(h, states, labels, k);
    assert Stepped(h, states[k], labels[k], states[k + 1]);
    StepPublishIds(h, states[k], labels[k], states[k + 1]);
  }

  /** Identifier conservation, exactly: the announced and unreleased identifiers are the
      publish slots of the store at every point of a run, across any number of lost
      connections, if and only if no SUBACK in it names an identifier that is announced
      for a publish and not released. */
  lemma {:induction false} IdentifierConservation(h: Hash, states: seq<System>, labels: seq<Label>, n: nat)
    requires Run(h, states, labels) && n <= |labels|
    ensures (forall k :: 0 <= k <= n ==> Conserved(states, labels, k)) <==>
            (forall k :: 0 <= k < n ==> !StraySuback(labels, k))
    decreases n
  {
    hide Stepped, Outstanding, PublishIds, StraySuback;
    if n == 0 {
      NothingHeldAtStart(states, labels);
    } else {
      IdentifierConservation(h, states, labels, n - 1);
      if Conserved(states, labels, n - 1) {
        ConservedStep(h, states, labels, n - 1);
      }
    }
  }

  lemma NothingHeldAtStart(states: seq<System>, labels: seq<Label>)
    requires |states| > |labels| && states[0] == Start()
    ensures Conserved(states, labels, 0)
  {
  }

  /** No identifier is handed out while it is in use: what StorePacket announces is free
      in the store, hence not outstanding as long as identifiers are conserved; and a
      release names an outstanding one exactly when the PUBACK named a publish. */
  lemma IdentifiersFresh(h: Hash, states: seq<System>, labels: seq<Label>, k: nat)
    requires Run(h, states, labels) && k < |labels| && labels[k].action.Some?
    ensures var ids := states[k].client.ids;
            match labels[k].action.value
            case StorePacket(id) =>
              && 1 <= id <= BITS && id !in ids && (forall i :: 1 <= i < id ==> i in ids)
              && (Conserved(states, labels, k) ==> id !in Outstanding(labels, k))
            case ReleasePacket(id) =>
              id in ids && (Conserved(states, labels, k) ==>
                              (id in Outstanding(labels, k) <==> ids[id] == ForPublish))
            case _ => true
  {
    hide Step, Enabled, Outstanding;
    assert Stepped(h, states[k], labels[k], states[k + 1]);
    StepPublishIds(h, states[k], labels[k], states[k + 1]);
    StoreTakesLeast(h, states[k], labels[k], states[k + 1]);
  }

  /** The same for SUBSCRIBE: its identifier is the least free one, so it names no publish
      that is still outstanding, and it is held for the subscription from then on. */
  lemma SubscribeIdFresh(h: Hash, states: seq<System>, labels: seq<Label>, k: nat)
    requires Run(h, states, labels) && k < |labels| && labels[k].event.ESubscribe?
    ensures labels[k].action.Some? && labels[k].action.value.SendPacket? && labels[k].action.value.packet.Subscribe?
    ensures var ids, id := states[k].client.ids, labels[k].action.value.packet.id;
            && 1 <= id <= BITS && id !in ids && (forall i :: 1 <= i < id ==> i in ids)
            && (Conserved(states, labels, k) ==> id !in Outstanding(labels, k))
            && states[k + 1].client.ids == ids[id := NotForPublish]
  {
    hide NextFree, Outstanding;
    assert Stepped(h, states[k], labels[k], states[k + 1]);
    NextFreeIsLeast(states[k].client.ids, 1);
  }

  lemma StoreTakesLeast(h: Hash, s: System, l: Label, s': System)
    requires Stepped(h, s, l, s')
    ensures l.action.Some? && l.action.value.StorePacket? ==> NextFree(s.client.ids, 1) == Some(l.action.value.id)
    ensures NextFree(s.client.ids, 1).Some? ==>
              var id := NextFree(s.client.ids, 1).value;
              1 <= id <= BITS && forall i :: 1 <= i < id ==> i in s.client.ids
  {
    hide NextFree, PublishIds, KeepPublish, Elapsed, ServerKeepAlive, AssignedClientId;
    NextFreeIsLeast(s.client.ids, 1);
  }

  /** A server that answers a SUBSCRIBE with the identifier of a publish breaks the
      bookkeeping: the publish slot is freed without a ReleasePacket. */
  lemma StraySubackBreaksConservation(h: Hash, states: seq<System>, labels: seq<Label>, k: nat)
    requires Run(h, states, labels) && k < |labels|
    requires Conserved(states, labels, k) && StraySuback(labels, k)
    ensures labels[k].event.packet.id in Outstanding(labels, k + 1)
    ensures labels[k].event.packet.id !in states[k + 1].client.ids
  {
    hide Step, Enabled, CanConsume, ConnectionOpen;
    ConnectedMeansHandshake(h, states, labels, k);
    assert Stepped(h, states[k], labels[k], states[k + 1]);
    SubackFrees(h, states[k], labels[k], states[k + 1]);
  }

  lemma SubackFrees(h: Hash, s: System, l: Label, s': System)
    requires Stepped(h, s, l, s') && SubackConsumed(s, l)
    ensures s'.client.ids == s.client.ids - {l.event.packet.id} && l.action.None?
  {
    hide NextFree, KeepPublish, Elapsed, ServerKeepAlive, AssignedClientId;
  }

  lemma QosOneSession(h: Hash, connect: Raw, connack: Raw, publish: Raw)
      returns (s1: System, s2: System, s3: System, s4: System)
    requires connect.Connect? && connack.Connack? && connack.reason == 0
    requires publish.Publish? && publish.qos == AtLeastOnce
    ensures Stepped(h, Start(), Label(EConnect(0, connect), Some(SendPacket(connect))), s1)
    ensures s1.client.conn.Connecting?
    ensures Stepped(h, s1, Label(EConsume(0, connack), ConsumeConnack(h, s1.client, connack).1), s2)
    ensures Stepped(h, s2, Label(EPublish(publish), None), s3)
    ensures Stepped(h, s3, Label(ERunPublisher(0), Some(StorePacket(1))), s4)
    ensures s4.client.conn.Connected? && s4.client.ids == map[1 := ForPublish]
  {
    hide ServerKeepAlive, AssignedClientId;
    s1 := Step(h, Start(), EConnect(0, connect)).0;
    s2 := Step(h, s1, EConsume(0, connack)).0;
    s3 := Step(h, s2, EPublish(publish)).0;
    assert NextFree(s3.client.ids, 1) == Some(1);
    s4 := Step(h, s3, ERunPublisher(0)).0;
  }

  /** Such a run exists: connect, publish at QoS 1, and receive a SUBACK for the
      identifier of that publish. */
  lemma StraySubackRun(h: Hash, connect: Raw, connack: Raw, publish: Raw)
      returns (states: seq<System>, labels: seq<Label>)
    requires connect.Connect? && connack.Connack? && connack.reason == 0
    requires publish.Publish? && publish.qos == AtLeastOnce
    ensures Run(h, states, labels) && |labels| == 5
    ensures StraySuback(labels, 4) && !Conserved(states, labels, 5)
  {
    hide Step, Enabled, ConsumeConnack, Conserved, PublishIds, ConnectionOpen;
    var s1, s2, s3, s4 := QosOneSession(h, connect, connack, publish);
    var s5, l5 := SubackOfPublish(h, s4);
    states := [Start(), s1, s2, s3, s4, s5];
    labels := [Label(EConnect(0, connect), Some(SendPacket(connect))),
               Label(EConsume(0, connack), ConsumeConnack(h, s1.client, connack).1),
               Label(EPublish(publish), None), Label(ERunPublisher(0), Some(StorePacket(1))), l5];
    assert forall k :: 0 <= k < 4 ==> !StraySuback(labels, k);
    IdentifierConservation(h, states, labels, 4);
    HeldIsOutstanding(states, labels, 4, 1);
    ConnectedMeansHandshake(h, states, labels, 4);
    ConservedStep(h, states, labels, 4);
  }

  lemma HeldIsOutstanding(states: seq<System>, labels: seq<Label>, k: nat, id: nat)
    requires k <= |labels| < |states| && Conserved(states, labels, k)
    requires id in states[k].client.ids && states[k].client.ids[id] == ForPublish
    ensures id in Outstanding(labels, k)
  {
  }

  lemma SubackOfPublish(h: Hash, s: System) returns (s': System, l: Label)
    requires s.client.conn.Connected? && s.client.ids == map[1 := ForPublish]
    ensures Stepped(h, s, l, s') && l.event == EConsume(0, Suback(1, map[], []))
  {
    var e := EConsume(0, Suback(1, map[], []));
    var r := Step(h, s, e);
    s', l := r.0, Label(e, r.1);
  }

  // ----------------------------------------------------------------------- keep-alive

  predicate SendsPing(l: Label) {
    l.action.Some? && l.action.value.SendPacket? && l.action.value.packet.Pingreq?
  }

  predicate GetsPong(l: Label) {
    l.event.EConsume? && l.event.packet.Pingresp?
  }

  /** PINGREQs sent minus PINGRESPs consumed between two points of the trace. */
  function PingBalance(labels: seq<Label>, from: nat, n: nat): int
    requires n <= |labels|
  {
    if n <= from then 0
    else
      PingBalance(labels, from, n - 1)
      + (if SendsPing(labels[n - 1]) then 1 else 0) - (if GetsPong(labels[n - 1]) then 1 else 0)
  }

  lemma StepPings(h: Hash, s: System, l: Label, s': System)
    requires Stepped(h, s, l, s') && HandleOk(s.handle) && !s.client.conn.Disconnected? && !IsReset(l)
    ensures Waiting(s'.client.conn) == Waiting(s.client.conn)
                                       + (if SendsPing(l) then 1 else 0) - (if GetsPong(l) then 1 else 0)
  {
    hide NextFree, Consume, CanConsume, KeepPublish, Elapsed;
    if l.event.EConsume? {
      ConsumeFacts(h, s.client, l.event.t, l.event.packet);
    }
  }

  lemma ConnectIsNoPing(h: Hash, s: System, l: Label, s': System)
    requires Stepped(h, s, l, s') && IsConnect(l)
    ensures !SendsPing(l) && !GetsPong(l)
  {
  }

  /** Within a connection the PINGREQs sent exceed the PINGRESPs consumed by one exactly
      while an answer is awaited, and by none otherwise. */
  lemma {:induction false} PingBalanceInvariant(h: Hash, states: seq<System>, labels: seq<Label>, n: nat, i: nat)
    requires Run(h, states, labels) && n <= |labels| && LiveConnect(labels, n, i)
    ensures !states[n].client.conn.Disconnected?
    ensures PingBalance(labels, i, n) == Waiting(states[n].client.conn)
    decreases n
  {
    hide Step, Enabled, IsReset, IsConnect, HandleOk, IdsOk, SendsPing, GetsPong;
    var m := n - 1;
    assert Stepped(h, states[m], labels[m], states[m + 1]);
    RunKeepsOk(h, states, labels, m);
    var k := Phase(h, states, labels, n);
    StepConnection(h, states[m], labels[m], states[n]);
    if i == m {
      ConnectIsNoPing(h, states[m], labels[m], states[n]);
    } else {
      PingBalanceInvariant(h, states, labels, m, i);
      StepPings(h, states[m], labels[m], states[n]);
    }
  }

  function TimeOf(e: Event): nat {
    match e
    case EPublish(_) => 0
    case EDisconnect(_) => 0
    case _ => e.t
  }

  /** The last time anything but a DISCONNECT was sent. */
  function LastSend(labels: seq<Label>, n: nat): Option<nat>
    requires n <= |labels|
  {
    if n == 0 then None
    else
      match labels[n - 1].action
      case Some(SendPacket(p)) =>
        if p.Disconnect? then LastSend(labels, n - 1) else Some(TimeOf(labels[n - 1].event))
      case _ => LastSend(labels, n - 1)
  }

  lemma StepLastSend(h: Hash, s: System, l: Label, s': System)
    requires Stepped(h, s, l, s') && HandleOk(s.handle) && !s'.client.conn.Disconnected?
    ensures match l.action
            case Some(SendPacket(p)) =>
              if p.Disconnect? then s'.client.conn == s.client.conn
              else SentAt(s'.client.conn) == TimeOf(l.event)
            case _ => !s.client.conn.Disconnected? && SentAt(s'.client.conn) == SentAt(s.client.conn)
  {
    hide NextFree, Consume, CanConsume, KeepPublish, Elapsed;
    if l.event.EConsume? {
      ConsumeFacts(h, s.client, l.event.t, l.event.packet);
    }
  }

  lemma {:induction false} LastSendInvariant(h: Hash, states: seq<System>, labels: seq<Label>, n: nat)
    requires Run(h, states, labels) && n <= |labels| && !states[n].client.conn.Disconnected?
    ensures LastSend(labels, n) == Some(SentAt(states[n].client.conn))
    decreases n
  {
    hide Step, Enabled, HandleOk, IdsOk;
    if n == 0 {
    } else {
      var m := n - 1;
      assert Stepped(h, states[m], labels[m], states[m + 1]);
      RunKeepsOk(h, states, labels, m);
      StepLastSend(h, states[m], labels[m], states[n]);
      if !states[m].client.conn.Disconnected? {
        LastSendInvariant(h, states, labels, m);
      }
    }
  }

  const SERVER_KEEP_ALIVE: nat := 0x13

  /** A CONNACK with the property Server Keep Alive. */
  predicate GivesInterval(p: Raw) {
    p.Connack? && SERVER_KEEP_ALIVE in p.props && p.props[SERVER_KEEP_ALIVE].Num?
  }

  /** The keep-alive in force since the CONNECT at `i`: its own value until a CONNACK
      carries the server's (sections 3.1.2.10 and 3.2.2.3.14 of MQTT 5.0). */
  function Negotiated(labels: seq<Label>, i: nat, n: nat): nat
    requires i < n <= |labels| && IsConnect(labels[i])
  {
    if n == i + 1 then (if labels[i].event.packet.Connect? then labels[i].event.packet.keepAlive else 0)
    else if IsConnack(labels[n - 1]) && GivesInterval(labels[n - 1].event.packet) then
      labels[n - 1].event.packet.props[SERVER_KEEP_ALIVE].n
    else Negotiated(labels, i, n - 1)
  }

  lemma StepKeepAlive(h: Hash, s: System, l: Label, s': System)
    requires Stepped(h, s, l, s')
    ensures IsConnect(l) ==> l.event.packet.Connect? && s'.client.keepAlive == l.event.packet.keepAlive
    ensures !IsConnect(l) && !s.client.conn.Disconnected? ==>
              s'.client.keepAlive
              == if IsConnack(l) && GivesInterval(l.event.packet)
                 then l.event.packet.props[SERVER_KEEP_ALIVE].n else s.client.keepAlive
  {
    hide NextFree, AssignedClientId, KeepPublish, Elapsed;
  }

  lemma {:induction false} NegotiatedInvariant(h: Hash, states: seq<System>, labels: seq<Label>, n: nat, i: nat)
    requires Run(h, states, labels) && n <= |labels| && LiveConnect(labels, n, i)
    ensures states[n].client.keepAlive == Negotiated(labels, i, n)
    decreases n
  {
    hide Step, Enabled, IsReset, IsConnack, GivesInterval;
    var m := n - 1;
    assert Stepped(h, states[m], labels[m], states[m + 1]);
    StepKeepAlive(h, states[m], labels[m], states[n]);
    if i == m {
    } else {
      NegotiatedInvariant(h, states, labels, m, i);
      PingBalanceInvariant(h, states, labels, m, i);
      ConnectFindsNoneLive(h, states, labels, m);
    }
  }

  lemma StepRunIdle(h: Hash, s: System, l: Label, s': System)
    requires Stepped(h, s, l, s') && l.event.ERun? && s'.client.conn.Connected? && s'.client.keepAlive > 0
    ensures Waiting(s'.client.conn) == 1 || Elapsed(s'.client.conn.lastSent, l.event.t) < s'.client.keepAlive
  {
    hide Elapsed;
  }

  /** Keep-alive over every run: after `run` at time t on a connection whose negotiated
      keep-alive is K > 0, either a PINGREQ is unanswered or less than K has passed since
      the last packet that was not a DISCONNECT. */
  lemma KeepAlive(h: Hash, states: seq<System>, labels: seq<Label>, n: nat, i: nat)
    requires Run(h, states, labels) && 0 < n <= |labels|
    requires LiveConnect(labels, n, i) && Acked(labels, n, i) && labels[n - 1].event.ERun?
    requires Negotiated(labels, i, n) > 0
    ensures PingBalance(labels, i, n) == 1
            || (LastSend(labels, n).Some?
                && labels[n - 1].event.t < LastSend(labels, n).value + Negotiated(labels, i, n)
                && LastSend(labels, n).value < labels[n - 1].event.t + Negotiated(labels, i, n))
  {
    hide Step, Enabled, LiveConnect, Acked, PingBalance, LastSend, Negotiated, IsConnect;
    ConnectedMeansHandshake(h, states, labels, n);
    PingBalanceInvariant(h, states, labels, n, i);
    NegotiatedInvariant(h, states, labels, n, i);
    LastSendInvariant(h, states, labels, n);
    assert Stepped(h, states[n - 1], labels[n - 1], states[n - 1 + 1]);
    StepRunIdle(h, states[n - 1], labels[n - 1], states[n]);
  }

  /** `run` pings exactly when a ping is due, and nothing else does. */
  lemma StepPingsWhenDue(h: Hash, s: System, l: Label, s': System)
    requires Stepped(h, s, l, s') && HandleOk(s.handle)
    ensures SendsPing(l) <==> l.event.ERun? && PingDue(s.client, l.event.t)
  {
    hide NextFree, Consume, CanConsume, KeepPublish, Elapsed;
    if l.event.EConsume? {
      ConsumeFacts(h, s.client, l.event.t, l.event.packet);
    }
  }

  /** A PINGREQ leaves exactly when `run` is called at a time t on an open connection with
      an interval K > 0, none is unanswered, and t is K or more away from the last packet
      that was not a DISCONNECT. */
  lemma PingExactlyWhenDue(h: Hash, states: seq<System>, labels: seq<Label>, k: nat, i: nat)
    requires Run(h, states, labels) && k < |labels| && LiveConnect(labels, k, i)
    ensures LastSend(labels, k).Some?
    ensures SendsPing(labels[k]) <==>
            && labels[k].event.ERun? && Acked(labels, k, i)
            && Negotiated(labels, i, k) > 0 && PingBalance(labels, i, k) == 0
            && (LastSend(labels, k).value + Negotiated(labels, i, k) <= labels[k].event.t
                || labels[k].event.t + Negotiated(labels, i, k) <= LastSend(labels, k).value)
  {
    hide Step, Enabled, LiveConnect, Acked, PingBalance, LastSend, Negotiated, IsConnect, SendsPing, IdsOk, HandleOk;
    assert Stepped(h, states[k], labels[k], states[k + 1]);
    RunKeepsOk(h, states, labels, k);
    StepPingsWhenDue(h, states[k], labels[k], states[k + 1]);
    PingBalanceInvariant(h, states, labels, k, i);
    NegotiatedInvariant(h, states, labels, k, i);
    LastSendInvariant(h, states, labels, k);
    ConnectedMeansHandshake(h, states, labels, k);
    AckedIsOpen(h, states, labels, k, i);
  }

  lemma AckedIsOpen(h: Hash, states: seq<System>, labels: seq<Label>, n: nat, i: nat)
    requires Run(h, states, labels) && n <= |labels| && LiveConnect(labels, n, i)
    ensures Acked(labels, n, i) <==> ConnectionOpen(labels, n)
  {
    hide Run, LiveConnect, Acked;
    if ConnectionOpen(labels, n) {
      var k :| LiveConnect(labels, n, k) && Acked(labels, n, k);
      LiveConnectUnique(h, states, labels, n, i, k);
    }
  }

  // ---------------------------------------------------------------- client identifier

  /** How an action changes the hash of the identifier the client is known by: the first
      one it sends counts, until the server assigns another. */
  function KnownAfter(h: Hash, before: Option<nat>, a: Option<Action>): Option<nat> {
    match a
    case Some(SaveClientIdentifier(id)) => Some(h(id))
    case Some(SendPacket(Connect(id, _, _, _, _, _, _))) =>
      if before.None? && id != [] then Some(h(id)) else before
    case _ => before
  }

  function KnownAs(h: Hash, labels: seq<Label>, n: nat): Option<nat>
    requires n <= |labels|
  {
    if n == 0 then None else KnownAfter(h, KnownAs(h, labels, n - 1), labels[n - 1].action)
  }

  lemma ConsumeIdentifier(h: Hash, c: Client, t: nat, p: Raw)
    requires CanConsume(c, p)
    ensures Consume(h, c, t, p).0.idHash == KnownAfter(h, c.idHash, Consume(h, c, t, p).1)
  {
    hide KeepPublish, ServerKeepAlive, AssignedClientId;
  }

  lemma StepConnects(h: Hash, s: System, l: Label, s': System)
    requires Stepped(h, s, l, s') && IsConnect(l)
    ensures l.event.packet.Connect? && l.action == Some(SendPacket(l.event.packet))
    ensures s'.client.idHash == KnownAfter(h, s.client.idHash, l.action)
    ensures s.client.idHash.Some? ==>
              l.event.packet.clientId != [] && h(l.event.packet.clientId) == s.client.idHash.value
  {
  }

  /** The action neither connects nor announces an assigned identifier. */
  predicate KeepsIdentifier(a: Option<Action>) {
    a.Some? ==> !a.value.SaveClientIdentifier? && (a.value.SendPacket? ==> !a.value.packet.Connect?)
  }

  lemma PublisherIdentifier(c: Client, b: Publisher, t: nat)
    requires CanRunPublisher(c, b)
    ensures var (c', _, a) := RunPublisher(c, b, t); c'.idHash == c.idHash && KeepsIdentifier(a)
  {
    hide NextFree;
  }

  lemma SubscribeIdentifier(c: Client, t: nat, p: Raw)
    requires CanSubscribe(c, p)
    ensures var (c', a) := DoSubscribe(c, t, p); c'.idHash == c.idHash && KeepsIdentifier(a)
  {
    hide NextFree;
  }

  lemma OtherIdentifier(h: Hash, s: System, l: Label, s': System)
    requires Stepped(h, s, l, s') && HandleOk(s.handle) && !IsConnect(l) && !l.event.EConsume?
    ensures s'.client.idHash == s.client.idHash && KeepsIdentifier(l.action)
  {
    hide NextFree, KeepPublish, Elapsed, Consume, CanConsume, HandleConnect, CanConnect, GainToken, RunPublisher,
      CanRunPublisher, DoSubscribe, CanSubscribe;
    match l.event
    case ERunPublisher(t) => PublisherIdentifier(s.client, s.handle.publisher, t);
    case ESubscribe(t, p) => SubscribeIdentifier(s.client, t, p);
    case _ =>
  }

  lemma StepIdentifier(h: Hash, s: System, l: Label, s': System)
    requires Stepped(h, s, l, s') && HandleOk(s.handle)
    ensures s'.client.idHash == KnownAfter(h, s.client.idHash, l.action)
  {
    hide Consume, CanConsume, HandleOk, RunPublisher, CanRunPublisher, DoSubscribe, CanSubscribe, NextFree;
    if IsConnect(l) {
      StepConnects(h, s, l, s');
    } else if l.event.EConsume? {
      ConsumeIdentifier(h, s.client, l.event.t, l.event.packet);
    } else {
      OtherIdentifier(h, s, l, s');
    }
  }

  lemma {:induction false} KnownAsInvariant(h: Hash, states: seq<System>, labels: seq<Label>, n: nat)
    requires Run(h, states, labels) && n <= |labels|
    ensures states[n].client.idHash == KnownAs(h, labels, n)
    decreases n
  {
    hide Step, Enabled, HandleOk, IdsOk;
    if n == 0 {
    } else {
      var m := n - 1;
      KnownAsInvariant(h, states, labels, m);
      assert Stepped(h, states[m], labels[m], states[m + 1]);
      RunKeepsOk(h, states, labels, m);
      StepIdentifier(h, states[m], labels[m], states[n]);
    }
  }

  /** A known client never connects under another identifier: the one in every CONNECT has
      the hash of the last one assigned by the server, or else of the first one sent. */
  lemma ConnectKeepsIdentifier(h: Hash, states: seq<System>, labels: seq<Label>, k: nat)
    requires Run(h, states, labels) && k < |labels| && IsConnect(labels[k])
    ensures labels[k].event.packet.Connect?
    ensures var id, known := labels[k].event.packet.clientId, KnownAs(h, labels, k);
            known.Some? ==> id != [] && h(id) == known.value
    ensures var id := labels[k].event.packet.clientId;
            id != [] ==> KnownAs(h, labels, k + 1) == Some(h(id))
  {
    hide Step, HandleOk, IdsOk, KnownAs;
    assert Stepped(h, states[k], labels[k], states[k + 1]);
    KnownAsInvariant(h, states, labels, k);
    KnownAsInvariant(h, states, labels, k + 1);
    StepConnects(h, states[k], labels[k], states[k + 1]);
  }

  // ----------------------------------------------------------------- acknowledgements

  /** The identifier of a QoS 1 publish that the step delivered. */
  function Delivered1(l: Label): multiset<nat> {
    match l.action
    case Some(ReceiveAndAcknowledge(p, _)) =>
      if p.Publish? && p.pid.Some? then multiset{p.pid.value} else multiset{}
    case _ => multiset{}
  }

  /** The identifier of a PUBACK that the step sent. */
  function Acknowledged1(l: Label): multiset<nat> {
    match l.action
    case Some(SendPacket(p)) => if p.Ack? then multiset{p.id} else multiset{}
    case _ => multiset{}
  }

  /** The identifier of the QoS 1 publish that call k consumes on an open connection. */
  ghost function Received1(labels: seq<Label>, k: nat): multiset<nat>
    requires k < |labels|
  {
    match labels[k].event
    case EConsume(_, Publish(_, AtLeastOnce, _, _, Some(id), _, _)) =>
      if ConnectionOpen(labels, k) then multiset{id} else multiset{}
    case _ => multiset{}
  }

  /** Identifiers of the QoS 1 publishes received so far, read off the calls. */
  ghost function Receipts(labels: seq<Label>, n: nat): multiset<nat>
    requires n <= |labels|
  {
    if n == 0 then multiset{} else Receipts(labels, n - 1) + Received1(labels, n - 1)
  }

  /** Identifiers of the PUBACKs sent so far. */
  function PubacksSent(labels: seq<Label>, n: nat): multiset<nat>
    requires n <= |labels|
  {
    if n == 0 then multiset{} else PubacksSent(labels, n - 1) + Acknowledged1(labels[n - 1])
  }

  predicate SendsAck(l: Label) {
    l.action.Some? && l.action.value.SendPacket? && l.action.value.packet.Ack?
  }

  predicate Delivers1(l: Label) {
    l.action.Some? && l.action.value.ReceiveAndAcknowledge?
  }

  lemma ConsumeTokens(h: Hash, s: System, l: Label, s': System)
    requires Stepped(h, s, l, s') && l.event.EConsume?
    ensures !SendsAck(l) && Acknowledged1(l) == multiset{} && s'.tokens == s.tokens + Delivered1(l)
    ensures Delivers1(l) ==>
              var p := l.action.value.packet;
              l.event.packet == p && p.Publish? && p.qos == AtLeastOnce && p.pid == Some(l.action.value.token)
  {
    hide Consume, CanConsume;
    ConsumeFacts(h, s.client, l.event.t, l.event.packet);
    assert s.tokens + multiset{} == s.tokens;
  }

  lemma AcknowledgeTokens(h: Hash, s: System, l: Label, s': System)
    requires Stepped(h, s, l, s') && l.event.EAcknowledge?
    ensures !Delivers1(l) && SendsAck(l) && l.action.value.packet == PubackFor(l.event.id)
    ensures l.event.id in s.tokens && s'.tokens == s.tokens - multiset{l.event.id}
  {
  }

  lemma OtherTokens(h: Hash, s: System, l: Label, s': System)
    requires Stepped(h, s, l, s') && HandleOk(s.handle) && !l.event.EConsume? && !l.event.EAcknowledge?
    ensures !Delivers1(l) && !SendsAck(l) && s'.tokens == s.tokens
  {
    hide NextFree, KeepPublish, Elapsed;
  }

  /** Tokens are gained by delivered QoS 1 publishes and spent by PUBACKs, one each. */
  lemma StepTokens(h: Hash, s: System, l: Label, s': System)
    requires Stepped(h, s, l, s') && HandleOk(s.handle)
    ensures Delivers1(l) ==>
              var p := l.action.value.packet;
              && l.event.EConsume? && l.event.packet == p && p.Publish? && p.qos == AtLeastOnce
              && p.pid == Some(l.action.value.token)
    ensures SendsAck(l) ==> l.action.value.packet.kind == Puback && l.action.value.packet.reason == 0
    ensures Acknowledged1(l) <= s.tokens && s'.tokens == s.tokens + Delivered1(l) - Acknowledged1(l)
  {
    hide Stepped, HandleOk;
    if l.event.EConsume? {
      ConsumeTokens(h, s, l, s');
    } else if l.event.EAcknowledge? {
      AcknowledgeTokens(h, s, l, s');
    } else {
      OtherTokens(h, s, l, s');
    }
  }

  lemma BalanceMoves(sent: multiset<nat>, held: multiset<nat>, gain: multiset<nat>, spent: multiset<nat>)
    requires spent <= held
    ensures (sent + held) + gain == (sent + spent) + (held + gain - spent)
  {
  }

  lemma ConsumeDelivers(h: Hash, c: Client, t: nat, p: Raw)
    requires CanConsume(c, p) && p.Publish?
    ensures Consume(h, c, t, p).1 ==
            if !c.conn.Connected? then None
            else if p.qos == AtMostOnce then Some(ReceivePacket(p))
            else if p.qos == AtLeastOnce && p.pid.Some? then Some(ReceiveAndAcknowledge(p, p.pid.value))
            else None
  {
  }

  lemma OnlyConsumeDelivers(h: Hash, s: System, l: Label, s': System)
    requires Stepped(h, s, l, s') && HandleOk(s.handle)
    ensures Delivers1(l) ==> l.event.EConsume? && l.event.packet.Publish? && s.client.conn.Connected?
  {
    hide Consume, CanConsume, NextFree, KeepPublish, Elapsed;
    if l.event.EConsume? {
      ConsumeFacts(h, s.client, l.event.t, l.event.packet);
    }
  }

  /** Every PUBLISH consumed on an open connection is delivered as it is, above QoS 0 with
      the acknowledgement of its own identifier. */
  lemma PublishDelivered(h: Hash, states: seq<System>, labels: seq<Label>, k: nat)
    requires Run(h, states, labels) && k < |labels| && ConnectionOpen(labels, k)
    requires labels[k].event.EConsume? && labels[k].event.packet.Publish?
    ensures var p := labels[k].event.packet;
            if p.qos == AtMostOnce then labels[k].action == Some(ReceivePacket(p))
            else p.qos == AtLeastOnce && p.pid.Some? && labels[k].action == Some(ReceiveAndAcknowledge(p, p.pid.value))
  {
    hide Step, ConnectionOpen;
    ConnectedMeansHandshake(h, states, labels, k);
    assert Stepped(h, states[k], labels[k], states[k + 1]);
    ConsumedPublish(h, states[k], labels[k], states[k + 1]);
  }

  lemma ConsumedPublish(h: Hash, s: System, l: Label, s': System)
    requires Stepped(h, s, l, s') && l.event.EConsume? && l.event.packet.Publish? && s.client.conn.Connected?
    ensures var p := l.event.packet;
            if p.qos == AtMostOnce then l.action == Some(ReceivePacket(p))
            else p.qos == AtLeastOnce && p.pid.Some? && l.action == Some(ReceiveAndAcknowledge(p, p.pid.value))
  {
    hide Consume;
    ConsumeDelivers(h, s.client, l.event.t, l.event.packet);
  }

  /** What is delivered for acknowledgement is exactly what is received. */
  lemma DeliveredIsReceived(h: Hash, states: seq<System>, labels: seq<Label>, k: nat)
    requires Run(h, states, labels) && k < |labels|
    ensures Delivered1(labels[k]) == Received1(labels, k)
  {
    hide Step, Enabled, HandleOk, IdsOk, ConnectionOpen;
    assert Stepped(h, states[k], labels[k], states[k + 1]);
    RunKeepsOk(h, states, labels, k);
    ConnectedMeansHandshake(h, states, labels, k);
    OnlyConsumeDelivers(h, states[k], labels[k], states[k + 1]);
    if labels[k].event.EConsume? && labels[k].event.packet.Publish? && ConnectionOpen(labels, k) {
      PublishDelivered(h, states, labels, k);
    }
  }

  /** Every received QoS 1 publish is acknowledged or still to be acknowledged, never
      twice: what was received is what was acknowledged plus the tokens still held. */
  lemma {:induction false} AcknowledgementBalance(h: Hash, states: seq<System>, labels: seq<Label>, n: nat)
    requires Run(h, states, labels) && n <= |labels|
    ensures Receipts(labels, n) == PubacksSent(labels, n) + states[n].tokens
    decreases n
  {
    hide Step, Enabled, HandleOk, IdsOk, Delivered1, Received1, Acknowledged1;
    if n == 0 {
    } else {
      var m := n - 1;
      AcknowledgementBalance(h, states, labels, m);
      assert Stepped(h, states[m], labels[m], states[m + 1]);
      RunKeepsOk(h, states, labels, m);
      StepTokens(h, states[m], labels[m], states[n]);
      DeliveredIsReceived(h, states, labels, m);
      BalanceMoves(PubacksSent(labels, m), states[m].tokens, Delivered1(labels[m]), Acknowledged1(labels[m]));
    }
  }

  /** PUBACKs sent never outrun the QoS 1 publishes received (section 4.3.2). */
  lemma AcksNeverOutrunReceipts(h: Hash, states: seq<System>, labels: seq<Label>, n: nat)
    requires Run(h, states, labels) && n <= |labels|
    ensures PubacksSent(labels, n) <= Receipts(labels, n)
  {
    hide Stepped, Receipts, PubacksSent;
    AcknowledgementBalance(h, states, labels, n);
    PartOfSum(PubacksSent(labels, n), states[n].tokens);
  }

  lemma PartOfSum(a: multiset<nat>, b: multiset<nat>)
    ensures a <= a + b
  {
    assert forall x :: a[x] <= (a + b)[x];
  }

  /** Whatever PUBLISH of QoS 0 or 1 the parser delivers can be consumed: the identifier
      the state machine unwraps is there. */
  lemma ParsedPublishConsumable(s: bytes, c: Client)
    requires ParsePacket(s).Ok? && ParsePacket(s).value.Publish?
    ensures var p := ParsePacket(s).value;
            c.conn.Connected? ==> (CanConsume(c, p) <==> p.qos != ExactlyOnce)
  {
    hide ParsePacket, PacketTyped, BodySize, Writable, TailsOk;
    PacketNormal(s);
    ReadableView(ParsePacket(s).value);
  }

  // ------------------------------------------------------------------------ publishes

  /** A PUBLISH above QoS 0 leaves only with an identifier that is in the store for it:
      its StorePacket came before it from the same publisher. */
  ghost predicate StampedOk(s: System) {
    s.handle.Publishing? && s.handle.publisher.state.Send? && s.handle.publisher.packet.Some?
    && s.handle.publisher.packet.value.Publish? && s.handle.publisher.packet.value.qos != AtMostOnce ==>
      var pid := s.handle.publisher.packet.value.pid;
      pid.Some? && pid.value in PublishIds(s.client.ids)
  }

  lemma StepKeepsStamped(h: Hash, s: System, l: Label, s': System)
    requires Stepped(h, s, l, s') && StampedOk(s) && HandleOk(s.handle)
    ensures StampedOk(s')
    ensures l.action.Some? && l.action.value.SendPacket? && l.action.value.packet.Publish?
            && l.action.value.packet.qos != AtMostOnce ==>
              var pid := l.action.value.packet.pid;
              pid.Some? && pid.value in PublishIds(s'.client.ids)
  {
    hide NextFree, Consume, CanConsume, KeepPublish, Elapsed, PublishIds;
    if l.event.EConsume? {
      ConsumeFacts(h, s.client, l.event.t, l.event.packet);
    }
    if l.event.ERunPublisher? {
      PublishIdsUpdates(s.client.ids, if NextFree(s.client.ids, 1).Some? then NextFree(s.client.ids, 1).value else 0);
    }
  }

  /** Every PUBLISH above QoS 0 that is sent carries an identifier the store holds for a
      publish, hence one that was announced and is not yet released. */
  lemma {:induction false} PublishesAreStored(h: Hash, states: seq<System>, labels: seq<Label>, n: nat)
    requires Run(h, states, labels) && n <= |labels|
    ensures StampedOk(states[n])
    ensures n > 0 && labels[n - 1].action.Some? && labels[n - 1].action.value.SendPacket?
            && labels[n - 1].action.value.packet.Publish? && labels[n - 1].action.value.packet.qos != AtMostOnce ==>
              var pid := labels[n - 1].action.value.packet.pid;
              && pid.Some? && pid.value in PublishIds(states[n].client.ids)
              && (Conserved(states, labels, n) ==> pid.value in Outstanding(labels, n))
    decreases n
  {
    hide Step, Enabled, HandleOk, IdsOk, PublishIds, Outstanding;
    if n == 0 {
    } else {
      var m := n - 1;
      PublishesAreStored(h, states, labels, m);
      assert Stepped(h, states[m], labels[m], states[m + 1]);
      RunKeepsOk(h, states, labels, m);
      StepKeepsStamped(h, states[m], labels[m], states[n]);
    }
  }
}
