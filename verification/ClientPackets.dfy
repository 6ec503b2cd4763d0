/** Where the client meets the codec: what it sends can always be encoded, and the other
    side reads back what was meant. */
module ClientPackets {
  import opened Wire
  import opened Sections
  import opened Packets
  import opened PacketLaws
  import opened IdentifierStore
  import opened ClientSpec
  import opened ClientLaws
  import Codec

  /** A packet that the codec carries: its iterators work and its view is well-formed. */
  ghost predicate Sendable(p: Raw) {
    TailsOk(p) && WellFormed(View(p))
  }

  /** A publish as the caller hands it over: above QoS 0 its identifier is still open. */
  ghost predicate Publishable(p: Raw) {
    p.Publish? && Sendable(if p.qos == AtMostOnce then p else Stamp(p, 1))
  }

  /** Callers pass sendable packets; what is consumed was parsed. */
  ghost predicate EventOk(e: Event) {
    match e
    case EConnect(_, p) => Sendable(p)
    case EConsume(_, p) => Sendable(p)
    case ESubscribe(_, p) => Sendable(p)
    case EDisconnect(p) => Sendable(p)
    case EPublish(p) => Publishable(p)
    case _ => true
  }

  /** What the handle still has to send is sendable, and so are the acknowledgements of the
      tokens held. */
  ghost predicate PendingOk(s: System) {
    && (forall id :: id in s.tokens ==> 0 < id < 0x1_0000)
    && match s.handle
       case Idle => true
       case Publishing(b) => (
         match b.packet
         case None => true
         case Some(p) => if b.state.Store? then Publishable(p) else Sendable(p))
       case Disconnecting(d) => d.DisconnectWith? ==> Sendable(d.packet)
  }

  lemma ParsedIsSendable(s: bytes)
    requires ParsePacket(s).Ok?
    ensures Sendable(ParsePacket(s).value)
  {
    hide ParsePacket, WellFormed, View, TailsOk;
    PacketNormal(s);
  }

  /** Which identifier is stamped on a publish does not matter to the codec. */
  lemma StampSendable(p: Raw, id: nat)
    requires Publishable(p) && p.qos != AtMostOnce && 0 < id < 0x1_0000
    ensures Sendable(Stamp(p, id))
  {
    hide SectionTyped, SectionWritable, SectionIds, ViewSection, ValidUtf8, Short, TailsValid, SectionSize;
    assert View(Stamp(p, id)) == View(Stamp(p, 1)).(pid := Some(id));
  }

  lemma SubscribeSendable(p: Raw, id: nat)
    requires Sendable(p) && p.Subscribe? && 0 < id < 0x1_0000
    ensures Sendable(Subscribe(id, p.props, p.entries))
  {
    hide SectionTyped, SectionWritable, SectionIds, ViewSection, TailsValid, SectionSize, EntriesValid;
  }

  lemma PubackSendable(id: nat)
    requires 0 < id < 0x1_0000
    ensures Sendable(PubackFor(id))
  {
    hide SectionIds, FieldsSize;
    EmptySectionView();
    SectionLaws.EmptySectionSize(SectionIds(TAck(Puback)));
    assert View(PubackFor(id)) == Ack(Puback, id, 0, map[]);
  }

  lemma PublishId(p: Raw)
    requires Sendable(p) && p.Publish? && p.pid.Some?
    ensures 0 < p.pid.value < 0x1_0000
  {
    hide SectionTyped, SectionWritable, SectionIds, ViewSection, ValidUtf8, TailsValid, BodySize;
  }

  ghost predicate SentOk(l: Label) {
    l.action.Some? && l.action.value.SendPacket? ==> Sendable(l.action.value.packet)
  }

  lemma StepConsumes(h: Hash, s: System, l: Label, s': System)
    requires Stepped(h, s, l, s') && PendingOk(s) && EventOk(l.event) && l.event.EConsume?
    ensures PendingOk(s') && SentOk(l)
  {
    hide Consume, CanConsume, Sendable;
    ConsumeFacts(h, s.client, l.event.t, l.event.packet);
    if l.action.Some? && l.action.value.ReceiveAndAcknowledge? {
      PublishId(l.event.packet);
    }
  }

  lemma StepPublishes(h: Hash, s: System, l: Label, s': System)
    requires Stepped(h, s, l, s') && PendingOk(s) && SystemOk(s) && l.event.ERunPublisher?
    ensures PendingOk(s') && SentOk(l)
  {
    hide NextFree, Sendable;
    var b := s.handle.publisher;
    if b.state.Store? {
      NextFreeIsLeast(s.client.ids, 1);
      StampSendable(b.packet.value, NextFree(s.client.ids, 1).value);
    }
  }

  lemma StepSubscribes(h: Hash, s: System, l: Label, s': System)
    requires Stepped(h, s, l, s') && PendingOk(s) && EventOk(l.event) && l.event.ESubscribe?
    ensures PendingOk(s') && SentOk(l)
  {
    hide NextFree, Sendable;
    NextFreeIsLeast(s.client.ids, 1);
    SubscribeSendable(l.event.packet, NextFree(s.client.ids, 1).value);
  }

  lemma StepAcknowledges(h: Hash, s: System, l: Label, s': System)
    requires Stepped(h, s, l, s') && PendingOk(s) && l.event.EAcknowledge?
    ensures PendingOk(s') && SentOk(l)
  {
    hide Sendable;
    PubackSendable(l.event.id);
  }

  lemma PingSendable()
    ensures Sendable(Pingreq)
  {
    assert View(Pingreq) == Pingreq;
  }

  lemma StepElse(h: Hash, s: System, l: Label, s': System)
    requires Stepped(h, s, l, s') && PendingOk(s) && EventOk(l.event)
    requires !l.event.EConsume? && !l.event.ERunPublisher? && !l.event.ESubscribe? && !l.event.EAcknowledge?
    ensures PendingOk(s') && SentOk(l)
  {
    hide Sendable, KeepPublish;
    PingSendable();
  }

  lemma StepKeepsPending(h: Hash, s: System, l: Label, s': System)
    requires Stepped(h, s, l, s') && PendingOk(s) && SystemOk(s) && EventOk(l.event)
    ensures PendingOk(s') && SentOk(l)
  {
    hide Stepped, PendingOk, SystemOk, SentOk, EventOk;
    match l.event
    case EConsume(_, _) => StepConsumes(h, s, l, s');
    case ERunPublisher(_) => StepPublishes(h, s, l, s');
    case ESubscribe(_, _) => StepSubscribes(h, s, l, s');
    case EAcknowledge(_, _) => StepAcknowledges(h, s, l, s');
    case _ => StepElse(h, s, l, s');
  }

  lemma {:induction false} PendingInvariant(h: Hash, states: seq<System>, labels: seq<Label>, n: nat)
    requires Run(h, states, labels) && n <= |labels|
    requires forall i :: 0 <= i < n ==> EventOk(labels[i].event)
    ensures PendingOk(states[n])
    ensures forall i :: 0 <= i < n ==> SentOk(labels[i])
    decreases n
  {
    hide Step, Enabled, EventOk, SystemOk, SentOk, Sendable, Publishable;
    if n == 0 {
    } else {
      var m := n - 1;
      PendingInvariant(h, states, labels, m);
      assert Stepped(h, states[m], labels[m], states[m + 1]);
      RunKeepsOk(h, states, labels, m);
      StepKeepsPending(h, states[m], labels[m], states[n]);
    }
  }

  /** In every run whose callers pass packets the codec carries, and whose incoming packets
      were parsed, whatever the client sends is encoded without an error and read back,
      before any further bytes, as the packet that was sent. */
  lemma SentPacketsArrive(h: Hash, states: seq<System>, labels: seq<Label>, k: nat, r: bytes)
    requires Run(h, states, labels) && k < |labels|
    requires forall i :: 0 <= i < |labels| ==> EventOk(labels[i].event)
    requires labels[k].action.Some? && labels[k].action.value.SendPacket?
    ensures var p := labels[k].action.value.packet;
            && TailsOk(p) && Writable(View(p)) && BodySize(View(p)) <= VARIABLE_INTEGER_MAX
            && Delivers(ParsePacket(EncodePacket(View(p)) + r), View(p))
            && ParsePacket(EncodePacket(View(p)) + r).rest == r
  {
    hide Run, EventOk, PendingOk, TailsOk, View, Delivers, ParsePacket, EncodePacket, PacketTyped, Writable, BodySize;
    PendingInvariant(h, states, labels, |labels|);
    assert SentOk(labels[k]);
    PacketRoundTrip(View(labels[k].action.value.packet), r);
  }

  /** The packets sent between two points of the trace, in order. */
  function SentBetween(labels: seq<Label>, from: nat, n: nat): seq<Viewed>
    requires n <= |labels|
  {
    if n <= from then []
    else
      var before := SentBetween(labels, from, n - 1);
      match labels[n - 1].action
      case Some(SendPacket(p)) => before + [View(p)]
      case _ => before
  }

  lemma {:induction false} SentAreWellFormed(labels: seq<Label>, from: nat, n: nat)
    requires n <= |labels| && forall i :: 0 <= i < n ==> SentOk(labels[i])
    ensures forall i :: 0 <= i < |SentBetween(labels, from, n)| ==> WellFormed(SentBetween(labels, from, n)[i])
    decreases n
  {
    hide WellFormed, View, TailsOk;
    if n <= from {
    } else {
      SentAreWellFormed(labels, from, n - 1);
      assert SentOk(labels[n - 1]);
    }
  }

  /** Whatever the client sends between two points of a run, for instance over one
      connection, reaches a reader packet by packet and in order, however the bytes are
      cut on the way, and leaves nothing unread. */
  lemma SentStreamArrives(h: Hash, states: seq<System>, labels: seq<Label>, from: nat, n: nat, chunks: seq<bytes>)
    requires Run(h, states, labels) && n <= |labels|
    requires forall i :: 0 <= i < |labels| ==> EventOk(labels[i].event)
    requires Codec.Flatten(chunks) == Codec.EncodeAll(SentBetween(labels, from, n))
    ensures Codec.SamePackets(Codec.Run(Codec.Open([]), chunks).0, SentBetween(labels, from, n))
    ensures Codec.Run(Codec.Open([]), chunks).1 == Codec.Open([])
  {
    hide Run, EventOk, PendingOk, SentOk, WellFormed, SentBetween, Codec.Run, Codec.Drain, Codec.EncodeAll,
      Codec.Flatten, Codec.SamePackets;
    PendingInvariant(h, states, labels, |labels|);
    SentAreWellFormed(labels, from, n);
    var sent := SentBetween(labels, from, n);
    Codec.ChunkingIrrelevant(chunks);
    Codec.DrainEncoded(sent, []);
    assert Codec.EncodeAll(sent) + [] == Codec.EncodeAll(sent);
  }
}
