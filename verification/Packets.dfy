/** The fifteen control packets: parsing, sizes and encodings (packets/, fixed_header.rs,
    reason_code.rs). A packet carries its user properties as `U`: the stored tail after
    parsing, the list of pairs in the eager view that sizes and writers work on. */
module Packets {
  import opened Wire
  import opened Properties
  import opened Sections

  // ------------------------------------------------------------------- fixed header

  datatype AckKind = Puback | Pubrec | Pubrel | Pubcomp

  datatype PacketType =
    | TConnect
    | TConnack
    | TPublish(dup: bool, qos: QoS, retain: bool)
    | TAck(kind: AckKind)
    | TSubscribe
    | TSuback
    | TUnsubscribe
    | TUnsuback
    | TPingreq
    | TPingresp
    | TDisconnect
    | TAuth

  function ParseHeader(b: byte): Option<PacketType> {
    var kind: nat, flags: nat := b / 16, b % 16;
    if kind == 3 then
      match QosOf(flags / 2 % 4)
      case None => None
      case Some(q) => Some(TPublish(flags / 8 == 1, q, flags % 2 == 1))
    else if flags == 2 then
      match kind
      case 6 => Some(TAck(Pubrel))
      case 8 => Some(TSubscribe)
      case 10 => Some(TUnsubscribe)
      case _ => None
    else if flags == 0 then
      match kind
      case 1 => Some(TConnect)
      case 2 => Some(TConnack)
      case 4 => Some(TAck(Puback))
      case 5 => Some(TAck(Pubrec))
      case 7 => Some(TAck(Pubcomp))
      case 9 => Some(TSuback)
      case 11 => Some(TUnsuback)
      case 12 => Some(TPingreq)
      case 13 => Some(TPingresp)
      case 14 => Some(TDisconnect)
      case 15 => Some(TAuth)
      case _ => None
    else None
  }

  function HeaderByte(t: PacketType): byte {
    match t
    case TConnect => 0x10
    case TConnack => 0x20
    case TPublish(dup, qos, retain) => 0x30 + Bit(dup) * 8 + QosCode(qos) * 2 + Bit(retain)
    case TAck(Puback) => 0x40
    case TAck(Pubrec) => 0x50
    case TAck(Pubrel) => 0x62
    case TAck(Pubcomp) => 0x70
    case TSubscribe => 0x82
    case TSuback => 0x90
    case TUnsubscribe => 0xA2
    case TUnsuback => 0xB0
    case TPingreq => 0xC0
    case TPingresp => 0xD0
    case TDisconnect => 0xE0
    case TAuth => 0xF0
  }

  // ------------------------------------------------------------------- reason codes

  datatype ReasonOf = RAuth | RConnack | RAck(kind: AckKind) | RSuback | RUnsuback | RDisconnect

  /** The reason codes each packet admits. */
  predicate ReasonOk(k: ReasonOf, b: byte) {
    match k
    case RAuth => b in [0x00, 0x18, 0x19]
    case RConnack => b == 0x00 || 0x80 <= b <= 0x83 || 0x85 <= b <= 0x8A ||
                     b in [0x8C, 0x90, 0x95, 0x97, 0x9F] || 0x99 <= b <= 0x9D
    case RAck(Puback) => b in [0x00, 0x10, 0x80, 0x83, 0x87, 0x90, 0x91, 0x97, 0x99]
    case RAck(Pubrec) => b in [0x00, 0x10, 0x80, 0x83, 0x87, 0x90, 0x91, 0x92, 0x97, 0x99]
    case RAck(_) => b in [0x00, 0x92]
    case RSuback => b <= 0x02 || b in [0x80, 0x83, 0x87, 0x8F, 0x91, 0x97, 0x9E, 0xA1, 0xA2]
    case RUnsuback => b in [0x00, 0x11, 0x80, 0x83, 0x87, 0x8F, 0x91]
    case RDisconnect => b in [0x00, 0x04, 0x87, 0x89, 0x8B] || 0x80 <= b <= 0x83 ||
                        0x8D <= b <= 0x90 || 0x93 <= b <= 0xA2
  }

  function ParseReason(k: ReasonOf, s: bytes): Parse<byte> {
    var (b, r) :- ParseU8(s);
    if ReasonOk(k, b) then Ok(b, r) else Fail
  }

  // ------------------------------------------------------------------------- packets

  datatype Will<U> = Will(props: Section<U>, topic: bytes, payload: bytes, qos: QoS, retain: bool)

  datatype Packet<U> =
    | Auth(reason: byte, props: Section<U>)
    | Connack(sessionPresent: bool, reason: byte, props: Section<U>)
    | Connect(clientId: bytes, username: Option<bytes>, password: Option<bytes>, cleanStart: bool,
              will: Option<Will<U>>, props: Section<U>, keepAlive: nat)
    | Disconnect(reason: byte, props: Section<U>)
    | Pingreq
    | Pingresp
    | Ack(kind: AckKind, id: nat, reason: byte, props: Section<U>)
    | Publish(dup: bool, qos: QoS, retain: bool, topic: bytes, pid: Option<nat>,
              props: Section<U>, payload: bytes)
    | Suback(id: nat, props: Section<U>, reasons: bytes)
    | Unsuback(id: nat, props: Section<U>, reasons: bytes)
    | Subscribe(id: nat, props: Section<U>, entries: bytes)
    | Unsubscribe(id: nat, props: Section<U>, entries: bytes)

  /** A packet as the parser delivers it. */
  type Raw = Packet<bytes>
  /** A packet with its user properties iterated; equality of packets in the source is
      equality of these. */
  type Viewed = Packet<seq<Pair>>

  function ViewWill(w: Will<bytes>): Will<seq<Pair>> {
    Will(ViewSection(w.props), w.topic, w.payload, w.qos, w.retain)
  }

  function ViewWillOpt(w: Option<Will<bytes>>): Option<Will<seq<Pair>>> {
    match w case None => None case Some(x) => Some(ViewWill(x))
  }

  function View(p: Raw): Viewed {
    match p
    case Auth(r, ps) => Auth(r, ViewSection(ps))
    case Connack(sp, r, ps) => Connack(sp, r, ViewSection(ps))
    case Connect(c, u, pw, cl, w, ps, k) => Connect(c, u, pw, cl, ViewWillOpt(w), ViewSection(ps), k)
    case Disconnect(r, ps) => Disconnect(r, ViewSection(ps))
    case Pingreq => Pingreq
    case Pingresp => Pingresp
    case Ack(k, id, r, ps) => Ack(k, id, r, ViewSection(ps))
    case Publish(d, q, rt, t, id, ps, pl) => Publish(d, q, rt, t, id, ViewSection(ps), pl)
    case Suback(id, ps, rs) => Suback(id, ViewSection(ps), rs)
    case Unsuback(id, ps, rs) => Unsuback(id, ViewSection(ps), rs)
    case Subscribe(id, ps, es) => Subscribe(id, ViewSection(ps), es)
    case Unsubscribe(id, ps, es) => Unsubscribe(id, ViewSection(ps), es)
  }

  /** Every stored tail is one the iterator can walk. */
  ghost predicate TailsOk(p: Raw) {
    && (!p.Pingreq? && !p.Pingresp? ==> TailsValid(p.props))
    && (p.Connect? && p.will.Some? ==> TailsValid(p.will.value.props))
  }

  function TypeOf<U>(p: Packet<U>): PacketType {
    match p
    case Auth(_, _) => TAuth
    case Connack(_, _, _) => TConnack
    case Connect(_, _, _, _, _, _, _) => TConnect
    case Disconnect(_, _) => TDisconnect
    case Pingreq => TPingreq
    case Pingresp => TPingresp
    case Ack(k, _, _, _) => TAck(k)
    case Publish(d, q, r, _, _, _, _) => TPublish(d, q, r)
    case Suback(_, _, _) => TSuback
    case Unsuback(_, _, _) => TUnsuback
    case Subscribe(_, _, _) => TSubscribe
    case Unsubscribe(_, _, _) => TUnsubscribe
  }

  function SectionIds(t: PacketType): seq<nat> {
    match t
    case TAuth => Allowed(SAuth)
    case TConnack => Allowed(SConnack)
    case TConnect => Allowed(SConnect)
    case TDisconnect => Allowed(SDisconnect)
    case TPublish(_, _, _) => Allowed(SPublish)
    case TSubscribe => Allowed(SSubscribe)
    case TUnsubscribe => Allowed(SSubscribe)
    case TAck(_) => Allowed(SReason)
    case TSuback => Allowed(SReason)
    case TUnsuback => Allowed(SReason)
    case TPingreq => []
    case TPingresp => []
  }

  const WILL_IDS := Allowed(SWill)

  // ------------------------------------------------------------ subscription entries

  datatype SubOptions =
    SubOptions(qos: QoS, noLocal: bool, retainAsPublished: bool, retainHandling: nat)

  /** One entry of a SUBSCRIBE payload, or of an UNSUBSCRIBE payload without options. */
  datatype Entry = Entry(filter: bytes, options: Option<SubOptions>)

  function ParseOptions(s: bytes): Parse<SubOptions> {
    var (b, r) :- ParseU8(s);
    if b / 64 != 0 || b / 16 % 4 > 2 || QosOf(b % 4).None? then Fail
    else Ok(SubOptions(QosOf(b % 4).value, b / 4 % 2 == 1, b / 8 % 2 == 1, b / 16 % 4), r)
  }

  function OptionsByte(o: SubOptions): byte
    requires o.retainHandling <= 2
  {
    QosCode(o.qos) + Bit(o.noLocal) * 4 + Bit(o.retainAsPublished) * 8 + o.retainHandling * 16
  }

  function ParseEntry(withOptions: bool, s: bytes): Parse<Entry> {
    var (filter, r) :- ParseText(s);
    if withOptions then
      var (o, r2) :- ParseOptions(r);
      Ok(Entry(filter, Some(o)), r2)
    else Ok(Entry(filter, None), r)
  }

  predicate EntryFits(e: Entry) {
    ValidUtf8(e.filter) && Short(e.filter) && (e.options.Some? ==> e.options.value.retainHandling <= 2)
  }

  function EncodeEntry(e: Entry): bytes
    requires EntryFits(e)
  {
    EncodeBinary(e.filter) + (if e.options.Some? then [OptionsByte(e.options.value)] else [])
  }

  /** Entries up to the end of the payload. */
  function ParseEntries(withOptions: bool, s: bytes): Option<seq<Entry>>
    decreases |s|
  {
    if s == [] then Some([])
    else
      match ParseEntry(withOptions, s)
      case Fail => None
      case Ok(e, r) =>
        match ParseEntries(withOptions, r)
        case None => None
        case Some(es) => Some([e] + es)
  }

  /** A payload that Subscriptions::parse accepts: at least one entry, nothing else. */
  predicate EntriesValid(withOptions: bool, s: bytes) {
    s != [] && ParseEntries(withOptions, s).Some?
  }

  // -------------------------------------------------------------------------- parsing

  function ParseAuth(s: bytes): Parse<Raw> {
    var (reason, r) :- ParseReason(RAuth, s);
    var (props, r2) :- ParseSection(SectionIds(TAuth), r);
    Ok(Auth(reason, props), r2)
  }

  function ParseConnack(s: bytes): Parse<Raw> {
    var (flags, r) :- ParseU8(s);
    if flags % 128 != 0 then Fail
    else
      var (reason, r2) :- ParseReason(RConnack, r);
      var (props, r3) :- ParseSection(SectionIds(TConnack), r2);
      Ok(Connack(flags / 128 == 1, reason, props), r3)
  }

  const PROTOCOL_NAME: bytes := [0x4D, 0x51, 0x54, 0x54]  // "MQTT"

  datatype ConnectFlags =
    ConnectFlags(username: bool, password: bool, retain: bool, qos: QoS, will: bool, clean: bool)

  function ParseFlags(b: byte): Option<ConnectFlags> {
    if QosOf(b / 8 % 4).None? || b % 2 != 0 then None
    else Some(ConnectFlags(b / 128 == 1, b / 64 % 2 == 1, b / 32 % 2 == 1, QosOf(b / 8 % 4).value,
                           b / 4 % 2 == 1, b / 2 % 2 == 1))
  }

  function FlagsByte(f: ConnectFlags): byte {
    Bit(f.username) * 128 + Bit(f.password) * 64 + Bit(f.retain) * 32 + QosCode(f.qos) * 8 +
    Bit(f.will) * 4 + Bit(f.clean) * 2
  }

  function ParseOptText(present: bool, s: bytes): Parse<Option<bytes>> {
    if present then
      var (b, r) :- ParseText(s);
      Ok(Some(b), r)
    else Ok(None, s)
  }

  function ParseOptBinary(present: bool, s: bytes): Parse<Option<bytes>> {
    if present then
      var (b, r) :- ParseBinary(s);
      Ok(Some(b), r)
    else Ok(None, s)
  }

  function ParseWill(present: bool, qos: QoS, retain: bool, s: bytes): Parse<Option<Will<bytes>>> {
    if present then
      var (props, r) :- ParseSection(WILL_IDS, s);
      var (topic, r2) :- ParseText(r);
      var (payload, r3) :- ParseBinary(r2);
      Ok(Some(Will(props, topic, payload, qos, retain)), r3)
    else Ok(None, s)
  }

  /** Protocol name, protocol level and flags. */
  function ParseConnectHead(s: bytes): Parse<ConnectFlags> {
    var (name, r) :- ParseText(s);
    if name != PROTOCOL_NAME then Fail
    else
      var (level, r2) :- ParseU8(r);
      if level != 5 then Fail
      else
        var (b, r3) :- ParseU8(r2);
        match ParseFlags(b) case None => Fail case Some(f) => Ok(f, r3)
  }

  function ParseConnectTail(f: ConnectFlags, s: bytes): Parse<Raw> {
    var (keepAlive, r) :- ParseU16(s);
    var (props, r2) :- ParseSection(SectionIds(TConnect), r);
    var (clientId, r3) :- ParseText(r2);
    var (will, r4) :- ParseWill(f.will, f.qos, f.retain, r3);
    var (username, r5) :- ParseOptText(f.username, r4);
    var (password, r6) :- ParseOptBinary(f.password, r5);
    Ok(Connect(clientId, username, password, f.clean, will, props, keepAlive), r6)
  }

  function ParseConnect(s: bytes): Parse<Raw> {
    var (f, r) :- ParseConnectHead(s);
    ParseConnectTail(f, r)
  }

  /** An omitted reason code stands for 0x00, an omitted section for the empty one. */
  function ParseReasonOrZero(k: ReasonOf, s: bytes): Parse<byte> {
    if s == [] then Ok(0, s) else ParseReason(k, s)
  }

  function ParseSectionOrEmpty(ids: seq<nat>, s: bytes): Parse<Lazy> {
    if s == [] then Ok(map[], s) else ParseSection(ids, s)
  }

  function ParseDisconnect(s: bytes): Parse<Raw> {
    var (reason, r) :- ParseReasonOrZero(RDisconnect, s);
    var (props, r2) :- ParseSectionOrEmpty(SectionIds(TDisconnect), r);
    Ok(Disconnect(reason, props), r2)
  }

  function ParseAck(k: AckKind, s: bytes): Parse<Raw> {
    var (id, r) :- ParseU16NonZero(s);
    var (reason, r2) :- ParseReasonOrZero(RAck(k), r);
    var (props, r3) :- ParseSectionOrEmpty(SectionIds(TAck(k)), r2);
    Ok(Ack(k, id, reason, props), r3)
  }

  /** Neither `#` nor `*` in the topic; both are single bytes in UTF-8. */
  predicate SaneTopic(topic: bytes) {
    0x23 !in topic && 0x2A !in topic
  }

  function ParsePublish(dup: bool, qos: QoS, retain: bool, s: bytes): Parse<Raw> {
    var (topic, r) :- ParseText(s);
    if !SaneTopic(topic) then Fail
    else if qos == AtMostOnce then
      var (props, r2) :- ParseSection(SectionIds(TPublish(dup, qos, retain)), r);
      Ok(Publish(dup, qos, retain, topic, None, props, r2), [])
    else
      var (id, r2) :- ParseU16NonZero(r);
      var (props, r3) :- ParseSection(SectionIds(TPublish(dup, qos, retain)), r2);
      Ok(Publish(dup, qos, retain, topic, Some(id), props, r3), [])
  }

  /** Identifier and properties, which begin SUBSCRIBE, SUBACK, UNSUBSCRIBE, UNSUBACK. */
  function ParseIdSection(ids: seq<nat>, s: bytes): Parse<(nat, Lazy)> {
    var (id, r) :- ParseU16NonZero(s);
    var (props, r2) :- ParseSection(ids, r);
    Ok((id, props), r2)
  }

  predicate ReasonsOk(k: ReasonOf, s: bytes) {
    forall i :: 0 <= i < |s| ==> ReasonOk(k, s[i])
  }

  /** The packet body behind the fixed header; the second component is what
      `length_and_then` leaves unread and drops. */
  function ParseBody(t: PacketType, s: bytes): Parse<Raw> {
    match t
    case TAuth => ParseAuth(s)
    case TConnack => ParseConnack(s)
    case TConnect => ParseConnect(s)
    case TDisconnect => ParseDisconnect(s)
    case TPingreq => if s == [] then Ok(Pingreq, s) else Fail
    case TPingresp => if s == [] then Ok(Pingresp, s) else Fail
    case TAck(k) => ParseAck(k, s)
    case TPublish(d, q, r) => ParsePublish(d, q, r, s)
    case TSuback => (
      var (h, r) :- ParseIdSection(SectionIds(t), s);
      if ReasonsOk(RSuback, r) then Ok(Suback(h.0, h.1, r), []) else Fail)
    case TUnsuback => (
      var (h, r) :- ParseIdSection(SectionIds(t), s);
      if ReasonsOk(RUnsuback, r) then Ok(Unsuback(h.0, h.1, r), []) else Fail)
    case TSubscribe => (
      var (h, r) :- ParseIdSection(SectionIds(t), s);
      if EntriesValid(true, r) then Ok(Subscribe(h.0, h.1, r), []) else Fail)
    case TUnsubscribe => (
      var (h, r) :- ParseIdSection(SectionIds(t), s);
      if EntriesValid(false, r) then Ok(Unsubscribe(h.0, h.1, r), []) else Fail)
  }

  /** MqttPacket::parse: header byte, remaining length, then the body in exactly that
      many bytes. */
  function ParsePacket(s: bytes): Parse<Raw> {
    var (b, r) :- ParseU8(s);
    match ParseHeader(b)
    case None => Fail
    case Some(t) =>
      var (n, r2) :- ParseVar(r);
      if n > |r2| then Fail
      else
        match ParseBody(t, r2[..n])
        case Fail => Fail
        case Ok(p, _) => Ok(p, r2[n..])
  }

  // ------------------------------------------------------------------ sizes, writing

  function OptSize(o: Option<bytes>): nat {
    match o case None => 0 case Some(b) => 2 + |b|
  }

  function EncodeOpt(o: Option<bytes>): bytes {
    match o case None => [] case Some(b) => EncodeBinary(b)
  }

  function WillSize(w: Option<Will<seq<Pair>>>): nat {
    match w
    case None => 0
    case Some(x) => SectionSize(WILL_IDS, x.props) + (2 + |x.topic|) + (2 + |x.payload|)
  }

  function EncodeWill(w: Option<Will<seq<Pair>>>): bytes {
    match w
    case None => []
    case Some(x) =>
      EncodeSection(WILL_IDS, x.props) + (EncodeBinary(x.topic) + EncodeBinary(x.payload))
  }

  /** is_short_packet: such a DISCONNECT is written with an empty body. */
  predicate ShortDisconnect(p: Viewed) {
    p.Disconnect? && p.reason == 0 && p.props == map[]
  }

  function PropsSize(p: Viewed): nat
    requires !p.Pingreq? && !p.Pingresp?
  {
    SectionSize(SectionIds(TypeOf(p)), p.props)
  }

  function EncodeProps(p: Viewed): bytes
    requires !p.Pingreq? && !p.Pingresp?
  {
    EncodeSection(SectionIds(TypeOf(p)), p.props)
  }

  function BodySize(p: Viewed): nat {
    match p
    case Auth(_, _) => 1 + PropsSize(p)
    case Connack(_, _, _) => 1 + 1 + PropsSize(p)
    case Connect(clientId, username, password, _, will, _, _) =>
      6 + 1 + 1 + 2 + PropsSize(p) + (2 + |clientId|) + WillSize(will) + OptSize(username) + OptSize(password)
    case Disconnect(_, _) => if ShortDisconnect(p) then 0 else 1 + PropsSize(p)
    case Pingreq => 0
    case Pingresp => 0
    case Ack(_, _, _, _) => 2 + 1 + PropsSize(p)
    case Publish(_, _, _, topic, pid, _, payload) =>
      (2 + |topic|) + (if pid.Some? then 2 else 0) + PropsSize(p) + |payload|
    case Suback(_, _, reasons) => 2 + |reasons| + PropsSize(p)
    case Unsuback(_, _, reasons) => 2 + |reasons| + PropsSize(p)
    case Subscribe(_, _, entries) => 2 + PropsSize(p) + |entries|
    case Unsubscribe(_, _, entries) => 2 + PropsSize(p) + |entries|
  }

  function FlagsOf<U>(p: Packet<U>): ConnectFlags
    requires p.Connect?
  {
    match p.will
    case None => ConnectFlags(p.username.Some?, p.password.Some?, false, AtMostOnce, false, p.cleanStart)
    case Some(w) => ConnectFlags(p.username.Some?, p.password.Some?, w.retain, w.qos, true, p.cleanStart)
  }

  function EncodeConnectHead(f: ConnectFlags): bytes {
    EncodeBinary(PROTOCOL_NAME) + [5, FlagsByte(f)]
  }

  function EncodeConnectTail(p: Viewed): bytes
    requires p.Connect?
  {
    EncodeU16(p.keepAlive) + (EncodeProps(p) + (EncodeBinary(p.clientId) +
                                                (EncodeWill(p.will) + (EncodeOpt(p.username) + EncodeOpt(p.password)))))
  }

  function EncodePid(pid: Option<nat>): bytes {
    match pid case None => [] case Some(n) => EncodeU16(n)
  }

  /** The entries a subscription payload iterates to. */
  function EntryList(withOptions: bool, s: bytes): seq<Entry> {
    match ParseEntries(withOptions, s) case None => [] case Some(es) => es
  }

  function EncodeEntries(es: seq<Entry>): bytes {
    if es == [] then []
    else (if EntryFits(es[0]) then EncodeEntry(es[0]) else []) + EncodeEntries(es[1..])
  }

  function EncodeBody(p: Viewed): bytes {
    match p
    case Auth(reason, _) => [reason] + EncodeProps(p)
    case Connack(present, reason, _) => [Bit(present) * 128, reason] + EncodeProps(p)
    case Connect(_, _, _, _, _, _, _) => EncodeConnectHead(FlagsOf(p)) + EncodeConnectTail(p)
    case Disconnect(reason, _) => if ShortDisconnect(p) then [] else [reason] + EncodeProps(p)
    case Pingreq => []
    case Pingresp => []
    case Ack(_, id, reason, _) => EncodeU16(id) + ([reason] + EncodeProps(p))
    case Publish(_, _, _, topic, pid, _, payload) =>
      EncodeBinary(topic) + (EncodePid(pid) + (EncodeProps(p) + payload))
    case Suback(id, _, reasons) => EncodeU16(id) + (EncodeProps(p) + reasons)
    case Unsuback(id, _, reasons) => EncodeU16(id) + (EncodeProps(p) + reasons)
    case Subscribe(id, _, entries) =>
      EncodeU16(id) + (EncodeProps(p) + EncodeEntries(EntryList(true, entries)))
    case Unsubscribe(id, _, entries) =>
      EncodeU16(id) + (EncodeProps(p) + EncodeEntries(EntryList(false, entries)))
  }

  /** MqttPacket::binary_size. */
  function PacketSize(p: Viewed): nat {
    1 + VarSize(BodySize(p)) + BodySize(p)
  }

  /** The bytes MqttPacket::write appends. */
  function EncodePacket(p: Viewed): bytes {
    [HeaderByte(TypeOf(p))] + (EncodeVar(BodySize(p)) + EncodeBody(p))
  }

  // ------------------------------------------------------------------ well-formedness

  predicate TextTyped(o: Option<bytes>) {
    o.Some? ==> ValidUtf8(o.value)
  }

  predicate OptShort(o: Option<bytes>) {
    o.Some? ==> Short(o.value)
  }

  /** What the Rust types, and the private constructor of subscription payloads,
      guarantee about a packet. */
  ghost predicate PacketTyped(p: Viewed) {
    && (!p.Pingreq? && !p.Pingresp? ==> SectionTyped(SectionIds(TypeOf(p)), p.props))
    && match p
       case Auth(r, _) => ReasonOk(RAuth, r)
       case Connack(_, r, _) => ReasonOk(RConnack, r)
       case Connect(c, u, _, _, w, _, k) =>
         ValidUtf8(c) && TextTyped(u) && k < 0x1_0000 &&
         (w.Some? ==> SectionTyped(WILL_IDS, w.value.props) && ValidUtf8(w.value.topic))
       case Disconnect(r, _) => ReasonOk(RDisconnect, r)
       case Ack(k, id, r, _) => 0 < id < 0x1_0000 && ReasonOk(RAck(k), r)
       case Publish(_, _, _, t, pid, _, _) => ValidUtf8(t) && (pid.Some? ==> 0 < pid.value < 0x1_0000)
       case Suback(id, _, rs) => 0 < id < 0x1_0000 && ReasonsOk(RSuback, rs)
       case Unsuback(id, _, rs) => 0 < id < 0x1_0000 && ReasonsOk(RUnsuback, rs)
       case Subscribe(id, _, es) => 0 < id < 0x1_0000 && EntriesValid(true, es)
       case Unsubscribe(id, _, es) => 0 < id < 0x1_0000 && EntriesValid(false, es)
       case _ => true
  }

  /** `binary_size` has a size for every property; on others the writers panic. */
  ghost predicate PropsSized(p: Viewed) {
    && (!p.Pingreq? && !p.Pingresp? ==> FieldsSized(p.props))
    && (p.Connect? && p.will.Some? ==> FieldsSized(p.will.value.props))
  }

  /** `binary_size` has a size for every section; on others writing the packet panics. */
  ghost predicate PacketSized(p: Viewed) {
    && (!p.Pingreq? && !p.Pingresp? ==> SectionSized(SectionIds(TypeOf(p)), p.props))
    && (p.Connect? && p.will.Some? ==> SectionSized(WILL_IDS, p.will.value.props))
  }

  ghost predicate WillWritable(w: Option<Will<seq<Pair>>>) {
    w.Some? ==> SectionWritable(WILL_IDS, w.value.props) && Short(w.value.topic) && Short(w.value.payload)
  }

  /** Writing the body reports no error: every text and binary fits its two-byte length,
      every section its length field, and a QoS 0 PUBLISH carries no identifier. */
  ghost predicate Writable(p: Viewed) {
    && (!p.Pingreq? && !p.Pingresp? ==> SectionWritable(SectionIds(TypeOf(p)), p.props))
    && match p
       case Connect(c, u, pw, _, w, _, _) =>
         Short(c) && OptShort(u) && OptShort(pw) && WillWritable(w)
       case Publish(_, q, _, t, pid, _, _) => Short(t) && (q == AtMostOnce ==> pid.None?)
       case _ => true
  }

  /** What `write` does not check and `parse` insists on: an identifier when the QoS is
      above 0, and a topic without `#` and `*`. */
  predicate Readable<U>(p: Packet<U>) {
    p.Publish? ==> 0x23 !in p.topic && 0x2A !in p.topic && (p.qos != AtMostOnce ==> p.pid.Some?)
  }

  ghost predicate WellFormed(p: Viewed) {
    PacketTyped(p) && BodySize(p) <= VARIABLE_INTEGER_MAX && Writable(p) && Readable(p)
  }
}
