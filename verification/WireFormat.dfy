/** The wire format, checked against the tables of MQTT 5.0: byte order, flag bits, the
    property table and the reason codes. The round trips show that parsers and writers
    agree; the laws here say on what. */
module WireFormat {
  import opened Wire
  import opened Properties
  import opened Sections
  import opened Packets
  import opened PacketLaws

  // ----------------------------------------------------------------------- byte order

  /** The number two bytes stand for, high byte first. */
  function Big(high: nat, low: nat): nat {
    256 * high + low
  }

  /** Two and four byte integers are big-endian (sections 1.5.2 and 1.5.3). */
  lemma BigEndian(s: bytes)
    ensures |s| >= 2 <==> ParseU16(s).Ok?
    ensures |s| >= 2 ==> ParseU16(s) == Ok(Big(s[0], s[1]), s[2..])
    ensures |s| >= 4 <==> ParseU32(s).Ok?
    ensures |s| >= 4 ==> ParseU32(s) == Ok(65_536 * Big(s[0], s[1]) + Big(s[2], s[3]), s[4..])
  {
    if |s| >= 4 {
      assert s[2..][0] == s[2] && s[2..][1] == s[3] && s[2..][2..] == s[4..];
    }
  }

  /** The groups of a variable byte integer stand least significant first (section
      1.5.5). */
  lemma LeastGroupFirst(u: nat, i: nat)
    requires u <= VARIABLE_INTEGER_MAX && i < |EncodeVar(u)|
    ensures EncodeVar(u)[i] % 128 == if i == 0 then u % 128 else if i == 1 then u / 128 % 128
                                     else if i == 2 then u / 16_384 % 128 else u / 2_097_152 % 128
  {
    GroupOf(u);
    GroupOf(u / 128);
    GroupOf(u / 16_384);
    LastGroup(u);
  }

  lemma GroupOf(n: nat)
    ensures (n % 128 + 128) % 128 == n % 128
  {
  }

  lemma LastGroup(u: nat)
    ensures u <= 127 ==> u % 128 == u
    ensures u <= 16_383 ==> u / 128 % 128 == u / 128
    ensures u <= 2_097_151 ==> u / 16_384 % 128 == u / 16_384
    ensures u <= VARIABLE_INTEGER_MAX ==> u / 2_097_152 % 128 == u / 2_097_152
  {
  }

  /** Text and binary data: a two byte length, then so many bytes (sections 1.5.4 and
      1.5.6); the length may ask for more than there is. */
  lemma LengthPrefixed(s: bytes)
    ensures ParseBinary(s).Ok? <==> |s| >= 2 && Big(s[0], s[1]) <= |s| - 2
    ensures ParseBinary(s).Ok? ==>
              var n := Big(s[0], s[1]);
              ParseBinary(s) == Ok(s[2..2 + n], s[2 + n..])
    ensures ParseText(s).Ok? <==> ParseBinary(s).Ok? && ValidUtf8(ParseBinary(s).value)
    ensures ParseText(s).Ok? ==> ParseText(s) == ParseBinary(s)
  {
    hide ValidUtf8;
    if |s| >= 2 && Big(s[0], s[1]) <= |s| - 2 {
      var n := Big(s[0], s[1]);
      assert s[2..][..n] == s[2..2 + n] && s[2..][n..] == s[2 + n..];
    }
  }

  // ----------------------------------------------------------------------- flag bytes

  /** Section 2.1.2: the number of a packet type. */
  function TypeNumber(t: PacketType): nat {
    match t
    case TConnect => 1
    case TConnack => 2
    case TPublish(_, _, _) => 3
    case TAck(Puback) => 4
    case TAck(Pubrec) => 5
    case TAck(Pubrel) => 6
    case TAck(Pubcomp) => 7
    case TSubscribe => 8
    case TSuback => 9
    case TUnsubscribe => 10
    case TUnsuback => 11
    case TPingreq => 12
    case TPingresp => 13
    case TDisconnect => 14
    case TAuth => 15
  }

  /** The header byte: type number in the high half; in the low half DUP, QoS and RETAIN
      for PUBLISH, 0010 for PUBREL, SUBSCRIBE and UNSUBSCRIBE, and zero otherwise (section
      2.1.3). */
  lemma HeaderLayout(b: byte, t: PacketType)
    ensures ParseHeader(b) == Some(t) <==>
            && b / 16 == TypeNumber(t)
            && match t
               case TPublish(dup, qos, retain) =>
                 && (b % 16 / 8 == 1 <==> dup) && (b % 16 % 2 == 1 <==> retain)
                 && b % 16 / 2 % 4 == (match qos case AtMostOnce => 0 case AtLeastOnce => 1 case ExactlyOnce => 2)
               case _ => b % 16 == if t.TSubscribe? || t.TUnsubscribe? || t == TAck(Pubrel) then 2 else 0
  {
    hide ParseHeader, TypeNumber;
    TypeNumberOf(t);
    if t.TPublish? {
      PublishFlags(b, t);
    } else {
      OtherFlags(b, t);
    }
  }

  lemma TypeNumberOf(t: PacketType)
    ensures t.TPublish? ==> TypeNumber(t) == 3
  {
  }

  lemma PublishFlags(b: byte, t: PacketType)
    requires t.TPublish?
    ensures ParseHeader(b) == Some(t) <==>
            && b / 16 == 3 && (b % 16 / 8 == 1 <==> t.dup) && (b % 16 % 2 == 1 <==> t.retain)
            && b % 16 / 2 % 4 == (match t.qos case AtMostOnce => 0 case AtLeastOnce => 1 case ExactlyOnce => 2)
  {
    assert t == TPublish(t.dup, t.qos, t.retain);
  }

  lemma OtherFlags(b: byte, t: PacketType)
    requires !t.TPublish?
    ensures ParseHeader(b) == Some(t) <==>
            && b / 16 == TypeNumber(t)
            && b % 16 == if t.TSubscribe? || t.TUnsubscribe? || t == TAck(Pubrel) then 2 else 0
  {
  }

  /** The CONNECT flags: username, password, will retain, will QoS, will, clean start and
      a reserved zero, from the highest bit down (section 3.1.2.3). */
  lemma ConnectFlagLayout(b: byte, f: ConnectFlags)
    ensures ParseFlags(b) == Some(f) <==>
            && (b / 128 == 1 <==> f.username) && (b / 64 % 2 == 1 <==> f.password) && (b / 32 % 2 == 1 <==> f.retain)
            && b / 8 % 4 == (match f.qos case AtMostOnce => 0 case AtLeastOnce => 1 case ExactlyOnce => 2)
            && (b / 4 % 2 == 1 <==> f.will) && (b / 2 % 2 == 1 <==> f.clean) && b % 2 == 0
  {
    assert f == ConnectFlags(f.username, f.password, f.retain, f.qos, f.will, f.clean);
  }

  /** A CONNECT is accepted only with the name MQTT and level 5, and its head is the one
      that is written for its flags (sections 3.1.2.1 and 3.1.2.2). */
  lemma ConnectHeadExact(s: bytes)
    requires ParseConnectHead(s).Ok?
    ensures s == EncodeConnectHead(ParseConnectHead(s).value) + ParseConnectHead(s).rest
    ensures |s| >= 8 && s[..7] == [0, 4, 0x4D, 0x51, 0x54, 0x54, 5]
  {
    hide ParseText, EncodeBinary, ParseFlags, FlagsByte, ValidUtf8;
    TextExact(s);
    var name := ParseText(s);
    LevelAndFlags(name.rest);
    var level, b := name.rest[0], name.rest[1];
    FlagsExact(b);
    var f := ParseConnectHead(s);
    Associate(EncodeBinary(PROTOCOL_NAME), [level, b], f.rest);
    NameBytes();
    assert s == [0, 4, 0x4D, 0x51, 0x54, 0x54] + ([level, b] + f.rest);
  }

  lemma NameBytes()
    ensures EncodeBinary(PROTOCOL_NAME) == [0, 4, 0x4D, 0x51, 0x54, 0x54]
  {
  }

  lemma LevelAndFlags(s: bytes)
    ensures |s| >= 2 <==> ParseU8(s).Ok? && ParseU8(ParseU8(s).rest).Ok?
    ensures |s| >= 2 ==> s == [s[0], s[1]] + s[2..] && ParseU8(s).rest[0] == s[1] && ParseU8(s).rest[1..] == s[2..]
  {
  }

  lemma FlagsExact(b: byte)
    requires ParseFlags(b).Some?
    ensures FlagsByte(ParseFlags(b).value) == b
  {
    hide FlagsByte;
    ConnectFlagLayout(b, ParseFlags(b).value);
    FlagSum(b, ParseFlags(b).value);
  }

  lemma FlagSum(b: byte, f: ConnectFlags)
    requires ParseFlags(b) == Some(f)
    ensures FlagsByte(f) == b
  {
    hide Bit, QosOf, QosCode;
    HighFlag(b);
    BitOf(b / 128);
    BitOf(b / 64 % 2);
    BitOf(b / 32 % 2);
    BitOf(b / 4 % 2);
    BitOf(b / 2 % 2);
    FlagDigits(b);
  }

  lemma HighFlag(b: byte)
    ensures b / 128 <= 1
  {
  }

  lemma SumOfFlags(b: nat, d0: nat, q2: nat, d1: nat, q4: nat, d2: nat, q8: nat, d3: nat, q32: nat, d5: nat, q64: nat,
                   d6: nat, q128: nat)
    requires b == d0 + 2 * q2 && q2 == d1 + 2 * q4 && q4 == d2 + 2 * q8 && q8 == d3 + 4 * q32
    requires q32 == d5 + 2 * q64 && q64 == d6 + 2 * q128
    ensures b == q128 * 128 + d6 * 64 + d5 * 32 + d3 * 8 + d2 * 4 + d1 * 2 + d0
  {
  }

  lemma HalfAgain(b: byte)
    ensures b / 2 == b / 2 % 2 + 2 * (b / 4) && b / 4 == b / 4 % 2 + 2 * (b / 8)
  {
    assert b / 2 / 2 == b / 4 && b / 4 / 2 == b / 8;
  }

  lemma QuarterOfEighth(b: byte)
    ensures b / 8 == b / 8 % 4 + 4 * (b / 32)
  {
    assert b / 8 / 4 == b / 32;
  }

  lemma HalvesAbove(b: byte)
    ensures b / 32 == b / 32 % 2 + 2 * (b / 64) && b / 64 == b / 64 % 2 + 2 * (b / 128)
  {
    assert b / 32 / 2 == b / 64 && b / 64 / 2 == b / 128;
  }

  lemma FlagDigits(b: byte)
    ensures b == b / 128 * 128 + b / 64 % 2 * 64 + b / 32 % 2 * 32 + b / 8 % 4 * 8
                 + b / 4 % 2 * 4 + b / 2 % 2 * 2 + b % 2
  {
    HalfAgain(b);
    QuarterOfEighth(b);
    HalvesAbove(b);
    SumOfFlags(b, b % 2, b / 2, b / 2 % 2, b / 4, b / 4 % 2, b / 8, b / 8 % 4, b / 32, b / 32 % 2, b / 64, b / 64 % 2,
               b / 128);
  }

  /** Subscription options: reserved zeros, retain handling, retain as published, no local
      and QoS, from the highest bit down (section 3.8.3.1). */
  lemma OptionLayout(b: byte, r: bytes, o: SubOptions)
    ensures ParseOptions([b] + r) == Ok(o, r) <==>
            && b < 64 && b / 16 == o.retainHandling && o.retainHandling <= 2
            && (b / 8 % 2 == 1 <==> o.retainAsPublished) && (b / 4 % 2 == 1 <==> o.noLocal)
            && b % 4 == (match o.qos case AtMostOnce => 0 case AtLeastOnce => 1 case ExactlyOnce => 2)
  {
    BehindFirst(b, r);
    assert b < 64 ==> b / 16 % 4 == b / 16;
    assert b / 64 == 0 <==> b < 64;
    assert o == SubOptions(o.qos, o.noLocal, o.retainAsPublished, o.retainHandling);
  }

  /** Session-present is the highest bit of its byte in the code; section 3.2.2.1 has it
      lowest. */
  lemma SessionPresentBit(b: byte, r: bytes)
    requires ParseConnack([b] + r).Ok?
    ensures b == if ParseConnack([b] + r).value.sessionPresent then 128 else 0
  {
    hide ParseSection, SectionIds, ReasonOk;
  }

  // ------------------------------------------------------------------- property table

  datatype WireType = OneByte | TwoBytes | FourBytes | VariableBytes | TextData | BinaryData | TextPair

  /** Where a property may stand. */
  datatype Column = InPacket(t: PacketType) | InWill

  predicate In(c: Column, types: set<PacketType>) {
    c.InPacket? && c.t in types
  }

  predicate InPublish(c: Column) {
    c.InPacket? && c.t.TPublish?
  }

  predicate InAcknowledgement(c: Column) {
    c.InPacket? && (c.t.TAck? || c.t.TSuback? || c.t.TUnsuback?)
  }

  /** The data types of Table 2-4 of MQTT 5.0, row by row. */
  function StandardType(id: nat): Option<WireType> {
    match id
    case 0x01 => Some(OneByte)
    case 0x02 => Some(FourBytes)
    case 0x03 => Some(TextData)
    case 0x08 => Some(TextData)
    case 0x09 => Some(BinaryData)
    case 0x0B => Some(VariableBytes)
    case 0x11 => Some(FourBytes)
    case 0x12 => Some(TextData)
    case 0x13 => Some(TwoBytes)
    case 0x15 => Some(TextData)
    case 0x16 => Some(BinaryData)
    case 0x17 => Some(OneByte)
    case 0x18 => Some(FourBytes)
    case 0x19 => Some(OneByte)
    case 0x1A => Some(TextData)
    case 0x1C => Some(TextData)
    case 0x1F => Some(TextData)
    case 0x21 => Some(TwoBytes)
    case 0x22 => Some(TwoBytes)
    case 0x23 => Some(TwoBytes)
    case 0x24 => Some(OneByte)
    case 0x25 => Some(OneByte)
    case 0x26 => Some(TextPair)
    case 0x27 => Some(FourBytes)
    case 0x28 => Some(OneByte)
    case 0x29 => Some(OneByte)
    case 0x2A => Some(OneByte)
    case _ => None
  }

  /** Where Table 2-4 lets a property stand, row by row. */
  predicate StandardCarries(id: nat, c: Column) {
    match id
    case 0x01 => InPublish(c) || c.InWill?
    case 0x02 => InPublish(c) || c.InWill?
    case 0x03 => InPublish(c) || c.InWill?
    case 0x08 => InPublish(c) || c.InWill?
    case 0x09 => InPublish(c) || c.InWill?
    case 0x0B => InPublish(c) || In(c, {TSubscribe})
    case 0x11 => In(c, {TConnect, TConnack, TDisconnect})
    case 0x12 => In(c, {TConnack})
    case 0x13 => In(c, {TConnack})
    case 0x15 => In(c, {TConnect, TConnack, TAuth})
    case 0x16 => In(c, {TConnect, TConnack, TAuth})
    case 0x17 => In(c, {TConnect})
    case 0x18 => c.InWill?
    case 0x19 => In(c, {TConnect})
    case 0x1A => In(c, {TConnack})
    case 0x1C => In(c, {TConnack, TDisconnect})
    case 0x1F => In(c, {TConnack, TDisconnect, TAuth}) || InAcknowledgement(c)
    case 0x21 => In(c, {TConnect, TConnack})
    case 0x22 => In(c, {TConnect, TConnack})
    case 0x23 => InPublish(c)
    case 0x24 => In(c, {TConnack})
    case 0x25 => In(c, {TConnack})
    case 0x26 => c.InWill? || !In(c, {TPingreq, TPingresp})
    case 0x27 => In(c, {TConnect, TConnack})
    case 0x28 => In(c, {TConnack})
    case 0x29 => In(c, {TConnack})
    case 0x2A => In(c, {TConnack})
    case _ => false
  }

  function WireOf(k: Kind): WireType {
    match k
    case U8 => OneByte
    case Flag => OneByte
    case U16 => TwoBytes
    case U16NonZero => TwoBytes
    case U32 => FourBytes
    case Var => VariableBytes
    case Text => TextData
    case Binary => BinaryData
    case UserPair => TextPair
  }

  /** The code knows the properties of the standard, with their data types. Beyond these,
      a value is restricted to 0 and 1 for Maximum QoS and Retain Available, and to
      non-zero for Receive Maximum and Topic Alias. */
  lemma TypesAgainstStandard(id: nat)
    ensures KindOf(id).Some? <==> StandardType(id).Some?
    ensures KindOf(id).Some? ==> WireOf(KindOf(id).value) == StandardType(id).value
    ensures KindOf(id) == Some(Flag) <==> id in {0x24, 0x25}
    ensures KindOf(id) == Some(U16NonZero) <==> id in {0x21, 0x23}
  {
  }

  function Listed(c: Column): seq<nat> {
    match c case InPacket(t) => SectionIds(t) case InWill => WILL_IDS
  }

  // Table 2-4, column by column.
  lemma CarriedInPublish(id: nat, t: PacketType)
    requires t.TPublish?
    ensures id in SectionIds(t) <==> StandardCarries(id, InPacket(t))
  {
  }

  lemma CarriedInWill(id: nat)
    ensures id in WILL_IDS <==> StandardCarries(id, InWill)
  {
  }

  lemma CarriedInConnect(id: nat)
    ensures id in SectionIds(TConnect) <==> StandardCarries(id, InPacket(TConnect))
  {
  }

  lemma CarriedInClosing(id: nat, t: PacketType)
    requires t.TDisconnect? || t.TAuth? || t.TPingreq? || t.TPingresp?
    ensures id in SectionIds(t) <==> StandardCarries(id, InPacket(t))
  {
  }

  lemma CarriedInAnswers(id: nat, t: PacketType)
    requires t.TAck? || t.TSuback? || t.TUnsuback?
    ensures id in SectionIds(t) <==> StandardCarries(id, InPacket(t))
  {
  }

  lemma CarriedInRequests(id: nat, t: PacketType)
    requires t.TSubscribe? || t.TUnsubscribe?
    ensures id in SectionIds(t) <==> StandardCarries(id, InPacket(t)) || (id == 0x0B && t.TUnsubscribe?)
  {
  }

  const CONNACK_FRONT: seq<nat> := [0x11, 0x21, 0x24, 0x25, 0x27, 0x12, 0x22, 0x1F]
  const CONNACK_BACK: seq<nat> := [0x26, 0x28, 0x29, 0x2A, 0x13, 0x1A, 0x1C, 0x15, 0x16]

  lemma MemberOfConcat(id: nat, a: seq<nat>, b: seq<nat>)
    ensures id in a + b <==> id in a || id in b
  {
  }

  lemma ConnackFront(id: nat)
    ensures id in CONNACK_FRONT <==> id in {0x11, 0x12, 0x1F, 0x21, 0x22, 0x24, 0x25, 0x27}
  {
  }

  lemma ConnackBack(id: nat)
    ensures id in CONNACK_BACK <==> id in {0x13, 0x15, 0x16, 0x1A, 0x1C, 0x26, 0x28, 0x29, 0x2A}
  {
  }

  lemma ConnackParts()
    ensures SectionIds(TConnack) == CONNACK_FRONT + CONNACK_BACK
  {
  }

  lemma ConnackRows(id: nat)
    ensures StandardCarries(id, InPacket(TConnack)) <==>
            || id in {0x11, 0x12, 0x1F, 0x21, 0x22, 0x24, 0x25, 0x27}
            || id in {0x13, 0x15, 0x16, 0x1A, 0x1C, 0x26, 0x28, 0x29, 0x2A}
  {
  }

  lemma CarriedInConnack(id: nat)
    ensures id in SectionIds(TConnack) <==> StandardCarries(id, InPacket(TConnack))
  {
    hide SectionIds, StandardCarries;
    ConnackParts();
    MemberOfConcat(id, CONNACK_FRONT, CONNACK_BACK);
    ConnackFront(id);
    ConnackBack(id);
    ConnackRows(id);
  }

  /** A property is accepted in a packet, or in a will, exactly where Table 2-4 lists it;
      UNSUBSCRIBE also takes a Subscription Identifier. */
  lemma CarriedAgainstStandard(id: nat, c: Column)
    ensures id in Listed(c) <==> StandardCarries(id, c) || (id == 0x0B && c == InPacket(TUnsubscribe))
  {
    hide SectionIds, StandardCarries;
    match c
    case InWill => CarriedInWill(id);
    case InPacket(t) =>
      match t
      case TPublish(_, _, _) => CarriedInPublish(id, t);
      case TConnect => CarriedInConnect(id);
      case TConnack => CarriedInConnack(id);
      case TSubscribe => CarriedInRequests(id, t);
      case TUnsubscribe => CarriedInRequests(id, t);
      case TAck(_) => CarriedInAnswers(id, t);
      case TSuback => CarriedInAnswers(id, t);
      case TUnsuback => CarriedInAnswers(id, t);
      case _ => CarriedInClosing(id, t);
  }

  // --------------------------------------------------------------------- reason codes

  /** PUBACK and PUBREC. */
  predicate OfPublish(k: ReasonOf) {
    k == RAck(Puback) || k == RAck(Pubrec)
  }

  /** Table 2-6 of MQTT 5.0, row by row. */
  predicate StandardAdmits(b: byte, k: ReasonOf) {
    match b
    case 0x00 => true
    case 0x01 => k.RSuback?
    case 0x02 => k.RSuback?
    case 0x04 => k.RDisconnect?
    case 0x10 => OfPublish(k)
    case 0x11 => k.RUnsuback?
    case 0x18 => k.RAuth?
    case 0x19 => k.RAuth?
    case 0x80 => OfPublish(k) || k.RConnack? || k.RSuback? || k.RUnsuback? || k.RDisconnect?
    case 0x81 => k.RConnack? || k.RDisconnect?
    case 0x82 => k.RConnack? || k.RDisconnect?
    case 0x83 => OfPublish(k) || k.RConnack? || k.RSuback? || k.RUnsuback? || k.RDisconnect?
    case 0x84 => k.RConnack?
    case 0x85 => k.RConnack?
    case 0x86 => k.RConnack?
    case 0x87 => OfPublish(k) || k.RConnack? || k.RSuback? || k.RUnsuback? || k.RDisconnect?
    case 0x88 => k.RConnack?
    case 0x89 => k.RConnack? || k.RDisconnect?
    case 0x8A => k.RConnack?
    case 0x8B => k.RDisconnect?
    case 0x8C => k.RConnack? || k.RDisconnect?
    case 0x8D => k.RDisconnect?
    case 0x8E => k.RDisconnect?
    case 0x8F => k.RSuback? || k.RUnsuback? || k.RDisconnect?
    case 0x90 => OfPublish(k) || k.RConnack? || k.RDisconnect?
    case 0x91 => OfPublish(k) || k.RSuback? || k.RUnsuback?
    case 0x92 => k == RAck(Pubrel) || k == RAck(Pubcomp)
    case 0x93 => k.RDisconnect?
    case 0x94 => k.RDisconnect?
    case 0x95 => k.RConnack? || k.RDisconnect?
    case 0x96 => k.RDisconnect?
    case 0x97 => OfPublish(k) || k.RConnack? || k.RSuback? || k.RDisconnect?
    case 0x98 => k.RDisconnect?
    case 0x99 => OfPublish(k) || k.RConnack? || k.RDisconnect?
    case 0x9A => k.RConnack? || k.RDisconnect?
    case 0x9B => k.RConnack? || k.RDisconnect?
    case 0x9C => k.RConnack? || k.RDisconnect?
    case 0x9D => k.RConnack? || k.RDisconnect?
    case 0x9E => k.RSuback? || k.RDisconnect?
    case 0x9F => k.RConnack? || k.RDisconnect?
    case 0xA0 => k.RDisconnect?
    case 0xA1 => k.RSuback? || k.RDisconnect?
    case 0xA2 => k.RSuback? || k.RDisconnect?
    case _ => false
  }

  // Table 2-6, packet by packet.
  lemma ReasonsOfAuth(b: byte)
    ensures ReasonOk(RAuth, b) <==> StandardAdmits(b, RAuth)
  {
  }

  lemma ReasonsOfConnack(b: byte)
    ensures ReasonOk(RConnack, b) <==> StandardAdmits(b, RConnack) && b != 0x84
  {
  }

  lemma ReasonsOfPublish(b: byte)
    ensures ReasonOk(RAck(Puback), b) <==> StandardAdmits(b, RAck(Puback))
    ensures ReasonOk(RAck(Pubrec), b) <==> StandardAdmits(b, RAck(Pubrec)) || b == 0x92
  {
  }

  lemma ReasonsOfRelease(b: byte)
    ensures ReasonOk(RAck(Pubrel), b) <==> StandardAdmits(b, RAck(Pubrel))
    ensures ReasonOk(RAck(Pubcomp), b) <==> StandardAdmits(b, RAck(Pubcomp))
  {
  }

  lemma ReasonsOfSuback(b: byte)
    ensures ReasonOk(RSuback, b) <==> StandardAdmits(b, RSuback)
  {
  }

  lemma ReasonsOfUnsuback(b: byte)
    ensures ReasonOk(RUnsuback, b) <==> StandardAdmits(b, RUnsuback)
  {
  }

  lemma ReasonsOfDisconnect(b: byte)
    ensures ReasonOk(RDisconnect, b) <==> StandardAdmits(b, RDisconnect) && b != 0x8C
  {
  }

  /** A reason code is accepted in a packet exactly where Table 2-6 lists it, but for
      three: CONNACK lacks Unsupported Protocol Version, DISCONNECT lacks Bad
      Authentication Method, and PUBREC also takes Packet Identifier Not Found. */
  lemma ReasonsAgainstStandard(k: ReasonOf, b: byte)
    ensures ReasonOk(k, b) <==>
            if k == RConnack && b == 0x84 then false
            else if k == RDisconnect && b == 0x8C then false
            else if k == RAck(Pubrec) && b == 0x92 then true
            else StandardAdmits(b, k)
  {
    hide ReasonOk, StandardAdmits;
    match k
    case RAuth => ReasonsOfAuth(b);
    case RConnack => ReasonsOfConnack(b);
    case RAck(Puback) => ReasonsOfPublish(b);
    case RAck(Pubrec) => ReasonsOfPublish(b);
    case RAck(_) => ReasonsOfRelease(b);
    case RSuback => ReasonsOfSuback(b);
    case RUnsuback => ReasonsOfUnsuback(b);
    case RDisconnect => ReasonsOfDisconnect(b);
  }
}
