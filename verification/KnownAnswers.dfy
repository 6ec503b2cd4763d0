/** Packets and their bytes, one of every kind, with different values in all fields. The
    round trips hold whatever the order of fields and the place of bits; these pairs show
    that both are those of sections 3.1 to 3.15 of MQTT 5.0. */
module KnownAnswers {
  import opened Wire
  import opened Properties
  import opened Sections
  import opened Packets
  import opened PacketLaws

  /** The packet is written as the header byte, the length of the body and the body, and
      these bytes are read as the packet. */
  ghost predicate Stands(p: Viewed, header: byte, body: bytes) {
    && WellFormed(p) && |body| <= 127 && EncodePacket(p) == Framing(header, body)
    && Delivers(ParsePacket(Framing(header, body)), p) && ParsePacket(Framing(header, body)).rest == []
  }

  function Framing(header: byte, body: bytes): bytes
    requires |body| <= 127
  {
    [header, |body|] + body
  }

  lemma FramingIs(header: byte, body: bytes)
    requires |body| <= 127
    ensures [header] + ([|body|] + body) == Framing(header, body)
    ensures Framing(header, body) + [] == Framing(header, body)
  {
  }

  lemma SmallEncoding(p: Viewed)
    requires PacketTyped(p) && PacketSized(p) && |EncodeBody(p)| <= 127
    ensures EncodePacket(p) == Framing(HeaderByte(TypeOf(p)), EncodeBody(p)) && BodySize(p) == |EncodeBody(p)|
  {
    hide PacketTyped, PacketSized, EncodeBody, BodySize, HeaderByte;
    BodyExact(p);
    FramingIs(HeaderByte(TypeOf(p)), EncodeBody(p));
  }

  /** It is enough to know the header byte and the body. */
  lemma StandsByBody(p: Viewed, header: byte, body: bytes)
    requires PacketTyped(p) && Writable(p) && Readable(p)
    requires HeaderByte(TypeOf(p)) == header && EncodeBody(p) == body && |body| <= 127
    ensures Stands(p, header, body)
  {
    hide PacketTyped, PacketSized, Writable, Readable, EncodeBody, HeaderByte, ParsePacket, Delivers, EncodePacket,
      BodySize, Framing;
    WritableSized(p);
    SmallEncoding(p);
    FramingIs(header, body);
    PacketRoundTrip(p, []);
  }

  lemma {:induction false} NoFieldsWritten(ids: seq<nat>)
    ensures EncodeFields(ids, map[]) == [] && FieldsSize(ids, map[]) == 0
  {
    if ids == [] {
    } else {
      NoFieldsWritten(ids[1..]);
    }
  }

  /** A section without properties is a zero byte. */
  lemma EmptySection(ids: seq<nat>)
    ensures SectionTyped(ids, map[]) && SectionWritable(ids, map[]) && EncodeSection(ids, map[]) == [0]
  {
    NoFieldsWritten(ids);
  }

  lemma OneLetter(b: byte)
    requires b < 128
    ensures ValidUtf8([b]) && EncodeBinary([b]) == [0, 1, b]
  {
    assert [b][1..] == [];
  }

  // -------------------------------------------------------------------------- CONNECT

  const CONNECT: Viewed :=
    Connect([0x63], Some([0x75]), Some([0x70]), true, Some(Will(map[], [0x74], [9], AtLeastOnce, true)), map[], 258)

  const CONNECT_HEAD: bytes := [0, 4, 0x4D, 0x51, 0x54, 0x54, 5, 0xEE]
  const CONNECT_WILL: bytes := [0, 0, 1, 0x74, 0, 1, 9]
  const CONNECT_TAIL: bytes := [1, 2, 0, 0, 1, 0x63] + (CONNECT_WILL + [0, 1, 0x75, 0, 1, 0x70])

  lemma ConnectHeadBytes()
    ensures EncodeConnectHead(FlagsOf(CONNECT)) == CONNECT_HEAD
  {
  }

  lemma ConnectWillBytes()
    ensures EncodeWill(CONNECT.will) == CONNECT_WILL
  {
    hide EncodeSection, EncodeBinary;
    EmptySection(WILL_IDS);
    OneLetter(0x74);
    OneLetter(9);
  }

  lemma ConnectTailParts(keepAlive: bytes, props: bytes, id: bytes, will: bytes, user: bytes, password: bytes)
    requires keepAlive == [1, 2] && props == [0] && id == [0, 1, 0x63] && will == CONNECT_WILL
    requires user == [0, 1, 0x75] && password == [0, 1, 0x70]
    ensures keepAlive + (props + (id + (will + (user + password)))) == CONNECT_TAIL
  {
  }

  lemma ConnectTailBytes()
    ensures EncodeConnectTail(CONNECT) == CONNECT_TAIL
  {
    hide EncodeSection, EncodeWill, EncodeBinary, EncodeU16, SectionIds;
    EmptySection(SectionIds(TConnect));
    ConnectWillBytes();
    OneLetter(0x63);
    OneLetter(0x75);
    OneLetter(0x70);
    KeepAliveBytes();
    ConnectTailParts([1, 2], [0], [0, 1, 0x63], CONNECT_WILL, [0, 1, 0x75], [0, 1, 0x70]);
  }

  lemma KeepAliveBytes()
    ensures EncodeU16(258) == [1, 2]
  {
  }

  lemma ConnectIsTyped()
    ensures PacketTyped(CONNECT) && Writable(CONNECT) && Readable(CONNECT)
  {
    hide SectionTyped, SectionWritable, ValidUtf8, EncodeBinary, EncodeSection;
    EmptySection(SectionIds(TConnect));
    EmptySection(WILL_IDS);
    OneLetter(0x63);
    OneLetter(0x74);
    OneLetter(0x75);
  }

  /** Client identifier c, will topic t with payload 9 at QoS 1 and retained, username u,
      password p, clean start, keep-alive 258. */
  lemma ConnectAnswer()
    ensures Stands(CONNECT, 0x10, CONNECT_HEAD + CONNECT_TAIL)
  {
    hide Stands, PacketTyped, Writable, EncodeConnectHead, EncodeConnectTail, FlagsOf;
    ConnectIsTyped();
    ConnectHeadBytes();
    ConnectTailBytes();
    StandsByBody(CONNECT, 0x10, CONNECT_HEAD + CONNECT_TAIL);
  }

  // --------------------------------------------------------------- packets with reasons

  /** Session present, accepted. */
  lemma ConnackAnswer()
    ensures Stands(Connack(true, 0, map[]), 0x20, [0x80, 0, 0])
  {
    hide Stands, SectionTyped, SectionWritable, EncodeSection;
    var p: Viewed := Connack(true, 0, map[]);
    EmptySection(SectionIds(TConnack));
    StandsByBody(p, 0x20, [0x80, 0, 0]);
  }

  lemma AuthAnswer()
    ensures Stands(Auth(0x18, map[]), 0xF0, [0x18, 0])
  {
    hide Stands, SectionTyped, SectionWritable, EncodeSection;
    var p: Viewed := Auth(0x18, map[]);
    EmptySection(SectionIds(TAuth));
    StandsByBody(p, 0xF0, [0x18, 0]);
  }

  /** The long and the short form of DISCONNECT. */
  lemma DisconnectAnswers()
    ensures Stands(Disconnect(4, map[]), 0xE0, [4, 0])
    ensures Stands(Disconnect(0, map[]), 0xE0, [])
  {
    hide Stands, SectionTyped, SectionWritable, EncodeSection;
    EmptySection(SectionIds(TDisconnect));
    StandsByBody(Disconnect(4, map[]), 0xE0, [4, 0]);
    StandsByBody(Disconnect(0, map[]), 0xE0, []);
  }

  /** The PUBACK family, identifier 258, with the reason code of each kind. */
  lemma AckAnswers()
    ensures Stands(Ack(Puback, 258, 0x10, map[]), 0x40, [1, 2, 0x10, 0])
    ensures Stands(Ack(Pubrec, 258, 0x10, map[]), 0x50, [1, 2, 0x10, 0])
    ensures Stands(Ack(Pubrel, 258, 0x92, map[]), 0x62, [1, 2, 0x92, 0])
    ensures Stands(Ack(Pubcomp, 258, 0x92, map[]), 0x70, [1, 2, 0x92, 0])
  {
    hide Stands;
    AckAnswer(Puback, 0x10);
    AckAnswer(Pubrec, 0x10);
    AckAnswer(Pubrel, 0x92);
    AckAnswer(Pubcomp, 0x92);
  }

  lemma AckAnswer(kind: AckKind, reason: byte)
    requires ReasonOk(RAck(kind), reason)
    ensures Stands(Ack(kind, 258, reason, map[]), HeaderByte(TAck(kind)), [1, 2, reason, 0])
  {
    hide Stands, SectionTyped, SectionWritable, EncodeSection, ReasonOk;
    EmptySection(SectionIds(TAck(kind)));
    StandsByBody(Ack(kind, 258, reason, map[]), HeaderByte(TAck(kind)), [1, 2, reason, 0]);
  }

  // ---------------------------------------------------------------------------- PUBLISH

  /** Duplicate, QoS 1, topic t, identifier 258, payload 7. */
  lemma PublishAnswer()
    ensures Stands(Publish(true, AtLeastOnce, false, [0x74], Some(258), map[], [7]), 0x3A, [0, 1, 0x74, 1, 2, 0, 7])
  {
    hide Stands, SectionTyped, SectionWritable, EncodeSection, ValidUtf8;
    var p: Viewed := Publish(true, AtLeastOnce, false, [0x74], Some(258), map[], [7]);
    EmptySection(SectionIds(TypeOf(p)));
    OneLetter(0x74);
    StandsByBody(p, 0x3A, [0, 1, 0x74, 1, 2, 0, 7]);
  }

  /** QoS 0, retained. */
  lemma PlainPublishAnswer()
    ensures Stands(Publish(false, AtMostOnce, true, [0x74], None, map[], [7]), 0x31, [0, 1, 0x74, 0, 7])
  {
    hide Stands, SectionTyped, SectionWritable, EncodeSection, ValidUtf8;
    var p: Viewed := Publish(false, AtMostOnce, true, [0x74], None, map[], [7]);
    EmptySection(SectionIds(TypeOf(p)));
    OneLetter(0x74);
    StandsByBody(p, 0x31, [0, 1, 0x74, 0, 7]);
  }

  // -------------------------------------------------------------------------- lists

  /** Reason lists, identifier 258. */
  lemma SubackAnswer()
    ensures Stands(Suback(258, map[], [1, 0x80]), 0x90, [1, 2, 0, 1, 0x80])
  {
    hide Stands, SectionTyped, SectionWritable, EncodeSection;
    EmptySection(SectionIds(TSuback));
    StandsByBody(Suback(258, map[], [1, 0x80]), 0x90, [1, 2, 0, 1, 0x80]);
  }

  lemma UnsubackAnswer()
    ensures Stands(Unsuback(258, map[], [0x11]), 0xB0, [1, 2, 0, 0x11])
  {
    hide Stands, SectionTyped, SectionWritable, EncodeSection;
    EmptySection(SectionIds(TUnsuback));
    StandsByBody(Unsuback(258, map[], [0x11]), 0xB0, [1, 2, 0, 0x11]);
  }

  /** The filter a; for SUBSCRIBE with QoS 2, no local and retain handling 1. */
  lemma OneEntry(options: Option<SubOptions>)
    requires options == None || options == Some(SubOptions(ExactlyOnce, true, false, 1))
    ensures var s := [0, 1, 0x61] + (if options.Some? then [0x16] else []);
            && ParseEntries(options.Some?, s) == Some([Entry([0x61], options)])
            && EntriesValid(options.Some?, s)
  {
    var e := Entry([0x61], options);
    OneLetter(0x61);
    assert [e][1..] == [];
    Unchanged(EncodeEntry(e));
    EntriesRoundTrip(options.Some?, [e]);
  }

  lemma SubscribeAnswer()
    ensures Stands(Subscribe(258, map[], [0, 1, 0x61, 0x16]), 0x82, [1, 2, 0, 0, 1, 0x61, 0x16])
    ensures EntryList(true, [0, 1, 0x61, 0x16]) == [Entry([0x61], Some(SubOptions(ExactlyOnce, true, false, 1)))]
  {
    hide Stands, SectionTyped, SectionWritable, EncodeSection, ParseEntries, EncodeEntries;
    EmptySection(SectionIds(TSubscribe));
    OneEntry(Some(SubOptions(ExactlyOnce, true, false, 1)));
    assert [0, 1, 0x61] + [0x16] == [0, 1, 0x61, 0x16];
    var p: Viewed := Subscribe(258, map[], [0, 1, 0x61, 0x16]);
    EntryListExact(p);
    StandsByBody(p, 0x82, [1, 2, 0, 0, 1, 0x61, 0x16]);
  }

  lemma UnsubscribeAnswer()
    ensures Stands(Unsubscribe(258, map[], [0, 1, 0x61]), 0xA2, [1, 2, 0, 0, 1, 0x61])
    ensures EntryList(false, [0, 1, 0x61]) == [Entry([0x61], None)]
  {
    hide Stands, SectionTyped, SectionWritable, EncodeSection, ParseEntries, EncodeEntries;
    EmptySection(SectionIds(TUnsubscribe));
    OneEntry(None);
    assert [0, 1, 0x61] + [] == [0, 1, 0x61];
    var p: Viewed := Unsubscribe(258, map[], [0, 1, 0x61]);
    EntryListExact(p);
    StandsByBody(p, 0xA2, [1, 2, 0, 0, 1, 0x61]);
  }

  lemma PingAnswers()
    ensures Stands(Pingreq, 0xC0, []) && Stands(Pingresp, 0xD0, [])
  {
    hide Stands;
    StandsByBody(Pingreq, 0xC0, []);
    StandsByBody(Pingresp, 0xD0, []);
  }

  // ----------------------------------------------------------------------- properties

  /** A user property: identifier, key a, value b. */
  lemma UserPropertyAnswer(r: bytes)
    ensures var it := Item(0x26, Users(Pair([0x61], [0x62])));
            && ItemFits(it) && EncodeItem(it) == [0x26, 0, 1, 0x61, 0, 1, 0x62]
            && ParseItem([0x26, 0, 1, 0x61, 0, 1, 0x62] + r) == Ok(it, r)
  {
    hide ParseItem, ValidUtf8;
    OneLetter(0x61);
    OneLetter(0x62);
    ItemRoundTrip(Item(0x26, Users(Pair([0x61], [0x62]))), r);
  }

  /** A number of two bytes: Server Keep Alive 258. */
  lemma NumberPropertyAnswer(r: bytes)
    ensures var it := Item(0x13, Num(258));
            && ItemFits(it) && EncodeItem(it) == [0x13, 1, 2] && ParseItem([0x13, 1, 2] + r) == Ok(it, r)
  {
    hide ParseItem;
    ItemRoundTrip(Item(0x13, Num(258)), r);
  }

  // -------------------------------------------------------------------- other bytes

  lemma SmallFrame(header: byte, t: PacketType, body: bytes)
    requires HeaderByte(t) == header && |body| <= 127
    ensures ParsePacket(Framing(header, body)) == match ParseBody(t, body) case Fail => Fail case Ok(p, _) => Ok(p, [])
  {
    hide ParseBody, HeaderByte, ParsePacket, Framing;
    Framed(t, body, []);
    FramingIs(header, body);
  }

  /** Omitted tails of a PUBACK (section 3.4.2.1): reason 0 and no properties. */
  lemma ShortPuback(reason: byte)
    requires ReasonOk(RAck(Puback), reason)
    ensures ParsePacket(Framing(0x40, [1, 2])) == Ok(Ack(Puback, 258, 0, map[]), [])
    ensures ParsePacket(Framing(0x40, [1, 2, reason])) == Ok(Ack(Puback, 258, reason, map[]), [])
  {
    hide ParsePacket, ParseSection, ReasonOk, SectionIds, Framing;
    SmallFrame(0x40, TAck(Puback), [1, 2]);
    SmallFrame(0x40, TAck(Puback), [1, 2, reason]);
    assert [1, 2, reason][2..] == [reason] && [reason][1..] == [];
  }

  /** A DISCONNECT without properties (section 3.14.2.1). */
  lemma ShortDisconnects(reason: byte)
    requires ReasonOk(RDisconnect, reason)
    ensures ParsePacket(Framing(0xE0, [reason])) == Ok(Disconnect(reason, map[]), [])
  {
    hide ParsePacket, ParseSection, ReasonOk, SectionIds, Framing;
    SmallFrame(0xE0, TDisconnect, [reason]);
  }

  /** A ping has no body. */
  lemma PingBody(s: bytes)
    ensures ParseBody(TPingreq, s).Ok? <==> s == []
    ensures ParseBody(TPingresp, s).Ok? <==> s == []
  {
  }
}
