# cloudmqtt: a verified model of the MQTT 5.0 codec, framing and client

This project models four connected parts of cloudmqtt and proves properties of them
that hold for every input, every byte stream and every run.

1. **The packet codec and stream framing.** Each packet has three independent forms in
   the source: how it is parsed, how its size is computed and how it is written. They are
   modelled once over a property table (identifier, value codec), an ordered list of
   allowed properties per packet, and one body codec for each family of packets. `Wire`,
   `Properties`, `Sections`, `SectionLaws`, `Packets` and `PacketLaws` show that the three
   forms agree through all nested lengths; `Codec` puts the incremental decoder on top.
   `Writer` holds the writers as methods that append to a buffer.
2. **The lazy view of user properties.** A section stores only the bytes from its first
   user property on, and iterating finds the later ones again. `Sections` and
   `UserProperties` show that this is always the eager list.
3. **The client state machine and its identifier store.** `IdentifierStore` refines a map
   by two machine words. `ClientSpec` gives every call of the client as a step on values;
   `ClientLaws` proves what all runs keep, under conditions that are read off the trace;
   `ClientMachine` holds the classes that update their fields in place, each method proved
   equal to its step. Every `panic!`, `todo!`, `assert!` and `unwrap` of the source is a
   condition that enables a step; `ParsedPublishConsumable`, `UserPropertyIterator.Next`,
   `SubscriptionsIter.Next` and `NewPacket` show where earlier parts discharge them.
   `ClientPackets` joins the client to the codec: whatever a run sends can be encoded and
   arrives, packet by packet.
   `ClientTrace` shows that the trace decides everything a caller sees: which calls are
   allowed and what each of them gives.
4. **Topic filters and names.** `Topics` builds them level by level and compares the
   code's matching with section 4.7 of MQTT 5.0; `TopicTexts` says the same of the texts of
   filters and names alone.

Round trips hold of any format on which parser and writer agree. `WireFormat` therefore
checks bits, byte order, the property table and the reason codes against the tables of the
standard, `KnownAnswers` gives one packet of every kind with its literal bytes, and `Utf8`
ties accepted text to characters.

A packet is a `Packet<U>`. After parsing, `U` is the stored tail of user properties; in
its view it is the list they iterate to. Equality of packets in the source is equality of
these views. `WellFormed` collects what the round trips need: what the Rust types
guarantee (`PacketTyped`), a body of at most 268435455 bytes, what the body writers check
(`Writable`), and what only the parser checks (`Readable`). `PacketSized` says where
`binary_size` does not panic; the writers require no more than that.

## Where the code differs from the standard or from its documentation

The model follows the code.

- CONNACK keeps session-present in bit 7; section 3.2.2.1 puts it in bit 0. The two sides
  of the code agree with each other.
- Non-minimal variable byte integers are parsed, which section 1.5.5 forbids, but a frame
  whose remaining length is not minimal never gets through the decoder:
  `Codec.DecodeNeedsMinimalLength` gives the exact condition.
- The topic of a PUBLISH may contain `+` and may not contain `*`; the writer checks
  neither. `PacketLaws.WritableRoundTrip` says exactly which written packets come back.
- Bytes of a body behind the last field of a packet are dropped by the parser for AUTH,
  CONNACK, CONNECT, DISCONNECT and the PUBACK family.
- A section may repeat no property but the user property; section 3.3.2.3.8 lets a PUBLISH
  carry several Subscription Identifiers.
- UNSUBSCRIBE accepts a Subscription Identifier (0x0B), which section 3.10.2.1 does not
  list.
- CONNACK lacks the reason code 0x84 and DISCONNECT lacks 0x8C, which Table 2-6 lists for
  them, and PUBREC also takes 0x92; `WireFormat.ReasonsAgainstStandard` shows that there is
  no other difference.
- A SUBACK is accepted for an identifier that a publish holds;
  `ClientLaws.IdentifierConservation` gives the exact consequence, `StraySubackRun` an
  instance.
- Topics may have 65534 bytes, one fewer than section 4.7.3 allows.
- `matches` never compares level counts; `Topics.AgreesWithStandardIff` says exactly when
  this shows.

## Model

| member | source | states |
|---|---|---|
| `Codec.StreamFraming` | crates/cloudmqtt/src/codec.rs:91-146 | For every list of well-formed packets followed by a strict prefix of one more, and every cut of the bytes into chunks, exactly these packets are delivered in order, no error occurs, and the buffer holds exactly that prefix |
| `Codec.ChunkingIrrelevant` | crates/cloudmqtt/src/codec.rs:91-146 | For any bytes at all, valid or not, the packets, the error and the unread bytes do not depend on how the stream is cut |
| `Codec.DrainThenFeed` | crates/cloudmqtt/src/codec.rs:91-146 | Draining a+b is draining a and then feeding b to what is left, also when a already ended in an error |
| `Codec.DrainEncoded` | crates/cloudmqtt/src/codec.rs:91-146 | Draining concatenated encodings in front of an incomplete tail delivers the packets one by one and leaves the tail |
| `Codec.DecodeMonotone` | crates/cloudmqtt/src/codec.rs:91-146 | A verdict (packet, protocol error, parsing error) is never changed by bytes that arrive later; only the unread rest grows |
| `Codec.DecodeEncoded` | crates/cloudmqtt/src/codec.rs:91-146 | The encoding of a well-formed packet in front of any bytes decodes to that packet and leaves those bytes |
| `Codec.DecodePrefix` | crates/cloudmqtt/src/codec.rs:99-136 | On every strict prefix of the encoding of a well-formed packet the decoder asks for more and never fails |
| `Codec.DecodeNeedsMinimalLength` | crates/cloudmqtt/src/codec.rs:126-138 | A packet that the parser accepts is delivered by the decoder when its remaining length is encoded minimally, and gives a parsing error whenever it is not |
| `Codec.OverlongPingreq` | crates/cloudmqtt/src/codec.rs:126-142 | Three literal bytes that the parser accepts as a PINGREQ and the decoder refuses |
| `Codec.OverlongFrameFails` | crates/cloudmqtt/src/codec.rs:126-142 | With an overlong remaining length the frame is cut too short, fails to parse, and exactly the computed bytes are consumed |
| `Codec.ProtocolErrorExactly` | crates/cloudmqtt/src/codec.rs:106-123 | A protocol error is reported if and only if the four bytes behind the first all continue, whatever else the buffer holds |
| `Codec.NeedMoreExactly` | crates/cloudmqtt/src/codec.rs:99-136 | More input is asked for if and only if the length field can still be completed or fewer bytes have arrived than it announces |
| `Codec.CompleteFrame` | crates/cloudmqtt/src/codec.rs:126-145 | Once the announced bytes have arrived, exactly they are cut off and the packet parser alone decides |
| `Codec.MinimalFrame` | crates/cloudmqtt/src/codec.rs:126-145 | A frame with a minimal length field is cut exactly at the end of its body |
| `Codec.DecodeFrame` | crates/cloudmqtt/src/codec.rs:91-146 | In place: Pending and a bad length field leave the buffer untouched; a frame, parsed or not, is removed from its front |
| `Codec.DrainBuffer` | crates/cloudmqtt/src/codec.rs:91-146 | Calling decode until it has no packet delivers what the stream semantics says and ends; the buffer then holds the incomplete rest, or after an error what follows the refused frame, or a bad length field with all behind it |
| `Codec.NewPacket` | crates/cloudmqtt/src/codec.rs:50-62 | Writing into a fresh buffer and parsing it back: neither unwrap fails on a well-formed packet, and the owned copy equals the original |
| `PacketLaws.PacketRoundTrip` | crates/mqtt-format/src/v5/packets/mod.rs:71-263 | For every well-formed packet of all fifteen kinds and every suffix, parsing what is written gives the packet back (user properties as iterated lists) and leaves the suffix |
| `PacketLaws.Normalisation` | crates/mqtt-format/src/v5/packets/mod.rs:71-263 | Write after parse is idempotent: whatever bytes are accepted, the packet survives writing and parsing again unchanged and is then written to the same bytes |
| `PacketLaws.PacketNormal` | crates/mqtt-format/src/v5/packets/mod.rs:71-104 | Whatever bytes are accepted, the packet is well-formed, its user-property iterators cannot fail, and rewriting takes no more bytes than were read, or six where fewer were read |
| `PacketLaws.WritableRoundTrip` | crates/mqtt-format/src/v5/packets/mod.rs:134-263 | Among typed packets that write accepts, exactly those come back whose topic has no # or * and whose identifier is present above QoS 0 |
| `PacketLaws.WildcardTopicIsLost` | crates/mqtt-format/src/v5/packets/publish.rs:116-136 | A concrete PUBLISH that is written without an error and refused when parsed |
| `PacketLaws.SampleIsWellFormed` | crates/mqtt-format/src/v5/packets/mod.rs:71-263 | The conditions of the round trips can be met: a PUBLISH with identifier, two user properties and payload is well-formed, and its bytes are accepted |
| `PacketLaws.UnreadableRefused` | crates/mqtt-format/src/v5/packets/publish.rs:79-82 | Every written PUBLISH whose topic has # or * is refused by the parser |
| `PacketLaws.PacketExact` | crates/mqtt-format/src/v5/packets/mod.rs:110-132 | binary_size is the number of bytes written, for every typed packet on which it does not panic |
| `PacketLaws.BodyExact` | crates/mqtt-format/src/v5/packets/mod.rs:110-132 | The body size, which is written as the remaining length, is the number of bytes of the body, also above the limit of the length field |
| `PacketLaws.WellFormedExact` | crates/mqtt-format/src/v5/packets/mod.rs:110-263 | Both sizes are exact for every well-formed packet |
| `PacketLaws.BodyRoundTrip` | crates/mqtt-format/src/v5/packets/mod.rs:75-99 | The body of every packet kind is read back from what is written |
| `PacketLaws.BodyNormal` | crates/mqtt-format/src/v5/packets/mod.rs:75-99 | Every accepted body yields a packet within the limits that takes at most as many bytes, or four where it had fewer |
| `PacketLaws.Framed` | crates/mqtt-format/src/v5/packets/mod.rs:71-104 | A header byte, a length and a body parse as that body does, whatever follows |
| `PacketLaws.TrailingDropped` | crates/mqtt-format/src/v5/packets/mod.rs:95-99 | Bytes behind the last field of an AUTH, CONNACK, CONNECT, DISCONNECT or PUBACK-family body are dropped and change nothing |
| `WireFormat.CarriedAgainstStandard` | crates/mqtt-format/src/v5/variable_header.rs:155-334 | A property is accepted in a packet, or in a will, exactly where Table 2-4 of the standard lists it, and a Subscription Identifier also in UNSUBSCRIBE |
| `WireFormat.TypesAgainstStandard` | crates/mqtt-format/src/v5/variable_header.rs:155-334 | The property identifiers and their data types are those of Table 2-4; the further restrictions to 0 and 1, or to non-zero, hold for exactly two properties each |
| `WireFormat.ReasonsAgainstStandard` | crates/mqtt-format/src/v5/reason_code.rs:70-114 | A reason code is accepted in a packet exactly where Table 2-6 lists it, but for three exceptions |
| `WireFormat.HeaderLayout` | crates/mqtt-format/src/v5/fixed_header.rs:49-84 | A header byte is accepted as a type exactly when its high half is the type number and its low half has the bits of section 2.1.3 |
| `WireFormat.ConnectFlagLayout` | crates/mqtt-format/src/v5/packets/connect.rs:97-116 | The CONNECT flags stand in the bits of section 3.1.2.3, the lowest being zero |
| `WireFormat.ConnectHeadExact` | crates/mqtt-format/src/v5/packets/connect.rs:87-116 | An accepted CONNECT begins with the name MQTT and level 5, and its first eight bytes are the ones that are written |
| `WireFormat.FlagsExact` | crates/mqtt-format/src/v5/packets/connect.rs:97-116 | Every accepted flag byte is the one that is written |
| `WireFormat.OptionLayout` | crates/mqtt-format/src/v5/packets/subscribe.rs:56-79 | Subscription options stand in the bits of section 3.8.3.1, the two highest being zero |
| `WireFormat.SessionPresentBit` | crates/mqtt-format/src/v5/packets/connack.rs:128-135 | The first byte of an accepted CONNACK is 128 or 0, as session-present says |
| `WireFormat.BigEndian` | crates/mqtt-format/src/v5/integers.rs:24-70 | Integers of two and four bytes stand high byte first and need no more than their bytes |
| `WireFormat.LeastGroupFirst` | crates/mqtt-format/src/v5/integers.rs:117-153 | The seven-bit groups of a variable byte integer stand least significant first |
| `WireFormat.LengthPrefixed` | crates/mqtt-format/src/v5/strings.rs:24-32 | Text and binary data are the bytes behind a two-byte length, refused exactly when they are missing or the text is not UTF-8 |
| `KnownAnswers.ConnectAnswer` | crates/mqtt-format/src/v5/packets/connect.rs:83-219 | A CONNECT with all optional fields, all different, and its 27 literal bytes stand for each other |
| `KnownAnswers.PublishAnswer` | crates/mqtt-format/src/v5/packets/publish.rs:72-131 | The same for a duplicate PUBLISH at QoS 1 |
| `KnownAnswers.PlainPublishAnswer` | crates/mqtt-format/src/v5/packets/publish.rs:72-131 | The same for a retained PUBLISH at QoS 0 |
| `KnownAnswers.AckAnswers` | crates/mqtt-format/src/v5/packets/puback.rs:54-89 | The same for PUBACK, PUBREC, PUBREL and PUBCOMP |
| `KnownAnswers.SubscribeAnswer` | crates/mqtt-format/src/v5/packets/subscribe.rs:205-231 | The same for SUBSCRIBE, with its entry |
| `KnownAnswers.UnsubscribeAnswer` | crates/mqtt-format/src/v5/packets/unsubscribe.rs:135-162 | The same for UNSUBSCRIBE, with its entry |
| `KnownAnswers.SubackAnswer` | crates/mqtt-format/src/v5/packets/suback.rs:57-98 | The same for SUBACK |
| `KnownAnswers.UnsubackAnswer` | crates/mqtt-format/src/v5/packets/unsuback.rs:52-95 | The same for UNSUBACK |
| `KnownAnswers.ConnackAnswer` | crates/mqtt-format/src/v5/packets/connack.rs:128-161 | The same for CONNACK with session present |
| `KnownAnswers.DisconnectAnswers` | crates/mqtt-format/src/v5/packets/disconnect.rs:80-121 | The same for DISCONNECT in its long and its short form |
| `KnownAnswers.AuthAnswer` | crates/mqtt-format/src/v5/packets/auth.rs:53-70 | The same for AUTH |
| `KnownAnswers.PingAnswers` | crates/mqtt-format/src/v5/packets/pingreq.rs:20-31 | The same for PINGREQ and PINGRESP |
| `KnownAnswers.UserPropertyAnswer` | crates/mqtt-format/src/v5/variable_header.rs:426-443 | The same for a user property, key before value |
| `KnownAnswers.NumberPropertyAnswer` | crates/mqtt-format/src/v5/variable_header.rs:209-213 | The same for Server Keep Alive |
| `KnownAnswers.ShortPuback` | crates/mqtt-format/src/v5/packets/puback.rs:54-77 | A PUBACK body of an identifier, or of an identifier and a reason, is accepted with reason 0, or that reason, and no properties |
| `KnownAnswers.ShortDisconnects` | crates/mqtt-format/src/v5/packets/disconnect.rs:80-101 | A DISCONNECT body of one reason is accepted without properties |
| `KnownAnswers.PingBody` | crates/mqtt-format/src/v5/packets/pingreq.rs:20-23 | A ping is accepted exactly with an empty body |
| `Utf8.ValidExactly` | crates/mqtt-format/src/v5/strings.rs:24-32 | Text is accepted if and only if it is what some Unicode scalar values are written as |
| `Utf8.TextInjective` | crates/mqtt-format/src/v5/strings.rs:24-45 | Different texts have different bytes |
| `Utf8.AsciiIsCharacter` | crates/mqtt-format/src/v5/packets/publish.rs:134-136 | A byte below 128 occurs in a text exactly when the character does, so that looking for # and * may look at bytes |
| `PacketLaws.HeaderRoundTrip` | crates/mqtt-format/src/v5/fixed_header.rs:49-124 | Every packet type is read back from its header byte |
| `PacketLaws.HeaderExact` | crates/mqtt-format/src/v5/fixed_header.rs:49-124 | Every accepted header byte is the one that is written for its type |
| `PacketLaws.FlagsRoundTrip` | crates/mqtt-format/src/v5/packets/connect.rs:97-116 | Every combination of CONNECT flags is read back from its byte |
| `PacketLaws.ConnectRoundTrip` | crates/mqtt-format/src/v5/packets/connect.rs:83-219 | CONNECT with any will, username and password is read back |
| `PacketLaws.ConnectNormal` | crates/mqtt-format/src/v5/packets/connect.rs:83-164 | An accepted CONNECT is well-formed and never grows when rewritten |
| `PacketLaws.PublishRoundTrip` | crates/mqtt-format/src/v5/packets/publish.rs:72-131 | PUBLISH is read back, the payload being all that is left of the body |
| `PacketLaws.PublishNormal` | crates/mqtt-format/src/v5/packets/publish.rs:72-104 | An accepted PUBLISH has a sane topic, an identifier exactly above QoS 0, and never grows |
| `PacketLaws.AckRoundTrip` | crates/mqtt-format/src/v5/packets/puback.rs:54-89 | PUBACK, PUBREC, PUBREL and PUBCOMP are read back from their long form |
| `PacketLaws.AckNormal` | crates/mqtt-format/src/v5/packets/puback.rs:54-77 | The two omitted-tail forms give a packet that can be written in at most four bytes of body |
| `PacketLaws.DisconnectRoundTrip` | crates/mqtt-format/src/v5/packets/disconnect.rs:80-121 | DISCONNECT is read back in its short and its long form |
| `PacketLaws.DisconnectNormal` | crates/mqtt-format/src/v5/packets/disconnect.rs:80-101 | An accepted DISCONNECT can be written in as many bytes, or two |
| `PacketLaws.ConnackRoundTrip` | crates/mqtt-format/src/v5/packets/connack.rs:128-161 | CONNACK is read back; session-present stands in bit 7 on both sides |
| `PacketLaws.ConnackNormal` | crates/mqtt-format/src/v5/packets/connack.rs:128-148 | An accepted CONNACK is well-formed and never grows |
| `PacketLaws.AuthRoundTrip` | crates/mqtt-format/src/v5/packets/auth.rs:53-70 | AUTH is read back |
| `PacketLaws.AuthNormal` | crates/mqtt-format/src/v5/packets/auth.rs:53-61 | An accepted AUTH is well-formed and never grows |
| `PacketLaws.ListRoundTrip` | crates/mqtt-format/src/v5/packets/suback.rs:57-98 | SUBSCRIBE, SUBACK, UNSUBSCRIBE and UNSUBACK are read back |
| `PacketLaws.ListNormal` | crates/mqtt-format/src/v5/packets/suback.rs:57-83 | Accepted packets of these four kinds are well-formed and never grow |
| `PacketLaws.PingNormal` | crates/mqtt-format/src/v5/packets/pingreq.rs:20-31 | A ping is accepted only with an empty body |
| `PacketLaws.EntriesExact` | crates/mqtt-format/src/v5/packets/subscribe.rs:138-167 | Rewriting the entries of an accepted payload reproduces its bytes; every entry can be written |
| `PacketLaws.EntriesRoundTrip` | crates/mqtt-format/src/v5/packets/subscribe.rs:138-167 | Every list of writable entries is what its encoding parses to |
| `PacketLaws.EntryRoundTrip` | crates/mqtt-format/src/v5/packets/subscribe.rs:101-117 | One entry is read back in front of any suffix |
| `PacketLaws.EntryExact` | crates/mqtt-format/src/v5/packets/subscribe.rs:101-117 | The bytes of an accepted entry are the ones that are written for it |
| `PacketLaws.OptionsRoundTrip` | crates/mqtt-format/src/v5/packets/subscribe.rs:56-90 | Subscription options are read back from their byte |
| `PacketLaws.OptionsExact` | crates/mqtt-format/src/v5/packets/subscribe.rs:56-90 | An accepted options byte is the one that is written |
| `Subscriptions.PayloadByteExact` | crates/mqtt-format/src/v5/packets/subscribe.rs:138-167 | An accepted payload yields at least one entry, and rewriting what it yields gives the stored bytes, so the slice length is the exact size |
| `Subscriptions.PayloadEquality` | crates/mqtt-format/src/v5/packets/subscribe.rs:125-129 | Equality by iterated entries, as the source defines it, is equality of the stored bytes |
| `Subscriptions.EntryListFits` | crates/mqtt-format/src/v5/packets/subscribe.rs:161-167 | Whatever is iterated out of an accepted payload can be written without an error |
| `Subscriptions.SubscriptionsIter.constructor` | crates/mqtt-format/src/v5/packets/subscribe.rs:169-173 | An iterator over an accepted payload starts with all its entries |
| `Subscriptions.SubscriptionsIter.Next` | crates/mqtt-format/src/v5/packets/subscribe.rs:184-193 | Yields the first remaining entry and keeps the others; nothing when none remain; the expect cannot fire |
| `SectionLaws.SectionAccepted` | crates/mqtt-format/src/v5/properties.rs:99-120 | A section is accepted if and only if every property parses, every identifier is allowed for the packet and none but the user property repeats; what is stored then describes exactly these properties, user properties in wire order |
| `SectionLaws.OrderIrrelevant` | crates/mqtt-format/src/v5/properties.rs:99-120 | Any permutation that keeps the order of the user properties is accepted alike and means the same |
| `SectionLaws.SectionRoundTrip` | crates/mqtt-format/src/v5/properties.rs:85-164 | A written section is read back in front of any suffix, and its stored tail is one the iterator can walk |
| `SectionLaws.FieldsRoundTrip` | crates/mqtt-format/src/v5/properties.rs:99-164 | The written properties are accepted and mean the section they were written from |
| `SectionLaws.SectionNormal` | crates/mqtt-format/src/v5/properties.rs:85-122 | The view of an accepted section can be written and takes no more bytes than were read |
| `SectionLaws.SlotsNormal` | crates/mqtt-format/src/v5/properties.rs:99-120 | Filled slots are typed, short, and no longer than the bytes they came from |
| `SectionLaws.SlotsMeanItems` | crates/mqtt-format/src/v5/properties.rs:99-120 | The lazy loop accepts exactly when eager collecting of the parsed properties does, with the same result |
| `SectionLaws.FieldsEncoded` | crates/mqtt-format/src/v5/properties.rs:136-164 | What is written is the concatenation of the single properties, each with its own identifier |
| `SectionLaws.CollectItemsOf` | crates/mqtt-format/src/v5/properties.rs:99-164 | Collecting the properties of a section in writing order rebuilds the section |
| `SectionLaws.CollectFits` | crates/mqtt-format/src/v5/properties.rs:99-134 | Collecting conserves bytes: the size of the section grows by exactly the bytes of each property |
| `SectionLaws.NoRepeatPermutes` | crates/mqtt-format/src/v5/properties.rs:27-39 | Having no repeated property does not depend on order |
| `Sections.LazyAgreesWithEager` | crates/mqtt-format/src/v5/variable_header.rs:355-479 | At every point of the parsing loop the stored tail, iterated, is the list collected so far and the user properties still to come; the final view is the eager section |
| `Sections.SlotAgrees` | crates/mqtt-format/src/v5/properties.rs:27-39 | Filling one slot keeps that agreement and fails exactly when eager collecting fails |
| `Sections.ScalarSlotAgrees` | crates/mqtt-format/src/v5/properties.rs:27-39 | A property that is not a user property is refused exactly when its slot is full |
| `Sections.UserSlotAgrees` | crates/mqtt-format/src/v5/properties.rs:27-39 | The first user property stores a tail that already contains the later ones, so these may be ignored |
| `Sections.TailOfUserItem` | crates/mqtt-format/src/v5/variable_header.rs:355-368 | The bytes behind the identifier of a user property iterate to that property and all later ones |
| `Sections.SlotsNeedItems` | crates/mqtt-format/src/v5/properties.rs:99-120 | A section with a malformed property is refused whatever precedes it |
| `Sections.CollectDescribes` | crates/mqtt-format/src/v5/properties.rs:27-39 | Collecting succeeds exactly on acceptable lists, and the result describes them |
| `Sections.DescribesUnique` | crates/mqtt-format/src/v5/properties.rs:99-120 | A list of properties is described by at most one section |
| `Sections.SectionExact` | crates/mqtt-format/src/v5/properties.rs:124-164 | The size of a section, which is its length prefix, is exact |
| `Sections.FieldsExact` | crates/mqtt-format/src/v5/properties.rs:124-164 | The sum over the properties is the number of bytes they are written with |
| `Sections.FieldExact` | crates/mqtt-format/src/v5/variable_header.rs:82-92 | The size of every kind of property value is exact |
| `Sections.MoreUsersExact` | crates/mqtt-format/src/v5/variable_header.rs:370-399 | The size of the user properties is exact, with the identifier counted for all but the first |
| `UserProperties.ParsePropertySection` | crates/mqtt-format/src/v5/properties.rs:85-122 | The loop over the section bytes computes what the section parser is proved to accept |
| `UserProperties.UserPropertyIterator.constructor` | crates/mqtt-format/src/v5/variable_header.rs:408-416 | An iterator over a stored tail starts with the whole eager list |
| `UserProperties.UserPropertyIterator.Next` | crates/mqtt-format/src/v5/variable_header.rs:455-479 | Yields the next user property of the eager list past any other properties and ends after the last; no expect can fire |
| `UserProperties.CollectUserProperties` | crates/mqtt-format/src/v5/variable_header.rs:455-479 | Iterating to the end terminates with the eager list |
| `UserProperties.UserPropertiesSize` | crates/mqtt-format/src/v5/variable_header.rs:370-383 | The size summed over the iterator is that of the eager list |
| `Properties.AllowedKnown` | crates/mqtt-format/src/v5/variable_header.rs:155-334 | The properties of every packet are in the table and none is listed twice |
| `Properties.ItemsRoundTrip` | crates/mqtt-format/src/v5/variable_header.rs:112-121 | Every list of properties is read back from its bytes |
| `Properties.ItemRoundTrip` | crates/mqtt-format/src/v5/variable_header.rs:66-121 | Every property of the table is read back in front of any suffix |
| `Properties.ScalarRoundTrip` | crates/mqtt-format/src/v5/variable_header.rs:66-93 | Every value codec of the table inverts its writer |
| `Properties.PairRoundTrip` | crates/mqtt-format/src/v5/variable_header.rs:426-443 | A user property is read back in front of any suffix |
| `Properties.PairExact` | crates/mqtt-format/src/v5/variable_header.rs:426-443 | The bytes of an accepted user property are the ones that are written for it |
| `Properties.ParsedValueFits` | crates/mqtt-format/src/v5/variable_header.rs:66-93 | A parsed value can be written and takes no more bytes than were read |
| `Properties.ParsedItemFits` | crates/mqtt-format/src/v5/variable_header.rs:112-121 | The same for a property with its identifier, which may have been overlong |
| `Properties.ParsedItemsFit` | crates/mqtt-format/src/v5/variable_header.rs:112-121 | The same for a whole list |
| `Wire.ParseVariableU32` | crates/mqtt-format/src/v5/integers.rs:78-102 | The accumulating loop computes the base-128 value, never leaves the range of the format, and tells incomplete from malformed input |
| `Wire.VarRoundTrip` | crates/mqtt-format/src/v5/integers.rs:78-153 | Parsing inverts writing up to the maximum, in front of any suffix, on partial and on complete input |
| `Wire.EncodeVarShape` | crates/mqtt-format/src/v5/integers.rs:107-153 | The encoding has the computed length, continuation bits on all bytes but the last, and the written value |
| `Wire.VarPrefixIncomplete` | crates/mqtt-format/src/v5/integers.rs:78-102 | Every strict prefix of an encoding is incomplete, not an error |
| `Wire.VarPrefixFree` | crates/mqtt-format/src/v5/integers.rs:117-153 | No encoding is a prefix of another |
| `Wire.VarAccepted` | crates/mqtt-format/src/v5/integers.rs:78-115 | An accepted value is within the maximum and was read from at least its minimal length and at most four bytes |
| `Wire.VarMinimalIsEncoding` | crates/mqtt-format/src/v5/integers.rs:78-153 | The accepted bytes are those that would be written if and only if they have the minimal length |
| `Wire.VarMonotone` | crates/mqtt-format/src/v5/integers.rs:78-102 | More input never changes an answer other than incomplete |
| `Wire.U16RoundTrip` | crates/mqtt-format/src/v5/integers.rs:24-35 | Two-byte integers are read back |
| `Wire.U16Exact` | crates/mqtt-format/src/v5/integers.rs:24-35 | The accepted two bytes are the written ones |
| `Wire.U32RoundTrip` | crates/mqtt-format/src/v5/integers.rs:60-70 | Four-byte integers are read back |
| `Wire.BinaryRoundTrip` | crates/mqtt-format/src/v5/strings.rs:24-45 | Text and binary data up to 65535 bytes are read back in front of any suffix |
| `Wire.BinaryExact` | crates/mqtt-format/src/v5/bytes.rs:16-32 | Accepted text or data is within the limit and its bytes are the written ones |
| `Writer.BytesMut.WritePacket` | crates/mqtt-format/src/v5/packets/mod.rs:134-263 | Fails exactly when the body exceeds the maximum, a text or binary is too long or a QoS 0 PUBLISH has an identifier; otherwise appends the encoding, which is binary_size bytes |
| `Writer.BytesMut.WriteBody` | crates/mqtt-format/src/v5/packets/mod.rs:134-263 | Of every kind, appends the body or fails exactly when a text, a binary or a section is too long or a QoS 0 PUBLISH has an identifier, whatever the length of the body |
| `Writer.BytesMut.WriteConnect` | crates/mqtt-format/src/v5/packets/connect.rs:178-219 | Appends the CONNECT body or fails exactly when it is not writable |
| `Writer.BytesMut.WriteConnectHead` | crates/mqtt-format/src/v5/packets/connect.rs:178-204 | Appends protocol name, level and flags |
| `Writer.BytesMut.WriteConnectTail` | crates/mqtt-format/src/v5/packets/connect.rs:205-218 | Appends keep-alive, properties and payload, or fails exactly when one of them is not writable |
| `Writer.BytesMut.WriteConnectPayload` | crates/mqtt-format/src/v5/packets/connect.rs:207-216 | Appends client identifier, will, username and password in this order; fails exactly when one of them is too long |
| `Writer.BytesMut.WriteConnectOptions` | crates/mqtt-format/src/v5/packets/connect.rs:208-216 | Appends will, username and password in this order; fails exactly when one of them is too long |
| `Writer.BytesMut.WriteWill` | crates/mqtt-format/src/v5/packets/connect.rs:232-237 | Appends the will that the parser reads back |
| `Writer.BytesMut.WritePublish` | crates/mqtt-format/src/v5/packets/publish.rs:116-131 | Appends the PUBLISH body; fails on an identifier at QoS 0 |
| `Writer.BytesMut.WriteReasonBody` | crates/mqtt-format/src/v5/packets/puback.rs:85-89 | Appends the bodies of AUTH, CONNACK, DISCONNECT and the PUBACK family |
| `Writer.BytesMut.WriteListBody` | crates/mqtt-format/src/v5/packets/suback.rs:91-98 | Appends the bodies of SUBSCRIBE, SUBACK, UNSUBSCRIBE and UNSUBACK |
| `Writer.BytesMut.WriteEntries` | crates/mqtt-format/src/v5/packets/subscribe.rs:161-167 | Appends every entry the payload iterates to, hence its stored bytes |
| `Writer.BytesMut.WriteEntry` | crates/mqtt-format/src/v5/packets/subscribe.rs:114-117 | Appends the filter and, for SUBSCRIBE, the options byte |
| `Writer.BytesMut.WriteSection` | crates/mqtt-format/src/v5/properties.rs:136-164 | Appends size and properties; fails exactly when the section exceeds the maximum or a value is too long |
| `Writer.BytesMut.WriteFields` | crates/mqtt-format/src/v5/properties.rs:136-164 | Appends the present properties in the order of the packet; fails exactly when one of them is too long or a subscription identifier exceeds the maximum |
| `Writer.BytesMut.WriteField` | crates/mqtt-format/src/v5/variable_header.rs:87-92 | Appends identifier and value of one property; fails exactly when the value is too long or above the maximum |
| `Writer.BytesMut.WriteUserProperties` | crates/mqtt-format/src/v5/variable_header.rs:385-399 | Never fails on a stored tail; appends the first pair bare and every later one behind the identifier |
| `Writer.BytesMut.WriteRemaining` | crates/mqtt-format/src/v5/variable_header.rs:393-396 | Appends every user property the iterator still yields |
| `Writer.BytesMut.WritePair` | crates/mqtt-format/src/v5/variable_header.rs:440-443 | Appends a user property, or fails when one of its texts is too long |
| `Writer.BytesMut.WriteBinary` | crates/mqtt-format/src/v5/strings.rs:38-44 | Refuses exactly more than 65535 bytes and then appends nothing |
| `Writer.BytesMut.WriteVariableU32` | crates/mqtt-format/src/v5/integers.rs:117-153 | Refuses exactly values above the maximum and then appends nothing; otherwise appends the minimal encoding |
| `Writer.BytesMut.WriteU16` | crates/mqtt-format/src/v5/write.rs:22-25 | Appends the big-endian bytes that the parser reads back |
| `Writer.BytesMut.WriteU32` | crates/mqtt-format/src/v5/write.rs:28-34 | Appends the big-endian bytes that the parser reads back |
| `Writer.UserListFits` | crates/mqtt-format/src/v5/variable_header.rs:385-399 | Pairs iterated out of a stored tail exist and can always be written |
| `IdentifierStore.WordsRefineMap` | crates/cloudmqtt-core/src/client/packet_identifier_store.rs:52-97 | Under every sequence of operations the two words keep the publish bits inside the slot bits, hand out what a map from identifier to usage hands out, and represent that map |
| `IdentifierStore.WordStepRefines` | crates/cloudmqtt-core/src/client/packet_identifier_store.rs:52-85 | The same for one operation |
| `IdentifierStore.NextFreeIsLeast` | crates/cloudmqtt-core/src/client/packet_identifier_store.rs:52-71 | The identifier handed out is the least free one in 1..BITS; none exactly when all are taken |
| `IdentifierStore.FirstClearIsNextFree` | crates/cloudmqtt-core/src/client/packet_identifier_store.rs:56-58 | The first clear bit of the word stands for the least free identifier of the map |
| `IdentifierStore.TakeMeans` | crates/cloudmqtt-core/src/client/packet_identifier_store.rs:57-61 | Setting the mask in both words adds one entry with its usage and changes no other |
| `IdentifierStore.ReleaseMeans` | crates/cloudmqtt-core/src/client/packet_identifier_store.rs:73-81 | Clearing the mask in both words removes exactly that entry |
| `IdentifierStore.KeepMeans` | crates/cloudmqtt-core/src/client/packet_identifier_store.rs:83-85 | Intersecting the words keeps exactly the publish entries |
| `IdentifierStore.UsizePacketIdentifierStore.constructor` | crates/cloudmqtt-core/src/client/packet_identifier_store.rs:43-48 | The empty store represents the empty map |
| `IdentifierStore.UsizePacketIdentifierStore.GetNextFree` | crates/cloudmqtt-core/src/client/packet_identifier_store.rs:52-71 | Takes the least free identifier for the usage, or changes nothing when there is none |
| `IdentifierStore.UsizePacketIdentifierStore.Release` | crates/cloudmqtt-core/src/client/packet_identifier_store.rs:73-81 | Removes exactly the given identifier |
| `IdentifierStore.UsizePacketIdentifierStore.ReleaseNonPublishSlots` | crates/cloudmqtt-core/src/client/packet_identifier_store.rs:83-85 | Keeps exactly the publish identifiers |
| `IdentifierStore.UsizePacketIdentifierStore.Contains` | crates/cloudmqtt-core/src/client/packet_identifier_store.rs:87-97 | Is membership in the represented map, also for identifiers beyond the word |
| `ClientLaws.HandshakeSafety` | crates/cloudmqtt-core/src/client/mod.rs:165-498 | In every run, a CONNECT leaves only when no earlier one is live, a DISCONNECT is the one that the call just before requested, and every other packet leaves only after a successful CONNACK on a connection that stays open |
| `ClientLaws.ConnectedMeansHandshake` | crates/cloudmqtt-core/src/client/mod.rs:165-498 | The client is connected if and only if the trace shows a CONNECT, a successful CONNACK after it and no reset since |
| `ClientLaws.Phase` | crates/cloudmqtt-core/src/client/mod.rs:165-498 | State and trace agree at every point: disconnected means no live CONNECT, otherwise there is one, successfully acknowledged exactly when connected |
| `ClientLaws.LiveConnectUnique` | crates/cloudmqtt-core/src/client/mod.rs:170-173 | At most one CONNECT is live at any point |
| `ClientLaws.ConnectFindsNoneLive` | crates/cloudmqtt-core/src/client/mod.rs:170-173 | A CONNECT is never sent while an earlier one is live |
| `ClientLaws.StepConnection` | crates/cloudmqtt-core/src/client/mod.rs:302-498 | How each step moves between the three connection states, read off its label; only a successful CONNACK completes a connection |
| `ClientLaws.StepSends` | crates/cloudmqtt-core/src/client/mod.rs:302-498 | Which step sends which kind of packet, and in which state; a DISCONNECT is the one the disconnecter was given |
| `ClientLaws.DisconnectRequested` | crates/cloudmqtt-core/src/client/mod.rs:70-89 | A DISCONNECT that leaves is the very packet of the call to disconnect just before |
| `ClientLaws.RunKeepsOk` | crates/cloudmqtt-core/src/client/mod.rs:165-498 | Identifiers stay in range, only publishes hold identifiers unless connected, and publisher and disconnecter hold packets of their kind |
| `ClientLaws.OnlyPublishIdsSurvive` | crates/cloudmqtt-core/src/client/mod.rs:275-283 | An identifier of a subscription is held only on an open connection; right after any reset none is |
| `ClientLaws.IdentifierConservation` | crates/cloudmqtt-core/src/client/mod.rs:109-392 | The announced and unreleased identifiers are the publish slots of the store at every point, across any number of lost connections, if and only if no SUBACK on an open connection names an identifier that the trace shows announced and not released |
| `ClientLaws.ConservedStep` | crates/cloudmqtt-core/src/client/mod.rs:366-392 | A single step breaks conservation exactly when it is such a SUBACK |
| `ClientLaws.StepPublishIds` | crates/cloudmqtt-core/src/client/mod.rs:109-392 | What every step does to the publish slots: a stored identifier was free and is added, a released one was held and is removed, a SUBACK removes silently |
| `ClientLaws.IdentifiersFresh` | crates/cloudmqtt-core/src/client/mod.rs:109-138 | An announced identifier is the least free one and not outstanding; a released one was held, and was outstanding exactly when it was held for a publish |
| `ClientLaws.SubscribeIdFresh` | crates/cloudmqtt-core/src/client/mod.rs:232-244 | The identifier of a SUBSCRIBE is the least free one, names no outstanding publish, and is held from then on |
| `ClientLaws.StraySubackBreaksConservation` | crates/cloudmqtt-core/src/client/mod.rs:385-392 | After a SUBACK for a publish the identifier is announced, unreleased and free in the store |
| `ClientLaws.StraySubackRun` | crates/cloudmqtt-core/src/client/mod.rs:385-392 | A concrete run of five steps in which that happens |
| `ClientLaws.PublishesAreStored` | crates/cloudmqtt-core/src/client/mod.rs:109-138 | Every PUBLISH sent above QoS 0 carries an identifier that the store holds for it |
| `ClientLaws.PingBalanceInvariant` | crates/cloudmqtt-core/src/client/mod.rs:375-428 | Within a connection, PINGREQs sent minus PINGRESPs consumed is one while an answer is awaited and zero otherwise |
| `ClientLaws.LastSendInvariant` | crates/cloudmqtt-core/src/client/mod.rs:395-425 | The recorded time is that of the last packet sent that was not a DISCONNECT |
| `ClientLaws.NegotiatedInvariant` | crates/cloudmqtt-core/src/client/mod.rs:466-468 | The interval in force is the one of the CONNECT until a successful CONNACK has the property 0x13, and then its value |
| `ClientLaws.KeepAlive` | crates/cloudmqtt-core/src/client/mod.rs:399-425 | After run(t) on an open connection with interval K > 0, either a PINGREQ is unanswered or t is less than K away from the last send that was not a DISCONNECT |
| `ClientLaws.PingExactlyWhenDue` | crates/cloudmqtt-core/src/client/mod.rs:399-425 | Within a connection a PINGREQ leaves if and only if run is called after a successful CONNACK with an interval K > 0, no PINGREQ is unanswered and t is K or more away from the last send that was not a DISCONNECT |
| `ClientLaws.ConnectKeepsIdentifier` | crates/cloudmqtt-core/src/client/mod.rs:187-198 | Every CONNECT of a known client carries an identifier with the hash of the last one the server assigned, or else of the first one sent |
| `ClientLaws.KnownAsInvariant` | crates/cloudmqtt-core/src/client/mod.rs:187-198 | The stored hash is the one the trace determines, across any number of connections |
| `ClientLaws.AcksNeverOutrunReceipts` | crates/cloudmqtt-core/src/client/mod.rs:246-263 | In every run the identifiers of the PUBACKs sent are, with multiplicity, among those of the QoS 1 publishes that were consumed on an open connection |
| `ClientLaws.AcknowledgementBalance` | crates/cloudmqtt-core/src/client/mod.rs:246-356 | The QoS 1 publishes consumed on open connections are exactly the PUBACKs sent and the acknowledgements still held, so none is lost and none doubled |
| `ClientLaws.PublishDelivered` | crates/cloudmqtt-core/src/client/mod.rs:343-356 | Every PUBLISH consumed on an open connection is delivered unchanged, at QoS 1 with the acknowledgement of its own identifier |
| `ClientLaws.StepTokens` | crates/cloudmqtt-core/src/client/mod.rs:246-356 | Only a consumed QoS 1 PUBLISH gains an acknowledgement, only a successful PUBACK spends one, with the same identifier |
| `ClientLaws.ParsedPublishConsumable` | crates/cloudmqtt-core/src/client/mod.rs:348-357 | On a connection, exactly the parsed publishes of QoS 0 and 1 can be consumed: the identifier that is unwrapped is there |
| `ClientTrace.CallsAllowed` | crates/cloudmqtt-core/src/client/mod.rs:165-498 | After any run, a call does not panic if and only if the trace, without the state of the client, allows it |
| `ClientTrace.ConsumedGives` | crates/cloudmqtt-core/src/client/mod.rs:302-498 | What consuming a packet gives, by its kind: on an open connection, while waiting for the CONNACK (an assigned identifier, property 0x12, to save), and nothing otherwise |
| `ClientTrace.RequestsLeave` | crates/cloudmqtt-core/src/client/mod.rs:165-287 | What the caller asks for leaves unchanged: CONNECT, SUBSCRIBE with its properties and entries under the least free identifier, PUBACK with reason 0; run gives a PINGREQ or nothing |
| `ClientTrace.PublishScriptFollowed` | crates/cloudmqtt-core/src/client/mod.rs:109-138 | Call by call, a publisher gives the message at QoS 0, and above first the least free identifier, then the message with it; a send without a connection is lost, and then nothing more comes |
| `ClientTrace.PublishUnchanged` | crates/cloudmqtt-core/src/client/mod.rs:109-138 | Every PUBLISH that leaves is the message of the last call to publish with nothing but the identifier replaced, and that only above QoS 0 |
| `ClientTrace.DisconnectScriptFollowed` | crates/cloudmqtt-core/src/client/mod.rs:70-89 | Call by call, a disconnecter gives its packet, then closes the connection, then nothing |
| `ClientTrace.HeldInvariant` | crates/cloudmqtt-core/src/client/mod.rs:109-392 | The store holds exactly the identifiers that the trace says are in use, each for its usage |
| `ClientTrace.HandleInvariant` | crates/cloudmqtt-core/src/client/mod.rs:70-138 | Publisher and disconnecter are in the state that the number of their runs says |
| `ClientTrace.LastRunInvariant` | crates/cloudmqtt-core/src/client/mod.rs:303-316 | The recorded time is that of the last call that runs the state machine |
| `ClientTrace.ConnackOnWire` | crates/cloudmqtt-core/src/client/mod.rs:466-484 | The interval and the identifier taken from an accepted CONNACK section are those that stand in it as properties 0x13 and 0x12 |
| `ClientPackets.SentStreamArrives` | crates/cloudmqtt-core/src/client/mod.rs:165-498 | In every run whose callers pass well-formed packets and whose incoming packets were parsed, the bytes of all packets sent between any two points, however cut, are decoded to exactly these packets in order with nothing left over |
| `ClientPackets.SentPacketsArrive` | crates/cloudmqtt-core/src/client/mod.rs:165-498 | In such a run every packet sent is written without an error and is read back before any further bytes |
| `ClientPackets.PendingInvariant` | crates/cloudmqtt-core/src/client/mod.rs:109-263 | What publisher, disconnecter and acknowledgement tokens still have to send can be encoded at every point of a run |
| `ClientPackets.ParsedIsSendable` | crates/mqtt-format/src/v5/packets/mod.rs:71-104 | What the parser delivers satisfies what runs assume of consumed packets |
| `ClientPackets.StampSendable` | crates/cloudmqtt-core/src/client/mod.rs:112-119 | Stamping any identifier on a publish above QoS 0 keeps it well-formed |
| `ClientPackets.SubscribeSendable` | crates/cloudmqtt-core/src/client/mod.rs:232-243 | So does replacing the identifier of a SUBSCRIBE |
| `ClientPackets.PubackSendable` | crates/cloudmqtt-core/src/client/mod.rs:251-260 | The PUBACK built for an acknowledgement is well-formed |
| `ClientMachine.MqttClientFSM.HandleConnect` | crates/cloudmqtt-core/src/client/mod.rs:165-205 | Moves the fields and the store as the step does; sends the CONNECT |
| `ClientMachine.MqttClientFSM.ResetConnection` | crates/cloudmqtt-core/src/client/mod.rs:280-283 | Disconnects and keeps exactly the publish identifiers of the two words |
| `ClientMachine.MqttClientFSM.ConnectionLost` | crates/cloudmqtt-core/src/client/mod.rs:275-278 | As the step: records the time and resets |
| `ClientMachine.MqttClientFSM.ConsumeConnack` | crates/cloudmqtt-core/src/client/mod.rs:443-486 | As the step: interval, identifier hash and connection, with an assigned identifier announced |
| `ClientMachine.MqttClientFSM.ConsumeConnected` | crates/cloudmqtt-core/src/client/mod.rs:329-394 | As the step: delivery, closing, release with and without announcement, answered ping |
| `ClientMachine.MqttClientFSM.Consume` | crates/cloudmqtt-core/src/client/mod.rs:43-51 | As the step in all three states, with the time recorded last |
| `ClientMachine.MqttClientFSM.SendOut` | crates/cloudmqtt-core/src/client/mod.rs:395-398 | As the step: sent and timed when connected, dropped when disconnected |
| `ClientMachine.MqttClientFSM.Run` | crates/cloudmqtt-core/src/client/mod.rs:399-425 | As the step: a PINGREQ exactly when it is due |
| `ClientMachine.MqttClientFSM.Subscribe` | crates/cloudmqtt-core/src/client/mod.rs:232-244 | As the step; neither expect fails when connected with a free identifier |
| `ClientMachine.MqttClientFSM.Acknowledge` | crates/cloudmqtt-core/src/client/mod.rs:246-263 | As the step; the expect cannot fail when connected |
| `ClientMachine.MqttClientPublisher.constructor` | crates/cloudmqtt-core/src/client/mod.rs:217-230 | Starts by sending at QoS 0 and by storing above |
| `ClientMachine.MqttClientPublisher.Run` | crates/cloudmqtt-core/src/client/mod.rs:109-138 | As the step, on the borrowed client |
| `ClientMachine.DrivePublisher` | crates/cloudmqtt/src/client.rs:228-235 | On an open connection with a free identifier the loop ends and yields exactly the message, stamped above QoS 0 with the fresh identifier announced just before |
| `ClientMachine.MqttClientDisconnecter.Run` | crates/cloudmqtt-core/src/client/mod.rs:70-89 | As the step: the packet, then closing and reset, then nothing |
| `Topics.BuildingIsHomomorphic` | crates/cloudmqtt/src/topic.rs:140-179 | Building a filter from a/b is building from a and then appending b, with the same filter or the same kind of error |
| `Topics.NamingIsHomomorphic` | crates/cloudmqtt/src/topic.rs:207-236 | The same for topic names |
| `Topics.BuiltFilter` | crates/cloudmqtt/src/topic.rs:140-184 | A built filter joins back to its text, takes a level for a wildcard exactly when it is spelled as one, has # only as its last level and exactly when has_end_wildcard says so, and is at most 65534 bytes |
| `Topics.FilterAccepted` | crates/cloudmqtt/src/topic.rs:94-184 | A filter is accepted if and only if it is not empty, at most 65534 bytes, and every piece between separators is +, or # in the last place, or has no wildcard and no null |
| `Topics.NameAccepted` | crates/cloudmqtt/src/topic.rs:207-242 | A name is accepted if and only if it is not empty, has no wildcard and no null, and is at most 65534 bytes; its levels join back to it |
| `Topics.AppendSingleOk` | crates/cloudmqtt/src/topic.rs:152-172 | Appending a level keeps the invariant of filters, adds exactly that text, or changes nothing |
| `Topics.AppendPartsOk` | crates/cloudmqtt/src/topic.rs:174-179 | Appending levels keeps the invariant, and on success adds exactly these texts |
| `Topics.AppendPartsExact` | crates/cloudmqtt/src/topic.rs:152-179 | Appending succeeds exactly when nothing follows a #, every part is a wildcard on its own or free of separators, wildcards and nulls, and the length fits |
| `Topics.NamePartsExact` | crates/cloudmqtt/src/topic.rs:216-236 | Appending to a name succeeds exactly when every part is wildcard-free and the length fits |
| `Topics.JoinSplit` | crates/cloudmqtt/src/topic.rs:174-179 | Splitting and joining at the separator gives the text back |
| `Topics.SplitJoined` | crates/cloudmqtt/src/topic.rs:174-179 | Splitting a/b is splitting a and splitting b |
| `Topics.TopicFilterBuf.AppendSingle` | crates/cloudmqtt/src/topic.rs:152-172 | In place: the new filter and error kind are those of the specification; an error changes nothing |
| `Topics.TopicFilterBuf.Append` | crates/cloudmqtt/src/topic.rs:174-179 | In place: levels before the first error stay |
| `Topics.TopicFilterBuf.Len` | crates/cloudmqtt/src/topic.rs:182-184 | The bytes of the levels and one per level |
| `Topics.TopicNameBuf.AppendSingle` | crates/cloudmqtt/src/topic.rs:216-229 | In place: the new levels and error kind are those of the specification |
| `Topics.TopicNameBuf.Append` | crates/cloudmqtt/src/topic.rs:231-236 | In place: levels before the first error stay |
| `Topics.TopicNameBuf.Len` | crates/cloudmqtt/src/topic.rs:240-242 | The bytes of the levels and one per level |
| `Topics.AppendSingleErrors` | crates/cloudmqtt/src/topic.rs:94-108 | Which error a level is refused with, read off its text |
| `Topics.NameLevelErrors` | crates/cloudmqtt/src/topic.rs:28-38 | Which error a part of a name is refused with, read off its text; an error changes nothing |
| `Topics.EmptyRefused` | crates/cloudmqtt/src/topic.rs:140-143 | Exactly the empty text is refused as empty, for filters and names |
| `TopicTexts.MatchesOnTexts` | crates/cloudmqtt/src/topic.rs:244-281 | A built filter accepts a name exactly when all pieces of its text in front of a trailing #, as far as both have them, are + or equal |
| `TopicTexts.StandardOnTexts` | crates/cloudmqtt/src/topic.rs:244-281 | Matching by section 4.7.1 is the same on texts, with fitting piece counts |
| `TopicTexts.PlainFilter` | crates/cloudmqtt/src/topic.rs:244-281 | A filter without wildcards matches by the standard its own text alone; the code accepts a name exactly when one text begins the other at a separator or the end, which with equal piece counts means equal texts |
| `TopicTexts.TrailingHash` | crates/cloudmqtt/src/topic.rs:263-268 | The filter s/# matches by the standard s and all that begins with s/; the code also accepts what begins s at a separator |
| `TopicTexts.HashAlone` | crates/cloudmqtt/src/topic.rs:245-247 | The filter # is built and matches every name |
| `TopicTexts.SingleLevelBetween` | crates/cloudmqtt/src/topic.rs:275 | The filter a/+/b matches by the standard exactly the names a/x/b with one piece x |
| `TopicTexts.SplitPrefix` | crates/cloudmqtt/src/topic.rs:174-179 | The pieces of one text begin those of another exactly when the text does, at a separator or the end |
| `Topics.Matches` | crates/cloudmqtt/src/topic.rs:244-281 | True exactly when all levels before a #, up to the shorter side, are compatible |
| `Topics.MatchesAgainstStandard` | crates/cloudmqtt/src/topic.rs:244-281 | A match by section 4.7.1 is exactly an accepted one whose level counts fit; so every standard match is accepted |
| `Topics.AgreesWithStandardIff` | crates/cloudmqtt/src/topic.rs:244-281 | Code and section 4.7.1 agree exactly when the level counts fit or some level before a # is incompatible |
| `Topics.ShortNameAccepted` | crates/cloudmqtt/src/topic.rs:280 | The filter built from a/b accepts the name built from a, which does not match by the standard |
| `Topics.CutOfBuilt` | crates/cloudmqtt/src/topic.rs:165-167 | In a built filter the only # is its end wildcard |

## Left out

- The `v3` format: its writer is unfinished and no general round trip holds.
- Sockets, tasks, channels and the router of `crates/cloudmqtt/src`; only the loop that drives a publisher is modelled.
- QoS 2 deliveries, AUTH exchanges and sending while connecting: `todo!()` or a panic in the source, steps that are not enabled here.
- Error values, contexts and traces: failure, incomplete input and the remaining input are kept.
- `reserve` calls and the shared ownership of parsed bytes: no effect on results.
- The hash of the client identifier is a parameter, and so are the times that callers pass in.
- Sizes are unbounded integers; the source sums them in 32 bits. It panics on the size of a variable byte integer above the maximum, so writing a section requires its subscription identifier, and writing a packet the length of its sections, to be within it; `Encoder::encode`, which computes the size of the packet first, panics also on a body above the maximum, where `write` reports an error.
- Topic text is bytes in UTF-8 and not characters; all characters the code looks for are single bytes, and `Utf8.AsciiIsCharacter` shows that this makes no difference.
- Parsers of fixed fields are functions from input to value and remaining input and not methods on a moving cursor; the loops of the source are methods.
- A machine word is 64 bits wide.
- Topics that begin with `$`: the code does not treat them specially.
- Running out of input at the end of a stream (`decode_eof`) is the default of the framework and not part of this model.
- Reason codes are sets of bytes for each packet, without names.
- The borrow of the client by a publisher or disconnecter, and the one-time use of an acknowledgement, are kept as a handle and tokens of the modelled system, because the type checker of the source enforces them.
- Writer.BytesMut.WritePacket: after a failure it promises only that the earlier contents of the buffer are still in front, not which part of the packet follows, because the source promises nothing about it.
- UserProperties.ParsePropertySection: the value parsers it calls are functions, so the order in which they move the cursor inside one value is not captured.
