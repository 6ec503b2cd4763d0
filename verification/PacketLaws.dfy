/** Laws of the packet codec: exact sizes, round trip of every packet kind, and
    normalisation of whatever is accepted. */
module PacketLaws {
  import opened Wire
  import opened Properties
  import opened Sections
  import opened SectionLaws
  import opened Packets

  lemma SectionIdsKnown(t: PacketType)
    ensures KnownIds(SectionIds(t)) && KnownIds(WILL_IDS)
  {
    hide KnownIds, Allowed;
    AllowedKnown(SWill);
    match t
    case TAuth => AllowedKnown(SAuth);
    case TConnack => AllowedKnown(SConnack);
    case TConnect => AllowedKnown(SConnect);
    case TDisconnect => AllowedKnown(SDisconnect);
    case TPublish(_, _, _) => AllowedKnown(SPublish);
    case TSubscribe => AllowedKnown(SSubscribe);
    case TUnsubscribe => AllowedKnown(SSubscribe);
    case TAck(_) => AllowedKnown(SReason);
    case TSuback => AllowedKnown(SReason);
    case TUnsuback => AllowedKnown(SReason);
    case _ => NoIdsKnown();
  }

  lemma NoIdsKnown()
    ensures KnownIds([])
  {
  }

  // ------------------------------------------------------------- flag and type bytes

  lemma HeaderRoundTrip(t: PacketType)
    ensures ParseHeader(HeaderByte(t)) == Some(t)
  {
    if t.TPublish? {
      assert t == TPublish(t.dup, t.qos, t.retain);
    }
  }

  lemma HeaderExact(b: byte)
    requires ParseHeader(b).Some?
    ensures HeaderByte(ParseHeader(b).value) == b
  {
    var flags: nat := b % 16;
    assert flags == flags / 8 * 8 + flags / 2 % 4 * 2 + flags % 2;
  }

  lemma FlagBits(u: nat, p: nat, t: nat, q: nat, w: nat, c: nat)
    requires u <= 1 && p <= 1 && t <= 1 && q <= 2 && w <= 1 && c <= 1
    ensures var b := u * 128 + p * 64 + t * 32 + q * 8 + w * 4 + c * 2;
            && b / 128 == u && b / 64 % 2 == p && b / 32 % 2 == t && b / 8 % 4 == q
            && b / 4 % 2 == w && b / 2 % 2 == c && b % 2 == 0
  {
    var b := u * 128 + p * 64 + t * 32 + q * 8 + w * 4 + c * 2;
    assert b / 64 == u * 2 + p;
    assert b / 32 == u * 4 + p * 2 + t;
    assert b / 8 == u * 16 + p * 8 + t * 4 + q;
    assert b / 4 == u * 32 + p * 16 + t * 8 + q * 2 + w;
    assert b / 2 == u * 64 + p * 32 + t * 16 + q * 4 + w * 2 + c;
  }

  lemma FlagsParsed(b: byte, f: ConnectFlags)
    requires b / 128 == Bit(f.username) && b / 64 % 2 == Bit(f.password) && b / 32 % 2 == Bit(f.retain)
    requires b / 8 % 4 == QosCode(f.qos) && b / 4 % 2 == Bit(f.will) && b / 2 % 2 == Bit(f.clean) && b % 2 == 0
    ensures ParseFlags(b) == Some(f)
  {
    hide Bit, QosOf, QosCode;
    QosRoundTrip(f.qos);
    BitRoundTrip(f.username);
    BitRoundTrip(f.password);
    BitRoundTrip(f.retain);
    BitRoundTrip(f.will);
    BitRoundTrip(f.clean);
  }

  lemma FlagsRoundTrip(f: ConnectFlags)
    ensures ParseFlags(FlagsByte(f)) == Some(f)
  {
    hide Bit, QosCode, ParseFlags;
    FlagBits(Bit(f.username), Bit(f.password), Bit(f.retain), QosCode(f.qos), Bit(f.will), Bit(f.clean));
    FlagsParsed(FlagsByte(f), f);
  }

  lemma BitRoundTrip(b: bool)
    ensures Bit(b) == 1 <==> b
  {
  }

  lemma QosRoundTrip(q: QoS)
    ensures QosOf(QosCode(q)) == Some(q)
  {
  }

  // The digits of an options byte, one division at a time.
  lemma HalfOfQuarter(b: byte)
    ensures b / 4 == b / 4 % 2 + 2 * (b / 8)
  {
    assert b / 4 / 2 == b / 8;
  }

  lemma HalfOfEighth(b: byte)
    ensures b / 8 == b / 8 % 2 + 2 * (b / 16)
  {
    assert b / 8 / 2 == b / 16;
  }

  lemma QuarterOfSixteenth(b: byte)
    requires b / 64 == 0
    ensures b / 16 == b / 16 % 4
  {
    assert b < 64;
  }

  lemma SumOfDigits(b: nat, d0: nat, q4: nat, d2: nat, q8: nat, d3: nat, q16: nat)
    requires b == 4 * q4 + d0 && q4 == d2 + 2 * q8 && q8 == d3 + 2 * q16
    ensures b == d0 + d2 * 4 + d3 * 8 + q16 * 16
  {
  }

  lemma OptionDigits(b: byte)
    requires b / 64 == 0
    ensures b == b % 4 + b / 4 % 2 * 4 + b / 8 % 2 * 8 + b / 16 % 4 * 16
  {
    HalfOfQuarter(b);
    HalfOfEighth(b);
    QuarterOfSixteenth(b);
    SumOfDigits(b, b % 4, b / 4, b / 4 % 2, b / 8, b / 8 % 2, b / 16);
  }

  lemma BitOf(n: nat)
    requires n <= 1
    ensures Bit(n == 1) == n
  {
  }

  lemma OptionsByteRead(b: byte, r: bytes)
    requires ParseOptions([b] + r).Ok?
    ensures var o := ParseOptions([b] + r).value;
            && b / 64 == 0 && QosCode(o.qos) == b % 4 && Bit(o.noLocal) == b / 4 % 2
            && Bit(o.retainAsPublished) == b / 8 % 2 && o.retainHandling == b / 16 % 4 && o.retainHandling <= 2
    ensures ParseOptions([b] + r).rest == r
  {
    hide Bit, QosCode, QosOf;
    BitOf(b / 4 % 2);
    BitOf(b / 8 % 2);
    assert ([b] + r)[1..] == r;
  }

  lemma OptionsRoundTrip(o: SubOptions, r: bytes)
    requires o.retainHandling <= 2
    ensures ParseOptions([OptionsByte(o)] + r) == Ok(o, r)
  {
    assert ([OptionsByte(o)] + r)[1..] == r;
  }

  lemma NonEmptyOptions(s: bytes)
    requires ParseOptions(s).Ok?
    ensures s != []
  {
  }

  lemma OptionsExact(s: bytes)
    requires ParseOptions(s).Ok?
    ensures var p := ParseOptions(s);
            p.value.retainHandling <= 2 && s == [OptionsByte(p.value)] + p.rest
  {
    hide ParseOptions, Bit, QosCode;
    NonEmptyOptions(s);
    assert s == [s[0]] + s[1..];
    OptionsByteRead(s[0], s[1..]);
    OptionDigits(s[0]);
  }

  // -------------------------------------------------------------- subscription entries

  lemma EntryExact(w: bool, s: bytes)
    requires ParseEntry(w, s).Ok?
    ensures var p := ParseEntry(w, s);
            EntryFits(p.value) && s == EncodeEntry(p.value) + p.rest && p.value.options.Some? == w
  {
    hide ParseBinary, EncodeBinary, ParseOptions, ValidUtf8, OptionsByte;
    BinaryExact(s);
    var t := ParseText(s);
    if w {
      OptionsExact(t.rest);
      var o := ParseOptions(t.rest);
      Associate(EncodeBinary(t.value), [OptionsByte(o.value)], o.rest);
    } else {
      assert EncodeBinary(t.value) + [] == EncodeBinary(t.value);
    }
  }

  lemma EntryRoundTrip(e: Entry, r: bytes)
    requires EntryFits(e)
    ensures ParseEntry(e.options.Some?, EncodeEntry(e) + r) == Ok(e, r)
  {
    hide ParseText, EncodeBinary, ValidUtf8, Short, ParseOptions, OptionsByte;
    var o := if e.options.Some? then [OptionsByte(e.options.value)] else [];
    Associate(EncodeBinary(e.filter), o, r);
    BinaryRoundTrip(e.filter, o + r);
    if e.options.Some? {
      OptionsRoundTrip(e.options.value, r);
    } else {
      Unchanged(r);
    }
  }

  /** Rewriting the entries of an accepted payload reproduces its bytes, so the length
      of the slice is the exact size. */
  lemma {:induction false} EntriesExact(w: bool, s: bytes)
    requires ParseEntries(w, s).Some?
    ensures EncodeEntries(ParseEntries(w, s).value) == s
    ensures forall i :: 0 <= i < |ParseEntries(w, s).value| ==>
                          EntryFits(ParseEntries(w, s).value[i]) && ParseEntries(w, s).value[i].options.Some? == w
    decreases |s|
  {
    hide ParseEntry, EncodeEntry, EntryFits;
    if s == [] {
    } else {
      var p := ParseEntry(w, s);
      EntryExact(w, s);
      EntryNonEmpty(p.value);
      EntriesExact(w, p.rest);
      var es := ParseEntries(w, s).value;
      assert es[1..] == ParseEntries(w, p.rest).value;
    }
  }

  /** Every non-empty list of entries is the list of some accepted payload. */
  lemma {:induction false} EntriesRoundTrip(w: bool, es: seq<Entry>)
    requires forall i :: 0 <= i < |es| ==> EntryFits(es[i]) && es[i].options.Some? == w
    ensures ParseEntries(w, EncodeEntries(es)) == Some(es)
  {
    hide ParseEntry, EncodeEntry;
    if es == [] {
    } else {
      EntriesRoundTrip(w, es[1..]);
      EntryRoundTrip(es[0], EncodeEntries(es[1..]));
      EntryNonEmpty(es[0]);
      assert es == [es[0]] + es[1..];
    }
  }

  lemma EntryNonEmpty(e: Entry)
    requires EntryFits(e)
    ensures EncodeEntry(e) != []
  {
  }

  // -------------------------------------------------------------------------- sizes

  predicate HasProps<U>(p: Packet<U>) {
    !p.Pingreq? && !p.Pingresp?
  }

  /** What can be written has a size. */
  lemma WritableSized(p: Viewed)
    requires Writable(p)
    ensures PacketSized(p) && PropsSized(p)
  {
    hide SectionIds, FieldsSize, TypeOf;
  }

  /** A body within the limit has its sections within the limit. */
  lemma SectionsWithinLimit(p: Viewed)
    requires PropsSized(p) && BodySize(p) <= VARIABLE_INTEGER_MAX
    ensures PacketSized(p)
  {
    hide SectionIds, FieldsSize, TypeOf, FieldsSized;
    if ShortDisconnect(p) {
      EmptySectionSize(SectionIds(TypeOf(p)));
    }
  }

  lemma PropsExact(p: Viewed)
    requires HasProps(p) && PacketTyped(p) && PacketSized(p)
    ensures |EncodeProps(p)| == PropsSize(p)
  {
    hide SectionSized, SectionTyped, SectionIds;
    SectionExact(SectionIds(TypeOf(p)), p.props);
  }

  lemma WillExact(p: Viewed)
    requires p.Connect? && PacketTyped(p) && PacketSized(p)
    ensures |EncodeWill(p.will)| == WillSize(p.will)
  {
    hide SectionIds, EncodeSection, SectionTyped, SectionSized;
    if p.will.Some? {
      SectionExact(WILL_IDS, p.will.value.props);
    }
  }

  lemma EntryListExact(p: Viewed)
    requires PacketTyped(p)
    ensures p.Subscribe? ==> EncodeEntries(EntryList(true, p.entries)) == p.entries
    ensures p.Unsubscribe? ==> EncodeEntries(EntryList(false, p.entries)) == p.entries
  {
    hide SectionIds, SectionTyped, ParseEntries, EncodeEntries;
    if p.Subscribe? {
      EntriesExact(true, p.entries);
    }
    if p.Unsubscribe? {
      EntriesExact(false, p.entries);
    }
  }

  /** The body size that is computed, wherever it is, is the number of bytes of the
      body. */
  lemma BodyExact(p: Viewed)
    requires PacketTyped(p) && PacketSized(p)
    ensures |EncodeBody(p)| == BodySize(p)
  {
    hide PacketTyped, PacketSized, EncodeProps, EncodeWill, PropsSize, WillSize, FlagsByte, EncodeEntries, EntryList,
      FlagsOf, SectionIds;
    EntryListExact(p);
    if HasProps(p) {
      PropsExact(p);
    }
    if p.Connect? {
      WillExact(p);
    }
  }

  /** binary_size is exact: what it computes is what write appends, for every packet
      on which it does not panic. */
  lemma PacketExact(p: Viewed)
    requires PacketTyped(p) && PropsSized(p) && BodySize(p) <= VARIABLE_INTEGER_MAX
    ensures |EncodePacket(p)| == PacketSize(p)
  {
    SectionsWithinLimit(p);
    hide PacketTyped, PacketSized, PropsSized, BodySize, EncodeBody, EncodeVar, HeaderByte;
    BodyExact(p);
    EncodeVarShape(BodySize(p));
  }

  lemma WellFormedExact(p: Viewed)
    requires WellFormed(p)
    ensures BodySize(p) <= VARIABLE_INTEGER_MAX && |EncodeBody(p)| == BodySize(p)
    ensures |EncodePacket(p)| == PacketSize(p)
  {
    hide PacketTyped, Writable, Readable, BodySize, EncodeBody, EncodePacket, PacketSized, PropsSized;
    WritableSized(p);
    BodyExact(p);
    PacketExact(p);
  }

  // --------------------------------------------------------------------- round trip

  /** The parser delivered a packet that views as `p`. */
  ghost predicate Delivers(r: Parse<Raw>, p: Viewed) {
    r.Ok? && View(r.value) == p && TailsOk(r.value)
  }

  lemma PropsRead(p: Viewed, r: bytes)
    requires HasProps(p) && WellFormed(p)
    ensures var q := ParseSection(SectionIds(TypeOf(p)), EncodeProps(p) + r);
            q.Ok? && q.rest == r && ViewSection(q.value) == p.props && TailsValid(q.value)
  {
    SectionIdsKnown(TypeOf(p));
    hide BodySize, FieldsSize, SectionTyped, SectionWritable, KnownIds, ParseSection, EncodeSection;
    SectionRoundTrip(SectionIds(TypeOf(p)), p.props, r);
  }

  lemma WillTyped(p: Viewed)
    requires p.Connect? && p.will.Some? && WellFormed(p)
    ensures var w := p.will.value;
            && SectionTyped(WILL_IDS, w.props) && SectionWritable(WILL_IDS, w.props)
            && ValidUtf8(w.topic) && Short(w.topic) && Short(w.payload)
  {
    hide SectionTyped, SectionWritable, SectionIds, ValidUtf8, BodySize, Short;
  }

  lemma WillValueRead(w: Will<seq<Pair>>, r: bytes)
    requires SectionTyped(WILL_IDS, w.props) && SectionWritable(WILL_IDS, w.props)
    requires ValidUtf8(w.topic) && Short(w.topic) && Short(w.payload)
    ensures var q := ParseWill(true, w.qos, w.retain, EncodeWill(Some(w)) + r);
            && q.Ok? && q.rest == r && ViewWillOpt(q.value) == Some(w)
            && q.value.Some? && TailsValid(q.value.value.props)
  {
    SectionIdsKnown(TConnect);
    hide SectionTyped, SectionWritable, KnownIds, ParseSection, EncodeSection, ViewSection, TailsValid, ParseText,
      ParseBinary, EncodeBinary, ValidUtf8, Short;
    var s, t, l := EncodeSection(WILL_IDS, w.props), EncodeBinary(w.topic), EncodeBinary(w.payload);
    Associate(s, t + l, r);
    Associate(t, l, r);
    SectionRoundTrip(WILL_IDS, w.props, t + (l + r));
    BinaryRoundTrip(w.topic, l + r);
    BinaryRoundTrip(w.payload, r);
  }

  lemma WillRead(p: Viewed, r: bytes)
    requires p.Connect? && WellFormed(p)
    ensures var f := FlagsOf(p);
            var q := ParseWill(f.will, f.qos, f.retain, EncodeWill(p.will) + r);
            q.Ok? && q.rest == r && ViewWillOpt(q.value) == p.will
            && (q.value.Some? ==> TailsValid(q.value.value.props))
  {
    hide WellFormed, ParseSection, EncodeSection, ViewSection, TailsValid, SectionTyped, SectionWritable, ValidUtf8,
      ParseText, ParseBinary, EncodeBinary;
    if p.will.Some? {
      WillTyped(p);
      WillValueRead(p.will.value, r);
    } else {
      Unchanged(r);
    }
  }

  lemma Unchanged(r: bytes)
    ensures [] + r == r && r + [] == r
  {
  }

  lemma OptRead(o: Option<bytes>, r: bytes)
    requires OptShort(o)
    ensures ParseOptBinary(o.Some?, EncodeOpt(o) + r) == Ok(o, r)
    ensures TextTyped(o) ==> ParseOptText(o.Some?, EncodeOpt(o) + r) == Ok(o, r)
  {
    hide ParseText, ParseBinary, EncodeBinary;
    if o.Some? {
      BinaryRoundTrip(o.value, r);
    } else {
      Unchanged(r);
    }
  }

  lemma ReasonsTyped(p: Viewed)
    requires WellFormed(p)
    ensures p.Auth? ==> ReasonOk(RAuth, p.reason)
    ensures p.Connack? ==> ReasonOk(RConnack, p.reason)
    ensures p.Disconnect? ==> ReasonOk(RDisconnect, p.reason)
    ensures p.Ack? ==> 0 < p.id < 0x1_0000 && ReasonOk(RAck(p.kind), p.reason)
  {
    hide SectionTyped, SectionIds, ReasonOk, BodySize;
  }

  lemma ListsTyped(p: Viewed)
    requires WellFormed(p)
    ensures p.Suback? ==> 0 < p.id < 0x1_0000 && ReasonsOk(RSuback, p.reasons)
    ensures p.Unsuback? ==> 0 < p.id < 0x1_0000 && ReasonsOk(RUnsuback, p.reasons)
    ensures p.Subscribe? ==> 0 < p.id < 0x1_0000 && EntriesValid(true, p.entries)
                             && EncodeEntries(EntryList(true, p.entries)) == p.entries
    ensures p.Unsubscribe? ==> 0 < p.id < 0x1_0000 && EntriesValid(false, p.entries)
                               && EncodeEntries(EntryList(false, p.entries)) == p.entries
  {
    hide SectionTyped, SectionIds, ReasonsOk, EntriesValid, EncodeEntries, EntryList, BodySize;
    EntryListExact(p);
  }

  lemma ConnectTyped(p: Viewed)
    requires p.Connect? && WellFormed(p)
    ensures p.keepAlive < 0x1_0000 && ValidUtf8(p.clientId) && Short(p.clientId)
    ensures TextTyped(p.username) && OptShort(p.username) && OptShort(p.password)
  {
    hide SectionTyped, SectionIds, ValidUtf8, BodySize;
  }

  lemma BehindFirst(b: byte, s: bytes)
    ensures ([b] + s)[0] == b && ([b] + s)[1..] == s
  {
  }

  lemma AuthRoundTrip(p: Viewed, junk: bytes)
    requires p.Auth? && WellFormed(p)
    ensures Delivers(ParseBody(TypeOf(p), EncodeBody(p) + junk), p)
  {
    hide WellFormed, ParseSection, EncodeProps, ViewSection, TailsValid, SectionIds, ReasonOk;
    PropsRead(p, junk);
    ReasonsTyped(p);
    Associate([p.reason], EncodeProps(p), junk);
    BehindFirst(p.reason, EncodeProps(p) + junk);
  }

  lemma ConnackRoundTrip(p: Viewed, junk: bytes)
    requires p.Connack? && WellFormed(p)
    ensures Delivers(ParseBody(TypeOf(p), EncodeBody(p) + junk), p)
  {
    hide WellFormed, ParseSection, EncodeProps, ViewSection, TailsValid, SectionIds, ReasonOk;
    PropsRead(p, junk);
    ReasonsTyped(p);
    BehindTwo(Bit(p.sessionPresent) * 128, p.reason, EncodeProps(p), junk);
  }

  lemma BehindTwo(a: byte, b: byte, s: bytes, t: bytes)
    ensures var all := [a, b] + s + t;
            all[0] == a && all[1..] == [b] + (s + t) && all[1..][0] == b && all[1..][1..] == s + t
  {
  }

  lemma DisconnectRoundTrip(p: Viewed, junk: bytes)
    requires p.Disconnect? && WellFormed(p) && (ShortDisconnect(p) ==> junk == [])
    ensures Delivers(ParseBody(TypeOf(p), EncodeBody(p) + junk), p)
  {
    hide WellFormed, ParseSection, EncodeProps, ViewSection, TailsValid, SectionIds, ReasonOk;
    if ShortDisconnect(p) {
      EmptySectionView();
    } else {
      PropsRead(p, junk);
      PropsNonEmpty(p);
      ReasonsTyped(p);
      Associate([p.reason], EncodeProps(p), junk);
      BehindFirst(p.reason, EncodeProps(p) + junk);
    }
  }

  lemma EmptySectionView()
    ensures ViewSection(map[]) == map[] && TailsValid(map[])
  {
  }

  lemma PropsNonEmpty(p: Viewed)
    requires HasProps(p) && WellFormed(p)
    ensures EncodeProps(p) != []
  {
    EncodeVarShape(FieldsSize(SectionIds(TypeOf(p)), p.props));
  }

  lemma AckRoundTrip(p: Viewed, junk: bytes)
    requires p.Ack? && WellFormed(p)
    ensures Delivers(ParseBody(TypeOf(p), EncodeBody(p) + junk), p)
  {
    hide WellFormed, ParseSection, EncodeProps, ViewSection, TailsValid, SectionIds, ReasonOk, ParseU16, EncodeU16;
    PropsRead(p, junk);
    PropsNonEmpty(p);
    ReasonsTyped(p);
    Associate(EncodeU16(p.id), [p.reason] + EncodeProps(p), junk);
    Associate([p.reason], EncodeProps(p), junk);
    U16RoundTrip(p.id, [p.reason] + (EncodeProps(p) + junk));
    BehindFirst(p.reason, EncodeProps(p) + junk);
  }

  lemma PublishTyped(p: Viewed)
    requires p.Publish? && WellFormed(p)
    ensures ValidUtf8(p.topic) && Short(p.topic) && SaneTopic(p.topic)
    ensures (p.pid.Some? <==> p.qos != AtMostOnce) && (p.pid.Some? ==> 0 < p.pid.value < 0x1_0000)
  {
    hide SectionTyped, SectionWritable, SectionIds, ValidUtf8, BodySize, Short;
  }

  lemma PublishRoundTrip(p: Viewed)
    requires p.Publish? && WellFormed(p)
    ensures Delivers(ParseBody(TypeOf(p), EncodeBody(p)), p)
  {
    hide WellFormed, ParseSection, EncodeProps, ViewSection, TailsValid, SectionIds, ParseU16, EncodeU16, ParseText,
      EncodeBinary, ValidUtf8, Short, SaneTopic;
    PublishTyped(p);
    var e := EncodeProps(p) + p.payload;
    PropsRead(p, p.payload);
    BinaryRoundTrip(p.topic, EncodePid(p.pid) + e);
    if p.pid.Some? {
      U16RoundTrip(p.pid.value, e);
    } else {
      Unchanged(e);
    }
  }

  lemma IdSectionRead(p: Viewed, id: nat, r: bytes)
    requires HasProps(p) && WellFormed(p) && 0 < id < 0x1_0000
    ensures var q := ParseIdSection(SectionIds(TypeOf(p)), EncodeU16(id) + (EncodeProps(p) + r));
            q.Ok? && q.rest == r && q.value.0 == id && ViewSection(q.value.1) == p.props && TailsValid(q.value.1)
  {
    PropsRead(p, r);
    U16RoundTrip(id, EncodeProps(p) + r);
    hide ParseSection, EncodeProps, ViewSection, TailsValid, SectionIds, ParseU16, EncodeU16;
  }

  lemma ListRoundTrip(p: Viewed)
    requires (p.Suback? || p.Unsuback? || p.Subscribe? || p.Unsubscribe?) && WellFormed(p)
    ensures Delivers(ParseBody(TypeOf(p), EncodeBody(p)), p)
  {
    hide WellFormed, ParseIdSection, EncodeProps, ViewSection, TailsValid, SectionIds, ReasonsOk, EntriesValid,
      EncodeEntries, EncodeU16, EntryList;
    ReasonsTyped(p);
    ListsTyped(p);
    IdSectionRead(p, p.id, if p.Suback? || p.Unsuback? then p.reasons else p.entries);
  }

  lemma ProtocolNameValid()
    ensures ValidUtf8(PROTOCOL_NAME)
  {
    var s: bytes := PROTOCOL_NAME;
    assert ValidUtf8(s[4..]);
    assert s[3..][1..] == s[4..] && ValidUtf8(s[3..]);
    assert s[2..][1..] == s[3..] && ValidUtf8(s[2..]);
    assert s[1..][1..] == s[2..] && ValidUtf8(s[1..]);
  }

  lemma ConnectHeadRoundTrip(f: ConnectFlags, r: bytes)
    ensures ParseConnectHead(EncodeConnectHead(f) + r) == Ok(f, r)
  {
    var b := FlagsByte(f);
    ProtocolNameValid();
    BinaryRoundTrip(PROTOCOL_NAME, [5, b] + r);
    FlagsRoundTrip(f);
    hide ParseText, EncodeBinary, ParseFlags, FlagsByte, ValidUtf8;
    Associate(EncodeBinary(PROTOCOL_NAME), [5, b], r);
    assert ([5, b] + r)[1..] == [b] + r && ([b] + r)[1..] == r;
  }

  lemma AssociateSix(a: bytes, b: bytes, c: bytes, d: bytes, e: bytes, f: bytes, r: bytes)
    ensures (a + (b + (c + (d + (e + f))))) + r == a + (b + (c + (d + (e + (f + r)))))
  {
  }

  lemma ConnectTailRoundTrip(p: Viewed, junk: bytes)
    requires p.Connect? && WellFormed(p)
    ensures Delivers(ParseConnectTail(FlagsOf(p), EncodeConnectTail(p) + junk), p)
  {
    hide WellFormed, ParseSection, EncodeProps, ViewSection, TailsValid, SectionIds, ParseU16, EncodeU16, ParseText,
      EncodeBinary, ParseWill, EncodeWill, ParseOptText, ParseOptBinary, EncodeOpt, ViewWillOpt, ValidUtf8, TextTyped,
      OptShort;
    ConnectTyped(p);
    AssociateSix(EncodeU16(p.keepAlive), EncodeProps(p), EncodeBinary(p.clientId), EncodeWill(p.will),
                 EncodeOpt(p.username), EncodeOpt(p.password), junk);
    var password := EncodeOpt(p.password) + junk;
    var username := EncodeOpt(p.username) + password;
    var will := EncodeWill(p.will) + username;
    var client := EncodeBinary(p.clientId) + will;
    U16RoundTrip(p.keepAlive, EncodeProps(p) + client);
    PropsRead(p, client);
    BinaryRoundTrip(p.clientId, will);
    WillRead(p, username);
    OptRead(p.username, password);
    OptRead(p.password, junk);
  }

  lemma ConnectRoundTrip(p: Viewed, junk: bytes)
    requires p.Connect? && WellFormed(p)
    ensures Delivers(ParseBody(TypeOf(p), EncodeBody(p) + junk), p)
  {
    hide WellFormed, ParseConnectHead, ParseConnectTail, EncodeConnectHead, EncodeConnectTail, Delivers;
    ConnectTailRoundTrip(p, junk);
    Associate(EncodeConnectHead(FlagsOf(p)), EncodeConnectTail(p), junk);
    ConnectHeadRoundTrip(FlagsOf(p), EncodeConnectTail(p) + junk);
  }

  lemma BodyRoundTrip(p: Viewed)
    requires WellFormed(p)
    ensures Delivers(ParseBody(TypeOf(p), EncodeBody(p)), p)
  {
    if p.Pingreq? || p.Pingresp? {
      assert View(if p.Pingreq? then Pingreq else Pingresp) == p;
    } else {
      hide WellFormed, ParseBody, EncodeBody, Delivers;
      Unchanged(EncodeBody(p));
      match p
      case Auth(_, _) => AuthRoundTrip(p, []);
      case Connack(_, _, _) => ConnackRoundTrip(p, []);
      case Connect(_, _, _, _, _, _, _) => ConnectRoundTrip(p, []);
      case Disconnect(_, _) => DisconnectRoundTrip(p, []);
      case Ack(_, _, _, _) => AckRoundTrip(p, []);
      case Publish(_, _, _, _, _, _, _) => PublishRoundTrip(p);
      case Suback(_, _, _) => ListRoundTrip(p);
      case Unsuback(_, _, _) => ListRoundTrip(p);
      case Subscribe(_, _, _) => ListRoundTrip(p);
      case Unsubscribe(_, _, _) => ListRoundTrip(p);
    }
  }

  /** Bytes behind the last field of a body are dropped where the parser does not read to
      the end: in AUTH, CONNACK, CONNECT, DISCONNECT and the PUBACK family, apart from the
      short form of DISCONNECT, whose next byte would be a reason. */
  lemma TrailingDropped(p: Viewed, junk: bytes)
    requires WellFormed(p) && (p.Auth? || p.Connack? || p.Connect? || p.Disconnect? || p.Ack?)
    requires ShortDisconnect(p) ==> junk == []
    ensures Delivers(ParseBody(TypeOf(p), EncodeBody(p) + junk), p)
  {
    hide WellFormed, ParseBody, EncodeBody, Delivers;
    match p
    case Auth(_, _) => AuthRoundTrip(p, junk);
    case Connack(_, _, _) => ConnackRoundTrip(p, junk);
    case Connect(_, _, _, _, _, _, _) => ConnectRoundTrip(p, junk);
    case Disconnect(_, _) => DisconnectRoundTrip(p, junk);
    case Ack(_, _, _, _) => AckRoundTrip(p, junk);
  }

  lemma Framed(t: PacketType, body: bytes, r: bytes)
    requires |body| <= VARIABLE_INTEGER_MAX
    ensures ParsePacket([HeaderByte(t)] + (EncodeVar(|body|) + body) + r) ==
            match ParseBody(t, body) case Fail => Fail case Ok(p, _) => Ok(p, r)
  {
    hide ParseHeader, HeaderByte, ParseBody, ParseVar, EncodeVar;
    HeaderRoundTrip(t);
    VarRoundTrip(|body|, body + r);
    Associate([HeaderByte(t)], EncodeVar(|body|) + body, r);
    Associate(EncodeVar(|body|), body, r);
    BehindFirst(HeaderByte(t), EncodeVar(|body|) + (body + r));
    SplitAfter(body, r);
  }

  /** Writing a well-formed packet of any kind and parsing it in front of any further
      bytes gives the packet back and leaves exactly these bytes. */
  lemma PacketRoundTrip(p: Viewed, r: bytes)
    requires WellFormed(p)
    ensures Delivers(ParsePacket(EncodePacket(p) + r), p)
    ensures ParsePacket(EncodePacket(p) + r).rest == r
  {
    BodyRoundTrip(p);
    WellFormedExact(p);
    Framed(TypeOf(p), EncodeBody(p), r);
    hide WellFormed, ParseBody, EncodeBody, ParsePacket, BodySize, View, TailsOk;
  }

  // ------------------------------------------------------------------ normalisation

  /** A parsed packet of type `t` that is well-formed and takes at most `n` bytes. */
  ghost predicate Normal(t: PacketType, n: nat, p: Raw) {
    && TypeOf(p) == t && TailsOk(p)
    && PacketTyped(View(p)) && Writable(View(p)) && Readable(p) && BodySize(View(p)) <= n
  }

  /** What parsing a section guarantees, by its view. */
  ghost predicate SectionFine(ids: seq<nat>, lazy: Lazy, n: nat) {
    && SectionTyped(ids, ViewSection(lazy)) && SectionWritable(ids, ViewSection(lazy)) && TailsValid(lazy)
    && SectionSize(ids, ViewSection(lazy)) <= n
  }

  lemma SectionParsed(t: PacketType, s: bytes)
    ensures var q := ParseSection(SectionIds(t), s);
            q.Ok? ==> |q.rest| <= |s| && SectionFine(SectionIds(t), q.value, |s| - |q.rest|)
    ensures var q := ParseSection(WILL_IDS, s);
            q.Ok? ==> |q.rest| <= |s| && SectionFine(WILL_IDS, q.value, |s| - |q.rest|)
  {
    hide SectionIds, ParseSection, KnownIds, SectionTyped, SectionWritable, TailsValid, ViewSection, FieldsSize;
    SectionIdsKnown(t);
    if ParseSection(SectionIds(t), s).Ok? {
      SectionNormal(SectionIds(t), s);
    }
    if ParseSection(WILL_IDS, s).Ok? {
      SectionNormal(WILL_IDS, s);
    }
  }

  lemma EmptySectionFine(ids: seq<nat>)
    ensures SectionFine(ids, map[], 1)
  {
    EmptySectionSize(ids);
    EmptySectionView();
  }

  lemma AuthNormal(s: bytes)
    requires ParseAuth(s).Ok?
    ensures Normal(TAuth, |s|, ParseAuth(s).value)
  {
    hide SectionIds, ParseSection, SectionTyped, SectionWritable, TailsValid, ViewSection, SectionSize, ReasonOk;
    SectionParsed(TAuth, s[1..]);
  }

  lemma ConnackNormal(s: bytes)
    requires ParseConnack(s).Ok?
    ensures Normal(TConnack, |s|, ParseConnack(s).value)
  {
    hide SectionIds, ParseSection, SectionTyped, SectionWritable, TailsValid, ViewSection, SectionSize, ReasonOk;
    SectionParsed(TConnack, s[1..][1..]);
  }

  lemma SectionOrEmptyParsed(t: PacketType, s: bytes)
    requires ParseSectionOrEmpty(SectionIds(t), s).Ok?
    ensures var q := ParseSectionOrEmpty(SectionIds(t), s);
            |q.rest| <= |s| && SectionFine(SectionIds(t), q.value, if s == [] then 1 else |s| - |q.rest|)
  {
    hide SectionIds, ParseSection, SectionFine;
    SectionParsed(t, s);
    EmptySectionFine(SectionIds(t));
  }

  lemma ZeroReasons(k: AckKind)
    ensures ReasonOk(RAck(k), 0) && ReasonOk(RDisconnect, 0)
  {
  }

  lemma DisconnectNormal(s: bytes)
    requires ParseDisconnect(s).Ok?
    ensures Normal(TDisconnect, if |s| < 2 then 2 else |s|, ParseDisconnect(s).value)
  {
    hide SectionIds, ParseSectionOrEmpty, SectionTyped, SectionWritable, TailsValid, ViewSection, SectionSize, ReasonOk;
    ZeroReasons(Puback);
    SectionOrEmptyParsed(TDisconnect, ParseReasonOrZero(RDisconnect, s).rest);
  }

  lemma AckNormal(k: AckKind, s: bytes)
    requires ParseAck(k, s).Ok?
    ensures Normal(TAck(k), if |s| < 4 then 4 else |s|, ParseAck(k, s).value)
  {
    hide SectionIds, ParseSectionOrEmpty, SectionTyped, SectionWritable, TailsValid, ViewSection, SectionSize, ReasonOk,
      EncodeU16, ParseU16;
    ZeroReasons(k);
    U16Exact(s);
    U16Length(s);
    SectionOrEmptyParsed(TAck(k), ParseReasonOrZero(RAck(k), ParseU16(s).rest).rest);
  }

  lemma U16Length(s: bytes)
    requires ParseU16(s).Ok?
    ensures |s| == 2 + |ParseU16(s).rest|
  {
  }

  lemma TextLength(s: bytes)
    requires ParseBinary(s).Ok?
    ensures var q := ParseBinary(s); |s| == 2 + |q.value| + |q.rest| && Short(q.value)
    ensures var q := ParseText(s); q.Ok? ==> |s| == 2 + |q.value| + |q.rest| && Short(q.value) && ValidUtf8(q.value)
  {
    BinaryExact(s);
  }

  lemma PublishNormal(dup: bool, qos: QoS, retain: bool, s: bytes)
    requires ParsePublish(dup, qos, retain, s).Ok?
    ensures Normal(TPublish(dup, qos, retain), |s|, ParsePublish(dup, qos, retain, s).value)
  {
    hide SectionIds, ParseSection, SectionTyped, SectionWritable, TailsValid, ViewSection, SectionSize, ValidUtf8,
      ParseBinary, ParseU16;
    TextLength(s);
    var r := ParseText(s).rest;
    if qos == AtMostOnce {
      SectionParsed(TPublish(dup, qos, retain), r);
    } else {
      U16Exact(r);
      U16Length(r);
      SectionParsed(TPublish(dup, qos, retain), ParseU16(r).rest);
    }
  }

  lemma IdSectionParsed(t: PacketType, s: bytes)
    requires ParseIdSection(SectionIds(t), s).Ok?
    ensures var q := ParseIdSection(SectionIds(t), s);
            && 0 < q.value.0 < 0x1_0000 && 2 + |q.rest| <= |s|
            && SectionFine(SectionIds(t), q.value.1, |s| - |q.rest| - 2)
  {
    hide SectionIds, ParseSection, SectionFine, ParseU16, EncodeU16;
    U16Exact(s);
    U16Length(s);
    SectionParsed(t, ParseU16(s).rest);
  }

  lemma ListNormal(t: PacketType, s: bytes)
    requires t.TSuback? || t.TUnsuback? || t.TSubscribe? || t.TUnsubscribe?
    requires ParseBody(t, s).Ok?
    ensures Normal(t, |s|, ParseBody(t, s).value)
  {
    hide SectionIds, ParseIdSection, SectionTyped, SectionWritable, TailsValid, ViewSection, SectionSize, ReasonsOk,
      EntriesValid, ParseAuth, ParseConnack, ParseConnect, ParseDisconnect, ParsePublish, ParseAck;
    IdSectionParsed(t, s);
  }

  lemma ConnectHeadLength(s: bytes)
    requires ParseConnectHead(s).Ok?
    ensures |s| == 8 + |ParseConnectHead(s).rest|
  {
    hide ParseFlags, ParseBinary, ValidUtf8;
    TextLength(s);
  }

  lemma WillParsed(present: bool, qos: QoS, retain: bool, s: bytes)
    requires ParseWill(present, qos, retain, s).Ok?
    ensures var q := ParseWill(present, qos, retain, s);
            && q.value.Some? == present && |q.rest| + WillSize(ViewWillOpt(q.value)) <= |s|
            && (present ==>
                  var w := q.value.value;
                  && SectionTyped(WILL_IDS, ViewSection(w.props)) && SectionWritable(WILL_IDS, ViewSection(w.props))
                  && TailsValid(w.props) && ValidUtf8(w.topic) && Short(w.topic) && Short(w.payload))
  {
    hide ParseSection, SectionTyped, SectionWritable, TailsValid, ViewSection, SectionSize, ValidUtf8, ParseBinary,
      SectionIds;
    if present {
      SectionParsed(TConnect, s);
      var r := ParseSection(WILL_IDS, s).rest;
      TextLength(r);
      TextLength(ParseText(r).rest);
    }
  }

  lemma OptParsed(present: bool, s: bytes)
    ensures var q := ParseOptBinary(present, s);
            q.Ok? ==> |s| == OptSize(q.value) + |q.rest| && OptShort(q.value)
    ensures var q := ParseOptText(present, s);
            q.Ok? ==> |s| == OptSize(q.value) + |q.rest| && OptShort(q.value) && TextTyped(q.value)
  {
    hide ParseBinary, ValidUtf8;
    if present && ParseBinary(s).Ok? {
      TextLength(s);
    }
  }

  lemma ConnectTailNormal(f: ConnectFlags, s: bytes)
    requires ParseConnectTail(f, s).Ok?
    ensures Normal(TConnect, 8 + |s|, ParseConnectTail(f, s).value)
  {
    hide ParseSection, SectionTyped, SectionWritable, TailsValid, ViewSection, SectionSize, ValidUtf8, ParseBinary,
      SectionIds, ParseU16, EncodeU16, ParseWill, ParseOptBinary, ParseOptText, OptSize, OptShort, TextTyped;
    U16Exact(s);
    U16Length(s);
    var r := ParseU16(s).rest;
    SectionParsed(TConnect, r);
    var r2 := ParseSection(SectionIds(TConnect), r).rest;
    TextLength(r2);
    var r3 := ParseText(r2).rest;
    WillParsed(f.will, f.qos, f.retain, r3);
    var r4 := ParseWill(f.will, f.qos, f.retain, r3).rest;
    OptParsed(f.username, r4);
    OptParsed(f.password, ParseOptText(f.username, r4).rest);
  }

  lemma ConnectNormal(s: bytes)
    requires ParseConnect(s).Ok?
    ensures Normal(TConnect, |s|, ParseConnect(s).value)
  {
    hide ParseConnectHead, ParseConnectTail, Normal;
    ConnectHeadLength(s);
    var h := ParseConnectHead(s);
    ConnectTailNormal(h.value, h.rest);
  }

  lemma PingNormal(t: PacketType, s: bytes)
    requires (t.TPingreq? || t.TPingresp?) && ParseBody(t, s).Ok?
    ensures Normal(t, |s|, ParseBody(t, s).value)
  {
    hide ParseAuth, ParseConnack, ParseConnect, ParseDisconnect, ParsePublish, ParseAck, ParseIdSection;
  }

  lemma NormalWeaken(t: PacketType, m: nat, n: nat, p: Raw)
    requires Normal(t, m, p) && m <= n
    ensures Normal(t, n, p)
  {
    hide PacketTyped, Writable, View, TailsOk;
  }

  /** An accepted body yields a well-formed packet; apart from omitted tails it never
      grows when rewritten. */
  lemma BodyNormal(t: PacketType, s: bytes)
    requires ParseBody(t, s).Ok?
    ensures Normal(t, if |s| < 4 then 4 else |s|, ParseBody(t, s).value)
  {
    hide ParseAuth, ParseConnack, ParseConnect, ParseDisconnect, ParsePublish, ParseAck, ParseIdSection, Normal;
    var n := if |s| < 4 then 4 else |s|;
    var p := ParseBody(t, s).value;
    match t
    case TAuth => AuthNormal(s); NormalWeaken(t, |s|, n, p);
    case TConnack => ConnackNormal(s); NormalWeaken(t, |s|, n, p);
    case TConnect => ConnectNormal(s); NormalWeaken(t, |s|, n, p);
    case TDisconnect => DisconnectNormal(s); NormalWeaken(t, if |s| < 2 then 2 else |s|, n, p);
    case TAck(k) => AckNormal(k, s);
    case TPublish(d, q, r) => PublishNormal(d, q, r, s); NormalWeaken(t, |s|, n, p);
    case TPingreq => PingNormal(t, s); NormalWeaken(t, |s|, n, p);
    case TPingresp => PingNormal(t, s); NormalWeaken(t, |s|, n, p);
    case _ => ListNormal(t, s); NormalWeaken(t, |s|, n, p);
  }

  lemma ParsePacketParts(s: bytes)
    requires ParsePacket(s).Ok?
    ensures s != [] && ParseHeader(s[0]).Some? && ParseVar(s[1..]).Ok?
    ensures var t, l, q := ParseHeader(s[0]).value, ParseVar(s[1..]), ParsePacket(s);
            && l.value <= |l.rest| && q.rest == l.rest[l.value..]
            && ParseBody(t, l.rest[..l.value]).Ok? && q.value == ParseBody(t, l.rest[..l.value]).value
  {
    hide ParseHeader, ParseVar, ParseBody;
  }

  /** Whatever bytes are accepted, the packet they yield is well-formed, its iterators
      cannot fail, and rewriting it takes no more bytes than were read, or the six bytes
      of an acknowledgement whose omitted tail is written out. */
  lemma PacketNormal(s: bytes)
    requires ParsePacket(s).Ok?
    ensures var q := ParsePacket(s);
            && WellFormed(View(q.value)) && TailsOk(q.value) && |q.rest| < |s|
            && PacketSize(View(q.value)) <= (if |s| - |q.rest| < 6 then 6 else |s| - |q.rest|)
  {
    hide ParsePacket, ParseBody, ParseHeader, PacketTyped, Writable, BodySize, View, TailsOk;
    ParsePacketParts(s);
    var t, l := ParseHeader(s[0]).value, ParseVar(s[1..]);
    BodyNormal(t, l.rest[..l.value]);
    ReadableView(ParsePacket(s).value);
    VarAccepted(s[1..]);
    VarSizeMonotone(BodySize(View(ParsePacket(s).value)), if l.value < 4 then 4 else l.value);
  }

  lemma ReadableView(p: Raw)
    ensures Readable(View(p)) == Readable(p)
  {
  }

  /** Write after parse is idempotent: a parsed packet, however unusual its bytes,
      survives writing and parsing again unchanged. */
  lemma Normalisation(s: bytes, r: bytes)
    requires ParsePacket(s).Ok?
    ensures var p := View(ParsePacket(s).value);
            var q := ParsePacket(EncodePacket(p) + r);
            q.Ok? && View(q.value) == p && q.rest == r && EncodePacket(View(q.value)) == EncodePacket(p)
  {
    hide ParsePacket, WellFormed, EncodePacket, TailsOk, View;
    PacketNormal(s);
    PacketRoundTrip(View(ParsePacket(s).value), r);
  }

  /** Among the packets `write` accepts, exactly the readable ones come back. */
  lemma WritableRoundTrip(p: Viewed, r: bytes)
    requires PacketTyped(p) && BodySize(p) <= VARIABLE_INTEGER_MAX && Writable(p)
    ensures var q := ParsePacket(EncodePacket(p) + r);
            q.Ok? && View(q.value) == p && q.rest == r <==> Readable(p)
  {
    hide ParsePacket, PacketTyped, Writable, EncodePacket, TailsOk, View, BodySize;
    if Readable(p) {
      PacketRoundTrip(p, r);
    }
    if ParsePacket(EncodePacket(p) + r).Ok? {
      PacketNormal(EncodePacket(p) + r);
    }
  }

  /** A topic with a wildcard is written without complaint and refused on parsing. */
  lemma WildcardTopicIsLost()
    ensures var p := Publish(false, AtMostOnce, false, [0x23], None, map[], []);
            && PacketTyped(p) && Writable(p) && BodySize(p) <= VARIABLE_INTEGER_MAX
            && ParsePacket(EncodePacket(p)).Fail?
  {
    hide ParsePacket, EncodePacket, SectionIds;
    var p: Viewed := Publish(false, AtMostOnce, false, [0x23], None, map[], []);
    EmptySectionSize(SectionIds(TypeOf(p)));
    assert p.topic[1..] == [];
    UnreadableRefused(p);
  }

  /** A PUBLISH at QoS 1 with an identifier, two user properties and a payload. */
  const SAMPLE: Viewed :=
    Publish(false, AtLeastOnce, true, [0x61], Some(7),
            map[USER_PROPERTY := Users([Pair([0x61], []), Pair([], [0x62])])], [1, 2])

  lemma SampleField()
    ensures var v := SAMPLE.props[USER_PROPERTY];
            && FieldTyped(USER_PROPERTY, v) && FieldWritable(USER_PROPERTY, v)
            && FieldSize(USER_PROPERTY, map[USER_PROPERTY := v]) == 12
  {
    var list := SAMPLE.props[USER_PROPERTY].u;
    assert PairTyped(list[0]) && PairTyped(list[1]);
    assert list[1..][1..] == [];
    assert MoreUsersSize(list[1..]) == 6;
  }

  lemma SampleSection()
    ensures SectionTyped(SectionIds(TypeOf(SAMPLE)), SAMPLE.props) && FieldsWritable(SAMPLE.props)
    ensures FieldsSize(SectionIds(TypeOf(SAMPLE)), SAMPLE.props) == 12
  {
    hide FieldTyped, FieldWritable, FieldSize, FieldsSize;
    var ids, v := SectionIds(TypeOf(SAMPLE)), SAMPLE.props[USER_PROPERTY];
    SampleField();
    assert ids[5] == USER_PROPERTY;
    SectionIdsKnown(TypeOf(SAMPLE));
    EmptySectionSize(ids);
    AbsentField();
    FieldsSizeUpdate(ids, map[], USER_PROPERTY, v);
  }

  lemma AbsentField()
    ensures FieldSize(USER_PROPERTY, map[]) == 0
  {
  }

  /** The conditions of the laws above can be met: the sample is well-formed, and its
      bytes are accepted and mean it. */
  lemma SampleIsWellFormed()
    ensures WellFormed(SAMPLE)
    ensures ParsePacket(EncodePacket(SAMPLE)).Ok? && View(ParsePacket(EncodePacket(SAMPLE)).value) == SAMPLE
  {
    hide ParsePacket, EncodePacket, SectionIds, SectionTyped, FieldsWritable, FieldsSize, View;
    SampleSection();
    assert WellFormed(SAMPLE);
    PacketRoundTrip(SAMPLE, []);
    assert EncodePacket(SAMPLE) + [] == EncodePacket(SAMPLE);
  }

  /** The bytes of an unreadable PUBLISH with a bad topic are never accepted. */
  lemma UnreadableRefused(p: Viewed)
    requires p.Publish? && PacketTyped(p) && BodySize(p) <= VARIABLE_INTEGER_MAX && Writable(p)
    requires 0x23 in p.topic || 0x2A in p.topic
    ensures ParsePacket(EncodePacket(p)).Fail?
  {
    WritableSized(p);
    BodyExact(p);
    Framed(TypeOf(p), EncodeBody(p), []);
    TopicFirst(p);
    hide PacketTyped, ParsePacket, EncodeVar, HeaderByte, EncodeProps, ParseText, EncodeBinary, BodySize;
    assert EncodePacket(p) + [] == EncodePacket(p);
  }

  lemma TopicFirst(p: Viewed)
    requires p.Publish? && PacketTyped(p) && Writable(p)
    ensures ParseText(EncodeBody(p)).Ok? && ParseText(EncodeBody(p)).value == p.topic
  {
    BinaryRoundTrip(p.topic, EncodePid(p.pid) + (EncodeProps(p) + p.payload));
  }
}
