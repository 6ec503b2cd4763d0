/** The writers: bytes appended to a growing buffer (write.rs and the `write` methods of
    every packet). Each method says exactly what it appends and when it reports an
    error, after which what the buffer held before is still in front; the encodings are
    the ones the parsers invert. */
module Writer {
  import opened Wire
  import opened Properties
  import opened Sections
  import opened Packets
  import opened PacketLaws
  import opened SectionLaws
  import opened UserProperties
  import opened Subscriptions

  lemma {:induction false} UsersOfFit(items: seq<Item>)
    requires forall i :: 0 <= i < |items| ==> ItemFits(items[i])
    ensures forall i :: 0 <= i < |UsersOf(items)| ==> PairTyped(UsersOf(items)[i]) && PairShort(UsersOf(items)[i])
  {
    hide PairTyped, PairShort;
    if items == [] {
    } else {
      UsersOfFit(items[1..]);
    }
  }

  /** Pairs that were parsed are text of writable length. */
  lemma UserListFits(tail: bytes)
    requires TailValid(tail)
    ensures UserList(tail) != []
    ensures forall i :: 0 <= i < |UserList(tail)| ==> PairTyped(UserList(tail)[i]) && PairShort(UserList(tail)[i])
  {
    hide PairTyped, PairShort, ParseItems, ParsePair, ItemFits;
    PairExact(tail);
    ParsedItemsFit(ParsePair(tail).rest);
    UsersOfFit(ParseItems(ParsePair(tail).rest).value);
  }

  /** Writing property `i`, or skipping it when absent, leaves the later ones to write. */
  lemma AppendField(before: bytes, ids: seq<nat>, i: nat, sec: Lazy)
    requires i < |ids|
    ensures var id := ids[i];
            var field := if id in sec then EncodeVar(id) + EncodeFieldValue(id, ViewValue(sec[id])) else [];
            before + EncodeFields(ids[i..], ViewSection(sec))
            == before + field + EncodeFields(ids[i + 1..], ViewSection(sec))
            && before + [] == before
  {
    hide EncodeVar, EncodeFieldValue, ViewValue;
    assert ids[i..][0] == ids[i] && ids[i..][1..] == ids[i + 1..];
  }

  lemma NoFields(before: bytes, ids: seq<nat>, sec: Eager)
    ensures before + EncodeFields(ids[|ids|..], sec) == before
  {
    assert ids[|ids|..] == [];
  }

  lemma ShortTail(p: Pair, rest: seq<Pair>)
    requires forall i :: 0 <= i < |[p] + rest| ==> PairShort(([p] + rest)[i])
    ensures PairShort(p) && forall i :: 0 <= i < |rest| ==> PairShort(rest[i])
  {
    hide PairShort;
    assert ([p] + rest)[0] == p && forall i :: 0 <= i < |rest| ==> rest[i] == ([p] + rest)[i + 1];
  }

  lemma EncodeUsersCons(p: Pair, rest: seq<Pair>)
    ensures EncodeUsers([p] + rest) == EncodePair(p) + EncodeMoreUsers(rest)
  {
    assert ([p] + rest)[1..] == rest;
  }

  lemma AppendNext(before: bytes, p: Pair, rest: seq<Pair>)
    ensures before + EncodeMoreUsers([p] + rest)
         == before + EncodeVar(USER_PROPERTY) + EncodePair(p) + EncodeMoreUsers(rest)
  {
    hide EncodeVar, EncodePair;
    assert ([p] + rest)[1..] == rest;
  }

  lemma AppendEntry(before: bytes, e: Entry, rest: seq<Entry>)
    requires EntryFits(e)
    ensures before + EncodeEntries([e] + rest) == before + EncodeEntry(e) + EncodeEntries(rest)
  {
    hide EncodeEntry, EntryFits;
    assert ([e] + rest)[1..] == rest;
  }

  lemma NoEntries()
    ensures EncodeEntries([]) == []
  {
  }

  /** A growing byte buffer. */
  class BytesMut {
    var data: bytes

    constructor ()
      ensures data == []
    {
      data := [];
    }

    /** split_to: the first `n` bytes leave the buffer. */
    method SplitTo(n: nat) returns (front: bytes)
      requires n <= |data|
      modifies this
      ensures front == old(data)[..n] && data == old(data)[n..]
    {
      front, data := data[..n], data[n..];
    }

    method WriteByte(b: byte)
      modifies this
      ensures data == old(data) + [b]
    {
      data := data + [b];
    }

    method WriteSlice(s: bytes)
      modifies this
      ensures data == old(data) + s
    {
      data := data + s;
    }

    method WriteU16(u: nat)
      requires u < 0x1_0000
      modifies this
      ensures data == old(data) + EncodeU16(u)
    {
      WriteByte(u / 256);
      WriteByte(u % 256);
    }

    method WriteU32(u: nat)
      requires u < 0x1_0000_0000
      modifies this
      ensures data == old(data) + EncodeU32(u)
    {
      var high, low := u / 0x1_0000, u % 0x1_0000;
      WriteByte(high / 256);
      WriteByte(high % 256);
      WriteByte(low / 256);
      WriteByte(low % 256);
    }

    method WriteVariableU32(u: nat) returns (ok: bool)
      modifies this
      ensures ok == (u <= VARIABLE_INTEGER_MAX)
      ensures data == old(data) + EncodeVar(u)
    {
      if u <= 127 {
        WriteByte(u);
      } else if u <= 16383 {
        WriteByte(u % 128 + 128);
        WriteByte(u / 128);
      } else if u <= 2_097_151 {
        WriteByte(u % 128 + 128);
        WriteByte(u / 128 % 128 + 128);
        WriteByte(u / (128 * 128));
      } else if u <= VARIABLE_INTEGER_MAX {
        WriteByte(u % 128 + 128);
        WriteByte(u / 128 % 128 + 128);
        WriteByte(u / (128 * 128) % 128 + 128);
        WriteByte(u / (128 * 128 * 128));
      } else {
        return false;
      }
      ok := true;
    }

    /** write_string and write_binary_data: the length must fit two bytes. */
    method WriteBinary(b: bytes) returns (ok: bool)
      modifies this
      ensures ok == Short(b)
      ensures data == old(data) + (if ok then EncodeBinary(b) else [])
    {
      if |b| > 65535 {
        return false;
      }
      WriteU16(|b|);
      WriteSlice(b);
      ok := true;
    }

    method WriteOpt(o: Option<bytes>) returns (ok: bool)
      modifies this
      ensures ok == OptShort(o)
      ensures data == old(data) + (if ok then EncodeOpt(o) else [])
    {
      match o
      case None => ok := true;
      case Some(b) => ok := WriteBinary(b);
    }

    method WritePair(p: Pair) returns (ok: bool)
      modifies this
      ensures ok == PairShort(p)
      ensures ok ==> data == old(data) + EncodePair(p)
      ensures old(data) <= data
    {
      hide EncodeBinary, Short;
      ghost var before := data;
      ok := WriteBinary(p.key);
      if ok {
        ok := WriteBinary(p.value);
        Associate(before, EncodeBinary(p.key), EncodeBinary(p.value));
      }
    }

    /** Identifier and pair for every user property the iterator still yields. */
    method WriteRemaining(iter: UserPropertyIterator)
      requires iter.Valid()
      requires forall i :: 0 <= i < |iter.Remaining()| ==> PairShort(iter.Remaining()[i])
      modifies this, iter
      ensures data == old(data) + EncodeMoreUsers(old(iter.Remaining()))
    {
      hide TailValid, UserList, ParseItems, ParsePair, UsersOf, PairShort, EncodePair, EncodeVar;
      ghost var todo := iter.Remaining();
      assert data + EncodeMoreUsers(todo) == old(data) + EncodeMoreUsers(old(iter.Remaining()));
      var next := iter.Next();
      while next.Some?
        invariant iter.Valid()
        invariant todo == if next.Some? then [next.value] + iter.Remaining() else []
        invariant forall i :: 0 <= i < |todo| ==> PairShort(todo[i])
        invariant data + EncodeMoreUsers(todo) == old(data) + EncodeMoreUsers(old(iter.Remaining()))
        decreases |todo|
      {
        ghost var before, rest := data, iter.Remaining();
        assert todo[0] == next.value && todo[1..] == rest;
        var idOk := WriteVariableU32(USER_PROPERTY);
        var pairOk := WritePair(next.value);
        AppendNext(before, next.value, rest);
        next := iter.Next();
        todo := rest;
      }
    }

    /** UserProperties::write: the first pair without its identifier, which the section
        has written, then identifier and pair for each of the others. */
    method WriteUserProperties(tail: bytes) returns (ok: bool)
      requires TailValid(tail)
      modifies this
      ensures ok && data == old(data) + EncodeUsers(UserList(tail))
    {
      hide TailValid, UserList, ParseItems, ParsePair, UsersOf, PairShort, PairTyped, EncodePair, EncodeVar,
        EncodeUsers, EncodeMoreUsers;
      UserListFits(tail);
      var iter := new UserPropertyIterator(tail);
      var next := iter.Next();
      EncodeUsersCons(next.value, iter.Remaining());
      ShortTail(next.value, iter.Remaining());
      ok := WritePair(next.value);
      WriteRemaining(iter);
    }

    method WriteScalar(k: Kind, v: Value<bytes>) returns (ok: bool)
      requires ScalarTyped(k, v)
      modifies this
      ensures ok == ScalarWritable(k, v)
      ensures ok ==> data == old(data) + EncodeScalar(k, v)
      ensures old(data) <= data
    {
      ok := true;
      match k
      case U16 => WriteU16(v.n);
      case U16NonZero => WriteU16(v.n);
      case U32 => WriteU32(v.n);
      case Var => ok := WriteVariableU32(v.n);
      case Text => ok := WriteBinary(v.b);
      case Binary => ok := WriteBinary(v.b);
      case U8 => WriteByte(v.n);
      case Flag => WriteByte(v.n);
      case UserPair =>
    }

    /** One property of a section: identifier, then value. */
    method WriteField(id: nat, v: Value<bytes>) returns (ok: bool)
      requires FieldTyped(id, ViewValue(v)) && (v.Users? ==> TailValid(v.u))
      modifies this
      ensures ok == FieldWritable(id, ViewValue(v))
      ensures ok ==> data == old(data) + (EncodeVar(id) + EncodeFieldValue(id, ViewValue(v)))
      ensures old(data) <= data
    {
      hide TailValid, UserList, EncodeVar, EncodeUsers;
      var idOk := WriteVariableU32(id);
      if v.Users? {
        UserListFits(v.u);
        ok := WriteUserProperties(v.u);
      } else {
        ok := WriteScalar(KindOf(id).value, v);
      }
    }

    /** The properties of a section, in the order of the packet's list. */
    method WriteFields(ids: seq<nat>, sec: Lazy) returns (ok: bool)
      requires TailsValid(sec) && SectionTyped(ids, ViewSection(sec))
      modifies this
      ensures ok == FieldsWritable(ViewSection(sec))
      ensures ok ==> data == old(data) + EncodeFields(ids, ViewSection(sec))
      ensures old(data) <= data
    {
      hide FieldTyped, TailValid, EncodeVar, ViewValue, FieldWritable, EncodeField, EncodeFields, EncodeFieldValue;
      ghost var view := ViewSection(sec);
      assert view.Keys == sec.Keys && ids[0..] == ids;
      ok := true;
      for i := 0 to |ids|
        invariant ok && old(data) <= data
        invariant data + EncodeFields(ids[i..], view) == old(data) + EncodeFields(ids, view)
        invariant forall j :: 0 <= j < i && ids[j] in sec ==> FieldWritable(ids[j], view[ids[j]])
      {
        AppendField(data, ids, i, sec);
        if ids[i] in sec {
          ok := WriteField(ids[i], sec[ids[i]]);
          if !ok {
            assert view[ids[i]] == ViewValue(sec[ids[i]]);
            return;
          }
        }
      }
      NoFields(data, ids, view);
      forall id | id in view ensures FieldWritable(id, view[id]) {
        var j :| 0 <= j < |ids| && ids[j] == id;
      }
    }

    /** The generated `write` of a property section: its size, which must have a length
        field, then its properties. */
    method WriteSection(ids: seq<nat>, sec: Lazy) returns (ok: bool)
      requires TailsValid(sec) && SectionTyped(ids, ViewSection(sec)) && FieldsSized(ViewSection(sec))
      modifies this
      ensures ok == SectionWritable(ids, ViewSection(sec))
      ensures ok ==> data == old(data) + EncodeSection(ids, ViewSection(sec))
      ensures old(data) <= data
    {
      hide TailsValid, SectionTyped, FieldsWritable, ViewSection, EncodeVar, EncodeFields, FieldsSize;
      ok := WriteVariableU32(FieldsSize(ids, ViewSection(sec)));
      if ok {
        ok := WriteFields(ids, sec);
      }
    }

    method WriteProps(p: Raw) returns (ok: bool)
      requires HasProps(p) && TailsOk(p) && PacketTyped(View(p)) && PropsSized(View(p))
      modifies this
      ensures ok == SectionWritable(SectionIds(TypeOf(p)), View(p).props)
      ensures ok ==> data == old(data) + EncodeProps(View(p))
      ensures old(data) <= data
    {
      hide SectionTyped, SectionIds, FieldsSize, BodySize, SectionWritable, EncodeSection, TailsValid, ViewSection;
      SameType(p);
      ok := WriteSection(SectionIds(TypeOf(p)), p.props);
    }

    method WriteWill(p: Raw) returns (ok: bool)
      requires p.Connect? && TailsOk(p) && PacketTyped(View(p)) && PropsSized(View(p))
      modifies this
      ensures ok == WillWritable(View(p).will)
      ensures ok ==> data == old(data) + EncodeWill(View(p).will)
      ensures old(data) <= data
    {
      hide SectionTyped, SectionIds, FieldsSize, BodySize, SectionWritable, EncodeSection, TailsValid, ViewSection,
        EncodeBinary, Short, ValidUtf8;
      ok := true;
      if p.will.Some? {
        var w := p.will.value;
        ok := WriteSection(WILL_IDS, w.props);
        if ok {
          ok := WriteBinary(w.topic);
        }
        if ok {
          ok := WriteBinary(w.payload);
        }
      }
    }

    /** Protocol name, level and flags. */
    method WriteConnectHead(f: ConnectFlags)
      modifies this
      ensures data == old(data) + EncodeConnectHead(f)
    {
      hide EncodeU16, FlagsByte;
      var nameOk := WriteBinary(PROTOCOL_NAME);
      WriteByte(5);
      WriteByte(FlagsByte(f));
    }

    /** The optional payload fields, in their fixed order. */
    method WriteConnectOptions(p: Raw) returns (ok: bool)
      requires p.Connect? && TailsOk(p) && PacketTyped(View(p)) && PropsSized(View(p))
      modifies this
      ensures ok == (WillWritable(View(p).will) && OptShort(p.username) && OptShort(p.password))
      ensures ok ==> data == old(data) + (EncodeWill(View(p).will) + (EncodeOpt(p.username) + EncodeOpt(p.password)))
      ensures old(data) <= data
    {
      hide PropsSized, WillWritable, TailsOk, ViewSection, ViewWillOpt, EncodeOpt, OptShort, EncodeWill, PacketTyped;
      ghost var before, view := data, View(p);
      ok := WriteWill(p);
      if ok {
        ok := WriteOpt(p.username);
      }
      if ok {
        ok := WriteOpt(p.password);
        AppendThree(before, EncodeWill(view.will), EncodeOpt(p.username), EncodeOpt(p.password));
      }
    }

    /** Client identifier, then the optional fields. */
    method WriteConnectPayload(p: Raw) returns (ok: bool)
      requires p.Connect? && TailsOk(p) && PacketTyped(View(p)) && PropsSized(View(p))
      modifies this
      ensures ok == (Short(p.clientId) && WillWritable(View(p).will) && OptShort(p.username) && OptShort(p.password))
      ensures ok ==> data == old(data) + (EncodeBinary(p.clientId) +
                                          (EncodeWill(View(p).will) + (EncodeOpt(p.username) + EncodeOpt(p.password))))
      ensures old(data) <= data
    {
      hide PropsSized, WillWritable, TailsOk, ViewSection, ViewWillOpt, EncodeOpt, OptShort, EncodeWill, PacketTyped,
        EncodeBinary, Short;
      ghost var before, view := data, View(p);
      ok := WriteBinary(p.clientId);
      if ok {
        ok := WriteConnectOptions(p);
        Associate(before, EncodeBinary(p.clientId),
                  EncodeWill(view.will) + (EncodeOpt(p.username) + EncodeOpt(p.password)));
      }
    }

    /** What follows the flags: keep-alive, properties and payload. */
    method WriteConnectTail(p: Raw) returns (ok: bool)
      requires p.Connect? && TailsOk(p) && PacketTyped(View(p)) && PropsSized(View(p))
      modifies this
      ensures ok == Writable(View(p))
      ensures ok ==> data == old(data) + EncodeConnectTail(View(p))
      ensures old(data) <= data
    {
      hide PropsSized, WillWritable, TailsOk, ViewSection, ViewWillOpt, EncodeOpt, OptShort, EncodeWill, PacketTyped,
        EncodeBinary, Short, SectionIds, SectionWritable, EncodeProps, EncodeU16;
      ConnectParts(p);
      ghost var before, view := data, View(p);
      WriteU16(p.keepAlive);
      ok := WriteProps(p);
      if ok {
        ok := WriteConnectPayload(p);
        AppendThree(before, EncodeU16(p.keepAlive), EncodeProps(view),
                    EncodeBinary(p.clientId) +
                    (EncodeWill(view.will) + (EncodeOpt(p.username) + EncodeOpt(p.password))));
      }
    }

    method WriteConnect(p: Raw) returns (ok: bool)
      requires p.Connect? && TailsOk(p) && PacketTyped(View(p)) && PropsSized(View(p))
      modifies this
      ensures ok == Writable(View(p))
      ensures ok ==> data == old(data) + EncodeBody(View(p))
      ensures old(data) <= data
    {
      hide PropsSized, TailsOk, ViewSection, ViewWillOpt, FlagsOf, EncodeConnectHead, EncodeConnectTail, Writable,
        PacketTyped;
      ConnectParts(p);
      ghost var before := data;
      WriteConnectHead(FlagsOf(p));
      ok := WriteConnectTail(p);
      Associate(before, EncodeConnectHead(FlagsOf(p)), EncodeConnectTail(View(p)));
    }

    method WritePublish(p: Raw) returns (ok: bool)
      requires p.Publish? && TailsOk(p) && PacketTyped(View(p)) && PropsSized(View(p))
      modifies this
      ensures ok == Writable(View(p))
      ensures ok ==> data == old(data) + EncodeBody(View(p))
      ensures old(data) <= data
    {
      hide SectionTyped, SectionIds, BodySize, SectionWritable, EncodeProps, TailsValid, ViewSection, EncodeBinary,
        Short, ValidUtf8, EncodeU16;
      ok := WriteBinary(p.topic);
      if ok && p.qos == AtMostOnce && p.pid.Some? {
        return false;
      }
      if ok {
        if p.pid.Some? {
          WriteU16(p.pid.value);
        }
        ok := WriteProps(p);
      }
      if ok {
        WriteSlice(p.payload);
      }
    }

    /** Subscriptions::write: every entry the payload iterates to. */
    method WriteEntries(withOptions: bool, entries: bytes)
      requires EntriesValid(withOptions, entries)
      modifies this
      ensures data == old(data) + EncodeEntries(EntryList(withOptions, entries))
    {
      hide ParseEntries, EncodeEntry, EntryFits, EncodeEntries, EntryList;
      var iter := new SubscriptionsIter(withOptions, entries);
      ghost var todo := iter.Remaining();
      NoEntries();
      var next := iter.Next();
      while next.Some?
        invariant iter.Valid() && fresh(iter)
        invariant next.Some? ==> EntryFits(next.value)
        invariant todo == if next.Some? then [next.value] + iter.Remaining() else []
        invariant data + EncodeEntries(todo) == old(data) + EncodeEntries(EntryList(withOptions, entries))
        decreases |todo|
      {
        ghost var before, rest := data, iter.Remaining();
        WriteEntry(next.value);
        AppendEntry(before, next.value, rest);
        todo := rest;
        next := iter.Next();
      }
    }

    method WriteEntry(e: Entry)
      requires EntryFits(e)
      modifies this
      ensures data == old(data) + EncodeEntry(e)
    {
      var ok := WriteBinary(e.filter);
      if e.options.Some? {
        WriteByte(OptionsByte(e.options.value));
      }
    }

    method WriteIdProps(p: Raw, id: nat) returns (ok: bool)
      requires HasProps(p) && TailsOk(p) && PacketTyped(View(p)) && PropsSized(View(p))
      requires id < 0x1_0000
      modifies this
      ensures ok == SectionWritable(SectionIds(TypeOf(p)), View(p).props)
      ensures ok ==> data == old(data) + EncodeU16(id) + EncodeProps(View(p))
      ensures old(data) <= data
    {
      hide PacketTyped, BodySize, SectionWritable, EncodeProps, View, TailsOk;
      WriteU16(id);
      ok := WriteProps(p);
    }

    /** SUBACK, UNSUBACK, SUBSCRIBE and UNSUBSCRIBE. */
    method WriteListBody(p: Raw) returns (ok: bool)
      requires p.Suback? || p.Unsuback? || p.Subscribe? || p.Unsubscribe?
      requires TailsOk(p) && PacketTyped(View(p)) && PropsSized(View(p))
      modifies this
      ensures ok == Writable(View(p))
      ensures ok ==> data == old(data) + EncodeBody(View(p))
      ensures old(data) <= data
    {
      hide SectionTyped, SectionIds, BodySize, SectionWritable, EncodeProps, TailsOk, ViewSection, EncodeU16,
        EntriesValid, EncodeEntries, EntryList, ReasonsOk;
      ok := WriteIdProps(p, p.id);
      if ok {
        match p
        case Suback(_, _, reasons) => WriteSlice(reasons);
        case Unsuback(_, _, reasons) => WriteSlice(reasons);
        case Subscribe(_, _, entries) => WriteEntries(true, entries);
        case Unsubscribe(_, _, entries) => WriteEntries(false, entries);
      }
    }

    method WriteReasonProps(p: Raw, reason: byte) returns (ok: bool)
      requires HasProps(p) && TailsOk(p) && PacketTyped(View(p)) && PropsSized(View(p))
      modifies this
      ensures ok == SectionWritable(SectionIds(TypeOf(p)), View(p).props)
      ensures ok ==> data == old(data) + ([reason] + EncodeProps(View(p)))
      ensures old(data) <= data
    {
      hide PacketTyped, PropsSized, SectionWritable, SectionIds, EncodeProps, ViewSection, TailsOk;
      ghost var before := data;
      WriteByte(reason);
      ok := WriteProps(p);
      Associate(before, [reason], EncodeProps(View(p)));
    }

    /** AUTH, CONNACK, DISCONNECT and the PUBACK family. */
    method WriteReasonBody(p: Raw) returns (ok: bool)
      requires p.Auth? || p.Connack? || p.Disconnect? || p.Ack?
      requires TailsOk(p) && PacketTyped(View(p)) && PropsSized(View(p))
      modifies this
      ensures ok == Writable(View(p))
      ensures ok ==> data == old(data) + EncodeBody(View(p))
      ensures old(data) <= data
    {
      hide SectionTyped, SectionIds, BodySize, SectionWritable, EncodeProps, TailsOk, ViewSection, EncodeU16, ReasonOk;
      ghost var before := data;
      match p
      case Auth(reason, _) => ok := WriteReasonProps(p, reason);
      case Connack(present, reason, _) =>
        WriteByte(Bit(present) * 128);
        ok := WriteReasonProps(p, reason);
        Associate(before, [Bit(present) * 128], [reason] + EncodeProps(View(p)));
        Associate([Bit(present) * 128], [reason], EncodeProps(View(p)));
      case Disconnect(reason, props) =>
        EmptySectionWritable(props);
        ok := true;
        if !(reason == 0 && props == map[]) {
          ok := WriteReasonProps(p, reason);
        }
      case Ack(_, id, reason, _) =>
        WriteU16(id);
        ok := WriteReasonProps(p, reason);
        Associate(before, EncodeU16(id), [reason] + EncodeProps(View(p)));
    }

    /** The body of every packet kind. */
    method WriteBody(p: Raw) returns (ok: bool)
      requires TailsOk(p) && PacketTyped(View(p)) && PropsSized(View(p))
      modifies this
      ensures ok == Writable(View(p))
      ensures ok ==> data == old(data) + EncodeBody(View(p))
      ensures old(data) <= data
    {
      hide TailsOk, PacketTyped, BodySize, Writable, EncodeBody, View;
      match p
      case Connect(_, _, _, _, _, _, _) => ok := WriteConnect(p);
      case Publish(_, _, _, _, _, _, _) => ok := WritePublish(p);
      case Suback(_, _, _) => ok := WriteListBody(p);
      case Unsuback(_, _, _) => ok := WriteListBody(p);
      case Subscribe(_, _, _) => ok := WriteListBody(p);
      case Unsubscribe(_, _, _) => ok := WriteListBody(p);
      case Pingreq => EmptyBody(p); ok := true;
      case Pingresp => EmptyBody(p); ok := true;
      case _ => ok := WriteReasonBody(p);
    }

    /** MqttPacket::write, which Encoder::encode of codec.rs calls: where the sizes of its
        sections are computed without a panic it fails exactly when the body is too long for its length field, a
        text for its own, or a QoS 0 PUBLISH has an identifier; otherwise `binary_size`
        bytes are appended. */
    method WritePacket(p: Raw) returns (ok: bool)
      requires TailsOk(p) && PacketTyped(View(p)) && PacketSized(View(p))
      modifies this
      ensures ok == (BodySize(View(p)) <= VARIABLE_INTEGER_MAX && Writable(View(p)))
      ensures ok ==> data == old(data) + EncodePacket(View(p)) && |data| == |old(data)| + PacketSize(View(p))
      ensures old(data) <= data
    {
      hide TailsOk, PacketTyped, PropsSized, PacketSized, BodySize, Writable, EncodeBody, HeaderByte, View, EncodeVar;
      SameType(p);
      SizedProps(View(p));
      WriteByte(HeaderByte(TypeOf(p)));
      ok := WriteVariableU32(BodySize(View(p)));
      if ok {
        PacketExact(View(p));
        ok := WriteBody(p);
      }
    }
  }

  lemma EmptyBody(p: Raw)
    requires p.Pingreq? || p.Pingresp?
    ensures EncodeBody(View(p)) == [] && Writable(View(p))
  {
  }

  lemma AppendThree(before: bytes, a: bytes, b: bytes, c: bytes)
    ensures before + a + b + c == before + (a + (b + c))
  {
  }

  lemma SizedProps(p: Viewed)
    requires PacketSized(p)
    ensures PropsSized(p)
  {
    hide SectionIds, FieldsSize, TypeOf, FieldsSized;
  }

  lemma SameType(p: Raw)
    ensures TypeOf(View(p)) == TypeOf(p)
  {
  }

  lemma EmptySectionWritable(props: Lazy)
    ensures props == map[] <==> ViewSection(props) == map[]
    ensures SectionWritable(SectionIds(TDisconnect), map[])
  {
    EmptySectionSize(SectionIds(TDisconnect));
    assert ViewSection(props).Keys == props.Keys;
  }

  lemma ConnectParts(p: Raw)
    requires p.Connect? && PacketTyped(View(p))
    ensures p.keepAlive < 0x1_0000 && FlagsOf(p) == FlagsOf(View(p)) && Short(PROTOCOL_NAME)
  {
  }
}
