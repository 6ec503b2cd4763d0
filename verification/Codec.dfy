/** The incremental frame decoder and the encoder of codec.rs, and the stream they make
    together. */
module Codec {
  import opened Wire
  import opened Packets
  import opened PacketLaws
  import opened Writer

  // ------------------------------------------------------------------------ one frame

  datatype Decoded =
    | NeedMore
    | Frame(packet: Raw, rest: bytes)
    | ProtocolError
    | ParsingError(rest: bytes)

  /** Decoder::decode: the length is taken to be encoded minimally; the packet parser
      then sees exactly that many bytes. */
  function Decode(src: bytes): Decoded {
    if |src| < 2 then NeedMore
    else
      match ParseVarPartial(src[1..])
      case Incomplete => NeedMore
      case Error => ProtocolError
      case Done(n, _) =>
        var total := 1 + VarSize(n) + n;
        if |src| < total then NeedMore
        else
          match ParsePacket(src[..total])
          case Fail => ParsingError(src[total..])
          case Ok(p, _) => Frame(p, src[total..])
  }

  /** The length field of a frame is complete: it ends at byte k. */
  predicate LengthEnds(src: bytes, k: nat) {
    1 <= k <= 4 && k < |src| && src[k] < 128 && forall i :: 1 <= i < k ==> src[i] >= 128
  }

  /** Bytes of the frame that the decoder waits for and then cuts off. */
  function Announced(src: bytes, k: nat): nat
    requires LengthEnds(src, k)
  {
    var n := VarValue(src[1..k + 1]);
    1 + VarSize(n) + n
  }

  lemma LengthRead(src: bytes, k: nat)
    requires LengthEnds(src, k)
    ensures ParseVarPartial(src[1..]) == Done(VarValue(src[1..k + 1]), src[k + 1..])
  {
    hide VarValue;
    FrontCountIs(src[1..], 3, k - 1);
    assert src[1..][..k] == src[1..k + 1] && src[1..][k..] == src[k + 1..];
  }

  lemma LengthUnread(src: bytes)
    requires 2 <= |src| < 5 && forall i :: 1 <= i < |src| ==> src[i] >= 128
    ensures ParseVarPartial(src[1..]).Incomplete?
  {
    FrontCountAll(src[1..], 3);
  }

  lemma LengthRefused(src: bytes)
    requires |src| >= 5 && forall i :: 1 <= i < 5 ==> src[i] >= 128
    ensures ParseVarPartial(src[1..]).Error?
  {
    FrontCountIs(src[1..], 3, 3);
  }

  lemma LengthCases(src: bytes) returns (k: nat)
    requires |src| >= 2
    ensures LengthEnds(src, k) || (forall i :: 1 <= i < 5 && i < |src| ==> src[i] >= 128)
  {
    var f := FrontCount(src[1..], 3);
    k := f + 1;
    assert forall i :: 1 <= i < k ==> Continues(src[1..][i - 1]) && src[i] == src[1..][i - 1];
  }

  /** A protocol error is reported exactly when the length field does not end after four
      bytes, whatever else the buffer holds. */
  lemma ProtocolErrorExactly(src: bytes)
    ensures Decode(src).ProtocolError? <==> |src| >= 5 && forall i :: 1 <= i < 5 ==> src[i] >= 128
  {
    hide ParseVarPartial, ParsePacket, VarValue;
    if |src| >= 2 {
      var k := LengthCases(src);
      if LengthEnds(src, k) {
        LengthRead(src, k);
      } else if |src| >= 5 {
        LengthRefused(src);
      } else {
        LengthUnread(src);
      }
    }
  }

  /** The decoder asks for more exactly when the length field can still be completed, or
      fewer bytes are there than it announces. */
  lemma NeedMoreExactly(src: bytes)
    ensures Decode(src).NeedMore? <==>
            || (|src| < 5 && forall i :: 1 <= i < |src| ==> src[i] >= 128)
            || exists k :: LengthEnds(src, k) && |src| < Announced(src, k)
  {
    hide ParseVarPartial, ParsePacket, VarValue;
    if |src| >= 2 {
      var k := LengthCases(src);
      if LengthEnds(src, k) {
        LengthRead(src, k);
        assert forall j :: LengthEnds(src, j) ==> j == k;
      } else if |src| >= 5 {
        LengthRefused(src);
      } else {
        LengthUnread(src);
      }
    }
  }

  /** Once the announced bytes are there, exactly they are cut off, and the packet parser
      decides alone. */
  lemma CompleteFrame(src: bytes, k: nat)
    requires LengthEnds(src, k) && |src| >= Announced(src, k)
    ensures var total := Announced(src, k);
            Decode(src) == match ParsePacket(src[..total])
                           case Fail => ParsingError(src[total..])
                           case Ok(p, _) => Frame(p, src[total..])
  {
    hide ParseVarPartial, ParsePacket, VarValue;
    LengthRead(src, k);
  }

  lemma DecodeConsumes(src: bytes)
    requires Decode(src).Frame?
    ensures |Decode(src).rest| + 2 <= |src|
  {
    hide ParseVarPartial, ParsePacket;
  }

  /** Bytes that arrive later never change a verdict already reached. */
  lemma DecodeMonotone(src: bytes, x: bytes)
    requires !Decode(src).NeedMore?
    ensures match Decode(src)
            case Frame(p, rest) => Decode(src + x) == Frame(p, rest + x)
            case ProtocolError => Decode(src + x) == ProtocolError
            case ParsingError(rest) => Decode(src + x) == ParsingError(rest + x)
            case NeedMore => true
  {
    hide ParsePacket, ParseVarPartial;
    VarMonotone(src[1..], x);
    assert (src + x)[1..] == src[1..] + x;
    match ParseVarPartial(src[1..])
    case Done(n, _) =>
      var total := 1 + VarSize(n) + n;
      assert (src + x)[..total] == src[..total] && (src + x)[total..] == src[total..] + x;
    case _ =>
  }

  /** The remaining length of a frame takes as few bytes as its value allows. */
  predicate MinimalLength(src: bytes)
    requires src != [] && ParseVar(src[1..]).Ok?
  {
    |src[1..]| == |ParseVar(src[1..]).rest| + VarSize(ParseVar(src[1..]).value)
  }

  /** The decoder yields a packet the parser accepts when its remaining length is encoded
      minimally, as section 1.5.5 of MQTT 5.0 demands, and reports a parsing error when
      it is not. */
  lemma DecodeNeedsMinimalLength(src: bytes)
    requires ParsePacket(src).Ok?
    ensures src != [] && ParseVar(src[1..]).Ok?
    ensures if MinimalLength(src) then Decode(src) == Frame(ParsePacket(src).value, ParsePacket(src).rest)
            else Decode(src).ParsingError?
  {
    hide ParsePacket, ParseHeader, ParseBody, ParseVarPartial, EncodeVar, Decode;
    ParsePacketParts(src);
    var t, l := ParseHeader(src[0]).value, ParseVar(src[1..]);
    if MinimalLength(src) {
      LengthWritten(src);
      MinimalFrame(src, t, l.value, l.rest);
    } else {
      OverlongFrameFails(src, 1 + VarSize(l.value) + l.value);
    }
  }

  lemma LengthWritten(src: bytes)
    requires src != [] && ParseVar(src[1..]).Ok? && MinimalLength(src)
    ensures var l := ParseVar(src[1..]);
            l.value <= VARIABLE_INTEGER_MAX && src == [src[0]] + (EncodeVar(l.value) + l.rest)
  {
    hide ParseVarPartial, EncodeVar;
    VarAccepted(src[1..]);
    VarMinimalIsEncoding(src[1..]);
    assert src == [src[0]] + src[1..];
  }

  /** A PINGREQ whose length 0 takes two bytes: parsed, and not decoded. */
  lemma OverlongPingreq()
    ensures ParsePacket([0xC0, 0x80, 0x00]) == Ok(Pingreq, [])
    ensures Decode([0xC0, 0x80, 0x00]) == ParsingError([0x00])
  {
    var src: bytes := [0xC0, 0x80, 0x00];
    var rest: bytes := src[1..];
    assert rest == [0x80, 0x00];
    FrontCountIs(rest, 3, 1);
    VarValueUpTo4(rest);
    assert rest[..2] == rest && rest[2..] == [];
    assert ParseVarPartial(rest) == Done(0, []);
    var cart: bytes := src[..2];
    FrontCountAll(cart[1..], 3);
    assert ParseVar(cart[1..]).Fail?;
    assert src[2..] == [0x00];
  }

  lemma FrameEnds(b: byte, v: bytes, n: nat, r: bytes)
    requires n <= |r|
    ensures var src := [b] + (v + r);
            && src[..1 + |v| + n] == [b] + (v + r[..n]) + [] && src[1 + |v| + n..] == r[n..] && src[1..] == v + r
  {
  }

  /** A frame whose length field is minimal is cut where the packet ends. */
  lemma MinimalFrame(src: bytes, t: PacketType, n: nat, r: bytes)
    requires n <= VARIABLE_INTEGER_MAX && n <= |r|
    requires src != [] && ParseHeader(src[0]) == Some(t) && src == [src[0]] + (EncodeVar(n) + r)
    requires ParseBody(t, r[..n]).Ok?
    ensures Decode(src) == Frame(ParseBody(t, r[..n]).value, r[n..])
  {
    hide ParseBody, ParseHeader, HeaderByte, ParseVarPartial, EncodeVar;
    EncodeVarShape(n);
    VarRoundTrip(n, r);
    FrameEnds(src[0], EncodeVar(n), n, r);
    HeaderExact(src[0]);
    Framed(t, r[..n], []);
  }

  /** With an overlong length field the decoder cuts the frame short. */
  lemma OverlongFrameFails(src: bytes, total: nat)
    requires ParsePacket(src).Ok?
    requires var l := ParseVar(src[1..]);
             |src[1..]| != |l.rest| + VarSize(l.value) && total == 1 + VarSize(l.value) + l.value
    ensures total <= |src| && Decode(src) == ParsingError(src[total..])
  {
    hide ParseHeader, ParseBody;
    ParsePacketParts(src);
    VarAccepted(src[1..]);
    var l := ParseVar(src[1..]);
    var cart := src[..total];
    assert src == cart + src[total..];
    assert src[1..] == cart[1..] + src[total..];
    if ParseVarPartial(cart[1..]).Done? {
      VarMonotone(cart[1..], src[total..]);
      assert |ParseVar(cart[1..]).rest| < l.value;
    }
    assert ParsePacket(cart).Fail?;
  }

  lemma DecodeEncoded(p: Viewed, r: bytes)
    requires WellFormed(p)
    ensures var d := Decode(EncodePacket(p) + r);
            d.Frame? && View(d.packet) == p && TailsOk(d.packet) && d.rest == r
  {
    hide WellFormed, ParseBody, EncodeBody, Decode, View, TailsOk, HeaderByte, EncodeVar, BodySize, ParseHeader;
    BodyRoundTrip(p);
    WellFormedExact(p);
    HeaderRoundTrip(TypeOf(p));
    var n, body := BodySize(p), EncodeBody(p);
    var src, b := EncodePacket(p) + r, HeaderByte(TypeOf(p));
    Associate([b], EncodeVar(n) + body, r);
    Associate(EncodeVar(n), body, r);
    BehindFirst(b, EncodeVar(n) + (body + r));
    SectionLaws.SplitAfter(body, r);
    MinimalFrame(src, TypeOf(p), n, body + r);
  }

  lemma PrefixBehindHeader(b: byte, v: bytes, body: bytes, k: nat)
    requires 1 <= k <= 1 + |v| + |body|
    ensures ([b] + (v + body))[..k][1..] == if k - 1 < |v| then v[..k - 1] else v + body[..k - 1 - |v|]
  {
  }

  /** On every strict prefix of a packet the decoder waits; it never reports an error. */
  lemma DecodePrefix(p: Viewed, k: nat)
    requires WellFormed(p) && k < |EncodePacket(p)|
    ensures Decode(EncodePacket(p)[..k]).NeedMore?
  {
    hide WellFormed, ParsePacket, EncodeBody, HeaderByte, EncodeVar, BodySize, ParseVarPartial;
    WellFormedExact(p);
    var n, body, src := BodySize(p), EncodeBody(p), EncodePacket(p)[..k];
    EncodeVarShape(n);
    if k >= 2 {
      PrefixBehindHeader(HeaderByte(TypeOf(p)), EncodeVar(n), body, k);
      if k - 1 < VarSize(n) {
        VarPrefixIncomplete(n, k - 1);
      } else {
        VarRoundTrip(n, body[..k - 1 - VarSize(n)]);
      }
    }
  }

  // --------------------------------------------------------------------------- stream

  datatype Failure = Protocol | Parsing

  /** A framed reader: the unread buffer, or the error that ended it. */
  datatype Stream = Open(buffer: bytes) | Broken(error: Failure)

  /** Decode until more input is needed or an error ends the stream. */
  function Drain(buffer: bytes): (seq<Raw>, Stream)
    decreases |buffer|
  {
    match Decode(buffer)
    case NeedMore => ([], Open(buffer))
    case ProtocolError => ([], Broken(Protocol))
    case ParsingError(_) => ([], Broken(Parsing))
    case Frame(p, rest) =>
      DecodeConsumes(buffer);
      var (ps, st) := Drain(rest);
      ([p] + ps, st)
  }

  function Feed(st: Stream, chunk: bytes): (seq<Raw>, Stream) {
    match st
    case Broken(_) => ([], st)
    case Open(buffer) => Drain(buffer + chunk)
  }

  /** All packets delivered while the chunks arrive one after the other. */
  function Run(st: Stream, chunks: seq<bytes>): (seq<Raw>, Stream)
    decreases |chunks|
  {
    if chunks == [] then ([], st)
    else
      var (ps, st1) := Feed(st, chunks[0]);
      var (qs, st2) := Run(st1, chunks[1..]);
      (ps + qs, st2)
  }

  function Flatten(chunks: seq<bytes>): bytes {
    if chunks == [] then [] else chunks[0] + Flatten(chunks[1..])
  }

  lemma {:induction false} DrainThenFeed(a: bytes, b: bytes)
    ensures Drain(a + b) ==
            var (ps, st) := Drain(a);
            var (qs, st2) := Feed(st, b);
            (ps + qs, st2)
    decreases |a|
  {
    hide Decode;
    if !Decode(a).NeedMore? {
      DecodeMonotone(a, b);
    }
    match Decode(a)
    case NeedMore => assert [] + Drain(a + b).0 == Drain(a + b).0;
    case Frame(p, rest) =>
      DecodeConsumes(a);
      DrainThenFeed(rest, b);
      var (ps, st) := Drain(rest);
      var qs := Feed(st, b).0;
      assert ([p] + ps) + qs == [p] + (ps + qs);
    case _ =>
  }

  lemma {:induction false} RunFromOpen(buffer: bytes, chunks: seq<bytes>)
    requires Decode(buffer).NeedMore?
    ensures Run(Open(buffer), chunks) == Drain(buffer + Flatten(chunks))
    decreases |chunks|
  {
    hide Decode;
    if chunks == [] {
      assert buffer + Flatten(chunks) == buffer;
    } else {
      var a := buffer + chunks[0];
      assert buffer + Flatten(chunks) == a + Flatten(chunks[1..]);
      DrainThenFeed(a, Flatten(chunks[1..]));
      var (ps, st) := Drain(a);
      match st
      case Broken(_) => RunBroken(st, chunks[1..]);
      case Open(rest) =>
        DrainLeavesIncomplete(a);
        RunFromOpen(rest, chunks[1..]);
    }
  }

  lemma {:induction false} RunBroken(st: Stream, chunks: seq<bytes>)
    requires st.Broken?
    ensures Run(st, chunks) == ([], st)
  {
    if chunks == [] {
    } else {
      RunBroken(st, chunks[1..]);
      var none: seq<Raw> := [];
      assert Feed(st, chunks[0]) == (none, st) && none + none == none;
    }
  }

  lemma {:induction false} DrainLeavesIncomplete(buffer: bytes)
    requires Drain(buffer).1.Open?
    ensures Decode(Drain(buffer).1.buffer).NeedMore?
    decreases |buffer|
  {
    hide Decode;
    if !Decode(buffer).Frame? {
    } else {
      DecodeConsumes(buffer);
      DrainLeavesIncomplete(Decode(buffer).rest);
    }
  }

  /** What a reader leaves in the buffer when it stops: a frame that fails to parse is
      consumed, a bad length field is not. */
  function Unread(buffer: bytes): bytes
    decreases |buffer|
  {
    match Decode(buffer)
    case NeedMore => buffer
    case ProtocolError => buffer
    case ParsingError(rest) => rest
    case Frame(_, rest) =>
      DecodeConsumes(buffer);
      Unread(rest)
  }

  /** However a byte stream is cut into chunks, well-formed or not, the same packets,
      the same error and the same unread bytes come out. */
  lemma ChunkingIrrelevant(chunks: seq<bytes>)
    ensures Run(Open([]), chunks) == Drain(Flatten(chunks))
  {
    RunFromOpen([], chunks);
    assert [] + Flatten(chunks) == Flatten(chunks);
  }

  function EncodeAll(ps: seq<Viewed>): bytes {
    if ps == [] then [] else EncodePacket(ps[0]) + EncodeAll(ps[1..])
  }

  ghost predicate SamePackets(qs: seq<Raw>, ps: seq<Viewed>) {
    |qs| == |ps| && forall i :: 0 <= i < |ps| ==> View(qs[i]) == ps[i] && TailsOk(qs[i])
  }

  lemma {:induction false} DrainEncoded(ps: seq<Viewed>, tail: bytes)
    requires forall i :: 0 <= i < |ps| ==> WellFormed(ps[i])
    requires Decode(tail).NeedMore?
    ensures SamePackets(Drain(EncodeAll(ps) + tail).0, ps) && Drain(EncodeAll(ps) + tail).1 == Open(tail)
    decreases |ps|
  {
    hide Decode, WellFormed, EncodePacket, View, TailsOk;
    if ps == [] {
      assert EncodeAll(ps) + tail == tail;
    } else {
      var rest := EncodeAll(ps[1..]) + tail;
      assert EncodeAll(ps) + tail == EncodePacket(ps[0]) + rest;
      DecodeEncoded(ps[0], rest);
      DrainEncoded(ps[1..], tail);
      var qs := Drain(EncodeAll(ps) + tail).0;
      assert qs[1..] == Drain(rest).0;
      assert forall i :: 1 <= i < |ps| ==> qs[i] == qs[1..][i - 1] && ps[i] == ps[1..][i - 1];
    }
  }

  /** Stream framing: for every list of well-formed packets followed by a part of one
      more, and every way of cutting the bytes into chunks, exactly these packets are
      delivered in order and exactly the part stays in the buffer. */
  lemma StreamFraming(ps: seq<Viewed>, next: Viewed, k: nat, chunks: seq<bytes>)
    requires (forall i :: 0 <= i < |ps| ==> WellFormed(ps[i])) && WellFormed(next)
    requires k < |EncodePacket(next)|
    requires Flatten(chunks) == EncodeAll(ps) + EncodePacket(next)[..k]
    ensures SamePackets(Run(Open([]), chunks).0, ps)
    ensures Run(Open([]), chunks).1 == Open(EncodePacket(next)[..k])
  {
    hide WellFormed, EncodePacket, Decode, Run, Drain;
    ChunkingIrrelevant(chunks);
    DecodePrefix(next, k);
    DrainEncoded(ps, EncodePacket(next)[..k]);
  }

  // ---------------------------------------------------------------------- imperative

  datatype DecodeResult = Pending | Packet(packet: Raw) | Failed(error: Failure)

  /** Decoder::decode on the buffer: a frame that fails to parse is consumed, a bad
      length field is not. */
  method DecodeFrame(src: BytesMut) returns (result: DecodeResult)
    modifies src
    ensures match Decode(old(src.data))
            case NeedMore => result == Pending && src.data == old(src.data)
            case Frame(p, rest) => result == DecodeResult.Packet(p) && src.data == rest
            case ProtocolError => result == Failed(Protocol) && src.data == old(src.data)
            case ParsingError(rest) => result == Failed(Parsing) && src.data == rest
  {
    hide ParsePacket, ParseVarPartial;
    if |src.data| < 2 {
      return Pending;
    }
    var length := ParseVariableU32(src.data[1..]);
    match length
    case Incomplete => return Pending;
    case Error => return Failed(Protocol);
    case Done(remaining, _) =>
      var total := 1 + VarSize(remaining) + remaining;
      if |src.data| < total {
        return Pending;
      }
      var cart := src.SplitTo(total);
      var packet := ParsePacket(cart);
      match packet
      case Fail => return Failed(Parsing);
      case Ok(p, _) => return DecodeResult.Packet(p);
  }

  lemma DrainStep(buffer: bytes)
    ensures match Decode(buffer)
            case NeedMore => Drain(buffer) == ([], Open(buffer)) && Unread(buffer) == buffer
            case ProtocolError => Drain(buffer) == ([], Broken(Protocol)) && Unread(buffer) == buffer
            case ParsingError(rest) => Drain(buffer) == ([], Broken(Parsing)) && Unread(buffer) == rest
            case Frame(p, rest) =>
              && |rest| < |buffer| && Unread(buffer) == Unread(rest)
              && Drain(buffer) == ([p] + Drain(rest).0, Drain(rest).1)
  {
    hide Decode;
    if Decode(buffer).Frame? {
      DecodeConsumes(buffer);
    }
  }

  lemma AppendFirst(done: seq<Raw>, p: Raw, rest: seq<Raw>)
    ensures done + ([p] + rest) == (done + [p]) + rest
  {
  }

  lemma NothingDone(rest: seq<Raw>)
    ensures [] + rest == rest && rest + [] == rest
  {
  }

  /** The framed reader: decode until the buffer holds no complete packet. */
  method DrainBuffer(src: BytesMut) returns (packets: seq<Raw>, error: Option<Failure>)
    modifies src
    ensures packets == Drain(old(src.data)).0
    ensures match Drain(old(src.data)).1
            case Open(rest) => error == None && src.data == rest
            case Broken(e) => error == Some(e)
    ensures src.data == Unread(old(src.data))
  {
    hide Decode, Drain, Unread;
    packets, error := [], None;
    ghost var start := src.data;
    NothingDone(Drain(start).0);
    while true
      invariant Drain(start) == (packets + Drain(src.data).0, Drain(src.data).1)
      invariant Unread(start) == Unread(src.data)
      decreases |src.data|
    {
      DrainStep(src.data);
      NothingDone(packets);
      var result := DecodeFrame(src);
      match result
      case Pending => return;
      case Failed(e) => error := Some(e); return;
      case Packet(p) =>
        AppendFirst(packets, p, Drain(src.data).0);
        packets := packets + [p];
    }
  }

  /** MqttPacket::new: neither of its `unwrap`s fails on a well-formed packet, and the
      owned copy equals the original. */
  method NewPacket(p: Raw) returns (q: Raw)
    requires TailsOk(p) && WellFormed(View(p))
    ensures TailsOk(q) && View(q) == View(p)
  {
    hide TailsOk, PacketTyped, PacketSized, PropsSized, Writable, BodySize, View, ParsePacket;
    WritableSized(View(p));
    var buffer := new BytesMut();
    var written := buffer.WritePacket(p);
    assert written;
    PacketRoundTrip(View(p), []);
    assert EncodePacket(View(p)) + [] == EncodePacket(View(p)) == buffer.data;
    var parsed := ParsePacket(buffer.data);
    assert parsed.Ok?;
    q := parsed.value;
  }
}
