/** The property table and property sections (properties.rs and the table of
    variable_header.rs). A section is parsed lazily, keeping for the user properties
    only the bytes from the first one on; its meaning is given by the eager view. */
module Properties {
  import opened Wire

  datatype Kind = U8 | Flag | U16 | U16NonZero | U32 | Var | Text | Binary | UserPair

  const USER_PROPERTY: nat := 0x26

  /** The property table: identifier to value codec. */
  function KindOf(id: nat): (k: Option<Kind>)
    ensures k == Some(UserPair) <==> id == USER_PROPERTY
    ensures k.Some? ==> 0 < id < 128
  {
    match id
    case 0x01 | 0x17 | 0x19 | 0x28 | 0x29 | 0x2A => Some(U8)
    case 0x24 | 0x25 => Some(Flag)
    case 0x13 | 0x22 => Some(U16)
    case 0x21 | 0x23 => Some(U16NonZero)
    case 0x02 | 0x11 | 0x18 | 0x27 => Some(U32)
    case 0x0B => Some(Var)
    case 0x03 | 0x08 | 0x12 | 0x15 | 0x1A | 0x1C | 0x1F => Some(Text)
    case 0x09 | 0x16 => Some(Binary)
    case 0x26 => Some(UserPair)
    case _ => None
  }

  datatype SectionKind =
    SAuth | SConnack | SConnect | SWill | SDisconnect | SPublish | SReason | SSubscribe

  /** The properties a packet may carry, in the order in which they are written.
      SReason serves the PUBACK family, SUBACK and UNSUBACK; SSubscribe also
      UNSUBSCRIBE. */
  function Allowed(k: SectionKind): (ids: seq<nat>) {
    match k
    case SAuth => [0x15, 0x16, 0x1F, 0x26]
    case SConnack => [0x11, 0x21, 0x24, 0x25, 0x27, 0x12, 0x22, 0x1F, 0x26, 0x28, 0x29, 0x2A,
                      0x13, 0x1A, 0x1C, 0x15, 0x16]
    case SConnect => [0x11, 0x21, 0x27, 0x22, 0x19, 0x17, 0x26, 0x15, 0x16]
    case SWill => [0x18, 0x01, 0x02, 0x03, 0x08, 0x09, 0x26]
    case SDisconnect => [0x11, 0x1F, 0x26, 0x1C]
    case SPublish => [0x01, 0x02, 0x23, 0x08, 0x09, 0x26, 0x0B, 0x03]
    case SReason => [0x1F, 0x26]
    case SSubscribe => [0x0B, 0x26]
  }

  /** Identifiers of the table, each listed once. */
  ghost predicate KnownIds(ids: seq<nat>) {
    && (forall i :: 0 <= i < |ids| ==> KindOf(ids[i]).Some?)
    && (forall i, j :: 0 <= i < j < |ids| ==> ids[i] != ids[j])
  }

  /** Place of a CONNACK property in its list; it shows that no identifier is listed
      twice. */
  function ConnackPlace(id: nat): nat {
    match id
    case 0x11 => 0 case 0x21 => 1 case 0x24 => 2 case 0x25 => 3 case 0x27 => 4 case 0x12 => 5
    case 0x22 => 6 case 0x1F => 7 case 0x26 => 8 case 0x28 => 9 case 0x29 => 10 case 0x2A => 11
    case 0x13 => 12 case 0x1A => 13 case 0x1C => 14 case 0x15 => 15 case _ => 16
  }

  lemma ConnackPlaceOf(i: nat)
    requires i < 17
    ensures ConnackPlace(Allowed(SConnack)[i]) == i && KindOf(Allowed(SConnack)[i]).Some?
  {
  }

  lemma AllowedDistinct(k: SectionKind, i: nat, j: nat)
    requires i < j < |Allowed(k)|
    ensures Allowed(k)[i] != Allowed(k)[j]
  {
    if k.SConnack? {
      ConnackPlaceOf(i);
      ConnackPlaceOf(j);
    }
  }

  lemma AllowedKnown(k: SectionKind)
    ensures KnownIds(Allowed(k))
  {
    var ids := Allowed(k);
    forall i | 0 <= i < |ids| ensures KindOf(ids[i]).Some? {
      if k.SConnack? {
        ConnackPlaceOf(i);
      }
    }
    forall i, j | 0 <= i < j < |ids| ensures ids[i] != ids[j] {
      AllowedDistinct(k, i, j);
    }
  }

  // ---------------------------------------------------------------------- values

  datatype Pair = Pair(key: bytes, value: bytes)

  /** A property value. `U` is one pair for a property on the wire, the list of pairs
      for the eager view of a section, and the stored tail for its lazy form. */
  datatype Value<+U> = Num(n: nat) | Data(b: bytes) | Users(u: U)

  predicate PairTyped(p: Pair) {
    ValidUtf8(p.key) && ValidUtf8(p.value)
  }

  predicate PairShort(p: Pair) {
    Short(p.key) && Short(p.value)
  }

  function EncodePair(p: Pair): bytes {
    EncodeBinary(p.key) + EncodeBinary(p.value)
  }

  function PairSize(p: Pair): nat {
    (2 + |p.key|) + (2 + |p.value|)
  }

  function ParsePair(s: bytes): Parse<Pair> {
    var (k, r) :- ParseText(s);
    var (v, r2) :- ParseText(r);
    Ok(Pair(k, v), r2)
  }

  lemma PairRoundTrip(p: Pair, r: bytes)
    requires PairTyped(p) && PairShort(p)
    ensures ParsePair(EncodePair(p) + r) == Ok(p, r)
  {
    hide ParseText, EncodeBinary, ValidUtf8;
    Associate(EncodeBinary(p.key), EncodeBinary(p.value), r);
    BinaryRoundTrip(p.key, EncodeBinary(p.value) + r);
    BinaryRoundTrip(p.value, r);
  }

  lemma PairExact(s: bytes)
    requires ParsePair(s).Ok?
    ensures var p := ParsePair(s);
            PairTyped(p.value) && PairShort(p.value) && s == EncodePair(p.value) + p.rest
  {
    hide ParseText, EncodeBinary, ValidUtf8, Short;
    TextExact(s);
    var key := ParseText(s);
    TextExact(key.rest);
    var value := ParseText(key.rest);
    Associate(EncodeBinary(key.value), EncodeBinary(value.value), value.rest);
  }

  /** What the Rust type of the property guarantees about a value that is not a user
      property; a variable byte integer is held in 32 bits. */
  predicate ScalarTyped<U>(k: Kind, v: Value<U>) {
    match k
    case U8 => v.Num? && v.n < 256
    case Flag => v.Num? && v.n <= 1
    case U16 => v.Num? && v.n < 0x1_0000
    case U16NonZero => v.Num? && 0 < v.n < 0x1_0000
    case U32 => v.Num? && v.n < 0x1_0000_0000
    case Var => v.Num? && v.n < 0x1_0000_0000
    case Text => v.Data? && ValidUtf8(v.b)
    case Binary => v.Data?
    case UserPair => false
  }

  /** `binary_size` panics on a variable byte integer above the maximum. */
  predicate ScalarSized<U>(k: Kind, v: Value<U>) {
    k.Var? && v.Num? ==> v.n <= VARIABLE_INTEGER_MAX
  }

  /** Writing the value reports no error. */
  predicate ScalarWritable<U>(k: Kind, v: Value<U>) {
    ScalarSized(k, v) && (v.Data? ==> Short(v.b))
  }

  function EncodeScalar<U>(k: Kind, v: Value<U>): bytes {
    match v
    case Num(n) => (
      match k
      case U16 => EncodeU16(n)
      case U16NonZero => EncodeU16(n)
      case U32 => EncodeU32(n)
      case Var => EncodeVar(n)
      case _ => [n % 256])
    case Data(b) => EncodeBinary(b)
    case Users(_) => []
  }

  function ScalarSize<U>(k: Kind, v: Value<U>): nat {
    match k
    case U8 => 1
    case Flag => 1
    case U16 => 2
    case U16NonZero => 2
    case U32 => 4
    case Var => if v.Num? then VarSize(v.n) else 0
    case Text => if v.Data? then 2 + |v.b| else 0
    case Binary => if v.Data? then 2 + |v.b| else 0
    case UserPair => 0
  }

  /** The parser each table entry names. */
  function ParseValue(k: Kind, s: bytes): Parse<Value<Pair>> {
    match k
    case U8 => (var (n, r) :- ParseU8(s); Ok(Num(n), r))
    case Flag => (var (n, r) :- ParseU8(s); if n > 1 then Fail else Ok(Num(n), r))
    case U16 => (var (n, r) :- ParseU16(s); Ok(Num(n), r))
    case U16NonZero => (var (n, r) :- ParseU16NonZero(s); Ok(Num(n), r))
    case U32 => (var (n, r) :- ParseU32(s); Ok(Num(n), r))
    case Var => (var (n, r) :- ParseVar(s); Ok(Num(n), r))
    case Text => (var (b, r) :- ParseText(s); Ok(Data(b), r))
    case Binary => (var (b, r) :- ParseBinary(s); Ok(Data(b), r))
    case UserPair => (var (p, r) :- ParsePair(s); Ok(Users(p), r))
  }

  // ----------------------------------------------------------------------- items

  /** One property on the wire. */
  datatype Item = Item(id: nat, value: Value<Pair>)

  predicate ItemFits(it: Item) {
    match KindOf(it.id)
    case None => false
    case Some(UserPair) => it.value.Users? && PairTyped(it.value.u) && PairShort(it.value.u)
    case Some(k) => ScalarTyped(k, it.value) && ScalarWritable(k, it.value)
  }

  function EncodeItemValue(it: Item): bytes
    requires ItemFits(it)
  {
    if it.value.Users? then EncodePair(it.value.u) else EncodeScalar(KindOf(it.id).value, it.value)
  }

  function EncodeItem(it: Item): bytes
    requires ItemFits(it)
  {
    EncodeVar(it.id) + EncodeItemValue(it)
  }

  function EncodeItems(items: seq<Item>): bytes
    requires forall i :: 0 <= i < |items| ==> ItemFits(items[i])
  {
    if items == [] then [] else EncodeItem(items[0]) + EncodeItems(items[1..])
  }

  /** Property::parse: identifier, then the value the table says. */
  function ParseItem(s: bytes): Parse<Item> {
    var (id, r) :- ParseVar(s);
    if KindOf(id).None? then Fail
    else
      var (v, r2) :- ParseValue(KindOf(id).value, r);
      Ok(Item(id, v), r2)
  }

  lemma ParseValueConsumes(k: Kind, s: bytes)
    requires ParseValue(k, s).Ok?
    ensures |ParseValue(k, s).rest| < |s|
  {
    if k.Var? {
      VarAccepted(s);
    }
  }

  lemma ParseItemConsumes(s: bytes)
    requires ParseVar(s).Ok?
    ensures |ParseVar(s).rest| < |s|
    ensures ParseItem(s).Ok? ==> |ParseItem(s).rest| < |s|
  {
    VarAccepted(s);
    var id := ParseVar(s).value;
    if KindOf(id).Some? && ParseItem(s).Ok? {
      ParseValueConsumes(KindOf(id).value, ParseVar(s).rest);
    }
  }

  /** All properties of a stretch of bytes, in wire order. */
  function ParseItems(s: bytes): Option<seq<Item>>
    decreases |s|
  {
    if s == [] then Some([])
    else
      match ParseItem(s)
      case Fail => None
      case Ok(it, r) =>
        ParseItemConsumes(s);
        match ParseItems(r)
        case None => None
        case Some(its) => Some([it] + its)
  }

  lemma ScalarRoundTrip(it: Item, r: bytes)
    requires ItemFits(it) && !it.value.Users?
    ensures var k := KindOf(it.id).value;
            ParseValue(k, EncodeScalar(k, it.value) + r) == Ok(it.value, r)
  {
    match KindOf(it.id).value
    case U16 => U16RoundTrip(it.value.n, r);
    case U16NonZero => U16RoundTrip(it.value.n, r);
    case U32 => U32RoundTrip(it.value.n, r);
    case Var => VarRoundTrip(it.value.n, r);
    case Text => BinaryRoundTrip(it.value.b, r);
    case Binary => BinaryRoundTrip(it.value.b, r);
    case UserPair =>
    case _ =>
      var s := EncodeScalar(KindOf(it.id).value, it.value) + r;
      assert s[1..] == r;
  }

  lemma ItemRoundTrip(it: Item, r: bytes)
    requires ItemFits(it)
    ensures ParseItem(EncodeItem(it) + r) == Ok(it, r)
  {
    var e := EncodeItemValue(it);
    Associate(EncodeVar(it.id), e, r);
    VarRoundTrip(it.id, e + r);
    if it.value.Users? {
      PairRoundTrip(it.value.u, r);
    } else {
      ScalarRoundTrip(it, r);
    }
  }

  lemma EncodeItemNonEmpty(it: Item)
    requires ItemFits(it)
    ensures EncodeItem(it) != []
  {
  }

  lemma {:induction false} ItemsRoundTrip(items: seq<Item>)
    requires forall i :: 0 <= i < |items| ==> ItemFits(items[i])
    ensures ParseItems(EncodeItems(items)) == Some(items)
  {
    hide ParseItem, EncodeItem, ItemFits;
    if items == [] {
    } else {
      var s, r := EncodeItems(items), EncodeItems(items[1..]);
      ItemRoundTrip(items[0], r);
      ItemsRoundTrip(items[1..]);
      EncodeItemNonEmpty(items[0]);
      assert items == [items[0]] + items[1..];
    }
  }

  /** A parsed value fits, and its encoding is no longer than what was read. */
  lemma ParsedValueFits(id: nat, s: bytes)
    requires KindOf(id).Some? && ParseValue(KindOf(id).value, s).Ok?
    ensures var p := ParseValue(KindOf(id).value, s);
            ItemFits(Item(id, p.value)) && |EncodeItemValue(Item(id, p.value))| + |p.rest| <= |s|
  {
    match KindOf(id).value
    case U16 => U16Exact(s);
    case U16NonZero => U16Exact(s);
    case U32 => U16Exact(s); U16Exact(ParseU16(s).rest);
    case Var => VarAccepted(s); EncodeVarShape(ParseVar(s).value);
    case Text => BinaryExact(s);
    case Binary => BinaryExact(s);
    case UserPair => PairExact(s);
    case _ =>
  }

  lemma ParsedItemFits(s: bytes)
    requires ParseItem(s).Ok?
    ensures var p := ParseItem(s); ItemFits(p.value) && |EncodeItem(p.value)| + |p.rest| <= |s|
  {
    VarAccepted(s);
    var id := ParseVar(s).value;
    ParsedValueFits(id, ParseVar(s).rest);
  }

  lemma {:induction false} ParsedItemsFit(s: bytes)
    requires ParseItems(s).Some?
    ensures var items := ParseItems(s).value;
            (forall i :: 0 <= i < |items| ==> ItemFits(items[i])) && |EncodeItems(items)| <= |s|
    decreases |s|
  {
    if s == [] {
    } else {
      ParsedItemFits(s);
      ParseItemConsumes(s);
      ParsedItemsFit(ParseItem(s).rest);
      var items := ParseItems(s).value;
      assert items[1..] == ParseItems(ParseItem(s).rest).value;
    }
  }

  /** The user properties among the items, in order. */
  function UsersOf(items: seq<Item>): seq<Pair> {
    if items == [] then []
    else (if items[0].value.Users? then [items[0].value.u] else []) + UsersOf(items[1..])
  }
}
