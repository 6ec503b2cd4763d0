/** Topic filters and topic names: building them level by level and matching
    (cloudmqtt/src/topic.rs, section 4.7 of MQTT 5.0). Text is a byte sequence; the
    separator, the wildcards and the null character are single bytes in UTF-8. */
module Topics {
  import opened Wire

  const SLASH: byte := 0x2F
  const PLUS: byte := 0x2B
  const HASH: byte := 0x23
  const NULL: byte := 0x00
  const MAXIMUM_TOPIC_BYTE_LENGTH: nat := 65535

  datatype TopicError =
    | LevelContainsSeparator
    | CannotAppendToMultilevelWildcard
    | Empty
    | MixedWildcardLevel
    | WouldExceedLength
    | NullCharacter

  datatype Level = Path(text: bytes) | SingleLevel | MultiLevel | EmptyLevel

  datatype LevelResult = Good(level: Level) | Bad(error: TopicError)

  function Text(l: Level): bytes {
    match l case Path(t) => t case SingleLevel => [PLUS] case MultiLevel => [HASH] case EmptyLevel => []
  }

  /** TopicPath::try_from. */
  function PathError(text: bytes): Option<TopicError> {
    if PLUS in text || HASH in text then Some(MixedWildcardLevel)
    else if NULL in text then Some(NullCharacter)
    else None
  }

  /** TopicFilterLevel::try_from. */
  function ParseLevel(text: bytes): LevelResult {
    if SLASH in text then Bad(LevelContainsSeparator)
    else if text == [] then Good(EmptyLevel)
    else if text == [PLUS] then Good(SingleLevel)
    else if text == [HASH] then Good(MultiLevel)
    else if PathError(text).Some? then Bad(PathError(text).value)
    else Good(Path(text))
  }

  // ---------------------------------------------------------------- splitting, joining

  /** str::split at the separator: at least one piece. */
  function Split(s: bytes): (parts: seq<bytes>)
    ensures parts != []
  {
    if s == [] then [[]]
    else
      var rest := Split(s[1..]);
      if s[0] == SLASH then [[]] + rest else [[s[0]] + rest[0]] + rest[1..]
  }

  function Join(parts: seq<bytes>): bytes {
    if parts == [] then []
    else if |parts| == 1 then parts[0]
    else parts[0] + [SLASH] + Join(parts[1..])
  }

  lemma {:induction false} JoinSplit(s: bytes)
    ensures Join(Split(s)) == s
  {
    if s == [] {
    } else {
      JoinSplit(s[1..]);
      var rest := Split(s[1..]);
      if s[0] == SLASH {
        assert ([[]] + rest)[1..] == rest;
        assert Join([[]] + rest) == [] + [SLASH] + Join(rest);
      } else {
        var parts := [[s[0]] + rest[0]] + rest[1..];
        assert parts[1..] == rest[1..];
        if |rest| > 1 {
          assert Join(parts) == [s[0]] + rest[0] + [SLASH] + Join(rest[1..]);
          assert [s[0]] + (rest[0] + [SLASH] + Join(rest[1..])) == Join(parts);
        }
        assert Join(parts) == [s[0]] + Join(rest);
      }
      assert s == [s[0]] + s[1..];
    }
  }

  lemma {:induction false} SplitHasNoSlash(s: bytes)
    ensures forall i :: 0 <= i < |Split(s)| ==> SLASH !in Split(s)[i]
  {
    if s == [] {
    } else {
      SplitHasNoSlash(s[1..]);
    }
  }

  /** Putting a byte in front of a text, seen on its pieces. */
  function Prepend(b: byte, parts: seq<bytes>): seq<bytes>
    requires parts != []
  {
    if b == SLASH then [[]] + parts else [[b] + parts[0]] + parts[1..]
  }

  lemma SplitStep(b: byte, s: bytes)
    ensures Split([b] + s) == Prepend(b, Split(s))
  {
    assert ([b] + s)[1..] == s;
  }

  lemma PrependConcat(b: byte, x: seq<bytes>, y: seq<bytes>)
    requires x != []
    ensures Prepend(b, x + y) == Prepend(b, x) + y
  {
    assert (x + y)[0] == x[0] && (x + y)[1..] == x[1..] + y;
  }

  lemma ConsConcat(x: byte, rest: bytes, tail: bytes)
    ensures ([x] + rest) + tail == [x] + (rest + tail)
  {
  }

  lemma SeparatorFirst(b: bytes)
    ensures Split([SLASH] + b) == Split([]) + Split(b)
  {
    SplitStep(SLASH, b);
  }

  lemma {:induction false} SplitJoined(a: bytes, b: bytes)
    ensures Split(a + ([SLASH] + b)) == Split(a) + Split(b)
  {
    hide Split, Prepend;
    if a == [] {
      assert a + ([SLASH] + b) == [SLASH] + b;
      SeparatorFirst(b);
    } else {
      var x, rest := a[0], a[1..];
      assert a == [x] + rest;
      ConsConcat(x, rest, [SLASH] + b);
      SplitJoined(rest, b);
      SplitStep(x, rest);
      SplitStep(x, rest + ([SLASH] + b));
      PrependConcat(x, Split(rest), Split(b));
    }
  }

  // --------------------------------------------------------------------- topic filters

  datatype Filter = Filter(levels: seq<Level>, hasEndWildcard: bool)

  function TextsOf(levels: seq<Level>): seq<bytes> {
    seq(|levels|, i requires 0 <= i < |levels| => Text(levels[i]))
  }

  /** TopicFilterBuf::len: one byte per level and the bytes of the levels. */
  function TextLength(parts: seq<bytes>): nat {
    if parts == [] then 0 else 1 + |parts[0]| + TextLength(parts[1..])
  }

  function FilterLen(f: Filter): nat {
    TextLength(TextsOf(f.levels))
  }

  function WithLevel(f: Filter, text: bytes): (Filter, Option<TopicError>) {
    if f.hasEndWildcard then (f, Some(CannotAppendToMultilevelWildcard))
    else
      match ParseLevel(text)
      case Bad(e) => (f, Some(e))
      case Good(l) =>
        if FilterLen(f) + 1 + |Text(l)| > MAXIMUM_TOPIC_BYTE_LENGTH then (f, Some(WouldExceedLength))
        else (Filter(f.levels + [l], l.MultiLevel?), None)
  }

  /** Levels are appended until the first error; those before it stay. */
  function WithParts(f: Filter, parts: seq<bytes>): (Filter, Option<TopicError>)
    decreases |parts|
  {
    if parts == [] then (f, None)
    else
      var (f', e) := WithLevel(f, parts[0]);
      if e.Some? then (f', e) else WithParts(f', parts[1..])
  }

  function WithLevels(f: Filter, levels: bytes): (Filter, Option<TopicError>) {
    WithParts(f, Split(levels))
  }

  datatype FilterResult = Built(filter: Filter) | Failed(error: TopicError)

  /** TopicFilterBuf::new. */
  function NewFilter(levels: bytes): FilterResult {
    if levels == [] then Failed(Empty)
    else
      match WithLevels(Filter([], false), levels)
      case (f, None) => Built(f)
      case (_, Some(e)) => Failed(e)
  }

  /** What every filter under construction satisfies. */
  ghost predicate FilterOk(f: Filter) {
    && FilterLen(f) <= MAXIMUM_TOPIC_BYTE_LENGTH
    && (forall i :: 0 <= i < |f.levels| ==> ParseLevel(Text(f.levels[i])) == Good(f.levels[i]))
    && (forall i :: 0 <= i < |f.levels| - 1 ==> !f.levels[i].MultiLevel?)
    && (f.hasEndWildcard <==> f.levels != [] && f.levels[|f.levels| - 1].MultiLevel?)
  }

  lemma {:induction false} TextLengthSnoc(parts: seq<bytes>, p: bytes)
    ensures TextLength(parts + [p]) == TextLength(parts) + 1 + |p|
  {
    if parts == [] {
      assert parts + [p] == [p];
    } else {
      assert (parts + [p])[1..] == parts[1..] + [p];
      TextLengthSnoc(parts[1..], p);
    }
  }

  lemma TextsSnoc(levels: seq<Level>, l: Level)
    ensures TextsOf(levels + [l]) == TextsOf(levels) + [Text(l)]
  {
  }

  lemma ParsedLevelText(text: bytes)
    requires ParseLevel(text).Good?
    ensures Text(ParseLevel(text).level) == text
  {
  }

  lemma AppendSingleOk(f: Filter, text: bytes)
    requires FilterOk(f)
    ensures var (f', e) := WithLevel(f, text);
            && FilterOk(f')
            && (e.None? ==> TextsOf(f'.levels) == TextsOf(f.levels) + [text])
            && (e.Some? ==> f' == f)
  {
    hide PathError;
    if !f.hasEndWildcard && ParseLevel(text).Good? {
      var l := ParseLevel(text).level;
      ParsedLevelText(text);
      TextsSnoc(f.levels, l);
      TextLengthSnoc(TextsOf(f.levels), text);
    }
  }

  lemma {:induction false} AppendPartsOk(f: Filter, parts: seq<bytes>)
    requires FilterOk(f)
    ensures var (f', e) := WithParts(f, parts);
            FilterOk(f') && (e.None? ==> TextsOf(f'.levels) == TextsOf(f.levels) + parts)
    decreases |parts|
  {
    hide WithLevel, FilterOk;
    if parts == [] {
      assert TextsOf(f.levels) + parts == TextsOf(f.levels);
    } else {
      AppendSingleOk(f, parts[0]);
      var (f', e) := WithLevel(f, parts[0]);
      if e.None? {
        AppendPartsOk(f', parts[1..]);
        assert (TextsOf(f.levels) + [parts[0]]) + parts[1..] == TextsOf(f.levels) + parts;
      }
    }
  }

  lemma {:induction false} JoinLength(parts: seq<bytes>)
    requires parts != []
    ensures |Join(parts)| + 1 == TextLength(parts)
  {
    if |parts| > 1 {
      JoinLength(parts[1..]);
    } else {
      assert parts[1..] == [];
    }
  }

  lemma EmptyFilterOk()
    ensures FilterOk(Filter([], false))
  {
  }

  /** A filter that was built spells the text it was built from, takes a level for a
      wildcard exactly when it is spelled as one, has `#` at most as its last level,
      knows whether it has, and is at most 65534 bytes long. */
  lemma BuiltFilter(s: bytes)
    requires NewFilter(s).Built?
    ensures var f := NewFilter(s).filter;
            && f.levels != [] && TextsOf(f.levels) == Split(s) && Join(TextsOf(f.levels)) == s && |s| <= 65534
            && (forall i :: 0 <= i < |f.levels| - 1 ==> !f.levels[i].MultiLevel?)
            && (f.hasEndWildcard <==> f.levels[|f.levels| - 1].MultiLevel?)
            && (forall i :: 0 <= i < |f.levels| ==>
                  && (f.levels[i].SingleLevel? <==> Text(f.levels[i]) == [PLUS])
                  && (f.levels[i].MultiLevel? <==> Text(f.levels[i]) == [HASH])
                  && (f.levels[i].EmptyLevel? <==> Text(f.levels[i]) == []))
  {
    hide WithParts;
    EmptyFilterOk();
    AppendPartsOk(Filter([], false), Split(s));
    assert TextsOf([]) + Split(s) == Split(s);
    JoinSplit(s);
    JoinLength(Split(s));
  }

  lemma {:induction false} AppendPartsConcat(f: Filter, a: seq<bytes>, b: seq<bytes>)
    ensures WithParts(f, a + b) ==
            var (f', e) := WithParts(f, a);
            if e.Some? then (f', e) else WithParts(f', b)
    decreases |a|
  {
    hide WithLevel;
    if a == [] {
      assert a + b == b;
    } else {
      assert (a + b)[1..] == a[1..] + b;
      AppendPartsConcat(WithLevel(f, a[0]).0, a[1..], b);
    }
  }

  /** Building is a homomorphism: building from a + "/" + b is building from a and then
      appending b, with the same filter or the same kind of error. */
  lemma BuildingIsHomomorphic(a: bytes, b: bytes)
    requires a != []
    ensures NewFilter(a + ([SLASH] + b)) ==
            match NewFilter(a)
            case Failed(e) => Failed(e)
            case Built(f) =>
              match WithLevels(f, b)
              case (f', None) => Built(f')
              case (_, Some(e)) => Failed(e)
  {
    hide WithParts, Split;
    SplitJoined(a, b);
    AppendPartsConcat(Filter([], false), Split(a), Split(b));
  }

  /** A level by its text: a wildcard on its own, or no wildcard and no null character
      (sections 4.7.1 and 4.7.3). */
  predicate ProperLevel(text: bytes) {
    text == [PLUS] || text == [HASH] || (PLUS !in text && HASH !in text && NULL !in text)
  }

  lemma LevelAccepted(text: bytes)
    ensures ParseLevel(text).Good? <==> SLASH !in text && ProperLevel(text)
  {
  }

  /** Every part is a proper level, and none but the last is `#`. */
  predicate FilterParts(parts: seq<bytes>) {
    && (forall i :: 0 <= i < |parts| ==> ProperLevel(parts[i]))
    && (forall i :: 0 <= i < |parts| - 1 ==> parts[i] != [HASH])
  }

  predicate NoSeparators(parts: seq<bytes>) {
    forall i :: 0 <= i < |parts| ==> SLASH !in parts[i]
  }

  lemma HashLevel(text: bytes)
    requires ParseLevel(text).Good?
    ensures ParseLevel(text).level.MultiLevel? <==> text == [HASH]
  {
  }

  lemma AppendSingleExact(f: Filter, text: bytes)
    requires FilterOk(f)
    ensures WithLevel(f, text).1.None? <==>
            && !f.hasEndWildcard && SLASH !in text && ProperLevel(text)
            && FilterLen(f) + 1 + |text| <= MAXIMUM_TOPIC_BYTE_LENGTH
    ensures WithLevel(f, text).1.None? ==>
              var f' := WithLevel(f, text).0;
              (f'.hasEndWildcard <==> text == [HASH]) && FilterLen(f') == FilterLen(f) + 1 + |text|
  {
    hide PathError, ProperLevel;
    AppendSingleOk(f, text);
    LevelAccepted(text);
    if ParseLevel(text).Good? {
      ParsedLevelText(text);
      HashLevel(text);
      TextLengthSnoc(TextsOf(f.levels), text);
    }
  }

  /** Which error is reported for a level, read off its text. */
  lemma AppendSingleErrors(f: Filter, text: bytes)
    requires FilterOk(f)
    ensures var e := WithLevel(f, text).1;
            && (e == Some(CannotAppendToMultilevelWildcard) <==> f.hasEndWildcard)
            && (e == Some(LevelContainsSeparator) <==> !f.hasEndWildcard && SLASH in text)
            && (e == Some(MixedWildcardLevel) <==>
                  && !f.hasEndWildcard && SLASH !in text && text != [PLUS] && text != [HASH]
                  && (PLUS in text || HASH in text))
            && (e == Some(NullCharacter) <==>
                  && !f.hasEndWildcard && SLASH !in text && PLUS !in text && HASH !in text && NULL in text)
            && (e == Some(WouldExceedLength) <==>
                  && !f.hasEndWildcard && SLASH !in text && ProperLevel(text) && FilterLen(f) + |text| > 65534)
            && e != Some(Empty)
  {
    hide FilterOk, FilterLen;
    if ParseLevel(text).Good? {
      ParsedLevelText(text);
    }
  }

  lemma {:induction false} AppendPartsExact(f: Filter, parts: seq<bytes>)
    requires FilterOk(f)
    ensures WithParts(f, parts).1.None? <==>
            parts == [] || (!f.hasEndWildcard && FilterParts(parts) && NoSeparators(parts)
                            && FilterLen(f) + TextLength(parts) <= MAXIMUM_TOPIC_BYTE_LENGTH)
    decreases |parts|
  {
    hide ParseLevel, ProperLevel, WithLevel, FilterOk, FilterLen;
    if parts == [] {
    } else {
      AppendSingleExact(f, parts[0]);
      AppendSingleOk(f, parts[0]);
      assert forall i :: 0 <= i < |parts| - 1 ==> parts[1..][i] == parts[i + 1];
      assert forall i :: 1 <= i < |parts| ==> parts[i] == parts[1..][i - 1];
      if WithLevel(f, parts[0]).1.None? {
        AppendPartsExact(WithLevel(f, parts[0]).0, parts[1..]);
      }
    }
  }

  /** A filter is accepted exactly when its text is not empty, at most 65534 bytes long
      (section 4.7.3 allows one more), and each piece between separators is `+`, or `#`
      in the last place, or has no wildcard and no null character. */
  lemma FilterAccepted(s: bytes)
    ensures NewFilter(s).Built? <==>
            s != [] && FilterParts(Split(s)) && |s| <= 65534
  {
    hide WithParts, FilterParts, Split, Join;
    EmptyFilterOk();
    SplitHasNoSlash(s);
    AppendPartsExact(Filter([], false), Split(s));
    JoinSplit(s);
    JoinLength(Split(s));
  }

  // ----------------------------------------------------------------------- topic names

  datatype NameResult = Named(levels: seq<bytes>) | NotNamed(error: TopicError)

  function NameWithLevel(levels: seq<bytes>, text: bytes): (seq<bytes>, Option<TopicError>) {
    if PathError(text).Some? then (levels, PathError(text))
    else if TextLength(levels) + 1 + |text| > MAXIMUM_TOPIC_BYTE_LENGTH then (levels, Some(WouldExceedLength))
    else (levels + [text], None)
  }

  function NameWithParts(levels: seq<bytes>, parts: seq<bytes>): (seq<bytes>, Option<TopicError>)
    decreases |parts|
  {
    if parts == [] then (levels, None)
    else
      var (l, e) := NameWithLevel(levels, parts[0]);
      if e.Some? then (l, e) else NameWithParts(l, parts[1..])
  }

  /** TopicNameBuf::new. */
  function NewName(levels: bytes): NameResult {
    if levels == [] then NotNamed(Empty)
    else
      match NameWithParts([], Split(levels))
      case (l, None) => Named(l)
      case (_, Some(e)) => NotNamed(e)
  }

  /** Which error is reported for a part of a name, read off its text. */
  lemma NameLevelErrors(levels: seq<bytes>, text: bytes)
    ensures var e := NameWithLevel(levels, text).1;
            && (e == Some(MixedWildcardLevel) <==> PLUS in text || HASH in text)
            && (e == Some(NullCharacter) <==> PLUS !in text && HASH !in text && NULL in text)
            && (e == Some(WouldExceedLength) <==>
                  PLUS !in text && HASH !in text && NULL !in text && TextLength(levels) + |text| > 65534)
            && (e.None? ==> NameWithLevel(levels, text).0 == levels + [text])
            && (e.Some? ==> NameWithLevel(levels, text).0 == levels)
            && e in {None, Some(MixedWildcardLevel), Some(NullCharacter), Some(WouldExceedLength)}
  {
  }

  /** Only the empty text is refused as empty. */
  lemma EmptyRefused(s: bytes)
    ensures NewFilter(s) == Failed(Empty) <==> s == []
    ensures NewName(s) == NotNamed(Empty) <==> s == []
  {
    hide WithLevel, NameWithLevel, FilterOk;
    EmptyFilterOk();
    FilterNeverEmpty(Filter([], false), Split(s));
    NameNeverEmpty([], Split(s));
  }

  lemma {:induction false} FilterNeverEmpty(f: Filter, parts: seq<bytes>)
    requires FilterOk(f)
    ensures WithParts(f, parts).1 != Some(Empty)
    decreases |parts|
  {
    hide WithLevel, FilterOk;
    if parts == [] {
    } else {
      AppendSingleErrors(f, parts[0]);
      AppendSingleOk(f, parts[0]);
      FilterNeverEmpty(WithLevel(f, parts[0]).0, parts[1..]);
    }
  }

  lemma {:induction false} NameNeverEmpty(levels: seq<bytes>, parts: seq<bytes>)
    ensures NameWithParts(levels, parts).1 != Some(Empty)
    decreases |parts|
  {
    hide NameWithLevel;
    if parts == [] {
    } else {
      NameLevelErrors(levels, parts[0]);
      NameNeverEmpty(NameWithLevel(levels, parts[0]).0, parts[1..]);
    }
  }

  /** A name is accepted part by part: no wildcard, no null, and within the length. */
  predicate GoodParts(used: nat, parts: seq<bytes>) {
    && (forall i :: 0 <= i < |parts| ==> PathError(parts[i]).None?)
    && used + TextLength(parts) <= MAXIMUM_TOPIC_BYTE_LENGTH
  }

  lemma {:induction false} NamePartsExact(levels: seq<bytes>, parts: seq<bytes>)
    requires TextLength(levels) <= MAXIMUM_TOPIC_BYTE_LENGTH
    ensures NameWithParts(levels, parts).1.None? <==> GoodParts(TextLength(levels), parts)
    ensures NameWithParts(levels, parts).1.None? ==> NameWithParts(levels, parts).0 == levels + parts
    decreases |parts|
  {
    hide PathError;
    if parts == [] {
      assert levels + parts == levels;
    } else if PathError(parts[0]).None? && TextLength(levels) + 1 + |parts[0]| <= MAXIMUM_TOPIC_BYTE_LENGTH {
      TextLengthSnoc(levels, parts[0]);
      NamePartsExact(levels + [parts[0]], parts[1..]);
      assert (levels + [parts[0]]) + parts[1..] == levels + parts;
      assert forall i :: 0 <= i < |parts| - 1 ==> parts[1..][i] == parts[i + 1];
      assert GoodParts(TextLength(levels), parts) <==> GoodParts(TextLength(levels + [parts[0]]), parts[1..]) by {
        assert forall i :: 1 <= i < |parts| ==> parts[i] == parts[1..][i - 1];
      }
    }
  }

  lemma {:induction false} NamePartsConcat(levels: seq<bytes>, a: seq<bytes>, b: seq<bytes>)
    ensures NameWithParts(levels, a + b) ==
            var (l, e) := NameWithParts(levels, a);
            if e.Some? then (l, e) else NameWithParts(l, b)
    decreases |a|
  {
    hide NameWithLevel;
    if a == [] {
      assert a + b == b;
    } else {
      assert (a + b)[1..] == a[1..] + b;
      NamePartsConcat(NameWithLevel(levels, a[0]).0, a[1..], b);
    }
  }

  /** Building a name from a + "/" + b is building from a and then appending b, with the
      same levels or the same kind of error. */
  lemma NamingIsHomomorphic(a: bytes, b: bytes)
    requires a != []
    ensures NewName(a + ([SLASH] + b)) ==
            match NewName(a)
            case NotNamed(e) => NotNamed(e)
            case Named(l) =>
              match NameWithParts(l, Split(b))
              case (l', None) => Named(l')
              case (_, Some(e)) => NotNamed(e)
  {
    hide NameWithParts, Split;
    SplitJoined(a, b);
    NamePartsConcat([], Split(a), Split(b));
  }

  ghost predicate InSome(b: byte, parts: seq<bytes>) {
    exists i :: 0 <= i < |parts| && b in parts[i]
  }

  lemma PrependHas(x: byte, parts: seq<bytes>, b: byte)
    requires parts != [] && b != SLASH
    ensures InSome(b, Prepend(x, parts)) <==> b == x || InSome(b, parts)
  {
    var all := Prepend(x, parts);
    var shift := |all| - |parts|;
    if InSome(b, parts) {
      var i :| 0 <= i < |parts| && b in parts[i];
      assert b in all[i + shift];
    }
    if b == x {
      assert b in all[0];
    }
    if InSome(b, all) && b != x {
      var i :| 0 <= i < |all| && b in all[i];
      assert b in parts[i - shift];
    }
  }

  lemma {:induction false} SplitPreserves(s: bytes, b: byte)
    requires b != SLASH
    ensures b in s <==> InSome(b, Split(s))
  {
    hide Split, Prepend, InSome;
    if s == [] {
      NothingSplit(b);
    } else {
      var x, rest := s[0], s[1..];
      assert s == [x] + rest;
      SplitPreserves(rest, b);
      SplitStep(x, rest);
      PrependHas(x, Split(rest), b);
    }
  }

  lemma NothingSplit(b: byte)
    ensures !InSome(b, Split([]))
  {
    assert Split([]) == [[]];
  }

  /** A topic name is accepted exactly when it is not empty, has no wildcard and no null
      character, and is at most 65534 bytes long; its levels spell the text. (Section
      4.7.3 allows one byte more.) */
  lemma NameAccepted(s: bytes)
    ensures NewName(s).Named? <==>
            s != [] && PLUS !in s && HASH !in s && NULL !in s && |s| <= 65534
    ensures NewName(s).Named? ==> NewName(s).levels == Split(s) && Join(NewName(s).levels) == s
  {
    hide Split, Join, NameWithParts;
    NamePartsExact([], Split(s));
    assert [] + Split(s) == Split(s);
    SplitPreserves(s, PLUS);
    SplitPreserves(s, HASH);
    SplitPreserves(s, NULL);
    JoinSplit(s);
    JoinLength(Split(s));
  }

  // -------------------------------------------------------------------------- building

  /** TopicFilterBuf, extended in place. */
  class TopicFilterBuf {
    var levels: seq<Level>
    var hasEndWildcard: bool

    ghost function Value(): Filter
      reads this
    {
      Filter(levels, hasEndWildcard)
    }

    constructor ()
      ensures Value() == Filter([], false)
    {
      levels, hasEndWildcard := [], false;
    }

    /** One byte per level and the bytes of the levels. */
    method Len() returns (length: nat)
      ensures length == FilterLen(Value())
    {
      length := 0;
      for i := 0 to |levels|
        invariant length == TextLength(TextsOf(levels)[..i])
      {
        TextLengthSnoc(TextsOf(levels)[..i], Text(levels[i]));
        assert TextsOf(levels)[..i + 1] == TextsOf(levels)[..i] + [Text(levels[i])];
        length := length + 1 + |Text(levels[i])|;
      }
      assert TextsOf(levels)[..|levels|] == TextsOf(levels);
    }

    method AppendSingle(text: bytes) returns (error: Option<TopicError>)
      modifies this
      ensures (Value(), error) == WithLevel(old(Value()), text)
    {
      if hasEndWildcard {
        return Some(CannotAppendToMultilevelWildcard);
      }
      var level := ParseLevel(text);
      if level.Bad? {
        return Some(level.error);
      }
      var length := Len();
      if length + 1 + |Text(level.level)| > MAXIMUM_TOPIC_BYTE_LENGTH {
        return Some(WouldExceedLength);
      }
      if level.level.MultiLevel? {
        hasEndWildcard := true;
      }
      levels := levels + [level.level];
      error := None;
    }

    method Append(text: bytes) returns (error: Option<TopicError>)
      modifies this
      ensures (Value(), error) == WithLevels(old(Value()), text)
    {
      hide WithLevel;
      var parts := Split(text);
      error := None;
      var i := 0;
      while i < |parts|
        invariant i <= |parts| && error == None
        invariant WithParts(old(Value()), parts) == WithParts(Value(), parts[i..])
      {
        assert parts[i..][0] == parts[i] && parts[i..][1..] == parts[i + 1..];
        error := AppendSingle(parts[i]);
        if error.Some? {
          return;
        }
        i := i + 1;
      }
    }
  }

  /** TopicNameBuf, extended in place. */
  class TopicNameBuf {
    var levels: seq<bytes>

    constructor ()
      ensures levels == []
    {
      levels := [];
    }

    method Len() returns (length: nat)
      ensures length == TextLength(levels)
    {
      length := 0;
      for i := 0 to |levels|
        invariant length == TextLength(levels[..i])
      {
        TextLengthSnoc(levels[..i], levels[i]);
        assert levels[..i + 1] == levels[..i] + [levels[i]];
        length := length + 1 + |levels[i]|;
      }
      assert levels[..|levels|] == levels;
    }

    method AppendSingle(text: bytes) returns (error: Option<TopicError>)
      modifies this
      ensures (levels, error) == NameWithLevel(old(levels), text)
    {
      error := PathError(text);
      if error.Some? {
        return;
      }
      var length := Len();
      if length + 1 + |text| > MAXIMUM_TOPIC_BYTE_LENGTH {
        return Some(WouldExceedLength);
      }
      levels := levels + [text];
    }

    method Append(text: bytes) returns (error: Option<TopicError>)
      modifies this
      ensures (levels, error) == NameWithParts(old(levels), Split(text))
    {
      hide NameWithLevel;
      var parts := Split(text);
      error := None;
      var i := 0;
      while i < |parts|
        invariant i <= |parts| && error == None
        invariant NameWithParts(old(levels), parts) == NameWithParts(levels, parts[i..])
      {
        assert parts[i..][0] == parts[i] && parts[i..][1..] == parts[i + 1..];
        error := AppendSingle(parts[i]);
        if error.Some? {
          return;
        }
        i := i + 1;
      }
    }
  }

  // -------------------------------------------------------------------------- matching

  predicate Compatible(l: Level, text: bytes) {
    match l
    case Path(p) => p == text
    case EmptyLevel => text == []
    case _ => true
  }

  /** Number of levels in front of a `#`. */
  function Cut(f: seq<Level>): (n: nat)
    ensures n <= |f|
  {
    if f == [] || f[0].MultiLevel? then 0 else 1 + Cut(f[1..])
  }

  /** Levels in front of a `#` fit, as far as both sides have them. */
  predicate FrontCompatible(f: seq<Level>, name: seq<bytes>) {
    forall i :: 0 <= i < Cut(f) && i < |name| ==> Compatible(f[i], name[i])
  }

  /** Section 4.7.1: level by level; `+` stands for one level, `#` for any number of
      remaining levels, none included. */
  predicate StandardMatch(f: seq<Level>, name: seq<bytes>) {
    if f == [] then name == []
    else if f[0].MultiLevel? then true
    else name != [] && Compatible(f[0], name[0]) && StandardMatch(f[1..], name[1..])
  }

  /** The level counts are those of a possible match. */
  predicate CountsFit(f: seq<Level>, name: seq<bytes>) {
    if Cut(f) < |f| then |name| >= Cut(f) else |name| == |f|
  }

  lemma {:induction false} CutIs(f: seq<Level>, k: nat)
    requires k <= |f| && (forall i :: 0 <= i < k ==> !f[i].MultiLevel?)
    requires k == |f| || f[k].MultiLevel?
    ensures Cut(f) == k
  {
    if k == 0 {
    } else {
      CutIs(f[1..], k - 1);
    }
  }

  lemma {:induction false} CutBefore(f: seq<Level>, i: nat)
    requires i < Cut(f)
    ensures !f[i].MultiLevel?
  {
    if i == 0 {
    } else {
      CutBefore(f[1..], i - 1);
    }
  }

  lemma {:induction false} CutEnd(f: seq<Level>)
    ensures Cut(f) < |f| ==> f[Cut(f)].MultiLevel?
  {
    if f == [] || f[0].MultiLevel? {
    } else {
      CutEnd(f[1..]);
    }
  }

  /** TopicNameBuf::matches: two iterators in step, looking one filter level ahead. */
  method Matches(filter: seq<Level>, name: seq<bytes>) returns (result: bool)
    requires filter != []
    ensures result <==> FrontCompatible(filter, name)
  {
    CutEnd(filter);
    if filter[0].MultiLevel? {
      return true;
    }
    var i := 0;
    while i < |filter| && i < |name|
      invariant i <= Cut(filter) && i <= |name|
      invariant forall k :: 0 <= k < i ==> Compatible(filter[k], name[k])
      decreases |name| - i
    {
      if i < Cut(filter) {
        CutBefore(filter, i);
      }
      match filter[i] {
        case Path(p) =>
          if p != name[i] {
            return false;
          }
          if i + 1 < |filter| && filter[i + 1].MultiLevel? {
            assert Cut(filter) <= i + 1 by {
              if i + 1 < Cut(filter) {
                CutBefore(filter, i + 1);
              }
            }
            return true;
          }
        case EmptyLevel =>
          if name[i] != [] {
            return false;
          }
        case SingleLevel =>
        case MultiLevel =>
          return true;
      }
      i := i + 1;
    }
    result := true;
  }

  /** The code's answer against the standard's: a standard match is exactly an accepted
      one whose level counts fit. */
  lemma {:induction false} MatchesAgainstStandard(f: seq<Level>, name: seq<bytes>)
    ensures StandardMatch(f, name) <==> FrontCompatible(f, name) && CountsFit(f, name)
  {
    if f == [] || f[0].MultiLevel? || name == [] {
    } else {
      MatchesAgainstStandard(f[1..], name[1..]);
      assert Cut(f) == 1 + Cut(f[1..]);
      if FrontCompatible(f, name) {
        forall i | 0 <= i < Cut(f[1..]) && i < |name[1..]| ensures Compatible(f[1..][i], name[1..][i]) {
          assert Compatible(f[i + 1], name[i + 1]);
        }
      }
      if Compatible(f[0], name[0]) && FrontCompatible(f[1..], name[1..]) {
        forall i | 0 <= i < Cut(f) && i < |name| ensures Compatible(f[i], name[i]) {
          if i > 0 {
            assert Compatible(f[1..][i - 1], name[1..][i - 1]);
          }
        }
      }
    }
  }

  /** The two agree exactly when the level counts fit or some level in front of a `#` is
      incompatible. */
  lemma AgreesWithStandardIff(f: seq<Level>, name: seq<bytes>)
    ensures (FrontCompatible(f, name) <==> StandardMatch(f, name)) <==>
            CountsFit(f, name)
            || exists i :: 0 <= i < Cut(f) && i < |name| && !Compatible(f[i], name[i])
  {
    MatchesAgainstStandard(f, name);
  }

  lemma SplitPlain(text: bytes)
    requires SLASH !in text
    ensures Split(text) == [text]
  {
    if text == [] {
    } else {
      SplitPlain(text[1..]);
      assert [text[0]] + text[1..] == text;
    }
  }

  /** Appending a path to a short filter that does not end in `#`. */
  lemma PathAppended(f: Filter, text: bytes)
    requires !f.hasEndWildcard && text != [] && SLASH !in text && PathError(text).None?
    requires FilterLen(f) + 1 + |text| <= MAXIMUM_TOPIC_BYTE_LENGTH
    ensures WithLevel(f, text) == (Filter(f.levels + [Path(text)], false), None)
    ensures FilterLen(Filter(f.levels + [Path(text)], false)) == FilterLen(f) + 1 + |text|
  {
    TextsSnoc(f.levels, Path(text));
    TextLengthSnoc(TextsOf(f.levels), text);
  }

  lemma ShortOfTwo(l: Level, m: Level, text: bytes)
    requires !l.MultiLevel? && !m.MultiLevel? && Compatible(l, text)
    ensures FrontCompatible([l, m], [text]) && !StandardMatch([l, m], [text])
  {
    CutIs([l, m], 2);
    MatchesAgainstStandard([l, m], [text]);
  }

  /** The filter a/b accepts the name a, which the standard does not match. */
  lemma ShortNameAccepted()
    ensures var f, n := NewFilter([0x61, SLASH, 0x62]), NewName([0x61]);
            && f.Built? && n.Named?
            && FrontCompatible(f.filter.levels, n.levels) && !StandardMatch(f.filter.levels, n.levels)
  {
    var a: bytes, b: bytes, empty := [0x61], [0x62], Filter([], false);
    SplitJoined(a, b);
    SplitPlain(a);
    SplitPlain(b);
    assert a + ([SLASH] + b) == [0x61, SLASH, 0x62];
    var parts := [a, b];
    assert parts[1..] == [b];
    PathAppended(empty, a);
    assert empty.levels + [Path(a)] == [Path(a)];
    PathAppended(Filter([Path(a)], false), b);
    assert [Path(a)] + [Path(b)] == [Path(a), Path(b)];
    hide WithLevel, FrontCompatible, StandardMatch;
    assert WithParts(Filter([Path(a)], false), parts[1..]) == (Filter([Path(a), Path(b)], false), None);
    NameAccepted(a);
    ShortOfTwo(Path(a), Path(b), a);
  }

  /** For a built filter the cut is at its end wildcard. */
  lemma CutOfBuilt(s: bytes)
    requires NewFilter(s).Built?
    ensures var f := NewFilter(s).filter;
            Cut(f.levels) == |f.levels| - (if f.hasEndWildcard then 1 else 0)
  {
    BuiltFilter(s);
    var f := NewFilter(s).filter;
    CutIs(f.levels, |f.levels| - (if f.hasEndWildcard then 1 else 0));
  }
}
