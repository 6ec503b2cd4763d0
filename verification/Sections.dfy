/** Property sections: the lazy parser of properties.rs, the eager view of what it
    stores, the writer, and the agreement between them. */
module Sections {
  import opened Wire
  import opened Properties

  type Section<U> = map<nat, Value<U>>
  /** User properties as the list they iterate to. */
  type Eager = Section<seq<Pair>>
  /** User properties as stored: the bytes from the first one to the end of the section. */
  type Lazy = Section<bytes>

  function Recast<U, V>(v: Value<U>): Value<V>
    requires !v.Users?
  {
    match v case Num(n) => Num(n) case Data(b) => Data(b)
  }

  // ------------------------------------------------------------------ well-formedness

  /** What the Rust types guarantee about a stored property. */
  predicate FieldTyped(id: nat, v: Value<seq<Pair>>) {
    match KindOf(id)
    case None => false
    case Some(UserPair) => v.Users? && v.u != [] && forall i :: 0 <= i < |v.u| ==> PairTyped(v.u[i])
    case Some(k) => ScalarTyped(k, v)
  }

  /** `binary_size` has a size for the property: it panics on a variable byte integer
      above the maximum. */
  predicate FieldSized(id: nat, v: Value<seq<Pair>>) {
    KindOf(id).Some? ==> ScalarSized(KindOf(id).value, v)
  }

  /** Writing the property reports no error. */
  predicate FieldWritable(id: nat, v: Value<seq<Pair>>) {
    FieldSized(id, v) &&
    match v
    case Num(_) => true
    case Data(b) => Short(b)
    case Users(list) => forall i :: 0 <= i < |list| ==> PairShort(list[i])
  }

  ghost predicate SectionTyped(ids: seq<nat>, sec: Eager) {
    forall id :: id in sec ==> id in ids && FieldTyped(id, sec[id])
  }

  ghost predicate FieldsSized(sec: Eager) {
    forall id :: id in sec ==> FieldSized(id, sec[id])
  }

  ghost predicate FieldsWritable(sec: Eager) {
    forall id :: id in sec ==> FieldWritable(id, sec[id])
  }

  // --------------------------------------------------------------------- size, write

  function MoreUsersSize(list: seq<Pair>): nat {
    if list == [] then 0
    else VarSize(USER_PROPERTY) + PairSize(list[0]) + MoreUsersSize(list[1..])
  }

  /** The identifier in front of the first pair is written by the section. */
  function UsersSize(list: seq<Pair>): nat {
    if list == [] then 0 else PairSize(list[0]) + MoreUsersSize(list[1..])
  }

  function EncodeMoreUsers(list: seq<Pair>): bytes {
    if list == [] then []
    else EncodeVar(USER_PROPERTY) + (EncodePair(list[0]) + EncodeMoreUsers(list[1..]))
  }

  function EncodeUsers(list: seq<Pair>): bytes {
    if list == [] then [] else EncodePair(list[0]) + EncodeMoreUsers(list[1..])
  }

  function EncodeFieldValue(id: nat, v: Value<seq<Pair>>): bytes {
    match KindOf(id)
    case None => []
    case Some(k) => if v.Users? then EncodeUsers(v.u) else EncodeScalar(k, v)
  }

  function FieldValueSize(id: nat, v: Value<seq<Pair>>): nat {
    match KindOf(id)
    case None => 0
    case Some(k) => if v.Users? then UsersSize(v.u) else ScalarSize(k, v)
  }

  /** Bytes of property `id`, none when it is absent. */
  function EncodeField(id: nat, sec: Eager): bytes {
    if id in sec then EncodeVar(id) + EncodeFieldValue(id, sec[id]) else []
  }

  function FieldSize(id: nat, sec: Eager): nat {
    if id in sec then VarSize(id) + FieldValueSize(id, sec[id]) else 0
  }

  function EncodeFields(ids: seq<nat>, sec: Eager): bytes {
    if ids == [] then [] else EncodeField(ids[0], sec) + EncodeFields(ids[1..], sec)
  }

  function FieldsSize(ids: seq<nat>, sec: Eager): nat {
    if ids == [] then 0 else FieldSize(ids[0], sec) + FieldsSize(ids[1..], sec)
  }

  function EncodeSection(ids: seq<nat>, sec: Eager): bytes {
    EncodeVar(FieldsSize(ids, sec)) + EncodeFields(ids, sec)
  }

  function SectionSize(ids: seq<nat>, sec: Eager): nat {
    VarSize(FieldsSize(ids, sec)) + FieldsSize(ids, sec)
  }

  /** `binary_size` has a size for the section. */
  ghost predicate SectionSized(ids: seq<nat>, sec: Eager) {
    FieldsSized(sec) && FieldsSize(ids, sec) <= VARIABLE_INTEGER_MAX
  }

  /** Writing the section reports no error. */
  ghost predicate SectionWritable(ids: seq<nat>, sec: Eager) {
    FieldsWritable(sec) && FieldsSize(ids, sec) <= VARIABLE_INTEGER_MAX
  }

  lemma {:induction false} MoreUsersExact(list: seq<Pair>)
    ensures |EncodeMoreUsers(list)| == MoreUsersSize(list)
  {
    if list == [] {
    } else {
      EncodeVarShape(USER_PROPERTY);
      MoreUsersExact(list[1..]);
    }
  }

  lemma FieldExact(id: nat, sec: Eager)
    requires id in sec ==> FieldTyped(id, sec[id]) && FieldSized(id, sec[id])
    ensures |EncodeField(id, sec)| == FieldSize(id, sec)
  {
    if id in sec {
      EncodeVarShape(id);
      var v := sec[id];
      if v.Users? {
        MoreUsersExact(v.u[1..]);
      } else if KindOf(id).value.Var? {
        EncodeVarShape(v.n);
      }
    }
  }

  /** The computed size is the number of bytes written, field by field. */
  lemma {:induction false} FieldsExact(ids: seq<nat>, sec: Eager)
    requires forall id :: id in sec ==> FieldTyped(id, sec[id]) && FieldSized(id, sec[id])
    ensures |EncodeFields(ids, sec)| == FieldsSize(ids, sec)
  {
    if ids == [] {
    } else {
      FieldExact(ids[0], sec);
      FieldsExact(ids[1..], sec);
    }
  }

  lemma SectionExact(ids: seq<nat>, sec: Eager)
    requires SectionTyped(ids, sec) && SectionSized(ids, sec)
    ensures |EncodeSection(ids, sec)| == SectionSize(ids, sec)
  {
    FieldsExact(ids, sec);
    EncodeVarShape(FieldsSize(ids, sec));
  }

  // ------------------------------------------------------------------ eager collecting

  function UsersIn(sec: Eager): seq<Pair> {
    if USER_PROPERTY in sec && sec[USER_PROPERTY].Users? then sec[USER_PROPERTY].u else []
  }

  /** use_slot, keeping every user property. */
  function Slot(sec: Eager, it: Item): Option<Eager> {
    if it.value.Users? then Some(sec[USER_PROPERTY := Users(UsersIn(sec) + [it.value.u])])
    else if it.id in sec then None
    else Some(sec[it.id := Recast(it.value)])
  }

  function Collect(ids: seq<nat>, sec: Eager, items: seq<Item>): Option<Eager>
    decreases |items|
  {
    if items == [] then Some(sec)
    else if items[0].id !in ids then None
    else
      match Slot(sec, items[0])
      case None => None
      case Some(sec') => Collect(ids, sec', items[1..])
  }

  // ------------------------------------------------------------------ lazy parsing

  /** use_slot as the source has it: a repeated user property is validated and ignored,
      the first one stores the bytes that follow its identifier. */
  function UseSlot(slots: Lazy, id: nat, v: Value<Pair>, afterId: bytes): Option<Lazy> {
    if id in slots then (if id == USER_PROPERTY then Some(slots) else None)
    else Some(slots[id := if v.Users? then Users(afterId) else Recast(v)])
  }

  function ParseSlots(ids: seq<nat>, slots: Lazy, s: bytes): Option<Lazy>
    decreases |s|
  {
    if s == [] then Some(slots)
    else
      match ParseVar(s)
      case Fail => None
      case Ok(id, afterId) =>
        if id !in ids || KindOf(id).None? then None
        else
          match ParseValue(KindOf(id).value, afterId)
          case Fail => None
          case Ok(v, r) =>
            ParseItemConsumes(s);
            match UseSlot(slots, id, v, afterId)
            case None => None
            case Some(slots') => ParseSlots(ids, slots', r)
  }

  /** A section: its length as a variable byte integer, then the properties. */
  function ParseSection(ids: seq<nat>, s: bytes): Parse<Lazy> {
    var (n, r) :- ParseVar(s);
    if n > |r| then Fail
    else
      match ParseSlots(ids, map[], r[..n])
      case None => Fail
      case Some(slots) => Ok(slots, r[n..])
  }

  /** Iterating a stored tail never meets an `expect` that fires. */
  predicate TailValid(tail: bytes) {
    ParsePair(tail).Ok? && ParseItems(ParsePair(tail).rest).Some?
  }

  /** The user properties a stored tail iterates to. */
  function UserList(tail: bytes): seq<Pair> {
    if TailValid(tail) then
      [ParsePair(tail).value] + UsersOf(ParseItems(ParsePair(tail).rest).value)
    else []
  }

  function ViewValue(v: Value<bytes>): Value<seq<Pair>> {
    match v case Users(tail) => Users(UserList(tail)) case Num(n) => Num(n) case Data(b) => Data(b)
  }

  function ViewSection(slots: Lazy): Eager {
    map id | id in slots :: ViewValue(slots[id])
  }

  ghost predicate TailsValid(slots: Lazy) {
    forall id :: id in slots ==> (slots[id].Users? <==> id == USER_PROPERTY)
                                 && (slots[id].Users? ==> TailValid(slots[id].u))
  }

  // ------------------------------------------------------- lazy agrees with eager

  /** The eager section once the user properties still to come are added. */
  function Extend(sec: Eager, more: seq<Pair>): Eager {
    if USER_PROPERTY in sec then sec[USER_PROPERTY := Users(UsersIn(sec) + more)] else sec
  }

  /** The parser's slots describe, at every point, the eager section so far together
      with the user properties it has not reached yet. */
  ghost predicate Agrees(slots: Lazy, sec: Eager, more: seq<Pair>) {
    && TailsValid(slots)
    && (USER_PROPERTY in sec ==> sec[USER_PROPERTY].Users?)
    && ViewSection(slots) == Extend(sec, more)
  }

  lemma ScalarSlotAgrees(slots: Lazy, sec: Eager, id: nat, v: Value<Pair>, tail: bytes, more: seq<Pair>)
    requires id != USER_PROPERTY && !v.Users? && Agrees(slots, sec, more)
    ensures id in slots <==> id in sec
    ensures id !in sec ==>
              Agrees(UseSlot(slots, id, v, tail).value, Slot(sec, Item(id, v)).value, more)
  {
    assert ViewSection(slots).Keys == slots.Keys;
    if id !in sec {
      ViewStores(slots, id, v);
      ExtendStores(sec, id, Recast(v), more);
    }
  }

  lemma ViewStores(slots: Lazy, id: nat, v: Value<Pair>)
    requires !v.Users?
    ensures ViewSection(slots[id := Recast(v)]) == ViewSection(slots)[id := Recast(v)]
  {
    hide UserList;
  }

  lemma ExtendStores(sec: Eager, id: nat, v: Value<seq<Pair>>, more: seq<Pair>)
    requires id != USER_PROPERTY && id !in sec
    ensures Extend(sec[id := v], more) == Extend(sec, more)[id := v]
  {
    if USER_PROPERTY in sec {
      assert sec[id := v][USER_PROPERTY := Users(UsersIn(sec) + more)]
          == sec[USER_PROPERTY := Users(UsersIn(sec) + more)][id := v];
    }
  }

  lemma UserSlotAgrees(slots: Lazy, sec: Eager, p: Pair, tail: bytes, more: seq<Pair>)
    requires Agrees(slots, sec, [p] + more)
    requires TailValid(tail) && UserList(tail) == [p] + more
    ensures UseSlot(slots, USER_PROPERTY, Users(p), tail).Some?
    ensures Agrees(UseSlot(slots, USER_PROPERTY, Users(p), tail).value,
                   Slot(sec, Item(USER_PROPERTY, Users(p))).value, more)
  {
    hide TailValid, UserList;
    assert ViewSection(slots).Keys == slots.Keys;
    var sec' := Slot(sec, Item(USER_PROPERTY, Users(p))).value;
    if USER_PROPERTY in sec {
      assert UsersIn(sec') + more == UsersIn(sec) + ([p] + more);
    } else {
      assert UsersIn(sec') + more == [p] + more;
      assert ViewSection(slots[USER_PROPERTY := Users(tail)])
          == ViewSection(slots)[USER_PROPERTY := Users([p] + more)];
    }
    assert Extend(sec', more) == sec[USER_PROPERTY := Users(UsersIn(sec') + more)];
  }

  /** The bytes behind the identifier of a user property iterate to that property and
      the ones that follow. */
  lemma TailOfUserItem(s: bytes, items: seq<Item>)
    requires ParseItem(s).Ok? && ParseItem(s).value.value.Users?
    requires ParseItems(ParseItem(s).rest) == Some(items)
    ensures var p, tail := ParseItem(s).value, ParseVar(s).rest;
            && p.id == USER_PROPERTY && TailValid(tail)
            && UserList(tail) == [p.value.u] + UsersOf(items)
  {
    hide ParsePair, ParseItems, UsersOf;
  }

  lemma ItemShape(it: Item)
    requires ItemFits(it)
    ensures it.value.Users? <==> it.id == USER_PROPERTY
    ensures it == Item(it.id, it.value) && (it.value.Users? ==> it == Item(it.id, Users(it.value.u)))
  {
  }

  lemma SlotAgrees(slots: Lazy, sec: Eager, s: bytes)
    requires s != [] && ParseItems(s).Some? && Agrees(slots, sec, UsersOf(ParseItems(s).value))
    ensures var p, items := ParseItem(s), ParseItems(s).value;
            && p.Ok? && items != [] && p.value == items[0] && ItemFits(p.value)
            && ParseItems(p.rest) == Some(items[1..]) && |p.rest| < |s|
    ensures var it, tail := ParseItem(s).value, ParseVar(s).rest;
            && (UseSlot(slots, it.id, it.value, tail).Some? <==> Slot(sec, it).Some?)
            && (Slot(sec, it).Some? ==>
                  Agrees(UseSlot(slots, it.id, it.value, tail).value, Slot(sec, it).value,
                         UsersOf(ParseItems(s).value[1..])))
  {
    var items := ParseItems(s).value;
    ParseItemsStep(s, items);
    ParsedItemFits(s);
    ItemShape(items[0]);
    var it, tail, more := items[0], ParseVar(s).rest, UsersOf(items[1..]);
    hide *;
    if it.value.Users? {
      TailOfUserItem(s, items[1..]);
      UserSlotAgrees(slots, sec, it.value.u, tail, more);
    } else {
      assert [] + more == more;
      ScalarSlotAgrees(slots, sec, it.id, it.value, tail, more);
    }
  }

  lemma ParseItemsStep(s: bytes, items: seq<Item>)
    requires s != [] && ParseItems(s) == Some(items)
    ensures items != [] && ParseItem(s).Ok? && ParseItem(s).value == items[0]
    ensures ParseItems(ParseItem(s).rest) == Some(items[1..])
    ensures |ParseItem(s).rest| < |s|
  {
    ParseItemConsumes(s);
    hide ParseItem;
  }

  /** The lazy parser accepts what eager collecting accepts, and its view is the eager
      section. */
  lemma {:induction false} LazyAgreesWithEager(ids: seq<nat>, slots: Lazy, sec: Eager, s: bytes)
    requires ParseItems(s).Some? ==> Agrees(slots, sec, UsersOf(ParseItems(s).value))
    ensures ParseSlots(ids, slots, s).Some? <==>
            ParseItems(s).Some? && Collect(ids, sec, ParseItems(s).value).Some?
    ensures ParseSlots(ids, slots, s).Some? ==>
              && TailsValid(ParseSlots(ids, slots, s).value)
              && Some(ViewSection(ParseSlots(ids, slots, s).value))
                 == Collect(ids, sec, ParseItems(s).value)
    decreases |s|
  {
    if s == [] {
      assert UsersIn(sec) + [] == UsersIn(sec);
      assert Extend(sec, []) == sec;
    } else if ParseItems(s).Some? {
      SlotAgrees(slots, sec, s);
      var it, tail := ParseItem(s).value, ParseVar(s).rest;
      if it.id in ids && Slot(sec, it).Some? {
        LazyAgreesWithEager(ids, UseSlot(slots, it.id, it.value, tail).value,
                            Slot(sec, it).value, ParseItem(s).rest);
      }
    } else {
      SlotsNeedItems(ids, slots, s);
    }
  }

  lemma {:induction false} SlotsNeedItems(ids: seq<nat>, slots: Lazy, s: bytes)
    requires ParseItems(s).None?
    ensures ParseSlots(ids, slots, s).None?
    decreases |s|
  {
    if ParseItem(s).Fail? {
    } else {
      ParseItemConsumes(s);
      var p := ParseItem(s);
      var u := UseSlot(slots, p.value.id, p.value.value, ParseVar(s).rest);
      if u.Some? {
        SlotsNeedItems(ids, u.value, p.rest);
      }
    }
  }

  // ------------------------------------------------------------ what is accepted

  ghost predicate HasId(items: seq<Item>, id: nat) {
    exists i :: 0 <= i < |items| && items[i].id == id
  }

  /** No property but the user property repeats (section 2.2.2.2 of MQTT 5.0); the code
      makes no exception for the Subscription Identifiers of a PUBLISH, which section
      3.3.2.3.8 lets repeat. */
  ghost predicate NoRepeat(items: seq<Item>) {
    forall i, j :: 0 <= i < j < |items| && items[i].id == items[j].id ==> items[i].id == USER_PROPERTY
  }

  ghost predicate Acceptable(ids: seq<nat>, items: seq<Item>) {
    (forall i :: 0 <= i < |items| ==> items[i].id in ids) && NoRepeat(items)
  }

  ghost predicate WellShaped(items: seq<Item>) {
    forall i :: 0 <= i < |items| ==> (items[i].value.Users? <==> items[i].id == USER_PROPERTY)
  }

  /** The section that a list of items stands for, whatever their order. */
  ghost predicate Describes(sec: Eager, items: seq<Item>) {
    && (forall id :: id in sec <==> HasId(items, id))
    && (forall i :: 0 <= i < |items| && !items[i].value.Users? ==>
          items[i].id in sec && sec[items[i].id] == Recast(items[i].value))
    && (USER_PROPERTY in sec ==> sec[USER_PROPERTY] == Users(UsersOf(items)))
  }

  lemma {:induction false} UsersOfSnoc(items: seq<Item>, it: Item)
    ensures UsersOf(items + [it]) == UsersOf(items) + (if it.value.Users? then [it.value.u] else [])
  {
    if items == [] {
      assert items + [it] == [it];
    } else {
      assert (items + [it])[1..] == items[1..] + [it];
      UsersOfSnoc(items[1..], it);
      var first := if items[0].value.Users? then [items[0].value.u] else [];
      var last := if it.value.Users? then [it.value.u] else [];
      assert UsersOf(items + [it]) == first + (UsersOf(items[1..]) + last);
      assert (first + UsersOf(items[1..])) + last == first + (UsersOf(items[1..]) + last);
    }
  }

  lemma {:induction false} UsersOfNone(items: seq<Item>)
    requires WellShaped(items) && !HasId(items, USER_PROPERTY)
    ensures UsersOf(items) == []
  {
    if items == [] {
    } else {
      assert items[0].id != USER_PROPERTY;
      assert forall i :: 0 <= i < |items| - 1 ==> items[1..][i] == items[i + 1];
      UsersOfNone(items[1..]);
    }
  }

  lemma DescribesSnoc(sec: Eager, items: seq<Item>, it: Item)
    requires WellShaped(items + [it]) && Describes(sec, items)
    requires !it.value.Users? ==> it.id !in sec
    ensures Slot(sec, it).Some? && Describes(Slot(sec, it).value, items + [it])
  {
    hide UsersOf, HasId;
    var all, sec' := items + [it], Slot(sec, it).value;
    assert all[|items|] == it && (forall i :: 0 <= i < |items| ==> all[i] == items[i]);
    UsersOfSnoc(items, it);
    HasIdSnoc(items, it);
    if it.value.Users? {
      assert UsersIn(sec) == UsersOf(items) by {
        if USER_PROPERTY !in sec {
          UsersOfNone(items);
        }
      }
    } else {
      assert UsersOf(items) + [] == UsersOf(items);
    }
  }

  lemma HasIdSnoc(items: seq<Item>, it: Item)
    ensures forall id :: HasId(items + [it], id) <==> HasId(items, id) || id == it.id
  {
    var all := items + [it];
    forall id ensures HasId(all, id) <==> HasId(items, id) || id == it.id {
      if HasId(items, id) {
        var i :| 0 <= i < |items| && items[i].id == id;
        assert all[i].id == id;
      }
      if HasId(all, id) && id != it.id {
        var i :| 0 <= i < |all| && all[i].id == id;
        assert items[i].id == id;
      }
      assert all[|items|].id == it.id;
    }
  }

  lemma RepeatRefused(ids: seq<nat>, done: seq<Item>, it: Item, rest: seq<Item>)
    requires it.id !in ids || (it.id != USER_PROPERTY && HasId(done, it.id))
    ensures !Acceptable(ids, done + ([it] + rest))
  {
    var all := done + ([it] + rest);
    assert all[|done|] == it;
    if it.id in ids {
      var i :| 0 <= i < |done| && done[i].id == it.id;
      assert all[i] == done[i];
    }
  }

  lemma AcceptableSnoc(ids: seq<nat>, done: seq<Item>, it: Item)
    requires Acceptable(ids, done) && it.id in ids && (it.id == USER_PROPERTY || !HasId(done, it.id))
    ensures Acceptable(ids, done + [it])
  {
    var done' := done + [it];
    assert forall i :: 0 <= i < |done| ==> done'[i] == done[i];
    forall i | 0 <= i < |done| && done'[i].id == it.id ensures it.id == USER_PROPERTY {
      assert HasId(done, done[i].id);
    }
  }

  lemma ShapeOf(items: seq<Item>, i: nat)
    requires WellShaped(items) && i < |items|
    ensures items[i].value.Users? <==> items[i].id == USER_PROPERTY
    ensures WellShaped(items[..i + 1])
  {
  }

  /** Collecting succeeds exactly on acceptable lists. */
  lemma {:induction false} CollectDescribes(ids: seq<nat>, sec: Eager, done: seq<Item>, todo: seq<Item>)
    requires WellShaped(done + todo) && Describes(sec, done) && Acceptable(ids, done)
    ensures Collect(ids, sec, todo).Some? <==> Acceptable(ids, done + todo)
    ensures Collect(ids, sec, todo).Some? ==> Describes(Collect(ids, sec, todo).value, done + todo)
    decreases |todo|
  {
    hide WellShaped, Acceptable, HasId;
    if todo == [] {
      assert done + todo == done;
    } else {
      var it, rest, all := todo[0], todo[1..], done + todo;
      assert todo == [it] + rest && all == (done + [it]) + rest;
      assert all[|done|] == it && all[..|done| + 1] == done + [it];
      ShapeOf(all, |done|);
      assert it.id in sec <==> HasId(done, it.id);
      if it.id !in ids || (!it.value.Users? && it.id in sec) {
        RepeatRefused(ids, done, it, rest);
      } else {
        DescribesSnoc(sec, done, it);
        AcceptableSnoc(ids, done, it);
        hide Describes;
        CollectDescribes(ids, Slot(sec, it).value, done + [it], rest);
      }
    }
  }

  lemma DescribesUnique(a: Eager, b: Eager, items: seq<Item>)
    requires WellShaped(items) && Describes(a, items) && Describes(b, items)
    ensures a == b
  {
    forall id | id in a ensures id in b && a[id] == b[id] {
      assert HasId(items, id);
    }
    forall id | id in b ensures id in a {
      assert HasId(items, id);
    }
  }
}
