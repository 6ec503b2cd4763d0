/** Laws of property sections: what is accepted, order of properties, round trip and
    normalisation. */
module SectionLaws {
  import opened Wire
  import opened Properties
  import opened Sections

  // ------------------------------------------------------------- what is accepted

  lemma ParsedItemsShape(s: bytes)
    requires ParseItems(s).Some?
    ensures WellShaped(ParseItems(s).value)
  {
    ParsedItemsFit(s);
    var items := ParseItems(s).value;
    forall i | 0 <= i < |items| ensures items[i].value.Users? <==> items[i].id == USER_PROPERTY {
      ItemShape(items[i]);
    }
  }

  lemma SlotsMeanItems(ids: seq<nat>, s: bytes)
    ensures ParseSlots(ids, map[], s).Some? <==>
            ParseItems(s).Some? && Collect(ids, map[], ParseItems(s).value).Some?
    ensures ParseSlots(ids, map[], s).Some? ==>
              && TailsValid(ParseSlots(ids, map[], s).value)
              && Some(ViewSection(ParseSlots(ids, map[], s).value))
                 == Collect(ids, map[], ParseItems(s).value)
  {
    assert Agrees(map[], map[], if ParseItems(s).Some? then UsersOf(ParseItems(s).value) else []) by {
      assert ViewSection(map[]) == map[];
    }
    LazyAgreesWithEager(ids, map[], map[], s);
  }

  /** The bytes of a section are accepted exactly when every property parses, every
      identifier is allowed for the packet and none but the user property repeats; the
      view of what is stored then holds exactly these properties, with all user
      properties in wire order. */
  lemma SectionAccepted(ids: seq<nat>, s: bytes)
    ensures ParseSlots(ids, map[], s).Some? <==>
            ParseItems(s).Some? && Acceptable(ids, ParseItems(s).value)
    ensures ParseSlots(ids, map[], s).Some? ==>
              && TailsValid(ParseSlots(ids, map[], s).value)
              && Describes(ViewSection(ParseSlots(ids, map[], s).value), ParseItems(s).value)
  {
    SlotsMeanItems(ids, s);
    if ParseItems(s).Some? {
      var items := ParseItems(s).value;
      ParsedItemsShape(s);
      assert [] + items == items;
      CollectDescribes(ids, map[], [], items);
    }
  }

  lemma {:induction false} TwiceInSeq<T>(s: seq<T>, i: nat, j: nat)
    requires i < j < |s| && s[i] == s[j]
    ensures multiset(s)[s[i]] >= 2
  {
    assert s == s[..j] + s[j..];
    assert s[..j][i] == s[i] && s[j..][0] == s[j];
    assert s[i] in multiset(s[..j]) && s[i] in multiset(s[j..]);
  }

  lemma {:induction false} SeqHasTwice<T>(s: seq<T>, x: T) returns (i: nat, j: nat)
    requires multiset(s)[x] >= 2
    ensures i < j < |s| && s[i] == x && s[j] == x
  {
    var k :| 0 <= k < |s| && s[k] == x;
    assert s == s[..k] + [x] + s[k + 1..];
    if x in s[k + 1..] {
      i := k;
      var m :| 0 <= m < |s[k + 1..]| && s[k + 1..][m] == x;
      j := k + 1 + m;
    } else {
      assert x in multiset(s[..k]);
      i :| 0 <= i < |s[..k]| && s[..k][i] == x;
      j := k;
    }
  }

  lemma NoRepeatPermutes(a: seq<Item>, b: seq<Item>)
    requires multiset(a) == multiset(b) && NoRepeat(a)
    ensures NoRepeat(b)
  {
    forall i, j | 0 <= i < j < |b| && b[i].id == b[j].id ensures b[i].id == USER_PROPERTY {
      if b[i] == b[j] {
        TwiceInSeq(b, i, j);
        var p, q := SeqHasTwice(a, b[i]);
      } else {
        assert b[i] in multiset(b) && b[j] in multiset(b);
        var p :| 0 <= p < |a| && a[p] == b[i];
        var q :| 0 <= q < |a| && a[q] == b[j];
        assert if p < q then a[p].id == a[q].id else a[q].id == a[p].id;
      }
    }
  }

  lemma DescribesPermutes(sec: Eager, a: seq<Item>, b: seq<Item>)
    requires multiset(a) == multiset(b) && UsersOf(a) == UsersOf(b) && Describes(sec, a)
    ensures Describes(sec, b)
  {
    forall x: Item ensures x in a <==> x in b {
      assert x in multiset(a) <==> x in multiset(b);
    }
    forall id ensures HasId(a, id) <==> HasId(b, id) {
      if HasId(a, id) {
        var i :| 0 <= i < |a| && a[i].id == id;
        assert a[i] in b;
      }
      if HasId(b, id) {
        var i :| 0 <= i < |b| && b[i].id == id;
        assert b[i] in a;
      }
    }
    forall i | 0 <= i < |b| && !b[i].value.Users?
      ensures b[i].id in sec && sec[b[i].id] == Recast(b[i].value)
    {
      assert b[i] in a;
    }
  }

  /** Reordering the properties of a section changes neither acceptance nor meaning, as
      long as the user properties keep their relative order. */
  lemma OrderIrrelevant(ids: seq<nat>, s: bytes, t: bytes)
    requires ParseItems(s).Some? && ParseItems(t).Some?
    requires multiset(ParseItems(s).value) == multiset(ParseItems(t).value)
    requires UsersOf(ParseItems(s).value) == UsersOf(ParseItems(t).value)
    ensures ParseSlots(ids, map[], s).Some? <==> ParseSlots(ids, map[], t).Some?
    ensures ParseSlots(ids, map[], s).Some? ==>
              ViewSection(ParseSlots(ids, map[], s).value) == ViewSection(ParseSlots(ids, map[], t).value)
  {
    var a, b := ParseItems(s).value, ParseItems(t).value;
    SectionAccepted(ids, s);
    SectionAccepted(ids, t);
    ParsedItemsShape(t);
    hide *;
    if Acceptable(ids, a) {
      AcceptablePermutes(ids, a, b);
    }
    if Acceptable(ids, b) {
      AcceptablePermutes(ids, b, a);
    }
    if ParseSlots(ids, map[], s).Some? {
      var va := ViewSection(ParseSlots(ids, map[], s).value);
      DescribesPermutes(va, a, b);
      DescribesUnique(va, ViewSection(ParseSlots(ids, map[], t).value), b);
    }
  }

  lemma AcceptablePermutes(ids: seq<nat>, a: seq<Item>, b: seq<Item>)
    requires multiset(a) == multiset(b) && Acceptable(ids, a)
    ensures Acceptable(ids, b)
  {
    NoRepeatPermutes(a, b);
    forall i | 0 <= i < |b| ensures b[i].id in ids {
      assert b[i] in multiset(b);
      assert b[i] in a;
    }
  }

  // --------------------------------------------------------------------- round trip

  function ItemsOfUsers(list: seq<Pair>): seq<Item> {
    if list == [] then [] else [Item(USER_PROPERTY, Users(list[0]))] + ItemsOfUsers(list[1..])
  }

  function ItemsOfField(id: nat, sec: Eager): seq<Item> {
    if id !in sec then []
    else if sec[id].Users? then ItemsOfUsers(sec[id].u)
    else [Item(id, Recast(sec[id]))]
  }

  /** The properties of a section in the order in which they are written. */
  function ItemsOf(ids: seq<nat>, sec: Eager): seq<Item> {
    if ids == [] then [] else ItemsOfField(ids[0], sec) + ItemsOf(ids[1..], sec)
  }

  ghost predicate ItemsFit(items: seq<Item>) {
    forall i :: 0 <= i < |items| ==> ItemFits(items[i])
  }

  ghost predicate FieldsFit(sec: Eager) {
    forall id :: id in sec ==> FieldTyped(id, sec[id]) && FieldWritable(id, sec[id])
  }

  lemma {:induction false} EncodeItemsConcat(a: seq<Item>, b: seq<Item>)
    requires ItemsFit(a) && ItemsFit(b)
    ensures ItemsFit(a + b) && EncodeItems(a + b) == EncodeItems(a) + EncodeItems(b)
  {
    hide ItemFits, EncodeItem;
    if a == [] {
      assert a + b == b;
    } else {
      assert (a + b)[1..] == a[1..] + b;
      EncodeItemsConcat(a[1..], b);
    }
  }

  lemma EncodeItemsCons(it: Item, items: seq<Item>)
    requires ItemFits(it) && ItemsFit(items)
    ensures ItemsFit([it] + items) && EncodeItems([it] + items) == EncodeItem(it) + EncodeItems(items)
  {
    hide ItemFits, EncodeItem;
    assert ([it] + items)[1..] == items;
  }

  lemma UserItemFits(p: Pair)
    requires PairTyped(p) && PairShort(p)
    ensures var it := Item(USER_PROPERTY, Users(p));
            ItemFits(it) && EncodeItem(it) == EncodeVar(USER_PROPERTY) + EncodePair(p)
  {
  }

  lemma {:induction false} UserItemsEncoded(list: seq<Pair>)
    requires forall i :: 0 <= i < |list| ==> PairTyped(list[i]) && PairShort(list[i])
    ensures ItemsFit(ItemsOfUsers(list)) && EncodeItems(ItemsOfUsers(list)) == EncodeMoreUsers(list)
  {
    hide PairTyped, PairShort, ItemsFit, ItemFits, EncodeItem, EncodePair, EncodeVar, EncodeItems;
    if list != [] {
      UserItemsEncoded(list[1..]);
      UserItemFits(list[0]);
      EncodeItemsCons(Item(USER_PROPERTY, Users(list[0])), ItemsOfUsers(list[1..]));
      Associate(EncodeVar(USER_PROPERTY), EncodePair(list[0]), EncodeMoreUsers(list[1..]));
    } else {
      EmptyEncoding();
    }
  }

  lemma ScalarItemFits(id: nat, v: Value<seq<Pair>>)
    requires FieldTyped(id, v) && FieldWritable(id, v) && !v.Users?
    ensures ItemFits(Item(id, Recast(v)))
    ensures EncodeItemValue(Item(id, Recast(v))) == EncodeScalar(KindOf(id).value, v)
  {
  }

  lemma FieldEncoded(id: nat, sec: Eager)
    requires id in sec ==> FieldTyped(id, sec[id]) && FieldWritable(id, sec[id])
    ensures ItemsFit(ItemsOfField(id, sec)) && EncodeItems(ItemsOfField(id, sec)) == EncodeField(id, sec)
  {
    if id in sec {
      if sec[id].Users? {
        var list := sec[id].u;
        assert id == USER_PROPERTY && list != [];
        hide PairTyped, PairShort;
        UserItemsEncoded(list);
        assert EncodeVar(id) + EncodeUsers(list)
            == EncodeVar(USER_PROPERTY) + (EncodePair(list[0]) + EncodeMoreUsers(list[1..]));
      } else {
        var it := Item(id, Recast(sec[id]));
        ScalarItemFits(id, sec[id]);
        hide ItemFits, EncodeItemValue, EncodeScalar;
        assert [it][1..] == [];
        assert EncodeItems([it]) == EncodeItem(it) + [];
      }
    }
  }

  /** Writing a section writes its properties one after the other. */
  lemma {:induction false} FieldsEncoded(ids: seq<nat>, sec: Eager)
    requires FieldsFit(sec)
    ensures ItemsFit(ItemsOf(ids, sec)) && EncodeItems(ItemsOf(ids, sec)) == EncodeFields(ids, sec)
  {
    hide ItemFits, EncodeItems, EncodeField, ItemsOfField, FieldTyped, FieldWritable;
    if ids != [] {
      FieldEncoded(ids[0], sec);
      FieldsEncoded(ids[1..], sec);
      EncodeItemsConcat(ItemsOfField(ids[0], sec), ItemsOf(ids[1..], sec));
    } else {
      EmptyEncoding();
    }
  }

  lemma EmptyEncoding()
    ensures ItemsFit([]) && EncodeItems([]) == []
  {
  }

  lemma {:induction false} CollectConcat(ids: seq<nat>, sec: Eager, a: seq<Item>, b: seq<Item>)
    ensures Collect(ids, sec, a + b) ==
            match Collect(ids, sec, a) case None => None case Some(sec') => Collect(ids, sec', b)
    decreases |a|
  {
    hide Slot;
    if a == [] {
      assert a + b == b;
    } else {
      assert (a + b)[1..] == a[1..] + b;
      if Slot(sec, a[0]).Some? {
        CollectConcat(ids, Slot(sec, a[0]).value, a[1..], b);
      }
    }
  }

  lemma {:induction false} CollectUsers(ids: seq<nat>, sec: Eager, list: seq<Pair>)
    requires USER_PROPERTY in ids && list != []
    requires USER_PROPERTY in sec ==> sec[USER_PROPERTY].Users?
    ensures Collect(ids, sec, ItemsOfUsers(list)) == Some(sec[USER_PROPERTY := Users(UsersIn(sec) + list)])
    decreases |list|
  {
    var items := ItemsOfUsers(list);
    var sec' := sec[USER_PROPERTY := Users(UsersIn(sec) + [list[0]])];
    assert items[0] == Item(USER_PROPERTY, Users(list[0])) && items[1..] == ItemsOfUsers(list[1..]);
    assert Slot(sec, items[0]) == Some(sec');
    if |list| == 1 {
      assert list == [list[0]];
      assert items[1..] == [];
    } else {
      CollectUsers(ids, sec', list[1..]);
      assert UsersIn(sec') + list[1..] == UsersIn(sec) + list;
      assert sec'[USER_PROPERTY := Users(UsersIn(sec) + list)]
          == sec[USER_PROPERTY := Users(UsersIn(sec) + list)];
    }
  }

  lemma CollectField(all: seq<nat>, sec: Eager, id: nat, src: Eager)
    requires id in all && id !in sec
    requires id in src ==> FieldTyped(id, src[id])
    ensures Collect(all, sec, ItemsOfField(id, src)) == Some(if id in src then sec[id := src[id]] else sec)
  {
    if id in src {
      if src[id].Users? {
        CollectUsers(all, sec, src[id].u);
        assert UsersIn(sec) + src[id].u == src[id].u;
      } else {
        var it := Item(id, Recast(src[id]));
        assert [it][1..] == [];
        assert Collect(all, sec, [it]) == Collect(all, sec[id := src[id]], [it][1..]);
      }
    }
  }

  function Restrict(sec: Eager, ids: seq<nat>): Eager {
    map id | id in sec && id in ids :: sec[id]
  }

  lemma RestrictStep(src: Eager, ids: seq<nat>, sec: Eager)
    requires ids != [] && ids[0] !in ids[1..]
    ensures (if ids[0] in src then sec[ids[0] := src[ids[0]]] else sec) + Restrict(src, ids[1..])
         == sec + Restrict(src, ids)
  {
    assert forall x :: x in ids <==> x == ids[0] || x in ids[1..];
  }

  lemma {:induction false} CollectItemsOf(all: seq<nat>, ids: seq<nat>, sec: Eager, src: Eager)
    requires forall i :: 0 <= i < |ids| ==> ids[i] in all && ids[i] !in sec
    requires forall i, j :: 0 <= i < j < |ids| ==> ids[i] != ids[j]
    requires forall id :: id in src ==> FieldTyped(id, src[id])
    ensures Collect(all, sec, ItemsOf(ids, src)) == Some(sec + Restrict(src, ids))
    decreases |ids|
  {
    hide FieldTyped, ItemsOfField, Collect;
    if ids == [] {
      assert sec + Restrict(src, ids) == sec;
      CollectNothing(all, sec);
    } else {
      var id := ids[0];
      var sec' := if id in src then sec[id := src[id]] else sec;
      CollectField(all, sec, id, src);
      CollectConcat(all, sec, ItemsOfField(id, src), ItemsOf(ids[1..], src));
      CollectItemsOf(all, ids[1..], sec', src);
      RestrictStep(src, ids, sec);
    }
  }

  lemma CollectNothing(ids: seq<nat>, sec: Eager)
    ensures Collect(ids, sec, []) == Some(sec)
  {
  }

  /** Parsing the written fields gives back the section. */
  lemma FieldsRoundTrip(ids: seq<nat>, sec: Eager)
    requires KnownIds(ids) && SectionTyped(ids, sec) && FieldsWritable(sec)
    ensures ParseSlots(ids, map[], EncodeFields(ids, sec)).Some?
    ensures ViewSection(ParseSlots(ids, map[], EncodeFields(ids, sec)).value) == sec
    ensures TailsValid(ParseSlots(ids, map[], EncodeFields(ids, sec)).value)
  {
    hide KindOf, FieldTyped, FieldWritable, ParseSlots, ParseItems, ItemFits, EncodeFields, ItemsOf, Collect,
      ViewSection, TailsValid;
    var s, items := EncodeFields(ids, sec), ItemsOf(ids, sec);
    FieldsEncoded(ids, sec);
    ItemsRoundTrip(items);
    SlotsMeanItems(ids, s);
    CollectItemsOf(ids, ids, map[], sec);
    assert map[] + Restrict(sec, ids) == sec;
  }

  lemma SplitAfter(f: bytes, r: bytes)
    ensures (f + r)[..|f|] == f && (f + r)[|f|..] == r
  {
  }

  /** A section is read from its length field and its bytes. */
  lemma SectionFramed(ids: seq<nat>, f: bytes, r: bytes)
    requires |f| <= VARIABLE_INTEGER_MAX
    ensures ParseSection(ids, (EncodeVar(|f|) + f) + r) ==
            match ParseSlots(ids, map[], f) case None => Fail case Some(slots) => Ok(slots, r)
  {
    hide ParseVar, EncodeVar, ParseSlots;
    Associate(EncodeVar(|f|), f, r);
    VarRoundTrip(|f|, f + r);
    SplitAfter(f, r);
  }

  lemma SectionRoundTrip(ids: seq<nat>, sec: Eager, r: bytes)
    requires KnownIds(ids) && SectionTyped(ids, sec) && SectionWritable(ids, sec)
    ensures var p := ParseSection(ids, EncodeSection(ids, sec) + r);
            p.Ok? && p.rest == r && ViewSection(p.value) == sec && TailsValid(p.value)
  {
    hide FieldTyped, FieldWritable, FieldSized, KnownIds, EncodeFields, FieldsSize, ParseSection, ParseSlots,
      ViewSection, TailsValid, EncodeVar;
    WritableFieldsSized(sec);
    FieldsExact(ids, sec);
    FieldsRoundTrip(ids, sec);
    SectionFramed(ids, EncodeFields(ids, sec), r);
  }

  lemma WritableFieldsSized(sec: Eager)
    requires FieldsWritable(sec)
    ensures FieldsSized(sec)
  {
  }

  // ------------------------------------------------------------------ normalisation

  lemma SlotFits(sec: Eager, it: Item)
    requires FieldsFit(sec) && ItemFits(it) && Slot(sec, it).Some?
    ensures FieldsFit(Slot(sec, it).value)
    ensures Slot(sec, it).value.Keys == sec.Keys + {it.id}
  {
    ItemShape(it);
    if it.value.Users? {
      var list := UsersIn(sec) + [it.value.u];
      assert FieldTyped(USER_PROPERTY, Users(list)) && FieldWritable(USER_PROPERTY, Users(list));
    }
  }

  lemma {:induction false} MoreUsersSnoc(list: seq<Pair>, p: Pair)
    ensures MoreUsersSize(list + [p]) == MoreUsersSize(list) + VarSize(USER_PROPERTY) + PairSize(p)
  {
    if list == [] {
      assert list + [p] == [p];
    } else {
      assert (list + [p])[1..] == list[1..] + [p];
      MoreUsersSnoc(list[1..], p);
    }
  }

  /** Storing a property grows the field it belongs to by the bytes of the property. */
  lemma SlotGrowsField(sec: Eager, it: Item)
    requires FieldsFit(sec) && ItemFits(it) && Slot(sec, it).Some?
    ensures FieldSize(it.id, Slot(sec, it).value) == FieldSize(it.id, sec) + |EncodeItem(it)|
  {
    ItemShape(it);
    EncodeVarShape(it.id);
    if it.value.Users? {
      var list := UsersIn(sec);
      assert (list + [it.value.u])[0] == if list == [] then it.value.u else list[0];
      if list == [] {
        assert (list + [it.value.u])[1..] == [];
      } else {
        assert (list + [it.value.u])[1..] == list[1..] + [it.value.u];
        MoreUsersSnoc(list[1..], it.value.u);
      }
    } else {
      ScalarSizeExact(it);
    }
  }

  lemma ScalarSizeExact(it: Item)
    requires ItemFits(it) && !it.value.Users?
    ensures FieldValueSize(it.id, Recast(it.value)) == |EncodeItemValue(it)|
  {
    if KindOf(it.id).value.Var? {
      EncodeVarShape(it.value.n);
    }
  }

  lemma {:induction false} FieldsSizeUpdate(ids: seq<nat>, sec: Eager, id: nat, v: Value<seq<Pair>>)
    requires forall i, j :: 0 <= i < j < |ids| ==> ids[i] != ids[j]
    ensures FieldsSize(ids, sec[id := v]) - FieldsSize(ids, sec)
            == if id in ids then FieldSize(id, sec[id := v]) - FieldSize(id, sec) else 0
  {
    hide FieldValueSize;
    if ids == [] {
    } else {
      FieldsSizeUpdate(ids[1..], sec, id, v);
      assert id in ids <==> id == ids[0] || id in ids[1..];
    }
  }

  lemma SlotGrowsSection(ids: seq<nat>, sec: Eager, it: Item)
    requires forall i, j :: 0 <= i < j < |ids| ==> ids[i] != ids[j]
    requires FieldsFit(sec) && ItemFits(it) && Slot(sec, it).Some? && it.id in ids
    ensures FieldsSize(ids, Slot(sec, it).value) == FieldsSize(ids, sec) + |EncodeItem(it)|
  {
    ItemShape(it);
    SlotGrowsField(sec, it);
    hide FieldSize, EncodeItem, FieldTyped, FieldWritable, ItemFits, FieldsFit;
    var sec' := Slot(sec, it).value;
    FieldsSizeUpdate(ids, sec, it.id, sec'[it.id]);
    assert sec' == sec[it.id := sec'[it.id]];
  }

  /** Collected properties are typed, short and take as many bytes as the items did. */
  lemma {:induction false} CollectFits(ids: seq<nat>, sec: Eager, items: seq<Item>)
    requires forall i, j :: 0 <= i < j < |ids| ==> ids[i] != ids[j]
    requires FieldsFit(sec) && ItemsFit(items) && (forall id :: id in sec ==> id in ids)
    requires Collect(ids, sec, items).Some?
    ensures var sec' := Collect(ids, sec, items).value;
            && FieldsFit(sec') && (forall id :: id in sec' ==> id in ids)
            && FieldsSize(ids, sec') == FieldsSize(ids, sec) + |EncodeItems(items)|
    decreases |items|
  {
    hide FieldsFit, ItemFits, Slot, FieldsSize, EncodeItem;
    if items == [] {
    } else {
      SlotFits(sec, items[0]);
      SlotGrowsSection(ids, sec, items[0]);
      CollectFits(ids, Slot(sec, items[0]).value, items[1..]);
    }
  }

  lemma VarSizeMonotone(a: nat, b: nat)
    requires a <= b
    ensures VarSize(a) <= VarSize(b)
  {
  }

  lemma SlotsNormal(ids: seq<nat>, s: bytes)
    requires KnownIds(ids) && ParseSlots(ids, map[], s).Some?
    ensures var sec := ViewSection(ParseSlots(ids, map[], s).value);
            SectionTyped(ids, sec) && FieldsWritable(sec) && FieldsSize(ids, sec) <= |s|
    ensures TailsValid(ParseSlots(ids, map[], s).value)
  {
    SlotsMeanItems(ids, s);
    ParsedItemsFit(s);
    EmptySectionSize(ids);
    hide ParseSlots, ParseItems, ItemFits, Collect, FieldsSize, FieldTyped, FieldWritable, TailsValid, ViewSection;
    CollectFits(ids, map[], ParseItems(s).value);
  }

  lemma {:induction false} EmptySectionSize(ids: seq<nat>)
    ensures FieldsSize(ids, map[]) == 0
  {
    if ids == [] {
    } else {
      EmptySectionSize(ids[1..]);
    }
  }

  /** Whatever section is accepted, its view is a section that can be written, and
      writing it takes no more bytes than were read. */
  lemma SectionNormal(ids: seq<nat>, s: bytes)
    requires KnownIds(ids) && ParseSection(ids, s).Ok?
    ensures var p := ParseSection(ids, s);
            && SectionTyped(ids, ViewSection(p.value)) && SectionWritable(ids, ViewSection(p.value))
            && TailsValid(p.value)
            && SectionSize(ids, ViewSection(p.value)) + |p.rest| <= |s|
  {
    VarAccepted(s);
    var n, r := ParseVar(s).value, ParseVar(s).rest;
    SlotsNormal(ids, r[..n]);
    VarSizeMonotone(FieldsSize(ids, ViewSection(ParseSection(ids, s).value)), n);
  }
}
