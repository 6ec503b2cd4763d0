/** The loops of variable_header.rs and properties.rs: filling the slots of a section
    and iterating the user properties out of a stored tail. */
module UserProperties {
  import opened Wire
  import opened Properties
  import opened Sections

  /** The generated `parse` of a property section: one slot per property, filled in a
      loop over the bytes of the section. */
  method ParsePropertySection(ids: seq<nat>, input: bytes) returns (result: Parse<Lazy>)
    ensures result == ParseSection(ids, input)
  {
    var length := ParseVar(input);
    if length.Fail? || length.value > |length.rest| {
      return Fail;
    }
    var section, after := length.rest[..length.value], length.rest[length.value..];
    var remaining, slots: Lazy := section, map[];
    while remaining != []
      invariant ParseSlots(ids, map[], section) == ParseSlots(ids, slots, remaining)
      decreases |remaining|
    {
      var id := ParseVar(remaining);
      if id.Fail? || id.value !in ids || KindOf(id.value).None? {
        return Fail;
      }
      var value := ParseValue(KindOf(id.value).value, id.rest);
      if value.Fail? {
        return Fail;
      }
      var used := UseSlot(slots, id.value, value.value, id.rest);
      if used.None? {
        return Fail;
      }
      ParseItemConsumes(remaining);
      slots, remaining := used.value, value.rest;
    }
    result := Ok(slots, after);
  }

  /** The iterator over the user properties of a stored tail. The first pair stands at
      the front without its identifier; every later one is found by parsing past the
      other properties. The `expect`s of the source are the checks that `Valid` makes
      redundant. */
  class UserPropertyIterator {
    var current: bytes
    var firstProp: bool

    ghost predicate Valid()
      reads this
    {
      if firstProp then TailValid(current) else ParseItems(current).Some?
    }

    /** The user properties still to be yielded. */
    ghost function Remaining(): seq<Pair>
      requires Valid()
      reads this
    {
      if firstProp then UserList(current) else UsersOf(ParseItems(current).value)
    }

    constructor (tail: bytes)
      requires TailValid(tail)
      ensures Valid() && Remaining() == UserList(tail)
    {
      current, firstProp := tail, true;
    }

    method Next() returns (result: Option<Pair>)
      requires Valid()
      modifies this
      ensures Valid()
      ensures match result
              case None => old(Remaining()) == [] && Remaining() == []
              case Some(p) => old(Remaining()) == [p] + Remaining()
    {
      if firstProp {
        firstProp := false;
        var first := ParsePair(current);
        current := first.rest;
        return Some(first.value);
      }
      while current != []
        invariant !firstProp && ParseItems(current).Some?
        invariant UsersOf(ParseItems(current).value) == old(Remaining())
        decreases |current|
      {
        ghost var items := ParseItems(current).value;
        ParseItemsStep(current, items);
        ParsedItemFits(current);
        ItemShape(items[0]);
        var property := ParseItem(current);
        var afterId := ParseVar(current).rest;
        current := property.rest;
        if property.value.value.Users? {
          var pair := ParsePair(afterId);
          return Some(pair.value);
        }
        assert UsersOf(items) == [] + UsersOf(items[1..]);
      }
      result := None;
    }
  }

  lemma AppendFirst(done: seq<Pair>, p: Pair, rest: seq<Pair>)
    ensures done + ([p] + rest) == (done + [p]) + rest
    ensures [] + rest == rest && done + [] == done
  {
  }

  /** Iterating a stored tail to its end yields the eager list of user properties. */
  method CollectUserProperties(tail: bytes) returns (list: seq<Pair>)
    requires TailValid(tail)
    ensures list == UserList(tail)
  {
    hide TailValid, UserList, ParseItems, ParsePair, UsersOf;
    var iter := new UserPropertyIterator(tail);
    list := [];
    ghost var todo := iter.Remaining();
    var next := iter.Next();
    while next.Some?
      invariant iter.Valid() && fresh(iter)
      invariant todo == if next.Some? then [next.value] + iter.Remaining() else []
      invariant UserList(tail) == list + todo
      decreases |todo|
    {
      AppendFirst(list, next.value, iter.Remaining());
      list, todo := list + [next.value], iter.Remaining();
      next := iter.Next();
    }
  }

  /** UserProperties::binary_size: the identifier is counted for all but the first. */
  method UserPropertiesSize(tail: bytes) returns (size: nat)
    requires TailValid(tail)
    ensures size == UsersSize(UserList(tail))
  {
    hide TailValid, UserList, ParseItems, ParsePair, UsersOf;
    var iter := new UserPropertyIterator(tail);
    size := 0;
    var index := 0;
    var next := iter.Next();
    while next.Some?
      invariant iter.Valid() && fresh(iter)
      invariant UsersSize(UserList(tail)) == size +
                                             (if next.None? then 0
                                              else if index == 0 then UsersSize([next.value] + iter.Remaining())
                                              else MoreUsersSize([next.value] + iter.Remaining()))
      decreases next.Some?, |iter.Remaining()|
    {
      assert ([next.value] + iter.Remaining())[1..] == iter.Remaining();
      size := size + PairSize(next.value) + (if index == 0 then 0 else VarSize(USER_PROPERTY));
      index := index + 1;
      next := iter.Next();
    }
  }
}
