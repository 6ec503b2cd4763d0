/** The iterator over a stored SUBSCRIBE or UNSUBSCRIBE payload (subscribe.rs,
    unsubscribe.rs). */
module Subscriptions {
  import opened Wire
  import opened Packets
  import opened PacketLaws

  lemma EntryListStep(withOptions: bool, s: bytes)
    requires s != [] && ParseEntries(withOptions, s).Some?
    ensures var e := ParseEntry(withOptions, s);
            && e.Ok? && ParseEntries(withOptions, e.rest).Some? && |e.rest| < |s|
            && EntryList(withOptions, s) == [e.value] + EntryList(withOptions, e.rest)
  {
    hide ParseEntry, EncodeEntry, EntryFits;
    EntryExact(withOptions, s);
    EntryNonEmpty(ParseEntry(withOptions, s).value);
  }

  /** Every entry an accepted payload yields can be written. */
  lemma EntryListFits(withOptions: bool, s: bytes)
    requires ParseEntries(withOptions, s).Some?
    ensures var es := EntryList(withOptions, s);
            forall i :: 0 <= i < |es| ==> EntryFits(es[i]) && es[i].options.Some? == withOptions
  {
    EntriesExact(withOptions, s);
  }

  /** An accepted payload yields at least one entry (section 3.8.3 of MQTT 5.0), and
      rewriting what it yields reproduces the stored bytes. */
  lemma PayloadByteExact(withOptions: bool, s: bytes)
    requires EntriesValid(withOptions, s)
    ensures EntryList(withOptions, s) != []
    ensures EncodeEntries(EntryList(withOptions, s)) == s
  {
    EntriesExact(withOptions, s);
    EntryListStep(withOptions, s);
  }

  /** Two accepted payloads are equal, entry by entry, only when their bytes are. */
  lemma PayloadEquality(withOptions: bool, s: bytes, t: bytes)
    requires EntriesValid(withOptions, s) && EntriesValid(withOptions, t)
    ensures EntryList(withOptions, s) == EntryList(withOptions, t) <==> s == t
  {
    PayloadByteExact(withOptions, s);
    PayloadByteExact(withOptions, t);
  }

  class SubscriptionsIter {
    const withOptions: bool
    var current: bytes

    /** The `expect` of the source cannot fire. */
    ghost predicate Valid()
      reads this
    {
      ParseEntries(withOptions, current).Some?
    }

    ghost function Remaining(): seq<Entry>
      reads this
    {
      EntryList(withOptions, current)
    }

    constructor (withOptions: bool, start: bytes)
      requires EntriesValid(withOptions, start)
      ensures Valid() && Remaining() == EntryList(withOptions, start)
    {
      this.withOptions, current := withOptions, start;
    }

    method Next() returns (result: Option<Entry>)
      requires Valid()
      modifies this
      ensures Valid()
      ensures match result
              case None => old(Remaining()) == [] && Remaining() == []
              case Some(e) => EntryFits(e) && old(Remaining()) == [e] + Remaining()
    {
      hide ParseEntry, EntryFits;
      if current != [] {
        EntryListStep(withOptions, current);
        EntryListFits(withOptions, current);
        var entry := ParseEntry(withOptions, current);
        assert EntryList(withOptions, current)[0] == entry.value;
        current := entry.rest;
        return Some(entry.value);
      }
      result := None;
    }
  }
}
