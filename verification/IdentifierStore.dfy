/** The packet identifier store: two machine words that represent a map from identifier
    to usage (packet_identifier_store.rs, with a 64-bit `usize`). */
module IdentifierStore {
  import opened Wire

  datatype Usage = ForPublish | NotForPublish

  type Ids = map<nat, Usage>

  const BITS: nat := 64

  // ------------------------------------------------------------- reference meaning

  /** The least identifier from `from` on that is not taken. */
  function NextFree(ids: Ids, from: nat): Option<nat>
    decreases if from <= BITS then BITS + 1 - from else 0
  {
    if from > BITS then None else if from !in ids then Some(from) else NextFree(ids, from + 1)
  }

  function KeepPublish(ids: Ids): Ids {
    map id | id in ids && ids[id] == ForPublish :: ids[id]
  }

  /** Identifiers are 1 to the width of the word. */
  ghost predicate InRange(ids: Ids) {
    forall id :: id in ids ==> 1 <= id <= BITS
  }

  lemma {:induction false} NextFreeIsLeast(ids: Ids, from: nat)
    ensures match NextFree(ids, from)
            case None => forall id :: from <= id <= BITS ==> id in ids
            case Some(id) => from <= id <= BITS && id !in ids && forall k :: from <= k < id ==> k in ids
    decreases if from <= BITS then BITS + 1 - from else 0
  {
    if from > BITS || from !in ids {
    } else {
      NextFreeIsLeast(ids, from + 1);
    }
  }

  lemma {:induction false} NextFreeSkips(ids: Ids, from: nat, limit: nat)
    requires from <= limit && forall k :: from <= k < limit ==> k in ids
    requires limit <= BITS + 1
    ensures NextFree(ids, from) == NextFree(ids, limit)
    decreases limit - from
  {
    if from == limit {
    } else {
      NextFreeSkips(ids, from + 1, limit);
    }
  }

  // ------------------------------------------------------------------- bits of a word

  const USIZE_MAX: bv64 := 0xFFFF_FFFF_FFFF_FFFF

  // The word operations of the source, named so that proofs can treat them abstractly.
  function And(v: bv64, w: bv64): bv64 {
    v & w
  }

  function Or(v: bv64, w: bv64): bv64 {
    v | w
  }

  function AndNot(v: bv64, w: bv64): bv64 {
    v & !w
  }

  /** A bit index as the word operations take it; six bits hold all of them. */
  function BitIndex(i: nat): bv6
    requires i < BITS
  {
    i as bv6
  }

  function Mask(i: nat): bv64
    requires i < BITS
  {
    1 << BitIndex(i)
  }

  predicate Has(w: bv64, i: nat)
    requires i < BITS
  {
    And(w, Mask(i)) != 0
  }

  function SetBit(w: bv64, i: nat): bv64
    requires i < BITS
  {
    Or(w, Mask(i))
  }

  /** The update of the publish word: the mask under all ones or under zero. */
  function MarkUsage(w: bv64, i: nat, usage: Usage): bv64
    requires i < BITS
  {
    Or(w, And(Mask(i), if usage.ForPublish? then USIZE_MAX else 0))
  }

  function ClearBit(w: bv64, i: nat): bv64
    requires i < BITS
  {
    AndNot(w, Mask(i))
  }

  /** The publish word marks only taken slots. */
  predicate Inside(slots: bv64, isPublish: bv64) {
    AndNot(isPublish, slots) == 0
  }

  // Laws of single words; each is decided by the bits alone.
  lemma OrZero(w: bv64)
    ensures Or(w, 0) == w
  {
  }

  lemma WordDistributes(w: bv64, a: bv64, b: bv64)
    ensures (w | a) & b == (w & b) | (a & b)
  {
  }

  lemma WordOrKeeps(w: bv64, a: bv64, b: bv64)
    requires a & b == 0
    ensures (w | a) & b == w & b
  {
    WordDistributes(w, a, b);
  }

  lemma OrKeeps(w: bv64, a: bv64, b: bv64)
    requires And(a, b) == 0
    ensures And(Or(w, a), b) == And(w, b)
  {
    WordOrKeeps(w, a, b);
  }

  lemma AndNotKeeps(w: bv64, a: bv64, b: bv64)
    requires And(a, b) == 0
    ensures And(AndNot(w, a), b) == And(w, b)
  {
    assert b == b & !a;
    assert (w & !a) & b == w & (b & !a);
  }

  lemma OrSets(w: bv64, a: bv64)
    ensures And(Or(w, a), a) == a
  {
  }

  lemma AndNotClears(w: bv64, a: bv64)
    ensures And(AndNot(w, a), a) == 0
  {
  }

  lemma OrMasked(w: bv64, m: bv64)
    ensures Or(w, And(m, USIZE_MAX)) == Or(w, m) && Or(w, And(m, 0)) == w
  {
  }

  lemma SplitByWord(p: bv64, s: bv64)
    ensures Or(And(s, p), AndNot(p, s)) == p && AndNot(p, p) == 0
  {
  }

  lemma InsideAnd(p: bv64, s: bv64)
    requires AndNot(p, s) == 0
    ensures And(s, p) == p && AndNot(p, p) == 0
  {
    hide And, Or, AndNot;
    SplitByWord(p, s);
    OrZero(And(s, p));
  }

  lemma InsideMisses(p: bv64, s: bv64, m: bv64)
    requires AndNot(p, s) == 0 && And(s, m) == 0
    ensures And(p, m) == 0
  {
    InsideAnd(p, s);
    assert (s & p) & m == p & (s & m);
  }

  lemma ZeroWord(m: bv64)
    ensures And(0, m) == 0 && AndNot(0, m) == 0
  {
  }

  lemma WordGrows(s: bv64, p: bv64, m: bv64)
    requires p & !s == 0
    ensures p & !(s | m) == 0 && (p | m) & !(s | m) == 0
  {
    assert p & !(s | m) == (p & !s) & !m;
    assert (p | m) & !(s | m) == (p & !(s | m)) | (m & !(s | m));
    assert m & !(s | m) == 0;
  }

  lemma InsideGrows(s: bv64, p: bv64, m: bv64)
    requires AndNot(p, s) == 0
    ensures AndNot(p, Or(s, m)) == 0 && AndNot(Or(p, m), Or(s, m)) == 0
  {
    WordGrows(s, p, m);
  }

  lemma InsideShrinks(s: bv64, p: bv64, m: bv64)
    requires AndNot(p, s) == 0
    ensures AndNot(AndNot(p, m), AndNot(s, m)) == 0
  {
    assert (p & !m) & !(s & !m) == (p & !s) & !m;
  }

  lemma SixBitsHold(i: nat)
    requires i < 64
    ensures (i as bv6) as nat == i
  {
  }

  lemma BitIndexBack(i: nat)
    requires i < BITS
    ensures BitIndex(i) as nat == i
  {
    SixBitsHold(i);
  }

  lemma ShiftsDisjoint(x: bv6, y: bv6)
    requires x != y
    ensures (1 as bv64 << x) & (1 as bv64 << y) == 0
  {
  }

  lemma ShiftNonZero(x: bv6)
    ensures (1 as bv64 << x) != 0
  {
  }

  lemma MasksDisjoint(i: nat, j: nat)
    requires i < BITS && j < BITS && i != j
    ensures And(Mask(i), Mask(j)) == 0
  {
    hide BitIndex;
    BitIndexBack(i);
    BitIndexBack(j);
    ShiftsDisjoint(BitIndex(i), BitIndex(j));
  }

  lemma MaskNonZero(i: nat)
    requires i < BITS
    ensures Mask(i) != 0
  {
    hide BitIndex;
    ShiftNonZero(BitIndex(i));
  }

  lemma SetBitHas(w: bv64, i: nat, j: nat)
    requires i < BITS && j < BITS
    ensures Has(SetBit(w, i), j) == (i == j || Has(w, j))
  {
    hide Mask, And, Or;
    if i == j {
      OrSets(w, Mask(i));
      MaskNonZero(i);
    } else {
      MasksDisjoint(i, j);
      OrKeeps(w, Mask(i), Mask(j));
    }
  }

  lemma ClearBitHas(w: bv64, i: nat, j: nat)
    requires i < BITS && j < BITS
    ensures Has(ClearBit(w, i), j) == (i != j && Has(w, j))
  {
    hide Mask, And, AndNot;
    if i == j {
      AndNotClears(w, Mask(i));
    } else {
      MasksDisjoint(i, j);
      AndNotKeeps(w, Mask(i), Mask(j));
    }
  }

  lemma MarkUsageMeans(w: bv64, i: nat, usage: Usage)
    requires i < BITS
    ensures MarkUsage(w, i, usage) == if usage.ForPublish? then SetBit(w, i) else w
  {
    hide Mask, And, Or;
    OrMasked(w, Mask(i));
  }

  lemma InsideHas(s: bv64, p: bv64, i: nat)
    requires i < BITS && Inside(s, p) && Has(p, i)
    ensures Has(s, i)
  {
    hide Mask, And, AndNot;
    if !Has(s, i) {
      InsideMisses(p, s, Mask(i));
    }
  }

  lemma InsideSet(s: bv64, p: bv64, i: nat, usage: Usage)
    requires i < BITS && Inside(s, p)
    ensures Inside(SetBit(s, i), MarkUsage(p, i, usage))
  {
    hide Mask, And, Or, AndNot;
    InsideGrows(s, p, Mask(i));
    MarkUsageMeans(p, i, usage);
  }

  lemma InsideClear(s: bv64, p: bv64, i: nat)
    requires i < BITS && Inside(s, p)
    ensures Inside(ClearBit(s, i), ClearBit(p, i))
  {
    hide Mask, AndNot;
    InsideShrinks(s, p, Mask(i));
  }

  // ------------------------------------------------- the two words as a map of usages

  predicate Taken(w: bv64, id: nat) {
    1 <= id <= BITS && Has(w, id - 1)
  }

  function IdsOf(slots: bv64, isPublish: bv64): Ids {
    map id: nat | 1 <= id <= BITS && Taken(slots, id)
      :: if Taken(isPublish, id) then ForPublish else NotForPublish
  }

  lemma TakeMeans(s: bv64, p: bv64, i: nat, usage: Usage)
    requires i < BITS && Inside(s, p) && !Has(s, i)
    ensures Inside(SetBit(s, i), MarkUsage(p, i, usage))
    ensures IdsOf(SetBit(s, i), MarkUsage(p, i, usage)) == IdsOf(s, p)[i + 1 := usage]
  {
    hide Has, SetBit, MarkUsage, Inside;
    InsideSet(s, p, i, usage);
    MarkUsageMeans(p, i, usage);
    if Has(p, i) {
      InsideHas(s, p, i);
    }
    forall id: nat
      ensures Taken(SetBit(s, i), id) == (id == i + 1 || Taken(s, id))
      ensures Taken(SetBit(p, i), id) == (id == i + 1 || Taken(p, id))
    {
      if 1 <= id <= BITS {
        SetBitHas(s, i, id - 1);
        SetBitHas(p, i, id - 1);
      }
    }
  }

  lemma ReleaseMeans(s: bv64, p: bv64, i: nat)
    requires i < BITS && Inside(s, p)
    ensures Inside(ClearBit(s, i), ClearBit(p, i))
    ensures IdsOf(ClearBit(s, i), ClearBit(p, i)) == IdsOf(s, p) - {i + 1}
  {
    hide Has, ClearBit, Inside;
    InsideClear(s, p, i);
    forall id: nat
      ensures Taken(ClearBit(s, i), id) == (id != i + 1 && Taken(s, id))
      ensures Taken(ClearBit(p, i), id) == (id != i + 1 && Taken(p, id))
    {
      if 1 <= id <= BITS {
        ClearBitHas(s, i, id - 1);
        ClearBitHas(p, i, id - 1);
      }
    }
  }

  lemma KeepMeans(s: bv64, p: bv64)
    requires Inside(s, p)
    ensures Inside(And(s, p), p) && IdsOf(And(s, p), p) == KeepPublish(IdsOf(s, p))
  {
    hide Has, And, AndNot;
    InsideAnd(p, s);
    forall id: nat | Taken(p, id) ensures Taken(s, id) {
      InsideHas(s, p, id - 1);
    }
  }

  lemma EmptyWords()
    ensures Inside(0, 0) && IdsOf(0, 0) == map[]
  {
    hide Mask, And, AndNot;
    ZeroWord(0);
    forall id: nat ensures !Taken(0, id) {
      if 1 <= id <= BITS {
        ZeroWord(Mask(id - 1));
      }
    }
  }

  // ------------------------------------------------- runs of the words and of the map

  datatype StoreOp = TakeFree(usage: Usage) | GiveBack(id: nat) | DropNonPublish

  datatype Words = Words(slots: bv64, isPublish: bv64)

  /** The scan of the source: the first clear bit from `i` on. */
  function FirstClear(slots: bv64, i: nat): (r: Option<nat>)
    requires i <= BITS
    ensures r.Some? ==> i <= r.value < BITS && !Has(slots, r.value)
    decreases BITS - i
  {
    if i == BITS then None else if !Has(slots, i) then Some(i) else FirstClear(slots, i + 1)
  }

  /** The identifiers a release may name. */
  predicate OpOk(op: StoreOp) {
    op.GiveBack? ==> 1 <= op.id <= BITS
  }

  /** One operation on the words, and the identifier it hands out. */
  function WordStep(w: Words, op: StoreOp): (Words, Option<nat>)
    requires OpOk(op)
  {
    match op
    case TakeFree(usage) => (
      match FirstClear(w.slots, 0)
      case None => (w, None)
      case Some(i) => (Words(SetBit(w.slots, i), MarkUsage(w.isPublish, i, usage)), Some(i + 1)))
    case GiveBack(id) => (Words(ClearBit(w.slots, id - 1), ClearBit(w.isPublish, id - 1)), None)
    case DropNonPublish => (Words(And(w.slots, w.isPublish), w.isPublish), None)
  }

  /** The same operation on the map. */
  function MapStep(ids: Ids, op: StoreOp): (Ids, Option<nat>) {
    match op
    case TakeFree(usage) => (
      match NextFree(ids, 1)
      case None => (ids, None)
      case Some(id) => (ids[id := usage], Some(id)))
    case GiveBack(id) => (ids - {id}, None)
    case DropNonPublish => (KeepPublish(ids), None)
  }

  lemma {:induction false} FirstClearIsNextFree(s: bv64, p: bv64, i: nat)
    requires i <= BITS
    ensures NextFree(IdsOf(s, p), i + 1) == match FirstClear(s, i) case None => None case Some(k) => Some(k + 1)
    decreases BITS - i
  {
    hide Has;
    if i == BITS {
    } else {
      assert Taken(s, i + 1) == Has(s, i);
      FirstClearIsNextFree(s, p, i + 1);
    }
  }

  lemma WordStepRefines(w: Words, op: StoreOp)
    requires OpOk(op) && Inside(w.slots, w.isPublish)
    ensures var (w', out) := WordStep(w, op);
            && Inside(w'.slots, w'.isPublish)
            && (IdsOf(w'.slots, w'.isPublish), out) == MapStep(IdsOf(w.slots, w.isPublish), op)
  {
    hide Has, Inside, SetBit, ClearBit, MarkUsage, And, IdsOf, NextFree, FirstClear, KeepPublish;
    match op
    case TakeFree(usage) =>
      FirstClearIsNextFree(w.slots, w.isPublish, 0);
      if FirstClear(w.slots, 0).Some? {
        TakeMeans(w.slots, w.isPublish, FirstClear(w.slots, 0).value, usage);
      }
    case GiveBack(id) => ReleaseMeans(w.slots, w.isPublish, id - 1);
    case DropNonPublish => KeepMeans(w.slots, w.isPublish);
  }

  function WordRun(w: Words, ops: seq<StoreOp>): (Words, seq<Option<nat>>)
    requires forall i :: 0 <= i < |ops| ==> OpOk(ops[i])
    decreases |ops|
  {
    if ops == [] then (w, [])
    else
      var (w1, out) := WordStep(w, ops[0]);
      var (w2, outs) := WordRun(w1, ops[1..]);
      (w2, [out] + outs)
  }

  function MapRun(ids: Ids, ops: seq<StoreOp>): (Ids, seq<Option<nat>>)
    decreases |ops|
  {
    if ops == [] then (ids, [])
    else
      var (ids1, out) := MapStep(ids, ops[0]);
      var (ids2, outs) := MapRun(ids1, ops[1..]);
      (ids2, [out] + outs)
  }

  /** Under every sequence of operations the two words hand out the identifiers that the
      map of usages hands out, and end up representing it. */
  lemma {:induction false} WordsRefineMap(w: Words, ops: seq<StoreOp>)
    requires Inside(w.slots, w.isPublish) && forall i :: 0 <= i < |ops| ==> OpOk(ops[i])
    ensures var (w', outs) := WordRun(w, ops);
            && Inside(w'.slots, w'.isPublish)
            && (IdsOf(w'.slots, w'.isPublish), outs) == MapRun(IdsOf(w.slots, w.isPublish), ops)
    decreases |ops|
  {
    hide Inside, IdsOf, WordStep, MapStep, OpOk;
    if ops == [] {
    } else {
      WordStepRefines(w, ops[0]);
      WordsRefineMap(WordStep(w, ops[0]).0, ops[1..]);
    }
  }

  // ---------------------------------------------------------------------- the store

  class UsizePacketIdentifierStore {
    var slots: bv64
    var isPublish: bv64

    ghost predicate Valid()
      reads this
    {
      Inside(slots, isPublish)
    }

    /** The map from identifier to usage that the words represent. */
    ghost function Ids(): Ids
      reads this
    {
      IdsOf(slots, isPublish)
    }

    constructor ()
      ensures Valid() && Ids() == map[]
    {
      hide Inside, Taken;
      slots, isPublish := 0, 0;
      EmptyWords();
    }

    /** The least free identifier is taken, and none is returned exactly when all are. */
    method GetNextFree(usage: Usage) returns (result: Option<nat>)
      requires Valid()
      modifies this
      ensures Valid() && result == NextFree(old(Ids()), 1)
      ensures (Words(slots, isPublish), result) == WordStep(old(Words(slots, isPublish)), TakeFree(usage))
      ensures Ids() == if result.Some? then old(Ids())[result.value := usage] else old(Ids())
    {
      hide Mask, Has, SetBit, MarkUsage, Inside;
      for bitIndex := 0 to BITS
        invariant slots == old(slots) && isPublish == old(isPublish)
        invariant FirstClear(slots, 0) == FirstClear(slots, bitIndex)
        invariant forall k :: 1 <= k <= bitIndex ==> k in Ids()
      {
        assert Taken(slots, bitIndex + 1) == Has(slots, bitIndex);
        if !Has(slots, bitIndex) {
          NextFreeSkips(Ids(), 1, bitIndex + 1);
          TakeMeans(slots, isPublish, bitIndex, usage);
          slots := SetBit(slots, bitIndex);
          isPublish := MarkUsage(isPublish, bitIndex, usage);
          return Some(bitIndex + 1);
        }
      }
      NextFreeSkips(Ids(), 1, BITS + 1);
      result := None;
    }

    /** The source asserts that the identifier has a bit. */
    method Release(id: nat)
      requires Valid() && 1 <= id <= BITS
      modifies this
      ensures Valid() && Ids() == old(Ids()) - {id}
      ensures Words(slots, isPublish) == WordStep(old(Words(slots, isPublish)), GiveBack(id)).0
    {
      hide ClearBit, Inside, Taken;
      ReleaseMeans(slots, isPublish, id - 1);
      slots := ClearBit(slots, id - 1);
      isPublish := ClearBit(isPublish, id - 1);
    }

    method ReleaseNonPublishSlots()
      requires Valid()
      modifies this
      ensures Valid() && Ids() == KeepPublish(old(Ids()))
      ensures Words(slots, isPublish) == WordStep(old(Words(slots, isPublish)), DropNonPublish).0
    {
      hide And, Inside, Taken;
      KeepMeans(slots, isPublish);
      slots := And(slots, isPublish);
    }

    method Contains(id: nat) returns (found: bool)
      requires id >= 1
      ensures found == (id in Ids())
    {
      hide Has;
      if id - 1 >= BITS {
        return false;
      }
      found := Has(slots, id - 1);
    }
  }
}
