/**
 * The merge algebra of the value tree: Value.merge (the default), ArrayValue.merge and
 * DictValue.merge as one recursive specification, with the shape of each case proved.
 */
module Merging {
  import opened Wrappers
  import opened Values

  /** Tie-break of the termination measure: the step that turns an array operand into a dictionary. */
  function Rank(a: Value, b: Value): nat {
    if (a.Dict? && b.Array?) || (a.Array? && b.Dict?) then 1 else 0
  }

  /** The slot at `i`, a hole past the end. */
  function SlotAt(s: seq<Option<Value>>, i: int): Option<Value> {
    if 0 <= i < |s| then s[i] else None
  }

  /** The copy of `sa` into a fresh array of `max(|sa|, n)` slots, holes after `sa`. */
  function Padded(sa: seq<Option<Value>>, n: nat): (r: seq<Option<Value>>)
    ensures |r| == if n > |sa| then n else |sa|
    ensures forall j :: 0 <= j < |r| ==> r[j] == SlotAt(sa, j)
  {
    sa + seq(if n > |sa| then n - |sa| else 0, _ => None)
  }

  /**
   * `a.merge(b)`. A dictionary takes an array operand through its dictionary view, merges a
   * dictionary key by key, and fails on anything else; an array lends its dictionary view to a
   * dictionary operand, merges an array slot by slot, and appends anything else; every other value
   * forms the concatenation array.
   */
  function Merge(a: Value, b: Value): (r: Result<Value>)
    ensures a.Dict? && r.Ok? ==> r.value.Dict?
    ensures a.Dict? && !b.Array? && !b.Dict? ==> r == Err(NotImplemented)
    ensures a.Array? && b.Array? && r.Ok? ==> r.value.Array?
    ensures a.Array? && !b.Array? && !b.Dict? ==> r == Ok(ConcatArray(Some(a), Some(b)))
    ensures !a.Array? && !a.Dict? ==> r == Ok(ConcatArray(Some(a), Some(b)))
    decreases Size(b), 2 + Rank(a, b), 0
  {
    match a
    case Dict(ea) =>
      if b.Array? then Merge(a, Dict(AsDictEntries(b.slots)))
      else if b.Dict? then MergeEntries(ea, PutAllEntries([], ea), b.entries, 0)
      else Err(NotImplemented)
    case Array(sa) =>
      if b.Dict? then Merge(Dict(AsDictEntries(sa)), b)
      else if b.Array? then MergeSlots(Padded(sa, |b.slots|), [], b.slots, 0)
      else Ok(ConcatArray(Some(a), Some(b)))
    case _ => Ok(ConcatArray(Some(a), Some(b)))
  }

  /**
   * `a.merge(b)` for a possibly-null `b`: a null operand leaves an array or a leaf as it is, while
   * DictValue.merge throws on it.
   */
  function MergeOpt(a: Value, b: Option<Value>): (r: Result<Value>)
    ensures b.None? && !a.Dict? ==> r == Ok(a)
    ensures b.None? && a.Dict? ==> r == Err(NotImplemented)
    ensures b.Some? ==> r == Merge(a, b.value)
  {
    match b
    case None => if a.Dict? then Err(NotImplemented) else Ok(a)
    case Some(v) => Merge(a, v)
  }

  /**
   * The loop of DictValue.merge from entry `i` of the operand on, `acc` being the result so far: a
   * key the result already holds gets the merge of the receiver's value with the operand's, any
   * other key is put as it is. A key the result holds but the receiver `ea` lacks (the operand
   * repeating a key) makes `get` return null.
   */
  function MergeEntries(ea: seq<(Key, Value)>, acc: seq<(Key, Value)>, eb: seq<(Key, Value)>, i: nat): (r: Result<Value>)
    requires i <= |eb|
    ensures r.Ok? ==> r.value.Dict?
    decreases Size(Dict(eb)), 1, |eb| - i
  {
    if i == |eb| then Ok(Dict(acc))
    else
      var k := eb[i].0;
      if HasKey(acc, k) then
        match Lookup(ea, k)
        case None => Err(NullPointer)
        case Some(x) =>
          EntriesSizeBound(eb, i);
          match Merge(x, eb[i].1)
          case Err(e) => Err(e)
          case Ok(m) => MergeEntries(ea, PutEntry(acc, k, m), eb, i + 1)
      else MergeEntries(ea, PutEntry(acc, k, eb[i].1), eb, i + 1)
  }

  /**
   * The loop of ArrayValue.merge from slot `i` of the operand on: `res` is the result array, `extra`
   * the values that collided so far.
   */
  function MergeSlots(res: seq<Option<Value>>, extra: seq<Option<Value>>, sb: seq<Option<Value>>, i: nat): (r: Result<Value>)
    requires i <= |sb| <= |res|
    ensures r.Ok? ==> r.value.Array?
    decreases Size(Array(sb)), 1, |sb| - i
  {
    if i == |sb| then Ok(Array(res + extra))
    else if sb[i].None? then MergeSlots(res, extra, sb, i + 1)
    else if res[i].None? then MergeSlots(res[i := sb[i]], extra, sb, i + 1)
    else if res[i].value.Dict? && sb[i].value.Dict? then
      SlotsSizeBound(sb, i);
      match Merge(res[i].value, sb[i].value)
      case Err(e) => Err(e)
      case Ok(m) => MergeSlots(res[i := Some(m)], extra, sb, i + 1)
    else MergeSlots(res, extra + [sb[i]], sb, i + 1)
  }

  // ---------------------------------------------------------------------------------------
  // Array with array, slot by slot

  predicate BothDicts(x: Option<Value>, y: Option<Value>) {
    x.Some? && y.Some? && x.value.Dict? && y.value.Dict?
  }

  /** Both slots are filled and not both with dictionaries: the operand's value goes to the end. */
  predicate Collides(x: Option<Value>, y: Option<Value>) {
    x.Some? && y.Some? && !BothDicts(x, y)
  }

  /** The recursive merge a slot needs, if any, succeeds. */
  predicate SlotMergeOk(x: Option<Value>, y: Option<Value>) {
    BothDicts(x, y) ==> Merge(x.value, y.value).Ok?
  }

  /**
   * The merged slot: a hole in the operand keeps the receiver's slot, a hole in the receiver takes
   * the operand's value, two dictionaries are merged, and on a collision the receiver's value stays.
   */
  function MergedSlot(x: Option<Value>, y: Option<Value>): Option<Value> {
    if y.None? then x
    else if x.None? then y
    else if BothDicts(x, y) then
      var m := Merge(x.value, y.value);
      if m.Ok? then Some(m.value) else x
    else x
  }

  /** The operand's values that collide with `res`, from slot `i` on, in index order. */
  function Collisions(res: seq<Option<Value>>, sb: seq<Option<Value>>, i: nat): seq<Option<Value>>
    decreases |sb| - i
  {
    if i >= |sb| then []
    else (if Collides(SlotAt(res, i), sb[i]) then [sb[i]] else []) + Collisions(res, sb, i + 1)
  }

  lemma {:induction false} CollisionsFrame(r1: seq<Option<Value>>, r2: seq<Option<Value>>, sb: seq<Option<Value>>, i: nat)
    requires forall j :: i <= j < |sb| ==> SlotAt(r1, j) == SlotAt(r2, j)
    ensures Collisions(r1, sb, i) == Collisions(r2, sb, i)
    decreases |sb| - i
  {
    if i < |sb| {
      CollisionsFrame(r1, r2, sb, i + 1);
    }
  }

  /** `res` with every slot from `i` on (within `sb`) merged with the operand's slot. */
  function MergedFrom(res: seq<Option<Value>>, sb: seq<Option<Value>>, i: nat): (r: seq<Option<Value>>)
    ensures |r| == |res|
    ensures forall j :: 0 <= j < |res| ==> r[j] == if i <= j < |sb| then MergedSlot(res[j], sb[j]) else res[j]
  {
    seq(|res|, j requires 0 <= j < |res| => if i <= j < |sb| then MergedSlot(res[j], sb[j]) else res[j])
  }

  lemma MergedFromStep(res: seq<Option<Value>>, sb: seq<Option<Value>>, i: nat, x: Option<Value>)
    requires i < |sb| <= |res| && x == MergedSlot(res[i], sb[i])
    ensures MergedFrom(res[i := x], sb, i + 1) == MergedFrom(res, sb, i)
    ensures Collisions(res[i := x], sb, i + 1) == Collisions(res, sb, i + 1)
  {
    CollisionsFrame(res[i := x], res, sb, i + 1);
  }

  lemma {:induction false} MergeSlotsOk(res: seq<Option<Value>>, extra: seq<Option<Value>>, sb: seq<Option<Value>>, i: nat)
    requires i <= |sb| <= |res|
    ensures MergeSlots(res, extra, sb, i).Ok? <==> forall j :: i <= j < |sb| ==> SlotMergeOk(res[j], sb[j])
    decreases |sb| - i
  {
    if i < |sb| {
      if sb[i].None? {
        MergeSlotsOk(res, extra, sb, i + 1);
      } else if res[i].None? {
        MergeSlotsOk(res[i := sb[i]], extra, sb, i + 1);
      } else if BothDicts(res[i], sb[i]) {
        var m := Merge(res[i].value, sb[i].value);
        if m.Ok? {
          MergeSlotsOk(res[i := Some(m.value)], extra, sb, i + 1);
        }
      } else {
        MergeSlotsOk(res, extra + [sb[i]], sb, i + 1);
      }
    }
  }

  lemma {:induction false} MergeSlotsValue(res: seq<Option<Value>>, extra: seq<Option<Value>>, sb: seq<Option<Value>>, i: nat)
    requires i <= |sb| <= |res|
    requires MergeSlots(res, extra, sb, i).Ok?
    ensures MergeSlots(res, extra, sb, i).value.slots == MergedFrom(res, sb, i) + (extra + Collisions(res, sb, i))
    decreases |sb| - i
  {
    if i == |sb| {
      assert MergedFrom(res, sb, i) == res;
      assert extra + Collisions(res, sb, i) == extra;
    } else {
      var x, extra' := NextSlot(res, extra, sb, i);
      var res' := res[i := x];
      calc {
        MergeSlots(res, extra, sb, i).value.slots;
        MergeSlots(res', extra', sb, i + 1).value.slots;
      == { MergeSlotsValue(res', extra', sb, i + 1); }
        MergedFrom(res', sb, i + 1) + (extra' + Collisions(res', sb, i + 1));
      == { MergedFromStep(res, sb, i, x); }
        MergedFrom(res, sb, i) + (extra + Collisions(res, sb, i));
      }
    }
  }

  /** One step of the loop of ArrayValue.merge, when it does not fail. */
  lemma NextSlot(res: seq<Option<Value>>, extra: seq<Option<Value>>, sb: seq<Option<Value>>, i: nat)
    returns (x: Option<Value>, extra': seq<Option<Value>>)
    requires i < |sb| <= |res|
    requires MergeSlots(res, extra, sb, i).Ok?
    ensures x == MergedSlot(res[i], sb[i])
    ensures MergeSlots(res, extra, sb, i) == MergeSlots(res[i := x], extra', sb, i + 1)
    ensures extra' + Collisions(res, sb, i + 1) == extra + Collisions(res, sb, i)
  {
    if sb[i].None? || (res[i].Some? && !BothDicts(res[i], sb[i])) {
      x := res[i];
      assert res[i := x] == res;
      extra' := if sb[i].None? then extra else extra + [sb[i]];
    } else if res[i].None? {
      x, extra' := sb[i], extra;
    } else {
      x, extra' := Some(Merge(res[i].value, sb[i].value).value), extra;
    }
  }

  /**
   * ArrayValue.merge of two arrays: it fails exactly when the merge of two dictionaries sharing an
   * index fails; otherwise the result has `max(|sa|, |sb|)` merged slots followed by the colliding
   * values of `sb` in index order, so its length is `max(|sa|, |sb|)` plus the number of collisions.
   */
  lemma ArrayMergeShape(sa: seq<Option<Value>>, sb: seq<Option<Value>>)
    ensures Merge(Array(sa), Array(sb)).Ok? <==>
              forall j :: 0 <= j < |sa| && j < |sb| ==> SlotMergeOk(sa[j], sb[j])
    ensures var r := Merge(Array(sa), Array(sb));
            var n := if |sa| > |sb| then |sa| else |sb|;
            r.Ok? ==>
              && r.value.Array?
              && |r.value.slots| == n + |Collisions(sa, sb, 0)|
              && (forall j :: 0 <= j < n ==> r.value.slots[j] == MergedSlot(SlotAt(sa, j), SlotAt(sb, j)))
              && r.value.slots[n..] == Collisions(sa, sb, 0)
  {
    var res := Padded(sa, |sb|);
    MergeSlotsOk(res, [], sb, 0);
    if Merge(Array(sa), Array(sb)).Ok? {
      MergeSlotsValue(res, [], sb, 0);
      assert [] + Collisions(res, sb, 0) == Collisions(res, sb, 0);
    }
    CollisionsFrame(res, sa, sb, 0);
  }

  // ---------------------------------------------------------------------------------------
  // Dictionary with dictionary, key by key

  /** The value a key of the operand ends up with: merged into the receiver's, or as it is. */
  function Combined(ea: seq<(Key, Value)>, k: Key, vb: Value): Result<Value> {
    if HasKey(ea, k) then Merge(Lookup(ea, k).value, vb) else Ok(vb)
  }

  /** The keys of `eb` from entry `i` on that `es` lacks, in the order of `eb`. */
  function NewKeys(es: seq<(Key, Value)>, eb: seq<(Key, Value)>, i: nat): seq<Key>
    decreases |eb| - i
  {
    if i >= |eb| then []
    else (if HasKey(es, eb[i].0) then [] else [eb[i].0]) + NewKeys(es, eb, i + 1)
  }

  lemma {:induction false} NewKeysFrame(e1: seq<(Key, Value)>, e2: seq<(Key, Value)>, eb: seq<(Key, Value)>, i: nat)
    requires forall j :: i <= j < |eb| ==> HasKey(e1, eb[j].0) == HasKey(e2, eb[j].0)
    ensures NewKeys(e1, eb, i) == NewKeys(e2, eb, i)
    decreases |eb| - i
  {
    if i < |eb| {
      NewKeysFrame(e1, e2, eb, i + 1);
    }
  }

  /** The result so far holds a key of the rest of the operand exactly when the receiver does. */
  predicate Aligned(ea: seq<(Key, Value)>, acc: seq<(Key, Value)>, eb: seq<(Key, Value)>, i: nat) {
    forall j :: i <= j < |eb| ==> HasKey(acc, eb[j].0) == HasKey(ea, eb[j].0)
  }

  lemma AlignedStep(ea: seq<(Key, Value)>, acc: seq<(Key, Value)>, eb: seq<(Key, Value)>, i: nat, v: Value)
    requires i < |eb| && UniqueKeys(eb) && Aligned(ea, acc, eb, i)
    ensures Aligned(ea, PutEntry(acc, eb[i].0, v), eb, i + 1)
  {
    forall j | i + 1 <= j < |eb|
      ensures HasKey(PutEntry(acc, eb[i].0, v), eb[j].0) == HasKey(acc, eb[j].0)
    {
      PutLookup(acc, eb[i].0, v, eb[j].0);
    }
  }

  /** One step of the loop of DictValue.merge. */
  lemma NextEntry(ea: seq<(Key, Value)>, acc: seq<(Key, Value)>, eb: seq<(Key, Value)>, i: nat)
    requires i < |eb| && HasKey(acc, eb[i].0) == HasKey(ea, eb[i].0)
    ensures Combined(ea, eb[i].0, eb[i].1).Err? ==> MergeEntries(ea, acc, eb, i).Err?
    ensures Combined(ea, eb[i].0, eb[i].1).Ok? ==>
              MergeEntries(ea, acc, eb, i) ==
                MergeEntries(ea, PutEntry(acc, eb[i].0, Combined(ea, eb[i].0, eb[i].1).value), eb, i + 1)
  {
  }

  /**
   * One round of the loop of DictValue.merge while the result so far holds the same keys of the
   * rest of the operand as the receiver: it fails when the combined value fails, and otherwise
   * puts that value and keeps the alignment.
   */
  lemma AlignedEntry(ea: seq<(Key, Value)>, acc: seq<(Key, Value)>, eb: seq<(Key, Value)>, i: nat)
    requires i < |eb| && UniqueKeys(eb) && Aligned(ea, acc, eb, i)
    ensures var c := Combined(ea, eb[i].0, eb[i].1);
            && (c.Err? ==> MergeEntries(ea, acc, eb, i).Err?)
            && (c.Ok? ==> MergeEntries(ea, acc, eb, i) == MergeEntries(ea, PutEntry(acc, eb[i].0, c.value), eb, i + 1))
            && (c.Ok? ==> Aligned(ea, PutEntry(acc, eb[i].0, c.value), eb, i + 1))
  {
    NextEntry(ea, acc, eb, i);
    var c := Combined(ea, eb[i].0, eb[i].1);
    if c.Ok? {
      AlignedStep(ea, acc, eb, i, c.value);
    }
  }

  lemma {:induction false} MergeEntriesOk(ea: seq<(Key, Value)>, acc: seq<(Key, Value)>, eb: seq<(Key, Value)>, i: nat)
    requires i <= |eb| && UniqueKeys(eb) && Aligned(ea, acc, eb, i)
    ensures MergeEntries(ea, acc, eb, i).Ok? <==> forall j :: i <= j < |eb| ==> Combined(ea, eb[j].0, eb[j].1).Ok?
    decreases |eb| - i
  {
    if i < |eb| {
      AlignedEntry(ea, acc, eb, i);
      var c := Combined(ea, eb[i].0, eb[i].1);
      if c.Ok? {
        MergeEntriesOk(ea, PutEntry(acc, eb[i].0, c.value), eb, i + 1);
      }
    }
  }

  lemma {:induction false} MergeEntriesUnique(ea: seq<(Key, Value)>, acc: seq<(Key, Value)>, eb: seq<(Key, Value)>, i: nat)
    requires i <= |eb| && UniqueKeys(acc) && UniqueKeys(eb) && Aligned(ea, acc, eb, i)
    requires MergeEntries(ea, acc, eb, i).Ok?
    ensures UniqueKeys(MergeEntries(ea, acc, eb, i).value.entries)
    decreases |eb| - i
  {
    if i < |eb| {
      AlignedEntry(ea, acc, eb, i);
      var k := eb[i].0;
      var c := Combined(ea, k, eb[i].1);
      PutUnique(acc, k, c.value);
      MergeEntriesUnique(ea, PutEntry(acc, k, c.value), eb, i + 1);
    }
  }

  lemma {:induction false} MergeEntriesKeys(ea: seq<(Key, Value)>, acc: seq<(Key, Value)>, eb: seq<(Key, Value)>, i: nat)
    requires i <= |eb| && UniqueKeys(eb) && Aligned(ea, acc, eb, i)
    requires MergeEntries(ea, acc, eb, i).Ok?
    ensures KeysOf(MergeEntries(ea, acc, eb, i).value.entries) == KeysOf(acc) + NewKeys(acc, eb, i)
    decreases |eb| - i
  {
    if i == |eb| {
      assert KeysOf(acc) + NewKeys(acc, eb, i) == KeysOf(acc);
    } else {
      AlignedEntry(ea, acc, eb, i);
      var k := eb[i].0;
      var c := Combined(ea, k, eb[i].1);
      var acc' := PutEntry(acc, k, c.value);
      MergeEntriesKeys(ea, acc', eb, i + 1);
      PutNewKeys(acc, k, c.value, eb, i);
    }
  }

  lemma NewKeysAfterPut(acc: seq<(Key, Value)>, k: Key, v: Value, eb: seq<(Key, Value)>, i: nat)
    requires forall j :: i <= j < |eb| ==> eb[j].0 != k
    ensures NewKeys(PutEntry(acc, k, v), eb, i) == NewKeys(acc, eb, i)
  {
    forall j | i <= j < |eb|
      ensures HasKey(PutEntry(acc, k, v), eb[j].0) == HasKey(acc, eb[j].0)
    {
      PutLookup(acc, k, v, eb[j].0);
    }
    NewKeysFrame(PutEntry(acc, k, v), acc, eb, i);
  }

  /** Putting the key of entry `i` moves it from the new keys to the keys of the dictionary. */
  lemma PutNewKeys(acc: seq<(Key, Value)>, k: Key, v: Value, eb: seq<(Key, Value)>, i: nat)
    requires i < |eb| && UniqueKeys(eb) && eb[i].0 == k
    ensures KeysOf(PutEntry(acc, k, v)) + NewKeys(PutEntry(acc, k, v), eb, i + 1) == KeysOf(acc) + NewKeys(acc, eb, i)
  {
    assert forall j :: i + 1 <= j < |eb| ==> eb[j].0 != k;
    NewKeysAfterPut(acc, k, v, eb, i + 1);
    PutKeys(acc, k, v);
    ConcatAssoc(KeysOf(acc), if HasKey(acc, k) then [] else [k], NewKeys(acc, eb, i + 1));
  }

  /** A key the rest of the operand does not hold keeps the value the result so far gives it. */
  lemma {:induction false} MergeEntriesKept(ea: seq<(Key, Value)>, acc: seq<(Key, Value)>, eb: seq<(Key, Value)>, i: nat, k: Key)
    requires i <= |eb| && UniqueKeys(eb) && Aligned(ea, acc, eb, i)
    requires MergeEntries(ea, acc, eb, i).Ok?
    requires forall j :: i <= j < |eb| ==> eb[j].0 != k
    ensures Lookup(MergeEntries(ea, acc, eb, i).value.entries, k) == Lookup(acc, k)
    decreases |eb| - i
  {
    if i < |eb| {
      AlignedEntry(ea, acc, eb, i);
      var c := Combined(ea, eb[i].0, eb[i].1);
      PutLookup(acc, eb[i].0, c.value, k);
      MergeEntriesKept(ea, PutEntry(acc, eb[i].0, c.value), eb, i + 1, k);
    }
  }

  /** A key of the operand maps to its combined value. */
  lemma {:induction false} MergeEntriesMerged(ea: seq<(Key, Value)>, acc: seq<(Key, Value)>, eb: seq<(Key, Value)>, i: nat, j: nat)
    requires i <= j < |eb| && UniqueKeys(eb) && Aligned(ea, acc, eb, i)
    requires MergeEntries(ea, acc, eb, i).Ok?
    ensures Combined(ea, eb[j].0, eb[j].1).Ok?
    ensures Lookup(MergeEntries(ea, acc, eb, i).value.entries, eb[j].0) == Some(Combined(ea, eb[j].0, eb[j].1).value)
    decreases |eb| - i
  {
    AlignedEntry(ea, acc, eb, i);
    MergeEntriesOk(ea, acc, eb, i);
    var c := Combined(ea, eb[i].0, eb[i].1);
    var acc' := PutEntry(acc, eb[i].0, c.value);
    if j == i {
      PutLookup(acc, eb[i].0, c.value, eb[i].0);
      MergeEntriesKept(ea, acc', eb, i + 1, eb[i].0);
    } else {
      MergeEntriesMerged(ea, acc', eb, i + 1, j);
    }
  }

  lemma MergeEntriesLookup(ea: seq<(Key, Value)>, acc: seq<(Key, Value)>, eb: seq<(Key, Value)>, i: nat)
    requires i <= |eb| && UniqueKeys(eb) && Aligned(ea, acc, eb, i)
    requires MergeEntries(ea, acc, eb, i).Ok?
    ensures var r := MergeEntries(ea, acc, eb, i).value.entries;
            && (forall j :: i <= j < |eb| ==>
                  Combined(ea, eb[j].0, eb[j].1).Ok? && Lookup(r, eb[j].0) == Some(Combined(ea, eb[j].0, eb[j].1).value))
            && (forall k :: (forall j :: i <= j < |eb| ==> eb[j].0 != k) ==> Lookup(r, k) == Lookup(acc, k))
  {
    forall j | i <= j < |eb| {
      MergeEntriesMerged(ea, acc, eb, i, j);
    }
    forall k | forall j :: i <= j < |eb| ==> eb[j].0 != k {
      MergeEntriesKept(ea, acc, eb, i, k);
    }
  }

  /**
   * DictValue.merge of two dictionaries with distinct keys: it fails exactly when the merge of the
   * values of a shared key fails; otherwise the keys are those of `ea` in their order followed by
   * the new keys of `eb` in theirs, a shared key maps to the merge of its two values, and any other
   * key keeps its value.
   */
  lemma DictMergeShape(ea: seq<(Key, Value)>, eb: seq<(Key, Value)>)
    requires UniqueKeys(ea) && UniqueKeys(eb)
    ensures Merge(Dict(ea), Dict(eb)).Ok? <==>
              forall j :: 0 <= j < |eb| && HasKey(ea, eb[j].0) ==> Merge(Lookup(ea, eb[j].0).value, eb[j].1).Ok?
    ensures var r := Merge(Dict(ea), Dict(eb));
            r.Ok? ==>
              && r.value.Dict?
              && UniqueKeys(r.value.entries)
              && KeysOf(r.value.entries) == KeysOf(ea) + NewKeys(ea, eb, 0)
              && forall k :: Lookup(r.value.entries, k) ==
                   if HasKey(ea, k) && HasKey(eb, k) then Some(Merge(Lookup(ea, k).value, Lookup(eb, k).value).value)
                   else if HasKey(ea, k) then Lookup(ea, k)
                   else Lookup(eb, k)
  {
    DictMergeStart(ea, eb);
    MergeEntriesOk(ea, ea, eb, 0);
    var r := Merge(Dict(ea), Dict(eb));
    if r.Ok? {
      MergeEntriesUnique(ea, ea, eb, 0);
      MergeEntriesKeys(ea, ea, eb, 0);
      MergeEntriesLookup(ea, ea, eb, 0);
      forall k
        ensures Lookup(r.value.entries, k) ==
                  if HasKey(ea, k) && HasKey(eb, k) then Some(Merge(Lookup(ea, k).value, Lookup(eb, k).value).value)
                  else if HasKey(ea, k) then Lookup(ea, k)
                  else Lookup(eb, k)
      {
        if HasKey(eb, k) {
          LookupUnique(eb, KeyIndex(eb, k));
        }
      }
    }
  }

  lemma {:induction false} DisjointEntries(ea: seq<(Key, Value)>, acc: seq<(Key, Value)>, eb: seq<(Key, Value)>, i: nat)
    requires i <= |eb| && UniqueKeys(eb)
    requires forall j :: i <= j < |eb| ==> !HasKey(acc, eb[j].0)
    ensures MergeEntries(ea, acc, eb, i) == Ok(Dict(acc + eb[i..]))
    decreases |eb| - i
  {
    if i == |eb| {
      assert acc + eb[i..] == acc;
    } else {
      var acc' := acc + [eb[i]];
      assert !HasKey(acc, eb[i].0);
      assert PutEntry(acc, eb[i].0, eb[i].1) == acc';
      assert MergeEntries(ea, acc, eb, i) == MergeEntries(ea, acc', eb, i + 1);
      forall j | i + 1 <= j < |eb|
        ensures !HasKey(acc', eb[j].0)
      {
        KeyIndexAppend(acc, [eb[i]], eb[j].0);
      }
      DisjointEntries(ea, acc', eb, i + 1);
      calc {
        acc' + eb[i + 1..];
      == { ConcatAssoc(acc, [eb[i]], eb[i + 1..]); }
        acc + ([eb[i]] + eb[i + 1..]);
      == { assert [eb[i]] + eb[i + 1..] == eb[i..]; }
        acc + eb[i..];
      }
    }
  }

  /** Dictionaries without a shared key merge into the entries of the first followed by those of the second. */
  lemma DisjointDictMerge(ea: seq<(Key, Value)>, eb: seq<(Key, Value)>)
    requires UniqueKeys(ea) && UniqueKeys(eb)
    requires forall j :: 0 <= j < |eb| ==> !HasKey(ea, eb[j].0)
    ensures Merge(Dict(ea), Dict(eb)) == Ok(Dict(ea + eb))
  {
    DictMergeStart(ea, eb);
    DisjointEntries(ea, ea, eb, 0);
  }

  // ---------------------------------------------------------------------------------------
  // Merge keeps the LinkedHashMap invariant

  /** `put` of a well-formed value into a well-formed dictionary keeps it well-formed. */
  lemma PutWellFormed(es: seq<(Key, Value)>, k: Key, v: Value)
    requires WellFormed(Dict(es)) && WellFormed(v)
    ensures WellFormed(Dict(PutEntry(es, k, v)))
  {
    PutUnique(es, k, v);
  }

  /** The dictionary view of a well-formed array is well-formed. */
  lemma AsDictWellFormed(slots: seq<Option<Value>>)
    requires WellFormed(Array(slots))
    ensures WellFormed(Dict(AsDictEntries(slots)))
  {
    var r := AsDictEntries(slots);
    forall j | 0 <= j < |r|
      ensures WellFormed(r[j].1)
    {
      assert slots[r[j].0.i] == Some(r[j].1);
    }
  }

  /** Joining two well-formed arrays' slots gives a well-formed array. */
  lemma SlotsAppendWellFormed(s1: seq<Option<Value>>, s2: seq<Option<Value>>)
    requires WellFormed(Array(s1)) && WellFormed(Array(s2))
    ensures WellFormed(Array(s1 + s2))
  {
    var all := s1 + s2;
    forall j | 0 <= j < |all| && all[j].Some?
      ensures WellFormed(all[j].value)
    {
      if j < |s1| {
        assert all[j] == s1[j];
      } else {
        assert all[j] == s2[j - |s1|];
      }
    }
  }

  lemma OperandWellFormed(x: Value)
    requires WellFormed(x)
    ensures WellFormed(Array(Operand(Some(x))))
  {
    if !x.Array? {
      assert Operand(Some(x)) == [Some(x)];
    }
  }

  /** The concatenation array of two well-formed values is well-formed. */
  lemma ConcatWellFormed(a: Value, b: Value)
    requires WellFormed(a) && WellFormed(b)
    ensures WellFormed(ConcatArray(Some(a), Some(b)))
  {
    OperandWellFormed(a);
    OperandWellFormed(b);
    SlotsAppendWellFormed(Operand(Some(a)), Operand(Some(b)));
  }

  /** Merging well-formed values gives a well-formed value: no dictionary in it repeats a key. */
  lemma {:induction false} MergeWellFormed(a: Value, b: Value)
    requires WellFormed(a) && WellFormed(b)
    ensures Merge(a, b).Ok? ==> WellFormed(Merge(a, b).value)
    decreases Size(b), 2 + Rank(a, b), 0
  {
    match a
    case Dict(ea) =>
      if b.Array? {
        AsDictWellFormed(b.slots);
        MergeWellFormed(a, Dict(AsDictEntries(b.slots)));
      } else if b.Dict? {
        DictMergeStart(ea, b.entries);
        MergeEntriesWellFormed(ea, ea, b.entries, 0);
      }
    case Array(sa) =>
      if b.Dict? {
        AsDictWellFormed(sa);
        MergeWellFormed(Dict(AsDictEntries(sa)), b);
      } else if b.Array? {
        MergeSlotsWellFormed(Padded(sa, |b.slots|), [], b.slots, 0);
      } else {
        ConcatWellFormed(a, b);
      }
    case _ =>
      ConcatWellFormed(a, b);
  }

  lemma {:induction false} MergeEntriesWellFormed(ea: seq<(Key, Value)>, acc: seq<(Key, Value)>, eb: seq<(Key, Value)>, i: nat)
    requires i <= |eb|
    requires WellFormed(Dict(ea)) && WellFormed(Dict(eb)) && WellFormed(Dict(acc))
    ensures MergeEntries(ea, acc, eb, i).Ok? ==> WellFormed(MergeEntries(ea, acc, eb, i).value)
    decreases Size(Dict(eb)), 1, |eb| - i
  {
    if i < |eb| {
      var k := eb[i].0;
      if !HasKey(acc, k) {
        PutWellFormed(acc, k, eb[i].1);
        MergeEntriesWellFormed(ea, PutEntry(acc, k, eb[i].1), eb, i + 1);
      } else if Lookup(ea, k).Some? {
        var x := Lookup(ea, k).value;
        assert x == ea[KeyIndex(ea, k)].1;
        EntriesSizeBound(eb, i);
        MergeWellFormed(x, eb[i].1);
        var m := Merge(x, eb[i].1);
        if m.Ok? {
          PutWellFormed(acc, k, m.value);
          MergeEntriesWellFormed(ea, PutEntry(acc, k, m.value), eb, i + 1);
        }
      }
    }
  }

  lemma {:induction false} MergeSlotsWellFormed(res: seq<Option<Value>>, extra: seq<Option<Value>>, sb: seq<Option<Value>>, i: nat)
    requires i <= |sb| <= |res|
    requires WellFormed(Array(res)) && WellFormed(Array(extra)) && WellFormed(Array(sb))
    ensures MergeSlots(res, extra, sb, i).Ok? ==> WellFormed(MergeSlots(res, extra, sb, i).value)
    decreases Size(Array(sb)), 1, |sb| - i
  {
    if i == |sb| {
      SlotsAppendWellFormed(res, extra);
    } else if sb[i].None? {
      MergeSlotsWellFormed(res, extra, sb, i + 1);
    } else if res[i].None? {
      MergeSlotsWellFormed(res[i := sb[i]], extra, sb, i + 1);
    } else if res[i].value.Dict? && sb[i].value.Dict? {
      SlotsSizeBound(sb, i);
      MergeWellFormed(res[i].value, sb[i].value);
      var m := Merge(res[i].value, sb[i].value);
      if m.Ok? {
        MergeSlotsWellFormed(res[i := Some(m.value)], extra, sb, i + 1);
      }
    } else {
      var extra' := extra + [sb[i]];
      assert forall j :: 0 <= j < |extra'| && extra'[j].Some? ==> WellFormed(extra'[j].value);
      MergeSlotsWellFormed(res, extra', sb, i + 1);
    }
  }

  // ---------------------------------------------------------------------------------------
  // Worked cases

  /** A scalar merged with anything but an array makes the two-element array of both. */
  lemma MergeScalar(x: Value, y: Value)
    requires !x.Array? && !x.Dict? && !y.Array?
    ensures Merge(x, y) == Ok(Array([Some(x), Some(y)]))
  {
    assert Operand(Some(x)) == [Some(x)];
    assert Operand(Some(y)) == [Some(y)];
    assert [Some(x)] + [Some(y)] == [Some(x), Some(y)];
  }

  /** A null operand is appended as the Null value, on either side of an array. */
  lemma MergeNullCases(s: seq<Option<Value>>)
    ensures Merge(Array(s), Null) == Ok(Array(s + [Some(Null)]))
    ensures Merge(Null, Array(s)) == Ok(Array([Some(Null)] + s))
  {
    assert Operand(Some(Array(s))) == s;
    assert Operand(Some(Null)) == [Some(Null)];
  }

  /**
   * Two one-entry dictionaries under the same key: the result holds that key with the merge of the
   * two values, and fails as that merge fails.
   */
  lemma MergeUnderKey(k: Key, x: Value, y: Value)
    ensures Merge(Dict([(k, x)]), Dict([(k, y)]))
         == match Merge(x, y) case Ok(m) => Ok(Dict([(k, m)])) case Err(e) => Err(e)
  {
    DictMergeStart([(k, x)], [(k, y)]);
    OneEntryStep(k, x, y);
  }

  /**
   * A dictionary merged with a dictionary: the loop of DictValue.merge starting from the copy of
   * the receiver's entries.
   */
  lemma DictMergeStart(ea: seq<(Key, Value)>, eb: seq<(Key, Value)>)
    requires UniqueKeys(ea)
    ensures Merge(Dict(ea), Dict(eb)) == MergeEntries(ea, ea, eb, 0)
  {
    PutAllCopies(ea);
  }

  /** The one round of DictValue.merge's loop when both sides hold the single key `k`. */
  lemma OneEntryStep(k: Key, x: Value, y: Value)
    ensures MergeEntries([(k, x)], [(k, x)], [(k, y)], 0)
         == match Merge(x, y) case Ok(m) => Ok(Dict([(k, m)])) case Err(e) => Err(e)
  {
    assert KeyIndex([(k, x)], k) == 0;
    if Merge(x, y).Ok? {
      var m := Merge(x, y).value;
      assert PutEntry([(k, x)], k, m) == [(k, m)];
    }
  }

  /** Two scalars under the same key are collected into an array. */
  lemma MergeSameKeyCase(k: Key, x: Value, y: Value)
    requires !x.Array? && !x.Dict? && !y.Array?
    ensures Merge(Dict([(k, x)]), Dict([(k, y)])) == Ok(Dict([(k, Array([Some(x), Some(y)]))]))
  {
    MergeScalar(x, y);
    MergeUnderKey(k, x, y);
  }

  /**
   * A two-slot array meeting a dictionary becomes its index-keyed dictionary view, to which the
   * dictionary's other key is appended.
   */
  lemma ArrayIntoDict(a: Value, b: Value, k: Key, c: Value)
    requires k != IKey(0) && k != IKey(1)
    ensures Merge(Array([Some(a), Some(b)]), Dict([(k, c)]))
         == Ok(Dict([(IKey(0), a), (IKey(1), b), (k, c)]))
  {
    var view := [(IKey(0), a), (IKey(1), b)];
    calc {
      Merge(Array([Some(a), Some(b)]), Dict([(k, c)]));
    == { TwoSlotView(a, b); }
      Merge(Dict(view), Dict([(k, c)]));
    == { assert KeyIndex(view, k) == -1; DisjointDictMerge(view, [(k, c)]); }
      Ok(Dict(view + [(k, c)]));
    == { assert view + [(k, c)] == [(IKey(0), a), (IKey(1), b), (k, c)]; }
      Ok(Dict([(IKey(0), a), (IKey(1), b), (k, c)]));
    }
  }

  /** The dictionary view of two filled slots. */
  lemma TwoSlotView(a: Value, b: Value)
    ensures AsDictEntries([Some(a), Some(b)]) == [(IKey(0), a), (IKey(1), b)]
  {
    AsDictUpToFull([Some(a), Some(b)], 2);
  }

  /** The same, one level down: under a shared key, the array becomes a dictionary. */
  lemma MergeArrayIntoDictCase(key: Key, a: Value, b: Value, k: Key, c: Value)
    requires k != IKey(0) && k != IKey(1)
    ensures Merge(Dict([(key, Array([Some(a), Some(b)]))]), Dict([(key, Dict([(k, c)]))]))
         == Ok(Dict([(key, Dict([(IKey(0), a), (IKey(1), b), (k, c)]))]))
  {
    ArrayIntoDict(a, b, k, c);
    MergeUnderKey(key, Array([Some(a), Some(b)]), Dict([(k, c)]));
  }

  /**
   * A one-slot array merged with a two-slot array: the first slot keeps the receiver's value
   * (unless both are dictionaries), the hole takes the operand's second value, and the operand's
   * first value, which collided, goes to the end.
   */
  lemma MergeSlotCollision(x: Value, y: Value, z: Value)
    requires !(x.Dict? && y.Dict?)
    ensures Merge(Array([Some(x)]), Array([Some(y), Some(z)])) == Ok(Array([Some(x), Some(z), Some(y)]))
  {
    var sb := [Some(y), Some(z)];
    assert Padded([Some(x)], 2) == [Some(x), None];
    assert [] + [Some(y)] == [Some(y)];
    assert MergeSlots([Some(x), None], [], sb, 0) == MergeSlots([Some(x), None], [Some(y)], sb, 1);
    assert [Some(x), None][1 := Some(z)] == [Some(x), Some(z)];
    assert MergeSlots([Some(x), None], [Some(y)], sb, 1) == MergeSlots([Some(x), Some(z)], [Some(y)], sb, 2);
    assert [Some(x), Some(z)] + [Some(y)] == [Some(x), Some(z), Some(y)];
  }

  /** The same under a shared key. */
  lemma MergeArraysCase(key: Key, x: Value, y: Value, z: Value)
    requires !(x.Dict? && y.Dict?)
    ensures Merge(Dict([(key, Array([Some(x)]))]), Dict([(key, Array([Some(y), Some(z)]))]))
         == Ok(Dict([(key, Array([Some(x), Some(z), Some(y)]))]))
  {
    MergeSlotCollision(x, y, z);
    MergeUnderKey(key, Array([Some(x)]), Array([Some(y), Some(z)]));
  }

  /**
   * An index array holding its value at slot 1 merged with one holding slot 0: the receiver's
   * hole takes the operand's value, so both values end up in index order with no collision.
   */
  lemma MergeFillsHole(b: Value, c: Value)
    ensures Merge(IndexArray(1, Some(c)), IndexArray(0, Some(b))) == Ok(Array([Some(b), Some(c)]))
  {
    assert IndexArray(1, Some(c)) == Array([None, Some(c)]);
    assert IndexArray(0, Some(b)) == Array([Some(b)]);
    var sb := [Some(b)];
    assert Padded([None, Some(c)], 1) == [None, Some(c)];
    assert [None, Some(c)][0 := Some(b)] == [Some(b), Some(c)];
    assert MergeSlots([None, Some(c)], [], sb, 0) == MergeSlots([Some(b), Some(c)], [], sb, 1);
    assert [Some(b), Some(c)] + [] == [Some(b), Some(c)];
  }

  /** The same under a shared key: `a[1]=c` followed by `a[0]=b` gives `{a: [b, c]}`. */
  lemma MergeIndexedCase(key: Key, b: Value, c: Value)
    ensures Merge(Dict([(key, IndexArray(1, Some(c)))]), Dict([(key, IndexArray(0, Some(b)))]))
         == Ok(Dict([(key, Array([Some(b), Some(c)]))]))
  {
    MergeFillsHole(b, c);
    MergeUnderKey(key, IndexArray(1, Some(c)), IndexArray(0, Some(b)));
  }
}
