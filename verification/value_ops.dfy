/**
 * The value operations as the Java classes run them: `merge`, `asDictValue`, `compact` and
 * `equals` of ArrayValue and DictValue fill a fresh array, list or LinkedHashMap in a loop.
 * Each method here is proved to compute the function that specifies it in Values and Merging,
 * where the properties of those functions are proved.
 */
module ValueOps {
  import opened Wrappers
  import opened Values
  import opened Merging

  /** Size of a possibly-null operand: the termination measure of `merge`. */
  function OperandSize(b: Option<Value>): nat {
    if b.Some? then Size(b.value) else 0
  }

  // ---------------------------------------------------------------------------------------
  // merge

  /** `a.merge(b)`, dispatched on the receiver's class; `b` may be Java-null. */
  method MergeValue(a: Value, b: Option<Value>) returns (r: Result<Value>)
    ensures r == MergeOpt(a, b)
    decreases OperandSize(b), 2, 0
  {
    match a
    case Array(sa) =>
      r := ArrayMerge(sa, b);
    case Dict(ea) =>
      r := DictMerge(ea, b);
    case _ =>
      // Value.merge: null gives this, anything else the concatenation array
      if b.None? {
        r := Ok(a);
      } else {
        r := Ok(ConcatArray(Some(a), b));
      }
  }

  /** The index of the `j`-th entry of an array's dictionary view, or `n` past the last one. */
  function NextIndex(view: seq<(Key, Value)>, j: nat, n: nat): nat {
    if j < |view| && view[j].0.IKey? && view[j].0.i >= 0 then view[j].0.i else n
  }

  /** The first index after the `(j-1)`-th entry of the view. */
  function StartIndex(view: seq<(Key, Value)>, j: nat): nat {
    if 0 < j <= |view| && view[j - 1].0.IKey? && view[j - 1].0.i >= 0 then view[j - 1].0.i + 1 else 0
  }

  /** Between two consecutive entries of the dictionary view, the array has only holes. */
  lemma ViewGap(sb: seq<Option<Value>>, j: nat)
    requires j <= |AsDictEntries(sb)|
    ensures var view := AsDictEntries(sb);
            forall t :: StartIndex(view, j) <= t < NextIndex(view, j, |sb|) ==> sb[t].None?
  {
    var view := AsDictEntries(sb);
    AsDictView(sb);
    forall t | StartIndex(view, j) <= t < NextIndex(view, j, |sb|)
      ensures sb[t].None?
    {
      SortedViewMisses(view, j, |sb|, t);
      assert Lookup(view, IKey(t)) == None;
    }
  }

  /** An index strictly between two consecutive keys of an ascending index-keyed view is no key of it. */
  lemma SortedViewMisses(view: seq<(Key, Value)>, j: nat, n: nat, t: nat)
    requires j <= |view|
    requires forall m :: 0 <= m < |view| ==> view[m].0.IKey? && view[m].0.i >= 0
    requires forall m, m' :: 0 <= m < m' < |view| ==> view[m].0.i < view[m'].0.i
    requires StartIndex(view, j) <= t < NextIndex(view, j, n)
    ensures KeyIndex(view, IKey(t)) == -1
  {
    forall m | 0 <= m < |view|
      ensures view[m].0 != IKey(t)
    {
      if m < j {
        assert view[m].0.i <= view[j - 1].0.i;
      } else {
        assert view[j].0.i <= view[m].0.i;
      }
    }
  }

  /** Holes of the operand are skipped by the slot-by-slot merge. */
  lemma {:induction false} SkipHoles(res: seq<Option<Value>>, extra: seq<Option<Value>>, sb: seq<Option<Value>>, i: nat, i': nat)
    requires i <= i' <= |sb| <= |res|
    requires forall t :: i <= t < i' ==> sb[t].None?
    ensures MergeSlots(res, extra, sb, i) == MergeSlots(res, extra, sb, i')
    decreases i' - i
  {
    if i < i' {
      SkipHoles(res, extra, sb, i + 1, i');
    }
  }

  /** One filled slot of the operand, as the slot-by-slot merge handles it. */
  lemma SlotStep(res: seq<Option<Value>>, extra: seq<Option<Value>>, sb: seq<Option<Value>>, key: nat)
    requires key < |sb| <= |res| && sb[key].Some?
    ensures MergeSlots(res, extra, sb, key) ==
              if res[key].None? then MergeSlots(res[key := sb[key]], extra, sb, key + 1)
              else if res[key].value.Dict? && sb[key].value.Dict? then
                match Merge(res[key].value, sb[key].value)
                case Err(e) => Err(e)
                case Ok(m) => MergeSlots(res[key := Some(m)], extra, sb, key + 1)
              else MergeSlots(res, extra + [sb[key]], sb, key + 1)
  {
  }

  /**
   * ArrayValue.merge: null gives this, a dictionary is merged into this array's dictionary view,
   * a scalar makes the concatenation array. Another array is merged by filling a result array
   * (this array's slots, padded with holes to the longer length) from the operand's dictionary
   * view, collecting colliding values in `extra`, which goes after the result array.
   */
  method ArrayMerge(sa: seq<Option<Value>>, b: Option<Value>) returns (r: Result<Value>)
    ensures r == MergeOpt(Array(sa), b)
    decreases OperandSize(b), 1, 0
  {
    if b.None? {
      return Ok(Array(sa));
    }
    var other := b.value;
    if other.Dict? {
      var asDict := AsDictValue(sa);
      r := DictMerge(asDict.entries, b);
      return;
    }
    if !other.Array? {
      return Ok(ConcatArray(Some(Array(sa)), b));
    }
    r := MergeArrays(sa, other.slots);
  }

  /** The array-with-array case of ArrayValue.merge. */
  method MergeArrays(sa: seq<Option<Value>>, sb: seq<Option<Value>>) returns (r: Result<Value>)
    ensures r == Merge(Array(sa), Array(sb))
    decreases Size(Array(sb)), 0, 3
  {
    var res := PaddedCopy(sa, |sb|);
    var dictValue := AsDictValue(sb);
    var extra, err := FillFromView(res, sb, dictValue.entries);
    if err.Some? {
      return Err(err.value);
    }
    var all := AppendExtra(res, extra);
    r := Ok(Array(all[..]));
  }

  /**
   * The loop of ArrayValue.merge over the operand's dictionary view: each entry goes into the
   * result array or into `extra`; a failing nested merge stops the loop.
   */
  method FillFromView(res: array<Option<Value>>, sb: seq<Option<Value>>, view: seq<(Key, Value)>)
    returns (extra: seq<Option<Value>>, err: Option<Failure>)
    requires |sb| <= res.Length && view == AsDictEntries(sb)
    modifies res
    ensures err.Some? ==> MergeSlots(old(res[..]), [], sb, 0) == Err(err.value)
    ensures err.None? ==> MergeSlots(old(res[..]), [], sb, 0) == Ok(Array(res[..] + extra))
    decreases Size(Array(sb)), 0, 2
  {
    ghost var spec := MergeSlots(res[..], [], sb, 0);
    extra, err := [], None;
    SkipToEntry(res[..], extra, sb, 0);
    var j := 0;
    while j < |view|
      invariant 0 <= j <= |view| && err.None?
      invariant spec == MergeSlots(res[..], extra, sb, NextIndex(view, j, |sb|))
    {
      extra, err := FillEntry(res, extra, sb, view, j);
      if err.Some? {
        return;
      }
      j := j + 1;
    }
  }

  /** One round of the loop of FillFromView: the `j`-th entry of the view, then the holes after it. */
  method FillEntry(res: array<Option<Value>>, extra: seq<Option<Value>>, sb: seq<Option<Value>>,
                   view: seq<(Key, Value)>, j: nat)
    returns (extra': seq<Option<Value>>, err: Option<Failure>)
    requires |sb| <= res.Length && view == AsDictEntries(sb) && j < |view|
    modifies res
    ensures err.Some? ==> MergeSlots(old(res[..]), extra, sb, NextIndex(view, j, |sb|)) == Err(err.value)
    ensures err.None? ==>
              MergeSlots(old(res[..]), extra, sb, NextIndex(view, j, |sb|)) ==
              MergeSlots(res[..], extra', sb, NextIndex(view, j + 1, |sb|))
    decreases Size(Array(sb)), 0, 1
  {
    ViewEntry(sb, j);
    var key := view[j].0.i;
    extra', err := FillSlot(res, extra, sb, key, view[j].1);
    if err.Some? {
      return;
    }
    SkipToEntry(res[..], extra', sb, j + 1);
  }

  /** `new Value[max(|sa|, n)]` with `sa` copied to its start. */
  method PaddedCopy(sa: seq<Option<Value>>, n: nat) returns (res: array<Option<Value>>)
    ensures fresh(res)
    ensures res[..] == Padded(sa, n)
  {
    var len := if |sa| > n then |sa| else n;
    res := new Option<Value>[len](_ => None);
    forall j | 0 <= j < |sa| {
      res[j] := sa[j];
    }
  }

  /** A fresh array holding the slots of `res` followed by `extra`. */
  method AppendExtra(res: array<Option<Value>>, extra: seq<Option<Value>>) returns (all: array<Option<Value>>)
    ensures fresh(all)
    ensures all[..] == res[..] + extra
  {
    all := new Option<Value>[res.Length + |extra|](_ => None);
    forall t | 0 <= t < res.Length {
      all[t] := res[t];
    }
    forall t | res.Length <= t < all.Length {
      all[t] := extra[t - res.Length];
    }
  }

  /** The `j`-th entry of an array's dictionary view names a filled slot. */
  lemma ViewEntry(sb: seq<Option<Value>>, j: nat)
    requires j < |AsDictEntries(sb)|
    ensures var view := AsDictEntries(sb);
            && view[j].0 == IKey(NextIndex(view, j, |sb|))
            && NextIndex(view, j, |sb|) < |sb|
            && sb[NextIndex(view, j, |sb|)] == Some(view[j].1)
            && StartIndex(view, j + 1) == NextIndex(view, j, |sb|) + 1
  {
  }

  /** From just after the previous entry of the view, the merge skips holes up to the next. */
  lemma SkipToEntry(res: seq<Option<Value>>, extra: seq<Option<Value>>, sb: seq<Option<Value>>, j: nat)
    requires j <= |AsDictEntries(sb)| && |sb| <= |res|
    ensures var view := AsDictEntries(sb);
            && StartIndex(view, j) <= NextIndex(view, j, |sb|) <= |sb|
            && MergeSlots(res, extra, sb, StartIndex(view, j)) == MergeSlots(res, extra, sb, NextIndex(view, j, |sb|))
  {
    var view := AsDictEntries(sb);
    ViewGap(sb, j);
    SkipHoles(res, extra, sb, StartIndex(view, j), NextIndex(view, j, |sb|));
  }

  /**
   * One entry `key -> val` of the operand's dictionary view: a hole of the result takes the value,
   * two dictionaries are merged, and any other value is collected in `extra`.
   */
  method FillSlot(res: array<Option<Value>>, extra: seq<Option<Value>>, sb: seq<Option<Value>>, key: nat, val: Value)
    returns (extra': seq<Option<Value>>, err: Option<Failure>)
    requires key < |sb| <= res.Length && sb[key] == Some(val)
    modifies res
    ensures err.Some? ==> MergeSlots(old(res[..]), extra, sb, key) == Err(err.value)
    ensures err.None? ==> MergeSlots(old(res[..]), extra, sb, key) == MergeSlots(res[..], extra', sb, key + 1)
    decreases Size(Array(sb)), 0, 0
  {
    SlotsSizeBound(sb, key);
    SlotStep(res[..], extra, sb, key);
    extra', err := extra, None;
    if res[key].None? {
      res[key] := Some(val);
    } else if val.Dict? && res[key].value.Dict? {
      var m := MergeValue(res[key].value, Some(val));
      if m.Err? {
        err := Some(m.error);
        return;
      }
      res[key] := Some(m.value);
    } else {
      extra' := extra + [Some(val)];
    }
  }

  /**
   * DictValue.merge: an array is merged as its dictionary view, anything else but a dictionary
   * (null included) fails. For a dictionary, the result starts as a copy of this one; each entry
   * of the operand whose key the result already holds is replaced by this dictionary's value
   * merged with the operand's, and every other entry is put as it is.
   */
  method DictMerge(ea: seq<(Key, Value)>, b: Option<Value>) returns (r: Result<Value>)
    ensures r == MergeOpt(Dict(ea), b)
    decreases OperandSize(b), 0, if b.Some? && b.value.Array? then 2 else 1
  {
    if b.Some? && b.value.Array? {
      var asDict := AsDictValue(b.value.slots);
      assert Size(asDict) == Size(b.value);
      r := DictMerge(ea, Some(asDict));
      return;
    }
    if b.None? || !b.value.Dict? {
      return Err(NotImplemented);
    }
    var eb := b.value.entries;
    var result := new MutableDict();
    result.PutAll(ea);
    ghost var spec := MergeEntries(ea, result.entries, eb, 0);
    var i := 0;
    while i < |eb|
      invariant 0 <= i <= |eb|
      invariant spec == MergeEntries(ea, result.entries, eb, i)
    {
      var err := MergeEntry(result, ea, eb, i);
      if err.Some? {
        return Err(err.value);
      }
      i := i + 1;
    }
    r := Ok(Dict(result.entries));
  }

  /**
   * One round of the loop of DictValue.merge: entry `i` of the operand goes into `result`, merged
   * with this dictionary's value when `result` already holds its key.
   */
  method MergeEntry(result: MutableDict, ea: seq<(Key, Value)>, eb: seq<(Key, Value)>, i: nat) returns (err: Option<Failure>)
    requires i < |eb|
    modifies result
    ensures err.Some? ==> MergeEntries(ea, old(result.entries), eb, i) == Err(err.value)
    ensures err.None? ==> MergeEntries(ea, old(result.entries), eb, i) == MergeEntries(ea, result.entries, eb, i + 1)
    decreases Size(Dict(eb)), 0, 0
  {
    var (k, v) := eb[i];
    if result.ContainsKey(k) {
      var val := Lookup(ea, k);
      if val.None? {
        return Some(NullPointer);
      }
      EntriesSizeBound(eb, i);
      var m := MergeValue(val.value, Some(v));
      if m.Err? {
        return Some(m.error);
      }
      result.Put(k, m.value);
    } else {
      result.Put(k, v);
    }
    return None;
  }

  // ---------------------------------------------------------------------------------------
  // asDictValue

  /** ArrayValue.asDictValue: `put(i, get(i))` for every non-hole slot, in index order. */
  method AsDictValue(slots: seq<Option<Value>>) returns (r: Value)
    ensures r == Dict(AsDictEntries(slots))
  {
    var dict := new MutableDict();
    var i := 0;
    while i < |slots|
      invariant 0 <= i <= |slots|
      invariant dict.entries == AsDictUpTo(slots, i)
    {
      if slots[i].Some? {
        AsDictUpToLookupAt(slots, i, IKey(i));
        dict.Put(IKey(i), slots[i].value);
      }
      i := i + 1;
    }
    r := Dict(dict.entries);
  }

  // ---------------------------------------------------------------------------------------
  // compact

  /** `v.compact()`, dispatched on the receiver's class. */
  method CompactValue(v: Value) returns (r: Value)
    requires WellFormed(v)
    ensures r == Compact(v)
    decreases v, 1
  {
    match v
    case Array(slots) =>
      r := ArrayCompact(slots);
    case Dict(es) =>
      r := DictCompact(es);
    case _ =>
      r := v;
  }

  /** ArrayValue.compact: the compacted non-hole elements, collected in order. */
  method ArrayCompact(slots: seq<Option<Value>>) returns (r: Value)
    requires WellFormed(Array(slots))
    ensures r == Compact(Array(slots))
    decreases Array(slots), 0
  {
    var target: seq<Option<Value>> := [];
    var i := 0;
    while i < |slots|
      invariant 0 <= i <= |slots|
      invariant target == CompactEach(Filled(slots[..i]))
    {
      CompactPrefixStep(slots, i);
      if slots[i].Some? {
        var c := CompactValue(slots[i].value);
        target := target + [Some(c)];
      }
      i := i + 1;
    }
    assert slots[..i] == slots;
    CompactArray(slots);
    r := Array(target);
  }

  /** DictValue.compact: copy the entries, then replace each value by its compacted form. */
  method DictCompact(es: seq<(Key, Value)>) returns (r: Value)
    requires WellFormed(Dict(es))
    ensures r == Compact(Dict(es))
    decreases Dict(es), 0
  {
    var result := new MutableDict();
    result.PutAll(es);
    PutAllCopies(es);
    var i := 0;
    while i < |es|
      invariant 0 <= i <= |es| && |result.entries| == |es|
      invariant forall j :: 0 <= j < |es| ==>
                  result.entries[j] == if j < i then (es[j].0, Compact(es[j].1)) else es[j]
    {
      var (k, v) := result.entries[i];
      var c := CompactValue(v);
      KeyIndexAt(result.entries, k, i);
      result.Put(k, c);
      i := i + 1;
    }
    CompactDict(es);
    r := Dict(result.entries);
  }

  // ---------------------------------------------------------------------------------------
  // equals

  /** `a.equals(b)`, dispatched on the receiver's class. */
  method EqualsValue(a: Value, b: Value) returns (eq: bool)
    ensures eq == Equal(a, b)
    decreases a, 1
  {
    match a
    case Array(sa) =>
      eq := ArrayEquals(sa, b);
    case Dict(ea) =>
      eq := DictEquals(ea, b);
    case Null =>
      eq := b.Null?;
    case Int(i) =>
      eq := b.Int? && b.i == i;
    case Str(s) =>
      eq := b.Str? && b.s == s;
  }

  /** ArrayValue.equals: same length, and slot by slot a hole matches only a hole. */
  method ArrayEquals(sa: seq<Option<Value>>, b: Value) returns (eq: bool)
    ensures eq == Equal(Array(sa), b)
    decreases Array(sa), 0
  {
    if !b.Array? || |sa| != |b.slots| {
      return false;
    }
    var sb := b.slots;
    var i := 0;
    while i < |sa|
      invariant 0 <= i <= |sa|
      invariant forall j :: 0 <= j < i ==>
                  if sa[j].None? || sb[j].None? then sa[j].None? && sb[j].None?
                  else Equal(sa[j].value, sb[j].value)
    {
      if sa[i].None? || sb[i].None? {
        if !(sa[i].None? && sb[i].None?) {
          return false;
        }
      } else {
        var e := EqualsValue(sa[i].value, sb[i].value);
        if !e {
          return false;
        }
      }
      i := i + 1;
    }
    eq := true;
  }

  /** DictValue.equals: same size, and every key of this one maps to an equal value in the other. */
  method DictEquals(ea: seq<(Key, Value)>, b: Value) returns (eq: bool)
    ensures eq == Equal(Dict(ea), b)
    decreases Dict(ea), 0
  {
    if !b.Dict? || |b.entries| != |ea| {
      return false;
    }
    var eb := b.entries;
    var i := 0;
    while i < |ea|
      invariant 0 <= i <= |ea|
      invariant forall j :: 0 <= j < i ==> HasKey(eb, ea[j].0) && Equal(ea[j].1, Lookup(eb, ea[j].0).value)
    {
      var (k, v) := ea[i];
      if !HasKey(eb, k) {
        return false;
      }
      var e := EqualsValue(v, Lookup(eb, k).value);
      if !e {
        return false;
      }
      i := i + 1;
    }
    eq := true;
  }
}
