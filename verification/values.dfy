/**
 * The value tree of a parsed query string: Null, Int, String, Array and Dict, with the pure
 * parts of the value classes (constructors, dictionary view of an array, compaction, equality,
 * text rendering of scalars, numeric-entity interpretation).
 */
module Values {
  import opened Wrappers
  import opened Text
  import opened Scalars

  /** A dictionary key (DictKey): a StringValue or an IntValue. */
  datatype Key = SKey(s: string) | IKey(i: int)

  /**
   * A value. An array slot is None where the Java array holds `null` (a hole), which is
   * different from a slot holding the Null value. A dictionary keeps its entries in insertion
   * order.
   */
  datatype Value =
    | Null
    | Int(i: int)
    | Str(s: string)
    | Array(slots: seq<Option<Value>>)
    | Dict(entries: seq<(Key, Value)>)

  /** ValueType. BOOL has no counterpart here: BoolValue is not part of this model. */
  datatype ValueType = NULL | BOOL | INT | STRING | ARRAY | DICT

  /** `getType()`: the tag of each variant. */
  function TypeOf(v: Value): (t: ValueType)
    ensures t != BOOL
    ensures t == NULL <==> v.Null?
    ensures t == INT <==> v.Int?
    ensures t == STRING <==> v.Str?
    ensures t == ARRAY <==> v.Array?
    ensures t == DICT <==> v.Dict?
  {
    match v
    case Null => NULL
    case Int(_) => INT
    case Str(_) => STRING
    case Array(_) => ARRAY
    case Dict(_) => DICT
  }

  // ---------------------------------------------------------------------------------------
  // Size, the termination measure of merge

  function Sum(xs: seq<nat>): nat {
    if xs == [] then 0 else xs[0] + Sum(xs[1..])
  }

  /** The number of values in the tree; holes count nothing. */
  function Size(v: Value): nat {
    match v
    case Array(slots) =>
      1 + Sum(seq(|slots|, i requires 0 <= i < |slots| => if slots[i].Some? then Size(slots[i].value) else 0))
    case Dict(es) =>
      1 + Sum(seq(|es|, i requires 0 <= i < |es| => Size(es[i].1)))
    case _ => 1
  }

  function SlotWeights(slots: seq<Option<Value>>): seq<nat> {
    seq(|slots|, i requires 0 <= i < |slots| => if slots[i].Some? then Size(slots[i].value) else 0)
  }

  function EntryWeights(es: seq<(Key, Value)>): seq<nat> {
    seq(|es|, i requires 0 <= i < |es| => Size(es[i].1))
  }

  /** The size of the values held by `slots`: an array of these slots has one more. */
  function SlotsSize(slots: seq<Option<Value>>): (n: nat)
    ensures n + 1 == Size(Array(slots))
  {
    Sum(SlotWeights(slots))
  }

  /** The size of the values held by `es`: a dictionary of these entries has one more. */
  function EntriesSize(es: seq<(Key, Value)>): (n: nat)
    ensures n + 1 == Size(Dict(es))
  {
    Sum(EntryWeights(es))
  }

  lemma {:induction false} SumAppend(a: seq<nat>, b: seq<nat>)
    ensures Sum(a + b) == Sum(a) + Sum(b)
  {
    if a == [] {
      assert a + b == b;
    } else {
      assert (a + b)[1..] == a[1..] + b;
      SumAppend(a[1..], b);
    }
  }

  lemma {:induction false} SumBound(xs: seq<nat>, i: nat)
    requires i < |xs|
    ensures xs[i] <= Sum(xs)
  {
    if i > 0 {
      SumBound(xs[1..], i - 1);
    }
  }

  /** Every element of an array is smaller than the array. */
  lemma SlotsSizeBound(slots: seq<Option<Value>>, i: nat)
    requires i < |slots| && slots[i].Some?
    ensures Size(slots[i].value) < Size(Array(slots))
  {
    SumBound(SlotWeights(slots), i);
  }

  /** Every value of a dictionary is smaller than the dictionary. */
  lemma EntriesSizeBound(es: seq<(Key, Value)>, i: nat)
    requires i < |es|
    ensures Size(es[i].1) < Size(Dict(es))
  {
    SumBound(EntryWeights(es), i);
  }

  lemma AppendSizes(a: seq<(Key, Value)>, b: seq<(Key, Value)>)
    ensures EntriesSize(a + b) == EntriesSize(a) + EntriesSize(b)
  {
    assert EntryWeights(a + b) == EntryWeights(a) + EntryWeights(b);
    SumAppend(EntryWeights(a), EntryWeights(b));
  }

  lemma SlotsSizeLast(slots: seq<Option<Value>>)
    requires slots != []
    ensures SlotsSize(slots) == SlotsSize(slots[..|slots| - 1]) + (if slots[|slots| - 1].Some? then Size(slots[|slots| - 1].value) else 0)
  {
    var n := |slots| - 1;
    assert SlotWeights(slots) == SlotWeights(slots[..n]) + [SlotWeights(slots)[n]];
    SumAppend(SlotWeights(slots[..n]), [SlotWeights(slots)[n]]);
  }

  // ---------------------------------------------------------------------------------------
  // Dictionary entries (LinkedHashMap behaviour)

  function KeysOf(es: seq<(Key, Value)>): (ks: seq<Key>)
    ensures |ks| == |es|
  {
    seq(|es|, i requires 0 <= i < |es| => es[i].0)
  }

  /** No key occurs twice: the LinkedHashMap invariant. */
  predicate UniqueKeys(es: seq<(Key, Value)>) {
    forall i, j :: 0 <= i < j < |es| ==> es[i].0 != es[j].0
  }

  /** The position of key `k`, or -1 when absent. */
  function KeyIndex(es: seq<(Key, Value)>, k: Key): (r: int)
    ensures -1 <= r < |es|
    ensures r >= 0 ==> es[r].0 == k
    ensures r == -1 ==> forall j :: 0 <= j < |es| ==> es[j].0 != k
  {
    if es == [] then -1
    else if es[0].0 == k then 0
    else
      var r := KeyIndex(es[1..], k);
      if r < 0 then -1 else r + 1
  }

  /** `containsKey`. */
  predicate HasKey(es: seq<(Key, Value)>, k: Key) {
    KeyIndex(es, k) >= 0
  }

  /** `get`: the value stored under `k`, None when absent. */
  function Lookup(es: seq<(Key, Value)>, k: Key): Option<Value> {
    var i := KeyIndex(es, k);
    if i < 0 then None else Some(es[i].1)
  }

  /** `put`: replace the value of an existing key in place, or append a new entry at the end. */
  function PutEntry(es: seq<(Key, Value)>, k: Key, v: Value): seq<(Key, Value)> {
    var i := KeyIndex(es, k);
    if i >= 0 then es[i := (k, v)] else es + [(k, v)]
  }

  /** The first position holding `k` is the position KeyIndex finds. */
  lemma {:induction false} KeyIndexAt(es: seq<(Key, Value)>, k: Key, j: nat)
    requires j < |es| && es[j].0 == k
    requires forall m :: 0 <= m < j ==> es[m].0 != k
    ensures KeyIndex(es, k) == j
  {
    if j > 0 {
      KeyIndexAt(es[1..], k, j - 1);
    }
  }

  /** KeyIndex finds the first position holding `k`. */
  lemma {:induction false} KeyIndexFirst(es: seq<(Key, Value)>, k: Key)
    ensures KeyIndex(es, k) >= 0 ==> forall m :: 0 <= m < KeyIndex(es, k) ==> es[m].0 != k
  {
    if es != [] && es[0].0 != k {
      KeyIndexFirst(es[1..], k);
      if KeyIndex(es, k) >= 0 {
        forall m | 0 <= m < KeyIndex(es, k)
          ensures es[m].0 != k
        {
          if m > 0 {
            assert es[m] == es[1..][m - 1];
          }
        }
      }
    }
  }

  lemma LookupUnique(es: seq<(Key, Value)>, i: nat)
    requires UniqueKeys(es) && i < |es|
    ensures KeyIndex(es, es[i].0) == i && Lookup(es, es[i].0) == Some(es[i].1)
  {
    KeyIndexAt(es, es[i].0, i);
  }

  /** After `put(k, v)`, `k` maps to `v` and every other key keeps its value. */
  lemma PutLookup(es: seq<(Key, Value)>, k: Key, v: Value, k': Key)
    ensures Lookup(PutEntry(es, k, v), k') == if k' == k then Some(v) else Lookup(es, k')
  {
    var r := PutEntry(es, k, v);
    var i := KeyIndex(es, k);
    assert forall m :: 0 <= m < |es| ==> r[m].0 == es[m].0;
    if k' != k {
      var j := KeyIndex(es, k');
      if j >= 0 {
        KeyIndexFirst(es, k');
        KeyIndexAt(r, k', j);
      } else {
        assert forall m :: 0 <= m < |r| ==> r[m].0 != k';
      }
    } else if i >= 0 {
      KeyIndexFirst(es, k);
      KeyIndexAt(r, k, i);
    } else {
      KeyIndexAt(r, k, |es|);
    }
  }

  /** `put` keeps the key order, appending a new key at the end. */
  lemma PutKeys(es: seq<(Key, Value)>, k: Key, v: Value)
    ensures KeysOf(PutEntry(es, k, v)) == KeysOf(es) + (if HasKey(es, k) then [] else [k])
  {
  }

  /** `put` keeps the keys unique. */
  lemma PutUnique(es: seq<(Key, Value)>, k: Key, v: Value)
    requires UniqueKeys(es)
    ensures UniqueKeys(PutEntry(es, k, v))
  {
  }

  /**
   * `put` (and so DictValue.append) sets exactly one entry: `k` maps to `v` afterwards, every
   * other key keeps its value, a present key keeps its position, a new key goes last, and the
   * keys stay unique.
   */
  lemma PutSetsOneEntry(es: seq<(Key, Value)>, k: Key, v: Value)
    ensures Lookup(PutEntry(es, k, v), k) == Some(v)
    ensures forall k' :: k' != k ==> Lookup(PutEntry(es, k, v), k') == Lookup(es, k')
    ensures KeysOf(PutEntry(es, k, v)) == if HasKey(es, k) then KeysOf(es) else KeysOf(es) + [k]
    ensures UniqueKeys(es) ==> UniqueKeys(PutEntry(es, k, v))
  {
    forall k' {
      PutLookup(es, k, v, k');
    }
    PutKeys(es, k, v);
    if UniqueKeys(es) {
      PutUnique(es, k, v);
    }
  }

  /** `putAll(es)`: every entry of `es` put in turn. */
  function PutAllEntries(acc: seq<(Key, Value)>, es: seq<(Key, Value)>): seq<(Key, Value)>
    decreases |es|
  {
    if es == [] then acc else PutAllEntries(PutEntry(acc, es[0].0, es[0].1), es[1..])
  }

  lemma ConcatAssoc<T>(a: seq<T>, b: seq<T>, c: seq<T>)
    ensures a + b + c == a + (b + c)
  {
  }

  /** Putting entries with distinct keys, none already present, appends them in order. */
  lemma {:induction false} PutAllFresh(acc: seq<(Key, Value)>, es: seq<(Key, Value)>)
    requires UniqueKeys(es)
    requires forall j :: 0 <= j < |es| ==> !HasKey(acc, es[j].0)
    ensures PutAllEntries(acc, es) == acc + es
    decreases |es|
  {
    if es == [] {
      assert acc + es == acc;
    } else {
      var acc' := acc + [es[0]];
      assert PutEntry(acc, es[0].0, es[0].1) == acc';
      forall j | 0 <= j < |es[1..]|
        ensures !HasKey(acc', es[1..][j].0)
      {
        KeyIndexAppend(acc, [es[0]], es[1..][j].0);
      }
      PutAllFresh(acc', es[1..]);
      calc {
        acc' + es[1..];
      == { ConcatAssoc(acc, [es[0]], es[1..]); }
        acc + ([es[0]] + es[1..]);
      == { assert [es[0]] + es[1..] == es; }
        acc + es;
      }
    }
  }

  /** Copying a dictionary into an empty one with `putAll` yields the same entries. */
  lemma PutAllCopies(es: seq<(Key, Value)>)
    requires UniqueKeys(es)
    ensures PutAllEntries([], es) == es
  {
    PutAllFresh([], es);
  }

  // ---------------------------------------------------------------------------------------
  // The ArrayValue constructors

  /** The slots an operand contributes to the concatenating constructor. */
  function Operand(x: Option<Value>): seq<Option<Value>> {
    var v := x.GetOr(Null);
    if v.Array? then v.slots else [Some(v)]
  }

  /**
   * `new ArrayValue(a, b)`: the slots of `a` (or `a` itself when it is not an array) followed by
   * those of `b`; a Java-null operand becomes the Null value. Arrays are flattened one level only.
   */
  function ConcatArray(a: Option<Value>, b: Option<Value>): (r: Value)
    ensures r.Array?
    ensures var n := if a.Some? && a.value.Array? then |a.value.slots| else 1;
            && n <= |r.slots|
            && (if a.Some? && a.value.Array? then r.slots[..n] == a.value.slots
                else r.slots[..n] == [Some(a.GetOr(Null))])
            && (if b.Some? && b.value.Array? then r.slots[n..] == b.value.slots
                else r.slots[n..] == [Some(b.GetOr(Null))])
  {
    Array(Operand(a) + Operand(b))
  }

  /**
   * `new ArrayValue(index, value)`: `index + 1` slots, all holes except `index`, which holds
   * the value (the Null value for a Java-null value).
   */
  function IndexArray(index: nat, v: Option<Value>): (r: Value)
    ensures r.Array? && |r.slots| == index + 1
    ensures r.slots[index] == Some(v.GetOr(Null))
    ensures forall j :: 0 <= j < index ==> r.slots[j].None?
  {
    Array(seq(index, _ => None) + [Some(v.GetOr(Null))])
  }

  // ---------------------------------------------------------------------------------------
  // ArrayValue.asDictValue

  /** Where a key sits in a concatenation of entry lists. */
  lemma {:induction false} KeyIndexAppend(a: seq<(Key, Value)>, b: seq<(Key, Value)>, k: Key)
    ensures KeyIndex(a + b, k) ==
              if KeyIndex(a, k) >= 0 then KeyIndex(a, k)
              else if KeyIndex(b, k) >= 0 then |a| + KeyIndex(b, k)
              else -1
  {
    if a == [] {
      assert a + b == b;
    } else {
      assert (a + b)[1..] == a[1..] + b;
      KeyIndexAppend(a[1..], b, k);
    }
  }

  /**
   * The dictionary view of the first `n` slots: one entry `IKey(i)` per non-hole slot `i`, in
   * ascending order of `i`, mapped to the slot's value.
   */
  function AsDictUpTo(slots: seq<Option<Value>>, n: nat): (r: seq<(Key, Value)>)
    requires n <= |slots|
    ensures forall j :: 0 <= j < |r| ==>
              r[j].0.IKey? && 0 <= r[j].0.i < n && slots[r[j].0.i] == Some(r[j].1)
    ensures forall j, m :: 0 <= j < m < |r| ==> r[j].0.i < r[m].0.i
  {
    if n == 0 then []
    else
      var prev := AsDictUpTo(slots, n - 1);
      if slots[n - 1].Some? then prev + [(IKey(n - 1), slots[n - 1].value)] else prev
  }

  lemma {:induction false} AsDictUpToLookupAt(slots: seq<Option<Value>>, n: nat, k: Key)
    requires n <= |slots|
    ensures Lookup(AsDictUpTo(slots, n), k) ==
              if k.IKey? && 0 <= k.i < n && slots[k.i].Some? then Some(slots[k.i].value) else None
  {
    if n > 0 {
      AsDictUpToLookupAt(slots, n - 1, k);
      var prev := AsDictUpTo(slots, n - 1);
      if slots[n - 1].Some? {
        var e := (IKey(n - 1), slots[n - 1].value);
        assert AsDictUpTo(slots, n) == prev + [e];
        KeyIndexAppend(prev, [e], k);
        if KeyIndex(prev, k) >= 0 {
          assert (prev + [e])[KeyIndex(prev, k)] == prev[KeyIndex(prev, k)];
          assert Lookup(prev + [e], k) == Lookup(prev, k);
        } else if k == IKey(n - 1) {
          assert KeyIndex([e], k) == 0;
          assert Lookup(prev + [e], k) == Some(slots[n - 1].value);
        } else {
          assert KeyIndex([e], k) == -1;
          assert Lookup(prev + [e], k) == None;
        }
      } else {
        assert AsDictUpTo(slots, n) == prev;
      }
    }
  }

  lemma AsDictUpToLookup(slots: seq<Option<Value>>, n: nat)
    requires n <= |slots|
    ensures forall k :: Lookup(AsDictUpTo(slots, n), k) ==
              if k.IKey? && 0 <= k.i < n && slots[k.i].Some? then Some(slots[k.i].value) else None
  {
    forall k
      ensures Lookup(AsDictUpTo(slots, n), k) ==
                if k.IKey? && 0 <= k.i < n && slots[k.i].Some? then Some(slots[k.i].value) else None
    {
      AsDictUpToLookupAt(slots, n, k);
    }
  }

  /** The size of at most one entry. */
  lemma LastEntrySize(last: seq<(Key, Value)>, w: nat)
    requires |last| <= 1
    requires w == if |last| == 1 then Size(last[0].1) else 0
    ensures EntriesSize(last) == w
  {
    if |last| == 1 {
      assert EntryWeights(last) == [w];
      assert Sum([w]) == w + Sum([]);
    } else {
      assert EntryWeights(last) == [];
    }
  }

  lemma {:induction false} AsDictUpToSize(slots: seq<Option<Value>>, n: nat)
    requires n <= |slots|
    ensures EntriesSize(AsDictUpTo(slots, n)) == SlotsSize(slots[..n])
  {
    if n > 0 {
      var prev := AsDictUpTo(slots, n - 1);
      var last := if slots[n - 1].Some? then [(IKey(n - 1), slots[n - 1].value)] else [];
      var w := if slots[n - 1].Some? then Size(slots[n - 1].value) else 0;
      calc {
        EntriesSize(AsDictUpTo(slots, n));
      == { assert AsDictUpTo(slots, n) == prev + last; AppendSizes(prev, last); }
        EntriesSize(prev) + EntriesSize(last);
      == { AsDictUpToSize(slots, n - 1); }
        SlotsSize(slots[..n - 1]) + EntriesSize(last);
      == { LastEntrySize(last, w); }
        SlotsSize(slots[..n - 1]) + w;
      == { assert slots[..n][..n - 1] == slots[..n - 1]; }
        SlotsSize(slots[..n][..n - 1]) + w;
      == { SlotsSizeLast(slots[..n]); }
        SlotsSize(slots[..n]);
      }
    }
  }

  /**
   * `asDictValue()`: one entry per non-hole slot, in index order (AsDictView states what the view
   * holds); the view holds the same values as the array.
   */
  function AsDictEntries(slots: seq<Option<Value>>): (r: seq<(Key, Value)>)
    ensures EntriesSize(r) == SlotsSize(slots)
  {
    AsDictUpToSize(slots, |slots|);
    assert slots[..|slots|] == slots;
    AsDictUpTo(slots, |slots|)
  }

  /**
   * The dictionary view of an array: its keys are the indices of the non-hole slots, ascending
   * and so distinct; each maps to the value in its slot, and a hole has no key.
   */
  lemma AsDictView(slots: seq<Option<Value>>)
    ensures var r := AsDictEntries(slots);
            && UniqueKeys(r)
            && (forall j :: 0 <= j < |r| ==>
                  r[j].0.IKey? && 0 <= r[j].0.i < |slots| && slots[r[j].0.i] == Some(r[j].1))
            && (forall j, m :: 0 <= j < m < |r| ==> r[j].0.i < r[m].0.i)
            && (forall k :: Lookup(r, k) ==
                  if k.IKey? && 0 <= k.i < |slots| && slots[k.i].Some? then Some(slots[k.i].value) else None)
  {
    AsDictUpToLookup(slots, |slots|);
  }

  lemma {:induction false} AsDictUpToHoles(slots: seq<Option<Value>>, n: nat)
    requires n <= |slots|
    requires forall i :: 0 <= i < n ==> slots[i].None?
    ensures AsDictUpTo(slots, n) == []
  {
    if n > 0 {
      AsDictUpToHoles(slots, n - 1);
    }
  }

  /** The dictionary view of an index array holds exactly the one filled slot. */
  lemma AsDictOfIndexArray(index: nat, v: Value)
    ensures AsDictEntries(IndexArray(index, Some(v)).slots) == [(IKey(index), v)]
  {
    var slots := IndexArray(index, Some(v)).slots;
    AsDictUpToHoles(slots, index);
    assert AsDictUpTo(slots, index + 1) == [] + [(IKey(index), v)];
  }

  /** An array without holes is viewed as the index-keyed entries of all its slots, in order. */
  lemma {:induction false} AsDictUpToFull(slots: seq<Option<Value>>, n: nat)
    requires n <= |slots|
    requires forall i :: 0 <= i < n ==> slots[i].Some?
    ensures |AsDictUpTo(slots, n)| == n
    ensures forall i :: 0 <= i < n ==> AsDictUpTo(slots, n)[i] == (IKey(i), slots[i].value)
  {
    if n > 0 {
      AsDictUpToFull(slots, n - 1);
    }
  }

  // ---------------------------------------------------------------------------------------
  // compact()

  /** No array anywhere in the tree has a hole. */
  predicate HoleFree(v: Value)
    decreases v
  {
    match v
    case Array(slots) => forall i :: 0 <= i < |slots| ==> slots[i].Some? && HoleFree(slots[i].value)
    case Dict(es) => forall i :: 0 <= i < |es| ==> HoleFree(es[i].1)
    case _ => true
  }

  /** The non-hole slots, in order. */
  function Filled(slots: seq<Option<Value>>): (r: seq<Option<Value>>)
    ensures |r| <= |slots|
    ensures forall i :: 0 <= i < |r| ==> r[i].Some? && r[i] in slots
  {
    if slots == [] then []
    else (if slots[0].Some? then [slots[0]] else []) + Filled(slots[1..])
  }

  /** Each slot with its value compacted; holes stay holes. */
  function CompactEach(slots: seq<Option<Value>>): (r: seq<Option<Value>>)
    ensures |r| == |slots|
    ensures forall i :: 0 <= i < |slots| ==> r[i].None? == slots[i].None?
  {
    seq(|slots|, i requires 0 <= i < |slots| => if slots[i].Some? then Some(Compact(slots[i].value)) else None)
  }

  /**
   * `compact()`: arrays lose their holes (ArrayValue.compact), dictionaries keep their keys in
   * order (DictValue.compact), every nested value is compacted, and leaves are returned as they
   * are (Value.compact).
   */
  function Compact(v: Value): (r: Value)
    ensures HoleFree(r)
    ensures TypeOf(r) == TypeOf(v)
    ensures v.Dict? ==> KeysOf(r.entries) == KeysOf(v.entries)
    ensures v.Array? ==> |r.slots| <= |v.slots|
    ensures !v.Array? && !v.Dict? ==> r == v
  {
    match v
    case Array(slots) =>
      Array(Filled(seq(|slots|, i requires 0 <= i < |slots| =>
                         if slots[i].Some? then Some(Compact(slots[i].value)) else None)))
    case Dict(es) => Dict(seq(|es|, i requires 0 <= i < |es| => (es[i].0, Compact(es[i].1))))
    case _ => v
  }

  lemma {:induction false} FilledCompactEach(slots: seq<Option<Value>>)
    ensures Filled(CompactEach(slots)) == CompactEach(Filled(slots))
  {
    if slots != [] {
      var rest := slots[1..];
      var head := if slots[0].Some? then [slots[0]] else [];
      calc {
        Filled(CompactEach(slots));
      == { CompactEachCons(slots); }
        CompactEach(head) + Filled(CompactEach(rest));
      == { FilledCompactEach(rest); }
        CompactEach(head) + CompactEach(Filled(rest));
      == { CompactEachAppend(head, Filled(rest)); }
        CompactEach(head + Filled(rest));
      }
    }
  }

  /** CompactEach works slot by slot: on a non-empty sequence, the first slot, then the rest. */
  lemma CompactEachCons(slots: seq<Option<Value>>)
    requires slots != []
    ensures CompactEach(slots)[0] == (if slots[0].Some? then Some(Compact(slots[0].value)) else None)
    ensures CompactEach(slots)[1..] == CompactEach(slots[1..])
  {
  }

  lemma CompactEachAppend(a: seq<Option<Value>>, b: seq<Option<Value>>)
    ensures CompactEach(a + b) == CompactEach(a) + CompactEach(b)
  {
  }

  lemma {:induction false} FilledSnoc(slots: seq<Option<Value>>, x: Option<Value>)
    ensures Filled(slots + [x]) == Filled(slots) + (if x.Some? then [x] else [])
  {
    if slots == [] {
      assert [x][1..] == [];
    } else {
      assert (slots + [x])[1..] == slots[1..] + [x];
      FilledSnoc(slots[1..], x);
    }
  }

  lemma CompactEachSnoc(slots: seq<Option<Value>>, v: Value)
    ensures CompactEach(slots + [Some(v)]) == CompactEach(slots) + [Some(Compact(v))]
  {
  }

  /** One more slot of the prefix adds its compacted value, when it holds one. */
  lemma CompactPrefixStep(slots: seq<Option<Value>>, i: nat)
    requires i < |slots|
    ensures CompactEach(Filled(slots[..i + 1]))
         == CompactEach(Filled(slots[..i])) + (if slots[i].Some? then [Some(Compact(slots[i].value))] else [])
  {
    assert slots[..i + 1] == slots[..i] + [slots[i]];
    FilledSnoc(slots[..i], slots[i]);
    if slots[i].Some? {
      CompactEachSnoc(Filled(slots[..i]), slots[i].value);
    } else {
      assert Filled(slots[..i]) + [] == Filled(slots[..i]);
    }
  }

  /**
   * ArrayValue.compact keeps exactly the non-hole elements, in their original order, each
   * compacted; a Null element is an element, so it stays.
   */
  lemma CompactArray(slots: seq<Option<Value>>)
    ensures Compact(Array(slots)).slots == CompactEach(Filled(slots))
  {
    assert Compact(Array(slots)).slots == Filled(CompactEach(slots));
    FilledCompactEach(slots);
  }

  /** DictValue.compact maps every value to its compacted form and keeps the order. */
  lemma CompactDict(es: seq<(Key, Value)>)
    ensures |Compact(Dict(es)).entries| == |es|
    ensures forall i :: 0 <= i < |es| ==> Compact(Dict(es)).entries[i] == (es[i].0, Compact(es[i].1))
  {
  }

  lemma {:induction false} FilledAllSome(slots: seq<Option<Value>>)
    requires forall i :: 0 <= i < |slots| ==> slots[i].Some?
    ensures Filled(slots) == slots
  {
    if slots != [] {
      FilledAllSome(slots[1..]);
    }
  }

  /** Compacting a hole-free value changes nothing. */
  lemma {:induction false} CompactHoleFree(v: Value)
    requires HoleFree(v)
    ensures Compact(v) == v
  {
    match v
    case Array(slots) =>
      var m := CompactEach(slots);
      forall i | 0 <= i < |slots|
        ensures m[i] == slots[i]
      {
        CompactHoleFree(slots[i].value);
      }
      assert m == slots;
      FilledAllSome(slots);
    case Dict(es) =>
      var m := seq(|es|, i requires 0 <= i < |es| => (es[i].0, Compact(es[i].1)));
      forall i | 0 <= i < |es|
        ensures m[i] == es[i]
      {
        CompactHoleFree(es[i].1);
      }
      assert m == es;
    case _ =>
  }

  /** Compacting keeps the LinkedHashMap invariant: no dictionary comes to repeat a key. */
  lemma {:induction false} CompactWellFormed(v: Value)
    requires WellFormed(v)
    ensures WellFormed(Compact(v))
  {
    match v
    case Array(slots) =>
      var m := CompactEach(slots);
      forall i | 0 <= i < |m| && m[i].Some?
        ensures WellFormed(m[i].value)
      {
        CompactWellFormed(slots[i].value);
      }
      var r := Filled(m);
      assert Compact(v).slots == r;
      forall i | 0 <= i < |r|
        ensures WellFormed(r[i].value)
      {
        var j :| 0 <= j < |m| && m[j] == r[i];
      }
    case Dict(es) =>
      var r := Compact(v).entries;
      CompactDict(es);
      assert KeysOf(r) == KeysOf(es);
      forall i, j | 0 <= i < j < |r|
        ensures r[i].0 != r[j].0
      {
        assert r[i].0 == es[i].0 && r[j].0 == es[j].0;
      }
      forall i | 0 <= i < |r|
        ensures WellFormed(r[i].1)
      {
        CompactWellFormed(es[i].1);
      }
    case _ =>
  }

  /** Compacting twice is compacting once. */
  lemma CompactIdempotent(v: Value)
    ensures Compact(Compact(v)) == Compact(v)
  {
    CompactHoleFree(Compact(v));
  }

  // ---------------------------------------------------------------------------------------
  // equals()

  /** Every dictionary in the tree has unique keys, as a LinkedHashMap does. */
  predicate WellFormed(v: Value)
    decreases v
  {
    match v
    case Array(slots) => forall i :: 0 <= i < |slots| && slots[i].Some? ==> WellFormed(slots[i].value)
    case Dict(es) => UniqueKeys(es) && forall i :: 0 <= i < |es| ==> WellFormed(es[i].1)
    case _ => true
  }

  /**
   * `equals`: Null equals only Null (the singleton), Int and String compare their payloads, arrays
   * compare slot by slot (a hole equals only a hole), and dictionaries have the same size and
   * every key of the first maps to an equal value in the second, whatever the order.
   */
  predicate Equal(a: Value, b: Value)
    decreases a
  {
    match a
    case Null => b.Null?
    case Int(i) => b.Int? && b.i == i
    case Str(s) => b.Str? && b.s == s
    case Array(sa) =>
      && b.Array?
      && |sa| == |b.slots|
      && forall i :: 0 <= i < |sa| ==>
           if sa[i].None? || b.slots[i].None? then sa[i].None? && b.slots[i].None?
           else Equal(sa[i].value, b.slots[i].value)
    case Dict(ea) =>
      && b.Dict?
      && |ea| == |b.entries|
      && forall i :: 0 <= i < |ea| ==>
           HasKey(b.entries, ea[i].0) && Equal(ea[i].1, Lookup(b.entries, ea[i].0).value)
  }

  /** Every well-formed value equals itself. */
  lemma {:induction false} EqualReflexive(v: Value)
    requires WellFormed(v)
    ensures Equal(v, v)
    decreases v
  {
    match v
    case Array(slots) =>
      forall i | 0 <= i < |slots| && slots[i].Some?
        ensures Equal(slots[i].value, slots[i].value)
      {
        EqualReflexive(slots[i].value);
      }
    case Dict(es) =>
      forall i | 0 <= i < |es|
        ensures HasKey(es, es[i].0) && Equal(es[i].1, Lookup(es, es[i].0).value)
      {
        LookupUnique(es, i);
        EqualReflexive(es[i].1);
      }
    case _ =>
  }

  /**
   * Dictionary equality ignores key order: two well-formed dictionaries of the same size whose
   * entries of the first all occur in the second are equal.
   */
  lemma EqualIgnoresOrder(ea: seq<(Key, Value)>, eb: seq<(Key, Value)>)
    requires WellFormed(Dict(ea)) && UniqueKeys(eb)
    requires |ea| == |eb|
    requires forall i :: 0 <= i < |ea| ==> ea[i] in eb
    ensures Equal(Dict(ea), Dict(eb))
  {
    forall i | 0 <= i < |ea|
      ensures HasKey(eb, ea[i].0) && Equal(ea[i].1, Lookup(eb, ea[i].0).value)
    {
      var j :| 0 <= j < |eb| && eb[j] == ea[i];
      LookupUnique(eb, j);
      EqualReflexive(ea[i].1);
    }
  }

  // ---------------------------------------------------------------------------------------
  // Scalars: toString, intern, interpretAsNumeric

  /** `DictKey.toString()`: the string itself, or the decimal form of the int. */
  function KeyText(k: Key): (t: string)
    ensures k.SKey? ==> t == k.s
    ensures k.IKey? && IsInt32(k.i) ==> ParseInt(t) == Some(k.i) && IsCanonicalInt(t)
  {
    match k
    case SKey(s) => s
    case IKey(i) => (if IsInt32(i) then ParseDecimalString(i); DecimalString(i) else DecimalString(i))
  }

  /**
   * `toString()` of the leaves: "null" for Null, the decimal form for Int (which parses back to
   * the same int), the wrapped text for String.
   */
  function ToText(v: Value): (t: string)
    requires !v.Array? && !v.Dict?
    ensures v.Null? ==> t == "null"
    ensures v.Str? ==> t == v.s
    ensures v.Int? && IsInt32(v.i) ==> ParseInt(t) == Some(v.i) && IsCanonicalInt(t)
  {
    match v
    case Null => "null"
    case Int(i) => KeyText(IKey(i))
    case Str(s) => s
  }

  /** The text between `&#` and `;` of a numeric character reference. */
  function EntityBody(s: string): (body: string)
    requires StartsWith(s, "&#") && EndsWith(s, ";")
    ensures s == "&#" + body + ";"
  {
    assert s[1] == '#' && s[|s| - 1] == ';';
    s[2..|s| - 1]
  }

  const MAX_CODE_POINT: int := 0x10FFFF

  /**
   * `interpretAsNumeric()`. Only a String of the form `&#N;` whose `N` parses as an int changes:
   * it becomes the one-character string `toChar(N)` (`Character.toChars(N)[0]`, left abstract),
   * and Character.toChars throws for an `N` outside the code-point range. Every other value, and
   * every other string, is returned unchanged.
   */
  function InterpretAsNumeric(v: Value, toChar: int -> char): (r: Result<Value>)
    ensures r.Err? <==> v.Str? && StartsWith(v.s, "&#") && EndsWith(v.s, ";") &&
                        ParseInt(EntityBody(v.s)).Some? &&
                        !(0 <= ParseInt(EntityBody(v.s)).value <= MAX_CODE_POINT)
    ensures r.Ok? && r.value != v ==>
              v.Str? && StartsWith(v.s, "&#") && EndsWith(v.s, ";") &&
              ParseInt(EntityBody(v.s)).Some? &&
              r.value == Str([toChar(ParseInt(EntityBody(v.s)).value)])
    ensures v.Str? && StartsWith(v.s, "&#") && EndsWith(v.s, ";") &&
            ParseInt(EntityBody(v.s)).Some? && 0 <= ParseInt(EntityBody(v.s)).value <= MAX_CODE_POINT ==>
              r == Ok(Str([toChar(ParseInt(EntityBody(v.s)).value)]))
    ensures !v.Str? ==> r == Ok(v)
  {
    if !v.Str? || !(StartsWith(v.s, "&#") && EndsWith(v.s, ";")) then Ok(v)
    else
      match ParseInt(EntityBody(v.s))
      case None => Ok(v)
      case Some(cp) => if 0 <= cp <= MAX_CODE_POINT then Ok(Str([toChar(cp)])) else Err(IllegalCodePoint)
  }

  // ---------------------------------------------------------------------------------------
  // DictValue as a mutable LinkedHashMap

  /** A DictValue under construction: `put` and `append` change it in place. */
  class MutableDict {
    var entries: seq<(Key, Value)>

    /** `new DictValue()`. */
    constructor ()
      ensures entries == []
    {
      entries := [];
    }

    function ContainsKey(k: Key): bool
      reads this
    {
      HasKey(entries, k)
    }

    function Get(k: Key): Option<Value>
      reads this
    {
      Lookup(entries, k)
    }

    /** `put(k, v)`. */
    method Put(k: Key, v: Value)
      modifies this
      ensures entries == PutEntry(old(entries), k, v)
    {
      entries := PutEntry(entries, k, v);
    }

    /** `putAll(es)`. */
    method PutAll(es: seq<(Key, Value)>)
      modifies this
      ensures entries == PutAllEntries(old(entries), es)
    {
      var i := 0;
      while i < |es|
        invariant 0 <= i <= |es|
        invariant PutAllEntries(old(entries), es) == PutAllEntries(entries, es[i..])
      {
        assert es[i..][1..] == es[i + 1..];
        entries := PutEntry(entries, es[i].0, es[i].1);
        i := i + 1;
      }
    }

    /** `append(k, v)`: `put(k, v)`, then this same instance is returned. */
    method Append(k: Key, v: Value) returns (self: MutableDict)
      modifies this
      ensures self == this
      ensures entries == PutEntry(old(entries), k, v)
    {
      Put(k, v);
      self := this;
    }
  }
}
