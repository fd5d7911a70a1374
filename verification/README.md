# qsparser in Dafny

A model of the core of qsparser, a Java library that turns flat query strings
(`a[b]=c&a[d]=e`) into a tree of values and writes such a tree's entries back out as a query
string, with the properties its code promises proved about the model.

The model has six parts, one Dafny module or two each:

- **The value tree** (`values.dfy`, module `Values`). Null, Int, String, Array and Dict. An array
  slot is `Option<Value>`: `None` is a Java `null` hole, which is different from the Null value.
  A dictionary is an insertion-ordered `seq<(Key, Value)>` with String or Int keys. It also holds
  the two array constructors, `asDictValue`, `compact`, `equals`, the text of scalars,
  `interpretAsNumeric`, and `MutableDict`, the `put`/`putAll`/`append` object the imperative code
  fills.
- **Merge** (`merging.dfy`, module `Merging`). `Value.merge`, `ArrayValue.merge` and
  `DictValue.merge` as one recursive specification. A `Result` carries the exception
  `DictValue.merge` throws. Termination is the size of the second operand, with a tie-break for
  the step that turns an array operand into its dictionary view. The lemmas state the shape of
  each case: the slot rule and collisions of array merge, the key order and values of dictionary
  merge, and that no merge produces a dictionary with a repeated key.
- **The imperative value methods** (`value_ops.dfy`, module `ValueOps`). The loops of
  `ArrayValue.merge` (over an `array` filled in place plus an `extra` list), `DictValue.merge`
  (over a `MutableDict`), `asDictValue`, `compact` and `equals`. Each is proved to compute its
  specification function.
- **Key paths** (`keys.dfy`, module `KeyPaths`). `rewriteDots`, the segmentation of `parseKeys`
  with its depth cut-off, and the classification and backward fold of `parseObject`, as
  functions with their properties.
- **The parser** (`parser.dfy`, module `ParserSpec`, as specification;
  `query_string_parser.dfy`, module `Parser`, as the `QueryStringParser` class whose methods run
  the loops of the source):
  - splitting and truncating the parts;
  - the charset sentinel;
  - the `=` split point, the comma and strict-null rules;
  - the collection of repeated keys;
  - the fold of `merge` over the entries, followed by `compact`.
- **The builder and the options** (`builder.dfy`, `options.dfy`):
  - `QueryStringBuilder.stringify` over the list of entries a value yields, with `stringifyEntry`
    and `encode`;
  - `QueryStringEntry`;
  - `ParserOptions` and `StringifyOptions` as classes whose fluent setters change one setting and
    return the same object.

`text.dfy` (String operations over `seq<char>`), `scalars.dfy` (`Integer.parseInt` and
`String.valueOf` for `int`) and `wrappers.dfy` (`Option`, `Result`, failures) support the rest.

The decoder, the encoder and the code-point-to-character conversion are function parameters.
The charset is a two-valued datatype.

The code and the tests disagree in two places, and the model follows the code:

- `UtilsTest.java:47-52` expects `[baz, bar, xyzz]` from merging `{foo:[baz]}` with
  `{foo:[bar, xyzz]}`. `ArrayValue.merge` first sizes the result to the longer array, so `xyzz`
  fills the hole at index 1 and the colliding `bar` is appended: `[baz, xyzz, bar]`
  (`Merging.MergeArraysCase`).
- `UtilsTest.java:54-56` expects a dictionary merged with a string to gain a `Bool(true)` entry.
  `DictValue.merge` throws for any operand that is neither an array nor a dictionary, and
  `Merging.Merge` gives `Err(NotImplemented)` there.

## Model

Paths are relative to the repository root.

| member | source | states |
|---|---|---|
| Values.TypeOf | src/main/java/ro/atek/qsparser/value/ArrayValue.java:194-198 | `getType` tells the variants apart: ARRAY exactly for arrays, DICT exactly for dictionaries, INT, STRING and NULL exactly for the scalars, BOOL never |
| Values.KeyIndex | src/main/java/ro/atek/qsparser/value/DictValue.java:176-180 | where a key sits in the insertion-ordered entries: an entry holding that key, or -1 exactly when no entry holds it |
| Values.KeyIndexFirst | src/main/java/ro/atek/qsparser/value/DictValue.java:176-180 | the entry found is the first one holding the key |
| Values.Lookup | src/main/java/ro/atek/qsparser/value/DictValue.java:56 | `get`: the value of the first entry with the key, or missing; `Values.LookupUnique` and `Values.PutLookup` state what it gives |
| Values.PutEntry | src/main/java/ro/atek/qsparser/value/DictValue.java:176-180 | `LinkedHashMap.put`; `Values.PutSetsOneEntry` states its effect: the new value under the key, every other key unchanged, the key order kept |
| Values.LookupUnique | src/main/java/ro/atek/qsparser/value/DictValue.java:56 | in a dictionary with unique keys, `get` of an entry's key gives that entry's value |
| Values.PutLookup | src/main/java/ro/atek/qsparser/value/DictValue.java:176-180 | after `put(k, v)`, `get(k)` is v and `get` of every other key is what it was |
| Values.PutKeys | src/main/java/ro/atek/qsparser/value/DictValue.java:176-180 | `put` keeps the key order: a present key stays in its place, a new key goes last |
| Values.PutUnique | src/main/java/ro/atek/qsparser/value/DictValue.java:176-180 | `put` keeps the keys unique |
| Values.PutSetsOneEntry | src/main/java/ro/atek/qsparser/value/DictValue.java:176-180 | `append` sets exactly one entry: the new value under its key, every other key unchanged, the key order as for `put`, unique keys kept |
| Values.PutAllFresh | src/main/java/ro/atek/qsparser/value/DictValue.java:51 | `putAll` of entries with unique keys, none of them present yet, appends them in their order |
| Values.PutAllCopies | src/main/java/ro/atek/qsparser/value/DictValue.java:50-51 | `putAll(this)` into a new dictionary copies `this` entry for entry, in order |
| Values.ConcatArray | src/main/java/ro/atek/qsparser/value/ArrayValue.java:49-56 | `new ArrayValue(a, b)`: the elements of `a` (or `[a]` when `a` is not an array, Null for a Java null), followed by those of `b` (or `[b]`) |
| Values.Operand | src/main/java/ro/atek/qsparser/value/ArrayValue.java:51-54 | the elements one operand of `new ArrayValue(a, b)` contributes: an array's own, or the value itself, Null for a Java null; `Values.ConcatArray` states their concatenation |
| Values.IndexArray | src/main/java/ro/atek/qsparser/value/ArrayValue.java:67-72 | `new ArrayValue(index, v)`: `index + 1` slots, `v` (Null for a Java null) at `index` and holes before it |
| Values.AsDictEntries | src/main/java/ro/atek/qsparser/value/ArrayValue.java:156-165 | the dictionary view weighs as much as the array, which the termination of merge relies on |
| Values.AsDictView | src/main/java/ro/atek/qsparser/value/ArrayValue.java:156-165 | `asDictValue` has unique keys, one Int key `i` per non-hole slot `i` mapped to its value, in ascending `i`; `get(k)` is that slot's value for such a key and missing for any other |
| Values.AsDictUpToHoles | src/main/java/ro/atek/qsparser/value/ArrayValue.java:159-163 | holes add no entry |
| Values.AsDictUpToFull | src/main/java/ro/atek/qsparser/value/ArrayValue.java:159-163 | an array without holes becomes the entries `0 → s[0]`, …, `n-1 → s[n-1]` in order |
| Values.AsDictOfIndexArray | src/main/java/ro/atek/qsparser/value/ArrayValue.java:156-165 | the view of `new ArrayValue(index, v)` is the one entry `index → v` |
| Values.Compact | src/main/java/ro/atek/qsparser/value/ArrayValue.java:176-187 | `compact` leaves no hole anywhere and keeps the type; a dictionary keeps its keys in order; an array gets no longer; scalars are returned as they are (the default `compact` of Value) |
| Values.Filled | src/main/java/ro/atek/qsparser/value/ArrayValue.java:178-185 | the elements `compact` keeps: no more than there were, each one a non-hole element of the array; `Values.FilledCompactEach` and `Values.CompactArray` state their order |
| Values.CompactArray | src/main/java/ro/atek/qsparser/value/ArrayValue.java:176-187 | a compacted array holds the non-hole elements in their order, each compacted, Null elements included |
| Values.CompactDict | src/main/java/ro/atek/qsparser/value/DictValue.java:73-82 | a compacted dictionary has the same keys in the same order, each value compacted |
| Values.FilledCompactEach | src/main/java/ro/atek/qsparser/value/ArrayValue.java:178-185 | dropping the holes and compacting each element commute |
| Values.CompactHoleFree | src/main/java/ro/atek/qsparser/value/ArrayValue.java:176-187 | `compact` returns a value with no hole unchanged |
| Values.CompactIdempotent | src/main/java/ro/atek/qsparser/value/ArrayValue.java:176-187 | compacting twice is compacting once |
| Values.CompactWellFormed | src/main/java/ro/atek/qsparser/value/DictValue.java:73-82 | `compact` keeps every dictionary's keys unique |
| Values.Equal | src/main/java/ro/atek/qsparser/value/ArrayValue.java:222-243 | structural `equals`; `Values.EqualReflexive` proves every value equal to itself and `Values.EqualIgnoresOrder` that dictionary equality ignores key order |
| Values.EqualReflexive | src/main/java/ro/atek/qsparser/value/ArrayValue.java:222-243 | structural `equals` holds between a value and itself |
| Values.EqualIgnoresOrder | src/main/java/ro/atek/qsparser/value/DictValue.java:84-102 | two dictionaries of the same size made of the same entries in any order are equal |
| Values.KeyText | src/main/java/ro/atek/qsparser/value/IntValue.java:69-73 | the text of a key: a String key's own text (`intern`); an Int key's `String.valueOf` form, the canonical decimal (no `+`, no leading zero) that parses back to the same `int` |
| Values.ToText | src/main/java/ro/atek/qsparser/value/NullValue.java:41-45 | `toString` of a scalar: `"null"` for Null, the wrapped text for a String, for an Int its canonical decimal, which parses back to it |
| Values.EntityBody | src/main/java/ro/atek/qsparser/value/StringValue.java:81 | the text between `&#` and `;` |
| Values.InterpretAsNumeric | src/main/java/ro/atek/qsparser/value/StringValue.java:73-93 | an error exactly for a `&#…;` string holding an `int` that is not a code point; a `&#N;` string with a valid code point N becomes the one-character string of N, and a result differs from the input only then; every non-string value unchanged (the default of Value) |
| Values.MutableDict.constructor | src/main/java/ro/atek/qsparser/value/DictValue.java:50 | a new DictValue is empty |
| Values.MutableDict.Put | src/main/java/ro/atek/qsparser/value/DictValue.java:57 | `put` replaces the value of a present key in its place or appends a new entry |
| Values.MutableDict.PutAll | src/main/java/ro/atek/qsparser/value/DictValue.java:51 | `putAll` puts each entry in order |
| Values.MutableDict.Append | src/main/java/ro/atek/qsparser/value/DictValue.java:176-180 | `append` puts the entry and returns the same instance |
| Scalars.NatString | src/main/java/ro/atek/qsparser/QueryStringParser.java:163 | `String.valueOf` of a non-negative `int`: decimal digits denoting it, with no leading zero except in `"0"` |
| Scalars.ParseInt | src/main/java/ro/atek/qsparser/QueryStringParser.java:151 | `Integer.parseInt` only ever yields a value in the `int` range |
| Scalars.ParseDecimalString | src/main/java/ro/atek/qsparser/QueryStringParser.java:161-163 | `Integer.parseInt(String.valueOf(i)) == i` for every `int` |
| Scalars.CanonicalIffPrinted | src/main/java/ro/atek/qsparser/QueryStringParser.java:163 | the canonical-integer test `String.valueOf(index).equals(cleanRoot)` holds exactly for texts that are the printed form of some `int` |
| Text.IndexOf | src/main/java/ro/atek/qsparser/QueryStringParser.java:225 | `indexOf`: the first occurrence, or -1 exactly when there is none |
| Text.IndexOfChar | src/main/java/ro/atek/qsparser/QueryStringParser.java:330-332 | `contains(".")` holds exactly when the character occurs, and `indexOf` finds its first occurrence |
| Text.Find | src/main/java/ro/atek/qsparser/QueryStringParser.java:226 | `indexOf('=')`: the first occurrence of the character, or -1 exactly when it is absent |
| Text.FindIsIndexOf | src/main/java/ro/atek/qsparser/QueryStringParser.java:92 | `indexOf("[")` of a one-character string is the search for that character |
| Text.DropTrailingEmpty | src/main/java/ro/atek/qsparser/QueryStringParser.java:198 | `String.split` drops the trailing empty strings and nothing else: a prefix of the pieces, ending in a non-empty one, with only empty pieces dropped |
| Text.Split | src/main/java/ro/atek/qsparser/QueryStringParser.java:198 | `String.split` at a literal delimiter: the pieces between delimiters with the trailing empty ones dropped (`Text.DropTrailingEmpty`); `Text.SplitAllJoin` proves the pieces give back the text |
| Text.SplitAllJoin | src/main/java/ro/atek/qsparser/QueryStringParser.java:198 | splitting loses nothing: the pieces joined with the delimiter are the text again |
| Text.Join | src/main/java/ro/atek/qsparser/QueryStringBuilder.java:58-61 | `Collectors.joining` and `String.join`: `Builder.JoinAppend` proves that joining two lists puts one delimiter between their texts |
| Merging.Padded | src/main/java/ro/atek/qsparser/value/ArrayValue.java:114-115 | the result array has `max(len)` slots, starting with a copy of `this`, holes after it |
| Merging.Merge | src/main/java/ro/atek/qsparser/value/Value.java:24-31 | `merge` across the variants: a scalar receiver gives the concatenation array (the default `merge`), and so does an array with a scalar operand; two arrays give an array; a dictionary receiver gives a dictionary and fails for a scalar operand, the exception of `DictValue.merge` |
| Merging.MergeOpt | src/main/java/ro/atek/qsparser/value/ArrayValue.java:98-101 | `merge(null)` returns `this` for every receiver except a dictionary, whose `merge` throws on it |
| Merging.MergeSlotsOk | src/main/java/ro/atek/qsparser/value/ArrayValue.java:119-135 | the slot loop of array merge fails exactly when a slot where both sides hold dictionaries fails to merge |
| Merging.MergeSlots | src/main/java/ro/atek/qsparser/value/ArrayValue.java:117-135 | the slot loop of `ArrayValue.merge`; `Merging.MergeSlotsOk` and `Merging.MergeSlotsValue` state when it fails and what it builds |
| Merging.MergeSlotsValue | src/main/java/ro/atek/qsparser/value/ArrayValue.java:119-145 | the loop's result is every slot after the slot rule, then the collisions in index order |
| Merging.ArrayMergeShape | src/main/java/ro/atek/qsparser/value/ArrayValue.java:113-145 | `array.merge(array)` fails only when two dictionaries in the same slot fail to merge; otherwise it has `max(len) + #collisions` slots; slot `j` takes the other value into a hole, merges two dictionaries and otherwise keeps `this`'s value; the colliding values follow in index order |
| Merging.NextEntry | src/main/java/ro/atek/qsparser/value/DictValue.java:54-62 | one round of the merge loop, when `result` and `this` agree on holding the key: it fails exactly when the combined value fails, and otherwise puts that value |
| Merging.AlignedStep | src/main/java/ro/atek/qsparser/value/DictValue.java:54-62 | after a round, `result` and `this` still agree on holding each key still to come, so `get(key)` on `this` never returns null |
| Merging.AlignedEntry | src/main/java/ro/atek/qsparser/value/DictValue.java:52-63 | a round fails when its combined value fails; otherwise it puts that value and keeps the agreement |
| Merging.MergeEntries | src/main/java/ro/atek/qsparser/value/DictValue.java:52-63 | the entry loop of `DictValue.merge`; the `Merging.MergeEntries…` lemmas state its failures, key order, uniqueness and lookup |
| Merging.MergeEntriesOk | src/main/java/ro/atek/qsparser/value/DictValue.java:52-63 | the merge loop succeeds exactly when every operand entry's combined value (merged with `this`'s value under a shared key, as it is otherwise) succeeds |
| Merging.MergeEntriesUnique | src/main/java/ro/atek/qsparser/value/DictValue.java:52-63 | the merge loop keeps the keys unique |
| Merging.MergeEntriesKeys | src/main/java/ro/atek/qsparser/value/DictValue.java:52-63 | the keys after the loop are those of `result` in order, then the operand's new keys in their order |
| Merging.MergeEntriesKept | src/main/java/ro/atek/qsparser/value/DictValue.java:52-63 | a key the rest of the operand does not hold keeps its value |
| Merging.MergeEntriesMerged | src/main/java/ro/atek/qsparser/value/DictValue.java:52-63 | each operand key maps to its combined value, which succeeded |
| Merging.MergeEntriesLookup | src/main/java/ro/atek/qsparser/value/DictValue.java:52-63 | both at once: the operand's keys map to their combined values, every other key to its value in `result` |
| Merging.DictMergeStart | src/main/java/ro/atek/qsparser/value/DictValue.java:49-52 | the loop starts from a copy of `this` |
| Merging.DictMergeShape | src/main/java/ro/atek/qsparser/value/DictValue.java:37-65 | `dict.merge(dict)` fails exactly when the values of a shared key fail to merge; otherwise the keys are unique, `this`'s keys come first in their order and then the operand's new keys, a shared key maps to the merge of its two values and any other key keeps its value |
| Merging.DisjointEntries | src/main/java/ro/atek/qsparser/value/DictValue.java:52-63 | entries under new keys are appended unchanged |
| Merging.DisjointDictMerge | src/main/java/ro/atek/qsparser/value/DictValue.java:49-63 | merging dictionaries with no common key concatenates them |
| Merging.PutWellFormed | src/main/java/ro/atek/qsparser/value/DictValue.java:176-180 | `put` of a well-formed value into a well-formed dictionary keeps every dictionary's keys unique |
| Merging.AsDictWellFormed | src/main/java/ro/atek/qsparser/value/ArrayValue.java:156-165 | the dictionary view of a well-formed array is well-formed |
| Merging.ConcatWellFormed | src/main/java/ro/atek/qsparser/value/ArrayValue.java:49-56 | the concatenation array of well-formed values is well-formed |
| Merging.MergeWellFormed | src/main/java/ro/atek/qsparser/value/DictValue.java:37-65 | merging well-formed values never produces a dictionary with a repeated key, at any depth |
| Merging.MergeEntriesWellFormed | src/main/java/ro/atek/qsparser/value/DictValue.java:52-63 | the same for the loop of dictionary merge |
| Merging.MergeSlotsWellFormed | src/main/java/ro/atek/qsparser/value/ArrayValue.java:119-145 | the same for the slot loop of array merge |
| Merging.MergeScalar | src/main/java/ro/atek/qsparser/value/Value.java:24-31 | a scalar merged with a non-array value is `[this, other]` |
| Merging.MergeNullCases | src/test/java/ro/atek/qsparser/UtilsTest.java:18-19 | `array.merge(Null)` appends Null to the array and `Null.merge(array)` puts Null in front |
| Merging.MergeUnderKey | src/main/java/ro/atek/qsparser/value/DictValue.java:52-63 | two one-entry dictionaries under the same key merge into that key mapped to the merge of the two values, or fail as it fails |
| Merging.MergeSameKeyCase | src/test/java/ro/atek/qsparser/UtilsTest.java:31-35 | `{a:b}` merged with `{a:c}`, or with `{a:{a:c}}`, gives `{a:[b, c]}`, or `{a:[b, {a:c}]}` |
| Merging.ArrayIntoDict | src/main/java/ro/atek/qsparser/value/ArrayValue.java:103-106 | a two-element array merged with a dictionary is `asDictValue().merge(dict)`: `0 → a`, `1 → b`, then the dictionary's entry |
| Merging.MergeArrayIntoDictCase | src/test/java/ro/atek/qsparser/UtilsTest.java:37-45 | `{foo:[bar, {first:123}]}` merged with `{foo:{second:456}}` gives `{foo:{0:bar, 1:{first:123}, second:456}}` |
| Merging.MergeSlotCollision | src/main/java/ro/atek/qsparser/value/ArrayValue.java:113-145 | `[x]` merged with `[y, z]`: `x` stays, `z` fills the hole and the colliding `y` goes last |
| Merging.MergeArraysCase | src/test/java/ro/atek/qsparser/UtilsTest.java:47-52 | `{foo:[baz]}` merged with `{foo:[bar, xyzz]}` gives `{foo:[baz, xyzz, bar]}`, the order the code produces |
| Merging.MergeFillsHole | src/main/java/ro/atek/qsparser/value/ArrayValue.java:119-125 | an index array with a value at 1 merged with one with a value at 0 fills the hole: `[b, c]` |
| Merging.MergeIndexedCase | src/test/java/ro/atek/qsparser/QueryStringParserTest.java:241-244 | the nested values `{a: [null, c]}` and `{a: [b]}` that `a[1]=c` and `a[0]=b` give merge into `{a:[b, c]}` |
| ValueOps.MergeValue | src/main/java/ro/atek/qsparser/value/Value.java:24-31 | the dispatch of `merge` on the receiver computes `Merging.MergeOpt` |
| ValueOps.ArrayMerge | src/main/java/ro/atek/qsparser/value/ArrayValue.java:96-111 | `ArrayValue.merge` computes its specification: `this` for null, the dictionary view merged for a dictionary, the concatenation for a scalar |
| ValueOps.MergeArrays | src/main/java/ro/atek/qsparser/value/ArrayValue.java:113-145 | the array-with-array branch computes `Merge(Array(sa), Array(sb))` |
| ValueOps.PaddedCopy | src/main/java/ro/atek/qsparser/value/ArrayValue.java:114-115 | a fresh array of `max(len)` slots holding `this` and holes |
| ValueOps.FillFromView | src/main/java/ro/atek/qsparser/value/ArrayValue.java:117-135 | the loop over the operand's dictionary view fills the array in place and collects `extra` exactly as the slot loop specifies, or stops with its failure |
| ValueOps.FillEntry | src/main/java/ro/atek/qsparser/value/ArrayValue.java:119-134 | one view entry moves the slot loop from this entry's index to the next entry's |
| ValueOps.FillSlot | src/main/java/ro/atek/qsparser/value/ArrayValue.java:121-134 | one slot: take into a hole, merge two dictionaries, or add to `extra` |
| ValueOps.AppendExtra | src/main/java/ro/atek/qsparser/value/ArrayValue.java:137-143 | a fresh array holding the slots followed by `extra` |
| ValueOps.DictMerge | src/main/java/ro/atek/qsparser/value/DictValue.java:37-65 | `DictValue.merge` computes its specification, including the failures |
| ValueOps.MergeEntry | src/main/java/ro/atek/qsparser/value/DictValue.java:54-62 | one loop round on the `result` object: it fails as the specification does, or changes `result` to the specification's next state |
| ValueOps.AsDictValue | src/main/java/ro/atek/qsparser/value/ArrayValue.java:156-165 | the loop builds the dictionary view |
| ValueOps.CompactValue | src/main/java/ro/atek/qsparser/value/Value.java:40-43 | `compact` on any value computes `Compact` |
| ValueOps.ArrayCompact | src/main/java/ro/atek/qsparser/value/ArrayValue.java:176-187 | the loop over the array computes `Compact` |
| ValueOps.DictCompact | src/main/java/ro/atek/qsparser/value/DictValue.java:73-82 | the `replace` loop computes `Compact` |
| ValueOps.EqualsValue | src/main/java/ro/atek/qsparser/value/StringValue.java:117-123 | `equals` on any value computes `Equal`: Null only with Null, Int and String by payload |
| ValueOps.ArrayEquals | src/main/java/ro/atek/qsparser/value/ArrayValue.java:222-243 | the index loop computes `Equal`: same length, and equal position by position, where a hole equals only a hole |
| ValueOps.DictEquals | src/main/java/ro/atek/qsparser/value/DictValue.java:84-102 | the entry loop computes `Equal`: same size, and every key present in the other with an equal value |
| KeyPaths.CloseAt | src/main/java/ro/atek/qsparser/QueryStringParser.java:336-347 | `till`, the end of the property after a dot, lies within the remainder |
| KeyPaths.BracketCounts | src/main/java/ro/atek/qsparser/QueryStringParser.java:349-351 | one rewrite is one character longer, with one dot fewer, one more `[` and one more `]`, and the same count of every other character |
| KeyPaths.DotStep | src/main/java/ro/atek/qsparser/QueryStringParser.java:332-351 | each round of `rewriteDots` removes exactly one dot |
| KeyPaths.DotStepCounts | src/main/java/ro/atek/qsparser/QueryStringParser.java:332-351 | each round adds one `[` and one `]` and one character of length, and keeps every other character's count |
| KeyPaths.RewriteDots | src/main/java/ro/atek/qsparser/QueryStringParser.java:328-356 | `rewriteDots` terminates with no dot left, and returns a dot-free key unchanged |
| KeyPaths.RewriteDotsCounts | src/main/java/ro/atek/qsparser/QueryStringParser.java:328-356 | the output's length is the input's plus its dot count, and it has one more `[` and one more `]` per dot |
| KeyPaths.DotStepOne | src/main/java/ro/atek/qsparser/QueryStringParser.java:338-341 | the round for `a.b` with no `[` or `.` after the dot gives `a[b]` |
| KeyPaths.RewriteOneDot | src/main/java/ro/atek/qsparser/QueryStringParser.java:330-341 | `rewriteDots("a.b") == "a[b]"` for any such `a` and `b`, e.g. `foo[0].baz` to `foo[0][baz]` |
| KeyPaths.FirstSegment | src/main/java/ro/atek/qsparser/QueryStringParser.java:104-107 | a segment ends at the first `]` |
| KeyPaths.SegmentsSpell | src/main/java/ro/atek/qsparser/QueryStringParser.java:102-108 | the segments and the remainder spell the text the loop started with |
| KeyPaths.SegmentsBracketed | src/main/java/ro/atek/qsparser/QueryStringParser.java:102-108 | each segment is `[…]` and ends at its first `]` |
| KeyPaths.SegmentsStop | src/main/java/ro/atek/qsparser/QueryStringParser.java:102-108 | at most `depth` segments, and the loop stops only when its condition fails |
| KeyPaths.Segments | src/main/java/ro/atek/qsparser/QueryStringParser.java:102-108 | the segment loop; `KeyPaths.SegmentsSpell`, `KeyPaths.SegmentsBracketed` and `KeyPaths.SegmentsStop` state that it loses nothing, takes bracketed segments and stops at depth or when no segment follows |
| KeyPaths.SegmentsOne | src/main/java/ro/atek/qsparser/QueryStringParser.java:102-108 | a lone bracketed segment is taken whole at any positive depth |
| KeyPaths.SplitKeyOneSegment | src/main/java/ro/atek/qsparser/QueryStringParser.java:92-108 | a key ending in its one bracketed segment splits into the name before it and that segment |
| KeyPaths.SplitKey | src/main/java/ro/atek/qsparser/QueryStringParser.java:92-108 | with depth 0, or no `[`, the whole key is the parent; otherwise the parent is exactly the text before the first `[` |
| KeyPaths.SplitKeySpells | src/main/java/ro/atek/qsparser/QueryStringParser.java:92-108 | parent, segments and remainder spell the key |
| KeyPaths.SplitKeySegments | src/main/java/ro/atek/qsparser/QueryStringParser.java:92-108 | the segments are bracketed, at most `depth` of them, and the loop ended because its condition failed |
| KeyPaths.KeyChain | src/main/java/ro/atek/qsparser/QueryStringParser.java:92-113 | with depth 0 the chain is the whole key alone, or empty for an empty key |
| KeyPaths.ChainSpellsParts | src/main/java/ro/atek/qsparser/QueryStringParser.java:96-113 | the chain spells the non-empty parent, the segments, and `[rest]` when the remainder is not empty |
| KeyPaths.Chain | src/main/java/ro/atek/qsparser/QueryStringParser.java:96-113 | the list `keys` built from the parts; `KeyPaths.ChainSpellsParts` states that it spells them out |
| KeyPaths.KeyChainSpellsKey | src/main/java/ro/atek/qsparser/QueryStringParser.java:92-113 | the chain spells the key, with the remainder wrapped in one more pair of brackets |
| KeyPaths.KeyChainLength | src/main/java/ro/atek/qsparser/QueryStringParser.java:96-113 | a chain has at most `depth + 2` links |
| KeyPaths.SegmentsDepthOne | src/main/java/ro/atek/qsparser/QueryStringParser.java:102-108 | with depth 1 the loop takes the first `[…]` and leaves the rest |
| KeyPaths.SplitKeyDepthOne | src/main/java/ro/atek/qsparser/QueryStringParser.java:92-108 | with depth 1, `p[i]rest` splits into `p`, `[i]` and `rest` |
| KeyPaths.KeyChainDepthOne | src/test/java/ro/atek/qsparser/QueryStringParserTest.java:130-139 | with depth 1, `a[b][c][d]` gives the chain `a`, `[b]`, `[[c][d]]` |
| KeyPaths.CleanRoot | src/main/java/ro/atek/qsparser/QueryStringParser.java:144-146 | a root in brackets is `"[" + cleanRoot + "]"`; any other root is its own clean root |
| KeyPaths.Classify | src/main/java/ro/atek/qsparser/QueryStringParser.java:136-176 | the branch of the loop body a segment takes; `KeyPaths.ClassifyRules` states each branch as an if-and-only-if |
| KeyPaths.Placements | src/main/java/ro/atek/qsparser/QueryStringParser.java:134-136 | one placement per segment of the chain |
| KeyPaths.Place | src/main/java/ro/atek/qsparser/QueryStringParser.java:137-177 | the value one round makes of the leaf; `KeyPaths.PlaceHoldsLeaf` states that each placement holds the leaf and only `MAX_VALUE` fails |
| KeyPaths.ClassifyIndex | src/main/java/ro/atek/qsparser/QueryStringParser.java:161-167 | a bracketed index within `arrayLimit` makes an index array at that index |
| KeyPaths.ClassifyName | src/main/java/ro/atek/qsparser/QueryStringParser.java:173-176 | a name without brackets that is not read as an Int key becomes a String key |
| KeyPaths.ClassifyRules | src/main/java/ro/atek/qsparser/QueryStringParser.java:136-176 | the branch of `parseObject`, rule by rule and each as an if-and-only-if: `[]` with `parseArrays`; an empty content without `parseArrays`; the index rule (bracketed canonical `int` between 0 and `arrayLimit`); a canonical `int` with `parseIntKeys`; anything else as a String key |
| KeyPaths.NegativeLimitNoIndex | src/main/java/ro/atek/qsparser/QueryStringParser.java:161-167 | a negative `arrayLimit` never makes an index array |
| KeyPaths.OverLimitIntKey | src/main/java/ro/atek/qsparser/QueryStringParser.java:161-172 | a bracketed `int` above `arrayLimit` or below 0 becomes an Int key when `parseIntKeys` is on (`a[21]` with limit 20, `a[0]` with limit -1) |
| KeyPaths.PlaceHoldsLeaf | src/main/java/ro/atek/qsparser/QueryStringParser.java:137-177 | every branch holds the leaf: `[]` wraps it in a one-element array unless it is one already; the index array has it at `index` and holes before; every dictionary has it as its one entry under the Int or String key; only an index of `Integer.MAX_VALUE` fails, with the negative array size of `new Value[index + 1]` |
| KeyPaths.Build | src/main/java/ro/atek/qsparser/QueryStringParser.java:131-181 | the backward fold returns the value unchanged for an empty chain and keeps a well-formed value well-formed |
| KeyPaths.PlaceWellFormed | src/main/java/ro/atek/qsparser/QueryStringParser.java:137-177 | one step of the fold keeps a value well-formed |
| KeyPaths.ParseObject | src/main/java/ro/atek/qsparser/QueryStringParser.java:131-181 | `parseObject`: `KeyPaths.Build` states that it keeps values well-formed, and `KeyPaths.ParseObjectIndexed` what it makes of a name and an index |
| KeyPaths.ParseKeys | src/main/java/ro/atek/qsparser/QueryStringParser.java:84-116 | `parseKeys`: `ParserSpec.ParseKeysWellFormed` states that it keeps values well-formed, and `KeyPaths.ParseKeysIndexed` what it makes of `a[1]` |
| KeyPaths.IndexedKeyChain | src/main/java/ro/atek/qsparser/QueryStringParser.java:86-113 | the chain of `name[digits]` is the name and the one segment, with the dot rewriting changing nothing |
| KeyPaths.ParseObjectIndexed | src/main/java/ro/atek/qsparser/QueryStringParser.java:131-181 | a name and an index segment nest the value as `{name: new ArrayValue(index, value)}` |
| KeyPaths.ParseKeysIndexed | src/main/java/ro/atek/qsparser/QueryStringParser.java:84-116 | `parseKeys` of `name[n]` with n within `arrayLimit` gives `{name: [null, …, value]}`, the value at slot n, as `a[1]=c` does |
| ParserSpec.Parts | src/main/java/ro/atek/qsparser/QueryStringParser.java:195-204 | the parts are the split text (after a `?` dropped when asked for) when there are at most `parameterLimit` of them, and otherwise exactly its first `parameterLimit` pieces; a negative limit below the part count fails with the negative array size |
| ParserSpec.SentinelCharset | src/main/java/ro/atek/qsparser/QueryStringParser.java:284-301 | no charset exactly when no part equals one of the two sentinels |
| ParserSpec.SentinelFirstWins | src/main/java/ro/atek/qsparser/QueryStringParser.java:284-301 | the first part equal to a sentinel decides: UTF-8 for `utf8=%E2%9C%93`, ISO-8859-1 for `utf8=%26%2310003%3B` |
| ParserSpec.IsCharsetSentinel | src/main/java/ro/atek/qsparser/QueryStringParser.java:312-315 | a part starting with `utf8=`; `ParserSpec.StepSkipsOrAdds` states that such a part changes nothing |
| ParserSpec.EffectiveCharset | src/main/java/ro/atek/qsparser/QueryStringParser.java:206-215 | the charset of the first sentinel when `charsetSentinel` is on and one is present (`ParserSpec.SentinelCharset`, `ParserSpec.SentinelFirstWins`), else the configured one |
| ParserSpec.SplitPoint | src/main/java/ro/atek/qsparser/QueryStringParser.java:225-226 | where a part splits; `ParserSpec.SplitPointIsEquals` and `ParserSpec.BracketKeySplit` state that it is an `=`, after the first `]` of a bracketed key |
| ParserSpec.SplitPointIsEquals | src/main/java/ro/atek/qsparser/QueryStringParser.java:225-226 | the split point is -1 exactly when the part has no `=`, and otherwise an `=` of the part |
| ParserSpec.BracketKeySplit | src/main/java/ro/atek/qsparser/QueryStringParser.java:225-226 | a key ending in `]` with no `]=` in it is split off whole, whatever `=` the value holds |
| ParserSpec.CommaArray | src/main/java/ro/atek/qsparser/QueryStringParser.java:240-248 | with `comma`, the value is an array of the decoded comma-separated tokens, one per token |
| ParserSpec.PartEntry | src/main/java/ro/atek/qsparser/QueryStringParser.java:228-254 | a part without `=` is the decoded key with `""`, or Null under `strictNullHandling`; otherwise the key is the decoded text before the split point and the value comes from the text after it: an array of the decoded comma tokens exactly when `comma` is on and that text holds a `,`, else that text decoded as one String |
| ParserSpec.AddValueEffect | src/main/java/ro/atek/qsparser/QueryStringParser.java:261-269 | a repeated key keeps its first position and gets the concatenation array of the old and new values; a new key goes last; other keys are unchanged; keys stay unique |
| ParserSpec.RepeatedKeyCollects | src/main/java/ro/atek/qsparser/QueryStringParser.java:261-265 | two scalar values under one key give `[v1, v2]` |
| ParserSpec.AddValue | src/main/java/ro/atek/qsparser/QueryStringParser.java:261-269 | recording a key; `ParserSpec.AddValueEffect` states its effect |
| ParserSpec.Numeric | src/main/java/ro/atek/qsparser/QueryStringParser.java:256-259 | `interpretAsNumeric` only with `interpretNumericEntities` and ISO-8859-1; `Values.InterpretAsNumeric` states the conversion |
| ParserSpec.Step | src/main/java/ro/atek/qsparser/QueryStringParser.java:218-270 | one round of the part loop; `ParserSpec.StepSkipsOrAdds` and `ParserSpec.StepFlat` state its effect |
| ParserSpec.StepSkipsOrAdds | src/main/java/ro/atek/qsparser/QueryStringParser.java:218-270 | a sentinel or blank part leaves the dictionary unchanged; any other part fails exactly when the numeric step fails, and otherwise records its decoded key |
| ParserSpec.ValuesFrom | src/main/java/ro/atek/qsparser/QueryStringParser.java:217-272 | the part loop; `ParserSpec.ValuesFromFlat` states what it keeps |
| ParserSpec.ParseValues | src/main/java/ro/atek/qsparser/QueryStringParser.java:193-273 | `parseValues`; `ParserSpec.ParseValuesFlat` states its result |
| ParserSpec.PartEntryWellFormed | src/main/java/ro/atek/qsparser/QueryStringParser.java:228-254 | the value of a part is well-formed |
| ParserSpec.NumericWellFormed | src/main/java/ro/atek/qsparser/QueryStringParser.java:256-259 | the numeric-entity step keeps a value well-formed |
| ParserSpec.AddValueFlat | src/main/java/ro/atek/qsparser/QueryStringParser.java:261-269 | adding a value keeps the flat dictionary's String keys unique |
| ParserSpec.StepFlat | src/main/java/ro/atek/qsparser/QueryStringParser.java:218-270 | one part keeps the dictionary flat, keeps every key, and adds at most one |
| ParserSpec.ValuesFromFlat | src/main/java/ro/atek/qsparser/QueryStringParser.java:217-272 | the loop over the parts keeps the dictionary flat and adds at most one key per part |
| ParserSpec.ParseValuesFlat | src/main/java/ro/atek/qsparser/QueryStringParser.java:193-273 | `parseValues` gives a flat dictionary of String keys with at most one key per part |
| ParserSpec.ParseKeysWellFormed | src/main/java/ro/atek/qsparser/QueryStringParser.java:84-116 | `parseKeys` of a well-formed value is well-formed |
| ParserSpec.MergeFromDict | src/main/java/ro/atek/qsparser/QueryStringParser.java:56-62 | the fold of `merge` from a dictionary stays a well-formed dictionary |
| ParserSpec.MergeFrom | src/main/java/ro/atek/qsparser/QueryStringParser.java:56-62 | the merge loop of `parse`; `ParserSpec.MergeFromDict` and `ParserSpec.MergeFromStep` state what each round does |
| ParserSpec.MergeFromStep | src/main/java/ro/atek/qsparser/QueryStringParser.java:58-62 | one round: the entry nested by `parseKeys` and merged into the result so far |
| ParserSpec.PairHoleFree | src/main/java/ro/atek/qsparser/QueryStringParser.java:64-69 | `compact` leaves a one-entry dictionary of a two-element array without holes as it is |
| ParserSpec.IndexedEntriesMerge | src/test/java/ro/atek/qsparser/QueryStringParserTest.java:241-244 | the flat entries of `a[1]=c&a[0]=b` nest into index arrays and merge into `{a: [b, c]}`, which `compact` leaves as it is |
| ParserSpec.Parse | src/main/java/ro/atek/qsparser/QueryStringParser.java:49-54 | `parse(null)` and `parse("")` give an empty dictionary |
| ParserSpec.ParseResult | src/main/java/ro/atek/qsparser/QueryStringParser.java:49-70 | `parse` gives a well-formed dictionary, with no hole anywhere unless `allowSparse` |
| Parser.QueryStringParser.constructor | src/main/java/ro/atek/qsparser/QueryStringParser.java:36-39 | null options mean the default options |
| Parser.QueryStringParser.Parse | src/main/java/ro/atek/qsparser/QueryStringParser.java:49-70 | `parse` computes `ParserSpec.Parse`, hence a well-formed dictionary, with no hole unless `allowSparse` |
| Parser.QueryStringParser.MergeAll | src/main/java/ro/atek/qsparser/QueryStringParser.java:56-62 | the loop folds `merge` over the entries from an empty dictionary |
| Parser.QueryStringParser.ParseKeys | src/main/java/ro/atek/qsparser/QueryStringParser.java:84-116 | `parseKeys` computes its specification |
| Parser.QueryStringParser.SplitChain | src/main/java/ro/atek/qsparser/QueryStringParser.java:92-113 | the list of keys the method builds is `KeyChain` |
| Parser.QueryStringParser.TakeSegments | src/main/java/ro/atek/qsparser/QueryStringParser.java:102-108 | the segment loop computes `Segments` |
| Parser.QueryStringParser.ParseObject | src/main/java/ro/atek/qsparser/QueryStringParser.java:131-181 | `parseObject` computes its specification |
| Parser.QueryStringParser.Nest | src/main/java/ro/atek/qsparser/QueryStringParser.java:134-180 | the backward loop computes the fold `Build` |
| Parser.QueryStringParser.RewriteDots | src/main/java/ro/atek/qsparser/QueryStringParser.java:328-356 | the `while` loop computes `RewriteDots` |
| Parser.QueryStringParser.DotRound | src/main/java/ro/atek/qsparser/QueryStringParser.java:332-351 | one round computes `DotStep` |
| Parser.QueryStringParser.ParseValues | src/main/java/ro/atek/qsparser/QueryStringParser.java:193-273 | `parseValues` computes its specification |
| Parser.QueryStringParser.SplitParts | src/main/java/ro/atek/qsparser/QueryStringParser.java:195-204 | the split and the `arraycopy` truncation compute `Parts` |
| Parser.QueryStringParser.CollectValues | src/main/java/ro/atek/qsparser/QueryStringParser.java:217-272 | the loop filling `root` computes `ValuesFrom` |
| Parser.QueryStringParser.AddPart | src/main/java/ro/atek/qsparser/QueryStringParser.java:220-269 | one part changes `root` as `Step` does, or fails as it does |
| Parser.QueryStringParser.PartValue | src/main/java/ro/atek/qsparser/QueryStringParser.java:225-254 | the key and value of one part are `PartEntry` |
| Parser.QueryStringParser.DecodeTokens | src/main/java/ro/atek/qsparser/QueryStringParser.java:242-248 | the token loop computes `CommaArray` |
| Parser.QueryStringParser.FindCharsetSentinel | src/main/java/ro/atek/qsparser/QueryStringParser.java:284-301 | the loop computes `SentinelCharset` |
| Builder.SingleEntry | src/main/java/ro/atek/qsparser/value/QueryStringEntry.java:29-32 | the single-value constructor stores the key, and a one-element list, or null for a null value |
| Builder.QueryStringBuilder.constructor | src/main/java/ro/atek/qsparser/QueryStringBuilder.java:34-37 | null options mean the shared `DEFAULT` instance |
| Builder.Encode | src/main/java/ro/atek/qsparser/QueryStringBuilder.java:105-120 | `""` for null; a key goes through the encoder only when `encode` is on and `encodeValuesOnly` off, a value whenever `encode` is on; otherwise the text comes back unchanged |
| Builder.EncodeEach | src/main/java/ro/atek/qsparser/QueryStringBuilder.java:84-86 | each value encoded as a value, in order |
| Builder.EntryWithoutEncoding | src/main/java/ro/atek/qsparser/QueryStringBuilder.java:74-93 | with `encode` off an entry is its key alone for null values, and `key=v1,v2,…` otherwise |
| Builder.SingleValueSameEitherWay | src/main/java/ro/atek/qsparser/QueryStringBuilder.java:81-92 | for one value, encoding each value then joining and joining then encoding give the same value text |
| Builder.StringifyEntry | src/main/java/ro/atek/qsparser/QueryStringBuilder.java:74-93 | `stringifyEntry`; `Builder.EntryWithoutEncoding` and `Builder.EntryWithEncoding` state what it writes in each mode |
| Builder.EntryWithEncoding | src/main/java/ro/atek/qsparser/QueryStringBuilder.java:74-93 | with encoding on: the key goes through the encoder unless only values are encoded; null values leave that key alone; otherwise the values follow `=`, encoded one by one and joined with a literal `,`, or joined and encoded as one |
| Builder.Kept | src/main/java/ro/atek/qsparser/QueryStringBuilder.java:59 | the filter keeps exactly the entries whose key is neither null nor empty |
| Builder.KeptAppend | src/main/java/ro/atek/qsparser/QueryStringBuilder.java:58-59 | the filter keeps the order of the entries |
| Builder.KeptNothing | src/main/java/ro/atek/qsparser/QueryStringBuilder.java:59 | entries without a key leave nothing |
| Builder.Written | src/main/java/ro/atek/qsparser/QueryStringBuilder.java:59 | the filter: a key that is not null and not empty; `Builder.Kept` states that exactly those entries are written |
| Builder.Rendered | src/main/java/ro/atek/qsparser/QueryStringBuilder.java:60 | each kept entry is rendered by `stringifyEntry`, in order |
| Builder.RenderedAppend | src/main/java/ro/atek/qsparser/QueryStringBuilder.java:60 | rendering keeps the order of the entries |
| Builder.JoinAppend | src/main/java/ro/atek/qsparser/QueryStringBuilder.java:61 | joining two non-empty lists puts one delimiter between their joins |
| Builder.QueryText | src/main/java/ro/atek/qsparser/QueryStringBuilder.java:58-61 | the kept entries rendered and joined; `Builder.StringifyPrefix` and `Builder.QueryTextAppend` state how it makes the result |
| Builder.Stringify | src/main/java/ro/atek/qsparser/QueryStringBuilder.java:49-54 | `stringify(null)` is `""` |
| Builder.StringifyPrefix | src/main/java/ro/atek/qsparser/QueryStringBuilder.java:57-62 | the result is empty exactly when the joined text is; otherwise it is that text, after `?` when `addQueryPrefix` is on |
| Builder.NoPrefix | src/main/java/ro/atek/qsparser/QueryStringBuilder.java:57-62 | without `addQueryPrefix` the result is the joined text |
| Builder.NothingWritten | src/main/java/ro/atek/qsparser/QueryStringBuilder.java:56-62 | entries without a key give `""`, even with `addQueryPrefix` |
| Builder.QueryTextAppend | src/main/java/ro/atek/qsparser/QueryStringBuilder.java:58-61 | the text of two runs of entries is their texts joined by the delimiter |
| Builder.StringifyAppend | src/main/java/ro/atek/qsparser/QueryStringBuilder.java:49-62 | without a prefix, stringifying two runs of entries is joining their results with the delimiter |
| Builder.StringifyOneEntry | src/main/java/ro/atek/qsparser/QueryStringBuilder.java:49-93 | with `encode` off, one entry gives `key` or `key=v1,v2,…`, after `?` when asked for |
| Options.ParserOptions.constructor | src/main/java/ro/atek/qsparser/ParserOptions.java:17-59 | the defaults: depth 5, arrayLimit 20, parameterLimit 1000, delimiter `&`, UTF-8, `parseArrays` and `parseIntKeys` on, every other flag off |
| Options.ParserOptions.StrictNullHandling | src/main/java/ro/atek/qsparser/ParserOptions.java:69-73 | sets `strictNullHandling` only and returns the same object |
| Options.ParserOptions.AllowDots | src/main/java/ro/atek/qsparser/ParserOptions.java:83-87 | sets `allowDots` only and returns the same object |
| Options.ParserOptions.Depth | src/main/java/ro/atek/qsparser/ParserOptions.java:97-101 | sets `depth` only and returns the same object |
| Options.ParserOptions.ArrayLimit | src/main/java/ro/atek/qsparser/ParserOptions.java:111-115 | sets `arrayLimit` only, a negative one included, and returns the same object |
| Options.ParserOptions.AllowSparse | src/main/java/ro/atek/qsparser/ParserOptions.java:125-129 | sets `allowSparse` only and returns the same object |
| Options.ParserOptions.Delimiter | src/main/java/ro/atek/qsparser/ParserOptions.java:139-143 | sets `delimiter` only and returns the same object |
| Options.ParserOptions.ParameterLimit | src/main/java/ro/atek/qsparser/ParserOptions.java:153-157 | sets `parameterLimit` only and returns the same object |
| Options.ParserOptions.SetCharset | src/main/java/ro/atek/qsparser/ParserOptions.java:167-171 | sets `charset` only and returns the same object |
| Options.ParserOptions.CharsetSentinel | src/main/java/ro/atek/qsparser/ParserOptions.java:181-185 | sets `charsetSentinel` only and returns the same object |
| Options.ParserOptions.SetComma | src/main/java/ro/atek/qsparser/ParserOptions.java:195-199 | sets `comma` only and returns the same object |
| Options.ParserOptions.SetDecoder | src/main/java/ro/atek/qsparser/ParserOptions.java:209-213 | sets the decoder only and returns the same object |
| Options.ParserOptions.ParseArrays | src/main/java/ro/atek/qsparser/ParserOptions.java:223-227 | sets `parseArrays` only and returns the same object |
| Options.ParserOptions.ParseIntKeys | src/main/java/ro/atek/qsparser/ParserOptions.java:237-241 | sets `parseIntKeys` only and returns the same object |
| Options.StringifyOptions.constructor | src/main/java/ro/atek/qsparser/StringifyOptions.java:23-68 | the defaults: INDICES, delimiter `&`, UTF-8, `encode` and `indices` on, `dictInArrayReplacement` `"DictValue"`, every other flag off |
| Options.StringifyOptions.SetEncoder | src/main/java/ro/atek/qsparser/StringifyOptions.java:78-82 | sets the encoder only and returns the same object |
| Options.StringifyOptions.SetEncodeValuesOnly | src/main/java/ro/atek/qsparser/StringifyOptions.java:92-96 | sets `encodeValuesOnly` only and returns the same object |
| Options.StringifyOptions.SetArrayFormat | src/main/java/ro/atek/qsparser/StringifyOptions.java:106-110 | sets `arrayFormat` only and returns the same object |
| Options.StringifyOptions.SetAddQueryPrefix | src/main/java/ro/atek/qsparser/StringifyOptions.java:120-124 | sets `addQueryPrefix` only and returns the same object |
| Options.StringifyOptions.SetStrictNullHandling | src/main/java/ro/atek/qsparser/StringifyOptions.java:134-138 | sets `strictNullHandling` only and returns the same object |
| Options.StringifyOptions.SetAllowDots | src/main/java/ro/atek/qsparser/StringifyOptions.java:148-152 | sets `allowDots` only and returns the same object |
| Options.StringifyOptions.SetSkipsNulls | src/main/java/ro/atek/qsparser/StringifyOptions.java:162-166 | sets `skipNulls` only and returns the same object |
| Options.StringifyOptions.SetIndices | src/main/java/ro/atek/qsparser/StringifyOptions.java:176-180 | sets `indices` only and returns the same object |
| Options.StringifyOptions.SetCommaRoundTrip | src/main/java/ro/atek/qsparser/StringifyOptions.java:190-194 | sets `commaRoundTrip` only and returns the same object |
| Options.StringifyOptions.SetEncode | src/main/java/ro/atek/qsparser/StringifyOptions.java:204-208 | sets `encode` only and returns the same object |

## Left out

- Percent-coding: `net/DefaultDecoder.java` and `net/DefaultEncoder.java` wrap `java.net.URLDecoder` and `URLEncoder`. The decoder and encoder are function parameters of type (text, charset, key-or-value) to text.
- Regular expressions: `split(options.delimiter)` and `split(",")` take a regular expression. The model splits at the literal delimiter, dropping trailing empty strings as `String.split` does.
- Charsets and `Character.toChars`: the charset is `Utf8` or `Iso88591`, and the code-point-to-character conversion is a parameter. `Values.InterpretAsNumeric` gives `Err(IllegalCodePoint)` where `toChars` throws.
- Options the source does not declare: `ParserOptions.DEFAULT`, which the parser constructor falls back on, is not declared in ParserOptions.java, so the constructor takes the default instance as an argument. `options.interpretNumericEntities` is not declared either, so it is a boolean parameter of `Parse` and `ParseValues`. `StringifyOptions.DEFAULT` is passed to the builder constructor the same way.
- Options snapshots: the parser's helper methods read the options through `Config()` at the call, which is the same as reading the fields, since nothing changes them during a parse.
- The tree walk `value.stringify("", options)`: `QueryStringBuilder.stringify` calls it, but no value class defines it. The builder takes the list of entries it would yield as its input, None for a null value.
- `BoolValue`: used by the tests, and not part of this model. `ValueType.BOOL` exists and `Values.TypeOf` never gives it.
- Java null as a dictionary value: the parser never stores one. `DictValue.compact`'s null branch and `equals`' null comparison of dictionary values are therefore not modelled. Null array elements are modelled, as holes.
- Object identity: `NullValue.get()` returns a singleton and `equals` compares with `==`. In the model Null is one value, so equality with Null is being Null. The `this == other` shortcuts of `equals` are left out, since they agree with structural equality.
- `hashCode`, `toString(int)` indentation and `ArrayValue.toString`: cosmetic, not modelled.
- `NullValue.getType`: NullValue does not implement it. `Values.TypeOf` gives NULL.
- Operand immutability: merge builds new objects in the source. The model's values are immutable, so "neither operand changes" holds by construction and is not stated. The imperative methods work on fresh arrays and dictionaries.
- `src/main/java/ro/atek/qsparser/QueryStringEntry.java`: a duplicate of the value-package record, which the builder does not use; not modelled.
- ArrayFormat, ValueType, DictKey and ContentType are plain datatypes with no behaviour of their own.
- Out-of-memory: `new Value[index + 1]` for a large index fails only at `Integer.MAX_VALUE` in the model (the negative size). Memory exhaustion is not modelled.
- Unicode: `trim()` is modelled as "every character is at most U+0020", and `Integer.parseInt` accepts ASCII digits only, while Java also accepts other Unicode decimal digits.
- Worked examples: the tests' literal strings are covered by lemmas over arbitrary keys and values of the same shape (`Merging.MergeSameKeyCase`, `Merging.MergeArraysCase`, `KeyPaths.RewriteOneDot`, `KeyPaths.KeyChainDepthOne`, `KeyPaths.OverLimitIntKey`), not by the literal strings themselves. For `QueryStringParserTest.java:241-244`, `ParserSpec.IndexedEntriesMerge` covers `parseKeys`, the merge loop and `compact` from the two flat entries `a[1]=c` and `a[0]=b`; the split of the literal query string into those entries is not chained to it.
- `Merging.Merge`: a dictionary merged with a scalar is stated in `Merge`'s own contract (`Err(NotImplemented)`), with no separate lemma.
- `Text.Find`: `indexOf("[")`, `indexOf("]")`, `indexOf(".")` and `indexOf('=')` of one character are modelled as `Find`, and `Text.FindIsIndexOf` proves it equal to the general `IndexOf`.
- `KeyPaths.ParseObject`: the backward loop of `parseObject` is modelled as classifying every segment first (`Placements`) and then folding (`Build`). Classification reads only the options and the segment, so the order of the two does not matter.
- `new DictValue().append(k, leaf)` in `parseObject` is modelled as the one-entry dictionary value it produces.
- `ParserSpec.Parse`: the fold of `merge` is over the flat dictionary's entries in insertion order, like the `entrySet()` loop.
