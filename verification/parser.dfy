/**
 * QueryStringParser as specifications: `parseValues` splits the query string into parts and
 * collects one flat dictionary of decoded keys and values, and `parse` turns every flat entry into
 * a nested value with `parseKeys`, merges them all and compacts the result.
 */
module ParserSpec {
  import opened Wrappers
  import opened Text
  import opened Scalars
  import opened Values
  import opened Merging
  import opened Options
  import opened KeyPaths

  // ---------------------------------------------------------------------------------------
  // Splitting into parts

  /**
   * The parts of the query string: a leading `?` dropped when `ignoreQueryPrefix`, split at the
   * delimiter, and cut to `parameterLimit` parts. The cut allocates an array of `parameterLimit`
   * parts, which fails for a negative limit.
   */
  function Parts(cfg: ParserConfig, content: string): (r: Result<seq<string>>)
    ensures var text := if cfg.ignoreQueryPrefix && StartsWith(content, "?") then content[1..] else content;
            var all := Split(text, cfg.delimiter);
            && (r.Ok? ==> |r.value| <= |all| && r.value == all[..|r.value|])
            && (r.Ok? ==> |r.value| <= cfg.parameterLimit || r.value == all)
            && (r.Ok? && |r.value| < |all| ==> |r.value| == cfg.parameterLimit)
            && (|all| <= cfg.parameterLimit ==> r == Ok(all))
            && (r.Ok? && |all| > cfg.parameterLimit ==> |r.value| == cfg.parameterLimit)
            && (r.Err? <==> |all| > cfg.parameterLimit && cfg.parameterLimit < 0)
            && (r.Err? ==> r.error == NegativeArraySize)
  {
    var text := if cfg.ignoreQueryPrefix && StartsWith(content, "?") then content[1..] else content;
    var all := Split(text, cfg.delimiter);
    if |all| > cfg.parameterLimit then
      if cfg.parameterLimit < 0 then Err(NegativeArraySize) else Ok(all[..cfg.parameterLimit])
    else Ok(all)
  }

  // ---------------------------------------------------------------------------------------
  // Charset sentinel

  const UTF8_SENTINEL := "utf8=%E2%9C%93"
  const ISO_SENTINEL := "utf8=%26%2310003%3B"

  /** `isCharsetSentinel`: the part names the `utf8` parameter. */
  predicate IsCharsetSentinel(part: string) {
    StartsWith(part, "utf8=")
  }

  /**
   * `findCharsetSentinel`: the charset named by the first part that is one of the two sentinels
   * (the encoded check mark for UTF-8, its numeric-entity form for ISO-8859-1), or None.
   */
  function SentinelCharset(parts: seq<string>): (r: Option<Charset>)
    ensures r.None? <==> forall j :: 0 <= j < |parts| ==> parts[j] != UTF8_SENTINEL && parts[j] != ISO_SENTINEL
  {
    if parts == [] then None
    else if IsCharsetSentinel(parts[0]) && parts[0] == UTF8_SENTINEL then Some(Utf8)
    else if IsCharsetSentinel(parts[0]) && parts[0] == ISO_SENTINEL then Some(Iso88591)
    else
      var r := SentinelCharset(parts[1..]);
      assert forall j :: 1 <= j < |parts| ==> parts[j] == parts[1..][j - 1];
      r
  }

  /** The first sentinel decides, whatever sentinels follow it. */
  lemma {:induction false} SentinelFirstWins(parts: seq<string>, i: nat)
    requires i < |parts| && (parts[i] == UTF8_SENTINEL || parts[i] == ISO_SENTINEL)
    requires forall j :: 0 <= j < i ==> parts[j] != UTF8_SENTINEL && parts[j] != ISO_SENTINEL
    ensures SentinelCharset(parts) == Some(if parts[i] == UTF8_SENTINEL then Utf8 else Iso88591)
  {
    if i > 0 {
      assert parts[0] != UTF8_SENTINEL && parts[0] != ISO_SENTINEL;
      assert parts[1..][i - 1] == parts[i];
      SentinelFirstWins(parts[1..], i - 1);
    } else {
      assert parts[0][..5] == "utf8=";
    }
  }

  // ---------------------------------------------------------------------------------------
  // One part

  /**
   * Where a part splits into key and value: just after the first `]=` when there is one (so
   * that an `=` inside brackets stays in the key), otherwise at the first `=`; -1 for none.
   */
  function SplitPoint(part: string): int {
    var bracketEquals := IndexOf(part, "]=");
    if bracketEquals == -1 then Find(part, '=') else bracketEquals + 1
  }

  /** The split point is an `=`, and a part without `=` has none. */
  lemma SplitPointIsEquals(part: string)
    ensures var pos := SplitPoint(part);
            && (pos == -1 <==> '=' !in part)
            && (pos >= 0 ==> pos < |part| && part[pos] == '=')
  {
    var bracketEquals := IndexOf(part, "]=");
    if bracketEquals >= 0 {
      assert part[bracketEquals..bracketEquals + 2] == "]=";
      assert part[bracketEquals + 1] == part[bracketEquals..bracketEquals + 2][1];
    }
  }

  /**
   * A key that ends with `]` and holds no `]=` of its own is split off whole, whatever `=` it
   * holds and whatever the value holds: `a[>=]=23` gives key `a[>=]`, and `a[<=>]==23` gives key
   * `a[<=>]` and value `=23`.
   */
  lemma BracketKeySplit(key: string, value: string)
    requires key != "" && key[|key| - 1] == ']' && !Contains(key, "]=")
    ensures SplitPoint(key + "=" + value) == |key|
  {
    var part := key + "=" + value;
    var at := |key| - 1;
    assert part[at..at + 2] == "]=";
    forall j | 0 <= j < at
      ensures !OccursAt(part, "]=", j)
    {
      assert !OccursAt(key, "]=", j);
    }
    assert OccursAt(part, "]=", at);
    var r := IndexOf(part, "]=");
    assert r != -1;
    assert !(0 <= r < at);
  }

  /** What the parser needs to decode a part: the decoder, the charset in force and the entity option. */
  datatype Decoding = Decoding(decoder: Decoder, charset: Charset, interpretNumericEntities: bool, toChar: int -> char)

  /** A comma-separated value: one String slot per token, in order. */
  function CommaArray(d: Decoding, plain: string): (r: Value)
    ensures r.Array? && |r.slots| == |Split(plain, ",")|
    ensures forall j :: 0 <= j < |r.slots| ==>
              r.slots[j] == Some(Str(d.decoder(Split(plain, ",")[j], d.charset, ValueContent)))
  {
    var tokens := Split(plain, ",");
    Array(seq(|tokens|, j requires 0 <= j < |tokens| => Some(Str(d.decoder(tokens[j], d.charset, ValueContent)))))
  }

  /**
   * The key and value of one part. Without an `=` the whole part is the key and the value is
   * Null under `strictNullHandling`, the empty String otherwise; with one, the text before is the
   * key and the text after the value, split at commas into an array under `comma`.
   */
  function PartEntry(cfg: ParserConfig, d: Decoding, part: string): (e: (string, Value))
    ensures SplitPoint(part) == -1 ==>
              e == (d.decoder(part, d.charset, KeyContent), if cfg.strictNullHandling then Null else Str(""))
    ensures SplitPoint(part) >= 0 ==> e.0 == d.decoder(part[..SplitPoint(part)], d.charset, KeyContent)
    ensures SplitPoint(part) >= 0 ==>
              var plain := part[SplitPoint(part) + 1..];
              && (e.1.Array? <==> cfg.comma && ',' in plain)
              && (e.1.Array? ==> e.1 == CommaArray(d, plain))
              && (!e.1.Array? ==> e.1 == Str(d.decoder(plain, d.charset, ValueContent)))
    ensures e.1.Array? ==> cfg.comma && SplitPoint(part) >= 0
    ensures !e.1.Array? ==> e.1.Null? || e.1.Str?
  {
    var pos := SplitPoint(part);
    SplitPointIsEquals(part);
    if pos == -1 then
      (d.decoder(part, d.charset, KeyContent), if cfg.strictNullHandling then Null else Str(""))
    else
      var key := d.decoder(part[..pos], d.charset, KeyContent);
      var plain := part[pos + 1..];
      if cfg.comma && ',' in plain then (key, CommaArray(d, plain))
      else (key, Str(d.decoder(plain, d.charset, ValueContent)))
  }

  /** `interpretAsNumeric` when `interpretNumericEntities` is on and the charset is ISO-8859-1. */
  function Numeric(d: Decoding, v: Value): Result<Value> {
    if d.interpretNumericEntities && d.charset == Iso88591 then InterpretAsNumeric(v, d.toChar) else Ok(v)
  }

  /**
   * Recording a key: the first time the value itself, then every repetition turns the value into
   * the concatenation array of what was there and the new value.
   */
  function AddValue(root: seq<(Key, Value)>, key: string, v: Value): seq<(Key, Value)> {
    var k := SKey(key);
    if HasKey(root, k) then PutEntry(root, k, ConcatArray(Lookup(root, k), Some(v)))
    else PutEntry(root, k, v)
  }

  /**
   * A new key goes last and a repeated one keeps its place; the key's value is the new value or
   * the concatenation with the old one; nothing else changes.
   */
  lemma AddValueEffect(root: seq<(Key, Value)>, key: string, v: Value)
    ensures var r := AddValue(root, key, v);
            && KeysOf(r) == KeysOf(root) + (if HasKey(root, SKey(key)) then [] else [SKey(key)])
            && Lookup(r, SKey(key)) == Some(if HasKey(root, SKey(key)) then ConcatArray(Lookup(root, SKey(key)), Some(v)) else v)
            && (forall k :: k != SKey(key) ==> Lookup(r, k) == Lookup(root, k))
            && (UniqueKeys(root) ==> UniqueKeys(r))
  {
    var k := SKey(key);
    var nv := if HasKey(root, k) then ConcatArray(Lookup(root, k), Some(v)) else v;
    PutSetsOneEntry(root, k, nv);
    PutKeys(root, k, nv);
  }

  /** Two values under the same new key make the two-element array of both: `a=b&a=c` gives `[b, c]`. */
  lemma RepeatedKeyCollects(root: seq<(Key, Value)>, key: string, v1: Value, v2: Value)
    requires !HasKey(root, SKey(key)) && !v1.Array? && !v2.Array?
    ensures Lookup(AddValue(AddValue(root, key, v1), key, v2), SKey(key)) == Some(Array([Some(v1), Some(v2)]))
  {
    AddValueEffect(root, key, v1);
    var r1 := AddValue(root, key, v1);
    assert HasKey(r1, SKey(key)) by {
      assert Lookup(r1, SKey(key)).Some?;
    }
    AddValueEffect(r1, key, v2);
    assert Operand(Some(v1)) == [Some(v1)] && Operand(Some(v2)) == [Some(v2)];
    assert ConcatArray(Lookup(r1, SKey(key)), Some(v2)) == Array([Some(v1)] + [Some(v2)]);
    assert [Some(v1)] + [Some(v2)] == [Some(v1), Some(v2)];
  }

  /** One round of the loop of `parseValues`: sentinel and blank parts are skipped. */
  function Step(cfg: ParserConfig, d: Decoding, root: seq<(Key, Value)>, part: string): Result<seq<(Key, Value)>> {
    if IsCharsetSentinel(part) || IsBlank(part) then Ok(root)
    else
      var e := PartEntry(cfg, d, part);
      match Numeric(d, e.1)
      case Err(err) => Err(err)
      case Ok(v) => Ok(AddValue(root, e.0, v))
  }

  /**
   * A sentinel or blank part leaves the dictionary as it is; any other part records its decoded
   * key, and fails only when the numeric step fails.
   */
  lemma StepSkipsOrAdds(cfg: ParserConfig, d: Decoding, root: seq<(Key, Value)>, part: string)
    ensures IsCharsetSentinel(part) || IsBlank(part) ==> Step(cfg, d, root, part) == Ok(root)
    ensures !(IsCharsetSentinel(part) || IsBlank(part)) ==>
              var e := PartEntry(cfg, d, part);
              && (Step(cfg, d, root, part).Err? <==> Numeric(d, e.1).Err?)
              && (Step(cfg, d, root, part).Ok? ==> HasKey(Step(cfg, d, root, part).value, SKey(e.0)))
  {
    if !(IsCharsetSentinel(part) || IsBlank(part)) {
      var e := PartEntry(cfg, d, part);
      var n := Numeric(d, e.1);
      if n.Ok? {
        AddValueEffect(root, e.0, n.value);
        assert Lookup(AddValue(root, e.0, n.value), SKey(e.0)).Some?;
      }
    }
  }

  /** The loop of `parseValues` from part `i` on. */
  function ValuesFrom(cfg: ParserConfig, d: Decoding, parts: seq<string>, i: nat, root: seq<(Key, Value)>): Result<seq<(Key, Value)>>
    requires i <= |parts|
    decreases |parts| - i
  {
    if i == |parts| then Ok(root)
    else
      match Step(cfg, d, root, parts[i])
      case Err(err) => Err(err)
      case Ok(root') => ValuesFrom(cfg, d, parts, i + 1, root')
  }

  /** The charset `parseValues` decodes with: a sentinel's when asked for and present. */
  function EffectiveCharset(cfg: ParserConfig, parts: seq<string>): Charset {
    if cfg.charsetSentinel && SentinelCharset(parts).Some? then SentinelCharset(parts).value else cfg.charset
  }

  /** `parseValues(content)`: the flat dictionary of the query string. */
  function ParseValues(cfg: ParserConfig, decoder: Decoder, interpret: bool, toChar: int -> char, content: string): Result<seq<(Key, Value)>> {
    match Parts(cfg, content)
    case Err(err) => Err(err)
    case Ok(parts) =>
      ValuesFrom(cfg, Decoding(decoder, EffectiveCharset(cfg, parts), interpret, toChar), parts, 0, [])
  }

  // ---------------------------------------------------------------------------------------
  // parse

  /** The loop of `parse` from flat entry `i` on: each entry nested by `parseKeys` and merged in. */
  function MergeFrom(cfg: ParserConfig, entries: seq<(Key, Value)>, i: nat, obj: Value): Result<Value>
    requires i <= |entries|
    decreases |entries| - i
  {
    if i == |entries| then Ok(obj)
    else
      match ParseKeys(cfg, entries[i].0, entries[i].1)
      case Err(err) => Err(err)
      case Ok(newObj) =>
        match Merge(obj, newObj)
        case Err(err) => Err(err)
        case Ok(merged) => MergeFrom(cfg, entries, i + 1, merged)
  }

  /**
   * `parse(content)`: an empty dictionary for a null or empty string; otherwise the flat entries
   * nested and merged into one dictionary, compacted unless `allowSparse`.
   */
  function Parse(cfg: ParserConfig, decoder: Decoder, interpret: bool, toChar: int -> char, content: Option<string>): (r: Result<Value>)
    ensures content.None? || content == Some("") ==> r == Ok(Dict([]))
  {
    if content.None? || content.value == "" then Ok(Dict([]))
    else
      match ParseValues(cfg, decoder, interpret, toChar, content.value)
      case Err(err) => Err(err)
      case Ok(entries) =>
        match MergeFrom(cfg, entries, 0, Dict([]))
        case Err(err) => Err(err)
        case Ok(obj) => Ok(if cfg.allowSparse then obj else Compact(obj))
  }

  // ---------------------------------------------------------------------------------------
  // What parse promises

  /** The flat dictionary of `parseValues`: String keys, each once, and well-formed values. */
  predicate FlatEntries(es: seq<(Key, Value)>) {
    WellFormed(Dict(es)) && forall j :: 0 <= j < |es| ==> es[j].0.SKey?
  }

  lemma PartEntryWellFormed(cfg: ParserConfig, d: Decoding, part: string)
    ensures WellFormed(PartEntry(cfg, d, part).1)
  {
  }

  lemma NumericWellFormed(d: Decoding, v: Value)
    requires WellFormed(v)
    ensures Numeric(d, v).Ok? ==> WellFormed(Numeric(d, v).value)
  {
  }

  /** Recording a key keeps the flat dictionary flat. */
  lemma AddValueFlat(root: seq<(Key, Value)>, key: string, v: Value)
    requires FlatEntries(root) && WellFormed(v)
    ensures FlatEntries(AddValue(root, key, v))
  {
    var k := SKey(key);
    var r := AddValue(root, key, v);
    AddValueEffect(root, key, v);
    if HasKey(root, k) {
      var prev := Lookup(root, k).value;
      assert WellFormed(prev) by {
        assert root[KeyIndex(root, k)].1 == prev;
      }
      ConcatWellFormed(prev, v);
      PutWellFormed(root, k, ConcatArray(Lookup(root, k), Some(v)));
    } else {
      PutWellFormed(root, k, v);
    }
    forall j | 0 <= j < |r|
      ensures r[j].0.SKey?
    {
      assert r[j].0 == KeysOf(r)[j];
      if j < |root| {
        assert KeysOf(r)[j] == KeysOf(root)[j];
      }
    }
  }

  /** One round keeps the dictionary flat, keeps its keys in place and adds at most one. */
  lemma StepFlat(cfg: ParserConfig, d: Decoding, root: seq<(Key, Value)>, part: string)
    requires FlatEntries(root)
    ensures var r := Step(cfg, d, root, part);
            r.Ok? ==> FlatEntries(r.value) && KeysOf(root) <= KeysOf(r.value) && |r.value| <= |root| + 1
  {
    if !(IsCharsetSentinel(part) || IsBlank(part)) {
      var e := PartEntry(cfg, d, part);
      PartEntryWellFormed(cfg, d, part);
      NumericWellFormed(d, e.1);
      var n := Numeric(d, e.1);
      if n.Ok? {
        AddValueFlat(root, e.0, n.value);
        AddValueEffect(root, e.0, n.value);
      }
    }
  }

  /**
   * The loop of `parseValues` keeps the dictionary flat; a key keeps the position of its first
   * occurrence, and every part adds at most one key.
   */
  lemma {:induction false} ValuesFromFlat(cfg: ParserConfig, d: Decoding, parts: seq<string>, i: nat, root: seq<(Key, Value)>)
    requires i <= |parts| && FlatEntries(root)
    ensures var r := ValuesFrom(cfg, d, parts, i, root);
            r.Ok? ==> FlatEntries(r.value) && KeysOf(root) <= KeysOf(r.value) && |r.value| <= |root| + |parts| - i
    decreases |parts| - i
  {
    if i < |parts| {
      StepFlat(cfg, d, root, parts[i]);
      var s := Step(cfg, d, root, parts[i]);
      if s.Ok? {
        ValuesFromFlat(cfg, d, parts, i + 1, s.value);
      }
    }
  }

  /** `parseValues` gives String keys, each once, at most one per part. */
  lemma ParseValuesFlat(cfg: ParserConfig, decoder: Decoder, interpret: bool, toChar: int -> char, content: string)
    ensures var r := ParseValues(cfg, decoder, interpret, toChar, content);
            r.Ok? ==> Parts(cfg, content).Ok? && FlatEntries(r.value) && |r.value| <= |Parts(cfg, content).value|
  {
    var p := Parts(cfg, content);
    if p.Ok? {
      ValuesFromFlat(cfg, Decoding(decoder, EffectiveCharset(cfg, p.value), interpret, toChar), p.value, 0, []);
    }
  }

  /** `parseKeys` of a well-formed value is well-formed. */
  lemma ParseKeysWellFormed(cfg: ParserConfig, key: Key, value: Value)
    requires WellFormed(value)
    ensures ParseKeys(cfg, key, value).Ok? ==> WellFormed(ParseKeys(cfg, key, value).value)
  {
  }

  /** The loop of `parse` keeps a well-formed dictionary. */
  lemma {:induction false} MergeFromDict(cfg: ParserConfig, entries: seq<(Key, Value)>, i: nat, obj: Value)
    requires i <= |entries| && obj.Dict? && WellFormed(obj)
    requires forall j :: 0 <= j < |entries| ==> WellFormed(entries[j].1)
    ensures var r := MergeFrom(cfg, entries, i, obj); r.Ok? ==> r.value.Dict? && WellFormed(r.value)
    decreases |entries| - i
  {
    if i < |entries| {
      var p := ParseKeys(cfg, entries[i].0, entries[i].1);
      ParseKeysWellFormed(cfg, entries[i].0, entries[i].1);
      if p.Ok? {
        MergeWellFormed(obj, p.value);
        var m := Merge(obj, p.value);
        if m.Ok? {
          MergeFromDict(cfg, entries, i + 1, m.value);
        }
      }
    }
  }

  /**
   * `parse` gives a dictionary in which no dictionary repeats a key, and one without holes unless
   * `allowSparse`.
   */
  lemma ParseResult(cfg: ParserConfig, decoder: Decoder, interpret: bool, toChar: int -> char, content: Option<string>)
    ensures var r := Parse(cfg, decoder, interpret, toChar, content);
            r.Ok? ==> r.value.Dict? && WellFormed(r.value) && (!cfg.allowSparse ==> HoleFree(r.value))
  {
    if content.Some? && content.value != "" {
      var pv := ParseValues(cfg, decoder, interpret, toChar, content.value);
      ParseValuesFlat(cfg, decoder, interpret, toChar, content.value);
      if pv.Ok? {
        var es := pv.value;
        assert forall j :: 0 <= j < |es| ==> WellFormed(es[j].1);
        MergeFromDict(cfg, es, 0, Dict([]));
        var m := MergeFrom(cfg, es, 0, Dict([]));
        if m.Ok? && !cfg.allowSparse {
          CompactWellFormed(m.value);
        }
      }
    }
  }

  /** One round of the loop of `parse`: the entry nested and merged into what came before. */
  lemma MergeFromStep(cfg: ParserConfig, entries: seq<(Key, Value)>, i: nat, obj: Value, nested: Value, merged: Value)
    requires i < |entries|
    requires ParseKeys(cfg, entries[i].0, entries[i].1) == Ok(nested) && Merge(obj, nested) == Ok(merged)
    ensures MergeFrom(cfg, entries, i, obj) == MergeFrom(cfg, entries, i + 1, merged)
  {
  }

  /** A one-entry dictionary holding a two-element array without holes is left as it is by compact. */
  lemma PairHoleFree(k: Key, b: Value, c: Value)
    requires HoleFree(b) && HoleFree(c)
    ensures Compact(Dict([(k, Array([Some(b), Some(c)]))])) == Dict([(k, Array([Some(b), Some(c)]))])
  {
    var arr := Array([Some(b), Some(c)]);
    assert HoleFree(arr);
    assert HoleFree(Dict([(k, arr)]));
    CompactHoleFree(Dict([(k, arr)]));
  }

  /**
   * The flat entries of `a[1]=c&a[0]=b` nest into index arrays and merge into `{a: [b, c]}`,
   * which compact leaves as it is when `b` and `c` hold no holes.
   */
  lemma IndexedEntriesMerge(cfg: ParserConfig, name: string, b: Value, c: Value)
    requires name != "" && '[' !in name && '.' !in name && !(cfg.parseIntKeys && IsCanonicalInt(name))
    requires cfg.depth > 0 && cfg.parseArrays && 1 <= cfg.arrayLimit
    ensures MergeFrom(cfg, [(SKey(name + "[1]"), c), (SKey(name + "[0]"), b)], 0, Dict([]))
         == Ok(Dict([(SKey(name), Array([Some(b), Some(c)]))]))
    ensures HoleFree(b) && HoleFree(c) ==>
              Compact(Dict([(SKey(name), Array([Some(b), Some(c)]))])) == Dict([(SKey(name), Array([Some(b), Some(c)]))])
  {
    var entries := [(SKey(name + "[1]"), c), (SKey(name + "[0]"), b)];
    var k := SKey(name);
    var first := [(k, IndexArray(1, Some(c)))];
    var second := [(k, IndexArray(0, Some(b)))];
    var pair := Dict([(k, Array([Some(b), Some(c)]))]);
    assert name + "[" + DecimalString(1) + "]" == name + "[1]";
    assert name + "[" + DecimalString(0) + "]" == name + "[0]";
    ParseKeysIndexed(cfg, name, 1, c);
    ParseKeysIndexed(cfg, name, 0, b);
    DisjointDictMerge([], first);
    assert [] + first == first;
    MergeFromStep(cfg, entries, 0, Dict([]), Dict(first), Dict(first));
    MergeIndexedCase(k, b, c);
    MergeFromStep(cfg, entries, 1, Dict(first), Dict(second), pair);
    if HoleFree(b) && HoleFree(c) {
      PairHoleFree(k, b, c);
    }
  }
}
