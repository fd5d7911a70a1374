/**
 * QueryStringBuilder: the entries a value yields are filtered (no null or empty key), each is
 * rendered as `key=value` with the configured encoder, they are joined with the delimiter, and a
 * `?` goes in front when asked for and the result is not empty.
 */
module Builder {
  import opened Wrappers
  import opened Text
  import opened Options

  /**
   * value/QueryStringEntry: a key and the values it maps to (usually one; several when an array
   * is written comma-separated). None stands for Java null; the getters are the field accessors.
   */
  datatype QueryStringEntry = QueryStringEntry(key: Option<string>, values: Option<seq<string>>)

  /** `new QueryStringEntry(key, value)`: a null value means a bare key, any other a one-element list. */
  function SingleEntry(key: Option<string>, value: Option<string>): (e: QueryStringEntry)
    ensures e.key == key
    ensures e.values.None? <==> value.None?
    ensures value.Some? ==> e.values == Some([value.value])
  {
    QueryStringEntry(key, if value.None? then None else Some([value.value]))
  }

  /** The builder object: it only holds the options it reads. */
  class QueryStringBuilder {
    const options: StringifyOptions

    /** `new QueryStringBuilder(options)`: a null `options` means the shared `DEFAULT` instance. */
    constructor (options: StringifyOptions?, defaults: StringifyOptions)
      ensures this.options == if options == null then defaults else options
    {
      this.options := if options == null then defaults else options;
    }
  }

  // ---------------------------------------------------------------------------------------
  // encode

  /**
   * `encode(value, type)`: the empty string for null; keys go through the encoder only when
   * `encode` is on and `encodeValuesOnly` off, values whenever `encode` is on; anything else
   * comes back as it is.
   */
  function Encode(cfg: StringifyConfig, enc: Encoder, value: Option<string>, t: ContentType): (r: string)
    ensures value.None? ==> r == ""
    ensures value.Some? && t == KeyContent ==>
              r == if cfg.encode && !cfg.encodeValuesOnly then enc(value.value, cfg.charset, KeyContent) else value.value
    ensures value.Some? && t == ValueContent ==>
              r == if cfg.encode then enc(value.value, cfg.charset, ValueContent) else value.value
  {
    if value.None? then ""
    else if cfg.encode && ((t == KeyContent && !cfg.encodeValuesOnly) || t == ValueContent) then
      enc(value.value, cfg.charset, t)
    else value.value
  }

  // ---------------------------------------------------------------------------------------
  // stringifyEntry

  /** Every value encoded on its own. */
  function EncodeEach(cfg: StringifyConfig, enc: Encoder, values: seq<string>): (r: seq<string>)
    ensures |r| == |values|
    ensures forall i :: 0 <= i < |values| ==> r[i] == Encode(cfg, enc, Some(values[i]), ValueContent)
  {
    seq(|values|, i requires 0 <= i < |values| => Encode(cfg, enc, Some(values[i]), ValueContent))
  }

  /**
   * `stringifyEntry(pair)`: the encoded key alone when the values are null; otherwise the key,
   * `=`, and the values: each encoded and then joined with a literal `,` under
   * `encodeValuesOnly`, joined first and encoded as one string otherwise.
   */
  function StringifyEntry(cfg: StringifyConfig, enc: Encoder, pair: QueryStringEntry): string {
    var key := Encode(cfg, enc, pair.key, KeyContent);
    if pair.values.None? then key
    else
      var val := if cfg.encodeValuesOnly then Join(EncodeEach(cfg, enc, pair.values.value), ",")
                 else Encode(cfg, enc, Some(Join(pair.values.value, ",")), ValueContent);
      key + "=" + val
  }

  /**
   * With encoding off nothing is encoded, so both ways of writing the values give the values
   * joined with `,` after the key and `=`; with null values the key stands alone.
   */
  lemma EntryWithoutEncoding(cfg: StringifyConfig, enc: Encoder, key: string, values: Option<seq<string>>)
    requires !cfg.encode
    ensures StringifyEntry(cfg, enc, QueryStringEntry(Some(key), values)) ==
            if values.None? then key else key + "=" + Join(values.value, ",")
  {
    if values.Some? {
      assert EncodeEach(cfg, enc, values.value) == values.value;
    }
  }

  /** A single value is written the same way whether or not only values are encoded. */
  lemma SingleValueSameEitherWay(cfg: StringifyConfig, enc: Encoder, key: Option<string>, value: string)
    requires cfg.encode
    ensures StringifyEntry(cfg.(encodeValuesOnly := true), enc, QueryStringEntry(key, Some([value]))) ==
            Encode(cfg.(encodeValuesOnly := true), enc, key, KeyContent) + "=" + enc(value, cfg.charset, ValueContent)
    ensures StringifyEntry(cfg.(encodeValuesOnly := false), enc, QueryStringEntry(key, Some([value]))) ==
            Encode(cfg.(encodeValuesOnly := false), enc, key, KeyContent) + "=" + enc(value, cfg.charset, ValueContent)
  {
    var c := cfg.(encodeValuesOnly := true);
    assert EncodeEach(c, enc, [value]) == [enc(value, cfg.charset, ValueContent)];
  }

  /**
   * With encoding on, the key goes through the encoder unless only values are encoded, and the
   * values are either encoded one by one and joined with a literal `,`, or joined first and
   * encoded as one string; null values leave the encoded key alone.
   */
  lemma EntryWithEncoding(cfg: StringifyConfig, enc: Encoder, key: string, values: Option<seq<string>>)
    requires cfg.encode
    ensures var k := if cfg.encodeValuesOnly then key else enc(key, cfg.charset, KeyContent);
            StringifyEntry(cfg, enc, QueryStringEntry(Some(key), values)) ==
            if values.None? then k
            else if cfg.encodeValuesOnly then k + "=" + Join(EncodeEach(cfg, enc, values.value), ",")
            else k + "=" + enc(Join(values.value, ","), cfg.charset, ValueContent)
  {
  }

  // ---------------------------------------------------------------------------------------
  // stringify

  /** The filter of `stringify`: the entry has a key and it is not empty. */
  predicate Written(e: QueryStringEntry) {
    e.key.Some? && e.key.value != ""
  }

  /** The entries `stringify` writes, in their order. */
  function Kept(chunks: seq<QueryStringEntry>): (r: seq<QueryStringEntry>)
    ensures |r| <= |chunks|
    ensures forall e :: e in r ==> e in chunks && Written(e)
    ensures forall e :: e in chunks && Written(e) ==> e in r
  {
    if chunks == [] then []
    else (if Written(chunks[0]) then [chunks[0]] else []) + Kept(chunks[1..])
  }

  /** The filter keeps order: what it keeps of two lists one after the other is what it keeps of each. */
  lemma {:induction false} KeptAppend(a: seq<QueryStringEntry>, b: seq<QueryStringEntry>)
    ensures Kept(a + b) == Kept(a) + Kept(b)
  {
    if a == [] {
      assert a + b == b;
    } else {
      assert (a + b)[1..] == a[1..] + b;
      KeptAppend(a[1..], b);
    }
  }

  /** Every kept entry rendered. */
  function Rendered(cfg: StringifyConfig, enc: Encoder, entries: seq<QueryStringEntry>): (r: seq<string>)
    ensures |r| == |entries|
    ensures forall i :: 0 <= i < |entries| ==> r[i] == StringifyEntry(cfg, enc, entries[i])
  {
    seq(|entries|, i requires 0 <= i < |entries| => StringifyEntry(cfg, enc, entries[i]))
  }

  /** The entries rendered and joined with the delimiter, before the prefix. */
  function QueryText(cfg: StringifyConfig, enc: Encoder, chunks: seq<QueryStringEntry>): string {
    Join(Rendered(cfg, enc, Kept(chunks)), cfg.delimiter)
  }

  /**
   * `stringify(value)`, given the entries `value.stringify` yields (None for a null value): the
   * entries with a key, rendered and joined with the delimiter; `?` in front only when asked for
   * and only when that text is not empty.
   */
  function Stringify(cfg: StringifyConfig, enc: Encoder, chunks: Option<seq<QueryStringEntry>>): (s: string)
    ensures chunks.None? ==> s == ""
  {
    if chunks.None? then ""
    else
      var prefix := if cfg.addQueryPrefix then "?" else "";
      var queryString := QueryText(cfg, enc, chunks.value);
      if queryString == "" then "" else prefix + queryString
  }

  /**
   * The prefix: the result is empty exactly when the joined text is, and otherwise it is that
   * text, after a `?` when `addQueryPrefix` is set.
   */
  lemma StringifyPrefix(cfg: StringifyConfig, enc: Encoder, chunks: seq<QueryStringEntry>)
    ensures var s := Stringify(cfg, enc, Some(chunks));
            var q := QueryText(cfg, enc, chunks);
            && (s == "" <==> q == "")
            && (s != "" && cfg.addQueryPrefix ==> s[0] == '?' && s[1..] == q)
            && (!cfg.addQueryPrefix ==> s == q)
  {
  }

  /** Without an entry that has a key there is nothing to write, and no `?` either. */
  lemma NothingWritten(cfg: StringifyConfig, enc: Encoder, chunks: seq<QueryStringEntry>)
    requires forall i :: 0 <= i < |chunks| ==> !Written(chunks[i])
    ensures Stringify(cfg, enc, Some(chunks)) == ""
  {
    KeptNothing(chunks);
    assert Rendered(cfg, enc, []) == [];
  }

  lemma {:induction false} KeptNothing(chunks: seq<QueryStringEntry>)
    requires forall i :: 0 <= i < |chunks| ==> !Written(chunks[i])
    ensures Kept(chunks) == []
  {
    if chunks != [] {
      KeptNothing(chunks[1..]);
    }
  }

  lemma {:induction false} JoinAppend(a: seq<string>, b: seq<string>, d: string)
    requires a != [] && b != []
    ensures Join(a + b, d) == Join(a, d) + d + Join(b, d)
    decreases |a|
  {
    if |a| == 1 {
      assert (a + b)[1..] == b;
    } else {
      assert (a + b)[1..] == a[1..] + b;
      JoinAppend(a[1..], b, d);
    }
  }

  lemma RenderedAppend(cfg: StringifyConfig, enc: Encoder, a: seq<QueryStringEntry>, b: seq<QueryStringEntry>)
    ensures Rendered(cfg, enc, a + b) == Rendered(cfg, enc, a) + Rendered(cfg, enc, b)
  {
  }

  /** Without a prefix the query string is the joined text. */
  lemma NoPrefix(cfg: StringifyConfig, enc: Encoder, chunks: seq<QueryStringEntry>)
    requires !cfg.addQueryPrefix
    ensures Stringify(cfg, enc, Some(chunks)) == QueryText(cfg, enc, chunks)
  {
    var q := QueryText(cfg, enc, chunks);
    assert "" + q == q;
  }

  lemma QueryTextAppend(cfg: StringifyConfig, enc: Encoder, a: seq<QueryStringEntry>, b: seq<QueryStringEntry>)
    requires QueryText(cfg, enc, a) != "" && QueryText(cfg, enc, b) != ""
    ensures QueryText(cfg, enc, a + b) == QueryText(cfg, enc, a) + cfg.delimiter + QueryText(cfg, enc, b)
  {
    var ra, rb := Rendered(cfg, enc, Kept(a)), Rendered(cfg, enc, Kept(b));
    assert ra != [] && rb != [];
    KeptAppend(a, b);
    RenderedAppend(cfg, enc, Kept(a), Kept(b));
    JoinAppend(ra, rb, cfg.delimiter);
  }

  /**
   * Entries keep their order: without a prefix, the query string of two lists of entries one
   * after the other is the query string of each, joined by the delimiter.
   */
  lemma StringifyAppend(cfg: StringifyConfig, enc: Encoder, a: seq<QueryStringEntry>, b: seq<QueryStringEntry>)
    requires !cfg.addQueryPrefix
    requires Stringify(cfg, enc, Some(a)) != "" && Stringify(cfg, enc, Some(b)) != ""
    ensures Stringify(cfg, enc, Some(a + b)) == Stringify(cfg, enc, Some(a)) + cfg.delimiter + Stringify(cfg, enc, Some(b))
  {
    NoPrefix(cfg, enc, a);
    NoPrefix(cfg, enc, b);
    NoPrefix(cfg, enc, a + b);
    QueryTextAppend(cfg, enc, a, b);
  }

  /**
   * One entry with a key and encoding off: `key=v1,v2,...`, or the bare key for null values,
   * after a `?` when asked for.
   */
  lemma StringifyOneEntry(cfg: StringifyConfig, enc: Encoder, key: string, values: Option<seq<string>>)
    requires !cfg.encode && key != ""
    ensures Stringify(cfg, enc, Some([QueryStringEntry(Some(key), values)])) ==
            (if cfg.addQueryPrefix then "?" else "") + (if values.None? then key else key + "=" + Join(values.value, ","))
  {
    var e := QueryStringEntry(Some(key), values);
    assert Kept([e]) == [e] by {
      assert [e][1..] == [];
    }
    EntryWithoutEncoding(cfg, enc, key, values);
    assert Rendered(cfg, enc, [e]) == [StringifyEntry(cfg, enc, e)];
  }
}
