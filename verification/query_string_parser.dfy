/**
 * The QueryStringParser object. Its methods run the loops of the Java class step by step and
 * each is proved to compute the function of ParserSpec or KeyPaths that specifies it; the
 * properties of those functions are proved there.
 */
module Parser {
  import opened Wrappers
  import opened Text
  import opened Scalars
  import opened Values
  import opened Merging
  import opened Options
  import opened KeyPaths
  import opened ParserSpec
  import ValueOps

  class QueryStringParser {
    /** The configuration this parser reads; it never changes it. */
    const options: ParserOptions

    /** `new QueryStringParser(options)`: a null `options` means the shared default settings. */
    constructor (options: ParserOptions?, defaults: ParserOptions)
      ensures this.options == if options == null then defaults else options
    {
      this.options := if options == null then defaults else options;
    }

    /**
     * `parse(content)`: the nested value of the query string. A null or empty string gives an
     * empty dictionary; otherwise every flat entry is nested by `parseKeys` and merged into the
     * result, which is compacted unless `allowSparse`. The result is a dictionary in which no
     * dictionary repeats a key, with no holes unless `allowSparse`.
     */
    method Parse(content: Option<string>, interpret: bool, toChar: int -> char) returns (r: Result<Value>)
      ensures r == ParserSpec.Parse(options.Config(), options.decoder, interpret, toChar, content)
      ensures r.Ok? ==> r.value.Dict? && WellFormed(r.value) && (!options.allowSparse ==> HoleFree(r.value))
    {
      ParseResult(options.Config(), options.decoder, interpret, toChar, content);
      if content.None? || content.value == "" {
        return Ok(Dict([]));
      }
      var tmp := ParseValues(content.value, interpret, toChar);
      if tmp.Err? {
        return Err(tmp.error);
      }
      var merged := MergeAll(tmp.value);
      if merged.Err? || options.allowSparse {
        return merged;
      }
      ParseValuesFlat(options.Config(), options.decoder, interpret, toChar, content.value);
      MergeFromDict(options.Config(), tmp.value, 0, Dict([]));
      var compacted := ValueOps.CompactValue(merged.value);
      return Ok(compacted);
    }

    /** The loop of `parse`: each flat entry nested by `parseKeys` and merged into the result. */
    method MergeAll(entries: seq<(Key, Value)>) returns (r: Result<Value>)
      ensures r == MergeFrom(options.Config(), entries, 0, Dict([]))
    {
      var cfg := options.Config();
      var obj := Dict([]);
      for i := 0 to |entries|
        invariant MergeFrom(cfg, entries, 0, Dict([])) == MergeFrom(cfg, entries, i, obj)
      {
        var newObj := ParseKeys(entries[i].0, entries[i].1);
        if newObj.Err? {
          return Err(newObj.error);
        }
        var merged := ValueOps.MergeValue(obj, Some(newObj.value));
        if merged.Err? {
          return Err(merged.error);
        }
        obj := merged.value;
      }
      return Ok(obj);
    }

    /** `parseKeys(key, value)`: the key split into its chain of segments, then `parseObject`. */
    method ParseKeys(dictKey: Key, value: Value) returns (r: Result<Value>)
      ensures r == KeyPaths.ParseKeys(options.Config(), dictKey, value)
    {
      var key := KeyText(dictKey);
      if options.allowDots {
        key := RewriteDots(key);
      }
      var keys := SplitChain(key);
      r := ParseObject(keys, value);
    }

    /**
     * The middle of `parseKeys`: the parent before the first `[`, the bracketed segments the loop
     * takes (at most `depth`), and what is left wrapped in brackets. (`indexOf` of a one-character
     * string is Find, by FindIsIndexOf, and `contains` is `in`, by IndexOfChar.)
     */
    method SplitChain(key: string) returns (keys: seq<string>)
      ensures keys == KeyChain(key, options.depth)
    {
      var depth := options.depth;
      var idx := if depth == 0 then -1 else Find(key, '[');
      var parent := if idx != -1 then key[..idx] else key;
      var rest: Option<string> := if idx != -1 then Some(key[idx..]) else None;
      keys := [];
      if parent != "" {
        keys := keys + [parent];
      }
      ghost var p := KeyParts(key, [], "");
      if rest.Some? {
        var segments, left := TakeSegments(rest.value);
        keys := keys + segments;
        rest := Some(left);
        p := KeyParts(parent, segments, left);
      }
      assert SplitKey(key, depth) == p;
      assert keys == (if p.parent != "" then [p.parent] else []) + p.segments;
      if rest.Some? && rest.value != "" {
        keys := keys + ["[" + rest.value + "]"];
      }
      assert keys == Chain(p);
    }

    /**
     * The segment loop of `parseKeys`: while `rest` starts with `[`, holds a `]` and fewer than
     * `depth` segments were taken, the text up to the first `]` is one more segment.
     */
    method TakeSegments(rest0: string) returns (segments: seq<string>, rest: string)
      ensures (segments, rest) == Segments(rest0, 0, options.depth)
    {
      var depth := options.depth;
      segments, rest := [], rest0;
      var i := 0;
      assert segments + Segments(rest, i, depth).0 == Segments(rest, i, depth).0;
      while StartsWith(rest, "[") && ']' in rest && i < depth
        invariant i == |segments|
        invariant var s := Segments(rest, i, depth); Segments(rest0, 0, depth) == (segments + s.0, s.1)
        decreases |rest|
      {
        var closeIdx := Find(rest, ']');
        var segment := rest[..closeIdx + 1];
        ghost var next := Segments(rest[closeIdx + 1..], i + 1, depth);
        assert Segments(rest, i, depth) == ([segment] + next.0, next.1);
        assert segments + ([segment] + next.0) == segments + [segment] + next.0;
        segments := segments + [segment];
        rest := rest[closeIdx + 1..];
        i := i + 1;
      }
      assert Segments(rest, i, depth) == ([], rest);
      assert segments + [] == segments;
    }

    /**
     * `parseObject(chain, value)`: each segment is classified as the loop body's branches
     * decide (Classify, a pure function of the segment and the options), then Nest builds the
     * value from the last segment back to the first.
     */
    method ParseObject(chain: seq<string>, value: Value) returns (r: Result<Value>)
      ensures r == KeyPaths.ParseObject(options.Config(), chain, value)
    {
      var placements := Placements(options.Config(), chain);
      r := Nest(placements, value);
    }

    /**
     * The loop of `parseObject`: from the last placement back to the first, the value built so
     * far is put into a new array or dictionary; the first failure ends the loop.
     */
    method Nest(placements: seq<Placement>, value: Value) returns (r: Result<Value>)
      ensures r == Build(placements, |placements|, value)
    {
      var leaf := value;
      var i := |placements| - 1;
      while i >= 0
        invariant -1 <= i < |placements|
        invariant Build(placements, |placements|, value) == Build(placements, i + 1, leaf)
      {
        var wrapped := Place(placements[i], leaf);
        if wrapped.Err? {
          return wrapped;
        }
        leaf := wrapped.value;
        i := i - 1;
      }
      return Ok(leaf);
    }

    /** `rewriteDots(key)`: while a dot is left, one round of DotRound. */
    method RewriteDots(key: string) returns (r: string)
      ensures r == KeyPaths.RewriteDots(key)
    {
      r := key;
      while '.' in r
        invariant KeyPaths.RewriteDots(r) == KeyPaths.RewriteDots(key)
        decreases DotCount(r)
      {
        r := DotRound(r);
      }
    }

    /**
     * The loop body of `rewriteDots`: the first dot becomes `[`, and `]` goes before the next `[`
     * or `.` after it, or at the end when there is neither.
     */
    method DotRound(key: string) returns (next: string)
      requires '.' in key
      ensures next == DotStep(key)
    {
      var idx := Find(key, '.');
      var left := key[..idx];
      var right := key[idx + 1..];
      var idx1 := Find(right, '[');
      var idx2 := Find(right, '.');
      var till: nat;
      if idx1 == -1 && idx2 == -1 {
        till := |right|;
        next := left + "[" + right + "]";
        assert right[..till] == right && right[till..] == "";
      } else {
        till := if idx1 == -1 then idx2 else if idx2 == -1 then idx1 else if idx1 < idx2 then idx1 else idx2;
        var prop := right[..till];
        var rest := right[till..];
        next := left + "[" + prop + "]" + rest;
      }
      assert next == Bracketed(key, idx, till);
      assert till == CloseAt(right);
    }

    /**
     * `parseValues(content)`: the flat dictionary of decoded keys and values, a repeated key
     * collecting its values into an array. The helpers below get the settings as `cfg`, read
     * once from `options`, which nothing changes while the parser runs.
     */
    method ParseValues(content: string, interpret: bool, toChar: int -> char) returns (r: Result<seq<(Key, Value)>>)
      ensures r == ParserSpec.ParseValues(options.Config(), options.decoder, interpret, toChar, content)
    {
      var cfg := options.Config();
      var split := SplitParts(cfg, content);
      if split.Err? {
        return Err(split.error);
      }
      var parts := split.value;
      var charset := cfg.charset;
      var decoder := options.decoder;
      if cfg.charsetSentinel {
        var newCharset := FindCharsetSentinel(parts);
        if newCharset.Some? {
          charset := newCharset.value;
        }
      }
      r := CollectValues(cfg, parts, Decoding(decoder, charset, interpret, toChar));
    }

    /**
     * The start of `parseValues`: the `?` prefix dropped if asked, the split at the delimiter and
     * the copy of the first `parameterLimit` parts.
     */
    method SplitParts(cfg: ParserConfig, content: string) returns (r: Result<seq<string>>)
      ensures r == Parts(cfg, content)
    {
      var text := if cfg.ignoreQueryPrefix && StartsWith(content, "?") then content[1..] else content;
      var parts := Split(text, cfg.delimiter);
      if |parts| > cfg.parameterLimit {
        if cfg.parameterLimit < 0 {
          // `new String[parameterLimit]`
          return Err(NegativeArraySize);
        }
        parts := parts[..cfg.parameterLimit];
      }
      return Ok(parts);
    }

    /** The loop of `parseValues`: every part recorded into a new dictionary. */
    method CollectValues(cfg: ParserConfig, parts: seq<string>, d: Decoding) returns (r: Result<seq<(Key, Value)>>)
      ensures r == ValuesFrom(cfg, d, parts, 0, [])
    {
      var root := new MutableDict();
      for i := 0 to |parts|
        invariant ValuesFrom(cfg, d, parts, 0, []) == ValuesFrom(cfg, d, parts, i, root.entries)
      {
        var err := AddPart(cfg, root, parts[i], d);
        if err.Some? {
          return Err(err.value);
        }
      }
      return Ok(root.entries);
    }

    /**
     * One round of the loop of `parseValues`: a sentinel or blank part is skipped; otherwise its
     * key and value are decoded, numeric entities interpreted if asked, and the value recorded.
     */
    method AddPart(cfg: ParserConfig, root: MutableDict, part: string, d: Decoding) returns (err: Option<Failure>)
      modifies root
      ensures Step(cfg, d, old(root.entries), part) == if err.Some? then Err(err.value) else Ok(root.entries)
    {
      if IsCharsetSentinel(part) || IsBlank(part) {
        return None;
      }
      var e := PartValue(cfg, part, d);
      var val := e.1;
      if d.interpretNumericEntities && d.charset == Iso88591 {
        var n := InterpretAsNumeric(val, d.toChar);
        if n.Err? {
          return Some(n.error);
        }
        val := n.value;
      }
      var strKey := SKey(e.0);
      if root.ContainsKey(strKey) {
        root.Put(strKey, ConcatArray(root.Get(strKey), Some(val)));
      } else {
        root.Put(strKey, val);
      }
      return None;
    }

    /**
     * The loop body of `parseValues` up to the numeric entities: the decoded key and value of one
     * part, split after the first `]=` or else at the first `=`.
     */
    method PartValue(cfg: ParserConfig, part: string, d: Decoding) returns (e: (string, Value))
      ensures e == PartEntry(cfg, d, part)
    {
      var bracketEqualsPos := IndexOf(part, "]=");
      var pos := if bracketEqualsPos == -1 then Find(part, '=') else bracketEqualsPos + 1;
      assert pos == SplitPoint(part);
      SplitPointIsEquals(part);
      if pos == -1 {
        e := (d.decoder(part, d.charset, KeyContent), if cfg.strictNullHandling then Null else Str(""));
      } else {
        var key := d.decoder(part[..pos], d.charset, KeyContent);
        var plain := part[pos + 1..];
        if cfg.comma && ',' in plain {
          var val := DecodeTokens(plain, d);
          e := (key, val);
        } else {
          e := (key, Str(d.decoder(plain, d.charset, ValueContent)));
        }
      }
    }

    /** A value with commas under `comma`: the tokens decoded one by one into a new array. */
    method DecodeTokens(plain: string, d: Decoding) returns (val: Value)
      ensures val == CommaArray(d, plain)
    {
      var tokens := Split(plain, ",");
      var newTokens := new Option<Value>[|tokens|];
      for j := 0 to |tokens|
        invariant forall k :: 0 <= k < j ==> newTokens[k] == Some(Str(d.decoder(tokens[k], d.charset, ValueContent)))
      {
        newTokens[j] := Some(Str(d.decoder(tokens[j], d.charset, ValueContent)));
      }
      assert newTokens[..] == CommaArray(d, plain).slots;
      val := Array(newTokens[..]);
    }

    /**
     * `findCharsetSentinel(parts)`: the charset of the first part that is one of the two
     * sentinels, or None.
     */
    method FindCharsetSentinel(parts: seq<string>) returns (r: Option<Charset>)
      ensures r == SentinelCharset(parts)
    {
      for i := 0 to |parts|
        invariant SentinelCharset(parts) == SentinelCharset(parts[i..])
      {
        var part := parts[i];
        assert parts[i..][1..] == parts[i + 1..];
        if IsCharsetSentinel(part) {
          if part == UTF8_SENTINEL {
            return Some(Utf8);
          } else if part == ISO_SENTINEL {
            return Some(Iso88591);
          }
        }
      }
      return None;
    }
  }
}
