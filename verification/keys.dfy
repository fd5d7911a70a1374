/**
 * The key side of the parser as specifications: the dot rewriting of `rewriteDots`, the
 * segmentation of `parseKeys` and the backward fold of `parseObject` that turns a chain of
 * segments into nested dictionaries and arrays.
 */
module KeyPaths {
  import opened Wrappers
  import opened Text
  import opened Scalars
  import opened Values
  import opened Options

  // ---------------------------------------------------------------------------------------
  // rewriteDots

  function DotCount(s: string): nat {
    multiset(s)['.']
  }

  /** The text `rewriteDots` makes of `key` in one round: the dot at `idx` becomes `[`, and `]`
   * goes `till` characters after it. */
  function Bracketed(key: string, idx: nat, till: nat): string
    requires idx < |key| && idx + 1 + till <= |key|
  {
    key[..idx] + "[" + key[idx + 1..][..till] + "]" + key[idx + 1..][till..]
  }

  /**
   * Replacing a dot by `[` and inserting `]` anywhere after it adds one character, takes one dot
   * away, adds one `[` and one `]`, and keeps every other character.
   */
  lemma BracketCounts(key: string, idx: nat, till: nat)
    requires idx < |key| && key[idx] == '.' && idx + 1 + till <= |key|
    ensures var r := Bracketed(key, idx, till);
            && |r| == |key| + 1
            && multiset(r)['.'] + 1 == multiset(key)['.']
            && multiset(r)['['] == multiset(key)['['] + 1
            && multiset(r)[']'] == multiset(key)[']'] + 1
            && forall c :: c != '.' && c != '[' && c != ']' ==> multiset(r)[c] == multiset(key)[c]
  {
    var left, p, q := key[..idx], key[idx + 1..][..till], key[idx + 1..][till..];
    assert key == left + "." + p + q;
    var r := Bracketed(key, idx, till);
    assert multiset(r) == multiset(left) + multiset{'['} + multiset(p) + multiset{']'} + multiset(q);
    assert multiset(key) == multiset(left) + multiset{'.'} + multiset(p) + multiset(q);
  }

  /**
   * Where the loop of `rewriteDots` closes the bracket: before the first `[` or `.`, or at the
   * end. (`indexOf` of a one-character string is Find, by FindIsIndexOf.)
   */
  function CloseAt(right: string): (t: nat)
    ensures t <= |right|
  {
    var idx1 := Find(right, '[');
    var idx2 := Find(right, '.');
    if idx1 == -1 && idx2 == -1 then |right|
    else if idx1 == -1 then idx2
    else if idx2 == -1 then idx1
    else if idx1 < idx2 then idx1 else idx2
  }

  /**
   * One round of the loop of `rewriteDots`: the first dot becomes `[`, and `]` goes before the
   * next `[` or `.` after it, or at the end when there is neither (where CloseAt gives the length
   * of the text after the dot, so that both branches of the loop body are this one expression).
   * Each round takes one dot away.
   */
  function DotStep(key: string): (r: string)
    requires '.' in key
    ensures DotCount(r) + 1 == DotCount(key)
  {
    var idx := Find(key, '.');
    var till := CloseAt(key[idx + 1..]);
    BracketCounts(key, idx, till);
    Bracketed(key, idx, till)
  }

  /** A round adds one character, one `[` and one `]`, and keeps every other character. */
  lemma DotStepCounts(key: string)
    requires '.' in key
    ensures var r := DotStep(key);
            && |r| == |key| + 1
            && multiset(r)['['] == multiset(key)['['] + 1
            && multiset(r)[']'] == multiset(key)[']'] + 1
            && forall c :: c != '.' && c != '[' && c != ']' ==> multiset(r)[c] == multiset(key)[c]
  {
    var idx := Find(key, '.');
    BracketCounts(key, idx, CloseAt(key[idx + 1..]));
  }

  /**
   * `rewriteDots`: the dots are rewritten one at a time until none is left; a key without a dot
   * comes back unchanged.
   */
  function RewriteDots(key: string): (r: string)
    ensures '.' !in r
    ensures '.' !in key ==> r == key
    decreases DotCount(key)
  {
    if '.' in key then RewriteDots(DotStep(key)) else key
  }

  /**
   * Every dot turns into a `[` and adds one `]`, so the result is as many characters longer as
   * the key had dots, and every other character is kept.
   */
  lemma {:induction false} RewriteDotsCounts(key: string)
    ensures var r := RewriteDots(key);
            && |r| == |key| + DotCount(key)
            && multiset(r)['['] == multiset(key)['['] + DotCount(key)
            && multiset(r)[']'] == multiset(key)[']'] + DotCount(key)
            && forall c :: c != '.' && c != '[' && c != ']' ==> multiset(r)[c] == multiset(key)[c]
    decreases DotCount(key)
  {
    if '.' in key {
      DotStepCounts(key);
      RewriteDotsCounts(DotStep(key));
    } else {
      assert DotCount(key) == 0;
    }
  }

  // ---------------------------------------------------------------------------------------
  // parseKeys

  /** A bracketed segment `[...]`: it closes at its only `]`. */
  predicate IsSegment(s: string) {
    |s| >= 2 && s[0] == '[' && Find(s, ']') == |s| - 1
  }

  predicate AllSegments(segs: seq<string>) {
    forall j :: 0 <= j < |segs| ==> IsSegment(segs[j])
  }

  /** The condition of the segment loop of `parseKeys`. */
  predicate TakesSegment(rest: string, i: int, depth: int) {
    rest != "" && rest[0] == '[' && ']' in rest && i < depth
  }

  /** The first segment of `rest`: the text up to and including its first `]`. */
  lemma FirstSegment(rest: string)
    requires rest != "" && rest[0] == '[' && ']' in rest
    ensures var close := Find(rest, ']');
            && 1 <= close < |rest|
            && IsSegment(rest[..close + 1])
            && rest == rest[..close + 1] + rest[close + 1..]
  {
    var close := Find(rest, ']');
    var segment := rest[..close + 1];
    assert segment[..close] == rest[..close];
    FindAt(segment, ']', close);
  }

  lemma AppendAssoc(x: string, y: string, z: string)
    ensures x + y + z == x + (y + z)
  {
  }

  /**
   * The segment loop of `parseKeys` from round `i` on: while `rest` opens a bracket that closes
   * and fewer than `depth` segments were taken, the text up to the first `]` is one more segment.
   * Returns the segments and what is left.
   */
  function Segments(rest: string, i: int, depth: int): (r: (seq<string>, string))
    decreases |rest|
  {
    if TakesSegment(rest, i, depth) then
      var close := Find(rest, ']');
      var next := Segments(rest[close + 1..], i + 1, depth);
      ([rest[..close + 1]] + next.0, next.1)
    else ([], rest)
  }

  /** Nothing is lost: the segments and the remainder spell `rest`. */
  lemma {:induction false} SegmentsSpell(rest: string, i: int, depth: int)
    ensures var r := Segments(rest, i, depth); Concat(r.0) + r.1 == rest
    decreases |rest|
  {
    if TakesSegment(rest, i, depth) {
      FirstSegment(rest);
      var close := Find(rest, ']');
      var segment := rest[..close + 1];
      var next := Segments(rest[close + 1..], i + 1, depth);
      SegmentsSpell(rest[close + 1..], i + 1, depth);
      assert ([segment] + next.0)[1..] == next.0;
      assert Concat([segment] + next.0) == segment + Concat(next.0);
      AppendAssoc(segment, Concat(next.0), next.1);
    }
  }

  /** Every segment is bracketed and closes at its only `]`. */
  lemma {:induction false} SegmentsBracketed(rest: string, i: int, depth: int)
    ensures AllSegments(Segments(rest, i, depth).0)
    decreases |rest|
  {
    if TakesSegment(rest, i, depth) {
      FirstSegment(rest);
      var close := Find(rest, ']');
      SegmentsBracketed(rest[close + 1..], i + 1, depth);
      var next := Segments(rest[close + 1..], i + 1, depth);
      var segs := [rest[..close + 1]] + next.0;
      forall j | 0 <= j < |segs|
        ensures IsSegment(segs[j])
      {
        if j == 0 {
          assert segs[0] == rest[..close + 1];
        } else {
          assert segs[j] == next.0[j - 1];
        }
      }
    }
  }

  /** At most `depth - i` segments are taken, and the loop stops only when its condition fails. */
  lemma {:induction false} SegmentsStop(rest: string, i: int, depth: int)
    ensures var r := Segments(rest, i, depth);
            && |r.0| <= (if depth - i > 0 then depth - i else 0)
            && !TakesSegment(r.1, i + |r.0|, depth)
    decreases |rest|
  {
    if TakesSegment(rest, i, depth) {
      FirstSegment(rest);
      var close := Find(rest, ']');
      SegmentsStop(rest[close + 1..], i + 1, depth);
    }
  }

  /**
   * The pieces of a key: the text before the first `[` (the whole key when `depth` is 0 or there
   * is no `[`), the bracketed segments, and the remainder the segment loop left.
   */
  datatype KeyParts = KeyParts(parent: string, segments: seq<string>, rest: string)

  function SplitKey(key: string, depth: int): (p: KeyParts)
    ensures depth != 0 ==> '[' !in p.parent
    ensures depth != 0 && '[' in key ==> |p.parent| < |key| && key[..|p.parent|] == p.parent && key[|p.parent|] == '['
    ensures depth == 0 || '[' !in key ==> p == KeyParts(key, [], "")
  {
    if depth == 0 || '[' !in key then KeyParts(key, [], "")
    else
      var idx := Find(key, '[');
      var next := Segments(key[idx..], 0, depth);
      KeyParts(key[..idx], next.0, next.1)
  }

  /** The parts spell the key. */
  lemma SplitKeySpells(key: string, depth: int)
    ensures var p := SplitKey(key, depth); p.parent + Concat(p.segments) + p.rest == key
  {
    if depth == 0 || '[' !in key {
      assert Concat([]) == "";
      assert key + "" + "" == key;
    } else {
      var idx := Find(key, '[');
      var next := Segments(key[idx..], 0, depth);
      assert SplitKey(key, depth) == KeyParts(key[..idx], next.0, next.1);
      calc {
        key[..idx] + Concat(next.0) + next.1;
      == { AppendAssoc(key[..idx], Concat(next.0), next.1); }
        key[..idx] + (Concat(next.0) + next.1);
      == { SegmentsSpell(key[idx..], 0, depth); }
        key[..idx] + key[idx..];
      == { assert key == key[..idx] + key[idx..]; }
        key;
      }
    }
  }

  /**
   * Every segment is bracketed, at most `depth` are taken, and a remainder is one the segment
   * loop could not take further.
   */
  lemma SplitKeySegments(key: string, depth: int)
    ensures var p := SplitKey(key, depth);
            && AllSegments(p.segments)
            && |p.segments| <= (if depth > 0 then depth else 0)
            && (p.rest != "" ==> !TakesSegment(p.rest, |p.segments|, depth))
  {
    if depth != 0 && '[' in key {
      var idx := Find(key, '[');
      SegmentsBracketed(key[idx..], 0, depth);
      SegmentsStop(key[idx..], 0, depth);
    }
  }

  /**
   * The chain `parseKeys` hands to `parseObject`: the parent unless empty, the segments, and a
   * non-empty remainder wrapped in one more pair of brackets.
   */
  function KeyChain(key: string, depth: int): (chain: seq<string>)
    ensures depth == 0 ==> chain == if key == "" then [] else [key]
  {
    Chain(SplitKey(key, depth))
  }

  function Chain(p: KeyParts): seq<string> {
    (if p.parent != "" then [p.parent] else []) + p.segments + (if p.rest != "" then ["[" + p.rest + "]"] else [])
  }

  /** The chain spells out the parts, the remainder wrapped in brackets. */
  lemma ChainSpellsParts(p: KeyParts)
    ensures Concat(Chain(p)) == p.parent + Concat(p.segments) + (if p.rest != "" then "[" + p.rest + "]" else "")
  {
    var head: seq<string> := if p.parent != "" then [p.parent] else [];
    var tail: seq<string> := if p.rest != "" then ["[" + p.rest + "]"] else [];
    ConcatAppend(head + p.segments, tail);
    ConcatAppend(head, p.segments);
    assert Concat(head) == p.parent by {
      if p.parent != "" {
        assert Concat(head) == p.parent + Concat([]);
      }
    }
    assert Concat(tail) == if p.rest != "" then "[" + p.rest + "]" else "" by {
      if p.rest != "" {
        assert Concat(tail) == "[" + p.rest + "]" + Concat([]);
      }
    }
  }

  // ---------------------------------------------------------------------------------------
  // parseObject

  /** The content of a bracketed root, or the root itself. */
  function CleanRoot(root: string): (c: string)
    ensures StartsWith(root, "[") && EndsWith(root, "]") ==> root == "[" + c + "]"
    ensures !(StartsWith(root, "[") && EndsWith(root, "]")) ==> c == root
  {
    if StartsWith(root, "[") && EndsWith(root, "]") then
      assert root[0] == '[' && root[|root| - 1] == ']';
      root[1..|root| - 1]
    else root
  }

  /**
   * The rule that makes an index array: a bracketed root whose content is the canonical decimal
   * form of an `int` between 0 and `arrayLimit`, with `parseArrays` on.
   */
  predicate IndexRule(cfg: ParserConfig, root: string) {
    var clean := CleanRoot(root);
    && IsCanonicalInt(clean)
    && root != clean
    && 0 <= ParseInt(clean).value
    && cfg.parseArrays
    && ParseInt(clean).value <= cfg.arrayLimit
  }

  /** Where one round of the loop of `parseObject` puts the value built so far. */
  datatype Placement =
    | Append                    // `[]`: a one-element array, or the array itself
    | ZeroKey                   // an empty content without `parseArrays`: key 0
    | AtIndex(index: nat)       // `new ArrayValue(index, leaf)`
    | TooLarge                  // `new ArrayValue(Integer.MAX_VALUE, leaf)`, whose size overflows
    | IntKey(n: int)            // an Int key
    | StringKey(name: string)   // a String key

  /**
   * The branches of the loop body of `parseObject`, in their order: `[]` with `parseArrays`;
   * an empty content without `parseArrays`; the index rule; a canonical integer with
   * `parseIntKeys`; anything else.
   */
  function Classify(cfg: ParserConfig, root: string): Placement
  {
    if root == "[]" && cfg.parseArrays then Append
    else
      var clean := CleanRoot(root);
      var index := ParseInt(clean);
      if !cfg.parseArrays && clean == "" then ZeroKey
      else if index.Some? && root != clean && DecimalString(index.value) == clean && index.value >= 0 &&
              cfg.parseArrays && index.value <= cfg.arrayLimit then
        if index.value == INT_MAX then TooLarge else AtIndex(index.value)
      else if cfg.parseIntKeys && index.Some? && DecimalString(index.value) == clean then IntKey(index.value)
      else StringKey(clean)
  }

  /** The placement Classify gives each segment of the chain, in order. */
  function Placements(cfg: ParserConfig, chain: seq<string>): (ks: seq<Placement>)
    ensures |ks| == |chain|
  {
    seq(|chain|, i requires 0 <= i < |chain| => Classify(cfg, chain[i]))
  }

  /** One round of the loop of `parseObject`: the value a placement makes of `leaf`. */
  function Place(k: Placement, leaf: Value): Result<Value> {
    match k
    case Append => Ok(if leaf.Array? then leaf else Array([Some(leaf)]))
    case ZeroKey => Ok(Dict([(IKey(0), leaf)]))
    case AtIndex(index) => Ok(IndexArray(index, Some(leaf)))
    case TooLarge => Err(NegativeArraySize)
    case IntKey(n) => Ok(Dict([(IKey(n), leaf)]))
    case StringKey(name) => Ok(Dict([(SKey(name), leaf)]))
  }

  /** Which branch of `parseObject` a root takes, stated rule by rule. */
  lemma ClassifyRules(cfg: ParserConfig, root: string)
    ensures var k := Classify(cfg, root);
            && (k.Append? <==> root == "[]" && cfg.parseArrays)
            && (k.ZeroKey? <==> !(root == "[]" && cfg.parseArrays) && !cfg.parseArrays && CleanRoot(root) == "")
            && (k.TooLarge? <==> IndexRule(cfg, root) && ParseInt(CleanRoot(root)).value == INT_MAX)
            && (k.AtIndex? <==> IndexRule(cfg, root) && ParseInt(CleanRoot(root)).value < INT_MAX)
            && (k.AtIndex? ==> k.index <= cfg.arrayLimit && root == "[" + DecimalString(k.index) + "]")
            && (k.IntKey? <==>
                  !IndexRule(cfg, root) && cfg.parseIntKeys && IsCanonicalInt(CleanRoot(root)) &&
                  !(!cfg.parseArrays && CleanRoot(root) == ""))
            && (k.IntKey? ==> DecimalString(k.n) == CleanRoot(root) && IsInt32(k.n))
            && (k.StringKey? ==> k.name == CleanRoot(root))
  {
  }

  /** With a negative `arrayLimit` no segment ever makes an index array. */
  lemma NegativeLimitNoIndex(cfg: ParserConfig, root: string)
    requires cfg.arrayLimit < 0
    ensures !Classify(cfg, root).AtIndex? && !Classify(cfg, root).TooLarge?
  {
    ClassifyRules(cfg, root);
  }

  /**
   * A bracketed `int` above `arrayLimit` (or a negative one) is a dictionary key: an Int key when
   * `parseIntKeys` is on, as `a[21]` with the default limit of 20.
   */
  lemma OverLimitIntKey(cfg: ParserConfig, n: int)
    requires IsInt32(n) && (n > cfg.arrayLimit || n < 0) && cfg.parseIntKeys
    ensures Classify(cfg, "[" + DecimalString(n) + "]") == IntKey(n)
  {
    var root := "[" + DecimalString(n) + "]";
    assert StartsWith(root, "[") && EndsWith(root, "]");
    assert root[1..|root| - 1] == DecimalString(n);
    ParseDecimalString(n);
  }

  /**
   * Every placement holds `leaf`: the Append array as its last element (or is `leaf` itself when
   * already an array), an index array in slot `index` with holes before it, and a dictionary as
   * its one entry; only TooLarge fails.
   */
  lemma PlaceHoldsLeaf(k: Placement, leaf: Value)
    ensures var r := Place(k, leaf);
            && (r.Err? <==> k.TooLarge?)
            && (r.Err? ==> r.error == NegativeArraySize)
            && (r.Ok? && r.value.Array? <==> k.Append? || k.AtIndex?)
            && (k.Append? ==> r == Ok(if leaf.Array? then leaf else Array([Some(leaf)])))
            && (k.AtIndex? ==>
                  && |r.value.slots| == k.index + 1 && r.value.slots[k.index] == Some(leaf)
                  && forall j :: 0 <= j < k.index ==> r.value.slots[j].None?)
            && (r.Ok? && !r.value.Array? ==>
                  && r.value.Dict? && |r.value.entries| == 1 && r.value.entries[0].1 == leaf
                  && r.value.entries[0].0 == match k
                                            case IntKey(n) => IKey(n)
                                            case StringKey(name) => SKey(name)
                                            case _ => IKey(0))
  {
  }

  /**
   * The loop of `parseObject` over the first `n` placements, from the last back to the first.
   * The nesting it builds keeps the dictionaries well-formed.
   */
  function Build(ks: seq<Placement>, n: nat, leaf: Value): (r: Result<Value>)
    requires n <= |ks|
    ensures n == 0 ==> r == Ok(leaf)
    ensures r.Ok? && WellFormed(leaf) ==> WellFormed(r.value)
  {
    if n == 0 then Ok(leaf)
    else
      PlaceWellFormed(ks[n - 1], leaf);
      match Place(ks[n - 1], leaf)
      case Err(e) => Err(e)
      case Ok(wrapped) => Build(ks, n - 1, wrapped)
  }

  /** `parseObject(chain, value)`: each segment classified, then the nesting built. */
  function ParseObject(cfg: ParserConfig, chain: seq<string>, value: Value): Result<Value> {
    Build(Placements(cfg, chain), |chain|, value)
  }

  /** `parseKeys(key, value)`: the text of the key, dots rewritten if asked, split and built. */
  function ParseKeys(cfg: ParserConfig, key: Key, value: Value): Result<Value> {
    var text := if cfg.allowDots then RewriteDots(KeyText(key)) else KeyText(key);
    ParseObject(cfg, KeyChain(text, cfg.depth), value)
  }

  // ---------------------------------------------------------------------------------------
  // Properties

  lemma {:induction false} ConcatAppend(a: seq<string>, b: seq<string>)
    ensures Concat(a + b) == Concat(a) + Concat(b)
  {
    if a == [] {
      assert a + b == b;
    } else {
      assert (a + b)[1..] == a[1..] + b;
      ConcatAppend(a[1..], b);
      assert Concat(a + b) == a[0] + (Concat(a[1..]) + Concat(b));
    }
  }

  /**
   * Nothing of the key is lost: the chain spells the key out, except that a remainder the
   * segment loop left is wrapped in one more pair of brackets.
   */
  lemma KeyChainSpellsKey(key: string, depth: int)
    ensures var p := SplitKey(key, depth);
            && (p.rest == "" ==> Concat(KeyChain(key, depth)) == key)
            && |p.rest| <= |key|
            && (p.rest != "" ==> Concat(KeyChain(key, depth)) == key[..|key| - |p.rest|] + "[" + p.rest + "]")
  {
    var p := SplitKey(key, depth);
    SplitKeySpells(key, depth);
    ChainSpellsParts(p);
    var front := p.parent + Concat(p.segments);
    assert key == front + p.rest;
    assert key[..|key| - |p.rest|] == front;
  }

  /** The chain holds the parent, at most `depth` bracketed segments and at most one remainder. */
  lemma KeyChainLength(key: string, depth: int)
    ensures |KeyChain(key, depth)| <= 2 + (if depth > 0 then depth else 0)
  {
    var p := SplitKey(key, depth);
    SplitKeySegments(key, depth);
    assert |Chain(p)| <= 1 + |p.segments| + 1;
  }

  /** Placing a well-formed value gives a well-formed value. */
  lemma PlaceWellFormed(k: Placement, leaf: Value)
    ensures WellFormed(leaf) && Place(k, leaf).Ok? ==> WellFormed(Place(k, leaf).value)
  {
    if WellFormed(leaf) && k.AtIndex? {
      var slots := IndexArray(k.index, Some(leaf)).slots;
      assert forall j :: 0 <= j < |slots| && slots[j].Some? ==> slots[j].value == leaf;
    }
  }

  /** The one round of `rewriteDots` on `a.b`, with no `[` or `.` after the dot. */
  lemma DotStepOne(a: string, b: string)
    requires '.' !in a && '.' !in b && '[' !in b
    ensures '.' in a + "." + b && DotStep(a + "." + b) == a + "[" + b + "]"
  {
    var key := a + "." + b;
    assert key[..|a|] == a && key[|a| + 1..] == b;
    FindAt(key, '.', |a|);
    assert b[..|b|] == b && b[|b|..] == "";
  }

  /**
   * A single dot followed by a plain name becomes a bracketed name: `a.b` is read as `a[b]`.
   * For example `foo[0].baz` is read as `foo[0][baz]`.
   */
  lemma RewriteOneDot(a: string, b: string)
    requires '.' !in a && '.' !in b && '[' !in b
    ensures RewriteDots(a + "." + b) == a + "[" + b + "]"
  {
    DotStepOne(a, b);
    var step := a + "[" + b + "]";
    assert '.' !in step;
    assert RewriteDots(a + "." + b) == RewriteDots(step);
  }

  /** With depth 1 the segment loop takes the first segment and stops. */
  lemma SegmentsDepthOne(inner: string, rest: string)
    requires ']' !in inner
    ensures Segments("[" + inner + "]" + rest, 0, 1) == (["[" + inner + "]"], rest)
  {
    var segment := "[" + inner + "]";
    var tail := segment + rest;
    assert tail[..|inner| + 1] == "[" + inner;
    FindAt(tail, ']', |inner| + 1);
    assert tail[..|inner| + 2] == segment && tail[|inner| + 2..] == rest;
    assert TakesSegment(tail, 0, 1) by {
      assert tail[0] == '[' && tail[|inner| + 1] == ']';
    }
    assert Segments(rest, 1, 1) == ([], rest);
    assert Segments(tail, 0, 1) == ([segment] + [], rest);
    assert [segment] + [] == [segment];
  }

  /**
   * With depth 1 only the first segment is split off, and what follows stays one key wrapped
   * in brackets. For example `a[b][c][d]` splits into `a`, `[b]` and `[[c][d]]`.
   */
  lemma KeyChainDepthOne(parent: string, inner: string, rest: string)
    requires parent != "" && '[' !in parent && ']' !in inner && rest != ""
    ensures KeyChain(parent + "[" + inner + "]" + rest, 1) == [parent, "[" + inner + "]", "[" + rest + "]"]
  {
    var segment := "[" + inner + "]";
    SplitKeyDepthOne(parent, inner, rest);
    assert Chain(KeyParts(parent, [segment], rest)) == [parent] + [segment] + ["[" + rest + "]"];
  }

  /** The parts of such a key at depth 1: the parent, the first segment, and the rest. */
  lemma SplitKeyDepthOne(parent: string, inner: string, rest: string)
    requires '[' !in parent && ']' !in inner
    ensures SplitKey(parent + "[" + inner + "]" + rest, 1) == KeyParts(parent, ["[" + inner + "]"], rest)
  {
    var key := parent + "[" + inner + "]" + rest;
    var segment := "[" + inner + "]";
    assert key[..|parent|] == parent && key[|parent|..] == segment + rest;
    FindAt(key, '[', |parent|);
    SegmentsDepthOne(inner, rest);
  }

  /** A lone bracketed segment is taken whole at any positive depth. */
  lemma SegmentsOne(inner: string, depth: int)
    requires ']' !in inner && depth > 0
    ensures Segments("[" + inner + "]", 0, depth) == (["[" + inner + "]"], "")
  {
    var segment := "[" + inner + "]";
    assert segment[..|inner| + 1] == "[" + inner;
    FindAt(segment, ']', |inner| + 1);
    assert TakesSegment(segment, 0, depth) by {
      assert segment[0] == '[' && segment[|inner| + 1] == ']';
    }
    assert segment[..|inner| + 2] == segment && segment[|inner| + 2..] == "";
    assert Segments("", 1, depth) == ([], "");
    assert Segments(segment, 0, depth) == ([segment] + [], "");
    assert [segment] + [] == [segment];
  }

  /** A key that ends with its one bracketed segment splits into the parent and that segment. */
  lemma SplitKeyOneSegment(parent: string, inner: string, depth: int)
    requires '[' !in parent && ']' !in inner && depth > 0
    ensures SplitKey(parent + "[" + inner + "]", depth) == KeyParts(parent, ["[" + inner + "]"], "")
  {
    var segment := "[" + inner + "]";
    var key := parent + segment;
    assert parent + "[" + inner + "]" == key;
    assert key[..|parent|] == parent && key[|parent|..] == segment;
    assert key[|parent|] == '[';
    FindAt(key, '[', |parent|);
    SegmentsOne(inner, depth);
    assert SplitKey(key, depth) == KeyParts(key[..|parent|], Segments(key[|parent|..], 0, depth).0, Segments(key[|parent|..], 0, depth).1);
  }

  /** A bracketed index within `arrayLimit` makes an index array at that index. */
  lemma ClassifyIndex(cfg: ParserConfig, n: int)
    requires cfg.parseArrays && 0 <= n <= cfg.arrayLimit && n < INT_MAX
    ensures Classify(cfg, "[" + DecimalString(n) + "]") == AtIndex(n)
  {
    var segment := "[" + DecimalString(n) + "]";
    assert StartsWith(segment, "[") && EndsWith(segment, "]");
    assert segment[1..|segment| - 1] == DecimalString(n);
    ParseDecimalString(n);
  }

  /** A name without brackets that is not read as an Int key is a String key. */
  lemma ClassifyName(cfg: ParserConfig, name: string)
    requires name != "" && '[' !in name && !(cfg.parseIntKeys && IsCanonicalInt(name)) && cfg.parseArrays
    ensures Classify(cfg, name) == StringKey(name)
  {
    assert name[0] != '[';
    assert CleanRoot(name) == name;
  }

  /** The chain of such a key is the name and the one segment, the dots step changing nothing. */
  lemma IndexedKeyChain(cfg: ParserConfig, name: string, digits: string)
    requires '[' !in name && '.' !in name && cfg.depth > 0
    requires forall j :: 0 <= j < |digits| ==> IsDigit(digits[j])
    ensures var key := name + "[" + digits + "]";
            && (if cfg.allowDots then RewriteDots(key) else key) == key
            && KeyChain(key, cfg.depth) == (if name != "" then [name] else []) + ["[" + digits + "]"]
  {
    var key := name + "[" + digits + "]";
    assert ']' !in digits && '.' !in digits;
    assert '.' !in key;
    SplitKeyOneSegment(name, digits, cfg.depth);
  }

  /** The nesting of the name and an index segment. */
  lemma ParseObjectIndexed(cfg: ParserConfig, name: string, n: int, v: Value)
    requires name != "" && '[' !in name && !(cfg.parseIntKeys && IsCanonicalInt(name))
    requires cfg.parseArrays && 0 <= n <= cfg.arrayLimit && n < INT_MAX
    ensures ParseObject(cfg, [name, "[" + DecimalString(n) + "]"], v) == Ok(Dict([(SKey(name), IndexArray(n, Some(v)))]))
  {
    var chain := [name, "[" + DecimalString(n) + "]"];
    ClassifyIndex(cfg, n);
    ClassifyName(cfg, name);
    var ks := Placements(cfg, chain);
    assert ks == [StringKey(name), AtIndex(n)];
    var arr := IndexArray(n, Some(v));
    assert Build(ks, 2, v) == Build(ks, 1, arr);
    assert Build(ks, 1, arr) == Build(ks, 0, Dict([(SKey(name), arr)]));
  }

  /**
   * A plain name followed by one bracketed index within `arrayLimit` nests the value as that
   * slot of an index array under the name: `a[1]=c` gives `{a: [null, c]}`.
   */
  lemma ParseKeysIndexed(cfg: ParserConfig, name: string, n: int, v: Value)
    requires name != "" && '[' !in name && '.' !in name && !(cfg.parseIntKeys && IsCanonicalInt(name))
    requires cfg.depth > 0 && cfg.parseArrays && 0 <= n <= cfg.arrayLimit && n < INT_MAX
    ensures ParseKeys(cfg, SKey(name + "[" + DecimalString(n) + "]"), v) == Ok(Dict([(SKey(name), IndexArray(n, Some(v)))]))
  {
    var digits := DecimalString(n);
    var key := name + "[" + digits + "]";
    assert forall j :: 0 <= j < |digits| ==> IsDigit(digits[j]);
    IndexedKeyChain(cfg, name, digits);
    var chain := [name, "[" + digits + "]"];
    assert KeyText(SKey(key)) == key;
    assert KeyChain(key, cfg.depth) == chain;
    assert ParseKeys(cfg, SKey(key), v) == ParseObject(cfg, KeyChain(key, cfg.depth), v);
    ParseObjectIndexed(cfg, name, n, v);
  }
}
