/** The java.lang.String operations the parser and builder rely on, over `seq<char>`. */
module Text {

  /** `p` occurs in `s` starting at position `j`. */
  predicate OccursAt(s: string, p: string, j: int) {
    0 <= j && j + |p| <= |s| && s[j..j + |p|] == p
  }

  predicate StartsWith(s: string, p: string) {
    OccursAt(s, p, 0)
  }

  predicate EndsWith(s: string, p: string) {
    |p| <= |s| && s[|s| - |p|..] == p
  }

  /** `String.indexOf` from position `from`: the first occurrence at or after `from`, or -1. */
  function IndexOfFrom(s: string, p: string, from: nat): (r: int)
    requires from <= |s|
    ensures r == -1 || from <= r
    ensures r >= 0 ==> OccursAt(s, p, r) && forall j :: from <= j < r ==> !OccursAt(s, p, j)
    ensures r == -1 ==> forall j :: from <= j ==> !OccursAt(s, p, j)
    decreases |s| - from
  {
    if OccursAt(s, p, from) then from
    else if from == |s| then -1
    else IndexOfFrom(s, p, from + 1)
  }

  /** `String.indexOf`: the first occurrence of `p` in `s`, or -1. */
  function IndexOf(s: string, p: string): (r: int)
    ensures -1 <= r <= |s|
    ensures r >= 0 ==> OccursAt(s, p, r) && forall j :: 0 <= j < r ==> !OccursAt(s, p, j)
    ensures r == -1 <==> forall j :: !OccursAt(s, p, j)
  {
    IndexOfFrom(s, p, 0)
  }

  predicate Contains(s: string, p: string) {
    IndexOf(s, p) >= 0
  }

  /** For a one-character pattern, an occurrence is a position holding that character. */
  lemma OccursChar(s: string, c: char, j: int)
    ensures OccursAt(s, [c], j) <==> 0 <= j < |s| && s[j] == c
  {
    if 0 <= j < |s| {
      assert s[j..j + 1] == [s[j]];
    }
  }

  /** `indexOf` of a one-character pattern finds the first position holding that character. */
  lemma IndexOfChar(s: string, c: char)
    ensures Contains(s, [c]) <==> c in s
    ensures var r := IndexOf(s, [c]);
            r >= 0 ==> r < |s| && s[r] == c && forall j :: 0 <= j < r ==> s[j] != c
  {
    var r := IndexOf(s, [c]);
    if c in s {
      var j :| 0 <= j < |s| && s[j] == c;
      OccursChar(s, c, j);
    }
    if r >= 0 {
      OccursChar(s, c, r);
      forall j | 0 <= j < r
        ensures s[j] != c
      {
        OccursChar(s, c, j);
      }
    }
  }

  /** The first position holding `c` is where `indexOf` finds it. */
  lemma IndexOfCharAt(s: string, c: char, j: nat)
    requires j < |s| && s[j] == c
    requires forall k :: 0 <= k < j ==> s[k] != c
    ensures IndexOf(s, [c]) == j
  {
    IndexOfChar(s, c);
    OccursChar(s, c, j);
    var r := IndexOf(s, [c]);
    if r < j {
      OccursChar(s, c, r);
    }
  }

  /** Without `c`, `indexOf` finds nothing. */
  lemma IndexOfCharNone(s: string, c: char)
    requires c !in s
    ensures IndexOf(s, [c]) == -1 && !Contains(s, [c])
  {
    IndexOfChar(s, c);
  }

  /** The first position of character `c` in `s` at or after `from`, or -1. */
  function FindFrom(s: string, c: char, from: nat): (r: int)
    requires from <= |s|
    ensures r == -1 || from <= r < |s|
    ensures r >= 0 ==> s[r] == c && forall j :: from <= j < r ==> s[j] != c
    ensures r == -1 ==> forall j :: from <= j < |s| ==> s[j] != c
    decreases |s| - from
  {
    if from == |s| then -1
    else if s[from] == c then from
    else FindFrom(s, c, from + 1)
  }

  /** The first position of character `c` in `s`, or -1. */
  function Find(s: string, c: char): (r: int)
    ensures -1 <= r < |s|
    ensures r >= 0 ==> s[r] == c && c !in s[..r]
    ensures r == -1 <==> c !in s
  {
    var r := FindFrom(s, c, 0);
    assert r >= 0 ==> forall j :: 0 <= j < r ==> s[..r][j] != c;
    r
  }

  /** The first position holding `c` is what Find gives. */
  lemma FindAt(s: string, c: char, j: nat)
    requires j < |s| && s[j] == c && c !in s[..j]
    ensures Find(s, c) == j
  {
  }

  /** `indexOf` of a one-character pattern is Find. */
  lemma FindIsIndexOf(s: string, c: char)
    ensures IndexOf(s, [c]) == Find(s, c)
  {
    var r := Find(s, c);
    if r == -1 {
      IndexOfCharNone(s, c);
    } else {
      forall k | 0 <= k < r
        ensures s[k] != c
      {
        assert s[k] == s[..r][k];
      }
      IndexOfCharAt(s, c, r);
    }
  }

  /** `String.trim().isEmpty()`: every character is at most U+0020. */
  predicate IsBlank(s: string) {
    forall i :: 0 <= i < |s| ==> s[i] <= ' '
  }

  /** Splits `s` at every occurrence of the non-empty literal `d`, keeping every piece. */
  function SplitAll(s: string, d: string): (r: seq<string>)
    requires |d| > 0
    ensures |r| >= 1
    decreases |s|
  {
    var i := IndexOf(s, d);
    if i < 0 then [s] else [s[..i]] + SplitAll(s[i + |d|..], d)
  }

  /** Nothing is lost by splitting: the pieces joined with the delimiter give back the text. */
  lemma {:induction false} SplitAllJoin(s: string, d: string)
    requires |d| > 0
    ensures Join(SplitAll(s, d), d) == s
    decreases |s|
  {
    var i := IndexOf(s, d);
    if i >= 0 {
      var rest := s[i + |d|..];
      var tail := SplitAll(rest, d);
      SplitAllJoin(rest, d);
      assert SplitAll(s, d) == [s[..i]] + tail;
      assert ([s[..i]] + tail)[1..] == tail;
      assert s[i..i + |d|] == d;
      assert s == s[..i] + s[i..i + |d|] + rest;
    }
  }

  /** Removes the empty strings at the end of `parts`. */
  function DropTrailingEmpty(parts: seq<string>): (r: seq<string>)
    ensures |r| <= |parts| && r == parts[..|r|]
    ensures r == [] || r[|r| - 1] != ""
    ensures forall i :: |r| <= i < |parts| ==> parts[i] == ""
  {
    if parts != [] && parts[|parts| - 1] == "" then DropTrailingEmpty(parts[..|parts| - 1]) else parts
  }

  /**
   * `String.split` with a literal delimiter: the input itself when it is empty, one piece per
   * character for an empty delimiter, otherwise the pieces between occurrences of `d` with the
   * trailing empty pieces removed.
   */
  function Split(s: string, d: string): seq<string> {
    if s == "" then [""]
    else if d == "" then seq(|s|, i requires 0 <= i < |s| => [s[i]])
    else DropTrailingEmpty(SplitAll(s, d))
  }

  /** The pieces one after another. */
  function Concat(parts: seq<string>): string {
    if parts == [] then "" else parts[0] + Concat(parts[1..])
  }

  /** `String.join` / `Collectors.joining`: the pieces separated by `d`. */
  function Join(parts: seq<string>, d: string): string {
    if parts == [] then ""
    else if |parts| == 1 then parts[0]
    else parts[0] + d + Join(parts[1..], d)
  }
}
