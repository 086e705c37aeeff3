/** The Python `str` operations the parsers use: `strip`, `lower`,
    `startswith`, `in`, `split(sep)`, `split(sep, 1)` and `replace(p, "")`. */
module Strings {
  import opened Wrappers

  /** The code points for which Python's `str.isspace()` holds; these are
      the characters `str.strip()` removes when called without arguments. */
  predicate IsSpace(c: char) {
    || c == ' '
    || ('\t' <= c <= '\r')
    || ('\U{1C}' <= c <= '\U{1F}')
    || c == '\U{85}' || c == '\U{A0}' || c == '\U{1680}'
    || ('\U{2000}' <= c <= '\U{200A}')
    || c == '\U{2028}' || c == '\U{2029}' || c == '\U{202F}' || c == '\U{205F}' || c == '\U{3000}'
  }

  /** The visible ASCII characters are not whitespace. */
  lemma {:induction false} VisibleNotSpace(c: char)
    requires '!' <= c <= '~'
    ensures !IsSpace(c)
  {
  }

  /** `s.lstrip()`: the suffix of `s` left after removing leading whitespace. */
  function TrimStart(s: string): (r: string)
    ensures |r| <= |s| && r == s[|s| - |r|..]
    ensures forall k :: 0 <= k < |s| - |r| ==> IsSpace(s[k])
    ensures r == [] || !IsSpace(r[0])
  {
    if s != [] && IsSpace(s[0]) then TrimStart(s[1..]) else s
  }

  /** `s.rstrip()`: the prefix of `s` left after removing trailing whitespace. */
  function TrimEnd(s: string): (r: string)
    ensures |r| <= |s| && r == s[..|r|]
    ensures forall k :: |r| <= k < |s| ==> IsSpace(s[k])
    ensures r == [] || !IsSpace(r[|r| - 1])
  {
    if s != [] && IsSpace(s[|s| - 1]) then TrimEnd(s[..|s| - 1]) else s
  }

  /** `r` is `s[i..]` cut short, with only whitespace around it in `s`. */
  predicate SurroundedBySpace(s: string, r: string, i: nat) {
    && i + |r| <= |s| && r == s[i..i + |r|]
    && (forall k :: 0 <= k < i ==> IsSpace(s[k]))
    && (forall k :: i + |r| <= k < |s| ==> IsSpace(s[k]))
  }

  /** `s.strip()`: `s[i..j]` for the first non-space `i` and the last non-space `j - 1`. */
  function Strip(s: string): (r: string)
    ensures exists i :: SurroundedBySpace(s, r, i)
    ensures r == [] || (!IsSpace(r[0]) && !IsSpace(r[|r| - 1]))
  {
    var t := TrimStart(s);
    var r := TrimEnd(t);
    assert SurroundedBySpace(s, r, |s| - |t|);
    r
  }

  /** A string with no surrounding whitespace is its own strip. */
  lemma {:induction false} StripUnchanged(s: string)
    requires s == [] || (!IsSpace(s[0]) && !IsSpace(s[|s| - 1]))
    ensures Strip(s) == s
  {
  }

  /** A leading whitespace character does not change the strip. */
  lemma {:induction false} StripLeadingSpace(c: char, s: string)
    requires IsSpace(c)
    ensures Strip([c] + s) == Strip(s)
  {
    assert ([c] + s)[1..] == s;
  }

  function LowerChar(c: char): char {
    if 'A' <= c <= 'Z' then (c as int + 32) as char else c
  }

  /** `s.lower()`, restricted to the ASCII letters. */
  function ToLower(s: string): (r: string)
    ensures |r| == |s|
  {
    seq(|s|, i requires 0 <= i < |s| => LowerChar(s[i]))
  }

  /** Lower-casing works character by character. */
  lemma {:induction false} LowerConcat(a: string, b: string)
    ensures ToLower(a + b) == ToLower(a) + ToLower(b)
  {
    assert forall k :: 0 <= k < |a + b| ==> ToLower(a + b)[k] == (ToLower(a) + ToLower(b))[k];
  }

  /** A string without upper-case ASCII letters is its own lower case. */
  lemma {:induction false} LowerUnchanged(s: string)
    requires forall k :: 0 <= k < |s| ==> !('A' <= s[k] <= 'Z')
    ensures ToLower(s) == s
  {
  }

  predicate StartsWith(s: string, p: string) {
    |p| <= |s| && s[..|p|] == p
  }

  /** `p` occurs in `s` starting at index `i`. */
  predicate OccursAt(s: string, p: string, i: nat) {
    i + |p| <= |s| && s[i..i + |p|] == p
  }

  lemma {:induction false} PrefixStarts(p: string, r: string)
    ensures StartsWith(p + r, p)
  {
    assert (p + r)[..|p|] == p;
  }

  lemma {:induction false} OccursInMiddle(a: string, p: string, c: string)
    ensures OccursAt(a + p + c, p, |a|)
  {
    assert (a + p + c)[|a|..|a| + |p|] == p;
  }

  /** `s.find(p, from)`, as an option: the first occurrence of `p` at or after `from`. */
  function IndexOfFrom(s: string, p: string, from: nat): (r: Option<nat>)
    ensures r.Some? ==> from <= r.value && OccursAt(s, p, r.value)
    ensures r.Some? ==> forall j :: from <= j < r.value ==> !OccursAt(s, p, j)
    ensures r.None? ==> forall j :: from <= j ==> !OccursAt(s, p, j)
    decreases |s| - from
  {
    if from + |p| > |s| then None
    else if OccursAt(s, p, from) then Some(from)
    else IndexOfFrom(s, p, from + 1)
  }

  function IndexOf(s: string, p: string): Option<nat> {
    IndexOfFrom(s, p, 0)
  }

  /** Python's `p in s`. */
  predicate Contains(s: string, p: string) {
    IndexOf(s, p).Some?
  }

  lemma {:induction false} ContainsAt(s: string, p: string, j: nat)
    requires OccursAt(s, p, j)
    ensures Contains(s, p)
  {
  }

  /** An occurrence with none before it is the one `find` returns. */
  lemma {:induction false} FirstOccurrence(s: string, p: string, i: nat)
    requires OccursAt(s, p, i)
    requires forall j :: 0 <= j < i ==> !OccursAt(s, p, j)
    ensures IndexOf(s, p) == Some(i)
  {
  }

  /** A prefix `s[..i]` that ends before the first occurrence of `p` holds no `p`. */
  lemma {:induction false} NoOccurrenceBefore(s: string, p: string, i: nat)
    requires |p| > 0 && i <= |s|
    requires forall j :: 0 <= j < i ==> !OccursAt(s, p, j)
    ensures !Contains(s[..i], p)
  {
    if Contains(s[..i], p) {
      var j := IndexOf(s[..i], p).value;
      assert s[..i][j..j + |p|] == s[j..j + |p|];
      assert OccursAt(s, p, j);
      assert false;
    }
  }

  /** For a one-character pattern, `Contains` is membership. */
  lemma {:induction false} ContainsChar(s: string, c: char)
    ensures Contains(s, [c]) <==> c in s
  {
    if c in s {
      var j :| 0 <= j < |s| && s[j] == c;
      assert OccursAt(s, [c], j);
    }
    if Contains(s, [c]) {
      var j := IndexOf(s, [c]).value;
      assert s[j..j + 1] == [c];
      assert s[j] == c;
    }
  }

  /** A pattern whose first character is absent does not occur. */
  lemma {:induction false} AbsentFirstChar(s: string, p: string)
    requires |p| > 0 && p[0] !in s
    ensures !Contains(s, p)
  {
    forall j: nat | j + |p| <= |s|
      ensures !OccursAt(s, p, j)
    {
      assert s[j..j + |p|][0] == s[j];
    }
  }

  /** Splitting at a character that does not occur gives the whole string. */
  lemma {:induction false} SplitWithoutSeparator(s: string, c: char)
    requires c !in s
    ensures SplitOn(s, [c]) == [s]
  {
    ContainsChar(s, c);
  }

  /** The pieces of `s` joined with `p` between them. */
  function JoinWith(parts: seq<string>, p: string): string {
    if |parts| == 0 then []
    else if |parts| == 1 then parts[0]
    else parts[0] + p + JoinWith(parts[1..], p)
  }

  function Concat(parts: seq<string>): string {
    if parts == [] then [] else parts[0] + Concat(parts[1..])
  }

  /** `s.split(p)` for a non-empty separator: the pieces between the
      occurrences of `p` found from left to right. */
  function SplitOn(s: string, p: string): (parts: seq<string>)
    requires |p| > 0
    ensures |parts| >= 1
    decreases |s|
  {
    match IndexOf(s, p)
    case None => [s]
    case Some(i) => [s[..i]] + SplitOn(s[i + |p|..], p)
  }

  /** Joining the pieces of `s.split(p)` with `p` gives back `s`. */
  lemma {:induction false} SplitJoins(s: string, p: string)
    requires |p| > 0
    ensures JoinWith(SplitOn(s, p), p) == s
    decreases |s|
  {
    match IndexOf(s, p)
    case None =>
    case Some(i) =>
      var tail := s[i + |p|..];
      SplitJoins(tail, p);
      JoinCons(s[..i], SplitOn(tail, p), p);
      SplitAround(s, p, i);
  }

  lemma {:induction false} JoinCons(x: string, rest: seq<string>, p: string)
    requires rest != []
    ensures JoinWith([x] + rest, p) == x + p + JoinWith(rest, p)
  {
    assert ([x] + rest)[1..] == rest;
  }

  /** An occurrence of `p` cuts `s` into the text before it, `p`, and the text after. */
  lemma {:induction false} SplitAround(s: string, p: string, i: nat)
    requires OccursAt(s, p, i)
    ensures s == s[..i] + p + s[i + |p|..]
  {
  }

  /** No piece of `s.split(p)` contains `p`. */
  lemma {:induction false} SplitPiecesFree(s: string, p: string)
    requires |p| > 0
    ensures forall k :: 0 <= k < |SplitOn(s, p)| ==> !Contains(SplitOn(s, p)[k], p)
    decreases |s|
  {
    match IndexOf(s, p)
    case None =>
    case Some(i) =>
      NoOccurrenceBefore(s, p, i);
      SplitPiecesFree(s[i + |p|..], p);
  }

  /** `s.split(p, 1)` when it has two parts: the text before the first `p`
      and the text after it; `None` when `p` does not occur. */
  function SplitOnce(s: string, p: string): (r: Option<(string, string)>)
    ensures r.Some? <==> Contains(s, p)
    ensures r.Some? ==> s == r.value.0 + p + r.value.1
    ensures r.Some? ==> forall j :: 0 <= j < |r.value.0| ==> !OccursAt(s, p, j)
  {
    match IndexOf(s, p)
    case None => None
    case Some(i) =>
      assert s == s[..i] + p + s[i + |p|..];
      Some((s[..i], s[i + |p|..]))
  }

  /** `s.replace(p, "")`: the pieces of `s` between the occurrences of `p`, concatenated. */
  function RemoveAll(s: string, p: string): string
    requires |p| > 0
  {
    Concat(SplitOn(s, p))
  }

  /** Removing `p` from a text that starts with `p` removes that one and
      then the rest from what follows it. */
  lemma {:induction false} RemoveAllLeading(p: string, r: string)
    requires |p| > 0
    ensures RemoveAll(p + r, p) == RemoveAll(r, p)
  {
    var s := p + r;
    assert OccursAt(s, p, 0) by { assert s[0..|p|] == p; }
    FirstOccurrence(s, p, 0);
    assert s[|p|..] == r;
    assert s[..0] == [];
  }

  /** Removing a pattern that does not occur leaves the text whole. */
  lemma {:induction false} RemoveAllAbsent(s: string, p: string)
    requires |p| > 0 && !Contains(s, p)
    ensures RemoveAll(s, p) == s
  {
    assert SplitOn(s, p) == [s];
    assert [s][1..] == [];
    assert Concat([s]) == s + Concat([]);
  }
}
