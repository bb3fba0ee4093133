/** The .NET string operations the query layer calls, on `string` as a
    sequence of characters. Case conversion and case-insensitive comparison
    are restricted to ASCII letters, and `StartsWith` and `IndexOf` compare
    ordinally (character by character). */
module Text {
  import opened Results
  import opened Seqs

  /** Char.ToLowerInvariant on ASCII letters; every other character is kept. */
  function LowerChar(c: char): char {
    if 'A' <= c <= 'Z' then (c as int + 32) as char else c
  }

  /** String.ToLower. */
  function ToLower(s: string): (r: string)
    ensures |r| == |s|
    ensures forall i :: 0 <= i < |s| ==> r[i] == LowerChar(s[i])
  {
    Map(LowerChar, s)
  }

  /** `Modifiers.Select(x => x.Text.ToLower())`: every token lower-cased, in order. */
  function LowerAll(tokens: seq<string>): (r: seq<string>)
    ensures |r| == |tokens|
    ensures forall i :: 0 <= i < |tokens| ==> r[i] == ToLower(tokens[i])
    ensures forall k :: k in r <==> exists i :: 0 <= i < |tokens| && ToLower(tokens[i]) == k
  {
    Map(ToLower, tokens)
  }

  /** String.Equals(a, b, StringComparison.OrdinalIgnoreCase). */
  predicate EqualsIgnoreCase(a: string, b: string) {
    ToLower(a) == ToLower(b)
  }

  /** The test `b => b.Equals(name, StringComparison.OrdinalIgnoreCase)`. */
  function EqualsIgnoringCase(name: string): (test: string -> bool)
    ensures forall b :: test(b) <==> EqualsIgnoreCase(b, name)
  {
    b => EqualsIgnoreCase(b, name)
  }

  /** The comparison is exact apart from letter case: the lengths agree and
      the characters agree position by position once folded. */
  lemma EqualsIgnoreCasePointwise(a: string, b: string)
    ensures EqualsIgnoreCase(a, b) <==>
            |a| == |b| && forall i :: 0 <= i < |a| ==> LowerChar(a[i]) == LowerChar(b[i])
  {
    if |a| == |b| && forall i :: 0 <= i < |a| ==> LowerChar(a[i]) == LowerChar(b[i]) {
      assert forall i :: 0 <= i < |a| ==> ToLower(a)[i] == ToLower(b)[i];
    }
    if EqualsIgnoreCase(a, b) {
      assert forall i :: 0 <= i < |a| ==> ToLower(a)[i] == ToLower(b)[i];
    }
  }

  /** String.StartsWith(prefix), ordinal. */
  predicate StartsWith(s: string, prefix: string) {
    |prefix| <= |s| && s[..|prefix|] == prefix
  }

  /** String.Replace(from, to) for characters. */
  function Replace(s: string, from: char, to: char): (r: string)
    ensures |r| == |s|
    ensures forall i :: 0 <= i < |s| ==> r[i] == if s[i] == from then to else s[i]
    ensures from != to ==> from !in r
  {
    Map(c => if c == from then to else c, s)
  }

  /** Replacing a character that does not occur and then putting it back is the identity. */
  lemma ReplaceRoundTrip(s: string, from: char, to: char)
    requires to !in s
    ensures Replace(Replace(s, from, to), to, from) == s
  {
  }

  /** Replacing a character that does not occur changes nothing. */
  lemma ReplaceAbsent(s: string, from: char, to: char)
    requires from !in s
    ensures Replace(s, from, to) == s
  {
  }

  /** String.TrimStart(chars): the longest suffix of s that does not start
      with a character of `trim`. */
  function TrimStart(s: string, trim: set<char>): (r: string)
    ensures |r| <= |s| && r == s[|s| - |r|..]
    ensures r == [] || r[0] !in trim
    ensures forall i :: 0 <= i < |s| - |r| ==> s[i] in trim
  {
    if s != [] && s[0] in trim then TrimStart(s[1..], trim) else s
  }

  /** TrimStart leaves a string alone that does not start with a trimmed character. */
  lemma TrimStartStops(s: string, trim: set<char>)
    requires s == [] || s[0] !in trim
    ensures TrimStart(s, trim) == s
  {
  }

  /** Characters that TrimStart removes do not change its result. */
  lemma {:induction false} TrimStartPrefix(x: string, s: string, trim: set<char>)
    requires forall i :: 0 <= i < |x| ==> x[i] in trim
    ensures TrimStart(x + s, trim) == TrimStart(s, trim)
    decreases |x|
  {
    if x != [] {
      assert (x + s)[0] == x[0] && (x + s)[1..] == x[1..] + s;
      TrimStartPrefix(x[1..], s, trim);
    } else {
      assert x + s == s;
    }
  }

  /** String.PadLeft(totalWidth, c): s preceded by enough copies of c to
      make it totalWidth long. .NET rejects a negative width. */
  function PadLeft(s: string, totalWidth: int, c: char): (r: string)
    requires 0 <= totalWidth
    ensures |r| == if totalWidth <= |s| then |s| else totalWidth
    ensures r[|r| - |s|..] == s
    ensures forall i :: 0 <= i < |r| - |s| ==> r[i] == c
  {
    if totalWidth <= |s| then s else seq(totalWidth - |s|, _ => c) + s
  }

  /** String.Substring(start): throws unless 0 <= start <= |s|. */
  function Substring(s: string, start: int): (r: Result<string>)
    ensures r.Ok? <==> 0 <= start <= |s|
    ensures r.Ok? ==> |r.value| == |s| - start && s == s[..start] + r.value
  {
    if 0 <= start <= |s| then Ok(s[start..]) else Throws(ArgumentOutOfRangeException)
  }

  /** String.Substring(start, length): throws unless the range lies in s. */
  function SubstringOfLength(s: string, start: int, length: int): (r: Result<string>)
    ensures r.Ok? <==> 0 <= start && 0 <= length && start + length <= |s|
    ensures r.Ok? ==> |r.value| == length && s[start..start + length] == r.value
  {
    if 0 <= start && 0 <= length && start + length <= |s| then Ok(s[start..start + length])
    else Throws(ArgumentOutOfRangeException)
  }

  /** pat occurs in s starting at index i. */
  predicate OccursAt(s: string, pat: string, i: int) {
    0 <= i && i + |pat| <= |s| && s[i..i + |pat|] == pat
  }

  /** The first index at or after `from` where pat occurs, or -1. */
  function IndexOfFrom(s: string, pat: string, from: nat): (r: int)
    requires from <= |s|
    ensures r == -1 || (from <= r && OccursAt(s, pat, r))
    ensures forall j :: from <= j && (r == -1 || j < r) ==> !OccursAt(s, pat, j)
    decreases |s| - from
  {
    if OccursAt(s, pat, from) then from
    else if from == |s| then -1
    else IndexOfFrom(s, pat, from + 1)
  }

  /** String.IndexOf(pat), ordinal: the first occurrence, or -1 when there is none. */
  function IndexOf(s: string, pat: string): (r: int)
    ensures r == -1 <==> forall j :: !OccursAt(s, pat, j)
    ensures r != -1 ==> OccursAt(s, pat, r) && forall j :: 0 <= j < r ==> !OccursAt(s, pat, j)
  {
    IndexOfFrom(s, pat, 0)
  }
}
