/**
 * The .NET string operations the importer relies on: Trim, IndexOf, Replace,
 * and joining strings with a separator. Comparisons are ordinal.
 */
module Text {

  /** The characters .NET's Char.IsWhiteSpace accepts: the ones String.Trim removes. */
  const WhiteSpaceChars: seq<char> := [
    '\t', '\n', '\U{0B}', '\U{0C}', '\r', ' ', '\U{85}', '\U{A0}', '\U{1680}',
    '\U{2000}', '\U{2001}', '\U{2002}', '\U{2003}', '\U{2004}', '\U{2005}', '\U{2006}',
    '\U{2007}', '\U{2008}', '\U{2009}', '\U{200A}', '\U{2028}', '\U{2029}', '\U{202F}',
    '\U{205F}', '\U{3000}'
  ]

  /**
   * c is one of WhiteSpaceChars. The search is recursive so that the verifier looks
   * into the list only as far as a proof needs, not at every mention of white space.
   */
  predicate IsWhiteSpace(c: char) {
    ListedFrom(c, 0)
  }

  predicate ListedFrom(c: char, i: nat)
    decreases |WhiteSpaceChars| - i
  {
    i < |WhiteSpaceChars| && (WhiteSpaceChars[i] == c || ListedFrom(c, i + 1))
  }

  /** s without its leading white space. */
  function TrimStart(s: string): string
    decreases |s|
  {
    if |s| > 0 && IsWhiteSpace(s[0]) then TrimStart(s[1..]) else s
  }

  /** s without its trailing white space. */
  function TrimEnd(s: string): string
    decreases |s|
  {
    if |s| > 0 && IsWhiteSpace(s[|s| - 1]) then TrimEnd(s[..|s| - 1]) else s
  }

  /** String.Trim(): s without leading and trailing white space. */
  function Trim(s: string): string {
    TrimEnd(TrimStart(s))
  }

  /** TrimStart removes exactly the white space s starts with. */
  lemma {:induction false} TrimStartSpec(s: string)
    ensures var r := TrimStart(s);
      && |r| <= |s| && r == s[|s| - |r|..]
      && (forall k :: 0 <= k < |s| - |r| ==> IsWhiteSpace(s[k]))
      && (r != [] ==> !IsWhiteSpace(r[0]))
    decreases |s|
  {
    if |s| > 0 && IsWhiteSpace(s[0]) {
      TrimStartSpec(s[1..]);
    }
  }

  /** TrimEnd removes exactly the white space s ends with. */
  lemma {:induction false} TrimEndSpec(s: string)
    ensures var r := TrimEnd(s);
      && |r| <= |s| && r == s[..|r|]
      && (forall k :: |r| <= k < |s| ==> IsWhiteSpace(s[k]))
      && (r != [] ==> !IsWhiteSpace(r[|r| - 1]))
    decreases |s|
  {
    if |s| > 0 && IsWhiteSpace(s[|s| - 1]) {
      TrimEndSpec(s[..|s| - 1]);
    }
  }

  /** Trim yields "" exactly for all-white-space input, and otherwise starts and ends with other characters. */
  lemma TrimSpec(s: string)
    ensures Trim(s) == [] <==> forall k :: 0 <= k < |s| ==> IsWhiteSpace(s[k])
    ensures Trim(s) != [] ==> !IsWhiteSpace(Trim(s)[0]) && !IsWhiteSpace(Trim(s)[|Trim(s)| - 1])
  {
    var front := TrimStart(s);
    var r := TrimEnd(front);
    TrimStartSpec(s);
    TrimEndSpec(front);
    var d := |s| - |front|;
    if r == [] {
      // front cannot hold anything: its first character would be white space and not.
      assert front == [];
    } else {
      assert r[0] == front[0];
      assert !IsWhiteSpace(s[d]);
    }
  }

  /** Trimming a trimmed string changes nothing. */
  lemma TrimIsIdempotent(s: string)
    ensures Trim(Trim(s)) == Trim(s)
  {
    var t := Trim(s);
    TrimSpec(s);
    if t != [] {
      assert TrimStart(t) == t;
      assert TrimEnd(t) == t;
    }
  }

  /** The pattern pat occurs in s at index i. */
  predicate OccursAt(s: string, pat: string, i: int) {
    0 <= i && i + |pat| <= |s| && s[i..i + |pat|] == pat
  }

  /** i is the first index at which pat occurs in s. */
  predicate IsFirstOccurrence(s: string, pat: string, i: int) {
    OccursAt(s, pat, i) && forall k :: 0 <= k < i ==> !OccursAt(s, pat, k)
  }

  /** pat occurs nowhere in s. */
  predicate Absent(s: string, pat: string) {
    forall k :: 0 <= k <= |s| ==> !OccursAt(s, pat, k)
  }

  function IndexFrom(s: string, pat: string, from: nat): (r: int)
    decreases |s| - from
    ensures r == -1 || (from <= r && OccursAt(s, pat, r))
    ensures forall k :: from <= k <= |s| && (r == -1 || k < r) ==> !OccursAt(s, pat, k)
  {
    if from + |pat| > |s| then -1
    else if s[from..from + |pat|] == pat then from
    else IndexFrom(s, pat, from + 1)
  }

  /** String.IndexOf(string): the first index at which pat occurs in s, or -1 if it does not occur. */
  function IndexOf(s: string, pat: string): (r: int)
    ensures r == -1 <==> Absent(s, pat)
    ensures r != -1 ==> IsFirstOccurrence(s, pat, r)
  {
    IndexFrom(s, pat, 0)
  }

  /** The characters of s with every `from` replaced by `to` (String.Replace(char, char)). */
  function ReplaceChar(s: string, from: char, to: char): (r: string)
    ensures |r| == |s|
    ensures from != to ==> from !in r
    ensures forall c :: c in r ==> c in s || c == to
  {
    seq(|s|, k requires 0 <= k < |s| => if s[k] == from then to else s[k])
  }

  /**
   * String.Replace(string, string): every occurrence of pat, found from left to right
   * without overlap, replaced by rep. The source only passes non-empty patterns.
   */
  function Replace(s: string, pat: string, rep: string): string
    requires |pat| > 0
    decreases |s|
  {
    if |s| < |pat| then s
    else if StartsWith(s, pat) then rep + Replace(s[|pat|..], pat, rep)
    else [s[0]] + Replace(s[1..], pat, rep)
  }

  /** pat is a prefix of s, compared character by character. */
  predicate StartsWith(s: string, pat: string)
    decreases |pat|
  {
    |pat| <= |s| && (|pat| == 0 || (s[0] == pat[0] && StartsWith(s[1..], pat[1..])))
  }

  lemma {:induction false} StartsWithIsOccursAt(s: string, pat: string)
    ensures StartsWith(s, pat) <==> OccursAt(s, pat, 0)
    decreases |pat|
  {
    if |pat| > 0 && |pat| <= |s| {
      StartsWithIsOccursAt(s[1..], pat[1..]);
      assert s[1..][0..|pat| - 1] == s[1..|pat|];
      if s[0..|pat|] == pat {
        assert s[1..|pat|] == pat[1..];
      }
      if s[0] == pat[0] && s[1..|pat|] == pat[1..] {
        assert s[0..|pat|] == [s[0]] + s[1..|pat|];
        assert pat == [pat[0]] + pat[1..];
      }
    }
  }

  /** A string with no occurrence of the pattern is left as it is. */
  lemma {:induction false} ReplaceAbsent(s: string, pat: string, rep: string)
    requires |pat| > 0 && Absent(s, pat)
    ensures Replace(s, pat, rep) == s
    decreases |s|
  {
    if |s| >= |pat| {
      assert !OccursAt(s, pat, 0);
      StartsWithIsOccursAt(s, pat);
      forall k | 0 <= k <= |s[1..]|
        ensures !OccursAt(s[1..], pat, k)
      {
        assert !OccursAt(s, pat, k + 1);
        if k + |pat| <= |s[1..]| {
          assert s[1..][k..k + |pat|] == s[k + 1..k + 1 + |pat|];
        }
      }
      ReplaceAbsent(s[1..], pat, rep);
    }
  }

  /** Where the pattern does not start, Replace copies one character and goes on. */
  lemma ReplaceSkip(s: string, pat: string, rep: string)
    requires |pat| > 0 && |s| > 0 && !OccursAt(s, pat, 0)
    ensures Replace(s, pat, rep) == [s[0]] + Replace(s[1..], pat, rep)
  {
    StartsWithIsOccursAt(s, pat);
  }

  /** Up to the first occurrence of the pattern nothing changes; that occurrence becomes rep. */
  lemma {:induction false} ReplaceFirst(s: string, pat: string, rep: string, i: nat)
    requires |pat| > 0 && IsFirstOccurrence(s, pat, i)
    ensures Replace(s, pat, rep) == s[..i] + rep + Replace(s[i + |pat|..], pat, rep)
    decreases i
  {
    var tail := Replace(s[i + |pat|..], pat, rep);
    if i == 0 {
      StartsWithIsOccursAt(s, pat);
      assert s[..0] + rep + tail == rep + tail;
      assert Replace(s, pat, rep) == rep + Replace(s[|pat|..], pat, rep);
    } else {
      var t := s[1..];
      ReplaceSkip(s, pat, rep);
      FirstOccurrenceOfTail(s, pat, i);
      ReplaceFirst(t, pat, rep, i - 1);
      TailSlices(s, i, |pat|);
      SeqAssoc(s[0], t[..i - 1], rep, tail);
    }
  }

  lemma TailSlices(s: string, i: nat, m: nat)
    requires 0 < i && i + m <= |s|
    ensures s[1..][i - 1 + m..] == s[i + m..]
    ensures [s[0]] + s[1..][..i - 1] == s[..i]
  {
  }

  lemma SeqAssoc(c: char, a: string, b: string, d: string)
    ensures [c] + (a + b + d) == ([c] + a) + b + d
  {
  }

  lemma FirstOccurrenceOfTail(s: string, pat: string, i: nat)
    requires i > 0 && IsFirstOccurrence(s, pat, i)
    ensures IsFirstOccurrence(s[1..], pat, i - 1)
  {
    var t := s[1..];
    assert t[i - 1..i - 1 + |pat|] == s[i..i + |pat|];
    forall k | 0 <= k < i - 1
      ensures !OccursAt(t, pat, k)
    {
      assert !OccursAt(s, pat, k + 1);
      assert t[k..k + |pat|] == s[k + 1..k + 1 + |pat|];
    }
  }

  /** Every character of the result comes from s or from rep. */
  lemma {:induction false} ReplaceChars(s: string, pat: string, rep: string, c: char)
    requires |pat| > 0 && c in Replace(s, pat, rep)
    ensures c in s || c in rep
    decreases |s|
  {
    if |s| >= |pat| {
      if StartsWith(s, pat) {
        if c !in rep {
          ReplaceChars(s[|pat|..], pat, rep, c);
        }
      } else if c != s[0] {
        ReplaceChars(s[1..], pat, rep, c);
      }
    }
  }

  /** Replacing a one-character pattern by a string without that character removes it. */
  lemma {:induction false} ReplaceRemovesChar(s: string, c: char, rep: string)
    requires c !in rep
    ensures c !in Replace(s, [c], rep)
    decreases |s|
  {
    if |s| >= 1 {
      assert StartsWith(s, [c]) <==> s[0] == c by {
        assert [c][1..] == [];
      }
      ReplaceRemovesChar(s[1..], c, rep);
    }
  }

  /** The strings of parts, in order, with sep between each two neighbours. */
  function Join(parts: seq<string>, sep: string): string
    decreases |parts|
  {
    if |parts| == 0 then ""
    else if |parts| == 1 then parts[0]
    else Join(parts[..|parts| - 1], sep) + sep + parts[|parts| - 1]
  }

  /** The strings of xs concatenated in order. */
  function Concat(xs: seq<string>): string
    decreases |xs|
  {
    if |xs| == 0 then "" else Concat(xs[..|xs| - 1]) + xs[|xs| - 1]
  }

  /** The sum of the lengths of the strings in xs. */
  function TotalLength(xs: seq<string>): nat
    decreases |xs|
  {
    if |xs| == 0 then 0 else TotalLength(xs[..|xs| - 1]) + |xs[|xs| - 1]|
  }

  /**
   * Joining is concatenation of every part followed by the separator, with the last
   * separator dropped: exactly |parts| - 1 separators, each after its part.
   */
  lemma {:induction false} JoinIsTerminatedConcat(parts: seq<string>, sep: string)
    requires |parts| > 0
    ensures Join(parts, sep) + sep == Concat(seq(|parts|, k requires 0 <= k < |parts| => parts[k] + sep))
    decreases |parts|
  {
    var n := |parts|;
    var terminated := seq(n, k requires 0 <= k < n => parts[k] + sep);
    if n == 1 {
      assert terminated[..0] == [];
    } else {
      var front := parts[..n - 1];
      JoinIsTerminatedConcat(front, sep);
      assert terminated[..n - 1] == seq(n - 1, k requires 0 <= k < n - 1 => front[k] + sep);
    }
  }

  lemma MultiplyStep(k: nat, x: nat)
    ensures (k + 1) * x == k * x + x
  {
  }

  /** A join of n parts is as long as the parts together plus n - 1 separators. */
  lemma {:induction false} JoinLength(parts: seq<string>, sep: string)
    requires |parts| > 0
    ensures |Join(parts, sep)| == TotalLength(parts) + (|parts| - 1) * |sep|
    decreases |parts|
  {
    var n := |parts|;
    if n > 1 {
      var front := parts[..n - 1];
      JoinLength(front, sep);
      assert |Join(parts, sep)| == |Join(front, sep)| + |sep| + |parts[n - 1]|;
      assert TotalLength(parts) == TotalLength(front) + |parts[n - 1]|;
      MultiplyStep(n - 2, |sep|);
    }
  }
}
