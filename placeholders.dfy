/**
 * How String.Replace treats template placeholders: a name between two '#' signs. The
 * lemmas are stated for any placeholder names, so that what they say depends only on
 * where the '#' signs are and on the names' first letters.
 */
module Placeholders {
  import opened Text

  /** The placeholder '#' + name + '#'. */
  function Placeholder(name: string): string {
    "#" + name + "#"
  }

  /** A placeholder name: non-empty and without '#'. */
  predicate IsName(name: string) {
    |name| > 0 && '#' !in name
  }

  lemma Assoc(a: string, b: string, c: string)
    ensures a + b + c == a + (b + c)
  {
  }

  /** Replace leaves a prefix alone in which no occurrence can start, because it has no '#'. */
  lemma {:induction false} ReplaceAfterHashFree(x: string, y: string, pat: string, rep: string)
    requires |pat| > 0 && pat[0] == '#' && '#' !in x
    ensures Replace(x + y, pat, rep) == x + Replace(y, pat, rep)
    decreases |x|
  {
    if x != [] {
      var s := x + y;
      assert s[0] == x[0] && x[0] != '#';
      assert !OccursAt(s, pat, 0) by {
        if |pat| <= |s| {
          assert s[0..|pat|][0] == s[0];
        }
      }
      ReplaceSkip(s, pat, rep);
      assert s[1..] == x[1..] + y;
      ReplaceAfterHashFree(x[1..], y, pat, rep);
      assert [x[0]] + x[1..] == x;
      Assoc([x[0]], x[1..], Replace(y, pat, rep));
    } else {
      assert x + y == y;
    }
  }

  /** Text without '#' has no placeholder to replace. */
  lemma HashFreeUnchanged(x: string, pat: string, rep: string)
    requires |pat| > 0 && pat[0] == '#' && '#' !in x
    ensures Replace(x, pat, rep) == x
  {
    ReplaceAfterHashFree(x, "", pat, rep);
    assert x + "" == x;
  }

  /** A pattern at the very start is replaced. */
  lemma ReplaceAtStart(pat: string, y: string, rep: string)
    requires |pat| > 0
    ensures Replace(pat + y, pat, rep) == rep + Replace(y, pat, rep)
  {
    var s := pat + y;
    assert s[0..|pat|] == pat;
    StartsWithIsOccursAt(s, pat);
    assert s[|pat|..] == y;
  }

  /** A string whose second character differs from the pattern's loses nothing at its start. */
  lemma SkipMismatch(s: string, pat: string, rep: string)
    requires |s| >= 2 && |pat| >= 2 && s[1] != pat[1]
    ensures Replace(s, pat, rep) == [s[0]] + Replace(s[1..], pat, rep)
  {
    assert !OccursAt(s, pat, 0) by {
      if |pat| <= |s| {
        assert s[0..|pat|][1] == s[1];
      }
    }
    ReplaceSkip(s, pat, rep);
  }

  /** A '#' at which the pattern does not start is kept. */
  lemma ReplaceSkipHash(y: string, pat: string, rep: string)
    requires |pat| > 0 && !OccursAt("#" + y, pat, 0)
    ensures Replace("#" + y, pat, rep) == "#" + Replace(y, pat, rep)
  {
    ReplaceSkip("#" + y, pat, rep);
    assert ("#" + y)[1..] == y;
  }

  /**
   * A placeholder whose name differs from the pattern's in its first letter is kept up
   * to its closing '#', where the scan resumes.
   */
  lemma SkipPlaceholder(name: string, y: string, pat: string, rep: string)
    requires IsName(name) && |pat| >= 2 && pat[0] == '#' && name[0] != pat[1]
    ensures Replace(Placeholder(name) + y, pat, rep) == "#" + name + Replace("#" + y, pat, rep)
  {
    var s := Placeholder(name) + y;
    var r := Replace("#" + y, pat, rep);
    assert Replace(s[1..], pat, rep) == name + r by {
      assert s[1..] == name + ("#" + y);
      ReplaceAfterHashFree(name, "#" + y, pat, rep);
    }
    assert Replace(s, pat, rep) == [s[0]] + Replace(s[1..], pat, rep) by {
      assert s[1] == name[0];
      SkipMismatch(s, pat, rep);
    }
    assert [s[0]] == "#";
    Assoc("#", name, r);
  }

  /** A '#' followed by text without '#' cannot start a placeholder. */
  lemma ClosingHash(d: string, pat: string, rep: string)
    requires '#' !in d && |pat| >= 2 && pat[0] == '#' && pat[|pat| - 1] == '#'
    ensures Replace("#" + d, pat, rep) == "#" + d
  {
    var s := "#" + d;
    assert !OccursAt(s, pat, 0) by {
      if |pat| <= |s| {
        assert s[0..|pat|][|pat| - 1] == d[|pat| - 2];
      }
    }
    ReplaceSkip(s, pat, rep);
    assert s[1..] == d;
    HashFreeUnchanged(d, pat, rep);
  }

  /** A pattern does not start where a character of it differs from the text. */
  lemma MismatchAt(s: string, pat: string, i: nat)
    requires i < |pat| && (i < |s| ==> s[i] != pat[i])
    ensures !OccursAt(s, pat, 0)
  {
    if |pat| <= |s| {
      assert s[0..|pat|][i] != pat[i];
    }
  }

  /**
   * A '#', text c without '#', then another '#' spell the placeholder of name exactly when
   * c is that name.
   */
  lemma PlaceholderAfterHash(c: string, rest: string, name: string)
    requires '#' !in c && IsName(name) && c != name && |rest| > 0 && rest[0] == '#'
    ensures !OccursAt("#" + c + rest, Placeholder(name), 0)
  {
    var s := "#" + c + rest;
    var p := Placeholder(name);
    if |c| < |name| {
      assert s[|c| + 1] == '#' && p[|c| + 1] == name[|c|];
      MismatchAt(s, p, |c| + 1);
    } else if |c| > |name| {
      assert s[|name| + 1] == c[|name|] && p[|name| + 1] == '#';
      MismatchAt(s, p, |name| + 1);
    } else {
      var i :| 0 <= i < |c| && c[i] != name[i];
      assert s[i + 1] == c[i] && p[i + 1] == name[i];
      MismatchAt(s, p, i + 1);
    }
  }

  /** A placeholder other than the pattern, followed by text without '#', is kept whole. */
  lemma OtherPlaceholderKept(other: string, d: string, name: string, rep: string)
    requires IsName(other) && IsName(name) && other[0] != name[0] && '#' !in d
    ensures Replace(Placeholder(other) + d, Placeholder(name), rep) == Placeholder(other) + d
  {
    var pat := Placeholder(name);
    SkipPlaceholder(other, d, pat, rep);
    ClosingHash(d, pat, rep);
    Assoc("#" + other, "#", d);
  }

  /** The only occurrence of the pattern, after a prefix without '#', is replaced. */
  lemma ReplaceOnce(x: string, pat: string, y: string, rep: string)
    requires |pat| > 0 && pat[0] == '#' && '#' !in x && Replace(y, pat, rep) == y
    ensures Replace(x + pat + y, pat, rep) == x + rep + y
  {
    ReplaceAfterHashFree(x, pat + y, pat, rep);
    ReplaceAtStart(pat, y, rep);
    Assoc(x, pat, y);
    Assoc(x, rep, y);
  }

  /** After the first placeholder, nothing of the usual template matches it. */
  lemma FirstStepTail(b: string, q: string, c: string, r: string, d: string, p: string, u: string)
    requires IsName(p) && IsName(q) && IsName(r) && q[0] != p[0] && r[0] != p[0]
    requires '#' !in b && '#' !in c && '#' !in d && c != p
    ensures var y := b + Placeholder(q) + c + Placeholder(r) + d;
      Replace(y, Placeholder(p), u) == y
  {
    var P, Q, R := Placeholder(p), Placeholder(q), Placeholder(r);
    var rd := R + d;
    var crd := c + rd;
    OtherPlaceholderKept(r, d, p, u);
    ReplaceAfterHashFree(c, rd, P, u);
    PlaceholderAfterHash(c, rd, p);
    Assoc("#", c, rd);
    ReplaceSkipHash(crd, P, u);
    SkipPlaceholder(q, crd, P, u);
    Assoc("#" + q, "#", crd);
    ReplaceAfterHashFree(b, Q + crd, P, u);
    assert b + Q + c + R + d == b + (Q + crd);
  }

  /** After the second placeholder, nothing of the usual template matches it. */
  lemma SecondStepTail(c: string, r: string, d: string, q: string, v: string)
    requires IsName(q) && IsName(r) && r[0] != q[0] && '#' !in c && '#' !in d
    ensures Replace(c + Placeholder(r) + d, Placeholder(q), v) == c + Placeholder(r) + d
  {
    OtherPlaceholderKept(r, d, q, v);
    ReplaceAfterHashFree(c, Placeholder(r) + d, Placeholder(q), v);
    Assoc(c, Placeholder(r), d);
  }

  lemma Regroup(x1: string, x2: string, x3: string, x4: string, x5: string, x6: string, x7: string)
    ensures x1 + x2 + x3 + x4 + x5 + x6 + x7 == x1 + x2 + (x3 + x4 + x5 + x6 + x7)
  {
  }

  /** The first replacement of the usual template replaces only the first placeholder. */
  lemma FirstReplacement(a: string, b: string, c: string, d: string, p: string, q: string, r: string, u: string)
    requires IsName(p) && IsName(q) && IsName(r) && q[0] != p[0] && r[0] != p[0]
    requires '#' !in a && '#' !in b && '#' !in c && '#' !in d && c != p
    ensures var P, Q, R := Placeholder(p), Placeholder(q), Placeholder(r);
      Replace(a + P + b + Q + c + R + d, P, u) == a + u + b + Q + c + R + d
  {
    var P, Q, R := Placeholder(p), Placeholder(q), Placeholder(r);
    var y := b + Q + c + R + d;
    Regroup(a, P, b, Q, c, R, d);
    FirstStepTail(b, q, c, r, d, p, u);
    ReplaceOnce(a, P, y, u);
    Regroup(a, u, b, Q, c, R, d);
  }

  /** The second replacement of the usual template replaces only the second placeholder. */
  lemma SecondReplacement(a: string, b: string, c: string, d: string, q: string, r: string, u: string, v: string)
    requires IsName(q) && IsName(r) && r[0] != q[0]
    requires '#' !in a && '#' !in b && '#' !in c && '#' !in d && '#' !in u
    ensures var Q, R := Placeholder(q), Placeholder(r);
      Replace(a + u + b + Q + c + R + d, Q, v) == a + u + b + v + c + R + d
  {
    var Q, R := Placeholder(q), Placeholder(r);
    var x, y := a + u + b, c + R + d;
    assert a + u + b + Q + c + R + d == x + Q + y;
    SecondStepTail(c, r, d, q, v);
    ReplaceOnce(x, Q, y, v);
    assert x + v + y == a + u + b + v + c + R + d;
  }

  /** The third replacement of the usual template replaces the last placeholder. */
  lemma ThirdReplacement(a: string, b: string, c: string, d: string, r: string, u: string, v: string, w: string)
    requires IsName(r)
    requires '#' !in a && '#' !in b && '#' !in c && '#' !in d && '#' !in u && '#' !in v
    ensures var R := Placeholder(r);
      Replace(a + u + b + v + c + R + d, R, w) == a + u + b + v + c + w + d
  {
    var R := Placeholder(r);
    var x := a + u + b + v + c;
    HashFreeUnchanged(d, R, w);
    ReplaceOnce(x, R, d, w);
  }

  /**
   * Three placeholders with different first letters, replaced in turn in a template
   * whose other text has no '#': each is replaced by its value and everything else is
   * kept, as long as the first two values have no '#' and the text between the second and
   * the third placeholder is not the first placeholder's name.
   */
  lemma ThreePlaceholders(a: string, b: string, c: string, d: string, p: string, q: string, r: string, u: string, v: string, w: string)
    requires IsName(p) && IsName(q) && IsName(r) && p[0] != q[0] && p[0] != r[0] && q[0] != r[0]
    requires '#' !in a && '#' !in b && '#' !in c && '#' !in d && '#' !in u && '#' !in v && c != p
    ensures var P, Q, R := Placeholder(p), Placeholder(q), Placeholder(r);
      Replace(Replace(Replace(a + P + b + Q + c + R + d, P, u), Q, v), R, w)
        == a + u + b + v + c + w + d
  {
    FirstReplacement(a, b, c, d, p, q, r, u);
    SecondReplacement(a, b, c, d, q, r, u, v);
    ThirdReplacement(a, b, c, d, r, u, v, w);
  }
}
