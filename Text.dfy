/**
 * String operations of JavaScript used by the helpers: `trim`, `toUpperCase`,
 * `toLowerCase` and a case-insensitive substring search (what `/word/i.test(s)` does
 * for a literal word).
 */
module Text {

  /** The characters `String.prototype.trim` removes: WhiteSpace and LineTerminator. */
  predicate IsSpace(c: char) {
    || c == ' ' || c == '\t' || c == '\n' || c == '\r'
    || c == '\U{000B}' || c == '\U{000C}' || c == '\U{00A0}' || c == '\U{1680}'
    || ('\U{2000}' <= c <= '\U{200A}')
    || c == '\U{2028}' || c == '\U{2029}' || c == '\U{202F}' || c == '\U{205F}'
    || c == '\U{3000}' || c == '\U{FEFF}'
  }

  predicate AllSpace(s: string) {
    forall i :: 0 <= i < |s| ==> IsSpace(s[i])
  }

  /** Neither the first nor the last character is white space. */
  predicate Trimmed(s: string) {
    s == [] || (!IsSpace(s[0]) && !IsSpace(s[|s| - 1]))
  }

  /** Drops the longest all-space prefix. */
  function TrimStart(s: string): (r: string)
    ensures |r| <= |s| && r == s[|s| - |r|..]
    ensures AllSpace(s[..|s| - |r|])
    ensures r == [] || !IsSpace(r[0])
  {
    if |s| > 0 && IsSpace(s[0]) then
      var r := TrimStart(s[1..]);
      assert s[..|s| - |r|] == [s[0]] + s[1..][..|s| - 1 - |r|];
      assert s[|s| - |r|..] == s[1..][|s| - 1 - |r|..];
      r
    else s
  }

  /** Drops the longest all-space suffix. */
  function TrimEnd(s: string): (r: string)
    ensures |r| <= |s| && r == s[..|r|]
    ensures AllSpace(s[|r|..])
    ensures r == [] || !IsSpace(r[|r| - 1])
  {
    if |s| > 0 && IsSpace(s[|s| - 1]) then
      var r := TrimEnd(s[..|s| - 1]);
      assert s[|r|..] == s[..|s| - 1][|r|..] + [s[|s| - 1]];
      assert s[..|r|] == s[..|s| - 1][..|r|];
      r
    else s
  }

  /** `s.trim()` */
  function Trim(s: string): (r: string)
    ensures Trimmed(r)
  {
    TrimEnd(TrimStart(s))
  }

  lemma {:induction false} TrimStartKeeps(s: string)
    requires s == [] || !IsSpace(s[0])
    ensures TrimStart(s) == s
  {
  }

  lemma {:induction false} TrimEndKeeps(s: string)
    requires s == [] || !IsSpace(s[|s| - 1])
    ensures TrimEnd(s) == s
  {
  }

  /** A trimmed string is its own trim. */
  lemma {:induction false} TrimOfTrimmed(s: string)
    requires Trimmed(s)
    ensures Trim(s) == s
  {
    TrimStartKeeps(s);
    TrimEndKeeps(s);
  }

  lemma TrimIdempotent(s: string)
    ensures Trim(Trim(s)) == Trim(s)
  {
    TrimOfTrimmed(Trim(s));
  }

  lemma {:induction false} TrimStartPadded(p: string, s: string)
    requires AllSpace(p)
    ensures TrimStart(p + s) == TrimStart(s)
  {
    if p != [] {
      assert (p + s)[1..] == p[1..] + s;
      TrimStartPadded(p[1..], s);
    } else {
      assert p + s == s;
    }
  }

  lemma {:induction false} TrimEndPadded(s: string, q: string)
    requires AllSpace(q)
    ensures TrimEnd(s + q) == TrimEnd(s)
  {
    if q != [] {
      assert (s + q)[..|s + q| - 1] == s + q[..|q| - 1];
      TrimEndPadded(s, q[..|q| - 1]);
    } else {
      assert s + q == s;
    }
  }

  lemma {:induction false} TrimStartOfPrefixEnd(s: string, q: string)
    requires AllSpace(q)
    ensures TrimEnd(TrimStart(s + q)) == TrimEnd(TrimStart(s))
  {
    var t := TrimStart(s);
    if t == [] {
      // every character of s is a space, so s + q is all space
      assert AllSpace(s + q) by {
        assert s == s[..|s|];
      }
      AllSpaceTrims(s + q);
      AllSpaceTrims(s);
    } else {
      var k := |s| - |t|;
      assert s == s[..k] + t;
      assert s + q == s[..k] + (t + q);
      TrimStartPadded(s[..k], t + q);
      TrimStartKeeps(t + q);
      assert TrimStart(s + q) == t + q;
      TrimEndPadded(t, q);
    }
  }

  lemma {:induction false} AllSpaceTrims(s: string)
    requires AllSpace(s)
    ensures TrimStart(s) == []
  {
    if s != [] {
      AllSpaceTrims(s[1..]);
    }
  }

  /** Leading and trailing white space make no difference to `trim`. */
  lemma TrimPadded(p: string, s: string, q: string)
    requires AllSpace(p) && AllSpace(q)
    ensures Trim(p + s + q) == Trim(s)
  {
    assert p + s + q == p + (s + q);
    TrimStartPadded(p, s + q);
    TrimStartOfPrefixEnd(s, q);
  }

  /** The trim of a padded trimmed string is that string. */
  lemma TrimAround(p: string, k: string, q: string)
    requires AllSpace(p) && AllSpace(q) && Trimmed(k)
    ensures Trim(p + k + q) == k
  {
    TrimPadded(p, k, q);
    TrimOfTrimmed(k);
  }

  /** `toUpperCase` on one character (ASCII letters only). */
  function UpperChar(c: char): char {
    if 'a' <= c <= 'z' then (c as int - 'a' as int + 'A' as int) as char else c
  }

  /** `toLowerCase` on one character (ASCII letters only). */
  function LowerChar(c: char): char {
    if 'A' <= c <= 'Z' then (c as int - 'A' as int + 'a' as int) as char else c
  }

  /** `s.toUpperCase()` */
  function Upper(s: string): (r: string)
    ensures |r| == |s|
    ensures forall i :: 0 <= i < |s| ==> r[i] == UpperChar(s[i])
  {
    seq(|s|, i requires 0 <= i < |s| => UpperChar(s[i]))
  }

  /** `s.toLowerCase()` */
  function Lower(s: string): (r: string)
    ensures |r| == |s|
    ensures forall i :: 0 <= i < |s| ==> r[i] == LowerChar(s[i])
  {
    seq(|s|, i requires 0 <= i < |s| => LowerChar(s[i]))
  }

  /** No ASCII lower-case letter remains after `Upper`. */
  lemma UpperHasNoLowerCase(s: string)
    ensures forall i :: 0 <= i < |s| ==> !('a' <= Upper(s)[i] <= 'z')
  {
  }

  lemma UpperIdempotent(s: string)
    ensures Upper(Upper(s)) == Upper(s)
  {
  }

  /** Upper-casing changes no character's white-space-ness, so it commutes with `trim`. */
  lemma UpperCharSpace(c: char)
    ensures IsSpace(UpperChar(c)) == IsSpace(c)
  {
  }

  lemma {:induction false} TrimStartUpper(s: string)
    ensures TrimStart(Upper(s)) == Upper(TrimStart(s))
  {
    if |s| > 0 {
      UpperCharSpace(s[0]);
      assert Upper(s)[0] == UpperChar(s[0]);
      if IsSpace(s[0]) {
        assert Upper(s)[1..] == Upper(s[1..]);
        assert TrimStart(Upper(s)) == TrimStart(Upper(s)[1..]);
        TrimStartUpper(s[1..]);
      }
    }
  }

  lemma {:induction false} TrimEndUpper(s: string)
    ensures TrimEnd(Upper(s)) == Upper(TrimEnd(s))
  {
    if |s| > 0 {
      UpperCharSpace(s[|s| - 1]);
      assert Upper(s)[|s| - 1] == UpperChar(s[|s| - 1]);
      if IsSpace(s[|s| - 1]) {
        assert Upper(s)[..|s| - 1] == Upper(s[..|s| - 1]);
        assert TrimEnd(Upper(s)) == TrimEnd(Upper(s)[..|s| - 1]);
        TrimEndUpper(s[..|s| - 1]);
      }
    }
  }

  lemma TrimUpper(s: string)
    ensures Trim(Upper(s)) == Upper(Trim(s))
  {
    TrimStartUpper(s);
    TrimEndUpper(TrimStart(s));
  }

  /** `s.trim().toUpperCase()`, the normaliser both lane-key modules apply to cities. */
  function TrimUpperCase(s: string): (r: string)
    ensures Trimmed(r)
  {
    TrimUpper(s);
    Upper(Trim(s))
  }

  /** The normal form has no ASCII lower-case letter left. */
  lemma TrimUpperCaseIsUpper(s: string)
    ensures Upper(TrimUpperCase(s)) == TrimUpperCase(s)
    ensures forall i :: 0 <= i < |TrimUpperCase(s)| ==> !('a' <= TrimUpperCase(s)[i] <= 'z')
  {
    UpperIdempotent(Trim(s));
    UpperHasNoLowerCase(Trim(s));
  }

  /** Normalising twice is normalising once. */
  lemma TrimUpperCaseIdempotent(s: string)
    ensures TrimUpperCase(TrimUpperCase(s)) == TrimUpperCase(s)
  {
    var t := Trim(s);
    TrimUpper(t);
    TrimIdempotent(s);
    UpperIdempotent(t);
  }

  /** Padding with white space, or changing the case of letters, leaves the normal form unchanged. */
  lemma TrimUpperCaseInvariant(p: string, s: string, s': string, q: string)
    requires AllSpace(p) && AllSpace(q)
    requires Upper(s') == Upper(s)
    ensures TrimUpperCase(p + s' + q) == TrimUpperCase(s)
  {
    TrimPadded(p, s', q);
    TrimUpper(s');
    TrimUpper(s);
  }

  /** A trimmed string normalises to its upper-case form. */
  lemma TrimUpperCaseOfTrimmed(s: string, u: string)
    requires Trimmed(s) && Upper(s) == u
    ensures TrimUpperCase(s) == u
  {
    TrimOfTrimmed(s);
  }

  /** A trimmed string padded with white space normalises to its upper-case form. */
  lemma TrimUpperCaseOfPadded(p: string, k: string, q: string, u: string)
    requires AllSpace(p) && AllSpace(q) && Trimmed(k) && Upper(k) == u
    ensures TrimUpperCase(p + k + q) == u
  {
    TrimAround(p, k, q);
  }

  /** The lower-case word `pat` occurs in `s` at position `i`, ignoring case. */
  predicate OccursAt(s: string, pat: string, i: nat) {
    i + |pat| <= |s| && Lower(s[i..i + |pat|]) == pat
  }

  /** `/pat/i.test(s)` for a literal lower-case word `pat`: a search from the left. */
  function ContainsIgnoreCase(s: string, pat: string): bool
    decreases |s|
  {
    if OccursAt(s, pat, 0) then true
    else if |s| == 0 then false
    else ContainsIgnoreCase(s[1..], pat)
  }

  lemma OccursAtShift(s: string, pat: string, i: nat)
    requires |s| > 0
    ensures OccursAt(s[1..], pat, i) <==> OccursAt(s, pat, i + 1)
  {
    if i + |pat| <= |s[1..]| {
      var a, b := s[1..][i..i + |pat|], s[i + 1..i + 1 + |pat|];
      assert |a| == |b|;
      forall k | 0 <= k < |a| ensures a[k] == b[k] {
        assert a[k] == s[1..][i + k] == s[i + 1 + k];
      }
      assert a == b;
    }
  }

  /** The search finds the word exactly when it occurs somewhere. */
  lemma {:induction false} ContainsIgnoreCaseFinds(s: string, pat: string)
    ensures ContainsIgnoreCase(s, pat) <==> exists i: nat :: OccursAt(s, pat, i)
    decreases |s|
  {
    if !OccursAt(s, pat, 0) && |s| > 0 {
      ContainsIgnoreCaseFinds(s[1..], pat);
      forall i: nat ensures OccursAt(s[1..], pat, i) <==> OccursAt(s, pat, i + 1) {
        OccursAtShift(s, pat, i);
      }
      if ContainsIgnoreCase(s, pat) {
        var i: nat :| OccursAt(s[1..], pat, i);
        assert OccursAt(s, pat, i + 1);
      }
      if exists i: nat :: OccursAt(s, pat, i) {
        var i: nat :| OccursAt(s, pat, i);
        assert i != 0;
        assert OccursAt(s[1..], pat, i - 1);
      }
    } else if !OccursAt(s, pat, 0) {
      assert forall i: nat :: !OccursAt(s, pat, i);
    }
  }

  /**
   * Splitting at the first occurrence of a separator character: when neither `a` nor `a'`
   * contains `c`, `a + [c] + b == a' + [c] + b'` forces `a == a'` and `b == b'`.
   */
  lemma {:induction false} SplitAtFirst(a: string, b: string, a': string, b': string, c: char)
    requires c !in a && c !in a'
    requires a + [c] + b == a' + [c] + b'
    ensures a == a' && b == b'
  {
    var w := a + [c] + b;
    assert w == a' + [c] + b';
    assert forall i :: 0 <= i < |a| ==> w[i] == a[i] != c;
    assert forall i :: 0 <= i < |a'| ==> w[i] == a'[i] != c;
    assert w[|a|] == c && w[|a'|] == c;
    assert |a| == |a'|;
    assert a == w[..|a|] == a';
    assert b == w[|a| + 1..] == b';
  }

  /** Reading `(a SEP1 b) SEP2 (c SEP3 d)` back when `a`, `b`, `c` do not contain the separator after them. */
  lemma {:induction false} SplitFour(a: string, b: string, c: string, d: string,
                                     a': string, b': string, c': string, d': string,
                                     s1: char, s2: char, s3: char)
    requires s1 !in a && s1 !in a' && s2 !in b && s2 !in b' && s3 !in c && s3 !in c'
    requires (a + [s1] + b) + [s2] + (c + [s3] + d) == (a' + [s1] + b') + [s2] + (c' + [s3] + d')
    ensures a == a' && b == b' && c == c' && d == d'
  {
    var t, t' := c + [s3] + d, c' + [s3] + d';
    var r, r' := b + [s2] + t, b' + [s2] + t';
    assert (a + [s1] + b) + [s2] + t == a + [s1] + r;
    assert (a' + [s1] + b') + [s2] + t' == a' + [s1] + r';
    SplitAtFirst(a, r, a', r', s1);
    SplitAtFirst(b, t, b', t', s2);
    SplitAtFirst(c, d, c', d', s3);
  }

  /** `s.split(sep)[0]`: the text before the first `sep`, or all of `s` when there is none. */
  function FirstField(s: string, sep: char): (r: string)
    ensures |r| <= |s| && r == s[..|r|]
    ensures sep !in r
    ensures |r| < |s| ==> s[|r|] == sep
  {
    if s == [] || s[0] == sep then [] else [s[0]] + FirstField(s[1..], sep)
  }

  /** Whatever follows the first separator makes no difference to the first field. */
  lemma {:induction false} FirstFieldOf(a: string, b: string, sep: char)
    requires sep !in a
    ensures FirstField(a + [sep] + b, sep) == a
    ensures FirstField(a, sep) == a
  {
    if a != [] {
      assert (a + [sep] + b)[1..] == a[1..] + [sep] + b;
      FirstFieldOf(a[1..], b, sep);
    } else {
      assert a + [sep] + b == [sep] + b;
    }
  }
}
