/** Character-level text operations used by the matcher: ASCII lower-casing,
    whitespace stripping, substring search (Python's `in` on strings) and the
    regular-expression word boundary `\b`. */
module Text {

  /** Python's `str.lower`, restricted to ASCII letters. */
  function LowerChar(c: char): (r: char)
    ensures 'A' <= c <= 'Z' ==> r as int == c as int + 32
    ensures !('A' <= c <= 'Z') ==> r == c
  {
    if 'A' <= c <= 'Z' then (c as int + 32) as char else c
  }

  function Lower(s: string): (r: string)
    ensures |r| == |s|
  {
    if s == [] then [] else [LowerChar(s[0])] + Lower(s[1..])
  }

  lemma {:induction false} LowerAt(s: string, i: int)
    requires 0 <= i < |s|
    ensures Lower(s)[i] == LowerChar(s[i])
  {
    if i > 0 { LowerAt(s[1..], i - 1); }
  }

  /** `[s.lower() for s in xs]` */
  function LowerAll(xs: seq<string>): (r: seq<string>)
    ensures |r| == |xs|
  {
    if xs == [] then [] else [Lower(xs[0])] + LowerAll(xs[1..])
  }

  lemma {:induction false} LowerAllAt(xs: seq<string>, i: int)
    requires 0 <= i < |xs|
    ensures LowerAll(xs)[i] == Lower(xs[i])
  {
    if i > 0 { LowerAllAt(xs[1..], i - 1); }
  }

  /** The string holds no upper-case ASCII letter. */
  predicate IsLowerCase(s: string)
  {
    forall i :: 0 <= i < |s| ==> !('A' <= s[i] <= 'Z')
  }

  lemma {:induction false} LowerOfLowerCase(s: string)
    requires IsLowerCase(s)
    ensures Lower(s) == s
  {
    if s != [] {
      LowerOfLowerCase(s[1..]);
      assert s == [s[0]] + s[1..];
    }
  }

  lemma {:induction false} LowerAllOfLowerCase(xs: seq<string>)
    requires forall i :: 0 <= i < |xs| ==> IsLowerCase(xs[i])
    ensures LowerAll(xs) == xs
  {
    if xs != [] {
      LowerOfLowerCase(xs[0]);
      LowerAllOfLowerCase(xs[1..]);
      assert xs == [xs[0]] + xs[1..];
    }
  }

  /** Lower-casing twice is lower-casing once. */
  lemma LowerIdempotent(s: string)
    ensures Lower(Lower(s)) == Lower(s)
  {
    forall i | 0 <= i < |s| ensures Lower(Lower(s))[i] == Lower(s)[i] {
      LowerAt(s, i);
      LowerAt(Lower(s), i);
    }
  }

  /** The ASCII characters for which Python's `str.isspace` holds. */
  predicate IsSpace(c: char)
  {
    9 <= c as int <= 13 || 28 <= c as int <= 32
  }

  function StripLeft(s: string): (r: string)
    ensures |r| <= |s| && r == s[|s| - |r|..]
    ensures r == [] || !IsSpace(r[0])
    ensures forall i :: 0 <= i < |s| - |r| ==> IsSpace(s[i])
  {
    if s != [] && IsSpace(s[0]) then StripLeft(s[1..]) else s
  }

  function StripRight(s: string): (r: string)
    ensures |r| <= |s| && r == s[..|r|]
    ensures r == [] || !IsSpace(r[|r| - 1])
    ensures forall i :: |r| <= i < |s| ==> IsSpace(s[i])
  {
    if s != [] && IsSpace(s[|s| - 1]) then StripRight(s[..|s| - 1]) else s
  }

  /** Python's `str.strip()` (ASCII whitespace). */
  function Strip(s: string): (r: string)
    ensures r == [] || (!IsSpace(r[0]) && !IsSpace(r[|r| - 1]))
  {
    StripRight(StripLeft(s))
  }

  /** Lower-casing and stripping a text made only of whitespace leaves
      nothing. */
  lemma BlankStripsToEmpty(s: string)
    requires forall i :: 0 <= i < |s| ==> IsSpace(s[i])
    ensures Strip(Lower(s)) == []
  {
    var l := Lower(s);
    forall i | 0 <= i < |l| ensures IsSpace(l[i]) {
      LowerAt(s, i);
    }
  }

  /** `p` occurs in `t` starting at index `i`. */
  predicate OccursAt(p: string, t: string, i: int)
  {
    0 <= i && i + |p| <= |t| && t[i..i + |p|] == p
  }

  /** Python's `p in t` for strings: a plain substring test. */
  predicate Contains(t: string, p: string)
  {
    exists i :: 0 <= i <= |t| - |p| && OccursAt(p, t, i)
  }

  /** A substring of a substring is a substring. */
  lemma ContainsTransitive(t: string, p: string, q: string)
    requires Contains(t, p) && Contains(p, q)
    ensures Contains(t, q)
  {
    var i :| 0 <= i <= |t| - |p| && OccursAt(p, t, i);
    var j :| 0 <= j <= |p| - |q| && OccursAt(q, p, j);
    forall k | 0 <= k < |q| ensures t[i + j + k] == q[k] {
      assert q[k] == p[j + k];
      assert p[j + k] == t[i + j + k];
    }
    assert OccursAt(q, t, i + j);
  }

  /** The characters `\w` stands for in an ASCII regular expression. */
  predicate IsWordChar(c: char)
  {
    'a' <= c <= 'z' || 'A' <= c <= 'Z' || '0' <= c <= '9' || c == '_'
  }

  /** `\b` holds at position `k` of `t` (0 <= k <= |t|): exactly one of the
      characters on either side is a word character, a string edge counting
      as a non-word character. */
  predicate Boundary(t: string, k: int)
    requires 0 <= k <= |t|
  {
    (k > 0 && IsWordChar(t[k - 1])) != (k < |t| && IsWordChar(t[k]))
  }

  /** The regular expression `\b` + escape(p) + `\b` matches `t` at `i`. */
  predicate WholePhraseAt(p: string, t: string, i: int)
  {
    OccursAt(p, t, i) && Boundary(t, i) && Boundary(t, i + |p|)
  }

  /** `re.search(r'\b' + re.escape(p) + r'\b', t)` finds a match. */
  predicate WholePhraseIn(t: string, p: string)
  {
    exists i :: 0 <= i <= |t| - |p| && WholePhraseAt(p, t, i)
  }

  /** For a phrase that starts and ends with a word character, the boundary
      test reduces to: the neighbouring characters are non-word characters or
      string edges. */
  lemma WholePhraseAtNeighbours(p: string, t: string, i: int)
    requires p != [] && IsWordChar(p[0]) && IsWordChar(p[|p| - 1])
    ensures WholePhraseAt(p, t, i) <==>
      && OccursAt(p, t, i)
      && (i == 0 || !IsWordChar(t[i - 1]))
      && (i + |p| == |t| || !IsWordChar(t[i + |p|]))
  {
    if OccursAt(p, t, i) {
      assert t[i] == p[0];
      assert t[i + |p| - 1] == p[|p| - 1];
    }
  }

  /** The empty text contains only the empty string. */
  lemma EmptyContainsOnlyEmpty(p: string)
    requires Contains([], p)
    ensures p == []
  {
  }

  /** The empty text holds no whole-phrase match of a non-empty phrase. */
  lemma EmptyHasNoWholePhrase(p: string)
    requires p != []
    ensures !WholePhraseIn([], p)
  {
  }

  /** A whole-phrase match is in particular a substring occurrence. */
  lemma WholePhraseInContains(t: string, p: string)
    requires WholePhraseIn(t, p)
    ensures Contains(t, p)
  {
  }
}
