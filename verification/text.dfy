/** Character-level helpers shared by the categorizer and the analytics:
    lower-casing, substring search, regex word boundaries and the
    code-point ordering Python uses for `str` comparison. */
module Text {
  import opened Wrappers

  /** Python's `str.lower` restricted to ASCII: `A`..`Z` become `a`..`z`,
      every other character is kept. */
  function LowerChar(c: char): char {
    if 'A' <= c <= 'Z' then (c as int + 32) as char else c
  }

  function Lower(s: string): (r: string)
    ensures |r| == |s|
    ensures forall i :: 0 <= i < |s| ==> r[i] == LowerChar(s[i])
  {
    if |s| == 0 then [] else [LowerChar(s[0])] + Lower(s[1..])
  }

  /** `k` occurs in `s` starting at position `i`. */
  ghost predicate OccursAt(s: string, k: string, i: int) {
    0 <= i && i + |k| <= |s| && s[i..i + |k|] == k
  }

  /** Python's `k in s` for strings. */
  ghost predicate Contains(s: string, k: string) {
    exists i :: OccursAt(s, k, i)
  }

  /** Python's `s.find(k)`: the first position where `k` occurs in `s`. */
  function Find(s: string, k: string): (r: Option<nat>)
    ensures r.Some? ==> OccursAt(s, k, r.value)
    ensures r.Some? ==> forall j :: 0 <= j < r.value ==> !OccursAt(s, k, j)
    ensures r.None? <==> !Contains(s, k)
    decreases |s|
  {
    if |k| > |s| then None
    else if s[..|k|] == k then Some(0)
    else
      match Find(s[1..], k)
      case None =>
        forall j | 0 < j ensures !OccursAt(s, k, j) {
          OccursAtShift(s, k, j);
        }
        None
      case Some(i) =>
        OccursAtShift(s, k, i + 1);
        forall j | 0 < j <= i ensures !OccursAt(s, k, j) {
          OccursAtShift(s, k, j);
        }
        Some(i + 1)
  }

  /** Dropping the first character shifts every later occurrence by one. */
  lemma OccursAtShift(s: string, k: string, j: int)
    requires 0 < j && 0 < |s|
    ensures OccursAt(s, k, j) <==> OccursAt(s[1..], k, j - 1)
  {
    if j + |k| <= |s| {
      assert s[j..j + |k|] == s[1..][j - 1..j - 1 + |k|];
    }
  }

  /** Substring search as Python's `in` operator computes it. */
  predicate HasSubstring(s: string, k: string) {
    Find(s, k).Some?
  }

  /** An occurrence of a longer string carries an occurrence of each of its
      prefixes: whatever contains "food court" contains "food". */
  lemma {:induction false} ContainsPrefix(s: string, k: string, n: nat)
    requires n <= |k|
    requires Contains(s, k)
    ensures Contains(s, k[..n])
  {
    var i :| OccursAt(s, k, i);
    assert s[i..i + n] == k[..n] by {
      assert s[i..i + n] == s[i..i + |k|][..n];
    }
    assert OccursAt(s, k[..n], i);
  }

  /** A regex word character (`\w`) for ASCII text. */
  predicate IsWordChar(c: char) {
    'a' <= c <= 'z' || 'A' <= c <= 'Z' || '0' <= c <= '9' || c == '_'
  }

  /** Regex `\b` at position `i` of `s`: exactly one side is a word character. */
  predicate AtBoundary(s: string, i: int)
    requires 0 <= i <= |s|
  {
    (i > 0 && IsWordChar(s[i - 1])) != (i < |s| && IsWordChar(s[i]))
  }

  /** Regex `\bw\b` matches `s` at position `i`. */
  ghost predicate WordAt(s: string, w: string, i: int) {
    OccursAt(s, w, i) && AtBoundary(s, i) && AtBoundary(s, i + |w|)
  }

  /** Some word of `ws` occurs in `s` between two word boundaries: whether
      `re.search(r'\b(w1|w2|...)\b', s)` finds a match. */
  predicate MatchesWordPattern(s: string, ws: seq<string>)
  {
    exists i, j | 0 <= j < |ws| && 0 <= i <= |s| - |ws[j]| ::
      s[i..i + |ws[j]|] == ws[j] && AtBoundary(s, i) && AtBoundary(s, i + |ws[j]|)
  }

  /** A word-boundary match is in particular a plain substring match. */
  lemma WordPatternHasSubstring(s: string, ws: seq<string>)
    requires MatchesWordPattern(s, ws)
    ensures exists j :: 0 <= j < |ws| && Contains(s, ws[j])
  {
    var i, j :| 0 <= j < |ws| && 0 <= i <= |s| - |ws[j]| && s[i..i + |ws[j]|] == ws[j]
                && AtBoundary(s, i) && AtBoundary(s, i + |ws[j]|);
    assert OccursAt(s, ws[j], i);
  }

  /** Python's `<` on `str`: lexicographic by code point, a proper prefix
      sorting first. */
  predicate StrLess(a: string, b: string) {
    if |a| == 0 then |b| > 0
    else if |b| == 0 then false
    else if a[0] != b[0] then a[0] < b[0]
    else StrLess(a[1..], b[1..])
  }

  lemma StrLessIrreflexive(a: string)
    ensures !StrLess(a, a)
  {
  }

  lemma StrLessTransitive(a: string, b: string, c: string)
    requires StrLess(a, b) && StrLess(b, c)
    ensures StrLess(a, c)
  {
    if |a| > 0 && |b| > 0 && |c| > 0 && a[0] == b[0] && b[0] == c[0] {
      StrLessTransitive(a[1..], b[1..], c[1..]);
    }
  }

  lemma StrLessConnected(a: string, b: string)
    requires a != b
    ensures StrLess(a, b) || StrLess(b, a)
  {
    if |a| > 0 && |b| > 0 && a[0] == b[0] {
      assert a == [a[0]] + a[1..] && b == [b[0]] + b[1..];
      StrLessConnected(a[1..], b[1..]);
    }
  }
}
