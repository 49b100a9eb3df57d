/** Strings as the classifier sees them: ECMAScript `String.prototype.trim`,
    unanchored substring occurrence, and the blank / `#N/A` guard shared by
    all three classifiers. */
module Text {

  /** The ECMAScript WhiteSpace and LineTerminator code points, which is the
      set `trim` strips from both ends. */
  predicate IsWhitespace(c: char)
  {
    var n := c as int;
    n == 0x09 || n == 0x0A || n == 0x0B || n == 0x0C || n == 0x0D || n == 0x20
    || n == 0xA0 || n == 0x1680 || (0x2000 <= n <= 0x200A)
    || n == 0x2028 || n == 0x2029 || n == 0x202F || n == 0x205F
    || n == 0x3000 || n == 0xFEFF
  }

  /** Number of whitespace characters at the start of `s`. */
  function LeadingSpace(s: string): (n: nat)
    ensures n <= |s|
    ensures forall i | 0 <= i < n :: IsWhitespace(s[i])
    ensures n < |s| ==> !IsWhitespace(s[n])
  {
    if |s| > 0 && IsWhitespace(s[0]) then 1 + LeadingSpace(s[1..]) else 0
  }

  /** Number of whitespace characters at the end of `s`. */
  function TrailingSpace(s: string): (n: nat)
    ensures n <= |s|
    ensures forall i | |s| - n <= i < |s| :: IsWhitespace(s[i])
    ensures n < |s| ==> !IsWhitespace(s[|s| - n - 1])
  {
    if |s| > 0 && IsWhitespace(s[|s| - 1]) then 1 + TrailingSpace(s[..|s| - 1]) else 0
  }

  /** `r` is what is left of `s` once the whitespace before offset `i` and
      after offset `i + |r|` is removed, and `r` neither starts nor ends
      with whitespace. */
  predicate IsTrimOf(s: string, r: string, i: nat)
  {
    && i + |r| <= |s|
    && s[i..i + |r|] == r
    && (forall k | 0 <= k < i :: IsWhitespace(s[k]))
    && (forall k | i + |r| <= k < |s| :: IsWhitespace(s[k]))
    && (|r| > 0 ==> !IsWhitespace(r[0]) && !IsWhitespace(r[|r| - 1]))
  }

  /** `String.prototype.trim`. */
  function Trim(s: string): (r: string)
    ensures IsTrimOf(s, r, LeadingSpace(s))
  {
    var i := LeadingSpace(s);
    var t := s[i..];
    var j := |t| - TrailingSpace(t);
    assert j > 0 ==> !IsWhitespace(t[0]);
    s[i..i + j]
  }

  /** Trimming has exactly one possible outcome: any split of `s` into
      whitespace, a clean middle and whitespace has `Trim(s)` as its middle. */
  lemma {:induction false} TrimUnique(s: string, r: string, i: nat)
    requires IsTrimOf(s, r, i)
    ensures r == Trim(s)
  {
    var t := Trim(s);
    var lead := LeadingSpace(s);
    if |r| > 0 && |t| > 0 {
      assert s[i] == r[0];
      assert s[lead] == t[0];
      assert lead == i;
      assert s[i + |r| - 1] == r[|r| - 1];
      assert s[lead + |t| - 1] == t[|t| - 1];
      assert |t| == |r|;
    }
  }

  /** Trimming twice changes nothing beyond trimming once. */
  lemma TrimIdempotent(s: string)
    ensures Trim(Trim(s)) == Trim(s)
  {
    var t := Trim(s);
    assert IsTrimOf(t, t, 0);
    TrimUnique(t, t, 0);
  }

  /** `w` occurs in `s` starting at offset `k`. */
  predicate OccursAt(s: string, w: string, k: nat)
  {
    k + |w| <= |s| && s[k..k + |w|] == w
  }

  /** `w` occurs somewhere in `s`: an unanchored, case-sensitive search. */
  predicate Contains(s: string, w: string)
  {
    exists k: nat | k <= |s| :: OccursAt(s, w, k)
  }

  /** Occurrence is transitive: a string containing `u` contains everything
      `u` contains. */
  lemma ContainsTransitive(s: string, u: string, v: string)
    requires Contains(s, u) && Contains(u, v)
    ensures Contains(s, v)
  {
    var k: nat :| k <= |s| && OccursAt(s, u, k);
    var m: nat :| m <= |u| && OccursAt(u, v, m);
    forall j | 0 <= j < |v|
      ensures s[k + m + j] == v[j]
    {
      assert s[k + m + j] == s[k..k + |u|][m + j];
    }
    assert OccursAt(s, v, k + m);
  }

  /** A string containing `u + v` contains its prefix `u`. */
  lemma ContainsPrefix(s: string, u: string, v: string)
    requires Contains(s, u + v)
    ensures Contains(s, u)
  {
    assert OccursAt(u + v, u, 0);
    ContainsTransitive(s, u + v, u);
  }

  /** `w` is nonempty and neither starts nor ends with whitespace. */
  predicate CleanEdges(w: string)
  {
    |w| > 0 && !IsWhitespace(w[0]) && !IsWhitespace(w[|w| - 1])
  }

  /** For a word with clean edges, searching the trimmed string and searching
      the raw string agree: trimming only removes whitespace the word cannot
      overlap. */
  lemma ContainsTrim(s: string, w: string)
    requires CleanEdges(w)
    ensures Contains(Trim(s), w) <==> Contains(s, w)
  {
    if Contains(Trim(s), w) {
      var k: nat :| k <= |Trim(s)| && OccursAt(Trim(s), w, k);
      OccurrenceOutOfTrim(s, w, k);
    }
    if Contains(s, w) {
      var k: nat :| k <= |s| && OccursAt(s, w, k);
      OccurrenceIntoTrim(s, w, k);
    }
  }

  /** An occurrence at `k` in the trimmed string is an occurrence in `s`,
      shifted by the leading whitespace. */
  lemma OccurrenceOutOfTrim(s: string, w: string, k: nat)
    requires OccursAt(Trim(s), w, k)
    ensures OccursAt(s, w, LeadingSpace(s) + k)
  {
    var t := Trim(s);
    var i := LeadingSpace(s);
    assert IsTrimOf(s, t, i);
    assert s[i..i + |t|] == t;
    forall j | 0 <= j < |w|
      ensures s[i + k + j] == w[j]
    {
      assert s[i + k + j] == s[i..i + |t|][k + j];
      assert t[k + j] == t[k..k + |w|][j];
    }
  }

  /** An occurrence of a clean word in `s` lies inside the trimmed part. */
  lemma OccurrenceIntoTrim(s: string, w: string, k: nat)
    requires CleanEdges(w) && OccursAt(s, w, k)
    ensures k >= LeadingSpace(s)
    ensures OccursAt(Trim(s), w, k - LeadingSpace(s))
  {
    var t := Trim(s);
    var i := LeadingSpace(s);
    assert s[k] == s[k..k + |w|][0];
    assert s[k + |w| - 1] == s[k..k + |w|][|w| - 1];
    assert i <= k;
    assert k + |w| <= i + |t|;
    forall j | 0 <= j < |w|
      ensures t[k - i + j] == w[j]
    {
      assert t[k - i + j] == s[i..i + |t|][k - i + j];
      assert s[k + j] == s[k..k + |w|][j];
    }
  }

  /** The guard at the top of every classifier: the trimmed line is empty or
      is the spreadsheet missing-value marker `#N/A`. */
  predicate IsMissing(line: string)
  {
    var t := Trim(line);
    t == "" || t == "#N/A"
  }

  /** A line that contains any clean word longer than the marker `#N/A` is
      never treated as missing. */
  lemma ContainsWordNotMissing(line: string, w: string)
    requires CleanEdges(w) && |w| > 4 && Contains(line, w)
    ensures !IsMissing(line)
  {
    ContainsTrim(line, w);
  }
}
