/**
 * `String.prototype.replace` with a global regular expression, written out by hand.
 * A pattern is a `Matcher`: given the whole subject and a position, it either fails
 * or reports how many characters it consumes and what they become. The scan is the
 * one ECMAScript prescribes: try at the current position; on success emit the
 * replacement and resume after the match, otherwise copy one character.
 */
module Rewrite {
  import opened Wrappers
  import opened Text

  type Matcher = (string, nat) -> Option<(nat, string)>

  /** Whether `m` reports a usable (non-empty, in-bounds) match at `i`. */
  predicate Hits(s: string, m: Matcher, i: nat)
  {
    i < |s| && m(s, i).Some? && 1 <= m(s, i).value.0 <= |s| - i
  }

  /** The match at `j` only changes the letter case of what it consumes. */
  predicate CaseOnlyAt(s: string, m: Matcher, j: nat)
    requires Hits(s, m, j)
  {
    Lower(m(s, j).value.1) == Lower(s[j..j + m(s, j).value.0])
  }

  function ScanFrom(s: string, m: Matcher, i: nat): string
    requires i <= |s|
    decreases |s| - i
  {
    if i == |s| then []
    else if Hits(s, m, i) then m(s, i).value.1 + ScanFrom(s, m, i + m(s, i).value.0)
    else [s[i]] + ScanFrom(s, m, i + 1)
  }

  /** `s.replace(/…/g, …)`. */
  function ReplaceAll(s: string, m: Matcher): string
  {
    ScanFrom(s, m, 0)
  }

  /** A match is replaced and the scan resumes after it. */
  lemma ScanHit(s: string, m: Matcher, i: nat)
    requires Hits(s, m, i)
    ensures ScanFrom(s, m, i) == m(s, i).value.1 + ScanFrom(s, m, i + m(s, i).value.0)
  {
  }

  /** Where the pattern matches nowhere, the text is returned unchanged. */
  lemma {:induction false} ScanNoHit(s: string, m: Matcher, i: nat)
    requires i <= |s|
    requires forall j :: i <= j < |s| ==> !Hits(s, m, j)
    ensures ScanFrom(s, m, i) == s[i..]
    decreases |s| - i
  {
    if i < |s| {
      ScanNoHit(s, m, i + 1);
    }
  }

  /** Positions where nothing matches are copied through one by one. */
  lemma {:induction false} ScanSkip(s: string, m: Matcher, i: nat, j: nat)
    requires i <= j <= |s|
    requires forall k :: i <= k < j ==> !Hits(s, m, k)
    ensures ScanFrom(s, m, i) == s[i..j] + ScanFrom(s, m, j)
    decreases j - i
  {
    if i < j {
      assert !Hits(s, m, i);
      assert ScanFrom(s, m, i) == [s[i]] + ScanFrom(s, m, i + 1);
      ScanSkip(s, m, i + 1, j);
      assert s[i..j] == [s[i]] + s[i + 1..j];
    }
  }

  /** Where every match is replaced by exactly what it matched, the text comes out unchanged. */
  lemma {:induction false} ScanIdentity(s: string, m: Matcher, i: nat)
    requires i <= |s|
    requires forall k :: i <= k < |s| && Hits(s, m, k) ==> m(s, k).value.1 == s[k..k + m(s, k).value.0]
    ensures ScanFrom(s, m, i) == s[i..]
    decreases |s| - i
  {
    if i < |s| {
      var next := if Hits(s, m, i) then i + m(s, i).value.0 else i + 1;
      ScanIdentity(s, m, next);
      assert s[i..] == s[i..next] + s[next..];
    }
  }

  /** A scan stays within a character class when the text and every replacement do. */
  lemma {:induction false} ScanKeeps(s: string, m: Matcher, i: nat, p: char -> bool)
    requires i <= |s|
    requires forall k :: 0 <= k < |s| ==> p(s[k])
    requires forall k :: i <= k < |s| && Hits(s, m, k) ==> forall c :: c in m(s, k).value.1 ==> p(c)
    ensures forall c :: c in ScanFrom(s, m, i) ==> p(c)
    decreases |s| - i
  {
    if i < |s| {
      var next := if Hits(s, m, i) then i + m(s, i).value.0 else i + 1;
      var out := if Hits(s, m, i) then m(s, i).value.1 else [s[i]];
      ScanKeeps(s, m, next, p);
      assert ScanFrom(s, m, i) == out + ScanFrom(s, m, next);
    }
  }

  /** A replacement that only ever changes the case of what it matched changes only case. */
  lemma {:induction false} ScanCaseOnly(s: string, m: Matcher, i: nat)
    requires i <= |s|
    requires forall j :: i <= j < |s| && Hits(s, m, j) ==> CaseOnlyAt(s, m, j)
    ensures Lower(ScanFrom(s, m, i)) == Lower(s[i..])
    decreases |s| - i
  {
    if i < |s| {
      var next := if Hits(s, m, i) then i + m(s, i).value.0 else i + 1;
      var out := if Hits(s, m, i) then m(s, i).value.1 else [s[i]];
      assert ScanFrom(s, m, i) == out + ScanFrom(s, m, next);
      assert Lower(out) == Lower(s[i..next]);
      ScanCaseOnly(s, m, next);
      LowerConcat(out, ScanFrom(s, m, next));
      assert s[i..] == s[i..next] + s[next..];
      LowerConcat(s[i..next], s[next..]);
    }
  }

  // ------------------------------------------------------------ literal patterns

  /** Case-insensitive equality of ASCII text. */
  predicate EqualsCI(a: string, b: string) { Lower(a) == Lower(b) }

  /** `pat` occurs at position `i` of `s`, ignoring case. */
  predicate OccursCIAt(s: string, pat: string, i: nat)
  {
    i + |pat| <= |s| && EqualsCI(s[i..i + |pat|], pat)
  }

  /** `new RegExp(pat, 'gi')` for a pattern without metacharacters, replaced by `rep`. */
  function LiteralCI(pat: string, rep: string, s: string, i: nat): Option<(nat, string)>
  {
    if 0 < |pat| && OccursCIAt(s, pat, i) then Some((|pat|, rep))
    else None
  }

  /** `\b` at position `k`: the characters on the two sides differ in being word characters. */
  predicate WordBoundary(s: string, k: nat)
  {
    (0 < k <= |s| && IsWordChar(s[k - 1])) != (k < |s| && IsWordChar(s[k]))
  }

  /** `new RegExp('\\b' + pat + '\\b', 'gi')`, replaced by `rep`. */
  function WholeWordCI(pat: string, rep: string, s: string, i: nat): Option<(nat, string)>
  {
    if 0 < |pat| && OccursCIAt(s, pat, i) && WordBoundary(s, i) && WordBoundary(s, i + |pat|)
    then Some((|pat|, rep))
    else None
  }

  function ReplaceAllCI(s: string, pat: string, rep: string): string
  {
    ReplaceAll(s, (t, i) => LiteralCI(pat, rep, t, i))
  }

  function ReplaceWholeWordCI(s: string, pat: string, rep: string): string
  {
    ReplaceAll(s, (t, i) => WholeWordCI(pat, rep, t, i))
  }

  /** A whole-word pattern occurring nowhere (in any case) leaves the text unchanged. */
  lemma ReplaceWholeWordCIAbsent(s: string, pat: string, rep: string)
    requires forall j :: 0 <= j <= |s| ==> !OccursCIAt(s, pat, j)
    ensures ReplaceWholeWordCI(s, pat, rep) == s
  {
    var m: Matcher := (t, i) => WholeWordCI(pat, rep, t, i);
    forall j | 0 <= j < |s| ensures !Hits(s, m, j) {
      assert !OccursCIAt(s, pat, j);
    }
    ScanNoHit(s, m, 0);
  }

  /** Restoring the spelling of a name never changes anything but letter case. */
  lemma ReplaceAllCICaseOnly(s: string, pat: string, rep: string)
    requires EqualsCI(pat, rep)
    ensures |ReplaceAllCI(s, pat, rep)| == |s|
    ensures Lower(ReplaceAllCI(s, pat, rep)) == Lower(s)
  {
    var m: Matcher := (t, i) => LiteralCI(pat, rep, t, i);
    forall j | 0 <= j < |s| && Hits(s, m, j) ensures CaseOnlyAt(s, m, j) {
      assert OccursCIAt(s, pat, j);
    }
    ScanCaseOnly(s, m, 0);
    assert |Lower(ReplaceAllCI(s, pat, rep))| == |Lower(s)|;
  }

  /** A pattern occurring nowhere (in any case) leaves the text unchanged. */
  lemma ReplaceAllCIAbsent(s: string, pat: string, rep: string)
    requires forall j :: 0 <= j <= |s| ==> !OccursCIAt(s, pat, j)
    ensures ReplaceAllCI(s, pat, rep) == s
  {
    var m: Matcher := (t, i) => LiteralCI(pat, rep, t, i);
    forall j | 0 <= j < |s| ensures !Hits(s, m, j) {
      assert !OccursCIAt(s, pat, j);
    }
    ScanNoHit(s, m, 0);
  }

  /** Text that is exactly the pattern, in any case, becomes exactly the replacement. */
  lemma ReplaceAllCIWhole(s: string, pat: string, rep: string)
    requires pat != [] && EqualsCI(s, pat)
    ensures ReplaceAllCI(s, pat, rep) == rep
  {
    var m: Matcher := (t, i) => LiteralCI(pat, rep, t, i);
    assert |Lower(s)| == |Lower(pat)|;
    assert s[0..|pat|] == s;
    assert OccursCIAt(s, pat, 0);
    assert Hits(s, m, 0);
    assert ScanFrom(s, m, 0) == rep + ScanFrom(s, m, |s|);
  }

  predicate AllWordChars(s: string) { forall i :: 0 <= i < |s| ==> IsWordChar(s[i]) }

  /**
   * Inside a single word, `\bpat\b` can only match the whole word; so a word that is
   * not `pat` (ignoring case) is left as it is.
   */
  lemma WholeWordOnlyWhole(w: string, pat: string, rep: string)
    requires AllWordChars(w)
    requires !EqualsCI(w, pat)
    ensures ReplaceWholeWordCI(w, pat, rep) == w
  {
    var m: Matcher := (t, i) => WholeWordCI(pat, rep, t, i);
    forall j | 0 <= j < |w| ensures !Hits(w, m, j) {
      if j > 0 {
        assert !WordBoundary(w, j) by { assert IsWordChar(w[j - 1]) && IsWordChar(w[j]); }
      } else if 0 < |pat| < |w| {
        assert !WordBoundary(w, |pat|) by { assert IsWordChar(w[|pat| - 1]) && IsWordChar(w[|pat|]); }
      } else if |pat| == |w| {
        assert w[0..|pat|] == w;
      }
    }
    ScanNoHit(w, m, 0);
  }
}
