/**
 * Merging the results of several OCR passes over the same page: blocks from all
 * passes are grouped by position and text similarity (unit-cost edit distance), and
 * each group is represented by its best block.
 */
module MultiPassOCR {
  import opened Wrappers
  import opened Text
  import opened Numbers
  import opened Rewrite
  import opened Ocr
  import opened Seqs

  // ------------------------------------------------------------ edit distance

  function Min3(a: nat, b: nat, c: nat): (r: nat)
    ensures r <= a && r <= b && r <= c
    ensures r == a || r == b || r == c
  {
    if a <= b && a <= c then a else if b <= c then b else c
  }

  /**
   * The recurrence the distance matrix is filled with: `Dist(a, b, i, j)` is the entry
   * for the prefixes of length `i` of `a` and `j` of `b`, an empty prefix costing the
   * other's length.
   */
  function Dist(a: string, b: string, i: nat, j: nat): nat
    requires i <= |a| && j <= |b|
    decreases i + j
  {
    if i == 0 then j
    else if j == 0 then i
    else
      var cost := if a[i - 1] == b[j - 1] then 0 else 1;
      Min3(Dist(a, b, i, j - 1) + 1, Dist(a, b, i - 1, j) + 1, Dist(a, b, i - 1, j - 1) + cost)
  }

  /** Unit-cost edit distance (insertions, deletions, substitutions). */
  function Distance(a: string, b: string): nat
  {
    Dist(a, b, |a|, |b|)
  }

  /**
   * `levenshteinDistance`: row 0 holds 0..|str1|, column 0 holds 0..|str2|, and each
   * inner cell is the cheapest of a deletion, an insertion and a (free when equal)
   * substitution.
   */
  method LevenshteinDistance(str1: string, str2: string) returns (d: nat)
    ensures d == Distance(str1, str2)
  {
    var matrix := new nat[|str2| + 1, |str1| + 1];
    var i := 0;
    while i <= |str1|
      invariant 0 <= i <= |str1| + 1
      invariant forall i' :: 0 <= i' < i ==> matrix[0, i'] == i'
    {
      matrix[0, i] := i;
      i := i + 1;
    }
    var j := 0;
    while j <= |str2|
      invariant 0 <= j <= |str2| + 1
      invariant forall i' :: 0 <= i' <= |str1| ==> matrix[0, i'] == i'
      invariant forall j' :: 0 <= j' < j ==> matrix[j', 0] == j'
    {
      matrix[j, 0] := j;
      j := j + 1;
    }
    j := 1;
    while j <= |str2|
      invariant 1 <= j <= |str2| + 1
      invariant forall j', i' :: 0 <= j' < j && 0 <= i' <= |str1| ==> matrix[j', i'] == Dist(str1, str2, i', j')
      invariant forall j' :: j <= j' <= |str2| ==> matrix[j', 0] == j'
    {
      FillRow(matrix, str1, str2, j);
      j := j + 1;
    }
    d := matrix[|str2|, |str1|];
  }

  /** One row of the matrix, left to right. */
  method FillRow(matrix: array2<nat>, str1: string, str2: string, j: nat)
    requires matrix.Length0 == |str2| + 1 && matrix.Length1 == |str1| + 1
    requires 1 <= j <= |str2|
    requires forall j', i' :: 0 <= j' < j && 0 <= i' <= |str1| ==> matrix[j', i'] == Dist(str1, str2, i', j')
    requires forall j' :: j <= j' <= |str2| ==> matrix[j', 0] == j'
    modifies matrix
    ensures forall j', i' :: 0 <= j' <= j && 0 <= i' <= |str1| ==> matrix[j', i'] == Dist(str1, str2, i', j')
    ensures forall j' :: j < j' <= |str2| ==> matrix[j', 0] == j'
  {
    assert matrix[j, 0] == Dist(str1, str2, 0, j);
    var i := 1;
    while i <= |str1|
      invariant 1 <= i <= |str1| + 1
      invariant forall j', i' :: 0 <= j' <= |str2| && j' != j && 0 <= i' <= |str1| ==> matrix[j', i'] == old(matrix[j', i'])
      invariant forall i' {:trigger matrix[j, i']} :: 0 <= i' < i ==> matrix[j, i'] == Dist(str1, str2, i', j)
    {
      var cost := if str1[i - 1] == str2[j - 1] then 0 else 1;
      var above, left, diagonal := matrix[j - 1, i], matrix[j, i - 1], matrix[j - 1, i - 1];
      var cell := Min3(above + 1, left + 1, diagonal + cost);
      DistCell(str1, str2, i, j, above, left, diagonal);
      matrix[j, i] := cell;
      i := i + 1;
    }
  }

  /** An inner cell is the cheapest step from its three filled neighbours. */
  lemma DistCell(a: string, b: string, i: nat, j: nat, above: nat, left: nat, diagonal: nat)
    requires 1 <= i <= |a| && 1 <= j <= |b|
    requires above == Dist(a, b, i, j - 1) && left == Dist(a, b, i - 1, j) && diagonal == Dist(a, b, i - 1, j - 1)
    ensures Min3(above + 1, left + 1, diagonal + if a[i - 1] == b[j - 1] then 0 else 1) == Dist(a, b, i, j)
  {
  }

  lemma DistanceToEmpty(s: string)
    ensures Distance(s, []) == |s| && Distance([], s) == |s|
  {
  }

  /** A string is at distance 0 from itself, and only from itself. */
  lemma {:induction false} DistZero(a: string, b: string, i: nat, j: nat)
    requires i <= |a| && j <= |b|
    ensures Dist(a, b, i, j) == 0 <==> a[..i] == b[..j]
    decreases i + j
  {
    if i > 0 && j > 0 {
      DistZero(a, b, i - 1, j - 1);
      assert a[..i] == a[..i - 1] + [a[i - 1]] && b[..j] == b[..j - 1] + [b[j - 1]];
      if a[..i] == b[..j] {
        assert a[..i - 1] == a[..i][..i - 1];
      }
    }
  }

  lemma DistanceZero(a: string, b: string)
    ensures Distance(a, b) == 0 <==> a == b
  {
    DistZero(a, b, |a|, |b|);
    assert a[..|a|] == a && b[..|b|] == b;
  }

  lemma {:induction false} DistSymmetric(a: string, b: string, i: nat, j: nat)
    requires i <= |a| && j <= |b|
    ensures Dist(a, b, i, j) == Dist(b, a, j, i)
    decreases i + j
  {
    if i > 0 && j > 0 {
      DistSymmetric(a, b, i, j - 1);
      DistSymmetric(a, b, i - 1, j);
      DistSymmetric(a, b, i - 1, j - 1);
    }
  }

  /** The distance does not depend on the order of its arguments. */
  lemma DistanceSymmetric(a: string, b: string)
    ensures Distance(a, b) == Distance(b, a)
  {
    DistSymmetric(a, b, |a|, |b|);
  }

  lemma {:induction false} DistBounds(a: string, b: string, i: nat, j: nat)
    requires i <= |a| && j <= |b|
    ensures i - j <= Dist(a, b, i, j) && j - i <= Dist(a, b, i, j)
    ensures Dist(a, b, i, j) <= if i >= j then i else j
    decreases i + j
  {
    if i > 0 && j > 0 {
      DistBounds(a, b, i, j - 1);
      DistBounds(a, b, i - 1, j);
      DistBounds(a, b, i - 1, j - 1);
    }
  }

  /** The distance is at least the difference in length and at most the longer length. */
  lemma DistanceBounds(a: string, b: string)
    ensures |a| - |b| <= Distance(a, b) && |b| - |a| <= Distance(a, b)
    ensures Distance(a, b) <= if |a| >= |b| then |a| else |b|
  {
    DistBounds(a, b, |a|, |b|);
  }

  /** `calculateTextSimilarity`: 1 for two empty texts, else 1 − distance / longer length. */
  function TextSimilarity(text1: string, text2: string): (r: real)
    ensures 0.0 <= r <= 1.0
  {
    var maxLen := if |text1| >= |text2| then |text1| else |text2|;
    if maxLen == 0 then 1.0
    else
      DistanceBounds(text1, text2);
      Scale(Distance(text1, text2), maxLen);
      1.0 - Distance(text1, text2) as real / maxLen as real
  }

  lemma Scale(d: nat, n: nat)
    requires 0 < n && d <= n
    ensures 0.0 <= d as real / n as real <= 1.0
  {
    assert (d as real / n as real) * n as real == d as real;
  }

  /** Similarity is 1 exactly for equal texts, and it is symmetric. */
  lemma SimilarityProperties(text1: string, text2: string)
    ensures TextSimilarity(text1, text2) == 1.0 <==> text1 == text2
    ensures TextSimilarity(text1, text2) == TextSimilarity(text2, text1)
  {
    DistanceZero(text1, text2);
    DistanceSymmetric(text1, text2);
    var maxLen := if |text1| >= |text2| then |text1| else |text2|;
    if maxLen > 0 && TextSimilarity(text1, text2) == 1.0 {
      assert Distance(text1, text2) as real / maxLen as real == 0.0;
      assert Distance(text1, text2) as real == (Distance(text1, text2) as real / maxLen as real) * maxLen as real;
    }
  }

  // ------------------------------------------------------------ blocks of one pass

  /** A block as one OCR pass reports it, its text already normalised. */
  datatype PassBlock = PassBlock(text: string, originalText: string, bounding: Box, passName: string, confidence: real)

  const PositionThreshold: real := 20.0
  const SimilarityThreshold: real := 0.7

  /** `areBlocksSimilar`: tops and lefts closer than 20 and texts more than 70% alike. */
  predicate AreBlocksSimilar(block1: PassBlock, block2: PassBlock)
  {
    Abs(block1.bounding.top - block2.bounding.top) < PositionThreshold
    && Abs(block1.bounding.left - block2.bounding.left) < PositionThreshold
    && TextSimilarity(block1.text, block2.text) > SimilarityThreshold
  }

  /** Every block is similar to itself, and similarity is symmetric. */
  lemma SimilarIsReflexiveAndSymmetric(block1: PassBlock, block2: PassBlock)
    ensures AreBlocksSimilar(block1, block1)
    ensures AreBlocksSimilar(block1, block2) == AreBlocksSimilar(block2, block1)
  {
    SimilarityProperties(block1.text, block1.text);
    SimilarityProperties(block1.text, block2.text);
  }

  // ------------------------------------------------------------ grouping

  predicate NonEmptyGroups(groups: seq<seq<PassBlock>>)
  {
    forall k :: 0 <= k < |groups| ==> groups[k] != []
  }

  /** The first group, from index `from` on, whose first block `b` is similar to. */
  function FirstSimilarGroup(groups: seq<seq<PassBlock>>, b: PassBlock, from: nat): (r: Option<nat>)
    requires NonEmptyGroups(groups)
    ensures r.Some? ==> from <= r.value < |groups| && AreBlocksSimilar(b, groups[r.value][0])
                        && forall k :: from <= k < r.value ==> !AreBlocksSimilar(b, groups[k][0])
    ensures r.None? ==> forall k :: from <= k < |groups| ==> !AreBlocksSimilar(b, groups[k][0])
    decreases |groups| - from
  {
    if from >= |groups| then None
    else if AreBlocksSimilar(b, groups[from][0]) then Some(from)
    else FirstSimilarGroup(groups, b, from + 1)
  }

  /** One step of `groupSimilarBlocks`: join the first similar group, or open a new one. */
  function Place(groups: seq<seq<PassBlock>>, b: PassBlock): (r: seq<seq<PassBlock>>)
    requires NonEmptyGroups(groups)
    ensures NonEmptyGroups(r)
  {
    match FirstSimilarGroup(groups, b, 0)
    case Some(k) => groups[k := groups[k] + [b]]
    case None => groups + [[b]]
  }

  /** The groups formed from `blocks`, taken in order. */
  function Group(blocks: seq<PassBlock>): (r: seq<seq<PassBlock>>)
    ensures NonEmptyGroups(r)
    decreases |blocks|
  {
    if blocks == [] then [] else Place(Group(blocks[..|blocks| - 1]), blocks[|blocks| - 1])
  }

  /**
   * What first-match grouping guarantees: every block after a group's first is similar
   * to that first block, and no block is similar to the first block of an earlier group.
   */
  predicate WellGrouped(groups: seq<seq<PassBlock>>)
  {
    NonEmptyGroups(groups)
    && (forall k, m :: 0 <= k < |groups| && 0 < m < |groups[k]| ==> AreBlocksSimilar(groups[k][m], groups[k][0]))
    && (forall k, m, k' :: 0 <= k' < k < |groups| && 0 <= m < |groups[k]| ==>
          !AreBlocksSimilar(groups[k][m], groups[k'][0]))
  }

  /** Every block of every group, counted with repetition. */
  function Members(groups: seq<seq<PassBlock>>): multiset<PassBlock>
    decreases |groups|
  {
    if groups == [] then multiset{} else Members(groups[..|groups| - 1]) + multiset(groups[|groups| - 1])
  }

  lemma {:induction false} MembersUpdate(groups: seq<seq<PassBlock>>, k: nat, g: seq<PassBlock>)
    requires k < |groups|
    ensures Members(groups[k := g]) == Members(groups) - multiset(groups[k]) + multiset(g)
    decreases |groups|
  {
    var n := |groups| - 1;
    if k < n {
      assert groups[k := g][..n] == groups[..n][k := g];
      MembersUpdate(groups[..n], k, g);
      MemberGroup(groups[..n], k);
    } else {
      assert groups[k := g][..n] == groups[..n];
    }
  }

  lemma PlaceMembers(groups: seq<seq<PassBlock>>, b: PassBlock)
    requires NonEmptyGroups(groups)
    ensures Members(Place(groups, b)) == Members(groups) + multiset{b}
  {
    match FirstSimilarGroup(groups, b, 0)
    case Some(k) =>
      MembersUpdate(groups, k, groups[k] + [b]);
      assert multiset(groups[k]) <= Members(groups) by { MemberGroup(groups, k); }
    case None =>
      assert (groups + [[b]])[..|groups|] == groups;
  }

  lemma {:induction false} MemberGroup(groups: seq<seq<PassBlock>>, k: nat)
    requires k < |groups|
    ensures multiset(groups[k]) <= Members(groups)
    decreases |groups|
  {
    if k < |groups| - 1 {
      MemberGroup(groups[..|groups| - 1], k);
    }
  }

  /** The groups partition the blocks: each block lands in exactly one group, once. */
  lemma {:induction false} GroupPartition(blocks: seq<PassBlock>)
    ensures Members(Group(blocks)) == multiset(blocks)
    ensures |Members(Group(blocks))| == |blocks|
    decreases |blocks|
  {
    if blocks != [] {
      GroupPartition(blocks[..|blocks| - 1]);
      PartitionOneMore(blocks);
    }
  }

  /** The step of `GroupPartition`: placing the last block adds exactly that block. */
  lemma PartitionOneMore(blocks: seq<PassBlock>)
    requires blocks != [] && Members(Group(blocks[..|blocks| - 1])) == multiset(blocks[..|blocks| - 1])
    ensures Members(Group(blocks)) == multiset(blocks) && |Members(Group(blocks))| == |blocks|
  {
    var init := blocks[..|blocks| - 1];
    var b := blocks[|blocks| - 1];
    PlaceMembers(Group(init), b);
    PlaceLast(blocks, Group(init));
    SnocLast(blocks);
    MembersSame(Place(Group(init), b), init + [b], Group(blocks), blocks);
  }

  /** `Group` of a non-empty sequence places its last block into the groups of the rest. */
  lemma PlaceLast(blocks: seq<PassBlock>, g: seq<seq<PassBlock>>)
    requires blocks != [] && g == Group(blocks[..|blocks| - 1])
    ensures Place(g, blocks[|blocks| - 1]) == Group(blocks)
  {
  }

  lemma MembersSame(groups: seq<seq<PassBlock>>, xs: seq<PassBlock>, groups': seq<seq<PassBlock>>, xs': seq<PassBlock>)
    requires Members(groups) == multiset(xs) && groups == groups' && xs == xs'
    ensures Members(groups') == multiset(xs') && |Members(groups')| == |xs'|
  {
  }

  lemma PlaceWellGrouped(groups: seq<seq<PassBlock>>, b: PassBlock)
    requires WellGrouped(groups)
    ensures WellGrouped(Place(groups, b))
  {
    var r := Place(groups, b);
    match FirstSimilarGroup(groups, b, 0)
    case Some(k) =>
      forall k1, m | 0 <= k1 < |r| && 0 < m < |r[k1]| ensures AreBlocksSimilar(r[k1][m], r[k1][0]) {
        if k1 != k || m < |groups[k]| {
          assert r[k1][m] == groups[k1][m] && r[k1][0] == groups[k1][0];
        }
      }
      forall k1, m, k' | 0 <= k' < k1 < |r| && 0 <= m < |r[k1]| ensures !AreBlocksSimilar(r[k1][m], r[k'][0]) {
        assert r[k'][0] == groups[k'][0];
        if k1 != k || m < |groups[k]| {
          assert r[k1][m] == groups[k1][m];
        }
      }
    case None =>
      forall k1, m, k' | 0 <= k' < k1 < |r| && 0 <= m < |r[k1]| ensures !AreBlocksSimilar(r[k1][m], r[k'][0]) {
        assert r[k'][0] == groups[k'][0];
        if k1 < |groups| {
          assert r[k1][m] == groups[k1][m];
        }
      }
  }

  /** Grouping always ends well grouped. */
  lemma {:induction false} GroupWellGrouped(blocks: seq<PassBlock>)
    ensures WellGrouped(Group(blocks))
    decreases |blocks|
  {
    if blocks != [] {
      GroupWellGrouped(blocks[..|blocks| - 1]);
      PlaceWellGrouped(Group(blocks[..|blocks| - 1]), blocks[|blocks| - 1]);
    }
  }

  /** `groupSimilarBlocks`, with its search for the first similar group. */
  method GroupSimilarBlocks(blocks: seq<PassBlock>) returns (groups: seq<seq<PassBlock>>)
    ensures groups == Group(blocks)
  {
    groups := [];
    var n := 0;
    while n < |blocks|
      invariant 0 <= n <= |blocks|
      invariant groups == Group(blocks[..n])
    {
      var block := blocks[n];
      var k := 0;
      while k < |groups| && !AreBlocksSimilar(block, groups[k][0])
        invariant 0 <= k <= |groups|
        invariant FirstSimilarGroup(groups, block, 0) == FirstSimilarGroup(groups, block, k)
      {
        k := k + 1;
      }
      if k < |groups| {
        groups := groups[k := groups[k] + [block]];
      } else {
        groups := groups + [[block]];
      }
      assert blocks[..n + 1][..n] == blocks[..n];
      n := n + 1;
    }
    assert blocks[..|blocks|] == blocks;
  }

  // ------------------------------------------------------------ choosing and merging

  /**
   * The comparator of `selectBestBlock`, as "a sorts before b": clearly higher
   * confidence first; at similar confidence the original pass before a rotated one;
   * then the longer text.
   */
  predicate Before(a: PassBlock, b: PassBlock)
  {
    if Abs(b.confidence - a.confidence) > 0.1 then a.confidence > b.confidence
    else if a.passName != b.passName && a.passName == "original" then true
    else if a.passName != b.passName && b.passName == "original" then false
    else |a.text| > |b.text|
  }

  /** `selectBestBlock`: the block a stable sort by `Before` puts first; nothing for an empty group. */
  function SelectBestBlock(group: seq<PassBlock>): (r: Option<PassBlock>)
    ensures r.Some? <==> group != []
    ensures r.Some? ==> r.value in group
    decreases |group|
  {
    if group == [] then None
    else
      var last := group[|group| - 1];
      match SelectBestBlock(group[..|group| - 1])
      case None => Some(last)
      case Some(best) => if Before(last, best) then Some(last) else Some(best)
  }

  /** A block whose confidence beats every other by more than 0.1 is the one chosen. */
  lemma {:induction false} DominantConfidenceWins(group: seq<PassBlock>, i: nat)
    requires i < |group|
    requires forall j :: 0 <= j < |group| && j != i ==> group[i].confidence > group[j].confidence + 0.1
    ensures SelectBestBlock(group) == Some(group[i])
    decreases |group|
  {
    var n := |group| - 1;
    if i < n {
      DominantConfidenceWins(group[..n], i);
    } else {
      var prior := SelectBestBlock(group[..n]);
      if prior.Some? {
        var j :| 0 <= j < n && group[..n][j] == prior.value;
        assert group[i].confidence > group[j].confidence + 0.1;
      }
    }
  }

  /** `results.flat()`. */
  function Flatten(results: seq<seq<PassBlock>>): seq<PassBlock>
    decreases |results|
  {
    if results == [] then [] else Flatten(results[..|results| - 1]) + results[|results| - 1]
  }

  /** `mergeResults`: one representative per group of all passes' blocks. */
  function MergeResults(results: seq<seq<PassBlock>>): (merged: seq<PassBlock>)
    ensures var groups := Group(Flatten(results));
            |merged| == |groups| && forall i :: 0 <= i < |merged| ==> merged[i] in groups[i]
  {
    var groups := Group(Flatten(results));
    seq(|groups|, i requires 0 <= i < |groups| => SelectBestBlock(groups[i]).value)
  }

  /** Every merged block comes from some pass, and a non-empty input merges to a non-empty output. */
  lemma MergeProperties(results: seq<seq<PassBlock>>)
    ensures forall i :: 0 <= i < |MergeResults(results)| ==> MergeResults(results)[i] in Flatten(results)
    ensures 0 < |MergeResults(results)| <= |Flatten(results)| || Flatten(results) == []
  {
    var blocks := Flatten(results);
    var groups := Group(blocks);
    GroupPartition(blocks);
    forall i | 0 <= i < |MergeResults(results)| ensures MergeResults(results)[i] in blocks {
      MemberGroup(groups, i);
      assert MergeResults(results)[i] in multiset(groups[i]);
    }
    GroupCount(groups);
    if blocks != [] {
      assert blocks[0] in multiset(blocks);
    }
  }

  /** There are no more groups than members, and some group if there is a member. */
  lemma {:induction false} GroupCount(groups: seq<seq<PassBlock>>)
    requires NonEmptyGroups(groups)
    ensures |groups| <= |Members(groups)|
    ensures groups == [] <==> Members(groups) == multiset{}
    decreases |groups|
  {
    if groups != [] {
      GroupCount(groups[..|groups| - 1]);
      var last := groups[|groups| - 1];
      assert last[0] in multiset(last);
    }
  }

  // ------------------------------------------------------------ confidence

  /** `/\d{1,2}:\d{2}/`: a colon with a digit before it and two after. */
  predicate HasClockTime(text: string)
  {
    exists p :: 1 <= p && p + 2 < |text| && text[p] == ':' && IsDigit(text[p - 1])
                && IsDigit(text[p + 1]) && IsDigit(text[p + 2])
  }

  const WeekdayWords: seq<string> := ["monday", "tuesday", "wednesday", "thursday", "friday", "saturday", "sunday"]

  /** `/\b(monday|…|sunday)\b/i`: a weekday name as a whole word, in any case. */
  predicate HasWeekdayName(text: string)
  {
    exists k, i :: 0 <= k < |WeekdayWords| && 0 <= i <= |text|
                   && OccursCIAt(text, WeekdayWords[k], i) && WordBoundary(text, i)
                   && WordBoundary(text, i + |WeekdayWords[k]|)
  }

  /** `/^[a-z0-9\s]+$/i`. */
  predicate PlainAlphanumeric(text: string)
  {
    text != [] && forall i :: 0 <= i < |text| ==> IsLetter(text[i]) || IsDigit(text[i]) || IsSpace(text[i])
  }

  /** The four bonuses over the base of 0.5, before the cap. */
  function Bonus(text: string): (r: real)
    ensures 0.0 <= r <= 0.6
  {
    (if |text| > 3 then 0.1 else 0.0) + (if PlainAlphanumeric(text) then 0.1 else 0.0)
    + (if HasClockTime(text) then 0.2 else 0.0) + (if HasWeekdayName(text) then 0.2 else 0.0)
  }

  /** `calculateConfidence` of a pass's raw text: 0.5 plus its bonuses, capped at 1. */
  method CalculateConfidence(text: string) returns (confidence: real)
    ensures 0.5 <= confidence <= 1.0
    ensures confidence == if 0.5 + Bonus(text) < 1.0 then 0.5 + Bonus(text) else 1.0
  {
    confidence := 0.5;
    if |text| > 3 {
      confidence := confidence + 0.1;
    }
    if PlainAlphanumeric(text) {
      confidence := confidence + 0.1;
    }
    if HasClockTime(text) {
      confidence := confidence + 0.2;
    }
    if HasWeekdayName(text) {
      confidence := confidence + 0.2;
    }
    if confidence > 1.0 {
      confidence := 1.0;
    }
  }

  /** A text with both a clock time and a weekday name reaches the cap. */
  lemma TimeAndWeekdayAreCertain(text: string)
    requires HasClockTime(text) && HasWeekdayName(text)
    ensures 0.5 + Bonus(text) >= 1.0
  {
    WeekdayNeedsLength(text);
  }

  lemma WeekdayNeedsLength(text: string)
    ensures HasWeekdayName(text) ==> |text| >= 6
  {
    assert forall k :: 0 <= k < |WeekdayWords| ==> |WeekdayWords[k]| >= 6;
  }

  /** Text of at most three characters without a time scores at most 0.6. */
  lemma ShortTextScoresLow(text: string)
    requires |text| <= 3
    ensures !HasWeekdayName(text)
    ensures !HasClockTime(text) ==> 0.5 + Bonus(text) <= 0.6
  {
    WeekdayNeedsLength(text);
  }
}
