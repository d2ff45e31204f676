/**
 * The text normaliser used by the multi-pass OCR: strip the stray "1:00" the
 * engine repeats, clean to lower-case word characters, repair time notation and
 * letter/digit misreadings with a chain of global regular-expression replacements,
 * then correct misread words from a fixed table.
 */
module MultiPassTextNormalizer {
  import opened Wrappers
  import opened Text
  import opened Sorting
  import opened Rewrite
  import TN = TextNormalizer
  import opened Clock

  /** The misreading table, in declaration order. */
  const Corrections: seq<(string, string)> := [
    ("jaraarg", "january"), ("janary", "january"), ("uaraary", "january"), ("jaruary", "january"),
    ("moeday", "monday"), ("moedey", "monday"), ("tusday", "tuesday"), ("wodesly", "wednesday"),
    ("tharsday", "thursday"), ("frday", "friday"), ("satarday", "saturday"), ("sarday", "sunday"),
    ("soo", "5:00"), ("jo:0", "10:00"), ("jo:00", "10:00"),
    ("stets", "starts"), ("sekool", "school"), ("shasl", "school"), ("octor", "doctor"),
    ("eetin", "meeting"), ("pradke", "practice"), ("prake", "practice"), ("dache", "practice"),
    ("rane", "rain"), ("goll", "golf"), ("luh", "lunch"), ("ypt", "appt"), ("aot", "appt")
  ]

  // ------------------------------------------------------------ pattern pieces

  /** `am` or `pm` (also `[ap]m`) at `i`, in any letter case. */
  predicate MeridianCIAt(s: string, i: nat)
  {
    i + 2 <= |s| && (LowerChar(s[i]) == 'a' || LowerChar(s[i]) == 'p') && LowerChar(s[i + 1]) == 'm'
  }

  /** What `[^\w\s\-:\.]` does not remove. */
  predicate Kept(c: char)
  {
    IsWordChar(c) || IsSpace(c) || c == '-' || c == ':' || c == '.'
  }

  /** The characters cleaned text is made of: kept ones, none of them upper case. */
  predicate CleanChar(c: char)
  {
    Kept(c) && !IsUpper(c)
  }

  // ------------------------------------------------------------ the patterns, one matcher each

  // `/\s*1:00\s*/g` → a single space, as written: the "1:00" may be the tail of a longer
  // number, so "11:00am" becomes "1 am".
  function OneOClockAsWritten(s: string, i: nat): (r: Option<(nat, string)>)
    ensures r.Some? ==> i < |s| && 1 <= r.value.0 <= |s| - i
  {
    if i >= |s| then None
    else
      var j := SkipSpaces(s, i);
      if j + 4 <= |s| && s[j..j + 4] == "1:00" then Some((SkipSpaces(s, j + 4) - i, " ")) else None
  }

  /** The stripping of the repeated "1:00" restricted to a "1:00" that is not the tail of a number. */
  function OneOClock(s: string, i: nat): (r: Option<(nat, string)>)
    ensures r.Some? ==> i < |s| && 1 <= r.value.0 <= |s| - i
  {
    if i >= |s| then None
    else
      var j := SkipSpaces(s, i);
      if 0 < j && IsDigit(s[j - 1]) then None else OneOClockAsWritten(s, i)
  }

  // `/(\d+)[:\.](\d+)/g` → `$1:$2`.
  function SeparatorToColon(s: string, i: nat): (r: Option<(nat, string)>)
    ensures r.Some? ==> i < |s| && 1 <= r.value.0 <= |s| - i
  {
    if !(i < |s| && IsDigit(s[i])) then None
    else
      var p := i + DigitRun(s, i);
      if p + 1 < |s| && (s[p] == ':' || s[p] == '.') && IsDigit(s[p + 1]) then
        var q := p + 1 + DigitRun(s, p + 1);
        Some((q - i, s[i..p] + ":" + s[p + 1..q]))
      else None
  }

  // `/(\d{1,2})(\d{2})(am|pm)/gi` → `$1:$2$3`.
  function JoinedTime(s: string, i: nat): (r: Option<(nat, string)>)
    ensures r.Some? ==> i < |s| && 1 <= r.value.0 <= |s| - i
  {
    if DigitsAt(s, i, 4) && MeridianCIAt(s, i + 4) then Some((6, s[i..i + 2] + ":" + s[i + 2..i + 6]))
    else if DigitsAt(s, i, 3) && MeridianCIAt(s, i + 3) then Some((5, s[i..i + 1] + ":" + s[i + 1..i + 5]))
    else None
  }

  // `/(\d{1,2})([ap]m)/gi` → `$1:00$2` as written: it also fires on the minutes of a
  // complete time, so "9:30pm" becomes "9:30:00pm".
  function BareHourAsWritten(s: string, i: nat): (r: Option<(nat, string)>)
    ensures r.Some? ==> i < |s| && 1 <= r.value.0 <= |s| - i
  {
    if DigitsAt(s, i, 2) && MeridianCIAt(s, i + 2) then Some((4, s[i..i + 2] + ":00" + s[i + 2..i + 4]))
    else if DigitsAt(s, i, 1) && MeridianCIAt(s, i + 1) then Some((3, s[i..i + 1] + ":00" + s[i + 1..i + 3]))
    else None
  }

  /** The bare-hour repair restricted to bare hours: no digit or colon just before the hour. */
  function BareHour(s: string, i: nat): (r: Option<(nat, string)>)
    ensures r.Some? ==> i < |s| && 1 <= r.value.0 <= |s| - i
  {
    if 0 < i <= |s| && (IsDigit(s[i - 1]) || s[i - 1] == ':') then None else BareHourAsWritten(s, i)
  }

  // `/\|/g` → `1`.
  function Bar(s: string, i: nat): (r: Option<(nat, string)>)
    ensures r.Some? ==> i < |s| && 1 <= r.value.0 <= |s| - i
  {
    if i < |s| && s[i] == '|' then Some((1, "1")) else None
  }

  // `/c(?=\d)/g` → `d`: the letter `c` misread for the digit `d`, when a digit follows.
  function BeforeDigit(c: char, d: char, s: string, i: nat): (r: Option<(nat, string)>)
    ensures r.Some? ==> i < |s| && 1 <= r.value.0 <= |s| - i
  {
    if i + 1 < |s| && s[i] == c && IsDigit(s[i + 1]) then Some((1, [d])) else None
  }

  // `/([ap])n/gi` → `$1m` as written: every "an" and "pn" becomes "am" / "pm", inside
  // ordinary words too ("plan" becomes "plam").
  function MeridianNAsWritten(s: string, i: nat): (r: Option<(nat, string)>)
    ensures r.Some? ==> i < |s| && 1 <= r.value.0 <= |s| - i
  {
    if i + 1 < |s| && (LowerChar(s[i]) == 'a' || LowerChar(s[i]) == 'p') && LowerChar(s[i + 1]) == 'n'
    then Some((2, [s[i], 'm']))
    else None
  }

  /** The misread-meridian repair restricted to meridians: only right after a digit. */
  function MeridianN(s: string, i: nat): (r: Option<(nat, string)>)
    ensures r.Some? ==> i < |s| && 1 <= r.value.0 <= |s| - i
  {
    if 0 < i <= |s| && IsDigit(s[i - 1]) then MeridianNAsWritten(s, i) else None
  }

  // `/(\d+)x\b/gi` → `$1xm` for `x` = `p` or `a`: a truncated meridian completed.
  function TruncatedMeridian(x: char, s: string, i: nat): (r: Option<(nat, string)>)
    ensures r.Some? ==> i < |s| && 1 <= r.value.0 <= |s| - i
  {
    if !(i < |s| && IsDigit(s[i])) then None
    else
      var p := i + DigitRun(s, i);
      if p < |s| && LowerChar(s[p]) == x && WordBoundary(s, p + 1) then Some((p + 1 - i, s[i..p] + [x, 'm']))
      else None
  }

  // `/(\d{1,2})\s*:\s*(\d{2})\s*(am|pm)?/gi` → `$1:$2$3` as written. The white space
  // before the optional meridian is consumed even when no meridian follows, so
  // "9:30 lunch" becomes "9:30lunch".
  function SplitTimeAsWritten(s: string, i: nat): (r: Option<(nat, string)>)
    ensures r.Some? ==> i < |s| && 1 <= r.value.0 <= |s| - i
  {
    if !(i < |s| && IsDigit(s[i])) then None
    else
      var n := if i + 1 < |s| && IsDigit(s[i + 1]) then 2 else 1;
      var j := SkipSpaces(s, i + n);
      if !(j < |s| && s[j] == ':') then None
      else
        var k := SkipSpaces(s, j + 1);
        if !DigitsAt(s, k, 2) then None
        else
          var l := SkipSpaces(s, k + 2);
          if MeridianCIAt(s, l) then Some((l + 2 - i, s[i..i + n] + ":" + s[k..k + 2] + s[l..l + 2]))
          else Some((l - i, s[i..i + n] + ":" + s[k..k + 2]))
  }

  /** The split-time repair that consumes white space after the minutes only before a meridian. */
  function SplitTime(s: string, i: nat): (r: Option<(nat, string)>)
    ensures r.Some? ==> i < |s| && 1 <= r.value.0 <= |s| - i
  {
    if !(i < |s| && IsDigit(s[i])) then None
    else
      var n := if i + 1 < |s| && IsDigit(s[i + 1]) then 2 else 1;
      var j := SkipSpaces(s, i + n);
      if !(j < |s| && s[j] == ':') then None
      else
        var k := SkipSpaces(s, j + 1);
        if !DigitsAt(s, k, 2) then None
        else
          var l := SkipSpaces(s, k + 2);
          if MeridianCIAt(s, l) then Some((l + 2 - i, s[i..i + n] + ":" + s[k..k + 2] + s[l..l + 2]))
          else Some((k + 2 - i, s[i..i + n] + ":" + s[k..k + 2]))
  }

  // ------------------------------------------------------------ the chain

  /** Strip the repeated "1:00" (with `strip`), lower-case, drop unkept characters, collapse and trim white space. */
  function Clean(text: string, strip: Matcher): (r: string)
    ensures forall c :: c in r ==> CleanChar(c)
  {
    var lowered := Lower(ReplaceAll(text, strip));
    var kept := Filter(lowered, Kept);
    assert forall c :: c in kept ==> CleanChar(c) by {
      forall c | c in kept ensures CleanChar(c) {
        var k :| 0 <= k < |kept| && kept[k] == c;
        var m :| 0 <= m < |lowered| && lowered[m] == c;
      }
    }
    CollapseKeeps(kept, CleanChar);
    var r := Trim(CollapseWs(kept));
    TrimKeeps(CollapseWs(kept));
    r
  }

  // The fixed-letter passes, as named matchers.
  function LBeforeDigit(s: string, i: nat): Option<(nat, string)> { BeforeDigit('l', '1', s, i) }
  function IBeforeDigit(s: string, i: nat): Option<(nat, string)> { BeforeDigit('i', '1', s, i) }
  function OBeforeDigit(s: string, i: nat): Option<(nat, string)> { BeforeDigit('o', '0', s, i) }
  function CapitalOBeforeDigit(s: string, i: nat): Option<(nat, string)> { BeforeDigit('O', '0', s, i) }
  function TruncatedPm(s: string, i: nat): Option<(nat, string)> { TruncatedMeridian('p', s, i) }
  function TruncatedAm(s: string, i: nat): Option<(nat, string)> { TruncatedMeridian('a', s, i) }

  /** The repairs between cleaning and the word table; the bare-hour, meridian and split-time passes are given. */
  function Repair(s: string, bareHour: Matcher, meridianN: Matcher, splitTime: Matcher): string
  {
    var separated := ReplaceAll(s, SeparatorToColon);
    var joined := ReplaceAll(separated, JoinedTime);
    var hours := ReplaceAll(joined, bareHour);
    var ones := ReplaceAll(ReplaceAll(ReplaceAll(hours, Bar), LBeforeDigit), IBeforeDigit);
    var zeros := ReplaceAll(ReplaceAll(ones, OBeforeDigit), CapitalOBeforeDigit);
    var meridians := ReplaceAll(zeros, meridianN);
    var completed := ReplaceAll(ReplaceAll(meridians, TruncatedPm), TruncatedAm);
    ReplaceAll(completed, splitTime)
  }

  /** `normalizeText` as written: empty for empty input, else cleaning, repairs and the word table. */
  function NormalizeTextAsWritten(text: string): (r: string)
    ensures text == [] ==> r == []
  {
    if text == [] then []
    else TN.ApplyCorrections(Repair(Clean(text, OneOClockAsWritten), BareHourAsWritten, MeridianNAsWritten, SplitTimeAsWritten), Corrections)
  }

  /** `normalizeText` with the three repairs restricted to what their comments describe. */
  function NormalizeText(text: string): (r: string)
    ensures text == [] ==> r == []
  {
    if text == [] then []
    else TN.ApplyCorrections(Repair(Clean(text, OneOClock), BareHour, MeridianN, SplitTime), Corrections)
  }

  // ------------------------------------------------------------ cleaning keeps its alphabet

  lemma TrimKeeps(s: string)
    ensures forall c :: c in Trim(s) ==> c in s
  {
    var t := TrimStart(s);
    assert forall c :: c in TrimEnd(t) ==> c in t;
  }

  // ------------------------------------------------------------ the output alphabet

  predicate AllClean(s: string) { forall c :: c in s ==> CleanChar(c) }

  /** Every replacement `m` makes in `s` is built from characters of `s` and clean ones. */
  predicate ReplacesWithin(s: string, m: Matcher)
  {
    forall k :: 0 <= k < |s| && Hits(s, m, k) ==> forall c :: c in m(s, k).value.1 ==> c in s || CleanChar(c)
  }

  /** The characters a repair may add that are not taken from the text. */
  const RepairChars: string := "01:apm"

  /** Every replacement `m` makes in `s` is built from characters of `s` and `RepairChars`. */
  predicate BuiltWithin(s: string, m: Matcher)
  {
    forall k :: 0 <= k < |s| && Hits(s, m, k) ==> forall c :: c in m(s, k).value.1 ==> c in s || c in RepairChars
  }

  lemma BuiltIsClean(s: string, m: Matcher)
    requires BuiltWithin(s, m)
    ensures ReplacesWithin(s, m)
  {
    assert forall c :: c in RepairChars ==> CleanChar(c);
  }

  lemma StepClean(s: string, m: Matcher)
    requires AllClean(s) && ReplacesWithin(s, m)
    ensures AllClean(ReplaceAll(s, m))
  {
    ScanKeeps(s, m, 0, CleanChar);
  }

  lemma SliceMember(s: string, a: nat, b: nat, c: char)
    requires a <= b <= |s| && c in s[a..b]
    ensures c in s
  {
    var k :| 0 <= k < b - a && s[a..b][k] == c;
    assert s[a + k] == c;
  }

  /** Every repair pass builds its replacements from the text's own characters, digits, ':' and 'm'. */
  lemma RepairsReplaceWithin(s: string)
    ensures ReplacesWithin(s, SeparatorToColon) && ReplacesWithin(s, JoinedTime)
    ensures ReplacesWithin(s, BareHour) && ReplacesWithin(s, Bar)
    ensures ReplacesWithin(s, LBeforeDigit) && ReplacesWithin(s, IBeforeDigit)
    ensures ReplacesWithin(s, OBeforeDigit) && ReplacesWithin(s, CapitalOBeforeDigit)
    ensures ReplacesWithin(s, MeridianN) && ReplacesWithin(s, TruncatedPm) && ReplacesWithin(s, TruncatedAm)
    ensures ReplacesWithin(s, SplitTime)
  {
    SeparatorWithin(s);
    BuiltIsClean(s, SeparatorToColon);
    JoinedWithin(s);
    BuiltIsClean(s, JoinedTime);
    BareHourWithin(s);
    BuiltIsClean(s, BareHour);
    DigitRepairsWithin(s);
    BuiltIsClean(s, Bar);
    BuiltIsClean(s, LBeforeDigit);
    BuiltIsClean(s, IBeforeDigit);
    BuiltIsClean(s, OBeforeDigit);
    BuiltIsClean(s, CapitalOBeforeDigit);
    MeridianWithin(s);
    BuiltIsClean(s, MeridianN);
    TruncatedWithin(s);
    BuiltIsClean(s, TruncatedPm);
    BuiltIsClean(s, TruncatedAm);
    SplitTimeWithin(s);
    BuiltIsClean(s, SplitTime);
  }

  lemma DigitRepairsWithin(s: string)
    ensures BuiltWithin(s, Bar) && BuiltWithin(s, LBeforeDigit) && BuiltWithin(s, IBeforeDigit)
    ensures BuiltWithin(s, OBeforeDigit) && BuiltWithin(s, CapitalOBeforeDigit)
  {
  }

  lemma MeridianWithin(s: string)
    ensures BuiltWithin(s, MeridianN)
  {
    forall k, c | 0 <= k < |s| && Hits(s, MeridianN, k) && c in MeridianN(s, k).value.1
      ensures c in s || c in RepairChars
    {
      assert MeridianN(s, k).value.1 == [s[k], 'm'];
    }
  }

  lemma SeparatorWithin(s: string)
    ensures BuiltWithin(s, SeparatorToColon)
  {
    forall k | 0 <= k < |s| && Hits(s, SeparatorToColon, k)
      ensures forall c :: c in SeparatorToColon(s, k).value.1 ==> c in s || c in RepairChars
    {
      SeparatorWithinAt(s, k);
    }
  }

  lemma SeparatorWithinAt(s: string, k: nat)
    requires SeparatorToColon(s, k).Some?
    ensures forall c :: c in SeparatorToColon(s, k).value.1 ==> c in s || c == ':'
  {
    var p := k + DigitRun(s, k);
    var q := p + 1 + DigitRun(s, p + 1);
    SliceSubset(s, k, p);
    SliceSubset(s, p + 1, q);
  }

  lemma JoinedWithin(s: string)
    ensures BuiltWithin(s, JoinedTime)
  {
    forall k, c | 0 <= k < |s| && Hits(s, JoinedTime, k) && c in JoinedTime(s, k).value.1
      ensures c in s || c in RepairChars
    {
      if DigitsAt(s, k, 4) && MeridianCIAt(s, k + 4) {
        assert JoinedTime(s, k).value.1 == s[k..k + 2] + ":" + s[k + 2..k + 6];
        if c in s[k..k + 2] { SliceMember(s, k, k + 2, c); } else if c != ':' { SliceMember(s, k + 2, k + 6, c); }
      } else {
        assert JoinedTime(s, k).value.1 == s[k..k + 1] + ":" + s[k + 1..k + 5];
        if c in s[k..k + 1] { SliceMember(s, k, k + 1, c); } else if c != ':' { SliceMember(s, k + 1, k + 5, c); }
      }
    }
  }

  lemma {:induction false} BareHourWithin(s: string)
    ensures BuiltWithin(s, BareHour)
  {
    forall k, c | 0 <= k < |s| && Hits(s, BareHour, k) && c in BareHour(s, k).value.1
      ensures c in s || c in RepairChars
    {
      if DigitsAt(s, k, 2) && MeridianCIAt(s, k + 2) {
        assert BareHour(s, k).value.1 == s[k..k + 2] + ":00" + s[k + 2..k + 4];
        if c in s[k..k + 2] { SliceMember(s, k, k + 2, c); } else if c in s[k + 2..k + 4] { SliceMember(s, k + 2, k + 4, c); }
      } else {
        assert BareHour(s, k).value.1 == s[k..k + 1] + ":00" + s[k + 1..k + 3];
        if c in s[k..k + 1] { SliceMember(s, k, k + 1, c); } else if c in s[k + 1..k + 3] { SliceMember(s, k + 1, k + 3, c); }
      }
    }
  }

  lemma TruncatedWithin(s: string)
    ensures BuiltWithin(s, TruncatedPm) && BuiltWithin(s, TruncatedAm)
  {
    forall k, c | 0 <= k < |s| && Hits(s, TruncatedPm, k) && c in TruncatedPm(s, k).value.1
      ensures c in s || c in RepairChars
    {
      var p := k + DigitRun(s, k);
      assert TruncatedPm(s, k).value.1 == s[k..p] + ['p', 'm'];
      if c in s[k..p] { SliceMember(s, k, p, c); }
    }
    forall k, c | 0 <= k < |s| && Hits(s, TruncatedAm, k) && c in TruncatedAm(s, k).value.1
      ensures c in s || c in RepairChars
    {
      var p := k + DigitRun(s, k);
      assert TruncatedAm(s, k).value.1 == s[k..p] + ['a', 'm'];
      if c in s[k..p] { SliceMember(s, k, p, c); }
    }
  }

  lemma SplitTimeWithin(s: string)
    ensures BuiltWithin(s, SplitTime)
  {
    forall k | 0 <= k < |s| && Hits(s, SplitTime, k)
      ensures forall c :: c in SplitTime(s, k).value.1 ==> c in s || c in RepairChars
    {
      SplitTimeWithinAt(s, k);
    }
  }

  lemma SliceSubset(s: string, a: nat, b: nat)
    requires a <= b <= |s|
    ensures forall c :: c in s[a..b] ==> c in s
  {
    forall c | c in s[a..b] ensures c in s {
      SliceMember(s, a, b, c);
    }
  }

  lemma SplitTimeWithinAt(s: string, k: nat)
    requires SplitTime(s, k).Some?
    ensures forall c :: c in SplitTime(s, k).value.1 ==> c in s || c == ':'
  {
    var n := if k + 1 < |s| && IsDigit(s[k + 1]) then 2 else 1;
    var j := SkipSpaces(s, k + n);
    var m := SkipSpaces(s, j + 1);
    var l := SkipSpaces(s, m + 2);
    SliceSubset(s, k, k + n);
    SliceSubset(s, m, m + 2);
    if MeridianCIAt(s, l) {
      SliceSubset(s, l, l + 2);
    }
  }

  /** Every repair pass, restricted or as written, keeps clean text clean. */
  lemma RepairClean(s: string)
    requires AllClean(s)
    ensures AllClean(Repair(s, BareHour, MeridianN, SplitTime))
    ensures AllClean(Repair(s, BareHourAsWritten, MeridianNAsWritten, SplitTimeAsWritten))
  {
    forall t ensures ReplacesWithin(t, BareHour) && ReplacesWithin(t, MeridianN) && ReplacesWithin(t, SplitTime) {
      RepairsReplaceWithin(t);
    }
    RepairCleanWith(s, BareHour, MeridianN, SplitTime);
    forall t ensures ReplacesWithin(t, BareHourAsWritten) && ReplacesWithin(t, MeridianNAsWritten)
                     && ReplacesWithin(t, SplitTimeAsWritten) {
      AsWrittenReplaceWithin(t);
    }
    RepairCleanWith(s, BareHourAsWritten, MeridianNAsWritten, SplitTimeAsWritten);
  }

  /** The as-written repairs, too, build their replacements from the text and `RepairChars`. */
  lemma AsWrittenReplaceWithin(s: string)
    ensures ReplacesWithin(s, BareHourAsWritten) && ReplacesWithin(s, MeridianNAsWritten)
    ensures ReplacesWithin(s, SplitTimeAsWritten)
  {
    BareHourAsWrittenWithin(s);
    BuiltIsClean(s, BareHourAsWritten);
    forall k, c | 0 <= k < |s| && Hits(s, MeridianNAsWritten, k) && c in MeridianNAsWritten(s, k).value.1
      ensures c in s || c in RepairChars
    {
      assert MeridianNAsWritten(s, k).value.1 == [s[k], 'm'];
    }
    BuiltIsClean(s, MeridianNAsWritten);
    forall k | 0 <= k < |s| && Hits(s, SplitTimeAsWritten, k)
      ensures forall c :: c in SplitTimeAsWritten(s, k).value.1 ==> c in s || c in RepairChars
    {
      SplitTimeAsWrittenWithinAt(s, k);
    }
    BuiltIsClean(s, SplitTimeAsWritten);
  }

  lemma {:induction false} BareHourAsWrittenWithin(s: string)
    ensures BuiltWithin(s, BareHourAsWritten)
  {
    forall k, c | 0 <= k < |s| && Hits(s, BareHourAsWritten, k) && c in BareHourAsWritten(s, k).value.1
      ensures c in s || c in RepairChars
    {
      if DigitsAt(s, k, 2) && MeridianCIAt(s, k + 2) {
        assert BareHourAsWritten(s, k).value.1 == s[k..k + 2] + ":00" + s[k + 2..k + 4];
        if c in s[k..k + 2] { SliceMember(s, k, k + 2, c); } else if c in s[k + 2..k + 4] { SliceMember(s, k + 2, k + 4, c); }
      } else {
        assert BareHourAsWritten(s, k).value.1 == s[k..k + 1] + ":00" + s[k + 1..k + 3];
        if c in s[k..k + 1] { SliceMember(s, k, k + 1, c); } else if c in s[k + 1..k + 3] { SliceMember(s, k + 1, k + 3, c); }
      }
    }
  }

  lemma SplitTimeAsWrittenWithinAt(s: string, k: nat)
    requires SplitTimeAsWritten(s, k).Some?
    ensures forall c :: c in SplitTimeAsWritten(s, k).value.1 ==> c in s || c == ':'
  {
    var n := if k + 1 < |s| && IsDigit(s[k + 1]) then 2 else 1;
    var j := SkipSpaces(s, k + n);
    var m := SkipSpaces(s, j + 1);
    var l := SkipSpaces(s, m + 2);
    SliceSubset(s, k, k + n);
    SliceSubset(s, m, m + 2);
    if MeridianCIAt(s, l) {
      SliceSubset(s, l, l + 2);
    }
  }

  lemma RepairCleanWith(s: string, bareHour: Matcher, meridianN: Matcher, splitTime: Matcher)
    requires AllClean(s)
    requires forall t :: ReplacesWithin(t, bareHour)
    requires forall t :: ReplacesWithin(t, meridianN)
    requires forall t :: ReplacesWithin(t, splitTime)
    ensures AllClean(Repair(s, bareHour, meridianN, splitTime))
  {
    var separated := ReplaceAll(s, SeparatorToColon);
    RepairsReplaceWithin(s);
    StepClean(s, SeparatorToColon);
    var joined := ReplaceAll(separated, JoinedTime);
    RepairsReplaceWithin(separated);
    StepClean(separated, JoinedTime);
    var hours := ReplaceAll(joined, bareHour);
    RepairsReplaceWithin(joined);
    StepClean(joined, bareHour);
    var bars := ReplaceAll(hours, Bar);
    RepairsReplaceWithin(hours);
    StepClean(hours, Bar);
    var ls := ReplaceAll(bars, LBeforeDigit);
    RepairsReplaceWithin(bars);
    StepClean(bars, LBeforeDigit);
    var ones := ReplaceAll(ls, IBeforeDigit);
    RepairsReplaceWithin(ls);
    StepClean(ls, IBeforeDigit);
    var os := ReplaceAll(ones, OBeforeDigit);
    RepairsReplaceWithin(ones);
    StepClean(ones, OBeforeDigit);
    var zeros := ReplaceAll(os, CapitalOBeforeDigit);
    RepairsReplaceWithin(os);
    StepClean(os, CapitalOBeforeDigit);
    var meridians := ReplaceAll(zeros, meridianN);
    RepairsReplaceWithin(zeros);
    StepClean(zeros, meridianN);
    var ps := ReplaceAll(meridians, TruncatedPm);
    RepairsReplaceWithin(meridians);
    StepClean(meridians, TruncatedPm);
    var completed := ReplaceAll(ps, TruncatedAm);
    RepairsReplaceWithin(ps);
    StepClean(ps, TruncatedAm);
    RepairsReplaceWithin(completed);
    StepClean(completed, splitTime);
  }

  /** A word table whose replacements are clean keeps clean text clean. */
  lemma {:induction false} CorrectionsClean(s: string, table: seq<(string, string)>)
    requires AllClean(s)
    requires forall k :: 0 <= k < |table| ==> AllClean(table[k].1)
    ensures AllClean(TN.ApplyCorrections(s, table))
    decreases |table|
  {
    if table != [] {
      var last := table[|table| - 1];
      var before := TN.ApplyCorrections(s, table[..|table| - 1]);
      CorrectionsClean(s, table[..|table| - 1]);
      var m: Matcher := (t, i) => WholeWordCI(last.0, last.1, t, i);
      StepClean(before, m);
    }
  }

  /**
   * What the normaliser returns consists only of word characters, white space, '-',
   * ':' and '.', and has no upper-case letter.
   */
  lemma {:induction false} NormalizeTextClean(text: string)
    ensures AllClean(NormalizeText(text))
    ensures AllClean(NormalizeTextAsWritten(text))
  {
    if text != [] {
      TableClean();
      var cleaned := Clean(text, OneOClock);
      var repaired := Repair(cleaned, BareHour, MeridianN, SplitTime);
      RepairClean(cleaned);
      CorrectionsClean(repaired, Corrections);
      var cleanedAsWritten := Clean(text, OneOClockAsWritten);
      var repairedAsWritten := Repair(cleanedAsWritten, BareHourAsWritten, MeridianNAsWritten, SplitTimeAsWritten);
      RepairClean(cleanedAsWritten);
      CorrectionsClean(repairedAsWritten, Corrections);
    }
  }

  /** Every replacement in the misreading table is clean text. */
  lemma TableClean()
    ensures forall k :: 0 <= k < |Corrections| ==> AllClean(Corrections[k].1)
  {
    forall k | 0 <= k < |Corrections| ensures AllClean(Corrections[k].1) {
      PlainClean(Corrections[k].1);
    }
  }

  lemma PlainClean(s: string)
    requires forall k :: 0 <= k < |s| ==> IsLowerLetter(s[k]) || IsDigit(s[k]) || s[k] == ':'
    ensures AllClean(s)
  {
  }

  // ------------------------------------------------------------ what is left alone

  /** Lower-case text of kept characters, already collapsed and trimmed, is its own cleaning. */
  lemma KeptFixed(u: string)
    requires NoUpper(u) && (forall k :: 0 <= k < |u| ==> Kept(u[k])) && CollapseWs(u) == u
    requires u == [] || (!IsSpace(u[0]) && !IsSpace(u[|u| - 1]))
    ensures Trim(CollapseWs(Filter(Lower(u), Kept))) == u
  {
    LowerOfNoUpper(u);
    FilterAll(u, Kept);
    TrimStartNoLeading(u);
    TrimEndNoTrailing(u);
  }

  /** Cleaning leaves text alone that is already lower-case, kept, free of white space and of any "1:00" to strip. */
  lemma CleanFixed(s: string, strip: Matcher)
    requires forall j :: 0 <= j < |s| ==> !Hits(s, strip, j)
    requires NoUpper(s) && NoSpace(s)
    requires forall k :: 0 <= k < |s| ==> Kept(s[k])
    ensures Clean(s, strip) == s
  {
    ScanNoHit(s, strip, 0);
    LowerOfNoUpper(s);
    FilterAll(s, Kept);
    CollapseNoSpace(s);
    TrimNoSpace(s);
  }

  predicate NoDigit(s: string) { forall k :: 0 <= k < |s| ==> !IsDigit(s[k]) }

  predicate NoBar(s: string) { forall k :: 0 <= k < |s| ==> s[k] != '|' }

  /**
   * Every repair but the misread-meridian one is anchored at a digit or a '|', and that one
   * adds neither, so text without either comes out of the repairs as that pass leaves it:
   * unchanged by the corrected pass, which needs a digit before the "n".
   */
  lemma RepairWithoutDigits(s: string, bareHour: Matcher, meridianN: Matcher, splitTime: Matcher)
    requires NoDigit(s) && NoBar(s)
    requires bareHour == BareHour || bareHour == BareHourAsWritten
    requires meridianN == MeridianN || meridianN == MeridianNAsWritten
    requires splitTime == SplitTime || splitTime == SplitTimeAsWritten
    ensures Repair(s, bareHour, meridianN, splitTime) == ReplaceAll(s, meridianN)
    ensures meridianN == MeridianN ==> Repair(s, bareHour, meridianN, splitTime) == s
  {
    ScanNoHit(s, SeparatorToColon, 0);
    forall j | 0 <= j < |s| ensures !Hits(s, JoinedTime, j) && !Hits(s, bareHour, j) {
      assert !IsDigit(s[j]);
    }
    ScanNoHit(s, JoinedTime, 0);
    ScanNoHit(s, bareHour, 0);
    ScanNoHit(s, Bar, 0);
    ScanNoHit(s, LBeforeDigit, 0);
    ScanNoHit(s, IBeforeDigit, 0);
    ScanNoHit(s, OBeforeDigit, 0);
    ScanNoHit(s, CapitalOBeforeDigit, 0);
    if meridianN == MeridianN {
      ScanNoHit(s, meridianN, 0);
    }
    var t := ReplaceAll(s, meridianN);
    MeridianPassNoDigit(s, meridianN);
    ScanNoHit(t, TruncatedPm, 0);
    ScanNoHit(t, TruncatedAm, 0);
    ScanNoHit(t, splitTime, 0);
  }

  /** The misread-meridian repair only writes a letter of the text and 'm'. */
  lemma MeridianPassNoDigit(s: string, meridianN: Matcher)
    requires NoDigit(s) && NoBar(s)
    requires meridianN == MeridianN || meridianN == MeridianNAsWritten
    ensures NoDigit(ReplaceAll(s, meridianN)) && NoBar(ReplaceAll(s, meridianN))
  {
    var p := (c: char) => !IsDigit(c) && c != '|';
    forall k | 0 <= k < |s| && Hits(s, meridianN, k) ensures forall c :: c in meridianN(s, k).value.1 ==> p(c) {
      assert meridianN(s, k).value.1 == [s[k], 'm'];
    }
    ScanKeeps(s, meridianN, 0, p);
    var t := ReplaceAll(s, meridianN);
    forall k | 0 <= k < |t| ensures p(t[k]) {
      assert t[k] in t;
    }
  }

  predicate LowerWord(w: string) { w != [] && forall k :: 0 <= k < |w| ==> IsLowerLetter(w[k]) }

  /** A lower-case word that is not one of the table's misreadings comes out exactly as it went in. */
  lemma PlainWordUnchanged(w: string)
    requires LowerWord(w)
    requires forall k :: 0 <= k < |Corrections| ==> w != Corrections[k].0
    ensures NormalizeText(w) == w
  {
    WordCleanFixed(w, OneOClock);
    RepairWithoutDigits(w, BareHour, MeridianN, SplitTime);
    WordSkipsCorrections(w);
  }

  lemma WordCleanFixed(w: string, strip: Matcher)
    requires LowerWord(w)
    requires strip == OneOClock || strip == OneOClockAsWritten
    ensures Clean(w, strip) == w
  {
    forall j | 0 <= j < |w| ensures !Hits(w, strip, j) {
      if j + 4 <= |w| { assert w[j..j + 4][0] == w[j]; }
    }
    CleanFixed(w, strip);
  }

  lemma {:induction false} WordSkipsCorrections(w: string)
    requires LowerWord(w)
    requires forall k :: 0 <= k < |Corrections| ==> w != Corrections[k].0
    ensures TN.ApplyCorrections(w, Corrections) == w
  {
    assert AllWordChars(w);
    forall k | 0 <= k < |Corrections| ensures !EqualsCI(w, Corrections[k].0) {
      LowerOfNoUpper(w);
      LowerOfNoUpper(Corrections[k].0);
    }
    TN.CorrectionsSkipWord(w, Corrections);
  }

  /** As written, the meridian repair rewrites "an" inside ordinary words: "january" comes out "jamuary". */
  lemma MeridianRepairCorruptsWords()
    ensures ReplaceAll("january", MeridianNAsWritten) == "jamuary"
  {
    var s := "january";
    assert ScanFrom(s, MeridianNAsWritten, 1) == "am" + ScanFrom(s, MeridianNAsWritten, 3);
    ScanNoHit(s, MeridianNAsWritten, 3);
  }

  /** Through the whole chain as written, "january" comes out "jamuary". */
  lemma JanuaryAsWritten()
    ensures NormalizeTextAsWritten("january") == "jamuary"
  {
    var w := "january";
    assert LowerWord(w) && NoDigit(w) && NoBar(w);
    WordCleanFixed(w, OneOClockAsWritten);
    RepairWithoutDigits(w, BareHourAsWritten, MeridianNAsWritten, SplitTimeAsWritten);
    MeridianRepairCorruptsWords();
    JamuaryIsNoKey();
    WordSkipsCorrections("jamuary");
  }

  lemma JamuaryIsNoKey()
    ensures LowerWord("jamuary")
    ensures forall k :: 0 <= k < |Corrections| ==> "jamuary" != Corrections[k].0
  {
    forall k | 0 <= k < |Corrections| ensures "jamuary" != Corrections[k].0 {
      assert |Corrections[k].0| != 7 || Corrections[k].0[1] != 'a' || Corrections[k].0[2] != 'm';
    }
  }

  lemma JanuaryIsPlain()
    ensures NormalizeText("january") == "january"
  {
    PlainWordUnchanged("january");
  }

  // ------------------------------------------------------------ times

  /** The characters a formatted time is written with. */
  predicate TimeChar(c: char) { IsDigit(c) || c == ':' || c == 'a' || c == 'p' || c == 'm' }

  /** Text over the time characters in which every 'a' and 'p' is followed by 'm'. */
  predicate TimeText(s: string)
  {
    (forall k :: 0 <= k < |s| ==> TimeChar(s[k]))
    && forall k :: 0 <= k < |s| && (s[k] == 'a' || s[k] == 'p') ==> k + 1 < |s| && s[k + 1] == 'm'
  }

  /** A time as the app formats it: one or two hour digits, ':', two minute digits, "am" or "pm". */
  predicate TimeShaped(s: string, n: nat)
  {
    (n == 1 || n == 2) && |s| == n + 5
    && (forall k :: 0 <= k < n ==> IsDigit(s[k]))
    && s[n] == ':' && IsDigit(s[n + 1]) && IsDigit(s[n + 2])
    && (s[n + 3] == 'a' || s[n + 3] == 'p') && s[n + 4] == 'm'
  }

  lemma ShapedIsTimeText(s: string, n: nat)
    requires TimeShaped(s, n)
    ensures TimeText(s) && NoSpace(s) && NoUpper(s)
  {
  }

  /** Separator repair only re-writes '.' as ':', so without '.' it changes nothing. */
  lemma SeparatorWithoutDots(s: string)
    requires forall k :: 0 <= k < |s| ==> s[k] != '.'
    ensures ReplaceAll(s, SeparatorToColon) == s
  {
    forall k | 0 <= k < |s| && Hits(s, SeparatorToColon, k)
      ensures SeparatorToColon(s, k).value.1 == s[k..k + SeparatorToColon(s, k).value.0]
    {
      var p := k + DigitRun(s, k);
      var q := p + 1 + DigitRun(s, p + 1);
      assert s[k..q] == s[k..p] + [s[p]] + s[p + 1..q];
    }
    ScanIdentity(s, SeparatorToColon, 0);
  }

  /** Split-time repair only removes white space, so text without any is left alone (either version). */
  lemma SplitTimeWithoutSpaces(s: string, splitTime: Matcher)
    requires NoSpace(s)
    requires splitTime == SplitTime || splitTime == SplitTimeAsWritten
    ensures ReplaceAll(s, splitTime) == s
  {
    forall k | 0 <= k < |s| && Hits(s, splitTime, k)
      ensures splitTime(s, k).value.1 == s[k..k + splitTime(s, k).value.0]
    {
      SplitTimeCopiesAt(s, k, splitTime);
    }
    ScanIdentity(s, splitTime, 0);
  }

  lemma {:induction false} SplitTimeCopiesAt(s: string, k: nat, splitTime: Matcher)
    requires NoSpace(s)
    requires splitTime == SplitTime || splitTime == SplitTimeAsWritten
    requires Hits(s, splitTime, k)
    ensures splitTime(s, k).value.1 == s[k..k + splitTime(s, k).value.0]
  {
    var n := if k + 1 < |s| && IsDigit(s[k + 1]) then 2 else 1;
    var j := k + n;
    SkipNoSpace(s, j);
    assert s[j] == ':';
    SkipNoSpace(s, j + 1);
    var l := j + 3;
    assert DigitsAt(s, j + 1, 2);
    SkipNoSpace(s, l);
    assert s[k..l] == s[k..j] + [s[j]] + s[j + 1..l];
    if MeridianCIAt(s, l) {
      assert s[k..l + 2] == s[k..l] + s[l..l + 2];
    }
  }

  /** On time text the letter-for-digit, meridian and truncated-meridian repairs find nothing. */
  lemma {:induction false} TimeTextLetterPasses(s: string)
    requires TimeText(s)
    ensures ReplaceAll(s, Bar) == s && ReplaceAll(s, LBeforeDigit) == s && ReplaceAll(s, IBeforeDigit) == s
    ensures ReplaceAll(s, OBeforeDigit) == s && ReplaceAll(s, CapitalOBeforeDigit) == s
    ensures ReplaceAll(s, MeridianN) == s && ReplaceAll(s, MeridianNAsWritten) == s
    ensures ReplaceAll(s, TruncatedPm) == s && ReplaceAll(s, TruncatedAm) == s
  {
    ScanNoHit(s, Bar, 0);
    ScanNoHit(s, LBeforeDigit, 0);
    ScanNoHit(s, IBeforeDigit, 0);
    ScanNoHit(s, OBeforeDigit, 0);
    ScanNoHit(s, CapitalOBeforeDigit, 0);
    forall k | 0 <= k < |s| ensures !Hits(s, MeridianNAsWritten, k) {
      if k + 1 < |s| { assert TimeChar(s[k + 1]); }
    }
    ScanNoHit(s, MeridianN, 0);
    ScanNoHit(s, MeridianNAsWritten, 0);
    forall k | 0 <= k < |s| ensures !Hits(s, TruncatedPm, k) && !Hits(s, TruncatedAm, k) {
      var p := k + DigitRun(s, k);
      if p < |s| && IsDigit(s[k]) {
        assert TimeChar(s[p]);
      }
    }
    ScanNoHit(s, TruncatedPm, 0);
    ScanNoHit(s, TruncatedAm, 0);
  }

  /** Every key of the table has one of its first two letters outside the time characters. */
  lemma {:induction false} KeysAreNotTimes()
    ensures forall k :: 0 <= k < |Corrections| ==> KeyNotTime(Corrections[k].0)
  {
    KeysNotTimesFrom(0, 7);
    KeysNotTimesFrom(7, 14);
    KeysNotTimesFrom(14, 21);
    KeysNotTimesFrom(21, 28);
  }

  /** A key that is lower case and cannot start inside time text. */
  predicate KeyNotTime(key: string)
  {
    NoUpper(key) && |key| >= 2 && (!TimeChar(key[0]) || !TimeChar(key[1]))
  }

  lemma KeysNotTimesFrom(lo: nat, hi: nat)
    requires lo <= hi <= |Corrections| && hi - lo <= 7
    ensures forall k :: lo <= k < hi ==> KeyNotTime(Corrections[k].0)
  {
  }

  lemma {:induction false} CorrectionsAbsent(s: string, table: seq<(string, string)>)
    requires forall k, j :: 0 <= k < |table| && 0 <= j <= |s| ==> !OccursCIAt(s, table[k].0, j)
    ensures TN.ApplyCorrections(s, table) == s
    decreases |table|
  {
    if table != [] {
      var last := table[|table| - 1];
      CorrectionsAbsent(s, table[..|table| - 1]);
      ReplaceWholeWordCIAbsent(s, last.0, last.1);
    }
  }

  /** No misreading in the table can occur in time text, so the word table leaves it alone. */
  lemma TimeTextSkipsCorrections(s: string)
    requires TimeText(s)
    ensures TN.ApplyCorrections(s, Corrections) == s
  {
    KeysAreNotTimes();
    forall k | 0 <= k < |Corrections| ensures forall j :: 0 <= j <= |s| ==> !OccursCIAt(s, Corrections[k].0, j) {
      KeyAbsentFromTime(s, Corrections[k].0);
    }
    CorrectionsAbsent(s, Corrections);
  }

  lemma KeyAbsentFromTime(s: string, key: string)
    requires TimeText(s) && NoUpper(key)
    requires |key| >= 2 && (!TimeChar(key[0]) || !TimeChar(key[1]))
    ensures forall j :: 0 <= j <= |s| ==> !OccursCIAt(s, key, j)
  {
    LowerOfNoUpper(key);
    var t := if TimeChar(key[0]) then 1 else 0;
    forall j | 0 <= j <= |s| ensures !OccursCIAt(s, key, j) {
      if j + |key| <= |s| {
        assert TimeChar(s[j + t]);
        assert Lower(s[j..j + |key|])[t] != Lower(key)[t];
      }
    }
  }

  /** Cleaning leaves a formatted time alone, unless it is "1:00am" or "1:00pm", whose "1:00" is stripped. */
  lemma {:induction false} ShapedCleanFixed(s: string, n: nat)
    requires TimeShaped(s, n)
    requires !(n == 1 && s[0] == '1' && s[2] == '0' && s[3] == '0')
    ensures Clean(s, OneOClock) == s
  {
    ShapedIsTimeText(s, n);
    forall j | 0 <= j < |s| ensures !Hits(s, OneOClock, j) {
      SkipNoSpace(s, j);
      if j + 4 <= |s| {
        assert s[j..j + 4][1] == s[j + 1] && s[j..j + 4][0] == s[j];
        assert s[j..j + 4][2] == s[j + 2] && s[j..j + 4][3] == s[j + 3];
      }
    }
    CleanFixed(s, OneOClock);
  }

  /** Without any "1:00" in it, a formatted time is also left alone by the cleaning as written. */
  lemma {:induction false} ShapedCleanAsWritten(s: string, n: nat)
    requires TimeShaped(s, n)
    requires !(s[n - 1] == '1' && s[n + 1] == '0' && s[n + 2] == '0')
    ensures Clean(s, OneOClockAsWritten) == s
  {
    ShapedIsTimeText(s, n);
    forall j | 0 <= j < |s| ensures !Hits(s, OneOClockAsWritten, j) {
      SkipNoSpace(s, j);
      if j + 4 <= |s| {
        assert s[j..j + 4][1] == s[j + 1] && s[j..j + 4][0] == s[j];
        assert s[j..j + 4][2] == s[j + 2] && s[j..j + 4][3] == s[j + 3];
      }
    }
    CleanFixed(s, OneOClockAsWritten);
  }

  /** The joined-time repair needs three digits in a row, which a formatted time never has. */
  lemma ShapedNotJoined(s: string, n: nat)
    requires TimeShaped(s, n)
    ensures ReplaceAll(s, JoinedTime) == s
  {
    forall j | 0 <= j < |s| ensures !Hits(s, JoinedTime, j) {
      assert !DigitsAt(s, j, 3) by {
        if j + 3 <= |s| {
          assert !IsDigit(s[j]) || !IsDigit(s[j + 1]) || !IsDigit(s[j + 2]);
        }
      }
    }
    ScanNoHit(s, JoinedTime, 0);
  }

  /** The corrected repairs all leave a formatted time alone. */
  lemma {:induction false} ShapedRepairFixed(s: string, n: nat)
    requires TimeShaped(s, n)
    ensures Repair(s, BareHour, MeridianN, SplitTime) == s
  {
    ShapedIsTimeText(s, n);
    SeparatorWithoutDots(s);
    ShapedNotJoined(s, n);
    ShapedNoBareHour(s, n);
    TimeTextLetterPasses(s);
    SplitTimeWithoutSpaces(s, SplitTime);
  }

  /** The corrected bare-hour repair finds no lone hour in a formatted time. */
  lemma ShapedNoBareHour(s: string, n: nat)
    requires TimeShaped(s, n)
    ensures ReplaceAll(s, BareHour) == s
  {
    forall j | 0 <= j < |s| ensures !Hits(s, BareHour, j) {
      if 0 < j && j != n + 1 {
        assert IsDigit(s[j - 1]) || !IsDigit(s[j]) || j == n + 2;
      }
    }
    ScanNoHit(s, BareHour, 0);
  }

  /** As written, the bare-hour repair takes the minutes of a formatted time for an hour and adds ":00". */
  lemma ShapedRepairAsWritten(s: string, n: nat)
    requires TimeShaped(s, n)
    ensures Repair(s, BareHourAsWritten, MeridianNAsWritten, SplitTimeAsWritten) == s[..n + 3] + ":00" + s[n + 3..]
  {
    ShapedIsTimeText(s, n);
    SeparatorWithoutDots(s);
    ShapedNotJoined(s, n);
    var u := s[..n + 3] + ":00" + s[n + 3..];
    ShapedBareHourAsWritten(s, n);
    GainedMinutesIsTimeText(s, n);
    TimeTextLetterPasses(u);
    SplitTimeWithoutSpaces(u, SplitTimeAsWritten);
  }

  lemma {:induction false} ShapedBareHourAsWritten(s: string, n: nat)
    requires TimeShaped(s, n)
    ensures ReplaceAll(s, BareHourAsWritten) == s[..n + 3] + ":00" + s[n + 3..]
  {
    ShapedHourNotBare(s, n);
    ScanSkip(s, BareHourAsWritten, 0, n + 1);
    MinutesTakenForHour(s, n);
    Splice(s, n + 1, n + 3, ":00");
  }

  lemma Splice(s: string, a: nat, b: nat, ins: string)
    requires a <= b <= |s|
    ensures s[0..a] + (s[a..b] + ins + s[b..]) == s[..b] + ins + s[b..]
  {
    assert s[..b] == s[0..a] + s[a..b];
  }

  /** Before the minutes, the bare-hour repair as written finds nothing in a formatted time. */
  lemma ShapedHourNotBare(s: string, n: nat)
    requires TimeShaped(s, n)
    ensures forall j :: 0 <= j < n + 1 ==> !Hits(s, BareHourAsWritten, j)
  {
    forall j | 0 <= j < n + 1 ensures !Hits(s, BareHourAsWritten, j) {
      assert !MeridianCIAt(s, j + 1) && !MeridianCIAt(s, j + 2);
    }
  }

  /** The minutes of a formatted time, followed by its meridian, look like a bare hour to the repair as written. */
  lemma MinutesTakenForHour(s: string, n: nat)
    requires TimeShaped(s, n)
    ensures ScanFrom(s, BareHourAsWritten, n + 1) == s[n + 1..n + 3] + ":00" + s[n + 3..]
  {
    assert s[n + 3..] == s[n + 3..n + 5];
    assert DigitsAt(s, n + 1, 2) && MeridianCIAt(s, n + 3);
    assert ScanFrom(s, BareHourAsWritten, n + 5) == [];
  }

  lemma GainedMinutesIsTimeText(s: string, n: nat)
    requires TimeShaped(s, n)
    ensures TimeText(s[..n + 3] + ":00" + s[n + 3..]) && NoSpace(s[..n + 3] + ":00" + s[n + 3..])
  {
    var u := s[..n + 3] + ":00" + s[n + 3..];
    assert |u| == n + 8;
    assert forall k :: 0 <= k < n + 3 ==> u[k] == s[k];
    assert u[n + 3] == ':' && u[n + 4] == '0' && u[n + 5] == '0';
    assert u[n + 6] == s[n + 3] && u[n + 7] == s[n + 4];
  }

  // ------------------------------------------------------------ the times the app writes itself

  lemma FormatShaped(t: ClockTime)
    requires Proper(t)
    ensures TimeShaped(Format(t), |NatToString(t.hour)|)
  {
    NatToStringLength(t.hour);
    var h := NatToString(t.hour);
    var s := Format(t);
    assert forall k :: 0 <= k < |h| ==> s[k] == h[k];
    assert s[|h| + 1..|h| + 3] == Pad2(t.minute);
  }

  /** The last digit of a number's decimal text is the number modulo ten. */
  lemma LastDigit(n: nat)
    ensures NatToString(n)[|NatToString(n)| - 1] == DigitChar(n % 10)
  {
  }

  /** Where a formatted time contains "1:00": at one o'clock and at eleven o'clock. */
  lemma FormatOneOClock(t: ClockTime)
    requires Proper(t)
    ensures var s, n := Format(t), |NatToString(t.hour)|;
      n >= 1 && |s| == n + 5 && (s[n - 1] == '1' && s[n + 1] == '0' && s[n + 2] == '0' ==> t.minute == 0 && (t.hour == 1 || t.hour == 11))
    ensures var s, n := Format(t), |NatToString(t.hour)|;
      n >= 1 && |s| == n + 5 && (n == 1 && s[0] == '1' && s[2] == '0' && s[3] == '0' ==> t.minute == 0 && t.hour == 1)
  {
    FormatShaped(t);
    var h := NatToString(t.hour);
    var s := Format(t);
    var n := |h|;
    NatToStringLength(t.hour);
    assert s[n - 1] == h[n - 1];
    LastDigit(t.hour);
    var mm := s[n + 1..n + 3];
    assert mm == Pad2(t.minute);
    if s[n + 1] == '0' && s[n + 2] == '0' {
      assert mm == "00";
      ParsePad2(t.minute);
      assert ParseDigits("00") == 0 by { assert "00"[..1] == "0"; assert "0"[..0] == []; }
    }
  }

  /**
   * Every time the app formats itself comes out of the normaliser unchanged, apart from
   * "1:00am" and "1:00pm", which fall to the stripping of the repeated "1:00".
   */
  lemma FormattedTimeSurvives(t: ClockTime)
    requires Proper(t) && !(t.hour == 1 && t.minute == 0)
    ensures NormalizeText(Format(t)) == Format(t)
  {
    var s := Format(t);
    var n := |NatToString(t.hour)|;
    FormatShaped(t);
    FormatOneOClock(t);
    ShapedCleanFixed(s, n);
    ShapedRepairFixed(s, n);
    ShapedIsTimeText(s, n);
    TimeTextSkipsCorrections(s);
  }

  /**
   * As written, every formatted time without a "1:00" in it comes out with ":00" after its
   * minutes, so "9:30pm" turns into "9:30:00pm".
   */
  lemma FormattedTimeGainsSeconds(t: ClockTime)
    requires Proper(t) && !(t.minute == 0 && (t.hour == 1 || t.hour == 11))
    ensures NormalizeTextAsWritten(Format(t))
         == NatToString(t.hour) + ":" + Pad2(t.minute) + ":00" + t.meridian.Text()
  {
    var s := Format(t);
    var n := |NatToString(t.hour)|;
    FormatShaped(t);
    FormatOneOClock(t);
    ShapedCleanAsWritten(s, n);
    ShapedRepairAsWritten(s, n);
    GainedMinutesIsTimeText(s, n);
    TimeTextSkipsCorrections(s[..n + 3] + ":00" + s[n + 3..]);
    assert s[..n + 3] == NatToString(t.hour) + ":" + Pad2(t.minute);
    assert s[n + 3..] == t.meridian.Text();
  }

  // ------------------------------------------------------------ the three discrepancies, on inputs

  lemma SampleFormats()
    ensures Format(ClockTime(9, 30, PM)) == "9:30pm"
    ensures NatToString(9) + ":" + Pad2(30) + ":00" + PM.Text() == "9:30:00pm"
    ensures Format(ClockTime(11, 0, AM)) == "11:00am"
  {
  }

  /** "9:30pm" becomes "9:30:00pm" as written, and is kept by the corrected repairs. */
  lemma HalfPastNine()
    ensures NormalizeTextAsWritten("9:30pm") == "9:30:00pm"
    ensures NormalizeText("9:30pm") == "9:30pm"
  {
    var t := ClockTime(9, 30, PM);
    SampleFormats();
    FormattedTimeGainsSeconds(t);
    FormattedTimeSurvives(t);
  }

  /** As written, eleven o'clock loses its leading digit to the stripping of "1:00": "11:00am" becomes "1 am". */
  lemma ElevenOClockAsWritten(m: Meridian)
    ensures ReplaceAll("11:00" + m.Text(), OneOClockAsWritten) == "1 " + m.Text()
  {
    var s := "11:00" + m.Text();
    assert !Hits(s, OneOClockAsWritten, 0) by {
      assert SkipSpaces(s, 0) == 0;
      assert s[0..4][1] != "1:00"[1];
    }
    assert Hits(s, OneOClockAsWritten, 1) by {
      assert SkipSpaces(s, 1) == 1 && SkipSpaces(s, 5) == 5;
      assert s[1..5] == "1:00";
    }
    assert OneOClockAsWritten(s, 1).value == (4, " ");
    assert ScanFrom(s, OneOClockAsWritten, 0) == [s[0]] + ScanFrom(s, OneOClockAsWritten, 1);
    assert ScanFrom(s, OneOClockAsWritten, 1) == " " + ScanFrom(s, OneOClockAsWritten, 5);
    ScanNoHit(s, OneOClockAsWritten, 5);
    assert s[5..] == m.Text();
  }

  /** Through the whole chain as written, eleven o'clock comes out "1 am" or "1 pm". */
  lemma ElevenOClockWholeChain(m: Meridian)
    ensures NormalizeTextAsWritten("11:00" + m.Text()) == "1 " + m.Text()
  {
    var u := "1 " + m.Text();
    ElevenOClockAsWritten(m);
    HourSpaceMeridianChars(u);
    HourSpaceMeridianCollapse(u);
    KeptFixed(u);
    HourSpaceMeridianRepairs(u);
    HourSpaceMeridianNoKey(u);
  }

  /** "1 am" or "1 pm": what the stripping as written leaves of eleven o'clock. */
  predicate HourSpaceMeridian(u: string)
  {
    |u| == 4 && u[0] == '1' && u[1] == ' ' && (u[2] == 'a' || u[2] == 'p') && u[3] == 'm'
  }

  lemma HourSpaceMeridianChars(u: string)
    requires HourSpaceMeridian(u)
    ensures NoUpper(u) && (forall k :: 0 <= k < |u| ==> Kept(u[k]))
    ensures !IsSpace(u[0]) && !IsSpace(u[|u| - 1])
  {
    forall i | 0 <= i < |u| ensures !IsUpper(u[i]) && Kept(u[i]) {
      if i == 0 {
        assert u[i] == '1';
      } else if i == 1 {
        assert u[i] == ' ';
      } else if i == 2 {
        assert u[i] == 'a' || u[i] == 'p';
      } else {
        assert u[i] == 'm';
      }
    }
  }

  lemma HourSpaceMeridianCollapse(u: string)
    requires HourSpaceMeridian(u)
    ensures CollapseWs(u) == u
  {
    assert NoSpace(u[2..]) by {
      forall i | 0 <= i < 2 ensures !IsSpace(u[2..][i]) { assert u[2..][i] == u[i + 2]; }
    }
    assert NoSpace(u[..1]) by { assert u[..1][0] == '1'; }
    CollapseSpaceAt(u, 1);
  }

  lemma HourSpaceMeridianRepairs(u: string)
    requires HourSpaceMeridian(u)
    ensures Repair(u, BareHourAsWritten, MeridianNAsWritten, SplitTimeAsWritten) == u
  {
    HourSpaceMeridianDigitPasses(u);
    HourSpaceMeridianLetterPasses(u);
  }

  lemma HourSpaceMeridianDigitPasses(u: string)
    requires HourSpaceMeridian(u)
    ensures ReplaceAll(u, SeparatorToColon) == u && ReplaceAll(u, JoinedTime) == u
    ensures ReplaceAll(u, BareHourAsWritten) == u && ReplaceAll(u, SplitTimeAsWritten) == u
  {
    HourSpaceMeridianSeparators(u);
    HourSpaceMeridianBareHour(u);
    HourSpaceMeridianSplitTime(u);
  }

  lemma HourSpaceMeridianSeparators(u: string)
    requires HourSpaceMeridian(u)
    ensures ReplaceAll(u, SeparatorToColon) == u && ReplaceAll(u, JoinedTime) == u
  {
    assert DigitRun(u, 0) == 1;
    forall j | 0 <= j < |u| ensures !Hits(u, SeparatorToColon, j) && !Hits(u, JoinedTime, j) {
      assert j == 0 || !IsDigit(u[j]);
    }
    ScanNoHit(u, SeparatorToColon, 0);
    ScanNoHit(u, JoinedTime, 0);
  }

  lemma HourSpaceMeridianBareHour(u: string)
    requires HourSpaceMeridian(u)
    ensures ReplaceAll(u, BareHourAsWritten) == u
  {
    assert DigitRun(u, 0) == 1;
    forall j | 0 <= j < |u| ensures !Hits(u, BareHourAsWritten, j) {
      assert j == 0 || !IsDigit(u[j]);
      assert !MeridianCIAt(u, 1);
    }
    ScanNoHit(u, BareHourAsWritten, 0);
  }

  lemma HourSpaceMeridianSplitTime(u: string)
    requires HourSpaceMeridian(u)
    ensures ReplaceAll(u, SplitTimeAsWritten) == u
  {
    assert DigitRun(u, 0) == 1;
    assert SkipSpaces(u, 1) == 2;
    forall j | 0 <= j < |u| ensures !Hits(u, SplitTimeAsWritten, j) {
      assert j == 0 || !IsDigit(u[j]);
    }
    ScanNoHit(u, SplitTimeAsWritten, 0);
  }

  lemma HourSpaceMeridianLetterPasses(u: string)
    requires HourSpaceMeridian(u)
    ensures ReplaceAll(u, Bar) == u && ReplaceAll(u, LBeforeDigit) == u && ReplaceAll(u, IBeforeDigit) == u
    ensures ReplaceAll(u, OBeforeDigit) == u && ReplaceAll(u, CapitalOBeforeDigit) == u
    ensures ReplaceAll(u, MeridianNAsWritten) == u
    ensures ReplaceAll(u, TruncatedPm) == u && ReplaceAll(u, TruncatedAm) == u
  {
    forall j | 0 <= j < |u| ensures !Hits(u, Bar, j) && !Hits(u, MeridianNAsWritten, j) {
      assert j < 4;
    }
    forall j | 0 <= j < |u| ensures !IsDigit(u[j]) || j == 0 {
      assert j < 4;
    }
    ScanNoHit(u, Bar, 0);
    ScanNoHit(u, LBeforeDigit, 0);
    ScanNoHit(u, IBeforeDigit, 0);
    ScanNoHit(u, OBeforeDigit, 0);
    ScanNoHit(u, CapitalOBeforeDigit, 0);
    ScanNoHit(u, MeridianNAsWritten, 0);
    assert DigitRun(u, 0) == 1;
    ScanNoHit(u, TruncatedPm, 0);
    ScanNoHit(u, TruncatedAm, 0);
  }

  /** Every key of the table starts with a letter and is at least three characters long. */
  lemma {:induction false} KeysStartWithLetters()
    ensures forall k :: 0 <= k < |Corrections| ==> |Corrections[k].0| >= 3 && IsLowerLetter(Corrections[k].0[0])
  {
  }

  lemma HourSpaceMeridianNoKey(u: string)
    requires HourSpaceMeridian(u)
    ensures TN.ApplyCorrections(u, Corrections) == u
  {
    KeysStartWithLetters();
    forall k, j | 0 <= k < |Corrections| && 0 <= j <= |u| ensures !OccursCIAt(u, Corrections[k].0, j) {
      var key := Corrections[k].0;
      if j + |key| <= |u| {
        assert Lower(u[j..j + |key|])[0] == LowerChar(u[j]);
        assert Lower(key)[0] == key[0];
      }
    }
    CorrectionsAbsent(u, Corrections);
  }

  /** A time without meridian: one or two hour digits, ':', two minute digits. */
  predicate BareTime(x: string, n: nat)
  {
    (n == 1 || n == 2) && |x| == n + 3
    && (forall k :: 0 <= k < n ==> IsDigit(x[k]))
    && x[n] == ':' && IsDigit(x[n + 1]) && IsDigit(x[n + 2])
  }

  /** A lower-case word that does not start with "am" or "pm". */
  predicate NotMeridianWord(w: string)
  {
    LowerWord(w) && !(|w| >= 2 && (w[0] == 'a' || w[0] == 'p') && w[1] == 'm')
  }

  lemma {:induction false} SplitTimeAtBareTime(x: string, n: nat, w: string, splitTime: Matcher)
    requires BareTime(x, n) && NotMeridianWord(w)
    requires splitTime == SplitTime || splitTime == SplitTimeAsWritten
    ensures var s := x + " " + w;
      splitTime(s, 0) == Some((if splitTime == SplitTime then n + 3 else n + 4, x))
  {
    var s := x + " " + w;
    assert s[..n + 3] == x;
    assert SkipSpaces(s, n) == n && SkipSpaces(s, n + 1) == n + 1;
    assert SkipSpaces(s, n + 3) == n + 4 by {
      assert IsSpace(s[n + 3]) && s[n + 4] == w[0];
    }
    assert !MeridianCIAt(s, n + 4) by {
      if n + 6 <= |s| { assert s[n + 4] == w[0] && s[n + 5] == w[1]; }
    }
    assert x == s[0..n] + ":" + s[n + 1..n + 3];
  }

  lemma NoSplitTimeInWord(s: string, from: nat, splitTime: Matcher)
    requires from <= |s| && forall k :: from <= k < |s| ==> IsLowerLetter(s[k]) || IsSpace(s[k])
    requires splitTime == SplitTime || splitTime == SplitTimeAsWritten
    ensures ScanFrom(s, splitTime, from) == s[from..]
  {
    forall k | from <= k < |s| ensures !Hits(s, splitTime, k) {
      assert !IsDigit(s[k]);
    }
    ScanNoHit(s, splitTime, from);
  }

  /** As written, a time followed by a word is glued to it: "9:30 lunch" becomes "9:30lunch". */
  lemma TimeBeforeWordAsWritten(x: string, n: nat, w: string)
    requires BareTime(x, n) && NotMeridianWord(w)
    ensures ReplaceAll(x + " " + w, SplitTimeAsWritten) == x + w
  {
    var s := x + " " + w;
    SplitTimeAtBareTime(x, n, w, SplitTimeAsWritten);
    ScanHit(s, SplitTimeAsWritten, 0);
    SpaceThenWord(x, w);
    NoSplitTimeInWord(s, n + 4, SplitTimeAsWritten);
    assert s[n + 4..] == w;
  }

  /** Through the whole chain, "9:30 lunch" loses its space as written and keeps it once corrected. */
  lemma LunchWholeChain(s: string)
    requires s == "9:30 lunch"
    ensures NormalizeTextAsWritten(s) == "9:30lunch"
    ensures NormalizeText(s) == s
  {
    assert LunchAt(s);
    LunchAsWritten(s);
    LunchJoined(s);
    LunchCorrected(s);
  }

  lemma LunchJoined(s: string)
    requires s == "9:30 lunch"
    ensures s[..4] + s[5..] == "9:30lunch"
  {
  }

  lemma LunchPieces(s: string)
    requires LunchAt(s)
    ensures BareTime(s[..4], 1) && NotMeridianWord(s[5..]) && s == s[..4] + " " + s[5..]
  {
    assert LowerWord(s[5..]) by {
      forall k | 0 <= k < 5 ensures IsLowerLetter(s[5..][k]) { assert s[5..][k] == s[k + 5]; }
    }
  }

  lemma LunchAsWritten(s: string)
    requires LunchAt(s)
    ensures NormalizeTextAsWritten(s) == s[..4] + s[5..]
  {
    LunchRepairedAsWritten(s);
    LunchJoinedChars(s);
    LunchNoKey(s[..4] + s[5..]);
  }

  /** As written, the repairs glue "9:30" to "lunch". */
  lemma LunchRepairedAsWritten(s: string)
    requires LunchAt(s)
    ensures Repair(Clean(s, OneOClockAsWritten), BareHourAsWritten, MeridianNAsWritten, SplitTimeAsWritten)
            == s[..4] + s[5..]
  {
    LunchClean(s, OneOClockAsWritten);
    LunchRepairs(s, BareHourAsWritten, MeridianNAsWritten, SplitTimeAsWritten);
    LunchPieces(s);
    TimeBeforeWordAsWritten(s[..4], 1, s[5..]);
  }

  /** "9:30lunch", character by character. */
  predicate LunchJoinedAt(u: string)
  {
    |u| == 9 && u[0] == '9' && u[1] == ':' && u[2] == '3' && u[3] == '0'
    && u[4] == 'l' && u[5] == 'u' && u[6] == 'n' && u[7] == 'c' && u[8] == 'h'
  }

  lemma LunchJoinedChars(s: string)
    requires LunchAt(s)
    ensures LunchJoinedAt(s[..4] + s[5..])
  {
    var r := s[..4] + s[5..];
    assert forall i :: 0 <= i < 4 ==> r[i] == s[i];
    assert forall i :: 4 <= i < 9 ==> r[i] == s[i + 1];
  }

  lemma LunchCorrected(s: string)
    requires LunchAt(s)
    ensures NormalizeText(s) == s
  {
    LunchClean(s, OneOClock);
    LunchRepairs(s, BareHour, MeridianN, SplitTime);
    LunchPieces(s);
    TimeBeforeWord(s[..4], 1, s[5..]);
    assert Repair(Clean(s, OneOClock), BareHour, MeridianN, SplitTime) == s;
    LunchNoKey(s);
  }

  /** "9:30 lunch", character by character. */
  predicate LunchAt(s: string)
  {
    |s| == 10 && s[0] == '9' && s[1] == ':' && s[2] == '3' && s[3] == '0' && s[4] == ' '
    && s[5] == 'l' && s[6] == 'u' && s[7] == 'n' && s[8] == 'c' && s[9] == 'h'
  }

  lemma LunchNoStrip(s: string, strip: Matcher)
    requires LunchAt(s)
    requires strip == OneOClock || strip == OneOClockAsWritten
    ensures ReplaceAll(s, strip) == s
  {
    forall j | 0 <= j < |s| ensures !Hits(s, strip, j) {
      var i := SkipSpaces(s, j);
      assert i == j || (j == 4 && i == 5);
      if i + 4 <= |s| {
        assert s[i..i + 4][0] == s[i] && s[i..i + 4][1] == s[i + 1];
      }
    }
    ScanNoHit(s, strip, 0);
  }

  lemma LunchClean(s: string, strip: Matcher)
    requires LunchAt(s)
    requires strip == OneOClock || strip == OneOClockAsWritten
    ensures Clean(s, strip) == s
  {
    LunchNoStrip(s, strip);
    LunchChars(s);
    LunchCollapse(s);
    KeptFixed(s);
  }

  lemma LunchChars(s: string)
    requires LunchAt(s)
    ensures NoUpper(s) && (forall k :: 0 <= k < |s| ==> Kept(s[k]))
    ensures !IsSpace(s[0]) && !IsSpace(s[|s| - 1])
  {
    forall i | 0 <= i < |s| ensures !IsUpper(s[i]) && Kept(s[i]) {
      if i < 4 {
        assert IsDigit(s[i]) || s[i] == ':';
      } else if i == 4 {
        assert s[i] == ' ';
      } else {
        assert IsLowerLetter(s[i]);
      }
    }
  }

  lemma LunchCollapse(s: string)
    requires LunchAt(s)
    ensures CollapseWs(s) == s
  {
    assert NoSpace(s[..4]) by {
      forall i | 0 <= i < 4 ensures !IsSpace(s[..4][i]) { assert s[..4][i] == s[i]; }
    }
    assert NoSpace(s[5..]) by {
      forall i | 0 <= i < 5 ensures !IsSpace(s[5..][i]) { assert s[5..][i] == s[i + 5]; }
    }
    CollapseSpaceAt(s, 4);
  }

  /** On "9:30 lunch" every repair before the split-time one finds nothing to change. */
  lemma LunchRepairs(s: string, bareHour: Matcher, meridianN: Matcher, splitTime: Matcher)
    requires LunchAt(s)
    requires bareHour == BareHour || bareHour == BareHourAsWritten
    requires meridianN == MeridianN || meridianN == MeridianNAsWritten
    ensures Repair(s, bareHour, meridianN, splitTime) == ReplaceAll(s, splitTime)
  {
    LunchDigitPasses(s);
    LunchLetterPasses(s);
    LunchMeridianPasses(s, meridianN);
  }

  lemma LunchDigitPasses(s: string)
    requires LunchAt(s)
    ensures ReplaceAll(s, SeparatorToColon) == s && ReplaceAll(s, JoinedTime) == s
    ensures ReplaceAll(s, BareHourAsWritten) == s && ReplaceAll(s, BareHour) == s
  {
    LunchSeparators(s);
    LunchBareHours(s);
  }

  lemma LunchSeparators(s: string)
    requires LunchAt(s)
    ensures ReplaceAll(s, SeparatorToColon) == s && ReplaceAll(s, JoinedTime) == s
  {
    assert forall k :: 0 <= k < |s| ==> s[k] != '.';
    SeparatorWithoutDots(s);
    forall j | 0 <= j < |s| ensures !Hits(s, JoinedTime, j) {
      assert j < 10;
    }
    ScanNoHit(s, JoinedTime, 0);
  }

  lemma LunchBareHours(s: string)
    requires LunchAt(s)
    ensures ReplaceAll(s, BareHourAsWritten) == s && ReplaceAll(s, BareHour) == s
  {
    forall j | 0 <= j < |s| ensures !Hits(s, BareHourAsWritten, j) {
      assert j < 10;
    }
    ScanNoHit(s, BareHourAsWritten, 0);
    ScanNoHit(s, BareHour, 0);
  }

  lemma LunchLetterPasses(s: string)
    requires LunchAt(s)
    ensures ReplaceAll(s, Bar) == s && ReplaceAll(s, LBeforeDigit) == s && ReplaceAll(s, IBeforeDigit) == s
    ensures ReplaceAll(s, OBeforeDigit) == s && ReplaceAll(s, CapitalOBeforeDigit) == s
  {
    forall j | 0 <= j < |s| ensures !Hits(s, Bar, j) && !Hits(s, LBeforeDigit, j) {
      assert j < 10;
    }
    ScanNoHit(s, Bar, 0);
    ScanNoHit(s, LBeforeDigit, 0);
    ScanNoHit(s, IBeforeDigit, 0);
    ScanNoHit(s, OBeforeDigit, 0);
    ScanNoHit(s, CapitalOBeforeDigit, 0);
  }

  lemma LunchMeridianPasses(s: string, meridianN: Matcher)
    requires LunchAt(s)
    requires meridianN == MeridianN || meridianN == MeridianNAsWritten
    ensures ReplaceAll(s, meridianN) == s
    ensures ReplaceAll(s, TruncatedPm) == s && ReplaceAll(s, TruncatedAm) == s
  {
    LunchMeridianN(s, meridianN);
    LunchTruncated(s);
  }

  lemma LunchMeridianN(s: string, meridianN: Matcher)
    requires LunchAt(s)
    requires meridianN == MeridianN || meridianN == MeridianNAsWritten
    ensures ReplaceAll(s, meridianN) == s
  {
    forall j | 0 <= j < |s| ensures !Hits(s, MeridianNAsWritten, j) && !Hits(s, meridianN, j) {
      assert j < 10;
    }
    ScanNoHit(s, meridianN, 0);
  }

  lemma LunchTruncated(s: string)
    requires LunchAt(s)
    ensures ReplaceAll(s, TruncatedPm) == s && ReplaceAll(s, TruncatedAm) == s
  {
    assert DigitRun(s, 0) == 1 && DigitRun(s, 2) == 2 && DigitRun(s, 3) == 1;
    forall j | 0 <= j < |s| ensures !Hits(s, TruncatedPm, j) && !Hits(s, TruncatedAm, j) {
      assert j < 10;
    }
    ScanNoHit(s, TruncatedPm, 0);
    ScanNoHit(s, TruncatedAm, 0);
  }

  /** Only "luh" and "uaraary" start with a letter of "lunch"; neither occurs. */
  lemma LunchNoKey(u: string)
    requires LunchJoinedAt(u) || LunchAt(u)
    ensures TN.ApplyCorrections(u, Corrections) == u
  {
    KeysClearOfLunch(0, 7);
    KeysClearOfLunch(7, 14);
    KeysClearOfLunch(14, 21);
    KeysClearOfLunch(21, 28);
    forall k, j | 0 <= k < |Corrections| && 0 <= j <= |u| ensures !OccursCIAt(u, Corrections[k].0, j) {
      LunchKeyAbsent(u, Corrections[k].0, j);
    }
    CorrectionsAbsent(u, Corrections);
  }

  /** A lower-case key whose first and third letters match no two letters two apart in "9:30 lunch" or "9:30lunch". */
  predicate ClearOfLunch(key: string)
  {
    |key| >= 3 && IsLowerLetter(key[0]) && !IsUpper(key[2]) && key[0] != 'n'
    && !(key[0] == 'l' && key[2] == 'n') && !(key[0] == 'u' && key[2] == 'c')
  }

  lemma KeysClearOfLunch(lo: nat, hi: nat)
    requires lo <= hi <= |Corrections| && hi - lo <= 7
    ensures forall k :: lo <= k < hi ==> ClearOfLunch(Corrections[k].0)
  {
  }

  /** Such a key does not occur at position `j` of "9:30 lunch" or "9:30lunch". */
  lemma LunchKeyAbsent(u: string, key: string, j: nat)
    requires LunchJoinedAt(u) || LunchAt(u)
    requires ClearOfLunch(key)
    ensures !OccursCIAt(u, key, j)
  {
    if j + |key| <= |u| {
      assert Lower(u[j..j + |key|])[0] == LowerChar(u[j]) && Lower(u[j..j + |key|])[2] == LowerChar(u[j + 2]);
      assert Lower(key)[0] == key[0] && Lower(key)[2] == key[2];
    }
  }

  /** The corrected split-time repair keeps the space between a time and the word after it. */
  lemma {:induction false} TimeBeforeWord(x: string, n: nat, w: string)
    requires BareTime(x, n) && NotMeridianWord(w)
    ensures ReplaceAll(x + " " + w, SplitTime) == x + " " + w
  {
    var s := x + " " + w;
    SplitTimeAtBareTime(x, n, w, SplitTime);
    ScanHit(s, SplitTime, 0);
    SpaceThenWord(x, w);
    NoSplitTimeInWord(s, n + 3, SplitTime);
    RestAfter(x, " " + w);
  }

  lemma RestAfter(x: string, y: string)
    ensures x + (x + y)[|x|..] == x + y
  {
    assert (x + y)[|x|..] == y;
  }

  lemma SpaceThenWord(x: string, w: string)
    requires LowerWord(w)
    ensures forall k :: |x| <= k < |x + " " + w| ==> IsLowerLetter((x + " " + w)[k]) || IsSpace((x + " " + w)[k])
  {
    var s := x + " " + w;
    forall k | |x| <= k < |s| ensures IsLowerLetter(s[k]) || IsSpace(s[k]) {
      if k > |x| {
        assert s[k] == w[k - |x| - 1];
      }
    }
  }

  /**
   * The corrected split-time repair never ends a match in white space: what follows the
   * minutes is only taken when it leads to a meridian.
   */
  lemma {:induction false} SplitTimeEndsOnTime(s: string, k: nat)
    requires Hits(s, SplitTime, k)
    ensures !IsSpace(s[k + SplitTime(s, k).value.0 - 1])
  {
    var n := if k + 1 < |s| && IsDigit(s[k + 1]) then 2 else 1;
    var j := SkipSpaces(s, k + n);
    var m := SkipSpaces(s, j + 1);
    var l := SkipSpaces(s, m + 2);
    if MeridianCIAt(s, l) {
      assert LowerChar(s[l + 1]) == 'm';
      WordCharNotSpace(s[l + 1]);
    } else {
      WordCharNotSpace(s[m + 1]);
    }
  }
}
