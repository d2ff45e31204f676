/**
 * The planner's title normaliser: lower-case and trim, restore the spelling of known
 * proper names, then repair common handwriting misreadings word by word.
 */
module TextNormalizer {
  import opened Text
  import opened Rewrite
  import opened Seqs

  /** The misreading table, in declaration order (object key order). */
  const Corrections: seq<(string, string)> := [
    ("dentst", "dentist"),
    ("ortho", "orthodontist"),
    ("socr", "soccer"),
    ("schl", "school"),
    ("skool", "school"),
    ("scool", "school"),
    ("practce", "practice"),
    ("prctice", "practice"),
    ("appt", "appointment"),
    ("apt", "appointment"),
    ("lnch", "lunch"),
    ("grf", "golf")
  ]

  const DefaultProperNames: seq<string> := ["Rane"]

  predicate NoDuplicates(s: seq<string>)
  {
    forall i, j :: 0 <= i < j < |s| ==> s[i] != s[j]
  }

  /** The proper-name pass: each name in insertion order replaces its occurrences in any case. */
  function RestoreNames(s: string, names: seq<string>): (r: string)
    decreases |names|
  {
    if names == [] then s
    else
      var last := names[|names| - 1];
      ReplaceAllCI(RestoreNames(s, names[..|names| - 1]), last, last)
  }

  /** The correction pass: each key, as a whole word in any case, becomes its replacement. */
  function ApplyCorrections(s: string, table: seq<(string, string)>): string
    decreases |table|
  {
    if table == [] then s
    else
      var last := table[|table| - 1];
      ReplaceWholeWordCI(ApplyCorrections(s, table[..|table| - 1]), last.0, last.1)
  }

  /** `normalizeText` with a given set of proper names. */
  function Normalize(names: seq<string>, text: string): string
  {
    if text == [] then [] else ApplyCorrections(RestoreNames(Trim(Lower(text)), names), Corrections)
  }

  lemma RestoreNamesSnoc(s: string, names: seq<string>, i: nat, prior: string)
    requires i < |names| && prior == RestoreNames(s, names[..i])
    ensures RestoreNames(s, names[..i + 1]) == ReplaceAllCI(prior, names[i], names[i])
  {
    assert names[..i + 1][..i] == names[..i];
  }

  lemma ApplyCorrectionsSnoc(s: string, table: seq<(string, string)>, k: nat, prior: string)
    requires k < |table| && prior == ApplyCorrections(s, table[..k])
    ensures ApplyCorrections(s, table[..k + 1]) == ReplaceWholeWordCI(prior, table[k].0, table[k].1)
  {
    assert table[..k + 1][..k] == table[..k];
  }

  /** The name pass followed by the correction pass is the whole normalisation of a non-empty text. */
  lemma NormalizeOfPasses(names: seq<string>, text: string, restored: string, r: string)
    requires text != [] && restored == RestoreNames(Trim(Lower(text)), names) && r == ApplyCorrections(restored, Corrections)
    ensures r == Normalize(names, text)
  {
  }

  /** Name restoration changes letter case only: the lower-cased text is what it was. */
  lemma {:induction false} RestoreNamesCaseOnly(s: string, names: seq<string>)
    ensures Lower(RestoreNames(s, names)) == Lower(s)
    decreases |names|
  {
    if names != [] {
      var last := names[|names| - 1];
      RestoreNamesCaseOnly(s, names[..|names| - 1]);
      ReplaceAllCICaseOnly(RestoreNames(s, names[..|names| - 1]), last, last);
    }
  }

  /** A name that does not occur leaves the text unchanged. */
  predicate NameAbsent(s: string, name: string)
  {
    name == [] || forall j :: 0 <= j <= |s| ==> !OccursCIAt(s, name, j)
  }

  lemma {:induction false} RestoreNamesAbsent(s: string, names: seq<string>)
    requires forall k :: 0 <= k < |names| ==> NameAbsent(s, names[k])
    ensures RestoreNames(s, names) == s
    decreases |names|
  {
    if names != [] {
      var last := names[|names| - 1];
      RestoreNamesAbsent(s, names[..|names| - 1]);
      if last == [] {
        ScanNoHit(s, (t, i) => LiteralCI(last, last, t, i), 0);
      } else {
        ReplaceAllCIAbsent(s, last, last);
      }
    }
  }

  /** A single word that is none of the keys passes the whole table unchanged. */
  lemma {:induction false} CorrectionsSkipWord(w: string, table: seq<(string, string)>)
    requires AllWordChars(w)
    requires forall k :: 0 <= k < |table| ==> !EqualsCI(w, table[k].0)
    ensures ApplyCorrections(w, table) == w
    decreases |table|
  {
    if table != [] {
      var last := table[|table| - 1];
      CorrectionsSkipWord(w, table[..|table| - 1]);
      WholeWordOnlyWhole(w, last.0, last.1);
    }
  }

  lemma WordHasNoSpace(w: string)
    requires AllWordChars(w)
    ensures Trim(w) == w
  {
    forall i | 0 <= i < |w| ensures !IsSpace(w[i]) {
      assert IsWordChar(w[i]);
    }
    TrimNoSpace(w);
  }

  /**
   * A word that is neither a correction key nor contains a proper name comes out
   * only lower-cased.
   */
  lemma PlainWordOnlyLowered(names: seq<string>, w: string)
    requires w != [] && AllWordChars(w)
    requires forall k :: 0 <= k < |names| ==> NameAbsent(Lower(w), names[k])
    requires forall k :: 0 <= k < |Corrections| ==> !EqualsCI(w, Corrections[k].0)
    ensures Normalize(names, w) == Lower(w)
  {
    var s := Lower(w);
    assert AllWordChars(s);
    WordHasNoSpace(s);
    RestoreNamesAbsent(s, names);
    LoweredNotKey(w, Corrections);
    CorrectionsSkipWord(s, Corrections);
    NormalizeOfPasses(names, w, s, s);
  }

  /** Lower-casing does not turn a word that matches no key into one that does. */
  lemma LoweredNotKey(w: string, table: seq<(string, string)>)
    requires forall k :: 0 <= k < |table| ==> !EqualsCI(w, table[k].0)
    ensures forall k :: 0 <= k < |table| ==> !EqualsCI(Lower(w), table[k].0)
  {
    LowerIdempotent(w);
  }

  /** Replacement words are not keys themselves, so a corrected word is never corrected again. */
  lemma {:induction false} CorrectionsDoNotCascade()
    ensures forall i :: 0 <= i < |Corrections| ==>
      ApplyCorrections(Corrections[i].1, Corrections) == Corrections[i].1
  {
    TableLower();
    ValuesAreNotKeys();
    forall i | 0 <= i < |Corrections|
      ensures ApplyCorrections(Corrections[i].1, Corrections) == Corrections[i].1
    {
      var v := Corrections[i].1;
      LowerOfNoUpper(v);
      forall k | 0 <= k < |Corrections| ensures !EqualsCI(v, Corrections[k].0) {
        LowerOfNoUpper(Corrections[k].0);
      }
      CorrectionsSkipWord(v, Corrections);
    }
  }

  /** Keys and replacements are lower-case words. */
  lemma TableLower()
    ensures forall k :: 0 <= k < |Corrections| ==>
      NoUpper(Corrections[k].0) && NoUpper(Corrections[k].1) && AllWordChars(Corrections[k].1)
  {
    forall k | 0 <= k < |Corrections|
      ensures NoUpper(Corrections[k].0) && NoUpper(Corrections[k].1) && AllWordChars(Corrections[k].1)
    {
      EntryLower(k);
      LettersLower(Corrections[k].0);
      LettersLower(Corrections[k].1);
    }
  }

  lemma EntryLower(k: nat)
    requires k < |Corrections|
    ensures LowerLetters(Corrections[k].0) && LowerLetters(Corrections[k].1)
  {
  }

  predicate LowerLetters(w: string) { forall i :: 0 <= i < |w| ==> IsLowerLetter(w[i]) }

  lemma LettersLower(w: string)
    requires LowerLetters(w)
    ensures NoUpper(w) && AllWordChars(w)
  {
  }

  /** No replacement is itself a key. */
  lemma ValuesAreNotKeys()
    ensures forall i, k :: 0 <= i < |Corrections| && 0 <= k < |Corrections| ==> Corrections[i].1 != Corrections[k].0
  {
  }

  /** With the default names, a title that reads "rane" in any case comes out as "Rane". */
  lemma RaneIsRestored(text: string)
    requires EqualsCI(Trim(text), "Rane")
    ensures Normalize(DefaultProperNames, text) == "Rane"
  {
    TrimLower(text);
    var t := Trim(Lower(text));
    LowerIdempotent(Trim(text));
    assert EqualsCI(t, "Rane");
    assert t != [];
    assert DefaultProperNames[..0] == [];
    ReplaceAllCIWhole(t, "Rane", "Rane");
    assert RestoreNames(t, DefaultProperNames) == "Rane";
    RaneIsNoKey();
    CorrectionsSkipWord("Rane", Corrections);
  }

  lemma RaneIsNoKey()
    ensures AllWordChars("Rane")
    ensures forall k :: 0 <= k < |Corrections| ==> !EqualsCI("Rane", Corrections[k].0)
  {
    forall k | 0 <= k < |Corrections| ensures !EqualsCI("Rane", Corrections[k].0) {
      assert Lower("Rane")[0] == 'r';
      assert Lower(Corrections[k].0)[0] != 'r';
    }
  }

  /** The stateful normaliser: a registry of proper names in insertion order. */
  class TextNormalizer {
    var properNames: seq<string>

    /** The names behave as a set: no name is registered twice. */
    predicate Valid()
      reads this
    {
      NoDuplicates(properNames)
    }

    constructor()
      ensures Valid()
      ensures properNames == DefaultProperNames
    {
      properNames := DefaultProperNames;
    }

    /** `normalizeText`: empty input gives the empty string; otherwise the three passes. */
    method NormalizeText(text: string) returns (r: string)
      ensures r == Normalize(properNames, text)
      ensures text == [] ==> r == []
    {
      if text == [] {
        return [];
      }
      var normalized := Trim(Lower(text));
      var start := normalized;
      var i := 0;
      while i < |properNames|
        invariant 0 <= i <= |properNames|
        invariant normalized == RestoreNames(start, properNames[..i])
      {
        var name := properNames[i];
        RestoreNamesSnoc(start, properNames, i, normalized);
        normalized := ReplaceAllCI(normalized, name, name);
        i := i + 1;
      }
      TakeAll(properNames);
      r := CorrectWords(normalized, Corrections);
      NormalizeOfPasses(properNames, text, normalized, r);
    }

    /** The correction loop, over any table. */
    method CorrectWords(text: string, table: seq<(string, string)>) returns (r: string)
      ensures r == ApplyCorrections(text, table)
    {
      r := text;
      var k := 0;
      while k < |table|
        invariant 0 <= k <= |table|
        invariant r == ApplyCorrections(text, table[..k])
      {
        ApplyCorrectionsSnoc(text, table, k, r);
        r := ReplaceWholeWordCI(r, table[k].0, table[k].1);
        k := k + 1;
      }
      TakeAll(table);
    }

    /** `addProperName`: a non-empty name is registered trimmed, once. */
    method AddProperName(name: string)
      requires Valid()
      modifies this
      ensures Valid()
      ensures name == [] ==> properNames == old(properNames)
      ensures name != [] && Trim(name) in old(properNames) ==> properNames == old(properNames)
      ensures name != [] && Trim(name) !in old(properNames) ==> properNames == old(properNames) + [Trim(name)]
      ensures forall n :: n in properNames <==> n in old(properNames) || (name != [] && n == Trim(name))
    {
      if name != [] {
        var t := Trim(name);
        if t !in properNames {
          properNames := properNames + [t];
        }
      }
    }
  }
}
