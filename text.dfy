/**
 * Character and string helpers shared by every module: the pieces of JavaScript's
 * String API and regular-expression classes that the planner code relies on.
 * Case mapping is ASCII only; `\s` / `trim()` use ECMAScript's WhiteSpace and
 * LineTerminator sets; `\w` is `[A-Za-z0-9_]`.
 */
module Text {

  predicate IsDigit(c: char) { '0' <= c <= '9' }

  predicate IsUpper(c: char) { 'A' <= c <= 'Z' }

  predicate IsLowerLetter(c: char) { 'a' <= c <= 'z' }

  predicate IsLetter(c: char) { IsUpper(c) || IsLowerLetter(c) }

  /** The regular-expression class `\w`. */
  predicate IsWordChar(c: char) { IsLetter(c) || IsDigit(c) || c == '_' }

  /** The regular-expression class `\s`, which is also what `trim()` removes. */
  predicate IsSpace(c: char)
  {
    c == ' ' || c == '\t' || c == '\n' || c == '\r' || c == '\U{000B}' || c == '\U{000C}'
    || c == '\U{00A0}' || c == '\U{1680}' || ('\U{2000}' <= c <= '\U{200A}')
    || c == '\U{2028}' || c == '\U{2029}' || c == '\U{202F}' || c == '\U{205F}'
    || c == '\U{3000}' || c == '\U{FEFF}'
  }

  predicate AllDigits(s: string) { forall i :: 0 <= i < |s| ==> IsDigit(s[i]) }

  predicate NoSpace(s: string) { forall i :: 0 <= i < |s| ==> !IsSpace(s[i]) }

  predicate AllSpace(s: string) { forall i :: 0 <= i < |s| ==> IsSpace(s[i]) }

  predicate NoUpper(s: string) { forall i :: 0 <= i < |s| ==> !IsUpper(s[i]) }

  function LowerChar(c: char): (r: char)
    ensures !IsUpper(r)
    ensures IsUpper(c) || r == c
  {
    if IsUpper(c) then (c as int + 32) as char else c
  }

  /** `toLowerCase()` (ASCII letters). */
  function Lower(s: string): (r: string)
    ensures |r| == |s|
    ensures forall i :: 0 <= i < |s| ==> r[i] == LowerChar(s[i])
    ensures NoUpper(r)
  {
    seq(|s|, i requires 0 <= i < |s| => LowerChar(s[i]))
  }

  lemma LowerIdempotent(s: string)
    ensures Lower(Lower(s)) == Lower(s)
  {
  }

  lemma LowerConcat(a: string, b: string)
    ensures Lower(a + b) == Lower(a) + Lower(b)
  {
  }

  lemma LowerOfNoUpper(s: string)
    requires NoUpper(s)
    ensures Lower(s) == s
  {
  }

  function TrimStart(s: string): (r: string)
    ensures |r| <= |s| && r == s[|s| - |r|..]
    ensures r == [] || !IsSpace(r[0])
    decreases |s|
  {
    if |s| > 0 && IsSpace(s[0]) then TrimStart(s[1..]) else s
  }

  function TrimEnd(s: string): (r: string)
    ensures |r| <= |s| && r == s[..|r|]
    ensures r == [] || !IsSpace(r[|r| - 1])
    decreases |s|
  {
    if |s| > 0 && IsSpace(s[|s| - 1]) then TrimEnd(s[..|s| - 1]) else s
  }

  /** `trim()`: the result has no leading or trailing white space. */
  function Trim(s: string): (r: string)
    ensures |r| <= |s|
    ensures r == [] || (!IsSpace(r[0]) && !IsSpace(r[|r| - 1]))
  {
    var t := TrimStart(s);
    var r := TrimEnd(t);
    assert r != [] ==> r[0] == t[0];
    r
  }

  lemma TrimStartNoLeading(s: string)
    requires s == [] || !IsSpace(s[0])
    ensures TrimStart(s) == s
  {
  }

  lemma TrimEndNoTrailing(s: string)
    requires s == [] || !IsSpace(s[|s| - 1])
    ensures TrimEnd(s) == s
  {
  }

  /** A trimmed string is left alone by `trim()`. */
  lemma TrimIdempotent(s: string)
    ensures Trim(Trim(s)) == Trim(s)
  {
    var t := Trim(s);
    TrimStartNoLeading(t);
    TrimEndNoTrailing(t);
  }

  lemma TrimNoSpace(s: string)
    requires NoSpace(s)
    ensures Trim(s) == s
  {
    TrimStartNoLeading(s);
    TrimEndNoTrailing(s);
  }

  /** Lower-casing never turns white space into anything else, nor anything else into white space. */
  lemma LowerCharSpace(c: char)
    ensures IsSpace(LowerChar(c)) == IsSpace(c)
  {
  }

  lemma TrimStartLower(s: string)
    ensures TrimStart(Lower(s)) == Lower(TrimStart(s))
    decreases |s|
  {
    if |s| > 0 {
      LowerCharSpace(s[0]);
      if IsSpace(s[0]) {
        assert Lower(s)[1..] == Lower(s[1..]);
        TrimStartLower(s[1..]);
      }
    }
  }

  lemma TrimEndLower(s: string)
    ensures TrimEnd(Lower(s)) == Lower(TrimEnd(s))
    decreases |s|
  {
    if |s| > 0 {
      var n, ls := |s| - 1, Lower(s);
      LowerCharSpace(s[n]);
      assert ls[n] == LowerChar(s[n]);
      if IsSpace(s[n]) {
        assert TrimEnd(ls) == TrimEnd(ls[..n]);
        assert ls[..n] == Lower(s[..n]);
        TrimEndLower(s[..n]);
        assert TrimEnd(s) == TrimEnd(s[..n]);
      } else {
        assert TrimEnd(ls) == ls;
        assert TrimEnd(s) == s;
      }
    }
  }

  /** Lower-casing and trimming commute (no white-space character is a letter). */
  lemma TrimLower(s: string)
    ensures Trim(Lower(s)) == Lower(Trim(s))
  {
    TrimStartLower(s);
    TrimEndLower(TrimStart(s));
  }

  // ---------------------------------------------------------------- digits

  function DigitValue(c: char): nat
    requires IsDigit(c)
  {
    c as int - '0' as int
  }

  function DigitChar(d: nat): (c: char)
    requires d < 10
    ensures IsDigit(c) && DigitValue(c) == d
  {
    ('0' as int + d) as char
  }

  /** `parseInt` of a string made only of decimal digits. */
  function ParseDigits(s: string): nat
    requires AllDigits(s)
    decreases |s|
  {
    if s == [] then 0 else ParseDigits(s[..|s| - 1]) * 10 + DigitValue(s[|s| - 1])
  }

  lemma ParseDigitsBound(s: string)
    requires AllDigits(s)
    ensures |s| == 1 ==> ParseDigits(s) < 10
    ensures |s| == 2 ==> ParseDigits(s) < 100
  {
    if |s| == 2 {
      assert s[..1][..0] == [];
    }
  }

  /** `n.toString()` for a natural number: decimal, no leading zero. */
  function NatToString(n: nat): (r: string)
    ensures |r| >= 1 && AllDigits(r)
    decreases n
  {
    if n < 10 then [DigitChar(n)] else NatToString(n / 10) + [DigitChar(n % 10)]
  }

  /** Printing then parsing a natural number gives it back. */
  lemma {:induction false} ParseNatToString(n: nat)
    ensures ParseDigits(NatToString(n)) == n
    decreases n
  {
    if n >= 10 {
      var s := NatToString(n);
      assert s[..|s| - 1] == NatToString(n / 10);
      ParseNatToString(n / 10);
    } else {
      var s := NatToString(n);
      assert s[..0] == [];
    }
  }

  lemma NatToStringLength(n: nat)
    ensures n < 10 ==> |NatToString(n)| == 1
    ensures 10 <= n < 100 ==> |NatToString(n)| == 2
  {
  }

  /** `n.toString().padStart(2, '0')`. */
  function Pad2(n: nat): (r: string)
    ensures AllDigits(r) && |r| >= 2
    ensures n < 100 ==> |r| == 2
  {
    NatToStringLength(n);
    if n < 10 then "0" + NatToString(n) else NatToString(n)
  }

  lemma ParsePad2(n: nat)
    ensures ParseDigits(Pad2(n)) == n
  {
    ParseNatToString(n);
    if n < 10 {
      var r := Pad2(n);
      assert r[..|r| - 1] == "0";
      assert ParseDigits("0") == 0 by { assert "0"[..0] == []; }
    }
  }

  // ---------------------------------------------------------------- substrings

  predicate IsPrefix(p: string, s: string) { |p| <= |s| && s[..|p|] == p }

  /** `s.includes(sub)`. */
  predicate Contains(s: string, sub: string)
  {
    exists i :: 0 <= i <= |s| - |sub| && IsPrefix(sub, s[i..])
  }

  /** `s.indexOf(sub)`, as an option. */
  function IndexOf(s: string, sub: string, from: nat): (r: int)
    requires from <= |s|
    ensures r == -1 || (from <= r <= |s| - |sub| && IsPrefix(sub, s[r..]))
    ensures r == -1 <==> forall i :: from <= i <= |s| - |sub| ==> !IsPrefix(sub, s[i..])
    ensures r != -1 ==> forall i :: from <= i < r ==> !IsPrefix(sub, s[i..])
    decreases |s| - from
  {
    if from + |sub| > |s| then -1
    else if IsPrefix(sub, s[from..]) then from
    else IndexOf(s, sub, from + 1)
  }

  /** `s.replace(pat, rep)` with a string pattern: only the first occurrence. */
  function ReplaceFirst(s: string, pat: string, rep: string): string
  {
    var i := IndexOf(s, pat, 0);
    if i < 0 then s else s[..i] + rep + s[i + |pat|..]
  }

  /** How many digits follow one another from position `i` (`\d*`). */
  function DigitRun(s: string, i: nat): (n: nat)
    ensures i + n <= |s| || n == 0
    ensures forall k :: i <= k < i + n ==> IsDigit(s[k])
    ensures i + n < |s| ==> !IsDigit(s[i + n])
    decreases |s| - i
  {
    if i < |s| && IsDigit(s[i]) then 1 + DigitRun(s, i + 1) else 0
  }

  /** `n` digits from position `i`. */
  predicate DigitsAt(s: string, i: nat, n: nat)
  {
    i + n <= |s| && forall k :: i <= k < i + n ==> IsDigit(s[k])
  }

  // ---------------------------------------------------------------- white space

  /** The position after the white space that starts at `i` (`\s*`). */
  function SkipSpaces(s: string, i: nat): (j: nat)
    requires i <= |s|
    ensures i <= j <= |s|
    ensures forall k :: i <= k < j ==> IsSpace(s[k])
    ensures j < |s| ==> !IsSpace(s[j])
    decreases |s| - i
  {
    if i < |s| && IsSpace(s[i]) then SkipSpaces(s, i + 1) else i
  }

  lemma WordCharNotSpace(c: char)
    requires IsWordChar(c)
    ensures !IsSpace(c)
  {
  }

  /** In text without white space there is nothing to skip. */
  lemma SkipNoSpace(s: string, i: nat)
    requires NoSpace(s) && i <= |s|
    ensures SkipSpaces(s, i) == i
  {
    if i < |s| {
      assert !IsSpace(s[i]);
    }
  }

  /** Index of the first white-space character, or |s|. */
  function FirstSpace(s: string): (i: nat)
    ensures i <= |s|
    ensures forall j :: 0 <= j < i ==> !IsSpace(s[j])
    ensures i < |s| ==> IsSpace(s[i])
    decreases |s|
  {
    if s == [] then 0 else if IsSpace(s[0]) then 0 else 1 + FirstSpace(s[1..])
  }

  /** `s.split(/\s+/)`: the pieces between maximal white-space runs. */
  function SplitWs(s: string): (r: seq<string>)
    ensures |r| >= 1
    decreases |s|
  {
    var i := FirstSpace(s);
    if i == |s| then [s] else [s[..i]] + SplitWs(TrimStart(s[i + 1..]))
  }

  /** `parts.join(sep)`. */
  function Join(parts: seq<string>, sep: string): string
  {
    if parts == [] then [] else if |parts| == 1 then parts[0] else parts[0] + sep + Join(parts[1..], sep)
  }

  /** `s.replace(/\s+/g, ' ')`: every white-space run becomes one space. */
  function CollapseWs(s: string): (r: string)
    ensures |r| <= |s|
    ensures s == [] <==> r == []
    ensures s != [] ==> (IsSpace(s[0]) <==> r[0] == ' ')
    ensures s != [] ==> (!IsSpace(s[0]) ==> r[0] == s[0])
    decreases |s|
  {
    if s == [] then []
    else if IsSpace(s[0]) then " " + CollapseWs(TrimStart(s[1..]))
    else [s[0]] + CollapseWs(s[1..])
  }

  /** Text without white space is left alone by collapsing. */
  lemma {:induction false} CollapseNoSpace(s: string)
    requires NoSpace(s)
    ensures CollapseWs(s) == s
    decreases |s|
  {
    if s != [] {
      CollapseNoSpace(s[1..]);
    }
  }

  /** Two runs without white space joined by one space are left alone by collapsing. */
  lemma {:induction false} CollapseOneSpace(a: string, b: string)
    requires NoSpace(a) && NoSpace(b)
    ensures CollapseWs(a + " " + b) == a + " " + b
    decreases |a|
  {
    var s := a + " " + b;
    if a == [] {
      assert s[1..] == b;
      TrimStartNoLeading(b);
      CollapseNoSpace(b);
    } else {
      var t := a[1..] + " " + b;
      assert s == [a[0]] + t;
      assert NoSpace(a[1..]) by {
        forall k | 0 <= k < |a[1..]| ensures !IsSpace(a[1..][k]) { assert a[1..][k] == a[k + 1]; }
      }
      CollapseOneSpace(a[1..], b);
      CollapseCons(a[0], t);
    }
  }

  /** Text whose only white space is one ' ' at position `k` is left alone by collapsing. */
  lemma CollapseSpaceAt(s: string, k: nat)
    requires k < |s| && s[k] == ' ' && NoSpace(s[..k]) && NoSpace(s[k + 1..])
    ensures CollapseWs(s) == s
  {
    assert s == s[..k] + " " + s[k + 1..];
    CollapseOneSpace(s[..k], s[k + 1..]);
  }

  /** A character that is not white space is kept in front of the collapsed rest. */
  lemma CollapseCons(c: char, t: string)
    requires !IsSpace(c)
    ensures CollapseWs([c] + t) == [c] + CollapseWs(t)
  {
    assert ([c] + t)[1..] == t;
  }

  /** Collapsing only ever adds ' ', so any property of characters that ' ' has survives it. */
  lemma {:induction false} CollapseKeeps(s: string, p: char -> bool)
    requires p(' ') && forall c :: c in s ==> p(c)
    ensures forall c :: c in CollapseWs(s) ==> p(c)
    decreases |s|
  {
    if s != [] {
      if IsSpace(s[0]) {
        var t := TrimStart(s[1..]);
        assert forall c :: c in t ==> c in s[1..];
        CollapseKeeps(t, p);
      } else {
        CollapseKeeps(s[1..], p);
      }
    }
  }
}
