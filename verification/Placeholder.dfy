/** Placeholders `{{LABEL_xxxxxx}}` and how they are recognised in a text.
    A text is a `string` in which one `char` stands for one byte. */
module Placeholder {
  import opened Collections

  const MIN_TOKEN := 12
  const MAX_TOKEN := 23

  predicate IsLabelChar(c: char) {
    'A' <= c <= 'Z' || '0' <= c <= '9'
  }

  /** One of the 20 letters bcdfghjklmnpqrstvwxz. */
  predicate IsConsonant(c: char) {
    'b' <= c <= 'z' && c != 'e' && c != 'i' && c != 'o' && c != 'u' && c != 'y'
  }

  predicate IsSuffix(s: string) {
    |s| == 6 && forall i | 0 <= i < 6 :: IsConsonant(s[i])
  }

  type Suffix = s: string | IsSuffix(s) witness "bbbbbb"

  /** The whole of `t` matches the placeholder pattern: 1-12 label characters, `_`, 6 consonants. */
  predicate IsToken(t: string) {
    && MIN_TOKEN <= |t| <= MAX_TOKEN
    && t[0] == '{' && t[1] == '{'
    && (forall i | 2 <= i < |t| - 9 :: IsLabelChar(t[i]))
    && t[|t| - 9] == '_'
    && (forall i | |t| - 8 <= i < |t| - 2 :: IsConsonant(t[i]))
    && t[|t| - 2] == '}' && t[|t| - 1] == '}'
  }

  /** Length of the run of label characters at offset `at`, capped at `left`. */
  function LabelRun(s: string, at: nat, left: nat): (r: nat)
    requires at <= |s|
    ensures r <= left && at + r <= |s|
    decreases left
  {
    if left > 0 && at < |s| && IsLabelChar(s[at]) then 1 + LabelRun(s, at + 1, left - 1) else 0
  }

  /** `left` consonants follow at offset `at`. */
  predicate ConsonantRun(s: string, at: nat, left: nat)
    requires at + left <= |s|
    decreases left
  {
    left == 0 || (IsConsonant(s[at]) && ConsonantRun(s, at + 1, left - 1))
  }

  /** The anchored recogniser: length of the placeholder `s` starts with, 0 when it starts with none. */
  function TokenLen(s: string): (n: nat)
    ensures n != 0 ==> MIN_TOKEN <= n <= MAX_TOKEN && n <= |s| && s[0] == s[1] == '{'
  {
    if |s| < MIN_TOKEN || s[0] != '{' || s[1] != '{' then 0
    else
      var k := LabelRun(s, 2, 12);
      if k >= 1 && k + 11 <= |s| && s[2 + k] == '_' && ConsonantRun(s, 3 + k, 6)
         && s[9 + k] == '}' && s[10 + k] == '}'
      then k + 11
      else 0
  }

  lemma {:induction false} LabelRunIs(s: string, at: nat, left: nat)
    requires at <= |s|
    ensures var r := LabelRun(s, at, left);
            && (forall i | at <= i < at + r :: IsLabelChar(s[i]))
            && (r < left && at + r < |s| ==> !IsLabelChar(s[at + r]))
    decreases left
  {
    if left > 0 && at < |s| && IsLabelChar(s[at]) {
      LabelRunIs(s, at + 1, left - 1);
    }
  }

  lemma {:induction false} ConsonantRunIs(s: string, at: nat, left: nat)
    requires at + left <= |s|
    ensures ConsonantRun(s, at, left) <==> forall i | at <= i < at + left :: IsConsonant(s[i])
    decreases left
  {
    if left > 0 {
      ConsonantRunIs(s, at + 1, left - 1);
    }
  }

  /** The recogniser is exact: it answers the one length at which a placeholder ends. */
  lemma TokenLenExact(s: string)
    ensures TokenLen(s) != 0 ==> IsToken(s[..TokenLen(s)])
    ensures forall k: nat | k <= |s| && IsToken(s[..k]) :: k == TokenLen(s)
  {
    if TokenLen(s) != 0 {
      TokenLenSound(s);
    }
    forall k: nat | k <= |s| && IsToken(s[..k]) ensures k == TokenLen(s) {
      TokenLenComplete(s, k);
    }
  }

  lemma TokenLenSound(s: string)
    requires TokenLen(s) != 0
    ensures IsToken(s[..TokenLen(s)])
  {
    var n := TokenLen(s);
    var t := s[..n];
    LabelRunIs(s, 2, 12);
    ConsonantRunIs(s, n - 8, 6);
    assert forall i | 0 <= i < n :: t[i] == s[i];
  }

  lemma TokenLenComplete(s: string, n: nat)
    requires n <= |s| && IsToken(s[..n])
    ensures TokenLen(s) == n
  {
    var t := s[..n];
    assert forall i | 0 <= i < n :: s[i] == t[i];
    LabelRunIs(s, 2, 12);
    assert LabelRun(s, 2, 12) == n - 11 by {
      assert s[n - 9] == '_';
      assert forall i | 2 <= i < n - 9 :: IsLabelChar(s[i]);
    }
    ConsonantRunIs(s, n - 8, 6);
  }

  /** The braces of the placeholder a text starts with: two opening ones first, two closing ones last, none between. */
  lemma TokenBraces(s: string)
    ensures var n := TokenLen(s);
            n != 0 ==>
              && MIN_TOKEN <= n <= MAX_TOKEN && n <= |s|
              && s[0] == s[1] == '{' && s[n - 2] == s[n - 1] == '}'
              && forall i | 2 <= i < n - 2 :: s[i] != '{' && s[i] != '}'
  {
    TokenLenExact(s);
    var n := TokenLen(s);
    var t := s[..n];
    assert forall i | 0 <= i < n :: s[i] == t[i];
  }

  /** Two placeholders never overlap: where one starts, no other starts before it ends,
      because `{` occurs only in its first two bytes. */
  lemma NoOverlap(s: string, i: nat, j: nat)
    requires i < j <= |s| && TokenLen(s[i..]) > j - i
    ensures TokenLen(s[j..]) == 0
  {
    TokenBraces(s[i..]);
    TokenBraces(s[j..]);
    assert s[i..][j - i] == s[j];
    assert s[i..][j - i..] == s[j..];
  }

  /** Recognition looks only at the placeholder's own bytes. */
  lemma TokenLenPrefix(a: string, b: string)
    ensures TokenLen(a + b) <= |a| ==> TokenLen(a) == TokenLen(a + b)
    ensures TokenLen(a) != 0 ==> TokenLen(a + b) == TokenLen(a)
  {
    TokenLenExact(a);
    TokenLenExact(a + b);
    var n := TokenLen(a + b);
    if n <= |a| {
      assert (a + b)[..n] == a[..n];
    }
    var k := TokenLen(a);
    assert (a + b)[..k] == a[..k];
  }

  predicate OpensAt(s: string, i: nat) {
    i + 1 < |s| && s[i] == s[i + 1] == '{'
  }

  /** A placeholder cannot start before a "{{" and reach into it. */
  lemma NoStraddleIntoOpen(s: string, idx: nat, i: nat)
    requires OpensAt(s, idx) && i < idx
    ensures TokenLen(s[i..]) <= idx - i
  {
    TokenBraces(s[i..]);
    assert s[i..][idx - i] == s[idx] && s[i..][idx + 1 - i] == s[idx + 1];
  }

  // ---- minting ----

  function UpperAscii(c: char): char {
    if 'a' <= c <= 'z' then c - 'a' + 'A' else c
  }

  /** Upper-cased label characters of `tag`, everything else stripped. */
  function LabelChars(tag: string): (r: string)
    ensures |r| <= |tag|
    ensures forall i | 0 <= i < |r| :: IsLabelChar(r[i])
  {
    if tag == "" then ""
    else
      var c := UpperAscii(tag[0]);
      (if IsLabelChar(c) then [c] else "") + LabelChars(tag[1..])
  }

  function SafeLabel(tag: string): (r: string)
    ensures 1 <= |r| <= 12
    ensures forall i | 0 <= i < |r| :: IsLabelChar(r[i])
  {
    var s := LabelChars(tag);
    var cut := if |s| > 12 then s[..12] else s;
    if cut == "" then "TERM" else cut
  }

  /** Whatever the label, the minted token is one the recogniser accepts whole. */
  function NewToken(tag: string, suffix: Suffix): (t: string)
    ensures IsToken(t)
  {
    var t := "{{" + SafeLabel(tag) + "_" + suffix + "}}";
    assert IsToken(t) by {
      var k := |SafeLabel(tag)|;
      assert forall i | 0 <= i < k :: t[2 + i] == SafeLabel(tag)[i];
      assert forall i | 0 <= i < 6 :: t[3 + k + i] == suffix[i];
      assert forall i | 2 <= i < |t| - 9 :: t[i] == SafeLabel(tag)[i - 2];
      assert forall i | |t| - 8 <= i < |t| - 2 :: t[i] == suffix[i - |t| + 8];
    }
    t
  }

  function InLabel(): char -> bool {
    (c: char) => IsLabelChar(UpperAscii(c))
  }

  /** The label keeps its letters and digits, upper-cased and in their order. */
  lemma {:induction false} LabelCharsAre(tag: string) returns (kept: string)
    ensures Sifted(tag, InLabel(), kept)
    ensures |LabelChars(tag)| == |kept| && forall i | 0 <= i < |kept| :: LabelChars(tag)[i] == UpperAscii(kept[i])
    decreases |tag|
  {
    hide Sifted;
    if tag == "" {
      SiftedEmpty(InLabel());
      kept := "";
    } else {
      var rest := LabelCharsAre(tag[1..]);
      SiftedCons(tag[0], tag[1..], InLabel(), rest);
      assert tag == [tag[0]] + tag[1..];
      kept := if IsLabelChar(UpperAscii(tag[0])) then [tag[0]] + rest else rest;
    }
  }

  /** A clean label of at most twelve characters survives as it is, and tokens differ whenever their suffixes do. */
  lemma CleanLabelSurvives(tag: string, suffix: Suffix, other: Suffix)
    requires 1 <= |tag| <= 12 && forall i | 0 <= i < |tag| :: IsLabelChar(tag[i])
    ensures NewToken(tag, suffix) == "{{" + tag + "_" + suffix + "}}"
    ensures NewToken(tag, suffix) == NewToken(tag, other) ==> suffix == other
  {
    CleanLabelChars(tag);
    var a, b := "{{" + tag + "_" + suffix + "}}", "{{" + tag + "_" + other + "}}";
    assert a[|tag| + 3..|tag| + 9] == suffix && b[|tag| + 3..|tag| + 9] == other;
  }

  lemma {:induction false} CleanLabelChars(tag: string)
    requires forall i | 0 <= i < |tag| :: IsLabelChar(tag[i])
    ensures LabelChars(tag) == tag
  {
    if tag != "" {
      CleanLabelChars(tag[1..]);
    }
  }

  /** A longer label is cut to its first twelve letters and digits, and one without any becomes "TERM". */
  lemma OtherLabels(tag: string)
    ensures LabelChars(tag) == "" ==> SafeLabel(tag) == "TERM"
    ensures LabelChars(tag) != "" ==> SafeLabel(tag) <= LabelChars(tag)
    ensures LabelChars(tag) != "" ==> |SafeLabel(tag)| == |LabelChars(tag)| || (|SafeLabel(tag)| == 12 && |LabelChars(tag)| > 12)
  {
  }

  /** The letters of the pattern, one by one. */
  lemma Alphabets(c: char)
    ensures IsConsonant(c) <==> c in "bcdfghjklmnpqrstvwxz"
    ensures IsLabelChar(c) <==> c in "ABCDEFGHIJKLMNOPQRSTUVWXYZ0123456789"
  {
    assert forall i | 0 <= i < 20 :: IsConsonant("bcdfghjklmnpqrstvwxz"[i]);
    assert forall i | 0 <= i < 36 :: IsLabelChar("ABCDEFGHIJKLMNOPQRSTUVWXYZ0123456789"[i]);
  }
}
