/** Terms matched between word boundaries: exactly when a rule makes one visible in literal text. */
module MaskWords {
  import opened Restore
  import opened MaskSession
  import opened MaskDocument
  import opened MaskRules
  import opened MaskEngine

  // ---- what a rule cuts out of a literal ----

  datatype Cut = Cut(start: nat, end: nat)

  predicate ValidCuts(cuts: seq<Cut>, from: nat, n: nat)
    decreases |cuts|
  {
    if cuts == [] then from <= n
    else from <= cuts[0].start < cuts[0].end <= n && ValidCuts(cuts[1..], cuts[0].end, n)
  }

  /** The ranges of the listed captures. */
  function Cuts(seg: string, locs: seq<Loc>, from: nat, group: nat, listed: set<string>): (cuts: seq<Cut>)
    requires ValidLocs(locs, from, |seg|) && "" !in listed
    ensures ValidCuts(cuts, from, |seg|)
    decreases |locs|
  {
    if locs == [] then []
    else
      var l := locs[0];
      var rest := Cuts(seg, locs[1..], l.end, group, listed);
      if Capture(seg, l, group) !in listed then
        EarlierCuts(rest, l.end, from, |seg|);
        rest
      else
        var c := if group == 0 then Cut(l.start, l.end) else Cut(l.gs, l.ge);
        assert seg[c.start..c.end] == Capture(seg, l, group) != "";
        EarlierCuts(rest, l.end, c.end, |seg|);
        assert ([c] + rest)[1..] == rest;
        [c] + rest
  }

  lemma EarlierCuts(cuts: seq<Cut>, from: nat, earlier: nat, n: nat)
    requires earlier <= from && ValidCuts(cuts, from, n)
    ensures ValidCuts(cuts, earlier, n)
  {
  }

  /** What is left of a literal from an offset on. */
  function Pieces(s: string, from: nat, cuts: seq<Cut>): (r: seq<string>)
    requires ValidCuts(cuts, from, |s|)
    ensures r != []
    decreases |cuts|
  {
    if cuts == [] then [s[from..]] else [s[from..cuts[0].start]] + Pieces(s, cuts[0].end, cuts[1..])
  }

  lemma PiecesEarlier(s: string, from: nat, to: nat, cuts: seq<Cut>)
    requires from <= to && ValidCuts(cuts, to, |s|)
    ensures ValidCuts(cuts, from, |s|)
    ensures var p := Pieces(s, to, cuts); Pieces(s, from, cuts) == [s[from..to] + p[0]] + p[1..]
  {
    if cuts == [] {
      assert s[from..to] + s[to..] == s[from..];
    } else {
      assert s[from..to] + s[to..cuts[0].start] == s[from..cuts[0].start];
    }
  }

  lemma SkipLits(seg: string, from: nat, to: nat, d: Doc)
    requires from <= to <= |seg|
    ensures DocLits(SkipMatch(seg, from, to, d)) == [seg[from..to] + DocLits(d)[0]] + DocLits(d)[1..]
  {
  }

  /** The literals of a rewritten segment are the pieces between the cuts. */
  lemma {:induction false} LitsArePieces(seg: string, locs: seq<Loc>, from: nat, group: nat, repl: Repl)
    requires ValidLocs(locs, from, |seg|)
    ensures DocLits(SubLocs(seg, locs, from, group, repl)) == Pieces(seg, from, Cuts(seg, locs, from, group, repl.Keys))
    decreases |locs|
  {
    if locs != [] {
      var l := locs[0];
      var rest, cuts := SubLocs(seg, locs[1..], l.end, group, repl), Cuts(seg, locs[1..], l.end, group, repl.Keys);
      LitsArePieces(seg, locs[1..], l.end, group, repl);
      if Capture(seg, l, group) !in repl {
        SkipLits(seg, from, l.end, rest);
        PiecesEarlier(seg, from, l.end, cuts);
      } else {
        var c := if group == 0 then Cut(l.start, l.end) else Cut(l.gs, l.ge);
        SkipLits(seg, c.end, l.end, rest);
        PiecesEarlier(seg, c.end, l.end, cuts);
        assert ([c] + cuts)[1..] == cuts;
      }
    }
  }

  // ---- where a term stands once the cuts are out ----

  /** A position that is cut out, or lies before the part looked at. */
  predicate Taken(from: nat, cuts: seq<Cut>, q: int) {
    q < from || exists c | c in cuts :: c.start <= q < c.end
  }

  /** The term stands at p untouched, and each word character beside an ASCII word is cut out. */
  ghost predicate Stands(s: string, v: string, from: nat, cuts: seq<Cut>, p: nat) {
    && TextAt(s, v, p)
    && (forall q | p <= q < p + |v| :: !Taken(from, cuts, q))
    && (IsAsciiWord(v) ==>
          && (WordAt(s, p - 1) ==> Taken(from, cuts, p - 1))
          && (WordAt(s, p + |v|) ==> Taken(from, cuts, p + |v|)))
  }

  lemma {:induction false} CutsBounded(cuts: seq<Cut>, from: nat, n: nat)
    requires ValidCuts(cuts, from, n)
    ensures forall c | c in cuts :: from <= c.start < c.end <= n
    decreases |cuts|
  {
    if cuts != [] {
      CutsBounded(cuts[1..], cuts[0].end, n);
      assert cuts == [cuts[0]] + cuts[1..];
    }
  }

  function FirstEnd(s: string, cuts: seq<Cut>): nat {
    if cuts == [] then |s| else cuts[0].start
  }

  lemma TakenFirst(s: string, from: nat, cuts: seq<Cut>)
    requires ValidCuts(cuts, from, |s|)
    ensures from <= FirstEnd(s, cuts) <= |s|
    ensures forall q | from <= q < FirstEnd(s, cuts) :: !Taken(from, cuts, q)
    ensures FirstEnd(s, cuts) < |s| ==> Taken(from, cuts, FirstEnd(s, cuts))
  {
    CutsBounded(cuts, from, |s|);
    if cuts != [] {
      CutsBounded(cuts[1..], cuts[0].end, |s|);
      assert cuts == [cuts[0]] + cuts[1..];
    }
  }

  lemma TakenLater(s: string, from: nat, cuts: seq<Cut>, q: int)
    requires ValidCuts(cuts, from, |s|) && cuts != [] && q >= cuts[0].start
    ensures Taken(from, cuts, q) <==> Taken(cuts[0].end, cuts[1..], q)
  {
    CutsBounded(cuts[1..], cuts[0].end, |s|);
    assert cuts == [cuts[0]] + cuts[1..];
  }

  lemma TextOfSlice(s: string, v: string, from: nat, to: nat, i: nat)
    requires from <= to <= |s|
    ensures TextAt(s[from..to], v, i) <==> TextAt(s, v, from + i) && from + i + |v| <= to
  {
    if i + |v| <= to - from {
      SliceOfSlice(s, from, to, i, i + |v|);
    }
  }

  /** In the first piece the term's rule matches exactly where the term stands. */
  lemma FirstPiece(s: string, v: string, from: nat, cuts: seq<Cut>, i: nat)
    requires v != "" && ValidCuts(cuts, from, |s|) && FirstEnd(s, cuts) >= from
    requires FirstEnd(s, cuts) <= |s|
    ensures TermAt(s[from..FirstEnd(s, cuts)], v, i)
       <==> Stands(s, v, from, cuts, from + i) && from + i + |v| <= FirstEnd(s, cuts)
  {
    var to := FirstEnd(s, cuts);
    var x := s[from..to];
    TakenFirst(s, from, cuts);
    TextOfSlice(s, v, from, to, i);
    hide Taken, ValidCuts, FirstEnd, IsAsciiWord;
    if TextAt(x, v, i) {
      assert WordAt(x, i - 1) <==> i > 0 && WordAt(s, from + i - 1);
      assert WordAt(x, i + |v|) <==> from + i + |v| < to && WordAt(s, from + i + |v|);
      assert i == 0 ==> Taken(from, cuts, from - 1) by { TakenBefore(from, cuts); }
    }
  }

  lemma TakenBefore(from: nat, cuts: seq<Cut>)
    ensures Taken(from, cuts, from - 1)
  {
  }

  lemma StandsLater(s: string, v: string, from: nat, cuts: seq<Cut>, p: nat)
    requires v != "" && ValidCuts(cuts, from, |s|) && cuts != [] && p >= cuts[0].end
    ensures Stands(s, v, from, cuts, p) <==> Stands(s, v, cuts[0].end, cuts[1..], p)
  {
    forall q | q >= cuts[0].start ensures Taken(from, cuts, q) <==> Taken(cuts[0].end, cuts[1..], q) {
      TakenLater(s, from, cuts, q);
    }
    hide Taken, IsAsciiWord, TextAt;
  }

  /** A standing term lies before the first cut or behind it. */
  lemma StandsApart(s: string, v: string, from: nat, cuts: seq<Cut>, p: nat)
    requires v != "" && ValidCuts(cuts, from, |s|) && Stands(s, v, from, cuts, p)
    ensures from <= p
    ensures p + |v| <= FirstEnd(s, cuts) || (cuts != [] && p >= cuts[0].end)
  {
    assert !Taken(from, cuts, p);
    TakenFirst(s, from, cuts);
    if cuts != [] {
      assert cuts[0] in cuts;
    }
  }

  /** Some piece shows the term exactly when it stands somewhere. */
  lemma {:induction false} PiecesShowIff(s: string, v: string, from: nat, cuts: seq<Cut>)
    requires v != "" && ValidCuts(cuts, from, |s|)
    ensures (exists x :: x in Pieces(s, from, cuts) && Found(x, v)) <==> exists p: nat :: Stands(s, v, from, cuts, p)
    decreases |cuts|
  {
    TakenFirst(s, from, cuts);
    var first := s[from..FirstEnd(s, cuts)];
    forall i: nat
      ensures TermAt(first, v, i) <==> Stands(s, v, from, cuts, from + i) && from + i + |v| <= FirstEnd(s, cuts)
    {
      FirstPiece(s, v, from, cuts, i);
    }
    hide Stands, TermAt;
    forall p: nat | Stands(s, v, from, cuts, p)
      ensures from <= p && (p + |v| <= FirstEnd(s, cuts) || (cuts != [] && p >= cuts[0].end))
    {
      StandsApart(s, v, from, cuts, p);
    }
    FirstShowsIff(s, v, from, cuts);
    if cuts == [] {
      assert s[from..|s|] == s[from..];
      assert Pieces(s, from, cuts) == [first];
    } else {
      PiecesShowIff(s, v, cuts[0].end, cuts[1..]);
      forall p: nat | p >= cuts[0].end ensures Stands(s, v, from, cuts, p) <==> Stands(s, v, cuts[0].end, cuts[1..], p) {
        StandsLater(s, v, from, cuts, p);
      }
      forall p: nat | Stands(s, v, cuts[0].end, cuts[1..], p) ensures p >= cuts[0].end {
        StandsApart(s, v, cuts[0].end, cuts[1..], p);
      }
      assert Pieces(s, from, cuts) == [first] + Pieces(s, cuts[0].end, cuts[1..]);
    }
  }

  lemma FirstShowsIff(s: string, v: string, from: nat, cuts: seq<Cut>)
    requires from <= FirstEnd(s, cuts) <= |s|
    requires forall i: nat :: TermAt(s[from..FirstEnd(s, cuts)], v, i)
               <==> Stands(s, v, from, cuts, from + i) && from + i + |v| <= FirstEnd(s, cuts)
    requires forall p: nat | Stands(s, v, from, cuts, p) :: from <= p
    ensures Found(s[from..FirstEnd(s, cuts)], v) <==> exists p: nat :: Stands(s, v, from, cuts, p) && p + |v| <= FirstEnd(s, cuts)
  {
    var first := s[from..FirstEnd(s, cuts)];
    hide Stands, FirstEnd;
    if exists p: nat :: Stands(s, v, from, cuts, p) && p + |v| <= FirstEnd(s, cuts) {
      var p: nat :| Stands(s, v, from, cuts, p) && p + |v| <= FirstEnd(s, cuts);
      assert TermAt(first, v, p - from);
    }
    if Found(first, v) {
      var i: nat :| i <= |first| && TermAt(first, v, i);
      assert Stands(s, v, from, cuts, from + i);
    }
  }

  // ---- one rule ----

  function CutsOf(s: string, rule: Rule, listed: set<string>): (cuts: seq<Cut>)
    requires GoodRule(rule) && "" !in listed
    ensures ValidCuts(cuts, 0, |s|)
  {
    Cuts(s, rule.find(s), 0, rule.group, listed)
  }

  /** A rewritten literal shows the term exactly when the term stands somewhere once the cuts are out. */
  lemma SegmentShowsIff(s: string, rule: Rule, repl: Repl, v: string)
    requires GoodRule(rule) && v != ""
    ensures (exists x :: x in DocLits(SubSegment(s, rule, repl)) && Found(x, v))
       <==> exists p: nat :: Stands(s, v, 0, CutsOf(s, rule, repl.Keys), p)
  {
    hide Stands, Found, Cuts, SubLocs, Pieces;
    if s == "" {
      EmptyShowsNothing(v, CutsOf(s, rule, repl.Keys));
    } else {
      LitsArePieces(s, rule.find(s), 0, rule.group, repl);
      PiecesShowIff(s, v, 0, CutsOf(s, rule, repl.Keys));
    }
  }

  lemma EmptyShowsNothing(v: string, cuts: seq<Cut>)
    requires v != ""
    ensures !Found("", v) && forall p: nat :: !Stands("", v, 0, cuts, p)
  {
  }

  /** Some literal of the document holds the term where the cuts leave it standing. */
  ghost predicate Shows(d: Doc, rule: Rule, listed: set<string>, v: string)
    requires GoodRule(rule) && "" !in listed
  {
    exists l, p: nat :: l in DocLits(d) && Stands(l, v, 0, CutsOf(l, rule, listed), p)
  }

  lemma {:induction false} SubDocShowsIff(d: Doc, rule: Rule, repl: Repl, v: string)
    requires GoodRule(rule) && v != ""
    ensures Unfound(SubDoc(d, rule, repl), v) <==> !Shows(d, rule, repl.Keys, v)
  {
    var sub := SubSegment(d.lit, rule, repl);
    SegmentShowsIff(d.lit, rule, repl, v);
    hide Stands, Found, CutsOf, SubSegment, GoodRule;
    if d.Node? {
      SubDocShowsIff(d.rest, rule, repl, v);
      ChainLits(sub, d.tok, SubDoc(d.rest, rule, repl));
      assert DocLits(d) == [d.lit] + DocLits(d.rest);
    } else {
      assert DocLits(d) == [d.lit];
    }
  }

  function Listed(text: string, rule: Rule): (listed: set<string>)
    requires GoodRule(rule)
    ensures "" !in listed
  {
    set o | o in RuleOrigs(text, rule) && o != ""
  }

  /** Before the rule runs: its cuts will leave the term standing in some literal of the text. */
  ghost predicate Uncovers(text: string, rule: Rule, v: string)
    requires GoodRule(rule)
  {
    Shows(Parse(text), rule, Listed(text, rule), v)
  }

  /** After a rule the term is matched in no literal exactly when the rule does not uncover it. */
  lemma RuleShowsIff(m: Masking, rule: Rule, draws: Draws, v: string)
    requires GoodRule(rule) && WellFormed(m.table) && v != ""
    ensures Unfound(Parse(RuleSpec(m, rule, draws).text), v) <==> !Uncovers(m.text, rule, v)
  {
    hide RuleSpec, WellFormed, Grows, Unfound, Shows, SubDoc, Parse, RuleOrigs, TokenFree;
    var repl := RuleShape(m, rule, draws);
    RuleOrigsTokenFree(m.text, rule);
    SubDocShowsIff(Parse(m.text), rule, repl, v);
    assert repl.Keys == Listed(m.text, rule);
  }

  /** A rule uncovers a covered term only by cutting out a word character right beside an ASCII word. */
  lemma UncoversBesideCut(l: string, v: string, cuts: seq<Cut>, p: nat)
    requires !Found(l, v) && Stands(l, v, 0, cuts, p)
    ensures IsAsciiWord(v)
    ensures (WordAt(l, p - 1) && Taken(0, cuts, p - 1)) || (WordAt(l, p + |v|) && Taken(0, cuts, p + |v|))
  {
    hide IsAsciiWord, Taken;
    assert !TermAt(l, v, p);
  }

  // ---- whole runs ----

  lemma {:induction false} RunRulesSnoc(m: Masking, rules: seq<Rule>, rule: Rule, draws: Draws)
    requires GoodRules(rules) && GoodRule(rule)
    ensures GoodRules(rules + [rule])
    ensures var b := RunRules(m, rules, draws);
            RunRules(m, rules + [rule], draws) == if rule.mayHit(b.text) then RuleSpec(b, rule, draws) else b
    decreases |rules|
  {
    hide RuleSpec, GoodRule;
    var all := rules + [rule];
    if rules == [] {
      assert all == [rule] && all[1..] == [];
    } else {
      assert all[0] == rules[0] && all[1..] == rules[1..] + [rule];
      RunRulesSnoc(if rules[0].mayHit(m.text) then RuleSpec(m, rules[0], draws) else m, rules[1..], rule, draws);
    }
  }

  lemma PrefixIsGood(rules: seq<Rule>, n: nat)
    requires GoodRules(rules) && n <= |rules|
    ensures GoodRules(rules[..n])
  {
    hide GoodRule;
  }

  /** The text that rule i finds. */
  ghost function TextBefore(m: Masking, rules: seq<Rule>, draws: Draws, i: nat): string
    requires GoodRules(rules) && i <= |rules|
  {
    PrefixIsGood(rules, i);
    RunRules(m, rules[..i], draws).text
  }

  /** The last rule that ran uncovers the term; with none, it was there from the start. */
  ghost predicate RunUncovers(m: Masking, rules: seq<Rule>, draws: Draws, v: string)
    requires GoodRules(rules)
    decreases |rules|
  {
    if rules == [] then !Unfound(Parse(m.text), v)
    else
      var n := |rules| - 1;
      PrefixIsGood(rules, n);
      var before := TextBefore(m, rules, draws, n);
      if rules[n].mayHit(before) then Uncovers(before, rules[n], v) else RunUncovers(m, rules[..n], draws, v)
  }

  /** After a whole run the term is matched in no literal exactly when the last rule that ran does not uncover it. */
  lemma {:induction false} RunShowsIff(m: Masking, rules: seq<Rule>, draws: Draws, v: string)
    requires GoodRules(rules) && WellFormed(m.table) && v != ""
    ensures Unfound(Parse(RunRules(m, rules, draws).text), v) <==> !RunUncovers(m, rules, draws, v)
    decreases |rules|
  {
    hide RuleSpec, WellFormed, Unfound, Parse, Uncovers, RunRules, Grows;
    if rules == [] {
      RunNothing(m, draws);
    } else {
      var n := |rules| - 1;
      PrefixIsGood(rules, n);
      var before := RunRules(m, rules[..n], draws);
      assert rules[..n] + [rules[n]] == rules;
      RunRulesSnoc(m, rules[..n], rules[n], draws);
      RunRestores(m, rules[..n], draws);
      RunShowsIff(m, rules[..n], draws, v);
      if rules[n].mayHit(before.text) {
        RuleShowsIff(before, rules[n], draws, v);
      }
    }
  }

  lemma RunNothing(m: Masking, draws: Draws)
    ensures RunRules(m, [], draws) == m
  {
  }

  /** A term whose own rule ran is matched in no literal at the end when no rule after it uncovers the term. */
  lemma {:induction false} StaysCovered(m: Masking, rules: seq<Rule>, own: nat, k: nat, draws: Draws, v: string)
    requires GoodRules(rules) && WellFormed(m.table) && v != ""
    requires own < k <= |rules| && rules[own] == TermRule(v)
    requires forall i | own < i < |rules| ::
               rules[i].mayHit(TextBefore(m, rules, draws, i)) ==> !Uncovers(TextBefore(m, rules, draws, i), rules[i], v)
    ensures GoodRules(rules[..k]) && Unfound(Parse(RunRules(m, rules[..k], draws).text), v)
  {
    hide RuleSpec, WellFormed, Unfound, Parse, Uncovers, RunRules, Grows;
    var n := k - 1;
    PrefixIsGood(rules, n);
    PrefixIsGood(rules, k);
    var before := RunRules(m, rules[..n], draws);
    assert rules[..n] + [rules[n]] == rules[..k];
    RunRulesSnoc(m, rules[..n], rules[n], draws);
    RunRestores(m, rules[..n], draws);
    assert before.text == TextBefore(m, rules, draws, n);
    if n == own {
      TermRuleCompletes(before, v, draws);
    } else {
      StaysCovered(m, rules, own, n, draws, v);
      if rules[n].mayHit(before.text) {
        RuleShowsIff(before, rules[n], draws, v);
      }
    }
  }

  // ---- a run that uncovers a term ----

  /** "ab" is no word in "ab1-"; the other term needs no word boundaries and takes the digit. */
  const BODY := "ab1-"
  const TERMS := [CustomTerm("ab", ""), CustomTerm("1-", "")]

  lemma BodyParse()
    ensures Parse(BODY) == End(BODY) && DocLits(Parse(BODY)) == [BODY]
  {
    ParseEmpty();
    assert TokenFree(BODY);
    ParseLiteral(BODY, End(""));
    assert BODY + Render(End("")) == BODY;
  }

  lemma TermsRules()
    ensures GoodRules([]) && Pipeline([], {}, TERMS) == [TermRule("ab"), TermRule("1-")]
  {
    var a, b := TERMS[0], TERMS[1];
    assert TERMS[1..] == [b] && [b][1..] == [];
    assert SortTerms([b]) == [b];
    assert SortTerms(TERMS) == TERMS;
    assert TermRules([b]) == [TermRule("1-")];
    assert TermRules(TERMS) == [TermRule("ab"), TermRule("1-")];
  }

  lemma NoWordInBody()
    ensures IsAsciiWord("ab") && FindTerm(BODY, "ab", 0) == [] && RuleOrigs(BODY, TermRule("ab")) == []
  {
    BodyParse();
    hide Parse;
    assert WordAt(BODY, 2);
    assert FindTerm(BODY, "ab", 3) == [];
    assert FindTerm(BODY, "ab", 2) == [];
    assert !TermAt(BODY, "ab", 1);
    assert FindTerm(BODY, "ab", 1) == [];
    assert !TermAt(BODY, "ab", 0);
    assert CollectLocs(BODY, [], 0, TermRule("ab"), []) == [];
    assert CollectAll([BODY][1..], TermRule("ab"), []) == [];
    assert CollectAll([BODY], TermRule("ab"), []) == [];
  }

  lemma DigitInBody()
    ensures FindTerm(BODY, "1-", 0) == [Loc(2, 4, -1, -1)] && "1-" in Listed(BODY, TermRule("1-"))
  {
    BodyParse();
    hide Parse;
    assert TermAt(BODY, "1-", 2) by {
      assert BODY[2..4] == "1-" && !IsWordChar("1-"[1]);
    }
    assert FindTerm(BODY, "1-", 4) == [];
    assert FindTerm(BODY, "1-", 2) == [Loc(2, 4, -1, -1)];
    assert !TermAt(BODY, "1-", 1) && !TermAt(BODY, "1-", 0);
    assert FindTerm(BODY, "1-", 1) == [Loc(2, 4, -1, -1)];
    TermCollected([BODY], "1-", [], BODY);
  }

  lemma DigitCuts(listed: set<string>)
    requires "1-" in listed && "" !in listed
    ensures CutsOf(BODY, TermRule("1-"), listed) == [Cut(2, 4)]
  {
    DigitInBody();
    var l := Loc(2, 4, -1, -1);
    hide FindTerm, Listed;
    assert Capture(BODY, l, 0) == "1-" && [l][1..] == [];
    assert Cuts(BODY, [], 4, 0, listed) == [];
  }

  lemma WordStands()
    ensures Stands(BODY, "ab", 0, [Cut(2, 4)], 0)
  {
    var cuts := [Cut(2, 4)];
    assert Taken(0, cuts, 2) by {
      assert cuts[0] in cuts;
    }
  }

  lemma DigitUncovers()
    ensures Uncovers(BODY, TermRule("1-"), "ab")
  {
    BodyParse();
    DigitInBody();
    DigitCuts(Listed(BODY, TermRule("1-")));
    WordStands();
    hide Parse, Listed, FindTerm, CutsOf, Stands, TermRule;
    assert BODY in DocLits(Parse(BODY));
  }

  lemma RunTwo(m: Masking, first: Rule, second: Rule, draws: Draws)
    requires GoodRule(first) && GoodRule(second) && second.mayHit(m.text)
    requires RuleOrigs(m.text, first) == []
    ensures RunRules(m, [first, second], draws) == RuleSpec(m, second, draws)
  {
    NoHitNoChange(m, first, draws);
    RunNothing(m, draws);
    hide RuleSpec, RuleOrigs, GoodRule, RunRules;
    RunRulesSnoc(m, [], first, draws);
    assert [] + [first] == [first];
    RunRulesSnoc(m, [first], second, draws);
    assert [first] + [second] == [first, second];
  }

  /** The two terms alone, on any table: the rule of "ab" finds nothing, the rule of the other leaves "ab" beside its
      placeholder. */
  lemma LaterTermUncoversWord(table: Table, pos: nat, draws: Draws)
    requires WellFormed(table)
    ensures GoodRules([]) && IsAsciiWord("ab")
    ensures !Unfound(Parse(RunRules(Masking(BODY, table, pos, []), Pipeline([], {}, TERMS), draws).text), "ab")
  {
    var m := Masking(BODY, table, pos, []);
    TermsRules();
    NoWordInBody();
    DigitUncovers();
    hide RuleSpec, Parse, WellFormed, RuleOrigs, Unfound, Uncovers, Pipeline, RunRules, FindTerm;
    RunTwo(m, TermRule("ab"), TermRule("1-"), draws);
    RuleShowsIff(m, TermRule("1-"), draws, "ab");
  }
}
