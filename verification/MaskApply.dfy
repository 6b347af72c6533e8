/** Which rules a masking run applies, in which order, and what each of them takes out of the text it finds. */
module MaskApply {
  import opened Collections
  import opened Placeholder
  import opened Restore
  import opened MaskSession
  import opened MaskDocument
  import opened MaskRules
  import opened MaskEngine
  import opened MaskWords

  // ---- the rules of a run ----

  function IsOn(enabled: set<string>): Rule -> bool {
    (r: Rule) => r.tag in enabled
  }

  function HasValue(): CustomTerm -> bool {
    (t: CustomTerm) => t.value != ""
  }

  lemma {:induction false} EnabledSifted(rules: seq<Rule>, enabled: set<string>)
    ensures Sifted(rules, IsOn(enabled), EnabledRules(rules, enabled))
    decreases |rules|
  {
    hide Sifted;
    if rules == [] {
      SiftedEmpty(IsOn(enabled));
    } else {
      EnabledSifted(rules[1..], enabled);
      var rest := EnabledRules(rules[1..], enabled);
      SiftedCons(rules[0], rules[1..], IsOn(enabled), rest);
      assert rules == [rules[0]] + rules[1..];
      assert EnabledRules(rules, enabled) == if rules[0].tag in enabled then [rules[0]] + rest else rest by {
        assert [] + rest == rest;
      }
    }
  }

  function Values(ts: seq<CustomTerm>): seq<CustomTerm> {
    if ts == [] then [] else if ts[0].value != "" then [ts[0]] + Values(ts[1..]) else Values(ts[1..])
  }

  lemma {:induction false} ValuesSifted(ts: seq<CustomTerm>)
    ensures Sifted(ts, HasValue(), Values(ts))
    decreases |ts|
  {
    hide Sifted;
    if ts == [] {
      SiftedEmpty(HasValue());
    } else {
      ValuesSifted(ts[1..]);
      SiftedCons(ts[0], ts[1..], HasValue(), Values(ts[1..]));
      assert ts == [ts[0]] + ts[1..];
    }
  }

  function RulesFor(kept: seq<CustomTerm>): (r: seq<Rule>)
    requires forall t | t in kept :: t.value != ""
    ensures |r| == |kept| && forall i | 0 <= i < |kept| :: r[i] == TermRule(kept[i].value)
  {
    seq(|kept|, i requires 0 <= i < |kept| => TermRule(kept[i].value))
  }

  lemma {:induction false} TermRulesAre(ts: seq<CustomTerm>)
    ensures forall t | t in Values(ts) :: t.value != ""
    ensures TermRules(ts) == RulesFor(Values(ts))
    decreases |ts|
  {
    hide TermRule;
    if ts != [] {
      TermRulesAre(ts[1..]);
    }
  }

  /** A run applies one rule for each custom term that has a value, in the order of the sorted terms, and behind them the
      enabled built-in rules in their order. */
  lemma PipelineIs(builtin: seq<Rule>, enabled: set<string>, terms: seq<CustomTerm>)
    returns (kept: seq<CustomTerm>, on: seq<Rule>)
    requires GoodRules(builtin)
    ensures Sifted(SortTerms(terms), HasValue(), kept) && Sifted(builtin, IsOn(enabled), on)
    ensures var p := Pipeline(builtin, enabled, terms);
            && |p| == |kept| + |on| && p[|kept|..] == on
            && forall i | 0 <= i < |kept| :: kept[i].value != "" && p[i] == TermRule(kept[i].value)
  {
    hide Sifted, SortTerms, TermRules, EnabledRules, TermRule;
    kept := Values(SortTerms(terms));
    ValuesSifted(SortTerms(terms));
    TermRulesAre(SortTerms(terms));
    EnabledSifted(builtin, enabled);
    on := EnabledRules(builtin, enabled);
  }

  /** With no term and no enabled rule a run changes nothing: neither the body nor the table, and nothing is drawn. */
  lemma NothingOnIsIdentity(m: Masking, builtin: seq<Rule>, enabled: set<string>, terms: seq<CustomTerm>, draws: Draws)
    requires GoodRules(builtin)
    requires (forall r | r in builtin :: r.tag !in enabled) && forall t | t in terms :: t.value == ""
    ensures RunRules(m, Pipeline(builtin, enabled, terms), draws) == m
  {
    var kept, on := PipelineIs(builtin, enabled, terms);
    SortTermsSorted(terms);
    forall t | t in SortTerms(terms) ensures t.value == "" {
      assert t in multiset(SortTerms(terms));
    }
    hide Sifted, SortTerms, Pipeline, OfLength;
    SiftedNothing(SortTerms(terms), HasValue());
    SiftedIs(SortTerms(terms), HasValue(), kept, []);
    SiftedNothing(builtin, IsOn(enabled));
    SiftedIs(builtin, IsOn(enabled), on, []);
    RunNothing(m, draws);
  }

  // ---- one rule ----

  /** What a match captures: the whole match for group 0, otherwise the group's range if the group took part. */
  predicate Captures(l: Loc, group: nat, c: Cut) {
    if group == 0 then c.start == l.start && c.end == l.end
    else 0 <= l.gs == c.start && 0 <= l.ge == c.end
  }

  /** The range is an accepted, non-empty capture of one of the matches. */
  predicate CutBy(seg: string, locs: seq<Loc>, from: nat, rule: Rule, c: Cut)
    requires ValidLocs(locs, from, |seg|)
    decreases |locs|
  {
    && locs != []
    && ((Captures(locs[0], rule.group, c) && c.start < c.end && rule.accepts(seg[c.start..c.end]))
        || CutBy(seg, locs[1..], locs[0].end, rule, c))
  }

  lemma {:induction false} CutsAre(seg: string, locs: seq<Loc>, from: nat, rule: Rule, listed: set<string>, c: Cut)
    requires ValidLocs(locs, from, |seg|)
    requires (forall o | o in listed :: o != "" && rule.accepts(o)) && forall o | Captured(seg, locs, from, rule, o) :: o in listed
    ensures c in Cuts(seg, locs, from, rule.group, listed) <==> CutBy(seg, locs, from, rule, c)
    decreases |locs|
  {
    if locs != [] {
      var orig := Capture(seg, locs[0], rule.group);
      forall o | Captured(seg, locs[1..], locs[0].end, rule, o) ensures o in listed {
        assert Captured(seg, locs, from, rule, o);
      }
      assert orig != "" && rule.accepts(orig) ==> Captured(seg, locs, from, rule, orig);
      CutsAre(seg, locs[1..], locs[0].end, rule, listed, c);
    }
  }

  /** The cuts of a rule in a literal of its text are exactly the accepted captures of the rule's matches there. */
  lemma RuleCutsAre(text: string, rule: Rule, l: string, c: Cut)
    requires GoodRule(rule) && l in DocLits(Parse(text))
    ensures c in CutsOf(l, rule, Listed(text, rule)) <==> CutBy(l, rule.find(l), 0, rule, c)
  {
    RuleOrigsAre(text, rule);
    RuleOrigsTokenFree(text, rule);
    var listed := Listed(text, rule);
    forall o | o in listed ensures o != "" && rule.accepts(o) {
      var k :| k in DocLits(Parse(text)) && Captured(k, rule.find(k), 0, rule, o);
    }
    forall o | Captured(l, rule.find(l), 0, rule, o) ensures o in listed {
      assert o in RuleOrigs(text, rule);
    }
    hide Captured, RuleOrigs, Parse, Listed, TokenFree, CutBy, Cuts;
    CutsAre(l, rule.find(l), 0, rule, listed, c);
  }

  /** What the cuts leave of all literals. */
  function AllPieces(lits: seq<string>, rule: Rule, listed: set<string>): seq<string>
    requires GoodRule(rule) && "" !in listed
  {
    if lits == [] then [] else Pieces(lits[0], 0, CutsOf(lits[0], rule, listed)) + AllPieces(lits[1..], rule, listed)
  }

  lemma EmptyPieces(cuts: seq<Cut>)
    requires ValidCuts(cuts, 0, 0)
    ensures Pieces("", 0, cuts) == [""]
  {
    assert cuts == [];
  }

  lemma {:induction false} SubDocPieces(d: Doc, rule: Rule, repl: Repl)
    requires GoodRule(rule)
    ensures DocLits(SubDoc(d, rule, repl)) == AllPieces(DocLits(d), rule, repl.Keys)
  {
    hide Pieces, Cuts, SubLocs, GoodRule;
    var sub := SubSegment(d.lit, rule, repl);
    if d.lit == "" {
      EmptyPieces(CutsOf(d.lit, rule, repl.Keys));
    } else {
      assert GoodRule(rule);
      LitsAre(d.lit, rule, repl);
    }
    assert DocLits(sub) == Pieces(d.lit, 0, CutsOf(d.lit, rule, repl.Keys));
    hide SubSegment, CutsOf;
    if d.Node? {
      SubDocPieces(d.rest, rule, repl);
      ChainLits(sub, d.tok, SubDoc(d.rest, rule, repl));
      assert DocLits(d)[0] == d.lit && DocLits(d)[1..] == DocLits(d.rest);
    } else {
      assert DocLits(d)[0] == d.lit && DocLits(d)[1..] == [];
    }
  }

  lemma LitsAre(s: string, rule: Rule, repl: Repl)
    requires GoodRule(rule) && s != ""
    ensures DocLits(SubSegment(s, rule, repl)) == Pieces(s, 0, CutsOf(s, rule, repl.Keys))
  {
    hide Pieces, Cuts, SubLocs;
    LitsArePieces(s, rule.find(s), 0, rule.group, repl);
  }

  /** After a rule the literal text is what its accepted captures leave: each of them is cut out, and nothing else is. */
  lemma RuleLeavesPieces(m: Masking, rule: Rule, draws: Draws)
    requires GoodRule(rule) && WellFormed(m.table)
    ensures DocLits(Parse(RuleSpec(m, rule, draws).text)) == AllPieces(DocLits(Parse(m.text)), rule, Listed(m.text, rule))
  {
    hide RuleSpec, WellFormed, Grows, SubDoc, Parse, RuleOrigs, TokenFree, AllPieces;
    var repl := RuleShape(m, rule, draws);
    RuleOrigsTokenFree(m.text, rule);
    SubDocPieces(Parse(m.text), rule, repl);
    assert repl.Keys == Listed(m.text, rule);
  }

  // ---- every rule in its turn ----

  /** The state that rule i finds. */
  ghost function Before(m: Masking, rules: seq<Rule>, draws: Draws, i: nat): Masking
    requires GoodRules(rules) && i <= |rules|
  {
    PrefixIsGood(rules, i);
    RunRules(m, rules[..i], draws)
  }

  lemma TurnOf(m: Masking, rules: seq<Rule>, draws: Draws, k: nat)
    requires GoodRules(rules) && WellFormed(m.table) && k < |rules|
    ensures GoodRule(rules[k]) && WellFormed(Before(m, rules, draws, k).table)
    ensures var b := Before(m, rules, draws, k);
            Before(m, rules, draws, k + 1) == if rules[k].mayHit(b.text) then RuleSpec(b, rules[k], draws) else b
  {
    hide RuleSpec, GoodRule, WellFormed, RunRules, Grows;
    PrefixIsGood(rules, k);
    assert GoodRule(rules[k]);
    assert rules[..k] + [rules[k]] == rules[..k + 1];
    RunRulesSnoc(m, rules[..k], rules[k], draws);
    RunRestores(m, rules[..k], draws);
  }

  /** What is reported and issued stays so to the end of the run, and so do placeholders in the text. */
  lemma {:induction false} RestKeeps(m: Masking, rules: seq<Rule>, draws: Draws, k: nat, n: nat)
    requires GoodRules(rules) && WellFormed(m.table) && k <= n <= |rules|
    ensures var b, a := Before(m, rules, draws, k), Before(m, rules, draws, n);
            && (forall x | x in b.matches :: x in a.matches) && Grows(b.table, a.table)
            && forall t | t in Tokens(b.text) :: t in Tokens(a.text)
    decreases n
  {
    hide RuleSpec, WellFormed, Before, Tokens, Grows, Interleaved;
    var b := Before(m, rules, draws, k);
    if k == n {
      GrowsRefl(b.table);
    } else {
      RestKeeps(m, rules, draws, k, n - 1);
      TurnOf(m, rules, draws, n - 1);
      var mid := Before(m, rules, draws, n - 1);
      if rules[n - 1].mayHit(mid.text) {
        var next := RuleSpec(mid, rules[n - 1], draws);
        var added := RuleReports(mid, rules[n - 1], draws);
        var _ := RuleShape(mid, rules[n - 1], draws);
        InterleavedHolds(Tokens(mid.text), Tokens(next.text), Placed(added));
        GrowsTrans(b.table, mid.table, next.table);
      }
    }
  }

  /** Every accepted capture of a rule in a text is reported under the rule's tag with the placeholder it was given, and that
      placeholder is in the masked text. */
  ghost predicate MasksAll(text: string, rule: Rule, n: Masking)
    requires GoodRule(rule)
  {
    forall l, o | l in DocLits(Parse(text)) && Captured(l, rule.find(l), 0, rule, o) ::
      && o in n.table.forward && Match(rule.tag, o, n.table.forward[o]) in n.matches
      && n.table.forward[o] in Tokens(n.text)
  }

  lemma RuleMasksNow(b: Masking, rule: Rule, draws: Draws)
    requires GoodRule(rule) && WellFormed(b.table)
    ensures MasksAll(b.text, rule, RuleSpec(b, rule, draws))
  {
    RuleOrigsAre(b.text, rule);
    hide RuleSpec, WellFormed, Tokens, Captured, RuleOrigs, Parse, Interleaved, GoodRule;
    var n, origs := RuleSpec(b, rule, draws), RuleOrigs(b.text, rule);
    var added := RuleReports(b, rule, draws);
    forall o | o in origs
      ensures o in n.table.forward && Match(rule.tag, o, n.table.forward[o]) in n.matches && n.table.forward[o] in Tokens(n.text)
    {
      var i :| 0 <= i < |origs| && origs[i] == o;
      assert added[i] in added;
    }
  }

  /** Masked stays masked. */
  lemma MasksLater(text: string, rule: Rule, b: Masking, n: Masking)
    requires GoodRule(rule) && MasksAll(text, rule, b)
    requires (forall x | x in b.matches :: x in n.matches) && Grows(b.table, n.table) && forall t | t in Tokens(b.text) :: t in Tokens(n.text)
    ensures MasksAll(text, rule, n)
  {
    hide Tokens, Captured, Parse, GoodRule;
  }

  /** Rule k of a run, when its pre-check passes, masks all its accepted captures. */
  lemma RuleMasksCaptures(m: Masking, rules: seq<Rule>, draws: Draws, k: nat)
    requires GoodRules(rules) && WellFormed(m.table) && k < |rules| && GoodRule(rules[k])
    requires rules[k].mayHit(Before(m, rules, draws, k).text)
    ensures MasksAll(Before(m, rules, draws, k).text, rules[k], RunRules(m, rules, draws))
  {
    hide RuleSpec, WellFormed, Tokens, MasksAll, RunRules, Before, GoodRule, Grows;
    TurnOf(m, rules, draws, k);
    RuleMasksNow(Before(m, rules, draws, k), rules[k], draws);
    RestKeeps(m, rules, draws, k + 1, |rules|);
    BeforeAll(m, rules, draws);
    MasksLater(Before(m, rules, draws, k).text, rules[k], Before(m, rules, draws, k + 1), RunRules(m, rules, draws));
  }

  /** A run reports nothing but captures of its own rules. */
  lemma {:induction false} OnlyOwnTags(m: Masking, rules: seq<Rule>, draws: Draws, k: nat)
    requires GoodRules(rules) && WellFormed(m.table) && k <= |rules|
    ensures var n := Before(m, rules, draws, k);
            forall x | x in n.matches :: x in m.matches || exists r :: r in rules && r.tag == x.tag
  {
    hide RuleSpec, WellFormed, Before, RuleOrigs, GoodRule, Holds;
    if k == 0 {
      BeforeAll(m, rules, draws);
    } else {
      OnlyOwnTags(m, rules, draws, k - 1);
      TurnOf(m, rules, draws, k - 1);
      var b := Before(m, rules, draws, k - 1);
      if rules[k - 1].mayHit(b.text) {
        var added := RuleReports(b, rules[k - 1], draws);
        assert rules[k - 1] in rules;
        assert forall x | x in added :: x.tag == rules[k - 1].tag;
      }
    }
  }

  lemma BeforeAll(m: Masking, rules: seq<Rule>, draws: Draws)
    requires GoodRules(rules)
    ensures Before(m, rules, draws, 0) == m && Before(m, rules, draws, |rules|) == RunRules(m, rules, draws)
  {
    assert rules[..0] == [] && rules[..|rules|] == rules;
    RunNothing(m, draws);
  }

  lemma PipelineHolds(builtin: seq<Rule>, enabled: set<string>, terms: seq<CustomTerm>)
    requires GoodRules(builtin)
    ensures forall r | r in builtin && r.tag in enabled :: r in Pipeline(builtin, enabled, terms)
    ensures forall r | r in Pipeline(builtin, enabled, terms) :: r.tag == "TERM" || r.tag in enabled
  {
    var kept, on := PipelineIs(builtin, enabled, terms);
    SiftedIs(builtin, IsOn(enabled), on, on);
    var p := Pipeline(builtin, enabled, terms);
    hide Sifted, Pipeline, GoodRule;
    assert forall i | 0 <= i < |kept| :: p[i].tag == "TERM";
    assert forall r | r in on :: r.tag in enabled;
    hide TermRule;
    TwoParts(p, |kept|);
  }

  lemma TwoParts(p: seq<Rule>, n: nat)
    requires n <= |p|
    ensures forall r :: r in p <==> r in p[n..] || exists i :: 0 <= i < n && p[i] == r
  {
    assert p == p[..n] + p[n..];
  }

  /** An enabled rule has its turn in every run; when its pre-check passes then, it masks all its accepted captures. */
  lemma EnabledRuleMasks(m: Masking, builtin: seq<Rule>, enabled: set<string>, terms: seq<CustomTerm>, draws: Draws, rule: Rule)
    returns (k: nat)
    requires GoodRules(builtin) && WellFormed(m.table) && rule in builtin && rule.tag in enabled
    ensures var p := Pipeline(builtin, enabled, terms);
            && k < |p| && p[k] == rule && GoodRule(rule)
            && (rule.mayHit(Before(m, p, draws, k).text) ==>
                  MasksAll(Before(m, p, draws, k).text, rule, RunRules(m, p, draws)))
  {
    PipelineHolds(builtin, enabled, terms);
    hide WellFormed, MasksAll, Before, RunRules, Pipeline, GoodRule;
    var p := Pipeline(builtin, enabled, terms);
    k :| k < |p| && p[k] == rule;
    if rule.mayHit(Before(m, p, draws, k).text) {
      RuleMasksCaptures(m, p, draws, k);
    }
  }

  /** A rule that is not enabled contributes nothing: all that a run reports is a custom term or carries an enabled tag. */
  lemma OnlyEnabledTags(m: Masking, builtin: seq<Rule>, enabled: set<string>, terms: seq<CustomTerm>, draws: Draws)
    requires GoodRules(builtin) && WellFormed(m.table)
    ensures forall x | x in RunRules(m, Pipeline(builtin, enabled, terms), draws).matches ::
              x in m.matches || x.tag == "TERM" || x.tag in enabled
  {
    PipelineHolds(builtin, enabled, terms);
    hide WellFormed, Before, RunRules, Pipeline, GoodRule;
    var p := Pipeline(builtin, enabled, terms);
    OnlyOwnTags(m, p, draws, |p|);
    BeforeAll(m, p, draws);
  }
}
