/** When the round trip holds: every new placeholder of a masking run is found unused within 20 draws. */
module MaskFreshness {
  import opened Placeholder
  import opened Restore
  import opened MaskSession
  import opened MaskDocument
  import opened MaskRules
  import opened MaskEngine

  function NextMinted(m: Minted, original: string, tag: string, draws: Draws): Minted {
    var s := RecallSpec(m.table, original, tag, draws, m.pos);
    Minted(m.repl[original := s.token], s.table, s.pos, m.matches + [Match(tag, original, s.token)])
  }

  /** The originals are known already or get an unused placeholder, one after the other. */
  ghost predicate FreshRecalls(origs: seq<string>, tag: string, draws: Draws, m: Minted)
    decreases |origs|
  {
    origs != [] ==>
      && (origs[0] in m.table.forward || SomeDrawUnused(m.table.reverse, tag, draws, m.pos))
      && FreshRecalls(origs[1..], tag, draws, NextMinted(m, origs[0], tag, draws))
  }

  ghost predicate FreshRun(m: Masking, rules: seq<Rule>, draws: Draws)
    requires GoodRules(rules)
    decreases |rules|
  {
    rules != [] ==>
      if rules[0].mayHit(m.text) then
        && FreshRecalls(RuleOrigs(m.text, rules[0]), rules[0].tag, draws, Minted(map[], m.table, m.pos, m.matches))
        && FreshRun(RuleSpec(m, rules[0], draws), rules[1..], draws)
      else FreshRun(m, rules[1..], draws)
  }

  /** Two originals share a placeholder. */
  ghost predicate Clash(t: Table) {
    exists a, b | a in t.forward && b in t.forward :: a != b && t.forward[a] == t.forward[b]
  }

  lemma ClashStays(t: Table, later: Table)
    requires Clash(t) && Grows(t, later)
    ensures Clash(later) && !Bijective(later)
  {
    var a, b :| a in t.forward && b in t.forward && a != b && t.forward[a] == t.forward[b];
    assert a in later.forward && b in later.forward;
  }

  /** A recall of new text either keeps the table bijective or makes two originals share a placeholder for good. */
  lemma RecallFreshOrClash(t: Table, original: string, tag: string, draws: Draws, pos: nat)
    requires Bijective(t) && TokenFree(original)
    ensures var r := RecallSpec(t, original, tag, draws, pos);
            if original in t.forward || SomeDrawUnused(t.reverse, tag, draws, pos) then Bijective(r.table) else Clash(r.table)
  {
    RecallPlainKeepsBijective(t, original, tag, draws, pos);
    DrawTokenFresh(t.reverse, tag, draws, pos, MAX_DRAWS);
    hide IsToken, TokenFree, DrawToken;
    if original !in t.forward && !SomeDrawUnused(t.reverse, tag, draws, pos) {
      var token := DrawToken(t.reverse, tag, draws, pos, MAX_DRAWS).token;
      var other := t.reverse[token];
      assert other in t.forward && t.forward[other] == token;
      var u := RecallSpec(t, original, tag, draws, pos).table;
      assert u.forward[other] == token && u.forward[original] == token;
    }
  }

  lemma NextAgrees(m: Minted, original: string, tag: string, draws: Draws)
    requires WellFormed(m.table) && Agrees(m) && TokenFree(original)
    ensures var n := NextMinted(m, original, tag, draws);
            WellFormed(n.table) && Agrees(n) && n.table == RecallSpec(m.table, original, tag, draws, m.pos).table
  {
    RecallStep(m.table, original, tag, draws, m.pos);
    hide WellFormed, TokenFree, RecallSpec, IsToken;
  }

  lemma {:induction false} RecallAllFresh(origs: seq<string>, tag: string, draws: Draws, m: Minted)
    requires Bijective(m.table) && Agrees(m) && forall o | o in origs :: TokenFree(o)
    ensures if FreshRecalls(origs, tag, draws, m) then Bijective(RecallAll(origs, tag, draws, m).table)
            else Clash(RecallAll(origs, tag, draws, m).table)
    decreases |origs|
  {
    if origs != [] {
      BijectiveWellFormed(m.table);
      var next := NextMinted(m, origs[0], tag, draws);
      assert RecallAll(origs, tag, draws, m) == RecallAll(origs[1..], tag, draws, next);
      hide Bijective, Clash, TokenFree, WellFormed, Agrees, SomeDrawUnused, RecallSpec, RecallAll, NextMinted;
      RecallFreshOrClash(m.table, origs[0], tag, draws, m.pos);
      NextAgrees(m, origs[0], tag, draws);
      assert forall o | o in origs[1..] :: o in origs;
      if origs[0] in m.table.forward || SomeDrawUnused(m.table.reverse, tag, draws, m.pos) {
        RecallAllFresh(origs[1..], tag, draws, next);
      } else {
        RecallAllAgrees(origs[1..], tag, draws, next);
        ClashStays(next.table, RecallAll(origs[1..], tag, draws, next).table);
      }
    }
  }

  lemma RuleFresh(m: Masking, rule: Rule, draws: Draws)
    requires GoodRule(rule) && Bijective(m.table)
    ensures if FreshRecalls(RuleOrigs(m.text, rule), rule.tag, draws, Minted(map[], m.table, m.pos, m.matches))
            then Bijective(RuleSpec(m, rule, draws).table) else Clash(RuleSpec(m, rule, draws).table)
  {
    RuleOrigsTokenFree(m.text, rule);
    hide Bijective, Clash, TokenFree, RuleOrigs, FreshRecalls, RecallAll, SubDoc, Parse;
    RecallAllFresh(RuleOrigs(m.text, rule), rule.tag, draws, Minted(map[], m.table, m.pos, m.matches));
    NoOriginalsFresh(rule.tag, draws, Minted(map[], m.table, m.pos, m.matches));
  }

  lemma NoOriginalsFresh(tag: string, draws: Draws, m: Minted)
    ensures FreshRecalls([], tag, draws, m)
  {
  }

  /** A masking run leaves a bijective table exactly when every original it recalls is known or finds an unused placeholder
      within 20 draws. */
  lemma {:induction false} RunBijectiveIff(m: Masking, rules: seq<Rule>, draws: Draws)
    requires GoodRules(rules) && Bijective(m.table)
    ensures Bijective(RunRules(m, rules, draws).table) <==> FreshRun(m, rules, draws)
    decreases |rules|
  {
    if rules != [] {
      var rest := rules[1..];
      if rules[0].mayHit(m.text) {
        var next := RuleSpec(m, rules[0], draws);
        RuleFresh(m, rules[0], draws);
        hide Bijective, Clash, FreshRecalls, RuleSpec, RuleOrigs;
        if FreshRecalls(RuleOrigs(m.text, rules[0]), rules[0].tag, draws, Minted(map[], m.table, m.pos, m.matches)) {
          RunBijectiveIff(next, rest, draws);
        } else {
          BijectiveWellFormed(m.table);
          var _ := RuleShape(m, rules[0], draws);
          RunRestores(next, rest, draws);
          ClashStays(next.table, RunRules(next, rest, draws).table);
        }
      } else {
        RunBijectiveIff(m, rest, draws);
      }
    }
  }

  lemma BijectiveWellFormed(t: Table)
    ensures Bijective(t) ==> WellFormed(t)
    ensures Bijective(EMPTY_TABLE)
  {
  }

  /** The round trip from any table a session can hold: with fresh placeholders, a body without registered ones comes back
      unchanged. */
  lemma FreshRoundTrip(body: string, table: Table, pos: nat, rules: seq<Rule>, draws: Draws)
    requires GoodRules(rules) && Bijective(table) && FreshRun(Masking(body, table, pos, []), rules, draws)
    ensures var n := RunRules(Masking(body, table, pos, []), rules, draws);
            && Bijective(n.table) && Grows(table, n.table)
            && RestoreString(n.text, n.table.reverse) == RestoreString(body, n.table.reverse)
            && ((forall t | t in Tokens(body) :: t !in n.table.reverse) ==> RestoreString(n.text, n.table.reverse) == body)
  {
    var m := Masking(body, table, pos, []);
    BijectiveWellFormed(table);
    hide Bijective, WellFormed, Grows, RestoreString, RunRules, FreshRun, Tokens;
    RunBijectiveIff(m, rules, draws);
    RunRestores(m, rules, draws);
    var n := RunRules(m, rules, draws);
    GrowsRefl(n.table);
    RoundTrip(body, table, pos, rules, draws);
  }
}
