/** Several requests of one session masking at the same time: the table may grow before every single recall. */
module MaskShared {
  import opened Placeholder
  import opened Restore
  import opened MaskSession
  import opened MaskDocument
  import opened MaskRules
  import opened MaskEngine

  /** What other requests may have done since: the table grew, and suffixes were drawn. */
  ghost predicate Grown(m: Minted, g: Minted) {
    g.repl == m.repl && g.matches == m.matches && Grows(m.table, g.table) && WellFormed(g.table)
  }

  function RecallOne(m: Minted, original: string, tag: string, draws: Draws): Minted {
    var r := RecallSpec(m.table, original, tag, draws, m.pos);
    Minted(m.repl[original := r.token], r.table, r.pos, m.matches + [Match(tag, original, r.token)])
  }

  /** The recalls of one rule. A recall answered under the read lock acts on the table of that moment, any other on the table
      it finds under the write lock. */
  ghost predicate Recalls(origs: seq<string>, tag: string, draws: Draws, m: Minted, r: Minted)
    decreases |origs|
  {
    if origs == [] then r == m
    else exists g :: Grown(m, g) && Recalls(origs[1..], tag, draws, RecallOne(g, origs[0], tag, draws), r)
  }

  ghost predicate SharedRule(m: Masking, rule: Rule, draws: Draws, n: Masking)
    requires GoodRule(rule)
  {
    var origs := RuleOrigs(m.text, rule);
    if origs == [] then n == m
    else exists r ::
      && Recalls(origs, rule.tag, draws, Minted(map[], m.table, m.pos, m.matches), r)
      && "" !in r.repl && n == Masking(Render(SubDoc(Parse(m.text), rule, r.repl)), r.table, r.pos, r.matches)
  }

  ghost predicate SharedStep(m: Masking, rule: Rule, draws: Draws, n: Masking)
    requires GoodRule(rule)
  {
    if rule.mayHit(m.text) then SharedRule(m, rule, draws, n) else n == m
  }

  ghost predicate SharedRun(run: seq<Masking>, rules: seq<Rule>, draws: Draws)
    requires GoodRules(rules)
  {
    |run| == |rules| + 1 && forall i | 0 <= i < |rules| :: SharedStep(run[i], rules[i], draws, run[i + 1])
  }

  // ---- a request alone is a special case ----

  lemma {:induction false} RecallAllIsRecalls(origs: seq<string>, tag: string, draws: Draws, m: Minted)
    requires WellFormed(m.table) && forall o | o in origs :: TokenFree(o)
    ensures Recalls(origs, tag, draws, m, RecallAll(origs, tag, draws, m))
    decreases |origs|
  {
    hide WellFormed, TokenFree, RecallSpec, Grows;
    if origs != [] {
      GrowsRefl(m.table);
      RecallStep(m.table, origs[0], tag, draws, m.pos);
      RecallAllIsRecalls(origs[1..], tag, draws, RecallOne(m, origs[0], tag, draws));
      assert Grown(m, m);
    }
  }

  lemma AloneIsShared(m: Masking, rule: Rule, draws: Draws)
    requires GoodRule(rule) && WellFormed(m.table)
    ensures SharedRule(m, rule, draws, RuleSpec(m, rule, draws))
  {
    RuleOrigsTokenFree(m.text, rule);
    hide WellFormed, TokenFree, RuleOrigs, SubDoc, Parse, Recalls, RecallAll, Render;
    var origs := RuleOrigs(m.text, rule);
    if origs != [] {
      RecallAllIsRecalls(origs, rule.tag, draws, Minted(map[], m.table, m.pos, m.matches));
    }
  }

  // ---- restoring ----

  lemma GrownAgrees(m: Minted, g: Minted)
    requires Agrees(m) && Grown(m, g)
    ensures Agrees(g)
  {
  }

  lemma RecallOneKeeps(g: Minted, original: string, tag: string, draws: Draws)
    requires WellFormed(g.table) && Agrees(g) && TokenFree(original)
    ensures var n := RecallOne(g, original, tag, draws);
            WellFormed(n.table) && Grows(g.table, n.table) && Agrees(n) && n.repl.Keys == g.repl.Keys + {original}
  {
    RecallStep(g.table, original, tag, draws, g.pos);
    hide WellFormed, TokenFree, RecallSpec;
  }

  lemma {:induction false} RecallsAgree(origs: seq<string>, tag: string, draws: Draws, m: Minted, r: Minted)
    requires WellFormed(m.table) && Agrees(m) && (forall o | o in origs :: TokenFree(o)) && Recalls(origs, tag, draws, m, r)
    ensures WellFormed(r.table) && Grows(m.table, r.table) && Agrees(r)
    ensures forall o :: o in r.repl <==> o in m.repl || o in origs
    decreases |origs|
  {
    hide WellFormed, TokenFree, Grows, Agrees, RecallOne;
    if origs == [] {
      GrowsRefl(m.table);
    } else {
      var g :| Grown(m, g) && Recalls(origs[1..], tag, draws, RecallOne(g, origs[0], tag, draws), r);
      var next := RecallOne(g, origs[0], tag, draws);
      GrownAgrees(m, g);
      RecallOneKeeps(g, origs[0], tag, draws);
      RecallsAgree(origs[1..], tag, draws, next, r);
      GrowsTrans(m.table, g.table, next.table);
      GrowsTrans(m.table, next.table, r.table);
      assert origs == [origs[0]] + origs[1..];
    }
  }

  /** What a rule writes, whatever the table did meanwhile. */
  lemma SharedShape(m: Masking, rule: Rule, draws: Draws, n: Masking) returns (repl: Repl)
    requires GoodRule(rule) && WellFormed(m.table) && SharedRule(m, rule, draws, n)
    ensures WellFormed(n.table) && Grows(m.table, n.table)
    ensures forall o | o in repl :: o in n.table.forward && n.table.forward[o] == repl[o]
    ensures forall o :: o in repl <==> o in RuleOrigs(m.text, rule)
    ensures Parse(n.text) == SubDoc(Parse(m.text), rule, repl)
  {
    RuleOrigsTokenFree(m.text, rule);
    hide WellFormed, TokenFree, Grows, RuleOrigs, SubDoc, Recalls, Parse;
    var origs := RuleOrigs(m.text, rule);
    if origs == [] {
      repl := map[];
      EmptySubDoc(Parse(m.text), rule);
      GrowsRefl(m.table);
      return;
    }
    var start := Minted(map[], m.table, m.pos, m.matches);
    var r :| Recalls(origs, rule.tag, draws, start, r) && "" !in r.repl
             && n == Masking(Render(SubDoc(Parse(m.text), rule, r.repl)), r.table, r.pos, r.matches);
    RecallsAgree(origs, rule.tag, draws, start, r);
    repl := r.repl;
    IssuedTokens(r);
    ParseCanonical(m.text);
    SubDocCanonical(Parse(m.text), rule, repl);
    ParseRender(SubDoc(Parse(m.text), rule, repl));
  }

  lemma SharedRuleRestores(m: Masking, rule: Rule, draws: Draws, n: Masking)
    requires GoodRule(rule) && WellFormed(m.table) && SharedRule(m, rule, draws, n)
    ensures WellFormed(n.table) && Grows(m.table, n.table) && SameRestored(n.text, m.text, n.table)
  {
    hide SharedRule, SubDoc, RestoreDoc, RestoreString, Parse, TokenFree, IsToken, RuleOrigs;
    var repl := SharedShape(m, rule, draws, n);
    forall later: Table | Grows(n.table, later) && Bijective(later)
      ensures RestoreString(n.text, later.reverse) == RestoreString(m.text, later.reverse)
    {
      RestoreParse(n.text, later.reverse);
      RestoreParse(m.text, later.reverse);
      assert Decodes(repl, later.reverse);
      SubDocRestores(Parse(m.text), rule, repl, later.reverse);
    }
  }

  lemma SharedStepRestores(m: Masking, rule: Rule, draws: Draws, n: Masking)
    requires GoodRule(rule) && WellFormed(m.table) && SharedStep(m, rule, draws, n)
    ensures WellFormed(n.table) && Grows(m.table, n.table) && SameRestored(n.text, m.text, n.table)
  {
    hide SharedRule, WellFormed, Grows, Bijective, RestoreString;
    GrowsRefl(m.table);
    if rule.mayHit(m.text) {
      SharedRuleRestores(m, rule, draws, n);
    }
  }

  /** However the table grows before each recall, the masked text restores like the input in every later bijective table. */
  lemma {:induction false} SharedRunRestores(run: seq<Masking>, rules: seq<Rule>, draws: Draws, k: nat)
    requires GoodRules(rules) && SharedRun(run, rules, draws) && WellFormed(run[0].table) && k <= |rules|
    ensures WellFormed(run[k].table) && Grows(run[0].table, run[k].table) && SameRestored(run[k].text, run[0].text, run[k].table)
  {
    hide SharedStep, WellFormed, Grows, Bijective, RestoreString;
    GrowsRefl(run[0].table);
    if k > 0 {
      SharedRunRestores(run, rules, draws, k - 1);
      SharedStepRestores(run[k - 1], rules[k - 1], draws, run[k]);
      GrowsTrans(run[0].table, run[k - 1].table, run[k].table);
      forall later: Table | Grows(run[k].table, later) && Bijective(later)
        ensures RestoreString(run[k].text, later.reverse) == RestoreString(run[0].text, later.reverse)
      {
        GrowsTrans(run[k - 1].table, run[k].table, later);
      }
    }
  }
}
