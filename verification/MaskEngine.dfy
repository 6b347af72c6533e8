/** The masking engine: custom terms first, then the enabled built-in rules, over one session table. */
module MaskEngine {
  import opened Collections
  import opened Placeholder
  import opened Restore
  import opened MaskSession
  import opened MaskDocument
  import opened MaskRules
  import opened StreamRestore

  // ---- custom terms ----

  datatype CustomTerm = CustomTerm(value: string, category: string)

  predicate IsWordChar(c: char) {
    'A' <= c <= 'Z' || 'a' <= c <= 'z' || '0' <= c <= '9' || c == '_'
  }

  predicate IsAsciiWord(s: string) {
    forall i | 0 <= i < |s| :: IsWordChar(s[i])
  }

  predicate WordAt(s: string, k: int) {
    0 <= k < |s| && IsWordChar(s[k])
  }

  predicate TextAt(s: string, v: string, i: nat) {
    i + |v| <= |s| && s[i..i + |v|] == v
  }

  /** Literal match at `i`; a pure ASCII word must also stand between word boundaries. */
  predicate TermAt(s: string, v: string, i: nat) {
    TextAt(s, v, i) && (IsAsciiWord(v) ==> !WordAt(s, i - 1) && !WordAt(s, i + |v|))
  }

  /** Leftmost non-overlapping matches of a term. */
  function FindTerm(s: string, v: string, at: nat): (r: seq<Loc>)
    requires v != "" && at <= |s|
    ensures ValidLocs(r, at, |s|)
    decreases |s| - at
  {
    if at + |v| > |s| then []
    else if TermAt(s, v, at) then
      assert ValidLocs(FindTerm(s, v, at + |v|), at + |v|, |s|);
      [Loc(at, at + |v|, -1, -1)] + FindTerm(s, v, at + |v|)
    else
      LaterLocs(FindTerm(s, v, at + 1), at + 1, at, |s|);
      FindTerm(s, v, at + 1)
  }

  lemma LaterLocs(locs: seq<Loc>, from: int, earlier: int, n: nat)
    requires earlier <= from && ValidLocs(locs, from, n)
    ensures ValidLocs(locs, earlier, n)
  {
  }

  function TermRule(v: string): (r: Rule)
    requires v != ""
    ensures GoodRule(r)
  {
    Rule("TERM", s => FindTerm(s, v, 0), 0, s => true, s => true)
  }

  /** Longest first, equal lengths in their given order. */
  function InsertTerm(t: CustomTerm, ts: seq<CustomTerm>): seq<CustomTerm> {
    if ts == [] || |ts[0].value| <= |t.value| then [t] + ts else [ts[0]] + InsertTerm(t, ts[1..])
  }

  function SortTerms(ts: seq<CustomTerm>): seq<CustomTerm> {
    if ts == [] then [] else InsertTerm(ts[0], SortTerms(ts[1..]))
  }

  function TermRules(ts: seq<CustomTerm>): (r: seq<Rule>)
    ensures forall x | x in r :: GoodRule(x)
  {
    if ts == [] then []
    else if ts[0].value == "" then TermRules(ts[1..])
    else [TermRule(ts[0].value)] + TermRules(ts[1..])
  }

  function EnabledRules(rules: seq<Rule>, enabled: set<string>): (r: seq<Rule>)
    ensures forall x | x in r :: x in rules
  {
    if rules == [] then []
    else (if rules[0].tag in enabled then [rules[0]] else []) + EnabledRules(rules[1..], enabled)
  }

  // ---- the pipeline ----

  ghost predicate GoodRules(rules: seq<Rule>) {
    forall r | r in rules :: GoodRule(r)
  }

  /** One rule after the other; a rule whose pre-check fails is skipped. */
  ghost function RunRules(m: Masking, rules: seq<Rule>, draws: Draws): Masking
    requires GoodRules(rules)
    decreases |rules|
  {
    if rules == [] then m
    else RunRules(if rules[0].mayHit(m.text) then RuleSpec(m, rules[0], draws) else m, rules[1..], draws)
  }

  ghost function Pipeline(builtin: seq<Rule>, enabled: set<string>, terms: seq<CustomTerm>): (r: seq<Rule>)
    requires GoodRules(builtin)
    ensures GoodRules(r)
  {
    TermRules(SortTerms(terms)) + EnabledRules(builtin, enabled)
  }

  // ---- masking is undone by restoring ----

  /** Every text with the same restoration in all later tables. */
  ghost predicate SameRestored(a: string, b: string, table: Table) {
    forall later: Table | Grows(table, later) && Bijective(later) ::
      RestoreString(a, later.reverse) == RestoreString(b, later.reverse)
  }

  lemma RuleRestores(m: Masking, rule: Rule, draws: Draws, later: Table)
    requires GoodRule(rule) && WellFormed(m.table)
    requires Grows(RuleSpec(m, rule, draws).table, later) && Bijective(later)
    ensures RestoreString(RuleSpec(m, rule, draws).text, later.reverse) == RestoreString(m.text, later.reverse)
  {
    hide RuleSpec, SubDoc, RestoreDoc, RestoreString, Parse, TokenFree, IsToken;
    var n := RuleSpec(m, rule, draws);
    var repl := RuleShape(m, rule, draws);
    RestoreParse(n.text, later.reverse);
    RestoreParse(m.text, later.reverse);
    assert Decodes(repl, later.reverse);
    SubDocRestores(Parse(m.text), rule, repl, later.reverse);
  }

  lemma GrowsTrans(a: Table, b: Table, c: Table)
    requires Grows(a, b) && Grows(b, c)
    ensures Grows(a, c)
  {
  }

  lemma {:induction false} RunRestores(m: Masking, rules: seq<Rule>, draws: Draws)
    requires GoodRules(rules) && WellFormed(m.table)
    ensures var n := RunRules(m, rules, draws);
            WellFormed(n.table) && Grows(m.table, n.table) && SameRestored(n.text, m.text, n.table)
    decreases |rules|
  {
    hide WellFormed, Grows, RuleSpec, Bijective, RestoreString;
    if rules == [] {
      GrowsRefl(m.table);
    } else {
      var hit := rules[0].mayHit(m.text);
      var next := if hit then RuleSpec(m, rules[0], draws) else m;
      if hit {
        var _ := RuleShape(m, rules[0], draws);
      } else {
        GrowsRefl(m.table);
      }
      RunRestores(next, rules[1..], draws);
      var n := RunRules(m, rules, draws);
      GrowsTrans(m.table, next.table, n.table);
      forall later: Table | Grows(n.table, later) && Bijective(later)
        ensures RestoreString(n.text, later.reverse) == RestoreString(m.text, later.reverse)
      {
        GrowsTrans(next.table, n.table, later);
        if hit {
          RuleRestores(m, rules[0], draws, later);
        }
      }
    }
  }

  /** A body without registered placeholders comes back from masking and restoring unchanged. */
  lemma RoundTrip(body: string, table: Table, pos: nat, rules: seq<Rule>, draws: Draws)
    requires GoodRules(rules) && WellFormed(table)
    ensures var n := RunRules(Masking(body, table, pos, []), rules, draws);
            Bijective(n.table) && (forall t | t in Tokens(body) :: t !in n.table.reverse)
            ==> RestoreString(n.text, n.table.reverse) == body
  {
    hide WellFormed, Grows, RuleSpec, Bijective, RestoreString, RunRules, Tokens;
    var m := Masking(body, table, pos, []);
    RunRestores(m, rules, draws);
    var n := RunRules(m, rules, draws);
    GrowsRefl(n.table);
    if Bijective(n.table) && forall t | t in Tokens(body) :: t !in n.table.reverse {
      UnregisteredRestores(body, n.table.reverse);
    }
  }

  /** The same through the stream: mask, cut the text anywhere but between opening braces, restore chunk by chunk. */
  lemma StreamedRoundTrip(body: string, table: Table, pos: nat, rules: seq<Rule>, draws: Draws, chunks: seq<string>)
    requires GoodRules(rules) && WellFormed(table)
    requires Concat(chunks) == RunRules(Masking(body, table, pos, []), rules, draws).text
    requires forall k: nat | k <= |chunks| :: !SplitsOpening(chunks, k)
    ensures var n := RunRules(Masking(body, table, pos, []), rules, draws);
            Bijective(n.table) && (forall t | t in Tokens(body) :: t !in n.table.reverse)
            ==> Streamed("", chunks, n.table.reverse) == body
  {
    hide WellFormed, Bijective, RestoreString, RunRules, Tokens, Streamed, SplitsOpening;
    var n := RunRules(Masking(body, table, pos, []), rules, draws);
    UnsplitStreamsRestore(chunks, n.table.reverse);
    RoundTrip(body, table, pos, rules, draws);
  }

  // ---- masking is complete for custom terms ----

  /** The term's own rule would match in the literal. */
  predicate Found(l: string, v: string) {
    exists i: nat | i <= |l| :: TermAt(l, v, i)
  }

  /** Nothing of the term is left but, for a term matched between word boundaries, at the very ends of the literal: there a
      placeholder may have taken the word character that kept the term from being a word. */
  ghost predicate Clear(l: string, v: string) {
    forall i: nat | TermAt(l, v, i) :: IsAsciiWord(v) && (i == 0 || i + |v| == |l|)
  }

  ghost predicate TermFree(d: Doc, v: string) {
    forall l | l in DocLits(d) :: Clear(l, v)
  }

  lemma UnfoundIsClear(l: string, v: string)
    requires !Found(l, v)
    ensures Clear(l, v)
  {
  }

  lemma SliceOfSlice(s: string, i: nat, j: nat, k: nat, n: nat)
    requires i <= j <= |s| && k <= n <= j - i
    ensures s[i..j][k..n] == s[i + k..i + n]
  {
    var x := s[i..j];
    assert forall p | k <= p < n :: x[p] == s[i + p];
    assert |x[k..n]| == n - k;
    assert forall p | 0 <= p < n - k :: x[k..n][p] == x[k + p];
  }

  lemma TextInSlice(s: string, v: string, from: nat, to: nat, i: nat)
    requires from <= to <= |s| && TextAt(s[from..to], v, i)
    ensures TextAt(s, v, from + i)
  {
    SliceOfSlice(s, from, to, i, i + |v|);
  }

  /** A match inside a slice, or of a term that needs no boundaries, is a match in the whole. */
  lemma TermInSlice(l: string, v: string, i: nat, j: nat, k: nat)
    requires i <= j <= |l| && TermAt(l[i..j], v, k)
    requires IsAsciiWord(v) ==> 0 < k && k + |v| < j - i
    ensures TermAt(l, v, i + k) && i + k + |v| <= j
  {
    var x := l[i..j];
    TextInSlice(l, v, i, j, k);
    if IsAsciiWord(v) {
      assert x[k - 1] == l[i + k - 1] && x[k + |v|] == l[i + k + |v|];
    }
  }

  lemma SliceClear(x: string, l: string, v: string)
    requires IsSlice(x, l) && Clear(l, v)
    ensures Clear(x, v)
  {
    var i: nat, j: nat :| i <= j <= |l| && x == l[i..j];
    hide TermAt, IsAsciiWord;
    forall k: nat | TermAt(x, v, k) ensures IsAsciiWord(v) && (k == 0 || k + |v| == |x|) {
      TermFits(x, v, k);
      if !IsAsciiWord(v) || (0 < k && k + |v| < |x|) {
        TermInSlice(l, v, i, j, k);
      }
    }
  }

  lemma TermFits(s: string, v: string, i: nat)
    requires TermAt(s, v, i)
    ensures i + |v| <= |s|
  {
  }

  lemma InBounds(s: string, v: string, i: nat)
    requires TextAt(s, v, i)
    ensures i + |v| <= |s|
  {
  }

  /** Whatever rule runs later, it cannot bring a term back into literal text. */
  lemma RuleKeepsTermFree(m: Masking, rule: Rule, draws: Draws, v: string)
    requires GoodRule(rule) && WellFormed(m.table) && TermFree(Parse(m.text), v)
    ensures TermFree(Parse(RuleSpec(m, rule, draws).text), v)
  {
    hide RuleSpec, SubDoc, Parse, WellFormed, Grows, IsSlice, Clear;
    var repl := RuleShape(m, rule, draws);
    var d := Parse(m.text);
    forall x | x in DocLits(SubDoc(d, rule, repl)) ensures Clear(x, v) {
      SubDocSlices(d, rule, repl, x);
      var l :| l in DocLits(d) && IsSlice(x, l);
      SliceClear(x, l, v);
    }
  }

  /** A gap between two matches, or before the first or behind the last: a word term cannot touch its ends. */
  predicate Gap(s: string, v: string, from: nat, to: nat) {
    && from <= to <= |s|
    && (from > 0 && IsAsciiWord(v) ==> !WordAt(s, from))
    && (to < |s| && IsAsciiWord(v) ==> !WordAt(s, to - 1))
  }

  lemma EdgesAreWords(s: string, v: string, p: nat)
    requires TextAt(s, v, p) && IsAsciiWord(v) && v != ""
    ensures WordAt(s, p) && WordAt(s, p + |v| - 1)
  {
    assert s[p] == s[p..p + |v|][0] == v[0];
    assert s[p + |v| - 1] == s[p..p + |v|][|v| - 1] == v[|v| - 1];
  }

  /** What matches in a gap taken for itself matches in the whole. */
  lemma TermInGap(s: string, v: string, from: nat, to: nat, i: nat)
    requires v != "" && Gap(s, v, from, to) && TermAt(s[from..to], v, i)
    ensures TermAt(s, v, from + i) && from + i < to
  {
    var x := s[from..to];
    TextInSlice(s, v, from, to, i);
    InBounds(x, v, i);
    if IsAsciiWord(v) {
      EdgesAreWords(s, v, from + i);
      assert i > 0 ==> x[i - 1] == s[from + i - 1];
      assert i + |v| < |x| ==> x[i + |v|] == s[from + i + |v|];
    }
  }

  lemma NoTermInGap(s: string, v: string, from: nat, to: nat)
    requires v != "" && Gap(s, v, from, to) && forall p: nat | from <= p < to :: !TermAt(s, v, p)
    ensures !Found(s[from..to], v)
  {
    var x := s[from..to];
    hide TermAt, Gap;
    if Found(x, v) {
      var i: nat :| i <= |x| && TermAt(x, v, i);
      TermInGap(s, v, from, to, i);
      assert false;
    }
  }

  /** The term's rule would match in no literal of the rewritten segment. */
  ghost predicate FreeAfter(s: string, v: string, from: nat, locs: seq<Loc>, repl: Repl)
    requires ValidLocs(locs, from, |s|)
  {
    forall x | x in DocLits(SubLocs(s, locs, from, 0, repl)) :: !Found(x, v)
  }

  lemma {:induction false} SubTermFree(s: string, v: string, from: nat, at: nat, repl: Repl)
    requires v != "" && v in repl && from <= at <= |s| && Gap(s, v, from, |s|)
    requires forall p: nat | from <= p < at :: !TermAt(s, v, p)
    requires ValidLocs(FindTerm(s, v, at), from, |s|)
    ensures FreeAfter(s, v, from, FindTerm(s, v, at), repl)
    decreases |s| - at
  {
    hide FreeAfter, FindTerm, ValidLocs, Found, TextAt, TermAt, IsAsciiWord, Gap;
    if at + |v| > |s| {
      SubTermEnd(s, v, from, at, repl);
    } else if TermAt(s, v, at) {
      GapsAround(s, v, from, at);
      NoTermInGap(s, v, from, at);
      SubTermHit(s, v, from, at, repl);
      SubTermFree(s, v, at + |v|, at + |v|, repl);
    } else {
      TermMiss(s, v, at);
      SubTermFree(s, v, from, at + 1, repl);
    }
  }

  lemma GapsAround(s: string, v: string, from: nat, at: nat)
    requires Gap(s, v, from, |s|) && from <= at && TermAt(s, v, at)
    ensures Gap(s, v, from, at) && at + |v| <= |s| && Gap(s, v, at + |v|, |s|)
  {
    hide IsAsciiWord;
  }

  lemma TermMiss(s: string, v: string, at: nat)
    requires v != "" && at + |v| <= |s| && !TermAt(s, v, at)
    ensures FindTerm(s, v, at) == FindTerm(s, v, at + 1)
  {
    hide IsAsciiWord;
  }

  lemma SubTermEnd(s: string, v: string, from: nat, at: nat, repl: Repl)
    requires v != "" && from <= at <= |s| && at + |v| > |s| && Gap(s, v, from, |s|)
    requires forall p: nat | from <= p < at :: !TermAt(s, v, p)
    ensures FindTerm(s, v, at) == [] && FreeAfter(s, v, from, [], repl)
  {
    NoTermInGap(s, v, from, |s|);
    assert s[from..|s|] == s[from..];
  }

  /** A listed term is replaced: the literal before it, its placeholder, and the rest. */
  lemma SubTermHit(s: string, v: string, from: nat, at: nat, repl: Repl)
    requires v != "" && v in repl && from <= at && at + |v| <= |s| && TermAt(s, v, at) && !Found(s[from..at], v)
    requires ValidLocs(FindTerm(s, v, at), from, |s|)
    ensures ValidLocs(FindTerm(s, v, at + |v|), at + |v|, |s|)
    ensures FreeAfter(s, v, at + |v|, FindTerm(s, v, at + |v|), repl) ==> FreeAfter(s, v, from, FindTerm(s, v, at), repl)
  {
    var locs, l := FindTerm(s, v, at + |v|), Loc(at, at + |v|, -1, -1);
    assert FindTerm(s, v, at) == [l] + locs && ([l] + locs)[1..] == locs;
    hide FindTerm, Found, IsAsciiWord;
    SubLocsHit(s, v, l, locs, from, repl);
    hide SubLocs;
  }

  lemma SubLocsHit(s: string, v: string, l: Loc, locs: seq<Loc>, from: nat, repl: Repl)
    requires v in repl && 0 <= from <= l.start <= l.end <= |s| && s[l.start..l.end] == v
    requires ValidLocs([l] + locs, from, |s|) && ValidLocs(locs, l.end, |s|)
    ensures SubLocs(s, [l] + locs, from, 0, repl) == Node(s[from..l.start], repl[v], SubLocs(s, locs, l.end, 0, repl))
  {
    var rest := SubLocs(s, locs, l.end, 0, repl);
    assert ([l] + locs)[1..] == locs;
    hide ValidLocs;
    assert SkipMatch(s, l.end, l.end, rest) == rest;
  }

  lemma {:induction false} FindTermNone(s: string, v: string, at: nat)
    requires v != "" && at <= |s| && FindTerm(s, v, at) == []
    ensures forall p: nat | at <= p :: !TermAt(s, v, p)
    decreases |s| - at
  {
    hide IsAsciiWord;
    if at + |v| <= |s| {
      FindTermNone(s, v, at + 1);
    }
  }

  lemma FindTermFirst(s: string, v: string, at: nat)
    requires v != "" && at <= |s|
    ensures forall l | l in FindTerm(s, v, at) :: 0 <= l.start && l.end == l.start + |v| <= |s| && s[l.start..l.end] == v
    decreases |s| - at
  {
  }

  lemma {:induction false} CollectKeeps(segs: seq<string>, rule: Rule, acc: seq<string>, o: string)
    requires GoodRule(rule) && o in acc
    ensures o in CollectAll(segs, rule, acc)
    decreases |segs|
  {
    if segs != [] {
      CollectLocsKeeps(segs[0], rule.find(segs[0]), 0, rule, acc, o);
      CollectKeeps(segs[1..], rule, CollectLocs(segs[0], rule.find(segs[0]), 0, rule, acc), o);
    }
  }

  lemma {:induction false} CollectLocsKeeps(seg: string, locs: seq<Loc>, from: int, rule: Rule, acc: seq<string>, o: string)
    requires 0 <= from && ValidLocs(locs, from, |seg|) && o in acc
    ensures o in CollectLocs(seg, locs, from, rule, acc)
    decreases |locs|
  {
    if locs != [] {
      var orig := Capture(seg, locs[0], rule.group);
      var next := if orig == "" || !rule.accepts(orig) then acc else AddUnique(acc, orig);
      CollectLocsKeeps(seg, locs[1..], locs[0].end, rule, next, o);
    }
  }

  /** A term found in any literal is among the originals. */
  lemma {:induction false} TermCollected(segs: seq<string>, v: string, acc: seq<string>, l: string)
    requires v != "" && l in segs && FindTerm(l, v, 0) != []
    ensures v in CollectAll(segs, TermRule(v), acc)
    decreases |segs|
  {
    var rule := TermRule(v);
    var locs := FindTerm(segs[0], v, 0);
    var first := CollectLocs(segs[0], locs, 0, rule, acc);
    if segs[0] == l {
      FindTermFirst(l, v, 0);
      assert locs[0] in locs && Capture(l, locs[0], 0) == v;
      CollectLocsKeeps(l, locs[1..], locs[0].end, rule, AddUnique(acc, v), v);
      CollectKeeps(segs[1..], rule, first, v);
    } else {
      TermCollected(segs[1..], v, first, l);
    }
  }

  /** The term's rule would match in no literal. */
  predicate Unfound(d: Doc, v: string) {
    forall l | l in DocLits(d) :: !Found(l, v)
  }

  lemma {:induction false} SubDocTermFree(d: Doc, v: string, repl: Repl)
    requires v != ""
    requires forall l | l in DocLits(d) && FindTerm(l, v, 0) != [] :: v in repl
    ensures Unfound(SubDoc(d, TermRule(v), repl), v)
  {
    hide Found, IsAsciiWord, FindTerm, SubLocs;
    var rule := TermRule(v);
    var sub := SubSegment(d.lit, rule, repl);
    assert d.lit in DocLits(d);
    SegmentTermFree(d.lit, v, repl);
    if d.Node? {
      assert forall l | l in DocLits(d.rest) :: l in DocLits(d);
      SubDocTermFree(d.rest, v, repl);
      ChainLits(sub, d.tok, SubDoc(d.rest, rule, repl));
    }
  }

  lemma SegmentTermFree(l: string, v: string, repl: Repl)
    requires v != "" && (FindTerm(l, v, 0) != [] ==> v in repl)
    ensures forall x | x in DocLits(SubSegment(l, TermRule(v), repl)) :: !Found(x, v)
  {
    assert Gap(l, v, 0, |l|);
    hide Found, IsAsciiWord, Gap;
    if l == "" {
      NoTermInGap("", v, 0, 0);
    } else if FindTerm(l, v, 0) == [] {
      FindTermNone(l, v, 0);
      NoTermInGap(l, v, 0, |l|);
      assert l[0..|l|] == l[0..] == l;
    } else {
      SubTermFree(l, v, 0, 0, repl);
    }
  }

  /** Right after its own rule a term is matched in no literal segment, between word boundaries or not. */
  lemma TermRuleCompletes(m: Masking, v: string, draws: Draws)
    requires WellFormed(m.table) && v != ""
    ensures Unfound(Parse(RuleSpec(m, TermRule(v), draws).text), v)
  {
    hide RuleSpec, SubDoc, WellFormed, Grows, Unfound, FindTerm, CollectAll;
    var rule := TermRule(v);
    var repl := RuleShape(m, rule, draws);
    var d := Parse(m.text);
    forall l | l in DocLits(d) && FindTerm(l, v, 0) != [] ensures v in repl {
      TermCollected(DocLits(d), v, [], l);
      if m.text == "" {
        assert DocLits(d) == [""] && FindTerm("", v, 0) == [] by { NothingInEmpty(v); }
      }
    }
    SubDocTermFree(d, v, repl);
  }

  lemma NothingInEmpty(v: string)
    requires v != ""
    ensures FindTerm("", v, 0) == []
  {
  }

  lemma UnfoundIsFree(d: Doc, v: string)
    requires Unfound(d, v)
    ensures TermFree(d, v)
  {
    hide Found, Clear;
    forall l | l in DocLits(d) ensures Clear(l, v) {
      UnfoundIsClear(l, v);
    }
  }

  /** ... and it stays out after all the rules that follow, although they split those segments further. */
  lemma {:induction false} RunTermFree(m: Masking, rules: seq<Rule>, draws: Draws, v: string)
    requires GoodRules(rules) && WellFormed(m.table) && v != ""
    requires TermFree(Parse(m.text), v) || TermRule(v) in rules
    ensures TermFree(Parse(RunRules(m, rules, draws).text), v)
    decreases |rules|
  {
    hide WellFormed, RuleSpec, TermFree, Parse, Unfound, Grows;
    if rules != [] {
      var rule := rules[0];
      var hit := rule.mayHit(m.text);
      var next := if hit then RuleSpec(m, rule, draws) else m;
      if hit {
        var _ := RuleShape(m, rule, draws);
        if TermFree(Parse(m.text), v) {
          RuleKeepsTermFree(m, rule, draws, v);
        } else if rule == TermRule(v) {
          TermRuleCompletes(m, v, draws);
          UnfoundIsFree(Parse(next.text), v);
        }
      }
      RunTermFree(next, rules[1..], draws, v);
    }
  }

  /** The output parses uniquely: its placeholders are the old ones, in order, with the inserted ones in between. */
  lemma RuleTokens(m: Masking, rule: Rule, draws: Draws) returns (repl: Repl)
    requires GoodRule(rule) && WellFormed(m.table)
    ensures forall o :: o in repl <==> o in RuleOrigs(m.text, rule)
    ensures forall o | o in repl :: IsToken(repl[o])
    ensures Tokens(RuleSpec(m, rule, draws).text) == Woven(Parse(m.text), rule, repl)
  {
    hide RuleSpec, SubDoc, Woven, TokenFree, IsToken, Parse, Tokens;
    repl := RuleShape(m, rule, draws);
    SubDocTokens(Parse(m.text), rule, repl);
    TokensParse(RuleSpec(m, rule, draws).text);
  }

  function Placed(matches: seq<Match>): set<string> {
    set x | x in matches :: x.placeholder
  }

  /** The placeholders of b are those of a, in order, with those of the matches in between; each match has put one in. */
  predicate Holds(a: string, b: string, matches: seq<Match>) {
    Interleaved(Tokens(a), Tokens(b), Placed(matches)) && forall x | x in matches :: x.placeholder in Tokens(b)
  }

  /** What one rule reports: its originals in order, each with the placeholder it puts into the text. */
  lemma RuleReports(m: Masking, rule: Rule, draws: Draws) returns (added: seq<Match>)
    requires GoodRule(rule) && WellFormed(m.table)
    ensures var n, origs := RuleSpec(m, rule, draws), RuleOrigs(m.text, rule);
            && n.matches == m.matches + added && Holds(m.text, n.text, added) && |added| == |origs|
            && forall i | 0 <= i < |origs| ::
                 origs[i] in n.table.forward && added[i] == Match(rule.tag, origs[i], n.table.forward[origs[i]])
  {
    hide SubDoc, Woven, TokenFree, IsToken, Parse, Tokens, WellFormed, RecallAll, RuleOrigs;
    var n, origs := RuleSpec(m, rule, draws), RuleOrigs(m.text, rule);
    RuleOrigsTokenFree(m.text, rule);
    var repl := RuleShape(m, rule, draws);
    added := [];
    if origs != [] {
      added := RecallAllReports(origs, rule.tag, draws, Minted(map[], m.table, m.pos, m.matches));
    }
    TokensParse(m.text);
    TokensParse(n.text);
    SubDocTokens(Parse(m.text), rule, repl);
    hide RuleSpec;
    ReportedIsPlaced(origs, repl, n.table, added);
    WovenInterleaves(Parse(m.text), rule, repl);
    forall x | x in added ensures x.placeholder in Tokens(n.text) {
      assert x.original in repl && x.placeholder == repl[x.original];
      OrigIsWoven(m.text, rule, repl, x.original);
    }
  }

  lemma ReportedIsPlaced(origs: seq<string>, repl: Repl, table: Table, added: seq<Match>)
    requires (forall o :: o in repl <==> o in origs) && forall o | o in repl :: o in table.forward && table.forward[o] == repl[o]
    requires |added| == |origs| && forall i | 0 <= i < |origs| ::
               added[i].original == origs[i] && origs[i] in table.forward && added[i].placeholder == table.forward[origs[i]]
    ensures Placed(added) == repl.Values && forall x | x in added :: x.original in repl && x.placeholder == repl[x.original]
  {
    forall t | t in repl.Values ensures t in Placed(added) {
      var o :| o in repl && repl[o] == t;
      var i :| 0 <= i < |origs| && origs[i] == o;
      assert added[i] in added;
    }
  }

  lemma OrigIsWoven(text: string, rule: Rule, repl: Repl, o: string)
    requires GoodRule(rule) && o in RuleOrigs(text, rule) && o in repl
    ensures repl[o] in Woven(Parse(text), rule, repl)
  {
    CollectedAreWoven(Parse(text), rule, [], repl, o);
  }

  lemma HoldsTrans(a: string, b: string, c: string, x: seq<Match>, y: seq<Match>)
    requires Holds(a, b, x) && Holds(b, c, y)
    ensures Holds(a, c, x + y)
  {
    hide Tokens, Interleaved;
    InterleavedTrans(Tokens(a), Tokens(b), Tokens(c), Placed(x), Placed(y));
    InterleavedHolds(Tokens(b), Tokens(c), Placed(y));
    assert Placed(x + y) == Placed(x) + Placed(y);
  }

  lemma HoldsSame(a: string)
    ensures Holds(a, a, [])
  {
    hide Tokens;
    InterleavedSame(Tokens(a));
    assert Placed([]) == {};
  }

  /** A whole run: the output's placeholders are the input's, in order, and those of the matches the run appended. */
  lemma {:induction false} RunTokens(m: Masking, rules: seq<Rule>, draws: Draws) returns (added: seq<Match>)
    requires GoodRules(rules) && WellFormed(m.table)
    ensures RunRules(m, rules, draws).matches == m.matches + added
    ensures Holds(m.text, RunRules(m, rules, draws).text, added)
    decreases |rules|
  {
    hide RuleSpec, WellFormed, Tokens, Holds;
    HoldsSame(m.text);
    added := [];
    if rules != [] {
      var first: seq<Match> := [];
      var next := m;
      if rules[0].mayHit(m.text) {
        next := RuleSpec(m, rules[0], draws);
        first := RuleReports(m, rules[0], draws);
        var _ := RuleShape(m, rules[0], draws);
      }
      var rest := RunTokens(next, rules[1..], draws);
      added := first + rest;
      AppendAssoc(m.matches, first, rest);
      HoldsTrans(m.text, next.text, RunRules(m, rules, draws).text, first, rest);
    }
  }

  /** After masking, the placeholders found are exactly the old ones and the reported ones. */
  lemma RunTokensExact(m: Masking, rules: seq<Rule>, draws: Draws)
    requires GoodRules(rules) && WellFormed(m.table)
    ensures var n := RunRules(m, rules, draws);
            && m.matches <= n.matches
            && forall t :: t in Tokens(n.text) <==> t in Tokens(m.text) || t in Placed(n.matches[|m.matches|..])
  {
    hide RunRules, WellFormed, Tokens, Interleaved;
    var n := RunRules(m, rules, draws);
    var added := RunTokens(m, rules, draws);
    InterleavedHolds(Tokens(m.text), Tokens(n.text), Placed(added));
    assert n.matches[|m.matches|..] == added;
  }

  // ---- the order of the terms ----

  ghost predicate LongestFirst(ts: seq<CustomTerm>) {
    forall i, j | 0 <= i < j < |ts| :: |ts[i].value| >= |ts[j].value|
  }

  /** The terms of one length, in their order. */
  function OfLength(ts: seq<CustomTerm>, n: nat): seq<CustomTerm> {
    if ts == [] then [] else (if |ts[0].value| == n then [ts[0]] else []) + OfLength(ts[1..], n)
  }

  lemma OfLengthCons(t: CustomTerm, ts: seq<CustomTerm>, n: nat)
    ensures OfLength([t] + ts, n) == if |t.value| == n then [t] + OfLength(ts, n) else OfLength(ts, n)
  {
    assert ([t] + ts)[1..] == ts;
  }

  lemma {:induction false} InsertTermSorted(t: CustomTerm, ts: seq<CustomTerm>)
    requires LongestFirst(ts)
    ensures LongestFirst(InsertTerm(t, ts)) && multiset(InsertTerm(t, ts)) == multiset(ts) + multiset{t}
  {
    if ts != [] && |ts[0].value| > |t.value| {
      InsertTermSorted(t, ts[1..]);
      var r := InsertTerm(t, ts[1..]);
      assert ts == [ts[0]] + ts[1..];
      forall x | x in r ensures |x.value| <= |ts[0].value| {
        assert x in multiset(r);
        assert x in ts[1..] || x == t;
      }
    }
  }

  /** A term goes before the others of its length and leaves the order of all other lengths alone. */
  lemma {:induction false} InsertTermStable(t: CustomTerm, ts: seq<CustomTerm>, n: nat)
    ensures OfLength(InsertTerm(t, ts), n) == if |t.value| == n then [t] + OfLength(ts, n) else OfLength(ts, n)
  {
    if ts == [] || |ts[0].value| <= |t.value| {
      OfLengthCons(t, ts, n);
    } else {
      InsertTermStable(t, ts[1..], n);
      OfLengthCons(ts[0], InsertTerm(t, ts[1..]), n);
      OfLengthCons(ts[0], ts[1..], n);
      assert ts == [ts[0]] + ts[1..];
      assert |ts[0].value| == n ==> |t.value| != n;
    }
  }

  lemma {:induction false} SortTermsStable(ts: seq<CustomTerm>, n: nat)
    ensures OfLength(SortTerms(ts), n) == OfLength(ts, n)
  {
    hide InsertTerm;
    if ts != [] {
      SortTermsStable(ts[1..], n);
      InsertTermStable(ts[0], SortTerms(ts[1..]), n);
    }
  }

  /** Longer terms go first, terms of equal length keep their order, none is lost or added. */
  lemma {:induction false} SortTermsSorted(ts: seq<CustomTerm>)
    ensures LongestFirst(SortTerms(ts)) && multiset(SortTerms(ts)) == multiset(ts)
    ensures forall n :: OfLength(SortTerms(ts), n) == OfLength(ts, n)
  {
    hide OfLength, InsertTerm;
    forall n ensures OfLength(SortTerms(ts), n) == OfLength(ts, n) {
      SortTermsStable(ts, n);
    }
    if ts != [] {
      SortTermsSorted(ts[1..]);
      InsertTermSorted(ts[0], SortTerms(ts[1..]));
      assert ts == [ts[0]] + ts[1..];
    }
  }

  lemma {:induction false} TermHasRule(ts: seq<CustomTerm>, t: CustomTerm)
    requires t in ts && t.value != ""
    ensures TermRule(t.value) in TermRules(ts)
  {
    if ts[0] != t {
      TermHasRule(ts[1..], t);
    }
  }

  /** No custom term is left in literal text; of one matched between word boundaries, only what stands at the end of a
      literal can look like it. */
  lemma MaskingIsComplete(m: Masking, builtin: seq<Rule>, enabled: set<string>, terms: seq<CustomTerm>, draws: Draws, t: CustomTerm)
    requires GoodRules(builtin) && WellFormed(m.table)
    requires t in terms && t.value != ""
    ensures TermFree(Parse(RunRules(m, Pipeline(builtin, enabled, terms), draws).text), t.value)
  {
    hide WellFormed, RunRules, TermFree, Parse, TermRule;
    SortTermsSorted(terms);
    assert t in multiset(SortTerms(terms));
    TermHasRule(SortTerms(terms), t);
    assert TermRule(t.value) in Pipeline(builtin, enabled, terms);
    RunTermFree(m, Pipeline(builtin, enabled, terms), draws, t.value);
  }

  lemma NoHitNoChange(m: Masking, rule: Rule, draws: Draws)
    requires GoodRule(rule) && RuleOrigs(m.text, rule) == []
    ensures RuleSpec(m, rule, draws) == m
  {
    hide RuleOrigs, SubDoc, RecallAll;
  }

  // ---- the engine's loops ----

  datatype Span = Span(start: nat, end: nat)

  /** All placeholder matches of `s` from offset `at` on. */
  function TokenSpans(s: string, at: nat): (r: seq<Span>)
    requires at <= |s|
    decreases |s| - at
  {
    var n := TokenLen(s[at..]);
    if at == |s| then []
    else if n > 0 then [Span(at, at + n)] + TokenSpans(s, at + n)
    else TokenSpans(s, at + 1)
  }

  lemma ParseAt(s: string, at: nat)
    requires at < |s|
    ensures var n := TokenLen(s[at..]);
            Parse(s[at..]) == if n > 0 then Node("", s[at..at + n], Parse(s[at + n..])) else Prepend(s[at], Parse(s[at + 1..]))
  {
    hide TokenLen;
    var n := TokenLen(s[at..]);
    assert s[at..][1..] == s[at + 1..];
    assert s[at..][n..] == s[at + n..] && s[at..][..n] == s[at..at + n];
  }

  lemma PrependSlice(s: string, at: nat, end: nat)
    requires at < end <= |s|
    ensures [s[at]] + s[at + 1..end] == s[at..end]
  {
  }

  lemma SpansAt(s: string, at: nat)
    requires at < |s|
    ensures var n := TokenLen(s[at..]);
            if n > 0 then
              at + n <= |s| && TokenSpans(s, at) != [] && TokenSpans(s, at)[0] == Span(at, at + n)
              && TokenSpans(s, at)[1..] == TokenSpans(s, at + n)
            else TokenSpans(s, at) == TokenSpans(s, at + 1)
  {
    hide TokenLen;
  }

  /** The spans from an offset on are the document's placeholders: the first one ends the first literal. */
  predicate SpanView(s: string, at: nat, spans: seq<Span>)
    requires at <= |s|
  {
    if spans == [] then Parse(s[at..]) == End(s[at..])
    else
      && at <= spans[0].start < spans[0].end <= |s|
      && spans[1..] == TokenSpans(s, spans[0].end)
      && Parse(s[at..]) == Node(s[at..spans[0].start], s[spans[0].start..spans[0].end], Parse(s[spans[0].end..]))
  }

  lemma SpanPrepend(s: string, at: nat, spans: seq<Span>)
    requires at < |s| && SpanView(s, at + 1, spans) && Parse(s[at..]) == Prepend(s[at], Parse(s[at + 1..]))
    ensures SpanView(s, at, spans)
  {
    hide Parse, TokenSpans;
    if spans == [] {
      PrependSlice(s, at, |s|);
      assert s[at..|s|] == s[at..] && s[at + 1..|s|] == s[at + 1..];
    } else {
      PrependSlice(s, at, spans[0].start);
    }
  }

  lemma SpanHere(s: string, at: nat)
    requires at < |s| && TokenLen(s[at..]) > 0
    ensures SpanView(s, at, TokenSpans(s, at))
  {
    hide TokenLen, Parse, TokenSpans, SpanView;
    SpansAt(s, at);
    ParseAt(s, at);
    var n := TokenLen(s[at..]);
    SpanFirst(s, at, at + n, TokenSpans(s, at));
  }

  lemma SpanFirst(s: string, at: nat, end: nat, spans: seq<Span>)
    requires at < end <= |s| && spans != [] && spans[0] == Span(at, end) && spans[1..] == TokenSpans(s, end)
    requires Parse(s[at..]) == Node("", s[at..end], Parse(s[end..]))
    ensures SpanView(s, at, spans)
  {
    hide Parse, TokenSpans;
    assert s[at..at] == "";
  }

  lemma {:induction false} SpanParse(s: string, at: nat)
    requires at <= |s|
    ensures SpanView(s, at, TokenSpans(s, at))
    decreases |s| - at
  {
    if at == |s| {
      assert s[at..] == "";
      ParseEmpty();
    } else if TokenLen(s[at..]) > 0 {
      SpanHere(s, at);
    } else {
      SpansAt(s, at);
      ParseAt(s, at);
      hide TokenLen, Parse, TokenSpans, SpanView;
      SpanParse(s, at + 1);
      SpanPrepend(s, at, TokenSpans(s, at + 1));
    }
  }

  function NonEmpty(segs: seq<string>): seq<string> {
    if segs == [] then []
    else (if segs[0] == "" then [] else [segs[0]]) + NonEmpty(segs[1..])
  }

  lemma {:induction false} EmptySegmentCollects(locs: seq<Loc>, rule: Rule, acc: seq<string>)
    requires ValidLocs(locs, 0, 0)
    ensures CollectLocs("", locs, 0, rule, acc) == acc
    decreases |locs|
  {
    if locs != [] {
      EmptySegmentCollects(locs[1..], rule, acc);
    }
  }

  lemma {:induction false} CollectNonEmpty(segs: seq<string>, rule: Rule, acc: seq<string>)
    requires GoodRule(rule)
    ensures CollectAll(NonEmpty(segs), rule, acc) == CollectAll(segs, rule, acc)
    decreases |segs|
  {
    hide CollectLocs;
    if segs != [] {
      CollectNonEmpty(segs[1..], rule, CollectLocs(segs[0], rule.find(segs[0]), 0, rule, acc));
      if segs[0] == "" {
        EmptySegmentCollects(rule.find(""), rule, acc);
        assert NonEmpty(segs) == NonEmpty(segs[1..]);
      } else {
        var rest := NonEmpty(segs[1..]);
        assert NonEmpty(segs) == [segs[0]] + rest && ([segs[0]] + rest)[1..] == rest;
      }
    }
  }

  /** Literal segments still to come from offset `at` on. */
  function SegmentsFrom(text: string, at: nat): seq<string>
    requires at <= |text|
  {
    NonEmpty(DocLits(Parse(text[at..])))
  }

  lemma SegmentsStep(text: string, at: nat)
    requires at <= |text|
    ensures var spans := TokenSpans(text, at);
            if spans == [] then SegmentsFrom(text, at) == if at < |text| then [text[at..]] else []
            else
              && at <= spans[0].start < spans[0].end <= |text| && spans[1..] == TokenSpans(text, spans[0].end)
              && SegmentsFrom(text, at) ==
                 (if spans[0].start > at then [text[at..spans[0].start]] else []) + SegmentsFrom(text, spans[0].end)
  {
    hide TokenLen, Parse, TokenSpans;
    SpanParse(text, at);
    if TokenSpans(text, at) == [] {
      assert NonEmpty([text[at..]][1..]) == [];
    }
  }

  /** The literal stretches of a non-empty text, empty ones left out. */
  method NonPlaceholderSegments(text: string) returns (segs: seq<string>)
    requires text != ""
    ensures segs == NonEmpty(DocLits(Parse(text)))
  {
    hide TokenLen, Parse, NonEmpty, TokenSpans, SegmentsFrom;
    var locs := TokenSpans(text, 0);
    WholeText(text);
    SegmentsStep(text, 0);
    if |locs| == 0 {
      return [text];
    }
    segs := [];
    var lastEnd: nat := 0;
    var i := 0;
    while i < |locs|
      invariant i <= |locs| && lastEnd <= |text|
      invariant locs[i..] == TokenSpans(text, lastEnd)
      invariant segs + SegmentsFrom(text, lastEnd) == SegmentsFrom(text, 0)
    {
      SegmentsStep(text, lastEnd);
      var loc := locs[i];
      assert locs[i..][0] == loc && locs[i..][1..] == locs[i + 1..];
      if loc.start > lastEnd {
        segs := segs + [text[lastEnd..loc.start]];
      }
      lastEnd := loc.end;
      i := i + 1;
    }
    SegmentsStep(text, lastEnd);
    if lastEnd < |text| {
      segs := segs + [text[lastEnd..]];
    }
  }

  lemma WholeText(text: string)
    ensures text[0..] == text && SegmentsFrom(text, 0) == NonEmpty(DocLits(Parse(text)))
  {
    assert text[0..] == text;
  }

  lemma {:induction false} RenderChain(d: Doc, t: string, r: Doc)
    ensures Render(Chain(d, t, r)) == Render(d) + t + Render(r)
  {
    if d.Node? {
      RenderChain(d.rest, t, r);
      var a, b := d.lit + d.tok, Render(d.rest);
      assert a + (b + t + Render(r)) == (a + b) + t + Render(r);
    }
  }

  function ReplacedFrom(text: string, at: nat, rule: Rule, repl: Repl): string
    requires at <= |text| && GoodRule(rule)
  {
    Render(SubDoc(Parse(text[at..]), rule, repl))
  }

  lemma ReplacedStep(text: string, at: nat, rule: Rule, repl: Repl)
    requires at <= |text| && GoodRule(rule)
    ensures var spans := TokenSpans(text, at);
            if spans == [] then ReplacedFrom(text, at, rule, repl) == Render(SubSegment(text[at..], rule, repl))
            else
              && at <= spans[0].start < spans[0].end <= |text| && spans[1..] == TokenSpans(text, spans[0].end)
              && ReplacedFrom(text, at, rule, repl) ==
                 Render(SubSegment(text[at..spans[0].start], rule, repl)) + text[spans[0].start..spans[0].end]
                 + ReplacedFrom(text, spans[0].end, rule, repl)
  {
    hide TokenLen, Parse, TokenSpans, SubSegment, Render;
    SpanParse(text, at);
    var spans := TokenSpans(text, at);
    if spans != [] {
      var loc := spans[0];
      RenderChain(SubSegment(text[at..loc.start], rule, repl), text[loc.start..loc.end],
                  SubDoc(Parse(text[loc.end..]), rule, repl));
    }
  }

  /** Rewrites a text around its placeholders. */
  method ReplaceExcludingPlaceholders(text: string, rule: Rule, repl: Repl) returns (out: string)
    requires GoodRule(rule)
    ensures out == Render(SubDoc(Parse(text), rule, repl))
  {
    hide TokenLen, Parse, TokenSpans, SubSegment, Render, SubDoc, ReplacedFrom;
    WholeReplaced(text, rule, repl);
    if text == "" {
      EmptyReplaced(rule, repl);
      return "";
    }
    var locs := TokenSpans(text, 0);
    ReplacedStep(text, 0, rule, repl);
    if |locs| == 0 {
      out := ApplyRuleSub(text, rule, repl);
      return;
    }
    out := "";
    var lastEnd: nat := 0;
    var i := 0;
    while i < |locs|
      invariant i <= |locs| && lastEnd <= |text|
      invariant locs[i..] == TokenSpans(text, lastEnd)
      invariant out + ReplacedFrom(text, lastEnd, rule, repl) == ReplacedFrom(text, 0, rule, repl)
    {
      ReplacedStep(text, lastEnd, rule, repl);
      var loc := locs[i];
      assert locs[i..][0] == loc && locs[i..][1..] == locs[i + 1..];
      var sub := ApplyRuleSub(text[lastEnd..loc.start], rule, repl);
      AppendThree(out, sub, text[loc.start..loc.end], ReplacedFrom(text, loc.end, rule, repl));
      out := out + sub + text[loc.start..loc.end];
      lastEnd := loc.end;
      i := i + 1;
    }
    ReplacedStep(text, lastEnd, rule, repl);
    var sub := ApplyRuleSub(text[lastEnd..], rule, repl);
    out := out + sub;
  }

  lemma WholeReplaced(text: string, rule: Rule, repl: Repl)
    requires GoodRule(rule)
    ensures text[0..] == text && ReplacedFrom(text, 0, rule, repl) == Render(SubDoc(Parse(text), rule, repl))
  {
    assert text[0..] == text;
  }

  lemma EmptyReplaced(rule: Rule, repl: Repl)
    requires GoodRule(rule)
    ensures Render(SubDoc(Parse(""), rule, repl)) == ""
  {
  }

  lemma SkipRender(seg: string, from: nat, to: nat, d: Doc)
    requires from <= to <= |seg|
    ensures Render(SkipMatch(seg, from, to, d)) == seg[from..to] + Render(d)
  {
    if d.Node? {
      var tail := d.tok + Render(d.rest);
      assert seg[from..to] + d.lit + d.tok + Render(d.rest) == seg[from..to] + (d.lit + d.tok + Render(d.rest));
    }
  }

  /** One match as it is written out: kept whole, or with its listed capture replaced. */
  function RewrittenMatch(seg: string, l: Loc, group: nat, repl: Repl): string
    requires 0 <= l.start <= l.end <= |seg| && (l.gs < 0 || l.ge < 0 || l.start <= l.gs <= l.ge <= l.end)
  {
    var orig := Capture(seg, l, group);
    if orig !in repl then seg[l.start..l.end]
    else if group == 0 then repl[orig]
    else seg[l.start..l.gs] + repl[orig] + seg[l.ge..l.end]
  }

  /** What is still to be written of a segment once everything before `from` is out. */
  lemma SubLocsStep(seg: string, locs: seq<Loc>, from: nat, group: nat, repl: Repl)
    requires ValidLocs(locs, from, |seg|) && locs != []
    ensures var l := locs[0];
            Render(SubLocs(seg, locs, from, group, repl)) ==
              seg[from..l.start] + RewrittenMatch(seg, l, group, repl) + Render(SubLocs(seg, locs[1..], l.end, group, repl))
  {
    hide Render;
    var l := locs[0];
    var orig := Capture(seg, l, group);
    var rest := SubLocs(seg, locs[1..], l.end, group, repl);
    if orig in repl {
      var gs, ge := if group == 0 then l.start else l.gs, if group == 0 then l.end else l.ge;
      SkipRender(seg, ge, l.end, rest);
      RenderNode(seg[from..gs], repl[orig], SkipMatch(seg, ge, l.end, rest));
      assert seg[from..gs] == seg[from..l.start] + seg[l.start..gs];
      assert group == 0 ==> seg[ge..l.end] == "";
    } else {
      SkipRender(seg, from, l.end, rest);
      assert seg[from..l.end] == seg[from..l.start] + seg[l.start..l.end];
    }
  }

  lemma RenderNode(l: string, t: string, r: Doc)
    ensures Render(Node(l, t, r)) == l + t + Render(r)
  {
  }

  /** Replaces the listed captures of one placeholder-free segment. */
  method ApplyRuleSub(segment: string, rule: Rule, repl: Repl) returns (out: string)
    requires GoodRule(rule)
    ensures out == Render(SubSegment(segment, rule, repl))
  {
    hide Render, SubLocs, RewrittenMatch;
    if segment == "" {
      EmptyRender();
      return "";
    }
    var locs := rule.find(segment);
    if |locs| == 0 {
      WholeRender(segment, rule.group, repl);
      return segment;
    }
    out := "";
    var lastEnd: nat := 0;
    var i := 0;
    while i < |locs|
      invariant i <= |locs| && lastEnd <= |segment|
      invariant ValidLocs(locs[i..], lastEnd, |segment|)
      invariant out + Render(SubLocs(segment, locs[i..], lastEnd, rule.group, repl))
             == Render(SubLocs(segment, locs, 0, rule.group, repl))
    {
      var loc := locs[i];
      assert locs[i..][0] == loc && locs[i..][1..] == locs[i + 1..];
      SubLocsStep(segment, locs[i..], lastEnd, rule.group, repl);
      var piece;
      var orig := Capture(segment, loc, rule.group);
      if orig !in repl {
        piece := segment[loc.start..loc.end];
      } else if rule.group == 0 {
        piece := repl[orig];
      } else {
        piece := segment[loc.start..loc.gs] + repl[orig] + segment[loc.ge..loc.end];
      }
      RewrittenIs(segment, loc, rule.group, repl, piece);
      AppendThree(out, segment[lastEnd..loc.start], piece, Render(SubLocs(segment, locs[i + 1..], loc.end, rule.group, repl)));
      out := out + segment[lastEnd..loc.start] + piece;
      lastEnd := loc.end;
      i := i + 1;
    }
    TailRender(segment, lastEnd, rule.group, repl);
    out := out + segment[lastEnd..];
  }

  lemma RewrittenIs(seg: string, l: Loc, group: nat, repl: Repl, piece: string)
    requires 0 <= l.start <= l.end <= |seg| && (l.gs < 0 || l.ge < 0 || l.start <= l.gs <= l.ge <= l.end)
    requires var orig := Capture(seg, l, group);
             piece == if orig !in repl then seg[l.start..l.end]
                      else if group == 0 then repl[orig]
                      else seg[l.start..l.gs] + repl[orig] + seg[l.ge..l.end]
    ensures piece == RewrittenMatch(seg, l, group, repl)
  {
  }

  lemma EmptyRender()
    ensures Render(End("")) == ""
  {
  }

  lemma TailRender(seg: string, from: nat, group: nat, repl: Repl)
    requires from <= |seg|
    ensures Render(SubLocs(seg, [], from, group, repl)) == seg[from..]
  {
  }

  lemma WholeRender(seg: string, group: nat, repl: Repl)
    ensures Render(SubLocs(seg, [], 0, group, repl)) == seg
  {
    assert seg[0..] == seg;
  }

  /** Pass 1: the distinct originals, in order of first appearance. */
  method CollectOriginals(text: string, rule: Rule) returns (uniqueOrig: seq<string>)
    requires GoodRule(rule) && text != ""
    ensures uniqueOrig == RuleOrigs(text, rule)
  {
    hide Parse, CollectLocs;
    uniqueOrig := [];
    var segs := NonPlaceholderSegments(text);
    CollectNonEmpty(DocLits(Parse(text)), rule, []);
    var i := 0;
    while i < |segs|
      invariant i <= |segs|
      invariant CollectAll(segs[i..], rule, uniqueOrig) == CollectAll(segs, rule, [])
    {
      var seg := segs[i];
      assert segs[i..][0] == seg && segs[i..][1..] == segs[i + 1..];
      uniqueOrig := CollectSegment(seg, rule, uniqueOrig);
      i := i + 1;
    }
  }

  method CollectSegment(seg: string, rule: Rule, acc: seq<string>) returns (uniqueOrig: seq<string>)
    requires GoodRule(rule)
    ensures uniqueOrig == CollectLocs(seg, rule.find(seg), 0, rule, acc)
  {
    uniqueOrig := acc;
    var locs := rule.find(seg);
    var from := 0;
    var j := 0;
    while j < |locs|
      invariant j <= |locs| && 0 <= from && ValidLocs(locs[j..], from, |seg|)
      invariant CollectLocs(seg, locs[j..], from, rule, uniqueOrig) == CollectLocs(seg, locs, 0, rule, acc)
    {
      assert locs[j..][0] == locs[j] && locs[j..][1..] == locs[j + 1..];
      var orig := Capture(seg, locs[j], rule.group);
      if orig != "" && rule.accepts(orig) {
        if orig !in uniqueOrig {
          uniqueOrig := uniqueOrig + [orig];
        }
      }
      from := locs[j].end;
      j := j + 1;
    }
  }

  /** Applies one rule to a text: collect, recall, replace. */
  method ApplyRule(text: string, rule: Rule, mapping: Mapping, source: SuffixSource, matches: seq<Match>)
    returns (out: string, hits: seq<Match>)
    requires GoodRule(rule)
    modifies mapping, source
    ensures Masking(out, mapping.View(), source.pos, hits)
         == RuleSpec(Masking(text, old(mapping.View()), old(source.pos), matches), rule, source.draws)
  {
    hide Parse, SubDoc, Render, CollectAll;
    if text == "" {
      return text, matches;
    }
    var uniqueOrig := CollectOriginals(text, rule);
    if |uniqueOrig| == 0 {
      return text, matches;
    }
    var replMap;
    replMap, hits := RecallOriginals(uniqueOrig, rule.tag, mapping, source, matches);
    out := ReplaceExcludingPlaceholders(text, rule, replMap);
  }

  method RecallOriginals(origs: seq<string>, tag: string, mapping: Mapping, source: SuffixSource, matches: seq<Match>)
    returns (replMap: map<string, string>, hits: seq<Match>)
    modifies mapping, source
    ensures Minted(replMap, mapping.View(), source.pos, hits)
         == RecallAll(origs, tag, source.draws, Minted(map[], old(mapping.View()), old(source.pos), matches))
  {
    hide RecallSpec;
    replMap, hits := map[], matches;
    var i := 0;
    while i < |origs|
      invariant i <= |origs|
      invariant RecallAll(origs[i..], tag, source.draws, Minted(replMap, mapping.View(), source.pos, hits))
             == RecallAll(origs, tag, source.draws, Minted(map[], old(mapping.View()), old(source.pos), matches))
    {
      assert origs[i..][0] == origs[i] && origs[i..][1..] == origs[i + 1..];
      var ph := mapping.Recall(origs[i], tag, source);
      replMap := replMap[origs[i] := ph];
      hits := hits + [Match(tag, origs[i], ph)];
      i := i + 1;
    }
  }

  class Engine {
    const rules: seq<Rule>

    constructor (rules: seq<Rule>)
      ensures this.rules == rules
    {
      this.rules := rules;
    }

    /** Masks a body: custom terms longest first, then the enabled built-in rules whose pre-check passes. */
    method Apply(body: string, mapping: Mapping, source: SuffixSource, enabledRules: set<string>, terms: seq<CustomTerm>)
      returns (masked: string, matches: seq<Match>)
      requires GoodRules(rules)
      modifies mapping, source
      ensures Masking(masked, mapping.View(), source.pos, matches)
           == RunRules(Masking(body, old(mapping.View()), old(source.pos), []), Pipeline(rules, enabledRules, terms), source.draws)
    {
      hide RuleSpec, RunRules, TermRules, EnabledRules;
      if body == "" {
        EmptyBodyRuns(Masking(body, mapping.View(), source.pos, []), Pipeline(rules, enabledRules, terms), source.draws);
        return body, [];
      }
      ghost var builtin := EnabledRules(rules, enabledRules);
      masked, matches := ApplyTerms(body, mapping, source, SortTerms(terms), builtin);
      masked, matches := ApplyEnabled(masked, mapping, source, enabledRules, matches);
    }

    /** First stage; `later` is what the second stage will run. */
    method ApplyTerms(body: string, mapping: Mapping, source: SuffixSource, sortedTerms: seq<CustomTerm>, ghost later: seq<Rule>)
      returns (masked: string, matches: seq<Match>)
      requires GoodRules(later)
      modifies mapping, source
      ensures RunRules(Masking(masked, mapping.View(), source.pos, matches), later, source.draws)
           == RunRules(Masking(body, old(mapping.View()), old(source.pos), []), TermRules(sortedTerms) + later, source.draws)
    {
      hide RuleSpec, RunRules, TermRules, TermRule;
      masked, matches := body, [];
      AllTermRules(sortedTerms, later);
      ghost var goal := RunRules(Masking(body, mapping.View(), source.pos, []), TermRules(sortedTerms) + later, source.draws);
      var i := 0;
      while i < |sortedTerms|
        invariant i <= |sortedTerms|
        invariant GoodRules(TermsFrom(sortedTerms, i, later))
        invariant RunRules(Masking(masked, mapping.View(), source.pos, matches), TermsFrom(sortedTerms, i, later), source.draws) == goal
      {
        var t := sortedTerms[i];
        TermsFromStep(sortedTerms, i, later);
        if t.value != "" {
          RunRulesHead(Masking(masked, mapping.View(), source.pos, matches), TermRule(t.value),
                       TermsFrom(sortedTerms, i + 1, later), source.draws);
          TermAlwaysRuns(t.value);
          masked, matches := ApplyRule(masked, TermRule(t.value), mapping, source, matches);
        }
        i := i + 1;
      }
    }

    /** Second stage: the enabled built-in rules in order. */
    method ApplyEnabled(body: string, mapping: Mapping, source: SuffixSource, enabledRules: set<string>, before: seq<Match>)
      returns (masked: string, matches: seq<Match>)
      requires GoodRules(rules)
      modifies mapping, source
      ensures Masking(masked, mapping.View(), source.pos, matches)
           == RunRules(Masking(body, old(mapping.View()), old(source.pos), before), EnabledRules(rules, enabledRules), source.draws)
    {
      hide RuleSpec, RunRules;
      masked, matches := body, before;
      var i := 0;
      while i < |rules|
        invariant i <= |rules|
        invariant RunRules(Masking(masked, mapping.View(), source.pos, matches), EnabledRules(rules[i..], enabledRules), source.draws)
               == RunRules(Masking(body, old(mapping.View()), old(source.pos), before), EnabledRules(rules, enabledRules), source.draws)
      {
        var rule := rules[i];
        assert rules[i..][0] == rule && rules[i..][1..] == rules[i + 1..];
        ghost var rest := EnabledRules(rules[i + 1..], enabledRules);
        if rule.tag in enabledRules {
          assert EnabledRules(rules[i..], enabledRules) == [rule] + rest;
          RunRulesHead(Masking(masked, mapping.View(), source.pos, matches), rule, rest, source.draws);
          if rule.mayHit(masked) {
            masked, matches := ApplyRule(masked, rule, mapping, source, matches);
          }
        } else {
          assert EnabledRules(rules[i..], enabledRules) == rest;
        }
        i := i + 1;
      }
      NothingLeft(Masking(masked, mapping.View(), source.pos, matches), rules[i..], enabledRules, source.draws);
    }
  }

  function TermsFrom(ts: seq<CustomTerm>, i: nat, later: seq<Rule>): (r: seq<Rule>)
    requires i <= |ts|
    ensures i == |ts| ==> r == later
  {
    TermRules(ts[i..]) + later
  }

  lemma TermsFromStep(ts: seq<CustomTerm>, i: nat, later: seq<Rule>)
    requires i < |ts|
    ensures var rest := TermsFrom(ts, i + 1, later);
            TermsFrom(ts, i, later) == if ts[i].value == "" then rest else [TermRule(ts[i].value)] + rest
  {
    assert ts[i..][0] == ts[i] && ts[i..][1..] == ts[i + 1..];
  }

  lemma AllTermRules(ts: seq<CustomTerm>, later: seq<Rule>)
    ensures TermsFrom(ts, 0, later) == TermRules(ts) + later
  {
    assert ts[0..] == ts;
  }

  lemma TermAlwaysRuns(v: string)
    requires v != ""
    ensures forall text :: TermRule(v).mayHit(text)
  {
  }

  lemma NothingLeft(m: Masking, rules: seq<Rule>, enabled: set<string>, draws: Draws)
    requires rules == []
    ensures RunRules(m, EnabledRules(rules, enabled), draws) == m
  {
  }

  lemma RunRulesHead(m: Masking, rule: Rule, rest: seq<Rule>, draws: Draws)
    requires GoodRule(rule) && GoodRules(rest)
    ensures GoodRules([rule] + rest)
    ensures RunRules(m, [rule] + rest, draws)
         == RunRules(if rule.mayHit(m.text) then RuleSpec(m, rule, draws) else m, rest, draws)
  {
    assert ([rule] + rest)[1..] == rest;
  }

  lemma {:induction false} EmptyBodyRuns(m: Masking, rules: seq<Rule>, draws: Draws)
    requires GoodRules(rules) && m.text == ""
    ensures RunRules(m, rules, draws) == m
    decreases |rules|
  {
    if rules != [] {
      EmptyBodyRuns(m, rules[1..], draws);
    }
  }
}
