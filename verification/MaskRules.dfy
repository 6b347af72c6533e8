/** What one masking rule does to a document: the specification the engine's loops are proved against. */
module MaskRules {
  import opened Collections
  import opened Placeholder
  import opened Restore
  import opened MaskSession
  import opened MaskDocument

  /** One regular-expression match: the whole match, and the range of the rule's capture group
      (negative when the group took no part). */
  datatype Loc = Loc(start: int, end: int, gs: int, ge: int)

  /** A rule: placeholder label, match finder, capture group (0 for the whole match), validator, cheap pre-check. */
  datatype Rule = Rule(tag: string, find: string -> seq<Loc>, group: nat, accepts: string -> bool, mayHit: string -> bool)

  /** What a regular-expression library promises of all matches in a text: in bounds, in order, disjoint,
      groups inside their match. */
  predicate ValidLocs(locs: seq<Loc>, from: int, n: nat)
    decreases |locs|
  {
    if locs == [] then from <= n
    else
      var l := locs[0];
      && from <= l.start <= l.end <= n
      && (l.gs < 0 || l.ge < 0 || l.start <= l.gs <= l.ge <= l.end)
      && ValidLocs(locs[1..], l.end, n)
  }

  ghost predicate GoodRule(rule: Rule) {
    forall s :: ValidLocs(rule.find(s), 0, |s|)
  }

  function Capture(seg: string, l: Loc, group: nat): string
    requires 0 <= l.start <= l.end <= |seg|
    requires l.gs < 0 || l.ge < 0 || l.start <= l.gs <= l.ge <= l.end
  {
    if group == 0 then seg[l.start..l.end]
    else if l.gs < 0 || l.ge < 0 then ""
    else seg[l.gs..l.ge]
  }

  // ---- pass 1: the originals a rule hits ----

  function AddUnique(acc: seq<string>, o: string): seq<string> {
    if o in acc then acc else acc + [o]
  }

  /** Originals captured in one segment, appended to `acc` once each in order of first appearance. */
  function CollectLocs(seg: string, locs: seq<Loc>, from: int, rule: Rule, acc: seq<string>): (r: seq<string>)
    requires 0 <= from && ValidLocs(locs, from, |seg|)
    ensures "" !in acc ==> "" !in r
    decreases |locs|
  {
    if locs == [] then acc
    else
      var orig := Capture(seg, locs[0], rule.group);
      var next := if orig == "" || !rule.accepts(orig) then acc else AddUnique(acc, orig);
      CollectLocs(seg, locs[1..], locs[0].end, rule, next)
  }

  function CollectAll(segs: seq<string>, rule: Rule, acc: seq<string>): (r: seq<string>)
    requires GoodRule(rule)
    ensures "" !in acc ==> "" !in r
    decreases |segs|
  {
    if segs == [] then acc
    else CollectAll(segs[1..], rule, CollectLocs(segs[0], rule.find(segs[0]), 0, rule, acc))
  }

  /** Some match of the rule in a literal captures o, and the rule accepts it. */
  predicate Captured(seg: string, locs: seq<Loc>, from: nat, rule: Rule, o: string)
    requires ValidLocs(locs, from, |seg|)
    decreases |locs|
  {
    && o != "" && rule.accepts(o)
    && locs != [] && (Capture(seg, locs[0], rule.group) == o || Captured(seg, locs[1..], locs[0].end, rule, o))
  }

  lemma {:induction false} CollectLocsIff(seg: string, locs: seq<Loc>, from: nat, rule: Rule, acc: seq<string>, o: string)
    requires ValidLocs(locs, from, |seg|)
    ensures o in CollectLocs(seg, locs, from, rule, acc) <==> o in acc || Captured(seg, locs, from, rule, o)
    decreases |locs|
  {
    if locs != [] {
      var orig := Capture(seg, locs[0], rule.group);
      var next := if orig == "" || !rule.accepts(orig) then acc else AddUnique(acc, orig);
      CollectLocsIff(seg, locs[1..], locs[0].end, rule, next, o);
    }
  }

  lemma {:induction false} CollectAllIff(segs: seq<string>, rule: Rule, acc: seq<string>, o: string)
    requires GoodRule(rule)
    ensures o in CollectAll(segs, rule, acc) <==>
            o in acc || exists l :: l in segs && Captured(l, rule.find(l), 0, rule, o)
    decreases |segs|
  {
    hide Captured, CollectLocs;
    if segs != [] {
      CollectLocsIff(segs[0], rule.find(segs[0]), 0, rule, acc, o);
      CollectAllIff(segs[1..], rule, CollectLocs(segs[0], rule.find(segs[0]), 0, rule, acc), o);
      assert segs == [segs[0]] + segs[1..];
    }
  }

  predicate OnceEach(r: seq<string>) {
    forall i, j | 0 <= i < j < |r| :: r[i] != r[j]
  }

  /** No original is listed twice. */
  lemma {:induction false} CollectLocsOnce(seg: string, locs: seq<Loc>, from: nat, rule: Rule, acc: seq<string>)
    requires ValidLocs(locs, from, |seg|) && OnceEach(acc)
    ensures OnceEach(CollectLocs(seg, locs, from, rule, acc))
    decreases |locs|
  {
    if locs != [] {
      var orig := Capture(seg, locs[0], rule.group);
      var next := if orig == "" || !rule.accepts(orig) then acc else AddUnique(acc, orig);
      assert OnceEach(next);
      hide OnceEach;
      CollectLocsOnce(seg, locs[1..], locs[0].end, rule, next);
    }
  }

  lemma {:induction false} CollectAllOnce(segs: seq<string>, rule: Rule, acc: seq<string>)
    requires GoodRule(rule) && OnceEach(acc)
    ensures OnceEach(CollectAll(segs, rule, acc))
    decreases |segs|
  {
    hide CollectLocs, OnceEach;
    if segs != [] {
      var next := CollectLocs(segs[0], rule.find(segs[0]), 0, rule, acc);
      CollectLocsOnce(segs[0], rule.find(segs[0]), 0, rule, acc);
      CollectAllOnce(segs[1..], rule, next);
    }
  }

  // ---- pass 2: the replacement ----

  type Repl = repl: map<string, string> | "" !in repl

  /** One segment with every match whose capture is listed cut out and replaced. */
  function SubLocs(seg: string, locs: seq<Loc>, from: nat, group: nat, repl: Repl): Doc
    requires ValidLocs(locs, from, |seg|)
    decreases |locs|
  {
    if locs == [] then End(seg[from..])
    else
      var l := locs[0];
      var orig := Capture(seg, l, group);
      if orig !in repl then SkipMatch(seg, from, l.end, SubLocs(seg, locs[1..], l.end, group, repl))
      else
        var gs, ge := if group == 0 then l.start else l.gs, if group == 0 then l.end else l.ge;
        Node(seg[from..gs], repl[orig], SkipMatch(seg, ge, l.end, SubLocs(seg, locs[1..], l.end, group, repl)))
  }

  /** Puts `seg[from..to]` back in front of the first literal. */
  function SkipMatch(seg: string, from: nat, to: nat, d: Doc): Doc
    requires from <= to <= |seg|
  {
    d.(lit := seg[from..to] + d.lit)
  }

  function SubSegment(seg: string, rule: Rule, repl: Repl): Doc
    requires GoodRule(rule)
  {
    if seg == "" then End("") else SubLocs(seg, rule.find(seg), 0, rule.group, repl)
  }

  /** The document `d`, with an already placed token `t` and the rest `r` behind it. */
  function Chain(d: Doc, t: string, r: Doc): Doc {
    match d
    case End(l) => Node(l, t, r)
    case Node(l, u, s) => Node(l, u, Chain(s, t, r))
  }

  /** Every literal segment rewritten, every placeholder kept. */
  function SubDoc(d: Doc, rule: Rule, repl: Repl): Doc
    requires GoodRule(rule)
  {
    match d
    case End(l) => SubSegment(l, rule, repl)
    case Node(l, t, r) => Chain(SubSegment(l, rule, repl), t, SubDoc(r, rule, repl))
  }

  // ---- the whole rule ----

  datatype Match = Match(tag: string, original: string, placeholder: string)

  datatype Minted = Minted(repl: map<string, string>, table: Table, pos: nat, matches: seq<Match>)

  /** Recalls a placeholder for every original, in order. */
  function RecallAll(origs: seq<string>, tag: string, draws: Draws, m: Minted): (r: Minted)
    ensures "" !in m.repl && "" !in origs ==> "" !in r.repl
    decreases |origs|
  {
    if origs == [] then m
    else
      var r := RecallSpec(m.table, origs[0], tag, draws, m.pos);
      RecallAll(origs[1..], tag, draws,
                Minted(m.repl[origs[0] := r.token], r.table, r.pos, m.matches + [Match(tag, origs[0], r.token)]))
  }

  datatype Masking = Masking(text: string, table: Table, pos: nat, matches: seq<Match>)

  function RuleOrigs(text: string, rule: Rule): seq<string>
    requires GoodRule(rule)
  {
    if text == "" then [] else CollectAll(DocLits(Parse(text)), rule, [])
  }

  /** A rule collects exactly the accepted captures of its matches in literal text, each once. */
  lemma RuleOrigsAre(text: string, rule: Rule)
    requires GoodRule(rule)
    ensures forall o :: o in RuleOrigs(text, rule) <==>
                        exists l :: l in DocLits(Parse(text)) && Captured(l, rule.find(l), 0, rule, o)
    ensures OnceEach(RuleOrigs(text, rule))
  {
    hide CollectAll, Captured;
    CollectAllOnce(DocLits(Parse(text)), rule, []);
    forall o ensures o in RuleOrigs(text, rule) <==>
                     exists l :: l in DocLits(Parse(text)) && Captured(l, rule.find(l), 0, rule, o)
    {
      CollectAllIff(DocLits(Parse(text)), rule, [], o);
      if text == "" {
        NothingCaptured(rule.find(""), 0, rule, o);
      }
    }
  }

  lemma {:induction false} NothingCaptured(locs: seq<Loc>, from: nat, rule: Rule, o: string)
    requires ValidLocs(locs, from, |""|)
    ensures !Captured("", locs, from, rule, o)
    decreases |locs|
  {
    if locs != [] {
      NothingCaptured(locs[1..], locs[0].end, rule, o);
    }
  }

  /** A rule that hits nothing changes nothing. */
  function RuleSpec(m: Masking, rule: Rule, draws: Draws): Masking
    requires GoodRule(rule)
  {
    var origs := RuleOrigs(m.text, rule);
    if origs == [] then m
    else
      var minted := RecallAll(origs, rule.tag, draws, Minted(map[], m.table, m.pos, m.matches));
      Masking(Render(SubDoc(Parse(m.text), rule, minted.repl)), minted.table, minted.pos, minted.matches)
  }

  // ---- a rewritten document still reads as the original ----

  predicate Decodes(repl: map<string, string>, reverse: Reverse) {
    forall o | o in repl :: Lookup(reverse, repl[o]) == o
  }

  lemma {:induction false} SubLocsRestores(seg: string, locs: seq<Loc>, from: nat, group: nat, repl: Repl, reverse: Reverse)
    requires ValidLocs(locs, from, |seg|) && Decodes(repl, reverse)
    ensures RestoreDoc(SubLocs(seg, locs, from, group, repl), reverse) == seg[from..]
    decreases |locs|
  {
    hide Lookup;
    if locs != [] {
      var l := locs[0];
      var rest := SubLocs(seg, locs[1..], l.end, group, repl);
      SubLocsRestores(seg, locs[1..], l.end, group, repl, reverse);
      var orig := Capture(seg, l, group);
      if orig !in repl {
        SkipRestores(seg, from, l.end, rest, reverse);
      } else {
        var gs, ge := if group == 0 then l.start else l.gs, if group == 0 then l.end else l.ge;
        SkipRestores(seg, ge, l.end, rest, reverse);
        assert orig == seg[gs..ge];
        assert seg[from..gs] + seg[gs..ge] + seg[ge..] == seg[from..];
      }
    }
  }

  lemma SkipRestores(seg: string, from: nat, to: nat, d: Doc, reverse: Reverse)
    requires from <= to <= |seg| && RestoreDoc(d, reverse) == seg[to..]
    ensures RestoreDoc(SkipMatch(seg, from, to, d), reverse) == seg[from..]
  {
    assert seg[from..to] + seg[to..] == seg[from..];
    if d.Node? {
      var tail := Lookup(reverse, d.tok) + RestoreDoc(d.rest, reverse);
      assert seg[from..to] + d.lit + Lookup(reverse, d.tok) + RestoreDoc(d.rest, reverse)
          == seg[from..to] + (d.lit + Lookup(reverse, d.tok) + RestoreDoc(d.rest, reverse));
    }
  }

  lemma {:induction false} ChainRestores(d: Doc, t: string, r: Doc, reverse: Reverse)
    ensures RestoreDoc(Chain(d, t, r), reverse)
         == RestoreDoc(d, reverse) + Lookup(reverse, t) + RestoreDoc(r, reverse)
  {
    hide Lookup;
    if d.Node? {
      ChainRestores(d.rest, t, r, reverse);
      var a, b := d.lit + Lookup(reverse, d.tok), RestoreDoc(d.rest, reverse);
      assert a + (b + Lookup(reverse, t) + RestoreDoc(r, reverse))
          == (a + b) + Lookup(reverse, t) + RestoreDoc(r, reverse);
    }
  }

  lemma {:induction false} SubDocRestores(d: Doc, rule: Rule, repl: Repl, reverse: Reverse)
    requires GoodRule(rule) && Decodes(repl, reverse)
    ensures RestoreDoc(SubDoc(d, rule, repl), reverse) == RestoreDoc(d, reverse)
  {
    hide Lookup, SubLocs, Decodes;
    if d.lit != "" {
      SubLocsRestores(d.lit, rule.find(d.lit), 0, rule.group, repl, reverse);
    }
    assert RestoreDoc(SubSegment(d.lit, rule, repl), reverse) == d.lit;
    if d.Node? {
      SubDocRestores(d.rest, rule, repl, reverse);
      ChainRestores(SubSegment(d.lit, rule, repl), d.tok, SubDoc(d.rest, rule, repl), reverse);
    }
  }

  // ---- literals only get shorter ----

  predicate IsSlice(x: string, s: string) {
    exists i: nat, j: nat | i <= j <= |s| :: x == s[i..j]
  }

  lemma SliceOf(s: string, i: nat, j: nat)
    requires i <= j <= |s|
    ensures IsSlice(s[i..j], s)
  {
  }

  /** The first literal continues at `from`, all of them are slices of the segment. */
  lemma {:induction false} SubLocsSlices(seg: string, locs: seq<Loc>, from: nat, group: nat, repl: Repl)
    requires ValidLocs(locs, from, |seg|)
    ensures var d := SubLocs(seg, locs, from, group, repl);
            && from + |d.lit| <= |seg| && d.lit == seg[from..from + |d.lit|]
            && forall x | x in DocLits(d) :: IsSlice(x, seg)
    decreases |locs|
  {
    hide IsSlice;
    var d := SubLocs(seg, locs, from, group, repl);
    if locs == [] {
      SliceOf(seg, from, |seg|);
    } else {
      var l := locs[0];
      SubLocsSlices(seg, locs[1..], l.end, group, repl);
      SkipSlices(seg, from, l.end, SubLocs(seg, locs[1..], l.end, group, repl));
      if Capture(seg, l, group) in repl {
        var gs, ge := if group == 0 then l.start else l.gs, if group == 0 then l.end else l.ge;
        SkipSlices(seg, ge, l.end, SubLocs(seg, locs[1..], l.end, group, repl));
        SliceOf(seg, from, gs);
      }
    }
  }

  lemma SkipSlices(seg: string, from: nat, to: nat, d: Doc)
    requires from <= to && to + |d.lit| <= |seg| && d.lit == seg[to..to + |d.lit|]
    requires forall x | x in DocLits(d) :: IsSlice(x, seg)
    ensures var e := SkipMatch(seg, from, to, d);
            && from + |e.lit| <= |seg| && e.lit == seg[from..from + |e.lit|]
            && forall x | x in DocLits(e) :: IsSlice(x, seg)
  {
    hide IsSlice;
    SliceOf(seg, from, to + |d.lit|);
    assert seg[from..to] + d.lit == seg[from..to + |d.lit|];
  }

  lemma {:induction false} ChainLits(d: Doc, t: string, r: Doc)
    ensures DocLits(Chain(d, t, r)) == DocLits(d) + DocLits(r)
    ensures DocTokens(Chain(d, t, r)) == DocTokens(d) + [t] + DocTokens(r)
  {
    if d.Node? {
      ChainLits(d.rest, t, r);
      assert [d.tok] + (DocTokens(d.rest) + [t] + DocTokens(r)) == ([d.tok] + DocTokens(d.rest)) + [t] + DocTokens(r);
      assert [d.lit] + (DocLits(d.rest) + DocLits(r)) == ([d.lit] + DocLits(d.rest)) + DocLits(r);
    }
  }

  /** Masking never makes new literal text: every literal afterwards is a slice of one before. */
  lemma {:induction false} SubDocSlices(d: Doc, rule: Rule, repl: Repl, x: string)
    requires GoodRule(rule) && x in DocLits(SubDoc(d, rule, repl))
    ensures exists l :: l in DocLits(d) && IsSlice(x, l)
  {
    hide IsSlice, SubLocs;
    if d.lit == "" {
      SliceOf("", 0, 0);
    } else {
      SubLocsSlices(d.lit, rule.find(d.lit), 0, rule.group, repl);
    }
    if d.Node? {
      ChainLits(SubSegment(d.lit, rule, repl), d.tok, SubDoc(d.rest, rule, repl));
      if x !in DocLits(SubSegment(d.lit, rule, repl)) {
        SubDocSlices(d.rest, rule, repl, x);
      }
    }
  }

  // ---- which placeholders the output holds ----

  /** The placeholders put in for the listed captures of one segment, in order. */
  function Hits(seg: string, locs: seq<Loc>, from: nat, group: nat, repl: Repl): seq<string>
    requires ValidLocs(locs, from, |seg|)
    decreases |locs|
  {
    if locs == [] then []
    else
      var orig := Capture(seg, locs[0], group);
      (if orig in repl then [repl[orig]] else []) + Hits(seg, locs[1..], locs[0].end, group, repl)
  }

  function LitHits(lit: string, rule: Rule, repl: Repl): seq<string>
    requires GoodRule(rule)
  {
    if lit == "" then [] else Hits(lit, rule.find(lit), 0, rule.group, repl)
  }

  /** The old placeholders with the new ones of each literal in between. */
  function Woven(d: Doc, rule: Rule, repl: Repl): seq<string>
    requires GoodRule(rule)
  {
    match d
    case End(l) => LitHits(l, rule, repl)
    case Node(l, t, r) => LitHits(l, rule, repl) + [t] + Woven(r, rule, repl)
  }

  lemma {:induction false} SubLocsTokens(seg: string, locs: seq<Loc>, from: nat, group: nat, repl: Repl)
    requires ValidLocs(locs, from, |seg|)
    ensures DocTokens(SubLocs(seg, locs, from, group, repl)) == Hits(seg, locs, from, group, repl)
    decreases |locs|
  {
    if locs != [] {
      SubLocsTokens(seg, locs[1..], locs[0].end, group, repl);
    }
  }

  lemma {:induction false} SubDocTokens(d: Doc, rule: Rule, repl: Repl)
    requires GoodRule(rule)
    ensures DocTokens(SubDoc(d, rule, repl)) == Woven(d, rule, repl)
  {
    hide SubLocs, Hits;
    if d.lit != "" {
      SubLocsTokens(d.lit, rule.find(d.lit), 0, rule.group, repl);
    }
    if d.Node? {
      ChainLits(SubSegment(d.lit, rule, repl), d.tok, SubDoc(d.rest, rule, repl));
      SubDocTokens(d.rest, rule, repl);
    }
  }

  lemma {:induction false} HitsAreListed(seg: string, locs: seq<Loc>, from: nat, group: nat, repl: Repl)
    requires ValidLocs(locs, from, |seg|)
    ensures forall t | t in Hits(seg, locs, from, group, repl) :: t in repl.Values
    decreases |locs|
  {
    if locs != [] {
      HitsAreListed(seg, locs[1..], locs[0].end, group, repl);
    }
  }

  /** b is a with elements of `inserted` put in between. */
  predicate Interleaved(a: seq<string>, b: seq<string>, inserted: set<string>)
    decreases |b|
  {
    if b == [] then a == []
    else
      || (a != [] && a[0] == b[0] && Interleaved(a[1..], b[1..], inserted))
      || (b[0] in inserted && Interleaved(a, b[1..], inserted))
  }

  lemma {:induction false} InterleavedTrans(a: seq<string>, b: seq<string>, c: seq<string>, x: set<string>, y: set<string>)
    requires Interleaved(a, b, x) && Interleaved(b, c, y)
    ensures Interleaved(a, c, x + y)
    decreases |c|
  {
    if c != [] {
      if b != [] && b[0] == c[0] && Interleaved(b[1..], c[1..], y) {
        if a != [] && a[0] == b[0] && Interleaved(a[1..], b[1..], x) {
          InterleavedTrans(a[1..], b[1..], c[1..], x, y);
        } else {
          InterleavedTrans(a, b[1..], c[1..], x, y);
        }
      } else {
        InterleavedTrans(a, b, c[1..], x, y);
      }
    }
  }

  lemma {:induction false} InterleavedHolds(a: seq<string>, b: seq<string>, inserted: set<string>)
    requires Interleaved(a, b, inserted)
    ensures forall t | t in a :: t in b
    ensures forall t | t in b :: t in a || t in inserted
    decreases |b|
  {
    if b != [] {
      assert b == [b[0]] + b[1..];
      if a != [] && a[0] == b[0] && Interleaved(a[1..], b[1..], inserted) {
        assert a == [a[0]] + a[1..];
        InterleavedHolds(a[1..], b[1..], inserted);
      } else {
        InterleavedHolds(a, b[1..], inserted);
      }
    }
  }

  lemma {:induction false} InterleavedFront(hits: seq<string>, a: seq<string>, b: seq<string>, inserted: set<string>)
    requires (forall t | t in hits :: t in inserted) && Interleaved(a, b, inserted)
    ensures Interleaved(a, hits + b, inserted)
    decreases |hits|
  {
    if hits == [] {
      assert hits + b == b;
    } else {
      InterleavedFront(hits[1..], a, b, inserted);
      assert (hits + b)[1..] == hits[1..] + b;
    }
  }

  lemma {:induction false} InterleavedSame(a: seq<string>)
    ensures Interleaved(a, a, {})
  {
    if a != [] {
      InterleavedSame(a[1..]);
    }
  }

  lemma LitHitsListed(lit: string, rule: Rule, repl: Repl)
    requires GoodRule(rule)
    ensures forall t | t in LitHits(lit, rule, repl) :: t in repl.Values
  {
    if lit != "" {
      HitsAreListed(lit, rule.find(lit), 0, rule.group, repl);
    }
  }

  lemma {:induction false} WovenInterleaves(d: Doc, rule: Rule, repl: Repl)
    requires GoodRule(rule)
    ensures Interleaved(DocTokens(d), Woven(d, rule, repl), repl.Values)
  {
    var hits := LitHits(d.lit, rule, repl);
    LitHitsListed(d.lit, rule, repl);
    hide LitHits, Interleaved, GoodRule;
    if d.Node? {
      var a, b := DocTokens(d.rest), Woven(d.rest, rule, repl);
      WovenInterleaves(d.rest, rule, repl);
      InterleavedStep(d.tok, a, b, repl.Values);
      InterleavedFront(hits, [d.tok] + a, [d.tok] + b, repl.Values);
      AppendAssoc(hits, [d.tok], b);
    } else {
      InterleavedNone(repl.Values);
      InterleavedFront(hits, [], [], repl.Values);
      assert hits + [] == hits;
    }
  }

  lemma InterleavedNone(inserted: set<string>)
    ensures Interleaved([], [], inserted)
  {
  }

  lemma InterleavedStep(t: string, a: seq<string>, b: seq<string>, inserted: set<string>)
    requires Interleaved(a, b, inserted)
    ensures Interleaved([t] + a, [t] + b, inserted)
  {
    assert ([t] + a)[1..] == a && ([t] + b)[1..] == b;
  }

  /** What pass 1 listed is found again and replaced in pass 2. */
  lemma {:induction false} CollectedAreHit(seg: string, locs: seq<Loc>, from: nat, rule: Rule, acc: seq<string>, repl: Repl, o: string)
    requires ValidLocs(locs, from, |seg|) && o in CollectLocs(seg, locs, from, rule, acc) && o !in acc && o in repl
    ensures repl[o] in Hits(seg, locs, from, rule.group, repl)
    decreases |locs|
  {
    if locs != [] {
      var orig := Capture(seg, locs[0], rule.group);
      if orig != o {
        var next := if orig == "" || !rule.accepts(orig) then acc else AddUnique(acc, orig);
        CollectedAreHit(seg, locs[1..], locs[0].end, rule, next, repl, o);
      }
    }
  }

  lemma {:induction false} CollectedAreWoven(d: Doc, rule: Rule, acc: seq<string>, repl: Repl, o: string)
    requires GoodRule(rule) && o in CollectAll(DocLits(d), rule, acc) && o !in acc && o in repl
    ensures repl[o] in Woven(d, rule, repl)
  {
    hide CollectLocs, Hits, IsSlice;
    var first := CollectLocs(d.lit, rule.find(d.lit), 0, rule, acc);
    assert DocLits(d) == [d.lit] + if d.Node? then DocLits(d.rest) else [];
    if o in first {
      CollectLocsSlices(d.lit, rule.find(d.lit), 0, rule, acc, o);
      EmptySlice(o);
      assert d.lit != "";
      CollectedAreHit(d.lit, rule.find(d.lit), 0, rule, acc, repl, o);
    } else {
      assert CollectAll([], rule, first) == first;
      assert d.Node?;
      CollectedAreWoven(d.rest, rule, first, repl, o);
    }
  }

  lemma EmptySlice(o: string)
    ensures IsSlice(o, "") ==> o == ""
  {
    if IsSlice(o, "") {
      var i: nat, j: nat :| i <= j <= 0 && o == ""[i..j];
    }
  }

  predicate AllTokens(ts: seq<string>) {
    forall t | t in ts :: IsToken(t)
  }

  lemma {:induction false} WovenAllTokens(d: Doc, rule: Rule, repl: Repl)
    requires GoodRule(rule) && AllTokens(DocTokens(d)) && forall t | t in repl.Values :: IsToken(t)
    ensures AllTokens(Woven(d, rule, repl))
  {
    hide IsToken;
    if d.lit != "" {
      HitsAreListed(d.lit, rule.find(d.lit), 0, rule.group, repl);
    }
    if d.Node? {
      assert DocTokens(d) == [d.tok] + DocTokens(d.rest);
      assert forall t | t in DocTokens(d.rest) :: t in DocTokens(d);
      assert d.tok in DocTokens(d);
      WovenAllTokens(d.rest, rule, repl);
    }
  }

  lemma {:induction false} CanonicalIff(d: Doc)
    ensures Canonical(d) <==> AllTokens(DocTokens(d)) && forall l | l in DocLits(d) :: TokenFree(l)
  {
    hide IsToken, TokenFree;
    if d.Node? {
      CanonicalIff(d.rest);
      assert DocTokens(d) == [d.tok] + DocTokens(d.rest);
      assert DocLits(d) == [d.lit] + DocLits(d.rest);
      assert forall t :: t in DocTokens(d) <==> t == d.tok || t in DocTokens(d.rest);
      assert forall l :: l in DocLits(d) <==> l == d.lit || l in DocLits(d.rest);
    } else {
      assert DocLits(d) == [d.lit];
    }
  }

  lemma SliceTokenFree(x: string, l: string)
    requires IsSlice(x, l) && TokenFree(l)
    ensures TokenFree(x)
  {
    hide TokenFree;
    var i: nat, j: nat :| i <= j <= |l| && x == l[i..j];
    TokenFreeSlice(l, i, j);
  }

  /** Rewriting with genuine placeholders gives a document that parses back to itself. */
  lemma SubDocCanonical(d: Doc, rule: Rule, repl: Repl)
    requires GoodRule(rule) && Canonical(d) && forall t | t in repl.Values :: IsToken(t)
    ensures Canonical(SubDoc(d, rule, repl))
  {
    hide IsToken, TokenFree, IsSlice, Canonical, SubDoc, Woven;
    CanonicalIff(d);
    CanonicalIff(SubDoc(d, rule, repl));
    SubDocTokens(d, rule, repl);
    WovenAllTokens(d, rule, repl);
    forall x | x in DocLits(SubDoc(d, rule, repl)) ensures TokenFree(x) {
      SubDocSlices(d, rule, repl, x);
      var l :| l in DocLits(d) && IsSlice(x, l);
      SliceTokenFree(x, l);
    }
  }

  // ---- recalling the originals of a rule ----

  /** Issued values are placeholders, masked values hold none: true of every table built by recalls. */
  predicate WellFormed(t: Table) {
    forall o | o in t.forward :: IsToken(t.forward[o]) && TokenFree(o)
  }

  predicate Agrees(m: Minted) {
    forall o | o in m.repl :: o in m.table.forward && m.table.forward[o] == m.repl[o]
  }

  lemma RecallStep(t: Table, original: string, tag: string, draws: Draws, pos: nat)
    requires WellFormed(t) && TokenFree(original)
    ensures var r := RecallSpec(t, original, tag, draws, pos);
            && r == RecallPlain(t, original, tag, draws, pos)
            && WellFormed(r.table) && Grows(t, r.table)
            && original in r.table.forward && r.table.forward[original] == r.token
  {
    hide IsToken, TokenFree;
    DrawTokenFresh(t.reverse, tag, draws, pos, MAX_DRAWS);
  }

  lemma {:induction false} RecallAllAgrees(origs: seq<string>, tag: string, draws: Draws, m: Minted)
    requires WellFormed(m.table) && Agrees(m) && forall o | o in origs :: TokenFree(o)
    ensures var r := RecallAll(origs, tag, draws, m);
            && WellFormed(r.table) && Grows(m.table, r.table) && Agrees(r)
            && (forall o :: o in r.repl <==> o in m.repl || o in origs)
    decreases |origs|
  {
    hide WellFormed, TokenFree, RecallSpec;
    if origs != [] {
      RecallStep(m.table, origs[0], tag, draws, m.pos);
      var s := RecallSpec(m.table, origs[0], tag, draws, m.pos);
      var next := Minted(m.repl[origs[0] := s.token], s.table, s.pos, m.matches + [Match(tag, origs[0], s.token)]);
      assert Agrees(next);
      RecallAllAgrees(origs[1..], tag, draws, next);
      assert origs == [origs[0]] + origs[1..];
    }
  }

  /** Every recall is reported, in order, with the placeholder that goes into the text, and nothing else is. */
  lemma {:induction false} RecallAllReports(origs: seq<string>, tag: string, draws: Draws, m: Minted) returns (added: seq<Match>)
    requires WellFormed(m.table) && forall o | o in origs :: TokenFree(o)
    ensures var r := RecallAll(origs, tag, draws, m);
            && r.matches == m.matches + added && |added| == |origs|
            && forall i | 0 <= i < |origs| ::
                 origs[i] in r.table.forward && added[i] == Match(tag, origs[i], r.table.forward[origs[i]])
    decreases |origs|
  {
    hide WellFormed, TokenFree, RecallSpec;
    added := [];
    if origs != [] {
      RecallStep(m.table, origs[0], tag, draws, m.pos);
      var s := RecallSpec(m.table, origs[0], tag, draws, m.pos);
      var first := Match(tag, origs[0], s.token);
      var next := Minted(m.repl[origs[0] := s.token], s.table, s.pos, m.matches + [first]);
      var rest := RecallAllReports(origs[1..], tag, draws, next);
      RecallAllGrows(origs[1..], tag, draws, next);
      added := [first] + rest;
      assert m.matches + [first] + rest == m.matches + added;
    }
  }

  lemma {:induction false} RecallAllGrows(origs: seq<string>, tag: string, draws: Draws, m: Minted)
    requires WellFormed(m.table) && forall o | o in origs :: TokenFree(o)
    ensures Grows(m.table, RecallAll(origs, tag, draws, m).table)
    decreases |origs|
  {
    hide WellFormed, TokenFree, RecallSpec;
    if origs != [] {
      RecallStep(m.table, origs[0], tag, draws, m.pos);
      var s := RecallSpec(m.table, origs[0], tag, draws, m.pos);
      RecallAllGrows(origs[1..], tag, draws, Minted(m.repl[origs[0] := s.token], s.table, s.pos, m.matches + [Match(tag, origs[0], s.token)]));
    }
  }

  lemma {:induction false} CollectLocsSlices(seg: string, locs: seq<Loc>, from: int, rule: Rule, acc: seq<string>, o: string)
    requires 0 <= from && ValidLocs(locs, from, |seg|) && o in CollectLocs(seg, locs, from, rule, acc)
    ensures o in acc || IsSlice(o, seg)
    decreases |locs|
  {
    hide IsSlice;
    if locs != [] {
      var l := locs[0];
      var orig := Capture(seg, l, rule.group);
      var next := if orig == "" || !rule.accepts(orig) then acc else AddUnique(acc, orig);
      CollectLocsSlices(seg, locs[1..], l.end, rule, next, o);
      SliceOf(seg, l.start, l.end);
      if orig != "" && rule.group != 0 {
        SliceOf(seg, l.gs, l.ge);
      }
    }
  }

  lemma {:induction false} CollectAllSlices(segs: seq<string>, rule: Rule, acc: seq<string>, o: string)
    requires GoodRule(rule) && o in CollectAll(segs, rule, acc)
    ensures o in acc || exists l :: l in segs && IsSlice(o, l)
    decreases |segs|
  {
    hide IsSlice;
    if segs != [] {
      var first := CollectLocs(segs[0], rule.find(segs[0]), 0, rule, acc);
      CollectAllSlices(segs[1..], rule, first, o);
      if o in first {
        CollectLocsSlices(segs[0], rule.find(segs[0]), 0, rule, acc, o);
        assert segs[0] in segs;
      }
    }
  }

  /** A rule never asks for a placeholder of a placeholder: all its originals lie inside literal text. */
  lemma RuleOrigsTokenFree(text: string, rule: Rule)
    requires GoodRule(rule)
    ensures forall o | o in RuleOrigs(text, rule) :: TokenFree(o) && o != ""
  {
    hide IsSlice, TokenFree, CollectAll, Parse;
    ParseCanonical(text);
    CanonicalIff(Parse(text));
    forall o | o in RuleOrigs(text, rule) ensures TokenFree(o) && o != "" {
      CollectAllSlices(DocLits(Parse(text)), rule, [], o);
      var l :| l in DocLits(Parse(text)) && IsSlice(o, l);
      SliceTokenFree(o, l);
    }
  }

  /** What `RuleSpec` writes, and with which replacement table. */
  lemma RuleShape(m: Masking, rule: Rule, draws: Draws) returns (repl: Repl)
    requires GoodRule(rule) && WellFormed(m.table)
    ensures var n := RuleSpec(m, rule, draws);
            && WellFormed(n.table) && Grows(m.table, n.table)
            && (forall o | o in repl :: o in n.table.forward && n.table.forward[o] == repl[o])
            && (forall o :: o in repl <==> o in RuleOrigs(m.text, rule))
            && Parse(n.text) == SubDoc(Parse(m.text), rule, repl)
  {
    hide WellFormed, TokenFree, Grows, RuleOrigs, SubDoc, RecallAll, Parse;
    var origs := RuleOrigs(m.text, rule);
    RuleOrigsTokenFree(m.text, rule);
    if origs == [] {
      repl := map[];
      EmptySubDoc(Parse(m.text), rule);
      GrowsRefl(m.table);
      return;
    }
    var minted := Minted(map[], m.table, m.pos, m.matches);
    RecallAllAgrees(origs, rule.tag, draws, minted);
    repl := RecallAll(origs, rule.tag, draws, minted).repl;
    IssuedTokens(RecallAll(origs, rule.tag, draws, minted));
    ParseCanonical(m.text);
    SubDocCanonical(Parse(m.text), rule, repl);
    ParseRender(SubDoc(Parse(m.text), rule, repl));
  }

  lemma GrowsRefl(t: Table)
    ensures Grows(t, t)
  {
  }

  lemma IssuedTokens(m: Minted)
    requires WellFormed(m.table) && Agrees(m)
    ensures forall t | t in m.repl.Values :: IsToken(t)
  {
  }

  lemma {:induction false} EmptySubLocs(seg: string, locs: seq<Loc>, from: nat, group: nat)
    requires ValidLocs(locs, from, |seg|)
    ensures SubLocs(seg, locs, from, group, map[]) == End(seg[from..])
    decreases |locs|
  {
    if locs != [] {
      EmptySubLocs(seg, locs[1..], locs[0].end, group);
      assert seg[from..locs[0].end] + seg[locs[0].end..] == seg[from..];
    }
  }

  lemma {:induction false} EmptySubDoc(d: Doc, rule: Rule)
    requires GoodRule(rule)
    ensures SubDoc(d, rule, map[]) == d
  {
    hide SubLocs;
    if d.lit != "" {
      EmptySubLocs(d.lit, rule.find(d.lit), 0, rule.group);
    }
    if d.Node? {
      EmptySubDoc(d.rest, rule);
    }
  }
}
