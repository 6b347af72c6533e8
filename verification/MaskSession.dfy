/** The two-way table of one session: original to placeholder for masking, placeholder to original for restoring. */
module MaskSession {
  import opened Placeholder
  import opened Restore

  const MAX_DRAWS := 20
  const MAX_UNWRAP := 5

  datatype Table = Table(forward: map<string, string>, reverse: Reverse)

  const EMPTY_TABLE := Table(map[], map[])

  /** The suffix generator's future output, draw by draw. */
  type Draws = nat -> Suffix

  /** Both maps are each other's inverse; issued values are placeholders and masked values hold none. */
  predicate Bijective(t: Table) {
    && (forall o | o in t.forward ::
          IsToken(t.forward[o]) && TokenFree(o) && t.forward[o] in t.reverse && t.reverse[t.forward[o]] == o)
    && (forall k | k in t.reverse :: t.reverse[k] in t.forward && t.forward[t.reverse[k]] == k)
  }

  /** Whatever was issued for an original stays issued. */
  predicate Grows(before: Table, after: Table) {
    forall o | o in before.forward :: o in after.forward && after.forward[o] == before.forward[o]
  }

  // ---- the pieces of a recall ----

  /** Outcome of peeling placeholders off an input: give up with the value itself, or a plain original. */
  datatype Unwrapped = Stop(value: string) | Plain(value: string)

  function Unwrap(original: string, reverse: Reverse, left: nat): Unwrapped
    decreases left
  {
    if TokenFree(original) then Plain(original)
    else if left == 0 || original !in reverse then Stop(original)
    else Unwrap(reverse[original], reverse, left - 1)
  }

  datatype Drawn = Drawn(token: string, pos: nat)

  /** Draws until a token is unused, at most `left` times; the last draw is kept even when it is taken. */
  function DrawToken(reverse: Reverse, tag: string, draws: Draws, pos: nat, left: nat): (d: Drawn)
    requires left > 0
    ensures pos < d.pos <= pos + left
    decreases left
  {
    var token := NewToken(tag, draws(pos));
    if left == 1 || token !in reverse then Drawn(token, pos + 1)
    else DrawToken(reverse, tag, draws, pos + 1, left - 1)
  }

  function Register(t: Table, original: string, token: string): Table {
    Table(t.forward[original := token], t.reverse[token := original])
  }

  datatype Recalled = Recalled(token: string, table: Table, pos: nat)

  function RecallPlain(t: Table, original: string, tag: string, draws: Draws, pos: nat): Recalled {
    if original in t.forward then Recalled(t.forward[original], t, pos)
    else
      var d := DrawToken(t.reverse, tag, draws, pos, MAX_DRAWS);
      Recalled(d.token, Register(t, original, d.token), d.pos)
  }

  function RecallSpec(t: Table, original: string, tag: string, draws: Draws, pos: nat): Recalled {
    match Unwrap(original, t.reverse, MAX_UNWRAP)
    case Stop(value) => Recalled(value, t, pos)
    case Plain(value) => RecallPlain(t, value, tag, draws, pos)
  }

  // ---- what a recall guarantees ----

  /** Registering a new original keeps the table bijective exactly when its token was unused. */
  lemma RegisterBijective(t: Table, original: string, token: string)
    requires Bijective(t) && TokenFree(original) && IsToken(token) && original !in t.forward
    ensures Bijective(Register(t, original, token)) <==> token !in t.reverse
  {
    var u := Register(t, original, token);
    if token in t.reverse {
      var other := t.reverse[token];
      assert t.forward[other] == token && other != original;
      assert u.forward[other] == token && u.reverse[token] == original;
    }
  }

  /** The generator finds an unused token unless 20 draws in a row were all taken. */
  predicate SomeDrawUnused(reverse: Reverse, tag: string, draws: Draws, pos: nat) {
    exists i | pos <= i < pos + MAX_DRAWS :: NewToken(tag, draws(i)) !in reverse
  }

  lemma RecallPlainKeepsBijective(t: Table, original: string, tag: string, draws: Draws, pos: nat)
    requires Bijective(t) && TokenFree(original)
    ensures var r := RecallPlain(t, original, tag, draws, pos);
            && Grows(t, r.table)
            && (Bijective(r.table) <==> original in t.forward || SomeDrawUnused(t.reverse, tag, draws, pos))
  {
    hide TokenFree, TokenLen, NewToken, IsToken, Bijective, DrawToken;
    if original !in t.forward {
      DrawTokenFresh(t.reverse, tag, draws, pos, MAX_DRAWS);
      RegisterBijective(t, original, DrawToken(t.reverse, tag, draws, pos, MAX_DRAWS).token);
    }
  }

  /** A recall keeps the table bijective exactly when there is nothing to register or one of its 20 draws is unused. */
  lemma RecallKeepsBijective(t: Table, original: string, tag: string, draws: Draws, pos: nat)
    requires Bijective(t)
    ensures var r := RecallSpec(t, original, tag, draws, pos);
            && Grows(t, r.table)
            && (Bijective(r.table) <==> !TokenFree(original) || original in t.forward || SomeDrawUnused(t.reverse, tag, draws, pos))
  {
    hide TokenFree, TokenLen, NewToken, IsToken, Bijective, SomeDrawUnused;
    if TokenFree(original) {
      RecallPlainKeepsBijective(t, original, tag, draws, pos);
    } else {
      NoNesting(t, original, tag, draws, pos);
    }
  }

  lemma {:induction false} DrawTokenFresh(reverse: Reverse, tag: string, draws: Draws, pos: nat, left: nat)
    requires left > 0
    ensures IsToken(DrawToken(reverse, tag, draws, pos, left).token)
    ensures DrawToken(reverse, tag, draws, pos, left).token !in reverse <==>
            exists i | pos <= i < pos + left :: NewToken(tag, draws(i)) !in reverse
    decreases left
  {
    hide NewToken, IsToken;
    if left > 1 && NewToken(tag, draws(pos)) in reverse {
      DrawTokenFresh(reverse, tag, draws, pos + 1, left - 1);
    }
  }

  /** Twenty equal draws: the second original is given the first one's token, and the table is no longer bijective. */
  lemma TakenDrawsDuplicate(tag: string, suffix: Suffix)
    ensures var draws: Draws := _ => suffix;
            var first := RecallSpec(EMPTY_TABLE, "a", tag, draws, 0);
            var second := RecallSpec(first.table, "b", tag, draws, first.pos);
            Bijective(first.table) && second.token == first.token && !Bijective(second.table)
  {
    var draws: Draws := _ => suffix;
    assert TokenFree("a") && TokenFree("b") && Bijective(EMPTY_TABLE);
    var first := RecallSpec(EMPTY_TABLE, "a", tag, draws, 0);
    var second := RecallSpec(first.table, "b", tag, draws, first.pos);
    SameDraws(EMPTY_TABLE.reverse, tag, draws, 0, MAX_DRAWS);
    SameDraws(first.table.reverse, tag, draws, first.pos, MAX_DRAWS);
    RegisterBijective(EMPTY_TABLE, "a", NewToken(tag, suffix));
    hide TokenLen, NewToken, IsToken, TokenFree;
    assert second.table.forward["a"] == second.token && second.table.reverse[second.token] == "b";
  }

  lemma {:induction false} SameDraws(reverse: Reverse, tag: string, draws: Draws, pos: nat, left: nat)
    requires left > 0 && forall i: nat :: draws(i) == draws(pos)
    ensures DrawToken(reverse, tag, draws, pos, left).token == NewToken(tag, draws(pos))
    decreases left
  {
    hide NewToken;
    if left > 1 {
      SameDraws(reverse, tag, draws, pos + 1, left - 1);
    }
  }

  /** Never a token for a token: an input holding a placeholder comes back as it is and registers nothing. */
  lemma NoNesting(t: Table, original: string, tag: string, draws: Draws, pos: nat)
    requires Bijective(t) && !TokenFree(original)
    ensures RecallSpec(t, original, tag, draws, pos) == Recalled(original, t, pos)
  {
    if original in t.reverse {
      var plain := t.reverse[original];
      assert TokenFree(plain) && t.forward[plain] == original;
      assert Unwrap(original, t.reverse, MAX_UNWRAP) == Unwrap(plain, t.reverse, MAX_UNWRAP - 1) == Plain(plain);
    }
  }

  /** An issued token decodes to its original, and does so in every later bijective table. */
  lemma RecallDecodes(t: Table, original: string, tag: string, draws: Draws, pos: nat, later: Table)
    requires TokenFree(original)
    requires var r := RecallSpec(t, original, tag, draws, pos); Grows(r.table, later) && Bijective(later)
    ensures var r := RecallSpec(t, original, tag, draws, pos);
            && IsToken(r.token) && r.token in later.reverse && later.reverse[r.token] == original
  {
    var r := RecallSpec(t, original, tag, draws, pos);
    assert r.table.forward[original] == r.token;
  }

  /** Reverse entries are as durable as forward ones between bijective tables. */
  lemma GrowsBack(before: Table, after: Table)
    requires Bijective(before) && Bijective(after) && Grows(before, after)
    ensures forall k | k in before.reverse :: k in after.reverse && after.reverse[k] == before.reverse[k]
  {
    forall k | k in before.reverse ensures k in after.reverse && after.reverse[k] == before.reverse[k] {
      assert after.forward[before.reverse[k]] == k;
    }
  }

  // ---- the table of a running session, updated in place ----

  /** The random source: hands out the suffixes of `draws` one after the other. */
  class SuffixSource {
    const draws: Draws
    var pos: nat

    constructor (draws: Draws)
      ensures this.draws == draws && pos == 0
    {
      this.draws := draws;
      pos := 0;
    }

    method Next() returns (s: Suffix)
      modifies this
      ensures s == draws(old(pos)) && pos == old(pos) + 1
    {
      s := draws(pos);
      pos := pos + 1;
    }
  }

  class Mapping {
    var forward: map<string, string>
    var reverse: map<string, string>

    constructor ()
      ensures View() == EMPTY_TABLE
    {
      forward, reverse := map[], map[];
    }

    function View(): Table
      reads this
    {
      Table(forward, reverse)
    }

    method Recall(original: string, tag: string, source: SuffixSource) returns (token: string)
      modifies this, source
      ensures var r := RecallSpec(old(View()), original, tag, source.draws, old(source.pos));
              token == r.token && View() == r.table && source.pos == r.pos
    {
      hide TokenFree, TokenLen, NewToken, IsToken;
      var value := original;
      if !TokenFree(value) {
        var depth := 0;
        while depth < MAX_UNWRAP && !TokenFree(value)
          invariant depth <= MAX_UNWRAP
          invariant Unwrap(original, reverse, MAX_UNWRAP) == Unwrap(value, reverse, MAX_UNWRAP - depth)
        {
          if value !in reverse {
            return value;
          }
          value := reverse[value];
          depth := depth + 1;
        }
        if !TokenFree(value) {
          return value;
        }
      }
      if value in forward {
        return forward[value];
      }
      token := Register(value, tag, source);
    }

    /** The write-locked half of `Recall`: check again, then draw and record. */
    method Register(value: string, tag: string, source: SuffixSource) returns (token: string)
      modifies this, source
      ensures var r := RecallPlain(old(View()), value, tag, source.draws, old(source.pos));
              token == r.token && View() == r.table && source.pos == r.pos
    {
      hide NewToken, IsToken;
      if value in forward {
        return forward[value];
      }
      var existing := reverse.Keys;
      token := "";
      ghost var drawn := DrawToken(reverse, tag, source.draws, old(source.pos), MAX_DRAWS);
      for i := 0 to MAX_DRAWS
        invariant View() == old(View()) && source.pos == old(source.pos) + i
        invariant i < MAX_DRAWS ==> drawn == DrawToken(reverse, tag, source.draws, source.pos, MAX_DRAWS - i)
        invariant i == MAX_DRAWS ==> drawn == Drawn(token, source.pos)
      {
        var suffix := source.Next();
        token := NewToken(tag, suffix);
        if token !in existing {
          break;
        }
      }
      forward := forward[value := token];
      reverse := reverse[token := value];
    }

    method LookupToken(placeholder: string) returns (original: string, ok: bool)
      ensures ok <==> placeholder in reverse
      ensures original == if ok then reverse[placeholder] else ""
    {
      ok := placeholder in reverse;
      original := if ok then reverse[placeholder] else "";
    }
  }
}
