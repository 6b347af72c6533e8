/** Concurrent recalls on one session table. Unwrapping and the first look-up run under the read lock, minting under
    the write lock after a second look-up; each lock section is one atomic step and steps of different callers interleave. */
module RecallRuns {
  import opened Placeholder
  import opened Restore
  import opened MaskSession

  datatype Phase =
    | Unwrapping(value: string, left: nat)
    | Reading(value: string)
    | Writing(value: string)
    | Done(token: string)

  datatype Caller = Caller(asked: string, tag: string, phase: Phase)

  datatype System = System(table: Table, callers: map<nat, Caller>, pos: nat)

  const INITIAL := System(EMPTY_TABLE, map[], 0)

  datatype Action = Begin(id: nat, asked: string, tag: string) | Advance(id: nat)

  predicate Enabled(s: System, a: Action) {
    match a
    case Begin(id, _, _) => id !in s.callers
    case Advance(id) => id in s.callers && !s.callers[id].phase.Done?
  }

  function AfterUnwrap(value: string, left: nat, t: Table): Phase {
    if TokenFree(value) then Reading(value)
    else if left == 0 || value !in t.reverse then Done(value)
    else Unwrapping(t.reverse[value], left - 1)
  }

  function Do(s: System, a: Action, draws: Draws): System
    requires Enabled(s, a)
  {
    match a
    case Begin(id, asked, tag) => s.(callers := s.callers[id := Caller(asked, tag, Unwrapping(asked, MAX_UNWRAP))])
    case Advance(id) =>
      var c := s.callers[id];
      match c.phase
      case Unwrapping(value, left) => s.(callers := s.callers[id := c.(phase := AfterUnwrap(value, left, s.table))])
      case Reading(value) =>
        var next := if value in s.table.forward then Done(s.table.forward[value]) else Writing(value);
        s.(callers := s.callers[id := c.(phase := next)])
      case Writing(value) =>
        var r := RecallPlain(s.table, value, c.tag, draws, s.pos);
        System(r.table, s.callers[id := c.(phase := Done(r.token))], r.pos)
  }

  /** The step does not mint, or one of its 20 draws is unused. */
  predicate Fresh(s: System, a: Action, draws: Draws)
    requires Enabled(s, a)
  {
    a.Advance? && s.callers[a.id].phase.Writing? ==>
      var c := s.callers[a.id];
      c.phase.value in s.table.forward || SomeDrawUnused(s.table.reverse, c.tag, draws, s.pos)
  }

  // ---- what every step keeps ----

  /** The answer a caller may give: the token of a plain value, a placeholder itself. */
  predicate Answers(t: Table, asked: string, token: string) {
    if TokenFree(asked) then asked in t.forward && t.forward[asked] == token else token == asked
  }

  predicate Stands(t: Table, asked: string, value: string) {
    value == asked || (!TokenFree(asked) && asked in t.reverse && t.reverse[asked] == value)
  }

  predicate CallerOk(t: Table, c: Caller) {
    match c.phase
    case Unwrapping(value, left) =>
      (value == c.asked && left == MAX_UNWRAP)
      || (!TokenFree(c.asked) && c.asked in t.reverse && t.reverse[c.asked] == value && left == MAX_UNWRAP - 1)
    case Reading(value) => TokenFree(value) && Stands(t, c.asked, value)
    case Writing(value) => TokenFree(value) && Stands(t, c.asked, value)
    case Done(token) => Answers(t, c.asked, token)
  }

  predicate Inv(s: System) {
    Bijective(s.table) && forall id | id in s.callers :: CallerOk(s.table, s.callers[id])
  }

  /** Both directions of the table are kept. */
  predicate Keeps(before: Table, after: Table) {
    && Grows(before, after)
    && forall k | k in before.reverse :: k in after.reverse && after.reverse[k] == before.reverse[k]
  }

  lemma OthersStayOk(before: Table, after: Table, c: Caller)
    requires Keeps(before, after) && CallerOk(before, c)
    ensures CallerOk(after, c)
  {
    hide TokenFree;
  }

  lemma AdvancedStaysOk(s: System, id: nat, draws: Draws)
    requires Inv(s) && Enabled(s, Advance(id)) && Fresh(s, Advance(id), draws)
    ensures var n := Do(s, Advance(id), draws);
            Bijective(n.table) && Keeps(s.table, n.table) && CallerOk(n.table, n.callers[id])
  {
    hide TokenFree, IsToken;
    var c := s.callers[id];
    if c.phase.Writing? {
      WriteStaysOk(s.table, c, draws, s.pos);
    } else if c.phase.Unwrapping? {
      UnwrapStaysOk(s.table, c);
    }
  }

  lemma UnwrapStaysOk(t: Table, c: Caller)
    requires Bijective(t) && CallerOk(t, c) && c.phase.Unwrapping?
    ensures CallerOk(t, c.(phase := AfterUnwrap(c.phase.value, c.phase.left, t)))
  {
    hide IsToken, TokenFree;
  }

  lemma WriteStaysOk(t: Table, c: Caller, draws: Draws, pos: nat)
    requires Bijective(t) && CallerOk(t, c) && c.phase.Writing?
    requires c.phase.value in t.forward || SomeDrawUnused(t.reverse, c.tag, draws, pos)
    ensures var r := RecallPlain(t, c.phase.value, c.tag, draws, pos);
            Bijective(r.table) && Keeps(t, r.table) && Answers(r.table, c.asked, r.token)
  {
    hide TokenFree, IsToken, SomeDrawUnused;
    var v := c.phase.value;
    RecallPlainKeepsBijective(t, v, c.tag, draws, pos);
    var r := RecallPlain(t, v, c.tag, draws, pos);
    GrowsBack(t, r.table);
    assert r.table.forward[v] == r.token;
    if c.asked != v {
      assert t.forward[v] == c.asked;
    }
  }

  /** A step keeps the table bijective and every answer right exactly when what it mints is fresh. */
  lemma StepKeeps(s: System, a: Action, draws: Draws)
    requires Inv(s) && Enabled(s, a)
    ensures Inv(Do(s, a, draws)) <==> Fresh(s, a, draws)
    ensures Fresh(s, a, draws) ==> Keeps(s.table, Do(s, a, draws).table)
  {
    hide TokenFree, IsToken, CallerOk, Bijective, Keeps, SomeDrawUnused;
    var n := Do(s, a, draws);
    if !Fresh(s, a, draws) {
      CallerPlain(s, a.id);
      var c := s.callers[a.id];
      RecallPlainKeepsBijective(s.table, c.phase.value, c.tag, draws, s.pos);
    } else if a.Advance? {
      AdvancedStaysOk(s, a.id, draws);
      forall id | id in n.callers && id != a.id ensures CallerOk(n.table, n.callers[id]) {
        OthersStayOk(s.table, n.table, s.callers[id]);
      }
    } else {
      BeginOk(s.table, a.asked, a.tag);
    }
  }

  lemma CallerPlain(s: System, id: nat)
    requires Inv(s) && id in s.callers && s.callers[id].phase.Writing?
    ensures TokenFree(s.callers[id].phase.value)
  {
  }

  lemma BeginOk(t: Table, asked: string, tag: string)
    ensures CallerOk(t, Caller(asked, tag, Unwrapping(asked, MAX_UNWRAP))) && Keeps(t, t)
  {
  }

  // ---- whole runs ----

  predicate Runs(s: System, acts: seq<Action>, draws: Draws)
    decreases |acts|
  {
    acts == [] || (Enabled(s, acts[0]) && Runs(Do(s, acts[0], draws), acts[1..], draws))
  }

  function RunOf(s: System, acts: seq<Action>, draws: Draws): System
    requires Runs(s, acts, draws)
    decreases |acts|
  {
    if acts == [] then s else RunOf(Do(s, acts[0], draws), acts[1..], draws)
  }

  predicate AllFresh(s: System, acts: seq<Action>, draws: Draws)
    requires Runs(s, acts, draws)
    decreases |acts|
  {
    acts == [] || (Fresh(s, acts[0], draws) && AllFresh(Do(s, acts[0], draws), acts[1..], draws))
  }

  /** In every interleaving with fresh minting the two maps stay mutual inverses and only grow. */
  lemma {:induction false} RunKeeps(s: System, acts: seq<Action>, draws: Draws)
    requires Inv(s) && Runs(s, acts, draws) && AllFresh(s, acts, draws)
    ensures Inv(RunOf(s, acts, draws)) && Keeps(s.table, RunOf(s, acts, draws).table)
    decreases |acts|
  {
    hide Inv, Fresh, Do;
    if acts != [] {
      StepKeeps(s, acts[0], draws);
      RunKeeps(Do(s, acts[0], draws), acts[1..], draws);
    }
  }

  lemma InitialInv()
    ensures Inv(INITIAL)
  {
  }

  /** Callers that asked for the same value were given the same token, and it decodes to that value
      now and at the end of every continuation. */
  lemma ConcurrentRecallsAgree(before: seq<Action>, after: seq<Action>, draws: Draws, a: nat, b: nat)
    requires Runs(INITIAL, before, draws) && AllFresh(INITIAL, before, draws)
    requires var s := RunOf(INITIAL, before, draws);
             && Runs(s, after, draws) && AllFresh(s, after, draws)
             && a in s.callers && b in s.callers && s.callers[a].phase.Done? && s.callers[b].phase.Done?
             && s.callers[a].asked == s.callers[b].asked
    ensures var s := RunOf(INITIAL, before, draws);
            var end := RunOf(s, after, draws);
            var asked, token := s.callers[a].asked, s.callers[a].phase.token;
            && s.callers[b].phase.token == token
            && (TokenFree(asked) ==> token in end.table.reverse && end.table.reverse[token] == asked)
  {
    hide TokenFree, IsToken, Runs, RunOf, AllFresh;
    InitialInv();
    RunKeeps(INITIAL, before, draws);
    var s := RunOf(INITIAL, before, draws);
    RunKeeps(s, after, draws);
    assert CallerOk(s.table, s.callers[a]) && CallerOk(s.table, s.callers[b]);
  }
}
