/** The cycle check before an import: the reference graph as it will be, searched depth first with three colours. */
module GroupCycles {
  import opened Collections

  type Refs = map<string, set<string>>

  /** References that lead somewhere; unknown names are ignored. */
  function Succ(refs: Refs, n: string): set<string>
    requires n in refs
  {
    set r | r in refs[n] && r in refs
  }

  /** A rank that falls along every reference. */
  ghost predicate Ranks(refs: Refs, rank: map<string, nat>) {
    forall n, r | n in refs && r in Succ(refs, n) :: n in rank && r in rank && rank[r] < rank[n]
  }

  ghost predicate Acyclic(refs: Refs) {
    exists rank :: Ranks(refs, rank)
  }

  /** A path of references. */
  ghost predicate Path(refs: Refs, p: seq<string>) {
    && (forall i | 0 <= i < |p| :: p[i] in refs)
    && forall i | 0 <= i < |p| - 1 :: p[i + 1] in Succ(refs, p[i])
  }

  /** A closed path: it leads back to where it starts. */
  ghost predicate Closed(refs: Refs, p: seq<string>) {
    |p| >= 2 && Path(refs, p) && p[0] == p[|p| - 1]
  }

  lemma {:induction false} RankFalls(refs: Refs, rank: map<string, nat>, p: seq<string>, j: nat)
    requires Path(refs, p) && Ranks(refs, rank) && 0 < j < |p|
    ensures p[0] in rank && p[j] in rank && rank[p[j]] < rank[p[0]]
  {
    assert p[j - 1 + 1] in Succ(refs, p[j - 1]);
    if j > 1 {
      RankFalls(refs, rank, p, j - 1);
    }
  }

  lemma ClosedIsCyclic(refs: Refs, p: seq<string>)
    requires Closed(refs, p)
    ensures !Acyclic(refs)
  {
    forall rank ensures !Ranks(refs, rank) {
      if Ranks(refs, rank) {
        RankFalls(refs, rank, p, |p| - 1);
        assert false;
      }
    }
  }

  // ---- the search ----

  datatype Color = Gray | Black

  /** The stack is a path and holds exactly the open names. */
  ghost predicate StackOk(refs: Refs, color: map<string, Color>, stack: seq<string>) {
    && (forall n | n in color :: n in refs)
    && (forall n :: n in stack <==> n in color && color[n] == Gray)
    && (forall i, j | 0 <= i < j < |stack| :: stack[i] != stack[j])
    && Path(refs, stack)
  }

  /** Finished names are ranked, and while nothing was reported everything they refer to finished before them. */
  ghost predicate RanksOk(refs: Refs, color: map<string, Color>, rank: map<string, nat>, clock: nat, clean: bool) {
    && (forall n | n in rank :: rank[n] < clock && n in color && color[n] == Black)
    && (forall n | n in color && color[n] == Black :: n in rank)
    && (clean ==> forall n, r | n in rank && n in refs && r in Succ(refs, n) :: r in rank && rank[r] < rank[n])
  }

  class Finder {
    const refs: Refs
    var color: map<string, Color>        // absent is white
    var stack: seq<string>
    var cycles: seq<seq<string>>
    ghost var rank: map<string, nat>     // order of finishing
    ghost var clock: nat

    constructor (refs: Refs)
      ensures this.refs == refs && color == map[] && stack == [] && cycles == [] && rank == map[] && clock == 0
    {
      this.refs := refs;
      color, stack, cycles, rank, clock := map[], [], [], map[], 0;
    }

    function White(): set<string>
      reads this
    {
      WhiteOf(refs, color)
    }

    ghost predicate Valid()
      reads this
    {
      && StackOk(refs, color, stack)
      && (forall c | c in cycles :: Closed(refs, c))
      && RanksOk(refs, color, rank, clock, cycles == [])
    }

    /** A name met again while it is still open closes a cycle: the stack from its position on, and back to it. */
    method Report(name: string)
      requires Valid() && name in stack && name in Succ(refs, stack[|stack| - 1])
      modifies this`cycles
      ensures Valid() && cycles != [] && old(cycles) <= cycles
    {
      var i := 0;
      while stack[i] != name
        invariant 0 <= i < |stack| && name in stack[i..]
        decreases |stack| - i
      {
        i := i + 1;
      }
      CycleCloses(refs, stack, i, name);
      hide Closed;
      cycles := cycles + [stack[i..] + [name]];
    }

    method Open(name: string)
      requires Valid() && name in refs && name !in color
      requires stack != [] ==> name in Succ(refs, stack[|stack| - 1])
      modifies this`color, this`stack
      ensures Valid() && stack == old(stack) + [name] && color == old(color)[name := Gray]
    {
      OpenStack(refs, color, stack, name);
      hide StackOk, Closed;
      color := color[name := Gray];
      stack := stack + [name];
    }

    method Finish(name: string)
      requires Valid() && stack != [] && stack[|stack| - 1] == name
      requires name in refs && name in color && color[name] == Gray
      requires cycles == [] ==> forall r | r in Succ(refs, name) :: r in color && color[r] == Black
      modifies this`color, this`stack, this`rank, this`clock
      ensures Valid() && stack == old(stack)[..|old(stack)| - 1] && color == old(color)[name := Black]
    {
      FinishStack(refs, color, stack);
      FinishRanks(refs, color, rank, clock, name, cycles == []);
      hide StackOk, RanksOk, Closed;
      stack := stack[..|stack| - 1];
      color := color[name := Black];
      rank := rank[name := clock];
      clock := clock + 1;
    }

    /** Visiting one name from the top of the stack. */
    method Visit(name: string)
      requires Valid() && name in refs
      requires stack != [] ==> name in Succ(refs, stack[|stack| - 1])
      modifies this
      ensures Valid() && stack == old(stack) && name in color
      ensures Grown(old(color), color, {}) && old(cycles) <= cycles
      ensures cycles == [] ==> color[name] == Black
      decreases |White()|, 0
    {
      if name in color {
        if color[name] == Gray {
          Report(name);
        }
        return;
      }
      Open(name);
      FewerWhite(refs, old(color), color, name);
      SubsetCount(White(), old(White()));
      VisitAll(name);
      ghost var after := color;
      Finish(name);
      GrowsShut(old(color), after, color, name);
    }

    /** Visiting everything the open name on top of the stack refers to, in whatever order the map yields it. */
    method VisitAll(name: string)
      requires Valid() && name in refs && stack != [] && stack[|stack| - 1] == name
      modifies this
      ensures Valid() && stack == old(stack)
      ensures Grown(old(color), color, {}) && old(cycles) <= cycles
      ensures cycles == [] ==> forall r | r in Succ(refs, name) :: r in color && color[r] == Black
      decreases |White()|, 2
    {
      var todo := refs[name];
      while todo != {}
        invariant todo <= refs[name]
        invariant Valid() && stack == old(stack)
        invariant Grown(old(color), color, {}) && old(cycles) <= cycles
        invariant cycles == [] ==> forall r | r in Succ(refs, name) && r !in todo :: r in color && color[r] == Black
        decreases |todo|
      {
        hide Valid, Succ;
        SomeName(todo);
        var r :| r in todo;
        todo := todo - {r};
        if r in refs {
          ghost var before := color;
          KnownIsSucc(refs, name, r);
          NoMoreWhite(refs, old(color), color);
          SubsetCount(White(), old(White()));
          Visit(r);
          GrowsOn(old(color), before, color, {});
        } else {
          UnknownIsNotSucc(refs, name, r);
        }
      }
    }
  }

  lemma KnownIsSucc(refs: Refs, name: string, r: string)
    requires name in refs && r in refs[name] && r in refs
    ensures r in Succ(refs, name)
  {
  }

  lemma UnknownIsNotSucc(refs: Refs, name: string, r: string)
    requires name in refs && r !in refs
    ensures r !in Succ(refs, name)
  {
  }

  lemma GrowsShut(was: map<string, Color>, mid: map<string, Color>, now: map<string, Color>, name: string)
    requires name !in was && Grown(was[name := Gray], mid, {}) && now == mid[name := Black]
    ensures Grown(was, now, {})
  {
  }

  lemma NoMoreWhite(refs: Refs, was: map<string, Color>, now: map<string, Color>)
    requires Grown(was, now, {})
    ensures WhiteOf(refs, now) <= WhiteOf(refs, was)
  {
  }

  lemma OpenStack(refs: Refs, color: map<string, Color>, stack: seq<string>, name: string)
    requires StackOk(refs, color, stack) && name in refs && name !in color
    requires stack != [] ==> name in Succ(refs, stack[|stack| - 1])
    ensures StackOk(refs, color[name := Gray], stack + [name])
  {
    hide Succ;
  }

  lemma FinishStack(refs: Refs, color: map<string, Color>, stack: seq<string>)
    requires StackOk(refs, color, stack) && stack != []
    ensures StackOk(refs, color[stack[|stack| - 1] := Black], stack[..|stack| - 1])
  {
    hide Succ;
    var n := |stack| - 1;
    assert stack == stack[..n] + [stack[n]];
    assert stack[n] in stack;
    forall x ensures x in stack[..n] <==> x in stack && x != stack[n] {
      if x in stack && x != stack[n] {
        var i :| 0 <= i < |stack| && stack[i] == x;
        assert stack[..n][i] == x;
      }
    }
  }

  lemma FinishRanks(refs: Refs, color: map<string, Color>, rank: map<string, nat>, clock: nat, name: string, clean: bool)
    requires RanksOk(refs, color, rank, clock, clean) && name in color && color[name] == Gray
    requires name in refs && (clean ==> forall r | r in Succ(refs, name) :: r in color && color[r] == Black)
    ensures RanksOk(refs, color[name := Black], rank[name := clock], clock + 1, clean)
  {
    hide Succ;
  }

  /** Colours only appear: whatever had one keeps it, and new ones are black except for the names still open. */
  ghost predicate Grown(was: map<string, Color>, now: map<string, Color>, pending: set<string>) {
    && (forall n | n in was :: n in now && now[n] == was[n])
    && (forall n | n in now :: n in was || now[n] == Black || n in pending)
  }

  lemma GrowsOn(was: map<string, Color>, mid: map<string, Color>, now: map<string, Color>, pending: set<string>)
    requires Grown(was, mid, pending) && Grown(mid, now, {})
    ensures Grown(was, now, pending)
  {
  }

  function WhiteOf(refs: Refs, color: map<string, Color>): set<string> {
    set n | n in refs && n !in color
  }

  lemma FewerWhite(refs: Refs, was: map<string, Color>, now: map<string, Color>, name: string)
    requires Grown(was, now, {name}) && name in refs && name !in was && name in now
    ensures WhiteOf(refs, now) < WhiteOf(refs, was)
  {
    assert name in WhiteOf(refs, was) && name !in WhiteOf(refs, now);
  }

  lemma CycleCloses(refs: Refs, stack: seq<string>, i: nat, name: string)
    requires Path(refs, stack) && i < |stack| && stack[i] == name && name in Succ(refs, stack[|stack| - 1])
    ensures Closed(refs, stack[i..] + [name])
  {
    var p := stack[i..] + [name];
    forall k | 0 <= k < |p| - 1 ensures p[k + 1] in Succ(refs, p[k]) {
      assert p[k] == stack[i + k];
      assert k + 1 < |stack| - i ==> p[k + 1] == stack[i + k + 1];
    }
  }

  /** Searches from every name in the given order. Nothing is reported exactly when the graph
      has no cycle, and whatever is reported is one. */
  method Detect(refs: Refs, names: seq<string>) returns (cycles: seq<seq<string>>)
    requires forall n :: n in names <==> n in refs
    ensures cycles == [] <==> Acyclic(refs)
    ensures forall c | c in cycles :: Closed(refs, c)
  {
    var f := new Finder(refs);
    for i := 0 to |names|
      invariant f.refs == refs && f.Valid() && f.stack == []
      invariant forall j | 0 <= j < i :: names[j] in f.color
    {
      assert names[i] in names;
      if names[i] !in f.color {
        f.Visit(names[i]);
      }
    }
    cycles := f.cycles;
    if cycles == [] {
      AllFinished(refs, names, f.color, f.rank, f.clock);
    } else {
      assert cycles[0] in cycles;
      ClosedIsCyclic(refs, cycles[0]);
    }
  }

  lemma AllFinished(refs: Refs, names: seq<string>, color: map<string, Color>, rank: map<string, nat>, clock: nat)
    requires StackOk(refs, color, []) && RanksOk(refs, color, rank, clock, true)
    requires (forall n :: n in names <==> n in refs) && forall j | 0 <= j < |names| :: names[j] in color
    ensures Acyclic(refs)
  {
    NothingOpen(refs, color, []);
    forall n | n in refs ensures n in rank {
      var j :| 0 <= j < |names| && names[j] == n;
      assert names[j] in color;
    }
    assert Ranks(refs, rank);
  }

  lemma NothingOpen(refs: Refs, color: map<string, Color>, stack: seq<string>)
    requires StackOk(refs, color, stack) && stack == []
    ensures forall n | n in color :: color[n] == Black
  {
    forall n | n in color ensures color[n] == Black {
      assert n !in stack;
    }
  }
}
