/** Groups that refer to each other by name: the validator that runs before every change, and the resolver that follows the
    references at run time. */
module GroupRefs {

  const MAX_DEPTH := 8

  /** A member points to a channel model or, without one, to another group by name. */
  datatype Item = Item(id: int, channelModel: int, ref: string)

  predicate IsRef(i: Item) {
    i.channelModel == 0 && i.ref != ""
  }

  datatype Group = Group(name: string, items: seq<Item>)

  /** The cache of groups and the index by name. */
  datatype Graph = Graph(groups: map<int, Group>, index: map<string, int>)

  function Targets(items: seq<Item>): set<string> {
    set i | i in items && IsRef(i) :: i.ref
  }

  predicate Known(g: Graph, name: string) {
    name in g.index && g.index[name] in g.groups
  }

  function Succ(g: Graph, a: int): set<int>
    requires a in g.groups
  {
    set n | n in Targets(g.groups[a].items) && Known(g, n) :: g.index[n]
  }

  // ---- what every graph of the run satisfies ----

  /** Cache and index name the same groups. */
  ghost predicate Indexed(g: Graph) {
    && (forall a | a in g.groups :: g.groups[a].name in g.index && g.index[g.groups[a].name] == a)
    && (forall n | n in g.index :: g.index[n] in g.groups && g.groups[g.index[n]].name == n)
  }

  ghost predicate NoDangling(g: Graph) {
    forall a, n | a in g.groups && n in Targets(g.groups[a].items) :: n in g.index
  }

  /** A rank that falls along every reference rules out cycles. */
  ghost predicate Ranks(g: Graph, rank: map<int, nat>) {
    && (forall a | a in g.groups :: a in rank)
    && (forall a, b | a in g.groups && b in Succ(g, a) :: b in rank && rank[b] < rank[a])
  }

  ghost predicate Acyclic(g: Graph) {
    exists rank :: Ranks(g, rank)
  }

  ghost predicate Inv(g: Graph) {
    Indexed(g) && NoDangling(g) && Acyclic(g)
  }

  /** No reference chain from a visits more than `budget` groups, a included. */
  predicate Shallow(g: Graph, a: int, budget: nat)
    decreases budget
  {
    budget > 0 && (a in g.groups ==> forall b | b in Succ(g, a) :: Shallow(g, b, budget - 1))
  }

  // ---- the validator ----

  datatype Verdict = Valid | TargetMissing | SelfReference | TooDeep | Cycle

  /** The names referred to, each once, in order of appearance. */
  method RefTargetNames(items: seq<Item>) returns (names: seq<string>)
    ensures forall n :: n in names <==> n in Targets(items)
    ensures forall i, j | 0 <= i < j < |names| :: names[i] != names[j]
  {
    names := [];
    var seen: set<string> := {};
    for i := 0 to |items|
      invariant forall n :: n in seen <==> n in names
      invariant forall n :: n in names <==> n in Targets(items[..i])
      invariant forall j, k | 0 <= j < k < |names| :: names[j] != names[k]
    {
      TargetsSnoc(items, i);
      if IsRef(items[i]) && items[i].ref !in seen {
        seen := seen + {items[i].ref};
        names := names + [items[i].ref];
      }
    }
    assert items[..|items|] == items;
  }

  lemma TargetsSnoc(items: seq<Item>, i: nat)
    requires i < |items|
    ensures Targets(items[..i + 1]) == Targets(items[..i]) + if IsRef(items[i]) then {items[i].ref} else {}
  {
    var a, b := items[..i], items[..i + 1];
    assert b == a + [items[i]];
    forall n ensures n in Targets(b) <==> n in Targets(a) || (IsRef(items[i]) && n == items[i].ref) {
      if n in Targets(a) {
        var x :| x in a && IsRef(x) && x.ref == n;
        assert x in b;
      }
      if IsRef(items[i]) && n == items[i].ref {
        assert items[i] in b;
      }
    }
  }

  /** The edited group, by id, or by name while it is being created and has no id. */
  predicate IsSelf(g: Graph, a: int, selfId: int, selfName: string)
    requires a in g.groups
  {
    a == selfId || (selfId == 0 && selfName != "" && g.groups[a].name == selfName)
  }

  /** A chain of references. */
  ghost predicate Chain(g: Graph, path: seq<int>) {
    && path != [] && (forall i | 0 <= i < |path| :: path[i] in g.groups)
    && forall i | 0 <= i < |path| - 1 :: path[i + 1] in Succ(g, path[i])
  }

  ghost predicate ChainFrom(g: Graph, a: int, path: seq<int>) {
    path != [] && path[0] == a && Chain(g, path)
  }

  function Last(path: seq<int>): int
    requires path != []
  {
    path[|path| - 1]
  }

  /** The references lead from a group to distinct groups only: one chain to each, none longer than the limit, none to the
      edited group. */
  ghost predicate Tree(g: Graph, a: int, selfId: int, selfName: string) {
    && (forall p | ChainFrom(g, a, p) :: |p| <= MAX_DEPTH && !IsSelf(g, Last(p), selfId, selfName))
    && forall p, q | ChainFrom(g, a, p) && ChainFrom(g, a, q) && Last(p) == Last(q) :: p == q
  }

  /** What the validator accepts: every target exists and heads such a tree. */
  ghost predicate Accepted(g: Graph, selfId: int, selfName: string, items: seq<Item>) {
    forall n | n in Targets(items) :: Known(g, n) && Tree(g, g.index[n], selfId, selfName)
  }

  lemma ChainGrows(g: Graph, path: seq<int>, b: int)
    requires Chain(g, path) && b in Succ(g, Last(path))
    ensures Chain(g, path + [b])
  {
    var p := path + [b];
    forall i | 0 <= i < |p| - 1 ensures p[i + 1] in Succ(g, p[i]) {
      assert p[i] == path[i] && (i < |path| - 1 ==> p[i + 1] == path[i + 1]);
    }
  }

  lemma ChainPrefix(g: Graph, path: seq<int>, n: nat)
    requires Chain(g, path) && 0 < n <= |path|
    ensures Chain(g, path[..n])
  {
    hide Succ;
  }

  // ---- the search ----

  /** Every group met so far has the chain it was met by. */
  ghost predicate Met(g: Graph, root: int, via: map<int, seq<int>>) {
    forall a | a in via :: ChainFrom(g, root, via[a]) && Last(via[a]) == a
  }

  /** Groups whose search is over: all their references were met through them. */
  ghost predicate Settled(g: Graph, nodes: set<int>, via: map<int, seq<int>>, selfId: int, selfName: string) {
    forall a | a in nodes ::
      && a in via && a in g.groups && !IsSelf(g, a, selfId, selfName) && |via[a]| <= MAX_DEPTH
      && forall b | b in Succ(g, a) :: b in via && via[b] == via[a] + [b]
  }

  /** Groups met later keep the earlier chains and were met through `trail`. */
  ghost predicate Extends(was: map<int, seq<int>>, via: map<int, seq<int>>, trail: seq<int>) {
    && (forall a | a in was :: a in via && via[a] == was[a])
    && forall a | a in via && a !in was :: trail < via[a]
  }

  /** Of the chains that go on from `trail`, each goes on by one of the first i names. */
  ghost predicate Tried(g: Graph, via: map<int, seq<int>>, trail: seq<int>, names: seq<string>, i: nat) {
    forall a | a in via && trail < via[a] ::
      exists j | 0 <= j < i && j < |names| && Known(g, names[j]) :: g.index[names[j]] == via[a][|trail|]
  }

  /** Why a group does not head a tree. */
  ghost predicate Justified(g: Graph, root: int, v: Verdict, selfId: int, selfName: string, path: seq<int>, other: seq<int>) {
    && ChainFrom(g, root, path)
    && match v
       case SelfReference => IsSelf(g, Last(path), selfId, selfName)
       case TooDeep => |path| > MAX_DEPTH
       case Cycle => ChainFrom(g, root, other) && Last(path) == Last(other) && path != other
       case _ => false
  }

  lemma IndexInjective(g: Graph, names: seq<string>, i: nat, j: nat)
    requires Indexed(g) && i < j < |names| && names[i] != names[j] && Known(g, names[i]) && Known(g, names[j])
    ensures g.index[names[i]] != g.index[names[j]]
  {
  }

  lemma GoesOn(trail: seq<int>, next: int, path: seq<int>)
    ensures trail + [next] <= path ==> trail < path && path[|trail|] == next
  {
    var on := trail + [next];
    assert on <= path ==> path[..|on|] == on && path[..|trail|] == on[..|trail|] == trail && path[|trail|] == on[|trail|];
  }

  /** The next group was not met through `trail` yet. */
  lemma NotTried(g: Graph, via: map<int, seq<int>>, trail: seq<int>, names: seq<string>, i: nat)
    requires Indexed(g) && Tried(g, via, trail, names, i) && i < |names| && Known(g, names[i])
    requires forall j, k | 0 <= j < k < |names| :: names[j] != names[k]
    ensures forall a | a in via :: !(trail + [g.index[names[i]]] <= via[a])
  {
    var next := g.index[names[i]];
    forall a | a in via && trail < via[a] ensures via[a][|trail|] != next {
      var j :| 0 <= j < i && Known(g, names[j]) && g.index[names[j]] == via[a][|trail|];
      IndexInjective(g, names, j, i);
    }
    forall a | a in via ensures trail + [next] <= via[a] ==> trail < via[a] && via[a][|trail|] == next {
      GoesOn(trail, next, via[a]);
    }
  }

  lemma TriedOn(g: Graph, was: map<int, seq<int>>, via: map<int, seq<int>>, trail: seq<int>, names: seq<string>, i: nat)
    requires Tried(g, was, trail, names, i) && i < |names| && Known(g, names[i])
    requires Extends(was[g.index[names[i]] := trail + [g.index[names[i]]]], via, trail + [g.index[names[i]]])
    requires g.index[names[i]] !in was
    ensures Tried(g, via, trail, names, i + 1) && Extends(was, via, trail)
  {
    var next := g.index[names[i]];
    var on := trail + [next];
    assert forall a | a in via && a !in was :: on <= via[a];
    forall a | a in via && on <= via[a] ensures trail < via[a] && via[a][|trail|] == next {
      GoesOn(trail, next, via[a]);
    }
    forall a | a in via && trail < via[a]
      ensures exists j | 0 <= j < i + 1 && j < |names| && Known(g, names[j]) :: g.index[names[j]] == via[a][|trail|]
    {
      if a in was {
        assert via[a] == was[a];
        var j :| 0 <= j < i && j < |names| && Known(g, names[j]) && g.index[names[j]] == via[a][|trail|];
      }
    }
  }

  lemma SettledGrows(g: Graph, nodes: set<int>, was: map<int, seq<int>>, via: map<int, seq<int>>, selfId: int, selfName: string)
    requires Settled(g, nodes, was, selfId, selfName) && forall a | a in was :: a in via && via[a] == was[a]
    ensures Settled(g, nodes, via, selfId, selfName)
  {
    hide Succ, IsSelf;
  }

  lemma MetOn(g: Graph, root: int, via: map<int, seq<int>>, current: int, next: int)
    requires Met(g, root, via) && current in via && current in g.groups && next in Succ(g, current)
    ensures ChainFrom(g, root, via[current] + [next]) && Last(via[current] + [next]) == next
    ensures Met(g, root, via[next := via[current] + [next]])
  {
    ChainGrows(g, via[current], next);
    hide Chain;
  }

  /** Depth-first search from one group. A group met twice is refused, whether it closes a cycle or a diamond. */
  method Walk(g: Graph, current: int, selfId: int, selfName: string, visited: set<int>, depth: nat, ghost via: map<int, seq<int>>)
    returns (v: Verdict, visited': set<int>, ghost via': map<int, seq<int>>, ghost path: seq<int>, ghost other: seq<int>)
    requires Indexed(g) && current in g.groups && current in visited && visited == via.Keys
    requires depth == |via[current]| > 0 && Met(g, via[current][0], via)
    requires forall a | a in via :: !(via[current] < via[a])
    ensures visited' == via'.Keys && Extends(via, via', via[current]) && Met(g, via[current][0], via')
    ensures v.Valid? ==> Settled(g, visited' - visited + {current}, via', selfId, selfName)
    ensures !v.Valid? ==> Justified(g, via[current][0], v, selfId, selfName, path, other)
    decreases MAX_DEPTH + 1 - depth
  {
    ghost var trail, root := via[current], via[current][0];
    visited', via', path, other := visited, via, trail, [];
    if IsSelf(g, current, selfId, selfName) {
      return SelfReference, visited', via', path, other;
    }
    if depth > MAX_DEPTH {
      return TooDeep, visited', via', path, other;
    }
    hide Met, Settled, Extends, Tried, Chain, Succ, Indexed, IsSelf;
    var names := RefTargetNames(g.groups[current].items);
    SearchStarts(g, via, trail, names, selfId, selfName);
    for i := 0 to |names|
      invariant visited' == via'.Keys && Extends(via, via', trail) && Met(g, root, via')
      invariant visited <= visited' && via'[current] == trail
      invariant Tried(g, via', trail, names, i)
      invariant Settled(g, visited' - visited, via', selfId, selfName)
      invariant forall j | 0 <= j < i && Known(g, names[j]) ::
                  g.index[names[j]] in via' && via'[g.index[names[j]]] == trail + [g.index[names[j]]]
    {
      if !Known(g, names[i]) {
        TriedSkip(g, via', trail, names, i);
        continue;
      }
      var next := g.index[names[i]];
      KnownIsSucc(g, current, names[i]);
      MetOn(g, root, via', current, next);
      NotTried(g, via', trail, names, i);
      if next in visited' {
        path, other := trail + [next], via'[next];
        MetAt(g, root, via', next);
        return Cycle, visited', via', path, other;
      }
      ghost var before := via';
      v, visited', via', path, other := Walk(g, next, selfId, selfName, visited' + {next}, depth + 1, before[next := trail + [next]]);
      TriedOn(g, before, via', trail, names, i);
      ExtendsOn(via, before, via', trail);
      if !v.Valid? {
        return;
      }
      SettledGrows(g, before.Keys - visited, before, via', selfId, selfName);
      SettledJoin(g, before.Keys - visited, visited' - (before.Keys + {next}) + {next}, visited' - visited, via', selfId, selfName);
    }
    SearchEnds(g, current, names, via', visited' - visited, selfId, selfName);
    v := Valid;
  }

  lemma SearchStarts(g: Graph, via: map<int, seq<int>>, trail: seq<int>, names: seq<string>, selfId: int, selfName: string)
    requires forall a | a in via :: !(trail < via[a])
    ensures Tried(g, via, trail, names, 0) && Settled(g, via.Keys - via.Keys, via, selfId, selfName) && Extends(via, via, trail)
  {
  }

  lemma TriedSkip(g: Graph, via: map<int, seq<int>>, trail: seq<int>, names: seq<string>, i: nat)
    requires Tried(g, via, trail, names, i)
    ensures Tried(g, via, trail, names, i + 1)
  {
    hide Known;
  }

  lemma KnownIsSucc(g: Graph, a: int, n: string)
    requires a in g.groups && n in Targets(g.groups[a].items) && Known(g, n)
    ensures g.index[n] in Succ(g, a)
  {
  }

  lemma MetAt(g: Graph, root: int, via: map<int, seq<int>>, a: int)
    requires Met(g, root, via) && a in via
    ensures ChainFrom(g, root, via[a]) && Last(via[a]) == a
  {
  }

  lemma ExtendsOn(was: map<int, seq<int>>, mid: map<int, seq<int>>, via: map<int, seq<int>>, trail: seq<int>)
    requires Extends(was, mid, trail) && Extends(mid, via, trail)
    ensures Extends(was, via, trail)
  {
  }

  lemma SettledJoin(g: Graph, a: set<int>, b: set<int>, all: set<int>, via: map<int, seq<int>>, selfId: int, selfName: string)
    requires Settled(g, a, via, selfId, selfName) && Settled(g, b, via, selfId, selfName) && all <= a + b
    ensures Settled(g, all, via, selfId, selfName)
  {
    hide IsSelf, Succ;
  }

  lemma SearchEnds(g: Graph, current: int, names: seq<string>, via: map<int, seq<int>>, nodes: set<int>, selfId: int, selfName: string)
    requires current in g.groups && current in via && !IsSelf(g, current, selfId, selfName) && |via[current]| <= MAX_DEPTH
    requires forall n | n in Targets(g.groups[current].items) :: n in names
    requires forall j | 0 <= j < |names| && Known(g, names[j]) ::
               g.index[names[j]] in via && via[g.index[names[j]]] == via[current] + [g.index[names[j]]]
    requires Settled(g, nodes, via, selfId, selfName)
    ensures Settled(g, nodes + {current}, via, selfId, selfName)
  {
    forall b | b in Succ(g, current) ensures b in via && via[b] == via[current] + [b] {
      var n :| n in Targets(g.groups[current].items) && Known(g, n) && g.index[n] == b;
      assert n in names;
    }
    hide IsSelf, Succ;
  }

  /** After a search that refused nothing, every chain is the one its last group was met by. */
  lemma {:induction false} OnlyChain(g: Graph, via: map<int, seq<int>>, root: int, selfId: int, selfName: string, p: seq<int>)
    requires root in via && via[root] == [root] && Settled(g, via.Keys, via, selfId, selfName) && ChainFrom(g, root, p)
    ensures Last(p) in via && p == via[Last(p)]
    decreases |p|
  {
    if |p| > 1 {
      var q := p[..|p| - 1];
      ChainPrefix(g, p, |p| - 1);
      OnlyChain(g, via, root, selfId, selfName, q);
      assert Last(p) in Succ(g, Last(q));
      assert p == q + [Last(p)];
    } else {
      assert p == [root];
    }
  }

  lemma SettledIsTree(g: Graph, via: map<int, seq<int>>, root: int, selfId: int, selfName: string)
    requires root in via && via[root] == [root] && Settled(g, via.Keys, via, selfId, selfName)
    ensures Tree(g, root, selfId, selfName)
  {
    forall p | ChainFrom(g, root, p) ensures Last(p) in via && p == via[Last(p)] {
      OnlyChain(g, via, root, selfId, selfName, p);
    }
    hide Succ, IsSelf;
  }

  lemma JustifiedIsNoTree(g: Graph, root: int, v: Verdict, selfId: int, selfName: string, path: seq<int>, other: seq<int>)
    requires Justified(g, root, v, selfId, selfName, path, other)
    ensures !Tree(g, root, selfId, selfName)
  {
  }

  /** All references of the members a change would leave behind: accepted exactly when every target heads a tree, and a
      refusal names the target and shows the chains that justify it. */
  method ValidateReferences(g: Graph, selfId: int, selfName: string, items: seq<Item>)
    returns (v: Verdict, ghost name: string, ghost path: seq<int>, ghost other: seq<int>)
    requires Indexed(g)
    ensures v.Valid? <==> Accepted(g, selfId, selfName, items)
    ensures !v.Valid? ==> name in Targets(items) && (v.TargetMissing? <==> !Known(g, name))
    ensures !v.Valid? && !v.TargetMissing? ==> Justified(g, g.index[name], v, selfId, selfName, path, other)
  {
    name, path, other := "", [], [];
    var names := RefTargetNames(items);
    for i := 0 to |names|
      invariant forall j | 0 <= j < i :: Known(g, names[j]) && Tree(g, g.index[names[j]], selfId, selfName)
    {
      name := names[i];
      if !Known(g, names[i]) {
        return TargetMissing, name, path, other;
      }
      var target := g.index[names[i]];
      ghost var via := map[target := [target]];
      var visited: set<int>;
      MetFirst(g, target);
      hide Indexed, Met, Settled, Extends, Tree, Chain, Succ, IsSelf;
      v, visited, via, path, other := Walk(g, target, selfId, selfName, {target}, 1, via);
      if !v.Valid? {
        JustifiedIsNoTree(g, target, v, selfId, selfName, path, other);
        return;
      }
      assert visited - {target} + {target} == via.Keys;
      SettledIsTree(g, via, target, selfId, selfName);
    }
    v := Valid;
  }

  lemma MetFirst(g: Graph, target: int)
    requires target in g.groups
    ensures Met(g, target, map[target := [target]])
  {
    assert Chain(g, [target]);
  }
}
