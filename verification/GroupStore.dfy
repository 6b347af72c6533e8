/** Creating, changing and deleting groups keeps the reference graph free of cycles and of dangling references, and the
    run-time resolver relies on it. */
module GroupStore {
  import opened GroupRefs

  // ---- the three changes ----

  function Created(g: Graph, id: int, group: Group): Graph {
    Graph(g.groups[id := group], g.index[group.name := id])
  }

  function Updated(g: Graph, id: int, group: Group): Graph
    requires id in g.groups
  {
    var before := g.groups[id].name;
    var index := g.index[group.name := id];
    Graph(g.groups[id := group], if before != group.name then index - {before} else index)
  }

  function Deleted(g: Graph, id: int): Graph
    requires id in g.groups
  {
    Graph(g.groups - {id}, g.index - {g.groups[id].name})
  }

  /** Some group other than `exclude` refers to the name. */
  ghost predicate Referred(g: Graph, name: string, exclude: int) {
    exists a | a in g.groups :: a != exclude && name in Targets(g.groups[a].items)
  }

  ghost predicate CanCreate(g: Graph, id: int, group: Group) {
    id !in g.groups && group.name !in g.index && Accepted(g, 0, group.name, group.items)
  }

  ghost predicate CanUpdate(g: Graph, id: int, group: Group) {
    && id in g.groups && Accepted(g, id, g.groups[id].name, group.items)
    && (group.name != g.groups[id].name ==> group.name !in g.index && !Referred(g, g.groups[id].name, id))
  }

  ghost predicate CanDelete(g: Graph, id: int) {
    id in g.groups && !Referred(g, g.groups[id].name, id)
  }

  // ---- what is reached through some members ----

  function Heads(g: Graph, items: seq<Item>): set<int> {
    set n | n in Targets(items) && Known(g, n) :: g.index[n]
  }

  /** A chain that starts at a group the members refer to. */
  ghost predicate Below(g: Graph, items: seq<Item>, path: seq<int>) {
    path != [] && path[0] in Heads(g, items) && Chain(g, path)
  }

  ghost function Reached(g: Graph, items: seq<Item>): set<int> {
    set a | a in g.groups && exists p :: Below(g, items, p) && Last(p) == a
  }

  ghost predicate ClosedSet(g: Graph, nodes: set<int>) {
    forall a | a in nodes :: a in g.groups && Succ(g, a) <= nodes
  }

  lemma SuccExists(g: Graph, a: int)
    requires a in g.groups
    ensures forall b | b in Succ(g, a) :: b in g.groups
  {
  }

  lemma ReachedClosed(g: Graph, items: seq<Item>)
    ensures Heads(g, items) <= Reached(g, items) && ClosedSet(g, Reached(g, items))
  {
    forall a | a in Heads(g, items) ensures a in Reached(g, items) {
      assert Below(g, items, [a]) && Last([a]) == a;
    }
    hide Heads, Succ, Chain;
    forall a, b | a in Reached(g, items) && b in Succ(g, a) ensures b in Reached(g, items) {
      var p :| Below(g, items, p) && Last(p) == a;
      ChainGrows(g, p, b);
      SuccExists(g, a);
      assert Below(g, items, p + [b]) && Last(p + [b]) == b;
    }
  }

  lemma AcceptedAvoids(g: Graph, selfId: int, selfName: string, items: seq<Item>)
    requires Accepted(g, selfId, selfName, items)
    ensures selfId !in Reached(g, items)
    ensures forall n | n in Targets(items) :: n in g.index && g.index[n] in Heads(g, items)
    ensures forall q | Below(g, items, q) :: |q| <= MAX_DEPTH
  {
    hide Succ, Chain;
    forall q | Below(g, items, q) ensures |q| <= MAX_DEPTH && Last(q) != selfId {
      var n :| n in Targets(items) && Known(g, n) && g.index[n] == q[0];
      assert ChainFrom(g, g.index[n], q) && Tree(g, g.index[n], selfId, selfName);
    }
  }

  // ---- they keep the invariant ----

  lemma {:induction false} RankBound(nodes: set<int>, rank: map<int, nat>) returns (bound: nat)
    requires forall a | a in nodes :: a in rank
    ensures forall a | a in nodes :: rank[a] < bound
    decreases |nodes|
  {
    if exists a :: a in nodes {
      var a :| a in nodes;
      bound := RankBound(nodes - {a}, rank);
      bound := if bound > rank[a] then bound else rank[a] + 1;
    } else {
      bound := 0;
    }
  }

  /** One group gets new members whose references never lead back to it; every other group refers to the same groups as before. */
  ghost predicate Regrafted(g: Graph, t: Graph, id: int, items: seq<Item>) {
    && id !in Reached(g, items) && id in t.groups && Succ(t, id) == Heads(g, items)
    && (forall a | a in t.groups && a != id :: a in g.groups)
    && forall a | a in g.groups && a != id :: a in t.groups && Succ(t, a) == Succ(g, a)
  }

  lemma RegraftKeepsAcyclic(g: Graph, t: Graph, id: int, items: seq<Item>)
    requires Acyclic(g) && Regrafted(g, t, id, items)
    ensures Acyclic(t)
  {
    var seen := Reached(g, items);
    ReachedClosed(g, items);
    var rank :| Ranks(g, rank);
    var bound := RankBound(g.groups.Keys, rank);
    var lifted := Lifted(rank, g.groups.Keys, seen, id, bound);
    hide Reached, Heads, Succ;
    forall a, b | a in t.groups && b in Succ(t, a) ensures b in lifted && lifted[b] < lifted[a] {
      SuccExists(t, a);
      if a != id {
        assert b in Succ(g, a) && b in rank && rank[b] < rank[a];
        SuccExists(g, a);
      }
    }
    assert Ranks(t, lifted);
  }

  /** Ranks in which everything outside the closed set `seen` stands above it. */
  ghost function Lifted(rank: map<int, nat>, nodes: set<int>, seen: set<int>, id: int, bound: nat): map<int, nat>
    requires nodes <= rank.Keys && seen <= nodes
  {
    map a | a in nodes + {id} :: if a in seen then rank[a] else if a in nodes then rank[a] + bound else bound
  }

  /** References that name the same groups before and after lead to the same groups. */
  lemma SameHeads(g: Graph, t: Graph, items: seq<Item>)
    requires forall n | n in Targets(items) :: Known(g, n) && Known(t, n) && t.index[n] == g.index[n]
    ensures Heads(t, items) == Heads(g, items)
  {
    hide Targets;
  }

  lemma SuccIsHeads(g: Graph, a: int)
    requires a in g.groups
    ensures Succ(g, a) == Heads(g, g.groups[a].items)
  {
  }

  lemma Regraft(g: Graph, t: Graph, id: int, items: seq<Item>)
    requires Indexed(g) && Indexed(t) && id in t.groups && t.groups[id].items == items && id !in Reached(g, items)
    requires t.groups.Keys == g.groups.Keys + {id} && forall a | a in g.groups && a != id :: t.groups[a].items == g.groups[a].items
    requires forall a, n | a in t.groups && n in Targets(t.groups[a].items) ::
               n in g.index && n in t.index && t.index[n] == g.index[n]
    ensures Regrafted(g, t, id, items) && NoDangling(t)
  {
    hide Heads, Reached, Succ;
    forall a | a in t.groups ensures Succ(t, a) == Heads(g, t.groups[a].items) {
      SameHeads(g, t, t.groups[a].items);
      SuccIsHeads(t, a);
    }
    forall a | a in g.groups ensures Succ(g, a) == Heads(g, g.groups[a].items) {
      SuccIsHeads(g, a);
    }
  }

  lemma CreateRegrafts(g: Graph, id: int, group: Group)
    requires Inv(g) && CanCreate(g, id, group)
    ensures Regrafted(g, Created(g, id, group), id, group.items)
    ensures Indexed(Created(g, id, group)) && NoDangling(Created(g, id, group))
  {
    AcceptedAvoids(g, 0, group.name, group.items);
    var t := Created(g, id, group);
    hide Accepted, Acyclic, Targets, Heads;
    assert id !in Reached(g, group.items);
    hide Reached;
    assert t.groups.Keys == g.groups.Keys + {id};
    Regraft(g, t, id, group.items);
  }

  lemma CreateKeepsInv(g: Graph, id: int, group: Group)
    requires Inv(g) && CanCreate(g, id, group)
    ensures Inv(Created(g, id, group))
  {
    CreateRegrafts(g, id, group);
    hide Regrafted, Acyclic, Indexed, NoDangling, Accepted, Created;
    RegraftKeepsAcyclic(g, Created(g, id, group), id, group.items);
  }

  lemma UpdateIndexed(g: Graph, id: int, group: Group)
    requires Indexed(g) && id in g.groups && (group.name != g.groups[id].name ==> group.name !in g.index)
    ensures Indexed(Updated(g, id, group))
  {
  }

  /** A renamed group has no referrer: neither another group nor, by acceptance, the group itself. */
  lemma UpdateTargets(g: Graph, id: int, group: Group, a: int, n: string)
    requires Inv(g) && CanUpdate(g, id, group)
    requires a in g.groups && n in Targets(Updated(g, id, group).groups[a].items)
    ensures var t := Updated(g, id, group); n in g.index && n in t.index && t.index[n] == g.index[n]
  {
    AcceptedAvoids(g, id, g.groups[id].name, group.items);
    ReachedClosed(g, group.items);
    hide Accepted, Acyclic, Targets, Heads, Reached;
    assert a != id ==> n in Targets(g.groups[a].items);
  }

  lemma UpdateRegrafts(g: Graph, id: int, group: Group)
    requires Inv(g) && CanUpdate(g, id, group)
    ensures Regrafted(g, Updated(g, id, group), id, group.items)
    ensures Indexed(Updated(g, id, group)) && NoDangling(Updated(g, id, group))
  {
    var t := Updated(g, id, group);
    AcceptedAvoids(g, id, g.groups[id].name, group.items);
    forall a, n | a in g.groups && n in Targets(t.groups[a].items)
      ensures n in g.index && n in t.index && t.index[n] == g.index[n]
    {
      UpdateTargets(g, id, group, a, n);
    }
    UpdateIndexed(g, id, group);
    hide CanUpdate, Acyclic, Reached, Targets, Heads;
    assert t.groups.Keys == g.groups.Keys + {id};
    Regraft(g, t, id, group.items);
  }

  lemma UpdateKeepsInv(g: Graph, id: int, group: Group)
    requires Inv(g) && CanUpdate(g, id, group)
    ensures Inv(Updated(g, id, group))
  {
    UpdateRegrafts(g, id, group);
    hide Regrafted, Acyclic, Indexed, NoDangling, Accepted, Updated;
    RegraftKeepsAcyclic(g, Updated(g, id, group), id, group.items);
  }

  lemma DeleteKeepsInv(g: Graph, id: int)
    requires Inv(g) && CanDelete(g, id)
    ensures Inv(Deleted(g, id))
  {
    var t := Deleted(g, id);
    forall a | a in t.groups ensures Succ(t, a) <= Succ(g, a) && g.groups[id].name !in Targets(g.groups[a].items) {
    }
    var rank :| Ranks(g, rank);
    assert Ranks(t, rank);
  }

  // ---- whole runs ----

  ghost predicate Creates(g: Graph, t: Graph) {
    exists id, group :: CanCreate(g, id, group) && t == Created(g, id, group)
  }

  ghost predicate Updates(g: Graph, t: Graph) {
    exists id, group :: CanUpdate(g, id, group) && t == Updated(g, id, group)
  }

  ghost predicate Deletes(g: Graph, t: Graph) {
    exists id :: CanDelete(g, id) && t == Deleted(g, id)
  }

  ghost predicate Change(g: Graph, t: Graph) {
    t == g || Creates(g, t) || Updates(g, t) || Deletes(g, t)
  }

  lemma ChangeKeepsInv(g: Graph, t: Graph)
    requires Inv(g) && Change(g, t)
    ensures Inv(t)
  {
    hide Inv, Accepted, Referred;
    if Creates(g, t) {
      var id, group :| CanCreate(g, id, group) && t == Created(g, id, group);
      CreateKeepsInv(g, id, group);
    } else if Updates(g, t) {
      var id, group :| CanUpdate(g, id, group) && t == Updated(g, id, group);
      UpdateKeepsInv(g, id, group);
    } else if Deletes(g, t) {
      var id :| CanDelete(g, id) && t == Deleted(g, id);
      DeleteKeepsInv(g, id);
    }
  }

  /** Every run of creations, changes and deletions from the empty cache keeps the graph acyclic, without dangling
      references, and the index in step with the cache. */
  lemma {:induction false} RunsStayAcyclic(run: seq<Graph>, n: nat)
    requires n < |run| && run[0] == Graph(map[], map[])
    requires forall i | 0 < i < |run| :: Change(run[i - 1], run[i])
    ensures Inv(run[n])
  {
    if n > 0 {
      RunsStayAcyclic(run, n - 1);
      ChangeKeepsInv(run[n - 1], run[n]);
    } else {
      assert Ranks(run[0], map[]);
    }
  }

  // ---- depth ----

  lemma ChainRest(g: Graph, p: seq<int>)
    requires Chain(g, p) && |p| > 1
    ensures p[1] in Succ(g, p[0]) && ChainFrom(g, p[1], p[1..]) && Last(p[1..]) == Last(p)
  {
    hide Succ;
  }

  lemma ChainCons(g: Graph, a: int, p: seq<int>)
    requires a in g.groups && Chain(g, p) && p[0] in Succ(g, a)
    ensures ChainFrom(g, a, [a] + p) && Last([a] + p) == Last(p)
  {
    var q := [a] + p;
    forall i | 0 <= i < |q| - 1 ensures q[i + 1] in Succ(g, q[i]) {
      assert q[i + 1] == p[i] && (i > 0 ==> q[i] == p[i - 1]);
    }
  }

  /** A budget suffices exactly when no chain is longer. */
  lemma {:induction false} ShallowIsChains(g: Graph, a: int, budget: nat)
    requires a in g.groups
    ensures Shallow(g, a, budget) <==> forall p | ChainFrom(g, a, p) :: |p| <= budget
    decreases budget
  {
    assert ChainFrom(g, a, [a]);
    if budget > 0 {
      hide Succ, Chain;
      SuccExists(g, a);
      forall b | b in Succ(g, a) ensures Shallow(g, b, budget - 1) <==> forall p | ChainFrom(g, b, p) :: |p| <= budget - 1 {
        ShallowIsChains(g, b, budget - 1);
      }
      if Shallow(g, a, budget) {
        forall p | ChainFrom(g, a, p) ensures |p| <= budget {
          if |p| > 1 {
            ChainRest(g, p);
          }
        }
      }
      if forall p | ChainFrom(g, a, p) :: |p| <= budget {
        forall b, p | b in Succ(g, a) && ChainFrom(g, b, p) ensures |p| <= budget - 1 {
          ChainCons(g, a, p);
        }
      }
    }
  }

  lemma {:induction false} ShallowFrame(g: Graph, t: Graph, a: int, budget: nat, nodes: set<int>)
    requires a in nodes && ClosedSet(g, nodes) && forall x | x in nodes :: x in t.groups && Succ(t, x) == Succ(g, x)
    ensures Shallow(t, a, budget) <==> Shallow(g, a, budget)
    decreases budget
  {
    if budget > 0 {
      forall b | b in Succ(g, a) ensures Shallow(t, b, budget - 1) <==> Shallow(g, b, budget - 1) {
        ShallowFrame(g, t, b, budget - 1, nodes);
      }
    }
  }

  /** How deep the changed group is afterwards, told by the chains below its new members. */
  lemma RegraftedDepth(g: Graph, t: Graph, id: int, items: seq<Item>, budget: nat)
    requires Regrafted(g, t, id, items)
    ensures Shallow(t, id, budget) <==> budget > 0 && forall q | Below(g, items, q) :: |q| < budget
  {
    var nodes := Reached(g, items);
    ReachedClosed(g, items);
    hide Heads, Reached, Succ, Chain;
    if budget > 0 {
      forall b | b in Heads(g, items)
        ensures Shallow(t, b, budget - 1) <==> forall q | ChainFrom(g, b, q) :: |q| < budget
      {
        ShallowFrame(g, t, b, budget - 1, nodes);
        ShallowIsChains(g, b, budget - 1);
      }
      assert Shallow(t, id, budget) <==> forall b | b in Heads(g, items) :: Shallow(t, b, budget - 1);
      assert forall q :: Below(g, items, q) <==> q != [] && q[0] in Heads(g, items) && ChainFrom(g, q[0], q);
    }
  }

  lemma CreatedIsShallow(g: Graph, id: int, group: Group)
    requires Inv(g) && CanCreate(g, id, group)
    ensures Shallow(Created(g, id, group), id, MAX_DEPTH + 1)
  {
    CreateRegrafts(g, id, group);
    AcceptedAvoids(g, 0, group.name, group.items);
    hide Regrafted, Shallow, Accepted, Inv, Below;
    RegraftedDepth(g, Created(g, id, group), id, group.items, MAX_DEPTH + 1);
  }

  lemma UpdatedIsShallow(g: Graph, id: int, group: Group)
    requires Inv(g) && CanUpdate(g, id, group)
    ensures Shallow(Updated(g, id, group), id, MAX_DEPTH + 1)
  {
    UpdateRegrafts(g, id, group);
    AcceptedAvoids(g, id, g.groups[id].name, group.items);
    hide Regrafted, Shallow, Accepted, Inv, Below;
    RegraftedDepth(g, Updated(g, id, group), id, group.items, MAX_DEPTH + 1);
  }

  /** Every chain from a to the changed group, continued below one of its new members, stays within the budget. */
  ghost predicate Fits(g: Graph, id: int, items: seq<Item>, a: int, budget: nat) {
    forall p, q | ChainFrom(g, a, p) && Last(p) == id && Below(g, items, q) :: |p| + |q| <= budget
  }

  lemma {:induction false} RankFalls(g: Graph, rank: map<int, nat>, p: seq<int>)
    requires Ranks(g, rank) && Chain(g, p) && |p| > 1
    ensures p[0] in rank && Last(p) in rank && rank[Last(p)] < rank[p[0]]
    decreases |p|
  {
    ChainRest(g, p);
    if |p| > 2 {
      RankFalls(g, rank, p[1..]);
    }
  }

  lemma FitsHere(g: Graph, id: int, items: seq<Item>, budget: nat)
    requires Acyclic(g) && id in g.groups
    ensures Fits(g, id, items, id, budget) <==> forall q | Below(g, items, q) :: |q| < budget
  {
    var rank :| Ranks(g, rank);
    assert ChainFrom(g, id, [id]) && Last([id]) == id;
    hide Chain, Ranks, Succ, Heads;
    forall p | ChainFrom(g, id, p) && Last(p) == id ensures |p| == 1 {
      if |p| > 1 {
        RankFalls(g, rank, p);
      }
    }
    assert |[id]| == 1;
  }

  lemma FitsStep(g: Graph, id: int, items: seq<Item>, a: int, budget: nat)
    requires a in g.groups && a != id && budget > 0
    ensures Fits(g, id, items, a, budget) <==> forall b | b in Succ(g, a) :: Fits(g, id, items, b, budget - 1)
  {
    hide Succ, Chain, Below;
    forall p | ChainFrom(g, a, p) && Last(p) == id
      ensures |p| > 1 && p[1] in Succ(g, a) && ChainFrom(g, p[1], p[1..]) && Last(p[1..]) == id
    {
      ChainRest(g, p);
    }
    forall b, p | b in Succ(g, a) && ChainFrom(g, b, p) ensures ChainFrom(g, a, [a] + p) && Last([a] + p) == Last(p) {
      ChainCons(g, a, p);
    }
  }

  /** A change leaves a group within its budget exactly when the new chains through the changed group fit. */
  lemma {:induction false} RegraftKeepsDepthIff(g: Graph, t: Graph, id: int, items: seq<Item>, a: int, budget: nat)
    requires Acyclic(g) && Regrafted(g, t, id, items) && a in g.groups && Shallow(g, a, budget)
    ensures Shallow(t, a, budget) <==> Fits(g, id, items, a, budget)
    decreases budget
  {
    if a == id {
      FitsHere(g, id, items, budget);
      RegraftedDepth(g, t, id, items, budget);
    } else {
      FitsStep(g, id, items, a, budget);
      SuccExists(g, a);
      forall b | b in Succ(g, a) ensures Shallow(t, b, budget - 1) <==> Fits(g, id, items, b, budget - 1) {
        RegraftKeepsDepthIff(g, t, id, items, b, budget - 1);
      }
      hide Succ, Fits, Acyclic;
    }
  }

  /** For every accepted change and every older group within the resolver's limit: it stays so exactly when no chain to the
      changed group, continued below the new members, has more than MAX_DEPTH + 1 groups. */
  lemma UpdateKeepsDepthIff(g: Graph, id: int, group: Group, a: int)
    requires Inv(g) && CanUpdate(g, id, group) && a in g.groups && Shallow(g, a, MAX_DEPTH + 1)
    ensures Shallow(Updated(g, id, group), a, MAX_DEPTH + 1) <==> Fits(g, id, group.items, a, MAX_DEPTH + 1)
  {
    UpdateRegrafts(g, id, group);
    hide CanUpdate, Regrafted, Shallow, Fits, Updated, Acyclic;
    RegraftKeepsDepthIff(g, Updated(g, id, group), id, group.items, a, MAX_DEPTH + 1);
  }

  /** A new group is referred to by nobody, so every older one stays as deep as it was. */
  lemma CreateKeepsDepth(g: Graph, id: int, group: Group, a: int)
    requires Inv(g) && CanCreate(g, id, group) && a in g.groups && Shallow(g, a, MAX_DEPTH + 1)
    ensures Shallow(Created(g, id, group), a, MAX_DEPTH + 1)
  {
    CreateRegrafts(g, id, group);
    assert Fits(g, id, group.items, a, MAX_DEPTH + 1);
    hide Regrafted, Shallow, Fits, Created, Acyclic;
    RegraftKeepsDepthIff(g, Created(g, id, group), id, group.items, a, MAX_DEPTH + 1);
  }

  lemma DeleteKeepsDepth(g: Graph, id: int, a: int)
    requires Inv(g) && CanDelete(g, id) && a in g.groups && a != id && Shallow(g, a, MAX_DEPTH + 1)
    ensures Shallow(Deleted(g, id), a, MAX_DEPTH + 1)
  {
    var t := Deleted(g, id);
    DeletedSucc(g, id);
    assert ClosedSet(g, t.groups.Keys);
    hide Succ, Shallow, Acyclic, Deleted;
    ShallowFrame(g, t, a, MAX_DEPTH + 1, t.groups.Keys);
  }

  lemma DeletedSucc(g: Graph, id: int)
    requires Inv(g) && CanDelete(g, id)
    ensures forall a | a in g.groups && a != id :: Succ(Deleted(g, id), a) == Succ(g, a) && id !in Succ(g, a)
  {
    var t := Deleted(g, id);
    hide Acyclic;
    forall a | a in g.groups && a != id ensures Succ(t, a) == Succ(g, a) && id !in Succ(g, a) {
      assert g.groups[id].name !in Targets(g.groups[a].items);
    }
  }

  ghost predicate AllShallow(g: Graph) {
    forall a | a in g.groups :: Shallow(g, a, MAX_DEPTH + 1)
  }

  ghost predicate FittingUpdate(g: Graph, t: Graph, id: int, group: Group) {
    CanUpdate(g, id, group) && t == Updated(g, id, group) && forall a | a in g.groups :: Fits(g, id, group.items, a, MAX_DEPTH + 1)
  }

  /** The changes after which every group is still within the limit. */
  ghost predicate ShallowChange(g: Graph, t: Graph) {
    t == g || Creates(g, t) || (exists id, group :: FittingUpdate(g, t, id, group)) || Deletes(g, t)
  }

  lemma UpdateKeepsAllShallowIff(g: Graph, id: int, group: Group)
    requires Inv(g) && CanUpdate(g, id, group) && AllShallow(g)
    ensures AllShallow(Updated(g, id, group)) <==> forall a | a in g.groups :: Fits(g, id, group.items, a, MAX_DEPTH + 1)
  {
    hide Shallow, Fits, Inv, Accepted, Referred;
    forall a | a in g.groups
      ensures Shallow(Updated(g, id, group), a, MAX_DEPTH + 1) <==> Fits(g, id, group.items, a, MAX_DEPTH + 1)
    {
      UpdateKeepsDepthIff(g, id, group, a);
    }
    assert Updated(g, id, group).groups.Keys == g.groups.Keys;
  }

  lemma CreateKeepsAllShallow(g: Graph, t: Graph)
    requires Inv(g) && Creates(g, t) && AllShallow(g)
    ensures AllShallow(t)
  {
    var id, group :| CanCreate(g, id, group) && t == Created(g, id, group);
    hide Shallow, Inv, Accepted;
    CreatedIsShallow(g, id, group);
    forall a | a in g.groups ensures Shallow(Created(g, id, group), a, MAX_DEPTH + 1) {
      CreateKeepsDepth(g, id, group, a);
    }
  }

  lemma DeleteKeepsAllShallow(g: Graph, t: Graph)
    requires Inv(g) && Deletes(g, t) && AllShallow(g)
    ensures AllShallow(t)
  {
    var id :| CanDelete(g, id) && t == Deleted(g, id);
    hide Shallow, Inv, Referred;
    forall a | a in Deleted(g, id).groups ensures Shallow(Deleted(g, id), a, MAX_DEPTH + 1) {
      DeleteKeepsDepth(g, id, a);
    }
  }

  lemma UpdateKeepsAllShallow(g: Graph, t: Graph, id: int, group: Group)
    requires Inv(g) && FittingUpdate(g, t, id, group) && AllShallow(g)
    ensures AllShallow(t) && Updates(g, t)
  {
    hide Inv, CanUpdate, Accepted, Referred, AllShallow, Fits;
    UpdateKeepsAllShallowIff(g, id, group);
  }

  lemma ShallowChangeKeeps(g: Graph, t: Graph)
    requires Inv(g) && AllShallow(g) && ShallowChange(g, t)
    ensures Inv(t) && AllShallow(t)
  {
    hide Inv, AllShallow, Creates, Updates, Deletes, FittingUpdate;
    if Creates(g, t) {
      CreateKeepsAllShallow(g, t);
    } else if exists id, group :: FittingUpdate(g, t, id, group) {
      var id, group :| FittingUpdate(g, t, id, group);
      UpdateKeepsAllShallow(g, t, id, group);
    } else if Deletes(g, t) {
      DeleteKeepsAllShallow(g, t);
    }
    ChangeKeepsInv(g, t);
  }

  /** Runs in which every change of a group fits below the groups above it keep all groups within the resolver's limit. */
  lemma {:induction false} RunsStayShallow(run: seq<Graph>, n: nat)
    requires n < |run| && run[0] == Graph(map[], map[])
    requires forall i | 0 < i < |run| :: ShallowChange(run[i - 1], run[i])
    ensures Inv(run[n]) && AllShallow(run[n])
  {
    if n > 0 {
      RunsStayShallow(run, n - 1);
      ShallowChangeKeeps(run[n - 1], run[n]);
    } else {
      assert Ranks(run[0], map[]);
    }
  }

  // ---- the run-time resolver ----

  datatype Hop = Hop(group: int, item: Item)

  datatype Resolution = Resolved | NothingPicked | TargetGone | Looping | TooLong

  datatype Option<T> = None | Some(value: T)

  /** The hops so far: the groups in `visited`, each once, ending in `current` with the member `item` of it. */
  ghost predicate Trail(g: Graph, hops: seq<Hop>, visited: set<int>, current: int, item: Item) {
    && hops != [] && hops[|hops| - 1] == Hop(current, item) && current in g.groups && item in g.groups[current].items
    && |hops| == |visited| && (forall h | h in hops :: h.group in visited)
    && forall i, j | 0 <= i < j < |hops| :: hops[i].group != hops[j].group
  }

  lemma TrailGrows(g: Graph, hops: seq<Hop>, visited: set<int>, current: int, item: Item, next: int, picked: Item)
    requires Trail(g, hops, visited, current, item)
    requires next !in visited && next in g.groups && picked in g.groups[next].items
    ensures Trail(g, hops + [Hop(next, picked)], visited + {next}, next, picked)
  {
    assert forall i | 0 <= i < |hops| :: hops[i] in hops;
  }

  /** Every group visited ranks at least as high as the current one. */
  ghost predicate Descends(g: Graph, rank: map<int, nat>, visited: set<int>, current: int) {
    Acyclic(g) ==> Ranks(g, rank) && current in rank && forall a | a in visited :: a in rank && rank[current] <= rank[a]
  }

  lemma DescendsOn(g: Graph, rank: map<int, nat>, visited: set<int>, current: int, next: int)
    requires Descends(g, rank, visited, current) && current in g.groups && next in Succ(g, current)
    ensures Acyclic(g) ==> next !in visited
    ensures Descends(g, rank, visited + {next}, next)
  {
    hide Acyclic;
  }

  /** How deep the chain may still go below the current group. */
  ghost predicate Room(g: Graph, top: int, visited: nat, current: int) {
    Shallow(g, top, MAX_DEPTH + 1) ==> visited <= MAX_DEPTH + 1 && Shallow(g, current, MAX_DEPTH + 2 - visited)
  }

  lemma RoomOn(g: Graph, top: int, visited: nat, current: int, next: int)
    requires Room(g, top, visited, current) && current in g.groups && next in Succ(g, current)
    ensures Room(g, top, visited + 1, next)
  {
  }

  lemma StartTrail(g: Graph, top: int, first: Item) returns (rank: map<int, nat>)
    requires top in g.groups && first in g.groups[top].items
    ensures Trail(g, [Hop(top, first)], {top}, top, first) && Descends(g, rank, {top}, top) && Room(g, top, 1, top)
  {
    rank := map[];
    if Acyclic(g) {
      rank :| Ranks(g, rank);
    }
  }

  /** Hop i refers to the group of the next hop, whose member is the one picked there. */
  predicate Follows(g: Graph, pick: (nat, int) -> Option<Item>, hops: seq<Hop>, i: nat)
    requires i + 1 < |hops|
  {
    && IsRef(hops[i].item) && Known(g, hops[i].item.ref) && g.index[hops[i].item.ref] == hops[i + 1].group
    && pick(i + 1, hops[i + 1].group) == Some(hops[i + 1].item)
  }

  /** Why following stops behind the last hop: the conditions exclude each other, so each answer is given exactly under its
      own. */
  predicate StopsFor(g: Graph, pick: (nat, int) -> Option<Item>, hops: seq<Hop>, r: Resolution)
    requires hops != []
  {
    var last := hops[|hops| - 1].item;
    match r
    case Resolved => !IsRef(last)
    case TooLong => IsRef(last) && |hops| == 9
    case TargetGone => IsRef(last) && |hops| <= 8 && !Known(g, last.ref)
    case Looping => IsRef(last) && |hops| <= 8 && Known(g, last.ref) && exists h | h in hops :: h.group == g.index[last.ref]
    case NothingPicked =>
      && IsRef(last) && |hops| <= 8 && Known(g, last.ref) && (forall h | h in hops :: h.group != g.index[last.ref])
      && pick(|hops|, g.index[last.ref]).None?
  }

  /** Follows the references of the picked members. `pick(i, group)` is the member chosen in the i-th group below the top,
      nothing when that group has no pickable member. */
  method Resolve(g: Graph, top: int, first: Item, pick: (nat, int) -> Option<Item>)
    returns (hops: seq<Hop>, r: Resolution)
    requires top in g.groups && first in g.groups[top].items
    requires forall i, a, m | a in g.groups && pick(i, a) == Some(m) :: m in g.groups[a].items
    ensures hops != [] && hops[0] == Hop(top, first)
    ensures forall i, j | 0 <= i < j < |hops| :: hops[i].group != hops[j].group
    ensures forall i: nat | i + 1 < |hops| :: Follows(g, pick, hops, i)
    ensures StopsFor(g, pick, hops, r)
    ensures Inv(g) ==> !r.TargetGone? && !r.Looping?
    ensures Inv(g) && Shallow(g, top, MAX_DEPTH + 1) ==> r.Resolved? || r.NothingPicked?
  {
    hops := [Hop(top, first)];
    var visited := {top};
    var item := first;
    ghost var current := top;
    ghost var rank := StartTrail(g, top, first);
    hide Descends, Acyclic, Shallow, Indexed, Ranks;
    while IsRef(item)
      invariant Trail(g, hops, visited, current, item) && hops[0] == Hop(top, first)
      invariant Descends(g, rank, visited, current) && Room(g, top, |visited|, current)
      invariant |hops| <= MAX_DEPTH + 1 && (forall i: nat | i + 1 < |hops| :: Follows(g, pick, hops, i))
      invariant forall a | a in visited :: exists h | h in hops :: h.group == a
      decreases MAX_DEPTH + 1 - |visited|
    {
      if |visited| - 1 >= MAX_DEPTH {
        DeepChain(g, current, item, top, |visited|);
        return hops, TooLong;
      }
      if !Known(g, item.ref) {
        TargetKnown(g, current, item);
        return hops, TargetGone;
      }
      var next := g.index[item.ref];
      assert next in Succ(g, current);
      DescendsOn(g, rank, visited, current, next);
      RoomOn(g, top, |visited|, current, next);
      hide Succ, Room;
      if next in visited {
        return hops, Looping;
      }
      var picked := pick(|hops|, next);
      if picked.None? {
        return hops, NothingPicked;
      }
      TrailGrows(g, hops, visited, current, item, next, picked.value);
      FollowsOn(g, pick, hops, Hop(next, picked.value));
      visited := visited + {next};
      item := picked.value;
      hops := hops + [Hop(next, item)];
      current := next;
    }
    r := Resolved;
  }

  lemma FollowsOn(g: Graph, pick: (nat, int) -> Option<Item>, hops: seq<Hop>, hop: Hop)
    requires hops != [] && forall i: nat | i + 1 < |hops| :: Follows(g, pick, hops, i)
    requires var item := hops[|hops| - 1].item; IsRef(item) && Known(g, item.ref) && g.index[item.ref] == hop.group
    requires pick(|hops|, hop.group) == Some(hop.item)
    ensures forall i: nat | i + 1 < |hops + [hop]| :: Follows(g, pick, hops + [hop], i)
    ensures forall h :: h in hops + [hop] <==> h in hops || h == hop
  {
    forall i: nat | i + 1 < |hops + [hop]| ensures Follows(g, pick, hops + [hop], i) {
      assert i + 1 < |hops| ==> Follows(g, pick, hops, i);
    }
  }

  lemma TargetKnown(g: Graph, a: int, item: Item)
    requires a in g.groups && item in g.groups[a].items && IsRef(item)
    ensures Inv(g) ==> Known(g, item.ref)
  {
    hide Acyclic;
    assert item.ref in Targets(g.groups[a].items);
  }

  /** A group that still refers further is not the end of any chain. */
  lemma DeepChain(g: Graph, a: int, item: Item, top: int, visited: nat)
    requires a in g.groups && item in g.groups[a].items && IsRef(item)
    requires Room(g, top, visited, a) && visited > MAX_DEPTH
    ensures Inv(g) ==> !Shallow(g, top, MAX_DEPTH + 1)
  {
    TargetKnown(g, a, item);
    if Inv(g) {
      assert item.ref in Targets(g.groups[a].items);
      assert g.index[item.ref] in Succ(g, a);
      assert !Shallow(g, g.index[item.ref], 0);
    }
  }
}
