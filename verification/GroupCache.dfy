/** The group cache and its operations, proved against the changes of `GroupStore`. */
module GroupCache {
  import opened Collections
  import opened GroupRefs
  import opened GroupStore

  datatype Outcome =
    | Done | NotFound | NameRequired | MissingTarget | DuplicateMember | ReferencedBy(group: string)
    | Refused(verdict: Verdict) | DatabaseError

  /** Channel members point to a known channel model. */
  predicate HasTarget(i: Item, models: set<int>) {
    IsRef(i) || (i.channelModel != 0 && i.channelModel in models)
  }

  /** Two members of one group never share a channel model or a referenced name. */
  predicate NoTwins(items: seq<Item>) {
    && (forall i | i in items :: IsRef(i) || i.channelModel != 0)
    && forall i, j | 0 <= i < j < |items| ::
         IsRef(items[i]) == IsRef(items[j]) ==>
           if IsRef(items[i]) then items[i].ref != items[j].ref else items[i].channelModel != items[j].channelModel
  }

  predicate Complete(items: seq<Item>, models: set<int>) {
    forall i | i in items :: HasTarget(i, models)
  }

  method CheckTargets(items: seq<Item>, models: set<int>) returns (ok: bool)
    ensures ok <==> Complete(items, models)
  {
    for k := 0 to |items|
      invariant forall i | 0 <= i < k :: HasTarget(items[i], models)
    {
      if !IsRef(items[k]) && (items[k].channelModel == 0 || items[k].channelModel !in models) {
        assert items[k] in items;
        return false;
      }
    }
    ok := true;
  }

  method CheckTwins(items: seq<Item>) returns (ok: bool)
    ensures ok <==> NoTwins(items)
  {
    var models: set<int> := {};
    var refs: set<string> := {};
    for k := 0 to |items|
      invariant forall m :: m in models <==> exists i | 0 <= i < k :: !IsRef(items[i]) && items[i].channelModel == m
      invariant forall r :: r in refs <==> exists i | 0 <= i < k :: IsRef(items[i]) && items[i].ref == r
      invariant NoTwins(items[..k])
    {
      var item := items[k];
      assert items[..k + 1] == items[..k] + [item];
      if IsRef(item) {
        if item.ref in refs {
          var i :| 0 <= i < k && IsRef(items[i]) && items[i].ref == item.ref;
          return false;
        }
        refs := refs + {item.ref};
        continue;
      }
      if item.channelModel == 0 {
        assert item in items;
        return false;
      }
      if item.channelModel in models {
        var i :| 0 <= i < k && !IsRef(items[i]) && items[i].channelModel == item.channelModel;
        return false;
      }
      models := models + {item.channelModel};
    }
    assert items[..|items|] == items;
    ok := true;
  }

  /** The cache by id and the index by name. The database keeps names unique and hands out fresh ids. */
  class Groups {
    var groups: map<int, Group>
    var index: map<string, int>

    function View(): Graph
      reads this
    {
      Graph(groups, index)
    }

    /** Cache and index stay in step. */
    ghost predicate Valid()
      reads this
    {
      Indexed(View())
    }

    constructor ()
      ensures Valid() && View() == Graph(map[], map[])
    {
      groups, index := map[], map[];
    }

    /** Some other group that refers to the name, whichever the cache yields first; empty when there is none. */
    method FirstReferrer(name: string, exclude: int) returns (found: bool, referrer: string)
      ensures found <==> Referred(View(), name, exclude)
    {
      var todo := groups.Keys;
      referrer := "";
      while todo != {}
        invariant todo <= groups.Keys
        invariant forall a | a in groups && a !in todo && a != exclude :: name !in Targets(groups[a].items)
        decreases |todo|
      {
        SomeId(todo);
        var a :| a in todo;
        todo := todo - {a};
        if a == exclude {
          continue;
        }
        var items := groups[a].items;
        for k := 0 to |items|
          invariant forall i | 0 <= i < k :: !(IsRef(items[i]) && items[i].ref == name)
        {
          if IsRef(items[k]) && items[k].ref == name {
            assert items[k] in items;
            return true, groups[a].name;
          }
        }
      }
      found := false;
    }

    /** A new group; names are given trimmed. `newId` is the id the database assigns. */
    method Create(name: string, items: seq<Item>, models: set<int>, newId: int, dbOk: bool) returns (r: Outcome)
      requires Valid() && newId !in groups
      modifies this
      ensures Valid()
      ensures r.Done? <==> name != "" && Complete(items, models) && NoTwins(items) && dbOk
                           && CanCreate(old(View()), newId, Group(name, items))
      ensures View() == if r.Done? then Created(old(View()), newId, Group(name, items)) else old(View())
      ensures r.Refused? ==> !Accepted(old(View()), 0, name, items)
    {
      hide NoTwins, Accepted;
      if name == "" {
        return NameRequired;
      }
      var complete := CheckTargets(items, models);
      if !complete {
        return MissingTarget;
      }
      var single := CheckTwins(items);
      if !single {
        return DuplicateMember;
      }
      ghost var culprit, path, other;
      var verdict: Verdict;
      verdict, culprit, path, other := ValidateReferences(Graph(groups, index), 0, name, items);
      if !verdict.Valid? {
        return Refused(verdict);
      }
      if !dbOk || name in index {
        return DatabaseError;
      }
      groups := groups[newId := Group(name, items)];
      index := index[name := newId];
      r := Done;
    }

    /** A changed group: an optional new name, members deleted by id and members added. */
    method Update(id: int, rename: Option<string>, deleted: set<int>, added: seq<Item>, models: set<int>, dbOk: bool)
      returns (r: Outcome)
      requires Valid()
      modifies this
      ensures Valid()
      ensures r.Done? <==>
                && id in old(groups) && rename != Some("") && Complete(added, models) && dbOk
                && var group := Changed(old(groups)[id], rename, deleted, added);
                   NoTwins(group.items) && CanUpdate(old(View()), id, group)
      ensures View() == if r.Done? then Updated(old(View()), id, Changed(old(groups)[id], rename, deleted, added)) else old(View())
      ensures r.Done? ==>
                id in groups && Succeeds(old(groups)[id], groups[id], rename, deleted, added)
    {
      hide NoTwins, Accepted, Referred, Succeeds;
      if id !in groups {
        return NotFound;
      }
      var before := groups[id].name;
      var name := before;
      if rename.Some? {
        name := rename.value;
        if name == "" {
          return NameRequired;
        }
        if name != before {
          var found, referrer := FirstReferrer(before, id);
          if found {
            return ReferencedBy(referrer);
          }
        }
      }
      var complete := CheckTargets(added, models);
      if !complete {
        return MissingTarget;
      }
      ChangedMeans(groups[id], rename, deleted, added);
      hide Remaining;
      var items := Remaining(groups[id].items, deleted) + added;
      var single := CheckTwins(items);
      if !single {
        return DuplicateMember;
      }
      ghost var culprit, path, other;
      var verdict: Verdict;
      verdict, culprit, path, other := ValidateReferences(Graph(groups, index), id, before, items);
      if !verdict.Valid? {
        return Refused(verdict);
      }
      if !dbOk || (name != before && name in index) {
        return DatabaseError;
      }
      groups := groups[id := Group(name, items)];
      index := index[name := id];
      if before != name {
        index := index - {before};
      }
      r := Done;
    }

    method Delete(id: int, dbOk: bool) returns (r: Outcome)
      requires Valid()
      modifies this
      ensures Valid()
      ensures r.Done? <==> dbOk && CanDelete(old(View()), id)
      ensures View() == if r.Done? then Deleted(old(View()), id) else old(View())
    {
      hide Referred;
      if id !in groups {
        return NotFound;
      }
      var name := groups[id].name;
      var found, referrer := FirstReferrer(name, id);
      if found {
        return ReferencedBy(referrer);
      }
      if !dbOk {
        return DatabaseError;
      }
      groups := groups - {id};
      index := index - {name};
      r := Done;
    }
  }

  /** The members that stay when some are deleted by id. */
  function Remaining(items: seq<Item>, deleted: set<int>): seq<Item> {
    if items == [] then []
    else if items[0].id in deleted then Remaining(items[1..], deleted)
    else [items[0]] + Remaining(items[1..], deleted)
  }

  /** The members a change does not delete. */
  function Stays(deleted: set<int>): Item -> bool {
    (x: Item) => x.id !in deleted
  }

  lemma {:induction false} RemainingSifted(items: seq<Item>, deleted: set<int>)
    ensures Sifted(items, Stays(deleted), Remaining(items, deleted))
    decreases |items|
  {
    hide Sifted;
    if items == [] {
      SiftedEmpty(Stays(deleted));
    } else {
      RemainingSifted(items[1..], deleted);
      SiftedCons(items[0], items[1..], Stays(deleted), Remaining(items[1..], deleted));
      assert items == [items[0]] + items[1..];
    }
  }

  /** The group keeps its name unless it is given one, and its members are those not deleted, in their order, followed
      by the new ones. */
  ghost predicate Succeeds(before: Group, after: Group, rename: Option<string>, deleted: set<int>, added: seq<Item>) {
    && after.name == (if rename.Some? then rename.value else before.name)
    && |added| <= |after.items|
    && var n := |after.items| - |added|;
       Sifted(before.items, Stays(deleted), after.items[..n]) && after.items[n..] == added
  }

  lemma ChangedMeans(group: Group, rename: Option<string>, deleted: set<int>, added: seq<Item>)
    ensures Succeeds(group, Changed(group, rename, deleted, added), rename, deleted, added)
  {
    var kept := Remaining(group.items, deleted);
    RemainingSifted(group.items, deleted);
    hide Sifted, Remaining;
    assert (kept + added)[..|kept|] == kept && (kept + added)[|kept|..] == added;
  }

  /** With nothing deleted and nothing added a change keeps all members in their order. */
  lemma RenameKeepsMembers(before: Group, after: Group, rename: Option<string>)
    requires Succeeds(before, after, rename, {}, [])
    ensures after.items == before.items
  {
    hide Sifted;
    SiftedAll(before.items, Stays({}));
    SiftedIs(before.items, Stays({}), before.items, after.items[..|after.items|]);
    assert after.items[..|after.items|] == after.items;
  }

  /** A changed group has exactly the members not deleted and the added ones. */
  lemma ChangedMembers(before: Group, after: Group, rename: Option<string>, deleted: set<int>, added: seq<Item>)
    requires Succeeds(before, after, rename, deleted, added)
    ensures forall x :: x in after.items <==> (x in before.items && x.id !in deleted) || x in added
  {
    var n := |after.items| - |added|;
    hide Sifted;
    SiftedIs(before.items, Stays(deleted), after.items[..n], after.items[..n]);
    assert after.items == after.items[..n] + after.items[n..];
  }

  /** The group a change would leave behind. */
  function Changed(group: Group, rename: Option<string>, deleted: set<int>, added: seq<Item>): Group {
    Group(if rename.Some? then rename.value else group.name, Remaining(group.items, deleted) + added)
  }

  // ---- the depth bound holds for the group just validated, and only for it ----

  /** The name of group n: its number in tally marks. */
  function Name(n: nat): (s: string)
    ensures |s| == n
  {
    seq(n, _ => 'g')
  }

  function Next(n: nat): Item {
    Item(0, 0, Name(n + 1))
  }

  /** Groups 1 to m, where each of the first n - 1 refers to its successor. */
  function Line(n: nat, m: nat): Graph {
    Graph(map i: nat | 1 <= i <= m :: Group(Name(i), if i < n then [Next(i)] else []),
          map i: nat | 1 <= i <= m :: Name(i) := i)
  }

  lemma LineSucc(n: nat, m: nat, i: nat)
    requires 1 <= i <= m && n <= m
    ensures Succ(Line(n, m), i) == if i < n then {i + 1} else {}
  {
    var g := Line(n, m);
    if i < n {
      assert g.groups[i].items == [Next(i)];
      assert Next(i) in g.groups[i].items;
      assert Targets(g.groups[i].items) == {Name(i + 1)};
      assert Name(i + 1) in g.index && g.index[Name(i + 1)] == i + 1;
    } else {
      assert Targets(g.groups[i].items) == {};
    }
  }

  lemma {:induction false} LineDepth(n: nat, m: nat, i: nat, budget: nat)
    requires 1 <= i <= n <= m
    ensures Shallow(Line(n, m), i, budget) <==> budget > n - i
    decreases budget
  {
    LineSucc(n, m, i);
    if i < n && budget > 0 {
      LineDepth(n, m, i + 1, budget - 1);
    }
    hide Line, Succ;
  }

  /** Letting the last group of a line refer to one more makes the line longer, and is always accepted. */
  lemma LineGrows(n: nat)
    requires n >= 1
    ensures n in Line(n, n + 1).groups
    ensures Updated(Line(n, n + 1), n, Group(Name(n), [Next(n)])) == Line(n + 1, n + 1)
    ensures Known(Line(n, n + 1), Name(n + 1)) && Line(n, n + 1).index[Name(n + 1)] == n + 1
    ensures Line(n, n + 1).groups[n].name == Name(n)
  {
    var g, t := Line(n, n + 1), Line(n + 1, n + 1);
    assert g.index[Name(n) := n] == g.index;
    assert g.groups[n := Group(Name(n), [Next(n)])] == t.groups;
  }

  /** A group without references is a tree of its own. */
  lemma LeafIsTree(g: Graph, a: int, selfId: int, selfName: string)
    requires a in g.groups && Succ(g, a) == {} && a != selfId && selfId != 0
    ensures Tree(g, a, selfId, selfName)
  {
    forall p | ChainFrom(g, a, p) ensures p == [a] {
      LongChain(g, p);
    }
  }

  lemma LongChain(g: Graph, p: seq<int>)
    requires Chain(g, p)
    ensures |p| > 1 ==> Succ(g, p[0]) != {}
  {
    hide Succ;
    if |p| > 1 {
      assert p[1] in Succ(g, p[0]);
    }
  }

  lemma LineAccepts(n: nat)
    requires n >= 1
    ensures CanUpdate(Line(n, n + 1), n, Group(Name(n), [Next(n)]))
  {
    LineGrows(n);
    LineSucc(n, n + 1, n + 1);
    var g := Line(n, n + 1);
    assert n + 1 in g.groups;
    assert Targets([Next(n)]) == {Name(n + 1)} by {
      assert Next(n) in [Next(n)];
    }
    hide Line, Succ, Known, Targets, Tree;
    LeafIsTree(g, n + 1, n, Name(n));
  }

  /** A later change further down may push an older group beyond the limit the resolver enforces: with nine groups in a
      line, letting the last refer to a tenth is accepted, and the first is no longer within the depth. */
  lemma DownstreamChangeExceedsDepth()
    ensures var g := Line(9, 10);
            var group := Group(Name(9), [Next(9)]);
            && CanUpdate(g, 9, group)
            && Shallow(g, 1, MAX_DEPTH + 1) && !Shallow(Updated(g, 9, group), 1, MAX_DEPTH + 1)
  {
    LineGrows(9);
    LineAccepts(9);
    LineDepth(9, 10, 1, 9);
    LineDepth(10, 10, 1, 9);
    hide Line, Updated, CanUpdate, Next, Name;
  }
}
