/** The reference graph an import would leave behind: existing groups, and what the dump adds to them. */
module ImportGraph {
  import opened GroupRefs
  import GroupCycles

  datatype Existing = Existing(id: int, name: string, items: seq<Item>)

  datatype DumpGroup = DumpGroup(id: int, name: string)

  datatype DumpItem = DumpItem(group: int, item: Item)

  datatype Dump = Dump(groups: seq<DumpGroup>, items: seq<DumpItem>)

  /** Database ids that already exist. */
  datatype Known = Known(groups: set<int>, items: set<int>)

  /** Items the check adds to a dump entry: all of a new group's, the new ones of an existing group. */
  predicate Imported(k: Known, g: int, i: DumpItem) {
    i.group == g && IsRef(i.item) && (g in k.groups ==> i.item.id !in k.items)
  }

  function Contribution(k: Known, items: seq<DumpItem>, g: int): set<string> {
    set i | i in items && Imported(k, g, i) :: i.item.ref
  }

  function FromExisting(existing: seq<Existing>, n: string): set<string> {
    set e, r | e in existing && e.name == n && r in Targets(e.items) :: r
  }

  function FromDump(k: Known, dump: Dump, groups: seq<DumpGroup>, n: string): set<string> {
    set g, r | g in groups && g.name == n && r in Contribution(k, dump.items, g.id) :: r
  }

  function Names(existing: seq<Existing>, groups: seq<DumpGroup>): set<string> {
    (set e | e in existing :: e.name) + (set g | g in groups :: g.name)
  }

  /** The adjacency the search works on: per name, the existing references and those of every dump entry of that name. */
  function Effective(k: Known, existing: seq<Existing>, dump: Dump, groups: seq<DumpGroup>): GroupCycles.Refs {
    map n | n in Names(existing, groups) :: FromExisting(existing, n) + FromDump(k, dump, groups, n)
  }

  method Edges(items: seq<Item>) returns (edges: set<string>)
    ensures edges == Targets(items)
  {
    edges := {};
    for i := 0 to |items|
      invariant edges == Targets(items[..i])
    {
      TargetsSnoc(items, i);
      if IsRef(items[i]) {
        edges := edges + {items[i].ref};
      }
    }
    assert items[..|items|] == items;
  }

  /** The references the dump's items add to one of its groups. */
  method AddEdges(k: Known, items: seq<DumpItem>, g: int, edges: set<string>) returns (all: set<string>)
    ensures all == edges + Contribution(k, items, g)
  {
    all := edges;
    for i := 0 to |items|
      invariant all == edges + Contribution(k, items[..i], g)
    {
      ContributionSnoc(k, items, i, g);
      if items[i].group == g && IsRef(items[i].item) {
        if g !in k.groups || items[i].item.id !in k.items {
          all := all + {items[i].item.ref};
        }
      }
    }
    assert items[..|items|] == items;
  }

  lemma ContributionSnoc(k: Known, items: seq<DumpItem>, i: nat, g: int)
    requires i < |items|
    ensures Contribution(k, items[..i + 1], g)
         == Contribution(k, items[..i], g) + if Imported(k, g, items[i]) then {items[i].item.ref} else {}
  {
    var a, b := items[..i], items[..i + 1];
    assert b == a + [items[i]];
    assert forall x :: x in b <==> x in a || x == items[i];
  }

  /** Builds the adjacency: existing groups first, then the dump's groups in order. Names of existing groups are unique. */
  method Build(k: Known, existing: seq<Existing>, dump: Dump) returns (refs: GroupCycles.Refs)
    requires forall i, j | 0 <= i < j < |existing| :: existing[i].name != existing[j].name
    ensures refs == Effective(k, existing, dump, dump.groups)
  {
    hide Effective, Names, FromExisting, FromDump, Targets, Contribution;
    refs := map[];
    EffectiveStart(k, dump);
    for i := 0 to |existing|
      invariant refs == Effective(k, existing[..i], dump, [])
    {
      EffectiveExisting(k, existing, i, dump);
      var edges := Edges(existing[i].items);
      refs := refs[existing[i].name := edges];
    }
    assert existing[..|existing|] == existing;
    var none: seq<DumpGroup> := dump.groups[..0];
    assert none == [];
    for i := 0 to |dump.groups|
      invariant refs == Effective(k, existing, dump, dump.groups[..i])
    {
      var g := dump.groups[i];
      EffectiveDump(k, existing, dump, i);
      var edges := if g.name in refs then refs[g.name] else {};
      edges := AddEdges(k, dump.items, g.id, edges);
      refs := refs[g.name := edges];
    }
    assert dump.groups[..|dump.groups|] == dump.groups;
  }

  lemma EffectiveStart(k: Known, dump: Dump)
    ensures Effective(k, [], dump, []) == map[]
  {
    assert Names([], []) == {};
  }

  lemma EffectiveExisting(k: Known, existing: seq<Existing>, i: nat, dump: Dump)
    requires i < |existing| && forall a, b | 0 <= a < b < |existing| :: existing[a].name != existing[b].name
    ensures Effective(k, existing[..i + 1], dump, []) == Effective(k, existing[..i], dump, [])[existing[i].name := Targets(existing[i].items)]
  {
    var was, now, e := existing[..i], existing[..i + 1], existing[i];
    assert forall x :: x in now <==> x in was || x == e by {
      assert now == was + [e];
    }
    assert forall x | x in was :: x.name != e.name;
    assert Names(now, []) == Names(was, []) + {e.name};
    forall n ensures FromDump(k, dump, [], n) == {} {
    }
    forall n | n in Names(now, [])
      ensures FromExisting(now, n) == if n == e.name then Targets(e.items) else FromExisting(was, n)
    {
      NameSplit(was, now, e, n);
    }
    hide FromExisting, FromDump, Names, Targets;
    var l, r := Effective(k, now, dump, []), Effective(k, was, dump, [])[e.name := Targets(e.items)];
    forall n | n in l ensures n in r && l[n] == r[n] {
    }
    assert l.Keys == r.Keys;
  }

  lemma NameSplit(was: seq<Existing>, now: seq<Existing>, e: Existing, n: string)
    requires (forall x :: x in now <==> x in was || x == e) && forall x | x in was :: x.name != e.name
    ensures FromExisting(now, n) == if n == e.name then Targets(e.items) else FromExisting(was, n)
  {
    hide Targets;
    if n == e.name {
      forall r ensures r in FromExisting(now, n) <==> r in Targets(e.items) {
        if r in Targets(e.items) {
          assert e in now;
        }
      }
    } else {
      assert forall r :: r in FromExisting(now, n) <==> r in FromExisting(was, n);
    }
  }

  lemma EffectiveDump(k: Known, existing: seq<Existing>, dump: Dump, i: nat)
    requires i < |dump.groups|
    ensures var was, g := Effective(k, existing, dump, dump.groups[..i]), dump.groups[i];
            var edges := (if g.name in was then was[g.name] else {}) + Contribution(k, dump.items, g.id);
            Effective(k, existing, dump, dump.groups[..i + 1]) == was[g.name := edges]
  {
    var was, now, g := dump.groups[..i], dump.groups[..i + 1], dump.groups[i];
    assert forall x :: x in now <==> x in was || x == g by {
      assert now == was + [g];
    }
    assert Names(existing, now) == Names(existing, was) + {g.name};
    forall n ensures FromDump(k, dump, now, n) == FromDump(k, dump, was, n) + if n == g.name then Contribution(k, dump.items, g.id) else {} {
      DumpSplit(k, dump, was, now, g, n);
    }
    if g.name !in Names(existing, was) {
      NoNameNothing(k, existing, dump, was, g.name);
    }
    EffectiveGrows(k, existing, dump, was, now, g);
  }

  lemma EffectiveGrows(k: Known, existing: seq<Existing>, dump: Dump, was: seq<DumpGroup>, now: seq<DumpGroup>, g: DumpGroup)
    requires Names(existing, now) == Names(existing, was) + {g.name}
    requires forall n :: FromDump(k, dump, now, n)
                      == FromDump(k, dump, was, n) + if n == g.name then Contribution(k, dump.items, g.id) else {}
    requires g.name !in Names(existing, was) ==> FromExisting(existing, g.name) == {} && FromDump(k, dump, was, g.name) == {}
    ensures var before := Effective(k, existing, dump, was);
            var edges := (if g.name in before then before[g.name] else {}) + Contribution(k, dump.items, g.id);
            Effective(k, existing, dump, now) == before[g.name := edges]
  {
    hide FromDump, FromExisting, Names, Contribution;
    var before := Effective(k, existing, dump, was);
    var edges := (if g.name in before then before[g.name] else {}) + Contribution(k, dump.items, g.id);
    var l, r := Effective(k, existing, dump, now), before[g.name := edges];
    assert l.Keys == r.Keys;
    Regroup(FromExisting(existing, g.name), FromDump(k, dump, was, g.name), Contribution(k, dump.items, g.id));
    forall n | n in l ensures l[n] == r[n] {
    }
  }

  lemma DumpSplit(k: Known, dump: Dump, was: seq<DumpGroup>, now: seq<DumpGroup>, g: DumpGroup, n: string)
    requires forall x :: x in now <==> x in was || x == g
    ensures FromDump(k, dump, now, n) == FromDump(k, dump, was, n) + if n == g.name then Contribution(k, dump.items, g.id) else {}
  {
    hide Contribution;
    forall r | r in Contribution(k, dump.items, g.id) && n == g.name ensures r in FromDump(k, dump, now, n) {
      assert g in now;
    }
  }

  lemma Regroup(a: set<string>, b: set<string>, c: set<string>)
    ensures a + (b + c) == a + b + c
  {
  }

  lemma NoNameNothing(k: Known, existing: seq<Existing>, dump: Dump, groups: seq<DumpGroup>, n: string)
    requires n !in Names(existing, groups)
    ensures FromExisting(existing, n) == {} && FromDump(k, dump, groups, n) == {}
  {
  }

  /** The whole check: nothing is reported exactly when the effective graph is acyclic, in whatever order the searches run. */
  method DetectGroupCycles(k: Known, existing: seq<Existing>, dump: Dump, names: seq<string>) returns (cycles: seq<seq<string>>)
    requires forall i, j | 0 <= i < j < |existing| :: existing[i].name != existing[j].name
    requires forall n :: n in names <==> n in Names(existing, dump.groups)
    ensures cycles == [] <==> GroupCycles.Acyclic(Effective(k, existing, dump, dump.groups))
    ensures forall c | c in cycles :: GroupCycles.Closed(Effective(k, existing, dump, dump.groups), c)
    ensures k == KnownOf(existing) && !Missed(existing, dump) && cycles == [] ==> GroupCycles.Acyclic(Resulting(existing, dump))
    ensures k == KnownOf(existing) && !Missed(existing, dump) && !Superfluous(existing, dump) ==>
              (cycles == [] <==> GroupCycles.Acyclic(Resulting(existing, dump)))
  {
    var refs := Build(k, existing, dump);
    assert forall n :: n in Names(existing, dump.groups) <==> n in refs;
    hide Effective, Names, KnownOf, Resulting, Missed, Superfluous;
    cycles := GroupCycles.Detect(refs, names);
    if k == KnownOf(existing) && !Missed(existing, dump) {
      assert Searched(existing, dump) == refs;
      if cycles == [] {
        NothingReportedIsSafe(existing, dump);
      }
      SearchIsExactIff(existing, dump);
    }
  }

  // ---- the graph the import leaves behind ----

  /** The ids the check compares with. */
  function KnownOf(existing: seq<Existing>): Known {
    Known(set e | e in existing :: e.id, set e, i | e in existing && i in e.items :: i.id)
  }

  function Headers(existing: seq<Existing>): (h: seq<DumpGroup>)
    ensures forall g :: g in h <==> exists e | e in existing :: g == DumpGroup(e.id, e.name)
  {
    if existing == [] then []
    else
      assert existing == [existing[0]] + existing[1..];
      [DumpGroup(existing[0].id, existing[0].name)] + Headers(existing[1..])
  }

  predicate Clashes(table: seq<DumpGroup>, g: DumpGroup) {
    exists h | h in table :: h.id == g.id || h.name == g.name
  }

  /** Group rows are written in order; one that clashes with an id or a name already there is skipped. */
  function InsertGroups(table: seq<DumpGroup>, rows: seq<DumpGroup>): seq<DumpGroup>
    decreases |rows|
  {
    if rows == [] then table
    else InsertGroups(if Clashes(table, rows[0]) then table else table + [rows[0]], rows[1..])
  }

  /** Item rows are written in order; one whose id is already there, earlier rows included, is skipped. */
  function InsertItems(ids: set<int>, rows: seq<DumpItem>): seq<DumpItem>
    decreases |rows|
  {
    if rows == [] then []
    else if rows[0].item.id in ids then InsertItems(ids, rows[1..])
    else [rows[0]] + InsertItems(ids + {rows[0].item.id}, rows[1..])
  }

  /** References of the written items whose group is in the table under the name. */
  function Written(table: seq<DumpGroup>, items: seq<DumpItem>, n: string): set<string> {
    set i | i in items && IsRef(i.item) && DumpGroup(i.group, n) in table :: i.item.ref
  }

  function NamesOf(table: seq<DumpGroup>): set<string> {
    set g | g in table :: g.name
  }

  function TableAfter(existing: seq<Existing>, dump: Dump): seq<DumpGroup> {
    InsertGroups(Headers(existing), dump.groups)
  }

  function ItemsAfter(existing: seq<Existing>, dump: Dump): seq<DumpItem> {
    InsertItems(KnownOf(existing).items, dump.items)
  }

  /** All groups after the import, with the references of their old and their written items. */
  function Resulting(existing: seq<Existing>, dump: Dump): GroupCycles.Refs {
    map n | n in NamesOf(TableAfter(existing, dump)) ::
      FromExisting(existing, n) + Written(TableAfter(existing, dump), ItemsAfter(existing, dump), n)
  }

  function Searched(existing: seq<Existing>, dump: Dump): GroupCycles.Refs {
    Effective(KnownOf(existing), existing, dump, dump.groups)
  }

  lemma {:induction false} InsertGroupsFrom(table: seq<DumpGroup>, rows: seq<DumpGroup>)
    ensures forall g | g in table :: g in InsertGroups(table, rows)
    ensures forall g | g in InsertGroups(table, rows) :: g in table || (g in rows && !Clashes(table, g))
    decreases |rows|
  {
    if rows != [] {
      assert rows == [rows[0]] + rows[1..];
      InsertGroupsFrom(if Clashes(table, rows[0]) then table else table + [rows[0]], rows[1..]);
    }
  }

  lemma {:induction false} InsertItemsFrom(ids: set<int>, rows: seq<DumpItem>)
    ensures forall i | i in InsertItems(ids, rows) :: i in rows && i.item.id !in ids
    decreases |rows|
  {
    if rows != [] {
      assert rows == [rows[0]] + rows[1..];
      InsertItemsFrom(ids, rows[1..]);
      InsertItemsFrom(ids + {rows[0].item.id}, rows[1..]);
    }
  }

  // ---- soundness: what the search may miss ----

  /** Every group and every reference of b is also one of a. */
  predicate Covers(a: GroupCycles.Refs, b: GroupCycles.Refs) {
    forall n | n in b :: n in a && b[n] <= a[n]
  }

  lemma CoversKeepsAcyclic(a: GroupCycles.Refs, b: GroupCycles.Refs)
    requires Covers(a, b) && GroupCycles.Acyclic(a)
    ensures GroupCycles.Acyclic(b)
  {
    var rank :| GroupCycles.Ranks(a, rank);
    forall n, r | n in b && r in GroupCycles.Succ(b, n) ensures n in a && r in GroupCycles.Succ(a, n) {
      assert b[n] <= a[n] && r in b[n];
    }
    assert GroupCycles.Ranks(b, rank);
  }

  /** The import writes a reference into an existing group that the group did not have and that no dump entry of the
      group's name brings along. */
  predicate Missed(existing: seq<Existing>, dump: Dump) {
    exists e, i | e in existing && i in ItemsAfter(existing, dump) ::
      && i.group == e.id && IsRef(i.item)
      && i.item.ref !in FromExisting(existing, e.name) + FromDump(KnownOf(existing), dump, dump.groups, e.name)
  }

  /** Every reference the import leaves behind is searched exactly when none is missed. */
  lemma SearchCoversIff(existing: seq<Existing>, dump: Dump)
    ensures Covers(Searched(existing, dump), Resulting(existing, dump)) <==> !Missed(existing, dump)
  {
    var a, b := Searched(existing, dump), Resulting(existing, dump);
    var table, items := TableAfter(existing, dump), ItemsAfter(existing, dump);
    InsertGroupsFrom(Headers(existing), dump.groups);
    SearchedAt(existing, dump);
    ResultingAt(existing, dump);
    hide Searched, Resulting, TableAfter, ItemsAfter, FromExisting, FromDump, KnownOf, Written;
    if Missed(existing, dump) {
      var e, i :| e in existing && i in items && i.group == e.id && IsRef(i.item)
                  && i.item.ref !in FromExisting(existing, e.name) + FromDump(KnownOf(existing), dump, dump.groups, e.name);
      MissedIsWritten(existing, dump, e, i);
      assert !(b[e.name] <= a[e.name]) by {
        assert i.item.ref in b[e.name];
      }
    } else {
      forall n | n in b ensures n in a && b[n] <= a[n] {
        forall r | r in Written(table, items, n) ensures r in FromExisting(existing, n) + FromDump(KnownOf(existing), dump, dump.groups, n) {
          WrittenIsSearched(existing, dump, n, r);
        }
        NamesSearched(existing, dump, n);
      }
    }
  }

  lemma SearchedAt(existing: seq<Existing>, dump: Dump)
    ensures Searched(existing, dump).Keys == Names(existing, dump.groups)
    ensures forall n | n in Searched(existing, dump) ::
              Searched(existing, dump)[n] == FromExisting(existing, n) + FromDump(KnownOf(existing), dump, dump.groups, n)
  {
    hide Names, FromExisting, FromDump, KnownOf;
  }

  lemma ResultingAt(existing: seq<Existing>, dump: Dump)
    ensures Resulting(existing, dump).Keys == NamesOf(TableAfter(existing, dump))
    ensures forall n | n in Resulting(existing, dump) ::
              Resulting(existing, dump)[n]
              == FromExisting(existing, n) + Written(TableAfter(existing, dump), ItemsAfter(existing, dump), n)
  {
    hide NamesOf, TableAfter, ItemsAfter, FromExisting, Written;
  }

  lemma MissedIsWritten(existing: seq<Existing>, dump: Dump, e: Existing, i: DumpItem)
    requires e in existing && i in ItemsAfter(existing, dump) && i.group == e.id && IsRef(i.item)
    ensures e.name in NamesOf(TableAfter(existing, dump)) && e.name in Names(existing, dump.groups)
    ensures i.item.ref in Written(TableAfter(existing, dump), ItemsAfter(existing, dump), e.name)
  {
    InsertGroupsFrom(Headers(existing), dump.groups);
    assert DumpGroup(e.id, e.name) in Headers(existing);
    hide ItemsAfter, Headers, InsertGroups;
  }

  lemma NamesSearched(existing: seq<Existing>, dump: Dump, n: string)
    requires n in NamesOf(TableAfter(existing, dump))
    ensures n in Names(existing, dump.groups)
  {
    InsertGroupsFrom(Headers(existing), dump.groups);
    hide Headers, InsertGroups;
  }

  lemma WrittenIsSearched(existing: seq<Existing>, dump: Dump, n: string, r: string)
    requires !Missed(existing, dump) && r in Written(TableAfter(existing, dump), ItemsAfter(existing, dump), n)
    ensures r in FromExisting(existing, n) + FromDump(KnownOf(existing), dump, dump.groups, n)
  {
    var k := KnownOf(existing);
    InsertGroupsFrom(Headers(existing), dump.groups);
    InsertItemsFrom(k.items, dump.items);
    hide FromExisting, KnownOf, Headers, InsertGroups, InsertItems;
    var i :| i in ItemsAfter(existing, dump) && IsRef(i.item) && DumpGroup(i.group, n) in TableAfter(existing, dump) && i.item.ref == r;
    if DumpGroup(i.group, n) in Headers(existing) {
      var e :| e in existing && DumpGroup(i.group, n) == DumpGroup(e.id, e.name);
      hide FromDump;
    } else {
      assert Imported(k, i.group, i);
      assert DumpGroup(i.group, n) in dump.groups && r in Contribution(k, dump.items, i.group);
    }
  }

  /** Every existing group that the dump adds references to is listed in the dump under its own name. */
  predicate Listed(existing: seq<Existing>, dump: Dump) {
    forall e | e in existing && Contribution(KnownOf(existing), dump.items, e.id) != {} :: DumpGroup(e.id, e.name) in dump.groups
  }

  lemma ListedMissesNothing(existing: seq<Existing>, dump: Dump)
    requires Listed(existing, dump)
    ensures !Missed(existing, dump)
  {
    var k := KnownOf(existing);
    InsertItemsFrom(k.items, dump.items);
    hide KnownOf, InsertItems, FromExisting;
    forall e, i | e in existing && i in ItemsAfter(existing, dump) && i.group == e.id && IsRef(i.item)
      ensures i.item.ref in FromDump(k, dump, dump.groups, e.name)
    {
      assert Imported(k, e.id, i);
      assert i.item.ref in Contribution(k, dump.items, e.id);
    }
  }

  /** A dump in which no reference is missed and nothing is reported leaves an acyclic graph behind, whichever rows the
      database skips. */
  lemma NothingReportedIsSafe(existing: seq<Existing>, dump: Dump)
    requires !Missed(existing, dump) && GroupCycles.Acyclic(Searched(existing, dump))
    ensures GroupCycles.Acyclic(Resulting(existing, dump))
  {
    SearchCoversIff(existing, dump);
    hide Searched, Resulting, Missed;
    CoversKeepsAcyclic(Searched(existing, dump), Resulting(existing, dump));
  }

  // ---- exactness: when the database skips nothing the search counts ----

  /** Rows in order clash neither with each other nor, unless they repeat an existing group as it is, with the database. */
  predicate GroupRowsFit(table: seq<DumpGroup>, rows: seq<DumpGroup>) {
    && (forall g | g in rows :: g in table || !Clashes(table, g))
    && forall i, j | 0 <= i < j < |rows| :: rows[i].id != rows[j].id && rows[i].name != rows[j].name
  }

  predicate DistinctItems(rows: seq<DumpItem>) {
    forall i, j | 0 <= i < j < |rows| :: rows[i].item.id != rows[j].item.id
  }

  predicate RowsFit(existing: seq<Existing>, dump: Dump) {
    && GroupRowsFit(Headers(existing), dump.groups)
    && DistinctItems(dump.items)
    && forall i | i in dump.items && IsRef(i.item) && i.group !in KnownOf(existing).groups :: i.item.id !in KnownOf(existing).items
  }

  lemma {:induction false} InsertGroupsAll(table: seq<DumpGroup>, rows: seq<DumpGroup>)
    requires GroupRowsFit(table, rows)
    ensures forall g | g in rows :: g in InsertGroups(table, rows)
    decreases |rows|
  {
    if rows != [] {
      assert rows == [rows[0]] + rows[1..];
      var after := if Clashes(table, rows[0]) then table else table + [rows[0]];
      forall g | g in rows[1..] ensures g in after || !Clashes(after, g) {
      }
      InsertGroupsAll(after, rows[1..]);
      InsertGroupsFrom(after, rows[1..]);
    }
  }

  lemma {:induction false} InsertItemsAll(ids: set<int>, rows: seq<DumpItem>)
    requires DistinctItems(rows)
    ensures forall i | i in rows && i.item.id !in ids :: i in InsertItems(ids, rows)
    decreases |rows|
  {
    if rows != [] {
      assert rows == [rows[0]] + rows[1..];
      InsertItemsAll(ids, rows[1..]);
      InsertItemsAll(ids + {rows[0].item.id}, rows[1..]);
    }
  }

  lemma SearchedIsWritten(existing: seq<Existing>, dump: Dump, n: string)
    requires RowsFit(existing, dump)
    ensures FromDump(KnownOf(existing), dump, dump.groups, n) <= Written(TableAfter(existing, dump), ItemsAfter(existing, dump), n)
  {
    var k := KnownOf(existing);
    InsertGroupsAll(Headers(existing), dump.groups);
    InsertItemsAll(k.items, dump.items);
    hide KnownOf, Headers, InsertGroups, InsertItems, GroupRowsFit, DistinctItems;
    forall r | r in FromDump(k, dump, dump.groups, n)
      ensures r in Written(TableAfter(existing, dump), ItemsAfter(existing, dump), n)
    {
      var g :| g in dump.groups && g.name == n && r in Contribution(k, dump.items, g.id);
      var i :| i in dump.items && Imported(k, g.id, i) && i.item.ref == r;
      assert i in ItemsAfter(existing, dump);
      assert DumpGroup(i.group, n) == g;
    }
  }

  lemma NamesWritten(existing: seq<Existing>, dump: Dump)
    requires RowsFit(existing, dump)
    ensures Names(existing, dump.groups) <= NamesOf(TableAfter(existing, dump))
  {
    InsertGroupsAll(Headers(existing), dump.groups);
    ExistingWritten(existing, dump);
    hide InsertGroups, GroupRowsFit;
  }

  /** The search counts a dump entry that the import skips: its name does not appear, or one of the references it brings is
      neither written nor there already. */
  predicate Superfluous(existing: seq<Existing>, dump: Dump) {
    exists g | g in dump.groups ::
      || g.name !in NamesOf(TableAfter(existing, dump))
      || !(Contribution(KnownOf(existing), dump.items, g.id)
           <= FromExisting(existing, g.name) + Written(TableAfter(existing, dump), ItemsAfter(existing, dump), g.name))
  }

  lemma FromDumpAt(k: Known, dump: Dump, g: DumpGroup)
    requires g in dump.groups
    ensures Contribution(k, dump.items, g.id) <= FromDump(k, dump, dump.groups, g.name)
  {
    hide Contribution;
  }

  lemma ExistingWritten(existing: seq<Existing>, dump: Dump)
    ensures forall e | e in existing :: e.name in NamesOf(TableAfter(existing, dump))
  {
    InsertGroupsFrom(Headers(existing), dump.groups);
    hide InsertGroups;
    forall e | e in existing ensures e.name in NamesOf(TableAfter(existing, dump)) {
      assert DumpGroup(e.id, e.name) in TableAfter(existing, dump);
    }
  }

  lemma ExactIsNotSuperfluous(existing: seq<Existing>, dump: Dump)
    requires Searched(existing, dump) == Resulting(existing, dump)
    ensures !Superfluous(existing, dump)
  {
    SearchedAt(existing, dump);
    ResultingAt(existing, dump);
    hide Searched, Resulting, TableAfter, ItemsAfter, FromExisting, FromDump, KnownOf, Written, NamesOf, Contribution;
    forall g | g in dump.groups
      ensures g.name in NamesOf(TableAfter(existing, dump))
      ensures Contribution(KnownOf(existing), dump.items, g.id)
           <= FromExisting(existing, g.name) + Written(TableAfter(existing, dump), ItemsAfter(existing, dump), g.name)
    {
      assert g.name in Names(existing, dump.groups);
      FromDumpAt(KnownOf(existing), dump, g);
    }
  }

  lemma NotSuperfluousCovers(existing: seq<Existing>, dump: Dump)
    requires !Superfluous(existing, dump)
    ensures Covers(Resulting(existing, dump), Searched(existing, dump))
  {
    SearchedAt(existing, dump);
    ResultingAt(existing, dump);
    ExistingWritten(existing, dump);
    hide Searched, Resulting, TableAfter, ItemsAfter, FromExisting, KnownOf, Written, NamesOf, Contribution;
    forall n | n in Searched(existing, dump) ensures n in Resulting(existing, dump) {
      assert n in Names(existing, dump.groups);
    }
    forall n, r | n in Searched(existing, dump) && r in FromDump(KnownOf(existing), dump, dump.groups, n)
      ensures r in FromExisting(existing, n) + Written(TableAfter(existing, dump), ItemsAfter(existing, dump), n)
    {
      var g :| g in dump.groups && g.name == n && r in Contribution(KnownOf(existing), dump.items, g.id);
    }
  }

  /** The graph searched is the graph left behind exactly when no reference is missed and no entry is superfluous. */
  lemma SearchIsExactIff(existing: seq<Existing>, dump: Dump)
    ensures Searched(existing, dump) == Resulting(existing, dump) <==> !Missed(existing, dump) && !Superfluous(existing, dump)
  {
    SearchCoversIff(existing, dump);
    hide Searched, Resulting, Missed, Superfluous;
    if Searched(existing, dump) == Resulting(existing, dump) {
      ExactIsNotSuperfluous(existing, dump);
    }
    if !Missed(existing, dump) && !Superfluous(existing, dump) {
      NotSuperfluousCovers(existing, dump);
      CoversBoth(Searched(existing, dump), Resulting(existing, dump));
    }
  }

  lemma CoversBoth(a: GroupCycles.Refs, b: GroupCycles.Refs)
    requires Covers(a, b) && Covers(b, a)
    ensures a == b
  {
    assert a.Keys == b.Keys;
    assert forall n | n in a :: a[n] == b[n];
  }

  /** Rows that fit are never superfluous. */
  lemma FittingRowsCount(existing: seq<Existing>, dump: Dump)
    requires RowsFit(existing, dump)
    ensures !Superfluous(existing, dump)
  {
    NamesWritten(existing, dump);
    hide TableAfter, ItemsAfter, FromExisting, FromDump, KnownOf, Written, NamesOf, Contribution, RowsFit;
    forall g | g in dump.groups
      ensures g.name in NamesOf(TableAfter(existing, dump))
      ensures Contribution(KnownOf(existing), dump.items, g.id) <= Written(TableAfter(existing, dump), ItemsAfter(existing, dump), g.name)
    {
      assert g.name in Names(existing, dump.groups);
      FromDumpAt(KnownOf(existing), dump, g);
      SearchedIsWritten(existing, dump, g.name);
    }
  }

  // ---- both rules can fail when the conditions do not hold ----

  const a := Existing(1, "a", [])
  const b := Existing(2, "b", [Item(7, 0, "a")])

  /** Group c is new and brings an item to b under the id 7, which the database holds already; b is given an item to c. */
  const Repeated := Dump([DumpGroup(9, "c"), DumpGroup(2, "b")], [DumpItem(9, Item(7, 0, "b")), DumpItem(2, Item(8, 0, "c"))])

  /** The import skips c's item and leaves an acyclic graph behind, yet the search reports b, c, b: the third row condition is needed. */
  lemma RepeatedItemIsFalseAlarm()
    ensures Listed([a, b], Repeated) && GroupRowsFit(Headers([a, b]), Repeated.groups) && DistinctItems(Repeated.items)
    ensures !GroupCycles.Acyclic(Searched([a, b], Repeated)) && GroupCycles.Acyclic(Resulting([a, b], Repeated))
  {
    RepeatedIsListed();
    RepeatedIsSearched();
    RepeatedLeaves();
  }

  lemma Existed()
    ensures KnownOf([a, b]) == Known({1, 2}, {7}) && Headers([a, b]) == [DumpGroup(1, "a"), DumpGroup(2, "b")]
    ensures forall n :: FromExisting([a, b], n) == if n == "b" then {"a"} else {}
  {
    assert [a, b][0] == a && [a, b][1] == b && b.items[0] == Item(7, 0, "a");
    assert [a, b][1..] == [b] && [b][1..] == [];
    assert Headers([b]) == [DumpGroup(2, "b")] + Headers([]);
    forall n ensures FromExisting([a, b], n) == if n == "b" then {"a"} else {} {
      assert Targets(b.items) == {"a"};
    }
  }

  lemma RepeatedIsListed()
    ensures Listed([a, b], Repeated) && GroupRowsFit(Headers([a, b]), Repeated.groups) && DistinctItems(Repeated.items)
  {
    Existed();
    hide KnownOf, Headers;
    assert Contribution(KnownOf([a, b]), Repeated.items, 1) == {};
    assert Repeated.groups[1] == DumpGroup(2, "b");
  }

  lemma RepeatedIsSearched()
    ensures !GroupCycles.Acyclic(Searched([a, b], Repeated))
  {
    Existed();
    var k, refs := KnownOf([a, b]), Searched([a, b], Repeated);
    SearchedAt([a, b], Repeated);
    hide KnownOf, Headers, Searched;
    assert Repeated.groups[0] == DumpGroup(9, "c") && Repeated.groups[1] == DumpGroup(2, "b");
    assert "c" in FromDump(k, Repeated, Repeated.groups, "b") by {
      assert Imported(k, 2, Repeated.items[1]);
      assert "c" in Contribution(k, Repeated.items, 2);
    }
    assert "b" in FromDump(k, Repeated, Repeated.groups, "c") by {
      assert Imported(k, 9, Repeated.items[0]);
      assert "b" in Contribution(k, Repeated.items, 9);
    }
    hide FromExisting, FromDump;
    ShortCycle(refs, "b", "c");
  }

  lemma ShortCycle(refs: GroupCycles.Refs, m: string, n: string)
    requires m in refs && n in refs && n in refs[m] && m in refs[n]
    ensures !GroupCycles.Acyclic(refs)
  {
    assert GroupCycles.Closed(refs, [m, n, m]);
    GroupCycles.ClosedIsCyclic(refs, [m, n, m]);
  }

  /** All references start at one group and none leads back to it. */
  lemma StarIsAcyclic(refs: GroupCycles.Refs, m: string)
    requires forall n | n in refs :: (n == m ==> m !in refs[n]) && (n != m ==> refs[n] == {})
    ensures GroupCycles.Acyclic(refs)
  {
    var rank: map<string, nat> := map n | n in refs :: if n == m then 1 else 0;
    assert GroupCycles.Ranks(refs, rank);
  }

  lemma RepeatedRows()
    ensures TableAfter([a, b], Repeated) == [DumpGroup(1, "a"), DumpGroup(2, "b"), DumpGroup(9, "c")]
    ensures ItemsAfter([a, b], Repeated) == [DumpItem(2, Item(8, 0, "c"))]
  {
    Existed();
    hide KnownOf, Headers, FromExisting;
    var was, now := [DumpGroup(1, "a"), DumpGroup(2, "b")], [DumpGroup(1, "a"), DumpGroup(2, "b"), DumpGroup(9, "c")];
    assert Repeated.groups[1..] == [DumpGroup(2, "b")] && Repeated.groups[1..][1..] == [];
    assert now[1] == DumpGroup(2, "b");
    assert Clashes(now, DumpGroup(2, "b")) && !Clashes(was, DumpGroup(9, "c"));
    assert InsertGroups(was, Repeated.groups) == InsertGroups(now, [DumpGroup(2, "b")]);
  }

  lemma RepeatedLeaves()
    ensures GroupCycles.Acyclic(Resulting([a, b], Repeated))
  {
    Existed();
    RepeatedRows();
    ResultingAt([a, b], Repeated);
    var refs := Resulting([a, b], Repeated);
    hide KnownOf, Headers, Resulting, TableAfter, ItemsAfter, FromExisting;
    forall n | n in refs ensures (n == "b" ==> "b" !in refs[n]) && (n != "b" ==> refs[n] == {}) {
      assert Written(TableAfter([a, b], Repeated), ItemsAfter([a, b], Repeated), n) <= if n == "b" then {"c"} else {};
    }
    StarIsAcyclic(refs, "b");
  }

  /** An item gives group a, which the dump does not list, a reference to b. */
  const Unlisted := Dump([], [DumpItem(1, Item(8, 0, "b"))])

  /** The reference is missed: the search reports nothing, and the import leaves a, b, a behind. */
  lemma UnlistedGroupIsMissed()
    ensures RowsFit([a, b], Unlisted) && Missed([a, b], Unlisted)
    ensures GroupCycles.Acyclic(Searched([a, b], Unlisted)) && !GroupCycles.Acyclic(Resulting([a, b], Unlisted))
  {
    UnlistedRows();
    UnlistedIsSearched();
    Existed();
    var refs, table, items := Resulting([a, b], Unlisted), TableAfter([a, b], Unlisted), ItemsAfter([a, b], Unlisted);
    ResultingAt([a, b], Unlisted);
    assert table[0] == DumpGroup(1, "a") && table[1] == DumpGroup(2, "b") && items[0] == DumpItem(1, Item(8, 0, "b"));
    assert [a, b][0] == a;
    assert FromDump(KnownOf([a, b]), Unlisted, Unlisted.groups, "a") == {};
    hide KnownOf, Headers, Resulting, TableAfter, ItemsAfter, FromExisting, FromDump;
    assert "b" in Written(table, items, "a");
    ShortCycle(refs, "a", "b");
  }

  lemma UnlistedRows()
    ensures RowsFit([a, b], Unlisted)
    ensures TableAfter([a, b], Unlisted) == [DumpGroup(1, "a"), DumpGroup(2, "b")]
    ensures ItemsAfter([a, b], Unlisted) == Unlisted.items
  {
    Existed();
    hide KnownOf, Headers, FromExisting;
    assert Unlisted.items[1..] == [];
    assert InsertItems({7, 8}, []) == [];
  }

  lemma UnlistedIsSearched()
    ensures GroupCycles.Acyclic(Searched([a, b], Unlisted))
  {
    Existed();
    SearchedAt([a, b], Unlisted);
    forall n ensures FromDump(KnownOf([a, b]), Unlisted, Unlisted.groups, n) == {} {
    }
    hide KnownOf, Searched, FromExisting, FromDump, Headers;
    StarIsAcyclic(Searched([a, b], Unlisted), "b");
  }
}
