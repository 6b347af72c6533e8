/** Replay cache for reasoning texts: least recently used entries are evicted, old ones expire. */
module ReasoningCache {

  datatype Entry = Entry(key: string, value: string, expiresAt: int)

  datatype Option<T> = None | Some(value: T)

  // ---- the recency list ----

  function Filter(l: seq<Entry>, keep: Entry -> bool): seq<Entry> {
    if l == [] then []
    else if keep(l[0]) then [l[0]] + Filter(l[1..], keep)
    else Filter(l[1..], keep)
  }

  /** Position of a key, the length of the list when it is absent. */
  function Find(l: seq<Entry>, key: string): (i: nat)
    ensures i <= |l|
    ensures i < |l| ==> l[i].key == key
    ensures forall j | 0 <= j < i :: l[j].key != key
  {
    if l == [] || l[0].key == key then 0
    else
      var i := Find(l[1..], key);
      assert forall j | 0 < j < 1 + i :: l[j] == l[1..][j - 1];
      1 + i
  }

  function Without(l: seq<Entry>, key: string): seq<Entry> {
    Filter(l, (e: Entry) => e.key != key)
  }

  function Live(l: seq<Entry>, now: int): seq<Entry> {
    Filter(l, (e: Entry) => e.expiresAt > now)
  }

  function Take(l: seq<Entry>, n: nat): seq<Entry> {
    if |l| > n then l[..n] else l
  }

  /** A lookup: a live entry moves to the front, an expired one is dropped. */
  function AfterGet(l: seq<Entry>, key: string, now: int): seq<Entry> {
    var i := Find(l, key);
    if i == |l| then l
    else if l[i].expiresAt <= now then Without(l, key)
    else [l[i]] + Without(l, key)
  }

  function Answer(l: seq<Entry>, key: string, now: int): Option<string> {
    var i := Find(l, key);
    if i == |l| || l[i].expiresAt <= now then None else Some(l[i].value)
  }

  /** A write: the entry goes to the front, expired entries go, and the oldest beyond the capacity are evicted. */
  function AfterSet(l: seq<Entry>, key: string, value: string, now: int, ttl: int, capacity: nat): seq<Entry> {
    Take(Live([Entry(key, value, now + ttl)] + Without(l, key), now), capacity)
  }

  predicate Distinct(l: seq<Entry>) {
    forall i, j | 0 <= i < j < |l| :: l[i].key != l[j].key
  }

  lemma {:induction false} FilterIn(l: seq<Entry>, keep: Entry -> bool)
    ensures forall e :: e in Filter(l, keep) <==> e in l && keep(e)
  {
    if l != [] {
      FilterIn(l[1..], keep);
      assert l == [l[0]] + l[1..];
    }
  }

  lemma {:induction false} FilterDistinct(l: seq<Entry>, keep: Entry -> bool)
    requires Distinct(l)
    ensures Distinct(Filter(l, keep))
  {
    if l != [] {
      assert Distinct(l[1..]) by {
        assert forall i | 0 <= i < |l| - 1 :: l[1..][i] == l[i + 1];
      }
      FilterDistinct(l[1..], keep);
      FilterIn(l[1..], keep);
      var f := Filter(l[1..], keep);
      forall i | 0 <= i < |f| ensures f[i].key != l[0].key {
        assert f[i] in l[1..];
      }
    }
  }

  lemma ConsDistinct(e: Entry, l: seq<Entry>)
    requires Distinct(l) && forall x | x in l :: x.key != e.key
    ensures Distinct([e] + l)
  {
  }

  lemma WithoutKey(l: seq<Entry>, key: string)
    requires Distinct(l)
    ensures Distinct(Without(l, key)) && forall x | x in Without(l, key) :: x.key != key && x in l
  {
    FilterIn(l, (e: Entry) => e.key != key);
    FilterDistinct(l, (e: Entry) => e.key != key);
  }

  lemma OpsKeepDistinct(l: seq<Entry>, key: string, value: string, now: int, ttl: int, capacity: nat)
    requires Distinct(l)
    ensures Distinct(AfterGet(l, key, now)) && Distinct(AfterSet(l, key, value, now, ttl, capacity))
  {
    WithoutKey(l, key);
    var w := Without(l, key);
    var e := Entry(key, value, now + ttl);
    hide Without;
    ConsDistinct(e, w);
    FilterDistinct([e] + w, (e: Entry) => e.expiresAt > now);
    var i := Find(l, key);
    if i < |l| {
      ConsDistinct(l[i], w);
    }
  }

  // ---- the cache ----

  /** The entries in recency order. */
  function ViewOf(order: seq<string>, m: map<string, Entry>): (l: seq<Entry>)
    requires forall k | k in order :: k in m
    ensures |l| == |order|
    ensures forall i | 0 <= i < |order| :: l[i] == m[order[i]]
  {
    seq(|order|, i requires 0 <= i < |order| => m[order[i]])
  }

  /** The order without one key, wherever it stands. */
  function Removed(order: seq<string>, key: string): (r: seq<string>)
    ensures forall x :: x in r <==> x in order && x != key
  {
    if order == [] then []
    else
      assert order == [order[0]] + order[1..];
      if order[0] == key then Removed(order[1..], key) else [order[0]] + Removed(order[1..], key)
  }

  predicate NoDup(order: seq<string>) {
    forall i, j | 0 <= i < j < |order| :: order[i] != order[j]
  }

  lemma {:induction false} RemovedNoDup(order: seq<string>, key: string)
    requires NoDup(order)
    ensures NoDup(Removed(order, key))
  {
    if order != [] {
      var rest := order[1..];
      assert order == [order[0]] + rest;
      assert forall i | 0 <= i < |rest| :: rest[i] == order[i + 1];
      assert order[0] !in rest;
      RemovedNoDup(rest, key);
      FrontNoDup(order[0], Removed(rest, key));
    }
  }

  lemma FrontNoDup(k: string, order: seq<string>)
    requires NoDup(order) && k !in order
    ensures NoDup([k] + order)
  {
  }

  /** The two structures stay in step: same keys, each entry under its own key, no key twice in the order. */
  predicate InStep(order: seq<string>, m: map<string, Entry>) {
    && NoDup(order)
    && (forall k | k in order :: k in m)
    && (forall k | k in m :: k in order && m[k].key == k)
  }

  lemma {:induction false} RemovedView(order: seq<string>, m: map<string, Entry>, key: string)
    requires forall k | k in order :: k in m && m[k].key == k
    ensures ViewOf(Removed(order, key), m) == Without(ViewOf(order, m), key)
  {
    if order != [] {
      assert order == [order[0]] + order[1..];
      RemovedView(order[1..], m, key);
      assert ViewOf(order, m)[1..] == ViewOf(order[1..], m);
    }
  }

  /** The order without position i. */
  function Cut(order: seq<string>, i: nat): (r: seq<string>)
    requires i < |order|
    ensures |r| == |order| - 1
    ensures forall j | 0 <= j < |r| :: r[j] == if j < i then order[j] else order[j + 1]
  {
    order[..i] + order[i + 1..]
  }

  lemma CutNoDup(order: seq<string>, i: nat)
    requires NoDup(order) && i < |order|
    ensures NoDup(Cut(order, i)) && order[i] !in Cut(order, i)
  {
    var r := Cut(order, i);
    hide Cut;
    assert forall j | 0 <= j < |r| :: r[j] == order[if j < i then j else j + 1];
  }

  /** Taking one key out leaves all others in place. */
  lemma DropOne(order: seq<string>, i: nat, m: map<string, Entry>)
    requires InStep(order, m) && i < |order|
    ensures InStep(Cut(order, i), m - {order[i]})
    ensures order[i] !in order[..i] && order[i] !in order[i + 1..]
  {
    CutNoDup(order, i);
    hide Cut, NoDup;
    var r := Cut(order, i);
    forall x | x in r ensures x in order && x != order[i] {
    }
    forall x | x in order && x != order[i] ensures x in r {
      var j :| 0 <= j < |order| && order[j] == x;
      assert j != i && r[if j < i then j else j - 1] == x;
    }
    HalvesOfCut(order, i);
  }

  lemma HalvesOfCut(order: seq<string>, i: nat)
    requires i < |order|
    ensures forall x :: x in Cut(order, i) <==> x in order[..i] || x in order[i + 1..]
    ensures Cut(order, i)[..i] == order[..i] && Cut(order, i)[i..] == order[i + 1..]
  {
  }

  /** Entries of other keys do not show in a view. */
  lemma SameView(order: seq<string>, m: map<string, Entry>, k: string)
    requires (forall x | x in order :: x in m) && k !in order
    ensures ViewOf(order, m - {k}) == ViewOf(order, m)
  {
  }

  lemma FrontView(order: seq<string>, m: map<string, Entry>, e: Entry)
    requires NoDup(order) && e.key !in order
    requires (forall k | k in order :: k in m) && forall k | k in m :: (k in order || k == e.key) && m[k].key == k
    ensures InStep([e.key] + order, m[e.key := e])
    ensures ViewOf([e.key] + order, m[e.key := e]) == [e] + ViewOf(order, m)
  {
    FrontNoDup(e.key, order);
    var o, n := [e.key] + order, m[e.key := e];
    assert forall k :: k in o <==> k == e.key || k in order;
    assert InStep(o, n) by {
      hide NoDup;
    }
    hide InStep, NoDup;
    forall i | 0 <= i < |o| ensures ViewOf(o, n)[i] == ([e] + ViewOf(order, m))[i] {
    }
  }

  /** One element of the purging walk. */
  lemma PurgeStep(order: seq<string>, i: nat, m: map<string, Entry>, now: int)
    requires InStep(order, m) && i < |order|
    ensures InStep(Cut(order, i), m - {order[i]})
    ensures WalkView(order, i, m, now) ==
            if m[order[i]].expiresAt <= now then WalkView(Cut(order, i), i, m - {order[i]}, now)
            else WalkView(order, i + 1, m, now)
  {
    var k, before, after := order[i], order[..i], order[i + 1..];
    DropOne(order, i, m);
    HalvesOfCut(order, i);
    KeysOfParts(order, i, m);
    ViewSplits(order, i, m);
    LiveCons(m[k], ViewOf(after, m), now);
    SameView(before, m, k);
    SameView(after, m, k);
    hide ViewOf, InStep, Live, Cut;
    ConsAssoc(ViewOf(before, m), m[k], Live(ViewOf(after, m), now));
  }

  lemma ConsAssoc(a: seq<Entry>, e: Entry, b: seq<Entry>)
    ensures (a + [e]) + b == a + ([e] + b)
  {
  }

  lemma KeysOfParts(order: seq<string>, i: nat, m: map<string, Entry>)
    requires (forall k | k in order :: k in m) && i < |order|
    ensures (forall k | k in order[..i] :: k in m) && (forall k | k in order[..i + 1] :: k in m)
    ensures (forall k | k in order[i..] :: k in m) && (forall k | k in order[i + 1..] :: k in m)
  {
  }

  lemma ViewSplits(order: seq<string>, i: nat, m: map<string, Entry>)
    requires (forall k | k in order :: k in m) && i < |order|
    requires (forall k | k in order[..i] :: k in m) && (forall k | k in order[..i + 1] :: k in m)
    requires (forall k | k in order[i..] :: k in m) && (forall k | k in order[i + 1..] :: k in m)
    ensures ViewOf(order[i..], m) == [m[order[i]]] + ViewOf(order[i + 1..], m)
    ensures ViewOf(order[..i + 1], m) == ViewOf(order[..i], m) + [m[order[i]]]
  {
  }

  /** What a purging walk at position i will leave: everything before it, the live rest behind it. */
  function WalkView(order: seq<string>, i: nat, m: map<string, Entry>, now: int): seq<Entry>
    requires (forall k | k in order :: k in m) && i <= |order|
  {
    assert forall k | k in order[..i] :: k in order;
    assert forall k | k in order[i..] :: k in order;
    ViewOf(order[..i], m) + Live(ViewOf(order[i..], m), now)
  }

  /** The position of a key in the order is its position in the view. */
  lemma Located(order: seq<string>, m: map<string, Entry>, key: string)
    requires InStep(order, m)
    ensures var i := Find(ViewOf(order, m), key);
            if key in m then i < |order| && order[i] == key && ViewOf(order, m)[i] == m[key] else i == |order|
  {
    var i := Find(ViewOf(order, m), key);
    if key in m {
      var j :| 0 <= j < |order| && order[j] == key;
      assert ViewOf(order, m)[j].key == key;
    }
    assert i < |order| ==> order[i] in m && m[order[i]].key == order[i];
  }

  /** Map and list: `order` names the keys from most to least recently used, `entries` finds them. */
  class Cache {
    const ttl: int
    const capacity: nat
    var entries: map<string, Entry>
    var order: seq<string>

    ghost predicate Valid()
      reads this
    {
      InStep(order, entries)
    }

    function View(): seq<Entry>
      requires Valid()
      reads this
    {
      ViewOf(order, entries)
    }

    constructor (capacity: nat, ttl: int)
      ensures Valid() && View() == [] && this.capacity == capacity && this.ttl == ttl
    {
      this.capacity, this.ttl := capacity, ttl;
      entries, order := map[], [];
    }

    method Remove(key: string)
      requires Valid() && key in entries
      modifies this
      ensures Valid() && View() == Without(old(View()), key) && key !in entries
    {
      RemovedView(order, entries, key);
      RemovedNoDup(order, key);
      order := Removed(order, key);
      entries := entries - {key};
      hide Removed, Without;
      assert ViewOf(order, entries) == ViewOf(order, old(entries));
    }

    /** The entry goes to the front of the list, wherever its key stood before. */
    method MoveToFront(e: Entry)
      requires Valid() && e.key in entries
      modifies this
      ensures Valid() && View() == [e] + Without(old(View()), e.key)
    {
      RemovedView(order, entries, e.key);
      RemovedNoDup(order, e.key);
      FrontView(Removed(order, e.key), entries, e);
      hide Removed, Without, ViewOf;
      order := [e.key] + Removed(order, e.key);
      entries := entries[e.key := e];
    }

    method PushFront(e: Entry)
      requires Valid() && e.key !in entries
      modifies this
      ensures Valid() && View() == [e] + old(View())
    {
      FrontView(order, entries, e);
      hide ViewOf, InStep;
      order := [e.key] + order;
      entries := entries[e.key := e];
    }

    /** A hit refreshes the recency; an expired entry is removed at once and counts as a miss. */
    method Get(key: string, now: int) returns (r: Option<string>)
      requires Valid()
      modifies this
      ensures Valid()
      ensures View() == AfterGet(old(View()), key, now)
      ensures r == Answer(old(View()), key, now)
    {
      Located(order, entries, key);
      hide Without, Find, ViewOf, InStep;
      if key !in entries {
        return None;
      }
      var entry := entries[key];
      LocatedKey(order, entries, key);
      if entry.expiresAt <= now {
        Remove(key);
        return None;
      }
      MoveToFront(entry);
      r := Some(entry.value);
    }

    /** Drops every expired entry, walking the list from the front. */
    method Purge(now: int)
      requires Valid()
      modifies this
      ensures Valid() && View() == Live(old(View()), now)
    {
      hide Live, ViewOf, WalkView, InStep, Cut;
      WalkEnds(order, entries, now);
      var i := 0;
      while i < |order|
        invariant 0 <= i <= |order| && Valid()
        invariant (forall k | k in order :: k in entries) && WalkView(order, i, entries, now) == Live(old(View()), now)
        decreases |order| - i
      {
        var k := order[i];
        StepKeys(order, entries, k);
        PurgeStep(order, i, entries, now);
        if entries[k].expiresAt <= now {
          order := Cut(order, i);
          entries := entries - {k};
          WalkEnds(order, entries, now);
        } else {
          i := i + 1;
        }
      }
      WalkEnds(order, entries, now);
    }

    /** Evicts from the back until the capacity is met. */
    method Evict()
      requires Valid()
      modifies this
      ensures Valid() && View() == Take(old(View()), capacity)
    {
      while |order| > capacity
        invariant Valid() && |order| <= |old(order)| && View() == old(View())[..|order|]
        invariant |old(order)| > capacity ==> |order| >= capacity
        invariant |old(order)| <= capacity ==> |order| == |old(order)|
        decreases |order|
      {
        EvictStep(order, entries);
        hide ViewOf, InStep;
        TakeShorter(old(View()), |order|);
        entries := entries - {order[|order| - 1]};
        order := order[..|order| - 1];
      }
    }

    method Set(key: string, value: string, now: int)
      requires Valid()
      modifies this
      ensures Valid()
      ensures View() == AfterSet(old(View()), key, value, now, ttl, capacity)
    {
      hide Without, Live, Take, ViewOf;
      if key in entries {
        MoveToFront(Entry(key, value, now + ttl));
      } else {
        Absent(order, entries, key);
        PushFront(Entry(key, value, now + ttl));
      }
      Purge(now);
      Evict();
    }
  }

  lemma TakeShorter(l: seq<Entry>, n: nat)
    requires 0 < n <= |l|
    ensures l[..n][..n - 1] == l[..n - 1]
  {
  }

  lemma EvictStep(order: seq<string>, m: map<string, Entry>)
    requires InStep(order, m) && order != []
    ensures var n := |order| - 1;
            InStep(order[..n], m - {order[n]}) && ViewOf(order[..n], m - {order[n]}) == ViewOf(order, m)[..n]
  {
    var n := |order| - 1;
    DropOne(order, n, m);
    assert Cut(order, n) == order[..n];
    hide InStep;
  }

  lemma WalkEnds(order: seq<string>, m: map<string, Entry>, now: int)
    requires InStep(order, m)
    ensures forall k | k in order :: k in m
    ensures WalkView(order, 0, m, now) == Live(ViewOf(order, m), now) && WalkView(order, |order|, m, now) == ViewOf(order, m)
  {
    assert order[..0] == [] && order[0..] == order && order[..|order|] == order && order[|order|..] == [];
  }

  lemma StepKeys(order: seq<string>, m: map<string, Entry>, k: string)
    requires InStep(order, m) && k in order
    ensures k in m
  {
  }

  lemma LiveCons(e: Entry, l: seq<Entry>, now: int)
    ensures Live([e] + l, now) == if e.expiresAt > now then [e] + Live(l, now) else Live(l, now)
  {
    assert ([e] + l)[1..] == l;
  }

  lemma LocatedKey(order: seq<string>, m: map<string, Entry>, key: string)
    requires InStep(order, m) && key in m
    ensures m[key].key == key
  {
  }

  lemma Absent(order: seq<string>, m: map<string, Entry>, key: string)
    requires InStep(order, m) && key !in m
    ensures Without(ViewOf(order, m), key) == ViewOf(order, m)
  {
    KeepAll(ViewOf(order, m), key);
  }

  lemma {:induction false} KeepAll(l: seq<Entry>, key: string)
    requires forall i | 0 <= i < |l| :: l[i].key != key
    ensures Without(l, key) == l
  {
    if l != [] {
      KeepAll(l[1..], key);
    }
  }
}
