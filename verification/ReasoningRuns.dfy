/** What the replay cache answers over whole histories of calls. */
module ReasoningRuns {
  import opened ReasoningCache

  datatype Op = Lookup(key: string, now: int) | Write(key: string, value: string, now: int)

  datatype Written = Never | Last(value: string, at: int)

  function Step(l: seq<Entry>, op: Op, ttl: int, capacity: nat): seq<Entry> {
    match op
    case Lookup(key, now) => AfterGet(l, key, now)
    case Write(key, value, now) => AfterSet(l, key, value, now, ttl, capacity)
  }

  function After(h: seq<Op>, ttl: int, capacity: nat): seq<Entry> {
    if h == [] then [] else Step(After(h[..|h| - 1], ttl, capacity), h[|h| - 1], ttl, capacity)
  }

  /** The last write of a key in the history. */
  function LastWrite(h: seq<Op>, key: string): Written {
    if h == [] then Never
    else
      var op := h[|h| - 1];
      if op.Write? && op.key == key then Last(op.value, op.now) else LastWrite(h[..|h| - 1], key)
  }

  /** The key was written, and its last write has not expired. */
  predicate Fresh(h: seq<Op>, key: string, ttl: int, now: int) {
    LastWrite(h, key).Last? && now < LastWrite(h, key).at + ttl
  }

  /** A lookup after the history finds the key. */
  predicate Hits(h: seq<Op>, key: string, now: int, ttl: int, capacity: nat)
    decreases |h|, 2
  {
    Fresh(h, key, ttl, now) && Recent(h, key, ttl, capacity)
  }

  /** The other keys written, or found by a lookup, since the key itself was last called for. A lookup that finds nothing
      uses no key. */
  function Used(h: seq<Op>, key: string, ttl: int, capacity: nat): set<string>
    decreases |h|, 0
  {
    if h == [] || h[|h| - 1].key == key then {}
    else
      var before, op := h[..|h| - 1], h[|h| - 1];
      Used(before, key, ttl, capacity) + if op.Write? || Hits(before, op.key, op.now, ttl, capacity) then {op.key} else {}
  }

  function FreshOf(h: seq<Op>, keys: set<string>, ttl: int, now: int): set<string> {
    set k | k in keys && Fresh(h, k, ttl, now)
  }

  /** No write since the key's own last write has found as many as `capacity` unexpired keys used more recently. */
  predicate Recent(h: seq<Op>, key: string, ttl: int, capacity: nat)
    decreases |h|, 1
  {
    && h != []
    && var before, op := h[..|h| - 1], h[|h| - 1];
       if op.Write? && op.key == key then capacity > 0
       else
         && Recent(before, key, ttl, capacity)
         && (op.Write? ==> |FreshOf(h, Used(h, key, ttl, capacity), ttl, op.now)| < capacity)
  }

  predicate Ordered(h: seq<Op>) {
    forall i | 0 < i < |h| :: h[i - 1].now <= h[i].now
  }

  // ---- positions in the list ----

  function Before(l: seq<Entry>, key: string): set<string> {
    set j | 0 <= j < Find(l, key) :: l[j].key
  }

  lemma FindCons(e: Entry, l: seq<Entry>, key: string)
    ensures Find([e] + l, key) == if e.key == key then 0 else Find(l, key) + 1
    ensures e.key != key ==> Before([e] + l, key) == {e.key} + Before(l, key)
  {
    assert ([e] + l)[1..] == l;
    if e.key != key {
      var i := Find(l, key);
      assert Before([e] + l, key) <= {e.key} + Before(l, key);
      forall x | x in Before(l, key) ensures x in Before([e] + l, key) {
        var j :| 0 <= j < i && l[j].key == x;
        assert ([e] + l)[j + 1].key == x;
      }
      assert ([e] + l)[0].key == e.key;
    }
  }

  /** The keys before a key whose entries a filter keeps. */
  function KeptBefore(l: seq<Entry>, keep: Entry -> bool, key: string): set<string> {
    set j | 0 <= j < Find(l, key) && keep(l[j]) :: l[j].key
  }

  lemma KeptCons(e: Entry, l: seq<Entry>, keep: Entry -> bool, key: string)
    requires e.key != key
    ensures KeptBefore([e] + l, keep, key) == KeptBefore(l, keep, key) + if keep(e) then {e.key} else {}
  {
    var all := [e] + l;
    FindCons(e, l, key);
    assert all[0] == e;
    forall x | x in KeptBefore(l, keep, key) ensures x in KeptBefore(all, keep, key) {
      var j :| 0 <= j < Find(l, key) && keep(l[j]) && l[j].key == x;
      assert all[j + 1] == l[j];
    }
    forall x | x in KeptBefore(all, keep, key) ensures x in KeptBefore(l, keep, key) || (keep(e) && x == e.key) {
      var j :| 0 <= j < Find(all, key) && keep(all[j]) && all[j].key == x;
      assert j > 0 ==> all[j] == l[j - 1];
    }
  }

  /** A filter that keeps the entry of a key leaves before it exactly what it keeps. */
  lemma {:induction false} FilterFind(l: seq<Entry>, keep: Entry -> bool, key: string)
    requires Find(l, key) < |l| && keep(l[Find(l, key)])
    ensures var f := Filter(l, keep);
            Find(f, key) < |f| && f[Find(f, key)] == l[Find(l, key)] && Before(f, key) == KeptBefore(l, keep, key)
  {
    var e, rest := l[0], l[1..];
    assert l == [e] + rest;
    FindCons(e, rest, key);
    if e.key == key {
      FindCons(e, Filter(rest, keep), key);
      assert Before(Filter(l, keep), key) == {} && KeptBefore(l, keep, key) == {};
    } else {
      FilterFind(rest, keep, key);
      KeptCons(e, rest, keep, key);
      FindCons(e, Filter(rest, keep), key);
    }
  }

  lemma FindAbsent(l: seq<Entry>, key: string)
    ensures Find(l, key) == |l| <==> forall e | e in l :: e.key != key
  {
  }

  lemma FilterAbsent(l: seq<Entry>, keep: Entry -> bool, key: string)
    requires Find(l, key) == |l|
    ensures Find(Filter(l, keep), key) == |Filter(l, keep)|
  {
    FilterIn(l, keep);
    FindAbsent(l, key);
    FindAbsent(Filter(l, keep), key);
  }

  lemma BeforeWithout(l: seq<Entry>, other: string, key: string)
    requires other != key && Find(l, key) < |l|
    ensures var w := Without(l, other);
            Find(w, key) < |w| && w[Find(w, key)] == l[Find(l, key)] && Before(w, key) == Before(l, key) - {other}
  {
    var keep := (e: Entry) => e.key != other;
    FilterFind(l, keep, key);
    assert KeptBefore(l, keep, key) == Before(l, key) - {other};
  }

  lemma {:induction false} PositionIsCount(l: seq<Entry>, key: string)
    requires Distinct(l)
    ensures |Before(l, key)| == Find(l, key)
  {
    if l != [] && l[0].key != key {
      var e, rest := l[0], l[1..];
      assert l == [e] + rest;
      assert forall i | 0 <= i < |rest| :: rest[i] == l[i + 1];
      FindCons(e, rest, key);
      PositionIsCount(rest, key);
      assert e.key !in Before(rest, key);
    } else {
      assert Before(l, key) == {};
    }
  }

  lemma TakeFind(l: seq<Entry>, key: string, n: nat)
    requires Find(l, key) < n
    ensures Find(l, key) < |l| ==> Find(Take(l, n), key) == Find(l, key) && Before(Take(l, n), key) == Before(l, key)
  {
    var i := Find(l, key);
    if i < |l| {
      var t := Take(l, n);
      assert t[i].key == key;
      assert Find(t, key) <= i;
      assert l[Find(t, key)].key == key;
      assert Find(t, key) == i;
    }
  }

  lemma {:induction false} AllDistinct(h: seq<Op>, ttl: int, capacity: nat)
    ensures Distinct(After(h, ttl, capacity))
  {
    if h != [] {
      var l, op := After(h[..|h| - 1], ttl, capacity), h[|h| - 1];
      AllDistinct(h[..|h| - 1], ttl, capacity);
      OpsKeepDistinct(l, op.key, if op.Write? then op.value else "", op.now, ttl, capacity);
      hide AfterGet, AfterSet, Distinct;
    }
  }

  // ---- what is in the list was written ----

  predicate Faithful(e: Entry, h: seq<Op>, ttl: int) {
    LastWrite(h, e.key) == Last(e.value, e.expiresAt - ttl)
  }

  lemma StepEntries(l: seq<Entry>, op: Op, ttl: int, capacity: nat, e: Entry)
    requires Distinct(l) && e in Step(l, op, ttl, capacity)
    ensures (op.Write? && e == Entry(op.key, op.value, op.now + ttl)) || (e in l && (op.Write? ==> e.key != op.key))
  {
    WithoutKey(l, op.key);
    var w := Without(l, op.key);
    hide Without;
    if op.Write? {
      var all := [Entry(op.key, op.value, op.now + ttl)] + w;
      FilterIn(all, (x: Entry) => x.expiresAt > op.now);
      assert e in Live(all, op.now);
    }
  }

  lemma {:induction false} EntriesAreFaithful(h: seq<Op>, ttl: int, capacity: nat, e: Entry)
    requires e in After(h, ttl, capacity)
    ensures Faithful(e, h, ttl)
  {
    var l, op := After(h[..|h| - 1], ttl, capacity), h[|h| - 1];
    AllDistinct(h[..|h| - 1], ttl, capacity);
    StepEntries(l, op, ttl, capacity, e);
    hide Step;
    if e in l && (op.Write? ==> e.key != op.key) {
      EntriesAreFaithful(h[..|h| - 1], ttl, capacity, e);
    }
  }

  // ---- what was written recently is in the list, and nothing else ----

  /** The key is present, only used keys stand before it, and of those at least the fresh ones. */
  predicate Held(l: seq<Entry>, key: string, expiry: int, used: set<string>, ahead: set<string>) {
    Find(l, key) < |l| && l[Find(l, key)].expiresAt == expiry && ahead <= Before(l, key) <= used
  }

  predicate Absent(l: seq<Entry>, key: string) {
    Find(l, key) == |l|
  }

  lemma OwnLookupHolds(l: seq<Entry>, key: string, now: int, expiry: int, used: set<string>, ahead: set<string>)
    requires Held(l, key, expiry, used, ahead) && expiry > now
    ensures Held(AfterGet(l, key, now), key, expiry, {}, {})
  {
    var e, w := l[Find(l, key)], Without(l, key);
    FindCons(e, w, key);
    assert Before([e] + w, key) == {};
  }

  lemma HitHolds(l: seq<Entry>, key: string, other: string, now: int, expiry: int, used: set<string>, ahead: set<string>)
    requires Held(l, key, expiry, used, ahead) && other != key && Answer(l, other, now).Some?
    ensures Held(AfterGet(l, other, now), key, expiry, used + {other}, ahead + {other})
  {
    BeforeWithout(l, other, key);
    FindCons(l[Find(l, other)], Without(l, other), key);
    hide Without;
  }

  lemma MissHolds(l: seq<Entry>, key: string, other: string, now: int, expiry: int, used: set<string>, ahead: set<string>)
    requires Held(l, key, expiry, used, ahead) && other != key && Answer(l, other, now).None?
    ensures Held(AfterGet(l, other, now), key, expiry, used, ahead - {other}) && (Absent(l, other) ==> AfterGet(l, other, now) == l)
  {
    BeforeWithout(l, other, key);
    hide Without;
  }

  lemma LookupKeepsAbsent(l: seq<Entry>, key: string, other: string, now: int)
    requires Absent(l, key)
    ensures Absent(AfterGet(l, other, now), key)
  {
    FilterAbsent(l, (e: Entry) => e.key != other, key);
    if Find(l, other) < |l| {
      FindCons(l[Find(l, other)], Without(l, other), key);
    }
    hide Without;
  }

  lemma WriteKeepsAbsent(l: seq<Entry>, key: string, e: Entry, now: int, capacity: nat)
    requires Absent(l, key) && e.key != key
    ensures Absent(Take(Live([e] + Without(l, e.key), now), capacity), key)
  {
    FilterAbsent(l, (x: Entry) => x.key != e.key, key);
    FindCons(e, Without(l, e.key), key);
    var all := [e] + Without(l, e.key);
    FilterAbsent(all, (x: Entry) => x.expiresAt > now, key);
    FindAbsent(Live(all, now), key);
    FindAbsent(Take(Live(all, now), capacity), key);
  }

  lemma OwnWriteHolds(l: seq<Entry>, op: Op, ttl: int, capacity: nat)
    requires op.Write? && capacity > 0 && ttl > 0
    ensures Held(Step(l, op, ttl, capacity), op.key, op.now + ttl, {}, {})
  {
    var e := Entry(op.key, op.value, op.now + ttl);
    var w := Without(l, op.key);
    FindCons(e, Live(w, op.now), op.key);
    hide Without, Live;
    TakeFind([e] + Live(w, op.now), op.key, capacity);
    LiveCons(e, w, op.now);
    assert Before([e] + Live(w, op.now), op.key) == {};
  }

  /** All entries live exactly as long as the last write of their key is fresh. */
  predicate Dated(l: seq<Entry>, h: seq<Op>, ttl: int, now: int) {
    forall e | e in l :: e.expiresAt > now <==> Fresh(h, e.key, ttl, now)
  }

  /** After the purge exactly the fresh keys stand before a live one. */
  lemma LiveBefore(l: seq<Entry>, h: seq<Op>, ttl: int, now: int, key: string)
    requires Dated(l, h, ttl, now) && Find(l, key) < |l| && l[Find(l, key)].expiresAt > now
    ensures var f := Live(l, now);
            Find(f, key) < |f| && f[Find(f, key)] == l[Find(l, key)] && Before(f, key) == FreshOf(h, Before(l, key), ttl, now)
  {
    var keep := (e: Entry) => e.expiresAt > now;
    FilterFind(l, keep, key);
    hide Fresh;
    assert forall j | 0 <= j < |l| :: l[j] in l;
    assert KeptBefore(l, keep, key) == FreshOf(h, Before(l, key), ttl, now);
  }

  lemma TakeCuts(l: seq<Entry>, key: string, capacity: nat)
    requires Distinct(l) && Find(l, key) < |l|
    ensures var t := Take(l, capacity);
            if |Before(l, key)| < capacity
            then Find(t, key) < |t| && t[Find(t, key)] == l[Find(l, key)] && Before(t, key) == Before(l, key)
            else Absent(t, key)
  {
    PositionIsCount(l, key);
    var t := Take(l, capacity);
    if Find(l, key) < capacity {
      TakeFind(l, key, capacity);
    } else {
      FindAbsent(t, key);
      assert forall j | 0 <= j < |t| :: t[j] == l[j];
    }
  }

  lemma WriteDated(h: seq<Op>, ttl: int, capacity: nat)
    requires h != [] && h[|h| - 1].Write? && ttl > 0
    ensures var l, op := After(h[..|h| - 1], ttl, capacity), h[|h| - 1];
            Dated([Entry(op.key, op.value, op.now + ttl)] + Without(l, op.key), h, ttl, op.now)
  {
    var b, op := h[..|h| - 1], h[|h| - 1];
    var l := After(b, ttl, capacity);
    AllDistinct(b, ttl, capacity);
    WithoutKey(l, op.key);
    hide Without, After;
    forall e | e in Without(l, op.key) ensures e.expiresAt > op.now <==> Fresh(h, e.key, ttl, op.now) {
      EntriesAreFaithful(b, ttl, capacity, e);
    }
  }

  /** The list right after the purge of a write. */
  lemma FrontBefore(l: seq<Entry>, e: Entry, h: seq<Op>, ttl: int, now: int, key: string)
    requires Distinct(l) && e.key != key && Find(l, key) < |l| && l[Find(l, key)].expiresAt > now
    requires Dated([e] + Without(l, e.key), h, ttl, now)
    ensures var f := Live([e] + Without(l, e.key), now);
            && Distinct(f) && Find(f, key) < |f| && f[Find(f, key)] == l[Find(l, key)]
            && Before(f, key) == FreshOf(h, {e.key} + (Before(l, key) - {e.key}), ttl, now)
  {
    var w := Without(l, e.key);
    BeforeWithout(l, e.key, key);
    FindCons(e, w, key);
    WithoutKey(l, e.key);
    hide Without, Live, Dated, FreshOf;
    ConsDistinct(e, w);
    LiveBefore([e] + w, h, ttl, now, key);
    LiveDistinct([e] + w, now);
  }

  lemma LiveDistinct(l: seq<Entry>, now: int)
    requires Distinct(l)
    ensures Distinct(Live(l, now))
  {
    FilterDistinct(l, (x: Entry) => x.expiresAt > now);
  }

  /** A write of another key keeps the key exactly when fewer than `capacity` fresh keys then stand before it. */
  lemma WriteHolds(h: seq<Op>, key: string, ttl: int, capacity: nat, expiry: int, used: set<string>, ahead: set<string>)
    requires h != [] && h[|h| - 1].Write? && h[|h| - 1].key != key && expiry > h[|h| - 1].now && ttl > 0
    requires Held(After(h[..|h| - 1], ttl, capacity), key, expiry, used, ahead)
    requires FreshOf(h, used, ttl, h[|h| - 1].now) - {h[|h| - 1].key} <= ahead
    ensures var op := h[|h| - 1];
            var now := FreshOf(h, used + {op.key}, ttl, op.now);
            if |now| < capacity then Held(After(h, ttl, capacity), key, expiry, used + {op.key}, now)
            else Absent(After(h, ttl, capacity), key)
  {
    var b, op := h[..|h| - 1], h[|h| - 1];
    var l, e := After(b, ttl, capacity), Entry(op.key, op.value, op.now + ttl);
    WriteIsStep(h, ttl, capacity);
    WriteDated(h, ttl, capacity);
    AllDistinct(b, ttl, capacity);
    hide After, Without, Dated, Live, Take, FreshOf;
    FrontBefore(l, e, h, ttl, op.now, key);
    FreshSplit(h, used, Before(l, key), op.key, ahead, ttl, op.now);
    TakeCuts(Live([e] + Without(l, op.key), op.now), key, capacity);
  }

  lemma FreshSplit(h: seq<Op>, used: set<string>, before: set<string>, k: string, ahead: set<string>, ttl: int, now: int)
    requires ahead <= before <= used && FreshOf(h, used, ttl, now) - {k} <= ahead
    ensures FreshOf(h, {k} + (before - {k}), ttl, now) == FreshOf(h, used + {k}, ttl, now)
    ensures FreshOf(h, used + {k}, ttl, now) <= used + {k}
  {
    hide Fresh;
  }

  /** The state of one key after a history: in the list exactly when its last write is recent. */
  ghost predicate StateOf(h: seq<Op>, ttl: int, capacity: nat, key: string)
    requires h != []
  {
    var l, used := After(h, ttl, capacity), Used(h, key, ttl, capacity);
    if Recent(h, key, ttl, capacity)
    then Held(l, key, Expiry(h, key, ttl), used, FreshOf(h, used, ttl, h[|h| - 1].now))
    else Absent(l, key)
  }

  function Expiry(h: seq<Op>, key: string, ttl: int): int {
    match LastWrite(h, key)
    case Never => 0
    case Last(_, at) => at + ttl
  }

  lemma OwnWriteKeeps(h: seq<Op>, ttl: int, capacity: nat, key: string)
    requires h != [] && h[|h| - 1].Write? && h[|h| - 1].key == key && ttl > 0
    ensures StateOf(h, ttl, capacity, key)
  {
    var l := After(h[..|h| - 1], ttl, capacity);
    if capacity > 0 {
      OwnWriteHolds(l, h[|h| - 1], ttl, capacity);
    } else {
      assert After(h, ttl, capacity) == [];
    }
  }

  lemma OwnLookupKeeps(h: seq<Op>, ttl: int, capacity: nat, key: string)
    requires |h| > 1 && h[|h| - 1] == Op.Lookup(key, h[|h| - 1].now) && Fresh(h, key, ttl, h[|h| - 1].now)
    requires StateOf(h[..|h| - 1], ttl, capacity, key)
    ensures StateOf(h, ttl, capacity, key)
  {
    var b, op := h[..|h| - 1], h[|h| - 1];
    var l, used := After(b, ttl, capacity), Used(b, key, ttl, capacity);
    hide Held, AfterGet;
    if Recent(b, key, ttl, capacity) {
      OwnLookupHolds(l, key, op.now, Expiry(h, key, ttl), used, FreshOf(b, used, ttl, b[|b| - 1].now));
      assert FreshOf(h, {}, ttl, op.now) == {};
    } else {
      LookupKeepsAbsent(l, key, key, op.now);
    }
  }

  /** What was fresh stays so only if it was fresh before; the last call's own key aside. */
  lemma FreshBack(h: seq<Op>, keys: set<string>, ttl: int)
    requires |h| > 1 && h[|h| - 2].now <= h[|h| - 1].now
    ensures FreshOf(h, keys, ttl, h[|h| - 1].now) - {h[|h| - 1].key} <= FreshOf(h[..|h| - 1], keys, ttl, h[|h| - 2].now)
  {
  }

  lemma OtherWriteKeeps(h: seq<Op>, ttl: int, capacity: nat, key: string)
    requires |h| > 1 && h[|h| - 2].now <= h[|h| - 1].now
    requires h[|h| - 1].Write? && h[|h| - 1].key != key && Fresh(h, key, ttl, h[|h| - 1].now) && ttl > 0
    requires StateOf(h[..|h| - 1], ttl, capacity, key)
    ensures StateOf(h, ttl, capacity, key)
  {
    var b, op := h[..|h| - 1], h[|h| - 1];
    var l, used := After(b, ttl, capacity), Used(b, key, ttl, capacity);
    assert Used(h, key, ttl, capacity) == used + {op.key};
    assert Recent(h, key, ttl, capacity) <==>
             Recent(b, key, ttl, capacity) && |FreshOf(h, used + {op.key}, ttl, op.now)| < capacity;
    hide Held, AfterSet, Used, Recent, FreshOf;
    if Recent(b, key, ttl, capacity) {
      FreshBack(h, used, ttl);
      WriteHolds(h, key, ttl, capacity, Expiry(h, key, ttl), used, FreshOf(b, used, ttl, b[|b| - 1].now));
    } else {
      WriteIsStep(h, ttl, capacity);
      WriteKeepsAbsent(l, key, Entry(op.key, op.value, op.now + ttl), op.now, capacity);
    }
  }

  lemma WriteIsStep(h: seq<Op>, ttl: int, capacity: nat)
    requires h != [] && h[|h| - 1].Write?
    ensures var l, op := After(h[..|h| - 1], ttl, capacity), h[|h| - 1];
            After(h, ttl, capacity) == Take(Live([Entry(op.key, op.value, op.now + ttl)] + Without(l, op.key), op.now), capacity)
  {
  }

  lemma OtherLookupKeeps(h: seq<Op>, ttl: int, capacity: nat, key: string)
    requires |h| > 1 && h[|h| - 2].now <= h[|h| - 1].now
    requires h[|h| - 1].Lookup? && h[|h| - 1].key != key && Fresh(h, key, ttl, h[|h| - 1].now)
    requires StateOf(h[..|h| - 1], ttl, capacity, key)
    requires var b, op := h[..|h| - 1], h[|h| - 1];
             Answer(After(b, ttl, capacity), op.key, op.now).Some? <==> Hits(b, op.key, op.now, ttl, capacity)
    ensures StateOf(h, ttl, capacity, key)
  {
    var b, op := h[..|h| - 1], h[|h| - 1];
    var l, used := After(b, ttl, capacity), Used(b, key, ttl, capacity);
    var ahead := FreshOf(b, used, ttl, b[|b| - 1].now);
    if Recent(b, key, ttl, capacity) {
      FreshBack(h, used, ttl);
      if Answer(l, op.key, op.now).Some? {
        HitHolds(l, key, op.key, op.now, Expiry(h, key, ttl), used, ahead);
      } else {
        MissHolds(l, key, op.key, op.now, Expiry(h, key, ttl), used, ahead);
        MissIsStale(h, ttl, capacity);
      }
    } else {
      LookupKeepsAbsent(l, key, op.key, op.now);
    }
    hide Answer, AfterGet, Hits;
  }

  /** An entry that a lookup finds expired belongs to a key that is not fresh. */
  lemma MissIsStale(h: seq<Op>, ttl: int, capacity: nat)
    requires h != [] && h[|h| - 1].Lookup? && Answer(After(h[..|h| - 1], ttl, capacity), h[|h| - 1].key, h[|h| - 1].now).None?
    ensures var l, op := After(h[..|h| - 1], ttl, capacity), h[|h| - 1];
            Absent(l, op.key) || !Fresh(h, op.key, ttl, op.now)
  {
    var b, op := h[..|h| - 1], h[|h| - 1];
    var l := After(b, ttl, capacity);
    if !Absent(l, op.key) {
      EntriesAreFaithful(b, ttl, capacity, l[Find(l, op.key)]);
    }
  }

  lemma {:induction false} RecentIsHeld(h: seq<Op>, ttl: int, capacity: nat, key: string)
    requires Ordered(h) && h != [] && Fresh(h, key, ttl, h[|h| - 1].now)
    ensures StateOf(h, ttl, capacity, key)
    decreases |h|, 0
  {
    var b, op := h[..|h| - 1], h[|h| - 1];
    FreshNeedsTtl(h, key, ttl);
    if op.Write? && op.key == key {
      OwnWriteKeeps(h, ttl, capacity, key);
    } else {
      FreshBefore(h, key, ttl);
      RecentIsHeld(b, ttl, capacity, key);
      hide StateOf;
      if op.key == key {
        OwnLookupKeeps(h, ttl, capacity, key);
      } else if op.Write? {
        OtherWriteKeeps(h, ttl, capacity, key);
      } else {
        AnswerIff(b, ttl, capacity, op.key, op.now);
        OtherLookupKeeps(h, ttl, capacity, key);
      }
    }
  }

  lemma FreshBefore(h: seq<Op>, key: string, ttl: int)
    requires Ordered(h) && h != [] && Fresh(h, key, ttl, h[|h| - 1].now)
    requires !(h[|h| - 1].Write? && h[|h| - 1].key == key)
    ensures |h| > 1 && h[|h| - 2].now <= h[|h| - 1].now
    ensures Ordered(h[..|h| - 1]) && Fresh(h[..|h| - 1], key, ttl, h[|h| - 2].now)
  {
    assert LastWrite(h, key) == LastWrite(h[..|h| - 1], key) && LastWrite([], key) == Never;
    assert h[..|h| - 1] != [];
  }

  /** Nothing stays fresh without a positive lifetime. */
  lemma {:induction false} FreshNeedsTtl(h: seq<Op>, key: string, ttl: int)
    requires Ordered(h) && h != [] && Fresh(h, key, ttl, h[|h| - 1].now)
    ensures ttl > 0
  {
    var b := h[..|h| - 1];
    if !(h[|h| - 1].Write? && h[|h| - 1].key == key) {
      FreshBefore(h, key, ttl);
      FreshNeedsTtl(b, key, ttl);
    }
  }

  // ---- lookups ----

  /** A lookup never invents or revives anything: what it returns is the last value written for the key, unexpired. */
  lemma HitIsLastWrite(h: seq<Op>, ttl: int, capacity: nat, key: string, now: int)
    requires Answer(After(h, ttl, capacity), key, now).Some?
    ensures Fresh(h, key, ttl, now) && Answer(After(h, ttl, capacity), key, now) == Some(LastWrite(h, key).value)
  {
    var l := After(h, ttl, capacity);
    EntriesAreFaithful(h, ttl, capacity, l[Find(l, key)]);
  }

  /** What every lookup after every history answers, told by the calls alone: the last value written, exactly when it has not
      expired and no write since found the capacity full of fresh keys used more recently. */
  lemma {:induction false} AnswerIff(h: seq<Op>, ttl: int, capacity: nat, key: string, now: int)
    requires Ordered(h) && (h != [] ==> h[|h| - 1].now <= now)
    ensures Answer(After(h, ttl, capacity), key, now)
         == if Hits(h, key, now, ttl, capacity) then Some(LastWrite(h, key).value) else None
    decreases |h|, 1
  {
    var l := After(h, ttl, capacity);
    if Fresh(h, key, ttl, now) {
      RecentIsHeld(h, ttl, capacity, key);
    }
    if Answer(l, key, now).Some? {
      HitIsLastWrite(h, ttl, capacity, key, now);
    }
    hide After, Recent, Used;
  }

  /** The list never holds more than the capacity after a write, and no key twice. */
  lemma NeverOverCapacity(h: seq<Op>, ttl: int, capacity: nat)
    ensures |After(h, ttl, capacity)| <= capacity && Distinct(After(h, ttl, capacity))
  {
    AllDistinct(h, ttl, capacity);
    SizeBound(h, ttl, capacity);
  }

  lemma {:induction false} SizeBound(h: seq<Op>, ttl: int, capacity: nat)
    ensures |After(h, ttl, capacity)| <= capacity
  {
    if h != [] {
      SizeBound(h[..|h| - 1], ttl, capacity);
      var l, op := After(h[..|h| - 1], ttl, capacity), h[|h| - 1];
      hide After;
      WithoutSize(l, op.key);
      hide Without, Live;
    }
  }

  lemma {:induction false} WithoutSize(l: seq<Entry>, key: string)
    ensures |Without(l, key)| <= |l|
    ensures Find(l, key) < |l| ==> |Without(l, key)| < |l|
  {
    if l != [] {
      WithoutSize(l[1..], key);
    }
  }
}
