/** The routing state of one group: cooldowns, half-open probes, the recovery candidate and the emergency slots.
    This is the state as a value, and the specification; the module `RouteObject` holds the object that is updated in place. */
module Route {
  import opened Backoff

  const EMERGENCY_MAX := 3

  type Times = map<int, int>

  datatype Route = Route(
    current: int,
    probe: int,
    affinityUntil: int,
    armed: bool,
    cooldowns: Times,
    levels: Times,
    halfOpens: Times,
    strikes: Times,
    emergencyItem: int,
    emergencyActive: int,
    emergencyCounts: Times,
    emergencyBlocks: Times)

  const NEW_ROUTE := Route(0, 0, 0, false, map[], map[], map[], map[], 0, 0, map[], map[])

  /** Absent keys read as zero. */
  function Get(m: Times, k: int): int {
    if k in m then m[k] else 0
  }

  function Drop(m: Times, k: int): Times {
    m - {k}
  }

  // ---- emergency slots ----

  ghost function Sum(m: Times): int {
    if exists k :: k in m then
      var k :| k in m;
      m[k] + Sum(m - {k})
    else 0
  }

  lemma {:induction false} SumOf(m: Times, k: int)
    requires k in m
    ensures Sum(m) == m[k] + Sum(m - {k})
    decreases |m|
  {
    var j :| j in m && Sum(m) == m[j] + Sum(m - {j});
    if j != k {
      SumOf(m - {j}, k);
      SumOf(m - {k}, j);
      assert (m - {j}) - {k} == (m - {k}) - {j};
    }
  }

  lemma SumSet(m: Times, k: int, v: int)
    ensures Sum(m[k := v]) == Sum(m) - Get(m, k) + v
  {
    SumOf(m[k := v], k);
    assert m[k := v] - {k} == m - {k};
    if k in m {
      SumOf(m, k);
    } else {
      assert m - {k} == m;
    }
  }

  lemma {:induction false} SumPositive(m: Times)
    requires forall k | k in m :: m[k] > 0
    ensures Sum(m) >= 0 && (Sum(m) == 0 <==> m == map[])
    decreases |m|
  {
    if exists k :: k in m {
      var k :| k in m;
      SumOf(m, k);
      SumPositive(m - {k});
    } else {
      assert m == map[];
    }
  }

  lemma {:induction false} SumRestricted(m: Times, keep: set<int>)
    requires forall k | k in m :: m[k] > 0
    ensures Sum(Restrict(m, keep)) <= Sum(m)
    decreases |m|
  {
    if exists k :: k in m {
      var k :| k in m;
      SumOf(m, k);
      SumRestricted(m - {k}, keep);
      if k in keep {
        SumOf(Restrict(m, keep), k);
        assert Restrict(m, keep) - {k} == Restrict(m - {k}, keep);
      } else {
        assert Restrict(m, keep) == Restrict(m - {k}, keep);
      }
    }
  }

  function Restrict(m: Times, keep: set<int>): Times {
    map k | k in m && k in keep :: m[k]
  }

  /** The exported summary after a recount: the sum of all counts, and a member that holds one.
      Which holder is named when the previous one holds none is left to map iteration. */
  ghost predicate Recounted(before: Route, after: Route) {
    && after == before.(emergencyItem := after.emergencyItem, emergencyActive := after.emergencyActive)
    && var total := Sum(before.emergencyCounts);
       if total <= 0 then after.emergencyItem == 0 && after.emergencyActive == 0
       else
         && after.emergencyActive == total
         && if before.emergencyItem == 0 || Get(before.emergencyCounts, before.emergencyItem) <= 0
            then after.emergencyItem in before.emergencyCounts
            else after.emergencyItem == before.emergencyItem
  }

  /** Emergency accounting: counts are positive, their sum is published and at most 3,
      and a member is named exactly when somebody holds a slot. */
  ghost predicate EmergencyInv(r: Route) {
    && (forall k | k in r.emergencyCounts :: k > 0 && r.emergencyCounts[k] > 0)
    && r.emergencyActive == Sum(r.emergencyCounts) <= EMERGENCY_MAX
    && (r.emergencyActive == 0 <==> r.emergencyItem == 0)
    && (r.emergencyItem != 0 ==> r.emergencyItem in r.emergencyCounts)
  }

  function ReleasedCounts(counts: Times, item: int): Times {
    if Get(counts, item) <= 0 then counts
    else if counts[item] - 1 <= 0 then counts - {item}
    else counts[item := counts[item] - 1]
  }

  lemma ReleaseSum(counts: Times, item: int)
    requires forall k | k in counts :: k > 0 && counts[k] > 0
    ensures var n := ReleasedCounts(counts, item);
            && (forall k | k in n :: k > 0 && n[k] > 0)
            && Sum(n) == Sum(counts) - if item in counts then 1 else 0
  {
    if item in counts {
      SumOf(counts, item);
      SumSet(counts, item, counts[item] - 1);
    }
  }

  /** One slot of `item` given back, nothing at all when it holds none. */
  ghost predicate EmergencyReleased(before: Route, after: Route, item: int) {
    if Get(before.emergencyCounts, item) <= 0 then after == before
    else Recounted(before.(emergencyCounts := ReleasedCounts(before.emergencyCounts, item)), after)
  }

  // ---- access: residue of removed members goes first ----

  function MapsPruned(r: Route, items: set<int>): Route {
    r.(cooldowns := Restrict(r.cooldowns, items),
       levels := Restrict(r.levels, items),
       halfOpens := Restrict(r.halfOpens, items),
       strikes := Restrict(r.strikes, items),
       emergencyCounts := Restrict(r.emergencyCounts, items),
       emergencyBlocks := Restrict(r.emergencyBlocks, items))
  }

  function Pruned(r0: Route, items: set<int>): Route {
    var r := MapsPruned(r0, items);
    var gone := r.current != 0 && r.current !in items;
    r.(probe := if r.probe != 0 && r.probe !in items then 0 else r.probe,
       current := if gone then 0 else r.current,
       affinityUntil := if gone then 0 else r.affinityUntil,
       armed := if gone then false else r.armed)
  }

  ghost predicate Accessed(before: Route, after: Route, items: set<int>) {
    Recounted(Pruned(before, items), after)
  }

  // ---- half-open claims ----

  predicate MayClaim(r: Route, item: int, now: int) {
    r.probe == 0 && item in r.cooldowns && r.cooldowns[item] <= now && Get(r.halfOpens, item) <= 0
  }

  function Claimed(r: Route, item: int, now: int): Route {
    if MayClaim(r, item, now) then r.(halfOpens := r.halfOpens[item := now]) else r
  }

  function ClaimedAll(r: Route, items: seq<int>, now: int): Route
    decreases |items|
  {
    if items == [] then r else ClaimedAll(Claimed(r, items[0], now), items[1..], now)
  }

  /** The members of `items` whose claim succeeds, in order. */
  function ClaimsWon(r: Route, items: seq<int>, now: int): seq<int>
    decreases |items|
  {
    if items == [] then []
    else (if MayClaim(r, items[0], now) then [items[0]] else []) + ClaimsWon(Claimed(r, items[0], now), items[1..], now)
  }

  // ---- picking ----

  datatype Pick =
    | Wait                                        // a candidate is being confirmed by another request
    | Affine(item: int)                           // affinity keeps the current member
    | Closed(item: int, probes: seq<int>)         // a closed member; expired ones are probed in the background
    | Recover(candidates: seq<int>)               // only expired members: probe the whole batch
    | Exhausted                                   // nothing to pick, emergency slot is the last resort

  datatype Scan = Scan(expired: seq<int>, selected: int)

  /** First closed member in scan order, and the expired members met before it. */
  function ScanMembers(r: Route, order: seq<int>, exclude: int, disabled: set<int>, now: int): Scan {
    if order == [] then Scan([], 0)
    else
      var item := order[0];
      if item == exclude || item in disabled then ScanMembers(r, order[1..], exclude, disabled, now)
      else if item !in r.cooldowns then Scan([], item)
      else
        var rest := ScanMembers(r, order[1..], exclude, disabled, now);
        if r.cooldowns[item] > now || Get(r.halfOpens, item) > 0 then rest
        else rest.(expired := [item] + rest.expired)
  }

  datatype Picked = Picked(route: Route, pick: Pick)

  /** The critical section of a pick on an already accessed route. */
  function PickCore(r0: Route, order: seq<int>, exclude: int, disabled: set<int>, now: int): Picked {
    var r := if r0.affinityUntil <= now then r0.(affinityUntil := 0) else r0;
    if r.probe != 0 then Picked(r, Wait)
    else if r.current != 0 && r.current != exclude && r.affinityUntil > now && r.current in order && r.current !in disabled
    then Picked(r, Affine(r.current))
    else
      var scan := ScanMembers(r, order, exclude, disabled, now);
      if scan.selected != 0 then
        Picked(ClaimedAll(r, scan.expired, now).(current := scan.selected),
               Closed(scan.selected, ClaimsWon(r, scan.expired, now)))
      else if scan.expired != [] then Picked(ClaimedAll(r, scan.expired, now), Recover(scan.expired))
      else Picked(r, Exhausted)
  }

  // ---- verdicts ----

  function Restored(r: Route, item: int): Route {
    r.(cooldowns := Drop(r.cooldowns, item), levels := Drop(r.levels, item), halfOpens := Drop(r.halfOpens, item))
  }

  function Reopened(r: Route, c: Config, item: int, now: int): Route {
    var level := Get(r.levels, item) + 1;
    r.(levels := r.levels[item := level],
       cooldowns := r.cooldowns[item := now + CooldownMillis(c, level)],
       halfOpens := Drop(r.halfOpens, item))
  }

  function ReopenedAll(r: Route, c: Config, items: seq<int>, now: int): Route
    decreases |items|
  {
    if items == [] then r else ReopenedAll(Reopened(r, c, items[0], now), c, items[1..], now)
  }

  function DropAll(m: Times, items: seq<int>, keep: int): Times {
    if items == [] then m
    else DropAll(if items[0] != keep then Drop(m, items[0]) else m, items[1..], keep)
  }

  /** End of a recovery batch: the first success becomes the candidate, otherwise all members back off. */
  function BatchFinished(r: Route, c: Config, candidates: seq<int>, winner: int, now: int): Route {
    if winner != 0 then r.(halfOpens := DropAll(r.halfOpens, candidates, winner), probe := winner)
    else ReopenedAll(r, c, candidates, now)
  }

  function ProbeFinished(r: Route, c: Config, item: int, failed: bool, now: int): Route {
    if Get(r.halfOpens, item) == 0 then r
    else if failed then Reopened(r, c, item, now)
    else Restored(r, item)
  }

  predicate Holds(r: Route, item: int) {
    r.probe == item || Get(r.halfOpens, item) > 0
  }

  function LeaveCurrent(r: Route, item: int): Route {
    if r.current == item then r.(current := 0, affinityUntil := 0, armed := true) else r
  }

  function StrikesCleared(r: Route, item: int): Route {
    if Get(r.strikes, item) > 0 then r.(strikes := Drop(r.strikes, item)) else r
  }

  /** A member that passed its confirmation: closed again, no candidate left, no emergency block. */
  function Confirmed(r: Route, item: int): Route {
    r.(cooldowns := Drop(r.cooldowns, item), levels := Drop(r.levels, item), halfOpens := Drop(r.halfOpens, item),
       probe := 0, emergencyBlocks := Drop(r.emergencyBlocks, item))
  }

  function Promoted(r: Route, item: int, now: int): Route {
    if r.current == 0 || r.affinityUntil <= now then r.(current := item, affinityUntil := 0) else r
  }

  /** A confirmed round, up to the release of an emergency slot. */
  function SucceededCore(r: Route, item: int, now: int): Route {
    if Holds(r, item) then Promoted(Confirmed(StrikesCleared(r, item), item), item, now) else StrikesCleared(r, item)
  }

  ghost predicate Succeeded(before: Route, after: Route, c: Config, item: int, now: int) {
    var r := SucceededCore(before, item, now);
    if Get(before.emergencyCounts, item) > 0 then EmergencyReleased(r, after, item)
    else if r.current == item && r.armed then
      after == r.(armed := false,
                  affinityUntil := if c.affinitySeconds > 0 then now + c.affinitySeconds * 1000 else r.affinityUntil)
    else after == r
  }

  /** The candidate or a half-open member failed its confirmation. */
  function RejectedHeld(r: Route, c: Config, item: int, failures: int, threshold: int, now: int): Route {
    var r1 := r.(halfOpens := Drop(r.halfOpens, item), probe := 0);
    var r2 := if threshold <= failures then
                var level := Get(r1.levels, item) + 1;
                r1.(levels := r1.levels[item := level], cooldowns := r1.cooldowns[item := now + CooldownMillis(c, level)])
              else r1.(cooldowns := Drop(r1.cooldowns, item));
    LeaveCurrent(r2, item)
  }

  /** A closed member reached the failure limit. */
  function Opened(r: Route, c: Config, item: int, now: int): Route {
    var until := now + CooldownMillis(c, Get(r.levels, item));
    var r1 := r.(cooldowns := r.cooldowns[item := until]);
    var r2 := if Get(r.emergencyCounts, item) > 0 then r1.(emergencyBlocks := r1.emergencyBlocks[item := until]) else r1;
    LeaveCurrent(r2, item)
  }

  /** A failed round up to the release of an emergency slot. */
  function FailedCore(r: Route, c: Config, item: int, failures: int, limit: int, now: int): Route {
    var threshold := Max(limit, 1);
    if Holds(r, item) then RejectedHeld(r, c, item, failures, threshold, now)
    else if failures < threshold then r
    else Opened(r, c, item, now)
  }

  /** Whether the caller re-picks at once instead of waiting for the same member. */
  predicate Repicks(r: Route, item: int, failures: int, limit: int) {
    Holds(r, item) || failures >= Max(limit, 1)
  }

  ghost predicate Failed(before: Route, after: Route, c: Config, item: int, failures: int, limit: int, now: int) {
    EmergencyReleased(FailedCore(before, c, item, failures, limit, now), after, item)
  }

  /** A round without verdict: a probe hold is cleared, otherwise an emergency slot is given back. */
  ghost predicate Released(before: Route, after: Route, item: int) {
    if Holds(before, item) then
      after == before.(halfOpens := Drop(before.halfOpens, item), probe := if before.probe == item then 0 else before.probe)
    else EmergencyReleased(before, after, item)
  }

  /** A failure after the response was committed; `before` is the accessed route. */
  function PostCommit(before: Route, c: Config, item: int, now: int): Route {
    if item in before.cooldowns then before
    else
      var strikes := Get(before.strikes, item) + 1;
      if strikes < Max(c.maxAttempts, 1) then before.(strikes := before.strikes[item := strikes])
      else before.(strikes := Drop(before.strikes, item), cooldowns := before.cooldowns[item := now + CooldownMillis(c, 1)])
  }

  /** Whether the emergency member may serve one more request. */
  predicate MayServeEmergency(r: Route, c: Config, items: set<int>, exclude: int, disabled: set<int>, now: int) {
    && c.emergencyItem > 0 && c.emergencyItem != exclude && r.emergencyActive < EMERGENCY_MAX
    && c.emergencyItem in items && c.emergencyItem !in disabled
    && Get(r.halfOpens, c.emergencyItem) <= 0
    && !(c.emergencyItem in r.emergencyBlocks && r.emergencyBlocks[c.emergencyItem] > now)
  }

  ghost predicate EmergencyClaimed(before: Route, after: Route, item: int) {
    Recounted(before.(emergencyCounts := before.emergencyCounts[item := Get(before.emergencyCounts, item) + 1]), after)
  }

  ghost predicate CooldownsReset(before: Route, after: Route) {
    Recounted(before.(cooldowns := map[], levels := map[], strikes := map[], emergencyBlocks := map[]), after)
  }
}
