/** What every critical section leaves in the route, field by field and member by member. */
module RouteFacts {
  import opened Backoff
  import opened Route
  import opened RouteSteps

  /** Two tables agree on every member but one. */
  ghost predicate SameBut(a: Times, b: Times, item: int) {
    forall k | k != item :: (k in a <==> k in b) && Get(a, k) == Get(b, k)
  }

  // ---- access ----

  /** What an access keeps of a table: the entries of the members still present, and nothing else. */
  ghost predicate Kept(before: Times, after: Times, items: set<int>) {
    forall k :: (k in after <==> k in before && k in items) && (k in items ==> Get(after, k) == Get(before, k))
  }

  /** Present members keep everything, removed ones leave nothing behind. */
  lemma AccessMeans(before: Route, after: Route, items: set<int>)
    requires Accessed(before, after, items)
    ensures Kept(before.cooldowns, after.cooldowns, items) && Kept(before.levels, after.levels, items)
    ensures Kept(before.halfOpens, after.halfOpens, items) && Kept(before.strikes, after.strikes, items)
    ensures Kept(before.emergencyCounts, after.emergencyCounts, items)
    ensures Kept(before.emergencyBlocks, after.emergencyBlocks, items)
    ensures after.probe == if before.probe in items then before.probe else 0
    ensures after.current == if before.current in items then before.current else 0
    ensures before.current == 0 || before.current in items ==>
              after.affinityUntil == before.affinityUntil && after.armed == before.armed
    ensures before.current != 0 && before.current !in items ==> after.affinityUntil == 0 && !after.armed
  {
    RestrictKeeps(before.cooldowns, items);
    RestrictKeeps(before.levels, items);
    RestrictKeeps(before.halfOpens, items);
    RestrictKeeps(before.strikes, items);
    RestrictKeeps(before.emergencyCounts, items);
    RestrictKeeps(before.emergencyBlocks, items);
    hide Restrict, Kept, Sum;
  }

  lemma RestrictKeeps(m: Times, items: set<int>)
    ensures Kept(m, Restrict(m, items), items)
  {
  }

  /** A member keeps being named as the emergency holder as long as it holds a slot. */
  lemma HolderStays(before: Route, after: Route)
    requires Recounted(before, after) && Sum(before.emergencyCounts) > 0
    requires before.emergencyItem != 0 && Get(before.emergencyCounts, before.emergencyItem) > 0
    ensures after.emergencyItem == before.emergencyItem
  {
  }

  // ---- a pick ----

  /** The marks after some members were claimed. */
  ghost predicate Marked(before: Times, after: Times, claimed: seq<int>, now: int) {
    && (forall k | k in claimed :: Get(after, k) == now)
    && forall k | k !in claimed :: (k in before <==> k in after) && Get(after, k) == Get(before, k)
  }

  /** What every pick keeps: only the current member, an expired affinity and the marks may change. */
  lemma PickFrame(r: Route, order: seq<int>, exclude: int, disabled: set<int>, now: int)
    requires now > 0
    ensures var p := PickCore(r, order, exclude, disabled, now);
            && p.route == r.(current := p.route.current, affinityUntil := p.route.affinityUntil, halfOpens := p.route.halfOpens)
            && p.route.affinityUntil == (if r.affinityUntil <= now then 0 else r.affinityUntil)
            && p.route.current == (if p.pick.Closed? then p.pick.item else r.current)
            && (!p.pick.Closed? && !p.pick.Recover? ==> p.route.halfOpens == r.halfOpens)
  {
    var r0 := if r.affinityUntil <= now then r.(affinityUntil := 0) else r;
    var scan := ScanMembers(r0, order, exclude, disabled, now);
    ClaimFrame(r0, scan.expired, now);
    hide ScanMembers, ClaimedAll, ClaimsWon, Get;
  }

  lemma ClaimFrame(r: Route, items: seq<int>, now: int)
    requires now > 0
    ensures ClaimedAll(r, items, now) == r.(halfOpens := ClaimedAll(r, items, now).halfOpens)
  {
    ClaimAllEffect(r, items, now);
  }

  /** With a closed member a pick probes exactly the expired ones before it; without, it claims all expired ones. */
  lemma PickProbes(r: Route, order: seq<int>, exclude: int, disabled: set<int>, now: int)
    requires 0 !in order && now > 0
    ensures var p := PickCore(r, order, exclude, disabled, now);
            var i := FirstClosed(r, order, exclude, disabled);
            match p.pick
            case Closed(item, probes) =>
              && i < |order| && item == order[i]
              && (forall k :: k in probes <==> k in order[..i] && IsExpired(r, k, exclude, disabled, now))
              && NoDup(probes) && Marked(r.halfOpens, p.route.halfOpens, probes, now)
            case Recover(candidates) =>
              && (forall k :: k in candidates <==> k in order && IsExpired(r, k, exclude, disabled, now))
              && Marked(r.halfOpens, p.route.halfOpens, candidates, now)
            case _ => true
  {
    var r0 := if r.affinityUntil <= now then r.(affinityUntil := 0) else r;
    SameScan(r, r0, order, exclude, disabled, now);
    ScanFinds(r, order, exclude, disabled, now);
    var i := FirstClosed(r, order, exclude, disabled);
    var scan := ScanMembers(r, order, exclude, disabled, now);
    var p := PickCore(r, order, exclude, disabled, now);
    hide ScanMembers, FirstClosed, ExpiredOf, ClaimedAll, ClaimsWon, IsExpired, Marked, NoDup;
    if p.pick.Closed? {
      ClaimsMark(r0, r, order[..i], scan.expired, exclude, disabled, now);
    } else if p.pick.Recover? {
      assert order[..|order|] == order;
      ClaimsMark(r0, r, order, scan.expired, exclude, disabled, now);
    }
  }

  /** Without a candidate all expired members of the batch are claimed. */
  lemma ClaimsMark(r0: Route, r: Route, order: seq<int>, expired: seq<int>, exclude: int, disabled: set<int>, now: int)
    requires now > 0 && r0.probe == 0 && r0.cooldowns == r.cooldowns && r0.halfOpens == r.halfOpens
    requires expired == ExpiredOf(r, order, exclude, disabled, now)
    ensures var t := ClaimedAll(r0, expired, now);
            t == r0.(halfOpens := t.halfOpens) && Marked(r.halfOpens, t.halfOpens, expired, now)
            && Marked(r.halfOpens, t.halfOpens, ClaimsWon(r0, expired, now), now)
    ensures forall k :: k in expired <==> k in order && IsExpired(r, k, exclude, disabled, now)
    ensures forall k :: k in ClaimsWon(r0, expired, now) <==> k in expired
    ensures NoDup(ClaimsWon(r0, expired, now))
  {
    ExpiredAre(r, order, exclude, disabled, now);
    ClaimAllEffect(r0, expired, now);
    ClaimsWonAre(r0, expired, now);
    hide ClaimedAll, ClaimsWon, ExpiredOf;
    assert forall k | k in expired :: MayClaim(r0, k, now);
  }

  /** A member is claimed exactly when there is no candidate, its cooldown ran out and it is not marked. */
  lemma ClaimMeans(r: Route, item: int, now: int)
    requires now > 0
    ensures var t := Claimed(r, item, now);
            var free := r.probe == 0 && item in r.cooldowns && r.cooldowns[item] <= now && Get(r.halfOpens, item) <= 0;
            && t == r.(halfOpens := t.halfOpens) && SameBut(r.halfOpens, t.halfOpens, item)
            && Get(t.halfOpens, item) == (if free then now else Get(r.halfOpens, item))
  {
  }

  // ---- probes and batches ----

  /** The end of a probe of a marked member: a success closes it, a failure reopens it one level up; an unmarked member is
      left alone. */
  lemma ProbeMeans(r: Route, c: Config, item: int, failed: bool, now: int)
    ensures var t := ProbeFinished(r, c, item, failed, now);
            if Get(r.halfOpens, item) == 0 then t == r
            else
              && t == r.(cooldowns := t.cooldowns, levels := t.levels, halfOpens := t.halfOpens)
              && SameBut(r.cooldowns, t.cooldowns, item) && SameBut(r.levels, t.levels, item)
              && SameBut(r.halfOpens, t.halfOpens, item) && item !in t.halfOpens
              && (item in t.cooldowns <==> failed) && (item in t.levels <==> failed)
              && (failed ==> t.levels[item] == Get(r.levels, item) + 1
                             && t.cooldowns[item] == now + CooldownMillis(c, t.levels[item]))
  {
    hide CooldownMillis;
  }

  /** A batch that found a winner only moves marks: the winner keeps its own and becomes the candidate. */
  lemma WinnerMeans(r: Route, c: Config, candidates: seq<int>, winner: int, now: int)
    requires winner != 0
    ensures var t := BatchFinished(r, c, candidates, winner, now);
            && t == r.(probe := winner, halfOpens := t.halfOpens)
            && forall k :: (k in t.halfOpens <==> k in r.halfOpens && (k == winner || k !in candidates))
                           && (k in t.halfOpens ==> t.halfOpens[k] == r.halfOpens[k])
  {
    DropAllMeans(r.halfOpens, candidates, winner);
    hide DropAll;
  }

  lemma {:induction false} DropAllMeans(m: Times, items: seq<int>, keep: int)
    ensures var n := DropAll(m, items, keep);
            forall k :: (k in n <==> k in m && (k == keep || k !in items)) && (k in n ==> n[k] == m[k])
    decreases |items|
  {
    if items != [] {
      DropAllMeans(if items[0] != keep then Drop(m, items[0]) else m, items[1..], keep);
      assert items == [items[0]] + items[1..];
    }
  }

  // ---- verdicts ----

  /** The member takes over the group's traffic: it held a probe, and nobody else has affinity. */
  predicate TakesOver(r: Route, item: int, now: int) {
    (r.probe == item || Get(r.halfOpens, item) > 0) && (r.current == 0 || r.affinityUntil <= now)
  }

  /** A confirmation, up to the emergency slot. */
  lemma ConfirmedMeans(r: Route, item: int, now: int)
    ensures var t := SucceededCore(r, item, now);
            var held := r.probe == item || Get(r.halfOpens, item) > 0;
            && t.armed == r.armed && SameSlots(r, t) && t.probe == (if held then 0 else r.probe)
            && t.current == (if TakesOver(r, item, now) then item else r.current)
            && t.affinityUntil == (if TakesOver(r, item, now) then 0 else r.affinityUntil)
            && SameBut(r.strikes, t.strikes, item) && Get(t.strikes, item) <= 0
            && Cleared(r.cooldowns, t.cooldowns, item, held) && Cleared(r.levels, t.levels, item, held)
            && Cleared(r.halfOpens, t.halfOpens, item, held) && Cleared(r.emergencyBlocks, t.emergencyBlocks, item, held)
  {
    var r1 := StrikesCleared(r, item);
    assert r1 == r.(strikes := r1.strikes) && SameBut(r.strikes, r1.strikes, item) && Get(r1.strikes, item) <= 0;
    hide StrikesCleared, SameBut;
    assert Holds(r1, item) == Holds(r, item);
    var r2 := Confirmed(r1, item);
    assert r2 == r1.(cooldowns := r2.cooldowns, levels := r2.levels, halfOpens := r2.halfOpens, probe := 0,
                     emergencyBlocks := r2.emergencyBlocks);
    DropClears(r.cooldowns, item);
    DropClears(r.levels, item);
    DropClears(r.halfOpens, item);
    DropClears(r.emergencyBlocks, item);
    hide Cleared, Drop;
    var r3 := Promoted(r2, item, now);
    assert r3 == r2.(current := r3.current, affinityUntil := r3.affinityUntil);
  }

  /** The entry of one member is gone, or all is as before. */
  ghost predicate Cleared(before: Times, after: Times, item: int, gone: bool) {
    if gone then item !in after && SameBut(before, after, item) else after == before
  }

  lemma DropClears(m: Times, item: int)
    ensures Cleared(m, Drop(m, item), item, true) && Cleared(m, m, item, false)
  {
  }

  /** Affinity starts exactly when the confirmed member is the current one, is not served as the emergency member, and the
      group left its former member since affinity last started; it lasts the configured seconds. */
  lemma AffinityMeans(before: Route, after: Route, c: Config, item: int, now: int)
    requires Succeeded(before, after, c, item, now)
    ensures var starts := after.current == item && before.armed && Get(before.emergencyCounts, item) <= 0;
            && after.current == (if TakesOver(before, item, now) then item else before.current)
            && after.armed == (before.armed && !starts)
            && after.affinityUntil == (if starts && c.affinitySeconds > 0 then now + c.affinitySeconds * 1000
                                       else if TakesOver(before, item, now) then 0 else before.affinityUntil)
  {
    ConfirmedMeans(before, item, now);
    hide SucceededCore, TakesOver, Sum, SameBut, Cleared;
  }

  /** The whole of a failed round, up to the emergency slot: what happens to the member, its block, and the current one. */
  lemma FailedMeans(r: Route, c: Config, item: int, failures: int, limit: int, now: int)
    ensures var t := FailedCore(r, c, item, failures, limit, now);
            var held := r.probe == item || Get(r.halfOpens, item) > 0;
            var reached := failures >= limit && failures >= 1;
            && SameSlots(r, t) && t.strikes == r.strikes && (Repicks(r, item, failures, limit) <==> held || reached)
            && t.probe == (if held then 0 else r.probe) && Cleared(r.halfOpens, t.halfOpens, item, held)
            && SameBut(r.cooldowns, t.cooldowns, item) && SameBut(r.levels, t.levels, item)
            && SameBut(r.emergencyBlocks, t.emergencyBlocks, item)
            && Get(t.levels, item) == Get(r.levels, item) + (if held && reached then 1 else 0)
            && (reached ==> item in t.cooldowns && t.cooldowns[item] == now + CooldownMillis(c, Get(t.levels, item)))
            && (!reached ==> Cleared(r.cooldowns, t.cooldowns, item, held))
            && Get(t.emergencyBlocks, item) == (if !held && reached && Get(r.emergencyCounts, item) > 0 then t.cooldowns[item]
                                                else Get(r.emergencyBlocks, item))
            && var leaves := (held || reached) && r.current == item;
               t.current == (if leaves then 0 else r.current) && t.affinityUntil == (if leaves then 0 else r.affinityUntil)
               && t.armed == (leaves || r.armed)
  {
    hide CooldownMillis;
    if Holds(r, item) {
      HeldMeans(r, c, item, failures, Max(limit, 1), now);
      hide RejectedHeld;
    } else if failures >= Max(limit, 1) {
      OpenMeans(r, c, item, now);
      hide Opened;
    }
  }

  lemma LeaveWhole(r: Route, item: int)
    ensures var t := LeaveCurrent(r, item);
            && t == r.(current := t.current, affinityUntil := t.affinityUntil, armed := t.armed)
            && t.current == (if r.current == item then 0 else r.current)
            && t.affinityUntil == (if r.current == item then 0 else r.affinityUntil)
            && t.armed == (r.current == item || r.armed)
  {
  }

  lemma HeldMeans(r: Route, c: Config, item: int, failures: int, threshold: int, now: int)
    ensures var t := RejectedHeld(r, c, item, failures, threshold, now);
            && SameSlots(r, t) && t.strikes == r.strikes && t.emergencyBlocks == r.emergencyBlocks && t.probe == 0
            && Cleared(r.halfOpens, t.halfOpens, item, true)
            && SameBut(r.cooldowns, t.cooldowns, item) && SameBut(r.levels, t.levels, item)
            && Get(t.levels, item) == Get(r.levels, item) + (if threshold <= failures then 1 else 0)
            && (if threshold <= failures then item in t.cooldowns && t.cooldowns[item] == now + CooldownMillis(c, Get(t.levels, item))
                else item !in t.cooldowns)
            && t.current == (if r.current == item then 0 else r.current)
            && t.affinityUntil == (if r.current == item then 0 else r.affinityUntil)
            && t.armed == (r.current == item || r.armed)
  {
    hide CooldownMillis;
    var r1 := r.(halfOpens := Drop(r.halfOpens, item), probe := 0);
    var level := Get(r1.levels, item) + 1;
    if threshold <= failures {
      LeaveWhole(r1.(levels := r1.levels[item := level], cooldowns := r1.cooldowns[item := now + CooldownMillis(c, level)]), item);
    } else {
      LeaveWhole(r1.(cooldowns := Drop(r1.cooldowns, item)), item);
    }
    hide LeaveCurrent;
  }

  lemma OpenMeans(r: Route, c: Config, item: int, now: int)
    ensures var t := Opened(r, c, item, now);
            var until := now + CooldownMillis(c, Get(r.levels, item));
            && t == r.(cooldowns := r.cooldowns[item := until], emergencyBlocks := t.emergencyBlocks, current := t.current,
                       affinityUntil := t.affinityUntil, armed := t.armed)
            && t.emergencyBlocks == (if Get(r.emergencyCounts, item) > 0 then r.emergencyBlocks[item := until]
                                     else r.emergencyBlocks)
            && t.current == (if r.current == item then 0 else r.current)
            && t.affinityUntil == (if r.current == item then 0 else r.affinityUntil)
            && t.armed == (r.current == item || r.armed)
  {
    hide CooldownMillis, Get;
    var until := now + CooldownMillis(c, Get(r.levels, item));
    var r1 := r.(cooldowns := r.cooldowns[item := until]);
    LeaveWhole(r1, item);
    LeaveWhole(r1.(emergencyBlocks := r1.emergencyBlocks[item := until]), item);
    hide LeaveCurrent;
  }

  /** A round without verdict frees the probe mark of its member, and takes nothing else from anybody. */
  lemma ReleasedMeans(before: Route, after: Route, item: int)
    requires Released(before, after, item)
    ensures var held := before.probe == item || Get(before.halfOpens, item) > 0;
            && after == before.(probe := after.probe, halfOpens := after.halfOpens, emergencyItem := after.emergencyItem,
                                emergencyActive := after.emergencyActive, emergencyCounts := after.emergencyCounts)
            && after.probe == (if before.probe == item then 0 else before.probe)
            && Cleared(before.halfOpens, after.halfOpens, item, held)
            && (held ==> SameSlots(before, after))
            && SameBut(before.emergencyCounts, after.emergencyCounts, item)
            && (!held ==> Get(after.emergencyCounts, item) == if Get(before.emergencyCounts, item) > 0
                                                             then Get(before.emergencyCounts, item) - 1
                                                             else Get(before.emergencyCounts, item))
  {
    hide Sum;
    DropClears(before.halfOpens, item);
  }

  /** A failure after the commit of a cooling member changes nothing; otherwise it counts one strike, and the last allowed
      one opens the member at level one. */
  lemma PostCommitMeans(r: Route, c: Config, item: int, now: int)
    ensures var t := PostCommit(r, c, item, now);
            var last := Get(r.strikes, item) + 1 >= c.maxAttempts && Get(r.strikes, item) + 1 >= 1;
            && t == r.(strikes := t.strikes, cooldowns := t.cooldowns)
            && SameBut(r.strikes, t.strikes, item) && SameBut(r.cooldowns, t.cooldowns, item)
            && (item in r.cooldowns ==> t == r)
            && (item !in r.cooldowns ==>
                  if last then item !in t.strikes && item in t.cooldowns && t.cooldowns[item] == now + CooldownMillis(c, 1)
                  else Get(t.strikes, item) == Get(r.strikes, item) + 1 && item !in t.cooldowns)
  {
    hide CooldownMillis;
    OneEntry(r.strikes, item, Get(r.strikes, item) + 1);
    OneEntry(r.cooldowns, item, now + CooldownMillis(c, 1));
    hide SameBut;
  }

  lemma OneEntry(m: Times, item: int, v: int)
    ensures SameBut(m, m, item) && SameBut(m, m[item := v], item) && SameBut(m, Drop(m, item), item)
  {
  }

  // ---- the emergency member ----

  /** Why the emergency member is refused: exactly one of these holds of the group, the request or the member. */
  lemma EmergencyMeans(r: Route, c: Config, items: set<int>, exclude: int, disabled: set<int>, now: int)
    ensures var e := c.emergencyItem;
            !MayServeEmergency(r, c, items, exclude, disabled, now) <==>
              || e <= 0 || e !in items || r.emergencyActive >= 3 || e == exclude || e in disabled
              || Get(r.halfOpens, e) > 0 || (e in r.emergencyBlocks && now < r.emergencyBlocks[e])
  {
  }

  /** A claim adds one slot to the member and changes no breaker. */
  lemma EmergencyClaimMeans(before: Route, after: Route, item: int)
    requires EmergencyClaimed(before, after, item)
    ensures after == before.(emergencyItem := after.emergencyItem, emergencyActive := after.emergencyActive,
                             emergencyCounts := after.emergencyCounts)
    ensures SameBut(before.emergencyCounts, after.emergencyCounts, item)
    ensures Get(after.emergencyCounts, item) == Get(before.emergencyCounts, item) + 1
  {
    hide Sum;
  }

  /** A reset closes every member and lifts every block, but leaves probes, affinity and slots alone. */
  lemma ResetMeans(before: Route, after: Route)
    requires CooldownsReset(before, after)
    ensures after.cooldowns == map[] && after.levels == map[] && after.strikes == map[] && after.emergencyBlocks == map[]
    ensures after.probe == before.probe && after.halfOpens == before.halfOpens && after.emergencyCounts == before.emergencyCounts
    ensures after.current == before.current && after.affinityUntil == before.affinityUntil && after.armed == before.armed
  {
    hide Sum;
  }
}
