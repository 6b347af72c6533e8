/** Emergency accounting is kept by every critical section of a route. */
module EmergencySlots {
  import opened Backoff
  import opened Route
  import opened RouteSteps

  lemma NewRouteBalances()
    ensures EmergencyInv(NEW_ROUTE)
  {
    SumPositive(map[]);
  }

  lemma AccessKeepsSlots(before: Route, after: Route, items: set<int>)
    requires EmergencyInv(before) && Accessed(before, after, items)
    ensures EmergencyInv(after)
  {
    SumRestricted(before.emergencyCounts, items);
    SumPositive(Restrict(before.emergencyCounts, items));
    hide Sum;
  }

  lemma PickKeepsSlots(r: Route, order: seq<int>, exclude: int, disabled: set<int>, now: int)
    requires now > 0
    ensures SameSlots(r, PickCore(r, order, exclude, disabled, now).route)
  {
    var r0 := if r.affinityUntil <= now then r.(affinityUntil := 0) else r;
    ClaimAllEffect(r0, ScanMembers(r0, order, exclude, disabled, now).expired, now);
    hide ClaimedAll, ScanMembers, MayClaim;
  }

  lemma ReleaseKeepsSlots(before: Route, after: Route, item: int)
    requires EmergencyInv(before) && EmergencyReleased(before, after, item)
    ensures EmergencyInv(after)
    ensures Sum(after.emergencyCounts) == Sum(before.emergencyCounts) - if item in before.emergencyCounts then 1 else 0
  {
    ReleaseSum(before.emergencyCounts, item);
    SumPositive(before.emergencyCounts);
    SumPositive(after.emergencyCounts);
    hide Sum, ReleasedCounts;
  }

  lemma ClaimKeepsSlots(before: Route, after: Route, c: Config, items: set<int>, exclude: int, disabled: set<int>, now: int)
    requires EmergencyInv(before) && MayServeEmergency(before, c, items, exclude, disabled, now)
    requires EmergencyClaimed(before, after, c.emergencyItem)
    ensures EmergencyInv(after) && Sum(after.emergencyCounts) == Sum(before.emergencyCounts) + 1
  {
    var item := c.emergencyItem;
    var counts := before.emergencyCounts[item := Get(before.emergencyCounts, item) + 1];
    SumSet(before.emergencyCounts, item, Get(before.emergencyCounts, item) + 1);
    SumPositive(counts);
    assert after.emergencyCounts == counts;
    hide Sum, MayServeEmergency;
  }

  lemma ResetKeepsSlots(before: Route, after: Route)
    requires EmergencyInv(before) && CooldownsReset(before, after)
    ensures EmergencyInv(after) && after.emergencyCounts == before.emergencyCounts
  {
    SumPositive(before.emergencyCounts);
    hide Sum;
  }

  lemma VerdictKeepsSlots(before: Route, after: Route, c: Config, item: int, failures: int, limit: int, now: int)
    requires EmergencyInv(before)
    requires Succeeded(before, after, c, item, now) || Failed(before, after, c, item, failures, limit, now)
             || Released(before, after, item)
    ensures EmergencyInv(after)
  {
    SucceededFields(before, item, now);
    FailSlots(before, c, item, failures, limit, now);
    hide SucceededCore, FailedCore, EmergencyInv, EmergencyReleased;
    if Succeeded(before, after, c, item, now) {
      var r := SucceededCore(before, item, now);
      SlotsDecide(before, r);
      SlotsDecide(r, after);
      if Get(before.emergencyCounts, item) > 0 {
        ReleaseKeepsSlots(r, after, item);
      }
    } else if Failed(before, after, c, item, failures, limit, now) {
      var r := FailedCore(before, c, item, failures, limit, now);
      SlotsDecide(before, r);
      ReleaseKeepsSlots(r, after, item);
    } else if Holds(before, item) {
      SlotsDecide(before, after);
    } else {
      ReleaseKeepsSlots(before, after, item);
    }
  }

  lemma SlotsDecide(r: Route, s: Route)
    ensures SameSlots(r, s) && EmergencyInv(r) ==> EmergencyInv(s)
  {
    hide Sum;
  }

  lemma FailSlots(r: Route, c: Config, item: int, failures: int, limit: int, now: int)
    ensures SameSlots(r, FailedCore(r, c, item, failures, limit, now))
  {
    hide RejectedHeld, Opened;
    RejectedFields(r, c, item, failures, Max(limit, 1), now);
    OpenedFields(r, c, item, now);
  }

  lemma BreakerKeepsSlots(r: Route, c: Config, candidates: seq<int>, winner: int, item: int, failed: bool, now: int)
    ensures SameSlots(r, BatchFinished(r, c, candidates, winner, now))
    ensures SameSlots(r, ProbeFinished(r, c, item, failed, now))
    ensures SameSlots(r, PostCommit(r, c, item, now))
  {
    ReopenedAllOnlyDrops(r, c, candidates, now);
    hide ReopenedAll, DropAll, Drop, Get, CooldownMillis;
  }
}
