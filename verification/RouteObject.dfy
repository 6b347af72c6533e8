/** The object behind one group's route, updated in place under the route lock. Every method is one critical section
    (or a helper called inside one) and is proved against the value specification in `Route`. */
module RouteObject {
  import opened Backoff
  import opened Collections
  import opened Route
  import opened RouteSteps

  /** Deletes every entry whose member left the group. */
  method PruneTimes(m: Times, items: set<int>) returns (kept: Times)
    ensures kept == Restrict(m, items)
  {
    kept := m;
    var todo := m.Keys;
    while todo != {}
      invariant todo <= m.Keys
      invariant kept == map k | k in m && (k in todo || k in items) :: m[k]
      decreases |todo|
    {
      SomeId(todo);
      var k :| k in todo;
      if k !in items {
        kept := kept - {k};
      }
      todo := todo - {k};
    }
  }

  method SumCounts(m: Times) returns (total: int)
    ensures total == Sum(m)
  {
    total := 0;
    var todo := m;
    while todo.Keys != {}
      invariant total + Sum(todo) == Sum(m)
      decreases |todo.Keys|
    {
      SomeId(todo.Keys);
      var k :| k in todo.Keys;
      SumOf(todo, k);
      total := total + todo[k];
      todo := todo - {k};
    }
  }

  class RouteState {
    var current: int
    var probe: int
    var affinityUntil: int
    var armed: bool
    var cooldowns: Times
    var levels: Times
    var halfOpens: Times
    var strikes: Times
    var emergencyItem: int
    var emergencyActive: int
    var emergencyCounts: Times
    var emergencyBlocks: Times

    function View(): Route
      reads this
    {
      Route(current, probe, affinityUntil, armed, cooldowns, levels, halfOpens, strikes,
            emergencyItem, emergencyActive, emergencyCounts, emergencyBlocks)
    }

    constructor ()
      ensures View() == NEW_ROUTE
    {
      current, probe, affinityUntil, armed := 0, 0, 0, false;
      cooldowns, levels, halfOpens, strikes := map[], map[], map[], map[];
      emergencyItem, emergencyActive, emergencyCounts, emergencyBlocks := 0, 0, map[], map[];
    }

    method SyncEmergencySummary()
      modifies this
      ensures Recounted(old(View()), View())
    {
      var total := SumCounts(emergencyCounts);
      if total <= 0 {
        emergencyItem := 0;
        emergencyActive := 0;
        return;
      }
      if emergencyItem == 0 || Get(emergencyCounts, emergencyItem) <= 0 {
        if emergencyCounts.Keys != {} {
          SomeId(emergencyCounts.Keys);
          var holder :| holder in emergencyCounts.Keys;
          emergencyItem := holder;
        }
      }
      emergencyActive := total;
    }

    method ReleaseEmergency(item: int) returns (changed: bool)
      modifies this
      ensures EmergencyReleased(old(View()), View(), item)
      ensures changed == (Get(old(emergencyCounts), item) > 0)
    {
      if Get(emergencyCounts, item) <= 0 {
        return false;
      }
      emergencyCounts := emergencyCounts[item := emergencyCounts[item] - 1];
      if emergencyCounts[item] <= 0 {
        emergencyCounts := emergencyCounts - {item};
        assert emergencyCounts == old(emergencyCounts) - {item};
      }
      SyncEmergencySummary();
      changed := true;
    }

    method PruneMaps(items: set<int>)
      modifies this
      ensures View() == MapsPruned(old(View()), items)
    {
      hide Restrict;
      var c := PruneTimes(cooldowns, items);
      var l := PruneTimes(levels, items);
      var h := PruneTimes(halfOpens, items);
      var s := PruneTimes(strikes, items);
      var e := PruneTimes(emergencyCounts, items);
      var b := PruneTimes(emergencyBlocks, items);
      cooldowns, levels, halfOpens, strikes, emergencyCounts, emergencyBlocks := c, l, h, s, e, b;
    }

    /** The state as a request finds it: leftovers of members that are no longer in the group are deleted first. */
    method Access(items: set<int>)
      modifies this
      ensures Accessed(old(View()), View(), items)
    {
      hide Restrict, Sum;
      PruneMaps(items);
      SyncEmergencySummary();
      if probe != 0 && probe !in items {
        probe := 0;
      }
      if current != 0 && current !in items {
        current := 0;
        affinityUntil := 0;
        armed := false;
      }
    }

    method ClaimHalfOpen(item: int, now: int) returns (claimed: bool)
      modifies this
      ensures View() == Claimed(old(View()), item, now)
      ensures claimed == MayClaim(old(View()), item, now)
    {
      if probe != 0 {
        return false;
      }
      if item !in cooldowns || cooldowns[item] > now || Get(halfOpens, item) > 0 {
        return false;
      }
      halfOpens := halfOpens[item := now];
      claimed := true;
    }

    /** Claims every member of the batch in turn and reports the ones that were free. */
    method ClaimBatch(items: seq<int>, now: int) returns (won: seq<int>)
      modifies this
      ensures View() == ClaimedAll(old(View()), items, now)
      ensures won == ClaimsWon(old(View()), items, now)
    {
      won := [];
      var i := 0;
      while i < |items|
        invariant 0 <= i <= |items|
        invariant ClaimedAll(View(), items[i..], now) == ClaimedAll(old(View()), items, now)
        invariant won + ClaimsWon(View(), items[i..], now) == ClaimsWon(old(View()), items, now)
      {
        assert items[i..][1..] == items[i + 1..];
        ghost var rest := ClaimsWon(Claimed(View(), items[i], now), items[i + 1..], now);
        assert (won + [items[i]]) + rest == won + ([items[i]] + rest);
        var claimed := ClaimHalfOpen(items[i], now);
        if claimed {
          won := won + [items[i]];
        }
        i := i + 1;
      }
      assert items[i..] == [];
    }

    /** The scan for a closed member; expired members met on the way are collected. */
    method ScanOrder(order: seq<int>, exclude: int, disabled: set<int>, now: int) returns (scan: Scan)
      ensures scan == ScanMembers(View(), order, exclude, disabled, now)
    {
      var expired: seq<int> := [];
      var i := 0;
      while i < |order|
        invariant 0 <= i <= |order|
        invariant var rest := ScanMembers(View(), order[i..], exclude, disabled, now);
                  ScanMembers(View(), order, exclude, disabled, now) == rest.(expired := expired + rest.expired)
      {
        var item := order[i];
        assert order[i..][1..] == order[i + 1..];
        ghost var rest := ScanMembers(View(), order[i + 1..], exclude, disabled, now);
        assert (expired + [item]) + rest.expired == expired + ([item] + rest.expired);
        i := i + 1;
        if item == exclude || item in disabled {
          continue;
        }
        if item in cooldowns {
          if cooldowns[item] > now || Get(halfOpens, item) > 0 {
            continue;
          }
          expired := expired + [item];
          continue;
        }
        return Scan(expired, item);
      }
      assert order[i..] == [];
      scan := Scan(expired, 0);
    }

    /** The critical section of a pick. `order` is the scan order of the group's members. */
    method Pick(order: seq<int>, exclude: int, disabled: set<int>, now: int) returns (pick: Pick, ghost found: Route)
      modifies this
      ensures Accessed(old(View()), found, set i | i in order)
      ensures Picked(View(), pick) == PickCore(found, order, exclude, disabled, now)
    {
      Access(set i | i in order);
      found := View();
      if affinityUntil <= now {
        affinityUntil := 0;
      }
      if probe != 0 {
        return Wait, found;
      }
      if current != 0 && current != exclude && affinityUntil > now {
        if current in order && current !in disabled {
          return Affine(current), found;
        }
      }
      var scan := ScanOrder(order, exclude, disabled, now);
      if scan.selected != 0 {
        var probes := ClaimBatch(scan.expired, now);
        current := scan.selected;
        return Closed(scan.selected, probes), found;
      }
      if |scan.expired| > 0 {
        var won := ClaimBatch(scan.expired, now);
        return Recover(scan.expired), found;
      }
      pick := Exhausted;
    }

    method Restore(item: int)
      modifies this
      ensures View() == Restored(old(View()), item)
    {
      cooldowns := cooldowns - {item};
      levels := levels - {item};
      halfOpens := halfOpens - {item};
    }

    method Reopen(c: Config, item: int, now: int)
      modifies this
      ensures View() == Reopened(old(View()), c, item, now)
    {
      var level := Get(levels, item) + 1;
      levels := levels[item := level];
      cooldowns := cooldowns[item := now + CooldownMillis(c, level)];
      halfOpens := halfOpens - {item};
    }

    /** The end of a recovery batch; `winner` is the first member whose probe succeeded, 0 when none did. */
    method FinishBatch(c: Config, candidates: seq<int>, winner: int, now: int)
      modifies this
      ensures View() == BatchFinished(old(View()), c, candidates, winner, now)
    {
      var i := 0;
      if winner != 0 {
        while i < |candidates|
          invariant 0 <= i <= |candidates|
          invariant View() == old(View()).(halfOpens := halfOpens)
          invariant DropAll(halfOpens, candidates[i..], winner) == DropAll(old(halfOpens), candidates, winner)
        {
          assert candidates[i..][1..] == candidates[i + 1..];
          if candidates[i] != winner {
            halfOpens := halfOpens - {candidates[i]};
          }
          i := i + 1;
        }
        assert candidates[i..] == [];
        probe := winner;
        return;
      }
      while i < |candidates|
        invariant 0 <= i <= |candidates|
        invariant ReopenedAll(View(), c, candidates[i..], now) == ReopenedAll(old(View()), c, candidates, now)
      {
        assert candidates[i..][1..] == candidates[i + 1..];
        Reopen(c, candidates[i], now);
        i := i + 1;
      }
      assert candidates[i..] == [];
    }

    method FinishProbe(c: Config, item: int, failed: bool, now: int)
      modifies this
      ensures View() == ProbeFinished(old(View()), c, item, failed, now)
    {
      if Get(halfOpens, item) == 0 {
        return;
      }
      if failed {
        Reopen(c, item, now);
      } else {
        Restore(item);
      }
    }

    /** The confirmed member leaves the circuit breaker and may become the current one. */
    method Confirm(item: int, now: int)
      modifies this
      ensures View() == SucceededCore(old(View()), item, now)
    {
      if Get(strikes, item) > 0 {
        strikes := strikes - {item};
      }
      if probe == item || Get(halfOpens, item) > 0 {
        Restore(item);
        probe := 0;
        emergencyBlocks := emergencyBlocks - {item};
        if current == 0 || affinityUntil <= now {
          current := item;
          affinityUntil := 0;
        }
      }
    }

    method RecordSuccess(c: Config, item: int, now: int)
      modifies this
      ensures Succeeded(old(View()), View(), c, item, now)
    {
      hide SucceededCore, Recounted, ReleasedCounts;
      var emergencyHeld := Get(emergencyCounts, item) > 0;
      Confirm(item, now);
      SucceededFields(old(View()), item, now);
      if emergencyHeld {
        var changed := ReleaseEmergency(item);
      } else if current == item && armed {
        armed := false;
        if c.affinitySeconds > 0 {
          affinityUntil := now + c.affinitySeconds * 1000;
        }
      }
    }

    method LeaveIfCurrent(item: int)
      modifies this
      ensures View() == LeaveCurrent(old(View()), item)
    {
      if current == item {
        current := 0;
        affinityUntil := 0;
        armed := true;
      }
    }

    /** A failure of the candidate or of a half-open member: reopened with backoff, or closed below the limit. */
    method RejectHeld(c: Config, item: int, failures: int, threshold: int, now: int)
      requires Holds(View(), item)
      modifies this
      ensures View() == RejectedHeld(old(View()), c, item, failures, threshold, now)
    {
      hide CooldownMillis;
      halfOpens := halfOpens - {item};
      probe := 0;
      if threshold <= failures {
        var level := Get(levels, item) + 1;
        levels := levels[item := level];
        cooldowns := cooldowns[item := now + CooldownMillis(c, level)];
      } else {
        cooldowns := cooldowns - {item};
      }
      LeaveIfCurrent(item);
    }

    /** A closed member reached the limit. */
    method Open(c: Config, item: int, now: int)
      modifies this
      ensures View() == Opened(old(View()), c, item, now)
    {
      hide CooldownMillis;
      cooldowns := cooldowns[item := now + CooldownMillis(c, Get(levels, item))];
      if Get(emergencyCounts, item) > 0 {
        emergencyBlocks := emergencyBlocks[item := now + CooldownMillis(c, Get(levels, item))];
      }
      LeaveIfCurrent(item);
    }

    /** Reports whether the caller should pick again at once. */
    method RecordFailure(c: Config, item: int, failures: int, limit: int, now: int) returns (again: bool)
      modifies this
      ensures Failed(old(View()), View(), c, item, failures, limit, now)
      ensures again == Repicks(old(View()), item, failures, limit)
    {
      hide CooldownMillis, Recounted, ReleasedCounts, RejectedHeld, Opened;
      var threshold := Max(limit, 1);
      if probe == item || Get(halfOpens, item) > 0 {
        RejectHeld(c, item, failures, threshold, now);
        var changed := ReleaseEmergency(item);
        return true;
      }
      if failures < threshold {
        var changed := ReleaseEmergency(item);
        return false;
      }
      Open(c, item, now);
      var changed := ReleaseEmergency(item);
      again := true;
    }

    method Release(item: int)
      modifies this
      ensures Released(old(View()), View(), item)
    {
      if probe == item || Get(halfOpens, item) > 0 {
        halfOpens := halfOpens - {item};
        if probe == item {
          probe := 0;
        }
        return;
      }
      var changed := ReleaseEmergency(item);
    }

    /** Reports whether the member is cooling afterwards. */
    method RecordPostCommitFailure(c: Config, items: set<int>, item: int, now: int)
      returns (cooling: bool, ghost found: Route)
      modifies this
      ensures Accessed(old(View()), found, items)
      ensures View() == PostCommit(found, c, item, now)
      ensures cooling == (item in cooldowns)
    {
      Access(items);
      found := View();
      if item in cooldowns {
        return true, found;
      }
      strikes := strikes[item := Get(strikes, item) + 1];
      if strikes[item] < Max(c.maxAttempts, 1) {
        return false, found;
      }
      strikes := strikes - {item};
      assert strikes == Drop(found.strikes, item);
      cooldowns := cooldowns[item := now + CooldownMillis(c, 1)];
      cooling := true;
    }

    /** The last resort of a pick that found nothing; 0 when the emergency member may not serve. */
    method ClaimEmergency(c: Config, items: set<int>, exclude: int, disabled: set<int>, now: int)
      returns (item: int, ghost found: Route)
      modifies this
      ensures Accessed(old(View()), found, items)
      ensures var may := MayServeEmergency(found, c, items, exclude, disabled, now);
              if may then item == c.emergencyItem && EmergencyClaimed(found, View(), item) else item == 0 && View() == found
    {
      Access(items);
      found := View();
      item := c.emergencyItem;
      if item <= 0 || item == exclude || emergencyActive >= EMERGENCY_MAX {
        return 0, found;
      }
      if item !in items || item in disabled {
        return 0, found;
      }
      if Get(halfOpens, item) > 0 {
        return 0, found;
      }
      if item in emergencyBlocks && emergencyBlocks[item] > now {
        return 0, found;
      }
      emergencyCounts := emergencyCounts[item := Get(emergencyCounts, item) + 1];
      SyncEmergencySummary();
    }

    method ResetCooldowns() returns (cleared: int)
      modifies this
      ensures CooldownsReset(old(View()), View())
      ensures cleared == |Dirty(old(View()))|
    {
      DirtyIs(View());
      cleared := |PositiveKeys(cooldowns) + PositiveKeys(levels) + PositiveKeys(strikes) + PositiveKeys(emergencyBlocks)|;
      hide PositiveKeys, Dirty, Sum;
      cooldowns, levels, strikes, emergencyBlocks := map[], map[], map[], map[];
      SyncEmergencySummary();
    }
  }

  function PositiveKeys(m: Times): set<int> {
    set k | k in m && m[k] > 0
  }

  lemma DirtyIs(r: Route)
    ensures PositiveKeys(r.cooldowns) + PositiveKeys(r.levels) + PositiveKeys(r.strikes) + PositiveKeys(r.emergencyBlocks)
         == Dirty(r)
  {
  }

  /** The members a reset reports as cleared. */
  function Dirty(r: Route): set<int> {
    set k | k in r.cooldowns.Keys + r.levels.Keys + r.strikes.Keys + r.emergencyBlocks.Keys
            && (Get(r.cooldowns, k) > 0 || Get(r.levels, k) > 0 || Get(r.strikes, k) > 0 || Get(r.emergencyBlocks, k) > 0)
  }
}
