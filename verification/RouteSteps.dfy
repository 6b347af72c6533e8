/** What the critical sections of one route do to its members. */
module RouteSteps {
  import opened Backoff
  import opened Route

  // ---- what a pick finds ----

  /** A member the scan may return: not given up by this request and not on a disabled channel. */
  predicate Eligible(item: int, exclude: int, disabled: set<int>) {
    item != exclude && item !in disabled
  }

  predicate IsClosed(r: Route, item: int, exclude: int, disabled: set<int>) {
    Eligible(item, exclude, disabled) && item !in r.cooldowns
  }

  /** Its cooldown ran out and nobody is probing it. */
  predicate IsExpired(r: Route, item: int, exclude: int, disabled: set<int>, now: int) {
    Eligible(item, exclude, disabled) && item in r.cooldowns && r.cooldowns[item] <= now && Get(r.halfOpens, item) <= 0
  }

  function ExpiredOf(r: Route, order: seq<int>, exclude: int, disabled: set<int>, now: int): seq<int> {
    if order == [] then []
    else if IsExpired(r, order[0], exclude, disabled, now) then
      [order[0]] + ExpiredOf(r, order[1..], exclude, disabled, now)
    else ExpiredOf(r, order[1..], exclude, disabled, now)
  }

  /** Position of the first closed member in scan order, the length of the order when there is none. */
  function FirstClosed(r: Route, order: seq<int>, exclude: int, disabled: set<int>): (i: nat)
    ensures i <= |order|
    ensures i < |order| ==> IsClosed(r, order[i], exclude, disabled)
    ensures forall j | 0 <= j < i :: !IsClosed(r, order[j], exclude, disabled)
  {
    if order == [] || IsClosed(r, order[0], exclude, disabled) then 0
    else
      var i := FirstClosed(r, order[1..], exclude, disabled);
      assert forall j | 0 < j < 1 + i :: order[j] == order[1..][j - 1];
      1 + i
  }

  lemma {:induction false} ScanFinds(r: Route, order: seq<int>, exclude: int, disabled: set<int>, now: int)
    ensures var i := FirstClosed(r, order, exclude, disabled);
            var scan := ScanMembers(r, order, exclude, disabled, now);
            && scan.expired == ExpiredOf(r, order[..i], exclude, disabled, now)
            && scan.selected == if i < |order| then order[i] else 0
  {
    if order != [] && !IsClosed(r, order[0], exclude, disabled) {
      ScanFinds(r, order[1..], exclude, disabled, now);
      var i := FirstClosed(r, order[1..], exclude, disabled);
      assert order[..1 + i][1..] == order[1..][..i];
    }
  }

  lemma {:induction false} ExpiredAre(r: Route, order: seq<int>, exclude: int, disabled: set<int>, now: int)
    ensures forall k :: k in ExpiredOf(r, order, exclude, disabled, now) <==>
                        k in order && IsExpired(r, k, exclude, disabled, now)
  {
    if order != [] {
      ExpiredAre(r, order[1..], exclude, disabled, now);
      assert order == [order[0]] + order[1..];
    }
  }

  predicate AffinityHolds(r: Route, order: seq<int>, exclude: int, disabled: set<int>, now: int) {
    r.current != 0 && r.current != exclude && r.affinityUntil > now && r.current in order && r.current !in disabled
  }

  /** The outcome of a pick, case by case: a candidate under confirmation makes everyone wait, affinity wins next, then
      the first closed member in scan order; only without one are the expired members probed, all of them. */
  lemma PickMeans(r: Route, order: seq<int>, exclude: int, disabled: set<int>, now: int)
    requires 0 !in order && now > 0
    ensures var p := PickCore(r, order, exclude, disabled, now).pick;
            var i := FirstClosed(r, order, exclude, disabled);
            && (p == Wait <==> r.probe != 0)
            && (p.Affine? <==> r.probe == 0 && AffinityHolds(r, order, exclude, disabled, now))
            && (p.Affine? ==> p.item == r.current)
            && (p.Closed? <==> r.probe == 0 && !AffinityHolds(r, order, exclude, disabled, now) && i < |order|)
            && (p.Closed? ==> p.item == order[i])
            && (p.Recover? ==> i == |order| && p.candidates == ExpiredOf(r, order, exclude, disabled, now))
            && (p == Exhausted ==> i == |order| && ExpiredOf(r, order, exclude, disabled, now) == [])
  {
    var r0 := if r.affinityUntil <= now then r.(affinityUntil := 0) else r;
    SameScan(r, r0, order, exclude, disabled, now);
    ScanFinds(r, order, exclude, disabled, now);
    assert order[..|order|] == order;
    hide ScanMembers, FirstClosed, ExpiredOf, ClaimedAll, ClaimsWon;
  }

  lemma {:induction false} SameScan(r: Route, s: Route, order: seq<int>, exclude: int, disabled: set<int>, now: int)
    requires s.cooldowns == r.cooldowns && s.halfOpens == r.halfOpens
    ensures ScanMembers(r, order, exclude, disabled, now) == ScanMembers(s, order, exclude, disabled, now)
  {
    if order != [] {
      SameScan(r, s, order[1..], exclude, disabled, now);
    }
  }

  /** A route without candidate and without probes refuses a pick only while every eligible member is still cooling:
      nothing else can block it. */
  lemma IdleRouteIsNotWedged(r: Route, order: seq<int>, exclude: int, disabled: set<int>, now: int)
    requires 0 !in order && now > 0
    requires r.probe == 0 && r.halfOpens == map[]
    requires !AffinityHolds(r, order, exclude, disabled, now)
    ensures PickCore(r, order, exclude, disabled, now).pick.Exhausted? <==>
            forall k | k in order && Eligible(k, exclude, disabled) :: k in r.cooldowns && r.cooldowns[k] > now
  {
    hide PickCore, ScanMembers, ExpiredOf, FirstClosed;
    PickMeans(r, order, exclude, disabled, now);
    ExpiredAre(r, order, exclude, disabled, now);
    var i := FirstClosed(r, order, exclude, disabled);
    var p := PickCore(r, order, exclude, disabled, now).pick;
    if p.Exhausted? {
      forall k | k in order && Eligible(k, exclude, disabled)
        ensures k in r.cooldowns && r.cooldowns[k] > now
      {
        var j :| 0 <= j < |order| && order[j] == k;
        assert !IsClosed(r, order[j], exclude, disabled);
        assert !IsExpired(r, k, exclude, disabled, now);
      }
    } else if p.Recover? {
      RecoverHasCandidates(r, order, exclude, disabled, now);
      assert IsExpired(r, p.candidates[0], exclude, disabled, now);
    }
  }

  lemma RecoverHasCandidates(r: Route, order: seq<int>, exclude: int, disabled: set<int>, now: int)
    ensures var p := PickCore(r, order, exclude, disabled, now).pick; p.Recover? ==> |p.candidates| > 0
  {
  }

  // ---- half-open claims ----

  lemma {:induction false} ClaimAllEffect(r: Route, items: seq<int>, now: int)
    requires now > 0
    ensures var t := ClaimedAll(r, items, now);
            && t == r.(halfOpens := t.halfOpens)
            && (forall k :: k in r.halfOpens ==> k in t.halfOpens)
            && (forall k :: k in t.halfOpens ==> k in r.halfOpens || (k in items && MayClaim(r, k, now)))
            && (forall k :: k in t.halfOpens && Get(r.halfOpens, k) > 0 ==> t.halfOpens[k] == r.halfOpens[k])
            && (forall k :: k in items && MayClaim(r, k, now) ==> Get(t.halfOpens, k) == now)
            && (forall k :: k in t.halfOpens && !(k in items && MayClaim(r, k, now)) ==> t.halfOpens[k] == r.halfOpens[k])
    decreases |items|
  {
    if items != [] {
      var s := Claimed(r, items[0], now);
      ClaimAllEffect(s, items[1..], now);
      assert items == [items[0]] + items[1..];
      assert forall k :: k != items[0] ==> MayClaim(s, k, now) == MayClaim(r, k, now);
    }
  }

  /** Exactly the free members of the batch are claimed, each once. */
  lemma {:induction false} ClaimsWonAre(r: Route, items: seq<int>, now: int)
    requires now > 0
    ensures var won := ClaimsWon(r, items, now);
            && (forall k :: k in won <==> k in items && MayClaim(r, k, now))
            && (forall i, j | 0 <= i < j < |won| :: won[i] != won[j])
    decreases |items|
  {
    if items != [] {
      var s := Claimed(r, items[0], now);
      ClaimsWonAre(s, items[1..], now);
      assert items == [items[0]] + items[1..];
      assert forall k :: k != items[0] ==> MayClaim(s, k, now) == MayClaim(r, k, now);
      assert !MayClaim(s, items[0], now);
    }
  }

  // ---- verdicts ----

  predicate NoDup(items: seq<int>) {
    forall i, j | 0 <= i < j < |items| :: items[i] != items[j]
  }

  /** A failed batch backs every member off by exactly one level and frees it; nobody else is touched. */
  lemma {:induction false} BatchBacksOff(r: Route, c: Config, items: seq<int>, now: int)
    requires NoDup(items)
    ensures var t := ReopenedAll(r, c, items, now);
            && (forall k | k in items :: k !in t.halfOpens && Get(t.levels, k) == Get(r.levels, k) + 1)
            && (forall k | k in items :: Get(t.cooldowns, k) == now + CooldownMillis(c, Get(r.levels, k) + 1))
            && (forall k | k !in items :: Get(t.halfOpens, k) == Get(r.halfOpens, k))
            && (forall k | k !in items :: Get(t.levels, k) == Get(r.levels, k) && Get(t.cooldowns, k) == Get(r.cooldowns, k))
    decreases |items|
  {
    hide CooldownMillis;
    if items != [] {
      var s := Reopened(r, c, items[0], now);
      BatchBacksOff(s, c, items[1..], now);
      assert items == [items[0]] + items[1..];
      var t := ReopenedAll(r, c, items, now);
      var k := items[0];
      assert k !in items[1..];
      assert k !in s.halfOpens && Get(t.halfOpens, k) == Get(s.halfOpens, k);
      ReopenedAllOnlyDrops(s, c, items[1..], now);
    }
  }

  lemma {:induction false} ReopenedAllOnlyDrops(r: Route, c: Config, items: seq<int>, now: int)
    ensures var t := ReopenedAll(r, c, items, now);
            && t == r.(cooldowns := t.cooldowns, levels := t.levels, halfOpens := t.halfOpens)
            && (forall k :: k in t.halfOpens ==> k in r.halfOpens && k !in items && t.halfOpens[k] == r.halfOpens[k])
    decreases |items|
  {
    hide CooldownMillis;
    if items != [] {
      ReopenedAllOnlyDrops(Reopened(r, c, items[0], now), c, items[1..], now);
      assert items == [items[0]] + items[1..];
    }
  }

  /** The marks of a member while its probes keep failing at the given times, each probe being claimed again before. */
  function FailedProbes(r: Route, c: Config, item: int, times: seq<int>): Route
    decreases |times|
  {
    if times == [] then r
    else
      var claimed := r.(halfOpens := r.halfOpens[item := times[0]]);
      FailedProbes(ProbeFinished(claimed, c, item, true, times[0]), c, item, times[1..])
  }

  /** n failed probes in a row raise the level by n, and the deadline is the last failure plus the cooldown of the
      level reached. */
  lemma {:induction false} BackoffGrows(r: Route, c: Config, item: int, times: seq<int>)
    requires |times| > 0 && forall i | 0 <= i < |times| :: times[i] > 0
    ensures var t := FailedProbes(r, c, item, times);
            && Get(t.levels, item) == Get(r.levels, item) + |times|
            && Get(t.cooldowns, item) == times[|times| - 1] + CooldownMillis(c, Get(r.levels, item) + |times|)
            && item !in t.halfOpens
    decreases |times|
  {
    hide CooldownMillis;
    var claimed := r.(halfOpens := r.halfOpens[item := times[0]]);
    var s := ProbeFinished(claimed, c, item, true, times[0]);
    assert Get(s.levels, item) == Get(r.levels, item) + 1;
    if |times| > 1 {
      BackoffGrows(s, c, item, times[1..]);
    } else {
      assert times[1..] == [];
    }
  }

  // ---- the fields a verdict leaves alone ----

  /** Candidate, half-open marks and emergency bookkeeping are the same. */
  predicate SameHolds(r: Route, s: Route) {
    s.probe == r.probe && s.halfOpens == r.halfOpens && SameSlots(r, s)
  }

  /** Two routes with the same emergency bookkeeping. */
  predicate SameSlots(r: Route, s: Route) {
    s.emergencyItem == r.emergencyItem && s.emergencyActive == r.emergencyActive && s.emergencyCounts == r.emergencyCounts
  }

  lemma LeaveFields(r: Route, item: int)
    ensures SameHolds(r, LeaveCurrent(r, item))
  {
  }

  lemma RejectedFields(r: Route, c: Config, item: int, failures: int, threshold: int, now: int)
    ensures var t := RejectedHeld(r, c, item, failures, threshold, now);
            t.probe == 0 && t.halfOpens == Drop(r.halfOpens, item) && SameSlots(r, t)
  {
    hide Drop, Get, CooldownMillis;
    var r1 := r.(halfOpens := Drop(r.halfOpens, item), probe := 0);
    var level := Get(r1.levels, item) + 1;
    if threshold <= failures {
      LeaveFields(r1.(levels := r1.levels[item := level],
                      cooldowns := r1.cooldowns[item := now + CooldownMillis(c, level)]), item);
    } else {
      LeaveFields(r1.(cooldowns := Drop(r1.cooldowns, item)), item);
    }
    hide LeaveCurrent;
  }

  lemma OpenedFields(r: Route, c: Config, item: int, now: int)
    ensures SameHolds(r, Opened(r, c, item, now))
  {
    hide Get, CooldownMillis;
    var until := now + CooldownMillis(c, Get(r.levels, item));
    var r1 := r.(cooldowns := r.cooldowns[item := until]);
    LeaveFields(r1, item);
    LeaveFields(r1.(emergencyBlocks := r1.emergencyBlocks[item := until]), item);
    hide LeaveCurrent;
  }

  lemma SucceededFields(r: Route, item: int, now: int)
    ensures var t := SucceededCore(r, item, now);
            && SameSlots(r, t)
            && t.probe == (if Holds(r, item) then 0 else r.probe)
            && t.halfOpens == (if Holds(r, item) then Drop(r.halfOpens, item) else r.halfOpens)
  {
    hide Drop, Get;
    var r1 := StrikesCleared(r, item);
    assert SameHolds(r, r1);
    var r2 := Confirmed(r1, item);
    assert SameHolds(r2, Promoted(r2, item, now));
  }

  // ---- what verdicts mean for the member ----

  /** A member that failed often enough is open afterwards: a closed one keeps its level, the candidate or a half-open one
      goes up by one. A candidate below the limit is closed again. Whoever is told to pick again no longer has the member
      as the current one. */
  lemma FailureMeans(r: Route, c: Config, item: int, failures: int, limit: int, now: int)
    ensures var t := FailedCore(r, c, item, failures, limit, now);
            var reached := failures >= Max(limit, 1);
            var raised := if Holds(r, item) then 1 else 0;
            && (reached ==> Get(t.levels, item) == Get(r.levels, item) + raised && item in t.cooldowns
                            && t.cooldowns[item] == now + CooldownMillis(c, Get(t.levels, item)))
            && (!reached && Holds(r, item) ==> item !in t.cooldowns && t.levels == r.levels)
            && (!reached && !Holds(r, item) ==> t == r)
            && (item != 0 && Repicks(r, item, failures, limit) ==> t.current != item && (r.current == item ==> t.armed))
            && (forall k | k != item :: Get(t.cooldowns, k) == Get(r.cooldowns, k) && Get(t.levels, k) == Get(r.levels, k))
  {
    hide CooldownMillis;
    if Holds(r, item) {
      RejectedMeans(r, c, item, failures, Max(limit, 1), now);
      hide RejectedHeld;
    } else if failures >= Max(limit, 1) {
      OpenedMeans(r, c, item, now);
      hide Opened;
    }
  }

  lemma LeaveMeans(r: Route, item: int)
    ensures var t := LeaveCurrent(r, item);
            t.cooldowns == r.cooldowns && t.levels == r.levels && (item != 0 ==> t.current != item && (r.current == item ==> t.armed))
  {
  }

  lemma RejectedMeans(r: Route, c: Config, item: int, failures: int, threshold: int, now: int)
    ensures var t := RejectedHeld(r, c, item, failures, threshold, now);
            && (threshold <= failures ==>
                  t.levels == r.levels[item := Get(r.levels, item) + 1]
                  && t.cooldowns == r.cooldowns[item := now + CooldownMillis(c, Get(r.levels, item) + 1)])
            && (threshold > failures ==> t.levels == r.levels && t.cooldowns == Drop(r.cooldowns, item))
            && (item != 0 ==> t.current != item && (r.current == item ==> t.armed))
  {
    hide CooldownMillis, Drop, Get;
    var r1 := r.(halfOpens := Drop(r.halfOpens, item), probe := 0);
    var level := Get(r1.levels, item) + 1;
    if threshold <= failures {
      LeaveMeans(r1.(levels := r1.levels[item := level],
                     cooldowns := r1.cooldowns[item := now + CooldownMillis(c, level)]), item);
    } else {
      LeaveMeans(r1.(cooldowns := Drop(r1.cooldowns, item)), item);
    }
    hide LeaveCurrent;
  }

  lemma OpenedMeans(r: Route, c: Config, item: int, now: int)
    ensures var t := Opened(r, c, item, now);
            && t.levels == r.levels && t.cooldowns == r.cooldowns[item := now + CooldownMillis(c, Get(r.levels, item))]
            && (item != 0 ==> t.current != item && (r.current == item ==> t.armed))
  {
    hide CooldownMillis, Get;
    var until := now + CooldownMillis(c, Get(r.levels, item));
    var r1 := r.(cooldowns := r.cooldowns[item := until]);
    LeaveMeans(r1, item);
    LeaveMeans(r1.(emergencyBlocks := r1.emergencyBlocks[item := until]), item);
    hide LeaveCurrent;
  }

  /** A confirmed member is closed at level zero without block or strikes, and becomes the current one unless another still
      has affinity; an unheld member only loses its strikes. */
  lemma SuccessMeans(r: Route, item: int, now: int)
    ensures var t := SucceededCore(r, item, now);
            && Get(t.strikes, item) <= 0
            && (Holds(r, item) ==> item !in t.cooldowns && item !in t.levels && item !in t.emergencyBlocks)
            && (Holds(r, item) && (r.current == 0 || r.affinityUntil <= now) ==> t.current == item && t.affinityUntil == 0)
            && (Holds(r, item) && r.current != 0 && r.affinityUntil > now ==>
                  t.current == r.current && t.affinityUntil == r.affinityUntil)
            && (!Holds(r, item) ==> t == r.(strikes := t.strikes))
  {
    var r1 := StrikesCleared(r, item);
    assert r1 == r.(strikes := r1.strikes) && Get(r1.strikes, item) <= 0;
    hide StrikesCleared;
    var r2 := Confirmed(r1, item);
    assert r2.current == r.current && r2.affinityUntil == r.affinityUntil && r2.strikes == r1.strikes;
    assert item !in r2.cooldowns && item !in r2.levels && item !in r2.emergencyBlocks;
    hide Confirmed;
    PromotedMeans(r2, item, now);
    hide Promoted;
  }

  lemma PromotedMeans(r: Route, item: int, now: int)
    ensures var t := Promoted(r, item, now);
            && t.strikes == r.strikes && t.cooldowns == r.cooldowns && t.levels == r.levels
            && t.emergencyBlocks == r.emergencyBlocks
            && (if r.current == 0 || r.affinityUntil <= now then t.current == item && t.affinityUntil == 0
                else t.current == r.current && t.affinityUntil == r.affinityUntil)
  {
  }

  /** The route after a series of post-commit failures of one member. */
  function PostCommits(r: Route, c: Config, item: int, times: seq<int>): Route
    decreases |times|
  {
    if times == [] then r else PostCommits(PostCommit(r, c, item, times[0]), c, item, times[1..])
  }

  /** Failures after commit add up over requests: the member stays closed for fewer than the allowed attempts, and exactly
      the last allowed one opens it for the cooldown of level one, whatever comes after. */
  lemma {:induction false} StrikesAddUp(r: Route, c: Config, item: int, times: seq<int>)
    requires item !in r.cooldowns && 0 <= Get(r.strikes, item) < Max(c.maxAttempts, 1)
    ensures var t := PostCommits(r, c, item, times);
            var left := Max(c.maxAttempts, 1) - Get(r.strikes, item);
            if |times| < left then item !in t.cooldowns && Get(t.strikes, item) == Get(r.strikes, item) + |times|
            else item in t.cooldowns && t.cooldowns[item] == times[left - 1] + CooldownMillis(c, 1) && Get(t.strikes, item) == 0
    decreases |times|
  {
    hide CooldownMillis;
    if times != [] {
      var s := PostCommit(r, c, item, times[0]);
      StrikeStep(r, c, item, times[0]);
      hide PostCommit;
      if item in s.cooldowns {
        CoolingAbsorbs(s, c, item, times[1..]);
      } else {
        StrikesAddUp(s, c, item, times[1..]);
      }
    }
  }

  lemma StrikeStep(r: Route, c: Config, item: int, now: int)
    requires item !in r.cooldowns && 0 <= Get(r.strikes, item) < Max(c.maxAttempts, 1)
    ensures var s := PostCommit(r, c, item, now);
            if Get(r.strikes, item) + 1 < Max(c.maxAttempts, 1) then
              item !in s.cooldowns && Get(s.strikes, item) == Get(r.strikes, item) + 1
            else item in s.cooldowns && s.cooldowns[item] == now + CooldownMillis(c, 1) && Get(s.strikes, item) == 0
  {
    hide CooldownMillis;
  }

  lemma {:induction false} CoolingAbsorbs(r: Route, c: Config, item: int, times: seq<int>)
    requires item in r.cooldowns
    ensures PostCommits(r, c, item, times) == r
    decreases |times|
  {
    if times != [] {
      CoolingAbsorbs(r, c, item, times[1..]);
    }
  }
}
