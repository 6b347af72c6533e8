/** No interleaving orphans a hold, and what that means for a group nobody works on any more. */
module RouteSafety {
  import opened Backoff
  import opened Route
  import opened RouteSteps
  import opened EmergencySlots
  import opened RouteRuns

  lemma OneRouteChanges(s: Sys, t: Sys, g: int, r: Route)
    requires Inv(s) && t.clock > 0 && t.routes == s.routes[g := r]
    requires EmergencyInv(r) && ProbesOwned(r, t, g)
    requires forall h | h != g :: OwnersKept(s, t, h)
    ensures Inv(t)
  {
    hide EmergencyInv, ProbesOwned, OwnersKept;
    forall h | h in t.routes ensures EmergencyInv(t.routes[h]) && ProbesOwned(t.routes[h], t, h) {
      if h != g {
        SameRouteStaysOwned(s, t, h);
      }
    }
  }

  lemma SameRouteStaysOwned(s: Sys, t: Sys, g: int)
    requires Inv(s) && OwnersKept(s, t, g) && g in s.routes
    ensures ProbesOwned(s.routes[g], t, g)
  {
    ShrunkStaysOwned(s.routes[g], s.routes[g], s, t, g);
  }

  lemma NothingChanges(s: Sys, t: Sys)
    requires Inv(s) && t.clock > 0 && t.routes.Keys <= s.routes.Keys
    requires forall g | g in t.routes :: t.routes[g] == s.routes[g] && OwnersKept(s, t, g)
    ensures Inv(t)
  {
    hide EmergencyInv, ProbesOwned, OwnersKept;
    forall h | h in t.routes ensures EmergencyInv(t.routes[h]) && ProbesOwned(t.routes[h], t, h) {
      SameRouteStaysOwned(s, t, h);
    }
  }

  // ---- picks ----

  lemma ScanMayClaim(r: Route, order: seq<int>, exclude: int, disabled: set<int>, now: int)
    requires r.probe == 0
    ensures forall k | k in ScanMembers(r, order, exclude, disabled, now).expired :: MayClaim(r, k, now)
  {
    ScanFinds(r, order, exclude, disabled, now);
    var i := FirstClosed(r, order, exclude, disabled);
    ExpiredAre(r, order[..i], exclude, disabled, now);
    hide ScanMembers, FirstClosed, ExpiredOf;
  }

  /** The holds after members of `items`, all of them free, were claimed. */
  ghost predicate ClaimedMarks(r: Route, t: Route, items: seq<int>, now: int) {
    && t.probe == r.probe
    && (forall k :: k in t.halfOpens ==>
         (k in r.halfOpens && t.halfOpens[k] == r.halfOpens[k]) || (k in items && t.halfOpens[k] == now))
    && (forall k :: k in items ==> Get(r.halfOpens, k) <= 0 && Get(t.halfOpens, k) == now)
  }

  lemma BatchClaimed(r: Route, items: seq<int>, now: int)
    requires now > 0 && forall k | k in items :: MayClaim(r, k, now)
    ensures ClaimedMarks(r, ClaimedAll(r, items, now), items, now)
  {
    ClaimAllEffect(r, items, now);
    hide ClaimedAll;
  }

  /** After a pick the holds of the group are the ones found plus the members that were free and are now probed. */
  lemma PickMarks(r: Route, order: seq<int>, exclude: int, disabled: set<int>, now: int)
    requires now > 0
    ensures var p := PickCore(r, order, exclude, disabled, now);
            ClaimedMarks(r, p.route, Claims(p.pick), now)
  {
    var r0 := if r.affinityUntil <= now then r.(affinityUntil := 0) else r;
    var scan := ScanMembers(r0, order, exclude, disabled, now);
    if r.probe == 0 {
      ScanMayClaim(r0, order, exclude, disabled, now);
      BatchClaimed(r0, scan.expired, now);
      WonMarks(r0, scan.expired, now);
    }
    hide ScanMembers, ClaimedAll, ClaimsWon;
  }

  /** The members a pick switches to half-open. */
  function Claims(p: Pick): seq<int> {
    match p
    case Closed(_, probes) => probes
    case Recover(items) => items
    case _ => []
  }

  lemma ClaimsOwned(found: Route, r: Route, s: Sys, t: Sys, g: int, claimed: seq<int>, now: int)
    requires ProbesOwned(found, s, g) && OwnersKept(s, t, g) && now > 0 && ClaimedMarks(found, r, claimed, now)
    requires forall k | k in claimed :: Owned(t, g, k)
    ensures ProbesOwned(r, t, g)
  {
  }

  lemma PickOwners(s: Sys, a: Action, now: int, t: Sys)
    requires now > 0 && a.PickIn? && PickStep(s, a, now, t)
    ensures forall h :: OwnersKept(s, t, h)
    ensures forall k | k in Claims(PickCore(a.found, a.order, a.exclude, a.disabled, now).pick) :: Owned(t, a.group, k)
  {
    var p := PickCore(a.found, a.order, a.exclude, a.disabled, now).pick;
    hide PickCore, Accessed, OwnersKept;
    forall d: Duty | d in s.probes ensures d in t.probes {
      if p.Closed? {
        SpawnHas(s.probes, a.group, p.probes, d);
      }
    }
    forall h ensures OwnersKept(s, t, h) {
      GrowingKeepsOwners(s, t, h);
    }
    forall k | k in Claims(p) ensures Owned(t, a.group, k) {
      if p.Closed? {
        SpawnHas(s.probes, a.group, p.probes, Duty(a.group, k));
      } else {
        assert t.requests[a.pid].batch == Batch(a.group, p.candidates);
        assert Recovering(t, a.group, k);
      }
    }
  }

  lemma PickKeepsInv(s: Sys, a: Action, now: int, t: Sys)
    requires Inv(s) && a.PickIn? && s.clock <= now == t.clock && PickStep(s, a, now, t)
    ensures Inv(t)
  {
    var p := PickCore(a.found, a.order, a.exclude, a.disabled, now);
    FoundOwned(s, a.group, a.found, set i | i in a.order);
    PickMarks(a.found, a.order, a.exclude, a.disabled, now);
    PickOwners(s, a, now, t);
    PickKeepsSlots(a.found, a.order, a.exclude, a.disabled, now);
    SlotsDecide(a.found, p.route);
    hide PickCore, Accessed, OwnersKept, ProbesOwned, EmergencyInv, Inv, Owned;
    ClaimsOwned(a.found, p.route, s, t, a.group, Claims(p.pick), now);
    OneRouteChanges(s, t, a.group, p.route);
  }

  lemma WonMarks(r: Route, items: seq<int>, now: int)
    requires now > 0
    ensures ClaimedMarks(r, ClaimedAll(r, items, now), ClaimsWon(r, items, now), now)
  {
    ClaimAllEffect(r, items, now);
    ClaimsWonAre(r, items, now);
    hide ClaimedAll, ClaimsWon;
  }

  lemma BackgroundKeepsInv(s: Sys, a: Action, now: int, t: Sys)
    requires Inv(s) && a.ProbeExpired? && s.clock <= now == t.clock && ProbeExpiredStep(s, a, now, t)
    ensures Inv(t)
  {
    var r := ClaimedAll(a.found, a.order, now);
    var won := ClaimsWon(a.found, a.order, now);
    FoundOwned(s, a.group, a.found, set i | i in a.order);
    ClaimAllEffect(a.found, a.order, now);
    SlotsDecide(a.found, r);
    hide ClaimedAll, ClaimsWon, Accessed, OwnersKept, EmergencyInv, Inv, ProbesOwned;
    forall d: Duty ensures d in t.probes <==> d in s.probes || (d.group == a.group && d.item in won) {
      SpawnHas(s.probes, a.group, won, d);
    }
    forall h ensures OwnersKept(s, t, h) {
      GrowingKeepsOwners(s, t, h);
    }
    WonMarks(a.found, a.order, now);
    ClaimsOwned(a.found, r, s, t, a.group, won, now);
    OneRouteChanges(s, t, a.group, r);
  }

  // ---- batches ----

  lemma {:induction false} DropAllLeaves(m: Times, items: seq<int>, keep: int)
    ensures var n := DropAll(m, items, keep);
            && (forall k :: k in n ==> k in m && n[k] == m[k])
            && (forall k :: k in n && k in items ==> k == keep)
  {
    if items != [] {
      DropAllLeaves(if items[0] != keep then Drop(m, items[0]) else m, items[1..], keep);
      assert items == [items[0]] + items[1..];
    }
  }

  /** After a batch no member of it is half-open except the winner, which is the new candidate. */
  lemma BatchMarks(r: Route, c: Config, items: seq<int>, winner: int, now: int)
    ensures var t := BatchFinished(r, c, items, winner, now);
            && (forall k :: k in t.halfOpens ==> k in r.halfOpens && t.halfOpens[k] == r.halfOpens[k])
            && (forall k :: k in t.halfOpens && k in items ==> winner != 0 && k == winner)
            && t.probe == if winner != 0 then winner else r.probe
  {
    DropAllLeaves(r.halfOpens, items, winner);
    ReopenedAllOnlyDrops(r, c, items, now);
    hide DropAll, ReopenedAll;
  }

  /** Ending a batch only gives up the batch's own members; a winner passes to the request's hop. */
  lemma EndBatchOwners(s: Sys, a: Action, now: int, t: Sys)
    requires a.EndBatch? && EndBatchStep(s, a, now, t)
    ensures var b := s.requests[a.pid].batch;
            && (forall h | h != b.group :: OwnersKept(s, t, h))
            && (forall k :: Owned(s, b.group, k) && k !in b.items ==> Owned(t, b.group, k))
            && (forall k :: Confirming(s, b.group, k) ==> Confirming(t, b.group, k))
            && (a.winner != 0 && b.group in s.routes ==> Confirming(t, b.group, a.winner))
  {
    var b := s.requests[a.pid].batch;
    hide BatchFinished;
    forall h, k | Confirming(s, h, k) ensures Confirming(t, h, k) {
      var pid :| pid in s.requests && Hop(h, k, false) in s.requests[pid].hops;
      assert Hop(h, k, false) in t.requests[pid].hops;
    }
    forall h, k | Recovering(s, h, k) && (h != b.group || k !in b.items) ensures Recovering(t, h, k) {
      var pid :| pid in s.requests && s.requests[pid].batch.Batch? && s.requests[pid].batch.group == h
                 && k in s.requests[pid].batch.items;
      assert t.requests[pid].batch == s.requests[pid].batch;
    }
    if a.winner != 0 && b.group in s.routes {
      assert Hop(b.group, a.winner, false) in t.requests[a.pid].hops;
    }
  }

  lemma EndBatchKeepsInv(s: Sys, a: Action, now: int, t: Sys)
    requires Inv(s) && a.EndBatch? && s.clock <= now == t.clock && EndBatchStep(s, a, now, t)
    ensures Inv(t)
  {
    EndBatchOwners(s, a, now, t);
    var b := s.requests[a.pid].batch;
    if b.group in s.routes {
      var r := s.routes[b.group];
      BatchMarks(r, a.config, b.items, a.winner, now);
      BreakerKeepsSlots(r, a.config, b.items, a.winner, 0, false, now);
      SlotsDecide(r, BatchFinished(r, a.config, b.items, a.winner, now));
      hide EmergencyInv, OwnersKept, BatchFinished, Owned, Confirming;
      OneRouteChanges(s, t, b.group, BatchFinished(r, a.config, b.items, a.winner, now));
    } else {
      hide EmergencyInv, OwnersKept, BatchFinished, ProbesOwned;
      NothingChanges(s, t);
    }
  }

  // ---- asynchronous probes ----

  lemma ProbeMarks(r: Route, c: Config, item: int, failed: bool, now: int)
    requires forall k | k in r.halfOpens :: r.halfOpens[k] > 0
    ensures var t := ProbeFinished(r, c, item, failed, now);
            Shrunk(r, t) && t.probe == r.probe && item !in t.halfOpens
  {
    hide CooldownMillis;
  }

  lemma EndProbeOwners(s: Sys, a: Action, now: int, t: Sys)
    requires a.EndProbe? && EndProbeStep(s, a, now, t)
    ensures forall h, k :: Confirming(s, h, k) == Confirming(t, h, k)
    ensures forall h, k :: Owned(s, h, k) && Duty(h, k) != a.duty ==> Owned(t, h, k)
  {
    hide ProbeFinished;
  }

  lemma EndProbeKeepsInv(s: Sys, a: Action, now: int, t: Sys)
    requires Inv(s) && a.EndProbe? && s.clock <= now == t.clock && EndProbeStep(s, a, now, t)
    ensures Inv(t)
  {
    EndProbeOwners(s, a, now, t);
    var g := a.duty.group;
    assert forall h | h != g :: OwnersKept(s, t, h);
    if g in s.routes {
      var r := s.routes[g];
      var r' := ProbeFinished(r, a.config, a.duty.item, a.failed, now);
      ProbeMarks(r, a.config, a.duty.item, a.failed, now);
      BreakerKeepsSlots(r, a.config, [], 0, a.duty.item, a.failed, now);
      SlotsDecide(r, r');
      hide EmergencyInv, OwnersKept, ProbeFinished, Owned, Confirming;
      assert ProbesOwned(r', t, g);
      OneRouteChanges(s, t, g, r');
    } else {
      hide EmergencyInv, OwnersKept, ProbeFinished, ProbesOwned;
      NothingChanges(s, t);
    }
  }

  // ---- verdicts ----

  /** Every verdict and every release frees the member of its hop and no other member gains a mark. */
  lemma VerdictMarks(before: Route, after: Route, c: Config, item: int, failures: int, limit: int, now: int)
    requires Succeeded(before, after, c, item, now) || Failed(before, after, c, item, failures, limit, now)
             || Released(before, after, item)
    requires forall k | k in before.halfOpens :: before.halfOpens[k] > 0
    ensures Shrunk(before, after) && item !in after.halfOpens && (item != 0 ==> after.probe != item)
  {
    hide EmergencyReleased;
    if Succeeded(before, after, c, item, now) {
      SucceedMarks(before, item, now);
      var r := SucceededCore(before, item, now);
      hide SucceededCore;
      ReleaseLeavesMarks(r, after, item);
    } else if Failed(before, after, c, item, failures, limit, now) {
      FailMarks(before, c, item, failures, limit, now);
      hide FailedCore;
      ReleaseLeavesMarks(FailedCore(before, c, item, failures, limit, now), after, item);
    } else if !Holds(before, item) {
      ReleaseLeavesMarks(before, after, item);
    }
  }

  lemma ReleaseLeavesMarks(before: Route, after: Route, item: int)
    ensures EmergencyReleased(before, after, item) ==> after.halfOpens == before.halfOpens && after.probe == before.probe
  {
    hide Sum, ReleasedCounts;
  }

  lemma SucceedMarks(r: Route, item: int, now: int)
    requires forall k | k in r.halfOpens :: r.halfOpens[k] > 0
    ensures var t := SucceededCore(r, item, now);
            && t.halfOpens == Drop(r.halfOpens, item)
            && t.probe == if Holds(r, item) then 0 else r.probe
  {
    SucceededFields(r, item, now);
    hide SucceededCore;
    assert item !in r.halfOpens ==> Drop(r.halfOpens, item) == r.halfOpens;
  }

  lemma FailMarks(r: Route, c: Config, item: int, failures: int, limit: int, now: int)
    requires forall k | k in r.halfOpens :: r.halfOpens[k] > 0
    ensures var t := FailedCore(r, c, item, failures, limit, now);
            && t.halfOpens == Drop(r.halfOpens, item)
            && t.probe == if Holds(r, item) then 0 else r.probe
  {
    RejectedFields(r, c, item, failures, Max(limit, 1), now);
    OpenedFields(r, c, item, now);
    hide RejectedHeld, Opened;
    assert item !in r.halfOpens ==> Drop(r.halfOpens, item) == r.halfOpens;
  }

  /** Settling a hop gives up that hop's member and nothing else. */
  lemma SettleOwners(s: Sys, pid: int, hop: Hop, t: Sys)
    requires pid in s.requests && t.probes == s.probes && t.requests == DropHop(s, pid, hop)
    ensures forall h, k :: Confirming(s, h, k) && Hop(h, k, false) != hop ==> Confirming(t, h, k)
    ensures forall h, k :: Owned(s, h, k) && Hop(h, k, false) != hop ==> Owned(t, h, k)
  {
    forall h, k | Confirming(s, h, k) && Hop(h, k, false) != hop ensures Confirming(t, h, k) {
      var p :| p in s.requests && Hop(h, k, false) in s.requests[p].hops;
      assert Hop(h, k, false) in t.requests[p].hops;
    }
    forall h, k | Recovering(s, h, k) ensures Recovering(t, h, k) {
      var p :| p in s.requests && s.requests[p].batch.Batch? && s.requests[p].batch.group == h
               && k in s.requests[p].batch.items;
      assert t.requests[p].batch == s.requests[p].batch;
    }
  }

  lemma SettledRoute(r: Route, r': Route, s: Sys, t: Sys, hop: Hop)
    requires ProbesOwned(r, s, hop.group) && Shrunk(r, r')
    requires hop.manual || (hop.item !in r'.halfOpens && (hop.item != 0 ==> r'.probe != hop.item))
    requires forall k :: Confirming(s, hop.group, k) && Hop(hop.group, k, false) != hop ==> Confirming(t, hop.group, k)
    requires forall k :: Owned(s, hop.group, k) && Hop(hop.group, k, false) != hop ==> Owned(t, hop.group, k)
    ensures ProbesOwned(r', t, hop.group)
  {
    hide Owned, Confirming;
  }

  lemma SettleKeepsInv(s: Sys, a: Action, now: int, t: Sys)
    requires Inv(s) && (a.Succeed? || a.Fail? || a.GiveBack?) && s.clock <= now == t.clock && SettleStep(s, a, now, t)
    ensures Inv(t)
  {
    var g := a.hop.group;
    SettleOwners(s, a.pid, a.hop, t);
    assert forall h | h != g :: OwnersKept(s, t, h);
    hide EmergencyInv, Succeeded, Failed, Released, OwnersKept;
    if g !in s.routes {
      NothingChanges(s, t);
    } else if a.hop.manual && !a.GiveBack? {
      SettledRoute(s.routes[g], s.routes[g], s, t, a.hop);
      assert s.routes == s.routes[g := s.routes[g]];
      OneRouteChanges(s, t, g, s.routes[g]);
    } else {
      var r := s.routes[g];
      match a {
        case Succeed(_, hop, c) =>
          VerdictMarks(r, t.routes[g], c, hop.item, 0, 0, now);
          VerdictKeepsSlots(r, t.routes[g], c, hop.item, 0, 0, now);
        case Fail(_, hop, c, failures, limit) =>
          VerdictMarks(r, t.routes[g], c, hop.item, failures, limit, now);
          VerdictKeepsSlots(r, t.routes[g], c, hop.item, failures, limit, now);
        case GiveBack(_, hop) =>
          var c := Config(0, 0.0, 0, 0, 0, 0);
          VerdictMarks(r, t.routes[g], c, hop.item, 0, 0, now);
          VerdictKeepsSlots(r, t.routes[g], c, hop.item, 0, 0, now);
      }
      SettledRoute(r, t.routes[g], s, t, a.hop);
      OneRouteChanges(s, t, g, t.routes[g]);
    }
  }

  // ---- the remaining steps ----

  lemma PlainKeepsInv(s: Sys, a: Action, now: int, t: Sys)
    requires Inv(s) && Next(s, a, now, t)
    requires a.Enter? || a.Leave? || a.Adopt? || a.Remove?
    ensures Inv(t)
  {
    forall h ensures OwnersKept(s, t, h) {
      if a.Leave? {
        LeaveKeepsOwners(s, a.pid, t, h);
      } else {
        GrowingKeepsOwners(s, t, h);
      }
    }
    hide EmergencyInv, ProbesOwned, OwnersKept;
    NothingChanges(s, t);
  }

  lemma LeaveKeepsOwners(s: Sys, pid: int, t: Sys, g: int)
    requires pid in s.requests && s.requests[pid] == Request({}, NoBatch)
    requires t.requests == s.requests - {pid} && t.probes == s.probes
    ensures OwnersKept(s, t, g)
  {
    forall k | Confirming(s, g, k) ensures Confirming(t, g, k) {
      var p :| p in s.requests && Hop(g, k, false) in s.requests[p].hops;
      assert p != pid && t.requests[p] == s.requests[p];
    }
    forall k | Recovering(s, g, k) ensures Recovering(t, g, k) {
      var p :| p in s.requests && s.requests[p].batch.Batch? && s.requests[p].batch.group == g
               && k in s.requests[p].batch.items;
      assert p != pid && t.requests[p] == s.requests[p];
    }
  }

  lemma ClaimSlotKeepsInv(s: Sys, a: Action, now: int, t: Sys)
    requires Inv(s) && a.ClaimSlot? && s.clock <= now == t.clock && ClaimSlotStep(s, a, now, t)
    ensures Inv(t)
  {
    FoundOwned(s, a.group, a.found, a.items);
    var r := t.routes[a.group];
    hide MayServeEmergency, Accessed, Sum;
    forall h ensures OwnersKept(s, t, h) {
      GrowingKeepsOwners(s, t, h);
    }
    if MayServeEmergency(a.found, a.config, a.items, a.exclude, a.disabled, now) {
      ClaimKeepsSlots(a.found, r, a.config, a.items, a.exclude, a.disabled, now);
    }
    assert Shrunk(a.found, r);
    hide EmergencyInv, OwnersKept, ProbesOwned, EmergencyClaimed, Shrunk, Inv;
    ShrunkStaysOwned(a.found, r, s, t, a.group);
    OneRouteChanges(s, t, a.group, r);
  }

  lemma PostCommitMarks(r: Route, c: Config, item: int, now: int)
    ensures Shrunk(r, PostCommit(r, c, item, now)) && SameSlots(r, PostCommit(r, c, item, now))
  {
    hide Drop, Get, CooldownMillis;
  }

  lemma PostCommitKeepsInv(s: Sys, a: Action, now: int, t: Sys)
    requires Inv(s) && a.PostCommitFail? && Next(s, a, now, t)
    ensures Inv(t)
  {
    FoundOwned(s, a.group, a.found, a.items);
    var r := PostCommit(a.found, a.config, a.item, now);
    hide Accessed, Sum, CooldownMillis;
    forall h ensures OwnersKept(s, t, h) {
      GrowingKeepsOwners(s, t, h);
    }
    PostCommitMarks(a.found, a.config, a.item, now);
    SlotsDecide(a.found, r);
    hide EmergencyInv, OwnersKept, ProbesOwned, PostCommit, Shrunk, Inv;
    ShrunkStaysOwned(a.found, r, s, t, a.group);
    OneRouteChanges(s, t, a.group, r);
  }

  lemma ResetKeepsInv(s: Sys, a: Action, now: int, t: Sys)
    requires Inv(s) && a.Reset? && Next(s, a, now, t)
    ensures Inv(t)
  {
    forall h ensures OwnersKept(s, t, h) {
      GrowingKeepsOwners(s, t, h);
    }
    if a.group in s.routes {
      var r := t.routes[a.group];
      ResetKeepsSlots(s.routes[a.group], r);
      hide Sum;
      assert Shrunk(s.routes[a.group], r);
      hide EmergencyInv, OwnersKept, ProbesOwned, CooldownsReset, Shrunk;
      ShrunkStaysOwned(s.routes[a.group], r, s, t, a.group);
      OneRouteChanges(s, t, a.group, r);
    } else {
      hide EmergencyInv, OwnersKept, ProbesOwned;
      NothingChanges(s, t);
    }
  }

  /** Every critical section of every process keeps the invariant. */
  lemma StepKeepsInv(s: Sys, a: Action, now: int, t: Sys)
    requires Inv(s) && Next(s, a, now, t)
    ensures Inv(t)
  {
    hide Inv, PickStep, EndBatchStep, ClaimSlotStep, EndProbeStep, ProbeExpiredStep, SettleStep;
    match a {
      case PickIn(_, _, _, _, _, _) => PickKeepsInv(s, a, now, t);
      case EndBatch(_, _, _) => EndBatchKeepsInv(s, a, now, t);
      case ClaimSlot(_, _, _, _, _, _, _) => ClaimSlotKeepsInv(s, a, now, t);
      case EndProbe(_, _, _) => EndProbeKeepsInv(s, a, now, t);
      case ProbeExpired(_, _, _) => BackgroundKeepsInv(s, a, now, t);
      case Succeed(_, _, _) => SettleKeepsInv(s, a, now, t);
      case Fail(_, _, _, _, _) => SettleKeepsInv(s, a, now, t);
      case GiveBack(_, _) => SettleKeepsInv(s, a, now, t);
      case PostCommitFail(_, _, _, _, _) => PostCommitKeepsInv(s, a, now, t);
      case Reset(_) => ResetKeepsInv(s, a, now, t);
      case _ => PlainKeepsInv(s, a, now, t);
    }
  }

  // ---- whole runs ----

  ghost predicate Run(states: seq<Sys>, acts: seq<Action>) {
    && |states| == |acts| + 1
    && forall i | 0 <= i < |acts| :: Next(states[i], acts[i], states[i + 1].clock, states[i + 1])
  }

  predicate Initial(s: Sys) {
    s.routes == map[] && s.requests == map[] && s.probes == multiset{} && s.clock > 0
  }

  lemma {:induction false} RunKeepsInv(states: seq<Sys>, acts: seq<Action>, n: nat)
    requires Run(states, acts) && Inv(states[0]) && n <= |acts|
    ensures Inv(states[n])
  {
    if n > 0 {
      RunKeepsInv(states, acts, n - 1);
      hide Inv, Next;
      StepKeepsInv(states[n - 1], acts[n - 1], states[n].clock, states[n]);
    }
  }

  /** In every interleaving from the start: a candidate belongs to a request in flight that still has to settle a hop on
      it, every half-open mark to a probe, a batch or a request in flight, and emergency accounting balances. */
  lemma NoHoldIsOrphaned(states: seq<Sys>, acts: seq<Action>, n: nat, g: int, k: int)
    requires Run(states, acts) && Initial(states[0]) && n <= |acts| && g in states[n].routes
    ensures var s := states[n];
            var r := s.routes[g];
            && EmergencyInv(r)
            && (r.probe == k && k != 0 ==> Confirming(s, g, k))
            && (Get(r.halfOpens, k) != 0 ==> Recovering(s, g, k) || Duty(g, k) in s.probes || Confirming(s, g, k))
  {
    RunKeepsInv(states, acts, n);
    hide EmergencyInv;
  }

  /** Nobody in flight works on group g. */
  ghost predicate Quiet(s: Sys, g: int) {
    && (forall d | d in s.probes :: d.group != g)
    && (forall pid | pid in s.requests ::
          && (s.requests[pid].batch.Batch? ==> s.requests[pid].batch.group != g)
          && (forall hop | hop in s.requests[pid].hops :: hop.group == g ==> hop.manual))
  }

  lemma QuietIsClean(s: Sys, g: int)
    requires Inv(s) && Quiet(s, g)
    ensures RouteOf(s, g).probe == 0 && RouteOf(s, g).halfOpens == map[]
  {
    hide EmergencyInv;
    if g in s.routes {
      forall k ensures k !in s.routes[g].halfOpens {
        assert !Confirming(s, g, k) && !Recovering(s, g, k);
        assert Duty(g, k) in s.probes ==> Duty(g, k).group != g;
      }
    }
  }

  /** A finished request can never wedge a group: once nobody works on it, in every reachable state, the next pick does
      not wait, and it comes back empty only while every member it may use is still cooling. */
  lemma QuietGroupPicks(states: seq<Sys>, acts: seq<Action>, n: nat, g: int,
                        found: Route, order: seq<int>, exclude: int, disabled: set<int>, now: int)
    requires Run(states, acts) && Initial(states[0]) && n <= |acts| && Quiet(states[n], g)
    requires now >= states[n].clock && 0 !in order && Accessed(RouteOf(states[n], g), found, set i | i in order)
    ensures var p := PickCore(found, order, exclude, disabled, now).pick;
            && !p.Wait?
            && (p.Exhausted? <==>
                 && !AffinityHolds(found, order, exclude, disabled, now)
                 && forall k | k in order && Eligible(k, exclude, disabled) :: k in found.cooldowns && found.cooldowns[k] > now)
  {
    RunKeepsInv(states, acts, n);
    QuietIsClean(states[n], g);
    hide EmergencyInv, Sum, Next, Quiet, ProbesOwned, RouteOf, PickCore, FirstClosed, ExpiredOf;
    PickMeans(found, order, exclude, disabled, now);
    if !AffinityHolds(found, order, exclude, disabled, now) {
      IdleRouteIsNotWedged(found, order, exclude, disabled, now);
    }
  }

  // ---- one probe of a member at a time ----

  ghost predicate ClaimsDuty(a: Action, now: int, d: Duty) {
    match a
    case PickIn(_, g, order, exclude, disabled, found) =>
      d.group == g && d.item in Claims(PickCore(found, order, exclude, disabled, now).pick)
    case ProbeExpired(g, order, found) => d.group == g && d.item in ClaimsWon(found, order, now)
    case _ => false
  }

  predicate Marked(s: Sys, d: Duty) {
    Get(RouteOf(s, d.group).halfOpens, d.item) > 0
  }

  lemma ClaimedInOrder(r: Route, order: seq<int>, exclude: int, disabled: set<int>, now: int)
    requires now > 0
    ensures forall k :: k in Claims(PickCore(r, order, exclude, disabled, now).pick) ==> k in order
  {
    var r0 := if r.affinityUntil <= now then r.(affinityUntil := 0) else r;
    var scan := ScanMembers(r0, order, exclude, disabled, now);
    ScanFinds(r0, order, exclude, disabled, now);
    var i := FirstClosed(r0, order, exclude, disabled);
    ExpiredAre(r0, order[..i], exclude, disabled, now);
    ClaimsWonAre(r0, scan.expired, now);
    hide ScanMembers, FirstClosed, ExpiredOf, ClaimsWon, ClaimedAll;
  }

  /** A claim succeeds only on an unmarked member and marks it. */
  lemma ClaimMarks(s: Sys, a: Action, now: int, t: Sys, d: Duty)
    requires s.clock > 0 && Next(s, a, now, t) && ClaimsDuty(a, now, d)
    ensures !Marked(s, d) && Marked(t, d)
  {
    hide Sum, Spawn, AddHop;
    if a.PickIn? {
      PickMarks(a.found, a.order, a.exclude, a.disabled, now);
      ClaimedInOrder(a.found, a.order, a.exclude, a.disabled, now);
      hide PickCore;
      AccessKeepsMark(RouteOf(s, d.group), a.found, a.order, d.item);
    } else {
      ClaimsWonAre(a.found, a.order, now);
      WonMarks(a.found, a.order, now);
      hide ClaimedAll, ClaimsWon;
      AccessKeepsMark(RouteOf(s, d.group), a.found, a.order, d.item);
    }
  }

  lemma AccessKeepsMark(before: Route, after: Route, order: seq<int>, k: int)
    requires Accessed(before, after, set i | i in order) && k in order
    ensures Get(after.halfOpens, k) == Get(before.halfOpens, k)
  {
    hide Sum;
  }

  lemma {:induction false} MarkCleared(states: seq<Sys>, d: Duty, i: nat, j: nat)
    requires i < j < |states| && Marked(states[i], d) && !Marked(states[j], d)
    ensures exists k: nat :: i <= k < j && Marked(states[k], d) && !Marked(states[k + 1], d)
    decreases j - i
  {
    if Marked(states[j - 1], d) {
      assert Marked(states[j - 1], d) && !Marked(states[j - 1 + 1], d);
    } else {
      MarkCleared(states, d, i, j - 1);
    }
  }

  /** Two successful claims of one member are separated by a step that cleared its mark: nobody claims a member that is
      marked. A verdict on the member may clear the mark while a probe is still under way. */
  lemma ClaimsAreSeparated(states: seq<Sys>, acts: seq<Action>, d: Duty, i: nat, j: nat)
    requires Run(states, acts) && states[0].clock > 0 && i < j < |acts|
    requires ClaimsDuty(acts[i], states[i + 1].clock, d) && ClaimsDuty(acts[j], states[j + 1].clock, d)
    ensures exists k: nat :: i < k < j && Marked(states[k], d) && !Marked(states[k + 1], d)
  {
    ClockRuns(states, acts, i);
    ClockRuns(states, acts, j);
    hide ClaimsDuty, Marked, Next;
    ClaimMarks(states[i], acts[i], states[i + 1].clock, states[i + 1], d);
    ClaimMarks(states[j], acts[j], states[j + 1].clock, states[j + 1], d);
    MarkCleared(states, d, i + 1, j);
  }

  lemma {:induction false} ClockRuns(states: seq<Sys>, acts: seq<Action>, n: nat)
    requires Run(states, acts) && n <= |acts| && states[0].clock > 0
    ensures states[n].clock > 0
  {
    if n > 0 {
      ClockRuns(states, acts, n - 1);
      hide PickStep, EndBatchStep, ClaimSlotStep, EndProbeStep, ProbeExpiredStep, SettleStep;
      assert Next(states[n - 1], acts[n - 1], states[n].clock, states[n]);
    }
  }
}
