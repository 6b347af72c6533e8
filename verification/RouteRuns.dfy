/** Requests, asynchronous probes and recovery batches interleaving their critical sections over all groups. */
module RouteRuns {
  import opened Backoff
  import opened Route
  import opened EmergencySlots

  /** A member of a group that is being probed. */
  datatype Duty = Duty(group: int, item: int)

  /** One hop of a request's reference chain. A hop picked in manual mode reports no success and no failure. */
  datatype Hop = Hop(group: int, item: int, manual: bool)

  datatype Batch = NoBatch | Batch(group: int, items: seq<int>)

  /** A request: its unsettled hops and the recovery batch it is waiting for. */
  datatype Request = Request(hops: set<Hop>, batch: Batch)

  datatype Sys = Sys(routes: map<int, Route>, requests: map<int, Request>, probes: multiset<Duty>, clock: int)

  datatype Action =
    | Enter(pid: int)
    | Leave(pid: int)
    | PickIn(pid: int, group: int, order: seq<int>, exclude: int, disabled: set<int>, found: Route)
    | EndBatch(pid: int, config: Config, winner: int)
    | ClaimSlot(pid: int, group: int, config: Config, items: set<int>, exclude: int, disabled: set<int>, found: Route)
    | Adopt(pid: int, hop: Hop)
    | EndProbe(duty: Duty, config: Config, failed: bool)
    | ProbeExpired(group: int, order: seq<int>, found: Route)
    | Succeed(pid: int, hop: Hop, config: Config)
    | Fail(pid: int, hop: Hop, config: Config, failures: int, limit: int)
    | GiveBack(pid: int, hop: Hop)
    | PostCommitFail(group: int, config: Config, items: set<int>, item: int, found: Route)
    | Reset(group: int)
    | Remove(group: int)

  function RouteOf(s: Sys, g: int): Route {
    if g in s.routes then s.routes[g] else NEW_ROUTE
  }

  function Spawn(probes: multiset<Duty>, g: int, items: seq<int>): multiset<Duty>
    decreases |items|
  {
    if items == [] then probes else Spawn(probes + multiset{Duty(g, items[0])}, g, items[1..])
  }

  function AddHop(s: Sys, pid: int, hop: Hop): map<int, Request>
    requires pid in s.requests
  {
    s.requests[pid := s.requests[pid].(hops := s.requests[pid].hops + {hop})]
  }

  function DropHop(s: Sys, pid: int, hop: Hop): map<int, Request>
    requires pid in s.requests
  {
    s.requests[pid := s.requests[pid].(hops := s.requests[pid].hops - {hop})]
  }

  // ---- one critical section of one process ----

  /** A pick: affinity and a closed member become a hop, expired members a batch; members probed beside a closed one
      get a process of their own. */
  ghost predicate PickStep(s: Sys, a: Action, now: int, t: Sys)
    requires a.PickIn?
  {
    && a.pid in s.requests && s.requests[a.pid].batch.NoBatch?
    && Accessed(RouteOf(s, a.group), a.found, set i | i in a.order)
    && var p := PickCore(a.found, a.order, a.exclude, a.disabled, now);
       && t.routes == s.routes[a.group := p.route]
       && match p.pick
          case Wait => t.requests == s.requests && t.probes == s.probes
          case Exhausted => t.requests == s.requests && t.probes == s.probes
          case Affine(item) => t.requests == AddHop(s, a.pid, Hop(a.group, item, false)) && t.probes == s.probes
          case Closed(item, won) =>
            t.requests == AddHop(s, a.pid, Hop(a.group, item, false)) && t.probes == Spawn(s.probes, a.group, won)
          case Recover(items) =>
            && t.requests == s.requests[a.pid := s.requests[a.pid].(batch := Batch(a.group, items))]
            && t.probes == s.probes
  }

  /** The end of a batch: the first success becomes the candidate and the request's hop. A group removed meanwhile
      leaves the request empty-handed. */
  ghost predicate EndBatchStep(s: Sys, a: Action, now: int, t: Sys)
    requires a.EndBatch?
  {
    && a.pid in s.requests && s.requests[a.pid].batch.Batch? && t.probes == s.probes
    && var b := s.requests[a.pid].batch;
       var freed := s.(requests := s.requests[a.pid := s.requests[a.pid].(batch := NoBatch)]);
       && (a.winner == 0 || a.winner in b.items)
       && if b.group !in s.routes then t.routes == s.routes && t.requests == freed.requests
          else
            && t.routes == s.routes[b.group := BatchFinished(s.routes[b.group], a.config, b.items, a.winner, now)]
            && t.requests == if a.winner == 0 then freed.requests else AddHop(freed, a.pid, Hop(b.group, a.winner, false))
  }

  ghost predicate ClaimSlotStep(s: Sys, a: Action, now: int, t: Sys)
    requires a.ClaimSlot?
  {
    && a.pid in s.requests && t.probes == s.probes
    && Accessed(RouteOf(s, a.group), a.found, a.items)
    && a.group in t.routes && t.routes == s.routes[a.group := t.routes[a.group]]
    && if MayServeEmergency(a.found, a.config, a.items, a.exclude, a.disabled, now) then
         && EmergencyClaimed(a.found, t.routes[a.group], a.config.emergencyItem)
         && t.requests == AddHop(s, a.pid, Hop(a.group, a.config.emergencyItem, false))
       else t.routes[a.group] == a.found && t.requests == s.requests
  }

  ghost predicate EndProbeStep(s: Sys, a: Action, now: int, t: Sys)
    requires a.EndProbe?
  {
    && a.duty in s.probes && t.probes == s.probes - multiset{a.duty} && t.requests == s.requests
    && t.routes == if a.duty.group !in s.routes then s.routes
                   else s.routes[a.duty.group := ProbeFinished(s.routes[a.duty.group], a.config, a.duty.item, a.failed, now)]
  }

  ghost predicate ProbeExpiredStep(s: Sys, a: Action, now: int, t: Sys)
    requires a.ProbeExpired?
  {
    && Accessed(RouteOf(s, a.group), a.found, set i | i in a.order)
    && t.routes == s.routes[a.group := ClaimedAll(a.found, a.order, now)]
    && t.requests == s.requests && t.probes == Spawn(s.probes, a.group, ClaimsWon(a.found, a.order, now))
  }

  /** A hop is settled: in manual mode a verdict leaves the route alone, a plain release never looks at the mode.
      Releasing may be repeated by a request that has already settled the hop. */
  ghost predicate SettleStep(s: Sys, a: Action, now: int, t: Sys)
    requires a.Succeed? || a.Fail? || a.GiveBack?
  {
    && a.pid in s.requests && t.probes == s.probes
    && t.requests == DropHop(s, a.pid, a.hop)
    && (a.GiveBack? || a.hop in s.requests[a.pid].hops)
    && if a.hop.group !in s.routes || (a.hop.manual && !a.GiveBack?) then t.routes == s.routes
       else
         && a.hop.group in t.routes && t.routes == s.routes[a.hop.group := t.routes[a.hop.group]]
         && var before := s.routes[a.hop.group];
            var after := t.routes[a.hop.group];
            match a
            case Succeed(_, hop, c) => Succeeded(before, after, c, hop.item, now)
            case Fail(_, hop, c, failures, limit) => Failed(before, after, c, hop.item, failures, limit, now)
            case GiveBack(_, hop) => Released(before, after, hop.item)
  }

  ghost predicate Next(s: Sys, a: Action, now: int, t: Sys) {
    && s.clock <= now && t.clock == now
    && match a
       case Enter(pid) =>
         pid !in s.requests && t.requests == s.requests[pid := Request({}, NoBatch)] && t.routes == s.routes && t.probes == s.probes
       case Leave(pid) =>
         && pid in s.requests && s.requests[pid] == Request({}, NoBatch)
         && t.requests == s.requests - {pid} && t.routes == s.routes && t.probes == s.probes
       case PickIn(_, _, _, _, _, _) => PickStep(s, a, now, t)
       case EndBatch(_, _, _) => EndBatchStep(s, a, now, t)
       case ClaimSlot(_, _, _, _, _, _, _) => ClaimSlotStep(s, a, now, t)
       case Adopt(pid, hop) =>
         pid in s.requests && t.requests == AddHop(s, pid, hop) && t.routes == s.routes && t.probes == s.probes
       case EndProbe(_, _, _) => EndProbeStep(s, a, now, t)
       case ProbeExpired(_, _, _) => ProbeExpiredStep(s, a, now, t)
       case Succeed(_, _, _) => SettleStep(s, a, now, t)
       case Fail(_, _, _, _, _) => SettleStep(s, a, now, t)
       case GiveBack(_, _) => SettleStep(s, a, now, t)
       case PostCommitFail(g, c, items, item, found) =>
         && Accessed(RouteOf(s, g), found, items) && t.routes == s.routes[g := PostCommit(found, c, item, now)]
         && t.requests == s.requests && t.probes == s.probes
       case Reset(g) =>
         && t.requests == s.requests && t.probes == s.probes
         && if g !in s.routes then t.routes == s.routes
            else g in t.routes && t.routes == s.routes[g := t.routes[g]] && CooldownsReset(s.routes[g], t.routes[g])
       case Remove(g) => t.requests == s.requests && t.probes == s.probes && t.routes == s.routes - {g}
  }

  // ---- ownership ----

  /** Some request in flight still has to settle a hop on the member. */
  ghost predicate Confirming(s: Sys, g: int, k: int) {
    exists pid :: pid in s.requests && Hop(g, k, false) in s.requests[pid].hops
  }

  ghost predicate Recovering(s: Sys, g: int, k: int) {
    exists pid :: pid in s.requests && s.requests[pid].batch.Batch? && s.requests[pid].batch.group == g
                  && k in s.requests[pid].batch.items
  }

  ghost predicate Owned(s: Sys, g: int, k: int) {
    Duty(g, k) in s.probes || Recovering(s, g, k) || Confirming(s, g, k)
  }

  ghost predicate ProbesOwned(r: Route, s: Sys, g: int) {
    && (forall k :: k in r.halfOpens ==> r.halfOpens[k] > 0 && Owned(s, g, k))
    && (r.probe != 0 ==> Confirming(s, g, r.probe))
  }

  /** No orphaned hold anywhere, and emergency accounting in every group. */
  ghost predicate Inv(s: Sys) {
    && s.clock > 0
    && forall g | g in s.routes :: EmergencyInv(s.routes[g]) && ProbesOwned(s.routes[g], s, g)
  }

  /** No hold is lost on the way from s to t in group g. */
  ghost predicate OwnersKept(s: Sys, t: Sys, g: int) {
    && (forall k :: Owned(s, g, k) ==> Owned(t, g, k))
    && (forall k :: Confirming(s, g, k) ==> Confirming(t, g, k))
  }

  /** The route after is the route before with some holds dropped. */
  predicate Shrunk(r: Route, r': Route) {
    && (forall k :: k in r'.halfOpens ==> k in r.halfOpens && r'.halfOpens[k] == r.halfOpens[k])
    && (r'.probe == r.probe || r'.probe == 0)
  }

  lemma ShrunkStaysOwned(r: Route, r': Route, s: Sys, t: Sys, g: int)
    requires ProbesOwned(r, s, g) && Shrunk(r, r') && OwnersKept(s, t, g)
    ensures ProbesOwned(r', t, g)
  {
  }

  lemma NewRouteOwned(s: Sys, g: int)
    ensures EmergencyInv(NEW_ROUTE) && ProbesOwned(NEW_ROUTE, s, g)
  {
    NewRouteBalances();
  }

  lemma FoundOwned(s: Sys, g: int, found: Route, items: set<int>)
    requires Inv(s) && Accessed(RouteOf(s, g), found, items)
    ensures EmergencyInv(found) && ProbesOwned(found, s, g)
  {
    NewRouteOwned(s, g);
    AccessKeepsSlots(RouteOf(s, g), found, items);
    assert Shrunk(RouteOf(s, g), found);
    assert OwnersKept(s, s, g);
    ShrunkStaysOwned(RouteOf(s, g), found, s, s, g);
  }

  // ---- how requests and probes change ownership ----

  lemma {:induction false} SpawnHas(probes: multiset<Duty>, g: int, items: seq<int>, d: Duty)
    ensures d in Spawn(probes, g, items) <==> d in probes || (d.group == g && d.item in items)
    decreases |items|
  {
    if items != [] {
      SpawnHas(probes + multiset{Duty(g, items[0])}, g, items[1..], d);
      assert items == [items[0]] + items[1..];
    }
  }

  /** Requests only gain hops, probes only grow: nobody loses a hold. */
  lemma GrowingKeepsOwners(s: Sys, t: Sys, g: int)
    requires forall d :: d in s.probes ==> d in t.probes
    requires forall pid | pid in s.requests ::
               && pid in t.requests && s.requests[pid].hops <= t.requests[pid].hops
               && (s.requests[pid].batch.Batch? ==> t.requests[pid].batch == s.requests[pid].batch)
    ensures OwnersKept(s, t, g)
  {
    forall k | Confirming(s, g, k) ensures Confirming(t, g, k) {
      var pid :| pid in s.requests && Hop(g, k, false) in s.requests[pid].hops;
      assert Hop(g, k, false) in t.requests[pid].hops;
    }
    forall k | Recovering(s, g, k) ensures Recovering(t, g, k) {
      var pid :| pid in s.requests && s.requests[pid].batch.Batch? && s.requests[pid].batch.group == g
                 && k in s.requests[pid].batch.items;
      assert t.requests[pid].batch == s.requests[pid].batch;
    }
  }
}
