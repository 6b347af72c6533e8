/** The round loop of a request seen from the routes: what its rounds take and settle, as actions on the shared state. */
module RequestRuns {
  import opened Route
  import opened RouteRuns
  import Rounds = ForwardLoop

  datatype Move = Stay | Gain(hop: Hop) | Settle(hop: Hop)

  function Moved(hops: set<Hop>, m: Move): set<Hop> {
    match m
    case Stay => hops
    case Gain(h) => hops + {h}
    case Settle(h) => hops - {h}
  }

  function MovedAll(hops: set<Hop>, moves: seq<Move>): set<Hop> {
    if moves == [] then hops else Moved(MovedAll(hops, moves[..|moves| - 1]), moves[|moves| - 1])
  }

  /** The hop an action takes or settles for its own request. */
  function MoveOf(s: Sys, a: Action, now: int, pid: int): Move {
    match a
    case PickIn(p, group, order, exclude, disabled, found) =>
      if p != pid then Stay
      else (match PickCore(found, order, exclude, disabled, now).pick
            case Affine(item) => Gain(Hop(group, item, false))
            case Closed(item, _) => Gain(Hop(group, item, false))
            case _ => Stay)
    case EndBatch(p, _, winner) =>
      if p == pid && p in s.requests && s.requests[p].batch.Batch? && s.requests[p].batch.group in s.routes && winner != 0
      then Gain(Hop(s.requests[p].batch.group, winner, false)) else Stay
    case ClaimSlot(p, group, config, items, exclude, disabled, found) =>
      if p == pid && MayServeEmergency(found, config, items, exclude, disabled, now)
      then Gain(Hop(group, config.emergencyItem, false)) else Stay
    case Adopt(p, hop) => if p == pid then Gain(hop) else Stay
    case Succeed(p, hop, _) => if p == pid then Settle(hop) else Stay
    case Fail(p, hop, _, _, _) => if p == pid then Settle(hop) else Stay
    case GiveBack(p, hop) => if p == pid then Settle(hop) else Stay
    case _ => Stay
  }

  /** No step of the system touches the hops of a request except by its own moves. */
  lemma MoveIsExact(s: Sys, a: Action, now: int, t: Sys, pid: int)
    requires Next(s, a, now, t) && pid in s.requests && pid in t.requests
    ensures t.requests[pid].hops == Moved(s.requests[pid].hops, MoveOf(s, a, now, pid))
  {
    hide Accessed, MayServeEmergency, PickCore, EmergencyClaimed, Succeeded, Failed, Released, CooldownsReset;
  }

  /** A run of the system during which the request is in flight. */
  ghost predicate InFlight(run: seq<Sys>, acts: seq<Action>, times: seq<int>, pid: int) {
    && |run| == |acts| + 1 == |times| + 1
    && (forall i | 0 <= i < |acts| :: Next(run[i], acts[i], times[i], run[i + 1]))
    && forall i | 0 <= i < |run| :: pid in run[i].requests
  }

  /** Its moves during the first n steps. */
  function MovesUpTo(run: seq<Sys>, acts: seq<Action>, times: seq<int>, pid: int, n: nat): seq<Move>
    requires n <= |acts| <= |run| && |acts| <= |times|
  {
    if n == 0 then []
    else
      var m := MoveOf(run[n - 1], acts[n - 1], times[n - 1], pid);
      MovesUpTo(run, acts, times, pid, n - 1) + if m == Stay then [] else [m]
  }

  lemma {:induction false} HopsFollow(run: seq<Sys>, acts: seq<Action>, times: seq<int>, pid: int, n: nat)
    requires InFlight(run, acts, times, pid) && n <= |acts|
    ensures run[n].requests[pid].hops == MovedAll(run[0].requests[pid].hops, MovesUpTo(run, acts, times, pid, n))
  {
    if n > 0 {
      HopsFollow(run, acts, times, pid, n - 1);
      assert Next(run[n - 1], acts[n - 1], times[n - 1], run[n]);
      MoveIsExact(run[n - 1], acts[n - 1], times[n - 1], run[n], pid);
      var before := MovesUpTo(run, acts, times, pid, n - 1);
      var m := MoveOf(run[n - 1], acts[n - 1], times[n - 1], pid);
      MovedSnoc(run[0].requests[pid].hops, before, m);
      assert m == Stay ==> before + [] == before;
      hide Next, MoveOf;
    }
  }

  lemma MovedSnoc(hops: set<Hop>, moves: seq<Move>, m: Move)
    ensures MovedAll(hops, moves + [m]) == Moved(MovedAll(hops, moves), m)
  {
    assert (moves + [m])[..|moves|] == moves;
  }

  // ---- the moves of a request's rounds ----

  /** The hop as the routes know it; `manual` tells the mode it was picked in. */
  function Known(h: Rounds.Hop, manual: Rounds.Hop -> bool): Hop {
    Hop(h.group, h.item, manual(h))
  }

  function Gains(hops: seq<Rounds.Hop>, manual: Rounds.Hop -> bool): (r: seq<Move>)
    ensures |r| == |hops| && forall i | 0 <= i < |r| :: r[i] == Gain(Known(hops[i], manual))
  {
    seq(|hops|, i requires 0 <= i < |hops| => Gain(Known(hops[i], manual)))
  }

  function Settlements(hops: seq<Rounds.Hop>, manual: Rounds.Hop -> bool): (r: seq<Move>)
    ensures |r| == |hops| && forall i | 0 <= i < |r| :: r[i] == Settle(Known(hops[i], manual))
  {
    seq(|hops|, i requires 0 <= i < |hops| => Settle(Known(hops[i], manual)))
  }

  function Settled(step: Rounds.Step): seq<Rounds.Hop> {
    step.freed + step.confirmed + (if step.fault.Some? then [step.fault.value.hop] else []) + step.freedAgain
  }

  /** One round: it takes its hops, then settles them. */
  function RoundMoves(step: Rounds.Step, manual: Rounds.Hop -> bool): seq<Move> {
    Gains(step.taken, manual) + Settlements(Settled(step), manual)
  }

  function LogMoves(log: seq<Rounds.Step>, manual: Rounds.Hop -> bool): seq<Move> {
    if log == [] then [] else LogMoves(log[..|log| - 1], manual) + RoundMoves(log[|log| - 1], manual)
  }

  lemma {:induction false} MovedConcat(hops: set<Hop>, a: seq<Move>, b: seq<Move>)
    ensures MovedAll(hops, a + b) == MovedAll(MovedAll(hops, a), b)
    decreases |b|
  {
    if b == [] {
      assert a + b == a;
    } else {
      var n := |b| - 1;
      MovedConcat(hops, a, b[..n]);
      assert (a + b)[..|a| + n] == a + b[..n];
    }
  }

  lemma {:induction false} GainsAdd(hops: set<Hop>, taken: seq<Rounds.Hop>, manual: Rounds.Hop -> bool)
    ensures MovedAll(hops, Gains(taken, manual)) == hops + set h | h in taken :: Known(h, manual)
    decreases |taken|
  {
    if taken != [] {
      var n := |taken| - 1;
      GainsAdd(hops, taken[..n], manual);
      assert Gains(taken, manual)[..n] == Gains(taken[..n], manual);
      assert taken == taken[..n] + [taken[n]];
    }
  }

  lemma {:induction false} SettlementsDrop(hops: set<Hop>, settled: seq<Rounds.Hop>, manual: Rounds.Hop -> bool)
    ensures MovedAll(hops, Settlements(settled, manual)) == hops - set h | h in settled :: Known(h, manual)
    decreases |settled|
  {
    if settled != [] {
      var n := |settled| - 1;
      SettlementsDrop(hops, settled[..n], manual);
      assert Settlements(settled, manual)[..n] == Settlements(settled[..n], manual);
      assert settled == settled[..n] + [settled[n]];
    }
  }

  lemma RoundIsBalanced(step: Rounds.Step, manual: Rounds.Hop -> bool)
    requires Rounds.Settles(step)
    ensures MovedAll({}, RoundMoves(step, manual)) == {}
  {
    MovedConcat({}, Gains(step.taken, manual), Settlements(Settled(step), manual));
    GainsAdd({}, step.taken, manual);
    SettlementsDrop(MovedAll({}, Gains(step.taken, manual)), Settled(step), manual);
    assert forall h | h in step.taken :: h in Settled(step);
  }

  lemma {:induction false} LogIsBalanced(log: seq<Rounds.Step>, states: seq<Rounds.State>, n: nat, manual: Rounds.Hop -> bool)
    requires Rounds.History(log, states) && n <= |log|
    ensures MovedAll({}, LogMoves(log[..n], manual)) == {}
  {
    if n > 0 {
      LogIsBalanced(log, states, n - 1, manual);
      assert Rounds.Sound(states[n - 1], log[n - 1], states[n]);
      assert log[..n][..n - 1] == log[..n - 1];
      hide RoundMoves;
      MovedConcat({}, LogMoves(log[..n - 1], manual), RoundMoves(log[n - 1], manual));
      RoundIsBalanced(log[n - 1], manual);
    }
  }

  /** However it interleaves with everybody else, a request whose moves are those of its rounds holds no hop at the end and,
      with no batch under way, may leave. */
  lemma RequestMayLeave(run: seq<Sys>, acts: seq<Action>, times: seq<int>, pid: int,
                        log: seq<Rounds.Step>, states: seq<Rounds.State>, manual: Rounds.Hop -> bool)
    requires InFlight(run, acts, times, pid) && run[0].requests[pid] == Request({}, NoBatch)
    requires Rounds.History(log, states) && MovesUpTo(run, acts, times, pid, |acts|) == LogMoves(log, manual)
    requires run[|acts|].requests[pid].batch.NoBatch?
    ensures run[|acts|].requests[pid] == Request({}, NoBatch)
  {
    HopsFollow(run, acts, times, pid, |acts|);
    LogIsBalanced(log, states, |log|, manual);
    assert log[..|log|] == log;
  }
}
