/** Continuous concurrency counting under changing limits, with wake-ups for waiting callers. */
module ConcurrencyLimit {

  // ---- the counter ----

  /** The counter of one channel or key. `generation` identifies the wake channel: closing and rebuilding it is a new
      generation, and a waiter wakes as soon as the generation it captured is over. */
  class Gate {
    var active: nat
    var generation: nat

    constructor ()
      ensures active == 0 && generation == 0
    {
      active, generation := 0, 0;
    }

    /** One attempt under the lock: admitted below the limit, otherwise the current generation is captured. */
    method TryEnter(limit: int) returns (admitted: bool, seen: nat)
      modifies this
      ensures admitted == (old(active) < limit)
      ensures active == if admitted then old(active) + 1 else old(active)
      ensures generation == old(generation) == seen
    {
      seen := generation;
      if active < limit {
        active := active + 1;
        return true, seen;
      }
      admitted := false;
    }

    method Leave()
      modifies this
      ensures active == if old(active) > 0 then old(active) - 1 else 0
      ensures generation == old(generation) + 1
    {
      if active > 0 {
        active := active - 1;
      }
      generation := generation + 1;
    }
  }

  /** The release function handed to an admitted caller; only its first call counts. A call without limit gets one that
      does nothing. */
  class Ticket {
    const gate: Gate?
    var given: bool

    constructor (gate: Gate?)
      ensures this.gate == gate && !given
    {
      this.gate := gate;
      given := false;
    }

    method Give()
      modifies this, gate
      ensures given
      ensures gate != null ==>
                if old(given) then gate.active == old(gate.active) && gate.generation == old(gate.generation)
                else gate.active == (if old(gate.active) > 0 then old(gate.active) - 1 else 0)
                     && gate.generation == old(gate.generation) + 1
    {
      if given {
        return;
      }
      given := true;
      if gate != null {
        gate.Leave();
      }
    }
  }

  // ---- callers interleaving ----

  datatype Counter = Counter(active: nat, generation: nat)

  /** A caller between its critical sections. */
  datatype Caller =
    | Trying(gate: nat, limit: int)
    | Waiting(gate: nat, limit: int, seen: nat)
    | Holding(gate: nat)

  /** Every counter ever created, the table that names the current one of each channel, and the callers in flight. */
  datatype Sys = Sys(gates: seq<Counter>, table: map<int, nat>, callers: map<int, Caller>)

  datatype Action =
    | Arrive(pid: int, channel: int, limit: int)
    | Attempt(pid: int)
    | Wake(pid: int)
    | GiveUp(pid: int)
    | Release(pid: int)
    | Cleanup(channel: int)

  function Entered(s: Sys, pid: int, g: nat): Sys
    requires g < |s.gates|
  {
    s.(gates := s.gates[g := s.gates[g].(active := s.gates[g].active + 1)], callers := s.callers[pid := Holding(g)])
  }

  function Left(c: Counter): Counter {
    Counter(if c.active > 0 then c.active - 1 else 0, c.generation + 1)
  }

  /** One critical section of one caller. A limit that is not positive never reaches the counter. */
  predicate Next(s: Sys, a: Action, t: Sys) {
    match a
    case Arrive(pid, channel, limit) =>
      && pid !in s.callers && limit > 0
      && if channel in s.table then t == s.(callers := s.callers[pid := Trying(s.table[channel], limit)])
         else t == Sys(s.gates + [Counter(0, 0)], s.table[channel := |s.gates|],
                       s.callers[pid := Trying(|s.gates|, limit)])
    case Attempt(pid) =>
      && pid in s.callers && s.callers[pid].Trying? && s.callers[pid].gate < |s.gates|
      && var g := s.callers[pid].gate;
         var limit := s.callers[pid].limit;
         if s.gates[g].active < limit then t == Entered(s, pid, g)
         else t == s.(callers := s.callers[pid := Waiting(g, limit, s.gates[g].generation)])
    case Wake(pid) =>
      && pid in s.callers && s.callers[pid].Waiting? && s.callers[pid].gate < |s.gates|
      && s.gates[s.callers[pid].gate].generation != s.callers[pid].seen
      && t == s.(callers := s.callers[pid := Trying(s.callers[pid].gate, s.callers[pid].limit)])
    case GiveUp(pid) =>
      && pid in s.callers && !s.callers[pid].Holding?
      && t == s.(callers := s.callers - {pid})
    case Release(pid) =>
      && pid in s.callers && s.callers[pid].Holding? && s.callers[pid].gate < |s.gates|
      && var g := s.callers[pid].gate;
         t == s.(gates := s.gates[g := Left(s.gates[g])], callers := s.callers - {pid})
    case Cleanup(channel) => t == s.(table := s.table - {channel})
  }

  /** The callers whose handle on counter g is not given back yet. */
  function Holders(s: Sys, g: nat): set<int> {
    set pid | pid in s.callers && s.callers[pid] == Holding(g)
  }

  /** The count of every counter is exactly the number of its unreleased handles, and a waiter whose generation is still
      open really finds the gate full. */
  predicate Inv(s: Sys) {
    && (forall g | 0 <= g < |s.gates| :: s.gates[g].active == |Holders(s, g)|)
    && (forall pid | pid in s.callers :: s.callers[pid].gate < |s.gates|)
    && (forall channel | channel in s.table :: s.table[channel] < |s.gates|)
    && (forall pid | pid in s.callers && s.callers[pid].Waiting? ::
          var c := s.gates[s.callers[pid].gate];
          s.callers[pid].seen <= c.generation && (s.callers[pid].seen == c.generation ==> c.active >= s.callers[pid].limit))
  }

  const START := Sys([], map[], map[])

  lemma HoldersAdd(s: Sys, t: Sys, pid: int, g: nat)
    requires pid !in Holders(s, g) && t.callers == s.callers[pid := Holding(g)]
    ensures |Holders(t, g)| == |Holders(s, g)| + 1
  {
    assert Holders(t, g) == Holders(s, g) + {pid};
  }

  lemma HoldersDrop(s: Sys, t: Sys, pid: int, g: nat)
    requires pid in Holders(s, g) && t.callers == s.callers - {pid}
    ensures |Holders(t, g)| == |Holders(s, g)| - 1
  {
    assert Holders(t, g) == Holders(s, g) - {pid};
  }

  lemma HoldersSame(s: Sys, t: Sys, g: nat)
    requires forall pid :: (pid in s.callers && s.callers[pid] == Holding(g)) <==> (pid in t.callers && t.callers[pid] == Holding(g))
    ensures Holders(t, g) == Holders(s, g)
  {
    assert forall pid :: pid in Holders(t, g) <==> pid in Holders(s, g);
  }

  lemma StepKeepsInv(s: Sys, a: Action, t: Sys)
    requires Inv(s) && Next(s, a, t)
    ensures Inv(t)
  {
    forall g | 0 <= g < |t.gates| ensures t.gates[g].active == |Holders(t, g)| {
      CountKept(s, a, t, g);
    }
    hide Holders;
    WaitersKept(s, a, t);
  }

  lemma CountKept(s: Sys, a: Action, t: Sys, g: nat)
    requires Inv(s) && Next(s, a, t) && g < |t.gates|
    ensures t.gates[g].active == |Holders(t, g)|
  {
    if a.Attempt? && s.callers[a.pid].gate == g && s.gates[g].active < s.callers[a.pid].limit {
      assert a.pid !in Holders(s, g);
      HoldersAdd(s, t, a.pid, g);
    } else if a.Release? && s.callers[a.pid].gate == g {
      assert a.pid in Holders(s, g);
      HoldersDrop(s, t, a.pid, g);
    } else {
      HoldersSame(s, t, g);
      if g == |s.gates| {
        NobodyHolds(s, g);
      }
    }
  }

  lemma NobodyHolds(s: Sys, g: nat)
    requires forall pid | pid in s.callers :: s.callers[pid].gate < g
    ensures Holders(s, g) == {}
  {
    assert forall pid :: pid !in Holders(s, g);
  }

  lemma WaitersKept(s: Sys, a: Action, t: Sys)
    requires Inv(s) && Next(s, a, t)
    ensures forall pid | pid in t.callers :: t.callers[pid].gate < |t.gates|
    ensures forall channel | channel in t.table :: t.table[channel] < |t.gates|
    ensures forall pid | pid in t.callers && t.callers[pid].Waiting? ::
              var c := t.gates[t.callers[pid].gate];
              t.callers[pid].seen <= c.generation && (t.callers[pid].seen == c.generation ==> c.active >= t.callers[pid].limit)
  {
    hide Holders;
  }

  ghost predicate Run(states: seq<Sys>, acts: seq<Action>) {
    && |states| == |acts| + 1 && states[0] == START
    && forall i | 0 <= i < |acts| :: Next(states[i], acts[i], states[i + 1])
  }

  lemma {:induction false} RunKeepsInv(states: seq<Sys>, acts: seq<Action>, n: nat)
    requires Run(states, acts) && n <= |acts|
    ensures Inv(states[n])
  {
    if n > 0 {
      RunKeepsInv(states, acts, n - 1);
      hide Inv, Next;
      StepKeepsInv(states[n - 1], acts[n - 1], states[n]);
    }
  }

  /** In every interleaving, under any mix of limits: an attempt is admitted exactly while fewer than `limit` handles are
      out, so a lowered limit admits nobody before the counter has drained below it. */
  lemma AdmissionRespectsLimit(states: seq<Sys>, acts: seq<Action>, n: nat, pid: int)
    requires Run(states, acts) && n < |acts| && acts[n] == Attempt(pid)
    ensures var s, t := states[n], states[n + 1];
            var g, limit := s.callers[pid].gate, s.callers[pid].limit;
            && (t.callers[pid].Holding? <==> |Holders(s, g)| < limit)
            && (t.callers[pid].Holding? ==> pid in Holders(t, g) && |Holders(t, g)| <= limit)
  {
    RunKeepsInv(states, acts, n);
    RunKeepsInv(states, acts, n + 1);
    assert Next(states[n], acts[n], states[n + 1]);
  }

  /** No wake-up is lost: a waiter that could be admitted now can wake up now. */
  lemma NoLostWakeup(states: seq<Sys>, acts: seq<Action>, n: nat, pid: int)
    requires Run(states, acts) && n <= |acts| && pid in states[n].callers && states[n].callers[pid].Waiting?
    ensures var s := states[n];
            var w := s.callers[pid];
            |Holders(s, w.gate)| < w.limit ==> exists t :: Next(s, Wake(pid), t)
  {
    RunKeepsInv(states, acts, n);
    hide Holders, Run;
    var s := states[n];
    var w := s.callers[pid];
    assert s.gates[w.gate].active == |Holders(s, w.gate)|;
    if s.gates[w.gate].active < w.limit {
      var t := s.(callers := s.callers[pid := Trying(w.gate, w.limit)]);
      assert Next(s, Wake(pid), t);
    }
  }

  lemma {:induction false} GenerationsGrow(states: seq<Sys>, acts: seq<Action>, i: nat, j: nat, g: nat)
    requires Run(states, acts) && i <= j <= |acts| && g < |states[i].gates|
    ensures g < |states[j].gates| && states[i].gates[g].generation <= states[j].gates[g].generation
    decreases j
  {
    if i < j {
      GenerationsGrow(states, acts, i, j - 1, g);
      assert Next(states[j - 1], acts[j - 1], states[j]);
    }
  }

  /** A release is never missed: whoever waited on the counter when it happened and still waits on the same generation can
      wake up at any later moment, whatever happened in between. */
  lemma ReleaseWakes(states: seq<Sys>, acts: seq<Action>, i: nat, j: nat, n: nat, pid: int, other: int)
    requires Run(states, acts) && i <= j < n <= |acts| && acts[j] == Release(other)
    requires pid in states[i].callers && states[i].callers[pid].Waiting?
    requires pid in states[n].callers && states[n].callers[pid] == states[i].callers[pid]
    requires other in states[j].callers && states[j].callers[other].gate == states[i].callers[pid].gate
    ensures exists t :: Next(states[n], Wake(pid), t)
  {
    var w := states[i].callers[pid];
    RunKeepsInv(states, acts, i);
    assert Next(states[j], acts[j], states[j + 1]);
    GenerationsGrow(states, acts, i, j, w.gate);
    GenerationsGrow(states, acts, j + 1, n, w.gate);
    var s := states[n];
    assert s.gates[w.gate].generation > w.seen;
    assert Next(s, Wake(pid), s.(callers := s.callers[pid := Trying(w.gate, w.limit)]));
  }

  /** A handle is counted until its own release and no other step gives it back, not even a cleanup of its channel. */
  lemma OnlyReleaseFrees(s: Sys, a: Action, t: Sys, pid: int, g: nat)
    requires Inv(s) && Next(s, a, t) && pid in Holders(s, g)
    ensures pid in Holders(t, g) <==> a != Release(pid)
  {
  }
}
