/** Requests per minute over a sliding window of admission times, per channel key or per client key. */
module RpmWindow {

  /** Window length in milliseconds. */
  const W := 60000

  /** The times inside the window: leading entries at or before the cutoff are dropped. */
  function Trim(window: seq<int>, cutoff: int): seq<int> {
    if window == [] || window[0] > cutoff then window else Trim(window[1..], cutoff)
  }

  datatype Permit = Permit(window: seq<int>, wait: int, ok: bool)

  function TryPermit(window: seq<int>, rpm: int, now: int): Permit
    requires rpm > 0
  {
    var w := Trim(window, now - W);
    if |w| >= rpm then Permit(w, w[|w| - rpm] + W - now, false) else Permit(w + [now], 0, true)
  }

  /** The table of windows, one per key reference. */
  class Windows {
    var table: map<int, seq<int>>

    constructor ()
      ensures table == map[]
    {
      table := map[];
    }

    function Window(ref: int): seq<int>
      reads this
    {
      if ref in table then table[ref] else []
    }

    /** One attempt under the lock; a limit that is not positive means no limit and forgets the window. */
    method Try(ref: int, rpm: int, now: int) returns (wait: int, ok: bool)
      modifies this
      ensures rpm <= 0 ==> ok && wait == 0 && table == old(table) - {ref}
      ensures rpm > 0 ==> var p := TryPermit(old(Window(ref)), rpm, now);
                          ok == p.ok && wait == p.wait && table == old(table)[ref := p.window]
    {
      if rpm <= 0 {
        table := table - {ref};
        return 0, true;
      }
      var window := Window(ref);
      var start := 0;
      while start < |window| && window[start] <= now - W
        invariant 0 <= start <= |window|
        invariant Trim(window[start..], now - W) == Trim(window, now - W)
      {
        assert window[start..][1..] == window[start + 1..];
        start := start + 1;
      }
      window := window[start..];
      if |window| >= rpm {
        wait := window[|window| - rpm] + W - now;
        table := table[ref := window];
        return wait, false;
      }
      table := table[ref := window + [now]];
      return 0, true;
    }
  }

  // ---- one refusal ----

  predicate Sorted(s: seq<int>) {
    forall i, j | 0 <= i <= j < |s| :: s[i] <= s[j]
  }

  /** On a sorted window trimming keeps exactly the entries after the cutoff, and they are a suffix. */
  lemma {:induction false} TrimKeeps(s: seq<int>, cutoff: int)
    requires Sorted(s)
    ensures var t := Trim(s, cutoff);
            && |t| <= |s| && t == s[|s| - |t|..] && Sorted(t)
            && (forall i | 0 <= i < |s| - |t| :: s[i] <= cutoff)
            && (forall i | 0 <= i < |t| :: t[i] > cutoff)
  {
    if s != [] && s[0] <= cutoff {
      TrimKeeps(s[1..], cutoff);
      var t := Trim(s[1..], cutoff);
      assert s[1..][|s| - 1 - |t|..] == s[|s| - |t|..];
      assert forall i | 0 < i < |s| - |t| :: s[i] == s[1..][i - 1];
    }
  }

  lemma WaitInOrder(window: seq<int>, rpm: int, now: int, later: int)
    requires Sorted(window) && rpm > 0 && now <= later && !TryPermit(window, rpm, now).ok
    ensures TryPermit(window, rpm, now).wait > 0
    ensures TryPermit(TryPermit(window, rpm, now).window, rpm, later).ok <==> later >= now + TryPermit(window, rpm, now).wait
  {
    TrimKeeps(window, now - W);
    var t := Trim(window, now - W);
    TrimKeeps(t, later - W);
    var u := Trim(t, later - W);
    hide Trim;
    if |u| < rpm {
      assert t[|t| - rpm] <= later - W;
    } else {
      assert t[|t| - rpm] == u[|u| - rpm];
    }
  }

  lemma WaitWithinLimit(window: seq<int>, rpm: int, now: int, later: int)
    requires |window| <= rpm && rpm > 0 && now <= later && !TryPermit(window, rpm, now).ok
    ensures TryPermit(window, rpm, now).wait > 0
    ensures TryPermit(TryPermit(window, rpm, now).window, rpm, later).ok <==> later >= now + TryPermit(window, rpm, now).wait
  {
    TrimFirst(window, now - W);
    TrimFirst(Trim(window, now - W), later - W);
    hide Trim;
  }

  /** The wait returned on refusal is positive and exact: if nobody else is admitted, a retry is admitted from
      now + wait on and at no time before. The order of a window that never grew beyond the limit does not matter. */
  lemma WaitIsExact(window: seq<int>, rpm: int, now: int, later: int)
    requires (Sorted(window) || |window| <= rpm) && rpm > 0 && now <= later && !TryPermit(window, rpm, now).ok
    ensures TryPermit(window, rpm, now).wait > 0
    ensures TryPermit(TryPermit(window, rpm, now).window, rpm, later).ok <==> later >= now + TryPermit(window, rpm, now).wait
  {
    hide TryPermit;
    if Sorted(window) {
      WaitInOrder(window, rpm, now, later);
    } else {
      WaitWithinLimit(window, rpm, now, later);
    }
  }

  lemma {:induction false} TrimFirst(s: seq<int>, cutoff: int)
    ensures var t := Trim(s, cutoff);
            |t| <= |s| && (t != [] ==> t[0] > cutoff) && (|t| == |s| <==> s == [] || s[0] > cutoff)
  {
    if s != [] && s[0] <= cutoff {
      TrimFirst(s[1..], cutoff);
    }
  }

  /** Whole seconds reported to a client, at least one. */
  function RetryAfter(wait: int): int {
    var seconds := (wait + 999) / 1000;
    if seconds < 1 then 1 else seconds
  }

  /** Retry-After is the least number of whole seconds after which a retry is admitted. */
  lemma RetryAfterIsLeast(window: seq<int>, rpm: int, now: int, seconds: nat)
    requires (Sorted(window) || |window| <= rpm) && rpm > 0 && !TryPermit(window, rpm, now).ok
    ensures TryPermit(TryPermit(window, rpm, now).window, rpm, now + 1000 * seconds).ok
            <==> seconds >= RetryAfter(TryPermit(window, rpm, now).wait)
  {
    WaitIsExact(window, rpm, now, now + 1000 * seconds);
    hide TryPermit;
  }

  // ---- whole runs ----

  /** The window and all admission times after calls at the given times. */
  datatype Trace = Trace(window: seq<int>, admitted: seq<int>)

  function Calls(times: seq<int>, rpm: int): Trace
    requires rpm > 0
  {
    if times == [] then Trace([], [])
    else
      var before := Calls(times[..|times| - 1], rpm);
      var now := times[|times| - 1];
      var p := TryPermit(before.window, rpm, now);
      Trace(p.window, if p.ok then before.admitted + [now] else before.admitted)
  }

  lemma CallsSnoc(times: seq<int>, rpm: int, now: int)
    requires rpm > 0
    ensures var before := Calls(times, rpm);
            var p := TryPermit(before.window, rpm, now);
            Calls(times + [now], rpm) == Trace(p.window, if p.ok then before.admitted + [now] else before.admitted)
  {
    assert (times + [now])[..|times|] == times;
  }

  /** The clock is read before the lock is taken, so call times may fall back in lock order, by at most d. */
  predicate FallsBy(times: seq<int>, d: nat) {
    forall i, j | 0 <= i < j < |times| :: times[i] - times[j] <= d
  }

  /** Admissions in the window (t - W, t]. */
  function Count(admitted: seq<int>, t: int): nat {
    if admitted == [] then 0
    else
      var n := |admitted| - 1;
      Count(admitted[..n], t) + if t - W < admitted[n] <= t then 1 else 0
  }

  /** An admission and those rpm or more places before it lie at least `span` apart. */
  predicate Spaced(s: seq<int>, rpm: int, span: int)
    requires rpm > 0
  {
    forall i, j | 0 <= i <= j - rpm && j < |s| :: s[j] - s[i] >= span
  }

  lemma SpacedSnoc(s: seq<int>, rpm: int, span: int, now: int)
    requires rpm > 0 && Spaced(s, rpm, span) && forall i | 0 <= i <= |s| - rpm :: now - s[i] >= span
    ensures Spaced(s + [now], rpm, span)
  {
  }

  /** Trimming drops a prefix of entries at or before the cutoff. */
  lemma {:induction false} TrimDrops(s: seq<int>, cutoff: int)
    ensures var t := Trim(s, cutoff); |t| <= |s| && t == s[|s| - |t|..] && forall i | 0 <= i < |s| - |t| :: s[i] <= cutoff
  {
    if s != [] && s[0] <= cutoff {
      TrimDrops(s[1..], cutoff);
      var t := Trim(s[1..], cutoff);
      assert s[1..][|s| - 1 - |t|..] == s[|s| - |t|..];
      assert forall i | 0 < i < |s| - |t| :: s[i] == s[1..][i - 1];
    }
  }

  /** The window is the end of the admissions, never longer than the limit, and every older one left it at or before some
      call time. */
  ghost predicate Tracks(t: Trace, rpm: int, top: int) {
    && |t.window| <= rpm && |t.window| <= |t.admitted| && t.window == t.admitted[|t.admitted| - |t.window|..]
    && forall i | 0 <= i < |t.admitted| - |t.window| :: t.admitted[i] <= top - W
  }

  lemma CallTracks(t: Trace, rpm: int, last: int, top: int, now: int)
    requires rpm > 0 && Tracks(t, rpm, last) && last <= top && now <= top
    ensures var p := TryPermit(t.window, rpm, now);
            && Tracks(Trace(p.window, if p.ok then t.admitted + [now] else t.admitted), rpm, top)
            && (p.ok ==> forall i | 0 <= i <= |t.admitted| - rpm :: t.admitted[i] <= top - W)
  {
    var a, w, n := t.admitted, Trim(t.window, now - W), |t.admitted|;
    TrimDrops(t.window, now - W);
    hide Trim;
    assert w == a[n - |w|..];
    forall i | 0 <= i < n - |w| ensures a[i] <= top - W {
      assert i >= n - |t.window| ==> a[i] == t.window[i - (n - |t.window|)];
    }
    assert (a + [now])[n - |w|..] == w + [now];
  }

  function Top(times: seq<int>): (top: int)
    requires times != []
    ensures top in times && forall x | x in times :: x <= top
  {
    var n := |times| - 1;
    assert times == times[..n] + [times[n]];
    if n == 0 then times[0]
    else
      var before := Top(times[..n]);
      if before > times[n] then before else times[n]
  }

  lemma TopFalls(times: seq<int>, d: nat)
    requires FallsBy(times, d) && times != []
    ensures Top(times) - times[|times| - 1] <= d
  {
    hide Top;
    var i :| 0 <= i < |times| && times[i] == Top(times);
  }

  lemma TopGrows(times: seq<int>, d: nat)
    requires FallsBy(times, d) && |times| > 1
    ensures Top(times[..|times| - 1]) <= Top(times) && FallsBy(times[..|times| - 1], d)
  {
  }

  lemma CallKeepsSpan(t: Trace, rpm: int, d: nat, last: int, top: int, now: int)
    requires rpm > 0 && Tracks(t, rpm, last) && last <= top && now <= top && top - now <= d && Spaced(t.admitted, rpm, W - d)
    ensures var p := TryPermit(t.window, rpm, now);
            var after := Trace(p.window, if p.ok then t.admitted + [now] else t.admitted);
            Tracks(after, rpm, top) && Spaced(after.admitted, rpm, W - d)
  {
    CallTracks(t, rpm, last, top, now);
    hide TryPermit, Tracks;
    if TryPermit(t.window, rpm, now).ok {
      SpacedSnoc(t.admitted, rpm, W - d, now);
    }
  }

  /** In every run whose call times fall back by at most d, any rpm + 1 admissions span at least W - d. */
  lemma {:induction false} AdmissionsSpan(times: seq<int>, rpm: int, d: nat)
    requires rpm > 0 && FallsBy(times, d)
    ensures Spaced(Calls(times, rpm).admitted, rpm, W - d)
    ensures times != [] ==> Tracks(Calls(times, rpm), rpm, Top(times))
    decreases |times|
  {
    if times != [] {
      var n := |times| - 1;
      TopFalls(times, d);
      hide FallsBy, TryPermit, Top;
      if n > 0 {
        TopGrows(times, d);
        AdmissionsSpan(times[..n], rpm, d);
      } else {
        assert Tracks(Trace([], []), rpm, times[0]);
      }
      hide Tracks, Spaced;
      CallKeepsSpan(Calls(times[..n], rpm), rpm, d, if n == 0 then times[0] else Top(times[..n]), Top(times), times[n]);
    }
  }

  /** With a limit of one, an admission empties the window itself, so order does not matter. */
  lemma {:induction false} OneIsSpaced(times: seq<int>)
    ensures Spaced(Calls(times, 1).admitted, 1, W)
    ensures var t := Calls(times, 1); times != [] ==> t.admitted != [] && t.window == [t.admitted[|t.admitted| - 1]]
    decreases |times|
  {
    if times != [] {
      var n := |times| - 1;
      var now, t := times[n], Calls(times[..n], 1);
      OneIsSpaced(times[..n]);
      if n > 0 && t.window[0] <= now - W {
        assert Trim(t.window, now - W) == [];
        SpacedSnoc(t.admitted, 1, W, now);
      }
    }
  }

  lemma {:induction false} CountAfter(s: seq<int>, t: int, k: nat)
    requires k <= |s| && forall i | 0 <= i < k :: !(t - W < s[i] <= t)
    ensures Count(s, t) <= |s| - k
    decreases |s|
  {
    if k < |s| {
      CountAfter(s[..|s| - 1], t, k);
    } else if s != [] {
      CountAfter(s[..|s| - 1], t, k - 1);
    }
  }

  lemma {:induction false} SpacedCounts(s: seq<int>, rpm: int, t: int)
    requires rpm > 0 && Spaced(s, rpm, W)
    ensures Count(s, t) <= rpm
    decreases |s|
  {
    if s != [] {
      var n := |s| - 1;
      if t - W < s[n] <= t {
        CountAfter(s, t, if |s| > rpm then |s| - rpm else 0);
      } else {
        SpacedCounts(s[..n], rpm, t);
      }
    }
  }

  /** With a fixed limit, any window of any run holds at most rpm admissions when the call times do not fall back in lock
      order, and with a limit of one in every order. */
  lemma AtMostRpmPerWindow(times: seq<int>, rpm: int, t: int)
    requires rpm > 0 && (rpm == 1 || FallsBy(times, 0))
    ensures Count(Calls(times, rpm).admitted, t) <= rpm
  {
    if rpm == 1 {
      OneIsSpaced(times);
    } else {
      AdmissionsSpan(times, rpm, 0);
    }
    SpacedCounts(Calls(times, rpm).admitted, rpm, t);
  }

  function Zeros(n: nat): (s: seq<int>)
    ensures |s| == n && forall i | 0 <= i < n :: s[i] == 0
  {
    seq(n, _ => 0)
  }

  /** rpm calls at once, one a full window later, and one whose clock was read d earlier. */
  function StaleRun(rpm: nat, d: nat): seq<int> {
    Zeros(rpm) + [W] + [W - d]
  }

  lemma {:induction false} ZerosAdmitted(n: nat, rpm: nat)
    requires 0 < rpm && n <= rpm
    ensures Calls(Zeros(n), rpm) == Trace(Zeros(n), Zeros(n))
  {
    if n > 0 {
      ZerosAdmitted(n - 1, rpm);
      assert Zeros(n) == Zeros(n - 1) + [0];
      assert Trim(Zeros(n - 1), -W) == Zeros(n - 1);
    }
  }

  lemma {:induction false} ZerosDropped(n: nat)
    ensures Trim(Zeros(n), 0) == []
  {
    if n > 0 {
      assert Zeros(n)[1..] == Zeros(n - 1);
      ZerosDropped(n - 1);
    }
  }

  lemma {:induction false} ZerosCounted(n: nat, t: int)
    requires t - W < 0 <= t
    ensures Count(Zeros(n), t) == n
  {
    if n > 0 {
      assert Zeros(n)[..n - 1] == Zeros(n - 1);
      ZerosCounted(n - 1, t);
    }
  }

  lemma StaleRunAdmitted(rpm: nat, d: nat)
    requires rpm >= 2 && 0 < d
    ensures Calls(StaleRun(rpm, d), rpm).admitted == StaleRun(rpm, d)
  {
    var z, t := Zeros(rpm), W - d;
    ZerosAdmitted(rpm, rpm);
    ZerosDropped(rpm);
    CallsSnoc(z, rpm, W);
    assert Trim([W], t - W) == [W];
    hide Calls;
    CallsSnoc(z + [W], rpm, t);
  }

  /** Any step back breaks the bound for every limit above one: all calls of this run are admitted, rpm + 1 of them within
      one window, and the span W - d is reached. */
  lemma StaleClockBreaksBound(rpm: nat, d: nat)
    requires rpm >= 2 && 0 < d <= W
    ensures var a := Calls(StaleRun(rpm, d), rpm).admitted;
            FallsBy(StaleRun(rpm, d), d) && a == StaleRun(rpm, d) && a[rpm + 1] - a[1] == W - d && Count(a, W - d) == rpm + 1
  {
    var z, t := Zeros(rpm), W - d;
    StaleRunAdmitted(rpm, d);
    ZerosCounted(rpm, t);
    hide Calls;
    assert (z + [W])[..rpm] == z && (z + [W] + [t])[..rpm + 1] == z + [W];
    assert Count(z + [W], t) == rpm;
  }

  ghost predicate BoundHolds(rpm: int, d: nat)
    requires rpm > 0
  {
    forall times, t | FallsBy(times, d) :: Count(Calls(times, rpm).admitted, t) <= rpm
  }

  /** The exact reach of the bound: it holds for all runs whose call times fall back by at most d only for a limit of one or
      a clock that never falls back. */
  lemma BoundHoldsIff(rpm: int, d: nat)
    requires rpm > 0
    ensures BoundHolds(rpm, d) <==> rpm == 1 || d == 0
  {
    if rpm == 1 || d == 0 {
      forall times, t | FallsBy(times, d) ensures Count(Calls(times, rpm).admitted, t) <= rpm {
        AtMostRpmPerWindow(times, rpm, t);
      }
    } else {
      StaleClockBreaksBound(rpm, 1);
      assert FallsBy(StaleRun(rpm, 1), d);
    }
  }
}
