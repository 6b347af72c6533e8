/** The validity window: events read ahead before anything is committed to the client. */
module StreamWindow {
  import opened Collections
  import opened StreamEvents

  const MAX_EVENTS := 4096
  const MAX_BYTES := 8 * 1024 * 1024

  datatype Refusal = OverBudget | FailedEvent | AbnormalEvent | ZeroOutput | ReadError | EarlyEof

  datatype Window =
    | Ready(events: seq<Event>, terminated: bool)   // when terminated, the stream is also used up
    | Refused(why: Refusal)

  /** What the aggregated window reports: the output tokens when the upstream told them, and the finish reason. */
  datatype Usage = Unknown | Usage(tokens: int)

  predicate RejectsUsage(usage: Usage, reason: string) {
    usage.Usage? && usage.tokens == 0 && reason !in EMPTY_OUTPUT_REASONS
  }

  /** The events the window looks at: empty ones are skipped. */
  function Filled(items: seq<Item>): seq<Event> {
    if items == [] then []
    else if items[0].Got? && items[0].event.size > 0 then [items[0].event] + Filled(items[1..])
    else Filled(items[1..])
  }

  predicate InBudget(s: seq<Event>) {
    |s| <= MAX_EVENTS && TotalSize(s) <= MAX_BYTES
  }

  /** An event that says nothing yet: reading goes on behind it. */
  predicate Idle(e: Event) {
    !e.verdict.failed && !e.verdict.abnormal && !e.verdict.terminal && !e.verdict.content
  }

  /** The first n events say nothing yet and stay within budget. */
  ghost predicate IdlePrefix(s: seq<Event>, n: nat) {
    n <= |s| && forall i | 0 <= i < n :: Idle(s[i]) && InBudget(s[..i + 1])
  }

  /** Position n is where reading stops. */
  ghost predicate Decided(s: seq<Event>, n: nat) {
    n < |s| && IdlePrefix(s, n) && (!Idle(s[n]) || !InBudget(s[..n + 1]))
  }

  /** The verdict on a window by its last event, which is the one that decides. */
  ghost predicate Judged(win: seq<Event>, rejected: bool, w: Window)
    requires win != []
  {
    var v := win[|win| - 1].verdict;
    if !InBudget(win) then w == Refused(OverBudget)
    else if v.failed then w == Refused(FailedEvent)
    else if v.abnormal then w == Refused(AbnormalEvent)
    else if v.terminal && rejected then w == Refused(ZeroOutput)
    else w == Ready(win, v.terminal)
  }

  /** One event behind an idle window: `done` when it decides. */
  method Judge(window: seq<Event>, bytes: nat, event: Event, usage: Usage, reason: string)
    returns (done: bool, w: Window)
    requires bytes == TotalSize(window + [event])
    ensures done <==> !Idle(event) || !InBudget(window + [event])
    ensures done ==> Judged(window + [event], RejectsUsage(usage, reason), w)
  {
    hide TotalSize, RejectsUsage;
    w := Refused(EarlyEof);
    if |window| + 1 > MAX_EVENTS || bytes > MAX_BYTES {
      return true, Refused(OverBudget);
    }
    if event.verdict.failed {
      return true, Refused(FailedEvent);
    }
    if event.verdict.abnormal {
      return true, Refused(AbnormalEvent);
    }
    if event.verdict.terminal {
      if RejectsUsage(usage, reason) {
        return true, Refused(ZeroOutput);
      }
      return true, Ready(window + [event], true);
    }
    if event.verdict.content {
      return true, Ready(window + [event], false);
    }
    done := false;
  }

  /** The outcome of reading a stream whose filled events are `s`, deciding at position n or not at all. */
  ghost predicate Read(s: seq<Event>, n: nat, usage: Usage, reason: string, broken: bool, w: Window) {
    if n < |s| then
      Decided(s, n) && Judged(s[..n + 1], RejectsUsage(usage, reason), w)
    else IdlePrefix(s, |s|) && w == Refused(if broken then ReadError else EarlyEof)
  }

  /** Reads until the first event that decides. `usage` and `reason` are what aggregating the window yields when it ends
      with a terminal event, `broken` whether the reader ended with an error. `used` counts the items taken from the
      stream, `n` is the deciding position. */
  method ReadWindow(items: seq<Item>, usage: Usage, reason: string, broken: bool)
    returns (w: Window, used: nat, ghost n: nat)
    ensures used <= |items|
    ensures w.Ready? ==> Filled(items[..used]) == w.events
    ensures Read(Filled(items), n, usage, reason, broken, w)
  {
    hide InBudget, TotalSize, RejectsUsage, Filled, Idle, Judged, IdlePrefix, Read, Reached;
    var window: seq<Event> := [];
    var bytes := 0;
    used, n := 0, 0;
    StartsReading(items);
    while used < |items|
      invariant 0 <= used <= |items| && n == |window| && bytes == TotalSize(window)
      invariant Reached(items, used, window)
    {
      var item := items[used];
      used := used + 1;
      if item.Nothing? || item.event.size == 0 {
        SkipsItem(items, used - 1, window);
        continue;
      }
      MeetsItem(items, used - 1, window);
      bytes := bytes + item.event.size;
      var done, verdict := Judge(window, bytes, item.event, usage, reason);
      if done {
        DecidedReads(Filled(items), n, usage, reason, broken, verdict);
        JudgedEvents(window + [item.event], RejectsUsage(usage, reason), verdict);
        return verdict, used, n;
      }
      TakesItem(items, used - 1, window);
      window := window + [item.event];
      n := n + 1;
    }
    w := Refused(if broken then ReadError else EarlyEof);
    NothingDecided(items, window, usage, reason, broken);
  }

  /** The window so far: the filled events of the first `used` items, all of them idle. */
  ghost predicate Reached(items: seq<Item>, used: nat, window: seq<Event>) {
    && used <= |items| && window == Filled(items[..used]) && window + Filled(items[used..]) == Filled(items)
    && IdlePrefix(Filled(items), |window|)
  }

  lemma StartsReading(items: seq<Item>)
    ensures Reached(items, 0, []) && TotalSize([]) == 0
  {
    assert items[..0] == [] && items[0..] == items;
  }

  lemma SkipsItem(items: seq<Item>, n: nat, window: seq<Event>)
    requires n < |items| && Reached(items, n, window) && (items[n].Nothing? || items[n].event.size == 0)
    ensures Reached(items, n + 1, window)
  {
    FilledStep(items, n);
    hide Filled, IdlePrefix;
  }

  lemma MeetsItem(items: seq<Item>, n: nat, window: seq<Event>)
    requires n < |items| && Reached(items, n, window) && items[n].Got? && items[n].event.size > 0
    ensures var s, m := Filled(items), |window|;
            m < |s| && s[m] == items[n].event && s[..m + 1] == window + [items[n].event] && IdlePrefix(s, m)
    ensures window + [items[n].event] == Filled(items[..n + 1])
    ensures TotalSize(window + [items[n].event]) == TotalSize(window) + items[n].event.size
  {
    FilledStep(items, n);
    TotalSizeSnoc(window, items[n].event);
    hide Filled, IdlePrefix, TotalSize;
    Extends(window, items[n].event, Filled(items[n + 1..]), Filled(items));
  }

  lemma TakesItem(items: seq<Item>, n: nat, window: seq<Event>)
    requires n < |items| && Reached(items, n, window) && items[n].Got? && items[n].event.size > 0
    requires Idle(items[n].event) && InBudget(window + [items[n].event])
    ensures Reached(items, n + 1, window + [items[n].event])
  {
    FilledStep(items, n);
    MeetsItem(items, n, window);
    IdleGrows(Filled(items), |window|);
    hide Filled, IdlePrefix, TotalSize;
    Extends(window, items[n].event, Filled(items[n + 1..]), Filled(items));
  }

  lemma IdleGrows(s: seq<Event>, n: nat)
    requires n < |s| && IdlePrefix(s, n) && Idle(s[n]) && InBudget(s[..n + 1])
    ensures IdlePrefix(s, n + 1)
  {
    forall i | 0 <= i < n + 1 ensures Idle(s[i]) && InBudget(s[..i + 1]) {
      if i == n {
        assert s[..i + 1] == s[..n + 1];
      }
    }
  }

  lemma DecidedReads(s: seq<Event>, n: nat, usage: Usage, reason: string, broken: bool, w: Window)
    requires n < |s| && IdlePrefix(s, n) && (!Idle(s[n]) || !InBudget(s[..n + 1]))
    requires Judged(s[..n + 1], RejectsUsage(usage, reason), w)
    ensures Read(s, n, usage, reason, broken, w)
  {
    assert n < |s|;
    assert Decided(s, n);
    assert Judged(s[..n + 1], RejectsUsage(usage, reason), w);
  }

  lemma JudgedEvents(win: seq<Event>, rejected: bool, w: Window)
    requires win != [] && Judged(win, rejected, w)
    ensures w.Ready? ==> w.events == win
  {
  }

  lemma NothingDecided(items: seq<Item>, window: seq<Event>, usage: Usage, reason: string, broken: bool)
    requires Reached(items, |items|, window)
    ensures Read(Filled(items), |window|, usage, reason, broken, Refused(if broken then ReadError else EarlyEof))
  {
    assert items[..|items|] == items;
  }

  lemma Extends(done: seq<Event>, e: Event, rest: seq<Event>, all: seq<Event>)
    requires done + ([e] + rest) == all
    ensures |done| < |all| && all[|done|] == e && all[..|done| + 1] == done + [e] && (done + [e]) + rest == all
  {
  }

  /** At most one position decides, so the verdict on a stream is unique. */
  lemma OneDecision(s: seq<Event>, n: nat, m: nat)
    requires Decided(s, n) && Decided(s, m)
    ensures n == m
  {
  }

  lemma FilledStep(items: seq<Item>, n: nat)
    requires n < |items|
    ensures var here := if items[n].Got? && items[n].event.size > 0 then [items[n].event] else [];
            && Filled(items[n..]) == here + Filled(items[n + 1..])
            && Filled(items[..n + 1]) == Filled(items[..n]) + here
  {
    assert items[n..][1..] == items[n + 1..];
    SliceSnoc(items, n);
    FilledConcat(items[..n], [items[n]]);
  }

  lemma FilledHead(items: seq<Item>)
    requires items != []
    ensures Filled(items) == (if items[0].Got? && items[0].event.size > 0 then [items[0].event] else []) + Filled(items[1..])
  {
  }

  lemma {:induction false} FilledConcat(a: seq<Item>, b: seq<Item>)
    ensures Filled(a + b) == Filled(a) + Filled(b)
  {
    if a == [] {
      assert a + b == b;
    } else {
      assert (a + b)[1..] == a[1..] + b;
      FilledHead(a + b);
      FilledHead(a);
      hide Filled;
      FilledConcat(a[1..], b);
      AppendAssoc(if a[0].Got? && a[0].event.size > 0 then [a[0].event] else [], Filled(a[1..]), Filled(b));
    }
  }

  /** A committed window holds no failed and no abnormal event, stays within budget, and ends with the only event that
      carries content or ends the stream. */
  lemma ReadyIsClean(s: seq<Event>, n: nat, rejected: bool, w: Window)
    requires Decided(s, n) && Judged(s[..n + 1], rejected, w) && w.Ready?
    ensures w.events == s[..n + 1] && InBudget(w.events)
    ensures forall i | 0 <= i < n :: Idle(w.events[i])
    ensures !w.events[n].verdict.failed && !w.events[n].verdict.abnormal
    ensures w.terminated == w.events[n].verdict.terminal
    ensures !w.terminated ==> w.events[n].verdict.content
  {
    var win := s[..n + 1];
    assert win[|win| - 1] == s[n];
    assert InBudget(win) && !Idle(s[n]);
  }

  /** A terminal event is refused for zero output exactly when the upstream told a count of zero and its finish reason does not
      explain an empty answer; an untold count is never held against it. */
  lemma ZeroOutputMeans(s: seq<Event>, n: nat, usage: Usage, reason: string, broken: bool, w: Window)
    requires Read(s, n, usage, reason, broken, w)
    ensures w == Refused(ZeroOutput) <==>
              && n < |s| && InBudget(s[..n + 1]) && s[n].verdict.terminal && !s[n].verdict.failed && !s[n].verdict.abnormal
              && usage == Usage.Usage(0) && reason !in {"length", "max_tokens", "tool_calls", "tool_use", "function_call"}
  {
    hide InBudget, IdlePrefix;
  }
}
