/** The committed stream: events forwarded one by one, bad terminators suppressed, and the final outcome. */
module StreamLoop {
  import opened Collections
  import opened StreamEvents
  import StreamWindow

  /** What happens when an event is encoded and written to the client. */
  datatype Fate = Fine | EncodeFails | WriteFails

  /** Budgets, 0 is no limit; `chat` is the OpenAI Chat protocol, the only one with the finish-reason exemption. */
  datatype Setup = Setup(chat: bool, maxBytes: int, maxEvents: int)

  /** What the loop finds at the end: the idle timer fired, the reader reports an error, aggregation failed,
      the client's context is alive, the administrator stopped the request. */
  datatype Env = Env(idleFired: bool, readErr: bool, aggregateFails: bool, live: bool, stopped: bool)

  /** Why forwarding ended. */
  datatype Stop =
    | Drained            // the upstream ended without a terminal event
    | Delivered          // the upstream's terminal event was written
    | FailureDelivered   // an error frame was written
    | Abnormal           // the next event carries an abnormal finish reason
    | Answerless         // the next event stops a round that only reasoned
    | OverBudget
    | EncodeFailed
    | WriteFailed

  datatype Outcome = Outcome(
    written: seq<Event>,
    synthetic: bool,     // the protocol's terminal frames are appended
    success: bool,
    strike: bool,        // a post-commit failure is recorded against the member
    freed: bool)         // the hops are released once more

  predicate Closing(e: Event) {
    e.verdict.terminal || e.verdict.failed
  }

  ghost predicate InBudget(c: Setup, s: seq<Event>, i: nat)
    requires i < |s|
  {
    && (c.maxBytes > 0 ==> TotalSize(s[..i + 1]) <= c.maxBytes)
    && (c.maxEvents > 0 ==> i + 1 <= c.maxEvents)
  }

  predicate Answers(s: seq<Event>) {
    exists e | e in s :: e.verdict.answer
  }

  predicate Reasons(s: seq<Event>) {
    exists e | e in s :: e.verdict.reasoning
  }

  predicate Finishes(s: seq<Event>) {
    exists e | e in s :: e.verdict.finishSeen
  }

  /** A natural stop while the round up to and including it has reasoning but no answer. */
  predicate AnswerlessAt(s: seq<Event>, i: nat)
    requires i < |s|
  {
    s[i].verdict.stopFinish && Reasons(s[..i + 1]) && !Answers(s[..i + 1])
  }

  ghost predicate Passes(c: Setup, s: seq<Event>, fate: nat -> Fate, i: nat)
    requires i < |s|
  {
    InBudget(c, s, i) && !s[i].verdict.abnormal && !AnswerlessAt(s, i) && fate(i) == Fine
  }

  /** The first n events pass, and only the last of them may close the stream. */
  ghost predicate Forwarded(c: Setup, s: seq<Event>, fate: nat -> Fate, n: nat) {
    && n <= |s|
    && (forall i | 0 <= i < n :: Passes(c, s, fate, i))
    && (forall i | 0 <= i < n - 1 :: !Closing(s[i]))
  }

  /** Event n is not forwarded, for the given reason. */
  ghost predicate HaltsAt(c: Setup, s: seq<Event>, fate: nat -> Fate, n: nat, stop: Stop)
    requires n < |s|
  {
    if stop.OverBudget? then !InBudget(c, s, n)
    else
      && InBudget(c, s, n)
      && if stop.Abnormal? then s[n].verdict.abnormal
         else
           && !s[n].verdict.abnormal
           && if stop.Answerless? then AnswerlessAt(s, n)
              else !AnswerlessAt(s, n) && fate(n) == if stop.EncodeFailed? then EncodeFails else WriteFails
  }

  /** Forwarding ends after exactly n events of s, for the given reason. */
  ghost predicate StopsAt(c: Setup, s: seq<Event>, fate: nat -> Fate, n: nat, stop: Stop) {
    && Forwarded(c, s, fate, n)
    && if stop.Delivered? then n > 0 && s[n - 1].verdict.terminal && !s[n - 1].verdict.failed
       else if stop.FailureDelivered? then n > 0 && s[n - 1].verdict.failed
       else
         && (n > 0 ==> !Closing(s[n - 1]))
         && if stop.Drained? then n == |s| else n < |s| && HaltsAt(c, s, fate, n, stop)
  }

  /** An abnormal event was met: the one forwarding stopped at, or one behind an answerless stop while the rest of the
      stream was still being read for its usage. */
  ghost predicate Polluted(c: Setup, s: seq<Event>, n: nat, stop: Stop) {
    || stop.Abnormal?
    || (stop.Answerless? && exists j | n < j < |s| :: PollutedBehind(c, s, n, j))
  }

  ghost predicate PollutedBehind(c: Setup, s: seq<Event>, n: nat, j: nat)
    requires n < j < |s|
  {
    s[j].verdict.abnormal && (forall i | n <= i < j :: !Closing(s[i]) && !(n < i && s[i].verdict.abnormal)) && InBudget(c, s, j)
  }

  // ---- the loop ----

  /** The variables of the loop. `err` is set by the first failure and never cleared. */
  datatype Progress = Progress(
    written: seq<Event>, polluted: bool, quiet: bool, err: bool, gone: bool, last: bool, terminalSeen: bool,
    answered: bool, reasoned: bool, finished: bool)

  ghost predicate Forwarding(p: Progress, c: Setup, s: seq<Event>, fate: nat -> Fate, m: nat, terminated: bool) {
    && !p.polluted && !p.quiet && !p.gone
    && m <= |s| && p.written == s[..m] && Forwarded(c, s, fate, m)
    && p.answered == Answers(s[..m]) && p.reasoned == Reasons(s[..m]) && p.finished == Finishes(s[..m])
    && p.last == (m > 0 && Closing(s[m - 1]))
    && p.terminalSeen == (terminated || p.last)
    && p.err == (m > 0 && s[m - 1].verdict.failed)
  }

  /** Nothing is written any more; the rest is read for its usage. */
  ghost predicate Draining(p: Progress, c: Setup, s: seq<Event>, fate: nat -> Fate, m: nat, stop: Stop) {
    var n := |p.written|;
    && (p.polluted || p.quiet) && !p.gone
    && n < m <= |s| && p.written == s[..n]
    && StopsAt(c, s, fate, n, stop) && (stop.Abnormal? || stop.Answerless?)
    && (p.polluted ==> Polluted(c, s, n, stop))
    && (!p.polluted ==> stop.Answerless? && !p.last && forall i | n <= i < m :: !s[i].verdict.abnormal && !Closing(s[i]))
  }

  lemma FlagsSnoc(s: seq<Event>, m: nat)
    requires m < |s|
    ensures Answers(s[..m + 1]) == (Answers(s[..m]) || s[m].verdict.answer)
    ensures Reasons(s[..m + 1]) == (Reasons(s[..m]) || s[m].verdict.reasoning)
    ensures Finishes(s[..m + 1]) == (Finishes(s[..m]) || s[m].verdict.finishSeen)
  {
    SliceSnoc(s, m);
    var a, e := s[..m], s[m];
    forall x ensures x in s[..m + 1] <==> x in a || x == e {
    }
  }

  /** The loop is over. */
  ghost predicate Ended(p: Progress, c: Setup, s: seq<Event>, fate: nat -> Fate, terminated: bool, stop: Stop) {
    var n := |p.written|;
    && n <= |s| && p.written == s[..n]
    && StopsAt(c, s, fate, n, stop)
    && p.polluted == Polluted(c, s, n, stop)
    && (stop.Answerless? ==> p.polluted || p.quiet)
    && (!p.polluted && !p.quiet ==> !stop.Answerless?)
    && (stop.Delivered? ==> !p.err && p.terminalSeen && !p.quiet)
    && (stop.Drained? ==> !p.err && p.terminalSeen == terminated && !p.quiet && p.finished == Finishes(s))
    && (stop.OverBudget? || stop.FailureDelivered? || stop.EncodeFailed? || stop.WriteFailed? ==> p.err)
    && p.gone == stop.WriteFailed?
  }

  /** The flags after looking at the event, before deciding what to do with it. */
  ghost predicate Looked(p: Progress, q: Progress, v: Verdict) {
    q == p.(answered := p.answered || v.answer, reasoned := p.reasoned || v.reasoning, finished := p.finished || v.finishSeen,
            last := p.last || v.failed || v.terminal, terminalSeen := p.terminalSeen || v.failed || v.terminal,
            err := p.err || v.failed)
  }

  method Look(p: Progress, v: Verdict) returns (q: Progress)
    ensures Looked(p, q, v)
  {
    q := p.(answered := p.answered || v.answer, reasoned := p.reasoned || v.reasoning, finished := p.finished || v.finishSeen);
    if v.failed || v.terminal {
      q := q.(last := true, terminalSeen := true);
      if !q.err {
        q := q.(err := v.failed);
      }
    }
  }

  lemma AbnormalDrains(p: Progress, q: Progress, c: Setup, s: seq<Event>, fate: nat -> Fate, m: nat, terminated: bool)
    requires Forwarding(p, c, s, fate, m, terminated) && !p.last
    requires m < |s| && InBudget(c, s, m) && s[m].verdict.abnormal
    requires q.written == p.written && q.polluted && !q.gone
    ensures Draining(q, c, s, fate, m + 1, Abnormal)
  {
    hide Answers, Reasons, Finishes, InBudget, Passes;
  }

  lemma AnswerlessDrains(p: Progress, q: Progress, c: Setup, s: seq<Event>, fate: nat -> Fate, m: nat, terminated: bool)
    requires Forwarding(p, c, s, fate, m, terminated) && !p.last
    requires m < |s| && InBudget(c, s, m) && !s[m].verdict.abnormal && AnswerlessAt(s, m)
    requires q.written == p.written && !q.polluted && q.quiet && !q.gone && q.last == Closing(s[m])
    ensures if q.last then Ended(q, c, s, fate, terminated, Answerless) else Draining(q, c, s, fate, m + 1, Answerless)
  {
    hide Answers, Reasons, Finishes, InBudget, Passes, AnswerlessAt;
  }

  /** A write or encoding failure ends the loop. */
  lemma FailedWriteEnds(p: Progress, q: Progress, c: Setup, s: seq<Event>, fate: nat -> Fate, m: nat, terminated: bool)
    requires Forwarding(p, c, s, fate, m, terminated) && !p.last
    requires m < |s| && InBudget(c, s, m) && !s[m].verdict.abnormal && !AnswerlessAt(s, m) && fate(m) != Fine
    requires q.written == p.written && !q.polluted && !q.quiet && q.err && q.gone == (fate(m) == WriteFails)
    ensures Ended(q, c, s, fate, terminated, if fate(m) == EncodeFails then EncodeFailed else WriteFailed)
  {
    hide Answers, Reasons, Finishes, InBudget, Passes, AnswerlessAt;
  }

  lemma WrittenGoesOn(p: Progress, q: Progress, c: Setup, s: seq<Event>, fate: nat -> Fate, m: nat, terminated: bool)
    requires Forwarding(p, c, s, fate, m, terminated) && !p.last
    requires m < |s| && Passes(c, s, fate, m) && Looked(p, q.(written := p.written), s[m].verdict)
    requires q.written == p.written + [s[m]]
    ensures Forwarding(q, c, s, fate, m + 1, terminated)
    ensures q.last ==> Ended(q, c, s, fate, terminated, if s[m].verdict.failed then FailureDelivered else Delivered)
  {
    FlagsSnoc(s, m);
    SliceSnoc(s, m);
    hide Answers, Reasons, Finishes, Passes;
  }

  /** The body of the loop while events are forwarded; the event is within budget. */
  method Offer(p: Progress, event: Event, c: Setup, ghost s: seq<Event>, fate: nat -> Fate, ghost m: nat,
               ghost terminated: bool)
    returns (q: Progress, exit: bool, ghost stop: Stop)
    requires Forwarding(p, c, s, fate, m, terminated) && !p.last
    requires m < |s| && s[m] == event && InBudget(c, s, m)
    ensures !exit ==> (Forwarding(q, c, s, fate, m + 1, terminated) && !q.last) || Draining(q, c, s, fate, m + 1, stop)
    ensures exit ==> Ended(q, c, s, fate, terminated, stop)
  {
    var v := event.verdict;
    q := Look(p, v);
    assert v.stopFinish && q.reasoned && !q.answered <==> AnswerlessAt(s, m) by {
      FlagsSnoc(s, m);
    }
    hide InBudget, AnswerlessAt, Forwarded, Draining, Ended;
    if v.abnormal {
      q := q.(polluted := true);
      AbnormalDrains(p, q, c, s, fate, m, terminated);
      return q, false, Abnormal;
    }
    if v.stopFinish && q.reasoned && !q.answered {
      q := q.(quiet := true);
      AnswerlessDrains(p, q, c, s, fate, m, terminated);
      return q, q.last, Answerless;
    }
    var f := fate(|q.written|);
    if f == EncodeFails {
      q := q.(err := true);
      FailedWriteEnds(p, q, c, s, fate, m, terminated);
      return q, true, EncodeFailed;
    }
    if f == WriteFails {
      q := q.(err := true, gone := true);
      FailedWriteEnds(p, q, c, s, fate, m, terminated);
      return q, true, WriteFailed;
    }
    q := q.(written := q.written + [event]);
    WrittenGoesOn(p, q, c, s, fate, m, terminated);
    return q, q.last, if v.failed then FailureDelivered else Delivered;
  }

  /** The body of the loop once nothing is written any more; only an abnormal or a closing event still matters. */
  method Drain(p: Progress, event: Event, c: Setup, ghost s: seq<Event>, fate: nat -> Fate, ghost m: nat,
               ghost terminated: bool, ghost stop: Stop)
    returns (q: Progress, exit: bool)
    requires Draining(p, c, s, fate, m, stop)
    requires m < |s| && s[m] == event && InBudget(c, s, m)
    ensures if exit then Ended(q, c, s, fate, terminated, stop) else Draining(q, c, s, fate, m + 1, stop)
  {
    hide InBudget, StopsAt;
    if p.polluted {
      return p, false;
    }
    q := Look(p, event.verdict);
    if event.verdict.abnormal {
      assert PollutedBehind(c, s, |p.written|, m);
      return q.(polluted := true), false;
    }
    exit := q.last;
  }

  lemma {:induction false} TotalSizeGrows(s: seq<Event>, i: nat, j: nat)
    requires i <= j <= |s|
    ensures TotalSize(s[..i]) <= TotalSize(s[..j])
    decreases j
  {
    if i < j {
      TotalSizeGrows(s, i, j - 1);
      SliceSnoc(s, j - 1);
      TotalSizeSnoc(s[..j - 1], s[j - 1]);
    }
  }

  lemma OverBudgetStays(c: Setup, s: seq<Event>, m: nat, j: nat)
    requires m <= j < |s| && !InBudget(c, s, m)
    ensures !InBudget(c, s, j)
  {
    TotalSizeGrows(s, m + 1, j + 1);
  }

  /** The loop ends because the stream is used up, or because event m is over budget. */
  lemma EndsHere(p: Progress, c: Setup, s: seq<Event>, fate: nat -> Fate, m: nat, terminated: bool, stop: Stop)
    requires m == |s| || (m < |s| && !InBudget(c, s, m))
    ensures Forwarding(p, c, s, fate, m, terminated) && !p.last && m == |s| ==> Ended(p, c, s, fate, terminated, Drained)
    ensures Forwarding(p, c, s, fate, m, terminated) && !p.last && m < |s| ==>
              Ended(p.(err := true), c, s, fate, terminated, OverBudget)
    ensures Draining(p, c, s, fate, m, stop) ==>
              Ended(p, c, s, fate, terminated, stop) && Ended(p.(err := true), c, s, fate, terminated, stop)
  {
    forall j | m <= j < |s| ensures !InBudget(c, s, j) {
      OverBudgetStays(c, s, m, j);
    }
    assert s[..|s|] == s;
    hide InBudget, Passes, AnswerlessAt, Answers, Reasons, Finishes;
  }

  lemma PollutedEnds(p: Progress, c: Setup, s: seq<Event>, fate: nat -> Fate, m: nat, terminated: bool, stop: Stop)
    requires Draining(p, c, s, fate, m, stop) && p.polluted
    ensures Ended(p, c, s, fate, terminated, stop)
  {
    hide StopsAt;
  }

  /** Counting the next event and checking the budget. */
  lemma BudgetChecked(c: Setup, s: seq<Event>, m: nat, bytes: nat)
    requires m < |s| && bytes == TotalSize(s[..m])
    ensures TotalSize(s[..m + 1]) == bytes + s[m].size
    ensures InBudget(c, s, m) <==>
            !(c.maxBytes > 0 && bytes + s[m].size > c.maxBytes) && !(c.maxEvents > 0 && m + 1 > c.maxEvents)
  {
    SliceSnoc(s, m);
    TotalSizeSnoc(s[..m], s[m]);
  }

  lemma NextFromWindow(s: seq<Event>, m: nat, w: seq<Event>, rest: seq<Event>)
    requires m <= |s| && s[m..] == w + rest && w != []
    ensures m < |s| && s[m] == w[0] && s[m + 1..] == w[1..] + rest
  {
    assert s[m..][0] == s[m] && s[m..][1..] == s[m + 1..];
    assert (w + rest)[1..] == w[1..] + rest;
  }

  lemma NextFromStream(s: seq<Event>, m: nat, items: seq<Item>, j: nat)
    requires m <= |s| && j < |items| && s[m..] == Present(items[j..])
    ensures items[j].Nothing? ==> s[m..] == Present(items[j + 1..])
    ensures items[j].Got? ==> m < |s| && s[m] == items[j].event && s[m + 1..] == Present(items[j + 1..])
  {
    assert items[j..][1..] == items[j + 1..];
    if items[j].Got? {
      assert s[m..] == [items[j].event] + Present(items[j + 1..]);
      assert s[m] == s[m..][0] && s[m + 1..] == s[m..][1..];
    }
  }

  /** Writes the window, then the rest of the stream, until something ends it. */
  method Pump(c: Setup, window: seq<Event>, terminated: bool, rest: seq<Item>, fate: nat -> Fate)
    returns (p: Progress, ghost stop: Stop)
    ensures Ended(p, c, window + Present(rest), fate, terminated, stop)
  {
    hide Forwarding, Draining, Ended, InBudget, Present, TotalSize;
    ghost var s := window + Present(rest);
    p := Progress([], false, false, false, false, false, terminated, false, false, false);
    StartsForwarding(p, c, s, fate, terminated);
    var w := window;
    var j: nat, events: nat, bytes: nat := 0, 0, 0;
    stop := Drained;
    while true
      invariant j <= |rest| && events <= |s|
      invariant s[events..] == w + Present(rest[j..])
      invariant bytes == TotalSize(s[..events])
      invariant (Forwarding(p, c, s, fate, events, terminated) && !p.last && !p.polluted && !p.quiet)
             || (Draining(p, c, s, fate, events, stop) && (p.polluted || (p.quiet && !p.last)))
      decreases |w| + |rest| - j
    {
      var event: Event;
      if |w| > 0 {
        NextFromWindow(s, events, w, Present(rest[j..]));
        event := w[0];
        w := w[1..];
      } else {
        if p.last {
          PollutedEnds(p, c, s, fate, events, terminated, stop);
          return;
        }
        assert s[events..] == Present(rest[j..]);
        if j == |rest| {
          NothingLeft(s, events, rest);
          EndsHere(p, c, s, fate, events, terminated, stop);
          if !p.polluted && !p.quiet {
            stop := Drained;
          }
          return;
        }
        NextFromStream(s, events, rest, j);
        j := j + 1;
        if rest[j - 1].Nothing? {
          continue;
        }
        event := rest[j - 1].event;
      }
      BudgetChecked(c, s, events, bytes);
      bytes := bytes + event.size;
      events := events + 1;
      if (c.maxBytes > 0 && bytes > c.maxBytes) || (c.maxEvents > 0 && events > c.maxEvents) {
        EndsHere(p, c, s, fate, events - 1, terminated, stop);
        if !p.polluted && !p.quiet {
          stop := OverBudget;
        }
        p := p.(err := true);
        return;
      }
      var exit: bool;
      if p.polluted || p.quiet {
        p, exit := Drain(p, event, c, s, fate, events - 1, terminated, stop);
      } else {
        p, exit, stop := Offer(p, event, c, s, fate, events - 1, terminated);
      }
      if exit {
        return;
      }
      PhaseFlags(p, c, s, fate, events, terminated, stop);
    }
  }

  lemma StartsForwarding(p: Progress, c: Setup, s: seq<Event>, fate: nat -> Fate, terminated: bool)
    requires p == Progress([], false, false, false, false, false, terminated, false, false, false)
    ensures Forwarding(p, c, s, fate, 0, terminated)
    ensures TotalSize(s[..0]) == 0
  {
  }

  lemma NothingLeft(s: seq<Event>, m: nat, items: seq<Item>)
    requires m <= |s| && s[m..] == Present(items[|items|..])
    ensures m == |s|
  {
  }

  lemma PhaseFlags(p: Progress, c: Setup, s: seq<Event>, fate: nat -> Fate, m: nat, terminated: bool, stop: Stop)
    ensures Forwarding(p, c, s, fate, m, terminated) ==> !p.polluted && !p.quiet
    ensures Draining(p, c, s, fate, m, stop) ==> p.polluted || (p.quiet && !p.last)
  {
    hide StopsAt, Forwarded;
  }

  // ---- the outcome ----

  /** The decisions after the loop. */
  method Conclude(p: Progress, c: Setup, env: Env) returns (o: Outcome)
    ensures o.written == p.written
    ensures o.success <==>
            && !p.err && !env.idleFired && !env.readErr && !p.polluted && !p.quiet && !env.aggregateFails
            && (p.terminalSeen || (c.chat && p.finished))
    ensures o.synthetic <==>
            && (p.written != [] || p.gone) && !p.gone && env.live
            && (p.polluted || (o.success && !p.terminalSeen))
    ensures o.strike <==> !o.success && !env.stopped && env.live && !p.gone
    ensures o.freed <==> !o.success && env.stopped
  {
    var err := p.err;
    if !err && env.idleFired {
      err := true;
    }
    if !err && env.readErr {
      err := true;
    }
    var failure := err;
    if p.polluted {
      failure := false;
    } else if p.quiet && !err {
      failure := true;
    } else if !err && !p.terminalSeen {
      if !(c.chat && p.finished) {
        failure := true;
      }
    }
    if !failure && !p.polluted && !p.quiet && env.aggregateFails {
      failure := true;
    }
    var committed := p.written != [] || p.gone;
    o := Outcome(p.written, false, true, false, false);
    if committed && !p.gone && env.live && !failure && (!p.terminalSeen || p.polluted) {
      o := o.(synthetic := true);
    }
    if err || p.polluted || failure {
      o := o.(success := false);
      if env.stopped {
        return o.(freed := true);
      }
      if env.live && !p.gone {
        o := o.(strike := true);
      }
    }
  }

  /** Nothing went wrong behind the loop. */
  predicate Clean(env: Env) {
    !env.idleFired && !env.readErr && !env.aggregateFails
  }

  /** How a stream that was forwarded to `stop` is concluded: nothing went wrong behind the loop and the terminal event was
      delivered, or a chat stream with a whitelisted finish reason drained; what is appended, recorded and released. */
  ghost predicate Concluded(c: Setup, s: seq<Event>, env: Env, o: Outcome, stop: Stop)
    requires |o.written| <= |s|
  {
    && (o.success <==>
          && !env.idleFired && !env.readErr && !env.aggregateFails
          && (stop.Delivered? || (stop.Drained? && c.chat && Finishes(s))))
    && (o.synthetic <==>
          && o.written != [] && env.live && !stop.WriteFailed?
          && (Polluted(c, s, |o.written|, stop) || (o.success && stop.Drained?)))
    && (o.strike <==> !o.success && !env.stopped && env.live && !stop.WriteFailed?)
    && (o.freed <==> !o.success && env.stopped)
  }

  /** A committed stream. `terminated` says that the window ended with the protocol's terminal event. */
  method ForwardStream(c: Setup, window: seq<Event>, terminated: bool, rest: seq<Item>, fate: nat -> Fate, env: Env)
    returns (o: Outcome, ghost stop: Stop)
    requires terminated ==> window != [] && window[|window| - 1].verdict.terminal
    ensures var s := window + Present(rest);
            && |o.written| <= |s| && o.written == s[..|o.written|] && StopsAt(c, s, fate, |o.written|, stop)
            && Concluded(c, s, env, o, stop)
  {
    var p: Progress;
    p, stop := Pump(c, window, terminated, rest, fate);
    o := Conclude(p, c, env);
    ghost var s := window + Present(rest);
    DrainedHasNoEnd(c, s, fate, |p.written|, stop);
    assert terminated ==> s[|window| - 1].verdict.terminal;
    hide StopsAt, Polluted, Finishes, Present;
  }

  lemma DrainedHasNoEnd(c: Setup, s: seq<Event>, fate: nat -> Fate, n: nat, stop: Stop)
    requires StopsAt(c, s, fate, n, stop)
    ensures stop.Drained? ==> forall i | 0 <= i < |s| :: !s[i].verdict.terminal && !s[i].verdict.failed
  {
    hide Passes;
  }

  /** Every event written passed all checks: no abnormal finish reason reaches the client, and nothing follows a
      terminal event or an error frame. */
  lemma WrittenIsClean(c: Setup, s: seq<Event>, fate: nat -> Fate, n: nat, stop: Stop)
    requires StopsAt(c, s, fate, n, stop)
    ensures n <= |s|
    ensures forall e | e in s[..n] :: !e.verdict.abnormal
    ensures forall i | 0 <= i < n - 1 :: !s[i].verdict.terminal && !s[i].verdict.failed
    ensures stop.Delivered? <==> n > 0 && s[n - 1].verdict.terminal && !s[n - 1].verdict.failed
    ensures stop.FailureDelivered? <==> n > 0 && s[n - 1].verdict.failed
  {
    forall e | e in s[..n] ensures !e.verdict.abnormal {
      var i :| 0 <= i < n && s[i] == e;
      assert Passes(c, s, fate, i);
    }
    hide InBudget, AnswerlessAt;
  }

  /** How far the stream gets and why it ends is determined by the events: nothing deliverable is held back. */
  lemma StopIsUnique(c: Setup, s: seq<Event>, fate: nat -> Fate, n: nat, stop: Stop, n': nat, stop': Stop)
    requires StopsAt(c, s, fate, n, stop) && StopsAt(c, s, fate, n', stop')
    ensures n == n' && stop == stop'
  {
    NoEarlierStop(c, s, fate, n, stop, n', stop');
    NoEarlierStop(c, s, fate, n', stop', n, stop);
    hide InBudget, AnswerlessAt;
  }

  lemma NoEarlierStop(c: Setup, s: seq<Event>, fate: nat -> Fate, n: nat, stop: Stop, n': nat, stop': Stop)
    requires StopsAt(c, s, fate, n, stop) && StopsAt(c, s, fate, n', stop')
    ensures n >= n'
  {
    hide InBudget, AnswerlessAt;
    assert n < n' ==> Passes(c, s, fate, n);
  }

  /** A whole upstream round of a streaming request: the window decides whether anything is committed, then everything
      readable is forwarded. */
  method DeliverRound(c: Setup, items: seq<Item>, usage: StreamWindow.Usage, reason: string, broken: bool,
                      fate: nat -> Fate, env: Env)
    returns (committed: bool, o: Outcome, used: nat, ghost stop: Stop, ghost w: StreamWindow.Window, ghost n: nat)
    ensures StreamWindow.Read(StreamWindow.Filled(items), n, usage, reason, broken, w) && (committed <==> w.Ready?)
    ensures !committed ==> o == Outcome([], false, false, false, false)
    ensures committed ==>
              && used <= |items| && StreamWindow.Filled(items[..used]) == w.events
              && var s := w.events + Present(items[used..]);
                 && |o.written| <= |s| && o.written == s[..|o.written|]
                 && (forall e | e in o.written :: !e.verdict.abnormal)
                 && StopsAt(c, s, fate, |o.written|, stop)
                 && Concluded(c, s, env, o, stop)
                 && (o.success ==>
                      || (o.written != [] && o.written[|o.written| - 1].verdict.terminal && !o.written[|o.written| - 1].verdict.failed)
                      || (c.chat && Finishes(o.written) && (env.live ==> o.synthetic)))
                 && (o.synthetic && !o.success ==> Polluted(c, s, |o.written|, stop))
  {
    hide StopsAt, Polluted, Finishes, Present, StreamWindow.Filled, Passes, Clean;
    var u: nat;
    var window: StreamWindow.Window;
    window, u, n := StreamWindow.ReadWindow(items, usage, reason, broken);
    used, stop, w := u, Drained, window;
    if window.Refused? {
      return false, Outcome([], false, false, false, false), used, stop, w, n;
    }
    ReadyWindow(StreamWindow.Filled(items), n, usage, reason, broken, w);
    o, stop := ForwardStream(c, window.events, window.terminated, items[used..], fate, env);
    committed := true;
    ghost var s := w.events + Present(items[used..]);
    WrittenIsClean(c, s, fate, |o.written|, stop);
    DrainedIsAll(c, s, fate, |o.written|, stop);
  }

  lemma DrainedIsAll(c: Setup, s: seq<Event>, fate: nat -> Fate, n: nat, stop: Stop)
    requires StopsAt(c, s, fate, n, stop)
    ensures stop.Drained? ==> n == |s| && s[..n] == s && (Finishes(s) ==> s != [])
    ensures stop.WriteFailed? ==> !stop.Drained?
  {
    hide Forwarded;
  }

  lemma ReadyWindow(s: seq<Event>, n: nat, usage: StreamWindow.Usage, reason: string, broken: bool,
                    w: StreamWindow.Window)
    requires StreamWindow.Read(s, n, usage, reason, broken, w) && w.Ready?
    ensures w.events != [] && w.terminated == w.events[|w.events| - 1].verdict.terminal
  {
    StreamWindow.ReadyIsClean(s, n, StreamWindow.RejectsUsage(usage, reason), w);
  }

  /** A natural stop is answerless when something up to it reasoned and nothing answered. */
  lemma AnswerlessMeans(s: seq<Event>, i: nat)
    requires i < |s|
    ensures AnswerlessAt(s, i) <==>
              && s[i].verdict.stopFinish && (exists j | 0 <= j <= i :: s[j].verdict.reasoning)
              && forall j | 0 <= j <= i :: !s[j].verdict.answer
  {
    forall j | 0 <= j <= i ensures s[j] in s[..i + 1] {
      assert s[..i + 1][j] == s[j];
    }
  }
}
