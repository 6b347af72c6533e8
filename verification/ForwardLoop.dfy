/** The round loop of one forwarded request: retries until something is committed, then exactly one delivery. */
module ForwardLoop {
  import opened StreamEvents
  import opened StreamLoop

  /** One hop of a reference chain, as picked: the group and the member. */
  datatype Hop = Hop(group: int, item: int)

  datatype Option<T> = None | Some(value: T)

  /** A failed upstream call. `keyFault` is a rejected or rate-limited credential, `status` an HTTP status or 0. */
  datatype Problem = Problem(infra: bool, keyFault: bool, earlyEof: bool, status: int)

  /** A committable upstream response, or the reason there is none. A stream that was opened but whose round timed out at
      the same moment is closed and counts as a failure. */
  datatype Result =
    | Failure(problem: Problem)
    | Whole(body: Event, writeFails: bool)
    | Stream(window: seq<Event>, terminated: bool, rest: seq<Item>)

  /** Everything one iteration reads from the outside. */
  datatype Input = Input(
    goneAtTop: bool, stopAtTop: bool, allStopped: bool, overdue: bool,
    groupFound: bool, groupSize: nat, nextLimit: nat,
    allCooling: bool,          // everybody cools and the group clears cooldowns by itself
    chain: seq<Hop>,           // the chain picked, top first; empty when nothing could be picked
    broken: bool,              // the last member of the chain is a reference that could not be resolved
    targetReady: bool,         // the leaf's channel exists and is enabled
    bodyOk: bool,
    keys: nat, leafSize: nat,
    dispatchProblem: Option<Problem>, goneAtDispatch: bool,
    permitted: bool,           // the rate limiter let the round pass
    result: Result,
    stopAtError: bool, goneAtError: bool, aborted: bool,
    again: bool,               // the failed member went into cooldown: pick again at once
    waitOk: bool,
    fate: nat -> Fate, env: Env)

  datatype Fault = Fault(hop: Hop, infra: bool, count: nat)

  datatype Favour = AfterEof | AfterBadRequest

  datatype End = GoesOn | Succeeded | Failed | Canceled

  /** What one iteration does, in this order: hops are settled, then bytes are written, then a post-commit strike or a
      second release, then the request ends or goes on. */
  datatype Step = Step(
    taken: seq<Hop>, freed: seq<Hop>, confirmed: seq<Hop>, fault: Option<Fault>,
    favour: Option<Favour>,
    written: seq<Event>, terminators: bool, strike: bool, freedAgain: seq<Hop>,
    rejected: bool, end: End)

  const NOTHING := Step([], [], [], None, None, [], false, false, [], false, GoesOn)

  /** The variables that survive an iteration. */
  datatype State = State(
    exclude: int, refSkips: nat, rounds: nat, limit: nat,
    refused: set<int>, eofRetried: set<int>, cleaned: set<int>,
    business: map<int, nat>, infra: map<int, nat>)

  function Count(m: map<int, nat>, k: int): nat {
    if k in m then m[k] else 0
  }

  function Counter(st: State, infra: bool): map<int, nat> {
    if infra then st.infra else st.business
  }

  // ---- what every iteration keeps ----

  /** Every hop taken is settled by a release, a confirmation or a failure. */
  predicate Settles(step: Step) {
    forall h | h in step.taken :: h in step.freed || h in step.confirmed || (step.fault.Some? && step.fault.value.hop == h)
  }

  predicate Silent(step: Step) {
    step.written == [] && !step.terminators && !step.rejected && !step.strike && step.freedAgain == []
  }

  /** At most one failure, of the leaf, numbered by the member's failures of that kind so far. */
  predicate Counts(st: State, step: Step, st': State) {
    if step.fault.None? then st'.business == st.business && st'.infra == st.infra
    else
      var f := step.fault.value;
      && step.taken != [] && f.hop == step.taken[|step.taken| - 1]
      && f.count == Count(Counter(st, f.infra), f.hop.item) + 1
      && Counter(st', f.infra) == Counter(st, f.infra)[f.hop.item := f.count]
      && Counter(st', !f.infra) == Counter(st, !f.infra)
  }

  /** Each free retry is granted to a member at most once. */
  predicate Favours(st: State, step: Step, st': State) {
    match step.favour
    case None => st'.eofRetried == st.eofRetried && st'.cleaned == st.cleaned
    case Some(AfterEof) =>
      && step.taken != [] && step.fault.None?
      && var m := step.taken[|step.taken| - 1].item;
         m !in st.eofRetried && st'.eofRetried == st.eofRetried + {m} && st'.cleaned == st.cleaned
    case Some(AfterBadRequest) =>
      && step.taken != [] && step.fault.None?
      && var m := step.taken[|step.taken| - 1].item;
         m !in st.cleaned && st'.cleaned == st.cleaned + {m} && st'.eofRetried == st.eofRetried
  }

  ghost predicate Sound(st: State, step: Step, st': State) {
    && Settles(step)
    && (step.end.GoesOn? ==> Silent(step))
    && (step.written != [] || step.terminators ==> step.taken != [] && step.confirmed == step.taken)
    && (step.confirmed != [] ==> step.confirmed == step.taken && step.fault.None? && step.favour.None?)
    && (step.rejected ==> step.written == [] && !step.terminators && step.end.Failed?)
    && (step.end.Succeeded? ==> step.confirmed == step.taken && step.taken != [])
    && Counts(st, step, st') && Favours(st, step, st')
    && st'.rounds == st.rounds + 1
  }

  // ---- what decides an iteration ----

  predicate WellFormed(i: Input) {
    i.result.Stream? && i.result.terminated ==>
      i.result.window != [] && i.result.window[|i.result.window| - 1].verdict.terminal
  }

  predicate Deterministic(status: int) {
    status == 400 || status == 404 || status == 422
  }

  predicate Gone(i: Input) {
    i.goneAtTop || i.stopAtTop
  }

  /** The iteration gets as far as reading the group. */
  predicate Allowed(st: State, i: Input) {
    !Gone(i) && !i.allStopped && st.rounds < st.limit && !i.overdue
  }

  predicate Starts(st: State, i: Input) {
    Allowed(st, i) && i.groupFound
  }

  /** A chain was picked that ends in a member to be asked. */
  predicate Picks(st: State, i: Input) {
    Starts(st, i) && i.chain != [] && !i.broken
  }

  /** The last of more broken references than the group has members. */
  predicate GivesUpRefs(st: State, i: Input) {
    Starts(st, i) && i.chain != [] && i.broken && st.refSkips + 1 > i.groupSize
  }

  predicate Dispatchable(i: Input) {
    i.targetReady && i.bodyOk
  }

  predicate Sent(i: Input) {
    Dispatchable(i) && i.dispatchProblem.None? && i.permitted
  }

  predicate Answered(i: Input) {
    Sent(i) && !i.result.Failure?
  }

  predicate Refused(i: Input) {
    Sent(i) && i.result.Failure?
  }

  function LeafOf(i: Input): int
    requires i.chain != []
  {
    i.chain[|i.chain| - 1].item
  }

  predicate Undisturbed(i: Input) {
    !i.stopAtError && !i.goneAtError && !i.aborted
  }

  /** A rejected credential among several: the next key is tried. Looked at before a stop is. */
  predicate TurnsKey(i: Input) {
    Refused(i) && !i.goneAtError && !i.aborted && i.keys > 1 && i.result.problem.keyFault
  }

  predicate RetriesEof(st: State, i: Input)
    requires i.chain != []
  {
    Refused(i) && Undisturbed(i) && !TurnsKey(i) && i.result.problem.earlyEof && LeafOf(i) !in st.eofRetried
  }

  predicate RetriesCleaned(st: State, i: Input)
    requires i.chain != []
  {
    && Refused(i) && Undisturbed(i) && !TurnsKey(i) && !RetriesEof(st, i)
    && i.result.problem.status == 400 && LeafOf(i) !in st.cleaned
  }

  /** The upstream is to blame and nothing is left for free. */
  predicate Faulted(st: State, i: Input)
    requires i.chain != []
  {
    Refused(i) && Undisturbed(i) && !TurnsKey(i) && !RetriesEof(st, i) && !RetriesCleaned(st, i)
  }

  predicate Undispatched(i: Input) {
    Dispatchable(i) && i.dispatchProblem.Some? && !i.goneAtDispatch
  }

  /** A fault no retry can mend. */
  predicate Hopeless(st: State, i: Input)
    requires i.chain != []
  {
    Faulted(st, i) && i.result.problem.status in {400, 404, 422}
  }

  predicate Exhausts(st: State, i: Input)
    requires i.chain != []
  {
    Hopeless(st, i) && |st.refused + {LeafOf(i)}| >= i.leafSize
  }

  predicate Charged(st: State, i: Input)
    requires i.chain != []
  {
    Undispatched(i) || Faulted(st, i)
  }

  /** The retry interval is waited for, after which the same member may be picked again. */
  predicate Waits(st: State, i: Input)
    requires i.chain != []
  {
    !i.targetReady || (Charged(st, i) && !Hopeless(st, i) && !i.again)
  }

  /** When a round with a chosen chain does what: each clause by conditions on what it reads. */
  ghost predicate RoundLaw(c: Setup, st: State, i: Input, step: Step, st': State, stop: Stop)
    requires i.chain != []
  {
    && step.taken == i.chain
    && step.freed == (if Answered(i) then [] else if Charged(st, i) then i.chain[..|i.chain| - 1] else i.chain)
    && (step.confirmed != [] <==> Answered(i)) && (Answered(i) ==> step.confirmed == i.chain && FromResult(c, i, step, stop))
    && (step.fault.Some? <==> Charged(st, i))
    && (step.fault.Some? ==>
          step.fault.value.infra == (if Undispatched(i) then i.dispatchProblem.value.infra else i.result.problem.infra))
    && (step.favour == Some(AfterEof) <==> RetriesEof(st, i))
    && (step.favour == Some(AfterBadRequest) <==> RetriesCleaned(st, i))
    && st'.refused == st.refused + (if Hopeless(st, i) then {LeafOf(i)} else {})
    && st'.exclude == (if Charged(st, i) && (if Hopeless(st, i) then !Exhausts(st, i) else i.again) then LeafOf(i)
                       else if Waits(st, i) then 0 else st.exclude)
    && st'.refSkips == 0
    && RoundEnds(st, i, step)
  }

  /** How such a round ends. */
  ghost predicate RoundEnds(st: State, i: Input, step: Step)
    requires i.chain != []
  {
    && (step.rejected <==> (i.targetReady && !i.bodyOk) || Exhausts(st, i))
    && (!Answered(i) ==>
          && (step.end.Failed? <==> step.rejected) && !step.end.Succeeded?
          && (step.end.Canceled? <==>
                || (Waits(st, i) && !i.waitOk)
                || (Dispatchable(i) && i.dispatchProblem.Some? && i.goneAtDispatch)
                || (Dispatchable(i) && i.dispatchProblem.None? && !i.permitted)
                || (Refused(i) && !TurnsKey(i) && (i.stopAtError || i.goneAtError))))
  }

  /** When an iteration without a chosen chain does what. */
  ghost predicate IdleLaw(st: State, i: Input, step: Step, st': State) {
    && step.confirmed == [] && step.fault.None? && step.favour.None?
    && step.taken == step.freed == (if Starts(st, i) then i.chain else [])
    && step.written == [] && !step.terminators && !step.strike && step.freedAgain == []
    && st'.refused == st.refused
    && st'.exclude == (if GivesUpRefs(st, i) || (Starts(st, i) && i.chain == [] && !i.allCooling) then 0
                       else if Starts(st, i) && i.chain != [] then i.chain[0].item else st.exclude)
    && st'.refSkips == (if !Starts(st, i) || i.chain == [] then st.refSkips
                        else if GivesUpRefs(st, i) then 0 else st.refSkips + 1)
    && !step.end.Succeeded? && step.rejected == step.end.Failed?
    && (step.end.Failed? <==> !Gone(i) && !Allowed(st, i))
    && (step.end.Canceled? <==>
          Gone(i) || (!i.waitOk && Allowed(st, i) && (!i.groupFound || i.chain == [] || GivesUpRefs(st, i))))
  }

  ghost predicate Law(c: Setup, st: State, i: Input, step: Step, st': State, stop: Stop) {
    && (if Picks(st, i) then RoundLaw(c, st, i, step, st', stop) else IdleLaw(st, i, step, st'))
    && st'.limit == if Starts(st, i) then i.nextLimit else st.limit
  }

  // ---- one iteration ----

  /** Records one failure of the leaf and tells its number. */
  method CountFailure(st: State, member: int, infra: bool) returns (n: nat, st': State)
    ensures n == Count(Counter(st, infra), member) + 1
    ensures st' == if infra then st.(infra := st.infra[member := n]) else st.(business := st.business[member := n])
  {
    if infra {
      n := Count(st.infra, member) + 1;
      st' := st.(infra := st.infra[member := n]);
    } else {
      n := Count(st.business, member) + 1;
      st' := st.(business := st.business[member := n]);
    }
  }

  /** A failure on the leaf: the ancestors are released without verdict, the leaf is charged. */
  method ChargeLeaf(st: State, taken: seq<Hop>, infra: bool) returns (step: Step, st': State)
    requires taken != []
    ensures step == NOTHING.(taken := taken, freed := taken[..|taken| - 1], fault := step.fault)
    ensures step.fault.Some? && step.fault.value.infra == infra && Counts(st, step, st') && Settles(step)
    ensures st' == st.(business := st'.business, infra := st'.infra)
  {
    var leaf := taken[|taken| - 1];
    var n, s := CountFailure(st, leaf.item, infra);
    step := NOTHING.(taken := taken, freed := taken[..|taken| - 1], fault := Some(Fault(leaf, infra, n)));
    st' := s;
    forall h | h in taken ensures h in step.freed || h == leaf {
      var j :| 0 <= j < |taken| && taken[j] == h;
      assert j < |taken| - 1 ==> taken[..|taken| - 1][j] == h;
    }
  }

  function Unsettled(taken: seq<Hop>, end: End): Step {
    NOTHING.(taken := taken, freed := taken, end := end)
  }

  /** Waiting for the retry interval; the client may leave or the administrator may stop the request meanwhile. */
  function AfterWait(ok: bool): End {
    if ok then GoesOn else Canceled
  }

  /** A failure charged to the leaf outside the deterministic statuses: pick again at once or wait for the same member. */
  method FailAndRetry(st: State, i: Input, infra: bool) returns (step: Step, st': State)
    requires i.chain != []
    ensures step.taken == i.chain && Sound(st, step, st'.(rounds := st.rounds + 1)) && st'.rounds == st.rounds
    ensures step.fault.Some? && step.fault.value.infra == infra && st'.limit == st.limit
    ensures step.confirmed == [] && step.favour.None? && Silent(step) && step.freed == i.chain[..|i.chain| - 1]
    ensures step.end == if !i.again then AfterWait(i.waitOk) else GoesOn
    ensures st' == st.(exclude := if i.again then LeafOf(i) else 0, business := st'.business, infra := st'.infra)
  {
    step, st' := ChargeLeaf(st, i.chain, infra);
    if i.again {
      st' := st'.(exclude := i.chain[|i.chain| - 1].item);
      return;
    }
    st' := st'.(exclude := 0);
    step := step.(end := AfterWait(i.waitOk));
  }

  /** A failed round that is settled without verdict. */
  lemma ReleasedLaw(c: Setup, st: State, i: Input, end: End)
    requires i.chain != [] && Refused(i) && st.refSkips == 0
    requires TurnsKey(i) || !Undisturbed(i)
    requires end == if !TurnsKey(i) && (i.stopAtError || i.goneAtError) then Canceled else GoesOn
    ensures RoundLaw(c, st, i, Unsettled(i.chain, end), st, Drained)
    ensures Sound(st, Unsettled(i.chain, end), st.(rounds := st.rounds + 1))
  {
    hide FromResult;
  }

  lemma RetriedLaw(c: Setup, st: State, i: Input, favour: Favour, st': State)
    requires i.chain != [] && st.refSkips == 0
    requires if favour.AfterEof? then RetriesEof(st, i) else RetriesCleaned(st, i)
    requires st' == if favour.AfterEof? then st.(eofRetried := st.eofRetried + {LeafOf(i)})
                    else st.(cleaned := st.cleaned + {LeafOf(i)})
    ensures RoundLaw(c, st, i, Unsettled(i.chain, GoesOn).(favour := Some(favour)), st', Drained)
    ensures Sound(st, Unsettled(i.chain, GoesOn).(favour := Some(favour)), st'.(rounds := st.rounds + 1))
  {
    hide FromResult;
  }

  /** A charged round: what is left to say when the leaf and the kind of the failure are right. */
  lemma ChargedLaw(c: Setup, st: State, i: Input, step: Step, st': State)
    requires i.chain != [] && Charged(st, i) && st.refSkips == 0 && st'.refSkips == 0
    requires step.taken == i.chain && step.confirmed == [] && step.favour.None? && step.fault.Some?
    requires step.freed == i.chain[..|i.chain| - 1]
    requires step.fault.value.infra == if Undispatched(i) then i.dispatchProblem.value.infra else i.result.problem.infra
    requires st'.refused == st.refused + (if Hopeless(st, i) then {LeafOf(i)} else {})
    requires st'.exclude == if Exhausts(st, i) then st.exclude else if Hopeless(st, i) || i.again then LeafOf(i) else 0
    requires step.rejected <==> Exhausts(st, i)
    requires step.end == if Exhausts(st, i) then Failed else if Hopeless(st, i) || i.again then GoesOn else AfterWait(i.waitOk)
    ensures RoundLaw(c, st, i, step, st', Drained)
  {
    hide FromResult;
  }

  /** The round failed before anything was committed. */
  method HandleFailure(ghost c: Setup, st: State, i: Input) returns (step: Step, st': State)
    requires i.chain != [] && Refused(i) && st.refSkips == 0
    ensures step.taken == i.chain && Sound(st, step, st'.(rounds := st.rounds + 1)) && st'.rounds == st.rounds
    ensures RoundLaw(c, st, i, step, st', Drained) && st'.limit == st.limit
  {
    hide RoundLaw, Sound;
    var p := i.result.problem;
    var member := i.chain[|i.chain| - 1].item;
    st' := st;
    if !i.goneAtError && !i.aborted && i.keys > 1 && p.keyFault {
      ReleasedLaw(c, st, i, GoesOn);
      return Unsettled(i.chain, GoesOn), st';
    }
    if i.stopAtError || i.goneAtError {
      ReleasedLaw(c, st, i, Canceled);
      return Unsettled(i.chain, Canceled), st';
    }
    if i.aborted {
      ReleasedLaw(c, st, i, GoesOn);
      return Unsettled(i.chain, GoesOn), st';
    }
    if p.earlyEof && member !in st.eofRetried {
      st' := st.(eofRetried := st.eofRetried + {member});
      RetriedLaw(c, st, i, AfterEof, st');
      return Unsettled(i.chain, GoesOn).(favour := Some(AfterEof)), st';
    }
    if p.status == 400 && member !in st.cleaned {
      st' := st.(cleaned := st.cleaned + {member});
      RetriedLaw(c, st, i, AfterBadRequest, st');
      return Unsettled(i.chain, GoesOn).(favour := Some(AfterBadRequest)), st';
    }
    if Deterministic(p.status) {
      step, st' := Refuse(st, i);
    } else {
      step, st' := FailAndRetry(st, i, p.infra);
    }
    ChargedLaw(c, st, i, step, st');
  }

  /** A fault no retry can mend: the member is set aside, and with all members refused the request fails. */
  method Refuse(st: State, i: Input) returns (step: Step, st': State)
    requires i.chain != [] && i.result.Failure?
    ensures step.taken == i.chain && Sound(st, step, st'.(rounds := st.rounds + 1)) && st'.rounds == st.rounds
    ensures step.fault.Some? && step.fault.value.infra == i.result.problem.infra
    ensures step.confirmed == [] && step.favour.None? && step.freed == i.chain[..|i.chain| - 1]
    ensures var all := st.refused + {LeafOf(i)};
            && step.rejected == (|all| >= i.leafSize) && step.end == (if step.rejected then Failed else GoesOn)
            && st' == st.(refused := all, exclude := if step.rejected then st.exclude else LeafOf(i),
                          business := st'.business, infra := st'.infra)
  {
    var member := i.chain[|i.chain| - 1].item;
    step, st' := ChargeLeaf(st, i.chain, i.result.problem.infra);
    st' := st'.(refused := st.refused + {member});
    if |st'.refused| >= i.leafSize {
      step := step.(rejected := true, end := Failed);
      return;
    }
    st' := st'.(exclude := member);
  }

  /** The committed response goes to the client. */
  method Deliver(c: Setup, i: Input) returns (step: Step, ghost stop: Stop)
    requires i.chain != [] && WellFormed(i) && !i.result.Failure?
    ensures step == NOTHING.(taken := i.chain, confirmed := i.chain, written := step.written, terminators := step.terminators,
                             strike := step.strike, freedAgain := step.freedAgain, end := step.end)
    ensures !step.end.GoesOn?
    ensures FromResult(c, i, step, stop)
  {
    step := NOTHING.(taken := i.chain, confirmed := i.chain);
    stop := Drained;
    match i.result {
      case Whole(body, writeFails) =>
        if writeFails {
          step := step.(end := if i.env.live then Failed else Canceled);
          return;
        }
        step := step.(written := [body], end := Succeeded);
      case Stream(window, terminated, rest) =>
        var o: Outcome;
        o, stop := ForwardStream(c, window, terminated, rest, i.fate, i.env);
        hide StopsAt, Polluted, Finishes, Present, Clean;
        step := step.(written := o.written, terminators := o.synthetic, strike := o.strike,
                      freedAgain := if o.freed then i.chain else [],
                      end := if o.success then Succeeded else if i.env.stopped || !i.env.live then Canceled else Failed);
    }
  }

  /** A step delivers the result of its own round: these bytes, this end, and what is recorded after them. */
  ghost predicate FromResult(c: Setup, i: Input, step: Step, stop: Stop) {
    match i.result
    case Failure(_) => step.written == [] && !step.terminators && !step.end.Succeeded?
    case Whole(body, writeFails) =>
      && step.written == (if writeFails then [] else [body]) && !step.terminators && !step.strike && step.freedAgain == []
      && step.end == if !writeFails then Succeeded else if i.env.live then Failed else Canceled
    case Stream(window, terminated, rest) =>
      var s := window + Present(rest);
      && |step.written| <= |s| && step.written == s[..|step.written|]
      && StopsAt(c, s, i.fate, |step.written|, stop)
      && (step.end.Succeeded? <==> Clean(i.env) && (stop.Delivered? || (stop.Drained? && c.chat && Finishes(s))))
      && (step.terminators <==>
            && step.written != [] && i.env.live && !stop.WriteFailed?
            && (Polluted(c, s, |step.written|, stop) || (step.end.Succeeded? && stop.Drained?)))
      && (step.strike <==> !step.end.Succeeded? && !i.env.stopped && i.env.live && !stop.WriteFailed?)
      && step.freedAgain == (if !step.end.Succeeded? && i.env.stopped then i.chain else [])
      && !step.end.GoesOn? && (step.end.Canceled? <==> !step.end.Succeeded? && (i.env.stopped || !i.env.live))
  }

  /** A round that never reaches the upstream and charges nobody. */
  lemma UnsentLaw(c: Setup, st: State, i: Input, step: Step, st': State)
    requires i.chain != [] && !Sent(i) && !Undispatched(i)
    requires step == Unsettled(i.chain, step.end).(rejected := step.rejected) && step.rejected == (i.targetReady && !i.bodyOk)
    requires st' == st.(refSkips := 0, exclude := if i.targetReady then st.exclude else 0)
    requires step.end == if !i.targetReady then AfterWait(i.waitOk) else if !i.bodyOk then Failed else Canceled
    ensures RoundLaw(c, st, i, step, st', Drained)
  {
    hide FromResult;
  }

  lemma AnsweredLaw(c: Setup, st: State, i: Input, step: Step, st': State, stop: Stop)
    requires i.chain != [] && Answered(i) && FromResult(c, i, step, stop) && st' == st.(refSkips := 0)
    requires step.taken == i.chain && step.confirmed == i.chain && step.fault.None? && step.favour.None? && !step.rejected
    requires step.freed == []
    ensures RoundLaw(c, st, i, step, st', stop)
  {
    hide FromResult;
  }

  /** From the chosen chain to the end of the iteration. */
  method RunRound(c: Setup, st: State, i: Input) returns (step: Step, st': State, ghost stop: Stop)
    requires i.chain != [] && WellFormed(i)
    ensures step.taken == i.chain && Sound(st, step, st'.(rounds := st.rounds + 1)) && st'.rounds == st.rounds
    ensures RoundLaw(c, st, i, step, st', stop)
    ensures st'.limit == st.limit
  {
    st', stop := st.(refSkips := 0), Drained;
    hide RoundLaw, FromResult;
    ghost var cleared := st';
    if !i.targetReady {
      st' := st'.(exclude := 0);
      step := Unsettled(i.chain, AfterWait(i.waitOk));
      UnsentLaw(c, st, i, step, st');
      return;
    }
    if !i.bodyOk {
      step := Unsettled(i.chain, Failed).(rejected := true);
      UnsentLaw(c, st, i, step, st');
      return;
    }
    if i.dispatchProblem.Some? {
      if i.goneAtDispatch {
        step := Unsettled(i.chain, Canceled);
        UnsentLaw(c, st, i, step, st');
        return;
      }
      step, st' := FailAndRetry(st', i, i.dispatchProblem.value.infra);
      ChargedLaw(c, cleared, i, step, st');
      SkipsIgnored(c, st, cleared, i, step, st', stop);
      return;
    }
    if !i.permitted {
      step := Unsettled(i.chain, Canceled);
      UnsentLaw(c, st, i, step, st');
      return;
    }
    if i.result.Failure? {
      step, st' := HandleFailure(c, st', i);
      SkipsIgnored(c, st, cleared, i, step, st', stop);
      return;
    }
    step, stop := Deliver(c, i);
    AnsweredLaw(c, st, i, step, st', stop);
  }

  /** A round with a chosen chain reads neither the skips nor the limits of the state before. */
  lemma SkipsIgnored(c: Setup, st: State, st0: State, i: Input, step: Step, st': State, stop: Stop)
    requires i.chain != [] && RoundLaw(c, st0, i, step, st', stop)
    requires st0 == st.(refSkips := st0.refSkips, limit := st0.limit, rounds := st0.rounds)
    ensures RoundLaw(c, st, i, step, st', stop)
  {
    hide FromResult;
  }

  /** One iteration of the loop. */
  method Iterate(c: Setup, st: State, i: Input) returns (step: Step, st': State, ghost stop: Stop)
    requires WellFormed(i)
    ensures Sound(st, step, st')
    ensures step.taken == [] || step.taken == i.chain
    ensures Law(c, st, i, step, st', stop)
  {
    hide FromResult;
    st', stop := st.(rounds := st.rounds + 1), Drained;
    if i.goneAtTop || i.stopAtTop {
      return NOTHING.(end := Canceled), st', stop;
    }
    if i.allStopped {
      return NOTHING.(rejected := true, end := Failed), st', stop;
    }
    if st'.rounds > st.limit || i.overdue {
      return NOTHING.(rejected := true, end := Failed), st', stop;
    }
    if !i.groupFound {
      return NOTHING.(end := AfterWait(i.waitOk)), st', stop;
    }
    st' := st'.(limit := i.nextLimit);
    if i.chain == [] {
      if !i.allCooling {
        st' := st'.(exclude := 0);
      }
      return NOTHING.(end := AfterWait(i.waitOk)), st', stop;
    }
    if i.broken {
      st' := st'.(refSkips := st.refSkips + 1);
      if st'.refSkips > i.groupSize {
        st' := st'.(refSkips := 0, exclude := 0);
        return Unsettled(i.chain, AfterWait(i.waitOk)), st', stop;
      }
      st' := st'.(exclude := i.chain[0].item);
      return Unsettled(i.chain, GoesOn), st', stop;
    }
    ghost var st0 := st';
    hide Sound, RoundLaw;
    step, st', stop := RunRound(c, st', i);
    SoundCarries(st, st0, step, st');
    SkipsIgnored(c, st, st0, i, step, st', stop);
  }

  /** Only the failure counts and the retry marks of the state before matter. */
  lemma SoundCarries(st: State, st0: State, step: Step, st': State)
    requires st0.business == st.business && st0.infra == st.infra && st0.eofRetried == st.eofRetried
    requires st0.cleaned == st.cleaned && st0.rounds == st.rounds + 1
    requires Sound(st0, step, st'.(rounds := st0.rounds + 1)) && st'.rounds == st0.rounds
    ensures Sound(st, step, st')
  {
    hide Settles, Silent;
  }

  // ---- the whole request ----


  /** A request's log: one sound step after the other, and only the last one ends it. */
  ghost predicate History(log: seq<Step>, states: seq<State>) {
    && |states| == |log| + 1
    && (forall k | 0 <= k < |log| :: Sound(states[k], log[k], states[k + 1]))
    && (forall k | 0 <= k < |log| - 1 :: log[k].end.GoesOn?)
  }

  ghost predicate LawfulLog(c: Setup, inputs: seq<Input>, log: seq<Step>, states: seq<State>, stops: seq<Stop>) {
    && |log| <= |inputs| && |states| == |log| + 1 && |stops| == |log|
    && forall k | 0 <= k < |log| :: Law(c, states[k], inputs[k], log[k], states[k + 1], stops[k])
  }

  const START := State(0, 0, 0, 0, {}, {}, {}, map[], map[])

  /** The loop over the iterations' inputs; a request whose inputs run out is still in flight. */
  method Forward(c: Setup, inputs: seq<Input>, limit: nat)
    returns (log: seq<Step>, ghost states: seq<State>, ghost stops: seq<Stop>)
    requires forall i | i in inputs :: WellFormed(i)
    ensures History(log, states) && states[0] == START.(limit := limit)
    ensures LawfulLog(c, inputs, log, states, stops)
    ensures |log| < |inputs| ==> log != [] && !log[|log| - 1].end.GoesOn?
  {
    hide Law, Sound, WellFormed;
    log, stops := [], [];
    var st := START.(limit := limit);
    states := [st];
    while |log| < |inputs|
      invariant |log| <= |inputs| && |stops| == |log| && |states| == |log| + 1
      invariant states[0] == START.(limit := limit) && st == states[|log|]
      invariant History(log, states) && LawfulLog(c, inputs, log, states, stops)
      invariant forall k | 0 <= k < |log| :: log[k].end.GoesOn?
      decreases |inputs| - |log|
    {
      assert inputs[|log|] in inputs;
      ghost var log0, states0, stops0 := log, states, stops;
      var step, next, stop := Iterate(c, st, inputs[|log|]);
      LogGrows(c, inputs, log, states, stops, step, next, stop);
      hide History, LawfulLog;
      st := next;
      log, states, stops := log + [step], states + [st], stops + [stop];
      if !step.end.GoesOn? {
        return;
      }
    }
  }

  lemma LogGrows(c: Setup, inputs: seq<Input>, log: seq<Step>, states: seq<State>, stops: seq<Stop>,
                 step: Step, next: State, stop: Stop)
    requires History(log, states) && LawfulLog(c, inputs, log, states, stops) && |log| < |inputs|
    requires forall k | 0 <= k < |log| :: log[k].end.GoesOn?
    requires Sound(states[|log|], step, next) && Law(c, states[|log|], inputs[|log|], step, next, stop)
    ensures History(log + [step], states + [next])
    ensures LawfulLog(c, inputs, log + [step], states + [next], stops + [stop])
  {
    hide Sound, Law;
  }

  function Everything(log: seq<Step>): seq<Event> {
    if log == [] then [] else Everything(log[..|log| - 1]) + log[|log| - 1].written
  }

  lemma {:induction false} SilentLogs(log: seq<Step>)
    requires forall k | 0 <= k < |log| :: log[k].written == []
    ensures Everything(log) == []
  {
    if log != [] {
      SilentLogs(log[..|log| - 1]);
    }
  }

  /** All bytes a client receives come from the last round: every earlier one ended before anything was written, and no
      round follows one that wrote. */
  lemma CommitSafety(log: seq<Step>, states: seq<State>)
    requires History(log, states) && log != []
    ensures forall k | 0 <= k < |log| - 1 :: Silent(log[k])
    ensures Everything(log) == log[|log| - 1].written
    ensures forall k | 0 <= k < |log| :: log[k].written != [] || log[k].terminators ==> k == |log| - 1 && !log[k].end.GoesOn?
  {
    forall k | 0 <= k < |log| ensures log[k].end.GoesOn? ==> Silent(log[k]) {
      assert Sound(states[k], log[k], states[k + 1]);
    }
    SilentLogs(log[..|log| - 1]);
  }

  /** Nothing but the request's own state and inputs can hold an answer back: a round that is allowed, has a member to ask
      and gets an answer confirms its whole chain and delivers that answer, and is the last. */
  lemma AnswerIsDelivered(c: Setup, inputs: seq<Input>, log: seq<Step>, states: seq<State>, stops: seq<Stop>, k: nat)
    requires History(log, states) && LawfulLog(c, inputs, log, states, stops) && k < |log|
    ensures Picks(states[k], inputs[k]) && Answered(inputs[k]) ==>
              k == |log| - 1 && log[k].confirmed == inputs[k].chain && FromResult(c, inputs[k], log[k], stops[k])
    ensures log[k].confirmed != [] ==> Picks(states[k], inputs[k]) && Answered(inputs[k])
  {
    assert Law(c, states[k], inputs[k], log[k], states[k + 1], stops[k]);
    assert Sound(states[k], log[k], states[k + 1]);
    hide FromResult, Counts, Favours;
    AnswerEnds(c, states[k], inputs[k], log[k], states[k + 1], stops[k]);
  }

  lemma AnswerEnds(c: Setup, st: State, i: Input, step: Step, st': State, stop: Stop)
    requires Law(c, st, i, step, st', stop)
    ensures Picks(st, i) && Answered(i) ==> !step.end.GoesOn?
  {
    hide StopsAt, Polluted, Clean, Finishes, Present;
  }

  /** What a request delivers in all when a whole answer arrives and the client takes it. */
  lemma WholeAnswerArrives(c: Setup, inputs: seq<Input>, log: seq<Step>, states: seq<State>, stops: seq<Stop>, k: nat)
    requires History(log, states) && LawfulLog(c, inputs, log, states, stops) && k < |log|
    requires Picks(states[k], inputs[k]) && Answered(inputs[k]) && inputs[k].result.Whole? && !inputs[k].result.writeFails
    ensures Everything(log) == [inputs[k].result.body] && log[k].end.Succeeded?
  {
    AnswerIsDelivered(c, inputs, log, states, stops, k);
    CommitSafety(log, states);
  }

  /** Every hop picked in any round is settled in that round; a success is reported only for a round that wrote nothing
      before it, and a failure only on the leaf. */
  lemma EveryHopIsSettled(log: seq<Step>, states: seq<State>, k: nat, h: Hop)
    requires History(log, states) && k < |log| && h in log[k].taken
    ensures h in log[k].freed || h in log[k].confirmed || (log[k].fault.Some? && log[k].fault.value.hop == h)
    ensures log[k].fault.Some? ==> log[k].fault.value.hop == log[k].taken[|log[k].taken| - 1] && log[k].confirmed == []
  {
    assert Sound(states[k], log[k], states[k + 1]);
  }

  /** Failures of one kind on one member in the first n rounds. */
  function FaultsBefore(log: seq<Step>, n: nat, infra: bool, member: int): nat
    requires n <= |log|
  {
    if n == 0 then 0
    else
      var f := log[n - 1].fault;
      FaultsBefore(log, n - 1, infra, member)
      + if f.Some? && f.value.infra == infra && f.value.hop.item == member then 1 else 0
  }

  lemma {:induction false} CountersAgree(log: seq<Step>, states: seq<State>, n: nat, infra: bool, member: int)
    requires History(log, states) && n <= |log| && states[0].business == map[] && states[0].infra == map[]
    ensures Count(Counter(states[n], infra), member) == FaultsBefore(log, n, infra, member)
  {
    if n > 0 {
      CountersAgree(log, states, n - 1, infra, member);
      assert Sound(states[n - 1], log[n - 1], states[n]);
      hide Settles, Silent, Favours;
    }
  }

  /** The number reported with a failure is the member's failures of that kind in this request so far plus one: other
      members and other kinds of error neither add to it nor reset it. */
  lemma FailuresAreNumbered(log: seq<Step>, states: seq<State>, k: nat)
    requires History(log, states) && states[0].business == map[] && states[0].infra == map[]
    requires k < |log| && log[k].fault.Some?
    ensures var f := log[k].fault.value;
            f.count == FaultsBefore(log, k, f.infra, f.hop.item) + 1
  {
    var f := log[k].fault.value;
    CountersAgree(log, states, k, f.infra, f.hop.item);
    assert Sound(states[k], log[k], states[k + 1]);
    hide Settles, Silent, Favours;
  }

  lemma {:induction false} MarksGrow(log: seq<Step>, states: seq<State>, i: nat, j: nat)
    requires History(log, states) && i <= j <= |log|
    ensures states[i].eofRetried <= states[j].eofRetried && states[i].cleaned <= states[j].cleaned
    decreases j
  {
    if i < j {
      MarksGrow(log, states, i, j - 1);
      assert Sound(states[j - 1], log[j - 1], states[j]);
      hide Settles, Silent, Counts;
    }
  }

  function Leaf(step: Step): int
    requires step.taken != []
  {
    step.taken[|step.taken| - 1].item
  }

  /** A member gets each kind of free retry at most once per request. */
  lemma FreeRetryOnce(log: seq<Step>, states: seq<State>, i: nat, j: nat)
    requires History(log, states) && i < j < |log|
    requires log[i].favour.Some? && log[j].favour == log[i].favour
    ensures log[i].taken != [] && log[j].taken != [] && Leaf(log[i]) != Leaf(log[j])
  {
    assert Sound(states[i], log[i], states[i + 1]);
    assert Sound(states[j], log[j], states[j + 1]);
    MarksGrow(log, states, i + 1, j);
    hide Settles, Silent, Counts;
  }

  lemma {:induction false} RoundsCount(log: seq<Step>, states: seq<State>, n: nat)
    requires History(log, states) && n <= |log| && states[0].rounds == 0
    ensures states[n].rounds == n
  {
    if n > 0 {
      RoundsCount(log, states, n - 1);
      assert Sound(states[n - 1], log[n - 1], states[n]);
      hide Settles, Silent, Counts, Favours;
    }
  }

  lemma {:induction false} LimitBounded(c: Setup, inputs: seq<Input>, log: seq<Step>, states: seq<State>, stops: seq<Stop>,
                                        most: nat, n: nat)
    requires History(log, states) && LawfulLog(c, inputs, log, states, stops) && n < |log| && states[0].limit <= most
    requires forall i | i in inputs :: i.nextLimit <= most
    ensures states[n].limit <= most
  {
    if n > 0 {
      LimitBounded(c, inputs, log, states, stops, most, n - 1);
      assert Law(c, states[n - 1], inputs[n - 1], log[n - 1], states[n], stops[n - 1]);
      assert inputs[n - 1] in inputs;
      hide FromResult, Sound;
    }
  }

  /** Whatever the outside does, a request ends within one round more than the largest limit it ever reads. */
  lemma RequestEnds(c: Setup, inputs: seq<Input>, log: seq<Step>, states: seq<State>, stops: seq<Stop>, most: nat)
    requires History(log, states) && LawfulLog(c, inputs, log, states, stops)
    requires states[0].rounds == 0 && states[0].limit <= most < |inputs|
    requires forall i | i in inputs :: i.nextLimit <= most
    requires |log| < |inputs| ==> log != [] && !log[|log| - 1].end.GoesOn?
    ensures 0 < |log| <= most + 1 && !log[|log| - 1].end.GoesOn?
  {
    forall k: nat | k < |log| ensures log[k].end.GoesOn? ==> k < most {
      RoundsCount(log, states, k);
      LimitBounded(c, inputs, log, states, stops, most, k);
      assert Law(c, states[k], inputs[k], log[k], states[k + 1], stops[k]);
    }
    assert |log| > 1 ==> log[|log| - 2].end.GoesOn?;
  }
}
