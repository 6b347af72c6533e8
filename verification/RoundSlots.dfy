/** Concurrency slots across one upstream round: the return paths of the senders, closing once, and stopping a round while
    its response is being attached. */
module RoundSlots {
  import opened ConcurrencyLimit

  /** A committable response: it owns the slot's ticket and, when streaming, the upstream's open event stream. */
  class Response {
    const ticket: Ticket
    var streamOpen: bool
    var closed: bool

    constructor (ticket: Ticket, streaming: bool)
      ensures this.ticket == ticket && streamOpen == streaming && !closed
    {
      this.ticket := ticket;
      streamOpen := streaming;
      closed := false;
    }

    /** Closes the stream, then gives the slot back; only the first call does anything. */
    method Close()
      modifies this, ticket, ticket.gate
      ensures closed
      ensures old(closed) ==> streamOpen == old(streamOpen) && ticket.given == old(ticket.given)
      ensures !old(closed) ==> !streamOpen && ticket.given
      ensures ticket.gate != null && (old(closed) || old(ticket.given)) ==> ticket.gate.active == old(ticket.gate.active)
      ensures ticket.gate != null && !old(closed) && !old(ticket.given) ==>
                ticket.gate.active == if old(ticket.gate.active) > 0 then old(ticket.gate.active) - 1 else 0
    {
      if closed {
        return;
      }
      closed := true;
      streamOpen := false;
      ticket.Give();
    }
  }

  /** How far a call gets: the step that fails, or none of them. `RequestFails` covers building the request and the
      client, `CallFails` the upstream call, `Rejected` the validation of a complete response or of a stream's window. */
  datatype Path = RequestFails | CallFails | Rejected | Answered

  /** Same-protocol sending. `admitted` tells whether a limited channel had a slot within the waiting time; an
      unlimited one needs none. `unparsed` responses are handed over without validation. */
  method SendPassthrough(gate: Gate, limit: int, admitted: bool, path: Path, streaming: bool, unparsed: bool)
    returns (r: Response?)
    requires admitted ==> limit <= 0 || gate.active < limit
    modifies gate
    ensures r == null ==> gate.active == old(gate.active)
    ensures r != null ==> Held(r, gate, limit, old(gate.active)) && fresh(r) && fresh(r.ticket)
    ensures r != null ==> r.streamOpen == streaming
    ensures r != null <==> admitted && (path.Answered? || (path.Rejected? && !streaming && unparsed))
  {
    if !admitted {
      return null;
    }
    var ticket := Admit(gate, limit);
    if path.RequestFails? {
      ticket.Give();
      return null;
    }
    if streaming {
      if !path.Answered? {
        ticket.Give();
        return null;
      }
      r := new Response(ticket, true);
      return;
    }
    if path.CallFails? {
      ticket.Give();
      return null;
    }
    if unparsed {
      r := new Response(ticket, false);
      return;
    }
    if path.Rejected? {
      ticket.Give();
      return null;
    }
    r := new Response(ticket, false);
  }

  /** Cross-protocol sending: the window of a streaming response is read after the pipeline has answered. */
  method SendConverted(gate: Gate, limit: int, admitted: bool, path: Path, streaming: bool) returns (r: Response?)
    requires admitted ==> limit <= 0 || gate.active < limit
    modifies gate
    ensures r == null ==> gate.active == old(gate.active)
    ensures r != null ==> Held(r, gate, limit, old(gate.active)) && fresh(r) && fresh(r.ticket)
    ensures r != null ==> r.streamOpen == streaming
    ensures r != null <==> admitted && path.Answered?
  {
    if !admitted {
      return null;
    }
    var ticket := Admit(gate, limit);
    if path.RequestFails? || path.CallFails? {
      ticket.Give();
      return null;
    }
    if !streaming {
      if path.Rejected? {
        ticket.Give();
        return null;
      }
      r := new Response(ticket, false);
      return;
    }
    if path.Rejected? {
      ticket.Give();
      return null;
    }
    r := new Response(ticket, true);
  }

  /** An admitted caller's ticket; without limit it gives nothing back. */
  method Admit(gate: Gate, limit: int) returns (ticket: Ticket)
    requires limit <= 0 || gate.active < limit
    modifies gate
    ensures fresh(ticket) && !ticket.given && ticket.gate == if limit > 0 then gate else null
    ensures gate.active == if limit > 0 then old(gate.active) + 1 else old(gate.active)
  {
    if limit <= 0 {
      ticket := new Ticket(null);
      return;
    }
    var admitted, seen := gate.TryEnter(limit);
    ticket := new Ticket(gate);
  }

  /** The response holds the one slot that was taken for it. */
  ghost predicate Held(r: Response, gate: Gate, limit: int, before: nat)
    reads r, r.ticket, gate
  {
    && !r.closed && !r.ticket.given && r.ticket.gate == (if limit > 0 then gate else null)
    && gate.active == if limit > 0 then before + 1 else before
  }

  // ---- a whole round of the handler ----

  /** The slot is taken exactly as long as the response is open. */
  ghost predicate Accounted(r: Response, gate: Gate, limit: int, before: nat)
    reads r, r.ticket, gate
  {
    && r.ticket.gate == (if limit > 0 then gate else null) && r.ticket.given == r.closed && (r.closed ==> !r.streamOpen)
    && gate.active == if limit > 0 && !r.closed then before + 1 else before
  }

  /** Ties stopping a round to the response it may have by then. */
  class Lifecycle {
    var response: Response?
    var stopped: bool

    constructor ()
      ensures response == null && !stopped
    {
      response := null;
      stopped := false;
    }

    /** What a stop may touch besides the lifecycle. */
    function Parts(): set<object>
      reads this
    {
      if response == null then {}
      else {response, response.ticket} + if response.ticket.gate == null then {} else {response.ticket.gate}
    }

    method Stop(ghost gate: Gate, ghost limit: int, ghost before: nat)
      requires response != null ==> Accounted(response, gate, limit, before)
      modifies this, Parts()
      ensures stopped && response == old(response)
      ensures response != null ==> Accounted(response, gate, limit, before) && response.closed
    {
      stopped := true;
      if response != null {
        response.Close();
      }
    }

    /** Binds the response; a stop that came first closes it at once. */
    method Attach(r: Response, ghost gate: Gate, ghost limit: int, ghost before: nat)
      requires Accounted(r, gate, limit, before)
      modifies this, r, r.ticket, r.ticket.gate
      ensures response == r && stopped == old(stopped)
      ensures Accounted(r, gate, limit, before) && (stopped ==> r.closed)
    {
      response := r;
      if stopped {
        r.Close();
      }
    }
  }

  /** The request's handle on its round, dropped by whoever releases the round first. */
  class Handle {
    var round: Lifecycle?

    constructor (round: Lifecycle)
      ensures this.round == round
    {
      this.round := round;
    }

    method Release(ghost gate: Gate, ghost limit: int, ghost before: nat)
      requires round != null && round.response != null ==> Accounted(round.response, gate, limit, before)
      modifies this, round, if round == null then {} else round.Parts()
      ensures round == null
      ensures old(round) != null ==> old(round).stopped && old(round).response == old(round.response)
      ensures old(round) != null && old(round.response) != null ==>
                Accounted(old(round.response), gate, limit, before) && old(round.response).closed
    {
      var l := round;
      round := null;
      if l != null {
        l.Stop(gate, limit, before);
      }
    }
  }

  /** The branches of a failed round, in the order they are looked at. */
  datatype Failure = KeyRejected | AdminStop | ClientGone | Interrupted | EarlyEof | Unsanitized | Deterministic | Ordinary

  /** A whole round of the handler, with a stop or none before the response is bound and while it is delivered. `late` tells
      that the round timed out just as a stream's first event arrived. On every path the slot is back at the end, and a
      response that was obtained is closed. */
  method RunRound(gate: Gate, limit: int, admitted: bool, path: Path, streaming: bool, unparsed: bool, passthrough: bool,
                  stopEarly: bool, late: bool, failure: Failure, stopInStream: bool)
    returns (r: Response?)
    requires admitted ==> limit <= 0 || gate.active < limit
    modifies gate
    ensures gate.active == old(gate.active)
    ensures r != null ==> fresh(r) && r.closed && !r.streamOpen && r.ticket.given
    ensures r != null <==> admitted && (path.Answered? || (passthrough && path.Rejected? && !streaming && unparsed))
  {
    var round := new Lifecycle();
    var handle := new Handle(round);
    ghost var before := gate.active;
    if stopEarly {
      round.Stop(gate, limit, before);
    }
    if passthrough {
      r := SendPassthrough(gate, limit, admitted, path, streaming, unparsed);
    } else {
      r := SendConverted(gate, limit, admitted, path, streaming);
    }
    if r != null {
      round.Attach(r, gate, limit, before);
    }
    if r != null && streaming && late {
      r.Close();
    }
    if r == null || (streaming && late) {
      FailRound(handle, gate, limit, before, failure);
      return;
    }
    if !streaming {
      r.Close();
      handle.Release(gate, limit, before);
      return;
    }
    if stopInStream {
      round.Stop(gate, limit, before);
    }
    r.Close();
    handle.Release(gate, limit, before);
  }

  /** Every branch of a failed round releases it; the branch for answers that cannot change does so twice. */
  method FailRound(handle: Handle, ghost gate: Gate, ghost limit: int, ghost before: nat, failure: Failure)
    requires handle.round != null && (handle.round.response != null ==> Accounted(handle.round.response, gate, limit, before))
    modifies handle, handle.round, handle.round.Parts()
    ensures handle.round == null && old(handle.round).response == old(handle.round.response)
    ensures old(handle.round.response) != null ==>
              Accounted(old(handle.round.response), gate, limit, before) && old(handle.round.response).closed
  {
    handle.Release(gate, limit, before);
    if failure.Deterministic? {
      handle.Release(gate, limit, before);
    }
  }

  // ---- stopping a round while it attaches its response ----

  datatype Phase = Sending | Obtained | Working | Done

  /** One round shared by its handler and any number of stop calls. `pending` callers are on their way to close the
      response; `returned` counts how often the slot was given back. */
  datatype Life = Life(phase: Phase, stopped: bool, attached: bool, closed: bool, pending: nat, returned: nat)

  const FRESH := Life(Sending, false, false, false, 0, 0)

  datatype Event =
    | Obtain        // the sender returns a response
    | Attach        // the handler binds it and learns whether a stop came first
    | Stop          // a stop marks the round and takes whatever response is bound
    | ClosePending  // one of the pending callers closes
    | Finish        // the handler closes the response itself

  function Closed(l: Life): Life {
    if l.closed then l else l.(closed := true, returned := l.returned + 1)
  }

  predicate Next(l: Life, e: Event, m: Life) {
    match e
    case Obtain => l.phase.Sending? && m == l.(phase := Obtained)
    case Attach =>
      l.phase.Obtained? && m == l.(phase := Working, attached := true, pending := l.pending + if l.stopped then 1 else 0)
    case Stop => m == l.(stopped := true, pending := l.pending + if l.attached then 1 else 0)
    case ClosePending => l.pending > 0 && m == Closed(l).(pending := l.pending - 1)
    case Finish => l.phase.Working? && m == Closed(l).(phase := Done)
  }

  ghost predicate Run(lives: seq<Life>, events: seq<Event>) {
    && |lives| == |events| + 1 && lives[0] == FRESH
    && forall i | 0 <= i < |events| :: Next(lives[i], events[i], lives[i + 1])
  }

  /** However stops, the attach and closes interleave: the slot is given back at most once, exactly once when the response
      is closed; a response attached after or during a stop is closed as soon as no close is pending any more, and a
      finished round is closed. */
  lemma {:induction false} SlotReturnedOnce(lives: seq<Life>, events: seq<Event>, n: nat)
    requires Run(lives, events) && n <= |events|
    ensures var l := lives[n];
            && l.returned == (if l.closed then 1 else 0)
            && (l.stopped && l.attached ==> l.closed || l.pending > 0)
            && (l.phase.Done? ==> l.closed)
            && (l.attached <==> l.phase.Working? || l.phase.Done?)
  {
    if n > 0 {
      SlotReturnedOnce(lives, events, n - 1);
      assert Next(lives[n - 1], events[n - 1], lives[n]);
    }
  }
}
