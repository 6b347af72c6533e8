/** Stream events of one upstream round, reduced to the verdict the relay reaches on each of them. */
module StreamEvents {
  import opened Collections

  datatype Verdict = Verdict(
    terminal: bool,      // ends the response stream
    failed: bool,        // an error frame or an undecodable event
    abnormal: bool,      // carries a finish reason outside the whitelist
    content: bool,
    answer: bool,
    reasoning: bool,
    stopFinish: bool,    // a natural stop, judged for OpenAI Chat only
    finishSeen: bool)    // a whitelisted finish reason, judged for OpenAI Chat only

  const BLANK := Verdict(false, false, false, false, false, false, false, false)

  /** `id` stands for the bytes of the event, `size` for the length of its data. */
  datatype Event = Event(id: int, size: nat, verdict: Verdict)

  /** What the reader yields: an event, or nothing at all. */
  datatype Item = Nothing | Got(event: Event)

  function Present(items: seq<Item>): seq<Event> {
    if items == [] then []
    else if items[0].Got? then [items[0].event] + Present(items[1..])
    else Present(items[1..])
  }

  function TotalSize(s: seq<Event>): nat {
    if s == [] then 0 else TotalSize(s[..|s| - 1]) + s[|s| - 1].size
  }

  lemma TotalSizeSnoc(s: seq<Event>, e: Event)
    ensures TotalSize(s + [e]) == TotalSize(s) + e.size
  {
    assert (s + [e])[..|s|] == s;
  }

  // ---- finish reasons ----

  const CHAT_REASONS: set<string> := {"", "stop", "length", "tool_calls", "function_call"}
  const EMPTY_OUTPUT_REASONS: set<string> := {"length", "tool_calls", "function_call", "max_tokens", "tool_use"}

  /** One choice of a chat event: its finish reason when present, and what its delta carries.
      A choice that does not decode is skipped. */
  datatype Choice = Malformed | Choice(hasReason: bool, reason: string, answer: bool, reasoning: bool)

  datatype ChatEvent = Done | Undecodable | ErrorFrame | Chunk(choices: seq<Choice>)

  /** The verdict on one OpenAI Chat event. */
  method AnalyzeChat(e: ChatEvent) returns (v: Verdict)
    ensures v.terminal <==> !e.Chunk?
    ensures v.failed <==> e.Undecodable? || e.ErrorFrame?
    ensures v.abnormal <==> e.Chunk? && exists c | c in e.choices :: c.Choice? && c.hasReason && c.reason !in CHAT_REASONS
    ensures v.stopFinish <==> e.Chunk? && exists c | c in e.choices :: c.Choice? && c.hasReason && c.reason == "stop"
    ensures v.finishSeen <==>
            e.Chunk? && exists c | c in e.choices :: c.Choice? && c.hasReason && c.reason != "" && c.reason in CHAT_REASONS
    ensures v.answer <==> e.Chunk? && exists c | c in e.choices :: c.Choice? && c.answer
    ensures v.reasoning <==> e.Chunk? && exists c | c in e.choices :: c.Choice? && c.reasoning
    ensures v.content <==> v.answer || v.reasoning
    ensures v.stopFinish ==> v.finishSeen
  {
    if e.Done? {
      return BLANK.(terminal := true);
    }
    if e.Undecodable? || e.ErrorFrame? {
      return BLANK.(terminal := true, failed := true);
    }
    v := BLANK;
    var i := 0;
    while i < |e.choices|
      invariant 0 <= i <= |e.choices|
      invariant !v.terminal && !v.failed
      invariant v.abnormal <==>
                exists c | c in e.choices[..i] :: c.Choice? && c.hasReason && c.reason !in CHAT_REASONS
      invariant v.stopFinish <==> exists c | c in e.choices[..i] :: c.Choice? && c.hasReason && c.reason == "stop"
      invariant v.finishSeen <==>
                exists c | c in e.choices[..i] :: c.Choice? && c.hasReason && c.reason != "" && c.reason in CHAT_REASONS
      invariant v.answer <==> exists c | c in e.choices[..i] :: c.Choice? && c.answer
      invariant v.reasoning <==> exists c | c in e.choices[..i] :: c.Choice? && c.reasoning
      invariant v.content <==> v.answer || v.reasoning
    {
      var c := e.choices[i];
      SliceSnoc(e.choices, i);
      i := i + 1;
      if c.Malformed? {
        continue;
      }
      if c.hasReason {
        v := v.(abnormal := v.abnormal || c.reason !in CHAT_REASONS,
                stopFinish := v.stopFinish || c.reason == "stop",
                finishSeen := v.finishSeen || (c.reason != "" && c.reason in CHAT_REASONS));
      }
      v := v.(answer := v.answer || c.answer,
              reasoning := v.reasoning || c.reasoning,
              content := v.content || c.answer || c.reasoning);
    }
    assert e.choices[..i] == e.choices;
  }

  function IsEvent(): Item -> bool {
    (i: Item) => i.Got?
  }

  /** The events of a stream, each in its place; nothing is skipped but what is no event. */
  lemma {:induction false} PresentAre(items: seq<Item>) returns (kept: seq<Item>)
    ensures Sifted(items, IsEvent(), kept)
    ensures |Present(items)| == |kept| && forall i | 0 <= i < |kept| :: kept[i] == Got(Present(items)[i])
    decreases |items|
  {
    hide Sifted;
    if items == [] {
      SiftedEmpty(IsEvent());
      kept := [];
    } else {
      var rest := PresentAre(items[1..]);
      SiftedCons(items[0], items[1..], IsEvent(), rest);
      assert items == [items[0]] + items[1..];
      kept := if items[0].Got? then [items[0]] + rest else rest;
    }
  }
}
