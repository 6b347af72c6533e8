# NovaVeil, verified

NovaVeil relays requests for large language models to upstream channels. Groups of members stand behind a model name; the
relay picks a member, follows references between groups, retries until an upstream produces something deliverable, and
streams it back. On the way it replaces sensitive text by placeholders and puts the originals back into the answer. This
project models that logic in Dafny and proves what the relay promises about it.

The modules follow the program:

- **Masking** - `Placeholder`, `Restore`, `StreamRestore`, `MaskSession`, `RecallRuns`, `MaskDocument`, `MaskRules`,
  `MaskEngine`, `MaskWords`, `MaskApply`, `MaskShared`, `MaskFreshness`. A text is a sequence of bytes, one `char` each.
  `Parse` cuts a text at its placeholders; masking and restoring are related through that view. Rule regexes are abstract
  match finders (matches in bounds, sorted, disjoint); custom terms are searched literally. Randomness is a stream of
  suffixes.
- **Routing** - `Backoff`, `Route` (the state of one group as a value, and what each critical section does to it),
  `RouteObject` (the object updated in place, method by method proved against `Route`), `RouteSteps`, `RouteFacts` and
  `EmergencySlots` (what single steps mean, field by field), `RouteRuns` and `RouteSafety` (requests, asynchronous probes
  and recovery batches interleaving those steps over all groups, with time as a non-decreasing integer). A sticky pick and a member picked in manual mode
  appear as a request adopting a hop without touching the route. The seconds arithmetic of `Backoff` is over reals.
- **Forwarding** - `StreamEvents`, `StreamWindow`, `StreamLoop`, `ForwardLoop`, `RequestRuns`, `RoundSlots`. Events are
  their verdicts. Everything an iteration reads from outside (upstream results, cancellation, configuration, picks) is an
  input, so the results hold for every outside behaviour. `RequestRuns` shows that a request of `RouteRuns` that moves as
  this loop does ends with no hop unsettled.
- **Limits** - `ConcurrencyLimit`, `RpmWindow`, `KeySelect`. Waiting callers and releases interleave; a wake channel is a
  generation number. Client keys use the same counter and window, but a refused caller gives up at once.
- **Group references** - `GroupRefs` (the validator), `GroupStore` (what the three operations do to the graph and to
  its depth, and the run-time resolver), `GroupCache` (the operations), `GroupCycles` and `ImportGraph` (the cycle check
  before an import).
- **Replay cache** - `ReasoningCache`, `ReasoningRuns`. `Collections` holds a few facts about sequences and sets.

Where the code does not meet a promise, there is a lemma with a concrete input and one with the condition:

- A push whose last `{{` is closed, or open for more than 64 bytes, lets go of a trailing `{`. `StreamAgreesIff` gives the
  exact condition under which streaming agrees with one-shot restoration, `UnsplitStreamsRestore` the chunkings that meet
  it, `LossExample` one that does not.
- A recall keeps a duplicate token after 20 taken draws (`TakenDrawsDuplicate`); `RecallKeepsBijective` and
  `RunBijectiveIff` say exactly when the table stays bijective.
- A term matched between word boundaries may come to look like a word beside a later placeholder: `LaterTermUncoversWord`
  shows two custom terms for which it does. `RuleShowsIff` and `RunShowsIff` say exactly when, by the captures a rule is
  about to replace.
- The rate window's clock is read before its lock, so call times may fall back by some d in lock order. `BoundHoldsIff`:
  the limit per window holds for all such runs exactly when it is one or d is zero. `AdmissionsSpan` gives what holds
  otherwise, and `StaleClockBreaksBound` reaches it.
- The depth limit holds for a group when it is validated. `UpdateKeepsDepthIff` says for every accepted change exactly which
  older groups stay within it, by chains that can be counted before the change; `DownstreamChangeExceedsDepth` is one that
  does not.
- The import check is described as covering references that a dump adds to existing groups. The code sees them only when
  the dump lists the group, and it counts items of new groups whose ids exist already, which the import skips.
  `SearchCoversIff` says exactly when nothing is overlooked and `SearchIsExactIff` when nothing is counted needlessly either;
  `UnlistedGroupIsMissed` and `RepeatedItemIsFalseAlarm` show both failures.

## Model

| member | source | states |
|---|---|---|
| Placeholder.TokenLenExact | internal/relay/mask/placeholder.go:21 | The anchored recogniser answers exactly the one length at which a placeholder of the pattern ends, and 0 when the text starts with none |
| Placeholder.TokenBraces | internal/relay/mask/placeholder.go:21 | Opening braces occur only in the first two bytes of a placeholder and closing braces only in its last two |
| Placeholder.NoOverlap | internal/relay/mask/placeholder.go:21 | Two placeholder matches never overlap |
| Placeholder.NewToken | internal/relay/mask/placeholder.go:52-69 | Whatever the label, the minted token is one the recogniser accepts whole |
| Placeholder.CleanLabelSurvives | internal/relay/mask/placeholder.go:52-69 | A clean label of at most twelve characters stands in the token as it is, and different suffixes make different tokens |
| Placeholder.LabelCharsAre | internal/relay/mask/placeholder.go:52-63 | Any label keeps its letters and digits, upper-cased and in order |
| Placeholder.OtherLabels | internal/relay/mask/placeholder.go:52-63 | A longer label is cut to its first twelve letters and digits, one without any becomes TERM |
| Placeholder.Alphabets | internal/relay/mask/placeholder.go:21 | Suffixes use exactly twenty consonants, labels exactly capitals and digits |
| Restore.RestoreConcat | internal/relay/mask/restore.go:8-19 | One-shot restoration distributes over every cut that no placeholder straddles |
| Restore.UnregisteredRestores | internal/relay/mask/restore.go:8-19 | A body whose placeholders are all unregistered restores to itself |
| MaskSession.RegisterBijective | internal/relay/mask/session.go:62-76 | Registering a new original keeps forward and reverse mutual inverses exactly when the drawn token was unused |
| MaskSession.RecallKeepsBijective | internal/relay/mask/session.go:30-77 | A recall never changes an issued token, and it keeps the table bijective exactly when its input holds a placeholder, is known, or one of the 20 draws is unused |
| MaskSession.TakenDrawsDuplicate | internal/relay/mask/session.go:62-76 | When all draws are equal, a second original is given the token of the first and the table is no longer bijective |
| MaskSession.NoNesting | internal/relay/mask/session.go:30-45 | A recall of text that holds a placeholder never registers that text: a placeholder gets no placeholder |
| MaskSession.RecallDecodes | internal/relay/mask/session.go:30-85 | What a recall issues looks up to the recalled text for as long as the table only grows and stays bijective |
| MaskSession.Mapping.Recall | internal/relay/mask/session.go:30-77 | The method returns the token and leaves the two maps and the draw position that the value specification gives |
| RecallRuns.StepKeeps | internal/relay/mask/session.go:30-77 | Each read-locked check and each write-locked registration of interleaved recalls keeps the bijection exactly when its draw is fresh |
| RecallRuns.RunKeeps | internal/relay/mask/session.go:30-85 | Over every interleaving with fresh draws the table stays a growing bijection and every answered caller holds a standing token |
| RecallRuns.ConcurrentRecallsAgree | internal/relay/mask/session.go:47-60 | Two callers recalling one original concurrently are answered with the same token |
| StreamRestore.PushEmits | internal/relay/mask/stream_restore.go:40-102 | A push emits the one-shot restoration of all bytes but the held-back ones, in the overflow branch too, and never holds more than 64 bytes |
| StreamRestore.HeldMeans | internal/relay/mask/stream_restore.go:64-88 | A push holds back an open pair of braces of at most 64 bytes, or a lone brace at the end of a text without any pair, and nothing else |
| StreamRestore.StreamAgreesIff | internal/relay/mask/stream_restore.go:40-102 | Pushes plus flush agree with one-shot restoration for every mapping exactly when no push lets go of the first brace of a placeholder that arrives later |
| StreamRestore.StreamedIsRestored | internal/relay/mask/stream_restore.go:40-102 | A stream that drops no opening brace delivers the one-shot restoration of its concatenation, from any pending state |
| StreamRestore.UnsplitStreamsRestore | internal/relay/mask/stream_restore.go:40-102 | Every chunking with no boundary between the two opening braces of a placeholder restores in full |
| StreamRestore.EmptyMappingIsIdentity | internal/relay/mask/stream_restore.go:40-102 | With nothing registered the stream is the identity for every chunking |
| StreamRestore.LossExample | internal/relay/mask/stream_restore.go:44-48 | A concrete two-chunk stream that the code restores differently from the one-shot form |
| StreamRestore.StreamRestorer.RestoreComplete | internal/relay/mask/stream_restore.go:89-103 | Looking up every placeholder of the buffer from left to right gives the one-shot restoration by the current reverse map, and without a table the buffer itself |
| StreamRestore.StreamRestorer.Push | internal/relay/mask/stream_restore.go:40-55 | The method outputs and keeps pending, per channel, what the push specification gives and leaves other channels alone |
| StreamRestore.StreamRestorer.Flush | internal/relay/mask/stream_restore.go:59-63 | Hands out the pending bytes once and forgets them |
| MaskDocument.ParseRender | internal/relay/mask/engine.go:271-309 | A document of placeholder-free literals and placeholders parses back to itself after being written out |
| MaskDocument.RestoreParse | internal/relay/mask/restore.go:8-19 | Restoring a text is restoring its parsed document placeholder by placeholder |
| MaskRules.RuleOrigsTokenFree | internal/relay/mask/engine.go:217-267 | Originals a rule collects are non-empty and hold no placeholder, so the unwrapping branch of a recall never fires from a rule |
| MaskRules.RuleShape | internal/relay/mask/engine.go:217-256 | The text a rule writes parses to the old document with listed captures replaced by genuine placeholders of the grown table |
| MaskRules.SubDocTokens | internal/relay/mask/engine.go:291-342 | The placeholders of the rewritten document are the old ones in place, interleaved with the inserted ones in order |
| MaskEngine.RuleRestores | internal/relay/mask/engine.go:217-256 | Masking one rule is undone by every later bijective table that keeps the issued tokens |
| MaskEngine.RunRestores | internal/relay/mask/engine.go:59-101 | A whole run of rules restores like its input in every later bijective table |
| MaskShared.AloneIsShared | internal/relay/mask/engine.go:217-256 | A request that masks alone is a special case of the shared run |
| MaskShared.SharedRunRestores | internal/relay/mask/session.go:8-28 | The same when other requests of the session grow the table before any single recall |
| MaskEngine.RoundTrip | internal/relay/mask/engine.go:59-101 | Masking then restoring gives the body back when it held no registered placeholder and the table stayed bijective |
| MaskFreshness.RunBijectiveIff | internal/relay/mask/engine.go:59-101 | A masking run leaves the table bijective exactly when every original it recalls is known or finds an unused token within 20 draws |
| MaskFreshness.FreshRoundTrip | internal/relay/mask/engine.go:59-101 | With fresh draws, restoring the masked body equals restoring the body, and equals the body when it held no registered token |
| MaskEngine.StreamedRoundTrip | internal/relay/mask/stream_restore.go:40-102 | The round trip through the streaming restorer, for every chunking that splits no opening braces |
| MaskEngine.RuleKeepsTermFree | internal/relay/mask/engine.go:217-309 | No later rule brings a masked term back into literal text, however it splits segments; a term matched between word boundaries may only come to look like a word at the end of a literal |
| MaskEngine.TermRuleCompletes | internal/relay/mask/engine.go:76-87 | After its own rule a term, with or without word boundaries, is matched in no literal segment |
| MaskEngine.MaskingIsComplete | internal/relay/mask/engine.go:59-101 | After the whole pipeline no custom term occurs in any non-placeholder segment; one matched between word boundaries at most at the very start or end of a segment, and `RunShowsIff` says exactly when |
| MaskWords.SegmentShowsIff | internal/relay/mask/engine.go:291-342 | A rewritten segment shows a term exactly when the segment holds it untouched by the replaced captures and, for an ASCII word, each word character beside it lies in a replaced capture |
| MaskWords.RuleShowsIff | internal/relay/mask/engine.go:217-309 | After any rule a term is matched in no segment exactly when that condition fails in every segment of the text the rule finds |
| MaskWords.UncoversBesideCut | internal/relay/mask/engine.go:76-101 | A rule brings a covered term out only by replacing a word character right beside an ASCII word |
| MaskWords.RunShowsIff | internal/relay/mask/engine.go:59-101 | After a whole run a term is matched in no segment exactly when the last rule that ran does not uncover it |
| MaskWords.StaysCovered | internal/relay/mask/engine.go:59-101 | A term whose own rule ran is matched in no segment at the end when no later rule uncovers it |
| MaskWords.LaterTermUncoversWord | internal/relay/mask/engine.go:76-87 | Two custom terms and a body for which the pipeline leaves a word-bounded term in literal text, on any table |
| MaskEngine.RuleTokens | internal/relay/mask/engine.go:217-309 | The placeholders found after one rule are exactly the old ones with the tokens of its captures woven in, match by match |
| MaskEngine.RunTokens | internal/relay/mask/engine.go:59-101 | After a whole run the placeholders found are the old ones, in order, with placeholders of newly reported matches in between, and each reported match has put its placeholder in |
| MaskEngine.RunTokensExact | internal/relay/mask/engine.go:59-101 | As sets: the placeholders found after masking are exactly the old ones and the reported ones |
| MaskEngine.SortTermsSorted | internal/relay/mask/engine.go:76-87 | Terms are tried longest first, equal lengths in their given order, and none is lost or duplicated |
| MaskEngine.NonPlaceholderSegments | internal/relay/mask/engine.go:271-288 | The loop returns the non-empty literals of the parsed text in order |
| MaskEngine.ReplaceExcludingPlaceholders | internal/relay/mask/engine.go:291-309 | The loop writes the parsed document with each literal rewritten and every placeholder kept |
| MaskEngine.ApplyRuleSub | internal/relay/mask/engine.go:312-342 | The loop over matches writes the segment with exactly the listed captures replaced |
| MaskEngine.ApplyRule | internal/relay/mask/engine.go:217-256 | Both passes together return the specified text, table and match list |
| MaskEngine.Engine.Apply | internal/relay/mask/engine.go:59-101 | Terms longest first, then enabled rules in order: body, table, draws and matches of the specified pipeline |
| MaskRules.RuleOrigsAre | internal/relay/mask/engine.go:217-267 | A rule collects exactly the non-empty accepted captures of its matches in literal text, each once |
| MaskApply.PipelineIs | internal/relay/mask/engine.go:76-97 | The rules of a run: one for each sorted term that has a value, then exactly the enabled built-in rules in their order |
| MaskApply.NothingOnIsIdentity | internal/relay/mask/engine.go:59-101 | With no term and no enabled rule body, table, draws and matches stay as they are |
| MaskApply.EnabledRuleMasks | internal/relay/mask/engine.go:89-97 | An enabled rule whose pre-check passes in its turn reports every accepted capture of the text it meets under its tag, with a placeholder that stands in the masked text |
| MaskApply.OnlyEnabledTags | internal/relay/mask/engine.go:89-97 | All that a run reports is a custom term or carries an enabled tag |
| MaskApply.RuleCutsAre | internal/relay/mask/engine.go:312-342 | What a rule cuts out of a literal are exactly the accepted non-empty captures of its matches there |
| MaskApply.RuleLeavesPieces | internal/relay/mask/engine.go:217-309 | After a rule the literal text is exactly what those cuts leave |
| Backoff.CooldownShape | internal/relay/route.go:683-693 | The cooldown is the floor of 1000 times the smaller of base times factor to the level and the ceiling, rises with the level, is at least a second and never exceeds the ceiling |
| Backoff.LevelsMultiply | internal/relay/route.go:683-693 | Without a ceiling level zero lasts the configured seconds, one at least, and each level multiplies by the factor |
| RouteSteps.BackoffGrows | internal/relay/prober.go:66-118 | n failed probes in a row raise the level by n and set the deadline to the last failure plus the cooldown of the level reached |
| RouteSteps.BatchBacksOff | internal/relay/route.go:374-379 | A recovery batch without winner raises every member by one level, frees it and touches nobody else |
| RouteSteps.PickMeans | internal/relay/route.go:84-178 | Case by case what a pick answers: wait for a candidate, affinity, the first closed member in scan order, otherwise a batch of all expired members |
| RouteFacts.PickProbes | internal/relay/route.go:126-165 | With a closed member a pick probes exactly the expired members scanned before it, each once; without, it claims exactly all expired ones; nobody else gains or loses a mark |
| RouteFacts.PickFrame | internal/relay/route.go:99-165 | A pick makes the closed member current, drops an affinity that ran out, and changes nothing else |
| RouteSteps.IdleRouteIsNotWedged | internal/relay/route.go:84-178 | A route without candidate and probes refuses a pick exactly when every eligible member is still cooling |
| RouteSteps.ClaimsWonAre | internal/relay/prober.go:17-40 | A batch claims exactly its free expired members, each once |
| RouteSteps.SucceededFields | internal/relay/route.go:384-432 | A confirmation frees its member, clears the candidate and leaves emergency counts alone |
| RouteFacts.AccessMeans | internal/relay/route.go:783-841 | Present members keep every entry through an access, removed ones leave none; candidate, current member and affinity go with their member |
| RouteFacts.HolderStays | internal/relay/route.go:282-299 | The named emergency holder stays named while it holds a slot |
| RouteFacts.ClaimMeans | internal/relay/prober.go:17-29 | A claim marks its member exactly when there is no candidate, its cooldown ran out and it is unmarked, and changes nothing else |
| RouteFacts.ProbeMeans | internal/relay/prober.go:88-118 | A successful probe closes its member, a failed one reopens it one level up for the cooldown of that level, one whose mark is gone changes nothing |
| RouteFacts.WinnerMeans | internal/relay/route.go:353-379 | A batch with a winner makes it the candidate and frees all others of the batch, nothing more |
| RouteFacts.ConfirmedMeans | internal/relay/route.go:384-432 | Field by field what a confirmation leaves behind, for its member and for all others |
| RouteFacts.AffinityMeans | internal/relay/route.go:384-432 | Affinity starts exactly when the confirmed member is or becomes current, is not served as the emergency member and the group left its former one; it lasts the configured seconds |
| RouteFacts.FailedMeans | internal/relay/route.go:475-538 | Field by field what a failed round leaves behind, with the emergency block of a member that fails while it serves |
| RouteFacts.ReleasedMeans | internal/relay/route.go:575-594 | A release takes the mark of its member or one of its slots, nothing from anybody else |
| RouteFacts.PostCommitMeans | internal/relay/route.go:438-462 | A failure after commit counts a strike, opens the member at the last allowed one, and never touches a cooling one |
| RouteFacts.EmergencyMeans | internal/relay/route.go:231-259 | The seven reasons for which the emergency member is refused, and no other |
| RouteFacts.EmergencyClaimMeans | internal/relay/route.go:231-259 | Serving the emergency member adds one slot to it and touches no breaker |
| RouteFacts.ResetMeans | internal/relay/route.go:729-769 | A reset closes every member and lifts every block; probes, affinity and slots stay |
| RouteSafety.VerdictMarks | internal/relay/route.go:384-594 | Success, failure and release all free the member they are about, and no other member gains a mark |
| RouteSafety.BatchMarks | internal/relay/route.go:353-379 | After a batch no member of it is half-open except the winner, which is the candidate |
| RouteSafety.StepKeepsInv | internal/relay/route.go:84-841 | Every critical section of every process keeps: holds are owned and emergency accounting balances |
| RouteSafety.NoHoldIsOrphaned | internal/relay/route.go:84-594 | In every interleaving a candidate belongs to a request in flight with an unsettled hop on it, and every half-open mark to a probe, batch or request in flight |
| RouteSafety.QuietGroupPicks | internal/relay/route.go:84-178 | Once nobody in flight works on a group its next pick never waits and comes back empty only while every usable member still cools |
| RouteSafety.ClaimMarks | internal/relay/prober.go:17-29 | A claim succeeds only on an unmarked member, also through the pruning of removed members, and marks it |
| RouteSafety.ClaimsAreSeparated | internal/relay/prober.go:17-118 | Between two successful claims of one member lies a step that cleared its mark |
| EmergencySlots.ClaimKeepsSlots | internal/relay/route.go:231-259 | An emergency claim adds one slot and keeps the published sum, the limit of 3 and the named holder right |
| EmergencySlots.ReleaseKeepsSlots | internal/relay/route.go:268-299 | A release gives back one slot of the member, or nothing when it holds none, and keeps the accounting |
| EmergencySlots.VerdictKeepsSlots | internal/relay/route.go:384-594 | Every verdict and release keeps the emergency accounting |
| EmergencySlots.AccessKeepsSlots | internal/relay/route.go:783-841 | Dropping the counts of removed members and recounting keeps the accounting |
| RouteObject.RouteState.Pick | internal/relay/route.go:84-150 | The locked part of a pick, loops included, leaves the state and answers the outcome of the specification on the pruned route |
| RouteObject.RouteState.SyncEmergencySummary | internal/relay/route.go:282-299 | Publishes the sum of all counts and a member that holds one |
| RouteObject.RouteState.Access | internal/relay/route.go:783-841 | Deletes what removed members left behind in all maps and fields |
| RouteObject.RouteState.ClaimHalfOpen | internal/relay/prober.go:17-29 | Claims a member exactly when there is no candidate, its cooldown ran out and nobody probes it |
| RouteObject.RouteState.FinishBatch | internal/relay/route.go:353-379 | Writes back a recovery batch: winner or backoff for all |
| RouteObject.RouteState.FinishProbe | internal/relay/prober.go:88-118 | Writes back an asynchronous probe unless the mark is already gone |
| RouteObject.RouteState.RecordSuccess | internal/relay/route.go:384-432 | The state after a confirmed round, emergency rounds only returning their slot |
| RouteObject.RouteState.RecordFailure | internal/relay/route.go:475-538 | The state after a failed round and whether the caller picks again at once |
| RouteObject.RouteState.Release | internal/relay/route.go:575-594 | A release clears a probe hold, and only otherwise gives back an emergency slot |
| RouteObject.RouteState.RecordPostCommitFailure | internal/relay/route.go:438-462 | Counts a strike or opens the member at the limit, and tells whether it cools |
| RouteObject.RouteState.ClaimEmergency | internal/relay/route.go:231-259 | Serves the emergency member exactly when configured, present, enabled, not probed, not blocked and below the limit |
| RouteObject.RouteState.ResetCooldowns | internal/relay/route.go:729-769 | Clears cooldowns, levels, strikes and blocks, keeps probes and emergency counts, and counts the members cleared |
| RouteSteps.FailureMeans | internal/relay/route.go:475-538 | Enough failures leave the member open with the cooldown of its level, one level up only for a candidate or half-open member; a candidate below the limit is closed; a caller told to pick again no longer has it as current; other members are untouched |
| RouteSteps.SuccessMeans | internal/relay/route.go:384-432 | A confirmed member is closed at level zero and becomes current unless another still has affinity; an unheld one only loses its strikes |
| RouteSteps.StrikesAddUp | internal/relay/route.go:438-462 | Post-commit failures add up over requests: the last allowed one opens the member for the cooldown of level one, earlier and later ones do not |
| StreamEvents.AnalyzeChat | internal/relay/protocol.go:339-405 | The verdict on a chat event: abnormal exactly when some decodable choice carries a finish reason outside the whitelist, and so for every flag |
| StreamWindow.ReadWindow | internal/relay/upstream.go:526-567 | Reading stops at the first event that decides or breaks the budget and answers the verdict on exactly the events up to it |
| StreamWindow.OneDecision | internal/relay/upstream.go:526-567 | At most one position of a stream decides |
| StreamWindow.ZeroOutputMeans | internal/relay/upstream.go:544-550 | A terminal event is refused exactly when the upstream told zero output tokens and the finish reason does not explain it |
| StreamWindow.ReadyIsClean | internal/relay/upstream.go:526-567 | A committed window is within budget, holds no failed or abnormal event, and only its last event carries content or ends the stream |
| StreamLoop.Pump | internal/relay/handler.go:682-793 | The forwarding loop ends with exactly the longest deliverable prefix written and the reason why it ended |
| StreamLoop.StopIsUnique | internal/relay/handler.go:682-793 | How far a stream gets and why it ends is determined by its events: nothing deliverable is held back |
| StreamLoop.WrittenIsClean | internal/relay/handler.go:712-788 | No written event is abnormal, and nothing follows a terminal event or an error frame |
| StreamLoop.ForwardStream | internal/relay/handler.go:628-903 | Success exactly when the terminal event was delivered, or a chat stream with a whitelisted finish reason drained, with nothing wrong behind the loop; when terminal frames are appended, a strike is recorded or hops are released again |
| StreamLoop.DeliverRound | internal/relay/handler.go:628-903 | Window and loop together: committed exactly when the window is ready; then the written events are a clean prefix of what the upstream sent, success, appended frames, strike and release are decided as by the loop alone; success means a delivered terminal or an exempted chat stream |
| StreamLoop.AnswerlessMeans | internal/relay/handler.go:712-788 | A natural stop is answerless exactly when something up to it reasoned and nothing answered |
| ForwardLoop.Forward | internal/relay/handler.go:153-626 | The round loop over any outside behaviour produces a log in which only the last step ends the request, each step sound and decided by its state and input: when it waits, skips a reference, excludes a member, cancels, fails or goes on |
| ForwardLoop.AnswerIsDelivered | internal/relay/handler.go:292-626 | A round that is allowed, has a member to ask and gets an answer confirms its whole chain, delivers that answer and is the last; nothing else confirms a hop |
| ForwardLoop.WholeAnswerArrives | internal/relay/handler.go:595-626 | A whole answer the client takes is all the client gets, and the request succeeds |
| ForwardLoop.RunRound | internal/relay/handler.go:292-626 | From chosen chain to end of round, each by conditions on the input: hops are confirmed exactly for an answer and then its bytes, end and records follow; the leaf is charged exactly for a failed dispatch or an undisturbed upstream failure with nothing left for free; which member is excluded, when it waits, cancels or fails |
| ForwardLoop.HandleFailure | internal/relay/handler.go:464-575 | After an upstream failure, by conditions: the next key, a stop, an abort, the free retry of each kind, a hopeless status that excludes the member or ends the request, or an ordinary charge |
| ForwardLoop.CommitSafety | internal/relay/handler.go:153-904 | All bytes come from the last round, every earlier round wrote nothing, and no round follows a write |
| ForwardLoop.EveryHopIsSettled | internal/relay/handler.go:153-904 | Every hop picked in a round is released, confirmed or charged in that round, and only the leaf can be charged |
| RequestRuns.MoveIsExact | internal/relay/route.go:84-594 | No critical section of anybody changes the unsettled hops of a request except by the one hop its own action takes or settles |
| RequestRuns.RequestMayLeave | internal/relay/handler.go:153-904 | However it interleaves with the rest, a request that moves as its round loop does ends with no unsettled hop, which is what leaving requires |
| ForwardLoop.FailuresAreNumbered | internal/relay/route.go:554-570 | The number reported with a failure is one more than the member's earlier failures of the same kind, unaffected by other members and kinds |
| ForwardLoop.FreeRetryOnce | internal/relay/handler.go:520-541 | Early end of stream and bad request each earn a member at most one free retry per request |
| ForwardLoop.RequestEnds | internal/relay/handler.go:171-188 | A request ends within one round more than the largest round limit it reads |
| RoundSlots.SendPassthrough | internal/relay/upstream.go:67-139 | On every return path the slot is back when there is no response, and held by the response otherwise |
| RoundSlots.SendConverted | internal/relay/upstream.go:439-512 | The same for cross-protocol sending |
| RoundSlots.Response.Close | internal/relay/upstream.go:49-63 | The first close ends the stream and returns the slot, later ones do nothing |
| RoundSlots.RunRound | internal/relay/handler.go:366-816 | On every path of a round (no response, late first event, whole answer, stream, stop before or during delivery, each failure branch) the slot is back and an obtained response closed |
| RoundSlots.SlotReturnedOnce | internal/relay/state.go:257-297 | In every interleaving of stop, attach and close the slot returns at most once, and a response attached after or during a stop is closed |
| ConcurrencyLimit.Gate.TryEnter | internal/relay/channellimit.go:100-110 | Admits exactly below the limit and otherwise captures the open generation |
| ConcurrencyLimit.Gate.Leave | internal/relay/channellimit.go:50-59 | Counts down, not below zero, and starts a new generation |
| ConcurrencyLimit.Ticket.Give | internal/relay/channellimit.go:101-105 | Only the first call of a release function counts |
| ConcurrencyLimit.StepKeepsInv | internal/relay/channellimit.go:33-127 | Every step of every caller keeps: the count of each counter is the number of its unreleased handles, and a waiter whose generation is open really faces a full gate |
| ConcurrencyLimit.AdmissionRespectsLimit | internal/relay/channellimit.go:85-127 | An attempt is admitted exactly while fewer than its limit are held, so a lowered limit admits nobody until drained |
| ConcurrencyLimit.NoLostWakeup | internal/relay/channellimit.go:108-124 | A waiter that could be admitted can always wake up |
| ConcurrencyLimit.ReleaseWakes | internal/relay/channellimit.go:50-59 | Whoever waited on the counter at a release and still waits on the same generation can wake at any later moment |
| ConcurrencyLimit.OnlyReleaseFrees | internal/relay/channellimit.go:190-202 | A handle is given back by its own release only, not by a cleanup of its channel |
| RpmWindow.Windows.Try | internal/relay/channellimit.go:163-184 | The loop-based permit leaves the window and answers the wait of the specification |
| RpmWindow.WaitIsExact | internal/relay/channellimit.go:163-184 | The wait of a refusal is positive and exactly the earliest time a retry is admitted if nobody else is |
| RpmWindow.AdmissionsSpan | internal/relay/channellimit.go:163-184 | When call times fall back by at most d in lock order, any rpm + 1 admissions span at least W - d |
| RpmWindow.AtMostRpmPerWindow | internal/relay/channellimit.go:163-184 | With a fixed limit any window (t - W, t] holds at most rpm admissions when call times do not fall back, and in every order when the limit is one |
| RpmWindow.BoundHoldsIff | internal/relay/channellimit.go:163-184 | The bound holds for all runs whose call times fall back by at most d exactly when the limit is one or d is zero |
| RpmWindow.StaleClockBreaksBound | internal/relay/channellimit.go:163-168 | For every limit above one and every step back d: a run in which rpm + 1 admissions fit one window and the span W - d is reached |
| RpmWindow.RetryAfterIsLeast | internal/keylimit/keylimit.go:103-133 | Retry-After is the least number of whole seconds after which a retry is admitted |
| KeySelect.Keys.Select | internal/relay/keyselect.go:80-96 | The first key in cyclic order from the ticket that does not cool, and none exactly when all cool |
| KeySelect.Keys.CheckCooling | internal/relay/keyselect.go:56-75 | Tells whether a key cools and changes that for no key |
| KeySelect.Fair | internal/relay/keyselect.go:84-95 | N consecutive tickets use each of n keys floor(N/n) or ceil(N/n) times |
| GroupRefs.Walk | internal/op/group.go:404-425 | Acceptance settles every group reached, each by one chain; a refusal comes with the chain to the edited group, the chain that is too long, or two different chains to one group |
| GroupRefs.ValidateReferences | internal/op/group.go:387-399 | Accepts exactly when every target exists and heads a tree of distinct groups, at most eight deep, without the edited one; a refusal names the target and justifies the verdict by chains |
| GroupRefs.RefTargetNames | internal/op/group.go:367-381 | Exactly the names referred to, each once |
| GroupStore.CreateKeepsInv | internal/op/group.go:84-124 | A created group keeps the graph acyclic, without dangling references and indexed |
| GroupStore.UpdateKeepsInv | internal/op/group.go:127-272 | So does a changed or renamed group |
| GroupStore.DeleteKeepsInv | internal/op/group.go:306-320 | So does a deletion |
| GroupStore.RunsStayAcyclic | internal/op/group.go:84-320 | Every run of the three operations from the empty cache keeps the graph acyclic and without dangling references |
| GroupStore.CreatedIsShallow | internal/op/group.go:387-425 | A group just created heads chains of at most eight further groups |
| GroupStore.UpdatedIsShallow | internal/op/group.go:387-425 | A group just changed heads chains of at most eight further groups |
| GroupStore.UpdateKeepsDepthIff | internal/op/group.go:404-425 | After any accepted change, an older group within the resolver's limit stays so exactly when no chain to the changed group, continued below the new members, has more than nine groups |
| GroupStore.CreateKeepsDepth | internal/op/group.go:84-124 | A creation leaves every older group within the limit |
| GroupStore.RunsStayShallow | internal/op/group.go:84-320 | Runs in which every change fits that condition keep all groups within the limit, so the resolver never finds a chain too long |
| GroupStore.Resolve | internal/relay/route.go:624-647 | Every hop is the group its predecessor refers to with the member picked there; each answer is given exactly under its own condition; hops are distinct; in a graph kept by the operations no cycle or missing target is met, and a group within the limit fails only because a group had no pickable member |
| GroupCache.Groups.Create | internal/op/group.go:84-124 | Succeeds exactly with a free name, complete members without twins, accepted references and a willing database; then the group is added, otherwise nothing changes |
| GroupCache.Groups.Update | internal/op/group.go:127-272 | Succeeds exactly for a known group when a new name is not empty, free and leaves no referrer behind, the members pass the same checks and the database is willing; then the members are the old ones not deleted, in their order, followed by the added ones, and otherwise nothing changes |
| GroupCache.ChangedMembers | internal/op/group.go:178-210 | A changed group holds exactly the members not deleted and the added ones |
| GroupCache.RenameKeepsMembers | internal/op/group.go:178-210 | A mere rename keeps all members in their order |
| GroupCache.Groups.Delete | internal/op/group.go:306-320 | Deletes exactly when nobody else refers to the group |
| GroupCache.Groups.FirstReferrer | internal/op/group.go:428-440 | Finds a referrer exactly when there is one |
| GroupCache.CheckTwins | internal/op/group.go:344-364 | Accepts exactly member lists in which no channel model and no referenced name repeats |
| GroupCache.DownstreamChangeExceedsDepth | internal/op/group.go:387-425 | An accepted change that fails that condition: ten groups in a line, grown at the ninth |
| GroupCycles.Detect | internal/op/backup.go:595-646 | Nothing is reported exactly when the graph is acyclic, whatever the iteration order, and everything reported is a closed path |
| GroupCycles.Finder.Visit | internal/op/backup.go:604-633 | A visit finishes its name, leaves the stack as found, terminates, and reports a cycle when it meets an open name |
| ImportGraph.Build | internal/op/backup.go:555-593 | The adjacency per name: existing references plus those of every dump entry of that name |
| ImportGraph.DetectGroupCycles | internal/op/backup.go:548-647 | Reports nothing exactly when the effective graph is acyclic; when no reference is missed, nothing reported means that the import leaves no cycle, and when nothing is counted needlessly either, a report means that it does |
| ImportGraph.SearchCoversIff | internal/op/backup.go:158-172 | Rows that clash with existing or earlier ones are skipped: every reference the import leaves behind is searched exactly when none goes into an existing group that lacked it and that no dump entry of its name brings it |
| ImportGraph.ListedMissesNothing | internal/op/backup.go:576-593 | Listing every extended existing group under its own name is enough for that |
| ImportGraph.NothingReportedIsSafe | internal/op/backup.go:545-593 | A dump that misses nothing and of which nothing is reported leaves an acyclic graph, whichever rows the database skips |
| ImportGraph.SearchIsExactIff | internal/op/backup.go:545-593 | The graph searched is the graph left behind exactly when no reference is missed and no dump entry counted whose name or reference the import leaves out |
| ImportGraph.FittingRowsCount | internal/op/backup.go:652-657 | Rows that clash neither with each other nor with other existing rows are all counted rightly |
| ImportGraph.RepeatedItemIsFalseAlarm | internal/op/backup.go:580-586 | A new group that repeats an existing item id: the search reports a cycle that the import would not leave |
| ImportGraph.UnlistedGroupIsMissed | internal/op/backup.go:545-593 | A dump that extends an unlisted existing group leaves a cycle behind that the search does not report, though its rows fit |
| ReasoningCache.Cache.Get | internal/relay/reasoning.go:58-73 | Answers and reorders like the recency list, map and list staying in step |
| ReasoningCache.Cache.Set | internal/relay/reasoning.go:76-105 | Leaves the most recently used unexpired entries up to the capacity, map and list staying in step |
| ReasoningCache.Cache.Purge | internal/relay/reasoning.go:91-99 | The walk drops exactly the expired entries and keeps the order |
| ReasoningCache.Cache.Evict | internal/relay/reasoning.go:100-104 | Drops the oldest entries beyond the capacity |
| ReasoningRuns.HitIsLastWrite | internal/relay/reasoning.go:58-105 | Over any history a hit returns the last value written for the key, unexpired |
| ReasoningRuns.AnswerIff | internal/relay/reasoning.go:58-105 | The answer of every lookup after every history in call order, told by the calls alone: the last value written, exactly when it has not expired and no write since found capacity many unexpired keys written or hit more recently; missed lookups use nothing |
| ReasoningRuns.NeverOverCapacity | internal/relay/reasoning.go:58-105 | The cache never exceeds its capacity and never holds a key twice |

## Left out

- Rule regexes, their validators and feature pre-checks: abstract; the pre-check may skip any rule.
- Upper-casing of non-ASCII letters in labels is not modelled: they are stripped, although the dotless i and the long s have ASCII capitals.
- Uniformity of the drawn suffixes and failures of the random source: the draws are an arbitrary stream.
- The session store's pruning, JSON-escaped restoration and the recover path that turns a panic into an error.
- The optional reordering of members by client protocol: the scan order is an input.
- MaskSession.RecallDecodes: stated for tables that stay bijective, because a duplicate token after 20 draws may overwrite an entry.
- Backoff.CooldownShape: rounding of floating-point powers and overflow of 64-bit milliseconds without a ceiling are not modelled.
- RouteSteps.PickMeans: member ids are assumed not to be zero, as in the database.
- RouteSafety.NoHoldIsOrphaned: says nothing about per-request balance of emergency slots, which repeated releases do not keep.
- Session sticky tables: a sticky pick is any member at any time.
- Publishing of route snapshots, request state and logs; statistics and error records.
- Panic paths of the forwarding loop, and masking of the forwarded stream.
- ForwardLoop.Forward: whether a charged member is picked again is an input here; `RouteObject.RouteState.RecordFailure` says when it is.
- JSON decoding of Anthropic and Responses events: they enter the loops as verdicts.
- StreamLoop.ForwardStream: appended terminal frames count as sent; a write error among them is ignored, as in the code.
- The one-second waiting budget of the concurrency limiter: a waiting caller may give up at any moment.
- RpmWindow.WaitIsExact: does not cover a window that outgrew a lowered limit after the clock fell back.
- KeySelect.Keys.Select: one clock reading serves a whole selection.
- ReasoningCache.Cache.Set: the list holds keys and the map holds the entries, while the program shares list elements between both.
- Trimming of names, display order, member priorities, modes and configuration of groups.
- GroupRefs.Walk: when several reasons to refuse exist, which of them is reported is not stated.
- GroupCache.Groups.Update: transactions are one step that succeeds or fails as a whole; concurrent administrators are not modelled.
- Import rows without an id, items nested inside dump groups, and the rollback of a whole import when a foreign key fails.
- HTTP, database, authentication, front end, client statistics, evaluation queue and self-update.
