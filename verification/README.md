# Quota, rewriting, streaming, routing and usage accounting of an LLM proxy, proved

A daemon forwards chat requests to configured providers, meters them against quota windows, rewrites
requests and streamed replies, and keeps OAuth tokens fresh. A terminal program edits the daemon's
configuration, and an analyser reports the usage. This project models the parts whose correctness is
an argument rather than a glance, and proves what callers rely on.

| module | what it models | the main results |
|---|---|---|
| `UsageLog`, `RollingWindow`, `RingCounter` | the rolling quota window: an array of minute buckets standing in for an unbounded log of usage events | whatever is added in time order, the array answers with the log's own total over an exactly described window, off by at most a minute |
| `RingExactness` | the same array fed out of order, as on a replay from the database | the exact condition under which its answers stay right |
| `CalendarWindow` | the aligned quota window: one running total | for adds in any order, exactly when it reads the sum of the current unit; a rejection ends after one wait |
| `QuotaVerdict`, `RingVerdict` | the accept / warn / reject decision and its retry time, over the window and over what the ring answers | the verdict is monotone; whatever order the ring was fed in, the retry time is exact and repeated waiting ends |
| `Json`, `MergePatch`, `Thinking` | JSON merge patch, default filling, the thinking-level patches | patch loop = section 2 of RFC 7396, its effect at every path, idempotence, filling never overwrites; when the provider guarantees hold |
| `SseFraming`, `Utf8` | re-cutting a chunked byte stream into frames | the output is the same however the stream is cut; no frame splits a UTF-8 character |
| `TagStrip` | the scanner that removes tagged spans | it computes the kept text of the one well-formed reading of its input |
| `CodexAggregate` | folding interleaved tool-call deltas into a reply | the reply is the per-call concatenation, whatever the interleaving and map order |
| `ModelFormats`, `ProxyConfig`, `ProviderEdits`, `EditSession` | the rule-string parsers, the daemon's validation, the terminal's form edits as a state machine | form and daemon agree; as long as what the daemon serves is referentially sound, so is everything a session sends |
| `Sorting`, `RouteBuilder` | leaf filter, stable priority sort, parked providers and promotion | a validated configuration builds exactly the described routing table, with enabled providers only |
| `TokenRefresh` | OAuth refresh health over sweeps | failures are spaced exponentially, a rejected token is not used again |
| `TeedStream` | a forwarded stream teed to a usage parser | the finish callback runs exactly once with exactly the forwarded chunks |
| `Affinity`, `AffinityText` | rendezvous picking, and the text an affinity is taken of | only requests of the entry that changed move; texts are identified exactly when they have the same words |
| `UsageRows`, `JsonlRecords`, `Dashboard` | filtering, grouping and pivoting usage | no token is lost or counted twice through both groupings |

Two conventions run through all modules. Objects that the program updates in place are classes whose
methods are proved against a function of their history (a ghost log, the stream received, the run of
steps); the laws are lemmas about that function. Clocks, outcomes of network calls, the glob compiler,
the hash and the per-frame rewrite are parameters, so every result holds for all of them.

## Model

| member | source | states |
|---|---|---|
| `RollingWindow.BucketCount` | crates/proxy/src/domain/quota.rs:142-149 | a ring always has a bucket, and its buckets cover the window, going over by less than a minute |
| `RingCounter.RingBuffer.constructor` | crates/proxy/src/domain/quota.rs:142-149 | a new ring stands for the empty log |
| `RingCounter.RingBuffer.Add` | crates/proxy/src/domain/quota.rs:151-163 | an add in any order extends the log by exactly its event; every bucket stays the fold of its slot's events |
| `RingCounter.RingBuffer.TotalsAt` | crates/proxy/src/domain/quota.rs:165-180 | over a log whose slots never go back in time, the answer is the log's own sum over the window |
| `RingCounter.RingBuffer.NextBoundaryMs` | crates/proxy/src/domain/quota.rs:183-204 | for adds in any order, when the oldest counted bucket leaves; over a timely log, when the oldest minute of the log that still counts leaves the window, 0 when none does |
| `RingCounter.BoundaryOfAnyBuckets` | crates/proxy/src/domain/quota.rs:183-204 | whatever the buckets hold, the totals stay put until that boundary and some counted bucket is gone from then on |
| `RingCounter.OldestCountedIsLeastLive` | crates/proxy/src/domain/quota.rs:183-204 | the least bucket start found by the scan is the least live minute of the log |
| `RollingWindow.SlotIsRemainder` | crates/proxy/src/domain/quota.rs:153 | the slot used in the proofs is the remainder the code computes |
| `RollingWindow.SameSlotIsALapApart` | crates/proxy/src/domain/quota.rs:153 | two different minutes in one slot are at least a whole ring apart |
| `RollingWindow.SlotsAfter` | crates/proxy/src/domain/quota.rs:151-163 | an event changes one slot of the ring and no other |
| `RollingWindow.BucketHoldsNewestMinute` | crates/proxy/src/domain/quota.rs:151-163 | every bucket holds the newest minute of its slot, summed in full, or nothing fell there |
| `RollingWindow.OrderedIsSlotOrdered` | crates/proxy/src/domain/quota.rs:151-163 | non-decreasing add times are enough for every result that asks for slot order |
| `RollingWindow.LiveMinutesAreTheWindow` | crates/proxy/src/domain/quota.rs:165-180 | the minutes that count are the last n, plus the one n back exactly when the current minute is untouched and that one has not expired |
| `RollingWindow.AgreeingSlotsAddUp` | crates/proxy/src/domain/quota.rs:165-180 | slots that are each right add up to the window's total, with no minute counted twice |
| `RollingWindow.RingRefinesLog` | crates/proxy/src/domain/quota.rs:165-180 | for every such log and later moment the ring's sum equals the log's sum over the window |
| `RollingWindow.WindowErrorIsAtMostOneMinute` | crates/proxy/src/domain/quota.rs:142-180 | every event of the last n - 1 minutes is counted, and none older than the duration plus a minute |
| `RingExactness.BucketHoldsAMinute` | crates/proxy/src/domain/quota.rs:151-163 | for adds in any order a bucket holds one minute of its slot and never more than that minute's usage |
| `RingExactness.UndisplacedIsHeld` | crates/proxy/src/domain/quota.rs:151-163 | a slot's newest minute that nothing displaced is held in full, whatever order the rest came in |
| `RingExactness.RingAgreesIff` | crates/proxy/src/main.rs:126-160 | a ring fed in any order answers right from a moment on if and only if no newest minute still in the window was ever displaced |
| `RingExactness.OutOfOrderReplayLosesUsage` | crates/proxy/src/adapters/storage/sqlite_request_log.rs:188-208 | two rows of one request each, replayed newest first: at a named later moment the ring reports nothing while the window holds one request |
| `CalendarWindow.CellEndIsExact` | crates/proxy/src/domain/quota.rs:251-254 | the computed boundary is the first moment outside the unit |
| `CalendarWindow.UnitsNest` | crates/proxy/src/domain/quota.rs:251-254 | a minute has 60,000 milliseconds, an hour 60 minute cells and a day 24 hour cells |
| `CalendarWindow.CalendarCounter.constructor` | crates/proxy/src/domain/quota.rs:214-219 | a new counter stands for the empty log |
| `CalendarWindow.CalendarCounter.Add` | crates/proxy/src/domain/quota.rs:221-236 | for adds in any order the running total stands for the log: all of the open unit plus what straggled in from earlier ones since it opened |
| `CalendarWindow.CalendarCounter.TotalsAt` | crates/proxy/src/domain/quota.rs:238-244 | for adds in any order, the answer is the sum of the current unit if and only if the counter was not fed in it yet or nothing straggled in from an earlier one |
| `CalendarWindow.CalendarCounter.NextBoundaryMs` | crates/proxy/src/domain/quota.rs:246-248 | the time to the end of the open unit, which is the current one, or 0 when the counter has not been fed since its unit ended |
| `CalendarWindow.ReadIsExactIff` | crates/proxy/src/domain/quota.rs:207-249 | the same condition as a law of the log, with no assumption on its order |
| `CalendarWindow.NoStragglersIff` | crates/proxy/src/domain/quota.rs:221-236 | nothing straggled in if and only if every event added from behind the unit then and still open used nothing |
| `CalendarWindow.StragglersInOrder` | crates/proxy/src/adapters/quota/mod.rs:110-124 | over a log in time order the stragglers are exactly the rows older than the counter's first unit, while that unit is open |
| `CalendarWindow.SeededCounterOverReports` | crates/proxy/src/adapters/quota/mod.rs:110-124 | a counter created at one o'clock and seeded with a row of a millisecond before reads one request in an hour that has none |
| `CalendarWindow.LateAddOverReports` | crates/proxy/src/adapters/quota/mod.rs:141-152 | an add whose clock was read just before the hour, landing after another of the new hour, counts in the new hour |
| `CalendarWindow.OpenCellIsLatest` | crates/proxy/src/domain/quota.rs:221-236 | the open unit is the latest the counter was created in or fed from |
| `CalendarWindow.HeldAfter` | crates/proxy/src/domain/quota.rs:221-236 | an event beyond the open unit starts the total over, any other adds to it, wherever it belongs |
| `CalendarWindow.CalendarRetryIsExact` | crates/proxy/src/domain/quota.rs:246-276 | a calendar reject keeps rejecting on the same metric until the returned time is over, and one wait always ends it |
| `QuotaVerdict.VerdictMeaning` | crates/proxy/src/domain/quota.rs:258-291 | metric by metric: a reject comes iff requests, input tokens or output tokens have reached their own limit and names the first that has; a warning comes iff none has but one is at its share, names the first such with that share of its own limit, and is below 100 |
| `QuotaVerdict.VerdictIsMonotone` | crates/proxy/src/domain/quota.rs:258-291 | more usage in any metric never lowers the severity |
| `QuotaVerdict.BoundaryIsExact` | crates/proxy/src/domain/quota.rs:183-204 | with no further adds nothing leaves the window before the boundary, and the oldest minute is gone at it |
| `RingVerdict.Check` | crates/proxy/src/adapters/quota/mod.rs:128-139 | one check decides over what the ring answers; over a timely log that is the decision over the log's own window |
| `RingVerdict.BucketRetryIsExact` | crates/proxy/src/domain/quota.rs:165-276 | for adds in any order, a reject keeps rejecting on the same metric until the returned time is over, and from then on strictly fewer buckets count |
| `RingVerdict.BucketWaitingConverges` | crates/proxy/src/domain/quota.rs:165-276 | waiting out as many rejects as buckets count, at most the size of the ring, always ends in a non-reject |
| `RingVerdict.BucketStaysOnClock` | crates/proxy/src/domain/quota.rs:151-163 | a log in clock range, in any order, keeps every bucket's boundary on the clock |
| `RingVerdict.RingWaitingConverges` | crates/proxy/src/domain/quota.rs:142-276 | so a ring of n buckets fed any such log stops rejecting after at most n waits |
| `QuotaVerdict.RetryTimeIsExact` | crates/proxy/src/domain/quota.rs:258-276 | with no further usage, a reject decided over the window of the log lasts exactly until the returned time, and by then a minute of the log has left the window |
| `QuotaVerdict.WaitingConverges` | crates/proxy/src/domain/quota.rs:165-205 | waiting out as many rejects as minutes are live in the window, at most n, always ends in a non-reject of the window's decision |
| `MergePatch.Merge` | crates/proxy/src/adapters/providers/thinking.rs:113-132 | the in-place loop computes the function of section 2 of RFC 7396, for any visiting order of the keys |
| `MergePatch.PruneExisting` | crates/proxy/src/adapters/providers/thinking.rs:137-161 | the loop computes the part of the patch on paths the body lacks, for any visiting order |
| `MergePatch.MergedAtPath` | crates/proxy/src/adapters/providers/thinking.rs:113-132 | what a merge puts at every path: the patch's value, nothing under a null or a blocking value, else the target's |
| `MergePatch.MergeIsIdempotent` | crates/proxy/src/adapters/providers/thinking.rs:113-132 | merging the same patch twice is merging it once, for all trees |
| `MergePatch.FilledField` | crates/proxy/src/adapters/providers/thinking.rs:137-192 | a default never touches a field the body has, except to fill inside objects both have |
| `MergePatch.FillKeepsBody` | crates/proxy/src/adapters/providers/thinking.rs:137-192 | every path of the body keeps its value |
| `MergePatch.FillAddsMissing` | crates/proxy/src/adapters/providers/thinking.rs:137-192 | every non-null patch value on a path the body leaves open appears |
| `MergePatch.FillAddsNothingElse` | crates/proxy/src/adapters/providers/thinking.rs:137-192 | whatever is new came from the patch, at its own path, on a path the body left open |
| `MergePatch.PrunedAwayMeansComplete` | crates/proxy/src/adapters/providers/thinking.rs:137-161 | pruning leaves nothing if and only if the body already decides every path of the patch |
| `MergePatch.FillIsIdempotent` | crates/proxy/src/adapters/providers/thinking.rs:178-192 | filling in twice is filling in once |
| `MergePatch.FillAfterMerge` | crates/proxy/src/adapters/providers/thinking.rs:113-161 | a merge leaves nothing of the same patch to fill in |
| `MergePatch.ForceOverridesFill` | crates/proxy/src/adapters/providers/thinking.rs:113-192 | forcing after filling in equals forcing alone |
| `Thinking.InjectionIsIdempotent` | crates/proxy/src/adapters/providers/thinking.rs:178-192 | applying an injection twice, forced or not, to any JSON value is applying it once |
| `Thinking.ForceAfterDefault` | crates/proxy/src/adapters/providers/thinking.rs:178-192 | a forced level erases that its default ever ran |
| `Thinking.LevelsInjectOnce` | crates/proxy/src/adapters/providers/thinking.rs:45-192 | both laws for every patch of every level any kind offers, in either wire format |
| `Thinking.ForcedLevelShows` | crates/proxy/src/adapters/providers/thinking.rs:60-107 | a forced level puts its effort at the path where the kind's upstream looks for it, whatever the client sent |
| `Thinking.WireFormatsReached` | crates/proxy/src/adapters/providers/thinking.rs:60-107 | which wire formats a kind's levels reach |
| `Thinking.WhoOffers` | crates/proxy/src/adapters/providers/thinking.rs:45-56 | level by level, which kinds offer it |
| `Thinking.NothingToKeep` | crates/proxy/src/adapters/providers/thinking.rs:178-192 | text that is no JSON passes as it is, and a default into a value without fields acts as if forced |
| `Thinking.KimiLeavesNoThinking` | crates/proxy/src/adapters/providers/thinking.rs:60-107 | for every Kimi level and wire format, no `thinking` key is left if and only if the level is forced or the client sent none |
| `Thinking.OffDisablesCleanly` | crates/proxy/src/adapters/providers/thinking.rs:60-107 | for each of the three kinds that spell off as `thinking.type`, in every wire format: the body ends up disabled and without a budget if and only if forced or the client's own `thinking` leaves room for it |
| `Thinking.KimiDefaultKeepsThinking` | crates/proxy/src/adapters/providers/thinking.rs:137-192 | a client's thinking object stays next to the effort that a Kimi default adds |
| `Thinking.OffDefaultKeepsBudget` | crates/proxy/src/adapters/providers/thinking.rs:137-192 | a client's enabled thinking keeps its type and its budget under an off default |
| `SseFraming.FindFrameEnd` | crates/proxy/src/adapters/providers/minimax_stream.rs:15-17 | the first blank-line terminator, or none exists |
| `SseFraming.FrameEndInBytes` | crates/proxy/src/adapters/providers/minimax_stream.rs:15-17 | that is where two line feeds first stand together |
| `SseFraming.FramingSplitsTheStream` | crates/proxy/src/adapters/providers/minimax_stream.rs:176-230 | frames, terminators and rest spell the stream back; no frame hides a terminator |
| `SseFraming.FramingIsUnique` | crates/proxy/src/adapters/providers/minimax_stream.rs:176-230 | and there is no other way to cut it: framing inverts terminating and joining |
| `SseFraming.FramingContinues` | crates/proxy/src/adapters/providers/minimax_stream.rs:176-230 | framing a longer stream continues from the carry buffer alone |
| `SseFraming.StreamFilter.constructor` | crates/proxy/src/adapters/providers/minimax_stream.rs:176-185 | a new filter has received nothing and carries nothing |
| `SseFraming.StreamFilter.OnItem` | crates/proxy/src/adapters/providers/minimax_stream.rs:176-230 | each item extends the output by exactly the newly completed frames; the carry buffer never holds a complete frame |
| `SseFraming.StreamFilter.DrainFrames` | crates/proxy/src/adapters/providers/minimax_stream.rs:243-297 | the drain loop emits the non-blank frames of the buffer in order and keeps the rest |
| `SseFraming.OutputIgnoresChunking` | crates/proxy/src/adapters/providers/minimax_stream.rs:176-230 | over any run, errors included, the output is the rewrite of exactly the frames of the whole stream, and the errors pass through in order |
| `SseFraming.RenderedAt` | crates/proxy/src/adapters/providers/minimax_stream.rs:193-223 | every frame that is not blank is rewritten once, behind those before it, and blank ones leave nothing |
| `SseFraming.SameStreamSameOutput` | crates/proxy/src/adapters/providers/minimax_stream.rs:243-297 | two ways of cutting one stream give the same output |
| `SseFraming.NothingLostIff` | crates/proxy/src/adapters/providers/minimax_stream.rs:176-230 | a stream is cut to its last byte if and only if it is empty or ends in an even number of newlines, at least two |
| `SseFraming.TrailingFragmentIsLost` | crates/proxy/src/adapters/providers/minimax_stream.rs:176-230 | a stream without a blank line produces no output at all |
| `Utf8.NewlineSplitsText` | crates/proxy/src/adapters/providers/minimax_stream.rs:179-195 | text around a newline is well-formed iff both sides are, so no character straddles a cut |
| `Utf8.FramesAreWellFormed` | crates/proxy/src/adapters/providers/minimax_stream.rs:179-195 | a stream is well-formed UTF-8 if and only if all its frames and its rest are |
| `Utf8.LossyDecodingIsHarmless` | crates/proxy/src/adapters/providers/minimax_stream.rs:246-262 | on a well-formed stream the lossy decoder changes no output, however chunks split characters |
| `Utf8.WellFormedIffEncoded` | crates/proxy/src/adapters/providers/minimax_stream.rs:179-195 | well-formed byte strings are exactly the encodings of character strings under section 3 of RFC 3629 |
| `TagStrip.StartsWithChars` | crates/proxy/src/adapters/providers/minimax_stream.rs:136-149 | true iff the tag stands at the front |
| `TagStrip.SkipUntilEndTag` | crates/proxy/src/adapters/providers/minimax_stream.rs:154-173 | the sliding window stops right behind the first end tag, or consumes everything when there is none |
| `TagStrip.StripThinkingTags` | crates/proxy/src/adapters/providers/minimax_stream.rs:106-133 | the scanner returns the kept text of the parse, on every string |
| `TagStrip.ParseIsFaithful` | crates/proxy/src/adapters/providers/minimax_stream.rs:106-133 | the parse spells its input back and cuts at first tags only |
| `TagStrip.ParseIsUnique` | crates/proxy/src/adapters/providers/minimax_stream.rs:106-133 | there is no other well-formed reading of a text |
| `TagStrip.StripIsIdentityIffUntagged` | crates/proxy/src/adapters/providers/minimax_stream.rs:106-133 | stripping leaves a text alone if and only if it holds no start tag |
| `TagStrip.StrippingTwiceIff` | crates/proxy/src/adapters/providers/minimax_stream.rs:106-133 | stripping twice is stripping once if and only if no hidden span of the text stands between the two halves of a start tag |
| `TagStrip.StrippingMayExposeATag` | crates/proxy/src/adapters/providers/minimax_stream.rs:106-133 | a named text that strips to a bare start tag, which the next strip removes |
| `CodexAggregate.Aggregator.constructor` | crates/proxy/src/adapters/providers/codex.rs:235-247 | nothing collected yet, and the default finish reason |
| `CodexAggregate.Aggregator.EnsureSlot` | crates/proxy/src/adapters/providers/codex.rs:278-288 | growing reaches the index with blank calls, each at its own index, and changes none before |
| `CodexAggregate.Aggregator.FillSlot` | crates/proxy/src/adapters/providers/codex.rs:289-297 | id and name of the addressed call are overwritten when the delta carries them; every other call, and all arguments, stay |
| `CodexAggregate.Aggregator.AbsorbDelta` | crates/proxy/src/adapters/providers/codex.rs:277-305 | slots and argument map keep standing for the deltas seen, extended by this one |
| `CodexAggregate.Aggregator.AbsorbEvent` | crates/proxy/src/adapters/providers/codex.rs:260-318 | text is appended, the last finish reason and usage win, and all deltas of the event are absorbed in order |
| `CodexAggregate.Aggregator.Finish` | crates/proxy/src/adapters/providers/codex.rs:322-364 | for any visiting order of the map, every call gets its own arguments and the length guard drops nothing |
| `CodexAggregate.Buffer` | crates/proxy/src/adapters/providers/codex.rs:235-364 | the whole branch returns what the event stream means, call by call |
| `CodexAggregate.EmptyReply` | crates/proxy/src/adapters/providers/codex.rs:233-247 | no events make an empty reply that stopped |
| `CodexAggregate.ReplyGrows` | crates/proxy/src/adapters/providers/codex.rs:260-318 | one more event: its text is appended, its finish reason and usage replace earlier ones, its deltas follow |
| `CodexAggregate.NamespaceGoes` | crates/proxy/src/adapters/providers/codex.rs:340-343 | the model is a namespace without a slash, a slash and the reported name, or has no slash |
| `CodexAggregate.UnindexedIsFirst` | crates/proxy/src/adapters/providers/codex.rs:278-279 | a delta without an index is about the first call |
| `CodexAggregate.InterleavingDoesNotMatter` | crates/proxy/src/adapters/providers/codex.rs:272-327 | streams that agree call by call give the same tool calls, however interleaved |
| `CodexAggregate.SplitCallsReassemble` | crates/proxy/src/adapters/providers/codex.rs:272-327 | however a sender cuts the arguments of its calls into pieces and interleaves the calls, the buffered reply has the calls it sent |
| `CodexAggregate.OneByOneInterleaves` | crates/proxy/src/adapters/providers/codex.rs:272-327 | sending call after call is one such interleaving |
| `ModelFormats.ParseModelFormats` | crates/proxy/src/config.rs:499-528 | succeeds iff every segment is good, then has one rule per non-blank segment in order; otherwise reports the first bad segment |
| `ModelFormats.CheckFindsShapeErrors` | crates/proxy-tui/src/validate.rs:78-97 | the terminal's pre-check passes iff every segment has the shape of a rule |
| `ModelFormats.FormAndDaemonAgree` | crates/proxy-tui/src/validate.rs:78-97 | the daemon accepts a string iff the pre-check does and every glob compiles |
| `ModelFormats.TrimmingKeepsSegments` | crates/proxy-tui/src/validate.rs:147-150 | the trimmed string the form saves means the same rules |
| `ModelFormats.TrimTakesSpaces` | crates/proxy-tui/src/validate.rs:147 | trimming takes exactly the spaces around a text |
| `ModelFormats.PrintedRulesParse` | crates/proxy/src/config.rs:499-528 | writing rules down and parsing them gives them back, in order |
| `ModelFormats.PrintedRuleParses` | crates/proxy/src/config.rs:506-521 | a rule is read back from its glob and the name of its format in any letter case |
| `ProxyConfig.UsableMeansFoundEnabled` | crates/proxy/src/config.rs:457-490 | looking up the first provider of a name decides whether a rule may name it |
| `ProxyConfig.ValidateProviders` | crates/proxy/src/config.rs:440-451 | passes iff names are unique and rule strings parse; a complaint is true of the configuration |
| `ProxyConfig.Validate` | crates/proxy/src/config.rs:436-492 | accepts exactly the valid configurations and complains truthfully about the others |
| `ProviderEdits.RulesReferencing` | crates/proxy-tui/src/validate.rs:186-208 | empty if and only if no rule names the provider |
| `ProviderEdits.ReferencesAreListed` | crates/proxy-tui/src/validate.rs:186-208 | the list holds exactly the rules that name the provider, by rising number, with their match and role |
| `ProviderEdits.Retained` | crates/proxy-tui/src/main.rs:996-1000 | keeps exactly the rules that do not name the provider, and drops as many as the references list |
| `ProviderEdits.FormFitsIff` | crates/proxy-tui/src/validate.rs:102-150 | a form is in order iff its name, uniqueness, credentials, rename and rule string are, and a complaint is about the first that is not |
| `ProviderEdits.SentEntries` | crates/proxy-tui/src/validate.rs:152-181 | what is sent holds every other entry in its place and, in the form's, each typed field where it belongs, trimmed or dropped as its kind requires |
| `ProviderEdits.AsksFirstIff` | crates/proxy-tui/src/main.rs:1005-1021 | a save asks first iff it would disable, unconfirmed, a provider that some rule names today |
| `ProviderEdits.RetriedAddSendsNothingIff` | crates/proxy-tui/src/main.rs:1397-1404 | an OAuth add goes on without a save iff its provider is there already |
| `ProviderEdits.UntouchedSaveIff` | crates/proxy-tui/src/app.rs:824-853 | opening a clean provider and saving it untouched leaves the configuration as it is iff its login is not the Codex command line's |
| `ProviderEdits.SavedEntriesAreClean` | crates/proxy-tui/src/validate.rs:102-181 | what a form saves is clean, so opening and saving it again changes nothing |
| `ProviderEdits.EditIsSoundIff` | crates/proxy-tui/src/main.rs:1167-1260 | a validated edit keeps the configuration sound if and only if it adds, keeps name and usability of the stored entry, or no remaining rule names that entry; the form may be arbitrarily stale |
| `ProviderEdits.SubmissionsAreSound` | crates/proxy-tui/src/main.rs:1005-1030 | whatever a fresh form sends is referentially sound: add, edit, rename, disable, with or without consent |
| `ProviderEdits.FormStaysFresh` | crates/proxy-tui/src/main.rs:1167-1260 | resubmitting a form after it has been saved is safe, even when it renamed the provider |
| `ProviderEdits.StaleFormBreaksRules` | crates/proxy-tui/src/main.rs:1228-1245 | why freshness is needed: a named stale form, saved over a named sound configuration, leaves a rule naming nobody |
| `ProviderEdits.RoutingChangesIff` | crates/proxy-tui/src/main.rs:1167-1200 | a save changes the routing if and only if consent was given and some rule names the target |
| `ProviderEdits.ConsentOutlivesDisabling` | crates/proxy-tui/src/main.rs:1183-1190 | disable with a blank name, say yes, correct the name and re-enable: after the question and the form's own refusal, the next save drops the rules and changes nothing else |
| `ProviderEdits.ConsentExample` | crates/proxy-tui/src/main.rs:1183-1190 | two providers with a rule each: the first one's form, refused for a blank name and then re-enabled, sends a configuration without its rule |
| `ProviderEdits.OAuthEditDropsIff` | crates/proxy-tui/src/main.rs:1935-1954 | exactly when an OAuth edit silently loses a change: name, mode and settings are the stored ones and the wire format or rule string is not (or the limit the form carries along is out of date) |
| `ProviderEdits.OAuthEditLosesFormat` | crates/proxy-tui/src/main.rs:1935-1954 | switching an OAuth provider from both wire formats to one sends nothing |
| `ProviderEdits.DeleteIsSoundIff` | crates/proxy-tui/src/main.rs:948-984 | deleting keeps the configuration sound if and only if no rule names the provider |
| `EditSession.Session.constructor` | crates/proxy-tui/src/main.rs:917-946 | a session starts with nothing loaded, nothing sent and nothing to distrust |
| `EditSession.Session.Load` | crates/proxy/src/application/use_cases/admin.rs:201-236 | any configuration the daemon serves is taken over; the session stays trusted iff it is sound and fits the open dialog |
| `EditSession.Session.OpenAdd` | crates/proxy-tui/src/main.rs:925-927 | an empty form in add mode, sound whatever is configured, even before anything is loaded |
| `EditSession.Session.OpenEdit` | crates/proxy-tui/src/main.rs:917-923 | the form opens filled from the selected provider, fresh for the cached configuration; nothing opens beyond the list or without one |
| `EditSession.Session.OpenDelete` | crates/proxy-tui/src/main.rs:929-946 | the dialog lists exactly the rules in the way |
| `EditSession.Session.Type` | crates/proxy-tui/src/main.rs:1262-1378 | typing keeps what the form was opened on and the consent given, and so the session sound |
| `EditSession.Session.Cancel` | crates/proxy-tui/src/main.rs:1052-1059 | escape drops the form with its consent; nothing is sent and the configuration stays |
| `EditSession.Session.PutConfig` | crates/proxy/src/application/use_cases/admin.rs:201-236 | a trusted session only sends sound configurations; the cache changes iff the daemon accepts |
| `EditSession.Session.SubmitProviderForm` | crates/proxy-tui/src/main.rs:1005-1030 | a save asks, complains (also when nothing is loaded), sends nothing or sends exactly the specified edit, and everything a trusted session has sent stays sound |
| `EditSession.Session.SubmitNonOAuthSave` | crates/proxy-tui/src/main.rs:1167-1260 | the imperative save produces the specified configuration or error; accepted it closes the form, refused it leaves it failed |
| `EditSession.Session.SubmitOAuthAdd` | crates/proxy-tui/src/main.rs:1381-1479 | the placeholder saved before the login is the specified one, and a retry sends nothing and goes on to the login |
| `EditSession.Session.SubmitOAuthEdit` | crates/proxy-tui/src/main.rs:1874-2001 | stored credentials are kept, and a configuration is sent iff a compared field changed |
| `EditSession.Session.FinishLogin` | crates/proxy-tui/src/main.rs:1104-1145 | a finished login closes and takes over what the daemon holds, or nothing when that cannot be fetched; a failed one leaves configuration and form for a retry |
| `EditSession.FormIsNeverLost` | crates/proxy-tui/src/main.rs:1244-1259 | a form closes only once its configuration was accepted; refused, rejected or waiting, all that was typed stays |
| `EditSession.Session.DisableConfirmKey` | crates/proxy-tui/src/main.rs:1032-1049 | only a yes changes anything; then exactly the pending save with consent goes out |
| `EditSession.Session.DeleteKey` | crates/proxy-tui/src/main.rs:948-984 | a deletion goes out iff confirmed and unblocked, and removes exactly that provider |
| `EditSession.SavedFormatsParse` | crates/proxy-tui/src/validate.rs:147-150 | the rule string a form saves parses in the daemon iff its globs compile |
| `EditSession.DaemonAcceptsIff` | crates/proxy/src/config.rs:436-492 | from any sound configuration, also one without providers or rules, the daemon accepts what a form sends iff some rule is not given up in the form and its globs compile |
| `EditSession.OnlyRoutedProviderStays` | crates/proxy-tui/src/main.rs:1005-1030 | disabling a provider that every rule names asks, complains or is refused by the daemon, never saved |
| `EditSession.ConsentRun` | crates/proxy-tui/src/main.rs:1005-1049 | a whole session, from opening the form to the daemon's answer, that ends with a provider as it was and its rules gone |
| `EditSession.UntouchedRun` | crates/proxy-tui/src/app.rs:276-285 | a whole session: opened and saved untouched, a provider stays as it is, unless it used the login of the Codex command line and the daemon accepts |
| `EditSession.DaemonAcceptsDeletion` | crates/proxy/src/config.rs:436-492 | the daemon accepts every deletion the dialog lets through |
| `RouteBuilder.BuildLeaves` | crates/proxy/src/adapters/providers/builder.rs:139-148 | one leaf per enabled provider and no other; fails iff an enabled provider cannot be built |
| `RouteBuilder.PriorityOrder` | crates/proxy/src/adapters/providers/builder.rs:152-165 | the order holds every rule once, by priority and then file position |
| `RouteBuilder.PriorityOrderIsStable` | crates/proxy/src/adapters/providers/builder.rs:152-165 | and an arrangement of the rules is in that order if and only if it is this one |
| `RouteBuilder.OrderInPlain` | crates/proxy/src/config.rs:340-344 | of two rules the earlier has the smaller number, its own or its position, or an equal one and the earlier position |
| `RouteBuilder.NoPrioritiesFileOrder` | crates/proxy/src/config.rs:340-344 | rules without priorities stay in file order |
| `RouteBuilder.LiveChainMembers` | crates/proxy/src/adapters/providers/builder.rs:152-233 | a rule's live chain holds exactly its providers that are not parked |
| `RouteBuilder.BuildRule` | crates/proxy/src/adapters/providers/builder.rs:152-233 | a rule becomes its live chain with the first promoted, or nothing when all are parked; an error says what is wrong |
| `RouteBuilder.BuildInOrder` | crates/proxy/src/adapters/providers/builder.rs:152-233 | the loop builds the rules in order and stops at one that cannot be built |
| `RouteBuilder.BuildRoutingProvider` | crates/proxy/src/adapters/providers/builder.rs:152-233 | succeeds iff every rule builds, and then the table is the stable priority sort of the rules that have somebody live |
| `RouteBuilder.ValidatedRulesHaveLeaves` | crates/proxy/src/config.rs:436-492 | after validation every live provider of every rule is enabled and has a leaf; only a match pattern can still fail |
| `RouteBuilder.BuildFromConfig` | crates/proxy/src/adapters/providers/builder.rs:239-246 | a valid configuration never fails for an unknown provider, builds under an exact condition, and then routes to enabled providers only |
| `RouteBuilder.RuleInPlain` | crates/proxy/src/adapters/providers/builder.rs:187-224 | a rule leads with its own primary unless parked, else with its first fallback that is not; the other fallbacks that are not parked follow in file order; nothing is built iff all are parked |
| `RouteBuilder.LiveChainInOrder` | crates/proxy/src/adapters/providers/builder.rs:189-191 | taking out parked names keeps the others in order |
| `RouteBuilder.RoutedRulesAreRules` | crates/proxy/src/adapters/providers/builder.rs:152-233 | every built rule comes from a configured one and serves it in that way, with its pattern and strategy |
| `RouteBuilder.RoutedRulesServe` | crates/proxy/src/adapters/providers/builder.rs:152-233 | in a sound configuration every built rule routes to configured, enabled providers only |
| `RouteBuilder.ValidConfigMayNotBuild` | crates/proxy/src/config.rs:436-492 | a configuration that validates and cannot be built, for a match pattern that no glob compiler takes |
| `TokenRefresh.BackoffIsCappedExponential` | crates/proxy/src/adapters/providers/token_refresh.rs:108-114 | the capped shift and 32-bit cut never show: min(60 * 2^f, 1800) seconds for every f |
| `TokenRefresh.RefreshState.ShouldSkip` | crates/proxy/src/adapters/providers/token_refresh.rs:67-79 | skipped iff the token is the rejected one or the backoff is running |
| `TokenRefresh.RefreshState.RecordSuccess` | crates/proxy/src/adapters/providers/token_refresh.rs:82-86 | all books on the provider are cleared, others stay |
| `TokenRefresh.RefreshState.RecordTerminal` | crates/proxy/src/adapters/providers/token_refresh.rs:90-95 | the token is banned and the backoff forgotten |
| `TokenRefresh.RefreshState.RecordTransient` | crates/proxy/src/adapters/providers/token_refresh.rs:99-104 | the next attempt is put off by the delay of the failures so far |
| `TokenRefresh.RefreshState.Sweep` | crates/proxy/src/adapters/providers/token_refresh.rs:183-321 | the books after any number of sweeps are those of one run from a clean start; a sweep extends that run and attempts exactly what the run says |
| `TokenRefresh.RunsChain` | crates/proxy/src/adapters/providers/token_refresh.rs:183-321 | a run that goes on from where another ended is one run |
| `TokenRefresh.AttemptsChain` | crates/proxy/src/adapters/providers/token_refresh.rs:183-321 | and attempts the same tokens at the same steps |
| `TokenRefresh.CounterIsStreak` | crates/proxy/src/adapters/providers/token_refresh.rs:99-104 | in every run the counter is the number of transient failures since the last success or rejection |
| `TokenRefresh.TransientFailuresAreSpaced` | crates/proxy/src/adapters/providers/token_refresh.rs:97-114 | after the k-th failure in a row the next attempt is at least min(60 * 2^(k-1), 1800) seconds away |
| `TokenRefresh.RetriedExactlyWhenDue` | crates/proxy/src/adapters/providers/token_refresh.rs:67-114 | after the k-th failure in a row a provider due again is tried iff min(60 * 2^(k-1), 1800) seconds are over |
| `TokenRefresh.ClearProvidersAreTried` | crates/proxy/src/adapters/providers/token_refresh.rs:67-86 | with nothing on the books, or a success as the last entry, a provider is tried whenever it is due |
| `TokenRefresh.RejectedTokenStaysUnused` | crates/proxy/src/adapters/providers/token_refresh.rs:46-95 | a rejected token is not attempted until a success or another token's rejection; a changed token is tried at once |
| `TeedStream.TeedStream.constructor` | crates/proxy/src/frameworks/stream.rs:48-73 | opens with an empty parser input and the deadline one timeout away |
| `TeedStream.TeedStream.FireFinish` | crates/proxy/src/frameworks/stream.rs:77-81 | calls back at most once, with what the parser was fed |
| `TeedStream.TeedStream.PollNext` | crates/proxy/src/frameworks/stream.rs:94-129 | every branch of a poll: timeout, chunk, fault, end, pending |
| `TeedStream.TeedStream.Drop` | crates/proxy/src/frameworks/stream.rs:132-138 | a drop finalises an unfinished stream and leaves a finished one alone |
| `TeedStream.FirstEndIsFirst` | crates/proxy/src/frameworks/stream.rs:94-129 | the end that decides is the first timeout or end of stream in the run |
| `TeedStream.FinishedExactlyOnce` | crates/proxy/src/frameworks/stream.rs:76-138 | every run ended by a drop calls back once, normally iff the first end was end of stream, with exactly the chunks forwarded before it |
| `TeedStream.NothingAfterTimeout` | crates/proxy/src/frameworks/stream.rs:94-129 | after an idle timeout nothing more is forwarded, whatever upstream offers |
| `TeedStream.TimesOutIffSilent` | crates/proxy/src/frameworks/stream.rs:94-129 | a stream that has not ended times out iff no chunk or fault came for the idle timeout |
| `TeedStream.ForwardsUnchanged` | crates/proxy/src/frameworks/stream.rs:94-129 | over a run, until its first end: the client gets upstream's answers one for one, no chunk is dropped, changed or reordered, and the parser is fed the same chunks |
| `Affinity.PickIsLastHighest` | crates/proxy/src/adapters/providers/affinity.rs:146-150 | the pick is the last of the highest-scoring healthy entries; none iff nobody is healthy |
| `Affinity.RemovalKeepsOtherPicks` | crates/proxy/src/adapters/providers/affinity.rs:146-158 | removing an entry that was not picked leaves the pick, for every score function, ties included |
| `Affinity.CooldownKeepsOtherPicks` | crates/proxy/src/adapters/providers/affinity.rs:146-158 | so does an unpicked entry going unhealthy |
| `Affinity.AdditionKeepsOrTakesPick` | crates/proxy/src/adapters/providers/affinity.rs:146-158 | a new entry, wherever inserted, takes the request or leaves its pick |
| `AffinityText.Normalize` | crates/proxy/src/adapters/providers/affinity.rs:117-137 | the flag-driven loop writes the lower-cased words with single spaces between them, for every text and any lower-casing that keeps words |
| `AffinityText.SpacingRoundTrips` | crates/proxy/src/adapters/providers/affinity.rs:117-137 | splitting the written text gives the words back |
| `AffinityText.SameNormalFormIff` | crates/proxy/src/adapters/providers/affinity.rs:117-137 | two texts normalise alike if and only if they have the same lower-cased words |
| `AffinityText.NormalFormIsStable` | crates/proxy/src/adapters/providers/affinity.rs:117-137 | normalising twice is normalising once |
| `AffinityText.NormalFormIsTight` | crates/proxy/src/adapters/providers/affinity.rs:117-137 | no space at either end or next to another, only plain ones; the letters are those of the text in order, each lower-cased |
| `JsonlRecords.OverviewFrom` | crates/analysis/src/adapters/gateways/jsonl_records.rs:55-76 | tokens, messages and distinct named sessions of exactly the matching records |
| `JsonlRecords.GroupByKey` | crates/analysis/src/adapters/gateways/jsonl_records.rs:78-104 | one group per day and model that occurs, holding all its tokens |
| `JsonlRecords.DailyByModelFrom` | crates/analysis/src/adapters/gateways/jsonl_records.rs:78-104 | one row per day and model, strictly sorted newest first, with all the tokens of its records |
| `JsonlRecords.RowsAddUp` | crates/analysis/src/adapters/gateways/jsonl_records.rs:78-104 | sorted rows that each hold their key's tokens add up to the tokens of all their keys |
| `JsonlRecords.DailyRowsMatchOverview` | crates/analysis/src/adapters/gateways/jsonl_records.rs:55-104 | the rows hold exactly the overview's tokens in every category |
| `JsonlRecords.RowOrderInPlain` | crates/analysis/src/adapters/gateways/jsonl_records.rs:96-104 | later days come first, within a day models by name |
| `JsonlRecords.FiltersNarrow` | crates/analysis/src/adapters/gateways/jsonl_records.rs:16-53 | each field of a filter narrows it by its own comparison, the provider's by none |
| `JsonlRecords.DateRangesAddUp` | crates/analysis/src/adapters/gateways/jsonl_records.rs:16-76 | cutting a date range in two loses no message and no token |
| `Dashboard.PresentDashboard` | crates/analysis/src/adapters/presenters/dashboard_presenter.rs:17-104 | every cell, row total, column total and the grand total is the sum of the rows it stands for; models sorted by total, days newest first |
| `Dashboard.MarginsAgree` | crates/analysis/src/adapters/presenters/dashboard_presenter.rs:41-104 | row totals over days, column totals over models and the grand total agree in every category |
| `Dashboard.TableIsDetermined` | crates/analysis/src/adapters/presenters/dashboard_presenter.rs:41-104 | those statements leave no freedom: two such tables of the same rows are equal |
| `Dashboard.GrandTotalIsOverview` | crates/analysis/src/adapters/gateways/jsonl_records.rs:55-104 | from records through both groupings the grand total is the overview's total |
| `Dashboard.TableOrder` | crates/analysis/src/adapters/presenters/dashboard_presenter.rs:17-54 | columns stand in order of the totals they show, equal ones by name; days newest first |
| `Dashboard.FiltersAreMargins` | crates/analysis/src/adapters/gateways/jsonl_records.rs:33-76 | filtering records by a model gives the tokens of its column, by a single day those of its row |
| `UsageRows.LessInPlain` | crates/analysis/src/adapters/presenters/dashboard_presenter.rs:23 | names compare by their first difference, a prefix first |

## Where the code differs from what it says

Each of these is a proved lemma named above, and the model follows the code.

- A calendar counter takes rows older than its own unit, replayed at start-up or added late by a racing
  request, into the unit that is open (`CalendarWindow.ReadIsExactIff`,
  `CalendarWindow.SeededCounterOverReports`, `CalendarWindow.LateAddOverReports`).
- The database replays rows without an order, and an old row can displace a newer minute of the ring
  (`RingExactness.RingAgreesIff`, `RingExactness.OutOfOrderReplayLosesUsage`).
- Kimi's "no thinking next to an effort" and "no budget when off" hold for a forced level; as a default
  they hold exactly under the stated conditions, because pruning drops the deleting null
  (`Thinking.KimiLeavesNoThinking`, `Thinking.KimiDefaultKeepsThinking`, `Thinking.OffDisablesCleanly`,
  `Thinking.OffDefaultKeepsBudget`).
- Stripping tags is not idempotent (`TagStrip.StrippingTwiceIff`, `TagStrip.StrippingMayExposeATag`), and
  the part of a stream behind its last blank line is never emitted (`SseFraming.NothingLostIff`,
  `SseFraming.TrailingFragmentIsLost`).
- Consent to drop rules outlives the choice to disable (`ProviderEdits.ConsentOutlivesDisabling`,
  `EditSession.ConsentRun`), an OAuth edit can lose changes (`ProviderEdits.OAuthEditDropsIff`,
  `ProviderEdits.OAuthEditLosesFormat`), and a provider that every rule names can never be disabled from
  the form (`EditSession.DaemonAcceptsIff`, `EditSession.OnlyRoutedProviderStays`).
- The edit form shows a provider that uses the login of the Codex command line as passthrough, and saves it
  so even when nothing was touched (`ProviderEdits.UntouchedSaveIff`, `EditSession.UntouchedRun`).
- Validation never looks at match patterns, so a valid configuration can still fail to build
  (`RouteBuilder.ValidatedRulesHaveLeaves`, `RouteBuilder.ValidConfigMayNotBuild`).

## Left out

- RingVerdict.BucketRetryIsExact: asks that the boundaries of the buckets in use stay on the 64-bit clock; `RingVerdict.BucketStaysOnClock` gives that from the log.
- RingCounter.RingBuffer.NextBoundaryMs: relates its value to the log for slot-ordered logs whose boundaries stay on the 64-bit clock, and to the buckets for all others; counters and timestamps are unbounded naturals, so overflow of `+=` is not modelled.
- RingCounter.RingBuffer.TotalsAt: is tied to the log's total for slot-ordered logs; for other logs `RingExactness.RingAgreesIff` gives the exact condition, for events that count at least one request each, which is what both recorders write.
- CalendarWindow.CalendarCounter.TotalsAt: compares with the current unit for a clock that is past the counter's creation and every event added; a reader whose own clock lags is covered by the read-out alone.
- SseFraming.OutputIgnoresChunking: the JSON edit inside one frame, the lossy decoder and the blank test are arbitrary functions; the filter that only strips tags is the same loop with another rewrite.
- MergePatch.Merge: returns the merged tree instead of writing through a reference, since JSON values are owned trees; numbers are integers.
- Thinking.InjectionIsIdempotent: is about parsed bodies; parsing and printing JSON text is not modelled, and a body that does not parse is passed through.
- CodexAggregate.Buffer: starts from the parsed events; reading the event lines and giving up on a stream error are not modelled.
- RouteBuilder.BuildFromConfig: adapter construction and the glob compiler are arbitrary predicates, and a leaf is represented by its provider's entry.
- ProviderEdits.SubmissionsAreSound: wants the cached configuration to be the one the form was opened on, or one sent by that form since; `ProviderEdits.EditIsSoundIff` has the condition without that.
- EditSession.Session.Load: once a configuration that is unsound or does not fit the open dialog has come in, the session is no longer trusted: its steps stay specified, but its sends are no longer claimed to be sound.
- ProviderEdits.UntouchedSaveIff: an entry is clean when its options are spelled as the form spells them; how older spellings are normalised by opening and saving is in `FilledForm`, without a law of its own.
- EditSession.Session.SubmitOAuthEdit: whether the login starts, and how it ends, are inputs; the exchange itself and the code typed for it are not modelled.
- TokenRefresh.RefreshState.Sweep: which providers are due (expiry times, kinds) is an input, as is each attempt's outcome; the write of new tokens into the configuration and a poisoned configuration lock ending a sweep early are not modelled.
- Affinity.PickIsLastHighest: scores are an arbitrary function of the entry's id; hashing, and extracting the conversation text from the body, are not modelled.
- AffinityText.Normalize: lower-casing is an arbitrary function that turns a character that is no space into such characters, as Unicode's does.
- Dashboard.PresentDashboard: covers token numbers, before they are formatted; costs are floating point and left out.
- The legacy `enabled` flag and the textual form of modes and levels, and the admin interface's normalisation of incoming fields: finite tables.
- Parsing of window and duration strings: independent of the counters.
- Live account usage, the routing provider's failover and cooldown at request time, translation between wire formats, alias aggregation: separate components behind interfaces that appear here as inputs.
- HTTP, SQLite, OAuth exchange, terminal rendering, key dispatch and URL autofill: I/O and user interface.
