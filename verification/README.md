# LibreFang: a verified model of the gateway's protocols, the event-stream readers, the SDK generator and the changelog

LibreFang connects agents to the outside world. This project models the parts of its
repository in which state, interleaving or parsing make mistakes easy, and proves in Dafny
what those parts promise. `dafny verify dfyconfig.toml` checks all of it.

| file | models |
|---|---|
| `journal.dfy` | the WhatsApp gateway's message journal, catch-up sweep and cleanup |
| `dedup.dfy` | two-phase deduplication under interleaved `messages.upsert` handlers |
| `decrypt_retry.dfy` | the decrypt-retry tracker with its expiry timers |
| `session_recovery.dfy` | Signal session recovery: cooldown, attempt cap, expiry |
| `rate_limit.dfy` | the sliding-window rate limiter and the escalation debounce |
| `retry_store.dfy` | the bounded store of raw messages |
| `silent_response.dfy`, `silent_kernel.dfy` | the gateway's silent-reply classifier and the Rust detector it is documented to mirror |
| `holdback.dfy` | the streaming hold-back accumulator |
| `sse_gateway.dfy` | the gateway's SSE frame loop and edit throttle |
| `sdk_streams.dfy`, `go_strings.dfy` | the JavaScript, Go and Rust SDK stream readers; Go's byte-wise trimming |
| `sdk_agreement.dfy` | where the three readers agree |
| `codegen_paths.dfy`, `codegen_ops.dfy` | the SDK generator: path templates, operations per tag, method names |
| `changelog_writer.dfy`, `changelog_reader.dfy` | `write_changelog` and the feed's `parseEntries`, as code |
| `changelog.dfy`, `changelog_feed.dfy` | what the two do to a changelog seen as a list of sections |
| `text.dfy`, `utf8.dfy`, `timed_map.dfy`, `options.dfy` | trimming, splitting, UTF-8, pruned maps, optional values |

Objects that the source updates in place are classes whose methods are tied to functions on
values; loops are loops. The same functions drive a state machine whose runs are sequences
of events, and the main results are about every run: each tracker is compared with a
complete history that is never pruned. Clocks, network outcomes, query results and JSON
parsing are parameters, and the clock never goes backwards. Texts are sequences of integers:
UTF-16 units in the silent-reply classifier, code points elsewhere, bytes on the wire.

## What the proofs found

- The gateway's classifier is documented as the mirror of the kernel's detector. It is not:
  `SilentKernel.LayersDisagree` gives the exact three families of texts on which the two
  layers decide differently, and `SilentKernel.FamiliesInhabited` a member of each.
- A sweep works on a snapshot and its timer does not wait for the previous sweep, so the
  three attempts are not a limit when sweeps overlap: with `limit` of them in progress a
  message is re-forwarded at most `limit + 2` times (`Journal.BoundedRedelivery`), and
  `Journal.RedeliveryBoundIsReached` gives a run that does so, for every `limit`.
- The decrypt-retry tracker renews its timer at each failure, but the periodic sweep goes
  by the first failure, so a third failure can go unreported (`DecryptRetry.SweepForgets`).
  In every run each failure is reported, held, or lost with a dropped entry, and every third
  one is reported if and only if no live entry is dropped (`DecryptRetry.CountsExactlyIff`).
- A reply that ends in a sentinel may already have been forwarded
  (`Holdback.LongReplyMayHaveLeaked`); `Holdback.SilentUnderEveryChunking` says exactly
  which texts are safe under every chunking. A bare sentinel is, for every threshold of at
  least 16 and no smaller one (`Holdback.SafeThresholdIff`).
- JavaScript trims U+FEFF and keeps U+0085, Rust and Go the other way round. For any bytes,
  JavaScript and Rust stay in step on a stream if and only if every line up to its end is
  valid UTF-8 and either has neither code point at a margin, behind the white space all
  languages share, or is data to neither (`SdkAgreement.JsAndRustAgreeIff`); inside a payload
  both are harmless.
- The Go SDK also acts on an unterminated last line (`SdkAgreement.GoAgreesIff`), and a
  generated path with parameters is wrong for some arguments exactly when a literal part of
  the template holds a percent sign (`CodegenPaths.GoAgreesIff`).
- Each SDK requests the right URL exactly when its path parameters compile; the generator
  renames reserved words of the path only in Rust (`CodegenPaths.SdksAgreeIff`, and one name
  per language on which it fails).
- When a version occurs twice in the changelog, with another between, a write doubles the
  other section (`Changelog.RepeatedVersionDoubles`); `Changelog.OthersStayIff` and
  `Changelog.OneStaysIff` are the exact conditions.
- A retry key joins chat and message id with a colon, which a device JID may hold as well;
  `DecryptRetry.KeysCollideIff` says which messages share one.
- The notice that session recovery has failed is never sent: its guard reads `length` of a
  set (`SessionRecovery.NoLengthNoNotice`).
- Operation ids can collide as method names: in Go exactly when they squeeze to one id, in
  JavaScript exactly when they have one key (`CodegenOps.PascalClashIff`,
  `CodegenOps.CamelClashIff`). Doubled underscores, and underscores after a digit, are two
  families of such ids.

## Model

| member | source | states |
|---|---|---|
| Journal.MessageStore.Save | packages/whatsapp-gateway/index.js:122-172 | INSERT OR IGNORE: afterwards the id is there, a new row as given with no retries, and every row that was there is unchanged |
| Journal.MessageStore.MarkProcessed | packages/whatsapp-gateway/index.js:127-190 | sets the status of that row only; a missing id changes nothing |
| Journal.MessageStore.IncrRetryOrFail | packages/whatsapp-gateway/index.js:209-218 | the row gains a retry or fails; the retry count stays below three |
| Journal.MessageStore.CleanupOld | packages/whatsapp-gateway/index.js:149-226 | deletes exactly the old rows of terminal status and returns how many |
| Journal.StatementsMean | packages/whatsapp-gateway/index.js:122-147 | each statement field by field: what it sets, what it keeps, that a missing id changes nothing and no other row is touched |
| Journal.CleanupKeepsIff | packages/whatsapp-gateway/index.js:149-151 | a row survives the cleanup, unchanged, if and only if it is from the cutoff on or not terminal |
| Journal.MessageStore.SweepRow | packages/whatsapp-gateway/index.js:2720-2786 | one iteration of the sweep on a snapshot row, against whatever the table holds by then; a successful re-forward leaves the row processed |
| Journal.MessageStore.RunCatchUpSweep | packages/whatsapp-gateway/index.js:2711-2787 | every selected row loses weight, no other row changes, and the total weight falls by at least one per selected row |
| Journal.TotalDeleteOld | packages/whatsapp-gateway/index.js:149-151 | cleanup never changes the sum over pending rows of (3 - retry_count) |
| Journal.VisitLowers | packages/whatsapp-gateway/index.js:209-218 | an iteration that finds its row pending strictly lowers that sum and touches no other row; a terminal row stays terminal |
| Journal.VisitSettles | packages/whatsapp-gateway/index.js:2720-2786 | what each outcome does to a row below three retries: success marks it processed with the count unchanged, a group message or a row without a chat likewise, a failure or an unavailable agent adds a retry or fails it at the third |
| Journal.EveryRunKeeps | packages/whatsapp-gateway/index.js:2711-2803 | what every interleaving of saves, marks, retries, cleanups and overlapping sweeps keeps: statuses and retry counts in range, every visit paid for by a retry |
| Journal.AnsweredOncePerSweep | packages/whatsapp-gateway/index.js:2764-2769 | in every run a message is re-forwarded with success at most as often as sweeps may overlap, so once without overlap, and is terminal from the first time on |
| Journal.BoundedRedelivery | packages/whatsapp-gateway/index.js:2711-2787 | in every run a row is visited, hence re-forwarded, at most limit + 2 times, and three visits leave it terminal |
| Journal.RedeliveryBoundIsReached | packages/whatsapp-gateway/index.js:2711-2789 | for every number of sweeps in progress some run re-forwards a message exactly that often, so the bound is exact and is three only without overlap |
| Journal.BoundedSweeping | packages/whatsapp-gateway/index.js:2711-2787 | over a whole run the sweep iterations that find work number at most three per pending row inserted |
| Journal.NoRegression | packages/whatsapp-gateway/index.js:122-151 | no step deletes a row before it is terminal, returns a terminal row to pending, or lowers a retry count |
| Journal.NothingIsLost | packages/whatsapp-gateway/index.js:166-226 | in every run each message ever saved is still pending or was settled at some later point |
| Dedup.DedupTracker.WasProcessed | packages/whatsapp-gateway/lib/dedup-tracker.js:26-37 | prunes what is older than the window and answers whether the id is left; an empty id is never a duplicate |
| Dedup.DedupTracker.MarkProcessed | packages/whatsapp-gateway/lib/dedup-tracker.js:38-41 | records the id at this time, unless it is empty |
| Dedup.DedupTracker.Head | packages/whatsapp-gateway/index.js:1401-1436 | the disposal of one message: status update, duplicate, own message, recovery or handled; marks only in the last case |
| Dedup.SeenIsHistory | packages/whatsapp-gateway/lib/dedup-tracker.js:24-37 | the pruned map answers as the complete history would |
| Dedup.EveryRunIsLawful | packages/whatsapp-gateway/index.js:1389-1436 | under every interleaving of handlers each decision is the one the unpruned history prescribes, and each handler takes its batch in order |
| Dedup.EveryTurnIs | packages/whatsapp-gateway/index.js:1401-1436 | for every turn of every run, the exact condition for each of the five disposals; an own message is handled exactly when it is a note to self not handled within the window |
| Dedup.HandledOncePerWindow | packages/whatsapp-gateway/index.js:1404-1436 | two handlings of one id are more than 60 s apart |
| Dedup.RetransmitIsNotStranded | packages/whatsapp-gateway/index.js:1421-1436 | an inbound null payload is never marked, and its retransmit reaches recovery or handling |
| DecryptRetry.DecryptRetryTracker.OnFailure | packages/whatsapp-gateway/index.js:1965-2023 | counts the failure, renews the timer or reports and cleans up, keeps the invariant, and journals it: a placeholder row at the first failure, a retry or the row's failure at the last |
| DecryptRetry.FailureArms | packages/whatsapp-gateway/index.js:1990-2022 | a failure that is not the third is counted, keeps the time of the first, and leaves one timer due five minutes later |
| DecryptRetry.KeysCollideIff | packages/whatsapp-gateway/index.js:535 | two messages share a key if and only if they are the same or one is the other with the colon moved from the chat to the id |
| DecryptRetry.KeysAreApart | packages/whatsapp-gateway/index.js:535 | ids without a colon, and any ids in one chat, have one key only when they are one message |
| DecryptRetry.EveryFailureIsJournalled | packages/whatsapp-gateway/index.js:1971-1989 | in every run over messages whose ids hold no colon, each message that failed has its row in the journal |
| DecryptRetry.OtherMessagesStay | packages/whatsapp-gateway/index.js:1955-2025 | what another message does never changes what is held against this one or reported about it |
| DecryptRetry.DecryptRetryTracker.OnSuccess | packages/whatsapp-gateway/index.js:1391-1399 | removes the entry with its timer, settles the row, and says whether there was an entry |
| DecryptRetry.DecryptRetryTracker.OnTimeout | packages/whatsapp-gateway/index.js:537-541 | the expiry timer removes its own entry and keeps the invariant |
| DecryptRetry.DecryptRetryTracker.PeriodicSweep | packages/whatsapp-gateway/index.js:621-623 | removes exactly the entries older than five minutes, with their timers |
| DecryptRetry.SweepRemovesIff | packages/whatsapp-gateway/index.js:621-623 | an entry survives the sweep, unchanged, if and only if its first failure is at most five minutes old |
| DecryptRetry.EveryRunKeeps | packages/whatsapp-gateway/index.js:1955-2025 | between events of every run each entry has count 1 or 2 and one armed timer, each armed timer belongs to a live entry, and 3 x reports + count never exceeds the failures |
| DecryptRetry.OneTimerPerEntry | packages/whatsapp-gateway/index.js:2018-2022 | no key ever has two armed timers |
| DecryptRetry.EveryFailureIsAccounted | packages/whatsapp-gateway/index.js:1955-2025 | in every run, from any state, 3 x reports + count held + failures lost with dropped entries grows by exactly the failures seen |
| DecryptRetry.CountsExactlyIff | packages/whatsapp-gateway/index.js:1990-2022 | m failures make m / 3 reports and leave m % 3 counted if and only if no success, timer or sweep drops a live entry of the key |
| DecryptRetry.ExactWithinFiveMinutes | packages/whatsapp-gateway/index.js:2018-2022 | in particular when all happens within five minutes and the key is not resolved |
| DecryptRetry.SweepForgets | packages/whatsapp-gateway/index.js:621-623 | a run in which the sweep drops an entry and a third failure goes unreported |
| SessionRecovery.SessionRecoveryMap.HandleSessionRecovery | packages/whatsapp-gateway/index.js:565-613 | renegotiates unless the socket is missing, the cooldown runs or the attempts are used up; then it tells the owners once, if their number is above zero |
| SessionRecovery.SessionRecoveryMap.PeriodicSweep | packages/whatsapp-gateway/index.js:624-626 | forgets exactly the peers last tried more than 30 minutes ago |
| SessionRecovery.RenegotiationsArePaced | packages/whatsapp-gateway/index.js:554-626 | in every run consecutive renegotiations for a base JID are at least 20 s apart and four consecutive ones span more than 30 minutes |
| SessionRecovery.DecisionIsHistory | packages/whatsapp-gateway/index.js:578-604 | after every run a failure renegotiates if and only if the socket is ready, 20 s have passed since the last renegotiation, and fewer than three were made since the last expiry |
| SessionRecovery.RunIsHistory | packages/whatsapp-gateway/index.js:554-626 | the pruned map makes exactly the renegotiations, and sends exactly the notices, of the protocol run on the complete history: one notice between expiries, after three renegotiations and past the cooldown, naming the last failed message |
| SessionRecovery.NoLengthNoNotice | packages/whatsapp-gateway/index.js:579-598 | without a number of owners above zero no run ever notifies anybody |
| SessionRecovery.NoticesArePaid | packages/whatsapp-gateway/index.js:579-600 | with owners, a peer is reported at most once per three renegotiations, in every run |
| RateLimit.RateLimiter.IsRateLimited | packages/whatsapp-gateway/index.js:743-757 | refuses exactly when three recorded stamps lie in the trailing minute, otherwise records this one |
| RateLimit.RateLimiter.PeriodicCleanup | packages/whatsapp-gateway/index.js:760-766 | drops stamps out of the window and JIDs without stamps |
| RateLimit.CleanupLeaves | packages/whatsapp-gateway/index.js:760-766 | a JID survives the cleanup if and only if one of its stamps is from the last 60 s, with exactly those stamps |
| RateLimit.EveryRunKeeps | packages/whatsapp-gateway/index.js:743-766 | every decision of every run is the one the complete history prescribes; a refusal means exactly three acceptances in the window |
| RateLimit.RefusedIff | packages/whatsapp-gateway/index.js:743-757 | in every run a request is refused if and only if three of the requests of its JID were accepted less than 60 s before |
| RateLimit.AtMostThreePerWindow | packages/whatsapp-gateway/index.js:739-757 | no window of 60 s, wherever it ends, holds more than three acceptances for a JID |
| RateLimit.CleanupIsInvisible | packages/whatsapp-gateway/index.js:759-766 | removing all cleanups from a run changes no decision |
| Escalation.EscalationDebounce.ShouldDebounce | packages/whatsapp-gateway/index.js:785-792 | debounces exactly within five minutes of the recorded escalation, otherwise records this one |
| Escalation.EveryRunKeeps | packages/whatsapp-gateway/index.js:785-800 | every decision of every run, cleanups included, is the one the complete history prescribes |
| Escalation.CleanupLeaves | packages/whatsapp-gateway/index.js:795-799 | the cleanup forgets exactly the escalations of more than five minutes ago |
| Escalation.EscalationsAreApart | packages/whatsapp-gateway/index.js:782-792 | two escalations for one stranger are at least five minutes apart |
| RetryStore.MessageStore.Set | packages/whatsapp-gateway/index.js:508-516 | puts the entry in its old place or last, then evicts the oldest past 500 |
| RetryStore.MessageStore.Get | packages/whatsapp-gateway/index.js:518-526 | returns the entry within its time to live and removes it when expired |
| RetryStore.MessageStore.PeriodicSweep | packages/whatsapp-gateway/index.js:618-620 | removes exactly the expired entries, in order |
| RetryStore.SweepLeaves | packages/whatsapp-gateway/index.js:618-620 | a message survives the sweep if and only if it is at most ten minutes old |
| RetryStore.GetLeaves | packages/whatsapp-gateway/index.js:518-526 | asking removes the message asked for when it is older than that, and nothing else |
| RetryStore.EveryRunKeeps | packages/whatsapp-gateway/index.js:504-526 | at most 500 entries, each the latest version of its key, in insertion order; a missing key has expired or seen 500 newer insertions |
| RetryStore.AgreesWithUnbounded | packages/whatsapp-gateway/index.js:504-526 | what a lookup returns is what an unbounded timed map would return, and it returns it for every key inserted among the last 500 |
| RetryStore.JustSetIsPresent | packages/whatsapp-gateway/index.js:508-516 | the entry just set is always found |
| SilentResponse.StripTrailingNoise | packages/whatsapp-gateway/index.js:944-962 | the surrogate-aware backward walk stops exactly before the maximal suffix of strippable units |
| SilentResponse.IsSilentResponse | packages/whatsapp-gateway/index.js:925-978 | true exactly when the text is a prefix that is empty or ends in a non-word unit, then a sentinel in any case, then strippable units |
| SilentResponse.SilentMeans | packages/whatsapp-gateway/index.js:925-978 | the verdict spelled out: one of the three sentinels in any mixture of cases, no letter, digit or underscore right before it, and only white space, stops or units past ASCII behind |
| SilentResponse.SentinelUnique | packages/whatsapp-gateway/index.js:963-976 | such a decomposition is unique |
| SilentResponse.AppendStrippable | packages/whatsapp-gateway/index.js:942-961 | appending strippable units never changes the verdict |
| SilentResponse.PrependSpace | packages/whatsapp-gateway/index.js:927-928 | white space in front never changes the verdict |
| SilentResponse.TrimInvisible | packages/whatsapp-gateway/index.js:927-928 | the verdict on the trimmed text is the verdict on the text |
| SilentKernel.IsSilentResponse | crates/librefang-runtime/src/silent_response.rs:82-170 | the kernel detector's verdict as a decomposition, with the bare phrase allowed only as the whole message |
| SilentKernel.SilentUtf16 | packages/whatsapp-gateway/index.js:942-978 | the gateway's verdict on the UTF-16 form of a text is its rule read over scalar values |
| SilentKernel.LayersDisagree | crates/librefang-runtime/src/silent_response.rs:82-170 | gateway and kernel decide differently on a text if and only if it is in one of three named families |
| SilentKernel.FamiliesInhabited | crates/librefang-runtime/src/silent_response.rs:113-170 | a concrete text in each family |
| Holdback.Accumulator.PushDelta | packages/whatsapp-gateway/index.js:1027-1039 | holds, flushes the whole buffer once it is releasable, then forwards each delta |
| Holdback.Accumulator.Finish | packages/whatsapp-gateway/index.js:1041-1058 | reports silent exactly when nothing was flushed and the buffer is blank or silent, otherwise flushes it |
| Holdback.RunShape | packages/whatsapp-gateway/index.js:1027-1039 | until the gate opens the buffer is the whole text and nothing was sent; from then on everything received was sent, in order; and exactly when it opens |
| Holdback.AllOrNothing | packages/whatsapp-gateway/index.js:1020-1061 | a finished stream delivered exactly its text, or nothing and the text is blank or silent |
| Holdback.SilentUnderEveryChunking | packages/whatsapp-gateway/index.js:1020-1061 | a text is silent under every chunking if and only if it is blank or silent and no prefix of it is releasable |
| Holdback.NoPartialSentinelLeaks | packages/whatsapp-gateway/index.js:912-1061 | white space, a sentinel in any case and any strippable tail never flush, for every chunking and every threshold of at least 16 |
| Holdback.SafeThresholdIff | packages/whatsapp-gateway/index.js:916-1038 | a threshold keeps all such texts silent under every chunking if and only if it is at least 16 |
| Holdback.SplitMatch | packages/whatsapp-gateway/index.js:923 | a match of a concatenation of regex items is a match of its two parts |
| Holdback.PrefixMeans | packages/whatsapp-gateway/index.js:923 | what the prefix expression matches, spelled out: white space around an optional bracket, "no" and "reply" with at most one separator, possibly "needed", and the closing |
| Holdback.ShortTextIgnoresChunking | packages/whatsapp-gateway/index.js:1035-1057 | below the threshold the final state does not depend on the chunking |
| Holdback.LongReplyMayHaveLeaked | packages/whatsapp-gateway/index.js:1035-1038 | above it, one reply that is silent whole and leaks in two pieces |
| SseGateway.ParseFrame | packages/whatsapp-gateway/index.js:2607-2612 | the value of the last event field and the concatenated trimmed data fields of a frame |
| SseGateway.FrameMeans | packages/whatsapp-gateway/index.js:2607-2612 | what the line-by-line fold comes to, also without an event field |
| SseGateway.StreamMeans | packages/whatsapp-gateway/index.js:2606-2670 | reply, owner notices and status displays of any frames, stated by the last event field and the joined data fields of each |
| SseGateway.SentinelMeans | packages/whatsapp-gateway/index.js:2621-2622 | a display is suppressed exactly when the trimmed text ends in a line that reads NO_REPLY |
| SseGateway.NoticesKeepReply | packages/whatsapp-gateway/index.js:2629-2644 | an owner notice anywhere in a stream never changes the reply |
| SseGateway.Forwarder.OnData | packages/whatsapp-gateway/index.js:2600-2672 | after each arrival the text is the contents of the chunk events of one split of all bytes so far, the notices are the texts of the owner_notice events, the status displays those of the long-running phase events, and the throttle has taken the chunks in order |
| SseGateway.LineStartMeans | packages/whatsapp-gateway/index.js:2621-2623 | when a status display is suppressed: the sentinel ends the text, with white space back to the start or to a newline |
| SseGateway.Forwarder.OnTimerFires | packages/whatsapp-gateway/index.js:2659-2665 | the trailing edit carries the whole text and keeps the edits spaced |
| SseGateway.Forwarder.OnEnd | packages/whatsapp-gateway/index.js:2674-2677 | the resolved value is the contents of the chunk events of all complete frames; the flush of an unfinished code point completes none, and no timer stays armed |
| SseGateway.FramesIgnoreCuts | packages/whatsapp-gateway/index.js:2599-2606 | for every byte stream and every cutting of it, inside a code point, a malformed sequence, a separator or a run of newlines, the frames are those of one split of the whole |
| SseGateway.ReplyIgnoresCuts | packages/whatsapp-gateway/index.js:2594-2672 | two cuttings of one stream give the same reply, the same owner notices and the same status displays |
| SseGateway.EveryRunIsFair | packages/whatsapp-gateway/index.js:2640-2667 | in every run edits are at least 2000 ms apart, and the last edit carried all text or a trailing edit is armed |
| SseGateway.ContentIsShown | packages/whatsapp-gateway/index.js:2646-2667 | a chunk two seconds after the last edit is shown at once with the whole text, an earlier one by a timer at the end of the two seconds |
| SseGateway.EditsPerWindow | packages/whatsapp-gateway/index.js:2485-2666 | a stretch of time holds at most one edit per interval, plus one |
| Text.SplitAppend | packages/whatsapp-gateway/index.js:2601-2604 | split, keep the last part, append, split again: the parts are those of the uncut text |
| Text.PartsAreFree | packages/whatsapp-gateway/index.js:2603-2604 | neither a frame nor the kept remainder contains the separator |
| Utf8.LossyAppend | packages/whatsapp-gateway/index.js:2599-2601 | decoding with U+FFFD for malformed sequences gives the same text and the same pending bytes wherever the bytes are cut |
| Utf8.DamageIsLocal | packages/whatsapp-gateway/index.js:2599-2601 | malformed bytes spoil nothing beyond their own line |
| Utf8.LossyValid | sdk/javascript/index.js:90-95 | on well-formed input nothing is replaced |
| Utf8.EncodeDecode | scripts/codegen-sdks.py:822-823 | encoding undoes decoding on valid bytes |
| SdkStreams.JsStream | sdk/javascript/index.js:89-105 | for all bytes, yields exactly the payloads of the complete lines before the first that trims to `data: [DONE]`, however the stream was cut |
| SdkStreams.GoStream | sdk/go/librefang.go:182-211 | for all bytes, the same over its own lines, the unterminated one included; a line past 8 MiB ends the stream with a failure |
| GoStrings.TrimSpaceText | sdk/go/librefang.go:194 | on well-formed text, trimming the bytes is trimming the code points |
| SdkStreams.RustStream | scripts/codegen-sdks.py:808-842 | the payloads of the complete lines before the first `data: [DONE]`, with a failure for each line that is not UTF-8; the first arrival that exceeds the cap ends the stream with one more |
| SdkStreams.Drain | scripts/codegen-sdks.py:820-841 | draining the byte buffer line by line gives the payloads and failures of its complete lines before the first `data: [DONE]`, says whether there was one, and otherwise leaves the rest |
| SdkStreams.TrimmedLaw | sdk/javascript/index.js:99-103 | a trimmed line stops a reader if and only if it reads `data: [DONE]`, and yields what follows `data: ` otherwise |
| SdkStreams.BeforeIsFirst | sdk/javascript/index.js:98-102 | the lines acted on are those before the first one that ends the stream |
| SdkStreams.AfterTheEnd | sdk/javascript/index.js:102 | lines behind that one do not matter |
| SdkStreams.FirstOverMeans | scripts/codegen-sdks.py:812-819 | the cap is exceeded at the first arrival that is longer than 8 MiB together with the unfinished line |
| SdkAgreement.TrimsAgreeIff | sdk/javascript/index.js:99 | the two trims of a line are equal if and only if, behind the shared white space, neither margin is U+0085 or U+FEFF |
| SdkAgreement.LineAgreesIff | scripts/codegen-sdks.py:822-833 | JavaScript and Rust do the same with a line if and only if its margins are even or it is data to neither |
| SdkAgreement.ByteLineIff | scripts/codegen-sdks.py:822-833 | for any bytes of a complete line the two do the same if and only if it is valid UTF-8 and its text is such a line |
| SdkAgreement.JsAndRustAgreeIff | scripts/codegen-sdks.py:820-840 | on every stream of bytes the two stay in step, output by output, if and only if every line up to the end of the stream is valid and such a line |
| SdkAgreement.JsAndRustAgree | scripts/codegen-sdks.py:820-840 | there they yield the same payloads |
| SdkAgreement.MarkIsInert | sdk/javascript/index.js:90-95 | dropping a leading byte-order mark changes nothing JavaScript does |
| SdkAgreement.GoLineIff | sdk/go/librefang.go:193-199 | for any bytes within the cap Go and Rust do the same with a complete line if and only if it is valid UTF-8 |
| SdkAgreement.GoAndRustInStepIff | sdk/go/librefang.go:184-211 | on every stream of bytes within the cap the two stay in step over the complete lines if and only if every line up to the end of the stream is valid |
| SdkAgreement.GoAgreesIff | sdk/go/librefang.go:184-211 | on a stream of valid lines Go agrees with Rust if and only if the stream was over or its unterminated line yields nothing |
| SdkAgreement.UnterminatedDivides | sdk/go/librefang.go:208-210 | on an unterminated `data: x` only Go has an event |
| SdkAgreement.StreamsAgree | sdk/javascript/index.js:92-105 | on a newline-terminated stream within the caps whose lines agree, all three yield the same payloads for every chunking |
| SdkAgreement.MarginsDivide | sdk/javascript/index.js:99-103 | U+FEFF in front of a line hides it from Rust, U+0085 hides it from JavaScript, and inside a payload neither does |
| CodegenPaths.ParamsOfRender | scripts/codegen-sdks.py:27-28 | the parameters found in a template are its placeholders, in order |
| CodegenPaths.EvalByName | scripts/codegen-sdks.py:59-69 | the Python and JavaScript literals evaluate to direct substitution |
| CodegenPaths.EvalByPosition | scripts/codegen-sdks.py:63-65 | the Go and Rust format strings consume exactly the arguments and evaluate to direct substitution |
| CodegenPaths.SdksAgreeIff | scripts/codegen-sdks.py:59-88 | for every template with plain literals each generated path expression denotes the URL of direct substitution if and only if its path parameters compile: no name repeated, reserved, or used otherwise in the method |
| CodegenPaths.PythonBreaksOnFrom | scripts/codegen-sdks.py:259-266 | a parameter `from` is not escaped in Python |
| CodegenPaths.JavaScriptBreaksOnDefault | scripts/codegen-sdks.py:410-417 | a parameter `default` is not escaped in JavaScript |
| CodegenPaths.GoBreaksOnType | scripts/codegen-sdks.py:679-688 | a parameter `type` is not escaped in Go |
| CodegenPaths.RustBreaksOnOk | scripts/codegen-sdks.py:909-922 | a parameter `Ok` is not escaped in Rust |
| CodegenPaths.SprintfLength | scripts/codegen-sdks.py:686-688 | how long a formatted result is, which rules out percent signs that happen to work |
| CodegenPaths.GoAgreesIff | scripts/codegen-sdks.py:686-688 | with percent signs let into literals, the Go method requests the right URL for all arguments if and only if the path has no parameters or no such sign |
| CodegenOps.LoadOps | scripts/codegen-sdks.py:93-124 | the nested loops give, for each tag, the listed operations of the kept occurrences, and no tag without operations |
| CodegenOps.EmittedOnce | scripts/codegen-sdks.py:107-123 | under a tag stand exactly the first occurrences that carry it, and without repeated tags no id stands there twice |
| CodegenOps.EmittedIff | scripts/codegen-sdks.py:97-123 | over the document itself: an operation stands under a tag if and only if its path begins with /api/, its verb is one of the five, it has an id that no earlier such operation has, and it carries the tag, which is not openai |
| CodegenOps.LaterPathBehind | scripts/codegen-sdks.py:98-123 | what a further path adds under a tag comes behind what stood there |
| CodegenOps.LaterOperationBehind | scripts/codegen-sdks.py:101-123 | so does what a further operation of the last path adds |
| CodegenOps.PascalRoundTrip | scripts/codegen-sdks.py:43-45 | for every id, what reads back from its Pascal name is the squeezed id, which has the same name |
| CodegenOps.PascalClashIff | scripts/codegen-sdks.py:43-45 | two ids share a Pascal name if and only if they squeeze to the same id |
| CodegenOps.CamelRoundTrip | scripts/codegen-sdks.py:38-41 | for every id, what reads back from its camel name is its key |
| CodegenOps.CamelClashIff | scripts/codegen-sdks.py:38-41 | two ids share a camel name if and only if they have the same key |
| CodegenOps.MethodsClashIff | scripts/codegen-sdks.py:38-45 | the methods of a generated resource have different names if and only if their ids have different keys |
| CodegenOps.GoodIdsNeverClash | scripts/codegen-sdks.py:38-45 | ids of segments of lower-case letters and then digits never share a name, and read back as themselves |
| CodegenOps.MethodsNeverClash | scripts/codegen-sdks.py:93-124 | so in a resource of such ids no two methods share a name |
| CodegenOps.EmptySegmentsClash | scripts/codegen-sdks.py:38-45 | wherever an underscore is doubled, both names are those of the id without the doubling |
| CodegenOps.DigitsClash | scripts/codegen-sdks.py:43-45 | wherever no letter stands right before it, an underscore leaves no trace in the Pascal name |
| ChangelogWriter.WriteChangelog | xtask/src/changelog.rs:335-406 | the text written in all four cases: create, replace, insert before the first section, append |
| ChangelogWriter.FindSection | xtask/src/changelog.rs:359-367 | the line scan for the section's start and end |
| Changelog.SectionReads | xtask/src/changelog.rs:342-349 | heading, blank line and text of the section written, and the title of a new file, spelled out |
| Changelog.LinesUnlinesCr | xtask/src/changelog.rs:359 | a file with CRLF line ends, and perhaps a last line without one, is read as the same lines |
| Changelog.ReplacedCr | xtask/src/changelog.rs:359-383 | there a replacement gives the text it gives with LF line ends |
| Changelog.ScanSections | xtask/src/changelog.rs:356-367 | over any sections the scan sets `start` at the last heading of the version and `end` at the first other heading after its first one |
| Changelog.WriteEditsSections | xtask/src/changelog.rs:349-402 | on every document, repeated versions or not, the text written is the document with the new section spliced in, put first or appended |
| Changelog.OthersStayIff | xtask/src/changelog.rs:359-383 | a replacement leaves every other section unchanged, once and in order, if and only if no other version's section stands between two of the version written |
| Changelog.OneStaysIff | xtask/src/changelog.rs:359-383 | it leaves exactly one section of the version if and only if there was one |
| Changelog.RepeatedVersionDoubles | xtask/src/changelog.rs:359-383 | with versions 1, 2, 1 a write of 1 doubles section 2 and keeps both old ones |
| Changelog.SplicedIsReplaced | xtask/src/changelog.rs:368-383 | with one section per version it is replaced in its place |
| Changelog.WriteCreates | xtask/src/changelog.rs:348-350 | with no file the result is the title and the one section |
| Changelog.WriteKeepsGood | xtask/src/changelog.rs:349-402 | the result is again a document with one dated section per version |
| Changelog.OtherSectionsStay | xtask/src/changelog.rs:368-393 | every other section is unchanged and in order, and the version written has exactly one section |
| Changelog.WritingTwiceIsWritingOnce | xtask/src/changelog.rs:354-383 | writing the same section twice gives the text of writing it once |
| Changelog.CreatingTwiceIsCreatingOnce | xtask/src/changelog.rs:348-383 | also when the first write created the file |
| ChangelogReader.ParseEntries | web/scripts/gen-rss.ts:22-40 | with the scan cap the result is the first `max` entries of the uncapped parse, for every text and every max |
| ChangelogReader.ScanHeads | web/scripts/gen-rss.ts:28-31 | the stateful regex loop collects the first matches, all of them or at least twice max |
| ChangelogFeed.HeadingMatches | web/scripts/gen-rss.ts:25-27 | a written heading is matched with its version and date, whatever follows the line |
| ChangelogFeed.BodyNoMatch | web/scripts/gen-rss.ts:25-27 | no body line is taken for a heading, whatever follows it |
| ChangelogFeed.FeedReadsSections | web/scripts/gen-rss.ts:22-40 | the uncapped parse of a document is its sections in order: version, date, trimmed body |
| ChangelogFeed.FeedAfterWrite | web/scripts/gen-rss.ts:22-40 | after a write the version has exactly one entry, with its date and trimmed text, and all other entries are as before, in order |
| ChangelogFeed.FeedAfterCreate | web/scripts/gen-rss.ts:22-40 | after the first write it is the only entry |

## Left out

- Sockets, HTTP, SQLite, media, QR codes and the agent's replies: their outcomes are parameters. What a SELECT may return is the predicate `Journal.IsSelection`; database calls succeed.
- JSON parsing: the readers are compared by payload strings, and the forwarder takes the parser as a parameter.
- SseGateway.ParseFrame: JSON values other than objects count as malformed.
- SseGateway.Forwarder.OnData: the text of an unfinished malformed sequence is added as soon as it is known to be malformed, which no frame can show; the fallback on a stream error is not modelled.
- SilentResponse.IsSilentResponse: the second detector version is taken to be enabled; lower-casing covers ASCII and the Kelvin sign, the only other unit whose lower case can be seen by the verdict.
- DecryptRetry.DecryptRetryTracker.OnFailure: an exhaustion report is counted, not delivered; the call that should deliver it lacks the chat it requires.
- DecryptRetry.EveryFailureIsJournalled: is about message ids without a colon; with one, two messages can share a key and the second gets no row of its own.
- Dedup: `unmarkProcessed`, which the upsert handler's head does not call.
- CodegenPaths.SdksAgreeIff: covers parameter names of ASCII letters, digits and underscores, in methods whose other parameters compile.
- CodegenPaths.GoAgreesIff: formats with verbs, flags or argument indexes that the generator does not emit have no value in the model.
- CodegenOps.LoadOps: the paths are given in sorted order; the query parameters, body and stream flags of an entry are not modelled.
- CodegenOps.PascalClashIff: letters are ASCII letters; `str.title` beyond ASCII is not modelled.
- Changelog.WriteEditsSections: is about changelogs with LF line ends and only dated `## [` headings; lines hold no U+2028 or U+2029.
- `markdownToWhatsApp`, the relay and owner tags, and the live progress gate of the gateway.
- The LID cache, echo tracker, session keys and intent patterns of the gateway, the web UI and the other xtask commands: they would add only easy members.
