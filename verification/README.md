# Verified models of the Baseworks core

A Dafny model of the parts of the repository whose behaviour spans many steps: the cluster supervisor,
the PII scrubber, the recent-errors ring buffer, the PNG fixture writer with its CRC and the image-header
reader, billing webhook ingestion, the tenant-scoped table wrapper, the two-layer event bus and the upload
hook. Check everything with `dafny verify dfyconfig.toml`.

Code that updates state in place is modelled by classes and methods, each proved equal to a function on
values; the theorems are about those functions and about every run built from them.

| component | files |
|---|---|
| Supervisor | `SupervisorConfig`, `SupervisorModel` (one function per step), `SupervisorInvariants`, `SupervisorSteps` (every step keeps the invariant), `SupervisorRuns` and `SupervisorDecisions` (theorems over runs: what never fails, and what each step does), `Supervisor` (the class) |
| Scrubber | `Pattern` (backtracking, languages, global replacement), `Redact`, `RedactOrder`, `RedactShapes` (the languages in plain terms), `RedactWhole` (what is hidden, exactly), `ScrubWalk` (graphs), `ScrubResults`, `ScrubPii`, `WebhookUrl` |
| Ring buffer | `RingBuffer` (the list it refines), `ErrorWindow` (what an entry tells), `Texts`, `ErrorTracker` (the class), `ErrorKeys` (which errors it takes for one) |
| Images | `Crc32`, `Crc32Theory`, `Crc32Congruence` (polynomials over GF(2)), `Bytes`, `Png`, `Raster`, `ImageHeader`, `ImageFormats` |
| Billing | `BillingWebhook` (the protocol), `BillingOutcomes` (what each delivery does), `BillingHandler` (the uninterrupted handler) |
| Tenancy | `ScopedDb` |
| Event bus | `EventBus`, `EventBusRuns`, `EventBusDuplicates`, `TypedEventBus` (both layers as classes) |
| Uploads | `Upload` (steps), `UploadItems`, `UploadInvariants`, `UploadRuns`, `UploadXhrs`, `UploadSole`, `UploadStages`, `UploadStops`, `UploadRetries`, `UploadOutcomes`, `UploadFinalizing`, `UploadActions` (what each step does), `UploadHook` (the class) |

## What was found false, and exactly when it is true

- Scrubber, lines 12-14: "webhook bodies never forwarded". The rule tests the URL after redaction, so a
  segment that reads as a mailbox (`/webhooks@host.tld`) hides it (`MailboxHidesSegment`), and an extra deny key
  "url" switches the rule off. The body is dropped if and only if "url" is no deny key and somewhere in the URL the
  text `/webhooks` has no mailbox right behind its slash and is followed by a word boundary or by a match of a later
  pass (`RuleSeesExactly`, `WebhookBodyIsDroppedExactly`). A request that the event holds under another key first keeps
  its body in that copy (`EarlierCopyKeepsBody`).
- Scrubber, lines 84-88: the order of the passes keeps numbers whole, but not secrets. Every e-mail address, CNPJ and
  CPF becomes its marker and nothing else (`AddressesAndNumbersAreHidden`); a Stripe key or bearer token does if and
  only if no part of it looks like a CNPJ or a CPF or, in a token, like a key (`SecretsAreHiddenExactly`). A token that
  starts with eleven digits keeps its rest (`RestOfTokenStays`).
- Scrubber, line 99: the copy "mirrors the input's shape". A shared object that is on no cycle is cut off as
  `[circular]` too (`SharedObjectIsCutOff`). The copy of a value that reads as a tree, what stands below denied keys
  left aside, is whole if and only if the walk follows no two references to one object (`WalkIsWholeExactly`).
- Ring buffer: the key `message::frame` is ambiguous, and different errors are counted as one
  (`DifferentErrorsAreMerged`). Of two stored messages the longer one, closed by the separator, must go on from the
  shorter one closed by it, with what can be the beginning of a stored frame; errors with these messages are then
  taken for one another, and otherwise never (`CapturesCollideExactly`). `snapshot` returns a new array of the live
  entries, so "may mutate the returned array safely" does not extend to the entries.
- Image header, line 105: the comment counts TEM among the markers without a length; the code does not
  (`TemIsTakenForASegment`). An image without a TEM is read; behind the first TEM the next two bytes are taken for a
  length, and what is left decides (`JpegIsReadExactly`), so one with another marker and fewer than 0xff00 bytes
  there is turned away (`SmallJpegIsReadExactlyWithoutTem`). A lossless WebP is read if and only if it is at least
  30 bytes long (`LosslessRoundTrip`).
- Billing, lines 150-152: "the peer is responsible for enqueueing it". The peer may have crashed in between
  (`CatchAcknowledgesOrphan`). An event acknowledged by the catch is stored, and it has been enqueued if and
  only if its job is queued or its row is no longer pending (`EnqueuedExactlyWhenItShows`); every other
  acknowledgement means enqueued (`AcknowledgedMeansEnqueued`).
- Event bus: removing a handler takes out the listener of its latest registration only. It is still called
  after its removal if and only if it was ever registered while it was registered, and then for good
  (`RemovalFailsExactlyAfterDuplicates`, `DuplicatesAreNeverRemoved`). `EmitCallsSurviving` says for every sequence of
  calls which registrations an emit finds, and in which order.
- Upload hook, lines 102 and 368: a canceled item that already holds a file id and a descriptor is
  retryable but the retry does nothing; it restarts if and only if one of the two is missing (`RetryEffect`).
- Upload hook: a retry can lead to two open XHRs of one item, of which only one can be stopped
  (`EarlyRetryUploadsTwice`): a retry that does not give up at once does if and only if an XHR of the item is open or a
  `sign` call for it is out (`RetryDoublesExactly`), and in a run without such a retry before, if and only if a `sign`
  call is out (`FirstRetryDoublesExactly`). Without such retries every upload can be stopped (`UploadsCanBeStopped`).
- Upload hook: an upload can start after unmounting (`UnmountMidSignStillUploads`). It can if and only if a `sign`
  call is out for an item that is present and that is not canceled, or that another call for it may yet take out of
  that state: one that waits for `sign`, for `complete` or for an XHR that was not aborted (`UploadsAfterUnmountExactly`).

## Model

| member | source | states |
|---|---|---|
| SupervisorConfig.ParseConfig | apps/api/src/core/supervisor-core.ts:60-83 | every environment and core count gives 1 ≤ min ≤ max ≤ cores and CPU thresholds in order, at least 0.05 apart |
| SupervisorConfig.PoolSizeIsKeptExactlyWhenItFits | apps/api/src/core/supervisor-core.ts:65-67 | configured pool bounds are kept if and only if 1 ≤ min ≤ max ≤ cores |
| SupervisorConfig.SettingsAreKept | apps/api/src/core/supervisor-core.ts:54-82 | every setting given is clamped to its own range and, in range, kept; what is not a number falls back to its default; bounds lose their fraction |
| SupervisorInvariants.DropOldIsRecent | apps/api/src/core/supervisor-core.ts:238-239 | on sorted times, shifting from the front leaves exactly the times at or after the cutoff |
| SupervisorInvariants.WindowSlides | apps/api/src/core/supervisor-core.ts:235-241 | pruning the already pruned list is filtering the whole crash history by the new window |
| SupervisorInvariants.RecordCrashKeeps | apps/api/src/core/supervisor-core.ts:235-241 | recording a crash keeps the counter equal to the crashes of its window and adds at most one |
| SupervisorInvariants.EnsureFloorKeeps | apps/api/src/core/supervisor-core.ts:262-265 | `ensureFloor` brings the live pool to exactly min when it is short and free to spawn, and keeps every invariant |
| SupervisorInvariants.SetTimerKeeps | apps/api/src/core/supervisor-core.ts:219-229 | pausing together with arming its unpause timer keeps the invariant and the floor promise |
| SupervisorSteps.SignalAllReaches | apps/api/src/core/supervisor-core.ts:296-305 | signalling all reaches every tracked child and nobody else |
| SupervisorSteps.NewestIsHighestId | apps/api/src/core/supervisor-core.ts:247-249 | the child picked by start time, ties by id, is the live child with the highest id |
| SupervisorSteps.DrainOneKeeps | apps/api/src/core/supervisor-core.ts:243-260 | draining takes one live child out, warns it and arms its kill timer, keeping the invariant |
| SupervisorSteps.TickKeeps | apps/api/src/core/supervisor-core.ts:268-284 | an autoscale tick keeps every invariant |
| SupervisorSteps.ExitKeeps | apps/api/src/core/supervisor-core.ts:194-233 | a child exit in any state keeps every invariant |
| SupervisorSteps.ShutdownKeeps | apps/api/src/core/supervisor-core.ts:291-308 | starting the shutdown keeps every invariant |
| SupervisorSteps.StepKeeps | apps/api/src/core/supervisor-core.ts:128-315 | so does every step: tick, exit, due timer, `ensureFloor`, shutdown, waiting |
| SupervisorRuns.RunKeeps | apps/api/src/core/supervisor-core.ts:165-315 | the invariant holds in every state of every run from `start` on |
| SupervisorRuns.FloorIsNeverLost | apps/api/src/core/supervisor-core.ts:194-233 | before shutdown the live pool is at min or a respawn timer is pending; a pause always has its unpause timer |
| SupervisorRuns.DueTimerRestoresFloor | apps/api/src/core/supervisor-core.ts:222-229 | that timer, when due, restores the floor on the spot unless a pause has begun; the unpause timer always ends the pause |
| SupervisorRuns.PoolStaysBounded | apps/api/src/core/supervisor-core.ts:217-284 | from any environment: live ≤ max ≤ cores, not paused implies fewer than 3·max crashes counted, crashes + live ≤ 4·max − 1 |
| SupervisorRuns.PausesExactlyOnCrashLoop | apps/api/src/core/supervisor-core.ts:208-241 | a fast crash pauses respawning if and only if it was paused or at least 3·max fast crashes since the last reset lie in the window |
| SupervisorRuns.StepSends | apps/api/src/core/supervisor-core.ts:253-304 | a step only appends signals, and kills only children tracked before and after it |
| SupervisorRuns.NoKillWithoutWarning | apps/api/src/core/supervisor-core.ts:243-308 | over every run each SIGKILL goes to a tracked child that got SIGTERM at least drainMs earlier |
| SupervisorRuns.DrainsAreBounded | apps/api/src/core/supervisor-core.ts:254-259 | a draining child has its kill timer pending or has been killed |
| SupervisorRuns.NoSpawnAfterShutdown | apps/api/src/core/supervisor-core.ts:176-192 | once shutdown has begun no child is spawned and shutdown is never left |
| SupervisorRuns.CompletesOnce | apps/api/src/core/supervisor-core.ts:291-314 | completion runs at most once; while owed, a child is alive and the deadline timer is pending |
| SupervisorRuns.CompletesWhenDue | apps/api/src/core/supervisor-core.ts:199-202 | it has run once the last child is gone during shutdown or the deadline fired |
| SupervisorRuns.ScalingIsSpaced | apps/api/src/core/supervisor-core.ts:273-282 | the i-th and j-th autoscale actions of a run are at least (j − i)·cooldownMs apart |
| SupervisorRuns.TickMovesByOne | apps/api/src/core/supervisor-core.ts:268-284 | corollary for the class: a tick ends within [min, max], moves the pool by at most one in the direction of the CPU sample, and moves it exactly when it records an action |
| SupervisorDecisions.StartsAtFloor | apps/api/src/core/supervisor-core.ts:165-174 | the pool starts with min live children and nothing pending |
| SupervisorDecisions.FloorSpawns | apps/api/src/core/supervisor-core.ts:262-265 | `ensureFloor` spawns exactly the children missing to min, one after the other, and none while paused or shutting down |
| SupervisorDecisions.TickScalesExactly | apps/api/src/core/supervisor-core.ts:268-284 | in every run a tick that is free to act ends at floor + 1 if and only if CPU ≥ cpuHigh, floor < max and the last recorded action is at least cooldownMs old; at floor − 1, the newest live child warned and its kill timer armed, if and only if CPU ≤ cpuLow, floor > min and the same; at floor otherwise; an action is recorded in exactly the first two cases, and a tick that is not free changes nothing |
| SupervisorDecisions.ExitReactsExactly | apps/api/src/core/supervisor-core.ts:194-233 | in every run a dead child is forgotten; if it was draining or shutdown has begun nothing else happens but the completion after the last; if it died young one timer is armed, crashBackoffMs ahead to restore the floor, or crashPauseMs ahead to end a pause when 3·max crashes lie in the window; else the floor is restored at once |
| SupervisorDecisions.ShutdownReactsExactly | apps/api/src/core/supervisor-core.ts:291-308 | in every run the first `shutdown` signals each tracked child once and arms the deadline, or completes at once when there is none; later ones do nothing |
| SupervisorDecisions.FireReactsExactly | apps/api/src/core/supervisor-core.ts:219-307 | in every run a timer that comes due is gone and kills its child, kills everyone and completes, restores the floor, or ends the pause with a fresh crash window |
| Supervisors.Supervisor.LiveCount | apps/api/src/core/supervisor-core.ts:145-149 | the loop counts the children that are not draining |
| Supervisors.Supervisor.Start | apps/api/src/core/supervisor-core.ts:165-174 | the class method reaches the initial state of every run |
| Supervisors.Supervisor.SpawnChild | apps/api/src/core/supervisor-core.ts:176-192 | the method is the spawn step |
| Supervisors.Supervisor.EnsureFloor | apps/api/src/core/supervisor-core.ts:262-265 | the loop is the floor step |
| Supervisors.Supervisor.RecordCrash | apps/api/src/core/supervisor-core.ts:235-241 | the pruning loop is the crash-recording step |
| Supervisors.Supervisor.OnExit | apps/api/src/core/supervisor-core.ts:194-233 | the exit callback is the exit step |
| Supervisors.Supervisor.NewestLive | apps/api/src/core/supervisor-core.ts:247-250 | finds the first of the sorted candidates, or none exactly when no child is live |
| Supervisors.Supervisor.DrainOne | apps/api/src/core/supervisor-core.ts:243-260 | the method is the drain step |
| Supervisors.Supervisor.Tick | apps/api/src/core/supervisor-core.ts:268-284 | the method is the tick step, whose decision `TickScalesExactly` pins |
| Supervisors.Supervisor.Shutdown | apps/api/src/core/supervisor-core.ts:291-308 | the method is the shutdown step |
| Supervisors.Supervisor.FinishShutdown | apps/api/src/core/supervisor-core.ts:310-314 | the callback is taken before it is run |
| Supervisors.Supervisor.OnTimer | apps/api/src/core/supervisor-core.ts:222-307 | the four timer callbacks are the four timer steps |
| Pattern.MatchesExactlyTheLanguage | packages/observability/src/lib/scrub-pii.ts:60-66 | greedy backtracking matches at a place if and only if some prefix there is in the pattern's language |
| Pattern.NothingRemains | packages/observability/src/lib/scrub-pii.ts:90-96 | replacing one pattern leaves no match of it, nor of a pattern that did not occur before |
| Pattern.NothingToReplace | packages/observability/src/lib/scrub-pii.ts:90-96 | a string without a match is left as it is |
| Redact.RedactString | packages/observability/src/lib/scrub-pii.ts:90-96 | the loop applies the five passes in order; `RedactedInFivePasses` says what that makes of a string |
| Redact.LaterPassesKeepEarlierResults | packages/observability/src/lib/scrub-pii.ts:83-96 | no later pass recreates what an earlier one removed |
| Redact.NothingSensitiveRemains | packages/observability/src/lib/scrub-pii.ts:60-96 | after redaction no substring of any string is in the language of a pattern; in plain terms `NoShapeRemains` |
| Redact.RedactsExactlyWhatIsSensitive | packages/observability/src/lib/scrub-pii.ts:90-96 | redaction changes a string if and only if such a substring occurs |
| Redact.RedactionIsIdempotent | packages/observability/src/lib/scrub-pii.ts:87-88 | redacting twice is redacting once |
| Redact.CutIsClean | packages/observability/src/lib/ring-buffer-error-tracker.ts:97-106 | a redacted string stays clean when truncated anywhere |
| RedactOrder.BareCnpjIsHidden | packages/observability/src/lib/scrub-pii.ts:84-87 | fourteen digits in a row become the CNPJ marker and nothing else |
| RedactOrder.SwappedOrderLeaks | packages/observability/src/lib/scrub-pii.ts:84-87 | with CPF first, the last three digits of every such CNPJ would survive |
| RedactShapes.EmailIsExact | packages/observability/src/lib/scrub-pii.ts:61 | the e-mail pattern describes exactly: word characters, dots, plus and minus signs, an at sign, a host of word characters and minus signs, a dot, and more of these |
| RedactShapes.CnpjIsExact | packages/observability/src/lib/scrub-pii.ts:62 | the CNPJ pattern describes exactly: digit groups of 2, 3, 3, 4 and 2 with any choice of '.', '.', '/' and '-' between them |
| RedactShapes.CpfIsExact | packages/observability/src/lib/scrub-pii.ts:63 | the CPF pattern describes exactly: digit groups of 3, 3, 3 and 2 with any choice of '.', '.' and '-' between them |
| RedactShapes.StripeKeyIsExact | packages/observability/src/lib/scrub-pii.ts:64 | the key pattern describes exactly: "sk_live_" or "sk_test_" and one or more word characters |
| RedactShapes.BearerIsExact | packages/observability/src/lib/scrub-pii.ts:65 | the token pattern describes exactly: "bearer" in any letter case, white space, and one or more word characters, dots and minus signs |
| RedactShapes.NoShapeRemains | packages/observability/src/lib/scrub-pii.ts:60-96 | no part of a redacted string has one of these five shapes, stated without the patterns |
| RedactShapes.RedactsExactlyShapes | packages/observability/src/lib/scrub-pii.ts:90-96 | redaction changes a string if and only if some part of it has one of these shapes |
| RedactWhole.PassTakesLongest | packages/observability/src/lib/scrub-pii.ts:60-66 | where a text of a pattern's shape starts, greedy backtracking finds the longest one |
| RedactWhole.PassParts | packages/observability/src/lib/scrub-pii.ts:90-96 | one pass divides every string into hidden parts, each the longest text of the shape where it starts, and kept characters at which none starts |
| RedactWhole.PartsAreUnique | packages/observability/src/lib/scrub-pii.ts:90-96 | there is only one such division |
| RedactWhole.RedactedInFivePasses | packages/observability/src/lib/scrub-pii.ts:60-96 | redaction is five such divisions in a row, for e-mail, CNPJ, CPF, Stripe key and bearer token, each behind its literal marker |
| RedactWhole.HiddenAsWholeExactly | packages/observability/src/lib/scrub-pii.ts:83-96 | a text of some shape becomes its marker and nothing else if and only if no part of it has the shape of an earlier pass |
| RedactWhole.AddressesAndNumbersAreHidden | packages/observability/src/lib/scrub-pii.ts:60-63 | every e-mail address, CNPJ and CPF, with any choice of separators, becomes "[redacted:email]", "[redacted:cnpj]" or "[redacted:cpf]" |
| RedactWhole.SecretsAreHiddenExactly | packages/observability/src/lib/scrub-pii.ts:64-65 | a Stripe key or bearer token becomes its marker if and only if no part of it looks like a number or, in a token, like a key |
| RedactWhole.RestOfTokenStays | packages/observability/src/lib/scrub-pii.ts:63-65 | for all eleven digits and letters behind them, "Bearer " with these becomes "Bearer [redacted:cpf]" with the letters left |
| ScrubWalk.DenySetIsAdditive | packages/observability/src/lib/scrub-pii.ts:68-81 | extra deny keys only add to the built-in ones, and letter case matters in none of them |
| ScrubWalk.DefaultKeysAre | packages/observability/src/lib/scrub-pii.ts:35-53 | without extra keys exactly the seventeen built-in ones are denied, in any letter case |
| ScrubWalk.WalkExpandsOnce | packages/observability/src/lib/scrub-pii.ts:102-124 | on any graph, cyclic or not, each object is expanded at most once and the copy has one node per slot expanded plus its root |
| ScrubWalk.CopyIsNoLargerThanGraph | packages/observability/src/lib/scrub-pii.ts:102-124 | the copy has at most 1 + total slots nodes |
| ScrubResults.WalkMirrorsAndScrubs | packages/observability/src/lib/scrub-pii.ts:98-124 | keys and order are kept, every denied key at every depth holds its marker, every other string is clean, cut-off objects are `[circular]` |
| ScrubResults.MasksAre | packages/observability/src/lib/scrub-pii.ts:106-116 | a denied key holds "[redacted:" and the lower-case key, and an object met before is "[circular]" |
| ScrubResults.SharedObjectIsCutOff | packages/observability/src/lib/scrub-pii.ts:105-113 | any list or record that holds one object twice, under keys that are not denied, gets `[circular]` in the second place, on a cycle or not |
| ScrubResults.WalkIsWholeExactly | packages/observability/src/lib/scrub-pii.ts:102-124 | of a value that reads as a tree, what stands below denied keys left aside, the copy is the whole scrubbed tree if and only if the walk follows no two references to one object |
| ScrubResults.FixedIffScrubbed | packages/observability/src/lib/scrub-pii.ts:102-124 | scrubbing leaves a tree as it is if and only if it is already scrubbed |
| ScrubResults.WalkIsIdempotent | packages/observability/src/lib/scrub-pii.ts:102-124 | walking a copy again, wherever its objects were allocated, gives the same copy |
| ScrubPii.WebhookBodyIsDropped | packages/observability/src/lib/scrub-pii.ts:135-142 | in no scrubbed event does a request whose scrubbed URL has the segment carry a body; every other key of the event, every other key of that request and every other request are as the walk left them |
| ScrubPii.WebhooksAre | packages/observability/src/lib/scrub-pii.ts:139 | the segment is the text "/webhooks" that no word character follows |
| ScrubPii.ScrubbedEventIsClean | packages/observability/src/lib/scrub-pii.ts:132-143 | a scrubbed event is clean at every depth, the webhook rule included |
| ScrubPii.ScrubIsIdempotent | packages/observability/src/lib/scrub-pii.ts:132-143 | scrubbing an event twice is scrubbing it once |
| ScrubPii.WalkValue | packages/observability/src/lib/scrub-pii.ts:102-124 | the recursive walk over the shared mutable `seen` set returns and marks what the specification says, and terminates |
| ScrubPii.ScrubEvent | packages/observability/src/lib/scrub-pii.ts:132-143 | walk and webhook rule together; nothing in, nothing out |
| WebhookUrl.SegmentOutlivesEmailExactly | packages/observability/src/lib/scrub-pii.ts:61 | a `/webhooks` segment outlives the e-mail pass if and only if no mailbox starts right behind its slash, and the pass makes none |
| WebhookUrl.RuleSeesExactly | packages/observability/src/lib/scrub-pii.ts:12-14 | for every URL: a segment is there after all five passes if and only if the text stands in the URL, no mailbox starts behind its slash, and a word boundary follows or a later pass's match starts there |
| WebhookUrl.SegmentIsSeen | packages/observability/src/lib/scrub-pii.ts:12-14 | so every segment without a mailbox behind its slash is seen, and every one in a URL without an at sign |
| WebhookUrl.WebhookBodyIsDroppedExactly | packages/observability/src/lib/scrub-pii.ts:135-141 | for every event and deny list: the body of a request that is not cut off is dropped if and only if "url" is no deny key and the raw URL meets that condition, and otherwise kept as the walk left it |
| WebhookUrl.EarlierCopyKeepsBody | packages/observability/src/lib/scrub-pii.ts:105-142 | a request that the event holds under another key first keeps its body there, whatever its URL, and is cut off in its place |
| WebhookUrl.MailboxHidesSegment | packages/observability/src/lib/scrub-pii.ts:61 | for every host and domain, `/webhooks@host.domain` becomes `/[redacted:email]` and the rule no longer matches |
| RecentErrors.FindIs | packages/observability/src/lib/ring-buffer-error-tracker.ts:112-113 | with distinct keys a linear scan finds exactly the position of a key |
| RecentErrors.RecordKeeps | packages/observability/src/lib/ring-buffer-error-tracker.ts:87-138 | one capture keeps keys distinct and the length within capacity, and its key is then in the window |
| RecentErrors.WindowIsSound | packages/observability/src/lib/ring-buffer-error-tracker.ts:87-138 | the same after any captures |
| RecentErrors.EveryCaptureIsCounted | packages/observability/src/lib/ring-buffer-error-tracker.ts:112-137 | counts in the window plus counts evicted equal the number of captures |
| RecentErrors.WindowIsFirstInsertionOrder | packages/observability/src/lib/ring-buffer-error-tracker.ts:112-137 | the window is the latest `capacity` insertions, oldest first; repeats do not move |
| ErrorWindow.EntryTellsItsCaptures | packages/observability/src/lib/ring-buffer-error-tracker.ts:112-137 | after any captures each entry shows the texts and source of the capture that brought it in, has been in the window ever since, counts the captures of its key from that one on, and bears the time of the last one |
| RecentErrors.MessagesCollideExactly | packages/observability/src/lib/ring-buffer-error-tracker.ts:107 | the key function by itself, with frames of any length: pairs with these messages can give one key if and only if the messages differ and one, closed by the separator, is a beginning of the other closed by it |
| ErrorTracker.ScrubLeaves | packages/observability/src/lib/ring-buffer-error-tracker.ts:97-104 | scrubbing the two-field event redacts each leaf by itself, or masks it if its key is denied |
| ErrorTracker.StoredTextIsClean | packages/observability/src/lib/ring-buffer-error-tracker.ts:97-106 | for every deny list, what is stored is clean and within its length limit |
| ErrorKeys.StoredFrameIsFrameText | packages/observability/src/lib/ring-buffer-error-tracker.ts:89-106 | a stored frame is empty or starts with no white space and holds no line break and no "node_modules", which redaction cannot bring in either |
| ErrorKeys.FirstFrameIsExact | packages/observability/src/lib/ring-buffer-error-tracker.ts:88-96 | the frame is the first stack line behind the top one that does not mention node_modules, trimmed, and empty without one |
| ErrorKeys.StoredTextsAre | packages/observability/src/lib/ring-buffer-error-tracker.ts:101-106 | what is stored is the front of each redacted text, up to 500 and 200 characters and whole if it fits, or the marker of a denied key |
| Texts.TrimIsExact | packages/observability/src/lib/ring-buffer-error-tracker.ts:96 | trimming takes away exactly the white space at both ends; `TrimmedToOne`: there is only one such text |
| ErrorKeys.CapturesCollideExactly | packages/observability/src/lib/ring-buffer-error-tracker.ts:88-107 | for every deny list, different errors are stored under these messages with one key if and only if neither key is denied, the longer message is clean, within its limit and, closed by the separator, goes on from the shorter one closed by it, with at most 200 characters that can begin a frame |
| ErrorKeys.HarmlessMessagesCollideExactly | packages/observability/src/lib/ring-buffer-error-tracker.ts:88-107 | for harmless messages only the separator and the 200 characters matter |
| ErrorKeys.ErrorsAreMerged | packages/observability/src/lib/ring-buffer-error-tracker.ts:87-117 | any two thrown errors whose stored texts give one key become one entry with count 2, under the first one's message and frame |
| ErrorKeys.DifferentErrorsAreMerged | packages/observability/src/lib/ring-buffer-error-tracker.ts:107-116 | so for all harmless texts "m::x" thrown at "f" and "m" thrown at "x::f", different errors, are counted as one |
| Texts.LowerIsExact | packages/ui/src/hooks/use-file-upload.ts:150-152 | lower-casing turns the letters A to Z into a to z, in place, and leaves all else alone |
| ErrorTracker.RingBufferingErrorTracker.Reindex | packages/observability/src/lib/ring-buffer-error-tracker.ts:123-126 | the loop lowers every index by one and changes no key |
| ErrorTracker.RingBufferingErrorTracker.EvictOldest | packages/observability/src/lib/ring-buffer-error-tracker.ts:119-127 | eviction drops the first entry and leaves the index agreeing with the buffer |
| ErrorTracker.RingBufferingErrorTracker.IndexIsScan | packages/observability/src/lib/ring-buffer-error-tracker.ts:112-113 | the index lookup returns what a linear scan would |
| ErrorTracker.RingBufferingErrorTracker.Append | packages/observability/src/lib/ring-buffer-error-tracker.ts:107-138 | the indexed buffer takes exactly the step of the plain list, and the index maps exactly key(buffer[i]) to i again |
| ErrorTracker.RingBufferingErrorTracker.CaptureException | packages/observability/src/lib/ring-buffer-error-tracker.ts:55-58 | one more capture, scrubbed and then truncated |
| ErrorTracker.RingBufferingErrorTracker.CaptureMessage | packages/observability/src/lib/ring-buffer-error-tracker.ts:60-64 | a message is captured as an error under the global source |
| ErrorTracker.RingBufferingErrorTracker.Snapshot | packages/observability/src/lib/ring-buffer-error-tracker.ts:83-85 | a fresh array of the buffered entries |
| Crc32.StepsIsLinear | scripts/generate-fixtures.ts:51-53 | n bit steps of an XOR are the XOR of n bit steps |
| Crc32.LookupFeedsByte | scripts/generate-fixtures.ts:62 | one table lookup equals feeding eight bits one by one |
| Crc32.BuildTable | scripts/generate-fixtures.ts:47-57 | entry n is eight bit steps of n |
| Crc32.ComputeCrc32 | scripts/generate-fixtures.ts:59-65 | the table-driven loop computes the bit-by-bit checksum of every byte sequence |
| Crc32Theory.FeedIsDivision | scripts/generate-fixtures.ts:52 | a bit step, mirrored, is one step of long division by the generator of RFC 2083, section 3.4 |
| Crc32Theory.RemainderIsDivision | scripts/generate-fixtures.ts:59-65 | the register after any bytes is, mirrored, what that division leaves step by step |
| Crc32Congruence.RegisterIsCongruent | scripts/generate-fixtures.ts:49-64 | over GF(2), for every message and starting register: message·x^32 + start·x^n is some quotient times the generator plus the register, which is below degree 32 |
| Crc32Congruence.RegisterIsTheRemainder | scripts/generate-fixtures.ts:49-64 | every division of that polynomial by the generator with a rest below degree 32 leaves the register |
| Crc32Congruence.ChecksumIsTheRemainder | scripts/generate-fixtures.ts:59-65 | so the checksum of any bytes is the complement of the remainder, which exists and is the only one |
| Crc32Theory.RemainderCarries | scripts/generate-fixtures.ts:59-65 | over a concatenation the register carries across both parts |
| Crc32Theory.RemainderIsInjective | scripts/generate-fixtures.ts:59-65 | different registers stay different over the same bytes |
| Crc32Theory.RemainderFeedsBits | scripts/generate-fixtures.ts:59-65 | byte by byte or bit by bit, the register is the same |
| Crc32Theory.ShortBitsAreTold | scripts/generate-fixtures.ts:59-65 | up to 32 message bits are determined by the register before and after them |
| Crc32Theory.BurstsAreDetected | scripts/generate-fixtures.ts:59-65 | messages that differ, and only within 32 adjacent bits at any bit offset, have different checksums |
| Png.WriteUInt32BE | scripts/generate-fixtures.ts:71-81 | four big-endian bytes are written in place, and nothing when the value is out of range |
| Png.PngChunk | scripts/generate-fixtures.ts:67-75 | the buffers written are the chunk, or the range error |
| Png.Ihdr | scripts/generate-fixtures.ts:77-88 | the thirteen bytes of an 8-bit RGB header as a chunk |
| Png.AssemblePng | scripts/generate-fixtures.ts:90-97 | the image, or an error exactly when a dimension or the data length does not fit 32 bits |
| Png.ChunkReadsBack | scripts/generate-fixtures.ts:67-75 | an independent reader that checks length and CRC gets the chunk back, whatever follows |
| Png.ImageReadsBack | scripts/generate-fixtures.ts:77-97 | the image reads back as exactly IHDR, IDAT and IEND with the data given |
| Png.ImageSays | scripts/generate-fixtures.ts:77-97 | what the reader gets is 13 header bytes with the width, the height, eight bits per sample, RGB, and the only compression, filter and no interlacing, then the data, then an empty end |
| Png.KindsAre | scripts/generate-fixtures.ts:67-97 | signature and chunk types are those of RFC 2083, sections 3.1 and 3.2 |
| Png.DamageIsDetected | scripts/generate-fixtures.ts:67-75 | a chunk damaged within 32 adjacent bits of type and data is not accepted |
| Raster.PixelPosition | scripts/generate-fixtures.ts:103-122 | row starts hold filter 0 and from offset y·(1+3w)+1+3x on stand red, green and blue of pixel (x, y), modulo 256 |
| Raster.BuildRawRgb | scripts/generate-fixtures.ts:103-122 | the loops build exactly those scanlines, writing every index once in ascending order |
| ImageHeader.ParseJpegDimensions | packages/storage/src/lib/image-header.ts:94-125 | the loop is the suffix scan, terminates on every input, and reports a truncated frame header apart |
| ImageFormats.PngRoundTrip | packages/storage/src/lib/image-header.ts:31-48 | the header of a written image parses to its width and height for all 32-bit sizes and any pixel data |
| ImageFormats.PngIgnoresTheRest | packages/storage/src/lib/image-header.ts:23-48 | only the first 24 bytes of a PNG matter |
| ImageFormats.GifRoundTrip | packages/storage/src/lib/image-header.ts:50-65 | GIF87a and GIF89a files parse to their logical screen size, whatever follows |
| ImageFormats.OnlyFourFormats | packages/storage/src/lib/image-header.ts:31-150 | anything that does not begin as one of the four formats, or is a WebP of another kind of chunk, is unsupported |
| ImageFormats.ScanSkipsItem | packages/storage/src/lib/image-header.ts:99-123 | the scan steps over one stray byte, bare marker or segment, whatever its payload |
| ImageFormats.JpegRoundTrip | packages/storage/src/lib/image-header.ts:94-125 | any well-formed items but TEM before the first frame header are skipped and its dimensions returned |
| ImageFormats.ScanReadsAFrame | packages/storage/src/lib/image-header.ts:115-121 | dimensions returned from any input were read behind a frame marker in it |
| ImageFormats.TemIsTakenForASegment | packages/storage/src/lib/image-header.ts:105-122 | behind a TEM, with any fill, the next two bytes are taken for a length: the scan goes on behind it, or ends if it is too long |
| ImageFormats.JpegIsReadExactly | packages/storage/src/lib/image-header.ts:94-125 | any image of well-formed items before the first frame header is read if it has no TEM; with one, the result is that of the scan from the first TEM on, its next two bytes taken for a length |
| ImageFormats.SmallJpegIsReadExactlyWithoutTem | packages/storage/src/lib/image-header.ts:94-125 | with a marker behind each TEM and fewer than 0xff00 bytes behind the first, it is read if and only if it has no TEM, and turned away otherwise |
| ImageFormats.LosslessUnpacks | packages/storage/src/lib/image-header.ts:137-142 | the packed 14-bit fields unpack although the word may be negative |
| ImageFormats.LosslessRoundTrip | packages/storage/src/lib/image-header.ts:67-142 | a VP8L file of RFC 9649, section 3.4, parses to its dimensions exactly when it is at least 30 bytes long |
| ImageFormats.ExtendedRoundTrip | packages/storage/src/lib/image-header.ts:144-149 | a VP8X file of RFC 9649, section 2.7, parses to its canvas size |
| ImageFormats.LossyRoundTrip | packages/storage/src/lib/image-header.ts:131-136 | a VP8 file parses to its dimensions without their scale bits |
| BillingWebhook.StepKeeps | packages/modules/billing/src/routes.ts:91-180 | every step of any delivery, of the worker and of a crash keeps the invariant |
| BillingWebhook.StepAccounts | packages/modules/billing/src/routes.ts:122-180 | every step keeps: an enqueued event has its job or a settled row, and a stored one never enqueued has a delivery that owes it, failed or crashed |
| BillingWebhook.AcknowledgedMeansEnqueued | packages/modules/billing/src/routes.ts:122-180 | in every interleaving an acknowledged event has one row and at most one job, and has been enqueued unless the catch acknowledged it |
| BillingWebhook.EnqueuedExactlyWhenItShows | packages/modules/billing/src/routes.ts:149-177 | any event, however acknowledged, has been enqueued if and only if its job is queued or its row is no longer pending |
| BillingWebhook.OrphanIsOwed | packages/modules/billing/src/routes.ts:138-177 | an event stored but never enqueued is pending, and a delivery of it has its enqueueing ahead, failed or crashed |
| BillingWebhook.OrphanWasNotAcknowledged | packages/modules/billing/src/routes.ts:149-177 | an event never enqueued is pending if stored, and was acknowledged by the catch alone, if at all |
| BillingWebhook.NoQueueNoRow | packages/modules/billing/src/routes.ts:122-130 | without a queue nothing is ever inserted |
| BillingWebhook.RedeliveryHeals | packages/modules/billing/src/routes.ts:159-173 | delivering a pending event again enqueues and acknowledges it in the row it has |
| BillingOutcomes.TurnedAway | packages/modules/billing/src/routes.ts:91-130 | a delivery that is not genuine is answered 400, and one that finds no queue 503; neither changes anything |
| BillingOutcomes.FirstDelivery | packages/modules/billing/src/routes.ts:138-179 | in every reachable state, an uninterrupted delivery of an event without a row stores one pending row, adds its job and answers 200, or answers with an error and adds no job when the queue throws |
| BillingOutcomes.PendingRedelivery | packages/modules/billing/src/routes.ts:159-173 | one of an event whose row is pending stores nothing, makes sure of its job and answers 200, or with an error and no change when the queue throws |
| BillingOutcomes.SettledRedelivery | packages/modules/billing/src/routes.ts:159-173 | one of an event whose row has settled answers 200 and leaves rows, jobs and enqueued events as they were, whatever the queue would do |
| BillingOutcomes.ThrowingDelivery | packages/modules/billing/src/routes.ts:149-157 | one whose insert throws changes nothing, and is acknowledged if and only if it threw a unique violation |
| BillingOutcomes.SettledIsNotEnqueuedAgain | packages/modules/billing/src/routes.ts:159-179 | in every interleaving, no delivery that has not passed the row check by the time its event is settled comes to enqueue it |
| BillingOutcomes.ConflictEnqueuesOnlyPending | packages/modules/billing/src/routes.ts:159-173 | in every interleaving, a delivery that met a conflict comes to enqueue only by reading a pending row |
| BillingOutcomes.JobsComeFromEnqueueing | packages/modules/billing/src/routes.ts:63-72 | a job appears only when a delivery of its event that must enqueue does so |
| BillingWebhook.CatchAcknowledgesOrphan | packages/modules/billing/src/routes.ts:149-155 | a run in which the peer inserts the row and crashes, and the catch acknowledges an event that is stored and not enqueued |
| BillingHandler.WebhookRoutes.GetWebhookQueue | packages/modules/billing/src/routes.ts:47-56 | the queue is created on first use if and only if a Redis URL is set |
| BillingHandler.WebhookRoutes.EnqueueWebhook | packages/modules/billing/src/routes.ts:63-72 | a job id already queued makes it a no-op, and so does a queue that throws |
| BillingHandler.WebhookRoutes.InsertPending | packages/modules/billing/src/routes.ts:138-148 | insert-or-conflict returns no row exactly when the event has one |
| BillingHandler.WebhookRoutes.Handle | packages/modules/billing/src/routes.ts:91-180 | the handler has the effect of one delivery running all its steps, whatever the insert and the queue throw; and, written out, what it answers and leaves for an event without a row, with a pending and with a settled one |
| ScopedDb.InjectedRowsAreOwned | packages/db/src/helpers/scoped-db.ts:52-63 | inserted rows belong to the scope's tenant whatever tenant the data names |
| ScopedDb.PatchReachesOwnRows | packages/db/src/helpers/scoped-db.ts:65-75 | an update patches the owner's rows only and changes no row's tenant or place; what it writes is `UpdateOverwrites` |
| ScopedDb.UpdateOverwrites | packages/db/src/helpers/scoped-db.ts:65-75 | after an update each of the tenant's rows holds the patched value in every patched column and its old value in every other, at the same place, and every other row and table is as it was |
| ScopedDb.InsertAppends | packages/db/src/helpers/scoped-db.ts:52-63 | an insert appends, in order, one row for each given with exactly its columns and the scope's tenant, and returns these |
| ScopedDb.SelectAndDeletePick | packages/db/src/helpers/scoped-db.ts:47-79 | a select returns all of the tenant's rows in order and changes nothing; a delete leaves all the others in order |
| ScopedDb.DeleteReachesOwnRows | packages/db/src/helpers/scoped-db.ts:77-79 | a delete removes all of the owner's rows and no others |
| ScopedDb.OthersSeeNothing | packages/db/src/helpers/scoped-db.ts:46-85 | no operation changes what another tenant owns |
| ScopedDb.OwnViewDecides | packages/db/src/helpers/scoped-db.ts:46-85 | results and effects depend on the tenant's own rows only |
| ScopedDb.Noninterference | packages/db/src/helpers/scoped-db.ts:46-85 | in any interleaving each tenant's results and final rows are those of its own operations alone |
| ScopedDb.OnlyOwnRowsAreShown | packages/db/src/helpers/scoped-db.ts:47-63 | every row a tenant gets back is its own |
| EventBus.OnAppends | packages/observability/src/wrappers/wrap-event-bus.ts:92-129 | registering a new handler appends it and keeps emitter and both maps in agreement |
| EventBus.OffRemoves | packages/observability/src/wrappers/wrap-event-bus.ts:132-151 | removing takes out that handler's listener and nothing else, and leaves no empty map behind |
| EventBus.EmitCallsAll | apps/api/src/core/event-bus.ts:40-72 | listeners behind the guard are all called once, in order, whichever throw, with the tracing wrapper or without |
| EventBusRuns.BusHoldsExpected | packages/observability/src/wrappers/wrap-event-bus.ts:57-154 | after any sequence without duplicates emitter and both maps hold exactly the expected handlers |
| EventBusRuns.EmitCallsExpected | packages/observability/src/wrappers/wrap-event-bus.ts:57-154 | an emit then calls exactly those, once each, and completes whichever throw |
| EventBusRuns.ExpectedIsInOrder | apps/api/src/core/event-bus.ts:26-31 | in the order of their latest registration |
| EventBusRuns.ExpectedMeansRegistered | packages/observability/src/wrappers/wrap-event-bus.ts:132-151 | a handler is expected if and only if some registration of it was not followed by its removal |
| EventBusDuplicates.ListenersAreCounted | packages/observability/src/wrappers/wrap-event-bus.ts:92-151 | after any sequence at all, the emitter holds one listener of a handler for each duplicate registration it ever had, and one more if it is registered |
| EventBusDuplicates.RemovalFailsExactlyAfterDuplicates | packages/observability/src/wrappers/wrap-event-bus.ts:132-151 | a handler is still called after its removal if and only if it was ever registered while it was registered |
| EventBusDuplicates.DuplicatesAreNeverRemoved | packages/observability/src/wrappers/wrap-event-bus.ts:132-151 | and no later calls change that |
| EventBusDuplicates.BusHoldsSurviving | packages/observability/src/wrappers/wrap-event-bus.ts:92-151 | after any sequence at all, the emitter holds, in the order of the calls, exactly the registrations whose next removal, if any, met a later registration of the same handler |
| EventBusDuplicates.EmitCallsSurviving | packages/observability/src/wrappers/wrap-event-bus.ts:57-154 | and an emit calls exactly those, once for each registration, whichever throw |
| TypedEventBus.Bus.On | apps/api/src/core/event-bus.ts:59-80 | the typed bus adds one guarded listener and its map entry |
| TypedEventBus.Bus.Off | apps/api/src/core/event-bus.ts:90-101 | it removes the mapped listener, or the raw one when there is no entry |
| TypedEventBus.Bus.Emit | apps/api/src/core/event-bus.ts:40-42 | the listeners are run in order until one throws |
| TypedEventBus.TracedBus.On | packages/observability/src/wrappers/wrap-event-bus.ts:92-129 | the wrapper registers a span listener under the original handler |
| TypedEventBus.TracedBus.Off | packages/observability/src/wrappers/wrap-event-bus.ts:132-151 | the wrapper's removal resolves the span listener first |
| TypedEventBus.TracedBus.Emit | packages/observability/src/wrappers/wrap-event-bus.ts:70-89 | the original emit runs once inside the span |
| UploadItems.CreatedAreFresh | packages/ui/src/hooks/use-file-upload.ts:334-353 | created items get new ids and object URLs, and an error exactly when the size or type check fails |
| UploadItems.WithoutReleases | packages/ui/src/hooks/use-file-upload.ts:398-402 | taking an item out releases its object URL and no other |
| UploadItems.DropAllReleases | packages/ui/src/hooks/use-file-upload.ts:319-326 | single mode revokes what the replaced items held, in order |
| UploadRuns.AddFilesKeeps | packages/ui/src/hooks/use-file-upload.ts:307-362 | adding files keeps every invariant, in single and multi mode |
| UploadRuns.StepKeeps | packages/ui/src/hooks/use-file-upload.ts:185-440 | so does every user action and every settling call |
| UploadRuns.UrlsAreNeverLost | packages/ui/src/hooks/use-file-upload.ts:318-439 | in every interleaving each object URL created is held by one item or was revoked once, never both; after unmounting each was revoked exactly once |
| UploadRuns.RejectedIsNeverSigned | packages/ui/src/hooks/use-file-upload.ts:339-359 | an item rejected before `sign` never reaches it, is never uploaded and never retryable |
| UploadRuns.DoneMeansStored | packages/ui/src/hooks/use-file-upload.ts:271-296 | only an item whose upload answered 2xx is completing or done |
| UploadOutcomes.SignOutcome | packages/ui/src/hooks/use-file-upload.ts:249-278 | a returning `sign` fails its item with the thrown code, quota_exceeded on 413, else sign_failed; or keeps the descriptor and, if the item is wanted, shows it uploading and opens its XHR |
| UploadOutcomes.UploadOutcome | packages/ui/src/hooks/use-file-upload.ts:277-296 | a 2xx upload of a call with `complete` shows its item completing and calls `complete` once, for its file id; one without shows it done at once; any other outcome fails it, quota_exceeded on 413, canceled after an abort, else network |
| UploadOutcomes.CompleteOutcome | packages/ui/src/hooks/use-file-upload.ts:286-296 | a `complete` that returned shows the item done; one that threw fails it with its code, quota_exceeded on 413, else mime_mismatch |
| UploadOutcomes.XhrEventOutcome | packages/ui/src/hooks/use-file-upload.ts:193-217 | an XHR event untracks the item's XHR and is remembered; progress changes the item's percentage alone |
| UploadOutcomes.PercentIsRounded | packages/ui/src/hooks/use-file-upload.ts:195 | the percentage is the nearest whole one, a half rounded up |
| UploadFinalizing.DoneMeansFinalized | packages/ui/src/hooks/use-file-upload.ts:286-296 | in every run an item is done only by a call that was started without `complete` or whose one `complete` returned without throwing |
| UploadFinalizing.CompleteIsCalledOnce | packages/ui/src/hooks/use-file-upload.ts:286-294 | in every run each call of `process` calls `complete` at most once, and it comes back at most once |
| UploadFinalizing.CompleteIsCalledAfterUpload | packages/ui/src/hooks/use-file-upload.ts:277-289 | `complete` is called only when an upload of a call that has it returns 2xx, for the file id uploaded |
| UploadActions.AdmitsExactly | packages/ui/src/hooks/use-file-upload.ts:151-156 | an accept entry admits exactly its own type or, ending in "/*", every type that begins with what stands before the star |
| UploadActions.CheckRejectsExactly | packages/ui/src/hooks/use-file-upload.ts:339-342 | a file is oversize exactly when a limit other than zero is exceeded, and else of a wrong type exactly when the list is not empty and no entry admits it |
| UploadActions.RoomIsExact | packages/ui/src/hooks/use-file-upload.ts:328-332 | multi mode takes files up to maxFiles, ten by default, and no fewer; single mode takes the first |
| UploadActions.ReadyOutcome | packages/ui/src/hooks/use-file-upload.ts:318-326 | single mode aborts every tracked XHR, revokes what the items held and drops their descriptors; multi mode drops nothing |
| UploadActions.AddFilesOutcome | packages/ui/src/hooks/use-file-upload.ts:307-362 | adding takes files while there is room, appends their items with the error of their check, in order, and calls `sign` for exactly those without one |
| UploadActions.RetryOutcome | packages/ui/src/hooks/use-file-upload.ts:364-373 | a retry starts nothing unless the item is canceled or failed with network, sign_failed or quota_exceeded; then it signs again unless both file id and descriptor are there |
| UploadActions.CancelOutcome | packages/ui/src/hooks/use-file-upload.ts:375-391 | canceling aborts exactly the tracked XHR of the item; without one it marks the item canceled if it is being signed, uploaded or completed |
| UploadActions.RemoveOutcome | packages/ui/src/hooks/use-file-upload.ts:393-405 | removing takes out exactly the item, its URL, its descriptor and its XHR |
| UploadActions.ResetAndUnmountOutcome | packages/ui/src/hooks/use-file-upload.ts:407-440 | reset and unmounting abort every tracked XHR and revoke every URL held; reset empties the list, unmounting keeps it |
| UploadXhrs.SignOpensExactlyIfWanted | packages/ui/src/hooks/use-file-upload.ts:260-278 | a returning `sign` opens an XHR if and only if the item is present and not canceled |
| UploadXhrs.OpensOnlyForWantedItems | packages/ui/src/hooks/use-file-upload.ts:237-278 | no step opens more than one XHR, and only for an item that is present and not canceled |
| UploadXhrs.RetryEffect | packages/ui/src/hooks/use-file-upload.ts:364-373 | what a retry does: upload again, sign again, or, for a canceled item with a descriptor, nothing |
| UploadStages.LateRetryIsIdle | packages/ui/src/hooks/use-file-upload.ts:264-269 | while a `process` call runs beyond `sign`, retrying its retryable item does nothing |
| UploadStages.StepSole | packages/ui/src/hooks/use-file-upload.ts:185-440 | as long as no item is retried while `sign` is out for it, every open XHR stays reachable through the map |
| UploadStops.UploadsCanBeStopped | packages/ui/src/hooks/use-file-upload.ts:375-440 | then an item has at most one open XHR, and cancel, remove, reset and unmounting leave none |
| UploadRetries.DoublesExactly | packages/ui/src/hooks/use-file-upload.ts:249-278 | in every state, returning `sign` calls alone lead to two open XHRs of an item if and only if those open, and the `sign` calls out if the item is present, less one if it is canceled, make two |
| UploadRetries.RetryDoublesExactly | packages/ui/src/hooks/use-file-upload.ts:364-373 | in every state, so does the retry of a retryable item if and only if an XHR of it is open or a `sign` call for it is out; where the retry gives up at once, if and only if they would without it |
| UploadRetries.FirstRetryDoublesExactly | packages/ui/src/hooks/use-file-upload.ts:364-373 | in a run without a retry during `sign`, if and only if a `sign` call for the item is out |
| UploadStops.UploadsAfterUnmountExactly | packages/ui/src/hooks/use-file-upload.ts:249-296 | after unmounting, in every state, some continuation opens an XHR if and only if a `sign` call is out for an item that is present, and that is not canceled or has another call waiting for `sign`, for `complete` or for an XHR not aborted |
| UploadStops.PatientUploadsAfterUnmount | packages/ui/src/hooks/use-file-upload.ts:264-278 | in a run without a retry during `sign`, if and only if a `sign` call is out for an item present and not canceled |
| UploadStops.EarlyRetryUploadsTwice | packages/ui/src/hooks/use-file-upload.ts:364-391 | a run that retries too early and leaves an XHR that nothing stops |
| UploadStops.UnmountMidSignStillUploads | packages/ui/src/hooks/use-file-upload.ts:430-440 | a run that uploads after unmounting |
| UploadHooks.UploadHook.AbortEvery | packages/ui/src/hooks/use-file-upload.ts:408-409 | the abort loop, which shrinks the map it iterates over, aborts every tracked XHR and no other |
| UploadHooks.UploadHook.Process | packages/ui/src/hooks/use-file-upload.ts:237-276 | the part of `process` before its first await |
| UploadHooks.UploadHook.SignReturned | packages/ui/src/hooks/use-file-upload.ts:249-278 | the part between `sign` and the XHR |
| UploadHooks.UploadHook.UploadReturned | packages/ui/src/hooks/use-file-upload.ts:277-296 | the part behind the XHR is the step that `UploadOutcome` pins |
| UploadHooks.UploadHook.CompleteReturned | packages/ui/src/hooks/use-file-upload.ts:286-296 | the part behind `complete` |
| UploadHooks.UploadHook.AddFiles | packages/ui/src/hooks/use-file-upload.ts:307-362 | the callback is the adding step and keeps the invariant |
| UploadHooks.UploadHook.Retry | packages/ui/src/hooks/use-file-upload.ts:364-373 | the callback is the retry step and keeps the invariant |
| UploadHooks.UploadHook.Cancel | packages/ui/src/hooks/use-file-upload.ts:375-391 | the callback is the cancel step and keeps the invariant |
| UploadHooks.UploadHook.Remove | packages/ui/src/hooks/use-file-upload.ts:393-405 | the callback is the remove step and keeps the invariant |
| UploadHooks.UploadHook.Reset | packages/ui/src/hooks/use-file-upload.ts:407-415 | the callback is the reset step and keeps the invariant |
| UploadHooks.UploadHook.Unmount | packages/ui/src/hooks/use-file-upload.ts:430-440 | the cleanup is the unmount step and keeps the invariant |

## Left out

- Supervisor: logs, the child environment, the CPU sampler (a sample is a parameter of a tick) and infinite
  core counts. The clock is a monotone function of the number of readings. Timers hold what their callback does
  and fire at or after their due time; an exit is reported once per process and not inside `spawn` or `kill`.
- Supervisor: no minimum pause length is claimed, since a stale unpause timer can end a later pause.
- Supervisors.Supervisor.NewestLive: a scan with the sort's comparator stands for building and sorting the list.
- Scrubber and upload hook: strings are sequences of characters and lower-casing is ASCII. The extra deny keys are a list;
  the key `__proto__`, symbol keys, getters and UTF-16 surrogates are not modelled.
- Scrubber: objects other than arrays and records of properties (dates, maps, errors) are records of their own properties.
- ScrubResults.WalkIsWholeExactly: is about values that read as a finite tree; a value with a cycle that passes no denied key
  reads as none.
- Ring buffer: delegation to the inner tracker, breadcrumbs and scopes; a capacity below one; the clock (the
  timestamp is a parameter); the runtime's stack text.
- Images: deflate, hashing, file output and the fixture list. Pixel
  components are integers taken modulo 256, and widths and heights are not negative.
- Crc32.BuildTable: 32-bit vectors stand for JavaScript's signed 32-bit integers, which the
  table lookup masks and the result converts to unsigned.
- Billing: HTTP, signature checking and payment providers (one flag says whether the delivery is genuine). The
  worker is abstract: it settles rows of enqueued jobs only. Exactly-once processing is not claimed.
- BillingWebhook.AcknowledgedMeansEnqueued: promises nothing about enqueueing after the catch, for which it is false.
- Billing: a unique violation can be raised only for an event that has a row, the event id being the only unique column
  besides the generated key.
- Tenant wrapper: `raw`, `where` chained on a builder, unique constraints, column defaults; the query builder's
  refusal of an empty insert or update is assumed, not part of the cited file.
- Event bus: spans and logging, registering or removing inside an emit, the event name "error", listeners that
  were added to the emitter directly. Span listeners are asynchronous, so they reject and never throw.
- Upload hook: state updates are applied at once and one time each; after unmounting no user action happens, while
  settling calls still apply. The upload body and headers, the navigation guard and `onUploaded` are left out.
- Upload hook: that a canceled item stays canceled is not claimed; a `sign` that fails later sets its error.
