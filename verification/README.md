# Verification of the patch pipeline, the event stream and the benchmark scorer

This Dafny project models the parts of AutoForge where a mistake would be silent, and proves
what they promise.

- **Unified diffs** (`Text`, `Decimal`, `UnifiedDiff`, `StableSort`, `ApplyDiff`, `DiffGrammar`,
  `Substitution`, `DiffBuilder`, `DiffRoundTrip`). A pair of code snippets is printed as a diff,
  parsed again and spliced into a whole file. Texts are character sequences down to line cutting
  and header numbers; the format is that of the `diff` utility, POSIX.1-2017 XCU, "Diff -u or -U
  Output Format", with this repository's own placing of zero-count hunks. Main results: the parser
  accepts exactly the texts of a grammar, printing and parsing are inverse, bottom-up splicing is
  simultaneous substitution, the round trip holds under an exact condition, the printed edit is
  minimal, and a snippet's diff lands on its only occurrence in a larger file.
- **Event bus and stream** (`EventBus`, `EventBusRuns`, `EventBusLru`, `SseStream`). The bounded
  bus is a cache of full per-scan histories, its tracked scans are a least-recently-published
  list, and a client that is cut off and reconnected anywhere sees every event once, in order.
- **Critic and remediation loop** (`PatchRows`, `CriticRun`, `CriticVerdicts`, `CriticProtocol`,
  `RemediationLoop`). Every awaited step may fail or throw. The verdict, the checks, the row and
  the teardown are characterised exactly; any number of runs may interleave on the same rows.
- **Benchmark scoring** (`GroundTruth`, `GroundTruthScores`, `GroundTruthReport`), **JSON repair**
  (`JsonRepair`, `JsonPieces`), **NVD paging** (`NvdPaging`) and **source resolution**
  (`SourceResolver`).

Code that loops or updates fields is a method or a class whose contract ties it to a function of
its inputs or its old state; the properties are lemmas about that function. Every lemma switches
automatic induction off, so its body is its whole proof.

## Where the code and its own words differ

- The applier's header says "no fuzz"; a hunk that misses its stated line moves to the first
  exact match (`ApplyDiff.SingleHunkApplies`).
- The applier's header says no-newline markers are accepted and ignored. They are if and only
  if each stands behind a hunk header and before that hunk's last body line; any other makes the
  diff malformed (`UnifiedDiff.MarkersIgnoredExactly`, `UnifiedDiff.MarkerAfterLastLineIsRejected`).
- The printer keeps the empty line behind a final newline, the applier drops it. Changing a
  newline-terminated text near its end therefore usually cannot be applied to that very text;
  `DiffRoundTrip.RoundTripExactly` says when it can.
- The bus promises a cap on tracked scans. It holds while no scan id's 64-character cut ends in
  a space (`EventBusRuns.CapHolds`, `EventBusRuns.StableIff`). `release` bounds its argument again,
  so a scan with such an id is never evicted, and once it is the oldest every further scan is
  tracked too, whatever the cap, unless the scan of its trimmed key is there to be released instead
  (`EventBusRuns.EvictionHitsItsTarget`, `EventBusRuns.GrowsPastCapIff`,
  `EventBusRuns.UnstableKeyBreaksCap`). A cap below 1 acts as 1.
- Eviction is documented as least recently published. The scan that leaves is that one if and only
  if it is the bounded form of the first key inserted with its time
  (`EventBusLru.EvictsLeastRecentIff`). It fails for equal millisecond times, where insertion order
  decides (`EventBusLru.TieEvictsTheWrongScan`), and for a key that ends in a space behind the
  cut, whose eviction takes the history of the scan with the trimmed key
  (`EventBusLru.UnstableVictimDropsAnother`).
- The applier is documented to keep the base's newline style. Its result never depends on that
  style (`ApplyDiff.ApplyIgnoresNewlineStyle`); even a diff that changes nothing gives the base back
  if and only if the base has no CRLF (`ApplyDiff.NewlineStyleKeptIff`).
- REJECTED is documented as "the patch failed validation" and FAILED as "the validation
  environment broke". On the usual reading the verdict says the opposite for exactly four kinds of
  stop: a build that exits non-zero and an application that is down after the patch are FAILED;
  tests whose command cannot be run and a base file that cannot be read are REJECTED
  (`CriticVerdicts.MisjudgedExactly`, with inputs in `CriticVerdicts.MisjudgedStopsExist`). A
  hanging build or test run, a dead application and an unreadable base can be read either way;
  `CriticVerdicts.VerdictNamesTheSide` gives the condition for every reading.
- One review per patch is only guarded by the status read at the start of a run: two runs that
  both read GENERATED before either writes UNDER_REVIEW may report opposite verdicts, and only such
  runs may (`CriticProtocol.GatePassesExactly`, `CriticProtocol.BothReportOnlyIfBothGatesFirst`,
  `CriticProtocol.BothClaimedMayDisagree`).

## Model

| member | source | states |
|---|---|---|
| UnifiedDiff.HeaderRoundTrip | backend/src/critic/application/services/apply-unified-diff.ts:41 | a printed hunk header is read back by the header pattern with the same four numbers, for all numbers |
| UnifiedDiff.ReadBody | backend/src/critic/application/services/apply-unified-diff.ts:67-92 | the inner loop takes lines until both declared counts are met or the input ends, skipping blanks and no-newline markers |
| UnifiedDiff.ParseUnifiedHunks | backend/src/critic/application/services/apply-unified-diff.ts:44-99 | the nested parsing loops compute the recursive parse, errors with reason and hunk number included; the `DiffGrammar` rows say what that parse accepts and refuses |
| DiffGrammar.HeaderExactly | backend/src/critic/application/services/apply-unified-diff.ts:41 | the header pattern reads four numbers from exactly the lines `@@ -range +range @@...` with decimal ranges, a missing count being 1 |
| DiffGrammar.AcceptsExactly | backend/src/critic/application/services/apply-unified-diff.ts:44-99 | a diff parses to given hunks iff its lines are skippable lines and segments that hold exactly their declared lines, with these hunks; said without the parser |
| DiffGrammar.RefusesExactly | backend/src/critic/application/services/apply-unified-diff.ts:58-95 | a refusal quotes the first stray line, or names a miscounted segment by one more than the number of complete segments before it; nothing else is refused |
| DiffGrammar.MiscountedIsNotApplied | backend/src/critic/application/services/apply-unified-diff.ts:93-117 | a miscounted segment refuses the whole diff, however many good ones stand before it: nothing of it is applied |
| UnifiedDiff.ParsedHunksAreWellCounted | backend/src/critic/application/services/apply-unified-diff.ts:93-96 | every hunk that is accepted holds exactly as many old and new lines as its header declares |
| UnifiedDiff.PrintParse | backend/src/critic/application/services/apply-unified-diff.ts:44-99 | for any list of hunks with any line texts, printing them and parsing the text gives exactly those hunks |
| UnifiedDiff.MarkersIgnoredExactly | backend/src/critic/application/services/apply-unified-diff.ts:58-81 | put no-newline markers into any gaps of any printed diff text: the parse is what it is without them if every marker is behind a header and before that hunk's last body line, and otherwise the diff is malformed at the marker |
| UnifiedDiff.MarkerAfterLastLineIsRejected | backend/src/critic/application/services/apply-unified-diff.ts:58-61 | in particular a marker behind the last counted line makes the whole diff malformed, whatever follows it |
| ApplyDiff.MatchesAt | backend/src/critic/application/services/apply-unified-diff.ts:128-137 | the comparison loop is true exactly if the block stands at the position |
| ApplyDiff.FindPlace | backend/src/critic/application/services/apply-unified-diff.ts:127-158 | stated line first, else the leftmost occurrence, else none |
| ApplyDiff.SortedByStart | backend/src/critic/application/services/apply-unified-diff.ts:123-126 | hunks are reordered by falling start, equal starts in the diff's order |
| ApplyDiff.ApplyUnifiedDiff | backend/src/critic/application/services/apply-unified-diff.ts:111-167 | parse, sort and splice loop compute the recursive application, with every refusal |
| ApplyDiff.SingleHunkApplies | backend/src/critic/application/services/apply-unified-diff.ts:127-163 | one hunk applies iff its old lines occur somewhere, and replaces the stated occurrence if it is one, else the first |
| ApplyDiff.SingleHunkDiff | backend/src/critic/application/services/apply-unified-diff.ts:111-167 | the same for a whole one-hunk diff and text, trailing newline kept; otherwise a context mismatch naming the hunk |
| ApplyDiff.DiffChangesLineCount | backend/src/critic/application/services/apply-unified-diff.ts:111-166 | a diff that applies to a file changes its number of newlines by exactly the sum of the declared count differences, however the hunks are listed and wherever they moved |
| ApplyDiff.ApplyIgnoresNewlineStyle | backend/src/critic/application/services/apply-unified-diff.ts:169-179 | bases that differ in newline style only give the same result, so the style of at most one is kept |
| ApplyDiff.NewlineStyleKeptIff | backend/src/critic/application/services/apply-unified-diff.ts:106-110 | the documented promise to keep the base's newline style holds iff the base has no CRLF: a diff that changes nothing returns the base with every CRLF turned into LF |
| Substitution.SpliceIsEdit | backend/src/critic/application/services/apply-unified-diff.ts:159-163 | splicing a hunk at its stated line keeps its leading context and writes only its edit |
| Substitution.BottomUpIsSubstitution | backend/src/critic/application/services/apply-unified-diff.ts:120-166 | last hunk first, every hunk finds its stated line and the result is the one-pass walk |
| Substitution.ApplyingIsSimultaneousSubstitution | backend/src/critic/application/services/apply-unified-diff.ts:111-166 | in whatever order hunks are listed, if they can be laid out on the file (leading context may overlap), applying them is the simultaneous left-to-right substitution |
| Substitution.DisjointHunksSubstituteWholeBlocks | backend/src/critic/application/services/apply-unified-diff.ts:120-166 | strictly ordered disjoint hunks: each old block is replaced by its new lines and all else is kept |
| Substitution.PrintedDiffIsSubstitution | backend/src/critic/application/services/apply-unified-diff.ts:44-167 | the same from printed diff text to patched text |
| DiffBuilder.CountPrefix | backend/src/engineer/application/services/diff-builder.ts:20-27 | the first trimming loop finds the longest common prefix |
| DiffBuilder.FindEdit | backend/src/engineer/application/services/diff-builder.ts:20-39 | both trimming loops give the trimmed edit |
| DiffBuilder.TrimIsMinimal | backend/src/engineer/application/services/diff-builder.ts:19-49 | no other common-head, middle, common-tail decomposition of the two texts has a shorter removed or a shorter added middle |
| DiffBuilder.BodySides | backend/src/engineer/application/services/diff-builder.ts:41-49 | the printed body takes away one contiguous block of the original and puts the same context around the patched middle |
| DiffBuilder.PrintedDiff | backend/src/engineer/application/services/diff-builder.ts:5-68 | the printed text line by line: file lines without leading slashes, a header with the true counts, three unchanged lines or as many as there are, all removals, all additions, three unchanged lines or as many as there are |
| DiffBuilder.BuildUnifiedDiff | backend/src/engineer/application/services/diff-builder.ts:5-68 | the printer's pushes and counts produce the rendered hunk, byte for byte |
| DiffRoundTrip.BuiltDiffParses | backend/src/engineer/application/services/diff-builder.ts:5-68 | whatever the two texts contain (lines like `---`, `+++`, `@@`, `\ No newline`), their printed diff parses to exactly the intended hunk |
| DiffRoundTrip.BlocksRebuild | backend/src/engineer/application/services/diff-builder.ts:41-49 | replacing the old block of the original by the new block gives the patched lines |
| DiffRoundTrip.RoundTripAtStatedLine | backend/src/engineer/application/services/diff-builder.ts:5-68 | if the original does not end in a newline, or at least three real lines follow the change, applying the diff to the original returns the patched text character for character |
| DiffRoundTrip.RoundTripExactly | backend/src/critic/application/services/apply-unified-diff.ts:111-179 | the round trip holds iff the hunk does not show the phantom line, or its block occurs higher up and the slide is invisible (same period, same ending) |
| DiffRoundTrip.PlainTextRoundTrip | backend/src/engineer/application/services/diff-builder.ts:5-68 | the same for all texts without a carriage return; without a final newline on the original it always holds |
| DiffRoundTrip.SurvivingPhantomIsAppendOrCut | backend/src/critic/application/services/apply-unified-diff.ts:138-158 | in that second case one text's lines are a prefix of the other's |
| DiffRoundTrip.ChangeNearFinalNewlineIsLost | backend/src/critic/application/services/apply-unified-diff.ts:138-174 | a newline-terminated original changed near its end, other than by appending or cutting lines, never survives |
| DiffRoundTrip.ShortNewlineTerminatedIsRejected | backend/src/critic/application/services/apply-unified-diff.ts:153-157 | if moreover the block starts at line 1, the diff is refused with a context mismatch at hunk 1 |
| DiffRoundTrip.TwoLineFileIsRejected | backend/src/critic/application/services/apply-unified-diff.ts:153-174 | the concrete input: two newline-terminated lines with the second changed |
| DiffRoundTrip.BothEmptyIsRejected | backend/src/engineer/application/services/diff-builder.ts:14-17 | two empty texts print to an empty diff, refused for having no hunks |
| DiffRoundTrip.SnippetDiffRelocates | backend/src/critic/application/services/apply-unified-diff.ts:127-166 | a snippet's diff, whose header counts from the snippet's top, turns the snippet inside any file into its replacement when the hunk's block occurs once there, and keeps the file's final newline |
| EventBus.InMemoryEventBus.Publish | backend/src/observability/application/in-memory-event-bus.ts:70-99 | refuses unknown types and empty ids unchanged; otherwise the new state is eviction then recording, the event carries the next number, and exactly the key's listeners are told |
| EventBus.InMemoryEventBus.RingPush | backend/src/observability/application/in-memory-event-bus.ts:207-215 | push then shift leaves the last `ringPerScan` events |
| EventBus.InMemoryEventBus.EvictLeastRecentlyPublished | backend/src/observability/application/in-memory-event-bus.ts:231-241 | the scan over touch times releases the first entry with the least time |
| EventBus.InMemoryEventBus.ReleaseScan | backend/src/observability/application/in-memory-event-bus.ts:131-138 | drops the bounded id from all five maps, refuses an empty id |
| EventBus.InMemoryEventBus.Replay | backend/src/observability/application/in-memory-event-bus.ts:119-125 | the ring's events after the floored, non-negative sequence number, in order |
| EventBusRuns.ReplayExactly | backend/src/observability/application/in-memory-event-bus.ts:119-125 | in every reachable state and for every real number x, a replay after x is, in order, exactly the events of the history with a number greater than x that are among the last `ringPerScan` |
| EventBusRuns.BoundExactly | backend/src/observability/application/in-memory-event-bus.ts:145-149 | an id's key is the id without the spaces around it, cut to 64 characters; an id of spaces is refused |
| EventBus.InMemoryEventBus.Subscribe | backend/src/observability/application/in-memory-event-bus.ts:101-108 | refuses an empty id unchanged; otherwise exactly this subscriber joins exactly the bounded id's listeners, and the handle names that key's set |
| EventBusRuns.SetsStayOwned | backend/src/observability/application/in-memory-event-bus.ts:101-138 | after any publishes, releases, subscriptions and unsubscriptions every key's subscriber set exists and no two keys share one |
| EventBusRuns.SubscribeAddsExactly | backend/src/observability/application/in-memory-event-bus.ts:101-108 | in any reachable state subscribing adds exactly this subscriber to this scan's listeners and changes no other scan's |
| EventBusRuns.SubscribeThenUnsubscribe | backend/src/observability/application/in-memory-event-bus.ts:101-113 | calling the closure at once takes back exactly that, for every scan's listeners |
| EventBusRuns.ReleaseListeners | backend/src/observability/application/in-memory-event-bus.ts:131-138 | a released scan has no listeners left, every other scan keeps its own |
| EventBusRuns.PublishListeners | backend/src/observability/application/in-memory-event-bus.ts:75-99 | a publish takes away the listeners of the scan it evicts and of no other, and of none if its scan is tracked |
| EventBus.InMemoryEventBus.Unsubscribe | backend/src/observability/application/in-memory-event-bus.ts:109-112 | shrinks the closure's own set and drops the key's current set when that is empty |
| EventBusRuns.UnsubscribeExactly | backend/src/observability/application/in-memory-event-bus.ts:109-112 | unsubscribing removes exactly its own subscriber iff the key still has the closure's set, or the replaced set makes no difference |
| EventBusRuns.BusCachesHistory | backend/src/observability/application/in-memory-event-bus.ts:70-99 | after any calls at any times: sequence and count are the history's length, event i has number i+1, the ring is the history's end, and the maps share one key set |
| EventBusRuns.ReplayIsSuffix | backend/src/observability/application/in-memory-event-bus.ts:119-125 | replay is an end piece of the full history, and everything after k iff k >= n - ringPerScan |
| EventBusRuns.StableIff | backend/src/observability/application/in-memory-event-bus.ts:145-149 | an id's key survives being bounded again iff the 64-character cut does not fall behind a space |
| EventBusRuns.EvictionHitsItsTarget | backend/src/observability/application/in-memory-event-bus.ts:231-241 | eviction releases the scan it picked iff that scan's key is stable |
| EventBusRuns.CapHolds | backend/src/observability/application/in-memory-event-bus.ts:75-77 | with stable keys at most max(1, maxScans) scans are tracked in every reachable state, under any clock |
| EventBusRuns.EvictReleasesExactly | backend/src/observability/application/in-memory-event-bus.ts:231-241 | an eviction releases the bounded form of the oldest scan's key and nothing else |
| EventBusRuns.GrowsPastCapIff | backend/src/observability/application/in-memory-event-bus.ts:75-77 | a new scan on a full bus is tracked on top of all others iff that bounded form is not tracked |
| EventBusRuns.UnstableKeyBreaksCap | backend/src/observability/application/in-memory-event-bus.ts:70-99 | whatever the cap: after publishing an id with an unstable key and then any number n of other scans, n+1 scans are tracked |
| EventBusRuns.UnstableIdExists | backend/src/observability/application/in-memory-event-bus.ts:145-149 | a concrete such id, and the stable trimmed form of its key |
| EventBusLru.TrackedAreTheList | backend/src/observability/application/in-memory-event-bus.ts:70-99 | with a ticking clock and stable keys the tracked scans are those of a move-to-front list, releases included |
| EventBusLru.TrackedAreMostRecentlyPublished | backend/src/observability/application/in-memory-event-bus.ts:70-99 | without a release they are exactly the `maxScans` most recently published distinct scans |
| EventBusLru.PublishToTrackedNeverEvicts | backend/src/observability/application/in-memory-event-bus.ts:75-77 | publishing to a tracked scan keeps all tracked scans and all other rings |
| EventBusLru.OldestExactly | backend/src/observability/application/in-memory-event-bus.ts:231-241 | under any clock the victim is exactly the first entry, in insertion order, with the least time |
| EventBusLru.EvictsLeastRecentIff | backend/src/observability/application/in-memory-event-bus.ts:231-241 | under a clock that never goes back, with any ids and releases: the scan that leaves is the least recently published tracked one, and only that, iff it is the bounded form of the first key inserted with its time; where that key is stable, iff no tracked scan with the same time was inserted before it |
| EventBusLru.TieEvictsTheWrongScan | backend/src/observability/application/in-memory-event-bus.ts:70-99 | the concrete run: with room for two, publishing to a, b, a and d within one millisecond evicts a and keeps the less recently published b |
| EventBusLru.UnstableVictimDropsAnother | backend/src/observability/application/in-memory-event-bus.ts:70-99 | the concrete run without a tie: the eviction meant for an unstable key drops the more recently published scan of its trimmed form |
| SseStream.SseStreamClient.HandleIncomingEvent | frontend/src/hooks/useSseStream.ts:49-77 | unparsable, duplicate and stale frames change nothing; others raise the highest sequence, are handed on and join the last 500 |
| SseStream.AnyDeliveryIsOrderly | frontend/src/hooks/useSseStream.ts:54-69 | whatever is delivered, accepted events strictly increase and the screen shows the last 500 of them |
| SseStream.ExactlyOnce | backend/src/observability/application/in-memory-event-bus.ts:119-125 | however connections are cut and reconnected within the window, accepted events are a prefix of the published history, without duplicates or holes, and all of it once nothing is in flight |
| SseStream.NewClientStarts | frontend/src/hooks/useSseStream.ts:38-39 | a new client satisfies the stream invariant against any reachable bus |
| SseStream.ReconnectGuardIsExact | backend/src/observability/application/in-memory-event-bus.ts:119-125 | a reconnect's first frame leaves a hole iff its replay starts beyond what the client has |
| SseStream.HonestReconnectIsAllowed | backend/src/observability/presentation/controllers/events.controller.ts:63-67 | a reconnect with the client's highest number keeps the guarantee iff the next event is still in the ring |
| SseStream.HonestReconnectDelivers | backend/src/observability/presentation/controllers/events.controller.ts:63-67 | it then delivers exactly what the client is missing |
| PatchRows.PatchStore.MarkUnderReview | backend/src/critic/infrastructure/persistence/prisma-patch-review-repository.ts:39-44 | GENERATED or UNDER_REVIEW becomes UNDER_REVIEW, anything else stays; a throwing write may or may not have taken effect |
| PatchRows.PatchStore.SetVerdict | backend/src/critic/infrastructure/persistence/prisma-patch-review-repository.ts:46-51 | GENERATED or UNDER_REVIEW becomes the verdict, anything else stays; a throwing write may or may not have taken effect |
| CriticRun.ValidationRun.RunBaseline | backend/src/critic/application/services/critic-steps.ts:103-138 | unreachable, thrown, unconfirmed and confirmed baselines: the check each adds and the error each ends with |
| CriticRun.ValidationRun.RunApply | backend/src/critic/application/services/patch-applier.ts:44-91 | a refused diff and an unreadable base are conflicts, what the sandbox throws is not; the check is added only on success |
| CriticRun.ValidationRun.RunTool | backend/src/critic/application/services/build-check.ts:48-79 | no command is not available; only exit 0 passes; a non-zero exit, a timeout and a throwing exec all fail with one check and the step's error |
| CriticRun.ValidationRun.RunRetest | backend/src/critic/application/services/critic-steps.ts:192-234 | fixed, succeeding, undecided and thrown retests: check and error |
| CriticRun.ValidationRun.TryBody | backend/src/critic/application/services/critic.service.ts:125-250 | the imperative body stops at the first failing stage with exactly the checks added so far |
| CriticRun.ValidationRun.Validate | backend/src/critic/application/services/critic.service.ts:113-270 | result, checks and row update for every outcome of every step; the sandbox is torn down exactly once if provisioned, else never |
| CriticRun.Run | backend/src/critic/application/services/critic.service.ts:83-103 | refused without any write unless the row is GENERATED and the finding confirmed and supported; otherwise marked, then validated |
| CriticVerdicts.ChecksFollowTheOrder | backend/src/critic/application/services/critic.service.ts:113-270 | check names are a prefix of the documented order plus at most one more security review; all but the last let the run go on |
| CriticVerdicts.ApprovedHasEverything | backend/src/critic/application/services/critic.service.ts:250-262 | an approved run has the full list, with baseline, startup and retest passed |
| CriticVerdicts.PassesExactly | backend/src/critic/application/services/critic.service.ts:125-250 | the pipeline passes iff every step does |
| CriticVerdicts.VerdictByStop | backend/src/critic/application/services/critic-outcome.ts:98-142 | the whole table: the first step that did not go well, by its own outcome, decides status and failure kind, and nothing else does |
| CriticVerdicts.FeedbackByStop | backend/src/critic/application/services/critic-outcome.ts:98-155 | feedback, field by field, by what stopped the run: the failed checks named and the first 300 characters of that error's message, and none for any other stop |
| CriticVerdicts.ChecksExactly | backend/src/critic/application/services/critic-steps.ts:103-283 | the check list of every run, entry by entry: the documented order as far as the run got, each status from the outcome of its own step, and one more review if the advisory is on |
| CriticVerdicts.RejectedExactly | backend/src/critic/application/services/critic-outcome.ts:98-142 | REJECTED iff the run was stopped by a refused diff, an unreadable base, failing, hanging or unrunnable tests, a working exploit or the security gate |
| CriticVerdicts.VerdictNamesTheSide | backend/src/critic/domain/models/critic-result.ts:16-20 | whether the verdict names the side at fault, as documented, iff by kind of stop and for every reading of the ambiguous ones |
| CriticVerdicts.MisjudgedExactly | backend/src/critic/domain/models/critic-result.ts:16-20 | with an application that dies and tests that hang blamed on the patch: the verdict is wrong iff the stop is a build that exits non-zero, an application down after the patch, tests that cannot be run or a base that cannot be read |
| CriticVerdicts.MisjudgedStopsExist | backend/src/critic/application/services/critic.service.ts:125-250 | inputs: each of the four is one outcome away from a run in which everything goes well |
| CriticVerdicts.BrokenBuildIsNotRejected | backend/src/critic/application/services/critic-steps.ts:168-176 | a patch that breaks the build is FAILED with BASELINE_INVALID, no feedback, row UNDER_REVIEW |
| CriticVerdicts.KilledApplicationIsNotRejected | backend/src/critic/application/services/critic.service.ts:175-178 | a patch that kills an application that answered before it is FAILED with APPLICATION_START_FAILURE, no feedback, row UNDER_REVIEW |
| CriticVerdicts.BrokenSandboxIsRejected | backend/src/critic/application/services/test-runner.ts:107-118 | tests that cannot be run, or an unreadable base, reject the patch, seal its row and tell the Engineer that build and tests failed |
| CriticVerdicts.VerdictExactly | backend/src/critic/application/services/critic-outcome.ts:98-159 | APPROVED iff all steps and the row write succeed; REJECTED iff one of the rejecting stops ended the run, only after the exploit was reproduced; feedback iff REJECTED, with the report's own reason |
| CriticVerdicts.AdvisoryNeverOverrides | backend/src/critic/application/services/critic-steps.ts:248-271 | enabling or answering of the advisory review changes neither verdict, feedback nor row |
| CriticVerdicts.RowMatchesReport | backend/src/critic/application/services/critic.service.ts:252-316 | with writes that do not throw the row ends as the verdict, and stays UNDER_REVIEW after FAILED |
| CriticProtocol.RowsOnlyAdvance | backend/src/critic/infrastructure/persistence/prisma-patch-review-repository.ts:39-51 | under any interleaving of any number of runs each single step moves a row at most from GENERATED to UNDER_REVIEW or from there to a verdict; a sealed row never changes; at most one verdict write takes effect |
| CriticProtocol.ReportedVerdictIsSealed | backend/src/critic/application/services/critic.service.ts:252-316 | a run that returned a verdict leaves its row sealed by exactly one run, with this run's verdict if it is that run |
| CriticProtocol.GatePassesExactly | backend/src/critic/application/services/critic.service.ts:83-103 | a run gets past the gate iff its finding and content are admissible, its row starts as GENERATED and its status read comes before the first UNDER_REVIEW write that takes effect on the row; otherwise it throws |
| CriticProtocol.BothReportOnlyIfBothGatesFirst | backend/src/critic/application/services/critic.service.ts:83-103 | two runs on one patch both report a verdict only if both status reads came before that first write |
| CriticProtocol.LateGateThrows | backend/src/critic/application/services/critic.service.ts:83-103 | a run whose status read comes after it ends in a throw, so of runs separated by that write only the earlier can report |
| CriticProtocol.BothClaimedMayDisagree | backend/src/critic/application/services/critic.service.ts:83-103 | conversely, whenever two runs are past the gate and have not marked yet, they can still report opposite verdicts |
| CriticProtocol.ConcurrentRunsMayDisagree | backend/src/critic/application/services/critic.service.ts:83-103 | a whole interleaving from the start in which two runs report different verdicts and the row keeps the first |
| CriticProtocol.RunIsOneProcess | backend/src/critic/application/services/critic.service.ts:83-270 | the imperative run alone, on any rows and finding, is one process of the protocol taking its steps in order: same rows, same outcome, refusals included |
| RemediationLoop.RunRow | backend/src/critic/application/services/critic.service.ts:83-103 | what one run does to its own row, and that it touches no other |
| RemediationLoop.Review | backend/src/critic/application/services/remediation-loop.service.ts:81-89 | a freshly generated row is APPROVED with a recorded approval iff the run returns APPROVED; REJECTED returns feedback and a REJECTED row |
| RemediationLoop.Run | backend/src/critic/application/services/remediation-loop.service.ts:51-116 | bounded, numbered attempts, each recording its Engineer run and the Critic's report; attempt i+1 gets reason, first six failed checks, guidance and number of attempt i's rejection and its target; why the loop ended, case by case; all but the last rejected with a REJECTED row; final APPROVED iff the last row is APPROVED and that run's approval and record writes succeeded; other rows untouched |
| GroundTruth.FirstExploitIsFirst | backend/src/benchmarks/ground-truth.ts:181-184 | the exploit taken is the first confirmed one that is unused and matches; none is taken iff none does |
| GroundTruth.AssignFindings | backend/src/benchmarks/ground-truth.ts:178-193 | the assignment loop computes the greedy assignment and the used ids |
| GroundTruth.GroupByCwe | backend/src/benchmarks/ground-truth.ts:215-223 | the grouping loop computes the groups in order of first appearance |
| GroundTruth.BuildDetectionReport | backend/src/benchmarks/ground-truth.ts:170-247 | the loops assemble the report that the `GroundTruthReport` rows describe |
| GroundTruthReport.ExploitMatchExactly | backend/src/benchmarks/ground-truth.ts:76-100 | a finding matches an exploit iff type or CWE agree whatever the casing and, if it names routes, method, path and parameter of one of them agree, an absent or empty parameter agreeing with any |
| GroundTruthReport.VulnerabilityMatchExactly | backend/src/benchmarks/ground-truth.ts:103-115 | a finding matches a static row iff CWE or type agree whatever the casing |
| GroundTruthReport.StaticMatchedExactly | backend/src/benchmarks/ground-truth.ts:189-193 | a static finding is matched by the first row that fits, by none iff none fits; a future finding by nothing |
| GroundTruthReport.LeftoversExactly | backend/src/benchmarks/ground-truth.ts:196-212 | false positives are the confirmed or exploitable exploits whose id no finding took, unmatched detections the rows whose id none took, each as often as given |
| GroundTruthReport.CountsExactly | backend/src/benchmarks/ground-truth.ts:153-164 | hits, misses and false positives of both scopes are the sizes of the report's own sets and lists |
| GroundTruthReport.MetricsExactly | backend/src/benchmarks/ground-truth.ts:160-167 | recall, precision and F1 of both scopes and of every CWE row are the quotients of the counts beside them, rounded to three digits with halves up, and 0 for 0/0 |
| GroundTruthReport.RowsExactly | backend/src/benchmarks/ground-truth.ts:214-233 | one row for each scope and CWE of a scored finding, no two for the same, each counting exactly its own matches and, for sniper, the false positives of its CWE |
| GroundTruthScores.AssignIsGreedy | backend/src/benchmarks/ground-truth.ts:179-187 | every assigned exploit is confirmed, matches and is used once; a finding stays unmatched only if every exploit that fits was used before |
| GroundTruthScores.OneToOne | backend/src/benchmarks/ground-truth.ts:176-185 | no two findings share an exploit |
| GroundTruthScores.GreedyIsHalfOptimal | backend/src/benchmarks/ground-truth.ts:175-193 | no one-to-one pairing the match relation allows finds more than twice the greedy true positives |
| GroundTruthScores.HalfIsTight | backend/src/benchmarks/ground-truth.ts:175-193 | a family of inputs where it does find twice as many |
| GroundTruthScores.CountsPartition | backend/src/benchmarks/ground-truth.ts:158-164 | hits and misses add up to the sniper findings; hits and false positives to the confirmed exploits iff no used id occurs twice |
| GroundTruthScores.DistinctIdsAreUsedOnce | backend/src/benchmarks/ground-truth.ts:24-26 | distinct ids are enough for that |
| GroundTruthScores.KeyRoundTrip | backend/src/benchmarks/ground-truth.ts:148-151 | a group key is read back as the scope and CWE it was made of, whatever the CWE contains |
| GroundTruthScores.PerCweSumsToAggregate | backend/src/benchmarks/ground-truth.ts:214-233 | per-CWE hits and misses of a scope add up to its aggregate |
| GroundTruthScores.F1Exactly | backend/src/benchmarks/ground-truth.ts:162-166 | F1 is 2TP/(2TP+FN+FP), 0 when that is 0/0, within [0,1] and between precision and recall |
| GroundTruthScores.RoundIsClose | backend/src/benchmarks/ground-truth.ts:144-146 | rounding stays in [0,1], within 1/2000 with halves going up, and keeps order |
| JsonRepair.Repair | backend/src/engineer/application/services/engineer-run-context.ts:175-214 | the character loop computes the scan |
| JsonPieces.EveryTextIsADocument | backend/src/engineer/application/services/engineer-run-context.ts:175-214 | every text is a sequence of string literals and stretches between them, perhaps with an open literal or a last backslash; read without scanning state |
| JsonPieces.ScanFixesLiterals | backend/src/engineer/application/services/engineer-run-context.ts:175-214 | the scan turns each raw newline, CR and tab inside a literal that no backslash precedes into its escape, and changes nothing else |
| JsonPieces.RepairKeepsContents | backend/src/engineer/application/services/engineer-run-context.ts:175-214 | a reader of pieces gets the same contents for every literal before and after, and the same text between them |
| JsonRepair.ScanKeepsMeaning | backend/src/engineer/application/services/engineer-run-context.ts:175-214 | a lenient string reader gets the same symbols before and after the scan |
| JsonRepair.ScanEscapes | backend/src/engineer/application/services/engineer-run-context.ts:200-211 | afterwards no raw newline, CR or tab is in a string except right after a backslash |
| JsonRepair.UnchangedIffEscaped | backend/src/engineer/application/services/engineer-run-context.ts:175-214 | the scan leaves a text alone iff it was in that form, and never shortens one |
| JsonRepair.ScanIsIdempotent | backend/src/engineer/application/services/engineer-run-context.ts:175-214 | scanning twice is scanning once |
| JsonRepair.LawfulIffRepairable | backend/src/engineer/application/services/engineer-run-context.ts:200-211 | the result has no control character in a string (section 7 of RFC 8259) iff the input's are only the three known ones and none follows a backslash |
| NvdPaging.Collect | backend/src/knowledge/infrastructure/sources/nvd-knowledge-source.ts:78-86 | one page's valid items are appended in order, the rest counted |
| NvdPaging.Fetch | backend/src/knowledge/infrastructure/sources/nvd-knowledge-source.ts:49-103 | a prefix of the list is examined, each item once and in order; `maxItems` and `maxPages` are kept; `hasMore` is false only if the whole list was examined or the call was told to fetch nothing, and true only after `maxItems` documents or `maxPages` pages as large as the budget allows; without `maxItems` both are given exactly |
| SourceResolver.Resolve | backend/src/engineer/application/services/source-resolver.ts:157-245 | resolves to f iff f scores at least 50 and beats every other candidate by more than 10; no match iff none scores 40, below threshold iff the best is between 40 and 49 |
| SourceResolver.WinnersAreOnTop | backend/src/engineer/application/services/source-resolver.ts:185-189 | a clear winner can only be the first of the ranking; the pre-filter at 40 never hides one |
| SourceResolver.OrderDoesNotMatter | backend/src/engineer/application/services/source-resolver.ts:157-186 | the decision does not depend on the order files are listed in |
| StableSort.SortIsStable | backend/src/engineer/application/services/source-resolver.ts:185-186 | the stable descending sort used by the applier and the resolver: reorders, larger keys first, equal keys in order |

## Left out

- Docker, git, GitHub, Prisma, Redis, HTTP and LLM calls: each is an arbitrary outcome (a returned value or a throw) or an abstract store.
- A database write that throws may have taken effect or not; both are modelled, retries inside the driver are not.
- Numbers in hunk headers are unbounded; JavaScript's loss of precision beyond 2^53 is not modelled.
- Characters are Unicode scalar values where JavaScript counts UTF-16 units; this matters only for the 60-, 64-, 300- and 400-character cuts.
- DiffRoundTrip.RoundTripExactly: texts and paths with a carriage return at the end of a line, and paths of more than one line, are excluded; parsing and applying such texts is modelled, the round trip is not stated for them.
- EventBusLru.TrackedAreMostRecentlyPublished: needs a clock that ticks between publishes and stable keys, because without either it is false (see above).
- Event ids, timestamps, redaction, truncation and metadata limits: an event's content is one opaque text.
- What a subscriber does when called, including publishing again from inside it; publish reports whom it tells.
- SseStream.ExactlyOnce: the `clearEvents` reset is not among the moves, because after it the old connection goes on from where it was.
- Which test command exists: the discovery probes are one outcome, "no command" or a command; a probe that cannot be run counts as "not found", so a broken sandbox may pass as one without tests.
- What sandbox and reader calls throw is never one of the Critic's own error classes, which only the Critic's code raises.
- Health polling: `waitHealthy` is one yes or no, its deadline loop and absorbed probe errors are not modelled.
- CriticRun.ValidationRun.Validate: messages of errors that carry no feedback are shortened to fixed texts; the order in which teardown and the record write finish is not modelled.
- Event emission and the observability bridge inside Critic runs, which never influence a verdict.
- RemediationLoop.Run: patch ids of generated patches are fresh, as inserting a new row makes them; rows the Engineer stores for its own rejections are not modelled.
- Casing and route normalisation in the scorer are uninterpreted functions, so every statement holds for any such functions; the recon report is left out.
- GroundTruthScores.GreedyIsHalfOptimal: exploit ids are distinct, as primary keys are.
- Floating-point error in the metrics: they are real numbers.
- `JSON.parse` and the first three repair attempts; retries, timeouts and dates of the NVD source; scoring of candidate files.
- React components, controllers, routing, configuration and the wide scan store.
