# agentic-zero core orchestration, modelled in Dafny

This project models the headless orchestration core of agentic-zero (`packages/core/src`). That core is the layer that guides a user through a page: a journey of checkpoints, with narration and a "tug-of-war" hand-over to the user. The model covers these parts:

- **AgentMachine** (`agent_machine.dfy`): the XState journey machine that `createAgentMachine` builds, as a pure step function. A step returns the next snapshot and the bridge calls and flight-recorder entries the machine makes. The `after` timers and the `navigateToTarget` invocation become the events `Timer`, `NavDone(result)` and `NavError`.
- **StaticMachine** (`static_machine.dfy`): the bridge-less `agentMachine` kept for unit tests, compared with the bridge machine.
- **FlightRecorder** (`flight_recorder.dfy`): the 500-entry ring buffer of telemetry entries, its export, `tail(n)` with JavaScript's negative-slice rules, and the error filter.
- **Regex** and **PIISanitizer** (`regex.dfy`, `pii_sanitizer.dfy`):
  - A backtracking matcher for the fragment of JavaScript regular expressions the PII filter uses (`\b`, greedy `{m,n}` repetitions of character classes). It is proved sound and complete against a declarative meaning.
  - The global `replace`, the three-pattern `sanitizeText`, the exclusion rules and `sanitizeTree`.
  - **PIIExamples** (`pii_examples.dfy`) proves the five examples of the sanitizer's unit tests about the model.
- **SelfCorrector** (`self_corrector.dfy`): the viewport check with its three-retry corrective scroll, and the attribute check.
- **InterruptionManager** (`interruption_manager.dfy`): the arbiter between agent control, user control and negotiating. It covers the scroll-velocity, click and navigation-key takeovers, the idle timer, and attach/detach with several registered handler triples.
- **ShadowPiercer** (`shadow_piercer.dfy`): `deepQuery` and `deepQueryAll` through open shadow roots and same-origin iframes.
- **HeadlessBridge** (`headless_bridge.dfy`): the zero-UI bridge, and whole journeys of the machine driven through it.
- **LocalOrchestrator** (`local_orchestrator.dfy`): the trigger-to-event and event-to-callback adapter.
- **VoiceBridge** (`voice_bridge.dfy`): the flag logic of the Web Speech bridge, with its network-error circuit breaker and 5-second backoff.
- **NarrativeEngine** (`narrative_engine.dfy`): which source answers (the model, the endpoint or the fallback), and the mock stream's `/.{1,5}/g` chunking.
- **BridgeOrchestrator** (`bridge_orchestrator.dfy`): the service wiring the subsystems to the machine. It covers `scrollToTarget`, the narrative lookup and stream, the avatar telemetry, monitoring, and the arbiter callbacks that send machine events.

Browser and engine interfaces are inputs to the model:

- DOM lookups and rectangles.
- The model's and the endpoint's replies.
- The speech engines' callbacks.
- The clock, as one timestamp per call.
- The random session id.

## Model

| member | source | states |
|---|---|---|
| AgentMachine.PopCheckpoint | packages/core/src/machine/agentMachine.ts:64-68 | the head of the queue becomes the current checkpoint exactly when it is truthy, the queue loses its head, and no other field changes |
| AgentMachine.EnterState | packages/core/src/machine/agentMachine.ts:63-207 | entering any state ends in that state, except checkingNext, which resolves at once to pathfinding when checkpoints remain and to completed otherwise |
| AgentMachine.Step | packages/core/src/machine/agentMachine.ts:46-207 | no step ends in the transient checkingNext state |
| AgentMachine.Run | packages/core/src/machine/agentMachine.ts:46-207 | a run of any event sequence also ends in a stable state |
| AgentMachine.StartJourneyLoads | packages/core/src/machine/agentMachine.ts:47-70 | START_JOURNEY from idle resets the error count, takes the truthy head as checkpoint, keeps the tail, and starts monitoring before the two state-change entries |
| AgentMachine.StartJourneyExample | packages/core/src/machine/agentMachine.test.ts:17-24 | the unit test's journey ["hero","features"] is in pathfinding on "hero" with ["features"] queued |
| AgentMachine.QueueGrowth | packages/core/src/machine/agentMachine.ts:53-175 | only START_JOURNEY and USER_RESUME can lengthen the queue, USER_RESUME by at most one, and any other step keeps it or drops its head |
| AgentMachine.ResumeRevisits | packages/core/src/machine/agentMachine.ts:165-177 | USER_RESUME re-queues the interrupted checkpoint, so the next pathfinding restores the same checkpoint and queue with the flag cleared |
| AgentMachine.NextMilestoneSkips | packages/core/src/machine/agentMachine.ts:178 | NEXT_MILESTONE moves on to the next queued checkpoint without re-queueing and leaves the interruption flag set |
| AgentMachine.InterruptOnlyWhileActive | packages/core/src/machine/agentMachine.ts:104-163 | USER_INTERRUPT is honoured only in navigating, thinking and narrating; there it records the interruption, kills animations, retreats the avatar and sets the flag; elsewhere it changes nothing |
| AgentMachine.NavigationOutcome | packages/core/src/machine/agentMachine.ts:90-102 | navigation goes to thinking exactly on a `true` result, otherwise to searching, and only a rejection records navigation_failed |
| AgentMachine.ErrorCountChanges | packages/core/src/machine/agentMachine.ts:54-184 | outside START_JOURNEY the error count grows by exactly one on entering searching and is otherwise unchanged |
| AgentMachine.SearchingTimer | packages/core/src/machine/agentMachine.ts:187-198 | the searching timer retries navigation while fewer than 3 errors occurred, else records max_retries_exceeded and moves to the next checkpoint or completes |
| AgentMachine.FailureRetriesOrSkips | packages/core/src/machine/agentMachine.ts:90-198 | one failed navigation retries the same checkpoint while the journey-wide count stays below 3, and skips it otherwise |
| AgentMachine.RetryBound | packages/core/src/machine/agentMachine.ts:182-198 | a checkpoint that keeps failing is tried 3 − errorCount times before it is skipped, the count rising by one per try |
| AgentMachine.ErrorCountPastMax | packages/core/src/machine/agentMachine.ts:182-198 | the count is not bounded: once it has reached 2, each further checkpoint whose navigation fails adds one, is skipped after a single search, and the next checkpoint is navigated to |
| AgentMachine.TwoFailingCheckpoints | packages/core/src/machine/agentMachine.ts:90-198 | a journey ["a", "b"] whose navigations all fail reaches "b" after three tries of "a" and takes the count to 4, past the limit of 3 |
| AgentMachine.CompletedIsFinal | packages/core/src/machine/agentMachine.ts:201-207 | completed ignores every event and does nothing |
| AgentMachine.CompletedRunInert | packages/core/src/machine/agentMachine.ts:201-207 | any run from completed is inert |
| AgentMachine.NarrationCompleteNext | packages/core/src/machine/agentMachine.ts:136-205 | after narration the machine enters pathfinding exactly when checkpoints remain, else completes and stops monitoring |
| AgentMachine.QueueNeverGrows | packages/core/src/machine/agentMachine.ts:63-207 | across any run without START_JOURNEY the queue never grows: a USER_RESUME puts the checkpoint back, but the pathfinding entry of the same step takes it off again |
| AgentMachine.ErrorCountMonotone | packages/core/src/machine/agentMachine.ts:54-184 | within a journey the error count never decreases |
| StaticMachine.EnterStatic | packages/core/src/machine/agentMachine.ts:238-285 | the test machine's entries end in the target state, checkingNext resolving as in the bridge machine |
| StaticMachine.StepStatic | packages/core/src/machine/agentMachine.ts:227-286 | no step of the test machine ends in checkingNext |
| StaticMachine.RunStatic | packages/core/src/machine/agentMachine.ts:227-286 | runs of the test machine end in a stable state |
| StaticMachine.StartKeepsErrorCount | packages/core/src/machine/agentMachine.ts:230-235 | the test machine's START_JOURNEY leaves the error count as it is where the bridge machine resets it to 0, and both load the same queue; idle is only the initial state there, whose count is 0, so the difference cannot be observed from the initial context |
| StaticMachine.ResumeDoesNotRequeue | packages/core/src/machine/agentMachine.ts:270-275 | in the test machine USER_RESUME drops the interrupted checkpoint, which the bridge machine restores |
| StaticMachine.FlagNeverSet | packages/core/src/machine/agentMachine.ts:270-275 | the test machine never sets the interruption flag |
| StaticMachine.SameStates | packages/core/src/machine/agentMachine.ts:238-285 | for timer, narration, interrupt and next-milestone events both machines reach the same state, queue and checkpoint |
| StaticMachine.TestEventsMirrorInvocation | packages/core/src/machine/agentMachine.ts:247-253 | TARGET_REACHED and ERROR_OCCURRED in the test machine play the role of the invocation's `true` result and rejection; the bridge machine ignores TARGET_REACHED |
| StaticMachine.StaticErrorCountMonotone | packages/core/src/machine/agentMachine.ts:277 | the test machine's error count never decreases over any run; its idle state is only the initial one, so a journey starts at most once |
| FlightRecorder.Newest | packages/core/src/bridge/FlightRecorder.ts:31-33 | the ring-buffer trim keeps exactly the last 500 entries, or all of them when fewer |
| FlightRecorder.Create | packages/core/src/bridge/FlightRecorder.ts:17-24 | a new recorder has an empty log and the supplied session id |
| FlightRecorder.SessionId | packages/core/src/bridge/FlightRecorder.ts:72-74 | a generated session id starts with `awf-`, then the timestamp and a dash, then at most six characters of the random base-36 text, the third to the eighth when there are that many |
| FlightRecorder.Record | packages/core/src/bridge/FlightRecorder.ts:26-33 | the new entry, stamped with the clock, is last; the log grows by one up to 500 and then drops only its oldest entry; the session id is unchanged |
| FlightRecorder.ExportLog | packages/core/src/bridge/FlightRecorder.ts:44-49 | the export carries the session id and the whole log |
| FlightRecorder.Tail | packages/core/src/bridge/FlightRecorder.ts:54-56 | `tail(n)` gives the last n entries for n > 0, the whole log for 0, and drops the first −n entries for n < 0 |
| FlightRecorder.TailDefault | packages/core/src/bridge/FlightRecorder.ts:54-56 | `tail()` gives the last 10 entries |
| FlightRecorder.Errors | packages/core/src/bridge/FlightRecorder.ts:61-63 | `errors()` holds only error entries |
| FlightRecorder.FilterErrors | packages/core/src/bridge/FlightRecorder.ts:61-63 | the filter keeps only error entries and is never longer than the log; FilterErrorsAppend states that it keeps their order |
| FlightRecorder.FilterErrorsAppend | packages/core/src/bridge/FlightRecorder.ts:61-63 | the error filter keeps exactly the error entries in their order, distributing over concatenation |
| FlightRecorder.ErrorsAfterRecord | packages/core/src/bridge/FlightRecorder.ts:26-63 | below capacity, recording adds the entry to `errors()` exactly when it is an error |
| FlightRecorder.Clear | packages/core/src/bridge/FlightRecorder.ts:68-70 | clearing empties the log and keeps the session id |
| FlightRecorder.RecordAllKeepsNewest | packages/core/src/bridge/FlightRecorder.ts:26-33 | after any number of records the log is exactly the 500 most recent entries, oldest first |
| FlightRecorder.NewestAppend | packages/core/src/bridge/FlightRecorder.ts:31-33 | trimming early and then appending equals appending and trimming once |
| FlightRecorder.SessionIdStable | packages/core/src/bridge/FlightRecorder.ts:22-49 | every later export reports the session id fixed at construction, whatever is recorded or cleared |
| HeadlessBridge.ScrollToTarget | packages/core/src/bridge/HeadlessBridge.ts:10-13 | the headless scroll always succeeds |
| HeadlessBridge.Narrative | packages/core/src/bridge/HeadlessBridge.ts:19-21 | the headless narrative is the fixed prefix followed by the checkpoint id |
| HeadlessBridge.NarrativeInjective | packages/core/src/bridge/HeadlessBridge.ts:19-21 | different checkpoints get different headless narratives |
| HeadlessBridge.HeadlessStep | packages/core/src/bridge/HeadlessBridge.ts:10-21 | a headless step from a state other than checkingNext never ends in checkingNext: the transient state is left within the step |
| HeadlessBridge.HeadlessStepOnCourse | packages/core/src/bridge/HeadlessBridge.ts:10-13 | with a scroll that always succeeds, a journey step never enters searching and keeps the error count |
| HeadlessBridge.CheckpointRound | packages/core/src/bridge/HeadlessBridge.ts:10-21 | one checkpoint takes four steps and ends in the next pathfinding or in completed, with the queue shortened by one |
| HeadlessBridge.TourFromPathfinding | packages/core/src/bridge/HeadlessBridge.ts:10-21 | driven by timers, the headless scroll result and a NARRATION_COMPLETE per checkpoint, from pathfinding 4·(queue length + 1) steps complete the journey with the error count unchanged |
| HeadlessBridge.HeadlessJourneyCompletes | packages/core/src/bridge/HeadlessBridge.ts:10-21 | with a recorder supplied and NARRATION_COMPLETE sent after each narration, a journey through the headless bridge completes with error count 0 and never enters searching |
| InterruptionManager.Create | packages/core/src/bridge/InterruptionManager.ts:19-28 | a new arbiter is with the agent, with no handlers and no idle timer |
| InterruptionManager.IsNavigationKey | packages/core/src/bridge/InterruptionManager.ts:59-61 | the definition of the navigation keys: Tab, ArrowDown, ArrowUp and space (no contract of its own; OtherKeysIgnored states that other keys do nothing) |
| InterruptionManager.FastScroll | packages/core/src/bridge/InterruptionManager.ts:35-43 | the definition of a fast scroll: time has passed and `dy / dt * 100` exceeds the threshold, compared exactly by cross-multiplying (no contract of its own; ScrollTakeover states its use) |
| InterruptionManager.TakeOver | packages/core/src/bridge/InterruptionManager.ts:79-82 | the definition of entering user control together with its callers' agent-control test: a takeover only from agent control (no contract of its own; ClickTakesOver and ScrollTakeover state its use) |
| InterruptionManager.HandleAll | packages/core/src/bridge/InterruptionManager.ts:33-78 | every registered handler triple sees the input in turn, and the number of registered handlers is kept; HandleAllOnce states that several registrations act as one |
| InterruptionManager.Run | packages/core/src/bridge/InterruptionManager.ts:33-110 | the arbiter driven by a sequence of events, its signals concatenated in order (no contract of its own; TakeoverAtMostOnce states what a run promises) |
| InterruptionManager.HandleOnce | packages/core/src/bridge/InterruptionManager.ts:34-67 | a handler signals at most one takeover, only from agent control, and then hands control to the user; a click or navigation key always reschedules the idle timer and takes over exactly when the agent has control |
| InterruptionManager.Step | packages/core/src/bridge/InterruptionManager.ts:33-110 | attach adds a handler triple, detach removes them all and the idle timer, returnToAgentControl hands control back, and the idle timer moves user control to negotiating with one idle signal |
| InterruptionManager.HandleOnceIdempotent | packages/core/src/bridge/InterruptionManager.ts:34-67 | a second run of a handler on the same input changes nothing and signals nothing |
| InterruptionManager.HandleAllOnce | packages/core/src/bridge/InterruptionManager.ts:33-78 | attaching several times has the same effect on every input as attaching once |
| InterruptionManager.ClickTakesOver | packages/core/src/bridge/InterruptionManager.ts:52-57 | a click takes over exactly from agent control and always reschedules the idle timer |
| InterruptionManager.KeyTakesOver | packages/core/src/bridge/InterruptionManager.ts:59-67 | with handlers attached, Tab, ArrowDown, ArrowUp or space hands control to the user exactly once, from agent control only; in the other states it changes nothing but the idle timer |
| InterruptionManager.OtherKeysIgnored | packages/core/src/bridge/InterruptionManager.ts:59-67 | keys other than Tab, ArrowDown, ArrowUp and space have no effect |
| InterruptionManager.ScrollTakeover | packages/core/src/bridge/InterruptionManager.ts:34-50 | a scroll takes over exactly when time has passed, the velocity exceeds the threshold and the agent has control; the baseline always moves |
| InterruptionManager.DetachedIgnoresInput | packages/core/src/bridge/InterruptionManager.ts:106-110 | without handlers, window input reaches nobody |
| InterruptionManager.StepTakeovers | packages/core/src/bridge/InterruptionManager.ts:80-100 | a step takes over at most once and only from agent control, and only returnToAgentControl gets back to agent control |
| InterruptionManager.TakeoverAtMostOnce | packages/core/src/bridge/InterruptionManager.ts:80-100 | between two returns of control, takeover fires at most once, and never once the user has control |
| SelfCorrector.Create | packages/core/src/bridge/SelfCorrector.ts:16-18 | a new corrector has its full retry budget |
| SelfCorrector.InView | packages/core/src/bridge/SelfCorrector.ts:37-40 | the definition of the first visibility test: the top edge inside the viewport and the bottom edge below its top (no contract of its own; the VerifyTargetInView row states its use) |
| SelfCorrector.VerifyTargetInView | packages/core/src/bridge/SelfCorrector.ts:24-76 | a missing element fails with no actual; an element in view succeeds and resets the count; otherwise it corrects while retries remain, succeeding exactly when the top edge is then in view, and reports max-retries-exceeded after that |
| SelfCorrector.VerifyDOMChange | packages/core/src/bridge/SelfCorrector.ts:82-95 | a missing element fails with no actual value; no correction is ever applied |
| SelfCorrector.Reset | packages/core/src/bridge/SelfCorrector.ts:101-103 | reset restores the full retry budget |
| SelfCorrector.VerificationConsistent | packages/core/src/bridge/SelfCorrector.ts:24-76 | a success always names the target, no actual value means the element was missing, and a correction needs a present element and remaining budget |
| SelfCorrector.DomChangeSucceedsIff | packages/core/src/bridge/SelfCorrector.ts:82-95 | the attribute check succeeds exactly when the element exists and carries the expected value |
| SelfCorrector.RetryBudget | packages/core/src/bridge/SelfCorrector.ts:17-75 | a target never in view is corrected exactly while the three retries last, and every later check reports max-retries-exceeded |
| PIISanitizer.SanitizeTextIdentity | packages/core/src/bridge/PIISanitizer.ts:20-65 | text with no digit and no `@` passes the filter unchanged |
| PIISanitizer.LaterPassesIdentity | packages/core/src/bridge/PIISanitizer.ts:22-63 | the SSN and e-mail passes leave text with no digit and no `@` alone |
| PIISanitizer.SanitizeText | packages/core/src/bridge/PIISanitizer.ts:59-65 | the filter brings in no character except those of the `[REDACTED]` marker, and text with no digit and no `@` passes unchanged; which spans are replaced is ReplaceFromLeftmost with MatchIff |
| PIISanitizer.CardPassIdentity | packages/core/src/bridge/PIISanitizer.ts:21-62 | the card pass leaves text without a digit unchanged |
| PIISanitizer.PassesIdentity | packages/core/src/bridge/PIISanitizer.ts:59-65 | the card, SSN and e-mail passes in a row leave text with no digit and no `@` unchanged |
| PIISanitizer.ShouldExclude | packages/core/src/bridge/PIISanitizer.ts:39-54 | the opt-out attribute on the element or an ancestor always excludes; a non-input element is excluded only that way; a sensitive input type or autocomplete value excludes an input |
| PIISanitizer.DirectTexts | packages/core/src/bridge/PIISanitizer.ts:84-88 | at most one direct text per child node, each non-empty and already trimmed |
| PIISanitizer.SanitizeTree | packages/core/src/bridge/PIISanitizer.ts:39-103 | the node carries the lower-cased tag and is a redaction marker exactly when the element is excluded |
| PIISanitizer.SanitizeChildren | packages/core/src/bridge/PIISanitizer.ts:95-100 | one sanitized node per element child |
| PIISanitizer.SanitizeChildrenPointwise | packages/core/src/bridge/PIISanitizer.ts:95-100 | each sanitized child is the sanitized element child in the same position |
| PIISanitizer.SanitizeTreeShape | packages/core/src/bridge/PIISanitizer.ts:72-103 | an excluded root gives only its marker; otherwise one node per element child in order, and text exactly when the joined direct text is non-empty, sanitized |
| PIIExamples.SanitizeExampleCardDashed | packages/core/src/bridge/PIISanitizer.test.ts:8-11 | the dashed card number is redacted |
| PIIExamples.SanitizeExampleCardPlain | packages/core/src/bridge/PIISanitizer.test.ts:13-16 | the undashed card number is redacted |
| PIIExamples.SanitizeExampleSsn | packages/core/src/bridge/PIISanitizer.test.ts:18-21 | the SSN is redacted |
| PIIExamples.SanitizeExampleEmail | packages/core/src/bridge/PIISanitizer.test.ts:23-26 | the e-mail address is redacted, the domain part backtracking to the last dot |
| PIIExamples.SanitizeExamplePlainText | packages/core/src/bridge/PIISanitizer.test.ts:28-31 | normal text is left untouched |
| PIIExamples.SsnLineHasNoCard | packages/core/src/bridge/PIISanitizer.ts:21 | the card pattern, which needs sixteen characters, finds nothing in the SSN line |
| Regex.RunEnd | packages/core/src/bridge/PIISanitizer.ts:21-23 | the longest run of class characters within the quantifier's maximum |
| Regex.Match | packages/core/src/bridge/PIISanitizer.ts:21-23 | a match found is at least as long as the pattern's minimum |
| Regex.MatchSound | packages/core/src/bridge/PIISanitizer.ts:21-23 | whatever the backtracking matcher returns is a match in the declarative sense |
| Regex.MatchComplete | packages/core/src/bridge/PIISanitizer.ts:21-23 | whenever some match exists at a position, the matcher finds one |
| Regex.MatchIff | packages/core/src/bridge/PIISanitizer.ts:21-23 | the matcher succeeds at a position exactly when the declarative semantics allows a match there |
| Regex.MatchNeedsClass | packages/core/src/bridge/PIISanitizer.ts:21-23 | a match contains a character of every class the pattern repeats at least once |
| Regex.ReplaceFrom | packages/core/src/bridge/PIISanitizer.ts:62 | from index i on, the replaced text holds only characters of the text after i or of the marker |
| Regex.ReplaceAll | packages/core/src/bridge/PIISanitizer.ts:62 | the global replace holds only characters of the text or of the marker |
| Common.TrimStart | packages/core/src/bridge/PIISanitizer.ts:86 | the result is a suffix that starts with no white space, and only white space was dropped |
| Common.TrimEnd | packages/core/src/bridge/PIISanitizer.ts:86 | the result is a prefix that ends with no white space, and only white space was dropped |
| Common.Trim | packages/core/src/bridge/PIISanitizer.ts:86 | the trimmed text is the text with its leading white space dropped (TrimStart: a suffix, only white space removed) and then its trailing white space dropped (TrimEnd: a prefix, only white space removed); it has no white space at either end and is empty exactly when the text is all white space |
| Common.TrimTrimmed | packages/core/src/bridge/PIISanitizer.ts:86 | trimming twice is trimming once |
| Common.Lower | packages/core/src/bridge/PIISanitizer.ts:74-78 | the lower-cased tag has the same length and maps every ASCII capital to its small letter, leaving other characters alone |
| Regex.ReplaceFromLeftmost | packages/core/src/bridge/PIISanitizer.ts:62 | the global replace copies the text before the leftmost match, replaces the match, and resumes after it |
| Regex.ReplaceFromNoMatch | packages/core/src/bridge/PIISanitizer.ts:62 | text where no match starts is left unchanged |
| Regex.ReplaceAllWithoutClass | packages/core/src/bridge/PIISanitizer.ts:62 | text lacking a class the pattern needs is left unchanged |
| ShadowPiercer.FirstMatch | packages/core/src/bridge/ShadowPiercer.ts:27 | `querySelector` gives a matching element at some position with no matching element before it, and none exactly when nothing matches |
| ShadowPiercer.DirectMatches | packages/core/src/bridge/ShadowPiercer.ts:82-85 | every direct result is one of the root's elements that matches, with the selector as its whole path, and every matching element is listed |
| ShadowPiercer.DeepQuery | packages/core/src/bridge/ShadowPiercer.ts:22-71 | with no root and no document nothing is found; every result matches, its path ends with the selector, and it is longer exactly when a boundary was crossed |
| ShadowPiercer.Query | packages/core/src/bridge/ShadowPiercer.ts:26-70 | iframe results only come from a document in a browser |
| ShadowPiercer.ShadowSearch | packages/core/src/bridge/ShadowPiercer.ts:32-45 | a result found through a shadow host is marked shadow and not iframe |
| ShadowPiercer.FrameSearch | packages/core/src/bridge/ShadowPiercer.ts:47-68 | a result found through an iframe matches and is marked iframe; FrameSearchComplete states when the loop finds nothing |
| ShadowPiercer.FrameSearchComplete | packages/core/src/bridge/ShadowPiercer.ts:47-68 | the iframe loop comes back empty exactly when no loaded iframe's document yields a match; frames without a document or with cross-origin access are skipped |
| ShadowPiercer.DeepQueryAll | packages/core/src/bridge/ShadowPiercer.ts:76-103 | every listed result matches and none comes from an iframe; the direct matches come before every shadow result; every matching element of the root is listed, and every direct entry is one of its elements |
| ShadowPiercer.QueryAll | packages/core/src/bridge/ShadowPiercer.ts:79-102 | from one root every result matches and none comes from an iframe |
| ShadowPiercer.ShadowAll | packages/core/src/bridge/ShadowPiercer.ts:87-100 | every result found through a host is marked shadow and not iframe |
| ShadowPiercer.HostResults | packages/core/src/bridge/ShadowPiercer.ts:90-98 | a host contributes one result per result of its tree, each marked shadow with the host's step first |
| ShadowPiercer.DirectMatchesAppend | packages/core/src/bridge/ShadowPiercer.ts:82-85 | `querySelectorAll` keeps document order: the list for `a + b` is the list for `a` followed by the list for `b` |
| ShadowPiercer.DirectMatchesSingle | packages/core/src/bridge/ShadowPiercer.ts:82-85 | one element contributes itself exactly when it matches |
| ShadowPiercer.ShadowAllAppend | packages/core/src/bridge/ShadowPiercer.ts:87-100 | the shadow results go host by host in document order: the list for `a + b` is the list for `a` followed by the list for `b` |
| ShadowPiercer.ShadowAllSingle | packages/core/src/bridge/ShadowPiercer.ts:88-100 | one element contributes its tree's results when it hosts a shadow root, and nothing otherwise |
| ShadowPiercer.QueryAllDirectFirst | packages/core/src/bridge/ShadowPiercer.ts:79-102 | no direct result follows a shadow one, every matching element is listed, and every direct entry is an element of the root with the selector as its path |
| ShadowPiercer.ShadowSearchIsFirstOfAll | packages/core/src/bridge/ShadowPiercer.ts:32-45 | the shadow loop of `deepQuery` finds a result exactly when the host-by-host list is non-empty, and then its first entry |
| ShadowPiercer.Prefixed | packages/core/src/bridge/ShadowPiercer.ts:92-98 | each result from inside a host gets the host's step in front of its path and the shadow mark |
| ShadowPiercer.DirectMatchesFirst | packages/core/src/bridge/ShadowPiercer.ts:27-85 | the direct list is empty exactly when `querySelector` finds nothing, and starts with its result |
| ShadowPiercer.QueryIsFirstOfAll | packages/core/src/bridge/ShadowPiercer.ts:22-103 | outside iframes `deepQuery` returns exactly the first result of `deepQueryAll` |
| ShadowPiercer.ShadowRootAgrees | packages/core/src/bridge/ShadowPiercer.ts:22-103 | from a shadow root `deepQuery` finds something exactly when `deepQueryAll` lists something |
| ShadowPiercer.DirectMatchWins | packages/core/src/bridge/ShadowPiercer.ts:26-30 | a direct match wins over every shadow and iframe result |
| ShadowPiercer.UnreadableFramesSkipped | packages/core/src/bridge/ShadowPiercer.ts:50-67 | iframes without a readable document are skipped |
| ShadowPiercer.NothingFound | packages/core/src/bridge/ShadowPiercer.ts:22-71 | `deepQuery` returns null when nothing matches among the root's elements, in their shadow trees, or in the document of any loaded iframe |
| ShadowPiercer.NoFramesFromShadowRoot | packages/core/src/bridge/ShadowPiercer.ts:48 | a search from a shadow root never goes into an iframe |
| LocalOrchestrator.Create | packages/core/src/orchestration/LocalOrchestrator.ts:16-21 | a new orchestrator has no sendEvent |
| LocalOrchestrator.Connect | packages/core/src/orchestration/LocalOrchestrator.ts:23-25 | connect supplies sendEvent |
| LocalOrchestrator.Dispose | packages/core/src/orchestration/LocalOrchestrator.ts:57-59 | dispose drops sendEvent |
| LocalOrchestrator.Trigger | packages/core/src/orchestration/LocalOrchestrator.ts:27-36 | an event is sent exactly for journey.start while connected, and it is START_JOURNEY with the checkpoints or an empty queue |
| LocalOrchestrator.OnAgentEvent | packages/core/src/orchestration/LocalOrchestrator.ts:38-55 | one event triggers at most three callbacks |
| LocalOrchestrator.DisconnectedSendsNothing | packages/core/src/orchestration/LocalOrchestrator.ts:27-59 | before connect and after dispose no trigger reaches the machine |
| LocalOrchestrator.CallbacksIndependent | packages/core/src/orchestration/LocalOrchestrator.ts:38-55 | each callback fires exactly under its own condition, the checkpoint callback with the truthy current checkpoint |
| LocalOrchestrator.NavigationDoneArrives | packages/core/src/orchestration/LocalOrchestrator.ts:40-43 | a navigation done-event resolving true counts as arrival whatever prefix its type carries |
| NarrativeEngine.ResolvePersona | packages/core/src/bridge/NarrativeEngine.ts:32 | the persona is always non-empty |
| NarrativeEngine.GenerateNarrative | packages/core/src/bridge/NarrativeEngine.ts:27-63 | with a model the narrative is the model's reply to the persona and context, and a rejected model call rejects the narrative; without a model it always resolves, to the context itself when no endpoint is set |
| NarrativeEngine.GenerateAnswer | packages/core/src/bridge/NarrativeEngine.ts:68-105 | with a model the answer is the model's reply (or its rejection), the context defaulting to General Framework Knowledge; without a model it always resolves |
| NarrativeEngine.GenerateStream | packages/core/src/bridge/NarrativeEngine.ts:114-152 | with a model the model is asked about the persona and context, whether or not its call then rejects |
| NarrativeEngine.NarrativeFallback | packages/core/src/bridge/NarrativeEngine.ts:39-62 | without a model the narrative is the endpoint's non-empty ok reply, and the context text on every other path |
| NarrativeEngine.AnswerFallback | packages/core/src/bridge/NarrativeEngine.ts:81-104 | without a model, an ok endpoint reply is the answer, its body as it stands and empty when it has none; no endpoint, a thrown fetch or a failed response gives the template answer |
| NarrativeEngine.StreamPreference | packages/core/src/bridge/NarrativeEngine.ts:114-152 | each source is chosen exactly in its case: the model stream when a model is set and its call succeeds, a rejection when that call rejects or the fetch throws, the endpoint's body for an ok response with a body, and the mock chunks of the context otherwise |
| NarrativeEngine.LeadingRun | packages/core/src/bridge/NarrativeEngine.ts:159 | `.{1,5}` takes up to five characters, stopping at a line terminator |
| NarrativeEngine.MockChunks | packages/core/src/bridge/NarrativeEngine.ts:158-159 | every mock chunk has one to five characters and no line terminator |
| NarrativeEngine.MockChunksCover | packages/core/src/bridge/NarrativeEngine.ts:159 | the chunks concatenate to the text without its line terminators |
| NarrativeEngine.MockChunksFull | packages/core/src/bridge/NarrativeEngine.ts:159 | text without line terminators is cut into five-character chunks and a shorter last one, ⌈n/5⌉ in all |
| NarrativeEngine.MockChunksEmpty | packages/core/src/bridge/NarrativeEngine.ts:159 | empty text gives no chunks (`|| []`) |
| VoiceBridge.Create | packages/core/src/voice/WebSpeechVoiceBridge.ts:71-155 | a new bridge is neither listening, speaking nor muted and has no network errors |
| VoiceBridge.StartListeningOp | packages/core/src/voice/WebSpeechVoiceBridge.ts:173-185 | without a recognizer or while listening nothing happens; otherwise abort, start, listening on and reported |
| VoiceBridge.StopListeningOp | packages/core/src/voice/WebSpeechVoiceBridge.ts:187-193 | only a listening bridge with a recognizer stops, turns listening off and reports it |
| VoiceBridge.InterruptOp | packages/core/src/voice/WebSpeechVoiceBridge.ts:275-281 | speech stops and the current utterance is dropped, the synthesizer is cancelled when present, and nothing about recognition, muting or the pending utterances changes |
| VoiceBridge.SpeakOp | packages/core/src/voice/WebSpeechVoiceBridge.ts:203-273 | muted, synthesizer-less or empty speech does nothing; otherwise cancel first, speak last, and pause recognition when listening |
| VoiceBridge.ToggleMuteOp | packages/core/src/voice/WebSpeechVoiceBridge.ts:286-292 | the mute flag flips and is returned; muting interrupts speech, cancelling the synthesizer when present and leaving recognition and the pending utterances alone; unmuting changes nothing else |
| VoiceBridge.SetMutedOp | packages/core/src/voice/WebSpeechVoiceBridge.ts:295-300 | the mute flag takes the value; muting interrupts speech, cancelling the synthesizer when present and leaving recognition and the pending utterances alone; unmuting changes nothing else |
| VoiceBridge.OnRecognitionError | packages/core/src/voice/WebSpeechVoiceBridge.ts:134-152 | only a network error counts and stamps its time; an error other than no-speech and aborted is reported exactly while the count is at most 3; nothing about listening, capturing, the pause, restarts or speech changes |
| VoiceBridge.OnUtteranceError | packages/core/src/voice/WebSpeechVoiceBridge.ts:248-257 | the speech ends with SpeakEnd, one pending utterance fewer and the pause dropped, while listening, capturing, restarts and the network-error record stay as they were: recognition is not resumed |
| VoiceBridge.OnRecognitionEnd | packages/core/src/voice/WebSpeechVoiceBridge.ts:103-132 | the engines and the network-error count are kept; RecognitionEndBreaker states the three branches |
| VoiceBridge.OnRestartTimer | packages/core/src/voice/WebSpeechVoiceBridge.ts:120-122 | the engines and the network-error count are kept; DeferredRestartIsNoOp states what the restart does |
| VoiceBridge.OnUtteranceEnd | packages/core/src/voice/WebSpeechVoiceBridge.ts:235-246 | the engines and the network-error count are kept; ResumeAfterSpeechIsNoOp states what the resume does |
| VoiceBridge.DisposeOp | packages/core/src/voice/WebSpeechVoiceBridge.ts:303-306 | stops a listening recognizer (RecognitionStop, ListeningChange(false), capture ends) and then cancels the synthesizer when present; speech stops, muting, the pause and the pending utterances are kept |
| VoiceBridge.Step | packages/core/src/voice/WebSpeechVoiceBridge.ts:71-306 | no operation changes which engines exist or lowers the network-error count |
| VoiceBridge.Run | packages/core/src/voice/WebSpeechVoiceBridge.ts:71-306 | over any sequence of calls and callbacks the engines stay the same and the network-error count never goes down |
| VoiceBridge.RecognitionEndBreaker | packages/core/src/voice/WebSpeechVoiceBridge.ts:103-132 | on recognition end a tripped breaker turns listening off, the backoff window defers a restart, and otherwise recognition restarts at once |
| VoiceBridge.BreakerStaysTripped | packages/core/src/voice/WebSpeechVoiceBridge.ts:139-141 | nothing resets the network-error count, so the breaker stays tripped |
| VoiceBridge.ErrorReporting | packages/core/src/voice/WebSpeechVoiceBridge.ts:134-152 | no-speech and aborted are ignored, network errors are stamped and counted, and reports stop after the third |
| VoiceBridge.SpeakPausesRecognition | packages/core/src/voice/WebSpeechVoiceBridge.ts:261-265 | speaking while listening stops the recognizer and sets the pause while listening still reads true |
| VoiceBridge.SpeakEarlyExit | packages/core/src/voice/WebSpeechVoiceBridge.ts:204 | muted, synthesizer-less or empty speech changes nothing |
| VoiceBridge.MutedStaysSilent | packages/core/src/voice/WebSpeechVoiceBridge.ts:204-292 | after muting nothing is spoken, and later speech is silent |
| VoiceBridge.DeferredRestartIsNoOp | packages/core/src/voice/WebSpeechVoiceBridge.ts:120-174 | the deferred restart calls startListening while still listening, so the recognizer is not started |
| VoiceBridge.ResumeAfterSpeechIsNoOp | packages/core/src/voice/WebSpeechVoiceBridge.ts:174-244 | the resume after speech likewise does not start the recognizer |
| VoiceBridge.SpeechEndsRecognition | packages/core/src/voice/WebSpeechVoiceBridge.ts:103-273 | one utterance while listening leaves the bridge reporting listening with the recognizer stopped for good |
| VoiceBridge.NetworkErrorEndsRecognition | packages/core/src/voice/WebSpeechVoiceBridge.ts:117-152 | a network error inside the backoff leaves the recognizer stopped even after the deferred restart |
| VoiceBridge.SpeechErrorEndsRecognition | packages/core/src/voice/WebSpeechVoiceBridge.ts:248-257 | as written, speaking, interrupting and the resulting `interrupted` error leave the bridge reporting that it listens with the recognizer idle, breaking Coherent |
| VoiceBridge.IntendedResumesAfterSpeech | packages/core/src/voice/WebSpeechVoiceBridge.ts:240-244 | with the correction the end of speech restarts the recognizer |
| VoiceBridge.IntendedRestartsAfterBackoff | packages/core/src/voice/WebSpeechVoiceBridge.ts:117-124 | with the correction the deferred restart starts the recognizer |
| VoiceBridge.IntendedSpeechResumes | packages/core/src/voice/WebSpeechVoiceBridge.ts:240-244 | with the correction the speech run of SpeechEndsRecognition ends listening and capturing |
| VoiceBridge.IntendedRestartAfterNetworkError | packages/core/src/voice/WebSpeechVoiceBridge.ts:117-124 | with the correction the network-error run ends listening and capturing |
| VoiceBridge.StepIntended | packages/core/src/voice/WebSpeechVoiceBridge.ts:117-257 | the corrected step keeps the engines and does not lower the network-error count |
| VoiceBridge.ResumeIntended | packages/core/src/voice/WebSpeechVoiceBridge.ts:235-257 | the end or failure of an utterance that paused recognition drops the pause, reports the end of speech first, and leaves a bridge with a recognizer listening and capturing |
| VoiceBridge.RunIntended | packages/core/src/voice/WebSpeechVoiceBridge.ts:71-306 | the corrected bridge over any run keeps its engines and never lowers the network-error count |
| VoiceBridge.CreateCoherent | packages/core/src/voice/WebSpeechVoiceBridge.ts:71-155 | a new bridge is coherent |
| VoiceBridge.StepIntendedCoherent | packages/core/src/voice/WebSpeechVoiceBridge.ts:103-281 | every corrected step keeps the bridge coherent: it listens only with a recognizer, and captures whenever it listens unpaused with no restart pending |
| VoiceBridge.RunIntendedCoherent | packages/core/src/voice/WebSpeechVoiceBridge.ts:103-281 | over any sequence of calls and callbacks the corrected bridge stays coherent |
| VoiceBridge.IntendedSpeechErrorResumes | packages/core/src/voice/WebSpeechVoiceBridge.ts:248-257 | with the correction the cancelled-utterance run ends listening and capturing |
| BridgeOrchestrator.Create | packages/core/src/bridge/BridgeOrchestrator.ts:37-61 | a new orchestrator has an empty log, a full retry budget, an arbiter with the agent, no connection and no avatar, and threshold `interruptionThreshold ?? 50` |
| BridgeOrchestrator.Connect | packages/core/src/bridge/BridgeOrchestrator.ts:67-69 | connect supplies sendEvent and changes nothing else |
| BridgeOrchestrator.SetAvatarContainer | packages/core/src/bridge/BridgeOrchestrator.ts:74-76 | the container is registered or cleared, nothing else changes |
| BridgeOrchestrator.RecordEach | packages/core/src/bridge/BridgeOrchestrator.ts:100-147 | recording several drafts keeps the 500 newest entries of the log extended by them |
| BridgeOrchestrator.FoundDrafts | packages/core/src/bridge/BridgeOrchestrator.ts:101-144 | a found target logs the scroll, then the piercing exactly when it was pierced, a correction exactly when applied, and no error |
| BridgeOrchestrator.NotFoundDrafts | packages/core/src/bridge/BridgeOrchestrator.ts:101-128 | a target not found logs the scroll and element_not_found, nothing else |
| BridgeOrchestrator.ScrollCore | packages/core/src/bridge/BridgeOrchestrator.ts:100-147 | piercing is logged exactly when only the deep lookup finds the target, an error exactly when nothing does; otherwise the result and the retry count are the verification's and a correction is logged exactly when applied |
| BridgeOrchestrator.ScrollToTarget | packages/core/src/bridge/BridgeOrchestrator.ts:100-147 | as written, a target that `getElementById` misses is never reported as reached, whether or not the deep query finds it |
| BridgeOrchestrator.ScrollToTargetIntended | packages/core/src/bridge/BridgeOrchestrator.ts:100-147 | verifying the element found: a pierced target's result is the verification of the pierced element, and a direct hit behaves as written |
| BridgeOrchestrator.DirectHitInView | packages/core/src/bridge/BridgeOrchestrator.ts:100-147 | a directly found target already in view succeeds, resets the retry count and logs only the scroll |
| BridgeOrchestrator.TargetNotFound | packages/core/src/bridge/BridgeOrchestrator.ts:121-128 | a target neither lookup finds fails with one error entry and no verification |
| BridgeOrchestrator.PiercedTargetReportsFailure | packages/core/src/bridge/BridgeOrchestrator.ts:108-146 | as written, a target only the shadow piercer finds is reported as a failure |
| BridgeOrchestrator.PiercedTargetSearches | packages/core/src/bridge/BridgeOrchestrator.ts:137-146 | as written, the machine enters searching for every pierced target |
| BridgeOrchestrator.IntendedPiercedTargetVerifies | packages/core/src/bridge/BridgeOrchestrator.ts:108-137 | verifying the pierced element, a pierced target in view succeeds |
| BridgeOrchestrator.IntendedAgreesOtherwise | packages/core/src/bridge/BridgeOrchestrator.ts:100-147 | the correction changes nothing for targets found directly or not at all |
| BridgeOrchestrator.NarrativeForCheckpoint | packages/core/src/bridge/BridgeOrchestrator.ts:205-215 | the narrative is the fallback or the sanitized attribute |
| BridgeOrchestrator.NarrativeSource | packages/core/src/bridge/BridgeOrchestrator.ts:205-215 | the fallback appears exactly when the attribute is unreadable or empty; otherwise the attribute is returned filtered, and unchanged when it holds no digit and no `@` |
| BridgeOrchestrator.FlyAvatarTo | packages/core/src/bridge/BridgeOrchestrator.ts:152-181 | without target or container nothing happens; otherwise the flight is logged, and control returns to the agent only when the tween completes: a flight killed by `killAllAnimations` leaves the arbiter as it was |
| BridgeOrchestrator.FlightRestoresTakeover | packages/core/src/bridge/BridgeOrchestrator.ts:175-177 | after a completed flight the next click takes over again |
| BridgeOrchestrator.KilledFlightKeepsUserControl | packages/core/src/bridge/BridgeOrchestrator.ts:170-178 | a flight killed while the user has control leaves the user in control, so a click signals nothing |
| BridgeOrchestrator.RetreatAvatar | packages/core/src/bridge/BridgeOrchestrator.ts:186-200 | without a container nothing happens; otherwise only the retreat is logged |
| BridgeOrchestrator.KillAllAnimations | packages/core/src/bridge/BridgeOrchestrator.ts:220-226 | the kill is always logged and nothing else changes |
| BridgeOrchestrator.InterruptionEntryLog | packages/core/src/bridge/BridgeOrchestrator.ts:186-226 | entering interrupted logs the kill, then the retreat exactly when a container is registered |
| BridgeOrchestrator.GetFlightLog | packages/core/src/bridge/BridgeOrchestrator.ts:242-244 | the flight log is the recorder's export |
| BridgeOrchestrator.StaticNarrative | packages/core/src/bridge/BridgeOrchestrator.ts:232-233 | the stream's context is the raw attribute or the fallback |
| BridgeOrchestrator.StreamNarrative | packages/core/src/bridge/BridgeOrchestrator.ts:231-237 | with a model, the model is asked about the unfiltered attribute, whether or not its call then rejects |
| BridgeOrchestrator.StreamNarrativeLeaks | packages/core/src/bridge/BridgeOrchestrator.ts:214-237 | as written, a card number in the attribute reaches the model unredacted, while the narrative lookup redacts it |
| BridgeOrchestrator.StreamNarrativeIntended | packages/core/src/bridge/BridgeOrchestrator.ts:205-237 | the corrected stream asks the model about the sanitized narrative |
| BridgeOrchestrator.IntendedStreamSanitized | packages/core/src/bridge/BridgeOrchestrator.ts:205-237 | with the correction both the model and the mock stream see only the sanitized attribute or the fallback |
| BridgeOrchestrator.IntendedStreamRedactsCard | packages/core/src/bridge/BridgeOrchestrator.ts:214-236 | with the correction the card line reaches the model redacted |
| BridgeOrchestrator.IntendedAgreesOnCleanText | packages/core/src/bridge/BridgeOrchestrator.ts:231-237 | for attributes with no digit and no `@` the correction sends exactly what the code sends |
| BridgeOrchestrator.StartMonitoring | packages/core/src/bridge/BridgeOrchestrator.ts:81-84 | starting monitoring attaches one more handler triple and logs monitoring_started |
| BridgeOrchestrator.StopMonitoring | packages/core/src/bridge/BridgeOrchestrator.ts:89-92 | stopping removes every handler and the idle timer and resets the retry budget, keeping the log and control state |
| BridgeOrchestrator.StopSilences | packages/core/src/bridge/BridgeOrchestrator.ts:89-92 | after stopping, window input has no effect and the next target has a full retry budget |
| BridgeOrchestrator.OnSignals | packages/core/src/bridge/BridgeOrchestrator.ts:52-60 | each signal records its entry and, when connected, sends USER_INTERRUPT or USER_RESUME in order |
| BridgeOrchestrator.SignalEvent | packages/core/src/bridge/BridgeOrchestrator.ts:52-60 | the definition of the event sent for a signal: USER_INTERRUPT for a takeover, USER_RESUME for idleness (no contract of its own; the OnSignals row states its use) |
| BridgeOrchestrator.ArbiterEvent | packages/core/src/bridge/BridgeOrchestrator.ts:49-61 | before connect the arbiter's callbacks send nothing |
| BridgeOrchestrator.DisconnectedSendsNothing | packages/core/src/bridge/BridgeOrchestrator.ts:54-59 | before connect the callbacks only record |
| BridgeOrchestrator.FastScrollInterruptsNarration | packages/core/src/bridge/BridgeOrchestrator.ts:52-55 | a fast scroll during narration takes over, logs the interruption and moves the machine to interrupted |
| BridgeOrchestrator.IdleResumesJourney | packages/core/src/bridge/BridgeOrchestrator.ts:56-60 | the idle timer after a takeover resumes the journey at the interrupted checkpoint |

## Left out

- Console logging, the `process.env.NODE_ENV` check and the warnings: they have no effect on state.
- XState timer durations (300, 800 and 2000 ms), the 800 ms settle wait and the 600 ms `waitForIdle`: timers are events, and the DOM is taken as unchanged during a wait.
- The idle timeout value (`idleTimeoutMs ?? 3000`): the timer's firing is an event.
- The 50 ms latency of the mock stream.
- `REHYDRATE_STATE` (agentMachine.test.ts:26-35): no machine defines that event, so the machine ignores it, as every unhandled event is ignored in the model.
- The `context` argument of the local orchestrator's callbacks: callbacks are identified by kind and their own arguments.
- The shape of the XState snapshot objects and the actor API.
- HeadlessBridge's `flyAvatarTo`, `retreatAvatar`, `killAllAnimations`, `startMonitoring` and `stopMonitoring`: they only log. In a headless journey the machine's effects carry no state.
- ShadowPiercer `getPiercedRect` (ShadowPiercer.ts:109-134): rectangle arithmetic on floating-point DOM geometry.
- Floating-point arithmetic:
  - Scroll velocity `(dy / dt) * 100 > threshold` is compared exactly over the rationals, as `dy * 100 > threshold * dt` with `dt > 0`. This differs from IEEE rounding only at the boundary.
  - Rectangles are integer pixels.
- Avatar coordinates: the `x` and `y` of the avatar_fly entry, and the GSAP tweens.
- The prompt texts sent to the model, the `ai` SDK calls, `ReadableStream` and `TextDecoderStream` mechanics. The model's and the endpoint's replies are inputs.
- Voice bridge:
  - The `onresult` transcript handler, the `setErrorHandler`, `setTranscriptHandler` and `setListeningChangeHandler` setters, and whether an optional callback is configured: every callback call is an output.
  - Voice selection, rate, pitch and language; `onvoiceschanged`; the `synth.paused` resume.
  - A `start()` that throws inside `startListening`.
- `Lower` lower-cases ASCII letters only, where `toLowerCase` handles all of Unicode. Tag names are ASCII.
- ShouldExclude: the ancestor half of `el.closest('[data-agent-ignore]')` is the `insideIgnored` flag, because the element tree holds no parent links.
- IngestionManager, ContextObserver and the React components are not part of this model.
- The random session id and `Date.now()` are parameters. Each orchestrator call takes one timestamp for all the entries it records.
- AgentMachine.Step, VoiceBridge.OnRecognitionEnd, VoiceBridge.OnRestartTimer, VoiceBridge.OnUtteranceEnd and HeadlessBridge.HeadlessStep: their own contracts state only the invariant they keep. Their behaviour is stated by the lemmas in the table.
- FlightRecorder.Errors: its own contract states only that every entry is an error. That nothing else is dropped is FilterErrorsAppend and ErrorsAfterRecord.
- ShadowPiercer.DeepQuery: its own contract states where results can come from. Which result wins is DirectMatchWins, QueryIsFirstOfAll and ShadowSearchIsFirstOfAll.
- BridgeOrchestrator.ScrollCore, BridgeOrchestrator.ScrollToTarget: one call is atomic, and its entries share one timestamp. In the source, the 800 ms settle wait and `waitForIdle` are await points (BridgeOrchestrator.ts:131-137). Other code can run there: the avatar flight started alongside it (agentMachine.ts:81-84), arbiter callbacks, and `stopMonitoring`. So entries such as avatar_fly or user_interrupt can land between scroll_to_target and the later entries, and the retry count can be reset mid-call. The model does not interleave them.
- HeadlessBridge.HeadlessJourneyCompletes, HeadlessBridge.TourFromPathfinding: HeadlessBridge declares no `recorder`, so the machine's `START_JOURNEY` action (agentMachine.ts:57) would fail on it; the model passes a recorder alongside the bridge. Nothing in the headless bridge sends `NARRATION_COMPLETE` (only the visual bridge does, VisualBridge.tsx:38-46), so these journeys assume an outside driver sends it after each narration.
- NarrativeEngine.MockChunks, NarrativeEngine.MockChunksFull, NarrativeEngine.LeadingRun: a Dafny string is a sequence of code points, while the source's `/.{1,5}/g` without the `u` flag counts UTF-16 code units, so text outside the Basic Multilingual Plane (an emoji such as "😀😀😀") is split differently; chunk texts agree for text inside it.
- BridgeOrchestrator.ScrollToTarget, BridgeOrchestrator.ScrollCore, ShadowPiercer.DeepQuery: `querySelector('#' + id)` throws a `SyntaxError` for an id that is not a valid CSS identifier (one starting with a digit, such as "1-intro"); the model looks ids up as given and does not model that exception or the `navigation_failed` it would lead to.
- NarrativeEngine.GenerateStream, NarrativeEngine.StreamPreference: a model stream or an endpoint body that fails while it is being read is not modelled; only the calls that reject before the stream is returned are.
- The error count is not bounded by the retry limit: only the searching guard reads it, and it keeps growing by one per failed navigation across checkpoints (AgentMachine.ErrorCountPastMax, AgentMachine.TwoFailingCheckpoints).

## Findings

| source | as written | input that shows it | evidently intended | confidence | as-written member | corrected member |
|---|---|---|---|---|---|---|
| packages/core/src/voice/WebSpeechVoiceBridge.ts:117-257 | the deferred backoff restart and the resume after an utterance ends call `startListening()`, which returns at once because `_isListening` is still true; an utterance that fails drops the pause without restarting anything | a listening bridge speaks "hi": recognition stops and `onend` sees the pause; the utterance ends and `startListening()` returns early. Or the same, interrupted, whose cancelled utterance fails with `interrupted`. Or a `network` error, then `onend` inside the 5 s window, then the deferred timer | restart the recognizer directly (`recognition.start()`), so the bridge stays coherent: when it reports listening, is not paused for speech and has no restart pending, it is capturing | not executed | VoiceBridge.SpeechEndsRecognition, VoiceBridge.SpeechErrorEndsRecognition, VoiceBridge.NetworkErrorEndsRecognition | VoiceBridge.RunIntendedCoherent, VoiceBridge.IntendedSpeechResumes, VoiceBridge.IntendedSpeechErrorResumes, VoiceBridge.IntendedRestartAfterNetworkError |
| packages/core/src/bridge/BridgeOrchestrator.ts:108-119,137 | a target found only by `deepQuery` inside a shadow root is verified by `verifyTargetInView(checkpointId)`, which looks it up again with `getElementById` and cannot see it | a checkpoint element inside an open shadow root: `scrollToTarget` logs shadow_pierced, then reports `false`, and the machine enters searching | verify the element actually found | not executed | BridgeOrchestrator.PiercedTargetReportsFailure | BridgeOrchestrator.IntendedPiercedTargetVerifies |
| packages/core/src/bridge/BridgeOrchestrator.ts:231-236 | `streamNarrative` passes the raw `data-agent-narrative` attribute to the narrative engine, while `getNarrativeForCheckpoint` (line 214) passes it through the PII filter | attribute "Card: 4111111111111111" with a model configured: the model is asked about the card number | sanitize the attribute before it reaches the model, as the sanitizer's purpose states | not executed | BridgeOrchestrator.StreamNarrativeLeaks | BridgeOrchestrator.IntendedStreamSanitized |
