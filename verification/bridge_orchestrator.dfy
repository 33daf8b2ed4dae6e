/** The bridge orchestrator: the service that connects the recorder, the self-corrector, the
    shadow piercer, the sanitizer and the interruption arbiter to the journey machine. Only its
    decision and telemetry logic is modelled: DOM lookups, rectangle checks and the animation's
    completion are inputs, and the clock is one timestamp per call. */
module BridgeOrchestrator {
  import opened Common
  import FR = FlightRecorder
  import SC = SelfCorrector
  import IM = InterruptionManager
  import SP = ShadowPiercer
  import PII = PIISanitizer
  import PIIExamples
  import AM = AgentMachine
  import NE = NarrativeEngine

  /** `interruptionThreshold ?? 50` */
  const DefaultThreshold: int := 50

  const NarrativeFallback: string := "Let me tell you about this section..."
  const NarrativeAttribute: string := "data-agent-narrative"

  /** The orchestrator's state: its subsystems, whether `connect` has supplied `sendEvent`,
      whether an avatar container is registered, and the arbiter's velocity threshold. */
  datatype Bridge = Bridge(
    recorder: FR.Recorder,
    corrector: SC.Corrector,
    arbiter: IM.Arbiter,
    connected: bool,
    hasAvatar: bool,
    threshold: int)

  predicate Valid(b: Bridge) {
    FR.Valid(b.recorder) && SC.Valid(b.corrector)
  }

  function Create(sessionId: string, interruptionThreshold: Option<int>): (b: Bridge)
    ensures Valid(b) && b.recorder.log == [] && b.recorder.sessionId == sessionId
    ensures b.corrector.retryCount == 0 && b.arbiter == IM.Create()
    ensures !b.connected && !b.hasAvatar
    ensures b.threshold == (if interruptionThreshold.Some? then interruptionThreshold.value else 50)
  {
    Bridge(FR.Create(sessionId), SC.Create(), IM.Create(), false, false, interruptionThreshold.GetOr(DefaultThreshold))
  }

  function Connect(b: Bridge): (b': Bridge)
    ensures b'.connected && b' == b.(connected := true)
  {
    b.(connected := true)
  }

  function SetAvatarContainer(b: Bridge, present: bool): (b': Bridge)
    ensures b'.hasAvatar == present && b' == b.(hasAvatar := present)
  {
    b.(hasAvatar := present)
  }

  /** Records the drafts in order, all at time `now`. */
  function RecordEach(r: FR.Recorder, drafts: seq<FR.Draft>, now: int): (r': FR.Recorder)
    requires FR.Valid(r)
    ensures FR.Valid(r') && r'.sessionId == r.sessionId
    ensures r'.log == FR.Newest(r.log + FR.Stamp(drafts, seq(|drafts|, _ => now)))
  {
    FR.RecordAllKeepsNewest(r, drafts, seq(|drafts|, _ => now));
    FR.RecordAll(r, drafts, seq(|drafts|, _ => now))
  }

  // ---------------------------------------------------------------------------
  // Telemetry drafts

  function Action(target: Option<string>, action: string): FR.Draft {
    FR.Draft(FR.BridgeAction, None, None, target, map["action" := FR.Text(action)])
  }

  function ShadowPiercedDraft(id: string, path: seq<string>): FR.Draft {
    FR.Draft(FR.BridgeAction, None, None, Some(id), map["action" := FR.Text("shadow_pierced"), "path" := FR.Path(path)])
  }

  function NotFoundDraft(id: string): FR.Draft {
    FR.WithReason(FR.Error, Some(id), "element_not_found")
  }

  function SelfCorrectDraft(id: string): FR.Draft {
    FR.Draft(FR.SelfCorrect, None, None, Some(id), map["verification" := FR.Opaque])
  }

  predicate IsShadowPierced(d: FR.Draft) {
    d.kind == FR.BridgeAction && "action" in d.metadata && d.metadata["action"] == FR.Text("shadow_pierced")
  }

  predicate IsSelfCorrect(d: FR.Draft) {
    d.kind == FR.SelfCorrect
  }

  predicate IsError(d: FR.Draft) {
    d.kind == FR.Error
  }

  predicate AnyShadowPierced(ds: seq<FR.Draft>) {
    exists k :: 0 <= k < |ds| && IsShadowPierced(ds[k])
  }

  predicate AnySelfCorrect(ds: seq<FR.Draft>) {
    exists k :: 0 <= k < |ds| && IsSelfCorrect(ds[k])
  }

  predicate AnyError(ds: seq<FR.Draft>) {
    exists k :: 0 <= k < |ds| && IsError(ds[k])
  }

  // ---------------------------------------------------------------------------
  // scrollToTarget

  datatype ScrollOutcome = ScrollOutcome(bridge: Bridge, drafts: seq<FR.Draft>, ok: bool)

  /** The entries a found target leaves: the scroll action, the piercing when the deep lookup
      found it, and the correction when one was applied. */
  function FoundDrafts(id: string, piercedPath: Option<seq<string>>, corrected: bool): (ds: seq<FR.Draft>)
    ensures |ds| >= 1 && ds[0] == Action(Some(id), "scroll_to_target")
    ensures AnyShadowPierced(ds) <==> piercedPath.Some?
    ensures piercedPath.Some? ==> ds[1] == ShadowPiercedDraft(id, piercedPath.value)
    ensures AnySelfCorrect(ds) <==> corrected
    ensures !AnyError(ds)
  {
    var start := [Action(Some(id), "scroll_to_target")];
    var deep := if piercedPath.Some? then [ShadowPiercedDraft(id, piercedPath.value)] else [];
    var fix := if corrected then [SelfCorrectDraft(id)] else [];
    var ds := start + deep + fix;
    assert piercedPath.Some? ==> IsShadowPierced(ds[1]);
    assert corrected ==> IsSelfCorrect(ds[|ds| - 1]);
    assert forall k :: 0 <= k < |ds| ==> ds[k] in start || ds[k] in deep || ds[k] in fix;
    ds
  }

  /** The entries a target no lookup finds leaves. */
  function NotFoundDrafts(id: string): (ds: seq<FR.Draft>)
    ensures |ds| == 2 && ds[0] == Action(Some(id), "scroll_to_target") && ds[1] == NotFoundDraft(id)
    ensures !AnyShadowPierced(ds) && !AnySelfCorrect(ds) && AnyError(ds)
  {
    var ds := [Action(Some(id), "scroll_to_target"), NotFoundDraft(id)];
    assert IsError(ds[1]);
    ds
  }

  /** The `scrollToTarget` flow, with the element the verification looks at as a parameter.
      `direct` is what `getElementById(id)` sees, `pierced` the `deepQuery('#' + id)` result,
      and `verifyObs` what the self-corrector's checks see. */
  function ScrollCore(b: Bridge, id: string, direct: SC.Observation, pierced: Option<SP.Pierced>,
                      verifyObs: SC.Observation, innerHeight: int, now: int): (res: ScrollOutcome)
    requires Valid(b)
    ensures Valid(res.bridge)
    ensures res.bridge == b.(recorder := res.bridge.recorder, corrector := res.bridge.corrector)
    ensures res.bridge.recorder == RecordEach(b.recorder, res.drafts, now)
    ensures |res.drafts| >= 1 && res.drafts[0] == Action(Some(id), "scroll_to_target")
    ensures AnyShadowPierced(res.drafts) <==> direct.Missing? && pierced.Some?
    ensures direct.Missing? && pierced.Some? ==> res.drafts[1] == ShadowPiercedDraft(id, pierced.value.path)
    ensures AnyError(res.drafts) <==> direct.Missing? && pierced.None?
    ensures direct.Missing? && pierced.None? ==>
      !res.ok && res.bridge.corrector == b.corrector && res.drafts == NotFoundDrafts(id)
    ensures !(direct.Missing? && pierced.None?) ==>
      var (c', v) := SC.VerifyTargetInView(b.corrector, id, verifyObs, innerHeight);
      && res.ok == v.success && res.bridge.corrector == c'
      && (AnySelfCorrect(res.drafts) <==> v.correctionApplied)
  {
    if direct.Missing? && pierced.None? then
      var drafts := NotFoundDrafts(id);
      ScrollOutcome(b.(recorder := RecordEach(b.recorder, drafts, now)), drafts, false)
    else
      var (c', v) := SC.VerifyTargetInView(b.corrector, id, verifyObs, innerHeight);
      var drafts := FoundDrafts(id, if direct.Missing? then Some(pierced.value.path) else None, v.correctionApplied);
      ScrollOutcome(b.(recorder := RecordEach(b.recorder, drafts, now), corrector := c'), drafts, v.success)
  }

  /** `scrollToTarget(checkpointId)` as written: the self-corrector looks the target up again
      with `getElementById`, so it sees the same thing as the direct lookup. */
  function ScrollToTarget(b: Bridge, id: string, direct: SC.Observation, pierced: Option<SP.Pierced>,
                          innerHeight: int, now: int): (res: ScrollOutcome)
    requires Valid(b)
    ensures Valid(res.bridge)
    ensures direct.Missing? ==> !res.ok
  {
    ScrollCore(b, id, direct, pierced, direct, innerHeight, now)
  }

  /** `scrollToTarget` verifying the element it actually found: the direct hit, or else the
      pierced element, whose checks `piercedView` gives. */
  function ScrollToTargetIntended(b: Bridge, id: string, direct: SC.Observation, pierced: Option<SP.Pierced>,
                                  piercedView: SC.Observation, innerHeight: int, now: int): (res: ScrollOutcome)
    requires Valid(b)
    ensures Valid(res.bridge)
    ensures direct.Missing? && pierced.Some? ==>
      res.ok == SC.VerifyTargetInView(b.corrector, id, piercedView, innerHeight).1.success
    ensures direct.Present? ==> res == ScrollToTarget(b, id, direct, pierced, innerHeight, now)
  {
    ScrollCore(b, id, direct, pierced, if direct.Present? then direct else piercedView, innerHeight, now)
  }

  /** A target found directly that is already in view: success, the retry count reset, and
      exactly the one scroll entry recorded besides nothing else. */
  lemma DirectHitInView(b: Bridge, id: string, before: SC.Rect, after: SC.Rect, pierced: Option<SP.Pierced>,
                        innerHeight: int, now: int)
    requires Valid(b) && SC.InView(before, innerHeight)
    ensures var res := ScrollToTarget(b, id, SC.Present(before, after), pierced, innerHeight, now);
      && res.ok && res.bridge.corrector.retryCount == 0
      && res.drafts == [Action(Some(id), "scroll_to_target")] + []
  {
    var res := ScrollToTarget(b, id, SC.Present(before, after), pierced, innerHeight, now);
    assert !AnySelfCorrect(res.drafts);
    assert res.drafts == [Action(Some(id), "scroll_to_target")] + [] + [];
  }

  /** A target that neither lookup finds: one error entry, a false result and no verification. */
  lemma TargetNotFound(b: Bridge, id: string, innerHeight: int, now: int)
    requires Valid(b)
    ensures var res := ScrollToTarget(b, id, SC.Missing, None, innerHeight, now);
      && !res.ok
      && res.drafts == [Action(Some(id), "scroll_to_target"), NotFoundDraft(id)]
      && res.bridge.corrector == b.corrector
  {
  }

  /** As written, a target that only the shadow piercer finds is reported as a failure: the
      verification looks it up again with `getElementById`, which cannot see into a shadow
      root, so the element is missing, nothing is corrected and the retry count is kept. */
  lemma PiercedTargetReportsFailure(b: Bridge, id: string, p: SP.Pierced, innerHeight: int, now: int)
    requires Valid(b)
    ensures var res := ScrollToTarget(b, id, SC.Missing, Some(p), innerHeight, now);
      && !res.ok
      && res.drafts == [Action(Some(id), "scroll_to_target"), ShadowPiercedDraft(id, p.path)]
      && res.bridge.corrector == b.corrector
  {
    var res := ScrollToTarget(b, id, SC.Missing, Some(p), innerHeight, now);
    assert res.drafts == [Action(Some(id), "scroll_to_target"), ShadowPiercedDraft(id, p.path)] + [];
  }

  /** Consequently the journey machine treats every pierced target as a failed navigation and
      enters searching. */
  lemma PiercedTargetSearches(b: Bridge, id: string, p: SP.Pierced, innerHeight: int, now: int,
                              s: AM.Snapshot, narrativeFor: string -> string)
    requires Valid(b) && s.state == AM.Navigating
    ensures var res := ScrollToTarget(b, id, SC.Missing, Some(p), innerHeight, now);
      AM.Step(s, AM.NavDone(res.ok), narrativeFor).snap.state == AM.Searching
  {
    var ok := ScrollToTarget(b, id, SC.Missing, Some(p), innerHeight, now).ok;
    assert !ok by {
      PiercedTargetReportsFailure(b, id, p, innerHeight, now);
    }
    AM.NavigationOutcome(s, AM.NavDone(ok), narrativeFor);
  }

  /** With the pierced element verified, a pierced target that is in view succeeds. */
  lemma IntendedPiercedTargetVerifies(b: Bridge, id: string, p: SP.Pierced, before: SC.Rect, after: SC.Rect,
                                      innerHeight: int, now: int)
    requires Valid(b) && SC.InView(before, innerHeight)
    ensures var res := ScrollToTargetIntended(b, id, SC.Missing, Some(p), SC.Present(before, after), innerHeight, now);
      && res.ok && res.bridge.corrector.retryCount == 0
      && res.drafts[1] == ShadowPiercedDraft(id, p.path)
  {
  }

  /** The correction changes nothing for targets the direct lookup finds or nobody finds. */
  lemma IntendedAgreesOtherwise(b: Bridge, id: string, direct: SC.Observation, pierced: Option<SP.Pierced>,
                                piercedView: SC.Observation, innerHeight: int, now: int)
    requires Valid(b) && (direct.Present? || pierced.None?)
    ensures ScrollToTargetIntended(b, id, direct, pierced, piercedView, innerHeight, now)
         == ScrollToTarget(b, id, direct, pierced, innerHeight, now)
  {
  }

  // ---------------------------------------------------------------------------
  // getNarrativeForCheckpoint

  /** `getNarrativeForCheckpoint(id)`; `element` is the attribute map of the element
      `getElementById` finds, and `hasDocument` whether a document exists at all. */
  function NarrativeForCheckpoint(hasDocument: bool, element: Option<map<string, string>>): (n: string)
    ensures n == NarrativeFallback
         || (element.Some? && NarrativeAttribute in element.value && n == PII.SanitizeText(element.value[NarrativeAttribute]))
  {
    if !hasDocument || element.None? || NarrativeAttribute !in element.value
       || !Truthy(element.value[NarrativeAttribute])
    then NarrativeFallback
    else PII.SanitizeText(element.value[NarrativeAttribute])
  }

  /** The fallback appears exactly when the attribute cannot be read or is empty; otherwise the
      attribute is returned through the PII filter, and unchanged when it holds no digit and
      no `@`. */
  lemma NarrativeSource(hasDocument: bool, element: Option<map<string, string>>)
    ensures var n := NarrativeForCheckpoint(hasDocument, element);
      var readable := hasDocument && element.Some? && NarrativeAttribute in element.value
                      && element.value[NarrativeAttribute] != "";
      && (!readable ==> n == NarrativeFallback)
      && (readable ==> n == PII.SanitizeText(element.value[NarrativeAttribute]))
      && ((readable && !PII.HasDigit(element.value[NarrativeAttribute]) && '@' !in element.value[NarrativeAttribute])
            ==> n == element.value[NarrativeAttribute])
  {
    if hasDocument && element.Some? && NarrativeAttribute in element.value {
      var attr := element.value[NarrativeAttribute];
      if !PII.HasDigit(attr) && '@' !in attr {
        PII.SanitizeTextIdentity(attr);
      }
    }
  }

  // ---------------------------------------------------------------------------
  // Avatar and monitoring

  /** `flyAvatarTo(id)` up to the promise's resolution; `targetFound` says whether
      `getElementById` finds the target, and `completed` whether the tween runs to its end
      rather than being killed by `killAllAnimations`. The flight is logged as soon as it
      starts; only the tween's completion hands control back to the agent, so a killed flight
      leaves the arbiter as it was (and its promise never resolves). Coordinates are not
      modelled. */
  function FlyAvatarTo(b: Bridge, id: string, targetFound: bool, completed: bool, now: int): (b': Bridge)
    requires Valid(b)
    ensures Valid(b')
    ensures !targetFound || !b.hasAvatar ==> b' == b
    ensures targetFound && b.hasAvatar ==>
      && |b'.recorder.log| > 0
      && b'.recorder.log[|b'.recorder.log| - 1].draft.metadata == map["action" := FR.Text("avatar_fly"), "x" := FR.Opaque, "y" := FR.Opaque]
      && b' == b.(recorder := b'.recorder, arbiter := b'.arbiter)
      && b'.arbiter == (if completed then b.arbiter.(state := IM.AgentControl) else b.arbiter)
  {
    if !targetFound || !b.hasAvatar then b
    else
      var fly := FR.Draft(FR.BridgeAction, None, None, Some(id),
                          map["action" := FR.Text("avatar_fly"), "x" := FR.Opaque, "y" := FR.Opaque]);
      var r := FR.Record(b.recorder, fly, now);
      b.(recorder := r, arbiter := if completed then IM.Step(b.arbiter, IM.ReturnToAgent, b.threshold).0 else b.arbiter)
  }

  /** A completed flight ends any user control: after it the arbiter is with the agent, so the
      next click or fast scroll takes over again. */
  lemma FlightRestoresTakeover(b: Bridge, id: string, now: int, threshold: int)
    requires Valid(b) && b.hasAvatar && b.arbiter.handlers >= 1
    ensures var b' := FlyAvatarTo(b, id, true, true, now);
      IM.Step(b'.arbiter, IM.WindowInput(IM.Click), threshold).1 == [IM.Takeover]
  {
    IM.ClickTakesOver(FlyAvatarTo(b, id, true, true, now).arbiter, threshold);
  }

  /** A flight killed while the user has control leaves the user in control: a click then
      signals nothing. */
  lemma KilledFlightKeepsUserControl(b: Bridge, id: string, now: int, threshold: int)
    requires Valid(b) && b.hasAvatar && b.arbiter.handlers >= 1 && b.arbiter.state == IM.UserControl
    ensures var b' := FlyAvatarTo(b, id, true, false, now);
      && b'.arbiter.state == IM.UserControl
      && IM.Step(b'.arbiter, IM.WindowInput(IM.Click), threshold).1 == []
  {
    IM.ClickTakesOver(FlyAvatarTo(b, id, true, false, now).arbiter, threshold);
  }

  /** `retreatAvatar()`: without a registered container nothing happens; otherwise the retreat
      is recorded (the corner animation itself is not modelled). */
  function RetreatAvatar(b: Bridge, now: int): (b': Bridge)
    requires Valid(b)
    ensures Valid(b')
    ensures !b.hasAvatar ==> b' == b
    ensures b.hasAvatar ==>
      && b'.recorder == FR.Record(b.recorder, Action(None, "avatar_retreat"), now)
      && b' == b.(recorder := b'.recorder)
  {
    if !b.hasAvatar then b
    else b.(recorder := FR.Record(b.recorder, Action(None, "avatar_retreat"), now))
  }

  /** `killAllAnimations()`: the tweens are killed and the kill is always recorded, with or
      without a container. */
  function KillAllAnimations(b: Bridge, now: int): (b': Bridge)
    requires Valid(b)
    ensures Valid(b')
    ensures b'.recorder == FR.Record(b.recorder, Action(None, "animations_killed"), now)
    ensures b' == b.(recorder := b'.recorder)
  {
    b.(recorder := FR.Record(b.recorder, Action(None, "animations_killed"), now))
  }

  /** The bridge's part of entering interrupted (kill the animations, then retreat): the kill
      is the newest entry but one exactly when a container is registered, and nothing outside
      the recorder changes. */
  lemma InterruptionEntryLog(b: Bridge, now: int)
    requires Valid(b)
    ensures var b' := RetreatAvatar(KillAllAnimations(b, now), now);
      var log := b'.recorder.log;
      && b' == b.(recorder := b'.recorder)
      && (b.hasAvatar ==>
            |log| >= 2 && log[|log| - 2] == FR.FlightEntry(now, Action(None, "animations_killed"))
            && log[|log| - 1] == FR.FlightEntry(now, Action(None, "avatar_retreat")))
      && (!b.hasAvatar ==> |log| >= 1 && log[|log| - 1] == FR.FlightEntry(now, Action(None, "animations_killed")))
  {
    var b1 := KillAllAnimations(b, now);
    if b.hasAvatar {
      var log1 := b1.recorder.log;
      var log2 := RetreatAvatar(b1, now).recorder.log;
      assert log2[..|log2| - 1] == log1[|log1| + 1 - |log2|..];
      assert log2[|log2| - 2] == log2[..|log2| - 1][|log2| - 2];
    }
  }

  /** `getFlightLog()` */
  function GetFlightLog(b: Bridge): (x: FR.Export)
    ensures x.sessionId == b.recorder.sessionId && x.entries == b.recorder.log
  {
    FR.ExportLog(b.recorder)
  }

  /** A fresh orchestrator exports an empty log under the session id it was created with. */
  lemma FreshFlightLog(sessionId: string, interruptionThreshold: Option<int>)
    ensures GetFlightLog(Create(sessionId, interruptionThreshold)) == FR.Export(sessionId, [])
  {
  }

  // ---------------------------------------------------------------------------
  // streamNarrative

  /** The text `streamNarrative` hands to the narrative engine: the raw attribute, or the
      fallback when the element or a non-empty attribute is missing. */
  function StaticNarrative(element: Option<map<string, string>>): (t: string)
    ensures t == NarrativeFallback || (element.Some? && NarrativeAttribute in element.value && t == element.value[NarrativeAttribute])
  {
    if element.Some? && NarrativeAttribute in element.value && Truthy(element.value[NarrativeAttribute])
    then element.value[NarrativeAttribute]
    else NarrativeFallback
  }

  /** `streamNarrative(id)` as written; `engine` is the narrative configuration the constructor
      passes on, and the persona is left undefined. */
  function StreamNarrative(engine: NE.Config, element: Option<map<string, string>>, modelFails: bool,
                           fetched: NE.FetchOutcome)
    : (src: NE.StreamSource)
    ensures engine.hasModel ==>
      (src.ModelStream? || src.ModelFailed?)
      && src.request == NE.NarrativeRequest(NE.ResolvePersona(engine, ""), StaticNarrative(element))
  {
    NE.GenerateStream(engine, StaticNarrative(element), "", modelFails, fetched)
  }

  /** As written, the attribute reaches the model without the PII filter: a card number in the
      narrative is sent as it stands, although `getNarrativeForCheckpoint` redacts the same
      attribute. */
  lemma StreamNarrativeLeaks(engine: NE.Config, modelFails: bool, fetched: NE.FetchOutcome)
    requires engine.hasModel
    ensures var element := Some(map[NarrativeAttribute := "Card: 4111111111111111"]);
      && StreamNarrative(engine, element, modelFails, fetched).request.context == "Card: 4111111111111111"
      && NarrativeForCheckpoint(true, element) == "Card: [REDACTED]"
  {
    PIIExamples.SanitizeExampleCardPlain();
  }

  /** `streamNarrative` sending the text `getNarrativeForCheckpoint` produces. */
  function StreamNarrativeIntended(engine: NE.Config, element: Option<map<string, string>>, modelFails: bool,
                                   fetched: NE.FetchOutcome)
    : (src: NE.StreamSource)
    ensures engine.hasModel ==>
      (src.ModelStream? || src.ModelFailed?)
      && src.request == NE.NarrativeRequest(NE.ResolvePersona(engine, ""), NarrativeForCheckpoint(true, element))
  {
    NE.GenerateStream(engine, NarrativeForCheckpoint(true, element), "", modelFails, fetched)
  }

  /** With the filter applied, the model and the mock stream see only sanitized text: the
      context is the sanitized attribute or the fallback. */
  lemma IntendedStreamSanitized(engine: NE.Config, element: Option<map<string, string>>, modelFails: bool,
                                fetched: NE.FetchOutcome)
    ensures var src := StreamNarrativeIntended(engine, element, modelFails, fetched);
      var ctx := NarrativeForCheckpoint(true, element);
      && (ctx == NarrativeFallback
          || (element.Some? && NarrativeAttribute in element.value && ctx == PII.SanitizeText(element.value[NarrativeAttribute])))
      && (src.ModelStream? || src.ModelFailed? ==> src.request.context == ctx)
      && (src.MockStream? ==> src.chunks == NE.MockChunks(ctx))
  {
    NE.StreamPreference(engine, NarrativeForCheckpoint(true, element), "", modelFails, fetched);
  }

  /** The card line that leaks as written reaches the model redacted once the filter applies. */
  lemma IntendedStreamRedactsCard(engine: NE.Config, modelFails: bool, fetched: NE.FetchOutcome)
    requires engine.hasModel
    ensures StreamNarrativeIntended(engine, Some(map[NarrativeAttribute := "Card: 4111111111111111"]), modelFails, fetched).request.context
        == "Card: [REDACTED]"
  {
    PIIExamples.SanitizeExampleCardPlain();
  }

  /** Where the attribute holds no digit and no `@`, the correction sends exactly what the code
      as written sends. */
  lemma IntendedAgreesOnCleanText(engine: NE.Config, element: Option<map<string, string>>, modelFails: bool,
                                  fetched: NE.FetchOutcome)
    requires element.Some? && NarrativeAttribute in element.value
    requires !PII.HasDigit(element.value[NarrativeAttribute]) && '@' !in element.value[NarrativeAttribute]
    ensures StreamNarrativeIntended(engine, element, modelFails, fetched) == StreamNarrative(engine, element, modelFails, fetched)
  {
    NarrativeSource(true, element);
  }

  /** `startMonitoring()` */
  function StartMonitoring(b: Bridge, now: int): (b': Bridge)
    requires Valid(b)
    ensures Valid(b')
    ensures b'.arbiter.handlers == b.arbiter.handlers + 1
    ensures |b'.recorder.log| > 0 && b'.recorder.log[|b'.recorder.log| - 1] == FR.FlightEntry(now, FR.StateChangeTo("monitoring_started"))
  {
    b.(arbiter := IM.Step(b.arbiter, IM.Attach, b.threshold).0,
       recorder := FR.Record(b.recorder, FR.StateChangeTo("monitoring_started"), now))
  }

  /** `stopMonitoring()` */
  function StopMonitoring(b: Bridge): (b': Bridge)
    ensures Valid(b') == FR.Valid(b.recorder)
    ensures b'.corrector.retryCount == 0 && b'.arbiter.handlers == 0 && !b'.arbiter.idlePending
    ensures b'.recorder == b.recorder && b'.arbiter.state == b.arbiter.state
  {
    b.(arbiter := IM.Step(b.arbiter, IM.Detach, b.threshold).0, corrector := SC.Reset(b.corrector))
  }

  /** However many times monitoring was started, stopping it silences every window input and
      gives the next target a full retry budget. */
  lemma StopSilences(b: Bridge, input: IM.Input)
    ensures var b' := StopMonitoring(b);
      && IM.Step(b'.arbiter, IM.WindowInput(input), b'.threshold) == (b'.arbiter, [])
      && SC.Valid(b'.corrector) && b'.corrector.retryCount < SC.MaxRetries
  {
    IM.DetachedIgnoresInput(StopMonitoring(b).arbiter, input, b.threshold);
  }

  // ---------------------------------------------------------------------------
  // Interruption wiring

  /** The machine event each arbiter callback sends. */
  function SignalEvent(sig: IM.Signal): AM.Event {
    match sig
    case Takeover => AM.UserInterrupt
    case UserIdle => AM.UserResume
  }

  function SignalDraft(sig: IM.Signal): FR.Draft {
    match sig
    case Takeover => FR.Draft(FR.UserInterrupt, None, None, None, map["source" := FR.Text("scroll")])
    case UserIdle => FR.StateChangeFromTo("interrupted", "negotiating")
  }

  /** The `onUserTakeover` and `onUserIdle` callbacks for the signals of one arbiter step, in
      order: each records its entry, then sends its event through `sendEvent` when one is
      connected. An arbiter step raises at most one signal (`InterruptionManager.StepTakeovers`),
      so recording before sending keeps the source's order; the entries the machine records
      when it reacts to the sent event come after. */
  function OnSignals(b: Bridge, sigs: seq<IM.Signal>, now: int): (res: (Bridge, seq<AM.Event>))
    requires Valid(b)
    ensures Valid(res.0) && res.0 == b.(recorder := res.0.recorder)
    ensures |res.1| == (if b.connected then |sigs| else 0)
    ensures b.connected ==> forall k :: 0 <= k < |sigs| ==> res.1[k] == SignalEvent(sigs[k])
    ensures |res.0.recorder.log| >= |b.recorder.log|
  {
    var drafts := seq(|sigs|, k requires 0 <= k < |sigs| => SignalDraft(sigs[k]));
    var sent := if b.connected then seq(|sigs|, k requires 0 <= k < |sigs| => SignalEvent(sigs[k])) else [];
    (b.(recorder := RecordEach(b.recorder, drafts, now)), sent)
  }

  /** An arbiter event — a window input, the idle timer, an attach or a detach — and what the
      orchestrator does with the callbacks it triggers. */
  function ArbiterEvent(b: Bridge, ev: IM.Event, now: int): (res: (Bridge, seq<AM.Event>))
    requires Valid(b)
    ensures Valid(res.0)
    ensures !b.connected ==> res.1 == []
  {
    var (a', sigs) := IM.Step(b.arbiter, ev, b.threshold);
    OnSignals(b.(arbiter := a'), sigs, now)
  }

  /** Before `connect` the callbacks only record: the journey machine receives nothing. */
  lemma DisconnectedSendsNothing(b: Bridge, ev: IM.Event, now: int)
    requires Valid(b) && !b.connected
    ensures ArbiterEvent(b, ev, now).1 == []
    ensures |ArbiterEvent(b, ev, now).0.recorder.log| >= |b.recorder.log|
  {
  }

  /** A fast scroll while the agent narrates interrupts the journey: the arbiter takes over,
      the callback records the interruption and sends USER_INTERRUPT, and the machine enters
      interrupted. */
  lemma FastScrollInterruptsNarration(b: Bridge, now: int, y: int, s: AM.Snapshot, narrativeFor: string -> string)
    requires Valid(b) && b.connected && b.arbiter.handlers >= 1 && b.arbiter.state == IM.AgentControl
    requires IM.FastScroll(IM.Abs(y - b.arbiter.lastScrollY), now - b.arbiter.lastScrollTime, b.threshold)
    requires s.state == AM.Narrating
    ensures var (b', sent) := ArbiterEvent(b, IM.WindowInput(IM.Scroll(now, y)), now);
      && sent == [AM.UserInterrupt]
      && b'.arbiter.state == IM.UserControl
      && b'.recorder.log[|b'.recorder.log| - 1] == FR.FlightEntry(now, SignalDraft(IM.Takeover))
      && AM.Step(s, sent[0], narrativeFor).snap.state == AM.Interrupted
  {
    IM.ScrollTakeover(b.arbiter, now, y, b.threshold);
    IM.HandleAllOnce(b.arbiter, IM.Scroll(now, y), b.threshold, b.arbiter.handlers);
    var (a', sigs) := IM.Step(b.arbiter, IM.WindowInput(IM.Scroll(now, y)), b.threshold);
    assert sigs == [IM.Takeover];
    var (b', sent) := ArbiterEvent(b, IM.WindowInput(IM.Scroll(now, y)), now);
    assert |sent| == 1 && sent[0] == AM.UserInterrupt;
    var drafts := seq(|sigs|, k requires 0 <= k < |sigs| => SignalDraft(sigs[k]));
    assert drafts == [SignalDraft(IM.Takeover)];
    FR.RecordIsNewest(b.recorder, SignalDraft(IM.Takeover), now);
    AM.InterruptOnlyWhileActive(s, narrativeFor);
  }

  /** After a takeover, the idle timer resumes the journey: USER_RESUME brings the machine from
      interrupted back to pathfinding on the interrupted checkpoint. */
  lemma IdleResumesJourney(b: Bridge, now: int, s: AM.Snapshot, narrativeFor: string -> string)
    requires Valid(b) && b.connected && b.arbiter.state == IM.UserControl && b.arbiter.idlePending
    requires s.state == AM.Interrupted && s.ctx.currentCheckpoint.Some? && Truthy(s.ctx.currentCheckpoint.value)
    ensures var (b', sent) := ArbiterEvent(b, IM.IdleTimerFired, now);
      && sent == [AM.UserResume]
      && b'.arbiter.state == IM.Negotiating
      && AM.Step(s, sent[0], narrativeFor).snap.state == AM.Pathfinding
      && AM.Step(s, sent[0], narrativeFor).snap.ctx.currentCheckpoint == s.ctx.currentCheckpoint
  {
    var (b', sent) := ArbiterEvent(b, IM.IdleTimerFired, now);
    assert |sent| == 1 && sent[0] == AM.UserResume;
    AM.ResumeRevisits(s, narrativeFor);
  }
}
