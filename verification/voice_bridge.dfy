/** The flag logic of the Web Speech voice bridge: listening, paused-for-speech, speaking and
    muted, the network-error circuit breaker and its five-second backoff. The recognition and
    synthesis engines are abstract: the calls made on them are outputs, and their callbacks
    (`onend`, `onerror`, an utterance's `onstart`, `onend` and `onerror`) are events that
    carry the clock reading where the handler reads `Date.now()`. */
module VoiceBridge {

  const NetworkErrorBackoff: int := 5000
  const MaxNetworkErrors: nat := 3

  /** The bridge's fields, plus two facts about the engines: whether the recognizer is
      capturing audio, how many utterances handed to the synthesizer have not ended, and how
      many deferred restarts are scheduled. */
  datatype Voice = Voice(
    hasRecognition: bool,
    hasSynth: bool,
    speaking: bool,
    listening: bool,
    muted: bool,
    lastNetworkErrorTime: int,
    networkErrorCount: nat,
    pausedForSpeech: bool,
    hasCurrentUtterance: bool,
    capturing: bool,
    pendingUtterances: nat,
    pendingRestarts: nat)

  /** Calls on the engines and on the configured callbacks, in the order they are made. */
  datatype Output =
    | RecognitionAbort
    | RecognitionStart
    | RecognitionStop
    | ListeningChange(listening: bool)
    | VoiceError(error: string)
    | SpeakStart
    | SpeakEnd
    | SynthCancel
    | SynthSpeak(text: string)

  datatype Event =
    | StartListening
    | StopListening
    | Speak(text: string)
    | Interrupt
    | ToggleMute
    | SetMuted(muted: bool)
    | Dispose
    | RecognitionEnded(now: int)
    | RecognitionError(error: string, now: int)
    | RestartTimerFired
    | UtteranceStarted
    | UtteranceEnded
    | UtteranceFailed(error: string)

  datatype Result = Result(v: Voice, out: seq<Output>)

  /** Which engines exist never changes, and the network-error counter never goes down. */
  predicate Keeps(v: Voice, v': Voice) {
    v'.hasRecognition == v.hasRecognition && v'.hasSynth == v.hasSynth
    && v'.networkErrorCount >= v.networkErrorCount
  }

  /** Nothing about recognition changes: the listening, capturing and pause flags, the
      scheduled restarts and the network-error record. */
  predicate RecognitionKept(v: Voice, v': Voice) {
    v'.hasRecognition == v.hasRecognition && v'.listening == v.listening && v'.capturing == v.capturing
    && v'.pausedForSpeech == v.pausedForSpeech && v'.pendingRestarts == v.pendingRestarts
    && v'.lastNetworkErrorTime == v.lastNetworkErrorTime && v'.networkErrorCount == v.networkErrorCount
  }

  /** Nothing about speech changes: the speaking and mute flags, the current utterance and
      the utterances still pending. */
  predicate SpeechKept(v: Voice, v': Voice) {
    v'.hasSynth == v.hasSynth && v'.speaking == v.speaking && v'.muted == v.muted
    && v'.hasCurrentUtterance == v.hasCurrentUtterance && v'.pendingUtterances == v.pendingUtterances
  }

  /** A freshly constructed bridge; which engines the browser offers is an input. */
  function Create(hasRecognition: bool, hasSynth: bool): (v: Voice)
    ensures !v.listening && !v.speaking && !v.muted && v.networkErrorCount == 0
  {
    Voice(hasRecognition, hasSynth, false, false, false, 0, 0, false, false, false, 0, 0)
  }

  /** `startListening()` */
  function StartListeningOp(v: Voice): (r: Result)
    ensures Keeps(v, r.v)
    ensures !v.hasRecognition || v.listening ==> r == Result(v, [])
    ensures v.hasRecognition && !v.listening ==>
      r.v == v.(listening := true, capturing := true)
      && r.out == [RecognitionAbort, RecognitionStart, ListeningChange(true)]
  {
    if !v.hasRecognition || v.listening then Result(v, [])
    else Result(v.(listening := true, capturing := true), [RecognitionAbort, RecognitionStart, ListeningChange(true)])
  }

  /** `stopListening()` */
  function StopListeningOp(v: Voice): (r: Result)
    ensures Keeps(v, r.v)
    ensures !v.hasRecognition || !v.listening ==> r == Result(v, [])
    ensures v.hasRecognition && v.listening ==>
      r.v == v.(listening := false, capturing := false)
      && r.out == [RecognitionStop, ListeningChange(false)]
  {
    if !v.hasRecognition || !v.listening then Result(v, [])
    else Result(v.(listening := false, capturing := false), [RecognitionStop, ListeningChange(false)])
  }

  /** `interrupt()` */
  function InterruptOp(v: Voice): (r: Result)
    ensures Keeps(v, r.v)
    ensures !r.v.speaking && !r.v.hasCurrentUtterance
    ensures RecognitionKept(v, r.v) && r.v.muted == v.muted && r.v.pendingUtterances == v.pendingUtterances
    ensures r.out == (if v.hasSynth then [SynthCancel] else [])
  {
    Result(v.(speaking := false, hasCurrentUtterance := false), if v.hasSynth then [SynthCancel] else [])
  }

  /** `speak(text)` up to handing the utterance to the synthesizer. */
  function SpeakOp(v: Voice, text: string): (r: Result)
    ensures Keeps(v, r.v)
    ensures !v.hasSynth || v.muted || text == "" ==> r == Result(v, [])
    ensures v.hasSynth && !v.muted && text != "" ==>
      && |r.out| >= 2 && r.out[0] == SynthCancel && r.out[|r.out| - 1] == SynthSpeak(text)
      && r.v.pendingUtterances == v.pendingUtterances + 1 && r.v.hasCurrentUtterance
      && r.v.pausedForSpeech == (v.pausedForSpeech || v.listening)
      && r.v.listening == v.listening
  {
    if !v.hasSynth || v.muted || text == "" then Result(v, [])
    else
      var v1 := v.(pendingUtterances := v.pendingUtterances + 1, hasCurrentUtterance := true);
      if v.listening then
        Result(v1.(pausedForSpeech := true, capturing := if v.hasRecognition then false else v.capturing),
               [SynthCancel] + (if v.hasRecognition then [RecognitionStop] else []) + [SynthSpeak(text)])
      else Result(v1, [SynthCancel, SynthSpeak(text)])
  }

  /** `toggleMute()`: the new state and the value returned. */
  function ToggleMuteOp(v: Voice): (r: (Result, bool))
    ensures Keeps(v, r.0.v)
    ensures r.1 == !v.muted && r.0.v.muted == r.1
    ensures r.1 ==> !r.0.v.speaking && !r.0.v.hasCurrentUtterance
    ensures r.1 ==>
      && RecognitionKept(v, r.0.v) && r.0.v.pendingUtterances == v.pendingUtterances
      && r.0.out == (if v.hasSynth then [SynthCancel] else [])
    ensures !r.1 ==> r.0 == Result(v.(muted := false), [])
  {
    var v1 := v.(muted := !v.muted);
    if v1.muted then (InterruptOp(v1), true) else (Result(v1, []), false)
  }

  /** `setMuted(muted)` */
  function SetMutedOp(v: Voice, muted: bool): (r: Result)
    ensures Keeps(v, r.v)
    ensures r.v.muted == muted
    ensures muted ==> !r.v.speaking && !r.v.hasCurrentUtterance
    ensures muted ==>
      && RecognitionKept(v, r.v) && r.v.pendingUtterances == v.pendingUtterances
      && r.out == (if v.hasSynth then [SynthCancel] else [])
    ensures !muted ==> r == Result(v.(muted := false), [])
  {
    var v1 := v.(muted := muted);
    if muted then InterruptOp(v1) else Result(v1, [])
  }

  /** The recognizer's `onend` handler at time `now`. */
  function OnRecognitionEnd(v: Voice, now: int): (r: Result)
    ensures Keeps(v, r.v)
  {
    var v0 := v.(capturing := false);
    if v.listening && !v.pausedForSpeech then
      if v.networkErrorCount >= MaxNetworkErrors then
        Result(v0.(listening := false), [ListeningChange(false)])
      else if now - v.lastNetworkErrorTime < NetworkErrorBackoff then
        Result(v0.(pendingRestarts := v.pendingRestarts + 1), [])
      else
        Result(v0.(capturing := true), [RecognitionStart])
    else Result(v0, [])
  }

  /** The recognizer's `onerror` handler at time `now`. */
  function OnRecognitionError(v: Voice, error: string, now: int): (r: Result)
    ensures Keeps(v, r.v)
    ensures r.v.networkErrorCount == v.networkErrorCount + (if error == "network" then 1 else 0)
    ensures r.v.lastNetworkErrorTime == (if error == "network" then now else v.lastNetworkErrorTime)
    ensures SpeechKept(v, r.v) && r.v.listening == v.listening && r.v.capturing == v.capturing
      && r.v.pausedForSpeech == v.pausedForSpeech && r.v.pendingRestarts == v.pendingRestarts
    ensures r.out == [] || r.out == [VoiceError(error)]
    ensures r.out == [VoiceError(error)] <==>
      error != "no-speech" && error != "aborted" && r.v.networkErrorCount <= MaxNetworkErrors
  {
    if error == "no-speech" || error == "aborted" then Result(v, [])
    else
      var v1 := if error == "network"
        then v.(lastNetworkErrorTime := now, networkErrorCount := v.networkErrorCount + 1)
        else v;
      Result(v1, if v1.networkErrorCount <= MaxNetworkErrors then [VoiceError(error)] else [])
  }

  /** A deferred restart, as the code does it: `startListening()` while still listening and
      not paused. */
  function OnRestartTimer(v: Voice): (r: Result)
    requires v.pendingRestarts > 0
    ensures Keeps(v, r.v)
  {
    var v1 := v.(pendingRestarts := v.pendingRestarts - 1);
    if v.listening && !v.pausedForSpeech then StartListeningOp(v1) else Result(v1, [])
  }

  /** An utterance's `onend`, as the code does it: resume with `startListening()`. */
  function OnUtteranceEnd(v: Voice): (r: Result)
    requires v.pendingUtterances > 0
    ensures Keeps(v, r.v)
  {
    var v1 := v.(speaking := false, hasCurrentUtterance := false, pendingUtterances := v.pendingUtterances - 1);
    if v.pausedForSpeech then
      var r := StartListeningOp(v1.(pausedForSpeech := false));
      Result(r.v, [SpeakEnd] + r.out)
    else Result(v1, [SpeakEnd])
  }

  /** An utterance's `onerror` (including the `interrupted` and `canceled` errors a cancel
      raises): the speech ends and the pause is dropped, without resuming recognition. */
  function OnUtteranceError(v: Voice): (r: Result)
    requires v.pendingUtterances > 0
    ensures Keeps(v, r.v)
    ensures !r.v.speaking && !r.v.hasCurrentUtterance && !r.v.pausedForSpeech && r.out == [SpeakEnd]
    ensures r.v.pendingUtterances == v.pendingUtterances - 1 && r.v.muted == v.muted
    ensures r.v.listening == v.listening && r.v.capturing == v.capturing && r.v.pendingRestarts == v.pendingRestarts
      && r.v.lastNetworkErrorTime == v.lastNetworkErrorTime && r.v.networkErrorCount == v.networkErrorCount
  {
    Result(v.(speaking := false, hasCurrentUtterance := false, pausedForSpeech := false,
              pendingUtterances := v.pendingUtterances - 1), [SpeakEnd])
  }

  /** `dispose()` */
  function DisposeOp(v: Voice): (r: Result)
    ensures Keeps(v, r.v)
    ensures !r.v.speaking && !r.v.hasCurrentUtterance && (v.hasRecognition ==> !r.v.listening)
    ensures v.hasRecognition && v.listening ==> !r.v.capturing
    ensures !(v.hasRecognition && v.listening) ==> r.v.listening == v.listening && r.v.capturing == v.capturing
    ensures r.out == (if v.hasRecognition && v.listening then [RecognitionStop, ListeningChange(false)] else [])
                     + (if v.hasSynth then [SynthCancel] else [])
    ensures r.v.muted == v.muted && r.v.pendingUtterances == v.pendingUtterances
      && r.v.pausedForSpeech == v.pausedForSpeech && r.v.pendingRestarts == v.pendingRestarts
  {
    var r1 := StopListeningOp(v);
    var r2 := InterruptOp(r1.v);
    Result(r2.v, r1.out + r2.out)
  }

  /** The bridge's reaction to a call or an engine callback. Callbacks of an engine the
      browser does not offer, or of an utterance that is not pending, cannot happen and are
      ignored. */
  function Step(v: Voice, ev: Event): (r: Result)
    ensures Keeps(v, r.v)
  {
    match ev
    case StartListening => StartListeningOp(v)
    case StopListening => StopListeningOp(v)
    case Speak(text) => SpeakOp(v, text)
    case Interrupt => InterruptOp(v)
    case ToggleMute => ToggleMuteOp(v).0
    case SetMuted(m) => SetMutedOp(v, m)
    case Dispose => DisposeOp(v)
    case RecognitionEnded(now) => if v.hasRecognition then OnRecognitionEnd(v, now) else Result(v, [])
    case RecognitionError(e, now) => if v.hasRecognition then OnRecognitionError(v, e, now) else Result(v, [])
    case RestartTimerFired => if v.pendingRestarts > 0 then OnRestartTimer(v) else Result(v, [])
    case UtteranceStarted =>
      if v.pendingUtterances > 0 then Result(v.(speaking := true), [SpeakStart]) else Result(v, [])
    case UtteranceEnded => if v.pendingUtterances > 0 then OnUtteranceEnd(v) else Result(v, [])
    case UtteranceFailed(_) => if v.pendingUtterances > 0 then OnUtteranceError(v) else Result(v, [])
  }

  /** The bridge driven by a sequence of calls and callbacks: the final state and every output. */
  function Run(v: Voice, evs: seq<Event>): (r: Result)
    ensures Keeps(v, r.v)
    decreases |evs|
  {
    if evs == [] then Result(v, [])
    else
      var r1 := Step(v, evs[0]);
      var r2 := Run(r1.v, evs[1..]);
      Result(r2.v, r1.out + r2.out)
  }

  // ---------------------------------------------------------------------------
  // The circuit breaker

  /** Recognition ending while listening and not paused: a tripped breaker turns listening
      off for good and reports it; inside the backoff window the restart is deferred;
      otherwise the recognizer is started again at once. */
  lemma RecognitionEndBreaker(v: Voice, now: int)
    requires v.hasRecognition && v.listening && !v.pausedForSpeech
    ensures var r := Step(v, RecognitionEnded(now));
      && (v.networkErrorCount >= MaxNetworkErrors ==>
            !r.v.listening && r.out == [ListeningChange(false)] && r.v.pendingRestarts == v.pendingRestarts)
      && (v.networkErrorCount < MaxNetworkErrors && now - v.lastNetworkErrorTime < NetworkErrorBackoff ==>
            r.v.listening && r.out == [] && r.v.pendingRestarts == v.pendingRestarts + 1)
      && (v.networkErrorCount < MaxNetworkErrors && now - v.lastNetworkErrorTime >= NetworkErrorBackoff ==>
            r.v.listening && r.out == [RecognitionStart] && r.v.capturing)
  {
  }

  /** No operation resets the network-error counter, so once the breaker has tripped it stays
      tripped for the lifetime of the bridge. */
  lemma {:induction false} BreakerStaysTripped(v: Voice, evs: seq<Event>)
    ensures Run(v, evs).v.networkErrorCount >= v.networkErrorCount
    decreases |evs|
  {
    if evs != [] {
      BreakerStaysTripped(Step(v, evs[0]).v, evs[1..]);
    }
  }

  /** `no-speech` and `aborted` are ignored; the fourth and later network errors, and any
      error after them, no longer reach the error handler. */
  lemma ErrorReporting(v: Voice, error: string, now: int)
    requires v.hasRecognition
    ensures var r := Step(v, RecognitionError(error, now));
      && (error == "no-speech" || error == "aborted" ==> r == Result(v, []))
      && (error == "network" ==> r.v.lastNetworkErrorTime == now && r.v.networkErrorCount == v.networkErrorCount + 1)
      && (v.networkErrorCount >= MaxNetworkErrors && error == "network" ==> r.out == [])
      && (v.networkErrorCount < MaxNetworkErrors && error != "no-speech" && error != "aborted" ==>
            r.out == [VoiceError(error)])
  {
  }

  // ---------------------------------------------------------------------------
  // Speaking

  /** Speaking while listening pauses recognition: the recognizer is stopped and the pause flag
      set, while `isListening` still reads true. */
  lemma SpeakPausesRecognition(v: Voice, text: string)
    requires v.hasSynth && v.hasRecognition && !v.muted && text != "" && v.listening
    ensures var r := Step(v, Speak(text));
      && r.v.pausedForSpeech && r.v.listening && !r.v.capturing
      && r.out == [SynthCancel, RecognitionStop, SynthSpeak(text)]
  {
  }

  /** With output muted, or without a synthesizer, or for empty text, `speak` does nothing. */
  lemma SpeakEarlyExit(v: Voice, text: string)
    requires !v.hasSynth || v.muted || text == ""
    ensures Step(v, Speak(text)) == Result(v, [])
  {
  }

  /** After muting, nothing is being spoken and a later `speak` is silent until unmuted. */
  lemma MutedStaysSilent(v: Voice, text: string)
    ensures var r := Step(v, ToggleMute);
      r.v.muted ==> !r.v.speaking && Step(r.v, Speak(text)) == Result(r.v, [])
  {
  }

  // ---------------------------------------------------------------------------
  // The restarts that do not happen

  /** A deferred restart and the resume after speech both call `startListening()`, which
      returns at once because `isListening` is still true: the recognizer is not started. */
  lemma DeferredRestartIsNoOp(v: Voice)
    requires v.pendingRestarts > 0 && v.listening && !v.pausedForSpeech
    ensures Step(v, RestartTimerFired).out == []
    ensures !v.capturing ==> !Step(v, RestartTimerFired).v.capturing
  {
  }

  lemma ResumeAfterSpeechIsNoOp(v: Voice)
    requires v.pendingUtterances > 0 && v.pausedForSpeech && v.listening
    ensures Step(v, UtteranceEnded).out == [SpeakEnd]
    ensures !v.capturing ==> !Step(v, UtteranceEnded).v.capturing
  {
  }

  /** A listening bridge with both engines, at rest. */
  function ListeningBridge(): (v: Voice)
    ensures v.listening && v.capturing
  {
    Voice(true, true, false, true, false, 0, 0, false, false, true, 0, 0)
  }

  /** Speaking once while listening leaves the bridge reporting that it listens while the
      recognizer has stopped for good. */
  lemma SpeechEndsRecognition(now: int)
    ensures var r := Run(ListeningBridge(), [Speak("hi"), RecognitionEnded(now), UtteranceStarted, UtteranceEnded]);
      r.v.listening && !r.v.capturing && RecognitionStart !in r.out
  {
    var v0 := ListeningBridge();
    var r1 := Step(v0, Speak("hi"));
    var r2 := Step(r1.v, RecognitionEnded(now));
    var r3 := Step(r2.v, UtteranceStarted);
    var r4 := Step(r3.v, UtteranceEnded);
    assert r4.out == [SpeakEnd];
    var evs := [Speak("hi"), RecognitionEnded(now), UtteranceStarted, UtteranceEnded];
    assert evs[1..][1..][1..][1..] == [];
    assert Run(r4.v, []) == Result(r4.v, []);
    assert Run(r3.v, evs[3..]) == Result(r4.v, r4.out);
    assert Run(r2.v, evs[2..]) == Result(r4.v, r3.out + r4.out);
    assert Run(r1.v, evs[1..]) == Result(r4.v, r2.out + (r3.out + r4.out));
    assert Run(v0, evs).out == r1.out + (r2.out + (r3.out + r4.out));
    assert r1.out == [SynthCancel, RecognitionStop, SynthSpeak("hi")];
  }

  /** A network error inside the backoff window leaves the recognizer stopped while the
      bridge reports that it listens, even after the deferred restart. */
  lemma NetworkErrorEndsRecognition(t: int)
    ensures var r := Run(ListeningBridge(), [RecognitionError("network", t), RecognitionEnded(t), RestartTimerFired]);
      r.v.listening && !r.v.capturing && RecognitionStart !in r.out
  {
    var v0 := ListeningBridge();
    var r1 := Step(v0, RecognitionError("network", t));
    var r2 := Step(r1.v, RecognitionEnded(t));
    var r3 := Step(r2.v, RestartTimerFired);
    var evs := [RecognitionError("network", t), RecognitionEnded(t), RestartTimerFired];
    assert evs[1..][1..][1..] == [];
    assert Run(r3.v, []) == Result(r3.v, []);
    assert Run(r2.v, evs[2..]) == Result(r3.v, r3.out);
    assert Run(r1.v, evs[1..]) == Result(r3.v, r2.out + r3.out);
    assert r1.out == [VoiceError("network")] && r2.out == [] && r3.out == [];
  }

  // ---------------------------------------------------------------------------
  // The evidently intended restarts

  /** The deferred restart and the resume after speech as the comments describe them: the
      recognizer is started again when the bridge still means to listen. An utterance that
      fails (a cancel raises `interrupted` or `canceled`) ends the pause the same way an
      utterance that ends does. */
  function StepIntended(v: Voice, ev: Event): (r: Result)
    ensures Keeps(v, r.v)
  {
    match ev
    case RestartTimerFired =>
      if v.pendingRestarts > 0 then
        var v1 := v.(pendingRestarts := v.pendingRestarts - 1);
        if v.listening && !v.pausedForSpeech then Result(v1.(capturing := true), [RecognitionStart])
        else Result(v1, [])
      else Result(v, [])
    case UtteranceEnded =>
      if v.pendingUtterances > 0 && v.pausedForSpeech then ResumeIntended(v) else Step(v, ev)
    case UtteranceFailed(_) =>
      if v.pendingUtterances > 0 && v.pausedForSpeech then ResumeIntended(v) else Step(v, ev)
    case _ => Step(v, ev)
  }

  /** The end of an utterance that paused recognition, corrected: the pause is dropped and
      the recognizer captures again, started afresh when listening was turned off meanwhile. */
  function ResumeIntended(v: Voice): (r: Result)
    requires v.pendingUtterances > 0 && v.pausedForSpeech
    ensures Keeps(v, r.v)
    ensures !r.v.speaking && !r.v.pausedForSpeech && |r.out| >= 1 && r.out[0] == SpeakEnd
    ensures v.hasRecognition ==> r.v.listening && r.v.capturing
  {
    var v1 := v.(speaking := false, hasCurrentUtterance := false,
                 pendingUtterances := v.pendingUtterances - 1, pausedForSpeech := false);
    if v.listening && v.hasRecognition then Result(v1.(capturing := true), [SpeakEnd, RecognitionStart])
    else
      var r := StartListeningOp(v1);
      Result(r.v, [SpeakEnd] + r.out)
  }

  /** The corrected bridge driven by a sequence of calls and callbacks. */
  function RunIntended(v: Voice, evs: seq<Event>): (r: Result)
    ensures Keeps(v, r.v)
    decreases |evs|
  {
    if evs == [] then Result(v, [])
    else
      var r1 := StepIntended(v, evs[0]);
      var r2 := RunIntended(r1.v, evs[1..]);
      Result(r2.v, r1.out + r2.out)
  }

  /** What the flags promise: only a bridge with a recognizer listens, and one that is
      listening and not paused for speech has its recognizer capturing, except while a
      deferred restart is still scheduled. */
  predicate Coherent(v: Voice) {
    && (v.listening ==> v.hasRecognition)
    && (v.listening && !v.pausedForSpeech && v.pendingRestarts == 0 ==> v.capturing)
  }

  /** The corrected steps keep the flags coherent through an utterance that pauses and
      resumes recognition, and through a deferred restart. */
  lemma IntendedResumesAfterSpeech(v: Voice)
    requires v.pendingUtterances > 0 && v.pausedForSpeech && v.listening && v.hasRecognition
    ensures var r := StepIntended(v, UtteranceEnded);
      r.v.listening && !r.v.pausedForSpeech && r.v.capturing && r.out == [SpeakEnd, RecognitionStart]
  {
  }

  lemma IntendedRestartsAfterBackoff(v: Voice)
    requires v.pendingRestarts > 0 && v.listening && !v.pausedForSpeech
    ensures var r := StepIntended(v, RestartTimerFired);
      r.v.capturing && r.out == [RecognitionStart] && (v.pendingRestarts == 1 && v.hasRecognition ==> Coherent(r.v))
  {
  }

  /** The same speech run as `SpeechEndsRecognition`, under the corrected steps: the bridge
      listens and the recognizer captures again. */
  lemma IntendedSpeechResumes(now: int)
    ensures var r := RunIntended(ListeningBridge(), [Speak("hi"), RecognitionEnded(now), UtteranceStarted, UtteranceEnded]);
      r.v.listening && r.v.capturing && Coherent(r.v)
  {
    var v0 := ListeningBridge();
    var r1 := StepIntended(v0, Speak("hi"));
    var r2 := StepIntended(r1.v, RecognitionEnded(now));
    var r3 := StepIntended(r2.v, UtteranceStarted);
    var r4 := StepIntended(r3.v, UtteranceEnded);
    var evs := [Speak("hi"), RecognitionEnded(now), UtteranceStarted, UtteranceEnded];
    assert evs[1..][1..][1..][1..] == [];
    assert RunIntended(r4.v, []) == Result(r4.v, []);
    assert RunIntended(r3.v, evs[3..]).v == r4.v;
    assert RunIntended(r2.v, evs[2..]).v == r4.v;
    assert RunIntended(r1.v, evs[1..]).v == r4.v;
  }

  /** The network-error run under the corrected steps restarts the recognizer once the
      backoff has passed. */
  lemma IntendedRestartAfterNetworkError(t: int)
    ensures var r := RunIntended(ListeningBridge(), [RecognitionError("network", t), RecognitionEnded(t), RestartTimerFired]);
      r.v.listening && r.v.capturing && Coherent(r.v)
  {
    var v0 := ListeningBridge();
    var r1 := StepIntended(v0, RecognitionError("network", t));
    var r2 := StepIntended(r1.v, RecognitionEnded(t));
    var r3 := StepIntended(r2.v, RestartTimerFired);
    var evs := [RecognitionError("network", t), RecognitionEnded(t), RestartTimerFired];
    assert evs[1..][1..][1..] == [];
    assert RunIntended(r3.v, []) == Result(r3.v, []);
    assert RunIntended(r2.v, evs[2..]).v == r3.v;
    assert RunIntended(r1.v, evs[1..]).v == r3.v;
  }

  /** A new bridge is coherent. */
  lemma CreateCoherent(hasRecognition: bool, hasSynth: bool)
    ensures Coherent(Create(hasRecognition, hasSynth))
  {
  }

  /** Every corrected step keeps the flags coherent, whatever the event. */
  lemma StepIntendedCoherent(v: Voice, ev: Event)
    requires Coherent(v)
    ensures Coherent(StepIntended(v, ev).v)
  {
  }

  /** Over any run of calls and engine callbacks, the corrected bridge never reports that it
      listens while its recognizer is idle with no restart scheduled and no speech pausing it. */
  lemma {:induction false} RunIntendedCoherent(v: Voice, evs: seq<Event>)
    requires Coherent(v)
    ensures Coherent(RunIntended(v, evs).v)
    decreases |evs|
  {
    if evs != [] {
      StepIntendedCoherent(v, evs[0]);
      RunIntendedCoherent(StepIntended(v, evs[0]).v, evs[1..]);
    }
  }

  /** The coherence the correction keeps is broken as written: a cancelled utterance drops
      the pause without restarting the recognizer. */
  lemma SpeechErrorEndsRecognition()
    ensures var r := Run(ListeningBridge(), [Speak("hi"), Interrupt, UtteranceFailed("interrupted")]);
      r.v.listening && !r.v.capturing && !Coherent(r.v)
  {
    var v0 := ListeningBridge();
    var r1 := Step(v0, Speak("hi"));
    var r2 := Step(r1.v, Interrupt);
    var r3 := Step(r2.v, UtteranceFailed("interrupted"));
    var evs := [Speak("hi"), Interrupt, UtteranceFailed("interrupted")];
    assert evs[1..][1..][1..] == [];
    assert Run(r3.v, []) == Result(r3.v, []);
    assert Run(r2.v, evs[2..]).v == r3.v;
    assert Run(r1.v, evs[1..]).v == r3.v;
  }

  /** The same run under the corrected steps ends listening and capturing. */
  lemma IntendedSpeechErrorResumes()
    ensures var r := RunIntended(ListeningBridge(), [Speak("hi"), Interrupt, UtteranceFailed("interrupted")]);
      r.v.listening && r.v.capturing && Coherent(r.v)
  {
    var v0 := ListeningBridge();
    var r1 := StepIntended(v0, Speak("hi"));
    var r2 := StepIntended(r1.v, Interrupt);
    var r3 := StepIntended(r2.v, UtteranceFailed("interrupted"));
    var evs := [Speak("hi"), Interrupt, UtteranceFailed("interrupted")];
    assert evs[1..][1..][1..] == [];
    assert RunIntended(r3.v, []) == Result(r3.v, []);
    assert RunIntended(r2.v, evs[2..]).v == r3.v;
    assert RunIntended(r1.v, evs[1..]).v == r3.v;
  }
}
