/** The journey state machine built by `createAgentMachine`, as a pure step function.

    The XState `after` timers and the `navigateToTarget` invocation become the events `Timer`,
    `NavDone(result)` and `NavError`; each is accepted only in the state that owns it, since
    leaving a state cancels its timers and its invocation. An event a state does not handle is
    ignored. Transition actions run before the target's entry actions, and `checkingNext`
    resolves its `always` transition at once, so no step ends in it. The bridge calls and the
    flight-recorder entries the machine makes are returned, in order, as effects. */
module AgentMachine {
  import opened Common
  import FR = FlightRecorder

  datatype MState =
    | Idle
    | Pathfinding
    | Navigating
    | Thinking
    | Narrating
    | CheckingNext
    | Interrupted
    | Searching
    | Completed

  datatype Context = Context(
    currentCheckpoint: Option<string>,
    journeyQueue: seq<string>,
    userInterrupted: bool,
    narrativeBuffer: string,
    errorCount: nat)

  datatype Snapshot = Snapshot(state: MState, ctx: Context)

  datatype Event =
    | StartJourney(initialQueue: seq<string>)
    | NextMilestone
    | UserInterrupt
    | UserResume
    | NarrationComplete
    | TargetReached
    | TargetFailed
    | ErrorOccurred
    | Timer                 // the `after` delay of the current state elapsed
    | NavDone(output: bool) // `navigateToTarget` resolved
    | NavError              // `navigateToTarget` rejected

  /** The bridge calls the machine makes. `Navigate` is the `navigateToTarget` invocation,
      which scrolls to and flies the avatar to its checkpoint. */
  datatype Effect =
    | Record(draft: FR.Draft)
    | StartMonitoring
    | StopMonitoring
    | KillAnimations
    | RetreatAvatar
    | Navigate(checkpointId: string)

  datatype StepResult = StepResult(snap: Snapshot, effects: seq<Effect>)

  /** Retries allowed before a checkpoint is skipped. */
  const MaxErrors: nat := 3

  const InitialContext: Context := Context(None, [], false, "", 0)

  const Initial: Snapshot := Snapshot(Idle, InitialContext)

  function StateName(s: MState): string {
    match s
    case Idle => "idle"
    case Pathfinding => "pathfinding"
    case Navigating => "navigating"
    case Thinking => "thinking"
    case Narrating => "narrating"
    case CheckingNext => "checkingNext"
    case Interrupted => "interrupted"
    case Searching => "searching"
    case Completed => "completed"
  }

  /** The id handed to the bridge: JavaScript turns a `null` checkpoint into `"null"` both in
      `getElementById` and in template strings. */
  function CheckpointArg(cp: Option<string>): string {
    match cp
    case Some(c) => c
    case None => "null"
  }

  function Enter(to: MState): Effect {
    Record(FR.StateChangeTo(StateName(to)))
  }

  function Reason(reason: string): Effect {
    Record(FR.WithReason(FR.Error, None, reason))
  }

  function Interruption(during: MState): Effect {
    Record(FR.Draft(FR.UserInterrupt, None, None, None, map["during" := FR.Text(StateName(during))]))
  }

  /** The states a step can end in: `checkingNext` is left as soon as it is entered. */
  predicate Stable(s: MState) {
    s != CheckingNext
  }

  /** pathfinding's entry: the head of the queue, if truthy, becomes the current checkpoint,
      and the queue loses its first element. */
  function PopCheckpoint(ctx: Context): (c: Context)
    ensures |ctx.journeyQueue| > 0 ==> c.journeyQueue == ctx.journeyQueue[1..]
    ensures |ctx.journeyQueue| == 0 ==> c.journeyQueue == []
    ensures c.currentCheckpoint.Some? <==> |ctx.journeyQueue| > 0 && Truthy(ctx.journeyQueue[0])
    ensures c.currentCheckpoint.Some? ==> c.currentCheckpoint.value == ctx.journeyQueue[0]
    ensures c.userInterrupted == ctx.userInterrupted && c.errorCount == ctx.errorCount
    ensures c.narrativeBuffer == ctx.narrativeBuffer
  {
    var q := ctx.journeyQueue;
    ctx.(currentCheckpoint := if |q| > 0 && Truthy(q[0]) then Some(q[0]) else None,
         journeyQueue := if |q| > 0 then q[1..] else [])
  }

  /** The entry actions of `to`, followed by the `always` transition out of checkingNext.
      `narrativeFor` is the bridge's `getNarrativeForCheckpoint`. */
  function EnterState(to: MState, ctx: Context, narrativeFor: string -> string): (r: StepResult)
    requires to != Idle
    ensures Stable(r.snap.state) && r.snap.state != Idle
    ensures to != CheckingNext ==> r.snap.state == to
    ensures to == CheckingNext ==>
      r.snap.state == (if |ctx.journeyQueue| > 0 then Pathfinding else Completed)
    decreases if to == CheckingNext then 1 else 0
  {
    match to
    case Pathfinding => StepResult(Snapshot(Pathfinding, PopCheckpoint(ctx)), [Enter(Pathfinding)])
    case Navigating => StepResult(Snapshot(Navigating, ctx), [Navigate(CheckpointArg(ctx.currentCheckpoint))])
    case Thinking =>
      var c := ctx.(narrativeBuffer := narrativeFor(CheckpointArg(ctx.currentCheckpoint)));
      StepResult(Snapshot(Thinking, c), [Enter(Thinking)])
    case Narrating => StepResult(Snapshot(Narrating, ctx), [Enter(Narrating)])
    case CheckingNext =>
      if |ctx.journeyQueue| > 0 then EnterState(Pathfinding, ctx, narrativeFor)
      else EnterState(Completed, ctx, narrativeFor)
    case Interrupted =>
      StepResult(Snapshot(Interrupted, ctx.(userInterrupted := true)),
                 [KillAnimations, RetreatAvatar, Enter(Interrupted)])
    case Searching =>
      StepResult(Snapshot(Searching, ctx.(errorCount := ctx.errorCount + 1)), [Enter(Searching)])
    case Completed => StepResult(Snapshot(Completed, ctx), [StopMonitoring, Enter(Completed)])
  }

  /** Transition actions `pre` then the entry of `to`. */
  function Go(pre: seq<Effect>, to: MState, ctx: Context, narrativeFor: string -> string): (r: StepResult)
    requires to != Idle
    ensures Stable(r.snap.state) && r.snap.state != Idle
  {
    var r := EnterState(to, ctx, narrativeFor);
    StepResult(r.snap, pre + r.effects)
  }

  function Ignore(s: Snapshot): StepResult {
    StepResult(s, [])
  }

  /** The machine's reaction to one event. */
  function Step(s: Snapshot, ev: Event, narrativeFor: string -> string): (r: StepResult)
    requires Stable(s.state)
    ensures Stable(r.snap.state)
  {
    var ctx := s.ctx;
    match s.state
    case Idle =>
      (match ev
       case StartJourney(q) =>
         Go([StartMonitoring, Record(FR.StateChangeFromTo("idle", "pathfinding"))],
            Pathfinding, ctx.(journeyQueue := q, errorCount := 0), narrativeFor)
       case _ => Ignore(s))
    case Pathfinding =>
      (match ev
       case Timer => Go([], Navigating, ctx, narrativeFor)
       case _ => Ignore(s))
    case Navigating =>
      (match ev
       case NavDone(ok) => Go([], if ok then Thinking else Searching, ctx, narrativeFor)
       case NavError => Go([Reason("navigation_failed")], Searching, ctx, narrativeFor)
       case UserInterrupt => Go([Interruption(Navigating)], Interrupted, ctx, narrativeFor)
       case _ => Ignore(s))
    case Thinking =>
      (match ev
       case Timer => Go([], Narrating, ctx, narrativeFor)
       case UserInterrupt => Go([Interruption(Thinking)], Interrupted, ctx, narrativeFor)
       case _ => Ignore(s))
    case Narrating =>
      (match ev
       case NarrationComplete =>
         Go([Record(FR.StateChangeFromTo("narrating", "checkingNext"))], CheckingNext, ctx, narrativeFor)
       case UserInterrupt => Go([Interruption(Narrating)], Interrupted, ctx, narrativeFor)
       case _ => Ignore(s))
    case CheckingNext => Ignore(s)
    case Interrupted =>
      (match ev
       case UserResume =>
         var q := match ctx.currentCheckpoint
           case Some(c) => if Truthy(c) then [c] + ctx.journeyQueue else ctx.journeyQueue
           case None => ctx.journeyQueue;
         Go([], Pathfinding, ctx.(userInterrupted := false, journeyQueue := q), narrativeFor)
       case NextMilestone => Go([], Pathfinding, ctx, narrativeFor)
       case _ => Ignore(s))
    case Searching =>
      (match ev
       case Timer =>
         if ctx.errorCount < MaxErrors then Go([], Navigating, ctx, narrativeFor)
         else Go([Reason("max_retries_exceeded")], CheckingNext, ctx, narrativeFor)
       case _ => Ignore(s))
    case Completed => Ignore(s)
  }

  /** The machine driven by a sequence of events: the final snapshot and every effect. */
  function Run(s: Snapshot, evs: seq<Event>, narrativeFor: string -> string): (r: StepResult)
    requires Stable(s.state)
    ensures Stable(r.snap.state)
    decreases |evs|
  {
    if evs == [] then StepResult(s, [])
    else
      var r1 := Step(s, evs[0], narrativeFor);
      var r2 := Run(r1.snap, evs[1..], narrativeFor);
      StepResult(r2.snap, r1.effects + r2.effects)
  }

  // ---------------------------------------------------------------------------
  // Starting a journey

  /** START_JOURNEY from idle resets the error count and loads the queue; the pathfinding entry
      that follows takes the head as the current checkpoint. */
  lemma StartJourneyLoads(q: seq<string>, narrativeFor: string -> string)
    ensures var r := Step(Initial, StartJourney(q), narrativeFor);
      && r.snap.state == Pathfinding
      && r.snap.ctx.errorCount == 0
      && r.snap.ctx.journeyQueue == (if |q| > 0 then q[1..] else [])
      && r.snap.ctx.currentCheckpoint == (if |q| > 0 && Truthy(q[0]) then Some(q[0]) else None)
      && r.effects == [StartMonitoring, Record(FR.StateChangeFromTo("idle", "pathfinding")), Enter(Pathfinding)]
  {
  }

  /** The journey the machine's unit test starts. */
  lemma StartJourneyExample(narrativeFor: string -> string)
    ensures var r := Step(Initial, StartJourney(["hero", "features"]), narrativeFor);
      r.snap.state == Pathfinding && r.snap.ctx.journeyQueue == ["features"]
      && r.snap.ctx.currentCheckpoint == Some("hero")
  {
    StartJourneyLoads(["hero", "features"], narrativeFor);
  }

  // ---------------------------------------------------------------------------
  // The queue

  /** Only START_JOURNEY (from idle) and USER_RESUME (from interrupted) lengthen the queue;
      USER_RESUME by at most the one re-queued checkpoint. Every other step keeps it or, on a
      pathfinding entry, drops its head. */
  lemma QueueGrowth(s: Snapshot, ev: Event, narrativeFor: string -> string)
    requires Stable(s.state)
    ensures var q := s.ctx.journeyQueue;
      var q' := Step(s, ev, narrativeFor).snap.ctx.journeyQueue;
      && (!(s.state == Idle && ev.StartJourney?) && !(s.state == Interrupted && ev.UserResume?) ==>
            q' == q || (|q| > 0 && q' == q[1..]))
      && (s.state == Interrupted && ev.UserResume? ==> |q'| <= |q|)
  {
  }

  /** Resuming after an interruption visits the interrupted checkpoint again: the next
      pathfinding entry restores the same current checkpoint and the same queue, with the flag
      cleared. */
  lemma ResumeRevisits(s: Snapshot, narrativeFor: string -> string)
    requires s.state == Interrupted && s.ctx.currentCheckpoint.Some? && Truthy(s.ctx.currentCheckpoint.value)
    ensures var r := Step(s, UserResume, narrativeFor);
      && r.snap.state == Pathfinding
      && r.snap.ctx == s.ctx.(userInterrupted := false)
  {
    var c := s.ctx.currentCheckpoint.value;
    assert ([c] + s.ctx.journeyQueue)[1..] == s.ctx.journeyQueue;
  }

  /** NEXT_MILESTONE skips the interrupted checkpoint: nothing is re-queued and the flag stays
      set. */
  lemma NextMilestoneSkips(s: Snapshot, narrativeFor: string -> string)
    requires s.state == Interrupted
    ensures var r := Step(s, NextMilestone, narrativeFor);
      && r.snap.state == Pathfinding
      && r.snap.ctx == PopCheckpoint(s.ctx)
      && r.snap.ctx.userInterrupted == s.ctx.userInterrupted
  {
  }

  /** USER_INTERRUPT is honoured in navigating, thinking and narrating only, and the
      interrupted entry sets the flag. */
  lemma InterruptOnlyWhileActive(s: Snapshot, narrativeFor: string -> string)
    requires Stable(s.state)
    ensures var r := Step(s, UserInterrupt, narrativeFor);
      && (s.state in {Navigating, Thinking, Narrating} ==>
            r.snap.state == Interrupted && r.snap.ctx == s.ctx.(userInterrupted := true)
            && r.effects == [Interruption(s.state), KillAnimations, RetreatAvatar, Enter(Interrupted)])
      && (s.state !in {Navigating, Thinking, Narrating} ==> r == StepResult(s, []))
  {
  }

  // ---------------------------------------------------------------------------
  // Navigation outcome and retries

  /** The invocation's result decides: `true` goes on to thinking, `false` or a rejection to
      searching, and only the rejection records `navigation_failed`. */
  lemma NavigationOutcome(s: Snapshot, ev: Event, narrativeFor: string -> string)
    requires s.state == Navigating && (ev.NavDone? || ev.NavError?)
    ensures var r := Step(s, ev, narrativeFor);
      && (r.snap.state == Thinking <==> ev == NavDone(true))
      && (r.snap.state == Searching <==> ev != NavDone(true))
      && (ev.NavError? <==> Reason("navigation_failed") in r.effects)
  {
    var r := Step(s, ev, narrativeFor);
    if ev.NavDone? {
      assert r.effects == [if ev.output then Enter(Thinking) else Enter(Searching)];
    } else {
      assert r.effects == [Reason("navigation_failed"), Enter(Searching)];
      assert r.effects[0] == Reason("navigation_failed");
    }
  }

  /** The error count only changes on START_JOURNEY, which resets it, and on entering
      searching, which adds one: it never decreases within a journey. */
  lemma ErrorCountChanges(s: Snapshot, ev: Event, narrativeFor: string -> string)
    requires Stable(s.state)
    ensures var r := Step(s, ev, narrativeFor);
      var e := s.ctx.errorCount;
      var e' := r.snap.ctx.errorCount;
      && (s.state == Idle && ev.StartJourney? ==> e' == 0)
      && (!(s.state == Idle && ev.StartJourney?) ==>
            (e' == e + 1 <==> r.snap.state == Searching && s.state != Searching)
            && (e' == e || e' == e + 1))
  {
  }

  /** The searching timer goes back to navigating while the count is below 3, and otherwise
      records `max_retries_exceeded` and moves on to the next checkpoint or completes. */
  lemma SearchingTimer(s: Snapshot, narrativeFor: string -> string)
    requires s.state == Searching
    ensures var r := Step(s, Timer, narrativeFor);
      && (s.ctx.errorCount < MaxErrors ==> r.snap == Snapshot(Navigating, s.ctx))
      && (s.ctx.errorCount >= MaxErrors ==>
            && r.effects[0] == Reason("max_retries_exceeded")
            && r.snap.state == (if |s.ctx.journeyQueue| > 0 then Pathfinding else Completed))
  {
  }

  /** A failed navigation followed by the searching timer. */
  function FailOnce(s: Snapshot, narrativeFor: string -> string): Snapshot
    requires Stable(s.state)
  {
    Step(Step(s, NavDone(false), narrativeFor).snap, Timer, narrativeFor).snap
  }

  /** Because the count is journey-wide, a navigation that fails once the count has reached 2
      skips its checkpoint after a single search, and earlier failures retry the same one. */
  lemma FailureRetriesOrSkips(s: Snapshot, narrativeFor: string -> string)
    requires s.state == Navigating
    ensures var s' := FailOnce(s, narrativeFor);
      && s'.ctx.errorCount == s.ctx.errorCount + 1
      && (s.ctx.errorCount + 1 < MaxErrors ==>
            s'.state == Navigating && s'.ctx.currentCheckpoint == s.ctx.currentCheckpoint
            && s'.ctx.journeyQueue == s.ctx.journeyQueue)
      && (s.ctx.errorCount + 1 >= MaxErrors ==> s'.state in {Pathfinding, Completed})
  {
  }

  /** Failures one after another from navigating. */
  function FailRepeatedly(s: Snapshot, n: nat, narrativeFor: string -> string): Snapshot
    requires Stable(s.state)
    decreases n
  {
    if n == 0 then s else FailRepeatedly(FailOnce(s, narrativeFor), n - 1, narrativeFor)
  }

  /** A checkpoint whose navigation keeps failing is tried `3 - errorCount` times in all (at
      least once) before the machine gives up on it, with the count rising by one per try. */
  lemma {:induction false} RetryBound(s: Snapshot, n: nat, narrativeFor: string -> string)
    requires s.state == Navigating
    requires s.ctx.errorCount + n < MaxErrors
    ensures var s' := FailRepeatedly(s, n, narrativeFor);
      && s'.state == Navigating
      && s'.ctx.errorCount == s.ctx.errorCount + n
      && s'.ctx.currentCheckpoint == s.ctx.currentCheckpoint
      && (FailOnce(s', narrativeFor).state in {Pathfinding, Completed} <==> s.ctx.errorCount + n + 1 >= MaxErrors)
    decreases n
  {
    if n > 0 {
      FailureRetriesOrSkips(s, narrativeFor);
      RetryBound(FailOnce(s, narrativeFor), n - 1, narrativeFor);
    }
    FailureRetriesOrSkips(FailRepeatedly(s, n, narrativeFor), narrativeFor);
  }

  /** The count is not bounded: it is journey-wide and only the searching timer reads it, so
      once it has reached 3 every further checkpoint whose navigation fails adds one more and
      is skipped after a single search. */
  lemma ErrorCountPastMax(s: Snapshot, narrativeFor: string -> string)
    requires s.state == Navigating && s.ctx.errorCount >= MaxErrors - 1 && |s.ctx.journeyQueue| > 0
    ensures var s' := FailOnce(s, narrativeFor);
      && s'.state == Pathfinding
      && s'.ctx.errorCount == s.ctx.errorCount + 1 > MaxErrors - 1
      && s'.ctx.journeyQueue == s.ctx.journeyQueue[1..]
      && (Truthy(s.ctx.journeyQueue[0]) ==> s'.ctx.currentCheckpoint == Some(s.ctx.journeyQueue[0]))
      && Step(s', Timer, narrativeFor).snap.state == Navigating
      && Step(s', Timer, narrativeFor).snap.ctx.errorCount == s'.ctx.errorCount
  {
  }

  /** Two checkpoints whose navigation always fails take the count to 4, past the retry
      limit of 3. */
  lemma TwoFailingCheckpoints(narrativeFor: string -> string)
    ensures var s1 := Step(Step(Initial, StartJourney(["a", "b"]), narrativeFor).snap, Timer, narrativeFor).snap;
      var s2 := FailRepeatedly(s1, 3, narrativeFor);
      var s3 := FailOnce(Step(s2, Timer, narrativeFor).snap, narrativeFor);
      && s2.state == Pathfinding && s2.ctx.currentCheckpoint == Some("b")
      && s3.ctx.errorCount == 4 > MaxErrors
  {
    var s1 := Step(Step(Initial, StartJourney(["a", "b"]), narrativeFor).snap, Timer, narrativeFor).snap;
    FirstOfTwoNavigating(narrativeFor);
    var f1 := FailOnce(s1, narrativeFor);
    FailureRetriesOrSkips(s1, narrativeFor);
    var f2 := FailOnce(f1, narrativeFor);
    FailureRetriesOrSkips(f1, narrativeFor);
    var f3 := FailOnce(f2, narrativeFor);
    ErrorCountPastMax(f2, narrativeFor);
    assert FailRepeatedly(s1, 3, narrativeFor) == f3 by {
      assert FailRepeatedly(f2, 1, narrativeFor) == f3;
      assert FailRepeatedly(f1, 2, narrativeFor) == f3;
    }
    var s2 := Step(f3, Timer, narrativeFor).snap;
    FailureRetriesOrSkips(s2, narrativeFor);
  }

  /** The two-checkpoint journey, once its first timer has fired, navigates to "a". */
  lemma FirstOfTwoNavigating(narrativeFor: string -> string)
    ensures var s1 := Step(Step(Initial, StartJourney(["a", "b"]), narrativeFor).snap, Timer, narrativeFor).snap;
      s1.state == Navigating && s1.ctx.errorCount == 0 && s1.ctx.journeyQueue == ["b"]
  {
    StartJourneyLoads(["a", "b"], narrativeFor);
  }

  // ---------------------------------------------------------------------------
  // The end of a journey

  /** completed is final: no event changes the state or the context, and nothing is done. */
  lemma CompletedIsFinal(s: Snapshot, ev: Event, narrativeFor: string -> string)
    requires s.state == Completed
    ensures Step(s, ev, narrativeFor) == StepResult(s, [])
  {
  }

  /** After narration the machine goes to pathfinding exactly when checkpoints remain. */
  lemma NarrationCompleteNext(s: Snapshot, narrativeFor: string -> string)
    requires s.state == Narrating
    ensures var r := Step(s, NarrationComplete, narrativeFor);
      && (r.snap.state == Pathfinding <==> |s.ctx.journeyQueue| > 0)
      && (r.snap.state == Completed <==> |s.ctx.journeyQueue| == 0)
      && (r.snap.state == Completed ==> StopMonitoring in r.effects)
  {
    var r := Step(s, NarrationComplete, narrativeFor);
    if |s.ctx.journeyQueue| == 0 {
      assert r.effects[1] == StopMonitoring;
    }
  }

  /** A run from a completed snapshot is inert. */
  lemma {:induction false} CompletedRunInert(s: Snapshot, evs: seq<Event>, narrativeFor: string -> string)
    requires s.state == Completed
    ensures Run(s, evs, narrativeFor) == StepResult(s, [])
    decreases |evs|
  {
    if evs != [] {
      CompletedIsFinal(s, evs[0], narrativeFor);
      CompletedRunInert(s, evs[1..], narrativeFor);
    }
  }

  /** Across any run without START_JOURNEY the queue never grows: USER_RESUME puts the
      checkpoint back, but the pathfinding entry of the same step takes it off again. */
  lemma {:induction false} QueueNeverGrows(s: Snapshot, evs: seq<Event>, narrativeFor: string -> string)
    requires Stable(s.state)
    requires forall i :: 0 <= i < |evs| ==> !evs[i].StartJourney?
    ensures |Run(s, evs, narrativeFor).snap.ctx.journeyQueue| <= |s.ctx.journeyQueue|
    decreases |evs|
  {
    if evs != [] {
      var r1 := Step(s, evs[0], narrativeFor);
      QueueGrowth(s, evs[0], narrativeFor);
      assert forall i :: 0 <= i < |evs[1..]| ==> evs[1..][i] == evs[i + 1];
      QueueNeverGrows(r1.snap, evs[1..], narrativeFor);
    }
  }

  /** Within a journey (no START_JOURNEY) the error count never decreases. */
  lemma {:induction false} ErrorCountMonotone(s: Snapshot, evs: seq<Event>, narrativeFor: string -> string)
    requires Stable(s.state)
    requires forall i :: 0 <= i < |evs| ==> !evs[i].StartJourney?
    ensures Run(s, evs, narrativeFor).snap.ctx.errorCount >= s.ctx.errorCount
    decreases |evs|
  {
    if evs != [] {
      var r1 := Step(s, evs[0], narrativeFor);
      ErrorCountChanges(s, evs[0], narrativeFor);
      assert forall i :: 0 <= i < |evs[1..]| ==> evs[1..][i] == evs[i + 1];
      ErrorCountMonotone(r1.snap, evs[1..], narrativeFor);
    }
  }
}
