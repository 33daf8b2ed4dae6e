/** The static `agentMachine` kept for unit tests: the same states and events as the machine
    `createAgentMachine` builds, without a bridge. It has no bridge calls and no recorder
    entries, no narrative assignment and no `navigateToTarget` invocation (navigating waits for
    TARGET_REACHED or ERROR_OCCURRED instead), its interrupted state has no entry action, its
    START_JOURNEY keeps the error count and its USER_RESUME re-queues nothing. */
module StaticMachine {
  import opened Common
  import opened AgentMachine

  /** Entry of `to` in the static machine, with checkingNext resolved. */
  function EnterStatic(to: MState, ctx: Context): (s: Snapshot)
    requires to != Idle
    ensures Stable(s.state) && s.state != Idle
    ensures to != CheckingNext ==> s.state == to
    ensures to == CheckingNext ==> s.state == (if |ctx.journeyQueue| > 0 then Pathfinding else Completed)
    decreases if to == CheckingNext then 1 else 0
  {
    match to
    case Pathfinding => Snapshot(Pathfinding, PopCheckpoint(ctx))
    case Searching => Snapshot(Searching, ctx.(errorCount := ctx.errorCount + 1))
    case CheckingNext =>
      if |ctx.journeyQueue| > 0 then EnterStatic(Pathfinding, ctx) else EnterStatic(Completed, ctx)
    case _ => Snapshot(to, ctx)
  }

  function StepStatic(s: Snapshot, ev: Event): (s': Snapshot)
    requires Stable(s.state)
    ensures Stable(s'.state)
  {
    var ctx := s.ctx;
    match s.state
    case Idle =>
      (match ev
       case StartJourney(q) => EnterStatic(Pathfinding, ctx.(journeyQueue := q))
       case _ => s)
    case Pathfinding => if ev.Timer? then EnterStatic(Navigating, ctx) else s
    case Navigating =>
      (match ev
       case TargetReached => EnterStatic(Thinking, ctx)
       case UserInterrupt => EnterStatic(Interrupted, ctx)
       case ErrorOccurred => EnterStatic(Searching, ctx)
       case _ => s)
    case Thinking =>
      (match ev
       case Timer => EnterStatic(Narrating, ctx)
       case UserInterrupt => EnterStatic(Interrupted, ctx)
       case _ => s)
    case Narrating =>
      (match ev
       case NarrationComplete => EnterStatic(CheckingNext, ctx)
       case UserInterrupt => EnterStatic(Interrupted, ctx)
       case _ => s)
    case CheckingNext => s
    case Interrupted => if ev.UserResume? || ev.NextMilestone? then EnterStatic(Pathfinding, ctx) else s
    case Searching =>
      if ev.Timer? then
        (if ctx.errorCount < MaxErrors then EnterStatic(Navigating, ctx) else EnterStatic(CheckingNext, ctx))
      else s
    case Completed => s
  }

  function RunStatic(s: Snapshot, evs: seq<Event>): (s': Snapshot)
    requires Stable(s.state)
    ensures Stable(s'.state)
    decreases |evs|
  {
    if evs == [] then s else RunStatic(StepStatic(s, evs[0]), evs[1..])
  }

  // ---------------------------------------------------------------------------
  // The two differences the test machine documents, and the ones it does not

  /** From an idle snapshot with any context, START_JOURNEY keeps the error count where the
      bridge machine resets it, and both load the same queue. Idle is only the initial state,
      whose count is 0, so from the initial context the difference cannot be observed. */
  lemma StartKeepsErrorCount(ctx: Context, q: seq<string>, narrativeFor: string -> string)
    ensures StepStatic(Snapshot(Idle, ctx), StartJourney(q)).ctx.errorCount == ctx.errorCount
    ensures Step(Snapshot(Idle, ctx), StartJourney(q), narrativeFor).snap.ctx.errorCount == 0
    ensures StepStatic(Snapshot(Idle, ctx), StartJourney(q)).ctx.journeyQueue ==
            Step(Snapshot(Idle, ctx), StartJourney(q), narrativeFor).snap.ctx.journeyQueue
  {
  }

  /** USER_RESUME drops the interrupted checkpoint: the next one is taken from the queue, where
      the bridge machine restores the interrupted one. */
  lemma ResumeDoesNotRequeue(s: Snapshot, narrativeFor: string -> string)
    requires s.state == Interrupted && s.ctx.currentCheckpoint.Some? && Truthy(s.ctx.currentCheckpoint.value)
    ensures StepStatic(s, UserResume) == Snapshot(Pathfinding, PopCheckpoint(s.ctx))
    ensures Step(s, UserResume, narrativeFor).snap.ctx.currentCheckpoint == s.ctx.currentCheckpoint
  {
    ResumeRevisits(s, narrativeFor);
  }

  /** The test machine never sets the interruption flag: it has no entry action on
      interrupted. */
  lemma {:induction false} FlagNeverSet(s: Snapshot, evs: seq<Event>)
    requires Stable(s.state) && !s.ctx.userInterrupted
    ensures !RunStatic(s, evs).ctx.userInterrupted
    decreases |evs|
  {
    if evs != [] {
      var s1 := StepStatic(s, evs[0]);
      assert !s1.ctx.userInterrupted;
      FlagNeverSet(s1, evs[1..]);
    }
  }

  /** In the test machine only the navigation-outcome events differ from the bridge machine:
      apart from the narrative buffer, the flag and the error count, a timer, narration or
      interruption event leads to the same state in both. */
  lemma SameStates(s: Snapshot, ev: Event, narrativeFor: string -> string)
    requires Stable(s.state)
    requires ev.Timer? || ev.NarrationComplete? || ev.UserInterrupt? || ev.NextMilestone?
    ensures StepStatic(s, ev).state == Step(s, ev, narrativeFor).snap.state
    ensures StepStatic(s, ev).ctx.journeyQueue == Step(s, ev, narrativeFor).snap.ctx.journeyQueue
    ensures StepStatic(s, ev).ctx.currentCheckpoint == Step(s, ev, narrativeFor).snap.ctx.currentCheckpoint
  {
  }

  /** Navigating in the test machine answers TARGET_REACHED and ERROR_OCCURRED the way the
      bridge machine answers a resolved `true` and a rejected invocation. */
  lemma TestEventsMirrorInvocation(s: Snapshot, narrativeFor: string -> string)
    requires s.state == Navigating
    ensures StepStatic(s, TargetReached).state == Step(s, NavDone(true), narrativeFor).snap.state == Thinking
    ensures StepStatic(s, ErrorOccurred) == Step(s, NavError, narrativeFor).snap
    ensures Step(s, TargetReached, narrativeFor).snap == s
  {
  }

  /** The test machine's error count never decreases over any run; a journey starts at most
      once, since idle is only the initial state. */
  lemma {:induction false} StaticErrorCountMonotone(s: Snapshot, evs: seq<Event>)
    requires Stable(s.state)
    ensures RunStatic(s, evs).ctx.errorCount >= s.ctx.errorCount
    decreases |evs|
  {
    if evs != [] {
      var s1 := StepStatic(s, evs[0]);
      assert s1.ctx.errorCount >= s.ctx.errorCount;
      StaticErrorCountMonotone(s1, evs[1..]);
    }
  }
}
