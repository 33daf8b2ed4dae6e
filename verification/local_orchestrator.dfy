/** The local orchestrator: the in-memory adapter that turns named triggers into machine
    events and machine events into the developer's optional callbacks. */
module LocalOrchestrator {
  import opened Common
  import AM = AgentMachine

  /** Whether `connect` has handed over a `sendEvent` that `dispose` has not dropped. */
  datatype Orchestrator = Orchestrator(connected: bool)

  /** Which of the three optional callbacks the configuration supplies. */
  datatype Config = Config(hasOnCheckpoint: bool, hasOnComplete: bool, hasOnError: bool)

  /** An event as the orchestrator observes it: its `type`, its `output` (present on invocation
      results) and its `error` payload. */
  datatype Observed = Observed(kind: string, output: Option<bool>, error: Option<string>)

  datatype Callback = OnCheckpoint(checkpointId: string) | OnComplete | OnError(error: Option<string>)

  const JourneyStart: string := "journey.start"
  const NavigationDone: string := "done.actor.navigateToTarget"

  function Create(): (o: Orchestrator)
    ensures !o.connected
  {
    Orchestrator(false)
  }

  function Connect(o: Orchestrator): (o': Orchestrator)
    ensures o'.connected
  {
    Orchestrator(true)
  }

  function Dispose(o: Orchestrator): (o': Orchestrator)
    ensures !o'.connected
  {
    Orchestrator(false)
  }

  /** `trigger(eventName, payload)`: the event sent, if any. `checkpoints` is
      `payload.checkpoints`, absent when it is falsy. */
  function Trigger(o: Orchestrator, eventName: string, checkpoints: Option<seq<string>>): (sent: Option<AM.Event>)
    ensures sent.Some? <==> o.connected && eventName == JourneyStart
    ensures sent.Some? ==> sent.value == AM.StartJourney(checkpoints.GetOr([]))
  {
    if eventName == JourneyStart && o.connected then Some(AM.StartJourney(checkpoints.GetOr([])))
    else None
  }

  predicate ReachedTarget(ev: Observed) {
    ev.kind == "TARGET_REACHED" || (Contains(ev.kind, NavigationDone) && ev.output == Some(true))
  }

  predicate Finished(ev: Observed) {
    ev.kind == "journey_completed" || ev.kind == "CANCEL_JOURNEY"
  }

  predicate Failed(ev: Observed) {
    ev.kind == "ERROR_OCCURRED" || ev.kind == "TARGET_FAILED"
  }

  /** `onAgentEvent(event, context)`: the callbacks invoked, in order. */
  function OnAgentEvent(cfg: Config, ev: Observed, ctx: AM.Context): (calls: seq<Callback>)
    ensures |calls| <= 3
  {
    var checkpoint :=
      if ReachedTarget(ev) && ctx.currentCheckpoint.Some? && Truthy(ctx.currentCheckpoint.value)
         && cfg.hasOnCheckpoint
      then [OnCheckpoint(ctx.currentCheckpoint.value)] else [];
    var complete := if Finished(ev) && cfg.hasOnComplete then [OnComplete] else [];
    var error := if Failed(ev) && cfg.hasOnError then [OnError(ev.error)] else [];
    checkpoint + complete + error
  }

  // ---------------------------------------------------------------------------
  // Properties

  /** Before `connect` and after `dispose` no trigger reaches the machine. */
  lemma DisconnectedSendsNothing(eventName: string, checkpoints: Option<seq<string>>)
    ensures Trigger(Create(), eventName, checkpoints).None?
    ensures forall o :: Trigger(Dispose(o), eventName, checkpoints).None?
    ensures Trigger(Connect(Create()), eventName, checkpoints).Some? <==> eventName == JourneyStart
  {
  }

  /** The three callbacks are decided independently: each fires exactly under its own
      condition, and a checkpoint callback carries the truthy current checkpoint. */
  lemma CallbacksIndependent(cfg: Config, ev: Observed, ctx: AM.Context)
    ensures var calls := OnAgentEvent(cfg, ev, ctx);
      && ((exists id :: OnCheckpoint(id) in calls) <==>
            cfg.hasOnCheckpoint && ReachedTarget(ev) && ctx.currentCheckpoint.Some?
            && Truthy(ctx.currentCheckpoint.value))
      && (forall id :: OnCheckpoint(id) in calls ==> ctx.currentCheckpoint == Some(id))
      && (OnComplete in calls <==> cfg.hasOnComplete && Finished(ev))
      && (OnError(ev.error) in calls <==> cfg.hasOnError && Failed(ev))
  {
    var calls := OnAgentEvent(cfg, ev, ctx);
    if cfg.hasOnCheckpoint && ReachedTarget(ev) && ctx.currentCheckpoint.Some? && Truthy(ctx.currentCheckpoint.value) {
      assert calls[0] == OnCheckpoint(ctx.currentCheckpoint.value);
    }
    if cfg.hasOnComplete && Finished(ev) {
      assert OnComplete in calls by {
        var pre := if ReachedTarget(ev) && ctx.currentCheckpoint.Some? && Truthy(ctx.currentCheckpoint.value)
          && cfg.hasOnCheckpoint then 1 else 0;
        assert calls[pre] == OnComplete;
      }
    }
    if cfg.hasOnError && Failed(ev) {
      assert calls[|calls| - 1] == OnError(ev.error);
    }
  }

  /** A string containing `sub` keeps containing it with anything put in front. */
  lemma {:induction false} ContainsAfterPrefix(pre: string, s: string, sub: string)
    requires Contains(s, sub)
    ensures Contains(pre + s, sub)
    decreases |pre|
  {
    if pre == [] {
      assert pre + s == s;
    } else {
      assert (pre + s)[1..] == pre[1..] + s;
      ContainsAfterPrefix(pre[1..], s, sub);
    }
  }

  /** A navigation that resolves `true` is reported as an arrival, whatever prefix the
      invocation's done-event type carries (`xstate.` in XState 5). */
  lemma NavigationDoneArrives(prefix: string, ctx: AM.Context)
    requires ctx.currentCheckpoint.Some? && Truthy(ctx.currentCheckpoint.value)
    ensures OnAgentEvent(Config(true, false, false), Observed(prefix + NavigationDone, Some(true), None), ctx)
            == [OnCheckpoint(ctx.currentCheckpoint.value)]
  {
    assert NavigationDone[..|NavigationDone|] == NavigationDone;
    ContainsAfterPrefix(prefix, NavigationDone, NavigationDone);
  }
}
