/** The headless bridge: a stateless bridge whose scroll always succeeds, whose narrative is a
    fixed template and whose other calls only log. Plugged into the journey machine it makes
    every journey deterministic. */
module HeadlessBridge {
  import opened Common
  import opened AgentMachine

  const NarrativePrefix: string := "[Headless] Narrative for checkpoint "

  /** `scrollToTarget(id)` */
  function ScrollToTarget(id: string): (ok: bool)
    ensures ok
  {
    true
  }

  /** `getNarrativeForCheckpoint(id)` */
  function Narrative(id: string): (n: string)
    ensures |n| == |NarrativePrefix| + |id| && n[..|NarrativePrefix|] == NarrativePrefix
    ensures n[|NarrativePrefix|..] == id
  {
    NarrativePrefix + id
  }

  /** The narrative tells the checkpoints apart: different ids give different texts. */
  lemma NarrativeInjective(a: string, b: string)
    requires Narrative(a) == Narrative(b)
    ensures a == b
  {
    assert a == Narrative(a)[|NarrativePrefix|..];
  }

  /** The event a headless run feeds the machine in each state: the pending timer fires, the
      navigation resolves with the bridge's scroll result, and narration completes. */
  function HeadlessEvent(s: Snapshot): Event {
    match s.state
    case Navigating => NavDone(ScrollToTarget(CheckpointArg(s.ctx.currentCheckpoint)))
    case Narrating => NarrationComplete
    case _ => Timer
  }

  /** One step of a headless run. The machine never rests in checkingNext, so the guard only
      makes the step total. */
  function HeadlessStep(s: Snapshot): (s': Snapshot)
    ensures Stable(s.state) ==> Stable(s'.state)
  {
    if Stable(s.state) then Step(s, HeadlessEvent(s), Narrative).snap else s
  }

  /** `f` applied `n` times. */
  function Iterate<T>(f: T -> T, x: T, n: nat): T
    decreases n
  {
    if n == 0 then x else Iterate(f, f(x), n - 1)
  }

  lemma {:induction false} IterateAdd<T>(f: T -> T, x: T, m: nat, n: nat)
    ensures Iterate(f, x, m + n) == Iterate(f, Iterate(f, x, m), n)
    decreases m
  {
    if m > 0 {
      IterateAdd(f, f(x), m - 1, n);
    }
  }

  /** `n` steps of a headless run. */
  function Tour(s: Snapshot, n: nat): (s': Snapshot)
  {
    Iterate(HeadlessStep, s, n)
  }

  /** The states a headless journey passes through, with the error count it started with. */
  predicate OnCourse(s: Snapshot, e: nat) {
    s.state in {Pathfinding, Navigating, Thinking, Narrating, Completed} && s.ctx.errorCount == e
  }

  /** Navigation always succeeds, so a headless step never enters searching and never
      touches the error count. */
  lemma HeadlessStepOnCourse(s: Snapshot, e: nat)
    requires OnCourse(s, e)
    ensures OnCourse(HeadlessStep(s), e)
  {
  }

  lemma {:induction false} TourOnCourse(s: Snapshot, e: nat, n: nat)
    requires OnCourse(s, e)
    ensures OnCourse(Tour(s, n), e)
    decreases n
  {
    if n > 0 {
      HeadlessStepOnCourse(s, e);
      TourOnCourse(HeadlessStep(s), e, n - 1);
    }
  }

  /** One checkpoint takes four steps: pathfinding, navigating, thinking and narrating, then
      the next pathfinding entry or completion. */
  lemma CheckpointRound(s: Snapshot)
    requires s.state == Pathfinding
    ensures var s' := Tour(s, 4);
      && s'.state == (if |s.ctx.journeyQueue| > 0 then Pathfinding else Completed)
      && s'.ctx.errorCount == s.ctx.errorCount
      && s'.ctx.journeyQueue == (if |s.ctx.journeyQueue| > 0 then s.ctx.journeyQueue[1..] else [])
  {
    var s1 := HeadlessStep(s);
    assert s1.state == Navigating && s1.ctx == s.ctx;
    var s2 := HeadlessStep(s1);
    assert s2.state == Thinking && s2.ctx.journeyQueue == s.ctx.journeyQueue;
    var s3 := HeadlessStep(s2);
    assert s3.state == Narrating && s3.ctx.journeyQueue == s.ctx.journeyQueue;
    assert Tour(s, 4) == Tour(s3, 1);
  }

  lemma {:induction false} TourFromPathfinding(s: Snapshot)
    requires s.state == Pathfinding
    ensures var s' := Tour(s, 4 * (|s.ctx.journeyQueue| + 1));
      s'.state == Completed && s'.ctx.errorCount == s.ctx.errorCount
    decreases |s.ctx.journeyQueue|
  {
    CheckpointRound(s);
    var s4 := Tour(s, 4);
    TourAdd(s, 4, 4 * |s.ctx.journeyQueue|);
    if |s.ctx.journeyQueue| > 0 {
      TourFromPathfinding(s4);
    } else {
      assert Tour(s4, 0) == s4;
    }
  }

  lemma TourAdd(s: Snapshot, m: nat, n: nat)
    ensures Tour(s, m + n) == Tour(Tour(s, m), n)
  {
    IterateAdd(HeadlessStep, s, m, n);
  }

  /** A journey through the headless bridge over any queue completes with an error count of 0,
      having never entered searching on the way. */
  lemma HeadlessJourneyCompletes(q: seq<string>)
    ensures var s0 := Step(Initial, StartJourney(q), Narrative).snap;
      var n := 4 * (if |q| > 0 then |q| else 1);
      && Tour(s0, n).state == Completed
      && Tour(s0, n).ctx.errorCount == 0
      && forall k :: 0 <= k <= n ==> OnCourse(Tour(s0, k), 0)
  {
    var s0 := Step(Initial, StartJourney(q), Narrative).snap;
    StartJourneyLoads(q, Narrative);
    TourFromPathfinding(s0);
    assert |s0.ctx.journeyQueue| + 1 == (if |q| > 0 then |q| else 1);
    forall k | 0 <= k
      ensures OnCourse(Tour(s0, k), 0)
    {
      TourOnCourse(s0, 0, k);
    }
  }
}
