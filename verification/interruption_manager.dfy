/** The interruption manager: the tug-of-war arbiter that hands control to the user when they
    scroll fast, click or press a navigation key, and hands it back to the agent after an idle
    period. Window events, the clock and the idle timer become explicit inputs; the two
    callbacks become output signals. */
module InterruptionManager {

  datatype Control = AgentControl | UserControl | Negotiating

  /** The arbiter's fields. `idlePending` says whether an idle timer is scheduled (a new
      one always cancels the old one, so there is at most one), and `handlers` counts the
      handler triples that `attach` has registered and `detach` has not removed. */
  datatype Arbiter = Arbiter(
    state: Control,
    lastScrollY: int,
    lastScrollTime: int,
    idlePending: bool,
    handlers: nat)

  /** The window inputs the handlers see. */
  datatype Input = Scroll(now: int, scrollY: int) | Click | Key(key: string)

  datatype Event =
    | WindowInput(input: Input)
    | IdleTimerFired
    | ReturnToAgent
    | Attach
    | Detach

  /** The `onUserTakeover` and `onUserIdle` callbacks. */
  datatype Signal = Takeover | UserIdle

  function Create(): (a: Arbiter)
    ensures a.state == AgentControl && !a.idlePending && a.handlers == 0
  {
    Arbiter(AgentControl, 0, 0, false, 0)
  }

  /** The keys that count as navigation intent. */
  predicate IsNavigationKey(k: string) {
    k == "Tab" || k == "ArrowDown" || k == "ArrowUp" || k == " "
  }

  function Abs(x: int): nat {
    if x < 0 then -x else x
  }

  /** `(dy / dt) * 100 > threshold` for `dt > 0`, compared exactly over the rationals. */
  predicate FastScroll(dy: nat, dt: int, threshold: int) {
    dt > 0 && dy * 100 > threshold * dt
  }

  /** `enterUserControl` when the arbiter is with the agent. */
  function TakeOver(a: Arbiter): (Arbiter, seq<Signal>) {
    if a.state == AgentControl then (a.(state := UserControl), [Takeover]) else (a, [])
  }

  /** One run of one registered handler for the input. */
  function HandleOnce(a: Arbiter, input: Input, threshold: int): (res: (Arbiter, seq<Signal>))
    ensures res.0.handlers == a.handlers
    ensures res.1 == [] || (res.1 == [Takeover] && a.state == AgentControl && res.0.state == UserControl)
    ensures res.1 == [] ==> res.0.state == a.state
    ensures input.Click? || (input.Key? && IsNavigationKey(input.key)) ==>
      res.0.idlePending && (res.1 == [Takeover] <==> a.state == AgentControl)
  {
    match input
    case Scroll(now, y) =>
      var dt := now - a.lastScrollTime;
      var dy := Abs(y - a.lastScrollY);
      var (a1, out) := if FastScroll(dy, dt, threshold) then TakeOver(a) else (a, []);
      (a1.(lastScrollY := y, lastScrollTime := now, idlePending := true), out)
    case Click =>
      var (a1, out) := TakeOver(a);
      (a1.(idlePending := true), out)
    case Key(k) =>
      if IsNavigationKey(k) then
        var (a1, out) := TakeOver(a);
        (a1.(idlePending := true), out)
      else (a, [])
  }

  /** Every registered handler for the input runs, in registration order. */
  function HandleAll(a: Arbiter, input: Input, threshold: int, n: nat): (res: (Arbiter, seq<Signal>))
    ensures res.0.handlers == a.handlers
    decreases n
  {
    if n == 0 then (a, [])
    else
      var (a1, out1) := HandleOnce(a, input, threshold);
      var (a2, out2) := HandleAll(a1, input, threshold, n - 1);
      (a2, out1 + out2)
  }

  /** The arbiter's reaction to one event; `threshold` is `scrollVelocityThreshold`. */
  function Step(a: Arbiter, ev: Event, threshold: int): (res: (Arbiter, seq<Signal>))
    ensures ev.ReturnToAgent? ==> res.0 == a.(state := AgentControl) && res.1 == []
    ensures ev.Detach? ==> res.0 == a.(handlers := 0, idlePending := false) && res.1 == []
    ensures ev.Attach? ==> res.0 == a.(handlers := a.handlers + 1) && res.1 == []
    ensures ev.IdleTimerFired? ==>
      && (a.idlePending && a.state == UserControl ==>
            res.0 == a.(state := Negotiating, idlePending := false) && res.1 == [UserIdle])
      && (!(a.idlePending && a.state == UserControl) ==> res.0.state == a.state && res.1 == [])
  {
    match ev
    case WindowInput(input) => HandleAll(a, input, threshold, a.handlers)
    case IdleTimerFired =>
      if !a.idlePending then (a, [])
      else if a.state == UserControl then (a.(state := Negotiating, idlePending := false), [UserIdle])
      else (a.(idlePending := false), [])
    case ReturnToAgent => (a.(state := AgentControl), [])
    case Attach => (a.(handlers := a.handlers + 1), [])
    case Detach => (a.(handlers := 0, idlePending := false), [])
  }

  // ---------------------------------------------------------------------------
  // Handler properties

  /** A second run of the same handler for the same input changes nothing and signals nothing:
      the takeover already happened, the scroll baseline already moved to this input (so the
      elapsed time is zero) and the idle timer is simply rescheduled. */
  lemma HandleOnceIdempotent(a: Arbiter, input: Input, threshold: int)
    ensures var (a1, _) := HandleOnce(a, input, threshold);
      HandleOnce(a1, input, threshold) == (a1, [])
  {
  }

  /** Attaching several times makes every input run several handlers, with the same effect as
      one. */
  lemma {:induction false} HandleAllOnce(a: Arbiter, input: Input, threshold: int, n: nat)
    requires n >= 1
    ensures HandleAll(a, input, threshold, n) == HandleOnce(a, input, threshold)
    decreases n
  {
    var (a1, out1) := HandleOnce(a, input, threshold);
    HandleOnceIdempotent(a, input, threshold);
    if n > 1 {
      HandleAllOnce(a1, input, threshold, n - 1);
      assert out1 + [] == out1;
    } else {
      assert out1 + [] == out1;
    }
  }

  /** With handlers attached, a click hands control to the user exactly once, from
      agent-control only; in the other states it changes nothing but the idle timer. */
  lemma ClickTakesOver(a: Arbiter, threshold: int)
    requires a.handlers >= 1
    ensures var (a', out) := Step(a, WindowInput(Click), threshold);
      && a'.idlePending
      && (a.state == AgentControl ==> a'.state == UserControl && out == [Takeover])
      && (a.state != AgentControl ==> a' == a.(idlePending := true) && out == [])
  {
    HandleAllOnce(a, Click, threshold, a.handlers);
  }

  /** Tab, the two vertical arrows and space hand control to the user exactly once, from
      agent-control only, and always reschedule the idle timer. */
  lemma KeyTakesOver(a: Arbiter, k: string, threshold: int)
    requires a.handlers >= 1 && IsNavigationKey(k)
    ensures var (a', out) := Step(a, WindowInput(Key(k)), threshold);
      && a'.idlePending
      && (a.state == AgentControl ==> a'.state == UserControl && out == [Takeover])
      && (a.state != AgentControl ==> a' == a.(idlePending := true) && out == [])
  {
    HandleAllOnce(a, Key(k), threshold, a.handlers);
  }

  /** A key other than Tab, the two vertical arrows and space has no effect at all. */
  lemma OtherKeysIgnored(a: Arbiter, k: string, threshold: int)
    requires !IsNavigationKey(k)
    ensures Step(a, WindowInput(Key(k)), threshold) == (a, [])
  {
    if a.handlers >= 1 {
      HandleAllOnce(a, Key(k), threshold, a.handlers);
    }
  }

  /** A scroll takes control exactly when time has passed, the speed is strictly above the
      threshold and the agent has control; the baseline always moves to this scroll. */
  lemma ScrollTakeover(a: Arbiter, now: int, y: int, threshold: int)
    requires a.handlers >= 1
    ensures var (a', out) := Step(a, WindowInput(Scroll(now, y)), threshold);
      && a'.lastScrollY == y && a'.lastScrollTime == now && a'.idlePending
      && (out == [Takeover] <==>
            now - a.lastScrollTime > 0
            && Abs(y - a.lastScrollY) * 100 > threshold * (now - a.lastScrollTime)
            && a.state == AgentControl)
      && (out == [] <==> out != [Takeover])
  {
    HandleAllOnce(a, Scroll(now, y), threshold, a.handlers);
  }

  /** Without attached handlers the window inputs reach nobody. */
  lemma DetachedIgnoresInput(a: Arbiter, input: Input, threshold: int)
    requires a.handlers == 0
    ensures Step(a, WindowInput(input), threshold) == (a, [])
  {
  }

  // ---------------------------------------------------------------------------
  // Properties over event sequences

  function Run(a: Arbiter, evs: seq<Event>, threshold: int): (res: (Arbiter, seq<Signal>))
    decreases |evs|
  {
    if evs == [] then (a, [])
    else
      var (a1, out1) := Step(a, evs[0], threshold);
      var (a2, out2) := Run(a1, evs[1..], threshold);
      (a2, out1 + out2)
  }

  function CountTakeovers(out: seq<Signal>): nat {
    if out == [] then 0 else (if out[0] == Takeover then 1 else 0) + CountTakeovers(out[1..])
  }

  lemma {:induction false} CountTakeoversAppend(x: seq<Signal>, y: seq<Signal>)
    ensures CountTakeovers(x + y) == CountTakeovers(x) + CountTakeovers(y)
    decreases |x|
  {
    if x == [] {
      assert x + y == y;
    } else {
      assert (x + y)[1..] == x[1..] + y;
      CountTakeoversAppend(x[1..], y);
    }
  }

  predicate NoReturn(evs: seq<Event>) {
    forall i :: 0 <= i < |evs| ==> !evs[i].ReturnToAgent?
  }

  /** One step never takes over more than once, and only from agent-control; from any other
      state, only `returnToAgentControl` can get back to agent-control. */
  lemma StepTakeovers(a: Arbiter, ev: Event, threshold: int)
    ensures var (a', out) := Step(a, ev, threshold);
      && |out| <= 1
      && CountTakeovers(out) <= (if a.state == AgentControl then 1 else 0)
      && (CountTakeovers(out) == 1 ==> a'.state != AgentControl)
      && (a.state != AgentControl && !ev.ReturnToAgent? ==> a'.state != AgentControl)
  {
    match ev
    case WindowInput(input) =>
      if a.handlers >= 1 {
        HandleAllOnce(a, input, threshold, a.handlers);
      }
      var out := HandleOnce(a, input, threshold).1;
      assert out == [] || out == [Takeover];
      if out == [Takeover] {
        assert out[1..] == [];
      }
    case _ =>
      var out := Step(a, ev, threshold).1;
      assert out == [] || out == [UserIdle];
  }

  /** Takeover fires at most once between two returns of control to the agent, and not at
      all once the user already has control. */
  lemma {:induction false} TakeoverAtMostOnce(a: Arbiter, evs: seq<Event>, threshold: int)
    requires NoReturn(evs)
    ensures CountTakeovers(Run(a, evs, threshold).1) <= (if a.state == AgentControl then 1 else 0)
    decreases |evs|
  {
    if evs != [] {
      var (a1, out1) := Step(a, evs[0], threshold);
      var (a2, out2) := Run(a1, evs[1..], threshold);
      StepTakeovers(a, evs[0], threshold);
      assert NoReturn(evs[1..]) by {
        forall i | 0 <= i < |evs[1..]| ensures evs[1..][i] == evs[i + 1] { }
      }
      TakeoverAtMostOnce(a1, evs[1..], threshold);
      CountTakeoversAppend(out1, out2);
    }
  }
}
