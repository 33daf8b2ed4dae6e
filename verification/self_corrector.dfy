/** The self-corrector: checks after a scroll that the target is in the viewport, scrolls it
    into view again up to three times, and checks attribute changes after a click. The DOM is
    replaced by the observations the checks make: whether the element exists and its
    bounding rectangle before and after the corrective scroll. */
module SelfCorrector {
  import opened Common

  const MaxRetries: nat := 3

  const StillOutOfView: string := "still-out-of-view"
  const MaxRetriesExceeded: string := "max-retries-exceeded"

  /** The vertical extent of a bounding client rectangle, in whole pixels. */
  datatype Rect = Rect(top: int, bottom: int)

  /** What `document.getElementById(targetId)` and two `getBoundingClientRect()` calls see. */
  datatype Observation = Missing | Present(before: Rect, after: Rect)

  datatype Verification = Verification(
    success: bool,
    expected: string,
    actual: Option<string>,
    correctionApplied: bool)

  datatype Corrector = Corrector(retryCount: nat)

  predicate Valid(c: Corrector) {
    c.retryCount <= MaxRetries
  }

  function Create(): (c: Corrector)
    ensures Valid(c) && c.retryCount == 0
  {
    Corrector(0)
  }

  /** The first visibility test: the top edge is inside the viewport and the bottom edge is
      below its top. */
  predicate InView(r: Rect, innerHeight: int) {
    r.top >= 0 && r.top < innerHeight && r.bottom > 0
  }

  /** The test after the corrective scroll, which has no condition on the bottom edge. */
  predicate InViewAfterCorrection(r: Rect, innerHeight: int) {
    r.top >= 0 && r.top < innerHeight
  }

  /** `verifyTargetInView(targetId)` against the given observation. */
  function VerifyTargetInView(c: Corrector, targetId: string, obs: Observation, innerHeight: int)
    : (res: (Corrector, Verification))
    requires Valid(c)
    ensures Valid(res.0)
    ensures res.1.expected == targetId
    ensures obs.Missing? ==> res.0 == c && res.1 == Verification(false, targetId, None, false)
    ensures obs.Present? && InView(obs.before, innerHeight) ==>
      res.0.retryCount == 0 && res.1 == Verification(true, targetId, Some(targetId), false)
    ensures obs.Present? && !InView(obs.before, innerHeight) && c.retryCount < MaxRetries ==>
      && res.0.retryCount == c.retryCount + 1
      && res.1.correctionApplied
      && (res.1.success <==> InViewAfterCorrection(obs.after, innerHeight))
    ensures obs.Present? && !InView(obs.before, innerHeight) && c.retryCount >= MaxRetries ==>
      res.0 == c && res.1 == Verification(false, targetId, Some(MaxRetriesExceeded), false)
  {
    match obs
    case Missing => (c, Verification(false, targetId, None, false))
    case Present(before, after) =>
      if InView(before, innerHeight) then
        (Corrector(0), Verification(true, targetId, Some(targetId), false))
      else if c.retryCount < MaxRetries then
        var nowInView := InViewAfterCorrection(after, innerHeight);
        (Corrector(c.retryCount + 1),
         Verification(nowInView, targetId, Some(if nowInView then targetId else StillOutOfView), true))
      else
        (c, Verification(false, targetId, Some(MaxRetriesExceeded), false))
  }

  /** `verifyDOMChange(selector, attribute, expected)`; `element` is the attribute map of the
      element the selector finds, if any. */
  function VerifyDOMChange(element: Option<map<string, string>>, attribute: string, expectedValue: string)
    : (v: Verification)
    ensures v.expected == expectedValue && !v.correctionApplied
    ensures element.None? ==> v.actual.None? && !v.success
    ensures element.Some? ==> (v.actual.Some? <==> attribute in element.value)
  {
    match element
    case None => Verification(false, expectedValue, None, false)
    case Some(attrs) =>
      var actual := if attribute in attrs then Some(attrs[attribute]) else None;
      Verification(actual == Some(expectedValue), expectedValue, actual, false)
  }

  /** `reset()` */
  function Reset(c: Corrector): (c': Corrector)
    ensures Valid(c') && c'.retryCount == 0
  {
    Corrector(0)
  }

  // ---------------------------------------------------------------------------
  // Properties

  /** A reported success always names the target as the actual element, and a missing
      element is the only way to get no actual value at all. */
  lemma VerificationConsistent(c: Corrector, targetId: string, obs: Observation, innerHeight: int)
    requires Valid(c)
    ensures var v := VerifyTargetInView(c, targetId, obs, innerHeight).1;
      && (v.success ==> v.actual == Some(targetId))
      && (v.actual.None? <==> obs.Missing?)
      && (v.correctionApplied ==> obs.Present? && c.retryCount < MaxRetries)
  {
  }

  /** An attribute check succeeds exactly when the element exists and carries the expected
      value. */
  lemma DomChangeSucceedsIff(element: Option<map<string, string>>, attribute: string, expectedValue: string)
    ensures VerifyDOMChange(element, attribute, expectedValue).success <==>
      element.Some? && attribute in element.value && element.value[attribute] == expectedValue
  {
  }

  /** A sequence of visibility checks against one target, with one observation per call. */
  function VerifyAll(c: Corrector, targetId: string, obs: seq<Observation>, innerHeight: int)
    : (res: (Corrector, seq<Verification>))
    requires Valid(c)
    ensures Valid(res.0) && |res.1| == |obs|
    decreases |obs|
  {
    if obs == [] then (c, [])
    else
      var (c1, v) := VerifyTargetInView(c, targetId, obs[0], innerHeight);
      var (c2, vs) := VerifyAll(c1, targetId, obs[1..], innerHeight);
      (c2, [v] + vs)
  }

  /** An element that is there but never in view. */
  predicate NeverInView(obs: seq<Observation>, innerHeight: int) {
    forall i :: 0 <= i < |obs| ==>
      obs[i].Present? && !InView(obs[i].before, innerHeight) && !InViewAfterCorrection(obs[i].after, innerHeight)
  }

  /** A target that never comes into view is corrected exactly while the retry budget lasts;
      every later check reports the exhausted budget without scrolling. Since a successful
      correction does not reset the counter, this is a budget per corrector, not per target. */
  lemma {:induction false} RetryBudget(c: Corrector, targetId: string, obs: seq<Observation>, innerHeight: int)
    requires Valid(c) && NeverInView(obs, innerHeight)
    ensures var (c', vs) := VerifyAll(c, targetId, obs, innerHeight);
      && (forall i :: 0 <= i < |vs| ==> !vs[i].success)
      && (forall i :: 0 <= i < |vs| ==> (vs[i].correctionApplied <==> c.retryCount + i < MaxRetries))
      && (forall i :: 0 <= i < |vs| && c.retryCount + i >= MaxRetries ==> vs[i].actual == Some(MaxRetriesExceeded))
      && c'.retryCount == if c.retryCount + |obs| < MaxRetries then c.retryCount + |obs| else MaxRetries
    decreases |obs|
  {
    if obs != [] {
      var (c1, v) := VerifyTargetInView(c, targetId, obs[0], innerHeight);
      assert NeverInView(obs[1..], innerHeight) by {
        forall i | 0 <= i < |obs[1..]| ensures obs[1..][i] == obs[i + 1] { }
      }
      RetryBudget(c1, targetId, obs[1..], innerHeight);
      var (c2, vs) := VerifyAll(c1, targetId, obs[1..], innerHeight);
      assert VerifyAll(c, targetId, obs, innerHeight) == (c2, [v] + vs);
      assert c1.retryCount == if c.retryCount < MaxRetries then c.retryCount + 1 else c.retryCount;
    }
  }
}
