/** The narrative engine's decision logic: which source answers — the client-side model, the
    server endpoint, or the fallback — and the mock stream's five-character chunking. The
    model and the endpoint are oracles whose replies are inputs; a model call may reject, and
    that rejection is not caught. */
module NarrativeEngine {
  import opened Common

  const DefaultPersona: string := "helpful guide"
  const DefaultAnswerContext: string := "General Framework Knowledge"

  /** The engine's configuration: whether a model instance is set and the endpoint, absent
      when it is empty or unset. */
  datatype Config = Config(hasModel: bool, apiEndpoint: Option<string>, persona: string)

  /** What the model is asked; the prompt text around these fields is fixed. */
  datatype Request =
    | NarrativeRequest(persona: string, context: string)
    | AnswerRequest(context: string, question: string)

  /** The outcome of the `fetch` call to the endpoint. */
  datatype FetchOutcome = Threw | Response(ok: bool, body: Option<string>)

  /** Where a narrative stream comes from. `ModelFailed` is a `streamText` call that rejected
      after the request was sent, and `Rejected` the propagated fetch failure; neither is
      caught, so both reject the returned promise. */
  datatype StreamSource =
    | ModelStream(request: Request)
    | ModelFailed(request: Request)
    | EndpointStream
    | MockStream(chunks: seq<string>)
    | Rejected

  /** `persona || this.config.persona || 'helpful guide'` */
  function ResolvePersona(cfg: Config, persona: string): (p: string)
    ensures Truthy(p)
  {
    if Truthy(persona) then persona else if Truthy(cfg.persona) then cfg.persona else DefaultPersona
  }

  /** `generateNarrative(contextText, persona)`; `model` is the text the model returns for a
      request, `None` when `generateText` rejects, and `fetched` the endpoint's outcome. The
      result is `None` when the returned promise rejects. */
  function GenerateNarrative(cfg: Config, contextText: string, persona: string,
                             model: Request -> Option<string>, fetched: FetchOutcome): (text: Option<string>)
    ensures cfg.hasModel ==> text == model(NarrativeRequest(ResolvePersona(cfg, persona), contextText))
    ensures !cfg.hasModel ==> text.Some?
    ensures !cfg.hasModel && cfg.apiEndpoint.None? ==> text == Some(contextText)
  {
    if cfg.hasModel then model(NarrativeRequest(ResolvePersona(cfg, persona), contextText))
    else if cfg.apiEndpoint.Some? then
      match fetched
      case Response(true, body) =>
        var t := body.GetOr("");
        if Truthy(t) then Some(t) else Some(contextText)
      case _ => Some(contextText)
    else Some(contextText)
  }

  /** `generateAnswer(question, context)`; `None` when the returned promise rejects. */
  function GenerateAnswer(cfg: Config, question: string, context: Option<string>,
                          model: Request -> Option<string>, fetched: FetchOutcome): (text: Option<string>)
    ensures cfg.hasModel ==>
      text == model(AnswerRequest(if context.Some? && Truthy(context.value) then context.value else DefaultAnswerContext, question))
    ensures !cfg.hasModel ==> text.Some?
  {
    if cfg.hasModel then
      model(AnswerRequest(if context.Some? && Truthy(context.value) then context.value else DefaultAnswerContext, question))
    else if cfg.apiEndpoint.Some? && fetched.Response? && fetched.ok then
      Some(fetched.body.GetOr(""))
    else Some(FallbackAnswer(question))
  }

  function FallbackAnswer(question: string): string {
    "That's a great question about " + question + ". As an AI agent, I can help explain this section further."
  }

  /** `generateStream(contextText, persona)`; `modelFails` says whether `streamText` rejects. */
  function GenerateStream(cfg: Config, contextText: string, persona: string, modelFails: bool, fetched: FetchOutcome)
    : (src: StreamSource)
    ensures cfg.hasModel ==>
      (src.ModelStream? || src.ModelFailed?) && src.request == NarrativeRequest(ResolvePersona(cfg, persona), contextText)
  {
    if cfg.hasModel then
      var request := NarrativeRequest(ResolvePersona(cfg, persona), contextText);
      if modelFails then ModelFailed(request) else ModelStream(request)
    else if cfg.apiEndpoint.Some? then
      match fetched
      case Threw => Rejected
      case Response(ok, body) => if ok && body.Some? then EndpointStream else MockStream(MockChunks(contextText))
    else MockStream(MockChunks(contextText))
  }

  // ---------------------------------------------------------------------------
  // Fallback chains

  /** Without a model the narrative is the endpoint's non-empty reply, and otherwise — an
      empty reply, a failed response, a thrown error or no endpoint at all — the context text
      itself. */
  lemma NarrativeFallback(cfg: Config, contextText: string, persona: string,
                          model: Request -> Option<string>, fetched: FetchOutcome)
    requires !cfg.hasModel
    ensures var t := GenerateNarrative(cfg, contextText, persona, model, fetched).value;
      && (t != contextText ==>
            cfg.apiEndpoint.Some? && fetched.Response? && fetched.ok && fetched.body == Some(t) && t != "")
      && (cfg.apiEndpoint.Some? && fetched.Response? && fetched.ok && fetched.body.Some? && fetched.body.value != "" ==>
            t == fetched.body.value)
  {
  }

  /** Without a model, the body of an ok endpoint response is the answer, even when empty
      (a response without a body reads as empty text); every failure path ends in the template
      that embeds the question. */
  lemma AnswerFallback(cfg: Config, question: string, context: Option<string>,
                       model: Request -> Option<string>, fetched: FetchOutcome)
    requires !cfg.hasModel
    ensures var t := GenerateAnswer(cfg, question, context, model, fetched).value;
      && (cfg.apiEndpoint.Some? && fetched.Response? && fetched.ok ==> t == fetched.body.GetOr(""))
      && (cfg.apiEndpoint.None? || fetched.Threw? || (fetched.Response? && !fetched.ok) ==>
            t == FallbackAnswer(question))
  {
  }

  /** The stream prefers the model, then an ok endpoint response with a body, then the mock.
      Two failures escape: a rejecting model call, and a thrown endpoint error. */
  lemma StreamPreference(cfg: Config, contextText: string, persona: string, modelFails: bool, fetched: FetchOutcome)
    ensures var src := GenerateStream(cfg, contextText, persona, modelFails, fetched);
      && (src.ModelStream? <==> cfg.hasModel && !modelFails)
      && (src.ModelFailed? <==> cfg.hasModel && modelFails)
      && (src.Rejected? <==> !cfg.hasModel && cfg.apiEndpoint.Some? && fetched.Threw?)
      && (src.EndpointStream? <==>
            !cfg.hasModel && cfg.apiEndpoint.Some? && fetched.Response? && fetched.ok && fetched.body.Some?)
      && (src.MockStream? <==>
            !cfg.hasModel && (cfg.apiEndpoint.None? || (fetched.Response? && !(fetched.ok && fetched.body.Some?))))
      && (src.MockStream? ==> src.chunks == MockChunks(contextText))
  {
  }

  // ---------------------------------------------------------------------------
  // The mock chunker

  /** The number of characters `.{1,5}` takes at the start of `text`. */
  function LeadingRun(text: string, max: nat): (n: nat)
    ensures n <= max && n <= |text|
    ensures forall i :: 0 <= i < n ==> !IsLineTerminator(text[i])
    ensures n < max && n < |text| ==> IsLineTerminator(text[n])
  {
    if max == 0 || text == [] || IsLineTerminator(text[0]) then 0
    else 1 + LeadingRun(text[1..], max - 1)
  }

  /** `text.match(/.{1,5}/g) || []`: the global match scans left to right, skipping each line
      terminator (which `.` refuses) and taking up to five characters at a time. */
  function MockChunks(text: string): (chunks: seq<string>)
    ensures forall i :: 0 <= i < |chunks| ==> 1 <= |chunks[i]| <= 5
    ensures forall i, j :: 0 <= i < |chunks| && 0 <= j < |chunks[i]| ==> !IsLineTerminator(chunks[i][j])
    decreases |text|
  {
    if text == [] then []
    else if IsLineTerminator(text[0]) then MockChunks(text[1..])
    else
      var n := LeadingRun(text, 5);
      [text[..n]] + MockChunks(text[n..])
  }

  /** The text without its line terminators: what the chunks add up to. */
  function WithoutLineTerminators(text: string): (r: string)
    ensures |r| <= |text|
  {
    if text == [] then []
    else (if IsLineTerminator(text[0]) then [] else [text[0]]) + WithoutLineTerminators(text[1..])
  }

  lemma {:induction false} WithoutLineTerminatorsAppend(a: string, b: string)
    ensures WithoutLineTerminators(a + b) == WithoutLineTerminators(a) + WithoutLineTerminators(b)
    decreases |a|
  {
    if a == [] {
      assert a + b == b;
    } else {
      assert (a + b)[1..] == a[1..] + b;
      WithoutLineTerminatorsAppend(a[1..], b);
    }
  }

  lemma {:induction false} WithoutLineTerminatorsClean(a: string)
    requires forall i :: 0 <= i < |a| ==> !IsLineTerminator(a[i])
    ensures WithoutLineTerminators(a) == a
    decreases |a|
  {
    if a != [] {
      WithoutLineTerminatorsClean(a[1..]);
    }
  }

  /** Concatenated, the chunks are exactly the text with its line terminators removed:
      nothing is lost, repeated or reordered. */
  lemma {:induction false} MockChunksCover(text: string)
    ensures Concat(MockChunks(text)) == WithoutLineTerminators(text)
    decreases |text|
  {
    if text != [] {
      if IsLineTerminator(text[0]) {
        MockChunksCover(text[1..]);
      } else {
        var n := LeadingRun(text, 5);
        assert text == text[..n] + text[n..];
        MockChunksCover(text[n..]);
        WithoutLineTerminatorsAppend(text[..n], text[n..]);
        WithoutLineTerminatorsClean(text[..n]);
        assert MockChunks(text) == [text[..n]] + MockChunks(text[n..]);
        assert Concat(MockChunks(text)) == text[..n] + Concat(MockChunks(text[n..]));
      }
    }
  }

  /** Text without line terminators is cut into chunks of exactly five characters, and a
      shorter last one. */
  lemma {:induction false} MockChunksFull(text: string)
    requires forall i :: 0 <= i < |text| ==> !IsLineTerminator(text[i])
    ensures var chunks := MockChunks(text);
      && Concat(chunks) == text
      && (forall i :: 0 <= i < |chunks| - 1 ==> |chunks[i]| == 5)
      && |chunks| == (|text| + 4) / 5
    decreases |text|
  {
    MockChunksCover(text);
    WithoutLineTerminatorsClean(text);
    if text != [] {
      var n := LeadingRun(text, 5);
      assert n == if |text| < 5 then |text| else 5;
      MockChunksFull(text[n..]);
      assert MockChunks(text) == [text[..n]] + MockChunks(text[n..]);
    }
  }

  /** Empty text gives no chunks at all. */
  lemma MockChunksEmpty()
    ensures MockChunks("") == []
  {
  }
}
