/**
 * `generateResult`: wrap the caller's prompt in the fixed instruction, ask
 * the text-generation provider for a completion, normalise the reply, and
 * hand back either the parsed reply or one of two fallback envelopes.
 *
 * The provider call and `JSON.parse` are parameters: `provider` maps the
 * request text to the call's outcome, `parse` maps a text to the JSON value
 * it denotes, or `None` where `JSON.parse` throws. The instruction's wording
 * is a parameter too.
 */
module AiService {
  import opened Wrappers
  import opened StringOps
  import opened Fences
  import opened Json

  // ---------------------------------------------------------------------------
  // Request assembly
  // ---------------------------------------------------------------------------

  /** The text between the instruction and the caller's prompt. */
  const RequestDelimiter: string := "\n\nUSER REQUEST:\n"

  /** Everything the request holds before the caller's prompt. */
  function RequestHead(instruction: string): (h: string)
    ensures |h| == |instruction| + 17
  {
    "\n" + instruction + RequestDelimiter
  }

  /**
   * The `structuredPrompt` template: a newline, the instruction, the
   * delimiter, the prompt verbatim and a final newline.
   */
  function BuildRequest(instruction: string, prompt: string): (r: string)
    ensures |r| == |instruction| + |prompt| + 18
    ensures StartsWith(r, RequestHead(instruction))
    ensures r[1..|instruction| + 1] == instruction
    ensures r[|r| - |prompt| - 1..] == prompt + "\n"
  {
    var r := RequestHead(instruction) + prompt + "\n";
    assert r[..|RequestHead(instruction)|] == RequestHead(instruction);
    assert r[|r| - |prompt| - 1..] == prompt + "\n";
    r
  }

  /** Recovers the prompt from a request assembled for `instruction`, if it is one. */
  function ExtractPrompt(instruction: string, request: string): Option<string> {
    var head := RequestHead(instruction);
    if |request| >= |head| + 1 && StartsWith(request, head) && request[|request| - 1] == '\n'
    then Some(request[|head|..|request| - 1])
    else None
  }

  /**
   * The prompt travels verbatim: a request yields `prompt` back exactly
   * when it is the request assembled from `prompt`.
   */
  lemma PromptRecoverable(instruction: string, prompt: string, request: string)
    ensures ExtractPrompt(instruction, request) == Some(prompt) <==> request == BuildRequest(instruction, prompt)
  {
    var head := RequestHead(instruction);
    if request == BuildRequest(instruction, prompt) {
      assert request[|head|..|request| - 1] == prompt;
    }
    if ExtractPrompt(instruction, request) == Some(prompt) {
      assert request == request[..|head|] + request[|head|..|request| - 1] + [request[|request| - 1]];
    }
  }

  /** Distinct prompts give distinct requests: nothing of the prompt is lost. */
  lemma BuildRequestInjective(instruction: string, p1: string, p2: string)
    requires BuildRequest(instruction, p1) == BuildRequest(instruction, p2)
    ensures p1 == p2
  {
    PromptRecoverable(instruction, p1, BuildRequest(instruction, p1));
    PromptRecoverable(instruction, p2, BuildRequest(instruction, p2));
  }

  // ---------------------------------------------------------------------------
  // Reply normalisation
  // ---------------------------------------------------------------------------

  /**
   * `response.text?.trim() || ""`: a missing reply is empty, a present one
   * is trimmed (an empty trim result falls back to "", which it already is).
   */
  function TrimmedReply(reply: Option<string>): (t: string)
    ensures NoOuterSpace(t)
  {
    match reply
    case None => ""
    case Some(text) => Trim(text)
  }

  /**
   * The reply after markdown wrapping is removed: when the trimmed reply
   * starts with a fence, every "```json" and "```" goes and the rest is
   * trimmed again.
   */
  function NormalizeReply(reply: Option<string>): (r: string)
    ensures NoOuterSpace(r)
  {
    var t := TrimmedReply(reply);
    if StartsWith(t, Fence) then Trim(StripFences(t)) else t
  }

  /** A missing or whitespace-only reply normalises to the empty text. */
  lemma NormalizeBlankReply(reply: Option<string>)
    requires reply.None? || AllWhitespace(reply.value)
    ensures NormalizeReply(reply) == ""
  {
    if reply.Some? {
      TrimEmptyIffBlank(reply.value);
    }
  }

  /** Without a leading fence the trimmed reply is returned as it is, backticks inside included. */
  lemma NormalizeUnfenced(text: string)
    requires !StartsWith(Trim(text), Fence)
    ensures NormalizeReply(Some(text)) == Trim(text)
  {
  }

  /** A fence other than at the start survives normalisation. */
  lemma NormalizeKeepsInnerFence()
    ensures NormalizeReply(Some(" a```b\n")) == "a```b"
  {
    var t := "a```b";
    assert NoOuterSpace(t);
    assert " a```b\n" == [' '] + t + ['\n'];
    TrimWrapped(' ', t, '\n');
    assert t[..|Fence|] != Fence;
  }

  /**
   * In the fence branch no "```" is left, and the result only deletes
   * characters of the trimmed reply.
   */
  lemma NormalizeFenced(text: string)
    requires StartsWith(Trim(text), Fence)
    ensures !Contains(NormalizeReply(Some(text)), Fence)
    ensures IsSubsequence(NormalizeReply(Some(text)), Trim(text))
  {
    assert NormalizeReply(Some(text)) == Trim(StripFences(Trim(text)));
    TrimmedStripAvoidsFence(Trim(text));
    TrimmedStripIsSubsequence(Trim(text));
  }

  /** Whatever the branch, the normalised text does not start with a fence. */
  lemma NormalizeNoLeadingFence(reply: Option<string>)
    ensures !StartsWith(NormalizeReply(reply), Fence)
  {
    var t := TrimmedReply(reply);
    if StartsWith(t, Fence) {
      NormalizeFenced(reply.value);
      assert OccursAt(NormalizeReply(reply), Fence, 0) ==> Contains(NormalizeReply(reply), Fence);
    }
  }

  /** Normalising an already normalised text changes nothing. */
  lemma NormalizeIdempotent(reply: Option<string>)
    ensures NormalizeReply(Some(NormalizeReply(reply))) == NormalizeReply(reply)
  {
    var r := NormalizeReply(reply);
    TrimTrimmed(r);
    NormalizeNoLeadingFence(reply);
  }

  /** Text enclosed in "```json" and "```" is already trimmed and starts with a fence. */
  lemma JsonFencedTrimmed(b: string)
    ensures Trim(JsonFence + b + Fence) == JsonFence + b + Fence
    ensures StartsWith(JsonFence + b + Fence, Fence)
  {
    var s := JsonFence + b + Fence;
    assert s[0] == '`' && s[|s| - 1] == '`';
    assert s[..|Fence|] == Fence;
    TrimTrimmed(s);
  }

  /**
   * A reply made of "```json", a body containing no "```" and a closing
   * "```" normalises to the trimmed body: the tag goes with the opening
   * fence, the closing fence is removed, and single or double backticks in
   * the body (inline code) are kept.
   */
  lemma NormalizeJsonFenced(b: string)
    requires !Contains(b, Fence)
    ensures NormalizeReply(Some(JsonFence + b + Fence)) == Trim(b)
  {
    var s := JsonFence + b + Fence;
    JsonFencedTrimmed(b);
    assert s == JsonFence + (b + Fence);
    StripTakesJsonFenceWhole(b + Fence);
    StripBodyThenFence(b);
  }

  /** The sample reply is a body without fences between "```json" and "```". */
  lemma JsonFenceSampleSplit()
    ensures JsonFence + "\n{\"text\":\"hi\"}\n" + Fence == "```json\n{\"text\":\"hi\"}\n```"
    ensures !Contains("\n{\"text\":\"hi\"}\n", Fence)
  {
    assert JsonFence + "\n{\"text\":\"hi\"}\n" + Fence == "```json" + "\n{\"text\":\"hi\"}\n" + "```";
    BacktickFreeAvoidsFence("\n{\"text\":\"hi\"}\n");
  }

  /** Trimming the sample's body leaves its JSON text. */
  lemma JsonFenceSampleBody()
    ensures Trim("\n{\"text\":\"hi\"}\n") == "{\"text\":\"hi\"}"
  {
    var t := "{\"text\":\"hi\"}";
    assert NoOuterSpace(t);
    assert "\n{\"text\":\"hi\"}\n" == ['\n'] + t + ['\n'];
    TrimWrapped('\n', t, '\n');
  }

  /** A reply wrapped in a json-tagged fence is unwrapped to the bare JSON text, tag and all removed. */
  lemma NormalizeJsonFenceExample()
    ensures NormalizeReply(Some("```json\n{\"text\":\"hi\"}\n```")) == "{\"text\":\"hi\"}"
  {
    JsonFenceSampleSplit();
    JsonFenceSampleBody();
    NormalizeJsonFenced("\n{\"text\":\"hi\"}\n");
  }

  // ---------------------------------------------------------------------------
  // Result selection
  // ---------------------------------------------------------------------------

  /** The outcome of the provider call: it threw, or it answered with an optional text. */
  datatype ProviderOutcome = Failed | Reply(text: Option<string>)

  /** The three terminal states of a call. */
  datatype Envelope = Parsed(value: Json) | Unparsed(text: string) | RequestFailed

  /**
   * The try/catch choice: a failed call gives `RequestFailed`; otherwise
   * the normalised reply is parsed, and kept as text when it does not parse.
   */
  function Select(outcome: ProviderOutcome, parse: string -> Option<Json>): (e: Envelope)
    ensures e.RequestFailed? <==> outcome.Failed?
    ensures e.Parsed? ==> parse(NormalizeReply(outcome.text)) == Some(e.value)
    ensures e.Unparsed? ==> e.text == NormalizeReply(outcome.text) && parse(e.text) == None
  {
    match outcome
    case Failed => RequestFailed
    case Reply(text) =>
      var normalized := NormalizeReply(text);
      match parse(normalized)
      case Some(v) => Parsed(v)
      case None => Unparsed(normalized)
  }

  /**
   * The value handed to `JSON.stringify`: the parsed reply itself, or a
   * fallback envelope in which `error: true` is present exactly for a
   * failed request.
   */
  function Render(e: Envelope): (j: Json)
    ensures e.Parsed? ==> j == e.value
    ensures !e.Parsed? ==> Get(j, "fileTree") == Some(EmptyObject)
    ensures !e.Parsed? ==> Get(j, "buildCommand") == Some(EmptyObject)
    ensures !e.Parsed? ==> Get(j, "startCommand") == Some(EmptyObject)
    ensures e.Unparsed? ==> Get(j, "text") == Some(JString(e.text))
    ensures e.Unparsed? ==> Get(j, "error") == None
    ensures e.RequestFailed? ==> Get(j, "text") == Some(JString(FailureMessage))
    ensures !e.Parsed? ==> (Get(j, "error") == Some(JBool(true)) <==> e.RequestFailed?)
  {
    match e
    case Parsed(v) => v
    case Unparsed(text) => UnparsedFallback(text)
    case RequestFailed => FailureEnvelope()
  }

  /**
   * `generateResult(prompt)`, up to the final `JSON.stringify`: a failed
   * call gives the failure envelope; otherwise the normalised reply's parse
   * is returned when there is one, and the unparsed fallback carrying the
   * normalised reply when there is none.
   */
  function GenerateResult(
    instruction: string, prompt: string,
    provider: string -> ProviderOutcome, parse: string -> Option<Json>): (r: Json)
    ensures var outcome := provider(BuildRequest(instruction, prompt));
      outcome.Failed? ==> r == FailureEnvelope()
    ensures var outcome := provider(BuildRequest(instruction, prompt));
      outcome.Reply? && parse(NormalizeReply(outcome.text)).Some? ==>
        r == parse(NormalizeReply(outcome.text)).value
    ensures var outcome := provider(BuildRequest(instruction, prompt));
      outcome.Reply? && parse(NormalizeReply(outcome.text)).None? ==>
        r == UnparsedFallback(NormalizeReply(outcome.text))
  {
    Render(Select(provider(BuildRequest(instruction, prompt)), parse))
  }

  /**
   * A missing or blank reply becomes the unparsed fallback with empty text
   * and no `error` member, given only that the empty text does not parse.
   */
  lemma ResultOnBlankReply(
    instruction: string, prompt: string,
    provider: string -> ProviderOutcome, parse: string -> Option<Json>)
    requires parse("") == None
    requires provider(BuildRequest(instruction, prompt)).Reply?
    requires var reply := provider(BuildRequest(instruction, prompt)).text;
      reply.None? || AllWhitespace(reply.value)
    ensures GenerateResult(instruction, prompt, provider, parse) == UnparsedFallback("")
    ensures Get(GenerateResult(instruction, prompt, provider, parse), "error") == None
  {
    NormalizeBlankReply(provider(BuildRequest(instruction, prompt)).text);
  }

  /**
   * A reply of "```json", a body containing no "```" and a closing "```",
   * whose trimmed body parses, yields that parsed value, untouched by the
   * fences.
   */
  lemma ResultOnFencedReply(
    instruction: string, prompt: string,
    provider: string -> ProviderOutcome, parse: string -> Option<Json>,
    b: string, v: Json)
    requires !Contains(b, Fence)
    requires provider(BuildRequest(instruction, prompt)) == Reply(Some(JsonFence + b + Fence))
    requires parse(Trim(b)) == Some(v)
    ensures GenerateResult(instruction, prompt, provider, parse) == v
  {
    NormalizeJsonFenced(b);
  }
}
