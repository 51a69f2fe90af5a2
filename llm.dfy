/** The extraction client of src/extractor/llm.py. The two backend calls and `json.loads`
    are opaque: they are the fields of `Backends`, so every property below holds whatever
    the services answer. */
module Llm {
  import opened Wrappers
  import opened Text
  import opened CardId
  import opened Models

  datatype Provider = Gemini | OpenAI

  /** The outside world one extraction talks to. */
  datatype Backends = Backends(
    generate: string -> Result<string, string>,   // Gemini: prompt to reply text, or the raised error
    loads: string -> Option<Json>,                // json.loads: None where it raises
    complete: string -> Result<CreditCard, string>, // OpenAI structured output: user message to parsed card
    floatOf: FloatParser)                         // Python's float() on strings

  datatype ExtractError = ApiError(message: string) | JsonError | InvalidRecord(reason: ValidationError)

  /** Longest prefix of the page text that is sent to either backend. */
  const MaxChars: nat := 15000

  /** `markdown[:15000]`. */
  function Truncate(markdown: string): (sent: string)
    ensures |sent| == if |markdown| < MaxChars then |markdown| else MaxChars
    ensures sent == markdown[..|sent|]
  {
    if |markdown| <= MaxChars then markdown else markdown[..MaxChars]
  }

  /** The Gemini prompt: a fixed lead-in, then the first at most 15000 characters. */
  function GeminiPrompt(markdown: string): (prompt: string)
    ensures |prompt| - 9 == if |markdown| < MaxChars then |markdown| else MaxChars
    ensures prompt == "Content:\n" + markdown[..|prompt| - 9]
  {
    "Content:\n" + Truncate(markdown)
  }

  /** The OpenAI user message: a fixed lead-in, then the first at most 15000 characters. */
  function OpenAIUserMessage(markdown: string): (message: string)
    ensures |message| - 15 == if |markdown| < MaxChars then |markdown| else MaxChars
    ensures message == "Extract from:\n\n" + markdown[..|message| - 15]
  {
    "Extract from:\n\n" + Truncate(markdown)
  }

  /** Three backticks start at index `i`. */
  predicate FenceAt(s: string, i: nat) {
    i + 3 <= |s| && s[i..i + 3] == "```"
  }

  /** First fence at or after `from`. */
  function FindFence(s: string, from: nat): (r: Option<nat>)
    decreases |s| - from
    ensures r.Some? ==> from <= r.value && FenceAt(s, r.value)
    ensures r.Some? ==> forall k :: from <= k < r.value ==> !FenceAt(s, k)
    ensures r.None? ==> forall k :: from <= k ==> !FenceAt(s, k)
  {
    if from + 3 > |s| then None
    else if FenceAt(s, from) then Some(from)
    else FindFence(s, from + 1)
  }

  /** `text.split('```')[1]` for a text that starts with a fence: what lies between the
      opening fence and the next one, or up to the end when there is no closing fence.
      Since the text starts with a fence, the split always has a second piece. */
  function FencedBody(text: string): (body: string)
    requires FenceAt(text, 0)
    ensures 3 + |body| <= |text| && body == text[3..3 + |body|]
    ensures forall k :: 3 <= k < 3 + |body| ==> !FenceAt(text, k)
    ensures 3 + |body| == |text| || FenceAt(text, 3 + |body|)
  {
    match FindFence(text, 3)
    case Some(j) => text[3..j]
    case None => text[3..]
  }

  function StartsWithJsonTag(s: string): (tagged: bool) {
    |s| >= 4 && s[..4] == "json"
  }

  /** The text `_extract_with_gemini` hands to `json.loads`: always one contiguous piece
      of the reply, so the cleanup only cuts and never adds or reorders. */
  function CleanReply(reply: string): (cleaned: string)
    ensures IsSliceOf(cleaned, reply)
  {
    var text := Strip(reply);
    TrimIsSlice(reply, IsSpace);
    if !FenceAt(text, 0) then text
    else
      var body := FencedBody(text);
      assert IsSliceOf(body, text);
      SliceOfSlice(body, text, reply);
      if StartsWithJsonTag(body) then
        SuffixIsSlice(body, 4);
        SliceOfSlice(body[4..], body, reply);
        TrimIsSlice(body[4..], IsSpace);
        SliceOfSlice(Strip(body[4..]), body[4..], reply);
        Strip(body[4..])
      else body
  }

  /** A reply that does not start with a fence (after stripping) is parsed as it is. */
  lemma UnfencedReply(reply: string)
    requires !FenceAt(Strip(reply), 0)
    ensures CleanReply(reply) == Strip(reply)
  {
  }

  /** A fenced reply without a `json` tag yields exactly the fence body, unstripped. */
  lemma FencedReplyWithoutTag(reply: string)
    requires FenceAt(Strip(reply), 0) && !StartsWithJsonTag(FencedBody(Strip(reply)))
    ensures CleanReply(reply) == FencedBody(Strip(reply))
    ensures forall k :: 3 <= k < 3 + |CleanReply(reply)| ==> !FenceAt(Strip(reply), k)
  {
  }

  /** A fenced reply whose body starts with `json` loses those four letters, and whatever
      follows them is stripped, whether or not a newline comes next. */
  lemma FencedReplyWithTag(reply: string)
    requires FenceAt(Strip(reply), 0) && StartsWithJsonTag(FencedBody(Strip(reply)))
    ensures CleanReply(reply) == Strip(FencedBody(Strip(reply))[4..])
    ensures FencedBody(Strip(reply))[..4] == "json"
  {
  }

  /** A JSON body wrapped in a fence with a `json` tag reaches the parser exactly as the bare
      body would: for any body without backticks and without surrounding whitespace. */
  lemma JsonFenceRoundTrip(x: string)
    requires forall k :: 0 <= k < |x| ==> x[k] != '`'
    requires x == [] || (!IsSpace(x[0]) && !IsSpace(x[|x| - 1]))
    ensures CleanReply("```json\n" + x + "\n```") == x
    ensures CleanReply(x) == x
  {
    var reply := "```json\n" + x + "\n```";
    ReplyEndsInFences(x);
    JsonReplyBody(x);
    TaggedBodyStrips(x);
    assert CleanReply(reply) == Strip(FencedBody(reply)[4..]);
    BareBody(x);
  }

  lemma ReplyEndsInFences(x: string)
    ensures Strip("```json\n" + x + "\n```") == "```json\n" + x + "\n```"
  {
    var reply := "```json\n" + x + "\n```";
    assert reply[0] == '`' && reply[|reply| - 1] == '`';
    TrimUnchanged(reply, IsSpace);
  }

  lemma TaggedBodyStrips(x: string)
    requires x == [] || (!IsSpace(x[0]) && !IsSpace(x[|x| - 1]))
    ensures StartsWithJsonTag("json\n" + x + "\n")
    ensures Strip(("json\n" + x + "\n")[4..]) == x
  {
    var body := "json\n" + x + "\n";
    assert body[..4] == "json";
    assert body[4..] == "\n" + x + "\n";
    TrimPadded("\n", x, "\n", IsSpace);
  }

  lemma BareBody(x: string)
    requires forall k :: 0 <= k < |x| ==> x[k] != '`'
    requires x == [] || (!IsSpace(x[0]) && !IsSpace(x[|x| - 1]))
    ensures CleanReply(x) == x
  {
    TrimUnchanged(x, IsSpace);
    assert !FenceAt(x, 0) by { if |x| >= 3 { assert x[..3][0] == x[0] != '`'; } }
  }

  /** The fence body of a tagged reply is the tag line, the body and the closing newline. */
  lemma JsonReplyBody(x: string)
    requires forall k :: 0 <= k < |x| ==> x[k] != '`'
    ensures FenceAt("```json\n" + x + "\n```", 0)
    ensures FencedBody("```json\n" + x + "\n```") == "json\n" + x + "\n"
  {
    var reply := "```json\n" + x + "\n```";
    assert |reply| == 12 + |x|;
    assert reply[..3] == "```";
    forall k | 3 <= k < 9 + |x| ensures !FenceAt(reply, k) {
      assert reply[k] != '`' by {
        if 8 <= k < 8 + |x| { assert reply[k] == x[k - 8]; }
      }
      if k + 3 <= |reply| { assert reply[k..k + 3][0] == reply[k]; }
    }
    assert FenceAt(reply, 9 + |x|) by { assert reply[9 + |x|..12 + |x|] == "```"; }
    var r := FindFence(reply, 3);
    assert r == Some(9 + |x|);
    assert reply[3..9 + |x|] == "json\n" + x + "\n";
  }

  /** `_extract_with_gemini`: an error raised by the call, by `json.loads` or by the record
      construction, in that order; otherwise the card built from the cleaned reply. */
  function ExtractWithGemini(markdown: string, b: Backends): (r: Result<CreditCard, ExtractError>)
    ensures var call := b.generate(GeminiPrompt(markdown));
      call.Failure? ==> r == Failure(ApiError(call.error))
    ensures var call := b.generate(GeminiPrompt(markdown));
      r == Failure(JsonError) <==> call.Success? && b.loads(CleanReply(call.value)).None?
    ensures var call := b.generate(GeminiPrompt(markdown));
      r.Success? ==>
        call.Success? && b.loads(CleanReply(call.value)).Some?
        && ParseCard(b.loads(CleanReply(call.value)).value, b.floatOf) == Success(r.value)
    ensures var call := b.generate(GeminiPrompt(markdown));
      call.Success? && b.loads(CleanReply(call.value)).Some?
      && ParseCard(b.loads(CleanReply(call.value)).value, b.floatOf).Success? ==>
        r == Success(ParseCard(b.loads(CleanReply(call.value)).value, b.floatOf).value)
    ensures var call := b.generate(GeminiPrompt(markdown));
      r.Failure? && r.error.InvalidRecord? <==>
        call.Success? && b.loads(CleanReply(call.value)).Some?
        && ParseCard(b.loads(CleanReply(call.value)).value, b.floatOf).Failure?
    ensures var call := b.generate(GeminiPrompt(markdown));
      r.Failure? && r.error.InvalidRecord? ==>
        r.error.reason == ParseCard(b.loads(CleanReply(call.value)).value, b.floatOf).error
  {
    match b.generate(GeminiPrompt(markdown))
    case Failure(e) => Failure(ApiError(e))
    case Success(reply) =>
      match b.loads(CleanReply(reply))
      case None => Failure(JsonError)
      case Some(data) =>
        match ParseCard(data, b.floatOf)
        case Failure(e) => Failure(InvalidRecord(e))
        case Success(card) => Success(card)
  }

  /** The `id` backfill of `_extract_with_openai`: an empty id or the placeholder "string" is
      replaced by the slug of bank and name; nothing else changes. */
  function BackfillId(card: CreditCard): (r: CreditCard)
    ensures r == card.(id := r.id)
    ensures card.id == "" || card.id == "string" ==> r.id == GenerateCardId(card.bank, card.name)
    ensures card.id != "" && card.id != "string" ==> r.id == card.id
  {
    if card.id == "" || card.id == "string" then card.(id := GenerateCardId(card.bank, card.name)) else card
  }

  /** Backfilling twice is backfilling once. */
  lemma BackfillIdempotent(card: CreditCard)
    ensures BackfillId(BackfillId(card)) == BackfillId(card)
  {
  }

  /** `_extract_with_openai`. */
  function ExtractWithOpenAI(markdown: string, b: Backends): (r: Result<CreditCard, ExtractError>)
    ensures b.complete(OpenAIUserMessage(markdown)).Failure? <==> r.Failure?
    ensures r.Success? ==> r.value == BackfillId(b.complete(OpenAIUserMessage(markdown)).value)
    ensures r.Failure? ==> r.error == ApiError(b.complete(OpenAIUserMessage(markdown)).error)
  {
    match b.complete(OpenAIUserMessage(markdown))
    case Failure(e) => Failure(ApiError(e))
    case Success(card) => Success(BackfillId(card))
  }

  /** `extract_data`: GEMINI takes the Gemini path and every other provider the OpenAI path,
      where the only failure is the service call's. */
  function ExtractData(markdown: string, provider: Provider, b: Backends): (r: Result<CreditCard, ExtractError>)
    ensures provider == Gemini ==> r == ExtractWithGemini(markdown, b)
    ensures provider != Gemini ==> r == ExtractWithOpenAI(markdown, b)
    ensures provider != Gemini && r.Failure? ==> r.error.ApiError?
  {
    if provider == Gemini then ExtractWithGemini(markdown, b) else ExtractWithOpenAI(markdown, b)
  }

  /** Both backends see the same bounded prefix of the page text. */
  lemma PromptsCarryPrefix(markdown: string)
    ensures GeminiPrompt(markdown) == "Content:\n" + Truncate(markdown)
    ensures OpenAIUserMessage(markdown) == "Extract from:\n\n" + Truncate(markdown)
    ensures GeminiPrompt(markdown)[9..] == OpenAIUserMessage(markdown)[15..]
    ensures |markdown| > MaxChars ==> |Truncate(markdown)| == MaxChars
    ensures |markdown| <= MaxChars ==> Truncate(markdown) == markdown
  {
  }
}
