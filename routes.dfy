/**
 * Completion synthesis and dispatch: the non-streaming reply is the
 * response template with the corpus text and the token count filled in; the
 * streaming reply is a new session over the corpus. The corpus
 * (`TOKENIZED_OUTPUT`) is passed in as `corpus`.
 */
module Routes {
  import opened RustStd
  import opened Corpus
  import Stream

  datatype StreamOptions = StreamOptions(includeUsage: bool)

  /** The fields of a completion request the server looks at; others are ignored. */
  datatype Request = Request(
    maxTokens: Option<nat>,
    stream: Option<bool>,
    streamOptions: Option<StreamOptions>)

  // ---------------------------------------------------------------------
  // The response template
  // ---------------------------------------------------------------------

  // The serialised non-streaming response, field by field, up to its text ...
  const ResponseId: string := "{\"id\":\"chat-completion-000000000\","
  const ResponseObject: string := "\"object\":\"chat.completion\","
  const ResponseCreatedModel: string := "\"created\":0,\"model\":\"gpt-1-turbo\","
  const ResponseChoice: string := "\"choices\":[{\"index\":0,\"text\":\""
  const ResponseHead: string := ResponseId + ResponseObject + ResponseCreatedModel + ResponseChoice
  // ... from the text to the completion count ...
  const ResponseLogprobs: string := "\",\"logprobs\":null,"
  const ResponseFinishReason: string := "\"finish_reason\":\"length\"}],"
  const ResponseUsage: string := "\"usage\":{\"prompt_tokens\":0,"
  const ResponseCompletion: string := "\"completion_tokens\":"
  const ResponseMid: string := ResponseLogprobs + ResponseFinishReason + ResponseUsage + ResponseCompletion
  // ... between the two counts, and after them.
  const ResponseTotal: string := ",\"total_tokens\":"
  const ResponseEnd: string := "}}"

  const MaxTokensPlaceholder: string := "[MAX_TOKENS]"

  /**
   * The serialised response for `text` and a count of `maxTokens`: both
   * usage counts are the count cast to `i32`. The text is written as given
   * (JSON string escaping is not modelled).
   */
  function ResponseJson(text: string, maxTokens: nat): string {
    ResponseHead + text + ResponseMid + IntDec(AsI32(maxTokens))
      + ResponseTotal + IntDec(AsI32(maxTokens)) + ResponseEnd
  }

  /** Responses with the same count and different texts differ. */
  lemma ResponseJsonInjective(a: string, b: string, maxTokens: nat)
    requires ResponseJson(a, maxTokens) == ResponseJson(b, maxTokens)
    ensures a == b
  {
    var count := IntDec(AsI32(maxTokens));
    var tail := ResponseMid + count + ResponseTotal + count + ResponseEnd;
    Flatten(ResponseHead, a, ResponseMid, count, ResponseTotal, ResponseEnd);
    Flatten(ResponseHead, b, ResponseMid, count, ResponseTotal, ResponseEnd);
    TextBetween(ResponseHead, a, b, tail);
  }

  lemma Flatten(head: string, text: string, mid: string, count: string, total: string, end: string)
    ensures head + text + mid + count + total + count + end == head + text + (mid + count + total + count + end)
  {
  }

  /** For a count that fits an `i32`, both counts are written as its decimal digits. */
  lemma ResponseJsonSmall(text: string, maxTokens: nat)
    requires maxTokens <= I32Max
    ensures ResponseJson(text, maxTokens)
         == ResponseHead + text + ResponseMid + Dec(maxTokens) + ResponseTotal + Dec(maxTokens) + ResponseEnd
  {
    AsI32Small(maxTokens);
  }

  /** The text of `head + text + tail` is fixed by its position. */
  lemma TextBetween(head: string, a: string, b: string, tail: string)
    requires head + a + tail == head + b + tail
    ensures a == b
  {
    var s := head + a + tail;
    assert |a| == |b|;
    assert s[|head|..|head| + |a|] == a;
    assert (head + b + tail)[|head|..|head| + |b|] == b;
  }

  /**
   * `init_template`: the response for the input placeholder and a count of
   * `i32::MAX`, with every occurrence of the digits of `i32::MAX` replaced by
   * the count placeholder.
   */
  function InitTemplate(): string {
    Replace(ResponseJson(Stream.InputPlaceholder, I32Max), Dec(I32Max), MaxTokensPlaceholder)
  }

  /** The template as it comes out: one text slot and two count slots. */
  const RouteTemplate: string := ResponseHead + Stream.InputPlaceholder + ResponseMid
    + MaxTokensPlaceholder + ResponseTotal + MaxTokensPlaceholder + ResponseEnd

  /** No fragment holds a character of a placeholder or of the digits replaced. */
  predicate Plain(s: string) {
    forall i :: 0 <= i < |s| ==> !('A' <= s[i] <= 'Z') && s[i] != '2'
  }

  lemma PlainLacks(s: string)
    requires Plain(s)
    ensures 'I' !in s && 'M' !in s && '2' !in s
  {
  }

  lemma IdIsPlain()
    ensures Plain(ResponseId)
  {
  }

  lemma ObjectIsPlain()
    ensures Plain(ResponseObject)
  {
  }

  lemma CreatedModelIsPlain()
    ensures Plain(ResponseCreatedModel)
  {
  }

  lemma ChoiceIsPlain()
    ensures Plain(ResponseChoice) && ResponseChoice[|ResponseChoice| - 1] == '"'
  {
  }

  lemma LogprobsIsPlain()
    ensures Plain(ResponseLogprobs) && ResponseLogprobs[0] == '"'
  {
  }

  lemma FinishReasonIsPlain()
    ensures Plain(ResponseFinishReason)
  {
  }

  lemma UsageIsPlain()
    ensures Plain(ResponseUsage)
  {
  }

  lemma CompletionIsPlain()
    ensures Plain(ResponseCompletion) && ResponseCompletion[|ResponseCompletion| - 1] == ':'
  {
  }

  lemma TotalIsPlain()
    ensures Plain(ResponseTotal) && ResponseTotal[|ResponseTotal| - 1] == ':'
  {
  }

  lemma EndIsPlain()
    ensures Plain(ResponseEnd)
  {
  }

  lemma PlainAppend(a: string, b: string)
    requires Plain(a) && Plain(b)
    ensures Plain(a + b)
  {
    forall i | 0 <= i < |a + b|
      ensures !('A' <= (a + b)[i] <= 'Z') && (a + b)[i] != '2'
    {
      if i >= |a| {
        assert (a + b)[i] == b[i - |a|];
      }
    }
  }

  lemma FragmentsArePlain()
    ensures 'I' !in ResponseHead && 'M' !in ResponseHead && '2' !in ResponseHead
    ensures 'I' !in ResponseMid && 'M' !in ResponseMid && '2' !in ResponseMid
    ensures 'I' !in ResponseTotal && 'M' !in ResponseTotal && '2' !in ResponseTotal
    ensures 'I' !in ResponseEnd && 'M' !in ResponseEnd && '2' !in ResponseEnd
    ensures |ResponseHead| > 0 && ResponseHead[|ResponseHead| - 1] == '"'
    ensures |ResponseMid| > 0 && ResponseMid[0] == '"' && ResponseMid[|ResponseMid| - 1] == ':'
    ensures |ResponseTotal| > 0 && ResponseTotal[|ResponseTotal| - 1] == ':'
  {
    HeadIsPlain();
    MidIsPlain();
    TotalIsPlain();
    EndIsPlain();
    PlainLacks(ResponseHead);
    PlainLacks(ResponseMid);
    PlainLacks(ResponseTotal);
    PlainLacks(ResponseEnd);
  }

  lemma HeadIsPlain()
    ensures Plain(ResponseHead) && ResponseHead[|ResponseHead| - 1] == '"'
  {
    IdIsPlain();
    ObjectIsPlain();
    CreatedModelIsPlain();
    ChoiceIsPlain();
    PlainAppend(ResponseId, ResponseObject);
    PlainAppend(ResponseId + ResponseObject, ResponseCreatedModel);
    PlainAppend(ResponseId + ResponseObject + ResponseCreatedModel, ResponseChoice);
    assert ResponseHead[|ResponseHead| - 1] == ResponseChoice[|ResponseChoice| - 1];
  }

  lemma MidIsPlain()
    ensures Plain(ResponseMid) && ResponseMid[0] == '"' && ResponseMid[|ResponseMid| - 1] == ':'
  {
    LogprobsIsPlain();
    FinishReasonIsPlain();
    UsageIsPlain();
    CompletionIsPlain();
    PlainAppend(ResponseLogprobs, ResponseFinishReason);
    PlainAppend(ResponseLogprobs + ResponseFinishReason, ResponseUsage);
    PlainAppend(ResponseLogprobs + ResponseFinishReason + ResponseUsage, ResponseCompletion);
    assert ResponseMid[0] == ResponseLogprobs[0];
    assert ResponseMid[|ResponseMid| - 1] == ResponseCompletion[|ResponseCompletion| - 1];
  }

  lemma PlaceholderFacts()
    ensures 'I' in Stream.InputPlaceholder && 'M' !in Stream.InputPlaceholder && '2' !in Stream.InputPlaceholder
    ensures 'M' in MaxTokensPlaceholder && 'I' !in MaxTokensPlaceholder
    ensures '"' !in Stream.InputPlaceholder && '"' !in MaxTokensPlaceholder && ':' !in MaxTokensPlaceholder
  {
  }

  /** The digits of `i32::MAX` occur exactly where the response puts its counts. */
  lemma MaxResponseShape()
    ensures ResponseJson(Stream.InputPlaceholder, I32Max)
         == ResponseHead + Stream.InputPlaceholder + ResponseMid + Dec(I32Max)
            + ResponseTotal + Dec(I32Max) + ResponseEnd
  {
    ResponseJsonSmall(Stream.InputPlaceholder, I32Max);
  }

  /**
   * `init_template` yields the template with one text slot and the count
   * slot in both usage counts: the digits of `i32::MAX` occur nowhere else.
   */
  lemma InitTemplateShape()
    ensures InitTemplate() == RouteTemplate
  {
    FragmentsArePlain();
    PlaceholderFacts();
    DecI32Max();
    MaxResponseShape();
    CountSlots(ResponseHead, Stream.InputPlaceholder, ResponseMid, ResponseTotal, ResponseEnd,
      Dec(I32Max), MaxTokensPlaceholder);
  }

  /** Replacing the digits of both counts of a response, over any fragments. */
  lemma CountSlots(head: string, text: string, mid: string, total: string, end: string,
                   digits: string, slot: string)
    requires digits == "2147483647"
    requires '2' !in head && '2' !in text && '2' !in mid && '2' !in total && '2' !in end
    requires |mid| > 0 && mid[|mid| - 1] == ':' && |total| > 0 && total[|total| - 1] == ':'
    ensures Replace(head + text + mid + digits + total + digits + end, digits, slot)
         == head + text + mid + slot + total + slot + end
  {
    var upToCount := head + text + mid;
    assert upToCount[|upToCount| - 1] == ':';
    ReplaceTwice(upToCount, digits, total, end, slot, '2');
  }

  /**
   * `substitute_template`: every text placeholder replaced by `input`, then
   * every count placeholder by the decimal count.
   */
  function SubstituteTemplate(input: string, maxTokens: nat, template: Option<string>): string {
    var response := Replace(template.UnwrapOr(InitTemplate()), Stream.InputPlaceholder, input);
    Replace(response, MaxTokensPlaceholder, Dec(maxTokens))
  }

  /** The two substitutions over any fragments free of the placeholders' marker characters. */
  lemma FillSlots(head: string, textSlot: string, mid: string, countSlot: string, total: string,
                  end: string, input: string, count: string)
    requires |textSlot| > 0 && 'I' in textSlot && 'I' !in countSlot
    requires |countSlot| > 0 && 'M' in countSlot
    requires 'I' !in head && 'I' !in mid && 'I' !in total && 'I' !in end
    requires 'M' !in head && 'M' !in mid && 'M' !in total && 'M' !in end
    requires |head| > 0 && head[|head| - 1] !in textSlot && head[|head| - 1] !in countSlot
    requires |mid| > 0 && mid[0] !in countSlot && mid[|mid| - 1] !in countSlot
    requires |total| > 0 && total[|total| - 1] !in countSlot
    ensures Replace(Replace(head + textSlot + mid + countSlot + total + countSlot + end, textSlot, input),
                    countSlot, count)
         == head + Replace(input, countSlot, count) + mid + count + total + count + end
  {
    var slots := mid + countSlot + total + countSlot + end;
    var filled := Replace(input, countSlot, count);
    SplitAfterFirst(head + textSlot, mid, countSlot, total, countSlot, end);
    ReplaceSingle(head, textSlot, slots, input, 'I');
    assert slots[0] == mid[0];
    ReplaceJoin(head + input, slots, countSlot, count);
    ReplaceJoin(head, input, countSlot, count);
    ReplaceMissingChar(head, countSlot, count, 'M');
    ReplaceTwice(mid, countSlot, total, end, count, 'M');
    SplitAfterFirst(head + filled, mid, count, total, count, end);
  }

  lemma SplitAfterFirst(p: string, q: string, r: string, s: string, t: string, u: string)
    ensures p + q + r + s + t + u == p + (q + r + s + t + u)
  {
  }

  /**
   * Filling the template puts the input in the text slot and the count in
   * both count slots; a count placeholder inside the input is rewritten too.
   */
  lemma SubstituteShape(input: string, maxTokens: nat)
    ensures SubstituteTemplate(input, maxTokens, None)
         == ResponseHead + Replace(input, MaxTokensPlaceholder, Dec(maxTokens)) + ResponseMid
            + Dec(maxTokens) + ResponseTotal + Dec(maxTokens) + ResponseEnd
  {
    InitTemplateShape();
    FragmentsArePlain();
    PlaceholderFacts();
    FillSlots(ResponseHead, Stream.InputPlaceholder, ResponseMid, MaxTokensPlaceholder, ResponseTotal,
      ResponseEnd, input, Dec(maxTokens));
  }

  /**
   * Substitution agrees with serialising the response directly when the
   * input holds no count placeholder and the count fits an `i32`.
   */
  lemma SubstituteMatchesResponse(input: string, maxTokens: nat)
    requires !Occurs(input, MaxTokensPlaceholder)
    requires maxTokens <= I32Max
    ensures SubstituteTemplate(input, maxTokens, None) == ResponseJson(input, maxTokens)
    ensures SubstituteTemplate(input, maxTokens, Some(InitTemplate())) == ResponseJson(input, maxTokens)
  {
    SubstituteShape(input, maxTokens);
    ReplaceNoOccurrence(input, MaxTokensPlaceholder, Dec(maxTokens));
    ResponseJsonSmall(input, maxTokens);
  }

  /**
   * A count placeholder in the input is not preserved: it turns into the
   * count, so the reply is not the response for the input.
   */
  lemma SubstituteRewritesPlaceholderInInput(maxTokens: nat)
    requires maxTokens <= I32Max
    ensures SubstituteTemplate(MaxTokensPlaceholder, maxTokens, None) == ResponseJson(Dec(maxTokens), maxTokens)
    ensures SubstituteTemplate(MaxTokensPlaceholder, maxTokens, None) != ResponseJson(MaxTokensPlaceholder, maxTokens)
  {
    SubstituteShape(MaxTokensPlaceholder, maxTokens);
    ReplaceWhole(MaxTokensPlaceholder, Dec(maxTokens));
    ResponseJsonSmall(Dec(maxTokens), maxTokens);
    DecRoundTrip(maxTokens);
    assert !IsDigit(MaxTokensPlaceholder[0]);
    if ResponseJson(Dec(maxTokens), maxTokens) == ResponseJson(MaxTokensPlaceholder, maxTokens) {
      ResponseJsonInjective(Dec(maxTokens), MaxTokensPlaceholder, maxTokens);
    }
  }

  /**
   * Above `i32::MAX` the two sides part: substitution writes the budget in
   * full, while serde writes the `as i32` value, which is negative there.
   */
  lemma SubstituteDivergesAboveI32Max(input: string)
    requires !Occurs(input, MaxTokensPlaceholder)
    ensures SubstituteTemplate(input, I32Max + 1, None) != ResponseJson(input, I32Max + 1)
  {
    var n := I32Max + 1;
    SubstituteShape(input, n);
    ReplaceNoOccurrence(input, MaxTokensPlaceholder, Dec(n));
    assert AsI32(n) == -0x8000_0000;
    DecRoundTrip(n);
    DecRoundTrip(0x8000_0000);
    CountsDiffer(ResponseHead, input, ResponseMid, Dec(n), IntDec(AsI32(n)), ResponseTotal, ResponseEnd);
  }

  /** Two bodies that differ in the first char of their counts differ. */
  lemma CountsDiffer(head: string, text: string, mid: string, c1: string, c2: string, total: string, end: string)
    requires |c1| > 0 && |c2| > 0 && c1[0] != c2[0]
    ensures head + text + mid + c1 + total + c1 + end != head + text + mid + c2 + total + c2 + end
  {
    var p := |head + text + mid|;
    assert (head + text + mid + c1 + total + c1 + end)[p] == c1[0];
    assert (head + text + mid + c2 + total + c2 + end)[p] == c2[0];
  }

  // ---------------------------------------------------------------------
  // The non-streaming path
  // ---------------------------------------------------------------------

  /**
   * `completions`: with an explicit budget, the whole corpus when the budget
   * reaches its length and the first `max_tokens` tokens otherwise; without
   * one, the whole corpus with its length as the count.
   */
  function Completions(corpus: seq<string>, request: Request): string {
    if request.maxTokens.Some? then
      var maxTokens := request.maxTokens.value;
      var text := if maxTokens >= MaxTokens(corpus) then MaxOutput(corpus) else Concat(corpus[..maxTokens]);
      SubstituteTemplate(text, maxTokens, None)
    else
      SubstituteTemplate(MaxOutput(corpus), MaxTokens(corpus), None)
  }

  /**
   * The text is the in-order concatenation of the first `min(k, |corpus|)`
   * tokens, and the count is `k` itself, not clamped to the corpus, where `k`
   * is the budget asked for or else the corpus length.
   */
  lemma CompletionsContent(corpus: seq<string>, request: Request)
    ensures var k := request.maxTokens.UnwrapOr(|corpus|);
      Completions(corpus, request) == SubstituteTemplate(Concat(corpus[..Min(k, |corpus|)]), k, None)
  {
    var k := request.maxTokens.UnwrapOr(|corpus|);
    var text := Concat(corpus[..Min(k, |corpus|)]);
    assert corpus[..|corpus|] == corpus;
    if request.maxTokens.Some? {
      assert (if k >= MaxTokens(corpus) then MaxOutput(corpus) else Concat(corpus[..k])) == text;
    } else {
      assert MaxOutput(corpus) == text && MaxTokens(corpus) == k;
    }
  }

  /**
   * For a corpus free of the count placeholder and a budget that fits an
   * `i32`, the reply is the serialised response with that text and count.
   */
  lemma CompletionsResponse(corpus: seq<string>, request: Request)
    requires !Occurs(MaxOutput(corpus), MaxTokensPlaceholder)
    requires request.maxTokens.UnwrapOr(|corpus|) <= I32Max
    ensures var k := request.maxTokens.UnwrapOr(|corpus|);
      Completions(corpus, request) == ResponseJson(Concat(corpus[..Min(k, |corpus|)]), k)
  {
    var k := request.maxTokens.UnwrapOr(|corpus|);
    var text := Concat(corpus[..Min(k, |corpus|)]);
    CompletionsContent(corpus, request);
    PrefixOfMaxOutput(corpus, Min(k, |corpus|));
    if Occurs(text, MaxTokensPlaceholder) {
      OccursInExtension(text, MaxOutput(corpus), MaxTokensPlaceholder);
    }
    SubstituteMatchesResponse(text, k);
  }

  // ---------------------------------------------------------------------
  // The streaming path
  // ---------------------------------------------------------------------

  /** The session budget: the budget asked for, or the corpus length, clamped to the corpus length. */
  function StreamBudget(corpus: seq<string>, request: Request): (n: nat)
    ensures n <= |corpus|
    ensures request.maxTokens.None? ==> n == |corpus|
    ensures request.maxTokens.Some? ==>
      n == if request.maxTokens.value <= |corpus| then request.maxTokens.value else |corpus|
  {
    Min(request.maxTokens.UnwrapOr(MaxTokens(corpus)), MaxTokens(corpus))
  }

  /** Usage is reported only when the stream options ask for it. */
  function IncludeUsage(request: Request): (b: bool)
    ensures b <==> request.streamOptions.Some? && request.streamOptions.value.includeUsage
  {
    request.streamOptions.UnwrapOr(StreamOptions(false)).includeUsage
  }

  function SessionConfig(corpus: seq<string>, request: Request): Stream.Config {
    Stream.Config(corpus, StreamBudget(corpus, request), IncludeUsage(request))
  }

  /** `chat_completions`: a new session whose budget always fits the corpus. */
  method ChatCompletions(corpus: seq<string>, request: Request) returns (session: Stream.StringsStream)
    ensures fresh(session)
    ensures session.Valid()
    ensures session.Cfg() == SessionConfig(corpus, request)
    ensures session.Snap() == Stream.Initial
  {
    session := new Stream.StringsStream(corpus, Some(StreamBudget(corpus, request)), IncludeUsage(request));
  }

  datatype Reply = Streamed(session: Stream.StringsStream) | Full(body: string)

  /** `common_completions`: only `stream: true` streams; `false` and absent do not. */
  method CommonCompletions(corpus: seq<string>, request: Request) returns (reply: Reply)
    ensures reply.Streamed? <==> request.stream == Some(true)
    ensures reply.Full? ==> reply.body == Completions(corpus, request)
    ensures reply.Streamed? ==>
      && fresh(reply.session)
      && reply.session.Valid()
      && reply.session.Cfg() == SessionConfig(corpus, request)
      && reply.session.Snap() == Stream.Initial
  {
    match request.stream
    case Some(true) =>
      var session := ChatCompletions(corpus, request);
      reply := Streamed(session);
    case _ =>
      reply := Full(Completions(corpus, request));
  }

  // ---------------------------------------------------------------------
  // Two requests against a four-token corpus
  // ---------------------------------------------------------------------

  const Sonnet: seq<string> := ["Shall", " I", " compare", " thee"]

  /** Two tokens, not streamed: the text "Shall I" and a count of 2. */
  lemma SonnetCompletion()
    ensures Completions(Sonnet, Request(Some(2), Some(false), None)) == ResponseJson("Shall I", 2)
  {
    SonnetTexts();
    MissingCharNoOccurrence(MaxOutput(Sonnet), MaxTokensPlaceholder, 'M');
    CompletionsResponse(Sonnet, Request(Some(2), Some(false), None));
  }

  lemma SonnetTexts()
    ensures Concat(Sonnet[..2]) == "Shall I"
    ensures MaxOutput(Sonnet) == "Shall I compare thee"
    ensures 'M' !in MaxOutput(Sonnet) && 'M' in MaxTokensPlaceholder
  {
    assert Sonnet[..2] == ["Shall", " I"];
    assert Concat(["Shall", " I"]) == "Shall I" by {
      assert ["Shall", " I"][..1] == ["Shall"];
      assert ["Shall"][..0] == [];
    }
    assert Concat(Sonnet[..3]) == Concat(Sonnet[..2]) + " compare" by {
      assert Sonnet[..3][..2] == Sonnet[..2];
    }
    assert Sonnet[..4] == Sonnet;
    assert MaxOutput(Sonnet) == "Shall I compare thee" by {
      assert Sonnet[..4][..3] == Sonnet[..3];
    }
  }

  /**
   * Three tokens, streamed with usage: three chunks, the finish frame, usage
   * with a count of 3 for completion and total, then `[DONE]`.
   */
  lemma SonnetStream()
    ensures var c := SessionConfig(Sonnet, Request(Some(3), Some(true), Some(StreamOptions(true))));
      Stream.ExpectedTrace(c) == [
        Stream.Chunk(Stream.ChunkData("Shall")),
        Stream.Chunk(Stream.ChunkData(" I")),
        Stream.Chunk(Stream.ChunkData(" compare")),
        Stream.Finish,
        Stream.UsageReport(0, 3, 3),
        Stream.DoneMarker]
  {
    var c := SessionConfig(Sonnet, Request(Some(3), Some(true), Some(StreamOptions(true))));
    AsI32Small(3);
    assert c.strings[..c.maxTokens] == ["Shall", " I", " compare"];
  }
}
