# mock-openai core in Dafny

mock-openai is an HTTP server that imitates the OpenAI completion and chat
completion endpoints. It answers from a fixed corpus: Shakespeare's sonnets,
split into tokens once at start-up. This project models that core and proves
properties about it.

- **Corpus** (`corpus.dfy`, module `Corpus`). The token sequence, its length
  (the default token budget) and its concatenation (the longest possible
  answer). It also models the whitespace tokenizer used when no model
  tokenizer can be loaded. The proof shows the tokens are exactly the
  maximal non-whitespace runs of the text, and concatenated they give the
  text with its whitespace removed.
- **Streaming session** (`stream.dfy`, module `Stream`). `StringsStream` is
  a class whose `Poll` method advances the session one poll at a time. Its
  states are Input, Start, Usage, Done and Completed. It keeps a cursor into
  the tokens and an armed-delay flag. `Poll` is proved against the pure
  transition function `Step`. About `Step` the model proves:
  - every poll either emits the next frame of `ExpectedTrace` or emits
    nothing;
  - the stream ends only after the whole trace;
  - with every delay elapsed, the whole trace is delivered;
  - once completed, a session stays completed.

  The trace is one chunk per budgeted token, the finish frame, the usage
  frame when usage was asked for, and `[DONE]`.
- **Routes** (`routes.dfy`, module `Routes`). How a request is answered:
  - the dispatch on `stream`;
  - the non-streaming answer, built by substituting into the response
    template;
  - the streaming budget and usage flag handed to a new session.

  The substitution template is derived from the response's serde field
  order. The proofs show:
  - the template equals the constant `RouteTemplate`;
  - substituting yields the serialized response, as long as the text does
    not itself contain `[MAX_TOKENS]`, the budget fits an `i32`, and the
    text is one that JSON escaping leaves unchanged (see "## Left out").
    Above `i32::MAX` the two are proved to differ.
- **Template renderers** (`template.rs` in the source, `template.dfy` here,
  module `Template`). These are the pre-split SSE and chat renderers. They
  build strings in a `StrBuf`, which is a `String::with_capacity` followed by
  `push_str` calls. Each renderer is proved to produce its specification
  string and to reserve exactly its final length, so the buffer never grows.
  Each specification string has a parser: the proofs show the parser
  recovers the content and the counters, and accepts nothing else.
- **Rust library semantics** (`rust_std.dfy`, module `RustStd`):
  - `str::replace`: non-overlapping, left to right, with no rescan of the
    inserted text;
  - `usize::to_string` and its decimal round trip;
  - `i32` serialisation and the `as i32` cast;
  - the whitespace class used by `split_whitespace`.

Behaviour of the code worth noting, which the model follows:
- a session emits one content chunk per budgeted token. It does not emit one
  fewer with the last token carried by the finish frame;
- the finish frame has an empty delta and finish reason `"stop"`;
- the usage frame reports 0 prompt tokens and the budget as both completion
  and total tokens;
- the cursor never wraps around the corpus. The budget is clamped to the
  corpus length, so the stream ends.

## Model

| member | source | states |
|---|---|---|
| Corpus.Concat | src/common.rs:7 | `[&str]::concat`; the body models the source, and its meaning is stated by `ConcatAppend`, `ConcatLength` and `TokenInMaxOutput` |
| Corpus.MaxTokens | src/common.rs:6 | `MAX_TOKENS`, the number of tokens; the body models the source, and `StreamBudget` and `CompletionsContent` state its use as the default budget |
| Corpus.MaxOutput | src/common.rs:7 | `MAX_OUTPUT`, the whole corpus as one string; the body models the source, and its meaning is stated by `PrefixOfMaxOutput` and `SplitConcatIsSourceWithoutWhitespace` |
| Corpus.SplitWhitespace | src/common.rs:48-54 | `split_whitespace` collected; the body models the source, and its meaning is stated by `SplitIsMaximalRuns`, `SplitTokensWellFormed` and `SplitConcatIsSourceWithoutWhitespace` |
| Corpus.ConcatAppend | src/common.rs:7 | concatenating the tokens distributes over splitting the token sequence |
| Corpus.ConcatLength | src/common.rs:7 | the length of `MAX_OUTPUT` is the sum of the token lengths |
| Corpus.TokenInMaxOutput | src/common.rs:5-7 | token i sits in `MAX_OUTPUT` right after the concatenation of tokens 0..i |
| Corpus.PrefixOfMaxOutput | src/common.rs:7 | the text of the first k tokens is a prefix of `MAX_OUTPUT` |
| Corpus.LeadingSpace | src/common.rs:48-49 | the whitespace run at the front ends at a non-whitespace char or at the end |
| Corpus.WordLength | src/common.rs:48-49 | the word at the front ends at whitespace or at the end, and it is non-empty when the text starts with a non-whitespace char |
| Corpus.LeadingSpaceIsSpace | src/common.rs:48-49 | the skipped prefix is all whitespace |
| Corpus.WordLengthIsWord | src/common.rs:48-49 | the word taken has no whitespace |
| Corpus.TokenEnd | src/common.rs:48-49 | a token found after leading whitespace is non-empty and stays in bounds |
| Corpus.StepRebuild | src/common.rs:48-49 | one tokenizer step cuts the text into skipped space, token and rest |
| Corpus.StepWord | src/common.rs:48-49 | a token cut by one step contains no whitespace |
| Corpus.StepNextIsSpace | src/common.rs:48-49 | a token is followed by whitespace or by the end of the text |
| Corpus.SplitTokensWellFormed | src/common.rs:48-54 | every token of the whitespace fallback is non-empty and whitespace-free |
| Corpus.FirstSeparatorNonEmpty | src/common.rs:48-49 | leading whitespace is not lost: a text starting with whitespace has a non-empty first separator |
| Corpus.SplitIsMaximalRuns | src/common.rs:48-54 | the text is the tokens interleaved with all-whitespace separators, and the inner separators are non-empty, so the tokens are the maximal non-whitespace runs |
| Corpus.RemoveWhitespaceAppend | src/common.rs:48-54 | removing whitespace distributes over concatenation |
| Corpus.RemoveWhitespaceOfSpace | src/common.rs:48-54 | removing whitespace from whitespace leaves nothing |
| Corpus.RemoveWhitespaceOfWord | src/common.rs:48-54 | removing whitespace from a word leaves it unchanged |
| Corpus.RemoveWhitespaceAfterSpace | src/common.rs:48-54 | a whitespace prefix disappears when whitespace is removed |
| Corpus.RemoveWhitespaceAfterWord | src/common.rs:48-54 | a word prefix survives unchanged when whitespace is removed |
| Corpus.RemoveWhitespaceOfParts | src/common.rs:48-54 | space + word + rest without whitespace is word + (rest without whitespace) |
| Corpus.ConcatSplitStep | src/common.rs:48-54 | the concatenated tokens are the first token followed by the concatenated tokens of the rest |
| Corpus.RemoveWhitespaceStep | src/common.rs:48-54 | the text without whitespace is the first token followed by the rest without whitespace |
| Corpus.SplitConcatIsSourceWithoutWhitespace | src/common.rs:5-7 | with the fallback tokenizer, `MAX_OUTPUT` is the source text with every whitespace char removed |
| Corpus.SplitEmptyIffWhitespaceOnly | src/common.rs:48-54 | the fallback gives no tokens exactly when the text is all whitespace |
| Stream.ChunkData | src/stream.rs:162 | `TEMPLATE.replace("[INPUT]", token)`; the body models the source, and its meaning is stated by `ChunkDataShape` and `ChunkDataInjective` |
| Stream.UsageFrame | src/stream.rs:188-196 | the usage frame; the body models the source, and `ExpectedTraceShape` and `SonnetStream` state where it appears and what it holds |
| Stream.IdLacksN | src/stream.rs:37 | the chunk's id field has no `N`, so the placeholder search cannot match inside it |
| Stream.ObjectLacksN | src/stream.rs:38 | the same for the object field |
| Stream.CreatedModelLacksN | src/stream.rs:39-40 | the same for the created and model fields |
| Stream.FingerprintLacksN | src/stream.rs:41 | the same for the system fingerprint |
| Stream.ChoiceLacksN | src/stream.rs:63-69 | the same for the choice header |
| Stream.DeltaLacksN | src/stream.rs:72-86 | the same for the delta header, which ends in a quote |
| Stream.TailLacksN | src/stream.rs:23-33 | the same for the closing part of the chunk |
| Stream.ChunkDataShape | src/stream.rs:111-114 | substituting a token into the chunk template gives head + token + tail, for every token |
| Stream.ChunkDataInjective | src/stream.rs:153-163 | different tokens give different chunk frames |
| Stream.Step | src/stream.rs:130-209 | one `poll_next` keeps the session in a reachable state, moves the cursor by at most one, and returns end only from a session that does not change |
| Stream.FirstPollArms | src/stream.rs:141-151 | the first poll of a new session emits nothing: it arms the first-token delay, moves to Start at token 0 and returns Pending |
| Stream.StartStep | src/stream.rs:152-185 | a poll in Start with the delay elapsed emits the token under the cursor, advances the cursor and re-arms the delay while the budget lasts; after it, the poll emits the finish frame and moves to Usage when usage was asked for, to Done otherwise |
| Stream.SleepGate | src/stream.rs:133-138 | while an armed delay has not elapsed the poll is Pending and nothing changes; once it has, the poll proceeds as in an unarmed state |
| Stream.Chunks | src/stream.rs:152-163 | one chunk frame per token, in token order |
| Stream.ExpectedTraceShape | src/stream.rs:141-207 | the trace is n chunks, then the finish frame, the usage frame exactly when usage was asked for, and `[DONE]` last; each frame kind sits only at its announced place |
| Stream.StepFollowsTrace | src/stream.rs:130-209 | a ready poll emits exactly the next frame of the trace, Pending emits nothing, and end is returned exactly from Completed |
| Stream.Run | src/stream.rs:130-209 | a sequence of polls keeps the session reachable and gives one result per poll |
| Stream.FramesAppend | src/stream.rs:130-209 | the frames of consecutive poll results concatenate |
| Stream.FramesOfOne | src/stream.rs:130-209 | a single poll contributes its frame when ready, nothing otherwise |
| Stream.RunFollowsTrace | src/stream.rs:130-209 | safety: under any timer schedule, the frames emitted so far are the next slice of the trace |
| Stream.ContinueTrace | src/stream.rs:130-209 | a ready poll followed by the slice after it gives the slice starting at that poll |
| Stream.RunPrefix | src/stream.rs:130-209 | the results of a shorter schedule are a prefix of the results of a longer one |
| Stream.RunEndsAfterTrace | src/stream.rs:201-207 | when a poll reports the end, the whole trace has been emitted before it |
| Stream.SessionTrace | src/stream.rs:98-209 | from a new session, under any schedule, the emitted frames are a prefix of the trace, and the whole trace once the end is reported |
| Stream.AllReady | src/stream.rs:133-138 | a schedule in which every delay has elapsed by the next poll |
| Stream.RunAllReady | src/stream.rs:130-209 | with delays elapsed, each poll emits one more frame until the trace is done |
| Stream.SessionCompletes | src/stream.rs:98-209 | liveness: with delays elapsed, the first poll is Pending, the next polls deliver the whole trace, and every later poll reports the end |
| Stream.AllReadyEmitsTrace | src/stream.rs:130-209 | enough ready polls emit the whole trace |
| Stream.EndAfterTrace | src/stream.rs:201-207 | every poll after the trace, and after `[DONE]`, reports the end |
| Stream.CompletedExactly | src/stream.rs:201-207 | the whole trace has been emitted exactly when the state is Completed |
| Stream.RunSplit | src/stream.rs:130-209 | poll j's result is one step from the state reached after the first j polls |
| Stream.CompletedAbsorbing | src/stream.rs:207 | a completed session stays completed and reports only the end |
| Stream.StringsStream.constructor | src/stream.rs:98-108 | a new session is in Input at token 0 with no delay armed; the budget defaults to the corpus length |
| Stream.StringsStream.Poll | src/stream.rs:130-209 | the new fields and the result of one poll are those of `Step` from the old fields |
| Template.GrownCapacity | src/template.rs:38-42 | a push that does not fit grows the buffer at least to the needed length and at least to double; one that fits leaves the capacity unchanged |
| Template.Max3 | src/template.rs:38-42 | the largest of three capacities |
| Template.StrBuf.WithCapacity | src/template.rs:38-39 | `String::with_capacity`: empty contents with the requested capacity |
| Template.StrBuf.PushStr | src/template.rs:40-42 | `push_str` appends and grows the capacity only when the contents would not fit |
| Template.Assemble3 | src/template.rs:38-43 | a three-part render reserves exactly the sum of the part lengths and returns their concatenation |
| Template.Assemble5 | src/template.rs:62-74 | the same for five parts |
| Template.Assemble7 | src/template.rs:86-102 | the same for seven parts |
| Template.RenderSseChunk | src/template.rs:37-44 | prefix + content + chunk suffix, with the capacity exactly its length |
| Template.RenderSseFinish | src/template.rs:47-54 | prefix + content + finish suffix, with the capacity exactly its length |
| Template.RenderSseUsage | src/template.rs:57-75 | prefix + completion tokens + mid + total tokens + suffix, with the capacity exactly its length |
| Template.RenderChatCompletion | src/template.rs:78-103 | prefix + content + total tokens + completion tokens + suffix, in that order, with the capacity exactly its length |
| Template.RenderSseDone | src/template.rs:106-108 | the literal `[DONE]` |
| Template.Between | src/template.rs:10-16 | a successful parse returns content that the prefix and suffix rebuild into the frame |
| Template.BetweenOfShape | src/template.rs:10-16 | a framed content is recovered |
| Template.SseChunkRoundTrip | src/template.rs:37-44 | a chunk frame parses back to its content |
| Template.ParseSseChunkSound | src/template.rs:37-44 | the chunk parser accepts only chunk frames |
| Template.SseChunkInjective | src/template.rs:37-44 | different contents give different chunk frames |
| Template.SseFinishRoundTrip | src/template.rs:47-54 | a finish frame parses back to its content |
| Template.ParseSseFinishSound | src/template.rs:47-54 | the finish parser accepts only finish frames |
| Template.FinishDiffersOnlyInSuffix | src/template.rs:14-16 | a finish frame is its chunk frame with the suffix swapped; no chunk frame is a finish frame, and neither parser accepts the other's frames |
| Template.LeadingDigits | src/template.rs:59-60 | the length of the longest all-digit prefix |
| Template.TrailingDigits | src/template.rs:83-84 | the length of the longest all-digit suffix |
| Template.LeadingDigitsOfJoin | src/template.rs:59-60 | a number followed by a non-digit is found exactly |
| Template.TrailingDigitsOfJoin | src/template.rs:83-84 | a number preceded by a non-digit is found exactly |
| Template.DropPrefix | src/template.rs:19 | successful removal of a prefix rebuilds the input |
| Template.DropSuffix | src/template.rs:21 | successful removal of a suffix rebuilds the input |
| Template.DropPrefixOf | src/template.rs:19 | a prefix is removed from whatever follows it |
| Template.DropSuffixOf | src/template.rs:21 | a suffix is removed from whatever precedes it |
| Template.SplitLeadingDigits | src/template.rs:59-60 | the input splits into an all-digit front and the rest |
| Template.SplitTrailingDigits | src/template.rs:83-84 | the input splits into the rest and an all-digit end |
| Template.SplitLeadingDigitsOf | src/template.rs:59-60 | a rendered number is split off the front exactly |
| Template.SplitTrailingDigitsOf | src/template.rs:83-84 | a rendered number is split off the end exactly |
| Template.CountersOfShape | src/template.rs:69-73 | two rendered counters around a separator are recovered |
| Template.CountersBetweenOfShape | src/template.rs:69-73 | the same inside a prefix and a suffix |
| Template.CountersSound | src/template.rs:69-73 | recovered counters rebuild the body |
| Template.CountersBetweenSound | src/template.rs:69-73 | recovered counters rebuild the framed body |
| Template.SseUsageRoundTrip | src/template.rs:57-75 | both token counts are recovered from a usage frame |
| Template.ParseSseUsageSound | src/template.rs:57-75 | the usage parser accepts only usage frames |
| Template.SseUsageInjective | src/template.rs:57-75 | different counts give different usage frames |
| Template.TextAndCountersOfShape | src/template.rs:95-101 | content, total and completion counts are recovered from their concatenation |
| Template.TextAndCountersBetweenOfShape | src/template.rs:95-101 | the same inside a prefix and a suffix |
| Template.TextAndCountersSound | src/template.rs:95-101 | recovered content and counts rebuild the body |
| Template.TextAndCountersBetweenSound | src/template.rs:95-101 | recovered content and counts rebuild the framed body |
| Template.ChatCompletionRoundTrip | src/template.rs:78-103 | the content and both counts are recovered from a chat completion |
| Template.ParseChatCompletionSound | src/template.rs:78-103 | the chat parser accepts only chat completions |
| Template.ChatCompletionInjective | src/template.rs:78-103 | different content or counts give different chat completions |
| Routes.ResponseJson | src/routes.rs:39-52 | serde output of `Response::from_response_string`; the body models the source, and its meaning is stated by `ResponseJsonInjective` and `ResponseJsonSmall` |
| Routes.InitTemplate | src/routes.rs:95-101 | `init_template`; the body models the source, and its meaning is stated by `InitTemplateShape` |
| Routes.SubstituteTemplate | src/routes.rs:103-107 | `substitute_template`; the body models the source, and its meaning is stated by `SubstituteShape` and `SubstituteMatchesResponse` |
| Routes.Completions | src/routes.rs:123-145 | `completions`; the body models the source, and its meaning is stated by `CompletionsContent` and `CompletionsResponse` |
| Routes.ResponseJsonInjective | src/routes.rs:28-36 | for a fixed budget, different texts give different response bodies |
| Routes.ResponseJsonSmall | src/routes.rs:67-72 | for budgets up to `i32::MAX`, the serialized counts are the budget's plain decimal |
| Routes.TextBetween | src/routes.rs:28-36 | a text between fixed parts is determined by the whole |
| Routes.PlainLacks | src/routes.rs:95-101 | a fragment with no capitals and no `2` contains neither placeholder's marker char nor the leading digit of `i32::MAX` |
| Routes.IdIsPlain | src/routes.rs:55-66 | the id fragment has no capitals and no `2` |
| Routes.ObjectIsPlain | src/routes.rs:55-66 | the same for the object fragment |
| Routes.CreatedModelIsPlain | src/routes.rs:55-66 | the same for the created and model fragments |
| Routes.ChoiceIsPlain | src/routes.rs:74-91 | the same for the choice header, which ends in a quote |
| Routes.LogprobsIsPlain | src/routes.rs:74-91 | the same for the logprobs fragment, which starts with a quote |
| Routes.FinishReasonIsPlain | src/routes.rs:74-91 | the same for the finish reason fragment |
| Routes.UsageIsPlain | src/routes.rs:67-72 | the same for the usage header |
| Routes.CompletionIsPlain | src/routes.rs:67-72 | the same for the completion count key, which ends in a colon |
| Routes.TotalIsPlain | src/routes.rs:67-72 | the same for the total count key, which ends in a colon |
| Routes.EndIsPlain | src/routes.rs:28-36 | the same for the closing braces |
| Routes.PlainAppend | src/routes.rs:95-101 | concatenating plain fragments stays plain |
| Routes.FragmentsArePlain | src/routes.rs:95-101 | the fixed parts of the response contain no `I`, no `M` and no `2`, and they have the quote and colon edges that stop a match from spanning two parts |
| Routes.HeadIsPlain | src/routes.rs:55-91 | everything before the text is plain and ends in a quote |
| Routes.MidIsPlain | src/routes.rs:67-91 | everything between the text and the first count is plain, starting with a quote and ending with a colon |
| Routes.PlaceholderFacts | src/routes.rs:95-101 | `[INPUT]` has an `I`, `[MAX_TOKENS]` has an `M` and no `I`, and neither has a quote or a colon |
| Routes.MaxResponseShape | src/routes.rs:95-101 | the response built from `[INPUT]` and `i32::MAX` has the text slot and two count slots at their places |
| Routes.InitTemplateShape | src/routes.rs:95-101 | the built template is the response with `[INPUT]` in the text and `[MAX_TOKENS]` in both counts |
| Routes.CountSlots | src/routes.rs:95-101 | replacing `2147483647` in the response hits exactly the two count slots |
| Routes.FillSlots | src/routes.rs:103-107 | substituting hits exactly the text slot and the two count slots, and leaves the inserted input alone except for its own `[MAX_TOKENS]` |
| Routes.SubstituteShape | src/routes.rs:103-107 | the substituted body is the fixed parts around the input (with `[MAX_TOKENS]` inside it rewritten) and the budget twice |
| Routes.SubstituteMatchesResponse | src/routes.rs:103-107 | with the global template, or with `init_template()` passed in as the test at routes.rs:170-184 does, substitution gives the serialized response, for any input without `[MAX_TOKENS]` and budget up to `i32::MAX` |
| Routes.SubstituteDivergesAboveI32Max | src/routes.rs:103-107 | for a budget of `i32::MAX + 1`, substitution writes the full budget while serde writes the wrapped `i32`, so the body differs from the serialized response |
| Routes.CountsDiffer | src/routes.rs:39-52 | two response bodies whose counts start with different chars differ |
| Routes.SubstituteRewritesPlaceholderInInput | src/routes.rs:103-107 | an input consisting of `[MAX_TOKENS]` is rewritten to the budget, so the body differs from the serialized response |
| Routes.CompletionsContent | src/routes.rs:123-145 | `/completions` substitutes the first min(max_tokens, corpus length) tokens with the requested budget (corpus length when none) |
| Routes.CompletionsResponse | src/routes.rs:123-145 | for a corpus without `[MAX_TOKENS]` and a small budget, the answer is the serialized response for that text and budget |
| Routes.StreamBudget | src/routes.rs:153-154 | the session budget is min(max_tokens, corpus length), or the corpus length when none |
| Routes.IncludeUsage | src/routes.rs:155-160 | usage is included exactly when stream options ask for it |
| Routes.ChatCompletions | src/routes.rs:147-163 | a fresh session over the corpus with the clamped budget and the usage flag, in its initial state |
| Routes.CommonCompletions | src/routes.rs:109-121 | the reply streams exactly when `stream` is `Some(true)`; otherwise it is the completion body |
| Routes.SonnetTexts | src/common.rs:5-7 | the text of a four-token corpus and of its first two tokens |
| Routes.SonnetCompletion | src/routes.rs:123-145 | a concrete request for two tokens gives the response for "Shall I" |
| Routes.SonnetStream | src/routes.rs:147-163 | a concrete streaming request for three tokens with usage gives three chunks, finish, usage (0, 3, 3), `[DONE]` |
| RustStd.IsWhitespace | src/common.rs:49 | `char::is_whitespace`, the Unicode White_Space set; the body models the source, and `LeadingSpaceIsSpace` and `SplitIsMaximalRuns` use it |
| RustStd.Replace | src/routes.rs:105-106 | `str::replace`; the body models the source, and its meaning is stated by `ReplaceNoOccurrence`, `ReplaceAtStart`, `ReplaceSplit`, `ReplaceSingle` and `ReplaceTwice` |
| RustStd.Dec | src/routes.rs:106 | `usize::to_string`; the body models the source, and its meaning is stated by `DecRoundTrip`, `DecOfValue` and `DecInjective` |
| RustStd.IntDec | src/stream.rs:192-193 | how serde writes an `i32`; the body models the source, and `ResponseJsonSmall` and `SubstituteDivergesAboveI32Max` state its value on either side of `i32::MAX` |
| RustStd.Option.UnwrapOr | src/routes.rs:153 | the contained value, or the default |
| RustStd.Min | src/routes.rs:153-154 | the smaller of two numbers |
| RustStd.MatchAtIndex | src/stream.rs:162 | a match agrees with the pattern char by char |
| RustStd.ReplaceNoOccurrence | src/stream.rs:162 | `replace` with no occurrence leaves the text unchanged |
| RustStd.MissingCharNoOccurrence | src/stream.rs:162 | a pattern with a char that the text lacks does not occur |
| RustStd.ReplaceMissingChar | src/stream.rs:162 | such a pattern is not replaced |
| RustStd.ReplaceAtStart | src/stream.rs:162 | a leading occurrence is replaced and the scan resumes after it |
| RustStd.ReplaceWhole | src/stream.rs:162 | the pattern alone becomes the replacement |
| RustStd.MatchBeforeForeign | src/stream.rs:162 | a match at the front cannot span a char that is not in the pattern |
| RustStd.ReplaceSplit | src/routes.rs:103-107 | `replace` works independently on both sides of a char that is not in the pattern |
| RustStd.ReplaceJoin | src/routes.rs:103-107 | `replace` distributes over a join whose edge char is not in the pattern |
| RustStd.ReplaceSingle | src/stream.rs:162 | a single occurrence between pattern-free parts is replaced and nothing else changes |
| RustStd.ReplaceTwice | src/routes.rs:95-107 | two occurrences between pattern-free parts are both replaced and nothing else changes |
| RustStd.OccursInExtension | src/routes.rs:132-136 | an occurrence in a prefix is an occurrence in the whole |
| RustStd.DigitChar | src/template.rs:59-60 | a digit value renders as a digit char |
| RustStd.DigitValue | src/template.rs:59-60 | a digit char has a value below ten |
| RustStd.DigitRoundTrip | src/template.rs:59-60 | rendering and reading a digit round-trips |
| RustStd.DigitCharOfValue | src/template.rs:59-60 | reading and rendering a digit round-trips |
| RustStd.DecRoundTrip | src/template.rs:59-60 | `to_string` of a count is canonical decimal and reads back as the count |
| RustStd.LeadingNonZeroPositive | src/template.rs:59-60 | a digit string with a non-zero lead is positive |
| RustStd.DecOfValue | src/template.rs:59-60 | a canonical decimal is the `to_string` of its value |
| RustStd.DecInjective | src/template.rs:59-60 | different counts render differently |
| RustStd.AsI32 | src/stream.rs:192-193 | the `as i32` cast is within `i32` and congruent to the count mod 2^32 |
| RustStd.AsI32Small | src/stream.rs:192-193 | the cast leaves counts up to `i32::MAX` unchanged |
| RustStd.DecI32Max | src/routes.rs:96-100 | `i32::MAX` renders as `2147483647` |

## Left out

- Timers, the random first-token and inter-token delays, the waker and the
  async/SSE plumbing. A poll takes a `timerReady` flag that says whether the
  armed delay has elapsed. A schedule is a sequence of such flags.
- The Input branch of `poll_next` arms the first delay and returns Pending
  without polling that delay, so no wake-up is registered for it. Whether
  the session is polled again then depends on the executor and the SSE
  wrapper. The model has no executor: it assumes a further poll, and it
  does not capture a session that stalls here.
- Serde serialisation of the streaming finish and usage frames. These are
  structured `Frame` values here. The chunk frame and the non-streaming
  response are written out as literal JSON text, in the field order of
  their structs. JSON string escaping is not modelled. The model tokenizer
  stores its tokens already escaped (common.rs:37-40). The whitespace
  fallback stores them raw (common.rs:48-54), so a fallback token holding
  `"` or `\` goes into a chunk or a response unescaped, in the source and in
  the model alike.
- Lengths are counted in chars, not UTF-8 bytes. `StrBuf` keeps the
  contents and the capacity bookkeeping, but not the allocation itself.
- The model tokenizer download and use, and the reading of the sonnets file.
  These are I/O and foreign code. The corpus is a parameter, and only the
  whitespace fallback is modelled.
- `build.rs`, `main.rs`, `args.rs`, the HTTP server, authentication,
  logging and the benches. None of these is part of the modelled core.
- `ERROR_INVALID_API_KEY` and `ERROR_MISSING_API_KEY` are not modelled. Only
  the authentication layer, which is outside the core, would use them.
- Stream.StringsStream.constructor: its default budget is the length of the
  session's own tokens, where the source reads the global `MAX_TOKENS`. The
  only caller passes the global corpus, so the two agree.
- Stream.StringsStream.constructor: it requires the budget to be at most the
  number of tokens. With a larger budget the source would panic on an
  out-of-bounds index, and `chat_completions` always clamps.
- Routes.SubstituteMatchesResponse: it is stated only for budgets up to
  `i32::MAX`. Above that, substitution writes the full `usize` while serde
  writes the wrapped `i32`; `SubstituteDivergesAboveI32Max` proves that the
  two differ at `i32::MAX + 1`.
- Routes.SubstituteMatchesResponse: `ResponseJson` writes the text
  verbatim, so its equality with serde's output holds only for text that
  JSON escaping leaves unchanged (no `"`, `\` or control characters). The
  same holds for Stream.ChunkDataShape against the serialized chunk.
- `template.rs` is not declared in `lib.rs`, so no route calls the
  renderers. They are modelled on their own.
