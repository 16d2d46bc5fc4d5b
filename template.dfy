/**
 * The frame renderer: fixed JSON fragments glued around a content string or
 * around decimal counters. Each renderer reserves a buffer of exactly the
 * size it will need and appends the fragments one after another.
 *
 * The content is spliced in verbatim right after `"content":`, so the caller
 * is expected to pass an already quoted and escaped JSON value.
 */
module Template {
  import opened RustStd

  // ---------------------------------------------------------------------
  // Fragments
  // ---------------------------------------------------------------------

  const SseChunkPrefix: string := "{\"id\":\"chatcmpl-xxx\",\"object\":\"chat.completion.chunk\",\"created\":1770187171,\"model\":\"sonnet-mock-model\",\"choices\":[{\"index\":0,\"delta\":{\"content\":"
  const SseChunkSuffix: string := ",\"reasoning_content\":null},\"logprobs\":null,\"finish_reason\":null,\"token_ids\":null}]}"
  /** The finish frame shares the chunk prefix; only the suffix differs. */
  const SseFinishSuffix: string := ",\"reasoning_content\":null},\"logprobs\":null,\"finish_reason\":\"length\",\"token_ids\":null}]}"
  const SseUsagePrefix: string := "{\"id\":\"chatcmpl-xxx\",\"object\":\"chat.completion.chunk\",\"created\":1770187171,\"model\":\"sonnet-mock-model\",\"choices\":[],\"usage\":{\"prompt_tokens\":0,\"completion_tokens\":"
  const SseUsageMid: string := ",\"total_tokens\":"
  const SseUsageSuffix: string := "}}"
  const SseTemplateDone: string := "[DONE]"
  const ChatPrefix: string := "{\"id\":\"chatcmpl-xxx\",\"object\":\"chat.completion\",\"created\":1770188771,\"model\":\"sonnet-mock-model\",\"choices\":[{\"index\":0,\"message\":{\"role\":\"assistant\",\"content\":"
  const ChatMid1: string := ",\"refusal\":null,\"annotations\":null,\"audio\":null,\"function_call\":null,\"tool_calls\":[],\"reasoning\":null,\"reasoning_content\":null},\"logprobs\":null,\"finish_reason\":\"length\",\"stop_reason\":null,\"token_ids\":null}],\"usage\":{\"prompt_tokens\":0,\"total_tokens\":"
  const ChatMid2: string := ",\"completion_tokens\":"
  const ChatSuffix: string := ",\"prompt_tokens_details\":null}}"

  // ---------------------------------------------------------------------
  // What each renderer produces
  // ---------------------------------------------------------------------

  function SseChunk(content: string): string {
    SseChunkPrefix + content + SseChunkSuffix
  }

  function SseFinish(content: string): string {
    SseChunkPrefix + content + SseFinishSuffix
  }

  function SseUsage(completionTokens: nat, totalTokens: nat): string {
    SseUsagePrefix + Dec(completionTokens) + SseUsageMid + Dec(totalTokens) + SseUsageSuffix
  }

  /** Note the order: `total_tokens` is written before `completion_tokens`. */
  function ChatCompletion(content: string, completionTokens: nat, totalTokens: nat): string {
    ChatPrefix + content + ChatMid1 + Dec(totalTokens) + ChatMid2 + Dec(completionTokens) + ChatSuffix
  }

  // ---------------------------------------------------------------------
  // String buffers with a capacity (String::with_capacity / push_str)
  // ---------------------------------------------------------------------

  /**
   * The capacity after making room for `needed` characters: unchanged when
   * they fit, otherwise the larger of twice the old capacity and `needed`,
   * and never below 8 (the amortised growth of Rust's vectors).
   */
  function GrownCapacity(capacity: nat, needed: nat): (r: nat)
    ensures needed <= r
    ensures needed <= capacity ==> r == capacity
    ensures needed > capacity ==> r >= 2 * capacity
  {
    if needed <= capacity then capacity else Max3(2 * capacity, needed, 8)
  }

  function Max3(a: nat, b: nat, c: nat): (r: nat)
    ensures a <= r && b <= r && c <= r
    ensures r == a || r == b || r == c
  {
    if a >= b && a >= c then a else if b >= c then b else c
  }

  /**
   * A growable string: its text and the capacity reserved for it. Only the
   * capacity bookkeeping is kept of the heap buffer behind it.
   */
  class StrBuf {
    var contents: string
    var capacity: nat

    ghost predicate Valid()
      reads this
    {
      |contents| <= capacity
    }

    /** `String::with_capacity`. */
    constructor WithCapacity(capacity: nat)
      ensures Valid()
      ensures contents == []
      ensures this.capacity == capacity
    {
      contents := [];
      this.capacity := capacity;
    }

    /** `String::push_str`: append `s`, growing the buffer first if it does not fit. */
    method PushStr(s: string)
      requires Valid()
      modifies this
      ensures Valid()
      ensures contents == old(contents) + s
      ensures capacity == GrownCapacity(old(capacity), old(|contents|) + |s|)
      ensures old(|contents|) + |s| <= old(capacity) ==> capacity == old(capacity)
    {
      if |contents| + |s| > capacity {
        capacity := GrownCapacity(capacity, |contents| + |s|);
      }
      contents := contents + s;
    }
  }

  // ---------------------------------------------------------------------
  // The renderers
  // ---------------------------------------------------------------------

  /**
   * Reserve exactly the combined length of `a`, `b` and `c`, then push them
   * in order: the buffer ends up full and is never regrown.
   */
  method Assemble3(a: string, b: string, c: string) returns (r: string, capacity: nat)
    ensures r == a + b + c
    ensures capacity == |a| + |b| + |c|
    ensures |r| == capacity
  {
    var result := new StrBuf.WithCapacity(|a| + |b| + |c|);
    result.PushStr(a);
    result.PushStr(b);
    result.PushStr(c);
    r, capacity := result.contents, result.capacity;
  }

  /** The same for five pieces. */
  method Assemble5(a: string, b: string, c: string, d: string, e: string) returns (r: string, capacity: nat)
    ensures r == a + b + c + d + e
    ensures capacity == |a| + |b| + |c| + |d| + |e|
    ensures |r| == capacity
  {
    var reserved := |a| + |b| + |c| + |d| + |e|;
    var result := new StrBuf.WithCapacity(reserved);
    result.PushStr(a);
    result.PushStr(b);
    result.PushStr(c);
    assert result.contents == a + b + c && result.capacity == reserved;
    result.PushStr(d);
    result.PushStr(e);
    r, capacity := result.contents, result.capacity;
  }

  /** The same for seven pieces. */
  method Assemble7(a: string, b: string, c: string, d: string, e: string, f: string, g: string)
    returns (r: string, capacity: nat)
    ensures r == a + b + c + d + e + f + g
    ensures capacity == |a| + |b| + |c| + |d| + |e| + |f| + |g|
    ensures |r| == capacity
  {
    var reserved := |a| + |b| + |c| + |d| + |e| + |f| + |g|;
    var result := new StrBuf.WithCapacity(reserved);
    result.PushStr(a);
    result.PushStr(b);
    result.PushStr(c);
    assert result.contents == a + b + c && result.capacity == reserved;
    result.PushStr(d);
    result.PushStr(e);
    assert result.contents == a + b + c + d + e && result.capacity == reserved;
    result.PushStr(f);
    result.PushStr(g);
    r, capacity := result.contents, result.capacity;
  }

  /**
   * `render_sse_chunk`. The frame is the chunk prefix, the content and the
   * chunk suffix, and it fills the reserved capacity exactly (the buffer is
   * never regrown).
   */
  method RenderSseChunk(content: string) returns (r: string, capacity: nat)
    ensures r == SseChunk(content)
    ensures capacity == |SseChunkPrefix| + |content| + |SseChunkSuffix|
    ensures |r| == capacity
  {
    r, capacity := Assemble3(SseChunkPrefix, content, SseChunkSuffix);
  }

  /** `render_sse_finish`: as the chunk frame, with the finish suffix. */
  method RenderSseFinish(content: string) returns (r: string, capacity: nat)
    ensures r == SseFinish(content)
    ensures capacity == |SseChunkPrefix| + |content| + |SseFinishSuffix|
    ensures |r| == capacity
  {
    r, capacity := Assemble3(SseChunkPrefix, content, SseFinishSuffix);
  }

  /** `render_sse_usage`: both counters in decimal, completion first. */
  method RenderSseUsage(completionTokens: nat, totalTokens: nat) returns (r: string, capacity: nat)
    ensures r == SseUsage(completionTokens, totalTokens)
    ensures capacity == |SseUsagePrefix| + |Dec(completionTokens)| + |SseUsageMid|
                        + |Dec(totalTokens)| + |SseUsageSuffix|
    ensures |r| == capacity
  {
    var ctStr := Dec(completionTokens);
    var ttStr := Dec(totalTokens);
    r, capacity := Assemble5(SseUsagePrefix, ctStr, SseUsageMid, ttStr, SseUsageSuffix);
  }

  /** `render_chat_completion`: content, then total, then completion tokens. */
  method RenderChatCompletion(content: string, completionTokens: nat, totalTokens: nat)
    returns (r: string, capacity: nat)
    ensures r == ChatCompletion(content, completionTokens, totalTokens)
    ensures capacity == |ChatPrefix| + |content| + |ChatMid1| + |Dec(totalTokens)|
                        + |ChatMid2| + |Dec(completionTokens)| + |ChatSuffix|
    ensures |r| == capacity
  {
    var ttStr := Dec(totalTokens);
    var ctStr := Dec(completionTokens);
    r, capacity := Assemble7(ChatPrefix, content, ChatMid1, ttStr, ChatMid2, ctStr, ChatSuffix);
  }

  /** `render_sse_done`: the end-of-stream sentinel. */
  method RenderSseDone() returns (r: string)
    ensures r == "[DONE]"
  {
    r := SseTemplateDone;
  }

  // ---------------------------------------------------------------------
  // Reading frames back
  // ---------------------------------------------------------------------

  /** The text between `prefix` and `suffix`, when `f` has that shape. */
  function Between(f: string, prefix: string, suffix: string): (r: Option<string>)
    ensures r.Some? ==> f == prefix + r.value + suffix
  {
    if |prefix| + |suffix| <= |f| && f[..|prefix|] == prefix && f[|f| - |suffix|..] == suffix
    then Some(f[|prefix|..|f| - |suffix|])
    else None
  }

  lemma BetweenOfShape(prefix: string, c: string, suffix: string)
    ensures Between(prefix + c + suffix, prefix, suffix) == Some(c)
  {
    var f := prefix + c + suffix;
    assert f[..|prefix|] == prefix;
    assert f[|f| - |suffix|..] == suffix;
    assert f[|prefix|..|f| - |suffix|] == c;
  }

  function ParseSseChunk(f: string): Option<string> {
    Between(f, SseChunkPrefix, SseChunkSuffix)
  }

  function ParseSseFinish(f: string): Option<string> {
    Between(f, SseChunkPrefix, SseFinishSuffix)
  }

  /** The content of a chunk frame is recovered by stripping prefix and suffix. */
  lemma SseChunkRoundTrip(content: string)
    ensures ParseSseChunk(SseChunk(content)) == Some(content)
  {
    BetweenOfShape(SseChunkPrefix, content, SseChunkSuffix);
  }

  /** Whatever the chunk reader accepts is the chunk frame of what it returns. */
  lemma ParseSseChunkSound(f: string)
    requires ParseSseChunk(f).Some?
    ensures f == SseChunk(ParseSseChunk(f).value)
  {
  }

  lemma SseChunkInjective(c1: string, c2: string)
    requires SseChunk(c1) == SseChunk(c2)
    ensures c1 == c2
  {
    SseChunkRoundTrip(c1);
    SseChunkRoundTrip(c2);
  }

  lemma SseFinishRoundTrip(content: string)
    ensures ParseSseFinish(SseFinish(content)) == Some(content)
  {
    BetweenOfShape(SseChunkPrefix, content, SseFinishSuffix);
  }

  lemma ParseSseFinishSound(f: string)
    requires ParseSseFinish(f).Some?
    ensures f == SseFinish(ParseSseFinish(f).value)
  {
  }

  /**
   * The finish frame is the chunk frame with its suffix exchanged, and no
   * chunk frame is a finish frame or vice versa: the readers tell them apart.
   */
  lemma FinishDiffersOnlyInSuffix(c1: string, c2: string)
    ensures SseFinish(c1) == SseChunk(c1)[..|SseChunk(c1)| - |SseChunkSuffix|] + SseFinishSuffix
    ensures SseChunk(c1) != SseFinish(c2)
    ensures ParseSseChunk(SseFinish(c1)) == None
    ensures ParseSseFinish(SseChunk(c1)) == None
  {
    var chunk, finish := SseChunk(c1), SseFinish(c1);
    assert chunk[..|chunk| - |SseChunkSuffix|] == SseChunkPrefix + c1;
    // Twenty-one characters from the end, the chunk frame has the `l` of
    // `null` where the finish frame has the closing quote of `"length"`.
    assert SseChunkSuffix[|SseChunkSuffix| - 21] == 'l';
    assert SseFinishSuffix[|SseFinishSuffix| - 21] == '"';
    assert chunk[|chunk| - 21] == 'l';
    assert finish[|finish| - 21] == '"';
    var other := SseFinish(c2);
    assert other[|other| - 21] == '"';
    assert finish[|finish| - |SseChunkSuffix|..][|SseChunkSuffix| - 21] == '"';
    assert chunk[|chunk| - |SseFinishSuffix|..][|SseFinishSuffix| - 21] == 'l';
  }

  // -- digit runs ---------------------------------------------------------

  /** Length of the run of digits at the start of `s`. */
  function LeadingDigits(s: string): (k: nat)
    ensures k <= |s|
    ensures AllDigits(s[..k])
    ensures k < |s| ==> !IsDigit(s[k])
    decreases |s|
  {
    if s != [] && IsDigit(s[0]) then
      var k := 1 + LeadingDigits(s[1..]);
      assert s[..k] == [s[0]] + s[1..][..k - 1];
      k
    else 0
  }

  /** Length of the run of digits at the end of `s`. */
  function TrailingDigits(s: string): (k: nat)
    ensures k <= |s|
    ensures AllDigits(s[|s| - k..])
    ensures k < |s| ==> !IsDigit(s[|s| - k - 1])
    decreases |s|
  {
    if s != [] && IsDigit(s[|s| - 1]) then
      var k := 1 + TrailingDigits(s[..|s| - 1]);
      assert s[|s| - k..] == s[..|s| - 1][|s| - k..] + [s[|s| - 1]];
      k
    else 0
  }

  /** A digit run followed by a non-digit (or nothing) is read in full. */
  lemma {:induction false} LeadingDigitsOfJoin(d: string, t: string)
    requires AllDigits(d)
    requires t == [] || !IsDigit(t[0])
    ensures LeadingDigits(d + t) == |d|
    decreases |d|
  {
    if d != [] {
      assert (d + t)[1..] == d[1..] + t;
      LeadingDigitsOfJoin(d[1..], t);
    } else {
      assert d + t == t;
    }
  }

  lemma {:induction false} TrailingDigitsOfJoin(t: string, d: string)
    requires AllDigits(d)
    requires t == [] || !IsDigit(t[|t| - 1])
    ensures TrailingDigits(t + d) == |d|
    decreases |d|
  {
    if d != [] {
      assert (t + d)[..|t + d| - 1] == t + d[..|d| - 1];
      TrailingDigitsOfJoin(t, d[..|d| - 1]);
    } else {
      assert t + d == t;
    }
  }

  // -- pieces of a parser -------------------------------------------------

  /** `s` without the leading `prefix`, when it starts with it. */
  function DropPrefix(s: string, prefix: string): (r: Option<string>)
    ensures r.Some? ==> s == prefix + r.value
  {
    if StartsWith(s, prefix) then Some(s[|prefix|..]) else None
  }

  /** `s` without the trailing `suffix`, when it ends with it. */
  function DropSuffix(s: string, suffix: string): (r: Option<string>)
    ensures r.Some? ==> s == r.value + suffix
  {
    if EndsWith(s, suffix) then Some(s[..|s| - |suffix|]) else None
  }

  lemma DropPrefixOf(prefix: string, t: string)
    ensures DropPrefix(prefix + t, prefix) == Some(t)
  {
    assert (prefix + t)[..|prefix|] == prefix;
    assert (prefix + t)[|prefix|..] == t;
  }

  lemma DropSuffixOf(t: string, suffix: string)
    ensures DropSuffix(t + suffix, suffix) == Some(t)
  {
    var s := t + suffix;
    assert s[|s| - |suffix|..] == suffix;
    assert s[..|s| - |suffix|] == t;
  }

  /** The digits at the start of `s`, and what follows them. */
  function SplitLeadingDigits(s: string): (r: (string, string))
    ensures s == r.0 + r.1
    ensures AllDigits(r.0)
  {
    (s[..LeadingDigits(s)], s[LeadingDigits(s)..])
  }

  /** What precedes the digits at the end of `s`, and those digits. */
  function SplitTrailingDigits(s: string): (r: (string, string))
    ensures s == r.0 + r.1
    ensures AllDigits(r.1)
  {
    (s[..|s| - TrailingDigits(s)], s[|s| - TrailingDigits(s)..])
  }

  lemma SplitLeadingDigitsOf(n: nat, t: string)
    requires t == [] || !IsDigit(t[0])
    ensures SplitLeadingDigits(Dec(n) + t) == (Dec(n), t)
  {
    DecRoundTrip(n);
    LeadingDigitsOfJoin(Dec(n), t);
    assert (Dec(n) + t)[..|Dec(n)|] == Dec(n);
    assert (Dec(n) + t)[|Dec(n)|..] == t;
  }

  lemma SplitTrailingDigitsOf(t: string, n: nat)
    requires t == [] || !IsDigit(t[|t| - 1])
    ensures SplitTrailingDigits(t + Dec(n)) == (t, Dec(n))
  {
    DecRoundTrip(n);
    TrailingDigitsOfJoin(t, Dec(n));
    var s := t + Dec(n);
    assert s[..|s| - |Dec(n)|] == t;
    assert s[|s| - |Dec(n)|..] == Dec(n);
  }

  // -- two counters between fixed fragments --------------------------------

  /** Two decimal counters separated by `mid`. */
  function Counters(body: string, mid: string): Option<(nat, nat)> {
    var first := SplitLeadingDigits(body).0;
    match DropPrefix(SplitLeadingDigits(body).1, mid)
    case None => None
    case Some(second) =>
      if IsDecimal(first) && IsDecimal(second) then Some((DecValue(first), DecValue(second))) else None
  }

  /**
   * Read `pre`, a decimal counter, `mid`, a decimal counter and `suf`, in
   * that order; the parts of a usage frame.
   */
  function CountersBetween(f: string, pre: string, mid: string, suf: string): Option<(nat, nat)> {
    match Between(f, pre, suf)
    case None => None
    case Some(body) => Counters(body, mid)
  }

  lemma CountersOfShape(m: nat, mid: string, n: nat)
    requires |mid| > 0 && !IsDigit(mid[0])
    ensures Counters(Dec(m) + mid + Dec(n), mid) == Some((m, n))
  {
    Regroup(Dec(m), mid, Dec(n));
    SplitLeadingDigitsOf(m, mid + Dec(n));
    DropPrefixOf(mid, Dec(n));
    DecRoundTrip(m);
    DecRoundTrip(n);
  }

  lemma CountersBetweenOfShape(pre: string, m: nat, mid: string, n: nat, suf: string)
    requires |mid| > 0 && !IsDigit(mid[0])
    ensures CountersBetween(pre + Dec(m) + mid + Dec(n) + suf, pre, mid, suf) == Some((m, n))
  {
    Regroup(pre, Dec(m) + mid, Dec(n));
    Regroup(pre, Dec(m), mid);
    BetweenOfShape(pre, Dec(m) + mid + Dec(n), suf);
    CountersOfShape(m, mid, n);
  }

  lemma CountersSound(body: string, mid: string)
    requires Counters(body, mid).Some?
    ensures var p := Counters(body, mid).value;
      body == Dec(p.0) + mid + Dec(p.1)
  {
    var first := SplitLeadingDigits(body).0;
    var second := DropPrefix(SplitLeadingDigits(body).1, mid).value;
    DecOfValue(first);
    DecOfValue(second);
    Regroup(first, mid, second);
  }

  lemma CountersBetweenSound(f: string, pre: string, mid: string, suf: string)
    requires CountersBetween(f, pre, mid, suf).Some?
    ensures var p := CountersBetween(f, pre, mid, suf).value;
      f == pre + Dec(p.0) + mid + Dec(p.1) + suf
  {
    var body := Between(f, pre, suf).value;
    CountersSound(body, mid);
    var p := Counters(body, mid).value;
    Regroup(pre, Dec(p.0) + mid, Dec(p.1));
    Regroup(pre, Dec(p.0), mid);
  }

  // -- usage frames -------------------------------------------------------

  /** Read the two counters back out of a usage frame. */
  function ParseSseUsage(f: string): Option<(nat, nat)> {
    CountersBetween(f, SseUsagePrefix, SseUsageMid, SseUsageSuffix)
  }

  /** Both counters of a usage frame can be read back. */
  lemma SseUsageRoundTrip(completionTokens: nat, totalTokens: nat)
    ensures ParseSseUsage(SseUsage(completionTokens, totalTokens)) == Some((completionTokens, totalTokens))
  {
    assert SseUsageMid[0] == ',';
    CountersBetweenOfShape(SseUsagePrefix, completionTokens, SseUsageMid, totalTokens, SseUsageSuffix);
  }

  /** Whatever the usage reader accepts is the usage frame of the numbers it returns. */
  lemma ParseSseUsageSound(f: string)
    requires ParseSseUsage(f).Some?
    ensures f == SseUsage(ParseSseUsage(f).value.0, ParseSseUsage(f).value.1)
  {
    CountersBetweenSound(f, SseUsagePrefix, SseUsageMid, SseUsageSuffix);
  }

  lemma SseUsageInjective(c1: nat, t1: nat, c2: nat, t2: nat)
    requires SseUsage(c1, t1) == SseUsage(c2, t2)
    ensures c1 == c2 && t1 == t2
  {
    SseUsageRoundTrip(c1, t1);
    SseUsageRoundTrip(c2, t2);
  }

  // -- text and two counters between fixed fragments ----------------------

  /**
   * Free text, `mid1`, a counter, `mid2`, a counter; the text may hold
   * anything, so the counters are read from the right.
   */
  function TextAndCounters(body: string, mid1: string, mid2: string): Option<(string, nat, nat)> {
    var second := SplitTrailingDigits(body).1;
    match DropSuffix(SplitTrailingDigits(body).0, mid2)
    case None => None
    case Some(upToFirst) =>
      var first := SplitTrailingDigits(upToFirst).1;
      match DropSuffix(SplitTrailingDigits(upToFirst).0, mid1)
      case None => None
      case Some(text) =>
        if IsDecimal(first) && IsDecimal(second) then Some((text, DecValue(first), DecValue(second)))
        else None
  }

  function TextAndCountersBetween(f: string, pre: string, mid1: string, mid2: string, suf: string)
    : Option<(string, nat, nat)>
  {
    match Between(f, pre, suf)
    case None => None
    case Some(body) => TextAndCounters(body, mid1, mid2)
  }

  lemma TextAndCountersOfShape(c: string, mid1: string, m: nat, mid2: string, n: nat)
    requires |mid1| > 0 && !IsDigit(mid1[|mid1| - 1])
    requires |mid2| > 0 && !IsDigit(mid2[|mid2| - 1])
    ensures TextAndCounters(c + mid1 + Dec(m) + mid2 + Dec(n), mid1, mid2) == Some((c, m, n))
  {
    var head := c + mid1 + Dec(m) + mid2;
    assert head[|head| - 1] == mid2[|mid2| - 1];
    SplitTrailingDigitsOf(head, n);
    DropSuffixOf(c + mid1 + Dec(m), mid2);
    var text := c + mid1;
    assert text[|text| - 1] == mid1[|mid1| - 1];
    SplitTrailingDigitsOf(text, m);
    DropSuffixOf(c, mid1);
    DecRoundTrip(m);
    DecRoundTrip(n);
  }

  lemma TextAndCountersBetweenOfShape(pre: string, c: string, mid1: string, m: nat, mid2: string, n: nat, suf: string)
    requires |mid1| > 0 && !IsDigit(mid1[|mid1| - 1])
    requires |mid2| > 0 && !IsDigit(mid2[|mid2| - 1])
    ensures TextAndCountersBetween(pre + c + mid1 + Dec(m) + mid2 + Dec(n) + suf, pre, mid1, mid2, suf)
            == Some((c, m, n))
  {
    var body := c + mid1 + Dec(m) + mid2 + Dec(n);
    assert pre + c + mid1 + Dec(m) + mid2 + Dec(n) + suf == pre + body + suf;
    BetweenOfShape(pre, body, suf);
    TextAndCountersOfShape(c, mid1, m, mid2, n);
  }

  lemma TextAndCountersSound(body: string, mid1: string, mid2: string)
    requires TextAndCounters(body, mid1, mid2).Some?
    ensures var p := TextAndCounters(body, mid1, mid2).value;
      body == p.0 + mid1 + Dec(p.1) + mid2 + Dec(p.2)
  {
    var second := SplitTrailingDigits(body).1;
    var upToFirst := DropSuffix(SplitTrailingDigits(body).0, mid2).value;
    var first := SplitTrailingDigits(upToFirst).1;
    var text := DropSuffix(SplitTrailingDigits(upToFirst).0, mid1).value;
    assert TextAndCounters(body, mid1, mid2).value == (text, DecValue(first), DecValue(second));
    DecOfValue(first);
    DecOfValue(second);
    assert upToFirst == text + mid1 + first;
  }

  lemma TextAndCountersBetweenSound(f: string, pre: string, mid1: string, mid2: string, suf: string)
    requires TextAndCountersBetween(f, pre, mid1, mid2, suf).Some?
    ensures var p := TextAndCountersBetween(f, pre, mid1, mid2, suf).value;
      f == pre + p.0 + mid1 + Dec(p.1) + mid2 + Dec(p.2) + suf
  {
    var body := Between(f, pre, suf).value;
    TextAndCountersSound(body, mid1, mid2);
    var p := TextAndCounters(body, mid1, mid2).value;
    Regroup(pre, p.0 + mid1 + Dec(p.1) + mid2, Dec(p.2));
    Regroup(pre, p.0 + mid1 + Dec(p.1), mid2);
    Regroup(pre, p.0 + mid1, Dec(p.1));
    Regroup(pre, p.0, mid1);
  }

  // -- chat completions ---------------------------------------------------

  /**
   * Read content, completion and total tokens back out of a chat completion,
   * which carries the total before the completion count.
   */
  function ParseChatCompletion(f: string): Option<(string, nat, nat)> {
    match TextAndCountersBetween(f, ChatPrefix, ChatMid1, ChatMid2, ChatSuffix)
    case None => None
    case Some(p) => Some((p.0, p.2, p.1))
  }

  /** Content and both counters of a chat completion can be read back. */
  lemma ChatCompletionRoundTrip(content: string, completionTokens: nat, totalTokens: nat)
    ensures ParseChatCompletion(ChatCompletion(content, completionTokens, totalTokens))
            == Some((content, completionTokens, totalTokens))
  {
    assert ChatMid1[|ChatMid1| - 1] == ':';
    assert ChatMid2[|ChatMid2| - 1] == ':';
    TextAndCountersBetweenOfShape(ChatPrefix, content, ChatMid1, totalTokens, ChatMid2, completionTokens, ChatSuffix);
  }

  /** Whatever the chat reader accepts is the chat completion of what it returns. */
  lemma ParseChatCompletionSound(f: string)
    requires ParseChatCompletion(f).Some?
    ensures var p := ParseChatCompletion(f).value; f == ChatCompletion(p.0, p.1, p.2)
  {
    TextAndCountersBetweenSound(f, ChatPrefix, ChatMid1, ChatMid2, ChatSuffix);
  }

  lemma ChatCompletionInjective(c1: string, n1: nat, t1: nat, c2: string, n2: nat, t2: nat)
    requires ChatCompletion(c1, n1, t1) == ChatCompletion(c2, n2, t2)
    ensures c1 == c2 && n1 == n2 && t1 == t2
  {
    ChatCompletionRoundTrip(c1, n1, t1);
    ChatCompletionRoundTrip(c2, n2, t2);
  }
}
