/**
 * The streaming session: a cursor over the read-only token corpus, a token
 * budget and a usage flag, driven one poll at a time through the states
 * Input, Start, Usage, Done and Completed.
 *
 * The delays the session sleeps between frames are replaced by one input
 * per poll, `timerReady`: whether the delay armed by the previous poll has
 * elapsed. The frames are kept as values; only the content chunk's text is
 * written out (the chunk template with its placeholder replaced).
 */
module Stream {
  import opened RustStd
  import Corpus

  // ---------------------------------------------------------------------
  // The chunk template
  // ---------------------------------------------------------------------

  // The serialised chunk response, field by field, up to the content value ...
  const ChunkId: string := "{\"id\":\"chat-completion-000000000\","
  const ChunkObject: string := "\"object\":\"chat.completion.chunk\","
  const ChunkCreatedModel: string := "\"created\":0,\"model\":\"gpt-1-turbo\","
  const ChunkFingerprint: string := "\"system_fingerprint\":\"fp_0000000000\","
  const ChunkChoice: string := "\"choices\":[{\"index\":0,"
  const ChunkDelta: string := "\"delta\":{\"role\":\"assistant\",\"content\":\""
  const ChunkHead: string := ChunkId + ChunkObject + ChunkCreatedModel + ChunkFingerprint + ChunkChoice + ChunkDelta
  // ... and after it.
  const ChunkTail: string := "\"},\"logprobs\":null,\"finish_reason\":null}]}"
  const InputPlaceholder: string := "[INPUT]"

  /** The chunk response serialised with the placeholder as its content. */
  const ChunkTemplate: string := ChunkHead + InputPlaceholder + ChunkTail

  /** The text of the content chunk for `token`: every placeholder replaced by it. */
  function ChunkData(token: string): string {
    Replace(ChunkTemplate, InputPlaceholder, token)
  }

  // No `N` appears outside the placeholder, so `[INPUT]` can only match there; one field at a time.
  lemma IdLacksN() ensures 'N' !in ChunkId {}
  lemma ObjectLacksN() ensures 'N' !in ChunkObject {}
  lemma CreatedModelLacksN() ensures 'N' !in ChunkCreatedModel {}
  lemma FingerprintLacksN() ensures 'N' !in ChunkFingerprint {}
  lemma ChoiceLacksN() ensures 'N' !in ChunkChoice {}
  lemma DeltaLacksN() ensures 'N' !in ChunkDelta && ChunkDelta[|ChunkDelta| - 1] == '"' {}
  lemma TailLacksN() ensures 'N' !in ChunkTail {}

  /**
   * The template holds the placeholder exactly once, so a chunk is the token
   * between the fixed head and tail, whatever the token contains (inserted
   * text is not scanned again).
   */
  lemma ChunkDataShape(token: string)
    ensures ChunkData(token) == ChunkHead + token + ChunkTail
  {
    IdLacksN();
    ObjectLacksN();
    CreatedModelLacksN();
    FingerprintLacksN();
    ChoiceLacksN();
    DeltaLacksN();
    TailLacksN();
    assert ChunkHead[|ChunkHead| - 1] == ChunkDelta[|ChunkDelta| - 1];
    ReplaceSingle(ChunkHead, InputPlaceholder, ChunkTail, token, 'N');
  }

  /** Different tokens give different chunks: the token can be read back. */
  lemma ChunkDataInjective(t1: string, t2: string)
    requires ChunkData(t1) == ChunkData(t2)
    ensures t1 == t2
  {
    ChunkDataShape(t1);
    ChunkDataShape(t2);
    var d := ChunkData(t1);
    assert d[|ChunkHead|..|d| - |ChunkTail|] == t1;
    assert d[|ChunkHead|..|d| - |ChunkTail|] == t2;
  }

  // ---------------------------------------------------------------------
  // States, frames, the transition function
  // ---------------------------------------------------------------------

  datatype State = Input | Start | Done | Usage | Completed

  datatype Frame =
    | Chunk(data: string)
    | Finish
    | UsageReport(promptTokens: int, completionTokens: int, totalTokens: int)
    | DoneMarker

  datatype PollResult = Pending | Ready(frame: Frame) | End

  /** What a session never changes: its token sequence, its budget and its usage flag. */
  datatype Config = Config(strings: seq<string>, maxTokens: nat, includeUsage: bool)

  /** What a poll may change; `sleeping` says a delay is armed. */
  datatype Snapshot = Snapshot(state: State, index: nat, sleeping: bool)

  const Initial: Snapshot := Snapshot(Input, 0, false)

  /**
   * The reachable combinations: the cursor stays within the budget and the
   * budget within the tokens; only Start sleeps; past Start the whole budget
   * has been emitted; Usage happens only when usage was asked for.
   */
  predicate Consistent(c: Config, s: Snapshot) {
    && c.maxTokens <= |c.strings|
    && s.index <= c.maxTokens
    && (s.sleeping ==> s.state == Start)
    && (s.state == Input ==> s.index == 0)
    && (s.state == Usage ==> c.includeUsage)
    && (s.state == Usage || s.state == Done || s.state == Completed ==> s.index == c.maxTokens)
  }

  /** The usage frame: no prompt tokens, the budget (as `i32`) as completion and total. */
  function UsageFrame(c: Config): Frame {
    UsageReport(0, AsI32(c.maxTokens), AsI32(c.maxTokens))
  }

  /** One poll: the new snapshot and what the poll returns. */
  function Step(c: Config, s: Snapshot, timerReady: bool): (r: (Snapshot, PollResult))
    requires Consistent(c, s)
    ensures Consistent(c, r.0)
    ensures r.0.index == s.index || r.0.index == s.index + 1
    ensures r.1.End? ==> r.0 == s
  {
    if s.sleeping && !timerReady then (s, Pending)
    else
      match s.state
      case Input => (Snapshot(Start, s.index, true), Pending)
      case Start =>
        if s.index < c.maxTokens then
          (Snapshot(Start, s.index + 1, true), Ready(Chunk(ChunkData(c.strings[s.index]))))
        else
          (Snapshot(if c.includeUsage then Usage else Done, s.index, false), Ready(Finish))
      case Usage => (Snapshot(Done, s.index, false), Ready(UsageFrame(c)))
      case Done => (Snapshot(Completed, s.index, false), Ready(DoneMarker))
      case Completed => (s, End)
  }

  /**
   * The timer gate: while an armed delay has not elapsed the poll is Pending
   * and nothing changes; once it has, the delay is cleared and the poll goes
   * on as in an unarmed session.
   */
  lemma SleepGate(c: Config, s: Snapshot)
    requires Consistent(c, s) && s.sleeping
    ensures Step(c, s, false) == (s, Pending)
    ensures Consistent(c, s.(sleeping := false))
    ensures Step(c, s, true) == Step(c, s.(sleeping := false), false)
  {
  }

  /** The first poll of a new session emits nothing: it arms the first-token delay and moves to Start. */
  lemma FirstPollArms(c: Config, timerReady: bool)
    requires c.maxTokens <= |c.strings|
    ensures Consistent(c, Initial)
    ensures Step(c, Initial, timerReady) == (Snapshot(Start, 0, true), Pending)
  {
  }

  /**
   * A poll in Start once the delay has elapsed: while the budget lasts it
   * emits the token under the cursor, advances the cursor and re-arms the
   * delay; after the budget it emits the finish frame and moves on to Usage
   * when usage was asked for and to Done otherwise.
   */
  lemma StartStep(c: Config, s: Snapshot)
    requires Consistent(c, s) && s.state == Start
    ensures s.index < c.maxTokens ==>
      Step(c, s, true) == (Snapshot(Start, s.index + 1, true), Ready(Chunk(ChunkData(c.strings[s.index]))))
    ensures s.index == c.maxTokens ==>
      Step(c, s, true) == (Snapshot(if c.includeUsage then Usage else Done, s.index, false), Ready(Finish))
  {
  }

  // ---------------------------------------------------------------------
  // The whole stream
  // ---------------------------------------------------------------------

  function Chunks(tokens: seq<string>): (r: seq<Frame>)
    ensures |r| == |tokens|
    ensures forall i :: 0 <= i < |tokens| ==> r[i] == Chunk(ChunkData(tokens[i]))
  {
    seq(|tokens|, i requires 0 <= i < |tokens| => Chunk(ChunkData(tokens[i])))
  }

  /**
   * The frames a session emits, in order: a chunk per token of the budget,
   * the finish frame, the usage frame when usage was asked for, `[DONE]`.
   */
  function ExpectedTrace(c: Config): seq<Frame>
    requires c.maxTokens <= |c.strings|
  {
    Chunks(c.strings[..c.maxTokens]) + [Finish]
      + (if c.includeUsage then [UsageFrame(c)] else []) + [DoneMarker]
  }

  /** How many frames of the trace a session in snapshot `s` has emitted. */
  function Emitted(c: Config, s: Snapshot): nat
    requires c.maxTokens <= |c.strings|
  {
    match s.state
    case Input => 0
    case Start => s.index
    case Usage => c.maxTokens + 1
    case Done => c.maxTokens + 1 + (if c.includeUsage then 1 else 0)
    case Completed => |ExpectedTrace(c)|
  }

  /** The trace has exactly the announced frames, each where it is announced and nowhere else. */
  lemma ExpectedTraceShape(c: Config)
    requires c.maxTokens <= |c.strings|
    ensures var e, n := ExpectedTrace(c), c.maxTokens;
      && |e| == n + 2 + (if c.includeUsage then 1 else 0)
      && (forall i :: 0 <= i < n ==> e[i] == Chunk(ChunkData(c.strings[i])))
      && (forall i :: 0 <= i < |e| && e[i].Chunk? ==> i < n)
      && (forall i :: 0 <= i < |e| && e[i] == Finish ==> i == n)
      && e[n] == Finish
      && (c.includeUsage ==> e[n + 1] == UsageFrame(c))
      && (forall i :: 0 <= i < |e| && e[i].UsageReport? ==> c.includeUsage && i == n + 1)
      && (forall i :: 0 <= i < |e| && e[i] == DoneMarker ==> i == |e| - 1)
      && e[|e| - 1] == DoneMarker
  {
  }

  /**
   * Every poll follows the trace: a frame is the next frame of the trace,
   * Pending moves nothing along, and the end of the stream comes only after
   * the whole trace.
   */
  lemma StepFollowsTrace(c: Config, s: Snapshot, timerReady: bool)
    requires Consistent(c, s)
    ensures var r := Step(c, s, timerReady);
      && Emitted(c, s) <= |ExpectedTrace(c)|
      && (r.1.Ready? ==>
            && Emitted(c, s) < |ExpectedTrace(c)|
            && ExpectedTrace(c)[Emitted(c, s)] == r.1.frame
            && Emitted(c, r.0) == Emitted(c, s) + 1)
      && (!r.1.Ready? ==> Emitted(c, r.0) == Emitted(c, s))
      && (r.1.End? <==> s.state == Completed)
  {
    ExpectedTraceShape(c);
  }

  /** Poll results for a schedule of timer readings, and the snapshot after them. */
  function Run(c: Config, s: Snapshot, schedule: seq<bool>): (r: (Snapshot, seq<PollResult>))
    requires Consistent(c, s)
    ensures Consistent(c, r.0)
    ensures |r.1| == |schedule|
    decreases |schedule|
  {
    if schedule == [] then (s, [])
    else
      var first := Step(c, s, schedule[0]);
      var rest := Run(c, first.0, schedule[1..]);
      (rest.0, [first.1] + rest.1)
  }

  /** The frames among poll results, in order. */
  function Frames(results: seq<PollResult>): seq<Frame>
    decreases |results|
  {
    if results == [] then []
    else (if results[0].Ready? then [results[0].frame] else []) + Frames(results[1..])
  }

  lemma {:induction false} FramesAppend(a: seq<PollResult>, b: seq<PollResult>)
    ensures Frames(a + b) == Frames(a) + Frames(b)
    decreases |a|
  {
    if a != [] {
      assert (a + b)[1..] == a[1..] + b;
      FramesAppend(a[1..], b);
    } else {
      assert a + b == b;
    }
  }

  lemma FramesOfOne(r: PollResult)
    ensures Frames([r]) == if r.Ready? then [r.frame] else []
  {
    assert [r][1..] == [];
  }

  /** Whatever the schedule, the frames emitted continue the trace from where the session was. */
  lemma {:induction false} RunFollowsTrace(c: Config, s: Snapshot, schedule: seq<bool>)
    requires Consistent(c, s)
    ensures var r := Run(c, s, schedule);
      && Emitted(c, s) <= Emitted(c, r.0) <= |ExpectedTrace(c)|
      && Frames(r.1) == ExpectedTrace(c)[Emitted(c, s)..Emitted(c, r.0)]
    decreases |schedule|
  {
    var e := ExpectedTrace(c);
    StepFollowsTrace(c, s, if schedule == [] then false else schedule[0]);
    if schedule != [] {
      var first := Step(c, s, schedule[0]);
      var rest := Run(c, first.0, schedule[1..]);
      RunFollowsTrace(c, first.0, schedule[1..]);
      var a, b, z := Emitted(c, s), Emitted(c, first.0), Emitted(c, rest.0);
      assert Run(c, s, schedule) == (rest.0, [first.1] + rest.1);
      FramesAppend([first.1], rest.1);
      FramesOfOne(first.1);
      ContinueTrace(e, a, b, z, first.1, Frames(rest.1));
    }
  }

  /** One poll result followed by a stretch of the trace is the stretch one frame earlier. */
  lemma ContinueTrace(e: seq<Frame>, a: nat, b: nat, z: nat, r: PollResult, rest: seq<Frame>)
    requires a <= b <= z <= |e|
    requires r.Ready? ==> a < |e| && e[a] == r.frame && b == a + 1
    requires !r.Ready? ==> b == a
    requires rest == e[b..z]
    ensures (if r.Ready? then [r.frame] else []) + rest == e[a..z]
  {
    if r.Ready? {
      assert e[a..z] == [e[a]] + e[b..z];
    }
  }

  /** Running a prefix of the schedule gives a prefix of the results. */
  lemma {:induction false} RunPrefix(c: Config, s: Snapshot, schedule: seq<bool>, j: nat)
    requires Consistent(c, s) && j <= |schedule|
    ensures Run(c, s, schedule[..j]).1 == Run(c, s, schedule).1[..j]
    decreases j
  {
    if j > 0 {
      var first := Step(c, s, schedule[0]);
      assert schedule[..j][0] == schedule[0];
      assert schedule[..j][1..] == schedule[1..][..j - 1];
      RunPrefix(c, first.0, schedule[1..], j - 1);
    }
  }

  /** The end of the stream is reported only once every frame of the trace has been emitted. */
  lemma {:induction false} RunEndsAfterTrace(c: Config, s: Snapshot, schedule: seq<bool>, j: nat)
    requires Consistent(c, s)
    requires j < |schedule| && Run(c, s, schedule).1[j].End?
    ensures Emitted(c, s) + |Frames(Run(c, s, schedule).1[..j])| == |ExpectedTrace(c)|
    decreases j
  {
    var first := Step(c, s, schedule[0]);
    var rest := Run(c, first.0, schedule[1..]);
    var results := Run(c, s, schedule).1;
    assert results == [first.1] + rest.1;
    StepFollowsTrace(c, s, schedule[0]);
    if j == 0 {
      assert results[..0] == [];
    } else {
      assert results[..j] == [first.1] + rest.1[..j - 1];
      FramesAppend([first.1], rest.1[..j - 1]);
      RunEndsAfterTrace(c, first.0, schedule[1..], j - 1);
    }
  }

  /**
   * The stream of a new session, for any timing of the delays: its frames
   * are always a prefix of the expected trace, and once it reports the end,
   * the frames before were the whole trace.
   */
  lemma SessionTrace(c: Config, schedule: seq<bool>)
    requires c.maxTokens <= |c.strings|
    ensures var results := Run(c, Initial, schedule).1;
      && Frames(results) <= ExpectedTrace(c)
      && (forall j :: 0 <= j < |results| && results[j].End? ==> Frames(results[..j]) == ExpectedTrace(c))
  {
    var results := Run(c, Initial, schedule).1;
    RunFollowsTrace(c, Initial, schedule);
    forall j | 0 <= j < |results| && results[j].End?
      ensures Frames(results[..j]) == ExpectedTrace(c)
    {
      RunPrefix(c, Initial, schedule, j);
      RunFollowsTrace(c, Initial, schedule[..j]);
      RunEndsAfterTrace(c, Initial, schedule, j);
    }
  }

  /** A schedule in which every delay has elapsed by the next poll. */
  function AllReady(m: nat): (r: seq<bool>)
    ensures |r| == m
    ensures forall i :: 0 <= i < m ==> r[i]
  {
    seq(m, _ => true)
  }

  /** With every delay elapsed, each poll after the first emits the next frame until the trace is done. */
  lemma {:induction false} RunAllReady(c: Config, s: Snapshot, m: nat)
    requires Consistent(c, s) && s.state != Input
    ensures Emitted(c, Run(c, s, AllReady(m)).0) == Min(Emitted(c, s) + m, |ExpectedTrace(c)|)
    decreases m
  {
    StepFollowsTrace(c, s, true);
    if m > 0 {
      var first := Step(c, s, true);
      assert AllReady(m)[1..] == AllReady(m - 1);
      RunAllReady(c, first.0, m - 1);
    }
  }

  /**
   * Liveness: when each delay has elapsed by the next poll, the first poll
   * only arms the first-token delay and the next polls emit the whole trace,
   * one frame each; every poll after that reports the end.
   */
  lemma SessionCompletes(c: Config, extra: nat)
    requires c.maxTokens <= |c.strings|
    ensures var e := ExpectedTrace(c);
      var results := Run(c, Initial, AllReady(|e| + 1 + extra)).1;
      && results[0] == Pending
      && Frames(results) == e
      && (forall j :: |e| + 1 <= j < |results| ==> results[j].End?)
  {
    var e := ExpectedTrace(c);
    var m := |e| + 1 + extra;
    FirstPollArms(c, true);
    RunSplit(c, Initial, AllReady(m), 0);
    assert AllReady(m)[..0] == [];
    AllReadyEmitsTrace(c, m);
    RunFollowsTrace(c, Initial, AllReady(m));
    assert e[0..|e|] == e;
    forall j | |e| + 1 <= j < m
      ensures Run(c, Initial, AllReady(m)).1[j].End?
    {
      EndAfterTrace(c, m, j);
    }
  }

  /** After the first poll and one poll per frame, every frame of the trace has been emitted. */
  lemma AllReadyEmitsTrace(c: Config, m: nat)
    requires c.maxTokens <= |c.strings|
    requires m >= |ExpectedTrace(c)| + 1
    ensures Emitted(c, Run(c, Initial, AllReady(m)).0) == |ExpectedTrace(c)|
  {
    var first := Step(c, Initial, true);
    assert AllReady(m)[1..] == AllReady(m - 1);
    RunAllReady(c, first.0, m - 1);
  }

  /** The poll at position `j`, once the trace is out, reports the end. */
  lemma EndAfterTrace(c: Config, m: nat, j: nat)
    requires c.maxTokens <= |c.strings|
    requires |ExpectedTrace(c)| + 1 <= j < m
    ensures Run(c, Initial, AllReady(m)).1[j].End?
  {
    var sch := AllReady(m);
    assert sch[..j] == AllReady(j);
    AllReadyEmitsTrace(c, j);
    var mid := Run(c, Initial, AllReady(j)).0;
    CompletedExactly(c, mid);
    RunSplit(c, Initial, sch, j);
    StepFollowsTrace(c, mid, true);
  }

  /** All frames emitted means the session is in Completed. */
  lemma CompletedExactly(c: Config, s: Snapshot)
    requires Consistent(c, s)
    ensures Emitted(c, s) == |ExpectedTrace(c)| <==> s.state == Completed
  {
  }

  /** The result at position `j` is that of one step from the snapshot reached after `j` polls. */
  lemma {:induction false} RunSplit(c: Config, s: Snapshot, schedule: seq<bool>, j: nat)
    requires Consistent(c, s) && j < |schedule|
    ensures Run(c, s, schedule).1[j] == Step(c, Run(c, s, schedule[..j]).0, schedule[j]).1
    decreases j
  {
    var first := Step(c, s, schedule[0]);
    if j > 0 {
      assert schedule[..j][0] == schedule[0];
      assert schedule[..j][1..] == schedule[1..][..j - 1];
      RunSplit(c, first.0, schedule[1..], j - 1);
    } else {
      assert schedule[..0] == [];
    }
  }

  /** Completed absorbs: every later poll reports the end and changes nothing. */
  lemma CompletedAbsorbing(c: Config, s: Snapshot, schedule: seq<bool>)
    requires Consistent(c, s) && s.state == Completed
    ensures var r := Run(c, s, schedule);
      r.0 == s && forall j :: 0 <= j < |r.1| ==> r.1[j] == End
    decreases |schedule|
  {
    if schedule != [] {
      CompletedAbsorbing(c, s, schedule[1..]);
    }
  }

  // ---------------------------------------------------------------------
  // The session object
  // ---------------------------------------------------------------------

  class StringsStream {
    const strings: seq<string>
    const maxTokens: nat
    const includeUsage: bool
    var index: nat
    var state: State
    var sleeping: bool

    function Cfg(): Config {
      Config(strings, maxTokens, includeUsage)
    }

    function Snap(): Snapshot
      reads this
    {
      Snapshot(state, index, sleeping)
    }

    ghost predicate Valid()
      reads this
    {
      Consistent(Cfg(), Snap())
    }

    /**
     * `StringsStream::new`: at the first token, in Input, no delay armed;
     * without a budget the budget is the corpus length. The budget must not
     * exceed the tokens, or the cursor would run past them.
     */
    constructor(strings: seq<string>, maxTokens: Option<nat>, includeUsage: bool)
      requires maxTokens.UnwrapOr(Corpus.MaxTokens(strings)) <= |strings|
      ensures Valid()
      ensures this.strings == strings && this.includeUsage == includeUsage
      ensures this.maxTokens == maxTokens.UnwrapOr(Corpus.MaxTokens(strings))
      ensures Snap() == Initial
    {
      this.strings := strings;
      this.maxTokens := maxTokens.UnwrapOr(Corpus.MaxTokens(strings));
      this.includeUsage := includeUsage;
      index := 0;
      state := Input;
      sleeping := false;
    }

    /** `poll_next`, with the armed delay's readiness given as `timerReady`. */
    method Poll(timerReady: bool) returns (r: PollResult)
      requires Valid()
      modifies this
      ensures Valid()
      ensures (Snap(), r) == Step(Cfg(), old(Snap()), timerReady)
    {
      if sleeping {
        if !timerReady {
          return Pending;
        }
        sleeping := false;
      }
      match state
      case Input =>
        sleeping := true;
        state := Start;
        r := Pending;
      case Start =>
        if index < maxTokens {
          sleeping := true;
          var token := strings[index];
          index := index + 1;
          r := Ready(Chunk(ChunkData(token)));
        } else {
          if includeUsage {
            state := Usage;
          } else {
            state := Done;
          }
          r := Ready(Finish);
        }
      case Usage =>
        state := Done;
        r := Ready(UsageReport(0, AsI32(maxTokens), AsI32(maxTokens)));
      case Done =>
        state := Completed;
        r := Ready(DoneMarker);
      case Completed =>
        r := End;
    }
  }
}
