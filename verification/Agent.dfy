/** One user turn against the model, and the worker that runs turns
    (crates/mc-agent/src/lib.rs, crates/mc-agent/src/worker.rs).

    A turn is a bounded loop of rounds. Each round streams a response, retrying what broke in
    transit, and runs the tools it asks for; it can be stopped anywhere, refused for length
    and compacted once, or declined. Two records are written on the way: the transcript, and
    the events a reader sees.

    The model server, the tools, the user's stop button and the summarizer are inputs: for
    each round a `Round` says what they do. */
module Agent {
  import opened Basics
  import opened Wire
  import Transcript
  import Chat

  type Turn = Transcript.Turn
  type Event = Chat.Event

  const MAX_TOOL_ROUNDS: nat := 64
  const MAX_STREAM_RETRIES: nat := 4
  const U32: nat := 0x1_0000_0000

  datatype AgentError =
    | HttpError(transient: bool, reason: string)
    | ApiError(status: nat, body: string)
    | DecodeError
    | Truncated(reason: string)
    | StreamError(message: string)
    | Refused
    | Runaway
    | Cancelled

  datatype Result<+T> = Ok(value: T) | Err(error: AgentError)

  datatype Config = Config(
    showThinking: bool,
    compactAtTokens: nat,
    keepRecentTurns: nat,
    parse: string -> Option<Json>,
    describe: AgentError -> string)

  /** How a response stream ends when no `message_stop` arrives. */
  datatype Ending = Closed | Broken(reason: string) | Undecodable | ServerError(message: string) | StoppedByUser

  /** One request: it could not be sent, was refused, or streamed these events. */
  datatype Attempt =
    | SendFailed(transient: bool, reason: string)
    | BadStatus(status: nat, body: string)
    | Response(events: seq<WireEvent>, ending: Ending)

  datatype ToolOutcome = ToolOutcome(text: string, isError: bool)

  const STOPPED := ToolOutcome("Not run: the user stopped the turn.", true)

  datatype ToolStep = ToolStep(stop: bool, outcome: ToolOutcome)

  datatype Round = Round(
    stopBefore: bool,
    attempts: nat -> Attempt,
    tools: nat -> ToolStep,
    summary: Option<string>)

  /** The conversation and everything published about it. */
  datatype Conv = Conv(transcript: seq<Turn>, summary: Option<string>, bus: seq<Event>)

  function Emit(c: Conv, es: seq<Event>): Conv { c.(bus := c.bus + es) }

  function PushTurn(c: Conv, t: Turn): Conv { c.(transcript := c.transcript + [t]) }

  // ---------------------------------------------------------------- errors about length

  predicate Contains(s: string, needle: string) {
    exists i :: 0 <= i <= |s| && needle <= s[i..]
  }

  predicate IsTooLong(e: AgentError) {
    && e.ApiError? && (e.status == 400 || e.status == 413)
    && var body := Lower(e.body);
       || Contains(body, "prompt is too long") || Contains(body, "too long") || Contains(body, "context length")
       || Contains(body, "context_length") || Contains(body, "maximum context")
  }

  // ---------------------------------------------------------------- one response

  /** The events before the end of the message. */
  function BeforeStop(es: seq<WireEvent>): seq<WireEvent> {
    if es == [] || es[0].MessageStop? then [] else [es[0]] + BeforeStop(es[1..])
  }

  predicate HasStop(es: seq<WireEvent>) {
    exists i :: 0 <= i < |es| && es[i].MessageStop?
  }

  function Publish(cfg: Config, e: Emitted): seq<Event> {
    match e
    case EmitText(text) => [Chat.TextDeltaEvent(text)]
    case EmitThinking(text) => if cfg.showThinking then [Chat.ThinkingDeltaEvent(text)] else []
    case _ => []
  }

  /** What a stream of deltas shows the reader. */
  function Published(cfg: Config, a: Accumulator, es: seq<WireEvent>): seq<Event>
    decreases |es|
  {
    if es == [] then [] else Publish(cfg, Emission(a, es[0])) + Published(cfg, Push(a, es[0]), es[1..])
  }

  function EndingError(ending: Ending): AgentError {
    match ending
    case Closed => Truncated("connection closed without a message_stop event")
    case Broken(reason) => Truncated("transport: " + reason)
    case Undecodable => DecodeError
    case ServerError(message) => StreamError(message)
    case StoppedByUser => Cancelled
  }

  function AttemptEvents(cfg: Config, a: Attempt): seq<Event> {
    if a.Response? then Published(cfg, EMPTY, BeforeStop(a.events)) else []
  }

  function AttemptResult(cfg: Config, a: Attempt): Result<Message> {
    match a
    case SendFailed(transient, reason) => Err(HttpError(transient, reason))
    case BadStatus(status, body) => Err(ApiError(status, body))
    case Response(events, ending) =>
      if HasStop(events) then Ok(Finish(cfg.parse, Fold(EMPTY, BeforeStop(events)))) else Err(EndingError(ending))
  }

  /** Worth another attempt, and why. */
  function Transient(r: Result<Message>): Option<string> {
    match r
    case Err(Truncated(reason)) => Some(reason)
    case Err(HttpError(true, reason)) => Some("transport: " + reason)
    case _ => None
  }

  predicate Retries(cfg: Config, a: Attempt, n: nat) {
    Transient(AttemptResult(cfg, a)).Some? && n < MAX_STREAM_RETRIES
  }

  /** Everything published from attempt `n` on. */
  function RetryEvents(cfg: Config, attempts: nat -> Attempt, n: nat): seq<Event>
    decreases MAX_STREAM_RETRIES - n
  {
    var a := attempts(n);
    if Retries(cfg, a, n) then
      AttemptEvents(cfg, a) + [Chat.StreamRetrying(n + 1, Transient(AttemptResult(cfg, a)).value)]
      + RetryEvents(cfg, attempts, n + 1)
    else AttemptEvents(cfg, a)
  }

  function RetryResult(cfg: Config, attempts: nat -> Attempt, n: nat): Result<Message>
    decreases MAX_STREAM_RETRIES - n
  {
    var a := attempts(n);
    if Retries(cfg, a, n) then RetryResult(cfg, attempts, n + 1) else AttemptResult(cfg, a)
  }

  // ---------------------------------------------------------------- tools and compaction

  /** Once stopped, the remaining calls are answered without being run. */
  predicate StoppedBy(tools: nat -> ToolStep, n: nat) {
    exists k :: 0 <= k < n && tools(k).stop
  }

  function OutcomeOf(tools: nat -> ToolStep, k: nat): ToolOutcome {
    if StoppedBy(tools, k + 1) then STOPPED else tools(k).outcome
  }

  function ToolEvents(uses: seq<Block>, tools: nat -> ToolStep): seq<Event>
    requires forall u :: u in uses ==> u.ToolUse?
  {
    if uses == [] then []
    else
      var k := |uses| - 1;
      var u, o := uses[k], OutcomeOf(tools, k);
      ToolEvents(uses[..k], tools) + [Chat.ToolRequested(u.id, u.name, u.input), Chat.ToolCompleted(u.id, o.isError, o.text)]
  }

  function ResultBlocks(uses: seq<Block>, tools: nat -> ToolStep): seq<Block>
    requires forall u :: u in uses ==> u.ToolUse?
  {
    if uses == [] then []
    else
      var k := |uses| - 1;
      ResultBlocks(uses[..k], tools) + [ToolResult(uses[k].id, OutcomeOf(tools, k).text, OutcomeOf(tools, k).isError)]
  }

  /** How many turns compaction drops: none without a safe cut or without a summary. */
  function Dropped(cfg: Config, c: Conv, summary: Option<string>): nat {
    var cut := Transcript.CompactionCut(c.transcript, cfg.keepRecentTurns);
    if cut.None? || summary.None? then 0 else Min(cut.value, |c.transcript|)
  }

  function CompactNow(cfg: Config, c: Conv, summary: Option<string>): Conv {
    var cut := Transcript.CompactionCut(c.transcript, cfg.keepRecentTurns);
    if cut.None? || summary.None? then c
    else Conv(Transcript.Compact(c.transcript, cut.value), summary,
              c.bus + [Chat.CompactedEvent(Min(cut.value, |c.transcript|))])
  }

  function InputTokens(usage: Json): Option<nat> {
    if usage.Obj? && "input_tokens" in usage.fields && usage.fields["input_tokens"].Num? && usage.fields["input_tokens"].n >= 0
    then Some(usage.fields["input_tokens"].n % U32) else None
  }

  function UsageEvents(usage: Json): seq<Event> {
    var tokens := InputTokens(usage);
    if tokens.Some? then [Chat.ContextUsage(tokens.value)] else []
  }

  function CompactIfFull(cfg: Config, c: Conv, used: Option<nat>, summary: Option<string>): Conv {
    if used.None? || used.value < cfg.compactAtTokens then c else CompactNow(cfg, c, summary)
  }

  // ---------------------------------------------------------------- one turn

  datatype Step = Continue(conv: Conv, compacted: bool) | Finished(conv: Conv, result: Result<()>)

  function FinishCancelled(c: Conv): Step {
    Finished(Emit(c, [Chat.TurnEnded("cancelled")]), Ok(()))
  }

  lemma {:induction false} ToolUsesAreCalls(content: seq<Block>)
    ensures forall u :: u in ToolUses(content) ==> u.ToolUse?
  {
    if content == [] {
    } else {
      ToolUsesAreCalls(content[..|content| - 1]);
    }
  }

  /** A message arrived: record it, then refuse, end, or run its tools. */
  function OnMessage(cfg: Config, c: Conv, m: Message, round: Round, compacted: bool): Step {
    ToolUsesAreCalls(m.content);
    var pushed := PushTurn(Emit(c, UsageEvents(m.usage)), Transcript.AssistantTurn(m.content));
    var uses := ToolUses(m.content);
    if m.stopReason == "refusal" then
      Finished(Emit(pushed, [Chat.Failed("the model declined this request")]), Err(Refused))
    else if uses == [] then
      Finished(CompactIfFull(cfg, Emit(pushed, [Chat.TurnEnded(m.stopReason)]), InputTokens(m.usage), round.summary), Ok(()))
    else
      var answered := PushTurn(Emit(pushed, ToolEvents(uses, round.tools)), Transcript.ToolResults(ResultBlocks(uses, round.tools)));
      if StoppedBy(round.tools, |uses|) then FinishCancelled(answered) else Continue(answered, compacted)
  }

  function RunRound(cfg: Config, c: Conv, round: Round, compacted: bool): Step {
    if round.stopBefore then FinishCancelled(c)
    else
      var streamed := Emit(c, RetryEvents(cfg, round.attempts, 0));
      match RetryResult(cfg, round.attempts, 0)
      case Err(Cancelled) => FinishCancelled(streamed)
      case Err(e) =>
        if IsTooLong(e) && !compacted && Dropped(cfg, streamed, round.summary) > 0
        then Continue(CompactNow(cfg, streamed, round.summary), true)
        else if IsTooLong(e) && !compacted then Finished(CompactNow(cfg, streamed, round.summary), Err(e))
        else Finished(streamed, Err(e))
      case Ok(m) => OnMessage(cfg, streamed, m, round, compacted)
  }

  function RunRounds(cfg: Config, c: Conv, world: nat -> Round, i: nat, compacted: bool): Step
    decreases MAX_TOOL_ROUNDS - i
  {
    if i >= MAX_TOOL_ROUNDS then Finished(c, Err(Runaway))
    else
      match RunRound(cfg, c, world(i), compacted)
      case Continue(next, compacted') => RunRounds(cfg, next, world, i + 1, compacted')
      case Finished(last, r) => Finished(last, r)
  }

  function StartTurn(c: Conv, prompt: string): Conv {
    Emit(PushTurn(c, Transcript.UserText(prompt)), [Chat.TurnStarted(prompt)])
  }

  function RunTurn(cfg: Config, c: Conv, prompt: string, world: nat -> Round): Step {
    RunRounds(cfg, StartTurn(c, prompt), world, 0, false)
  }

  lemma {:induction false} RunRoundsFinish(cfg: Config, c: Conv, world: nat -> Round, i: nat, compacted: bool)
    ensures RunRounds(cfg, c, world, i, compacted).Finished?
    decreases MAX_TOOL_ROUNDS - i
  {
    hide RunRound;
    if i >= MAX_TOOL_ROUNDS {
    } else {
      var step := RunRound(cfg, c, world(i), compacted);
      if step.Continue? { RunRoundsFinish(cfg, step.conv, world, i + 1, step.compacted); }
    }
  }

  // ---------------------------------------------------------------- the worker

  /** A prompt brings the configuration its turn was set up with. */
  datatype Command =
    | Prompt(cfg: Config, text: string, setupFailure: Option<string>, world: nat -> Round)
    | OpenChat(transcript: seq<Turn>, summary: Option<string>)
    | NewChat

  /** A refusal was already reported by the turn; any other error is reported here. */
  function Report(cfg: Config, r: Result<()>): seq<Event> {
    if r.Err? && !r.error.Refused? then [Chat.Failed(cfg.describe(r.error))] else []
  }

  function RunCommand(c: Conv, cmd: Command): Conv {
    match cmd
    case Prompt(cfg, text, failure, world) =>
      if failure.Some? then Emit(c, [Chat.TurnStarted(text), Chat.Failed(failure.value)])
      else
        RunRoundsFinish(cfg, StartTurn(c, text), world, 0, false);
        var turn := RunTurn(cfg, c, text, world);
        Emit(turn.conv, Report(cfg, turn.result))
    case OpenChat(transcript, summary) => Conv(transcript, summary, c.bus + [Chat.SessionOpened])
    case NewChat => Conv([], None, c.bus + [Chat.SessionOpened])
  }

  function RunCommands(c: Conv, cmds: seq<Command>): Conv {
    if cmds == [] then c else RunCommand(RunCommands(c, cmds[..|cmds| - 1]), cmds[|cmds| - 1])
  }

  // ---------------------------------------------------------------- the object

  class AgentLoop {
    const cfg: Config
    var bus: seq<Event>

    constructor (cfg: Config)
      ensures this.cfg == cfg && bus == []
    {
      this.cfg := cfg;
      bus := [];
    }

    function View(session: Transcript.Session): Conv
      reads this, session
    {
      Conv(session.transcript, session.summary, bus)
    }

    /** One request and its response. */
    method StreamOnce(attempt: Attempt) returns (r: Result<Message>)
      modifies this
      ensures r == AttemptResult(cfg, attempt)
      ensures bus == old(bus) + AttemptEvents(cfg, attempt)
    {
      match attempt {
        case SendFailed(transient, reason) => return Err(HttpError(transient, reason));
        case BadStatus(status, body) => return Err(ApiError(status, body));
        case Response(events, ending) =>
          hide Fold, Published, Publish, Push, Emission, Finish;
          var accumulator := new StreamAccumulator();
          var i := 0;
          assert events[0..] == events;
          while i < |events|
            invariant 0 <= i <= |events| && fresh(accumulator)
            invariant forall k :: 0 <= k < i ==> !events[k].MessageStop?
            invariant Fold(accumulator.View(), BeforeStop(events[i..])) == Fold(EMPTY, BeforeStop(events))
            invariant bus + Published(cfg, accumulator.View(), BeforeStop(events[i..]))
                      == old(bus) + Published(cfg, EMPTY, BeforeStop(events))
            modifies this, accumulator
          {
            var e := events[i];
            assert events[i..][1..] == events[i + 1..];
            ghost var before := accumulator.View();
            var emitted := accumulator.PushEvent(e);
            EmitsDone(before, e);
            if emitted.Done? {
              assert e.MessageStop? && HasStop(events) && BeforeStop(events[i..]) == [];
              NothingPublished(cfg, before);
              return Ok(Finish(cfg.parse, accumulator.View()));
            }
            assert BeforeStop(events[i..]) == [e] + BeforeStop(events[i + 1..]);
            PublishedCons(cfg, before, e, BeforeStop(events[i + 1..]), bus);
            bus := bus + Publish(cfg, emitted);
            i := i + 1;
          }
          assert !HasStop(events) && BeforeStop(events[i..]) == [];
          NothingPublished(cfg, accumulator.View());
          return Err(EndingError(ending));
      }
    }

    /** As `StreamOnce`, repeating what failed in transit. */
    method StreamWithRetry(attempts: nat -> Attempt) returns (r: Result<Message>)
      modifies this
      ensures r == RetryResult(cfg, attempts, 0)
      ensures bus == old(bus) + RetryEvents(cfg, attempts, 0)
    {
      hide AttemptEvents, AttemptResult, RetryEvents, RetryResult;
      var attempt := 0;
      while true
        invariant attempt <= MAX_STREAM_RETRIES
        invariant RetryResult(cfg, attempts, attempt) == RetryResult(cfg, attempts, 0)
        invariant bus + RetryEvents(cfg, attempts, attempt) == old(bus) + RetryEvents(cfg, attempts, 0)
        decreases MAX_STREAM_RETRIES - attempt
      {
        RetryUnfold(cfg, attempts, attempt, bus);
        var result := StreamOnce(attempts(attempt));
        var transient := Transient(result);
        if result.Err? && transient.Some? && attempt < MAX_STREAM_RETRIES {
          bus := bus + [Chat.StreamRetrying(attempt + 1, transient.value)];
          attempt := attempt + 1;
        } else {
          return result;
        }
      }
    }

    /** Run every call, or answer it unrun once the user has stopped the turn. */
    method RunTools(uses: seq<Block>, tools: nat -> ToolStep) returns (results: seq<Block>, stopped: bool)
      requires forall u :: u in uses ==> u.ToolUse?
      modifies this
      ensures results == ResultBlocks(uses, tools) && stopped == StoppedBy(tools, |uses|)
      ensures bus == old(bus) + ToolEvents(uses, tools)
    {
      results, stopped := [], false;
      for k := 0 to |uses|
        invariant results == ResultBlocks(uses[..k], tools) && stopped == StoppedBy(tools, k)
        invariant bus == old(bus) + ToolEvents(uses[..k], tools)
      {
        assert uses[..k + 1][..k] == uses[..k];
        var call := uses[k];
        bus := bus + [Chat.ToolRequested(call.id, call.name, call.input)];
        var outcome := tools(k).outcome;
        if stopped || tools(k).stop {
          stopped := true;
          outcome := STOPPED;
        }
        assert outcome == OutcomeOf(tools, k);
        bus := bus + [Chat.ToolCompleted(call.id, outcome.isError, outcome.text)];
        results := results + [ToolResult(call.id, outcome.text, outcome.isError)];
      }
      assert uses[..|uses|] == uses;
    }

    method Compact(session: Transcript.Session, summary: Option<string>) returns (dropped: nat)
      modifies this, session
      ensures View(session) == CompactNow(cfg, old(View(session)), summary)
      ensures dropped == Dropped(cfg, old(View(session)), summary)
    {
      var cut := session.FindCut(cfg.keepRecentTurns);
      if cut.None? || summary.None? {
        return 0;
      }
      dropped := session.DropBefore(cut.value, summary.value);
      bus := bus + [Chat.CompactedEvent(dropped)];
    }

    method Cancelled(session: Transcript.Session) returns (r: Result<()>)
      modifies this
      ensures Finished(View(session), r) == FinishCancelled(old(View(session)))
    {
      bus := bus + [Chat.TurnEnded("cancelled")];
      r := Ok(());
    }

    /** The part of a round after its message arrived; `done` says whether the turn is over. */
    method HandleMessage(session: Transcript.Session, m: Message, round: Round) returns (done: bool, r: Result<()>)
      modifies this, session
      ensures forall compacted :: OnMessage(cfg, old(View(session)), m, round, compacted)
                == if done then Finished(View(session), r) else Continue(View(session), compacted)
    {
      hide ToolEvents, ResultBlocks, StoppedBy, CompactNow;
      bus := bus + UsageEvents(m.usage);
      session.Push(Transcript.AssistantTurn(m.content));
      if m.stopReason == "refusal" {
        bus := bus + [Chat.Failed("the model declined this request")];
        return true, Err(Refused);
      }
      ToolUsesAreCalls(m.content);
      var uses := ToolUses(m.content);
      if uses == [] {
        bus := bus + [Chat.TurnEnded(m.stopReason)];
        var used := InputTokens(m.usage);
        if used.Some? && used.value >= cfg.compactAtTokens {
          var _ := Compact(session, round.summary);
        }
        return true, Ok(());
      }
      var results, stopped := RunTools(uses, round.tools);
      session.Push(Transcript.ToolResults(results));
      if stopped {
        r := Cancelled(session);
        return true, r;
      }
      return false, Ok(());
    }

    /** One round. A refusal for length is compacted away once; `compacted'` remembers it. */
    method DoRound(session: Transcript.Session, round: Round, compacted: bool)
      returns (done: bool, r: Result<()>, compacted': bool)
      modifies this, session
      ensures RunRound(cfg, old(View(session)), round, compacted)
           == if done then Finished(View(session), r) else Continue(View(session), compacted')
    {
      hide OnMessage, RetryEvents, RetryResult, CompactNow, Dropped, IsTooLong;
      compacted' := compacted;
      if round.stopBefore {
        r := Cancelled(session);
        return true, r, compacted';
      }
      var streamed := StreamWithRetry(round.attempts);
      ghost var after := Emit(old(View(session)), RetryEvents(cfg, round.attempts, 0));
      assert View(session) == after;
      match streamed {
        case Err(e) =>
          if e.Cancelled? {
            r := Cancelled(session);
            return true, r, compacted';
          }
          if IsTooLong(e) && !compacted {
            compacted' := true;
            var dropped := Compact(session, round.summary);
            return dropped == 0, Err(e), compacted';
          }
          return true, Err(e), compacted';
        case Ok(m) =>
          done, r := HandleMessage(session, m, round);
          assert OnMessage(cfg, after, m, round, compacted)
              == if done then Finished(View(session), r) else Continue(View(session), compacted);
      }
    }

    method RunTurnCancellable(session: Transcript.Session, prompt: string, world: nat -> Round) returns (r: Result<()>)
      modifies this, session
      ensures RunTurn(cfg, old(View(session)), prompt, world) == Finished(View(session), r)
    {
      hide RunRound;
      session.Push(Transcript.UserText(prompt));
      bus := bus + [Chat.TurnStarted(prompt)];
      var compacted := false;
      for i := 0 to MAX_TOOL_ROUNDS
        invariant RunRounds(cfg, View(session), world, i, compacted) == RunTurn(cfg, old(View(session)), prompt, world)
      {
        var done;
        done, r, compacted := DoRound(session, world(i), compacted);
        if done {
          return r;
        }
      }
      return Err(Runaway);
    }
  }

  /** One attempt of a retried request, after `bus` was published. */
  lemma RetryUnfold(cfg: Config, attempts: nat -> Attempt, n: nat, bus: seq<Event>)
    requires n <= MAX_STREAM_RETRIES
    ensures var a := attempts(n);
            var r := AttemptResult(cfg, a);
            if Transient(r).Some? && n < MAX_STREAM_RETRIES then
              && bus + RetryEvents(cfg, attempts, n)
                 == bus + AttemptEvents(cfg, a) + [Chat.StreamRetrying(n + 1, Transient(r).value)] + RetryEvents(cfg, attempts, n + 1)
              && RetryResult(cfg, attempts, n) == RetryResult(cfg, attempts, n + 1)
            else RetryEvents(cfg, attempts, n) == AttemptEvents(cfg, a) && RetryResult(cfg, attempts, n) == r
  {
    hide AttemptEvents, AttemptResult, Transient;
  }

  lemma PublishedCons(cfg: Config, a: Accumulator, e: WireEvent, rest: seq<WireEvent>, bus: seq<Event>)
    ensures bus + Published(cfg, a, [e] + rest) == bus + Publish(cfg, Emission(a, e)) + Published(cfg, Push(a, e), rest)
    ensures Fold(a, [e] + rest) == Fold(Push(a, e), rest)
  {
    hide Publish, Push, Emission;
    assert ([e] + rest)[1..] == rest;
  }

  lemma NothingPublished(cfg: Config, a: Accumulator)
    ensures Published(cfg, a, []) == [] && Fold(a, []) == a
  {
  }

  lemma EmitsDone(a: Accumulator, e: WireEvent)
    ensures Emission(a, e).Done? <==> e.MessageStop?
    ensures e.MessageStop? ==> Push(a, e) == a
  {
  }
}
