/** What one turn does, told from the outside (crates/mc-agent/src/lib.rs,
    crates/mc-agent/src/worker.rs): what each tool call is answered with, which failures are
    retried, when a turn goes on, when the conversation is shortened, and how every prompt ends. */
module TurnRecord {
  import opened Basics
  import opened Wire
  import opened Transcript
  import opened Agent
  import Chat
  import opened ConversationViews

  // ---------------------------------------------------------------- tool calls

  /** The user stopped the turn before call `k` was run. */
  predicate StoppedAt(tools: nat -> ToolStep, k: nat) { exists i :: 0 <= i <= k && tools(i).stop }

  /** What the tool said, or that the user had stopped the turn. */
  predicate Answered(call: Block, result: Block, tools: nat -> ToolStep, k: nat)
    requires call.ToolUse?
  {
    if StoppedAt(tools, k) then result == ToolResult(call.id, "Not run: the user stopped the turn.", true)
    else result == ToolResult(call.id, tools(k).outcome.text, tools(k).outcome.isError)
  }

  predicate Announced(call: Block, requested: Chat.Event, done: Chat.Event, tools: nat -> ToolStep, k: nat)
    requires call.ToolUse?
  {
    && requested == Chat.ToolRequested(call.id, call.name, call.input)
    && if StoppedAt(tools, k) then done == Chat.ToolCompleted(call.id, true, "Not run: the user stopped the turn.")
       else done == Chat.ToolCompleted(call.id, tools(k).outcome.isError, tools(k).outcome.text)
  }

  lemma OutcomeIs(call: Block, tools: nat -> ToolStep, k: nat)
    requires call.ToolUse?
    ensures var o := OutcomeOf(tools, k);
            && Answered(call, ToolResult(call.id, o.text, o.isError), tools, k)
            && Announced(call, Chat.ToolRequested(call.id, call.name, call.input), Chat.ToolCompleted(call.id, o.isError, o.text), tools, k)
  {
    assert StoppedBy(tools, k + 1) <==> StoppedAt(tools, k);
  }

  /** Every call is answered by its own result and announced by its own two events: with what the
      tool said, unless the user stopped the turn at this call or before it. */
  lemma {:induction false} CallIsAnswered(uses: seq<Block>, tools: nat -> ToolStep, k: nat)
    requires AreCalls(uses) && k < |uses|
    ensures |ResultBlocks(uses, tools)| == |uses| && |ToolEvents(uses, tools)| == 2 * |uses|
    ensures Answered(uses[k], ResultBlocks(uses, tools)[k], tools, k)
    ensures Announced(uses[k], ToolEvents(uses, tools)[2 * k], ToolEvents(uses, tools)[2 * k + 1], tools, k)
    decreases |uses|
  {
    hide Answered, Announced, OutcomeOf;
    var last := |uses| - 1;
    OutcomeIs(uses[last], tools, last);
    if last == 0 {
      assert uses[..0] == [];
    } else {
      CallIsAnswered(uses[..last], tools, if k < last then k else 0);
    }
  }

  /** Both views show a call that ran as it went, and one that was stopped as failed. */
  lemma CallIsShown(render: Render, uses: seq<Block>, tools: nat -> ToolStep, k: nat)
    requires AreCalls(uses) && k < |uses|
    ensures var item := SettledItems(render, uses, tools)[k];
            && item.ToolItem? && item.id == uses[k].id && item.name == uses[k].name
            && (StoppedAt(tools, k) ==> item.state == Chat.ToolFailed("Not run: the user stopped the turn."))
            && (!StoppedAt(tools, k) && tools(k).outcome.isError ==> item.state == Chat.ToolFailed(tools(k).outcome.text))
            && (!StoppedAt(tools, k) && !tools(k).outcome.isError ==> item.state == Chat.Succeeded(tools(k).outcome.text))
  {
    hide Chat.SummariseInput;
    assert StoppedBy(tools, k + 1) <==> StoppedAt(tools, k);
  }

  // ---------------------------------------------------------------- what is retried

  predicate Finishes(a: Attempt) { a.Response? && exists i :: 0 <= i < |a.events| && a.events[i].MessageStop? }

  /** The attempt failed in transit: it could not be sent, or broke off before the message ended. */
  predicate BrokeInTransit(a: Attempt) {
    || (a.SendFailed? && a.transient)
    || (a.Response? && !Finishes(a) && (a.ending.Closed? || a.ending.Broken?))
  }

  /** Exactly that is retried, at most four times. */
  lemma RetriesIff(cfg: Config, a: Attempt, n: nat)
    ensures Retries(cfg, a, n) <==> BrokeInTransit(a) && n < 4
  {
    hide Finish, Fold, BeforeStop;
  }

  /** Attempt `m` is the one that counts: those before it broke in transit, and it did not, or it
      was the fifth. */
  predicate Counts(attempts: nat -> Attempt, m: nat) {
    && m <= 4 && (forall i :: 0 <= i < m ==> BrokeInTransit(attempts(i)))
    && (m < 4 ==> !BrokeInTransit(attempts(m)))
  }

  lemma {:induction false} LastCounts(cfg: Config, attempts: nat -> Attempt, n: nat) returns (m: nat)
    requires n <= 4 && forall i :: 0 <= i < n ==> BrokeInTransit(attempts(i))
    ensures Counts(attempts, m) && LastAttempt(cfg, attempts, n) == attempts(m)
    decreases 4 - n
  {
    hide BrokeInTransit, Retries;
    RetriesIff(cfg, attempts(n), n);
    if n == 4 || !BrokeInTransit(attempts(n)) {
      m := n;
    } else {
      m := LastCounts(cfg, attempts, n + 1);
    }
  }

  lemma CountsOnce(attempts: nat -> Attempt, m: nat, k: nat)
    requires Counts(attempts, m) && Counts(attempts, k)
    ensures m == k
  {
    hide BrokeInTransit;
  }

  /** The events up to the end of the message. */
  predicate StopsAfter(events: seq<WireEvent>, before: seq<WireEvent>) {
    && |before| < |events| && events[..|before|] == before && events[|before|].MessageStop?
    && forall i :: 0 <= i < |before| ==> !before[i].MessageStop?
  }

  lemma {:induction false} BeforeStopIs(events: seq<WireEvent>, before: seq<WireEvent>)
    requires StopsAfter(events, before)
    ensures BeforeStop(events) == before
    decreases |events|
  {
    if before == [] {
    } else {
      assert events[0] == before[0];
      BeforeStopIs(events[1..], before[1..]);
    }
  }

  /** What a request comes to: the answer, the message or the failure of the attempt that counts. */
  lemma RequestResult(cfg: Config, attempts: nat -> Attempt, m: nat)
    requires Counts(attempts, m)
    ensures var r := RetryResult(cfg, attempts, 0);
            match attempts(m)
            case SendFailed(transient, reason) => r == Err(HttpError(transient, reason))
            case BadStatus(status, body) => r == Err(ApiError(status, body))
            case Response(events, ending) =>
              && (forall before :: StopsAfter(events, before) ==> r == Ok(Finish(cfg.parse, Fold(EMPTY, before))))
              && (Finishes(attempts(m)) ==> r.Ok?)
              && (!Finishes(attempts(m)) && ending.Closed? ==>
                    r == Err(Truncated("connection closed without a message_stop event")))
              && (!Finishes(attempts(m)) && ending.Broken? ==> r == Err(Truncated("transport: " + ending.reason)))
              && (!Finishes(attempts(m)) && ending.Undecodable? ==> r == Err(DecodeError))
              && (!Finishes(attempts(m)) && ending.ServerError? ==> r == Err(StreamError(ending.message)))
              && (!Finishes(attempts(m)) && ending.StoppedByUser? ==> r == Err(Cancelled))
  {
    hide Finish, Fold, BrokeInTransit, RetryResult, LastAttempt, BeforeStop;
    var k := LastCounts(cfg, attempts, 0);
    CountsOnce(attempts, m, k);
    LastAttemptResult(cfg, attempts, 0);
    if attempts(m).Response? {
      forall before | StopsAfter(attempts(m).events, before)
        ensures BeforeStop(attempts(m).events) == before && Finishes(attempts(m))
      {
        BeforeStopIs(attempts(m).events, before);
      }
    }
  }

  lemma {:induction false} NoticesAre(cfg: Config, attempts: nat -> Attempt, m: nat, n: nat)
    requires Counts(attempts, m) && n <= m
    ensures |RetryNotices(cfg, attempts, n)| == m - n
    ensures forall i :: 0 <= i < m - n ==>
              RetryNotices(cfg, attempts, n)[i] == Chat.NoticeItem(Chat.Retrying(n + i + 1, WhyBroken(attempts(n + i))))
    decreases m - n
  {
    hide BrokeInTransit, Retries, Transient, AttemptResult, WhyBroken;
    RetriesIff(cfg, attempts(n), n);
    if n == m {
    } else {
      NoticesAre(cfg, attempts, m, n + 1);
      BrokenReason(cfg, attempts(n));
    }
  }

  /** Why an attempt broke, as the notice of its retry says. */
  function WhyBroken(a: Attempt): string {
    match a
    case SendFailed(_, reason) => "transport: " + reason
    case Response(_, Broken(reason)) => "transport: " + reason
    case _ => "connection closed without a message_stop event"
  }

  lemma BrokenReason(cfg: Config, a: Attempt)
    requires BrokeInTransit(a)
    ensures Transient(AttemptResult(cfg, a)) == Some(WhyBroken(a))
  {
    hide Finish, Fold, BeforeStop;
  }

  /** Each attempt that is repeated leaves one notice, numbered from 1 and saying why. */
  lemma RetriesAreShown(cfg: Config, attempts: nat -> Attempt, m: nat)
    requires Counts(attempts, m)
    ensures |RetryNotices(cfg, attempts, 0)| == m
    ensures forall i :: 0 <= i < m ==>
              RetryNotices(cfg, attempts, 0)[i] == Chat.NoticeItem(Chat.Retrying(i + 1, WhyBroken(attempts(i))))
  {
    hide BrokeInTransit, RetryNotices, WhyBroken, Counts;
    NoticesAre(cfg, attempts, m, 0);
    var notices := RetryNotices(cfg, attempts, 0);
    forall i | 0 <= i < m ensures notices[i] == Chat.NoticeItem(Chat.Retrying(i + 1, WhyBroken(attempts(i)))) {
      assert notices[i] == Chat.NoticeItem(Chat.Retrying(0 + i + 1, WhyBroken(attempts(0 + i))));
    }
  }

  // ---------------------------------------------------------------- requests refused for length

  /** The refusal says so somewhere, in either case. */
  predicate SaysTooLong(body: string) {
    exists i, j :: 0 <= i <= j <= |body| && body[i..j] in {"too long", "context length", "context_length", "maximum context"}
  }

  lemma ContainsAt(s: string, needle: string)
    ensures Contains(s, needle) <==> exists i, j :: 0 <= i <= j <= |s| && s[i..j] == needle
  {
    if Contains(s, needle) {
      var i :| 0 <= i <= |s| && needle <= s[i..];
      assert s[i..i + |needle|] == needle;
    }
    forall i, j | 0 <= i <= j <= |s| && s[i..j] == needle ensures Contains(s, needle) {
      assert needle <= s[i..];
    }
  }

  lemma TooLongIff(e: AgentError)
    ensures IsTooLong(e) <==> e.ApiError? && e.status in {400, 413} && SaysTooLong(Lower(e.body))
  {
    hide Contains;
    if e.ApiError? {
      var body := Lower(e.body);
      ContainsAt(body, "prompt is too long");
      ContainsAt(body, "too long");
      ContainsAt(body, "context length");
      ContainsAt(body, "context_length");
      ContainsAt(body, "maximum context");
      if Contains(body, "prompt is too long") {
        var i, j :| 0 <= i <= j <= |body| && body[i..j] == "prompt is too long";
        assert body[i + 10..j] == body[i..j][10..] == "too long";
      }
      assert IsTooLong(e) <==> (e.status == 400 || e.status == 413) && SaysTooLong(body);
    }
  }

  /** Case folding works letter by letter. */
  lemma {:induction false} LowerIs(s: string)
    ensures |Lower(s)| == |s|
    ensures forall i :: 0 <= i < |s| ==>
              Lower(s)[i] as int == s[i] as int + (if 'A' <= s[i] <= 'Z' then 32 else 0)
  {
    if s == "" {
    } else {
      LowerIs(s[1..]);
    }
  }

  // ---------------------------------------------------------------- whether the turn goes on

  predicate AsksForTools(round: Round, m: Message) {
    m.stopReason != "refusal" && ToolUses(m.content) != [] && !StoppedAt(round.tools, |ToolUses(m.content)| - 1)
  }

  /** Turns a compaction could drop: something was typed far enough back, and there is a summary. */
  predicate CanCompact(cfg: Config, transcript: seq<Agent.Turn>, summary: Option<string>) {
    summary.Some? && exists k :: 1 <= k <= |transcript| - cfg.keepRecentTurns && Typed(transcript, k)
  }

  lemma DropsIff(cfg: Config, c: Conv, summary: Option<string>)
    ensures Dropped(cfg, c, summary) > 0 <==> CanCompact(cfg, c.transcript, summary)
  {
    CutIff(c.transcript, cfg.keepRecentTurns);
  }

  /** After a round the turn goes on exactly when the model asked for tools and nobody stopped
      them, or when the request was refused for length, for the first time in this turn, and
      the conversation could be shortened. */
  lemma RoundGoesOnIff(cfg: Config, c: Conv, round: Round, compacted: bool)
    ensures var r, step := RetryResult(cfg, round.attempts, 0), RunRound(cfg, c, round, compacted);
            && (step.Continue? <==>
                  && !round.stopBefore
                  && ((r.Ok? && AsksForTools(round, r.value))
                      || (r.Err? && IsTooLong(r.error) && !compacted && CanCompact(cfg, c.transcript, round.summary))))
            && (step.Continue? ==> step.compacted == (compacted || r.Err?))
            && (step.Continue? && r.Err? ==>
                  step.conv == CompactNow(cfg, Emit(c, RetryEvents(cfg, round.attempts, 0)), round.summary))
  {
    hide CanCompact, IsTooLong, CompactNow, ToolEvents, ResultBlocks, CompactIfFull, RetryResult, Dropped;
    var r := RetryResult(cfg, round.attempts, 0);
    DropsIff(cfg, Emit(c, RetryEvents(cfg, round.attempts, 0)), round.summary);
    if r.Ok? {
      ToolUsesAreCalls(r.value.content);
      var n := |ToolUses(r.value.content)|;
      assert n > 0 ==> (StoppedBy(round.tools, n) <==> StoppedAt(round.tools, n - 1));
    } else {
      CancelledIsNotLength(r.error);
    }
  }

  lemma CancelledIsNotLength(e: AgentError)
    ensures e.Cancelled? ==> !IsTooLong(e)
  {
  }

  /** Where the turn stands before round `n`, if it gets there. */
  function Reached(cfg: Config, c: Conv, world: nat -> Round, n: nat): Option<(Conv, bool)> {
    if n == 0 then Some((c, false))
    else
      match Reached(cfg, c, world, n - 1)
      case None => None
      case Some(at) =>
        var step := RunRound(cfg, at.0, world(n - 1), at.1);
        if step.Continue? then Some((step.conv, step.compacted)) else None
  }

  lemma {:induction false} LaterRounds(cfg: Config, c: Conv, world: nat -> Round, n: nat) returns (k: nat)
    requires n <= 64 && Reached(cfg, c, world, n).Some?
    ensures n <= k <= 64 && Reached(cfg, c, world, k).Some?
    ensures var at, from := Reached(cfg, c, world, k).value, Reached(cfg, c, world, n).value;
            var step := RunRounds(cfg, from.0, world, n, from.1);
            if k == 64 then step == Finished(at.0, Err(Runaway))
            else RunRound(cfg, at.0, world(k), at.1) == step && step.Finished?
    decreases 64 - n
  {
    hide RunRound;
    var from := Reached(cfg, c, world, n).value;
    if n == 64 || RunRound(cfg, from.0, world(n), from.1).Finished? {
      k := n;
    } else {
      k := LaterRounds(cfg, c, world, n + 1);
    }
  }

  /** A turn is the rounds that go on, and then the first that does not; or 64 that all go on, and
      only then it is a runaway. */
  lemma TurnIsItsRounds(cfg: Config, c: Conv, prompt: string, world: nat -> Round) returns (k: nat)
    ensures k <= 64 && Reached(cfg, StartTurn(c, prompt), world, k).Some?
    ensures var at := Reached(cfg, StartTurn(c, prompt), world, k).value;
            var turn := RunTurn(cfg, c, prompt, world);
            && (k < 64 ==> turn == RunRound(cfg, at.0, world(k), at.1) && turn.Finished?)
            && (k == 64 ==> turn == Finished(at.0, Err(Runaway)))
    ensures RunTurn(cfg, c, prompt, world).result == Err(Runaway) <==> k == 64
  {
    hide RunRound;
    k := LaterRounds(cfg, StartTurn(c, prompt), world, 0);
    if k < 64 {
      var at := Reached(cfg, StartTurn(c, prompt), world, k).value;
      RoundIsNoRunaway(cfg, at.0, world(k), at.1);
    }
  }

  lemma RoundIsNoRunaway(cfg: Config, c: Conv, round: Round, compacted: bool)
    ensures var step := RunRound(cfg, c, round, compacted);
            step.Finished? ==> step.result != Err(Runaway)
  {
    hide CompactNow, ToolEvents, ResultBlocks, CompactIfFull, IsTooLong, Dropped, RetryResult;
    var r := RetryResult(cfg, round.attempts, 0);
    LastAttemptResult(cfg, round.attempts, 0);
    ResultIsNoRunaway(cfg, LastAttempt(cfg, round.attempts, 0));
  }

  lemma ResultIsNoRunaway(cfg: Config, a: Attempt)
    ensures AttemptResult(cfg, a) != Err(Runaway)
  {
    hide Finish, Fold, BeforeStop;
  }

  // ---------------------------------------------------------------- shortening the conversation

  /** The count of input tokens is read when the usage has one, and kept in 32 bits. */
  lemma TokensAre(usage: Json)
    ensures forall n: nat :: usage.Obj? && "input_tokens" in usage.fields && usage.fields["input_tokens"] == Num(n) ==>
              InputTokens(usage) == Some(n % 0x1_0000_0000)
    ensures InputTokens(usage).Some? ==>
              usage.Obj? && "input_tokens" in usage.fields && exists n: nat :: usage.fields["input_tokens"] == Num(n)
  {
  }

  /** A compaction keeps everything from the last thing typed before the recent turns on, and says
      how many turns went; without such a place, or a summary, nothing changes. */
  lemma CompactionKeeps(cfg: Config, c: Conv, summary: Option<string>, cut: nat)
    ensures !CanCompact(cfg, c.transcript, summary) ==> CompactNow(cfg, c, summary) == c
    ensures CanCompact(cfg, c.transcript, summary)
            && 1 <= cut <= |c.transcript| - cfg.keepRecentTurns && Typed(c.transcript, cut)
            && (forall k :: cut < k <= |c.transcript| - cfg.keepRecentTurns ==> !Typed(c.transcript, k)) ==>
              CompactNow(cfg, c, summary) == Conv(c.transcript[cut..], summary, c.bus + [Chat.CompactedEvent(cut)])
  {
    CutIff(c.transcript, cfg.keepRecentTurns);
  }

  /** A message that ends the turn is recorded, its use of the context told, and the turn's end
      announced; then the conversation is shortened exactly when the message filled the context
      up to the limit. */
  lemma LastMessageIsRecorded(cfg: Config, c: Conv, m: Message, round: Round, compacted: bool)
    requires m.stopReason != "refusal" && ToolUses(m.content) == []
    ensures var tokens := InputTokens(m.usage);
            var told := if tokens.Some? then [Chat.ContextUsage(tokens.value)] else [];
            var ended := Conv(c.transcript + [Turn(Assistant, m.content)], c.summary, c.bus + told + [Chat.TurnEnded(m.stopReason)]);
            OnMessage(cfg, c, m, round, compacted)
            == Finished(if tokens.Some? && tokens.value >= cfg.compactAtTokens then CompactNow(cfg, ended, round.summary) else ended, Ok(()))
  {
    hide CompactNow;
    ToolUsesAreCalls(m.content);
  }

  /** A message that calls tools is recorded with all its answers; a stop then ends the turn. */
  lemma CallsAreRecorded(cfg: Config, c: Conv, m: Message, round: Round, compacted: bool)
    requires m.stopReason != "refusal" && ToolUses(m.content) != []
    ensures AreCalls(ToolUses(m.content))
    ensures var uses, step := ToolUses(m.content), OnMessage(cfg, c, m, round, compacted);
            var answered := Conv(c.transcript + [Turn(Assistant, m.content), Turn(User, ResultBlocks(uses, round.tools))], c.summary,
                                 c.bus + UsageEvents(m.usage) + ToolEvents(uses, round.tools));
            step == if StoppedAt(round.tools, |uses| - 1)
                    then Finished(answered.(bus := answered.bus + [Chat.TurnEnded("cancelled")]), Ok(()))
                    else Continue(answered, compacted)
  {
    hide ToolEvents, ResultBlocks;
    ToolUsesAreCalls(m.content);
    var uses := ToolUses(m.content);
    assert StoppedBy(round.tools, |uses|) <==> StoppedAt(round.tools, |uses| - 1);
    assert c.transcript + [Turn(Assistant, m.content)] + [Turn(User, ResultBlocks(uses, round.tools))]
        == c.transcript + [Turn(Assistant, m.content), Turn(User, ResultBlocks(uses, round.tools))];
  }

  /** A declined message is recorded, its calls are not run, and the turn ends with that. */
  lemma RefusalIsRecorded(cfg: Config, c: Conv, m: Message, round: Round, compacted: bool)
    requires m.stopReason == "refusal"
    ensures OnMessage(cfg, c, m, round, compacted)
         == Finished(Conv(c.transcript + [Turn(Assistant, m.content)], c.summary,
                          c.bus + UsageEvents(m.usage) + [Chat.Failed("the model declined this request")]), Err(Refused))
  {
    ToolUsesAreCalls(m.content);
  }

  /** A stop before a round asks the model nothing, and a stop while it answers records nothing of
      the answer; both end the turn as cancelled. */
  lemma StopIsHonoured(cfg: Config, c: Conv, round: Round, compacted: bool)
    ensures round.stopBefore ==>
              RunRound(cfg, c, round, compacted) == Finished(c.(bus := c.bus + [Chat.TurnEnded("cancelled")]), Ok(()))
    ensures !round.stopBefore && RetryResult(cfg, round.attempts, 0) == Err(Cancelled) ==>
              RunRound(cfg, c, round, compacted)
              == Finished(c.(bus := c.bus + RetryEvents(cfg, round.attempts, 0) + [Chat.TurnEnded("cancelled")]), Ok(()))
  {
    hide RetryEvents, RetryResult;
  }

  // ---------------------------------------------------------------- how a prompt ends

  /** What is counted: the events that end a turn, or those that begin a turn or another chat. */
  datatype Kind = Ends | Begins

  predicate Is(e: Chat.Event, kind: Kind) {
    match kind
    case Ends => e.TurnEnded? || e.Failed?
    case Begins => e.TurnStarted? || e.SessionOpened?
  }

  function Count(es: seq<Chat.Event>, kind: Kind): nat {
    if es == [] then 0 else Count(es[..|es| - 1], kind) + (if Is(es[|es| - 1], kind) then 1 else 0)
  }

  lemma {:induction false} CountConcat(a: seq<Chat.Event>, b: seq<Chat.Event>, kind: Kind)
    ensures Count(a + b, kind) == Count(a, kind) + Count(b, kind)
    decreases |b|
  {
    if b == [] {
      assert a + b == a;
    } else {
      CountConcat(a, b[..|b| - 1], kind);
      assert (a + b)[..|a + b| - 1] == a + b[..|b| - 1];
    }
  }

  lemma CountOne(bus: seq<Chat.Event>, e: Chat.Event, kind: Kind)
    ensures Count(bus + [e], kind) == Count(bus, kind) + (if Is(e, kind) then 1 else 0)
  {
    CountConcat(bus, [e], kind);
    assert [e][..0] == [];
  }

  predicate EndsNothing(e: Chat.Event) {
    !Is(e, Ends) && !Is(e, Begins)
  }

  lemma {:induction false} CountNothing(es: seq<Chat.Event>, kind: Kind)
    requires forall i :: 0 <= i < |es| ==> EndsNothing(es[i])
    ensures Count(es, kind) == 0
  {
    if es == [] {
    } else {
      CountNothing(es[..|es| - 1], kind);
    }
  }

  lemma {:induction false} ToolsEndNothing(uses: seq<Block>, tools: nat -> ToolStep)
    requires AreCalls(uses)
    ensures forall i :: 0 <= i < |ToolEvents(uses, tools)| ==> EndsNothing(ToolEvents(uses, tools)[i])
  {
    if uses == [] {
    } else {
      ToolsEndNothing(uses[..|uses| - 1], tools);
    }
  }

  lemma {:induction false} RetriesEndNothing(cfg: Config, attempts: nat -> Attempt, n: nat)
    ensures forall i :: 0 <= i < |RetryEvents(cfg, attempts, n)| ==> EndsNothing(RetryEvents(cfg, attempts, n)[i])
    decreases MAX_STREAM_RETRIES - n
  {
    hide AttemptEvents, AttemptResult, Transient;
    AttemptDeltas(cfg, attempts(n));
    var deltas := AttemptEvents(cfg, attempts(n));
    forall i | 0 <= i < |deltas| ensures EndsNothing(deltas[i]) { assert IsDelta(deltas[i]); }
    if !Retries(cfg, attempts(n), n) {
    } else {
      RetriesEndNothing(cfg, attempts, n + 1);
    }
  }

  /** The turn is over, or failed with something still to be reported. */
  predicate Reported(step: Step) { step.Finished? && (step.result.Ok? || step.result.error.Refused?) }

  /** What one step adds to the bus: nothing begins, and one event ends the turn exactly when the
      step reports its end. */
  predicate EndsRight(from: Conv, step: Step) {
    && Count(step.conv.bus, Begins) == Count(from.bus, Begins)
    && Count(step.conv.bus, Ends) == Count(from.bus, Ends) + (if Reported(step) then 1 else 0)
  }

  lemma CompactionEndsNothing(cfg: Config, c: Conv, summary: Option<string>, kind: Kind)
    ensures Count(CompactNow(cfg, c, summary).bus, kind) == Count(c.bus, kind)
  {
    var cut := CompactionCut(c.transcript, cfg.keepRecentTurns);
    if cut.Some? && summary.Some? {
      CountOne(c.bus, Chat.CompactedEvent(Min(cut.value, |c.transcript|)), kind);
    }
  }

  lemma UsageEndsNothing(bus: seq<Chat.Event>, usage: Json, kind: Kind)
    ensures Count(bus + UsageEvents(usage), kind) == Count(bus, kind)
    ensures UsageEvents(usage) == if InputTokens(usage).Some? then [Chat.ContextUsage(InputTokens(usage).value)] else []
  {
    var tokens := InputTokens(usage);
    if tokens.Some? { CountOne(bus, Chat.ContextUsage(tokens.value), kind); } else { assert bus + [] == bus; }
  }

  /** A message ends the turn, or is answered. */
  lemma MessageCounts(cfg: Config, c: Conv, m: Message, round: Round, compacted: bool, kind: Kind)
    ensures var step := OnMessage(cfg, c, m, round, compacted);
            Count(step.conv.bus, kind) == Count(c.bus, kind) + (if Reported(step) && kind.Ends? then 1 else 0)
  {
    hide ToolEvents, ResultBlocks, CompactNow, UsageEvents, Count, OnMessage, InputTokens;
    var uses, told := ToolUses(m.content), c.bus + UsageEvents(m.usage);
    UsageEndsNothing(c.bus, m.usage, kind);
    if m.stopReason == "refusal" {
      RefusalIsRecorded(cfg, c, m, round, compacted);
      CountOne(told, Chat.Failed("the model declined this request"), kind);
    } else if uses == [] {
      LastMessageIsRecorded(cfg, c, m, round, compacted);
      CountOne(told, Chat.TurnEnded(m.stopReason), kind);
      var ended := Conv(c.transcript + [Turn(Assistant, m.content)], c.summary, told + [Chat.TurnEnded(m.stopReason)]);
      CompactionEndsNothing(cfg, ended, round.summary, kind);
    } else {
      CallsAreRecorded(cfg, c, m, round, compacted);
      ToolsEndNothing(uses, round.tools);
      CountNothing(ToolEvents(uses, round.tools), kind);
      CountConcat(told, ToolEvents(uses, round.tools), kind);
      CountOne(told + ToolEvents(uses, round.tools), Chat.TurnEnded("cancelled"), kind);
    }
  }

  lemma RoundCounts(cfg: Config, c: Conv, round: Round, compacted: bool, kind: Kind)
    ensures var step := RunRound(cfg, c, round, compacted);
            Count(step.conv.bus, kind) == Count(c.bus, kind) + (if Reported(step) && kind.Ends? then 1 else 0)
  {
    hide OnMessage, CompactNow, RetryResult, RetryEvents, Dropped, IsTooLong, Count;
    var streamed := Emit(c, RetryEvents(cfg, round.attempts, 0));
    RetriesEndNothing(cfg, round.attempts, 0);
    CountNothing(RetryEvents(cfg, round.attempts, 0), kind);
    CountConcat(c.bus, RetryEvents(cfg, round.attempts, 0), kind);
    CountOne(c.bus, Chat.TurnEnded("cancelled"), kind);
    CountOne(streamed.bus, Chat.TurnEnded("cancelled"), kind);
    CompactionEndsNothing(cfg, streamed, round.summary, kind);
    var r := RetryResult(cfg, round.attempts, 0);
    if r.Ok? {
      MessageCounts(cfg, streamed, r.value, round, compacted, kind);
    } else {
      RequestIsNotRefused(cfg, round.attempts);
    }
  }

  lemma RequestIsNotRefused(cfg: Config, attempts: nat -> Attempt)
    ensures RetryResult(cfg, attempts, 0) != Err(Refused)
  {
    hide Finish, Fold, BeforeStop, LastAttempt, RetryResult;
    LastAttemptResult(cfg, attempts, 0);
  }

  lemma {:induction false} RoundsEndRight(cfg: Config, c: Conv, world: nat -> Round, i: nat, compacted: bool)
    ensures EndsRight(c, RunRounds(cfg, c, world, i, compacted))
    decreases MAX_TOOL_ROUNDS - i
  {
    hide RunRound, Count;
    if i >= MAX_TOOL_ROUNDS {
    } else {
      var step := RunRound(cfg, c, world(i), compacted);
      RoundCounts(cfg, c, world(i), compacted, Ends);
      RoundCounts(cfg, c, world(i), compacted, Begins);
      if step.Continue? { RoundsEndRight(cfg, step.conv, world, i + 1, step.compacted); }
    }
  }

  /** Every prompt begins and ends exactly one turn. One that fails ends with its error as the last
      thing said, in the words of its configuration; a declined one was already told. */
  lemma PromptEndsOnce(c: Conv, cmd: Command)
    requires cmd.Prompt?
    ensures Count(RunCommand(c, cmd).bus, Ends) == Count(c.bus, Ends) + 1
    ensures Count(RunCommand(c, cmd).bus, Begins) == Count(c.bus, Begins) + 1
    ensures cmd.setupFailure.Some? ==>
              RunCommand(c, cmd) == c.(bus := c.bus + [Chat.TurnStarted(cmd.text), Chat.Failed(cmd.setupFailure.value)])
    ensures cmd.setupFailure.None? ==>
              var turn := RunTurn(cmd.cfg, c, cmd.text, cmd.world);
              && turn.Finished?
              && (turn.result.Ok? || turn.result.error.Refused? ==> RunCommand(c, cmd) == turn.conv)
              && (turn.result.Err? && !turn.result.error.Refused? ==>
                    RunCommand(c, cmd) == turn.conv.(bus := turn.conv.bus + [Chat.Failed(cmd.cfg.describe(turn.result.error))]))
  {
    hide RunRounds, Count;
    var started := Chat.TurnStarted(cmd.text);
    CountOne(c.bus, started, Ends);
    CountOne(c.bus, started, Begins);
    if cmd.setupFailure.Some? {
      var failed := Chat.Failed(cmd.setupFailure.value);
      CountOne(c.bus + [started], failed, Ends);
      CountOne(c.bus + [started], failed, Begins);
      assert c.bus + [started] + [failed] == c.bus + [started, failed];
    } else {
      var from := StartTurn(c, cmd.text);
      RoundsEndRight(cmd.cfg, from, cmd.world, 0, false);
      RunRoundsFinish(cmd.cfg, from, cmd.world, 0, false);
      var turn := RunTurn(cmd.cfg, c, cmd.text, cmd.world);
      if turn.result.Err? && !turn.result.error.Refused? {
        CountOne(turn.conv.bus, Chat.Failed(cmd.cfg.describe(turn.result.error)), Ends);
        CountOne(turn.conv.bus, Chat.Failed(cmd.cfg.describe(turn.result.error)), Begins);
      } else {
        assert turn.conv.bus + [] == turn.conv.bus;
      }
    }
  }

  /** Opening a chat leaves exactly that chat, a new one an empty one; the reader is told of either. */
  lemma OpenedChatIsThat(c: Conv, transcript: seq<Agent.Turn>, summary: Option<string>)
    ensures RunCommand(c, OpenChat(transcript, summary)) == Conv(transcript, summary, c.bus + [Chat.SessionOpened])
    ensures RunCommand(c, NewChat) == Conv([], None, c.bus + [Chat.SessionOpened])
  {
  }
}
