/** The live chat and the restored chat agree, turn by turn (crates/mc-agent/src/lib.rs,
    crates/mc-core/src/chat.rs).

    They agree after a turn exactly when the turn settles: its last response was recorded, or
    failed before any of its text was shown, and no tool call was left unanswered. */
module ViewsAgree {
  import opened Basics
  import opened Wire
  import opened Transcript
  import opened Chat
  import opened Agent
  import opened ConversationViews
  import AgentProtocol

  /** The order the API documents: blocks open in order, text before tool calls, ids distinct. */
  predicate OrderlyContent(content: seq<Block>) {
    ToolUsesAreCalls(content);
    TextFirst(content) && DistinctIds(ToolUses(content))
  }

  predicate Orderly(cfg: Config, a: Attempt) {
    a.Response? && HasStop(a.events) ==>
      && InOrder(EMPTY, BeforeStop(a.events))
      && OrderlyContent(Finish(cfg.parse, Fold(EMPTY, BeforeStop(a.events))).content)
  }

  ghost predicate OrderlyWorld(cfg: Config, world: nat -> Round) {
    forall k: nat, n: nat :: Orderly(cfg, world(k).attempts(n))
  }

  predicate Uncompacted(bus: seq<Event>) { forall i :: 0 <= i < |bus| ==> !bus[i].CompactedEvent? }

  /** What the user sees after closing and reopening the chat. */
  function Reopened(render: Render, c: Conv): seq<ChatItem> {
    Restore(render, c.transcript, c.summary).items
  }

  predicate SameView(render: Render, start: Log, c: Conv) {
    Norm(Live(render, start, c)) == Norm(Reopened(render, c))
  }

  // ---------------------------------------------------------------- interruption

  lemma {:induction false} InterruptNone(items: seq<ChatItem>)
    requires NoneRunning(items)
    ensures Interrupt(items) == items
  {
    if items == [] {
    } else {
      InterruptNone(items[..|items| - 1]);
      assert items == items[..|items| - 1] + [items[|items| - 1]];
    }
  }

  lemma {:induction false} InterruptConcat(a: seq<ChatItem>, b: seq<ChatItem>)
    ensures Interrupt(a + b) == Interrupt(a) + Interrupt(b)
    decreases |b|
  {
    hide InterruptItem;
    if b == [] {
      assert a + b == a;
    } else {
      InterruptConcat(a, b[..|b| - 1]);
      assert (a + b)[..|a + b| - 1] == a + b[..|b| - 1];
    }
  }

  lemma {:induction false} InterruptTools(items: seq<ChatItem>)
    requires forall i :: 0 <= i < |items| ==> items[i].ToolItem?
    ensures |Interrupt(items)| == |items| && forall i :: 0 <= i < |items| ==> Interrupt(items)[i].ToolItem?
  {
    if items == [] {
    } else {
      InterruptTools(items[..|items| - 1]);
    }
  }

  lemma AgreeIsSameView(render: Render, start: Log, c: Conv)
    requires NoneRunning(Restored(render, c))
    ensures Reopened(render, c) == Restored(render, c)
    ensures SameView(render, start, c) <==> Norm(Live(render, start, c)) == Norm(Restored(render, c))
  {
    hide NormFrom, ApplyAll, RestoreTurns, NoneRunning, Interrupt;
    InterruptNone(Restored(render, c));
  }

  // ---------------------------------------------------------------- events with nothing to show

  predicate Quiet(e: Event) { e.TurnEnded? || e.Failed? || e.ContextUsage? }

  lemma QuietEvent(render: Render, log: Log, e: Event)
    requires Quiet(e) && NoneRunning(log.items)
    ensures var after := Apply(render, log, e).items;
            Norm(after) == Norm(log.items) && NoneRunning(after)
  {
    hide NormFrom, Interrupt;
    InterruptNone(log.items);
    match e
    case TurnEnded(reason) =>
      NormConcat([], log.items, EndNotice(reason));
      NormUnshown(Norm(log.items), EndNotice(reason));
    case Failed(message) =>
      NormConcat([], log.items, [ErrorItem(message)]);
      NormUnshown(Norm(log.items), [ErrorItem(message)]);
    case _ =>
  }

  lemma LiveEmit(render: Render, start: Log, c: Conv, es: seq<Event>)
    ensures Live(render, start, Emit(c, es)) == ApplyAll(render, ApplyAll(render, start, c.bus), es).items
    ensures Restored(render, Emit(c, es)) == Restored(render, c)
    ensures Reopened(render, Emit(c, es)) == Reopened(render, c)
  {
    hide ApplyAll, RestoreTurns, Interrupt;
    ApplyConcat(render, start, c.bus, es);
  }

  lemma {:induction false} QuietEvents(render: Render, start: Log, c: Conv, es: seq<Event>)
    requires (forall i :: 0 <= i < |es| ==> Quiet(es[i])) && NoneRunning(Live(render, start, c))
    ensures var after := Emit(c, es);
            && Norm(Live(render, start, after)) == Norm(Live(render, start, c))
            && NoneRunning(Live(render, start, after))
            && Restored(render, after) == Restored(render, c)
            && Reopened(render, after) == Reopened(render, c)
  {
    hide NormFrom, NoneRunning, Apply, RestoreTurns, Interrupt, Quiet;
    LiveEmit(render, start, c, es);
    if es == [] {
      assert c.bus + es == c.bus;
    } else {
      var front := es[..|es| - 1];
      QuietEvents(render, start, c, front);
      LiveEmit(render, start, c, front);
      QuietEvent(render, ApplyAll(render, ApplyAll(render, start, c.bus), front), es[|es| - 1]);
    }
  }

  lemma QuietKeepsAgreement(render: Render, start: Log, c: Conv, es: seq<Event>)
    requires (forall i :: 0 <= i < |es| ==> Quiet(es[i])) && NoneRunning(Live(render, start, c))
    ensures Agree(render, start, Emit(c, es)) <==> Agree(render, start, c)
    ensures SameView(render, start, Emit(c, es)) <==> SameView(render, start, c)
    ensures NoneRunning(Live(render, start, Emit(c, es)))
  {
    hide NormFrom, NoneRunning, Quiet, Live, Restored, Reopened;
    QuietEvents(render, start, c, es);
  }

  // ---------------------------------------------------------------- turns pushed

  lemma RestoredPush(render: Render, c: Conv, t: Agent.Turn)
    ensures Restored(render, PushTurn(c, t)) == RestoreBlocks(render, Restored(render, c), t.role, t.content)
  {
    hide RestoreBlocks;
    assert (c.transcript + [t])[..|c.transcript|] == c.transcript;
  }

  function WithText(render: Render, c: Conv, content: seq<Block>): seq<ChatItem> {
    Restored(render, c) + TextItems(content)
  }

  lemma {:induction false} TextItemsAreText(content: seq<Block>)
    ensures forall i :: 0 <= i < |TextItems(content)| ==> TextItems(content)[i].AssistantItem?
  {
    if content == [] {
    } else {
      TextItemsAreText(content[..|content| - 1]);
    }
  }

  /** A recorded message restores as its text, then its calls, still running. */
  lemma RestoredCall(render: Render, c: Conv, content: seq<Block>)
    requires TextFirst(content)
    ensures AreCalls(ToolUses(content))
    ensures Restored(render, PushTurn(c, AssistantTurn(content)))
         == WithText(render, c, content) + RunningItems(render, ToolUses(content))
    ensures Norm(WithText(render, c, content)) == NormPush(Norm(Restored(render, c)), AssistantItem(TextOf(content)))
    ensures NoneRunning(Restored(render, c)) ==> NoneRunning(WithText(render, c, content))
  {
    hide NormFrom, NormPush, TextItems, TextOf, RunningItems, ToolUses, TextFirst, Restored, RestoreBlocks;
    RestoredPush(render, c, AssistantTurn(content));
    RestoredMessage(render, Restored(render, c), content);
    NormConcat([], Restored(render, c), TextItems(content));
    NormTexts(Norm(Restored(render, c)), content);
    TextItemsAreText(content);
  }

  lemma SettledAreTools(render: Render, uses: seq<Block>, tools: nat -> ToolStep)
    requires AreCalls(uses)
    ensures var items := SettledItems(render, uses, tools);
            && |items| == |uses| && NoneRunning(items)
            && forall i :: 0 <= i < |items| ==> items[i].ToolItem?
  {
    hide SummariseInput, OutcomeOf;
  }

  /** Once the results are recorded, every call restores as settled. */
  lemma RestoredExchange(render: Render, c: Conv, content: seq<Block>, tools: nat -> ToolStep)
    requires OrderlyContent(content)
    ensures AreCalls(ToolUses(content))
    ensures Restored(render, PushTurn(PushTurn(c, AssistantTurn(content)), ToolResults(ResultBlocks(ToolUses(content), tools))))
         == WithText(render, c, content) + SettledItems(render, ToolUses(content), tools)
  {
    hide RestoreBlocks, RunningItems, SettledItems, ToolUses, TextItems, ResultBlocks, Restored, TextFirst, DistinctIds;
    var uses := ToolUses(content);
    ToolUsesAreCalls(content);
    RestoredCall(render, c, content);
    RestoredPush(render, PushTurn(c, AssistantTurn(content)), ToolResults(ResultBlocks(uses, tools)));
    RestoredResults(render, WithText(render, c, content), uses, tools, |uses|);
    assert uses[..|uses|] == uses && uses[|uses|..] == [];
    NothingRuns(render);
    var settled := WithText(render, c, content) + SettledItems(render, uses, tools);
    assert settled + [] == settled;
  }

  // ---------------------------------------------------------------- a message arrives

  /** The reader has seen the text of `m`, and the transcript has not recorded it yet. */
  predicate Ahead(render: Render, start: Log, c: Conv, m: Message) {
    && Norm(Live(render, start, c)) == NormPush(Norm(Restored(render, c)), AssistantItem(TextOf(m.content)))
    && NoneRunning(Live(render, start, c)) && NoneRunning(Restored(render, c))
  }

  lemma AheadQuiet(render: Render, start: Log, c: Conv, m: Message, es: seq<Event>)
    requires Ahead(render, start, c, m) && forall i :: 0 <= i < |es| ==> Quiet(es[i])
    ensures Ahead(render, start, Emit(c, es), m)
  {
    hide NormFrom, NormPush, NoneRunning, Quiet, Live, Restored, Reopened, TextOf;
    QuietEvents(render, start, c, es);
  }

  lemma RecordedWithoutCalls(render: Render, start: Log, c: Conv, m: Message)
    requires Ahead(render, start, c, m) && OrderlyContent(m.content) && ToolUses(m.content) == []
    ensures Agree(render, start, PushTurn(c, AssistantTurn(m.content)))
  {
    hide NormFrom, NormPush, NoneRunning, Restored, TextItems, TextOf, ApplyAll, TextFirst;
    RestoredCall(render, c, m.content);
    NothingRuns(render);
    assert WithText(render, c, m.content) + [] == WithText(render, c, m.content);
  }

  lemma RecordedRefusal(render: Render, start: Log, c: Conv, m: Message)
    requires Ahead(render, start, c, m) && OrderlyContent(m.content) && ToolUses(m.content) != []
    ensures !SameView(render, start, PushTurn(c, AssistantTurn(m.content)))
    ensures NoneRunning(Live(render, start, PushTurn(c, AssistantTurn(m.content))))
  {
    hide NormFrom, NormPush, NoneRunning, TextItems, TextOf, ApplyAll, TextFirst, RestoreTurns, Interrupt, WithText, ToolUses;
    var shown := WithText(render, c, m.content);
    RestoredCall(render, c, m.content);
    var running := RunningItems(render, ToolUses(m.content));
    InterruptConcat(shown, running);
    InterruptNone(shown);
    InterruptTools(running);
    NormConcat([], shown, Interrupt(running));
    NormTools(Norm(shown), Interrupt(running));
  }

  lemma ToolsAnswered(render: Render, start: Log, c: Conv, m: Message, tools: nat -> ToolStep)
    requires Ahead(render, start, c, m) && OrderlyContent(m.content) && ToolUses(m.content) != []
    requires AreCalls(ToolUses(m.content))
    ensures var uses := ToolUses(m.content);
            var answered := PushTurn(Emit(PushTurn(c, AssistantTurn(m.content)), ToolEvents(uses, tools)),
                                     ToolResults(ResultBlocks(uses, tools)));
            Agree(render, start, answered) && AtRest(Live(render, start, answered))
  {
    hide NormFrom, NormPush, TextItems, TextOf, ApplyAll, TextFirst, RestoreTurns, ToolUses, ToolEvents,
         ResultBlocks, SettledItems, DistinctIds, OrderlyContent;
    var uses := ToolUses(m.content);
    var pushed := PushTurn(c, AssistantTurn(m.content));
    var settled := SettledItems(render, uses, tools);
    LiveEmit(render, start, pushed, ToolEvents(uses, tools));
    LiveTools(render, ApplyAll(render, start, c.bus), uses, tools);
    RestoredExchange(render, c, m.content, tools);
    OrderlyIsTextFirst(m.content);
    RestoredCall(render, c, m.content);
    SettledAreTools(render, uses, tools);
    NormConcat([], Live(render, start, c), settled);
    NormConcat([], WithText(render, c, m.content), settled);
    NormTools(Norm(Live(render, start, c)), settled);
    RestoredIgnoresBus(render, pushed, ToolEvents(uses, tools), ToolResults(ResultBlocks(uses, tools)));
  }

  lemma OrderlyIsTextFirst(content: seq<Block>)
    requires OrderlyContent(content)
    ensures TextFirst(content)
  {
  }

  lemma RestoredIgnoresBus(render: Render, c: Conv, es: seq<Event>, t: Agent.Turn)
    ensures Restored(render, PushTurn(Emit(c, es), t)) == Restored(render, PushTurn(c, t))
  {
    hide RestoreTurns;
  }

  lemma CompactingShows(cfg: Config, c: Conv, summary: Option<string>)
    requires Uncompacted(CompactNow(cfg, c, summary).bus)
    ensures CompactNow(cfg, c, summary) == c
  {
    hide CompactNow;
    AgentProtocol.CompactingAnnounces(cfg, c, summary);
  }

  lemma MessageView(cfg: Config, render: Render, start: Log, c: Conv, m: Message, round: Round, compacted: bool)
    requires Ahead(render, start, c, m) && OrderlyContent(m.content)
    requires Uncompacted(OnMessage(cfg, c, m, round, compacted).conv.bus)
    ensures var step := OnMessage(cfg, c, m, round, compacted);
            && NoneRunning(Live(render, start, step.conv))
            && if AgentProtocol.RefusesCalls(m) then step.Finished? && !SameView(render, start, step.conv)
               else Agree(render, start, step.conv) && (step.Continue? ==> AtRest(Live(render, start, step.conv)))
  {
    hide Ahead, OrderlyContent, SameView, NormFrom, NoneRunning, Live, Restored, ToolEvents, ResultBlocks, StoppedBy,
         CompactNow, AtRest, Uncompacted, InputTokens, AreCalls;
    ToolUsesAreCalls(m.content);
    var counted := Emit(c, UsageEvents(m.usage));
    UsageQuiet(m.usage);
    AheadQuiet(render, start, c, m, UsageEvents(m.usage));
    var pushed := PushTurn(counted, AssistantTurn(m.content));
    var uses := ToolUses(m.content);
    if m.stopReason == "refusal" {
      var failed := [Chat.Failed("the model declined this request")];
      if uses == [] { RecordedWithoutCalls(render, start, counted, m); } else { RecordedRefusal(render, start, counted, m); }
      QuietKeepsAgreement(render, start, pushed, failed);
    } else if uses == [] {
      var ended := Emit(pushed, [Chat.TurnEnded(m.stopReason)]);
      RecordedWithoutCalls(render, start, counted, m);
      QuietKeepsAgreement(render, start, pushed, [Chat.TurnEnded(m.stopReason)]);
      if CompactIfFull(cfg, ended, InputTokens(m.usage), round.summary) != ended {
        CompactingShows(cfg, ended, round.summary);
      }
    } else {
      CallsAre(uses);
      ToolsAnswered(render, start, counted, m, round.tools);
      var answered := PushTurn(Emit(pushed, ToolEvents(uses, round.tools)), ToolResults(ResultBlocks(uses, round.tools)));
      QuietKeepsAgreement(render, start, answered, [Chat.TurnEnded("cancelled")]);
    }
  }

  lemma UsageQuiet(usage: Json)
    ensures forall i :: 0 <= i < |UsageEvents(usage)| ==> Quiet(UsageEvents(usage)[i])
  {
  }

  lemma CallsAre(uses: seq<Block>)
    requires forall u :: u in uses ==> u.ToolUse?
    ensures AreCalls(uses)
  {
  }

  // ---------------------------------------------------------------- a round

  /** The round leaves the two views apart: its last response failed or was stopped after some
      of its text was shown, or its message was declined with calls still open. */
  predicate Unsettled(cfg: Config, round: Round) {
    && !round.stopBefore
    && var r := RetryResult(cfg, round.attempts, 0);
       if r.Ok? then AgentProtocol.RefusesCalls(r.value) else AttemptText(LastAttempt(cfg, round.attempts, 0)) != ""
  }

  /** The plainest unsettled round: some text is shown, then the user stops the response. */
  function StoppedMidText(text: string): Attempt {
    Response([BlockStart(0, StartText("")), BlockDelta(0, TextDelta(text))], StoppedByUser)
  }

  lemma StoppedShows(text: string)
    ensures AttemptText(StoppedMidText(text)) == text && !HasStop(StoppedMidText(text).events)
  {
    var start, delta := BlockStart(0, StartText("")), BlockDelta(0, TextDelta(text));
    var none: seq<Option<OpenBlock>> := [];
    assert Pad(none, 1) == Pad([None], 1);
    assert Push(EMPTY, start).blocks == [Some(OpenText(""))];
    assert [start, delta][1..] == [delta] && [delta][1..] == [];
    assert BeforeStop([delta]) == [delta] + BeforeStop([delta][1..]) == [delta];
    assert BeforeStop([start, delta]) == [start] + BeforeStop([start, delta][1..]) == [start, delta];
    var first := Push(EMPTY, start);
    assert Emission(EMPTY, start) == Nothing && Emission(first, delta) == EmitText(text);
    hide Push, Emission, BeforeStop;
    assert EmittedText(Push(first, delta), []) == "";
    assert EmittedText(first, [delta]) == text + "";
    assert EmittedText(EMPTY, [start, delta]) == "" + EmittedText(first, [delta]);
    assert text + "" == text && "" + text == text;
  }

  lemma StoppedIsUnsettled(cfg: Config, text: string, tools: nat -> ToolStep)
    requires text != ""
    ensures Unsettled(cfg, Round(false, _ => StoppedMidText(text), tools, None))
  {
    hide StoppedMidText, AttemptText, HasStop;
    StoppedShows(text);
    var attempts := (_: nat) => StoppedMidText(text);
    StoppedResult(cfg, text);
    hide AttemptResult;
    assert LastAttempt(cfg, attempts, 0) == StoppedMidText(text);
  }

  lemma StoppedResult(cfg: Config, text: string)
    requires !HasStop(StoppedMidText(text).events)
    ensures AttemptResult(cfg, StoppedMidText(text)) == Err(Cancelled)
  {
    hide HasStop;
  }

  lemma StreamingView(cfg: Config, render: Render, start: Log, c: Conv, attempts: nat -> Attempt)
    requires Agree(render, start, c) && AtRest(Live(render, start, c))
    ensures var streamed := Emit(c, RetryEvents(cfg, attempts, 0));
            && Norm(Live(render, start, streamed))
               == NormPush(Norm(Restored(render, streamed)), AssistantItem(AttemptText(LastAttempt(cfg, attempts, 0))))
            && NoneRunning(Live(render, start, streamed)) && NoneRunning(Restored(render, streamed))
  {
    hide NormFrom, NormPush, ApplyAll, RetryEvents, AttemptText, LastAttempt, NoneRunning, AtRest, Restored;
    LiveEmit(render, start, c, RetryEvents(cfg, attempts, 0));
    StreamShows(cfg, render, ApplyAll(render, start, c.bus), attempts);
  }

  /** A complete response was streamed in full by its last attempt, so the reader saw its text. */
  lemma CompleteText(cfg: Config, attempts: nat -> Attempt)
    requires RetryResult(cfg, attempts, 0).Ok? && Orderly(cfg, LastAttempt(cfg, attempts, 0))
    ensures var m := RetryResult(cfg, attempts, 0).value;
            OrderlyContent(m.content) && AttemptText(LastAttempt(cfg, attempts, 0)) == TextOf(m.content)
  {
    hide RetryResult, LastAttempt, OrderlyContent, InOrder, Fold, EmittedText, TextOf;
    LastAttemptResult(cfg, attempts, 0);
    var a := LastAttempt(cfg, attempts, 0);
    StreamedTextIsFinal(cfg.parse, BeforeStop(a.events));
  }

  lemma {:induction false} LastIsAttempt(cfg: Config, attempts: nat -> Attempt, n: nat)
    requires forall k: nat :: Orderly(cfg, attempts(k))
    ensures Orderly(cfg, LastAttempt(cfg, attempts, n))
    decreases MAX_STREAM_RETRIES - n
  {
    hide Orderly, AttemptResult, Transient;
    if !Retries(cfg, attempts(n), n) {
    } else {
      LastIsAttempt(cfg, attempts, n + 1);
    }
  }

  /** A response that was not recorded shows exactly when some of its text was streamed. */
  lemma UnrecordedView(render: Render, start: Log, c: Conv, text: string)
    requires Norm(Live(render, start, c)) == NormPush(Norm(Restored(render, c)), AssistantItem(text))
    requires NoneRunning(Live(render, start, c)) && NoneRunning(Restored(render, c))
    ensures SameView(render, start, c) <==> text == ""
    ensures text == "" ==> Agree(render, start, c)
  {
    hide NormFrom, NoneRunning, Live, Restored, Reopened;
    AgreeIsSameView(render, start, c);
    if text != "" { TextShows(Norm(Restored(render, c)), text); }
  }

  lemma RoundView(cfg: Config, render: Render, start: Log, c: Conv, round: Round, compacted: bool)
    requires Agree(render, start, c) && AtRest(Live(render, start, c))
    requires forall k: nat :: Orderly(cfg, round.attempts(k))
    requires Uncompacted(RunRound(cfg, c, round, compacted).conv.bus)
    ensures var step := RunRound(cfg, c, round, compacted);
            && NoneRunning(Live(render, start, step.conv))
            && if Unsettled(cfg, round) then step.Finished? && !SameView(render, start, step.conv)
               else Agree(render, start, step.conv) && (step.Continue? ==> AtRest(Live(render, start, step.conv)))
  {
    hide SameView, NormFrom, NormPush, NoneRunning, Live, Restored, AtRest, Uncompacted, Orderly, OrderlyContent,
         RetryEvents, RetryResult, LastAttempt, AttemptText, OnMessage, CompactNow, Dropped, IsTooLong, TextOf;
    var cancelled := [Chat.TurnEnded("cancelled")];
    if round.stopBefore {
      QuietKeepsAgreement(render, start, c, cancelled);
    } else {
      var streamed := Emit(c, RetryEvents(cfg, round.attempts, 0));
      var r := RetryResult(cfg, round.attempts, 0);
      StreamingView(cfg, render, start, c, round.attempts);
      if r.Ok? {
        LastIsAttempt(cfg, round.attempts, 0);
        CompleteText(cfg, round.attempts);
        MessageView(cfg, render, start, streamed, r.value, round, compacted);
      } else {
        UnrecordedView(render, start, streamed, AttemptText(LastAttempt(cfg, round.attempts, 0)));
        QuietKeepsAgreement(render, start, streamed, cancelled);
        if r.error != Cancelled { FailureIsPlain(cfg, c, round, compacted); }
      }
    }
  }

  /** A failed round that compacts nothing records nothing. */
  lemma FailureIsPlain(cfg: Config, c: Conv, round: Round, compacted: bool)
    requires !round.stopBefore && RetryResult(cfg, round.attempts, 0).Err?
    requires RetryResult(cfg, round.attempts, 0).error != Cancelled
    requires Uncompacted(RunRound(cfg, c, round, compacted).conv.bus)
    ensures var step := RunRound(cfg, c, round, compacted);
            step.Finished? && step.conv == Emit(c, RetryEvents(cfg, round.attempts, 0))
  {
    hide RetryEvents, RetryResult, OnMessage, IsTooLong;
    var streamed := Emit(c, RetryEvents(cfg, round.attempts, 0));
    var e := RetryResult(cfg, round.attempts, 0).error;
    if IsTooLong(e) && !compacted { CompactingShows(cfg, streamed, round.summary); DroppedShows(cfg, streamed, round.summary); }
  }

  lemma DroppedShows(cfg: Config, c: Conv, summary: Option<string>)
    requires CompactNow(cfg, c, summary) == c
    ensures Dropped(cfg, c, summary) == 0
  {
    hide CompactNow, Dropped;
    AgentProtocol.CompactingAnnounces(cfg, c, summary);
  }

  // ---------------------------------------------------------------- a turn

  lemma UncompactedPrefix(a: seq<Event>, b: seq<Event>)
    requires a <= b && Uncompacted(b)
    ensures Uncompacted(a)
  {
    forall i | 0 <= i < |a| ensures !a[i].CompactedEvent? { assert a[i] == b[i]; }
  }

  /** Whether some round that the turn reaches is unsettled. */
  predicate TurnUnsettled(cfg: Config, c: Conv, world: nat -> Round, i: nat, compacted: bool)
    decreases MAX_TOOL_ROUNDS - i
  {
    && i < MAX_TOOL_ROUNDS
    && (|| Unsettled(cfg, world(i))
        || var step := RunRound(cfg, c, world(i), compacted);
           step.Continue? && TurnUnsettled(cfg, step.conv, world, i + 1, step.compacted))
  }

  lemma {:induction false} RoundsView(
      cfg: Config, render: Render, start: Log, c: Conv, world: nat -> Round, i: nat, compacted: bool)
    requires Agree(render, start, c) && AtRest(Live(render, start, c)) && OrderlyWorld(cfg, world)
    requires Uncompacted(RunRounds(cfg, c, world, i, compacted).conv.bus)
    ensures var last := RunRounds(cfg, c, world, i, compacted).conv;
            && NoneRunning(Live(render, start, last))
            && if TurnUnsettled(cfg, c, world, i, compacted) then !SameView(render, start, last)
               else Agree(render, start, last)
    decreases MAX_TOOL_ROUNDS - i
  {
    hide RunRound, SameView, Live, Restored, NormFrom, NoneRunning, AtRest, Uncompacted, Unsettled, Orderly;
    if i >= MAX_TOOL_ROUNDS {
    } else {
      var step := RunRound(cfg, c, world(i), compacted);
      if step.Continue? { AgentProtocol.RoundsGrow(cfg, step.conv, world, i + 1, step.compacted); }
      UncompactedPrefix(step.conv.bus, RunRounds(cfg, c, world, i, compacted).conv.bus);
      RoundView(cfg, render, start, c, world(i), compacted);
      if step.Continue? { RoundsView(cfg, render, start, step.conv, world, i + 1, step.compacted); }
    }
  }

  lemma PromptView(render: Render, start: Log, c: Conv, prompt: string)
    requires Agree(render, start, c)
    ensures Agree(render, start, StartTurn(c, prompt)) && AtRest(Live(render, start, StartTurn(c, prompt)))
  {
    hide NormFrom, ApplyAll, RestoreTurns;
    var pushed := PushTurn(c, UserText(prompt));
    LiveEmit(render, start, pushed, [Chat.TurnStarted(prompt)]);
    ApplyOne(render, ApplyAll(render, start, c.bus), Chat.TurnStarted(prompt));
    RestoredPush(render, c, UserText(prompt));
    assert RestoreBlocks(render, Restored(render, c), User, [Text(prompt)]) == Restored(render, c) + [UserItem(prompt)] by {
      assert [Text(prompt)][..0] == [];
    }
    NormSnoc([], Live(render, start, c), UserItem(prompt));
    NormSnoc([], Restored(render, c), UserItem(prompt));
  }

  /** A prompt that could not start, or whose turn does not settle. */
  predicate CommandUnsettled(c: Conv, cmd: Command)
    requires cmd.Prompt?
  {
    cmd.setupFailure.Some? || TurnUnsettled(cmd.cfg, StartTurn(c, cmd.text), cmd.world, 0, false)
  }

  /** From agreeing views, one prompt leaves the chat as it will look when reopened exactly
      when its turn settles, whatever was retried, run, stopped or refused on the way. */
  lemma TurnView(render: Render, start: Log, c: Conv, cmd: Command)
    requires Agree(render, start, c) && cmd.Prompt? && OrderlyWorld(cmd.cfg, cmd.world)
    requires Uncompacted(RunCommand(c, cmd).bus)
    ensures SameView(render, start, RunCommand(c, cmd)) <==> !CommandUnsettled(c, cmd)
    ensures !CommandUnsettled(c, cmd) ==> Agree(render, start, RunCommand(c, cmd))
  {
    hide SameView, Agree, Live, Restored, Reopened, NormFrom, NoneRunning, AtRest, Uncompacted, TurnUnsettled, OrderlyWorld,
         RunRounds, StartTurn;
    if cmd.setupFailure.Some? {
      SetupFailureView(render, start, c, cmd.text, cmd.setupFailure.value);
    } else {
      var first := StartTurn(c, cmd.text);
      RunRoundsFinish(cmd.cfg, first, cmd.world, 0, false);
      var turn := RunRounds(cmd.cfg, first, cmd.world, 0, false);
      PromptView(render, start, c, cmd.text);
      UncompactedPrefix(turn.conv.bus, RunCommand(c, cmd).bus);
      RoundsView(cmd.cfg, render, start, first, cmd.world, 0, false);
      QuietKeepsAgreement(render, start, turn.conv, Report(cmd.cfg, turn.result));
      AgreeingIsSame(render, start, turn.conv);
    }
  }

  lemma AgreeingIsSame(render: Render, start: Log, c: Conv)
    ensures Agree(render, start, c) ==> SameView(render, start, c)
  {
    hide Live, Restored, Reopened, NormFrom, NoneRunning;
    if Agree(render, start, c) { AgreeIsSameView(render, start, c); }
  }

  /** The transcript never hears of a prompt whose turn could not be set up. */
  lemma SetupFailureView(render: Render, start: Log, c: Conv, prompt: string, message: string)
    requires Agree(render, start, c)
    ensures !SameView(render, start, Emit(c, [Chat.TurnStarted(prompt), Chat.Failed(message)]))
  {
    hide NormFrom, ApplyAll, RestoreTurns, Interrupt, NoneRunning;
    var shown := Emit(c, [Chat.TurnStarted(prompt)]);
    var both := Emit(shown, [Chat.Failed(message)]);
    assert c.bus + [Chat.TurnStarted(prompt)] + [Chat.Failed(message)]
        == c.bus + [Chat.TurnStarted(prompt), Chat.Failed(message)];
    LiveEmit(render, start, c, [Chat.TurnStarted(prompt)]);
    ApplyOne(render, ApplyAll(render, start, c.bus), Chat.TurnStarted(prompt));
    NormSnoc([], Live(render, start, c), UserItem(prompt));
    StillNoneRunning(Live(render, start, c), prompt);
    QuietKeepsAgreement(render, start, shown, [Chat.Failed(message)]);
    AgreeIsSameView(render, start, c);
  }

  lemma StillNoneRunning(items: seq<ChatItem>, prompt: string)
    requires NoneRunning(items)
    ensures NoneRunning(items + [UserItem(prompt)])
  {
  }

  // ---------------------------------------------------------------- whole conversations

  predicate RunUnsettled(c: Conv, cmds: seq<Command>)
    requires forall k :: 0 <= k < |cmds| ==> cmds[k].Prompt?
  {
    && cmds != []
    && var front := cmds[..|cmds| - 1];
       RunUnsettled(c, front) || CommandUnsettled(RunCommands(c, front), cmds[|cmds| - 1])
  }

  ghost predicate OrderlyPrompts(cmds: seq<Command>) {
    forall k :: 0 <= k < |cmds| ==> cmds[k].Prompt? && OrderlyWorld(cmds[k].cfg, cmds[k].world)
  }

  /** Over every uncompacted conversation: at every moment between turns the chat shows what it
      will show when reopened, exactly when every turn settled. */
  lemma {:induction false} ConversationView(render: Render, start: Log, c: Conv, cmds: seq<Command>)
    requires Agree(render, start, c) && OrderlyPrompts(cmds)
    requires Uncompacted(RunCommands(c, cmds).bus)
    ensures !RunUnsettled(c, cmds) ==> Agree(render, start, RunCommands(c, cmds))
    ensures !RunUnsettled(c, cmds)
       <==> forall k :: 0 <= k <= |cmds| ==> SameView(render, start, RunCommands(c, cmds[..k]))
  {
    hide SameView, Agree, RunCommand, Uncompacted, CommandUnsettled, OrderlyWorld;
    if cmds == [] {
      AgreeingIsSame(render, start, c);
      assert forall k :: 0 <= k <= |cmds| ==> cmds[..k] == cmds;
    } else {
      var front, last := cmds[..|cmds| - 1], cmds[|cmds| - 1];
      var before := RunCommands(c, front);
      AgentProtocol.PromptGrows(before, last);
      UncompactedPrefix(before.bus, RunCommand(before, last).bus);
      ConversationView(render, start, c, front);
      assert forall k :: 0 <= k <= |front| ==> front[..k] == cmds[..k];
      assert cmds[..|cmds|] == cmds;
      if !RunUnsettled(c, front) { TurnView(render, start, before, last); }
    }
  }

  /** A new chat agrees, and so does one reopened from a transcript with no call left open. */
  lemma FreshAgrees(render: Render, transcript: seq<Agent.Turn>, summary: Option<string>)
    requires NoneRunning(RestoreTurns(render, Preface(summary), transcript))
    ensures Agree(render, Restore(render, transcript, summary), Conv(transcript, summary, []))
    ensures Agree(render, EMPTY_LOG, Conv([], None, []))
  {
    hide NormFrom;
    InterruptNone(RestoreTurns(render, Preface(summary), transcript));
  }
}
