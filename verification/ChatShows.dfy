/** What the chat shows of what happens (crates/mc-core/src/chat.rs, crates/mc-core/src/event.rs):
    whether a turn is under way, what streamed, how turns and tools end, and what a reopened
    conversation begins with. */
module ChatShows {
  import opened Basics
  import opened Wire
  import opened Transcript
  import opened Chat
  import opened Agent
  import opened ConversationViews
  import opened TurnRecord
  import AgentProtocol

  // ---------------------------------------------------------------- whether a turn is under way

  lemma {:induction false} BusyAfter(render: Render, log: Log, es: seq<Event>)
    requires Count(es, Begins) == 0
    ensures ApplyAll(render, log, es).busy == (log.busy && Count(es, Ends) == 0)
  {
    if es == [] {
    } else {
      var front, last := es[..|es| - 1], es[|es| - 1];
      BusyAfter(render, log, front);
      LastEvent(render, ApplyAll(render, log, front), last);
      hide Apply, Is;
    }
  }

  lemma LastEvent(render: Render, log: Log, e: Event)
    ensures e.TurnStarted? ==> Apply(render, log, e).busy
    ensures Is(e, Ends) ==> !Apply(render, log, e).busy
    ensures EndsNothing(e) ==> Apply(render, log, e).busy == log.busy
  {
    hide AppendText, AppendThinking, Settle, DropStreamed, Interrupt, SummariseInput, EndNotice;
  }

  lemma StillUnderWay(render: Render, start: Log, c: Conv, prompt: string, later: Conv)
    requires StartTurn(c, prompt).bus <= later.bus
    requires Count(later.bus, Begins) == Count(c.bus, Begins) + 1
    ensures ApplyAll(render, start, later.bus).busy == (Count(later.bus, Ends) == Count(c.bus, Ends))
  {
    var first := StartTurn(c, prompt);
    var since := later.bus[|first.bus|..];
    assert later.bus == first.bus + since && first.bus == c.bus + [TurnStarted(prompt)];
    hide ApplyAll, Count;
    ApplyConcat(render, start, first.bus, since);
    ApplyConcat(render, start, c.bus, [TurnStarted(prompt)]);
    ApplyOne(render, ApplyAll(render, start, c.bus), TurnStarted(prompt));
    CountConcat(first.bus, since, Begins);
    CountConcat(first.bus, since, Ends);
    CountOne(c.bus, TurnStarted(prompt), Begins);
    CountOne(c.bus, TurnStarted(prompt), Ends);
    LastEvent(render, ApplyAll(render, start, c.bus), TurnStarted(prompt));
    BusyAfter(render, ApplyAll(render, start, first.bus), since);
  }

  lemma {:induction false} ReachedIsUnderWay(cfg: Config, c: Conv, world: nat -> Round, n: nat)
    requires Reached(cfg, c, world, n).Some?
    ensures var at := Reached(cfg, c, world, n).value.0;
            && c.bus <= at.bus
            && Count(at.bus, Begins) == Count(c.bus, Begins) && Count(at.bus, Ends) == Count(c.bus, Ends)
  {
    if n == 0 {
    } else {
      hide RunRound, Count;
      ReachedIsUnderWay(cfg, c, world, n - 1);
      var before := Reached(cfg, c, world, n - 1).value;
      RoundCounts(cfg, before.0, world(n - 1), before.1, Ends);
      RoundCounts(cfg, before.0, world(n - 1), before.1, Begins);
      RoundExtends(cfg, before.0, world(n - 1), before.1);
    }
  }

  lemma RoundExtends(cfg: Config, c: Conv, round: Round, compacted: bool)
    ensures c.bus <= RunRound(cfg, c, round, compacted).conv.bus
  {
    hide RunRound;
    AgentProtocol.RoundGrows(cfg, c, round, compacted);
  }

  /** The chat says that it is busy from the prompt on for as long as rounds go on, and no longer
      once the prompt has been dealt with, however it went. */
  lemma BusyWhileTheTurnRuns(render: Render, start: Log, c: Conv, cmd: Command, n: nat)
    requires cmd.Prompt?
    ensures !ApplyAll(render, start, RunCommand(c, cmd).bus).busy
    ensures cmd.setupFailure.None? && Reached(cmd.cfg, StartTurn(c, cmd.text), cmd.world, n).Some? ==>
              ApplyAll(render, start, Reached(cmd.cfg, StartTurn(c, cmd.text), cmd.world, n).value.0.bus).busy
  {
    hide ApplyAll, RunCommand, Count, Reached;
    var first := StartTurn(c, cmd.text);
    PromptEndsOnce(c, cmd);
    PromptBegins(c, cmd);
    StillUnderWay(render, start, c, cmd.text, RunCommand(c, cmd));
    if Reached(cmd.cfg, first, cmd.world, n).Some? {
      ReachedIsUnderWay(cmd.cfg, first, cmd.world, n);
      CountOne(c.bus, TurnStarted(cmd.text), Begins);
      CountOne(c.bus, TurnStarted(cmd.text), Ends);
      StillUnderWay(render, start, c, cmd.text, Reached(cmd.cfg, first, cmd.world, n).value.0);
    }
  }

  lemma PromptBegins(c: Conv, cmd: Command)
    requires cmd.Prompt?
    ensures StartTurn(c, cmd.text).bus <= RunCommand(c, cmd).bus
  {
    if cmd.setupFailure.None? {
      hide RunRounds;
      var first := StartTurn(c, cmd.text);
      RunRoundsFinish(cmd.cfg, first, cmd.world, 0, false);
      AgentProtocol.RoundsGrow(cmd.cfg, first, cmd.world, 0, false);
    }
  }

  // ---------------------------------------------------------------- what streamed

  /** Text, character by character, each with whether it was thought or said. */
  function Marked(thought: bool, text: string): seq<(bool, char)> {
    seq(|text|, i requires 0 <= i < |text| => (thought, text[i]))
  }

  function ShownText(items: seq<ChatItem>): seq<(bool, char)> {
    if items == [] then []
    else
      var last := items[|items| - 1];
      ShownText(items[..|items| - 1])
      + (if last.AssistantItem? || last.ThinkingItem? then Marked(last.ThinkingItem?, last.text) else [])
  }

  function StreamedText(es: seq<Event>): seq<(bool, char)> {
    if es == [] then []
    else
      var last := es[|es| - 1];
      StreamedText(es[..|es| - 1])
      + (if last.TextDeltaEvent? || last.ThinkingDeltaEvent? then Marked(last.ThinkingDeltaEvent?, last.text) else [])
  }

  /** What is thought and what is said alternate from one item to the next. */
  predicate Alternates(items: seq<ChatItem>) {
    forall i :: 0 < i < |items| ==> items[i].ThinkingItem? != items[i - 1].ThinkingItem?
  }

  lemma ShownSnoc(items: seq<ChatItem>, item: ChatItem)
    requires Streamed(item)
    ensures ShownText(items + [item]) == ShownText(items) + Marked(item.ThinkingItem?, item.text)
  {
    assert (items + [item])[..|items|] == items;
  }

  lemma AppendShows(items: seq<ChatItem>, thought: bool, text: string)
    requires forall i :: 0 <= i < |items| ==> Streamed(items[i])
    ensures var after := if thought then AppendThinking(items, text) else AppendText(items, text);
            && ShownText(after) == ShownText(items) + Marked(thought, text)
            && (Alternates(items) ==> Alternates(after))
  {
    hide ShownText;
    var item := if thought then ThinkingItem(text) else AssistantItem(text);
    if items != [] && items[|items| - 1].ThinkingItem? == thought {
      var front, last := items[..|items| - 1], items[|items| - 1];
      var joined := if thought then ThinkingItem(last.text + text) else AssistantItem(last.text + text);
      assert items == front + [last];
      ShownSnoc(front, last);
      ShownSnoc(front, joined);
      assert Marked(thought, last.text + text) == Marked(thought, last.text) + Marked(thought, text);
      assert ShownText(front) + (Marked(thought, last.text) + Marked(thought, text))
          == ShownText(front) + Marked(thought, last.text) + Marked(thought, text);
    } else {
      ShownSnoc(items, item);
    }
  }

  lemma {:induction false} TailShows(es: seq<Event>)
    requires AllDeltas(es)
    ensures ShownText(Tail(es)) == StreamedText(es) && Alternates(Tail(es))
  {
    if es == [] {
    } else {
      var front, last := es[..|es| - 1], es[|es| - 1];
      assert IsDelta(last) && AllDeltas(front);
      TailShows(front);
      TailStreamed(front);
      hide ShownText, AppendText, AppendThinking, Marked;
      AppendShows(Tail(front), last.ThinkingDeltaEvent?, last.text);
    }
  }

  /** What streams is shown, all of it and in order: thoughts as thoughts, speech as speech, one
      item for each stretch of either. */
  lemma StreamIsShown(render: Render, log: Log, es: seq<Event>)
    requires AllDeltas(es) && AtRest(log.items)
    ensures var after := ApplyAll(render, log, es).items;
            && log.items <= after
            && ShownText(after[|log.items|..]) == StreamedText(es)
            && Alternates(after[|log.items|..])
  {
    hide ShownText, StreamedText, Alternates, AllDeltas, AtRest, ApplyAll, Tail;
    DeltasAddTail(render, log, es);
    TailShows(es);
    assert (log.items + Tail(es))[|log.items|..] == Tail(es);
  }

  /** Thoughts are published only when the configuration asks for it. */
  lemma {:induction false} ThoughtsStayHidden(cfg: Config, a: Accumulator, es: seq<WireEvent>)
    requires !cfg.showThinking
    ensures forall i :: 0 <= i < |Published(cfg, a, es)| ==> Published(cfg, a, es)[i].TextDeltaEvent?
    decreases |es|
  {
    hide Push, Emission;
    if es == [] {
    } else {
      ThoughtsStayHidden(cfg, Push(a, es[0]), es[1..]);
    }
  }

  /** And then all of them, in their place in what is said. */
  lemma {:induction false} ThoughtsAreShown(cfg: Config, a: Accumulator, es: seq<WireEvent>)
    requires cfg.showThinking
    ensures StreamedText(Published(cfg, a, es)) == EmittedMarks(a, es)
    decreases |es|
  {
    hide Push, Emission, StreamedText, Marked, Publish;
    if es == [] {
      NothingStreamed();
    } else {
      ThoughtsAreShown(cfg, Push(a, es[0]), es[1..]);
      StreamedConcat(Publish(cfg, Emission(a, es[0])), Published(cfg, Push(a, es[0]), es[1..]));
      PublishMarks(cfg, Emission(a, es[0]));
    }
  }

  lemma NothingStreamed()
    ensures StreamedText([]) == []
  {
  }

  /** What the accumulator gives out, marked. */
  function EmittedMarks(a: Accumulator, es: seq<WireEvent>): seq<(bool, char)>
    decreases |es|
  {
    if es == [] then []
    else
      var here := Emission(a, es[0]);
      (if here.EmitText? || here.EmitThinking? then Marked(here.EmitThinking?, here.text) else [])
      + EmittedMarks(Push(a, es[0]), es[1..])
  }

  lemma PublishMarks(cfg: Config, here: Emitted)
    requires cfg.showThinking
    ensures StreamedText(Publish(cfg, here)) == if here.EmitText? || here.EmitThinking? then Marked(here.EmitThinking?, here.text) else []
  {
  }

  lemma {:induction false} StreamedConcat(a: seq<Event>, b: seq<Event>)
    ensures StreamedText(a + b) == StreamedText(a) + StreamedText(b)
    decreases |b|
  {
    if b == [] {
      assert a + b == a;
    } else {
      hide Marked;
      var all := a + b;
      assert all[..|all| - 1] == a + b[..|b| - 1] && all[|all| - 1] == b[|b| - 1];
      StreamedConcat(a, b[..|b| - 1]);
    }
  }

  // ---------------------------------------------------------------- how turns and tools end

  /** A turn that ends as it should adds nothing; one that was stopped, cut off or ended for any
      other reason adds one line that says so. */
  lemma TurnEndShows(render: Render, log: Log, reason: string)
    ensures var after := Apply(render, log, TurnEnded(reason)).items;
            && log.items <= after && |after| <= |log.items| + 1
            && (after == log.items <==> reason in {"end_turn", "tool_use", "stop_sequence"})
            && (reason == "cancelled" ==> after == log.items + [NoticeItem(Stopped)])
            && (reason == "max_tokens" ==> after == log.items + [NoticeItem(CutOff)])
            && (reason !in {"end_turn", "tool_use", "stop_sequence", "cancelled", "max_tokens"} ==>
                  after == log.items + [NoticeItem(Ended(reason))])
  {
  }

  lemma {:induction false} InterruptEach(items: seq<ChatItem>)
    ensures |Interrupt(items)| == |items|
    ensures forall i :: 0 <= i < |items| ==>
              Interrupt(items)[i] == if items[i].ToolItem? && items[i].state == Running
                                     then ToolItem(items[i].id, items[i].name, items[i].summary, ToolFailed("interrupted"))
                                     else items[i]
  {
    if items == [] {
    } else {
      InterruptEach(items[..|items| - 1]);
    }
  }

  /** A failure ends every call that still ran, as interrupted, leaves the rest alone, and says
      what went wrong last. */
  lemma FailureShows(render: Render, log: Log, message: string)
    ensures var after := Apply(render, log, Failed(message)).items;
            && |after| == |log.items| + 1 && after[|log.items|] == ErrorItem(message)
            && NoneRunning(after)
            && forall i :: 0 <= i < |log.items| ==>
                 if log.items[i].ToolItem? && log.items[i].state == Running
                 then after[i] == log.items[i].(state := ToolFailed("interrupted"))
                 else after[i] == log.items[i]
  {
    hide Interrupt;
    InterruptEach(log.items);
  }

  /** The context in use is what was last told, until another chat is opened. */
  lemma {:induction false} ContextIsLastTold(render: Render, log: Log, before: seq<Event>, tokens: nat, after: seq<Event>)
    requires forall i :: 0 <= i < |after| ==> !after[i].ContextUsage? && !after[i].SessionOpened?
    ensures ApplyAll(render, log, before + [ContextUsage(tokens)] + after).contextTokens == Some(tokens)
    decreases |after|
  {
    var all := before + [ContextUsage(tokens)] + after;
    hide AppendText, AppendThinking, Settle, DropStreamed, Interrupt, SummariseInput, EndNotice;
    if after == [] {
      assert all[..|all| - 1] == before;
    } else {
      ContextIsLastTold(render, log, before, tokens, after[..|after| - 1]);
      assert all[..|all| - 1] == before + [ContextUsage(tokens)] + after[..|after| - 1];
    }
  }

  /** Shortening the conversation says how much went; another chat starts from nothing. */
  lemma CompactionAndOpeningShow(render: Render, log: Log, dropped: nat, es: seq<Event>)
    ensures ApplyAll(render, log, es + [CompactedEvent(dropped)])
         == ApplyAll(render, log, es).(items := ApplyAll(render, log, es).items + [NoticeItem(Summarized(dropped))])
    ensures ApplyAll(render, log, es + [SessionOpened]) == Log([], false, None)
  {
    assert (es + [CompactedEvent(dropped)])[..|es|] == es && (es + [SessionOpened])[..|es|] == es;
  }

  // ---------------------------------------------------------------- one line for each call

  /** The line is the beginning of the text, up to the first line break, a carriage return before
      it included in the break, or to the end. */
  lemma FirstLineIs(s: string)
    ensures '\n' !in FirstLine(s) && FirstLine(s) <= s
    ensures var rest := s[|FirstLine(s)|..];
            || rest == "" || "\r\n" <= rest
            || ("\n" <= rest && (FirstLine(s) != "" ==> FirstLine(s)[|FirstLine(s)| - 1] != '\r'))
    ensures '\n' !in s ==> FirstLine(s) == s
  {
    if '\n' in s { UpToNewlineIs(s); }
  }

  lemma {:induction false} UpToNewlineIs(s: string)
    requires '\n' in s
    ensures var line := UpToNewline(s);
            '\n' !in line && |line| < |s| && line == s[..|line|] && s[|line|] == '\n'
  {
    if s[0] == '\n' {
    } else {
      UpToNewlineIs(s[1..]);
    }
  }

  /** A known tool is shown by the one thing it is about, when that is given as text; anything else
      by its whole input. */
  lemma CallIsSummed(render: Render, name: string, input: Json, key: string, value: string)
    requires (name, key) in {("bash", "command"), ("read_file", "path"), ("write_file", "path"), ("edit_file", "path"), ("search", "pattern")}
    ensures input.Obj? && key in input.fields && input.fields[key] == Str(value) ==>
              SummariseInput(render, name, input) == FirstLine(value)
    ensures (input.Obj? && key in input.fields ==> !input.fields[key].Str?) ==>
              SummariseInput(render, name, input) == FirstLine(render(input))
  {
  }

  lemma OtherCallIsSummed(render: Render, name: string, input: Json)
    requires name !in {"bash", "read_file", "write_file", "edit_file", "search"}
    ensures SummariseInput(render, name, input) == FirstLine(render(input))
  {
  }

  // ---------------------------------------------------------------- a reopened conversation

  /** Only the first item is a notice, and only if the conversation was shortened. */
  predicate OnlyPrefaced(items: seq<ChatItem>, shortened: bool) {
    && (shortened ==> items != [])
    && forall i :: 0 <= i < |items| ==>
         (items[i].NoticeItem? <==> i == 0 && shortened) && (items[i].NoticeItem? ==> items[i].notice == EarlierSummarized)
  }

  lemma {:induction false} SettleKeepsNotices(items: seq<ChatItem>, id: string, state: ToolState)
    ensures |Settle(items, id, state)| == |items|
    ensures forall i :: 0 <= i < |items| ==>
              Settle(items, id, state)[i] == items[i] || (items[i].ToolItem? && Settle(items, id, state)[i].ToolItem?)
  {
    if items == [] {
    } else {
      SettleKeepsNotices(items[..|items| - 1], id, state);
    }
  }

  lemma BlockKeepsPreface(render: Render, items: seq<ChatItem>, role: Role, block: Block, shortened: bool)
    requires OnlyPrefaced(items, shortened)
    ensures OnlyPrefaced(RestoreBlock(render, items, role, block), shortened)
  {
    hide SummariseInput, Settle;
    if role.User? && block.ToolResult? { SettleKeepsNotices(items, block.toolUseId, Outcome(block.isError, block.content)); }
  }

  lemma {:induction false} BlocksKeepPreface(render: Render, items: seq<ChatItem>, role: Role, content: seq<Block>, shortened: bool)
    requires OnlyPrefaced(items, shortened)
    ensures OnlyPrefaced(RestoreBlocks(render, items, role, content), shortened)
  {
    hide OnlyPrefaced, RestoreBlock;
    if content == [] {
    } else {
      BlocksKeepPreface(render, items, role, content[..|content| - 1], shortened);
      BlockKeepsPreface(render, RestoreBlocks(render, items, role, content[..|content| - 1]), role, content[|content| - 1], shortened);
    }
  }

  lemma {:induction false} TurnsKeepPreface(render: Render, items: seq<ChatItem>, transcript: seq<Agent.Turn>, shortened: bool)
    requires OnlyPrefaced(items, shortened)
    ensures OnlyPrefaced(RestoreTurns(render, items, transcript), shortened)
  {
    hide OnlyPrefaced, RestoreBlocks;
    if transcript == [] {
    } else {
      var front, last := transcript[..|transcript| - 1], transcript[|transcript| - 1];
      TurnsKeepPreface(render, items, front, shortened);
      BlocksKeepPreface(render, RestoreTurns(render, items, front), last.role, last.content, shortened);
    }
  }

  /** A reopened chat is idle and nothing in it still runs, and it begins by saying that earlier
      messages were summarised exactly when they were. */
  lemma ReopenedIsQuiet(render: Render, transcript: seq<Agent.Turn>, summary: Option<string>)
    ensures var log := Restore(render, transcript, summary);
            && !log.busy && log.contextTokens == None
            && NoneRunning(log.items) && OnlyPrefaced(log.items, summary.Some?)
  {
    hide RestoreTurns, Interrupt;
    TurnsKeepPreface(render, Preface(summary), transcript, summary.Some?);
    InterruptEach(RestoreTurns(render, Preface(summary), transcript));
  }
}
