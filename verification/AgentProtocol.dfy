/** What every turn keeps true of the transcript (crates/mc-agent/src/lib.rs).

    The API refuses a transcript in which results do not directly follow the calls they
    answer, and one in which a call goes unanswered. The first never happens. The second
    happens exactly when a message that calls tools was declined: the turn returns before
    running them. */
module AgentProtocol {
  import opened Basics
  import opened Wire
  import opened Transcript
  import opened Agent

  // ---------------------------------------------------------------- pushing turns

  predicate Calls(t: Agent.Turn) { t.role.Assistant? && ToolUses(t.content) != [] }

  lemma PushPlain(transcript: seq<Agent.Turn>, t: Agent.Turn)
    requires !IsResults(t) && !Calls(t)
    ensures Paired(transcript) ==> Paired(transcript + [t])
    ensures AllAnswered(transcript) ==> AllAnswered(transcript + [t])
  {
    hide IsResults, Answers, ToolUses;
  }

  lemma PushCalls(transcript: seq<Agent.Turn>, t: Agent.Turn)
    requires Calls(t)
    ensures Paired(transcript) ==> Paired(transcript + [t])
    ensures !AllAnswered(transcript + [t])
  {
    hide Answers, ToolUses;
    assert (transcript + [t])[|transcript|] == t;
  }

  lemma PushExchange(transcript: seq<Agent.Turn>, call: Agent.Turn, results: Agent.Turn)
    requires Answers(call, results)
    ensures Paired(transcript) ==> Paired(transcript + [call] + [results])
    ensures AllAnswered(transcript) ==> AllAnswered(transcript + [call] + [results])
  {
    hide Answers, ToolUses;
    var whole := transcript + [call] + [results];
    assert whole[|transcript|] == call && whole[|transcript| + 1] == results;
    assert results.role.User? && call.role.Assistant? by { Roles(call, results); }
    assert !IsResults(call);
    if Paired(transcript) {
      forall i | 0 <= i < |whole| && IsResults(whole[i]) ensures i > 0 && Answers(whole[i - 1], whole[i]) {
        if i < |transcript| { assert Answers(transcript[i - 1], transcript[i]); }
      }
    }
    if AllAnswered(transcript) {
      forall i | 0 <= i < |whole| && whole[i].role.Assistant? && ToolUses(whole[i].content) != []
        ensures i + 1 < |whole| && Answers(whole[i], whole[i + 1])
      {
        if i < |transcript| { assert Answers(transcript[i], transcript[i + 1]); }
      }
    }
  }

  lemma Roles(call: Agent.Turn, results: Agent.Turn)
    requires Answers(call, results)
    ensures call.role.Assistant? && results.role.User?
  {
  }

  /** One result per call, in order, whether the call ran or was stopped. */
  lemma {:induction false} ResultsAnswer(uses: seq<Block>, tools: nat -> ToolStep)
    requires forall u :: u in uses ==> u.ToolUse?
    ensures |ResultBlocks(uses, tools)| == |uses|
    ensures forall j :: 0 <= j < |uses| ==> AnswersCall(uses[j], ResultBlocks(uses, tools)[j])
  {
    if uses == [] {
    } else {
      var k := |uses| - 1;
      ResultsAnswer(uses[..k], tools);
      assert forall j :: 0 <= j < k ==> uses[..k][j] == uses[j];
    }
  }

  // ---------------------------------------------------------------- one round

  /** The branch that returns before the calls are run. */
  predicate RefusesCalls(m: Message) { m.stopReason == "refusal" && ToolUses(m.content) != [] }

  predicate RoundRefusesCalls(cfg: Config, round: Round) {
    && !round.stopBefore
    && var r := RetryResult(cfg, round.attempts, 0);
       r.Ok? && RefusesCalls(r.value)
  }

  lemma CompactingKeepsShape(cfg: Config, c: Conv, summary: Option<string>)
    ensures Paired(c.transcript) ==> Paired(CompactNow(cfg, c, summary).transcript)
    ensures AllAnswered(c.transcript) ==> AllAnswered(CompactNow(cfg, c, summary).transcript)
  {
    hide Paired, AllAnswered, Compact;
    if CompactionCut(c.transcript, cfg.keepRecentTurns).Some? {
      CompactKeepsShape(c.transcript, cfg.keepRecentTurns);
    }
  }

  lemma MessageKeepsShape(cfg: Config, c: Conv, m: Message, round: Round, compacted: bool)
    ensures var after := OnMessage(cfg, c, m, round, compacted).conv.transcript;
            && (Paired(c.transcript) ==> Paired(after))
            && (AllAnswered(c.transcript) ==> (AllAnswered(after) <==> !RefusesCalls(m)))
  {
    hide Paired, AllAnswered, Answers, CompactNow, ToolEvents, ResultBlocks, IsResults, StoppedBy;
    var call := AssistantTurn(m.content);
    var uses := ToolUses(m.content);
    ToolUsesAreCalls(m.content);
    AssistantIsNotResults(m.content);
    if uses == [] {
      PushPlain(c.transcript, call);
      var pushed := PushTurn(Emit(c, UsageEvents(m.usage)), call);
      CompactingKeepsShape(cfg, Emit(pushed, [Chat.TurnEnded(m.stopReason)]), round.summary);
    } else if m.stopReason == "refusal" {
      PushCalls(c.transcript, call);
    } else {
      var results := ToolResults(ResultBlocks(uses, round.tools));
      ResultsAnswer(uses, round.tools);
      ExchangeAnswers(m.content, round.tools);
      PushExchange(c.transcript, call, results);
    }
  }

  lemma AssistantIsNotResults(content: seq<Block>)
    ensures !IsResults(AssistantTurn(content))
  {
  }

  lemma ExchangeAnswers(content: seq<Block>, tools: nat -> ToolStep)
    requires forall u :: u in ToolUses(content) ==> u.ToolUse?
    ensures Answers(AssistantTurn(content), ToolResults(ResultBlocks(ToolUses(content), tools)))
  {
    hide ToolUses, ResultBlocks, AnswersCall;
    ResultsAnswer(ToolUses(content), tools);
  }

  lemma RoundKeepsShape(cfg: Config, c: Conv, round: Round, compacted: bool)
    ensures var after := RunRound(cfg, c, round, compacted).conv.transcript;
            && (Paired(c.transcript) ==> Paired(after))
            && (AllAnswered(c.transcript) ==> (AllAnswered(after) <==> !RoundRefusesCalls(cfg, round)))
  {
    hide Paired, AllAnswered, CompactNow, OnMessage, RetryEvents, RetryResult, Dropped, IsTooLong, RefusesCalls;
    var streamed := Emit(c, RetryEvents(cfg, round.attempts, 0));
    CompactingKeepsShape(cfg, streamed, round.summary);
    var r := RetryResult(cfg, round.attempts, 0);
    if r.Ok? { MessageKeepsShape(cfg, streamed, r.value, round, compacted); }
  }

  /** A declined message ends the turn. */
  lemma RefusalFinishes(cfg: Config, c: Conv, round: Round, compacted: bool)
    requires RoundRefusesCalls(cfg, round)
    ensures RunRound(cfg, c, round, compacted).Finished? && RunRound(cfg, c, round, compacted).result == Err(Refused)
  {
    hide RetryEvents, RetryResult, ToolUses;
  }

  // ---------------------------------------------------------------- a turn

  /** Whether some round that the turn reaches declines a message that calls tools. */
  predicate TurnRefusesCalls(cfg: Config, c: Conv, world: nat -> Round, i: nat, compacted: bool)
    decreases MAX_TOOL_ROUNDS - i
  {
    && i < MAX_TOOL_ROUNDS
    && (|| RoundRefusesCalls(cfg, world(i))
        || var step := RunRound(cfg, c, world(i), compacted);
           step.Continue? && TurnRefusesCalls(cfg, step.conv, world, i + 1, step.compacted))
  }

  lemma {:induction false} RoundsKeepShape(cfg: Config, c: Conv, world: nat -> Round, i: nat, compacted: bool)
    ensures var after := RunRounds(cfg, c, world, i, compacted).conv.transcript;
            && (Paired(c.transcript) ==> Paired(after))
            && (AllAnswered(c.transcript) ==>
                  (AllAnswered(after) <==> !TurnRefusesCalls(cfg, c, world, i, compacted)))
    decreases MAX_TOOL_ROUNDS - i
  {
    hide Paired, AllAnswered, RunRound, RoundRefusesCalls;
    if i >= MAX_TOOL_ROUNDS {
    } else {
      RoundKeepsShape(cfg, c, world(i), compacted);
      var step := RunRound(cfg, c, world(i), compacted);
      if RoundRefusesCalls(cfg, world(i)) { RefusalFinishes(cfg, c, world(i), compacted); }
      if step.Continue? { RoundsKeepShape(cfg, step.conv, world, i + 1, step.compacted); }
    }
  }

  lemma StartKeepsShape(c: Conv, prompt: string)
    ensures Paired(c.transcript) ==> Paired(StartTurn(c, prompt).transcript)
    ensures AllAnswered(c.transcript) ==> AllAnswered(StartTurn(c, prompt).transcript)
  {
    hide Paired, AllAnswered;
    PushPlain(c.transcript, UserText(prompt));
  }

  /** After any turn, however it ends: results still directly follow the calls they answer; and
      if every call was answered before, every call is answered now unless the turn declined a
      message that calls tools, which is the one case that leaves calls unanswered. */
  lemma TurnKeepsShape(cfg: Config, c: Conv, prompt: string, world: nat -> Round)
    ensures var after := RunTurn(cfg, c, prompt, world).conv.transcript;
            && (Paired(c.transcript) ==> Paired(after))
            && (AllAnswered(c.transcript) ==>
                  (AllAnswered(after) <==> !TurnRefusesCalls(cfg, StartTurn(c, prompt), world, 0, false)))
  {
    hide Paired, AllAnswered, RunRounds, StartTurn, TurnRefusesCalls;
    StartKeepsShape(c, prompt);
    RoundsKeepShape(cfg, StartTurn(c, prompt), world, 0, false);
  }

  // ---------------------------------------------------------------- whole runs

  /** A command as the worker may get it: a chat that is opened was saved in good shape. */
  predicate OpensPaired(cmd: Command) { cmd.OpenChat? ==> Paired(cmd.transcript) }

  /** No round declines a message that calls tools. */
  ghost predicate NeverRefusesCalls(cmd: Command) {
    && (cmd.Prompt? ==> forall i: nat :: !RoundRefusesCalls(cmd.cfg, cmd.world(i)))
    && (cmd.OpenChat? ==> AllAnswered(cmd.transcript))
  }

  lemma {:induction false} NoRefusalInTurn(cfg: Config, c: Conv, world: nat -> Round, i: nat, compacted: bool)
    requires forall k: nat :: !RoundRefusesCalls(cfg, world(k))
    ensures !TurnRefusesCalls(cfg, c, world, i, compacted)
    decreases MAX_TOOL_ROUNDS - i
  {
    hide RunRound, RoundRefusesCalls;
    if i >= MAX_TOOL_ROUNDS {
    } else {
      var step := RunRound(cfg, c, world(i), compacted);
      if step.Continue? { NoRefusalInTurn(cfg, step.conv, world, i + 1, step.compacted); }
    }
  }

  lemma CommandKeepsShape(c: Conv, cmd: Command)
    ensures Paired(c.transcript) && OpensPaired(cmd) ==> Paired(RunCommand(c, cmd).transcript)
    ensures AllAnswered(c.transcript) && NeverRefusesCalls(cmd) ==> AllAnswered(RunCommand(c, cmd).transcript)
  {
    hide RunTurn, RunRounds, StartTurn, TurnRefusesCalls, RoundRefusesCalls;
    if cmd.Prompt? {
      hide Paired, AllAnswered;
      TurnKeepsShape(cmd.cfg, c, cmd.text, cmd.world);
      if NeverRefusesCalls(cmd) {
        NoRefusalInTurn(cmd.cfg, StartTurn(c, cmd.text), cmd.world, 0, false);
      }
    }
  }

  /** Over every run of prompts, tool rounds, stops, errors, retries and compactions, results
      directly follow the calls they answer, exactly and in order. */
  lemma {:induction false} RunKeepsPaired(c: Conv, cmds: seq<Command>)
    requires Paired(c.transcript)
    requires forall k :: 0 <= k < |cmds| ==> OpensPaired(cmds[k])
    ensures Paired(RunCommands(c, cmds).transcript)
  {
    hide Paired, RunCommand, OpensPaired;
    if cmds == [] {
    } else {
      var front := cmds[..|cmds| - 1];
      RunKeepsPaired(c, front);
      CommandKeepsShape(RunCommands(c, front), cmds[|cmds| - 1]);
    }
  }

  /** Without such a refusal every call is answered whenever the worker is idle. */
  lemma {:induction false} RunAnswersAll(c: Conv, cmds: seq<Command>)
    requires AllAnswered(c.transcript)
    requires forall k :: 0 <= k < |cmds| ==> NeverRefusesCalls(cmds[k])
    ensures AllAnswered(RunCommands(c, cmds).transcript)
  {
    hide AllAnswered, RunCommand, NeverRefusesCalls;
    if cmds == [] {
    } else {
      var front := cmds[..|cmds| - 1];
      RunAnswersAll(c, front);
      CommandKeepsShape(RunCommands(c, front), cmds[|cmds| - 1]);
    }
  }

  // ---------------------------------------------------------------- what later turns add

  /** A compaction was published at position `n` of the bus or after it. */
  predicate CompactedSince(bus: seq<Chat.Event>, n: nat) { exists i :: n <= i < |bus| && bus[i].CompactedEvent? }

  /** Events are only added, and turns are only added unless a compaction is among the events. */
  predicate Grew(c: Conv, later: Conv) {
    c.bus <= later.bus && (CompactedSince(later.bus, |c.bus|) || c.transcript <= later.transcript)
  }

  lemma GrewTwice(a: Conv, b: Conv, c: Conv)
    requires Grew(a, b) && Grew(b, c)
    ensures Grew(a, c)
  {
    if CompactedSince(b.bus, |a.bus|) {
      var i :| |a.bus| <= i < |b.bus| && b.bus[i].CompactedEvent?;
      assert c.bus[i] == b.bus[i];
    }
  }

  /** A compaction is always announced. */
  lemma CompactingAnnounces(cfg: Config, c: Conv, summary: Option<string>)
    ensures var after := CompactNow(cfg, c, summary);
            && c.bus <= after.bus
            && (after == c || (|after.bus| > |c.bus| && after.bus[|c.bus|].CompactedEvent?))
            && (Dropped(cfg, c, summary) > 0 ==> |after.bus| > |c.bus|)
  {
    hide CompactionCut, Compact;
  }

  lemma CompactGrows(cfg: Config, c: Conv, summary: Option<string>)
    ensures Grew(c, CompactNow(cfg, c, summary))
  {
    hide CompactNow;
    CompactingAnnounces(cfg, c, summary);
  }

  lemma MessageGrows(cfg: Config, c: Conv, m: Message, round: Round, compacted: bool)
    ensures Grew(c, OnMessage(cfg, c, m, round, compacted).conv)
  {
    hide CompactNow, ToolEvents, ResultBlocks, StoppedBy, ToolUses;
    var pushed := PushTurn(Emit(c, UsageEvents(m.usage)), AssistantTurn(m.content));
    var ended := Emit(pushed, [Chat.TurnEnded(m.stopReason)]);
    CompactGrows(cfg, ended, round.summary);
    GrewTwice(c, ended, CompactNow(cfg, ended, round.summary));
  }

  lemma RoundGrows(cfg: Config, c: Conv, round: Round, compacted: bool)
    ensures Grew(c, RunRound(cfg, c, round, compacted).conv)
  {
    hide RetryEvents, RetryResult, CompactNow, Dropped, IsTooLong, OnMessage;
    var streamed := Emit(c, RetryEvents(cfg, round.attempts, 0));
    CompactGrows(cfg, streamed, round.summary);
    GrewTwice(c, streamed, CompactNow(cfg, streamed, round.summary));
    var r := RetryResult(cfg, round.attempts, 0);
    if r.Ok? {
      MessageGrows(cfg, streamed, r.value, round, compacted);
      GrewTwice(c, streamed, OnMessage(cfg, streamed, r.value, round, compacted).conv);
    }
  }

  lemma {:induction false} RoundsGrow(cfg: Config, c: Conv, world: nat -> Round, i: nat, compacted: bool)
    ensures Grew(c, RunRounds(cfg, c, world, i, compacted).conv)
    decreases MAX_TOOL_ROUNDS - i
  {
    hide RunRound;
    if i >= MAX_TOOL_ROUNDS {
    } else {
      var step := RunRound(cfg, c, world(i), compacted);
      RoundGrows(cfg, c, world(i), compacted);
      if step.Continue? {
        RoundsGrow(cfg, step.conv, world, i + 1, step.compacted);
        GrewTwice(c, step.conv, RunRounds(cfg, step.conv, world, i + 1, step.compacted).conv);
      }
    }
  }

  /** What a prompt adds: its turn, which begins with the prompt, or nothing when the turn could
      not be set up. */
  lemma PromptGrows(c: Conv, cmd: Command)
    requires cmd.Prompt?
    ensures var after := RunCommand(c, cmd);
            && Grew(c, after)
            && (CompactedSince(after.bus, |c.bus|)
                || (if cmd.setupFailure.Some? then after.transcript == c.transcript
                    else c.transcript + [UserText(cmd.text)] <= after.transcript))
  {
    if cmd.setupFailure.None? {
      hide RunRounds, CompactedSince;
      var first := StartTurn(c, cmd.text);
      RunRoundsFinish(cmd.cfg, first, cmd.world, 0, false);
      var turn := RunRounds(cmd.cfg, first, cmd.world, 0, false);
      RoundsGrow(cmd.cfg, first, cmd.world, 0, false);
      var after := RunCommand(c, cmd);
      assert Grew(turn.conv, after);
      GrewTwice(first, turn.conv, after);
      SinceEarlier(after.bus, |first.bus|, |c.bus|);
    }
  }

  lemma SinceEarlier(bus: seq<Chat.Event>, n: nat, m: nat)
    requires m <= n
    ensures CompactedSince(bus, n) ==> CompactedSince(bus, m)
  {
  }

  // ---------------------------------------------------------------- a refused call stays open

  /** An assistant turn that calls tools, last or followed by something the user typed. */
  predicate OpenAt(transcript: seq<Agent.Turn>, i: nat) {
    && i < |transcript| && Calls(transcript[i])
    && (i + 1 < |transcript| ==> |transcript[i + 1].content| == 1 && transcript[i + 1].content[0].Text?)
  }

  lemma OpenAtIsUnanswered(transcript: seq<Agent.Turn>, i: nat)
    requires OpenAt(transcript, i)
    ensures !AllAnswered(transcript)
  {
    hide ToolUses, Answers;
    if i + 1 < |transcript| { FirstAnswer(transcript[i], transcript[i + 1]); }
  }

  /** A prompt leaves open what was open, unless a compaction is published. */
  lemma PromptKeepsOpen(c: Conv, cmd: Command, i: nat)
    requires cmd.Prompt? && OpenAt(c.transcript, i)
    ensures var after := RunCommand(c, cmd);
            CompactedSince(after.bus, |c.bus|) || OpenAt(after.transcript, i)
  {
    hide RunCommand, CompactedSince, Calls;
    PromptGrows(c, cmd);
    var after := RunCommand(c, cmd);
    if cmd.setupFailure.None? && !CompactedSince(after.bus, |c.bus|) {
      var more := c.transcript + [UserText(cmd.text)];
      assert after.transcript[i] == more[i];
      if i + 1 < |after.transcript| { assert after.transcript[i + 1] == more[i + 1]; }
    }
  }

  /** A turn that declines calls ends with them. */
  lemma {:induction false} RefusedTurnEndsOpen(cfg: Config, c: Conv, world: nat -> Round, i: nat, compacted: bool)
    requires TurnRefusesCalls(cfg, c, world, i, compacted)
    ensures var after := RunRounds(cfg, c, world, i, compacted).conv.transcript;
            after != [] && Calls(after[|after| - 1])
    decreases MAX_TOOL_ROUNDS - i
  {
    hide RunRound, RoundRefusesCalls, Calls;
    var step := RunRound(cfg, c, world(i), compacted);
    if RoundRefusesCalls(cfg, world(i)) {
      RefusedRoundEndsOpen(cfg, c, world(i), compacted);
    } else {
      RefusedTurnEndsOpen(cfg, step.conv, world, i + 1, step.compacted);
    }
  }

  lemma RefusedRoundEndsOpen(cfg: Config, c: Conv, round: Round, compacted: bool)
    requires RoundRefusesCalls(cfg, round)
    ensures var step := RunRound(cfg, c, round, compacted);
            && step.Finished? && step.conv.transcript != []
            && Calls(step.conv.transcript[|step.conv.transcript| - 1])
  {
    hide RetryEvents, RetryResult, ToolUses;
  }

  lemma {:induction false} StaysOpen(c: Conv, later: seq<Command>, i: nat)
    requires OpenAt(c.transcript, i) && forall k :: 0 <= k < |later| ==> later[k].Prompt?
    ensures var end := RunCommands(c, later);
            c.bus <= end.bus && (CompactedSince(end.bus, |c.bus|) || OpenAt(end.transcript, i))
  {
    if later == [] {
    } else {
      hide RunCommand, CompactedSince, OpenAt;
      var front, last := later[..|later| - 1], later[|later| - 1];
      var before := RunCommands(c, front);
      var end := RunCommand(before, last);
      StaysOpen(c, front, i);
      PromptGrows(before, last);
      SinceEarlier(end.bus, |before.bus|, |c.bus|);
      SinceExtends(before.bus, end.bus, |c.bus|);
      if OpenAt(before.transcript, i) { PromptKeepsOpen(before, last, i); }
    }
  }

  lemma SinceExtends(bus: seq<Chat.Event>, longer: seq<Chat.Event>, n: nat)
    requires bus <= longer
    ensures CompactedSince(bus, n) ==> CompactedSince(longer, n)
  {
    if CompactedSince(bus, n) {
      var i :| n <= i < |bus| && bus[i].CompactedEvent?;
      assert longer[i] == bus[i];
    }
  }

  /** After a turn that declined calls, whatever is prompted later: some call stays unanswered
      until a compaction is published. */
  lemma RefusalNeverHeals(c: Conv, cmd: Command, later: seq<Command>)
    requires cmd.Prompt? && cmd.setupFailure.None?
    requires TurnRefusesCalls(cmd.cfg, StartTurn(c, cmd.text), cmd.world, 0, false)
    requires forall k :: 0 <= k < |later| ==> later[k].Prompt?
    ensures var refused := RunCommand(c, cmd);
            var end := RunCommands(refused, later);
            !AllAnswered(end.transcript) || CompactedSince(end.bus, |refused.bus|)
  {
    hide RunRounds, TurnRefusesCalls, CompactedSince, AllAnswered, RunCommands, Calls;
    RefusedTurnEndsOpen(cmd.cfg, StartTurn(c, cmd.text), cmd.world, 0, false);
    RunRoundsFinish(cmd.cfg, StartTurn(c, cmd.text), cmd.world, 0, false);
    var refused := RunCommand(c, cmd);
    var end := RunCommands(refused, later);
    var i := |refused.transcript| - 1;
    StaysOpen(refused, later, i);
    if OpenAt(end.transcript, i) { OpenAtIsUnanswered(end.transcript, i); }
  }

  predicate CommandRefusesCalls(c: Conv, cmd: Command)
    requires cmd.Prompt?
  {
    cmd.setupFailure.None? && TurnRefusesCalls(cmd.cfg, StartTurn(c, cmd.text), cmd.world, 0, false)
  }

  /** Whether some turn of the run declines a message that calls tools. */
  predicate RunRefusesCalls(c: Conv, cmds: seq<Command>)
    requires forall k :: 0 <= k < |cmds| ==> cmds[k].Prompt?
  {
    && cmds != []
    && var front := cmds[..|cmds| - 1];
       RunRefusesCalls(c, front) || CommandRefusesCalls(RunCommands(c, front), cmds[|cmds| - 1])
  }

  lemma CommandAnswersIff(c: Conv, cmd: Command)
    requires cmd.Prompt? && AllAnswered(c.transcript)
    ensures var after := RunCommand(c, cmd);
            if CommandRefusesCalls(c, cmd) then after.transcript != [] && OpenAt(after.transcript, |after.transcript| - 1)
            else AllAnswered(after.transcript)
  {
    hide RunRounds, TurnRefusesCalls, AllAnswered, Calls;
    if cmd.setupFailure.None? {
      var first := StartTurn(c, cmd.text);
      RunRoundsFinish(cmd.cfg, first, cmd.world, 0, false);
      TurnKeepsShape(cmd.cfg, c, cmd.text, cmd.world);
      if CommandRefusesCalls(c, cmd) { RefusedTurnEndsOpen(cmd.cfg, first, cmd.world, 0, false); }
    }
  }

  lemma {:induction false} RunAnswersOrOpen(c: Conv, cmds: seq<Command>) returns (i: nat)
    requires AllAnswered(c.transcript) && forall k :: 0 <= k < |cmds| ==> cmds[k].Prompt?
    requires !CompactedSince(RunCommands(c, cmds).bus, |c.bus|)
    ensures var end := RunCommands(c, cmds);
            && c.bus <= end.bus
            && if RunRefusesCalls(c, cmds) then OpenAt(end.transcript, i) else AllAnswered(end.transcript)
  {
    i := 0;
    if cmds == [] {
    } else {
      hide RunCommand, AllAnswered, OpenAt, CommandRefusesCalls, CompactedSince;
      var front, last := cmds[..|cmds| - 1], cmds[|cmds| - 1];
      var before, end := RunCommands(c, front), RunCommands(c, cmds);
      assert end == RunCommand(before, last);
      var refused := RunRefusesCalls(c, front);
      assert RunRefusesCalls(c, cmds) == (refused || CommandRefusesCalls(before, last));
      hide RunCommands, RunRefusesCalls, Grew;
      PromptExtends(before, last);
      SinceExtends(before.bus, end.bus, |c.bus|);
      i := RunAnswersOrOpen(c, front);
      SinceEarlier(end.bus, |before.bus|, |c.bus|);
      if refused {
        PromptKeepsOpen(before, last, i);
      } else {
        CommandAnswersIff(before, last);
        if CommandRefusesCalls(before, last) { i := |end.transcript| - 1; }
      }
    }
  }

  lemma PromptExtends(c: Conv, cmd: Command)
    requires cmd.Prompt?
    ensures c.bus <= RunCommand(c, cmd).bus
  {
    hide RunCommand, CompactedSince;
    PromptGrows(c, cmd);
  }

  /** Over every run of prompts without a compaction: at the end every call is answered if and
      only if no turn declined a message that calls tools. */
  lemma RunAnswersAllIff(c: Conv, cmds: seq<Command>)
    requires AllAnswered(c.transcript) && forall k :: 0 <= k < |cmds| ==> cmds[k].Prompt?
    requires !CompactedSince(RunCommands(c, cmds).bus, |c.bus|)
    ensures AllAnswered(RunCommands(c, cmds).transcript) <==> !RunRefusesCalls(c, cmds)
  {
    hide RunCommands, RunRefusesCalls, AllAnswered, OpenAt, CompactedSince;
    var i := RunAnswersOrOpen(c, cmds);
    if RunRefusesCalls(c, cmds) { OpenAtIsUnanswered(RunCommands(c, cmds).transcript, i); }
  }

  lemma FirstAnswer(call: Agent.Turn, results: Agent.Turn)
    requires Calls(call)
    ensures Answers(call, results) ==> |results.content| > 0 && results.content[0].ToolResult?
  {
    if Answers(call, results) { assert AnswersCall(ToolUses(call.content)[0], results.content[0]); }
  }

  /** The one failing case is reachable: declining the first message that calls a tool. */
  lemma RefusalLeavesCallOpen(cfg: Config, prompt: string, round: Round)
    requires RoundRefusesCalls(cfg, round)
    ensures !AllAnswered(RunTurn(cfg, Conv([], None, []), prompt, _ => round).conv.transcript)
  {
    hide RunRounds, RunRound, RoundRefusesCalls, StartTurn;
    TurnKeepsShape(cfg, Conv([], None, []), prompt, _ => round);
    assert TurnRefusesCalls(cfg, StartTurn(Conv([], None, []), prompt), _ => round, 0, false);
  }

  /** Such a round, to the byte: one tool call begins, the stop reason is a refusal, the message
      ends. */
  function DeclinedStream(id: string, name: string): seq<WireEvent> {
    [BlockStart(0, StartTool(id, name)), MessageDelta(Some("refusal"), None, None), MessageStop]
  }

  function DeclinedRound(id: string, name: string, tools: nat -> ToolStep): Round {
    Round(false, _ => Response(DeclinedStream(id, name), Closed), tools, None)
  }

  lemma DeclinedMessage(cfg: Config, id: string, name: string)
    ensures HasStop(DeclinedStream(id, name))
    ensures var m := Finish(cfg.parse, Fold(EMPTY, BeforeStop(DeclinedStream(id, name))));
            m.stopReason == "refusal" && |ToolUses(m.content)| == 1
  {
    hide BeforeStop, Fold, Push, Contents, ToolUses, HasStop, Finish;
    var start, delta := BlockStart(0, StartTool(id, name)), MessageDelta(Some("refusal"), None, None);
    TwoThenStop(start, delta, MessageStop);
    FoldTwo(EMPTY, start, delta);
    OpensOne(id, name);
    Declines(Push(EMPTY, start));
    OneCall(cfg, id, name);
    FinishParts(cfg, Push(Push(EMPTY, start), delta));
  }

  lemma FinishParts(cfg: Config, a: Accumulator)
    ensures Finish(cfg.parse, a).content == Contents(cfg.parse, a.blocks)
    ensures Finish(cfg.parse, a).stopReason == a.stopReason
  {
    hide Contents;
  }

  lemma Declines(a: Accumulator)
    ensures var after := Push(a, MessageDelta(Some("refusal"), None, None));
            after.blocks == a.blocks && after.stopReason == "refusal"
  {
  }

  lemma TwoThenStop(a: WireEvent, b: WireEvent, stop: WireEvent)
    requires !a.MessageStop? && !b.MessageStop? && stop.MessageStop?
    ensures BeforeStop([a, b, stop]) == [a, b] && HasStop([a, b, stop])
  {
    assert [a, b, stop][2] == stop;
    assert [a, b, stop][1..] == [b, stop] && [b, stop][1..] == [stop];
    assert BeforeStop([stop]) == [];
    assert BeforeStop([b, stop]) == [b];
  }

  lemma FoldTwo(acc: Accumulator, a: WireEvent, b: WireEvent)
    ensures Fold(acc, [a, b]) == Push(Push(acc, a), b)
  {
    hide Push;
    assert [a, b][1..] == [b] && [b][1..] == [];
    assert Fold(Push(acc, a), [b]) == Fold(Push(Push(acc, a), b), []);
  }

  lemma OpensOne(id: string, name: string)
    ensures Push(EMPTY, BlockStart(0, StartTool(id, name))).blocks == [Some(OpenTool(id, name, ""))]
  {
    var none: seq<Option<OpenBlock>> := [];
    assert Pad(none, 1) == Pad([None], 1);
    assert Pad([None], 1)[0 := Some(OpenTool(id, name, ""))] == [Some(OpenTool(id, name, ""))];
  }

  lemma OneCall(cfg: Config, id: string, name: string)
    ensures |ToolUses(Contents(cfg.parse, [Some(OpenTool(id, name, ""))]))| == 1
  {
    var block := OpenTool(id, name, "");
    assert [Some(block)][..0] == [] && Contents(cfg.parse, []) == [];
    assert Contents(cfg.parse, [Some(block)]) == [Close(cfg.parse, block)];
    assert [Close(cfg.parse, block)][..0] == [];
  }

  lemma DeclinedRoundRefuses(cfg: Config, id: string, name: string, tools: nat -> ToolStep)
    ensures RoundRefusesCalls(cfg, DeclinedRound(id, name, tools))
  {
    hide DeclinedStream, BeforeStop, Fold, Finish, ToolUses, HasStop;
    DeclinedMessage(cfg, id, name);
  }
}
