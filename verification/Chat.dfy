/** The chat as the user sees it (crates/mc-core/src/chat.rs, crates/mc-core/src/event.rs).

    The same list of items is built two ways: live, by folding agent events, and again from
    the transcript when a session is reopened. Rendering a JSON input to one line is a
    parameter; notices are kept as data instead of formatted sentences. */
module Chat {
  import opened Basics
  import opened Wire
  import opened Transcript

  datatype ToolState = Running | Succeeded(output: string) | ToolFailed(output: string)

  datatype Notice =
    | Retrying(attempt: nat, reason: string)
    | Stopped
    | CutOff
    | Ended(reason: string)
    | Summarized(dropped: nat)
    | EarlierSummarized

  datatype ChatItem =
    | UserItem(text: string)
    | AssistantItem(text: string)
    | ThinkingItem(text: string)
    | ToolItem(id: string, name: string, summary: string, state: ToolState)
    | ErrorItem(text: string)
    | NoticeItem(notice: Notice)

  datatype Event =
    | TurnStarted(prompt: string)
    | TextDeltaEvent(text: string)
    | ThinkingDeltaEvent(text: string)
    | ToolRequested(id: string, name: string, input: Json)
    | ToolCompleted(id: string, isError: bool, output: string)
    | PtyOutput(bytes: seq<Byte>)
    | StreamRetrying(attempt: nat, reason: string)
    | ContextUsage(inputTokens: nat)
    | CompactedEvent(dropped: nat)
    | SessionOpened
    | TurnEnded(stopReason: string)
    | Failed(message: string)

  datatype Log = Log(items: seq<ChatItem>, busy: bool, contextTokens: Option<nat>)

  const EMPTY_LOG := Log([], false, None)

  // ---------------------------------------------------------------- one line per tool call

  function Field(input: Json, key: string): Option<string> {
    if input.Obj? && key in input.fields && input.fields[key].Str? then Some(input.fields[key].s) else None
  }

  /** The first line, without its line ending. */
  function FirstLine(s: string): string {
    if '\n' !in s then s
    else
      var line := UpToNewline(s);
      if |line| > 0 && line[|line| - 1] == '\r' then line[..|line| - 1] else line
  }

  function UpToNewline(s: string): string {
    if s == "" || s[0] == '\n' then "" else [s[0]] + UpToNewline(s[1..])
  }

  function SummariseInput(render: Json -> string, name: string, input: Json): string {
    var field :=
      if name == "bash" then Field(input, "command")
      else if name == "read_file" || name == "write_file" || name == "edit_file" then Field(input, "path")
      else if name == "search" then Field(input, "pattern")
      else None;
    FirstLine(if field.Some? then field.value else render(input))
  }

  // ---------------------------------------------------------------- edits

  predicate Streamed(item: ChatItem) { item.AssistantItem? || item.ThinkingItem? }

  /** Drop what the broken attempt streamed. */
  function DropStreamed(items: seq<ChatItem>): seq<ChatItem> {
    if items != [] && Streamed(items[|items| - 1]) then DropStreamed(items[..|items| - 1]) else items
  }

  function AppendText(items: seq<ChatItem>, text: string): seq<ChatItem> {
    if items != [] && items[|items| - 1].AssistantItem?
    then items[..|items| - 1] + [AssistantItem(items[|items| - 1].text + text)]
    else items + [AssistantItem(text)]
  }

  function AppendThinking(items: seq<ChatItem>, text: string): seq<ChatItem> {
    if items != [] && items[|items| - 1].ThinkingItem?
    then items[..|items| - 1] + [ThinkingItem(items[|items| - 1].text + text)]
    else items + [ThinkingItem(text)]
  }

  /** Settle the latest tool call with this id, if there is one. */
  function Settle(items: seq<ChatItem>, id: string, state: ToolState): seq<ChatItem> {
    if items == [] then []
    else
      var front, last := items[..|items| - 1], items[|items| - 1];
      if last.ToolItem? && last.id == id then front + [last.(state := state)]
      else Settle(front, id, state) + [last]
  }

  function InterruptItem(item: ChatItem): ChatItem {
    if item.ToolItem? && item.state.Running? then item.(state := ToolFailed("interrupted")) else item
  }

  function Interrupt(items: seq<ChatItem>): seq<ChatItem> {
    if items == [] then [] else Interrupt(items[..|items| - 1]) + [InterruptItem(items[|items| - 1])]
  }

  lemma {:induction false} InterruptLength(items: seq<ChatItem>)
    ensures |Interrupt(items)| == |items|
  {
    if items == [] {
    } else {
      InterruptLength(items[..|items| - 1]);
    }
  }

  /** One step of a search from the end. */
  lemma SettleNext(items: seq<ChatItem>, i: nat, id: string, state: ToolState)
    requires i < |items|
    ensures Settle(items[..i + 1], id, state) + items[i + 1..]
            == if items[i].ToolItem? && items[i].id == id then items[i := items[i].(state := state)]
               else Settle(items[..i], id, state) + items[i..]
  {
    assert items[..i + 1][..i] == items[..i];
    assert [items[i]] + items[i + 1..] == items[i..];
  }

  /** One step of a pass over all items. */
  lemma InterruptNext(items: seq<ChatItem>, i: nat)
    requires i < |items|
    ensures |Interrupt(items[..i])| == i
    ensures (Interrupt(items[..i]) + items[i..])[i := InterruptItem(items[i])] == Interrupt(items[..i + 1]) + items[i + 1..]
  {
    InterruptLength(items[..i]);
    assert items[..i + 1][..i] == items[..i];
    assert items[i..] == [items[i]] + items[i + 1..];
  }

  function Outcome(isError: bool, output: string): ToolState {
    if isError then ToolFailed(output) else Succeeded(output)
  }

  // ---------------------------------------------------------------- the live view

  function EndNotice(stopReason: string): seq<ChatItem> {
    if stopReason == "end_turn" || stopReason == "tool_use" || stopReason == "stop_sequence" then []
    else if stopReason == "cancelled" then [NoticeItem(Stopped)]
    else if stopReason == "max_tokens" then [NoticeItem(CutOff)]
    else [NoticeItem(Ended(stopReason))]
  }

  function Apply(render: Json -> string, log: Log, e: Event): Log {
    match e
    case TurnStarted(prompt) => log.(busy := true, items := log.items + [UserItem(prompt)])
    case TextDeltaEvent(text) => log.(items := AppendText(log.items, text))
    case ThinkingDeltaEvent(text) => log.(items := AppendThinking(log.items, text))
    case ToolRequested(id, name, input) =>
      log.(items := log.items + [ToolItem(id, name, SummariseInput(render, name, input), Running)])
    case ToolCompleted(id, isError, output) => log.(items := Settle(log.items, id, Outcome(isError, output)))
    case StreamRetrying(attempt, reason) =>
      log.(items := DropStreamed(log.items) + [NoticeItem(Retrying(attempt, reason))])
    case TurnEnded(stopReason) => log.(busy := false, items := log.items + EndNotice(stopReason))
    case Failed(message) => log.(busy := false, items := Interrupt(log.items) + [ErrorItem(message)])
    case SessionOpened => EMPTY_LOG
    case ContextUsage(inputTokens) => log.(contextTokens := Some(inputTokens))
    case CompactedEvent(dropped) => log.(items := log.items + [NoticeItem(Summarized(dropped))])
    case PtyOutput(_) => log
  }

  function ApplyAll(render: Json -> string, log: Log, es: seq<Event>): Log {
    if es == [] then log else Apply(render, ApplyAll(render, log, es[..|es| - 1]), es[|es| - 1])
  }

  // ---------------------------------------------------------------- the restored view

  function RestoreBlock(render: Json -> string, items: seq<ChatItem>, role: Role, block: Block): seq<ChatItem> {
    match (role, block)
    case (User, Text(text)) => items + [UserItem(text)]
    case (Assistant, Text(text)) => items + [AssistantItem(text)]
    case (Assistant, ToolUse(id, name, input)) =>
      items + [ToolItem(id, name, SummariseInput(render, name, input), Running)]
    case (User, ToolResult(id, content, isError)) => Settle(items, id, Outcome(isError, content))
    case _ => items
  }

  function RestoreBlocks(render: Json -> string, items: seq<ChatItem>, role: Role, content: seq<Block>): seq<ChatItem> {
    if content == [] then items
    else RestoreBlock(render, RestoreBlocks(render, items, role, content[..|content| - 1]), role, content[|content| - 1])
  }

  function RestoreTurns(render: Json -> string, items: seq<ChatItem>, transcript: seq<Turn>): seq<ChatItem> {
    if transcript == [] then items
    else
      var last := transcript[|transcript| - 1];
      RestoreBlocks(render, RestoreTurns(render, items, transcript[..|transcript| - 1]), last.role, last.content)
  }

  function Preface(summary: Option<string>): seq<ChatItem> {
    if summary.Some? then [NoticeItem(EarlierSummarized)] else []
  }

  function Restore(render: Json -> string, transcript: seq<Turn>, summary: Option<string>): Log {
    Log(Interrupt(RestoreTurns(render, Preface(summary), transcript)), false, None)
  }

  // ---------------------------------------------------------------- the object

  class ChatLog {
    var items: seq<ChatItem>
    var busy: bool
    var contextTokens: Option<nat>

    function View(): Log
      reads this
    {
      Log(items, busy, contextTokens)
    }

    constructor ()
      ensures View() == EMPTY_LOG
    {
      items, busy, contextTokens := [], false, None;
    }

    method ApplyEvent(render: Json -> string, e: Event)
      modifies this
      ensures View() == Apply(render, old(View()), e)
    {
      match e {
        case TurnStarted(prompt) =>
          busy := true;
          items := items + [UserItem(prompt)];
        case TextDeltaEvent(text) =>
          if items != [] && items[|items| - 1].AssistantItem? {
            items := items[|items| - 1 := AssistantItem(items[|items| - 1].text + text)];
          } else {
            items := items + [AssistantItem(text)];
          }
          assert items == AppendText(old(items), text);
        case ThinkingDeltaEvent(text) =>
          if items != [] && items[|items| - 1].ThinkingItem? {
            items := items[|items| - 1 := ThinkingItem(items[|items| - 1].text + text)];
          } else {
            items := items + [ThinkingItem(text)];
          }
          assert items == AppendThinking(old(items), text);
        case ToolRequested(id, name, input) =>
          items := items + [ToolItem(id, name, SummariseInput(render, name, input), Running)];
        case ToolCompleted(id, isError, output) =>
          SettleLast(id, Outcome(isError, output));
        case StreamRetrying(attempt, reason) =>
          while items != [] && Streamed(items[|items| - 1])
            invariant DropStreamed(items) == DropStreamed(old(items))
            invariant busy == old(busy) && contextTokens == old(contextTokens)
            decreases |items|
          {
            items := items[..|items| - 1];
          }
          items := items + [NoticeItem(Retrying(attempt, reason))];
        case TurnEnded(stopReason) =>
          busy := false;
          items := items + EndNotice(stopReason);
        case Failed(message) =>
          busy := false;
          InterruptAll();
          items := items + [ErrorItem(message)];
        case SessionOpened =>
          items, busy, contextTokens := [], false, None;
        case ContextUsage(inputTokens) =>
          contextTokens := Some(inputTokens);
        case CompactedEvent(dropped) =>
          items := items + [NoticeItem(Summarized(dropped))];
        case PtyOutput(_) =>
      }
    }

    /** Search from the end, as ids are almost always the most recent item's. */
    method SettleLast(id: string, state: ToolState)
      modifies this`items
      ensures items == Settle(old(items), id, state)
    {
      var i := |items|;
      assert items[..i] == items && Settle([], id, state) == [];
      hide Settle;
      while i > 0
        invariant 0 <= i <= |items| && items == old(items)
        invariant Settle(items, id, state) == Settle(items[..i], id, state) + items[i..]
      {
        i := i - 1;
        SettleNext(items, i, id, state);
        if items[i].ToolItem? && items[i].id == id {
          items := items[i := items[i].(state := state)];
          return;
        }
      }
      assert items[..0] == [] && items[0..] == items;
    }

    method InterruptAll()
      modifies this`items
      ensures items == Interrupt(old(items))
    {
      assert Interrupt([]) == [];
      hide Interrupt;
      for i := 0 to |items|
        invariant |items| == |old(items)|
        invariant items == Interrupt(old(items)[..i]) + old(items)[i..]
      {
        InterruptNext(old(items), i);
        items := items[i := InterruptItem(items[i])];
      }
      assert old(items)[..|items|] == old(items);
    }

    /** Show one turn. */
    method RestoreContent(render: Json -> string, turn: Turn)
      modifies this
      ensures items == RestoreBlocks(render, old(items), turn.role, turn.content)
      ensures busy == old(busy) && contextTokens == old(contextTokens)
    {
      RestoreNoBlocks(render, items, turn.role);
      hide RestoreBlocks;
      for j := 0 to |turn.content|
        invariant items == RestoreBlocks(render, old(items), turn.role, turn.content[..j])
        invariant busy == old(busy) && contextTokens == old(contextTokens)
      {
        RestoreNextBlock(render, old(items), turn.role, turn.content, j);
        match (turn.role, turn.content[j]) {
          case (User, Text(text)) => items := items + [UserItem(text)];
          case (Assistant, Text(text)) => items := items + [AssistantItem(text)];
          case (Assistant, ToolUse(id, name, input)) =>
            items := items + [ToolItem(id, name, SummariseInput(render, name, input), Running)];
          case (User, ToolResult(id, content, isError)) => ApplyEvent(render, ToolCompleted(id, isError, content));
          case _ =>
        }
      }
      assert turn.content[..|turn.content|] == turn.content;
    }

    /** The chat of a reopened session, item by item from its turns. */
    constructor FromSession(render: Json -> string, transcript: seq<Turn>, summary: Option<string>)
      ensures View() == Restore(render, transcript, summary)
    {
      items, busy, contextTokens := [], false, None;
      new;
      if summary.Some? {
        items := items + [NoticeItem(EarlierSummarized)];
      }
      RestoreNothing(render, Preface(summary));
      hide RestoreTurns, RestoreBlocks, RestoreBlock;
      for i := 0 to |transcript|
        invariant items == RestoreTurns(render, Preface(summary), transcript[..i]) && !busy && contextTokens == None
      {
        RestoreNextTurn(render, Preface(summary), transcript, i);
        RestoreContent(render, transcript[i]);
      }
      assert transcript[..|transcript|] == transcript;
      InterruptAll();
    }
  }

  lemma RestoreNothing(render: Json -> string, items: seq<ChatItem>)
    ensures RestoreTurns(render, items, []) == items
  {
  }

  lemma RestoreNextTurn(render: Json -> string, items: seq<ChatItem>, transcript: seq<Turn>, i: nat)
    requires i < |transcript|
    ensures RestoreTurns(render, items, transcript[..i + 1])
            == RestoreBlocks(render, RestoreTurns(render, items, transcript[..i]), transcript[i].role, transcript[i].content)
  {
    hide RestoreBlocks;
    assert transcript[..i + 1][..i] == transcript[..i];
  }

  lemma RestoreNoBlocks(render: Json -> string, items: seq<ChatItem>, role: Role)
    ensures RestoreBlocks(render, items, role, []) == items
  {
  }

  lemma RestoreNextBlock(render: Json -> string, items: seq<ChatItem>, role: Role, content: seq<Block>, j: nat)
    requires j < |content|
    ensures RestoreBlocks(render, items, role, content[..j + 1])
            == RestoreBlock(render, RestoreBlocks(render, items, role, content[..j]), role, content[j])
  {
    hide RestoreBlock;
    assert content[..j + 1][..j] == content[..j];
  }
}
