/** Two views of one conversation agree (crates/mc-core/src/chat.rs with
    crates/mc-agent/src/lib.rs).

    The chat a user watched was folded from events as they came; the chat shown when the
    session is reopened is rebuilt from the transcript. They show the same prompts, the same
    text and the same settled tool calls, up to what only the live view has (thinking, notices
    and errors) and up to how text is cut into items. */
module ConversationViews {
  import opened Wire
  import opened Transcript
  import opened Chat
  import opened Agent

  type Render = Json -> string

  // ---------------------------------------------------------------- what both views show

  /** Add one item to a normalised list: text joins text, what only one view has is left out. */
  function NormPush(acc: seq<ChatItem>, item: ChatItem): seq<ChatItem> {
    match item
    case AssistantItem(text) =>
      if text == "" then acc
      else if acc != [] && acc[|acc| - 1].AssistantItem? then acc[..|acc| - 1] + [AssistantItem(acc[|acc| - 1].text + text)]
      else acc + [item]
    case UserItem(_) => acc + [item]
    case ToolItem(_, _, _, _) => acc + [item]
    case _ => acc
  }

  function NormFrom(acc: seq<ChatItem>, items: seq<ChatItem>): seq<ChatItem> {
    if items == [] then acc else NormPush(NormFrom(acc, items[..|items| - 1]), items[|items| - 1])
  }

  function Norm(items: seq<ChatItem>): seq<ChatItem> { NormFrom([], items) }

  predicate NoneRunning(items: seq<ChatItem>) {
    forall i :: 0 <= i < |items| && items[i].ToolItem? ==> !items[i].state.Running?
  }

  function Live(render: Render, start: Log, c: Conv): seq<ChatItem> {
    ApplyAll(render, start, c.bus).items
  }

  function Restored(render: Render, c: Conv): seq<ChatItem> {
    RestoreTurns(render, Preface(c.summary), c.transcript)
  }

  predicate Agree(render: Render, start: Log, c: Conv) {
    && Norm(Live(render, start, c)) == Norm(Restored(render, c))
    && NoneRunning(Live(render, start, c)) && NoneRunning(Restored(render, c))
  }

  // ---------------------------------------------------------------- normalising

  lemma {:induction false} NormConcat(acc: seq<ChatItem>, a: seq<ChatItem>, b: seq<ChatItem>)
    ensures NormFrom(acc, a + b) == NormFrom(NormFrom(acc, a), b)
    decreases |b|
  {
    hide NormPush;
    if b == [] {
      assert a + b == a;
    } else {
      NormConcat(acc, a, b[..|b| - 1]);
      assert (a + b)[..|a + b| - 1] == a + b[..|b| - 1];
    }
  }

  lemma NormSnoc(acc: seq<ChatItem>, a: seq<ChatItem>, x: ChatItem)
    ensures NormFrom(acc, a + [x]) == NormPush(NormFrom(acc, a), x)
  {
    assert (a + [x])[..|a|] == a;
  }

  /** Text after text makes one item. */
  lemma PushAfterText(front: seq<ChatItem>, u: string, text: string)
    requires text != ""
    ensures NormPush(front + [AssistantItem(u)], AssistantItem(text)) == front + [AssistantItem(u + text)]
  {
    var acc := front + [AssistantItem(u)];
    assert acc[..|acc| - 1] == front;
  }

  lemma PushNoText(acc: seq<ChatItem>)
    ensures NormPush(acc, AssistantItem("")) == acc
  {
  }

  lemma PushFirstText(acc: seq<ChatItem>, text: string)
    requires text != "" && (acc == [] || !acc[|acc| - 1].AssistantItem?)
    ensures NormPush(acc, AssistantItem(text)) == acc + [AssistantItem(text)]
  {
  }

  lemma PushTexts(acc: seq<ChatItem>, s: string, t: string)
    ensures NormPush(NormPush(acc, AssistantItem(s)), AssistantItem(t)) == NormPush(acc, AssistantItem(s + t))
  {
    hide NormPush;
    PushNoText(acc);
    PushNoText(NormPush(acc, AssistantItem(s)));
    if s == "" {
      assert s + t == t;
    } else if t == "" {
      assert s + t == s;
    } else if acc != [] && acc[|acc| - 1].AssistantItem? {
      var front, u := acc[..|acc| - 1], acc[|acc| - 1].text;
      assert acc == front + [AssistantItem(u)];
      PushAfterText(front, u, s);
      PushAfterText(front, u + s, t);
      PushAfterText(front, u, s + t);
      assert u + s + t == u + (s + t);
    } else {
      PushFirstText(acc, s);
      PushAfterText(acc, s, t);
      PushFirstText(acc, s + t);
    }
  }

  predicate Unshown(item: ChatItem) { item.ThinkingItem? || item.NoticeItem? || item.ErrorItem? }

  lemma {:induction false} NormUnshown(acc: seq<ChatItem>, items: seq<ChatItem>)
    requires forall i :: 0 <= i < |items| ==> Unshown(items[i])
    ensures NormFrom(acc, items) == acc
  {
    if items == [] {
    } else {
      NormUnshown(acc, items[..|items| - 1]);
    }
  }

  lemma {:induction false} NormTools(acc: seq<ChatItem>, items: seq<ChatItem>)
    requires forall i :: 0 <= i < |items| ==> items[i].ToolItem?
    ensures NormFrom(acc, items) == acc + items
  {
    if items == [] {
    } else {
      NormTools(acc, items[..|items| - 1]);
      assert items == items[..|items| - 1] + [items[|items| - 1]];
    }
  }

  /** Text never disappears: a longer text makes a different list. */
  lemma TextShows(acc: seq<ChatItem>, text: string)
    requires text != ""
    ensures NormPush(acc, AssistantItem(text)) != acc
  {
    if acc != [] && acc[|acc| - 1].AssistantItem? {
      var joined := NormPush(acc, AssistantItem(text));
      assert joined[|acc| - 1].text == acc[|acc| - 1].text + text;
      assert |joined[|acc| - 1].text| > |acc[|acc| - 1].text|;
    }
  }

  // ---------------------------------------------------------------- what streams by

  predicate IsDelta(e: Event) { e.TextDeltaEvent? || e.ThinkingDeltaEvent? }

  predicate AllDeltas(es: seq<Event>) { forall i :: 0 <= i < |es| ==> IsDelta(es[i]) }

  function DeltaText(es: seq<Event>): string {
    if es == [] then ""
    else DeltaText(es[..|es| - 1]) + (if es[|es| - 1].TextDeltaEvent? then es[|es| - 1].text else "")
  }

  /** The items a stream of deltas adds. */
  function Tail(es: seq<Event>): seq<ChatItem> {
    if es == [] then [] else
      var last := es[|es| - 1];
      if last.TextDeltaEvent? then AppendText(Tail(es[..|es| - 1]), last.text)
      else if last.ThinkingDeltaEvent? then AppendThinking(Tail(es[..|es| - 1]), last.text)
      else Tail(es[..|es| - 1])
  }

  predicate AtRest(items: seq<ChatItem>) { items == [] || !Streamed(items[|items| - 1]) }

  lemma {:induction false} TailStreamed(es: seq<Event>)
    ensures forall i :: 0 <= i < |Tail(es)| ==> Streamed(Tail(es)[i])
  {
    if es == [] {
    } else {
      TailStreamed(es[..|es| - 1]);
    }
  }

  lemma AppendTextAfter(items: seq<ChatItem>, tail: seq<ChatItem>, text: string)
    requires AtRest(items)
    ensures AppendText(items + tail, text) == items + AppendText(tail, text)
  {
    if tail == [] {
      assert items + tail == items;
    } else {
      DropLast(items, tail);
    }
  }

  lemma AppendThinkingAfter(items: seq<ChatItem>, tail: seq<ChatItem>, text: string)
    requires AtRest(items)
    ensures AppendThinking(items + tail, text) == items + AppendThinking(tail, text)
  {
    if tail == [] {
      assert items + tail == items;
    } else {
      DropLast(items, tail);
    }
  }

  lemma DropLast(items: seq<ChatItem>, tail: seq<ChatItem>)
    requires tail != []
    ensures var all := items + tail;
            all[..|all| - 1] == items + tail[..|tail| - 1] && all[|all| - 1] == tail[|tail| - 1]
  {
  }

  lemma {:induction false} DeltasAddTail(render: Render, log: Log, es: seq<Event>)
    requires AllDeltas(es) && AtRest(log.items)
    ensures ApplyAll(render, log, es).items == log.items + Tail(es)
  {
    if es == [] {
    } else {
      hide AtRest, AppendText, AppendThinking, Streamed;
      var front := es[..|es| - 1];
      DeltasAddTail(render, log, front);
      assert IsDelta(es[|es| - 1]);
      AppendTextAfter(log.items, Tail(front), es[|es| - 1].text);
      AppendThinkingAfter(log.items, Tail(front), es[|es| - 1].text);
    }
  }

  lemma {:induction false} DropTail(items: seq<ChatItem>, tail: seq<ChatItem>)
    requires AtRest(items) && forall i :: 0 <= i < |tail| ==> Streamed(tail[i])
    ensures DropStreamed(items + tail) == items
    decreases |tail|
  {
    if tail == [] {
      assert items + tail == items;
    } else {
      DropTail(items, tail[..|tail| - 1]);
      assert (items + tail)[..|items + tail| - 1] == items + tail[..|tail| - 1];
    }
  }

  lemma PushUnshown(acc: seq<ChatItem>, item: ChatItem)
    requires Unshown(item)
    ensures NormPush(acc, item) == acc
  {
  }

  lemma NormAppendText(acc: seq<ChatItem>, tail: seq<ChatItem>, text: string)
    ensures NormFrom(acc, AppendText(tail, text)) == NormPush(NormFrom(acc, tail), AssistantItem(text))
  {
    hide NormFrom, NormPush;
    NormSnoc(acc, tail, AssistantItem(text));
    if tail != [] && tail[|tail| - 1].AssistantItem? {
      var front, said := tail[..|tail| - 1], tail[|tail| - 1].text;
      assert tail == front + [AssistantItem(said)];
      NormSnoc(acc, front, AssistantItem(said));
      NormSnoc(acc, front, AssistantItem(said + text));
      PushTexts(NormFrom(acc, front), said, text);
    }
  }

  lemma NormAppendThinking(acc: seq<ChatItem>, tail: seq<ChatItem>, text: string)
    ensures NormFrom(acc, AppendThinking(tail, text)) == NormFrom(acc, tail)
  {
    hide NormFrom, NormPush;
    NormSnoc(acc, tail, ThinkingItem(text));
    PushUnshown(NormFrom(acc, tail), ThinkingItem(text));
    if tail != [] && tail[|tail| - 1].ThinkingItem? {
      var front, thought := tail[..|tail| - 1], tail[|tail| - 1].text;
      assert tail == front + [ThinkingItem(thought)];
      NormSnoc(acc, front, ThinkingItem(thought));
      NormSnoc(acc, front, ThinkingItem(thought + text));
      PushUnshown(NormFrom(acc, front), ThinkingItem(thought));
      PushUnshown(NormFrom(acc, front), ThinkingItem(thought + text));
    }
  }

  lemma {:induction false} NormTail(acc: seq<ChatItem>, es: seq<Event>)
    ensures NormFrom(acc, Tail(es)) == NormPush(acc, AssistantItem(DeltaText(es)))
  {
    if es == [] {
    } else {
      var front, last := es[..|es| - 1], es[|es| - 1];
      NormTail(acc, front);
      hide NormPush, NormFrom, AppendText, AppendThinking;
      if last.TextDeltaEvent? {
        NormAppendText(acc, Tail(front), last.text);
        PushTexts(acc, DeltaText(front), last.text);
      } else {
        assert DeltaText(es) == DeltaText(front);
        if last.ThinkingDeltaEvent? { NormAppendThinking(acc, Tail(front), last.text); }
      }
    }
  }

  lemma {:induction false} DeltaTextConcat(a: seq<Event>, b: seq<Event>)
    ensures DeltaText(a + b) == DeltaText(a) + DeltaText(b)
    decreases |b|
  {
    if b == [] {
      assert a + b == a;
    } else {
      var all := a + b;
      assert all[..|all| - 1] == a + b[..|b| - 1] && all[|all| - 1] == b[|b| - 1];
      DeltaTextConcat(a, b[..|b| - 1]);
    }
  }

  lemma PublishText(cfg: Config, here: Emitted)
    ensures AllDeltas(Publish(cfg, here))
    ensures DeltaText(Publish(cfg, here)) == if here.EmitText? then here.text else ""
  {
  }

  lemma {:induction false} PublishedText(cfg: Config, a: Accumulator, es: seq<WireEvent>)
    ensures AllDeltas(Published(cfg, a, es))
    ensures DeltaText(Published(cfg, a, es)) == EmittedText(a, es)
    decreases |es|
  {
    if es == [] {
    } else {
      hide Publish, Push, Emission, DeltaText;
      PublishText(cfg, Emission(a, es[0]));
      PublishedText(cfg, Push(a, es[0]), es[1..]);
      DeltaTextConcat(Publish(cfg, Emission(a, es[0])), Published(cfg, Push(a, es[0]), es[1..]));
    }
  }

  // ---------------------------------------------------------------- retries

  lemma {:induction false} ApplyConcat(render: Render, log: Log, a: seq<Event>, b: seq<Event>)
    ensures ApplyAll(render, log, a + b) == ApplyAll(render, ApplyAll(render, log, a), b)
    decreases |b|
  {
    hide Apply;
    if b == [] {
      assert a + b == a;
    } else {
      ApplyConcat(render, log, a, b[..|b| - 1]);
      assert (a + b)[..|a + b| - 1] == a + b[..|b| - 1];
    }
  }

  lemma ApplyOne(render: Render, log: Log, e: Event)
    ensures ApplyAll(render, log, [e]) == Apply(render, log, e)
  {
    assert [e][..0] == [];
  }

  /** The text an attempt streamed. */
  function AttemptText(a: Attempt): string {
    if a.Response? then EmittedText(EMPTY, BeforeStop(a.events)) else ""
  }

  function LastAttempt(cfg: Config, attempts: nat -> Attempt, n: nat): Attempt
    decreases MAX_STREAM_RETRIES - n
  {
    if Retries(cfg, attempts(n), n) then LastAttempt(cfg, attempts, n + 1) else attempts(n)
  }

  /** One notice for each attempt that was repeated. */
  function RetryNotices(cfg: Config, attempts: nat -> Attempt, n: nat): seq<ChatItem>
    decreases MAX_STREAM_RETRIES - n
  {
    if Retries(cfg, attempts(n), n) then
      [NoticeItem(Retrying(n + 1, Transient(AttemptResult(cfg, attempts(n))).value))] + RetryNotices(cfg, attempts, n + 1)
    else []
  }

  lemma AttemptDeltas(cfg: Config, a: Attempt)
    ensures AllDeltas(AttemptEvents(cfg, a)) && DeltaText(AttemptEvents(cfg, a)) == AttemptText(a)
  {
    if a.Response? { PublishedText(cfg, EMPTY, BeforeStop(a.events)); }
  }

  /** A broken attempt leaves only its notice behind. */
  lemma RetryDiscards(render: Render, log: Log, streamed: seq<Event>, attempt: nat, reason: string)
    requires AllDeltas(streamed) && AtRest(log.items)
    ensures ApplyAll(render, log, streamed + [StreamRetrying(attempt, reason)]).items
         == log.items + [NoticeItem(Retrying(attempt, reason))]
  {
    hide AtRest, Streamed, AllDeltas, DropStreamed, Tail;
    ApplyConcat(render, log, streamed, [StreamRetrying(attempt, reason)]);
    ApplyOne(render, ApplyAll(render, log, streamed), StreamRetrying(attempt, reason));
    DeltasAddTail(render, log, streamed);
    TailStreamed(streamed);
    DropTail(log.items, Tail(streamed));
  }

  /** After any number of retries the chat holds what was there, a notice for each retry and
      what the last attempt streamed: nothing of a broken attempt. */
  lemma {:induction false} RetriesLeaveLast(cfg: Config, render: Render, log: Log, attempts: nat -> Attempt, n: nat)
    requires AtRest(log.items)
    ensures ApplyAll(render, log, RetryEvents(cfg, attempts, n)).items
         == log.items + RetryNotices(cfg, attempts, n) + Tail(AttemptEvents(cfg, LastAttempt(cfg, attempts, n)))
    decreases MAX_STREAM_RETRIES - n
  {
    hide AttemptEvents, AttemptResult, Transient, Tail, ApplyAll, AllDeltas, AtRest;
    var a := attempts(n);
    AttemptDeltas(cfg, a);
    if Retries(cfg, a, n) {
      var reason := Transient(AttemptResult(cfg, a)).value;
      var first := AttemptEvents(cfg, a) + [StreamRetrying(n + 1, reason)];
      var next := ApplyAll(render, log, first);
      ApplyConcat(render, log, first, RetryEvents(cfg, attempts, n + 1));
      RetryDiscards(render, log, AttemptEvents(cfg, a), n + 1, reason);
      NoticeRests(log.items, Retrying(n + 1, reason));
      RetriesLeaveLast(cfg, render, next, attempts, n + 1);
      RetryShape(cfg, log.items, attempts, n);
    } else {
      DeltasAddTail(render, log, AttemptEvents(cfg, a));
      assert log.items + [] == log.items;
    }
  }

  lemma NoticeRests(items: seq<ChatItem>, notice: Notice)
    ensures AtRest(items + [NoticeItem(notice)])
  {
  }

  lemma RetryShape(cfg: Config, items: seq<ChatItem>, attempts: nat -> Attempt, n: nat)
    requires Retries(cfg, attempts(n), n)
    ensures items + RetryNotices(cfg, attempts, n)
         == items + [NoticeItem(Retrying(n + 1, Transient(AttemptResult(cfg, attempts(n))).value))]
            + RetryNotices(cfg, attempts, n + 1)
  {
    hide Retries, AttemptResult, Transient;
  }

  lemma {:induction false} NoticesUnshown(cfg: Config, attempts: nat -> Attempt, n: nat)
    ensures forall i :: 0 <= i < |RetryNotices(cfg, attempts, n)| ==> RetryNotices(cfg, attempts, n)[i].NoticeItem?
    decreases MAX_STREAM_RETRIES - n
  {
    if !Retries(cfg, attempts(n), n) {
    } else {
      NoticesUnshown(cfg, attempts, n + 1);
    }
  }

  lemma {:induction false} LastAttemptResult(cfg: Config, attempts: nat -> Attempt, n: nat)
    ensures RetryResult(cfg, attempts, n) == AttemptResult(cfg, LastAttempt(cfg, attempts, n))
    decreases MAX_STREAM_RETRIES - n
  {
    hide AttemptResult, Transient;
    if !Retries(cfg, attempts(n), n) {
    } else {
      LastAttemptResult(cfg, attempts, n + 1);
    }
  }

  /** What a request adds to the normalised chat: the text of its last attempt. */
  lemma StreamShows(cfg: Config, render: Render, log: Log, attempts: nat -> Attempt)
    requires AtRest(log.items)
    ensures var after := ApplyAll(render, log, RetryEvents(cfg, attempts, 0)).items;
            && Norm(after) == NormPush(Norm(log.items), AssistantItem(AttemptText(LastAttempt(cfg, attempts, 0))))
            && (NoneRunning(log.items) ==> NoneRunning(after))
  {
    hide AttemptEvents, AttemptResult, Tail, NormPush, NormFrom, ApplyAll, RetryEvents, RetryNotices, LastAttempt,
         DeltaText, AttemptText, AtRest;
    var notices := RetryNotices(cfg, attempts, 0);
    var last := AttemptEvents(cfg, LastAttempt(cfg, attempts, 0));
    RetriesLeaveLast(cfg, render, log, attempts, 0);
    NoticesUnshown(cfg, attempts, 0);
    AttemptDeltas(cfg, LastAttempt(cfg, attempts, 0));
    NormConcat([], log.items + notices, Tail(last));
    NormConcat([], log.items, notices);
    NormUnshown(Norm(log.items), notices);
    NormTail(Norm(log.items), last);
    TailStreamed(last);
  }

  // ---------------------------------------------------------------- tool calls

  function RunningItem(render: Render, u: Block): ChatItem
    requires u.ToolUse?
  {
    ToolItem(u.id, u.name, SummariseInput(render, u.name, u.input), Running)
  }

  function SettledItem(render: Render, u: Block, o: ToolOutcome): ChatItem
    requires u.ToolUse?
  {
    ToolItem(u.id, u.name, SummariseInput(render, u.name, u.input), Outcome(o.isError, o.text))
  }

  predicate AreCalls(uses: seq<Block>) { forall u :: u in uses ==> u.ToolUse? }

  function RunningItems(render: Render, uses: seq<Block>): seq<ChatItem>
    requires AreCalls(uses)
  {
    seq(|uses|, i requires 0 <= i < |uses| => RunningItem(render, uses[i]))
  }

  function SettledItems(render: Render, uses: seq<Block>, tools: nat -> ToolStep): seq<ChatItem>
    requires AreCalls(uses)
  {
    seq(|uses|, i requires 0 <= i < |uses| => SettledItem(render, uses[i], OutcomeOf(tools, i)))
  }

  predicate DistinctIds(uses: seq<Block>)
    requires AreCalls(uses)
  {
    forall i, j :: 0 <= i < j < |uses| ==> uses[i].id != uses[j].id
  }

  lemma {:induction false} SettleAt(front: seq<ChatItem>, item: ChatItem, back: seq<ChatItem>, state: ToolState)
    requires item.ToolItem?
    requires forall i :: 0 <= i < |back| && back[i].ToolItem? ==> back[i].id != item.id
    ensures Settle(front + [item] + back, item.id, state) == front + [item.(state := state)] + back
    decreases |back|
  {
    var all := front + [item] + back;
    if back == [] {
      assert all[..|all| - 1] == front;
    } else {
      SettleAt(front, item, back[..|back| - 1], state);
      assert all[..|all| - 1] == front + [item] + back[..|back| - 1];
      assert back == back[..|back| - 1] + [back[|back| - 1]];
    }
  }

  /** Live, each call appears and is settled before the next one. */
  lemma {:induction false} LiveTools(render: Render, log: Log, uses: seq<Block>, tools: nat -> ToolStep)
    requires AreCalls(uses)
    ensures ApplyAll(render, log, ToolEvents(uses, tools)).items == log.items + SettledItems(render, uses, tools)
  {
    if uses == [] {
      assert log.items + [] == log.items;
    } else {
      hide ApplyAll, Settle, SummariseInput, OutcomeOf, SettledItem, SettledItems;
      var k := |uses| - 1;
      SettledSnoc(render, uses, tools);
      var u, o := uses[k], OutcomeOf(tools, k);
      LiveTools(render, log, uses[..k], tools);
      LiveTool(render, ApplyAll(render, log, ToolEvents(uses[..k], tools)), u, o);
      ApplyConcat(render, log, ToolEvents(uses[..k], tools),
                  [ToolRequested(u.id, u.name, u.input), ToolCompleted(u.id, o.isError, o.text)]);
      assert log.items + SettledItems(render, uses[..k], tools) + [SettledItem(render, u, o)]
          == log.items + (SettledItems(render, uses[..k], tools) + [SettledItem(render, u, o)]);
    }
  }

  lemma LiveTool(render: Render, log: Log, u: Block, o: ToolOutcome)
    requires u.ToolUse?
    ensures ApplyAll(render, log, [ToolRequested(u.id, u.name, u.input), ToolCompleted(u.id, o.isError, o.text)]).items
         == log.items + [SettledItem(render, u, o)]
  {
    hide Settle, SummariseInput;
    var requested, completed := ToolRequested(u.id, u.name, u.input), ToolCompleted(u.id, o.isError, o.text);
    ApplyConcat(render, log, [requested], [completed]);
    ApplyOne(render, log, requested);
    ApplyOne(render, Apply(render, log, requested), completed);
    assert [requested] + [completed] == [requested, completed];
    SettleAt(log.items, RunningItem(render, u), [], Outcome(o.isError, o.text));
    assert log.items + [RunningItem(render, u)] + [] == log.items + [RunningItem(render, u)];
    assert log.items + [SettledItem(render, u, o)] + [] == log.items + [SettledItem(render, u, o)];
  }

  /** Restored, the calls all appear first; with distinct ids each result settles its own. */
  lemma {:induction false} RestoredResults(
      render: Render, front: seq<ChatItem>, uses: seq<Block>, tools: nat -> ToolStep, k: nat)
    requires AreCalls(uses) && DistinctIds(uses) && k <= |uses|
    ensures AreCalls(uses[..k]) && AreCalls(uses[k..])
    ensures RestoreBlocks(render, front + RunningItems(render, uses), User, ResultBlocks(uses[..k], tools))
         == front + SettledItems(render, uses[..k], tools) + RunningItems(render, uses[k..])
  {
    hide RestoreBlock, Settle, SummariseInput, OutcomeOf, Outcome;
    if k == 0 {
      assert front + [] == front;
      assert uses[0..] == uses;
    } else {
      RestoredResults(render, front, uses, tools, k - 1);
      RestoredResult(render, front, uses, tools, k - 1);
      assert uses[..k][..k - 1] == uses[..k - 1];
      ResultsSnoc(render, uses, tools, k - 1,
                  RestoreBlocks(render, front + RunningItems(render, uses), User, ResultBlocks(uses[..k - 1], tools)),
                  front + RunningItems(render, uses));
    }
  }

  lemma ResultsSnoc(render: Render, uses: seq<Block>, tools: nat -> ToolStep, k: nat, before: seq<ChatItem>, start: seq<ChatItem>)
    requires AreCalls(uses) && k < |uses|
    requires before == RestoreBlocks(render, start, User, ResultBlocks(uses[..k], tools))
    ensures var o := OutcomeOf(tools, k);
            RestoreBlocks(render, start, User, ResultBlocks(uses[..k + 1], tools))
            == RestoreBlock(render, before, User, ToolResult(uses[k].id, o.text, o.isError))
  {
    hide RestoreBlock, OutcomeOf;
    assert uses[..k + 1][..k] == uses[..k];
    var results := ResultBlocks(uses[..k + 1], tools);
    assert results[..|results| - 1] == ResultBlocks(uses[..k], tools);
  }

  lemma RestoredResult(render: Render, front: seq<ChatItem>, uses: seq<Block>, tools: nat -> ToolStep, k: nat)
    requires AreCalls(uses) && DistinctIds(uses) && k < |uses|
    ensures var o := OutcomeOf(tools, k);
            RestoreBlock(render, front + SettledItems(render, uses[..k], tools) + RunningItems(render, uses[k..]), User,
                         ToolResult(uses[k].id, o.text, o.isError))
            == front + SettledItems(render, uses[..k + 1], tools) + RunningItems(render, uses[k + 1..])
  {
    hide Settle, SummariseInput, OutcomeOf, Outcome;
    var o := OutcomeOf(tools, k);
    var settled := front + SettledItems(render, uses[..k], tools);
    var later := RunningItems(render, uses[k + 1..]);
    assert RunningItems(render, uses[k..]) == [RunningItem(render, uses[k])] + later;
    assert settled + RunningItems(render, uses[k..]) == settled + [RunningItem(render, uses[k])] + later;
    SettleAt(settled, RunningItem(render, uses[k]), later, Outcome(o.isError, o.text));
    assert SettledItems(render, uses[..k + 1], tools)
        == SettledItems(render, uses[..k], tools) + [SettledItem(render, uses[k], o)];
    assert front + SettledItems(render, uses[..k + 1], tools) == settled + [SettledItem(render, uses[k], o)];
  }

  // ---------------------------------------------------------------- an assistant turn restored

  /** Text before tool calls. */
  predicate TextFirst(content: seq<Block>) {
    forall i, j :: 0 <= i < j < |content| && content[i].ToolUse? ==> !content[j].Text?
  }

  function TextItems(content: seq<Block>): seq<ChatItem> {
    if content == [] then []
    else
      var last := content[|content| - 1];
      TextItems(content[..|content| - 1]) + (if last.Text? then [AssistantItem(last.text)] else [])
  }

  lemma {:induction false} NoUses(content: seq<Block>)
    requires forall i :: 0 <= i < |content| ==> !content[i].ToolUse?
    ensures ToolUses(content) == []
  {
    if content == [] {
    } else {
      NoUses(content[..|content| - 1]);
    }
  }

  lemma {:induction false} RestoredMessage(render: Render, items: seq<ChatItem>, content: seq<Block>)
    requires TextFirst(content)
    ensures AreCalls(ToolUses(content))
    ensures RestoreBlocks(render, items, Assistant, content)
         == items + TextItems(content) + RunningItems(render, ToolUses(content))
  {
    ToolUsesAreCalls(content);
    if content == [] {
      assert items + [] + [] == items;
    } else {
      var front, last := content[..|content| - 1], content[|content| - 1];
      RestoredMessage(render, items, front);
      RestoredBlock(render, items, front, last);
    }
  }

  lemma RunningSnoc(render: Render, uses: seq<Block>, u: Block)
    requires AreCalls(uses) && u.ToolUse?
    ensures AreCalls(uses + [u])
    ensures RunningItems(render, uses + [u]) == RunningItems(render, uses) + [RunningItem(render, u)]
  {
    hide RunningItem;
  }

  lemma SettledSnoc(render: Render, uses: seq<Block>, tools: nat -> ToolStep)
    requires AreCalls(uses) && uses != []
    ensures var k := |uses| - 1;
            && AreCalls(uses[..k])
            && SettledItems(render, uses, tools)
               == SettledItems(render, uses[..k], tools) + [SettledItem(render, uses[k], OutcomeOf(tools, k))]
  {
    hide SettledItem, OutcomeOf;
  }

  lemma ContentSnoc(front: seq<Block>, last: Block)
    ensures ToolUses(front + [last]) == ToolUses(front) + (if last.ToolUse? then [last] else [])
    ensures TextItems(front + [last]) == TextItems(front) + (if last.Text? then [AssistantItem(last.text)] else [])
  {
    assert (front + [last])[..|front|] == front;
  }

  lemma RestoredBlock(render: Render, items: seq<ChatItem>, front: seq<Block>, last: Block)
    requires TextFirst(front + [last]) && AreCalls(ToolUses(front)) && AreCalls(ToolUses(front + [last]))
    ensures RestoreBlock(render, items + TextItems(front) + RunningItems(render, ToolUses(front)), Assistant, last)
         == items + TextItems(front + [last]) + RunningItems(render, ToolUses(front + [last]))
  {
    hide SummariseInput, ToolUses, TextItems, RunningItems, AreCalls, Settle;
    var content := front + [last];
    var before := items + TextItems(front);
    ContentSnoc(front, last);
    if last.Text? {
      forall i | 0 <= i < |front| ensures !front[i].ToolUse? { assert content[i] == front[i] && content[|front|] == last; }
      NoUses(front);
      NothingRuns(render);
      assert ToolUses(content) == [] + [];
      assert before + [] + [AssistantItem(last.text)] == items + (TextItems(front) + [AssistantItem(last.text)]) + [];
    } else if last.ToolUse? {
      assert ToolUses(content) == ToolUses(front) + [last];
      RunningSnoc(render, ToolUses(front), last);
      assert TextItems(content) == TextItems(front);
      assert before + RunningItems(render, ToolUses(front)) + [RunningItem(render, last)]
          == before + (RunningItems(render, ToolUses(front)) + [RunningItem(render, last)]);
    } else {
      assert TextItems(content) == TextItems(front) && ToolUses(content) == ToolUses(front);
    }
  }

  lemma NothingRuns(render: Render)
    ensures AreCalls([]) && RunningItems(render, []) == []
  {
  }

  lemma {:induction false} NormTexts(acc: seq<ChatItem>, content: seq<Block>)
    ensures NormFrom(acc, TextItems(content)) == NormPush(acc, AssistantItem(TextOf(content)))
  {
    if content == [] {
    } else {
      hide NormPush, NormFrom;
      var front, last := content[..|content| - 1], content[|content| - 1];
      NormTexts(acc, front);
      if last.Text? {
        NormSnoc(acc, TextItems(front), AssistantItem(last.text));
        PushTexts(acc, TextOf(front), last.text);
      } else {
        assert TextItems(content) == TextItems(front) && TextOf(content) == TextOf(front);
      }
    }
  }
}
