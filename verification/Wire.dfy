/** Rebuilding a message from its stream of deltas (crates/mc-agent/src/wire.rs).

    Blocks arrive under indices and grow by deltas addressed to them. What matters is that
    the finished content depends only on what was sent to each block, and that nothing the
    model does not know is altered. Parsing a tool's accumulated JSON is a parameter. */
module Wire {
  import opened Basics

  datatype Json =
    | Null
    | Bool(b: bool)
    | Num(n: int)
    | Str(s: string)
    | Arr(items: seq<Json>)
    | Obj(fields: map<string, Json>)

  const EMPTY_OBJECT := Obj(map[])

  /** A content block of a message, in the API's own shape. `Opaque` is anything else. */
  datatype Block =
    | Text(text: string)
    | Thinking(thinking: string, signature: string)
    | ToolUse(id: string, name: string, input: Json)
    | ToolResult(toolUseId: string, content: string, isError: bool)
    | Opaque(raw: Json)

  datatype Message = Message(content: seq<Block>, stopReason: string, stopDetails: Option<Json>, usage: Json)

  /** A block being built up. */
  datatype OpenBlock =
    | OpenText(text: string)
    | OpenThinking(thinking: string, signature: string)
    | OpenTool(id: string, name: string, partialJson: string)
    | Passthrough(raw: Json)

  datatype Delta =
    | TextDelta(chunk: string)
    | ThinkingDelta(chunk: string)
    | SignatureDelta(chunk: string)
    | InputJsonDelta(chunk: string)
    | UnknownDelta

  /** The `content_block` a block opens with: no signature and no input yet. */
  datatype Start =
    | StartText(text: string)
    | StartThinking(thinking: string)
    | StartTool(id: string, name: string)
    | StartOther(raw: Json)

  /** One decoded event. */
  datatype WireEvent =
    | MessageStart(usage: Option<Json>)
    | BlockStart(index: nat, start: Start)
    | BlockDelta(index: nat, delta: Delta)
    | MessageDelta(stopReason: Option<string>, stopDetails: Option<Json>, usageUpdate: Option<Json>)
    | MessageStop
    | OtherEvent

  function Open(start: Start): OpenBlock {
    match start
    case StartText(text) => OpenText(text)
    case StartThinking(thinking) => OpenThinking(thinking, "")
    case StartTool(id, name) => OpenTool(id, name, "")
    case StartOther(raw) => Passthrough(raw)
  }

  datatype Emitted = Nothing | EmitText(text: string) | EmitThinking(text: string) | ToolStarted(id: string, name: string) | Done

  datatype Accumulator = Accumulator(
    blocks: seq<Option<OpenBlock>>, stopReason: string, stopDetails: Option<Json>, usage: Json)

  const EMPTY := Accumulator([], "", None, Null)

  // ---------------------------------------------------------------- one event

  function MergeUsage(target: Json, incoming: Json): Json {
    if target.Obj? && incoming.Obj? then Obj(target.fields + incoming.fields) else incoming
  }

  function Pad(blocks: seq<Option<OpenBlock>>, n: nat): (r: seq<Option<OpenBlock>>)
    ensures |r| >= |blocks| && |r| >= n && r[..|blocks|] == blocks
    ensures forall i :: |blocks| <= i < |r| ==> r[i] == None
    ensures |r| == Max(|blocks|, n)
    decreases n - |blocks|
  {
    if |blocks| >= n then blocks else Pad(blocks + [None], n)
  }

  function Put(blocks: seq<Option<OpenBlock>>, index: nat, b: OpenBlock): seq<Option<OpenBlock>> {
    Pad(blocks, index + 1)[index := Some(b)]
  }

  /** The block after a delta of its own kind; any other delta is ignored. */
  function Grow(b: OpenBlock, d: Delta): OpenBlock {
    match (b, d)
    case (OpenText(text), TextDelta(chunk)) => OpenText(text + chunk)
    case (OpenThinking(text, sig), ThinkingDelta(chunk)) => OpenThinking(text + chunk, sig)
    case (OpenThinking(text, sig), SignatureDelta(chunk)) => OpenThinking(text, sig + chunk)
    case (OpenTool(id, name, partial), InputJsonDelta(chunk)) => OpenTool(id, name, partial + chunk)
    case _ => b
  }

  function EmitOf(b: OpenBlock, d: Delta): Emitted {
    match (b, d)
    case (OpenText(_), TextDelta(chunk)) => EmitText(chunk)
    case (OpenThinking(_, _), ThinkingDelta(chunk)) => EmitThinking(chunk)
    case _ => Nothing
  }

  function BlockAt(a: Accumulator, i: nat): Option<OpenBlock> {
    if i < |a.blocks| then a.blocks[i] else None
  }

  function Push(a: Accumulator, e: WireEvent): Accumulator {
    match e
    case MessageStart(usage) => if usage.Some? then a.(usage := usage.value) else a
    case BlockStart(index, start) => a.(blocks := Put(a.blocks, index, Open(start)))
    case BlockDelta(index, delta) =>
      var b := BlockAt(a, index);
      if b.Some? then a.(blocks := a.blocks[index := Some(Grow(b.value, delta))]) else a
    case MessageDelta(reason, details, usage) =>
      a.(stopReason := if reason.Some? then reason.value else a.stopReason,
         stopDetails := if details.Some? && !details.value.Null? then details else a.stopDetails,
         usage := if usage.Some? then MergeUsage(a.usage, usage.value) else a.usage)
    case _ => a
  }

  function Emission(a: Accumulator, e: WireEvent): Emitted {
    match e
    case BlockStart(_, StartTool(id, name)) => ToolStarted(id, name)
    case BlockDelta(index, delta) => if BlockAt(a, index).Some? then EmitOf(BlockAt(a, index).value, delta) else Nothing
    case MessageStop => Done
    case _ => Nothing
  }

  function Fold(a: Accumulator, es: seq<WireEvent>): Accumulator
    decreases |es|
  {
    if es == [] then a else Fold(Push(a, es[0]), es[1..])
  }

  function Close(parse: string -> Option<Json>, b: OpenBlock): Block {
    match b
    case OpenText(text) => Text(text)
    case OpenThinking(text, sig) => Thinking(text, sig)
    case OpenTool(id, name, partial) =>
      var input := parse(partial);
      ToolUse(id, name, if input.Some? then input.value else EMPTY_OBJECT)
    case Passthrough(raw) => Opaque(raw)
  }

  function Contents(parse: string -> Option<Json>, blocks: seq<Option<OpenBlock>>): seq<Block> {
    if blocks == [] then []
    else
      var last := blocks[|blocks| - 1];
      Contents(parse, blocks[..|blocks| - 1]) + (if last.Some? then [Close(parse, last.value)] else [])
  }

  function Finish(parse: string -> Option<Json>, a: Accumulator): Message {
    Message(Contents(parse, a.blocks), a.stopReason, a.stopDetails, a.usage)
  }

  /** The tool calls a message waits on, in order. */
  function ToolUses(content: seq<Block>): seq<Block> {
    if content == [] then []
    else ToolUses(content[..|content| - 1]) + (if content[|content| - 1].ToolUse? then [content[|content| - 1]] else [])
  }

  // ---------------------------------------------------------------- the object

  class StreamAccumulator {
    var blocks: seq<Option<OpenBlock>>
    var stopReason: string
    var stopDetails: Option<Json>
    var usage: Json

    function View(): Accumulator
      reads this
    {
      Accumulator(blocks, stopReason, stopDetails, usage)
    }

    constructor ()
      ensures View() == EMPTY
    {
      blocks, stopReason, stopDetails, usage := [], "", None, Null;
    }

    /** Feed one event. */
    method PushEvent(e: WireEvent) returns (emitted: Emitted)
      modifies this
      ensures View() == Push(old(View()), e)
      ensures emitted == Emission(old(View()), e)
    {
      emitted := Nothing;
      match e {
        case MessageStart(u) =>
          if u.Some? { usage := u.value; }
        case BlockStart(index, start) =>
          PutBlock(index, Open(start));
          if start.StartTool? { emitted := ToolStarted(start.id, start.name); }
        case BlockDelta(index, delta) =>
          if index < |blocks| && blocks[index].Some? {
            var b := blocks[index].value;
            if b.OpenText? && delta.TextDelta? {
              blocks := blocks[index := Some(b.(text := b.text + delta.chunk))];
              emitted := EmitText(delta.chunk);
            } else if b.OpenThinking? && delta.ThinkingDelta? {
              blocks := blocks[index := Some(b.(thinking := b.thinking + delta.chunk))];
              emitted := EmitThinking(delta.chunk);
            } else if b.OpenThinking? && delta.SignatureDelta? {
              blocks := blocks[index := Some(b.(signature := b.signature + delta.chunk))];
            } else if b.OpenTool? && delta.InputJsonDelta? {
              blocks := blocks[index := Some(b.(partialJson := b.partialJson + delta.chunk))];
            } else {
              assert blocks[index := Some(b)] == blocks;
            }
          }
        case MessageDelta(reason, details, u) =>
          if reason.Some? { stopReason := reason.value; }
          if details.Some? && !details.value.Null? { stopDetails := details; }
          if u.Some? { usage := MergeUsage(usage, u.value); }
        case MessageStop => emitted := Done;
        case OtherEvent =>
      }
    }

    method PutBlock(index: nat, block: OpenBlock)
      modifies this`blocks
      ensures blocks == Put(old(blocks), index, block)
    {
      if |blocks| <= index {
        blocks := Pad(blocks, index + 1);
      }
      blocks := blocks[index := Some(block)];
    }
  }

  // ---------------------------------------------------------------- blocks are independent

  predicate Addresses(e: WireEvent, i: nat) {
    (e.BlockStart? && e.index == i) || (e.BlockDelta? && e.index == i)
  }

  /** The events sent to block `i`, in order. */
  function Project(es: seq<WireEvent>, i: nat): seq<WireEvent>
    decreases |es|
  {
    if es == [] then []
    else (if Addresses(es[0], i) then [es[0]] else []) + Project(es[1..], i)
  }

  /** A block alone: started, then grown. */
  function StepBlock(b: Option<OpenBlock>, e: WireEvent): Option<OpenBlock> {
    match e
    case BlockStart(_, start) => Some(Open(start))
    case BlockDelta(_, delta) => if b.Some? then Some(Grow(b.value, delta)) else None
    case _ => b
  }

  function FoldBlock(b: Option<OpenBlock>, es: seq<WireEvent>): Option<OpenBlock>
    decreases |es|
  {
    if es == [] then b else FoldBlock(StepBlock(b, es[0]), es[1..])
  }

  lemma PushOnlyOwn(a: Accumulator, e: WireEvent, i: nat)
    ensures BlockAt(Push(a, e), i) == if Addresses(e, i) then StepBlock(BlockAt(a, i), e) else BlockAt(a, i)
  {
    if e.BlockStart? {
      var padded := Pad(a.blocks, e.index + 1);
      if i < |a.blocks| { assert padded[i] == padded[..|a.blocks|][i]; }
    }
  }

  /** Each block is what its own events make of it, whatever is interleaved. */
  lemma {:induction false} BlockFromOwnEvents(a: Accumulator, es: seq<WireEvent>, i: nat)
    ensures BlockAt(Fold(a, es), i) == FoldBlock(BlockAt(a, i), Project(es, i))
    decreases |es|
  {
    if es == [] {
    } else {
      PushOnlyOwn(a, es[0], i);
      BlockFromOwnEvents(Push(a, es[0]), es[1..], i);
      var rest := Project(es[1..], i);
      if Addresses(es[0], i) {
        assert ([es[0]] + rest)[1..] == rest;
      } else {
        assert [] + rest == rest;
      }
    }
  }

  lemma {:induction false} TrailingNone(parse: string -> Option<Json>, blocks: seq<Option<OpenBlock>>, n: nat)
    requires n <= |blocks| && forall i :: n <= i < |blocks| ==> blocks[i] == None
    ensures Contents(parse, blocks) == Contents(parse, blocks[..n])
    decreases |blocks|
  {
    if n == |blocks| {
      assert blocks[..n] == blocks;
    } else {
      TrailingNone(parse, blocks[..|blocks| - 1], n);
      assert blocks[..|blocks| - 1][..n] == blocks[..n];
    }
  }

  lemma SameBlocksSameContents(parse: string -> Option<Json>, a: Accumulator, b: Accumulator)
    requires forall i: nat :: BlockAt(a, i) == BlockAt(b, i)
    ensures Contents(parse, a.blocks) == Contents(parse, b.blocks)
  {
    var n := Min(|a.blocks|, |b.blocks|);
    forall i | n <= i < |a.blocks| ensures a.blocks[i] == None { assert BlockAt(a, i) == BlockAt(b, i); }
    forall i | n <= i < |b.blocks| ensures b.blocks[i] == None { assert BlockAt(a, i) == BlockAt(b, i); }
    TrailingNone(parse, a.blocks, n);
    TrailingNone(parse, b.blocks, n);
    forall i | 0 <= i < n ensures a.blocks[i] == b.blocks[i] { assert BlockAt(a, i) == BlockAt(b, i); }
    assert a.blocks[..n] == b.blocks[..n];
  }

  /** The finished content depends only on what each block was sent: two streams that send every
      block the same events, interleaved in any way, give the same content. */
  lemma ContentFromProjections(parse: string -> Option<Json>, es: seq<WireEvent>, fs: seq<WireEvent>)
    requires forall i: nat :: Project(es, i) == Project(fs, i)
    ensures Finish(parse, Fold(EMPTY, es)).content == Finish(parse, Fold(EMPTY, fs)).content
  {
    forall i: nat ensures BlockAt(Fold(EMPTY, es), i) == BlockAt(Fold(EMPTY, fs), i) {
      BlockFromOwnEvents(EMPTY, es, i);
      BlockFromOwnEvents(EMPTY, fs, i);
    }
    SameBlocksSameContents(parse, Fold(EMPTY, es), Fold(EMPTY, fs));
  }

  // ---------------------------------------------------------------- the closed form of a block

  datatype DeltaKind = KText | KThinking | KSignature | KJson

  function ChunkOf(e: WireEvent, kind: DeltaKind): string {
    if !e.BlockDelta? then ""
    else
      match (kind, e.delta)
      case (KText, TextDelta(chunk)) => chunk
      case (KThinking, ThinkingDelta(chunk)) => chunk
      case (KSignature, SignatureDelta(chunk)) => chunk
      case (KJson, InputJsonDelta(chunk)) => chunk
      case _ => ""
  }

  /** The chunks of one kind, concatenated in order. */
  function Chunks(es: seq<WireEvent>, kind: DeltaKind): string
    decreases |es|
  {
    if es == [] then "" else ChunkOf(es[0], kind) + Chunks(es[1..], kind)
  }

  /** What a block is worth once its deltas are in. */
  function Grown(b: OpenBlock, es: seq<WireEvent>): OpenBlock {
    match b
    case OpenText(text) => OpenText(text + Chunks(es, KText))
    case OpenThinking(text, sig) => OpenThinking(text + Chunks(es, KThinking), sig + Chunks(es, KSignature))
    case OpenTool(id, name, partial) => OpenTool(id, name, partial + Chunks(es, KJson))
    case Passthrough(raw) => Passthrough(raw)
  }

  lemma {:induction false} DeltasConcatenate(b: OpenBlock, es: seq<WireEvent>)
    requires forall j :: 0 <= j < |es| ==> es[j].BlockDelta?
    ensures FoldBlock(Some(b), es) == Some(Grown(b, es))
    decreases |es|
  {
    hide Grown, Grow, StepBlock;
    if es == [] {
      GrownNothing(b);
    } else {
      DeltasConcatenate(Grow(b, es[0].delta), es[1..]);
      GrownStep(b, es);
      StepDelta(b, es[0]);
    }
  }

  lemma GrownNothing(b: OpenBlock)
    ensures Grown(b, []) == b
  {
  }

  lemma StepDelta(b: OpenBlock, e: WireEvent)
    requires e.BlockDelta?
    ensures StepBlock(Some(b), e) == Some(Grow(b, e.delta))
  {
  }

  lemma GrownStep(b: OpenBlock, es: seq<WireEvent>)
    requires es != [] && es[0].BlockDelta?
    ensures Grown(Grow(b, es[0].delta), es[1..]) == Grown(b, es)
  {
    hide Chunks;
    match b
    case OpenText(text) => ChunksStep(text, es, KText);
    case OpenThinking(text, sig) => ChunksStep(text, es, KThinking); ChunksStep(sig, es, KSignature);
    case OpenTool(_, _, partial) => ChunksStep(partial, es, KJson);
    case Passthrough(_) =>
  }

  lemma ChunksStep(text: string, es: seq<WireEvent>, kind: DeltaKind)
    requires es != []
    ensures text + ChunkOf(es[0], kind) + Chunks(es[1..], kind) == text + Chunks(es, kind)
    ensures ChunkOf(es[0], kind) == "" ==> text + Chunks(es[1..], kind) == text + Chunks(es, kind)
  {
    hide ChunkOf;
    var head, rest := ChunkOf(es[0], kind), Chunks(es[1..], kind);
    assert Chunks(es, kind) == head + rest;
    hide Chunks;
    Regroup(text, head, rest);
  }

  lemma Regroup(a: string, b: string, c: string)
    ensures a + b + c == a + (b + c) && (b == "" ==> b + c == c)
  {
  }

  /** A block started once before its deltas ends as its opening followed by the ordered
      concatenation of the deltas of its kind; a block of an unknown type ends as it came. */
  lemma BlockClosedForm(es: seq<WireEvent>, i: nat, start: Start, deltas: seq<WireEvent>)
    requires Project(es, i) == [BlockStart(i, start)] + deltas
    requires forall j :: 0 <= j < |deltas| ==> deltas[j].BlockDelta?
    ensures BlockAt(Fold(EMPTY, es), i) == Some(Grown(Open(start), deltas))
  {
    BlockFromOwnEvents(EMPTY, es, i);
    assert ([BlockStart(i, start)] + deltas)[1..] == deltas;
    DeltasConcatenate(Open(start), deltas);
  }

  /** Block `i` is never addressed, or is started once, before its deltas. */
  predicate WellStarted(es: seq<WireEvent>, i: nat) {
    var own := Project(es, i);
    own == [] || (own[0].BlockStart? && forall j :: 1 <= j < |own| ==> own[j].BlockDelta?)
  }

  /** The closed form of block `i`, if it was started. */
  function ClosedForm(es: seq<WireEvent>, i: nat): Option<OpenBlock>
    requires WellStarted(es, i)
  {
    var own := Project(es, i);
    if own == [] then None else Some(Grown(Open(own[0].start), own[1..]))
  }

  function ClosedForms(es: seq<WireEvent>, n: nat): seq<Option<OpenBlock>>
    requires forall i: nat :: i < n ==> WellStarted(es, i)
  {
    seq(n, i requires 0 <= i < n => ClosedForm(es, i))
  }

  lemma BlockIsClosedForm(es: seq<WireEvent>, i: nat)
    requires WellStarted(es, i)
    ensures BlockAt(Fold(EMPTY, es), i) == ClosedForm(es, i)
  {
    hide Fold, Grown;
    BlockFromOwnEvents(EMPTY, es, i);
    var own := Project(es, i);
    if own != [] {
      hide Project;
      assert own[0].BlockStart?;
      DeltasConcatenate(Open(own[0].start), own[1..]);
    }
  }

  /** The whole finished content: the closed forms of the started blocks, in index order,
      whatever order their events came in. */
  lemma ContentClosedForm(parse: string -> Option<Json>, es: seq<WireEvent>, n: nat)
    requires forall i: nat :: i < n ==> WellStarted(es, i)
    requires forall i: nat :: i >= n ==> Project(es, i) == []
    ensures Finish(parse, Fold(EMPTY, es)).content == Contents(parse, ClosedForms(es, n))
  {
    hide Fold, Contents, WellStarted, ClosedForm, Project;
    var closed := EMPTY.(blocks := ClosedForms(es, n));
    forall i: nat ensures BlockAt(Fold(EMPTY, es), i) == BlockAt(closed, i) {
      if i >= n { NeverAddressed(es, i); } else { BlockIsClosedForm(es, i); }
    }
    SameBlocksSameContents(parse, Fold(EMPTY, es), closed);
  }

  lemma NeverAddressed(es: seq<WireEvent>, i: nat)
    requires Project(es, i) == []
    ensures BlockAt(Fold(EMPTY, es), i) == None
  {
    hide Fold;
    BlockFromOwnEvents(EMPTY, es, i);
  }

  // ---------------------------------------------------------------- what a finished message holds

  /** The indices below `n` that anything was sent to, in order. */
  function Started(es: seq<WireEvent>, n: nat): seq<nat> {
    if n == 0 then [] else Started(es, n - 1) + (if Project(es, n - 1) != [] then [n - 1] else [])
  }

  lemma {:induction false} StartedInOrder(es: seq<WireEvent>, n: nat)
    ensures forall i: nat :: i in Started(es, n) <==> i < n && Project(es, i) != []
    ensures forall j, k :: 0 <= j < k < |Started(es, n)| ==> Started(es, n)[j] < Started(es, n)[k]
  {
    if n == 0 {
    } else {
      StartedInOrder(es, n - 1);
      var before := Started(es, n - 1);
      forall j | 0 <= j < |before| ensures before[j] < n - 1 { assert before[j] in before; }
    }
  }

  /** What a block sent as `own` holds when the message is finished. A tool call's input is what
      its chunks together spell, or an empty object when that is not JSON. */
  ghost predicate Holds(parse: string -> Option<Json>, own: seq<WireEvent>, b: Block)
  {
    && own != [] && own[0].BlockStart?
    && var deltas := own[1..];
       match own[0].start
       case StartText(text) => b == Text(text + Chunks(deltas, KText))
       case StartThinking(text) => b == Thinking(text + Chunks(deltas, KThinking), Chunks(deltas, KSignature))
       case StartTool(id, name) =>
         && (forall v :: parse(Chunks(deltas, KJson)) == Some(v) ==> b == ToolUse(id, name, v))
         && (parse(Chunks(deltas, KJson)) == None ==> b == ToolUse(id, name, Obj(map[])))
       case StartOther(raw) => b == Opaque(raw)
  }

  /** Block `j` of the content holds what was sent to index `started[j]`. */
  ghost predicate AllHold(parse: string -> Option<Json>, es: seq<WireEvent>, started: seq<nat>, content: seq<Block>) {
    |content| == |started| && forall j :: 0 <= j < |started| ==> Holds(parse, Project(es, started[j]), content[j])
  }

  lemma HoldsSnoc(parse: string -> Option<Json>, es: seq<WireEvent>, started: seq<nat>, content: seq<Block>, i: nat, b: Block)
    requires AllHold(parse, es, started, content) && Holds(parse, Project(es, i), b)
    ensures AllHold(parse, es, started + [i], content + [b])
  {
    hide Holds, Project;
  }

  lemma ClosedHolds(parse: string -> Option<Json>, es: seq<WireEvent>, i: nat)
    requires WellStarted(es, i) && Project(es, i) != []
    ensures Holds(parse, Project(es, i), Close(parse, ClosedForm(es, i).value))
  {
    hide Chunks, Project;
    var own := Project(es, i);
    assert "" + Chunks(own[1..], KJson) == Chunks(own[1..], KJson);
    assert "" + Chunks(own[1..], KSignature) == Chunks(own[1..], KSignature);
  }

  lemma {:induction false} ClosedContent(parse: string -> Option<Json>, es: seq<WireEvent>, n: nat)
    requires forall i: nat :: i < n ==> WellStarted(es, i)
    ensures AllHold(parse, es, Started(es, n), Contents(parse, ClosedForms(es, n)))
  {
    if n == 0 {
    } else {
      hide WellStarted, Holds, Project, Contents, ClosedForms, ClosedForm, AllHold, Close;
      ClosedContent(parse, es, n - 1);
      ClosedNext(parse, es, n);
      var started, content := Started(es, n - 1), Contents(parse, ClosedForms(es, n - 1));
      if Project(es, n - 1) != [] {
        ClosedHolds(parse, es, n - 1);
        HoldsSnoc(parse, es, started, content, n - 1, Close(parse, ClosedForm(es, n - 1).value));
      } else {
        assert started + [] == started && content + [] == content;
      }
    }
  }

  lemma ClosedNext(parse: string -> Option<Json>, es: seq<WireEvent>, n: nat)
    requires n > 0 && forall i: nat :: i < n ==> WellStarted(es, i)
    ensures Project(es, n - 1) != [] ==> ClosedForm(es, n - 1).Some?
    ensures Contents(parse, ClosedForms(es, n))
         == Contents(parse, ClosedForms(es, n - 1))
            + (if Project(es, n - 1) != [] then [Close(parse, ClosedForm(es, n - 1).value)] else [])
  {
    hide Close, Project;
    assert WellStarted(es, n - 1);
    assert ClosedForms(es, n)[..n - 1] == ClosedForms(es, n - 1);
  }

  /** A finished message holds one block for every index that was started, in index order, and
      each holds what was sent to it: text, thoughts with their signature, a call with its input,
      or whatever it came as. */
  lemma FinishedContent(parse: string -> Option<Json>, es: seq<WireEvent>, n: nat)
    requires forall i: nat :: i < n ==> WellStarted(es, i)
    requires forall i: nat :: i >= n ==> Project(es, i) == []
    ensures var content, started := Finish(parse, Fold(EMPTY, es)).content, Started(es, n);
            && |content| == |started|
            && (forall i: nat :: i in started <==> Project(es, i) != [])
            && (forall j, k :: 0 <= j < k < |started| ==> started[j] < started[k])
            && AllHold(parse, es, started, content)
  {
    hide Fold, Contents, Project, Holds, ClosedForm;
    ContentClosedForm(parse, es, n);
    ClosedContent(parse, es, n);
    StartedInOrder(es, n);
  }

  /** The calls of a message are its blocks that are calls, in their order. */
  lemma {:induction false} CallsOfContent(a: seq<Block>, b: seq<Block>)
    ensures ToolUses(a + b) == ToolUses(a) + ToolUses(b)
    decreases |b|
  {
    if b == [] {
      assert a + b == a;
    } else {
      CallsOfContent(a, b[..|b| - 1]);
      assert (a + b)[..|a + b| - 1] == a + b[..|b| - 1] && (a + b)[|a + b| - 1] == b[|b| - 1];
    }
  }

  lemma CallsOfOne(b: Block)
    ensures ToolUses([b]) == if b.ToolUse? then [b] else []
  {
    assert [b][..0] == [];
  }

  /** The reason a message stopped for is the last one given. */
  lemma {:induction false} StopReasonIsLast(
      a: Accumulator, before: seq<WireEvent>, reason: string, details: Option<Json>, usage: Option<Json>, after: seq<WireEvent>)
    requires forall i :: 0 <= i < |after| && after[i].MessageDelta? ==> after[i].stopReason == None
    ensures Fold(a, before + [MessageDelta(Some(reason), details, usage)] + after).stopReason == reason
    decreases |before|
  {
    hide Put, Grow, MergeUsage;
    var es := before + [MessageDelta(Some(reason), details, usage)] + after;
    if before == [] {
      assert es[1..] == after;
      ReasonStays(Push(a, es[0]), after);
    } else {
      StopReasonIsLast(Push(a, es[0]), before[1..], reason, details, usage, after);
      assert es[1..] == before[1..] + [MessageDelta(Some(reason), details, usage)] + after;
    }
  }

  lemma {:induction false} ReasonStays(a: Accumulator, es: seq<WireEvent>)
    requires forall i :: 0 <= i < |es| && es[i].MessageDelta? ==> es[i].stopReason == None
    ensures Fold(a, es).stopReason == a.stopReason
    decreases |es|
  {
    hide Put, Grow, MergeUsage;
    if es == [] {
    } else {
      ReasonStays(Push(a, es[0]), es[1..]);
    }
  }

  /** And so are the details of it; a null says nothing. */
  lemma {:induction false} StopDetailsAreLast(
      a: Accumulator, before: seq<WireEvent>, reason: Option<string>, details: Json, usage: Option<Json>, after: seq<WireEvent>)
    requires details != Null
    requires forall i :: 0 <= i < |after| && after[i].MessageDelta? ==> after[i].stopDetails in {None, Some(Null)}
    ensures Fold(a, before + [MessageDelta(reason, Some(details), usage)] + after).stopDetails == Some(details)
    decreases |before|
  {
    hide Put, Grow, MergeUsage;
    var es := before + [MessageDelta(reason, Some(details), usage)] + after;
    if before == [] {
      assert es[1..] == after;
      DetailsStay(Push(a, es[0]), after);
    } else {
      StopDetailsAreLast(Push(a, es[0]), before[1..], reason, details, usage, after);
      assert es[1..] == before[1..] + [MessageDelta(reason, Some(details), usage)] + after;
    }
  }

  lemma {:induction false} DetailsStay(a: Accumulator, es: seq<WireEvent>)
    requires forall i :: 0 <= i < |es| && es[i].MessageDelta? ==> es[i].stopDetails in {None, Some(Null)}
    ensures Fold(a, es).stopDetails == a.stopDetails
    decreases |es|
  {
    hide Put, Grow, MergeUsage;
    if es == [] {
    } else {
      DetailsStay(Push(a, es[0]), es[1..]);
    }
  }

  /** The usage an event carries. */
  function UsageIn(e: WireEvent): Option<Json> {
    match e
    case MessageStart(usage) => usage
    case MessageDelta(_, _, usage) => usage
    case _ => None
  }

  /** Once the message has started with an object of usage, a count is what was last told of it:
      later objects add to and overwrite what was told before. */
  lemma {:induction false} UsageIsLastTold(a: Accumulator, before: seq<WireEvent>, e: WireEvent, after: seq<WireEvent>, key: string, value: Json)
    requires a.usage.Obj?
    requires forall i :: 0 <= i < |before| ==> !before[i].MessageStart? && (UsageIn(before[i]).Some? ==> UsageIn(before[i]).value.Obj?)
    requires e.MessageDelta? && UsageIn(e).Some? && UsageIn(e).value.Obj? && key in UsageIn(e).value.fields
    requires UsageIn(e).value.fields[key] == value
    requires forall i :: 0 <= i < |after| ==>
               !after[i].MessageStart?
               && (UsageIn(after[i]).Some? ==> UsageIn(after[i]).value.Obj? && key !in UsageIn(after[i]).value.fields)
    ensures var usage := Fold(a, before + [e] + after).usage;
            usage.Obj? && key in usage.fields && usage.fields[key] == value
    decreases |before|
  {
    hide Put, Grow;
    var es := before + [e] + after;
    if before == [] {
      assert es[1..] == after;
      UsageStays(Push(a, e), after, key);
    } else {
      UsageIsLastTold(Push(a, es[0]), before[1..], e, after, key, value);
      assert es[1..] == before[1..] + [e] + after;
    }
  }

  /** What is not told again stays. */
  lemma {:induction false} UsageStays(a: Accumulator, es: seq<WireEvent>, key: string)
    requires a.usage.Obj? && key in a.usage.fields
    requires forall i :: 0 <= i < |es| ==>
               !es[i].MessageStart? && (UsageIn(es[i]).Some? ==> UsageIn(es[i]).value.Obj? && key !in UsageIn(es[i]).value.fields)
    ensures var usage := Fold(a, es).usage;
            usage.Obj? && key in usage.fields && usage.fields[key] == a.usage.fields[key]
    decreases |es|
  {
    hide Put, Grow;
    if es == [] {
    } else {
      UsageStays(Push(a, es[0]), es[1..], key);
    }
  }

  // ---------------------------------------------------------------- what the reader saw

  function EmittedText(a: Accumulator, es: seq<WireEvent>): string
    decreases |es|
  {
    if es == [] then ""
    else
      var here := Emission(a, es[0]);
      (if here.EmitText? then here.text else "") + EmittedText(Push(a, es[0]), es[1..])
  }

  /** The text blocks of a content, joined. */
  function TextOf(content: seq<Block>): string {
    if content == [] then ""
    else TextOf(content[..|content| - 1]) + (if content[|content| - 1].Text? then content[|content| - 1].text else "")
  }

  /** The order the API documents: blocks open one after the other, text opens empty, and text
      goes to the block opened last. */
  predicate InOrder(a: Accumulator, es: seq<WireEvent>)
    decreases |es|
  {
    if es == [] then true
    else
      && (match es[0]
          case BlockStart(index, start) => index == |a.blocks| && (start.StartText? ==> start.text == "")
          case BlockDelta(index, TextDelta(_)) => index + 1 == |a.blocks|
          case _ => true)
      && InOrder(Push(a, es[0]), es[1..])
  }

  /** The text of blocks still open. */
  function OpenTextOf(blocks: seq<Option<OpenBlock>>): string {
    if blocks == [] then ""
    else OpenTextOf(blocks[..|blocks| - 1]) + TextIn(blocks[|blocks| - 1])
  }

  function TextIn(b: Option<OpenBlock>): string {
    if b.Some? && b.value.OpenText? then b.value.text else ""
  }

  lemma {:induction false} OpenTextIsTextOf(parse: string -> Option<Json>, blocks: seq<Option<OpenBlock>>)
    ensures TextOf(Contents(parse, blocks)) == OpenTextOf(blocks)
  {
    if blocks == [] {
    } else {
      var front, last := blocks[..|blocks| - 1], blocks[|blocks| - 1];
      OpenTextIsTextOf(parse, front);
      var before := Contents(parse, front);
      if last.Some? {
        assert (before + [Close(parse, last.value)])[..|before|] == before;
      } else {
        assert before + [] == before;
      }
    }
  }

  lemma OpenTextSnoc(blocks: seq<Option<OpenBlock>>, b: Option<OpenBlock>)
    ensures OpenTextOf(blocks + [b]) == OpenTextOf(blocks) + TextIn(b)
  {
    assert (blocks + [b])[..|blocks|] == blocks;
  }

  /** Replacing a block by one with the same text changes no text. */
  lemma {:induction false} SameTextUpdate(blocks: seq<Option<OpenBlock>>, i: nat, b: Option<OpenBlock>)
    requires i < |blocks| && TextIn(b) == TextIn(blocks[i])
    ensures OpenTextOf(blocks[i := b]) == OpenTextOf(blocks)
    decreases |blocks|
  {
    var n := |blocks| - 1;
    if i < n {
      SameTextUpdate(blocks[..n], i, b);
      assert blocks[i := b][..n] == blocks[..n][i := b];
    } else {
      assert blocks[i := b][..n] == blocks[..n];
    }
  }

  lemma PushStart(a: Accumulator, index: nat, start: Start)
    requires index == |a.blocks| && (start.StartText? ==> start.text == "")
    ensures OpenTextOf(Push(a, BlockStart(index, start)).blocks) == OpenTextOf(a.blocks)
  {
    hide OpenTextOf;
    var padded := Pad(a.blocks, index + 1);
    assert padded[..|a.blocks|] == a.blocks;
    assert padded[index := Some(Open(start))] == a.blocks + [Some(Open(start))];
    OpenTextSnoc(a.blocks, Some(Open(start)));
    assert OpenTextOf(a.blocks) + "" == OpenTextOf(a.blocks);
  }

  lemma GrowLastText(blocks: seq<Option<OpenBlock>>, text: string, chunk: string)
    requires blocks != [] && blocks[|blocks| - 1] == Some(OpenText(text))
    ensures OpenTextOf(blocks[|blocks| - 1 := Some(OpenText(text + chunk))]) == OpenTextOf(blocks) + chunk
  {
    hide OpenTextOf;
    var front := blocks[..|blocks| - 1];
    assert blocks == front + [Some(OpenText(text))];
    assert blocks[|blocks| - 1 := Some(OpenText(text + chunk))] == front + [Some(OpenText(text + chunk))];
    OpenTextSnoc(front, Some(OpenText(text)));
    OpenTextSnoc(front, Some(OpenText(text + chunk)));
    assert OpenTextOf(front) + (text + chunk) == OpenTextOf(front) + text + chunk;
  }

  lemma PushDelta(a: Accumulator, index: nat, delta: Delta)
    requires delta.TextDelta? ==> index + 1 == |a.blocks|
    ensures var e := BlockDelta(index, delta);
            var here := Emission(a, e);
            OpenTextOf(Push(a, e).blocks) == OpenTextOf(a.blocks) + (if here.EmitText? then here.text else "")
  {
    hide OpenTextOf;
    assert OpenTextOf(a.blocks) + "" == OpenTextOf(a.blocks);
    var b := BlockAt(a, index);
    if b.Some? {
      if b.value.OpenText? && delta.TextDelta? {
        GrowLastText(a.blocks, b.value.text, delta.chunk);
      } else {
        SameTextUpdate(a.blocks, index, Some(Grow(b.value, delta)));
      }
    }
  }

  lemma PushText(a: Accumulator, e: WireEvent)
    requires InOrder(a, [e])
    ensures var here := Emission(a, e);
            OpenTextOf(Push(a, e).blocks) == OpenTextOf(a.blocks) + (if here.EmitText? then here.text else "")
  {
    hide OpenTextOf, Put, Grow, EmitOf;
    assert OpenTextOf(a.blocks) + "" == OpenTextOf(a.blocks);
    match e
    case BlockStart(index, start) => PushStart(a, index, start);
    case BlockDelta(index, delta) => PushDelta(a, index, delta);
    case _ =>
  }

  /** What an event gives out is exactly what it adds to its block: text to a block of text, a
      thought to a block of thoughts; and a call is announced when its block starts. */
  lemma EmitsWhatIsAdded(a: Accumulator, e: WireEvent)
    ensures var here := Emission(a, e);
            && (here.EmitText? <==> e.BlockDelta? && e.delta.TextDelta? && BlockAt(a, e.index).Some? && BlockAt(a, e.index).value.OpenText?)
            && (here.EmitThinking? <==>
                  e.BlockDelta? && e.delta.ThinkingDelta? && BlockAt(a, e.index).Some? && BlockAt(a, e.index).value.OpenThinking?)
            && (here.EmitText? ==>
                  BlockAt(Push(a, e), e.index) == Some(OpenText(BlockAt(a, e.index).value.text + here.text)))
            && (here.EmitThinking? ==>
                  var b := BlockAt(a, e.index).value;
                  BlockAt(Push(a, e), e.index) == Some(OpenThinking(b.thinking + here.text, b.signature)))
            && (here.ToolStarted? <==> e.BlockStart? && e.start.StartTool?)
            && (here.ToolStarted? ==> e.start == StartTool(here.id, here.name))
            && (here.Done? <==> e.MessageStop?)
  {
  }

  /** The text a reader saw stream by is the text of the finished message. */
  lemma {:induction false} StreamedTextGrows(a: Accumulator, es: seq<WireEvent>)
    requires InOrder(a, es)
    ensures OpenTextOf(Fold(a, es).blocks) == OpenTextOf(a.blocks) + EmittedText(a, es)
    decreases |es|
  {
    hide Push, Emission, OpenTextOf;
    if es == [] {
      assert OpenTextOf(a.blocks) + "" == OpenTextOf(a.blocks);
    } else {
      assert InOrder(a, [es[0]]) by { assert [es[0]][1..] == []; }
      PushText(a, es[0]);
      StreamedTextGrows(Push(a, es[0]), es[1..]);
    }
  }

  lemma StreamedTextIsFinal(parse: string -> Option<Json>, es: seq<WireEvent>)
    requires InOrder(EMPTY, es)
    ensures TextOf(Finish(parse, Fold(EMPTY, es)).content) == EmittedText(EMPTY, es)
  {
    hide Fold, InOrder, EmittedText, TextOf, Contents;
    StreamedTextGrows(EMPTY, es);
    OpenTextIsTextOf(parse, Fold(EMPTY, es).blocks);
    assert OpenTextOf([]) + EmittedText(EMPTY, es) == EmittedText(EMPTY, es);
  }
}
