/** The transcript of a conversation and how it is shortened (crates/mc-core/src/session.rs).

    The API rejects a transcript in which a `tool_result` does not directly follow the
    `tool_use` it answers, so that shape is what every operation has to keep. */
module Transcript {
  import opened Basics
  import opened Wire

  datatype Role = User | Assistant

  datatype Turn = Turn(role: Role, content: seq<Block>)

  function UserText(text: string): Turn { Turn(User, [Text(text)]) }

  function AssistantTurn(content: seq<Block>): Turn { Turn(Assistant, content) }

  /** One user turn carries every answer to one assistant turn. */
  function ToolResults(blocks: seq<Block>): Turn { Turn(User, blocks) }

  // ---------------------------------------------------------------- the shape

  predicate IsResults(t: Turn) {
    t.role.User? && exists j :: 0 <= j < |t.content| && t.content[j].ToolResult?
  }

  /** `r` answers exactly the tool calls of `a`, in order. */
  predicate Answers(a: Turn, r: Turn) {
    && a.role.Assistant? && r.role.User?
    && |r.content| == |ToolUses(a.content)|
    && forall j :: 0 <= j < |r.content| ==> AnswersCall(ToolUses(a.content)[j], r.content[j])
  }

  predicate AnswersCall(call: Block, result: Block) {
    call.ToolUse? && result.ToolResult? && result.toolUseId == call.id
  }

  /** Every turn of results directly follows the assistant turn it answers. */
  predicate Paired(transcript: seq<Turn>) {
    forall i :: 0 <= i < |transcript| && IsResults(transcript[i]) ==>
      i > 0 && Answers(transcript[i - 1], transcript[i])
  }

  /** Every assistant turn that calls tools is directly followed by its results. */
  predicate AllAnswered(transcript: seq<Turn>) {
    forall i :: 0 <= i < |transcript| && transcript[i].role.Assistant? && ToolUses(transcript[i].content) != [] ==>
      i + 1 < |transcript| && Answers(transcript[i], transcript[i + 1])
  }

  // ---------------------------------------------------------------- compaction

  /** A turn that begins with typed text; results share the role but begin otherwise. */
  predicate IsPrompt(transcript: seq<Turn>, i: nat) {
    && i < |transcript| && transcript[i].role.User?
    && |transcript[i].content| > 0 && transcript[i].content[0].Text?
  }

  /** The last prompt at `i` or before it, leaving out index 0. */
  function LastPrompt(transcript: seq<Turn>, i: nat): Option<nat> {
    if i == 0 then None else if IsPrompt(transcript, i) then Some(i) else LastPrompt(transcript, i - 1)
  }

  function CompactionCut(transcript: seq<Turn>, keepRecent: nat): Option<nat> {
    if |transcript| < keepRecent then None else LastPrompt(transcript, |transcript| - keepRecent)
  }

  function Compact(transcript: seq<Turn>, cut: nat): seq<Turn> {
    transcript[Min(cut, |transcript|)..]
  }

  class Session {
    var transcript: seq<Turn>
    var summary: Option<string>

    constructor ()
      ensures transcript == [] && summary == None
    {
      transcript, summary := [], None;
    }

    method Push(turn: Turn)
      modifies this`transcript
      ensures transcript == old(transcript) + [turn]
    {
      transcript := transcript + [turn];
    }

    method FindCut(keepRecent: nat) returns (cut: Option<nat>)
      ensures cut == CompactionCut(transcript, keepRecent)
    {
      if |transcript| < keepRecent {
        return None;
      }
      var i := |transcript| - keepRecent;
      while i >= 1
        invariant i >= 0
        invariant LastPrompt(transcript, i) == CompactionCut(transcript, keepRecent)
      {
        if IsPrompt(transcript, i) {
          return Some(i);
        }
        i := i - 1;
      }
      return None;
    }

    method DropBefore(cut: nat, text: string) returns (dropped: nat)
      modifies this
      ensures transcript == Compact(old(transcript), cut) && summary == Some(text)
      ensures dropped == Min(cut, |old(transcript)|)
    {
      dropped := Min(cut, |transcript|);
      transcript := transcript[dropped..];
      summary := Some(text);
    }
  }

  /** The cut is the latest prompt that keeps enough recent turns, and there is none exactly
      when no prompt but the first lies that far back. */
  lemma {:induction false} LastPromptIff(transcript: seq<Turn>, i: nat)
    ensures var c := LastPrompt(transcript, i);
            && (c.Some? ==> 1 <= c.value <= i && IsPrompt(transcript, c.value)
                            && forall k :: c.value < k <= i ==> !IsPrompt(transcript, k))
            && (c.None? <==> forall k :: 1 <= k <= i ==> !IsPrompt(transcript, k))
  {
    if i == 0 || IsPrompt(transcript, i) {
    } else {
      LastPromptIff(transcript, i - 1);
    }
  }

  /** Turn `i` is something the user typed. */
  predicate Typed(transcript: seq<Turn>, i: int) {
    && 0 <= i < |transcript| && transcript[i].role == User
    && transcript[i].content != [] && transcript[i].content[0].Text?
  }

  /** There is a cut exactly when the user typed something after the first turn and before the
      recent ones, or where those begin; and then it is the last such place. */
  lemma CutIff(transcript: seq<Turn>, keepRecent: nat)
    ensures var cut := CompactionCut(transcript, keepRecent);
            && (cut.Some? <==> exists k :: 1 <= k <= |transcript| - keepRecent && Typed(transcript, k))
            && (cut.Some? ==> 1 <= cut.value <= |transcript| - keepRecent && Typed(transcript, cut.value)
                              && forall k :: cut.value < k <= |transcript| - keepRecent ==> !Typed(transcript, k))
  {
    if |transcript| >= keepRecent {
      LastPromptIff(transcript, |transcript| - keepRecent);
      forall k: nat ensures IsPrompt(transcript, k) <==> Typed(transcript, k) {}
    }
  }

  /** Cutting where the user typed something keeps the shape the API enforces. */
  lemma CompactKeepsShape(transcript: seq<Turn>, keepRecent: nat)
    requires CompactionCut(transcript, keepRecent).Some?
    ensures var rest := Compact(transcript, CompactionCut(transcript, keepRecent).value);
            && (Paired(transcript) ==> Paired(rest))
            && (AllAnswered(transcript) ==> AllAnswered(rest))
            && keepRecent <= |rest| < |transcript|
  {
    LastPromptIff(transcript, |transcript| - keepRecent);
    var cut := CompactionCut(transcript, keepRecent).value;
    var rest := Compact(transcript, cut);
    assert forall i :: 0 <= i < |rest| ==> rest[i] == transcript[i + cut];
    if Paired(transcript) {
      forall i | 0 <= i < |rest| && IsResults(rest[i]) ensures i > 0 && Answers(rest[i - 1], rest[i]) {
        assert Answers(transcript[i + cut - 1], transcript[i + cut]);
      }
    }
    if AllAnswered(transcript) {
      forall i | 0 <= i < |rest| && rest[i].role.Assistant? && ToolUses(rest[i].content) != []
        ensures i + 1 < |rest| && Answers(rest[i], rest[i + 1])
      {
        assert Answers(transcript[i + cut], transcript[i + cut + 1]);
      }
    }
  }

  /** A cut anywhere keeps results next to their calls exactly when it does not start with results. */
  lemma OtherCutsBreak(transcript: seq<Turn>, cut: nat)
    requires Paired(transcript) && cut < |transcript|
    ensures Paired(Compact(transcript, cut)) <==> !IsResults(transcript[cut])
  {
    hide IsResults, Answers;
    var rest := Compact(transcript, cut);
    assert forall i :: 0 <= i < |rest| ==> rest[i] == transcript[i + cut];
    if !IsResults(transcript[cut]) {
      forall i | 0 <= i < |rest| && IsResults(rest[i]) ensures i > 0 && Answers(rest[i - 1], rest[i]) {
        assert Answers(transcript[i + cut - 1], transcript[i + cut]);
      }
    } else {
      assert IsResults(rest[0]);
    }
  }
}
