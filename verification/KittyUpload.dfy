/** Chunked uploads (patches/rio-vt/src/ansi/kitty_graphics_protocol.rs, `parse`).

    An image arrives in any number of commands. The first one's keys are kept, the payloads
    are appended, and the last one is answered as if everything had come at once. Uploads
    under several keys may be in flight together; a chunk without a key goes to the pinned
    one; an upload left idle is dropped. Times are in milliseconds. */
module KittyUpload {
  import opened Basics
  import opened KittyImage

  const CHUNK_STALE_TIMEOUT: nat := 10_000
  const U32_HALF: nat := 0x8000_0000
  const U32: nat := 0x1_0000_0000

  datatype State = State(incomplete: map<nat, Command>, current: nat, nextAuto: nat)

  const INITIAL := State(map[], 0, 0)

  // ---------------------------------------------------------------- one command

  /** The id an implicit transmission gets, and the counter after it (`checked_add` wraps back
      to the start of the upper half). */
  function AutoId(next: nat): nat { if next < U32_HALF then U32_HALF else next }

  function AfterAuto(next: nat): nat {
    if AutoId(next) + 1 < U32 then AutoId(next) + 1 else U32_HALF
  }

  /** Refused before it touches any state. */
  predicate Refused(cmd: Command) {
    (cmd.imageId > 0 && cmd.imageNumber > 0) || (cmd.action.Query? && cmd.imageId == 0)
  }

  function RefusalMessage(cmd: Command): string {
    if cmd.imageId > 0 && cmd.imageNumber > 0 then "EINVAL: image ID and number are mutually exclusive"
    else "EINVAL: image ID required"
  }

  predicate ExplicitKey(cmd: Command) { cmd.imageId > 0 || cmd.imageNumber > 0 }

  predicate Allocates(s: State, cmd: Command) { !ExplicitKey(cmd) && s.current == 0 }

  /** The upload a command belongs to: its own key, else the pinned one, else a fresh one. */
  function KeyOf(s: State, cmd: Command): nat {
    if cmd.imageId > 0 then cmd.imageId
    else if cmd.imageNumber > 0 then cmd.imageNumber
    else if s.current != 0 then s.current
    else AutoId(s.nextAuto)
  }

  function WithId(s: State, cmd: Command): Command {
    if Allocates(s, cmd) then cmd.(imageId := AutoId(s.nextAuto), implicitId := true) else cmd
  }

  function AfterKey(s: State, cmd: Command): State {
    if Allocates(s, cmd) then s.(nextAuto := AfterAuto(s.nextAuto)) else s
  }

  predicate Fresh(cmd: Command, now: nat) { SatSub(now, cmd.lastTouched) < CHUNK_STALE_TIMEOUT }

  /** Idle uploads are dropped; the pin goes with its upload. */
  function EvictStale(s: State, now: nat): State {
    var kept := map k | k in s.incomplete && Fresh(s.incomplete[k], now) :: s.incomplete[k];
    if |kept| < |s.incomplete| && s.current !in kept then s.(incomplete := kept, current := 0)
    else s.(incomplete := kept)
  }

  function Merge(stored: Command, chunk: Command): Command {
    stored.(payload := stored.payload + chunk.payload)
  }

  /** What a command leads to: still waiting, dropped as oversized, or ready to be answered. */
  datatype Outcome = Waiting | Dropped | Ready(cmd: Command)

  /** The clock is read when idle uploads are dropped (`now`) and again when a chunk is kept
      (`touched`). */
  function Accept(s: State, cmd: Command, now: nat, touched: nat): (State, Outcome) {
    var key, own := KeyOf(s, cmd), WithId(s, cmd);
    var e := EvictStale(AfterKey(s, cmd), now);
    if cmd.more then
      if key !in e.incomplete then
        (e.(current := key, incomplete := e.incomplete[key := own.(lastTouched := touched)]), Waiting)
      else if |e.incomplete[key].payload| + |cmd.payload| > MAX_SIZE then
        (e.(current := 0, incomplete := e.incomplete - {key}), Dropped)
      else
        (e.(current := key, incomplete := e.incomplete[key := Merge(e.incomplete[key], cmd).(lastTouched := touched)]), Waiting)
    else if key in e.incomplete then
      var s' := e.(current := 0, incomplete := e.incomplete - {key});
      if |e.incomplete[key].payload| + |cmd.payload| > MAX_SIZE then (s', Dropped)
      else (s', Ready(Merge(e.incomplete[key], cmd)))
    else (e, Ready(own))
  }

  function Next(s: State, cmd: Command, now: nat, touched: nat): State {
    if Refused(cmd) then s else Accept(s, cmd, now, touched).0
  }

  /** The answer: `None` means the command was dropped. The second clock reading does not matter. */
  function Answer(codec: Codec, s: State, cmd: Command, now: nat): Option<Response> {
    if Refused(cmd) then Some(JustReply(Failure(cmd, RefusalMessage(cmd))))
    else
      match Accept(s, cmd, now, now).1
      case Waiting => Some(PENDING_CHUNK)
      case Dropped => None
      case Ready(whole) => Some(Respond(codec, whole))
  }

  // ---------------------------------------------------------------- the object

  class KittyGraphicsState {
    var incompleteImages: map<nat, Command>
    var currentTransmissionKey: nat
    var nextAutoImageId: nat

    function View(): State
      reads this
    {
      State(incompleteImages, currentTransmissionKey, nextAutoImageId)
    }

    constructor ()
      ensures View() == INITIAL
    {
      incompleteImages, currentTransmissionKey, nextAutoImageId := map[], 0, 0;
    }

    method AllocateImageId() returns (id: nat)
      requires nextAutoImageId < U32
      modifies this`nextAutoImageId
      ensures U32_HALF <= id < U32 && id == AutoId(old(nextAutoImageId))
      ensures nextAutoImageId == AfterAuto(old(nextAutoImageId)) && nextAutoImageId < U32
    {
      if nextAutoImageId < U32_HALF {
        nextAutoImageId := U32_HALF;
      }
      id := nextAutoImageId;
      nextAutoImageId := if nextAutoImageId + 1 < U32 then nextAutoImageId + 1 else U32_HALF;
    }

    method EvictStaleChunks(now: nat)
      modifies this
      ensures View() == EvictStale(old(View()), now)
    {
      if |incompleteImages| == 0 {
        assert old(View()) == EvictStale(old(View()), now);
        return;
      }
      var before := |incompleteImages|;
      incompleteImages := map k | k in incompleteImages && Fresh(incompleteImages[k], now) :: incompleteImages[k];
      if |incompleteImages| < before {
        if currentTransmissionKey !in incompleteImages {
          currentTransmissionKey := 0;
        }
      }
    }

    /** One command, its keys parsed and payload decoded, the clock reading `now` and then `touched`. */
    method Parse(codec: Codec, command: Command, now: nat, touched: nat) returns (response: Option<Response>)
      requires nextAutoImageId < U32
      modifies this
      ensures View() == Next(old(View()), command, now, touched)
      ensures response == Answer(codec, old(View()), command, now)
      ensures nextAutoImageId < U32
    {
      hide EvictStale, Respond;
      var cmd := command;
      if cmd.imageId > 0 && cmd.imageNumber > 0 {
        return Some(JustReply(Failure(cmd, "EINVAL: image ID and number are mutually exclusive")));
      }
      if cmd.action.Query? && cmd.imageId == 0 {
        return Some(JustReply(Failure(cmd, "EINVAL: image ID required")));
      }

      var key;
      if cmd.imageId > 0 || cmd.imageNumber > 0 {
        key := if cmd.imageId > 0 then cmd.imageId else cmd.imageNumber;
      } else if currentTransmissionKey != 0 {
        key := currentTransmissionKey;
      } else {
        key := AllocateImageId();
        cmd := cmd.(imageId := key, implicitId := true);
      }
      ghost var keyed := View();
      assert keyed == AfterKey(old(View()), command) && cmd == WithId(old(View()), command);
      EvictStaleChunks(now);
      assert nextAutoImageId == keyed.nextAuto by { EvictKeepsCounter(keyed, now); }

      if cmd.more {
        currentTransmissionKey := key;
        if key !in incompleteImages {
          incompleteImages := incompleteImages[key := cmd.(lastTouched := touched)];
        } else {
          var stored := incompleteImages[key];
          if |stored.payload| + |cmd.payload| > MAX_SIZE {
            incompleteImages := incompleteImages - {key};
            currentTransmissionKey := 0;
            return None;
          }
          incompleteImages := incompleteImages[key := stored.(payload := stored.payload + cmd.payload, lastTouched := touched)];
        }
        return Some(PENDING_CHUNK);
      }
      if key in incompleteImages {
        var stored := incompleteImages[key];
        incompleteImages := incompleteImages - {key};
        currentTransmissionKey := 0;
        if |stored.payload| + |cmd.payload| > MAX_SIZE {
          return None;
        }
        cmd := stored.(payload := stored.payload + cmd.payload);
      }
      return Some(Respond(codec, cmd));
    }
  }

  lemma EvictKeepsCounter(s: State, now: nat)
    ensures EvictStale(s, now).nextAuto == s.nextAuto
  {}

  // ---------------------------------------------------------------- runs

  /** What the terminal receives: a command, or bytes that do not decode and change nothing. */
  datatype Event = Garbage | Received(cmd: Command, now: nat, touched: nat)

  function StepEvent(s: State, e: Event): State {
    if e.Garbage? then s else Next(s, e.cmd, e.now, e.touched)
  }

  function Run(s: State, es: seq<Event>): State
    decreases |es|
  {
    if es == [] then s else Run(StepEvent(s, es[0]), es[1..])
  }

  function AnswerEvent(codec: Codec, s: State, e: Event): Option<Response> {
    if e.Garbage? then None else Answer(codec, s, e.cmd, e.now)
  }

  /** The answer to the last event of a run. */
  function LastAnswer(codec: Codec, s: State, es: seq<Event>): Option<Response>
    requires es != []
  {
    AnswerEvent(codec, Run(s, es[..|es| - 1]), es[|es| - 1])
  }

  // ---------------------------------------------------------------- invariants

  /** The pin is empty or names an upload in flight; no upload has key 0. */
  predicate Valid(s: State) {
    && (s.current == 0 || s.current in s.incomplete)
    && 0 !in s.incomplete
    && s.nextAuto < U32
  }

  lemma NextValid(s: State, cmd: Command, now: nat, touched: nat)
    requires Valid(s)
    ensures Valid(Next(s, cmd, now, touched))
  {
    if !Refused(cmd) {
      var k := AfterKey(s, cmd);
      var e := EvictStale(k, now);
      assert Valid(e) by {
        if s.current != 0 && s.current !in e.incomplete {
          assert e.incomplete.Keys < s.incomplete.Keys;
          SubsetSize(e.incomplete.Keys, s.incomplete.Keys);
        }
      }
      assert KeyOf(s, cmd) != 0;
    }
  }

  lemma SubsetSize(a: set<nat>, b: set<nat>)
    requires a < b
    ensures |a| < |b|
  {
    var x :| x in b && x !in a;
    SubsetSmaller(a, b - {x});
  }

  lemma {:induction false} RunValid(s: State, es: seq<Event>)
    requires Valid(s)
    ensures Valid(Run(s, es))
    decreases |es|
  {
    if es == [] {
    } else {
      if es[0].Received? { NextValid(s, es[0].cmd, es[0].now, es[0].touched); }
      RunValid(StepEvent(s, es[0]), es[1..]);
    }
  }

  predicate WithinCap(s: State) {
    forall k :: k in s.incomplete ==> |s.incomplete[k].payload| <= MAX_SIZE
  }

  /** The event is a first chunk that alone is over the cap. */
  predicate StartsOversized(s: State, e: Event) {
    && e.Received? && !Refused(e.cmd) && e.cmd.more && |e.cmd.payload| > MAX_SIZE
    && KeyOf(s, e.cmd) !in EvictStale(AfterKey(s, e.cmd), e.now).incomplete
  }

  /** An event takes some upload past the cap exactly when it is such a first chunk; an oversized
      later chunk is dropped with its upload. */
  lemma StepWithinCapIff(s: State, e: Event)
    requires WithinCap(s)
    ensures WithinCap(StepEvent(s, e)) <==> !StartsOversized(s, e)
  {
    if e.Received? && !Refused(e.cmd) {
      var kept := EvictStale(AfterKey(s, e.cmd), e.now);
      EvictWithinCap(AfterKey(s, e.cmd), e.now);
      hide EvictStale, AfterKey;
      var key, s' := KeyOf(s, e.cmd), StepEvent(s, e);
      if e.cmd.more && key !in kept.incomplete {
        assert s'.incomplete[key].payload == e.cmd.payload;
      }
    }
  }

  lemma EvictWithinCap(s: State, now: nat)
    requires WithinCap(s)
    ensures WithinCap(EvictStale(s, now))
  {
  }

  predicate RunStartsOversized(s: State, es: seq<Event>)
    decreases |es|
  {
    es != [] && (StartsOversized(s, es[0]) || RunStartsOversized(StepEvent(s, es[0]), es[1..]))
  }

  /** Every state of a run keeps every upload within the cap if and only if no event of the run is
      a first chunk that alone is over it. */
  lemma {:induction false} RunWithinCapIff(s: State, es: seq<Event>)
    requires WithinCap(s)
    ensures (forall k :: 0 <= k <= |es| ==> WithinCap(Run(s, es[..k]))) <==> !RunStartsOversized(s, es)
    decreases |es|
  {
    hide WithinCap, StartsOversized, StepEvent;
    if es == [] {
      assert forall k :: 0 <= k <= |es| ==> es[..k] == [];
    } else {
      var s', rest := StepEvent(s, es[0]), es[1..];
      StepWithinCapIff(s, es[0]);
      forall k | 0 <= k <= |rest| ensures Run(s, es[..k + 1]) == Run(s', rest[..k]) {
        assert es[..k + 1][1..] == rest[..k];
      }
      assert es[..0] == [] && rest[..0] == [];
      if StartsOversized(s, es[0]) {
        assert !WithinCap(Run(s, es[..0 + 1]));
      } else {
        RunWithinCapIff(s', rest);
        forall k | 0 < k <= |es| ensures Run(s, es[..k]) == Run(s', rest[..k - 1]) {
          assert Run(s, es[..(k - 1) + 1]) == Run(s', rest[..k - 1]);
        }
        if !RunStartsOversized(s', rest) {
          forall k | 0 <= k <= |es| ensures WithinCap(Run(s, es[..k])) {
            if k > 0 { assert WithinCap(Run(s', rest[..k - 1])); }
          }
        } else {
          var k :| 0 <= k <= |rest| && !WithinCap(Run(s', rest[..k]));
          assert !WithinCap(Run(s, es[..k + 1]));
        }
      }
    }
  }

  /** The failing case is one command away: a single large first chunk to a fresh terminal. */
  lemma OversizedFirstChunk(cmd: Command, now: nat, touched: nat)
    requires !Refused(cmd) && cmd.more && |cmd.payload| > MAX_SIZE
    ensures !WithinCap(Run(INITIAL, [Received(cmd, now, touched)]))
  {
    var e := Received(cmd, now, touched);
    assert EvictStale(AfterKey(INITIAL, cmd), now).incomplete == map[];
    assert StartsOversized(INITIAL, e);
    hide StartsOversized, StepEvent;
    StepWithinCapIff(INITIAL, e);
    assert [e][1..] == [];
  }

  // ---------------------------------------------------------------- automatic ids

  /** The ids allocated over a run, in order. */
  function Allocated(s: State, es: seq<Event>): seq<nat>
    decreases |es|
  {
    if es == [] then []
    else
      var rest := Allocated(StepEvent(s, es[0]), es[1..]);
      if es[0].Received? && !Refused(es[0].cmd) && Allocates(s, es[0].cmd) then [AutoId(s.nextAuto)] + rest else rest
  }

  /** The `i`-th id allocated from counter `next`. */
  function IthId(next: nat, i: nat): nat {
    U32_HALF + (AutoId(next) - U32_HALF + i) % U32_HALF
  }

  lemma AfterAutoShifts(next: nat, i: nat)
    requires next < U32
    ensures IthId(AfterAuto(next), i) == IthId(next, i + 1)
    ensures IthId(next, 0) == AutoId(next)
  {
    var a := AutoId(next) - U32_HALF;
    if a + 1 == U32_HALF {
      assert a + (i + 1) == i + U32_HALF;
    }
  }

  /** Only an allocation moves the counter. */
  lemma CounterMoves(s: State, e: Event)
    requires s.nextAuto < U32
    ensures var s' := StepEvent(s, e);
            && s'.nextAuto < U32
            && s'.nextAuto == if e.Received? && !Refused(e.cmd) && Allocates(s, e.cmd) then AfterAuto(s.nextAuto) else s.nextAuto
  {
    if e.Received? { EvictKeepsCounter(AfterKey(s, e.cmd), e.now); }
    hide EvictStale, KeyOf, WithId, Merge;
  }

  /** Whatever arrives in between, the allocated ids are consecutive modulo the upper half. */
  lemma {:induction false} AllocatedIds(s: State, es: seq<Event>)
    requires s.nextAuto < U32
    ensures forall i :: 0 <= i < |Allocated(s, es)| ==> Allocated(s, es)[i] == IthId(s.nextAuto, i)
    decreases |es|
  {
    hide StepEvent, AutoId, AfterAuto, IthId, Refused, Allocates;
    if es == [] {
    } else {
      CounterMoves(s, es[0]);
      var s' := StepEvent(s, es[0]);
      AllocatedIds(s', es[1..]);
      var rest := Allocated(s', es[1..]);
      if es[0].Received? && !Refused(es[0].cmd) && Allocates(s, es[0].cmd) {
        AfterAutoShifts(s.nextAuto, 0);
        forall i | 0 < i < |rest| + 1 ensures ([AutoId(s.nextAuto)] + rest)[i] == IthId(s.nextAuto, i) {
          AfterAutoShifts(s.nextAuto, i - 1);
        }
      }
    }
  }

  lemma NearIdsDiffer(next: nat, i: nat, j: nat)
    requires next < U32 && i < j && j - i < U32_HALF
    ensures U32_HALF <= IthId(next, i) < U32 && IthId(next, i) != IthId(next, j)
  {
    var x, y := AutoId(next) - U32_HALF + i, AutoId(next) - U32_HALF + j;
    assert x == U32_HALF * (x / U32_HALF) + x % U32_HALF;
    assert y == U32_HALF * (y / U32_HALF) + y % U32_HALF;
  }

  /** Over any run, up to 2^31 consecutive automatic ids are distinct, and none can collide with
      the lower half that clients choose from. */
  lemma AllocatedDistinct(s: State, es: seq<Event>, i: nat, j: nat)
    requires s.nextAuto < U32
    requires i < j < |Allocated(s, es)| && j - i < U32_HALF
    ensures U32_HALF <= Allocated(s, es)[i] < U32
    ensures Allocated(s, es)[i] != Allocated(s, es)[j]
  {
    hide Allocated, IthId;
    AllocatedIds(s, es);
    NearIdsDiffer(s.nextAuto, i, j);
  }

  // ---------------------------------------------------------------- one upload among others

  /** The event is a chunk of upload `k`. */
  predicate Owns(s: State, e: Event, k: nat) {
    e.Received? && !Refused(e.cmd) && KeyOf(s, e.cmd) == k
  }

  /** From here on, `es` finishes upload `k`: every chunk of it but the last says more is to
      come, the total stays within the cap, and no command arrives once the upload has been
      idle for the timeout. Anything else may come in between. */
  ghost predicate Finishes(s: State, es: seq<Event>, k: nat, touched: nat, size: nat)
    decreases |es|
  {
    && es != []
    && var e := es[0];
       && (e.Received? && !Refused(e.cmd) ==> SatSub(e.now, touched) < CHUNK_STALE_TIMEOUT)
       && if Owns(s, e, k) then
            && size + |e.cmd.payload| <= MAX_SIZE
            && e.cmd.more == (|es| > 1)
            && (|es| > 1 ==> Finishes(StepEvent(s, e), es[1..], k, e.touched, size + |e.cmd.payload|))
          else |es| > 1 && Finishes(StepEvent(s, e), es[1..], k, touched, size)
  }

  /** The bytes of upload `k` in the order they arrive. */
  function PayloadOf(s: State, es: seq<Event>, k: nat): seq<Byte>
    decreases |es|
  {
    if es == [] then []
    else (if Owns(s, es[0], k) then es[0].cmd.payload else []) + PayloadOf(StepEvent(s, es[0]), es[1..], k)
  }

  /** Commands for other uploads leave upload `k` alone. */
  lemma OthersKeep(s: State, e: Event, k: nat)
    requires k in s.incomplete && !Owns(s, e, k)
    requires e.Received? && !Refused(e.cmd) ==> SatSub(e.now, s.incomplete[k].lastTouched) < CHUNK_STALE_TIMEOUT
    ensures k in StepEvent(s, e).incomplete && StepEvent(s, e).incomplete[k] == s.incomplete[k]
  {}

  lemma OwnChunkAppends(s: State, e: Event, k: nat)
    requires k in s.incomplete && Owns(s, e, k) && e.cmd.more
    requires SatSub(e.now, s.incomplete[k].lastTouched) < CHUNK_STALE_TIMEOUT
    requires |s.incomplete[k].payload| + |e.cmd.payload| <= MAX_SIZE
    ensures k in StepEvent(s, e).incomplete
    ensures StepEvent(s, e).incomplete[k] == Merge(s.incomplete[k], e.cmd).(lastTouched := e.touched)
  {}

  lemma OwnLastChunk(codec: Codec, s: State, e: Event, k: nat)
    requires k in s.incomplete && Owns(s, e, k) && !e.cmd.more
    requires SatSub(e.now, s.incomplete[k].lastTouched) < CHUNK_STALE_TIMEOUT
    requires |s.incomplete[k].payload| + |e.cmd.payload| <= MAX_SIZE
    ensures k !in StepEvent(s, e).incomplete
    ensures AnswerEvent(codec, s, e) == Some(Respond(codec, Merge(s.incomplete[k], e.cmd)))
  {
    hide Respond;
  }

  lemma LastAnswerStep(codec: Codec, s: State, es: seq<Event>)
    requires |es| > 1
    ensures LastAnswer(codec, s, es) == LastAnswer(codec, StepEvent(s, es[0]), es[1..])
  {
    hide AnswerEvent, StepEvent;
    assert es[..|es| - 1][1..] == es[1..][..|es| - 2];
  }

  lemma {:induction false} FinishesAssembles(codec: Codec, s: State, es: seq<Event>, k: nat)
    requires k in s.incomplete
    requires Finishes(s, es, k, s.incomplete[k].lastTouched, |s.incomplete[k].payload|)
    ensures k !in Run(s, es).incomplete
    ensures LastAnswer(codec, s, es)
            == Some(Respond(codec, s.incomplete[k].(payload := s.incomplete[k].payload + PayloadOf(s, es, k))))
    decreases |es|
  {
    hide Respond, StepEvent, AnswerEvent, Owns;
    var e, rest := es[0], es[1..];
    var stored, s' := s.incomplete[k], StepEvent(s, e);
    var whole := stored.payload + PayloadOf(s, es, k);
    if |es| == 1 {
      OwnsReceived(s, e, k);
      OwnLastChunk(codec, s, e, k);
      assert es[..0] == [] && rest == [];
      assert PayloadOf(s', rest, k) == [];
      assert whole == Merge(stored, e.cmd).payload;
    } else {
      LastAnswerStep(codec, s, es);
      if Owns(s, e, k) {
        OwnsReceived(s, e, k);
        OwnChunkAppends(s, e, k);
        FinishesAssembles(codec, s', rest, k);
        assert s'.incomplete[k].payload + PayloadOf(s', rest, k) == whole;
        RespondIgnoresChunking(codec, stored.(payload := whole), stored.more, e.touched);
      } else {
        OthersKeep(s, e, k);
        FinishesAssembles(codec, s', rest, k);
        assert [] + PayloadOf(s', rest, k) == PayloadOf(s', rest, k);
      }
    }
  }

  lemma OwnsReceived(s: State, e: Event, k: nat)
    requires Owns(s, e, k)
    ensures e.Received? && !Refused(e.cmd)
  {}

  /** Upload `k` begins with the first event, as a first chunk, and is finished by the rest. */
  ghost predicate Upload(s: State, es: seq<Event>, k: nat) {
    && |es| > 1
    && Owns(s, es[0], k) && es[0].cmd.more
    && k !in EvictStale(AfterKey(s, es[0].cmd), es[0].now).incomplete
    && Finishes(StepEvent(s, es[0]), es[1..], k, es[0].touched, |es[0].cmd.payload|)
  }

  /** However an upload is cut into chunks and interleaved, its last chunk is answered exactly
      as one unchunked command with the first chunk's keys and the whole payload would have
      been in the first chunk's place, and nothing of it is left behind. */
  lemma UploadAsOneCommand(codec: Codec, s: State, es: seq<Event>, k: nat)
    requires Upload(s, es, k)
    ensures k !in Run(s, es).incomplete
    ensures LastAnswer(codec, s, es)
            == Answer(codec, s, es[0].cmd.(more := false, payload := PayloadOf(s, es, k)), es[0].now)
  {
    var first, now, rest := es[0].cmd, es[0].now, es[1..];
    var whole, own := PayloadOf(s, es, k), WithId(s, first);
    FirstChunkStored(s, es[0], k);
    SingleCommand(codec, s, first, now, whole);
    hide Respond, StepEvent, AnswerEvent, Answer, EvictStale;
    FinishesAssembles(codec, StepEvent(s, es[0]), rest, k);
    LastAnswerStep(codec, s, es);
    assert whole == own.payload + PayloadOf(StepEvent(s, es[0]), rest, k);
    RespondIgnoresChunking(codec, own.(payload := whole), own.more, es[0].touched);
  }

  lemma FirstChunkStored(s: State, e: Event, k: nat)
    requires Owns(s, e, k) && e.cmd.more
    requires k !in EvictStale(AfterKey(s, e.cmd), e.now).incomplete
    ensures k in StepEvent(s, e).incomplete
    ensures StepEvent(s, e).incomplete[k] == WithId(s, e.cmd).(lastTouched := e.touched)
  {}

  /** An unchunked command with no upload under its key is answered for itself. */
  lemma SingleCommand(codec: Codec, s: State, first: Command, now: nat, whole: seq<Byte>)
    requires !Refused(first)
    requires KeyOf(s, first) !in EvictStale(AfterKey(s, first), now).incomplete
    ensures Answer(codec, s, first.(more := false, payload := whole), now)
            == Some(Respond(codec, WithId(s, first).(payload := whole)))
  {
    var single := first.(more := false, payload := whole);
    var own := WithId(s, first);
    assert WithId(s, single) == own.(more := false, payload := whole);
    assert AfterKey(s, single) == AfterKey(s, first);
    RespondIgnoresChunking(codec, own.(payload := whole), false, own.lastTouched);
    hide Respond;
  }

  // ---------------------------------------------------------------- uploads that are abandoned

  /** Upload `k` has not been touched for ten seconds. */
  predicate Idle(s: State, k: nat, now: nat) {
    k in s.incomplete && now - s.incomplete[k].lastTouched >= 10_000
  }

  lemma EvictsIdle(s: State, now: nat)
    ensures var e := EvictStale(s, now);
            && e.nextAuto == s.nextAuto
            && (forall k :: k in e.incomplete <==> k in s.incomplete && !Idle(s, k, now))
            && (forall k :: k in e.incomplete ==> e.incomplete[k] == s.incomplete[k])
            && (Idle(s, s.current, now) ==> e.current == 0)
            && (s.current in e.incomplete ==> e.current == s.current)
            && (e.current == 0 || e.current == s.current)
  {
    var e := EvictStale(s, now);
    if Idle(s, s.current, now) {
      assert e.incomplete.Keys < s.incomplete.Keys;
      SubsetSize(e.incomplete.Keys, s.incomplete.Keys);
    }
  }

  /** Every command that is not refused drops exactly the uploads that are idle, besides what it
      does to its own; and the pin goes with a dropped upload, unless the command sets its own. */
  lemma IdleUploadsAreDropped(s: State, cmd: Command, now: nat, touched: nat)
    requires !Refused(cmd)
    ensures var key, s' := KeyOf(s, cmd), Next(s, cmd, now, touched);
            && (forall k :: k != key ==> (k in s'.incomplete <==> k in s.incomplete && !Idle(s, k, now)))
            && (forall k :: k in s'.incomplete && k != key ==> s'.incomplete[k] == s.incomplete[k])
            && (s'.current == 0 || s'.current == s.current || (cmd.more && s'.current == key))
            && (Idle(s, s.current, now) ==> s'.current == 0 || (cmd.more && s'.current == key))
            && (!cmd.more && key !in s.incomplete && s.current in s.incomplete && !Idle(s, s.current, now) ==>
                  s'.current == s.current)
  {
    EvictsIdle(AfterKey(s, cmd), now);
    hide EvictStale;
  }

  /** An upload that was idle for ten seconds is begun anew, as if nothing had been sent under its
      key: a complete command is answered for itself alone, and a chunk is stored alone. */
  lemma IdleUploadRestarts(codec: Codec, s: State, cmd: Command, now: nat, touched: nat)
    requires !Refused(cmd) && (KeyOf(s, cmd) !in s.incomplete || Idle(s, KeyOf(s, cmd), now))
    ensures var key, s' := KeyOf(s, cmd), Next(s, cmd, now, touched);
            && (!cmd.more ==> Answer(codec, s, cmd, now) == Some(Respond(codec, WithId(s, cmd))) && key !in s'.incomplete)
            && (cmd.more ==>
                  && Answer(codec, s, cmd, now) == Some(PENDING_CHUNK)
                  && key in s'.incomplete && s'.incomplete[key] == WithId(s, cmd).(lastTouched := touched)
                  && s'.current == key)
  {
    hide Respond;
  }

  /** One that is not idle goes on: a chunk is appended to it, a last chunk is answered with all of
      it; and a chunk that would take it past the cap drops it without an answer. */
  lemma LiveUploadGoesOn(codec: Codec, s: State, cmd: Command, now: nat, touched: nat)
    requires !Refused(cmd) && KeyOf(s, cmd) in s.incomplete && !Idle(s, KeyOf(s, cmd), now)
    ensures var key, s' := KeyOf(s, cmd), Next(s, cmd, now, touched);
            var stored := s.incomplete[key];
            var whole := stored.(payload := stored.payload + cmd.payload);
            if |stored.payload| + |cmd.payload| > 419_430_400 then
              Answer(codec, s, cmd, now) == None && key !in s'.incomplete && s'.current == 0
            else if cmd.more then
              && Answer(codec, s, cmd, now) == Some(PENDING_CHUNK)
              && key in s'.incomplete && s'.incomplete[key] == whole.(lastTouched := touched) && s'.current == key
            else
              Answer(codec, s, cmd, now) == Some(Respond(codec, whole)) && key !in s'.incomplete && s'.current == 0
  {
    hide Respond;
  }

  /** Which upload a command belongs to, and under which id it is answered: the one it names; else
      the one the last chunk went to; else a new one, under an id of the terminal's own. */
  lemma WhichUpload(s: State, cmd: Command)
    requires !Refused(cmd)
    ensures cmd.imageId > 0 ==> KeyOf(s, cmd) == cmd.imageId && WithId(s, cmd) == cmd
    ensures cmd.imageNumber > 0 ==> KeyOf(s, cmd) == cmd.imageNumber && WithId(s, cmd) == cmd
    ensures cmd.imageId == 0 && cmd.imageNumber == 0 && s.current != 0 ==> KeyOf(s, cmd) == s.current && WithId(s, cmd) == cmd
    ensures cmd.imageId == 0 && cmd.imageNumber == 0 && s.current == 0 ==>
              && KeyOf(s, cmd) == (if s.nextAuto < 0x8000_0000 then 0x8000_0000 else s.nextAuto)
              && WithId(s, cmd) == cmd.(imageId := KeyOf(s, cmd), implicitId := true)
  {
  }

  /** A command that names an image twice, or asks about none, changes nothing and is told so unless
      it wants no failures or names nothing to answer to. */
  lemma RefusedChangesNothing(codec: Codec, s: State, cmd: Command, now: nat, touched: nat)
    requires (cmd.imageId > 0 && cmd.imageNumber > 0) || (cmd.action.Query? && cmd.imageId == 0)
    ensures Next(s, cmd, now, touched) == s
    ensures var answer := Answer(codec, s, cmd, now);
            && answer.Some? && answer.value == Response(None, None, None, answer.value.reply, None, false)
            && (answer.value.reply.Some? <==> Heard(cmd, true))
            && (answer.value.reply.Some? ==>
                  answer.value.reply.value.message
                  == if cmd.imageId > 0 then "EINVAL: image ID and number are mutually exclusive" else "EINVAL: image ID required")
  {
  }
}
