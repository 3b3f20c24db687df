/** A background job's output (crates/mc-sandbox/src/jobs.rs).

    Reads of a job's streams land anywhere, so `Pump` carries unfinished characters from one
    read to the next. The decoded text goes to a buffer of bounded size with a read cursor,
    which stands for an unbounded log: what it holds is the end of everything printed. */
module JobOutput {
  import opened Basics
  import opened Utf8

  const MAX_BUFFER: nat := 256 * 1024

  // ---------------------------------------------------------------- the buffer

  datatype Buf = Buf(text: Bytes, cursor: nat, dropped: nat)

  /** The first character boundary from `i` on. */
  function BoundaryFrom(text: Bytes, i: nat): (r: nat)
    requires i <= |text|
    ensures i <= r <= |text| && Boundary(text, r)
    ensures forall k :: i <= k < r ==> !Boundary(text, k)
    decreases |text| - i
  {
    if Boundary(text, i) then i else BoundaryFrom(text, i + 1)
  }

  function Append(b: Buf, chunk: Bytes): Buf {
    var text := b.text + chunk;
    if |text| <= MAX_BUFFER then b.(text := text)
    else
      var cut := BoundaryFrom(text, |text| - MAX_BUFFER);
      Buf(text[cut..], SatSub(b.cursor, cut), b.dropped + cut)
  }

  /** The buffer holds the end of `log`; everything before `lastRead` has been read. */
  predicate Shows(b: Buf, log: Bytes, lastRead: nat) {
    && lastRead <= |log| && b.dropped <= |log|
    && Valid(log) && b.text == log[b.dropped..] && Valid(b.text)
    && b.cursor <= |b.text| && Boundary(b.text, b.cursor)
    && b.dropped + b.cursor == Max(lastRead, b.dropped)
  }

  /** And it is within its limit, nearly full once anything was dropped. */
  predicate Refines(b: Buf, log: Bytes, lastRead: nat) {
    && Shows(b, log, lastRead)
    && |b.text| <= MAX_BUFFER && (b.dropped > 0 ==> |b.text| >= MAX_BUFFER - 3)
  }

  class Buffer {
    var text: Bytes
    var cursor: nat
    var dropped: nat
    /** Everything ever appended, and how much of it a reader has asked for. */
    ghost var log: Bytes
    ghost var lastRead: nat

    function View(): Buf
      reads this
    {
      Buf(text, cursor, dropped)
    }

    ghost predicate Good()
      reads this
    {
      Refines(View(), log, lastRead)
    }

    constructor ()
      ensures Good() && log == [] && lastRead == 0 && View() == Buf([], 0, 0)
    {
      text, cursor, dropped := [], 0, 0;
      log, lastRead := [], 0;
    }

    method Push(chunk: Bytes)
      requires Good() && Valid(chunk)
      modifies this
      ensures Good() && log == old(log) + chunk && lastRead == old(lastRead)
      ensures View() == Append(old(View()), chunk)
    {
      hide Refines, Valid, Boundary;
      ghost var before := View();
      RefinesCursor(before, log, lastRead);
      AppendRefines(before, log, lastRead, chunk);
      log := log + chunk;
      text := text + chunk;
      if |text| <= MAX_BUFFER {
        return;
      }
      var cut := |text| - MAX_BUFFER;
      while cut < |text| && !Boundary(text, cut)
        invariant |text| - MAX_BUFFER <= cut <= |text|
        invariant BoundaryFrom(text, cut) == BoundaryFrom(text, |text| - MAX_BUFFER)
      {
        cut := cut + 1;
      }
      EndIsBoundary(text);
      text := text[cut..];
      dropped := dropped + cut;
      cursor := SatSub(cursor, cut);
    }

    method TakeUnread() returns (out: Bytes)
      requires Good()
      modifies this
      ensures Good() && log == old(log) && lastRead == |log| && dropped == old(dropped) && text == old(text)
      ensures out == log[Max(old(lastRead), dropped)..] && Valid(out)
    {
      TakeRefines(View(), log, lastRead);
      out := text[cursor..];
      cursor := |text|;
      lastRead := |log|;
    }

    method Unread() returns (n: nat)
      requires Good()
      ensures n == |log| - Max(lastRead, dropped)
    {
      n := |text| - cursor;
    }
  }

  lemma RefinesCursor(b: Buf, log: Bytes, lastRead: nat)
    requires Refines(b, log, lastRead)
    ensures b.cursor <= |b.text|
  {
  }

  lemma EndIsBoundary(text: Bytes)
    ensures Boundary(text, |text|)
  {
  }

  // ---------------------------------------------------------------- it stands for the log

  /** Trimming on a boundary keeps at least all but three bytes of the limit. */
  lemma TrimKeeps(text: Bytes)
    requires Valid(text) && |text| > MAX_BUFFER
    ensures var cut := BoundaryFrom(text, |text| - MAX_BUFFER);
            && MAX_BUFFER - 3 <= |text[cut..]| <= MAX_BUFFER
            && Valid(text[cut..])
  {
    hide Valid, Boundary;
    var from := |text| - MAX_BUFFER;
    BoundaryIsNear(text, from);
    var j :| from <= j <= from + 3 && j <= |text| && Boundary(text, j);
    BoundaryCuts(text, BoundaryFrom(text, from));
  }

  lemma BoundaryBefore(a: Bytes, b: Bytes, i: nat)
    requires i <= |a| && Boundary(a, i) && Valid(b)
    ensures Boundary(a + b, i)
  {
    if i == |a| && b != [] {
      StartsText(b);
      assert (a + b)[i] == b[0];
    }
  }

  lemma StartsText(b: Bytes)
    requires Valid(b) && b != []
    ensures !Tail(b[0])
  {
    ValidTail(b);
  }

  lemma BoundaryAfter(text: Bytes, cut: nat, i: nat)
    requires cut <= i <= |text| && Boundary(text, i)
    ensures Boundary(text[cut..], i - cut)
  {
  }

  lemma DropDrop(s: Bytes, i: nat, j: nat)
    requires i + j <= |s|
    ensures s[i..][j..] == s[i + j..]
  {
  }

  lemma Assoc(a: Bytes, b: Bytes, c: Bytes)
    ensures a + (b + c) == a + b + c
  {
  }

  lemma Rejoin(s: Bytes, i: nat)
    requires i <= |s|
    ensures s[..i] + s[i..] == s
  {
  }

  lemma AppendRefines(b: Buf, log: Bytes, lastRead: nat, chunk: Bytes)
    requires Refines(b, log, lastRead) && Valid(chunk)
    ensures Refines(Append(b, chunk), log + chunk, lastRead)
  {
    hide Valid, Boundary, Shows;
    var grown := b.(text := b.text + chunk);
    GrownShows(b, log, lastRead, chunk);
    if |grown.text| > MAX_BUFFER { TrimRefines(grown, log + chunk, lastRead); }
  }

  lemma GrownShows(b: Buf, log: Bytes, lastRead: nat, chunk: Bytes)
    requires Shows(b, log, lastRead) && Valid(chunk)
    ensures Shows(b.(text := b.text + chunk), log + chunk, lastRead) && Valid(b.text + chunk)
  {
    hide Valid, Boundary;
    ValidConcat(log, chunk);
    ValidConcat(b.text, chunk);
    BoundaryBefore(b.text, chunk, b.cursor);
    DropOfConcat(log, chunk, b.dropped);
  }

  /** Dropping up to a boundary moves the cursor along, or to the new start. */
  lemma DroppedShows(b: Buf, log: Bytes, lastRead: nat, cut: nat)
    requires Shows(b, log, lastRead) && cut <= |b.text| && Valid(b.text[cut..])
    ensures Shows(Buf(b.text[cut..], SatSub(b.cursor, cut), b.dropped + cut), log, lastRead)
  {
    hide Valid, Boundary;
    DropDrop(log, b.dropped, cut);
    if cut <= b.cursor {
      BoundaryAfter(b.text, cut, b.cursor);
    } else {
      StartIsBoundary(b.text[cut..]);
    }
  }

  lemma TrimRefines(b: Buf, log: Bytes, lastRead: nat)
    requires Shows(b, log, lastRead) && Valid(b.text) && |b.text| > MAX_BUFFER
    ensures var cut := BoundaryFrom(b.text, |b.text| - MAX_BUFFER);
            Refines(Buf(b.text[cut..], SatSub(b.cursor, cut), b.dropped + cut), log, lastRead)
  {
    hide Valid, Boundary, BoundaryFrom, Shows;
    TrimKeeps(b.text);
    DroppedShows(b, log, lastRead, BoundaryFrom(b.text, |b.text| - MAX_BUFFER));
  }

  lemma StartIsBoundary(text: Bytes)
    ensures Boundary(text, 0)
  {
  }

  lemma TakeRefines(b: Buf, log: Bytes, lastRead: nat)
    requires Refines(b, log, lastRead)
    ensures Refines(b.(cursor := |b.text|), log, |log|)
    ensures b.text[b.cursor..] == log[Max(lastRead, b.dropped)..] && Valid(b.text[b.cursor..])
  {
    hide Valid;
    BoundaryCuts(b.text, b.cursor);
  }

  // ---------------------------------------------------------------- runs of reads and writes

  datatype Op = Print(chunk: Bytes) | Read

  /** One read: the bytes of the log it returned, and how many had been dropped by then. */
  datatype Slice = Slice(from: nat, to: nat, dropped: nat, out: Bytes)

  datatype History = History(buf: Buf, log: Bytes, slices: seq<Slice>)

  function LastTo(slices: seq<Slice>): nat { if slices == [] then 0 else slices[|slices| - 1].to }

  predicate PrintsText(ops: seq<Op>) { forall i :: 0 <= i < |ops| && ops[i].Print? ==> Valid(ops[i].chunk) }

  function OpStep(h: History, op: Op): History {
    match op
    case Print(chunk) => h.(buf := Append(h.buf, chunk), log := h.log + chunk)
    case Read =>
      var b := h.buf;
      if b.cursor > |b.text| then h
      else History(b.(cursor := |b.text|), h.log, h.slices + [NextSlice(b)])
  }

  function RunOps(ops: seq<Op>): History {
    if ops == [] then History(Buf([], 0, 0), [], []) else OpStep(RunOps(ops[..|ops| - 1]), ops[|ops| - 1])
  }

  /** Each read returns exactly the log from where the last one ended, or from where dropping
      ended if that is later, up to the end of the log then. */
  predicate InOrder(log: Bytes, slices: seq<Slice>) {
    forall i :: 0 <= i < |slices| ==> IsSlice(log, slices[i], LastTo(slices[..i]))
  }

  predicate IsSlice(log: Bytes, s: Slice, previous: nat) {
    && previous <= s.from <= s.to <= |log| && s.out == log[s.from..s.to] && Valid(s.out)
    && s.from == Max(previous, s.dropped)
  }

  lemma {:induction false} StillInOrder(log: Bytes, slices: seq<Slice>, chunk: Bytes)
    requires InOrder(log, slices)
    ensures InOrder(log + chunk, slices)
  {
    hide Valid;
    forall i | 0 <= i < |slices| ensures IsSlice(log + chunk, slices[i], LastTo(slices[..i])) {
      var s := slices[i];
      assert IsSlice(log, s, LastTo(slices[..i]));
      assert (log + chunk)[s.from..s.to] == log[s.from..s.to];
    }
  }

  /** In every run of appends and reads the buffer stands for the log, and the reads return
      disjoint slices of it, in order, with gaps only where bytes were dropped unread. */
  lemma {:induction false} RunReadsLog(ops: seq<Op>)
    requires PrintsText(ops)
    ensures var h := RunOps(ops);
            && Refines(h.buf, h.log, LastTo(h.slices))
            && InOrder(h.log, h.slices)
  {
    if ops == [] {
    } else {
      var before := RunOps(ops[..|ops| - 1]);
      RunReadsLog(ops[..|ops| - 1]);
      match ops[|ops| - 1]
      case Print(chunk) =>
        hide Refines, Valid, Append;
        AppendRefines(before.buf, before.log, LastTo(before.slices), chunk);
        StillInOrder(before.log, before.slices, chunk);
      case Read =>
        hide Valid;
        ReadRefines(before);
    }
  }

  lemma OneMoreSlice(log: Bytes, slices: seq<Slice>, s: Slice)
    requires InOrder(log, slices) && IsSlice(log, s, LastTo(slices))
    ensures InOrder(log, slices + [s])
  {
    hide IsSlice, LastTo;
    var all := slices + [s];
    forall i | 0 <= i < |all| ensures IsSlice(log, all[i], LastTo(all[..i])) {
      if i < |slices| { assert all[..i] == slices[..i]; } else { assert all[..i] == slices; }
    }
  }

  /** The slice the next read returns. */
  function NextSlice(b: Buf): Slice
    requires b.cursor <= |b.text|
  {
    Slice(b.dropped + b.cursor, b.dropped + |b.text|, b.dropped, b.text[b.cursor..])
  }

  lemma NextIsSlice(b: Buf, log: Bytes, lastRead: nat)
    requires Refines(b, log, lastRead)
    ensures b.cursor <= |b.text| && NextSlice(b).to == |log|
    ensures IsSlice(log, NextSlice(b), lastRead)
    ensures Refines(b.(cursor := |b.text|), log, |log|)
  {
    hide Valid, Boundary;
    TakeRefines(b, log, lastRead);
    WholeRest(log, NextSlice(b).from);
  }

  lemma ReadRefines(h: History)
    requires Refines(h.buf, h.log, LastTo(h.slices)) && InOrder(h.log, h.slices)
    ensures var after := OpStep(h, Read);
            Refines(after.buf, after.log, LastTo(after.slices)) && InOrder(after.log, after.slices)
  {
    hide Refines, IsSlice, InOrder, LastTo;
    NextIsSlice(h.buf, h.log, LastTo(h.slices));
    OneMoreSlice(h.log, h.slices, NextSlice(h.buf));
    LastIsNew(h.slices, NextSlice(h.buf));
  }

  lemma WholeRest(log: Bytes, from: nat)
    requires from <= |log|
    ensures log[from..|log|] == log[from..]
  {
  }

  lemma LastIsNew(slices: seq<Slice>, s: Slice)
    ensures LastTo(slices + [s]) == s.to
  {
  }

  // ---------------------------------------------------------------- the pump

  /** The text one read completes, and what it leaves unfinished. */
  function Decode(pending: Bytes): (Bytes, Bytes) {
    var good := ValidUpTo(pending);
    var rest := pending[good..];
    (pending[..good], if |rest| > 4 then [] else rest)
  }

  /** The reads before the stream ends. */
  function UntilEnd(chunks: seq<Bytes>): seq<Bytes> {
    if chunks == [] || chunks[0] == [] then [] else [chunks[0]] + UntilEnd(chunks[1..])
  }

  /** What is pushed into the buffer. */
  function Pushes(pending: Bytes, chunks: seq<Bytes>): seq<Bytes>
    decreases |chunks|
  {
    if chunks == [] then []
    else
      var (text, rest) := Decode(pending + chunks[0]);
      (if text == [] then [] else [text]) + Pushes(rest, chunks[1..])
  }

  /** What is carried after each read, before it is looked at. */
  function Carried(pending: Bytes, chunks: seq<Bytes>): seq<Bytes>
    decreases |chunks|
  {
    if chunks == [] then []
    else
      var p := pending + chunks[0];
      [p[ValidUpTo(p)..]] + Carried(Decode(p).1, chunks[1..])
  }

  method Pump(chunks: seq<Bytes>, buffer: Buffer)
    requires buffer.Good()
    modifies buffer
    ensures buffer.Good() && buffer.lastRead == old(buffer.lastRead)
    ensures buffer.log == old(buffer.log) + Concat(Pushes([], UntilEnd(chunks)))
  {
    hide Refines, Valid, ValidUpTo, Append, UntilEnd, Pushes, Concat;
    var pending: Bytes := [];
    var i := 0;
    assert chunks[0..] == chunks;
    while i < |chunks|
      invariant 0 <= i <= |chunks| && buffer.Good() && buffer.lastRead == old(buffer.lastRead)
      invariant buffer.log + Concat(Pushes(pending, UntilEnd(chunks[i..])))
             == old(buffer.log) + Concat(Pushes([], UntilEnd(chunks)))
    {
      var read := chunks[i];
      NextRead(chunks, i);
      if read == [] {
        break;
      }
      PushesStep(pending, read, UntilEnd(chunks[i + 1..]), buffer.log);
      pending := pending + read;
      var text: Bytes;
      var good := ValidUpTo(pending);
      DecodedIsText(pending);
      text := pending[..good];
      pending := pending[good..];
      if |pending| > 4 {
        pending := [];
      }
      i := i + 1;
      if text == [] {
        continue;
      }
      buffer.Push(text);
    }
    NothingPushed(chunks, i, pending, buffer.log);
  }

  lemma NextRead(chunks: seq<Bytes>, i: nat)
    requires i < |chunks|
    ensures UntilEnd(chunks[i..]) == if chunks[i] == [] then [] else [chunks[i]] + UntilEnd(chunks[i + 1..])
  {
    assert chunks[i..][1..] == chunks[i + 1..];
  }

  lemma NothingPushed(chunks: seq<Bytes>, i: nat, pending: Bytes, log: Bytes)
    requires i == |chunks| || (i < |chunks| && chunks[i] == [])
    ensures log + Concat(Pushes(pending, UntilEnd(chunks[i..]))) == log
  {
    if i < |chunks| { NextRead(chunks, i); }
  }

  lemma PushesStep(pending: Bytes, read: Bytes, later: seq<Bytes>, log: Bytes)
    ensures var (text, rest) := Decode(pending + read);
            log + Concat(Pushes(pending, [read] + later)) == log + text + Concat(Pushes(rest, later))
  {
    hide Decode;
    var (text, rest) := Decode(pending + read);
    assert ([read] + later)[1..] == later;
    var pushes := Pushes(rest, later);
    if text == [] {
      assert [] + pushes == pushes && log + text == log;
    } else {
      assert ([text] + pushes)[1..] == pushes;
    }
  }

  lemma {:induction false} DecodedIsText(pending: Bytes)
    ensures Valid(pending[..ValidUpTo(pending)])
    decreases |pending|
  {
    hide FirstChar;
    var n := FirstChar(pending);
    if n == 0 {
      NothingValid(pending);
    } else {
      DecodedIsText(pending[n..]);
      PrefixValid(pending, ValidUpTo(pending[n..]));
    }
  }

  /** Whatever the bytes are, every push is whole characters. */
  lemma {:induction false} PushesAreWhole(pending: Bytes, chunks: seq<Bytes>)
    ensures forall t :: t in Pushes(pending, chunks) ==> t != [] && Valid(t)
    decreases |chunks|
  {
    if chunks == [] {
    } else {
      hide Valid, ValidUpTo;
      DecodedIsText(pending + chunks[0]);
      PushesAreWhole(Decode(pending + chunks[0]).1, chunks[1..]);
    }
  }

  /** The first of several reads of a well-formed stream. */
  lemma FirstRead(pending: Bytes, chunks: seq<Bytes>)
    requires chunks != [] && Valid(pending + Concat(chunks))
    ensures var p := pending + chunks[0];
            var rest := p[ValidUpTo(p)..];
            && Decode(p) == (p[..ValidUpTo(p)], rest)
            && Unfinished(rest) && |rest| <= 3 && Valid(rest + Concat(chunks[1..]))
            && p[..ValidUpTo(p)] + (rest + Concat(chunks[1..])) == pending + Concat(chunks)
  {
    hide Unfinished, Valid, ValidUpTo;
    var p, later := pending + chunks[0], Concat(chunks[1..]);
    Assoc(pending, chunks[0], later);
    CutAnywhere(p, later);
    UnfinishedShort(p[ValidUpTo(p)..]);
    Rejoin(p, ValidUpTo(p));
    Assoc(p[..ValidUpTo(p)], p[ValidUpTo(p)..], later);
  }

  /** For a well-formed stream, however it is cut into reads: what is carried is always an
      unfinished character, so nothing is ever discarded. */
  lemma {:induction false} NothingDiscarded(pending: Bytes, chunks: seq<Bytes>)
    requires Valid(pending + Concat(chunks))
    ensures forall c :: c in Carried(pending, chunks) ==> Unfinished(c) && |c| <= 3
    decreases |chunks|
  {
    if chunks == [] {
    } else {
      hide Unfinished, Valid, ValidUpTo, Decode;
      FirstRead(pending, chunks);
      NothingDiscarded(Decode(pending + chunks[0]).1, chunks[1..]);
    }
  }

  /** For a well-formed stream, however it is cut, the pushes together are the stream. */
  lemma {:induction false} PumpDelivers(pending: Bytes, chunks: seq<Bytes>)
    requires Valid(pending + Concat(chunks)) && Unfinished(pending)
    ensures Concat(Pushes(pending, chunks)) == pending + Concat(chunks)
    decreases |chunks|
  {
    hide Unfinished, Valid, ValidUpTo, Decode;
    if chunks == [] {
      assert pending + [] == pending;
      UnfinishedShort(pending);
    } else {
      var (text, rest) := Decode(pending + chunks[0]);
      FirstRead(pending, chunks);
      PumpDelivers(rest, chunks[1..]);
      PushesCons(pending, chunks);
    }
  }

  lemma PushesCons(pending: Bytes, chunks: seq<Bytes>)
    requires chunks != []
    ensures var (text, rest) := Decode(pending + chunks[0]);
            Concat(Pushes(pending, chunks)) == text + Concat(Pushes(rest, chunks[1..]))
  {
    hide Decode;
    var (text, rest) := Decode(pending + chunks[0]);
    PushesStep(pending, chunks[0], chunks[1..], []);
    assert [chunks[0]] + chunks[1..] == chunks;
    assert [] + Concat(Pushes(pending, chunks)) == Concat(Pushes(pending, chunks));
    assert [] + text == text;
  }

  lemma {:induction false} PushesAreText(pending: Bytes, chunks: seq<Bytes>)
    ensures Valid(Concat(Pushes(pending, chunks)))
    decreases |chunks|
  {
    hide Valid, ValidUpTo;
    if chunks == [] {
      EmptyIsText();
    } else {
      var (text, rest) := Decode(pending + chunks[0]);
      PushesAreText(rest, chunks[1..]);
      DecodedIsText(pending + chunks[0]);
      ValidConcat(text, Concat(Pushes(rest, chunks[1..])));
      PushesCons(pending, chunks);
    }
  }

  lemma EmptyIsText()
    ensures Valid([]) && Unfinished([])
  {
    assert IsChar([0]) && [] <= [0];
  }

  /** The buffer gets exactly what the job printed if and only if what it printed is UTF-8. */
  lemma PumpFaithfulIff(chunks: seq<Bytes>)
    ensures Concat(Pushes([], chunks)) == Concat(chunks) <==> Valid(Concat(chunks))
  {
    hide Unfinished, Valid, Decode;
    EmptyIsText();
    assert [] + Concat(chunks) == Concat(chunks);
    PushesAreText([], chunks);
    if Valid(Concat(chunks)) { PumpDelivers([], chunks); }
  }

  /** A stream ends at its first empty read. */
  lemma {:induction false} ReadsUntilEnd(chunks: seq<Bytes>, later: seq<Bytes>)
    requires forall i :: 0 <= i < |chunks| ==> chunks[i] != []
    ensures UntilEnd(chunks) == chunks && UntilEnd(chunks + [[]] + later) == chunks
    decreases |chunks|
  {
    if chunks == [] {
    } else {
      ReadsUntilEnd(chunks[1..], later);
      assert (chunks + [[]] + later)[1..] == chunks[1..] + [[]] + later;
    }
  }

  lemma {:induction false} LongestValid(s: Bytes, n: nat)
    requires n <= |s| && Valid(s[..n])
    ensures n <= ValidUpTo(s)
    decreases n
  {
    if n == 0 {
    } else {
      hide FirstChar;
      ValidTail(s[..n]);
      var k := FirstChar(s[..n]);
      assert s[..n] + s[n..] == s;
      LongerFirst(s[..n], s[n..]);
      assert s[..n][k..] == s[k..][..n - k];
      LongestValid(s[k..], n - k);
    }
  }

  /** What one read yields, valid or not: the longest part that is text is pushed, and the rest
      waits, unless it is longer than any character and so can never become text. */
  lemma OneRead(pending: Bytes, n: nat)
    requires n <= |pending|
    ensures var (text, waiting) := Decode(pending);
            && text <= pending && Valid(text) && (Valid(pending[..n]) ==> n <= |text|)
            && |waiting| <= 4
            && (|pending| <= |text| + 4 ==> text + waiting == pending)
            && (|pending| > |text| + 4 ==> waiting == [])
  {
    hide Valid, ValidUpTo;
    DecodedIsText(pending);
    if Valid(pending[..n]) { LongestValid(pending, n); }
    Rejoin(pending, ValidUpTo(pending));
  }
}
