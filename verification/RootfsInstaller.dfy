/** Installing the root filesystem so that a crash never leaves half of one that looks whole
    (crates/mc-sandbox/src/rootfs.rs).

    The installer is a sequence of file-system effects, any of which can be the last one before
    the process dies. `Do` is one effect, `Crash` may come between any two, and a relaunch
    starts again from whatever is on disk. The network, the hash, the tar reader and the
    failures of single effects are inputs. */
module RootfsInstaller {
  import opened Basics

  type Bytes = seq<Byte>
  type Tree = map<string, Bytes>

  const MARKER := ".mc-rootfs"

  datatype Entry = Entry(path: string, content: Bytes)

  datatype Spec = Spec(url: string, sha: Option<string>, hash: Bytes -> string, entries: Bytes -> seq<Entry>,
                       encode: string -> Bytes)

  datatype Disk = Disk(archive: Option<Bytes>, staging: Option<Tree>, dest: Option<Tree>)

  function MarkerText(spec: Spec): string {
    spec.url + "\n" + (if spec.sha.Some? then spec.sha.value else "no-checksum") + "\n"
  }

  function Marker(spec: Spec): Bytes { spec.encode(MarkerText(spec)) }

  predicate IsReady(spec: Spec, dest: Option<Tree>) {
    dest.Some? && MARKER in dest.value && dest.value[MARKER] == Marker(spec)
  }

  predicate Pinned(spec: Spec, archive: Bytes) {
    spec.sha.None? || Lower(spec.hash(archive)) == Lower(spec.sha.value)
  }

  // ---------------------------------------------------------------- unpacking

  /** An entry unpacks, or fails and is passed over, perhaps after writing part of its file. */
  datatype Outcome = Unpacked | Skipped(partial: Option<Bytes>)

  function Put(t: Tree, e: Entry, o: Outcome): Tree {
    match o
    case Unpacked => t[e.path := e.content]
    case Skipped(partial) => if partial.Some? then t[e.path := partial.value] else t
  }

  function Unpack(t: Tree, entries: seq<Entry>, outcomes: seq<Outcome>): Tree
    requires |outcomes| <= |entries|
  {
    if outcomes == [] then t
    else
      var n := |outcomes| - 1;
      Put(Unpack(t, entries, outcomes[..n]), entries[n], outcomes[n])
  }

  /** The tree an archive holds. */
  function TreeOf(entries: seq<Entry>): Tree {
    if entries == [] then map[]
    else
      var last := entries[|entries| - 1];
      TreeOf(entries[..|entries| - 1])[last.path := last.content]
  }

  // ---------------------------------------------------------------- the effects

  /** What an installation was made from: what was left in the scratch directory, the archive,
      and how each of its entries fared so far. */
  datatype Install = Install(left: Tree, archive: Bytes, outcomes: seq<Outcome>)

  datatype Pc =
    | Idle
    | AtRequest
    | AtOpen(resuming: bool)
    | Receiving
    | AtVerify
    | AtClearStaging(archive: Bytes)
    | Unpacking(install: Install)
    | AtClearDest(install: Install)
    | AtRename(install: Install)
    | AtMarker(install: Install)
    | AtCleanup

  /** `made` remembers the installation that was last put in place; the program never reads it. */
  datatype State = State(disk: Disk, pc: Pc, made: Option<Install>)

  datatype Event =
    | Crash
    | Launch
    | Respond(partialContent: bool)
    | DropStale
    | Open
    | Receive(chunk: Bytes)
    | EndOfStream
    | Verify(removed: bool)
    | ClearSome(kept: set<string>)
    | MakeStaging
    | TornEntry(partial: Bytes)
    | UnpackEntry(outcome: Outcome)
    | EndOfArchive
    | EndOfClear
    | Rename
    | WriteMarker(upTo: nat)
    | Cleanup(removed: bool)

  /** What a directory holds; a missing one holds nothing. */
  function Contents(t: Option<Tree>): Tree { if t.Some? then t.value else map[] }

  /** Part of a tree, as a removal that was interrupted or failed leaves it. */
  function Keep(t: Tree, kept: set<string>): Tree { map p | p in t && p in kept :: t[p] }

  /** Whether the current place in the program does this next. A failing effect that the source
      reports ends the run, which is a `Crash` here. */
  predicate Enabled(spec: Spec, s: State, e: Event) {
    match e
    case Crash => true
    case Launch => s.pc.Idle?
    case Respond(_) => s.pc.AtRequest?
    case DropStale => s.pc.AtOpen? && !s.pc.resuming
    case Open => s.pc.AtOpen?
    case Receive(_) => s.pc.Receiving? && s.disk.archive.Some?
    case EndOfStream => s.pc.Receiving?
    case Verify(_) => s.pc.AtVerify? && s.disk.archive.Some?
    case ClearSome(_) => s.pc.AtClearStaging? || s.pc.AtClearDest?
    case MakeStaging => s.pc.AtClearStaging?
    case TornEntry(_) => s.pc.Unpacking? && |s.pc.install.outcomes| < |spec.entries(s.pc.install.archive)|
    case UnpackEntry(_) => s.pc.Unpacking? && |s.pc.install.outcomes| < |spec.entries(s.pc.install.archive)|
    case EndOfArchive => s.pc.Unpacking? && |s.pc.install.outcomes| == |spec.entries(s.pc.install.archive)|
    case EndOfClear => s.pc.AtClearDest?
    case Rename => s.pc.AtRename? && Contents(s.disk.dest) == map[]
    case WriteMarker(n) => s.pc.AtMarker? && s.disk.dest.Some? && n <= |Marker(spec)|
    case Cleanup(_) => s.pc.AtCleanup?
  }

  function Do(spec: Spec, s: State, e: Event): State
    requires Enabled(spec, s, e)
  {
    var d := s.disk;
    match e
    case Crash => s.(pc := Idle)
    case Launch => if IsReady(spec, d.dest) then s else s.(pc := AtRequest)
    case Respond(partialContent) =>
      s.(pc := AtOpen(d.archive.Some? && |d.archive.value| > 0 && partialContent))
    case DropStale => s.(disk := d.(archive := None))
    case Open =>
      s.(disk := d.(archive := if s.pc.resuming && d.archive.Some? then d.archive else Some([])), pc := Receiving)
    case Receive(chunk) => s.(disk := d.(archive := Some(d.archive.value + chunk)))
    case EndOfStream => s.(pc := AtVerify)
    case Verify(removed) =>
      if Pinned(spec, d.archive.value) then s.(pc := AtClearStaging(d.archive.value))
      else s.(disk := if removed then d.(archive := None) else d, pc := Idle)
    case ClearSome(kept) =>
      if s.pc.AtClearStaging? then s.(disk := d.(staging := Some(Keep(Contents(d.staging), kept))))
      else s.(disk := d.(dest := if d.dest.Some? then Some(Keep(d.dest.value, kept)) else None))
    case MakeStaging =>
      s.(disk := d.(staging := Some(Contents(d.staging))), pc := Unpacking(Install(Contents(d.staging), s.pc.archive, [])))
    case TornEntry(partial) =>
      var next := spec.entries(s.pc.install.archive)[|s.pc.install.outcomes|];
      s.(disk := d.(staging := Some(Contents(d.staging)[next.path := partial])), pc := Idle)
    case UnpackEntry(outcome) =>
      var i := s.pc.install;
      var next := spec.entries(i.archive)[|i.outcomes|];
      s.(disk := d.(staging := Some(Put(Contents(d.staging), next, outcome))),
         pc := Unpacking(i.(outcomes := i.outcomes + [outcome])))
    case EndOfArchive => s.(pc := AtClearDest(s.pc.install))
    case EndOfClear => s.(pc := AtRename(s.pc.install))
    case Rename =>
      State(d.(staging := None, dest := d.staging), AtMarker(s.pc.install), Some(s.pc.install))
    case WriteMarker(n) =>
      s.(disk := d.(dest := Some(d.dest.value[MARKER := Marker(spec)[..n]])),
         pc := if n == |Marker(spec)| then AtCleanup else s.pc)
    case Cleanup(removed) => s.(disk := if removed then d.(archive := None) else d, pc := Idle)
  }

  function RunFrom(spec: Spec, s: State, es: seq<Event>): Option<State> {
    if es == [] then Some(s)
    else
      var before := RunFrom(spec, s, es[..|es| - 1]);
      if before.Some? && Enabled(spec, before.value, es[|es| - 1]) then Some(Do(spec, before.value, es[|es| - 1])) else None
  }

  // ---------------------------------------------------------------- what a ready directory is

  function Built(spec: Spec, i: Install): Tree
    requires |i.outcomes| <= |spec.entries(i.archive)|
  {
    Unpack(i.left, spec.entries(i.archive), i.outcomes)
  }

  /** An installation from an archive with the pinned checksum, every entry tried. */
  predicate Tried(spec: Spec, i: Install) {
    Pinned(spec, i.archive) && |i.outcomes| == |spec.entries(i.archive)|
  }

  /** Nothing was left over and nothing was passed over. */
  predicate Faithful(i: Install) {
    i.left == map[] && forall k :: 0 <= k < |i.outcomes| ==> i.outcomes[k].Unpacked?
  }

  predicate MadeBy(spec: Spec, dest: Tree, i: Install) {
    Tried(spec, i) && dest == Built(spec, i)[MARKER := Marker(spec)]
  }

  /** The whole of an archive, and the marker. */
  function WholeTree(spec: Spec, archive: Bytes): Tree { TreeOf(spec.entries(archive))[MARKER := Marker(spec)] }

  function Lookup(t: Tree, path: string): Option<Bytes> { if path in t then Some(t[path]) else None }

  /** What the entries tried so far leave at a path: the last write to it, or what was there. */
  function Found(left: Tree, entries: seq<Entry>, outcomes: seq<Outcome>, path: string): Option<Bytes>
    requires |outcomes| <= |entries|
  {
    if outcomes == [] then Lookup(left, path)
    else
      var n := |outcomes| - 1;
      var before := Found(left, entries, outcomes[..n], path);
      if entries[n].path != path then before
      else
        match outcomes[n]
        case Unpacked => Some(entries[n].content)
        case Skipped(Some(partial)) => Some(partial)
        case Skipped(None) => before
  }

  /** No later entry of the archive has this one's path. */
  predicate IsLast(entries: seq<Entry>, k: nat) {
    k < |entries| && forall j :: k < j < |entries| ==> entries[j].path != entries[k].path
  }

  /** Entry `k` came out right: unpacked, or passed over with its whole content written or with
      that content there already. */
  predicate CameOut(i: Install, entries: seq<Entry>, k: nat)
    requires k < |entries| && |i.outcomes| == |entries|
  {
    match i.outcomes[k]
    case Unpacked => true
    case Skipped(Some(partial)) => partial == entries[k].content
    case Skipped(None) => Found(i.left, entries, i.outcomes[..k], entries[k].path) == Some(entries[k].content)
  }

  /** Nothing foreign was left over, and the last entry of every path came out right. Only the
      marker's path does not matter: the marker is written over it. */
  predicate Whole(i: Install, entries: seq<Entry>)
    requires |i.outcomes| == |entries|
  {
    && (forall p :: p in i.left && p != MARKER ==> exists k :: 0 <= k < |entries| && entries[k].path == p)
    && (forall k :: 0 <= k < |entries| && IsLast(entries, k) && entries[k].path != MARKER ==> CameOut(i, entries, k))
  }

  lemma {:induction false} FoundIsBuilt(left: Tree, entries: seq<Entry>, outcomes: seq<Outcome>, path: string)
    requires |outcomes| <= |entries|
    ensures Lookup(Unpack(left, entries, outcomes), path) == Found(left, entries, outcomes, path)
  {
    if outcomes == [] {
    } else {
      FoundIsBuilt(left, entries, outcomes[..|outcomes| - 1], path);
    }
  }

  /** Later entries of other paths do not touch a path. */
  lemma {:induction false} FoundAtLast(left: Tree, entries: seq<Entry>, outcomes: seq<Outcome>, n: nat, path: string)
    requires n <= |outcomes| <= |entries|
    requires forall j :: n <= j < |outcomes| ==> entries[j].path != path
    ensures Found(left, entries, outcomes, path) == Found(left, entries, outcomes[..n], path)
    decreases |outcomes|
  {
    if n == |outcomes| {
      assert outcomes[..n] == outcomes;
    } else {
      FoundAtLast(left, entries, outcomes[..|outcomes| - 1], n, path);
      assert outcomes[..|outcomes| - 1][..n] == outcomes[..n];
    }
  }

  lemma {:induction false} TreeHoldsLast(entries: seq<Entry>, k: nat)
    requires IsLast(entries, k)
    ensures Lookup(TreeOf(entries), entries[k].path) == Some(entries[k].content)
  {
    if k == |entries| - 1 {
    } else {
      var front := entries[..|entries| - 1];
      assert front[k] == entries[k];
      TreeHoldsLast(front, k);
    }
  }

  lemma {:induction false} LastOf(entries: seq<Entry>, path: string) returns (k: nat)
    requires exists j :: 0 <= j < |entries| && entries[j].path == path
    ensures IsLast(entries, k) && entries[k].path == path
  {
    var n := |entries| - 1;
    if entries[n].path == path {
      k := n;
    } else {
      var front := entries[..n];
      var j :| 0 <= j < |entries| && entries[j].path == path;
      assert front[j].path == path;
      k := LastOf(front, path);
      assert forall m :: k < m < n ==> entries[m] == front[m];
    }
  }

  lemma {:induction false} TreeHoldsOnly(entries: seq<Entry>, path: string)
    requires forall j :: 0 <= j < |entries| ==> entries[j].path != path
    ensures Lookup(TreeOf(entries), path) == None
  {
    if entries == [] {
    } else {
      TreeHoldsOnly(entries[..|entries| - 1], path);
    }
  }

  lemma LastFound(i: Install, entries: seq<Entry>, k: nat)
    requires |i.outcomes| == |entries| && IsLast(entries, k)
    ensures Found(i.left, entries, i.outcomes, entries[k].path) == Some(entries[k].content) <==> CameOut(i, entries, k)
  {
    FoundAtLast(i.left, entries, i.outcomes, k + 1, entries[k].path);
    assert i.outcomes[..k + 1][..k] == i.outcomes[..k];
  }

  lemma NoneFound(i: Install, entries: seq<Entry>, path: string)
    requires |i.outcomes| == |entries| && forall j :: 0 <= j < |entries| ==> entries[j].path != path
    ensures Found(i.left, entries, i.outcomes, path) == Lookup(i.left, path)
  {
    FoundAtLast(i.left, entries, i.outcomes, 0, path);
    assert i.outcomes[..0] == [];
  }

  lemma SameTree(a: Tree, b: Tree, marker: Bytes)
    requires forall p :: p != MARKER ==> Lookup(a, p) == Lookup(b, p)
    ensures a[MARKER := marker] == b[MARKER := marker]
  {
    var x, y := a[MARKER := marker], b[MARKER := marker];
    forall p ensures p in x <==> p in y {
      assert p != MARKER ==> Lookup(a, p) == Lookup(b, p);
    }
    forall p | p in x ensures x[p] == y[p] {
      assert p != MARKER ==> Lookup(a, p) == Lookup(b, p);
    }
  }

  lemma WholeLooksUp(spec: Spec, i: Install, path: string)
    requires Tried(spec, i) && Whole(i, spec.entries(i.archive)) && path != MARKER
    ensures Lookup(Built(spec, i), path) == Lookup(TreeOf(spec.entries(i.archive)), path)
  {
    hide Pinned, TreeOf, Unpack, Found, CameOut;
    var entries := spec.entries(i.archive);
    FoundIsBuilt(i.left, entries, i.outcomes, path);
    if exists j :: 0 <= j < |entries| && entries[j].path == path {
      var k := LastOf(entries, path);
      LastFound(i, entries, k);
      TreeHoldsLast(entries, k);
    } else {
      NoneFound(i, entries, path);
      TreeHoldsOnly(entries, path);
    }
  }

  lemma OverwrittenLookup(a: Tree, b: Tree, marker: Bytes, path: string)
    requires a[MARKER := marker] == b[MARKER := marker] && path != MARKER
    ensures Lookup(a, path) == Lookup(b, path)
  {
    assert Lookup(a, path) == Lookup(a[MARKER := marker], path);
    assert Lookup(b, path) == Lookup(b[MARKER := marker], path);
  }

  lemma CompleteIsWhole(spec: Spec, i: Install)
    requires Tried(spec, i) && Built(spec, i)[MARKER := Marker(spec)] == WholeTree(spec, i.archive)
    ensures Whole(i, spec.entries(i.archive))
  {
    hide Pinned, TreeOf, Unpack, Found, CameOut, Marker;
    var entries := spec.entries(i.archive);
    forall p | p in i.left && p != MARKER ensures exists k :: 0 <= k < |entries| && entries[k].path == p {
      if forall k :: 0 <= k < |entries| ==> entries[k].path != p {
        OverwrittenLookup(Built(spec, i), TreeOf(entries), Marker(spec), p);
        FoundIsBuilt(i.left, entries, i.outcomes, p);
        NoneFound(i, entries, p);
        TreeHoldsOnly(entries, p);
        assert false;
      }
    }
    forall k | 0 <= k < |entries| && IsLast(entries, k) && entries[k].path != MARKER ensures CameOut(i, entries, k) {
      OverwrittenLookup(Built(spec, i), TreeOf(entries), Marker(spec), entries[k].path);
      FoundIsBuilt(i.left, entries, i.outcomes, entries[k].path);
      LastFound(i, entries, k);
      TreeHoldsLast(entries, k);
    }
  }

  /** What an installation builds is the whole archive exactly when nothing foreign was left over
      and the last entry of every path came out right. */
  lemma BuiltIsWholeIff(spec: Spec, i: Install)
    requires Tried(spec, i)
    ensures Built(spec, i)[MARKER := Marker(spec)] == WholeTree(spec, i.archive) <==> Whole(i, spec.entries(i.archive))
  {
    hide Pinned, TreeOf, Built, Whole, Marker;
    if Whole(i, spec.entries(i.archive)) {
      forall p | p != MARKER ensures Lookup(Built(spec, i), p) == Lookup(TreeOf(spec.entries(i.archive)), p) {
        WholeLooksUp(spec, i, p);
      }
      SameTree(Built(spec, i), TreeOf(spec.entries(i.archive)), Marker(spec));
    }
    if Built(spec, i)[MARKER := Marker(spec)] == WholeTree(spec, i.archive) { CompleteIsWhole(spec, i); }
  }

  lemma FaithfulIsWhole(i: Install, entries: seq<Entry>)
    requires |i.outcomes| == |entries| && Faithful(i)
    ensures Whole(i, entries)
  {
  }

  // ---------------------------------------------------------------- the invariant

  predicate InstallOk(spec: Spec, i: Install, strict: bool) {
    Pinned(spec, i.archive) && |i.outcomes| <= |spec.entries(i.archive)| && (strict ==> Faithful(i))
  }

  /** What is known at each place. Until the rename, the old directory is not ready. */
  predicate PcOk(spec: Spec, s: State, strict: bool) {
    match s.pc
    case Idle => true
    case AtCleanup => true
    case AtMarker(i) =>
      && InstallOk(spec, i, strict) && Tried(spec, i) && s.disk.dest.Some? && s.made == Some(i)
      && s.disk.dest.value[MARKER := Marker(spec)] == Built(spec, i)[MARKER := Marker(spec)]
    case AtClearStaging(archive) => !IsReady(spec, s.disk.dest) && Pinned(spec, archive)
    case Unpacking(i) => !IsReady(spec, s.disk.dest) && StagedOk(spec, s, i, strict)
    case AtClearDest(i) => !IsReady(spec, s.disk.dest) && StagedOk(spec, s, i, strict) && Tried(spec, i)
    case AtRename(i) => !IsReady(spec, s.disk.dest) && StagedOk(spec, s, i, strict) && Tried(spec, i)
    case _ => !IsReady(spec, s.disk.dest)
  }

  predicate StagedOk(spec: Spec, s: State, i: Install, strict: bool) {
    InstallOk(spec, i, strict) && s.disk.staging == Some(Built(spec, i))
  }

  /** A ready directory is what the last installation made. */
  predicate MadeOk(spec: Spec, s: State, strict: bool) {
    IsReady(spec, s.disk.dest) ==>
      s.made.Some? && MadeBy(spec, s.disk.dest.value, s.made.value) && (strict ==> Faithful(s.made.value))
  }

  predicate Inv(spec: Spec, s: State, strict: bool) { MadeOk(spec, s, strict) && PcOk(spec, s, strict) }

  /** No entry is passed over, and the scratch directory really was cleared. */
  predicate FaithfulEvent(s: State, e: Event) {
    && (e.UnpackEntry? ==> e.outcome.Unpacked?)
    && (e.MakeStaging? ==> Contents(s.disk.staging) == map[])
  }

  lemma BuiltStep(spec: Spec, i: Install, o: Outcome)
    requires |i.outcomes| < |spec.entries(i.archive)|
    ensures Built(spec, i.(outcomes := i.outcomes + [o]))
         == Put(Built(spec, i), spec.entries(i.archive)[|i.outcomes|], o)
  {
    assert (i.outcomes + [o])[..|i.outcomes|] == i.outcomes;
  }

  lemma RunUnpacks(spec: Spec, start: State, run: seq<Event>, s: State, o: Outcome)
    requires RunFrom(spec, start, run) == Some(s) && s.pc.Unpacking?
    requires |s.pc.install.outcomes| < |spec.entries(s.pc.install.archive)|
    requires s.disk.staging == Some(Built(spec, s.pc.install))
    ensures var i := s.pc.install;
            var next := i.(outcomes := i.outcomes + [o]);
            && Built(spec, next) == Put(Built(spec, i), spec.entries(i.archive)[|i.outcomes|], o)
            && RunFrom(spec, start, run + [UnpackEntry(o)])
            == Some(State(s.disk.(staging := Some(Built(spec, next))), Unpacking(next), s.made))
  {
    hide RunFrom, Built, Put;
    BuiltStep(spec, s.pc.install, o);
    RunSnoc(spec, start, run, UnpackEntry(o));
  }

  /** Removing files never makes a directory ready. */
  lemma KeepNotReady(spec: Spec, dest: Tree, kept: set<string>)
    requires !IsReady(spec, Some(dest))
    ensures !IsReady(spec, Some(Keep(dest, kept)))
  {
  }

  lemma StepKeepsPc(spec: Spec, s: State, e: Event, strict: bool)
    requires PcOk(spec, s, strict) && Enabled(spec, s, e) && (strict ==> FaithfulEvent(s, e))
    ensures PcOk(spec, Do(spec, s, e), strict)
  {
    hide IsReady, Pinned, Unpack, TreeOf, Marker;
    match e
    case ClearSome(kept) =>
      if s.disk.dest.Some? { KeepNotReady(spec, s.disk.dest.value, kept); }
    case UnpackEntry(outcome) => BuiltStep(spec, s.pc.install, outcome);
    case MakeStaging => BuiltNothing(spec, Install(Contents(s.disk.staging), s.pc.archive, []));
    case WriteMarker(n) => Overwrite(s.disk.dest.value, Marker(spec)[..n], Marker(spec));
    case _ =>
  }

  lemma BuiltNothing(spec: Spec, i: Install)
    requires i.outcomes == []
    ensures Built(spec, i) == i.left
  {
  }

  lemma Overwrite(t: Tree, a: Bytes, b: Bytes)
    ensures t[MARKER := a][MARKER := b] == t[MARKER := b]
  {
  }

  lemma StepKeepsMade(spec: Spec, s: State, e: Event, strict: bool)
    requires Inv(spec, s, strict) && Enabled(spec, s, e)
    ensures MadeOk(spec, Do(spec, s, e), strict)
  {
    hide Pinned, Unpack, TreeOf, Marker, Built;
    var s' := Do(spec, s, e);
    match e
    case ClearSome(kept) =>
      if s.pc.AtClearDest? && s.disk.dest.Some? { KeepNotReady(spec, s.disk.dest.value, kept); }
    case Rename =>
      ReadyIsMade(spec, s'.disk.dest, s.pc.install);
    case WriteMarker(n) =>
      Overwrite(s.disk.dest.value, Marker(spec)[..n], Marker(spec));
      ReadyIsMade(spec, s'.disk.dest, s.pc.install);
    case _ =>
  }

  lemma ReadyIsMade(spec: Spec, dest: Option<Tree>, i: Install)
    requires Tried(spec, i) && dest.Some?
    requires dest.value[MARKER := Marker(spec)] == Built(spec, i)[MARKER := Marker(spec)]
    ensures IsReady(spec, dest) ==> MadeBy(spec, dest.value, i)
  {
    hide Pinned, Built, Marker;
    assert IsReady(spec, dest) ==> dest.value[MARKER := Marker(spec)] == dest.value;
  }

  predicate FaithfulRun(spec: Spec, s: State, es: seq<Event>) {
    es == [] ||
    (var n := |es| - 1;
     var before := RunFrom(spec, s, es[..n]);
     FaithfulRun(spec, s, es[..n]) && (before.Some? ==> FaithfulEvent(before.value, es[n])))
  }

  lemma {:induction false} RunKeepsInv(spec: Spec, s: State, es: seq<Event>, strict: bool)
    requires Inv(spec, s, strict) && RunFrom(spec, s, es).Some? && (strict ==> FaithfulRun(spec, s, es))
    ensures Inv(spec, RunFrom(spec, s, es).value, strict)
  {
    if es == [] {
    } else {
      hide Enabled, Do, MadeOk, PcOk, FaithfulEvent;
      var n := |es| - 1;
      RunKeepsInv(spec, s, es[..n], strict);
      var before := RunFrom(spec, s, es[..n]).value;
      StepKeepsPc(spec, before, es[n], strict);
      StepKeepsMade(spec, before, es[n], strict);
    }
  }

  /** In every run of launches and crashes, a ready directory was installed from an archive with
      the pinned checksum, every entry of it tried: it is what those entries made of whatever
      the scratch directory still held, and the marker. */
  lemma ReadyWasInstalled(spec: Spec, d: Disk, made: Option<Install>, es: seq<Event>)
    requires MadeOk(spec, State(d, Idle, made), false) && RunFrom(spec, State(d, Idle, made), es).Some?
    ensures var end := RunFrom(spec, State(d, Idle, made), es).value;
            IsReady(spec, end.disk.dest) ==> end.made.Some? && MadeBy(spec, end.disk.dest.value, end.made.value)
  {
    hide RunFrom, IsReady, Tried;
    RunKeepsInv(spec, State(d, Idle, made), es, false);
  }

  /** In every run, wherever the crashes fell: a ready directory is the complete unpacking of its
      pinned archive if and only if the installation that made it found nothing foreign left over
      and the last entry of every path came out right. */
  lemma ReadyIsComplete(spec: Spec, d: Disk, made: Option<Install>, es: seq<Event>)
    requires MadeOk(spec, State(d, Idle, made), false) && RunFrom(spec, State(d, Idle, made), es).Some?
    requires IsReady(spec, RunFrom(spec, State(d, Idle, made), es).value.disk.dest)
    ensures var end := RunFrom(spec, State(d, Idle, made), es).value;
            && end.made.Some? && Tried(spec, end.made.value)
            && var i := end.made.value;
               end.disk.dest == Some(WholeTree(spec, i.archive)) <==> Whole(i, spec.entries(i.archive))
  {
    hide RunFrom, Pinned, Whole, TreeOf, Unpack, Marker;
    ReadyWasInstalled(spec, d, made, es);
    BuiltIsWholeIff(spec, RunFrom(spec, State(d, Idle, made), es).value.made.value);
  }

  /** In particular it is complete when no entry was ever passed over and the scratch directory
      was always cleared. */
  lemma FaithfulRunIsComplete(spec: Spec, d: Disk, made: Option<Install>, es: seq<Event>)
    requires MadeOk(spec, State(d, Idle, made), true) && RunFrom(spec, State(d, Idle, made), es).Some?
    requires FaithfulRun(spec, State(d, Idle, made), es)
    requires IsReady(spec, RunFrom(spec, State(d, Idle, made), es).value.disk.dest)
    ensures var end := RunFrom(spec, State(d, Idle, made), es).value;
            end.made.Some? && Pinned(spec, end.made.value.archive)
            && end.disk.dest == Some(WholeTree(spec, end.made.value.archive))
  {
    hide RunFrom, FaithfulRun, Pinned, Whole, TreeOf, Unpack, Marker, WholeTree;
    RunKeepsInv(spec, State(d, Idle, made), es, true);
    var i := RunFrom(spec, State(d, Idle, made), es).value.made.value;
    FaithfulIsWhole(i, spec.entries(i.archive));
    ReadyIsComplete(spec, d, made, es);
  }

  lemma RunSnoc(spec: Spec, s: State, es: seq<Event>, e: Event)
    ensures var before := RunFrom(spec, s, es);
            RunFrom(spec, s, es + [e])
            == if before.Some? && Enabled(spec, before.value, e) then Some(Do(spec, before.value, e)) else None
  {
    assert (es + [e])[..|es|] == es;
  }

  lemma RunNothing(spec: Spec, s: State)
    ensures RunFrom(spec, s, []) == Some(s)
  {
  }

  /** The state after the first `k` effects of a first installation from an archive of one entry,
      the scratch directory left as it was found. */
  function Story(spec: Spec, archive: Bytes, staged: Option<Tree>, outcome: Outcome, k: nat): State
    requires |spec.entries(archive)| == 1
  {
    var left := Contents(staged);
    var tree := Put(left, spec.entries(archive)[0], outcome);
    var i := Install(left, archive, [outcome]);
    var bare := Disk(Some(archive), staged, None);
    if k == 0 then State(Disk(None, staged, None), Idle, None)
    else if k == 1 then State(Disk(None, staged, None), AtRequest, None)
    else if k == 2 then State(Disk(None, staged, None), AtOpen(false), None)
    else if k == 3 then State(Disk(Some([]), staged, None), Receiving, None)
    else if k == 4 then State(bare, Receiving, None)
    else if k == 5 then State(bare, AtVerify, None)
    else if k == 6 then State(bare, AtClearStaging(archive), None)
    else if k == 7 then State(Disk(Some(archive), Some(left), None), Unpacking(Install(left, archive, [])), None)
    else if k == 8 then State(Disk(Some(archive), Some(tree), None), Unpacking(i), None)
    else if k == 9 then State(Disk(Some(archive), Some(tree), None), AtClearDest(i), None)
    else if k == 10 then State(Disk(Some(archive), Some(tree), None), AtRename(i), None)
    else if k == 11 then State(Disk(Some(archive), None, Some(tree)), AtMarker(i), Some(i))
    else if k == 12 then State(Disk(Some(archive), None, Some(tree[MARKER := Marker(spec)])), AtCleanup, Some(i))
    else State(Disk(None, None, Some(tree[MARKER := Marker(spec)])), Idle, Some(i))
  }

  lemma StoryRuns(spec: Spec, archive: Bytes, staged: Option<Tree>, outcome: Outcome) returns (es: seq<Event>)
    requires Pinned(spec, archive) && |spec.entries(archive)| == 1
    ensures RunFrom(spec, Story(spec, archive, staged, outcome, 0), es) == Some(Story(spec, archive, staged, outcome, 13))
  {
    hide RunFrom, Pinned, Marker, Put;
    var start := Story(spec, archive, staged, outcome, 0);
    var todo := [Launch, Respond(false), Open, Receive(archive), EndOfStream, Verify(false), MakeStaging,
                 UnpackEntry(outcome), EndOfArchive, EndOfClear, Rename, WriteMarker(|Marker(spec)|), Cleanup(true)];
    es := [];
    RunNothing(spec, start);
    for k := 0 to |todo|
      invariant RunFrom(spec, start, es) == Some(Story(spec, archive, staged, outcome, k))
    {
      RunSnoc(spec, start, es, todo[k]);
      assert [] + [outcome] == [outcome];
      assert [] + archive == archive && Marker(spec)[..|Marker(spec)|] == Marker(spec);
      es := es + [todo[k]];
    }
  }

  /** The condition can fail: an entry that cannot be written is passed over, the marker is written
      all the same, and every later launch takes the directory for complete. */
  lemma PassedOverLooksReady(spec: Spec, archive: Bytes, entry: Entry) returns (es: seq<Event>)
    requires Pinned(spec, archive) && spec.entries(archive) == [entry] && entry.path != MARKER
    ensures var end := RunFrom(spec, State(Disk(None, None, None), Idle, None), es);
            && end.Some? && end.value.pc.Idle? && IsReady(spec, end.value.disk.dest)
            && entry.path !in end.value.disk.dest.value
            && Do(spec, end.value, Launch) == end.value
  {
    hide RunFrom, Pinned, Marker;
    es := StoryRuns(spec, archive, None, Skipped(None));
  }

  /** And so it does when a scratch directory of an earlier version cannot be cleared: its files
      end up in the directory that is marked ready. */
  lemma LeftOverLooksReady(spec: Spec, archive: Bytes, entry: Entry, left: Tree, foreign: string)
    returns (es: seq<Event>)
    requires Pinned(spec, archive) && spec.entries(archive) == [entry]
    requires foreign in left && foreign != MARKER && foreign != entry.path
    ensures var end := RunFrom(spec, State(Disk(None, Some(left), None), Idle, None), es);
            && end.Some? && end.value.pc.Idle? && IsReady(spec, end.value.disk.dest)
            && foreign in end.value.disk.dest.value && foreign !in WholeTree(spec, archive)
            && Do(spec, end.value, Launch) == end.value
  {
    hide RunFrom, Pinned, Marker;
    es := StoryRuns(spec, archive, Some(left), Unpacked);
    TreeHoldsOnly([entry], foreign);
  }

  // ---------------------------------------------------------------- the object

  /** The server's answer: whether it honours the range, what it sends, and whether it breaks off. */
  datatype Response = Response(partialContent: bool, chunks: seq<Bytes>, broken: bool)

  /** What the environment does during one launch. A fault is an error the source reports; the
      marker's file may not open at all, or take only so many bytes. */
  datatype World = World(
    net: Option<Response>,
    dropFault: bool,
    openFault: bool,
    hashFault: bool,
    badRemoved: bool,
    stagingKept: set<string>,
    extractFault: bool,
    outcomes: nat -> Outcome,
    destKept: set<string>,
    renameFault: bool,
    markerWritten: Option<nat>,
    archiveRemoved: bool)

  function Joined(chunks: seq<Bytes>): Bytes {
    if chunks == [] then [] else Joined(chunks[..|chunks| - 1]) + chunks[|chunks| - 1]
  }

  predicate Resumes(have: Option<Bytes>, r: Response) { have.Some? && |have.value| > 0 && r.partialContent }

  function Downloaded(have: Option<Bytes>, r: Response): Bytes {
    (if Resumes(have, r) then have.value else []) + Joined(r.chunks)
  }

  /** The archive can be opened for the answer: a stale part of it, if any, can be dropped. */
  predicate Opens(w: World, have: Option<Bytes>, r: Response) {
    !w.openFault && (have.Some? && |have.value| > 0 && !r.partialContent ==> !w.dropFault)
  }

  /** The whole answer arrives. */
  predicate Arrives(w: World, have: Option<Bytes>) {
    w.net.Some? && Opens(w, have, w.net.value) && !w.net.value.broken
  }

  /** The old directory goes, the new one takes its place, and the whole marker is written. */
  predicate SwapsIn(spec: Spec, w: World, dest: Option<Tree>) {
    && !w.renameFault && (forall p :: p in Contents(dest) ==> p !in w.destKept)
    && w.markerWritten.Some? && w.markerWritten.value >= |Marker(spec)|
  }

  /** Nothing on the way of a launch fails. */
  predicate GoesThrough(spec: Spec, w: World, have: Option<Bytes>, dest: Option<Tree>) {
    && Arrives(w, have) && (spec.sha.Some? ==> !w.hashFault) && Pinned(spec, Downloaded(have, w.net.value))
    && !w.extractFault && SwapsIn(spec, w, dest)
  }

  class Installer {
    const spec: Spec
    var archive: Option<Bytes>
    var staging: Option<Tree>
    var dest: Option<Tree>
    /** The installation last put in place. */
    ghost var made: Option<Install>

    constructor (spec: Spec)
      ensures this.spec == spec && At(Idle) == State(Disk(None, None, None), Idle, None)
    {
      this.spec := spec;
      archive, staging, dest, made := None, None, None, None;
    }

    function View(): Disk
      reads this
    {
      Disk(archive, staging, dest)
    }

    ghost function At(pc: Pc): State
      reads this
    {
      State(View(), pc, made)
    }

    /** The directory is what the last installation built, without the marker being written: the
        marker's file did not open, so the right marker was among the built files. */
    ghost predicate ReadyAsBuilt(w: World)
      reads this
    {
      && w.markerWritten.None? && !w.renameFault && made.Some?
      && |made.value.outcomes| <= |spec.entries(made.value.archive)|
      && dest == Some(Built(spec, made.value))
    }

    /** The checksum is computed and disagrees. */
    predicate Rejects(w: World, bytes: Bytes) { spec.sha.Some? && !w.hashFault && !Pinned(spec, bytes) }

    /** The directory is what unpacking `bytes` made of the scratch directory, and the marker. */
    ghost predicate Installed(w: World, bytes: Bytes, left: Option<Tree>)
      reads this
    {
      && made.Some? && made.value.left == Keep(Contents(left), w.stagingKept) && made.value.archive == bytes
      && made.value.outcomes == seq(|spec.entries(bytes)|, i requires 0 <= i => w.outcomes(i))
      && dest == Some(Built(spec, made.value)[MARKER := Marker(spec)])
    }

    /** Open the archive for the answer: after what is there when the range is honoured, empty
        otherwise. */
    method OpenArchive(w: World, r: Response, ghost start: State) returns (ok: bool, ghost run: seq<Event>)
      requires start == At(AtRequest)
      modifies this`archive
      ensures RunFrom(spec, start, run) == Some(At(if ok then Receiving else Idle))
      ensures ok ==> archive == Some(if Resumes(old(archive), r) then old(archive).value else [])
      ensures ok <==> Opens(w, old(archive), r)
    {
      hide RunFrom, IsReady, Pinned;
      RunNothing(spec, start);
      var resuming := Resumes(archive, r);
      RunSnoc(spec, start, [], Respond(r.partialContent));
      run := [] + [Respond(r.partialContent)];
      if archive.Some? && |archive.value| > 0 && !resuming {
        if w.dropFault {
          RunSnoc(spec, start, run, Crash);
          return false, run + [Crash];
        }
        RunSnoc(spec, start, run, DropStale);
        run := run + [DropStale];
        archive := None;
      }
      if w.openFault {
        RunSnoc(spec, start, run, Crash);
        return false, run + [Crash];
      }
      RunSnoc(spec, start, run, Open);
      run := run + [Open];
      if !resuming { archive := Some([]); }
      return true, run;
    }

    /** Ask for what is missing and append what comes. `downloaded` counts the whole file. */
    method DownloadResumable(w: World) returns (ok: bool, downloaded: nat, ghost run: seq<Event>)
      modifies this`archive
      ensures RunFrom(spec, old(At(AtRequest)), run) == Some(At(if ok then AtVerify else Idle))
      ensures ok ==> w.net.Some? && archive == Some(Downloaded(old(archive), w.net.value)) && downloaded == |archive.value|
      ensures ok <==> Arrives(w, old(archive))
    {
      hide RunFrom, IsReady, Pinned, Resumes;
      ghost var start := At(AtRequest);
      downloaded := 0;
      if w.net.None? {
        RunNothing(spec, start);
        RunSnoc(spec, start, [], Crash);
        return false, 0, [] + [Crash];
      }
      ok, run := OpenArchive(w, w.net.value, start);
      if !ok {
        return false, 0, run;
      }
      downloaded := |archive.value|;
      ghost var already := archive.value;
      var chunks := w.net.value.chunks;
      assert already + [] == already;
      for k := 0 to |chunks|
        invariant archive == Some(already + Joined(chunks[..k])) && downloaded == |archive.value|
        invariant RunFrom(spec, start, run) == Some(At(Receiving))
      {
        JoinedNext(already, chunks, k);
        RunSnoc(spec, start, run, Receive(chunks[k]));
        run := run + [Receive(chunks[k])];
        archive := Some(archive.value + chunks[k]);
        downloaded := downloaded + |chunks[k]|;
      }
      assert chunks[..|chunks|] == chunks;
      if w.net.value.broken {
        RunSnoc(spec, start, run, Crash);
        return false, downloaded, run + [Crash];
      }
      RunSnoc(spec, start, run, EndOfStream);
      return true, downloaded, run + [EndOfStream];
    }

    /** Unpack every entry into the scratch directory; what fails is passed over. */
    method Extract(bytes: Bytes, outcomes: nat -> Outcome, ghost start: State, ghost before: seq<Event>)
      returns (unpacked: nat, ghost run: seq<Event>, ghost install: Install)
      requires RunFrom(spec, start, before) == Some(At(AtClearStaging(bytes)))
      modifies this`staging
      ensures RunFrom(spec, start, run) == Some(At(AtClearDest(install)))
      ensures install.left == old(Contents(staging)) && install.archive == bytes
      ensures install.outcomes == seq(|spec.entries(bytes)|, i requires 0 <= i => outcomes(i))
      ensures staging == Some(Built(spec, install)) && unpacked <= |spec.entries(bytes)|
    {
      hide RunFrom, IsReady, Pinned;
      RunSnoc(spec, start, before, MakeStaging);
      run := before + [MakeStaging];
      install := Install(Contents(staging), bytes, []);
      staging := Some(Contents(staging));
      unpacked := 0;
      BuiltNothing(spec, install);
      hide Built, Put;
      var entries := spec.entries(bytes);
      for k := 0 to |entries|
        invariant install.left == old(Contents(staging)) && install.archive == bytes && unpacked <= k
        invariant install.outcomes == seq(k, i requires 0 <= i => outcomes(i))
        invariant staging == Some(Built(spec, install)) && RunFrom(spec, start, run) == Some(At(Unpacking(install)))
      {
        var o := outcomes(k);
        RunUnpacks(spec, start, run, At(Unpacking(install)), o);
        run := run + [UnpackEntry(o)];
        staging := Some(Put(staging.value, entries[k], o));
        install := install.(outcomes := install.outcomes + [o]);
        if o.Unpacked? { unpacked := unpacked + 1; }
      }
      RunSnoc(spec, start, run, EndOfArchive);
      run := run + [EndOfArchive];
    }

    /** Put the unpacked directory in place and mark it. */
    method SwapIn(w: World, ghost start: State, ghost before: seq<Event>, ghost install: Install)
      returns (ok: bool, ghost run: seq<Event>)
      requires RunFrom(spec, start, before) == Some(At(AtClearDest(install)))
      requires |install.outcomes| <= |spec.entries(install.archive)| && staging == Some(Built(spec, install))
      requires !IsReady(spec, dest)
      modifies this
      ensures RunFrom(spec, start, run) == Some(At(Idle))
      ensures ok ==> IsReady(spec, dest)
      ensures IsReady(spec, dest) && !ok ==> ReadyAsBuilt(w)
      ensures ok <==> SwapsIn(spec, w, old(dest))
      ensures ok ==> made == Some(install) && dest == Some(Built(spec, install)[MARKER := Marker(spec)])
    {
      hide RunFrom, Pinned, Marker, Unpack, Keep, Tried;
      RunSnoc(spec, start, before, ClearSome(w.destKept));
      run := before + [ClearSome(w.destKept)];
      if dest.Some? {
        KeepNotReady(spec, dest.value, w.destKept);
        NothingKept(dest.value, w.destKept);
        dest := Some(Keep(dest.value, w.destKept));
      }
      RunSnoc(spec, start, run, EndOfClear);
      run := run + [EndOfClear];
      if w.renameFault || Contents(dest) != map[] {
        RunSnoc(spec, start, run, Crash);
        return false, run + [Crash];
      }
      RunSnoc(spec, start, run, Rename);
      run := run + [Rename];
      dest, staging := staging, None;
      made := Some(install);
      ok, run := Mark(w, start, run, install);
    }

    /** Write the marker, then drop the archive. */
    method Mark(w: World, ghost start: State, ghost before: seq<Event>, ghost install: Install)
      returns (ok: bool, ghost run: seq<Event>)
      requires RunFrom(spec, start, before) == Some(At(AtMarker(install))) && dest.Some?
      modifies this
      ensures RunFrom(spec, start, run) == Some(At(Idle)) && made == old(made)
      ensures ok ==> IsReady(spec, dest)
      ensures IsReady(spec, dest) && !ok ==> w.markerWritten.None? && dest == old(dest)
      ensures ok <==> w.markerWritten.Some? && w.markerWritten.value >= |Marker(spec)|
      ensures ok ==> dest == Some(old(dest).value[MARKER := Marker(spec)])
    {
      hide RunFrom, Pinned, Marker, Unpack;
      if w.markerWritten.None? {
        RunSnoc(spec, start, before, Crash);
        return false, before + [Crash];
      }
      var n := Min(w.markerWritten.value, |Marker(spec)|);
      RunSnoc(spec, start, before, WriteMarker(n));
      run := before + [WriteMarker(n)];
      dest := Some(dest.value[MARKER := Marker(spec)[..n]]);
      if n < |Marker(spec)| {
        RunSnoc(spec, start, run, Crash);
        return false, run + [Crash];
      }
      assert Marker(spec)[..n] == Marker(spec);
      RunSnoc(spec, start, run, Cleanup(w.archiveRemoved));
      run := run + [Cleanup(w.archiveRemoved)];
      if w.archiveRemoved { archive := None; }
      return true, run;
    }

    /** Check the archive, unpack it and put it in place. */
    method InstallArchive(w: World, ghost start: State, ghost before: seq<Event>) returns (ok: bool, ghost run: seq<Event>)
      requires RunFrom(spec, start, before) == Some(At(AtVerify))
      requires archive.Some? && !IsReady(spec, dest)
      modifies this
      ensures RunFrom(spec, start, run) == Some(At(Idle))
      ensures ok ==> IsReady(spec, dest)
      ensures IsReady(spec, dest) && !ok ==> ReadyAsBuilt(w)
      ensures ok <==> (spec.sha.Some? ==> !w.hashFault) && Pinned(spec, old(archive).value) && !w.extractFault && SwapsIn(spec, w, old(dest))
      ensures ok ==> Installed(w, old(archive).value, old(staging))
      ensures Rejects(w, old(archive).value) && w.badRemoved ==> archive == None
    {
      hide RunFrom, Pinned, Marker;
      run := before;
      if spec.sha.Some? && w.hashFault {
        RunSnoc(spec, start, run, Crash);
        return false, run + [Crash];
      }
      RunSnoc(spec, start, run, Verify(w.badRemoved));
      run := run + [Verify(w.badRemoved)];
      if !Pinned(spec, archive.value) {
        if w.badRemoved { archive := None; }
        return false, run;
      }
      var bytes := archive.value;
      RunSnoc(spec, start, run, ClearSome(w.stagingKept));
      run := run + [ClearSome(w.stagingKept)];
      staging := Some(Keep(Contents(staging), w.stagingKept));
      if w.extractFault {
        RunSnoc(spec, start, run, Crash);
        return false, run + [Crash];
      }
      var unpacked, extracted, install := Extract(bytes, w.outcomes, start, run);
      ok, run := SwapIn(w, start, extracted, install);
    }

    /** One launch, in full: it is a run of the effects above. It succeeds exactly when the directory
        was ready or nothing on the way fails, and then it leaves the archive's entries, as they
        came out, and the marker. A bad archive is dropped, so that the next launch starts over.
        A launch can fail with a ready directory only when the right marker was already in what was
        put in place and the marker's file would not open. */
    method Ensure(w: World) returns (ok: bool, ghost run: seq<Event>)
      modifies this
      ensures RunFrom(spec, old(At(Idle)), run) == Some(At(Idle))
      ensures ok ==> IsReady(spec, dest)
      ensures IsReady(spec, dest) && !ok ==> ReadyAsBuilt(w)
      ensures ok <==> IsReady(spec, old(dest)) || GoesThrough(spec, w, old(archive), old(dest))
      ensures IsReady(spec, old(dest)) ==> View() == old(View())
      ensures ok && !IsReady(spec, old(dest)) ==> Installed(w, Downloaded(old(archive), w.net.value), old(staging))
      ensures !IsReady(spec, old(dest)) && Arrives(w, old(archive)) && Rejects(w, Downloaded(old(archive), w.net.value)) && w.badRemoved ==>
                archive == None
    {
      hide RunFrom, Pinned, Marker;
      ghost var start := At(Idle);
      RunNothing(spec, start);
      RunSnoc(spec, start, [], Launch);
      run := [] + [Launch];
      if dest.Some? && MARKER in dest.value && dest.value[MARKER] == Marker(spec) {
        return true, run;
      }
      ghost var asked := At(AtRequest);
      var received, _, download := DownloadResumable(w);
      RunConcat(spec, start, run, asked, download);
      run := run + download;
      if !received {
        return false, run;
      }
      ok, run := InstallArchive(w, start, run);
    }
  }

  lemma {:induction false} RunConcat(spec: Spec, s: State, a: seq<Event>, m: State, b: seq<Event>)
    requires RunFrom(spec, s, a) == Some(m)
    ensures RunFrom(spec, s, a + b) == RunFrom(spec, m, b)
    decreases |b|
  {
    hide Enabled, Do;
    if b == [] {
      assert a + b == a;
    } else {
      RunConcat(spec, s, a, m, b[..|b| - 1]);
      assert (a + b)[..|a + b| - 1] == a + b[..|b| - 1];
    }
  }

  lemma NothingKept(t: Tree, kept: set<string>)
    ensures Keep(t, kept) == map[] <==> forall p :: p in t ==> p !in kept
  {
    if p :| p in t && p in kept { assert p in Keep(t, kept); }
  }

  lemma JoinedNext(already: Bytes, chunks: seq<Bytes>, k: nat)
    requires k < |chunks|
    ensures already + Joined(chunks[..k + 1]) == already + Joined(chunks[..k]) + chunks[k]
  {
    assert chunks[..k + 1][..k] == chunks[..k];
  }

  /** A server that sends the file from where the partial one ends, or all of it, completes the
      file, however often the download was broken off. */
  lemma ResumedIsWhole(file: Bytes, have: Option<Bytes>, r: Response)
    requires have.Some? ==> have.value <= file
    requires Joined(r.chunks) == if have.Some? && have.value != [] && r.partialContent then file[|have.value|..] else file
    ensures Downloaded(have, r) == file
  {
    hide Joined;
    if Resumes(have, r) { assert have.value + file[|have.value|..] == file; }
  }

  // ---------------------------------------------------------------- the marker

  lemma HeadOfLine(line: string, rest: string)
    ensures var all := line + "\n" + rest;
            && (line == "" ==> all[0] == '\n' && all[1..] == rest)
            && (line != "" ==> all[0] == line[0] && all[1..] == line[1..] + "\n" + rest)
  {
  }

  lemma {:induction false} FirstNewline(a: string, b: string, restA: string, restB: string)
    requires '\n' !in a && '\n' !in b && a + "\n" + restA == b + "\n" + restB
    ensures a == b && restA == restB
    decreases |a|
  {
    HeadOfLine(a, restA);
    HeadOfLine(b, restB);
    assert a == "" <==> b == "";
    if a == "" {
    } else {
      FirstNewline(a[1..], b[1..], restA, restB);
      assert a == [a[0]] + a[1..] && b == [b[0]] + b[1..];
    }
  }

  /** A marker says what was installed: two pins have the same one exactly when they are the same
      source with the same checksum, one that is missing counting as its own name. */
  lemma MarkerSaysWhat(a: Spec, b: Spec)
    requires '\n' !in a.url && '\n' !in b.url
    ensures MarkerText(a) == MarkerText(b) <==>
              a.url == b.url && (if a.sha.Some? then a.sha.value else "no-checksum") == (if b.sha.Some? then b.sha.value else "no-checksum")
  {
    var shaA := if a.sha.Some? then a.sha.value else "no-checksum";
    var shaB := if b.sha.Some? then b.sha.value else "no-checksum";
    assert MarkerText(a) == a.url + "\n" + (shaA + "\n") && MarkerText(b) == b.url + "\n" + (shaB + "\n");
    if MarkerText(a) == MarkerText(b) {
      FirstNewline(a.url, b.url, shaA + "\n", shaB + "\n");
      assert (shaA + "\n")[..|shaA|] == shaA && (shaB + "\n")[..|shaB|] == shaB;
      assert |shaA| == |shaB|;
    }
  }

  /** So a directory installed from one source is never taken for another's. */
  lemma OtherPinIsNotReady(a: Spec, b: Spec, dest: Option<Tree>)
    requires '\n' !in a.url && '\n' !in b.url && a.url != b.url
    requires a.encode == b.encode && forall x, y :: a.encode(x) == a.encode(y) ==> x == y
    ensures !(IsReady(a, dest) && IsReady(b, dest))
  {
    MarkerSaysWhat(a, b);
  }

  /** An archive is accepted exactly when there is no checksum, or its own agrees letter for letter,
      whatever the case of the letters. */
  lemma PinnedIff(spec: Spec, archive: Bytes)
    ensures Pinned(spec, archive) <==>
              spec.sha.Some? ==>
                SameLetters(spec.hash(archive), spec.sha.value)
  {
    if spec.sha.Some? { SameLettersIff(spec.hash(archive), spec.sha.value); }
  }

  predicate SameLetters(a: string, b: string) { |a| == |b| && forall i :: 0 <= i < |a| ==> SameLetter(a[i], b[i]) }

  predicate SameLetter(a: char, b: char) {
    || a == b
    || ('A' <= a <= 'Z' && b as int == a as int + 32)
    || ('A' <= b <= 'Z' && a as int == b as int + 32)
  }

  lemma {:induction false} SameLettersIff(a: string, b: string)
    ensures Lower(a) == Lower(b) <==> SameLetters(a, b)
    decreases |a|
  {
    LowerLength(a);
    LowerLength(b);
    if a == "" || b == "" {
    } else {
      hide SameLetter, SameLetters, LowerChar;
      SameLettersIff(a[1..], b[1..]);
      LetterIff(a[0], b[0]);
      SameLettersStep(a, b);
      assert Lower(a) == [LowerChar(a[0])] + Lower(a[1..]) && Lower(b) == [LowerChar(b[0])] + Lower(b[1..]);
      assert Lower(a)[1..] == Lower(a[1..]) && Lower(b)[1..] == Lower(b[1..]);
    }
  }

  lemma SameLettersStep(a: string, b: string)
    requires a != "" && b != ""
    ensures SameLetters(a, b) <==> SameLetter(a[0], b[0]) && SameLetters(a[1..], b[1..])
  {
    hide SameLetter;
    if SameLetters(a[1..], b[1..]) {
      forall i | 0 < i < |a| ensures SameLetter(a[i], b[i]) { assert SameLetter(a[1..][i - 1], b[1..][i - 1]); }
    }
  }

  lemma LetterIff(a: char, b: char)
    ensures LowerChar(a) == LowerChar(b) <==> SameLetter(a, b)
  {
  }

  lemma {:induction false} LowerLength(s: string)
    ensures |Lower(s)| == |s|
  {
    if s == "" {
    } else {
      LowerLength(s[1..]);
    }
  }
}
