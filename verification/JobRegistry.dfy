/** Background jobs ending, being killed and being forgotten at the same time
    (crates/mc-sandbox/src/jobs.rs).

    A job's status, its finish time and the registry are each behind their own lock, so the
    reaper of one job, kills and prunes interleave. Each event below is one critical section
    (a prune holds the registry for its whole scan, but not the jobs it looks at). */
module JobRegistry {
  import opened Basics

  const MAX_FINISHED: nat := 16

  type JobId = nat
  type Thread = nat

  datatype Status = Running | Exited(code: Option<int>) | Killed

  datatype Job = Job(status: Status, finished: Option<nat>)

  /** Where a thread is. Every thread is a `finish`, reached by the reaper or by a kill. */
  datatype Pc =
    | AtCheck(id: JobId)
    | AtStatus(id: JobId, outcome: Status)
    | AtStamp(id: JobId)
    | AtPrune(id: JobId)
    | Scanning(id: JobId, todo: set<JobId>, probe: Option<JobId>, found: map<JobId, nat>)
    | Done

  datatype State = State(
    jobs: map<JobId, Job>,
    listed: set<JobId>,
    holder: Option<Thread>,
    threads: map<Thread, Pc>,
    now: nat)

  const INITIAL := State(map[], {}, None, map[], 0)

  datatype Event =
    | StartJob(start: JobId, reaper: Thread, outcome: Status)
    | CallKill(target: JobId, caller: Thread)
    | Check(t: Thread)
    | SetStatus(t: Thread)
    | Stamp(t: Thread)
    | Lock(t: Thread)
    | Probe(t: Thread, j: JobId)
    | ReadStamp(t: Thread)
    | Remove(t: Thread, victims: set<JobId>)
    | Tick

  /** The oldest beyond the limit, ties broken either way. */
  predicate AreOldest(found: map<JobId, nat>, victims: set<JobId>) {
    if |found| <= MAX_FINISHED then victims == {}
    else
      && victims <= found.Keys && |victims| == |found| - MAX_FINISHED
      && forall v, k :: v in victims && k in found && k !in victims ==> found[v] <= found[k]
  }

  predicate Enabled(s: State, e: Event) {
    match e
    case StartJob(id, t, outcome) => id !in s.jobs && t !in s.threads && s.holder.None? && !outcome.Running?
    case CallKill(id, t) => t !in s.threads && s.holder.None?
    case Check(t) => t in s.threads && s.threads[t].AtCheck? && s.threads[t].id in s.jobs
    case SetStatus(t) => t in s.threads && s.threads[t].AtStatus? && s.threads[t].id in s.jobs
    case Stamp(t) => t in s.threads && s.threads[t].AtStamp? && s.threads[t].id in s.jobs
    case Lock(t) => t in s.threads && s.threads[t].AtPrune? && s.holder.None?
    case Probe(t, j) =>
      && t in s.threads && s.threads[t].Scanning? && s.threads[t].probe.None?
      && j in s.threads[t].todo && j in s.jobs
    case ReadStamp(t) =>
      && t in s.threads && s.threads[t].Scanning? && s.threads[t].probe.Some? && s.threads[t].probe.value in s.jobs
    case Remove(t, victims) =>
      && t in s.threads && s.threads[t].Scanning? && s.threads[t].probe.None? && s.threads[t].todo == {}
      && AreOldest(s.threads[t].found, victims)
    case Tick => true
  }

  function To(s: State, t: Thread, pc: Pc): State { s.(threads := s.threads[t := pc]) }

  function Do(s: State, e: Event): State
    requires Enabled(s, e)
  {
    match e
    case StartJob(id, t, outcome) =>
      To(s.(jobs := s.jobs[id := Job(Running, None)], listed := s.listed + {id}), t, AtStatus(id, outcome))
    case CallKill(id, t) => To(s, t, if id in s.listed then AtCheck(id) else Done)
    case Check(t) =>
      var id := s.threads[t].id;
      To(s, t, if s.jobs[id].status.Running? then AtStatus(id, Killed) else Done)
    case SetStatus(t) =>
      var id, job := s.threads[t].id, s.jobs[s.threads[t].id];
      To(if job.status.Running? then s.(jobs := s.jobs[id := job.(status := s.threads[t].outcome)]) else s, t, AtStamp(id))
    case Stamp(t) =>
      var id, job := s.threads[t].id, s.jobs[s.threads[t].id];
      To(if job.finished.None? then s.(jobs := s.jobs[id := job.(finished := Some(s.now))]) else s, t, AtPrune(id))
    case Lock(t) => To(s, t, Scanning(s.threads[t].id, s.listed, None, map[])).(holder := Some(t))
    case Probe(t, j) =>
      var pc := s.threads[t];
      To(s, t, pc.(todo := pc.todo - {j}, probe := if s.jobs[j].status.Running? then None else Some(j)))
    case ReadStamp(t) =>
      var pc, at := s.threads[t], s.jobs[s.threads[t].probe.value].finished;
      To(s, t, pc.(probe := None, found := if at.Some? then pc.found[pc.probe.value := at.value] else pc.found))
    case Remove(t, victims) => To(s, t, Done).(listed := s.listed - victims, holder := None)
    case Tick => s.(now := s.now + 1)
  }

  function RunFrom(s: State, es: seq<Event>): Option<State> {
    if es == [] then Some(s)
    else
      var before := RunFrom(s, es[..|es| - 1]);
      if before.Some? && Enabled(before.value, es[|es| - 1]) then Some(Do(before.value, es[|es| - 1])) else None
  }

  // ---------------------------------------------------------------- once and only once

  /** What a job may become: its status leaves `Running` once, its finish time is set once. */
  predicate Onward(a: Job, b: Job) {
    && (a.status.Running? || b.status == a.status)
    && (a.finished.None? || b.finished == a.finished)
  }

  predicate AllOnward(s: State, s': State) {
    forall id :: id in s.jobs ==> id in s'.jobs && Onward(s.jobs[id], s'.jobs[id])
  }

  lemma StepIsOnward(s: State, e: Event)
    requires Enabled(s, e)
    ensures AllOnward(s, Do(s, e))
  {
  }

  /** Whatever races with whatever, a job's status leaves `Running` at most once and its finish
      time is set at most once, and neither is ever changed again. */
  lemma {:induction false} RunIsOnward(s: State, es: seq<Event>)
    requires RunFrom(s, es).Some?
    ensures AllOnward(s, RunFrom(s, es).value)
  {
    if es == [] {
    } else {
      hide Enabled, Do;
      var front := es[..|es| - 1];
      RunIsOnward(s, front);
      StepIsOnward(RunFrom(s, front).value, es[|es| - 1]);
    }
  }

  // ---------------------------------------------------------------- the invariant

  predicate PcOk(s: State, t: Thread, pc: Pc) {
    match pc
    case AtCheck(id) => id in s.jobs
    case AtStatus(id, outcome) => id in s.jobs && !outcome.Running?
    case AtStamp(id) => id in s.jobs && !s.jobs[id].status.Running?
    case AtPrune(id) => id in s.jobs && s.jobs[id].finished.Some?
    case Scanning(id, todo, probe, found) =>
      && id in s.jobs && s.jobs[id].finished.Some? && s.holder == Some(t) && todo <= s.listed
      && (probe.Some? ==> probe.value in s.listed && probe.value in s.jobs && !s.jobs[probe.value].status.Running?)
      && forall j :: j in found ==> j in s.listed && j in s.jobs && s.jobs[j].finished == Some(found[j])
    case Done => true
  }

  predicate JobsOk(s: State) {
    && s.listed <= s.jobs.Keys
    && (forall id :: id in s.jobs && s.jobs[id].status.Running? ==> id in s.listed && s.jobs[id].finished.None?)
  }

  predicate ThreadsOk(s: State) { forall t :: t in s.threads ==> PcOk(s, t, s.threads[t]) }

  /** The listed jobs that a prune counts. */
  function Finished(s: State): set<JobId> {
    set id | id in s.listed && id in s.jobs && s.jobs[id].finished.Some?
  }

  /** A prune that will see every finished job. */
  predicate Covers(s: State, pc: Pc) {
    && pc.Scanning?
    && forall j :: j in Finished(s) ==> j in pc.todo || pc.probe == Some(j) || j in pc.found
  }

  predicate Small(s: State) {
    || |Finished(s)| <= MAX_FINISHED
    || exists t :: t in s.threads && (s.threads[t].AtPrune? || Covers(s, s.threads[t]))
  }

  predicate Inv(s: State) { JobsOk(s) && ThreadsOk(s) && Small(s) }

  lemma VictimsFinished(s: State, t: Thread, victims: set<JobId>)
    requires ThreadsOk(s) && Enabled(s, Remove(t, victims))
    ensures forall v :: v in victims ==> v in s.listed && v in s.jobs && s.jobs[v].finished.Some?
  {
    assert PcOk(s, t, s.threads[t]);
    assert victims <= s.threads[t].found.Keys;
  }

  lemma StepKeepsJobs(s: State, e: Event)
    requires JobsOk(s) && ThreadsOk(s) && Enabled(s, e)
    ensures JobsOk(Do(s, e))
  {
    match e
    case SetStatus(t) => assert PcOk(s, t, s.threads[t]);
    case Stamp(t) => assert PcOk(s, t, s.threads[t]);
    case Remove(t, victims) => VictimsFinished(s, t, victims);
    case _ =>
  }

  /** Another thread's step leaves a thread's own facts standing. */
  lemma OthersKeepPc(s: State, e: Event, t: Thread)
    requires JobsOk(s) && ThreadsOk(s) && Enabled(s, e)
    requires t in s.threads && Do(s, e).threads[t] == s.threads[t]
    requires e.Remove? ==> e.t != t
    requires e.Lock? ==> !s.threads[t].Scanning?
    ensures PcOk(Do(s, e), t, s.threads[t])
  {
    assert PcOk(s, t, s.threads[t]);
    match e
    case Remove(u, victims) => assert PcOk(s, u, s.threads[u]);
    case SetStatus(u) => assert PcOk(s, u, s.threads[u]);
    case _ =>
  }

  lemma OwnPc(s: State, e: Event, t: Thread)
    requires JobsOk(s) && ThreadsOk(s) && Enabled(s, e)
    requires t in Do(s, e).threads && (t !in s.threads || Do(s, e).threads[t] != s.threads[t] || (e.Remove? && e.t == t))
    ensures PcOk(Do(s, e), t, Do(s, e).threads[t])
  {
    if t in s.threads { assert PcOk(s, t, s.threads[t]); }
  }

  lemma StepKeepsThreads(s: State, e: Event)
    requires JobsOk(s) && ThreadsOk(s) && Enabled(s, e)
    ensures ThreadsOk(Do(s, e))
  {
    hide JobsOk, PcOk;
    forall t | t in Do(s, e).threads ensures PcOk(Do(s, e), t, Do(s, e).threads[t]) {
      if t in s.threads && Do(s, e).threads[t] == s.threads[t] && !(e.Remove? && e.t == t) {
        if e.Lock? && s.threads[t].Scanning? { ScannersHold(s, t); }
        OthersKeepPc(s, e, t);
      } else {
        OwnPc(s, e, t);
      }
    }
  }

  lemma ScannersHold(s: State, t: Thread)
    requires ThreadsOk(s) && t in s.threads && s.threads[t].Scanning?
    ensures s.holder == Some(t)
  {
    assert PcOk(s, t, s.threads[t]);
  }

  // ---------------------------------------------------------------- the registry stays small

  lemma RemoveLeavesFew(s: State, t: Thread, victims: set<JobId>)
    requires JobsOk(s) && ThreadsOk(s) && Enabled(s, Remove(t, victims))
    requires Covers(s, s.threads[t])
    ensures |Finished(Do(s, Remove(t, victims)))| <= MAX_FINISHED
  {
    var found := s.threads[t].found;
    assert PcOk(s, t, s.threads[t]);
    assert Finished(s) == found.Keys;
    assert Finished(Do(s, Remove(t, victims))) == found.Keys - victims;
    KeysCount(found);
  }

  lemma KeysCount(m: map<JobId, nat>)
    ensures |m.Keys| == |m|
  {
  }

  /** Unless a step stamps a job or removes some, the finished jobs stay the same, and a prune
      that would have seen them all still will. */
  lemma StepKeepsCover(s: State, e: Event, t: Thread)
    requires JobsOk(s) && ThreadsOk(s) && Enabled(s, e) && !e.Stamp? && !e.Remove?
    requires t in s.threads && Covers(s, s.threads[t])
    ensures t in Do(s, e).threads && Covers(Do(s, e), Do(s, e).threads[t])
  {
    assert PcOk(s, t, s.threads[t]);
    var s' := Do(s, e);
    SameFinished(s, e);
    forall j | j in Finished(s')
      ensures j in s'.threads[t].todo || s'.threads[t].probe == Some(j) || j in s'.threads[t].found
    {
      assert j in Finished(s);
    }
  }

  lemma SameFinished(s: State, e: Event)
    requires JobsOk(s) && ThreadsOk(s) && Enabled(s, e) && !e.Stamp? && !e.Remove?
    ensures Finished(Do(s, e)) == Finished(s)
  {
    if e.SetStatus? { assert PcOk(s, e.t, s.threads[e.t]); }
  }

  lemma LockCovers(s: State, t: Thread)
    requires Enabled(s, Lock(t))
    ensures var s' := Do(s, Lock(t)); t in s'.threads && Covers(s', s'.threads[t])
  {
  }

  lemma StepKeepsSmall(s: State, e: Event)
    requires Inv(s) && Enabled(s, e)
    ensures Small(Do(s, e))
  {
    hide PcOk, JobsOk, ThreadsOk, Covers, Finished, Enabled;
    if e.Stamp? {
      StampWaits(s, e.t);
    } else if e.Lock? {
      LockCovers(s, e.t);
    } else if e.Remove? {
      RemoveKeepsSmall(s, e.t, e.victims);
    } else {
      SameFinished(s, e);
      if |Finished(s)| > MAX_FINISHED {
        var t :| t in s.threads && (s.threads[t].AtPrune? || Covers(s, s.threads[t]));
        if s.threads[t].AtPrune? { WaitersWait(s, e, t); } else { StepKeepsCover(s, e, t); }
      }
    }
  }

  lemma StampWaits(s: State, t: Thread)
    requires Enabled(s, Stamp(t))
    ensures t in Do(s, Stamp(t)).threads && Do(s, Stamp(t)).threads[t].AtPrune?
  {
  }

  lemma WaitersWait(s: State, e: Event, t: Thread)
    requires Enabled(s, e) && t in s.threads && s.threads[t].AtPrune? && !e.Lock?
    ensures t in Do(s, e).threads && Do(s, e).threads[t].AtPrune?
  {
  }

  lemma RemoveKeepsSmall(s: State, t: Thread, victims: set<JobId>)
    requires Inv(s) && Enabled(s, Remove(t, victims))
    ensures Small(Do(s, Remove(t, victims)))
  {
    hide PcOk, JobsOk, ThreadsOk, Covers, Finished;
    var s' := Do(s, Remove(t, victims));
    FewerFinished(s, t, victims);
    if |Finished(s)| > MAX_FINISHED {
      var u :| u in s.threads && (s.threads[u].AtPrune? || Covers(s, s.threads[u]));
      if s.threads[u].AtPrune? {
        assert s'.threads[u].AtPrune?;
      } else {
        CoverersScan(s, u);
        ScannersHold(s, u);
        ScannersHold(s, t);
        RemoveLeavesFew(s, t, victims);
      }
    }
  }

  lemma CoverersScan(s: State, u: Thread)
    requires u in s.threads && Covers(s, s.threads[u])
    ensures s.threads[u].Scanning?
  {
  }

  lemma FewerFinished(s: State, t: Thread, victims: set<JobId>)
    requires Enabled(s, Remove(t, victims))
    ensures |Finished(Do(s, Remove(t, victims)))| <= |Finished(s)|
  {
    SubsetSmaller(Finished(Do(s, Remove(t, victims))), Finished(s));
  }

  lemma {:induction false} RunKeepsInv(es: seq<Event>)
    requires RunFrom(INITIAL, es).Some?
    ensures Inv(RunFrom(INITIAL, es).value)
  {
    if es == [] {
      assert Finished(INITIAL) == {};
    } else {
      hide Enabled, Do, JobsOk, ThreadsOk, Small;
      var front := es[..|es| - 1];
      RunKeepsInv(front);
      var s := RunFrom(INITIAL, front).value;
      StepKeepsJobs(s, es[|es| - 1]);
      StepKeepsThreads(s, es[|es| - 1]);
      StepKeepsSmall(s, es[|es| - 1]);
    }
  }

  // ---------------------------------------------------------------- what that means

  /** A running job is never forgotten, in any interleaving; and a thread that is past the
      status step finds its job ended, so a kill never reports its target as running. */
  lemma RunningStaysListed(es: seq<Event>, id: JobId)
    requires RunFrom(INITIAL, es).Some?
    ensures var s := RunFrom(INITIAL, es).value;
            && (id in s.jobs && s.jobs[id].status.Running? ==> id in s.listed && s.jobs[id].finished.None?)
            && (forall t :: t in s.threads && (s.threads[t].AtStamp? || s.threads[t].AtPrune? || s.threads[t].Scanning?) ==>
                  s.threads[t].id in s.jobs && !s.jobs[s.threads[t].id].status.Running?)
  {
    hide RunFrom, Small;
    RunKeepsInv(es);
    var s := RunFrom(INITIAL, es).value;
    forall t | t in s.threads && (s.threads[t].AtStamp? || s.threads[t].AtPrune? || s.threads[t].Scanning?)
      ensures s.threads[t].id in s.jobs && !s.jobs[s.threads[t].id].status.Running?
    {
      assert PcOk(s, t, s.threads[t]);
    }
  }

  /** A job that a prune forgets leaves sixteen finished jobs behind that ended no earlier,
      even when jobs end while the prune is looking. */
  lemma ForgottenAreOld(es: seq<Event>, t: Thread, victims: set<JobId>)
    requires RunFrom(INITIAL, es).Some? && Enabled(RunFrom(INITIAL, es).value, Remove(t, victims)) && victims != {}
    ensures var s := RunFrom(INITIAL, es).value;
            var kept := s.threads[t].found.Keys - victims;
            && |kept| == 16 && kept <= Do(s, Remove(t, victims)).listed
            && forall v, k :: v in victims && k in kept ==>
                 && v in s.jobs && k in s.jobs && s.jobs[v].finished.Some? && s.jobs[k].finished.Some?
                 && s.jobs[v].finished.value <= s.jobs[k].finished.value
  {
    hide RunFrom, Small, JobsOk;
    RunKeepsInv(es);
    var s := RunFrom(INITIAL, es).value;
    assert PcOk(s, t, s.threads[t]);
    KeysCount(s.threads[t].found);
  }

  /** Whenever no thread is between stamping a job and the end of its prune, the registry
      lists at most sixteen finished jobs. */
  lemma QuietRegistryIsSmall(es: seq<Event>)
    requires RunFrom(INITIAL, es).Some?
    requires var s := RunFrom(INITIAL, es).value;
             forall t :: t in s.threads ==> !s.threads[t].AtPrune? && !s.threads[t].Scanning?
    ensures |Finished(RunFrom(INITIAL, es).value)| <= 16
  {
    hide RunFrom, JobsOk, ThreadsOk, Finished;
    RunKeepsInv(es);
  }

  // ---------------------------------------------------------------- a prune nothing interrupts

  /** The finished jobs with their times. */
  function FoundIn(jobs: map<JobId, Job>): map<JobId, nat> {
    map j | j in jobs && !jobs[j].status.Running? && jobs[j].finished.Some? :: jobs[j].finished.value
  }

  datatype Ended = Ended(id: JobId, at: nat)

  function Insert(e: Ended, s: seq<Ended>): seq<Ended> {
    if s == [] || e.at <= s[0].at then [e] + s else [s[0]] + Insert(e, s[1..])
  }

  /** A stable sort, oldest first. */
  function OldestFirst(s: seq<Ended>): seq<Ended> { if s == [] then [] else Insert(s[0], OldestFirst(s[1..])) }

  predicate Sorted(s: seq<Ended>) { forall i, j :: 0 <= i < j < |s| ==> s[i].at <= s[j].at }

  lemma {:induction false} InsertHolds(e: Ended, s: seq<Ended>)
    ensures multiset(Insert(e, s)) == multiset(s) + multiset{e}
    ensures forall x :: x in Insert(e, s) ==> x == e || x in s
  {
    if s == [] || e.at <= s[0].at {
    } else {
      InsertHolds(e, s[1..]);
      assert s == [s[0]] + s[1..];
    }
  }

  lemma {:induction false} InsertSorts(e: Ended, s: seq<Ended>)
    requires Sorted(s)
    ensures Sorted(Insert(e, s))
  {
    if s == [] || e.at <= s[0].at {
    } else {
      InsertSorts(e, s[1..]);
      InsertHolds(e, s[1..]);
      forall x | x in Insert(e, s[1..]) ensures s[0].at <= x.at {
        if x != e { assert x in s[1..]; }
      }
    }
  }

  lemma {:induction false} SortSorts(s: seq<Ended>)
    ensures Sorted(OldestFirst(s)) && multiset(OldestFirst(s)) == multiset(s)
  {
    if s == [] {
    } else {
      SortSorts(s[1..]);
      InsertSorts(s[0], OldestFirst(s[1..]));
      InsertHolds(s[0], OldestFirst(s[1..]));
      assert s == [s[0]] + s[1..];
    }
  }

  function Ids(s: seq<Ended>): set<JobId> { set e | e in s :: e.id }

  /** `s` lists the entries of `found`, each once. */
  predicate Lists(s: seq<Ended>, found: map<JobId, nat>) {
    && (forall i, j :: 0 <= i < j < |s| ==> s[i].id != s[j].id)
    && Ids(s) == found.Keys
    && forall e :: e in s ==> found[e.id] == e.at
  }

  lemma {:induction false} IdsCount(s: seq<Ended>)
    requires forall i, j :: 0 <= i < j < |s| ==> s[i].id != s[j].id
    ensures |Ids(s)| == |s|
  {
    if s == [] {
    } else {
      var front, last := s[..|s| - 1], s[|s| - 1];
      IdsCount(front);
      assert s == front + [last];
      assert Ids(s) == Ids(front) + {last.id};
      assert last.id !in Ids(front);
    }
  }

  lemma SortLists(s: seq<Ended>, found: map<JobId, nat>)
    requires Lists(s, found)
    ensures Lists(OldestFirst(s), found) && |OldestFirst(s)| == |s| && Sorted(OldestFirst(s))
  {
    SortSorts(s);
    var t := OldestFirst(s);
    assert |t| == |multiset(t)| == |multiset(s)| == |s|;
    forall e ensures e in t <==> e in s { assert e in multiset(t) <==> e in multiset(s); }
    IdsCount(s);
    SameCountDistinct(t, |found.Keys|) by { assert Ids(t) == Ids(s); }
  }

  /** As many ids as entries: no id twice. */
  lemma {:induction false} SameCountDistinct(s: seq<Ended>, n: nat)
    requires |s| == n && |Ids(s)| == n
    ensures forall i, j :: 0 <= i < j < |s| ==> s[i].id != s[j].id
  {
    if s == [] {
    } else {
      var front, last := s[..n - 1], s[n - 1];
      assert s == front + [last];
      assert Ids(s) == Ids(front) + {last.id};
      IdsBound(front);
      assert last.id in Ids(front) ==> Ids(s) == Ids(front);
      SameCountDistinct(front, n - 1);
      forall i, j | 0 <= i < j < |s| ensures s[i].id != s[j].id {
        assert front[i] == s[i] && front[i] in front && front[i].id in Ids(front);
        if j < n - 1 { assert front[j] == s[j]; }
      }
    }
  }

  lemma {:induction false} IdsBound(s: seq<Ended>)
    ensures |Ids(s)| <= |s|
  {
    if s == [] {
    } else {
      var front, last := s[..|s| - 1], s[|s| - 1];
      IdsBound(front);
      assert s == front + [last];
      assert Ids(s) == Ids(front) + {last.id};
    }
  }

  lemma OlderFirst(s: seq<Ended>, found: map<JobId, nat>, n: nat, v: JobId, k: JobId)
    requires Lists(s, found) && Sorted(s) && n <= |s|
    requires v in Ids(s[..n]) && k in found && k !in Ids(s[..n])
    ensures v in found && found[v] <= found[k]
  {
    var i := IndexOf(s[..n], v);
    var j := IndexOf(s, k);
    assert s[..n][i] == s[i] && s[i] in s && s[j] in s;
    PrefixHas(s, n, j);
  }

  lemma PrefixHas(s: seq<Ended>, n: nat, j: nat)
    requires n <= |s|
    ensures j < n ==> s[j].id in Ids(s[..n])
  {
    if j < n { assert s[..n][j] in s[..n]; }
  }

  lemma IndexOf(s: seq<Ended>, id: JobId) returns (i: nat)
    requires id in Ids(s)
    ensures i < |s| && s[i].id == id
  {
    var e :| e in s && e.id == id;
    i :| 0 <= i < |s| && s[i] == e;
  }

  lemma PrefixIds(s: seq<Ended>, n: nat)
    requires n <= |s| && forall i, j :: 0 <= i < j < |s| ==> s[i].id != s[j].id
    ensures Ids(s[..n]) <= Ids(s) && |Ids(s[..n])| == n && |Ids(s)| == |s|
  {
    IdsCount(s);
    IdsCount(s[..n]);
    assert forall e :: e in s[..n] ==> e in s;
  }

  lemma FirstCount(s: seq<Ended>, found: map<JobId, nat>, n: nat)
    requires Lists(s, found) && n <= |s|
    ensures Ids(s[..n]) <= found.Keys && |Ids(s[..n])| == n && |s| == |found|
  {
    PrefixIds(s, n);
    KeysCount(found);
  }

  lemma FirstAreOldest(s: seq<Ended>, found: map<JobId, nat>)
    requires Lists(s, found) && Sorted(s) && |s| > MAX_FINISHED
    ensures AreOldest(found, Ids(s[..|s| - MAX_FINISHED]))
  {
    hide Sorted, Lists, Ids;
    var n := |s| - MAX_FINISHED;
    FirstCount(s, found, n);
    var victims := Ids(s[..n]);
    forall v, k | v in victims && k in found && k !in victims ensures found[v] <= found[k] {
      OlderFirst(s, found, n, v, k);
    }
  }

  class Registry {
    var jobs: map<JobId, Job>

    constructor ()
      ensures jobs == map[]
    {
      jobs := map[];
    }

    /** Forget the oldest finished jobs beyond the limit, and nothing else. */
    method Prune() returns (ghost victims: set<JobId>)
      modifies this
      ensures AreOldest(FoundIn(old(jobs)), victims) && jobs == old(jobs) - victims
    {
      hide AreOldest, Sorted, FoundIn, Ids, OldestFirst;
      ghost var found := FoundIn(jobs);
      var finished := Collect();
      ListsCount(finished, found);
      if |finished| <= MAX_FINISHED {
        NoneTooMany(found);
        return {};
      }
      SortLists(finished, found);
      finished := OldestFirst(finished);
      hide Lists;
      var n := |finished| - MAX_FINISHED;
      NoIds(finished[..0]);
      for k := 0 to n
        invariant jobs == old(jobs) - Ids(finished[..k])
      {
        IdsSnoc(finished, k);
        jobs := jobs - {finished[k].id};
      }
      FirstAreOldest(finished, found);
      return Ids(finished[..n]);
    }

    /** The finished jobs, in whatever order the map yields them. */
    method Collect() returns (finished: seq<Ended>)
      ensures Lists(finished, FoundIn(jobs))
    {
      finished := [];
      var todo := jobs.Keys;
      while todo != {}
        invariant todo <= jobs.Keys
        invariant Lists(finished, map j | j in FoundIn(jobs) && j !in todo :: FoundIn(jobs)[j])
        decreases |todo|
      {
        var j :| j in todo;
        ghost var before := map i | i in FoundIn(jobs) && i !in todo :: FoundIn(jobs)[i];
        todo := todo - {j};
        ghost var after := map i | i in FoundIn(jobs) && i !in todo :: FoundIn(jobs)[i];
        if !jobs[j].status.Running? && jobs[j].finished.Some? {
          assert after == before[j := jobs[j].finished.value];
          ListsOneMore(finished, before, Ended(j, jobs[j].finished.value));
          finished := finished + [Ended(j, jobs[j].finished.value)];
        } else {
          assert after == before;
        }
      }
      assert FoundIn(jobs) == map j | j in FoundIn(jobs) && j !in todo :: FoundIn(jobs)[j];
    }
  }

  lemma ListsCount(s: seq<Ended>, found: map<JobId, nat>)
    requires Lists(s, found)
    ensures |s| == |found|
  {
    IdsCount(s);
    KeysCount(found);
  }

  lemma NoIds(s: seq<Ended>)
    requires s == []
    ensures Ids(s) == {}
  {
  }

  lemma IdsSnoc(s: seq<Ended>, k: nat)
    requires k < |s|
    ensures Ids(s[..k + 1]) == Ids(s[..k]) + {s[k].id}
  {
    assert s[..k + 1] == s[..k] + [s[k]];
  }

  lemma NoneTooMany(found: map<JobId, nat>)
    requires |found| <= MAX_FINISHED
    ensures AreOldest(found, {})
  {
  }

  lemma ListsOneMore(s: seq<Ended>, found: map<JobId, nat>, e: Ended)
    requires Lists(s, found) && e.id !in found
    ensures Lists(s + [e], found[e.id := e.at])
  {
    assert Ids(s + [e]) == Ids(s) + {e.id};
    forall x | x in s + [e] ensures found[e.id := e.at][x.id] == x.at {
      if x in s { assert x.id in Ids(s); }
    }
    forall i, j | 0 <= i < j < |s + [e]| ensures (s + [e])[i].id != (s + [e])[j].id {
      if j == |s| { assert s[i] in s && s[i].id in Ids(s); }
    }
  }

  /** After such a prune exactly the latest finished jobs are left, and every other job. */
  lemma PruneLeavesLatest(jobs: map<JobId, Job>, victims: set<JobId>)
    requires AreOldest(FoundIn(jobs), victims)
    ensures var left := jobs - victims;
            && |FoundIn(left)| == Min(|FoundIn(jobs)|, 16)
            && (forall j :: j in FoundIn(jobs) <==> j in jobs && !jobs[j].status.Running? && jobs[j].finished.Some?)
            && (forall j :: j in jobs && (jobs[j].status.Running? || jobs[j].finished.None?) ==> j in left)
            && forall v, k :: v in victims && k in FoundIn(left) ==> FoundIn(jobs)[v] <= FoundIn(jobs)[k]
  {
    var found, left := FoundIn(jobs), jobs - victims;
    KeysCount(found);
    KeysCount(FoundIn(left));
    FoundInRest(jobs, victims);
    FoundInIs(jobs);
    hide FoundIn;
    assert FoundIn(left).Keys == found.Keys - victims;
  }

  lemma FoundInIs(jobs: map<JobId, Job>)
    ensures forall j :: j in FoundIn(jobs) <==> j in jobs && !jobs[j].status.Running? && jobs[j].finished.Some?
  {
  }

  lemma FoundInRest(jobs: map<JobId, Job>, victims: set<JobId>)
    ensures FoundIn(jobs - victims) == FoundIn(jobs) - victims
    ensures forall j :: j in FoundIn(jobs) ==> j in jobs
  {
  }

  // ---------------------------------------------------------------- the steps of an undisturbed prune

  /** The registry as a map. */
  function Listed(s: State): map<JobId, Job> { map j | j in s.listed && j in s.jobs :: s.jobs[j] }

  /** The jobs that a scan has looked at. */
  function LookedAt(s: State, pc: Pc): map<JobId, Job>
    requires pc.Scanning?
  {
    map j | j in s.listed && j in s.jobs && j !in pc.todo && pc.probe != Some(j) :: s.jobs[j]
  }

  /** Thread `t` has scanned the jobs of `s` so far, and nothing changed meanwhile. */
  predicate ScannedSoFar(s: State, t: Thread, now: State) {
    && now.jobs == s.jobs && now.listed == s.listed
    && t in now.threads && now.threads[t].Scanning?
    && var pc := now.threads[t];
       && (pc.probe.Some? ==> pc.probe.value in s.listed && pc.probe.value in s.jobs
                              && pc.probe.value !in pc.todo && !s.jobs[pc.probe.value].status.Running?)
       && pc.found == FoundIn(LookedAt(now, pc))
  }

  predicate IsScanStep(e: Event, t: Thread) { e.Tick? || (e.Probe? && e.t == t) || (e.ReadStamp? && e.t == t) }

  lemma ScanStep(s: State, t: Thread, now: State, e: Event)
    requires s.listed <= s.jobs.Keys && ScannedSoFar(s, t, now) && IsScanStep(e, t) && Enabled(now, e)
    requires e.Probe? ==> e.j in s.listed
    ensures ScannedSoFar(s, t, Do(now, e))
  {
    match e
    case Probe(_, j) =>
      var pc, after := now.threads[t], Do(now, e).threads[t];
      if s.jobs[j].status.Running? {
        assert FoundIn(LookedAt(Do(now, e), after)) == FoundIn(LookedAt(now, pc));
      } else {
        assert LookedAt(Do(now, e), after) == LookedAt(now, pc);
      }
    case ReadStamp(_) =>
      var pc, after := now.threads[t], Do(now, e).threads[t];
      var j := pc.probe.value;
      assert LookedAt(Do(now, e), after) == LookedAt(now, pc)[j := s.jobs[j]];
    case Tick =>
  }

  lemma TodoListed(s: State, t: Thread, e: Event)
    requires t in s.threads && s.threads[t].Scanning? && s.threads[t].todo <= s.listed && IsScanStep(e, t) && Enabled(s, e)
    ensures Do(s, e).threads[t].Scanning? && Do(s, e).threads[t].todo <= s.listed
    ensures e.Probe? ==> e.j in s.listed
  {
  }

  lemma {:induction false} ScanRuns(s: State, t: Thread, es: seq<Event>)
    requires s.listed <= s.jobs.Keys && Enabled(s, Lock(t))
    requires RunFrom(Do(s, Lock(t)), es).Some? && forall k :: 0 <= k < |es| ==> IsScanStep(es[k], t)
    ensures var now := RunFrom(Do(s, Lock(t)), es).value;
            ScannedSoFar(s, t, now) && now.threads[t].todo <= s.listed
  {
    if es == [] {
      var now := Do(s, Lock(t));
      assert LookedAt(now, now.threads[t]) == map[];
    } else {
      hide Enabled, Do, IsScanStep;
      var n := |es| - 1;
      ScanRuns(s, t, es[..n]);
      var before := RunFrom(Do(s, Lock(t)), es[..n]).value;
      TodoListed(before, t, es[n]);
      ScanStep(s, t, before, es[n]);
    }
  }

  /** A stepwise prune that no other thread disturbs does to the registry what `Registry.Prune`
      does: it finds exactly the finished jobs, and removes the oldest beyond the limit. */
  lemma UndisturbedPrune(s: State, t: Thread, es: seq<Event>, victims: set<JobId>)
    requires s.listed <= s.jobs.Keys && Enabled(s, Lock(t))
    requires RunFrom(Do(s, Lock(t)), es).Some? && forall k :: 0 <= k < |es| ==> IsScanStep(es[k], t)
    requires Enabled(RunFrom(Do(s, Lock(t)), es).value, Remove(t, victims))
    ensures var end := Do(RunFrom(Do(s, Lock(t)), es).value, Remove(t, victims));
            AreOldest(FoundIn(Listed(s)), victims) && Listed(end) == Listed(s) - victims
  {
    hide RunFrom, AreOldest, IsScanStep, FoundIn;
    ScanRuns(s, t, es);
    var now := RunFrom(Do(s, Lock(t)), es).value;
    assert LookedAt(now, now.threads[t]) == Listed(s);
  }
}
