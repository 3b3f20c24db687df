/** Stopping a turn from another thread (crates/mc-core/src/cancel.rs).

    A flag is paired with a notifier. The notifier remembers how often all waiters were
    notified: a `notified()` future completes once that count has moved on from what it was when
    the future was made. Every load, store and notification is one step, and the steps of any
    number of threads interleave. */
module CancelProtocol {
  import opened Basics

  type Thread = nat

  datatype Pc =
    | AtStore                    // cancel: about to set the flag
    | AtNotify                   // cancel: about to wake the waiters
    | AtReset                    // reset: about to clear the flag
    | AtCheck                    // cancelled: about to look at the flag
    | AtRegister                 // cancelled: about to make the future
    | AtRecheck(seen: nat)       // cancelled: about to look again
    | Parked(seen: nat)          // cancelled: waiting for the future
    | Returned                   // cancelled has resolved
    | Done                       // cancel or reset has returned

  datatype State = State(flag: bool, calls: nat, threads: map<Thread, Pc>)

  const INITIAL := State(false, 0, map[])

  datatype Event = CallCancel(t: Thread) | CallReset(t: Thread) | CallCancelled(t: Thread) | Step(t: Thread)

  predicate Blocked(s: State, pc: Pc) { pc.Returned? || pc.Done? || (pc.Parked? && s.calls <= pc.seen) }

  predicate Enabled(s: State, e: Event) {
    match e
    case Step(t) => t in s.threads && !Blocked(s, s.threads[t])
    case CallCancel(t) => t !in s.threads
    case CallReset(t) => t !in s.threads
    case CallCancelled(t) => t !in s.threads
  }

  function To(s: State, t: Thread, pc: Pc): State { s.(threads := s.threads[t := pc]) }

  function StepOf(s: State, t: Thread): State
    requires t in s.threads && !Blocked(s, s.threads[t])
  {
    match s.threads[t]
    case AtStore => To(s.(flag := true), t, AtNotify)
    case AtNotify => To(s.(calls := s.calls + 1), t, Done)
    case AtReset => To(s.(flag := false), t, Done)
    case AtCheck => To(s, t, if s.flag then Returned else AtRegister)
    case AtRegister => To(s, t, AtRecheck(s.calls))
    case AtRecheck(seen) => To(s, t, if s.flag then Returned else Parked(seen))
    case Parked(_) => To(s, t, AtCheck)
  }

  function Do(s: State, e: Event): State
    requires Enabled(s, e)
  {
    match e
    case CallCancel(t) => To(s, t, AtStore)
    case CallReset(t) => To(s, t, AtReset)
    case CallCancelled(t) => To(s, t, AtCheck)
    case Step(t) => StepOf(s, t)
  }

  function RunFrom(s: State, es: seq<Event>): Option<State> {
    if es == [] then Some(s)
    else
      var before := RunFrom(s, es[..|es| - 1]);
      if before.Some? && Enabled(before.value, es[|es| - 1]) then Some(Do(before.value, es[|es| - 1])) else None
  }

  // ---------------------------------------------------------------- no wakeup is lost

  predicate Asleep(s: State, t: Thread) { t in s.threads && s.threads[t].Parked? && s.threads[t].seen == s.calls }

  predicate Cancelling(s: State) { exists c :: c in s.threads && s.threads[c].AtNotify? }

  predicate Inv(s: State) {
    && (forall t :: t in s.threads && (s.threads[t].Parked? || s.threads[t].AtRecheck?) ==> s.threads[t].seen <= s.calls)
    && (forall t :: t in s.threads && Asleep(s, t) && s.flag ==> Cancelling(s))
  }

  lemma StepKeepsInv(s: State, e: Event)
    requires Inv(s) && Enabled(s, e)
    ensures Inv(Do(s, e))
  {
    var s' := Do(s, e);
    forall t | Asleep(s', t) && s'.flag ensures Cancelling(s') {
      if e.Step? && s.threads[e.t].AtStore? {
        assert s'.threads[e.t].AtNotify?;
      } else {
        assert Asleep(s, t);
        var c :| c in s.threads && s.threads[c].AtNotify?;
        assert s'.threads[c].AtNotify?;
      }
    }
  }

  lemma {:induction false} RunKeepsInv(s: State, es: seq<Event>)
    requires Inv(s) && RunFrom(s, es).Some?
    ensures Inv(RunFrom(s, es).value)
  {
    if es == [] {
    } else {
      hide Inv, Enabled, Do;
      RunKeepsInv(s, es[..|es| - 1]);
      StepKeepsInv(RunFrom(s, es[..|es| - 1]).value, es[|es| - 1]);
    }
  }

  /** In every interleaving: if the flag is set and a waiter sleeps un-notified, some canceller is
      still between setting the flag and notifying. */
  lemma NoLostWakeup(es: seq<Event>, t: Thread)
    requires RunFrom(INITIAL, es).Some?
    ensures var s := RunFrom(INITIAL, es).value;
            s.flag && Asleep(s, t) ==> Cancelling(s)
  {
    hide RunFrom;
    RunKeepsInv(INITIAL, es);
  }

  // ---------------------------------------------------------------- and every waiter gets out

  /** How many steps of its own a waiter is away from returning while the flag is set. */
  function StepsLeft(pc: Pc): nat {
    match pc
    case AtCheck => 1
    case AtRegister => 2
    case AtRecheck(_) => 1
    case Parked(_) => 2
    case _ => 0
  }

  predicate Waits(pc: Pc) { pc.AtCheck? || pc.AtRegister? || pc.AtRecheck? || pc.Parked? }

  /** The flag is set, nobody is about to clear it, and every parked waiter has been notified. */
  predicate Cancelled(s: State) {
    && s.flag
    && forall t :: t in s.threads ==>
         !s.threads[t].AtReset? && (s.threads[t].Parked? ==> s.threads[t].seen < s.calls)
  }

  /** So it is in every reachable state in which the flag is set and all cancels and resets that
      were called have returned. */
  lemma CompletedIsCancelled(s: State)
    requires Inv(s) && s.flag
    requires forall t :: t in s.threads ==> !s.threads[t].AtNotify? && !s.threads[t].AtReset?
    ensures Cancelled(s)
  {
    forall t | t in s.threads && s.threads[t].Parked? ensures s.threads[t].seen < s.calls {
      assert Asleep(s, t) ==> Cancelling(s);
    }
  }

  /** The steps of `t` in a run. */
  function Own(es: seq<Event>, t: Thread): nat {
    if es == [] then 0 else Own(es[..|es| - 1], t) + (if es[|es| - 1] == Step(t) then 1 else 0)
  }

  lemma CancelledStep(s: State, e: Event, t: Thread)
    requires Cancelled(s) && Enabled(s, e) && !e.CallReset?
    requires t in s.threads && (Waits(s.threads[t]) || s.threads[t].Returned?)
    ensures var s' := Do(s, e);
            && Cancelled(s') && t in s'.threads && (Waits(s'.threads[t]) || s'.threads[t].Returned?)
            && StepsLeft(s'.threads[t]) + (if e == Step(t) then 1 else 0) == StepsLeft(s.threads[t])
  {
  }

  /** From such a state on, as long as no reset is called, no waiter is ever blocked, and each
      returns after at most two steps of its own, whatever the others do, new cancels and new
      waiters included. */
  lemma {:induction false} WaitersReturn(s: State, es: seq<Event>, t: Thread)
    requires Cancelled(s) && RunFrom(s, es).Some? && forall k :: 0 <= k < |es| ==> !es[k].CallReset?
    requires t in s.threads && Waits(s.threads[t])
    ensures var s' := RunFrom(s, es).value;
            && Cancelled(s') && t in s'.threads && (Waits(s'.threads[t]) || s'.threads[t].Returned?)
            && Own(es, t) + StepsLeft(s'.threads[t]) == StepsLeft(s.threads[t]) <= 2
            && (s'.threads[t].Returned? <==> Own(es, t) == StepsLeft(s.threads[t]))
            && (!s'.threads[t].Returned? ==> Enabled(s', Step(t)))
  {
    if es == [] {
      Awake(s, t);
    } else {
      hide Cancelled, Enabled, Do;
      var n := |es| - 1;
      WaitersReturn(s, es[..n], t);
      var before := RunFrom(s, es[..n]).value;
      CancelledStep(before, es[n], t);
      if Waits(Do(before, es[n]).threads[t]) { Awake(Do(before, es[n]), t); }
    }
  }

  lemma Awake(s: State, t: Thread)
    requires Cancelled(s) && t in s.threads && Waits(s.threads[t])
    ensures Enabled(s, Step(t))
  {
  }

  // ---------------------------------------------------------------- and only after a cancel

  /** Event `j` of the run is a canceller setting the flag. */
  predicate StoresAt(es: seq<Event>, j: nat) {
    && j < |es| && es[j].Step?
    && var s := RunFrom(INITIAL, es[..j]);
       s.Some? && es[j].t in s.value.threads && s.value.threads[es[j].t].AtStore?
  }

  /** Event `j` of the run is a reset clearing it. */
  predicate ResetsAt(es: seq<Event>, j: nat) {
    && j < |es| && es[j].Step?
    && var s := RunFrom(INITIAL, es[..j]);
       s.Some? && es[j].t in s.value.threads && s.value.threads[es[j].t].AtReset?
  }

  /** A canceller's store at `j` is still in effect at `k`. */
  predicate StoreHolds(es: seq<Event>, j: nat, k: nat) {
    j < k <= |es| && StoresAt(es, j) && forall m :: j < m < k ==> !ResetsAt(es, m)
  }

  lemma FlagStep(s: State, e: Event)
    requires Enabled(s, e) && Do(s, e).flag
    ensures (e.Step? && s.threads[e.t].AtStore?) || (s.flag && !(e.Step? && s.threads[e.t].AtReset?))
  {
  }

  lemma PrefixEvents(es: seq<Event>, n: nat, j: nat)
    requires j < n <= |es|
    ensures StoresAt(es[..n], j) == StoresAt(es, j) && ResetsAt(es[..n], j) == ResetsAt(es, j)
  {
    hide RunFrom;
    assert es[..n][..j] == es[..j];
  }

  lemma PrefixHolds(es: seq<Event>, n: nat, j: nat, k: nat)
    requires n <= |es| && StoreHolds(es[..n], j, k)
    ensures StoreHolds(es, j, k)
  {
    hide StoresAt, ResetsAt;
    PrefixEvents(es, n, j);
    forall m | j < m < k ensures !ResetsAt(es, m) { PrefixEvents(es, n, m); }
  }

  /** The flag is set only by a canceller, and stays set only while nobody resets it. */
  lemma {:induction false} FlagFromStore(es: seq<Event>) returns (j: nat)
    requires RunFrom(INITIAL, es).Some? && RunFrom(INITIAL, es).value.flag
    ensures StoreHolds(es, j, |es|)
  {
    assert es != [];
    var n := |es| - 1;
    var before := RunFrom(INITIAL, es[..n]).value;
    FlagStep(before, es[n]);
    if es[n].Step? && before.threads[es[n].t].AtStore? {
      j := n;
    } else {
      j := FlagFromStore(es[..n]);
      hide RunFrom, StoresAt;
      PrefixHolds(es, n, j, n);
    }
  }

  lemma ReturnStep(s: State, e: Event, t: Thread)
    requires Enabled(s, e) && t in Do(s, e).threads && Do(s, e).threads[t].Returned?
    ensures (t in s.threads && s.threads[t].Returned?) || (e == Step(t) && s.flag && Waits(s.threads[t]))
  {
  }

  /** `cancelled` never resolves on its own: in every run, a waiter that has returned did so in a
      step of its own at which some canceller's store was in effect, with no reset since. */
  lemma {:induction false} ReturnsOnlyCancelled(es: seq<Event>, t: Thread) returns (j: nat, k: nat)
    requires RunFrom(INITIAL, es).Some?
    requires var s := RunFrom(INITIAL, es).value; t in s.threads && s.threads[t].Returned?
    ensures k < |es| && es[k] == Step(t) && StoreHolds(es, j, k)
    ensures var s := RunFrom(INITIAL, es[..k]); s.Some? && t in s.value.threads && Waits(s.value.threads[t])
  {
    assert es != [];
    var n := |es| - 1;
    var before := RunFrom(INITIAL, es[..n]).value;
    ReturnStep(before, es[n], t);
    if t in before.threads && before.threads[t].Returned? {
      j, k := ReturnsOnlyCancelled(es[..n], t);
      assert es[..n][..k] == es[..k];
    } else {
      k := n;
      j := FlagFromStore(es[..n]);
    }
    PrefixHolds(es, n, j, k);
  }
}
