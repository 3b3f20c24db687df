/** How jobs end (crates/mc-sandbox/src/jobs.rs): a kill that has returned left nothing running,
    a status always has a cause, and a finish time is when the job was found to have ended. */
module JobEndings {
  import opened Basics
  import opened JobRegistry

  lemma RunSnoc(s: State, es: seq<Event>, e: Event)
    ensures var before := RunFrom(s, es);
            RunFrom(s, es + [e])
            == if before.Some? && Enabled(before.value, e) then Some(Do(before.value, e)) else None
  {
    assert (es + [e])[..|es|] == es;
  }

  // ---------------------------------------------------------------- kills

  /** Where a kill of `id` by thread `t` stands. */
  predicate Killing(s: State, t: Thread, id: JobId) {
    && t in s.threads && id in s.jobs
    && match s.threads[t]
       case AtCheck(i) => i == id
       case AtStatus(i, outcome) => i == id && outcome == Killed
       case _ => !s.jobs[id].status.Running?
  }

  lemma KillGoesOn(s: State, e: Event, t: Thread, id: JobId)
    requires Inv(s) && Enabled(s, e) && Killing(s, t, id)
    ensures Killing(Do(s, e), t, id)
  {
    hide Small, JobsOk;
    StepIsOnward(s, e);
    assert PcOk(s, t, s.threads[t]);
  }

  lemma {:induction false} KillStands(es: seq<Event>, id: JobId, t: Thread, more: seq<Event>)
    requires RunFrom(INITIAL, es).Some? && Enabled(RunFrom(INITIAL, es).value, CallKill(id, t))
    requires id in RunFrom(INITIAL, es).value.jobs
    requires RunFrom(INITIAL, es + [CallKill(id, t)] + more).Some?
    ensures Killing(RunFrom(INITIAL, es + [CallKill(id, t)] + more).value, t, id)
    decreases |more|
  {
    var all := es + [CallKill(id, t)] + more;
    hide RunFrom, Enabled, Do, Killing, Inv;
    if more == [] {
      assert all == es + [CallKill(id, t)];
      RunSnoc(INITIAL, es, CallKill(id, t));
      RunKeepsInv(es);
      KillBegins(RunFrom(INITIAL, es).value, id, t);
    } else {
      var front, last := more[..|more| - 1], more[|more| - 1];
      assert all == es + [CallKill(id, t)] + front + [last];
      RunSnoc(INITIAL, es + [CallKill(id, t)] + front, last);
      KillStands(es, id, t, front);
      RunKeepsInv(es + [CallKill(id, t)] + front);
      KillGoesOn(RunFrom(INITIAL, es + [CallKill(id, t)] + front).value, last, t, id);
    }
  }

  lemma KillBegins(s: State, id: JobId, t: Thread)
    requires Inv(s) && Enabled(s, CallKill(id, t)) && id in s.jobs
    ensures Killing(Do(s, CallKill(id, t)), t, id)
  {
    hide Small, ThreadsOk;
  }

  /** Whatever races with it, once a kill has returned its job is not running. */
  lemma KillEnds(es: seq<Event>, id: JobId, t: Thread, more: seq<Event>)
    requires RunFrom(INITIAL, es).Some? && Enabled(RunFrom(INITIAL, es).value, CallKill(id, t))
    requires id in RunFrom(INITIAL, es).value.jobs
    requires RunFrom(INITIAL, es + [CallKill(id, t)] + more).Some?
    ensures var s := RunFrom(INITIAL, es + [CallKill(id, t)] + more).value;
            t in s.threads && id in s.jobs && (s.threads[t].Done? ==> !s.jobs[id].status.Running?)
  {
    hide RunFrom, Enabled;
    KillStands(es, id, t, more);
  }

  /** No other thread sets the status of `id` during `es`. */
  predicate LeftAlone(s: State, es: seq<Event>, id: JobId, t: Thread) {
    forall k :: 0 <= k < |es| && es[k].SetStatus? && es[k].t != t ==>
      var before := RunFrom(s, es[..k]);
      before.Some? && es[k].t in before.value.threads && before.value.threads[es[k].t].AtStatus?
      && before.value.threads[es[k].t].id != id
  }

  /** The kill is on its way, or has ended the job. */
  predicate WillBeKilled(s: State, t: Thread, id: JobId) {
    && t in s.threads && id in s.jobs
    && match s.threads[t]
       case AtCheck(i) => i == id && s.jobs[id].status.Running?
       case AtStatus(i, outcome) => i == id && outcome == Killed && s.jobs[id].status.Running?
       case _ => s.jobs[id].status == Killed
  }

  lemma KillNotDisturbed(s: State, e: Event, t: Thread, id: JobId)
    requires Enabled(s, e) && WillBeKilled(s, t, id)
    requires e.SetStatus? && e.t != t ==> s.threads[e.t].id != id
    ensures WillBeKilled(Do(s, e), t, id)
  {
  }

  /** A kill of a running job ends it as killed, unless the job's own end was recorded first. */
  lemma {:induction false} KillMarks(s: State, id: JobId, t: Thread, more: seq<Event>)
    requires Enabled(s, CallKill(id, t)) && id in s.jobs && id in s.listed && s.jobs[id].status.Running?
    requires RunFrom(Do(s, CallKill(id, t)), more).Some? && LeftAlone(Do(s, CallKill(id, t)), more, id, t)
    ensures var end := RunFrom(Do(s, CallKill(id, t)), more).value;
            && t in end.threads && id in end.jobs
            && (end.threads[t].AtStamp? || end.threads[t].AtPrune? || end.threads[t].Scanning? || end.threads[t].Done? ==>
                  end.jobs[id].status == Killed)
    ensures WillBeKilled(RunFrom(Do(s, CallKill(id, t)), more).value, t, id)
  {
    if more == [] {
    } else {
      hide Enabled, Do;
      var front, last := more[..|more| - 1], more[|more| - 1];
      assert LeftAlone(Do(s, CallKill(id, t)), front, id, t) by {
        forall k | 0 <= k < |front| ensures front[..k] == more[..k] {}
      }
      KillMarks(s, id, t, front);
      KillNotDisturbed(RunFrom(Do(s, CallKill(id, t)), front).value, last, t, id);
    }
  }

  // ---------------------------------------------------------------- causes

  /** Something in the run accounts for this status: the way the job itself went, or a kill. */
  predicate Caused(es: seq<Event>, id: JobId, status: Status) {
    || status.Running?
    || (exists k :: 0 <= k < |es| && es[k].StartJob? && es[k].start == id && es[k].outcome == status)
    || (status.Killed? && exists k :: 0 <= k < |es| && es[k].CallKill? && es[k].target == id)
  }

  predicate AllCaused(es: seq<Event>, s: State) {
    && (forall id :: id in s.jobs ==> Caused(es, id, s.jobs[id].status))
    && (forall t :: t in s.threads && s.threads[t].AtStatus? ==> Caused(es, s.threads[t].id, s.threads[t].outcome))
    && (forall t :: t in s.threads && s.threads[t].AtCheck? ==> Caused(es, s.threads[t].id, Killed))
  }

  lemma MoreCauses(es: seq<Event>, e: Event)
    ensures forall id, status :: Caused(es, id, status) ==> Caused(es + [e], id, status)
    ensures e.StartJob? ==> Caused(es + [e], e.start, e.outcome)
    ensures e.CallKill? ==> Caused(es + [e], e.target, Killed)
  {
    var all := es + [e];
    assert all[|es|] == e;
    forall k | 0 <= k < |es| ensures all[k] == es[k] {}
  }

  lemma CausesLast(es: seq<Event>, s: State, e: Event)
    requires AllCaused(es, s) && Enabled(s, e)
    ensures AllCaused(es + [e], Do(s, e))
  {
    MoreCauses(es, e);
    RunningIsCaused(es + [e]);
    hide Caused;
  }

  lemma RunningIsCaused(es: seq<Event>)
    ensures forall id :: Caused(es, id, Running)
  {
  }

  /** In every run a job that is not running ended the way it was going to, or was killed by
      someone who asked for it. */
  lemma {:induction false} StatusHasCause(es: seq<Event>)
    requires RunFrom(INITIAL, es).Some?
    ensures AllCaused(es, RunFrom(INITIAL, es).value)
  {
    if es == [] {
    } else {
      hide Enabled, Do, AllCaused;
      var front, last := es[..|es| - 1], es[|es| - 1];
      StatusHasCause(front);
      CausesLast(front, RunFrom(INITIAL, front).value, last);
      assert front + [last] == es;
    }
  }

  // ---------------------------------------------------------------- finish times

  predicate NotFinished(s: State, id: JobId) { id in s.jobs ==> s.jobs[id].finished.None? }

  lemma StampIsNow(s: State, e: Event, id: JobId)
    requires Enabled(s, e) && NotFinished(s, id)
    ensures s.now <= Do(s, e).now
    ensures NotFinished(Do(s, e), id) || (e.Stamp? && s.threads[e.t].id == id && Do(s, e).jobs[id].finished == Some(s.now))
  {
  }

  lemma ClockGoesOn(s: State, e: Event)
    requires Enabled(s, e)
    ensures s.now <= Do(s, e).now <= s.now + 1
  {
  }

  /** A finish time is the clock at some moment of the run in which it was set. */
  lemma {:induction false} FinishTimeIsTheClock(s: State, es: seq<Event>, id: JobId)
    requires RunFrom(s, es).Some? && NotFinished(s, id)
    ensures var end := RunFrom(s, es).value;
            && s.now <= end.now
            && (!NotFinished(end, id) ==> s.now <= end.jobs[id].finished.value <= end.now)
  {
    if es == [] {
    } else {
      hide Enabled, Do;
      var front, last := es[..|es| - 1], es[|es| - 1];
      FinishTimeIsTheClock(s, front, id);
      var before := RunFrom(s, front).value;
      ClockGoesOn(before, last);
      if NotFinished(before, id) {
        StampIsNow(before, last, id);
      } else {
        StepIsOnward(before, last);
      }
    }
  }

  /** Of two jobs, the one found to have ended first never has the later time. */
  lemma FirstEndedIsOlder(es: seq<Event>, more: seq<Event>, a: JobId, b: JobId)
    requires RunFrom(INITIAL, es).Some? && RunFrom(RunFrom(INITIAL, es).value, more).Some?
    requires var s := RunFrom(INITIAL, es).value; a in s.jobs && s.jobs[a].finished.Some? && NotFinished(s, b)
    requires var end := RunFrom(RunFrom(INITIAL, es).value, more).value; b in end.jobs && end.jobs[b].finished.Some?
    ensures var end := RunFrom(RunFrom(INITIAL, es).value, more).value;
            a in end.jobs && end.jobs[a].finished.Some? && end.jobs[a].finished.value <= end.jobs[b].finished.value
  {
    hide RunFrom;
    var s := RunFrom(INITIAL, es).value;
    FinishTimeIsTheClock(INITIAL, es, a);
    FinishTimeIsTheClock(s, more, b);
    RunIsOnward(s, more);
  }
}
