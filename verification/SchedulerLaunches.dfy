/** What becomes of a launch that a thread has pulled, and what the calls of the interface have
    to do with it. */
module SchedulerLaunches {
  import opened Options
  import opened LaunchQueues
  import opened Scheduling
  import opened SchedulerTheorems
  import opened SchedulerProgress
  import opened SchedulerLocks

  // ----- The steps of one thread

  predicate StepOf(a: Action, t: nat) { (a.APull? && a.t == t) || WorkOf(a, t) }

  /** The place of the first step of the thread from `i` on, or the end. */
  function NextStepOf(actions: seq<Action>, t: nat, i: nat): (m: nat)
    requires i <= |actions|
    ensures i <= m <= |actions| && (m < |actions| ==> StepOf(actions[m], t))
    ensures forall k :: i <= k < m ==> !StepOf(actions[k], t)
    decreases |actions| - i
  {
    if i == |actions| || StepOf(actions[i], t) then i else NextStepOf(actions, t, i + 1)
  }

  lemma ThreadStays(s: Sys, a: Action, t: nat)
    requires Step(s, a).Some? && t < |s.threads| && !StepOf(a, t)
    ensures t < |Step(s, a).value.threads| && Step(s, a).value.threads[t] == s.threads[t]
  {
  }

  /** From `i` to `m` thread `t` is doing `act`. */
  ghost predicate Doing(trace: seq<Sys>, t: nat, i: nat, m: nat, act: Activity) {
    m < |trace| && forall k :: i <= k <= m ==> t < |trace[k].threads| && trace[k].threads[t].act == act
  }

  lemma {:induction false} WaitsInPlace(trace: seq<Sys>, actions: seq<Action>, t: nat, i: nat, m: nat)
    requires IsExecution(trace, actions) && i <= m < |trace| && t < |trace[i].threads|
    requires forall k :: i <= k < m ==> !StepOf(actions[k], t)
    ensures Doing(trace, t, i, m, trace[i].threads[t].act)
  {
    if i == m {
    } else {
      WaitsInPlace(trace, actions, t, i, m - 1);
      assert Taken(trace, actions, m - 1);
      ThreadStays(trace[m - 1], actions[m - 1], t);
    }
  }

  // ----- The life of a launch

  /** Thread `t` holds `act` in state `i`. */
  ghost predicate IsDoing(trace: seq<Sys>, t: nat, i: nat, act: Activity) {
    i < |trace| && t < |trace[i].threads| && trace[i].threads[t].act == act
  }

  /** An action takes a launch of `j` out of the queue of thread `t`. */
  predicate Pulls(s: Sys, a: Action, t: nat, j: nat) {
    && a.APull? && a.t == t && t < |s.threads| && s.threads[t].queue < |s.queues|
    && a.k < |s.queues[s.threads[t].queue]| && s.queues[s.threads[t].queue][a.k].job == j
  }

  lemma PullIs(trace: seq<Sys>, actions: seq<Action>, i: nat, t: nat, j: nat)
    requires IsExecution(trace, actions) && i < |actions| && Pulls(trace[i], actions[i], t, j)
    ensures IsDoing(trace, t, i + 1, Pulled(j)) && trace[i].threads[t].act == Idle
  {
    assert Taken(trace, actions, i);
  }

  lemma IdleThreadPulls(trace: seq<Sys>, actions: seq<Action>, i: nat, t: nat)
    requires IsExecution(trace, actions) && IsDoing(trace, t, i, Idle)
    ensures var c := NextStepOf(actions, t, i); Doing(trace, t, i, c, Idle) && (c < |actions| ==> actions[c].APull?)
  {
    var c := NextStepOf(actions, t, i);
    WaitsInPlace(trace, actions, t, i, c);
    if c < |actions| { assert Taken(trace, actions, c); }
  }

  /** A launch that has been pulled is checked next, and parked exactly when its job is
      invalidated, destroyed or unloaded. */
  lemma PulledIsChecked(trace: seq<Sys>, actions: seq<Action>, i: nat, t: nat, j: nat)
    requires IsExecution(trace, actions) && IsDoing(trace, t, i, Pulled(j))
    ensures var c := NextStepOf(actions, t, i);
            && Doing(trace, t, i, c, Pulled(j))
            && (c < |actions| ==>
                  && actions[c] == ACheck(t) && j < |trace[c].jobs|
                  && IsDoing(trace, t, c + 1, if Dead(trace[c], j) then Idle else Checked(j)))
  {
    var c := NextStepOf(actions, t, i);
    WaitsInPlace(trace, actions, t, i, c);
    if c < |actions| { assert Taken(trace, actions, c); }
  }

  /** The function of the job is to be called: it has one, and no destruction is pended. */
  predicate ToBeCalled(s: Sys, j: nat) {
    j < |s.jobs| && s.jobs[j].hasFunction && !s.jobs[j].destructionPended
  }

  /** A launch that has been checked runs the function of its job next, or skips it. */
  lemma CheckedIsDispatched(trace: seq<Sys>, actions: seq<Action>, i: nat, t: nat, j: nat)
    requires IsExecution(trace, actions) && IsDoing(trace, t, i, Checked(j))
    ensures var d := NextStepOf(actions, t, i);
            && Doing(trace, t, i, d, Checked(j))
            && (d < |actions| ==>
                  && actions[d] == ADispatch(t)
                  && IsDoing(trace, t, d + 1, if ToBeCalled(trace[d], j) then Running(j) else Skipped(j)))
  {
    var d := NextStepOf(actions, t, i);
    WaitsInPlace(trace, actions, t, i, d);
    if d < |actions| { assert Taken(trace, actions, d); }
  }

  /** ... and then completes. */
  lemma DispatchedCompletes(trace: seq<Sys>, actions: seq<Action>, i: nat, t: nat, j: nat, act: Activity)
    requires IsExecution(trace, actions) && IsDoing(trace, t, i, act) && (act == Running(j) || act == Skipped(j))
    ensures var f := NextStepOf(actions, t, i);
            && Doing(trace, t, i, f, act)
            && (f < |actions| ==> actions[f] == AFinishBegin(t) && IsDoing(trace, t, f + 1, Finishing(j, 0, [])))
  {
    var f := NextStepOf(actions, t, i);
    WaitsInPlace(trace, actions, t, i, f);
    if f < |actions| { assert Taken(trace, actions, f); }
  }

  /** From the pull at `i` to the completion at `n` the thread neither pulls nor completes. */
  ghost predicate OneLaunch(trace: seq<Sys>, actions: seq<Action>, i: nat, n: nat, t: nat, j: nat) {
    && IsExecution(trace, actions) && i < n < |actions| && Pulls(trace[i], actions[i], t, j)
    && actions[n] == AFinishBegin(t)
    && forall m :: i < m < n ==> actions[m] != AFinishBegin(t) && !(actions[m].APull? && actions[m].t == t)
  }

  /** Between a pull and the completion that follows there is one check, which finds the job
      alive, and one dispatch. The function runs from the dispatch to the completion and at
      no other time if the job has one and its destruction is not pended at the dispatch;
      otherwise it does not run at all. */
  lemma FunctionRunsIff(trace: seq<Sys>, actions: seq<Action>, i: nat, n: nat, t: nat, j: nat)
    returns (c: nat, d: nat)
    requires OneLaunch(trace, actions, i, n, t, j)
    ensures i < c < d < n && actions[c] == ACheck(t) && actions[d] == ADispatch(t)
    ensures forall m :: i < m < n && StepOf(actions[m], t) ==> m == c || m == d
    ensures j < |trace[c].jobs| && !Dead(trace[c], j)
    ensures forall m :: i < m <= n ==>
              t < |trace[m].threads| &&
              (trace[m].threads[t].act == Running(j) <==> d < m && ToBeCalled(trace[d], j))
    ensures IsDoing(trace, t, n + 1, Finishing(j, 0, []))
  {
    c, d := CheckAndDispatch(trace, actions, i, n, t, j);
  }

  /** The phases of the launch, and where they end. */
  ghost predicate Phases(trace: seq<Sys>, t: nat, i: nat, c: nat, d: nat, n: nat, j: nat) {
    && i < c < d < n && n + 1 < |trace| && Doing(trace, t, i + 1, c, Pulled(j)) && Doing(trace, t, c + 1, d, Checked(j))
    && Doing(trace, t, d + 1, n, if ToBeCalled(trace[d], j) then Running(j) else Skipped(j))
    && IsDoing(trace, t, n + 1, Finishing(j, 0, []))
  }

  lemma CheckAndDispatch(trace: seq<Sys>, actions: seq<Action>, i: nat, n: nat, t: nat, j: nat)
    returns (c: nat, d: nat)
    requires OneLaunch(trace, actions, i, n, t, j)
    ensures Phases(trace, t, i, c, d, n, j) && actions[c] == ACheck(t) && actions[d] == ADispatch(t)
    ensures forall m :: i < m < n && StepOf(actions[m], t) ==> m == c || m == d
    ensures j < |trace[c].jobs| && !Dead(trace[c], j)
  {
    c := CheckOfLaunch(trace, actions, i, n, t, j);
    d := DispatchOfLaunch(trace, actions, c + 1, n, t, j);
  }

  lemma CheckOfLaunch(trace: seq<Sys>, actions: seq<Action>, i: nat, n: nat, t: nat, j: nat) returns (c: nat)
    requires OneLaunch(trace, actions, i, n, t, j)
    ensures i < c < n && actions[c] == ACheck(t) && forall m :: i < m < c ==> !StepOf(actions[m], t)
    ensures Doing(trace, t, i + 1, c, Pulled(j)) && IsDoing(trace, t, c + 1, Checked(j))
    ensures j < |trace[c].jobs| && !Dead(trace[c], j)
  {
    PullIs(trace, actions, i, t, j);
    PulledIsChecked(trace, actions, i + 1, t, j);
    c := NextStepOf(actions, t, i + 1);
    if Dead(trace[c], j) { IdleThreadPulls(trace, actions, c + 1, t); }
  }

  lemma DispatchOfLaunch(trace: seq<Sys>, actions: seq<Action>, i: nat, n: nat, t: nat, j: nat) returns (d: nat)
    requires IsExecution(trace, actions) && i <= n < |actions| && IsDoing(trace, t, i, Checked(j))
    requires actions[n] == AFinishBegin(t) && forall m :: i <= m < n ==> actions[m] != AFinishBegin(t)
    ensures i <= d < n && actions[d] == ADispatch(t) && Doing(trace, t, i, d, Checked(j))
    ensures forall m :: i <= m < n && StepOf(actions[m], t) ==> m == d
    ensures Doing(trace, t, d + 1, n, if ToBeCalled(trace[d], j) then Running(j) else Skipped(j))
    ensures IsDoing(trace, t, n + 1, Finishing(j, 0, []))
  {
    CheckedIsDispatched(trace, actions, i, t, j);
    d := NextStepOf(actions, t, i);
    DispatchedCompletes(trace, actions, d + 1, t, j, if ToBeCalled(trace[d], j) then Running(j) else Skipped(j));
    assert NextStepOf(actions, t, d + 1) == n;
  }

  // ----- What the calls do to the flags

  predicate Names(s: Sys, h: nat, j: nat) { h < |s.handles| && s.handles[h] == j }

  /** The flags of a job are set by the calls that name it, and by the launch that destroys it;
      nothing else about it that a launch looks at ever changes. */
  lemma FlagsOfStep(s: Sys, a: Action, j: nat)
    requires Step(s, a).Some? && j < |s.jobs|
    ensures var s' := Step(s, a).value;
            && j < |s'.jobs| && s'.jobs[j].hasFunction == s.jobs[j].hasFunction && s'.jobs[j].plugin == s.jobs[j].plugin
            && (s'.jobs[j].invalidated <==> s.jobs[j].invalidated || (a.AInvalidate? && Names(s, a.h, j)))
            && (s'.jobs[j].destructionPended <==> s.jobs[j].destructionPended || (a.ADestroy? && Names(s, a.h, j)))
            && (s'.jobs[j].destroyed <==>
                  s.jobs[j].destroyed ||
                  (a.ADispatch? && s.threads[a.t].act == Checked(j) && s.jobs[j].destructionPended))
  {
    if !SetsFlags(a) { OtherStepsKeepFlags(s, a, j); }
  }

  predicate SetsFlags(a: Action) { a.AInvalidate? || a.ADestroy? || a.ADispatch? }

  predicate SameFlags(e: JobEntry, e': JobEntry) {
    && e'.hasFunction == e.hasFunction && e'.plugin == e.plugin && e'.invalidated == e.invalidated
    && e'.destructionPended == e.destructionPended && e'.destroyed == e.destroyed
  }

  lemma OtherStepsKeepFlags(s: Sys, a: Action, j: nat)
    requires Step(s, a).Some? && j < |s.jobs| && !SetsFlags(a)
    ensures j < |Step(s, a).value.jobs| && SameFlags(s.jobs[j], Step(s, a).value.jobs[j])
  {
    if a.ACreateLink? { assert s.creating.value.job < |s.jobs|; }
  }

  lemma NewFlags(s: Sys, a: Action)
    requires Step(s, a).Some? && |Step(s, a).value.jobs| > |s.jobs|
    ensures var s' := Step(s, a).value;
            && a.ACreateBegin? && |s'.jobs| == |s.jobs| + 1
            && var e := s'.jobs[|s.jobs|];
               !e.invalidated && !e.destructionPended && !e.destroyed && e.hasFunction == a.r.hasFunction
               && e.plugin == a.r.plugin
  {
  }

  /** The plugins that are unloaded and the time are what the calls say. */
  lemma WorldOfStep(s: Sys, a: Action)
    requires Step(s, a).Some?
    ensures Step(s, a).value.unloaded == s.unloaded + if a.AUnloadPlugin? then {a.p} else {}
    ensures Step(s, a).value.now == if a.ATick? then a.now else s.now
  {
  }

  datatype Call = Invalidation | Destruction

  /** Action `i` is the call, and names the job. */
  ghost predicate CalledAt(trace: seq<Sys>, actions: seq<Action>, call: Call, i: nat, j: nat) {
    && i < |actions| && i < |trace| && j < |trace[i].jobs|
    && (if call.Invalidation? then actions[i].AInvalidate? else actions[i].ADestroy?)
    && Names(trace[i], actions[i].h, j)
  }

  ghost predicate CalledBefore(trace: seq<Sys>, actions: seq<Action>, call: Call, n: nat, j: nat) {
    exists i: nat :: i < n && CalledAt(trace, actions, call, i, j)
  }

  predicate Flagged(e: JobEntry, call: Call) {
    if call.Invalidation? then e.invalidated else e.destructionPended
  }

  /** A job is invalidated, or its destruction pended, exactly when there was such a call. */
  lemma {:induction false} FlaggedIffCalled(trace: seq<Sys>, actions: seq<Action>, call: Call, n: nat, j: nat)
    requires IsExecution(trace, actions) && n < |trace| && j < |trace[n].jobs|
    ensures Flagged(trace[n].jobs[j], call) <==> CalledBefore(trace, actions, call, n, j)
  {
    if n == 0 {
    } else {
      var s, a := trace[n - 1], actions[n - 1];
      assert Taken(trace, actions, n - 1);
      if j < |s.jobs| {
        FlaggedIffCalled(trace, actions, call, n - 1, j);
        FlagsOfStep(s, a, j);
        CalledOneMore(trace, actions, call, n, j);
      } else {
        NewFlags(s, a);
        if i: nat :| i < n && CalledAt(trace, actions, call, i, j) { JobsStay(trace, actions, i, n - 1, j); }
      }
    }
  }

  lemma CalledOneMore(trace: seq<Sys>, actions: seq<Action>, call: Call, n: nat, j: nat)
    requires 0 < n
    ensures CalledBefore(trace, actions, call, n, j) <==>
              CalledBefore(trace, actions, call, n - 1, j) || CalledAt(trace, actions, call, n - 1, j)
  {
    if CalledBefore(trace, actions, call, n, j) {
      var i: nat :| i < n && CalledAt(trace, actions, call, i, j);
      if i < n - 1 { assert CalledBefore(trace, actions, call, n - 1, j); }
    }
    if CalledBefore(trace, actions, call, n - 1, j) {
      var i: nat :| i < n - 1 && CalledAt(trace, actions, call, i, j);
      assert i < n;
    }
  }

  lemma {:induction false} JobsStay(trace: seq<Sys>, actions: seq<Action>, i: nat, n: nat, j: nat)
    requires IsExecution(trace, actions) && i <= n < |trace| && j < |trace[i].jobs|
    ensures j < |trace[n].jobs| && trace[n].jobs[j].hasFunction == trace[i].jobs[j].hasFunction
    ensures trace[n].jobs[j].plugin == trace[i].jobs[j].plugin
  {
    if i == n {
    } else {
      JobsStay(trace, actions, i, n - 1, j);
      assert Taken(trace, actions, n - 1);
      FlagsOfStep(trace[n - 1], actions[n - 1], j);
    }
  }

  ghost predicate UnloadedBefore(actions: seq<Action>, n: nat, p: nat) {
    n <= |actions| && exists i :: 0 <= i < n && actions[i] == AUnloadPlugin(p)
  }

  /** A plugin is unloaded exactly when there was a call to unload it. */
  lemma {:induction false} UnloadedIffCalled(trace: seq<Sys>, actions: seq<Action>, n: nat, p: nat)
    requires IsExecution(trace, actions) && n < |trace|
    ensures p in trace[n].unloaded <==> UnloadedBefore(actions, n, p)
  {
    if n == 0 {
    } else {
      UnloadedIffCalled(trace, actions, n - 1, p);
      assert Taken(trace, actions, n - 1);
      WorldOfStep(trace[n - 1], actions[n - 1]);
    }
  }

  /** A launch of the job was dispatched after its destruction had been asked for. */
  ghost predicate DestroyedAt(trace: seq<Sys>, actions: seq<Action>, i: nat, j: nat) {
    && i < |actions| && i < |trace| && actions[i].ADispatch? && j < |trace[i].jobs|
    && IsDoing(trace, actions[i].t, i, Checked(j)) && CalledBefore(trace, actions, Destruction, i, j)
  }

  ghost predicate DestroyedBefore(trace: seq<Sys>, actions: seq<Action>, n: nat, j: nat) {
    exists i: nat :: i < n && DestroyedAt(trace, actions, i, j)
  }

  /** A job is destroyed exactly when such a launch was dispatched. */
  lemma {:induction false} DestroyedIffDispatched(trace: seq<Sys>, actions: seq<Action>, n: nat, j: nat)
    requires IsExecution(trace, actions) && n < |trace| && j < |trace[n].jobs|
    ensures trace[n].jobs[j].destroyed <==> DestroyedBefore(trace, actions, n, j)
  {
    if n == 0 {
    } else {
      var s, a := trace[n - 1], actions[n - 1];
      assert Taken(trace, actions, n - 1);
      if j < |s.jobs| {
        DestroyedIffDispatched(trace, actions, n - 1, j);
        FlagsOfStep(s, a, j);
        FlaggedIffCalled(trace, actions, Destruction, n - 1, j);
        DestroyedOneMore(trace, actions, n, j);
      } else {
        NewFlags(s, a);
        if i: nat :| i < n && DestroyedAt(trace, actions, i, j) { JobsStay(trace, actions, i, n - 1, j); }
      }
    }
  }

  lemma DestroyedOneMore(trace: seq<Sys>, actions: seq<Action>, n: nat, j: nat)
    requires 0 < n
    ensures DestroyedBefore(trace, actions, n, j) <==>
              DestroyedBefore(trace, actions, n - 1, j) || DestroyedAt(trace, actions, n - 1, j)
  {
    if DestroyedBefore(trace, actions, n, j) {
      var i: nat :| i < n && DestroyedAt(trace, actions, i, j);
      if i < n - 1 { assert DestroyedBefore(trace, actions, n - 1, j); }
    }
    if DestroyedBefore(trace, actions, n - 1, j) {
      var i: nat :| i < n - 1 && DestroyedAt(trace, actions, i, j);
      assert i < n;
    }
  }

  // ----- From the calls to the function

  /** Request `r` created job `j`. */
  ghost predicate CreatedBy(trace: seq<Sys>, actions: seq<Action>, i: nat, j: nat, r: JobRequest) {
    && i < |actions| && i + 1 < |trace| && actions[i] == ACreateBegin(r)
    && j == |trace[i].jobs| && |trace[i + 1].jobs| == j + 1
  }

  /** Every job was created by a request, and has its function and plugin for good. */
  lemma {:induction false} JobIsAsRequested(trace: seq<Sys>, actions: seq<Action>, n: nat, j: nat)
    returns (i: nat, r: JobRequest)
    requires IsExecution(trace, actions) && n < |trace| && j < |trace[n].jobs|
    ensures i < n && CreatedBy(trace, actions, i, j, r)
    ensures trace[n].jobs[j].hasFunction == r.hasFunction && trace[n].jobs[j].plugin == r.plugin
  {
    if n == 0 {
      assert false;
    } else {
      assert Taken(trace, actions, n - 1);
      if j < |trace[n - 1].jobs| {
        i, r := JobIsAsRequested(trace, actions, n - 1, j);
        FlagsOfStep(trace[n - 1], actions[n - 1], j);
      } else {
        NewFlags(trace[n - 1], actions[n - 1]);
        i, r := n - 1, actions[n - 1].r;
      }
    }
  }

  /** None of the calls that stop job `j` of plugin `p` came before action `n`. */
  ghost predicate NotStopped(trace: seq<Sys>, actions: seq<Action>, n: nat, j: nat, p: nat) {
    && !CalledBefore(trace, actions, Invalidation, n, j) && !UnloadedBefore(actions, n, p)
    && !DestroyedBefore(trace, actions, n, j)
  }

  /** A job is alive exactly when none of those calls came before. */
  lemma AliveIffNotStopped(trace: seq<Sys>, actions: seq<Action>, n: nat, j: nat)
    requires IsExecution(trace, actions) && n < |trace| && j < |trace[n].jobs|
    ensures Dead(trace[n], j) <==> !NotStopped(trace, actions, n, j, trace[n].jobs[j].plugin)
  {
    FlaggedIffCalled(trace, actions, Invalidation, n, j);
    UnloadedIffCalled(trace, actions, n, trace[n].jobs[j].plugin);
    DestroyedIffDispatched(trace, actions, n, j);
  }

  /** From the calls to their effect: the launch of `j` that a thread has pulled, checks at `c`
      and dispatches at `d`, calls the function exactly when the request that created the job
      has one and no destruction was asked for before the dispatch. It gets past the check
      exactly when the job was not stopped before the check. */
  lemma CallsDecide(trace: seq<Sys>, actions: seq<Action>, i: nat, t: nat, j: nat, r: JobRequest, m: nat)
    requires IsExecution(trace, actions) && IsDoing(trace, t, i, Pulled(j)) && CreatedBy(trace, actions, m, j, r)
    ensures var c := NextStepOf(actions, t, i);
            c < |actions| ==>
              if !NotStopped(trace, actions, c, j, r.plugin) then IsDoing(trace, t, c + 1, Idle)
              else
                var d := NextStepOf(actions, t, c + 1);
                && Doing(trace, t, c + 1, d, Checked(j))
                && (d < |actions| ==>
                      IsDoing(trace, t, d + 1,
                        if r.hasFunction && !CalledBefore(trace, actions, Destruction, d, j) then Running(j)
                        else Skipped(j)))
  {
    PulledIsChecked(trace, actions, i, t, j);
    var c := NextStepOf(actions, t, i);
    if c < |actions| {
      RequestOfJob(trace, actions, m, c, j, r);
      AliveIffNotStopped(trace, actions, c, j);
      if !Dead(trace[c], j) {
        CheckedIsDispatched(trace, actions, c + 1, t, j);
        var d := NextStepOf(actions, t, c + 1);
        JobsStay(trace, actions, c, d, j);
        RequestOfJob(trace, actions, m, d, j, r);
        FlaggedIffCalled(trace, actions, Destruction, d, j);
      }
    }
  }

  lemma RequestOfJob(trace: seq<Sys>, actions: seq<Action>, m: nat, n: nat, j: nat, r: JobRequest)
    requires IsExecution(trace, actions) && CreatedBy(trace, actions, m, j, r) && n < |trace| && j < |trace[n].jobs|
    ensures trace[n].jobs[j].hasFunction == r.hasFunction && trace[n].jobs[j].plugin == r.plugin
  {
    assert Taken(trace, actions, m);
    NewFlags(trace[m], actions[m]);
    if n <= m { JobsStay(trace, actions, n, m, j); } else { JobsStay(trace, actions, m + 1, n, j); }
  }
}
