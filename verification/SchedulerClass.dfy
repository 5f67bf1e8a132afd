/** The scheduler object: its calls and the worker's `processLaunch`, with their loops, as
    sequences of the locked steps of the step system. */
module SchedulerObjects {
  import opened Options
  import opened LaunchQueues
  import opened Scheduling
  import opened SchedulerInvariants
  import opened SchedulerFinish
  import opened SchedulerRelease
  import opened SchedulerTelling
  import opened SchedulerTheorems
  import opened SchedulerProgress
  import opened SchedulerQueues
  import opened SchedulerLocks
  import opened SchedulerLaunches
  import opened SchedulerServers

  /** The state after a list of actions, `None` when one of them cannot be taken. */
  function After(s: Sys, actions: seq<Action>): Option<Sys>
    decreases |actions|
  {
    if actions == [] then Some(s)
    else match After(s, actions[..|actions| - 1])
         case None => None
         case Some(s1) => Step(s1, actions[|actions| - 1])
  }

  lemma AfterOneMore(s: Sys, actions: seq<Action>, a: Action)
    ensures After(s, actions + [a]) == match After(s, actions) case None => None case Some(s1) => Step(s1, a)
  {
    assert (actions + [a])[..|actions|] == actions;
  }

  lemma {:induction false} AfterBoth(s: Sys, actions: seq<Action>, s': Sys, more: seq<Action>)
    requires After(s, actions) == Some(s')
    ensures After(s, actions + more) == After(s', more)
  {
    if more == [] {
      assert actions + more == actions;
    } else {
      var n := |more| - 1;
      AfterBoth(s, actions, s', more[..n]);
      LastOfBoth(actions, more);
      AfterSame(s, actions + more[..n], s', more[..n], more[n]);
    }
  }

  lemma LastOfBoth(actions: seq<Action>, more: seq<Action>)
    requires more != []
    ensures var n := |more| - 1;
            actions + more == (actions + more[..n]) + [more[n]] && more == more[..n] + [more[n]]
  {
  }

  lemma AfterSame(s: Sys, actions: seq<Action>, s': Sys, actions': seq<Action>, a: Action)
    requires After(s, actions) == After(s', actions')
    ensures After(s, actions + [a]) == After(s', actions' + [a])
  {
    AfterOneMore(s, actions, a);
    AfterOneMore(s', actions', a);
  }

  /** The threads that hold a mutex go on with what they do under it. */
  predicate IsFinishing(a: Action) { a.AFinishNext? || a.AFinishEnd? }

  /** The actions lead from `s` to `s'`; they are steps of thread `t`, and of other threads that
      finish while `t` waits for a mutex. */
  ghost predicate Works(s: Sys, actions: seq<Action>, s': Sys, t: nat) {
    After(s, actions) == Some(s') && forall i :: 0 <= i < |actions| ==> WorkOf(actions[i], t) || IsFinishing(actions[i])
  }

  lemma WorksOneMore(s: Sys, actions: seq<Action>, m: Sys, a: Action, s': Sys, t: nat)
    requires Works(s, actions, m, t) && Step(m, a) == Some(s') && (WorkOf(a, t) || IsFinishing(a))
    ensures Works(s, actions + [a], s', t)
  {
    AfterOneMore(s, actions, a);
  }

  lemma WorksOn(s: Sys, actions: seq<Action>, m: Sys, more: seq<Action>, s': Sys, t: nat)
    requires Works(s, actions, m, t) && Works(m, more, s', t)
    ensures Works(s, actions + more, s', t)
  {
    AfterBoth(s, actions, m, more);
  }

  // ----- Where a job's function is called

  /** Some way into the actions the function of `j` runs on thread `t`. */
  ghost predicate RunsIn(s: Sys, actions: seq<Action>, m: nat, t: nat, j: nat) {
    m <= |actions| && After(s, actions[..m]).Some? && IsRunning(After(s, actions[..m]).value, t, j)
  }

  predicate IsRunning(s: Sys, t: nat, j: nat) { t < |s.threads| && s.threads[t].act == Running(j) }

  /** Thread `t` is beyond the dispatch of its launch. */
  predicate Beyond(s: Sys, t: nat) {
    t < |s.threads| && var act := s.threads[t].act; act.Idle? || act.Finishing? || act.Pushing? || act.Releasing?
  }

  lemma BeyondStays(s: Sys, a: Action, t: nat)
    requires Beyond(s, t) && (WorkOf(a, t) || IsFinishing(a)) && Step(s, a).Some?
    ensures Beyond(Step(s, a).value, t)
  {
  }

  /** The states that the actions lead through. */
  ghost predicate IsPath(trace: seq<Sys>, actions: seq<Action>) {
    |trace| == |actions| + 1 && forall i :: 0 <= i < |actions| ==> Taken(trace, actions, i)
  }

  ghost predicate PathFrom(s: Sys, actions: seq<Action>, trace: seq<Sys>) {
    IsPath(trace, actions) && forall m :: 0 <= m <= |actions| ==> After(s, actions[..m]) == Some(trace[m])
  }

  lemma {:induction false} PathOf(s: Sys, actions: seq<Action>) returns (trace: seq<Sys>)
    requires After(s, actions).Some?
    ensures PathFrom(s, actions, trace)
    decreases |actions|
  {
    if actions == [] {
      trace := [s];
      assert actions[..0] == [];
    } else {
      var n := |actions| - 1;
      var front := PathOf(s, actions[..n]);
      trace := front + [After(s, actions).value];
      assert actions[..n][..n] == actions[..n];
      LongerPath(s, actions, front, After(s, actions).value);
    }
  }

  lemma LongerPath(s: Sys, actions: seq<Action>, front: seq<Sys>, last: Sys)
    requires actions != [] && PathFrom(s, actions[..|actions| - 1], front)
    requires After(s, actions) == Some(last) && Step(front[|front| - 1], actions[|actions| - 1]) == Some(last)
    ensures PathFrom(s, actions, front + [last])
  {
    var n, trace := |actions| - 1, front + [last];
    forall i | 0 <= i < |actions| ensures Taken(trace, actions, i) {
      if i < n { assert Taken(front, actions[..n], i); }
    }
    forall m | 0 <= m <= |actions| ensures After(s, actions[..m]) == Some(trace[m]) {
      if m <= n { assert actions[..n][..m] == actions[..m]; } else { assert actions[..m] == actions; }
    }
  }

  /** The first steps of a launch that is not parked. */
  ghost predicate BeginsLaunch(actions: seq<Action>, t: nat) {
    |actions| >= 3 && actions[0] == ACheck(t) && actions[1] == ADispatch(t) && actions[2] == AFinishBegin(t)
  }

  ghost predicate AllWork(actions: seq<Action>, t: nat) {
    forall i :: 0 <= i < |actions| ==> WorkOf(actions[i], t) || IsFinishing(actions[i])
  }

  lemma FirstSteps(trace: seq<Sys>, actions: seq<Action>, t: nat, j: nat)
    requires IsPath(trace, actions) && BeginsLaunch(actions, t)
    requires t < |trace[0].threads| && trace[0].threads[t].act == Pulled(j) && j < |trace[0].jobs| && !Dead(trace[0], j)
    ensures !IsRunning(trace[0], t, j) && !IsRunning(trace[1], t, j) && Beyond(trace[3], t)
    ensures IsRunning(trace[2], t, j) <==> ToBeCalled(trace[0], j)
  {
    assert Taken(trace, actions, 0) && Taken(trace, actions, 1) && Taken(trace, actions, 2);
  }

  lemma {:induction false} LaterSteps(trace: seq<Sys>, actions: seq<Action>, t: nat, m: nat)
    requires IsPath(trace, actions) && AllWork(actions, t) && 3 <= m <= |actions| && Beyond(trace[3], t)
    ensures Beyond(trace[m], t)
  {
    if m == 3 {
    } else {
      LaterSteps(trace, actions, t, m - 1);
      assert Taken(trace, actions, m - 1);
      BeyondStays(trace[m - 1], actions[m - 1], t);
    }
  }

  lemma PathRuns(trace: seq<Sys>, actions: seq<Action>, t: nat, j: nat, m: nat)
    requires IsPath(trace, actions) && BeginsLaunch(actions, t) && AllWork(actions, t) && m <= |actions|
    requires t < |trace[0].threads| && trace[0].threads[t].act == Pulled(j) && j < |trace[0].jobs| && !Dead(trace[0], j)
    ensures IsRunning(trace[m], t, j) <==> m == 2 && ToBeCalled(trace[0], j)
  {
    FirstSteps(trace, actions, t, j);
    if m > 2 { LaterSteps(trace, actions, t, m); }
  }

  /** The function runs after the second step, or never. */
  lemma RunsAfterDispatch(s: Sys, actions: seq<Action>, t: nat, j: nat)
    requires After(s, actions).Some? && BeginsLaunch(actions, t) && AllWork(actions, t)
    requires t < |s.threads| && s.threads[t].act == Pulled(j) && j < |s.jobs| && !Dead(s, j)
    ensures forall m: nat :: RunsIn(s, actions, m, t, j) <==> m == 2 && ToBeCalled(s, j)
  {
    var trace := PathOf(s, actions);
    assert actions[..0] == [] && trace[0] == s;
    forall m: nat ensures RunsIn(s, actions, m, t, j) <==> m == 2 && ToBeCalled(s, j) {
      if m <= |actions| { PathRuns(trace, actions, t, j, m); }
    }
  }

  lemma ParkedRunsNothing(s: Sys, t: nat, j: nat)
    requires t < |s.threads| && s.threads[t].act == Pulled(j) && After(s, [ACheck(t)]) == Some(SetAct(s, t, Idle))
    ensures forall m: nat :: !RunsIn(s, [ACheck(t)], m, t, j)
  {
    forall m: nat | m <= 1 ensures !RunsIn(s, [ACheck(t)], m, t, j) {
      assert [ACheck(t)][..m] == if m == 0 then [] else [ACheck(t)];
    }
  }

  lemma WithoutLater(ds: seq<Dependent>, i: nat)
    requires 0 < i < |ds|
    ensures ds[..i] + ds[i + 1..] == [ds[0]] + (ds[1..][..i - 1] + ds[1..][i..])
  {
  }

  /** Erasing takes out the first entry of the job. */
  lemma {:induction false} ErasedAt(ds: seq<Dependent>, j: nat, i: nat)
    requires i <= |ds| && (i < |ds| ==> ds[i].job == j)
    requires forall k :: 0 <= k < i ==> ds[k].job != j
    ensures Erased(ds, j) == if i < |ds| then ds[..i] + ds[i + 1..] else ds
  {
    if i == 0 {
      assert ds == [] || ds[..0] + ds[1..] == ds[1..];
    } else {
      ErasedAt(ds[1..], j, i - 1);
      if i < |ds| { WithoutLater(ds, i); } else { assert ds == [ds[0]] + ds[1..]; }
    }
  }

  /** The first entry that is job `j`, or the end. */
  method FindDependent(ds: seq<Dependent>, j: nat) returns (i: nat)
    ensures i <= |ds|
    ensures Erased(ds, j) == if i < |ds| then ds[..i] + ds[i + 1..] else ds
  {
    i := 0;
    while i < |ds| && ds[i].job != j
      invariant 0 <= i <= |ds|
      invariant forall k :: 0 <= k < i ==> ds[k].job != j
    {
      i := i + 1;
    }
    ErasedAt(ds, j, i);
  }

  /** What the link of dependency `k` of job `j` does. */
  lemma LinkIs(s: Sys, h: Hist, j: nat, k: nat, long: bool)
    requires Inv(s, h) && s.creating == Some(Creation(j, k, long)) && j < |s.jobs| && k < |s.jobs[j].dependencies|
    requires Unlocked(s, s.jobs[j].dependencies[k])
    ensures var d := s.jobs[j].dependencies[k];
            d < j && CreateLink(s) ==
            Some(s.(jobs := s.jobs[d := s.jobs[d].(dependents := s.jobs[d].dependents + [Dependent(j, k)])],
                    creating := Some(Creation(j, k + 1, long))))
  {
    assert ShapeOfJob(s, h, j);
  }

  /** What a call that schedules a job does, and that it keeps everything in order. */
  lemma ScheduleIs(s: Sys, hist: Hist, h: nat, x: int)
    requires Inv(s, hist) && Orderly(s) && s.creating.None? && h < |s.handles| && s.handles[h] < |s.jobs|
    requires s.jobs[s.handles[h]].dependencies == [] && !s.jobs[s.handles[h]].invalidated
    ensures var e := s.jobs[s.handles[h]];
            && e.queue.Some? && e.queue.value < |s.queues| && Sorted(s.queues[e.queue.value])
            && var q := e.queue.value;
               var s' := s.(queues := s.queues[q := Pushed(s.queues[q], Launch(s.handles[h], x))]);
               Schedule(s, h, x) == Some(s') && Inv(s', hist) && Orderly(s')
  {
    assert ShapeOfJob(s, hist, s.handles[h]);
    StepKeepsAll(s, hist, ASchedule(h, x));
  }

  class Scheduler {
    var jobs: seq<JobEntry>
    var handles: seq<nat>
    var queues: seq<seq<Launch>>
    var unloaded: set<nat>
    var now: int
    /** When the scheduler was created; calls count their times from it. */
    const timeBegin: int
    /** The worker threads; `act` is where each one is in its code. */
    var threads: seq<Thread>
    /** The creation that holds the scheduler's mutex. */
    ghost var creating: Option<Creation>
    ghost var hist: Hist

    ghost function Contents(): Sys
      reads this
    {
      Sys(jobs, handles, queues, threads, creating, unloaded, now)
    }

    ghost predicate Valid()
      reads this
    {
      Inv(Contents(), hist) && Orderly(Contents())
    }

    /** Creates the scheduler at time `begin` of the clock. */
    constructor (shortThreads: nat, begin: int)
      ensures Valid() && Contents() == Start(shortThreads) && timeBegin == begin
    {
      timeBegin := begin;
      jobs, handles, queues, unloaded, now := [], [], [[]], {}, 0;
      threads := seq(shortThreads, _ => Thread(0, Idle));
      creating, hist := None, [];
      new;
      assert Contents() == Start(shortThreads);
      StartIsInOrder(Contents());
    }

    // ----- Creating a job

    /** Looks up every handle; gives up at the first one that is unknown. */
    method LookUp(hs: seq<nat>) returns (deps: Option<seq<nat>>)
      ensures deps == Resolved(Contents(), hs)
    {
      var found: seq<nat> := [];
      var i := 0;
      while i < |hs|
        invariant 0 <= i == |found| <= |hs|
        invariant forall k :: 0 <= k < i ==> hs[k] < |handles| && found[k] == handles[hs[k]]
      {
        if hs[i] >= |handles| { return None; }
        found := found + [handles[hs[i]]];
        i := i + 1;
      }
      assert found == Resolved(Contents(), hs).value;
      deps := Some(found);
    }

    method BeginStep(r: JobRequest, deps: seq<nat>)
      requires Valid() && creating.None? && RequestedDependencies(Contents(), r) == Some(deps)
      modifies this
      ensures Valid() && Step(old(Contents()), ACreateBegin(r)) == Some(Contents())
      ensures creating == Some(Creation(|old(jobs)|, 0, r.long)) && |jobs| == |old(jobs)| + 1
      ensures handles == old(handles) && threads == old(threads) && queues == old(queues)
      ensures var e := jobs[|old(jobs)|];
              && e.dependencies == deps && e.hasFunction == r.hasFunction && e.plugin == r.plugin
              && e.queue == if r.long then None else Some(0)
    {
      StepKeepsAll(Contents(), hist, ACreateBegin(r));
      hist := Follow(Contents(), hist, ACreateBegin(r));
      creating := Some(Creation(|jobs|, 0, r.long));
      var queue := if r.long then None else Some(0);
      jobs := jobs + [JobEntry(deps, |deps|, [], 0, r.hasFunction, r.plugin, queue, false, false, false)];
    }

    method LinkStep(j: nat, k: nat, long: bool)
      requires Valid() && creating == Some(Creation(j, k, long)) && j < |jobs| && k < |jobs[j].dependencies|
      requires Unlocked(Contents(), jobs[j].dependencies[k])
      modifies this
      ensures Valid() && Step(old(Contents()), ACreateLink) == Some(Contents())
      ensures |jobs| == |old(jobs)| && SameRequest(old(jobs)[j], jobs[j])
      ensures handles == old(handles) && creating == Some(Creation(j, k + 1, long))
      ensures queues == old(queues) && threads == old(threads)
    {
      ghost var before := Contents();
      LinkIs(before, hist, j, k, long);
      StepKeepsAll(Contents(), hist, ACreateLink);
      var d := jobs[j].dependencies[k];
      hist := Follow(Contents(), hist, ACreateLink);
      jobs := jobs[d := jobs[d].(dependents := jobs[d].dependents + [Dependent(j, k)])];
      creating := Some(Creation(j, k + 1, long));
      assert Contents() == CreateLink(before).value;
    }

    /** Job `j` has got a queue of its own, and an idle thread that serves it. */
    static ghost predicate ServedByNewThread(s: Sys, s': Sys, j: nat) {
      && j < |s.jobs| == |s'.jobs| && s'.jobs == s.jobs[j := s.jobs[j].(queue := Some(|s.queues|))]
      && s'.queues == s.queues + [[]] && s'.threads == s.threads + [Thread(|s.queues|, Idle)]
    }

    /** Starts the thread of a long job and hands out the handle. */
    method EndStep(j: nat, long: bool) returns (h: nat)
      requires Valid() && j < |jobs| && creating == Some(Creation(j, |jobs[j].dependencies|, long))
      modifies this
      ensures Valid() && Step(old(Contents()), ACreateEnd) == Some(Contents())
      ensures creating.None? && h == |old(handles)| && handles == old(handles) + [j] && |jobs| == |old(jobs)|
      ensures if long then ServedByNewThread(old(Contents()), Contents(), j)
              else queues == old(queues) && threads == old(threads) && jobs == old(jobs)
    {
      StepKeepsAll(Contents(), hist, ACreateEnd);
      hist := Follow(Contents(), hist, ACreateEnd);
      if long {
        jobs := jobs[j := jobs[j].(queue := Some(|queues|))];
        threads := threads + [Thread(|queues|, Idle)];
        queues := queues + [[]];
      }
      handles := handles + [j];
      creating := None;
      h := |handles| - 1;
    }

    /** Creates a job: looks up every dependency before it changes anything, then enters the
        job into each dependency's list, waiting for its mutex, then hands out the handle. */
    method CreateJob(r: JobRequest) returns (h: Option<nat>, ghost actions: seq<Action>)
      requires Valid() && creating.None?
      modifies this
      ensures Valid() && creating.None? && After(old(Contents()), actions) == Some(Contents())
      ensures h.Some? <==> Answerable(old(handles), r)
      ensures h.Some? <==> RequestedDependencies(old(Contents()), r).Some?
      ensures h.None? ==> Contents() == old(Contents())
      ensures h.Some? ==> h.value == |old(handles)| && handles == old(handles) + [|old(jobs)|]
      ensures h.Some? ==>
                var j := |old(jobs)|;
                && |jobs| == j + 1 && RequestedDependencies(old(Contents()), r) == Some(jobs[j].dependencies)
                && AsksFor(old(handles), r, jobs[j].dependencies)
                && jobs[j].hasFunction == r.hasFunction && jobs[j].plugin == r.plugin
      ensures h.Some? ==>
                if r.long then
                  && jobs[|old(jobs)|].queue == Some(|old(queues)|) && queues == old(queues) + [[]]
                  && |threads| == |old(threads)| + 1 && threads[|old(threads)|] == Thread(|old(queues)|, Idle)
                else
                  jobs[|old(jobs)|].queue == Some(0) && queues == old(queues) && |threads| == |old(threads)|
    {
      RequestNames(Contents(), r);
      var found := Some([]);
      if r.dependencies.Some? {
        if r.dependencies.value == [] { return None, []; }
        found := LookUp(r.dependencies.value);
      }
      if found.None? { return None, []; }
      var deps, j := found.value, |jobs|;

      ghost var s0 := Contents();
      BeginStep(r, deps);
      AfterOneMore(s0, [], ACreateBegin(r));
      ghost var s1 := Contents();
      ghost var links := EnterInto(j, r.long);
      AfterBoth(s0, [] + [ACreateBegin(r)], s1, links);
      var handle := EndStep(j, r.long);
      AfterOneMore(s0, [] + [ACreateBegin(r)] + links, ACreateEnd);
      actions := [] + [ACreateBegin(r)] + links + [ACreateEnd];
      h := Some(handle);
    }

    /** The loop that enters the new job into the list of each dependency. */
    method EnterInto(j: nat, long: bool) returns (ghost actions: seq<Action>)
      requires Valid() && j < |jobs| && creating == Some(Creation(j, 0, long))
      modifies this
      ensures Valid() && After(old(Contents()), actions) == Some(Contents())
      ensures |jobs| == |old(jobs)| && SameRequest(old(jobs)[j], jobs[j])
      ensures handles == old(handles) && creating == Some(Creation(j, |jobs[j].dependencies|, long))
      ensures queues == old(queues) && |threads| == |old(threads)|
    {
      ghost var s0 := Contents();
      actions := [];
      var deps, k := jobs[j].dependencies, 0;
      while k < |deps|
        invariant 0 <= k <= |deps| && creating == Some(Creation(j, k, long)) && |jobs| == |old(jobs)|
        invariant SameRequest(old(jobs)[j], jobs[j]) && handles == old(handles)
        invariant queues == old(queues) && |threads| == |old(threads)|
        invariant Valid() && After(s0, actions) == Some(Contents())
      {
        ghost var s1 := Contents();
        ghost var more := LinkInto(j, k, long);
        AfterBoth(s0, actions, s1, more);
        actions, k := actions + more, k + 1;
      }
    }

    /** Waits for the dependency's mutex and enters the job. */
    method LinkInto(j: nat, k: nat, long: bool) returns (ghost actions: seq<Action>)
      requires Valid() && creating == Some(Creation(j, k, long)) && j < |jobs| && k < |jobs[j].dependencies|
      modifies this
      ensures Valid() && After(old(Contents()), actions) == Some(Contents())
      ensures |jobs| == |old(jobs)| && SameRequest(old(jobs)[j], jobs[j])
      ensures handles == old(handles) && creating == Some(Creation(j, k + 1, long))
      ensures queues == old(queues) && |threads| == |old(threads)|
    {
      assert ShapeOfJob(Contents(), hist, j);
      ghost var s0 := Contents();
      ghost var waits := WaitFor(|threads|, jobs[j].dependencies[k]);
      assert SameWiring(s0.jobs[j], jobs[j]);
      LinkStep(j, k, long);
      AfterOneMore(s0, waits, ACreateLink);
      actions := waits + [ACreateLink];
    }

    // ----- Waiting for a mutex

    /** A thread that holds the mutex of job `j`, or the end. */
    method LockHolder(j: nat) returns (u: nat)
      ensures u <= |threads| && (u < |threads| ==> Finishes(Contents(), u) && threads[u].act.job == j)
      ensures u == |threads| ==> Unlocked(Contents(), j)
    {
      u := 0;
      while u < |threads|
        invariant u <= |threads|
        invariant forall v :: 0 <= v < u ==> !(threads[v].act.Finishing? && threads[v].act.job == j)
      {
        if threads[u].act.Finishing? && threads[u].act.job == j { return; }
        u := u + 1;
      }
    }

    /** The thread that holds the mutex of the youngest job. */
    method YoungestHolder(u: nat) returns (v: nat)
      requires Finishes(Contents(), u)
      ensures Finishes(Contents(), v) && threads[u].act.job <= threads[v].act.job
      ensures forall w :: 0 <= w < |threads| && Finishes(Contents(), w) ==> threads[w].act.job <= threads[v].act.job
    {
      v := u;
      var w := 0;
      while w < |threads|
        invariant 0 <= w <= |threads| && Finishes(Contents(), v) && threads[u].act.job <= threads[v].act.job
        invariant forall x :: 0 <= x < w && Finishes(Contents(), x) ==> threads[x].act.job <= threads[v].act.job
      {
        if threads[w].act.Finishing? && threads[v].act.job < threads[w].act.job { v := w; }
        w := w + 1;
      }
    }

    /** Lets that thread do one step under its mutex. */
    method LetFinish(v: nat) returns (ghost a: Action)
      requires Valid() && Finishes(Contents(), v)
      requires forall w :: 0 <= w < |threads| && Finishes(Contents(), w) ==> threads[w].act.job <= threads[v].act.job
      modifies this
      ensures Valid() && IsFinishing(a) && Step(old(Contents()), a) == Some(Contents())
      ensures FinishersMoved(old(Contents()), Contents())
      ensures forall w :: 0 <= w < |threads| && w != v ==> threads[w] == old(threads)[w]
      ensures LeftUpTo(Contents(), |threads|) < old(LeftUpTo(Contents(), |threads|))
    {
      ghost var s := Contents();
      YoungestCanGoOn(s, hist, v);
      if threads[v].act.next < |jobs[threads[v].act.job].dependents| {
        TellDependent(v);
        a := AFinishNext(v);
      } else {
        FinishEndStep(v);
        a := AFinishEnd(v);
      }
      FinishingGoesOn(s, v, a);
    }

    /** Waits until nobody holds the mutex of job `j`. The calling thread is `t`, or none; the
        mutex it may hold itself is of an older job. */
    method WaitFor(t: nat, j: nat) returns (ghost actions: seq<Action>)
      requires Valid() && j < |jobs| && (Finishes(Contents(), t) ==> threads[t].act.job < j)
      modifies this
      ensures Valid() && Works(old(Contents()), actions, Contents(), t) && Unlocked(Contents(), j)
      ensures FinishersMoved(old(Contents()), Contents()) && (t < |threads| ==> threads[t] == old(threads)[t])
    {
      ghost var s0 := Contents();
      actions := [];
      var u: nat := LockHolder(j);
      while u < |threads|
        invariant Valid() && Works(s0, actions, Contents(), t) && FinishersMoved(s0, Contents())
        invariant t < |threads| ==> threads[t] == old(threads)[t]
        invariant u <= |threads| && (u < |threads| ==> Finishes(Contents(), u) && threads[u].act.job == j)
        invariant u == |threads| ==> Unlocked(Contents(), j)
        decreases u < |threads|, LeftUpTo(Contents(), |threads|)
      {
        ghost var s1 := Contents();
        var v := YoungestHolder(u);
        ghost var a := LetFinish(v);
        WorksOneMore(s0, actions, s1, a, Contents(), t);
        MovedTwice(s0, s1, Contents());
        actions := actions + [a];
        u := LockHolder(j);
      }
    }

    // ----- The queues

    /** Pushes a launch to queue `q`. */
    method PushTo(q: nat, l: Launch)
      requires q < |queues| && Sorted(queues[q])
      modifies this`queues
      ensures queues == old(queues)[q := Pushed(old(queues)[q], l)] && OneMoreQueued(old(queues), queues, q, l)
    {
      var queue := new JobQueue.Of(queues[q]);
      queue.Push(l);
      queues := queues[q := queue.launches];
    }

    /** An idle thread scans its queue. What it takes is the earliest launch that is due and
        idle, and a step of the protocol; it takes nothing only if no pull is possible. */
    method PullLaunch(t: nat) returns (pulled: Option<Launch>, ghost k: nat)
      requires Valid() && t < |threads| && threads[t].act == Idle
      modifies this
      ensures Valid()
      ensures pulled.None? ==> Contents() == old(Contents()) && forall i: nat :: Step(Contents(), APull(t, i)).None?
      ensures pulled.Some? ==>
                && Step(old(Contents()), APull(t, k)) == Some(Contents())
                && k < |old(queues)[old(threads)[t].queue]| && pulled.value == old(queues)[old(threads)[t].queue][k]
                && forall i: nat :: Step(old(Contents()), APull(t, i)).Some? ==>
                     pulled.value.timepoint <= old(queues)[old(threads)[t].queue][i].timepoint
    {
      ghost var s, h := Contents(), hist;
      var q := threads[t].queue;
      var queue := new JobQueue.Of(queues[q]);
      var usage := new int[|jobs|](i requires 0 <= i < |jobs| reads this => jobs[i].usage);
      assert usage[..] == Usages(s);
      pulled, k := queue.Pull(usage, now);
      if pulled.None? {
        NothingPullable(s, h, t);
      } else {
        PullableIff(s, h, t, k);
        StepKeepsAll(s, h, APull(t, k));
        var j := pulled.value.job;
        EarliestOfPullable(s, h, t, pulled.value);
        TakePulled(t, q, k, j, usage[j], queue.launches);
        hist := Follow(s, h, APull(t, k));
      }
    }

    method TakePulled(t: nat, q: nat, ghost k: nat, j: nat, used: int, rest: seq<Launch>)
      requires Pull(Contents(), t, k).Some? && q == threads[t].queue && j == queues[q][k].job
      requires used == jobs[j].usage + 1 && rest == WithoutAt(queues[q], k)
      modifies this`jobs, this`queues, this`threads
      ensures Pull(old(Contents()), t, k) == Some(Contents())
    {
      jobs := jobs[j := jobs[j].(usage := used)];
      queues := queues[q := rest];
      threads := threads[t := threads[t].(act := Pulled(j))];
    }

    // ----- The other calls

    /** Queue `q` has got one more launch, in its place by time; no other queue has changed. */
    static ghost predicate OneMoreQueued(before: seq<seq<Launch>>, after: seq<seq<Launch>>, q: nat, l: Launch) {
      && q < |before| == |after| && multiset(after[q]) == multiset(before[q]) + multiset{l} && Sorted(after[q])
      && forall p :: 0 <= p < |before| && p != q ==> after[p] == before[p]
    }

    /** Succeeds for a valid job without dependencies, whose queue gets a launch for the time
        that was asked for. */
    method ScheduleJob(h: nat, timepoint: nat) returns (ok: bool)
      requires Valid() && creating.None?
      modifies this
      ensures Valid() && Schedule(old(Contents()), h, timeBegin + timepoint) == Some(Contents())
      ensures ok <==> h < |handles| && jobs[handles[h]].dependencies == [] && !jobs[handles[h]].invalidated
      ensures Contents() == old(Contents()).(queues := queues)
      ensures if ok then
                var j := handles[h];
                && jobs[j].queue.Some?
                && OneMoreQueued(old(queues), queues, jobs[j].queue.value, Launch(j, timeBegin + timepoint))
              else queues == old(queues)
    {
      if h >= |handles| { return false; }
      var j := handles[h];
      if jobs[j].dependencies != [] { return false; }
      if jobs[j].invalidated { return false; }
      ScheduleIs(Contents(), hist, h, timeBegin + timepoint);
      PushTo(jobs[j].queue.value, Launch(j, timeBegin + timepoint));
      ok := true;
    }

    /** Marks the job and queues a launch for at once. Only for a job without dependencies does
        the scheduler stay in order. */
    method DestroyJob(h: nat)
      requires Valid() && creating.None?
      modifies this
      ensures Destroy(old(Contents()), h) == Some(Contents()) && Orderly(Contents())
      ensures Admissible(old(Contents()), ADestroy(h)) ==> Valid()
      ensures h >= |handles| ==> Contents() == old(Contents())
      ensures h < |old(handles)| ==>
                var j := old(handles)[h];
                && j < |old(jobs)| && old(jobs)[j].queue.Some?
                && Contents() == old(Contents()).(queues := queues, jobs := jobs)
                && jobs == old(jobs)[j := old(jobs)[j].(destructionPended := true)]
                && OneMoreQueued(old(queues), queues, jobs[j].queue.value, Launch(j, 0))
    {
      if h >= |handles| { return; }
      var j := handles[h];
      ghost var s := Contents();
      assert ShapeOfJob(s, hist, j);
      StepKeepsOrder(s, ADestroy(h));
      if Admissible(s, ADestroy(h)) { StepKeepsAll(s, hist, ADestroy(h)); }
      jobs := jobs[j := jobs[j].(destructionPended := true)];
      PushTo(jobs[j].queue.value, Launch(j, 0));
      assert Contents() == Destroy(s, h).value;
    }

    method InvalidateJob(h: nat)
      requires Valid() && creating.None?
      modifies this
      ensures Valid() && Invalidate(old(Contents()), h) == Some(Contents())
      ensures h >= |handles| ==> Contents() == old(Contents())
      ensures h < |old(handles)| ==>
                var j := old(handles)[h];
                && j < |old(jobs)| && Contents() == old(Contents()).(jobs := jobs)
                && jobs == old(jobs)[j := old(jobs)[j].(invalidated := true)]
    {
      if h >= |handles| { return; }
      StepKeepsAll(Contents(), hist, AInvalidate(h));
      var j := handles[h];
      jobs := jobs[j := jobs[j].(invalidated := true)];
    }

    /** Hands out another handle of the job that a known handle names. */
    method CreateCapability(h: nat) returns (r: Option<nat>)
      requires Valid() && creating.None?
      modifies this
      ensures Valid() && Capability(old(Contents()), h) == Some(Contents())
      ensures r.Some? <==> h < |old(handles)|
      ensures r.None? ==> Contents() == old(Contents())
      ensures r.Some? ==>
                && Contents() == old(Contents()).(handles := handles) && r.value == |old(handles)|
                && |handles| == |old(handles)| + 1 && handles[r.value] == old(handles)[h]
                && forall k :: 0 <= k < |old(handles)| ==> handles[k] == old(handles)[k]
    {
      if h >= |handles| { return None; }
      StepKeepsAll(Contents(), hist, ACapability(h));
      r := Some(|handles|);
      handles := handles + [handles[h]];
    }

    // ----- Working off a launch

    /** The early returns and the choice between destroying, running and skipping. */
    method StartLaunch(t: nat) returns (parked: bool, ghost actions: seq<Action>)
      requires Valid() && t < |threads| && threads[t].act.Pulled?
      modifies this
      ensures Valid() && Works(old(Contents()), actions, Contents(), t) && OthersStay(old(Contents()), Contents(), t)
      ensures var j := old(threads)[t].act.job;
              && j < |old(jobs)| && (parked <==> Dead(old(Contents()), j))
              && if parked then
                   actions == [ACheck(t)] && Contents() == SetAct(old(Contents()), t, Idle)
                 else
                   && actions == [ACheck(t), ADispatch(t)]
                   && threads[t].act == if ToBeCalled(old(Contents()), j) then Running(j) else Skipped(j)
    {
      ghost var s0 := Contents();
      parked := CheckStep(t);
      OwnStepStays(s0, ACheck(t), t);
      WorksOneMore(s0, [], s0, ACheck(t), Contents(), t);
      actions := [] + [ACheck(t)];
      if parked { return; }
      ghost var s1 := Contents();
      DispatchStep(t);
      OwnStepStays(s1, ADispatch(t), t);
      StayTwice(s0, s1, Contents(), t);
      WorksOneMore(s0, actions, s1, ADispatch(t), Contents(), t);
      actions := actions + [ADispatch(t)];
    }

    method CheckStep(t: nat) returns (parked: bool)
      requires Valid() && t < |threads| && threads[t].act.Pulled?
      modifies this
      ensures Valid() && Step(old(Contents()), ACheck(t)) == Some(Contents()) && |threads| == |old(threads)|
      ensures var j := old(threads)[t].act.job;
              && j < |jobs| && jobs == old(jobs) && (parked <==> Dead(old(Contents()), j))
              && Contents() == SetAct(old(Contents()), t, if parked then Idle else Checked(j))
    {
      assert ThreadInStep(Contents(), hist, t);
      var j := threads[t].act.job;
      StepKeepsAll(Contents(), hist, ACheck(t));
      hist := Follow(Contents(), hist, ACheck(t));
      parked := jobs[j].invalidated || jobs[j].destroyed || jobs[j].plugin in unloaded;
      threads := threads[t := threads[t].(act := if parked then Idle else Checked(j))];
    }

    method DispatchStep(t: nat)
      requires Valid() && t < |threads| && threads[t].act.Checked?
      modifies this
      ensures Valid() && Step(old(Contents()), ADispatch(t)) == Some(Contents()) && |threads| == |old(threads)|
      ensures var j := old(threads)[t].act.job;
              threads[t].act == if ToBeCalled(old(Contents()), j) then Running(j) else Skipped(j)
    {
      assert ThreadInStep(Contents(), hist, t);
      var j := threads[t].act.job;
      StepKeepsAll(Contents(), hist, ADispatch(t));
      if jobs[j].destructionPended {
        jobs := jobs[j := jobs[j].(destroyed := true)];
        threads := threads[t := threads[t].(act := Skipped(j))];
      } else {
        threads := threads[t := threads[t].(act := if jobs[j].hasFunction then Running(j) else Skipped(j))];
      }
    }

    method FinishBeginStep(t: nat)
      requires Valid() && t < |threads| && (threads[t].act.Running? || threads[t].act.Skipped?)
      modifies this
      ensures Valid() && Step(old(Contents()), AFinishBegin(t)) == Some(Contents()) && |threads| == |old(threads)|
      ensures threads[t].act == Finishing(old(threads)[t].act.job, 0, []) && threads[t].act.job < |jobs|
    {
      ghost var s, h := Contents(), hist;
      assert ThreadInStep(s, h, t);
      HeldIsUnlocked(s, h, t);
      StepKeepsAll(s, h, AFinishBegin(t));
      TakeUsages(t);
      hist := Follow(s, h, AFinishBegin(t));
    }

    method TakeUsages(t: nat)
      requires FinishBegin(Contents(), t).Some?
      modifies this`jobs, this`threads
      ensures FinishBegin(old(Contents()), t) == Some(Contents())
    {
      var j := threads[t].act.job;
      jobs := jobs[j := jobs[j].(usage := jobs[j].usage + |jobs[j].dependents|)];
      threads := threads[t := threads[t].(act := Finishing(j, 0, []))];
    }

    /** One turn of the loop over the dependents, with the dependent's mutex free. */
    method TellDependent(t: nat)
      requires Valid() && FinishNext(Contents(), t).Some?
      modifies this
      ensures Valid() && Step(old(Contents()), AFinishNext(t)) == Some(Contents())
    {
      ghost var s, h := Contents(), hist;
      StepKeepsAll(s, h, AFinishNext(t));
      CountDown(t);
      hist := Follow(s, h, AFinishNext(t));
    }

    method CountDown(t: nat)
      requires FinishNext(Contents(), t).Some?
      modifies this`jobs, this`threads
      ensures FinishNext(old(Contents()), t) == Some(Contents())
    {
      var act := threads[t].act;
      var d := jobs[act.job].dependents[act.next].job;
      ghost var e := jobs[d];
      jobs := jobs[d := jobs[d].(countdown := jobs[d].countdown - 1)];
      var planned := act.planned;
      if jobs[d].countdown == 0 {
        jobs := jobs[d := jobs[d].(countdown := |jobs[d].dependencies|)];
        planned := planned + [Launch(d, now)];
        assert jobs == old(jobs)[d := e.(countdown := |e.dependencies|)];
      }
      threads := threads[t := threads[t].(act := Finishing(act.job, act.next + 1, planned))];
    }

    method FinishEndStep(t: nat)
      requires Valid() && FinishEnd(Contents(), t).Some?
      modifies this
      ensures Valid() && Step(old(Contents()), AFinishEnd(t)) == Some(Contents()) && |threads| == |old(threads)|
      ensures threads[t].act.Idle? || threads[t].act.Pushing? || threads[t].act.Releasing?
    {
      var act := threads[t].act;
      var j := act.job;
      StepKeepsAll(Contents(), hist, AFinishEnd(t));
      hist := Follow(Contents(), hist, AFinishEnd(t));
      jobs := jobs[j := jobs[j].(usage := jobs[j].usage - 1)];
      threads := threads[t := threads[t].(act :=
        if act.planned != [] then Pushing(j, act.planned)
        else if jobs[j].dependencies == [] then Idle else Releasing(j, 0))];
    }

    /** The region under the job's mutex. */
    method Finish(t: nat) returns (ghost actions: seq<Action>)
      requires Valid() && t < |threads| && (threads[t].act.Running? || threads[t].act.Skipped?)
      modifies this
      ensures Valid() && Works(old(Contents()), actions, Contents(), t) && OthersStay(old(Contents()), Contents(), t)
      ensures threads[t].act.Idle? || threads[t].act.Pushing? || threads[t].act.Releasing?
      ensures actions != [] && actions[0] == AFinishBegin(t)
    {
      ghost var s0 := Contents();
      FinishBeginStep(t);
      OwnStepStays(s0, AFinishBegin(t), t);
      WorksOneMore(s0, [], s0, AFinishBegin(t), Contents(), t);
      ghost var s1 := Contents();
      actions := TellDependents(t);
      ghost var s2 := Contents();
      WorksOn(s0, [] + [AFinishBegin(t)], s1, actions, s2, t);
      StayTwice(s0, s1, s2, t);
      FinishEndStep(t);
      OwnStepStays(s2, AFinishEnd(t), t);
      StayTwice(s0, s2, Contents(), t);
      actions := [] + [AFinishBegin(t)] + actions;
      WorksOneMore(s0, actions, s2, AFinishEnd(t), Contents(), t);
      actions := actions + [AFinishEnd(t)];
    }

    /** The loop over the dependents. */
    method TellDependents(t: nat) returns (ghost actions: seq<Action>)
      requires Valid() && Finishes(Contents(), t)
      modifies this
      ensures Valid() && Works(old(Contents()), actions, Contents(), t) && OthersStay(old(Contents()), Contents(), t)
      ensures Finishes(Contents(), t) && threads[t].act.job == old(threads)[t].act.job < |jobs|
      ensures threads[t].act.next == |jobs[threads[t].act.job].dependents|
    {
      ghost var s0 := Contents();
      assert ThreadInStep(s0, hist, t);
      actions := [];
      var j := threads[t].act.job;
      while threads[t].act.next < |jobs[j].dependents|
        invariant Valid() && Works(s0, actions, Contents(), t) && OthersStay(s0, Contents(), t)
        invariant Finishes(Contents(), t) && threads[t].act.job == j < |jobs|
        invariant threads[t].act.next <= |jobs[j].dependents|
        decreases |jobs[j].dependents| - threads[t].act.next
      {
        ghost var s1 := Contents();
        ghost var more := TellNext(t);
        WorksOn(s0, actions, s1, more, Contents(), t);
        StayTwice(s0, s1, Contents(), t);
        actions := actions + more;
      }
    }

    /** Waits for the next dependent's mutex and tells it. */
    method TellNext(t: nat) returns (ghost actions: seq<Action>)
      requires Valid() && Finishes(Contents(), t) && threads[t].act.job < |jobs|
      requires threads[t].act.next < |jobs[threads[t].act.job].dependents|
      modifies this
      ensures Valid() && Works(old(Contents()), actions, Contents(), t) && OthersStay(old(Contents()), Contents(), t)
      ensures Finishes(Contents(), t) && threads[t].act.job == old(threads)[t].act.job < |jobs|
      ensures threads[t].act.next == old(threads)[t].act.next + 1
      ensures jobs[threads[t].act.job].dependents == old(jobs)[threads[t].act.job].dependents
    {
      ghost var s0 := Contents();
      NextIsYounger(s0, hist, t);
      var j := threads[t].act.job;
      actions := WaitFor(t, jobs[j].dependents[threads[t].act.next].job);
      ghost var s1 := Contents();
      assert SameWiring(s0.jobs[j], s1.jobs[j]);
      TellDependent(t);
      OneFinisherMoves(s1, t, AFinishNext(t));
      assert SameWiring(s1.jobs[j], jobs[j]);
      OwnStepStays(s1, AFinishNext(t), t);
      StayTwice(s0, s1, Contents(), t);
      WorksOneMore(s0, actions, s1, AFinishNext(t), Contents(), t);
      actions := actions + [AFinishNext(t)];
    }

    /** One turn of the loop over the planned launches, for a job that has a queue. */
    method PushPlanned(t: nat)
      requires Valid() && t < |threads| && threads[t].act.Pushing? && !PushesToMissingQueue(Contents(), t)
      modifies this
      ensures Valid() && Step(old(Contents()), APushNext(t)) == Some(Contents()) && |threads| == |old(threads)|
      ensures threads[t].act.Idle? || threads[t].act.Pushing? || threads[t].act.Releasing?
      ensures threads[t].act.Pushing? ==> |threads[t].act.planned| < |old(threads)[t].act.planned|
    {
      ghost var s, h := Contents(), hist;
      assert ThreadInStep(s, h, t) && PlanInStep(s, h, t, threads[t].act.Plans()[0].job);
      assert ShapeOfJob(s, h, threads[t].act.planned[0].job);
      StepKeepsAll(s, h, APushNext(t));
      PushFirst(t);
      hist := Follow(s, h, APushNext(t));
    }

    method PushFirst(t: nat)
      requires PushNext(Contents(), t).Some? && Orderly(Contents())
      modifies this`queues, this`threads
      ensures PushNext(old(Contents()), t) == Some(Contents()) && |threads| == |old(threads)|
      ensures threads[t].act.Idle? || threads[t].act.Pushing? || threads[t].act.Releasing?
      ensures threads[t].act.Pushing? ==> |threads[t].act.planned| < |old(threads)[t].act.planned|
    {
      var act := threads[t].act;
      var l := act.planned[0];
      PushTo(jobs[l.job].queue.value, l);
      threads := threads[t := threads[t].(act :=
        if |act.planned| > 1 then Pushing(act.job, act.planned[1..])
        else if jobs[act.job].dependencies == [] then Idle else Releasing(act.job, 0))];
    }

    /** The loop over the planned launches. It breaks down at a launch for a long job whose
        thread does not exist yet. */
    method PushAllPlanned(t: nat) returns (crashed: bool, ghost actions: seq<Action>)
      requires Valid() && t < |threads|
      requires threads[t].act.Idle? || threads[t].act.Pushing? || threads[t].act.Releasing?
      modifies this
      ensures Valid() && Works(old(Contents()), actions, Contents(), t) && OthersStay(old(Contents()), Contents(), t)
      ensures if crashed then PushesToMissingQueue(Contents(), t) else threads[t].act.Idle? || threads[t].act.Releasing?
    {
      ghost var s0 := Contents();
      actions, crashed := [], false;
      while threads[t].act.Pushing?
        invariant Valid() && Works(s0, actions, Contents(), t) && OthersStay(s0, Contents(), t) && !crashed
        invariant threads[t].act.Idle? || threads[t].act.Pushing? || threads[t].act.Releasing?
        decreases if threads[t].act.Pushing? then 1 + |threads[t].act.planned| else 0
      {
        ghost var s1 := Contents();
        assert ThreadInStep(s1, hist, t) && PlanInStep(s1, hist, t, threads[t].act.Plans()[0].job);
        if jobs[threads[t].act.planned[0].job].queue.None? { return true, actions; }
        PushPlanned(t);
        OwnStepStays(s1, APushNext(t), t);
        StayTwice(s0, s1, Contents(), t);
        WorksOneMore(s0, actions, s1, APushNext(t), Contents(), t);
        actions := actions + [APushNext(t)];
      }
    }

    /** One turn of the loop over the dependencies: waits for the dependency's mutex and gives
        one usage back. */
    method ReleaseDependency(t: nat) returns (ghost actions: seq<Action>)
      requires Valid() && t < |threads| && threads[t].act.Releasing?
      modifies this
      ensures Valid() && Works(old(Contents()), actions, Contents(), t) && OthersStay(old(Contents()), Contents(), t)
      ensures threads[t].act.Idle? || threads[t].act.Releasing?
      ensures LeftToRelease(t) < old(LeftToRelease(t))
    {
      ghost var s0 := Contents();
      assert ThreadInStep(s0, hist, t) && ShapeOfJob(s0, hist, threads[t].act.job);
      actions := WaitFor(t, jobs[threads[t].act.job].dependencies[threads[t].act.next]);
      ghost var s1 := Contents();
      assert SameWiring(s0.jobs[threads[t].act.job], jobs[threads[t].act.job]);
      GiveBack(t);
      OwnStepStays(s1, ARelease(t), t);
      StayTwice(s0, s1, Contents(), t);
      WorksOneMore(s0, actions, s1, ARelease(t), Contents(), t);
      actions := actions + [ARelease(t)];
    }

    method GiveBack(t: nat)
      requires Valid() && Release(Contents(), t).Some?
      modifies this
      ensures Valid() && Step(old(Contents()), ARelease(t)) == Some(Contents()) && |threads| == |old(threads)|
      ensures threads[t].act.Idle? || threads[t].act.Releasing?
      ensures LeftToRelease(t) < old(LeftToRelease(t))
    {
      ghost var s, h := Contents(), hist;
      StepKeepsAll(s, h, ARelease(t));
      GiveUsageBack(t);
      hist := Follow(s, h, ARelease(t));
    }

    method GiveUsageBack(t: nat)
      requires Release(Contents(), t).Some?
      modifies this`jobs, this`threads
      ensures Release(old(Contents()), t) == Some(Contents()) && |threads| == |old(threads)|
      ensures threads[t].act.Idle? || threads[t].act.Releasing?
      ensures LeftToRelease(t) < old(LeftToRelease(t))
    {
      var act := threads[t].act;
      var d := jobs[act.job].dependencies[act.next];
      var dependents := jobs[d].dependents;
      if jobs[act.job].destructionPended {
        var i := FindDependent(dependents, act.job);
        if i < |dependents| { dependents := dependents[..i] + dependents[i + 1..]; }
      }
      jobs := jobs[d := jobs[d].(usage := jobs[d].usage - 1, dependents := dependents)];
      threads := threads[t := threads[t].(act :=
        if act.next + 1 == |jobs[act.job].dependencies| then Idle else Releasing(act.job, act.next + 1))];
    }

    ghost function LeftToRelease(t: nat): nat
      reads this
    {
      if t < |threads| && threads[t].act.Releasing? && threads[t].act.job < |jobs| &&
         threads[t].act.next < |jobs[threads[t].act.job].dependencies|
      then |jobs[threads[t].act.job].dependencies| - threads[t].act.next else 0
    }

    /** The loop over the dependencies. */
    method ReleaseDependencies(t: nat) returns (ghost actions: seq<Action>)
      requires Valid() && t < |threads| && (threads[t].act.Idle? || threads[t].act.Releasing?)
      modifies this
      ensures Valid() && Works(old(Contents()), actions, Contents(), t) && OthersStay(old(Contents()), Contents(), t)
      ensures threads[t].act.Idle?
    {
      ghost var s0 := Contents();
      actions := [];
      while threads[t].act.Releasing?
        invariant Valid() && Works(s0, actions, Contents(), t) && OthersStay(s0, Contents(), t)
        invariant threads[t].act.Idle? || threads[t].act.Releasing?
        decreases LeftToRelease(t)
      {
        ghost var s1 := Contents();
        ghost var more := ReleaseDependency(t);
        WorksOn(s0, actions, s1, more, Contents(), t);
        StayTwice(s0, s1, Contents(), t);
        actions := actions + more;
      }
    }

    /** Works off the launch that thread `t` has pulled: a run of the thread's own steps and of
        those it waits for, at the end of which it is idle again. It breaks down only at a push
        to a thread that does not exist yet. A dead job is parked at once. For any other the
        function runs once, after the second step, if it is to be called at all. */
    method ProcessLaunch(t: nat) returns (crashed: bool, ghost actions: seq<Action>)
      requires Valid() && t < |threads| && threads[t].act.Pulled?
      modifies this
      ensures Valid() && Works(old(Contents()), actions, Contents(), t) && OthersStay(old(Contents()), Contents(), t)
      ensures if crashed then PushesToMissingQueue(Contents(), t) else threads[t].act.Idle?
      ensures var s, j := old(Contents()), old(threads)[t].act.job;
              && j < |s.jobs|
              && (if Dead(s, j) then !crashed && actions == [ACheck(t)] && Contents() == SetAct(s, t, Idle)
                  else BeginsLaunch(actions, t))
              && forall m: nat :: RunsIn(s, actions, m, t, j) <==> m == 2 && !Dead(s, j) && ToBeCalled(s, j)
    {
      ghost var s0, j := Contents(), threads[t].act.job;
      var parked;
      parked, actions := StartLaunch(t);
      if parked {
        ParkedRunsNothing(s0, t, j);
        return false, actions;
      }
      ghost var s1 := Contents();
      ghost var more;
      crashed, more := AfterDispatch(t);
      WorksOn(s0, actions, s1, more, Contents(), t);
      StayTwice(s0, s1, Contents(), t);
      actions := actions + more;
      RunsAfterDispatch(s0, actions, t, j);
    }

    /** What is left of the launch once the function has returned. */
    method AfterDispatch(t: nat) returns (crashed: bool, ghost actions: seq<Action>)
      requires Valid() && t < |threads| && (threads[t].act.Running? || threads[t].act.Skipped?)
      modifies this
      ensures Valid() && Works(old(Contents()), actions, Contents(), t) && OthersStay(old(Contents()), Contents(), t)
      ensures if crashed then PushesToMissingQueue(Contents(), t) else threads[t].act.Idle?
      ensures actions != [] && actions[0] == AFinishBegin(t)
    {
      ghost var s0 := Contents();
      actions := Finish(t);
      ghost var s1 := Contents();
      ghost var more;
      crashed, more := PushAllPlanned(t);
      WorksOn(s0, actions, s1, more, Contents(), t);
      StayTwice(s0, s1, Contents(), t);
      actions, s1 := actions + more, Contents();
      if crashed { return; }
      more := ReleaseDependencies(t);
      WorksOn(s0, actions, s1, more, Contents(), t);
      StayTwice(s0, s1, Contents(), t);
      actions := actions + more;
    }
  }
}
