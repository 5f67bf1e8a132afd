/** Which thread serves which queue, and what a job has of the request that created it. */
module SchedulerServers {
  import opened Options
  import opened LaunchQueues
  import opened Scheduling
  import opened SchedulerInvariants
  import opened SchedulerTheorems
  import opened SchedulerQueues
  import opened SchedulerLaunches

  /** The first `n` threads serve the short queue, and each queue after it has one thread. */
  ghost predicate Staffed(s: Sys, n: nat) {
    && n <= |s.threads| && |s.queues| == 1 + |s.threads| - n
    && forall t :: 0 <= t < |s.threads| ==> s.threads[t].queue == if t < n then 0 else t - n + 1
  }

  /** A job has the short queue, or one that no other job has. */
  ghost predicate OwnQueues(s: Sys) {
    && (forall j :: 0 <= j < |s.jobs| && s.jobs[j].queue.Some? ==> s.jobs[j].queue.value < |s.queues|)
    && forall j, k :: 0 <= j < k < |s.jobs| && s.jobs[j].queue.Some? && s.jobs[j].queue == s.jobs[k].queue ==>
         s.jobs[j].queue.value == 0
  }

  lemma StepKeepsStaff(s: Sys, a: Action, n: nat)
    requires Staffed(s, n) && Step(s, a).Some?
    ensures Staffed(Step(s, a).value, n)
  {
  }

  /** The creation of long job `j` comes to its end. */
  predicate StartsThread(s: Sys, a: Action, j: nat) {
    a.ACreateEnd? && s.creating.Some? && s.creating.value.job == j && s.creating.value.long
  }

  /** The queue of a job changes only when its creation ends and starts its thread. */
  lemma QueueOfStep(s: Sys, a: Action, j: nat)
    requires Step(s, a).Some? && j < |s.jobs|
    ensures var s' := Step(s, a).value;
            && j < |s'.jobs| && |s'.queues| >= |s.queues|
            && s'.jobs[j].queue == (if StartsThread(s, a, j) then Some(|s.queues|) else s.jobs[j].queue)
            && (s'.creating.Some? && s'.creating.value.job == j ==>
                  s.creating.Some? && s.creating.value.job == j && s.creating.value.long == s'.creating.value.long)
  {
    if a.ACreateLink? { assert s.creating.value.job < |s.jobs|; }
  }

  lemma QueueOfNew(s: Sys, a: Action)
    requires Step(s, a).Some? && |Step(s, a).value.jobs| > |s.jobs|
    ensures var s', j := Step(s, a).value, |s.jobs|;
            && a.ACreateBegin? && |s'.jobs| == j + 1 && s'.queues == s.queues
            && s'.jobs[j].queue == (if a.r.long then None else Some(0)) && s'.creating == Some(Creation(j, 0, a.r.long))
  {
  }

  lemma StepKeepsOwnQueues(s: Sys, a: Action)
    requires OwnQueues(s) && Step(s, a).Some? && |s.queues| > 0
    ensures OwnQueues(Step(s, a).value)
  {
    var s' := Step(s, a).value;
    if |s'.jobs| > |s.jobs| { QueueOfNew(s, a); }
    forall j | 0 <= j < |s'.jobs|
      ensures s'.jobs[j].queue.Some? ==> s'.jobs[j].queue.value < |s'.queues|
      ensures j < |s.jobs| && s'.jobs[j].queue != s.jobs[j].queue ==>
                s'.jobs[j].queue == Some(|s.queues|) && StartsThread(s, a, j)
    {
      if j < |s.jobs| { QueueOfStep(s, a, j); }
    }
  }

  /** Over every execution the queues and the threads fit together. */
  lemma {:induction false} ThreadsServe(trace: seq<Sys>, actions: seq<Action>, i: nat)
    requires IsExecution(trace, actions) && i < |trace|
    ensures Staffed(trace[i], |trace[0].threads|) && OwnQueues(trace[i])
  {
    if i == 0 {
    } else {
      ThreadsServe(trace, actions, i - 1);
      assert Taken(trace, actions, i - 1);
      StepKeepsStaff(trace[i - 1], actions[i - 1], |trace[0].threads|);
      StepKeepsOwnQueues(trace[i - 1], actions[i - 1]);
    }
  }

  /** Every job whose queue is not the short one has exactly one thread that serves the queue,
      which no other job uses. */
  lemma OwnThread(trace: seq<Sys>, actions: seq<Action>, i: nat, j: nat) returns (t: nat)
    requires IsExecution(trace, actions) && i < |trace| && j < |trace[i].jobs|
    requires trace[i].jobs[j].queue.Some? && trace[i].jobs[j].queue != Some(0)
    ensures t < |trace[i].threads| && Some(trace[i].threads[t].queue) == trace[i].jobs[j].queue
    ensures forall u :: 0 <= u < |trace[i].threads| && Some(trace[i].threads[u].queue) == trace[i].jobs[j].queue ==>
              u == t
    ensures forall k :: 0 <= k < |trace[i].jobs| && trace[i].jobs[k].queue == trace[i].jobs[j].queue ==> k == j
  {
    ThreadsServe(trace, actions, i);
    t := |trace[0].threads| + trace[i].jobs[j].queue.value - 1;
  }

  // ----- The queue is of the kind that was asked for

  ghost predicate OfKind(s: Sys, j: nat, long: bool) {
    && j < |s.jobs| && |s.queues| > 0 && (if long then s.jobs[j].queue != Some(0) else s.jobs[j].queue == Some(0))
    && (s.creating.Some? && s.creating.value.job == j ==> s.creating.value.long == long)
  }

  lemma StepKeepsKind(s: Sys, a: Action, j: nat, long: bool)
    requires OfKind(s, j, long) && Step(s, a).Some?
    ensures OfKind(Step(s, a).value, j, long)
  {
    QueueOfStep(s, a, j);
  }

  /** Over every execution a job has the short queue exactly when a short job was asked for. */
  lemma {:induction false} QueueIsAsRequested(trace: seq<Sys>, actions: seq<Action>, i: nat, n: nat, j: nat,
        r: JobRequest)
    requires IsExecution(trace, actions) && CreatedBy(trace, actions, i, j, r) && i < n < |trace|
    ensures OfKind(trace[n], j, r.long)
    decreases n
  {
    assert Taken(trace, actions, n - 1);
    if n == i + 1 {
      ThreadsServe(trace, actions, i);
      QueueOfNew(trace[i], actions[i]);
    } else {
      QueueIsAsRequested(trace, actions, i, n - 1, j, r);
      StepKeepsKind(trace[n - 1], actions[n - 1], j, r.long);
    }
  }

  // ----- What handles name

  /** A request is answered when it has no dependency list, or one of known handles, not empty. */
  predicate Answerable(handles: seq<nat>, r: JobRequest) {
    r.dependencies.Some? ==>
      r.dependencies.value != [] && forall i :: 0 <= i < |r.dependencies.value| ==> r.dependencies.value[i] < |handles|
  }

  /** The jobs are those that the dependency list names, one by one. */
  predicate AsksFor(handles: seq<nat>, r: JobRequest, deps: seq<nat>) {
    var list := if r.dependencies.Some? then r.dependencies.value else [];
    |deps| == |list| && forall i :: 0 <= i < |list| ==> list[i] < |handles| && deps[i] == handles[list[i]]
  }

  lemma RequestNames(s: Sys, r: JobRequest)
    ensures RequestedDependencies(s, r).Some? <==> Answerable(s.handles, r)
    ensures RequestedDependencies(s, r).Some? ==> AsksFor(s.handles, r, RequestedDependencies(s, r).value)
  {
  }

  /** Over every execution a request creates a job exactly when it can be answered, and the job
      depends on what it asks for as long as the execution lasts. */
  lemma {:induction false} DependsAsRequested(trace: seq<Sys>, actions: seq<Action>, i: nat, n: nat, r: JobRequest)
    requires IsExecution(trace, actions) && i < n < |trace| && actions[i] == ACreateBegin(r)
    ensures var j := |trace[i].jobs|;
            && (CreatedBy(trace, actions, i, j, r) <==> Answerable(trace[i].handles, r))
            && (Answerable(trace[i].handles, r) ==>
                  j < |trace[n].jobs| && AsksFor(trace[i].handles, r, trace[n].jobs[j].dependencies))
    decreases n
  {
    assert Taken(trace, actions, n - 1);
    if n == i + 1 {
      RequestNames(trace[i], r);
    } else {
      DependsAsRequested(trace, actions, i, n - 1, r);
      if Answerable(trace[i].handles, r) { DependenciesStay(trace[n - 1], actions[n - 1], |trace[i].jobs|); }
    }
  }

  /** A handle is handed out at the end of a creation, for the job created, or as a capability of
      another, for the same job; the handles there are go on naming their jobs. */
  lemma HandlesOfStep(s: Sys, a: Action)
    requires Step(s, a).Some?
    ensures a.ACreateEnd? ==> s.creating.Some? && Step(s, a).value.creating.None?
    ensures Step(s, a).value.handles == s.handles +
              if a.ACreateEnd? then [s.creating.value.job]
              else if a.ACapability? && a.h < |s.handles| then [s.handles[a.h]]
              else []
  {
    assert s.handles + [] == s.handles;
  }

  lemma {:induction false} HandlesStay(trace: seq<Sys>, actions: seq<Action>, i: nat, n: nat, h: nat, j: nat)
    requires IsExecution(trace, actions) && i <= n < |trace| && Names(trace[i], h, j)
    ensures Names(trace[n], h, j)
  {
    if i == n {
    } else {
      HandlesStay(trace, actions, i, n - 1, h, j);
      assert Taken(trace, actions, n - 1);
      HandlesOfStep(trace[n - 1], actions[n - 1]);
    }
  }

  /** The creation under way is that of the youngest job. */
  ghost predicate CreatesYoungest(s: Sys) { s.creating.Some? ==> s.creating.value.job + 1 == |s.jobs| }

  lemma {:induction false} YoungestIsCreated(trace: seq<Sys>, actions: seq<Action>, n: nat)
    requires IsExecution(trace, actions) && n < |trace|
    ensures CreatesYoungest(trace[n])
  {
    if n == 0 {
    } else {
      YoungestIsCreated(trace, actions, n - 1);
      assert Taken(trace, actions, n - 1);
      CreationOfStep(trace[n - 1], actions[n - 1]);
    }
  }

  lemma CreationOfStep(s: Sys, a: Action)
    requires Step(s, a).Some? && CreatesYoungest(s)
    ensures CreatesYoungest(Step(s, a).value)
  {
  }

  /** The call that creates a job returns a handle of it, and every capability of a handle names
      the same job, from then on. */
  lemma HandleIsOfJob(trace: seq<Sys>, actions: seq<Action>, i: nat, n: nat)
    requires IsExecution(trace, actions) && i < n < |trace|
    ensures actions[i].ACreateEnd? ==>
              trace[i].jobs != [] && Names(trace[n], |trace[i].handles|, |trace[i].jobs| - 1)
    ensures actions[i].ACapability? ==>
              forall j :: Names(trace[i], actions[i].h, j) ==>
                Names(trace[n], actions[i].h, j) && Names(trace[n], |trace[i].handles|, j)
  {
    assert Taken(trace, actions, i);
    HandlesOfStep(trace[i], actions[i]);
    YoungestIsCreated(trace, actions, i);
    var h := |trace[i].handles|;
    if |trace[i + 1].handles| > h { HandlesStay(trace, actions, i + 1, n, h, trace[i + 1].handles[h]); }
    forall j | actions[i].ACapability? && Names(trace[i], actions[i].h, j) ensures Names(trace[n], actions[i].h, j) {
      HandlesStay(trace, actions, i, n, actions[i].h, j);
    }
  }

  // ----- Due launches can be pulled

  /** A launch that is due and whose job is idle can be pulled by a thread that serves its queue
      as soon as that thread is idle; and there is one, if there are short threads at all. */
  lemma DueLaunchIsServed(trace: seq<Sys>, actions: seq<Action>, i: nat, q: nat, k: nat) returns (t: nat)
    requires IsRun(trace, actions) && i < |trace| && q < |trace[i].queues| && k < |trace[i].queues[q]|
    requires var l := trace[i].queues[q][k];
             l.timepoint <= trace[i].now && l.job < |trace[i].jobs| && trace[i].jobs[l.job].usage == 0
    requires q == 0 ==> trace[0].threads != []
    ensures t < |trace[i].threads| && trace[i].threads[t].queue == q
    ensures q > 0 ==> forall u :: 0 <= u < |trace[i].threads| && trace[i].threads[u].queue == q ==> u == t
    ensures forall u ::
              0 <= u < |trace[i].threads| && trace[i].threads[u].queue == q && trace[i].threads[u].act == Idle ==>
                Step(trace[i], APull(u, k)).Some?
  {
    ThreadsServe(trace, actions, i);
    HistoryFits(trace, actions, i);
    t := if q == 0 then 0 else |trace[0].threads| + q - 1;
    forall u | 0 <= u < |trace[i].threads| && trace[i].threads[u].queue == q && trace[i].threads[u].act == Idle
      ensures Step(trace[i], APull(u, k)).Some?
    {
      PullableIff(trace[i], HistoryAt(trace, actions, i), u, k);
    }
  }
}
