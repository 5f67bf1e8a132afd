/** Progress of the scheduler, and the calls after which it makes none. */
module SchedulerProgress {
  import opened Options
  import opened LaunchQueues
  import opened Scheduling
  import opened SchedulerInvariants
  import opened SchedulerProofs
  import opened SchedulerWorkers
  import opened SchedulerFinish
  import opened SchedulerRelease
  import opened SchedulerTelling
  import opened SchedulerTheorems

  // ----- Locks

  ghost predicate HasDependent(s: Sys, d: nat, j: nat) {
    d < |s.jobs| && exists k :: 0 <= k < |s.jobs[d].dependents| && s.jobs[d].dependents[k].job == j
  }

  /** A path along `dependents` entries. */
  ghost predicate IsPath(s: Sys, p: seq<nat>) {
    |p| > 1 && forall i :: 0 <= i < |p| - 1 ==> HasDependent(s, p[i], p[i + 1])
  }

  ghost predicate LinksAscend(s: Sys) {
    forall j, k :: 0 <= j < |s.jobs| && 0 <= k < |s.jobs[j].dependents| ==> j < s.jobs[j].dependents[k].job
  }

  lemma LinksAlwaysAscend(s: Sys, h: Hist)
    requires Shape(s, h)
    ensures LinksAscend(s)
  {
    forall j, k | 0 <= j < |s.jobs| && 0 <= k < |s.jobs[j].dependents| ensures j < s.jobs[j].dependents[k].job {
      var e := s.jobs[j].dependents[k];
      assert ShapeOfJob(s, h, j) && LinkedFrom(s, j, e) && ShapeOfJob(s, h, e.job);
    }
  }

  /** Thread `t` holds the mutex of its job and comes to the dependent whose mutex it takes or
      waits for next. */
  predicate ComesToDependent(s: Sys, t: nat) {
    && t < |s.threads| && s.threads[t].act.Finishing? && s.threads[t].act.job < |s.jobs|
    && s.threads[t].act.next < |s.jobs[s.threads[t].act.job].dependents|
  }

  /** The job whose mutex is taken, or waited for, inside that of the finishing job is a
      younger one. */
  lemma LocksAscend(trace: seq<Sys>, actions: seq<Action>, i: nat, t: nat)
    requires IsRun(trace, actions) && i < |trace| && ComesToDependent(trace[i], t)
    ensures var act := trace[i].threads[t].act;
            act.job < trace[i].jobs[act.job].dependents[act.next].job < |trace[i].jobs|
  {
    HistoryFits(trace, actions, i);
    NextIsYounger(trace[i], HistoryAt(trace, actions, i), t);
  }

  /** The dependent that a finishing thread comes to is younger than its job. */
  lemma NextIsYounger(s: Sys, h: Hist, t: nat)
    requires Inv(s, h) && ComesToDependent(s, t)
    ensures var d := s.threads[t].act.job;
            d < s.jobs[d].dependents[s.threads[t].act.next].job < |s.jobs|
  {
    var d := s.threads[t].act.job;
    LinksAlwaysAscend(s, h);
    assert ShapeOfJob(s, h, d) && LinkedFrom(s, d, s.jobs[d].dependents[s.threads[t].act.next]);
  }

  lemma {:induction false} PathsAscend(s: Sys, p: seq<nat>)
    requires LinksAscend(s) && IsPath(s, p)
    ensures p[0] < p[|p| - 1]
  {
    var n := |p| - 1;
    assert HasDependent(s, p[n - 1], p[n - 1 + 1]);
    if n == 1 {
    } else {
      PathsAscend(s, p[..n]);
    }
  }

  /** The dependency relation has no cycle. */
  lemma DependenciesAcyclic(trace: seq<Sys>, actions: seq<Action>, i: nat, p: seq<nat>)
    requires IsRun(trace, actions) && i < |trace| && IsPath(trace[i], p)
    ensures p[0] != p[|p| - 1]
  {
    HistoryFits(trace, actions, i);
    LinksAlwaysAscend(trace[i], HistoryAt(trace, actions, i));
    PathsAscend(trace[i], p);
  }

  predicate Finishes(s: Sys, t: nat) { t < |s.threads| && s.threads[t].act.Finishing? }

  /** The thread that holds the mutex of the youngest job can go on. */
  lemma YoungestCanGoOn(s: Sys, h: Hist, u: nat)
    requires Inv(s, h) && Finishes(s, u)
    requires forall v :: 0 <= v < |s.threads| && Finishes(s, v) ==> s.threads[v].act.job <= s.threads[u].act.job
    ensures s.threads[u].act.job < |s.jobs|
    ensures s.threads[u].act.next <= |s.jobs[s.threads[u].act.job].dependents|
    ensures if s.threads[u].act.next < |s.jobs[s.threads[u].act.job].dependents| then FinishNext(s, u).Some?
            else FinishEnd(s, u).Some?
  {
    assert ThreadInStep(s, h, u);
    var d := s.threads[u].act.job;
    if s.threads[u].act.next < |s.jobs[d].dependents| {
      var e := s.jobs[d].dependents[s.threads[u].act.next];
      assert ShapeOfJob(s, h, d) && LinkedFrom(s, d, e) && ShapeOfJob(s, h, e.job);
      assert Unlocked(s, e.job);
    }
  }

  /** Among the threads that hold a job's mutex there is always one that can go on. */
  lemma SomeFinisherGoesOn(trace: seq<Sys>, actions: seq<Action>, i: nat, t: nat)
    requires IsRun(trace, actions) && i < |trace| && Finishes(trace[i], t)
    ensures exists u :: Finishes(trace[i], u) && (FinishNext(trace[i], u).Some? || FinishEnd(trace[i], u).Some?)
  {
    HistoryFits(trace, actions, i);
    var u := YoungestFinisher(trace[i], t, |trace[i].threads|);
    YoungestCanGoOn(trace[i], HistoryAt(trace, actions, i), u);
  }

  lemma {:induction false} YoungestFinisher(s: Sys, t: nat, n: nat) returns (u: nat)
    requires Finishes(s, t) && n <= |s.threads|
    ensures Finishes(s, u) && s.threads[t].act.job <= s.threads[u].act.job
    ensures forall v :: 0 <= v < n && Finishes(s, v) ==> s.threads[v].act.job <= s.threads[u].act.job
  {
    if n == 0 {
      u := t;
    } else {
      u := YoungestFinisher(s, t, n - 1);
      if Finishes(s, n - 1) && s.threads[u].act.job < s.threads[n - 1].act.job { u := n - 1; }
    }
  }

  // ----- Parked launches

  /** A launch is parked only for a job that is invalidated, destroyed or unloaded. */
  predicate Dead(s: Sys, j: nat)
    requires j < |s.jobs|
  {
    s.jobs[j].invalidated || s.jobs[j].destroyed || s.jobs[j].plugin in s.unloaded
  }

  ghost predicate ParkedForReason(s: Sys, h: Hist) {
    |h| == |s.jobs| && forall j :: 0 <= j < |s.jobs| && h[j].holder == Parked ==> Dead(s, j)
  }

  /** Nothing brings a dead job back. */
  lemma DeadStaysDead(s: Sys, a: Action, j: nat)
    requires Step(s, a).Some? && j < |s.jobs| && Dead(s, j)
    ensures j < |Step(s, a).value.jobs| && Dead(Step(s, a).value, j)
  {
    if a.ACreateLink? { assert s.creating.value.job < |s.jobs|; }
  }

  /** Only an early return parks. */
  lemma OnlyChecksPark(s: Sys, h: Hist, a: Action, j: nat)
    requires |h| == |s.jobs| && Step(s, a).Some? && j < |Follow(s, h, a)| && Follow(s, h, a)[j].holder == Parked
    ensures j < |h| && (h[j].holder == Parked || (a.ACheck? && Parks(s, a.t) && s.threads[a.t].act.job == j))
  {
  }

  lemma StepKeepsReason(s: Sys, h: Hist, a: Action, s': Sys, h': Hist)
    requires Inv(s, h) && Admissible(s, a) && ParkedForReason(s, h) && Step(s, a) == Some(s') && h' == Follow(s, h, a)
    ensures ParkedForReason(s', h')
  {
    assert |h'| == |s'.jobs| by { StepKeepsInv(s, h, a); }
    forall j | 0 <= j < |s'.jobs| && h'[j].holder == Parked ensures Dead(s', j) {
      OnlyChecksPark(s, h, a, j);
      DeadStaysDead(s, a, j);
    }
  }

  lemma RunParksForReason(trace: seq<Sys>, actions: seq<Action>, i: nat)
    requires IsRun(trace, actions) && i < |trace|
    ensures ParkedForReason(trace[i], HistoryAt(trace, actions, i))
  {
    var holds := (s, h) => ParkedForReason(s, h);
    forall s, h, a | holds(s, h) && Inv(s, h) && Admissible(s, a) && Step(s, a).Some?
      ensures holds(Step(s, a).value, Follow(s, h, a))
    {
      StepKeepsReason(s, h, a, Step(s, a).value, Follow(s, h, a));
    }
    FromThenOn(trace, actions, holds, 0, i);
  }

  // ----- Progress

  ghost predicate AtRest(s: Sys) {
    s.creating.None? && forall t :: 0 <= t < |s.threads| ==> s.threads[t].act == Idle
  }

  predicate IsQueued(s: Sys, q: nat, k: nat) {
    q < |s.queues| && k < |s.queues[q]| && s.queues[q][k].job < |s.jobs|
  }

  /** Some queued launch only waits for its time. */
  ghost predicate SomeLaunchIsFree(s: Sys) {
    exists q: nat, k: nat :: IsQueued(s, q, k) && s.jobs[s.queues[q][k].job].usage == 0
  }

  /** Some job has been told by some but not all of its dependencies. */
  ghost predicate SomeJobIsPartlyTriggered(s: Sys) {
    exists j :: 0 <= j < |s.jobs| && s.jobs[j].dependencies != [] && 0 < s.jobs[j].countdown < |s.jobs[j].dependencies|
  }

  lemma {:induction false} CountFreshPositive(edges: seq<Edge>, i: nat)
    requires i < |edges| && edges[i] == Fresh
    ensures CountFresh(edges) > 0
  {
    if i == |edges| - 1 {
    } else {
      CountFreshPositive(edges[..|edges| - 1], i);
    }
  }

  /** At rest a usage above zero comes from a dependent with a busy edge. */
  lemma SomeEdgeIsBusy(s: Sys, h: Hist, j: nat) returns (e: Dependent)
    requires Inv(s, h) && AtRest(s) && j < |s.jobs| && h[j].holder != Parked && s.jobs[j].usage != 0
    ensures LinkedFrom(s, j, e) && j < e.job && EdgeOf(h, e) != Unused
  {
    assert CountsOfJob(s, h, j) && StageOfJob(s, h, j) && ShapeOfJob(s, h, j);
    CountBusyZero(h, s.jobs[j].dependents);
    var p :| 0 <= p < |s.jobs[j].dependents| && EdgeOf(h, s.jobs[j].dependents[p]) != Unused;
    e := s.jobs[j].dependents[p];
    assert LinkedFrom(s, j, e) && ShapeOfJob(s, h, e.job);
  }

  /** ... and a consumed edge belongs to a job that is queued. */
  lemma ConsumerIsQueued(s: Sys, h: Hist, e: Dependent)
    requires Inv(s, h) && AtRest(s) && e.job < |s.jobs| && h[e.job].holder != Parked && EdgeOf(h, e) == Consumed
    ensures s.jobs[e.job].dependencies != [] && h[e.job].stage == Queued
  {
    assert StageOfJob(s, h, e.job) && ShapeOfJob(s, h, e.job);
  }

  lemma FreshIsPartlyTriggered(s: Sys, h: Hist, e: Dependent)
    requires Inv(s, h) && e.job < |s.jobs| && EdgeOf(h, e) == Fresh
    ensures SomeJobIsPartlyTriggered(s)
  {
    assert CountsOfJob(s, h, e.job) && ShapeOfJob(s, h, e.job);
    CountFreshPositive(h[e.job].edges, e.slot);
  }

  /** The heart of progress: from a queued launch, follow consumed edges to younger jobs. */
  lemma {:induction false} FollowConsumedEdges(s: Sys, h: Hist, q: nat, k: nat)
    requires Inv(s, h) && AtRest(s) && IsQueued(s, q, k)
    requires forall j :: 0 <= j < |s.jobs| ==> h[j].holder != Parked
    ensures SomeLaunchIsFree(s) || SomeJobIsPartlyTriggered(s)
    decreases |s.jobs| - s.queues[q][k].job
  {
    var j := s.queues[q][k].job;
    if s.jobs[j].usage != 0 {
      var e := SomeEdgeIsBusy(s, h, j);
      if EdgeOf(h, e) == Fresh {
        FreshIsPartlyTriggered(s, h, e);
      } else {
        ConsumerIsQueued(s, h, e);
        var r := QueuedSomewhere(s, h, e.job);
        FollowConsumedEdges(s, h, s.jobs[e.job].queue.value, r);
      }
    }
  }

  lemma QueuedSomewhere(s: Sys, h: Hist, j: nat) returns (k: nat)
    requires Inv(s, h) && j < |s.jobs| && s.jobs[j].dependencies != [] && h[j].stage == Queued
    ensures s.jobs[j].queue.Some? && IsQueued(s, s.jobs[j].queue.value, k)
    ensures s.queues[s.jobs[j].queue.value][k].job == j
  {
    assert ShapeOfJob(s, h, j);
    var q := s.jobs[j].queue.value;
    if forall i :: 0 <= i < |s.queues[q]| ==> s.queues[q][i].job != j { CountOfAbsent(s.queues[q], j); }
    k :| 0 <= k < |s.queues[q]| && s.queues[q][k].job == j;
  }

  /** When no thread is inside a launch, no job is being created and no job is parked, a
      queued launch means that some launch can be pulled as soon as it is due or that some
      job waits for the rest of its dependencies. */
  lemma QueuedOrPartlyTriggered(trace: seq<Sys>, actions: seq<Action>, i: nat, q: nat, k: nat)
    requires IsRun(trace, actions) && i < |trace| && AtRest(trace[i]) && IsQueued(trace[i], q, k)
    requires forall j :: 0 <= j < |trace[i].jobs| ==> HistoryAt(trace, actions, i)[j].holder != Parked
    ensures SomeLaunchIsFree(trace[i]) || SomeJobIsPartlyTriggered(trace[i])
  {
    HistoryFits(trace, actions, i);
    var s, h := trace[i], HistoryAt(trace, actions, i);
    assert forall j :: 0 <= j < |s.jobs| ==> h[j].holder != Parked;
    FollowConsumedEdges(s, h, q, k);
  }

  // ----- Where the source goes wrong: launches for a thread that does not exist yet

  /** A planned launch is pushed to a thread that does not exist exactly when it is for a
      long job whose creation is not finished: the links come before the thread. */
  lemma MissingQueueIff(trace: seq<Sys>, actions: seq<Action>, i: nat, t: nat)
    requires IsRun(trace, actions) && i < |trace| && t < |trace[i].threads| && trace[i].threads[t].act.Pushing?
    ensures var s := trace[i];
            var plans := s.threads[t].act.planned;
            && plans != []
            && (PushesToMissingQueue(s, t) <==>
                  s.creating.Some? && s.creating.value.job == plans[0].job && s.creating.value.long)
  {
    HistoryFits(trace, actions, i);
    var s, h := trace[i], HistoryAt(trace, actions, i);
    assert ThreadInStep(s, h, t);
    assert PlanInStep(s, h, t, s.threads[t].act.Plans()[0].job);
    assert ShapeOfJob(s, h, s.threads[t].act.planned[0].job);
  }

  // states of the examples are compared part by part

  predicate SameJob(e: JobEntry, f: JobEntry) {
    && e.dependencies == f.dependencies && e.dependents == f.dependents
    && e == f.(dependencies := e.dependencies, dependents := e.dependents)
  }

  predicate SameAct(a: Activity, b: Activity) {
    if a.Finishing? && b.Finishing? then a.job == b.job && a.next == b.next && a.planned == b.planned
    else if a.Pushing? && b.Pushing? then a.job == b.job && a.planned == b.planned
    else a == b
  }

  ghost predicate Alike(s: Sys, r: Sys) {
    && |s.jobs| == |r.jobs| && (forall j :: 0 <= j < |s.jobs| ==> SameJob(s.jobs[j], r.jobs[j]))
    && s.handles == r.handles && |s.queues| == |r.queues| == 1 && s.queues[0] == r.queues[0]
    && |s.threads| == |r.threads| == 1 && s.threads[0].queue == r.threads[0].queue
    && SameAct(s.threads[0].act, r.threads[0].act)
    && s.creating == r.creating && s.unloaded == r.unloaded && s.now == r.now
  }

  lemma AlikeIsEqual(s: Sys, r: Sys)
    requires Alike(s, r)
    ensures s == r
  {
    assert s.jobs == r.jobs by { assert forall j :: 0 <= j < |s.jobs| ==> SameJob(s.jobs[j], r.jobs[j]); }
    assert s.queues == r.queues && s.threads == r.threads;
  }

  /** One more action of an execution. */
  lemma Extend(trace: seq<Sys>, actions: seq<Action>, a: Action, s: Sys)
    returns (trace': seq<Sys>, actions': seq<Action>)
    requires IsExecution(trace, actions)
    requires Step(trace[|actions|], a).Some? && Alike(Step(trace[|actions|], a).value, s)
    ensures IsExecution(trace', actions') && actions' == actions + [a] && trace' == trace + [s]
  {
    AlikeIsEqual(Step(trace[|actions|], a).value, s);
    trace', actions' := trace + [s], actions + [a];
    forall i | 0 <= i < |actions'| ensures Taken(trace', actions', i) {
      if i < |actions| { assert Taken(trace, actions, i); }
    }
  }

  // entries and states of the examples: job 0 has no dependencies, job 1 depends on it

  function Entry(deps: seq<nat>, countdown: int, dependents: seq<Dependent>, usage: int): JobEntry {
    JobEntry(deps, countdown, dependents, usage, false, 0, Some(0), false, false, false)
  }

  function OneThread(jobs: seq<JobEntry>, handles: seq<nat>, queue: seq<Launch>, act: Activity,
        creating: Option<Creation>): Sys {
    Sys(jobs, handles, [queue], [Thread(0, act)], creating, {}, 0)
  }

  const PLAIN := JobRequest(None, false, 0, false)
  const L0 := Launch(0, 0)
  const L1 := Launch(1, 0)

  lemma FirstJobCreated() returns (trace: seq<Sys>, actions: seq<Action>)
    ensures IsExecution(trace, actions) && actions == [ACreateBegin(PLAIN), ACreateEnd]
    ensures trace[2] == OneThread([Entry([], 0, [], 0)], [0], [], Idle, None)
  {
    var e := Entry([], 0, [], 0);
    trace, actions := [Start(1)], [];
    assert Alike(Start(1), OneThread([], [], [], Idle, None));
    AlikeIsEqual(Start(1), OneThread([], [], [], Idle, None));
    trace, actions := Extend(trace, actions, ACreateBegin(PLAIN),
        OneThread([e], [], [], Idle, Some(Creation(0, 0, false))));
    trace, actions := Extend(trace, actions, ACreateEnd, OneThread([e], [0], [], Idle, None));
  }

  lemma FirstJobScheduled() returns (trace: seq<Sys>, actions: seq<Action>)
    ensures IsExecution(trace, actions) && actions == [ACreateBegin(PLAIN), ACreateEnd, ASchedule(0, 0)]
    ensures trace[3] == OneThread([Entry([], 0, [], 0)], [0], [L0], Idle, None)
  {
    trace, actions := FirstJobCreated();
    trace, actions := Extend(trace, actions, ASchedule(0, 0), OneThread([Entry([], 0, [], 0)], [0], [L0], Idle, None));
  }

  /** The creation of job 1 begins and links its first dependency. */
  lemma SecondJobLinked(trace: seq<Sys>, actions: seq<Action>, deps: seq<nat>, queue: seq<Launch>, long: bool)
    returns (trace': seq<Sys>, actions': seq<Action>)
    requires IsExecution(trace, actions) && trace[|actions|] == OneThread([Entry([], 0, [], 0)], [0], queue, Idle, None)
    requires deps == [0] || deps == [0, 0]
    ensures IsExecution(trace', actions') && |actions'| == |actions| + 2 && actions <= actions'
    ensures !actions'[|actions|].ADestroy? && !actions'[|actions| + 1].ADestroy?
    ensures var e := Entry(deps, |deps|, [], 0).(queue := if long then None else Some(0));
            trace'[|actions'|] == OneThread([Entry([], 0, [Dependent(1, 0)], 0), e], [0], queue, Idle,
                Some(Creation(1, 1, long)))
  {
    var d, e := Entry([], 0, [Dependent(1, 0)], 0),
        Entry(deps, |deps|, [], 0).(queue := if long then None else Some(0));
    trace', actions' := SecondJobBegun(trace, actions, deps, queue, long);
    trace', actions' := Extend(trace', actions', ACreateLink,
        OneThread([d, e], [0], queue, Idle, Some(Creation(1, 1, long))));
  }

  lemma SecondJobBegun(trace: seq<Sys>, actions: seq<Action>, deps: seq<nat>, queue: seq<Launch>, long: bool)
    returns (trace': seq<Sys>, actions': seq<Action>)
    requires IsExecution(trace, actions) && trace[|actions|] == OneThread([Entry([], 0, [], 0)], [0], queue, Idle, None)
    requires deps == [0] || deps == [0, 0]
    ensures IsExecution(trace', actions')
    ensures actions' == actions + [ACreateBegin(JobRequest(Some(deps), false, 0, long))]
    ensures var e := Entry(deps, |deps|, [], 0).(queue := if long then None else Some(0));
            trace'[|actions'|] == OneThread([Entry([], 0, [], 0), e], [0], queue, Idle, Some(Creation(1, 0, long)))
  {
    var e := Entry(deps, |deps|, [], 0).(queue := if long then None else Some(0));
    assert Resolved(trace[|actions|], deps).value == deps;
    trace', actions' := Extend(trace, actions, ACreateBegin(JobRequest(Some(deps), false, 0, long)),
                               OneThread([Entry([], 0, [], 0), e], [0], queue, Idle, Some(Creation(1, 0, long))));
  }

  /** A worker takes the only launch, runs nothing and is about to tell the dependents. */
  lemma WalkToFinishing(trace: seq<Sys>, actions: seq<Action>, jobs: seq<JobEntry>, handles: seq<nat>, j: nat,
        c: Option<Creation>)
    returns (trace': seq<Sys>, actions': seq<Action>)
    requires IsExecution(trace, actions) && trace[|actions|] == OneThread(jobs, handles, [Launch(j, 0)], Idle, c)
    requires j < |jobs| && jobs[j].usage == 0 && !jobs[j].hasFunction && !jobs[j].destroyed && !jobs[j].invalidated
    ensures IsExecution(trace', actions') && trace <= trace'
    ensures actions' == actions + [APull(0, 0), ACheck(0), ADispatch(0), AFinishBegin(0)]
    ensures var e := jobs[j];
            var after := e.(usage := 1 + |e.dependents|, destroyed := e.destructionPended);
            trace'[|actions'|] == OneThread(jobs[j := after], handles, [], Finishing(j, 0, []), c)
  {
    var e := jobs[j];
    var held := jobs[j := e.(usage := 1)];
    trace', actions' := WalkToCheck(trace, actions, jobs, handles, j, c);
    trace', actions' := WalkOn(trace', actions', held, handles, j, c);
    assert held[j := held[j].(usage := 1 + |e.dependents|, destroyed := e.destructionPended)] ==
           jobs[j := e.(usage := 1 + |e.dependents|, destroyed := e.destructionPended)];
  }

  lemma WalkToCheck(trace: seq<Sys>, actions: seq<Action>, jobs: seq<JobEntry>, handles: seq<nat>, j: nat,
        c: Option<Creation>)
    returns (trace': seq<Sys>, actions': seq<Action>)
    requires IsExecution(trace, actions) && trace[|actions|] == OneThread(jobs, handles, [Launch(j, 0)], Idle, c)
    requires j < |jobs| && jobs[j].usage == 0 && !jobs[j].destroyed && !jobs[j].invalidated
    ensures IsExecution(trace', actions') && trace <= trace' && actions' == actions + [APull(0, 0), ACheck(0)]
    ensures trace'[|actions'|] == OneThread(jobs[j := jobs[j].(usage := 1)], handles, [], Checked(j), c)
  {
    var held := jobs[j := jobs[j].(usage := 1)];
    trace', actions' := Extend(trace, actions, APull(0, 0), OneThread(held, handles, [], Pulled(j), c));
    trace', actions' := Extend(trace', actions', ACheck(0), OneThread(held, handles, [], Checked(j), c));
  }

  lemma WalkOn(trace: seq<Sys>, actions: seq<Action>, jobs: seq<JobEntry>, handles: seq<nat>, j: nat,
        c: Option<Creation>)
    returns (trace': seq<Sys>, actions': seq<Action>)
    requires IsExecution(trace, actions) && trace[|actions|] == OneThread(jobs, handles, [], Checked(j), c)
    requires j < |jobs| && jobs[j].usage == 1 && !jobs[j].hasFunction && !jobs[j].destroyed
    ensures IsExecution(trace', actions') && trace <= trace' && actions' == actions + [ADispatch(0), AFinishBegin(0)]
    ensures var e := jobs[j];
            var after := e.(usage := 1 + |e.dependents|, destroyed := e.destructionPended);
            trace'[|actions'|] == OneThread(jobs[j := after], handles, [], Finishing(j, 0, []), c)
  {
    var e := jobs[j];
    var skipped := jobs[j := e.(destroyed := e.destructionPended)];
    trace', actions' := Extend(trace, actions, ADispatch(0), OneThread(skipped, handles, [], Skipped(j), c));
    trace', actions' := Extend(trace', actions', AFinishBegin(0),
                               OneThread(jobs[j := e.(usage := 1 + |e.dependents|, destroyed := e.destructionPended)],
                                         handles, [], Finishing(j, 0, []), c));
  }

  /** Job 1 is being created, job 0 is its first dependency, and job 0 has been pulled. */
  lemma FirstFinishesDuringCreation(deps: seq<nat>, long: bool) returns (trace: seq<Sys>, actions: seq<Action>)
    requires deps == [0] || deps == [0, 0]
    ensures IsRun(trace, actions)
    ensures var e := Entry(deps, |deps|, [], 0).(queue := if long then None else Some(0));
            trace[|actions|] == OneThread([Entry([], 0, [Dependent(1, 0)], 2), e], [0], [], Finishing(0, 0, []),
                                          Some(Creation(1, 1, long)))
  {
    var d, e := Entry([], 0, [Dependent(1, 0)], 0),
        Entry(deps, |deps|, [], 0).(queue := if long then None else Some(0));
    trace, actions := FirstJobScheduled();
    trace, actions := SecondJobLinked(trace, actions, deps, [L0], long);
    trace, actions := WalkToFinishing(trace, actions, [d, e], [0], 0, Some(Creation(1, 1, long)));
    assert [d, e][0 := d.(usage := 2)] == [d.(usage := 2), e];
    assert forall i :: 0 <= i < |actions| ==> !actions[i].ADestroy?;
  }

  /** Such a state is reached: while a long job is being created its dependency finishes. */
  lemma LaunchForMissingThreadReached() returns (trace: seq<Sys>, actions: seq<Action>)
    ensures IsRun(trace, actions) && PushesToMissingQueue(trace[|actions|], 0)
  {
    trace, actions := LongJobTriggeredEarly();
    var d, e, c := [Dependent(1, 0)], Entry([0], 1, [], 0).(queue := None), Some(Creation(1, 1, true));
    trace, actions := Extend(trace, actions, AFinishEnd(0),
        OneThread([Entry([], 0, d, 1), e], [0], [], Pushing(0, [L1]), c));
  }

  lemma LongJobTriggeredEarly() returns (trace: seq<Sys>, actions: seq<Action>)
    ensures IsRun(trace, actions)
    ensures trace[|actions|] ==
            OneThread([Entry([], 0, [Dependent(1, 0)], 2), Entry([0], 1, [], 0).(queue := None)], [0], [],
                      Finishing(0, 1, [L1]), Some(Creation(1, 1, true)))
  {
    trace, actions := FirstFinishesDuringCreation([0], true);
    var d, e, c := [Dependent(1, 0)], Entry([0], 1, [], 0).(queue := None), Some(Creation(1, 1, true));
    trace, actions := Extend(trace, actions, AFinishNext(0),
        OneThread([Entry([], 0, d, 2), e], [0], [], Finishing(0, 1, [L1]), c));
  }
}
