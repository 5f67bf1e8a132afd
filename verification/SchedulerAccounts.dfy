/** Where launches come from and where they go: none is lost, none is made up, and none is moved
    in time. */
module SchedulerAccounts {
  import opened Options
  import opened LaunchQueues
  import opened Scheduling
  import opened SchedulerInvariants
  import opened SchedulerTelling
  import opened SchedulerTheorems
  import opened SchedulerLaunches

  // ----- Counting launches

  predicate DueBy(l: Launch, j: nat, x: int) { l.job == j && l.timepoint <= x }

  /** The launches of job `j` for a time not after `x`. */
  function CountDue(q: seq<Launch>, j: nat, x: int): nat {
    if q == [] then 0 else CountDue(q[..|q| - 1], j, x) + if DueBy(q[|q| - 1], j, x) then 1 else 0
  }

  function CountAll(qs: seq<seq<Launch>>, j: nat, x: int): nat {
    if qs == [] then 0 else CountAll(qs[..|qs| - 1], j, x) + CountDue(qs[|qs| - 1], j, x)
  }

  function PlansOf(threads: seq<Thread>): (r: seq<seq<Launch>>)
    ensures |r| == |threads| && forall t :: 0 <= t < |r| ==> r[t] == threads[t].act.Plans()
  {
    seq(|threads|, t requires 0 <= t < |threads| => threads[t].act.Plans())
  }

  /** ... that are queued or planned. */
  function Waiting(s: Sys, j: nat, x: int): nat { CountAll(s.queues, j, x) + CountAll(PlansOf(s.threads), j, x) }

  lemma {:induction false} CountDueConcat(p: seq<Launch>, q: seq<Launch>, j: nat, x: int)
    ensures CountDue(p + q, j, x) == CountDue(p, j, x) + CountDue(q, j, x)
  {
    if q == [] {
      assert p + q == p;
    } else {
      var n := |q| - 1;
      CountDueConcat(p, q[..n], j, x);
      assert (p + q)[..|p + q| - 1] == p + q[..n];
    }
  }

  lemma CountDueOfOne(l: Launch, j: nat, x: int)
    ensures CountDue([l], j, x) == if DueBy(l, j, x) then 1 else 0
  {
    assert [l][..0] == [];
  }

  lemma CountDueInserted(p: seq<Launch>, l: Launch, q: seq<Launch>, j: nat, x: int)
    ensures CountDue(p + [l] + q, j, x) == CountDue(p + q, j, x) + if DueBy(l, j, x) then 1 else 0
  {
    CountDueConcat(p + [l], q, j, x);
    CountDueConcat(p, [l], j, x);
    CountDueConcat(p, q, j, x);
    CountDueOfOne(l, j, x);
  }

  lemma CountDueOfPushed(q: seq<Launch>, l: Launch, j: nat, x: int)
    ensures CountDue(Pushed(q, l), j, x) == CountDue(q, j, x) + if DueBy(l, j, x) then 1 else 0
  {
    var at := LowerBound(q, l.timepoint);
    CountDueInserted(q[..at], l, q[at..], j, x);
    assert q[..at] + q[at..] == q;
  }

  lemma CountDueWithout(q: seq<Launch>, k: nat, j: nat, x: int)
    requires k < |q|
    ensures CountDue(q, j, x) == CountDue(WithoutAt(q, k), j, x) + if DueBy(q[k], j, x) then 1 else 0
  {
    CountDueInserted(q[..k], q[k], q[k + 1..], j, x);
    assert q == q[..k] + [q[k]] + q[k + 1..];
  }

  lemma {:induction false} CountAllUpdate(qs: seq<seq<Launch>>, k: nat, q: seq<Launch>, j: nat, x: int)
    requires k < |qs|
    ensures CountAll(qs[k := q], j, x) == CountAll(qs, j, x) - CountDue(qs[k], j, x) + CountDue(q, j, x)
  {
    var n := |qs| - 1;
    if k == n {
      assert qs[k := q][..n] == qs[..n];
    } else {
      CountAllUpdate(qs[..n], k, q, j, x);
      assert qs[k := q][..n] == qs[..n][k := q];
    }
  }

  lemma CountAllOneMore(qs: seq<seq<Launch>>, j: nat, x: int)
    ensures CountAll(qs + [[]], j, x) == CountAll(qs, j, x)
  {
    assert (qs + [[]])[..|qs|] == qs;
  }

  // ----- What a step does to them

  datatype Event = Scheduling | Destroying | Triggering | Pulling

  /** The step brings in, or takes out, a launch of `j` for a time not after `x`: a call that
      schedules it succeeds, its destruction is asked for, its last dependency completes now,
      or it is pulled. */
  predicate Happens(event: Event, s: Sys, a: Action, j: nat, x: int) {
    match event
    case Scheduling =>
      && a.ASchedule? && Names(s, a.h, j) && j < |s.jobs| && s.jobs[j].dependencies == [] && !s.jobs[j].invalidated
      && a.timepoint <= x
    case Destroying => a.ADestroy? && Names(s, a.h, j) && j < |s.jobs| && 0 <= x
    case Triggering => TriggersJob(s, a, j) && s.now <= x
    case Pulling => a.APull? && Pulls(s, a, a.t, j) && s.queues[s.threads[a.t].queue][a.k].timepoint <= x
  }

  function One(event: Event, s: Sys, a: Action, j: nat, x: int): nat { if Happens(event, s, a, j, x) then 1 else 0 }

  predicate MovesLaunches(a: Action) {
    a.ACreateEnd? || a.AFinishNext? || a.APushNext? || a.APull? || a.ASchedule? || a.ADestroy?
  }

  lemma OtherStepsMoveNone(s: Sys, a: Action, j: nat, x: int)
    requires Step(s, a).Some? && !MovesLaunches(a)
    ensures Waiting(Step(s, a).value, j, x) == Waiting(s, j, x)
  {
    var s' := Step(s, a).value;
    QueuesAndPlansStay(s, a);
    assert PlansOf(s'.threads) == PlansOf(s.threads);
  }

  lemma QueuesAndPlansStay(s: Sys, a: Action)
    requires Step(s, a).Some? && !MovesLaunches(a)
    ensures var s' := Step(s, a).value;
            && s'.queues == s.queues && |s'.threads| == |s.threads|
            && forall t :: 0 <= t < |s.threads| ==> s'.threads[t].act.Plans() == s.threads[t].act.Plans()
  {
  }

  lemma NewQueueIsEmpty(s: Sys, j: nat, x: int)
    requires CreateEnd(s).Some?
    ensures Waiting(CreateEnd(s).value, j, x) == Waiting(s, j, x)
  {
    CountAllOneMore(s.queues, j, x);
    CountAllOneMore(PlansOf(s.threads), j, x);
    NewThreadPlansNothing(s);
  }

  lemma NewThreadPlansNothing(s: Sys)
    requires CreateEnd(s).Some?
    ensures var s', more := CreateEnd(s).value, if s.creating.value.long then [[]] else [];
            PlansOf(s'.threads) == PlansOf(s.threads) + more && s'.queues == s.queues + more
  {
  }

  /** The plan of thread `t` is the only one that changes. */
  lemma PlanChanges(s: Sys, s': Sys, t: nat, j: nat, x: int)
    requires t < |s.threads| && |s'.threads| == |s.threads|
    requires forall u :: 0 <= u < |s.threads| && u != t ==> s'.threads[u] == s.threads[u]
    ensures CountAll(PlansOf(s'.threads), j, x) ==
            CountAll(PlansOf(s.threads), j, x) - CountDue(s.threads[t].act.Plans(), j, x)
            + CountDue(s'.threads[t].act.Plans(), j, x)
  {
    CountAllUpdate(PlansOf(s.threads), t, s'.threads[t].act.Plans(), j, x);
    assert PlansOf(s'.threads) == PlansOf(s.threads)[t := s'.threads[t].act.Plans()];
  }

  /** A trigger plans one launch, for the time it happens. */
  lemma TriggerPlans(s: Sys, t: nat, j: nat, x: int)
    requires FinishNext(s, t).Some?
    ensures Waiting(FinishNext(s, t).value, j, x) == Waiting(s, j, x) + One(Triggering, s, AFinishNext(t), j, x)
  {
    var s' := FinishNext(s, t).value;
    PlanChanges(s, s', t, j, x);
    TriggerPlan(s, t);
    if Triggers(s, t) {
      var l := Launch(NextTold(s, t).job, s.now);
      CountDueConcat(s.threads[t].act.Plans(), [l], j, x);
      CountDueOfOne(l, j, x);
    }
  }

  lemma TriggerPlan(s: Sys, t: nat)
    requires FinishNext(s, t).Some?
    ensures var s' := FinishNext(s, t).value;
            && s'.queues == s.queues && |s'.threads| == |s.threads|
            && (forall u :: 0 <= u < |s.threads| && u != t ==> s'.threads[u] == s.threads[u])
            && s'.threads[t].act.Plans() ==
               s.threads[t].act.Plans() + if Triggers(s, t) then [Launch(NextTold(s, t).job, s.now)] else []
  {
  }

  lemma EnqueuedCounts(s: Sys, l: Launch, j: nat, x: int)
    requires Enqueued(s, l).Some?
    ensures Enqueued(s, l).value.threads == s.threads
    ensures CountAll(Enqueued(s, l).value.queues, j, x) ==
            CountAll(s.queues, j, x) + if DueBy(l, j, x) then 1 else 0
  {
    var q := s.jobs[l.job].queue.value;
    CountDueOfPushed(s.queues[q], l, j, x);
    CountAllUpdate(s.queues, q, Pushed(s.queues[q], l), j, x);
  }

  /** A push moves the first planned launch to the queue, unchanged. */
  lemma PushMoves(s: Sys, t: nat, j: nat, x: int)
    requires PushNext(s, t).Some?
    ensures Waiting(PushNext(s, t).value, j, x) == Waiting(s, j, x)
  {
    var s', plans := PushNext(s, t).value, s.threads[t].act.Plans();
    PlanChanges(s, s', t, j, x);
    EnqueuedCounts(s, plans[0], j, x);
    PushedPlan(s, t);
    CountDueConcat([plans[0]], plans[1..], j, x);
    CountDueOfOne(plans[0], j, x);
    assert plans == [plans[0]] + plans[1..];
  }

  lemma PushedPlan(s: Sys, t: nat)
    requires PushNext(s, t).Some?
    ensures s.threads[t].act.Plans() != [] && Enqueued(s, s.threads[t].act.Plans()[0]).Some?
    ensures PushNext(s, t).value.threads[t].act.Plans() == s.threads[t].act.Plans()[1..]
    ensures PushNext(s, t).value.queues == Enqueued(s, s.threads[t].act.Plans()[0]).value.queues
  {
  }

  /** A pull takes one launch out. */
  lemma PullTakes(s: Sys, t: nat, k: nat, j: nat, x: int)
    requires Pull(s, t, k).Some?
    ensures Waiting(s, j, x) == Waiting(Pull(s, t, k).value, j, x) + One(Pulling, s, APull(t, k), j, x)
  {
    var s', q := Pull(s, t, k).value, s.threads[t].queue;
    PlanChanges(s, s', t, j, x);
    CountDueWithout(s.queues[q], k, j, x);
    CountAllUpdate(s.queues, q, WithoutAt(s.queues[q], k), j, x);
  }

  lemma ScheduleBringsIn(s: Sys, h: nat, timepoint: int, j: nat, x: int)
    requires Schedule(s, h, timepoint).Some?
    ensures Waiting(Schedule(s, h, timepoint).value, j, x) ==
            Waiting(s, j, x) + One(Scheduling, s, ASchedule(h, timepoint), j, x)
  {
    if Schedule(s, h, timepoint).value != s {
      EnqueuedCounts(s, Launch(Named(s, h).value, timepoint), j, x);
    } else if Happens(Scheduling, s, ASchedule(h, timepoint), j, x) {
      EnqueuedCounts(s, Launch(j, timepoint), j, x);
    }
  }

  lemma DestroyBringsIn(s: Sys, h: nat, j: nat, x: int)
    requires Destroy(s, h).Some?
    ensures Waiting(Destroy(s, h).value, j, x) == Waiting(s, j, x) + One(Destroying, s, ADestroy(h), j, x)
  {
    if Named(s, h).Some? {
      var d := Named(s, h).value;
      EnqueuedCounts(SetJob(s, d, s.jobs[d].(destructionPended := true)), Launch(d, 0), j, x);
    }
  }

  /** What comes in and what goes out at one step, for every job and every time. */
  lemma StepBalances(s: Sys, a: Action, j: nat, x: int)
    requires Step(s, a).Some?
    ensures Waiting(Step(s, a).value, j, x) + One(Pulling, s, a, j, x) ==
            Waiting(s, j, x) + One(Scheduling, s, a, j, x) + One(Destroying, s, a, j, x) + One(Triggering, s, a, j, x)
  {
    match a {
      case ACreateEnd => NewQueueIsEmpty(s, j, x);
      case AFinishNext(t) => TriggerPlans(s, t, j, x);
      case APushNext(t) => PushMoves(s, t, j, x);
      case APull(t, k) => PullTakes(s, t, k, j, x);
      case ASchedule(h, timepoint) => ScheduleBringsIn(s, h, timepoint, j, x);
      case ADestroy(h) => DestroyBringsIn(s, h, j, x);
      case _ => OtherStepsMoveNone(s, a, j, x);
    }
  }

  // ----- Whole runs

  /** How often the event happened in the first `n` actions. */
  ghost function Tally(event: Event, trace: seq<Sys>, actions: seq<Action>, n: nat, j: nat, x: int): nat
    requires n <= |actions| && n <= |trace|
  {
    if n == 0 then 0
    else Tally(event, trace, actions, n - 1, j, x) + One(event, trace[n - 1], actions[n - 1], j, x)
  }

  /** Over every execution, for every job and every time: what was scheduled, triggered or asked
      to be destroyed has been pulled, or is queued or planned; each for the time it was for. */
  lemma {:induction false} LaunchesBalance(trace: seq<Sys>, actions: seq<Action>, n: nat, j: nat, x: int)
    requires IsExecution(trace, actions) && n < |trace|
    ensures Tally(Scheduling, trace, actions, n, j, x) + Tally(Destroying, trace, actions, n, j, x)
            + Tally(Triggering, trace, actions, n, j, x) ==
            Tally(Pulling, trace, actions, n, j, x) + Waiting(trace[n], j, x)
  {
    if n == 0 {
      NothingWaitsAtStart(trace[0], j, x);
    } else {
      LaunchesBalance(trace, actions, n - 1, j, x);
      assert Taken(trace, actions, n - 1);
      StepBalances(trace[n - 1], actions[n - 1], j, x);
    }
  }

  lemma NothingWaitsAtStart(s: Sys, j: nat, x: int)
    requires exists n: nat :: s == Start(n)
    ensures Waiting(s, j, x) == 0
  {
    NothingIn(s.queues, j, x);
    NothingIn(PlansOf(s.threads), j, x);
  }

  lemma {:induction false} NothingIn(qs: seq<seq<Launch>>, j: nat, x: int)
    requires forall q :: 0 <= q < |qs| ==> qs[q] == []
    ensures CountAll(qs, j, x) == 0
  {
    if qs == [] {
    } else {
      NothingIn(qs[..|qs| - 1], j, x);
    }
  }

  /** How often a launch of the job was pulled while the time was not after `x`. */
  ghost function PullsUpTo(trace: seq<Sys>, actions: seq<Action>, n: nat, j: nat, x: int): nat
    requires n <= |actions| && n <= |trace|
  {
    if n == 0 then 0
    else PullsUpTo(trace, actions, n - 1, j, x) +
         var s, a := trace[n - 1], actions[n - 1];
         if a.APull? && Pulls(s, a, a.t, j) && s.now <= x then 1 else 0
  }

  /** Nothing is pulled before its time. */
  lemma {:induction false} PulledWhenDue(trace: seq<Sys>, actions: seq<Action>, n: nat, j: nat, x: int)
    requires IsExecution(trace, actions) && n < |trace|
    ensures PullsUpTo(trace, actions, n, j, x) <= Tally(Pulling, trace, actions, n, j, x)
  {
    if n == 0 {
    } else {
      PulledWhenDue(trace, actions, n - 1, j, x);
      assert Taken(trace, actions, n - 1);
    }
  }

  lemma TriggeredDepends(s: Sys, h: Hist, a: Action, j: nat)
    requires Inv(s, h) && TriggersJob(s, a, j)
    ensures j < |s.jobs| && s.jobs[j].dependencies != []
  {
    ToldIsUnused(s, h, a.t);
  }

  lemma TriggeredInRun(trace: seq<Sys>, actions: seq<Action>, i: nat, j: nat)
    requires IsRun(trace, actions) && i < |actions|
    ensures Step(trace[i], actions[i]) == Some(trace[i + 1])
    ensures TriggersJob(trace[i], actions[i], j) ==> j < |trace[i].jobs| && trace[i].jobs[j].dependencies != []
  {
    HistoryGoesOn(trace, actions, i);
    if TriggersJob(trace[i], actions[i], j) {
      TriggeredDepends(trace[i], HistoryAt(trace, actions, i), actions[i], j);
    }
  }

  /** A job without dependencies is never triggered. */
  lemma {:induction false} OnlyDependentsAreTriggered(trace: seq<Sys>, actions: seq<Action>, n: nat, j: nat, x: int)
    requires IsRun(trace, actions) && n < |trace| && j < |trace[n].jobs| && trace[n].jobs[j].dependencies == []
    ensures Tally(Triggering, trace, actions, n, j, x) == 0
  {
    if n == 0 {
    } else {
      var s, a := trace[n - 1], actions[n - 1];
      TriggeredInRun(trace, actions, n - 1, j);
      if j < |s.jobs| {
        DependenciesStay(s, a, j);
        OnlyDependentsAreTriggered(trace, actions, n - 1, j, x);
      } else {
        UnbornIsNotTriggered(trace, actions, n - 1, j, x);
      }
    }
  }

  lemma {:induction false} UnbornIsNotTriggered(trace: seq<Sys>, actions: seq<Action>, n: nat, j: nat, x: int)
    requires IsRun(trace, actions) && n < |trace| && j >= |trace[n].jobs|
    ensures Tally(Triggering, trace, actions, n, j, x) == 0
  {
    if n == 0 {
    } else {
      var s, a := trace[n - 1], actions[n - 1];
      TriggeredInRun(trace, actions, n - 1, j);
      if j < |s.jobs| { DependenciesStay(s, a, j); }
      UnbornIsNotTriggered(trace, actions, n - 1, j, x);
    }
  }

  /** Up to a time `x` a job without dependencies is pulled at most as often as it was scheduled
      for a time not after `x` or asked to be destroyed. */
  lemma PullsAreAskedFor(trace: seq<Sys>, actions: seq<Action>, n: nat, j: nat, x: int)
    requires IsRun(trace, actions) && n < |trace| && j < |trace[n].jobs| && trace[n].jobs[j].dependencies == []
    ensures PullsUpTo(trace, actions, n, j, x) <=
            Tally(Scheduling, trace, actions, n, j, x) + Tally(Destroying, trace, actions, n, j, x)
  {
    PulledWhenDue(trace, actions, n, j, x);
    LaunchesBalance(trace, actions, n, j, x);
    OnlyDependentsAreTriggered(trace, actions, n, j, x);
  }
}
