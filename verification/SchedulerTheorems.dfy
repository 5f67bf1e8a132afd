/** What holds over every run of the scheduler. */
module SchedulerTheorems {
  import opened Options
  import opened LaunchQueues
  import opened Scheduling
  import opened SchedulerInvariants
  import opened SchedulerProofs
  import opened SchedulerWorkers
  import opened SchedulerFinish
  import opened SchedulerRelease
  import opened SchedulerTelling

  // ----- Every step, and every run

  /** Jobs with dependencies are not destroyed. */
  predicate Admissible(s: Sys, a: Action) {
    a.ADestroy? && Named(s, a.h).Some? ==> s.jobs[Named(s, a.h).value].dependencies == []
  }

  lemma DestroyKeepsInv(s: Sys, h: Hist, a: Action)
    requires Inv(s, h) && a.ADestroy? && Admissible(s, a) && Step(s, a).Some?
    ensures Inv(Step(s, a).value, h)
  {
    if Named(s, a.h).Some? {
      var j := Named(s, a.h).value;
      var s1 := SetJob(s, j, s.jobs[j].(destructionPended := true));
      FlagsKeepInv(s, s1, h);
      EnqueueKeepsInv(s1, h, Launch(j, 0));
    }
  }

  lemma DispatchKeepsInv(s: Sys, h: Hist, t: nat)
    requires Inv(s, h) && Dispatch(s, t).Some?
    ensures Inv(Dispatch(s, t).value, h)
  {
    var j := s.threads[t].act.job;
    if s.jobs[j].destructionPended {
      var s1 := SetJob(s, j, s.jobs[j].(destroyed := true));
      FlagsKeepInv(s, s1, h);
      MoveKeepsInv(s1, h, t, Skipped(j));
    } else {
      MoveKeepsInv(s, h, t, if s.jobs[j].hasFunction then Running(j) else Skipped(j));
    }
  }

  lemma CallKeepsInv(s: Sys, h: Hist, a: Action)
    requires Inv(s, h) && Step(s, a).Some?
    requires a.ACapability? || a.ASchedule? || a.AInvalidate? || a.AUnloadPlugin? || a.ATick?
    ensures Inv(Step(s, a).value, h)
  {
    var s' := Step(s, a).value;
    if a.ASchedule? {
      if s' != s { EnqueueKeepsInv(s, h, Launch(Named(s, a.h).value, a.timepoint)); }
    } else {
      FlagsKeepInv(s, s', h);
    }
  }

  /** Every step keeps the invariant. */
  lemma StepKeepsInv(s: Sys, h: Hist, a: Action)
    requires Inv(s, h) && Admissible(s, a) && Step(s, a).Some?
    ensures Inv(Step(s, a).value, Follow(s, h, a))
  {
    match a {
      case ACreateBegin(r) =>
        if RequestedDependencies(s, r).Some? { BeginKeepsInv(s, h, r, RequestedDependencies(s, r).value); }
      case ACreateLink => LinkKeepsInv(s, h);
      case ACreateEnd => EndKeepsInv(s, h);
      case ADestroy(_) => DestroyKeepsInv(s, h, a);
      case APull(t, k) => PullKeepsInv(s, h, t, k);
      case ACheck(t) =>
        if Parks(s, t) { ParkKeepsInv(s, h, t); } else { MoveKeepsInv(s, h, t, Checked(s.threads[t].act.job)); }
      case ADispatch(t) => DispatchKeepsInv(s, h, t);
      case AFinishBegin(t) => FinishBeginKeepsInv(s, h, t);
      case AFinishNext(t) => TellKeepsInv(s, h, t);
      case AFinishEnd(t) => FinishEndKeepsInv(s, h, t);
      case APushNext(t) => PushKeepsInv(s, h, t);
      case ARelease(t) => ReleaseKeepsInv(s, h, t);
      case _ => CallKeepsInv(s, h, a);
    }
  }

  /** Action `i` leads from its state to the next. */
  predicate Taken(trace: seq<Sys>, actions: seq<Action>, i: nat) {
    i < |actions| && i + 1 < |trace| && Step(trace[i], actions[i]) == Some(trace[i + 1])
  }

  /** Any interleaving of calls and worker steps from the start. */
  ghost predicate IsExecution(trace: seq<Sys>, actions: seq<Action>) {
    && |trace| == |actions| + 1
    && (exists n: nat :: trace[0] == Start(n))
    && forall i :: 0 <= i < |actions| ==> Taken(trace, actions, i)
  }

  /** A run: an execution whose calls are admissible. */
  ghost predicate IsRun(trace: seq<Sys>, actions: seq<Action>) {
    && IsExecution(trace, actions)
    && forall i :: 0 <= i < |actions| ==> Admissible(trace[i], actions[i])
  }

  /** The history has a record for every job. */
  lemma HistoryGrowsAlong(s: Sys, h: Hist, a: Action)
    requires |h| == |s.jobs| && Step(s, a).Some?
    ensures |Follow(s, h, a)| == |Step(s, a).value.jobs|
  {
  }

  /** The history after `i` actions of a run. */
  ghost function HistoryAt(trace: seq<Sys>, actions: seq<Action>, i: nat): (h: Hist)
    requires IsRun(trace, actions) && i < |trace|
    ensures |h| == |trace[i].jobs|
  {
    if i == 0 then []
    else
      assert Taken(trace, actions, i - 1);
      HistoryGrowsAlong(trace[i - 1], HistoryAt(trace, actions, i - 1), actions[i - 1]);
      Follow(trace[i - 1], HistoryAt(trace, actions, i - 1), actions[i - 1])
  }

  /** The invariant holds over every run. */
  lemma {:induction false} HistoryFits(trace: seq<Sys>, actions: seq<Action>, i: nat)
    requires IsRun(trace, actions) && i < |trace|
    ensures Inv(trace[i], HistoryAt(trace, actions, i))
  {
    if i == 0 {
      StartIsInOrder(trace[0]);
    } else {
      HistoryFits(trace, actions, i - 1);
      assert Taken(trace, actions, i - 1);
      StepKeepsInv(trace[i - 1], HistoryAt(trace, actions, i - 1), actions[i - 1]);
    }
  }

  lemma StartIsInOrder(s: Sys)
    requires exists n: nat :: s == Start(n)
    ensures Inv(s, [])
  {
  }

  lemma HistoryGoesOn(trace: seq<Sys>, actions: seq<Action>, n: nat)
    requires IsRun(trace, actions) && n + 1 < |trace|
    ensures Step(trace[n], actions[n]) == Some(trace[n + 1]) && Admissible(trace[n], actions[n])
    ensures Inv(trace[n], HistoryAt(trace, actions, n))
    ensures HistoryAt(trace, actions, n + 1) == Follow(trace[n], HistoryAt(trace, actions, n), actions[n])
  {
    assert Taken(trace, actions, n);
    HistoryFits(trace, actions, n);
  }

  ghost predicate KeptByEveryStep(holds: (Sys, Hist) -> bool) {
    forall s, h, a :: holds(s, h) && Inv(s, h) && Admissible(s, a) && Step(s, a).Some? ==>
      holds(Step(s, a).value, Follow(s, h, a))
  }

  lemma HoldsNext(trace: seq<Sys>, actions: seq<Action>, holds: (Sys, Hist) -> bool, n: nat)
    requires IsRun(trace, actions) && n + 1 < |trace| && holds(trace[n], HistoryAt(trace, actions, n))
    requires KeptByEveryStep(holds)
    ensures holds(trace[n + 1], HistoryAt(trace, actions, n + 1))
  {
    HistoryGoesOn(trace, actions, n);
  }

  /** Induction over the rest of a run. */
  lemma {:induction false} FromThenOn(trace: seq<Sys>, actions: seq<Action>, holds: (Sys, Hist) -> bool, i: nat, n: nat)
    requires IsRun(trace, actions) && i <= n < |trace| && holds(trace[i], HistoryAt(trace, actions, i))
    requires KeptByEveryStep(holds)
    ensures holds(trace[n], HistoryAt(trace, actions, n))
    decreases n
  {
    if i == n {
    } else {
      FromThenOn(trace, actions, holds, i, n - 1);
      HoldsNext(trace, actions, holds, n - 1);
    }
  }

  // ----- What a step leaves alone

  /** A job's dependencies never change. */
  lemma DependenciesStay(s: Sys, a: Action, j: nat)
    requires Step(s, a).Some? && j < |s.jobs|
    ensures j < |Step(s, a).value.jobs| && Step(s, a).value.jobs[j].dependencies == s.jobs[j].dependencies
  {
    if a.ACreateLink? { assert s.creating.value.job < |s.jobs|; }
  }

  lemma LinksStay(s: Sys, h: Hist, a: Action, j: nat)
    requires Shape(s, h) && Step(s, a).Some? && j < |Step(s, a).value.jobs|
    ensures var s' := Step(s, a).value;
            if j < |s.jobs| then
              s'.jobs[j].dependencies == s.jobs[j].dependencies &&
              Linked(s', j) == Linked(s, j) + if a.ACreateLink? && j == s.creating.value.job then 1 else 0
            else a.ACreateBegin? && Linked(s', j) == 0
  {
    if j < |s.jobs| { DependenciesStay(s, a, j); }
  }

  lemma BaseStays(s: Sys, h: Hist, a: Action, j: nat, i: nat)
    requires Shape(s, h) && Step(s, a).Some? && j < |h| && i < |h[j].base|
    requires a.ACreateLink? ==> j != s.creating.value.job || i != s.creating.value.next
    ensures var h' := Follow(s, h, a); j < |h'| && i < |h'[j].base| && h'[j].base[i] == h[j].base[i]
    ensures |Follow(s, h, a)[j].edges| == |h[j].edges|
  {
  }

  /** Completions grow by one for a job that begins to finish. */
  lemma CompletionsStay(s: Sys, h: Hist, a: Action, x: nat)
    requires Shape(s, h) && Step(s, a).Some? && x < |h|
    ensures var h' := Follow(s, h, a);
            x < |h'| && h'[x].completions == h[x].completions +
                                            if a.AFinishBegin? && s.threads[a.t].act.job == x then 1 else 0
  {
  }

  /** Edges change, and jobs are activated, only when a job finishes or releases. */
  lemma EdgesStay(s: Sys, h: Hist, a: Action, j: nat)
    requires |h| == |s.jobs| && Step(s, a).Some? && j < |h| && !a.AFinishNext? && !a.ARelease?
    ensures j < |Follow(s, h, a)| && Follow(s, h, a)[j].edges == h[j].edges
    ensures Follow(s, h, a)[j].activations == h[j].activations
  {
  }

  lemma TellingActivates(s: Sys, h: Hist, t: nat, j: nat)
    requires Inv(s, h) && FinishNext(s, t).Some? && j < |h|
    ensures var a := AFinishNext(t);
            var h' := Follow(s, h, a);
            j < |h'| && h'[j].activations == h[j].activations + if TriggersJob(s, a, j) then 1 else 0
  {
    ToldIsWaiting(s, h, t);
    NextIsTellStep(s, h, t);
  }

  lemma ReleasingActivatesNobody(s: Sys, h: Hist, t: nat, j: nat)
    requires Inv(s, h) && Release(s, t).Some? && j < |h|
    ensures var h' := Follow(s, h, ARelease(t)); j < |h'| && h'[j].activations == h[j].activations
  {
    ReleaseIsRelease(s, h, t);
  }

  /** A job is activated only by the step that triggers it. */
  lemma ActivationsStay(s: Sys, h: Hist, a: Action, j: nat)
    requires Inv(s, h) && Step(s, a).Some? && j < |h|
    ensures var h' := Follow(s, h, a);
            j < |h'| && h'[j].activations == h[j].activations + if TriggersJob(s, a, j) then 1 else 0
  {
    if a.AFinishNext? {
      TellingActivates(s, h, a.t, j);
    } else if a.ARelease? {
      ReleasingActivatesNobody(s, h, a.t, j);
    } else {
      EdgesStay(s, h, a, j);
    }
  }

  /** The action tells `j` of the last dependency it was waiting for. */
  predicate TriggersJob(s: Sys, a: Action, j: nat) {
    a.AFinishNext? && FinishNext(s, a.t).Some? && NextTold(s, a.t).job == j && Triggers(s, a.t)
  }

  // ----- The counters

  /** In every reachable state a job's usage is one for the launch that is held or parked,
      plus the dependents' edges that are not released, plus the dependents still to be
      told; a countdown is what is left of the dependencies. No counter drops below zero,
      and a countdown never rests at zero. */
  lemma CountersAreExact(trace: seq<Sys>, actions: seq<Action>, i: nat, j: nat)
    requires IsRun(trace, actions) && i < |trace| && j < |trace[i].jobs|
    ensures var s, h := trace[i], HistoryAt(trace, actions, i);
            var e := s.jobs[j];
            && |h| == |s.jobs|
            && e.usage == (if h[j].holder == Free then 0 else 1) + CountBusy(h, e.dependents) +
               (|e.dependents| - Told(s, h, j))
            && e.usage >= 0
            && (e.dependencies != [] ==>
                  e.countdown == |e.dependencies| - CountFresh(h[j].edges) && 0 < e.countdown <= |e.dependencies|)
  {
    HistoryFits(trace, actions, i);
    assert CountsOfJob(trace[i], HistoryAt(trace, actions, i), j);
  }

  // ----- Exclusion

  /** While a job runs, none of its dependents has been told or is unreleased. */
  lemma RunningJobIsQuiet(trace: seq<Sys>, actions: seq<Action>, i: nat, t: nat)
    requires IsRun(trace, actions) && i < |trace| && t < |trace[i].threads| && trace[i].threads[t].act.Running?
    ensures var s := trace[i];
            var a := s.threads[t].act.job;
            a < |s.jobs| && forall k :: 0 <= k < |s.jobs[a].dependents| ==>
                              EdgeOf(HistoryAt(trace, actions, i), s.jobs[a].dependents[k]) == Unused
  {
    HistoryFits(trace, actions, i);
    var s, h := trace[i], HistoryAt(trace, actions, i);
    assert ThreadInStep(s, h, t);
    assert CountsOfJob(s, h, s.threads[t].act.job);
  }

  /** No job's function runs on two threads at once, and none runs while a direct dependency
      of it runs. */
  lemma RunningJobsExclude(trace: seq<Sys>, actions: seq<Action>, i: nat, t: nat, u: nat)
    requires IsRun(trace, actions) && i < |trace| && t < |trace[i].threads| && u < |trace[i].threads| && t != u
    requires trace[i].threads[t].act.Running? && trace[i].threads[u].act.Running?
    ensures var s := trace[i];
            var a, b := s.threads[t].act.job, s.threads[u].act.job;
            a < |s.jobs| && b < |s.jobs| && a != b && a !in s.jobs[b].dependencies
  {
    HistoryFits(trace, actions, i);
    var s, h := trace[i], HistoryAt(trace, actions, i);
    var a, b := s.threads[t].act.job, s.threads[u].act.job;
    assert ThreadInStep(s, h, t) && ThreadInStep(s, h, u);
    HeldJobExcludesDependents(s, h, a, b);
  }

  lemma HeldJobExcludesDependents(s: Sys, h: Hist, a: nat, b: nat)
    requires Inv(s, h) && a < |s.jobs| && b < |s.jobs| && h[a].holder != Free && h[b].holder != Free
    requires !TellsNow(s, h, a)
    ensures a !in s.jobs[b].dependencies
  {
    var ds := s.jobs[a].dependents;
    assert StageOfJob(s, h, b) && CountsOfJob(s, h, a) && ShapeOfJob(s, h, b) && HistoryOfJob(s, h, b);
    forall k | 0 <= k < |s.jobs[b].dependencies| ensures s.jobs[b].dependencies[k] != a {
      assert h[b].edges[k] == Consumed;
      assert forall p :: 0 <= p < |ds| ==> EdgeOf(h, ds[p]) == Unused && ds[p] != Dependent(b, k);
    }
  }

  // ----- One activation at a time

  /** A place where an activation of a job can be outstanding. */
  datatype Place = InPlan(t: nat, p: nat) | InQueue(q: nat, k: nat) | AtThread(t: nat)

  predicate Outstanding(s: Sys, j: nat, at: Place) {
    match at
    case InPlan(t, p) => t < |s.threads| && p < |s.threads[t].act.Plans()| && s.threads[t].act.Plans()[p].job == j
    case InQueue(q, k) => q < |s.queues| && k < |s.queues[q]| && s.queues[q][k].job == j
    case AtThread(t) => t < |s.threads| && !s.threads[t].act.Idle? && s.threads[t].act.job == j
  }

  lemma {:induction false} CountOfTwo(q: seq<Launch>, k: nat, l: nat)
    requires k < l < |q| && q[k].job == q[l].job
    ensures CountOf(q, q[k].job) >= 2
  {
    if l == |q| - 1 { CountOfPresent(q[..|q| - 1], k); } else { CountOfTwo(q[..|q| - 1], k, l); }
  }

  /** A dependency-triggered job never has two outstanding activations. */
  lemma OneActivationAtATime(trace: seq<Sys>, actions: seq<Action>, i: nat, j: nat, at: Place, at': Place)
    requires IsRun(trace, actions) && i < |trace| && j < |trace[i].jobs| && trace[i].jobs[j].dependencies != []
    requires Outstanding(trace[i], j, at) && Outstanding(trace[i], j, at')
    ensures at == at'
  {
    HistoryFits(trace, actions, i);
    var s, h := trace[i], HistoryAt(trace, actions, i);
    PlaceFitsStage(s, h, j, at);
    PlaceFitsStage(s, h, j, at');
    if at.InQueue? && at'.InQueue? && at.k != at'.k {
      CountOfTwo(s.queues[at.q], if at.k < at'.k then at.k else at'.k, if at.k < at'.k then at'.k else at.k);
    }
    if at.InPlan? && at'.InPlan? { assert ThreadInStep(s, h, at.t); }
  }

  lemma PlaceFitsStage(s: Sys, h: Hist, j: nat, at: Place)
    requires Inv(s, h) && j < |s.jobs| && s.jobs[j].dependencies != [] && Outstanding(s, j, at)
    ensures at.InPlan? ==> h[j].stage == PlannedBy(at.t)
    ensures at.InQueue? ==> h[j].stage == Queued && s.jobs[j].queue == Some(at.q) && CountOf(s.queues[at.q], j) == 1
    ensures at.AtThread? ==> (h[j].stage == InHand && h[j].holder == HeldBy(at.t)) || h[j].stage == LeavingBy(at.t)
  {
    if at.InQueue? {
      CountOfPresent(s.queues[at.q], at.k);
    } else {
      assert ThreadInStep(s, h, at.t) && StageOfJob(s, h, j);
      if at.InPlan? { assert PlanInStep(s, h, at.t, s.threads[at.t].act.Plans()[at.p].job); }
    }
  }

  /** Once a job is triggered, every dependency has completed since the edge was made as often
      as the job has been activated, this activation included. */
  lemma ConsumedEdgeIsEven(s: Sys, h: Hist, j: nat, k: nat)
    requires Inv(s, h) && j < |s.jobs| && k < |s.jobs[j].dependencies| && k < Linked(s, j)
    requires k < |h[j].edges| && h[j].edges[k] == Consumed
    ensures k < |h[j].base| && s.jobs[j].dependencies[k] < |h|
    ensures h[s.jobs[j].dependencies[k]].completions - h[j].base[k] == h[j].activations
  {
    var d := s.jobs[j].dependencies[k];
    assert ShapeOfJob(s, h, j) && HistoryOfJob(s, h, j);
    assert Heard(s, h, j, k) == h[j].activations + if h[j].edges[k] == Fresh then 1 else 0;
    if Announced(s, h, d, Dependent(j, k)) { AnnouncedIsUnused(s, h, d, Dependent(j, k)); }
  }

  /** The step that triggers a job: every dependency has then completed since its edge was
      made exactly as often as the job has been triggered. */
  lemma TriggerFollowsEveryDependency(trace: seq<Sys>, actions: seq<Action>, i: nat, j: nat, k: nat)
    requires IsRun(trace, actions) && i < |actions| && TriggersJob(trace[i], actions[i], j)
    requires j < |trace[i].jobs| && k < |trace[i].jobs[j].dependencies|
    ensures var h, h' := HistoryAt(trace, actions, i), HistoryAt(trace, actions, i + 1);
            var d := trace[i].jobs[j].dependencies[k];
            && j < |h| && j < |h'| && d < |h'| && k < |h'[j].base| && k < Linked(trace[i], j)
            && h'[j].activations == h[j].activations + 1
            && h'[d].completions - h'[j].base[k] == h'[j].activations
  {
    HistoryGoesOn(trace, actions, i);
    HistoryFits(trace, actions, i + 1);
    TriggerIsEven(trace[i], HistoryAt(trace, actions, i), actions[i], j, k);
  }

  lemma TriggerIsEven(s: Sys, h: Hist, a: Action, j: nat, k: nat)
    requires Inv(s, h) && TriggersJob(s, a, j) && Inv(Step(s, a).value, Follow(s, h, a))
    requires j < |s.jobs| && k < |s.jobs[j].dependencies|
    ensures var h', d := Follow(s, h, a), s.jobs[j].dependencies[k];
            && j < |h| && j < |h'| && d < |h'| && k < |h'[j].base| && k < Linked(s, j)
            && h'[j].activations == h[j].activations + 1
            && h'[d].completions - h'[j].base[k] == h'[j].activations
  {
    ActivationsStay(s, h, a, j);
    TriggerConsumes(s, h, a, j);
    LinksStay(s, h, a, j);
    ConsumedEdgeIsEven(Step(s, a).value, Follow(s, h, a), j, k);
  }

  lemma TriggerConsumes(s: Sys, h: Hist, a: Action, j: nat)
    requires Inv(s, h) && TriggersJob(s, a, j)
    ensures j < |h| && |Follow(s, h, a)| == |h| && Linked(s, j) == |h[j].edges| == |s.jobs[j].dependencies|
    ensures Follow(s, h, a)[j].edges == AllConsumed(|h[j].edges|)
  {
    TriggerMeansAllFresh(s, h, a.t);
    NextIsTellStep(s, h, a.t);
    assert ShapeOfJob(s, h, j);
  }

  /** The same activations of `j`, and the same linked edge `k`. */
  ghost predicate SameRound(s: Sys, h: Hist, s': Sys, h': Hist, j: nat, k: nat) {
    && j < |s.jobs| == |h| && j < |s'.jobs| == |h'| && s'.jobs[j].dependencies == s.jobs[j].dependencies
    && k < Linked(s, j) && k < Linked(s', j) && k < |h[j].base| && k < |h'[j].base|
    && h'[j].base[k] == h[j].base[k] && h'[j].activations == h[j].activations
  }

  lemma QuietStep(s: Sys, h: Hist, a: Action, j: nat, k: nat)
    requires Inv(s, h) && Step(s, a).Some? && j < |s.jobs| && k < Linked(s, j) && k < |h[j].base|
    requires Inv(Step(s, a).value, Follow(s, h, a)) && !TriggersJob(s, a, j)
    ensures SameRound(s, h, Step(s, a).value, Follow(s, h, a), j, k)
  {
    ActivationsStay(s, h, a, j);
    LinksStay(s, h, a, j);
    BaseStays(s, h, a, j, k);
  }

  /** Between two moments without a trigger of `j` its activations stay the same, and so do the
      bases of the edges that were linked at the first. */
  lemma {:induction false} QuietBetween(trace: seq<Sys>, actions: seq<Action>, m: nat, n: nat, j: nat, k: nat)
    requires IsRun(trace, actions) && m <= n < |trace| && j < |trace[m].jobs| && k < Linked(trace[m], j)
    requires k < |trace[m].jobs[j].dependencies|
    requires forall p :: m <= p < n ==> !TriggersJob(trace[p], actions[p], j)
    ensures SameRound(trace[m], HistoryAt(trace, actions, m), trace[n], HistoryAt(trace, actions, n), j, k)
  {
    if m == n {
      HistoryFits(trace, actions, m);
      assert ShapeOfJob(trace[m], HistoryAt(trace, actions, m), j);
    } else {
      QuietBetween(trace, actions, m, n - 1, j, k);
      QuietAt(trace, actions, n - 1, j, k);
    }
  }

  lemma QuietAt(trace: seq<Sys>, actions: seq<Action>, n: nat, j: nat, k: nat)
    requires IsRun(trace, actions) && n + 1 < |trace| && !TriggersJob(trace[n], actions[n], j)
    requires j < |trace[n].jobs| && k < Linked(trace[n], j) && k < |HistoryAt(trace, actions, n)[j].base|
    ensures SameRound(trace[n], HistoryAt(trace, actions, n), trace[n + 1], HistoryAt(trace, actions, n + 1), j, k)
  {
    HistoryGoesOn(trace, actions, n);
    HistoryFits(trace, actions, n + 1);
    QuietStep(trace[n], HistoryAt(trace, actions, n), actions[n], j, k);
  }

  /** From one trigger of a job to the next, every dependency completes exactly once. */
  lemma OneCompletionPerRound(trace: seq<Sys>, actions: seq<Action>, m: nat, n: nat, j: nat, k: nat)
    requires IsRun(trace, actions) && m < n < |actions| && j < |trace[m].jobs| && k < |trace[m].jobs[j].dependencies|
    requires TriggersJob(trace[m], actions[m], j) && TriggersJob(trace[n], actions[n], j)
    requires forall p :: m < p < n ==> !TriggersJob(trace[p], actions[p], j)
    ensures var d := trace[m].jobs[j].dependencies[k];
            && d < |HistoryAt(trace, actions, m + 1)| && d < |HistoryAt(trace, actions, n + 1)|
            && HistoryAt(trace, actions, n + 1)[d].completions == HistoryAt(trace, actions, m + 1)[d].completions + 1
  {
    TriggerFollowsEveryDependency(trace, actions, m, j, k);
    HistoryGoesOn(trace, actions, m);
    LinksStay(trace[m], HistoryAt(trace, actions, m), actions[m], j);
    QuietBetween(trace, actions, m + 1, n, j, k);
    TriggerFollowsEveryDependency(trace, actions, n, j, k);
    HistoryGoesOn(trace, actions, n);
    BaseStays(trace[n], HistoryAt(trace, actions, n), actions[n], j, k);
  }

  // ----- Lock-step

  /** Since an edge was made, its dependency has completed as often as its dependent or
      once more. */
  lemma DependentsRunInLockStep(trace: seq<Sys>, actions: seq<Action>, i: nat, j: nat, k: nat)
    requires IsRun(trace, actions) && i < |trace| && j < |trace[i].jobs| && k < |trace[i].jobs[j].dependencies|
    requires k < Linked(trace[i], j)
    ensures var s, h := trace[i], HistoryAt(trace, actions, i);
            && |h| == |s.jobs| && k < |h[j].base| && s.jobs[j].dependencies[k] < |s.jobs|
            && 0 <= h[s.jobs[j].dependencies[k]].completions - h[j].base[k] - h[j].completions <= 1
  {
    HistoryFits(trace, actions, i);
    LinkedInLockStep(trace[i], HistoryAt(trace, actions, i), j, k);
  }

  lemma LinkedInLockStep(s: Sys, h: Hist, j: nat, k: nat)
    requires Inv(s, h) && j < |s.jobs| && k < |s.jobs[j].dependencies| && k < Linked(s, j)
    ensures k < |h[j].base| && s.jobs[j].dependencies[k] < |s.jobs|
    ensures 0 <= h[s.jobs[j].dependencies[k]].completions - h[j].base[k] - h[j].completions <= 1
  {
    var d := s.jobs[j].dependencies[k];
    assert ShapeOfJob(s, h, j) && HistoryOfJob(s, h, j) && StageOfJob(s, h, j);
    assert Heard(s, h, j, k) == h[j].activations + if h[j].edges[k] == Fresh then 1 else 0;
    if Announced(s, h, d, Dependent(j, k)) { AnnouncedIsUnused(s, h, d, Dependent(j, k)); }
  }

  lemma AnnouncedIsUnused(s: Sys, h: Hist, d: nat, e: Dependent)
    requires Inv(s, h) && d < |s.jobs| && Announced(s, h, d, e)
    ensures EdgeOf(h, e) == Unused
  {
    var ds, n := s.jobs[d].dependents, Told(s, h, d);
    assert CountsOfJob(s, h, d);
    var p :| 0 <= p < |ds[n..]| && ds[n..][p] == e;
    assert ds[n + p] == e;
  }

  /** Two dependencies of one job are never more than one round apart. */
  lemma DependenciesOneRoundApart(trace: seq<Sys>, actions: seq<Action>, i: nat, j: nat, k: nat, l: nat)
    requires IsRun(trace, actions) && i < |trace| && j < |trace[i].jobs|
    requires k < |trace[i].jobs[j].dependencies| && l < |trace[i].jobs[j].dependencies|
    requires k < Linked(trace[i], j) && l < Linked(trace[i], j)
    ensures var s, h := trace[i], HistoryAt(trace, actions, i);
            && |h| == |s.jobs| && k < |h[j].base| && l < |h[j].base|
            && s.jobs[j].dependencies[k] < |s.jobs| && s.jobs[j].dependencies[l] < |s.jobs|
            && var a := h[s.jobs[j].dependencies[k]].completions - h[j].base[k];
               var b := h[s.jobs[j].dependencies[l]].completions - h[j].base[l];
               -1 <= a - b <= 1
  {
    DependentsRunInLockStep(trace, actions, i, j, k);
    DependentsRunInLockStep(trace, actions, i, j, l);
  }
}
