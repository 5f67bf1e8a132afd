/** Every step of a worker thread keeps the invariant. */
module SchedulerWorkers {
  import opened Options
  import opened LaunchQueues
  import opened Scheduling
  import opened SchedulerInvariants
  import opened SchedulerProofs

  // ----- What worker steps leave alone

  /** Links, queues of jobs and slots of the history stay as they are. */
  ghost predicate SameFrame(s: Sys, s': Sys, h: Hist, h': Hist) {
    && |s'.jobs| == |s.jobs| == |h| == |h'| && s'.creating == s.creating && s'.handles == s.handles
    && |s'.queues| == |s.queues| && |s'.threads| == |s.threads|
    && (forall j :: 0 <= j < |s.jobs| ==> SameLinks(s.jobs[j], s'.jobs[j]))
    && (forall j :: 0 <= j < |s.jobs| ==> |h'[j].edges| == |h[j].edges| && h'[j].base == h[j].base)
    && (forall t :: 0 <= t < |s.threads| ==> s'.threads[t].queue == s.threads[t].queue)
  }

  predicate SameLinks(e: JobEntry, e': JobEntry) {
    && e'.dependencies == e.dependencies && e'.dependents == e.dependents && e'.queue == e.queue
    && e'.destructionPended == e.destructionPended
  }

  lemma FrameKeepsShape(s: Sys, s': Sys, h: Hist, h': Hist)
    requires Shape(s, h) && SameFrame(s, s', h, h')
    ensures Shape(s', h')
  {
    forall j | 0 <= j < |s.jobs| ensures ShapeOfJob(s', h', j) { FrameKeepsShapeOfJob(s, s', h, h', j); }
  }

  lemma FrameKeepsShapeOfJob(s: Sys, s': Sys, h: Hist, h': Hist, j: nat)
    requires Shape(s, h) && SameFrame(s, s', h, h') && j < |s.jobs|
    ensures ShapeOfJob(s, h, j) && ShapeOfJob(s', h', j) && Linked(s', j) == Linked(s, j)
  {
    assert ShapeOfJob(s, h, j) && SameLinks(s.jobs[j], s'.jobs[j]);
    forall k | 0 <= k < |s.jobs[j].dependents| ensures LinkedFrom(s', j, s.jobs[j].dependents[k]) {
      assert LinkedFrom(s, j, s.jobs[j].dependents[k]);
    }
  }

  /** No job starts or goes on telling its dependents, and none completes. */
  ghost predicate SameTelling(s: Sys, s': Sys, h: Hist, h': Hist)
    requires |s'.jobs| == |s.jobs| == |h| == |h'|
  {
    forall x :: 0 <= x < |s.jobs| ==>
      TellsNow(s', h', x) == TellsNow(s, h, x) && Told(s', h', x) == Told(s, h, x)
          && h'[x].completions == h[x].completions
  }

  /** ... then every edge has heard of the same completions. */
  lemma HeardUnchanged(s: Sys, s': Sys, h: Hist, h': Hist, j: nat)
    requires Shape(s, h) && SameFrame(s, s', h, h') && SameTelling(s, s', h, h') && j < |s.jobs|
    requires ShapeOfJob(s, h, j) && ShapeOfJob(s', h', j)
    ensures forall i :: 0 <= i < |h[j].edges| ==> Heard(s', h', j, i) == Heard(s, h, j, i)
  {
    forall i | 0 <= i < |h[j].edges| ensures Heard(s', h', j, i) == Heard(s, h, j, i) {
      var d := s.jobs[j].dependencies[i];
      assert SameLinks(s.jobs[d], s'.jobs[d]) && SameLinks(s.jobs[j], s'.jobs[j]);
      assert Told(s', h', d) == Told(s, h, d);
    }
  }

  /** ... and the books of a job whose edges and activations stay the same are kept. */
  lemma TellingKeepsHistory(s: Sys, s': Sys, h: Hist, h': Hist, j: nat)
    requires Shape(s, h) && SameFrame(s, s', h, h') && SameTelling(s, s', h, h') && j < |s.jobs|
    requires ShapeOfJob(s, h, j) && HistoryOfJob(s, h, j)
    requires h'[j].activations == h[j].activations
    requires forall i :: 0 <= i < |h[j].edges| ==> (h'[j].edges[i] == Fresh <==> h[j].edges[i] == Fresh)
    requires forall i :: 0 <= i < |h[j].edges| ==> h[j].edges[i] == Unused ==> h'[j].edges[i] == Unused
    requires h'[j].stage != h[j].stage ==>
      (h[j].stage.PlannedBy? && h'[j].stage == Queued) ||
      (h[j].stage == Queued && h'[j].stage == InHand && !TellsNow(s, h, j)) ||
      (h[j].stage.LeavingBy? && h'[j].stage == Dormant)
    ensures ShapeOfJob(s', h', j) && HistoryOfJob(s', h', j)
  {
    FrameKeepsShapeOfJob(s, s', h, h', j);
    HeardUnchanged(s, s', h, h', j);
    assert SameLinks(s.jobs[j], s'.jobs[j]);
  }

  lemma PlansKept(s: Sys, s': Sys, h: Hist, h': Hist, u: nat, plans: seq<Launch>)
    requires |s'.jobs| == |s.jobs| == |h| == |h'|
    requires forall j :: 0 <= j < |s.jobs| ==> s'.jobs[j].dependencies == s.jobs[j].dependencies
    requires forall p :: 0 <= p < |plans| ==> PlanInStep(s, h, u, plans[p].job)
    requires forall j :: 0 <= j < |s.jobs| && h[j].stage == PlannedBy(u) && h'[j].stage != PlannedBy(u) ==>
        !InPlans(plans, j)
    ensures forall p :: 0 <= p < |plans| ==> PlanInStep(s', h', u, plans[p].job)
  {
    forall p | 0 <= p < |plans| ensures PlanInStep(s', h', u, plans[p].job) {
      assert PlanInStep(s, h, u, plans[p].job);
      assert InPlans(plans, plans[p].job);
    }
  }

  // ----- Pulling a launch

  lemma {:induction false} CountOfPresent(q: seq<Launch>, k: nat)
    requires k < |q|
    ensures CountOf(q, q[k].job) > 0
  {
    if k == |q| - 1 {
    } else {
      CountOfPresent(q[..|q| - 1], k);
    }
  }

  /** A launch that can be pulled: its job is free and quiet, and queued if it is
      dependency-triggered. */
  lemma PulledJobIsIdle(s: Sys, h: Hist, t: nat, k: nat)
    requires Inv(s, h) && Pull(s, t, k).Some?
    ensures var j := s.queues[s.threads[t].queue][k].job;
            && h[j].holder == Free && !TellsNow(s, h, j)
            && (forall i :: 0 <= i < |s.jobs[j].dependents| ==> EdgeOf(h, s.jobs[j].dependents[i]) == Unused)
            && CountBusy(h, s.jobs[j].dependents) == 0
            && (s.jobs[j].dependencies != [] ==> h[j].stage == Queued)
  {
    var q := s.threads[t].queue;
    var j := s.queues[q][k].job;
    assert CountsOfJob(s, h, j) && ShapeOfJob(s, h, j);
    CountBusyZero(h, s.jobs[j].dependents);
    CountOfPresent(s.queues[q], k);
  }

  /** Nothing in the history names an idle thread. */
  lemma IdleThreadUnnamed(s: Sys, h: Hist, t: nat, j: nat)
    requires Inv(s, h) && t < |s.threads| && s.threads[t].act == Idle && j < |s.jobs|
    ensures h[j].holder != HeldBy(t) && h[j].stage != PlannedBy(t) && h[j].stage != LeavingBy(t)
  {
    assert StageOfJob(s, h, j);
  }

  lemma PullKeepsThread(s: Sys, h: Hist, t: nat, k: nat, u: nat)
    requires Inv(s, h) && Pull(s, t, k).Some? && u < |s.threads|
    ensures ThreadInStep(Pull(s, t, k).value, Follow(s, h, APull(t, k)), u)
  {
    PulledJobIsIdle(s, h, t, k);
    assert ThreadInStep(s, h, u);
    var s', h' := Pull(s, t, k).value, Follow(s, h, APull(t, k));
    PlansKept(s, s', h, h', u, s'.threads[u].act.Plans());
  }

  lemma PullKeepsStage(s: Sys, h: Hist, t: nat, k: nat, j: nat)
    requires Inv(s, h) && Pull(s, t, k).Some? && j < |s.jobs|
    ensures StageOfJob(Pull(s, t, k).value, Follow(s, h, APull(t, k)), j)
  {
    PulledJobIsIdle(s, h, t, k);
    IdleThreadUnnamed(s, h, t, j);
    assert StageOfJob(s, h, j);
  }

  lemma PullKeepsCounts(s: Sys, h: Hist, t: nat, k: nat, j: nat)
    requires Inv(s, h) && Pull(s, t, k).Some? && j < |s.jobs|
    ensures CountsOfJob(Pull(s, t, k).value, Follow(s, h, APull(t, k)), j)
  {
    var h' := Follow(s, h, APull(t, k));
    PulledJobIsIdle(s, h, t, k);
    IdleThreadUnnamed(s, h, t, j);
    assert CountsOfJob(s, h, j) && StageOfJob(s, h, j);
    CountBusySame(h, h', s.jobs[j].dependents);
  }

  lemma PullKeepsHistory(s: Sys, h: Hist, t: nat, k: nat, j: nat)
    requires Inv(s, h) && Pull(s, t, k).Some? && j < |s.jobs|
    ensures var s', h' := Pull(s, t, k).value, Follow(s, h, APull(t, k));
            ShapeOfJob(s', h', j) && HistoryOfJob(s', h', j)
  {
    var s', h' := Pull(s, t, k).value, Follow(s, h, APull(t, k));
    PulledJobIsIdle(s, h, t, k);
    assert ShapeOfJob(s, h, j) && HistoryOfJob(s, h, j) && StageOfJob(s, h, j);
    PullFrame(s, h, t, k);
    TellingKeepsHistory(s, s', h, h', j);
  }

  lemma PullFrame(s: Sys, h: Hist, t: nat, k: nat)
    requires Inv(s, h) && Pull(s, t, k).Some?
    ensures var s', h' := Pull(s, t, k).value, Follow(s, h, APull(t, k));
            SameFrame(s, s', h, h') && SameTelling(s, s', h, h')
  {
    var s', h' := Pull(s, t, k).value, Follow(s, h, APull(t, k));
    PulledJobIsIdle(s, h, t, k);
    forall x | 0 <= x < |s.jobs| ensures TellsNow(s', h', x) == TellsNow(s, h, x) && Told(s', h', x) == Told(s, h, x) {
      IdleThreadUnnamed(s, h, t, x);
    }
  }

  lemma PullKeepsQueues(s: Sys, h: Hist, t: nat, k: nat)
    requires Inv(s, h) && Pull(s, t, k).Some?
    ensures QueuesInStep(Pull(s, t, k).value, Follow(s, h, APull(t, k)))
  {
    var s', h' := Pull(s, t, k).value, Follow(s, h, APull(t, k));
    var q := s.threads[t].queue;
    PulledJobIsIdle(s, h, t, k);
    forall j | 0 <= j < |s.jobs| { CountOfWithoutAt(s.queues[q], k, j); }
    assert forall i :: 0 <= i < |s'.queues[q]| ==> s'.queues[q][i] in s.queues[q];
  }

  lemma PullKeepsInv(s: Sys, h: Hist, t: nat, k: nat)
    requires Inv(s, h) && Pull(s, t, k).Some?
    ensures Inv(Pull(s, t, k).value, Follow(s, h, APull(t, k)))
  {
    var s', h' := Pull(s, t, k).value, Follow(s, h, APull(t, k));
    PullFrame(s, h, t, k);
    FrameKeepsShape(s, s', h, h');
    PullKeepsQueues(s, h, t, k);
    forall u | 0 <= u < |s.threads| ensures ThreadInStep(s', h', u) { PullKeepsThread(s, h, t, k, u); }
    forall j | 0 <= j < |s.jobs|
      ensures StageOfJob(s', h', j) && CountsOfJob(s', h', j) && ShapeOfJob(s', h', j) && HistoryOfJob(s', h', j)
    {
      PullKeepsStage(s, h, t, k, j);
      PullKeepsCounts(s, h, t, k, j);
      PullKeepsHistory(s, h, t, k, j);
    }
  }

  /** A thread that the step leaves alone, and whose jobs' history keeps naming it. */
  lemma OtherThreadKept(s: Sys, s': Sys, h: Hist, h': Hist, u: nat)
    requires Shape(s, h) && SameFrame(s, s', h, h') && u < |s.threads|
    requires ThreadInStep(s, h, u) && s'.threads[u] == s.threads[u]
    requires forall x :: 0 <= x < |s.jobs| && h[x].holder == HeldBy(u) ==> h'[x].holder == HeldBy(u)
    requires forall x :: 0 <= x < |s.jobs| && h[x].stage == PlannedBy(u) ==> h'[x].stage == PlannedBy(u)
    requires forall x :: 0 <= x < |s.jobs| && h[x].stage == LeavingBy(u) ==> h'[x].stage == LeavingBy(u)
    ensures ThreadInStep(s', h', u)
  {
    var act := s.threads[u].act;
    if !act.Idle? { assert SameLinks(s.jobs[act.job], s'.jobs[act.job]); }
    assert forall j :: 0 <= j < |s.jobs| ==> SameLinks(s.jobs[j], s'.jobs[j]);
    PlansKept(s, s', h, h', u, act.Plans());
  }

  /** A holding thread that plans nothing is named by its own job only. */
  lemma HoldingThreadNamedOnce(s: Sys, h: Hist, t: nat, x: nat)
    requires Inv(s, h) && t < |s.threads| && x < |s.jobs|
    requires s.threads[t].act.Holding() && s.threads[t].act.Plans() == [] && x != s.threads[t].act.job
    ensures h[x].holder != HeldBy(t) && h[x].stage != PlannedBy(t) && h[x].stage != LeavingBy(t)
  {
    assert StageOfJob(s, h, x);
  }

  // ----- The early returns

  ghost predicate Parks(s: Sys, t: nat) {
    Check(s, t).Some? && Check(s, t).value.threads[t].act == Idle
  }

  lemma ParkFrame(s: Sys, h: Hist, t: nat)
    requires Inv(s, h) && Parks(s, t)
    ensures var s', h', j := Check(s, t).value, Follow(s, h, ACheck(t)), s.threads[t].act.job;
            && SameFrame(s, s', h, h') && SameTelling(s, s', h, h')
            && h[j].holder == HeldBy(t) && !TellsNow(s, h, j) && h' == h[j := h[j].(holder := Parked)]
  {
    var s', h', j := Check(s, t).value, Follow(s, h, ACheck(t)), s.threads[t].act.job;
    assert ThreadInStep(s, h, t);
    forall x | 0 <= x < |s.jobs| ensures TellsNow(s', h', x) == TellsNow(s, h, x) && Told(s', h', x) == Told(s, h, x) {
      if x != j { HoldingThreadNamedOnce(s, h, t, x); }
    }
  }

  lemma ParkKeepsJob(s: Sys, h: Hist, t: nat, j: nat)
    requires Inv(s, h) && Parks(s, t) && j < |s.jobs|
    ensures var s', h' := Check(s, t).value, Follow(s, h, ACheck(t));
            StageOfJob(s', h', j) && CountsOfJob(s', h', j)
  {
    var s', h' := Check(s, t).value, Follow(s, h, ACheck(t));
    ParkFrame(s, h, t);
    assert StageOfJob(s, h, j) && CountsOfJob(s, h, j);
    if j != s.threads[t].act.job { HoldingThreadNamedOnce(s, h, t, j); }
    CountBusySame(h, h', s.jobs[j].dependents);
  }

  lemma ParkKeepsInv(s: Sys, h: Hist, t: nat)
    requires Inv(s, h) && Parks(s, t)
    ensures Inv(Check(s, t).value, Follow(s, h, ACheck(t)))
  {
    var s', h' := Check(s, t).value, Follow(s, h, ACheck(t));
    ParkFrame(s, h, t);
    FrameKeepsShape(s, s', h, h');
    forall u | 0 <= u < |s.threads| ensures ThreadInStep(s', h', u) {
      assert ThreadInStep(s, h, u);
      if u != t { OtherThreadKept(s, s', h, h', u); }
    }
    forall j | 0 <= j < |s.jobs|
      ensures StageOfJob(s', h', j) && CountsOfJob(s', h', j) && ShapeOfJob(s', h', j) && HistoryOfJob(s', h', j)
    {
      ParkKeepsJob(s, h, t, j);
      assert ShapeOfJob(s, h, j) && HistoryOfJob(s, h, j);
      TellingKeepsHistory(s, s', h, h', j);
    }
  }

  // ----- Finishing: the usage of all dependents is taken

  lemma FinishBeginFrame(s: Sys, h: Hist, t: nat)
    requires Inv(s, h) && FinishBegin(s, t).Some?
    ensures var s', h', j := FinishBegin(s, t).value, Follow(s, h, AFinishBegin(t)), s.threads[t].act.job;
            && SameFrame(s, s', h, h') && h[j].holder == HeldBy(t) && !TellsNow(s, h, j)
            && TellsNow(s', h', j) && Told(s', h', j) == 0 && Told(s, h, j) == |s.jobs[j].dependents|
            && forall x :: 0 <= x < |s.jobs| && x != j ==>
                 TellsNow(s', h', x) == TellsNow(s, h, x) && Told(s', h', x) == Told(s, h, x) && h'[x] == h[x]
  {
    var s', h', j := FinishBegin(s, t).value, Follow(s, h, AFinishBegin(t)), s.threads[t].act.job;
    assert ThreadInStep(s, h, t);
    forall x | 0 <= x < |s.jobs| && x != j
      ensures TellsNow(s', h', x) == TellsNow(s, h, x) && Told(s', h', x) == Told(s, h, x)
    {
      HoldingThreadNamedOnce(s, h, t, x);
    }
  }

  lemma FinishBeginKeepsJob(s: Sys, h: Hist, t: nat, j: nat)
    requires Inv(s, h) && FinishBegin(s, t).Some? && j < |s.jobs|
    ensures var s', h' := FinishBegin(s, t).value, Follow(s, h, AFinishBegin(t));
            StageOfJob(s', h', j) && CountsOfJob(s', h', j)
  {
    var s', h' := FinishBegin(s, t).value, Follow(s, h, AFinishBegin(t));
    FinishBeginFrame(s, h, t);
    assert StageOfJob(s, h, j) && CountsOfJob(s, h, j);
    if j != s.threads[t].act.job { HoldingThreadNamedOnce(s, h, t, j); }
    CountBusySame(h, h', s.jobs[j].dependents);
  }

  lemma FinishBeginKeepsHistory(s: Sys, h: Hist, t: nat, j: nat)
    requires Inv(s, h) && FinishBegin(s, t).Some? && j < |s.jobs|
    ensures var s', h' := FinishBegin(s, t).value, Follow(s, h, AFinishBegin(t));
            ShapeOfJob(s', h', j) && HistoryOfJob(s', h', j)
  {
    var s', h', f := FinishBegin(s, t).value, Follow(s, h, AFinishBegin(t)), s.threads[t].act.job;
    FinishBeginFrame(s, h, t);
    assert ShapeOfJob(s, h, j) && HistoryOfJob(s, h, j) && StageOfJob(s, h, j);
    FrameKeepsShapeOfJob(s, s', h, h', j);
    forall i | 0 <= i < Linked(s, j) && i < |h[j].edges| ensures Heard(s', h', j, i) == Heard(s, h, j, i) {
      var d := s.jobs[j].dependencies[i];
      assert Dependent(j, i) in s.jobs[d].dependents;
      assert SameLinks(s.jobs[d], s'.jobs[d]) && SameLinks(s.jobs[j], s'.jobs[j]);
    }
  }

  lemma FinishBeginKeepsInv(s: Sys, h: Hist, t: nat)
    requires Inv(s, h) && FinishBegin(s, t).Some?
    ensures Inv(FinishBegin(s, t).value, Follow(s, h, AFinishBegin(t)))
  {
    var s', h' := FinishBegin(s, t).value, Follow(s, h, AFinishBegin(t));
    FinishBeginFrame(s, h, t);
    FrameKeepsShape(s, s', h, h');
    forall u | 0 <= u < |s.threads| ensures ThreadInStep(s', h', u) {
      assert ThreadInStep(s, h, u);
      if u != t { OtherThreadKept(s, s', h, h', u); }
    }
    forall j | 0 <= j < |s.jobs|
      ensures StageOfJob(s', h', j) && CountsOfJob(s', h', j) && ShapeOfJob(s', h', j) && HistoryOfJob(s', h', j)
    {
      FinishBeginKeepsJob(s, h, t, j);
      FinishBeginKeepsHistory(s, h, t, j);
    }
  }
}
