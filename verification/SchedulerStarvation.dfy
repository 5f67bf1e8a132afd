/** Runs in which jobs come to wait for each other for ever: a dependency completes between
    the links of a job that is being created. */
module SchedulerStarvation {
  import opened Options
  import opened LaunchQueues
  import opened Scheduling
  import opened SchedulerInvariants
  import opened SchedulerProofs
  import opened SchedulerTheorems
  import opened SchedulerProgress
  import opened SchedulerWaits

  // ----- A dependency named twice

  /** Job `j` names job `d` twice, has been told of `d` over one edge only, and `d` is done
      telling. */
  ghost predicate Starved(s: Sys, h: Hist, d: nat, j: nat, i: nat, k: nat) {
    && IsEdge(s, h, d, j, i) && IsEdge(s, h, d, j, k) && i != k
    && h[j].edges[i] == Fresh && h[j].edges[k] == Unused && h[d].holder == Free
  }

  ghost predicate SomeTwinsStarve(s: Sys, h: Hist, d: nat, j: nat) {
    exists i: nat, k: nat :: Starved(s, h, d, j, i, k)
  }

  /** While `d` is not held and `j` is not releasing, the two starve exactly when `d` had
      completed in between the two links. */
  lemma TwinsStarveIff(s: Sys, h: Hist, d: nat, j: nat, i: nat, k: nat)
    requires Inv(s, h) && IsEdge(s, h, d, j, i) && IsEdge(s, h, d, j, k) && i != k
    requires i < Linked(s, j) && k < Linked(s, j) && h[d].holder == Free && !h[j].stage.LeavingBy?
    ensures i < |h[j].base| && k < |h[j].base|
    ensures Starved(s, h, d, j, i, k) || Starved(s, h, d, j, k, i) <==> h[j].base[i] != h[j].base[k]
  {
    assert ShapeOfJob(s, h, j) && HistoryOfJob(s, h, j) && StageOfJob(s, h, j) && CountsOfJob(s, h, d);
    assert Heard(s, h, j, i) == h[j].activations + if h[j].edges[i] == Fresh then 1 else 0;
    assert Heard(s, h, j, k) == h[j].activations + if h[j].edges[k] == Fresh then 1 else 0;
  }

  /** Starved twins are a stuck set. */
  lemma TwinsAreStuck(s: Sys, h: Hist, d: nat, j: nat, i: nat, k: nat)
    requires Inv(s, h) && Starved(s, h, d, j, i, k)
    ensures StuckSet(s, h, {d, j})
  {
    assert StageOfJob(s, h, j) && ShapeOfJob(s, h, j);
    assert h[j].edges != AllConsumed(|h[j].edges|) by { assert h[j].edges[k] != AllConsumed(|h[j].edges|)[k]; }
    assert h[j].holder == Free && KeptBusy(h, j, i) && AwaitsCompletion(s, h, j, d);
    assert Blocks(s, h, d, j) && Blocks(s, h, j, d);
    assert StuckIn(s, h, {d, j}, d) && StuckIn(s, h, {d, j}, j);
  }

  /** Such a state is reached: the dependency finishes between the two links. */
  lemma StarvationReached() returns (trace: seq<Sys>, actions: seq<Action>)
    ensures IsRun(trace, actions) && AtRest(trace[|actions|])
    ensures var h := HistoryAt(trace, actions, |actions|);
            SomeTwinsStarve(trace[|actions|], h, 0, 1) && StuckSet(trace[|actions|], h, {0, 1})
  {
    trace, actions := TwinsHalfTold();
    HistoryFits(trace, actions, |actions|);
    HalfToldTwins(trace[|actions|], HistoryAt(trace, actions, |actions|));
    var s, h := trace[|actions|], HistoryAt(trace, actions, |actions|);
    var i: nat, k: nat :| Starved(s, h, 0, 1, i, k);
    TwinsAreStuck(s, h, 0, 1, i, k);
  }

  lemma TwinsHalfTold() returns (trace: seq<Sys>, actions: seq<Action>)
    ensures IsRun(trace, actions)
    ensures trace[|actions|] ==
            OneThread([Entry([], 0, [Dependent(1, 0), Dependent(1, 1)], 1), Entry([0, 0], 1, [], 0)], [0, 1], [],
                Idle, None)
  {
    trace, actions := FirstTwinTold();
    var d2, f := [Dependent(1, 0), Dependent(1, 1)], Entry([0, 0], 1, [], 0);
    trace, actions := Extend(trace, actions, ACreateLink,
        OneThread([Entry([], 0, d2, 1), f], [0], [], Idle, Some(Creation(1, 2, false))));
    trace, actions := Extend(trace, actions, ACreateEnd, OneThread([Entry([], 0, d2, 1), f], [0, 1], [], Idle, None));
  }

  lemma FirstTwinTold() returns (trace: seq<Sys>, actions: seq<Action>)
    ensures IsRun(trace, actions)
    ensures trace[|actions|] ==
            OneThread([Entry([], 0, [Dependent(1, 0)], 1), Entry([0, 0], 1, [], 0)], [0], [], Idle,
                Some(Creation(1, 1, false)))
  {
    trace, actions := FirstTwinTelling();
    var d1, f, c1 := [Dependent(1, 0)], Entry([0, 0], 1, [], 0), Some(Creation(1, 1, false));
    trace, actions := Extend(trace, actions, AFinishEnd(0), OneThread([Entry([], 0, d1, 1), f], [0], [], Idle, c1));
  }

  lemma FirstTwinTelling() returns (trace: seq<Sys>, actions: seq<Action>)
    ensures IsRun(trace, actions)
    ensures trace[|actions|] ==
            OneThread([Entry([], 0, [Dependent(1, 0)], 2), Entry([0, 0], 1, [], 0)], [0], [],
                      Finishing(0, 1, []), Some(Creation(1, 1, false)))
  {
    trace, actions := FirstFinishesDuringCreation([0, 0], false);
    var d1, f, c1 := [Dependent(1, 0)], Entry([0, 0], 1, [], 0), Some(Creation(1, 1, false));
    trace, actions := Extend(trace, actions, AFinishNext(0),
        OneThread([Entry([], 0, d1, 2), f], [0], [], Finishing(0, 1, []), c1));
  }

  lemma HalfToldTwins(s: Sys, h: Hist)
    requires Inv(s, h)
    requires s == OneThread([Entry([], 0, [Dependent(1, 0), Dependent(1, 1)], 1), Entry([0, 0], 1, [], 0)], [0, 1],
        [], Idle, None)
    ensures SomeTwinsStarve(s, h, 0, 1)
  {
    assert IsEdge(s, h, 0, 1, 0) && IsEdge(s, h, 0, 1, 1) by { assert ShapeOfJob(s, h, 1); }
    assert ShapeOfJob(s, h, 1) && CountsOfJob(s, h, 1) && CountsOfJob(s, h, 0) && StageOfJob(s, h, 0);
    var a, b := h[1].edges[0], h[1].edges[1];
    assert h[1].edges == [a, b];
    assert [a, b][..1] == [a] && [a][..0] == [];
    assert CountFresh([a, b]) == CountFresh([a]) + if b == Fresh then 1 else 0;
    var ds := s.jobs[0].dependents;
    assert ds[..1] == [ds[0]] && [ds[0]][..0] == [];
    assert CountBusy(h, ds) == CountBusy(h, [ds[0]]) + if EdgeOf(h, ds[1]) != Unused then 1 else 0;
    if a == Fresh { assert Starved(s, h, 0, 1, 0, 1); } else { assert Starved(s, h, 0, 1, 1, 0); }
  }

  // ----- Distinct dependencies: job 0 alone, job 1 on it, job 2 on both

  function JobA(dependents: seq<Dependent>, usage: int): JobEntry { Entry([], 0, dependents, usage) }

  function JobB(dependents: seq<Dependent>, usage: int): JobEntry { Entry([0], 1, dependents, usage) }

  function JobJ(countdown: int): JobEntry { Entry([0, 1], countdown, [], 0) }

  const E10 := Dependent(1, 0)
  const E20 := Dependent(2, 0)
  const E21 := Dependent(2, 1)
  const HALF := Some(Creation(2, 1, false))

  /** Jobs 0 and 1 are there, and job 0 is scheduled. */
  lemma PairReady() returns (trace: seq<Sys>, actions: seq<Action>)
    ensures IsRun(trace, actions)
    ensures trace[|actions|] == OneThread([JobA([E10], 0), JobB([], 0)], [0, 1], [L0], Idle, None)
  {
    trace, actions := FirstJobCreated();
    trace, actions := SecondJobLinked(trace, actions, [0], [], false);
    trace, actions := Extend(trace, actions, ACreateEnd,
        OneThread([JobA([E10], 0), JobB([], 0)], [0, 1], [], Idle, None));
    trace, actions := Extend(trace, actions, ASchedule(0, 0),
        OneThread([JobA([E10], 0), JobB([], 0)], [0, 1], [L0], Idle, None));
  }

  /** Job 2 has been entered into the list of job 0, and not yet into that of job 1. */
  lemma ThirdHalfLinked() returns (trace: seq<Sys>, actions: seq<Action>)
    ensures IsRun(trace, actions)
    ensures trace[|actions|] == OneThread([JobA([E10, E20], 0), JobB([], 0), JobJ(2)], [0, 1], [L0], Idle, HALF)
  {
    trace, actions := ThirdBegun();
    trace, actions := Extend(trace, actions, ACreateLink,
                             OneThread([JobA([E10, E20], 0), JobB([], 0), JobJ(2)], [0, 1], [L0], Idle, HALF));
  }

  lemma ThirdBegun() returns (trace: seq<Sys>, actions: seq<Action>)
    ensures IsRun(trace, actions)
    ensures trace[|actions|] ==
            OneThread([JobA([E10], 0), JobB([], 0), JobJ(2)], [0, 1], [L0], Idle, Some(Creation(2, 0, false)))
  {
    trace, actions := PairReady();
    trace, actions := BeginThird(trace, actions);
  }

  const THIRD := JobRequest(Some([0, 1]), false, 0, false)

  lemma ThirdResolved(s: Sys)
    requires s.handles == [0, 1]
    ensures RequestedDependencies(s, THIRD) == Some([0, 1])
  {
    assert Resolved(s, [0, 1]).value == [0, 1];
  }

  lemma BeginThird(trace: seq<Sys>, actions: seq<Action>) returns (trace': seq<Sys>, actions': seq<Action>)
    requires IsRun(trace, actions)
    requires trace[|actions|] == OneThread([JobA([E10], 0), JobB([], 0)], [0, 1], [L0], Idle, None)
    ensures IsRun(trace', actions')
    ensures trace'[|actions'|] ==
            OneThread([JobA([E10], 0), JobB([], 0), JobJ(2)], [0, 1], [L0], Idle, Some(Creation(2, 0, false)))
  {
    ThirdResolved(trace[|actions|]);
    trace', actions' := Extend(trace, actions, ACreateBegin(THIRD),
                               OneThread([JobA([E10], 0), JobB([], 0), JobJ(2)], [0, 1], [L0], Idle,
                                   Some(Creation(2, 0, false))));
  }

  /** Job 0 runs and tells both of its dependents. */
  lemma FirstRuns() returns (trace: seq<Sys>, actions: seq<Action>)
    ensures IsRun(trace, actions)
    ensures trace[|actions|] == OneThread([JobA([E10, E20], 3), JobB([], 0), JobJ(2)], [0, 1], [],
        Finishing(0, 1, [L1]), HALF)
  {
    trace, actions := ThirdHalfLinked();
    var jobs := [JobA([E10, E20], 0), JobB([], 0), JobJ(2)];
    trace, actions := WalkToFinishing(trace, actions, jobs, [0, 1], 0, HALF);
    assert jobs[0 := jobs[0].(usage := 3)] == [JobA([E10, E20], 3), JobB([], 0), JobJ(2)];
    trace, actions := Extend(trace, actions, AFinishNext(0),
                             OneThread([JobA([E10, E20], 3), JobB([], 0), JobJ(2)], [0, 1], [],
                                 Finishing(0, 1, [L1]), HALF));
  }

  lemma FirstDone() returns (trace: seq<Sys>, actions: seq<Action>)
    ensures IsRun(trace, actions)
    ensures trace[|actions|] == OneThread([JobA([E10, E20], 2), JobB([], 0), JobJ(1)], [0, 1], [L1], Idle, HALF)
  {
    trace, actions := FirstRuns();
    trace, actions := Extend(trace, actions, AFinishNext(0),
                             OneThread([JobA([E10, E20], 3), JobB([], 0), JobJ(1)], [0, 1], [],
                                 Finishing(0, 2, [L1]), HALF));
    trace, actions := FirstDonePushing(trace, actions);
  }

  lemma FirstDonePushing(trace: seq<Sys>, actions: seq<Action>) returns (trace': seq<Sys>, actions': seq<Action>)
    requires IsRun(trace, actions)
    requires trace[|actions|] == OneThread([JobA([E10, E20], 3), JobB([], 0), JobJ(1)], [0, 1], [],
        Finishing(0, 2, [L1]), HALF)
    ensures IsRun(trace', actions')
    ensures trace'[|actions'|] == OneThread([JobA([E10, E20], 2), JobB([], 0), JobJ(1)], [0, 1], [L1], Idle, HALF)
  {
    trace', actions' := Extend(trace, actions, AFinishEnd(0),
                               OneThread([JobA([E10, E20], 2), JobB([], 0), JobJ(1)], [0, 1], [], Pushing(0, [L1]),
                                   HALF));
    trace', actions' := FirstPushes(trace', actions');
  }

  lemma FirstPushes(trace: seq<Sys>, actions: seq<Action>) returns (trace': seq<Sys>, actions': seq<Action>)
    requires IsRun(trace, actions)
    requires trace[|actions|] == OneThread([JobA([E10, E20], 2), JobB([], 0), JobJ(1)], [0, 1], [],
        Pushing(0, [L1]), HALF)
    ensures IsRun(trace', actions')
    ensures trace'[|actions'|] == OneThread([JobA([E10, E20], 2), JobB([], 0), JobJ(1)], [0, 1], [L1], Idle, HALF)
  {
    trace', actions' := Extend(trace, actions, APushNext(0),
                               OneThread([JobA([E10, E20], 2), JobB([], 0), JobJ(1)], [0, 1], [L1], Idle, HALF));
  }

  /** Job 1 runs, has nobody to tell, and gives its usage of job 0 back. */
  lemma SecondDone() returns (trace: seq<Sys>, actions: seq<Action>)
    ensures IsRun(trace, actions)
    ensures trace[|actions|] == OneThread([JobA([E10, E20], 1), JobB([], 0), JobJ(1)], [0, 1], [], Idle, HALF)
  {
    trace, actions := FirstDone();
    var jobs := [JobA([E10, E20], 2), JobB([], 0), JobJ(1)];
    trace, actions := WalkToFinishing(trace, actions, jobs, [0, 1], 1, HALF);
    assert jobs[1 := jobs[1].(usage := 1)] == [JobA([E10, E20], 2), JobB([], 1), JobJ(1)];
    trace, actions := SecondReleases(trace, actions);
  }

  lemma SecondReleases(trace: seq<Sys>, actions: seq<Action>) returns (trace': seq<Sys>, actions': seq<Action>)
    requires IsRun(trace, actions)
    requires trace[|actions|] == OneThread([JobA([E10, E20], 2), JobB([], 1), JobJ(1)], [0, 1], [],
        Finishing(1, 0, []), HALF)
    ensures IsRun(trace', actions')
    ensures trace'[|actions'|] == OneThread([JobA([E10, E20], 1), JobB([], 0), JobJ(1)], [0, 1], [], Idle, HALF)
  {
    trace', actions' := SecondEnds(trace, actions);
    trace', actions' := Extend(trace', actions', ARelease(0),
                               OneThread([JobA([E10, E20], 1), JobB([], 0), JobJ(1)], [0, 1], [], Idle, HALF));
  }

  lemma SecondEnds(trace: seq<Sys>, actions: seq<Action>) returns (trace': seq<Sys>, actions': seq<Action>)
    requires IsRun(trace, actions)
    requires trace[|actions|] == OneThread([JobA([E10, E20], 2), JobB([], 1), JobJ(1)], [0, 1], [],
        Finishing(1, 0, []), HALF)
    ensures IsRun(trace', actions')
    ensures trace'[|actions'|] ==
            OneThread([JobA([E10, E20], 2), JobB([], 0), JobJ(1)], [0, 1], [], Releasing(1, 0), HALF)
  {
    trace', actions' := Extend(trace, actions, AFinishEnd(0),
                               OneThread([JobA([E10, E20], 2), JobB([], 0), JobJ(1)], [0, 1], [], Releasing(1, 0),
                                   HALF));
  }

  /** The creation ends and job 0 is scheduled again. */
  lemma ThirdCreated() returns (trace: seq<Sys>, actions: seq<Action>)
    ensures IsRun(trace, actions)
    ensures trace[|actions|] == OneThread([JobA([E10, E20], 1), JobB([E21], 0), JobJ(1)], [0, 1, 2], [L0], Idle, None)
  {
    trace, actions := SecondDone();
    trace, actions := Extend(trace, actions, ACreateLink,
                             OneThread([JobA([E10, E20], 1), JobB([E21], 0), JobJ(1)], [0, 1], [], Idle,
                                 Some(Creation(2, 2, false))));
    trace, actions := Extend(trace, actions, ACreateEnd,
                             OneThread([JobA([E10, E20], 1), JobB([E21], 0), JobJ(1)], [0, 1, 2], [], Idle, None));
    trace, actions := Extend(trace, actions, ASchedule(0, 0),
                             OneThread([JobA([E10, E20], 1), JobB([E21], 0), JobJ(1)], [0, 1, 2], [L0], Idle, None));
  }

  ghost predicate CircleState(s: Sys) {
    s == OneThread([JobA([E10, E20], 1), JobB([E21], 0), JobJ(1)], [0, 1, 2], [L0], Idle, None)
  }

  lemma FirstIsUsedOnce(s: Sys, h: Hist)
    requires Inv(s, h) && ParkedForReason(s, h) && CircleState(s)
    ensures h[0].holder == Free && CountBusy(h, s.jobs[0].dependents) == 1
  {
    RestingJob(s, h, 0);
    assert CountsOfJob(s, h, 0);
  }

  lemma SecondHeardNothing(s: Sys, h: Hist)
    requires Inv(s, h) && ParkedForReason(s, h) && CircleState(s)
    ensures |h[1].edges| == 1 && h[1].edges[0] == Unused && h[1].holder == Free
  {
    assert ShapeOfJob(s, h, 1) && StageOfJob(s, h, 1) && CountsOfJob(s, h, 1);
    NotQueued(s, h, 1);
    RestingJob(s, h, 1);
    CountFreshBounds(h[1].edges);
  }

  lemma ThirdHeardOne(s: Sys, h: Hist)
    requires Inv(s, h) && ParkedForReason(s, h) && CircleState(s)
    ensures |h[2].edges| == 2 && CountFresh(h[2].edges) == 1 && h[2].holder == Free
    ensures h[2].edges[0] != Consumed && h[2].edges[1] != Consumed
  {
    assert ShapeOfJob(s, h, 2) && StageOfJob(s, h, 2) && CountsOfJob(s, h, 2);
    NotQueued(s, h, 2);
    RestingJob(s, h, 2);
  }

  /** Job 0 waits for job 2 to release, job 2 for job 1 to complete, job 1 for job 0. */
  lemma ThreeInACircle(s: Sys, h: Hist)
    requires Inv(s, h) && ParkedForReason(s, h) && CircleState(s)
    ensures AwaitsRelease(s, h, 0, 2) && AwaitsCompletion(s, h, 2, 1) && AwaitsCompletion(s, h, 1, 0)
  {
    FirstIsUsedOnce(s, h);
    SecondHeardNothing(s, h);
    ThirdHeardOne(s, h);
    OneOfTwoFresh(h[2].edges);
    OneOfTwoBusy(h, s.jobs[0].dependents);
    assert IsEdge(s, h, 0, 1, 0) && IsEdge(s, h, 0, 2, 0) && IsEdge(s, h, 1, 2, 1);
  }

  lemma NotQueued(s: Sys, h: Hist, j: nat)
    requires Inv(s, h) && 0 < j < |s.jobs| && s.jobs[j].queue == Some(0) && s.jobs[j].dependencies != []
    requires s.queues[0] == [L0]
    ensures h[j].stage != Queued
  {
    CountOfAbsent([L0], j);
  }

  lemma OneOfTwoFresh(edges: seq<Edge>)
    requires |edges| == 2 && CountFresh(edges) == 1
    ensures (edges[0] == Fresh) != (edges[1] == Fresh)
  {
    assert edges[..1] == [edges[0]] && [edges[0]][..0] == [];
    assert CountFresh([edges[0]]) == if edges[0] == Fresh then 1 else 0;
  }

  lemma OneOfTwoBusy(h: Hist, ds: seq<Dependent>)
    requires |ds| == 2 && CountBusy(h, ds) == 1
    ensures (EdgeOf(h, ds[0]) != Unused) != (EdgeOf(h, ds[1]) != Unused)
  {
    assert ds[..1] == [ds[0]] && [ds[0]][..0] == [];
    assert CountBusy(h, [ds[0]]) == if EdgeOf(h, ds[0]) != Unused then 1 else 0;
  }

  /** Distinct dependencies do not help: job 0 and then job 1 complete between the two links
      of job 2. All three are stuck, a launch of job 0 is queued, and no launch is free. */
  lemma CircleReached() returns (trace: seq<Sys>, actions: seq<Action>)
    ensures IsRun(trace, actions) && AtRest(trace[|actions|])
    ensures StuckSet(trace[|actions|], HistoryAt(trace, actions, |actions|), {0, 1, 2})
    ensures trace[|actions|].queues == [[L0]] && !SomeLaunchIsFree(trace[|actions|])
  {
    trace, actions := ThirdCreated();
    HistoryFits(trace, actions, |actions|);
    RunParksForReason(trace, actions, |actions|);
    ThreeAreStuck(trace[|actions|], HistoryAt(trace, actions, |actions|));
  }

  lemma ThreeAreStuck(s: Sys, h: Hist)
    requires Inv(s, h) && ParkedForReason(s, h) && CircleState(s)
    ensures StuckSet(s, h, {0, 1, 2})
  {
    ThreeInACircle(s, h);
    RestingJob(s, h, 0);
    RestingJob(s, h, 1);
    RestingJob(s, h, 2);
    assert Blocks(s, h, 0, 2) && Blocks(s, h, 2, 1) && Blocks(s, h, 1, 0);
    assert StuckIn(s, h, {0, 1, 2}, 0) && StuckIn(s, h, {0, 1, 2}, 1) && StuckIn(s, h, {0, 1, 2}, 2);
  }
}
