/** Which jobs wait for which, when they wait for ever, and when they do not. */
module SchedulerWaits {
  import opened Options
  import opened LaunchQueues
  import opened Scheduling
  import opened SchedulerInvariants
  import opened SchedulerProofs
  import opened SchedulerWorkers
  import opened SchedulerRelease
  import opened SchedulerTelling
  import opened SchedulerTheorems
  import opened SchedulerProgress

  // ----- Waiting

  /** Dependency `i` of job `j` is job `d`. */
  predicate IsEdge(s: Sys, h: Hist, d: nat, j: nat, i: nat) {
    && d < |s.jobs| && j < |s.jobs| == |h|
    && i < |s.jobs[j].dependencies| == |h[j].edges| && s.jobs[j].dependencies[i] == d
  }

  /** The edge from `x` to `y` is in use: `x` is not pulled before `y` releases it. */
  ghost predicate AwaitsRelease(s: Sys, h: Hist, x: nat, y: nat) {
    exists i: nat :: IsEdge(s, h, x, y, i) && h[y].edges[i] != Unused
  }

  /** `x` has not heard of `y`: `x` is not triggered before `y` completes. */
  ghost predicate AwaitsCompletion(s: Sys, h: Hist, x: nat, y: nat) {
    exists i: nat :: IsEdge(s, h, y, x, i) && h[x].edges[i] == Unused
  }

  ghost predicate Waits(s: Sys, h: Hist, x: nat, y: nat) {
    AwaitsRelease(s, h, x, y) || AwaitsCompletion(s, h, x, y)
  }

  /** Edge `i` of `j` is in use, and not about to be released by a thread that leaves `j`. */
  predicate KeptBusy(h: Hist, j: nat, i: nat) {
    j < |h| && i < |h[j].edges| && (h[j].edges[i] == Fresh || (h[j].edges[i] == Consumed && !h[j].stage.LeavingBy?))
  }

  /** `x` waits for `y`, and `y` is not about to release. */
  ghost predicate Blocks(s: Sys, h: Hist, x: nat, y: nat) {
    (exists i: nat :: IsEdge(s, h, x, y, i) && KeptBusy(h, y, i)) || AwaitsCompletion(s, h, x, y)
  }

  /** `x` is parked, or no thread holds it and it waits for a job of `K`. */
  ghost predicate StuckIn(s: Sys, h: Hist, K: set<nat>, x: nat) {
    x < |h| && (h[x].holder == Parked || (h[x].holder == Free && exists y :: y in K && Blocks(s, h, x, y)))
  }

  /** Jobs that are parked or wait for each other; a circle of waits is such a set. */
  ghost predicate StuckSet(s: Sys, h: Hist, K: set<nat>) {
    |h| == |s.jobs| && forall x {:trigger StuckIn(s, h, K, x)} :: x in K ==> StuckIn(s, h, K, x)
  }

  ghost predicate Stuck(s: Sys, h: Hist, x: nat) {
    exists K: set<nat> :: x in K && StuckSet(s, h, K)
  }

  // ----- Being stuck is for ever

  /** An edge in use is one that the dependency knows of. */
  lemma UsedEdgeIsListed(s: Sys, h: Hist, d: nat, j: nat, i: nat)
    requires Inv(s, h) && IsEdge(s, h, d, j, i) && h[j].edges[i] != Unused
    ensures Dependent(j, i) in s.jobs[d].dependents
  {
    assert ShapeOfJob(s, h, j) && HistoryOfJob(s, h, j);
  }

  lemma StuckIsNotPulled(s: Sys, h: Hist, t: nat, k: nat, K: set<nat>)
    requires Inv(s, h) && StuckSet(s, h, K) && Pull(s, t, k).Some?
    ensures s.queues[s.threads[t].queue][k].job !in K
  {
    var x := s.queues[s.threads[t].queue][k].job;
    PulledJobIsIdle(s, h, t, k);
    assert StageOfJob(s, h, x);
    if x in K {
      assert StuckIn(s, h, K, x);
      var y :| y in K && Blocks(s, h, x, y);
      if i: nat :| IsEdge(s, h, x, y, i) && KeptBusy(h, y, i) {
        UsedEdgeIsListed(s, h, x, y, i);
      }
      assert false;
    }
  }

  /** Only the pulled job and the job of the acting thread change hands or complete. */
  lemma OthersKeepHolder(s: Sys, h: Hist, a: Action, x: nat)
    requires Inv(s, h) && Step(s, a).Some? && x < |h| && !h[x].holder.HeldBy?
    requires a.APull? ==> s.queues[s.threads[a.t].queue][a.k].job != x
    ensures var h' := Follow(s, h, a);
            && |h'| >= |h| && h'[x].holder == h[x].holder && h'[x].completions == h[x].completions
            && (h'[x].stage.LeavingBy? ==> h[x].stage.LeavingBy?)
  {
    if a.ARelease? {
      ReleaseIsRelease(s, h, a.t);
    } else if a.AFinishNext? {
      ToldIsWaiting(s, h, a.t);
      NextIsTellStep(s, h, a.t);
    } else {
      if a.ACheck? || a.AFinishBegin? || a.AFinishEnd? { assert ThreadInStep(s, h, a.t); }
      BystanderKeepsHolder(s, h, a, x);
    }
  }

  lemma BystanderKeepsHolder(s: Sys, h: Hist, a: Action, x: nat)
    requires |h| == |s.jobs| && Step(s, a).Some? && x < |h| && !a.ARelease? && !a.AFinishNext?
    requires a.APull? ==> s.queues[s.threads[a.t].queue][a.k].job != x
    requires a.ACheck? || a.AFinishBegin? || a.AFinishEnd? ==> s.threads[a.t].act.job != x
    ensures var h' := Follow(s, h, a);
            && |h'| >= |h| && h'[x].holder == h[x].holder && h'[x].completions == h[x].completions
            && (h'[x].stage.LeavingBy? ==> h[x].stage.LeavingBy?)
  {
  }

  lemma AwaitingStays(s: Sys, h: Hist, a: Action, x: nat, y: nat)
    requires Inv(s, h) && Admissible(s, a) && Step(s, a).Some? && x < |h| && y < |h|
    requires AwaitsCompletion(s, h, x, y) && !h[y].holder.HeldBy?
    ensures AwaitsCompletion(Step(s, a).value, Follow(s, h, a), x, y)
  {
    var s', h' := Step(s, a).value, Follow(s, h, a);
    var i: nat :| IsEdge(s, h, y, x, i) && h[x].edges[i] == Unused;
    StepKeepsInv(s, h, a);
    DependenciesStay(s, a, x);
    DependenciesStay(s, a, y);
    UnusedEdgeStays(s, h, a, y, x, i);
    assert ShapeOfJob(s', h', x) && IsEdge(s', h', y, x, i);
  }

  lemma BlockStays(s: Sys, h: Hist, a: Action, x: nat, y: nat)
    requires Inv(s, h) && Admissible(s, a) && Step(s, a).Some? && x < |h| && y < |h| && Blocks(s, h, x, y)
    requires !h[y].holder.HeldBy?
    requires a.APull? ==> s.queues[s.threads[a.t].queue][a.k].job != y
    ensures Blocks(Step(s, a).value, Follow(s, h, a), x, y)
  {
    var s', h' := Step(s, a).value, Follow(s, h, a);
    if i: nat :| IsEdge(s, h, x, y, i) && KeptBusy(h, y, i) {
      StepKeepsInv(s, h, a);
      DependenciesStay(s, a, x);
      DependenciesStay(s, a, y);
      BusyEdgeStays(s, h, a, y, i);
      assert ShapeOfJob(s', h', y) && IsEdge(s', h', x, y, i);
    } else {
      AwaitingStays(s, h, a, x, y);
    }
  }

  lemma BusyEdgeStays(s: Sys, h: Hist, a: Action, j: nat, i: nat)
    requires Inv(s, h) && Step(s, a).Some? && KeptBusy(h, j, i) && !h[j].holder.HeldBy?
    requires a.APull? ==> s.queues[s.threads[a.t].queue][a.k].job != j
    ensures KeptBusy(Follow(s, h, a), j, i)
  {
    if a.ARelease? {
      ReleaseIsRelease(s, h, a.t);
      assert StageOfJob(s, h, j);
    } else if a.AFinishNext? {
      ToldIsWaiting(s, h, a.t);
      NextIsTellStep(s, h, a.t);
    } else {
      OthersKeepHolder(s, h, a, j);
      EdgesStay(s, h, a, j);
    }
  }

  lemma UnusedEdgeStays(s: Sys, h: Hist, a: Action, d: nat, j: nat, i: nat)
    requires Inv(s, h) && Step(s, a).Some? && IsEdge(s, h, d, j, i) && h[j].edges[i] == Unused && !h[d].holder.HeldBy?
    ensures var h' := Follow(s, h, a); j < |h'| && i < |h'[j].edges| && h'[j].edges[i] == Unused
  {
    if a.ARelease? {
      ReleaseIsRelease(s, h, a.t);
    } else if a.AFinishNext? {
      ToldIsWaiting(s, h, a.t);
      TriggerMeansAllFresh(s, h, a.t);
      NextIsTellStep(s, h, a.t);
    } else {
      EdgesStay(s, h, a, j);
    }
  }

  /** None of the jobs has been pulled or has completed in between. */
  ghost predicate Untouched(h: Hist, h': Hist, K: set<nat>) {
    forall x :: x in K ==>
      x < |h| && x < |h'| && h'[x].holder == h[x].holder && h'[x].completions == h[x].completions
  }

  /** A job that has not heard of one that is not held is not triggered. */
  lemma AwaitingIsNotTriggered(s: Sys, h: Hist, a: Action, x: nat, y: nat)
    requires Inv(s, h) && Step(s, a).Some? && x < |h| && y < |h| && AwaitsCompletion(s, h, x, y) && !h[y].holder.HeldBy?
    ensures x < |Follow(s, h, a)| && Follow(s, h, a)[x].activations == h[x].activations
  {
    var i: nat :| IsEdge(s, h, y, x, i) && h[x].edges[i] == Unused;
    if a.AFinishNext? {
      ToldIsWaiting(s, h, a.t);
      TriggerMeansAllFresh(s, h, a.t);
      NextIsTellStep(s, h, a.t);
    } else if a.ARelease? {
      ReleaseIsRelease(s, h, a.t);
    } else {
      EdgesStay(s, h, a, x);
    }
  }

  /** Whatever is done next, a stuck set stays one, and none of its jobs is pulled or
      completes. */
  lemma StuckStays(s: Sys, h: Hist, a: Action, K: set<nat>)
    requires Inv(s, h) && Admissible(s, a) && Step(s, a).Some? && StuckSet(s, h, K)
    ensures var h' := Follow(s, h, a);
            && StuckSet(Step(s, a).value, h', K)
            && Untouched(h, h', K)
  {
    var s', h' := Step(s, a).value, Follow(s, h, a);
    HistoryGrowsAlong(s, h, a);
    if a.APull? { StuckIsNotPulled(s, h, a.t, a.k, K); }
    forall x | x in K
      ensures x < |h| && x < |h'| && h'[x].holder == h[x].holder && h'[x].completions == h[x].completions
      ensures StuckIn(s', h', K, x)
    {
      JobStaysStuck(s, h, a, K, x);
    }
  }

  lemma JobStaysStuck(s: Sys, h: Hist, a: Action, K: set<nat>, x: nat)
    requires Inv(s, h) && Admissible(s, a) && Step(s, a).Some? && StuckSet(s, h, K) && x in K
    requires a.APull? ==> s.queues[s.threads[a.t].queue][a.k].job !in K
    ensures var h' := Follow(s, h, a);
            && x < |h| && x < |h'| && h'[x].holder == h[x].holder && h'[x].completions == h[x].completions
            && StuckIn(Step(s, a).value, h', K, x)
  {
    assert StuckIn(s, h, K, x);
    OthersKeepHolder(s, h, a, x);
    if h[x].holder == Free {
      var y :| y in K && Blocks(s, h, x, y);
      assert StuckIn(s, h, K, y);
      BlockStays(s, h, a, x, y);
    }
  }

  lemma UntouchedTwice(h: Hist, h1: Hist, h2: Hist, K: set<nat>)
    requires Untouched(h, h1, K) && Untouched(h1, h2, K)
    ensures Untouched(h, h2, K)
  {
  }

  /** `K` is stuck, and untouched since the history was `h0`. */
  ghost predicate StuckSince(h0: Hist, s: Sys, h: Hist, K: set<nat>) { StuckSet(s, h, K) && Untouched(h0, h, K) }

  /** Once stuck, for ever stuck: over the rest of the run none of the jobs is held by a
      thread or completes, and a parked one stays parked. */
  lemma StuckForever(trace: seq<Sys>, actions: seq<Action>, i: nat, n: nat, K: set<nat>)
    requires IsRun(trace, actions) && i <= n < |trace| && StuckSet(trace[i], HistoryAt(trace, actions, i), K)
    ensures StuckSince(HistoryAt(trace, actions, i), trace[n], HistoryAt(trace, actions, n), K)
  {
    var h0 := HistoryAt(trace, actions, i);
    NobodyTouched(trace[i], h0, K);
    var holds := (s, h) => StuckSince(h0, s, h, K);
    forall s, h, a | holds(s, h) && Inv(s, h) && Admissible(s, a) && Step(s, a).Some?
      ensures holds(Step(s, a).value, Follow(s, h, a))
    {
      StuckStays(s, h, a, K);
      UntouchedTwice(h0, h, Follow(s, h, a), K);
    }
    FromThenOn(trace, actions, holds, i, n);
  }

  lemma NobodyTouched(s: Sys, h: Hist, K: set<nat>)
    requires StuckSet(s, h, K)
    ensures Untouched(h, h, K)
  {
    forall x | x in K ensures x < |h| { assert StuckIn(s, h, K, x); }
  }

  /** ... so that no thread ever holds a launch of them again. */
  lemma StuckNeverRuns(trace: seq<Sys>, actions: seq<Action>, i: nat, n: nat, K: set<nat>, x: nat, t: nat)
    requires IsRun(trace, actions) && i <= n < |trace| && StuckSet(trace[i], HistoryAt(trace, actions, i), K)
    requires x in K && t < |trace[n].threads|
    ensures !trace[n].threads[t].act.Holds(x)
  {
    assert StuckIn(trace[i], HistoryAt(trace, actions, i), K, x);
    StuckForever(trace, actions, i, n, K);
    HistoryFits(trace, actions, n);
    assert ThreadInStep(trace[n], HistoryAt(trace, actions, n), t);
  }

  /** `x` has not heard of `y`, which is stuck, and has been activated `n` times. */
  ghost predicate AwaitsStuck(h0: Hist, K: set<nat>, x: nat, y: nat, n: nat, s: Sys, h: Hist) {
    StuckSince(h0, s, h, K) && x < |h| && AwaitsCompletion(s, h, x, y) && h[x].activations == n
  }

  lemma AwaitingGoesOn(h0: Hist, K: set<nat>, x: nat, y: nat, n: nat, s: Sys, h: Hist, a: Action)
    requires y in K && AwaitsStuck(h0, K, x, y, n, s, h) && Inv(s, h) && Admissible(s, a) && Step(s, a).Some?
    ensures AwaitsStuck(h0, K, x, y, n, Step(s, a).value, Follow(s, h, a))
  {
    StuckStays(s, h, a, K);
    UntouchedTwice(h0, h, Follow(s, h, a), K);
    assert StuckIn(s, h, K, y);
    AwaitingIsNotTriggered(s, h, a, x, y);
    AwaitingStays(s, h, a, x, y);
  }

  /** ... and a job that has not heard of one of them is never triggered again. */
  lemma AwaitingNeverTriggered(trace: seq<Sys>, actions: seq<Action>, i: nat, n: nat, K: set<nat>, x: nat, y: nat)
    requires IsRun(trace, actions) && i <= n < |trace| && StuckSet(trace[i], HistoryAt(trace, actions, i), K)
    requires y in K && AwaitsCompletion(trace[i], HistoryAt(trace, actions, i), x, y)
    ensures var h, h' := HistoryAt(trace, actions, i), HistoryAt(trace, actions, n);
            && x < |h| && x < |h'| && AwaitsCompletion(trace[n], h', x, y) && h'[x].activations == h[x].activations
  {
    var h0 := HistoryAt(trace, actions, i);
    NobodyTouched(trace[i], h0, K);
    var activations := h0[x].activations;
    var holds := (s, h) => AwaitsStuck(h0, K, x, y, activations, s, h);
    forall s, h, a | holds(s, h) && Inv(s, h) && Admissible(s, a) && Step(s, a).Some?
      ensures holds(Step(s, a).value, Follow(s, h, a))
    {
      AwaitingGoesOn(h0, K, x, y, activations, s, h, a);
    }
    FromThenOn(trace, actions, holds, i, n);
  }

  /** A parked job keeps a usage and never runs again. */
  lemma ParkedForever(trace: seq<Sys>, actions: seq<Action>, i: nat, n: nat, j: nat)
    requires IsRun(trace, actions) && i <= n < |trace| && j < |trace[i].jobs|
    requires HistoryAt(trace, actions, i)[j].holder == Parked
    ensures j < |trace[n].jobs| && HistoryAt(trace, actions, n)[j].holder == Parked && trace[n].jobs[j].usage > 0
    ensures HistoryAt(trace, actions, n)[j].completions == HistoryAt(trace, actions, i)[j].completions
  {
    assert StuckIn(trace[i], HistoryAt(trace, actions, i), {j}, j);
    StuckForever(trace, actions, i, n, {j});
    HistoryFits(trace, actions, n);
    assert CountsOfJob(trace[n], HistoryAt(trace, actions, n), j);
  }

  // ----- At rest: who waits for nobody

  lemma RestingJob(s: Sys, h: Hist, x: nat)
    requires Inv(s, h) && AtRest(s) && x < |h|
    ensures (h[x].holder == Free || h[x].holder == Parked) && !h[x].stage.LeavingBy? && !h[x].stage.PlannedBy?
    ensures Told(s, h, x) == |s.jobs[x].dependents| && !TellsNow(s, h, x) && Linked(s, x) == |h[x].edges|
  {
    assert StageOfJob(s, h, x) && ShapeOfJob(s, h, x);
  }

  /** It can run as soon as it is due: nothing uses it, and it is queued if it has dependencies. */
  ghost predicate Runnable(s: Sys, h: Hist, x: nat) {
    x < |s.jobs| == |h| && s.jobs[x].usage == 0 && (s.jobs[x].dependencies != [] ==> h[x].stage == Queued)
  }

  /** At rest a job that is not parked waits for nobody exactly when it can run. */
  lemma WaitsForNobodyIff(s: Sys, h: Hist, x: nat)
    requires Inv(s, h) && AtRest(s) && x < |h| && h[x].holder != Parked
    ensures (forall y :: !Waits(s, h, x, y)) <==> Runnable(s, h, x)
  {
    RestingJob(s, h, x);
    assert CountsOfJob(s, h, x) && ShapeOfJob(s, h, x) && StageOfJob(s, h, x);
    CountBusyZero(h, s.jobs[x].dependents);
    if Runnable(s, h, x) {
      forall y ensures !Waits(s, h, x, y) { RunnableWaitsForNobody(s, h, x, y); }
    } else if forall y :: !Waits(s, h, x, y) {
      NobodyUses(s, h, x);
      if s.jobs[x].dependencies != [] {
        forall i | 0 <= i < |h[x].edges| ensures h[x].edges[i] != Unused {
          var d := s.jobs[x].dependencies[i];
          assert IsEdge(s, h, d, x, i) && !Waits(s, h, x, d);
        }
        CountFreshBounds(h[x].edges);
      }
    }
  }

  lemma RunnableWaitsForNobody(s: Sys, h: Hist, x: nat, y: nat)
    requires Inv(s, h) && AtRest(s) && Runnable(s, h, x) && h[x].holder != Parked
    ensures !Waits(s, h, x, y)
  {
    RestingJob(s, h, x);
    assert CountsOfJob(s, h, x) && StageOfJob(s, h, x);
    CountBusyZero(h, s.jobs[x].dependents);
    if i: nat :| IsEdge(s, h, x, y, i) && h[y].edges[i] != Unused {
      UsedEdgeIsListed(s, h, x, y, i);
    }
  }

  lemma NobodyUses(s: Sys, h: Hist, x: nat)
    requires Inv(s, h) && x < |h| && forall y :: !Waits(s, h, x, y)
    ensures CountBusy(h, s.jobs[x].dependents) == 0
  {
    var ds := s.jobs[x].dependents;
    CountBusyZero(h, ds);
    assert ShapeOfJob(s, h, x);
    forall k | 0 <= k < |ds| ensures EdgeOf(h, ds[k]) == Unused {
      assert LinkedFrom(s, x, ds[k]) && ShapeOfJob(s, h, ds[k].job);
      assert IsEdge(s, h, x, ds[k].job, ds[k].slot) && !Waits(s, h, x, ds[k].job);
    }
  }

  // ----- At rest: the waits end exactly when the job is not stuck

  /** Every chain of waits from `x` has at most `n` links, and none meets a parked job. */
  ghost predicate Ends(s: Sys, h: Hist, x: nat, n: nat)
    decreases n
  {
    x < |h| && h[x].holder != Parked && forall y: nat :: Waits(s, h, x, y) ==> n > 0 && Ends(s, h, y, n - 1)
  }

  ghost predicate WaitsEnd(s: Sys, h: Hist, x: nat) { exists n: nat :: Ends(s, h, x, n) }

  lemma {:induction false} EndsLater(s: Sys, h: Hist, x: nat, n: nat, m: nat)
    requires Ends(s, h, x, n) && n <= m
    ensures Ends(s, h, x, m)
    decreases n
  {
    forall y: nat | Waits(s, h, x, y) ensures m > 0 && Ends(s, h, y, m - 1) {
      EndsLater(s, h, y, n - 1, m - 1);
    }
  }

  lemma {:induction false} EndingIsNotStuck(s: Sys, h: Hist, x: nat, n: nat, K: set<nat>)
    requires Ends(s, h, x, n) && StuckSet(s, h, K)
    ensures x !in K
    decreases n
  {
    if x !in K {
    } else {
      assert StuckIn(s, h, K, x);
      var y :| y in K && Blocks(s, h, x, y);
      assert Waits(s, h, x, y);
      EndingIsNotStuck(s, h, y, n - 1, K);
    }
  }

  /** One bound for all of the first `m` jobs whose waits end. */
  lemma {:induction false} CommonBound(s: Sys, h: Hist, m: nat) returns (bound: nat)
    requires m <= |h|
    ensures forall x: nat, n: nat :: x < m && Ends(s, h, x, n) ==> Ends(s, h, x, bound)
  {
    if m == 0 {
      bound := 0;
    } else {
      bound := CommonBound(s, h, m - 1);
      var last := m - 1;
      if n: nat :| Ends(s, h, last, n) {
        var more := if n < bound then bound else n;
        forall x: nat, k: nat | x < m && Ends(s, h, x, k) ensures Ends(s, h, x, more) {
          EndsLater(s, h, x, if x == last then n else bound, more);
        }
        bound := more;
      }
    }
  }

  lemma NeverEndingIsStuck(s: Sys, h: Hist, K: set<nat>)
    requires Inv(s, h) && AtRest(s) && forall x: nat :: x in K <==> x < |h| && !WaitsEnd(s, h, x)
    ensures StuckSet(s, h, K)
  {
    var bound := CommonBound(s, h, |h|);
    forall x: nat | x in K ensures StuckIn(s, h, K, x) {
      if h[x].holder != Parked {
        RestingJob(s, h, x);
        assert !Ends(s, h, x, bound + 1);
        var y: nat :| Waits(s, h, x, y) && !Ends(s, h, y, bound);
        RestingJob(s, h, y);
        assert y in K && Blocks(s, h, x, y);
      }
    }
  }

  /** At rest a job's waits come to an end exactly when it is in no stuck set. */
  lemma WaitsEndIff(s: Sys, h: Hist, x: nat)
    requires Inv(s, h) && AtRest(s) && x < |h|
    ensures WaitsEnd(s, h, x) <==> !Stuck(s, h, x)
  {
    if WaitsEnd(s, h, x) {
      var n: nat :| Ends(s, h, x, n);
      forall K: set<nat> | StuckSet(s, h, K) ensures x !in K { EndingIsNotStuck(s, h, x, n, K); }
      assert !Stuck(s, h, x);
    } else {
      var K: set<nat> := set y: nat | y < |h| && !WaitsEnd(s, h, y);
      NeverEndingIsStuck(s, h, K);
      assert x in K;
    }
  }

  /** Each waits for the next, from `x` to `y`. */
  ghost predicate WaitChain(s: Sys, h: Hist, p: seq<nat>, x: nat, y: nat) {
    p != [] && p[0] == x && p[|p| - 1] == y && forall i :: 0 <= i < |p| - 1 ==> Waits(s, h, p[i], p[i + 1])
  }

  lemma {:induction false} EndsAtRunnable(s: Sys, h: Hist, x: nat, n: nat) returns (p: seq<nat>)
    requires Inv(s, h) && AtRest(s) && Ends(s, h, x, n)
    ensures p != [] && WaitChain(s, h, p, x, p[|p| - 1]) && Runnable(s, h, p[|p| - 1])
    decreases n
  {
    if y: nat :| Waits(s, h, x, y) {
      var rest := EndsAtRunnable(s, h, y, n - 1);
      p := [x] + rest;
    } else {
      WaitsForNobodyIff(s, h, x);
      p := [x];
    }
  }

  /** Progress: with no thread inside a launch and no job being created, the waits of a job
      that is not stuck lead to one that can be pulled as soon as it is scheduled and due;
      one with dependencies is queued already. */
  lemma QueuedWorkProceeds(trace: seq<Sys>, actions: seq<Action>, i: nat, x: nat) returns (p: seq<nat>)
    requires IsRun(trace, actions) && i < |trace| && AtRest(trace[i]) && x < |trace[i].jobs|
    requires !Stuck(trace[i], HistoryAt(trace, actions, i), x)
    ensures p != [] && WaitChain(trace[i], HistoryAt(trace, actions, i), p, x, p[|p| - 1])
    ensures Runnable(trace[i], HistoryAt(trace, actions, i), p[|p| - 1])
    ensures var s, y := trace[i], p[|p| - 1];
            s.jobs[y].usage == 0 &&
            (s.jobs[y].dependencies != [] ==> exists q: nat, k: nat :: IsQueued(s, q, k) && s.queues[q][k].job == y)
  {
    HistoryFits(trace, actions, i);
    var s, h := trace[i], HistoryAt(trace, actions, i);
    WaitsEndIff(s, h, x);
    var n: nat :| Ends(s, h, x, n);
    p := EndsAtRunnable(s, h, x, n);
    var y := p[|p| - 1];
    if s.jobs[y].dependencies != [] {
      var k := QueuedSomewhere(s, h, y);
      assert IsQueued(s, s.jobs[y].queue.value, k);
    }
  }
}
