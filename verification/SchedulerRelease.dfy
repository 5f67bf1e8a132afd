/** Releasing one dependency: the step that frees an edge, and the invariant it keeps. */
module SchedulerRelease {
  import opened Options
  import opened LaunchQueues
  import opened Scheduling
  import opened SchedulerInvariants
  import opened SchedulerProofs
  import opened SchedulerWorkers

  /** What a release changes, for a job that is not being destroyed. */
  ghost predicate Releases(s: Sys, s': Sys, h: Hist, h': Hist, t: nat, j: nat, i: nat, d: nat) {
    && |h| == |s.jobs| && t < |s.threads| && d < |s.jobs| && j < |s.jobs|
    && s.threads[t].act == Releasing(j, i) && i < |s.jobs[j].dependencies| == |h[j].edges|
    && s.jobs[j].dependencies[i] == d && Unlocked(s, d)
    && h[j].stage == LeavingBy(t)
    && s' == SetAct(SetJob(s, d, s.jobs[d].(usage := s.jobs[d].usage - 1)), t,
                    if i + 1 == |s.jobs[j].dependencies| then Idle else Releasing(j, i + 1))
    && h' == h[j := h[j].(edges := h[j].edges[i := Unused],
                          stage := if i + 1 == |s.jobs[j].dependencies| then Dormant else LeavingBy(t))]
  }

  lemma ReleaseFrame(s: Sys, s': Sys, h: Hist, h': Hist, t: nat, j: nat, i: nat, d: nat)
    requires Releases(s, s', h, h', t, j, i, d)
    requires forall x :: 0 <= x < |s.jobs| ==> StageOfJob(s, h, x)
    ensures SameFrame(s, s', h, h') && SameTelling(s, s', h, h') && !TellsNow(s, h, d)
    ensures h[j].edges[i] == Consumed
  {
    assert StageOfJob(s, h, j) && StageOfJob(s, h, d);
    forall x | 0 <= x < |s.jobs| ensures TellsNow(s', h', x) == TellsNow(s, h, x) && Told(s', h', x) == Told(s, h, x) {
      assert StageOfJob(s, h, x);
    }
  }

  lemma ReleaseKeepsThread(s: Sys, s': Sys, h: Hist, h': Hist, t: nat, j: nat, i: nat, d: nat, u: nat)
    requires Releases(s, s', h, h', t, j, i, d) && Shape(s, h) && SameFrame(s, s', h, h')
    requires u < |s.threads| && ThreadInStep(s, h, u)
    ensures ThreadInStep(s', h', u)
  {
    if u != t { OtherThreadKept(s, s', h, h', u); }
  }

  lemma ReleaseKeepsStage(s: Sys, s': Sys, h: Hist, h': Hist, t: nat, j: nat, i: nat, d: nat, x: nat)
    requires Releases(s, s', h, h', t, j, i, d)
    requires x < |s.jobs| && StageOfJob(s, h, x)
    ensures StageOfJob(s', h', x)
  {
  }

  lemma ReleaseKeepsCounts(s: Sys, s': Sys, h: Hist, h': Hist, t: nat, j: nat, i: nat, d: nat, x: nat)
    requires Releases(s, s', h, h', t, j, i, d) && SameTelling(s, s', h, h') && h[j].edges[i] == Consumed
    requires Shape(s, h) && Linked(s, j) == |h[j].edges|
    requires x < |s.jobs| && ShapeOfJob(s, h, x) && CountsOfJob(s, h, x)
    ensures CountsOfJob(s', h', x)
  {
    ReleaseBusy(s, s', h, h', t, j, i, d, x);
    if x == j { CountFreshUpdate(h[j].edges, i, Unused); }
  }

  lemma ReleaseBusy(s: Sys, s': Sys, h: Hist, h': Hist, t: nat, j: nat, i: nat, d: nat, x: nat)
    requires Releases(s, s', h, h', t, j, i, d) && h[j].edges[i] == Consumed
    requires Shape(s, h) && Linked(s, j) == |h[j].edges| && x < |s.jobs|
    ensures CountBusy(h', s.jobs[x].dependents) == CountBusy(h, s.jobs[x].dependents) - if x == d then 1 else 0
    ensures forall e :: EdgeOf(h, e) == Unused ==> EdgeOf(h', e) == Unused
  {
    var ds, e := s.jobs[x].dependents, Dependent(j, i);
    assert ShapeOfJob(s, h, x);
    assert forall y :: y != e ==> EdgeOf(h', y) == EdgeOf(h, y);
    if x == d {
      assert e in ds;
      var p :| 0 <= p < |ds| && ds[p] == e;
      CountBusyOne(h, h', ds, p);
    } else {
      forall k | 0 <= k < |ds| ensures ds[k] != e { assert LinkedFrom(s, x, ds[k]); }
      CountBusySame(h, h', ds);
    }
  }

  lemma ReleaseKeepsInv(s: Sys, h: Hist, t: nat)
    requires Inv(s, h) && Release(s, t).Some?
    ensures Inv(Release(s, t).value, Follow(s, h, ARelease(t)))
  {
    var s', h', j, i := Release(s, t).value, Follow(s, h, ARelease(t)), s.threads[t].act.job, s.threads[t].act.next;
    var d := s.jobs[j].dependencies[i];
    ReleaseIsRelease(s, h, t);
    ReleaseFrame(s, s', h, h', t, j, i, d);
    ReleasingIsLinked(s, h, t);
    FrameKeepsShape(s, s', h, h');
    assert QueuesInStep(s', h');
    forall u | 0 <= u < |s.threads| ensures ThreadInStep(s', h', u) {
      assert ThreadInStep(s, h, u);
      ReleaseKeepsThread(s, s', h, h', t, j, i, d, u);
    }
    forall x | 0 <= x < |s.jobs|
      ensures StageOfJob(s', h', x) && CountsOfJob(s', h', x) && ShapeOfJob(s', h', x) && HistoryOfJob(s', h', x)
    {
      assert StageOfJob(s, h, x) && CountsOfJob(s, h, x) && ShapeOfJob(s, h, x) && HistoryOfJob(s, h, x);
      ReleaseKeepsJob(s, s', h, h', t, j, i, d, x);
    }
  }

  lemma ReleaseKeepsJob(s: Sys, s': Sys, h: Hist, h': Hist, t: nat, j: nat, i: nat, d: nat, x: nat)
    requires Releases(s, s', h, h', t, j, i, d) && SameFrame(s, s', h, h') && SameTelling(s, s', h, h')
    requires h[j].edges[i] == Consumed && Shape(s, h) && Linked(s, j) == |h[j].edges| && x < |s.jobs|
    requires StageOfJob(s, h, x) && CountsOfJob(s, h, x) && ShapeOfJob(s, h, x) && HistoryOfJob(s, h, x)
    ensures StageOfJob(s', h', x) && CountsOfJob(s', h', x) && ShapeOfJob(s', h', x) && HistoryOfJob(s', h', x)
  {
    ReleaseKeepsStage(s, s', h, h', t, j, i, d, x);
    ReleaseKeepsCounts(s, s', h, h', t, j, i, d, x);
    TellingKeepsHistory(s, s', h, h', x);
  }

  lemma ReleaseIsRelease(s: Sys, h: Hist, t: nat)
    requires Inv(s, h) && Release(s, t).Some?
    ensures var j, i := s.threads[t].act.job, s.threads[t].act.next;
            Releases(s, Release(s, t).value, h, Follow(s, h, ARelease(t)), t, j, i, s.jobs[j].dependencies[i])
  {
    var j := s.threads[t].act.job;
    assert ThreadInStep(s, h, t) && ShapeOfJob(s, h, j);
  }

  /** A releasing job was triggered, so all its edges had been linked. */
  lemma ReleasingIsLinked(s: Sys, h: Hist, t: nat)
    requires Inv(s, h) && t < |s.threads| && s.threads[t].act.Releasing?
    ensures s.threads[t].act.job < |s.jobs| && Linked(s, s.threads[t].act.job) == |h[s.threads[t].act.job].edges|
  {
    var j := s.threads[t].act.job;
    assert ThreadInStep(s, h, t) && ShapeOfJob(s, h, j) && HistoryOfJob(s, h, j) && StageOfJob(s, h, j);
  }
}
