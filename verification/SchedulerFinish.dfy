/** Giving the usage back and pushing what was planned: the steps that end the finishing of a
    launch, and the invariant they keep. */
module SchedulerFinish {
  import opened Options
  import opened LaunchQueues
  import opened Scheduling
  import opened SchedulerInvariants
  import opened SchedulerProofs
  import opened SchedulerWorkers

  // ----- Giving the usage back

  /** What the end of finishing changes. */
  ghost predicate Ending(s: Sys, s': Sys, h: Hist, h': Hist, t: nat, d: nat) {
    && |h| == |s.jobs| && t < |s.threads| && d < |s.jobs|
    && s.threads[t].act.Finishing? && s.threads[t].act.job == d && s.threads[t].act.next == |s.jobs[d].dependents|
    && s' == SetAct(SetJob(s, d, s.jobs[d].(usage := s.jobs[d].usage - 1)), t,
                    if s.threads[t].act.planned == [] then AfterPushing(s, d) else Pushing(d, s.threads[t].act.planned))
    && h' == h[d := h[d].(holder := Free, stage := if s.jobs[d].dependencies == [] then Dormant else LeavingBy(t))]
    && h[d].holder == HeldBy(t)
  }

  lemma EndingFrame(s: Sys, s': Sys, h: Hist, h': Hist, t: nat, d: nat)
    requires Ending(s, s', h, h', t, d)
    requires forall x :: 0 <= x < |s.jobs| ==> StageOfJob(s, h, x)
    ensures SameFrame(s, s', h, h')
    ensures TellsNow(s, h, d) && !TellsNow(s', h', d) && Told(s', h', d) == Told(s, h, d) == |s.jobs[d].dependents|
    ensures forall x :: 0 <= x < |s.jobs| && x != d ==>
        TellsNow(s', h', x) == TellsNow(s, h, x) && Told(s', h', x) == Told(s, h, x)
    ensures forall x :: 0 <= x < |s.jobs| ==> h'[x].completions == h[x].completions
  {
    forall x | 0 <= x < |s.jobs| && x != d
      ensures TellsNow(s', h', x) == TellsNow(s, h, x) && Told(s', h', x) == Told(s, h, x)
    {
      assert StageOfJob(s, h, x);
    }
  }

  lemma EndingKeepsThread(s: Sys, s': Sys, h: Hist, h': Hist, t: nat, d: nat, u: nat)
    requires Ending(s, s', h, h', t, d) && Shape(s, h) && SameFrame(s, s', h, h')
    requires StageOfJob(s, h, d) && u < |s.threads| && ThreadInStep(s, h, u)
    ensures ThreadInStep(s', h', u)
  {
    if u != t {
      OtherThreadKept(s, s', h, h', u);
    } else {
      PlansKept(s, s', h, h', t, s.threads[t].act.Plans());
    }
  }

  lemma EndingKeepsStage(s: Sys, s': Sys, h: Hist, h': Hist, t: nat, d: nat, j: nat)
    requires Ending(s, s', h, h', t, d)
    requires j < |s.jobs| && StageOfJob(s, h, j) && ShapeOfJob(s, h, j)
    ensures StageOfJob(s', h', j)
  {
  }

  lemma EndingKeepsCounts(s: Sys, s': Sys, h: Hist, h': Hist, t: nat, d: nat, j: nat)
    requires Ending(s, s', h, h', t, d)
    requires forall x :: 0 <= x < |s.jobs| ==> StageOfJob(s, h, x)
    requires j < |s.jobs| && CountsOfJob(s, h, j)
    ensures CountsOfJob(s', h', j)
  {
    EndingFrame(s, s', h, h', t, d);
    CountBusySame(h, h', s.jobs[j].dependents);
  }

  lemma EndingKeepsHistory(s: Sys, s': Sys, h: Hist, h': Hist, t: nat, d: nat, j: nat)
    requires Ending(s, s', h, h', t, d) && Shape(s, h) && SameFrame(s, s', h, h')
    requires forall x :: 0 <= x < |s.jobs| ==> StageOfJob(s, h, x)
    requires j < |s.jobs| && ShapeOfJob(s, h, j) && ShapeOfJob(s', h', j) && HistoryOfJob(s, h, j)
    ensures HistoryOfJob(s', h', j)
  {
    EndingFrame(s, s', h, h', t, d);
    forall i | 0 <= i < |h[j].edges| ensures Heard(s', h', j, i) == Heard(s, h, j, i) {
      var x := s.jobs[j].dependencies[i];
      assert SameLinks(s.jobs[x], s'.jobs[x]) && SameLinks(s.jobs[j], s'.jobs[j]);
    }
    assert StageOfJob(s, h, j);
  }

  lemma EndingKeepsJob(s: Sys, s': Sys, h: Hist, h': Hist, t: nat, d: nat, j: nat)
    requires Ending(s, s', h, h', t, d) && Shape(s, h) && SameFrame(s, s', h, h')
    requires forall x :: 0 <= x < |s.jobs| ==> StageOfJob(s, h, x)
    requires j < |s.jobs| && CountsOfJob(s, h, j) && ShapeOfJob(s, h, j) && HistoryOfJob(s, h, j)
    ensures StageOfJob(s', h', j) && CountsOfJob(s', h', j) && ShapeOfJob(s', h', j) && HistoryOfJob(s', h', j)
  {
    FrameKeepsShapeOfJob(s, s', h, h', j);
    EndingKeepsStage(s, s', h, h', t, d, j);
    EndingKeepsCounts(s, s', h, h', t, d, j);
    EndingKeepsHistory(s, s', h, h', t, d, j);
  }

  lemma FinishEndKeepsInv(s: Sys, h: Hist, t: nat)
    requires Inv(s, h) && FinishEnd(s, t).Some?
    ensures Inv(FinishEnd(s, t).value, Follow(s, h, AFinishEnd(t)))
  {
    var s', h', d := FinishEnd(s, t).value, Follow(s, h, AFinishEnd(t)), s.threads[t].act.job;
    assert ThreadInStep(s, h, t);
    assert Ending(s, s', h, h', t, d);
    EndingFrame(s, s', h, h', t, d);
    FrameKeepsShape(s, s', h, h');
    assert StageOfJob(s, h, d);
    assert QueuesInStep(s', h');
    forall u | 0 <= u < |s.threads| ensures ThreadInStep(s', h', u) {
      assert ThreadInStep(s, h, u);
      EndingKeepsThread(s, s', h, h', t, d, u);
    }
    forall j | 0 <= j < |s.jobs|
      ensures StageOfJob(s', h', j) && CountsOfJob(s', h', j) && ShapeOfJob(s', h', j) && HistoryOfJob(s', h', j)
    {
      assert CountsOfJob(s, h, j) && ShapeOfJob(s, h, j) && HistoryOfJob(s, h, j);
      EndingKeepsJob(s, s', h, h', t, d, j);
    }
  }

  // ----- Pushing a planned launch

  /** What a push changes. */
  ghost predicate Pushes(s: Sys, s': Sys, h: Hist, h': Hist, t: nat, d: nat, l: Launch, q: nat) {
    && |h| == |s.jobs| && t < |s.threads| && d < |s.jobs| && l.job < |s.jobs| && q < |s.queues|
    && s.threads[t].act.Pushing? && s.threads[t].act.job == d && s.threads[t].act.planned != []
       && s.threads[t].act.planned[0] == l
    && s.jobs[l.job].queue == Some(q)
    && s' == SetAct(s.(queues := s.queues[q := Pushed(s.queues[q], l)]), t,
                    if |s.threads[t].act.planned| == 1 then AfterPushing(s, d)
                    else Pushing(d, s.threads[t].act.planned[1..]))
    && h' == h[l.job := h[l.job].(stage := Queued)]
    && PlanInStep(s, h, t, l.job)
  }

  lemma PushFrame(s: Sys, s': Sys, h: Hist, h': Hist, t: nat, d: nat, l: Launch, q: nat)
    requires Pushes(s, s', h, h', t, d, l, q)
    requires forall x :: 0 <= x < |s.jobs| ==> StageOfJob(s, h, x)
    ensures SameFrame(s, s', h, h') && SameTelling(s, s', h, h')
  {
    forall x | 0 <= x < |s.jobs| ensures TellsNow(s', h', x) == TellsNow(s, h, x) && Told(s', h', x) == Told(s, h, x) {
      assert StageOfJob(s, h, x);
    }
  }

  lemma PushKeepsThread(s: Sys, s': Sys, h: Hist, h': Hist, t: nat, d: nat, l: Launch, q: nat, u: nat)
    requires Pushes(s, s', h, h', t, d, l, q) && Shape(s, h) && SameFrame(s, s', h, h')
    requires u < |s.threads| && ThreadInStep(s, h, u)
    ensures ThreadInStep(s', h', u)
  {
    if u != t {
      OtherThreadKept(s, s', h, h', u);
    } else {
      var rest := s.threads[t].act.planned[1..];
      assert forall p :: 0 <= p < |rest| ==> rest[p] == s.threads[t].act.Plans()[p + 1];
      PlansKept(s, s', h, h', t, rest);
    }
  }

  lemma PushKeepsStage(s: Sys, s': Sys, h: Hist, h': Hist, t: nat, d: nat, l: Launch, q: nat, j: nat)
    requires Pushes(s, s', h, h', t, d, l, q)
    requires j < |s.jobs| && StageOfJob(s, h, j) && ShapeOfJob(s, h, j)
    ensures StageOfJob(s', h', j)
  {
    var plans := s.threads[t].act.planned;
    if h[j].stage == PlannedBy(t) && j != l.job {
      var p :| 0 <= p < |plans| && plans[p].job == j;
      assert plans[1..][p - 1].job == j;
    }
  }

  lemma PushKeepsQueues(s: Sys, s': Sys, h: Hist, h': Hist, t: nat, d: nat, l: Launch, q: nat)
    requires Pushes(s, s', h, h', t, d, l, q) && QueuesInStep(s, h)
    ensures QueuesInStep(s', h')
  {
    forall j | 0 <= j < |s.jobs| { CountOfPushed(s.queues[q], l, j); }
    assert forall k :: 0 <= k < |s'.queues[q]| ==> s'.queues[q][k] == l || s'.queues[q][k] in s.queues[q];
  }

  lemma PushKeepsCounts(s: Sys, s': Sys, h: Hist, h': Hist, t: nat, d: nat, l: Launch, q: nat, j: nat)
    requires Pushes(s, s', h, h', t, d, l, q) && SameTelling(s, s', h, h')
    requires j < |s.jobs| && CountsOfJob(s, h, j)
    ensures CountsOfJob(s', h', j)
  {
    CountBusySame(h, h', s.jobs[j].dependents);
  }

  lemma PushKeepsJob(s: Sys, s': Sys, h: Hist, h': Hist, t: nat, d: nat, l: Launch, q: nat, j: nat)
    requires Pushes(s, s', h, h', t, d, l, q) && SameFrame(s, s', h, h') && SameTelling(s, s', h, h')
    requires Shape(s, h) && j < |s.jobs|
    requires StageOfJob(s, h, j) && CountsOfJob(s, h, j) && ShapeOfJob(s, h, j) && HistoryOfJob(s, h, j)
    ensures StageOfJob(s', h', j) && CountsOfJob(s', h', j) && ShapeOfJob(s', h', j) && HistoryOfJob(s', h', j)
  {
    PushKeepsStage(s, s', h, h', t, d, l, q, j);
    PushKeepsCounts(s, s', h, h', t, d, l, q, j);
    TellingKeepsHistory(s, s', h, h', j);
  }

  lemma PushIsPush(s: Sys, h: Hist, t: nat)
    requires Inv(s, h) && PushNext(s, t).Some?
    ensures var act := s.threads[t].act;
            var l := act.planned[0];
            && s.jobs[l.job].queue.Some?
            && Pushes(s, PushNext(s, t).value, h, Follow(s, h, APushNext(t)), t, act.job, l, s.jobs[l.job].queue.value)
  {
    assert ThreadInStep(s, h, t);
    assert PlanInStep(s, h, t, s.threads[t].act.Plans()[0].job);
  }

  lemma PushKeepsInv(s: Sys, h: Hist, t: nat)
    requires Inv(s, h) && PushNext(s, t).Some?
    ensures Inv(PushNext(s, t).value, Follow(s, h, APushNext(t)))
  {
    var s', h', d := PushNext(s, t).value, Follow(s, h, APushNext(t)), s.threads[t].act.job;
    var l := s.threads[t].act.planned[0];
    var q := s.jobs[l.job].queue.value;
    PushIsPush(s, h, t);
    PushFrame(s, s', h, h', t, d, l, q);
    FrameKeepsShape(s, s', h, h');
    PushKeepsQueues(s, s', h, h', t, d, l, q);
    forall u | 0 <= u < |s.threads| ensures ThreadInStep(s', h', u) {
      assert ThreadInStep(s, h, u);
      PushKeepsThread(s, s', h, h', t, d, l, q, u);
    }
    forall j | 0 <= j < |s.jobs|
      ensures StageOfJob(s', h', j) && CountsOfJob(s', h', j) && ShapeOfJob(s', h', j) && HistoryOfJob(s', h', j)
    {
      assert StageOfJob(s, h, j) && CountsOfJob(s, h, j) && ShapeOfJob(s, h, j) && HistoryOfJob(s, h, j);
      PushKeepsJob(s, s', h, h', t, d, l, q, j);
    }
  }
}
