/** The order of the queues over every execution, and the choice that a pull makes. */
module SchedulerQueues {
  import opened Options
  import opened LaunchQueues
  import opened Scheduling
  import opened SchedulerInvariants
  import opened SchedulerTheorems

  ghost predicate Orderly(s: Sys) {
    forall q :: 0 <= q < |s.queues| ==> Sorted(s.queues[q])
  }

  lemma EnqueueKeepsOrder(s: Sys, l: Launch)
    requires Orderly(s) && Enqueued(s, l).Some?
    ensures Orderly(Enqueued(s, l).value)
  {
    PushedIsSortedInsertion(s.queues[s.jobs[l.job].queue.value], l);
  }

  /** Every step keeps every queue sorted, whatever state the jobs are in. */
  lemma StepKeepsOrder(s: Sys, a: Action)
    requires Orderly(s) && Step(s, a).Some?
    ensures Orderly(Step(s, a).value)
  {
    if a.ASchedule? {
      if Step(s, a).value != s { EnqueueKeepsOrder(s, Launch(Named(s, a.h).value, a.timepoint)); }
    } else if a.ADestroy? {
      if Named(s, a.h).Some? {
        var j := Named(s, a.h).value;
        EnqueueKeepsOrder(SetJob(s, j, s.jobs[j].(destructionPended := true)), Launch(j, 0));
      }
    } else if a.APushNext? {
      EnqueueKeepsOrder(s, s.threads[a.t].act.planned[0]);
    } else if a.APull? {
      WithoutAtIsRemoval(s.queues[s.threads[a.t].queue], a.k);
    }
  }

  lemma StepKeepsAll(s: Sys, h: Hist, a: Action)
    requires Inv(s, h) && Orderly(s) && Admissible(s, a) && Step(s, a).Some?
    ensures Inv(Step(s, a).value, Follow(s, h, a)) && Orderly(Step(s, a).value)
  {
    StepKeepsInv(s, h, a);
    StepKeepsOrder(s, a);
  }

  /** Every queue is sorted in every state of every execution, inadmissible calls included:
      pushes and pulls always meet the order they rely on. */
  lemma {:induction false} QueuesStaySorted(trace: seq<Sys>, actions: seq<Action>, i: nat)
    requires IsExecution(trace, actions) && i < |trace|
    ensures Orderly(trace[i])
  {
    if i == 0 {
    } else {
      QueuesStaySorted(trace, actions, i - 1);
      assert Taken(trace, actions, i - 1);
      StepKeepsOrder(trace[i - 1], actions[i - 1]);
    }
  }

  // ----- What a pull takes

  function Usages(s: Sys): (u: seq<int>)
    ensures |u| == |s.jobs| && forall j :: 0 <= j < |u| ==> u[j] == s.jobs[j].usage
  {
    seq(|s.jobs|, j requires 0 <= j < |s.jobs| => s.jobs[j].usage)
  }

  /** Nobody holds the mutex of an idle job: the scan is not kept waiting by the launch that
      it takes. */
  lemma IdleIsUnlocked(s: Sys, h: Hist, j: nat)
    requires Inv(s, h) && j < |s.jobs| && s.jobs[j].usage == 0
    ensures Unlocked(s, j)
  {
    assert CountsOfJob(s, h, j);
    forall t | 0 <= t < |s.threads| && s.threads[t].act.Finishing? ensures s.threads[t].act.job != j {
      assert ThreadInStep(s, h, t);
    }
  }

  /** A launch can be pulled by an idle thread exactly when the scan finds it due and idle, and
      the state after it is that of the scan. */
  lemma PullableIff(s: Sys, h: Hist, t: nat, k: nat)
    requires Inv(s, h) && t < |s.threads| && s.threads[t].act == Idle && k < |s.queues[s.threads[t].queue]|
    ensures var q := s.threads[t].queue;
            var l := s.queues[q][k];
            && (Step(s, APull(t, k)).Some? <==> DueAndIdle(l, Usages(s), s.now))
            && (Step(s, APull(t, k)).Some? ==>
                  var s' := Step(s, APull(t, k)).value;
                  && s'.queues == s.queues[q := WithoutAt(s.queues[q], k)]
                  && Usages(s') == Usages(s)[l.job := 1]
                  && s'.threads == s.threads[t := s.threads[t].(act := Pulled(l.job))])
  {
    var l := s.queues[s.threads[t].queue][k];
    assert l.job < |s.jobs|;
    if s.jobs[l.job].usage == 0 { IdleIsUnlocked(s, h, l.job); }
  }

  /** Beyond the queue there is nothing to pull. */
  lemma NothingPullable(s: Sys, h: Hist, t: nat)
    requires Inv(s, h) && t < |s.threads| && s.threads[t].act == Idle
    requires var q := s.queues[s.threads[t].queue]; forall k :: 0 <= k < |q| ==> !DueAndIdle(q[k], Usages(s), s.now)
    ensures forall k: nat :: Step(s, APull(t, k)).None?
  {
    forall k: nat ensures Step(s, APull(t, k)).None? {
      if k < |s.queues[s.threads[t].queue]| { PullableIff(s, h, t, k); }
    }
  }

  /** The earliest launch that is due and idle is the earliest that can be pulled. */
  lemma EarliestOfPullable(s: Sys, h: Hist, t: nat, l: Launch)
    requires Inv(s, h) && t < |s.threads| && s.threads[t].act == Idle
    requires var q := s.queues[s.threads[t].queue];
             forall k :: 0 <= k < |q| && DueAndIdle(q[k], Usages(s), s.now) ==> l.timepoint <= q[k].timepoint
    ensures forall k: nat :: Step(s, APull(t, k)).Some? ==> l.timepoint <= s.queues[s.threads[t].queue][k].timepoint
  {
    forall k: nat | Step(s, APull(t, k)).Some? ensures l.timepoint <= s.queues[s.threads[t].queue][k].timepoint {
      PullableIff(s, h, t, k);
    }
  }
}
