/** Waiting for a job's mutex: the threads that hold one can always finish, and in how many
    steps. */
module SchedulerLocks {
  import opened Options
  import opened LaunchQueues
  import opened Scheduling
  import opened SchedulerInvariants
  import opened SchedulerTheorems
  import opened SchedulerProgress

  /** The mutex of a job that a thread holds a launch of is free until that thread takes it. */
  lemma HeldIsUnlocked(s: Sys, h: Hist, t: nat)
    requires Inv(s, h) && t < |s.threads| && s.threads[t].act.Holding() && !s.threads[t].act.Finishing?
    ensures Unlocked(s, s.threads[t].act.job)
  {
    assert ThreadInStep(s, h, t);
    forall u | 0 <= u < |s.threads| && s.threads[u].act.Finishing?
      ensures s.threads[u].act.job != s.threads[t].act.job
    {
      assert ThreadInStep(s, h, u);
    }
  }

  // ----- What other threads do in the meantime

  /** What a job has of the request that created it. */
  predicate SameRequest(e: JobEntry, e': JobEntry) {
    && e'.dependencies == e.dependencies && e'.queue == e.queue
    && e'.hasFunction == e.hasFunction && e'.plugin == e.plugin
  }

  predicate SameWiring(e: JobEntry, e': JobEntry) {
    e'.dependents == e.dependents && SameRequest(e, e')
  }

  /** Only threads that held a mutex have moved. */
  ghost predicate FinishersMoved(s: Sys, s': Sys) {
    && |s'.threads| == |s.threads| && |s'.jobs| == |s.jobs| && s'.creating == s.creating && s'.handles == s.handles
    && s'.queues == s.queues
    && (forall u :: 0 <= u < |s.threads| && !Finishes(s, u) ==> s'.threads[u] == s.threads[u])
    && (forall j :: 0 <= j < |s.jobs| ==> SameWiring(s.jobs[j], s'.jobs[j]))
  }

  lemma MovedTwice(s: Sys, s1: Sys, s2: Sys)
    requires FinishersMoved(s, s1) && FinishersMoved(s1, s2)
    ensures FinishersMoved(s, s2)
  {
    forall j | 0 <= j < |s.jobs| ensures SameWiring(s.jobs[j], s2.jobs[j]) {
      assert SameWiring(s.jobs[j], s1.jobs[j]) && SameWiring(s1.jobs[j], s2.jobs[j]);
    }
    forall u | 0 <= u < |s.threads| && !Finishes(s, u) ensures s2.threads[u] == s.threads[u] {
      assert s1.threads[u] == s.threads[u] && !Finishes(s1, u);
    }
  }

  /** What the other threads leave alone while `t` works: every thread that holds no mutex. */
  ghost predicate OthersStay(s: Sys, s': Sys, t: nat) {
    && |s'.threads| == |s.threads| && |s'.jobs| == |s.jobs| && s'.creating == s.creating && s'.handles == s.handles
    && (forall u :: 0 <= u < |s.threads| && u != t && !Finishes(s, u) ==> s'.threads[u] == s.threads[u])
  }

  lemma StayTwice(s: Sys, s1: Sys, s2: Sys, t: nat)
    requires OthersStay(s, s1, t) && OthersStay(s1, s2, t)
    ensures OthersStay(s, s2, t)
  {
    forall u | 0 <= u < |s.threads| && u != t && !Finishes(s, u) ensures s2.threads[u] == s.threads[u] {
      assert s1.threads[u] == s.threads[u] && !Finishes(s1, u);
    }
  }

  /** Steps of thread `t` inside `processLaunch`. */
  predicate WorkOf(a: Action, t: nat) {
    (a.ACheck? || a.ADispatch? || a.AFinishBegin? || a.AFinishNext? || a.AFinishEnd? || a.APushNext? || a.ARelease?) &&
    a.t == t
  }

  lemma OwnStepStays(s: Sys, a: Action, t: nat)
    requires WorkOf(a, t) && Step(s, a).Some?
    ensures OthersStay(s, Step(s, a).value, t)
  {
  }

  // ----- How much is left to tell

  function LeftOf(s: Sys, u: nat): nat {
    if Finishes(s, u) && s.threads[u].act.job < |s.jobs| &&
       s.threads[u].act.next <= |s.jobs[s.threads[u].act.job].dependents|
    then 1 + |s.jobs[s.threads[u].act.job].dependents| - s.threads[u].act.next else 0
  }

  /** The steps that the first `n` threads need to give up the mutexes they hold. */
  function LeftUpTo(s: Sys, n: nat): nat {
    if n == 0 then 0 else LeftUpTo(s, n - 1) + LeftOf(s, n - 1)
  }

  lemma {:induction false} LeftDrops(s: Sys, s': Sys, u: nat, n: nat)
    requires forall v: nat :: v < n && v != u ==> LeftOf(s', v) == LeftOf(s, v)
    requires LeftOf(s', u) < LeftOf(s, u)
    ensures LeftUpTo(s', n) == LeftUpTo(s, n) + if u < n then LeftOf(s', u) - LeftOf(s, u) else 0
  {
    if n == 0 {
    } else {
      LeftDrops(s, s', u, n - 1);
    }
  }

  /** A finishing step moves nobody else, and one step less is left. */
  lemma FinishingGoesOn(s: Sys, u: nat, a: Action)
    requires (a == AFinishNext(u) || a == AFinishEnd(u)) && Step(s, a).Some?
    ensures FinishersMoved(s, Step(s, a).value)
    ensures forall v :: 0 <= v < |s.threads| && v != u ==> Step(s, a).value.threads[v] == s.threads[v]
    ensures LeftUpTo(Step(s, a).value, |s.threads|) < LeftUpTo(s, |s.threads|)
  {
    var s' := Step(s, a).value;
    OneFinisherMoves(s, u, a);
    forall v: nat | v < |s.threads| && v != u ensures LeftOf(s', v) == LeftOf(s, v) {
      if Finishes(s, v) && s.threads[v].act.job < |s.jobs| {
        assert SameWiring(s.jobs[s.threads[v].act.job], s'.jobs[s.threads[v].act.job]);
      }
    }
    assert SameWiring(s.jobs[s.threads[u].act.job], s'.jobs[s.threads[u].act.job]);
    LeftDrops(s, s', u, |s.threads|);
  }

  lemma OneFinisherMoves(s: Sys, u: nat, a: Action)
    requires (a == AFinishNext(u) || a == AFinishEnd(u)) && Step(s, a).Some?
    ensures FinishersMoved(s, Step(s, a).value) && Finishes(s, u) && s.threads[u].act.job < |s.jobs|
    ensures var act, act' := s.threads[u].act, Step(s, a).value.threads[u].act;
            if a.AFinishNext? then
              act'.Finishing? && act'.job == act.job && act'.next == act.next + 1 <= |s.jobs[act.job].dependents|
            else !act'.Finishing? && act.next == |s.jobs[act.job].dependents|
    ensures forall v :: 0 <= v < |s.threads| && v != u ==> Step(s, a).value.threads[v] == s.threads[v]
  {
  }
}
