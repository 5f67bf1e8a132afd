/** Telling one dependent that its dependency has finished: the step that makes an edge fresh
    or triggers the dependent, and the invariant it keeps. */
module SchedulerTelling {
  import opened Options
  import opened LaunchQueues
  import opened Scheduling
  import opened SchedulerInvariants
  import opened SchedulerProofs
  import opened SchedulerWorkers

  /** The dependent that a finishing thread comes to next. */
  function NextTold(s: Sys, t: nat): Dependent
    requires FinishNext(s, t).Some?
  {
    s.jobs[s.threads[t].act.job].dependents[s.threads[t].act.next]
  }

  predicate Triggers(s: Sys, t: nat)
    requires FinishNext(s, t).Some?
  {
    s.jobs[NextTold(s, t).job].countdown - 1 == 0
  }

  lemma ToldIsUnused(s: Sys, h: Hist, t: nat)
    requires Inv(s, h) && FinishNext(s, t).Some?
    ensures var d, e := s.threads[t].act.job, NextTold(s, t);
            && d < |s.jobs| && h[d].holder == HeldBy(t) && TellsNow(s, h, d) && Told(s, h, d) == s.threads[t].act.next
            && LinkedFrom(s, d, e) && EdgeOf(h, e) == Unused
  {
    var d, e := s.threads[t].act.job, NextTold(s, t);
    assert ThreadInStep(s, h, t) && ShapeOfJob(s, h, d) && CountsOfJob(s, h, d);
    assert LinkedFrom(s, d, e);
  }

  /** The dependent to be told is another job, its edge is unused, and it is not active:
      it is dormant, or releasing and past this edge. */
  lemma ToldIsWaiting(s: Sys, h: Hist, t: nat)
    requires Inv(s, h) && FinishNext(s, t).Some?
    ensures var d, e := s.threads[t].act.job, NextTold(s, t);
            && h[d].holder == HeldBy(t) && TellsNow(s, h, d) && Told(s, h, d) == s.threads[t].act.next
            && LinkedFrom(s, d, e) && d < e.job && e.slot < |h[e.job].edges|
            && h[e.job].edges[e.slot] == Unused
            && (h[e.job].stage == Dormant || (h[e.job].stage.LeavingBy? && !AllOthersFresh(h, e)))
  {
    var d, e := s.threads[t].act.job, NextTold(s, t);
    ToldIsUnused(s, h, t);
    assert ShapeOfJob(s, h, e.job) && StageOfJob(s, h, e.job);
    if h[e.job].stage.LeavingBy? {
      var u := h[e.job].stage.t;
      assert ThreadInStep(s, h, u);
      assert h[e.job].edges[s.threads[u].act.next] == Consumed;
    }
  }

  predicate AllOthersFresh(h: Hist, e: Dependent)
    requires e.job < |h|
  {
    forall i :: 0 <= i < |h[e.job].edges| && i != e.slot ==> h[e.job].edges[i] == Fresh
  }

  /** A countdown reaches zero exactly when every other edge is fresh; the dependent is then
      dormant and completely linked. */
  lemma TriggerMeansAllFresh(s: Sys, h: Hist, t: nat)
    requires Inv(s, h) && FinishNext(s, t).Some?
    ensures var e := NextTold(s, t);
            && e.slot < |h[e.job].edges|
            && (Triggers(s, t) <==> AllOthersFresh(h, e))
            && (Triggers(s, t) ==> h[e.job].stage == Dormant && Linked(s, e.job) == |h[e.job].edges|)
            && CountFresh(h[e.job].edges[e.slot := Fresh]) == CountFresh(h[e.job].edges) + 1
  {
    var e := NextTold(s, t);
    ToldIsWaiting(s, h, t);
    assert ShapeOfJob(s, h, e.job) && CountsOfJob(s, h, e.job) && HistoryOfJob(s, h, e.job);
    OneMoreFresh(h[e.job].edges, e.slot);
  }

  lemma OneMoreFresh(edges: seq<Edge>, i: nat)
    requires i < |edges| && edges[i] != Fresh
    ensures CountFresh(edges[i := Fresh]) == CountFresh(edges) + 1
    ensures CountFresh(edges) + 1 == |edges| <==> forall k :: 0 <= k < |edges| && k != i ==> edges[k] == Fresh
  {
    CountFreshUpdate(edges, i, Fresh);
    CountFreshBounds(edges[i := Fresh]);
    assert forall k :: 0 <= k < |edges| && k != i ==> edges[i := Fresh][k] == edges[k];
  }

  /** Everything that telling dependent `e` of job `d` changes, and what is known of it. */
  ghost predicate Telling(s: Sys, s': Sys, h: Hist, h': Hist, t: nat, d: nat, e: Dependent, fires: bool) {
    && |h| == |s.jobs| && t < |s.threads| && d < e.job < |s.jobs|
    && s.threads[t].act.Finishing? && s.threads[t].act.job == d
    && s.threads[t].act.next < |s.jobs[d].dependents| && s.jobs[d].dependents[s.threads[t].act.next] == e
    && h[d].holder == HeldBy(t) && LinkedFrom(s, d, e)
    && e.slot < |h[e.job].edges| == |s.jobs[e.job].dependencies| && h[e.job].edges[e.slot] == Unused
    && (h[e.job].stage == Dormant || h[e.job].stage.LeavingBy?)
    && (fires ==> AllOthersFresh(h, e) && h[e.job].stage == Dormant && Linked(s, e.job) == |h[e.job].edges|)
    && (fires <==> CountFresh(h[e.job].edges) + 1 == |h[e.job].edges|)
    && CountFresh(h[e.job].edges[e.slot := Fresh]) == CountFresh(h[e.job].edges) + 1
    && s' == TellStep(s, t, e, fires)
    && h' == TellHist(h, t, e, fires)
  }

  function TellStep(s: Sys, t: nat, e: Dependent, fires: bool): Sys
    requires t < |s.threads| && s.threads[t].act.Finishing? && e.job < |s.jobs|
  {
    var act, x := s.threads[t].act, s.jobs[e.job];
    SetAct(SetJob(s, e.job, x.(countdown := if fires then |x.dependencies| else x.countdown - 1)), t,
           Finishing(act.job, act.next + 1, if fires then act.planned + [Launch(e.job, s.now)] else act.planned))
  }

  function TellHist(h: Hist, t: nat, e: Dependent, fires: bool): Hist
    requires e.job < |h| && e.slot < |h[e.job].edges|
  {
    var x := h[e.job];
    h[e.job := if fires
               then x.(edges := AllConsumed(|x.edges|), stage := PlannedBy(t), activations := x.activations + 1)
               else x.(edges := x.edges[e.slot := Fresh])]
  }

  lemma NextIsTelling(s: Sys, h: Hist, t: nat)
    requires Inv(s, h) && FinishNext(s, t).Some?
    ensures Telling(s, FinishNext(s, t).value, h, Follow(s, h, AFinishNext(t)), t, s.threads[t].act.job,
        NextTold(s, t), Triggers(s, t))
  {
    ToldIsWaiting(s, h, t);
    TriggerMeansAllFresh(s, h, t);
    NextIsTellStep(s, h, t);
    NextCountdown(s, h, t);
  }

  lemma NextIsTellStep(s: Sys, h: Hist, t: nat)
    requires |h| == |s.jobs| && FinishNext(s, t).Some?
    requires NextTold(s, t).slot < |h[NextTold(s, t).job].edges|
    ensures FinishNext(s, t).value == TellStep(s, t, NextTold(s, t), Triggers(s, t))
    ensures Follow(s, h, AFinishNext(t)) == TellHist(h, t, NextTold(s, t), Triggers(s, t))
  {
  }

  lemma NextCountdown(s: Sys, h: Hist, t: nat)
    requires Inv(s, h) && FinishNext(s, t).Some?
    requires var e := NextTold(s, t); e.slot < |s.jobs[e.job].dependencies|
    ensures var e := NextTold(s, t);
            && |h[e.job].edges| == |s.jobs[e.job].dependencies|
            && (Triggers(s, t) <==> CountFresh(h[e.job].edges) + 1 == |h[e.job].edges|)
  {
    assert ShapeOfJob(s, h, NextTold(s, t).job) && CountsOfJob(s, h, NextTold(s, t).job);
  }

  lemma TellHistEdges(h: Hist, t: nat, e: Dependent, fires: bool)
    requires e.job < |h| && e.slot < |h[e.job].edges| && (fires ==> AllOthersFresh(h, e))
    ensures var h' := TellHist(h, t, e, fires);
            && EdgeOf(h', e) != Unused
            && forall x :: x != e ==> (EdgeOf(h', x) == Unused <==> EdgeOf(h, x) == Unused)
  {
  }

  lemma TellFrame(s: Sys, s': Sys, h: Hist, h': Hist, t: nat, d: nat, e: Dependent, fires: bool)
    requires Telling(s, s', h, h', t, d, e, fires)
    requires forall x :: 0 <= x < |s.jobs| ==> StageOfJob(s, h, x)
    ensures SameFrame(s, s', h, h')
    ensures TellsNow(s, h, d) && TellsNow(s', h', d) && Told(s', h', d) == Told(s, h, d) + 1
    ensures forall x :: 0 <= x < |s.jobs| ==> h'[x].completions == h[x].completions && h'[x].holder == h[x].holder
    ensures forall x :: 0 <= x < |s.jobs| && x != d ==>
        TellsNow(s', h', x) == TellsNow(s, h, x) && Told(s', h', x) == Told(s, h, x)
  {
    forall x | 0 <= x < |s.jobs| && x != d
      ensures TellsNow(s', h', x) == TellsNow(s, h, x) && Told(s', h', x) == Told(s, h, x)
    {
      assert StageOfJob(s, h, x);
    }
  }

  lemma TellKeepsThread(s: Sys, s': Sys, h: Hist, h': Hist, t: nat, d: nat, e: Dependent, fires: bool, u: nat)
    requires Telling(s, s', h, h', t, d, e, fires) && Shape(s, h) && SameFrame(s, s', h, h')
    requires u < |s.threads| && ThreadInStep(s, h, u)
    ensures ThreadInStep(s', h', u)
  {
    if u != t {
      OtherThreadKept(s, s', h, h', u);
    } else {
      PlansKept(s, s', h, h', t, s.threads[t].act.Plans());
    }
  }

  lemma TellKeepsStage(s: Sys, s': Sys, h: Hist, h': Hist, t: nat, d: nat, e: Dependent, fires: bool, j: nat)
    requires Telling(s, s', h, h', t, d, e, fires)
    requires j < |s.jobs| && StageOfJob(s, h, j)
    ensures StageOfJob(s', h', j)
  {
    var plans, plans' := s.threads[t].act.Plans(), s'.threads[t].act.Plans();
    assert forall p :: 0 <= p < |plans| ==> plans'[p] == plans[p];
    if fires { assert plans'[|plans|].job == e.job; }
  }

  lemma TellBusy(s: Sys, s': Sys, h: Hist, h': Hist, t: nat, d: nat, e: Dependent, fires: bool, j: nat)
    requires Telling(s, s', h, h', t, d, e, fires)
    requires j < |s.jobs| && ShapeOfJob(s, h, j)
    ensures CountBusy(h', s.jobs[j].dependents) == CountBusy(h, s.jobs[j].dependents) + if j == d then 1 else 0
    ensures forall k :: 0 <= k < |s.jobs[j].dependents| && (j == d ==> k != s.threads[t].act.next) ==>
              (EdgeOf(h', s.jobs[j].dependents[k]) == Unused <==> EdgeOf(h, s.jobs[j].dependents[k]) == Unused)
  {
    var ds := s.jobs[j].dependents;
    TellHistEdges(h, t, e, fires);
    if j == d {
      CountBusyOne(h, h', ds, s.threads[t].act.next);
    } else {
      assert forall k :: 0 <= k < |ds| ==> LinkedFrom(s, j, ds[k]) && ds[k] != e;
      CountBusySame(h, h', ds);
    }
  }

  lemma TellKeepsCounts(s: Sys, s': Sys, h: Hist, h': Hist, t: nat, d: nat, e: Dependent, fires: bool, j: nat)
    requires Telling(s, s', h, h', t, d, e, fires)
    requires forall x :: 0 <= x < |s.jobs| ==> StageOfJob(s, h, x)
    requires j < |s.jobs| && ShapeOfJob(s, h, j) && CountsOfJob(s, h, j)
    ensures CountsOfJob(s', h', j)
  {
    TellFrame(s, s', h, h', t, d, e, fires);
    TellBusy(s, s', h, h', t, d, e, fires, j);
    CountFreshBounds(AllConsumed(|h[j].edges|));
  }

  /** The edge that is told hears of one more completion, the others of no more. */
  lemma TellHeard(s: Sys, s': Sys, h: Hist, h': Hist, t: nat, d: nat, e: Dependent, fires: bool, j: nat, i: nat)
    requires Telling(s, s', h, h', t, d, e, fires) && Shape(s, h) && SameFrame(s, s', h, h')
    requires forall x :: 0 <= x < |s.jobs| ==> StageOfJob(s, h, x)
    requires j < |s.jobs| && i < |s.jobs[j].dependencies| && ShapeOfJob(s, h, j) && ShapeOfJob(s', h', j)
    ensures Heard(s', h', j, i) == Heard(s, h, j, i) + if Dependent(j, i) == e then 1 else 0
  {
    TellFrame(s, s', h, h', t, d, e, fires);
    var x := s.jobs[j].dependencies[i];
    assert SameLinks(s.jobs[x], s'.jobs[x]) && SameLinks(s.jobs[j], s'.jobs[j]);
    if x == d {
      assert ShapeOfJob(s, h, d);
      AnnouncedLess(s.jobs[d].dependents, s.threads[t].act.next, Dependent(j, i));
    }
  }

  lemma AnnouncedLess(ds: seq<Dependent>, n: nat, e: Dependent)
    requires n < |ds| && forall k, l :: 0 <= k < l < |ds| ==> ds[k] != ds[l]
    ensures ds[n] !in ds[n + 1..]
    ensures e in ds[n..] <==> e == ds[n] || e in ds[n + 1..]
  {
    assert ds[n..] == [ds[n]] + ds[n + 1..];
  }

  lemma TellKeepsHistory(s: Sys, s': Sys, h: Hist, h': Hist, t: nat, d: nat, e: Dependent, fires: bool, j: nat)
    requires Telling(s, s', h, h', t, d, e, fires) && Shape(s, h) && SameFrame(s, s', h, h')
    requires forall x :: 0 <= x < |s.jobs| ==> StageOfJob(s, h, x)
    requires j < |s.jobs| && ShapeOfJob(s, h, j) && ShapeOfJob(s', h', j) && HistoryOfJob(s, h, j)
    ensures HistoryOfJob(s', h', j)
  {
    forall i | 0 <= i < Linked(s, j) && i < |h[j].edges|
      ensures Heard(s', h', j, i) == h'[j].activations + if h'[j].edges[i] == Fresh then 1 else 0
    {
      TellHeard(s, s', h, h', t, d, e, fires, j, i);
    }
    TellFrame(s, s', h, h', t, d, e, fires);
    assert TellsNow(s', h', j) == TellsNow(s, h, j);
  }

  lemma TellKeepsJob(s: Sys, s': Sys, h: Hist, h': Hist, t: nat, d: nat, e: Dependent, fires: bool, j: nat)
    requires Telling(s, s', h, h', t, d, e, fires) && Shape(s, h) && SameFrame(s, s', h, h')
    requires forall x :: 0 <= x < |s.jobs| ==> StageOfJob(s, h, x)
    requires j < |s.jobs| && CountsOfJob(s, h, j) && ShapeOfJob(s, h, j) && HistoryOfJob(s, h, j)
    ensures StageOfJob(s', h', j) && CountsOfJob(s', h', j) && ShapeOfJob(s', h', j) && HistoryOfJob(s', h', j)
  {
    FrameKeepsShapeOfJob(s, s', h, h', j);
    TellKeepsStage(s, s', h, h', t, d, e, fires, j);
    TellKeepsCounts(s, s', h, h', t, d, e, fires, j);
    TellKeepsHistory(s, s', h, h', t, d, e, fires, j);
  }

  lemma TellKeepsInv(s: Sys, h: Hist, t: nat)
    requires Inv(s, h) && FinishNext(s, t).Some?
    ensures Inv(FinishNext(s, t).value, Follow(s, h, AFinishNext(t)))
  {
    var s', h', d, e := FinishNext(s, t).value, Follow(s, h, AFinishNext(t)), s.threads[t].act.job, NextTold(s, t);
    var fires := Triggers(s, t);
    NextIsTelling(s, h, t);
    TellFrame(s, s', h, h', t, d, e, fires);
    FrameKeepsShape(s, s', h, h');
    assert QueuesInStep(s', h');
    forall u | 0 <= u < |s.threads| ensures ThreadInStep(s', h', u) {
      assert ThreadInStep(s, h, u);
      TellKeepsThread(s, s', h, h', t, d, e, fires, u);
    }
    forall j | 0 <= j < |s.jobs|
      ensures StageOfJob(s', h', j) && CountsOfJob(s', h', j) && ShapeOfJob(s', h', j) && HistoryOfJob(s', h', j)
    {
      assert CountsOfJob(s, h, j) && ShapeOfJob(s, h, j) && HistoryOfJob(s, h, j);
      TellKeepsJob(s, s', h, h', t, d, e, fires, j);
    }
  }
}
