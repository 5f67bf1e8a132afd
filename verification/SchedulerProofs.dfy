/** Every step of the scheduler keeps the invariant. */
module SchedulerProofs {
  import opened Options
  import opened LaunchQueues
  import opened Scheduling
  import opened SchedulerInvariants

  // ----- Counting

  lemma {:induction false} CountBusySame(h: Hist, h': Hist, ds: seq<Dependent>)
    requires forall k :: 0 <= k < |ds| ==> (EdgeOf(h, ds[k]) == Unused <==> EdgeOf(h', ds[k]) == Unused)
    ensures CountBusy(h, ds) == CountBusy(h', ds)
  {
    if ds == [] {
    } else {
      CountBusySame(h, h', ds[..|ds| - 1]);
    }
  }

  /** Among distinct entries only the one at `p` changes. */
  lemma {:induction false} CountBusyOne(h: Hist, h': Hist, ds: seq<Dependent>, p: nat)
    requires p < |ds|
    requires forall k :: 0 <= k < |ds| && k != p ==> (EdgeOf(h, ds[k]) == Unused <==> EdgeOf(h', ds[k]) == Unused)
    ensures CountBusy(h', ds) - CountBusy(h, ds) ==
            (if EdgeOf(h', ds[p]) == Unused then 0 else 1) - (if EdgeOf(h, ds[p]) == Unused then 0 else 1)
  {
    var front := ds[..|ds| - 1];
    if p == |front| { CountBusySame(h, h', front); } else { CountBusyOne(h, h', front, p); }
  }

  lemma {:induction false} CountBusyZero(h: Hist, ds: seq<Dependent>)
    ensures CountBusy(h, ds) == 0 <==> forall k :: 0 <= k < |ds| ==> EdgeOf(h, ds[k]) == Unused
  {
    if ds == [] {
    } else {
      CountBusyZero(h, ds[..|ds| - 1]);
      assert ds == ds[..|ds| - 1] + [ds[|ds| - 1]];
    }
  }

  lemma {:induction false} CountFreshUpdate(edges: seq<Edge>, i: nat, x: Edge)
    requires i < |edges|
    ensures CountFresh(edges[i := x]) - CountFresh(edges) ==
            (if x == Fresh then 1 else 0) - (if edges[i] == Fresh then 1 else 0)
  {
    var n := |edges| - 1;
    if i == n {
      assert edges[i := x][..n] == edges[..n];
    } else {
      CountFreshUpdate(edges[..n], i, x);
      assert edges[i := x][..n] == edges[..n][i := x];
    }
  }

  lemma {:induction false} CountFreshBounds(edges: seq<Edge>)
    ensures CountFresh(edges) <= |edges|
    ensures CountFresh(edges) == |edges| <==> forall i :: 0 <= i < |edges| ==> edges[i] == Fresh
    ensures (forall i :: 0 <= i < |edges| ==> edges[i] != Fresh) ==> CountFresh(edges) == 0
  {
    if edges == [] {
    } else {
      var n := |edges| - 1;
      CountFreshBounds(edges[..n]);
      assert forall i :: 0 <= i < n ==> edges[..n][i] == edges[i];
    }
  }

  lemma {:induction false} CountOfConcat(a: seq<Launch>, b: seq<Launch>, j: nat)
    ensures CountOf(a + b, j) == CountOf(a, j) + CountOf(b, j)
  {
    if b == [] { assert a + b == a; }
    else {
      var n := |b| - 1;
      CountOfConcat(a, b[..n], j);
      assert (a + b)[..|a + b| - 1] == a + b[..n];
    }
  }

  lemma CountOfPushed(q: seq<Launch>, l: Launch, j: nat)
    ensures CountOf(Pushed(q, l), j) == CountOf(q, j) + if l.job == j then 1 else 0
  {
    var at := LowerBound(q, l.timepoint);
    assert q == q[..at] + q[at..];
    CountOfConcat(q[..at], q[at..], j);
    CountOfConcat(q[..at] + [l], q[at..], j);
    CountOfConcat(q[..at], [l], j);
  }

  lemma CountOfWithoutAt(q: seq<Launch>, k: nat, j: nat)
    requires k < |q|
    ensures CountOf(WithoutAt(q, k), j) == CountOf(q, j) - if q[k].job == j then 1 else 0
  {
    assert q == q[..k] + [q[k]] + q[k + 1..];
    CountOfConcat(q[..k] + [q[k]], q[k + 1..], j);
    CountOfConcat(q[..k], [q[k]], j);
    CountOfConcat(q[..k], q[k + 1..], j);
  }

  // ----- Steps that change nothing the invariant looks at

  /** `s'` differs from `s` in flags, handles, the clock and the set of unloaded plugins. */
  ghost predicate SameButFlags(s: Sys, s': Sys) {
    && s'.queues == s.queues && s'.threads == s.threads && s'.creating == s.creating && |s'.jobs| == |s.jobs|
    && (forall j :: 0 <= j < |s.jobs| ==> SameEntry(s.jobs[j], s'.jobs[j]))
    && (forall i :: 0 <= i < |s'.handles| ==>
          s'.handles[i] < |s.jobs| && (s.creating.Some? ==> s'.handles[i] != s.creating.value.job))
  }

  predicate SameEntry(e: JobEntry, e': JobEntry) {
    && e'.dependencies == e.dependencies && e'.countdown == e.countdown && e'.dependents == e.dependents
    && e'.usage == e.usage && e'.queue == e.queue
    && (e'.destructionPended ==> e.destructionPended || e.dependencies == [])
  }

  lemma FlagsKeepShape(s: Sys, s': Sys, h: Hist)
    requires Inv(s, h) && SameButFlags(s, s')
    ensures Shape(s', h)
  {
    forall j | 0 <= j < |s.jobs| ensures ShapeOfJob(s', h, j) { assert ShapeOfJob(s, h, j); }
  }

  lemma FlagsKeepThreads(s: Sys, s': Sys, h: Hist, t: nat)
    requires Inv(s, h) && SameButFlags(s, s') && t < |s.threads|
    ensures ThreadInStep(s', h, t)
  {
    assert ThreadInStep(s, h, t);
  }

  lemma FlagsKeepJob(s: Sys, s': Sys, h: Hist, j: nat)
    requires Inv(s, h) && SameButFlags(s, s') && j < |s.jobs|
    ensures StageOfJob(s', h, j) && CountsOfJob(s', h, j)
  {
    assert StageOfJob(s, h, j) && CountsOfJob(s, h, j);
  }

  lemma FlagsKeepHistory(s: Sys, s': Sys, h: Hist, j: nat)
    requires |h| == |s.jobs| && SameButFlags(s, s') && j < |s.jobs| && ShapeOfJob(s, h, j) && HistoryOfJob(s, h, j)
    ensures ShapeOfJob(s', h, j) && HistoryOfJob(s', h, j)
  {
    assert forall x :: 0 <= x < |s.jobs| ==> SameEntry(s.jobs[x], s'.jobs[x]);
  }

  lemma FlagsKeepInv(s: Sys, s': Sys, h: Hist)
    requires Inv(s, h) && SameButFlags(s, s')
    ensures Inv(s', h)
  {
    FlagsKeepShape(s, s', h);
    forall t | 0 <= t < |s.threads| { FlagsKeepThreads(s, s', h, t); }
    forall j | 0 <= j < |s.jobs|
      ensures StageOfJob(s', h, j) && CountsOfJob(s', h, j) && ShapeOfJob(s', h, j) && HistoryOfJob(s', h, j)
    {
      FlagsKeepJob(s, s', h, j);
      assert ShapeOfJob(s, h, j) && HistoryOfJob(s, h, j);
      FlagsKeepHistory(s, s', h, j);
    }
  }

  // ----- A thread moves on with the job it holds

  ghost predicate MovesOn(s: Sys, t: nat, act: Activity) {
    && t < |s.threads| && s.threads[t].act.Holding() && !s.threads[t].act.Finishing?
    && act.Holding() && !act.Finishing? && act.job == s.threads[t].act.job
  }

  lemma MoveKeepsShape(s: Sys, h: Hist, t: nat, act: Activity)
    requires Inv(s, h) && MovesOn(s, t, act)
    ensures Shape(SetAct(s, t, act), h)
  {
    var s' := SetAct(s, t, act);
    forall j | 0 <= j < |s.jobs| ensures ShapeOfJob(s', h, j) { assert ShapeOfJob(s, h, j); }
  }

  lemma MoveKeepsThread(s: Sys, h: Hist, t: nat, act: Activity, u: nat)
    requires Inv(s, h) && MovesOn(s, t, act) && u < |s.threads|
    ensures ThreadInStep(SetAct(s, t, act), h, u)
  {
    assert ThreadInStep(s, h, u) && ThreadInStep(s, h, t);
  }

  lemma MoveKeepsStage(s: Sys, h: Hist, t: nat, act: Activity, j: nat)
    requires Inv(s, h) && MovesOn(s, t, act) && j < |s.jobs|
    ensures StageOfJob(SetAct(s, t, act), h, j)
  {
    assert StageOfJob(s, h, j) && ThreadInStep(s, h, t);
  }

  lemma MoveKeepsCounts(s: Sys, h: Hist, t: nat, act: Activity, j: nat)
    requires Inv(s, h) && MovesOn(s, t, act) && j < |s.jobs|
    ensures CountsOfJob(SetAct(s, t, act), h, j)
  {
    assert CountsOfJob(s, h, j) && StageOfJob(s, h, j);
    assert TellsNow(SetAct(s, t, act), h, j) == TellsNow(s, h, j);
  }

  lemma MoveKeepsHistory(s: Sys, h: Hist, t: nat, act: Activity, j: nat)
    requires Inv(s, h) && MovesOn(s, t, act) && j < |s.jobs|
    ensures ShapeOfJob(SetAct(s, t, act), h, j) && HistoryOfJob(SetAct(s, t, act), h, j)
  {
    var s' := SetAct(s, t, act);
    assert ShapeOfJob(s, h, j) && HistoryOfJob(s, h, j);
    assert forall d :: 0 <= d < |s.jobs| ==> TellsNow(s', h, d) == TellsNow(s, h, d) && Told(s', h, d) == Told(s, h, d);
  }

  lemma MoveKeepsInv(s: Sys, h: Hist, t: nat, act: Activity)
    requires Inv(s, h) && MovesOn(s, t, act)
    ensures Inv(SetAct(s, t, act), h)
  {
    var s' := SetAct(s, t, act);
    MoveKeepsShape(s, h, t, act);
    forall u | 0 <= u < |s.threads| ensures ThreadInStep(s', h, u) { MoveKeepsThread(s, h, t, act, u); }
    forall j | 0 <= j < |s.jobs|
      ensures StageOfJob(s', h, j) && CountsOfJob(s', h, j) && ShapeOfJob(s', h, j) && HistoryOfJob(s', h, j)
    {
      MoveKeepsStage(s, h, t, act, j);
      MoveKeepsCounts(s, h, t, act, j);
      MoveKeepsHistory(s, h, t, act, j);
    }
  }

  // ----- A launch of a dependency-free job enters its queue

  lemma EnqueueKeepsInv(s: Sys, h: Hist, l: Launch)
    requires Inv(s, h) && Enqueued(s, l).Some? && s.jobs[l.job].dependencies == []
    ensures Inv(Enqueued(s, l).value, h)
  {
    var s' := Enqueued(s, l).value;
    assert OnlyQueues(s, s');
    forall j | 0 <= j < |s.jobs|
      ensures StageOfJob(s', h, j) && CountsOfJob(s', h, j) && ShapeOfJob(s', h, j) && HistoryOfJob(s', h, j)
    {
      assert StageOfJob(s, h, j) && CountsOfJob(s, h, j) && ShapeOfJob(s, h, j) && HistoryOfJob(s, h, j);
      QueuesKeepJob(s, s', h, j);
    }
    forall u | 0 <= u < |s.threads| ensures ThreadInStep(s', h, u) {
      assert ThreadInStep(s, h, u);
      QueuesKeepThread(s, s', h, u);
    }
    EnqueueKeepsQueues(s, h, l);
  }

  ghost predicate OnlyQueues(s: Sys, s': Sys) {
    s' == s.(queues := s'.queues) && |s'.queues| == |s.queues|
  }

  lemma QueuesKeepJob(s: Sys, s': Sys, h: Hist, j: nat)
    requires |h| == |s.jobs| && OnlyQueues(s, s') && j < |s.jobs|
    requires StageOfJob(s, h, j) && CountsOfJob(s, h, j) && ShapeOfJob(s, h, j) && HistoryOfJob(s, h, j)
    ensures StageOfJob(s', h, j) && CountsOfJob(s', h, j) && ShapeOfJob(s', h, j) && HistoryOfJob(s', h, j)
  {
  }

  lemma QueuesKeepThread(s: Sys, s': Sys, h: Hist, u: nat)
    requires |h| == |s.jobs| && OnlyQueues(s, s') && u < |s.threads| && ThreadInStep(s, h, u)
    ensures ThreadInStep(s', h, u)
  {
  }

  lemma EnqueueKeepsQueues(s: Sys, h: Hist, l: Launch)
    requires Inv(s, h) && Enqueued(s, l).Some? && s.jobs[l.job].dependencies == []
    ensures QueuesInStep(Enqueued(s, l).value, h)
  {
    var q := s.jobs[l.job].queue.value;
    var s' := Enqueued(s, l).value;
    forall j | 0 <= j < |s.jobs| { CountOfPushed(s.queues[q], l, j); }
    assert forall k :: 0 <= k < |s'.queues[q]| ==> s'.queues[q][k] == l || s'.queues[q][k] in s.queues[q];
  }

  // ----- Creating a job: the new entry

  ghost predicate Begins(s: Sys, r: JobRequest, deps: seq<nat>) {
    s.creating.None? && RequestedDependencies(s, r) == Some(deps)
  }

  function Newborn(deps: seq<nat>): JobHist {
    JobHist(seq(|deps|, _ => Unused), seq(|deps|, _ => 0), Free, Dormant, 0, 0)
  }

  lemma BeginKeepsShape(s: Sys, h: Hist, r: JobRequest, deps: seq<nat>)
    requires Inv(s, h) && Begins(s, r, deps)
    ensures Shape(CreateBegin(s, r).value, h + [Newborn(deps)])
  {
    var s', h' := CreateBegin(s, r).value, h + [Newborn(deps)];
    assert forall i :: 0 <= i < |deps| ==> deps[i] < |s.jobs|;
    forall j | 0 <= j < |s'.jobs| ensures ShapeOfJob(s', h', j) {
      if j < |s.jobs| {
        assert ShapeOfJob(s, h, j);
        forall k | 0 <= k < |s.jobs[j].dependents| ensures LinkedFrom(s', j, s.jobs[j].dependents[k]) {
          assert LinkedFrom(s, j, s.jobs[j].dependents[k]);
        }
      }
    }
  }

  lemma BeginKeepsOldJob(s: Sys, h: Hist, r: JobRequest, deps: seq<nat>, j: nat)
    requires Inv(s, h) && Begins(s, r, deps) && j < |s.jobs|
    ensures var s', h' := CreateBegin(s, r).value, h + [Newborn(deps)];
            StageOfJob(s', h', j) && CountsOfJob(s', h', j)
  {
    var h' := h + [Newborn(deps)];
    assert StageOfJob(s, h, j) && CountsOfJob(s, h, j) && ShapeOfJob(s, h, j);
    forall k | 0 <= k < |s.jobs[j].dependents|
      ensures EdgeOf(h', s.jobs[j].dependents[k]) == EdgeOf(h, s.jobs[j].dependents[k])
    {
      assert LinkedFrom(s, j, s.jobs[j].dependents[k]);
    }
    CountBusySame(h, h', s.jobs[j].dependents);
  }

  lemma BeginKeepsOldHistory(s: Sys, h: Hist, r: JobRequest, deps: seq<nat>, j: nat)
    requires Inv(s, h) && Begins(s, r, deps) && j < |s.jobs|
    ensures var s', h' := CreateBegin(s, r).value, h + [Newborn(deps)];
            (ShapeOfJob(s', h', j) ==> HistoryOfJob(s', h', j))
  {
    var s', h' := CreateBegin(s, r).value, h + [Newborn(deps)];
    assert ShapeOfJob(s, h, j) && HistoryOfJob(s, h, j);
    assert forall d :: 0 <= d < |s.jobs| ==>
        s'.jobs[d] == s.jobs[d] && h'[d] == h[d] && Told(s', h', d) == Told(s, h, d);
  }

  lemma BeginMakesNewJob(s: Sys, h: Hist, r: JobRequest, deps: seq<nat>)
    requires Inv(s, h) && Begins(s, r, deps)
    ensures var s', h', j := CreateBegin(s, r).value, h + [Newborn(deps)], |s.jobs|;
            StageOfJob(s', h', j) && CountsOfJob(s', h', j) && (ShapeOfJob(s', h', j) ==> HistoryOfJob(s', h', j))
  {
    CountFreshBounds(seq(|deps|, _ => Unused));
  }

  lemma {:induction false} CountOfAbsent(q: seq<Launch>, j: nat)
    requires forall k :: 0 <= k < |q| ==> q[k].job != j
    ensures CountOf(q, j) == 0
  {
    if q == [] {
    } else {
      CountOfAbsent(q[..|q| - 1], j);
    }
  }

  lemma BeginKeepsInv(s: Sys, h: Hist, r: JobRequest, deps: seq<nat>)
    requires Inv(s, h) && Begins(s, r, deps)
    ensures Inv(CreateBegin(s, r).value, h + [Newborn(deps)])
  {
    var s', h' := CreateBegin(s, r).value, h + [Newborn(deps)];
    BeginKeepsShape(s, h, r, deps);
    forall u | 0 <= u < |s.threads| ensures ThreadInStep(s', h', u) {
      assert ThreadInStep(s, h, u);
      forall p | 0 <= p < |s.threads[u].act.Plans()| ensures PlanInStep(s', h', u, s.threads[u].act.Plans()[p].job) {
        assert PlanInStep(s, h, u, s.threads[u].act.Plans()[p].job);
      }
    }
    BeginKeepsQueues(s, h, r, deps);
    BeginMakesNewJob(s, h, r, deps);
    forall j | 0 <= j < |s'.jobs|
      ensures StageOfJob(s', h', j) && CountsOfJob(s', h', j) && ShapeOfJob(s', h', j) && HistoryOfJob(s', h', j)
    {
      assert ShapeOfJob(s', h', j);
      if j < |s.jobs| {
        BeginKeepsOldJob(s, h, r, deps, j);
        BeginKeepsOldHistory(s, h, r, deps, j);
      }
    }
  }

  lemma BeginKeepsQueues(s: Sys, h: Hist, r: JobRequest, deps: seq<nat>)
    requires Inv(s, h) && Begins(s, r, deps)
    ensures QueuesInStep(CreateBegin(s, r).value, h + [Newborn(deps)])
  {
    CountOfAbsent(s.queues[0], |s.jobs|);
  }

  // ----- Creating a job: one link

  /** The history after a link. */
  function LinkHist(s: Sys, h: Hist): Hist
    requires |h| == |s.jobs| && CreateLink(s).Some?
  {
    Follow(s, h, ACreateLink)
  }

  /** Nobody is telling the dependents of a job whose mutex is free. */
  lemma UnlockedTellsNobody(s: Sys, h: Hist, d: nat)
    requires Inv(s, h) && d < |s.jobs| && Unlocked(s, d)
    ensures !TellsNow(s, h, d)
  {
    assert StageOfJob(s, h, d);
  }

  lemma LinkKeepsShape(s: Sys, h: Hist)
    requires Shape(s, h) && CreateLink(s).Some?
    ensures Shape(CreateLink(s).value, LinkHist(s, h))
  {
    var s', h', c := CreateLink(s).value, LinkHist(s, h), s.creating.value;
    assert ShapeOfJob(s, h, c.job);
    forall j | 0 <= j < |s.jobs| ensures ShapeOfJob(s', h', j) {
      LinkKeepsShapeOfJob(s, h, j);
    }
    forall j, i | 0 <= j < |s.jobs| && 0 <= i < Linked(s', j) && i < |s.jobs[j].dependencies|
      ensures Dependent(j, i) in s'.jobs[s.jobs[j].dependencies[i]].dependents
    {
      if j != c.job || i != c.next { assert Dependent(j, i) in s.jobs[s.jobs[j].dependencies[i]].dependents; }
    }
  }

  lemma LinkKeepsShapeOfJob(s: Sys, h: Hist, j: nat)
    requires Shape(s, h) && CreateLink(s).Some? && j < |s.jobs|
    ensures ShapeOfJob(CreateLink(s).value, LinkHist(s, h), j)
  {
    var s', c := CreateLink(s).value, s.creating.value;
    assert ShapeOfJob(s, h, j);
    forall k | 0 <= k < |s'.jobs[j].dependents| ensures LinkedFrom(s', j, s'.jobs[j].dependents[k]) {
      if k < |s.jobs[j].dependents| { assert LinkedFrom(s, j, s.jobs[j].dependents[k]); }
    }
    forall k | 0 <= k < |s.jobs[j].dependents| ensures s.jobs[j].dependents[k] != Dependent(c.job, c.next) {
      assert LinkedFrom(s, j, s.jobs[j].dependents[k]);
    }
  }

  lemma LinkKeepsThread(s: Sys, h: Hist, u: nat)
    requires Inv(s, h) && CreateLink(s).Some? && u < |s.threads|
    ensures ThreadInStep(CreateLink(s).value, LinkHist(s, h), u)
  {
    var s', h' := CreateLink(s).value, LinkHist(s, h);
    assert ThreadInStep(s, h, u);
    forall p | 0 <= p < |s.threads[u].act.Plans()| ensures PlanInStep(s', h', u, s.threads[u].act.Plans()[p].job) {
      assert PlanInStep(s, h, u, s.threads[u].act.Plans()[p].job);
    }
  }

  lemma LinkKeepsStage(s: Sys, h: Hist, j: nat)
    requires Inv(s, h) && CreateLink(s).Some? && j < |s.jobs|
    ensures StageOfJob(CreateLink(s).value, LinkHist(s, h), j)
  {
    assert StageOfJob(s, h, j);
  }

  lemma LinkKeepsCounts(s: Sys, h: Hist, j: nat)
    requires Inv(s, h) && CreateLink(s).Some? && j < |s.jobs|
    ensures CountsOfJob(CreateLink(s).value, LinkHist(s, h), j)
  {
    LinkKeepsTelling(s, h, j);
    assert CountsOfJob(s, h, j) && ShapeOfJob(s, h, s.creating.value.job) && HistoryOfJob(s, h, s.creating.value.job);
    LinkAddsQuietEntry(s, CreateLink(s).value, h, LinkHist(s, h), j,
        Dependent(s.creating.value.job, s.creating.value.next));
  }

  /** At most one more entry, whose edge is unused. */
  lemma LinkAddsQuietEntry(s: Sys, s': Sys, h: Hist, h': Hist, j: nat, e: Dependent)
    requires |h| == |s.jobs| == |h'| == |s'.jobs| && j < |s.jobs| && CountsOfJob(s, h, j)
    requires s'.jobs[j] == s.jobs[j].(dependents := s'.jobs[j].dependents)
    requires s'.jobs[j].dependents == s.jobs[j].dependents ||
             (s'.jobs[j].dependents == s.jobs[j].dependents + [e] && !TellsNow(s, h, j))
    requires h'[j].holder == h[j].holder && h'[j].edges == h[j].edges
    requires EdgeOf(h, e) == Unused && forall x :: EdgeOf(h', x) == EdgeOf(h, x)
    requires TellsNow(s', h', j) == TellsNow(s, h, j) && (TellsNow(s, h, j) ==> Told(s', h', j) == Told(s, h, j))
    ensures CountsOfJob(s', h', j)
  {
    CountBusySame(h, h', s.jobs[j].dependents);
    if s'.jobs[j].dependents != s.jobs[j].dependents {
      assert s'.jobs[j].dependents[..|s.jobs[j].dependents|] == s.jobs[j].dependents;
    }
  }

  lemma LinkKeepsTelling(s: Sys, h: Hist, x: nat)
    requires Inv(s, h) && CreateLink(s).Some? && x < |s.jobs|
    ensures var s', h', d := CreateLink(s).value, LinkHist(s, h),
        s.jobs[s.creating.value.job].dependencies[s.creating.value.next];
            && h'[x].completions == h[x].completions && h'[x].holder == h[x].holder
            && (x == d ==> !TellsNow(s, h, d) && forall e :: !Announced(s, h, d, e))
            && TellsNow(s', h', x) == TellsNow(s, h, x)
            && (x != d ==> s'.jobs[x] == s.jobs[x] && Told(s', h', x) == Told(s, h, x))
            && (forall e :: Announced(s', h', x, e) <==> Announced(s, h, x, e))
  {
    if x == s.jobs[s.creating.value.job].dependencies[s.creating.value.next] { UnlockedTellsNobody(s, h, x); }
  }

  lemma LinkKeepsHistory(s: Sys, h: Hist, j: nat)
    requires Inv(s, h) && CreateLink(s).Some? && j < |s.jobs|
    ensures ShapeOfJob(CreateLink(s).value, LinkHist(s, h), j) && HistoryOfJob(CreateLink(s).value, LinkHist(s, h), j)
  {
    assert ShapeOfJob(s, h, j) && HistoryOfJob(s, h, j);
    forall x | 0 <= x < |s.jobs|
      ensures LinkHist(s, h)[x].completions == h[x].completions
      ensures TellsNow(CreateLink(s).value, LinkHist(s, h), x) == TellsNow(s, h, x)
      ensures forall e :: Announced(CreateLink(s).value, LinkHist(s, h), x, e) <==> Announced(s, h, x, e)
    {
      LinkKeepsTelling(s, h, x);
    }
    LinkKeepsTelling(s, h, s.jobs[s.creating.value.job].dependencies[s.creating.value.next]);
    LinkKeepsShapeOfJob(s, h, j);
    LinkExtendsHistory(s, CreateLink(s).value, h, LinkHist(s, h), j);
  }

  /** One more linked edge, with the dependency's completions as its base. */
  lemma LinkExtendsHistory(s: Sys, s': Sys, h: Hist, h': Hist, j: nat)
    requires |h| == |s.jobs| == |h'| == |s'.jobs| && j < |s.jobs|
    requires ShapeOfJob(s, h, j) && ShapeOfJob(s', h', j) && HistoryOfJob(s, h, j)
    requires s'.jobs[j].dependencies == s.jobs[j].dependencies
    requires forall x :: 0 <= x < |s.jobs| ==>
        h'[x].completions == h[x].completions && TellsNow(s', h', x) == TellsNow(s, h, x)
    requires forall x, e :: 0 <= x < |s.jobs| ==> (Announced(s', h', x, e) <==> Announced(s, h, x, e))
    requires h'[j] == h[j].(base := h'[j].base)
    requires forall i :: 0 <= i < Linked(s, j) && i < |h[j].base| ==> h'[j].base[i] == h[j].base[i]
    requires Linked(s, j) <= Linked(s', j) <= Linked(s, j) + 1
    requires Linked(s', j) == Linked(s, j) + 1 && Linked(s, j) < |h[j].base| ==>
               var d := s.jobs[j].dependencies[Linked(s, j)];
               h'[j].base[Linked(s, j)] == h[d].completions && !Announced(s, h, d, Dependent(j, Linked(s, j)))
    ensures HistoryOfJob(s', h', j)
  {
    forall i | 0 <= i < Linked(s', j) && i < |h[j].edges|
      ensures Heard(s', h', j, i) == h'[j].activations + if h'[j].edges[i] == Fresh then 1 else 0
    {
      if i < Linked(s, j) { assert Heard(s', h', j, i) == Heard(s, h, j, i); }
    }
  }

  lemma LinkKeepsInv(s: Sys, h: Hist)
    requires Inv(s, h) && CreateLink(s).Some?
    ensures Inv(CreateLink(s).value, LinkHist(s, h))
  {
    var s', h' := CreateLink(s).value, LinkHist(s, h);
    LinkKeepsShape(s, h);
    forall u | 0 <= u < |s.threads| ensures ThreadInStep(s', h', u) { LinkKeepsThread(s, h, u); }
    forall j | 0 <= j < |s.jobs|
      ensures StageOfJob(s', h', j) && CountsOfJob(s', h', j) && ShapeOfJob(s', h', j) && HistoryOfJob(s', h', j)
    {
      LinkKeepsStage(s, h, j);
      LinkKeepsCounts(s, h, j);
      LinkKeepsHistory(s, h, j);
    }
  }

  // ----- Creating a job: the handle, and the thread of a long job

  lemma EndKeepsShape(s: Sys, h: Hist)
    requires Inv(s, h) && CreateEnd(s).Some?
    ensures Shape(CreateEnd(s).value, h)
  {
    var s' := CreateEnd(s).value;
    forall j | 0 <= j < |s.jobs| ensures ShapeOfJob(s', h, j) {
      assert ShapeOfJob(s, h, j);
      forall k | 0 <= k < |s'.jobs[j].dependents| ensures LinkedFrom(s', j, s'.jobs[j].dependents[k]) {
        assert LinkedFrom(s, j, s.jobs[j].dependents[k]);
      }
    }
  }

  lemma EndKeepsThread(s: Sys, h: Hist, u: nat)
    requires Inv(s, h) && CreateEnd(s).Some? && u < |CreateEnd(s).value.threads|
    ensures ThreadInStep(CreateEnd(s).value, h, u)
  {
    if u < |s.threads| {
      assert ThreadInStep(s, h, u);
      forall p | 0 <= p < |s.threads[u].act.Plans()|
        ensures PlanInStep(CreateEnd(s).value, h, u, s.threads[u].act.Plans()[p].job)
      {
        assert PlanInStep(s, h, u, s.threads[u].act.Plans()[p].job);
      }
    }
  }

  lemma EndKeepsStage(s: Sys, h: Hist, j: nat)
    requires Inv(s, h) && CreateEnd(s).Some? && j < |s.jobs|
    ensures StageOfJob(CreateEnd(s).value, h, j)
  {
    assert StageOfJob(s, h, j);
  }

  lemma EndKeepsCounts(s: Sys, h: Hist, j: nat)
    requires Inv(s, h) && CreateEnd(s).Some? && j < |s.jobs|
    ensures CountsOfJob(CreateEnd(s).value, h, j)
  {
    assert CountsOfJob(s, h, j) && StageOfJob(s, h, j);
    assert TellsNow(CreateEnd(s).value, h, j) == TellsNow(s, h, j);
  }

  lemma EndKeepsHistory(s: Sys, h: Hist, j: nat)
    requires Inv(s, h) && CreateEnd(s).Some? && j < |s.jobs|
    ensures ShapeOfJob(CreateEnd(s).value, h, j) && HistoryOfJob(CreateEnd(s).value, h, j)
  {
    var s' := CreateEnd(s).value;
    EndKeepsShape(s, h);
    assert ShapeOfJob(s, h, j) && HistoryOfJob(s, h, j);
    assert forall x :: 0 <= x < |s.jobs| ==> StageOfJob(s, h, x);
    assert forall x :: 0 <= x < |s.jobs| ==> TellsNow(s', h, x) == TellsNow(s, h, x) && Told(s', h, x) == Told(s, h, x);
    assert forall x :: 0 <= x < |s.jobs| ==>
        s'.jobs[x].dependents == s.jobs[x].dependents && Linked(s', x) == Linked(s, x);
  }

  lemma EndKeepsQueues(s: Sys, h: Hist)
    requires Inv(s, h) && CreateEnd(s).Some?
    ensures QueuesInStep(CreateEnd(s).value, h)
  {
    var s', c := CreateEnd(s).value, s.creating.value;
    assert ShapeOfJob(s, h, c.job);
    forall j | 0 <= j < |s.jobs| && s'.jobs[j].queue.Some? && s'.jobs[j].queue.value < |s'.queues|
        && s.jobs[j].dependencies != []
      ensures CountOf(s'.queues[s'.jobs[j].queue.value], j) == if h[j].stage == Queued then 1 else 0
    {
      assert ShapeOfJob(s, h, j);
      if j == c.job && c.long { assert CountOf([], j) == 0; }
    }
  }

  lemma EndKeepsInv(s: Sys, h: Hist)
    requires Inv(s, h) && CreateEnd(s).Some?
    ensures Inv(CreateEnd(s).value, h)
  {
    var s' := CreateEnd(s).value;
    EndKeepsShape(s, h);
    EndKeepsQueues(s, h);
    forall u | 0 <= u < |s'.threads| ensures ThreadInStep(s', h, u) { EndKeepsThread(s, h, u); }
    forall j | 0 <= j < |s.jobs|
      ensures StageOfJob(s', h, j) && CountsOfJob(s', h, j) && ShapeOfJob(s', h, j) && HistoryOfJob(s', h, j)
    {
      EndKeepsStage(s, h, j);
      EndKeepsCounts(s, h, j);
      EndKeepsHistory(s, h, j);
    }
  }
}
