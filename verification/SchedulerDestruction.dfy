/** Destroying a job that has dependencies: the source gives back usages that nobody took. */
module SchedulerDestruction {
  import opened Options
  import opened LaunchQueues
  import opened Scheduling
  import opened SchedulerInvariants
  import opened SchedulerProofs
  import opened SchedulerWorkers
  import opened SchedulerTelling
  import opened SchedulerTheorems
  import opened SchedulerProgress
  import opened SchedulerWaits
  import opened SchedulerLocks

  // ----- An execution

  /** The destruction launch of a dependent that was never triggered gives back a usage that
      nobody took: the counter of its dependency drops below zero. */
  lemma DestroyingDependentUnderflows() returns (trace: seq<Sys>, actions: seq<Action>)
    ensures IsExecution(trace, actions) && |trace[|actions|].jobs| == 2 && trace[|actions|].jobs[0].usage == -1
    ensures forall i :: 0 <= i < |actions| && actions[i].ADestroy? ==> actions[i] == ADestroy(1)
  {
    trace, actions := DestroyedReleases();
    var p := Entry([0], 1, [], 0).(destructionPended := true, destroyed := true);
    trace, actions := Extend(trace, actions, ARelease(0), OneThread([Entry([], 0, [], -1), p], [0, 1], [], Idle, None));
  }

  lemma DestroyedReleases() returns (trace: seq<Sys>, actions: seq<Action>)
    ensures IsExecution(trace, actions)
    ensures forall i :: 0 <= i < |actions| && actions[i].ADestroy? ==> actions[i] == ADestroy(1)
    ensures var d := Entry([], 0, [Dependent(1, 0)], 0);
            var p := Entry([0], 1, [], 0).(destructionPended := true, destroyed := true);
            trace[|actions|] == OneThread([d, p], [0, 1], [], Releasing(1, 0), None)
  {
    trace, actions := DestroyedFinishes();
    var d, p := Entry([], 0, [Dependent(1, 0)], 0), Entry([0], 1, [], 0).(destructionPended := true, destroyed := true);
    trace, actions := Extend(trace, actions, AFinishEnd(0), OneThread([d, p], [0, 1], [], Releasing(1, 0), None));
  }

  lemma DestroyedFinishes() returns (trace: seq<Sys>, actions: seq<Action>)
    ensures IsExecution(trace, actions)
    ensures forall i :: 0 <= i < |actions| && actions[i].ADestroy? ==> actions[i] == ADestroy(1)
    ensures var d := Entry([], 0, [Dependent(1, 0)], 0);
            var p := Entry([0], 1, [], 0).(destructionPended := true, destroyed := true);
            trace[|actions|] == OneThread([d, p.(usage := 1)], [0, 1], [], Finishing(1, 0, []), None)
  {
    trace, actions := DependentDestroyed();
    var d, p := Entry([], 0, [Dependent(1, 0)], 0), Entry([0], 1, [], 0).(destructionPended := true);
    trace, actions := WalkToFinishing(trace, actions, [d, p], [0, 1], 1, None);
    assert [d, p][1 := p.(usage := 1, destroyed := true)] == [d, p.(usage := 1, destroyed := true)];
  }

  lemma DependentDestroyed() returns (trace: seq<Sys>, actions: seq<Action>)
    ensures IsExecution(trace, actions)
    ensures forall i :: 0 <= i < |actions| && actions[i].ADestroy? ==> actions[i] == ADestroy(1)
    ensures var d, p := Entry([], 0, [Dependent(1, 0)], 0), Entry([0], 1, [], 0).(destructionPended := true);
            trace[|actions|] == OneThread([d, p], [0, 1], [L1], Idle, None)
  {
    var d, e := Entry([], 0, [Dependent(1, 0)], 0), Entry([0], 1, [], 0);
    trace, actions := FirstJobCreated();
    trace, actions := SecondJobLinked(trace, actions, [0], [], false);
    trace, actions := Extend(trace, actions, ACreateEnd, OneThread([d, e], [0, 1], [], Idle, None));
    trace, actions := Extend(trace, actions, ADestroy(1),
                             OneThread([d, e.(destructionPended := true)], [0, 1], [L1], Idle, None));
  }

  // ----- One release

  lemma {:induction false} CountBusyConcat(h: Hist, a: seq<Dependent>, b: seq<Dependent>)
    ensures CountBusy(h, a + b) == CountBusy(h, a) + CountBusy(h, b)
  {
    if b == [] {
      assert a + b == a;
    } else {
      var n := |b| - 1;
      CountBusyConcat(h, a, b[..n]);
      assert (a + b)[..|a + b| - 1] == a + b[..n];
    }
  }

  /** What thread `t` releases next, and for whom. */
  ghost predicate ReleasesEdge(s: Sys, h: Hist, t: nat, d: nat, e: Dependent) {
    && Release(s, t).Some? && |h| == |s.jobs| && e == Dependent(s.threads[t].act.job, s.threads[t].act.next)
    && d == s.jobs[e.job].dependencies[e.slot] && d != e.job && e.slot < |h[e.job].edges|
  }

  /** The books of `d` name each of its edges once, the one to `e` among them. */
  ghost predicate BooksName(s: Sys, h: Hist, d: nat, e: Dependent) {
    && d < |s.jobs| == |h| && CountsOfJob(s, h, d) && e in s.jobs[d].dependents
    && (forall k, l :: 0 <= k < l < |s.jobs[d].dependents| ==> s.jobs[d].dependents[k] != s.jobs[d].dependents[l])
  }

  /** The entry that is erased when `j` is being destroyed. */
  function FirstOf(ds: seq<Dependent>, j: nat): Option<Dependent> {
    if ds == [] then None else if ds[0].job == j then Some(ds[0]) else FirstOf(ds[1..], j)
  }

  function Busy(h: Hist, e: Dependent): nat { if EdgeOf(h, e) != Unused then 1 else 0 }

  /** How many busy edges leave the books: the released one, and the erased one when the
      dependency is named twice and another of its entries comes first. */
  function Leaving(s: Sys, h: Hist, d: nat, e: Dependent): nat
    requires d < |s.jobs| && e.job < |s.jobs|
  {
    var first := FirstOf(s.jobs[d].dependents, e.job);
    Busy(h, e) + if s.jobs[e.job].destructionPended && first.Some? && first.value != e then Busy(h, first.value) else 0
  }

  lemma {:induction false} ErasedCount(h: Hist, ds: seq<Dependent>, j: nat)
    ensures CountBusy(h, Erased(ds, j)) ==
            CountBusy(h, ds) - match FirstOf(ds, j) case None => 0 case Some(x) => Busy(h, x)
    ensures FirstOf(ds, j).Some? ==> FirstOf(ds, j).value in ds
    ensures forall x :: x in Erased(ds, j) ==> x in ds
  {
    if ds == [] {
    } else {
      assert ds == [ds[0]] + ds[1..];
      CountBusyConcat(h, [ds[0]], ds[1..]);
      if ds[0].job != j {
        ErasedCount(h, ds[1..], j);
        CountBusyConcat(h, [ds[0]], Erased(ds[1..], j));
      } else {
        assert [ds[0]][..0] == [];
      }
    }
  }

  /** How the books of `d` change. */
  lemma ReleaseBooks(s: Sys, h: Hist, t: nat, d: nat, e: Dependent)
    requires ReleasesEdge(s, h, t, d, e) && BooksName(s, h, d, e)
    ensures var s', h' := Release(s, t).value, Follow(s, h, ARelease(t));
            && CountBusy(h', s'.jobs[d].dependents) == CountBusy(h, s.jobs[d].dependents) - Leaving(s, h, d, e)
            && s'.jobs[d].usage == s.jobs[d].usage - 1 && h'[d].holder == h[d].holder
            && (forall x :: x in s'.jobs[d].dependents ==> x in s.jobs[d].dependents)
            && (forall x :: EdgeOf(h, x) == Unused ==> EdgeOf(h', x) == Unused)
  {
    ReleaseEffect(s, h, t, d, e);
    var h', ds := Follow(s, h, ARelease(t)), s.jobs[d].dependents;
    CountAfterRelease(h, h', ds, e, s.jobs[e.job].destructionPended);
  }

  /** What the release does to the dependency and to the edges. */
  lemma ReleaseEffect(s: Sys, h: Hist, t: nat, d: nat, e: Dependent)
    requires ReleasesEdge(s, h, t, d, e) && d < |s.jobs|
    ensures var s', h', ds := Release(s, t).value, Follow(s, h, ARelease(t)), s.jobs[d].dependents;
            && d < |s'.jobs| && d < |h'| && s'.jobs[d].usage == s.jobs[d].usage - 1 && h'[d].holder == h[d].holder
            && s'.jobs[d].dependents == (if s.jobs[e.job].destructionPended then Erased(ds, e.job) else ds)
            && EdgeOf(h', e) == Unused && forall x :: x != e ==> EdgeOf(h', x) == EdgeOf(h, x)
  {
  }

  lemma CountAfterRelease(h: Hist, h': Hist, ds: seq<Dependent>, e: Dependent, erases: bool)
    requires e in ds && EdgeOf(h', e) == Unused && forall x :: x != e ==> EdgeOf(h', x) == EdgeOf(h, x)
    requires forall k, l :: 0 <= k < l < |ds| ==> ds[k] != ds[l]
    ensures var first, ds' := FirstOf(ds, e.job), if erases then Erased(ds, e.job) else ds;
            && CountBusy(h', ds') == CountBusy(h, ds) - Busy(h, e) -
               (if erases && first.Some? && first.value != e then Busy(h, first.value) else 0)
            && forall x :: x in ds' ==> x in ds
  {
    var p :| 0 <= p < |ds| && ds[p] == e;
    CountBusyOne(h, h', ds, p);
    ErasedCount(h', ds, e.job);
  }

  /** A release keeps the books of the dependency, be it held or not, exactly when one busy edge
      leaves them: when the edge was in use, unless a twin of it is erased. */
  lemma ReleaseBalancesIff(s: Sys, h: Hist, t: nat, d: nat, e: Dependent)
    requires ReleasesEdge(s, h, t, d, e) && BooksName(s, h, d, e) && StageOfJob(s, h, d)
    ensures CountsOfJob(Release(s, t).value, Follow(s, h, ARelease(t)), d) <==> Leaving(s, h, d, e) == 1
  {
    var s', h', ds := Release(s, t).value, Follow(s, h, ARelease(t)), s.jobs[d].dependents;
    ReleaseBooks(s, h, t, d, e);
    ReleaseTellsNobody(s, h, t, d, e);
    BooksBalanceIff(s, h, s', h', d, 1, Leaving(s, h, d, e));
  }

  lemma ReleaseTellsNobody(s: Sys, h: Hist, t: nat, d: nat, e: Dependent)
    requires ReleasesEdge(s, h, t, d, e) && d < |s.jobs| && StageOfJob(s, h, d)
    ensures var s', h' := Release(s, t).value, Follow(s, h, ARelease(t));
            && !TellsNow(s, h, d) && !TellsNow(s', h', d) && s'.jobs[d].dependencies == s.jobs[d].dependencies
            && s'.jobs[d].countdown == s.jobs[d].countdown && h'[d].edges == h[d].edges
  {
  }

  lemma BooksBalanceIff(s: Sys, h: Hist, s': Sys, h': Hist, d: nat, taken: int, leaving: int)
    requires |h| == |s.jobs| && |h'| == |s'.jobs| && d < |h| && d < |h'| && CountsOfJob(s, h, d)
    requires !TellsNow(s, h, d) && !TellsNow(s', h', d) && h'[d].holder == h[d].holder && h'[d].edges == h[d].edges
    requires s'.jobs[d].dependencies == s.jobs[d].dependencies && s'.jobs[d].countdown == s.jobs[d].countdown
    requires s'.jobs[d].usage == s.jobs[d].usage - taken
    requires CountBusy(h', s'.jobs[d].dependents) == CountBusy(h, s.jobs[d].dependents) - leaving
    requires forall x :: x in s'.jobs[d].dependents ==> x in s.jobs[d].dependents
    requires forall x :: x in s.jobs[d].dependents && EdgeOf(h, x) == Unused ==> EdgeOf(h', x) == Unused
    ensures CountsOfJob(s', h', d) <==> leaving == taken
  {
    QuietStaysQuiet(h, h', s.jobs[d].dependents, s'.jobs[d].dependents);
  }

  lemma QuietStaysQuiet(h: Hist, h': Hist, ds: seq<Dependent>, ds': seq<Dependent>)
    requires forall x :: x in ds' ==> x in ds
    requires forall x :: x in ds && EdgeOf(h, x) == Unused ==> EdgeOf(h', x) == Unused
    ensures (forall k :: 0 <= k < |ds| ==> EdgeOf(h, ds[k]) == Unused) ==>
              forall k :: 0 <= k < |ds'| ==> EdgeOf(h', ds'[k]) == Unused
  {
    if forall k :: 0 <= k < |ds| ==> EdgeOf(h, ds[k]) == Unused {
      forall k | 0 <= k < |ds'| ensures EdgeOf(h', ds'[k]) == Unused { assert ds'[k] in ds; }
    }
  }

  /** ... for a dependency that is named once: exactly when the edge was in use. */
  lemma ReleaseBalancesIffUsed(s: Sys, h: Hist, t: nat, d: nat, e: Dependent)
    requires ReleasesEdge(s, h, t, d, e) && BooksName(s, h, d, e) && StageOfJob(s, h, d)
    requires forall x :: x in s.jobs[d].dependents && x.job == e.job ==> x == e
    ensures CountsOfJob(Release(s, t).value, Follow(s, h, ARelease(t)), d) <==> EdgeOf(h, e) != Unused
  {
    ReleaseBalancesIff(s, h, t, d, e);
    FirstIsListed(s.jobs[d].dependents, e.job);
  }

  lemma {:induction false} FirstIsListed(ds: seq<Dependent>, j: nat)
    ensures FirstOf(ds, j).Some? ==> FirstOf(ds, j).value in ds && FirstOf(ds, j).value.job == j
  {
    if ds == [] {
    } else {
      FirstIsListed(ds[1..], j);
    }
  }

  // ----- Every destruction of a waiting job

  /** After the first two actions only thread `t` works. */
  predicate Works(actions: seq<Action>, t: nat) {
    var n := |actions| - 1;
    n > 0 && (n > 1 ==> Works(actions[..n], t) && WorkOf(actions[n], t))
  }

  /** The same two actions, and work of thread `t` after that. */
  predicate GoesOn(actions: seq<Action>, actions': seq<Action>, t: nat) {
    Works(actions, t) ==> Works(actions', t) && actions'[0] == actions[0] && actions'[1] == actions[1]
  }

  /** State and history after a list of actions, `None` when one of them cannot be taken. */
  ghost function Played(s: Sys, h: Hist, actions: seq<Action>): (r: Option<(Sys, Hist)>)
    requires |h| == |s.jobs|
    ensures r.Some? ==> |r.value.1| == |r.value.0.jobs|
    decreases |actions|
  {
    if actions == [] then Some((s, h))
    else
      match Played(s, h, actions[..|actions| - 1])
      case None => None
      case Some(m) =>
        var a := actions[|actions| - 1];
        if Step(m.0, a).None? then None
        else
          HistoryGrowsAlong(m.0, m.1, a);
          Some((Step(m.0, a).value, Follow(m.0, m.1, a)))
  }

  lemma PlayedOneMore(s: Sys, h: Hist, actions: seq<Action>, m: (Sys, Hist), a: Action, s': Sys)
    requires |h| == |s.jobs| && Played(s, h, actions) == Some(m) && Step(m.0, a) == Some(s')
    ensures Played(s, h, actions + [a]) == Some((s', Follow(m.0, m.1, a)))
  {
    FrontOf(actions, a);
  }

  lemma FrontOf(actions: seq<Action>, a: Action)
    ensures (actions + [a])[..|actions|] == actions && (actions + [a])[|actions|] == a
  {
  }

  /** What holds on the way from the destruction of `j` to its first release: thread `t` alone
      is at work, older jobs are left alone, and no edge becomes unused. */
  ghost predicate Underway(s: Sys, h: Hist, j: nat, t: nat, s1: Sys, h1: Hist) {
    && |h| == |s.jobs| == |s1.jobs| == |h1| && j < |s.jobs| && |s1.queues| == |s.queues|
    && t < |s1.threads| && (forall u :: 0 <= u < |s1.threads| && u != t ==> s1.threads[u].act == Idle)
    && (forall x :: 0 <= x < |s.jobs| ==> SameWiring(s.jobs[x], s1.jobs[x]))
    && (forall x :: 0 <= x < j ==> s1.jobs[x] == s.jobs[x] && h1[x].holder == h[x].holder && h1[x].edges == h[x].edges)
    && s1.jobs[j].destructionPended && h1[j].edges == h[j].edges
    && forall e :: EdgeOf(h, e) != Unused ==> EdgeOf(h1, e) != Unused
  }

  /** Edge `e` is one of job `j`, or of a dependent of it to it. */
  predicate Touches(s: Sys, j: nat, e: Dependent) {
    e.job == j || (e.job < |s.jobs| && e.slot < |s.jobs[e.job].dependencies| && s.jobs[e.job].dependencies[e.slot] == j)
  }

  /** From which dependent on the thread has still to tell them. */
  function ToTell(act: Activity, n: nat): nat {
    if act.Finishing? then act.next else if act.Holding() then 0 else n
  }

  /** On that way countdowns agree with the edges, dependents still to be told have unused edges,
      and no other edge comes into use or goes out of it. */
  ghost predicate Tidy(s: Sys, h: Hist, j: nat, t: nat, s1: Sys, h1: Hist) {
    && |h| == |s.jobs| == |s1.jobs| == |h1| && j < |s.jobs| && t < |s1.threads|
    && (forall x :: 0 <= x < |h| && x != j ==> TidyJob(s, s1, h1, x))
    && (forall p :: ToTell(s1.threads[t].act, |s.jobs[j].dependents|) <= p < |s.jobs[j].dependents| ==>
          EdgeOf(h1, s.jobs[j].dependents[p]) == Unused)
    && (forall e :: !Touches(s, j, e) ==> (EdgeOf(h1, e) == Unused <==> EdgeOf(h, e) == Unused))
  }

  predicate TidyJob(s: Sys, s1: Sys, h1: Hist, x: nat) {
    && x < |s.jobs| == |s1.jobs| == |h1| && |h1[x].edges| == |s.jobs[x].dependencies|
    && (s.jobs[x].dependencies != [] ==>
          s1.jobs[x].countdown == |s.jobs[x].dependencies| - CountFresh(h1[x].edges) && s1.jobs[x].countdown > 0)
  }

  /** A step of the thread that works on `j`, before it releases anything. */
  predicate OwnStep(s: Sys, a: Action, j: nat, t: nat) {
    && (a.ACheck? || a.ADispatch? || a.AFinishBegin? || a.AFinishNext? || a.AFinishEnd? || a.APushNext?) && a.t == t
    && t < |s.threads| && !s.threads[t].act.Idle? && s.threads[t].act.job == j
  }

  /** The dependents of a job are younger, and every job has a queue. */
  ghost predicate Wired(s: Sys, j: nat) {
    && j < |s.jobs|
    && (forall k :: 0 <= k < |s.jobs[j].dependents| ==>
          var e := s.jobs[j].dependents[k];
          j < e.job < |s.jobs| && e.slot < |s.jobs[e.job].dependencies| && s.jobs[e.job].dependencies[e.slot] == j)
    && (forall k, l :: 0 <= k < l < |s.jobs[j].dependents| ==> s.jobs[j].dependents[k] != s.jobs[j].dependents[l])
    && (forall x :: 0 <= x < |s.jobs| ==> s.jobs[x].queue.Some? && s.jobs[x].queue.value < |s.queues|)
  }

  lemma RestIsWired(s: Sys, h: Hist, j: nat)
    requires Inv(s, h) && AtRest(s) && j < |s.jobs|
    ensures Wired(s, j)
  {
    LinksAlwaysAscend(s, h);
    assert ShapeOfJob(s, h, j);
    forall k | 0 <= k < |s.jobs[j].dependents| ensures LinkedFrom(s, j, s.jobs[j].dependents[k]) {}
    forall x | 0 <= x < |s.jobs| ensures s.jobs[x].queue.Some? && s.jobs[x].queue.value < |s.queues| {
      assert ShapeOfJob(s, h, x);
    }
  }

  lemma StaysUnderway(s: Sys, h: Hist, j: nat, t: nat, s1: Sys, h1: Hist, a: Action)
    requires Underway(s, h, j, t, s1, h1) && Wired(s, j) && OwnStep(s1, a, j, t) && Step(s1, a).Some?
    ensures Underway(s, h, j, t, Step(s1, a).value, Follow(s1, h1, a))
  {
    var s', h' := Step(s1, a).value, Follow(s1, h1, a);
    assert SameWiring(s.jobs[j], s1.jobs[j]);
    WorkKeepsWiring(s1, a);
    WorkKeepsEdges(s1, h1, a);
    if a.AFinishNext? {
      assert j < s1.jobs[j].dependents[s1.threads[t].act.next].job;
    }
  }

  lemma StaysTidy(s: Sys, h: Hist, j: nat, t: nat, s1: Sys, h1: Hist, a: Action)
    requires Underway(s, h, j, t, s1, h1) && Tidy(s, h, j, t, s1, h1) && Wired(s, j)
    requires OwnStep(s1, a, j, t) && Step(s1, a).Some?
    ensures Tidy(s, h, j, t, Step(s1, a).value, Follow(s1, h1, a))
  {
    assert SameWiring(s.jobs[j], s1.jobs[j]);
    if a.AFinishNext? {
      var e := s1.jobs[j].dependents[s1.threads[t].act.next];
      assert TidyJob(s, s1, h1, e.job) && SameWiring(s.jobs[e.job], s1.jobs[e.job]);
      OneMoreFresh(h1[e.job].edges, e.slot);
      CountFreshBounds(AllConsumed(|h1[e.job].edges|));
      TellingStaysTidy(s, h, j, t, s1, h1, e);
    } else {
      QuietWorkStaysTidy(s, h, j, t, s1, h1, a);
    }
  }

  lemma QuietWorkStaysTidy(s: Sys, h: Hist, j: nat, t: nat, s1: Sys, h1: Hist, a: Action)
    requires Tidy(s, h, j, t, s1, h1) && OwnStep(s1, a, j, t) && Step(s1, a).Some? && !a.AFinishNext?
    requires s1.jobs[j].dependents == s.jobs[j].dependents
    ensures Tidy(s, h, j, t, Step(s1, a).value, Follow(s1, h1, a))
  {
    QuietWork(s1, h1, a);
    SameEdgesStayTidy(s, h, j, t, s1, h1, Step(s1, a).value, Follow(s1, h1, a));
  }

  lemma QuietWork(s: Sys, h: Hist, a: Action)
    requires |h| == |s.jobs| && Step(s, a).Some?
    requires a.ACheck? || a.ADispatch? || a.AFinishBegin? || a.AFinishEnd? || a.APushNext?
    ensures var s', h' := Step(s, a).value, Follow(s, h, a);
            && |s'.jobs| == |s.jobs| && |h'| == |h| && |s'.threads| == |s.threads|
            && (forall x :: 0 <= x < |h| ==> h'[x].edges == h[x].edges && s'.jobs[x].countdown == s.jobs[x].countdown)
            && var n := |s.jobs[s.threads[a.t].act.job].dependents|;
               ToTell(s'.threads[a.t].act, n) >= ToTell(s.threads[a.t].act, n)
  {
  }

  lemma SameEdgesStayTidy(s: Sys, h: Hist, j: nat, t: nat, s1: Sys, h1: Hist, s': Sys, h': Hist)
    requires Tidy(s, h, j, t, s1, h1) && |s'.jobs| == |s1.jobs| && |h'| == |h1| && |s'.threads| == |s1.threads|
    requires forall x :: 0 <= x < |h| ==> h'[x].edges == h1[x].edges && s'.jobs[x].countdown == s1.jobs[x].countdown
    requires var n := |s.jobs[j].dependents|; ToTell(s'.threads[t].act, n) >= ToTell(s1.threads[t].act, n)
    ensures Tidy(s, h, j, t, s', h')
  {
    forall x | 0 <= x < |h| && x != j ensures TidyJob(s, s', h', x) { assert TidyJob(s, s1, h1, x); }
    assert forall e :: EdgeOf(h', e) == EdgeOf(h1, e);
  }

  lemma TellingStaysTidy(s: Sys, h: Hist, j: nat, t: nat, s1: Sys, h1: Hist, e: Dependent)
    requires Tidy(s, h, j, t, s1, h1) && Wired(s, j) && FinishNext(s1, t).Some?
    requires s1.threads[t].act.job == j && s1.jobs[j].dependents == s.jobs[j].dependents
    requires e == s1.jobs[j].dependents[s1.threads[t].act.next]
    requires s1.jobs[e.job].dependencies == s.jobs[e.job].dependencies
    requires var edges := h1[e.job].edges;
             && e.slot < |edges| && CountFresh(edges[e.slot := Fresh]) == CountFresh(edges) + 1
                && CountFresh(AllConsumed(|edges|)) == 0
             && (CountFresh(edges) + 1 == |edges| ==> AllOthersFresh(h1, e))
    ensures Tidy(s, h, j, t, FinishNext(s1, t).value, Follow(s1, h1, AFinishNext(t)))
  {
    var s', h' := FinishNext(s1, t).value, Follow(s1, h1, AFinishNext(t));
    assert TidyJob(s, s1, h1, e.job);
    NextIsTellStep(s1, h1, t);
    TellHistEdges(h1, t, e, Triggers(s1, t));
    forall x | 0 <= x < |h| && x != j ensures TidyJob(s, s', h', x) { assert TidyJob(s, s1, h1, x); }
  }

  lemma WorkKeepsWiring(s: Sys, a: Action)
    requires Step(s, a).Some?
    requires a.ACheck? || a.ADispatch? || a.AFinishBegin? || a.AFinishNext? || a.AFinishEnd? || a.APushNext?
    ensures var s' := Step(s, a).value;
            && |s'.jobs| == |s.jobs| && |s'.queues| == |s.queues| && |s'.threads| == |s.threads|
            && (forall x :: 0 <= x < |s.jobs| ==> SameWiring(s.jobs[x], s'.jobs[x]))
            && (forall u :: 0 <= u < |s.threads| && u != a.t ==> s'.threads[u] == s.threads[u])
  {
  }

  lemma WorkKeepsEdges(s: Sys, h: Hist, a: Action)
    requires |h| == |s.jobs| && Step(s, a).Some?
    requires a.ACheck? || a.ADispatch? || a.AFinishBegin? || a.AFinishNext? || a.AFinishEnd? || a.APushNext?
    ensures forall e :: EdgeOf(h, e) != Unused ==> EdgeOf(Follow(s, h, a), e) != Unused
  {
  }

  /** The actions lead from `s` to a state under way. */
  ghost predicate Playing(s: Sys, h: Hist, j: nat, t: nat, actions: seq<Action>, m: (Sys, Hist)) {
    && |h| == |s.jobs| && Wired(s, j) && Played(s, h, actions) == Some(m)
    && Underway(s, h, j, t, m.0, m.1) && Tidy(s, h, j, t, m.0, m.1)
  }

  lemma PlayOn(s: Sys, h: Hist, j: nat, t: nat, actions: seq<Action>, m: (Sys, Hist), a: Action)
    returns (actions': seq<Action>, m': (Sys, Hist))
    requires Playing(s, h, j, t, actions, m) && OwnStep(m.0, a, j, t) && Step(m.0, a).Some?
    ensures Playing(s, h, j, t, actions', m') && m'.0 == Step(m.0, a).value && GoesOn(actions, actions', t)
  {
    StaysUnderway(s, h, j, t, m.0, m.1, a);
    StaysTidy(s, h, j, t, m.0, m.1, a);
    PlayedOneMore(s, h, actions, m, a, Step(m.0, a).value);
    actions', m' := actions + [a], (Step(m.0, a).value, Follow(m.0, m.1, a));
  }

  /** No launch of `j` is queued, and no dependency has finished since it was triggered last. */
  predicate WaitsForAll(s: Sys, j: nat) {
    && j < |s.jobs| && s.jobs[j].countdown == |s.jobs[j].dependencies|
    && forall q, k :: 0 <= q < |s.queues| && 0 <= k < |s.queues[q]| ==> s.queues[q][k].job != j
  }

  /** At rest that is to say that all of its edges are unused. */
  lemma WaitsForAllIff(s: Sys, h: Hist, j: nat)
    requires Inv(s, h) && AtRest(s) && j < |s.jobs| && s.jobs[j].dependencies != [] && h[j].holder != Parked
    ensures WaitsForAll(s, j) <==> forall i :: 0 <= i < |h[j].edges| ==> h[j].edges[i] == Unused
  {
    RestingJob(s, h, j);
    assert ShapeOfJob(s, h, j) && CountsOfJob(s, h, j) && StageOfJob(s, h, j);
    var edges := h[j].edges;
    if WaitsForAll(s, j) {
      if h[j].stage == Queued { var k := QueuedSomewhere(s, h, j); }
      forall i | 0 <= i < |edges| ensures edges[i] == Unused {
        if edges[i] == Fresh { CountFreshPositive(edges, i); }
      }
    } else if forall i :: 0 <= i < |edges| ==> edges[i] == Unused {
      CountFreshBounds(edges);
      var q: nat, k: nat :| q < |s.queues| && k < |s.queues[q]| && s.queues[q][k].job == j;
      CountOfPresent(s.queues[q], k);
    }
  }

  /** At rest, handle `hd` names job `j`, which has dependencies and is idle and alive, and thread
      `t` serves it. */
  ghost predicate Destroyable(s: Sys, h: Hist, hd: nat, j: nat, t: nat) {
    && Inv(s, h) && AtRest(s) && Named(s, hd) == Some(j) && s.jobs[j].dependencies != []
    && s.jobs[j].usage == 0 && !Dead(s, j) && 0 <= s.now
    && t < |s.threads| && Some(s.threads[t].queue) == s.jobs[j].queue
  }

  /** ... and it waits for all of its dependencies. */
  ghost predicate Untriggered(s: Sys, h: Hist, hd: nat, j: nat, t: nat) {
    Destroyable(s, h, hd, j, t) && WaitsForAll(s, j)
  }

  lemma UntriggeredEdges(s: Sys, h: Hist, hd: nat, j: nat, t: nat)
    requires Untriggered(s, h, hd, j, t)
    ensures forall i :: 0 <= i < |h[j].edges| ==> h[j].edges[i] == Unused
  {
    assert CountsOfJob(s, h, j);
    WaitsForAllIff(s, h, j);
  }

  /** The destroyed job's launch comes first among those that are due at time 0. */
  lemma PendedIsPullable(s: Sys, h: Hist, hd: nat, j: nat, t: nat) returns (k: nat)
    requires Destroyable(s, h, hd, j, t)
    ensures Wired(s, j) && FitToPull(s, h, j) && |h| == |s.jobs| && s.jobs[j].queue == Some(s.threads[t].queue)
    ensures var q := s.threads[t].queue;
            var s1 := SetJob(s, j, s.jobs[j].(destructionPended := true))
                      .(queues := s.queues[q := Pushed(s.queues[q], Launch(j, 0))]);
            && Step(s, ADestroy(hd)) == Some(s1) && Pull(s1, t, k).Some? && s1.queues[q][k] == Launch(j, 0)
  {
    RestIsWired(s, h, j);
    RestIsFitToPull(s, h, j);
    k := LowerBound(s.queues[s.threads[t].queue], 0);
  }

  /** After the call, launch `k` of the queue of thread `t` is one of `j` and can be pulled. */
  ghost predicate PulledAfter(s: Sys, hd: nat, j: nat, t: nat, k: nat) {
    && Step(s, ADestroy(hd)).Some?
    && var s1 := Step(s, ADestroy(hd)).value;
       Pull(s1, t, k).Some? && s1.queues[s1.threads[t].queue][k].job == j
  }

  lemma PlayPull(s: Sys, h: Hist, hd: nat, j: nat, t: nat, k: nat) returns (actions: seq<Action>, m: (Sys, Hist))
    requires Wired(s, j) && FitToPull(s, h, j) && AtRest(s) && !Dead(s, j)
    requires t < |s.threads| && s.jobs[j].queue == Some(s.threads[t].queue)
    requires var q := s.threads[t].queue;
             var s1 := SetJob(s, j, s.jobs[j].(destructionPended := true))
                       .(queues := s.queues[q := Pushed(s.queues[q], Launch(j, 0))]);
             Step(s, ADestroy(hd)) == Some(s1) && PulledAfter(s, hd, j, t, k)
    ensures Playing(s, h, j, t, actions, m) && m.0.threads[t].act == Pulled(j) && !Dead(m.0, j)
    ensures Works(actions, t) && actions[0] == ADestroy(hd) && actions[1] == APull(t, k)
  {
    var s1 := Step(s, ADestroy(hd)).value;
    PlayedOneMore(s, h, [], (s, h), ADestroy(hd), s1);
    assert [] + [ADestroy(hd)] == [ADestroy(hd)];
    PlayedOneMore(s, h, [ADestroy(hd)], (s1, h), APull(t, k), Pull(s1, t, k).value);
    actions, m := [ADestroy(hd)] + [APull(t, k)], (Pull(s1, t, k).value, Follow(s1, h, APull(t, k)));
    PulledIsUnderway(s, h, j, t, s1, k);
    PulledIsTidy(s, h, j, t, s1, k);
  }

  /** Before the launch is pulled: the countdowns fit, and nobody uses the job. */
  ghost predicate FitToPull(s: Sys, h: Hist, j: nat) {
    && |h| == |s.jobs| && j < |s.jobs| && (forall x :: 0 <= x < |h| ==> TidyJob(s, s, h, x))
    && (forall p :: 0 <= p < |s.jobs[j].dependents| ==> EdgeOf(h, s.jobs[j].dependents[p]) == Unused)
  }

  lemma RestIsFitToPull(s: Sys, h: Hist, j: nat)
    requires Inv(s, h) && AtRest(s) && j < |s.jobs| && s.jobs[j].usage == 0
    ensures FitToPull(s, h, j)
  {
    forall x | 0 <= x < |h| ensures TidyJob(s, s, h, x) { assert ShapeOfJob(s, h, x) && CountsOfJob(s, h, x); }
    assert CountsOfJob(s, h, j);
    CountBusyZero(h, s.jobs[j].dependents);
  }

  lemma PulledIsTidy(s: Sys, h: Hist, j: nat, t: nat, s1: Sys, k: nat)
    requires FitToPull(s, h, j) && t < |s.threads|
    requires s1 == SetJob(s, j, s.jobs[j].(destructionPended := true)).(queues := s1.queues)
    requires Pull(s1, t, k).Some? && s1.queues[s.threads[t].queue][k].job == j
    ensures Tidy(s, h, j, t, Pull(s1, t, k).value, Follow(s1, h, APull(t, k)))
  {
    var s', h' := Pull(s1, t, k).value, Follow(s1, h, APull(t, k));
    assert forall x :: 0 <= x < |h| ==> h'[x].edges == h[x].edges;
    forall x | 0 <= x < |h| && x != j ensures TidyJob(s, s', h', x) { assert TidyJob(s, s, h, x); }
    assert forall e :: EdgeOf(h', e) == EdgeOf(h, e);
  }

  lemma PulledIsUnderway(s: Sys, h: Hist, j: nat, t: nat, s1: Sys, k: nat)
    requires |h| == |s.jobs| && j < |s.jobs| && AtRest(s) && t < |s.threads|
    requires s1 == SetJob(s, j, s.jobs[j].(destructionPended := true)).(queues := s1.queues)
    requires |s1.queues| == |s.queues|
    requires Pull(s1, t, k).Some? && s1.queues[s.threads[t].queue][k].job == j
    ensures Underway(s, h, j, t, Pull(s1, t, k).value, Follow(s1, h, APull(t, k)))
  {
    var h' := Follow(s1, h, APull(t, k));
    assert forall x :: 0 <= x < |h| ==> h'[x].edges == h[x].edges;
  }

  /** The destroyed job comes to telling its dependents. */
  lemma PlayToFinishing(s: Sys, h: Hist, j: nat, t: nat, actions: seq<Action>, m: (Sys, Hist))
    returns (actions': seq<Action>, m': (Sys, Hist))
    requires Playing(s, h, j, t, actions, m) && m.0.threads[t].act == Pulled(j) && !Dead(m.0, j)
    ensures Playing(s, h, j, t, actions', m') && m'.0.threads[t].act == Finishing(j, 0, [])
    ensures GoesOn(actions, actions', t)
  {
    actions', m' := PlayOn(s, h, j, t, actions, m, ACheck(t));
    actions', m' := PlayDispatch(s, h, j, t, actions', m');
    actions', m' := PlayFinishBegin(s, h, j, t, actions', m');
  }

  lemma PlayDispatch(s: Sys, h: Hist, j: nat, t: nat, actions: seq<Action>, m: (Sys, Hist))
    returns (actions': seq<Action>, m': (Sys, Hist))
    requires Playing(s, h, j, t, actions, m) && m.0.threads[t].act == Checked(j)
    ensures Playing(s, h, j, t, actions', m') && m'.0.threads[t].act == Skipped(j) && GoesOn(actions, actions', t)
  {
    actions', m' := PlayOn(s, h, j, t, actions, m, ADispatch(t));
  }

  lemma PlayFinishBegin(s: Sys, h: Hist, j: nat, t: nat, actions: seq<Action>, m: (Sys, Hist))
    returns (actions': seq<Action>, m': (Sys, Hist))
    requires Playing(s, h, j, t, actions, m) && m.0.threads[t].act == Skipped(j)
    ensures Playing(s, h, j, t, actions', m') && m'.0.threads[t].act == Finishing(j, 0, [])
    ensures GoesOn(actions, actions', t)
  {
    assert Unlocked(m.0, j);
    actions', m' := PlayOn(s, h, j, t, actions, m, AFinishBegin(t));
  }

  predicate PlansKnown(s: Sys, t: nat) {
    t < |s.threads| && forall p :: 0 <= p < |s.threads[t].act.Plans()| ==> s.threads[t].act.Plans()[p].job < |s.jobs|
  }

  /** It tells them all. */
  lemma {:induction false} PlayToEnd(s: Sys, h: Hist, j: nat, t: nat, actions: seq<Action>, m: (Sys, Hist))
    returns (actions': seq<Action>, m': (Sys, Hist))
    requires Playing(s, h, j, t, actions, m) && PlansKnown(m.0, t)
    requires m.0.threads[t].act.Finishing? && m.0.threads[t].act.job == j
    requires m.0.threads[t].act.next <= |s.jobs[j].dependents|
    ensures Playing(s, h, j, t, actions', m') && PlansKnown(m'.0, t) && GoesOn(actions, actions', t)
    ensures m'.0.threads[t].act.Finishing? && m'.0.threads[t].act.job == j
    ensures m'.0.threads[t].act.next == |m'.0.jobs[j].dependents|
    decreases |s.jobs[j].dependents| - m.0.threads[t].act.next
  {
    assert SameWiring(s.jobs[j], m.0.jobs[j]);
    if m.0.threads[t].act.next == |s.jobs[j].dependents| {
      actions', m' := actions, m;
    } else {
      TellingIsEnabled(s, h, j, t, m.0, m.1);
      actions', m' := PlayOn(s, h, j, t, actions, m, AFinishNext(t));
      actions', m' := PlayToEnd(s, h, j, t, actions', m');
    }
  }

  lemma TellingIsEnabled(s: Sys, h: Hist, j: nat, t: nat, s1: Sys, h1: Hist)
    requires Underway(s, h, j, t, s1, h1) && Wired(s, j) && PlansKnown(s1, t)
    requires s1.threads[t].act.Finishing? && s1.threads[t].act.job == j
    requires s1.threads[t].act.next < |s.jobs[j].dependents|
    ensures FinishNext(s1, t).Some? && PlansKnown(FinishNext(s1, t).value, t)
    ensures var act, act' := s1.threads[t].act, FinishNext(s1, t).value.threads[t].act;
            act'.Finishing? && act'.job == j && act'.next == act.next + 1
  {
    assert SameWiring(s.jobs[j], s1.jobs[j]);
    var e, plans := s1.jobs[j].dependents[s1.threads[t].act.next], s1.threads[t].act.Plans();
    assert j < e.job < |s.jobs|;
    assert Unlocked(s1, e.job);
    assert forall p :: 0 <= p < |plans| ==> plans[p].job < |s1.jobs|;
    var plans' := FinishNext(s1, t).value.threads[t].act.Plans();
    assert plans' == plans || plans' == plans + [Launch(e.job, s1.now)];
  }

  /** It pushes what it planned. */
  lemma {:induction false} PlayToRelease(s: Sys, h: Hist, j: nat, t: nat, actions: seq<Action>, m: (Sys, Hist))
    returns (actions': seq<Action>, m': (Sys, Hist))
    requires Playing(s, h, j, t, actions, m) && PlansKnown(m.0, t) && s.jobs[j].dependencies != []
    requires m.0.threads[t].act == Releasing(j, 0) || (m.0.threads[t].act.Pushing? && m.0.threads[t].act.job == j)
    requires m.0.threads[t].act.Pushing? ==> m.0.threads[t].act.planned != []
    ensures Playing(s, h, j, t, actions', m') && GoesOn(actions, actions', t) && m'.0.threads[t].act == Releasing(j, 0)
    decreases |m.0.threads[t].act.Plans()|
  {
    if m.0.threads[t].act.Pushing? {
      PushingIsEnabled(s, h, j, t, m.0, m.1);
      actions', m' := PlayOn(s, h, j, t, actions, m, APushNext(t));
      actions', m' := PlayToRelease(s, h, j, t, actions', m');
    } else {
      actions', m' := actions, m;
    }
  }

  lemma PushingIsEnabled(s: Sys, h: Hist, j: nat, t: nat, s1: Sys, h1: Hist)
    requires Underway(s, h, j, t, s1, h1) && Wired(s, j) && PlansKnown(s1, t) && s.jobs[j].dependencies != []
    requires s1.threads[t].act.Pushing? && s1.threads[t].act.job == j && s1.threads[t].act.planned != []
    ensures PushNext(s1, t).Some? && PlansKnown(PushNext(s1, t).value, t)
    ensures var plans, act' := s1.threads[t].act.planned, PushNext(s1, t).value.threads[t].act;
            if |plans| == 1 then act' == Releasing(j, 0) else act' == Pushing(j, plans[1..])
  {
    var l := s1.threads[t].act.Plans()[0];
    assert l.job < |s1.jobs|;
    assert SameWiring(s.jobs[l.job], s1.jobs[l.job]) && SameWiring(s.jobs[j], s1.jobs[j]);
  }

  /** The usage of `d` is below what its books account for. */
  ghost predicate Underrun(s: Sys, h: Hist, d: nat) {
    && d < |s.jobs| == |h| && !TellsNow(s, h, d)
    && s.jobs[d].usage < (if h[d].holder == Free then 0 else 1) + CountBusy(h, s.jobs[d].dependents)
  }

  /** Whoever destroys a job that waits for all of its dependencies, at any moment of rest: its
      own launch leads to a dependency with too small a usage. */
  lemma DestroyingUntriggeredUnderruns(s: Sys, h: Hist, hd: nat, j: nat, t: nat)
    returns (actions: seq<Action>, m: (Sys, Hist))
    requires Untriggered(s, h, hd, j, t)
    ensures Played(s, h, actions) == Some(m) && actions != [] && actions[0] == ADestroy(hd)
    ensures Underrun(m.0, m.1, s.jobs[j].dependencies[0])
    ensures !CountsOfJob(m.0, m.1, s.jobs[j].dependencies[0])
  {
    var k := PendedIsPullable(s, h, hd, j, t);
    actions, m := PlayPull(s, h, hd, j, t, k);
    actions, m := PlayAll(s, h, j, t, actions, m);
    actions, m := PlayRelease(s, h, hd, j, t, actions, m);
  }

  lemma PlayAll(s: Sys, h: Hist, j: nat, t: nat, actions: seq<Action>, m: (Sys, Hist))
    returns (actions': seq<Action>, m': (Sys, Hist))
    requires Playing(s, h, j, t, actions, m) && m.0.threads[t].act == Pulled(j) && !Dead(m.0, j)
    requires s.jobs[j].dependencies != []
    ensures Playing(s, h, j, t, actions', m') && m'.0.threads[t].act == Releasing(j, 0) && GoesOn(actions, actions', t)
  {
    actions', m' := PlayToFinishing(s, h, j, t, actions, m);
    actions', m' := PlayToEnd(s, h, j, t, actions', m');
    actions', m' := PlayFinishEnd(s, h, j, t, actions', m');
    actions', m' := PlayToRelease(s, h, j, t, actions', m');
  }

  lemma PlayFinishEnd(s: Sys, h: Hist, j: nat, t: nat, actions: seq<Action>, m: (Sys, Hist))
    returns (actions': seq<Action>, m': (Sys, Hist))
    requires Playing(s, h, j, t, actions, m) && PlansKnown(m.0, t) && s.jobs[j].dependencies != []
    requires m.0.threads[t].act.Finishing? && m.0.threads[t].act.job == j
    requires m.0.threads[t].act.next == |m.0.jobs[j].dependents|
    ensures Playing(s, h, j, t, actions', m') && PlansKnown(m'.0, t) && GoesOn(actions, actions', t)
    ensures var act := m'.0.threads[t].act;
            act == Releasing(j, 0) || (act.Pushing? && act.job == j && act.planned != [])
  {
    assert SameWiring(s.jobs[j], m.0.jobs[j]);
    actions', m' := PlayOn(s, h, j, t, actions, m, AFinishEnd(t));
    assert m'.0.threads[t].act.Pushing? ==> m'.0.threads[t].act.Plans() == m.0.threads[t].act.Plans();
  }

  lemma PlayRelease(s: Sys, h: Hist, hd: nat, j: nat, t: nat, actions: seq<Action>, m: (Sys, Hist))
    returns (actions': seq<Action>, m': (Sys, Hist))
    requires Untriggered(s, h, hd, j, t) && Playing(s, h, j, t, actions, m) && m.0.threads[t].act == Releasing(j, 0)
    ensures Played(s, h, actions') == Some(m') && GoesOn(actions, actions', t)
    ensures Underrun(m'.0, m'.1, s.jobs[j].dependencies[0])
  {
    FirstReleaseUnderruns(s, h, hd, j, t, m.0, m.1);
    actions', m' := PlayOneMore(s, h, t, actions, m, ARelease(t));
  }

  lemma PlayOneMore(s: Sys, h: Hist, t: nat, actions: seq<Action>, m: (Sys, Hist), a: Action)
    returns (actions': seq<Action>, m': (Sys, Hist))
    requires |h| == |s.jobs| && Played(s, h, actions) == Some(m) && Step(m.0, a).Some? && WorkOf(a, t)
    ensures Played(s, h, actions') == Some(m') && GoesOn(actions, actions', t)
    ensures m' == (Step(m.0, a).value, Follow(m.0, m.1, a))
  {
    PlayedOneMore(s, h, actions, m, a, Step(m.0, a).value);
    actions', m' := actions + [a], (Step(m.0, a).value, Follow(m.0, m.1, a));
  }

  lemma FirstReleaseUnderruns(s: Sys, h: Hist, hd: nat, j: nat, t: nat, s1: Sys, h1: Hist)
    requires Untriggered(s, h, hd, j, t) && Underway(s, h, j, t, s1, h1) && s1.threads[t].act == Releasing(j, 0)
    ensures Release(s1, t).Some?
    ensures Underrun(Release(s1, t).value, Follow(s1, h1, ARelease(t)), s.jobs[j].dependencies[0])
  {
    FirstIsOlder(s, h, j);
    ReleaseIsEnabled(s, h, j, t, s1, h1);
    UntriggeredEdges(s, h, hd, j, t);
    ReleasedTooMuch(s, h, j, t, s1, h1);
  }

  lemma FirstIsOlder(s: Sys, h: Hist, j: nat)
    requires Inv(s, h) && j < |s.jobs| && s.jobs[j].dependencies != []
    ensures s.jobs[j].dependencies[0] < j
  {
    assert ShapeOfJob(s, h, j);
  }

  lemma ReleaseIsEnabled(s: Sys, h: Hist, j: nat, t: nat, s1: Sys, h1: Hist)
    requires Underway(s, h, j, t, s1, h1) && s1.threads[t].act == Releasing(j, 0)
    requires s.jobs[j].dependencies != [] && s.jobs[j].dependencies[0] < j
    ensures Release(s1, t).Some?
  {
    assert SameWiring(s.jobs[j], s1.jobs[j]);
    assert Unlocked(s1, s.jobs[j].dependencies[0]);
  }

  lemma ReleasedTooMuch(s: Sys, h: Hist, j: nat, t: nat, s1: Sys, h1: Hist)
    requires Inv(s, h) && AtRest(s) && Underway(s, h, j, t, s1, h1) && s1.threads[t].act == Releasing(j, 0)
    requires s.jobs[j].dependencies != [] && forall i :: 0 <= i < |h[j].edges| ==> h[j].edges[i] == Unused
    requires Release(s1, t).Some?
    ensures Underrun(Release(s1, t).value, Follow(s1, h1, ARelease(t)), s.jobs[j].dependencies[0])
  {
    var d := s.jobs[j].dependencies[0];
    assert ShapeOfJob(s, h, j) && CountsOfJob(s, h, d) && StageOfJob(s, h, d);
    ReleasedOnce(s, h, j, t, s1, h1, d);
    BooksGrow(s, h, j, t, s1, h1, d);
  }

  /** What the first release does to the dependency. */
  lemma ReleasedOnce(s: Sys, h: Hist, j: nat, t: nat, s1: Sys, h1: Hist, d: nat)
    requires Underway(s, h, j, t, s1, h1) && s1.threads[t].act == Releasing(j, 0) && Release(s1, t).Some?
    requires s.jobs[j].dependencies != [] && s.jobs[j].dependencies[0] == d < j && !h[d].holder.HeldBy?
    ensures var s', h' := Release(s1, t).value, Follow(s1, h1, ARelease(t));
            && |s'.jobs| == |h'| == |h| && s'.jobs[d].usage == s.jobs[d].usage - 1
            && s'.jobs[d].dependents == Erased(s.jobs[d].dependents, j)
            && h'[d].holder == h[d].holder && !TellsNow(s', h', d)
  {
    assert SameWiring(s.jobs[j], s1.jobs[j]);
  }

  lemma BooksGrow(s: Sys, h: Hist, j: nat, t: nat, s1: Sys, h1: Hist, d: nat)
    requires Underway(s, h, j, t, s1, h1) && s1.threads[t].act == Releasing(j, 0) && Release(s1, t).Some?
    requires d < |s.jobs| && forall i :: 0 <= i < |h[j].edges| ==> h[j].edges[i] == Unused
    ensures var ds := s.jobs[d].dependents;
            CountBusy(Follow(s1, h1, ARelease(t)), Erased(ds, j)) >= CountBusy(h, ds)
  {
    var h', ds := Follow(s1, h1, ARelease(t)), s.jobs[d].dependents;
    FirstReleaseEdges(s, h, j, t, s1, h1);
    GrownBooks(h, h1, h', j, ds);
  }

  lemma FirstReleaseEdges(s: Sys, h: Hist, j: nat, t: nat, s1: Sys, h1: Hist)
    requires Underway(s, h, j, t, s1, h1) && s1.threads[t].act == Releasing(j, 0) && Release(s1, t).Some?
    requires forall i :: 0 <= i < |h[j].edges| ==> h[j].edges[i] == Unused
    ensures var h' := Follow(s1, h1, ARelease(t));
            && |h'| == |h1| && |h'[j].edges| == |h1[j].edges| && h1[j].edges == h[j].edges
            && (forall x :: 0 <= x < |h1| && x != j ==> h'[x].edges == h1[x].edges)
            && (forall i :: 0 <= i < |h1[j].edges| ==> h'[j].edges[i] == Unused)
  {
  }

  lemma GrownBooks(h: Hist, h1: Hist, h': Hist, j: nat, ds: seq<Dependent>)
    requires |h'| == |h1| && j < |h1| && forall i :: 0 <= i < |h1[j].edges| ==> h1[j].edges[i] == Unused
    requires forall x :: 0 <= x < |h1| && x != j ==> h'[x].edges == h1[x].edges
    requires |h'[j].edges| == |h1[j].edges| && forall i :: 0 <= i < |h1[j].edges| ==> h'[j].edges[i] == Unused
    requires forall e :: EdgeOf(h, e) != Unused ==> EdgeOf(h1, e) != Unused
    ensures CountBusy(h', Erased(ds, j)) >= CountBusy(h, ds)
  {
    ReleasedEdges(h1, j, h');
    ErasedCount(h', ds, j);
    FirstIsListed(ds, j);
    MoreBusy(h, h', ds);
  }

  lemma ReleasedEdges(h1: Hist, j: nat, h': Hist)
    requires |h'| == |h1| && j < |h1| && forall i :: 0 <= i < |h1[j].edges| ==> h1[j].edges[i] == Unused
    requires forall x :: 0 <= x < |h1| && x != j ==> h'[x].edges == h1[x].edges
    requires |h'[j].edges| == |h1[j].edges| && forall i :: 0 <= i < |h1[j].edges| ==> h'[j].edges[i] == Unused
    ensures forall e: Dependent :: e.job == j ==> EdgeOf(h', e) == Unused
    ensures forall e: Dependent :: EdgeOf(h1, e) != Unused ==> EdgeOf(h', e) != Unused
  {
  }

  lemma {:induction false} MoreBusy(h: Hist, h': Hist, ds: seq<Dependent>)
    requires forall e :: EdgeOf(h, e) != Unused ==> EdgeOf(h', e) != Unused
    ensures CountBusy(h, ds) <= CountBusy(h', ds)
  {
    if ds == [] {
    } else {
      MoreBusy(h, h', ds[..|ds| - 1]);
    }
  }

  // ----- ... and of any job

  /** How often `x` is among the first `i` dependencies of `j`. */
  function Times(s: Sys, j: nat, i: nat, x: nat): nat
    requires j < |s.jobs| && i <= |s.jobs[j].dependencies|
  {
    if i == 0 then 0 else Times(s, j, i - 1, x) + if s.jobs[j].dependencies[i - 1] == x then 1 else 0
  }

  /** The first `n` entries of `j` removed. */
  function ErasedTimes(ds: seq<Dependent>, j: nat, n: nat): seq<Dependent> {
    if n == 0 then ds else Erased(ErasedTimes(ds, j, n - 1), j)
  }

  /** After the first `i` releases: each has taken one usage and one entry of `j`. */
  ghost predicate Released(s: Sys, h: Hist, j: nat, t: nat, i: nat, s1: Sys, h1: Hist) {
    && |h| == |s.jobs| == |s1.jobs| == |h1| && j < |s.jobs| && i <= |s.jobs[j].dependencies| && t < |s1.threads|
    && (forall u :: 0 <= u < |s1.threads| && u != t ==> s1.threads[u].act == Idle)
    && s1.threads[t].act == (if i < |s.jobs[j].dependencies| then Releasing(j, i) else Idle)
    && s1.jobs[j].dependencies == s.jobs[j].dependencies && s1.jobs[j].destructionPended
    && (forall x :: 0 <= x < j ==> ReleasedJob(s, h, j, i, s1, h1, x))
    && |h1[j].edges| == |h[j].edges| == |s.jobs[j].dependencies|
    && (forall k :: 0 <= k < |h[j].edges| ==> h1[j].edges[k] == if k < i then Unused else h[j].edges[k])
    && (forall e :: !Touches(s, j, e) ==> (EdgeOf(h1, e) == Unused <==> EdgeOf(h, e) == Unused))
  }

  ghost predicate ReleasedJob(s: Sys, h: Hist, j: nat, i: nat, s1: Sys, h1: Hist, x: nat)
    requires |h| == |s.jobs| == |s1.jobs| == |h1| && j < |s.jobs| && x < |h| && i <= |s.jobs[j].dependencies|
  {
    && h1[x].holder == h[x].holder && h1[x].edges == h[x].edges
    && var e, n := s.jobs[x], Times(s, j, i, x);
       s1.jobs[x] == e.(usage := e.usage - n, dependents := ErasedTimes(e.dependents, j, n))
  }

  predicate DependsOnOlder(s: Sys, j: nat) {
    j < |s.jobs| && forall k :: 0 <= k < |s.jobs[j].dependencies| ==> s.jobs[j].dependencies[k] < j
  }

  lemma OneMoreReleased(s: Sys, h: Hist, j: nat, t: nat, i: nat, s1: Sys, h1: Hist)
    requires Released(s, h, j, t, i, s1, h1) && DependsOnOlder(s, j) && i < |s.jobs[j].dependencies|
    ensures Release(s1, t).Some? && Released(s, h, j, t, i + 1, Release(s1, t).value, Follow(s1, h1, ARelease(t)))
  {
    var d := s.jobs[j].dependencies[i];
    assert Unlocked(s1, d);
    var s', h', n := Release(s1, t).value, Follow(s1, h1, ARelease(t)), i + 1;
    forall x | 0 <= x < j ensures ReleasedJob(s, h, j, n, s', h', x) {
      assert ReleasedJob(s, h, j, i, s1, h1, x);
    }
    assert forall e: Dependent :: e.job != j ==> EdgeOf(h', e) == EdgeOf(h1, e);
  }

  /** The actions have gone on from `start` through the first `i` releases. */
  ghost predicate PlayedReleases(s: Sys, h: Hist, j: nat, t: nat, start: seq<Action>, i: nat, actions: seq<Action>,
        m: (Sys, Hist))
  {
    && |h| == |s.jobs| && Played(s, h, actions) == Some(m) && GoesOn(start, actions, t)
    && Released(s, h, j, t, i, m.0, m.1)
  }

  /** All releases, one by one. */
  lemma {:induction false} PlayReleases(s: Sys, h: Hist, j: nat, t: nat, start: seq<Action>, i: nat, n: nat,
        actions: seq<Action>, m: (Sys, Hist))
    returns (actions': seq<Action>, m': (Sys, Hist))
    requires PlayedReleases(s, h, j, t, start, i, actions, m) && DependsOnOlder(s, j)
    requires i <= n == |s.jobs[j].dependencies|
    ensures PlayedReleases(s, h, j, t, start, n, actions', m')
    decreases n - i
  {
    if i == n {
      actions', m' := actions, m;
    } else {
      var next, r := OneFurther(s, h, j, t, start, i, actions, m);
      actions', m' := PlayReleases(s, h, j, t, start, i + 1, n, next, r);
    }
  }

  lemma OneFurther(s: Sys, h: Hist, j: nat, t: nat, start: seq<Action>, i: nat, actions: seq<Action>, m: (Sys, Hist))
    returns (actions': seq<Action>, m': (Sys, Hist))
    requires PlayedReleases(s, h, j, t, start, i, actions, m) && DependsOnOlder(s, j) && i < |s.jobs[j].dependencies|
    ensures PlayedReleases(s, h, j, t, start, i + 1, actions', m')
  {
    actions', m' := PlayOneRelease(s, h, j, t, i, actions, m);
    GoesOnTwice(start, actions, actions', t);
  }

  lemma GoesOnTwice(a: seq<Action>, b: seq<Action>, c: seq<Action>, t: nat)
    requires GoesOn(a, b, t) && GoesOn(b, c, t)
    ensures GoesOn(a, c, t)
  {
  }

  lemma PlayOneRelease(s: Sys, h: Hist, j: nat, t: nat, i: nat, actions: seq<Action>, m: (Sys, Hist))
    returns (actions': seq<Action>, m': (Sys, Hist))
    requires |h| == |s.jobs| && Played(s, h, actions) == Some(m) && DependsOnOlder(s, j)
    requires Released(s, h, j, t, i, m.0, m.1) && i < |s.jobs[j].dependencies|
    ensures Played(s, h, actions') == Some(m') && GoesOn(actions, actions', t)
    ensures Released(s, h, j, t, i + 1, m'.0, m'.1)
  {
    OneMoreReleased(s, h, j, t, i, m.0, m.1);
    actions', m' := PlayOneMore(s, h, t, actions, m, ARelease(t));
  }

  // ----- The books at the end

  /** What the books of dependency `d` say of job `j`. */
  ghost predicate BooksOf(s: Sys, h: Hist, j: nat, d: nat) {
    && j < |s.jobs| == |h| && d < j && CountsOfJob(s, h, d) && |h[j].edges| == |s.jobs[j].dependencies|
    && (forall k :: 0 <= k < |s.jobs[j].dependencies| && s.jobs[j].dependencies[k] == d ==>
          Dependent(j, k) in s.jobs[d].dependents)
    && (forall p :: 0 <= p < |s.jobs[d].dependents| ==> LinkedFrom(s, d, s.jobs[d].dependents[p]))
    && (forall p, q :: 0 <= p < q < |s.jobs[d].dependents| ==> s.jobs[d].dependents[p] != s.jobs[d].dependents[q])
    && (forall x :: 0 <= x < |h| ==> !h[x].holder.HeldBy?)
  }

  lemma RestHasBooks(s: Sys, h: Hist, j: nat, k: nat)
    requires Inv(s, h) && AtRest(s) && j < |s.jobs| && k < |s.jobs[j].dependencies|
    ensures BooksOf(s, h, j, s.jobs[j].dependencies[k])
  {
    assert ShapeOfJob(s, h, j);
    var d := s.jobs[j].dependencies[k];
    assert ShapeOfJob(s, h, d) && CountsOfJob(s, h, d);
    forall x | 0 <= x < |h| ensures !h[x].holder.HeldBy? { RestingJob(s, h, x); }
  }

  /** The history with the first `i` edges of `j` unused. */
  function Cleared(h: Hist, j: nat, i: nat): (r: Hist)
    requires j < |h| && i <= |h[j].edges|
    ensures |r| == |h| && |r[j].edges| == |h[j].edges|
    ensures forall k :: 0 <= k < |h[j].edges| ==> r[j].edges[k] == if k < i then Unused else h[j].edges[k]
    ensures forall x :: 0 <= x < |h| && x != j ==> r[x] == h[x]
  {
    var edges := h[j].edges;
    h[j := h[j].(edges := seq(|edges|, k requires 0 <= k < |edges| => if k < i then Unused else edges[k]))]
  }

  /** How many of the first `i` edges of `j` are in use and lead to `d`. */
  function UsedTimes(s: Sys, h: Hist, j: nat, i: nat, d: nat): nat
    requires j < |s.jobs| && i <= |s.jobs[j].dependencies|
  {
    if i == 0 then 0
    else UsedTimes(s, h, j, i - 1, d) + if s.jobs[j].dependencies[i - 1] == d then Busy(h, Dependent(j, i - 1)) else 0
  }

  lemma {:induction false} ClearedCount(s: Sys, h: Hist, j: nat, i: nat, d: nat)
    requires BooksOf(s, h, j, d) && i <= |s.jobs[j].dependencies|
    ensures CountBusy(Cleared(h, j, i), s.jobs[d].dependents) ==
            CountBusy(h, s.jobs[d].dependents) - UsedTimes(s, h, j, i, d)
  {
    if i == 0 {
      assert Cleared(h, j, 0)[j].edges == h[j].edges;
      assert Cleared(h, j, 0) == h;
    } else {
      ClearedCount(s, h, j, i - 1, d);
      OneMoreCleared(s, h, j, i - 1, d);
    }
  }

  lemma OneMoreCleared(s: Sys, h: Hist, j: nat, i: nat, d: nat)
    requires BooksOf(s, h, j, d) && i < |s.jobs[j].dependencies|
    ensures CountBusy(Cleared(h, j, i + 1), s.jobs[d].dependents) == CountBusy(Cleared(h, j, i), s.jobs[d].dependents) -
            if s.jobs[j].dependencies[i] == d then Busy(h, Dependent(j, i)) else 0
  {
    var before, after, ds, e := Cleared(h, j, i), Cleared(h, j, i + 1), s.jobs[d].dependents, Dependent(j, i);
    assert forall x: Dependent :: x != e ==> EdgeOf(after, x) == EdgeOf(before, x);
    if s.jobs[j].dependencies[i] == d {
      var p :| 0 <= p < |ds| && ds[p] == e;
      CountBusyOne(before, after, ds, p);
    } else {
      forall p | 0 <= p < |ds| ensures ds[p] != e { assert LinkedFrom(s, d, ds[p]); }
      CountBusySame(before, after, ds);
    }
  }

  /** Entries whose edges are unused can be erased without changing the count. */
  lemma {:induction false} ErasedTimesCount(h: Hist, ds: seq<Dependent>, j: nat, n: nat)
    requires forall e: Dependent :: e.job == j ==> EdgeOf(h, e) == Unused
    ensures CountBusy(h, ErasedTimes(ds, j, n)) == CountBusy(h, ds)
    ensures forall x :: x in ErasedTimes(ds, j, n) ==> x in ds
  {
    if n == 0 {
    } else {
      ErasedTimesCount(h, ds, j, n - 1);
      ErasedCount(h, ErasedTimes(ds, j, n - 1), j);
      FirstIsListed(ErasedTimes(ds, j, n - 1), j);
    }
  }

  lemma FinalCount(s: Sys, h: Hist, j: nat, t: nat, s1: Sys, h1: Hist, d: nat, n: nat)
    requires BooksOf(s, h, j, d) && Released(s, h, j, t, |s.jobs[j].dependencies|, s1, h1)
    ensures var ds := s.jobs[d].dependents;
            && CountBusy(h1, ErasedTimes(ds, j, n)) ==
               CountBusy(h, ds) - UsedTimes(s, h, j, |s.jobs[j].dependencies|, d)
            && (forall x :: x in ErasedTimes(ds, j, n) ==> x in ds)
  {
    var ds, cleared := s.jobs[d].dependents, Cleared(h, j, |h[j].edges|);
    ErasedTimesCount(h1, ds, j, n);
    ClearedCount(s, h, j, |h[j].edges|, d);
    forall p | 0 <= p < |ds| ensures EdgeOf(h1, ds[p]) == Unused <==> EdgeOf(cleared, ds[p]) == Unused {
      OtherEdgesStay(s, h, j, t, s1, h1, d, ds[p]);
    }
    CountBusySame(h1, cleared, ds);
  }

  /** The edges of other jobs to the dependency are as they were. */
  lemma OtherEdgesStay(s: Sys, h: Hist, j: nat, t: nat, s1: Sys, h1: Hist, d: nat, e: Dependent)
    requires BooksOf(s, h, j, d) && Released(s, h, j, t, |s.jobs[j].dependencies|, s1, h1)
    requires e in s.jobs[d].dependents
    ensures e.job == j ==> EdgeOf(h1, e) == Unused
    ensures e.job != j ==> (EdgeOf(h1, e) == Unused <==> EdgeOf(h, e) == Unused)
  {
    var ds := s.jobs[d].dependents;
    var p :| 0 <= p < |ds| && ds[p] == e;
    assert LinkedFrom(s, d, ds[p]);
    assert e.job != j ==> !Touches(s, j, e);
  }

  /** All edges to `d` are in use exactly when as many are in use as there are. */
  lemma {:induction false} UsedTimesIff(s: Sys, h: Hist, j: nat, i: nat, d: nat)
    requires j < |s.jobs| && i <= |s.jobs[j].dependencies|
    ensures UsedTimes(s, h, j, i, d) <= Times(s, j, i, d)
    ensures UsedTimes(s, h, j, i, d) == Times(s, j, i, d) <==>
            forall k :: 0 <= k < i && s.jobs[j].dependencies[k] == d ==> EdgeOf(h, Dependent(j, k)) != Unused
  {
    if i == 0 {
    } else {
      UsedTimesIff(s, h, j, i - 1, d);
    }
  }

  /** The books of dependency `d` at the end hold exactly when as many usages were given back as
      edges were in use. */
  lemma FinalBooksIff(s: Sys, h: Hist, j: nat, t: nat, s1: Sys, h1: Hist, d: nat)
    requires BooksOf(s, h, j, d) && Released(s, h, j, t, |s.jobs[j].dependencies|, s1, h1)
    ensures var n := |s.jobs[j].dependencies|;
            CountsOfJob(s1, h1, d) <==> UsedTimes(s, h, j, n, d) == Times(s, j, n, d)
  {
    var n := |s.jobs[j].dependencies|;
    var times, used := Times(s, j, n, d), UsedTimes(s, h, j, n, d);
    FinalCount(s, h, j, t, s1, h1, d, times);
    assert ReleasedJob(s, h, j, n, s1, h1, d);
    forall x | x in s.jobs[d].dependents && EdgeOf(h, x) == Unused ensures EdgeOf(h1, x) == Unused {
      OtherEdgesStay(s, h, j, t, s1, h1, d, x);
    }
    assert !TellsNow(s, h, d) && !TellsNow(s1, h1, d);
    BooksBalanceIff(s, h, s1, h1, d, times, used);
  }

  /** At rest all edges of an idle job are in use exactly when a launch of it is queued. */
  lemma QueuedIff(s: Sys, h: Hist, j: nat)
    requires Inv(s, h) && AtRest(s) && j < |s.jobs| && s.jobs[j].dependencies != [] && s.jobs[j].usage == 0
    ensures IsAwaitingPull(s, j) <==> forall k :: 0 <= k < |h[j].edges| ==> h[j].edges[k] != Unused
  {
    RestingJob(s, h, j);
    assert ShapeOfJob(s, h, j) && CountsOfJob(s, h, j) && StageOfJob(s, h, j);
    CountFreshBounds(h[j].edges);
    if h[j].stage == Queued {
      var k := QueuedSomewhere(s, h, j);
    } else if IsAwaitingPull(s, j) {
      var q: nat, k: nat :| IsQueued(s, q, k) && s.queues[q][k].job == j;
      CountOfPresent(s.queues[q], k);
    }
  }

  ghost predicate IsAwaitingPull(s: Sys, j: nat) {
    exists q: nat, k: nat :: IsQueued(s, q, k) && s.queues[q][k].job == j
  }

  ghost predicate AllBooksHold(s: Sys, h: Hist, ds: seq<nat>) {
    forall k :: 0 <= k < |ds| ==> ds[k] < |s.jobs| == |h| && CountsOfJob(s, h, ds[k])
  }

  lemma AllBooksIff(s: Sys, h: Hist, j: nat, t: nat, s1: Sys, h1: Hist)
    requires Inv(s, h) && AtRest(s) && j < |s.jobs| && s.jobs[j].dependencies != [] && s.jobs[j].usage == 0
    requires Released(s, h, j, t, |s.jobs[j].dependencies|, s1, h1)
    ensures IsAwaitingPull(s, j) <==> AllBooksHold(s1, h1, s.jobs[j].dependencies)
  {
    var deps := s.jobs[j].dependencies;
    QueuedIff(s, h, j);
    forall k | 0 <= k < |deps|
      ensures deps[k] < |s1.jobs|
      ensures CountsOfJob(s1, h1, deps[k]) <==>
                forall l :: 0 <= l < |deps| && deps[l] == deps[k] ==> EdgeOf(h, Dependent(j, l)) != Unused
    {
      RestHasBooks(s, h, j, k);
      FinalBooksIff(s, h, j, t, s1, h1, deps[k]);
      UsedTimesIff(s, h, j, |deps|, deps[k]);
    }
    assert forall l :: 0 <= l < |deps| ==> EdgeOf(h, Dependent(j, l)) == h[j].edges[l];
  }

  lemma ReleasingBegins(s: Sys, h: Hist, j: nat, t: nat, s1: Sys, h1: Hist)
    requires Underway(s, h, j, t, s1, h1) && Tidy(s, h, j, t, s1, h1) && s1.threads[t].act == Releasing(j, 0)
    requires s.jobs[j].dependencies != [] && |h[j].edges| == |s.jobs[j].dependencies|
    ensures Released(s, h, j, t, 0, s1, h1)
  {
    assert SameWiring(s.jobs[j], s1.jobs[j]);
  }

  lemma DependenciesAreOlder(s: Sys, h: Hist, j: nat)
    requires Inv(s, h) && j < |s.jobs|
    ensures DependsOnOlder(s, j) && |h[j].edges| == |s.jobs[j].dependencies|
  {
    assert ShapeOfJob(s, h, j);
  }

  // ----- Every way to work the launch off

  /** After the call thread `t` pulls a launch of `j` and goes on until it is idle again, while
      nobody else moves. */
  ghost predicate WorksOff(s: Sys, h: Hist, hd: nat, j: nat, t: nat, actions: seq<Action>, m: (Sys, Hist)) {
    && |h| == |s.jobs| && Played(s, h, actions) == Some(m) && Works(actions, t)
    && actions[0] == ADestroy(hd) && actions[1].APull? && actions[1].t == t && PulledAfter(s, hd, j, t, actions[1].k)
    && t < |m.0.threads| && m.0.threads[t].act == Idle
  }

  /** The launch can be worked off, whichever launch of the job is pulled. */
  lemma WorkOff(s: Sys, h: Hist, hd: nat, j: nat, t: nat, k: nat) returns (actions: seq<Action>, m: (Sys, Hist))
    requires Destroyable(s, h, hd, j, t) && PulledAfter(s, hd, j, t, k)
    ensures WorksOff(s, h, hd, j, t, actions, m) && actions[1] == APull(t, k)
    ensures IsAwaitingPull(s, j) <==> AllBooksHold(m.0, m.1, s.jobs[j].dependencies)
  {
    var k0 := PendedIsPullable(s, h, hd, j, t);
    actions, m := PlayPull(s, h, hd, j, t, k);
    actions, m := PlayAll(s, h, j, t, actions, m);
    DependenciesAreOlder(s, h, j);
    ReleasingBegins(s, h, j, t, m.0, m.1);
    actions, m := PlayReleases(s, h, j, t, actions, 0, |s.jobs[j].dependencies|, actions, m);
    AllBooksIff(s, h, j, t, m.0, m.1);
  }

  /** The step that a working thread has to take. */
  function WorkDue(s: Sys, t: nat): Action
    requires t < |s.threads|
  {
    match s.threads[t].act
    case Idle => ACheck(t)
    case Pulled(_) => ACheck(t)
    case Checked(_) => ADispatch(t)
    case Running(_) => AFinishBegin(t)
    case Skipped(_) => AFinishBegin(t)
    case Finishing(j, next, _) =>
      if j < |s.jobs| && next == |s.jobs[j].dependents| then AFinishEnd(t) else AFinishNext(t)
    case Pushing(_, _) => APushNext(t)
    case Releasing(_, _) => ARelease(t)
  }

  /** A thread that works has one step to take. */
  lemma OneWay(s: Sys, t: nat, a: Action)
    requires WorkOf(a, t) && Step(s, a).Some?
    ensures t < |s.threads| && s.threads[t].act != Idle && a == WorkDue(s, t)
  {
  }

  /** After the first two actions, each is one that can follow those before it. */
  ghost predicate Chain(can: (seq<Action>, Action) -> bool, a: seq<Action>) {
    var n := |a| - 1;
    n > 0 && (n > 1 ==> Chain(can, a[..n]) && can(a[..n], a[n]))
  }

  /** Where only one action can follow, two chains that begin alike are alike as far as both go. */
  lemma {:induction false} ChainsAgree(can: (seq<Action>, Action) -> bool, a: seq<Action>, b: seq<Action>)
    requires Chain(can, a) && Chain(can, b) && a[0] == b[0] && a[1] == b[1] && |a| == |b|
    requires forall front, x, y :: can(front, x) && can(front, y) ==> x == y
    ensures a == b
    decreases |a|
  {
    var n := |a| - 1;
    if n == 1 {
      assert a == [a[0], a[1]] && b == [b[0], b[1]];
    } else {
      ChainsAgree(can, a[..n], b[..n]);
      assert a == a[..n] + [a[n]] && b == b[..n] + [b[n]];
    }
  }

  /** ... and none goes on where nothing can follow. */
  lemma {:induction false} ChainStops(can: (seq<Action>, Action) -> bool, a: seq<Action>, b: seq<Action>)
    requires Chain(can, a) && Chain(can, b) && a[0] == b[0] && a[1] == b[1]
    requires forall front, x, y :: can(front, x) && can(front, y) ==> x == y
    requires forall x :: !can(a, x)
    ensures |b| <= |a|
    decreases |b|
  {
    var n := |b| - 1;
    if n < |a| {
    } else if n == |a| {
      ChainsAgree(can, a, b[..n]);
    } else {
      ChainStops(can, a, b[..n]);
    }
  }

  /** Thread `t` can take step `a` after the actions `front`. */
  ghost predicate CanWork(s: Sys, h: Hist, t: nat, front: seq<Action>, a: Action) {
    && |h| == |s.jobs| && WorkOf(a, t) && Played(s, h, front).Some?
    && Step(Played(s, h, front).value.0, a).Some?
  }

  lemma {:induction false} WorkIsChain(s: Sys, h: Hist, t: nat, a: seq<Action>)
    requires |h| == |s.jobs| && Played(s, h, a).Some? && Works(a, t)
    ensures Chain((front, x) => CanWork(s, h, t, front, x), a)
    decreases |a|
  {
    var n := |a| - 1;
    if n == 1 {
    } else {
      LastStep(s, h, t, a);
      WorkIsChain(s, h, t, a[..n]);
    }
  }

  lemma LastStep(s: Sys, h: Hist, t: nat, a: seq<Action>)
    requires |h| == |s.jobs| && Played(s, h, a).Some? && |a| > 0 && WorkOf(a[|a| - 1], t)
    ensures Played(s, h, a[..|a| - 1]).Some? && CanWork(s, h, t, a[..|a| - 1], a[|a| - 1])
  {
  }

  /** A thread that has become idle has done all its work, and there was one way to do it. */
  lemma OneWork(s: Sys, h: Hist, t: nat, a: seq<Action>, b: seq<Action>, m: (Sys, Hist), r: (Sys, Hist))
    requires |h| == |s.jobs| && Played(s, h, a) == Some(m) && Played(s, h, b) == Some(r) && Works(a, t) && Works(b, t)
    requires a[0] == b[0] && a[1] == b[1] && t < |m.0.threads| && m.0.threads[t].act == Idle
    requires t < |r.0.threads| && r.0.threads[t].act == Idle
    ensures a == b
  {
    var can := (front, x) => CanWork(s, h, t, front, x);
    WorkIsChain(s, h, t, a);
    WorkIsChain(s, h, t, b);
    forall front, x, y | can(front, x) && can(front, y) ensures x == y {
      OneWay(Played(s, h, front).value.0, t, x);
      OneWay(Played(s, h, front).value.0, t, y);
    }
    forall x ensures !can(a, x) { IdleIsDone(s, h, t, a, m, x); }
    forall x ensures !can(b, x) { IdleIsDone(s, h, t, b, r, x); }
    ChainStops(can, a, b);
    ChainStops(can, b, a);
    ChainsAgree(can, a, b);
  }

  lemma IdleIsDone(s: Sys, h: Hist, t: nat, a: seq<Action>, m: (Sys, Hist), x: Action)
    requires |h| == |s.jobs| && Played(s, h, a) == Some(m) && t < |m.0.threads| && m.0.threads[t].act == Idle
    ensures !CanWork(s, h, t, a, x)
  {
    if CanWork(s, h, t, a, x) { OneWay(m.0, t, x); }
  }

  /** Destroying an idle job at rest: whenever its launch has been worked off, the books of all
      its dependencies hold exactly when a launch of it was queued at the call, that is, when
      it had been triggered. */
  lemma DestructionBalancesIff(s: Sys, h: Hist, hd: nat, j: nat, t: nat, actions: seq<Action>, m: (Sys, Hist))
    requires Destroyable(s, h, hd, j, t) && WorksOff(s, h, hd, j, t, actions, m)
    ensures IsAwaitingPull(s, j) <==> AllBooksHold(m.0, m.1, s.jobs[j].dependencies)
  {
    var actions', m' := WorkOff(s, h, hd, j, t, actions[1].k);
    OneWork(s, h, t, actions, actions', m, m');
  }

  /** ... and it can be: the launch that the call pushed can be pulled. */
  lemma DestructionIsWorkedOff(s: Sys, h: Hist, hd: nat, j: nat, t: nat)
    returns (actions: seq<Action>, m: (Sys, Hist))
    requires Destroyable(s, h, hd, j, t)
    ensures WorksOff(s, h, hd, j, t, actions, m)
  {
    var k := PendedIsPullable(s, h, hd, j, t);
    actions, m := WorkOff(s, h, hd, j, t, k);
  }
}
