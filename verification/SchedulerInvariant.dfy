/** The history that goes with a run of the scheduler and what every step keeps. */
module SchedulerInvariants {
  import opened Options
  import opened LaunchQueues
  import opened Scheduling

  // ----- The history

  /** A dependency edge: its dependency has not finished since the last release (`Unused`),
      it has finished and the dependent is waiting for the others (`Fresh`), or the
      dependent was triggered and has not yet released it (`Consumed`). */
  datatype Edge = Unused | Fresh | Consumed

  /** Who accounts for the usage that a pull takes. */
  datatype Holder = Free | HeldBy(t: nat) | Parked

  /** Where the one activation of a dependency-triggered job is. */
  datatype Stage = Dormant | PlannedBy(t: nat) | Queued | InHand | LeavingBy(t: nat)

  /** `base[i]` is the number of completions of dependency `i` when the edge was made. */
  datatype JobHist = JobHist(edges: seq<Edge>, base: seq<nat>, holder: Holder, stage: Stage,
                             activations: nat, completions: nat)

  type Hist = seq<JobHist>

  function EdgeOf(h: Hist, e: Dependent): Edge {
    if e.job < |h| && e.slot < |h[e.job].edges| then h[e.job].edges[e.slot] else Unused
  }

  function SetEdge(h: Hist, e: Dependent, x: Edge): Hist
    requires e.job < |h| && e.slot < |h[e.job].edges|
  {
    h[e.job := h[e.job].(edges := h[e.job].edges[e.slot := x])]
  }

  function AllConsumed(n: nat): seq<Edge> { seq(n, _ => Consumed) }

  /** How the history follows an action that is taken in state `s`. */
  function Follow(s: Sys, h: Hist, a: Action): Hist
    requires |h| == |s.jobs| && Step(s, a).Some?
  {
    match a
    case ACreateBegin(r) =>
      (match RequestedDependencies(s, r)
       case None => h
       case Some(deps) => h + [JobHist(seq(|deps|, _ => Unused), seq(|deps|, _ => 0), Free, Dormant, 0, 0)])
    case ACreateLink =>
      var c := s.creating.value;
      var d := s.jobs[c.job].dependencies[c.next];
      if c.next < |h[c.job].base| then h[c.job := h[c.job].(base := h[c.job].base[c.next := h[d].completions])] else h
    case APull(t, k) =>
      var j := s.queues[s.threads[t].queue][k].job;
      h[j := h[j].(holder := HeldBy(t), stage := if s.jobs[j].dependencies == [] then Dormant else InHand)]
    case ACheck(t) =>
      var j := s.threads[t].act.job;
      if Step(s, a).value.threads[t].act == Idle then h[j := h[j].(holder := Parked)] else h
    case AFinishBegin(t) =>
      var j := s.threads[t].act.job;
      h[j := h[j].(completions := h[j].completions + 1)]
    case AFinishNext(t) =>
      var e := s.jobs[s.threads[t].act.job].dependents[s.threads[t].act.next];
      if e.slot >= |h[e.job].edges| then h
      else if s.jobs[e.job].countdown - 1 == 0 then
        h[e.job := h[e.job].(edges := AllConsumed(|h[e.job].edges|), stage := PlannedBy(t),
                             activations := h[e.job].activations + 1)]
      else SetEdge(h, e, Fresh)
    case AFinishEnd(t) =>
      var j := s.threads[t].act.job;
      h[j := h[j].(holder := Free, stage := if s.jobs[j].dependencies == [] then Dormant else LeavingBy(t))]
    case APushNext(t) =>
      var j := s.threads[t].act.planned[0].job;
      h[j := h[j].(stage := Queued)]
    case ARelease(t) =>
      var act := s.threads[t].act;
      if act.next >= |h[act.job].edges| then h
      else
        var h1 := SetEdge(h, Dependent(act.job, act.next), Unused);
        if act.next + 1 == |s.jobs[act.job].dependencies| then h1[act.job := h1[act.job].(stage := Dormant)] else h1
    case _ => h
  }

  // ----- The invariant

  /** How many of the dependencies of `j` have been linked. */
  function Linked(s: Sys, j: nat): nat
    requires j < |s.jobs|
  {
    if s.creating.Some? && s.creating.value.job == j then s.creating.value.next else |s.jobs[j].dependencies|
  }

  /** Entry `e` stands for a linked edge from job `d`. */
  predicate LinkedFrom(s: Sys, d: nat, e: Dependent) {
    e.job < |s.jobs| && e.slot < Linked(s, e.job) && e.slot < |s.jobs[e.job].dependencies| &&
    s.jobs[e.job].dependencies[e.slot] == d
  }

  ghost predicate ShapeOfJob(s: Sys, h: Hist, j: nat)
    requires j < |s.jobs| && |h| == |s.jobs|
  {
    var e := s.jobs[j];
    && |h[j].edges| == |h[j].base| == |e.dependencies|
    && (forall i :: 0 <= i < |e.dependencies| ==> e.dependencies[i] < j)
    && (forall k :: 0 <= k < |e.dependents| ==> LinkedFrom(s, j, e.dependents[k]))
    && (forall k, l :: 0 <= k < l < |e.dependents| ==> e.dependents[k] != e.dependents[l])
    && (e.queue.Some? ==> e.queue.value < |s.queues|)
    && (e.queue.None? ==> s.creating.Some? && s.creating.value.job == j)
    && (e.destructionPended ==> e.dependencies == [])
  }

  /** Numbers are in range, dependencies are older, and the `dependents` lists hold every
      linked edge exactly once. */
  ghost predicate Shape(s: Sys, h: Hist) {
    && |h| == |s.jobs|
    && (forall i :: 0 <= i < |s.handles| ==> s.handles[i] < |s.jobs|)
    && (s.creating.Some? ==> s.creating.value.job + 1 == |s.jobs| &&
                             (s.jobs[s.creating.value.job].queue.None? <==> s.creating.value.long) &&
                             s.creating.value.next <= |s.jobs[s.creating.value.job].dependencies| &&
                             (forall i :: 0 <= i < |s.handles| ==> s.handles[i] != s.creating.value.job))
    && (forall j :: 0 <= j < |s.jobs| ==> ShapeOfJob(s, h, j))
    && (forall j, i :: 0 <= j < |s.jobs| && 0 <= i < Linked(s, j) && i < |s.jobs[j].dependencies| ==>
          s.jobs[j].dependencies[i] < |s.jobs| && Dependent(j, i) in s.jobs[s.jobs[j].dependencies[i]].dependents)
    && 0 < |s.queues| && (forall t :: 0 <= t < |s.threads| ==> s.threads[t].queue < |s.queues|)
  }

  ghost predicate ThreadInStep(s: Sys, h: Hist, t: nat)
    requires t < |s.threads| && |h| == |s.jobs|
  {
    var act := s.threads[t].act;
    && (!act.Idle? ==> act.job < |s.jobs|)
    && (act.Holding() ==> h[act.job].holder == HeldBy(t))
    && (act.Finishing? ==> act.next <= |s.jobs[act.job].dependents|)
    && (act.Pushing? || act.Releasing? ==> s.jobs[act.job].dependencies != [] ==> h[act.job].stage == LeavingBy(t))
    && (act.Pushing? ==> act.planned != [])
    && (act.Releasing? ==> act.next < |s.jobs[act.job].dependencies|)
    && (forall p :: 0 <= p < |act.Plans()| ==> PlanInStep(s, h, t, act.Plans()[p].job))
    && (forall p, r :: 0 <= p < r < |act.Plans()| ==> act.Plans()[p].job != act.Plans()[r].job)
  }

  predicate PlanInStep(s: Sys, h: Hist, t: nat, j: nat)
    requires |h| == |s.jobs|
  {
    j < |s.jobs| && s.jobs[j].dependencies != [] && h[j].stage == PlannedBy(t)
  }

  predicate InPlans(plans: seq<Launch>, j: nat) {
    exists p :: 0 <= p < |plans| && plans[p].job == j
  }

  /** The edges of a job agree with where its activation is. */
  ghost predicate StageOfJob(s: Sys, h: Hist, j: nat)
    requires j < |s.jobs| && |h| == |s.jobs|
  {
    var edges := h[j].edges;
    && (h[j].holder.HeldBy? ==> h[j].holder.t < |s.threads| && s.threads[h[j].holder.t].act.Holds(j))
    && (s.jobs[j].dependencies == [] ==> h[j].stage == Dormant)
    && (s.jobs[j].dependencies != [] ==>
          (h[j].holder != Free <==> h[j].stage == InHand) &&
          match h[j].stage
          case Dormant => forall i :: 0 <= i < |edges| ==> edges[i] != Consumed
          case PlannedBy(t) => t < |s.threads| && InPlans(s.threads[t].act.Plans(), j) && edges == AllConsumed(|edges|)
          case Queued => edges == AllConsumed(|edges|)
          case InHand => edges == AllConsumed(|edges|)
          case LeavingBy(t) =>
            && t < |s.threads|
            && (s.threads[t].act.Pushing? || s.threads[t].act.Releasing?) && s.threads[t].act.job == j
            && (s.threads[t].act.Pushing? ==> edges == AllConsumed(|edges|))
            && (s.threads[t].act.Releasing? ==>
                  (forall i :: 0 <= i < |edges| && i < s.threads[t].act.next ==> edges[i] != Consumed) &&
                  (forall i :: s.threads[t].act.next <= i < |edges| ==> edges[i] == Consumed)))
  }

  /** A queue holds launches of its own jobs, and one of a dependency-triggered job exactly
      when that job's activation is queued. */
  ghost predicate QueuesInStep(s: Sys, h: Hist)
    requires |h| == |s.jobs|
  {
    && (forall q, k :: 0 <= q < |s.queues| && 0 <= k < |s.queues[q]| ==>
          s.queues[q][k].job < |s.jobs| && s.jobs[s.queues[q][k].job].queue == Some(q))
    && (forall j :: 0 <= j < |s.jobs| && s.jobs[j].queue.Some? && s.jobs[j].queue.value < |s.queues| &&
                    s.jobs[j].dependencies != [] ==>
          CountOf(s.queues[s.jobs[j].queue.value], j) == if h[j].stage == Queued then 1 else 0)
    && (forall j :: 0 <= j < |s.jobs| && h[j].stage == Queued ==> s.jobs[j].queue.Some?)
  }

  function CountFresh(edges: seq<Edge>): nat {
    if edges == [] then 0 else CountFresh(edges[..|edges| - 1]) + if edges[|edges| - 1] == Fresh then 1 else 0
  }

  /** How many of the dependents have an edge that is not released. */
  function CountBusy(h: Hist, ds: seq<Dependent>): nat {
    if ds == [] then 0 else CountBusy(h, ds[..|ds| - 1]) + if EdgeOf(h, ds[|ds| - 1]) != Unused then 1 else 0
  }

  /** Is a thread telling the dependents of `j` that it has finished? */
  predicate TellsNow(s: Sys, h: Hist, j: nat)
    requires j < |s.jobs| && |h| == |s.jobs|
  {
    h[j].holder.HeldBy? && h[j].holder.t < |s.threads| && s.threads[h[j].holder.t].act.Finishing?
  }

  /** From which entry on the dependents are still to be told, while the job finishes. */
  function Told(s: Sys, h: Hist, j: nat): nat
    requires j < |s.jobs| && |h| == |s.jobs|
  {
    if TellsNow(s, h, j) then s.threads[h[j].holder.t].act.next else |s.jobs[j].dependents|
  }

  ghost predicate CountsOfJob(s: Sys, h: Hist, j: nat)
    requires j < |s.jobs| && |h| == |s.jobs|
  {
    var e := s.jobs[j];
    && e.usage == (if h[j].holder == Free then 0 else 1) + CountBusy(h, e.dependents) + (|e.dependents| - Told(s, h, j))
    && Told(s, h, j) <= |e.dependents|
    && (e.dependencies != [] ==> e.countdown == |e.dependencies| - CountFresh(h[j].edges) && e.countdown > 0)
    // a held job's edges are all released, until it tells its dependents
    && (h[j].holder != Free ==>
          forall k :: 0 <= k < |e.dependents| && (TellsNow(s, h, j) ==> Told(s, h, j) <= k) ==>
            EdgeOf(h, e.dependents[k]) == Unused)
  }

  /** Is edge (`j`, `i`) still to be told of the completion its dependency is announcing? */
  ghost predicate Announced(s: Sys, h: Hist, d: nat, e: Dependent)
    requires d < |s.jobs| && |h| == |s.jobs|
  {
    Told(s, h, d) <= |s.jobs[d].dependents| && e in s.jobs[d].dependents[Told(s, h, d)..]
  }

  /** Completions of the dependency that the edge has been told of. */
  ghost function Heard(s: Sys, h: Hist, j: nat, i: nat): int
    requires |h| == |s.jobs| && j < |s.jobs| && i < |s.jobs[j].dependencies| && i < |h[j].base|
    requires s.jobs[j].dependencies[i] < |s.jobs|
  {
    var d := s.jobs[j].dependencies[i];
    h[d].completions - h[j].base[i] - if Announced(s, h, d, Dependent(j, i)) then 1 else 0
  }

  ghost predicate HistoryOfJob(s: Sys, h: Hist, j: nat)
    requires j < |s.jobs| && |h| == |s.jobs| && ShapeOfJob(s, h, j)
  {
    && (forall i :: Linked(s, j) <= i < |h[j].edges| ==> h[j].edges[i] == Unused)
    && (Linked(s, j) < |h[j].edges| ==> h[j].activations == 0 && h[j].stage == Dormant)
    && (forall i :: 0 <= i < Linked(s, j) && i < |h[j].edges| ==>
          Heard(s, h, j, i) == h[j].activations + if h[j].edges[i] == Fresh then 1 else 0)
    && (s.jobs[j].dependencies != [] ==>
          h[j].activations == h[j].completions +
            if h[j].stage.PlannedBy? || h[j].stage == Queued || (h[j].stage == InHand && !TellsNow(s, h, j))
            then 1 else 0)
  }

  ghost predicate Inv(s: Sys, h: Hist) {
    && Shape(s, h)
    && (forall t :: 0 <= t < |s.threads| ==> ThreadInStep(s, h, t))
    && (forall j :: 0 <= j < |s.jobs| ==> StageOfJob(s, h, j))
    && QueuesInStep(s, h)
    && (forall j :: 0 <= j < |s.jobs| ==> CountsOfJob(s, h, j))
    && (forall j :: 0 <= j < |s.jobs| ==> ShapeOfJob(s, h, j) && HistoryOfJob(s, h, j))
  }
}
