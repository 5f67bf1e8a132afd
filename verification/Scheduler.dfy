/** The job scheduler as a step system: what each locked step of the source does to the
    job entries, the queues and the worker threads. */
module Scheduling {
  import opened Options
  import opened LaunchQueues

  /** An entry of a `dependents` list. `slot` says which of the dependent's dependencies
      the link was made for; no step of the system looks at it. */
  datatype Dependent = Dependent(job: nat, slot: nat)

  /** A job entry; jobs are numbered in order of creation. The counters are unsigned in the
      source: that they never drop below zero is proved, not assumed. A long job has no
      queue until its thread exists. */
  datatype JobEntry = JobEntry(
    dependencies: seq<nat>, countdown: int, dependents: seq<Dependent>, usage: int,
    hasFunction: bool, plugin: nat, queue: Option<nat>,
    destroyed: bool, destructionPended: bool, invalidated: bool)

  /** Where a worker thread is in `processLaunch`. During `Finishing` it holds the mutex of
      its job; `next` is the dependent it comes to next. */
  datatype Activity =
    | Idle
    | Pulled(job: nat)
    | Checked(job: nat)
    | Running(job: nat)
    | Skipped(job: nat)
    | Finishing(job: nat, next: nat, planned: seq<Launch>)
    | Pushing(job: nat, planned: seq<Launch>)
    | Releasing(job: nat, next: nat)
  {
    /** The thread has pulled a launch and not yet given the job's usage back. */
    predicate Holding() { Pulled? || Checked? || Running? || Skipped? || Finishing? }

    predicate Holds(j: nat) { Holding() && job == j }

    function Plans(): seq<Launch> {
      if Finishing? || Pushing? then planned else []
    }
  }

  datatype Thread = Thread(queue: nat, act: Activity)

  /** A `createJob` call under way: it holds the scheduler's mutex. */
  datatype Creation = Creation(job: nat, next: nat, long: bool)

  datatype Sys = Sys(
    jobs: seq<JobEntry>, handles: seq<nat>, queues: seq<seq<Launch>>, threads: seq<Thread>,
    creating: Option<Creation>, unloaded: set<nat>, now: int)

  /** What is asked of `createJob`; no dependency list means the schedule trigger. */
  datatype JobRequest = JobRequest(dependencies: Option<seq<nat>>, hasFunction: bool, plugin: nat, long: bool)

  function Start(shortThreads: nat): Sys {
    Sys([], [], [[]], seq(shortThreads, _ => Thread(0, Idle)), None, {}, 0)
  }

  /** No thread holds the mutex of job `j` across steps. */
  predicate Unlocked(s: Sys, j: nat) {
    forall t :: 0 <= t < |s.threads| ==> !(s.threads[t].act.Finishing? && s.threads[t].act.job == j)
  }

  function SetJob(s: Sys, j: nat, e: JobEntry): Sys
    requires j < |s.jobs|
  {
    s.(jobs := s.jobs[j := e])
  }

  function SetAct(s: Sys, t: nat, act: Activity): Sys
    requires t < |s.threads|
  {
    s.(threads := s.threads[t := s.threads[t].(act := act)])
  }

  // ----- The calls of the interface

  function Resolved(s: Sys, handles: seq<nat>): (r: Option<seq<nat>>)
    ensures r.Some? <==> forall i :: 0 <= i < |handles| ==> handles[i] < |s.handles|
    ensures r.Some? ==> |r.value| == |handles| && forall i :: 0 <= i < |handles| ==> r.value[i] == s.handles[handles[i]]
  {
    if forall i :: 0 <= i < |handles| ==> handles[i] < |s.handles|
    then Some(seq(|handles|, i requires 0 <= i < |handles| && handles[i] < |s.handles| => s.handles[handles[i]]))
    else None
  }

  /** The entries a creation request names, `None` when the request is refused. */
  function RequestedDependencies(s: Sys, r: JobRequest): Option<seq<nat>> {
    match r.dependencies
    case None => Some([])
    case Some(hs) => if hs == [] then None else Resolved(s, hs)
  }

  function CreateBegin(s: Sys, r: JobRequest): Option<Sys> {
    if s.creating.Some? then None
    else
      match RequestedDependencies(s, r)
      case None => Some(s)
      case Some(deps) =>
        var entry := JobEntry(deps, |deps|, [], 0, r.hasFunction, r.plugin, if r.long then None else Some(0),
                              false, false, false);
        Some(s.(jobs := s.jobs + [entry], creating := Some(Creation(|s.jobs|, 0, r.long))))
  }

  /** Enters the new job into the `dependents` of its next dependency. */
  function CreateLink(s: Sys): Option<Sys> {
    if s.creating.None? || s.creating.value.job >= |s.jobs| then None
    else
      var c := s.creating.value;
      var deps := s.jobs[c.job].dependencies;
      if c.next >= |deps| || deps[c.next] >= |s.jobs| || !Unlocked(s, deps[c.next]) then None
      else
        var d := s.jobs[deps[c.next]];
        Some(SetJob(s, deps[c.next], d.(dependents := d.dependents + [Dependent(c.job, c.next)]))
             .(creating := Some(c.(next := c.next + 1))))
  }

  /** Gives a long job its thread and hands out the handle. */
  function CreateEnd(s: Sys): Option<Sys> {
    if s.creating.None? || s.creating.value.job >= |s.jobs| then None
    else
      var c := s.creating.value;
      if c.next != |s.jobs[c.job].dependencies| then None
      else
        var s1 := if !c.long then s else
                  SetJob(s, c.job, s.jobs[c.job].(queue := Some(|s.queues|)))
                  .(queues := s.queues + [[]], threads := s.threads + [Thread(|s.queues|, Idle)]);
        Some(s1.(handles := s.handles + [c.job], creating := None))
  }

  function Capability(s: Sys, h: nat): Option<Sys> {
    if s.creating.Some? then None
    else if h >= |s.handles| then Some(s)
    else Some(s.(handles := s.handles + [s.handles[h]]))
  }

  /** The job a handle names, when the call gets past the mutex and the lookup. */
  function Named(s: Sys, h: nat): (r: Option<nat>)
    ensures r.Some? ==> r.value < |s.jobs|
  {
    if h < |s.handles| && s.handles[h] < |s.jobs| then Some(s.handles[h]) else None
  }

  /** Pushes a launch to the queue of its job. `None` when the job has no queue yet. */
  function Enqueued(s: Sys, l: Launch): Option<Sys> {
    if l.job < |s.jobs| && s.jobs[l.job].queue.Some? && s.jobs[l.job].queue.value < |s.queues| then
      var q := s.jobs[l.job].queue.value;
      Some(s.(queues := s.queues[q := Pushed(s.queues[q], l)]))
    else None
  }

  /** Pushes a launch for a time of the clock. */
  function Schedule(s: Sys, h: nat, timepoint: int): Option<Sys> {
    if s.creating.Some? then None
    else if Named(s, h).None? then Some(s)
    else
      var e := s.jobs[Named(s, h).value];
      if e.dependencies != [] || e.invalidated then Some(s)
      else Enqueued(s, Launch(Named(s, h).value, timepoint))
  }

  function Invalidate(s: Sys, h: nat): Option<Sys> {
    if s.creating.Some? then None
    else if Named(s, h).None? then Some(s)
    else var j := Named(s, h).value; Some(SetJob(s, j, s.jobs[j].(invalidated := true)))
  }

  function Destroy(s: Sys, h: nat): Option<Sys> {
    if s.creating.Some? then None
    else if Named(s, h).None? then Some(s)
    else
      var j := Named(s, h).value;
      Enqueued(SetJob(s, j, s.jobs[j].(destructionPended := true)), Launch(j, 0))
  }

  function UnloadPlugin(s: Sys, p: nat): Option<Sys> { Some(s.(unloaded := s.unloaded + {p})) }

  function Tick(s: Sys, now: int): Option<Sys> { if s.now <= now then Some(s.(now := now)) else None }

  // ----- The steps of a worker thread

  /** Takes launch `k` of the thread's queue: due, and its job idle. */
  function Pull(s: Sys, t: nat, k: nat): Option<Sys> {
    if t < |s.threads| && s.threads[t].act == Idle && s.threads[t].queue < |s.queues|
       && k < |s.queues[s.threads[t].queue]| && s.queues[s.threads[t].queue][k].job < |s.jobs| then
      var q := s.threads[t].queue;
      var l := s.queues[q][k];
      if Ready(s, l) && Unlocked(s, l.job) then
        var s1 := SetJob(s, l.job, s.jobs[l.job].(usage := s.jobs[l.job].usage + 1));
        Some(SetAct(s1.(queues := s.queues[q := WithoutAt(s.queues[q], k)]), t, Pulled(l.job)))
      else None
    else None
  }

  /** The test in `pull`. */
  predicate Ready(s: Sys, l: Launch)
    requires l.job < |s.jobs|
  {
    l.timepoint <= s.now && s.jobs[l.job].usage == 0
  }

  /** The early returns: the usage taken by the pull is not given back. */
  function Check(s: Sys, t: nat): Option<Sys> {
    if t < |s.threads| && s.threads[t].act.Pulled? && s.threads[t].act.job < |s.jobs| then
      var j := s.threads[t].act.job;
      var e := s.jobs[j];
      Some(SetAct(s, t, if e.invalidated || e.destroyed || e.plugin in s.unloaded then Idle else Checked(j)))
    else None
  }

  function Dispatch(s: Sys, t: nat): Option<Sys> {
    if t < |s.threads| && s.threads[t].act.Checked? && s.threads[t].act.job < |s.jobs| then
      var j := s.threads[t].act.job;
      if s.jobs[j].destructionPended then
        Some(SetAct(SetJob(s, j, s.jobs[j].(destroyed := true)), t, Skipped(j)))
      else Some(SetAct(s, t, if s.jobs[j].hasFunction then Running(j) else Skipped(j)))
    else None
  }

  function FinishBegin(s: Sys, t: nat): Option<Sys> {
    if t < |s.threads| && (s.threads[t].act.Running? || s.threads[t].act.Skipped?)
       && s.threads[t].act.job < |s.jobs| && Unlocked(s, s.threads[t].act.job) then
      var j := s.threads[t].act.job;
      var e := s.jobs[j];
      Some(SetAct(SetJob(s, j, e.(usage := e.usage + |e.dependents|)), t, Finishing(j, 0, [])))
    else None
  }

  /** One dependent: its countdown drops, and at zero it is reset and a launch planned. */
  function FinishNext(s: Sys, t: nat): Option<Sys> {
    if t < |s.threads| && s.threads[t].act.Finishing? && s.threads[t].act.job < |s.jobs|
       && s.threads[t].act.next < |s.jobs[s.threads[t].act.job].dependents| then
      var act := s.threads[t].act;
      var d := s.jobs[act.job].dependents[act.next].job;
      if d < |s.jobs| && Unlocked(s, d) then
        var e := s.jobs[d];
        if e.countdown - 1 == 0 then
          Some(SetAct(SetJob(s, d, e.(countdown := |e.dependencies|)), t,
                      Finishing(act.job, act.next + 1, act.planned + [Launch(d, s.now)])))
        else
          Some(SetAct(SetJob(s, d, e.(countdown := e.countdown - 1)), t, Finishing(act.job, act.next + 1, act.planned)))
      else None
    else None
  }

  /** What a thread goes on to with the launch of `j` once nothing is left to push. */
  function AfterPushing(s: Sys, j: nat): Activity
    requires j < |s.jobs|
  {
    if s.jobs[j].dependencies == [] then Idle else Releasing(j, 0)
  }

  function FinishEnd(s: Sys, t: nat): Option<Sys> {
    if t < |s.threads| && s.threads[t].act.Finishing? && s.threads[t].act.job < |s.jobs|
       && s.threads[t].act.next == |s.jobs[s.threads[t].act.job].dependents| then
      var act := s.threads[t].act;
      var e := s.jobs[act.job];
      Some(SetAct(SetJob(s, act.job, e.(usage := e.usage - 1)), t,
                  if act.planned == [] then AfterPushing(s, act.job) else Pushing(act.job, act.planned)))
    else None
  }

  /** Pushes the next planned launch. Not enabled when its job has no queue: there the
      source dereferences a null thread pointer. */
  function PushNext(s: Sys, t: nat): Option<Sys> {
    if t < |s.threads| && s.threads[t].act.Pushing? && s.threads[t].act.planned != []
        && s.threads[t].act.job < |s.jobs| then
      var act := s.threads[t].act;
      match Enqueued(s, act.planned[0])
      case None => None
      case Some(s1) =>
        Some(SetAct(s1, t, if |act.planned| == 1 then AfterPushing(s, act.job) else Pushing(act.job, act.planned[1..])))
    else None
  }

  predicate PushesToMissingQueue(s: Sys, t: nat) {
    t < |s.threads| && s.threads[t].act.Pushing? && s.threads[t].act.planned != [] &&
    s.threads[t].act.planned[0].job < |s.jobs| && s.jobs[s.threads[t].act.planned[0].job].queue.None?
  }

  /** Removes the first dependent that is job `j`. */
  function Erased(ds: seq<Dependent>, j: nat): seq<Dependent> {
    if ds == [] then [] else if ds[0].job == j then ds[1..] else [ds[0]] + Erased(ds[1..], j)
  }

  /** Gives one usage back to the next dependency. */
  function Release(s: Sys, t: nat): Option<Sys> {
    if t < |s.threads| && s.threads[t].act.Releasing? && s.threads[t].act.job < |s.jobs|
       && s.threads[t].act.next < |s.jobs[s.threads[t].act.job].dependencies| then
      var act := s.threads[t].act;
      var d := s.jobs[act.job].dependencies[act.next];
      if d < |s.jobs| && Unlocked(s, d) then
        var e := s.jobs[d];
        var dependents := if s.jobs[act.job].destructionPended then Erased(e.dependents, act.job) else e.dependents;
        Some(SetAct(SetJob(s, d, e.(usage := e.usage - 1, dependents := dependents)), t,
                    if act.next + 1 == |s.jobs[act.job].dependencies| then Idle else Releasing(act.job, act.next + 1)))
      else None
    else None
  }

  // ----- All steps

  datatype Action =
    | ACreateBegin(r: JobRequest) | ACreateLink | ACreateEnd | ACapability(h: nat)
    | ASchedule(h: nat, timepoint: int) | AInvalidate(h: nat) | ADestroy(h: nat)
    | AUnloadPlugin(p: nat) | ATick(now: int)
    | APull(t: nat, k: nat) | ACheck(t: nat) | ADispatch(t: nat)
    | AFinishBegin(t: nat) | AFinishNext(t: nat) | AFinishEnd(t: nat) | APushNext(t: nat) | ARelease(t: nat)

  /** The state after an action, `None` when the action cannot be taken there. */
  function Step(s: Sys, a: Action): Option<Sys> {
    match a
    case ACreateBegin(r) => CreateBegin(s, r)
    case ACreateLink => CreateLink(s)
    case ACreateEnd => CreateEnd(s)
    case ACapability(h) => Capability(s, h)
    case ASchedule(h, timepoint) => Schedule(s, h, timepoint)
    case AInvalidate(h) => Invalidate(s, h)
    case ADestroy(h) => Destroy(s, h)
    case AUnloadPlugin(p) => UnloadPlugin(s, p)
    case ATick(now) => Tick(s, now)
    case APull(t, k) => Pull(s, t, k)
    case ACheck(t) => Check(s, t)
    case ADispatch(t) => Dispatch(s, t)
    case AFinishBegin(t) => FinishBegin(s, t)
    case AFinishNext(t) => FinishNext(s, t)
    case AFinishEnd(t) => FinishEnd(s, t)
    case APushNext(t) => PushNext(s, t)
    case ARelease(t) => Release(s, t)
  }
}
