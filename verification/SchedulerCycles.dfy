/** When jobs can come to wait for each other in a circle: a condition on the numbers of
    completions at which the edges were made, and the runs in which it never arises. */
module SchedulerCycles {
  import opened Options
  import opened LaunchQueues
  import opened Scheduling
  import opened SchedulerInvariants
  import opened SchedulerProofs
  import opened SchedulerWorkers
  import opened SchedulerRelease
  import opened SchedulerTelling
  import opened SchedulerTheorems
  import opened SchedulerProgress
  import opened SchedulerWaits

  // ----- Walks along edges

  /** One edge walked from the dependency to the dependent, or back. */
  datatype Hop = Down(job: nat, slot: nat) | Up(job: nat, slot: nat)

  /** The hop's edge exists and has been linked. */
  predicate IsHop(s: Sys, h: Hist, hop: Hop) {
    && hop.job < |s.jobs| == |h| && hop.slot < |s.jobs[hop.job].dependencies| && hop.slot < |h[hop.job].edges|
    && hop.slot < |h[hop.job].base| && hop.slot < Linked(s, hop.job)
       && s.jobs[hop.job].dependencies[hop.slot] < |s.jobs|
  }

  function From(s: Sys, h: Hist, hop: Hop): (x: nat)
    requires IsHop(s, h, hop)
    ensures x < |s.jobs|
  {
    if hop.Down? then s.jobs[hop.job].dependencies[hop.slot] else hop.job
  }

  function To(s: Sys, h: Hist, hop: Hop): (x: nat)
    requires IsHop(s, h, hop)
    ensures x < |s.jobs|
  {
    if hop.Down? then hop.job else s.jobs[hop.job].dependencies[hop.slot]
  }

  /** Set once and for all when the edge is made. */
  function Weight(s: Sys, h: Hist, hop: Hop): int
    requires IsHop(s, h, hop)
  {
    var base: int := h[hop.job].base[hop.slot];
    if hop.Down? then 1 + base else -base
  }

  ghost predicate IsWalk(s: Sys, h: Hist, w: seq<Hop>) {
    && w != [] && (forall i :: 0 <= i < |w| ==> IsHop(s, h, w[i]))
    && (forall i :: 0 <= i < |w| - 1 ==> To(s, h, w[i]) == From(s, h, w[i + 1]))
  }

  ghost predicate IsClosed(s: Sys, h: Hist, w: seq<Hop>) {
    IsWalk(s, h, w) && To(s, h, w[|w| - 1]) == From(s, h, w[0])
  }

  ghost function WeightOf(s: Sys, h: Hist, w: seq<Hop>): int
    requires forall i :: 0 <= i < |w| ==> IsHop(s, h, w[i])
  {
    if w == [] then 0 else WeightOf(s, h, w[..|w| - 1]) + Weight(s, h, w[|w| - 1])
  }

  // ----- Weights and waits

  /** How far the hop is from a wait: 0 when its first job waits for its second, otherwise 1. */
  function Slack(s: Sys, h: Hist, hop: Hop): int
    requires IsHop(s, h, hop)
  {
    h[To(s, h, hop)].completions - h[From(s, h, hop)].completions + Weight(s, h, hop)
  }

  lemma SlackIsZeroOrOne(s: Sys, h: Hist, hop: Hop)
    requires Inv(s, h) && IsHop(s, h, hop)
    ensures 0 <= Slack(s, h, hop) <= 1
  {
    LinkedInLockStep(s, h, hop.job, hop.slot);
  }

  /** At rest an edge is unused exactly when its dependent has completed as often as the
      dependency since the edge was made. */
  lemma EdgeByCompletions(s: Sys, h: Hist, hop: Hop)
    requires Inv(s, h) && AtRest(s) && IsHop(s, h, hop)
    ensures var d := s.jobs[hop.job].dependencies[hop.slot];
            h[d].completions - h[hop.job].base[hop.slot] - h[hop.job].completions ==
            if h[hop.job].edges[hop.slot] == Unused then 0 else 1
  {
    var j, i := hop.job, hop.slot;
    var d := s.jobs[j].dependencies[i];
    assert ShapeOfJob(s, h, j) && HistoryOfJob(s, h, j) && StageOfJob(s, h, j);
    RestingJob(s, h, j);
    RestingJob(s, h, d);
    assert Heard(s, h, j, i) == h[j].activations + if h[j].edges[i] == Fresh then 1 else 0;
  }

  /** The wait that a hop stands for. */
  ghost predicate HopWaits(s: Sys, h: Hist, hop: Hop)
    requires IsHop(s, h, hop)
  {
    hop.Down? <==> h[hop.job].edges[hop.slot] != Unused
  }

  lemma SlackIsWait(s: Sys, h: Hist, hop: Hop)
    requires Inv(s, h) && AtRest(s) && IsHop(s, h, hop)
    ensures Slack(s, h, hop) == if HopWaits(s, h, hop) then 0 else 1
    ensures HopWaits(s, h, hop) ==> Waits(s, h, From(s, h, hop), To(s, h, hop))
  {
    EdgeByCompletions(s, h, hop);
    assert ShapeOfJob(s, h, hop.job);
    assert IsEdge(s, h, s.jobs[hop.job].dependencies[hop.slot], hop.job, hop.slot);
  }

  /** At rest every wait is along a hop. */
  lemma WaitIsHop(s: Sys, h: Hist, x: nat, y: nat) returns (hop: Hop)
    requires Inv(s, h) && AtRest(s) && Waits(s, h, x, y)
    ensures IsHop(s, h, hop) && HopWaits(s, h, hop) && From(s, h, hop) == x && To(s, h, hop) == y
  {
    if AwaitsRelease(s, h, x, y) {
      var i: nat :| IsEdge(s, h, x, y, i) && h[y].edges[i] != Unused;
      hop := Down(y, i);
    } else {
      var i: nat :| IsEdge(s, h, y, x, i) && h[x].edges[i] == Unused;
      hop := Up(x, i);
    }
    assert ShapeOfJob(s, h, hop.job);
  }

  ghost function SlackOf(s: Sys, h: Hist, w: seq<Hop>): int
    requires forall i :: 0 <= i < |w| ==> IsHop(s, h, w[i])
  {
    if w == [] then 0 else SlackOf(s, h, w[..|w| - 1]) + Slack(s, h, w[|w| - 1])
  }

  /** Along a walk the completions cancel out. */
  lemma {:induction false} SlackTelescopes(s: Sys, h: Hist, w: seq<Hop>)
    requires IsWalk(s, h, w)
    ensures SlackOf(s, h, w) ==
            h[To(s, h, w[|w| - 1])].completions - h[From(s, h, w[0])].completions + WeightOf(s, h, w)
  {
    var n := |w| - 1;
    if n == 0 {
      assert w[..0] == [];
    } else {
      assert To(s, h, w[n - 1]) == From(s, h, w[n - 1 + 1]);
      SlackTelescopes(s, h, w[..n]);
    }
  }

  lemma {:induction false} SlackAddsUp(s: Sys, h: Hist, w: seq<Hop>)
    requires forall i :: 0 <= i < |w| ==> IsHop(s, h, w[i]) && Slack(s, h, w[i]) >= 0
    ensures SlackOf(s, h, w) >= 0
    ensures SlackOf(s, h, w) == 0 <==> forall i :: 0 <= i < |w| ==> Slack(s, h, w[i]) == 0
  {
    if w == [] {
    } else {
      var n := |w| - 1;
      SlackAddsUp(s, h, w[..n]);
      assert forall i :: 0 <= i < n ==> w[..n][i] == w[i];
    }
  }

  lemma SlackOfWalk(s: Sys, h: Hist, w: seq<Hop>)
    requires Inv(s, h) && IsWalk(s, h, w)
    ensures SlackOf(s, h, w) >= 0
    ensures SlackOf(s, h, w) == 0 <==> forall i :: 0 <= i < |w| ==> Slack(s, h, w[i]) == 0
  {
    forall i | 0 <= i < |w| ensures Slack(s, h, w[i]) >= 0 { SlackIsZeroOrOne(s, h, w[i]); }
    SlackAddsUp(s, h, w);
  }

  /** The weight of a closed walk is never negative, and at rest the walk is a circle of
      waits exactly when its weight is zero: this was decided when its edges were made. */
  lemma CircleOfWaitsIff(s: Sys, h: Hist, w: seq<Hop>)
    requires Inv(s, h) && IsClosed(s, h, w)
    ensures WeightOf(s, h, w) >= 0
    ensures AtRest(s) ==> (WeightOf(s, h, w) == 0 <==> forall i :: 0 <= i < |w| ==> HopWaits(s, h, w[i]))
  {
    SlackTelescopes(s, h, w);
    SlackOfWalk(s, h, w);
    if AtRest(s) {
      forall i | 0 <= i < |w| ensures Slack(s, h, w[i]) == 0 <==> HopWaits(s, h, w[i]) { SlackIsWait(s, h, w[i]); }
    }
  }

  // ----- Stuck sets and circles

  /** The hop is a wait for a job that is not about to release, by a job no thread holds. */
  ghost predicate HopBlocks(s: Sys, h: Hist, hop: Hop) {
    && IsHop(s, h, hop) && HopWaits(s, h, hop)
    && (h[From(s, h, hop)].holder == Free || h[From(s, h, hop)].holder == Parked)
    && Blocks(s, h, From(s, h, hop), To(s, h, hop))
  }

  lemma WaitingHopBlocks(s: Sys, h: Hist, hop: Hop)
    requires Inv(s, h) && AtRest(s) && IsHop(s, h, hop) && HopWaits(s, h, hop)
    ensures HopBlocks(s, h, hop)
  {
    SlackIsWait(s, h, hop);
    RestingJob(s, h, From(s, h, hop));
    RestingJob(s, h, To(s, h, hop));
  }

  lemma CircleIsStuck(s: Sys, h: Hist, w: seq<Hop>) returns (K: set<nat>)
    requires |h| == |s.jobs| && IsClosed(s, h, w) && forall i :: 0 <= i < |w| ==> HopBlocks(s, h, w[i])
    ensures StuckSet(s, h, K) && From(s, h, w[0]) in K
    ensures forall x :: x in K ==> exists i :: 0 <= i < |w| && From(s, h, w[i]) == x
  {
    K := set i: nat | i < |w| :: From(s, h, w[i]);
    forall x | x in K ensures StuckIn(s, h, K, x) {
      var i: nat :| i < |w| && From(s, h, w[i]) == x;
      var n := if i + 1 < |w| then i + 1 else 0;
      assert To(s, h, w[i]) == From(s, h, w[n]);
      assert HopBlocks(s, h, w[i]);
    }
  }

  ghost predicate WaitingHop(s: Sys, h: Hist, hop: Hop, x: nat) {
    IsHop(s, h, hop) && HopWaits(s, h, hop) && From(s, h, hop) == x
  }

  ghost predicate HasOnward(s: Sys, h: Hist, K: set<nat>, x: nat) {
    exists hop :: WaitingHop(s, h, hop, x) && To(s, h, hop) in K
  }

  /** Every job of the set has a waiting hop to another one. */
  ghost predicate Onward(s: Sys, h: Hist, K: set<nat>) {
    forall x {:trigger HasOnward(s, h, K, x)} :: x in K ==> HasOnward(s, h, K, x)
  }

  ghost predicate NoneParked(h: Hist, K: set<nat>) { forall x :: x in K && x < |h| ==> h[x].holder != Parked }

  lemma StuckGoesOnward(s: Sys, h: Hist, K: set<nat>)
    requires Inv(s, h) && AtRest(s) && StuckSet(s, h, K) && NoneParked(h, K)
    ensures Onward(s, h, K)
  {
    forall x | x in K ensures HasOnward(s, h, K, x) {
      assert StuckIn(s, h, K, x);
      var y :| y in K && Blocks(s, h, x, y);
      var hop := WaitIsHop(s, h, x, y);
      assert WaitingHop(s, h, hop, x);
    }
  }

  /** A walk of `n` waits inside such a set. */
  lemma {:induction false} WalkOfWaits(s: Sys, h: Hist, K: set<nat>, x: nat, n: nat) returns (w: seq<Hop>)
    requires Onward(s, h, K) && x in K && n > 0
    decreases n
    ensures IsWalk(s, h, w) && |w| == n && From(s, h, w[0]) == x
    ensures forall i :: 0 <= i < n ==> HopWaits(s, h, w[i]) && From(s, h, w[i]) in K
  {
    assert HasOnward(s, h, K, x);
    var hop :| WaitingHop(s, h, hop, x) && To(s, h, hop) in K;
    if n == 1 {
      w := [hop];
    } else {
      var rest := WalkOfWaits(s, h, K, To(s, h, hop), n - 1);
      w := [hop] + rest;
    }
  }

  /** More numbers from a set than it has members: one of them comes twice. */
  lemma {:induction false} SomethingTwice(p: seq<nat>, K: set<nat>) returns (i: nat, j: nat)
    requires |p| > |K| && forall k :: 0 <= k < |p| ==> p[k] in K
    ensures i < j < |p| && p[i] == p[j]
  {
    var n := |p| - 1;
    if k :| 0 <= k < n && p[k] == p[n] {
      i, j := k, n;
    } else {
      i, j := SomethingTwice(p[..n], K - {p[n]});
    }
  }

  lemma OnwardHasCircle(s: Sys, h: Hist, K: set<nat>) returns (w: seq<Hop>)
    requires Onward(s, h, K) && K != {}
    ensures IsClosed(s, h, w) && forall i :: 0 <= i < |w| ==> HopWaits(s, h, w[i])
  {
    var x :| x in K;
    var v := WalkOfWaits(s, h, K, x, |K| + 1);
    var p := seq(|v|, i requires 0 <= i < |v| => From(s, h, v[i]));
    var i, j := SomethingTwice(p, K);
    w := v[i..j];
    assert To(s, h, v[j - 1]) == From(s, h, v[j - 1 + 1]);
    forall k | 0 <= k < |w| - 1 ensures To(s, h, w[k]) == From(s, h, w[k + 1]) {
      assert To(s, h, v[i + k]) == From(s, h, v[i + k + 1]);
    }
  }

  /** Jobs that wait for each other for ever, none of them parked, mean a closed walk of
      weight zero. */
  lemma StuckHasWeightlessWalk(s: Sys, h: Hist, K: set<nat>) returns (w: seq<Hop>)
    requires Inv(s, h) && AtRest(s) && StuckSet(s, h, K) && K != {} && NoneParked(h, K)
    ensures IsClosed(s, h, w) && WeightOf(s, h, w) == 0
  {
    StuckGoesOnward(s, h, K);
    w := OnwardHasCircle(s, h, K);
    CircleOfWaitsIff(s, h, w);
  }

  /** A parked job waits for nobody: its own edges are consumed, those to it are unused. */
  lemma ParkedWaitsForNobody(s: Sys, h: Hist, hop: Hop)
    requires Inv(s, h) && AtRest(s) && IsHop(s, h, hop) && HopWaits(s, h, hop)
    ensures h[From(s, h, hop)].holder != Parked
  {
    var x := From(s, h, hop);
    assert CountsOfJob(s, h, x) && StageOfJob(s, h, x) && ShapeOfJob(s, h, hop.job);
    RestingJob(s, h, x);
    if hop.Down? && h[x].holder == Parked { UsedEdgeIsListed(s, h, x, hop.job, hop.slot); }
  }

  /** ... and such a walk is stuck. */
  lemma WeightlessWalkIsStuck(s: Sys, h: Hist, w: seq<Hop>) returns (K: set<nat>)
    requires Inv(s, h) && AtRest(s) && IsClosed(s, h, w) && WeightOf(s, h, w) == 0
    ensures StuckSet(s, h, K) && K != {} && NoneParked(h, K)
  {
    CircleOfWaitsIff(s, h, w);
    forall i | 0 <= i < |w| ensures HopBlocks(s, h, w[i]) && h[From(s, h, w[i])].holder != Parked {
      WaitingHopBlocks(s, h, w[i]);
      ParkedWaitsForNobody(s, h, w[i]);
    }
    K := CircleIsStuck(s, h, w);
  }

  /** Jobs wait for each other for ever, without a parked one among them. */
  ghost predicate SomeStarve(s: Sys, h: Hist) {
    exists K: set<nat> :: K != {} && StuckSet(s, h, K) && NoneParked(h, K)
  }

  /** Exactly when that is so: some closed walk has weight zero. */
  lemma StarvationIff(s: Sys, h: Hist)
    requires Inv(s, h) && AtRest(s)
    ensures SomeStarve(s, h) <==> !NoCircle(s, h)
  {
    if SomeStarve(s, h) {
      var K: set<nat> :| K != {} && StuckSet(s, h, K) && NoneParked(h, K);
      var w := StuckHasWeightlessWalk(s, h, K);
    } else if !NoCircle(s, h) {
      var w: seq<Hop> :| IsClosed(s, h, w) && WeightOf(s, h, w) <= 0;
      CircleOfWaitsIff(s, h, w);
      var K := WeightlessWalkIsStuck(s, h, w);
    }
  }

  /** Every closed walk has a positive weight. */
  ghost predicate NoCircle(s: Sys, h: Hist) {
    forall w: seq<Hop> :: IsClosed(s, h, w) ==> WeightOf(s, h, w) > 0
  }

  // ----- Runs in which nothing completes between the links of a creation

  /** No job finishes while a job that has been entered into its list is still being created. */
  predicate Undisturbed(s: Sys, a: Action) {
    a.AFinishBegin? && a.t < |s.threads| && !s.threads[a.t].act.Idle? && s.creating.Some? ==>
      s.creating.value.job < |s.jobs| && s.creating.value.next <= |s.jobs[s.creating.value.job].dependencies| &&
      s.threads[a.t].act.job !in s.jobs[s.creating.value.job].dependencies[..s.creating.value.next]
  }

  /** The edges of the job under creation were all made at the present completions. */
  ghost predicate FreshlyLinked(s: Sys, h: Hist) {
    s.creating.Some? ==>
      forall i: nat :: IsHop(s, h, Up(s.creating.value.job, i)) ==>
        h[s.creating.value.job].base[i] == h[s.jobs[s.creating.value.job].dependencies[i]].completions
  }

  /** Hops of the new state are hops of the old one, of the same weight, except at a link. */
  lemma HopsStay(s: Sys, h: Hist, a: Action, hop: Hop)
    requires Shape(s, h) && Step(s, a).Some? && IsHop(Step(s, a).value, Follow(s, h, a), hop)
    requires a.ACreateLink? ==> hop.job != s.creating.value.job || hop.slot != s.creating.value.next
    ensures var s', h' := Step(s, a).value, Follow(s, h, a);
            && IsHop(s, h, hop) && From(s', h', hop) == From(s, h, hop) && To(s', h', hop) == To(s, h, hop)
            && Weight(s', h', hop) == Weight(s, h, hop)
  {
    var j := hop.job;
    LinksStay(s, h, a, j);
    assert ShapeOfJob(s, h, j);
    BaseStays(s, h, a, j, hop.slot);
  }

  /** ... and those of the old one stay. */
  lemma HopsPersist(s: Sys, h: Hist, a: Action, hop: Hop)
    requires Shape(s, h) && Step(s, a).Some? && IsHop(s, h, hop)
    ensures var s', h' := Step(s, a).value, Follow(s, h, a);
            && IsHop(s', h', hop) && From(s', h', hop) == From(s, h, hop) && To(s', h', hop) == To(s, h, hop)
            && Weight(s', h', hop) == Weight(s, h, hop)
  {
    HistoryGrowsAlong(s, h, a);
    LinksStay(s, h, a, hop.job);
    BaseStays(s, h, a, hop.job, hop.slot);
    LinksStay(s, h, a, s.jobs[hop.job].dependencies[hop.slot]);
  }

  lemma FreshlyLinkedStays(s: Sys, h: Hist, a: Action)
    requires Shape(s, h) && Step(s, a).Some? && Undisturbed(s, a) && FreshlyLinked(s, h)
    ensures FreshlyLinked(Step(s, a).value, Follow(s, h, a))
  {
    var s', h' := Step(s, a).value, Follow(s, h, a);
    if s'.creating.Some? {
      var j := s'.creating.value.job;
      forall i: nat | IsHop(s', h', Up(j, i)) ensures h'[j].base[i] == h'[s'.jobs[j].dependencies[i]].completions {
        LinksStay(s, h, a, j);
        if j < |s.jobs| { FreshEdgeStays(s, h, a, i); }
      }
    }
  }

  lemma FreshEdgeStays(s: Sys, h: Hist, a: Action, i: nat)
    requires Shape(s, h) && Step(s, a).Some? && Undisturbed(s, a) && FreshlyLinked(s, h)
    requires Step(s, a).value.creating.Some? && s.creating.Some?
    requires s.creating.value.job == Step(s, a).value.creating.value.job
    requires IsHop(Step(s, a).value, Follow(s, h, a), Up(s.creating.value.job, i))
    ensures var s', h', j := Step(s, a).value, Follow(s, h, a), s.creating.value.job;
            h'[j].base[i] == h'[s'.jobs[j].dependencies[i]].completions
  {
    var j := s.creating.value.job;
    LinksStay(s, h, a, j);
    CompletionsStay(s, h, a, s.jobs[j].dependencies[i]);
    if !a.ACreateLink? || i != s.creating.value.next {
      HopsStay(s, h, a, Up(j, i));
      assert IsHop(s, h, Up(j, i));
    }
  }

  // ----- A new edge closes no weightless walk

  lemma {:induction false} SameWeight(s: Sys, h: Hist, s': Sys, h': Hist, w: seq<Hop>)
    requires forall i :: 0 <= i < |w| ==>
               IsHop(s, h, w[i]) && IsHop(s', h', w[i]) && Weight(s', h', w[i]) == Weight(s, h, w[i])
    ensures WeightOf(s', h', w) == WeightOf(s, h, w)
  {
    if w == [] {
    } else {
      SameWeight(s, h, s', h', w[..|w| - 1]);
    }
  }

  lemma OldWalkStays(s: Sys, h: Hist, a: Action, w: seq<Hop>)
    requires Shape(s, h) && Step(s, a).Some? && IsClosed(Step(s, a).value, Follow(s, h, a), w)
    requires a.ACreateLink? ==> forall i :: 0 <= i < |w| ==> w[i].job != s.creating.value.job
    ensures IsClosed(s, h, w) && WeightOf(Step(s, a).value, Follow(s, h, a), w) == WeightOf(s, h, w)
  {
    forall i | 0 <= i < |w|
      ensures var s', h' := Step(s, a).value, Follow(s, h, a);
              && IsHop(s, h, w[i]) && From(s', h', w[i]) == From(s, h, w[i]) && To(s', h', w[i]) == To(s, h, w[i])
              && Weight(s', h', w[i]) == Weight(s, h, w[i])
    {
      HopsStay(s, h, a, w[i]);
    }
    SameWeight(s, h, Step(s, a).value, Follow(s, h, a), w);
  }

  /** A closed walk through the job under creation enters it down one of its fresh edges. */
  lemma NewWalkIsHeavy(s: Sys, h: Hist, w: seq<Hop>, m: nat)
    requires Inv(s, h) && FreshlyLinked(s, h) && IsClosed(s, h, w)
    requires s.creating.Some? && m < |w| && w[m].job == s.creating.value.job
    ensures WeightOf(s, h, w) > 0
  {
    var n := EntersAt(s, h, w, m);
    FreshHopIsSlack(s, h, w[n]);
    SlackTelescopes(s, h, w);
    SlackOfWalk(s, h, w);
  }

  lemma EntersAt(s: Sys, h: Hist, w: seq<Hop>, m: nat) returns (n: nat)
    requires Shape(s, h) && IsClosed(s, h, w) && s.creating.Some? && m < |w| && w[m].job == s.creating.value.job
    ensures n < |w| && w[n].Down? && w[n].job == s.creating.value.job
  {
    if w[m].Down? {
      n := m;
    } else {
      n := if m > 0 then m - 1 else |w| - 1;
      assert To(s, h, w[n]) == From(s, h, w[m]) by {
        if m > 0 { assert To(s, h, w[m - 1]) == From(s, h, w[m - 1 + 1]); }
      }
      assert ShapeOfJob(s, h, w[n].job);
    }
  }

  lemma FreshHopIsSlack(s: Sys, h: Hist, hop: Hop)
    requires FreshlyLinked(s, h) && IsHop(s, h, hop) && s.creating.Some? && hop.Down? && hop.job == s.creating.value.job
    ensures Slack(s, h, hop) > 0
  {
    assert IsHop(s, h, Up(s.creating.value.job, hop.slot));
  }

  lemma NoCircleStays(s: Sys, h: Hist, a: Action)
    requires Inv(s, h) && Admissible(s, a) && Step(s, a).Some? && NoCircle(s, h)
    requires FreshlyLinked(Step(s, a).value, Follow(s, h, a))
    ensures NoCircle(Step(s, a).value, Follow(s, h, a))
  {
    var s', h' := Step(s, a).value, Follow(s, h, a);
    StepKeepsInv(s, h, a);
    forall w: seq<Hop> | IsClosed(s', h', w) ensures WeightOf(s', h', w) > 0 {
      if m: nat :| m < |w| && a.ACreateLink? && w[m].job == s.creating.value.job {
        NewWalkIsHeavy(s', h', w, m);
      } else {
        OldWalkStays(s, h, a, w);
      }
    }
  }

  ghost predicate Clear(s: Sys, h: Hist) { FreshlyLinked(s, h) && NoCircle(s, h) }

  lemma StaysClear(s: Sys, h: Hist, a: Action)
    requires Inv(s, h) && Admissible(s, a) && Step(s, a).Some? && Undisturbed(s, a) && Clear(s, h)
    ensures Clear(Step(s, a).value, Follow(s, h, a))
  {
    FreshlyLinkedStays(s, h, a);
    NoCircleStays(s, h, a);
  }

  lemma ClearGoesOn(trace: seq<Sys>, actions: seq<Action>, n: nat)
    requires IsRun(trace, actions) && n + 1 < |trace| && Undisturbed(trace[n], actions[n])
    requires Clear(trace[n], HistoryAt(trace, actions, n))
    ensures Clear(trace[n + 1], HistoryAt(trace, actions, n + 1))
  {
    HistoryGoesOn(trace, actions, n);
    StaysClear(trace[n], HistoryAt(trace, actions, n), actions[n]);
  }

  /** Where no job finishes between the links of a creation that names it, no closed walk is
      ever weightless. */
  lemma {:induction false} UndisturbedHasNoCircle(trace: seq<Sys>, actions: seq<Action>, i: nat)
    requires IsRun(trace, actions) && i < |trace| && forall k :: 0 <= k < i ==> Undisturbed(trace[k], actions[k])
    ensures Clear(trace[i], HistoryAt(trace, actions, i))
  {
    if i == 0 {
    } else {
      UndisturbedHasNoCircle(trace, actions, i - 1);
      ClearGoesOn(trace, actions, i - 1);
    }
  }

  // ----- In such runs every planned launch has a queue

  /** When a job is planned, its dependencies have completed since their edges were made. */
  lemma PlannedHasHeard(s: Sys, h: Hist, j: nat)
    requires Inv(s, h) && j < |s.jobs| && s.jobs[j].dependencies != [] && h[j].stage.PlannedBy?
    ensures IsHop(s, h, Up(j, 0)) && h[j].base[0] < h[s.jobs[j].dependencies[0]].completions
  {
    assert ShapeOfJob(s, h, j) && HistoryOfJob(s, h, j) && StageOfJob(s, h, j);
    ConsumedEdgeIsEven(s, h, j, 0);
  }

  /** Where no job finishes between the links of a creation that names it, no launch is ever
      planned for a thread that does not exist. */
  lemma UndisturbedFindsQueues(trace: seq<Sys>, actions: seq<Action>, i: nat, t: nat)
    requires IsRun(trace, actions) && i < |trace| && forall k :: 0 <= k < i ==> Undisturbed(trace[k], actions[k])
    ensures !PushesToMissingQueue(trace[i], t)
  {
    var s, h := trace[i], HistoryAt(trace, actions, i);
    HistoryFits(trace, actions, i);
    UndisturbedHasNoCircle(trace, actions, i);
    if PushesToMissingQueue(s, t) {
      MissingQueueIff(trace, actions, i, t);
      var j := s.threads[t].act.planned[0].job;
      assert ThreadInStep(s, h, t) && PlanInStep(s, h, t, s.threads[t].act.Plans()[0].job);
      PlannedHasHeard(s, h, j);
    }
  }

  // ----- In such runs only parked jobs block others

  ghost predicate Reaches(s: Sys, h: Hist, x: nat, y: nat) { exists p: seq<nat> :: WaitChain(s, h, p, x, y) }

  /** A chain of waits leads from `x` to a parked job. */
  ghost predicate ParkedAhead(s: Sys, h: Hist, x: nat) {
    exists y: nat :: y < |h| && h[y].holder == Parked && Reaches(s, h, x, y)
  }

  lemma ReachesNext(s: Sys, h: Hist, x: nat, y: nat, z: nat)
    requires Reaches(s, h, x, y) && Waits(s, h, y, z)
    ensures Reaches(s, h, x, z)
  {
    var p: seq<nat> :| WaitChain(s, h, p, x, y);
    var r := p + [z];
    forall i | 0 <= i < |r| - 1 ensures Waits(s, h, r[i], r[i + 1]) {
      if i < |p| - 1 { assert Waits(s, h, p[i], p[i + 1]); }
    }
    assert WaitChain(s, h, r, x, z);
  }

  lemma ParkedAheadIsStuck(s: Sys, h: Hist, x: nat)
    requires Inv(s, h) && AtRest(s) && ParkedAhead(s, h, x)
    ensures Stuck(s, h, x)
  {
    var y: nat :| y < |h| && h[y].holder == Parked && Reaches(s, h, x, y);
    var p: seq<nat> :| WaitChain(s, h, p, x, y);
    var K := set i: nat | i < |p| :: p[i];
    forall z | z in K ensures StuckIn(s, h, K, z) {
      var i: nat :| i < |p| && p[i] == z;
      if i < |p| - 1 {
        assert Waits(s, h, p[i], p[i + 1]) && p[i + 1] in K;
        RestingJob(s, h, z);
        RestingJob(s, h, p[i + 1]);
      }
    }
    assert p[0] in K;
  }

  /** What a stuck job reaches inside its stuck set is stuck already. */
  lemma ReachedIsStuck(s: Sys, h: Hist, K: set<nat>, x: nat) returns (L: set<nat>)
    requires Inv(s, h) && StuckSet(s, h, K) && x in K
    ensures StuckSet(s, h, L) && x in L && forall y :: y in L ==> Reaches(s, h, x, y)
  {
    L := set y | y in K && Reaches(s, h, x, y);
    assert WaitChain(s, h, [x], x, x);
    forall y | y in L ensures StuckIn(s, h, L, y) {
      assert StuckIn(s, h, K, y);
      if h[y].holder != Parked {
        var z :| z in K && Blocks(s, h, y, z);
        ReachesNext(s, h, x, y, z);
      }
    }
  }

  lemma StuckMeansParkedAhead(s: Sys, h: Hist, x: nat)
    requires Inv(s, h) && AtRest(s) && NoCircle(s, h) && Stuck(s, h, x)
    ensures ParkedAhead(s, h, x)
  {
    var K: set<nat> :| x in K && StuckSet(s, h, K);
    var L := ReachedIsStuck(s, h, K, x);
    if NoneParked(h, L) {
      var w := StuckHasWeightlessWalk(s, h, L);
      assert false;
    }
  }

  /** In a run in which no job finishes between the links of a creation that names it, a job
      is stuck exactly when a chain of waits leads from it to a parked job. */
  lemma OnlyParkedJobsBlock(trace: seq<Sys>, actions: seq<Action>, i: nat, x: nat)
    requires IsRun(trace, actions) && i < |trace| && AtRest(trace[i])
    requires forall k :: 0 <= k < i ==> Undisturbed(trace[k], actions[k])
    ensures var h := HistoryAt(trace, actions, i); Stuck(trace[i], h, x) <==> ParkedAhead(trace[i], h, x)
  {
    HistoryFits(trace, actions, i);
    UndisturbedHasNoCircle(trace, actions, i);
    var s, h := trace[i], HistoryAt(trace, actions, i);
    if Stuck(s, h, x) { StuckMeansParkedAhead(s, h, x); }
    if ParkedAhead(s, h, x) { ParkedAheadIsStuck(s, h, x); }
  }

  /** Deadlock freedom: in such a run, with no thread inside a launch and no job being created,
      the waits of every job that leads to no dead job lead to one that can run. */
  lemma UndisturbedWorkProceeds(trace: seq<Sys>, actions: seq<Action>, i: nat, x: nat) returns (p: seq<nat>)
    requires IsRun(trace, actions) && i < |trace| && AtRest(trace[i]) && x < |trace[i].jobs|
    requires forall k :: 0 <= k < i ==> Undisturbed(trace[k], actions[k])
    requires forall y :: 0 <= y < |trace[i].jobs| && Dead(trace[i], y) ==>
        !Reaches(trace[i], HistoryAt(trace, actions, i), x, y)
    ensures p != [] && WaitChain(trace[i], HistoryAt(trace, actions, i), p, x, p[|p| - 1])
    ensures Runnable(trace[i], HistoryAt(trace, actions, i), p[|p| - 1])
  {
    RunParksForReason(trace, actions, i);
    OnlyParkedJobsBlock(trace, actions, i, x);
    p := QueuedWorkProceeds(trace, actions, i, x);
  }
}
