/** The queue of timed launches. */
module LaunchQueues {
  import opened Options

  datatype Launch = Launch(job: nat, timepoint: int)

  predicate Sorted(q: seq<Launch>) {
    forall i, j :: 0 <= i < j < |q| ==> q[i].timepoint <= q[j].timepoint
  }

  /** The number of launches of job `j`. */
  function CountOf(q: seq<Launch>, j: nat): nat {
    if q == [] then 0 else CountOf(q[..|q| - 1], j) + if q[|q| - 1].job == j then 1 else 0
  }

  /** How many launches at the front are earlier than `timepoint`. */
  function LowerBound(q: seq<Launch>, timepoint: int): (r: nat)
    ensures r <= |q|
  {
    if q == [] || q[0].timepoint >= timepoint then 0 else 1 + LowerBound(q[1..], timepoint)
  }

  function Pushed(q: seq<Launch>, l: Launch): seq<Launch> {
    var at := LowerBound(q, l.timepoint);
    q[..at] + [l] + q[at..]
  }

  function WithoutAt(q: seq<Launch>, k: nat): seq<Launch>
    requires k < |q|
  {
    q[..k] + q[k + 1..]
  }

  lemma {:induction false} LowerBoundSplits(q: seq<Launch>, timepoint: int)
    requires Sorted(q)
    ensures forall i :: 0 <= i < LowerBound(q, timepoint) ==> q[i].timepoint < timepoint
    ensures forall i :: LowerBound(q, timepoint) <= i < |q| ==> timepoint <= q[i].timepoint
  {
    if q == [] {
    } else if q[0].timepoint >= timepoint {
    } else {
      LowerBoundSplits(q[1..], timepoint);
    }
  }

  lemma {:induction false} LowerBoundIsUnique(q: seq<Launch>, timepoint: int, r: nat)
    requires r <= |q|
    requires forall i :: 0 <= i < r ==> q[i].timepoint < timepoint
    requires forall i :: r <= i < |q| ==> timepoint <= q[i].timepoint
    ensures LowerBound(q, timepoint) == r
  {
    if r == 0 {
    } else {
      LowerBoundIsUnique(q[1..], timepoint, r - 1);
    }
  }

  /** A push keeps the queue sorted and adds exactly the launch; it comes before every
      launch of the same time. */
  lemma PushedIsSortedInsertion(q: seq<Launch>, l: Launch)
    requires Sorted(q)
    ensures Sorted(Pushed(q, l)) && multiset(Pushed(q, l)) == multiset(q) + multiset{l}
    ensures var at := LowerBound(q, l.timepoint);
            Pushed(q, l)[at] == l && forall i :: 0 <= i < at ==> Pushed(q, l)[i].timepoint < l.timepoint
  {
    LowerBoundSplits(q, l.timepoint);
    var at := LowerBound(q, l.timepoint);
    assert q == q[..at] + q[at..];
  }

  lemma WithoutAtIsRemoval(q: seq<Launch>, k: nat)
    requires k < |q| && Sorted(q)
    ensures Sorted(WithoutAt(q, k)) && multiset(WithoutAt(q, k)) + multiset{q[k]} == multiset(q)
  {
    assert q == q[..k] + [q[k]] + q[k + 1..];
  }

  predicate DueAndIdle(l: Launch, usage: seq<int>, now: int) {
    l.timepoint <= now && l.job < |usage| && usage[l.job] == 0
  }

  /** The queue of one thread pool. The usage counters of the job entries are an array
      indexed by job. */
  class JobQueue {
    var launches: seq<Launch>

    constructor ()
      ensures launches == []
    {
      launches := [];
    }

    constructor Of(launches: seq<Launch>)
      ensures this.launches == launches
    {
      this.launches := launches;
    }

    method Push(l: Launch)
      requires Sorted(launches)
      modifies this
      ensures launches == Pushed(old(launches), l)
      ensures Sorted(launches) && multiset(launches) == old(multiset(launches)) + multiset{l}
    {
      LowerBoundSplits(launches, l.timepoint);
      PushedIsSortedInsertion(launches, l);
      var lo, hi := 0, |launches|;
      while lo < hi
        invariant 0 <= lo <= hi <= |launches| && launches == old(launches)
        invariant forall i :: 0 <= i < lo ==> launches[i].timepoint < l.timepoint
        invariant forall i :: hi <= i < |launches| ==> l.timepoint <= launches[i].timepoint
      {
        var mid := (lo + hi) / 2;
        if launches[mid].timepoint < l.timepoint { lo := mid + 1; } else { hi := mid; }
      }
      LowerBoundIsUnique(launches, l.timepoint, lo);
      launches := launches[..lo] + [l] + launches[lo..];
    }

    /** One scan of the queue: takes the earliest launch that is due and whose job is idle,
        and marks the job as used; takes nothing only if there is no such launch. */
    method Pull(usage: array<int>, now: int) returns (r: Option<Launch>, ghost at: nat)
      requires Sorted(launches)
      requires forall k :: 0 <= k < |launches| ==> launches[k].job < usage.Length
      modifies this, usage
      ensures Sorted(launches)
      ensures r.None? ==> launches == old(launches) && usage[..] == old(usage[..]) &&
                          forall k :: 0 <= k < |launches| ==> !DueAndIdle(launches[k], usage[..], now)
      ensures r.Some? ==>
                && at < |old(launches)| && r.value == old(launches)[at] && launches == WithoutAt(old(launches), at)
                && DueAndIdle(r.value, old(usage[..]), now) && usage[..] == old(usage[..])[r.value.job := 1]
                && forall k :: 0 <= k < at ==> !DueAndIdle(old(launches)[k], old(usage[..]), now)
      ensures r.Some? ==>
                forall k :: 0 <= k < |old(launches)| && DueAndIdle(old(launches)[k], old(usage[..]), now) ==>
                  r.value.timepoint <= old(launches)[k].timepoint
    {
      var k := 0;
      at := 0;
      while k < |launches|
        invariant 0 <= k <= |launches| && launches == old(launches) && usage[..] == old(usage[..])
        invariant forall i :: 0 <= i < k ==> !DueAndIdle(launches[i], usage[..], now)
      {
        var launch := launches[k];
        if launch.timepoint > now { break; }
        if usage[launch.job] == 0 {
          usage[launch.job] := usage[launch.job] + 1;
          WithoutAtIsRemoval(launches, k);
          launches := launches[..k] + launches[k + 1..];
          return Some(launch), k;
        }
        k := k + 1;
      }
      r := None;
    }
  }
}
