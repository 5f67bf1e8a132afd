/** The sorted vector of intervals: adding to it, subtracting from it, and the point
    set it stands for. */
module IntervalUnions {
  import opened Intervals
  import opened Options

  // ----- The stored sequence and its point set

  ghost predicate InUnion(s: seq<Interval>, x: real) {
    exists i :: 0 <= i < |s| && s[i].Contains(x)
  }

  /** In order, with a point missing between any two elements. Elements may be empty:
      subtracting a piece flush with an end leaves an empty remnant behind. */
  ghost predicate Spaced(s: seq<Interval>) {
    && (forall i :: 0 <= i < |s| ==> s[i].Valid())
    && (forall i, j :: 0 <= i < j < |s| ==> Apart(s[i], s[j]))
  }

  /** What a union built by additions looks like: spaced, and no element is empty. */
  ghost predicate Canonical(s: seq<Interval>) {
    Spaced(s) && forall i :: 0 <= i < |s| ==> !s[i].Empty()
  }

  // ----- The searches

  /** The first index from `from` on at which `f` fails; what `lower_bound` returns on a
      partitioned range. */
  function FirstFailing(s: seq<Interval>, from: nat, f: Interval -> bool): (r: nat)
    requires from <= |s|
    ensures from <= r <= |s|
    ensures forall i :: from <= i < r ==> f(s[i])
    ensures r < |s| ==> !f(s[r])
    decreases |s| - from
  {
    if from == |s| || !f(s[from]) then from else FirstFailing(s, from + 1, f)
  }

  ghost predicate Partitioned(s: seq<Interval>, from: nat, f: Interval -> bool) {
    forall i, j :: from <= i < j < |s| && f(s[j]) ==> f(s[i])
  }

  lemma FirstFailingIsUnique(s: seq<Interval>, from: nat, f: Interval -> bool, r: nat)
    requires from <= r <= |s|
    requires forall i :: from <= i < r ==> f(s[i])
    requires r < |s| ==> !f(s[r])
    ensures FirstFailing(s, from, f) == r
    decreases r - from
  {
    if from == r {
    } else {
      FirstFailingIsUnique(s, from + 1, f, r);
    }
  }

  /** The binary search behind `lower_bound` and `upper_bound`. */
  method PartitionPoint(s: seq<Interval>, from: nat, f: Interval -> bool) returns (r: nat)
    requires from <= |s| && Partitioned(s, from, f)
    ensures r == FirstFailing(s, from, f)
  {
    var lo, hi := from, |s|;
    while lo < hi
      invariant from <= lo <= hi <= |s|
      invariant forall i :: from <= i < lo ==> f(s[i])
      invariant forall i :: hi <= i < |s| ==> !f(s[i])
    {
      var mid := (lo + hi) / 2;
      if f(s[mid]) { lo := mid + 1; } else { hi := mid; }
    }
    r := lo;
    FirstFailingIsUnique(s, from, f, r);
  }

  function BelowAndNotMergeable(inter: Interval): Interval -> bool {
    (a: Interval) => a.Less(inter) && !a.Mergeable(inter)
  }

  function NotAboveOrMergeable(inter: Interval): Interval -> bool {
    (b: Interval) => !(inter.Less(b) && !inter.Mergeable(b))
  }

  function Below(inter: Interval): Interval -> bool { (a: Interval) => a.Less(inter) }

  function NotAbove(inter: Interval): Interval -> bool { (b: Interval) => !inter.Less(b) }

  // ----- Adding one interval

  function AddFirst(s: seq<Interval>, inter: Interval): nat {
    FirstFailing(s, 0, BelowAndNotMergeable(inter))
  }

  /** One past the last element that is swallowed. */
  function AddPast(s: seq<Interval>, inter: Interval): nat {
    FirstFailing(s, AddFirst(s, inter), NotAboveOrMergeable(inter))
  }

  function Added(s: seq<Interval>, inter: Interval): seq<Interval> {
    var first, past := AddFirst(s, inter), AddPast(s, inter);
    if first == |s| || !s[first].Mergeable(inter) then s[..first] + [inter] + s[first..]
    else s[..first] + [Hull(s[first], inter, s[past - 1])] + s[past..]
  }

  /** The one way an addition goes wrong on a spaced vector: the first element it meets is
      an empty remnant strictly inside the new interval, which is neither below it, nor
      above it, nor mergeable with it. */
  predicate HidesRemnant(s: seq<Interval>, inter: Interval) {
    var first := AddFirst(s, inter);
    first < |s| && s[first].Empty() && inter.begin < s[first].begin && s[first].end < inter.end
  }

  /** On spaced vectors the comparators of `+=` test for a gap. */
  lemma ComparatorsTestGaps(a: Interval, inter: Interval)
    requires a.Valid() && Proper(inter)
    ensures BelowAndNotMergeable(inter)(a) <==> Apart(a, inter)
    ensures !NotAboveOrMergeable(inter)(a) <==> Apart(inter, a)
  {
  }

  /** Both searches of `+=` run on partitioned ranges. */
  lemma AddSearchesPartitioned(s: seq<Interval>, inter: Interval)
    requires Spaced(s) && Proper(inter)
    ensures Partitioned(s, 0, BelowAndNotMergeable(inter))
    ensures Partitioned(s, AddFirst(s, inter), NotAboveOrMergeable(inter))
  {
    forall i | 0 <= i < |s| { ComparatorsTestGaps(s[i], inter); }
  }

  /** What the two searches of `+=` find. */
  lemma AddSearches(s: seq<Interval>, inter: Interval)
    requires Spaced(s) && Proper(inter)
    ensures forall i :: 0 <= i < AddFirst(s, inter) ==> Apart(s[i], inter)
    ensures forall i :: AddFirst(s, inter) <= i < |s| ==> !Apart(s[i], inter)
    ensures forall i :: AddFirst(s, inter) <= i < AddPast(s, inter) ==> !Apart(inter, s[i])
    ensures forall i :: AddPast(s, inter) <= i < |s| ==> Apart(inter, s[i])
  {
    AddSearchesPartitioned(s, inter);
    forall i | 0 <= i < |s| { ComparatorsTestGaps(s[i], inter); }
  }

  /** The hull covers nothing but the points of the outermost swallowed elements and the
      new interval, and everything in between. */
  lemma HullIsExact(f: Interval, inter: Interval, l: Interval, x: real)
    requires f.Valid() && l.Valid() && Proper(inter)
    requires f == l || Apart(f, l)
    requires f.Mergeable(inter) && !Apart(inter, l)
    ensures Hull(f, inter, l).Valid()
    ensures Hull(f, inter, l).Contains(x) ==> f.Contains(x) || inter.Contains(x) || l.Contains(x)
    ensures f.Contains(x) || inter.Contains(x) || l.Contains(x) ==> Hull(f, inter, l).Contains(x)
  {
  }

  /** Adding a non-empty interval to a spaced vector keeps it spaced and adds exactly the
      points of the interval, unless an empty remnant hides inside. */
  lemma AddedIsUnion(s: seq<Interval>, inter: Interval)
    requires Spaced(s) && Proper(inter) && !HidesRemnant(s, inter)
    ensures Spaced(Added(s, inter))
    ensures forall x :: InUnion(Added(s, inter), x) <==> InUnion(s, x) || inter.Contains(x)
  {
    AddSearches(s, inter);
    var first, past := AddFirst(s, inter), AddPast(s, inter);
    if first == |s| || !s[first].Mergeable(inter) {
      assert forall i :: first <= i < |s| ==> Apart(inter, s[i]);
      InsertedIsUnion(s, inter, first);
    } else {
      SwallowedIsUnion(s, inter, first, past);
    }
  }

  lemma InsertedIsUnion(s: seq<Interval>, inter: Interval, first: nat)
    requires Spaced(s) && Proper(inter) && first <= |s|
    requires forall i :: 0 <= i < first ==> Apart(s[i], inter)
    requires forall i :: first <= i < |s| ==> Apart(inter, s[i])
    ensures var r := s[..first] + [inter] + s[first..];
            Spaced(r) && forall x :: InUnion(r, x) <==> InUnion(s, x) || inter.Contains(x)
  {
    Replaced(s, first, first, [inter]);
    InUnionOfOne(inter);
  }

  lemma SwallowedIsUnion(s: seq<Interval>, inter: Interval, first: nat, past: nat)
    requires Spaced(s) && Proper(inter) && first < past <= |s| && s[first].Mergeable(inter)
    requires forall i :: 0 <= i < first ==> Apart(s[i], inter)
    requires forall i :: first <= i < past ==> !Apart(s[i], inter) && !Apart(inter, s[i])
    requires forall i :: past <= i < |s| ==> Apart(inter, s[i])
    ensures var r := s[..first] + [Hull(s[first], inter, s[past - 1])] + s[past..];
            Spaced(r) && forall x :: InUnion(r, x) <==> InUnion(s, x) || inter.Contains(x)
  {
    var hull := Hull(s[first], inter, s[past - 1]);
    HullPoints(s, inter, first, past);
    HullIsApart(s, inter, first, past);
    Replaced(s, first, past, [hull]);
    InUnionOfOne(hull);
  }

  /** ... and a canonical vector, which has no remnants, stays canonical. */
  lemma AddedIsCanonical(s: seq<Interval>, inter: Interval)
    requires Canonical(s) && Proper(inter)
    ensures Canonical(Added(s, inter))
    ensures forall x :: InUnion(Added(s, inter), x) <==> InUnion(s, x) || inter.Contains(x)
  {
    AddedIsUnion(s, inter);
    AddSearches(s, inter);
    var first, past := AddFirst(s, inter), AddPast(s, inter);
    if first < |s| && s[first].Mergeable(inter) { HullPoints(s, inter, first, past); }
  }

  /** The hull stands for the new interval and all the elements it swallows. */
  lemma HullPoints(s: seq<Interval>, inter: Interval, first: nat, past: nat)
    requires Spaced(s) && Proper(inter) && first < past <= |s|
    requires s[first].Mergeable(inter)
    requires forall i :: first <= i < past ==> !Apart(s[i], inter) && !Apart(inter, s[i])
    ensures var hull := Hull(s[first], inter, s[past - 1]);
            Proper(hull) &&
            forall x :: hull.Contains(x) <==> inter.Contains(x) || exists i :: first <= i < past && s[i].Contains(x)
  {
    var f, l := s[first], s[past - 1];
    var hull := Hull(f, inter, l);
    HullIsExact(f, inter, l, PointOf(inter));
    forall x, i | first <= i < past && s[i].Contains(x) ensures hull.Contains(x) {
      assert i == first || Apart(f, s[i]);
      assert i == past - 1 || Apart(s[i], l);
    }
    forall x | hull.Contains(x) ensures inter.Contains(x) || exists i :: first <= i < past && s[i].Contains(x) {
      HullIsExact(f, inter, l, x);
    }
    forall x | inter.Contains(x) ensures hull.Contains(x) { HullIsExact(f, inter, l, x); }
  }

  lemma HullIsApart(s: seq<Interval>, inter: Interval, first: nat, past: nat)
    requires Spaced(s) && first < past <= |s|
    requires forall i :: 0 <= i < first ==> Apart(s[i], inter)
    requires forall i :: past <= i < |s| ==> Apart(inter, s[i])
    ensures var hull := Hull(s[first], inter, s[past - 1]);
            (forall i :: 0 <= i < first ==> Apart(s[i], hull)) && (forall i :: past <= i < |s| ==> Apart(hull, s[i]))
  {
  }

  lemma InUnionOfOne(a: Interval)
    ensures forall x :: InUnion([a], x) <==> a.Contains(x)
  {
    assert [a][0] == a;
  }

  /** Replacing the elements `from..to` by intervals that are apart from the others. */
  lemma Replaced(s: seq<Interval>, from: nat, to: nat, ps: seq<Interval>)
    requires from <= to <= |s| && Spaced(s) && Spaced(ps)
    requires forall i, k :: 0 <= i < from && 0 <= k < |ps| ==> Apart(s[i], ps[k])
    requires forall i, k :: to <= i < |s| && 0 <= k < |ps| ==> Apart(ps[k], s[i])
    ensures var r := s[..from] + ps + s[to..];
            Spaced(r) &&
            forall x :: InUnion(r, x) <==>
              InUnion(ps, x) || exists i :: 0 <= i < |s| && !(from <= i < to) && s[i].Contains(x)
  {
    var r := s[..from] + ps + s[to..];
    assert forall i :: 0 <= i < from ==> r[i] == s[i];
    assert forall k :: from <= k < from + |ps| ==> r[k] == ps[k - from];
    assert forall i :: from + |ps| <= i < |r| ==> r[i] == s[i - |ps| - from + to];
    forall x ensures InUnion(r, x) <==>
                     InUnion(ps, x) || exists i :: 0 <= i < |s| && !(from <= i < to) && s[i].Contains(x)
    {
      ReplacedPoint(s, from, to, ps, x);
    }
  }

  lemma ReplacedPoint(s: seq<Interval>, from: nat, to: nat, ps: seq<Interval>, x: real)
    requires from <= to <= |s|
    ensures InUnion(s[..from] + ps + s[to..], x) <==>
            InUnion(ps, x) || exists i :: 0 <= i < |s| && !(from <= i < to) && s[i].Contains(x)
  {
    var r := s[..from] + ps + s[to..];
    if InUnion(ps, x) {
      var k :| 0 <= k < |ps| && ps[k].Contains(x);
      assert r[from + k].Contains(x);
    }
    if i :| 0 <= i < |s| && !(from <= i < to) && s[i].Contains(x) {
      assert r[if i < from then i else i - to + from + |ps|] == s[i];
    }
    if InUnion(r, x) {
      var k :| 0 <= k < |r| && r[k].Contains(x);
      if k < from {
        assert s[k].Contains(x);
      } else if k < from + |ps| {
        assert ps[k - from].Contains(x);
      } else {
        assert s[k - |ps| - from + to].Contains(x);
      }
    }
  }

  /** ... and only then: with a hidden remnant the stored vector is out of order. */
  lemma AddedOrderedIff(s: seq<Interval>, inter: Interval)
    requires Spaced(s) && Proper(inter)
    ensures Spaced(Added(s, inter)) <==> !HidesRemnant(s, inter)
  {
    if HidesRemnant(s, inter) {
      var first, r := AddFirst(s, inter), Added(s, inter);
      assert r[first] == inter && r[first + 1] == s[first];
    } else {
      AddedIsUnion(s, inter);
    }
  }

  // ----- Subtracting one interval

  function SubtractFirst(s: seq<Interval>, inter: Interval): nat {
    FirstFailing(s, 0, Below(inter))
  }

  function SubtractPast(s: seq<Interval>, inter: Interval): nat {
    FirstFailing(s, SubtractFirst(s, inter), NotAbove(inter))
  }

  /** What is left of `f` below `inter`. */
  function Head(f: Interval, inter: Interval): Interval {
    Interval(f.begin, inter.begin, f.firstIncluded, !inter.firstIncluded)
  }

  /** What is left of `l` above `inter`. */
  function Tail(l: Interval, inter: Interval): Interval {
    Interval(inter.end, l.end, !inter.lastIncluded, l.lastIncluded)
  }

  /** What `-=` stores in place of the elements from `f` to `l`. */
  function Pieces(f: Interval, l: Interval, inter: Interval): seq<Interval> {
    (if f.IsSubinterval(inter) then [] else [Head(f, inter)]) +
    (if l.IsSubinterval(inter) then [] else [Tail(l, inter)])
  }

  predicate AllValid(s: seq<Interval>) { forall i :: 0 <= i < |s| ==> s[i].Valid() }

  lemma PiecesValidIff(f: Interval, l: Interval, inter: Interval)
    ensures AllValid(Pieces(f, l, inter)) <==>
            (f.IsSubinterval(inter) || f.begin <= inter.begin) && (l.IsSubinterval(inter) || inter.end <= l.end)
  {
    var p := Pieces(f, l, inter);
    if !f.IsSubinterval(inter) { assert p[0] == Head(f, inter); }
    if !l.IsSubinterval(inter) { assert p[|p| - 1] == Tail(l, inter); }
  }

  /** The vector after `-=`. `None` stands for an execution that leaves the defined
      behaviour of the source: `last` ends up before `first` and the erased range is
      reversed, or the constructor's assertion `end >= begin` fails. */
  function Subtracted(s: seq<Interval>, inter: Interval): Option<seq<Interval>> {
    var first, past := SubtractFirst(s, inter), SubtractPast(s, inter);
    if first == |s| || !s[first].Mergeable(inter) then Some(s)
    else if past == first then
      if 0 < first && s[first].IsSubinterval(inter) && s[first - 1].IsSubinterval(inter) then Some(s) else None
    else
      var pieces := Pieces(s[first], s[past - 1], inter);
      if AllValid(pieces) then Some(s[..first] + pieces + s[past..]) else None
  }

  /** Neither is below the other. Of a non-empty interval this is `&&`; an empty remnant
      meets the intervals it lies strictly inside, and one whose open end it closes. */
  predicate Meets(a: Interval, inter: Interval) { !a.Less(inter) && !inter.Less(a) }

  /** The first element that is not below `inter` lies above it and touches it, exactly one
      of the two meeting ends being closed. With a remnant at each end of `inter` the erased
      range happens to be empty. */
  predicate TouchesFromBelow(s: seq<Interval>, inter: Interval) {
    var first := SubtractFirst(s, inter);
    && first < |s| && inter.end == s[first].begin && inter.lastIncluded != s[first].firstIncluded
    && !(0 < first && s[first].IsSubinterval(inter) && s[first - 1].IsSubinterval(inter))
  }

  /** `inter` meets a single element, does not cover it, and sticks out of it. */
  ghost predicate OverhangsSingle(s: seq<Interval>, inter: Interval) {
    exists k :: 0 <= k < |s| && Meets(s[k], inter) && !s[k].IsSubinterval(inter)
      && (inter.begin < s[k].begin || s[k].end < inter.end)
      && (forall i :: 0 <= i < |s| && i != k ==> !Meets(s[i], inter))
  }

  /** The first element that is not below `inter` is an empty remnant strictly inside it and
      a later element overlaps it: the remnant does not pass for mergeable, and `-=` returns. */
  ghost predicate HidesOverlap(s: seq<Interval>, inter: Interval) {
    var first := SubtractFirst(s, inter);
    && first < |s| && s[first].Empty() && inter.begin < s[first].begin && s[first].end < inter.end
    && exists i :: first < i < |s| && s[i].Overlaps(inter)
  }

  lemma SubtractSearchesPartitioned(s: seq<Interval>, inter: Interval)
    requires Spaced(s) && Proper(inter)
    ensures Partitioned(s, 0, Below(inter))
    ensures Partitioned(s, SubtractFirst(s, inter), NotAbove(inter))
  {
  }

  /** What the two searches of `-=` find. */
  lemma SubtractSearches(s: seq<Interval>, inter: Interval)
    requires Spaced(s) && Proper(inter)
    ensures forall i :: 0 <= i < SubtractFirst(s, inter) ==> s[i].Less(inter)
    ensures forall i :: SubtractFirst(s, inter) <= i < |s| ==> !s[i].Less(inter)
    ensures forall i :: SubtractFirst(s, inter) <= i < SubtractPast(s, inter) ==> !inter.Less(s[i])
    ensures forall i :: SubtractPast(s, inter) <= i < |s| ==> inter.Less(s[i])
  {
    SubtractSearchesPartitioned(s, inter);
    forall i | 0 <= i < |s|
      ensures Below(inter)(s[i]) == s[i].Less(inter) && NotAbove(inter)(s[i]) == !inter.Less(s[i])
    {}
  }

  /** Exactly when `-=` on a spaced vector stays within defined behaviour. */
  lemma SubtractedDefinedIff(s: seq<Interval>, inter: Interval)
    requires Spaced(s) && Proper(inter)
    ensures Subtracted(s, inter).Some? <==> !TouchesFromBelow(s, inter) && !OverhangsSingle(s, inter)
  {
    SubtractSearches(s, inter);
    var first, past := SubtractFirst(s, inter), SubtractPast(s, inter);
    if first < |s| && s[first].Mergeable(inter) && first < past {
      PiecesValidIff(s[first], s[past - 1], inter);
      assert Meets(s[first], inter) && Meets(s[past - 1], inter);
      if past - 1 == first {
        assert forall i :: 0 <= i < |s| && i != first ==> !Meets(s[i], inter);
      } else {
        assert Apart(s[first], s[past - 1]);
      }
    } else {
      OverhangIsMergeable(s, inter);
    }
  }

  /** An element that `inter` overhangs is the first that is not below it, and mergeable. */
  lemma OverhangIsMergeable(s: seq<Interval>, inter: Interval)
    requires Spaced(s) && Proper(inter)
    ensures OverhangsSingle(s, inter) ==>
              SubtractFirst(s, inter) < SubtractPast(s, inter) && s[SubtractFirst(s, inter)].Mergeable(inter)
  {
    SubtractSearches(s, inter);
  }

  /** On a canonical union that is: unless `inter` meets nothing and touches an element from
      below with one of the two ends closed, or overhangs the only element it overlaps. */
  lemma CanonicalSubtractedDefinedIff(s: seq<Interval>, inter: Interval)
    requires Canonical(s) && Proper(inter)
    ensures Subtracted(s, inter).None? <==>
            || (&& (forall i :: 0 <= i < |s| ==> !s[i].Overlaps(inter))
                && exists i :: 0 <= i < |s| && inter.end == s[i].begin && inter.lastIncluded != s[i].firstIncluded)
            || (exists k :: 0 <= k < |s| && s[k].Overlaps(inter) && !s[k].IsSubinterval(inter)
                  && (inter.begin < s[k].begin || s[k].end < inter.end)
                  && (forall i :: 0 <= i < |s| && i != k ==> !s[i].Overlaps(inter)))
  {
    SubtractedDefinedIff(s, inter);
    SubtractSearches(s, inter);
    assert forall i :: 0 <= i < |s| ==> Meets(s[i], inter) == s[i].Overlaps(inter);
    if i :| 0 <= i < |s| && inter.end == s[i].begin && inter.lastIncluded != s[i].firstIncluded {
      assert SubtractFirst(s, inter) < i ==> Meets(s[SubtractFirst(s, inter)], inter);
    }
  }

  /** Where `-=` is defined on a spaced vector it leaves the vector spaced, and removes exactly
      the points of the interval unless an empty remnant hides an overlap. */
  lemma SubtractedIsDifferenceIff(s: seq<Interval>, inter: Interval)
    requires Spaced(s) && Proper(inter) && Subtracted(s, inter).Some?
    ensures var r := Subtracted(s, inter).value;
            && Spaced(r)
            && ((forall x :: InUnion(r, x) <==> InUnion(s, x) && !inter.Contains(x)) <==> !HidesOverlap(s, inter))
            && (HidesOverlap(s, inter) ==> r == s)
  {
    SubtractSearches(s, inter);
    var first, past := SubtractFirst(s, inter), SubtractPast(s, inter);
    if first < |s| && s[first].Mergeable(inter) && first < past {
      SomethingMet(s, inter, first, past);
      SubtractRange(s, inter, first, past);
    } else {
      NothingTaken(s, inter);
    }
  }

  lemma SomethingMet(s: seq<Interval>, inter: Interval, first: nat, past: nat)
    requires Spaced(s) && Proper(inter) && Subtracted(s, inter).Some?
    requires first == SubtractFirst(s, inter) < past == SubtractPast(s, inter) && s[first].Mergeable(inter)
    ensures past <= |s| && Meets(s[first], inter) && Meets(s[past - 1], inter) && !HidesOverlap(s, inter)
    ensures forall i :: 0 <= i < first ==> s[i].Less(inter)
    ensures forall i :: past <= i < |s| ==> inter.Less(s[i])
    ensures AllValid(Pieces(s[first], s[past - 1], inter))
    ensures Subtracted(s, inter).value == s[..first] + Pieces(s[first], s[past - 1], inter) + s[past..]
  {
    SubtractSearches(s, inter);
  }

  /** Where `-=` returns at once, or erases an empty range. */
  lemma NothingTaken(s: seq<Interval>, inter: Interval)
    requires Spaced(s) && Proper(inter) && Subtracted(s, inter) == Some(s)
    requires var first := SubtractFirst(s, inter);
             first == |s| || !s[first].Mergeable(inter) || first == SubtractPast(s, inter)
    ensures (forall x :: InUnion(s, x) ==> !inter.Contains(x)) <==> !HidesOverlap(s, inter)
  {
    SubtractSearches(s, inter);
    var first := SubtractFirst(s, inter);
    if HidesOverlap(s, inter) {
      var i :| first < i < |s| && s[i].Overlaps(inter);
      OverlapsMeansCommonPoint(s[i], inter);
      var x :| s[i].Contains(x) && inter.Contains(x);
      assert InUnion(s, x);
    } else {
      forall i | 0 <= i < |s| ensures !s[i].Overlaps(inter) {}
      forall x, i | 0 <= i < |s| && s[i].Contains(x) ensures !inter.Contains(x) {
        OverlapsMeansCommonPoint(s[i], inter);
      }
    }
  }

  /** The core of `-=`: the elements `first..past` are the ones that meet the interval. */
  lemma SubtractRange(s: seq<Interval>, inter: Interval, first: nat, past: nat)
    requires Spaced(s) && Proper(inter) && first < past <= |s|
    requires Meets(s[first], inter) && Meets(s[past - 1], inter)
    requires forall i :: 0 <= i < first ==> s[i].Less(inter)
    requires forall i :: past <= i < |s| ==> inter.Less(s[i])
    requires AllValid(Pieces(s[first], s[past - 1], inter))
    ensures var r := s[..first] + Pieces(s[first], s[past - 1], inter) + s[past..];
            Spaced(r) && forall x :: InUnion(r, x) <==> InUnion(s, x) && !inter.Contains(x)
  {
    var f, l := s[first], s[past - 1];
    PiecesValidIff(f, l, inter);
    Replaced(s, first, past, Pieces(f, l, inter));
    forall x ensures InUnion(Pieces(f, l, inter), x) <==> (f.Contains(x) || l.Contains(x)) && !inter.Contains(x) {
      PiecesPoints(f, l, inter, x);
    }
  }

  lemma PiecesPoints(f: Interval, l: Interval, inter: Interval, x: real)
    requires Meets(f, inter) && Meets(l, inter) && Proper(inter) && f.Valid() && l.Valid()
    requires f == l || Apart(f, l)
    requires AllValid(Pieces(f, l, inter))
    ensures InUnion(Pieces(f, l, inter), x) <==> (f.Contains(x) || l.Contains(x)) && !inter.Contains(x)
  {
    PiecesValidIff(f, l, inter);
    var ps := Pieces(f, l, inter);
    if !f.IsSubinterval(inter) { assert ps[0] == Head(f, inter); }
    if !l.IsSubinterval(inter) { assert ps[|ps| - 1] == Tail(l, inter); }
  }

  // ----- Inputs on which `+=` and `-=` fail

  function ClosedOpen(x: real, y: real): Interval { Interval(x, y, true, false) }

  /** `{[2,4)} - [1,3)`, which overhangs, and `{(4,5)} - [1,4]`, which touches, are undefined. */
  lemma SubtractionUndefined()
    ensures Subtracted([ClosedOpen(2.0, 4.0)], ClosedOpen(1.0, 3.0)).None?
    ensures Subtracted([Interval(4.0, 5.0, false, false)], Interval(1.0, 4.0, true, true)).None?
  {
    var s, t := [ClosedOpen(2.0, 4.0)], [Interval(4.0, 5.0, false, false)];
    var a, b := ClosedOpen(1.0, 3.0), Interval(1.0, 4.0, true, true);
    FirstFailingIsUnique(s, 0, Below(a), 0);
    FirstFailingIsUnique(s, 0, NotAbove(a), 1);
    FirstFailingIsUnique(t, 0, Below(b), 0);
    FirstFailingIsUnique(t, 0, NotAbove(b), 0);
    PiecesValidIff(s[0], s[0], a);
  }

  const TWO := [ClosedOpen(2.0, 4.0), ClosedOpen(6.0, 8.0)]
  const REMNANT := [ClosedOpen(2.0, 2.0), ClosedOpen(3.0, 4.0), ClosedOpen(6.0, 8.0)]

  /** From the canonical `{[2,4), [6,8)}`, taking `[2,3)` leaves the remnant `[2,2)` behind;
      taking `[1,7)` next changes nothing, and 3.5 is still there. */
  lemma RemnantHidesOverlap()
    ensures Canonical(TWO) && Subtracted(TWO, ClosedOpen(2.0, 3.0)) == Some(REMNANT)
    ensures Subtracted(REMNANT, ClosedOpen(1.0, 7.0)) == Some(REMNANT) && HidesOverlap(REMNANT, ClosedOpen(1.0, 7.0))
    ensures InUnion(REMNANT, 3.5) && ClosedOpen(1.0, 7.0).Contains(3.5)
  {
    var a, b := ClosedOpen(2.0, 3.0), ClosedOpen(1.0, 7.0);
    SubtractedInside(TWO, a, 0);
    assert Pieces(TWO[0], TWO[0], a) == [ClosedOpen(2.0, 2.0), ClosedOpen(3.0, 4.0)];
    assert TWO[..0] + [ClosedOpen(2.0, 2.0), ClosedOpen(3.0, 4.0)] + TWO[1..] == REMNANT;
    FirstFailingIsUnique(REMNANT, 0, Below(b), 0);
    assert REMNANT[1].Overlaps(b) && REMNANT[1].Contains(3.5);
  }

  /** ... and adding `[1,2.5)` to it stores the new interval in front of the remnant inside it. */
  lemma RemnantBreaksOrder()
    ensures Spaced(REMNANT) && HidesRemnant(REMNANT, ClosedOpen(1.0, 2.5))
    ensures !Spaced(Added(REMNANT, ClosedOpen(1.0, 2.5)))
  {
    var a := ClosedOpen(1.0, 2.5);
    FirstFailingIsUnique(REMNANT, 0, BelowAndNotMergeable(a), 0);
    AddedOrderedIff(REMNANT, a);
  }

  /** ... and it stores no empty remnant when it covers every element it meets or meets
      more than one. */
  lemma SubtractedStaysCanonical(s: seq<Interval>, inter: Interval)
    requires Canonical(s) && Proper(inter) && Subtracted(s, inter).Some?
    requires forall k :: 0 <= k < |s| && s[k].Overlaps(inter) && !s[k].IsSubinterval(inter) ==>
               exists i :: 0 <= i < |s| && i != k && s[i].Overlaps(inter)
    ensures Canonical(Subtracted(s, inter).value)
  {
    SubtractedIsDifferenceIff(s, inter);
    var first, past := SubtractFirst(s, inter), SubtractPast(s, inter);
    if first < past && s[first].Mergeable(inter) {
      SomethingMet(s, inter, first, past);
      if first == past - 1 { assert s[first].IsSubinterval(inter) by { MetAlone(s, inter, first, past); } }
      PiecesNotEmpty(s[first], s[past - 1], inter);
      EditNotEmpty(s, first, past, Pieces(s[first], s[past - 1], inter));
    }
  }

  predicate NoneEmpty(s: seq<Interval>) { forall i :: 0 <= i < |s| ==> !s[i].Empty() }

  lemma EditNotEmpty(s: seq<Interval>, first: nat, past: nat, ps: seq<Interval>)
    requires first <= past <= |s| && NoneEmpty(s) && NoneEmpty(ps)
    ensures NoneEmpty(s[..first] + ps + s[past..])
  {
  }

  /** If only one element is met and something is to be met besides an element that is not
      covered, the one is covered. */
  lemma MetAlone(s: seq<Interval>, inter: Interval, first: nat, past: nat)
    requires Canonical(s) && Proper(inter) && first == past - 1 && past <= |s| && s[first].Overlaps(inter)
    requires forall i :: 0 <= i < first ==> s[i].Less(inter)
    requires forall i :: past <= i < |s| ==> inter.Less(s[i])
    requires forall k :: 0 <= k < |s| && s[k].Overlaps(inter) && !s[k].IsSubinterval(inter) ==>
               exists i :: 0 <= i < |s| && i != k && s[i].Overlaps(inter)
    ensures s[first].IsSubinterval(inter)
  {
    assert forall i :: 0 <= i < |s| && i != first ==> !s[i].Overlaps(inter);
  }

  lemma PiecesNotEmpty(f: Interval, l: Interval, inter: Interval)
    requires Proper(f) && Proper(l) && Proper(inter) && f.Overlaps(inter) && l.Overlaps(inter)
    requires Apart(f, l) || (f == l && f.IsSubinterval(inter))
    ensures NoneEmpty(Pieces(f, l, inter))
  {
    assert !f.IsSubinterval(inter) ==> !Head(f, inter).Empty();
    assert !l.IsSubinterval(inter) ==> !Tail(l, inter).Empty();
  }

  // ----- One stored form for each point set

  /** `a` starts at a lower point than `b`. */
  predicate StartsEarlier(a: Interval, b: Interval) {
    a.begin < b.begin || (a.begin == b.begin && a.firstIncluded && !b.firstIncluded)
  }

  /** A union whose first element starts earlier has a point the other one lacks. */
  lemma EarlierStartShows(s: seq<Interval>, t: seq<Interval>)
    requires Canonical(s) && Canonical(t) && |s| > 0 && |t| > 0 && StartsEarlier(s[0], t[0])
    ensures exists x :: InUnion(s, x) && !InUnion(t, x)
  {
    var x := if s[0].firstIncluded then s[0].begin else PointBelow(s[0], t[0].begin);
    assert s[0].Contains(x) && !t[0].Contains(x);
    assert InUnion(s, x) && !InUnion(t, x);
  }

  /** With equal starts, a first element that ends earlier leaves out a point of the other. */
  lemma EarlierEndShows(s: seq<Interval>, t: seq<Interval>)
    requires Canonical(s) && Canonical(t) && |s| > 0 && |t| > 0
    requires s[0].begin == t[0].begin && s[0].firstIncluded == t[0].firstIncluded
    requires s[0].end < t[0].end || (s[0].end == t[0].end && !s[0].lastIncluded && t[0].lastIncluded)
    ensures exists x :: InUnion(t, x) && !InUnion(s, x)
  {
    var x := if !s[0].lastIncluded then s[0].end
             else if |s| == 1 then PointAbove(t[0], s[0].end)
             else (s[0].end + Min(t[0].end, s[1].begin)) / 2.0;
    assert t[0].Contains(x) && !s[0].Contains(x);
    assert forall i :: 1 <= i < |s| ==> i == 1 || Apart(s[1], s[i]);
    assert InUnion(t, x) && !InUnion(s, x);
  }

  /** Canonical storage is determined by its point set. */
  lemma {:induction false} CanonicalIsUnique(s: seq<Interval>, t: seq<Interval>)
    requires Canonical(s) && Canonical(t)
    requires forall x :: InUnion(s, x) <==> InUnion(t, x)
    ensures s == t
  {
    if |s| == 0 || |t| == 0 {
      if |s| > 0 { assert s[0].Contains(PointOf(s[0])); assert InUnion(s, PointOf(s[0])); }
      if |t| > 0 { assert t[0].Contains(PointOf(t[0])); assert InUnion(t, PointOf(t[0])); }
    } else {
      if StartsEarlier(s[0], t[0]) { EarlierStartShows(s, t); }
      if StartsEarlier(t[0], s[0]) { EarlierStartShows(t, s); }
      if s[0] != t[0] {
        if s[0].end < t[0].end || (s[0].end == t[0].end && !s[0].lastIncluded) { EarlierEndShows(s, t); }
        else { EarlierEndShows(t, s); }
      }
      TailPoints(s);
      TailPoints(t);
      CanonicalIsUnique(s[1..], t[1..]);
    }
  }

  lemma TailPoints(s: seq<Interval>)
    requires Canonical(s) && |s| > 0
    ensures forall x :: InUnion(s[1..], x) <==> InUnion(s, x) && !s[0].Contains(x)
  {
    forall x, i | 1 <= i < |s| && s[i].Contains(x) ensures InUnion(s[1..], x) && !s[0].Contains(x) {
      assert s[1..][i - 1].Contains(x);
      assert Apart(s[0], s[i]);
    }
  }

  /** Adding the intervals of a sequence one after the other. */
  function AddedAll(s: seq<Interval>, xs: seq<Interval>): seq<Interval> {
    if xs == [] then s else Added(AddedAll(s, xs[..|xs| - 1]), xs[|xs| - 1])
  }

  lemma {:induction false} AddedAllIsUnion(s: seq<Interval>, xs: seq<Interval>)
    requires Canonical(s) && forall i :: 0 <= i < |xs| ==> Proper(xs[i])
    ensures Canonical(AddedAll(s, xs))
    ensures forall x :: InUnion(AddedAll(s, xs), x) <==> InUnion(s, x) || InUnion(xs, x)
  {
    if xs == [] {
    } else {
      var front, last := xs[..|xs| - 1], xs[|xs| - 1];
      AddedAllIsUnion(s, front);
      AddedIsCanonical(AddedAll(s, front), last);
      forall x ensures InUnion(xs, x) <==> InUnion(front, x) || last.Contains(x) {
        if last.Contains(x) { assert xs[|xs| - 1].Contains(x); }
        if InUnion(front, x) { var i :| 0 <= i < |front| && front[i].Contains(x); assert xs[i].Contains(x); }
      }
    }
  }

  /** What the searches of the standard library demand of every single addition. */
  ghost predicate Searchable(s: seq<Interval>, xs: seq<Interval>) {
    forall n :: 0 <= n < |xs| ==> AddSearchable(AddedAll(s, xs[..n]), xs[n])
  }

  ghost predicate AddSearchable(s: seq<Interval>, inter: Interval) {
    && Partitioned(s, 0, BelowAndNotMergeable(inter))
    && Partitioned(s, AddFirst(s, inter), NotAboveOrMergeable(inter))
  }

  /** Canonical unions can always be added. */
  lemma CanonicalIsSearchable(s: seq<Interval>, xs: seq<Interval>)
    requires Canonical(s) && forall i :: 0 <= i < |xs| ==> Proper(xs[i])
    ensures Searchable(s, xs)
  {
    forall n | 0 <= n < |xs| ensures AddSearchable(AddedAll(s, xs[..n]), xs[n]) {
      AddedAllIsUnion(s, xs[..n]);
      AddSearchesPartitioned(AddedAll(s, xs[..n]), xs[n]);
    }
  }

  /** Adding the same non-empty intervals in any order, and any number of times each,
      stores the identical sequence. */
  lemma AdditionOrderIrrelevant(s: seq<Interval>, xs: seq<Interval>, ys: seq<Interval>)
    requires Canonical(s)
    requires forall i :: 0 <= i < |xs| ==> Proper(xs[i])
    requires forall a :: a in xs <==> a in ys
    ensures AddedAll(s, xs) == AddedAll(s, ys)
  {
    AddedAllIsUnion(s, xs);
    assert forall i :: 0 <= i < |ys| ==> ys[i] in xs;
    AddedAllIsUnion(s, ys);
    SameElementsSamePoints(xs, ys);
    CanonicalIsUnique(AddedAll(s, xs), AddedAll(s, ys));
  }

  lemma SameElementsSamePoints(xs: seq<Interval>, ys: seq<Interval>)
    requires forall a :: a in xs <==> a in ys
    ensures forall x :: InUnion(xs, x) <==> InUnion(ys, x)
  {
    forall x ensures InUnion(xs, x) <==> exists a :: a in xs && a.Contains(x) {}
    forall x ensures InUnion(ys, x) <==> exists a :: a in ys && a.Contains(x) {}
  }

  /** Adding two unions in either order stores the identical sequence. */
  lemma UnionAdditionCommutes(s: seq<Interval>, t: seq<Interval>)
    requires Canonical(s) && Canonical(t)
    ensures AddedAll(s, t) == AddedAll(t, s)
  {
    AddedAllIsUnion(s, t);
    AddedAllIsUnion(t, s);
    CanonicalIsUnique(AddedAll(s, t), AddedAll(t, s));
  }

  // ----- Taking a piece out of one element and giving it back

  /** Subtracting an interval that lies inside element `k` replaces that element by its
      two remnants and removes exactly the points of the interval, whatever empty remnants
      the vector already holds. */
  lemma SubtractedInside(s: seq<Interval>, inter: Interval, k: nat)
    requires Spaced(s) && Proper(inter) && k < |s| && inter.IsSubinterval(s[k])
    ensures Subtracted(s, inter) == Some(s[..k] + Pieces(s[k], s[k], inter) + s[k + 1..])
    ensures var r := Subtracted(s, inter).value;
            Spaced(r) && forall x :: InUnion(r, x) <==> InUnion(s, x) && !inter.Contains(x)
  {
    SubtractSearches(s, inter);
    assert s[k].Overlaps(inter);
    assert forall i :: 0 <= i < k ==> Apart(s[i], s[k]) && s[i].Less(inter);
    assert forall i :: k < i < |s| ==> Apart(s[k], s[i]) && inter.Less(s[i]);
    assert SubtractFirst(s, inter) == k;
    if k + 1 < |s| { assert inter.Less(s[k + 1]); }
    assert SubtractPast(s, inter) == k + 1;
    PiecesValidIff(s[k], s[k], inter);
    SubtractRange(s, inter, k, k + 1);
  }

  /** Where `+=` works, given which elements lie below and above the new interval. */
  lemma AddedBetween(r: seq<Interval>, inter: Interval, k: nat, m: nat)
    requires Spaced(r) && Proper(inter) && k + m <= |r|
    requires forall i :: 0 <= i < k ==> Apart(r[i], inter)
    requires forall i :: k + m <= i < |r| ==> Apart(inter, r[i])
    requires m > 0 ==> r[k].Mergeable(inter) && r[k + m - 1].Mergeable(inter)
    ensures Added(r, inter) ==
            r[..k] + [if m == 0 then inter else Hull(r[k], inter, r[k + m - 1])] + r[k + m..]
  {
    AddSearches(r, inter);
    if k + m < |r| { assert Apart(inter, r[k + m]); }
    if m > 0 {
      assert !Apart(r[k], inter) && !Apart(inter, r[k + m - 1]);
      assert AddFirst(r, inter) == k;
      assert AddPast(r, inter) == k + m;
    } else {
      assert AddFirst(r, inter) == k;
    }
  }

  /** Round trip: subtracting a non-empty interval that lies inside an element and adding
      it back restores the identical stored sequence, absorbing any empty remnant. */
  lemma SubtractThenAddRestores(s: seq<Interval>, inter: Interval, k: nat)
    requires Spaced(s) && Proper(inter) && k < |s| && inter.IsSubinterval(s[k])
    ensures Subtracted(s, inter).Some? && Added(Subtracted(s, inter).value, inter) == s
  {
    SubtractedInside(s, inter, k);
    AddFillsGap(s, inter, k);
  }

  lemma AddFillsGap(s: seq<Interval>, inter: Interval, k: nat)
    requires Spaced(s) && Proper(inter) && k < |s| && inter.IsSubinterval(s[k])
    requires Spaced(s[..k] + Pieces(s[k], s[k], inter) + s[k + 1..])
    ensures Added(s[..k] + Pieces(s[k], s[k], inter) + s[k + 1..], inter) == s
  {
    var ps := Pieces(s[k], s[k], inter);
    var r := s[..k] + ps + s[k + 1..];
    NeighboursStayApart(s, inter, k, ps);
    PiecesMergeBack(s[k], inter);
    AddedBetween(r, inter, k, |ps|);
    GapFilled(s, r, k, |ps|);
  }

  lemma GapFilled(s: seq<Interval>, r: seq<Interval>, k: nat, m: nat)
    requires k < |s| && k + m <= |r| && r[..k] == s[..k] && r[k + m..] == s[k + 1..]
    ensures r[..k] + [s[k]] + r[k + m..] == s
  {
  }

  lemma NeighboursStayApart(s: seq<Interval>, inter: Interval, k: nat, ps: seq<Interval>)
    requires Spaced(s) && Proper(inter) && k < |s| && inter.IsSubinterval(s[k])
    ensures var r := s[..k] + ps + s[k + 1..];
            && r[..k] == s[..k] && r[k..k + |ps|] == ps && r[k + |ps|..] == s[k + 1..]
            && (ps != [] ==> r[k] == ps[0] && r[k + |ps| - 1] == ps[|ps| - 1])
            && (forall i :: 0 <= i < k ==> Apart(r[i], inter))
            && (forall i :: k + |ps| <= i < |r| ==> Apart(inter, r[i]))
  {
    var r := s[..k] + ps + s[k + 1..];
    forall i | 0 <= i < k ensures Apart(r[i], inter) { assert r[i] == s[i] && Apart(s[i], s[k]); }
    forall i | k + |ps| <= i < |r| ensures Apart(inter, r[i]) {
      assert r[i] == s[i - |ps| + 1] && Apart(s[k], s[i - |ps| + 1]);
    }
  }

  lemma PiecesMergeBack(f: Interval, inter: Interval)
    requires f.Valid() && Proper(inter) && inter.IsSubinterval(f)
    ensures var ps := Pieces(f, f, inter);
            if ps == [] then inter == f
            else ps[0].Mergeable(inter) && ps[|ps| - 1].Mergeable(inter) && Hull(ps[0], inter, ps[|ps| - 1]) == f
  {
  }

  // ----- The edits of the vector that `-=` makes, as slices of the old vector

  lemma SubtractedByPieces(s: seq<Interval>, inter: Interval)
    requires Subtracted(s, inter).Some?
    requires SubtractFirst(s, inter) < |s| && s[SubtractFirst(s, inter)].Mergeable(inter)
    ensures var first, past := SubtractFirst(s, inter), SubtractPast(s, inter);
            if first == past then
              0 < first && s[first].IsSubinterval(inter) && s[first - 1].IsSubinterval(inter) &&
              Subtracted(s, inter).value == s
            else
              Subtracted(s, inter).value == s[..first] + Pieces(s[first], s[past - 1], inter) + s[past..]
  {
  }

  lemma EditSwallow(s: seq<Interval>, first: nat, last: nat, m: Interval)
    requires first <= last < |s|
    ensures var r := s[..first] + s[last + 1..];
            r[..first] + [m] + r[first..] == s[..first] + [m] + s[last + 1..]
  {
  }

  lemma EditNone(s: seq<Interval>, first: nat, past: nat)
    requires first <= past <= |s|
    ensures s[..first] + s[past..] == s[..first] + ([] + []) + s[past..]
    ensures first == past ==> s[..first] + s[past..] == s
  {
  }

  lemma EditTail(s: seq<Interval>, first: nat, last: nat, t: Interval)
    requires first <= last < |s|
    ensures (s[..first] + s[last..])[first := t] == s[..first] + ([] + [t]) + s[last + 1..]
  {
  }

  lemma EditHead(s: seq<Interval>, first: nat, last: nat, h: Interval)
    requires first <= last < |s|
    ensures (s[..first + 1] + s[last + 1..])[first := h] == s[..first] + ([h] + []) + s[last + 1..]
  {
  }

  lemma EditSplit(s: seq<Interval>, k: nat, h: Interval, t: Interval)
    requires k < |s|
    ensures (s[..k + 1] + [t] + s[k + 1..])[k := h] == s[..k] + ([h] + [t]) + s[k + 1..]
  {
  }

  lemma EditBoth(s: seq<Interval>, first: nat, last: nat, h: Interval, t: Interval)
    requires first < last < |s|
    ensures (s[..first + 1] + s[last..])[first + 1] == s[last]
    ensures (s[..first + 1] + s[last..])[first + 1 := t][first := h] == s[..first] + ([h] + [t]) + s[last + 1..]
  {
  }

  // ----- The class

  class IntervalUnion {
    var storage: seq<Interval>

    constructor ()
      ensures storage == []
    {
      storage := [];
    }

    constructor FromInterval(inter: Interval)
      ensures storage == [inter]
    {
      storage := [inter];
    }

    /** `+=`; the precondition is what the two searches of the standard library demand. */
    method Add(inter: Interval)
      requires Partitioned(storage, 0, BelowAndNotMergeable(inter))
      requires Partitioned(storage, AddFirst(storage, inter), NotAboveOrMergeable(inter))
      modifies this
      ensures storage == Added(old(storage), inter)
    {
      var first := PartitionPoint(storage, 0, BelowAndNotMergeable(inter));
      if first == |storage| || !storage[first].Mergeable(inter) {
        storage := storage[..first] + [inter] + storage[first..];
        return;
      }
      var past := PartitionPoint(storage, first, NotAboveOrMergeable(inter));
      var last := past - 1;

      var begin, firstIncluded;
      if inter.begin < storage[first].begin {
        begin, firstIncluded := inter.begin, inter.firstIncluded;
      } else if storage[first].begin < inter.begin {
        begin, firstIncluded := storage[first].begin, storage[first].firstIncluded;
      } else {
        begin, firstIncluded := inter.begin, storage[first].firstIncluded || inter.firstIncluded;
      }

      var end, lastIncluded;
      if inter.end > storage[last].end {
        end, lastIncluded := inter.end, inter.lastIncluded;
      } else if storage[last].end > inter.end {
        end, lastIncluded := storage[last].end, storage[last].lastIncluded;
      } else {
        end, lastIncluded := inter.end, storage[last].lastIncluded || inter.lastIncluded;
      }

      EditSwallow(storage, first, last, Interval(begin, end, firstIncluded, lastIncluded));
      storage := storage[..first] + storage[last + 1..];
      storage := storage[..first] + [Interval(begin, end, firstIncluded, lastIncluded)] + storage[first..];
    }

    /** `+=` with a whole union, one element after the other. Adding a non-empty union to
        itself would change the vector that is being walked. */
    method AddUnion(un: IntervalUnion)
      requires Searchable(storage, un.storage) && (un == this ==> storage == [])
      modifies this
      ensures storage == AddedAll(old(storage), old(un.storage))
      ensures old(Canonical(storage) && Canonical(un.storage)) ==> Canonical(storage)
    {
      ghost var s, xs := storage, un.storage;
      var i := 0;
      while i < |un.storage|
        invariant 0 <= i <= |xs| && un.storage == xs && storage == AddedAll(s, xs[..i])
      {
        assert AddSearchable(AddedAll(s, xs[..i]), xs[i]);
        assert xs[..i + 1][..i] == xs[..i];
        Add(un.storage[i]);
        i := i + 1;
      }
      assert xs[..i] == xs;
      if Canonical(s) && Canonical(xs) { AddedAllIsUnion(s, xs); }
    }

    /** `+` with a whole union: a new object, the operands unchanged. */
    method Plus(un: IntervalUnion) returns (m: IntervalUnion)
      requires Searchable(storage, un.storage)
      ensures fresh(m) && m.storage == AddedAll(storage, un.storage)
      ensures Canonical(storage) && Canonical(un.storage) ==> Canonical(m.storage)
    {
      m := new IntervalUnion();
      m.storage := storage;
      m.AddUnion(un);
    }

    /** `-=`, where it is defined. */
    method Subtract(inter: Interval)
      requires Partitioned(storage, 0, Below(inter))
      requires Partitioned(storage, SubtractFirst(storage, inter), NotAbove(inter))
      requires Subtracted(storage, inter).Some?
      modifies this
      ensures Some(storage) == Subtracted(old(storage), inter)
    {
      var first := PartitionPoint(storage, 0, Below(inter));
      if first == |storage| || !storage[first].Mergeable(inter) {
        return;
      }
      var past := PartitionPoint(storage, first, NotAbove(inter));
      var last := past - 1;
      ghost var s := storage;
      SubtractedByPieces(s, inter);

      if storage[first].IsSubinterval(inter) {
        if storage[last].IsSubinterval(inter) {
          storage := storage[..first] + storage[last + 1..];
          EditNone(s, first, past);
        } else {
          storage := storage[..first] + storage[last..];
          storage := storage[first := Tail(storage[first], inter)];
          EditTail(s, first, last, Tail(s[last], inter));
        }
      } else {
        if storage[last].IsSubinterval(inter) {
          storage := storage[..first + 1] + storage[last + 1..];
          storage := storage[first := Head(storage[first], inter)];
          EditHead(s, first, last, Head(s[first], inter));
          return;
        }
        if first == last {
          storage := storage[..first + 1] + [Tail(storage[last], inter)] + storage[first + 1..];
          storage := storage[first := Head(storage[first], inter)];
          EditSplit(s, first, Head(s[first], inter), Tail(s[last], inter));
        } else {
          storage := storage[..first + 1] + storage[last..];
          EditBoth(s, first, last, Head(s[first], inter), Tail(s[last], inter));
          storage := storage[first + 1 := Tail(storage[first + 1], inter)];
          storage := storage[first := Head(storage[first], inter)];
        }
      }
    }

    /** `-` with an interval: a new object, the operand unchanged. */
    method Minus(inter: Interval) returns (m: IntervalUnion)
      requires Partitioned(storage, 0, Below(inter))
      requires Partitioned(storage, SubtractFirst(storage, inter), NotAbove(inter))
      requires Subtracted(storage, inter).Some?
      ensures fresh(m) && Some(m.storage) == Subtracted(storage, inter)
    {
      m := new IntervalUnion();
      m.storage := storage;
      m.Subtract(inter);
    }
  }
}
