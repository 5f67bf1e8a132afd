/** Intervals with open or closed ends, and what the comparisons on them mean
    as statements about the real points they contain. */
module Intervals {

  datatype Interval = Interval(begin: real, end: real, firstIncluded: bool, lastIncluded: bool) {

    /** What the constructor of the source asserts. */
    predicate Valid() { begin <= end }

    predicate Empty() { begin == end && !(firstIncluded && lastIncluded) }

    function Size(): real { end - begin }

    ghost predicate Contains(x: real) {
      && (begin < x || (begin == x && firstIncluded))
      && (x < end || (x == end && lastIncluded))
    }

    predicate Less(other: Interval) {
      if end < other.begin then true
      else if end > other.begin then false
      else !(lastIncluded && other.firstIncluded)
    }

    predicate Overlaps(other: Interval) {
      if Empty() || other.Empty() then false
      else !this.Less(other) && !other.Less(this)
    }

    predicate Mergeable(other: Interval) {
      || this.Overlaps(other)
      || (end == other.begin && (lastIncluded || other.firstIncluded))
      || (begin == other.end && (firstIncluded || other.lastIncluded))
    }

    predicate IsSubinterval(other: Interval) {
      && (begin > other.begin || (begin == other.begin && (firstIncluded ==> other.firstIncluded)))
      && (end < other.end || (end == other.end && (lastIncluded ==> other.lastIncluded)))
    }
  }

  /** A valid interval that has at least one point. */
  predicate Proper(a: Interval) { a.Valid() && !a.Empty() }

  function Max(x: real, y: real): real { if x < y then y else x }

  function Min(x: real, y: real): real { if x < y then x else y }

  /** Some point of a non-empty interval. */
  function PointOf(a: Interval): (x: real)
    requires Proper(a)
    ensures a.Contains(x)
  {
    (a.begin + a.end) / 2.0
  }

  /** Some point of `a` below `y`, when `a` begins before `y`. */
  function PointBelow(a: Interval, y: real): (x: real)
    requires Proper(a) && a.begin < y
    ensures a.Contains(x) && x < y
  {
    if a.firstIncluded then a.begin else (a.begin + Min(a.end, y)) / 2.0
  }

  /** Some point of `a` above `y`, when `a` ends after `y`. */
  function PointAbove(a: Interval, y: real): (x: real)
    requires Proper(a) && y < a.end
    ensures a.Contains(x) && y < x
  {
    if a.lastIncluded then a.end else (Max(a.begin, y) + a.end) / 2.0
  }

  /** `a` ends before `b` begins and at least one point between them is in neither. */
  predicate Apart(a: Interval, b: Interval) {
    a.end < b.begin || (a.end == b.begin && !a.lastIncluded && !b.firstIncluded)
  }

  // ----- The comparisons, read as statements about points

  /** `a < b` says that every point of `a` is below every point of `b`. */
  lemma LessMeansBelow(a: Interval, b: Interval)
    requires Proper(a) && Proper(b)
    ensures a.Less(b) <==> forall x, y :: a.Contains(x) && b.Contains(y) ==> x < y
  {
    if !a.Less(b) {
      if a.end == b.begin {
        assert a.Contains(a.end) && b.Contains(a.end);
      } else {
        var x := PointAbove(a, b.begin);
        var y := PointBelow(b, x);
        assert !(x < y);
      }
    }
  }

  /** `a && b` says that the two intervals share a point. */
  lemma OverlapsMeansCommonPoint(a: Interval, b: Interval)
    requires a.Valid() && b.Valid()
    ensures a.Overlaps(b) <==> exists x :: a.Contains(x) && b.Contains(x)
  {
    if a.Overlaps(b) {
      var c := Intersection(a, b);
      var x := PointOf(c);
      assert a.Contains(x) && b.Contains(x);
    }
  }

  function Intersection(a: Interval, b: Interval): (c: Interval)
    ensures forall x :: c.Contains(x) <==> a.Contains(x) && b.Contains(x)
  {
    Interval(Max(a.begin, b.begin), Min(a.end, b.end),
             (a.begin >= b.begin ==> a.firstIncluded) && (b.begin >= a.begin ==> b.firstIncluded),
             (a.end <= b.end ==> a.lastIncluded) && (b.end <= a.end ==> b.lastIncluded))
  }

  /** `is_subinterval` is inclusion of the point sets. */
  lemma SubintervalMeansSubset(a: Interval, b: Interval)
    requires Proper(a) && b.Valid()
    ensures a.IsSubinterval(b) <==> forall x :: a.Contains(x) ==> b.Contains(x)
  {
    if !a.IsSubinterval(b) {
      if a.begin < b.begin {
        assert !b.Contains(PointBelow(a, b.begin));
      } else if b.end < a.end {
        assert !b.Contains(PointAbove(a, b.end));
      } else if a.begin == b.begin && a.firstIncluded && !b.firstIncluded {
        assert a.Contains(a.begin);
      } else {
        assert a.Contains(a.end);
      }
    }
  }

  /** `mergeable` says that the union of the two point sets is again one interval. */
  lemma MergeableMeansOneInterval(a: Interval, b: Interval)
    requires Proper(a) && Proper(b)
    ensures a.Mergeable(b) <==>
            exists m: Interval :: m.Valid() && forall x :: m.Contains(x) <==> a.Contains(x) || b.Contains(x)
  {
    if a.Mergeable(b) {
      var m := Hull(a, b, a);
      assert m.Valid() && forall x :: m.Contains(x) <==> a.Contains(x) || b.Contains(x);
    } else if m: Interval :| m.Valid() && forall x :: m.Contains(x) <==> a.Contains(x) || b.Contains(x) {
      var p, q := PointOf(a), PointOf(b);
      assert m.Contains(p) && m.Contains(q);
      var gap := if a.Less(b) then (a.end + b.begin) / 2.0 else (b.end + a.begin) / 2.0;
      assert m.Contains(gap);
      assert false;
    }
  }

  /** The interval that `+=` stores in place of the elements it swallows: the lower of
      the two beginnings and the higher of the two ends, an end point being included
      when either side includes it. */
  function Hull(first: Interval, inter: Interval, last: Interval): Interval {
    var (begin, firstIncluded) :=
      if inter.begin < first.begin then (inter.begin, inter.firstIncluded)
      else if first.begin < inter.begin then (first.begin, first.firstIncluded)
      else (inter.begin, first.firstIncluded || inter.firstIncluded);
    var (end, lastIncluded) :=
      if inter.end > last.end then (inter.end, inter.lastIncluded)
      else if last.end > inter.end then (last.end, last.lastIncluded)
      else (inter.end, last.lastIncluded || inter.lastIncluded);
    Interval(begin, end, firstIncluded, lastIncluded)
  }
}
