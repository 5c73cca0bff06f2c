/** Interpolation of solution compositions between the points of a river where they are given. */
module RiverSolutions {
  import opened RiverRuns

  /** A river point: the solution given there, if any, and the mixture assigned, which is the fraction f1 of solution1 and
      the rest of solution2. */
  datatype Point = Point(defined: bool, current: int, solution1: int, solution2: int, f1: real)

  function Given(s: seq<Point>): (r: seq<bool>)
    ensures |r| == |s|
  {
    seq(|s|, k requires 0 <= k < |s| => s[k].defined)
  }

  /** The fraction of the solution before i in its mixture. */
  function Fraction(s: seq<Point>, dist: seq<real>, i: nat): real
    requires Anchored(Given(s), dist) && i < |s| && !s[i].defined
  {
    1.0 - Share(Given(s), dist, i)
  }

  /** The mixture at point i. */
  function Mixed(s: seq<Point>, dist: seq<real>, i: nat): Point
    requires Anchored(Given(s), dist) && i < |s|
  {
    if s[i].defined then s[i].(solution1 := s[i].current, solution2 := -1, f1 := 1.0)
    else
      s[i].(solution1 := s[Before(Given(s), i)].current, solution2 := s[After(Given(s), i)].current,
            f1 := Fraction(s, dist, i))
  }

  /** The fraction is between 0 and 1, and 1 if the neighbours coincide. */
  lemma FractionBounds(s: seq<Point>, dist: seq<real>, i: nat)
    requires Anchored(Given(s), dist) && i < |s| && !s[i].defined
    ensures 0.0 <= Fraction(s, dist, i) <= 1.0
    ensures Along(dist, Before(Given(s), i), After(Given(s), i)) == 0.0 ==> Fraction(s, dist, i) == 1.0
  {
    ShareGrows(Given(s), dist, i, i);
  }

  /** It does not grow along a run. */
  lemma FractionFalls(s: seq<Point>, dist: seq<real>, i: nat, j: nat)
    requires Anchored(Given(s), dist) && i <= j < |s| && forall q :: i <= q <= j ==> !s[q].defined
    ensures Before(Given(s), i) == Before(Given(s), j) && After(Given(s), i) == After(Given(s), j)
    ensures Fraction(s, dist, j) <= Fraction(s, dist, i)
  {
    ShareGrows(Given(s), dist, i, j);
  }

  lemma Complement(a: real, b: real, t: real)
    requires t > 0.0 && t == a + b
    ensures 1.0 - a / t == b / t
  {
    var u, v := a / t, b / t;
    assert u * t == a && v * t == b;
    assert (1.0 - u - v) * t == t - u * t - v * t;
    NoFactor(1.0 - u - v, t);
  }

  lemma Positive(a: real, b: real)
    requires a > 0.0 && b > 0.0
    ensures a * b > 0.0
  {
  }

  lemma NoFactor(w: real, t: real)
    requires t > 0.0 && w * t == 0.0
    ensures w == 0.0
  {
    if w > 0.0 {
      Positive(w, t);
    } else if w < 0.0 {
      Positive(-w, t);
    }
  }

  lemma FractionIs(s: seq<Point>, dist: seq<real>, i: nat, p: nat, n: nat)
    requires Anchored(Given(s), dist) && i < |s| && !s[i].defined && p == Before(Given(s), i) && n == After(Given(s), i)
    requires Along(dist, p, n) > 0.0
    ensures Fraction(s, dist, i) == 1.0 - Along(dist, p, i) / Along(dist, p, n)
  {
  }

  /** The mixture runs linearly in the distance: the fraction is the distance still to go to the later neighbour, as a
      part of the distance between the two. */
  lemma FractionLinear(s: seq<Point>, dist: seq<real>, i: nat, p: nat, n: nat)
    requires Anchored(Given(s), dist) && i < |s| && !s[i].defined && p == Before(Given(s), i) && n == After(Given(s), i)
    requires Along(dist, p, n) > 0.0
    ensures Fraction(s, dist, i) == Along(dist, i, n) / Along(dist, p, n)
  {
    AlongAdds(dist, p, i, n);
    FractionIs(s, dist, i, p, n);
    Complement(Along(dist, p, i), Along(dist, i, n), Along(dist, p, n));
  }

  /** Point k as it ought to be assigned: its own solution alone where one is given, else the solutions of the given points
      on either side, the first by the distance still to go as a part of the distance between the two. */
  ghost predicate MixedRight(s: seq<Point>, dist: seq<real>, k: nat, m: Point)
    requires Anchored(Given(s), dist) && k < |s|
  {
    && m.defined == s[k].defined && m.current == s[k].current
    && (s[k].defined ==> m.solution1 == s[k].current && m.solution2 == -1 && m.f1 == 1.0)
    && forall p: nat, n: nat {:trigger Neighbours(Given(s), k, p, n)} :: Neighbours(Given(s), k, p, n) && !s[k].defined ==>
         && m.solution1 == s[p].current && m.solution2 == s[n].current
         && (Along(dist, p, n) > 0.0 ==> m.f1 == Along(dist, k, n) / Along(dist, p, n))
         && (Along(dist, p, n) == 0.0 ==> m.f1 == 1.0)
  }

  lemma MixedIsRight(s: seq<Point>, dist: seq<real>, k: nat)
    requires Anchored(Given(s), dist) && k < |s|
    ensures MixedRight(s, dist, k, Mixed(s, dist, k))
  {
    forall p: nat, n: nat | Neighbours(Given(s), k, p, n) && !s[k].defined
      ensures var m := Mixed(s, dist, k);
              && m.solution1 == s[p].current && m.solution2 == s[n].current
              && (Along(dist, p, n) > 0.0 ==> m.f1 == Along(dist, k, n) / Along(dist, p, n))
              && (Along(dist, p, n) == 0.0 ==> m.f1 == 1.0)
    {
      NeighboursAre(Given(s), k, p, n);
      FractionBounds(s, dist, k);
      if Along(dist, p, n) > 0.0 { FractionLinear(s, dist, k, p, n); }
    }
  }

  ghost predicate MixedUpto(s: seq<Point>, dist: seq<real>, points: seq<Point>, i: nat) {
    && Anchored(Given(s), dist) && i <= |points| == |s|
    && (forall k :: 0 <= k < i ==> MixedAt(s, dist, points, k))
    && (forall k :: i <= k < |s| ==> points[k] == s[k])
  }

  ghost predicate MixedAt(s: seq<Point>, dist: seq<real>, points: seq<Point>, k: int)
    requires Anchored(Given(s), dist)
  {
    0 <= k < |points| == |s| && points[k] == Mixed(s, dist, k)
  }

  lemma OneMore(s: seq<Point>, dist: seq<real>, points: seq<Point>, i: nat, m: Point)
    requires MixedUpto(s, dist, points, i) && i < |s| && m == Mixed(s, dist, i)
    ensures MixedUpto(s, dist, points[i := m], i + 1)
  {
    var next := points[i := m];
    forall k | 0 <= k < i + 1
      ensures MixedAt(s, dist, next, k)
    {
      assert k < i ==> MixedAt(s, dist, points, k);
    }
  }

  class River {
    var points: seq<Point>
    const dist: seq<real>

    constructor (points: seq<Point>, dist: seq<real>)
      ensures this.points == points && this.dist == dist
    {
      this.points, this.dist := points, dist;
    }

    /** The points from i on are as given, those before it have been assigned their mixtures. */
    ghost predicate Upto(s: seq<Point>, i: nat)
      reads this
    {
      MixedUpto(s, dist, points, i)
    }

    /** Assigns every point its mixture. */
    method InterpolateSolutions()
      requires Anchored(Given(points), dist)
      modifies this
      ensures |points| == |old(points)|
      ensures forall k :: 0 <= k < |points| ==> points[k] == Mixed(old(points), dist, k)
      ensures forall k: nat :: k < |points| ==> MixedRight(old(points), dist, k, points[k])
    {
      ghost var s := points;
      var i, length, i1 := 0, 0.0, -999;
      while i < |points|
        invariant 0 <= i && Upto(s, i)
        invariant i < |s| && !s[i].defined ==> i > 0 && s[i - 1].defined
        invariant i > 0 && s[i - 1].defined ==> length == 0.0 && i1 == s[i - 1].current
      {
        if points[i].defined {
          length := 0.0;
          i1 := points[i].current;
          OneMore(s, dist, points, i, Mixed(s, dist, i));
          points := points[i := points[i].(solution1 := points[i].current, solution2 := -1, f1 := 1.0)];
          i := i + 1;
        } else {
          i, length := MixRun(i, length, i1, s);
        }
      }
      forall k: nat | k < |s|
        ensures points[k] == Mixed(s, dist, k) && MixedRight(s, dist, k, points[k])
      {
        assert MixedAt(s, dist, points, k);
        MixedIsRight(s, dist, k);
      }
    }

    /** Measures a run without given solutions, from the given point before it to the one after it. */
    method MeasureRun(start: nat, startLength: real, ghost s: seq<Point>) returns (k: nat, length: real)
      requires 0 < start < |s| && Upto(s, start) && !s[start].defined && s[start - 1].defined && startLength == 0.0
      ensures start < k < |s| && k == After(Given(s), start) && length == Along(dist, start - 1, k)
      ensures Before(Given(s), start) == start - 1
    {
      k, length := start, startLength;
      while !points[k].defined
        invariant start <= k < |s| && length == Along(dist, start - 1, k - 1)
        invariant forall q :: start <= q < k ==> !s[q].defined
        decreases |s| - k
      {
        length := length + dist[k];
        k := k + 1;
      }
      length := length + dist[k];
      SameRun(Given(s), start, k);
      assert After(Given(s), k) == k && Before(Given(s), start) == start - 1;
    }

    /** Assigns the points of a run without given solutions their mixtures. */
    method MixRun(start: nat, startLength: real, i1: int, ghost s: seq<Point>) returns (i: nat, length: real)
      requires 0 < start < |s| && Upto(s, start) && !s[start].defined && s[start - 1].defined
      requires startLength == 0.0 && i1 == s[start - 1].current
      modifies `points
      ensures start < i < |s| && Upto(s, i) && s[i].defined && !s[i - 1].defined
    {
      var k, total := MeasureRun(start, startLength, s);
      var i2 := points[k].current;
      if total == 0.0 {
        total := 1.0;
      }
      assert !Given(s)[k - 1];
      i, length := start, 0.0;
      while i < k
        invariant start <= i <= k && Upto(s, i) && length == Along(dist, start - 1, i - 1)
        modifies `points
      {
        length := length + dist[i];
        var f1 := 1.0 - length / total;
        MixNext(s, start, i, i1, i2, f1, dist, points);
        points := points[i := points[i].(solution1 := i1, solution2 := i2, f1 := f1)];
        i := i + 1;
      }
    }
  }

  lemma MixNext(s: seq<Point>, start: nat, i: nat, i1: int, i2: int, f1: real, dist: seq<real>, points: seq<Point>)
    requires MixedUpto(s, dist, points, i) && 0 < start < |s| && start <= i < After(Given(s), start) && s[start - 1].defined
    requires i1 == s[start - 1].current && i2 == s[After(Given(s), start)].current
    requires f1 == 1.0 - Along(dist, start - 1, i) / Divisor(Along(dist, start - 1, After(Given(s), start)))
    ensures MixedUpto(s, dist, points[i := points[i].(solution1 := i1, solution2 := i2, f1 := f1)], i + 1)
  {
    MixedIs(s, start, i, i1, i2, f1, dist);
    OneMore(s, dist, points, i, points[i].(solution1 := i1, solution2 := i2, f1 := f1));
  }

  /** The mixture of a point of the run that starts at `start`. */
  lemma MixedIs(s: seq<Point>, start: nat, i: nat, i1: int, i2: int, f1: real, dist: seq<real>)
    requires Anchored(Given(s), dist) && 0 < start < |s| && start <= i < After(Given(s), start) && s[start - 1].defined
    requires i1 == s[start - 1].current && i2 == s[After(Given(s), start)].current
    requires f1 == 1.0 - Along(dist, start - 1, i) / Divisor(Along(dist, start - 1, After(Given(s), start)))
    ensures Mixed(s, dist, i) == s[i].(solution1 := i1, solution2 := i2, f1 := f1)
  {
    SameRun(Given(s), start, i);
  }
}
