/** Runs of river points without a given value, between the nearest points where one is given. */
module RiverRuns {

  /** A river that starts and ends with a given value; dist[k] is the distance from point k - 1 to point k. */
  ghost predicate Anchored(given: seq<bool>, dist: seq<real>) {
    && |given| == |dist| && given != [] && given[0] && given[|given|-1]
    && forall k :: 0 <= k < |dist| ==> dist[k] >= 0.0
  }

  /** The distance along the river from point a to point b. */
  function Along(dist: seq<real>, a: nat, b: nat): real
    requires a <= b < |dist|
  {
    if a == b then 0.0 else Along(dist, a, b - 1) + dist[b]
  }

  /** The nearest given point before i. */
  function Before(given: seq<bool>, i: nat): (p: nat)
    requires 0 < i <= |given| && given[0]
    ensures p < i && given[p] && forall q :: p < q < i ==> !given[q]
  {
    if given[i - 1] then i - 1 else Before(given, i - 1)
  }

  /** The nearest given point from i on. */
  function After(given: seq<bool>, i: nat): (n: nat)
    requires i < |given| && given[|given|-1]
    ensures i <= n < |given| && given[n] && forall q :: i <= q < n ==> !given[q]
    decreases |given| - i
  {
    if given[i] then i else After(given, i + 1)
  }

  lemma {:induction false} AlongAdds(dist: seq<real>, a: nat, b: nat, c: nat)
    requires a <= b <= c < |dist| && forall k :: 0 <= k < |dist| ==> dist[k] >= 0.0
    ensures Along(dist, a, c) == Along(dist, a, b) + Along(dist, b, c) && Along(dist, b, c) >= 0.0
    decreases c - b
  {
    if b < c {
      AlongAdds(dist, a, b, c - 1);
    }
  }

  /** It is made of the distances of single steps. */
  lemma {:induction false} AlongSteps(dist: seq<real>, a: nat, b: nat, c: nat)
    requires a <= b < c < |dist| && forall k :: 0 <= k < |dist| ==> dist[k] >= 0.0
    ensures Along(dist, a, a) == 0.0 && Along(dist, b, b + 1) == dist[b + 1]
    ensures Along(dist, a, c) == Along(dist, a, b) + dist[b + 1] + Along(dist, b + 1, c)
  {
    AlongAdds(dist, a, b, c);
    AlongAdds(dist, b, b + 1, c);
    assert Along(dist, b, b) == 0.0;
  }

  /** Points p and n are the nearest given ones on either side of i. */
  ghost predicate Neighbours(given: seq<bool>, i: nat, p: nat, n: nat) {
    p < i < n < |given| && given[p] && given[n] && forall q :: p < q < n ==> !given[q]
  }

  lemma NeighboursAre(given: seq<bool>, i: nat, p: nat, n: nat)
    requires given != [] && given[0] && given[|given|-1] && Neighbours(given, i, p, n)
    ensures p == Before(given, i) && n == After(given, i)
  {
  }

  /** All points of a run have the same neighbours. */
  lemma {:induction false} SameRun(given: seq<bool>, i: nat, j: nat)
    requires 0 < i <= j < |given| && given[0] && given[|given|-1]
    requires forall q :: i <= q < j ==> !given[q]
    ensures Before(given, i) == Before(given, j) && After(given, i) == After(given, j)
    decreases j - i
  {
    if i < j {
      SameRun(given, i + 1, j);
      assert !given[i];
    }
  }

  /** The distance to divide by: 1 where the given points coincide. */
  function Divisor(total: real): real {
    if total == 0.0 then 1.0 else total
  }

  /** How much of the way between its neighbours lies before point i of a run. */
  function Share(given: seq<bool>, dist: seq<real>, i: nat): real
    requires Anchored(given, dist) && i < |given| && !given[i]
  {
    var p, n := Before(given, i), After(given, i);
    Along(dist, p, i) / Divisor(Along(dist, p, n))
  }

  lemma Ratio(a: real, b: real, t: real)
    requires 0.0 <= a <= b && t > 0.0
    ensures 0.0 <= a / t <= b / t && t / t == 1.0
  {
  }

  /** The share is between 0 and 1, 0 if the neighbours coincide, and does not fall along a run. */
  lemma ShareGrows(given: seq<bool>, dist: seq<real>, i: nat, j: nat)
    requires Anchored(given, dist) && i <= j < |given| && forall q :: i <= q <= j ==> !given[q]
    ensures Before(given, i) == Before(given, j) && After(given, i) == After(given, j)
    ensures 0.0 <= Share(given, dist, i) <= Share(given, dist, j) <= 1.0
    ensures Along(dist, Before(given, i), After(given, i)) == 0.0 ==> Share(given, dist, i) == 0.0
  {
    SameRun(given, i, j);
    var p, n := Before(given, i), After(given, i);
    AlongAdds(dist, p, p, i);
    AlongAdds(dist, p, i, j);
    AlongAdds(dist, p, j, n);
    AlongAdds(dist, p, i, n);
    var total := Along(dist, p, n);
    if total > 0.0 {
      Ratio(Along(dist, p, i), Along(dist, p, j), total);
      Ratio(Along(dist, p, j), total, total);
    } else {
      assert Along(dist, p, i) == 0.0 && Along(dist, p, j) == 0.0;
    }
  }
}
