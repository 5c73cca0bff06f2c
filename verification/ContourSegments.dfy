/** The edges the two passes emit are, as segments, exactly the slanted edges of the contour. */
module ContourSegments {
  import opened Basics
  import opened ContourEdges

  /** The segment a pass emits at vertex i. */
  function SegmentAt(v: seq<Vertex>, i: nat, fwd: bool): Segment
    requires i < |v|
  {
    Segment(v[i], v[Step(i, |v|, fwd)])
  }

  ghost predicate Places(v: seq<Vertex>, s: seq<nat>) {
    forall t :: 0 <= t < |s| ==> s[t] < |v|
  }

  ghost function SegmentsAt(v: seq<Vertex>, s: seq<nat>, fwd: bool): (r: seq<Segment>)
    requires Places(v, s)
    ensures |r| == |s|
  {
    seq(|s|, t requires 0 <= t < |s| => SegmentAt(v, s[t], fwd))
  }

  // ----- how often a segment x comes up, counted vertex by vertex

  ghost function One(v: seq<Vertex>, i: nat, fwd: bool, x: Segment): nat
    requires i < |v|
  {
    if Up(v, i, fwd) && SegmentAt(v, i, fwd) == x then 1 else 0
  }

  /** Among the segments that rise from the first k vertices in the direction of the pass. */
  ghost function Rising(v: seq<Vertex>, k: nat, fwd: bool, x: Segment): nat
    requires k <= |v|
  {
    if k == 0 then 0 else Rising(v, k - 1, fwd, x) + One(v, k - 1, fwd, x)
  }

  lemma TakeOut(v: seq<Vertex>, s: seq<nat>, fwd: bool, t: nat) returns (rest: seq<nat>)
    requires Places(v, s) && t < |s|
    ensures Places(v, rest) && multiset(s) == multiset(rest) + multiset{s[t]}
    ensures multiset(SegmentsAt(v, s, fwd)) == multiset(SegmentsAt(v, rest, fwd)) + multiset{SegmentAt(v, s[t], fwd)}
  {
    rest := s[..t] + s[t + 1..];
    var r, q := SegmentsAt(v, s, fwd), SegmentsAt(v, rest, fwd);
    assert s == s[..t] + ([s[t]] + s[t + 1..]);
    assert r == r[..t] + ([r[t]] + r[t + 1..]);
    assert q == r[..t] + r[t + 1..];
  }

  /** s names each place below k where the contour rises once, and nothing else. */
  ghost predicate NamesRising(v: seq<Vertex>, s: seq<nat>, k: nat, fwd: bool)
    requires k <= |v|
  {
    forall j: nat :: Times(s, j) == if j < k && Up(v, j, fwd) then 1 else 0
  }

  /** A list that names each rising place once has the rising segments. */
  lemma {:induction false} SameRising(v: seq<Vertex>, s: seq<nat>, k: nat, fwd: bool, x: Segment)
    requires k <= |v| && Places(v, s) && NamesRising(v, s, k, fwd)
    ensures multiset(SegmentsAt(v, s, fwd))[x] == Rising(v, k, fwd, x)
    decreases k
  {
    if k == 0 {
      NamesNone(v, s, fwd);
    } else if Up(v, k - 1, fwd) {
      var rest := TakeLast(v, s, k, fwd, x);
      SameRising(v, rest, k - 1, fwd, x);
    } else {
      assert NamesRising(v, s, k - 1, fwd);
      SameRising(v, s, k - 1, fwd, x);
    }
  }

  lemma NamesNone(v: seq<Vertex>, s: seq<nat>, fwd: bool)
    requires NamesRising(v, s, 0, fwd)
    ensures s == []
  {
    var i := if s != [] then s[0] else 0;
    assert Times(s, i) == 0;
  }

  lemma TakeLast(v: seq<Vertex>, s: seq<nat>, k: nat, fwd: bool, x: Segment) returns (rest: seq<nat>)
    requires 0 < k <= |v| && Places(v, s) && NamesRising(v, s, k, fwd) && Up(v, k - 1, fwd)
    ensures Places(v, rest) && NamesRising(v, rest, k - 1, fwd)
    ensures multiset(SegmentsAt(v, s, fwd))[x] == multiset(SegmentsAt(v, rest, fwd))[x] + One(v, k - 1, fwd, x)
  {
    assert Times(s, k - 1) == 1 && k - 1 in multiset(s);
    var t: nat :| t < |s| && s[t] == k - 1;
    rest := TakeOut(v, s, fwd, t);
    forall j: nat
      ensures Times(rest, j) == if j < k - 1 && Up(v, j, fwd) then 1 else 0
    {
      assert Times(s, j) == Times(rest, j) + multiset{k - 1}[j];
    }
  }

  lemma {:induction false} PassPlaces(v: seq<Vertex>, k: nat, fwd: bool)
    requires k <= |v|
    ensures Places(v, Pass(v, k, fwd))
  {
    if k > 0 {
      PassPlaces(v, k - 1, fwd);
      var chain := Chain(v, k - 1, fwd);
      forall t | 0 <= t < |chain|
        ensures chain[t] < |v|
      {
        ChainMembers(v, k - 1, fwd, chain[t]);
      }
    }
  }

  /** The segments of a whole pass. */
  lemma PassRising(v: seq<Vertex>, fwd: bool, x: Segment)
    ensures Places(v, Pass(v, |v|, fwd))
    ensures multiset(SegmentsAt(v, Pass(v, |v|, fwd), fwd))[x] == Rising(v, |v|, fwd, x)
  {
    PassPlaces(v, |v|, fwd);
    forall j: nat
      ensures Times(Pass(v, |v|, fwd), j) == if j < |v| && Up(v, j, fwd) then 1 else 0
    {
      PassComplete(v, fwd, j);
    }
    assert NamesRising(v, Pass(v, |v|, fwd), |v|, fwd);
    SameRising(v, Pass(v, |v|, fwd), |v|, fwd, x);
  }

  // ----- the edge from each vertex to the next, split into rising and falling ones

  /** The edge from i to the next vertex, upright, if it falls. */
  ghost function Fall(v: seq<Vertex>, i: nat, x: Segment): nat
    requires i < |v|
  {
    One(v, Next(i, |v|), false, x)
  }

  ghost function Falls(v: seq<Vertex>, k: nat, x: Segment): nat
    requires k <= |v|
  {
    if k == 0 then 0 else Falls(v, k - 1, x) + Fall(v, k - 1, x)
  }

  /** Collecting by upper ends instead of lower ones only shifts by one vertex, round the contour. */
  lemma {:induction false} FallsShift(v: seq<Vertex>, k: nat, x: Segment)
    requires 1 <= k <= |v|
    ensures Rising(v, k, false, x) == Fall(v, |v| - 1, x) + Falls(v, k - 1, x)
  {
    if k > 1 {
      FallsShift(v, k - 1, x);
    } else {
      assert Rising(v, 0, false, x) == 0;
    }
  }

  /** Among the first k edges, upright. */
  ghost function Edges(v: seq<Vertex>, k: nat, x: Segment): nat
    requires k <= |v|
  {
    if k == 0 then 0 else Edges(v, k - 1, x) + (One(v, k - 1, true, x) + Fall(v, k - 1, x))
  }

  lemma {:induction false} EdgesSplit(v: seq<Vertex>, k: nat, x: Segment)
    requires k <= |v|
    ensures Edges(v, k, x) == Rising(v, k, true, x) + Falls(v, k, x)
  {
    if k > 0 {
      EdgesSplit(v, k - 1, x);
    }
  }

  lemma UprightSplit(v: seq<Vertex>, i: nat, x: Segment)
    requires i < |v|
    ensures multiset(Upright(v[i], v[Next(i, |v|)]))[x] == One(v, i, true, x) + Fall(v, i, x)
  {
  }

  lemma {:induction false} OpenIsEdges(v: seq<Vertex>, k: nat, x: Segment)
    requires 1 <= k <= |v|
    ensures multiset(OpenEdges(v, k))[x] == Edges(v, k - 1, x)
  {
    if k > 1 {
      OpenIsEdges(v, k - 1, x);
      UprightSplit(v, k - 2, x);
    }
  }

  lemma SlantedIsEdges(v: seq<Vertex>, x: Segment)
    ensures multiset(SlantedEdges(v))[x] == Edges(v, |v|, x)
  {
    if v != [] {
      OpenIsEdges(v, |v|, x);
      UprightSplit(v, |v| - 1, x);
    }
  }

  /** Both passes together emit, as segments, exactly the slanted edges of the contour. */
  lemma PassesAreSlanted(v: seq<Vertex>)
    ensures Places(v, Pass(v, |v|, true)) && Places(v, Pass(v, |v|, false))
    ensures multiset(SegmentsAt(v, Pass(v, |v|, true), true)) + multiset(SegmentsAt(v, Pass(v, |v|, false), false))
         == multiset(SlantedEdges(v))
  {
    PassPlaces(v, |v|, true);
    PassPlaces(v, |v|, false);
    var fwd, rev := SegmentsAt(v, Pass(v, |v|, true), true), SegmentsAt(v, Pass(v, |v|, false), false);
    forall x
      ensures (multiset(fwd) + multiset(rev))[x] == multiset(SlantedEdges(v))[x]
    {
      SegmentCount(v, x);
    }
  }

  lemma SegmentCount(v: seq<Vertex>, x: Segment)
    requires Places(v, Pass(v, |v|, true)) && Places(v, Pass(v, |v|, false))
    ensures multiset(SegmentsAt(v, Pass(v, |v|, true), true))[x] + multiset(SegmentsAt(v, Pass(v, |v|, false), false))[x]
         == multiset(SlantedEdges(v))[x]
  {
    PassRising(v, true, x);
    PassRising(v, false, x);
    SlantedIsEdges(v, x);
    EdgesSplit(v, |v|, x);
    if v != [] {
      FallsShift(v, |v|, x);
    }
  }
}
