/** Which edges of a closed contour the two passes of the edge-table builder
    emit.  A pass looks for local minima and walks upwards from each, forwards
    or backwards round the contour. */
module ContourEdges {
  import opened Basics

  function Next(i: nat, n: nat): (r: nat)
    requires i < n
    ensures r < n
  {
    if i + 1 == n then 0 else i + 1
  }

  function Prev(i: nat, n: nat): (r: nat)
    requires i < n
    ensures r < n
  {
    if i == 0 then n - 1 else i - 1
  }

  /** The index macros compute modulo n. */
  lemma NextIsModulo(i: nat, n: nat)
    requires i < n
    ensures (i + 1) % n == Next(i, n) && (i - 1 + n) % n == Prev(i, n)
  {
    SmallMod(Next(i, n), n);
    SmallMod(Prev(i, n), n);
  }

  lemma SmallMod(x: nat, n: nat)
    requires x < n
    ensures x % n == x && (x + n) % n == x
  {
    var q := (x + n) / n;
    assert x + n == q * n + (x + n) % n;
    assert q < 1 ==> q * n <= 0;
    assert q > 1 ==> q * n >= 2 * n;
  }

  /** Not embedded in a run of vertices at one height. */
  predicate Optimal(c: seq<Vertex>, i: nat)
    requires i < |c|
  {
    c[Prev(i, |c|)].y != c[i].y || c[Next(i, |c|)].y != c[i].y
  }

  function OptimalUpTo(c: seq<Vertex>, k: nat): (r: seq<Vertex>)
    requires k <= |c|
    ensures |r| <= k
  {
    if k == 0 then []
    else
      var r := OptimalUpTo(c, k - 1);
      if Optimal(c, k - 1) then r + [c[k - 1]] else r
  }

  /** The contour the passes run over. */
  function Optimised(c: seq<Vertex>): seq<Vertex> {
    OptimalUpTo(c, |c|)
  }

  /** At the same height as the vertices before and after it. */
  ghost predicate Level(c: seq<Vertex>, i: nat)
    requires i < |c|
  {
    c[if i == 0 then |c| - 1 else i - 1].y == c[i].y == c[if i == |c| - 1 then 0 else i + 1].y
  }

  /** The vertices with a neighbour at another height. */
  ghost function Bent(c: seq<Vertex>, k: nat): set<nat>
    requires k <= |c|
  {
    set i: nat | i < k && !Level(c, i)
  }

  /** As many vertices are kept as have a neighbour at another height. */
  lemma {:induction false} OptimisedSize(c: seq<Vertex>, k: nat)
    requires k <= |c|
    ensures |OptimalUpTo(c, k)| == |Bent(c, k)|
  {
    if k > 0 {
      OptimisedSize(c, k - 1);
      assert Bent(c, k) == Bent(c, k - 1) + if Optimal(c, k - 1) then {k - 1} else {};
    }
  }

  /** Each of them is kept, in its place. */
  lemma {:induction false} OptimisedAt(c: seq<Vertex>, k: nat, i: nat)
    requires i < k <= |c| && i in Bent(c, k)
    ensures |Bent(c, i)| < |OptimalUpTo(c, k)| && OptimalUpTo(c, k)[|Bent(c, i)|] == c[i]
  {
    OptimisedSize(c, i);
    if i < k - 1 {
      OptimisedAt(c, k - 1, i);
    }
  }

  /** One step round the contour in the direction of the pass. */
  function Step(i: nat, n: nat, fwd: bool): (r: nat)
    requires i < n
    ensures r < n
  {
    if fwd then Next(i, n) else Prev(i, n)
  }

  /** The edge from i in the direction of the pass goes up: i is not a maximum. */
  predicate Up(v: seq<Vertex>, i: nat, fwd: bool)
    requires i < |v|
  {
    v[Step(i, |v|, fwd)].y > v[i].y
  }

  predicate IsMin(v: seq<Vertex>, i: nat, fwd: bool)
    requires i < |v|
  {
    var p, n := v[Prev(i, |v|)].y, v[Next(i, |v|)].y;
    if fwd then p >= v[i].y && n > v[i].y else p > v[i].y && n >= v[i].y
  }

  lemma MinMeansStart(v: seq<Vertex>, i: nat, fwd: bool)
    requires i < |v|
    ensures IsMin(v, i, fwd) <==> Up(v, i, fwd) && !Up(v, Step(i, |v|, !fwd), fwd)
  {
  }

  ghost function Above(v: seq<Vertex>, y: real): set<nat> {
    set j: nat | j < |v| && v[j].y > y
  }

  ghost function Below(v: seq<Vertex>, y: real): set<nat> {
    set j: nat | j < |v| && v[j].y < y
  }

  /** Climbing leaves fewer vertices above, and more below. */
  lemma Climb(v: seq<Vertex>, i: nat, j: nat)
    requires i < |v| && j < |v| && v[i].y < v[j].y
    ensures |Above(v, v[j].y)| < |Above(v, v[i].y)|
    ensures |Below(v, v[i].y)| < |Below(v, v[j].y)|
  {
    assert j in Above(v, v[i].y) && j !in Above(v, v[j].y);
    SubsetSize(Above(v, v[j].y), Above(v, v[i].y), j);
    assert i in Below(v, v[j].y) && i !in Below(v, v[i].y);
    SubsetSize(Below(v, v[i].y), Below(v, v[j].y), i);
  }

  lemma SubsetSize(a: set<nat>, b: set<nat>, x: nat)
    requires a <= b && x in b && x !in a
    ensures |a| < |b|
  {
    var rest := b - a;
    assert b == a + rest && x in rest;
  }

  /** How often i occurs in s. */
  ghost function Times(s: seq<nat>, i: nat): nat {
    multiset(s)[i]
  }

  /** Start vertices of the edges met when climbing from i. */
  ghost function Chain(v: seq<Vertex>, i: nat, fwd: bool): seq<nat>
    requires i < |v|
    decreases |Above(v, v[i].y)|
  {
    if Up(v, i, fwd) then
      Climb(v, i, Step(i, |v|, fwd));
      [i] + Chain(v, Step(i, |v|, fwd), fwd)
    else []
  }

  /** Start vertices of the edges a pass has emitted after looking at vertices 0 to k. */
  ghost function Pass(v: seq<Vertex>, k: nat, fwd: bool): seq<nat>
    requires k <= |v|
  {
    if k == 0 then []
    else
      var r := Pass(v, k - 1, fwd);
      if IsMin(v, k - 1, fwd) then r + Chain(v, k - 1, fwd) else r
  }

  /** The minimum one arrives at from i by going back down. */
  ghost function Source(v: seq<Vertex>, i: nat, fwd: bool): (m: nat)
    requires i < |v|
    ensures m < |v|
    decreases |Below(v, v[i].y)|
  {
    var p := Step(i, |v|, !fwd);
    if Up(v, p, fwd) then
      Climb(v, p, i);
      Source(v, p, fwd)
    else i
  }

  lemma {:induction false} ChainMembers(v: seq<Vertex>, i: nat, fwd: bool, j: nat)
    requires i < |v| && j in Chain(v, i, fwd)
    ensures j < |v| && Up(v, j, fwd) && v[i].y <= v[j].y && Source(v, j, fwd) == Source(v, i, fwd)
    decreases |Above(v, v[i].y)|
  {
    if j != i {
      var s := Step(i, |v|, fwd);
      Climb(v, i, s);
      ChainMembers(v, s, fwd, j);
    }
  }

  lemma {:induction false} ChainDistinct(v: seq<Vertex>, i: nat, fwd: bool, j: nat)
    requires i < |v|
    ensures Times(Chain(v, i, fwd), j) == if j in Chain(v, i, fwd) then 1 else 0
    decreases |Above(v, v[i].y)|
  {
    if Up(v, i, fwd) {
      var s := Step(i, |v|, fwd);
      Climb(v, i, s);
      ChainDistinct(v, s, fwd, j);
      if i in Chain(v, s, fwd) { ChainMembers(v, s, fwd, i); }
    }
  }

  lemma {:induction false} ChainGoesOn(v: seq<Vertex>, i: nat, fwd: bool, j: nat)
    requires i < |v| && j in Chain(v, i, fwd)
    ensures j < |v| && (Up(v, Step(j, |v|, fwd), fwd) ==> Step(j, |v|, fwd) in Chain(v, i, fwd))
    decreases |Above(v, v[i].y)|
  {
    ChainMembers(v, i, fwd, j);
    var s := Step(i, |v|, fwd);
    Climb(v, i, s);
    if j != i {
      ChainGoesOn(v, s, fwd, j);
    }
  }

  lemma {:induction false} SourceReaches(v: seq<Vertex>, j: nat, fwd: bool)
    requires j < |v| && Up(v, j, fwd)
    ensures IsMin(v, Source(v, j, fwd), fwd) && j in Chain(v, Source(v, j, fwd), fwd)
    decreases |Below(v, v[j].y)|
  {
    var p := Step(j, |v|, !fwd);
    MinMeansStart(v, j, fwd);
    if Up(v, p, fwd) {
      Climb(v, p, j);
      SourceReaches(v, p, fwd);
      ChainGoesOn(v, Source(v, p, fwd), fwd, p);
    }
  }

  lemma SourceOfMin(v: seq<Vertex>, m: nat, fwd: bool)
    requires m < |v| && IsMin(v, m, fwd)
    ensures Source(v, m, fwd) == m
  {
    MinMeansStart(v, m, fwd);
  }

  /** After k vertices a pass has emitted, once each, the upward edges whose run starts before k. */
  lemma {:induction false} PassCounts(v: seq<Vertex>, k: nat, fwd: bool, j: nat)
    requires k <= |v|
    ensures Times(Pass(v, k, fwd), j) == if j < |v| && Up(v, j, fwd) && Source(v, j, fwd) < k then 1 else 0
  {
    if k > 0 {
      var m := k - 1;
      PassCounts(v, m, fwd, j);
      if IsMin(v, m, fwd) {
        ChainDistinct(v, m, fwd, j);
        SourceOfMin(v, m, fwd);
        if j in Chain(v, m, fwd) { ChainMembers(v, m, fwd, j); }
      }
      if j < |v| && Up(v, j, fwd) { SourceReaches(v, j, fwd); }
    }
  }

  /** A pass emits every edge that goes up in its direction exactly once, and no other. */
  lemma PassComplete(v: seq<Vertex>, fwd: bool, j: nat)
    ensures Times(Pass(v, |v|, fwd), j) == if j < |v| && Up(v, j, fwd) then 1 else 0
  {
    PassCounts(v, |v|, fwd, j);
  }

  /** How often the two passes together emit the edge between vertices i and i+1. */
  ghost function EdgeCount(v: seq<Vertex>, i: nat): nat
    requires i < |v|
  {
    Times(Pass(v, |v|, true), i) + Times(Pass(v, |v|, false), Next(i, |v|))
  }

  /** Every edge of the contour that is not horizontal is emitted exactly once, a horizontal one never. */
  lemma EdgesOnce(v: seq<Vertex>, i: nat)
    requires i < |v|
    ensures EdgeCount(v, i) == if v[i].y != v[Next(i, |v|)].y then 1 else 0
  {
    PassComplete(v, true, i);
    PassComplete(v, false, Next(i, |v|));
  }

  lemma {:induction false} CountBound(s: seq<nat>, ups: set<nat>)
    requires forall j: nat :: Times(s, j) == if j in ups then 1 else 0
    ensures |s| == |ups|
    decreases |s|
  {
    if s == [] {
      assert forall j: nat :: j !in ups by {
        forall j: nat ensures j !in ups { assert Times(s, j) == 0; }
      }
      assert ups == {};
    } else {
      var x, rest := s[0], s[1..];
      assert s == [x] + rest;
      assert Times(s, x) > 0;
      forall j: nat
        ensures Times(rest, j) == if j in ups - {x} then 1 else 0
      {
        assert Times(s, j) == Times(rest, j) + if j == x then 1 else 0;
      }
      CountBound(rest, ups - {x});
    }
  }

  function Range(n: nat): (r: set<nat>)
    ensures |r| == n && forall j: nat :: j in r <==> j < n
  {
    if n == 0 then {} else Range(n - 1) + {n - 1}
  }

  ghost function Ups(v: seq<Vertex>, fwd: bool): set<nat> {
    set j: nat | j < |v| && Up(v, j, fwd)
  }

  lemma PassSize(v: seq<Vertex>, fwd: bool)
    ensures |Pass(v, |v|, fwd)| == |Ups(v, fwd)|
  {
    forall j: nat
      ensures Times(Pass(v, |v|, fwd), j) == if j in Ups(v, fwd) then 1 else 0
    {
      PassComplete(v, fwd, j);
    }
    CountBound(Pass(v, |v|, fwd), Ups(v, fwd));
  }

  lemma DisjointFit(a: set<nat>, b: set<nat>, n: nat)
    requires a !! b && forall j :: j in a + b ==> j < n
    ensures |a| + |b| <= n
  {
    assert |a + b| == |a| + |b|;
    assert Range(n) == (a + b) + (Range(n) - (a + b));
  }

  /** The two passes need no more room than the contour has vertices. */
  lemma PassesFit(v: seq<Vertex>)
    ensures |Pass(v, |v|, true)| + |Pass(v, |v|, false)| <= |v|
  {
    var n := |v|;
    PassSize(v, true);
    PassSize(v, false);
    var fallen := set j: nat | j < n && Up(v, Next(j, n), false);
    ShiftSize(v, Ups(v, false), fallen);
    DisjointFit(Ups(v, true), fallen, n);
  }

  /** Naming downward edges by their other end does not change how many there are. */
  lemma {:induction false} ShiftSize(v: seq<Vertex>, downs: set<nat>, fallen: set<nat>)
    requires forall j: nat :: j in downs ==> j < |v|
    requires forall j: nat :: j in fallen <==> j < |v| && Next(j, |v|) in downs
    ensures |downs| == |fallen|
    decreases |downs|
  {
    if downs == {} {
      assert fallen == {};
    } else {
      var d :| d in downs;
      var p := Prev(d, |v|);
      ShiftSize(v, downs - {d}, fallen - {p});
    }
  }

  // ----- leaving out the inner vertices of horizontal runs keeps every slanted edge

  datatype Segment = Segment(bot: Vertex, top: Vertex)

  /** The segment from a to b the right way up, if it is not horizontal. */
  ghost function Upright(a: Vertex, b: Vertex): seq<Segment> {
    if a.y < b.y then [Segment(a, b)] else if b.y < a.y then [Segment(b, a)] else []
  }

  /** The slanted edges between neighbours among the first k vertices. */
  ghost function OpenEdges(c: seq<Vertex>, k: nat): seq<Segment>
    requires k <= |c|
  {
    if k < 2 then [] else OpenEdges(c, k - 1) + Upright(c[k - 2], c[k - 1])
  }

  /** The slanted edges of a closed contour. */
  ghost function SlantedEdges(c: seq<Vertex>): seq<Segment> {
    if c == [] then [] else OpenEdges(c, |c|) + Upright(c[|c|-1], c[0])
  }

  lemma {:induction false} OpenRises(c: seq<Vertex>, k: nat, s: Segment)
    requires k <= |c| && s in OpenEdges(c, k)
    ensures s.bot.y < s.top.y
  {
    if s in OpenEdges(c, k - 1) { OpenRises(c, k - 1, s); }
  }

  lemma SlantedRises(c: seq<Vertex>, s: Segment)
    requires s in SlantedEdges(c)
    ensures s.bot.y < s.top.y
  {
    if s in OpenEdges(c, |c|) { OpenRises(c, |c|, s); }
  }

  lemma {:induction false} OpenSame(c: seq<Vertex>, d: seq<Vertex>, k: nat)
    requires k <= |c| && k <= |d| && forall i :: 0 <= i < k ==> c[i] == d[i]
    ensures OpenEdges(c, k) == OpenEdges(d, k)
  {
    if k >= 2 { OpenSame(c, d, k - 1); }
  }

  lemma OpenAppend(s: seq<Vertex>, x: Vertex)
    ensures OpenEdges(s + [x], |s| + 1) == if s == [] then [] else OpenEdges(s, |s|) + Upright(s[|s|-1], x)
  {
    OpenSame(s, s + [x], |s|);
  }

  /** What is known about the kept vertices r of the first k vertices of c. */
  ghost predicate KeptSoFar(c: seq<Vertex>, k: nat, r: seq<Vertex>)
    requires 0 < k <= |c|
  {
    && OpenEdges(r, |r|) == OpenEdges(c, k)
    && (r == [] ==> c[k-1].y == c[0].y && !Optimal(c, 0))
    && (r != [] ==> r[|r|-1].y == c[k-1].y && r[0].y == c[0].y && (Optimal(c, 0) ==> r[0] == c[0]))
    && (Optimal(c, k - 1) ==> r != [] && r[|r|-1] == c[k-1])
  }

  lemma {:induction false} OptimisedOpen(c: seq<Vertex>, k: nat)
    requires 0 < k <= |c|
    ensures KeptSoFar(c, k, OptimalUpTo(c, k))
  {
    if k == 1 {
      assert OptimalUpTo(c, 0) == [];
    } else {
      OptimisedOpen(c, k - 1);
      OptimisedStep(c, k - 1, OptimalUpTo(c, k - 1));
    }
  }

  lemma OptimisedStep(c: seq<Vertex>, k: nat, q: seq<Vertex>)
    requires 0 < k < |c| && KeptSoFar(c, k, q)
    ensures KeptSoFar(c, k + 1, if Optimal(c, k) then q + [c[k]] else q)
  {
    if Optimal(c, k) {
      OpenAppend(q, c[k]);
    }
  }

  /** Contour optimisation keeps the slanted edges, in order. */
  lemma OptimisedEdges(c: seq<Vertex>)
    ensures SlantedEdges(Optimised(c)) == SlantedEdges(c)
  {
    if c != [] {
      OptimisedOpen(c, |c|);
    }
  }
}
