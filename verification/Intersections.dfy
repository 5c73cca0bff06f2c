/** The intersection table of a scanbeam: edges taken in order of their bottom x
    are insertion-sorted by their top x, and each exchange the sort makes is
    recorded as a crossing. */
module Intersections {

  const DBL_EPSILON: real := 0.0

  /** An active edge; `id` is its place in the active edge table. */
  datatype Edge = Edge(id: nat, xb: real, xt: real, dx: real, bundleHead: bool, bundleClip: bool, bundleSubj: bool)

  datatype Crossing = Crossing(e0: Edge, e1: Edge, x: real, y: real)

  /** The intersection table and the sorted edge table, largest top x first. */
  datatype Tables = Tables(it: seq<Crossing>, st: seq<Edge>)

  function Abs(x: real): real {
    if x < 0.0 then -x else x
  }

  function Den(s: Edge, e: Edge): real {
    (s.xt - s.xb) - (e.xt - e.xb)
  }

  predicate NoCrossing(s: Edge, e: Edge) {
    e.xt >= s.xt || e.dx == s.dx || Abs(Den(s, e)) <= DBL_EPSILON
  }

  function CrossingOf(s: Edge, e: Edge, dy: real): Crossing
    requires !NoCrossing(s, e)
  {
    var r := (e.xb - s.xb) / Den(s, e);
    Crossing(s, e, s.xb + r * (s.xt - s.xb), r * dy)
  }

  /** Contributes to the scanbeam: bundled above. */
  predicate Contributes(e: Edge) {
    e.bundleHead || e.bundleClip || e.bundleSubj
  }

  // ----- the tables as functions

  function InsertAt(it: seq<Crossing>, k: nat, n: Crossing): (r: seq<Crossing>)
    requires k <= |it|
    decreases |it| - k
  {
    if k == |it| || it[k].y > n.y then it[..k] + [n] + it[k..]
    else InsertAt(it, k + 1, n)
  }

  /** Node n is put at place m, behind the nodes from k on that are not above it and before the first one that is. */
  ghost predicate GoesTo(was: seq<Crossing>, now: seq<Crossing>, k: nat, m: int, n: Crossing) {
    && k <= m <= |was| && now == was[..m] + [n] + was[m..]
    && (forall i :: k <= i < m ==> was[i].y <= n.y) && (m < |was| ==> n.y < was[m].y)
  }

  function AddEdge(t: Tables, k: nat, e: Edge, dy: real): Tables
    requires k <= |t.st|
    decreases |t.st| - k
  {
    if k == |t.st| || NoCrossing(t.st[k], e) then t.(st := t.st[..k] + [e] + t.st[k..])
    else AddEdge(t.(it := InsertAt(t.it, 0, CrossingOf(t.st[k], e, dy))), k + 1, e, dy)
  }

  function Build(edges: seq<Edge>, dy: real): Tables {
    if edges == [] then Tables([], [])
    else
      var t, e := Build(edges[..|edges|-1], dy), edges[|edges|-1];
      if Contributes(e) then AddEdge(t, 0, e, dy) else t
  }

  function Contributing(edges: seq<Edge>): seq<Edge> {
    if edges == [] then []
    else
      var c, e := Contributing(edges[..|edges|-1]), edges[|edges|-1];
      if Contributes(e) then c + [e] else c
  }

  /** The two tables a scanbeam works on. */
  class IntersectionTable {
    var it: seq<Crossing>
    var st: seq<Edge>

    constructor ()
      ensures it == [] && st == []
    {
      it, st := [], [];
    }

    method AddIntersection(k: nat, edge0: Edge, edge1: Edge, x: real, y: real)
      requires k <= |it|
      modifies `it
      ensures it == InsertAt(old(it), k, Crossing(edge0, edge1, x, y))
      ensures exists m :: GoesTo(old(it), it, k, m, Crossing(edge0, edge1, x, y))
      decreases |it| - k
    {
      ghost var n := Crossing(edge0, edge1, x, y);
      if k == |it| {
        it := it + [Crossing(edge0, edge1, x, y)];
        assert GoesTo(old(it), it, k, k, n);
      } else if it[k].y > y {
        it := it[..k] + [Crossing(edge0, edge1, x, y)] + it[k..];
        assert GoesTo(old(it), it, k, k, n);
      } else {
        AddIntersection(k + 1, edge0, edge1, x, y);
        ghost var m :| GoesTo(old(it), it, k + 1, m, n);
        assert GoesTo(old(it), it, k, m, n);
      }
    }

    method AddStEdge(k: nat, edge: Edge, dy: real)
      requires k <= |st|
      modifies this
      ensures Tables(it, st) == AddEdge(Tables(old(it), old(st)), k, edge, dy)
      decreases |st| - k
    {
      if k == |st| {
        st := st + [edge];
        assert st == old(st[..k] + [edge] + st[k..]);
      } else {
        var den := Den(st[k], edge);
        if edge.xt >= st[k].xt || edge.dx == st[k].dx || Abs(den) <= DBL_EPSILON {
          st := st[..k] + [edge] + st[k..];
        } else {
          var r := (edge.xb - st[k].xb) / den;
          var x := st[k].xb + r * (st[k].xt - st[k].xb);
          var y := r * dy;
          ghost var n := CrossingOf(st[k], edge, dy);
          assert n == Crossing(st[k], edge, x, y);
          AddIntersection(0, st[k], edge, x, y);
          AddStEdge(k + 1, edge, dy);
        }
      }
    }

    method BuildIntersectionTable(aet: seq<Edge>, dy: real)
      modifies this
      ensures it == Build(aet, dy).it
      ensures Beam(aet, dy) ==> TableOk(it, dy) && forall p :: Pairs(it)[p] == if Exchanged(aet, p) then 1 else 0
      ensures st == []
    {
      it, st := [], [];
      for i := 0 to |aet|
        invariant Tables(it, st) == Build(aet[..i], dy)
      {
        assert aet[..i + 1][..i] == aet[..i];
        if aet[i].bundleHead || aet[i].bundleClip || aet[i].bundleSubj {
          AddStEdge(0, aet[i], dy);
        }
      }
      assert aet[..|aet|] == aet;
      st := [];
      if Beam(aet, dy) {
        BuildSpec(aet, dy);
        AllExchanged(aet, dy);
      }
    }
  }

  // ----- what the tables hold

  /** Edges of one scanbeam of height dy, in order of bottom x; dx is the slope of the segment. */
  ghost predicate Beam(edges: seq<Edge>, dy: real) {
    && dy > 0.0
    && (forall i :: 0 <= i < |edges| ==> edges[i].xt - edges[i].xb == edges[i].dx * dy)
    && (forall i, j :: 0 <= i < j < |edges| ==> edges[i].id < edges[j].id && edges[i].xb <= edges[j].xb)
  }

  ghost predicate SortedByY(it: seq<Crossing>) {
    forall i, j :: 0 <= i < j < |it| ==> it[i].y <= it[j].y
  }

  /** The point of n is on both of its edges, inside the beam. */
  ghost predicate OnBoth(n: Crossing, dy: real) {
    && 0.0 <= n.y < dy
    && n.x == n.e0.xb + n.e0.dx * n.y
    && n.x == n.e1.xb + n.e1.dx * n.y
  }

  ghost predicate TableOk(it: seq<Crossing>, dy: real) {
    SortedByY(it) && forall i :: 0 <= i < |it| ==> OnBoth(it[i], dy)
  }

  /** Every edge of st comes before e in the active edge table and starts no further right. */
  ghost predicate Before(st: seq<Edge>, e: Edge, dy: real) {
    && dy > 0.0 && e.xt - e.xb == e.dx * dy
    && forall i :: 0 <= i < |st| ==> st[i].xt - st[i].xb == st[i].dx * dy && st[i].xb <= e.xb && st[i].id < e.id
  }

  function PairOf(n: Crossing): (nat, nat) {
    (n.e0.id, n.e1.id)
  }

  ghost function Pairs(it: seq<Crossing>): multiset<(nat, nat)> {
    multiset(seq(|it|, i requires 0 <= i < |it| => PairOf(it[i])))
  }

  /** The pair p names two edges whose order at the top is inverted. */
  ghost predicate Inverted(edges: seq<Edge>, p: (nat, nat)) {
    exists i, j :: 0 <= i < j < |edges| && edges[i].id == p.0 && edges[j].id == p.1 && edges[j].xt < edges[i].xt
  }

  /** Decreasing top x, ties by decreasing place: read backwards, the stable sort by top x. */
  ghost predicate SortedByTop(st: seq<Edge>) {
    forall a, b :: 0 <= a < b < |st| ==> st[b].xt < st[a].xt || (st[b].xt == st[a].xt && st[b].id < st[a].id)
  }

  lemma PairsInsert(it: seq<Crossing>, k: nat, n: Crossing)
    requires k <= |it|
    ensures Pairs(it[..k] + [n] + it[k..]) == Pairs(it) + multiset{PairOf(n)}
  {
    var r := it[..k] + [n] + it[k..];
    var s := seq(|it|, i requires 0 <= i < |it| => PairOf(it[i]));
    assert seq(|r|, i requires 0 <= i < |r| => PairOf(r[i])) == s[..k] + [PairOf(n)] + s[k..];
    assert s == s[..k] + s[k..];
  }

  lemma {:induction false} InsertAtSpec(it: seq<Crossing>, k: nat, n: Crossing, dy: real)
    requires k <= |it| && TableOk(it, dy) && OnBoth(n, dy)
    requires forall i :: 0 <= i < k ==> it[i].y <= n.y
    ensures TableOk(InsertAt(it, k, n), dy)
    ensures Pairs(InsertAt(it, k, n)) == Pairs(it) + multiset{PairOf(n)}
    decreases |it| - k
  {
    if k == |it| || it[k].y > n.y {
      PairsInsert(it, k, n);
    } else {
      InsertAtSpec(it, k + 1, n, dy);
    }
  }

  lemma BelowOne(a: real, b: real)
    requires 0.0 <= a < b
    ensures 0.0 <= a / b < 1.0
  {
    var r := a / b;
    assert r * b == a;
    if r >= 1.0 {
      AtLeast(r, b);
    }
  }

  lemma AtLeast(r: real, b: real)
    requires r >= 1.0 && b > 0.0
    ensures r * b >= b && (r > 1.0 ==> r * b > b)
  {
    var d := r - 1.0;
    assert d * b >= 0.0 && (d > 0.0 ==> d * b > 0.0);
    assert r * b == d * b + b;
  }

  /** The recorded point is where the two lines meet. */
  lemma CrossingMeets(s: Edge, e: Edge, dy: real)
    requires dy > 0.0 && s.xt - s.xb == s.dx * dy && e.xt - e.xb == e.dx * dy
    requires s.xb <= e.xb && e.xt < s.xt
    ensures !NoCrossing(s, e) && OnBoth(CrossingOf(s, e, dy), dy)
  {
    var den := Den(s, e);
    assert den == (s.dx - e.dx) * dy;
    assert den > 0.0;
    var r := (e.xb - s.xb) / den;
    assert r * den == e.xb - s.xb;
    assert e.xb - s.xb < den;
    BelowOne(e.xb - s.xb, den);
    assert r * (s.xt - s.xb) == s.dx * (r * dy);
    assert r * (e.xt - e.xb) == e.dx * (r * dy);
    assert r * (s.xt - s.xb) - r * (e.xt - e.xb) == r * den;
  }

  /** 1 if p pairs an edge from place k on, further right at the top than e, with e; else 0. */
  ghost function NewPair(st: seq<Edge>, k: nat, e: Edge, p: (nat, nat)): nat {
    if p.1 == e.id && exists i :: k <= i < |st| && st[i].id == p.0 && e.xt < st[i].xt then 1 else 0
  }

  ghost predicate DistinctIds(st: seq<Edge>) {
    forall i, j :: 0 <= i < j < |st| ==> st[i].id != st[j].id
  }

  lemma NewPairStep(st: seq<Edge>, k: nat, e: Edge, p: (nat, nat))
    requires k < |st| && e.xt < st[k].xt && DistinctIds(st)
    ensures multiset{(st[k].id, e.id)}[p] + NewPair(st, k + 1, e, p) == NewPair(st, k, e, p)
  {
    if NewPair(st, k, e, p) == 1 {
      var i :| k <= i < |st| && st[i].id == p.0 && e.xt < st[i].xt;
      assert i != k ==> NewPair(st, k + 1, e, p) == 1;
    }
  }

  lemma InsertedOnce(st: seq<Edge>, k: nat, e: Edge)
    requires k <= |st|
    ensures multiset(st[..k] + [e] + st[k..]) == multiset(st) + multiset{e}
  {
    assert st == st[..k] + st[k..];
  }

  lemma PlaceEdge(st: seq<Edge>, k: nat, e: Edge)
    requires k <= |st| && SortedByTop(st)
    requires forall i :: 0 <= i < |st| ==> st[i].id < e.id
    requires forall i :: 0 <= i < k ==> e.xt < st[i].xt
    requires k < |st| ==> st[k].xt <= e.xt
    ensures SortedByTop(st[..k] + [e] + st[k..])
    ensures DistinctIds(st) ==> DistinctIds(st[..k] + [e] + st[k..])
    ensures multiset(st[..k] + [e] + st[k..]) == multiset(st) + multiset{e}
  {
    InsertedOnce(st, k, e);
    if DistinctIds(st) { PlaceDistinct(st, k, e); }
    forall i | k <= i < |st|
      ensures st[i].xt <= e.xt
    {
    }
  }

  lemma PlaceDistinct(st: seq<Edge>, k: nat, e: Edge)
    requires k <= |st| && DistinctIds(st)
    requires forall i :: 0 <= i < |st| ==> st[i].id < e.id
    ensures DistinctIds(st[..k] + [e] + st[k..])
  {
  }

  ghost predicate Adds(before: seq<Crossing>, after: seq<Crossing>, st: seq<Edge>, k: nat, e: Edge) {
    forall p :: Pairs(after)[p] == Pairs(before)[p] + NewPair(st, k, e, p)
  }

  lemma AddsStep(a: seq<Crossing>, b: seq<Crossing>, c: seq<Crossing>, st: seq<Edge>, k: nat, e: Edge)
    requires k < |st| && e.xt < st[k].xt && DistinctIds(st)
    requires Pairs(b) == Pairs(a) + multiset{(st[k].id, e.id)}
    requires Adds(b, c, st, k + 1, e)
    ensures Adds(a, c, st, k, e)
  {
    forall p
      ensures Pairs(c)[p] == Pairs(a)[p] + NewPair(st, k, e, p)
    {
      NewPairStep(st, k, e, p);
    }
  }

  /** Passing an edge that ends up further right records where the two meet. */
  lemma PassEdge(t: Tables, k: nat, e: Edge, dy: real) returns (n: Crossing, passed: Tables)
    requires k < |t.st| && Before(t.st, e, dy) && e.xt < t.st[k].xt
    ensures OnBoth(n, dy) && n.e0 == t.st[k] && n.e1 == e
    ensures passed == t.(it := InsertAt(t.it, 0, n)) && AddEdge(t, k, e, dy) == AddEdge(passed, k + 1, e, dy)
  {
    CrossingMeets(t.st[k], e, dy);
    n := CrossingOf(t.st[k], e, dy);
    passed := t.(it := InsertAt(t.it, 0, n));
  }

  /** An edge added to a table of edges that start no further right goes to its place by top x. */
  lemma {:induction false} AddEdgePlaces(t: Tables, k: nat, e: Edge, dy: real) returns (st: seq<Edge>)
    requires k <= |t.st| && Before(t.st, e, dy) && SortedByTop(t.st) && DistinctIds(t.st)
    requires forall i :: 0 <= i < k ==> e.xt < t.st[i].xt
    ensures st == AddEdge(t, k, e, dy).st
    ensures SortedByTop(st) && DistinctIds(st) && multiset(st) == multiset(t.st) + multiset{e}
    decreases |t.st| - k
  {
    if k < |t.st| && e.xt < t.st[k].xt {
      var n, passed := PassEdge(t, k, e, dy);
      st := AddEdgePlaces(passed, k + 1, e, dy);
    } else {
      st := t.st[..k] + [e] + t.st[k..];
      PlaceEdge(t.st, k, e);
    }
  }

  /** It crosses exactly the edges that end up to its right there. */
  lemma {:induction false} AddEdgeCrosses(t: Tables, k: nat, e: Edge, dy: real)
    requires k <= |t.st| && Before(t.st, e, dy)
    requires SortedByTop(t.st) && DistinctIds(t.st) && TableOk(t.it, dy)
    ensures TableOk(AddEdge(t, k, e, dy).it, dy) && Adds(t.it, AddEdge(t, k, e, dy).it, t.st, k, e)
    decreases |t.st| - k
  {
    if k < |t.st| && e.xt < t.st[k].xt {
      var n, passed := PassEdge(t, k, e, dy);
      InsertAtSpec(t.it, 0, n, dy);
      AddEdgeCrosses(passed, k + 1, e, dy);
      AddsStep(t.it, passed.it, AddEdge(passed, k + 1, e, dy).it, t.st, k, e);
    }
  }

  lemma AddEdgeSpec(t: Tables, e: Edge, dy: real)
    requires Before(t.st, e, dy) && SortedByTop(t.st) && DistinctIds(t.st) && TableOk(t.it, dy)
    ensures var r := AddEdge(t, 0, e, dy);
            && SortedByTop(r.st) && DistinctIds(r.st) && multiset(r.st) == multiset(t.st) + multiset{e}
            && TableOk(r.it, dy) && Adds(t.it, r.it, t.st, 0, e)
  {
    var st := AddEdgePlaces(t, 0, e, dy);
    AddEdgeCrosses(t, 0, e, dy);
  }

  // ----- the whole scanbeam

  lemma BeamGrows(c: seq<Edge>, e: Edge, dy: real)
    requires Beam(c, dy) && Before(c, e, dy)
    ensures Beam(c + [e], dy)
  {
  }

  /** The contributing edges of a beam form a beam. */
  lemma {:induction false} ContributingBeam(edges: seq<Edge>, dy: real)
    requires Beam(edges, dy)
    ensures Beam(Contributing(edges), dy)
    ensures forall x :: x in Contributing(edges) ==> x in edges
  {
    if edges != [] {
      var front, e := edges[..|edges|-1], edges[|edges|-1];
      ContributingBeam(front, dy);
      LastOfBeam(edges, Contributing(front), dy);
      if Contributes(e) { BeamGrows(Contributing(front), e, dy); }
    }
  }

  /** Edges taken from the front of a beam come before its last edge. */
  lemma LastOfBeam(edges: seq<Edge>, st: seq<Edge>, dy: real)
    requires Beam(edges, dy) && edges != []
    requires forall x :: x in st ==> x in edges[..|edges|-1]
    ensures Before(st, edges[|edges|-1], dy)
  {
    forall i | 0 <= i < |st|
      ensures st[i].xt - st[i].xb == st[i].dx * dy && st[i].xb <= edges[|edges|-1].xb && st[i].id < edges[|edges|-1].id
    {
      assert st[i] in st;
    }
  }

  lemma InvertedStep(front: seq<Edge>, e: Edge, st: seq<Edge>, p: (nat, nat))
    requires forall i :: 0 <= i < |front| ==> front[i].id < e.id
    requires multiset(st) == multiset(front)
    ensures (if Inverted(front + [e], p) then 1 else 0) == (if Inverted(front, p) then 1 else 0) + NewPair(st, 0, e, p)
  {
    var all := front + [e];
    forall x
      ensures x in st <==> x in front
    {
      assert x in st <==> x in multiset(st);
      assert x in front <==> x in multiset(front);
    }
    if Inverted(front, p) {
      var i, j :| 0 <= i < j < |front| && front[i].id == p.0 && front[j].id == p.1 && front[j].xt < front[i].xt;
      assert all[i] == front[i] && all[j] == front[j];
    }
    if NewPair(st, 0, e, p) == 1 {
      var i :| 0 <= i < |st| && st[i].id == p.0 && e.xt < st[i].xt;
      assert st[i] in front;
      var j :| 0 <= j < |front| && front[j] == st[i];
      assert all[j] == front[j] && all[|front|] == e;
    }
    if Inverted(all, p) && !Inverted(front, p) {
      var i, j :| 0 <= i < j < |all| && all[i].id == p.0 && all[j].id == p.1 && all[j].xt < all[i].xt;
      assert j == |front|;
      assert front[i] in st;
    }
  }

  /** The table is sorted by y with every point on both of its edges and inside the beam; each pair of edges
      whose order at the top is inverted has one node, and no other pair has any; and the sorted edge table is
      the edges by decreasing top x, later edges first among equals. */
  ghost predicate Records(t: Tables, c: seq<Edge>, dy: real) {
    && TableOk(t.it, dy)
    && (forall p :: Pairs(t.it)[p] == if Inverted(c, p) then 1 else 0)
    && SortedByTop(t.st) && DistinctIds(t.st) && multiset(t.st) == multiset(c)
  }

  /** Insertion by top x over edges in order of bottom x finds exactly the crossings of the scanbeam. */
  lemma {:induction false} BuildSpec(edges: seq<Edge>, dy: real)
    requires Beam(edges, dy)
    ensures Records(Build(edges, dy), Contributing(edges), dy)
  {
    if edges != [] {
      var front, e := edges[..|edges|-1], edges[|edges|-1];
      BuildSpec(front, dy);
      if Contributes(e) {
        TableBefore(edges, Build(front, dy).st, dy);
        AppendSpec(Build(front, dy), Contributing(front), e, dy);
      }
    }
  }

  /** The sorted edge table comes before the last edge. */
  lemma TableBefore(edges: seq<Edge>, st: seq<Edge>, dy: real)
    requires Beam(edges, dy) && edges != [] && multiset(st) == multiset(Contributing(edges[..|edges|-1]))
    ensures Before(st, edges[|edges|-1], dy) && Before(Contributing(edges[..|edges|-1]), edges[|edges|-1], dy)
  {
    var c := Contributing(edges[..|edges|-1]);
    ContributingBeam(edges[..|edges|-1], dy);
    forall x | x in st
      ensures x in c
    {
      assert x in multiset(st) && x in multiset(c);
    }
    LastOfBeam(edges, st, dy);
    LastOfBeam(edges, c, dy);
  }

  lemma AppendSpec(t: Tables, c: seq<Edge>, e: Edge, dy: real)
    requires Records(t, c, dy) && Before(t.st, e, dy) && Before(c, e, dy)
    ensures Records(AddEdge(t, 0, e, dy), c + [e], dy)
  {
    AddEdgeSpec(t, e, dy);
    forall p
      ensures Pairs(AddEdge(t, 0, e, dy).it)[p] == if Inverted(c + [e], p) then 1 else 0
    {
      InvertedStep(c, e, t.st, p);
    }
  }

  /** Edges that are bundled above and whose order at the top is inverted. */
  ghost predicate Exchanged(edges: seq<Edge>, p: (nat, nat)) {
    exists i, j :: 0 <= i < j < |edges| && edges[i].id == p.0 && edges[j].id == p.1 && edges[j].xt < edges[i].xt &&
      (edges[i].bundleHead || edges[i].bundleClip || edges[i].bundleSubj) &&
      (edges[j].bundleHead || edges[j].bundleClip || edges[j].bundleSubj)
  }

  /** The edges that contribute are those bundled above: heads of a bundle, or bundled for either polygon. */
  lemma {:induction false} ContributingAre(edges: seq<Edge>, e: Edge)
    ensures e in Contributing(edges) <==> e in edges && (e.bundleHead || e.bundleClip || e.bundleSubj)
  {
    if edges != [] {
      ContributingAre(edges[..|edges|-1], e);
      assert edges == edges[..|edges|-1] + [edges[|edges|-1]];
    }
  }

  /** Edges of a beam stand in the order of their places. */
  lemma InOrder(edges: seq<Edge>, dy: real, a: Edge, b: Edge) returns (i: nat, j: nat)
    requires Beam(edges, dy) && a in edges && b in edges && a.id < b.id
    ensures i < j < |edges| && edges[i] == a && edges[j] == b
  {
    i :| i < |edges| && edges[i] == a;
    j :| j < |edges| && edges[j] == b;
  }

  /** A pair is exchanged exactly if it is inverted among the contributing edges. */
  lemma ExchangedIs(edges: seq<Edge>, dy: real, p: (nat, nat))
    requires Beam(edges, dy)
    ensures Inverted(Contributing(edges), p) <==> Exchanged(edges, p)
  {
    var c := Contributing(edges);
    ContributingBeam(edges, dy);
    if Inverted(c, p) {
      var i, j :| 0 <= i < j < |c| && c[i].id == p.0 && c[j].id == p.1 && c[j].xt < c[i].xt;
      ContributingAre(edges, c[i]);
      ContributingAre(edges, c[j]);
      var k, m := InOrder(edges, dy, c[i], c[j]);
    }
    if Exchanged(edges, p) {
      var i, j :| 0 <= i < j < |edges| && edges[i].id == p.0 && edges[j].id == p.1 && edges[j].xt < edges[i].xt &&
        (edges[i].bundleHead || edges[i].bundleClip || edges[i].bundleSubj) &&
        (edges[j].bundleHead || edges[j].bundleClip || edges[j].bundleSubj);
      ContributingAre(edges, edges[i]);
      ContributingAre(edges, edges[j]);
      var k, m := InOrder(c, dy, edges[i], edges[j]);
    }
  }

  lemma AllExchanged(edges: seq<Edge>, dy: real)
    requires Beam(edges, dy)
    ensures forall p :: Inverted(Contributing(edges), p) <==> Exchanged(edges, p)
  {
    forall p
      ensures Inverted(Contributing(edges), p) <==> Exchanged(edges, p)
    {
      ExchangedIs(edges, dy, p);
    }
  }
}
