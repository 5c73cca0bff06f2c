/** Building the edge table, the local minima table and the scanbeam tree of a
    polygon; contours whose vertex count is negated are switched off, and come
    back with their counts repaired. */
module EdgeTable {
  import opened Basics
  import opened ContourEdges
  import opened ContourSegments
  import opened ScanbeamTables

  const NONE: int := -1

  /** An edge as the passes fill it in; pred and succ are places in the edge table, NONE for NULL. */
  datatype Edge = Edge(bot: Vertex, top: Vertex, xb: real, dx: real, clip: bool, pred: int, succ: int)

  /** A slot of the edge table; `vertex` is the contour vertex that rides along. */
  datatype EdgeNode = EdgeNode(vertex: Vertex, edge: Edge)

  // ----- what the passes write

  function Slope(bot: Vertex, top: Vertex): real
    requires bot.y != top.y
  {
    (top.x - bot.x) / (top.y - bot.y)
  }

  /** The t-th edge of a chain of n edges that starts at slot e. */
  function EdgeOf(bot: Vertex, top: Vertex, clip: bool, e: nat, t: nat, n: nat): Edge
    requires bot.y != top.y
  {
    Edge(bot, top, bot.x, Slope(bot, top), clip,
         if n > 1 && t > 0 then e + t - 1 else NONE, if n > 1 && t + 1 < n then e + t + 1 else NONE)
  }

  ghost predicate AllUp(v: seq<Vertex>, chain: seq<nat>, fwd: bool) {
    forall t :: 0 <= t < |chain| ==> chain[t] < |v| && Up(v, chain[t], fwd)
  }

  lemma ChainUp(v: seq<Vertex>, i: nat, fwd: bool)
    requires i < |v|
    ensures AllUp(v, Chain(v, i, fwd), fwd)
  {
    var chain := Chain(v, i, fwd);
    forall t | 0 <= t < |chain|
      ensures chain[t] < |v| && Up(v, chain[t], fwd)
    {
      ChainMembers(v, i, fwd, chain[t]);
    }
  }

  ghost function ChainEdges(v: seq<Vertex>, chain: seq<nat>, fwd: bool, clip: bool, e: nat): (r: seq<Edge>)
    requires AllUp(v, chain, fwd)
    ensures |r| == |chain|
  {
    seq(|chain|, t requires 0 <= t < |chain| =>
      EdgeOf(v[chain[t]], v[Step(chain[t], |v|, fwd)], clip, e, t, |chain|))
  }

  /** The slot behind the edges of a pass over the first k vertices that starts at slot e. */
  ghost function AfterPass(v: seq<Vertex>, k: nat, fwd: bool, e: nat): nat
    requires k <= |v|
  {
    e + |Pass(v, k, fwd)|
  }

  /** The edges of a pass over the first k vertices, from slot e on. */
  ghost function PassEdges(v: seq<Vertex>, k: nat, fwd: bool, clip: bool, e: nat): (r: seq<Edge>)
    requires k <= |v|
    ensures |r| == |Pass(v, k, fwd)|
  {
    if k == 0 then []
    else
      ChainUp(v, k - 1, fwd);
      var r := PassEdges(v, k - 1, fwd, clip, e);
      if IsMin(v, k - 1, fwd) then r + ChainEdges(v, Chain(v, k - 1, fwd), fwd, clip, AfterPass(v, k - 1, fwd, e)) else r
  }

  /** An edge as a segment. */
  function SegmentOf(e: Edge): Segment {
    Segment(e.bot, e.top)
  }

  function SegmentsOf(edges: seq<Edge>): (r: seq<Segment>)
    ensures |r| == |edges|
  {
    seq(|edges|, t requires 0 <= t < |edges| => SegmentOf(edges[t]))
  }

  /** The edges are the segments at these places. */
  ghost predicate EmittedAt(v: seq<Vertex>, edges: seq<Edge>, places: seq<nat>, fwd: bool) {
    Places(v, places) && SegmentsOf(edges) == SegmentsAt(v, places, fwd)
  }

  lemma {:induction false} PassSegments(v: seq<Vertex>, k: nat, fwd: bool, clip: bool, e: nat)
    returns (edges: seq<Edge>, places: seq<nat>)
    requires k <= |v|
    ensures edges == PassEdges(v, k, fwd, clip, e) && places == Pass(v, k, fwd) && EmittedAt(v, edges, places, fwd)
  {
    edges, places := [], [];
    if k > 0 {
      edges, places := PassSegments(v, k - 1, fwd, clip, e);
      edges, places := VertexSegments(v, k, fwd, clip, e, edges, places);
    }
  }

  /** What the last of k vertices adds to a pass. */
  lemma VertexSegments(v: seq<Vertex>, k: nat, fwd: bool, clip: bool, e: nat, few: seq<Edge>, at: seq<nat>)
    returns (edges: seq<Edge>, places: seq<nat>)
    requires 0 < k <= |v|
    requires few == PassEdges(v, k - 1, fwd, clip, e) && at == Pass(v, k - 1, fwd) && EmittedAt(v, few, at, fwd)
    ensures edges == PassEdges(v, k, fwd, clip, e) && places == Pass(v, k, fwd) && EmittedAt(v, edges, places, fwd)
  {
    ChainUp(v, k - 1, fwd);
    edges, places := few, at;
    if IsMin(v, k - 1, fwd) {
      var chain, more := Chain(v, k - 1, fwd), ChainEdges(v, Chain(v, k - 1, fwd), fwd, clip, AfterPass(v, k - 1, fwd, e));
      edges, places := few + more, at + chain;
      ChainSegments(v, chain, fwd, clip, AfterPass(v, k - 1, fwd, e));
      EmittedJoin(v, few, at, more, chain, fwd);
    }
  }

  lemma EmittedJoin(v: seq<Vertex>, few: seq<Edge>, at: seq<nat>, more: seq<Edge>, chain: seq<nat>, fwd: bool)
    requires EmittedAt(v, few, at, fwd) && EmittedAt(v, more, chain, fwd)
    ensures EmittedAt(v, few + more, at + chain, fwd)
  {
    SegmentsJoin(few, more);
    PlacesJoin(v, at, chain, fwd);
  }

  lemma ChainSegments(v: seq<Vertex>, chain: seq<nat>, fwd: bool, clip: bool, e: nat)
    requires AllUp(v, chain, fwd)
    ensures EmittedAt(v, ChainEdges(v, chain, fwd, clip, e), chain, fwd)
  {
  }

  lemma SegmentsJoin(a: seq<Edge>, b: seq<Edge>)
    ensures SegmentsOf(a + b) == SegmentsOf(a) + SegmentsOf(b)
  {
  }

  lemma PlacesJoin(v: seq<Vertex>, a: seq<nat>, b: seq<nat>, fwd: bool)
    requires Places(v, a) && Places(v, b)
    ensures Places(v, a + b) && SegmentsAt(v, a + b, fwd) == SegmentsAt(v, a, fwd) + SegmentsAt(v, b, fwd)
  {
  }

  /** The bounds a pass files, with the heights of their minima. */
  ghost function PassBounds(v: seq<Vertex>, k: nat, fwd: bool, clip: bool, e: nat): seq<(real, Bound)>
    requires k <= |v|
  {
    if k == 0 then []
    else
      var r := PassBounds(v, k - 1, fwd, clip, e);
      if IsMin(v, k - 1, fwd)
      then r + [(v[k - 1].y, MinBound(v, k - 1, fwd, clip, AfterPass(v, k - 1, fwd, e)))]
      else r
  }

  ghost function Filed(t: seq<LmtNode>, bs: seq<(real, Bound)>): seq<LmtNode> {
    if bs == [] then t
    else Insert(Filed(t, bs[..|bs|-1]), bs[|bs|-1].0, bs[|bs|-1].1)
  }

  ghost predicate Carries(table: array<EdgeNode>, v: seq<Vertex>)
    reads table
  {
    |v| <= table.Length && forall i :: 0 <= i < |v| ==> table[i].vertex == v[i]
  }

  /** All vertices are still where they were. */
  twostate predicate SameVertices(table: array<EdgeNode>)
    reads table
  {
    forall i :: 0 <= i < table.Length ==> table[i].vertex == old(table[i].vertex)
  }

  /** Nothing has changed but slots lo to hi. */
  twostate predicate SameOutside(table: array<EdgeNode>, lo: int, hi: int)
    reads table
  {
    forall i :: 0 <= i < table.Length && !(lo <= i < hi) ==> table[i] == old(table[i])
  }

  /** The first n edges are still what they were. */
  twostate predicate SameEdges(table: array<EdgeNode>, n: int)
    reads table
  {
    forall i :: 0 <= i < n && i < table.Length ==> table[i].edge == old(table[i].edge)
  }

  /** The number of edges from local minimum `min` up to the next maximum. */
  method CountEdges(table: array<EdgeNode>, n: nat, min: nat, fwd: bool, ghost v: seq<Vertex>) returns (numEdges: nat)
    requires Carries(table, v) && n == |v| && min < n && IsMin(v, min, fwd)
    ensures numEdges == |Chain(v, min, fwd)|
  {
    MinMeansStart(v, min, fwd);
    numEdges := 1;
    var max: nat := Step(min, n, fwd);
    assert Chain(v, min, fwd) == [min] + Chain(v, max, fwd);
    while table[Step(max, n, fwd)].vertex.y > table[max].vertex.y
      invariant max < n
      invariant numEdges + |Chain(v, max, fwd)| == |Chain(v, min, fwd)|
      decreases |Above(v, v[max].y)|
    {
      Climb(v, max, Step(max, n, fwd));
      assert Up(v, max, fwd) && Chain(v, max, fwd) == [max] + Chain(v, Step(max, n, fwd), fwd);
      numEdges := numEdges + 1;
      max := Step(max, n, fwd);
    }
  }

  /** Writes the chain from `min` into the slots from e on. */
  method WriteChain(table: array<EdgeNode>, n: nat, min: nat, fwd: bool, clip: bool, e: nat, numEdges: nat, ghost v: seq<Vertex>)
    requires Carries(table, v) && n == |v| && min < n
    requires numEdges == |Chain(v, min, fwd)| && e + numEdges <= table.Length
    modifies table
    ensures AllUp(v, Chain(v, min, fwd), fwd)
    ensures SameVertices(table)
    ensures SameOutside(table, e, e + numEdges)
    ensures Holds(table, e, ChainEdges(v, Chain(v, min, fwd), fwd, clip, e))
  {
    ChainUp(v, min, fwd);
    ghost var chain := Chain(v, min, fwd);
    ghost var edges := ChainEdges(v, chain, fwd, clip, e);
    var at: nat := min;
    for t := 0 to numEdges
      invariant at < n && chain[t..] == Chain(v, at, fwd)
      invariant SameVertices(table) && SameOutside(table, e, e + t) && Holds(table, e, edges[..t])
    {
      ChainFrom(v, chain, t, at, fwd);
      assert edges[t] == EdgeOf(v[at], v[Step(at, n, fwd)], clip, e, t, numEdges);
      var bot := table[at].vertex;
      at := Step(at, n, fwd);
      WriteEdge(table, bot, table[at].vertex, clip, e, t, numEdges);
      HoldsMore(table, e, edges, t);
    }
    assert edges[..numEdges] == edges;
  }

  lemma HoldsMore(table: array<EdgeNode>, e: nat, edges: seq<Edge>, t: nat)
    requires t < |edges| && e + t < table.Length && table[e + t].edge == edges[t]
    requires forall u :: 0 <= u < t ==> table[e + u].edge == edges[u]
    ensures Holds(table, e, edges[..t + 1])
  {
  }

  method WriteEdge(table: array<EdgeNode>, bot: Vertex, top: Vertex, clip: bool, e: nat, t: nat, numEdges: nat)
    requires e + t < table.Length && bot.y != top.y
    modifies table
    ensures SameVertices(table)
    ensures SameOutside(table, e + t, e + t + 1)
    ensures table[e + t].edge == EdgeOf(bot, top, clip, e, t, numEdges)
  {
    table[e + t] := table[e + t].(edge := EdgeOf(bot, top, clip, e, t, numEdges));
  }

  lemma ChainFrom(v: seq<Vertex>, chain: seq<nat>, t: nat, at: nat, fwd: bool)
    requires t < |chain| && at < |v| && chain[t..] == Chain(v, at, fwd)
    ensures Up(v, at, fwd) && chain[t] == at && chain[t + 1..] == Chain(v, Step(at, |v|, fwd), fwd)
  {
    assert chain[t] == chain[t..][0] && chain[t..][1..] == chain[t + 1..];
  }

  lemma {:induction false} PassGrows(v: seq<Vertex>, k: nat, m: nat, fwd: bool)
    requires k <= m <= |v|
    ensures |Pass(v, k, fwd)| <= |Pass(v, m, fwd)|
    decreases m
  {
    if k < m { PassGrows(v, k, m - 1, fwd); }
  }

  ghost predicate Holds(table: array<EdgeNode>, e: nat, edges: seq<Edge>)
    reads table
  {
    e + |edges| <= table.Length && forall t :: 0 <= t < |edges| ==> table[e + t].edge == edges[t]
  }

  ghost function MinBound(v: seq<Vertex>, min: nat, fwd: bool, clip: bool, e: nat): Bound
    requires min < |v| && IsMin(v, min, fwd)
  {
    MinMeansStart(v, min, fwd);
    Bound(clip, e, v[min].x, Slope(v[min], v[Step(min, |v|, fwd)]))
  }

  /** The chain from one local minimum: its edges go behind `edges`, its bound into the local minima table. */
  method EmitChain(table: array<EdgeNode>, n: nat, min: nat, fwd: bool, clip: bool, e: nat, lmt: LocalMinima,
                   ghost v: seq<Vertex>, ghost e0: nat, ghost edges: seq<Edge>)
    returns (eIndex: nat)
    requires Carries(table, v) && n == |v| && min < n && IsMin(v, min, fwd)
    requires e == e0 + |edges| && Holds(table, e0, edges) && e + |Chain(v, min, fwd)| <= table.Length
    modifies table, lmt
    ensures eIndex == e + |Chain(v, min, fwd)| && AllUp(v, Chain(v, min, fwd), fwd)
    ensures Carries(table, v) && Holds(table, e0, edges + ChainEdges(v, Chain(v, min, fwd), fwd, clip, e))
    ensures SameEdges(table, e0)
    ensures lmt.table == Insert(old(lmt.table), v[min].y, MinBound(v, min, fwd, clip, e))
  {
    MinMeansStart(v, min, fwd);
    var numEdges := CountEdges(table, n, min, fwd, v);
    WriteChain(table, n, min, fwd, clip, e, numEdges, v);
    assert Holds(table, e0, edges);
    HoldsJoin(table, e0, edges, ChainEdges(v, Chain(v, min, fwd), fwd, clip, e));
    FirstEdge(v, min, fwd, clip, e);
    lmt.Add(table[min].vertex.y, Bound(clip, e, table[e].edge.bot.x, table[e].edge.dx));
    eIndex := e + numEdges;
  }

  /** What a pass has written and filed after k vertices. */
  ghost predicate PassDone(table: array<EdgeNode>, v: seq<Vertex>, k: nat, fwd: bool, clip: bool, e0: nat, e: nat,
                           lmt: LocalMinima, t: seq<LmtNode>)
    reads table, lmt
    requires k <= |v|
  {
    && e == AfterPass(v, k, fwd, e0)
    && Carries(table, v) && Holds(table, e0, PassEdges(v, k, fwd, clip, e0))
    && lmt.table == Filed(t, PassBounds(v, k, fwd, clip, e0))
  }

  method PassVertex(table: array<EdgeNode>, n: nat, min: nat, fwd: bool, clip: bool, e: nat, lmt: LocalMinima,
                    ghost v: seq<Vertex>, ghost e0: nat, ghost edges: seq<Edge>)
    returns (eIndex: nat)
    requires Carries(table, v) && n == |v| && min < n
    requires e == e0 + |edges| && Holds(table, e0, edges)
    requires IsMin(v, min, fwd) ==> e + |Chain(v, min, fwd)| <= table.Length
    modifies table, lmt
    ensures Carries(table, v) && AllUp(v, Chain(v, min, fwd), fwd)
    ensures eIndex == e + if IsMin(v, min, fwd) then |Chain(v, min, fwd)| else 0
    ensures Holds(table, e0, if IsMin(v, min, fwd) then edges + ChainEdges(v, Chain(v, min, fwd), fwd, clip, e) else edges)
    ensures lmt.table == if IsMin(v, min, fwd) then Insert(old(lmt.table), v[min].y, MinBound(v, min, fwd, clip, e))
                         else old(lmt.table)
    ensures SameEdges(table, e0)
  {
    ChainUp(v, min, fwd);
    eIndex := e;
    if TestMin(table, n, min, fwd, v) {
      eIndex := EmitChain(table, n, min, fwd, clip, e, lmt, v, e0, edges);
    }
  }

  /** One pass over the contour: each local minimum gives a chain of edges and a bound. */
  method BuildPass(table: array<EdgeNode>, n: nat, fwd: bool, clip: bool, e0: nat, lmt: LocalMinima, ghost v: seq<Vertex>)
    returns (eIndex: nat)
    requires Carries(table, v) && n == |v|
    requires e0 + |Pass(v, n, fwd)| <= table.Length
    modifies table, lmt
    ensures PassDone(table, v, n, fwd, clip, e0, eIndex, lmt, old(lmt.table))
    ensures SameEdges(table, e0)
  {
    eIndex := e0;
    for min := 0 to n
      invariant PassDone(table, v, min, fwd, clip, e0, eIndex, lmt, old(lmt.table))
      invariant SameEdges(table, e0)
    {
      ghost var e := eIndex;
      RoomForChain(v, min, fwd);
      eIndex := PassVertex(table, n, min, fwd, clip, eIndex, lmt, v, e0, PassEdges(v, min, fwd, clip, e0));
      DoneStep(table, v, min, fwd, clip, e0, e, eIndex, lmt, old(lmt.table));
    }
  }

  lemma RoomForChain(v: seq<Vertex>, k: nat, fwd: bool)
    requires k < |v|
    ensures IsMin(v, k, fwd) ==> |Pass(v, k, fwd)| + |Chain(v, k, fwd)| <= |Pass(v, |v|, fwd)|
  {
    PassGrows(v, k + 1, |v|, fwd);
  }

  lemma DoneStep(table: array<EdgeNode>, v: seq<Vertex>, k: nat, fwd: bool, clip: bool, e0: nat, e: nat, eIndex: nat,
                 lmt: LocalMinima, t: seq<LmtNode>)
    requires k < |v| && e == AfterPass(v, k, fwd, e0) && AllUp(v, Chain(v, k, fwd), fwd)
    requires eIndex == e + if IsMin(v, k, fwd) then |Chain(v, k, fwd)| else 0
    requires Carries(table, v)
    requires var edges := PassEdges(v, k, fwd, clip, e0);
             Holds(table, e0, if IsMin(v, k, fwd) then edges + ChainEdges(v, Chain(v, k, fwd), fwd, clip, e) else edges)
    requires var filed := Filed(t, PassBounds(v, k, fwd, clip, e0));
             lmt.table == if IsMin(v, k, fwd) then Insert(filed, v[k].y, MinBound(v, k, fwd, clip, e)) else filed
    ensures PassDone(table, v, k + 1, fwd, clip, e0, eIndex, lmt, t)
  {
    PassStep(v, k, fwd, clip, e0, e);
    FiledStep(t, v, k, fwd, clip, e0, e);
  }

  /** What one more vertex adds to a pass. */
  lemma PassStep(v: seq<Vertex>, k: nat, fwd: bool, clip: bool, e0: nat, e: nat)
    requires k < |v| && e == AfterPass(v, k, fwd, e0)
    ensures AllUp(v, Chain(v, k, fwd), fwd) && e == e0 + |PassEdges(v, k, fwd, clip, e0)|
    ensures |Pass(v, k + 1, fwd)| == |Pass(v, k, fwd)| + if IsMin(v, k, fwd) then |Chain(v, k, fwd)| else 0
    ensures PassEdges(v, k + 1, fwd, clip, e0) ==
              if IsMin(v, k, fwd) then
                PassEdges(v, k, fwd, clip, e0) + ChainEdges(v, Chain(v, k, fwd), fwd, clip, e)
              else PassEdges(v, k, fwd, clip, e0)
  {
    ChainUp(v, k, fwd);
  }

  lemma FiledStep(t: seq<LmtNode>, v: seq<Vertex>, k: nat, fwd: bool, clip: bool, e0: nat, e: nat)
    requires k < |v| && e == AfterPass(v, k, fwd, e0)
    ensures Filed(t, PassBounds(v, k + 1, fwd, clip, e0)) ==
              if IsMin(v, k, fwd) then Insert(Filed(t, PassBounds(v, k, fwd, clip, e0)), v[k].y, MinBound(v, k, fwd, clip, e))
              else Filed(t, PassBounds(v, k, fwd, clip, e0))
  {
    var bs := PassBounds(v, k, fwd, clip, e0);
    if IsMin(v, k, fwd) {
      var b := MinBound(v, k, fwd, clip, e);
      assert PassBounds(v, k + 1, fwd, clip, e0) == bs + [(v[k].y, b)];
      FiledOne(t, bs, v[k].y, b);
    } else {
      assert PassBounds(v, k + 1, fwd, clip, e0) == bs;
    }
  }

  lemma FiledOne(t: seq<LmtNode>, bs: seq<(real, Bound)>, y: real, b: Bound)
    ensures Filed(t, bs + [(y, b)]) == Insert(Filed(t, bs), y, b)
  {
    assert (bs + [(y, b)])[..|bs|] == bs;
  }

  /** FWD_MIN and REV_MIN on the vertices in the table. */
  predicate TestMin(table: array<EdgeNode>, n: nat, i: nat, fwd: bool, ghost v: seq<Vertex>)
    reads table
    requires Carries(table, v) && n == |v| && i < n
    ensures TestMin(table, n, i, fwd, v) <==> IsMin(v, i, fwd)
  {
    var p, q := table[Prev(i, n)].vertex.y, table[Next(i, n)].vertex.y;
    if fwd then p >= table[i].vertex.y && q > table[i].vertex.y else p > table[i].vertex.y && q >= table[i].vertex.y
  }

  lemma FirstEdge(v: seq<Vertex>, min: nat, fwd: bool, clip: bool, e: nat)
    requires min < |v| && IsMin(v, min, fwd) && Up(v, min, fwd)
    requires AllUp(v, Chain(v, min, fwd), fwd)
    ensures var r := ChainEdges(v, Chain(v, min, fwd), fwd, clip, e);
            r != [] && r[0].bot == v[min] && r[0].dx == Slope(v[min], v[Step(min, |v|, fwd)])
  {
  }

  // ----- a whole polygon

  /** The contours of a polygon; `count` holds their vertex counts, negated for contours switched off. */
  class Polygon {
    const contours: seq<seq<Vertex>>
    var count: seq<int>

    ghost predicate Valid()
      reads this
    {
      |count| == |contours| && forall c :: 0 <= c < |count| ==> count[c] == |contours[c]| || count[c] == -|contours[c]|
    }

    /** No contour is switched off. */
    ghost predicate Plain()
      reads this
    {
      |count| == |contours| && forall c :: 0 <= c < |count| ==> count[c] == |contours[c]|
    }

    constructor (contours: seq<seq<Vertex>>)
      ensures this.contours == contours && Plain()
    {
      this.contours := contours;
      count := seq(|contours|, c requires 0 <= c < |contours| => |contours[c]|);
    }
  }

  /** The contours still switched on, among the first k. */
  ghost function Contributing(contours: seq<seq<Vertex>>, count: seq<int>, k: nat): seq<seq<Vertex>>
    requires k <= |contours| == |count|
  {
    if k == 0 then []
    else
      var r := Contributing(contours, count, k - 1);
      if count[k - 1] < 0 then r else r + [contours[k - 1]]
  }

  ghost function Room(cs: seq<seq<Vertex>>): nat {
    if cs == [] then 0 else Room(cs[..|cs|-1]) + |Optimised(cs[|cs|-1])|
  }

  ghost function Slots(v: seq<Vertex>): nat {
    |Pass(v, |v|, true)| + |Pass(v, |v|, false)|
  }

  ghost function SlotsUsed(cs: seq<seq<Vertex>>): nat {
    if cs == [] then 0 else SlotsUsed(cs[..|cs|-1]) + Slots(Optimised(cs[|cs|-1]))
  }

  /** A forward and then a reverse pass over the optimised contour. */
  ghost function ContourEdgesOf(c: seq<Vertex>, clip: bool, e: nat): seq<Edge> {
    var v := Optimised(c);
    PassEdges(v, |v|, true, clip, e) + PassEdges(v, |v|, false, clip, AfterPass(v, |v|, true, e))
  }

  ghost function ContourBounds(c: seq<Vertex>, clip: bool, e: nat): seq<(real, Bound)> {
    var v := Optimised(c);
    PassBounds(v, |v|, true, clip, e) + PassBounds(v, |v|, false, clip, AfterPass(v, |v|, true, e))
  }

  ghost function PolygonEdges(cs: seq<seq<Vertex>>, clip: bool): (r: seq<Edge>)
    ensures |r| == SlotsUsed(cs)
  {
    if cs == [] then []
    else
      var front := cs[..|cs|-1];
      PolygonEdges(front, clip) + ContourEdgesOf(cs[|cs|-1], clip, SlotsUsed(front))
  }

  /** The edges of a contour are exactly its slanted edges. */
  lemma ContourIsSlanted(c: seq<Vertex>, clip: bool, e: nat) returns (edges: seq<Edge>)
    ensures edges == ContourEdgesOf(c, clip, e)
    ensures multiset(SegmentsOf(edges)) == multiset(SlantedEdges(c))
  {
    OptimisedEdges(c);
    edges := TwoPasses(Optimised(c), clip, e);
  }

  lemma TwoPasses(v: seq<Vertex>, clip: bool, e: nat) returns (edges: seq<Edge>)
    ensures edges == PassEdges(v, |v|, true, clip, e) + PassEdges(v, |v|, false, clip, AfterPass(v, |v|, true, e))
    ensures multiset(SegmentsOf(edges)) == multiset(SlantedEdges(v))
  {
    var fwd, up := PassSegments(v, |v|, true, clip, e);
    var rev, down := PassSegments(v, |v|, false, clip, AfterPass(v, |v|, true, e));
    edges := fwd + rev;
    PassesAreSlanted(v);
    SegmentsJoin(fwd, rev);
  }

  /** The slanted edges of all contours. */
  ghost function PolygonSlanted(cs: seq<seq<Vertex>>): multiset<Segment> {
    if cs == [] then multiset{} else PolygonSlanted(cs[..|cs|-1]) + multiset(SlantedEdges(cs[|cs|-1]))
  }

  lemma {:induction false} PolygonIsSlanted(cs: seq<seq<Vertex>>, clip: bool)
    ensures multiset(SegmentsOf(PolygonEdges(cs, clip))) == PolygonSlanted(cs)
  {
    if cs != [] {
      var front, c := cs[..|cs|-1], cs[|cs|-1];
      PolygonIsSlanted(front, clip);
      var edges := ContourIsSlanted(c, clip, SlotsUsed(front));
      SegmentsJoin(PolygonEdges(front, clip), edges);
    }
  }

  lemma {:induction false} PolygonRises(cs: seq<seq<Vertex>>, s: Segment)
    requires s in PolygonSlanted(cs)
    ensures s.bot.y < s.top.y
  {
    var front, c := cs[..|cs|-1], cs[|cs|-1];
    if s in PolygonSlanted(front) {
      PolygonRises(front, s);
    } else {
      SlantedRises(c, s);
    }
  }

  /** Every edge rises. */
  ghost predicate AllRise(edges: seq<Edge>) {
    forall t :: 0 <= t < |edges| ==> edges[t].bot.y < edges[t].top.y
  }

  /** The edges of a polygon rise. */
  lemma SlantedAllRise(edges: seq<Edge>, cs: seq<seq<Vertex>>)
    requires multiset(SegmentsOf(edges)) == PolygonSlanted(cs)
    ensures AllRise(edges)
  {
    forall t | 0 <= t < |edges|
      ensures edges[t].bot.y < edges[t].top.y
    {
      assert SegmentsOf(edges)[t] in multiset(SegmentsOf(edges));
      PolygonRises(cs, SegmentOf(edges[t]));
    }
  }

  ghost function PolygonBounds(cs: seq<seq<Vertex>>, clip: bool): seq<(real, Bound)> {
    if cs == [] then []
    else
      var front := cs[..|cs|-1];
      PolygonBounds(front, clip) + ContourBounds(cs[|cs|-1], clip, SlotsUsed(front))
  }

  ghost function Ys(v: seq<Vertex>): set<real> {
    set i | 0 <= i < |v| :: v[i].y
  }

  ghost function PolygonYs(cs: seq<seq<Vertex>>): set<real> {
    if cs == [] then {} else PolygonYs(cs[..|cs|-1]) + Ys(Optimised(cs[|cs|-1]))
  }

  lemma {:induction false} SlotsFit(cs: seq<seq<Vertex>>)
    ensures SlotsUsed(cs) <= Room(cs)
  {
    if cs != [] {
      SlotsFit(cs[..|cs|-1]);
      PassesFit(Optimised(cs[|cs|-1]));
    }
  }

  lemma {:induction false} RoomGrows(contours: seq<seq<Vertex>>, count: seq<int>, k: nat, m: nat)
    requires k <= m <= |contours| == |count|
    ensures Room(Contributing(contours, count, k)) <= Room(Contributing(contours, count, m))
    decreases m
  {
    if k < m {
      RoomGrows(contours, count, k, m - 1);
      ContributingStep(contours, count, m - 1);
    }
  }

  lemma ContributingStep(contours: seq<seq<Vertex>>, count: seq<int>, k: nat)
    requires k < |contours| == |count|
    ensures var r, s := Contributing(contours, count, k), Contributing(contours, count, k + 1);
            if count[k] < 0 then s == r else s != [] && s[..|s|-1] == r && s[|s|-1] == contours[k]
  {
  }

  lemma {:induction false} FiledConcat(t: seq<LmtNode>, a: seq<(real, Bound)>, b: seq<(real, Bound)>)
    ensures Filed(t, a + b) == Filed(Filed(t, a), b)
    decreases |b|
  {
    if b == [] {
      assert a + b == a;
    } else {
      FiledConcat(t, a, b[..|b|-1]);
      assert (a + b)[..|a + b|-1] == a + b[..|b|-1];
    }
  }

  method CountOptimalVertices(c: seq<Vertex>, numVertices: int) returns (result: nat)
    requires numVertices == |c| || numVertices == -|c|
    ensures result == if numVertices < 0 then 0 else |Optimised(c)|
  {
    result := 0;
    if numVertices > 0 {
      for i := 0 to numVertices
        invariant result == |OptimalUpTo(c, i)|
      {
        if Optimal(c, i) {
          result := result + 1;
        }
      }
    }
  }

  /** Copies the optimised contour into the table and records its heights. */
  method LoadContour(table: array<EdgeNode>, c: seq<Vertex>, tree: ScanbeamTree) returns (n: nat)
    requires |Optimised(c)| <= table.Length && tree.Valid()
    modifies table, tree
    ensures n == |Optimised(c)| && Carries(table, Optimised(c))
    ensures SameEdges(table, table.Length)
    ensures tree.Valid() && Elements(InOrder(tree.root)) == Elements(InOrder(old(tree.root))) + Ys(Optimised(c))
  {
    n := 0;
    ghost var v: seq<Vertex> := [];
    for i := 0 to |c|
      invariant v == OptimalUpTo(c, i) && n == |v| <= |Optimised(c)| && Carries(table, v)
      invariant SameEdges(table, table.Length)
      invariant tree.Valid() && Elements(InOrder(tree.root)) == Elements(InOrder(old(tree.root))) + Ys(v)
    {
      OptimalGrows(c, i + 1, |c|);
      if Optimal(c, i) {
        YsStep(v, c[i]);
        StoreVertex(table, n, c[i], tree, v);
        n := n + 1;
        v := v + [c[i]];
      }
    }
  }

  /** Puts vertex x behind the vertices v and records its height. */
  method StoreVertex(table: array<EdgeNode>, n: nat, x: Vertex, tree: ScanbeamTree, ghost v: seq<Vertex>)
    requires Carries(table, v) && n == |v| < table.Length && tree.Valid()
    modifies table, tree
    ensures Carries(table, v + [x])
    ensures SameEdges(table, table.Length)
    ensures tree.Valid() && Elements(InOrder(tree.root)) == Elements(InOrder(old(tree.root))) + {x.y}
  {
    table[n] := table[n].(vertex := x);
    tree.Add(table[n].vertex.y);
  }

  lemma {:induction false} OptimalGrows(c: seq<Vertex>, k: nat, m: nat)
    requires k <= m <= |c|
    ensures |OptimalUpTo(c, k)| <= |OptimalUpTo(c, m)|
    decreases m
  {
    if k < m { OptimalGrows(c, k, m - 1); }
  }

  lemma YsStep(v: seq<Vertex>, x: Vertex)
    ensures Ys(v + [x]) == Ys(v) + {x.y}
  {
    var w := v + [x];
    forall h
      ensures h in Ys(w) <==> h in Ys(v) + {x.y}
    {
      if h in Ys(v) { var i :| 0 <= i < |v| && v[i].y == h; assert w[i].y == h; }
      if h == x.y { assert w[|v|].y == h; }
      if h in Ys(w) { var i :| 0 <= i < |w| && w[i].y == h; assert i < |v| ==> v[i].y == h; }
    }
  }

  /** The two passes over one loaded contour. */
  method BuildContour(table: array<EdgeNode>, n: nat, clip: bool, e: nat, lmt: LocalMinima, ghost c: seq<Vertex>)
    returns (eIndex: nat)
    requires Carries(table, Optimised(c)) && n == |Optimised(c)|
    requires e + Slots(Optimised(c)) <= table.Length
    modifies table, lmt
    ensures eIndex == e + Slots(Optimised(c))
    ensures Holds(table, e, ContourEdgesOf(c, clip, e))
    ensures SameEdges(table, e)
    ensures lmt.table == Filed(old(lmt.table), ContourBounds(c, clip, e))
  {
    ghost var v := Optimised(c);
    FiledConcat(lmt.table, PassBounds(v, n, true, clip, e), PassBounds(v, n, false, clip, AfterPass(v, n, true, e)));
    var mid := BuildPass(table, n, true, clip, e, lmt, v);
    ghost var first := PassEdges(v, n, true, clip, e);
    eIndex := BuildPass(table, n, false, clip, mid, lmt, v);
    HoldsJoin(table, e, first, PassEdges(v, n, false, clip, mid));
  }

  lemma HoldsJoin(table: array<EdgeNode>, e: nat, a: seq<Edge>, b: seq<Edge>)
    requires Holds(table, e, a) && Holds(table, e + |a|, b)
    ensures Holds(table, e, a + b)
  {
  }

  /** Adds one contour behind the edges there are. */
  method AddContour(table: array<EdgeNode>, c: seq<Vertex>, clip: bool, e: nat, lmt: LocalMinima, tree: ScanbeamTree,
                    ghost edges: seq<Edge>)
    returns (eIndex: nat)
    requires tree.Valid() && e + |Optimised(c)| <= table.Length
    requires e == |edges| && Holds(table, 0, edges)
    modifies table, lmt, tree
    ensures eIndex == e + Slots(Optimised(c)) && Holds(table, 0, edges + ContourEdgesOf(c, clip, e))
    ensures lmt.table == Filed(old(lmt.table), ContourBounds(c, clip, e))
    ensures tree.Valid() && Elements(InOrder(tree.root)) == Elements(InOrder(old(tree.root))) + Ys(Optimised(c))
  {
    PassesFit(Optimised(c));
    var n := LoadContour(table, c, tree);
    eIndex := BuildContour(table, n, clip, e, lmt, c);
    assert Holds(table, 0, edges);
    HoldsJoin(table, 0, edges, ContourEdgesOf(c, clip, e));
  }

  /** What one more contour adds to a polygon. */
  lemma ContourAdds(cs: seq<seq<Vertex>>, c: seq<Vertex>, clip: bool, e: nat, t0: seq<LmtNode>)
    requires e == SlotsUsed(cs)
    ensures Room(cs + [c]) == Room(cs) + |Optimised(c)| && SlotsUsed(cs + [c]) == e + Slots(Optimised(c))
    ensures PolygonEdges(cs + [c], clip) == PolygonEdges(cs, clip) + ContourEdgesOf(c, clip, e)
    ensures Filed(t0, PolygonBounds(cs + [c], clip)) == Filed(Filed(t0, PolygonBounds(cs, clip)), ContourBounds(c, clip, e))
  {
    assert (cs + [c])[..|cs|] == cs;
    FiledConcat(t0, PolygonBounds(cs, clip), ContourBounds(c, clip, e));
  }

  /** What has been built for the contours cs. */
  ghost predicate Built(table: array<EdgeNode>, e: nat, lmt: LocalMinima, tree: ScanbeamTree,
                        t0: seq<LmtNode>, ys: set<real>, cs: seq<seq<Vertex>>, clip: bool)
    reads table, lmt, tree
  {
    && e == SlotsUsed(cs) && Holds(table, 0, PolygonEdges(cs, clip))
    && lmt.table == Filed(t0, PolygonBounds(cs, clip))
    && tree.Valid() && Elements(InOrder(tree.root)) == ys + PolygonYs(cs)
  }

  /** Contour c is the next of the contributing ones, unless it is switched off. */
  lemma ContourTurn(contours: seq<seq<Vertex>>, count: seq<int>, c: nat)
    requires c < |contours| == |count|
    ensures var cs, all := Contributing(contours, count, c), Contributing(contours, count, |contours|);
            if count[c] < 0 then Contributing(contours, count, c + 1) == cs
            else
              && Contributing(contours, count, c + 1) == cs + [contours[c]]
              && Room(cs + [contours[c]]) <= Room(all)
              && PolygonYs(cs + [contours[c]]) == PolygonYs(cs) + Ys(Optimised(contours[c]))
  {
    RoomGrows(contours, count, c + 1, |contours|);
    var cs := Contributing(contours, count, c);
    assert (cs + [contours[c]])[..|cs|] == cs;
  }

  /** Contour c is added, or repaired if it was switched off. */
  method NextContour(p: Polygon, c: nat, table: array<EdgeNode>, clip: bool, e: nat, lmt: LocalMinima, tree: ScanbeamTree,
                     ghost count: seq<int>, ghost t0: seq<LmtNode>, ghost ys: set<real>)
    returns (eIndex: nat)
    requires Repaired(p.contours, count, p.count, c) && c < |p.contours|
    requires table.Length == Room(Contributing(p.contours, count, |p.contours|))
    requires Built(table, e, lmt, tree, t0, ys, Contributing(p.contours, count, c), clip)
    modifies p, table, lmt, tree
    ensures Repaired(p.contours, count, p.count, c + 1)
    ensures Built(table, eIndex, lmt, tree, t0, ys, Contributing(p.contours, count, c + 1), clip)
  {
    ContourTurn(p.contours, count, c);
    RepairedStep(p.contours, count, p.count, c);
    ghost var cs := Contributing(p.contours, count, c);
    eIndex := e;
    if p.count[c] < 0 {
      p.count := p.count[c := -p.count[c]];
    } else {
      ContourAdds(cs, p.contours[c], clip, e, t0);
      SlotsFit(cs);
      eIndex := AddContour(table, p.contours[c], clip, e, lmt, tree, PolygonEdges(cs, clip));
    }
  }

  // ----- what edges and bounds are, apart from how they are computed

  /** The edge goes up from its bottom, where it starts, to its top by its slope. */
  ghost predicate OnLine(e: Edge) {
    e.bot.y < e.top.y && e.xb == e.bot.x && e.bot.x + e.dx * (e.top.y - e.bot.y) == e.top.x
  }

  /** Edge t, in slot e0 + t, is linked to edges that continue it and are linked back to it. */
  ghost predicate Linked(edges: seq<Edge>, e0: nat, t: nat)
    requires t < |edges|
  {
    && (edges[t].succ == NONE ||
          (edges[t].succ == e0 + t + 1 && t + 1 < |edges| && edges[t+1].pred == e0 + t && edges[t+1].bot == edges[t].top))
    && (edges[t].pred == NONE ||
          (edges[t].pred == e0 + t - 1 && t > 0 && edges[t-1].succ == e0 + t && edges[t-1].top == edges[t].bot))
  }

  /** Bound b at height y is that of edge e, the first of its chain. */
  ghost predicate Heads(e: Edge, y: real, b: Bound) {
    e.pred == NONE && y == e.bot.y && b.x == e.bot.x && b.dx == e.dx && b.clip == e.clip
  }

  ghost predicate HeadAt(edges: seq<Edge>, e0: nat, bs: seq<(real, Bound)>, i: nat)
    requires i < |bs|
  {
    e0 <= bs[i].1.e < e0 + |edges| && Heads(edges[bs[i].1.e - e0], bs[i].0, bs[i].1)
  }

  ghost predicate IsFiled(bs: seq<(real, Bound)>, slot: nat) {
    exists i :: 0 <= i < |bs| && bs[i].1.e == slot
  }

  /** The edges from slot e0 on lie on their lines and are linked into chains; there is one bound for each chain, that of
      its first edge, in the order of the slots. */
  ghost predicate Described(edges: seq<Edge>, e0: nat, clip: bool, bs: seq<(real, Bound)>) {
    && (forall t :: 0 <= t < |edges| ==> OnLine(edges[t]) && edges[t].clip == clip && Linked(edges, e0, t))
    && (forall i :: 0 <= i < |bs| ==> HeadAt(edges, e0, bs, i))
    && (forall i, j :: 0 <= i < j < |bs| ==> bs[i].1.e < bs[j].1.e)
    && (forall t :: 0 <= t < |edges| && edges[t].pred == NONE ==> IsFiled(bs, e0 + t))
  }

  lemma EdgeOnLine(bot: Vertex, top: Vertex, clip: bool, e: nat, t: nat, n: nat)
    requires bot.y < top.y
    ensures OnLine(EdgeOf(bot, top, clip, e, t, n))
  {
    Quotient(top.x - bot.x, top.y - bot.y);
  }

  lemma Quotient(a: real, b: real)
    requires b > 0.0
    ensures a / b * b == a
  {
  }

  /** An edge of a chain starts where the one before it ends. */
  lemma {:induction false} ChainNext(v: seq<Vertex>, i: nat, fwd: bool, t: nat)
    requires i < |v| && t + 1 < |Chain(v, i, fwd)|
    ensures Chain(v, i, fwd)[t] < |v| && Chain(v, i, fwd)[t + 1] == Step(Chain(v, i, fwd)[t], |v|, fwd)
    decreases t
  {
    var s := Step(i, |v|, fwd);
    assert Chain(v, i, fwd) == [i] + Chain(v, s, fwd);
    if t > 0 { ChainNext(v, s, fwd, t - 1); }
  }

  lemma ChainDescribed(v: seq<Vertex>, min: nat, fwd: bool, clip: bool, e: nat)
    requires min < |v| && IsMin(v, min, fwd) && AllUp(v, Chain(v, min, fwd), fwd)
    ensures Described(ChainEdges(v, Chain(v, min, fwd), fwd, clip, e), e, clip, [(v[min].y, MinBound(v, min, fwd, clip, e))])
  {
    var chain, edges := Chain(v, min, fwd), ChainEdges(v, Chain(v, min, fwd), fwd, clip, e);
    var bs := [(v[min].y, MinBound(v, min, fwd, clip, e))];
    MinMeansStart(v, min, fwd);
    FirstEdge(v, min, fwd, clip, e);
    forall t | 0 <= t < |edges|
      ensures OnLine(edges[t]) && edges[t].clip == clip && Linked(edges, e, t)
    {
      EdgeOnLine(v[chain[t]], v[Step(chain[t], |v|, fwd)], clip, e, t, |chain|);
      if t + 1 < |chain| { ChainNext(v, min, fwd, t); }
      if t > 0 { ChainNext(v, min, fwd, t - 1); }
    }
    assert bs[0].1.e == e && HeadAt(edges, e, bs, 0);
  }

  lemma DescribedJoin(a: seq<Edge>, b: seq<Edge>, e0: nat, e1: nat, clip: bool, bs: seq<(real, Bound)>, cs: seq<(real, Bound)>)
    requires Described(a, e0, clip, bs) && Described(b, e1, clip, cs) && e1 == e0 + |a|
    ensures Described(a + b, e0, clip, bs + cs)
  {
    forall t | 0 <= t < |a + b|
      ensures OnLine((a + b)[t]) && (a + b)[t].clip == clip && Linked(a + b, e0, t)
      ensures (a + b)[t].pred == NONE ==> IsFiled(bs + cs, e0 + t)
    {
      LinkedJoin(a, b, e0, e1, t);
      FiledJoin(bs, cs, e0 + t);
    }
    forall i | 0 <= i < |bs + cs|
      ensures HeadAt(a + b, e0, bs + cs, i) && ((bs + cs)[i].1.e < e1 <==> i < |bs|)
    {
      HeadJoin(a, b, e0, e1, bs, cs, i);
    }
  }

  lemma HeadJoin(a: seq<Edge>, b: seq<Edge>, e0: nat, e1: nat, bs: seq<(real, Bound)>, cs: seq<(real, Bound)>, i: nat)
    requires e1 == e0 + |a| && i < |bs + cs|
    requires if i < |bs| then HeadAt(a, e0, bs, i) else HeadAt(b, e1, cs, i - |bs|)
    ensures HeadAt(a + b, e0, bs + cs, i) && ((bs + cs)[i].1.e < e1 <==> i < |bs|)
  {
  }

  lemma LinkedJoin(a: seq<Edge>, b: seq<Edge>, e0: nat, e1: nat, t: nat)
    requires e1 == e0 + |a| && t < |a + b|
    requires if t < |a| then Linked(a, e0, t) else Linked(b, e1, t - |a|)
    ensures Linked(a + b, e0, t)
  {
  }

  lemma FiledJoin(bs: seq<(real, Bound)>, cs: seq<(real, Bound)>, slot: nat)
    ensures IsFiled(bs, slot) || IsFiled(cs, slot) ==> IsFiled(bs + cs, slot)
  {
    if i :| 0 <= i < |bs| && bs[i].1.e == slot { assert (bs + cs)[i].1.e == slot; }
    if i :| 0 <= i < |cs| && cs[i].1.e == slot { assert (bs + cs)[|bs| + i].1.e == slot; }
  }

  lemma {:induction false} PassDescribed(v: seq<Vertex>, k: nat, fwd: bool, clip: bool, e: nat)
    returns (edges: seq<Edge>, bs: seq<(real, Bound)>)
    requires k <= |v|
    ensures edges == PassEdges(v, k, fwd, clip, e) && bs == PassBounds(v, k, fwd, clip, e) && Described(edges, e, clip, bs)
  {
    edges, bs := [], [];
    if k > 0 {
      edges, bs := PassDescribed(v, k - 1, fwd, clip, e);
      edges, bs := VertexDescribed(v, k - 1, fwd, clip, e, edges, bs);
    }
  }

  /** What vertex m adds to a pass. */
  lemma VertexDescribed(v: seq<Vertex>, m: nat, fwd: bool, clip: bool, e: nat, few: seq<Edge>, filed: seq<(real, Bound)>)
    returns (edges: seq<Edge>, bs: seq<(real, Bound)>)
    requires m < |v| && few == PassEdges(v, m, fwd, clip, e) && filed == PassBounds(v, m, fwd, clip, e)
    requires Described(few, e, clip, filed)
    ensures edges == PassEdges(v, m + 1, fwd, clip, e) && bs == PassBounds(v, m + 1, fwd, clip, e) && Described(edges, e, clip, bs)
  {
    edges, bs := few, filed;
    ChainUp(v, m, fwd);
    if IsMin(v, m, fwd) {
      var at := AfterPass(v, m, fwd, e);
      var more := ChainEdges(v, Chain(v, m, fwd), fwd, clip, at);
      var b := (v[m].y, MinBound(v, m, fwd, clip, at));
      ChainDescribed(v, m, fwd, clip, at);
      DescribedJoin(few, more, e, at, clip, filed, [b]);
      edges, bs := few + more, filed + [b];
    }
  }

  lemma ContourDescribed(c: seq<Vertex>, clip: bool, e: nat) returns (edges: seq<Edge>, bs: seq<(real, Bound)>)
    ensures edges == ContourEdgesOf(c, clip, e) && bs == ContourBounds(c, clip, e) && Described(edges, e, clip, bs)
  {
    var v := Optimised(c);
    var fwd, up := PassDescribed(v, |v|, true, clip, e);
    var rev, down := PassDescribed(v, |v|, false, clip, AfterPass(v, |v|, true, e));
    DescribedJoin(fwd, rev, e, AfterPass(v, |v|, true, e), clip, up, down);
    edges, bs := fwd + rev, up + down;
  }

  /** The edges and bounds of a polygon. */
  lemma {:induction false} PolygonDescribed(cs: seq<seq<Vertex>>, clip: bool) returns (edges: seq<Edge>, bs: seq<(real, Bound)>)
    ensures edges == PolygonEdges(cs, clip) && bs == PolygonBounds(cs, clip) && Described(edges, 0, clip, bs)
  {
    edges, bs := [], [];
    if cs != [] {
      var front, c := cs[..|cs|-1], cs[|cs|-1];
      edges, bs := PolygonDescribed(front, clip);
      var more, others := ContourDescribed(c, clip, SlotsUsed(front));
      DescribedJoin(edges, more, 0, SlotsUsed(front), clip, bs, others);
      edges, bs := edges + more, bs + others;
    }
  }

  /** Builds the edge table of a polygon; contours that were switched off are skipped and switched on again. */
  method BuildLmt(p: Polygon, clip: bool, lmt: LocalMinima, tree: ScanbeamTree, blank: EdgeNode)
    returns (table: array<EdgeNode>, eIndex: nat)
    requires p.Valid() && tree.Valid()
    modifies p, lmt, tree
    ensures p.Plain()
    ensures var cs := Contributing(p.contours, old(p.count), |p.contours|);
            && fresh(table) && table.Length == Room(cs) && eIndex <= table.Length
            && Built(table, eIndex, lmt, tree, old(lmt.table), Elements(InOrder(old(tree.root))), cs, clip)
            && AllRise(EdgesIn(table, eIndex)) && multiset(SegmentsOf(EdgesIn(table, eIndex))) == PolygonSlanted(cs)
            && Described(EdgesIn(table, eIndex), 0, clip, PolygonBounds(cs, clip))
  {
    ghost var count, t0, ys := p.count, lmt.table, Elements(InOrder(tree.root));
    var total := CountTotal(p);
    table := new EdgeNode[total](_ => blank);
    eIndex := 0;
    for c := 0 to |p.contours|
      invariant Repaired(p.contours, count, p.count, c)
      invariant Built(table, eIndex, lmt, tree, t0, ys, Contributing(p.contours, count, c), clip)
    {
      eIndex := NextContour(p, c, table, clip, eIndex, lmt, tree, count, t0, ys);
    }
    ghost var cs := Contributing(p.contours, count, |p.contours|);
    SlotsFit(cs);
    PolygonIsSlanted(cs, clip);
    assert EdgesIn(table, eIndex) == PolygonEdges(cs, clip);
    SlantedAllRise(EdgesIn(table, eIndex), cs);
    ghost var edges, bs := PolygonDescribed(cs, clip);
  }

  /** The edges in the first n slots. */
  ghost function EdgesIn(table: array<EdgeNode>, n: nat): (r: seq<Edge>)
    requires n <= table.Length
    reads table
    ensures |r| == n
  {
    seq(n, i requires 0 <= i < n reads table => table[i].edge)
  }

  /** The counts of the first c contours are repaired, the others still as they were. */
  ghost predicate Repaired(contours: seq<seq<Vertex>>, was: seq<int>, now: seq<int>, c: nat) {
    && |was| == |now| == |contours|
    && (forall i :: 0 <= i < |was| ==> was[i] == |contours[i]| || was[i] == -|contours[i]|)
    && (forall i :: 0 <= i < |now| ==> now[i] == if i < c then |contours[i]| else was[i])
  }

  lemma RepairedStep(contours: seq<seq<Vertex>>, was: seq<int>, now: seq<int>, c: nat)
    requires Repaired(contours, was, now, c) && c < |contours|
    ensures now[c] == was[c]
    ensures Repaired(contours, was, if now[c] < 0 then now[c := -now[c]] else now, c + 1)
  {
  }

  method CountTotal(p: Polygon) returns (total: nat)
    requires p.Valid()
    ensures total == Room(Contributing(p.contours, p.count, |p.contours|))
  {
    total := 0;
    for c := 0 to |p.contours|
      invariant total == Room(Contributing(p.contours, p.count, c))
    {
      ContributingStep(p.contours, p.count, c);
      var k := CountOptimalVertices(p.contours[c], p.count[c]);
      total := total + k;
    }
  }

  // ----- what is filed

  ghost function BoundsOf(bs: seq<(real, Bound)>): (r: seq<Bound>)
    ensures |r| == |bs|
  {
    seq(|bs|, i requires 0 <= i < |bs| => bs[i].1)
  }

  ghost function HeightsOf(bs: seq<(real, Bound)>): set<real> {
    set i | 0 <= i < |bs| :: bs[i].0
  }

  /** Filing keeps the table in order and files every bound once. */
  lemma {:induction false} FiledOk(t: seq<LmtNode>, bs: seq<(real, Bound)>)
    requires LmtOk(t)
    ensures LmtOk(Filed(t, bs))
    ensures multiset(AllBounds(Filed(t, bs))) == multiset(AllBounds(t)) + multiset(BoundsOf(bs))
    ensures Heights(Filed(t, bs)) == Heights(t) + HeightsOf(bs)
  {
    if bs != [] {
      var front, x := bs[..|bs|-1], bs[|bs|-1];
      LastBound(bs);
      HeightsOfStep(front, x);
      FiledOk(t, front);
      InsertOk(Filed(t, front), x.0, x.1);
    }
  }

  lemma LastBound(bs: seq<(real, Bound)>)
    requires bs != []
    ensures bs == bs[..|bs|-1] + [bs[|bs|-1]]
    ensures BoundsOf(bs) == BoundsOf(bs[..|bs|-1]) + [bs[|bs|-1].1]
  {
  }

  lemma HeightsOfStep(bs: seq<(real, Bound)>, x: (real, Bound))
    ensures HeightsOf(bs + [x]) == HeightsOf(bs) + {x.0}
  {
    var cs := bs + [x];
    forall h
      ensures h in HeightsOf(cs) <==> h in HeightsOf(bs) + {x.0}
    {
      if h in HeightsOf(bs) { var i :| 0 <= i < |bs| && bs[i].0 == h; assert cs[i].0 == h; }
      if h == x.0 { assert cs[|bs|].0 == h; }
      if h in HeightsOf(cs) { var i :| 0 <= i < |cs| && cs[i].0 == h; assert i < |bs| ==> bs[i].0 == h; }
    }
  }

  lemma {:induction false} HeightsOfConcat(a: seq<(real, Bound)>, b: seq<(real, Bound)>)
    ensures HeightsOf(a + b) == HeightsOf(a) + HeightsOf(b)
    decreases |b|
  {
    if b == [] {
      assert a + b == a;
    } else {
      HeightsOfConcat(a, b[..|b|-1]);
      HeightsOfStep(a + b[..|b|-1], b[|b|-1]);
      HeightsOfStep(b[..|b|-1], b[|b|-1]);
      assert a + b == a + b[..|b|-1] + [b[|b|-1]];
      assert b == b[..|b|-1] + [b[|b|-1]];
    }
  }

  /** Bounds are filed at heights the scanbeam tree records. */
  lemma {:induction false} PassHeights(v: seq<Vertex>, k: nat, fwd: bool, clip: bool, e: nat)
    requires k <= |v|
    ensures HeightsOf(PassBounds(v, k, fwd, clip, e)) <= Ys(v)
  {
    if k > 0 {
      PassHeights(v, k - 1, fwd, clip, e);
      if IsMin(v, k - 1, fwd) {
        HeightsOfStep(PassBounds(v, k - 1, fwd, clip, e), (v[k - 1].y, MinBound(v, k - 1, fwd, clip, AfterPass(v, k - 1, fwd, e))));
        assert v[k - 1].y in Ys(v);
      }
    }
  }

  lemma {:induction false} PolygonHeights(cs: seq<seq<Vertex>>, clip: bool)
    ensures HeightsOf(PolygonBounds(cs, clip)) <= PolygonYs(cs)
  {
    if cs != [] {
      var front, c := cs[..|cs|-1], cs[|cs|-1];
      var v, e := Optimised(c), SlotsUsed(front);
      PolygonHeights(front, clip);
      PassHeights(v, |v|, true, clip, e);
      PassHeights(v, |v|, false, clip, AfterPass(v, |v|, true, e));
      HeightsOfConcat(PassBounds(v, |v|, true, clip, e), PassBounds(v, |v|, false, clip, AfterPass(v, |v|, true, e)));
      HeightsOfConcat(PolygonBounds(front, clip), ContourBounds(c, clip, e));
    }
  }

  lemma {:induction false} EntriesAll(t: seq<LmtNode>)
    ensures BoundsOf(Entries(t)) == AllBounds(t)
  {
    if t == [] {
    } else {
      var front, n := t[..|t|-1], t[|t|-1];
      EntriesAll(front);
      AllBoundsConcat(front, [n]);
      assert t == front + [n] && [n][1..] == [];
      assert AllBounds([n]) == n.bounds;
      assert BoundsOf(Entries(t)) == BoundsOf(Entries(front)) + BoundsOf(Tagged(n.y, n.bounds));
      assert BoundsOf(Tagged(n.y, n.bounds)) == n.bounds;
    }
  }
}
