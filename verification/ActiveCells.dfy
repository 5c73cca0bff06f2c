/** The other askers: which cells become active, whether a cell has an exposed
    face along an axis, and the element stencil of a cell.  All of them agree
    with the exterior faces. */
module ActiveCells {
  import opened Basics
  import opened GridIndex
  import opened GridZones
  import opened Exterior

  // ----- exposed faces

  /** Some pair of opposite elements along the axis differs. */
  ghost predicate Exposed(d: Dims, active: seq<bool>, p: Node, a: Axis)
    requires |active| == d.Count()
  {
    exists t :: 0 <= t < 4 && Differs(d, active, p, a, t)
  }

  ghost predicate Differs(d: Dims, active: seq<bool>, p: Node, a: Axis, t: nat)
    requires |active| == d.Count() && t < 4
  {
    Meets(d, active, p, Turned(Near(a)[t], a, false)) != Meets(d, active, p, Turned(Near(a)[t], a, true))
  }

  /** Which octants of p hold an active element, by flat lookups with no guard per axis. */
  method FlatElements(d: Dims, active: seq<bool>, p: Node) returns (e: seq<bool>)
    requires |active| == d.Count() && InGrid(d, p)
    ensures |e| == 8 && forall l :: 0 <= l < 8 ==> e[l] == Meets(d, active, p, OctantOf(l))
  {
    e := [];
    for l := 0 to 8
      invariant |e| == l && forall m :: 0 <= m < l ==> e[m] == Meets(d, active, p, OctantOf(m))
    {
      FlatTestIsMeets(d, active, p, OctantOf(l));
      var c := Corner(p, OctantOf(l));
      var n := IjkToN(d, c.i, c.j, c.k);
      e := e + [n != -1 && IsElement(d, Decode(d, n)) && active[n]];
    }
  }

  /** The t-th pair of opposite elements of an axis, by their places in the natural order. */
  lemma OppositeAt(a: Axis, t: nat, near: nat, far: nat)
    requires t < 4
    requires near == (match a case X => 2 * t case Y => if t < 2 then t else t + 2 case Z => t)
    requires far == near + (match a case X => 1 case Y => 2 case Z => 4)
    ensures Opposite(a, t, near, far)
  {
  }

  /** The check for leaky boundaries. */
  method CheckLeakyForFace(d: Dims, active: seq<bool>, p: Node, a: Axis) returns (ok: bool)
    requires |active| == d.Count() && InGrid(d, p)
    ensures ok <==> Exposed(d, active, p, a)
  {
    var e := FlatElements(d, active, p);
    ok := false;
    for t := 0 to 4
      invariant ok <==> exists u :: 0 <= u < t && Differs(d, active, p, a, u)
    {
      var near: nat := match a case X => 2 * t case Y => if t < 2 then t else t + 2 case Z => t;
      var far := near + match a case X => 1 case Y => 2 case Z => 4;
      OppositeAt(a, t, near, far);
      assert Differs(d, active, p, a, t) == (e[near] != e[far]);
      ok := ok || e[near] != e[far];
    }
  }

  lemma ProductPositive(a: real, b: real)
    requires a > 0.0 && b > 0.0
    ensures a * b > 0.0
  {
  }

  lemma ExtentPositive(c: seq<real>, i: nat, far: bool)
    requires Increasing(c) && i < |c| && (if far then i < |c| - 1 else i > 0)
    ensures Extent(c, i, far) > 0.0
  {
    if far { assert c[i] < c[i + 1]; } else { assert c[i - 1] < c[i]; }
  }

  /** Across the axis, an element leaves room on the side it is on. */
  lemma RoomAcross(g: Grid, p: Node, o: Octant, a: Axis, side: bool)
    requires g.Valid() && InGrid(g.Dims(), p) && IsElement(g.Dims(), Corner(p, Turned(o, a, side)))
    ensures a != X ==> Extent(g.xs, p.i, o.x) > 0.0
    ensures a != Y ==> Extent(g.ys, p.j, o.y) > 0.0
    ensures a != Z ==> Extent(g.zs, p.k, o.z) > 0.0
  {
    if a != X { ExtentPositive(g.xs, p.i, o.x); }
    if a != Y { ExtentPositive(g.ys, p.j, o.y); }
    if a != Z { ExtentPositive(g.zs, p.k, o.z); }
  }

  /** Where there is an element there is room for a face. */
  lemma QuarterPositive(g: Grid, p: Node, o: Octant, a: Axis, side: bool)
    requires g.Valid() && InGrid(g.Dims(), p) && IsElement(g.Dims(), Corner(p, Turned(o, a, side)))
    ensures Quarter(g, p, o, a) > 0.0
  {
    RoomAcross(g, p, o, a, side);
    ProductsPositive(Extent(g.xs, p.i, o.x), Extent(g.ys, p.j, o.y), Extent(g.zs, p.k, o.z));
  }

  lemma ProductsPositive(x: real, y: real, z: real)
    ensures y > 0.0 && z > 0.0 ==> y * z > 0.0
    ensures x > 0.0 && z > 0.0 ==> x * z > 0.0
    ensures x > 0.0 && y > 0.0 ==> x * y > 0.0
  {
    if y > 0.0 && z > 0.0 { ProductPositive(y, z); }
    if x > 0.0 && z > 0.0 { ProductPositive(x, z); }
    if x > 0.0 && y > 0.0 { ProductPositive(x, y); }
  }

  lemma {:induction false} AreaMeansBare(g: Grid, active: seq<bool>, p: Node, a: Axis, down: bool, n: nat)
    requires g.Valid() && InGrid(g.Dims(), p) && |active| == g.Dims().Count() && n <= 4
    ensures FaceArea(g, active, p, a, down, n) >= 0.0
    ensures FaceArea(g, active, p, a, down, n) > 0.0 <==> exists t :: 0 <= t < n && Bare(g.Dims(), active, p, Near(a)[t], a, down)
  {
    if n > 0 {
      AreaMeansBare(g, active, p, a, down, n - 1);
      var o := Near(a)[n - 1];
      if Bare(g.Dims(), active, p, o, a, down) { QuarterPositive(g, p, o, a, down); }
    }
  }

  function Faces(e: ExteriorCell, a: Axis): (Face, Face) {
    match a
    case X => (e.xn, e.xp)
    case Y => (e.yn, e.yp)
    case Z => (e.zn, e.zp)
  }

  // ----- the recorded surface is closed

  /** The area a cell records for the face that looks down or up an axis; a cell without exterior faces has none. */
  function RecordedArea(ext: Option<ExteriorCell>, a: Axis, down: bool): real {
    match ext
    case None => 0.0
    case Some(e) => if down then Faces(e, a).0.area else Faces(e, a).1.area
  }

  lemma RecordedIsFaceArea(g: Grid, active: seq<bool>, p: Node, a: Axis, down: bool)
    requires g.Valid() && InGrid(g.Dims(), p) && |active| == g.Dims().Count()
    ensures RecordedArea(ExteriorOf(g, active, p), a, down) == FaceArea(g, active, p, a, down, 4)
  {
    AreaMeansBare(g, active, p, a, down, 4);
    if t :| 0 <= t < 4 && Bare(g.Dims(), active, p, Near(a)[t], a, down) {
      SomeOctant(g.Dims(), active, p, Turned(Near(a)[t], a, down));
    }
  }

  /** The recorded areas of the first n nodes of the row through p along axis a. */
  ghost function RecordedRow(d: Dims, ext: array<Option<ExteriorCell>>, p: Node, a: Axis, down: bool, n: nat): real
    reads ext
    requires InGrid(d, OnRow(p, a, 0)) && ext.Length == d.Count() && n <= Length(d, a)
  {
    if n == 0 then 0.0
    else
      var q := OnRow(p, a, n - 1);
      FlatInRange(d, q);
      RecordedRow(d, ext, p, a, down, n - 1) + RecordedArea(ext[Flat(d, q.i, q.j, q.k)], a, down)
  }

  lemma {:induction false} RecordedRowIs(g: Grid, active: seq<bool>, ext: array<Option<ExteriorCell>>, p: Node, a: Axis, down: bool, n: nat)
    requires g.Valid() && |active| == g.Dims().Count() && ExteriorUpTo(g, active, ext, ext.Length)
    requires InGrid(g.Dims(), OnRow(p, a, 0)) && n <= Length(g.Dims(), a)
    ensures RecordedRow(g.Dims(), ext, p, a, down, n) == RowArea(g, active, p, a, down, 4, n)
  {
    if n > 0 {
      var q := OnRow(p, a, n - 1);
      RecordedRowIs(g, active, ext, p, a, down, n - 1);
      FlatDecode(g.Dims(), q);
      RecordedIsFaceArea(g, active, q, a, down);
    }
  }

  /** Along every row of nodes, the recorded areas of the faces that look down the axis and of those that look up it have
      the same sum. */
  lemma RecordedSurfaceClosed(g: Grid, active: seq<bool>, ext: array<Option<ExteriorCell>>, p: Node, a: Axis)
    requires g.Valid() && |active| == g.Dims().Count() && ExteriorUpTo(g, active, ext, ext.Length)
    requires InGrid(g.Dims(), OnRow(p, a, 0))
    ensures var n := Length(g.Dims(), a);
            RecordedRow(g.Dims(), ext, p, a, true, n) == RecordedRow(g.Dims(), ext, p, a, false, n)
  {
    RecordedRowIs(g, active, ext, p, a, true, Length(g.Dims(), a));
    RecordedRowIs(g, active, ext, p, a, false, Length(g.Dims(), a));
    SurfaceClosed(g, active, p, a);
  }

  // ----- marked faces are exposed ones

  lemma DiffersMeansBare(d: Dims, active: seq<bool>, p: Node, a: Axis, t: nat)
    requires |active| == d.Count() && t < 4
    ensures Differs(d, active, p, a, t) <==>
              Bare(d, active, p, Near(a)[t], a, true) || Bare(d, active, p, Near(a)[t], a, false)
    ensures Differs(d, active, p, a, t) ==> Touched(d, active, p)
  {
    SomeOctant(d, active, p, Turned(Near(a)[t], a, false));
    SomeOctant(d, active, p, Turned(Near(a)[t], a, true));
  }

  lemma ExposedMeansArea(g: Grid, active: seq<bool>, p: Node, a: Axis)
    requires g.Valid() && InGrid(g.Dims(), p) && |active| == g.Dims().Count()
    ensures Exposed(g.Dims(), active, p, a) <==>
              FaceArea(g, active, p, a, true, 4) > 0.0 || FaceArea(g, active, p, a, false, 4) > 0.0
    ensures Exposed(g.Dims(), active, p, a) ==> Touched(g.Dims(), active, p)
  {
    AreaMeansBare(g, active, p, a, true, 4);
    AreaMeansBare(g, active, p, a, false, 4);
    forall t: nat | t < 4
      ensures Differs(g.Dims(), active, p, a, t) <==>
                Bare(g.Dims(), active, p, Near(a)[t], a, true) || Bare(g.Dims(), active, p, Near(a)[t], a, false)
      ensures Differs(g.Dims(), active, p, a, t) ==> Touched(g.Dims(), active, p)
    {
      DiffersMeansBare(g.Dims(), active, p, a, t);
    }
  }

  /** The unguarded check says OK exactly when the cell has a marked exterior face on that axis. */
  lemma LeakyMeansMarked(g: Grid, active: seq<bool>, p: Node, a: Axis)
    requires g.Valid() && InGrid(g.Dims(), p) && |active| == g.Dims().Count()
    ensures Exposed(g.Dims(), active, p, a) <==>
              ExteriorOf(g, active, p).Some? &&
              (Faces(ExteriorOf(g, active, p).value, a).0.marked || Faces(ExteriorOf(g, active, p).value, a).1.marked)
  {
    ExposedMeansArea(g, active, p, a);
  }

  lemma SomeOctant(d: Dims, active: seq<bool>, p: Node, o: Octant)
    requires |active| == d.Count()
    ensures Meets(d, active, p, o) ==> Touched(d, active, p)
  {
    var l := (if o.x then 1 else 0) + (if o.y then 2 else 0) + (if o.z then 4 else 0);
    assert OctantOf(l) == o;
  }

  // ----- active cells, scattered from the elements

  /** Element m is active and p is one of its eight nodes. */
  ghost predicate Scatters(d: Dims, active: seq<bool>, m: nat, p: Node)
    requires d.Valid() && |active| == d.Count() && m < d.Count()
  {
    IsElement(d, Decode(d, m)) && active[m] && exists l :: 0 <= l < 8 && Corner(p, OctantOf(l)) == Decode(d, m)
  }

  ghost predicate ScatteredBefore(d: Dims, active: seq<bool>, m: nat, p: Node)
    requires d.Valid() && |active| == d.Count() && m <= d.Count()
  {
    exists k :: 0 <= k < m && Scatters(d, active, k, p)
  }

  /** Scattering from elements to nodes and gathering at a node from its elements mark the same nodes. */
  lemma ScatterIsGather(d: Dims, active: seq<bool>, p: Node)
    requires d.Valid() && |active| == d.Count() && InGrid(d, p)
    ensures ScatteredBefore(d, active, d.Count(), p) <==> Touched(d, active, p)
  {
    if ScatteredBefore(d, active, d.Count(), p) {
      var m :| 0 <= m < d.Count() && Scatters(d, active, m, p);
      var l :| 0 <= l < 8 && Corner(p, OctantOf(l)) == Decode(d, m);
      DecodeFlat(d, m);
      assert Meets(d, active, p, OctantOf(l));
    }
    if Touched(d, active, p) {
      var l :| 0 <= l < 8 && Meets(d, active, p, OctantOf(l));
      var c := Corner(p, OctantOf(l));
      FlatDecode(d, c);
      assert Scatters(d, active, Flat(d, c.i, c.j, c.k), p);
    }
  }

  /** The nodes of an element with lower corner c. */
  function NodeOf(c: Node, l: nat): Node
    requires l < 8
  {
    var o := OctantOf(l);
    Node(if o.x then c.i else c.i + 1, if o.y then c.j else c.j + 1, if o.z then c.k else c.k + 1)
  }

  method SetActiveCells(d: Dims, active: seq<bool>, cellActive: array<bool>) returns (some: bool)
    requires d.Valid() && |active| == d.Count() == cellActive.Length
    modifies cellActive
    ensures forall n :: 0 <= n < d.Count() ==>
              cellActive[n] == (old(cellActive[n]) || Touched(d, active, Decode(d, n)))
    ensures some <==> exists m :: 0 <= m < d.Count() && IsElement(d, Decode(d, m)) && active[m]
  {
    some := false;
    for i := 0 to d.Count()
      invariant forall n :: 0 <= n < d.Count() ==>
                  cellActive[n] == (old(cellActive[n]) || ScatteredBefore(d, active, i, Decode(d, n)))
      invariant some <==> exists m :: 0 <= m < i && IsElement(d, Decode(d, m)) && active[m]
    {
      if IsElement(d, Decode(d, i)) && active[i] {
        MarkNodes(d, active, cellActive, i);
        some := true;
      }
    }
    forall n | 0 <= n < d.Count()
      ensures ScatteredBefore(d, active, d.Count(), Decode(d, n)) <==> Touched(d, active, Decode(d, n))
    {
      DecodeFlat(d, n);
      ScatterIsGather(d, active, Decode(d, n));
    }
  }

  method MarkNodes(d: Dims, active: seq<bool>, cellActive: array<bool>, m: nat)
    requires d.Valid() && |active| == d.Count() == cellActive.Length
    requires m < d.Count() && IsElement(d, Decode(d, m)) && active[m]
    modifies cellActive
    ensures forall n :: 0 <= n < d.Count() ==>
              cellActive[n] == (old(cellActive[n]) || Scatters(d, active, m, Decode(d, n)))
  {
    var c := Decode(d, m);
    for l := 0 to 8
      invariant forall n :: 0 <= n < d.Count() ==>
                  cellActive[n] == (old(cellActive[n]) || exists k :: 0 <= k < l && Decode(d, n) == NodeOf(c, k))
    {
      var p := NodeOf(c, l);
      FlatDecode(d, p);
      var n := IjkToN(d, p.i, p.j, p.k);
      forall q | 0 <= q < d.Count() && Decode(d, q) == p ensures q == n { DecodeFlat(d, q); }
      cellActive[n] := true;
    }
    forall n | 0 <= n < d.Count()
      ensures (exists k :: 0 <= k < 8 && Decode(d, n) == NodeOf(c, k)) <==> Scatters(d, active, m, Decode(d, n))
    {
      NodesAndCorners(Decode(d, n), c);
    }
  }

  lemma NodesAndCorners(p: Node, c: Node)
    ensures (exists k :: 0 <= k < 8 && p == NodeOf(c, k)) <==> (exists l :: 0 <= l < 8 && Corner(p, OctantOf(l)) == c)
  {
    if k :| 0 <= k < 8 && p == NodeOf(c, k) { assert Corner(p, OctantOf(k)) == c; }
    if l :| 0 <= l < 8 && Corner(p, OctantOf(l)) == c { assert p == NodeOf(c, l); }
  }

  // ----- the element stencil of a cell

  /** Guarded below only; an element lookup above the last node finds a node without an element. */
  method EltNeighbors(d: Dims, active: seq<bool>, p: Node) returns (stencil: seq<int>)
    requires |active| == d.Count() && InGrid(d, p)
    ensures Stencil(d, active, p, stencil)
  {
    stencil := [];
    for l := 0 to 8
      invariant |stencil| == l
      invariant forall m :: 0 <= m < l ==>
        (stencil[m] >= 0 <==> Meets(d, active, p, OctantOf(m))) &&
        (stencil[m] >= 0 ==> var c := Corner(p, OctantOf(m)); stencil[m] == Flat(d, c.i, c.j, c.k)) &&
        (stencil[m] < 0 ==> stencil[m] == -1)
    {
      var c, s := Corner(p, OctantOf(l)), -1;
      if c.i >= 0 && c.j >= 0 && c.k >= 0 {
        FlatDecode(d, c);
        var m := IjkToN(d, c.i, c.j, c.k);
        if IsElement(d, Decode(d, m)) && active[m] {
          s := m;
        }
      }
      stencil := stencil + [s];
    }
  }
}
