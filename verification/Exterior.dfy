/** Faces of cells on the outside of the active region, and the other three
    places that ask which elements meet at a node. */
module Exterior {
  import opened Basics
  import opened GridIndex
  import opened GridZones

  /** One side of one axis. */
  datatype Face = Face(marked: bool, area: real)

  datatype ExteriorCell = ExteriorCell(xn: Face, xp: Face, yn: Face, yp: Face, zn: Face, zp: Face)

  datatype Axis = X | Y | Z

  // ----- the faces, axis by axis

  function Along(o: Octant, a: Axis): bool {
    match a
    case X => o.x
    case Y => o.y
    case Z => o.z
  }

  function Turned(o: Octant, a: Axis, far: bool): Octant {
    match a
    case X => o.(x := far)
    case Y => o.(y := far)
    case Z => o.(z := far)
  }

  /** The part of node i's zone on one side of the node. */
  function Extent(c: seq<real>, i: nat, far: bool): real
    requires i < |c|
  {
    if far then Hi(c, i) - c[i] else c[i] - Lo(c, i)
  }

  /** The quarter of the cell's face across axis a that borders octant o. */
  function Quarter(g: Grid, p: Node, o: Octant, a: Axis): real
    requires InGrid(g.Dims(), p)
  {
    match a
    case X => Extent(g.ys, p.j, o.y) * Extent(g.zs, p.k, o.z)
    case Y => Extent(g.xs, p.i, o.x) * Extent(g.zs, p.k, o.z)
    case Z => Extent(g.xs, p.i, o.x) * Extent(g.ys, p.j, o.y)
  }

  /** The four octants on the near side of axis a. */
  function Near(a: Axis): seq<Octant> {
    match a
    case X => [Octant(false, false, false), Octant(false, true, false), Octant(false, false, true), Octant(false, true, true)]
    case Y => [Octant(false, false, false), Octant(true, false, false), Octant(false, false, true), Octant(true, false, true)]
    case Z => [Octant(false, false, false), Octant(true, false, false), Octant(false, true, false), Octant(true, true, false)]
  }

  /** The element on side `side` of axis a is active and the one opposite it is not. */
  predicate Bare(d: Dims, active: seq<bool>, p: Node, o: Octant, a: Axis, side: bool)
    requires |active| == d.Count()
  {
    !Meets(d, active, p, Turned(o, a, !side)) && Meets(d, active, p, Turned(o, a, side))
  }

  /** The exterior area of a cell that faces down (inside is on the far side) or up axis a, over the first t quarters. */
  function FaceArea(g: Grid, active: seq<bool>, p: Node, a: Axis, down: bool, t: nat): real
    requires InGrid(g.Dims(), p) && |active| == g.Dims().Count() && t <= 4
  {
    if t == 0 then 0.0
    else
      FaceArea(g, active, p, a, down, t - 1) +
      if Bare(g.Dims(), active, p, Near(a)[t - 1], a, down) then Quarter(g, p, Near(a)[t - 1], a) else 0.0
  }

  // ----- the surface is closed

  /** The node at position i of the row through p along axis a. */
  function OnRow(p: Node, a: Axis, i: int): Node {
    match a
    case X => p.(i := i)
    case Y => p.(j := i)
    case Z => p.(k := i)
  }

  function Length(d: Dims, a: Axis): nat {
    match a
    case X => d.nx
    case Y => d.ny
    case Z => d.nz
  }

  ghost function RowArea(g: Grid, active: seq<bool>, p: Node, a: Axis, down: bool, t: nat, n: nat): real
    requires InGrid(g.Dims(), OnRow(p, a, 0)) && |active| == g.Dims().Count() && t <= 4 && n <= Length(g.Dims(), a)
  {
    if n == 0 then 0.0
    else RowArea(g, active, p, a, down, t, n - 1) + FaceArea(g, active, OnRow(p, a, n - 1), a, down, t)
  }

  /** What is still open after n nodes: the quarters whose next element is active. */
  ghost function OpenArea(g: Grid, active: seq<bool>, p: Node, a: Axis, t: nat, n: nat): real
    requires InGrid(g.Dims(), OnRow(p, a, 0)) && |active| == g.Dims().Count() && t <= 4
  {
    if t == 0 then 0.0
    else
      OpenArea(g, active, p, a, t - 1, n) +
      if n > 0 && Meets(g.Dims(), active, OnRow(p, a, n - 1), Turned(Near(a)[t - 1], a, true))
      then Quarter(g, OnRow(p, a, 0), Near(a)[t - 1], a) else 0.0
  }

  lemma SameQuarter(g: Grid, p: Node, a: Axis, o: Octant, n: nat)
    requires InGrid(g.Dims(), OnRow(p, a, 0)) && n < Length(g.Dims(), a)
    ensures Quarter(g, OnRow(p, a, n), o, a) == Quarter(g, OnRow(p, a, 0), o, a)
  {
  }

  /** The quarters of a row line up: same size all along, and the far element of one node is the near one of the next. */
  lemma RowNeighbours(g: Grid, active: seq<bool>, p: Node, a: Axis, o: Octant, n: nat)
    requires InGrid(g.Dims(), OnRow(p, a, 0)) && |active| == g.Dims().Count() && n < Length(g.Dims(), a)
    ensures Quarter(g, OnRow(p, a, n), o, a) == Quarter(g, OnRow(p, a, 0), o, a)
    ensures Meets(g.Dims(), active, OnRow(p, a, n), Turned(o, a, false)) <==>
              n > 0 && Meets(g.Dims(), active, OnRow(p, a, n - 1), Turned(o, a, true))
  {
    SameQuarter(g, p, a, o, n);
    SameCorner(p, a, o, n);
  }

  lemma SameCorner(p: Node, a: Axis, o: Octant, n: nat)
    ensures Corner(OnRow(p, a, n), Turned(o, a, false)) == Corner(OnRow(p, a, n - 1), Turned(o, a, true))
    ensures OnRow(Corner(OnRow(p, a, n), Turned(o, a, false)), a, n - 1) == Corner(OnRow(p, a, n), Turned(o, a, false))
  {
  }

  lemma {:induction false} OpenStep(g: Grid, active: seq<bool>, p: Node, a: Axis, t: nat, n: nat)
    requires InGrid(g.Dims(), OnRow(p, a, 0)) && |active| == g.Dims().Count() && t <= 4 && n < Length(g.Dims(), a)
    ensures InGrid(g.Dims(), OnRow(p, a, n))
    ensures OpenArea(g, active, p, a, t, n + 1) ==
            OpenArea(g, active, p, a, t, n) + FaceArea(g, active, OnRow(p, a, n), a, true, t)
                                            - FaceArea(g, active, OnRow(p, a, n), a, false, t)
  {
    if t > 0 {
      OpenStep(g, active, p, a, t - 1, n);
      var o := Near(a)[t - 1];
      RowNeighbours(g, active, p, a, o, n);
      OctantStep(g, active, p, a, t - 1, n, o);
    }
  }

  lemma OctantStep(g: Grid, active: seq<bool>, p: Node, a: Axis, t: nat, n: nat, o: Octant)
    requires InGrid(g.Dims(), OnRow(p, a, 0)) && |active| == g.Dims().Count() && t < 4 && n < Length(g.Dims(), a)
    requires InGrid(g.Dims(), OnRow(p, a, n)) && o == Near(a)[t]
    requires Quarter(g, OnRow(p, a, n), o, a) == Quarter(g, OnRow(p, a, 0), o, a)
    requires Meets(g.Dims(), active, OnRow(p, a, n), Turned(o, a, false)) <==>
              n > 0 && Meets(g.Dims(), active, OnRow(p, a, n - 1), Turned(o, a, true))
    ensures OpenArea(g, active, p, a, t + 1, n + 1) - OpenArea(g, active, p, a, t, n + 1) ==
            OpenArea(g, active, p, a, t + 1, n) - OpenArea(g, active, p, a, t, n)
            + (FaceArea(g, active, OnRow(p, a, n), a, true, t + 1) - FaceArea(g, active, OnRow(p, a, n), a, true, t))
            - (FaceArea(g, active, OnRow(p, a, n), a, false, t + 1) - FaceArea(g, active, OnRow(p, a, n), a, false, t))
  {
  }

  lemma {:induction false} RowBalance(g: Grid, active: seq<bool>, p: Node, a: Axis, t: nat, n: nat)
    requires InGrid(g.Dims(), OnRow(p, a, 0)) && |active| == g.Dims().Count() && t <= 4 && n <= Length(g.Dims(), a)
    ensures RowArea(g, active, p, a, true, t, n) - RowArea(g, active, p, a, false, t, n) == OpenArea(g, active, p, a, t, n)
  {
    if n == 0 {
      NothingOpen(g, active, p, a, t, 0);
    } else {
      RowBalance(g, active, p, a, t, n - 1);
      OpenStep(g, active, p, a, t, n - 1);
    }
  }

  lemma {:induction false} NothingOpen(g: Grid, active: seq<bool>, p: Node, a: Axis, t: nat, n: nat)
    requires InGrid(g.Dims(), OnRow(p, a, 0)) && |active| == g.Dims().Count() && t <= 4
    requires n == 0 || n == Length(g.Dims(), a)
    ensures OpenArea(g, active, p, a, t, n) == 0.0
  {
    if t > 0 { NothingOpen(g, active, p, a, t - 1, n); }
  }

  /** Along every row of nodes the faces looking down the axis have the same total area as those looking up it. */
  lemma SurfaceClosed(g: Grid, active: seq<bool>, p: Node, a: Axis)
    requires InGrid(g.Dims(), OnRow(p, a, 0)) && |active| == g.Dims().Count()
    ensures var n := Length(g.Dims(), a);
            RowArea(g, active, p, a, true, 4, n) == RowArea(g, active, p, a, false, 4, n)
  {
    RowBalance(g, active, p, a, 4, Length(g.Dims(), a));
    NothingOpen(g, active, p, a, 4, Length(g.Dims(), a));
  }

  // ----- the four places that look at the elements around a node

  /** Octants in natural order. */
  function OctantOf(l: nat): Octant
    requires l < 8
  {
    Octant(l % 2 == 1, (l / 2) % 2 == 1, l >= 4)
  }

  /** e holds, for each octant, the number of its active element, or -1. */
  ghost predicate Stencil(d: Dims, active: seq<bool>, p: Node, e: seq<int>)
    requires |active| == d.Count()
  {
    |e| == 8 && forall l :: 0 <= l < 8 ==>
      (e[l] >= 0 <==> Meets(d, active, p, OctantOf(l))) &&
      (e[l] >= 0 ==> var c := Corner(p, OctantOf(l)); e[l] == Flat(d, c.i, c.j, c.k)) &&
      (e[l] < 0 ==> e[l] == -1)
  }

  /** The element of one octant, guarded on every axis, or -1 if there is none or it is inactive. */
  method GuardedElement(d: Dims, active: seq<bool>, p: Node, o: Octant) returns (e: int)
    requires |active| == d.Count() && InGrid(d, p)
    ensures e >= 0 <==> Meets(d, active, p, o)
    ensures e >= 0 ==> var c := Corner(p, o); e == Flat(d, c.i, c.j, c.k)
    ensures e < 0 ==> e == -1
  {
    e := -1;
    var c := Corner(p, o);
    if (if o.x then p.i < d.nx - 1 else p.i > 0) && (if o.y then p.j < d.ny - 1 else p.j > 0)
      && (if o.z then p.k < d.nz - 1 else p.k > 0)
    {
      FlatDecode(d, c);
      e := IjkToN(d, c.i, c.j, c.k);
    }
    if e >= 0 && !active[e] {
      e := -1;
    }
  }

  method ElementsAround(d: Dims, active: seq<bool>, p: Node) returns (e: seq<int>)
    requires |active| == d.Count() && InGrid(d, p)
    ensures Stencil(d, active, p, e)
  {
    e := [];
    for l := 0 to 8
      invariant |e| == l
      invariant forall m :: 0 <= m < l ==>
        (e[m] >= 0 <==> Meets(d, active, p, OctantOf(m))) &&
        (e[m] >= 0 ==> var c := Corner(p, OctantOf(m)); e[m] == Flat(d, c.i, c.j, c.k)) &&
        (e[m] < 0 ==> e[m] == -1)
    {
      var n := GuardedElement(d, active, p, OctantOf(l));
      e := e + [n];
    }
  }

  /** A cell is exterior material if some element around it is active. */
  ghost predicate Touched(d: Dims, active: seq<bool>, p: Node)
    requires |active| == d.Count()
  {
    exists l :: 0 <= l < 8 && Meets(d, active, p, OctantOf(l))
  }

  function FaceOf(area: real): Face {
    if area > 0.0 then Face(true, area) else Face(false, 0.0)
  }

  ghost function ExteriorOf(g: Grid, active: seq<bool>, p: Node): Option<ExteriorCell>
    requires InGrid(g.Dims(), p) && |active| == g.Dims().Count()
  {
    if !Touched(g.Dims(), active, p) then None
    else Some(ExteriorCell(
      FaceOf(FaceArea(g, active, p, X, true, 4)), FaceOf(FaceArea(g, active, p, X, false, 4)),
      FaceOf(FaceArea(g, active, p, Y, true, 4)), FaceOf(FaceArea(g, active, p, Y, false, 4)),
      FaceOf(FaceArea(g, active, p, Z, true, 4)), FaceOf(FaceArea(g, active, p, Z, false, 4))))
  }

  /** The exterior faces of one cell from the elements around it and the quarters of its three face planes. */
  method CellExterior(g: Grid, active: seq<bool>, p: Node) returns (ext: Option<ExteriorCell>)
    requires InGrid(g.Dims(), p) && |active| == g.Dims().Count()
    ensures ext == ExteriorOf(g, active, p)
  {
    var e := ElementsAround(g.Dims(), active, p);
    var exterior := false;
    for l := 0 to 8
      invariant exterior <==> exists m :: 0 <= m < l && e[m] >= 0
    {
      if e[l] >= 0 {
        exterior := true;
      }
    }
    if !exterior {
      return None;
    }
    var xn, xp := XAreas(g, active, p, e);
    var yn, yp := YAreas(g, active, p, e);
    var zn, zp := ZAreas(g, active, p, e);
    ext := Some(ExteriorCell(FaceOf(xn), FaceOf(xp), FaceOf(yn), FaceOf(yp), FaceOf(zn), FaceOf(zp)));
  }

  ghost function QuarterArea(g: Grid, active: seq<bool>, p: Node, a: Axis, down: bool, t: nat): real
    requires InGrid(g.Dims(), p) && |active| == g.Dims().Count() && t < 4
  {
    if Bare(g.Dims(), active, p, Near(a)[t], a, down) then Quarter(g, p, Near(a)[t], a) else 0.0
  }

  lemma FourQuarters(g: Grid, active: seq<bool>, p: Node, a: Axis, down: bool)
    requires InGrid(g.Dims(), p) && |active| == g.Dims().Count()
    ensures FaceArea(g, active, p, a, down, 4) ==
            QuarterArea(g, active, p, a, down, 0) + QuarterArea(g, active, p, a, down, 1)
            + QuarterArea(g, active, p, a, down, 2) + QuarterArea(g, active, p, a, down, 3)
  {
    assert FaceArea(g, active, p, a, down, 0) == 0.0;
    assert FaceArea(g, active, p, a, down, 1) == QuarterArea(g, active, p, a, down, 0);
    assert FaceArea(g, active, p, a, down, 2) == FaceArea(g, active, p, a, down, 1) + QuarterArea(g, active, p, a, down, 1);
    assert FaceArea(g, active, p, a, down, 3) == FaceArea(g, active, p, a, down, 2) + QuarterArea(g, active, p, a, down, 2);
  }

  /** Reading the t-th pair of opposite elements of an axis off the stencil. */
  lemma ReadBare(d: Dims, active: seq<bool>, p: Node, e: seq<int>, a: Axis, t: nat, near: nat, far: nat)
    requires |active| == d.Count() && Stencil(d, active, p, e) && t < 4 && near < 8 && far < 8
    requires Turned(Near(a)[t], a, false) == OctantOf(near) && Turned(Near(a)[t], a, true) == OctantOf(far)
    ensures Bare(d, active, p, Near(a)[t], a, true) <==> e[near] < 0 && e[far] >= 0
    ensures Bare(d, active, p, Near(a)[t], a, false) <==> e[far] < 0 && e[near] >= 0
  {
  }

  /** The places, in the stencil, of the t-th pair of opposite elements of an axis. */
  ghost predicate Opposite(a: Axis, t: nat, near: nat, far: nat)
    requires t < 4
  {
    && near < 8 && far < 8
    && Turned(Near(a)[t], a, false) == OctantOf(near) && Turned(Near(a)[t], a, true) == OctantOf(far)
  }

  ghost predicate Opposites(a: Axis, near: seq<nat>, far: seq<nat>) {
    && |near| == |far| == 4
    && Opposite(a, 0, near[0], far[0]) && Opposite(a, 1, near[1], far[1])
    && Opposite(a, 2, near[2], far[2]) && Opposite(a, 3, near[3], far[3])
  }

  ghost predicate Quarters(g: Grid, p: Node, a: Axis, area: seq<real>)
    requires InGrid(g.Dims(), p)
  {
    && |area| == 4
    && area[0] == Quarter(g, p, Near(a)[0], a) && area[1] == Quarter(g, p, Near(a)[1], a)
    && area[2] == Quarter(g, p, Near(a)[2], a) && area[3] == Quarter(g, p, Near(a)[3], a)
  }

  lemma ReadQuarter(g: Grid, active: seq<bool>, p: Node, a: Axis, e: seq<int>, t: nat, near: nat, far: nat, area: real)
    requires InGrid(g.Dims(), p) && |active| == g.Dims().Count() && Stencil(g.Dims(), active, p, e) && t < 4
    requires Opposite(a, t, near, far) && area == Quarter(g, p, Near(a)[t], a)
    ensures QuarterArea(g, active, p, a, true, t) == if e[near] < 0 && e[far] >= 0 then area else 0.0
    ensures QuarterArea(g, active, p, a, false, t) == if e[far] < 0 && e[near] >= 0 then area else 0.0
  {
    ReadBare(g.Dims(), active, p, e, a, t, near, far);
  }

  /** The area of an axis in one direction, from its four pairs of opposite elements and their quarters: those where the
      first element is not active and the second is. */
  method DirectedArea(e: seq<int>, off: seq<nat>, on: seq<nat>, area: seq<real>,
                      ghost g: Grid, ghost active: seq<bool>, ghost p: Node, ghost a: Axis, ghost down: bool)
    returns (total: real)
    requires InGrid(g.Dims(), p) && |active| == g.Dims().Count() && Stencil(g.Dims(), active, p, e)
    requires (if down then Opposites(a, off, on) else Opposites(a, on, off)) && Quarters(g, p, a, area)
    ensures total == FaceArea(g, active, p, a, down, 4)
  {
    FourQuarters(g, active, p, a, down);
    ghost var near, far := if down then off else on, if down then on else off;
    ReadQuarter(g, active, p, a, e, 0, near[0], far[0], area[0]);
    ReadQuarter(g, active, p, a, e, 1, near[1], far[1], area[1]);
    ReadQuarter(g, active, p, a, e, 2, near[2], far[2], area[2]);
    ReadQuarter(g, active, p, a, e, 3, near[3], far[3], area[3]);
    total := 0.0;
    if e[off[0]] < 0 && e[on[0]] >= 0 { total := total + area[0]; }
    if e[off[1]] < 0 && e[on[1]] >= 0 { total := total + area[1]; }
    if e[off[2]] < 0 && e[on[2]] >= 0 { total := total + area[2]; }
    if e[off[3]] < 0 && e[on[3]] >= 0 { total := total + area[3]; }
  }

  method XAreas(g: Grid, ghost active: seq<bool>, p: Node, e: seq<int>) returns (xn: real, xp: real)
    requires InGrid(g.Dims(), p) && |active| == g.Dims().Count() && Stencil(g.Dims(), active, p, e)
    ensures xn == FaceArea(g, active, p, X, true, 4) && xp == FaceArea(g, active, p, X, false, 4)
  {
    var area := XQuarters(g, p);
    xn := DirectedArea(e, [0, 2, 4, 6], [1, 3, 5, 7], area, g, active, p, X, true);
    xp := DirectedArea(e, [1, 3, 5, 7], [0, 2, 4, 6], area, g, active, p, X, false);
  }

  method XQuarters(g: Grid, p: Node) returns (area: seq<real>)
    requires InGrid(g.Dims(), p)
    ensures Quarters(g, p, X, area)
  {
    var y, y1, y2 := g.ys[p.j], Lo(g.ys, p.j), Hi(g.ys, p.j);
    var z, z1, z2 := g.zs[p.k], Lo(g.zs, p.k), Hi(g.zs, p.k);
    area := [(y - y1) * (z - z1), (y2 - y) * (z - z1),
             (y - y1) * (z2 - z), (y2 - y) * (z2 - z)];
  }

  method YAreas(g: Grid, ghost active: seq<bool>, p: Node, e: seq<int>) returns (yn: real, yp: real)
    requires InGrid(g.Dims(), p) && |active| == g.Dims().Count() && Stencil(g.Dims(), active, p, e)
    ensures yn == FaceArea(g, active, p, Y, true, 4) && yp == FaceArea(g, active, p, Y, false, 4)
  {
    var area := YQuarters(g, p);
    yn := DirectedArea(e, [0, 1, 4, 5], [2, 3, 6, 7], area, g, active, p, Y, true);
    yp := DirectedArea(e, [2, 3, 6, 7], [0, 1, 4, 5], area, g, active, p, Y, false);
  }

  method YQuarters(g: Grid, p: Node) returns (area: seq<real>)
    requires InGrid(g.Dims(), p)
    ensures Quarters(g, p, Y, area)
  {
    var x, x1, x2 := g.xs[p.i], Lo(g.xs, p.i), Hi(g.xs, p.i);
    var z, z1, z2 := g.zs[p.k], Lo(g.zs, p.k), Hi(g.zs, p.k);
    area := [(x - x1) * (z - z1), (x2 - x) * (z - z1),
             (x - x1) * (z2 - z), (x2 - x) * (z2 - z)];
  }

  method ZAreas(g: Grid, ghost active: seq<bool>, p: Node, e: seq<int>) returns (zn: real, zp: real)
    requires InGrid(g.Dims(), p) && |active| == g.Dims().Count() && Stencil(g.Dims(), active, p, e)
    ensures zn == FaceArea(g, active, p, Z, true, 4) && zp == FaceArea(g, active, p, Z, false, 4)
  {
    var area := ZQuarters(g, p);
    zn := DirectedArea(e, [0, 1, 2, 3], [4, 5, 6, 7], area, g, active, p, Z, true);
    zp := DirectedArea(e, [4, 5, 6, 7], [0, 1, 2, 3], area, g, active, p, Z, false);
  }

  method ZQuarters(g: Grid, p: Node) returns (area: seq<real>)
    requires InGrid(g.Dims(), p)
    ensures Quarters(g, p, Z, area)
  {
    var x, x1, x2 := g.xs[p.i], Lo(g.xs, p.i), Hi(g.xs, p.i);
    var y, y1, y2 := g.ys[p.j], Lo(g.ys, p.j), Hi(g.ys, p.j);
    area := [(x - x1) * (y - y1), (x2 - x) * (y - y1),
             (x - x1) * (y2 - y), (x2 - x) * (y2 - y)];
  }

  ghost predicate ExteriorUpTo(g: Grid, active: seq<bool>, ext: array<Option<ExteriorCell>>, n: int)
    reads ext
    requires g.Nonempty() && |active| == g.Dims().Count()
  {
    ext.Length == g.Dims().Count() && n <= ext.Length &&
    forall m :: 0 <= m < n ==>
      InGrid(g.Dims(), Decode(g.Dims(), m)) && ext[m] == ExteriorOf(g, active, Decode(g.Dims(), m))
  }

  /** Gives every cell its exterior faces. */
  method SetExteriorCells(g: Grid, active: seq<bool>) returns (ext: array<Option<ExteriorCell>>)
    requires g.Nonempty() && |active| == g.Dims().Count()
    ensures fresh(ext) && ExteriorUpTo(g, active, ext, ext.Length)
  {
    var d := g.Dims();
    ext := new Option<ExteriorCell>[d.Count()](_ => None);
    ghost var count := 0;
    FlatSteps(d, 0, 0, 0);
    for k := 0 to d.nz
      invariant count == Flat(d, 0, 0, k) && ExteriorUpTo(g, active, ext, count)
    {
      for j := 0 to d.ny
        invariant count == Flat(d, 0, j, k) && ExteriorUpTo(g, active, ext, count)
      {
        for i := 0 to d.nx
          invariant count == Flat(d, i, j, k) && ExteriorUpTo(g, active, ext, count)
        {
          count := SetExterior(g, active, ext, i, j, k);
        }
        FlatSteps(d, 0, j, k);
      }
      FlatSteps(d, 0, 0, k);
    }
  }

  method SetExterior(g: Grid, active: seq<bool>, ext: array<Option<ExteriorCell>>, i: nat, j: nat, k: nat)
    returns (ghost count: int)
    requires InGrid(g.Dims(), Node(i, j, k)) && |active| == g.Dims().Count()
    requires ExteriorUpTo(g, active, ext, Flat(g.Dims(), i, j, k))
    modifies ext
    ensures count == Flat(g.Dims(), i + 1, j, k) && ExteriorUpTo(g, active, ext, count)
  {
    FlatDecode(g.Dims(), Node(i, j, k));
    FlatSteps(g.Dims(), i, j, k);
    var n := IjkToN(g.Dims(), i, j, k);
    ext[n] := CellExterior(g, active, Node(i, j, k));
    count := n + 1;
  }
}
