/** The areas recorded for the faces of a cell, measured on the cell's own zone. */
module FaceAreas {
  import opened Basics
  import opened GridIndex
  import opened GridZones
  import opened Exterior
  import opened ActiveCells

  /** An octant has an active element exactly if the element on that side of the node, along each axis, is one of the
      grid's and its lower corner is marked active. */
  lemma MeetsIs(d: Dims, active: seq<bool>, p: Node, o: Octant)
    requires |active| == d.Count() && InGrid(d, p)
    ensures var i, j, k := if o.x then p.i else p.i - 1, if o.y then p.j else p.j - 1, if o.z then p.k else p.k - 1;
            Meets(d, active, p, o) <==>
              && 0 <= i < d.nx - 1 && 0 <= j < d.ny - 1 && 0 <= k < d.nz - 1
              && 0 <= d.nx * d.ny * k + d.nx * j + i < |active| && active[d.nx * d.ny * k + d.nx * j + i]
  {
    var c := Corner(p, o);
    if IsElement(d, c) { FlatInRange(d, c); }
  }

  /** How far the zone [lo, hi] reaches from its coordinate c on one side. */
  function Reach(c: real, lo: real, hi: real, far: bool): real {
    if far then hi - c else c - lo
  }

  /** The octant on the given side of axis a, and on sides u and v of the other two. */
  function On(a: Axis, side: bool, u: bool, v: bool): Octant {
    match a
    case X => Octant(side, u, v)
    case Y => Octant(u, side, v)
    case Z => Octant(u, v, side)
  }

  /** The rectangle, in the face across axis a, between node p and the corner of its zone on sides u and v. */
  ghost function CornerArea(g: Grid, p: Node, a: Axis, u: bool, v: bool): real
    requires InGrid(g.Dims(), p)
  {
    var z := ZoneOf(g, p);
    match a
    case X => Reach(g.ys[p.j], z.y1, z.y2, u) * Reach(g.zs[p.k], z.z1, z.z2, v)
    case Y => Reach(g.xs[p.i], z.x1, z.x2, u) * Reach(g.zs[p.k], z.z1, z.z2, v)
    case Z => Reach(g.xs[p.i], z.x1, z.x2, u) * Reach(g.ys[p.j], z.y1, z.y2, v)
  }

  /** The element on sides u and v is active on the side of the inside, and the one opposite is not. */
  ghost predicate Shows(g: Grid, active: seq<bool>, p: Node, a: Axis, down: bool, u: bool, v: bool)
    requires |active| == g.Dims().Count()
  {
    Meets(g.Dims(), active, p, On(a, down, u, v)) && !Meets(g.Dims(), active, p, On(a, !down, u, v))
  }

  ghost function Part(g: Grid, active: seq<bool>, p: Node, a: Axis, down: bool, u: bool, v: bool): real
    requires InGrid(g.Dims(), p) && |active| == g.Dims().Count()
  {
    if Shows(g, active, p, a, down, u, v) then CornerArea(g, p, a, u, v) else 0.0
  }

  lemma SameSides(a: Axis, side: bool, t: nat, u: bool, v: bool)
    requires t < 4 && u == (t == 1 || t == 3) && v == (t == 2 || t == 3)
    ensures Turned(Near(a)[t], a, side) == On(a, side, u, v)
  {
  }

  lemma SameArea(g: Grid, p: Node, a: Axis, o: Octant, side: bool, u: bool, v: bool)
    requires InGrid(g.Dims(), p) && Turned(o, a, side) == On(a, side, u, v)
    ensures Quarter(g, p, o, a) == CornerArea(g, p, a, u, v)
  {
    assert Extent(g.xs, p.i, o.x) == Reach(g.xs[p.i], Lo(g.xs, p.i), Hi(g.xs, p.i), o.x);
    assert Extent(g.ys, p.j, o.y) == Reach(g.ys[p.j], Lo(g.ys, p.j), Hi(g.ys, p.j), o.y);
    assert Extent(g.zs, p.k, o.z) == Reach(g.zs[p.k], Lo(g.zs, p.k), Hi(g.zs, p.k), o.z);
  }

  lemma PartIsQuarter(g: Grid, active: seq<bool>, p: Node, a: Axis, down: bool, t: nat, u: bool, v: bool)
    requires InGrid(g.Dims(), p) && |active| == g.Dims().Count() && t < 4
    requires u == (t == 1 || t == 3) && v == (t == 2 || t == 3)
    ensures QuarterArea(g, active, p, a, down, t) == Part(g, active, p, a, down, u, v)
  {
    SameSides(a, down, t, u, v);
    SameSides(a, !down, t, u, v);
    SameArea(g, p, a, Near(a)[t], down, u, v);
  }

  /** The recorded area is that of the corner rectangles whose element has no active one opposite. */
  lemma RecordedParts(g: Grid, active: seq<bool>, p: Node, a: Axis, down: bool)
    requires g.Valid() && InGrid(g.Dims(), p) && |active| == g.Dims().Count()
    ensures RecordedArea(ExteriorOf(g, active, p), a, down) ==
              Part(g, active, p, a, down, false, false) + Part(g, active, p, a, down, true, false)
              + Part(g, active, p, a, down, false, true) + Part(g, active, p, a, down, true, true)
  {
    RecordedIsFaceArea(g, active, p, a, down);
    FourQuarters(g, active, p, a, down);
    PartIsQuarter(g, active, p, a, down, 0, false, false);
    PartIsQuarter(g, active, p, a, down, 1, true, false);
    PartIsQuarter(g, active, p, a, down, 2, false, true);
    PartIsQuarter(g, active, p, a, down, 3, true, true);
  }

  lemma Expand(a: real, b: real, c: real, d: real)
    ensures a * c + b * c + a * d + b * d == (a + b) * (c + d)
  {
  }

  /** The area of the zone's face across axis a. */
  function FullArea(z: Box, a: Axis): real {
    match a
    case X => (z.y2 - z.y1) * (z.z2 - z.z1)
    case Y => (z.x2 - z.x1) * (z.z2 - z.z1)
    case Z => (z.x2 - z.x1) * (z.y2 - z.y1)
  }

  lemma CornersFill(g: Grid, p: Node, a: Axis)
    requires InGrid(g.Dims(), p)
    ensures CornerArea(g, p, a, false, false) + CornerArea(g, p, a, true, false) + CornerArea(g, p, a, false, true)
            + CornerArea(g, p, a, true, true) == FullArea(ZoneOf(g, p), a)
  {
    var z, x, y, h := ZoneOf(g, p), g.xs[p.i], g.ys[p.j], g.zs[p.k];
    match a
    case X => Expand(y - z.y1, z.y2 - y, h - z.z1, z.z2 - h);
    case Y => Expand(x - z.x1, z.x2 - x, h - z.z1, z.z2 - h);
    case Z => Expand(x - z.x1, z.x2 - x, y - z.y1, z.y2 - y);
  }

  /** With all four elements on one side active and none on the other, the cell records the whole face of its zone on that
      side, and nothing on the other. */
  lemma FullFace(g: Grid, active: seq<bool>, p: Node, a: Axis, down: bool)
    requires g.Valid() && InGrid(g.Dims(), p) && |active| == g.Dims().Count()
    requires forall u: bool, v: bool ::
               Meets(g.Dims(), active, p, On(a, down, u, v)) && !Meets(g.Dims(), active, p, On(a, !down, u, v))
    ensures RecordedArea(ExteriorOf(g, active, p), a, down) == FullArea(ZoneOf(g, p), a)
    ensures RecordedArea(ExteriorOf(g, active, p), a, !down) == 0.0
  {
    RecordedParts(g, active, p, a, down);
    RecordedParts(g, active, p, a, !down);
    CornersFill(g, p, a);
  }

  /** With a single element on one side that has no active one opposite, the cell records the rectangle between its node
      and the corner of its zone on the side of that element. */
  lemma OneCorner(g: Grid, active: seq<bool>, p: Node, a: Axis, down: bool, u: bool, v: bool)
    requires g.Valid() && InGrid(g.Dims(), p) && |active| == g.Dims().Count()
    requires forall s: bool, t: bool :: Shows(g, active, p, a, down, s, t) <==> s == u && t == v
    ensures RecordedArea(ExteriorOf(g, active, p), a, down) == CornerArea(g, p, a, u, v)
  {
    RecordedParts(g, active, p, a, down);
  }


  /** The same in the arrays that the set-up fills: the record of node p and its zone are at its flat number. */
  lemma InArrays(g: Grid, active: seq<bool>, ext: array<Option<ExteriorCell>>, zones: array<Box>, p: Node)
    requires g.Valid() && InGrid(g.Dims(), p) && |active| == g.Dims().Count()
    requires ExteriorUpTo(g, active, ext, ext.Length) && ZonesSetUpTo(g, zones, zones.Length)
    ensures var n := Flat(g.Dims(), p.i, p.j, p.k);
            0 <= n < ext.Length == zones.Length && ext[n] == ExteriorOf(g, active, p) && zones[n] == ZoneOf(g, p)
  {
    FlatDecode(g.Dims(), p);
  }
}
