/** The zones the grid setup gives its nodes along one axis and in space, and
    the lookups that go from coordinates back to nodes. */
module GridZones {
  import opened Basics
  import opened GridIndex

  /** Lower and upper end of the zone of node i. */
  function Lo(c: seq<real>, i: nat): real
    requires i < |c|
  {
    if i == 0 then c[i] else (c[i - 1] + c[i]) / 2.0
  }

  function Hi(c: seq<real>, i: nat): real
    requires i < |c|
  {
    if i == |c| - 1 then c[i] else (c[i] + c[i + 1]) / 2.0
  }

  predicate InZone(c: seq<real>, i: nat, x: real)
    requires i < |c|
  {
    Lo(c, i) <= x <= Hi(c, i)
  }

  predicate InsideZone(c: seq<real>, i: nat, x: real)
    requires i < |c|
  {
    Lo(c, i) < x < Hi(c, i)
  }

  /** Zones follow one another without gap or overlap. */
  lemma ZonesInOrder(c: seq<real>, i: nat, j: nat)
    requires Increasing(c) && i < j < |c|
    ensures Hi(c, i) <= Lo(c, j) && Lo(c, i) <= c[i] < Lo(c, j) && Hi(c, i) < c[j] <= Hi(c, j)
  {
    assert c[i] < c[i + 1];
    if i + 1 < j { assert c[i + 1] < c[j] && c[i + 1] <= c[j - 1] && c[i] < c[j - 1]; }
    if i > 0 { assert c[i - 1] < c[i]; }
    if j + 1 < |c| { assert c[j] < c[j + 1]; }
  }

  /** No point is inside two zones. */
  lemma ZonesDisjoint(c: seq<real>, i: nat, j: nat, x: real)
    requires Increasing(c) && i < |c| && j < |c|
    requires InsideZone(c, i, x) && InsideZone(c, j, x)
    ensures i == j
  {
    if i < j { ZonesInOrder(c, i, j); }
    if j < i { ZonesInOrder(c, j, i); }
  }

  /** The consecutive zones from i to j cover everything between their outer ends. */
  lemma {:induction false} ZonesCover(c: seq<real>, i: nat, j: nat, x: real)
    requires Increasing(c) && i <= j < |c| && Lo(c, i) <= x <= Hi(c, j)
    ensures exists k :: i <= k <= j && InZone(c, k, x)
    decreases j - i
  {
    if x <= Hi(c, i) {
      assert InZone(c, i, x);
    } else {
      ZonesInOrder(c, i, i + 1);
      ZonesCover(c, i + 1, j, x);
    }
  }

  /** Finds the zone of a coordinate; fails outside the domain. */
  method CoordToCell(x1: real, coord: seq<real>) returns (ok: bool, i1: int)
    requires |coord| >= 1 && Increasing(coord)
    ensures ok <==> coord[0] <= x1 <= coord[|coord| - 1]
    ensures ok ==> 0 <= i1 < |coord| && InZone(coord, i1, x1)
    ensures ok ==> forall k :: 0 <= k < i1 ==> !InZone(coord, k, x1)
    ensures !ok ==> i1 == -1
  {
    i1 := -1;
    if x1 < coord[0] || x1 > coord[|coord| - 1] {
      return false, i1;
    }
    var i := 0;
    while i < |coord| - 1 && !(x1 <= (coord[i] + coord[i + 1]) * 0.5)
      invariant 0 <= i <= |coord| - 1
      invariant forall k :: 0 <= k < i ==> Hi(coord, k) < x1
      invariant Lo(coord, i) <= x1
    {
      i := i + 1;
    }
    i1 := i;
    return true, i1;
  }

  datatype GridState = Undefined | Defined

  /** The nodes whose zones may meet [x1, x2], snapped outwards; fails when the range ends at or before the first node. */
  method SnapOutToRange(x1: real, x2: real, coord: seq<real>, state: GridState) returns (ok: bool, i1: nat, i2: nat)
    requires |coord| >= 2 && Increasing(coord) && x1 <= x2
    ensures state == Undefined ==> ok && i1 == 0 && i2 == 1
    ensures state == Defined ==> (ok <==> coord[0] < x2)
    ensures i1 < |coord| && i2 < |coord|
    ensures state == Defined && ok ==> i1 == 0 || coord[i1] <= x1
    ensures state == Defined && ok ==> i2 == |coord| - 1 || x2 <= coord[i2]
    ensures state == Defined && ok ==> i1 <= i2
  {
    if state == Undefined {
      return true, 0, 1;
    }
    i1, i2 := 0, |coord| - 1;
    var i := 0;
    while i < |coord| && coord[i] <= x1
      invariant i <= |coord| && i1 == (if i == 0 then 0 else i - 1)
      invariant forall k :: 0 <= k < i ==> coord[k] <= x1
    {
      i1 := i;
      i := i + 1;
    }
    i := 0;
    while i < |coord|
      invariant i <= |coord| && i2 == |coord| - 1
      invariant forall k :: 0 <= k < i ==> coord[k] < x2
    {
      if coord[i] >= x2 {
        i2 := i;
        break;
      }
      i := i + 1;
    }
    ok := i2 != 0;
  }

  /** At any coordinate of the range: the snapped nodes include every zone the coordinate is inside of, and their
      zones cover it if it is in the domain. */
  lemma SnappedRangeSuffices(coord: seq<real>, x1: real, x2: real, i1: nat, i2: nat, x: real)
    requires |coord| >= 2 && Increasing(coord) && x1 <= x <= x2 && i1 <= i2 < |coord|
    requires i1 == 0 || coord[i1] <= x1
    requires i2 == |coord| - 1 || x2 <= coord[i2]
    ensures forall k :: 0 <= k < |coord| && InsideZone(coord, k, x) ==> i1 <= k <= i2
    ensures coord[0] <= x <= coord[|coord| - 1] ==> exists k :: i1 <= k <= i2 && InZone(coord, k, x)
  {
    forall k | 0 <= k < |coord| && InsideZone(coord, k, x)
      ensures i1 <= k <= i2
    {
      if k < i1 { ZonesInOrder(coord, k, i1); }
      if i2 < k { ZonesInOrder(coord, i2, k); }
    }
    if coord[0] <= x <= coord[|coord| - 1] {
      if i1 > 0 { assert coord[i1 - 1] < coord[i1]; }
      if i2 < |coord| - 1 { assert coord[i2] < coord[i2 + 1]; }
      ZonesCover(coord, i1, i2, x);
    }
  }

  // ----- zones in space

  datatype Box = Box(x1: real, y1: real, z1: real, x2: real, y2: real, z2: real)

  datatype Grid = Grid(xs: seq<real>, ys: seq<real>, zs: seq<real>) {
    predicate Nonempty() {
      |xs| >= 1 && |ys| >= 1 && |zs| >= 1
    }

    ghost predicate Valid() {
      Nonempty() && Increasing(xs) && Increasing(ys) && Increasing(zs)
    }

    function Dims(): Dims {
      GridIndex.Dims(|xs|, |ys|, |zs|)
    }
  }

  ghost function ZoneOf(g: Grid, p: Node): Box
    requires InGrid(g.Dims(), p)
  {
    Box(Lo(g.xs, p.i), Lo(g.ys, p.j), Lo(g.zs, p.k), Hi(g.xs, p.i), Hi(g.ys, p.j), Hi(g.zs, p.k))
  }

  ghost predicate InBox(b: Box, x: real, y: real, z: real) {
    b.x1 <= x <= b.x2 && b.y1 <= y <= b.y2 && b.z1 <= z <= b.z2
  }

  ghost predicate InsideBox(b: Box, x: real, y: real, z: real) {
    b.x1 < x < b.x2 && b.y1 < y < b.y2 && b.z1 < z < b.z2
  }

  ghost predicate ZonesSetUpTo(g: Grid, zones: array<Box>, n: int)
    reads zones
    requires g.Nonempty()
  {
    zones.Length == g.Dims().Count() && n <= zones.Length &&
    forall m :: 0 <= m < n ==>
      InGrid(g.Dims(), Decode(g.Dims(), m)) && zones[m] == ZoneOf(g, Decode(g.Dims(), m))
  }

  /** The zone [lo, hi] of node i ends halfway to the coordinates next to its own, or at its own where there is none. */
  ghost predicate Halfway(c: seq<real>, i: nat, lo: real, hi: real)
    requires i < |c|
  {
    && (if i == 0 then lo == c[0] else c[i] - lo == lo - c[i - 1])
    && (if i == |c| - 1 then hi == c[i] else hi - c[i] == c[i + 1] - hi)
  }

  ghost predicate HalfwayBox(g: Grid, p: Node, b: Box)
    requires InGrid(g.Dims(), p)
  {
    Halfway(g.xs, p.i, b.x1, b.x2) && Halfway(g.ys, p.j, b.y1, b.y2) && Halfway(g.zs, p.k, b.z1, b.z2)
  }

  lemma ZoneIsHalfway(g: Grid, p: Node)
    requires InGrid(g.Dims(), p)
    ensures HalfwayBox(g, p, ZoneOf(g, p))
  {
  }

  /** Gives every cell its zone, x running fastest. */
  method DefineZones(g: Grid) returns (zones: array<Box>)
    requires g.Nonempty()
    ensures fresh(zones) && ZonesSetUpTo(g, zones, zones.Length) && zones.Length == g.Dims().Count()
    ensures forall p: Node :: InGrid(g.Dims(), p) ==>
              0 <= Flat(g.Dims(), p.i, p.j, p.k) < zones.Length &&
              HalfwayBox(g, p, zones[Flat(g.Dims(), p.i, p.j, p.k)])
  {
    var d := g.Dims();
    zones := new Box[d.Count()](_ => Box(0.0, 0.0, 0.0, 0.0, 0.0, 0.0));
    var count: int := 0;
    FlatSteps(d, 0, 0, 0);
    for k := 0 to d.nz
      invariant count == Flat(d, 0, 0, k) && ZonesSetUpTo(g, zones, count)
    {
      for j := 0 to d.ny
        invariant count == Flat(d, 0, j, k) && ZonesSetUpTo(g, zones, count)
      {
        for i := 0 to d.nx
          invariant count == Flat(d, i, j, k) && ZonesSetUpTo(g, zones, count)
        {
          count := SetZone(g, zones, count, i, j, k);
        }
        FlatSteps(d, 0, j, k);
      }
      FlatSteps(d, 0, 0, k);
    }
    forall p: Node | InGrid(d, p)
      ensures 0 <= Flat(d, p.i, p.j, p.k) < zones.Length && HalfwayBox(g, p, zones[Flat(d, p.i, p.j, p.k)])
    {
      FlatDecode(d, p);
      ZoneIsHalfway(g, p);
    }
  }

  method SetZone(g: Grid, zones: array<Box>, count: int, i: nat, j: nat, k: nat) returns (r: int)
    requires g.Nonempty() && InGrid(g.Dims(), Node(i, j, k))
    requires count == Flat(g.Dims(), i, j, k) && ZonesSetUpTo(g, zones, count)
    modifies zones
    ensures r == Flat(g.Dims(), i + 1, j, k) && ZonesSetUpTo(g, zones, r)
  {
    FlatDecode(g.Dims(), Node(i, j, k));
    FlatSteps(g.Dims(), i, j, k);
    zones[count] := CellZone(g, i, j, k);
    r := count + 1;
  }

  method CellZone(g: Grid, i: nat, j: nat, k: nat) returns (b: Box)
    requires InGrid(g.Dims(), Node(i, j, k))
    ensures b == ZoneOf(g, Node(i, j, k))
  {
    var x1 := if i == 0 then g.xs[i] else (g.xs[i - 1] + g.xs[i]) / 2.0;
    var y1 := if j == 0 then g.ys[j] else (g.ys[j - 1] + g.ys[j]) / 2.0;
    var z1 := if k == 0 then g.zs[k] else (g.zs[k - 1] + g.zs[k]) / 2.0;
    var x2 := if i == |g.xs| - 1 then g.xs[i] else (g.xs[i] + g.xs[i + 1]) / 2.0;
    var y2 := if j == |g.ys| - 1 then g.ys[j] else (g.ys[j] + g.ys[j + 1]) / 2.0;
    var z2 := if k == |g.zs| - 1 then g.zs[k] else (g.zs[k] + g.zs[k + 1]) / 2.0;
    b := Box(x1, y1, z1, x2, y2, z2);
  }

  /** Every point of the domain is in the zone of some cell. */
  lemma ZonesFillDomain(g: Grid, x: real, y: real, z: real) returns (n: nat)
    requires g.Valid()
    requires g.xs[0] <= x <= g.xs[|g.xs|-1] && g.ys[0] <= y <= g.ys[|g.ys|-1] && g.zs[0] <= z <= g.zs[|g.zs|-1]
    ensures n < g.Dims().Count() && InGrid(g.Dims(), Decode(g.Dims(), n))
    ensures InBox(ZoneOf(g, Decode(g.Dims(), n)), x, y, z)
  {
    ZonesCover(g.xs, 0, |g.xs| - 1, x);
    ZonesCover(g.ys, 0, |g.ys| - 1, y);
    ZonesCover(g.zs, 0, |g.zs| - 1, z);
    var i :| 0 <= i < |g.xs| && InZone(g.xs, i, x);
    var j :| 0 <= j < |g.ys| && InZone(g.ys, j, y);
    var k :| 0 <= k < |g.zs| && InZone(g.zs, k, z);
    FlatDecode(g.Dims(), Node(i, j, k));
    n := Flat(g.Dims(), i, j, k);
  }

  /** No point is inside the zones of two different cells. */
  lemma ZonesDoNotOverlap(g: Grid, m: nat, n: nat, x: real, y: real, z: real)
    requires g.Valid() && m < g.Dims().Count() && n < g.Dims().Count()
    requires InGrid(g.Dims(), Decode(g.Dims(), m)) && InGrid(g.Dims(), Decode(g.Dims(), n))
    requires InsideBox(ZoneOf(g, Decode(g.Dims(), m)), x, y, z) && InsideBox(ZoneOf(g, Decode(g.Dims(), n)), x, y, z)
    ensures m == n
  {
    var p, q := Decode(g.Dims(), m), Decode(g.Dims(), n);
    ZonesDisjoint(g.xs, p.i, q.i, x);
    ZonesDisjoint(g.ys, p.j, q.j, y);
    ZonesDisjoint(g.zs, p.k, q.k, z);
    DecodeFlat(g.Dims(), m);
    DecodeFlat(g.Dims(), n);
  }
}
