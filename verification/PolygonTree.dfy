/** The lazily split tree of a polygon: queries cut leaves in two as they go,
    and the answers must not show it. */
module PolygonTree {
  import opened Basics
  import opened Regions

  /** What the clipper reports about a polygon besides its points. */
  datatype Geometry = Geometry(points: Region -> nat, box: Region -> Rect)

  ghost predicate Inside(r: Region, b: Rect) {
    forall p :: r(p) ==> InRect(b, p)
  }

  /** Some rectangle holds the region, as for every polygon. */
  ghost predicate Bounded(r: Region) {
    exists b: Rect :: Inside(r, b)
  }

  /** The box of a polygon holds it. */
  ghost predicate Bounding(geo: Geometry) {
    forall r: Region :: Bounded(r) ==> Inside(r, geo.box(r))
  }

  ghost function SomeBox(r: Region): (b: Rect)
    ensures Bounded(r) ==> Inside(r, b)
  {
    if Bounded(r) then
      var b: Rect :| Inside(r, b);
      b
    else Rect(0.0, 0.0, 0.0, 0.0)
  }

  /** There are such boxes, whatever the vertex counts. */
  lemma BoundingExists(points: Region -> nat) returns (geo: Geometry)
    ensures geo.points == points && Bounding(geo)
  {
    geo := Geometry(points, (r: Region) => SomeBox(r));
  }

  /** left and right are places in the list of all leaves; a leaf that has been cut has no polygon of its own. */
  datatype Leaf = Leaf(box: Rect, left: nat, right: nat, polygon: Option<Region>, splitX: bool, tip: bool)

  const SPLIT_SIZE := 10

  function LowerHalf(b: Rect, splitX: bool): Rect {
    if splitX then b.(x2 := (b.x1 + b.x2) / 2.0) else b.(y2 := (b.y1 + b.y2) / 2.0)
  }

  function UpperHalf(b: Rect, splitX: bool): Rect {
    if splitX then b.(x1 := (b.x1 + b.x2) / 2.0) else b.(y1 := (b.y1 + b.y2) / 2.0)
  }

  lemma HalvesCover(b: Rect, splitX: bool, p: Pt)
    requires InRect(b, p)
    ensures InRect(LowerHalf(b, splitX), p) || InRect(UpperHalf(b, splitX), p)
  {
  }

  /** The part r of the polygon that leaf i stands for. */
  ghost predicate LeafOk(leaves: seq<Leaf>, parts: seq<Region>, i: nat)
    requires i < |leaves| == |parts|
  {
    && Inside(parts[i], leaves[i].box)
    && (if leaves[i].tip then leaves[i].polygon.Some? && Same(leaves[i].polygon.value, parts[i])
        else
          && i < leaves[i].left < |leaves| && i < leaves[i].right < |leaves|
          && forall p :: parts[i](p) <==> parts[leaves[i].left](p) || parts[leaves[i].right](p))
  }

  ghost predicate TreeOk(leaves: seq<Leaf>, parts: seq<Region>, polygon: Region) {
    && |leaves| == |parts| >= 1 && Same(parts[0], polygon)
    && forall i :: 0 <= i < |leaves| ==> LeafOk(leaves, parts, i)
  }

  /** How many leaves a walk below leaf i can visit. */
  ghost function Weight(leaves: seq<Leaf>, parts: seq<Region>, i: nat): nat
    requires |leaves| == |parts| && i < |leaves| && forall k :: 0 <= k < |leaves| ==> LeafOk(leaves, parts, k)
    decreases |leaves| - i
  {
    assert LeafOk(leaves, parts, i);
    if leaves[i].tip then 1
    else 1 + Weight(leaves, parts, leaves[i].left) + Weight(leaves, parts, leaves[i].right)
  }

  ghost predicate Places(leaves: seq<Leaf>, work: seq<nat>) {
    forall k :: 0 <= k < |work| ==> work[k] < |leaves|
  }

  ghost function WorkWeight(leaves: seq<Leaf>, parts: seq<Region>, work: seq<nat>): nat
    requires |leaves| == |parts| && (forall k :: 0 <= k < |leaves| ==> LeafOk(leaves, parts, k)) && Places(leaves, work)
  {
    if work == [] then 0 else Weight(leaves, parts, work[0]) + WorkWeight(leaves, parts, work[1..])
  }

  /** p is in the part of some leaf still to be visited. */
  ghost predicate Pending(parts: seq<Region>, work: seq<nat>, p: Pt) {
    exists k :: 0 <= k < |work| && work[k] < |parts| && parts[work[k]](p)
  }

  lemma PendingPush(parts: seq<Region>, w: nat, work: seq<nat>, p: Pt)
    ensures Pending(parts, [w] + work, p) <==> (w < |parts| && parts[w](p)) || Pending(parts, work, p)
  {
    var more := [w] + work;
    if w < |parts| && parts[w](p) { assert more[0] == w; }
    if k :| 0 <= k < |work| && work[k] < |parts| && parts[work[k]](p) { assert more[k + 1] == work[k]; }
    if k :| 0 <= k < |more| && more[k] < |parts| && parts[more[k]](p) { assert k > 0 ==> work[k - 1] == more[k]; }
  }

  /** The tips together are the polygon. */
  ghost predicate TipsCover(leaves: seq<Leaf>, polygon: Region) {
    forall p :: polygon(p) <==> exists i :: 0 <= i < |leaves| && leaves[i].tip && leaves[i].polygon.Some? && leaves[i].polygon.value(p)
  }

  lemma {:induction false} TipBelow(leaves: seq<Leaf>, parts: seq<Region>, i: nat, p: Pt) returns (t: nat)
    requires |leaves| == |parts| && i < |leaves| && forall k :: 0 <= k < |leaves| ==> LeafOk(leaves, parts, k)
    requires parts[i](p)
    ensures t < |leaves| && leaves[t].tip && leaves[t].polygon.Some? && leaves[t].polygon.value(p)
    decreases |leaves| - i
  {
    assert LeafOk(leaves, parts, i);
    if leaves[i].tip {
      t := i;
    } else if parts[leaves[i].left](p) {
      t := TipBelow(leaves, parts, leaves[i].left, p);
    } else {
      t := TipBelow(leaves, parts, leaves[i].right, p);
    }
  }

  /** Every part is inside the polygon. */
  ghost predicate PartsInside(parts: seq<Region>, polygon: Region) {
    forall i, p {:trigger parts[i](p)} :: 0 <= i < |parts| && parts[i](p) ==> polygon(p)
  }

  lemma TipsAreThePolygon(leaves: seq<Leaf>, parts: seq<Region>, polygon: Region)
    requires TreeOk(leaves, parts, polygon) && PartsInside(parts, polygon)
    ensures TipsCover(leaves, polygon)
  {
    forall p
      ensures polygon(p) <==> exists i :: 0 <= i < |leaves| && leaves[i].tip && leaves[i].polygon.Some? && leaves[i].polygon.value(p)
    {
      if polygon(p) {
        var t := TipBelow(leaves, parts, 0, p);
        assert leaves[t].tip && LeafOk(leaves, parts, t);
      }
      if i :| 0 <= i < |leaves| && leaves[i].tip && leaves[i].polygon.Some? && leaves[i].polygon.value(p) {
        assert LeafOk(leaves, parts, i);
      }
    }
  }

  /** The leaves after leaf i has been cut. */
  function Cut(leaves: seq<Leaf>, i: nat): seq<Leaf>
    requires i < |leaves| && leaves[i].polygon.Some?
  {
    var f, n := leaves[i], |leaves|;
    var a, b := LowerHalf(f.box, f.splitX), UpperHalf(f.box, f.splitX);
    leaves[i := f.(left := n, right := n + 1, polygon := None, tip := false)]
      + [Leaf(a, 0, 0, Some(Intersect(f.polygon.value, Rectangle(a))), !f.splitX, true),
         Leaf(b, 0, 0, Some(Intersect(f.polygon.value, Rectangle(b))), !f.splitX, true)]
  }

  /** Lower and upper are the halves of a box across its x or its y axis. */
  ghost predicate Halves(b: Rect, lower: Rect, upper: Rect, splitX: bool) {
    && lower.x1 == b.x1 && lower.y1 == b.y1 && upper.x2 == b.x2 && upper.y2 == b.y2
    && if splitX then lower.x2 == upper.x1 && b.x2 - lower.x2 == lower.x2 - b.x1 && lower.y2 == b.y2 && upper.y1 == b.y1
       else lower.y2 == upper.y1 && b.y2 - lower.y2 == lower.y2 - b.y1 && lower.x2 == b.x2 && upper.x1 == b.x1
  }

  /** Leaf i has given its polygon to two new tips, one for either half of its box, which are to be cut across the other
      axis; no other leaf has changed. */
  ghost predicate CutInHalf(leaves: seq<Leaf>, now: seq<Leaf>, i: nat)
    requires i < |leaves| && leaves[i].polygon.Some?
  {
    var n := |leaves|;
    && |now| == n + 2 && (forall k :: 0 <= k < n && k != i ==> now[k] == leaves[k])
    && !now[i].tip && now[i].polygon.None? && now[i].left == n && now[i].right == n + 1
    && Halves(leaves[i].box, now[n].box, now[n + 1].box, leaves[i].splitX)
    && now[n].tip && now[n + 1].tip && now[n].splitX != leaves[i].splitX && now[n + 1].splitX != leaves[i].splitX
    && HalfOf(leaves[i].polygon.value, now[n]) && HalfOf(leaves[i].polygon.value, now[n + 1])
  }

  /** The leaf's polygon is what of r lies in its box. */
  ghost predicate HalfOf(r: Region, f: Leaf) {
    f.polygon.Some? && forall p :: f.polygon.value(p) <==> r(p) && InRect(f.box, p)
  }

  lemma CutHalves(leaves: seq<Leaf>, i: nat)
    requires i < |leaves| && leaves[i].polygon.Some?
    ensures CutInHalf(leaves, Cut(leaves, i), i)
  {
  }

  lemma CutOk(leaves: seq<Leaf>, parts: seq<Region>, polygon: Region, i: nat) returns (parts': seq<Region>)
    requires TreeOk(leaves, parts, polygon) && PartsInside(parts, polygon)
    requires i < |leaves| && leaves[i].tip && leaves[i].polygon.Some?
    ensures TreeOk(Cut(leaves, i), parts', polygon) && PartsInside(parts', polygon)
    ensures parts <= parts'
  {
    var f, n, now := leaves[i], |leaves|, Cut(leaves, i);
    assert LeafOk(leaves, parts, i);
    parts' := parts + [now[n].polygon.value, now[n + 1].polygon.value];
    forall k | 0 <= k < |now|
      ensures LeafOk(now, parts', k)
    {
      if k == i {
        forall p | parts[i](p)
          ensures parts'[n](p) || parts'[n + 1](p)
        {
          HalvesCover(f.box, f.splitX, p);
        }
      } else if k < n {
        assert LeafOk(leaves, parts, k);
      }
    }
  }

  class Tree {
    var leaves: seq<Leaf>
    const geo: Geometry
    ghost var parts: seq<Region>
    ghost const polygon: Region

    ghost predicate Valid()
      reads this
    {
      TreeOk(leaves, parts, polygon) && PartsInside(parts, polygon) && Bounding(geo)
    }

    constructor (polygon: Region, geo: Geometry)
      requires Bounding(geo) && Bounded(polygon)
      ensures Valid() && this.polygon == polygon && this.geo == geo
    {
      this.geo, this.polygon := geo, polygon;
      leaves := [Leaf(geo.box(polygon), 0, 0, Some(polygon), true, true)];
      parts := [polygon];
      new;
      assert Inside(polygon, geo.box(polygon));
    }

    /** Cuts leaf i in two, unless its polygon is small. */
    method Split(i: nat) returns (cut: bool)
      requires Valid() && i < |leaves| && leaves[i].tip && leaves[i].polygon.Some?
      modifies this
      ensures Valid() && old(parts) <= parts
      ensures cut <==> geo.points(old(leaves)[i].polygon.value) >= 10
      ensures !cut ==> leaves == old(leaves)
      ensures cut ==> leaves == Cut(old(leaves), i) && CutInHalf(old(leaves), leaves, i)
    {
      if geo.points(leaves[i].polygon.value) < SPLIT_SIZE {
        return false;
      }
      parts := CutOk(leaves, parts, polygon, i);
      CutHalves(leaves, i);
      leaves := Cut(leaves, i);
      return true;
    }

    /** Puts the children of leaf i that can hold p in front of the work list. */
    method PushChildren(i: nat, p: Pt, work: seq<nat>) returns (more: seq<nat>)
      requires Valid() && i < |leaves| && !leaves[i].tip && Places(leaves, work)
      ensures Places(leaves, more)
      ensures Pending(parts, more, p) <==> parts[i](p) || Pending(parts, work, p)
      ensures TreeOk(leaves, parts, polygon) && WorkWeight(leaves, parts, more) < Weight(leaves, parts, i) + WorkWeight(leaves, parts, work)
    {
      assert LeafOk(leaves, parts, i);
      var left, right := leaves[i].left, leaves[i].right;
      assert LeafOk(leaves, parts, left) && LeafOk(leaves, parts, right);
      more := work;
      if InRect(leaves[left].box, p) {
        PendingPush(parts, left, more, p);
        more := [left] + more;
      }
      if InRect(leaves[right].box, p) {
        PendingPush(parts, right, more, p);
        more := [right] + more;
      }
    }

    /** Visits a tip that may be cut: its halves are to be visited, or the tip again. */
    method SplitOnce(visit: nat, p: Pt, work: seq<nat>) returns (more: seq<nat>)
      requires Valid() && visit < |leaves| && leaves[visit].tip && leaves[visit].polygon.Some? && Places(leaves, work)
      modifies this
      ensures Valid() && Places(leaves, more)
      ensures Pending(parts, more, p) <==> old(parts)[visit](p) || Pending(old(parts), work, p)
    {
      ghost var was := parts;
      var cut := Split(visit);
      SamePending(was, parts, work, p);
      if cut {
        more := PushChildren(visit, p, work);
      } else {
        PendingPush(parts, visit, work, p);
        more := [visit] + work;
      }
    }

    /** Membership in the polygon; the first tip met is cut if it is large. */
    method PointInPolygon(p: Pt) returns (inside: bool)
      requires Valid()
      modifies this
      ensures Valid() && inside == polygon(p)
    {
      assert LeafOk(leaves, parts, 0);
      if !InRect(leaves[0].box, p) {
        return false;
      }
      var work: seq<nat> := [0];
      var splitOnce := true;
      PendingPush(parts, 0, [], p);
      assert [0] + [] == work;
      while |work| > 0
        invariant Valid() && Places(leaves, work)
        invariant polygon(p) <==> Pending(parts, work, p)
        decreases splitOnce, WorkWeight(leaves, parts, work)
      {
        var visit := work[0];
        work := work[1..];
        PendingPush(parts, visit, work, p);
        assert LeafOk(leaves, parts, visit);
        if leaves[visit].tip && splitOnce {
          work := SplitOnce(visit, p, work);
          splitOnce := false;
          continue;
        }
        if leaves[visit].tip {
          if leaves[visit].polygon.value(p) {
            return true;
          }
        } else {
          work := PushChildren(visit, p, work);
        }
      }
      return false;
    }

    /** The part of the polygon in a cell, put together from the tips. */
    method IntersectCell(cell: Region) returns (cumulative: Region)
      requires Valid() && Bounded(cell)
      ensures Same(cumulative, Intersect(polygon, cell))
    {
      cumulative := NOWHERE;
      var z := geo.box(cell);
      for i := 0 to |leaves|
        invariant forall p :: cumulative(p) <==> cell(p) && TipBefore(leaves, i, p)
      {
        ghost var before := cumulative;
        assert LeafOk(leaves, parts, i);
        if leaves[i].tip {
          var leafBox := geo.box(leaves[i].polygon.value);
          if z.x1 > leafBox.x2 || z.x2 < leafBox.x1 || z.y1 > leafBox.y2 || z.y2 < leafBox.y1 {
            assert Inside(parts[i], leaves[i].box) && Inside(leaves[i].polygon.value, leaves[i].box);
            assert Inside(cell, z) && Inside(leaves[i].polygon.value, leafBox);
            assert forall p :: !(cell(p) && leaves[i].polygon.value(p));
          } else {
            var intersection := Intersect(leaves[i].polygon.value, cell);
            cumulative := Union(cumulative, intersection);
          }
        }
      }
      TipsAreThePolygon(leaves, parts, polygon);
    }

    /** Any run of queries answers as the polygon itself would. */
    method Queries(ps: seq<Pt>) returns (answers: seq<bool>)
      requires Valid()
      modifies this
      ensures Valid() && |answers| == |ps|
      ensures forall i :: 0 <= i < |ps| ==> answers[i] == polygon(ps[i])
    {
      answers := [];
      for i := 0 to |ps|
        invariant Valid() && |answers| == i
        invariant forall k :: 0 <= k < i ==> answers[k] == polygon(ps[k])
      {
        var a := PointInPolygon(ps[i]);
        answers := answers + [a];
      }
    }
  }

  ghost predicate TipBefore(leaves: seq<Leaf>, n: nat, p: Pt) {
    exists i :: 0 <= i < n && i < |leaves| && leaves[i].tip && leaves[i].polygon.Some? && leaves[i].polygon.value(p)
  }

  lemma SamePending(was: seq<Region>, now: seq<Region>, work: seq<nat>, p: Pt)
    requires was <= now && forall k :: 0 <= k < |work| ==> work[k] < |was|
    ensures Pending(was, work, p) <==> Pending(now, work, p)
  {
  }
}
