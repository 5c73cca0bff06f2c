/** Polygons as the callers of the clipper see them: sets of points, with the
    clip operations taken as the set operations. */
module Regions {

  datatype Pt = Pt(x: real, y: real)

  type Region = Pt -> bool

  datatype Rect = Rect(x1: real, y1: real, x2: real, y2: real)

  const NOWHERE: Region := p => false

  function Intersect(a: Region, b: Region): Region {
    p => a(p) && b(p)
  }

  function Union(a: Region, b: Region): Region {
    p => a(p) || b(p)
  }

  function Difference(a: Region, b: Region): Region {
    p => a(p) && !b(p)
  }

  /** The closed rectangle. */
  predicate InRect(r: Rect, p: Pt) {
    r.x1 <= p.x <= r.x2 && r.y1 <= p.y <= r.y2
  }

  function Rectangle(r: Rect): Region {
    p => InRect(r, p)
  }

  ghost predicate Same(a: Region, b: Region) {
    forall p :: a(p) <==> b(p)
  }

  ghost predicate Disjoint(a: Region, b: Region) {
    forall p :: !(a(p) && b(p))
  }

  /** The points of any of the regions. */
  ghost predicate InAny(rs: seq<Region>, p: Pt) {
    exists i :: 0 <= i < |rs| && rs[i](p)
  }
}
