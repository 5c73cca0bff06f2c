/** River polygons: clipped to the cells of the top layer, rid of duplicate
    areas inside each cell, and compacted. */
module RiverPolygons {
  import opened Regions
  import opened GridZones

  datatype Piece = Piece(i: nat, j: nat, poly: Region)

  /** The clip tells when an intersection has no contour. */
  ghost predicate TellsEmpty(isEmpty: Region -> bool) {
    forall r, p {:trigger isEmpty(r), r(p)} :: isEmpty(r) ==> !r(p)
  }

  function CellRegion(g: Grid, i: nat, j: nat): Region
    requires i < |g.xs| && j < |g.ys|
  {
    (p: Pt) => InZone(g.xs, i, p.x) && InZone(g.ys, j, p.y)
  }

  ghost predicate Bounds(contour: seq<Pt>, r: Rect) {
    forall v :: 0 <= v < |contour| ==> InRect(r, contour[v])
  }

  datatype Range = NoRange | Range(i1: nat, i2: nat, j1: nat, j2: nat)

  /** r leaves out nothing of the rectangle b that lies in the domain. */
  ghost predicate Suffices(g: Grid, b: Rect, r: Range)
    requires g.Nonempty()
  {
    && (r == NoRange ==> b.x2 <= g.xs[0] || b.y2 <= g.ys[0])
    && (r.Range? ==>
          && r.i1 <= r.i2 < |g.xs| && r.j1 <= r.j2 < |g.ys|
          && (r.i1 == 0 || g.xs[r.i1] <= b.x1) && (r.i2 == |g.xs| - 1 || b.x2 <= g.xs[r.i2])
          && (r.j1 == 0 || g.ys[r.j1] <= b.y1) && (r.j2 == |g.ys| - 1 || b.y2 <= g.ys[r.j2]))
  }

  /** The range of nodes around the bounding rectangle of a contour. */
  method VertexToRange(contour: seq<Pt>, g: Grid) returns (r: Range, ghost b: Rect)
    requires g.Valid() && |g.xs| >= 2 && |g.ys| >= 2 && contour != []
    ensures Bounds(contour, b) && b.x1 <= b.x2 && b.y1 <= b.y2
    ensures forall c: Rect :: Bounds(contour, c) ==> c.x1 <= b.x1 && b.x2 <= c.x2 && c.y1 <= b.y1 && b.y2 <= c.y2
    ensures Suffices(g, b, r)
    ensures r == NoRange <==> b.x2 <= g.xs[0] || b.y2 <= g.ys[0]
  {
    var z := Rect(contour[0].x, contour[0].y, contour[0].x, contour[0].y);
    for v := 1 to |contour|
      invariant Bounds(contour[..v], z) && z.x1 <= z.x2 && z.y1 <= z.y2
      invariant forall c: Rect :: Bounds(contour[..v], c) ==> c.x1 <= z.x1 && z.x2 <= c.x2 && c.y1 <= z.y1 && z.y2 <= c.y2
    {
      var q := contour[v];
      assert contour[..v + 1] == contour[..v] + [q];
      z := Widen(contour[..v], z, q);
    }
    assert contour[..|contour|] == contour;
    b := z;
    var okX, i1, i2 := SnapOutToRange(z.x1, z.x2, g.xs, Defined);
    if !okX {
      return NoRange, b;
    }
    var okY, j1, j2 := SnapOutToRange(z.y1, z.y2, g.ys, Defined);
    if !okY {
      return NoRange, b;
    }
    r := Range(i1, i2, j1, j2);
  }

  method Widen(ghost seen: seq<Pt>, z: Rect, q: Pt) returns (r: Rect)
    requires Bounds(seen, z) && z.x1 <= z.x2 && z.y1 <= z.y2
    requires forall c: Rect :: Bounds(seen, c) ==> c.x1 <= z.x1 && z.x2 <= c.x2 && c.y1 <= z.y1 && z.y2 <= c.y2
    ensures Bounds(seen + [q], r) && r.x1 <= r.x2 && r.y1 <= r.y2
    ensures forall c: Rect :: Bounds(seen + [q], c) ==> c.x1 <= r.x1 && r.x2 <= c.x2 && c.y1 <= r.y1 && r.y2 <= c.y2
  {
    r := z;
    if q.x < r.x1 { r := r.(x1 := q.x); }
    if q.x > r.x2 { r := r.(x2 := q.x); }
    if q.y < r.y1 { r := r.(y1 := q.y); }
    if q.y > r.y2 { r := r.(y2 := q.y); }
    forall c: Rect | Bounds(seen + [q], c)
      ensures Bounds(seen, c) && InRect(c, q)
    {
      assert forall v :: 0 <= v < |seen| ==> (seen + [q])[v] == seen[v];
      assert (seen + [q])[|seen|] == q;
    }
  }

  /** Every piece is the part of the polygon in one cell of the range, and cells without a piece hold none of it. */
  ghost predicate Pieces(g: Grid, poly: Region, r: Range, pieces: seq<Piece>, i: nat, j: nat)
    requires r.Range? && r.i2 < |g.xs| && r.j2 < |g.ys|
  {
    && (forall k :: 0 <= k < |pieces| ==>
          r.i1 <= pieces[k].i <= r.i2 && r.j1 <= pieces[k].j <= r.j2 &&
          Same(pieces[k].poly, Intersect(poly, CellRegion(g, pieces[k].i, pieces[k].j))))
    && (forall a, c :: r.i1 <= a <= r.i2 && r.j1 <= c <= r.j2 && (a < i || (a == i && c < j)) ==> CellDone(g, poly, pieces, a, c))
  }

  ghost predicate CellDone(g: Grid, poly: Region, pieces: seq<Piece>, i: nat, j: nat)
    requires i < |g.xs| && j < |g.ys|
  {
    (exists p :: poly(p) && InCell(g, i, j, p)) ==> HasPiece(pieces, i, j)
  }

  ghost predicate InCell(g: Grid, i: nat, j: nat, p: Pt)
    requires i < |g.xs| && j < |g.ys|
  {
    InZone(g.xs, i, p.x) && InZone(g.ys, j, p.y)
  }

  ghost predicate HasPiece(pieces: seq<Piece>, i: nat, j: nat) {
    exists k :: 0 <= k < |pieces| && pieces[k].i == i && pieces[k].j == j
  }

  lemma MorePieces(g: Grid, poly: Region, r: Range, before: seq<Piece>, after: seq<Piece>, i: nat, j: nat)
    requires r.Range? && r.i2 < |g.xs| && r.j2 < |g.ys| && before <= after
    requires Pieces(g, poly, r, before, i, j)
    ensures forall a, c :: r.i1 <= a <= r.i2 && r.j1 <= c <= r.j2 && (a < i || (a == i && c < j)) ==> CellDone(g, poly, after, a, c)
  {
    forall a: nat, c: nat | HasPiece(before, a, c)
      ensures HasPiece(after, a, c)
    {
      var k :| 0 <= k < |before| && before[k].i == a && before[k].j == c;
      assert after[k] == before[k];
    }
    forall a: nat, c: nat | r.i1 <= a <= r.i2 && r.j1 <= c <= r.j2 && (a < i || (a == i && c < j))
      ensures CellDone(g, poly, after, a, c)
    {
      assert CellDone(g, poly, before, a, c);
    }
  }

  /** Clips one river polygon to the cells around it. */
  method ClipToCells(poly: Region, contour: seq<Pt>, g: Grid, isEmpty: Region -> bool)
    returns (pieces: seq<Piece>, r: Range, ghost b: Rect)
    requires g.Valid() && |g.xs| >= 2 && |g.ys| >= 2 && contour != [] && TellsEmpty(isEmpty)
    ensures Bounds(contour, b) && Suffices(g, b, r)
    ensures forall c: Rect :: Bounds(contour, c) ==> c.x1 <= b.x1 && b.x2 <= c.x2 && c.y1 <= b.y1 && b.y2 <= c.y2
    ensures r == NoRange ==> pieces == []
    ensures forall k, p {:trigger pieces[k].poly(p)} :: 0 <= k < |pieces| && pieces[k].poly(p) ==> poly(p) && Belongs(g, pieces[k], p)
    ensures r.Range? ==> Pieces(g, poly, r, pieces, r.i2 + 1, r.j1)
    ensures Encloses(contour, poly) ==> Complete(poly, g, pieces, r)
  {
    pieces := [];
    r, b := VertexToRange(contour, g);
    if r == NoRange {
      if Encloses(contour, poly) { NothingLost(poly, contour, g, pieces, r, b); }
      return;
    }
    for i := r.i1 to r.i2 + 1
      invariant Pieces(g, poly, r, pieces, i, r.j1)
    {
      for j := r.j1 to r.j2 + 1
        invariant Pieces(g, poly, r, pieces, i, j)
      {
        pieces := ClipToCell(poly, g, r, pieces, i, j, isEmpty);
      }
    }
    if Encloses(contour, poly) { NothingLost(poly, contour, g, pieces, r, b); }
    PiecesBelong(g, poly, r, pieces, r.i2 + 1, r.j1);
  }

  /** p lies no further from the node of the piece than halfway to the nodes next to it. */
  ghost predicate Belongs(g: Grid, q: Piece, p: Pt) {
    && q.i < |g.xs| && q.j < |g.ys|
    && (if q.i == 0 then g.xs[0] <= p.x else g.xs[q.i - 1] + g.xs[q.i] <= p.x + p.x)
    && (if q.i == |g.xs| - 1 then p.x <= g.xs[q.i] else p.x + p.x <= g.xs[q.i] + g.xs[q.i + 1])
    && (if q.j == 0 then g.ys[0] <= p.y else g.ys[q.j - 1] + g.ys[q.j] <= p.y + p.y)
    && (if q.j == |g.ys| - 1 then p.y <= g.ys[q.j] else p.y + p.y <= g.ys[q.j] + g.ys[q.j + 1])
  }

  lemma PiecesBelong(g: Grid, poly: Region, r: Range, pieces: seq<Piece>, i: nat, j: nat)
    requires r.Range? && r.i2 < |g.xs| && r.j2 < |g.ys| && Pieces(g, poly, r, pieces, i, j)
    ensures forall k, p {:trigger pieces[k].poly(p)} :: 0 <= k < |pieces| && pieces[k].poly(p) ==> poly(p) && Belongs(g, pieces[k], p)
  {
    forall k, p | 0 <= k < |pieces| && pieces[k].poly(p)
      ensures poly(p) && Belongs(g, pieces[k], p)
    {
      assert Same(pieces[k].poly, Intersect(poly, CellRegion(g, pieces[k].i, pieces[k].j)));
    }
  }

  /** The points of the polygon lie in every rectangle around its contour. */
  ghost predicate Encloses(contour: seq<Pt>, poly: Region) {
    forall c: Rect, p: Pt {:trigger Bounds(contour, c), poly(p)} :: Bounds(contour, c) && poly(p) ==> InRect(c, p)
  }

  ghost predicate InDomain(g: Grid, p: Pt)
    requires g.Nonempty()
  {
    g.xs[0] <= p.x <= g.xs[|g.xs|-1] && g.ys[0] <= p.y <= g.ys[|g.ys|-1]
  }

  ghost predicate InPieces(pieces: seq<Piece>, p: Pt) {
    exists k :: 0 <= k < |pieces| && pieces[k].poly(p)
  }

  /** The pieces hold every point of the polygon in the domain; without a range only points on the first grid line of an
      axis are left out. */
  ghost predicate Complete(poly: Region, g: Grid, pieces: seq<Piece>, r: Range)
    requires g.Nonempty()
  {
    forall p: Pt {:trigger poly(p)} :: poly(p) && InDomain(g, p) ==>
      if r.Range? then InPieces(pieces, p) else p.x == g.xs[0] || p.y == g.ys[0]
  }

  /** Clips it to one cell. */
  method ClipToCell(poly: Region, g: Grid, r: Range, pieces: seq<Piece>, i: nat, j: nat, isEmpty: Region -> bool)
    returns (more: seq<Piece>)
    requires r.Range? && TellsEmpty(isEmpty) && r.i1 <= i <= r.i2 < |g.xs| && r.j1 <= j <= r.j2 < |g.ys|
    requires g.Valid() && |g.xs| >= 2 && |g.ys| >= 2 && Pieces(g, poly, r, pieces, i, j)
    ensures Pieces(g, poly, r, more, i, j + 1)
  {
    more := pieces;
    var intersection := Intersect(poly, CellRegion(g, i, j));
    if !isEmpty(intersection) {
      more := pieces + [Piece(i, j, intersection)];
      assert more[|pieces|] == Piece(i, j, intersection) && HasPiece(more, i, j);
      MorePieces(g, poly, r, pieces, more, i, j);
    } else {
      assert forall p :: poly(p) && InCell(g, i, j, p) ==> intersection(p);
    }
    assert CellDone(g, poly, more, i, j);
  }

  /** Nothing is lost inside the domain. */
  lemma NothingLost(poly: Region, contour: seq<Pt>, g: Grid, pieces: seq<Piece>, r: Range, b: Rect)
    requires g.Valid() && |g.xs| >= 2 && |g.ys| >= 2 && Bounds(contour, b) && Encloses(contour, poly)
    requires Suffices(g, b, r) && (r.Range? ==> Pieces(g, poly, r, pieces, r.i2 + 1, r.j1))
    ensures Complete(poly, g, pieces, r)
  {
    forall p: Pt | poly(p) && InDomain(g, p)
      ensures if r.Range? then InPieces(pieces, p) else p.x == g.xs[0] || p.y == g.ys[0]
    {
      PointKept(poly, g, pieces, r, b, p);
    }
  }

  lemma PointKept(poly: Region, g: Grid, pieces: seq<Piece>, r: Range, b: Rect, p: Pt)
    requires g.Valid() && |g.xs| >= 2 && |g.ys| >= 2 && poly(p) && InRect(b, p) && InDomain(g, p)
    requires Suffices(g, b, r) && (r.Range? ==> Pieces(g, poly, r, pieces, r.i2 + 1, r.j1))
    ensures if r.Range? then InPieces(pieces, p) else p.x == g.xs[0] || p.y == g.ys[0]
  {
    if r.Range? {
      SnappedRangeSuffices(g.xs, b.x1, b.x2, r.i1, r.i2, p.x);
      SnappedRangeSuffices(g.ys, b.y1, b.y2, r.j1, r.j2, p.y);
      var i :| r.i1 <= i <= r.i2 && InZone(g.xs, i, p.x);
      var j :| r.j1 <= j <= r.j2 && InZone(g.ys, j, p.y);
      assert InCell(g, i, j, p) && CellDone(g, poly, pieces, i, j);
      var k :| 0 <= k < |pieces| && pieces[k].i == i && pieces[k].j == j;
      assert Same(pieces[k].poly, Intersect(poly, CellRegion(g, i, j)));
    }
  }

  // ----- duplicate areas inside one cell

  ghost predicate EarlierCovers(polys: seq<Region>, k: nat, p: Pt) {
    exists i :: 0 <= i < k && i < |polys| && polys[i](p)
  }

  /** After the rounds before j, and in round j the polygons before k: polygon m has lost what the polygons of those
      rounds cover. */
  ghost predicate Deduped(was: seq<Region>, now: seq<Region>, j: nat, k: nat) {
    && |now| == |was|
    && forall m, p {:trigger now[m](p)} :: 0 <= m < |was| ==>
         (now[m](p) <==> was[m](p) && !EarlierCovers(was, if m <= j then m else if m < k then j + 1 else j, p))
  }

  lemma EarlierStep(was: seq<Region>, j: nat, p: Pt)
    requires j < |was|
    ensures EarlierCovers(was, j + 1, p) <==> EarlierCovers(was, j, p) || was[j](p)
  {
  }

  /** Taking polygon j from polygon k, or leaving k if they share nothing, completes the pair. */
  lemma DedupeStep(was: seq<Region>, now: seq<Region>, j: nat, k: nat)
    requires Deduped(was, now, j, k) && j < k < |was|
    ensures Deduped(was, now[k := Difference(now[k], now[j])], j, k + 1)
    ensures (forall p :: !(now[k](p) && now[j](p))) ==> Deduped(was, now, j, k + 1)
  {
    var cut := now[k := Difference(now[k], now[j])];
    forall m, p | 0 <= m < |was|
      ensures cut[m](p) <==> was[m](p) && !EarlierCovers(was, if m <= j then m else if m < k + 1 then j + 1 else j, p)
    {
      EarlierStep(was, j, p);
      assert now[m](p) <==> was[m](p) && !EarlierCovers(was, if m <= j then m else if m < k then j + 1 else j, p);
      assert now[j](p) <==> was[j](p) && !EarlierCovers(was, j, p);
    }
    if forall p :: !(now[k](p) && now[j](p)) {
      forall m, p | 0 <= m < |was|
        ensures now[m](p) <==> was[m](p) && !EarlierCovers(was, if m <= j then m else if m < k + 1 then j + 1 else j, p)
      {
        EarlierStep(was, j, p);
        assert now[m](p) <==> was[m](p) && !EarlierCovers(was, if m <= j then m else if m < k then j + 1 else j, p);
        assert now[j](p) <==> was[j](p) && !EarlierCovers(was, j, p);
      }
    }
  }

  /** The river and the point on it that a polygon belongs to. */
  datatype Segment = Segment(river: nat, point: nat)

  /** The polygons of rivers that share a cell, each recorded with its segment. */
  class CellRivers {
    var polys: seq<Region>
    var segments: seq<Segment>

    constructor (polys: seq<Region>, segments: seq<Segment>)
      ensures this.polys == polys && this.segments == segments
    {
      this.polys, this.segments := polys, segments;
    }

    /** Each polygon loses what the polygons before it cover. */
    method RemoveDuplicateAreas(isEmpty: Region -> bool)
      requires TellsEmpty(isEmpty)
      modifies `polys
      ensures |polys| == |old(polys)|
      ensures forall m, p {:trigger polys[m](p)} :: 0 <= m < |polys| ==> (polys[m](p) <==> old(polys)[m](p) && !EarlierCovers(old(polys), m, p))
    {
      ghost var was := polys;
      if |polys| <= 1 {
        return;
      }
      for j := 0 to |polys| - 1
        invariant Deduped(was, polys, j, j + 1)
      {
        for k := j + 1 to |polys|
          invariant Deduped(was, polys, j, k)
        {
          var intersection := Intersect(polys[k], polys[j]);
          DedupeStep(was, polys, j, k);
          if !isEmpty(intersection) {
            polys := polys[k := Difference(polys[k], polys[j])];
          } else {
            forall p ensures !(polys[k](p) && polys[j](p)) { assert !intersection(p); }
          }
        }
      }
    }

    /** Drops the polygons without area, keeping the order of the others. Polygons move forward, segments do not. */
    method RemoveEmpty(isEmpty: Region -> bool, area: Region -> real)
      requires |polys| == |segments|
      modifies this
      ensures polys == Kept(old(polys), isEmpty, area)
      ensures |polys| <= |old(segments)| && segments == old(segments)[..|polys|]
      ensures forall r: Region :: r in polys <==> r in old(polys) && !isEmpty(r) && area(r) > 0.0
    {
      var k := 0;
      ghost var was := polys;
      for j := 0 to |polys|
        invariant k <= j && |polys| == |was|
        invariant polys[..k] == Kept(was[..j], isEmpty, area)
        invariant polys[j..] == was[j..]
        modifies `polys
      {
        MoveStep(was, polys, j, k, isEmpty, area);
        if !Without(polys[j], isEmpty, area) {
          if j != k {
            polys := polys[k := polys[j]];
          }
          k := k + 1;
        }
      }
      assert was[..|polys|] == was;
      polys := polys[..k];
      segments := segments[..k];
      forall r: Region
        ensures r in polys <==> r in was && !isEmpty(r) && area(r) > 0.0
      {
        KeptMember(was, isEmpty, area, r);
      }
    }
  }

  predicate Without(q: Region, isEmpty: Region -> bool, area: Region -> real) {
    isEmpty(q) || area(q) <= 0.0
  }

  function Kept(polys: seq<Region>, isEmpty: Region -> bool, area: Region -> real): seq<Region> {
    if polys == [] then []
    else
      var r, q := Kept(polys[..|polys|-1], isEmpty, area), polys[|polys|-1];
      if Without(q, isEmpty, area) then r else r + [q]
  }

  /** Moving polygon j to place k, if it has area, keeps one more polygon. */
  lemma MoveStep(was: seq<Region>, now: seq<Region>, j: nat, k: nat, isEmpty: Region -> bool, area: Region -> real)
    requires k <= j < |was| == |now| && now[..k] == Kept(was[..j], isEmpty, area) && now[j..] == was[j..]
    ensures now[j] == was[j] && now[k := now[j]][j + 1..] == now[j + 1..] == was[j + 1..]
    ensures Without(now[j], isEmpty, area) ==> now[..k] == Kept(was[..j + 1], isEmpty, area)
    ensures !Without(now[j], isEmpty, area) ==> now[k := now[j]][..k + 1] == Kept(was[..j + 1], isEmpty, area)
    ensures k == j ==> now[k := now[j]] == now
  {
    assert was[..j + 1][..j] == was[..j];
    assert now[j] == now[j..][0] == was[j..][0];
    assert now[j + 1..] == now[j..][1..] == was[j..][1..];
    assert now[k := now[j]][..k + 1] == now[..k] + [now[j]];
  }

  /** Where the kept polygons were. */
  function KeptPlaces(polys: seq<Region>, isEmpty: Region -> bool, area: Region -> real): seq<nat> {
    if polys == [] then []
    else
      var r := KeptPlaces(polys[..|polys|-1], isEmpty, area);
      if Without(polys[|polys|-1], isEmpty, area) then r else r + [|polys| - 1]
  }

  /** Each place is that of the polygon kept there. */
  lemma {:induction false} KeptAt(polys: seq<Region>, isEmpty: Region -> bool, area: Region -> real)
    ensures var r, at := Kept(polys, isEmpty, area), KeptPlaces(polys, isEmpty, area);
            && |r| == |at| <= |polys|
            && forall k :: 0 <= k < |at| ==> k <= at[k] < |polys| && r[k] == polys[at[k]] && !isEmpty(r[k]) && area(r[k]) > 0.0
  {
    if polys != [] {
      KeptAt(polys[..|polys|-1], isEmpty, area);
    }
  }

  lemma {:induction false} KeptMember(polys: seq<Region>, isEmpty: Region -> bool, area: Region -> real, r: Region)
    ensures r in Kept(polys, isEmpty, area) <==> r in polys && !isEmpty(r) && area(r) > 0.0
  {
    if polys != [] {
      KeptMember(polys[..|polys|-1], isEmpty, area, r);
      assert polys == polys[..|polys|-1] + [polys[|polys|-1]];
    }
  }

  /** Every polygon with area has a place. */
  lemma {:induction false} KeptAll(polys: seq<Region>, isEmpty: Region -> bool, area: Region -> real, i: nat)
    requires i < |polys| && !isEmpty(polys[i]) && area(polys[i]) > 0.0
    ensures i in KeptPlaces(polys, isEmpty, area)
  {
    if i < |polys| - 1 {
      KeptAll(polys[..|polys|-1], isEmpty, area, i);
    }
  }

  lemma {:induction false} KeptInOrder(polys: seq<Region>, isEmpty: Region -> bool, area: Region -> real)
    ensures forall j, k :: 0 <= j < k < |KeptPlaces(polys, isEmpty, area)| ==>
              KeptPlaces(polys, isEmpty, area)[j] < KeptPlaces(polys, isEmpty, area)[k]
  {
    if polys != [] {
      KeptAt(polys[..|polys|-1], isEmpty, area);
      KeptInOrder(polys[..|polys|-1], isEmpty, area);
    }
  }

  /** Place k of the kept polygons has the segment of the polygon that was moved there. */
  ghost predicate Own(segments: seq<Segment>, at: seq<nat>, k: int) {
    0 <= k < |at| && k < |segments| && at[k] < |segments| && segments[k] == segments[at[k]]
  }

  /** Every polygon that is left stands with the segment it belongs to. */
  ghost predicate SegmentsRight(polys: seq<Region>, segments: seq<Segment>, isEmpty: Region -> bool, area: Region -> real) {
    var at := KeptPlaces(polys, isEmpty, area);
    forall k :: 0 <= k < |at| ==> Own(segments, at, k)
  }

  /** Compaction leaves polygons with their own segments exactly if no polygon without area stood before one that is
      kept. */
  lemma SegmentsStay(polys: seq<Region>, segments: seq<Segment>, isEmpty: Region -> bool, area: Region -> real)
    requires |polys| == |segments| && forall i, j :: 0 <= i < j < |segments| ==> segments[i] != segments[j]
    ensures SegmentsRight(polys, segments, isEmpty, area) <==>
            forall i, j :: 0 <= i < j < |polys| && !isEmpty(polys[j]) && area(polys[j]) > 0.0 ==>
              !isEmpty(polys[i]) && area(polys[i]) > 0.0
  {
    KeptAt(polys, isEmpty, area);
    KeptInOrder(polys, isEmpty, area);
    var r, at := Kept(polys, isEmpty, area), KeptPlaces(polys, isEmpty, area);
    if SegmentsRight(polys, segments, isEmpty, area) {
      forall i, j | 0 <= i < j < |polys| && !Without(polys[j], isEmpty, area)
        ensures !Without(polys[i], isEmpty, area)
      {
        KeptAll(polys, isEmpty, area, j);
        var k :| 0 <= k < |at| && at[k] == j;
        assert Own(segments, at, k);
        NothingMoved(at, j, i);
        assert r[i] == polys[at[i]];
      }
    } else {
      var k :| 0 <= k < |at| && !Own(segments, at, k);
      assert r[k] == polys[at[k]];
      PlaceSkipped(polys, isEmpty, area, k);
    }
  }

  lemma KeptLast(front: seq<Region>, q: Region, isEmpty: Region -> bool, area: Region -> real)
    ensures Kept(front + [q], isEmpty, area) ==
              Kept(front, isEmpty, area) + if Without(q, isEmpty, area) then [] else [q]
    ensures KeptPlaces(front + [q], isEmpty, area) ==
              KeptPlaces(front, isEmpty, area) + if Without(q, isEmpty, area) then [] else [|front|]
  {
    assert (front + [q])[..|front|] == front;
  }

  const UNIT_SQUARE: Region := (p: Pt) => 0.0 <= p.x <= 1.0 && 0.0 <= p.y <= 1.0

  /** Two polygons in a cell, the first left without points: the second moves forward, and stands with the number of the
      first. */
  lemma SecondTakesFirstSegment(isEmpty: Region -> bool, area: Region -> real)
    requires TellsEmpty(isEmpty) && area(NOWHERE) == 0.0 && area(UNIT_SQUARE) == 1.0
    ensures var polys, segments := [NOWHERE, UNIT_SQUARE], [Segment(1, 0), Segment(2, 7)];
            && Kept(polys, isEmpty, area) == [UNIT_SQUARE]
            && segments[..|Kept(polys, isEmpty, area)|] == [Segment(1, 0)]
            && !SegmentsRight(polys, segments, isEmpty, area)
  {
    var polys, segments := [NOWHERE, UNIT_SQUARE], [Segment(1, 0), Segment(2, 7)];
    assert UNIT_SQUARE(Pt(0.0, 0.0));
    assert Without(NOWHERE, isEmpty, area) && !Without(UNIT_SQUARE, isEmpty, area);
    KeptLast([], NOWHERE, isEmpty, area);
    KeptLast([NOWHERE], UNIT_SQUARE, isEmpty, area);
    assert [] + [NOWHERE] == [NOWHERE] && [NOWHERE] + [UNIT_SQUARE] == polys;
    assert KeptPlaces(polys, isEmpty, area) == [1];
    assert !Own(segments, [1], 0);
  }

  /** If place j of an increasing list of places is where it was, so are the places before it. */
  lemma {:induction false} NothingMoved(at: seq<nat>, j: nat, i: nat)
    requires i <= j < |at| && at[j] == j
    requires (forall m :: 0 <= m < |at| ==> m <= at[m]) && forall m, k :: 0 <= m < k < |at| ==> at[m] < at[k]
    ensures at[i] == i
  {
    if i < j {
      assert at[j - 1] < at[j];
      NothingMoved(at, j - 1, i);
    }
  }

  /** A kept polygon that moved forward had one without area before it. */
  lemma {:induction false} PlaceSkipped(polys: seq<Region>, isEmpty: Region -> bool, area: Region -> real, k: nat)
    requires k < |KeptPlaces(polys, isEmpty, area)| && KeptPlaces(polys, isEmpty, area)[k] != k
    ensures var j := KeptPlaces(polys, isEmpty, area)[k];
            j < |polys| && exists i :: 0 <= i < j && Without(polys[i], isEmpty, area)
  {
    KeptAt(polys, isEmpty, area);
    KeptInOrder(polys, isEmpty, area);
    var at := KeptPlaces(polys, isEmpty, area);
    if forall i :: 0 <= i < at[k] ==> !Without(polys[i], isEmpty, area) {
      forall i: nat | i < at[k] ensures i in at { KeptAll(polys, isEmpty, area, i); }
      NoneSkipped(at, at[k], k);
    }
  }

  /** An increasing list that holds every number below n has n itself no earlier than place n. */
  lemma {:induction false} NoneSkipped(at: seq<nat>, n: nat, k: nat)
    requires (forall j, k :: 0 <= j < k < |at| ==> at[j] < at[k]) && forall i: nat :: i < n ==> i in at
    requires k < |at| && at[k] == n
    ensures n <= k
  {
    if n > 0 {
      assert n - 1 in at;
      var m: nat :| m < |at| && at[m] == n - 1;
      NoneSkipped(at, n - 1, m);
    }
  }

  /** The first polygon that covers a point keeps it: disjoint afterwards, with the same union. */
  lemma FirstWins(was: seq<Region>, now: seq<Region>, p: Pt)
    requires |now| == |was|
    requires forall m :: 0 <= m < |was| ==> (now[m](p) <==> was[m](p) && !EarlierCovers(was, m, p))
    ensures forall i, j :: 0 <= i < j < |now| ==> !(now[i](p) && now[j](p))
    ensures InAny(now, p) <==> InAny(was, p)
  {
    forall i, j | 0 <= i < j < |now|
      ensures !(now[i](p) && now[j](p))
    {
      assert was[i](p) ==> EarlierCovers(was, j, p);
    }
    if InAny(was, p) {
      var i := FirstCovering(was, 0, p);
      assert now[i](p);
    }
  }

  lemma {:induction false} FirstCovering(was: seq<Region>, k: nat, p: Pt) returns (i: nat)
    requires InAny(was, p) && !EarlierCovers(was, k, p) && k <= |was|
    ensures i < |was| && was[i](p) && !EarlierCovers(was, i, p)
    decreases |was| - k
  {
    if k < |was| && was[k](p) {
      i := k;
    } else {
      var w :| 0 <= w < |was| && was[w](p);
      assert !(w < k);
      EarlierStep(was, k, p);
      i := FirstCovering(was, k + 1, p);
    }
  }

  /** Compaction loses only points of polygons without area. */
  lemma {:induction false} KeptUnion(polys: seq<Region>, isEmpty: Region -> bool, area: Region -> real, p: Pt)
    requires TellsEmpty(isEmpty)
    ensures InAny(polys, p) <==>
              InAny(Kept(polys, isEmpty, area), p) || exists i :: 0 <= i < |polys| && area(polys[i]) <= 0.0 && polys[i](p)
  {
    if polys != [] {
      var front, q := polys[..|polys|-1], polys[|polys|-1];
      KeptUnion(front, isEmpty, area, p);
      InAnyStep(front, q, p);
      InAnyStep(Kept(front, isEmpty, area), q, p);
      assert polys == front + [q];
      if i :| 0 <= i < |front| && area(front[i]) <= 0.0 && front[i](p) {
        assert polys[i] == front[i];
      }
      if i :| 0 <= i < |polys| && area(polys[i]) <= 0.0 && polys[i](p) {
        assert i < |front| ==> front[i] == polys[i];
      }
    }
  }

  lemma InAnyStep(rs: seq<Region>, q: Region, p: Pt)
    ensures InAny(rs + [q], p) <==> InAny(rs, p) || q(p)
  {
    var s := rs + [q];
    if i :| 0 <= i < |rs| && rs[i](p) { assert s[i](p); }
    assert s[|rs|] == q;
    if i :| 0 <= i < |s| && s[i](p) { assert i < |rs| ==> rs[i](p); }
  }
}
