/** The start of a clip: contours that cannot contribute are switched off by
    their bounding boxes, both polygons are turned into edges and bounds, and
    the scanbeam walk takes the bounds up. */
module ClipSetup {
  import opened Basics
  import opened ScanbeamTables
  import opened EdgeTable

  datatype Op = Diff | Int | Xor | Union

  const DBL_MAX: real := 1.7976931348623157e308

  datatype BBox = BBox(xmin: real, ymin: real, xmax: real, ymax: real)

  const EMPTY_BOX: BBox := BBox(DBL_MAX, DBL_MAX, -DBL_MAX, -DBL_MAX)

  predicate InRange(v: Vertex) {
    -DBL_MAX <= v.x <= DBL_MAX && -DBL_MAX <= v.y <= DBL_MAX
  }

  predicate Inside(v: Vertex, b: BBox) {
    b.xmin <= v.x <= b.xmax && b.ymin <= v.y <= b.ymax
  }

  /** b is the least box around the contour c, empty if c is. */
  ghost predicate IsBox(c: seq<Vertex>, b: BBox) {
    if c == [] then b == EMPTY_BOX
    else
      && (forall i :: 0 <= i < |c| ==> Inside(c[i], b))
      && (exists i :: 0 <= i < |c| && c[i].x == b.xmin) && (exists i :: 0 <= i < |c| && c[i].x == b.xmax)
      && (exists i :: 0 <= i < |c| && c[i].y == b.ymin) && (exists i :: 0 <= i < |c| && c[i].y == b.ymax)
  }

  predicate Overlap(s: BBox, c: BBox) {
    !(s.xmax < c.xmin || s.xmin > c.xmax) && !(s.ymax < c.ymin || s.ymin > c.ymax)
  }

  /** Boxes of contours overlap exactly if they share a point, if only on their sides. */
  lemma OverlapIsShared(a: BBox, b: BBox)
    requires a.xmin <= a.xmax && a.ymin <= a.ymax && b.xmin <= b.xmax && b.ymin <= b.ymax
    ensures Overlap(a, b) <==> exists v :: Inside(v, a) && Inside(v, b)
  {
    if Overlap(a, b) {
      var v := Vertex(if a.xmin < b.xmin then b.xmin else a.xmin, if a.ymin < b.ymin then b.ymin else a.ymin);
      assert Inside(v, a) && Inside(v, b);
    }
  }

  function Extend(b: BBox, v: Vertex): BBox {
    BBox(if v.x < b.xmin then v.x else b.xmin, if v.y < b.ymin then v.y else b.ymin,
         if v.x > b.xmax then v.x else b.xmax, if v.y > b.ymax then v.y else b.ymax)
  }

  lemma BoxGrows(c: seq<Vertex>, b: BBox, v: Vertex)
    requires IsBox(c, b) && InRange(v)
    ensures IsBox(c + [v], Extend(b, v))
  {
    var d, e := c + [v], Extend(b, v);
    assert d[|c|] == v;
    if c != [] {
      var i :| 0 <= i < |c| && c[i].x == b.xmin;
      var j :| 0 <= j < |c| && c[j].x == b.xmax;
      var k :| 0 <= k < |c| && c[k].y == b.ymin;
      var l :| 0 <= l < |c| && c[l].y == b.ymax;
      assert d[i] == c[i] && d[j] == c[j] && d[k] == c[k] && d[l] == c[l];
    }
  }

  method ContourBBox(c: seq<Vertex>) returns (b: BBox)
    requires forall i :: 0 <= i < |c| ==> InRange(c[i])
    ensures IsBox(c, b)
  {
    b := EMPTY_BOX;
    for v := 0 to |c|
      invariant IsBox(c[..v], b)
    {
      ghost var was := b;
      if c[v].x < b.xmin {
        b := b.(xmin := c[v].x);
      }
      if c[v].y < b.ymin {
        b := b.(ymin := c[v].y);
      }
      if c[v].x > b.xmax {
        b := b.(xmax := c[v].x);
      }
      if c[v].y > b.ymax {
        b := b.(ymax := c[v].y);
      }
      BoxGrows(c[..v], was, c[v]);
      assert c[..v + 1] == c[..v] + [c[v]];
    }
    assert c[..|c|] == c;
  }

  ghost predicate Boxes(contours: seq<seq<Vertex>>, boxes: seq<BBox>) {
    |boxes| == |contours| && forall c :: 0 <= c < |contours| ==> IsBox(contours[c], boxes[c])
  }

  ghost predicate AllInRange(contours: seq<seq<Vertex>>) {
    forall c, i :: 0 <= c < |contours| && 0 <= i < |contours[c]| ==> InRange(contours[c][i])
  }

  method CreateContourBBoxes(p: Polygon) returns (boxes: seq<BBox>)
    requires AllInRange(p.contours)
    ensures Boxes(p.contours, boxes)
  {
    boxes := [];
    for c := 0 to |p.contours|
      invariant Boxes(p.contours[..c], boxes)
    {
      var b := ContourBBox(p.contours[c]);
      boxes := boxes + [b];
    }
    assert p.contours[..|p.contours|] == p.contours;
  }

  /** Some box of bs overlaps b. */
  ghost predicate Meets(b: BBox, bs: seq<BBox>) {
    exists i :: 0 <= i < |bs| && Overlap(b, bs[i])
  }

  /** Of the first k contours, those whose box meets none of the others are switched off, and no other contour is. */
  ghost predicate FlaggedUpTo(p: Polygon, boxes: seq<BBox>, others: seq<BBox>, k: nat)
    reads p
  {
    && |p.count| == |p.contours| == |boxes|
    && forall c :: 0 <= c < |boxes| ==>
         p.count[c] == if c < k && !Meets(boxes[c], others) then -|p.contours[c]| else |p.contours[c]|
  }

  ghost predicate Flagged(p: Polygon, boxes: seq<BBox>, others: seq<BBox>)
    reads p
  {
    FlaggedUpTo(p, boxes, others, |boxes|)
  }

  /** The least box around a contour is the only one. */
  lemma BoxUnique(c: seq<Vertex>, a: BBox, b: BBox)
    requires IsBox(c, a) && IsBox(c, b)
    ensures a == b && (c != [] ==> Overlap(a, a))
  {
    if c != [] {
      assert forall i :: 0 <= i < |c| ==> Inside(c[i], a) && Inside(c[i], b);
    }
  }

  lemma BoxesUnique(contours: seq<seq<Vertex>>, a: seq<BBox>, b: seq<BBox>)
    requires Boxes(contours, a) && Boxes(contours, b)
    ensures a == b && forall c :: 0 <= c < |contours| && contours[c] != [] ==> Meets(a[c], a)
  {
    forall c | 0 <= c < |contours|
      ensures a[c] == b[c] && (contours[c] != [] ==> Meets(a[c], a))
    {
      BoxUnique(contours[c], a[c], b[c]);
    }
  }

  /** The overlap table: a row for each clip contour, a column for each subject contour. */
  ghost predicate TableOk(oTable: array2<bool>, sBox: seq<BBox>, cBox: seq<BBox>)
    reads oTable
  {
    && oTable.Length0 == |cBox| && oTable.Length1 == |sBox|
    && forall c, s :: 0 <= c < |cBox| && 0 <= s < |sBox| ==> oTable[c, s] == Overlap(sBox[s], cBox[c])
  }

  /** Negates the vertex counts of the clip contours whose box meets no subject box. */
  method FlagClip(clip: Polygon, oTable: array2<bool>, ghost sBox: seq<BBox>, ghost cBox: seq<BBox>)
    requires TableOk(oTable, sBox, cBox) && FlaggedUpTo(clip, cBox, sBox, 0)
    modifies clip
    ensures Flagged(clip, cBox, sBox)
  {
    for c := 0 to oTable.Length0
      invariant FlaggedUpTo(clip, cBox, sBox, c)
    {
      var overlap, s := false, 0;
      while !overlap && s < oTable.Length1
        invariant s <= oTable.Length1 && (overlap ==> Meets(cBox[c], sBox))
        invariant !overlap ==> forall i :: 0 <= i < s ==> !Overlap(cBox[c], sBox[i])
      {
        overlap := oTable[c, s];
        s := s + 1;
      }
      if !overlap {
        clip.count := clip.count[c := -clip.count[c]];
      }
    }
  }

  /** Negates the vertex counts of the subject contours whose box meets no clip box. */
  method FlagSubj(subj: Polygon, oTable: array2<bool>, ghost sBox: seq<BBox>, ghost cBox: seq<BBox>)
    requires TableOk(oTable, sBox, cBox) && FlaggedUpTo(subj, sBox, cBox, 0)
    modifies subj
    ensures Flagged(subj, sBox, cBox)
  {
    for s := 0 to oTable.Length1
      invariant FlaggedUpTo(subj, sBox, cBox, s)
    {
      var overlap, c := false, 0;
      while !overlap && c < oTable.Length0
        invariant c <= oTable.Length0 && (overlap ==> Meets(sBox[s], cBox))
        invariant !overlap ==> forall i :: 0 <= i < c ==> !Overlap(sBox[s], cBox[i])
      {
        overlap := oTable[c, s];
        c := c + 1;
      }
      if !overlap {
        subj.count := subj.count[s := -subj.count[s]];
      }
    }
  }

  /** Negates the vertex counts of the contours whose box meets no box of the other polygon:
      those of the clip polygon always, those of the subject polygon for an intersection. */
  method MinimaxTest(subj: Polygon, clip: Polygon, op: Op) returns (sBox: seq<BBox>, cBox: seq<BBox>)
    requires subj.Plain() && clip.Plain() && AllInRange(subj.contours) && AllInRange(clip.contours)
    modifies subj, clip
    ensures Boxes(subj.contours, sBox) && Boxes(clip.contours, cBox)
    ensures Flagged(clip, cBox, sBox)
    ensures if op == Int then Flagged(subj, sBox, cBox) else subj.Plain()
    ensures subj == clip ==> subj.Plain()
  {
    sBox := CreateContourBBoxes(subj);
    cBox := CreateContourBBoxes(clip);
    if subj == clip { BoxesUnique(subj.contours, sBox, cBox); }
    var s, c := sBox, cBox;
    var oTable := new bool[|c|, |s|]((j, i) requires 0 <= j < |c| && 0 <= i < |s| => Overlap(s[i], c[j]));
    FlagClip(clip, oTable, sBox, cBox);
    if op == Int {
      FlagSubj(subj, oTable, sBox, cBox);
    }
  }

  /** The vertex counts after the bounding-box test. */
  ghost predicate AfterTest(p: Polygon, count: seq<int>, boxes: seq<BBox>, others: seq<BBox>, boxed: bool) {
    && |count| == |p.contours|
    && (boxed ==> |boxes| == |count|)
    && forall c :: 0 <= c < |count| ==>
         count[c] == if boxed && !Meets(boxes[c], others) then -|p.contours[c]| else |p.contours[c]|
  }

  /** Runs the bounding-box test when the operation calls for it. */
  method TestContours(subj: Polygon, clip: Polygon, op: Op) returns (ghost sBox: seq<BBox>, ghost cBox: seq<BBox>)
    requires subj.Plain() && clip.Plain() && AllInRange(subj.contours) && AllInRange(clip.contours)
    modifies subj, clip
    ensures subj.Valid() && clip.Valid() && (subj == clip ==> subj.Plain())
    ensures var on := (op == Int || op == Diff) && subj.contours != [] && clip.contours != [];
            && (on ==> Boxes(subj.contours, sBox) && Boxes(clip.contours, cBox))
            && AfterTest(clip, clip.count, cBox, sBox, on)
            && AfterTest(subj, subj.count, sBox, cBox, on && op == Int)
  {
    sBox, cBox := [], [];
    if (op == Int || op == Diff) && |subj.contours| > 0 && |clip.contours| > 0 {
      sBox, cBox := MinimaxTest(subj, clip, op);
    }
  }

  /** The contours of p that were not switched off by `count`. */
  ghost function Kept(p: Polygon, count: seq<int>): seq<seq<Vertex>>
    requires |count| == |p.contours|
  {
    Contributing(p.contours, count, |p.contours|)
  }

  /** The edge table, bounds and heights of one polygon, if it has contours. */
  method AddPolygon(p: Polygon, isClip: bool, lmt: LocalMinima, tree: ScanbeamTree, blank: EdgeNode)
    requires p.Valid() && tree.Valid()
    modifies p, lmt, tree
    ensures p.Plain()
    ensures lmt.table == Filed(old(lmt.table), PolygonBounds(Kept(p, old(p.count)), isClip))
    ensures tree.Valid()
    ensures Elements(InOrder(tree.root)) == Elements(InOrder(old(tree.root))) + PolygonYs(Kept(p, old(p.count)))
  {
    if |p.contours| > 0 {
      var heap, index := BuildLmt(p, isClip, lmt, tree, blank);
    }
  }

  /** The same for both polygons; the switched-off contours are switched on again. */
  method BuildBoth(subj: Polygon, clip: Polygon, blank: EdgeNode) returns (lmt: LocalMinima, tree: ScanbeamTree)
    requires subj.Valid() && clip.Valid() && (subj == clip ==> subj.Plain())
    modifies subj, clip
    ensures subj.Plain() && clip.Plain() && fresh(lmt) && fresh(tree)
    ensures var s, c := Kept(subj, old(subj.count)), Kept(clip, old(clip.count));
            && lmt.table == Filed(Filed([], PolygonBounds(s, false)), PolygonBounds(c, true))
            && tree.Valid() && Elements(InOrder(tree.root)) == PolygonYs(s) + PolygonYs(c)
  {
    lmt := new LocalMinima();
    tree := new ScanbeamTree();
    assert Elements(InOrder(tree.root)) == {};
    AddPolygon(subj, false, lmt, tree, blank);
    assert clip.count == old(clip.count);
    AddPolygon(clip, true, lmt, tree, blank);
  }

  /** The scanbeam loop's side of the tables: every filed bound enters the active edge table once. */
  method TakeUp(lmt: LocalMinima, tree: ScanbeamTree, ghost a: seq<(real, Bound)>, ghost b: seq<(real, Bound)>)
    returns (entered: seq<(real, Bound)>)
    requires lmt.table == Filed(Filed([], a), b)
    requires tree.Valid() && HeightsOf(a) + HeightsOf(b) <= Elements(InOrder(tree.root))
    ensures LmtOk(lmt.table) && entered == Entries(lmt.table)
    ensures multiset(BoundsOf(entered)) == multiset(BoundsOf(a)) + multiset(BoundsOf(b))
  {
    FiledOk([], a);
    FiledOk(Filed([], a), b);
    EntriesAll(lmt.table);
    assert Heights([]) == {};
    var sbt := tree.BuildTable();
    entered := WalkScanbeams(sbt, lmt.table);
  }

  /** What the scanbeam loop is given: the bounds, in the order they enter the active edge table. */
  datatype Work = Nothing | Scanbeams(entered: seq<(real, Bound)>)

  /** A point is in the result, given whether it is in the subject and in the clip polygon. */
  predicate InResult(op: Op, inSubj: bool, inClip: bool) {
    match op
    case Diff => inSubj && !inClip
    case Int => inSubj && inClip
    case Xor => inSubj != inClip
    case Union => inSubj || inClip
  }

  /** The trivial cases are those where no point can be in the result because a polygon has no contour. */
  lemma TrivialIsEmpty(subj: Polygon, clip: Polygon, op: Op)
    ensures Trivial(subj, clip, op) <==>
              forall s: bool, c: bool :: (s ==> subj.contours != []) && (c ==> clip.contours != []) ==> !InResult(op, s, c)
  {
    var s, c := subj.contours != [], clip.contours != [];
    assert InResult(op, s, c) || InResult(op, s, false) || InResult(op, false, c) || InResult(op, false, false) || Trivial(subj, clip, op);
  }

  /** Every bound filed is taken up once, in the order of the minima and at the height of its own. */
  ghost predicate TakenUp(s: seq<(real, Bound)>, c: seq<(real, Bound)>, entered: seq<(real, Bound)>) {
    var table := Filed(Filed([], s), c);
    && LmtOk(table) && entered == Entries(table)
    && multiset(BoundsOf(entered)) == multiset(BoundsOf(s)) + multiset(BoundsOf(c))
  }

  /** A result is NULL before any edge is built. */
  predicate Trivial(subj: Polygon, clip: Polygon, op: Op) {
    (|subj.contours| == 0 && |clip.contours| == 0) || (|subj.contours| == 0 && (op == Int || op == Diff))
    || (|clip.contours| == 0 && op == Int)
  }

  /** The steps of a clip up to and alongside its scanbeam loop. The input polygons come back unchanged, and
      every bound of every contributing contour enters the active edge table exactly once, at its own scanbeam. */
  method SetUp(subj: Polygon, clip: Polygon, op: Op, blank: EdgeNode)
    returns (w: Work, ghost sBox: seq<BBox>, ghost cBox: seq<BBox>, ghost sCount: seq<int>, ghost cCount: seq<int>)
    requires subj.Plain() && clip.Plain() && AllInRange(subj.contours) && AllInRange(clip.contours)
    modifies subj, clip
    ensures subj.count == old(subj.count) && clip.count == old(clip.count)
    ensures Trivial(subj, clip, op) ==> w == Nothing
    ensures !Trivial(subj, clip, op) ==>
              var on := (op == Int || op == Diff) && subj.contours != [] && clip.contours != [];
              && (on ==> Boxes(subj.contours, sBox) && Boxes(clip.contours, cBox))
              && AfterTest(clip, cCount, cBox, sBox, on) && AfterTest(subj, sCount, sBox, cBox, on && op == Int)
              && var s, c := PolygonBounds(Kept(subj, sCount), false), PolygonBounds(Kept(clip, cCount), true);
                 match w
                 case Nothing => s + c == []
                 case Scanbeams(entered) => TakenUp(s, c, entered)
  {
    sBox, cBox, sCount, cCount := [], [], subj.count, clip.count;
    w := Nothing;
    if Trivial(subj, clip, op) {
      return;
    }
    sBox, cBox := TestContours(subj, clip, op);
    sCount, cCount := subj.count, clip.count;
    var lmt, tree := BuildBoth(subj, clip, blank);
    assert subj.count == old(subj.count) && clip.count == old(clip.count);
    ghost var a, b := PolygonBounds(Kept(subj, sCount), false), PolygonBounds(Kept(clip, cCount), true);
    if lmt.table == [] {
      NothingFiled(a, b);
      return;
    }
    PolygonHeights(Kept(subj, sCount), false);
    PolygonHeights(Kept(clip, cCount), true);
    var entered := TakeUp(lmt, tree, a, b);
    w := Scanbeams(entered);
  }

  lemma NothingFiled(a: seq<(real, Bound)>, b: seq<(real, Bound)>)
    requires Filed(Filed([], a), b) == []
    ensures a + b == []
  {
    FiledOk([], a);
    FiledOk(Filed([], a), b);
    assert multiset(BoundsOf(a)) + multiset(BoundsOf(b)) == multiset{};
    assert |multiset(BoundsOf(a))| == |a| && |multiset(BoundsOf(b))| == |b|;
  }
}
