/** Points inside a prism: the test of one point, and the test of a whole list that remembers the last column. */
module PrismPoints {
  import opened Basics

  datatype Pt = Pt(x: real, y: real, z: real)

  datatype Box = Box(x1: real, y1: real, z1: real, x2: real, y2: real, z2: real)

  /** Where the line through p along the dip meets the plane z == coord; p moved back by the dip if it never does. */
  function Project(p: Pt, dip: Pt, coord: real): Pt {
    var t := if dip.z == 0.0 then -1.0 else -(p.z - coord) / dip.z;
    Pt(p.x + t * dip.x, p.y + t * dip.y, p.z + t * dip.z)
  }

  /** A prism: its bounding box, its dip, the top of the grid, the test of its perimeter polygon and the heights of its
      bottom and top surfaces, where it has them. */
  datatype Shape = Shape(box: Box, dip: Pt, gridTop: real, perimeter: Pt -> bool, bottom: Option<Pt -> real>,
                         top: Option<Pt -> real>) {

    predicate InBox(p: Pt) {
      box.x1 <= p.x <= box.x2 && box.y1 <= p.y <= box.y2 && box.z1 <= p.z <= box.z2
    }

    /** The test of one point. */
    predicate PointIn(p: Pt) {
      && InBox(p)
      && (top.Some? ==> p.z <= top.value(p))
      && (bottom.Some? ==> p.z >= bottom.value(p))
      && perimeter(Project(p, dip, gridTop))
    }

    /** What the test of a list decides for a point: the surfaces are asked at the point's projection. */
    predicate Accepts(p: Pt) {
      var p1 := Project(p, dip, gridTop);
      && InBox(p)
      && perimeter(p1)
      && (bottom.Some? ==> p.z >= bottom.value(p1))
      && (top.Some? ==> p.z <= top.value(p1))
    }

    ghost predicate Vertical() {
      dip.x == 0.0 && dip.y == 0.0 && dip.z != 0.0
    }

    /** The surfaces are functions of x and y alone. */
    ghost predicate Surfaces() {
      && (bottom.Some? ==> forall p: Pt, q: Pt :: p.x == q.x && p.y == q.y ==> bottom.value(p) == bottom.value(q))
      && (top.Some? ==> forall p: Pt, q: Pt :: p.x == q.x && p.y == q.y ==> top.value(p) == top.value(q))
    }
  }

  lemma ProjectVertical(p: Pt, dip: Pt, coord: real)
    requires dip.x == 0.0 && dip.y == 0.0 && dip.z != 0.0
    ensures Project(p, dip, coord) == Pt(p.x, p.y, coord)
  {
    assert -(p.z - coord) / dip.z * dip.z == -(p.z - coord);
  }

  /** With a vertical dip and surfaces over x and y, the test of a list decides as the test of one point does. */
  lemma AcceptsIsPointIn(shape: Shape, p: Pt)
    requires shape.Vertical() && shape.Surfaces()
    ensures shape.Accepts(p) <==> shape.PointIn(p)
  {
    ProjectVertical(p, shape.dip, shape.gridTop);
  }

  function Filter(s: seq<nat>, keep: nat -> bool): seq<nat> {
    if s == [] then []
    else Filter(s[..|s|-1], keep) + if keep(s[|s|-1]) then [s[|s|-1]] else []
  }

  function Both(first: nat -> bool, second: nat -> bool): nat -> bool {
    (q: nat) => first(q) && second(q)
  }

  lemma {:induction false} FilterTwice(s: seq<nat>, first: nat -> bool, second: nat -> bool)
    ensures Filter(Filter(s, first), second) == Filter(s, Both(first, second))
  {
    if s != [] {
      var few, q := Filter(s[..|s|-1], first), s[|s|-1];
      FilterTwice(s[..|s|-1], first, second);
      assert few + [] == few;
      if first(q) {
        assert (few + [q])[..|few + [q]|-1] == few;
      }
    }
  }

  lemma {:induction false} FilterSame(s: seq<nat>, first: nat -> bool, second: nat -> bool)
    requires forall i :: 0 <= i < |s| ==> first(s[i]) == second(s[i])
    ensures Filter(s, first) == Filter(s, second)
  {
    if s != [] {
      FilterSame(s[..|s|-1], first, second);
    }
  }

  lemma {:induction false} FilterKeeps(s: seq<nat>, keep: nat -> bool, n: nat)
    requires forall i :: 0 <= i < |s| ==> s[i] < n
    ensures |Filter(s, keep)| <= |s| && forall i :: 0 <= i < |Filter(s, keep)| ==> Filter(s, keep)[i] < n
  {
    if s != [] {
      FilterKeeps(s[..|s|-1], keep, n);
    }
  }

  lemma {:induction false} FilterMember(s: seq<nat>, keep: nat -> bool, q: nat)
    ensures q in Filter(s, keep) <==> q in s && keep(q)
  {
    if s != [] {
      FilterMember(s[..|s|-1], keep, q);
      assert s == s[..|s|-1] + [s[|s|-1]];
    }
  }

  /** An entry that is kept stands behind the kept ones before it. */
  lemma {:induction false} FilterAt(s: seq<nat>, keep: nat -> bool, i: nat)
    requires i < |s| && keep(s[i])
    ensures |Filter(s[..i], keep)| < |Filter(s, keep)| && Filter(s, keep)[|Filter(s[..i], keep)|] == s[i]
  {
    if i < |s| - 1 {
      FilterAt(s[..|s|-1], keep, i);
      assert s[..|s|-1][..i] == s[..i];
    }
  }

  /** A point in the prism, seen along a vertical dip. */
  ghost predicate InPrism(shape: Shape, p: Pt) {
    && shape.box.x1 <= p.x <= shape.box.x2 && shape.box.y1 <= p.y <= shape.box.y2 && shape.box.z1 <= p.z <= shape.box.z2
    && shape.perimeter(Pt(p.x, p.y, shape.gridTop))
    && (shape.bottom.Some? ==> shape.bottom.value(p) <= p.z) && (shape.top.Some? ==> p.z <= shape.top.value(p))
  }

  /** The entries kept are those whose point lies in the prism. */
  lemma KeptInPrism(s: seq<nat>, shape: Shape, points: seq<Pt>, q: nat)
    requires shape.Vertical() && Listed(s, |points|)
    ensures q in Filter(s, PointTest(shape, points)) <==> q in s && q < |points| && InPrism(shape, points[q])
  {
    FilterMember(s, PointTest(shape, points), q);
    if q in s {
      ProjectVertical(points[q], shape.dip, shape.gridTop);
    }
  }

  // ----- the tests of the four passes, for entries of a list of points

  function BoxTest(shape: Shape, points: seq<Pt>): nat -> bool {
    (q: nat) => q < |points| && shape.InBox(points[q])
  }

  function PerimeterTest(shape: Shape, points: seq<Pt>): nat -> bool {
    (q: nat) => q < |points| && shape.perimeter(Project(points[q], shape.dip, shape.gridTop))
  }

  function BottomTest(shape: Shape, points: seq<Pt>): nat -> bool {
    (q: nat) => q < |points| && (shape.bottom.Some? ==>
      points[q].z >= shape.bottom.value(Project(points[q], shape.dip, shape.gridTop)))
  }

  function TopTest(shape: Shape, points: seq<Pt>): nat -> bool {
    (q: nat) => q < |points| && (shape.top.Some? ==>
      points[q].z <= shape.top.value(Project(points[q], shape.dip, shape.gridTop)))
  }

  function AcceptTest(shape: Shape, points: seq<Pt>): nat -> bool {
    (q: nat) => q < |points| && shape.Accepts(points[q])
  }

  function PointTest(shape: Shape, points: seq<Pt>): nat -> bool {
    (q: nat) => q < |points| && shape.PointIn(points[q])
  }

  /** A test every entry passes drops nothing. */
  lemma {:induction false} FilterAll(s: seq<nat>, keep: nat -> bool)
    requires forall i :: 0 <= i < |s| ==> keep(s[i])
    ensures Filter(s, keep) == s
  {
    if s != [] {
      FilterAll(s[..|s|-1], keep);
      assert s == s[..|s|-1] + [s[|s|-1]];
    }
  }

  /** The four passes, one after the other, keep the entries that the shape accepts. */
  lemma FourPasses(s: seq<nat>, shape: Shape, points: seq<Pt>)
    ensures Filter(Filter(Filter(Filter(s, BoxTest(shape, points)), PerimeterTest(shape, points)),
                          BottomTest(shape, points)), TopTest(shape, points))
         == Filter(s, AcceptTest(shape, points))
  {
    var box, per := BoxTest(shape, points), PerimeterTest(shape, points);
    var bottom, top := BottomTest(shape, points), TopTest(shape, points);
    FilterTwice(s, box, per);
    FilterTwice(s, Both(box, per), bottom);
    FilterTwice(s, Both(Both(box, per), bottom), top);
    FilterSame(s, Both(Both(Both(box, per), bottom), top), AcceptTest(shape, points));
  }

  /** With a vertical dip and surfaces over x and y, the entries accepted are those whose point is in the prism. */
  lemma FilterPointIn(s: seq<nat>, shape: Shape, points: seq<Pt>)
    requires shape.Vertical() && shape.Surfaces() && Listed(s, |points|)
    ensures Filter(s, AcceptTest(shape, points)) == Filter(s, PointTest(shape, points))
  {
    forall i | 0 <= i < |s|
      ensures AcceptTest(shape, points)(s[i]) == PointTest(shape, points)(s[i])
    {
      AcceptsIsPointIn(shape, points[s[i]]);
    }
    FilterSame(s, AcceptTest(shape, points), PointTest(shape, points));
  }

  ghost predicate Listed(s: seq<nat>, n: nat) {
    forall i :: 0 <= i < |s| ==> s[i] < n
  }

  /** The list after `done` of its entries have been looked at, with the iterator on entry `at`. */
  ghost predicate Walked(all: seq<nat>, list: seq<nat>, at: nat, done: nat, keep: nat -> bool) {
    at <= |list| && done <= |all| && list[..at] == Filter(all[..done], keep) && list[at..] == all[done..]
  }

  lemma WalkedOne(all: seq<nat>, list: seq<nat>, at: nat, done: nat, keep: nat -> bool)
    requires Walked(all, list, at, done, keep) && at < |list|
    ensures list[at] == list[at..][0] == all[done] && done < |all|
    ensures keep(all[done]) ==> Walked(all, list, at + 1, done + 1, keep)
    ensures !keep(all[done]) ==> Walked(all, list[..at] + list[at + 1..], at, done + 1, keep)
  {
    assert all[done..][1..] == all[done + 1..] && list[at..][1..] == list[at + 1..];
    assert all[..done + 1][..done] == all[..done];
    if keep(all[done]) {
      assert list[..at + 1] == list[..at] + [list[at]];
    } else {
      var less := list[..at] + list[at + 1..];
      assert less[..at] == list[..at] && less[at..] == list[at + 1..];
    }
  }

  lemma WalkedAll(all: seq<nat>, list: seq<nat>, at: nat, done: nat, keep: nat -> bool)
    requires Walked(all, list, at, done, keep) && at == |list|
    ensures list == Filter(all, keep)
  {
    assert list[..at] == list && |all[done..]| == 0;
    assert all[..done] == all;
  }

  class Prism {
    const shape: Shape
    // the last column asked about, and what was found there
    var lastDefined: bool
    var lastX: real
    var lastY: real
    var insidePerimeter: bool
    var lastBottom: real
    var lastTop: real

    constructor (shape: Shape)
      ensures this.shape == shape && !lastDefined
    {
      this.shape := shape;
      lastDefined, lastX, lastY, insidePerimeter, lastBottom, lastTop := false, 0.0, 0.0, false, 0.0, 0.0;
    }

    /** Drops the entries outside the bounding box. */
    method DropOutsideBox(all: seq<nat>, points: seq<Pt>) returns (list: seq<nat>)
      requires Listed(all, |points|)
      ensures list == Filter(all, BoxTest(shape, points))
    {
      list := all;
      var at: nat := 0;
      ghost var done: nat := 0;
      ghost var keep := BoxTest(shape, points);
      while at < |list|
        invariant Walked(all, list, at, done, keep)
        decreases |list| - at
      {
        WalkedOne(all, list, at, done, keep);
        if !shape.InBox(points[list[at]]) {
          list := list[..at] + list[at + 1..];
        } else {
          at := at + 1;
        }
        done := done + 1;
      }
      WalkedAll(all, list, at, done, keep);
    }

    /** Drops the entries whose projection is not inside the perimeter. */
    method DropOutsidePerimeter(all: seq<nat>, points: seq<Pt>) returns (list: seq<nat>)
      requires Listed(all, |points|) && shape.Vertical()
      modifies `lastDefined, `lastX, `lastY, `insidePerimeter
      ensures list == Filter(all, PerimeterTest(shape, points))
    {
      list := all;
      var at: nat := 0;
      ghost var done: nat := 0;
      ghost var keep := PerimeterTest(shape, points);
      lastDefined := false;
      while at < |list|
        invariant Walked(all, list, at, done, keep)
        invariant lastDefined ==> insidePerimeter == shape.perimeter(Pt(lastX, lastY, shape.gridTop))
        decreases |list| - at
      {
        WalkedOne(all, list, at, done, keep);
        var pt := points[list[at]];
        ProjectVertical(pt, shape.dip, shape.gridTop);
        if lastDefined && pt.x == lastX && pt.y == lastY {
          if !insidePerimeter {
            list := list[..at] + list[at + 1..];
          } else {
            at := at + 1;
          }
        } else {
          lastX, lastY, lastDefined := pt.x, pt.y, true;
          var p1 := Project(pt, shape.dip, shape.gridTop);
          if !shape.perimeter(p1) {
            insidePerimeter := false;
            list := list[..at] + list[at + 1..];
          } else {
            insidePerimeter := true;
            at := at + 1;
          }
        }
        done := done + 1;
      }
      WalkedAll(all, list, at, done, keep);
    }

    /** Drops the entries below the bottom. */
    method DropBelowBottom(all: seq<nat>, points: seq<Pt>) returns (list: seq<nat>)
      requires Listed(all, |points|) && shape.Vertical() && shape.bottom.Some?
      modifies `lastDefined, `lastX, `lastY, `lastBottom
      ensures list == Filter(all, BottomTest(shape, points))
    {
      list := all;
      var at: nat := 0;
      ghost var done: nat := 0;
      ghost var keep := BottomTest(shape, points);
      lastDefined := false;
      while at < |list|
        invariant Walked(all, list, at, done, keep)
        invariant lastDefined ==> lastBottom == shape.bottom.value(Pt(lastX, lastY, shape.gridTop))
        decreases |list| - at
      {
        WalkedOne(all, list, at, done, keep);
        var pt := points[list[at]];
        ProjectVertical(pt, shape.dip, shape.gridTop);
        if !(lastDefined && pt.x == lastX && pt.y == lastY) {
          lastX, lastY, lastDefined := pt.x, pt.y, true;
          var p1 := Project(pt, shape.dip, shape.gridTop);
          lastBottom := shape.bottom.value(p1);
        }
        if pt.z < lastBottom {
          list := list[..at] + list[at + 1..];
        } else {
          at := at + 1;
        }
        done := done + 1;
      }
      WalkedAll(all, list, at, done, keep);
    }

    /** Drops the entries above the top. */
    method DropAboveTop(all: seq<nat>, points: seq<Pt>) returns (list: seq<nat>)
      requires Listed(all, |points|) && shape.Vertical() && shape.top.Some?
      modifies `lastDefined, `lastX, `lastY, `lastTop
      ensures list == Filter(all, TopTest(shape, points))
    {
      list := all;
      var at: nat := 0;
      ghost var done: nat := 0;
      ghost var keep := TopTest(shape, points);
      lastDefined := false;
      while at < |list|
        invariant Walked(all, list, at, done, keep)
        invariant lastDefined ==> lastTop == shape.top.value(Pt(lastX, lastY, shape.gridTop))
        decreases |list| - at
      {
        WalkedOne(all, list, at, done, keep);
        var pt := points[list[at]];
        ProjectVertical(pt, shape.dip, shape.gridTop);
        if !(lastDefined && pt.x == lastX && pt.y == lastY) {
          lastX, lastY, lastDefined := pt.x, pt.y, true;
          var p1 := Project(pt, shape.dip, shape.gridTop);
          lastTop := shape.top.value(p1);
        }
        if pt.z > lastTop {
          list := list[..at] + list[at + 1..];
        } else {
          at := at + 1;
        }
        done := done + 1;
      }
      WalkedAll(all, list, at, done, keep);
    }

    /** The entries of the list whose points lie in the prism, in the order of the list, whatever the prism was asked
        before and in whatever order the columns come up. */
    method PointsInPolyhedron(all: seq<nat>, points: seq<Pt>) returns (list: seq<nat>)
      requires Listed(all, |points|) && shape.Vertical()
      modifies this
      ensures list == Filter(all, AcceptTest(shape, points))
      ensures shape.Surfaces() ==>
                && list == Filter(all, PointTest(shape, points))
                && forall q: nat :: q in list <==> q in all && q < |points| && InPrism(shape, points[q])
    {
      ghost var n := |points|;
      list := DropOutsideBox(all, points);
      FilterKeeps(all, BoxTest(shape, points), n);
      ghost var boxed := list;
      list := DropOutsidePerimeter(list, points);
      FilterKeeps(boxed, PerimeterTest(shape, points), n);
      ghost var inside := list;
      if shape.bottom.Some? {
        list := DropBelowBottom(list, points);
      } else {
        FilterAll(list, BottomTest(shape, points));
      }
      FilterKeeps(inside, BottomTest(shape, points), n);
      if shape.top.Some? {
        list := DropAboveTop(list, points);
      } else {
        FilterAll(list, TopTest(shape, points));
      }
      FourPasses(all, shape, points);
      if shape.Surfaces() {
        FilterPointIn(all, shape, points);
        forall q: nat
          ensures q in list <==> q in all && q < |points| && InPrism(shape, points[q])
        {
          KeptInPrism(all, shape, points, q);
        }
      }
    }
  }
}
