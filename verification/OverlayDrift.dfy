/** How far the nodes given to an axis can end up from the nodes kept, when several overlays are merged one after the
    other: each merge measures from the nodes the last one left. */
module OverlayDrift {
  import opened Basics
  import opened OverlayMerge

  /** Every node ever given lies on a node of the axis or at most snap above one. */
  ghost predicate OneSnap(coord: seq<real>, overlays: seq<seq<real>>, snap: real)
    requires coord != []
  {
    AllNear(MergeAll(coord, overlays, snap), AllNodes(coord, overlays), snap)
  }

  // ----- the bound of one snap per merge is reached

  /** The first overlay adds a node that snaps to node 0; every later one adds a node just low enough for the lowest node
      to snap to it. */
  function Ladder(m: nat): (overlays: seq<seq<real>>)
    ensures |overlays| == m
  {
    if m == 0 then [] else Ladder(m - 1) + [[if m == 1 then 1.0 else -((m - 1) as real)]]
  }

  const AXIS: seq<real> := [0.0, 3.0]

  /** The ladder leaves its lowest node and the last node of the axis. */
  lemma {:induction false} LadderMerged(m: nat)
    requires m >= 1
    ensures var r := MergeAll(AXIS, Ladder(m), 1.0); |r| == 2 && r[0] == -((m - 1) as real) && r[1] == 3.0
  {
    if m > 1 {
      LadderMerged(m - 1);
    }
    var r, low := MergeAll(AXIS, Ladder(m - 1), 1.0), Ladder(m)[m - 1][0];
    NextMerge(AXIS, Ladder(m - 1), 1.0, [low]);
    TwoLeft(r, low);
  }

  lemma {:induction false} LadderGivesOne(m: nat)
    requires m >= 1
    ensures 1.0 in AllNodes(AXIS, Ladder(m))
  {
    NextMerge(AXIS, Ladder(m - 1), 1.0, Ladder(m)[m - 1]);
    if m > 1 {
      LadderGivesOne(m - 1);
    } else {
      assert Ladder(m)[m - 1] == [1.0] && 1.0 in [1.0];
    }
  }

  /** Merging a node one below the lowest of two, or one above it, leaves the lowest and the last. */
  lemma TwoLeft(r: seq<real>, y: real)
    requires |r| == 2 && r[0] <= 0.0 && r[1] == 3.0 && (y == r[0] + 1.0 || y == r[0] - 1.0)
    ensures Merge(r, [y], 1.0) == [if y < r[0] then y else r[0], 3.0]
  {
    MergeOk(r, [y], 1.0);
    TwoKept(r, y, Merge(r, [y], 1.0));
  }

  lemma TwoKept(r: seq<real>, y: real, r': seq<real>)
    requires |r| == 2 && r[0] <= 0.0 && r[1] == 3.0 && (y == r[0] + 1.0 || y == r[0] - 1.0)
    requires MergedFrom(r + [y], 3.0, 1.0, r')
    ensures r' == [if y < r[0] then y else r[0], 3.0]
  {
    var all := r + [y];
    assert all[0] == r[0] && all[1] == 3.0 && all[2] == y;
    assert r[0] in all && y in all;
    assert r'[0] == if y < r[0] then y else r[0];
    if |r'| > 2 {
      FirstThree(r', 1.0);
    }
  }

  lemma FirstThree(r: seq<real>, snap: real)
    requires |r| > 2 && Increasing(r) && AllApart(r[..|r|-1], snap)
    ensures r[1] - r[0] > snap && r[1] < r[2]
  {
    assert Apart(r[..|r|-1], 0, snap);
  }

  /** For every number m of merges there are an axis and overlays that bring a node exactly m times snap above the nearest
      kept node below it, so the bound m * snap is the best there is. */
  lemma DriftAccumulates(m: nat, drift: real)
    requires m >= 1
    ensures 1.0 in AllNodes(AXIS, Ladder(m))
    ensures Near(MergeAll(AXIS, Ladder(m), 1.0), 1.0, drift) <==> drift >= m as real
  {
    LadderMerged(m);
    LadderGivesOne(m);
    NearestBelow(MergeAll(AXIS, Ladder(m), 1.0), 1.0, drift);
  }

  lemma NearestBelow(r: seq<real>, x: real, drift: real)
    requires |r| == 2 && r[0] <= x < r[1]
    ensures Near(r, x, drift) <==> drift >= x - r[0]
  {
    if drift >= x - r[0] { assert r[0] <= x <= r[0] + drift; }
  }

  /** One snap is enough for every axis, all overlays and every snap exactly if there is at most one overlay. */
  lemma OneSnapForOneOverlay(m: nat)
    ensures (forall coord: seq<real>, overlays: seq<seq<real>>, snap {:trigger OneSnap(coord, overlays, snap)} ::
               coord != [] && |overlays| == m && snap >= 0.0 ==> OneSnap(coord, overlays, snap))
       <==> m <= 1
  {
    if m <= 1 {
      forall coord: seq<real>, overlays: seq<seq<real>>, snap | coord != [] && |overlays| == m && snap >= 0.0
        ensures OneSnap(coord, overlays, snap)
      {
        AtMostOne(coord, overlays, snap);
      }
    } else {
      DriftAccumulates(m, 1.0);
      assert !OneSnap(AXIS, Ladder(m), 1.0);
    }
  }

  lemma AtMostOne(coord: seq<real>, overlays: seq<seq<real>>, snap: real)
    requires coord != [] && |overlays| <= 1 && snap >= 0.0
    ensures OneSnap(coord, overlays, snap)
  {
    MergeAllOk(coord, overlays, snap);
    Times(|overlays| as real, 1.0, snap);
    Widen(MergeAll(coord, overlays, snap), AllNodes(coord, overlays), |overlays| as real * snap, snap);
  }

  lemma Times(a: real, b: real, c: real)
    requires a <= b && c >= 0.0
    ensures a * c <= b * c
  {
    assert (b - a) * c >= 0.0;
  }

  lemma Widen(r: seq<real>, all: seq<real>, drift: real, wider: real)
    requires AllNear(r, all, drift) && drift <= wider
    ensures AllNear(r, all, wider)
  {
    forall x | x in all
      ensures Near(r, x, wider)
    {
      assert Near(r, x, drift);
      NearWider(r, x, drift, wider);
    }
  }

  // ----- when the next overlay can do no harm

  /** No node given so far has been dropped from the axis for another one. */
  ghost predicate NothingDropped(coord: seq<real>, overlays: seq<seq<real>>, snap: real)
    requires coord != []
  {
    forall x :: x in AllNodes(coord, overlays) ==> x in MergeAll(coord, overlays, snap)
  }

  /** How many nodes of r lie below v. */
  function Below(r: seq<real>, v: real): (n: nat)
    ensures n <= |r|
  {
    if r == [] then 0 else if r[|r|-1] < v then |r| else Below(r[..|r|-1], v)
  }

  lemma {:induction false} BelowIs(r: seq<real>, v: real, i: nat)
    requires Increasing(r) && i < |r|
    ensures r[i] < v <==> i < Below(r, v)
  {
    if r[|r|-1] >= v {
      if i < |r| - 1 {
        BelowIs(r[..|r|-1], v, i);
      }
    }
  }

  /** The node that makes all nodes of r up to the one below v snap to it, but not v. */
  function Under(r: seq<real>, v: real, snap: real): real
    requires Below(r, v) > 0
  {
    (r[Below(r, v) - 1] + v) / 2.0 - snap
  }

  /** The node of r next below v. */
  lemma NextBelow(r: seq<real>, v: real) returns (e: real)
    requires Increasing(r) && Below(r, v) > 0
    ensures e == r[Below(r, v) - 1] && e < v && forall i :: 0 <= i < |r| && r[i] < v ==> r[i] <= e
  {
    e := r[Below(r, v) - 1];
    BelowIs(r, v, Below(r, v) - 1);
    forall i | 0 <= i < |r| && r[i] < v
      ensures r[i] <= e
    {
      BelowIs(r, v, i);
    }
  }

  /** Nodes up to v that take over from all the nodes of r below v. */
  function Chain(r: seq<real>, v: real, snap: real, n: nat): (c: seq<real>)
    ensures c != [] && c[|c|-1] == v
    decreases n
  {
    if n == 0 || Below(r, v) == 0 then [v] else Chain(r, Under(r, v, snap), snap, n - 1) + [v]
  }

  /** c starts no later than r, and each node of r below v snaps to a node of c. */
  ghost predicate TakesOver(c: seq<real>, r: seq<real>, v: real, snap: real) {
    && c != [] && c[|c|-1] == v && AllApart(c, snap)
    && (forall i :: 0 <= i < |r| ==> c[0] <= r[i])
    && (forall i :: 0 <= i < |r| && r[i] < v ==> Near(c, r[i], snap))
  }

  lemma {:induction false} ChainTakesOver(r: seq<real>, v: real, snap: real, n: nat)
    requires r != [] && Increasing(r) && snap > 0.0 && v - r[0] <= n as real * snap
    ensures TakesOver(Chain(r, v, snap, n), r, v, snap)
    decreases n
  {
    BelowIs(r, v, 0);
    if n == 0 || Below(r, v) == 0 {
      assert v <= r[0];
    } else {
      var u, e := StepDown(r, v, snap, n);
      ChainTakesOver(r, u, snap, n - 1);
      OneLinkMore(Chain(r, u, snap, n - 1), r, u, v, e, snap);
    }
  }

  /** The next link lies more than snap below v, and the node e next below v still snaps to it. */
  lemma StepDown(r: seq<real>, v: real, snap: real, n: nat) returns (u: real, e: real)
    requires r != [] && Increasing(r) && snap > 0.0 && n > 0 && v - r[0] <= n as real * snap && Below(r, v) > 0
    ensures u == Under(r, v, snap) && v - u > snap && e <= u + snap && u - r[0] <= (n - 1) as real * snap
    ensures forall i :: 0 <= i < |r| && r[i] < v ==> r[i] <= e
  {
    u := Under(r, v, snap);
    e := NextBelow(r, v);
    OneLess(n, snap);
    assert u == (e + v) / 2.0 - snap;
  }

  lemma OneLess(n: nat, snap: real)
    requires n > 0
    ensures n as real * snap == (n - 1) as real * snap + snap
  {
    assert n as real == (n - 1) as real + 1.0;
  }

  lemma OneLinkMore(c: seq<real>, r: seq<real>, u: real, v: real, e: real, snap: real)
    requires TakesOver(c, r, u, snap) && snap > 0.0 && v - u > snap && e <= u + snap
    requires forall i :: 0 <= i < |r| && r[i] < v ==> r[i] <= e
    ensures TakesOver(c + [v], r, v, snap)
  {
    forall i | 0 <= i < |c|
      ensures Apart(c + [v], i, snap)
    {
      assert i < |c| - 1 ==> Apart(c, i, snap);
    }
    forall i | 0 <= i < |r| && r[i] < v
      ensures Near(c + [v], r[i], snap)
    {
      if r[i] < u {
        assert Near(c, r[i], snap);
        NearMore(c, v, r[i], snap);
      } else {
        assert (c + [v])[|c|-1] == u;
      }
    }
  }

  lemma {:induction false} FarApart(s: seq<real>, snap: real, i: nat, j: nat)
    requires AllApart(s, snap) && snap >= 0.0 && i < j < |s|
    ensures s[j] - s[i] > snap
    decreases j - i
  {
    assert Apart(s, j - 1, snap);
    if i < j - 1 {
      FarApart(s, snap, i, j - 1);
    }
  }

  /** Every node up to the end of c snaps to a node of c. */
  ghost predicate Covered(all: seq<real>, c: seq<real>, snap: real)
    requires c != []
  {
    forall y {:trigger Near(c, y, snap)} :: y in all && y <= c[|c|-1] ==> Near(c, y, snap)
  }

  /** A merge in which all nodes snap to those of c keeps the nodes of c. */
  lemma {:induction false} LinkKept(all: seq<real>, c: seq<real>, t: seq<real>, snap: real, j: nat)
    requires snap >= 0.0 && c != [] && AllApart(c, snap) && Covered(all, c, snap) && j < |c|
    requires (forall i :: 0 <= i < |c| ==> c[i] in all) && forall y :: y in all ==> c[0] <= y
    requires Within(t, all) && AllNear(t, all, snap) && AllApart(t, snap)
    ensures c[j] in t
  {
    if j == 0 {
      assert t[0] in all && c[0] in all;
    } else {
      LinkKept(all, c, t, snap, j - 1);
      assert c[j] in all && Near(t, c[j], snap);
      var i :| 0 <= i < |t| && t[i] <= c[j] <= t[i] + snap;
      if t[i] < c[j] {
        NoneBetween(all, c, t, snap, j, i);
      }
    }
  }

  /** There is no kept node between two nodes of c. */
  lemma NoneBetween(all: seq<real>, c: seq<real>, t: seq<real>, snap: real, j: nat, i: nat)
    requires snap >= 0.0 && 0 < j < |c| && AllApart(c, snap) && Covered(all, c, snap) && c[j - 1] in t
    requires i < |t| && t[i] in all && AllApart(t, snap) && c[j] - snap <= t[i]
    ensures t[i] >= c[j]
  {
    if t[i] < c[j] {
      Ordered(c, snap, j, |c| - 1);
      assert Near(c, t[i], snap);
      var k :| 0 <= k < |c| && c[k] <= t[i] <= c[k] + snap;
      Ordered(c, snap, j, k);
      Ordered(c, snap, k, j - 1);
      Ordered(c, snap, j - 1, j);
      var h :| 0 <= h < |t| && t[h] == c[j - 1];
      Ordered(t, snap, h, i);
      Ordered(t, snap, i, h);
    }
  }

  /** Of two places in a list with wide gaps, the later one is more than snap above. */
  lemma Ordered(s: seq<real>, snap: real, i: nat, j: nat)
    requires AllApart(s, snap) && snap >= 0.0 && i < |s| && j < |s|
    ensures i < j ==> s[j] - s[i] > snap
  {
    if i < j {
      FarApart(s, snap, i, j);
    }
  }

  lemma Enough(d: real, snap: real) returns (n: nat)
    requires snap > 0.0
    ensures d <= n as real * snap
  {
    if d <= 0.0 {
      n := 0;
    } else {
      var q := d / snap;
      assert q * snap == d && q > 0.0;
      n := q.Floor + 1;
      Times(q, n as real, snap);
    }
  }

  /** The overlay that brings the dropped node x too far from the axis r: nodes that all nodes of r below x snap to, but
      not x, and a node far above. */
  function Adverse(r: seq<real>, x: real, snap: real, n: nat): seq<real>
    requires r != [] && Below(r, x) > 0
  {
    Chain(r, Under(r, x, snap), snap, n) + [Above(r, x) + snap]
  }

  function Above(r: seq<real>, x: real): real
    requires r != []
  {
    (if x > r[|r|-1] then x else r[|r|-1]) + 1.0
  }

  /** Its nodes are in ascending order, as those of an overlay are. */
  lemma AdverseRises(r: seq<real>, x: real, snap: real, n: nat)
    requires r != [] && Increasing(r) && snap > 0.0 && Below(r, x) > 0 && Under(r, x, snap) - r[0] <= n as real * snap
    ensures Increasing(Adverse(r, x, snap, n))
  {
    var u, o := Under(r, x, snap), Adverse(r, x, snap, n);
    var c := Chain(r, u, snap, n);
    var e := NextBelow(r, x);
    ChainTakesOver(r, u, snap, n);
    forall i, j | 0 <= i < j < |o|
      ensures o[i] < o[j]
    {
      Ordered(c, snap, i, if j < |c| then j else |c| - 1);
    }
  }

  lemma Displaced(r: seq<real>, x: real, snap: real, n: nat, t: seq<real>)
    requires r != [] && Increasing(r) && snap > 0.0 && r[0] < x && x !in r && Below(r, x) > 0
    requires Under(r, x, snap) - r[0] <= n as real * snap
    requires MergedFrom(r + Adverse(r, x, snap, n), r[|r|-1], snap, t)
    ensures !Near(t, x, snap)
  {
    var u, c := Under(r, x, snap), Chain(r, Under(r, x, snap), snap, n);
    var top := Above(r, x) + snap;
    var all := r + (c + [top]);
    ChainTakesOver(r, u, snap, n);
    ReachesTop(r, all, snap, top, t);
    AllCovered(r, c, top, u, snap, all);
    LinkKept(all, c, t, snap, |c| - 1);
    GapBelow(r, c, top, u, snap, all, x);
    NoneNear(all, t, u, snap, x);
  }

  /** Between u + snap and x there is no node. */
  lemma GapBelow(r: seq<real>, c: seq<real>, top: real, u: real, snap: real, all: seq<real>, x: real)
    requires Increasing(r) && Below(r, x) > 0 && x !in r && snap > 0.0 && u == Under(r, x, snap)
    requires TakesOver(c, r, u, snap) && all == r + (c + [top]) && top > x
    ensures u + snap < x && forall y :: y in all ==> y <= u + snap || y > x
  {
    var e := NextBelow(r, x);
    forall y | y in all
      ensures y <= u + snap || y > x
    {
      if y in r {
        var i :| 0 <= i < |r| && r[i] == y;
      } else if y in c {
        var k :| 0 <= k < |c| && c[k] == y;
        Ordered(c, snap, k, |c| - 1);
      } else {
        assert y == top;
      }
    }
  }

  /** With u kept and no node between u + snap and x, nothing kept is within snap below x. */
  lemma NoneNear(all: seq<real>, t: seq<real>, u: real, snap: real, x: real)
    requires AllApart(t, snap) && snap > 0.0 && u in t && u + snap < x
    requires (forall i :: 0 <= i < |t| ==> t[i] in all) && forall y :: y in all ==> y <= u + snap || y > x
    ensures !Near(t, x, snap)
  {
    var h :| 0 <= h < |t| && t[h] == u;
    forall i | 0 <= i < |t|
      ensures !(t[i] <= x <= t[i] + snap)
    {
      assert t[i] in all;
      Ordered(t, snap, h, i);
      Ordered(t, snap, i, h);
    }
  }

  /** The node far above is kept or stands for one that is, so the old last node is not put back. */
  lemma ReachesTop(r: seq<real>, all: seq<real>, snap: real, top: real, t: seq<real>)
    requires r != [] && top in all && top > r[|r|-1] + snap && MergedFrom(all, r[|r|-1], snap, t)
    ensures AllApart(t, snap)
  {
    assert Near(t, top, snap);
    var i :| 0 <= i < |t| && t[i] <= top <= t[i] + snap;
    assert t[i] <= t[|t|-1];
  }

  lemma AllCovered(r: seq<real>, c: seq<real>, top: real, u: real, snap: real, all: seq<real>)
    requires r != [] && TakesOver(c, r, u, snap) && snap > 0.0 && top > r[|r|-1] && top > u && all == r + (c + [top])
    requires Increasing(r)
    ensures Covered(all, c, snap) && (forall i :: 0 <= i < |c| ==> c[i] in all) && forall y :: y in all ==> c[0] <= y
  {
    forall y | y in all && y <= u
      ensures Near(c, y, snap)
    {
      if y in c {
        var k :| 0 <= k < |c| && c[k] == y;
        assert c[k] <= y <= c[k] + snap;
      } else {
        var i :| 0 <= i < |r| && r[i] == y;
        assert c[|c|-1] == u;
        assert y < u ==> Near(c, r[i], snap);
      }
    }
    forall y | y in all
      ensures c[0] <= y
    {
      if y in c {
        var k :| 0 <= k < |c| && c[k] == y;
        Ordered(c, snap, 0, k);
      } else if y in r {
        var i :| 0 <= i < |r| && r[i] == y;
      } else {
        assert y == top && c[0] <= r[0] <= r[|r|-1];
      }
    }
    forall i | 0 <= i < |c|
      ensures c[i] in all
    {
      assert all[|r| + i] == c[i];
    }
  }

  /** Whatever overlay, its nodes ascending, comes next, one snap is enough afterwards exactly if no merge so far has
      dropped a node that differs from the one kept for it: if every node given so far is still on the axis. */
  lemma OneSnapWhateverComes(coord: seq<real>, overlays: seq<seq<real>>, snap: real)
    requires coord != [] && snap >= 0.0
    ensures (forall o: seq<real> {:trigger OneSnap(coord, overlays + [o], snap)} ::
               Increasing(o) ==> OneSnap(coord, overlays + [o], snap))
       <==> NothingDropped(coord, overlays, snap)
  {
    if NothingDropped(coord, overlays, snap) {
      forall o: seq<real> | Increasing(o)
        ensures OneSnap(coord, overlays + [o], snap)
      {
        NextKeeps(coord, overlays, snap, o);
      }
    } else {
      var x :| x in AllNodes(coord, overlays) && x !in MergeAll(coord, overlays, snap);
      var o := DroppedCanStray(coord, overlays, snap, x);
      assert !OneSnap(coord, overlays + [o], snap);
    }
  }

  lemma NextMerge(coord: seq<real>, overlays: seq<seq<real>>, snap: real, o: seq<real>)
    requires coord != []
    ensures MergeAll(coord, overlays + [o], snap) == Merge(MergeAll(coord, overlays, snap), o, snap)
    ensures AllNodes(coord, overlays + [o]) == AllNodes(coord, overlays) + o
  {
    assert (overlays + [o])[..|overlays|] == overlays;
  }

  lemma NextKeeps(coord: seq<real>, overlays: seq<seq<real>>, snap: real, o: seq<real>)
    requires coord != [] && snap >= 0.0 && NothingDropped(coord, overlays, snap)
    ensures OneSnap(coord, overlays + [o], snap)
  {
    var r := MergeAll(coord, overlays, snap);
    NextMerge(coord, overlays, snap, o);
    MergeOk(r, o, snap);
    forall x | x in AllNodes(coord, overlays) + o
      ensures Near(Merge(r, o, snap), x, snap)
    {
      assert x in r + o;
    }
  }

  lemma DroppedCanStray(coord: seq<real>, overlays: seq<seq<real>>, snap: real, x: real) returns (o: seq<real>)
    requires coord != [] && snap >= 0.0 && x in AllNodes(coord, overlays) && x !in MergeAll(coord, overlays, snap)
    ensures Increasing(o) && !OneSnap(coord, overlays + [o], snap)
  {
    var r := MergeAll(coord, overlays, snap);
    Missing(coord, overlays, snap, x);
    var n := Enough(Under(r, x, snap) - r[0], snap);
    o := Adverse(r, x, snap, n);
    AdverseRises(r, x, snap, n);
    NextMerge(coord, overlays, snap, o);
    MergeOk(r, o, snap);
    Displaced(r, x, snap, n, Merge(r, o, snap));
    assert x in AllNodes(coord, overlays) + o;
  }

  /** A node is dropped only for one below it, and only if snap is positive. */
  lemma Missing(coord: seq<real>, overlays: seq<seq<real>>, snap: real, x: real)
    requires coord != [] && snap >= 0.0 && x in AllNodes(coord, overlays) && x !in MergeAll(coord, overlays, snap)
    ensures var r := MergeAll(coord, overlays, snap);
            Increasing(r) && r[0] < x && Below(r, x) > 0 && snap > 0.0
  {
    MergeAllOk(coord, overlays, snap);
    MissingFrom(AllNodes(coord, overlays), coord, |overlays|, snap, MergeAll(coord, overlays, snap), x);
  }

  lemma MissingFrom(all: seq<real>, first: seq<real>, m: nat, snap: real, r: seq<real>, x: real)
    requires MergedAll(all, first, m, snap, r) && snap >= 0.0 && x in all && x !in r
    ensures Increasing(r) && r[0] < x && Below(r, x) > 0 && snap > 0.0
  {
    assert m == 0 ==> r == all;
    assert Near(r, x, m as real * snap);
    NearButMissing(r, x, m as real * snap);
    if snap == 0.0 { NoDrift(m); }
  }

  /** A node that is not kept is above the one kept for it. */
  lemma NearButMissing(r: seq<real>, x: real, drift: real)
    requires r != [] && Increasing(r) && Near(r, x, drift) && x !in r
    ensures r[0] < x && Below(r, x) > 0 && drift > 0.0
  {
    var i :| 0 <= i < |r| && r[i] <= x <= r[i] + drift;
    assert r[i] in r;
    BelowIs(r, x, i);
    BelowIs(r, x, 0);
  }

  lemma NoDrift(m: nat)
    ensures m as real * 0.0 == 0.0
  {
  }
}
