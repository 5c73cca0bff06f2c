/** Merging the nodes of grid overlays into a grid axis. */
module OverlayMerge {
  import opened Basics

  // ----- qsort with double_compare

  function InsertNode(s: seq<real>, x: real): (r: seq<real>)
    ensures |r| == |s| + 1
  {
    if s == [] || x <= s[0] then [x] + s else [s[0]] + InsertNode(s[1..], x)
  }

  function Sort(s: seq<real>): (r: seq<real>)
    ensures |r| == |s|
  {
    if s == [] then [] else InsertNode(Sort(s[1..]), s[0])
  }

  ghost predicate Ascending(s: seq<real>) {
    forall i, j :: 0 <= i < j < |s| ==> s[i] <= s[j]
  }

  /** r holds the elements of s and x, so a bound below these is a bound below r. */
  lemma AllAbove(s: seq<real>, x: real, r: seq<real>, low: real)
    requires multiset(r) == multiset(s) + multiset{x}
    requires low <= x && forall i :: 0 <= i < |s| ==> low <= s[i]
    ensures forall i :: 0 <= i < |r| ==> low <= r[i]
  {
    forall i | 0 <= i < |r|
      ensures low <= r[i]
    {
      assert r[i] in multiset(r);
      assert r[i] == x || r[i] in s;
    }
  }

  lemma {:induction false} InsertKeeps(s: seq<real>, x: real)
    ensures multiset(InsertNode(s, x)) == multiset(s) + multiset{x}
  {
    if s != [] && x > s[0] {
      InsertKeeps(s[1..], x);
      assert s == [s[0]] + s[1..];
    }
  }

  lemma {:induction false} InsertNodeOk(s: seq<real>, x: real)
    requires Ascending(s)
    ensures Ascending(InsertNode(s, x))
  {
    if s != [] && x > s[0] {
      InsertNodeOk(s[1..], x);
      InsertKeeps(s[1..], x);
      AllAbove(s[1..], x, InsertNode(s[1..], x), s[0]);
    }
  }

  lemma {:induction false} SortOk(s: seq<real>)
    ensures Ascending(Sort(s)) && multiset(Sort(s)) == multiset(s)
  {
    if s != [] {
      SortOk(s[1..]);
      InsertNodeOk(Sort(s[1..]), s[0]);
      InsertKeeps(Sort(s[1..]), s[0]);
      assert s == [s[0]] + s[1..];
    }
  }

  // ----- one merge

  /** Nodes i and i + 1 are more than snap apart. */
  ghost predicate Apart(s: seq<real>, i: int, snap: real) {
    0 <= i < |s| - 1 && s[i + 1] - s[i] > snap
  }

  ghost predicate AllApart(s: seq<real>, snap: real) {
    forall i :: 0 <= i < |s| - 1 ==> Apart(s, i, snap)
  }

  /** x lies on a node of r or at most `drift` above one. */
  ghost predicate Near(r: seq<real>, x: real, drift: real) {
    exists i :: 0 <= i < |r| && r[i] <= x <= r[i] + drift
  }

  ghost predicate AllNear(r: seq<real>, all: seq<real>, drift: real) {
    forall x {:trigger Near(r, x, drift)} :: x in all ==> Near(r, x, drift)
  }

  /** r holds nodes of `all`, none of which lies below the first of r. */
  ghost predicate Within(r: seq<real>, all: seq<real>) {
    && r != []
    && (forall i :: 0 <= i < |r| ==> r[i] in all)
    && (forall x :: x in all ==> r[0] <= x)
  }

  /** What a merge of the nodes `all` leaves of them. */
  ghost predicate MergedFrom(all: seq<real>, oldLast: real, snap: real, r: seq<real>) {
    && Within(r, all) && Increasing(r)
    && AllNear(r, all, snap)
    && oldLast <= r[|r|-1]
    && AllApart(if r[|r|-1] == oldLast then r[..|r|-1] else r, snap)
  }

  /** `kept` holds nodes of `done`, more than snap apart, with every node of `done` on one of them or just above. */
  ghost predicate Spaced(done: seq<real>, kept: seq<real>, snap: real) {
    && 1 <= |kept| <= |done| && kept[0] == done[0]
    && (forall i :: 0 <= i < |kept| ==> kept[i] in done)
    && AllApart(kept, snap)
    && AllNear(kept, done, snap)
    && (|kept| == |done| ==> kept == done)
  }

  lemma NearMore(kept: seq<real>, y: real, x: real, snap: real)
    requires Near(kept, x, snap)
    ensures Near(kept + [y], x, snap)
  {
    var i :| 0 <= i < |kept| && kept[i] <= x <= kept[i] + snap;
    assert (kept + [y])[i] == kept[i];
  }

  lemma SpacedKeep(done: seq<real>, all: seq<real>, kept: seq<real>, x: real, snap: real)
    requires all == done + [x] && Spaced(done, kept, snap) && snap >= 0.0 && x - kept[|kept|-1] > snap
    ensures Spaced(all, kept + [x], snap)
  {
    forall i | 0 <= i < |kept|
      ensures Apart(kept + [x], i, snap)
    {
      assert i < |kept| - 1 ==> Apart(kept, i, snap);
    }
    forall y | y in all
      ensures Near(kept + [x], y, snap)
    {
      if y in done {
        assert Near(kept, y, snap);
        NearMore(kept, x, y, snap);
      } else {
        assert (kept + [x])[|kept|] == x;
      }
    }
  }

  lemma SpacedDrop(done: seq<real>, all: seq<real>, kept: seq<real>, x: real, snap: real)
    requires all == done + [x] && Spaced(done, kept, snap) && kept[|kept|-1] <= x <= kept[|kept|-1] + snap
    ensures Spaced(all, kept, snap)
  {
    forall y | y in all
      ensures Near(kept, y, snap)
    {
      if y in done {
        assert Near(kept, y, snap);
      }
    }
  }

  /** The nodes kept of the first k: each one more than snap above the last one kept. */
  function Thin(sorted: seq<real>, k: nat, snap: real): (r: seq<real>)
    requires 1 <= k <= |sorted|
    ensures 1 <= |r| <= k
  {
    if k == 1 then [sorted[0]] else KeepIfFar(Thin(sorted, k - 1, snap), sorted[k - 1], snap)
  }

  /** x is kept if it lies more than snap above the last node kept. */
  function KeepIfFar(kept: seq<real>, x: real, snap: real): (r: seq<real>)
    requires kept != []
    ensures |kept| <= |r| <= |kept| + 1
  {
    if x - kept[|kept|-1] > snap then kept + [x] else kept
  }

  lemma OneSpaced(sorted: seq<real>, k: nat, snap: real) returns (kept: seq<real>)
    requires sorted != [] && snap >= 0.0 && k == 1
    ensures kept == [sorted[0]] && Spaced(sorted[..k], kept, snap)
  {
    kept := [sorted[0]];
    var one := sorted[..1];
    assert one == [sorted[0]];
    assert one[0] <= one[0] <= one[0] + snap;
    assert Near(one, one[0], snap);
  }

  lemma {:induction false} ThinSpaced(sorted: seq<real>, k: nat, snap: real) returns (kept: seq<real>)
    requires Ascending(sorted) && snap >= 0.0 && 1 <= k <= |sorted|
    ensures kept == Thin(sorted, k, snap) && Spaced(sorted[..k], kept, snap)
  {
    if k == 1 {
      kept := OneSpaced(sorted, k, snap);
    } else {
      var few := ThinSpaced(sorted, k - 1, snap);
      kept := SpacedNext(sorted, k, few, snap);
    }
  }

  lemma LastBelow(sorted: seq<real>, k: nat, y: real)
    requires Ascending(sorted) && 1 < k <= |sorted| && y in sorted[..k - 1]
    ensures y <= sorted[k - 1]
  {
  }

  lemma SpacedNext(sorted: seq<real>, k: nat, kept: seq<real>, snap: real) returns (next: seq<real>)
    requires Ascending(sorted) && snap >= 0.0 && 1 < k <= |sorted| && Spaced(sorted[..k - 1], kept, snap)
    ensures next == KeepIfFar(kept, sorted[k - 1], snap)
    ensures Spaced(sorted[..k], next, snap)
  {
    var done, x := sorted[..k - 1], sorted[k - 1];
    assert sorted[..k] == done + [x];
    if x - kept[|kept|-1] > snap {
      SpacedKeep(done, sorted[..k], kept, x, snap);
      next := kept + [x];
    } else {
      LastBelow(sorted, k, kept[|kept|-1]);
      SpacedDrop(done, sorted[..k], kept, x, snap);
      next := kept;
    }
  }

  /** Slots below n hold the nodes kept of the first k; the slots from k on are still the sorted nodes. */
  ghost predicate Compacted(sorted: seq<real>, nodes: seq<real>, n: nat, k: nat, snap: real) {
    1 <= n <= k <= |sorted| == |nodes| && nodes[k..] == sorted[k..] && nodes[..n] == Thin(sorted, k, snap)
  }

  lemma CompactStep(sorted: seq<real>, nodes: seq<real>, n: nat, k: nat, snap: real)
    requires k < |sorted| && Compacted(sorted, nodes, n, k, snap)
    ensures nodes[k] - nodes[n - 1] > snap ==> Compacted(sorted, nodes[n := nodes[k]], n + 1, k + 1, snap)
    ensures nodes[k] - nodes[n - 1] <= snap ==> Compacted(sorted, nodes, n, k + 1, snap)
  {
    var x := nodes[k];
    assert x == nodes[k..][0] == sorted[k..][0] == sorted[k];
    assert nodes[k + 1..] == nodes[k..][1..] == sorted[k..][1..] == sorted[k + 1..];
    assert nodes[n - 1] == nodes[..n][n - 1];
    if x - nodes[n - 1] > snap {
      assert nodes[n := x][..n + 1] == nodes[..n] + [x];
      assert nodes[n := x][k + 1..] == nodes[k + 1..];
    }
  }

  lemma {:induction false} GapsIncrease(s: seq<real>, snap: real, i: nat, j: nat)
    requires snap >= 0.0 && AllApart(s, snap)
    requires i < j < |s|
    ensures s[i] < s[j]
    decreases j - i
  {
    assert Apart(s, i, snap);
    if i + 1 < j {
      GapsIncrease(s, snap, i + 1, j);
    }
  }

  lemma SpacedIncreases(done: seq<real>, kept: seq<real>, snap: real)
    requires Spaced(done, kept, snap) && snap >= 0.0
    ensures Increasing(kept)
  {
    forall i, j | 0 <= i < j < |kept|
      ensures kept[i] < kept[j]
    {
      GapsIncrease(kept, snap, i, j);
    }
  }

  lemma SameMembers(s: seq<real>, t: seq<real>, x: real)
    requires multiset(s) == multiset(t)
    ensures x in s <==> x in t
  {
    assert x in multiset(s) <==> x in multiset(t);
  }

  lemma KeptWithin(all: seq<real>, sorted: seq<real>, kept: seq<real>, snap: real)
    requires Ascending(sorted) && multiset(sorted) == multiset(all) && snap >= 0.0 && Spaced(sorted, kept, snap)
    ensures Within(kept, all) && AllNear(kept, all, snap)
  {
    forall x | x in all
      ensures kept[0] <= x && Near(kept, x, snap)
    {
      SameMembers(all, sorted, x);
      assert Near(kept, x, snap);
    }
    forall i | 0 <= i < |kept|
      ensures kept[i] in all
    {
      SameMembers(all, sorted, kept[i]);
    }
  }

  lemma ApartPrefix(s: seq<real>, n: nat, snap: real)
    requires AllApart(s, snap) && n <= |s|
    ensures AllApart(s[..n], snap)
  {
    forall i | 0 <= i < n - 1
      ensures Apart(s[..n], i, snap)
    {
      assert Apart(s, i, snap);
    }
  }

  /** The kept nodes are the merge when they reach the old last node. */
  lemma KeptReaches(all: seq<real>, sorted: seq<real>, kept: seq<real>, snap: real, oldLast: real)
    requires Ascending(sorted) && multiset(sorted) == multiset(all) && snap >= 0.0
    requires Spaced(sorted, kept, snap) && oldLast <= kept[|kept|-1]
    ensures MergedFrom(all, oldLast, snap, kept)
  {
    SpacedIncreases(sorted, kept, snap);
    KeptWithin(all, sorted, kept, snap);
    ApartPrefix(kept, |kept| - 1, snap);
  }

  /** They are the merge with the old last node put back when they do not. */
  lemma KeptExtended(all: seq<real>, sorted: seq<real>, kept: seq<real>, snap: real, oldLast: real)
    requires Ascending(sorted) && multiset(sorted) == multiset(all) && snap >= 0.0 && oldLast in all
    requires Spaced(sorted, kept, snap) && kept[|kept|-1] < oldLast
    ensures MergedFrom(all, oldLast, snap, kept + [oldLast])
  {
    SpacedIncreases(sorted, kept, snap);
    KeptWithin(all, sorted, kept, snap);
    var more := kept + [oldLast];
    assert more[|more|-1] == oldLast && more[..|more|-1] == kept;
    NearAllMore(all, kept, snap, oldLast);
    assert Increasing(more);
    assert Within(more, all);
  }

  lemma NearAllMore(all: seq<real>, kept: seq<real>, snap: real, y: real)
    requires AllNear(kept, all, snap)
    ensures AllNear(kept + [y], all, snap)
  {
    forall x | x in all
      ensures Near(kept + [y], x, snap)
    {
      assert Near(kept, x, snap);
      NearMore(kept, y, x, snap);
    }
  }

  /** The nodes of the axis and of the overlay, sorted. */
  method SortedNodes(coord: seq<real>, overlay: seq<real>) returns (nodes: array<real>)
    ensures fresh(nodes) && nodes.Length == |coord| + |overlay|
    ensures nodes[..] == Sort(coord + overlay)
  {
    var sorted := Sort(coord + overlay);
    nodes := new real[|sorted|](i requires 0 <= i < |sorted| => sorted[i]);
    assert nodes[..] == sorted;
  }

  /** The nodes kept, and the old last node behind them if they no longer reach it. */
  function Merge(coord: seq<real>, overlay: seq<real>, snap: real): (r: seq<real>)
    requires coord != []
    ensures r != []
  {
    var sorted, oldLast := Sort(coord + overlay), coord[|coord|-1];
    var kept := Thin(sorted, |sorted|, snap);
    if |kept| < |sorted| && kept[|kept|-1] < oldLast then kept + [oldLast] else kept
  }

  lemma MergeOk(coord: seq<real>, overlay: seq<real>, snap: real)
    requires coord != [] && snap >= 0.0
    ensures MergedFrom(coord + overlay, coord[|coord|-1], snap, Merge(coord, overlay, snap))
  {
    var all := coord + overlay;
    ThinOk(all, snap);
    assert coord[|coord|-1] == all[|coord|-1];
    KeptIsMerge(all, Sort(all), Thin(Sort(all), |all|, snap), snap, coord[|coord|-1]);
  }

  lemma ThinOk(all: seq<real>, snap: real)
    requires all != [] && snap >= 0.0
    ensures Ascending(Sort(all)) && multiset(Sort(all)) == multiset(all)
    ensures Spaced(Sort(all), Thin(Sort(all), |all|, snap), snap)
  {
    SortOk(all);
    var kept := ThinSpaced(Sort(all), |all|, snap);
    assert Sort(all)[..|all|] == Sort(all);
  }

  /** Merges the overlay's nodes into the axis: all nodes are sorted, those too close to the last one kept are dropped in
      place, and the old last node is put back at the end if the axis no longer reaches it. */
  method MergeOverlay(coord: seq<real>, overlay: seq<real>, snap: real) returns (r: seq<real>)
    requires coord != [] && snap >= 0.0
    ensures r == Merge(coord, overlay, snap)
    ensures MergedFrom(coord + overlay, coord[|coord|-1], snap, r)
  {
    MergeOk(coord, overlay, snap);
    var nodes := SortedNodes(coord, overlay);
    var n := Compact(nodes, snap);
    ghost var kept := nodes[..n];
    if n < nodes.Length {
      if nodes[n - 1] < coord[|coord|-1] {
        nodes[n] := coord[|coord|-1];
        n := n + 1;
        assert nodes[..n] == kept + [coord[|coord|-1]];
      }
    }
    r := nodes[..n];
  }

  /** With the old last node put back if it is missing, the kept nodes are the merge. */
  lemma KeptIsMerge(all: seq<real>, sorted: seq<real>, kept: seq<real>, snap: real, oldLast: real)
    requires Ascending(sorted) && multiset(sorted) == multiset(all) && snap >= 0.0 && oldLast in all
    requires Spaced(sorted, kept, snap)
    ensures if |kept| < |sorted| && kept[|kept|-1] < oldLast then MergedFrom(all, oldLast, snap, kept + [oldLast])
            else MergedFrom(all, oldLast, snap, kept)
  {
    if kept[|kept|-1] < oldLast {
      LastIsLargest(all, sorted, oldLast);
      KeptExtended(all, sorted, kept, snap, oldLast);
    } else {
      KeptReaches(all, sorted, kept, snap, oldLast);
    }
  }

  lemma LastIsLargest(all: seq<real>, sorted: seq<real>, x: real)
    requires Ascending(sorted) && multiset(sorted) == multiset(all) && x in all
    ensures sorted != [] && x <= sorted[|sorted|-1]
  {
    SameMembers(all, sorted, x);
    var i :| 0 <= i < |sorted| && sorted[i] == x;
  }

  /** Drops, in place, every node too close to the last one kept. */
  method Compact(nodes: array<real>, snap: real) returns (n: nat)
    requires nodes.Length > 0
    modifies nodes
    ensures 1 <= n <= nodes.Length && nodes[..n] == Thin(old(nodes[..]), nodes.Length, snap)
  {
    ghost var sorted := nodes[..];
    n := 1;
    for k := 1 to nodes.Length
      invariant Compacted(sorted, nodes[..], n, k, snap)
    {
      ghost var was := nodes[..];
      CompactStep(sorted, was, n, k, snap);
      if nodes[k] - nodes[n - 1] > snap {
        nodes[n] := nodes[k];
        assert nodes[..] == was[n := was[k]];
        n := n + 1;
      }
    }
    assert nodes[..][..n] == nodes[..n];
  }

  // ----- all the overlays of one axis

  function AllNodes(coord: seq<real>, overlays: seq<seq<real>>): seq<real> {
    if overlays == [] then coord else AllNodes(coord, overlays[..|overlays|-1]) + overlays[|overlays|-1]
  }

  /** What merging m overlays, one after the other, leaves of all the nodes: as after one merge, but a node may have moved
      away from the one kept for it once per merge. */
  ghost predicate MergedAll(all: seq<real>, first: seq<real>, m: nat, snap: real, r: seq<real>) {
    && first != [] && r != []
    && (m == 0 ==> r == first == all)
    && (m > 0 ==> Within(r, all) && Increasing(r))
    && AllNear(r, all, m as real * snap)
    && first[|first|-1] <= r[|r|-1]
    && (m > 0 ==> AllApart(r[..|r|-1], snap))
  }

  lemma NearAgain(r: seq<real>, r': seq<real>, x: real, drift: real, snap: real)
    requires Near(r, x, drift) && AllNear(r', r, snap)
    ensures Near(r', x, drift + snap)
  {
    var i :| 0 <= i < |r| && r[i] <= x <= r[i] + drift;
    assert Near(r', r[i], snap);
    var j :| 0 <= j < |r'| && r'[j] <= r[i] <= r'[j] + snap;
    assert r'[j] <= x <= r'[j] + (drift + snap);
  }

  lemma NearWider(r: seq<real>, x: real, drift: real, wider: real)
    requires Near(r, x, drift) && drift <= wider
    ensures Near(r, x, wider)
  {
    var i :| 0 <= i < |r| && r[i] <= x <= r[i] + drift;
    assert r[i] <= x <= r[i] + wider;
  }

  lemma MergeOneMore(all: seq<real>, first: seq<real>, m: nat, snap: real, r: seq<real>, overlay: seq<real>, r': seq<real>)
    requires MergedAll(all, first, m, snap, r) && snap >= 0.0
    requires MergedFrom(r + overlay, r[|r|-1], snap, r')
    ensures MergedAll(all + overlay, first, m + 1, snap, r')
  {
    AddSnap(m, snap);
    NearMerged(all, r, overlay, r', m as real * snap, snap, (m + 1) as real * snap);
    WithinMore(all, r, overlay, r');
  }

  lemma AddSnap(m: nat, snap: real)
    requires snap >= 0.0
    ensures (m + 1) as real * snap == m as real * snap + snap && m as real * snap >= 0.0
  {
    assert (m + 1) as real == m as real + 1.0;
  }

  /** A merge moves every node by at most snap more. */
  lemma NearMerged(all: seq<real>, r: seq<real>, overlay: seq<real>, r': seq<real>, drift: real, snap: real, more: real)
    requires AllNear(r, all, drift) && AllNear(r', r + overlay, snap)
    requires drift >= 0.0 && snap >= 0.0 && more == drift + snap
    ensures AllNear(r', all + overlay, more)
  {
    forall x | x in r
      ensures Near(r', x, snap)
    {
      assert x in r + overlay;
    }
    forall x | x in all + overlay
      ensures Near(r', x, more)
    {
      if x in all {
        assert Near(r, x, drift);
        NearAgain(r, r', x, drift, snap);
      } else {
        assert x in r + overlay && Near(r', x, snap);
        NearWider(r', x, snap, more);
      }
    }
  }

  lemma WithinMore(all: seq<real>, r: seq<real>, overlay: seq<real>, r': seq<real>)
    requires (Within(r, all) || r == all) && r != [] && Within(r', r + overlay)
    ensures Within(r', all + overlay)
  {
    assert r[0] in r + overlay;
    forall x | x in all + overlay
      ensures r'[0] <= x
    {
      assert x in all || x in r + overlay;
    }
    forall i | 0 <= i < |r'|
      ensures r'[i] in all + overlay
    {
      assert r'[i] in r + overlay;
      assert r'[i] in r ==> r'[i] in all;
    }
  }

  function MergeAll(coord: seq<real>, overlays: seq<seq<real>>, snap: real): (r: seq<real>)
    requires coord != []
    ensures r != []
  {
    if overlays == [] then coord
    else Merge(MergeAll(coord, overlays[..|overlays|-1], snap), overlays[|overlays|-1], snap)
  }

  lemma {:induction false} MergeAllOk(coord: seq<real>, overlays: seq<seq<real>>, snap: real)
    requires coord != [] && snap >= 0.0
    ensures MergedAll(AllNodes(coord, overlays), coord, |overlays|, snap, MergeAll(coord, overlays, snap))
  {
    if overlays == [] {
      forall x | x in coord
        ensures Near(coord, x, 0 as real * snap)
      {
        var i :| 0 <= i < |coord| && coord[i] == x;
        assert coord[i] <= x <= coord[i] + 0 as real * snap;
      }
    } else {
      var front, overlay := overlays[..|overlays|-1], overlays[|overlays|-1];
      var r := MergeAll(coord, front, snap);
      MergeAllOk(coord, front, snap);
      MergeOk(r, overlay, snap);
      MergeOneMore(AllNodes(coord, front), coord, |front|, snap, r, overlay, Merge(r, overlay, snap));
    }
  }

  /** Merges every overlay of the axis in turn. */
  method MergeOverlays(coord: seq<real>, overlays: seq<seq<real>>, snap: real) returns (r: seq<real>)
    requires coord != [] && snap >= 0.0
    ensures r == MergeAll(coord, overlays, snap)
    ensures MergedAll(AllNodes(coord, overlays), coord, |overlays|, snap, r)
  {
    MergeAllOk(coord, overlays, snap);
    r := coord;
    for m := 0 to |overlays|
      invariant r == MergeAll(coord, overlays[..m], snap)
    {
      assert overlays[..m + 1][..m] == overlays[..m];
      MergeAllOk(coord, overlays[..m], snap);
      r := MergeOverlay(r, overlays[m], snap);
    }
    assert overlays[..|overlays|] == overlays;
  }
}
