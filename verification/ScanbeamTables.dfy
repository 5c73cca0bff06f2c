/** The local minima table, the scanbeam tree and table, and the walk over the
    scanbeams that hands every bound to the active edge table. */
module ScanbeamTables {
  import opened Basics

  /** A chain of edges rising from a local minimum; x and dx are those of its first edge. */
  datatype Bound = Bound(clip: bool, e: nat, x: real, dx: real)

  datatype LmtNode = LmtNode(y: real, bounds: seq<Bound>)

  predicate Precedes(a: Bound, b: Bound) {
    a.x < b.x || (a.x == b.x && a.dx < b.dx)
  }

  // ----- the local minima table as a function

  function WithBound(bs: seq<Bound>, k: nat, b: Bound): seq<Bound>
    requires k <= |bs|
    decreases |bs| - k
  {
    if k == |bs| || Precedes(b, bs[k]) then bs[..k] + [b] + bs[k..] else WithBound(bs, k + 1, b)
  }

  /** The place of y's node, made if it is not there yet. */
  function WithMinimum(t: seq<LmtNode>, k: nat, y: real): (r: (seq<LmtNode>, nat))
    requires k <= |t|
    ensures r.1 < |r.0| && r.0[r.1].y == y
    decreases |t| - k
  {
    if k == |t| || y < t[k].y then (t[..k] + [LmtNode(y, [])] + t[k..], k)
    else if y > t[k].y then WithMinimum(t, k + 1, y)
    else (t, k)
  }

  function Insert(t: seq<LmtNode>, y: real, b: Bound): seq<LmtNode> {
    var (u, i) := WithMinimum(t, 0, y);
    u[i := LmtNode(y, WithBound(u[i].bounds, 0, b))]
  }

  /** a may come before b: it starts further left, or at the same x and leans no further right. */
  ghost predicate NoFurther(a: Bound, b: Bound) {
    a.x < b.x || (a.x == b.x && a.dx <= b.dx)
  }

  ghost predicate BoundsSorted(bs: seq<Bound>) {
    forall i, j :: 0 <= i < j < |bs| ==> NoFurther(bs[i], bs[j])
  }

  ghost predicate Ascending(t: seq<LmtNode>) {
    forall i, j :: 0 <= i < j < |t| ==> t[i].y < t[j].y
  }

  /** Strictly increasing in y, every list of bounds in order of (x, dx). */
  ghost predicate LmtOk(t: seq<LmtNode>) {
    Ascending(t) && forall i :: 0 <= i < |t| ==> BoundsSorted(t[i].bounds)
  }

  ghost function AllBounds(t: seq<LmtNode>): seq<Bound> {
    if t == [] then [] else t[0].bounds + AllBounds(t[1..])
  }

  ghost function Heights(t: seq<LmtNode>): set<real> {
    set i | 0 <= i < |t| :: t[i].y
  }

  lemma PutIn(bs: seq<Bound>, k: nat, b: Bound)
    requires k <= |bs|
    ensures multiset(bs[..k] + [b] + bs[k..]) == multiset(bs) + multiset{b}
  {
    assert bs == bs[..k] + bs[k..];
  }

  lemma PlaceBound(bs: seq<Bound>, k: nat, b: Bound)
    requires k <= |bs| && BoundsSorted(bs)
    requires forall i :: 0 <= i < k ==> !Precedes(b, bs[i])
    requires k < |bs| ==> Precedes(b, bs[k])
    ensures BoundsSorted(bs[..k] + [b] + bs[k..])
    ensures multiset(bs[..k] + [b] + bs[k..]) == multiset(bs) + multiset{b}
  {
    PutIn(bs, k, b);
    forall i | k <= i < |bs|
      ensures NoFurther(b, bs[i])
    {
      assert i > k ==> NoFurther(bs[k], bs[i]);
    }
  }

  lemma {:induction false} WithBoundSorted(bs: seq<Bound>, k: nat, b: Bound)
    requires k <= |bs| && BoundsSorted(bs)
    requires forall i :: 0 <= i < k ==> !Precedes(b, bs[i])
    ensures BoundsSorted(WithBound(bs, k, b))
    ensures multiset(WithBound(bs, k, b)) == multiset(bs) + multiset{b}
    decreases |bs| - k
  {
    if k == |bs| || Precedes(b, bs[k]) {
      PlaceBound(bs, k, b);
    } else {
      WithBoundSorted(bs, k + 1, b);
    }
  }

  /** A bound goes behind all that may come before it, equal ones among them, and in front of the others. */
  lemma {:induction false} BoundPlace(bs: seq<Bound>, k: nat, b: Bound) returns (at: nat)
    requires k <= |bs| && BoundsSorted(bs) && forall i :: 0 <= i < k ==> NoFurther(bs[i], b)
    ensures at <= |bs| && WithBound(bs, k, b) == bs[..at] + [b] + bs[at..]
    ensures forall i :: 0 <= i < at ==> NoFurther(bs[i], b)
    ensures forall i :: at <= i < |bs| ==> !NoFurther(bs[i], b)
    decreases |bs| - k
  {
    if k == |bs| || Precedes(b, bs[k]) {
      at := k;
      forall i | k <= i < |bs|
        ensures !NoFurther(bs[i], b)
      {
        assert i > k ==> NoFurther(bs[k], bs[i]);
      }
    } else {
      at := BoundPlace(bs, k + 1, b);
    }
  }

  lemma {:induction false} AllBoundsConcat(s: seq<LmtNode>, t: seq<LmtNode>)
    ensures AllBounds(s + t) == AllBounds(s) + AllBounds(t)
  {
    if s == [] {
      assert s + t == t;
    } else {
      AllBoundsConcat(s[1..], t);
      TailOfConcat(s, t);
      Associative(s[0].bounds, AllBounds(s[1..]), AllBounds(t));
    }
  }

  lemma AllBoundsSplit(t: seq<LmtNode>, k: nat)
    requires k < |t|
    ensures AllBounds(t) == AllBounds(t[..k]) + t[k].bounds + AllBounds(t[k + 1..])
  {
    assert t == t[..k] + t[k..];
    AllBoundsConcat(t[..k], t[k..]);
    assert t[k..][1..] == t[k + 1..];
  }

  lemma HeightsConcat(s: seq<LmtNode>, t: seq<LmtNode>)
    ensures Heights(s + t) == Heights(s) + Heights(t)
  {
    var u := s + t;
    forall h
      ensures h in Heights(u) <==> h in Heights(s) || h in Heights(t)
    {
      if h in Heights(s) { var i :| 0 <= i < |s| && s[i].y == h; assert u[i].y == h; }
      if h in Heights(t) { var i :| 0 <= i < |t| && t[i].y == h; assert u[|s| + i].y == h; }
      if h in Heights(u) {
        var i :| 0 <= i < |u| && u[i].y == h;
        assert if i < |s| then s[i].y == h else t[i - |s|].y == h;
      }
    }
  }

  lemma HeightsSplit(t: seq<LmtNode>, k: nat)
    requires k < |t|
    ensures Heights(t) == Heights(t[..k]) + {t[k].y} + Heights(t[k + 1..])
  {
    HeightsConcat(t[..k], t[k..]);
    HeightsConcat([t[k]], t[k + 1..]);
    assert t == t[..k] + t[k..] && t[k..] == [t[k]] + t[k + 1..];
    assert [t[k]][0].y in Heights([t[k]]);
  }

  lemma NewMinimum(t: seq<LmtNode>, k: nat, y: real)
    requires k <= |t| && LmtOk(t)
    requires forall i :: 0 <= i < k ==> t[i].y < y
    requires k < |t| ==> y < t[k].y
    ensures LmtOk(t[..k] + [LmtNode(y, [])] + t[k..])
  {
    var u := t[..k] + [LmtNode(y, [])] + t[k..];
    forall i | k <= i < |t|
      ensures y < t[i].y
    {
      assert i > k ==> t[k].y < t[i].y;
    }
  }

  lemma NewMinimumHolds(t: seq<LmtNode>, k: nat, y: real)
    requires k <= |t|
    ensures var u := t[..k] + [LmtNode(y, [])] + t[k..];
            AllBounds(u) == AllBounds(t) && Heights(u) == Heights(t) + {y}
  {
    var a, b, n := t[..k], t[k..], LmtNode(y, []);
    assert t == a + b;
    Associative(a, [n], b);
    NoBounds(a, n, b);
    NewHeight(a, n, b);
  }

  lemma NoBounds(a: seq<LmtNode>, n: LmtNode, b: seq<LmtNode>)
    requires n.bounds == []
    ensures AllBounds(a + ([n] + b)) == AllBounds(a + b)
  {
    AllBoundsConcat(a, b);
    AllBoundsConcat(a, [n] + b);
    assert ([n] + b)[1..] == b;
    assert AllBounds([n] + b) == AllBounds(b);
  }

  lemma NewHeight(a: seq<LmtNode>, n: LmtNode, b: seq<LmtNode>)
    ensures Heights(a + ([n] + b)) == Heights(a + b) + {n.y}
  {
    HeightsConcat(a, b);
    HeightsConcat(a, [n] + b);
    HeightsConcat([n], b);
    assert [n][0].y in Heights([n]);
  }

  lemma {:induction false} WithMinimumOk(t: seq<LmtNode>, k: nat, y: real)
    requires k <= |t| && LmtOk(t)
    requires forall i :: 0 <= i < k ==> t[i].y < y
    ensures var (u, i) := WithMinimum(t, k, y);
            LmtOk(u) && AllBounds(u) == AllBounds(t) && Heights(u) == Heights(t) + {y}
    decreases |t| - k
  {
    if k == |t| || y < t[k].y {
      NewMinimum(t, k, y);
      NewMinimumHolds(t, k, y);
    } else if y > t[k].y {
      WithMinimumOk(t, k + 1, y);
    } else {
      assert t[k].y in Heights(t);
    }
  }

  lemma ReplaceBounds(u: seq<LmtNode>, i: nat, bs: seq<Bound>, b: Bound)
    requires LmtOk(u) && i < |u| && BoundsSorted(bs)
    requires multiset(bs) == multiset(u[i].bounds) + multiset{b}
    ensures LmtOk(u[i := LmtNode(u[i].y, bs)])
    ensures multiset(AllBounds(u[i := LmtNode(u[i].y, bs)])) == multiset(AllBounds(u)) + multiset{b}
    ensures Heights(u[i := LmtNode(u[i].y, bs)]) == Heights(u)
  {
    ReplacedHolds(u, i, bs, b);
    ReplacedHeights(u, i, bs);
  }

  lemma ReplacedHolds(u: seq<LmtNode>, i: nat, bs: seq<Bound>, b: Bound)
    requires i < |u| && multiset(bs) == multiset(u[i].bounds) + multiset{b}
    ensures multiset(AllBounds(u[i := LmtNode(u[i].y, bs)])) == multiset(AllBounds(u)) + multiset{b}
  {
    var r := u[i := LmtNode(u[i].y, bs)];
    assert r[..i] == u[..i] && r[i + 1..] == u[i + 1..];
    AllBoundsSplit(u, i);
    AllBoundsSplit(r, i);
    OneMore(AllBounds(u[..i]), u[i].bounds, bs, AllBounds(u[i + 1..]), b);
  }

  lemma ReplacedHeights(u: seq<LmtNode>, i: nat, bs: seq<Bound>)
    requires i < |u|
    ensures Heights(u[i := LmtNode(u[i].y, bs)]) == Heights(u)
  {
    var r := u[i := LmtNode(u[i].y, bs)];
    assert r[..i] == u[..i] && r[i + 1..] == u[i + 1..];
    HeightsSplit(u, i);
    HeightsSplit(r, i);
  }

  lemma OneMore(front: seq<Bound>, was: seq<Bound>, now: seq<Bound>, back: seq<Bound>, b: Bound)
    requires multiset(now) == multiset(was) + multiset{b}
    ensures multiset(front + now + back) == multiset(front + was + back) + multiset{b}
  {
  }

  /** Insertion keeps the table in order and adds just that bound and that height. */
  lemma InsertOk(t: seq<LmtNode>, y: real, b: Bound)
    requires LmtOk(t)
    ensures LmtOk(Insert(t, y, b))
    ensures multiset(AllBounds(Insert(t, y, b))) == multiset(AllBounds(t)) + multiset{b}
    ensures Heights(Insert(t, y, b)) == Heights(t) + {y}
  {
    WithMinimumOk(t, 0, y);
    var (u, i) := WithMinimum(t, 0, y);
    WithBoundSorted(u[i].bounds, 0, b);
    ReplaceBounds(u, i, WithBound(u[i].bounds, 0, b), b);
  }

  class LocalMinima {
    var table: seq<LmtNode>

    constructor ()
      ensures table == []
    {
      table := [];
    }

    /** The place of the bound list for height y, made if need be. */
    method BoundList(k: nat, y: real) returns (i: nat)
      requires k <= |table|
      modifies this
      ensures (table, i) == WithMinimum(old(table), k, y)
      decreases |table| - k
    {
      if k == |table| {
        table := table + [LmtNode(y, [])];
        i := k;
        assert table == old(table[..k] + [LmtNode(y, [])] + table[k..]);
      } else if y < table[k].y {
        table := table[..k] + [LmtNode(y, [])] + table[k..];
        i := k;
      } else if y > table[k].y {
        i := BoundList(k + 1, y);
      } else {
        i := k;
      }
    }

    method InsertBound(i: nat, k: nat, b: Bound)
      requires i < |table| && k <= |table[i].bounds|
      modifies this
      ensures table == old(table)[i := LmtNode(old(table)[i].y, WithBound(old(table)[i].bounds, k, b))]
      decreases |table[i].bounds| - k
    {
      var bs := table[i].bounds;
      if k == |bs| {
        assert bs[..k] + [b] + bs[k..] == bs + [b];
        table := table[i := table[i].(bounds := bs + [b])];
      } else if Precedes(b, bs[k]) {
        table := table[i := table[i].(bounds := bs[..k] + [b] + bs[k..])];
      } else {
        InsertBound(i, k + 1, b);
      }
    }

    method Add(y: real, b: Bound)
      modifies this
      ensures table == Insert(old(table), y, b)
    {
      var i := BoundList(0, y);
      InsertBound(i, 0, b);
    }
  }

  // ----- the scanbeam tree

  datatype Tree = Empty | Node(less: Tree, y: real, more: Tree)

  function InOrder(t: Tree): seq<real> {
    match t
    case Empty => []
    case Node(l, y, m) => InOrder(l) + [y] + InOrder(m)
  }

  function AddTo(t: Tree, y: real): Tree {
    match t
    case Empty => Node(Empty, y, Empty)
    case Node(l, z, m) =>
      if z > y then Node(AddTo(l, y), z, m)
      else if z < y then Node(l, z, AddTo(m, y))
      else t
  }

  ghost function Elements(s: seq<real>): set<real> {
    set i | 0 <= i < |s| :: s[i]
  }

  lemma ElementsConcat(a: seq<real>, b: seq<real>)
    ensures Elements(a + b) == Elements(a) + Elements(b)
  {
    forall h
      ensures h in Elements(a + b) <==> h in Elements(a) || h in Elements(b)
    {
      if h in Elements(a) { var i :| 0 <= i < |a| && a[i] == h; assert (a + b)[i] == h; }
      if h in Elements(b) { var i :| 0 <= i < |b| && b[i] == h; assert (a + b)[|a| + i] == h; }
      if h in Elements(a + b) { var i :| 0 <= i < |a + b| && (a + b)[i] == h; assert i < |a| ==> a[i] == h; assert i >= |a| ==> b[i - |a|] == h; }
    }
  }

  lemma AroundPivot(a: seq<real>, y: real, b: seq<real>)
    ensures Increasing(a + [y] + b) <==>
              Increasing(a) && Increasing(b) && (forall h :: h in Elements(a) ==> h < y) && (forall h :: h in Elements(b) ==> y < h)
  {
    var s := a + [y] + b;
    if Increasing(s) {
      forall i, j | 0 <= i < j < |a| ensures a[i] < a[j] { assert s[i] < s[j]; }
      forall i, j | 0 <= i < j < |b| ensures b[i] < b[j] { assert s[|a| + 1 + i] < s[|a| + 1 + j]; }
      forall i | 0 <= i < |a| ensures a[i] < y { assert s[i] < s[|a|]; }
      forall i | 0 <= i < |b| ensures y < b[i] { assert s[|a|] < s[|a| + 1 + i]; }
    } else {
      if Increasing(a) && Increasing(b) && (forall h :: h in Elements(a) ==> h < y) && (forall h :: h in Elements(b) ==> y < h) {
        forall i, j | 0 <= i < j < |s| ensures s[i] < s[j] {
          if i < |a| { assert a[i] in Elements(a); }
          if j > |a| { assert b[j - |a| - 1] in Elements(b); }
        }
        assert false;
      }
    }
  }

  /** s' is s with y added, if it was not there. */
  ghost predicate Gains(s: seq<real>, s': seq<real>, y: real) {
    && Increasing(s') && Elements(s') == Elements(s) + {y}
    && |s'| == |s| + if y in Elements(s) then 0 else 1
  }

  lemma PivotElements(a: seq<real>, z: real, b: seq<real>)
    ensures Elements(a + [z] + b) == Elements(a) + {z} + Elements(b)
  {
    ElementsConcat(a + [z], b);
    ElementsConcat(a, [z]);
    assert [z][0] in Elements([z]);
  }

  lemma GainLess(l: seq<real>, l': seq<real>, z: real, m: seq<real>, y: real)
    requires Increasing(l + [z] + m) && y < z && Gains(l, l', y)
    ensures Gains(l + [z] + m, l' + [z] + m, y)
  {
    AroundPivot(l, z, m);
    AroundPivot(l', z, m);
    PivotElements(l, z, m);
    PivotElements(l', z, m);
  }

  lemma GainMore(l: seq<real>, z: real, m: seq<real>, m': seq<real>, y: real)
    requires Increasing(l + [z] + m) && z < y && Gains(m, m', y)
    ensures Gains(l + [z] + m, l + [z] + m', y)
  {
    AroundPivot(l, z, m);
    AroundPivot(l, z, m');
    PivotElements(l, z, m);
    PivotElements(l, z, m');
  }

  /** Recording a height keeps the tree in search order and adds just that height. */
  lemma {:induction false} AddToOk(t: Tree, y: real)
    requires Increasing(InOrder(t))
    ensures Gains(InOrder(t), InOrder(AddTo(t, y)), y)
  {
    match t
    case Empty =>
      PivotElements([], y, []);
    case Node(l, z, m) =>
      AroundPivot(InOrder(l), z, InOrder(m));
      if z > y {
        AddToOk(l, y);
        GainLess(InOrder(l), InOrder(AddTo(l, y)), z, InOrder(m), y);
      } else if z < y {
        AddToOk(m, y);
        GainMore(InOrder(l), z, InOrder(m), InOrder(AddTo(m, y)), y);
      } else {
        PivotElements(InOrder(l), z, InOrder(m));
      }
  }

  class ScanbeamTree {
    var root: Tree
    var entries: nat

    ghost predicate Valid()
      reads this
    {
      Increasing(InOrder(root)) && entries == |InOrder(root)|
    }

    constructor ()
      ensures Valid() && root == Empty
    {
      root, entries := Empty, 0;
    }

    /** Records a height; `entries` counts the different ones. */
    method Add(y: real)
      requires Valid()
      modifies this
      ensures Valid() && Elements(InOrder(root)) == Elements(InOrder(old(root))) + {y}
    {
      AddToOk(root, y);
      var r, n := AddToTree(entries, root, y);
      root, entries := r, n;
    }

    static method AddToTree(entries: nat, t: Tree, y: real) returns (r: Tree, n: nat)
      ensures r == AddTo(t, y)
      ensures n == entries + |InOrder(r)| - |InOrder(t)|
    {
      match t
      case Empty =>
        r, n := Node(Empty, y, Empty), entries + 1;
      case Node(l, z, m) =>
        r, n := t, entries;
        if z > y {
          var s;
          s, n := AddToTree(entries, l, y);
          r := Node(s, z, m);
        } else if z < y {
          var s;
          s, n := AddToTree(entries, m, y);
          r := Node(l, z, s);
        }
    }

    /** The scanbeam table: every recorded height once, in increasing order. */
    method BuildTable() returns (sbt: array<real>)
      requires Valid()
      ensures fresh(sbt) && sbt[..] == InOrder(root) && Increasing(sbt[..])
    {
      sbt := new real[entries];
      var n := Fill(0, sbt, root);
      assert sbt[..] == sbt[..n];
    }

    static method Fill(entries: nat, sbt: array<real>, t: Tree) returns (n: nat)
      requires entries + |InOrder(t)| <= sbt.Length
      modifies sbt
      ensures n == entries + |InOrder(t)|
      ensures sbt[..n] == old(sbt[..entries]) + InOrder(t)
      decreases t
    {
      n := entries;
      if t.Node? {
        n := Fill(n, sbt, t.less);
        ghost var left := sbt[..n];
        sbt[n] := t.y;
        n := n + 1;
        assert sbt[..n] == left + [t.y];
        n := Fill(n, sbt, t.more);
      }
    }
  }

  // ----- the walk over the scanbeams

  ghost function Tagged(y: real, bs: seq<Bound>): seq<(real, Bound)> {
    seq(|bs|, i requires 0 <= i < |bs| => (y, bs[i]))
  }

  /** Every bound of the table with the height of its minimum, in table order. */
  ghost function Entries(t: seq<LmtNode>): seq<(real, Bound)> {
    if t == [] then [] else Entries(t[..|t|-1]) + Tagged(t[|t|-1].y, t[|t|-1].bounds)
  }

  /** An entry is a bound of a node, at the height of that node. */
  lemma {:induction false} EntryIs(t: seq<LmtNode>, i: nat) returns (m: nat, j: nat)
    requires i < |Entries(t)|
    ensures m < |t| && j < |t[m].bounds| && Entries(t)[i] == (t[m].y, t[m].bounds[j])
  {
    var front, n := t[..|t|-1], t[|t|-1];
    if i < |Entries(front)| {
      m, j := EntryIs(front, i);
    } else {
      m, j := |t| - 1, i - |Entries(front)|;
      assert Entries(t)[i] == Tagged(n.y, n.bounds)[j];
    }
  }

  /** The minima from m on are heights of the scanbeam table from b on. */
  ghost predicate Ahead(s: seq<real>, b: nat, lmt: seq<LmtNode>, m: nat)
    requires b <= |s|
  {
    forall k :: m <= k < |lmt| ==> lmt[k].y in Elements(s[b..])
  }

  /** Walks up the scanbeams and the local minima side by side; `entered` lists each bound handed to the active
      edge table with the scanbeam bottom at which that happens. */
  method WalkScanbeams(sbt: array<real>, lmt: seq<LmtNode>) returns (entered: seq<(real, Bound)>)
    requires Increasing(sbt[..]) && Ascending(lmt)
    requires Heights(lmt) <= Elements(sbt[..])
    ensures entered == Entries(lmt)
  {
    var scanbeam, localMin := 0, 0;
    entered := [];
    ghost var s := sbt[..];
    AllAhead(s, lmt);
    assert lmt[..0] == [];
    while scanbeam < sbt.Length
      invariant scanbeam <= sbt.Length && localMin <= |lmt|
      invariant entered == Entries(lmt[..localMin])
      invariant Ahead(s, scanbeam, lmt, localMin)
    {
      var yb := sbt[scanbeam];
      assert yb == s[scanbeam];
      if localMin < |lmt| && lmt[localMin].y == yb {
        ghost var before := entered;
        var bs := lmt[localMin].bounds;
        for k := 0 to |bs|
          invariant entered == before + Tagged(yb, bs)[..k]
        {
          entered := entered + [(yb, bs[k])];
        }
        assert lmt[..localMin + 1][..localMin] == lmt[..localMin];
        localMin := localMin + 1;
      }
      StillAhead(s, lmt, scanbeam, localMin);
      scanbeam := scanbeam + 1;
    }
    NoneAhead(s, lmt, localMin);
    assert lmt[..localMin] == lmt;
  }

  lemma AllAhead(s: seq<real>, lmt: seq<LmtNode>)
    requires Heights(lmt) <= Elements(s)
    ensures Ahead(s, 0, lmt, 0)
  {
    assert s[0..] == s;
    forall m | 0 <= m < |lmt|
      ensures lmt[m].y in Elements(s)
    {
      assert lmt[m].y in Heights(lmt);
    }
  }

  lemma NoneAhead(s: seq<real>, lmt: seq<LmtNode>, m: nat)
    requires m <= |lmt| && Ahead(s, |s|, lmt, m)
    ensures m == |lmt|
  {
    assert Elements(s[|s|..]) == {};
    var h := if m < |lmt| then lmt[m].y else 0.0;
    assert h !in Elements(s[|s|..]);
  }

  /** Minima not yet reached stay above the scanbeam bottom. */
  lemma StillAhead(s: seq<real>, lmt: seq<LmtNode>, b: nat, m: nat)
    requires Increasing(s) && Ascending(lmt) && b < |s| && m <= |lmt|
    requires Ahead(s, b, lmt, m)
    requires m < |lmt| ==> lmt[m].y != s[b]
    ensures Ahead(s, b + 1, lmt, m)
  {
    assert s[b..] == [s[b]] + s[b + 1..];
    ElementsConcat([s[b]], s[b + 1..]);
    assert Elements([s[b]]) == {s[b]};
    forall k | m <= k < |lmt|
      ensures lmt[k].y in Elements(s[b + 1..])
    {
      assert lmt[m].y in Elements(s[b + 1..]);
      var i :| 0 <= i < |s[b + 1..]| && s[b + 1..][i] == lmt[m].y;
      assert s[b] < s[b + 1 + i] && lmt[m].y <= lmt[k].y;
    }
  }
}
