/** The output contours of the polygon clipper, as values.
    A contour node is named by its creation index.  `proxy` sends each node to
    the node that now stands for it, `chain` holds the vertices of a node from
    its left end to its right end, and `hole` the hole flag last written. */
module ContourForest {
  import opened Basics

  datatype Flag = Unset | Set(value: bool)

  datatype Forest = Forest(proxy: seq<nat>, chain: seq<seq<Vertex>>, hole: seq<Flag>)

  datatype Op =
    | LocalMin(v: Vertex)
    | AddLeft(p: nat, v: Vertex)
    | AddRight(p: nat, v: Vertex)
    | MergeLeft(p: nat, q: nat)
    | MergeRight(p: nat, q: nat)

  const EMPTY: Forest := Forest([], [], [])

  /** Proxies are roots, and exactly the roots hold vertices. */
  ghost predicate WellFormed(f: Forest) {
    && |f.chain| == |f.hole| == |f.proxy|
    && (forall i :: 0 <= i < |f.proxy| ==> f.proxy[i] < |f.proxy|)
    && (forall i :: 0 <= i < |f.proxy| ==> f.proxy[f.proxy[i]] == f.proxy[i])
    && (forall i :: 0 <= i < |f.proxy| ==> (f.chain[i] != [] <==> f.proxy[i] == i))
  }

  predicate Legal(f: Forest, op: Op) {
    match op
    case LocalMin(_) => true
    case AddLeft(p, _) => p < |f.proxy|
    case AddRight(p, _) => p < |f.proxy|
    case MergeLeft(p, q) => p < |f.proxy| && q < |f.proxy|
    case MergeRight(p, q) => p < |f.proxy| && q < |f.proxy|
  }

  function Redirect(proxy: seq<nat>, target: nat, to: nat): (r: seq<nat>)
    ensures |r| == |proxy|
    ensures forall i :: 0 <= i < |proxy| ==> r[i] == if proxy[i] == target then to else proxy[i]
  {
    seq(|proxy|, i requires 0 <= i < |proxy| => if proxy[i] == target then to else proxy[i])
  }

  /** Root a gives its vertices to root b, whose list becomes s; a alone only gets its hole flag. */
  function Merged(f: Forest, a: nat, b: nat, s: seq<Vertex>, hole: bool): (g: Forest)
    requires WellFormed(f) && a < |f.proxy| && b < |f.proxy|
    requires f.proxy[a] == a && f.proxy[b] == b
    requires s != []
    ensures WellFormed(g)
  {
    var h := f.hole[b := Set(hole)];
    if a == b then f.(hole := h)
    else Forest(Redirect(f.proxy, a, b), f.chain[b := s][a := []], h)
  }

  function Step(f: Forest, op: Op): (g: Forest)
    requires WellFormed(f) && Legal(f, op)
    ensures WellFormed(g)
  {
    match op
    case LocalMin(v) =>
      Forest(f.proxy + [|f.proxy|], f.chain + [[v]], f.hole + [Unset])
    case AddLeft(p, v) =>
      var r := f.proxy[p];
      f.(chain := f.chain[r := [v] + f.chain[r]])
    case AddRight(p, v) =>
      var r := f.proxy[p];
      f.(chain := f.chain[r := f.chain[r] + [v]])
    case MergeLeft(p, q) =>
      var (a, b) := (f.proxy[p], f.proxy[q]);
      Merged(f, a, b, f.chain[a] + f.chain[b], true)
    case MergeRight(p, q) =>
      var (a, b) := (f.proxy[p], f.proxy[q]);
      Merged(f, a, b, f.chain[b] + f.chain[a], false)
  }

  // ----- what a step does, seen from the nodes

  /** The vertices, left to right, of the contour that node i is part of. */
  ghost function Contour(f: Forest, i: nat): seq<Vertex>
    requires WellFormed(f) && i < |f.proxy|
  {
    f.chain[f.proxy[i]]
  }

  ghost predicate Together(f: Forest, i: nat, j: nat)
    requires i < |f.proxy| && j < |f.proxy|
  {
    f.proxy[i] == f.proxy[j]
  }

  /** Only the contour of node p has changed: it is now c. */
  ghost predicate Changed(f: Forest, g: Forest, p: nat, c: seq<Vertex>)
    requires WellFormed(f) && WellFormed(g) && |g.proxy| == |f.proxy| && p < |f.proxy|
  {
    && g.proxy == f.proxy && g.hole == f.hole
    && forall i: nat :: i < |f.proxy| ==> Contour(g, i) == if Together(f, i, p) then c else Contour(f, i)
  }

  /** The nodes of p's contour and of q's are now in one contour, which is c and has its flag at what stands for q; the
      other contours are as they were. */
  ghost predicate Joined(f: Forest, g: Forest, p: nat, q: nat, c: seq<Vertex>, hole: bool)
    requires WellFormed(f) && WellFormed(g) && |g.proxy| == |f.proxy| && p < |f.proxy| && q < |f.proxy|
  {
    && g.hole == f.hole[f.proxy[q] := Set(hole)]
    && forall i: nat :: i < |f.proxy| ==>
         && g.proxy[i] == (if Together(f, i, p) then f.proxy[q] else f.proxy[i])
         && Contour(g, i) == if !Together(f, p, q) && (Together(f, i, p) || Together(f, i, q)) then c else Contour(f, i)
  }

  lemma MergeDoes(f: Forest, p: nat, q: nat, c: seq<Vertex>, hole: bool)
    requires WellFormed(f) && p < |f.proxy| && q < |f.proxy| && c != []
    ensures Joined(f, Merged(f, f.proxy[p], f.proxy[q], c, hole), p, q, c, hole)
  {
  }

  /** A contour of a new node, which is its only node. */
  ghost predicate Started(f: Forest, g: Forest, c: seq<Vertex>)
    requires WellFormed(f) && WellFormed(g) && |g.proxy| == |f.proxy| + 1
  {
    && g.hole == f.hole + [Unset] && Contour(g, |f.proxy|) == c
    && forall i: nat :: i < |f.proxy| ==>
         g.proxy[i] == f.proxy[i] && Contour(g, i) == Contour(f, i) && !Together(g, i, |f.proxy|)
  }

  lemma MinDoes(f: Forest, v: Vertex)
    requires WellFormed(f)
    ensures Started(f, Step(f, LocalMin(v)), [v])
  {
  }

  /** A local minimum starts a contour of its own. Adding puts the vertex at the left or right end of the contour of its
      node. A left merge joins two contours p's first and marks a hole, a right merge joins them p's last and marks none;
      of a contour merged with itself only the mark changes. */
  ghost predicate Done(f: Forest, op: Op, g: Forest)
    requires WellFormed(f) && Legal(f, op) && WellFormed(g)
  {
    match op
    case LocalMin(v) => |g.proxy| == |f.proxy| + 1 && Started(f, g, [v])
    case AddLeft(p, v) => |g.proxy| == |f.proxy| && Changed(f, g, p, [v] + Contour(f, p))
    case AddRight(p, v) => |g.proxy| == |f.proxy| && Changed(f, g, p, Contour(f, p) + [v])
    case MergeLeft(p, q) => |g.proxy| == |f.proxy| && Joined(f, g, p, q, Contour(f, p) + Contour(f, q), true)
    case MergeRight(p, q) => |g.proxy| == |f.proxy| && Joined(f, g, p, q, Contour(f, q) + Contour(f, p), false)
  }

  lemma StepDoes(f: Forest, op: Op)
    requires WellFormed(f) && Legal(f, op)
    ensures Done(f, op, Step(f, op))
  {
    match op
    case LocalMin(v) => MinDoes(f, v);
    case AddLeft(_, _) =>
    case AddRight(_, _) =>
    case MergeLeft(p, q) => MergeDoes(f, p, q, Contour(f, p) + Contour(f, q), true);
    case MergeRight(p, q) => MergeDoes(f, p, q, Contour(f, q) + Contour(f, p), false);
  }

  // ----- runs

  ghost predicate LegalRun(ops: seq<Op>)
    decreases |ops|, 0
  {
    ops == [] || (LegalRun(ops[..|ops|-1]) && Legal(Run(ops[..|ops|-1]), ops[|ops|-1]))
  }

  ghost function Run(ops: seq<Op>): (f: Forest)
    requires LegalRun(ops)
    ensures WellFormed(f)
    decreases |ops|, 1
  {
    if ops == [] then EMPTY else Step(Run(ops[..|ops|-1]), ops[|ops|-1])
  }

  ghost function Vertices(chain: seq<seq<Vertex>>): multiset<Vertex> {
    if chain == [] then multiset{} else Vertices(chain[..|chain|-1]) + multiset(chain[|chain|-1])
  }

  ghost function AddedBy(op: Op): multiset<Vertex> {
    match op
    case LocalMin(v) => multiset{v}
    case AddLeft(_, v) => multiset{v}
    case AddRight(_, v) => multiset{v}
    case MergeLeft(_, _) => multiset{}
    case MergeRight(_, _) => multiset{}
  }

  ghost function Added(ops: seq<Op>): multiset<Vertex> {
    if ops == [] then multiset{} else Added(ops[..|ops|-1]) + AddedBy(ops[|ops|-1])
  }

  lemma {:induction false} VerticesUpdate(chain: seq<seq<Vertex>>, i: nat, s: seq<Vertex>)
    requires i < |chain|
    ensures Vertices(chain[i := s]) + multiset(chain[i]) == Vertices(chain) + multiset(s)
  {
    var n := |chain| - 1;
    if i == n {
      assert chain[i := s][..n] == chain[..n];
    } else {
      VerticesUpdate(chain[..n], i, s);
      assert chain[i := s][..n] == chain[..n][i := s];
      var (u, v, m) := (Vertices(chain[..n][i := s]), Vertices(chain[..n]), multiset(chain[n]));
      assert Vertices(chain[i := s]) == u + m;
      assert (u + m) + multiset(chain[i]) == (u + multiset(chain[i])) + m;
      assert (v + m) + multiset(s) == (v + multiset(s)) + m;
    }
  }

  lemma VerticesMerge(chain: seq<seq<Vertex>>, a: nat, b: nat, s: seq<Vertex>)
    requires a < |chain| && b < |chain| && a != b
    requires multiset(s) == multiset(chain[a]) + multiset(chain[b])
    ensures Vertices(chain[b := s][a := []]) == Vertices(chain)
  {
    VerticesUpdate(chain, b, s);
    VerticesUpdate(chain[b := s], a, []);
    var u, v, w := Vertices(chain[b := s][a := []]), Vertices(chain[b := s]), Vertices(chain);
    assert u + multiset(chain[a]) == v;
    assert v + multiset(chain[b]) == w + multiset(s);
    assert u + multiset(s) == w + multiset(s);
    assert forall p :: (u + multiset(s))[p] == u[p] + multiset(s)[p];
    assert forall p :: (w + multiset(s))[p] == w[p] + multiset(s)[p];
  }

  lemma MergedConserves(f: Forest, a: nat, b: nat, s: seq<Vertex>, hole: bool)
    requires WellFormed(f) && a < |f.proxy| && b < |f.proxy|
    requires f.proxy[a] == a && f.proxy[b] == b && s != []
    requires a != b ==> multiset(s) == multiset(f.chain[a]) + multiset(f.chain[b])
    ensures Vertices(Merged(f, a, b, s, hole).chain) == Vertices(f.chain)
  {
    if a != b { VerticesMerge(f.chain, a, b, s); }
  }

  lemma GrownConserves(chain: seq<seq<Vertex>>, r: nat, s: seq<Vertex>, v: Vertex)
    requires r < |chain| && multiset(s) == multiset(chain[r]) + multiset{v}
    ensures Vertices(chain[r := s]) == Vertices(chain) + multiset{v}
  {
    VerticesUpdate(chain, r, s);
    var (u, w, m) := (Vertices(chain[r := s]), Vertices(chain), multiset(chain[r]));
    assert u + m == w + (m + multiset{v});
    assert w + (m + multiset{v}) == (w + multiset{v}) + m;
    assert forall p :: (u + m)[p] == u[p] + m[p];
    assert forall p :: ((w + multiset{v}) + m)[p] == (w + multiset{v})[p] + m[p];
  }

  /** One step loses no vertex and adds exactly the one it was given. */
  lemma StepConserves(f: Forest, op: Op)
    requires WellFormed(f) && Legal(f, op)
    ensures Vertices(Step(f, op).chain) == Vertices(f.chain) + AddedBy(op)
  {
    match op
    case LocalMin(v) =>
      assert (f.chain + [[v]])[..|f.chain|] == f.chain;
    case AddLeft(p, v) =>
      GrownConserves(f.chain, f.proxy[p], [v] + f.chain[f.proxy[p]], v);
    case AddRight(p, v) =>
      GrownConserves(f.chain, f.proxy[p], f.chain[f.proxy[p]] + [v], v);
    case MergeLeft(p, q) =>
      MergedConserves(f, f.proxy[p], f.proxy[q], f.chain[f.proxy[p]] + f.chain[f.proxy[q]], true);
    case MergeRight(p, q) =>
      MergedConserves(f, f.proxy[p], f.proxy[q], f.chain[f.proxy[q]] + f.chain[f.proxy[p]], false);
  }

  /** After any run the root chains together hold every vertex ever added, exactly as often as it was added. */
  lemma {:induction false} RunConserves(ops: seq<Op>)
    requires LegalRun(ops)
    ensures Vertices(Run(ops).chain) == Added(ops)
  {
    if ops != [] {
      var pre, op := ops[..|ops|-1], ops[|ops|-1];
      RunConserves(pre);
      StepConserves(Run(pre), op);
    }
  }

  // ----- merging only ever concatenates

  ghost predicate InfixAt(s: seq<Vertex>, t: seq<Vertex>, k: nat) {
    k + |s| <= |t| && t[k..k + |s|] == s
  }

  ghost predicate Infix(s: seq<Vertex>, t: seq<Vertex>) {
    exists k: nat :: InfixAt(s, t, k)
  }

  lemma InfixWider(s: seq<Vertex>, left: seq<Vertex>, t: seq<Vertex>, right: seq<Vertex>)
    requires Infix(s, t)
    ensures Infix(s, left + t + right)
  {
    var k: nat :| InfixAt(s, t, k);
    var u := left + t + right;
    assert u[|left| + k..|left| + k + |s|] == t[k..k + |s|];
    assert InfixAt(s, u, |left| + k);
  }

  lemma StepKeepsInfix(f: Forest, op: Op, s: seq<Vertex>, i: nat)
    requires WellFormed(f) && Legal(f, op)
    requires i < |f.proxy| && Infix(s, f.chain[f.proxy[i]])
    ensures |f.proxy| <= |Step(f, op).proxy|
    ensures Infix(s, Step(f, op).chain[Step(f, op).proxy[i]])
  {
    var r := f.proxy[i];
    var t := f.chain[r];
    var g := Step(f, op);
    match op
    case LocalMin(_) =>
    case AddLeft(p, v) =>
      InfixWider(s, [v], t, []);
      assert [v] + t + [] == [v] + t;
    case AddRight(p, v) =>
      InfixWider(s, [], t, [v]);
      assert [] + t + [v] == t + [v];
    case MergeLeft(p, q) =>
      MergedKeepsInfix(f, f.proxy[p], f.proxy[q], true, s, i);
    case MergeRight(p, q) =>
      MergedKeepsInfix(f, f.proxy[p], f.proxy[q], false, s, i);
  }

  lemma MergedKeepsInfix(f: Forest, a: nat, b: nat, left: bool, s: seq<Vertex>, i: nat)
    requires WellFormed(f) && a < |f.proxy| && b < |f.proxy|
    requires f.proxy[a] == a && f.proxy[b] == b
    requires i < |f.proxy| && Infix(s, f.chain[f.proxy[i]])
    ensures var u := if left then f.chain[a] + f.chain[b] else f.chain[b] + f.chain[a];
            var g := Merged(f, a, b, u, left);
            Infix(s, g.chain[g.proxy[i]])
  {
    var (x, y) := if left then (f.chain[a], f.chain[b]) else (f.chain[b], f.chain[a]);
    if f.proxy[i] == a || f.proxy[i] == b {
      if f.chain[f.proxy[i]] == x {
        InfixWider(s, [], x, y);
        assert [] + x + y == x + y;
      } else {
        InfixWider(s, x, y, []);
        assert x + y + [] == x + y;
      }
    }
  }

  /** Whatever a node's contour held at some moment stays one contiguous
      stretch, in the same order, of the contour that node belongs to later. */
  lemma {:induction false} RunKeepsInfix(ops: seq<Op>, n: nat, i: nat)
    requires LegalRun(ops) && n <= |ops|
    ensures LegalRun(ops[..n])
    ensures i < |Run(ops[..n]).proxy| ==>
              i < |Run(ops).proxy| && Infix(Run(ops[..n]).chain[Run(ops[..n]).proxy[i]], Run(ops).chain[Run(ops).proxy[i]])
    decreases |ops|
  {
    if n == |ops| {
      assert ops[..n] == ops;
      if i < |Run(ops).proxy| {
        var s := Run(ops).chain[Run(ops).proxy[i]];
        assert InfixAt(s, s, 0);
      }
    } else {
      var pre := ops[..|ops|-1];
      assert pre[..n] == ops[..n];
      RunKeepsInfix(pre, n, i);
      if i < |Run(ops[..n]).proxy| {
        StepKeepsInfix(Run(pre), ops[|ops|-1], Run(ops[..n]).chain[Run(ops[..n]).proxy[i]], i);
      }
    }
  }

  // ----- proxies are exactly merge-connectedness

  /** i and j are joined by the merges of the run: the equivalence the merges generate. */
  ghost predicate Connected(ops: seq<Op>, i: nat, j: nat)
    decreases |ops|, 0
  {
    if ops == [] then i == j
    else
      var pre := ops[..|ops|-1];
      match ops[|ops|-1]
      case MergeLeft(p, q) => Connected(pre, i, j) || Bridged(pre, p, q, i, j)
      case MergeRight(p, q) => Connected(pre, i, j) || Bridged(pre, p, q, i, j)
      case _ => Connected(pre, i, j)
  }

  ghost predicate Bridged(pre: seq<Op>, p: nat, q: nat, i: nat, j: nat)
    decreases |pre|, 1
  {
    (Connected(pre, i, p) && Connected(pre, q, j)) || (Connected(pre, i, q) && Connected(pre, p, j))
  }

  lemma {:induction false} ConnectedOld(ops: seq<Op>, i: nat, j: nat)
    requires LegalRun(ops)
    requires |Run(ops).proxy| <= i || |Run(ops).proxy| <= j
    ensures Connected(ops, i, j) <==> i == j
    decreases |ops|, 0
  {
    if ops != [] {
      var pre := ops[..|ops|-1];
      ConnectedOld(pre, i, j);
      match ops[|ops|-1]
      case MergeLeft(p, q) => ConnectedOldMerge(pre, p, q, i, j);
      case MergeRight(p, q) => ConnectedOldMerge(pre, p, q, i, j);
      case _ =>
    }
  }

  lemma ConnectedOldMerge(pre: seq<Op>, p: nat, q: nat, i: nat, j: nat)
    requires LegalRun(pre)
    requires |Run(pre).proxy| <= i || |Run(pre).proxy| <= j
    requires p < |Run(pre).proxy| && q < |Run(pre).proxy|
    ensures !Bridged(pre, p, q, i, j)
    decreases |pre|, 1
  {
    if |Run(pre).proxy| <= i {
      ConnectedOld(pre, i, p);
      ConnectedOld(pre, i, q);
    } else {
      ConnectedOld(pre, p, j);
      ConnectedOld(pre, q, j);
    }
  }

  /** Two nodes share a proxy exactly when the merges of the run connect them. */
  lemma {:induction false} ProxyIsConnectedness(ops: seq<Op>, i: nat, j: nat)
    requires LegalRun(ops)
    requires i < |Run(ops).proxy| && j < |Run(ops).proxy|
    ensures Run(ops).proxy[i] == Run(ops).proxy[j] <==> Connected(ops, i, j)
    decreases |ops|
  {
    if ops != [] {
      var pre, op := ops[..|ops|-1], ops[|ops|-1];
      var n := |Run(pre).proxy|;
      if i < n && j < n {
        ProxyIsConnectedness(pre, i, j);
        if op.MergeLeft? || op.MergeRight? {
          ProxyIsConnectedness(pre, i, op.p);
          ProxyIsConnectedness(pre, i, op.q);
          ProxyIsConnectedness(pre, op.q, j);
          ProxyIsConnectedness(pre, op.p, j);
        }
      } else {
        ConnectedOld(pre, i, j);
      }
    }
  }
}
