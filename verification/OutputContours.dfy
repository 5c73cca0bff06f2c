/** The clipper's output list, rewired step by step and proved to carry out the
    steps of `ContourForest`. */
module OutputContours {
  import opened Basics
  import opened ContourForest
  import opened ContourStores

  class ContourList {
    var vertices: seq<VertexNode>
    var nodes: seq<PolygonNode>
    var head: Ptr
    ghost var links: seq<seq<nat>>    // the vertex list of each polygon node, left to right
    ghost var at: seq<(nat, nat)>     // where each vertex is: list and position
    ghost var forest: Forest

    ghost predicate Valid()
      reads this
    {
      StoresOk(vertices, nodes, head, links, at, forest)
    }

    constructor ()
      ensures Valid() && forest == EMPTY
    {
      vertices, nodes, head, links, at, forest := [], [], Null, [], [], EMPTY;
    }

    /** A new contour holding one vertex goes to the front of the list. */
    method AddLocalMin(v: Vertex) returns (outp: nat)
      requires Valid()
      modifies this
      ensures Valid() && outp == |old(nodes)|
      ensures forest == Step(old(forest), LocalMin(v))
    {
      var nv := |vertices|;
      NewChain(vertices, links, at, forest.chain, v);
      outp := |nodes|;
      vertices := WithVertex(vertices, v, Null);
      nodes := nodes + [PolygonNode(1, Unset, At(nv), At(nv), head, outp)];
      head := At(outp);
      links, at := links + [[nv]], at + [(outp, 0)];
      forest := Step(forest, LocalMin(v));
    }

    method AddLeft(p: nat, v: Vertex)
      requires Valid() && p < |nodes|
      modifies this
      ensures Valid()
      ensures forest == Step(old(forest), Op.AddLeft(p, v))
    {
      RootIn(vertices, nodes, head, links, at, forest, p);
      var nv, r := |vertices|, nodes[p].proxy;
      var now := nodes[r := nodes[r].(left := At(nv))];
      ghost var links', at', grown := LeftState(vertices, nodes, now, head, links, at, forest, p, v);
      vertices := WithVertex(vertices, v, nodes[r].left);
      nodes := now;
      links, at, forest := links', at', grown;
    }

    method AddRight(p: nat, v: Vertex)
      requires Valid() && p < |nodes|
      modifies this
      ensures Valid()
      ensures forest == Step(old(forest), Op.AddRight(p, v))
    {
      RootEnds(vertices, nodes, head, links, at, forest, p);
      var nv, r := |vertices|, nodes[p].proxy;
      var now := nodes[r := nodes[r].(right := At(nv))];
      ghost var links', at', grown := RightState(vertices, nodes, now, head, links, at, forest, p, v);
      vertices := SetNext(WithVertex(vertices, v, Null), nodes[r].right.i, At(nv));
      nodes := now;
      links, at, forest := links', at', grown;
    }

    /** Every node that names `target` is made inactive and names `dest` instead. */
    method RedirectAll(target: nat, dest: nat)
      requires ListOk(nodes, head)
      modifies `nodes
      ensures Redirected(old(nodes), nodes, target, dest)
    {
      var list := head;
      ghost var n := |nodes|;
      while list != Null
        invariant 0 <= n <= |nodes| == |old(nodes)|
        invariant list == if n == 0 then Null else At(n-1)
        invariant forall i :: 0 <= i < n ==> nodes[i] == old(nodes)[i]
        invariant forall i :: n <= i < |nodes| ==>
                    nodes[i] == if old(nodes)[i].proxy == target then old(nodes)[i].(active := 0, proxy := dest) else old(nodes)[i]
        decreases n
      {
        var i := list.i;
        if nodes[i].proxy == target {
          nodes := nodes[i := nodes[i].(active := 0, proxy := dest)];
        }
        assert nodes[i].next == old(nodes)[i].next;
        list := nodes[i].next;
        n := n - 1;
      }
    }

    /** p's vertices are put in front of q's, and p's whole family now names q's root. */
    method MergeLeft(p: nat, q: nat)
      requires Valid() && p < |nodes| && q < |nodes|
      modifies this
      ensures Valid()
      ensures forest == Step(old(forest), Op.MergeLeft(p, q))
    {
      MergeRoots(vertices, nodes, head, links, at, forest, p, q);
      var a, b := nodes[p].proxy, nodes[q].proxy;
      if a != b {
        LinkLeft(a, b);
      } else {
        MarkHole(b, true);
      }
    }

    /** A contour merged with itself only gets its hole flag. */
    method MarkHole(b: nat, hole: bool)
      requires Valid() && b < |nodes| && forest.proxy[b] == b
      modifies `nodes, `forest
      ensures Valid() && forest == old(forest).(hole := old(forest).hole[b := Set(hole)])
    {
      HoleState(vertices, nodes, nodes[b := nodes[b].(hole := Set(hole))], head, links, at, forest, b, hole);
      nodes := nodes[b := nodes[b].(hole := Set(hole))];
      forest := forest.(hole := forest.hole[b := Set(hole)]);
    }

    /** Makes one contour of those of two roots, a's vertices in front. */
    method LinkLeft(a: nat, b: nat)
      requires Valid() && a < |nodes| && b < |nodes| && a != b && forest.proxy[a] == a && forest.proxy[b] == b
      requires forest.chain[a] + forest.chain[b] != []
      modifies this
      ensures Valid() && forest == Merged(old(forest), a, b, old(forest).chain[a] + old(forest).chain[b], true)
    {
      RootIn(vertices, nodes, head, links, at, forest, a);
      RootIn(vertices, nodes, head, links, at, forest, b);
      ghost var v, was := vertices, nodes;
      ghost var mid := SpliceLeft(a, b);
      links, at, forest := MergeState(v, vertices, was, mid, nodes, head, links, at, forest, a, b, a, b, true);
    }

    /** The assignments to pointers. */
    method SpliceLeft(a: nat, b: nat) returns (ghost mid: seq<PolygonNode>)
      requires ListOk(nodes, head) && a < |nodes| && b < |nodes|
      requires nodes[a].right.At? && nodes[a].right.i < |vertices|
      modifies `vertices, `nodes
      ensures vertices == SetNext(old(vertices), old(nodes)[a].right.i, old(nodes)[b].left)
      ensures mid == old(nodes)[b := old(nodes)[b].(hole := Set(true), left := old(nodes)[a].left, right := old(nodes)[b].right)]
      ensures Redirected(mid, nodes, a, b)
    {
      SetTwice(nodes, b, Set(true), nodes[a].left, nodes[b].right);
      nodes := nodes[b := nodes[b].(hole := Set(true))];
      vertices := SetNext(vertices, nodes[a].right.i, nodes[b].left);
      nodes := nodes[b := nodes[b].(left := nodes[a].left)];
      mid := nodes;
      RedirectAll(a, b);
    }

    /** p's vertices are put behind q's, and p's whole family now names q's root. */
    method MergeRight(p: nat, q: nat)
      requires Valid() && p < |nodes| && q < |nodes|
      modifies this
      ensures Valid()
      ensures forest == Step(old(forest), Op.MergeRight(p, q))
    {
      MergeRoots(vertices, nodes, head, links, at, forest, p, q);
      var a, b := nodes[p].proxy, nodes[q].proxy;
      if a != b {
        LinkRight(a, b);
      } else {
        MarkHole(b, false);
      }
    }

    /** Makes one contour of those of two roots, a's vertices behind. */
    method LinkRight(a: nat, b: nat)
      requires Valid() && a < |nodes| && b < |nodes| && a != b && forest.proxy[a] == a && forest.proxy[b] == b
      requires forest.chain[b] + forest.chain[a] != []
      modifies this
      ensures Valid() && forest == Merged(old(forest), a, b, old(forest).chain[b] + old(forest).chain[a], false)
    {
      RootIn(vertices, nodes, head, links, at, forest, a);
      RootIn(vertices, nodes, head, links, at, forest, b);
      ghost var v, was := vertices, nodes;
      ghost var mid := SpliceRight(a, b);
      links, at, forest := MergeState(v, vertices, was, mid, nodes, head, links, at, forest, a, b, b, a, false);
    }

    /** The assignments to pointers. */
    method SpliceRight(a: nat, b: nat) returns (ghost mid: seq<PolygonNode>)
      requires ListOk(nodes, head) && a < |nodes| && b < |nodes|
      requires nodes[b].right.At? && nodes[b].right.i < |vertices|
      modifies `vertices, `nodes
      ensures vertices == SetNext(old(vertices), old(nodes)[b].right.i, old(nodes)[a].left)
      ensures mid == old(nodes)[b := old(nodes)[b].(hole := Set(false), left := old(nodes)[b].left, right := old(nodes)[a].right)]
      ensures Redirected(mid, nodes, a, b)
    {
      SetTwice(nodes, b, Set(false), nodes[b].left, nodes[a].right);
      nodes := nodes[b := nodes[b].(hole := Set(false))];
      vertices := SetNext(vertices, nodes[b].right.i, nodes[a].left);
      nodes := nodes[b := nodes[b].(right := nodes[a].right)];
      mid := nodes;
      RedirectAll(a, b);
    }

    /** Counts the contours worth keeping, and leaves in `active` the vertex count of each of them and 0 elsewhere. */
    method CountContours() returns (nc: nat)
      requires Valid()
      modifies `nodes
      ensures nc == |KeptContours(forest, 0)|
      ensures CountedFrom(old(nodes), nodes, forest, 0)
    {
      var polygon := head;
      nc := 0;
      ghost var n, was := |nodes|, nodes;
      assert KeptContours(forest, n) == {};
      while polygon != Null
        invariant 0 <= n <= |nodes|
        invariant polygon == if n == 0 then Null else At(n-1)
        invariant CountedFrom(was, nodes, forest, n)
        invariant nc == |KeptContours(forest, n)|
        decreases n
        modifies `nodes
      {
        var i := polygon.i;
        var nv, next := CountNode(i, n, was);
        nc := if nv > 0 then nc + 1 else nc;
        polygon := next;
        n := i;
      }
    }

    /** Leaves the vertex count of node i, or 0, in `active`. */
    method CountNode(i: nat, ghost n: nat, ghost was: seq<PolygonNode>) returns (nv: nat, next: Ptr)
      requires StoresOk(vertices, was, head, links, at, forest)
      requires n == i + 1 && i < |was| && CountedFrom(was, nodes, forest, n)
      modifies `nodes
      ensures CountedFrom(was, nodes, forest, i) && next == if i == 0 then Null else At(i-1)
      ensures |KeptContours(forest, i)| == |KeptContours(forest, n)| + if nv > 0 then 1 else 0
    {
      ListAt(was, head, forest, i);
      nv := CountContour(i, was);
      CountStep(was, nodes, forest, i, nv);
      nodes := nodes[i := nodes[i].(active := nv)];
      next := nodes[i].next;
    }

    /** The vertex count of node i if it is an active contour of more than two vertices, else 0. */
    method CountContour(i: nat, ghost was: seq<PolygonNode>) returns (nv: nat)
      requires StoresOk(vertices, was, head, links, at, forest)
      requires i < |nodes| == |was| && nodes[i] == was[i]
      requires nodes[i].active != 0 ==> nodes[i].proxy == i
      ensures nv == KeptSize(forest, i)
    {
      nv := 0;
      if nodes[i].active != 0 {
        RootEnds(vertices, was, head, links, at, forest, i);
        nv := CountVertices(nodes[nodes[i].proxy].left, links[i], forest.chain[i]);
        if nv <= 2 {
          nv := 0;
        }
      }
    }

    method CountVertices(first: Ptr, ghost l: seq<nat>, ghost c: seq<Vertex>) returns (nv: nat)
      requires Spells(vertices, l, c)
      requires first == if l == [] then Null else At(l[0])
      ensures nv == |c|
    {
      var v := first;
      nv := 0;
      while v != Null
        invariant nv <= |l|
        invariant v == if nv == |l| then Null else At(l[nv])
        decreases |l| - nv
      {
        assert vertices[l[nv]].next == if nv + 1 < |l| then At(l[nv+1]) else Null;
        nv := nv + 1;
        v := vertices[v.i].next;
      }
    }
  }
}
