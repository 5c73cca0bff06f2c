/** The stores of the clipper's output list: polygon nodes and vertex nodes, linked
    through `next`, `proxy` and the two ends of each vertex list, and what they say
    about a `ContourForest`.  Stores only grow, and a pointer is an index into one. */
module ContourStores {
  import opened Basics
  import opened ContourForest

  datatype Ptr = Null | At(i: nat)

  datatype VertexNode = VertexNode(pt: Vertex, next: Ptr)

  datatype PolygonNode = PolygonNode(active: nat, hole: Flag, left: Ptr, right: Ptr, next: Ptr, proxy: nat)

  /** The vertices of l, followed through `next`, end in Null and spell c. */
  ghost predicate Spells(vertices: seq<VertexNode>, l: seq<nat>, c: seq<Vertex>) {
    && |l| == |c|
    && (forall k :: 0 <= k < |l| ==> l[k] < |vertices| && vertices[l[k]].pt == c[k])
    && (forall k {:trigger vertices[l[k]].next} :: 0 <= k < |l| ==>
          vertices[l[k]].next == if k + 1 < |l| then At(l[k+1]) else Null)
  }

  /** No vertex is in two places: `at` says which list it is in, and where. */
  ghost predicate Placed(links: seq<seq<nat>>, at: seq<(nat, nat)>) {
    forall i, k :: 0 <= i < |links| && 0 <= k < |links[i]| ==> links[i][k] < |at| && at[links[i][k]] == (i, k)
  }

  /** One linked list holds every node, newest first. */
  ghost predicate ListOk(nodes: seq<PolygonNode>, head: Ptr) {
    && head == (if nodes == [] then Null else At(|nodes|-1))
    && (forall i {:trigger nodes[i].next} :: 0 <= i < |nodes| ==> nodes[i].next == if i == 0 then Null else At(i-1))
  }

  /** A node is active exactly when it is its own proxy. */
  ghost predicate ProxiesOk(nodes: seq<PolygonNode>, f: Forest) {
    && WellFormed(f) && |f.proxy| == |nodes|
    && forall i :: 0 <= i < |nodes| ==>
         && nodes[i].proxy == f.proxy[i]
         && (nodes[i].active != 0 <==> nodes[i].proxy == i)
         && nodes[i].hole == f.hole[i]
  }

  ghost predicate EndsOk(nodes: seq<PolygonNode>, links: seq<seq<nat>>) {
    && |links| == |nodes|
    && forall i :: 0 <= i < |nodes| && links[i] != [] ==>
         nodes[i].left == At(links[i][0]) && nodes[i].right == At(links[i][|links[i]|-1])
  }

  ghost predicate ChainsOk(vertices: seq<VertexNode>, links: seq<seq<nat>>, at: seq<(nat, nat)>, chain: seq<seq<Vertex>>) {
    && |links| == |chain| && |at| == |vertices| && Placed(links, at)
    && forall i :: 0 <= i < |links| ==> Spells(vertices, links[i], chain[i])
  }

  /** `p->next = q` */
  function SetNext(vertices: seq<VertexNode>, p: nat, q: Ptr): seq<VertexNode>
    requires p < |vertices|
  {
    vertices[p := vertices[p].(next := q)]
  }

  /** A vertex node just made, behind all others. */
  function WithVertex(vertices: seq<VertexNode>, pt: Vertex, next: Ptr): seq<VertexNode> {
    vertices + [VertexNode(pt, next)]
  }

  /** The stores are what f says, and the vertex list hanging off each root spells its chain. */
  ghost predicate StoresOk(vertices: seq<VertexNode>, nodes: seq<PolygonNode>, head: Ptr,
                           links: seq<seq<nat>>, at: seq<(nat, nat)>, f: Forest)
  {
    ListOk(nodes, head) && ProxiesOk(nodes, f) && EndsOk(nodes, links) && ChainsOk(vertices, links, at, f.chain)
  }

  lemma SpellsFrame(v: seq<VertexNode>, w: seq<VertexNode>, l: seq<nat>, c: seq<Vertex>)
    requires Spells(v, l, c) && |v| <= |w|
    requires forall k :: 0 <= k < |l| ==> w[l[k]] == v[l[k]]
    ensures Spells(w, l, c)
  {
    forall k {:trigger w[l[k]].next} | 0 <= k < |l|
      ensures w[l[k]].next == if k + 1 < |l| then At(l[k+1]) else Null
    {
      assert w[l[k]].next == v[l[k]].next;
    }
  }

  /** Pointing the last vertex of one list at the first of another makes one list of the two. */
  lemma SpellsAppend(v: seq<VertexNode>, w: seq<VertexNode>, l: seq<nat>, c: seq<Vertex>, m: seq<nat>, d: seq<Vertex>)
    requires Spells(v, l, c) && Spells(v, m, d) && l != [] && m != []
    requires w == SetNext(v, l[|l|-1], At(m[0]))
    requires forall k :: 0 <= k < |l| - 1 ==> l[k] != l[|l|-1]
    requires forall k :: 0 <= k < |m| ==> m[k] != l[|l|-1]
    ensures Spells(w, l + m, c + d)
  {
    var t := l + m;
    forall k | 0 <= k < |t|
      ensures t[k] < |w| && w[t[k]].pt == (c + d)[k]
    {
      assert if k < |l| then v[l[k]].pt == c[k] else v[m[k - |l|]].pt == d[k - |l|];
    }
    forall k {:trigger w[t[k]].next} | 0 <= k < |t|
      ensures w[t[k]].next == if k + 1 < |t| then At(t[k+1]) else Null
    {
      if k < |l| - 1 {
        assert w[t[k]] == v[l[k]];
        assert v[l[k]].next == At(l[k+1]);
      } else if k >= |l| {
        assert t[k] == m[k - |l|];
        assert v[m[k - |l|]].next == if k - |l| + 1 < |m| then At(m[k - |l| + 1]) else Null;
      }
    }
  }

  ghost function JoinPlaces(at: seq<(nat, nat)>, front: nat, n: nat, back: nat, dest: nat): (r: seq<(nat, nat)>)
    ensures |r| == |at|
    ensures forall a :: 0 <= a < |at| ==>
      r[a] == if at[a].0 == front then (dest, at[a].1) else if at[a].0 == back then (dest, at[a].1 + n) else at[a]
  {
    seq(|at|, a requires 0 <= a < |at| =>
      if at[a].0 == front then (dest, at[a].1) else if at[a].0 == back then (dest, at[a].1 + n) else at[a])
  }

  /** The lists of `front` and `back` become one list at `dest`, one of the two. */
  ghost function Joined<T>(s: seq<seq<T>>, front: nat, back: nat, dest: nat): seq<seq<T>>
    requires front < |s| && back < |s| && dest < |s|
  {
    s[front := []][back := []][dest := s[front] + s[back]]
  }

  lemma JoinedAt<T>(s: seq<seq<T>>, front: nat, back: nat, dest: nat, i: nat)
    requires front < |s| && back < |s| && dest < |s| && i < |s|
    ensures |Joined(s, front, back, dest)| == |s|
    ensures Joined(s, front, back, dest)[i] ==
              if i == dest then s[front] + s[back] else if i == front || i == back then [] else s[i]
  {
  }

  lemma JoinPlaced(links: seq<seq<nat>>, at: seq<(nat, nat)>, front: nat, back: nat, dest: nat)
    requires Placed(links, at) && front < |links| && back < |links| && front != back
    requires dest == front || dest == back
    ensures Placed(Joined(links, front, back, dest), JoinPlaces(at, front, |links[front]|, back, dest))
  {
    var joined := Joined(links, front, back, dest);
    var at' := JoinPlaces(at, front, |links[front]|, back, dest);
    forall i, k | 0 <= i < |joined| && 0 <= k < |joined[i]|
      ensures joined[i][k] < |at'| && at'[joined[i][k]] == (i, k)
    {
      if i != dest {
        assert joined[i] == links[i];
      } else if k < |links[front]| {
        assert joined[i][k] == links[front][k];
      } else {
        assert joined[i][k] == links[back][k - |links[front]|];
      }
    }
  }

  /** The last vertex of a list is nowhere else. */
  lemma LastOnce(links: seq<seq<nat>>, at: seq<(nat, nat)>, front: nat, last: nat)
    requires Placed(links, at) && front < |links| && links[front] != [] && last == links[front][|links[front]|-1]
    ensures forall i, k :: 0 <= i < |links| && 0 <= k < |links[i]| && (i != front || k != |links[front]| - 1) ==> links[i][k] != last
  {
    assert at[last] == (front, |links[front]| - 1);
    forall i, k | 0 <= i < |links| && 0 <= k < |links[i]| && (i != front || k != |links[front]| - 1)
      ensures links[i][k] != last
    {
      assert at[links[i][k]] == (i, k);
    }
  }

  /** The pointer splice of a merge is the concatenation of the two chains. */
  lemma JoinChains(v: seq<VertexNode>, w: seq<VertexNode>, links: seq<seq<nat>>, at: seq<(nat, nat)>,
                   chain: seq<seq<Vertex>>, front: nat, back: nat, dest: nat)
    requires ChainsOk(v, links, at, chain) && front < |links| && back < |links| && front != back
    requires dest == front || dest == back
    requires links[front] != [] && links[back] != []
    requires w == SetNext(v, links[front][|links[front]|-1], At(links[back][0]))
    ensures ChainsOk(w, Joined(links, front, back, dest), JoinPlaces(at, front, |links[front]|, back, dest),
                     Joined(chain, front, back, dest))
  {
    JoinPlaced(links, at, front, back, dest);
    forall i | 0 <= i < |links|
      ensures |Joined(links, front, back, dest)| == |links| == |Joined(chain, front, back, dest)|
      ensures Spells(w, Joined(links, front, back, dest)[i], Joined(chain, front, back, dest)[i])
    {
      JoinedSpells(v, w, links, at, chain, front, back, dest, i);
    }
  }

  /** After the splice list i spells what it ought to. */
  lemma JoinedSpells(v: seq<VertexNode>, w: seq<VertexNode>, links: seq<seq<nat>>, at: seq<(nat, nat)>,
                     chain: seq<seq<Vertex>>, front: nat, back: nat, dest: nat, i: nat)
    requires ChainsOk(v, links, at, chain) && front < |links| && back < |links| && front != back
    requires (dest == front || dest == back) && i < |links|
    requires links[front] != [] && links[back] != []
    requires w == SetNext(v, links[front][|links[front]|-1], At(links[back][0]))
    ensures |Joined(links, front, back, dest)| == |links| == |Joined(chain, front, back, dest)|
    ensures Spells(w, Joined(links, front, back, dest)[i], Joined(chain, front, back, dest)[i])
  {
    JoinedAt(links, front, back, dest, i);
    JoinedAt(chain, front, back, dest, i);
    LastOnce(links, at, front, links[front][|links[front]|-1]);
    if i == dest {
      SpellsAppend(v, w, links[front], chain[front], links[back], chain[back]);
    } else if i != front && i != back {
      SpellsFrame(v, w, links[i], chain[i]);
    }
  }

  /** A vertex just made, not yet reached from anywhere, is a list of its own. */
  lemma NewChain(v: seq<VertexNode>, links: seq<seq<nat>>, at: seq<(nat, nat)>, chain: seq<seq<Vertex>>, p: Vertex)
    requires ChainsOk(v, links, at, chain)
    ensures ChainsOk(WithVertex(v, p, Null), links + [[|v|]], at + [(|links|, 0)], chain + [[p]])
  {
    var (w, l, c) := (WithVertex(v, p, Null), links + [[|v|]], chain + [[p]]);
    forall i | 0 <= i < |l|
      ensures Spells(w, l[i], c[i])
    {
      if i < |links| { SpellsFrame(v, w, links[i], chain[i]); }
    }
  }

  /** An empty list at the end of the tables may be forgotten. */
  lemma DropEmpty(v: seq<VertexNode>, links: seq<seq<nat>>, at: seq<(nat, nat)>, chain: seq<seq<Vertex>>,
                  fewLinks: seq<seq<nat>>, fewChain: seq<seq<Vertex>>)
    requires ChainsOk(v, links, at, chain) && |links| == |fewLinks| + 1 == |fewChain| + 1
    requires fewLinks == links[..|fewLinks|] && fewChain == chain[..|fewChain|]
    ensures ChainsOk(v, fewLinks, at, fewChain)
  {
  }

  lemma GrownLeft<T>(s: seq<seq<T>>, r: nat, x: T)
    requires r < |s|
    ensures Joined(s + [[x]], |s|, r, r)[..|s|] == s[r := [x] + s[r]]
  {
  }

  lemma GrownRight<T>(s: seq<seq<T>>, r: nat, x: T)
    requires r < |s|
    ensures Joined(s + [[x]], r, |s|, r)[..|s|] == s[r := s[r] + [x]]
  {
  }

  /** A new vertex in front of root r's list is a one-vertex list joined to it. */
  lemma GrowLeft(v: seq<VertexNode>, links: seq<seq<nat>>, at: seq<(nat, nat)>, chain: seq<seq<Vertex>>, r: nat, p: Vertex, nv: nat)
    returns (at': seq<(nat, nat)>)
    requires ChainsOk(v, links, at, chain) && r < |links| && links[r] != [] && nv == |v|
    ensures ChainsOk(WithVertex(v, p, At(links[r][0])), links[r := [nv] + links[r]], at', chain[r := [p] + chain[r]])
  {
    var n := |links|;
    var v', w := WithVertex(v, p, Null), WithVertex(v, p, At(links[r][0]));
    var l, a, c := links + [[nv]], at + [(n, 0)], chain + [[p]];
    NewChain(v, links, at, chain, p);
    assert w == SetNext(v', nv, At(l[r][0]));
    JoinChains(v', w, l, a, c, n, r, r);
    at' := JoinPlaces(a, n, 1, r, r);
    GrownLeft(links, r, nv);
    GrownLeft(chain, r, p);
    DropEmpty(w, Joined(l, n, r, r), at', Joined(c, n, r, r), links[r := [nv] + links[r]], chain[r := [p] + chain[r]]);
  }

  lemma GrowRight(v: seq<VertexNode>, links: seq<seq<nat>>, at: seq<(nat, nat)>, chain: seq<seq<Vertex>>, r: nat, p: Vertex, nv: nat)
    returns (at': seq<(nat, nat)>)
    requires ChainsOk(v, links, at, chain) && r < |links| && links[r] != [] && nv == |v|
    ensures links[r][|links[r]|-1] < nv
    ensures ChainsOk(SetNext(WithVertex(v, p, Null), links[r][|links[r]|-1], At(nv)),
                     links[r := links[r] + [nv]], at', chain[r := chain[r] + [p]])
  {
    var n := |links|;
    var v' := WithVertex(v, p, Null);
    var w := SetNext(v', links[r][|links[r]|-1], At(nv));
    var l, a, c := links + [[nv]], at + [(n, 0)], chain + [[p]];
    NewChain(v, links, at, chain, p);
    JoinChains(v', w, l, a, c, r, n, r);
    at' := JoinPlaces(a, r, |links[r]|, n, r);
    GrownRight(links, r, nv);
    GrownRight(chain, r, p);
    DropEmpty(w, Joined(l, r, n, r), at', Joined(c, r, n, r), links[r := links[r] + [nv]], chain[r := chain[r] + [p]]);
  }

  /** What the redirecting loop makes of the node store. */
  ghost predicate Redirected(was: seq<PolygonNode>, now: seq<PolygonNode>, target: nat, dest: nat) {
    && |now| == |was|
    && forall i :: 0 <= i < |was| ==>
         now[i] == if was[i].proxy == target then was[i].(active := 0, proxy := dest) else was[i]
  }

  lemma MergeProxies(was: seq<PolygonNode>, mid: seq<PolygonNode>, now: seq<PolygonNode>, head: Ptr,
                     f: Forest, a: nat, b: nat, s: seq<Vertex>, hole: bool, left: Ptr, right: Ptr)
    requires ListOk(was, head) && ProxiesOk(was, f)
    requires a < |was| && b < |was| && a != b && f.proxy[a] == a && f.proxy[b] == b && s != []
    requires mid == was[b := was[b].(hole := Set(hole), left := left, right := right)]
    requires Redirected(mid, now, a, b)
    ensures ListOk(now, head) && ProxiesOk(now, Merged(f, a, b, s, hole))
  {
    forall i {:trigger now[i].next} | 0 <= i < |now|
      ensures now[i].next == if i == 0 then Null else At(i-1)
    {
      assert was[i].next == if i == 0 then Null else At(i-1);
    }
  }

  lemma MergeEnds(was: seq<PolygonNode>, mid: seq<PolygonNode>, now: seq<PolygonNode>, links: seq<seq<nat>>,
                  a: nat, b: nat, front: nat, back: nat, hole: Flag)
    requires EndsOk(was, links) && a < |was| && b < |was| && a != b
    requires (front, back) == (a, b) || (front, back) == (b, a)
    requires links[a] != [] && links[b] != []
    requires mid == was[b := was[b].(hole := hole, left := was[front].left, right := was[back].right)]
    requires Redirected(mid, now, a, b)
    ensures EndsOk(now, Joined(links, front, back, b))
  {
  }

  lemma MergedChain(f: Forest, a: nat, b: nat, front: nat, back: nat, hole: bool)
    requires WellFormed(f) && a < |f.proxy| && b < |f.proxy| && a != b
    requires f.proxy[a] == a && f.proxy[b] == b
    requires (front, back) == (a, b) || (front, back) == (b, a)
    ensures f.chain[front] + f.chain[back] != []
    ensures Merged(f, a, b, f.chain[front] + f.chain[back], hole).chain == Joined(f.chain, front, back, b)
  {
  }

  lemma StepAdds(f: Forest, p: nat, x: Vertex)
    requires WellFormed(f) && p < |f.proxy|
    ensures var r := f.proxy[p];
            && Step(f, Op.AddLeft(p, x)) == f.(chain := f.chain[r := [x] + f.chain[r]])
            && Step(f, Op.AddRight(p, x)) == f.(chain := f.chain[r := f.chain[r] + [x]])
  {
  }

  /** Everything a new vertex in front leaves behind. */
  lemma LeftState(v: seq<VertexNode>, was: seq<PolygonNode>, now: seq<PolygonNode>, head: Ptr, links: seq<seq<nat>>,
                  at: seq<(nat, nat)>, f: Forest, p: nat, x: Vertex)
    returns (links': seq<seq<nat>>, at': seq<(nat, nat)>, g: Forest)
    requires StoresOk(v, was, head, links, at, f) && p < |was| && was[p].proxy < |was|
    requires now == was[was[p].proxy := was[was[p].proxy].(left := At(|v|))]
    ensures StoresOk(WithVertex(v, x, was[was[p].proxy].left), now, head, links', at', g)
    ensures WellFormed(f) && p < |f.proxy| && g == Step(f, Op.AddLeft(p, x))
  {
    RootEnds(v, was, head, links, at, f, p);
    var r := was[p].proxy;
    at' := GrowLeft(v, links, at, f.chain, r, x, |v|);
    links' := links[r := [|v|] + links[r]];
    GrowNodes(was, now, head, links, f, r, [|v|] + links[r], [x] + f.chain[r], At(|v|), was[r].right);
    g := f.(chain := f.chain[r := [x] + f.chain[r]]);
    StepAdds(f, p, x);
  }

  /** The same behind it. */
  lemma RightState(v: seq<VertexNode>, was: seq<PolygonNode>, now: seq<PolygonNode>, head: Ptr, links: seq<seq<nat>>,
                   at: seq<(nat, nat)>, f: Forest, p: nat, x: Vertex)
    returns (links': seq<seq<nat>>, at': seq<(nat, nat)>, g: Forest)
    requires StoresOk(v, was, head, links, at, f) && p < |was| && was[p].proxy < |was|
    requires now == was[was[p].proxy := was[was[p].proxy].(right := At(|v|))]
    requires was[was[p].proxy].right.At? && was[was[p].proxy].right.i < |v|
    ensures StoresOk(SetNext(WithVertex(v, x, Null), was[was[p].proxy].right.i, At(|v|)), now, head, links', at',
                     g)
    ensures WellFormed(f) && p < |f.proxy| && g == Step(f, Op.AddRight(p, x))
  {
    RootEnds(v, was, head, links, at, f, p);
    var r := was[p].proxy;
    at' := GrowRight(v, links, at, f.chain, r, x, |v|);
    links' := links[r := links[r] + [|v|]];
    GrowNodes(was, now, head, links, f, r, links[r] + [|v|], f.chain[r] + [x], was[r].left, At(|v|));
    g := f.(chain := f.chain[r := f.chain[r] + [x]]);
    StepAdds(f, p, x);
  }

  /** Everything a merge of root a into root b leaves behind, given the splice and the redirection. */
  lemma MergeState(v: seq<VertexNode>, w: seq<VertexNode>, was: seq<PolygonNode>, mid: seq<PolygonNode>, now: seq<PolygonNode>,
                   head: Ptr, links: seq<seq<nat>>, at: seq<(nat, nat)>, f: Forest,
                   a: nat, b: nat, front: nat, back: nat, hole: bool)
    returns (links': seq<seq<nat>>, at': seq<(nat, nat)>, g: Forest)
    requires StoresOk(v, was, head, links, at, f)
    requires a < |was| && b < |was| && a != b && f.proxy[a] == a && f.proxy[b] == b
    requires (front, back) == (a, b) || (front, back) == (b, a)
    requires was[front].right.At? && was[front].right.i < |v|
    requires w == SetNext(v, was[front].right.i, was[back].left)
    requires mid == was[b := was[b].(hole := Set(hole), left := was[front].left, right := was[back].right)]
    requires Redirected(mid, now, a, b)
    ensures f.chain[front] + f.chain[back] != []
    ensures WellFormed(f) && g == Merged(f, a, b, f.chain[front] + f.chain[back], hole)
    ensures StoresOk(w, now, head, links', at', g)
  {
    RootEnds(v, was, head, links, at, f, a);
    RootEnds(v, was, head, links, at, f, b);
    var s := f.chain[front] + f.chain[back];
    MergeProxies(was, mid, now, head, f, a, b, s, hole, was[front].left, was[back].right);
    MergeEnds(was, mid, now, links, a, b, front, back, Set(hole));
    JoinChains(v, w, links, at, f.chain, front, back, b);
    links', at' := Joined(links, front, back, b), JoinPlaces(at, front, |links[front]|, back, b);
    MergedChain(f, a, b, front, back, hole);
    g := Merged(f, a, b, s, hole);
  }

  lemma SetTwice(was: seq<PolygonNode>, b: nat, hole: Flag, left: Ptr, right: Ptr)
    requires b < |was|
    ensures var mid := was[b := was[b].(hole := hole)];
            && mid[b := mid[b].(left := left)] == was[b := was[b].(hole := hole, left := left, right := was[b].right)]
            && mid[b := mid[b].(right := right)] == was[b := was[b].(hole := hole, left := was[b].left, right := right)]
  {
  }

  /** The roots a merge of p and q is about. */
  lemma MergeRoots(v: seq<VertexNode>, nodes: seq<PolygonNode>, head: Ptr, links: seq<seq<nat>>,
                   at: seq<(nat, nat)>, f: Forest, p: nat, q: nat)
    requires StoresOk(v, nodes, head, links, at, f) && p < |nodes| && q < |nodes|
    ensures var a, b := nodes[p].proxy, nodes[q].proxy;
            && a < |nodes| && b < |nodes| && f.proxy[a] == a && f.proxy[b] == b
            && f.chain[a] + f.chain[b] != [] && f.chain[b] + f.chain[a] != []
            && Step(f, Op.MergeLeft(p, q)) ==
                 (if a == b then f.(hole := f.hole[b := Set(true)]) else Merged(f, a, b, f.chain[a] + f.chain[b], true))
            && Step(f, Op.MergeRight(p, q)) ==
                 (if a == b then f.(hole := f.hole[b := Set(false)]) else Merged(f, a, b, f.chain[b] + f.chain[a], false))
  {
    RootEnds(v, nodes, head, links, at, f, p);
    RootEnds(v, nodes, head, links, at, f, q);
  }

  lemma HoleState(v: seq<VertexNode>, was: seq<PolygonNode>, now: seq<PolygonNode>, head: Ptr, links: seq<seq<nat>>,
                  at: seq<(nat, nat)>, f: Forest, b: nat, hole: bool)
    requires StoresOk(v, was, head, links, at, f) && b < |was| && f.proxy[b] == b
    requires now == was[b := was[b].(hole := Set(hole))]
    ensures StoresOk(v, now, head, links, at, f.(hole := f.hole[b := Set(hole)]))
  {
    forall i {:trigger now[i].next} | 0 <= i < |now|
      ensures now[i].next == if i == 0 then Null else At(i-1)
    {
      assert was[i].next == if i == 0 then Null else At(i-1);
    }
  }

  /** Roots have vertices, so the ends of their lists are not Null. */
  lemma RootEnds(v: seq<VertexNode>, nodes: seq<PolygonNode>, head: Ptr, links: seq<seq<nat>>,
                 at: seq<(nat, nat)>, f: Forest, p: nat)
    requires StoresOk(v, nodes, head, links, at, f) && p < |nodes|
    ensures var r := nodes[p].proxy;
            && r < |nodes| && nodes[r].proxy == r == f.proxy[p] && links[r] != []
            && nodes[r].left == At(links[r][0]) && nodes[r].right == At(links[r][|links[r]|-1])
            && links[r][0] < |v| && links[r][|links[r]|-1] < |v|
  {
    var r := f.proxy[p];
    assert Spells(v, links[r], f.chain[r]);
  }

  lemma RootIn(v: seq<VertexNode>, nodes: seq<PolygonNode>, head: Ptr, links: seq<seq<nat>>,
               at: seq<(nat, nat)>, f: Forest, p: nat)
    requires StoresOk(v, nodes, head, links, at, f) && p < |nodes|
    ensures nodes[p].proxy < |nodes|
    ensures f.proxy[p] == p ==> nodes[p].right.At? && nodes[p].right.i < |v|
  {
    RootEnds(v, nodes, head, links, at, f, p);
  }

  lemma GrowNodes(was: seq<PolygonNode>, now: seq<PolygonNode>, head: Ptr, links: seq<seq<nat>>, f: Forest,
                  r: nat, l: seq<nat>, c: seq<Vertex>, left: Ptr, right: Ptr)
    requires ListOk(was, head) && ProxiesOk(was, f) && EndsOk(was, links)
    requires r < |was| && f.proxy[r] == r && l != [] && c != []
    requires now == was[r := was[r].(left := left, right := right)]
    requires left == At(l[0]) && right == At(l[|l|-1])
    ensures ListOk(now, head) && ProxiesOk(now, f.(chain := f.chain[r := c])) && EndsOk(now, links[r := l])
  {
    forall i {:trigger now[i].next} | 0 <= i < |now|
      ensures now[i].next == if i == 0 then Null else At(i-1)
    {
      assert was[i].next == if i == 0 then Null else At(i-1);
    }
  }

  /** The vertex count of a contour worth keeping, and 0 for any other node. */
  ghost function KeptSize(f: Forest, i: nat): nat
    requires i < |f.proxy| && i < |f.chain|
  {
    if f.proxy[i] == i && |f.chain[i]| > 2 then |f.chain[i]| else 0
  }

  /** The roots from n on that have more than two vertices. */
  ghost function KeptContours(f: Forest, n: nat): set<nat>
    requires |f.proxy| == |f.chain|
  {
    set i: nat | n <= i < |f.proxy| && f.proxy[i] == i && |f.chain[i]| > 2
  }

  ghost predicate CountedFrom(was: seq<PolygonNode>, now: seq<PolygonNode>, f: Forest, n: nat)
    requires |was| == |f.proxy| == |f.chain|
  {
    && |now| == |was|
    && (forall i :: 0 <= i < |was| && i < n ==> now[i] == was[i])
    && (forall i :: n <= i < |was| ==> now[i] == was[i].(active := KeptSize(f, i)))
  }

  lemma CountStep(was: seq<PolygonNode>, mid: seq<PolygonNode>, f: Forest, i: nat, active: nat)
    requires |was| == |f.proxy| == |f.chain| && i < |was|
    requires CountedFrom(was, mid, f, i + 1) && active == KeptSize(f, i)
    ensures mid[i].next == was[i].next
    ensures CountedFrom(was, mid[i := mid[i].(active := active)], f, i)
    ensures |KeptContours(f, i)| == |KeptContours(f, i + 1)| + if active > 0 then 1 else 0
  {
    var rest := KeptContours(f, i + 1);
    assert KeptContours(f, i) == if active > 0 then rest + {i} else rest;
  }

  /** What the list walk reads off node i. */
  lemma ListAt(nodes: seq<PolygonNode>, head: Ptr, f: Forest, i: nat)
    requires ListOk(nodes, head) && ProxiesOk(nodes, f) && i < |nodes|
    ensures nodes[i].next == if i == 0 then Null else At(i-1)
    ensures nodes[i].active == 0 ==> KeptSize(f, i) == 0
    ensures nodes[i].active != 0 ==> f.proxy[i] == i
  {
  }
}
