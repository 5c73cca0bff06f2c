/** Flat numbering of the grid nodes, the elements between them, and which
    elements meet at a node. */
module GridIndex {
  import opened Basics

  datatype Dims = Dims(nx: nat, ny: nat, nz: nat) {
    predicate Valid() {
      nx >= 1 && ny >= 1 && nz >= 1
    }

    function Count(): nat {
      nx * ny * nz
    }
  }

  datatype Node = Node(i: int, j: int, k: int)

  predicate InGrid(g: Dims, p: Node) {
    0 <= p.i < g.nx && 0 <= p.j < g.ny && 0 <= p.k < g.nz
  }

  function Flat(g: Dims, i: int, j: int, k: int): int {
    g.nx * g.ny * k + g.nx * j + i
  }

  /** The unguarded lookup: only the flat number is range-checked. */
  function IjkToN(g: Dims, i: int, j: int, k: int): int {
    var n := Flat(g, i, j, k);
    if 0 <= n < g.Count() then n else -1
  }

  /** The node that setup numbers n, x running fastest. */
  function Decode(g: Dims, n: nat): Node
    requires g.Valid()
  {
    Node(n % g.nx, (n / g.nx) % g.ny, (n / g.nx) / g.ny)
  }

  predicate IsElement(g: Dims, p: Node) {
    0 <= p.i < g.nx - 1 && 0 <= p.j < g.ny - 1 && 0 <= p.k < g.nz - 1
  }

  lemma QuotientUnique(p: int, s: int, q: int, r: int, d: nat)
    requires 0 <= s < d && 0 <= r < d && p * d + s == q * d + r
    ensures p == q && s == r
  {
    if p < q {
      MulMono(p + 1, q, d);
    } else if q < p {
      MulMono(q + 1, p, d);
    }
  }

  lemma DivModUnique(q: int, r: int, d: nat)
    requires 0 <= r < d
    ensures (q * d + r) / d == q && (q * d + r) % d == r
  {
    var n := q * d + r;
    QuotientUnique(n / d, n % d, q, r, d);
  }

  lemma FlatForm(g: Dims, i: int, j: int, k: int)
    ensures Flat(g, i, j, k) == (k * g.ny + j) * g.nx + i
  {
    assert g.nx * g.ny * k == (k * g.ny) * g.nx;
  }

  lemma FlatSteps(g: Dims, i: int, j: int, k: int)
    ensures Flat(g, i + 1, j, k) == Flat(g, i, j, k) + 1
    ensures Flat(g, g.nx, j, k) == Flat(g, 0, j + 1, k)
    ensures Flat(g, 0, g.ny, k) == Flat(g, 0, 0, k + 1)
    ensures Flat(g, 0, 0, 0) == 0 && Flat(g, 0, 0, g.nz) == g.Count()
  {
    FlatForm(g, 0, j + 1, k);
    FlatForm(g, g.nx, j, k);
    FlatForm(g, 0, g.ny, k);
    FlatForm(g, 0, 0, k + 1);
    FlatForm(g, 0, 0, g.nz);
    CountForm(g);
  }

  lemma FlatInRange(g: Dims, p: Node)
    requires InGrid(g, p)
    ensures 0 <= Flat(g, p.i, p.j, p.k) < g.Count()
  {
    var m := p.k * g.ny + p.j;
    FlatForm(g, p.i, p.j, p.k);
    CountForm(g);
    MulMono(0, p.k, g.ny);
    MulMono(p.k + 1, g.nz, g.ny);
    MulMono(0, m, g.nx);
    assert (p.k + 1) * g.ny == p.k * g.ny + g.ny;
    MulMono(m + 1, g.nz * g.ny, g.nx);
    assert (m + 1) * g.nx == m * g.nx + g.nx;
  }

  /** Numbering and decoding are inverse on the grid. */
  lemma FlatDecode(g: Dims, p: Node)
    requires InGrid(g, p)
    ensures 0 <= Flat(g, p.i, p.j, p.k) < g.Count()
    ensures Decode(g, Flat(g, p.i, p.j, p.k)) == p
  {
    FlatInRange(g, p);
    FlatForm(g, p.i, p.j, p.k);
    DivModUnique(p.k * g.ny + p.j, p.i, g.nx);
    DivModUnique(p.k, p.j, g.ny);
  }

  lemma CountForm(g: Dims)
    ensures g.Count() == (g.nz * g.ny) * g.nx
  {
    assert g.nx * g.ny * g.nz == (g.nz * g.ny) * g.nx;
  }

  lemma DecodeFlat(g: Dims, n: nat)
    requires g.Valid() && n < g.Count()
    ensures InGrid(g, Decode(g, n)) && Flat(g, Decode(g, n).i, Decode(g, n).j, Decode(g, n).k) == n
  {
    var p, m := Decode(g, n), n / g.nx;
    CountForm(g);
    Below(n, g.nz * g.ny, g.nx);
    Below(m, g.nz, g.ny);
    FlatForm(g, p.i, p.j, p.k);
    Quotient(n, g.nx);
    Quotient(m, g.ny);
  }

  lemma Quotient(n: nat, d: nat)
    requires d > 0
    ensures n / d * d + n % d == n
  {
  }

  lemma Below(n: nat, q: nat, d: nat)
    requires d > 0 && n < q * d
    ensures n / d < q
  {
    var p := n / d;
    assert p * d <= n;
    assert p >= q ==> p * d >= q * d;
  }

  /** The eight elements around a node: per axis, true for the element on the far side. */
  datatype Octant = Octant(x: bool, y: bool, z: bool)

  /** The lower corner of the element in octant o of node p. */
  function Corner(p: Node, o: Octant): Node {
    Node(if o.x then p.i else p.i - 1, if o.y then p.j else p.j - 1, if o.z then p.k else p.k - 1)
  }

  /** There is an element with lower corner p, and it is active. */
  predicate ActiveAt(g: Dims, active: seq<bool>, p: Node)
    requires |active| == g.Count()
  {
    IsElement(g, p) &&
    (FlatDecode(g, p);
     active[Flat(g, p.i, p.j, p.k)])
  }

  predicate Meets(g: Dims, active: seq<bool>, p: Node, o: Octant)
    requires |active| == g.Count()
  {
    ActiveAt(g, active, Corner(p, o))
  }

  /** What the unguarded test looks at: the cell the flat number leads to. */
  predicate FlatTest(g: Dims, active: seq<bool>, p: Node, o: Octant)
    requires g.Valid() && |active| == g.Count()
  {
    var c := Corner(p, o);
    var n := IjkToN(g, c.i, c.j, c.k);
    n != -1 && IsElement(g, Decode(g, n)) && active[n]
  }

  /** Wrapping round is harmless: a flat number that leaves the grid on an axis lands on the last node of that axis,
      which carries no element. */
  lemma FlatTestIsMeets(g: Dims, active: seq<bool>, p: Node, o: Octant)
    requires |active| == g.Count() && InGrid(g, p)
    ensures FlatTest(g, active, p, o) == Meets(g, active, p, o)
  {
    var c := Corner(p, o);
    var n := IjkToN(g, c.i, c.j, c.k);
    FlatForm(g, c.i, c.j, c.k);
    var m := c.k * g.ny + c.j;
    if c.i < 0 {
      WrapX(g, m);
    } else {
      DivModUnique(m, c.i, g.nx);
      if c.j < 0 {
        WrapY(g, c.k);
      } else if c.k < 0 {
        MulMono(c.k, -1, g.ny);
        MulMono(m, -1, g.nx);
      } else {
        FlatDecode(g, c);
      }
    }
  }

  lemma WrapX(g: Dims, m: int)
    requires g.Valid()
    ensures (m * g.nx - 1) % g.nx == g.nx - 1
  {
    DivModUnique(m - 1, g.nx - 1, g.nx);
  }

  lemma WrapY(g: Dims, k: int)
    requires g.Valid()
    ensures (k * g.ny - 1) % g.ny == g.ny - 1
  {
    DivModUnique(k - 1, g.ny - 1, g.ny);
  }
}
