/** Interpolation of heads between the points of a river where they are given. The loop steps over the given point that
    ends a run, so a run that starts right behind it does not know it. */
module RiverHeads {
  import opened RiverRuns

  ghost predicate RiverOk(given: seq<bool>, x: seq<real>, dist: seq<real>) {
    Anchored(given, dist) && |x| == |given|
  }

  /** What interpolation promises: linear between the nearest given points on either side. */
  function Bracketed(given: seq<bool>, x: seq<real>, dist: seq<real>, i: nat): real
    requires RiverOk(given, x, dist) && i < |x|
  {
    if given[i] then x[i]
    else Mix(x[Before(given, i)], x[After(given, i)], Share(given, dist, i))
  }

  function Mix(a: real, b: real, share: real): real {
    a + share * (b - a)
  }

  lemma Product(a: real, b: real)
    requires a >= 0.0 && b >= 0.0
    ensures a * b >= 0.0
  {
  }

  lemma MixBetween(a: real, b: real, share: real)
    requires 0.0 <= share <= 1.0
    ensures a <= Mix(a, b, share) <= b || b <= Mix(a, b, share) <= a
  {
    var d := b - a;
    var e := if d >= 0.0 then d else -d;
    Product(share, e);
    Product(1.0 - share, e);
    assert (1.0 - share) * e == e - share * e;
    assert d < 0.0 ==> share * e == -(share * d);
    assert Mix(a, b, share) == a + share * d;
  }

  /** It stays between the two given heads. */
  lemma BracketedBetween(given: seq<bool>, x: seq<real>, dist: seq<real>, i: nat)
    requires RiverOk(given, x, dist) && i < |x| && !given[i]
    ensures var a, b, y := x[Before(given, i)], x[After(given, i)], Bracketed(given, x, dist, i);
            a <= y <= b || b <= y <= a
  {
    ShareGrows(given, dist, i, i);
    MixBetween(x[Before(given, i)], x[After(given, i)], Share(given, dist, i));
  }

  /** Head h at point i divides the step between the heads of the given points around it as point i divides the way
      between them; where these coincide it is the first one's. */
  ghost predicate Proportional(given: seq<bool>, x: seq<real>, dist: seq<real>, i: nat, h: real)
    requires RiverOk(given, x, dist) && i < |x|
  {
    && (given[i] ==> h == x[i])
    && forall p: nat, n: nat {:trigger Neighbours(given, i, p, n)} :: Neighbours(given, i, p, n) ==>
         && (Along(dist, p, n) > 0.0 ==> (h - x[p]) * Along(dist, p, n) == (x[n] - x[p]) * Along(dist, p, i))
         && (Along(dist, p, n) == 0.0 ==> h == x[p])
  }

  lemma CrossMultiply(a: real, b: real, part: real, total: real, h: real)
    requires total > 0.0 && h == Mix(a, b, part / total)
    ensures (h - a) * total == (b - a) * part
  {
    var share := part / total;
    assert h - a == share * (b - a) && part == share * total;
    Shuffle(share, b - a, total);
  }

  lemma Shuffle(s: real, d: real, t: real)
    ensures (s * d) * t == d * (s * t)
  {
  }

  lemma BracketedIs(given: seq<bool>, x: seq<real>, dist: seq<real>, i: nat, p: nat, n: nat, part: real, total: real)
    requires RiverOk(given, x, dist) && Neighbours(given, i, p, n) && !given[i]
    requires part == Along(dist, p, i) && total == Along(dist, p, n)
    ensures total > 0.0 ==> Bracketed(given, x, dist, i) == Mix(x[p], x[n], part / total)
    ensures total == 0.0 ==> Bracketed(given, x, dist, i) == Mix(x[p], x[n], 0.0)
  {
    NeighboursAre(given, i, p, n);
    ShareGrows(given, dist, i, i);
  }

  lemma BracketedProportional(given: seq<bool>, x: seq<real>, dist: seq<real>, i: nat)
    requires RiverOk(given, x, dist) && i < |x|
    ensures Proportional(given, x, dist, i, Bracketed(given, x, dist, i))
  {
    var h := Bracketed(given, x, dist, i);
    forall p: nat, n: nat | Neighbours(given, i, p, n)
      ensures Along(dist, p, n) > 0.0 ==> (h - x[p]) * Along(dist, p, n) == (x[n] - x[p]) * Along(dist, p, i)
      ensures Along(dist, p, n) == 0.0 ==> h == x[p]
    {
      BracketedIs(given, x, dist, i, p, n, Along(dist, p, i), Along(dist, p, n));
      if Along(dist, p, n) > 0.0 {
        CrossMultiply(x[p], x[n], Along(dist, p, i), Along(dist, p, n), h);
      }
    }
  }

  /** The heads the loop leaves at the points from i on, when it stands there with `length` and the last head x1. */
  function Walk(given: seq<bool>, x: seq<real>, dist: seq<real>, i: nat, length: real, x1: real): (r: seq<real>)
    requires RiverOk(given, x, dist) && i <= |x|
    ensures |r| == |x| - i
    decreases |x| - i
  {
    if i == |x| then []
    else if given[i] then [x[i]] + Walk(given, x, dist, i + 1, 0.0, x[i])
    else
      var k := After(given, i);
      Turn(given, x, dist, i, length, x1) + Walk(given, x, dist, k + 1, Along(dist, i - 1, k - 1), x1)
  }

  /** The heads of a run from i on and of the given point that ends it. */
  function Turn(given: seq<bool>, x: seq<real>, dist: seq<real>, i: nat, length: real, x1: real): (r: seq<real>)
    requires RiverOk(given, x, dist) && i < |x| && !given[i]
    ensures |r| == After(given, i) + 1 - i
  {
    var k := After(given, i);
    Run(x, dist, i, k, k, length, x1) + [x[k]]
  }

  /** The heads given to points i to m of the run that ends before k. */
  function Run(x: seq<real>, dist: seq<real>, i: nat, m: nat, k: nat, length: real, x1: real): (r: seq<real>)
    requires 0 < i <= m <= k < |x| == |dist|
    ensures |r| == m - i
  {
    if m == i then []
    else Run(x, dist, i, m - 1, k, length, x1) + [HeadAt(x, dist, i, m - 1, k, length, x1)]
  }

  /** The head of point j of that run. */
  function HeadAt(x: seq<real>, dist: seq<real>, i: nat, j: nat, k: nat, length: real, x1: real): real
    requires 0 < i <= j < k < |x| == |dist|
  {
    Mix(x1, x[k], Along(dist, i - 1, j) / Divisor(length + Along(dist, i - 1, k)))
  }

  lemma {:induction false} RunAt(x: seq<real>, dist: seq<real>, i: nat, m: nat, k: nat, length: real, x1: real, j: nat)
    requires 0 < i <= j < m <= k < |x| == |dist|
    ensures Run(x, dist, i, m, k, length, x1)[j - i] == HeadAt(x, dist, i, j, k, length, x1)
  {
    if j < m - 1 {
      RunAt(x, dist, i, m - 1, k, length, x1, j);
    }
  }

  lemma WalkGiven(given: seq<bool>, x: seq<real>, dist: seq<real>, i: nat, length: real, x1: real, next: nat)
    requires RiverOk(given, x, dist) && i < |x| && given[i] && next == i + 1
    ensures Walk(given, x, dist, i, length, x1) == [x[i]] + Walk(given, x, dist, next, 0.0, x[i])
  {
  }

  lemma TurnIs(given: seq<bool>, x: seq<real>, dist: seq<real>, i: nat, length: real, x1: real, k: nat) returns (part: seq<real>)
    requires RiverOk(given, x, dist) && i < |x| && !given[i] && k == After(given, i)
    ensures part == Turn(given, x, dist, i, length, x1) == Run(x, dist, i, k, k, length, x1) + [x[k]]
  {
    part := Run(x, dist, i, k, k, length, x1) + [x[k]];
  }

  lemma WalkRun(given: seq<bool>, x: seq<real>, dist: seq<real>, i: nat, length: real, x1: real, k: nat)
    requires RiverOk(given, x, dist) && i < |x| && !given[i] && k == After(given, i)
    ensures Walk(given, x, dist, i, length, x1) ==
              Turn(given, x, dist, i, length, x1) + Walk(given, x, dist, k + 1, Along(dist, i - 1, k - 1), x1)
  {
  }

  class River {
    var heads: seq<real>
    const given: seq<bool>
    const dist: seq<real>

    constructor (heads: seq<real>, given: seq<bool>, dist: seq<real>)
      ensures this.heads == heads && this.given == given && this.dist == dist
    {
      this.heads, this.given, this.dist := heads, given, dist;
    }

    /** The loop over all points. */
    method InterpolateHeads()
      requires RiverOk(given, heads, dist)
      modifies `heads
      ensures heads == Walk(given, old(heads), dist, 0, 0.0, 0.0)
      ensures |heads| == |old(heads)| && ((forall k: nat :: !Isolated(given, k)) ==>
                forall i: nat :: i < |heads| ==> Proportional(given, old(heads), dist, i, heads[i]))
    {
      ghost var x := heads;
      var i: nat, length, head1 := 0, 0.0, 0.0;
      while i < |heads|
        invariant i <= |heads| == |x| && heads[i..] == x[i..]
        invariant heads[..i] + Walk(given, x, dist, i, length, head1) == Walk(given, x, dist, 0, 0.0, 0.0)
        decreases |x| - i
      {
        i, length, head1 := Visit(i, length, head1, x);
      }
      assert heads[..i] == heads;
      if forall k: nat :: !Isolated(given, k) {
        WalkProportional(given, x, dist);
      }
    }

    /** One turn of the loop: a given point, or a run together with the given point that ends it. */
    method Visit(start: nat, startLength: real, startHead: real, ghost x: seq<real>)
      returns (i: nat, length: real, head1: real)
      requires RiverOk(given, x, dist) && start < |x| == |heads| && heads[start..] == x[start..]
      modifies `heads
      ensures start < i <= |heads| == |x| && heads[i..] == x[i..]
      ensures heads[..i] + Walk(given, x, dist, i, length, head1)
           == old(heads)[..start] + Walk(given, x, dist, start, startLength, startHead)
    {
      if given[start] {
        i, length, head1 := NoteHead(start, startLength, startHead, x);
      } else {
        i, length, head1 := FillTurn(start, startLength, startHead, x);
      }
    }

    /** A given point: its head is noted. */
    method NoteHead(start: nat, ghost startLength: real, ghost startHead: real, ghost x: seq<real>)
      returns (i: nat, length: real, head1: real)
      requires RiverOk(given, x, dist) && start < |x| == |heads| && heads[start..] == x[start..] && given[start]
      ensures i == start + 1 && heads[i..] == x[i..]
      ensures heads[..i] + Walk(given, x, dist, i, length, head1)
           == heads[..start] + Walk(given, x, dist, start, startLength, startHead)
    {
      i, length, head1 := start + 1, 0.0, heads[start];
      assert head1 == heads[start..][0] == x[start..][0];
      WalkGiven(given, x, dist, start, startLength, startHead, i);
      assert heads == heads[..start] + ([x[start]] + x[i..]);
      TurnOver(heads[..start], [x[start]], Walk(given, x, dist, i, length, head1),
               Walk(given, x, dist, start, startLength, startHead), x, heads, i);
    }

    /** A run, together with the given point that ends it. */
    method FillTurn(start: nat, startLength: real, startHead: real, ghost x: seq<real>)
      returns (i: nat, length: real, head1: real)
      requires RiverOk(given, x, dist) && start < |x| == |heads| && heads[start..] == x[start..] && !given[start]
      modifies `heads
      ensures start < i <= |heads| == |x| && heads[i..] == x[i..]
      ensures heads[..i] + Walk(given, x, dist, i, length, head1)
           == old(heads)[..start] + Walk(given, x, dist, start, startLength, startHead)
    {
      ghost var done := heads[..start];
      assert heads == done + x[start..];
      head1 := startHead;
      i, length := FillRun(start, startLength, head1, x, done);
      ghost var part := TurnIs(given, x, dist, start, startLength, startHead, i);
      Regroup(done, Run(x, dist, start, i, i, startLength, startHead), x, i);
      WalkRun(given, x, dist, start, startLength, startHead, i);
      i := i + 1;
      TurnOver(done, part, Walk(given, x, dist, i, length, head1), Walk(given, x, dist, start, startLength, startHead), x, heads, i);
    }

    /** The heads of one run; the measured length starts from what the last run left. */
    method FillRun(start: nat, startLength: real, head1: real, ghost x: seq<real>, ghost done: seq<real>)
      returns (i: nat, length: real)
      requires RiverOk(given, x, dist) && start < |x| && !given[start] && |done| == start
      requires heads == done + x[start..]
      modifies `heads
      ensures i == After(given, start) && length == Along(dist, start - 1, i - 1)
      ensures heads == done + Run(x, dist, start, i, i, startLength, head1) + x[i..]
    {
      var k, total := MeasureRun(start, startLength);
      var head2 := heads[k];
      if total == 0.0 {
        total := 1.0;
      }
      i, length := start, 0.0;
      while i < k
        invariant start <= i <= k && length == Along(dist, start - 1, i - 1)
        invariant heads == done + Run(x, dist, start, i, k, startLength, head1) + x[i..]
        modifies `heads
      {
        length := length + dist[i];
        RunMore(done, x, dist, start, i, k, startLength, head1);
        heads := heads[i := Mix(head1, head2, length / total)];
        i := i + 1;
      }
    }

    /** The next given point, and the length from startLength on to it. */
    method MeasureRun(start: nat, startLength: real) returns (k: nat, length: real)
      requires Anchored(given, dist) && start < |given| && !given[start]
      ensures k == After(given, start) && length == startLength + Along(dist, start - 1, k)
    {
      k := start;
      length := startLength;
      while !given[k]
        invariant start <= k < |given| && length == startLength + Along(dist, start - 1, k - 1)
        invariant forall q :: start <= q < k ==> !given[q]
        decreases |given| - k
      {
        length := length + dist[k];
        k := k + 1;
      }
      length := length + dist[k];
      SameRun(given, start, k);
    }
  }

  lemma Regroup(done: seq<real>, run: seq<real>, x: seq<real>, i: nat)
    requires i < |x|
    ensures done + run + x[i..] == done + ((run + [x[i]]) + x[i + 1..])
  {
    assert x[i..] == [x[i]] + x[i + 1..];
  }

  /** What one turn of the loop has settled moves in front of what is left. */
  lemma TurnOver(done: seq<real>, part: seq<real>, rest: seq<real>, all: seq<real>, x: seq<real>, heads: seq<real>, i: nat)
    requires i <= |x| && |done| + |part| == i && heads == done + (part + x[i..]) && all == part + rest
    ensures heads[i..] == x[i..] && heads[..i] + rest == done + all
  {
    assert heads[..i] == done + part;
  }

  /** One more point of a run is filled in. */
  lemma RunMore(done: seq<real>, x: seq<real>, dist: seq<real>, i: nat, m: nat, k: nat, length: real, x1: real)
    requires 0 < i <= m < k < |x| == |dist| && |done| == i
    ensures (done + Run(x, dist, i, m, k, length, x1) + x[m..])[m := HeadAt(x, dist, i, m, k, length, x1)] ==
              done + Run(x, dist, i, m + 1, k, length, x1) + x[m + 1..]
  {
    PutNext(done, Run(x, dist, i, m, k, length, x1), HeadAt(x, dist, i, m, k, length, x1), x, m);
  }

  lemma PutNext(done: seq<real>, few: seq<real>, v: real, x: seq<real>, m: nat)
    requires |done| + |few| == m < |x|
    ensures (done + few + x[m..])[m := v] == done + (few + [v]) + x[m + 1..]
  {
  }

  // ----- when the loop does what interpolation promises

  /** A single given point between two runs. */
  predicate Isolated(given: seq<bool>, k: nat) {
    0 < k < |given| - 1 && given[k] && !given[k - 1] && !given[k + 1]
  }

  ghost predicate Brackets(given: seq<bool>, x: seq<real>, dist: seq<real>)
    requires RiverOk(given, x, dist)
  {
    forall i: nat :: i < |x| ==> Proportional(given, x, dist, i, Walk(given, x, dist, 0, 0.0, 0.0)[i])
  }

  /** Standing at i, the loop knows the given point before it if a run starts there. */
  ghost predicate Ready(given: seq<bool>, x: seq<real>, i: nat, length: real, x1: real)
    requires |x| == |given| && i <= |given|
  {
    i < |given| && !given[i] ==> i > 0 && given[i - 1] && length == 0.0 && x1 == x[i - 1]
  }

  /** A run that knows the given point before it is interpolated right. */
  lemma RunBrackets(given: seq<bool>, x: seq<real>, dist: seq<real>, i: nat, k: nat, q: nat)
    requires RiverOk(given, x, dist) && 0 < i < |x| && given[i - 1] && !given[i] && k == After(given, i) && i <= q < k
    ensures Turn(given, x, dist, i, 0.0, x[i - 1])[q - i] == Bracketed(given, x, dist, q)
  {
    SameRun(given, i, q);
    assert Before(given, i) == i - 1;
    RunAt(x, dist, i, k, k, 0.0, x[i - 1], q);
    assert Along(dist, i - 1, q) / Divisor(0.0 + Along(dist, i - 1, k)) == Share(given, dist, q);
  }

  lemma {:induction false} WalkBrackets(given: seq<bool>, x: seq<real>, dist: seq<real>, i: nat, length: real, x1: real, q: nat)
    requires RiverOk(given, x, dist) && i <= q < |x| && Ready(given, x, i, length, x1)
    requires forall k: nat :: !Isolated(given, k)
    ensures Walk(given, x, dist, i, length, x1)[q - i] == Bracketed(given, x, dist, q)
    decreases |x| - i
  {
    if given[i] {
      if q > i {
        WalkBrackets(given, x, dist, i + 1, 0.0, x[i], q);
      }
    } else {
      var k := After(given, i);
      WalkAt(given, x, dist, i, length, x1, k, q);
      if q < k {
        RunBrackets(given, x, dist, i, k, q);
      } else if q > k {
        assert !given[k - 1] && !Isolated(given, k);
        WalkBrackets(given, x, dist, k + 1, Along(dist, i - 1, k - 1), x1, q);
      }
    }
  }

  lemma WalkProportional(given: seq<bool>, x: seq<real>, dist: seq<real>)
    requires RiverOk(given, x, dist) && forall k: nat :: !Isolated(given, k)
    ensures forall i: nat :: i < |x| ==> Proportional(given, x, dist, i, Walk(given, x, dist, 0, 0.0, 0.0)[i])
  {
    forall i: nat | i < |x|
      ensures Proportional(given, x, dist, i, Walk(given, x, dist, 0, 0.0, 0.0)[i])
    {
      WalkBrackets(given, x, dist, 0, 0.0, 0.0, i);
      BracketedProportional(given, x, dist, i);
    }
  }

  /** Which head of a run, or of what comes behind it, belongs to point q. */
  lemma WalkAt(given: seq<bool>, x: seq<real>, dist: seq<real>, i: nat, length: real, x1: real, k: nat, q: nat)
    requires RiverOk(given, x, dist) && i <= q < |x| && !given[i] && k == After(given, i)
    ensures Walk(given, x, dist, i, length, x1)[q - i] ==
              if q < k then Turn(given, x, dist, i, length, x1)[q - i]
              else if q == k then x[k]
              else Walk(given, x, dist, k + 1, Along(dist, i - 1, k - 1), x1)[q - (k + 1)]
  {
    WalkRun(given, x, dist, i, length, x1, k);
  }

  /** Heads of 0 everywhere but at point k. */
  function Spike(n: nat, k: nat): (x: seq<real>)
    ensures |x| == n
  {
    seq(n, i => if i == k then 1.0 else 0.0)
  }

  function Ones(n: nat): (dist: seq<real>)
    ensures |dist| == n
  {
    seq(n, _ => 1.0)
  }

  lemma {:induction false} AlongOnes(n: nat, a: nat, b: nat)
    requires a <= b < n
    ensures Along(Ones(n), a, b) == (b - a) as real
  {
    if a < b {
      AlongOnes(n, a, b - 1);
    }
  }

  /** The loop passes over point k without taking note of its head. */
  lemma {:induction false} SpikePassedOver(given: seq<bool>, k: nat, i: nat, length: real)
    requires RiverOk(given, Spike(|given|, k), Ones(|given|)) && Isolated(given, k) && i <= k + 1 && i != k
    ensures Walk(given, Spike(|given|, k), Ones(|given|), i, length, 0.0)[k + 1 - i] == 0.0
    decreases |given| - i
  {
    var x, dist := Spike(|given|, k), Ones(|given|);
    if i == k + 1 {
      var m := After(given, i);
      var share := Along(dist, i - 1, i) / Divisor(length + Along(dist, i - 1, m));
      RunAt(x, dist, i, m, m, length, 0.0, i);
      assert HeadAt(x, dist, i, i, m, length, 0.0) == Mix(0.0, x[m], share);
      assert x[m] == 0.0 && Mix(0.0, 0.0, share) == 0.0;
    } else if given[i] {
      SpikePassedOver(given, k, i + 1, 0.0);
    } else {
      var m := After(given, i);
      assert m <= k;
      SpikePassedOver(given, k, m + 1, Along(dist, i - 1, m - 1));
    }
  }

  /** Point k + 1 ought to get a head between those of point k and the next given point, which a head of 0 is not. */
  lemma SpikeNotProportional(given: seq<bool>, k: nat)
    requires RiverOk(given, Spike(|given|, k), Ones(|given|)) && Isolated(given, k)
    ensures !Proportional(given, Spike(|given|, k), Ones(|given|), k + 1, 0.0)
  {
    var n := After(given, k + 1);
    AlongOnes(|given|, k, k + 1);
    AlongOnes(|given|, k, n);
    assert Neighbours(given, k + 1, k, n);
  }

  /** The loop interpolates between the nearest given heads, for all heads and distances, exactly if no given point stands
      alone between two runs. */
  lemma BracketsUnlessIsolated(given: seq<bool>)
    requires given != [] && given[0] && given[|given|-1]
    ensures (forall x, dist {:trigger Brackets(given, x, dist)} :: RiverOk(given, x, dist) ==> Brackets(given, x, dist))
       <==> (forall k: nat :: !Isolated(given, k))
  {
    if k: nat :| Isolated(given, k) {
      var x, dist := Spike(|given|, k), Ones(|given|);
      SpikePassedOver(given, k, 0, 0.0);
      SpikeNotProportional(given, k);
      assert !Brackets(given, x, dist);
    } else {
      forall x, dist | RiverOk(given, x, dist)
        ensures Brackets(given, x, dist)
      {
        WalkProportional(given, x, dist);
      }
    }
  }
}
