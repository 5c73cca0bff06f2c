/** Files of x, y, z, time, value lines: the index of time planes built when the file is first read, and the cursor that
    later reads move over it. */
module XyztFile {
  import opened Basics

  /** One line of the file: five numbers, or anything else. */
  datatype Line = Numbers(x: real, y: real, z: real, t: real, v: real) | Ignored

  datatype Point = Point(x: real, y: real, z: real, v: real)

  /** A data source holds points, and how often their coordinates have been converted. */
  datatype DataSource = NoData | DataSource(points: seq<Point>, conversions: nat)

  const FUDGE: real := 1.0 + 0.000001

  // ----- time planes of a file

  predicate IsRecord(r: seq<real>, line: Line) {
    line.Numbers? && (r == [] || line.t > r[|r|-1])
  }

  /** The times of the first n lines that exceed every earlier time of the file, in order. */
  function Records(lines: seq<Line>, n: nat): seq<real>
    requires n <= |lines|
  {
    if n == 0 then []
    else
      var r := Records(lines, n - 1);
      if IsRecord(r, lines[n - 1]) then r + [lines[n - 1].t] else r
  }

  /** The number of lines of every time plane among the first n; lines before the first valid one belong to none. */
  function Counts(lines: seq<Line>, n: nat): (c: seq<nat>)
    requires n <= |lines|
    ensures |c| == |Records(lines, n)|
  {
    if n == 0 then []
    else
      var c := Counts(lines, n - 1);
      if IsRecord(Records(lines, n - 1), lines[n - 1]) then c + [1]
      else if c == [] then []
      else c[|c| - 1 := c[|c| - 1] + 1]
  }

  /** One more line opens a plane or belongs to the last one, which has `count` lines so far. */
  lemma OneLine(lines: seq<Line>, n: nat, times: seq<real>, last: real, counts: seq<nat>, count: nat)
    requires n < |lines| && times == Records(lines, n) && times != [] && times[|times|-1] == last
    requires counts + [count] == Counts(lines, n)
    ensures if lines[n].Numbers? && lines[n].t > last then
              Records(lines, n + 1) == times + [lines[n].t] && Counts(lines, n + 1) == counts + [count] + [1]
            else Records(lines, n + 1) == times && Counts(lines, n + 1) == counts + [count + 1]
  {
  }

  function Times(lines: seq<Line>): seq<real> {
    Records(lines, |lines|)
  }

  function LineCounts(lines: seq<Line>): seq<nat> {
    Counts(lines, |lines|)
  }

  /** The line at which plane b starts, counting from the first line of plane 0. */
  function Start(c: seq<nat>, b: nat): nat
    requires b <= |c|
  {
    if b == 0 then 0 else Start(c, b - 1) + c[b - 1]
  }

  /** The first valid line from line i on, or the end of the file. */
  function FirstFrom(lines: seq<Line>, i: nat): (k: nat)
    requires i <= |lines|
    ensures i <= k <= |lines| && (k < |lines| ==> lines[k].Numbers?)
    ensures forall j :: i <= j < k ==> lines[j] == Ignored
    decreases |lines| - i
  {
    if i == |lines| || lines[i].Numbers? then i else FirstFrom(lines, i + 1)
  }

  /** How many lines come before the first valid one. */
  function Leading(lines: seq<Line>): (k: nat)
    ensures k <= |lines| && (k < |lines| ==> lines[k].Numbers?)
    ensures forall i :: 0 <= i < k ==> lines[i] == Ignored
  {
    FirstFrom(lines, 0)
  }

  // ----- the search for the first valid line

  /** The line the next read gives; past the end of a file it never is a valid one, if none was before. */
  function LineAt(lines: seq<Line>, i: nat): Line {
    if i < |lines| then lines[i] else Ignored
  }

  /** Where the search stands: lines read, whether the last one was valid, and its time. */
  datatype Search = Search(position: nat, found: bool, t: real)

  /** The search after n turns of its loop. */
  function Turns(lines: seq<Line>, n: nat): Search {
    if n == 0 then Search(0, false, 0.0)
    else
      var s := Turns(lines, n - 1);
      if s.found then s
      else
        var line := LineAt(lines, s.position);
        Search(s.position + 1, line.Numbers?, if line.Numbers? then line.t else s.t)
  }

  lemma {:induction false} TurnsAre(lines: seq<Line>, n: nat)
    ensures var s, k := Turns(lines, n), Leading(lines);
            if n <= k || k == |lines| then s.position == n && !s.found
            else s.position == k + 1 && s.found && s.t == lines[k].t
  {
    if n > 0 {
      TurnsAre(lines, n - 1);
    }
  }

  /** Some number of turns finds a line exactly if the file has a valid one; in a file without one the search goes on
      forever. */
  lemma SearchEnds(lines: seq<Line>)
    ensures (exists n: nat :: Turns(lines, n).found) <==> (exists i :: 0 <= i < |lines| && lines[i].Numbers?)
  {
    if i :| 0 <= i < |lines| && lines[i].Numbers? {
      TurnsAre(lines, i + 1);
    }
    forall n: nat | Turns(lines, n).found
      ensures lines != [] && Leading(lines) < |lines|
    {
      TurnsAre(lines, n);
    }
  }

  /** The planes are strictly later one by one, and the last one is the latest time so far. */
  lemma {:induction false} RecordsAreLatest(lines: seq<Line>, n: nat)
    requires n <= |lines|
    ensures Increasing(Records(lines, n))
    ensures forall i :: 0 <= i < n && lines[i].Numbers? ==>
              Records(lines, n) != [] && lines[i].t <= Records(lines, n)[|Records(lines, n)|-1]
  {
    if n > 0 {
      RecordsAreLatest(lines, n - 1);
    }
  }

  /** The plane line i belongs to. */
  function PlaneOf(lines: seq<Line>, i: nat): int
    requires i < |lines|
  {
    |Records(lines, i + 1)| - 1
  }

  /** There is a plane as soon as there is a valid line. */
  lemma {:induction false} PlanesExist(lines: seq<Line>, n: nat)
    requires n <= |lines|
    ensures Records(lines, n) == [] <==> n <= Leading(lines)
  {
    if n > 0 {
      PlanesExist(lines, n - 1);
    }
  }

  lemma {:induction false} StartSame(c: seq<nat>, d: seq<nat>, b: nat)
    requires b <= |c| && b <= |d| && forall i :: 0 <= i < b ==> c[i] == d[i]
    ensures Start(c, b) == Start(d, b)
  {
    if b > 0 {
      StartSame(c, d, b - 1);
    }
  }

  /** A line lies in its plane: plane b is a stretch of as many lines as counted. */
  ghost predicate InPlane(c: seq<nat>, b: int, at: int) {
    0 <= b < |c| && Start(c, b) <= at < Start(c, b + 1)
  }

  /** One more line of the last plane, or of a new one, leaves the other planes as they are. */
  lemma LastCount(c: seq<nat>, d: seq<nat>, b: int, at: int)
    requires d == c + [1] || (c != [] && d == c[|c| - 1 := c[|c| - 1] + 1])
    ensures Start(d, |d|) == Start(c, |c|) + 1 && InPlane(d, |d| - 1, Start(c, |c|))
    ensures InPlane(c, b, at) ==> InPlane(d, b, at)
  {
    StartSame(c, d, |d| - 1);
    if InPlane(c, b, at) {
      StartSame(c, d, b);
    }
  }

  /** What one more line from the first valid one on does to the counts. */
  lemma CountsStep(lines: seq<Line>, n: nat) returns (c: seq<nat>, d: seq<nat>)
    requires Leading(lines) <= n < |lines|
    ensures c == Counts(lines, n) && d == Counts(lines, n + 1) && |d| == PlaneOf(lines, n) + 1
    ensures d == c + [1] || (c != [] && d == c[|c| - 1 := c[|c| - 1] + 1])
  {
    PlanesExist(lines, n);
    PlanesExist(lines, n + 1);
    c, d := Counts(lines, n), Counts(lines, n + 1);
  }

  lemma {:induction false} CountsAddUp(lines: seq<Line>, n: nat)
    requires Leading(lines) <= n <= |lines|
    ensures Leading(lines) + Start(Counts(lines, n), |Counts(lines, n)|) == n
  {
    if n > Leading(lines) {
      CountsAddUp(lines, n - 1);
      var c, d := CountsStep(lines, n - 1);
      LastCount(c, d, 0, 0);
    } else {
      PlanesExist(lines, n);
    }
  }

  lemma {:induction false} LineInPlane(lines: seq<Line>, n: nat, i: nat, b: int, at: nat)
    requires i < n <= |lines| && i == Leading(lines) + at && b == PlaneOf(lines, i)
    ensures InPlane(Counts(lines, n), b, at)
  {
    var c, d := CountsStep(lines, n - 1);
    LastCount(c, d, b, at);
    if i < n - 1 {
      LineInPlane(lines, n - 1, i, b, at);
    } else {
      CountsAddUp(lines, n - 1);
      assert b == |d| - 1 && at == Start(c, |c|);
    }
  }

  /** The counts cut the lines from the first valid one on into the planes, and a line lies in the plane it belongs to. */
  lemma CountsPartition(lines: seq<Line>, n: nat)
    requires n <= |lines|
    ensures n >= Leading(lines) ==> Leading(lines) + Start(Counts(lines, n), |Counts(lines, n)|) == n
    ensures forall i :: Leading(lines) <= i < n ==>
              InPlane(Counts(lines, n), PlaneOf(lines, i), i - Leading(lines))
  {
    if n >= Leading(lines) { CountsAddUp(lines, n); }
    forall i | Leading(lines) <= i < n
      ensures InPlane(Counts(lines, n), PlaneOf(lines, i), i - Leading(lines))
    {
      LineInPlane(lines, n, i, PlaneOf(lines, i), i - Leading(lines));
    }
  }

  /** The counts add up to the whole file exactly if its first line is valid. */
  lemma CountsCoverFile(lines: seq<Line>)
    requires lines != []
    ensures Start(LineCounts(lines), |LineCounts(lines)|) == |lines| <==> lines[0].Numbers?
  {
    CountsPartition(lines, |lines|);
  }

  lemma {:induction false} RecordsPrefix(lines: seq<Line>, m: nat, n: nat)
    requires m <= n <= |lines|
    ensures Records(lines, m) <= Records(lines, n)
  {
    if m < n {
      RecordsPrefix(lines, m, n - 1);
    }
  }

  /** A valid line is not later than its plane, and exactly the lines that open a plane carry a new latest time. */
  lemma PlaneTimes(lines: seq<Line>, i: nat)
    requires i < |lines| && lines[i].Numbers?
    ensures 0 <= PlaneOf(lines, i) < |Times(lines)| && lines[i].t <= Times(lines)[PlaneOf(lines, i)]
    ensures (i == 0 || PlaneOf(lines, i) != PlaneOf(lines, i - 1)) ==> lines[i].t == Times(lines)[PlaneOf(lines, i)]
  {
    RecordsPrefix(lines, i + 1, |lines|);
    RecordsAreLatest(lines, i + 1);
  }

  lemma {:induction false} StartGrows(c: seq<nat>, a: nat, b: nat)
    requires a <= b <= |c|
    ensures Start(c, a) <= Start(c, b)
  {
    if a < b {
      StartGrows(c, a, b - 1);
    }
  }

  // ----- points read for a plane

  function PointOf(l: Line): seq<Point> {
    if l.Numbers? then [Point(l.x, l.y, l.z, l.v)] else []
  }

  /** The points on lines a to b. */
  function Between(lines: seq<Line>, a: nat, b: nat): seq<Point>
    requires a <= b <= |lines|
  {
    if a == b then [] else Between(lines, a, b - 1) + PointOf(lines[b - 1])
  }

  lemma {:induction false} BetweenAdds(lines: seq<Line>, a: nat, b: nat, c: nat)
    requires a <= b <= c <= |lines|
    ensures Between(lines, a, c) == Between(lines, a, b) + Between(lines, b, c)
    decreases c - b
  {
    if b < c {
      BetweenAdds(lines, a, b, c - 1);
    }
  }

  /** Every valid line between them has a point, in its place among those of the lines before it. */
  lemma {:induction false} PointOfLine(lines: seq<Line>, a: nat, b: nat, i: nat)
    requires a <= i < b <= |lines| && lines[i].Numbers?
    ensures |Between(lines, a, i)| < |Between(lines, a, b)|
    ensures Between(lines, a, b)[|Between(lines, a, i)|] == Point(lines[i].x, lines[i].y, lines[i].z, lines[i].v)
    decreases b
  {
    if i < b - 1 {
      PointOfLine(lines, a, b - 1, i);
    }
  }

  /** There are no other points. */
  lemma {:induction false} LineOfPoint(lines: seq<Line>, a: nat, b: nat, k: nat) returns (i: nat)
    requires a <= b <= |lines| && k < |Between(lines, a, b)|
    ensures a <= i < b && lines[i].Numbers? && k == |Between(lines, a, i)|
    decreases b
  {
    if k < |Between(lines, a, b - 1)| {
      i := LineOfPoint(lines, a, b - 1, k);
    } else {
      i := b - 1;
    }
  }

  lemma {:induction false} IgnoredBetween(lines: seq<Line>, a: nat, b: nat)
    requires a <= b <= |lines|
    ensures Between(lines, a, b) == [] <==> forall i :: a <= i < b ==> lines[i] == Ignored
    decreases b - a
  {
    if a < b {
      IgnoredBetween(lines, a, b - 1);
      NothingJoined(Between(lines, a, b - 1), PointOf(lines[b - 1]));
    }
  }

  lemma NothingJoined<T>(s: seq<T>, t: seq<T>)
    ensures s + t == [] <==> s == [] && t == []
  {
    assert |s + t| == |s| + |t|;
  }

  /** The stretch of lines of plane b lies in the file, when the planes are laid out from line `from` on. */
  lemma PlaneFits(lines: seq<Line>, from: nat, b: nat)
    requires from <= Leading(lines) && b < |LineCounts(lines)|
    ensures from + Start(LineCounts(lines), b) <= from + Start(LineCounts(lines), b + 1) <= |lines|
  {
    var c := LineCounts(lines);
    CountsPartition(lines, |lines|);
    StartGrows(c, b, b + 1);
    StartGrows(c, b + 1, |c|);
  }

  /** The points that belong to plane b. */
  ghost function OwnPoints(lines: seq<Line>, b: nat): seq<Point>
    requires b < |LineCounts(lines)|
  {
    PlaneFits(lines, Leading(lines), b);
    Between(lines, Start(LineCounts(lines), b) + Leading(lines), Start(LineCounts(lines), b + 1) + Leading(lines))
  }

  /** The points that reading the counted lines plane by plane from the top of the file gives for plane b. */
  ghost function ReadPoints(lines: seq<Line>, b: nat): seq<Point>
    requires b < |LineCounts(lines)|
  {
    PlaneFits(lines, 0, b);
    Between(lines, Start(LineCounts(lines), b), Start(LineCounts(lines), b + 1))
  }

  /** The k lines after the place where reading stops for plane b, k being the number of lines before the first valid
      one, are all ignored. */
  ghost predicate NothingMissed(lines: seq<Line>, b: nat)
    requires b < |LineCounts(lines)|
  {
    PlaneFits(lines, Leading(lines), b);
    AllIgnored(lines, Start(LineCounts(lines), b + 1), Leading(lines))
  }

  /** The k lines from `from` on hold no point. */
  ghost predicate AllIgnored(lines: seq<Line>, from: nat, k: nat)
    requires from + k <= |lines|
  {
    forall i :: from <= i < from + k ==> lines[i] == Ignored
  }

  /** A stretch moved down by k lines, to run from `top` to `end`, gains the points of the k lines after it, if it loses
      none at its top. */
  lemma ShiftedStretch(lines: seq<Line>, start: nat, stop: nat, k: nat, top: nat, end: nat)
    requires start <= stop && top == start + k && end == stop + k <= |lines| && Between(lines, start, top) == []
    ensures Between(lines, top, end) == Between(lines, start, stop) + Between(lines, stop, end)
  {
    BetweenAdds(lines, start, top, end);
    BetweenAdds(lines, start, stop, end);
    assert [] + Between(lines, top, end) == Between(lines, top, end);
  }

  lemma NothingAppended(read: seq<Point>, tail: seq<Point>)
    ensures read == read + tail <==> tail == []
  {
    assert |read + tail| == |read| + |tail|;
  }

  /** A stretch that loses nothing at its top is unchanged exactly if it gains nothing at its end. */
  lemma ShiftedSame(lines: seq<Line>, start: nat, stop: nat, k: nat, top: nat, end: nat)
    requires start <= stop && top == start + k && end == stop + k <= |lines| && AllIgnored(lines, start, k)
    ensures Between(lines, start, stop) == Between(lines, top, end) <==> AllIgnored(lines, stop, k)
  {
    IgnoredBetween(lines, start, top);
    IgnoredBetween(lines, stop, end);
    ShiftedStretch(lines, start, stop, k, top, end);
    NothingAppended(Between(lines, start, stop), Between(lines, stop, end));
  }

  /** Nothing missed before a plane means nothing lost at its top. */
  lemma NothingLost(lines: seq<Line>, b: nat)
    requires b < |LineCounts(lines)| && (b > 0 ==> NothingMissed(lines, b - 1))
    ensures Start(LineCounts(lines), b) + Leading(lines) <= |lines|
    ensures AllIgnored(lines, Start(LineCounts(lines), b), Leading(lines))
  {
    PlaneFits(lines, Leading(lines), b);
    if b > 0 {
      PlaneFits(lines, Leading(lines), b - 1);
    }
  }

  /** One plane is read right exactly if nothing is missed at its end, when nothing was missed before it. */
  lemma OnePlane(lines: seq<Line>, b: nat)
    requires b < |LineCounts(lines)| && (b > 0 ==> NothingMissed(lines, b - 1))
    ensures ReadPoints(lines, b) == OwnPoints(lines, b) <==> NothingMissed(lines, b)
  {
    NothingLost(lines, b);
    var start, stop, top, end := PlaneTerms(lines, b);
    ShiftedSame(lines, start, stop, Leading(lines), top, end);
  }

  /** From which line to which a plane is read, and from which to which it ought to be. */
  lemma PlaneTerms(lines: seq<Line>, b: nat) returns (start: nat, stop: nat, top: nat, end: nat)
    requires b < |LineCounts(lines)|
    ensures start == Start(LineCounts(lines), b) && top == start + Leading(lines)
    ensures start <= stop && end == stop + Leading(lines) && end <= |lines|
    ensures ReadPoints(lines, b) == Between(lines, start, stop) && OwnPoints(lines, b) == Between(lines, top, end)
    ensures NothingMissed(lines, b) <==> AllIgnored(lines, stop, Leading(lines))
  {
    PlaneFits(lines, Leading(lines), b);
    start, stop := Start(LineCounts(lines), b), Start(LineCounts(lines), b + 1);
    top, end := Start(LineCounts(lines), b) + Leading(lines), Start(LineCounts(lines), b + 1) + Leading(lines);
  }

  lemma {:induction false} PlanesUpTo(lines: seq<Line>, m: nat)
    requires m <= |LineCounts(lines)|
    ensures (forall b :: 0 <= b < m ==> ReadPoints(lines, b) == OwnPoints(lines, b))
       <==> (forall b :: 0 <= b < m ==> NothingMissed(lines, b))
  {
    if m > 0 {
      PlanesUpTo(lines, m - 1);
      if forall b :: 0 <= b < m - 1 ==> NothingMissed(lines, b) {
        OnePlane(lines, m - 1);
      }
    }
  }

  /** Every plane is read as its own points exactly if, for every plane, the lines that the ignored first lines of the
      file push beyond its count are themselves ignored; so in particular if the first line is valid. */
  lemma PlanesReadRight(lines: seq<Line>)
    ensures (forall b :: 0 <= b < |LineCounts(lines)| ==> ReadPoints(lines, b) == OwnPoints(lines, b))
       <==> (forall b :: 0 <= b < |LineCounts(lines)| ==> NothingMissed(lines, b))
    ensures lines != [] && lines[0].Numbers? ==>
              forall b :: 0 <= b < |LineCounts(lines)| ==> ReadPoints(lines, b) == OwnPoints(lines, b)
  {
    PlanesUpTo(lines, |LineCounts(lines)|);
  }

  /** One ignored line at the top of the file is enough to lose the only point. */
  lemma IgnoredFirstLineLosesPoint()
    ensures var lines := [Ignored, Numbers(1.0, 2.0, 3.0, 0.0, 5.0)];
            |LineCounts(lines)| == 1 && ReadPoints(lines, 0) == [] && OwnPoints(lines, 0) == [Point(1.0, 2.0, 3.0, 5.0)]
  {
    var lines := [Ignored, Numbers(1.0, 2.0, 3.0, 0.0, 5.0)];
    assert Records(lines, 1) == [] && Counts(lines, 1) == [];
    assert Counts(lines, 2) == [1];
    assert FirstFrom(lines, 1) == 1 && Leading(lines) == 1;
    assert Start([1], 1) == 1;
    assert Between(lines, 0, 1) == [];
    assert Between(lines, 1, 2) == [Point(1.0, 2.0, 3.0, 5.0)];
  }

  // ----- the plane for a time

  /** The time looked for, raised by the fudge factor. */
  function Fudged(time: real): real {
    time * FUDGE
  }

  /** The last plane at or before x, or the first plane. */
  function Target(times: seq<real>, x: real): (i: nat)
    requires times != []
    ensures i < |times|
  {
    if |times| == 1 || times[|times|-1] <= x then |times| - 1 else Target(times[..|times|-1], x)
  }

  lemma {:induction false} TargetIs(times: seq<real>, x: real, i: nat)
    requires times != [] && Increasing(times) && i < |times|
    ensures Target(times, x) == i <==> (i == 0 || times[i] <= x) && (i == |times| - 1 || x < times[i + 1])
  {
    if |times| > 1 && x < times[|times|-1] {
      if i < |times| - 1 {
        TargetIs(times[..|times|-1], x, i);
      }
    }
  }

  /** Plane i is the one for a time: the last one that starts no more than a millionth part after it, or the first. */
  ghost predicate PlaneFor(times: seq<real>, i: int, time: real) {
    && 0 <= i < |times|
    && (i == 0 || times[i] <= time * 1.000001)
    && (i == |times| - 1 || time * 1.000001 < times[i + 1])
  }

  lemma TargetIsPlaneFor(times: seq<real>, time: real) returns (i: nat)
    requires times != [] && Increasing(times)
    ensures i == Target(times, Fudged(time)) && PlaneFor(times, i, time)
  {
    i := Target(times, Fudged(time));
    TargetIs(times, Fudged(time), i);
  }

  class XyztFile {
    // the lines of the file on disk
    const file: seq<Line>
    var times: seq<real>
    var counts: seq<nat>
    var currentSet: int
    // lines read from the open stream, or no stream
    var open: bool
    var position: nat
    var source: DataSource

    ghost predicate Indexed()
      reads this
    {
      && times == Times(file) && counts == LineCounts(file) && times != []
      && open && -1 <= currentSet < |times| && position == Start(counts, currentSet + 1)
    }

    /** Between reads, the data source holds the current plane, its coordinates converted once. */
    ghost predicate Valid()
      reads this
    {
      Indexed() && (currentSet >= 0 ==> source == DataSource(ReadPoints(file, currentSet), 1))
    }

    /** Indexes the file, if the search for a first valid line takes no more than `turns` turns. SearchEnds says for which
        files there are enough turns. */
    constructor (lines: seq<Line>, turns: nat)
      ensures file == lines && currentSet == -1
      ensures Turns(lines, turns).found ==> Valid()
      ensures !Turns(lines, turns).found ==> open && position == turns && times == []
    {
      file := lines;
      times, counts, currentSet, position, source := [], [], -1, 0, NoData;
      open := true;
      new;
      BuildIndex(turns);
    }

    method BuildIndex(turns: nat)
      requires open && currentSet == -1 && position == 0 && times == [] && counts == []
      modifies this
      ensures currentSet == -1
      ensures Turns(file, turns).found ==> Indexed()
      ensures !Turns(file, turns).found ==> open && position == turns && times == []
    {
      TurnsAre(file, turns);
      var found, t := SkipToFirst(turns);
      if found {
        times := times + [t];
        PlanesExist(file, position - 1);
        CountLines(t);
        PlanesExist(file, |file|);
        Close();
        Open();
      }
    }

    /** Reads up to the first valid line, but not more than `turns` lines. */
    method SkipToFirst(turns: nat) returns (j: bool, t: real)
      requires position == 0
      modifies `position
      ensures Turns(file, turns) == Search(position, j, t)
    {
      j := false;
      t := 0.0;
      var n := 0;
      while !j && n < turns
        invariant n <= turns && Turns(file, n) == Search(position, j, t)
      {
        var line := LineAt(file, position);
        position := position + 1;
        j := line.Numbers?;
        if j {
          t := line.t;
        }
        n := n + 1;
      }
      TurnsAre(file, n);
      TurnsAre(file, turns);
    }

    /** Counts the lines of every plane, the first valid line having been read. */
    method CountLines(first: real)
      requires position <= |file| && times == Records(file, position) == [first]
      requires counts == [] && Counts(file, position) == [1]
      modifies `position, `times, `counts
      ensures times == Times(file) && counts == LineCounts(file)
    {
      var tlast := first;
      var count := 1;
      while position < |file|
        invariant position <= |file|
        invariant times != [] && times == Records(file, position) && times[|times|-1] == tlast
        invariant counts + [count] == Counts(file, position)
        modifies `position, `times, `counts
      {
        tlast, count := NextLine(tlast, count);
      }
      counts := counts + [count];
    }

    /** Reads one more line, which opens a new plane or belongs to the last one. */
    method NextLine(last: real, before: nat) returns (tlast: real, count: nat)
      requires position < |file| && times != [] && times == Records(file, position) && times[|times|-1] == last
      requires counts + [before] == Counts(file, position)
      modifies `position, `times, `counts
      ensures position == old(position) + 1
      ensures times != [] && times == Records(file, position) && times[|times|-1] == tlast
      ensures counts + [count] == Counts(file, position)
    {
      OneLine(file, position, times, last, counts, before);
      tlast, count := last, before;
      var line := file[position];
      position := position + 1;
      if line.Numbers? {
        if line.t > tlast {
          counts := counts + [count];
          times := times + [line.t];
          tlast := line.t;
          count := 0;
        }
      }
      count := count + 1;
    }

    method Open()
      modifies `open, `position, `currentSet
      ensures open && position == 0 && currentSet == -1
    {
      open, position, currentSet := true, 0, -1;
    }

    method Close()
      modifies `open, `currentSet
      ensures !open && currentSet == -1
    {
      open, currentSet := false, -1;
    }

    /** Reads the next plane, if there is one. */
    method ReadSet() returns (ok: bool)
      requires Indexed()
      modifies `currentSet, `position, `source
      ensures Indexed()
      ensures ok == (old(currentSet) + 1 < |times|)
      ensures ok ==> currentSet == old(currentSet) + 1 && source == DataSource(ReadPoints(file, currentSet), 0)
      ensures !ok ==> currentSet == old(currentSet) && source == old(source)
    {
      if currentSet + 1 == |times| {
        return false;
      }
      currentSet := currentSet + 1;
      ghost var start := position;
      PlaneFits(file, 0, currentSet);
      var pts: seq<Point> := [];
      for i := 0 to counts[currentSet]
        invariant position == start + i && pts == Between(file, start, position)
        modifies `position
      {
        var line := file[position];
        position := position + 1;
        if line.Numbers? {
          pts := pts + [Point(line.x, line.y, line.z, line.v)];
        }
      }
      source := DataSource(pts, 0);
      ok := true;
    }

    /** Whether the loaded plane is the one for `time`; a time before plane 0 is not recognised here. */
    method IsCurrent(time: real) returns (current: bool)
      requires times != [] && Increasing(times)
      ensures current ==> currentSet == Target(times, Fudged(time))
    {
      var i := currentSet;
      current := false;
      if 0 <= i < |times| {
        TargetIs(times, Fudged(time), i);
        if FUDGE * time >= times[i] {
          if i == |times| - 1 {
            current := true;
          } else if time * FUDGE < times[i + 1] {
            current := true;
          }
        }
      }
    }

    /** Makes the plane for `time` the one loaded, whatever was read before. */
    method Read(time: real)
      requires Valid()
      modifies this
      ensures Valid() && times == old(times) && counts == old(counts)
      ensures currentSet == Target(times, Fudged(time)) && PlaneFor(times, currentSet, time)
      ensures source == DataSource(ReadPoints(file, Target(times, Fudged(time))), 1)
    {
      RecordsAreLatest(file, |file|);
      ghost var i := TargetIsPlaneFor(times, time);
      var current := IsCurrent(time);
      if current {
        return;
      }
      var target := FindTarget(time);
      if currentSet == target {
        return;
      }
      MoveTo(target);
      source := source.(conversions := source.conversions + 1);
    }

    /** Reads planes up to `target`, from the top of the file again if it lies before the current one. */
    method MoveTo(target: nat)
      requires Indexed() && target < |times| && target != currentSet
      modifies `open, `currentSet, `position, `source
      ensures Indexed() && currentSet == target && source == DataSource(ReadPoints(file, target), 0)
    {
      var more: nat;
      if currentSet < target {
        more := target - currentSet - 1;
      } else {
        Close();
        Open();
        more := target;
      }
      ghost var base := currentSet;
      for n := 0 to more + 1
        invariant Indexed() && currentSet == base + n && target == base + more + 1 < |times|
        invariant n > 0 ==> source == DataSource(ReadPoints(file, currentSet), 0)
        modifies `currentSet, `position, `source
      {
        var ok := ReadSet();
      }
    }

    /** The search for the plane of a time. */
    method FindTarget(time: real) returns (i: nat)
      requires times != [] && Increasing(times)
      ensures i == Target(times, Fudged(time)) && PlaneFor(times, i, time)
    {
      ghost var j := TargetIsPlaneFor(times, time);
      var x := time * FUDGE;
      if x <= times[0] {
        i := 0;
      } else {
        i := 0;
        while i < |times| - 1
          invariant 0 <= i < |times| && times[i] <= x
        {
          if x >= times[i] && x < times[i + 1] {
            break;
          }
          i := i + 1;
        }
      }
      TargetIs(times, x, i);
    }

    /** Any sequence of reads leaves what its last read alone would have left. */
    method ReadAll(requests: seq<real>)
      requires Valid() && requests != []
      modifies this
      ensures Valid() && times == old(times)
      ensures currentSet == Target(times, Fudged(requests[|requests|-1]))
      ensures PlaneFor(times, currentSet, requests[|requests|-1])
      ensures source == DataSource(ReadPoints(file, currentSet), 1)
    {
      for n := 0 to |requests|
        invariant Valid() && times == old(times)
        invariant n > 0 ==> currentSet == Target(times, Fudged(requests[n - 1])) && PlaneFor(times, currentSet, requests[n - 1])
        invariant n > 0 ==> source == DataSource(ReadPoints(file, currentSet), 1)
      {
        Read(requests[n]);
      }
    }
  }
}
