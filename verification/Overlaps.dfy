/** Removing overlaps from the boundary conditions of one cell: for each type
    and face the last definition of a point wins. */
module Overlaps {
  import opened Basics
  import opened Regions

  /** Polygons without a common point add their areas. */
  ghost predicate Measures(area: Region -> real) {
    && (forall a, b {:trigger Same(a, b)} :: Same(a, b) ==> area(a) == area(b))
    && (forall a, b {:trigger area(Union(a, b))} :: Disjoint(a, b) ==> area(Union(a, b)) == area(a) + area(b))
    && area(NOWHERE) == 0.0
  }

  /** There are such areas: that of a polygon may be 1 if it covers a certain point, else 0. */
  lemma MeasuresExist(at: Pt) returns (area: Region -> real)
    ensures Measures(area) && forall r: Region :: area(r) == if r(at) then 1.0 else 0.0
  {
    area := (r: Region) => if r(at) then 1.0 else 0.0;
    assert forall a: Region, b: Region :: Disjoint(a, b) ==> !(a(at) && b(at));
  }

  // ----- boundary conditions

  datatype BcType = Specified | Flux | Leaky | UndefinedType

  datatype CellFace = FaceX | FaceY | FaceZ | FaceAll | FaceUnknown

  datatype BcInfo = BcInfo(bcType: BcType, face: CellFace, poly: Option<Region>, area: real)

  predicate Of(b: BcInfo, t: BcType, f: CellFace) {
    b.bcType == t && b.face == f
  }

  /** The polygon of definition i, if it is one of a type and face and covers p. */
  ghost predicate Covers(info: seq<BcInfo>, i: nat, t: BcType, f: CellFace, p: Pt)
    requires i < |info|
  {
    Of(info[i], t, f) && info[i].poly.Some? && info[i].poly.value(p)
  }

  ghost predicate CoveredFrom(info: seq<BcInfo>, i: nat, t: BcType, f: CellFace, p: Pt) {
    exists k :: i <= k < |info| && Covers(info, k, t, f, p)
  }

  /** `now` has the polygons of one type and face, from definition i on, cut down to what no later one covers. */
  ghost predicate ResolvedFrom(was: seq<BcInfo>, now: seq<BcInfo>, i: nat, t: BcType, f: CellFace, area: Region -> real) {
    && |now| == |was|
    && forall k :: 0 <= k < |was| ==>
         if i <= k && Of(was[k], t, f) && was[k].poly.Some?
         then Trimmed(was, now[k], k, t, f, area)
         else now[k] == was[k]
  }

  ghost predicate Trimmed(was: seq<BcInfo>, b: BcInfo, k: nat, t: BcType, f: CellFace, area: Region -> real)
    requires k < |was| && was[k].poly.Some?
  {
    && b.bcType == was[k].bcType && b.face == was[k].face && b.poly.Some? && b.area == area(b.poly.value)
    && forall p :: b.poly.value(p) <==> was[k].poly.value(p) && !CoveredFrom(was, k + 1, t, f, p)
  }

  class Cell {
    var info: seq<BcInfo>
    var specified: bool
    var leaky: bool
    var flux: bool
    var bcType: BcType

    constructor (info: seq<BcInfo>)
      ensures this.info == info
    {
      this.info := info;
      specified, leaky, flux, bcType := false, false, false, UndefinedType;
    }

    /** One walk back over the definitions of one type and face. */
    method ResolveFace(t: BcType, f: CellFace, area: Region -> real) returns (seen: bool)
      modifies `info
      ensures ResolvedFrom(old(info), info, 0, t, f, area)
      ensures seen <==> Defines(old(info), t, {f})
    {
      ghost var was := info;
      var excluded := NOWHERE;
      var i := |info|;
      seen := false;
      while i > 0
        invariant 0 <= i <= |was| && ResolvedFrom(was, info, i, t, f, area)
        invariant Excludes(excluded, was, i, t, f)
        invariant seen <==> Defines(was[i..], t, {f})
      {
        i := i - 1;
        ResolveStep(was, info, i, t, f, excluded, area);
        DefinesFirst(was, i, t, f);
        if Of(info[i], t, f) {
          seen := true;
          if info[i].poly.Some? {
            var poly := Difference(info[i].poly.value, excluded);
            excluded := Union(poly, excluded);
            info := info[i := info[i].(poly := Some(poly), area := area(poly))];
          }
        }
      }
      assert was[0..] == was;
    }

    /** Settles the boundary conditions of the cell. */
    method ProcessBc(area: Region -> real)
      modifies this
      ensures old(info) == [] ==> info == []
      ensures old(info) != [] ==> bcType == old(info)[|old(info)|-1].bcType
      ensures old(info) != [] && bcType == Specified ==> info == old(info) && specified && !leaky && !flux
      ensures old(info) != [] && bcType != Specified ==>
                && ResolvedGroups(old(info), info, Groups(), area)
                && !specified && (flux <==> Defines(old(info), Flux, Faces())) && (leaky <==> Defines(old(info), Leaky, Faces()))
    {
      if info == [] {
        return;
      }
      specified, leaky, flux := false, false, false;
      bcType := info[|info|-1].bcType;
      if bcType == Specified {
        specified := true;
        return;
      }
      ghost var was := info;
      var types := [Flux, Leaky];
      ghost var done: set<(BcType, CellFace)> := {};
      for i := 0 to 2
        invariant ResolvedGroups(was, info, done, area)
        invariant done == if i == 0 then {} else if i == 1 then FacesOf(Flux) else Groups()
        invariant !specified && bcType == was[|was|-1].bcType
        invariant flux <==> i > 0 && Defines(was, Flux, Faces())
        invariant leaky <==> i > 1 && Defines(was, Leaky, Faces())
      {
        var seen := ResolveType(types[i], area, was, done);
        done := done + FacesOf(types[i]);
        if seen {
          if i == 0 { flux := true; } else { leaky := true; }
        }
      }
    }

    /** The three faces of one type. */
    method ResolveType(t: BcType, area: Region -> real, ghost was: seq<BcInfo>, ghost done: set<(BcType, CellFace)>) returns (seen: bool)
      requires ResolvedGroups(was, info, done, area)
      requires forall f :: (t, f) !in done
      modifies `info
      ensures ResolvedGroups(was, info, done + FacesOf(t), area)
      ensures seen <==> Defines(was, t, Faces())
    {
      var faces := [FaceX, FaceY, FaceZ];
      ghost var seenFaces: set<CellFace> := {};
      seen := false;
      for i := 0 to 3
        invariant seenFaces == if i == 0 then {} else if i == 1 then {FaceX} else if i == 2 then {FaceX, FaceY} else Faces()
        invariant ResolvedGroups(was, info, done + Tagged(t, seenFaces), area)
        invariant seen <==> Defines(was, t, seenFaces)
      {
        ghost var mid := info;
        var s := ResolveFace(t, faces[i], area);
        FaceStep(was, mid, info, done, seenFaces, t, faces[i], area);
        seenFaces := seenFaces + {faces[i]};
        seen := seen || s;
      }
    }
  }

  /** The faces the walks visit. */
  ghost function Faces(): set<CellFace> {
    {FaceX, FaceY, FaceZ}
  }

  ghost function Groups(): set<(BcType, CellFace)> {
    FacesOf(Flux) + FacesOf(Leaky)
  }

  ghost function FacesOf(t: BcType): set<(BcType, CellFace)> {
    Tagged(t, Faces())
  }

  ghost function Tagged(t: BcType, faces: set<CellFace>): set<(BcType, CellFace)> {
    set f | f in faces :: (t, f)
  }

  ghost predicate Defines(info: seq<BcInfo>, t: BcType, faces: set<CellFace>) {
    exists i :: 0 <= i < |info| && info[i].bcType == t && info[i].face in faces
  }

  /** The polygons of the groups done are trimmed; everything else is as it was. */
  ghost predicate ResolvedGroups(was: seq<BcInfo>, now: seq<BcInfo>, done: set<(BcType, CellFace)>, area: Region -> real) {
    && |now| == |was|
    && forall k :: 0 <= k < |was| ==>
         if (was[k].bcType, was[k].face) in done && was[k].poly.Some?
         then Trimmed(was, now[k], k, was[k].bcType, was[k].face, area)
         else now[k] == was[k]
  }

  /** One more face of type t. */
  lemma FaceStep(was: seq<BcInfo>, mid: seq<BcInfo>, now: seq<BcInfo>, done: set<(BcType, CellFace)>,
                 faces: set<CellFace>, t: BcType, f: CellFace, area: Region -> real)
    requires ResolvedGroups(was, mid, done + Tagged(t, faces), area) && (t, f) !in done && f !in faces
    requires ResolvedFrom(mid, now, 0, t, f, area)
    ensures ResolvedGroups(was, now, done + Tagged(t, faces + {f}), area)
    ensures Defines(was, t, faces + {f}) <==> Defines(was, t, faces) || Defines(mid, t, {f})
  {
    GroupStep(was, mid, now, done + Tagged(t, faces), t, f, area);
    assert done + Tagged(t, faces + {f}) == done + Tagged(t, faces) + {(t, f)};
    assert forall k :: 0 <= k < |was| ==> SameGroup(mid, was, k);
  }

  ghost predicate SameGroup(a: seq<BcInfo>, b: seq<BcInfo>, k: nat)
    requires k < |a| && k < |b|
  {
    a[k].bcType == b[k].bcType && a[k].face == b[k].face
  }

  lemma GroupStep(was: seq<BcInfo>, mid: seq<BcInfo>, now: seq<BcInfo>, done: set<(BcType, CellFace)>,
                  t: BcType, f: CellFace, area: Region -> real)
    requires ResolvedGroups(was, mid, done, area) && (t, f) !in done
    requires ResolvedFrom(mid, now, 0, t, f, area)
    ensures ResolvedGroups(was, now, done + {(t, f)}, area)
  {
    forall k | 0 <= k < |was| && Of(was[k], t, f) && was[k].poly.Some?
      ensures Trimmed(was, now[k], k, t, f, area)
    {
      StillCovered(was, mid, done, k + 1, t, f, area);
      assert Trimmed(mid, now[k], k, t, f, area);
    }
  }

  /** Trimming other groups changes nothing for this type and face. */
  lemma StillCovered(was: seq<BcInfo>, mid: seq<BcInfo>, done: set<(BcType, CellFace)>, k: nat, t: BcType, f: CellFace,
                     area: Region -> real)
    requires ResolvedGroups(was, mid, done, area) && (t, f) !in done
    ensures forall p :: CoveredFrom(was, k, t, f, p) <==> CoveredFrom(mid, k, t, f, p)
  {
    assert forall i, p :: 0 <= i < |was| ==> (Covers(was, i, t, f, p) <==> Covers(mid, i, t, f, p));
  }

  /** The region is what definitions of the type and face from i on cover. */
  ghost predicate Excludes(excluded: Region, was: seq<BcInfo>, i: nat, t: BcType, f: CellFace) {
    forall p :: excluded(p) <==> CoveredFrom(was, i, t, f, p)
  }

  /** What the walk does to definition i. */
  lemma ResolveStep(was: seq<BcInfo>, now: seq<BcInfo>, i: nat, t: BcType, f: CellFace, excluded: Region, area: Region -> real)
    requires i < |was| && ResolvedFrom(was, now, i + 1, t, f, area) && Excludes(excluded, was, i + 1, t, f)
    ensures now[i] == was[i]
    ensures if Of(was[i], t, f) && was[i].poly.Some? then
              var poly := Difference(was[i].poly.value, excluded);
              && ResolvedFrom(was, now[i := was[i].(poly := Some(poly), area := area(poly))], i, t, f, area)
              && Excludes(Union(poly, excluded), was, i, t, f)
            else ResolvedFrom(was, now, i, t, f, area) && Excludes(excluded, was, i, t, f)
  {
    CoveredStep(was, i, t, f);
  }

  lemma DefinesFirst(was: seq<BcInfo>, i: nat, t: BcType, f: CellFace)
    requires i < |was|
    ensures Defines(was[i..], t, {f}) <==> Of(was[i], t, f) || Defines(was[i + 1..], t, {f})
  {
    var all, rest := was[i..], was[i + 1..];
    assert all[0] == was[i];
    assert forall k :: 0 <= k < |rest| ==> rest[k] == all[k + 1];
  }

  lemma CoveredStep(was: seq<BcInfo>, i: nat, t: BcType, f: CellFace)
    requires i < |was|
    ensures forall p :: CoveredFrom(was, i, t, f, p) <==> Covers(was, i, t, f, p) || CoveredFrom(was, i + 1, t, f, p)
  {
  }

  // ----- what resolving promises

  /** Of boundary conditions of another type or face nothing changes. */
  lemma OthersStay(was: seq<BcInfo>, now: seq<BcInfo>, area: Region -> real, k: nat)
    requires ResolvedGroups(was, now, Groups(), area) && k < |was|
    requires (was[k].bcType != Flux && was[k].bcType != Leaky)
          || (was[k].face != FaceX && was[k].face != FaceY && was[k].face != FaceZ)
    ensures now[k] == was[k]
  {
  }

  /** The last definition that covers p keeps it, and no other polygon of the type and face has it: the polygons
      become disjoint, their union stays, and each point goes to its latest definition. */
  lemma LatestWins(was: seq<BcInfo>, now: seq<BcInfo>, t: BcType, f: CellFace, area: Region -> real, p: Pt)
    requires ResolvedGroups(was, now, Groups(), area)
    requires (t == Flux || t == Leaky) && (f == FaceX || f == FaceY || f == FaceZ)
    ensures forall i, j :: 0 <= i < j < |now| ==> !(Covers(now, i, t, f, p) && Covers(now, j, t, f, p))
    ensures CoveredFrom(now, 0, t, f, p) <==> CoveredFrom(was, 0, t, f, p)
    ensures forall i :: 0 <= i < |now| ==>
              (Covers(now, i, t, f, p) <==> Covers(was, i, t, f, p) && !CoveredFrom(was, i + 1, t, f, p))
  {
    forall i | 0 <= i < |now|
      ensures Covers(now, i, t, f, p) <==> Covers(was, i, t, f, p) && !CoveredFrom(was, i + 1, t, f, p)
    {
      assert Of(was[i], t, f) && was[i].poly.Some? ==> Trimmed(was, now[i], i, t, f, area);
    }
    forall i, j | 0 <= i < j < |now|
      ensures !(Covers(now, i, t, f, p) && Covers(now, j, t, f, p))
    {
      assert Covers(was, j, t, f, p) ==> CoveredFrom(was, i + 1, t, f, p);
    }
    if CoveredFrom(was, 0, t, f, p) {
      var i := LastCovering(was, 0, t, f, p);
      assert Covers(now, i, t, f, p);
    }
  }

  lemma {:induction false} LastCovering(was: seq<BcInfo>, k: nat, t: BcType, f: CellFace, p: Pt) returns (i: nat)
    requires CoveredFrom(was, k, t, f, p)
    ensures k <= i < |was| && Covers(was, i, t, f, p) && !CoveredFrom(was, i + 1, t, f, p)
    decreases |was| - k
  {
    if CoveredFrom(was, k + 1, t, f, p) {
      i := LastCovering(was, k + 1, t, f, p);
    } else {
      i := k;
    }
  }

  ghost function CoveredRegion(info: seq<BcInfo>, i: nat, t: BcType, f: CellFace): Region
    requires i <= |info|
    decreases |info| - i
  {
    if i == |info| then NOWHERE
    else
      var rest := CoveredRegion(info, i + 1, t, f);
      if Of(info[i], t, f) && info[i].poly.Some? then Union(info[i].poly.value, rest) else rest
  }

  lemma {:induction false} CoveredRegionIs(info: seq<BcInfo>, i: nat, t: BcType, f: CellFace, p: Pt)
    requires i <= |info|
    ensures CoveredRegion(info, i, t, f)(p) <==> CoveredFrom(info, i, t, f, p)
    decreases |info| - i
  {
    if i < |info| {
      CoveredRegionIs(info, i + 1, t, f, p);
      CoveredStep(info, i, t, f);
    }
  }

  /** The recorded areas of one type and face, from definition i on. */
  ghost function AreaSum(info: seq<BcInfo>, i: nat, t: BcType, f: CellFace): real
    requires i <= |info|
    decreases |info| - i
  {
    if i == |info| then 0.0
    else AreaSum(info, i + 1, t, f) + if Of(info[i], t, f) && info[i].poly.Some? then info[i].area else 0.0
  }

  /** The areas recorded for one type and face add up to the area its definitions cover together. */
  lemma {:induction false} AreasAddUp(was: seq<BcInfo>, now: seq<BcInfo>, i: nat, t: BcType, f: CellFace, area: Region -> real)
    requires Measures(area) && ResolvedGroups(was, now, Groups(), area) && i <= |was|
    requires (t == Flux || t == Leaky) && (f == FaceX || f == FaceY || f == FaceZ)
    ensures AreaSum(now, i, t, f) == area(CoveredRegion(was, i, t, f))
    decreases |was| - i
  {
    if i < |was| {
      AreasAddUp(was, now, i + 1, t, f, area);
      if Of(was[i], t, f) && was[i].poly.Some? {
        AreaStep(was, now[i], i, t, f, area);
      }
    }
  }

  /** The part of definition i not covered by later ones adds just its area. */
  lemma AreaStep(was: seq<BcInfo>, b: BcInfo, i: nat, t: BcType, f: CellFace, area: Region -> real)
    requires Measures(area) && i < |was| && was[i].poly.Some? && Trimmed(was, b, i, t, f, area)
    ensures var rest := CoveredRegion(was, i + 1, t, f);
            area(Union(was[i].poly.value, rest)) == b.area + area(rest)
  {
    var rest, mine := CoveredRegion(was, i + 1, t, f), b.poly.value;
    forall p
      ensures mine(p) <==> was[i].poly.value(p) && !rest(p)
    {
      CoveredRegionIs(was, i + 1, t, f, p);
    }
    assert Disjoint(mine, rest);
    assert Same(Union(mine, rest), Union(was[i].poly.value, rest));
    assert area(Union(mine, rest)) == area(mine) + area(rest);
  }
}
