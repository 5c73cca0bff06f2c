/** Writing scalars to the HDF file: the chemistry scalars gathered for a time step, and the scalars added to it one by
    one. */
module HdfSlots {
  import opened Basics
  import opened HdfLayout

  class Root {
    // the grid, from the boundary conditions of its cells
    ghost var ibc: seq<int>
    var nxyz: nat
    var active: seq<nat>
    var natural: seq<int>
    var fArray: seq<real>
    // names of the scalars, those of the chemistry first
    var chemNames: seq<string>
    var scalarNames: seq<string>
    var scalarCount: nat
    // values gathered from the chemistry
    var gathered: seq<real>
    // the open time step: its dataset, the recorded indices and the scalars added
    var printChem: bool
    var fScalarIndex: nat
    var indices: seq<int>
    var dataset: seq<real>
    ghost var labels: seq<string>
    ghost var slots: seq<Option<seq<real>>>
    // the time steps written
    ghost var written: seq<TimeStep>

    ghost predicate Grid()
      reads this
    {
      nxyz == |natural| && |fArray| == |active| && GridOk(ibc, active, natural)
    }

    function Base(): nat
      reads this
    {
      if printChem then scalarCount else 0
    }

    ghost function Current(): TimeStep
      reads this
    {
      TimeStep(indices, Base(), labels)
    }

    /** A time step with scalars is open. */
    ghost predicate Step()
      reads this
    {
      && StepOk(scalarNames, scalarCount, Current()) && |labels| == fScalarIndex
      && |slots| == |indices| && SlotsOk(dataset, slots, |active|)
    }

    ghost predicate Valid()
      reads this
    {
      && Grid() && NamesOk(scalarNames, scalarCount)
      && (forall t :: 0 <= t < |written| ==> StepOk(scalarNames, scalarCount, written[t]))
      && (indices != [] ==> Step())
    }

    /** A file for the chemistry scalars `names`. */
    constructor (names: seq<string>)
      ensures scalarNames == chemNames == names && scalarCount == |names|
      ensures active == [] && natural == [] && indices == [] && written == []
    {
      chemNames, scalarNames, scalarCount := names, names, |names|;
      nxyz, active, natural, fArray, gathered := 0, [], [], [], [];
      printChem, fScalarIndex, indices, dataset := false, 0, [], [];
      ibc, labels, slots, written := [], [], [], [];
    }

    /** Lists the active cells; false if there are none. */
    method WriteGrid(nx: nat, ny: nat, nz: nat, codes: seq<int>) returns (ok: bool)
      requires active == [] && natural == [] && indices == [] && written == []
      requires |codes| == nx * ny * nz && chemNames == scalarNames
      modifies this
      ensures ibc == codes && Valid() && scalarNames == old(scalarNames) && indices == [] && written == []
      ensures nxyz == |codes| && scalarCount == |scalarNames|
      ensures ok <==> exists i :: 0 <= i < |codes| && codes[i] >= 0
    {
      nxyz := nx * ny * nz;
      ibc := codes;
      ok := ListActive(codes);
      fArray := seq(|active|, _ => 0.0);
      scalarCount := |chemNames|;
    }

    method ListActive(codes: seq<int>) returns (ok: bool)
      requires active == [] && natural == [] && |codes| == nxyz
      modifies `natural, `active
      ensures |natural| == nxyz && GridOk(codes, active, natural)
      ensures ok <==> exists i :: 0 <= i < |codes| && codes[i] >= 0
    {
      var activeCount := 0;
      for i := 0 to nxyz
        invariant |natural| == i && activeCount == |active| && GridOk(codes[..i], active, natural)
        invariant active == [] <==> forall k :: 0 <= k < i ==> codes[k] < 0
        modifies `natural, `active
      {
        GridStep(codes, i, active, natural);
        if codes[i] >= 0 {
          natural := natural + [activeCount];
          active := active + [i];
          activeCount := activeCount + 1;
        } else {
          natural := natural + [-1];
        }
      }
      assert codes[..nxyz] == codes;
      ok := active != [];
    }

    /** Makes room for the chemistry scalars, all cells inactive. */
    method BeginChemistry()
      requires Valid()
      modifies `gathered
      ensures scalarCount == 0 ==> gathered == old(gathered)
      ensures scalarCount > 0 ==> gathered == seq(|active| * scalarCount, _ => INACTIVE_CELL_VALUE)
    {
      if scalarCount == 0 {
        return;
      }
      var count := |active| * scalarCount;
      gathered := [];
      for i := 0 to count
        invariant gathered == seq(i, _ => INACTIVE_CELL_VALUE)
        modifies `gathered
      {
        gathered := gathered + [INACTIVE_CELL_VALUE];
      }
    }

    /** Gathers one column of results. */
    method FillColumn(d: seq<real>, icol: nat)
      requires Valid() && (icol + 1) * nxyz <= |d| && (icol + 1) * |active| <= |gathered|
      modifies `gathered
      ensures gathered == Write(old(gathered), icol, |active|, Chemistry(active, nxyz, d, icol))
    {
      ghost var was := gathered;
      var at, from := icol * |active|, icol * nxyz;
      assert at + |active| == (icol + 1) * |active| && from + nxyz == (icol + 1) * nxyz;
      FillRows(d, at, from);
      FillEnds(was, gathered, active, nxyz, d, icol);
    }

    /** The column that lies from `from` on goes to the places from `at` on. */
    method FillRows(d: seq<real>, at: nat, from: nat)
      requires Grid() && at + |active| <= |gathered| && from + nxyz <= |d|
      modifies `gathered
      ensures PartFilled(old(gathered), gathered, active, nxyz, d, at, from, nxyz)
    {
      for irow := 0 to nxyz
        invariant PartFilled(old(gathered), gathered, active, nxyz, d, at, from, irow)
        modifies `gathered
      {
        FillStep(ibc, natural, old(gathered), gathered, active, nxyz, d, at, from, irow);
        var iactive := natural[irow];
        if iactive >= 0 {
          gathered := gathered[at + iactive := d[from + irow]];
        }
      }
    }

    /** Gathers the results of the chemistry, column by column: value d[c * nxyz + active[a]] goes to place
        c * |active| + a. */
    method FillHyperSlab(d: seq<real>, columns: nat)
      requires Valid() && |d| == nxyz * columns && columns * |active| <= |gathered|
      modifies `gathered
      ensures |gathered| == |old(gathered)|
      ensures forall c: nat :: c < columns ==> Filled(gathered, active, nxyz, d, c)
      ensures forall s: nat :: columns <= s ==> SameSlab(gathered, old(gathered), s, |active|)
    {
      ghost var n, start := |active|, gathered;
      for icol := 0 to columns
        invariant |gathered| == |start|
        invariant forall c: nat :: c < icol ==> Filled(gathered, active, nxyz, d, c)
        invariant forall s: nat :: icol <= s ==> SameSlab(gathered, start, s, n)
        modifies `gathered
      {
        SlotFits(icol, columns, n);
        SlotFits(icol, columns, nxyz);
        ghost var was := gathered;
        FillColumn(d, icol);
        FilledMore(was, gathered, active, nxyz, d, icol, start);
      }
    }

    /** Opens a time step with room for the chemistry scalars, if they are printed, and fCount others; without any
        scalar or vector there is none. */
    method OpenTimeStep(chem: bool, velocities: bool, fCount: nat) returns (ok: bool)
      requires Valid() && indices == []
      modifies `printChem, `indices, `dataset, `fScalarIndex, `labels, `slots
      ensures Valid() && printChem == chem
      ensures ok == (Base() + fCount > 0 || velocities)
      ensures |indices| == Base() + fCount && (ok ==> fScalarIndex == 0)
      ensures indices != [] ==> labels == [] && forall s :: 0 <= s < |slots| ==> slots[s] == None
    {
      printChem := chem;
      var count := (if printChem then scalarCount else 0) + fCount;
      if count == 0 && !velocities {
        return false;
      }
      if count != 0 {
        MakeRoom(count);
      }
      fScalarIndex := 0;
      ok := true;
    }

    /** Room for `count` scalars, those of the chemistry at their own indices. */
    method MakeRoom(count: nat)
      requires Base() <= count && scalarCount <= |scalarNames|
      modifies `indices, `dataset, `labels, `slots
      ensures |indices| == |slots| == count && labels == [] && forall s :: 0 <= s < |slots| ==> slots[s] == None
      ensures StepOk(scalarNames, scalarCount, Current()) && SlotsOk(dataset, slots, |active|)
    {
      indices := seq(count, _ => 0);
      if printChem {
        for i := 0 to scalarCount
          invariant |indices| == count && forall c :: 0 <= c < i ==> indices[c] == c
          modifies `indices
        {
          indices := indices[i := i];
        }
      }
      dataset := seq(|active| * count, _ => 0.0);
      slots := seq(count, _ => None);
      labels := [];
    }

    /** Writes the gathered chemistry scalars to the dataset, from its start; an error if there is no dataset or they do
        not lie within it. */
    method WriteChemistry() returns (ok: bool)
      requires Valid() && active != [] && scalarCount > 0 && |gathered| == |active| * scalarCount
      modifies `dataset, `slots
      ensures Valid() && ok == (scalarCount <= |indices|)
      ensures ok ==> slots == ChemistrySlots(old(slots), gathered, scalarCount, |active|)
      ensures !ok ==> slots == old(slots) && dataset == old(dataset)
    {
      FitsByCount(|active|, scalarCount, |indices|);
      var size := |active| * scalarCount;
      if |indices| == 0 || size > |dataset| {
        return false;
      }
      WriteFront(dataset, slots, |active|, gathered, scalarCount);
      dataset := gathered + dataset[size..];
      slots := ChemistrySlots(slots, gathered, scalarCount, |active|);
      ok := true;
    }

    /** Finds a scalar among those added after the chemistry scalars, or adds it. */
    method FindName(name: string) returns (i: nat)
      requires NamesOk(scalarNames, scalarCount)
      modifies `scalarNames
      ensures NamesOk(scalarNames, scalarCount) && old(scalarNames) <= scalarNames
      ensures scalarCount <= i < |scalarNames| && scalarNames[i] == name
      ensures (exists k :: scalarCount <= k < |old(scalarNames)| && old(scalarNames)[k] == name) <==>
                scalarNames == old(scalarNames)
    {
      i := scalarCount;
      while i < |scalarNames|
        invariant scalarCount <= i <= |scalarNames|
        invariant forall k :: scalarCount <= k < i ==> scalarNames[k] != name
      {
        if scalarNames[i] == name {
          break;
        }
        i := i + 1;
      }
      if i == |scalarNames| {
        scalarNames := scalarNames + [name];
      }
    }

    /** Adds a scalar to the open time step: its index goes to the next place after the chemistry's, and its values to
        the slot of that place. */
    method PrintArray(values: seq<real>, frac: seq<real>, cnv: real, name: string)
      requires Valid() && Base() + fScalarIndex < |indices| && |values| == |frac| == nxyz
      modifies `scalarNames, `indices, `fArray, `dataset, `fScalarIndex, `labels, `slots
      ensures Valid() && |indices| == |old(indices)| && old(scalarNames) <= scalarNames
      ensures fScalarIndex == old(fScalarIndex) + 1 && labels == old(labels) + [name]
      ensures slots == old(slots)[Base() + old(fScalarIndex) := Some(Column(active, values, frac, cnv))]
      ensures ScalarIn(dataset, Base() + old(fScalarIndex), active, values, frac, cnv)
    {
      RecordIndex(name);
      WriteScalar(values, frac, cnv, Base() + fScalarIndex);
      fScalarIndex := fScalarIndex + 1;
    }

    /** Gathers the values of a scalar and writes them to its slot. */
    method WriteScalar(values: seq<real>, frac: seq<real>, cnv: real, place: nat)
      requires Grid() && |values| == |frac| == nxyz && SlotsOk(dataset, slots, |active|) && place < |slots|
      modifies `fArray, `dataset, `slots
      ensures |fArray| == |active| && SlotsOk(dataset, slots, |active|)
      ensures slots == old(slots)[place := Some(Column(active, values, frac, cnv))]
      ensures ScalarIn(dataset, place, active, values, frac, cnv)
    {
      GatherColumn(values, frac, cnv);
      WriteArray(place);
      ScalarInSlot(dataset, slots, place, active, values, frac, cnv);
    }

    /** Writes the gathered values of a scalar to its slot. */
    method WriteArray(place: nat)
      requires SlotsOk(dataset, slots, |active|) && place < |slots| && |fArray| == |active|
      modifies `dataset, `slots
      ensures SlotsOk(dataset, slots, |active|) && slots == old(slots)[place := Some(fArray)]
    {
      WriteSlots(dataset, slots, |active|, place, fArray);
      dataset := Write(dataset, place, |active|, fArray);
      slots := slots[place := Some(fArray)];
    }

    /** Records the index of a scalar at the next place of the open time step. */
    method RecordIndex(name: string)
      requires NamesOk(scalarNames, scalarCount) && StepOk(scalarNames, scalarCount, Current())
      requires |labels| == fScalarIndex && Base() + fScalarIndex < |indices|
      requires forall t :: 0 <= t < |written| ==> StepOk(scalarNames, scalarCount, written[t])
      modifies `scalarNames, `indices, `labels
      ensures NamesOk(scalarNames, scalarCount) && StepOk(scalarNames, scalarCount, Current())
      ensures forall t :: 0 <= t < |written| ==> StepOk(scalarNames, scalarCount, written[t])
      ensures old(scalarNames) <= scalarNames && |indices| == |old(indices)| && labels == old(labels) + [name]
    {
      ghost var names, step := scalarNames, Current();
      var i := FindName(name);
      StepStays(names, scalarNames, scalarCount, step);
      AllStay(names, scalarNames, scalarCount, written);
      StepGrows(scalarNames, scalarCount, step, i, name);
      indices := indices[Base() + fScalarIndex := i];
      labels := labels + [name];
    }

    /** The values of a scalar at the active cells. */
    method GatherColumn(values: seq<real>, frac: seq<real>, cnv: real)
      requires Grid() && |values| == |frac| == nxyz
      modifies `fArray
      ensures fArray == Column(active, values, frac, cnv)
      ensures forall a :: 0 <= a < |active| ==>
                fArray[a] == if frac[active[a]] > 0.0001 then values[active[a]] * cnv else 1.0e30
    {
      for i := 0 to |active|
        invariant |fArray| == |active|
        invariant forall a :: 0 <= a < i ==> fArray[a] == Column(active, values, frac, cnv)[a]
        modifies `fArray
      {
        if frac[active[i]] <= 0.0001 {
          fArray := fArray[i := INACTIVE_CELL_VALUE];
        } else {
          fArray := fArray[i := values[active[i]] * cnv];
        }
      }
    }

    /** Writes the recorded indices of the time step and closes it. */
    method CloseTimeStep()
      requires Valid()
      modifies `indices, `written
      ensures Valid() && indices == []
      ensures written == if old(indices) != [] then old(written) + [old(Current())] else old(written)
    {
      if |indices| > 0 {
        written := written + [Current()];
        indices := [];
      }
    }

    /** Opens a time step and writes the chemistry to it, if there is any, printed or not; an error if it does not fit. */
    method StartTimeStep(r: Request) returns (ok: bool)
      requires Valid() && indices == [] && active != [] && |r.d| == nxyz * scalarCount && Sized(r.Scalars(), nxyz)
      modifies `printChem, `indices, `dataset, `fScalarIndex, `labels, `slots, `gathered
      ensures Valid() && printChem == r.chem
      ensures ok == r.Fits(scalarCount)
      ensures ok ==> Adding(r.d, r.Scalars(), 0)
    {
      var began := OpenTimeStep(r.chem, r.velocities, |r.Scalars()|);
      FitsChemistry(active, nxyz, r.d, scalarCount, Base(), r.Scalars());
      ok := true;
      if scalarCount > 0 {
        ok := FillChemistry(r.d, r.Scalars());
      }
    }

    /** Gathers the results of the chemistry and writes them. */
    method FillChemistry(d: seq<real>, ghost scalars: seq<Scalar>) returns (ok: bool)
      requires Valid() && active != [] && scalarCount > 0 && |d| == nxyz * scalarCount
      requires Fits(active, nxyz, d, Base(), scalars) && |indices| == Base() + |scalars|
      modifies `gathered, `dataset, `slots
      ensures Valid() && ok == (scalarCount <= |indices|)
      ensures ok ==> HoldsUpTo(slots, active, nxyz, d, Base(), scalars, Base())
    {
      BeginChemistry();
      FillHyperSlab(d, scalarCount);
      ghost var before := slots;
      ok := WriteChemistry();
      if ok {
        FirstSlots(active, nxyz, d, before, gathered, scalarCount, Base(), scalars);
      }
    }

    /** k of the scalars have been added: the slots of the printed chemistry and of those scalars hold them. */
    ghost predicate Adding(d: seq<real>, scalars: seq<Scalar>, k: nat)
      reads this
      requires k <= |scalars|
    {
      && |indices| == Base() + |scalars|
      && (indices != [] ==>
            fScalarIndex == k && labels == Names(scalars)[..k]
            && HoldsUpTo(slots, active, nxyz, d, Base(), scalars, Base() + k))
    }

    /** Adds the scalars of a time step, one after the other. */
    method PrintArrays(ghost d: seq<real>, scalars: seq<Scalar>)
      requires Valid() && Adding(d, scalars, 0) && Sized(scalars, nxyz)
      modifies `scalarNames, `indices, `fArray, `dataset, `fScalarIndex, `labels, `slots
      ensures Valid() && old(scalarNames) <= scalarNames && Adding(d, scalars, |scalars|)
    {
      for k := 0 to |scalars|
        invariant Valid() && old(scalarNames) <= scalarNames && Adding(d, scalars, k)
        modifies `scalarNames, `indices, `fArray, `dataset, `fScalarIndex, `labels, `slots
      {
        var s := scalars[k];
        NextSlot(slots, active, nxyz, d, Base(), scalars, k, Base() + k);
        PrintArray(s.values, s.frac, s.cnv, s.name);
      }
    }

    /** One time step, as the flow simulator writes it. If the chemistry fits, the step is recorded with the names of its
        scalars, and in the end every slot holds the scalar of its place: added scalars come after the chemistry. */
    method WriteTimeStep(r: Request) returns (ok: bool)
      requires Valid() && indices == [] && active != [] && |r.d| == nxyz * scalarCount && Sized(r.Scalars(), nxyz)
      modifies this
      ensures Valid() && printChem == r.chem && active == old(active) && nxyz == old(nxyz)
      ensures old(scalarNames) <= scalarNames && scalarCount == old(scalarCount)
      ensures ok == (scalarCount == 0 || r.chem || scalarCount <= |r.Scalars()|)
      ensures !ok || Base() + |r.Scalars()| == 0 ==> written == old(written)
      ensures ok ==> indices == []
      ensures ok && Base() + |r.Scalars()| > 0 ==>
                && |written| == |old(written)| + 1 && written[..|old(written)|] == old(written)
                && Recorded(written[|written| - 1], Base(), Names(r.Scalars()))
                && Complete(dataset, active, nxyz, r.d, Base(), r.Scalars())
    {
      ok := StartTimeStep(r);
      if ok {
        EndTimeStep(r.d, r.Scalars());
      }
    }

    /** Adds the scalars of the open time step and closes it. */
    method EndTimeStep(ghost d: seq<real>, scalars: seq<Scalar>)
      requires Valid() && Adding(d, scalars, 0) && Sized(scalars, nxyz)
      modifies `scalarNames, `indices, `fArray, `dataset, `fScalarIndex, `labels, `slots, `written
      ensures Valid() && indices == [] && old(scalarNames) <= scalarNames
      ensures Base() + |scalars| == 0 ==> written == old(written)
      ensures Base() + |scalars| > 0 ==>
                && |written| == |old(written)| + 1 && written[..|old(written)|] == old(written)
                && Recorded(written[|written| - 1], Base(), Names(scalars))
                && Complete(dataset, active, nxyz, d, Base(), scalars)
    {
      PrintArrays(d, scalars);
      if indices != [] { CompleteSlots(dataset, slots, active, nxyz, d, Base(), scalars); }
      CloseTimeStep();
    }

    /** A time step that prints nothing writes nothing. */
    method WriteIfPrinted(r: Request) returns (ok: bool)
      requires Valid() && indices == [] && active != [] && |r.d| == nxyz * scalarCount && Sized(r.Scalars(), nxyz)
      modifies this
      ensures Valid() && active == old(active) && nxyz == old(nxyz) && scalarCount == old(scalarCount)
      ensures ok == !Fails(r, scalarCount) && (ok ==> indices == [])
      ensures !ok || !HasDataset(r, scalarCount) ==> written == old(written)
      ensures ok && HasDataset(r, scalarCount) ==>
                && |written| == |old(written)| + 1 && written == old(written) + [written[|written| - 1]]
                && Recorded(written[|written| - 1], r.Base(scalarCount), Names(r.Scalars()))
    {
      ok := true;
      if r.Printed() {
        ok := WriteTimeStep(r);
      }
    }

    /** A run of time steps, up to the first in which the chemistry does not fit: the error ends the run. A time step that
        prints nothing writes nothing. */
    method WriteTimeSteps(steps: seq<Request>) returns (done: nat)
      requires Valid() && indices == [] && active != []
      requires forall t :: 0 <= t < |steps| ==> |steps[t].d| == nxyz * scalarCount && Sized(steps[t].Scalars(), nxyz)
      modifies this
      ensures Valid() && scalarCount == old(scalarCount) && done <= |steps|
      ensures forall t :: 0 <= t < done ==> !Fails(steps[t], scalarCount)
      ensures done < |steps| ==> Fails(steps[done], scalarCount)
      ensures |old(written)| <= |written| && written[..|old(written)|] == old(written)
      ensures RecordedRun(written[|old(written)|..], WithDataset(steps[..done], scalarCount), scalarCount)
      ensures forall i, j :: 0 <= i < |written| && 0 <= j < |written| ==> Consistent(written[i], written[j])
    {
      ghost var before, count := written, scalarCount;
      ghost var added: seq<TimeStep> := [];
      done := 0;
      while done < |steps|
        invariant done <= |steps| && Valid() && indices == [] && active == old(active) && nxyz == old(nxyz) && scalarCount == count
        invariant forall t :: 0 <= t < done ==> !Fails(steps[t], count)
        invariant written == before + added && RecordedRun(added, WithDataset(steps[..done], count), count)
      {
        var ok := WriteIfPrinted(steps[done]);
        if !ok {
          break;
        }
        if HasDataset(steps[done], count) {
          RecordedMore(added, WithDataset(steps[..done], count), count, written[|written| - 1], steps[done]);
          added := added + [written[|written| - 1]];
        }
        assert steps[..done + 1][..done] == steps[..done];
        done := done + 1;
      }
      AllConsistent(scalarNames, scalarCount, written);
    }
  }

  /** One cell and two columns of chemistry: a step that prints the chemistry and the head is written, a step that prints
      the head alone after it is not. */
  method HeadsAlone() returns (both: bool, heads: bool)
    ensures both && !heads
  {
    var file := new Root(["Ca", "Cl"]);
    var ok := file.WriteGrid(1, 1, 1, [0]);
    assert [0][0] >= 0;
    assert file.active != [];
    var head := Scalar([5.0], [1.0], 1.0, "Fluid Head(m)");
    both := file.WriteTimeStep(Request(true, [0.1, 0.2], false, Some(head), []));
    heads := file.WriteTimeStep(Request(false, [0.1, 0.2], false, Some(head), []));
  }
}
