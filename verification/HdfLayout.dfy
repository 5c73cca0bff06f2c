/** The layout of scalars in the HDF file: the active cells, the slots of a dataset, and the indices and names recorded
    for a time step. */
module HdfLayout {
  import opened Basics

  const INACTIVE_CELL_VALUE := 1.0e30

  // ----- active cells

  /** The two indices are inverse to each other, and the active cells are listed in order. */
  ghost predicate GridOk(ibc: seq<int>, active: seq<nat>, natural: seq<int>) {
    && |natural| == |ibc|
    && (forall i :: 0 <= i < |ibc| ==>
          if ibc[i] >= 0 then 0 <= natural[i] < |active| && active[natural[i]] == i else natural[i] == -1)
    && (forall a :: 0 <= a < |active| ==> active[a] < |natural| && natural[active[a]] == a)
    && (forall a, b :: 0 <= a < b < |active| ==> active[a] < active[b])
  }

  lemma GridStep(codes: seq<int>, i: nat, active: seq<nat>, natural: seq<int>)
    requires i < |codes| && GridOk(codes[..i], active, natural)
    ensures if codes[i] >= 0 then GridOk(codes[..i + 1], active + [i], natural + [|active|])
            else GridOk(codes[..i + 1], active, natural + [-1])
  {
    assert codes[..i + 1] == codes[..i] + [codes[i]];
  }

  // ----- slots of one scalar each, of n values

  /** Slot s of a dataset. */
  function Slab(data: seq<real>, s: nat, n: nat): seq<real>
    requires (s + 1) * n <= |data|
  {
    assert s * n <= (s + 1) * n;
    data[s * n..(s + 1) * n]
  }

  lemma SlotFits(s: nat, count: nat, n: nat)
    requires s < count
    ensures s * n + n == (s + 1) * n <= count * n
  {
    MulMono(s + 1, count, n);
  }

  /** Writing the values of slot s. */
  function Write(data: seq<real>, s: nat, n: nat, values: seq<real>): (r: seq<real>)
    requires |values| == n && (s + 1) * n <= |data|
    ensures |r| == |data|
  {
    assert s * n + n == (s + 1) * n;
    data[..s * n] + values + data[(s + 1) * n..]
  }

  /** Slots do not overlap: a write changes its own slot and no other. */
  lemma WriteSlab(data: seq<real>, s: nat, n: nat, values: seq<real>, t: nat)
    requires |values| == n && (s + 1) * n <= |data| && (t + 1) * n <= |data|
    ensures Slab(Write(data, s, n, values), t, n) == if s == t then values else Slab(data, t, n)
  {
    var r := Write(data, s, n, values);
    assert s * n + n == (s + 1) * n && t * n + n == (t + 1) * n;
    if t < s {
      MulMono(t + 1, s, n);
      assert r[..s * n] == data[..s * n];
      assert r[t * n..(t + 1) * n] == r[..s * n][t * n..(t + 1) * n];
    } else if s < t {
      MulMono(s + 1, t, n);
      assert r[(s + 1) * n..] == data[(s + 1) * n..];
      assert r[t * n..(t + 1) * n] == r[(s + 1) * n..][t * n - (s + 1) * n..(t + 1) * n - (s + 1) * n];
    }
  }

  /** The slots written so far hold what was written to them. */
  ghost predicate SlotsOk(data: seq<real>, slots: seq<Option<seq<real>>>, n: nat) {
    && |data| == |slots| * n
    && forall s: nat :: s < |slots| ==> SlotOk(data, slots, n, s)
  }

  ghost predicate SlotOk(data: seq<real>, slots: seq<Option<seq<real>>>, n: nat, s: nat)
    requires s < |slots|
  {
    slots[s].Some? ==> |slots[s].value| == n && (s + 1) * n <= |data| && Slab(data, s, n) == slots[s].value
  }

  lemma WriteSlots(data: seq<real>, slots: seq<Option<seq<real>>>, n: nat, s: nat, values: seq<real>)
    requires SlotsOk(data, slots, n) && s < |slots| && |values| == n
    ensures (s + 1) * n <= |data| && SlotsOk(Write(data, s, n, values), slots[s := Some(values)], n)
  {
    SlotFits(s, |slots|, n);
    var r, now := Write(data, s, n, values), slots[s := Some(values)];
    forall t: nat | t < |slots|
      ensures SlotOk(r, now, n, t)
    {
      SlotFits(t, |slots|, n);
      assert SlotOk(data, slots, n, t);
      WriteSlab(data, s, n, values, t);
    }
  }

  // ----- names and indices

  /** No scalar added after the chemistry scalars has two names. */
  ghost predicate NamesOk(names: seq<string>, count: nat) {
    && count <= |names|
    && forall i, j :: count <= i < j < |names| ==> names[i] != names[j]
  }

  /** A time step with its recorded indices, the number of chemistry slots and the names of the scalars added to it. */
  datatype TimeStep = TimeStep(indices: seq<int>, base: nat, labels: seq<string>)

  /** The recorded indices name the scalars in the slots. */
  ghost predicate StepOk(names: seq<string>, count: nat, step: TimeStep) {
    && count <= |names| && (step.base == 0 || step.base == count)
    && step.base + |step.labels| <= |step.indices|
    && (forall c :: 0 <= c < step.base ==> step.indices[c] == c)
    && forall k: nat :: k < |step.labels| ==> NamedOk(names, count, step, k)
  }

  ghost predicate NamedOk(names: seq<string>, count: nat, step: TimeStep, k: nat) {
    && k < |step.labels| && step.base + k < |step.indices|
    && count <= step.indices[step.base + k] < |names|
    && names[step.indices[step.base + k]] == step.labels[k]
  }

  /** Names are only ever added, so recorded indices keep their meaning. */
  lemma StepStays(names: seq<string>, more: seq<string>, count: nat, step: TimeStep)
    requires StepOk(names, count, step) && names <= more
    ensures StepOk(more, count, step)
  {
    forall k: nat | k < |step.labels|
      ensures NamedOk(more, count, step, k)
    {
      assert NamedOk(names, count, step, k);
    }
  }

  lemma AllStay(names: seq<string>, more: seq<string>, count: nat, steps: seq<TimeStep>)
    requires names <= more && forall t :: 0 <= t < |steps| ==> StepOk(names, count, steps[t])
    ensures forall t :: 0 <= t < |steps| ==> StepOk(more, count, steps[t])
  {
    forall t | 0 <= t < |steps|
      ensures StepOk(more, count, steps[t])
    {
      StepStays(names, more, count, steps[t]);
    }
  }

  /** The same scalar has the same index in every time step. */
  lemma SameIndex(names: seq<string>, count: nat, one: TimeStep, other: TimeStep, k: nat, m: nat)
    requires NamesOk(names, count) && StepOk(names, count, one) && StepOk(names, count, other)
    requires k < |one.labels| && m < |other.labels|
    ensures one.labels[k] == other.labels[m] <==> one.indices[one.base + k] == other.indices[other.base + m]
  {
    assert NamedOk(names, count, one, k) && NamedOk(names, count, other, m);
  }

  /** Recording one more scalar. */
  lemma StepGrows(names: seq<string>, count: nat, step: TimeStep, i: nat, name: string)
    requires StepOk(names, count, step) && step.base + |step.labels| < |step.indices|
    requires count <= i < |names| && names[i] == name
    ensures StepOk(names, count,
              TimeStep(step.indices[step.base + |step.labels| := i], step.base, step.labels + [name]))
  {
    var next := TimeStep(step.indices[step.base + |step.labels| := i], step.base, step.labels + [name]);
    forall k: nat | k < |next.labels|
      ensures NamedOk(names, count, next, k)
    {
      assert k < |step.labels| ==> NamedOk(names, count, step, k);
    }
  }

  // ----- values of one scalar

  /** A scalar added to a time step: its values at the active cells, where the cell is not dry. */
  function Column(active: seq<nat>, values: seq<real>, frac: seq<real>, cnv: real): (r: seq<real>)
    requires |values| == |frac| && forall a :: 0 <= a < |active| ==> active[a] < |values|
    ensures |r| == |active|
  {
    seq(|active|, a requires 0 <= a < |active| =>
      if frac[active[a]] <= 0.0001 then INACTIVE_CELL_VALUE else values[active[a]] * cnv)
  }

  /** Column c of the chemistry results, which are listed cell by cell for each column, at the active cells. */
  function Chemistry(active: seq<nat>, nxyz: nat, d: seq<real>, c: nat): (r: seq<real>)
    requires (c + 1) * nxyz <= |d| && forall a :: 0 <= a < |active| ==> active[a] < nxyz
    ensures |r| == |active|
  {
    assert c * nxyz + nxyz == (c + 1) * nxyz;
    seq(|active|, a requires 0 <= a < |active| => d[c * nxyz + active[a]])
  }

  /** Column c of the results is gathered in slot c. */
  ghost predicate Filled(values: seq<real>, active: seq<nat>, nxyz: nat, d: seq<real>, c: nat) {
    && (c + 1) * |active| <= |values| && (c + 1) * nxyz <= |d|
    && (forall a :: 0 <= a < |active| ==> active[a] < nxyz)
    && Slab(values, c, |active|) == Chemistry(active, nxyz, d, c)
  }

  ghost predicate SameSlab(a: seq<real>, b: seq<real>, s: nat, n: nat) {
    |a| == |b| && ((s + 1) * n <= |a| ==> Slab(a, s, n) == Slab(b, s, n))
  }

  /** Where a gathered value lies. */
  lemma FilledAt(values: seq<real>, active: seq<nat>, nxyz: nat, d: seq<real>, c: nat, a: nat)
    requires Filled(values, active, nxyz, d, c) && a < |active|
    ensures c * nxyz + active[a] < |d| && c * |active| + a < |values|
    ensures values[c * |active| + a] == d[c * nxyz + active[a]]
  {
    assert (c + 1) * nxyz == c * nxyz + nxyz && (c + 1) * |active| == c * |active| + |active|;
    assert Slab(values, c, |active|)[a] == Chemistry(active, nxyz, d, c)[a];
  }

  /** Gathering one more column. */
  lemma FilledMore(was: seq<real>, now: seq<real>, active: seq<nat>, nxyz: nat, d: seq<real>, icol: nat, start: seq<real>)
    requires forall a :: 0 <= a < |active| ==> active[a] < nxyz
    requires (icol + 1) * |active| <= |was| && (icol + 1) * nxyz <= |d| && |was| == |start|
    requires now == Write(was, icol, |active|, Chemistry(active, nxyz, d, icol))
    requires forall c: nat :: c < icol ==> Filled(was, active, nxyz, d, c)
    requires forall s: nat :: icol <= s ==> SameSlab(was, start, s, |active|)
    ensures forall c: nat :: c < icol + 1 ==> Filled(now, active, nxyz, d, c)
    ensures forall s: nat :: icol + 1 <= s ==> SameSlab(now, start, s, |active|)
  {
    var n, column := |active|, Chemistry(active, nxyz, d, icol);
    forall c: nat | c < icol + 1
      ensures Filled(now, active, nxyz, d, c)
    {
      assert c < icol ==> Filled(was, active, nxyz, d, c);
      WriteSlab(was, icol, n, column, c);
    }
    forall s: nat | icol + 1 <= s
      ensures SameSlab(now, start, s, n)
    {
      assert SameSlab(was, start, s, n);
      if (s + 1) * n <= |was| {
        WriteSlab(was, icol, n, column, s);
      }
    }
  }

  /** The slot from `at` on has the values of the first irow cells, which lie from `from` on, as far as they are active;
      the rest is as it was. */
  ghost predicate PartFilled(was: seq<real>, now: seq<real>, active: seq<nat>, nxyz: nat, d: seq<real>, at: nat, from: nat,
                             irow: nat) {
    && |now| == |was| && at + |active| <= |was| && from + nxyz <= |d|
    && (forall p :: 0 <= p < |was| && !(at <= p < at + |active|) ==> now[p] == was[p])
    && (forall a :: 0 <= a < |active| ==> active[a] < nxyz && (active[a] < irow ==> now[at + a] == d[from + active[a]]))
  }

  lemma FillStep(ibc: seq<int>, natural: seq<int>, was: seq<real>, now: seq<real>, active: seq<nat>, nxyz: nat, d: seq<real>,
                 at: nat, from: nat, irow: nat)
    requires GridOk(ibc, active, natural) && irow < nxyz == |natural|
    requires PartFilled(was, now, active, nxyz, d, at, from, irow)
    ensures natural[irow] < |active|
    ensures PartFilled(was, if natural[irow] >= 0 then now[at + natural[irow] := d[from + irow]] else now,
                       active, nxyz, d, at, from, irow + 1)
  {
    assert if ibc[irow] >= 0 then active[natural[irow]] == irow else natural[irow] == -1;
    assert forall a :: 0 <= a < |active| && active[a] == irow ==> natural[irow] == a;
  }

  lemma FillEnds(was: seq<real>, now: seq<real>, active: seq<nat>, nxyz: nat, d: seq<real>, icol: nat)
    requires PartFilled(was, now, active, nxyz, d, icol * |active|, icol * nxyz, nxyz)
    requires (icol + 1) * nxyz <= |d| && (icol + 1) * |active| <= |was|
    ensures now == Write(was, icol, |active|, Chemistry(active, nxyz, d, icol))
  {
    assert icol * |active| + |active| == (icol + 1) * |active| && icol * nxyz + nxyz == (icol + 1) * nxyz;
  }

  /** The first `count` slots hold the slots of `values`. */
  ghost function ChemistrySlots(slots: seq<Option<seq<real>>>, values: seq<real>, count: nat, n: nat)
    : (r: seq<Option<seq<real>>>)
    requires |values| == n * count
    ensures |r| == |slots|
  {
    seq(|slots|, s requires 0 <= s < |slots| =>
      if s < count then SlotFits(s, count, n); Some(Slab(values, s, n)) else slots[s])
  }

  /** Writing the first `count` slots at once changes no other. */
  lemma WriteFront(data: seq<real>, slots: seq<Option<seq<real>>>, n: nat, values: seq<real>, count: nat)
    requires SlotsOk(data, slots, n) && |values| == n * count && count <= |slots|
    ensures n * count <= |data|
    ensures SlotsOk(values + data[n * count..], ChemistrySlots(slots, values, count, n), n)
  {
    MulMono(count, |slots|, n);
    var r, now := values + data[n * count..], ChemistrySlots(slots, values, count, n);
    forall s: nat | s < |slots|
      ensures SlotOk(r, now, n, s)
    {
      SlotFits(s, |slots|, n);
      assert SlotOk(data, slots, n, s);
      if s < count {
        SlotFits(s, count, n);
        assert Slab(r, s, n) == Slab(values, s, n);
      } else {
        MulMono(count, s, n);
        assert Slab(r, s, n) == Slab(data, s, n);
      }
    }
  }

  /** A scalar to be added to a time step. */
  datatype Scalar = Scalar(values: seq<real>, frac: seq<real>, cnv: real, name: string)

  ghost predicate Sized(scalars: seq<Scalar>, nxyz: nat) {
    forall k :: 0 <= k < |scalars| ==> |scalars[k].values| == |scalars[k].frac| == nxyz
  }

  function Names(scalars: seq<Scalar>): seq<string> {
    seq(|scalars|, k requires 0 <= k < |scalars| => scalars[k].name)
  }

  /** A recorded step has one index per slot, and a name for every scalar added to it. */
  ghost predicate Recorded(step: TimeStep, base: nat, names: seq<string>) {
    step.base == base && step.labels == names && |step.indices| == base + |names|
  }

  ghost predicate Fits(active: seq<nat>, nxyz: nat, d: seq<real>, base: nat, scalars: seq<Scalar>) {
    && (forall a :: 0 <= a < |active| ==> active[a] < nxyz)
    && Sized(scalars, nxyz) && forall c: nat :: c < base ==> FitsColumn(nxyz, d, c)
  }

  ghost predicate FitsColumn(nxyz: nat, d: seq<real>, c: nat) {
    (c + 1) * nxyz <= |d|
  }

  /** What slot i of a time step is to hold in the end: the chemistry that is printed, then the added scalars. */
  ghost function SlotOf(active: seq<nat>, nxyz: nat, d: seq<real>, base: nat, scalars: seq<Scalar>, i: nat): seq<real>
    requires Fits(active, nxyz, d, base, scalars) && i < base + |scalars|
  {
    if i < base then assert FitsColumn(nxyz, d, i); Chemistry(active, nxyz, d, i)
    else Column(active, scalars[i - base].values, scalars[i - base].frac, scalars[i - base].cnv)
  }

  /** The first m slots hold what they are to hold. */
  ghost predicate HoldsUpTo(slots: seq<Option<seq<real>>>, active: seq<nat>, nxyz: nat, d: seq<real>, base: nat,
                            scalars: seq<Scalar>, m: nat)
  {
    && Fits(active, nxyz, d, base, scalars) && m <= |slots| == base + |scalars|
    && forall i: nat :: i < m ==> slots[i] == Some(SlotOf(active, nxyz, d, base, scalars, i))
  }

  lemma NextSlot(slots: seq<Option<seq<real>>>, active: seq<nat>, nxyz: nat, d: seq<real>, base: nat, scalars: seq<Scalar>,
                 k: nat, at: nat)
    requires k < |scalars| && at == base + k && HoldsUpTo(slots, active, nxyz, d, base, scalars, at)
    ensures var column := Column(active, scalars[k].values, scalars[k].frac, scalars[k].cnv);
            HoldsUpTo(slots[at := Some(column)], active, nxyz, d, base, scalars, at + 1)
    ensures Names(scalars)[..k + 1] == Names(scalars)[..k] + [scalars[k].name]
  {
  }

  lemma FitsChemistry(active: seq<nat>, nxyz: nat, d: seq<real>, count: nat, base: nat, scalars: seq<Scalar>)
    requires |d| == nxyz * count && base <= count && Sized(scalars, nxyz)
    requires forall a :: 0 <= a < |active| ==> active[a] < nxyz
    ensures Fits(active, nxyz, d, base, scalars)
  {
    forall c: nat | c < base
      ensures FitsColumn(nxyz, d, c)
    {
      SlotFits(c, count, nxyz);
    }
  }

  /** Once the chemistry is written, the slots meant for it, if any are, hold its columns. */
  lemma FirstSlots(active: seq<nat>, nxyz: nat, d: seq<real>, before: seq<Option<seq<real>>>, gathered: seq<real>,
                   count: nat, base: nat, scalars: seq<Scalar>)
    requires Fits(active, nxyz, d, base, scalars) && |gathered| == |active| * count && base <= count
    requires |before| == base + |scalars| && forall c: nat :: c < count ==> Filled(gathered, active, nxyz, d, c)
    ensures HoldsUpTo(ChemistrySlots(before, gathered, count, |active|), active, nxyz, d, base, scalars, base)
  {
    var r := ChemistrySlots(before, gathered, count, |active|);
    forall i: nat | i < base
      ensures r[i] == Some(SlotOf(active, nxyz, d, base, scalars, i))
    {
      assert Filled(gathered, active, nxyz, d, i);
    }
  }

  // ----- places of the dataset

  /** The value for active cell a in slot s, of n values each. */
  ghost predicate HasAt(data: seq<real>, s: nat, n: nat, a: nat, value: real) {
    s * n + a < |data| && data[s * n + a] == value
  }

  /** Slot s holds a scalar: for each active cell, in order, the scaled value of that cell, or 1.0e30 where the fraction is
      at most 0.0001. */
  ghost predicate ScalarIn(data: seq<real>, s: nat, active: seq<nat>, values: seq<real>, frac: seq<real>, cnv: real) {
    forall a: nat :: a < |active| ==>
      && active[a] < |values| && active[a] < |frac|
      && HasAt(data, s, |active|, a, if frac[active[a]] > 0.0001 then values[active[a]] * cnv else 1.0e30)
  }

  /** Slot c holds column c of the chemistry: for each active cell, in order, its result. */
  ghost predicate ResultIn(data: seq<real>, c: nat, active: seq<nat>, nxyz: nat, d: seq<real>) {
    forall a: nat :: a < |active| ==>
      c * nxyz + active[a] < |d| && HasAt(data, c, |active|, a, d[c * nxyz + active[a]])
  }

  lemma InSlot(data: seq<real>, slots: seq<Option<seq<real>>>, n: nat, s: nat, a: nat)
    requires SlotsOk(data, slots, n) && s < |slots| && slots[s].Some? && a < n
    ensures |slots[s].value| == n && HasAt(data, s, n, a, slots[s].value[a])
  {
    SlotFits(s, |slots|, n);
    assert SlotOk(data, slots, n, s);
    assert Slab(data, s, n)[a] == data[s * n + a];
  }

  lemma ScalarInSlot(data: seq<real>, slots: seq<Option<seq<real>>>, s: nat, active: seq<nat>, values: seq<real>,
                     frac: seq<real>, cnv: real)
    requires |values| == |frac| && (forall a :: 0 <= a < |active| ==> active[a] < |values|)
    requires SlotsOk(data, slots, |active|) && s < |slots| && slots[s] == Some(Column(active, values, frac, cnv))
    ensures ScalarIn(data, s, active, values, frac, cnv)
  {
    forall a: nat | a < |active|
      ensures HasAt(data, s, |active|, a, if frac[active[a]] > 0.0001 then values[active[a]] * cnv else 1.0e30)
    {
      InSlot(data, slots, |active|, s, a);
    }
  }

  lemma ResultInSlot(data: seq<real>, slots: seq<Option<seq<real>>>, c: nat, active: seq<nat>, nxyz: nat, d: seq<real>)
    requires (c + 1) * nxyz <= |d| && (forall a :: 0 <= a < |active| ==> active[a] < nxyz)
    requires SlotsOk(data, slots, |active|) && c < |slots| && slots[c] == Some(Chemistry(active, nxyz, d, c))
    ensures ResultIn(data, c, active, nxyz, d)
  {
    assert c * nxyz + nxyz == (c + 1) * nxyz;
    forall a: nat | a < |active|
      ensures c * nxyz + active[a] < |d| && HasAt(data, c, |active|, a, d[c * nxyz + active[a]])
    {
      InSlot(data, slots, |active|, c, a);
    }
  }

  /** Every slot of the dataset holds what it is to hold: the chemistry that is printed, then the added scalars. */
  ghost predicate Complete(data: seq<real>, active: seq<nat>, nxyz: nat, d: seq<real>, base: nat, scalars: seq<Scalar>) {
    && |data| == (base + |scalars|) * |active|
    && (forall c: nat :: c < base ==> ResultIn(data, c, active, nxyz, d))
    && (forall k: nat :: k < |scalars| ==>
          ScalarIn(data, base + k, active, scalars[k].values, scalars[k].frac, scalars[k].cnv))
  }

  lemma CompleteSlots(data: seq<real>, slots: seq<Option<seq<real>>>, active: seq<nat>, nxyz: nat, d: seq<real>, base: nat,
                      scalars: seq<Scalar>)
    requires SlotsOk(data, slots, |active|) && HoldsUpTo(slots, active, nxyz, d, base, scalars, |slots|)
    ensures Complete(data, active, nxyz, d, base, scalars)
  {
    forall c: nat | c < base
      ensures ResultIn(data, c, active, nxyz, d)
    {
      assert FitsColumn(nxyz, d, c);
      ResultInSlot(data, slots, c, active, nxyz, d);
    }
    forall k: nat | k < |scalars|
      ensures ScalarIn(data, base + k, active, scalars[k].values, scalars[k].frac, scalars[k].cnv)
    {
      assert slots[base + k] == Some(SlotOf(active, nxyz, d, base, scalars, base + k));
      ScalarInSlot(data, slots, base + k, active, scalars[k].values, scalars[k].frac, scalars[k].cnv);
    }
  }

  // ----- runs of time steps

  /** What is asked of a time step: the results of the chemistry, whether they and the velocities are to be printed, the
      heads if they are, and the media properties if they are due. */
  datatype Request = Request(chem: bool, d: seq<real>, velocities: bool, heads: Option<Scalar>, media: seq<Scalar>) {
    /** The scalars to add. */
    function Scalars(): (r: seq<Scalar>)
      ensures heads.None? ==> r == media
      ensures heads.Some? ==> |r| == |media| + 1 && r[0] == heads.value && r[1..] == media
    {
      (match heads case None => [] case Some(h) => [h]) + media
    }

    /** Something is to be printed; media properties alone are not. */
    predicate Printed() {
      chem || heads.Some? || velocities
    }

    /** The slots for the chemistry, of `count` scalars. */
    function Base(count: nat): nat {
      if chem then count else 0
    }

    /** The chemistry, of `count` scalars, has room in the time step. */
    predicate Fits(count: nat) {
      StepFits(count, chem, |Scalars()|)
    }
  }

  /** Something is to be printed, but not the chemistry, which is left without room. */
  ghost predicate Fails(r: Request, count: nat) {
    (r.heads.Some? || r.velocities) && !r.chem && count > 0 && |r.Scalars()| < count
  }

  /** Something is to be printed, and there is a scalar in it. */
  ghost predicate HasDataset(r: Request, count: nat) {
    (r.chem || r.heads.Some? || r.velocities) && ((r.chem && count > 0) || |r.Scalars()| > 0)
  }

  /** The requests whose time steps have a dataset. */
  ghost function WithDataset(steps: seq<Request>, count: nat): seq<Request> {
    if steps == [] then []
    else
      var r, s := WithDataset(steps[..|steps|-1], count), steps[|steps|-1];
      if HasDataset(s, count) then r + [s] else r
  }

  /** The steps are those of the requests, one by one. */
  ghost predicate RecordedRun(steps: seq<TimeStep>, requests: seq<Request>, count: nat) {
    && |steps| == |requests|
    && forall i :: 0 <= i < |steps| ==> Recorded(steps[i], requests[i].Base(count), Names(requests[i].Scalars()))
  }

  lemma RecordedMore(steps: seq<TimeStep>, requests: seq<Request>, count: nat, step: TimeStep, request: Request)
    requires RecordedRun(steps, requests, count) && Recorded(step, request.Base(count), Names(request.Scalars()))
    ensures RecordedRun(steps + [step], requests + [request], count)
  {
  }

  /** In the two steps the same scalar has the same index, and different scalars have different ones. */
  ghost predicate Consistent(one: TimeStep, other: TimeStep) {
    && one.base + |one.labels| <= |one.indices| && other.base + |other.labels| <= |other.indices|
    && forall k: nat, m: nat :: k < |one.labels| && m < |other.labels| ==>
         (one.labels[k] == other.labels[m] <==> one.indices[one.base + k] == other.indices[other.base + m])
  }

  lemma AllConsistent(names: seq<string>, count: nat, steps: seq<TimeStep>)
    requires NamesOk(names, count) && forall t :: 0 <= t < |steps| ==> StepOk(names, count, steps[t])
    ensures forall i, j :: 0 <= i < |steps| && 0 <= j < |steps| ==> Consistent(steps[i], steps[j])
  {
    forall i, j | 0 <= i < |steps| && 0 <= j < |steps|
      ensures Consistent(steps[i], steps[j])
    {
      forall k: nat, m: nat | k < |steps[i].labels| && m < |steps[j].labels|
        ensures steps[i].labels[k] == steps[j].labels[m] <==>
                  steps[i].indices[steps[i].base + k] == steps[j].indices[steps[j].base + m]
      {
        SameIndex(names, count, steps[i], steps[j], k, m);
      }
    }
  }

  // ----- whether the chemistry has room

  /** The chemistry, n values for each of its `count` scalars, lies within a dataset of so many slots. */
  predicate ChemistryFits(n: nat, count: nat, slots: nat) {
    slots > 0 && n * count <= slots * n
  }

  /** The chemistry has room in a time step with so many added scalars. */
  predicate StepFits(count: nat, chem: bool, added: nat) {
    count == 0 || chem || count <= added
  }

  lemma FitsByCount(n: nat, count: nat, slots: nat)
    requires n > 0 && count > 0
    ensures ChemistryFits(n, count, slots) <==> count <= slots
  {
    if count <= slots {
      MulMono(count, slots, n);
    } else {
      MulMono(slots + 1, count, n);
      assert (slots + 1) * n == slots * n + n;
    }
  }

  /** The chemistry is written from the start of the dataset in every time step, printed or not, but the dataset has slots
      for it only if it is printed: it fits exactly if it is printed or there are as many added scalars. */
  lemma FitsUnlessUnprinted(n: nat, count: nat, chem: bool, added: nat)
    requires n > 0 && count > 0
    ensures ChemistryFits(n, count, (if chem then count else 0) + added) <==> StepFits(count, chem, added)
  {
    FitsByCount(n, count, (if chem then count else 0) + added);
  }

  /** Place p of the dataset is written with the chemistry. */
  ghost predicate InChemistry(n: nat, count: nat, p: nat) {
    p < n * count
  }

  /** Place p of the dataset is written with added scalar k. */
  ghost predicate InAdded(n: nat, base: nat, k: nat, p: nat) {
    (base + k) * n <= p < (base + k) * n + n
  }

  /** The chemistry and the added scalars go to different places exactly if the chemistry is printed or nothing is
      added. */
  lemma ApartUnlessUnprinted(n: nat, count: nat, chem: bool, base: nat, added: nat)
    requires n > 0 && count > 0 && base == if chem then count else 0
    ensures (forall k: nat, p: nat :: k < added && InAdded(n, base, k, p) ==> !InChemistry(n, count, p)) <==> chem || added == 0
  {
    if chem {
      forall k: nat, p: nat | k < added && InAdded(n, base, k, p)
        ensures !InChemistry(n, count, p)
      {
        MulMono(count, base + k, n);
      }
    } else if added > 0 {
      MulMono(1, count, n);
      assert InAdded(n, base, 0, 0) && InChemistry(n, count, 0);
    }
  }

  /** A time step that prints heads alone, with two columns of chemistry: the dataset has one slot, the chemistry needs two,
      and the slot is that of the heads. */
  lemma HeadsOnlyTwoColumns(n: nat)
    requires n > 0
    ensures !StepFits(2, false, 1) && !ChemistryFits(n, 2, 1)
    ensures forall p: nat :: InAdded(n, 0, 0, p) ==> InChemistry(n, 2, p)
  {
    FitsUnlessUnprinted(n, 2, false, 1);
  }
}
