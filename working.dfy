/** The per-galaxy template stage of the flattened-history pipeline
    (init_templates_working in sector_cext.c). The integrated templates are
    copied into the ready buffer; with dust, the galaxy's dust is applied to
    it. In spectrum mode (no filters) the ready buffer is moved to the
    observer frame when observed-frame output is wanted and transposed so
    that metallicity is the last dimension; in filter mode every template is
    integrated through every filter instead. Finally the result is
    interpolated along metallicity into the working buffer, at the centre of
    every metallicity bin that some burst of the galaxy uses and for every
    age step some burst uses. */
module Working {
  import opened Flat
  import opened Kernel
  import opened Binning
  import opened Window
  import opened Bursts
  import opened Seds
  import Photometry

  // ---------------------------------------------------------------------------
  // Dust and flags

  /** dust_absorption (not part of this model): the dust of galaxy iG applied
      to a ready buffer, given the age flags. */
  type Absorption = (int, seq<real>, seq<int>) -> seq<real>

  /** Dust changes the values of the ready buffer, not its size. */
  ghost predicate KeepsLength(dust: Absorption)
  {
    forall g, s, f :: |dust(g, s, f)| == |s|
  }

  /** The age flags: age_flag of the galaxy's bursts with dust, all zero
      (calloc) without. */
  function AgeFlags(bursts: seq<Ssp>, dusty: bool, nA: nat): (f: seq<int>)
    ensures |f| == nA
  {
    seq(nA, a requires 0 <= a < nA => if dusty then Flag(AgeKeys(bursts), a) else 0)
  }

  /** The metallicity flags: Z_flag of the galaxy's bursts with dust, all
      zero without. */
  function ZFlags(bursts: seq<Ssp>, dusty: bool, nMaxZ: nat): (f: seq<int>)
    ensures |f| == nMaxZ
  {
    seq(nMaxZ, b requires 0 <= b < nMaxZ => if dusty then Flag(BinKeys(bursts), b) else 0)
  }

  /** The ready buffer after the copy of the integrated templates and the
      dust, if any. */
  function Dusted(integrated: seq<real>, dust: Option<Absorption>, iG: int, ageFlags: seq<int>): seq<real>
  {
    if dust.Some? then dust.value(iG, integrated, ageFlags) else integrated
  }

  // ---------------------------------------------------------------------------
  // Observer frame (spectrum mode with nObs > 0)

  /** Every entry divided by 1 + z. */
  function Redshifted(s: seq<real>, z: real): (r: seq<real>)
    requires 1.0 + z != 0.0
    ensures |r| == |s|
  {
    seq(|s|, q requires 0 <= q < |s| => s[q] / (1.0 + z))
  }

  /** Scaling back by 1 + z recovers the rest-frame buffer. */
  lemma RedshiftUndone(s: seq<real>, z: real)
    requires 1.0 + z != 0.0
    ensures Scaled(1.0 + z, Redshifted(s, z)) == s
  {
    forall q | 0 <= q < |s|
      ensures Scaled(1.0 + z, Redshifted(s, z))[q] == s[q]
    {
      var c := 1.0 + z;
      assert Redshifted(s, z)[q] == s[q] / c;
      assert c * (s[q] / c) == s[q];
    }
  }

  /** pData[iW] /= 1 + z over every row of the ready buffer. */
  method DivideReady(a: array<real>, rows: nat, nW: nat, z: real)
    requires 1.0 + z != 0.0 && a.Length == Mul(rows, nW)
    modifies a
    ensures a[..] == Redshifted(old(a[..]), z)
  {
    ghost var s := a[..];
    var p := 0;
    for i := 0 to rows
      invariant p == Mul(i, nW) <= a.Length
      invariant forall q :: 0 <= q < p ==> a[q] == s[q] / (1.0 + z)
      invariant forall q :: p <= q < a.Length ==> a[q] == s[q]
    {
      MulOrder(i + 1, rows, nW);
      for iW := 0 to nW
        invariant forall q :: 0 <= q < p + iW ==> a[q] == s[q] / (1.0 + z)
        invariant forall q :: p + iW <= q < a.Length ==> a[q] == s[q]
      {
        a[p + iW] := a[p + iW] / (1.0 + z);
      }
      p := p + nW;
    }
  }

  /** The observer frame of sector_cext.c: with nObs > 0 every entry is
      divided by 1 + z and then, when there is an IGM absorption curve,
      multiplied by its value at the entry's wavelength. */
  function Observed(s: seq<real>, nObs: nat, z: real, Ly: Option<seq<real>>, nW: nat): (r: seq<real>)
    requires nObs > 0 ==> 1.0 + z != 0.0
    requires Ly.Some? ==> |Ly.value| == nW
    ensures |r| == |s|
  {
    if nObs == 0 then s
    else if Ly.Some? && 0 < nW then Photometry.ScaleRows(Redshifted(s, z), Ly.value)
    else Redshifted(s, z)
  }

  /** The observed value of ready cell (i, iW), in both directions of the
      mode switch. */
  lemma ObservedCell(s: seq<real>, nObs: nat, z: real, Ly: Option<seq<real>>, nW: nat, i: nat, iW: nat)
    requires nObs > 0 ==> 1.0 + z != 0.0
    requires Ly.Some? ==> |Ly.value| == nW
    requires iW < nW && Idx(i, iW, nW) < |s|
    ensures nObs == 0 ==> Observed(s, nObs, z, Ly, nW)[Idx(i, iW, nW)] == s[Idx(i, iW, nW)]
    ensures nObs > 0 && Ly.None? ==> Observed(s, nObs, z, Ly, nW)[Idx(i, iW, nW)] == s[Idx(i, iW, nW)] / (1.0 + z)
    ensures nObs > 0 && Ly.Some? ==>
      Observed(s, nObs, z, Ly, nW)[Idx(i, iW, nW)] == Times(s[Idx(i, iW, nW)] / (1.0 + z), Ly.value[iW])
  {
    if nObs > 0 && Ly.Some? {
      Photometry.ScaleRowsCell(Redshifted(s, z), Ly.value, i, iW);
    }
  }

  /** The spectrum-mode scaling of the ready buffer, in place. */
  method ObserveReady(a: array<real>, rows: nat, nW: nat, nObs: nat, z: real, Ly: Option<seq<real>>)
    requires nObs > 0 ==> 1.0 + z != 0.0
    requires Ly.Some? ==> |Ly.value| == nW
    requires a.Length == Mul(rows, nW)
    modifies a
    ensures a[..] == Observed(old(a[..]), nObs, z, Ly, nW)
  {
    if nObs > 0 {
      DivideReady(a, rows, nW, z);
      // With no wavelength the absorption loop has nothing to do.
      if Ly.Some? && 0 < nW {
        Photometry.ScaleSpectra(a, rows, Ly.value);
      }
    }
  }

  // ---------------------------------------------------------------------------
  // Transpose (spectrum mode): refSpectra[(iW*nAgeStep + iA)*nZ + iZ] is
  // ready[(iZ*nAgeStep + iA)*nWaves + iW].

  /** The ready offset read into refSpectra cell q. */
  function SourceOffset(q: nat, nZ: nat, nA: nat, nW: nat): nat
  {
    if nA == 0 || nZ == 0 then 0
    else
      var (iW, iA, iZ) := Split3(q, nA, nZ);
      Idx3(iZ, iA, iW, nA, nW)
  }

  function TransposedAt(P: seq<real>, nZ: nat, nA: nat, nW: nat, q: nat): real
    requires |P| == Size3(nZ, nA, nW) && q < Size3(nW, nA, nZ)
  {
    if nA == 0 || nZ == 0 then 0.0
    else
      var (iW, iA, iZ) := Split3(q, nA, nZ);
      Split3Bounds(q, nW, nA, nZ);
      Idx3Bounds(iZ, iA, iW, nZ, nA, nW);
      P[Idx3(iZ, iA, iW, nA, nW)]
  }

  /** refSpectra in spectrum mode: the ready buffer with its dimensions
      reordered from (metallicity, age, wavelength) to (wavelength, age,
      metallicity). */
  function Transposed(P: seq<real>, nZ: nat, nA: nat, nW: nat): (r: seq<real>)
    requires |P| == Size3(nZ, nA, nW)
    ensures |r| == Size3(nW, nA, nZ)
  {
    seq(Size3(nW, nA, nZ), q requires 0 <= q < Size3(nW, nA, nZ) => TransposedAt(P, nZ, nA, nW, q))
  }

  /** Every cell of the transpose holds the ready cell with the same
      coordinates. */
  lemma TransposedCell(P: seq<real>, nZ: nat, nA: nat, nW: nat, iZ: nat, iA: nat, iW: nat)
    requires |P| == Size3(nZ, nA, nW) && iZ < nZ && iA < nA && iW < nW
    ensures Idx3(iW, iA, iZ, nA, nZ) < Size3(nW, nA, nZ) && Idx3(iZ, iA, iW, nA, nW) < |P|
    ensures Transposed(P, nZ, nA, nW)[Idx3(iW, iA, iZ, nA, nZ)] == P[Idx3(iZ, iA, iW, nA, nW)]
  {
    Idx3Bounds(iW, iA, iZ, nW, nA, nZ);
    Idx3Bounds(iZ, iA, iW, nZ, nA, nW);
    Split3Idx(iW, iA, iZ, nA, nZ);
  }

  /** Transposing back recovers the ready buffer. */
  lemma TransposeTwice(P: seq<real>, nZ: nat, nA: nat, nW: nat)
    requires |P| == Size3(nZ, nA, nW)
    ensures Transposed(Transposed(P, nZ, nA, nW), nW, nA, nZ) == P
  {
    var T := Transposed(P, nZ, nA, nW);
    var B := Transposed(T, nW, nA, nZ);
    Size3Swap(nZ, nA, nW);
    Size3Swap(nA, nZ, nW);
    Size3Swap(nA, nW, nZ);
    Size3IsProduct(nZ, nA, nW);
    Size3IsProduct(nW, nA, nZ);
    assert |B| == |P|;
    forall q | 0 <= q < |P|
      ensures B[q] == P[q]
    {
      Split3Bounds(q, nZ, nA, nW);
      var (iZ, iA, iW) := Split3(q, nA, nW);
      TransposedCell(P, nZ, nA, nW, iZ, iA, iW);
      TransposedCell(T, nW, nA, nZ, iW, iA, iZ);
    }
  }

  /** The only refSpectra cell whose source is ready cell (iZ, iA, iW) is
      (iW, iA, iZ). */
  lemma SourceOffsetInjective(q: nat, nZ: nat, nA: nat, nW: nat, iZ: nat, iA: nat, iW: nat)
    requires iZ < nZ && iA < nA && iW < nW && q < Size3(nW, nA, nZ)
    requires SourceOffset(q, nZ, nA, nW) == Idx3(iZ, iA, iW, nA, nW)
    ensures q == Idx3(iW, iA, iZ, nA, nZ)
  {
    Split3Bounds(q, nW, nA, nZ);
    var (w, a, z) := Split3(q, nA, nZ);
    Split3Idx(z, a, w, nA, nW);
    Split3Idx(iZ, iA, iW, nA, nW);
  }

  /** Every refSpectra cell reads a ready cell. */
  lemma SourceOffsetBound(q: nat, nZ: nat, nA: nat, nW: nat)
    requires q < Size3(nW, nA, nZ)
    ensures SourceOffset(q, nZ, nA, nW) < Size3(nZ, nA, nW)
  {
    if nA == 0 || nZ == 0 {
      Size3IsProduct(nW, nA, nZ);
      assert false;
    }
    Split3Bounds(q, nW, nA, nZ);
    var (w, a, z) := Split3(q, nA, nZ);
    Idx3Bounds(z, a, w, nZ, nA, nW);
  }

  /** The copy of ready row (iZ, iA) into its nWaves refSpectra cells; the
      cells whose source comes earlier than p are done. */
  method TransposeRow(ready: array<real>, ref: array<real>, nZ: nat, nA: nat, nW: nat, iZ: nat, iA: nat,
                      ghost spec: seq<real>)
    requires ready != ref && iZ < nZ && iA < nA
    requires ready.Length == Size3(nZ, nA, nW) && ref.Length == Size3(nW, nA, nZ)
    requires spec == Transposed(ready[..], nZ, nA, nW)
    requires forall q :: 0 <= q < ref.Length && SourceOffset(q, nZ, nA, nW) < Idx3(iZ, iA, 0, nA, nW) ==> ref[q] == spec[q]
    modifies ref
    ensures forall q :: 0 <= q < ref.Length && SourceOffset(q, nZ, nA, nW) < Idx3(iZ, iA, nW, nA, nW) ==> ref[q] == spec[q]
  {
    var p := Idx3(iZ, iA, 0, nA, nW);
    for iW := 0 to nW
      invariant forall q :: 0 <= q < ref.Length && SourceOffset(q, nZ, nA, nW) < p + iW ==> ref[q] == spec[q]
    {
      TransposedCell(ready[..], nZ, nA, nW, iZ, iA, iW);
      var d := Idx3(iW, iA, iZ, nA, nZ);
      ref[d] := ready[p + iW];
      forall q | 0 <= q < ref.Length && SourceOffset(q, nZ, nA, nW) < p + iW + 1
        ensures ref[q] == spec[q]
      {
        if SourceOffset(q, nZ, nA, nW) == p + iW {
          SourceOffsetInjective(q, nZ, nA, nW, iZ, iA, iW);
        }
      }
    }
  }

  /** The transpose loop of init_templates_working: refSpectra becomes the
      transpose of the ready buffer. */
  method Transpose(ready: array<real>, nZ: nat, nA: nat, nW: nat) returns (ref: array<real>)
    requires ready.Length == Size3(nZ, nA, nW)
    ensures fresh(ref)
    ensures ref[..] == Transposed(ready[..], nZ, nA, nW)
  {
    ref := new real[Size3(nW, nA, nZ)];
    ghost var spec := Transposed(ready[..], nZ, nA, nW);
    for iZ := 0 to nZ
      invariant forall q :: 0 <= q < ref.Length && SourceOffset(q, nZ, nA, nW) < Idx3(iZ, 0, 0, nA, nW) ==> ref[q] == spec[q]
    {
      for iA := 0 to nA
        invariant forall q :: 0 <= q < ref.Length && SourceOffset(q, nZ, nA, nW) < Idx3(iZ, iA, 0, nA, nW) ==> ref[q] == spec[q]
      {
        TransposeRow(ready, ref, nZ, nA, nW, iZ, iA, spec);
        Idx3Next(iZ, iA, nA, nW);
      }
      Idx3Next(iZ, nA, nA, nW);
    }
    Idx3Blocks(nZ, nZ, nA, nW);
    forall q | 0 <= q < ref.Length
      ensures ref[q] == spec[q]
    {
      SourceOffsetBound(q, nZ, nA, nW);
    }
  }

  // ---------------------------------------------------------------------------
  // Filter mode: refSpectra[(iF*nAgeStep + iA)*nZ + iZ] is the template of
  // ready row (iZ, iA) integrated through filter iF.

  /** filterData: the template interpolated at every filter wavelength, times
      the filter's transmission there. */
  function Transmitted(band: Band, waves: seq<real>, row: seq<real>): (fd: seq<real>)
    requires Table(waves, row) && |band.trans| == |band.waves|
    ensures |fd| == |band.waves|
  {
    seq(|band.waves|, k requires 0 <= k < |band.waves| => Times(PiecewiseLinear(waves, row, band.waves[k]), band.trans[k]))
  }

  /** The accumulator I after the samples 0 .. n-1: the sum of
      (w[i] - w[i-1])*(fd[i] + fd[i-1]) over 1 <= i < n. */
  function BandSum(fw: seq<real>, fd: seq<real>, n: nat): real
    requires n <= |fw| && n <= |fd|
  {
    if n <= 1 then 0.0 else BandSum(fw, fd, n - 1) + (fw[n - 1] - fw[n - 2]) * (fd[n - 1] + fd[n - 2])
  }

  /** The template row integrated through the filter: I/2. */
  function BandFlux(band: Band, waves: seq<real>, row: seq<real>): real
    requires Table(waves, row) && |band.trans| == |band.waves|
  {
    BandSum(band.waves, Transmitted(band, waves, row), |band.waves|) / 2.0
  }

  /** Every filter wavelength lies within the template wavelengths, so that
      interp does not stop the run. */
  predicate BandInside(waves: seq<real>, band: Band)
    requires 1 <= |waves|
  {
    forall k :: 0 <= k < |band.waves| ==> waves[0] <= band.waves[k] <= waves[|waves| - 1]
  }

  /** The template interpolated at every filter wavelength. */
  function Interpolated(waves: seq<real>, row: seq<real>, fw: seq<real>): (y: seq<real>)
    requires Table(waves, row)
    ensures |y| == |fw|
  {
    seq(|fw|, k requires 0 <= k < |fw| => PiecewiseLinear(waves, row, fw[k]))
  }

  /** One term of the accumulator is twice one trapezoid of trapz_filter. */
  lemma BandTerm(fw: seq<real>, fd: seq<real>, trans: seq<real>, y: seq<real>, i: nat)
    requires 1 <= i < |fw| && |fd| == |fw| && |trans| == |fw| && |y| == |fw|
    requires fd[i] == Times(y[i], trans[i]) && fd[i - 1] == Times(y[i - 1], trans[i - 1])
    ensures (fw[i] - fw[i - 1]) * (fd[i] + fd[i - 1]) == 2.0 * FilterTrapezoid(trans, y, fw, i)
  {
  }

  lemma {:induction false} BandSumIsFilterIntegral(fw: seq<real>, fd: seq<real>, trans: seq<real>, y: seq<real>, n: nat)
    requires n <= |fw| && |fd| == |fw| && |trans| == |fw| && |y| == |fw|
    requires forall k :: 0 <= k < |fw| ==> fd[k] == Times(y[k], trans[k])
    ensures BandSum(fw, fd, n) == 2.0 * FilterIntegral(trans, y, fw, n)
  {
    if n > 1 {
      BandSumIsFilterIntegral(fw, fd, trans, y, n - 1);
      BandTerm(fw, fd, trans, y, n - 1);
    }
  }

  /** The filter integral of the flattened pipeline is trapz_filter of the
      transmission against the interpolated template. */
  lemma BandFluxIsFilterIntegral(band: Band, waves: seq<real>, row: seq<real>)
    requires Table(waves, row) && |band.trans| == |band.waves|
    ensures BandFlux(band, waves, row)
         == FilterIntegral(band.trans, Interpolated(waves, row, band.waves), band.waves, |band.waves|)
  {
    BandSumIsFilterIntegral(band.waves, Transmitted(band, waves, row), band.trans,
                            Interpolated(waves, row, band.waves), |band.waves|);
  }

  /** The first loop of the filter body: filterData filled by interp; fails
      (the source exits) when a filter wavelength lies outside the template
      wavelengths. */
  method FilterData(band: Band, waves: seq<real>, row: seq<real>) returns (r: Result<seq<real>>)
    requires Table(waves, row) && |band.waves| == |band.trans|
    ensures r.Err? <==> !BandInside(waves, band)
    ensures r.Err? ==> r.error == OutOfRange
    ensures r.Ok? ==> r.value == Transmitted(band, waves, row)
  {
    var nFW := |band.waves|;
    var filterData := new real[nFW];
    for iFW := 0 to nFW
      invariant forall k :: 0 <= k < iFW ==> waves[0] <= band.waves[k] <= waves[|waves| - 1]
      invariant forall k :: 0 <= k < iFW ==> filterData[k] == Transmitted(band, waves, row)[k]
    {
      var v := Interp(band.waves[iFW], waves, row);
      if v.Err? {
        return Err(v.error);
      }
      filterData[iFW] := Times(v.value, band.trans[iFW]);
    }
    return Ok(filterData[..]);
  }

  /** The second loop of the filter body: the trapezoid accumulation. */
  method SumBand(fw: seq<real>, fd: seq<real>) returns (I: real)
    requires 1 <= |fw| && |fd| == |fw|
    ensures I == BandSum(fw, fd, |fw|)
  {
    I := 0.0;
    for iFW := 1 to |fw|
      invariant I == BandSum(fw, fd, iFW)
    {
      I := I + (fw[iFW] - fw[iFW - 1]) * (fd[iFW] + fd[iFW - 1]);
    }
  }

  /** The filter body for one template row: the filter integral I/2, or the
      failure of interp. */
  method IntegrateBand(band: Band, waves: seq<real>, row: seq<real>) returns (r: Result<real>)
    requires Table(waves, row) && 1 <= |band.waves| == |band.trans|
    ensures r.Err? <==> !BandInside(waves, band)
    ensures r.Err? ==> r.error == OutOfRange
    ensures r.Ok? ==> r.value == BandFlux(band, waves, row)
  {
    var filterData := FilterData(band, waves, row);
    if filterData.Err? {
      return Err(filterData.error);
    }
    var I := SumBand(band.waves, filterData.value);
    return Ok(I / 2.0);
  }

  /** The template wavelengths interp needs: at least two, increasing. */
  predicate Grid(waves: seq<real>)
  {
    2 <= |waves| && StrictlyIncreasing(waves)
  }

  /** refSpectra cell q in filter mode, decoded as (filter, age step,
      metallicity): ready row (iZ, iA) integrated through the filter. The
      cells of an age step no burst uses are skipped; they are zero here and
      never read. */
  function FilterRefAt(P: seq<real>, waves: seq<real>, bands: seq<Band>, ageFlags: seq<int>, nZ: nat, q: nat): real
    requires Grid(waves) && Bands(bands) && |P| == Size3(nZ, |ageFlags|, |waves|)
  {
    if |ageFlags| == 0 || nZ == 0 then 0.0
    else
      var (iF, iA, iZ) := Split3(q, |ageFlags|, nZ);
      if iF < |bands| && iZ < nZ && ageFlags[iA] == 0
      then BandFlux(bands[iF], waves, RawRow(P, nZ, |ageFlags|, |waves|, iZ, iA))
      else 0.0
  }

  /** refSpectra in filter mode: nFlux blocks of nAgeStep rows of nZ cells. */
  function FilterRef(P: seq<real>, waves: seq<real>, bands: seq<Band>, ageFlags: seq<int>, nZ: nat): (r: seq<real>)
    requires Grid(waves) && Bands(bands) && |P| == Size3(nZ, |ageFlags|, |waves|)
    ensures |r| == Size3(|bands|, |ageFlags|, nZ)
  {
    seq(Size3(|bands|, |ageFlags|, nZ),
        q requires 0 <= q < Size3(|bands|, |ageFlags|, nZ) => FilterRefAt(P, waves, bands, ageFlags, nZ, q))
  }

  /** refSpectra[(iF*nAgeStep + iA)*nZ + iZ] is ready row (iZ, iA) through
      filter iF when age step iA is used, and is skipped otherwise. */
  lemma FilterRefCell(P: seq<real>, waves: seq<real>, bands: seq<Band>, ageFlags: seq<int>, nZ: nat,
                      iF: nat, iA: nat, iZ: nat)
    requires Grid(waves) && Bands(bands) && |P| == Size3(nZ, |ageFlags|, |waves|)
    requires iF < |bands| && iA < |ageFlags| && iZ < nZ
    ensures Idx3(iF, iA, iZ, |ageFlags|, nZ) < Size3(|bands|, |ageFlags|, nZ)
    ensures ageFlags[iA] == 0 ==> FilterRef(P, waves, bands, ageFlags, nZ)[Idx3(iF, iA, iZ, |ageFlags|, nZ)]
                                  == BandFlux(bands[iF], waves, RawRow(P, nZ, |ageFlags|, |waves|, iZ, iA))
    ensures ageFlags[iA] != 0 ==> FilterRef(P, waves, bands, ageFlags, nZ)[Idx3(iF, iA, iZ, |ageFlags|, nZ)] == 0.0
  {
    Idx3Bounds(iF, iA, iZ, |bands|, |ageFlags|, nZ);
    Split3Idx(iF, iA, iZ, |ageFlags|, nZ);
  }

  /** Some age step is used: the filter loop computes at least one cell per
      metallicity. */
  predicate AnyAgeUsed(ageFlags: seq<int>)
  {
    exists a :: 0 <= a < |ageFlags| && ageFlags[a] == 0
  }

  /** The filter loop stops the run: some filter reaches outside the
      template wavelengths while some cell is computed. */
  predicate FilterFails(waves: seq<real>, bands: seq<Band>, ageFlags: seq<int>, nZ: nat)
    requires 1 <= |waves|
  {
    nZ > 0 && AnyAgeUsed(ageFlags) && exists f :: 0 <= f < |bands| && !BandInside(waves, bands[f])
  }

  /** Cell (iF, iA, iZ) of refSpectra, at offset q, written after the cells
      before it: skipped when age step iA is unused. */
  method FilterCell(P: seq<real>, waves: seq<real>, bands: seq<Band>, ageFlags: seq<int>, nZ: nat,
                    ref: array<real>, iF: nat, iA: nat, iZ: nat, q: nat, ghost spec: seq<real>) returns (r: Result<()>)
    requires Grid(waves) && Bands(bands) && |P| == Size3(nZ, |ageFlags|, |waves|)
    requires iF < |bands| && iA < |ageFlags| && iZ < nZ
    requires spec == FilterRef(P, waves, bands, ageFlags, nZ) && ref.Length == |spec|
    requires q == Idx3(iF, iA, iZ, |ageFlags|, nZ) < ref.Length && ref[..q] == spec[..q]
    requires forall k :: q <= k < ref.Length ==> ref[k] == 0.0
    modifies ref
    ensures r.Err? <==> ageFlags[iA] == 0 && !BandInside(waves, bands[iF])
    ensures r.Ok? ==> q < ref.Length && ref[..q + 1] == spec[..q + 1]
    ensures r.Ok? ==> forall k :: q + 1 <= k < ref.Length ==> ref[k] == 0.0
  {
    FilterRefCell(P, waves, bands, ageFlags, nZ, iF, iA, iZ);
    if ageFlags[iA] == 0 {
      var v := IntegrateBand(bands[iF], waves, RawRow(P, nZ, |ageFlags|, |waves|, iZ, iA));
      if v.Err? {
        return Err(v.error);
      }
      ref[q] := v.value;
    }
    assert ref[..q + 1] == ref[..q] + [ref[q]];
    assert spec[..q + 1] == spec[..q] + [spec[q]];
    return Ok(());
  }

  /** The cells (iF, iA, 0 .. nZ-1) of refSpectra, written after the cells
      before them. */
  method FilterRow(P: seq<real>, waves: seq<real>, bands: seq<Band>, ageFlags: seq<int>, nZ: nat,
                   ref: array<real>, iF: nat, iA: nat, ghost spec: seq<real>) returns (r: Result<()>)
    requires Grid(waves) && Bands(bands) && |P| == Size3(nZ, |ageFlags|, |waves|)
    requires iF < |bands| && iA < |ageFlags|
    requires spec == FilterRef(P, waves, bands, ageFlags, nZ) && ref.Length == |spec|
    requires Idx3(iF, iA, 0, |ageFlags|, nZ) <= ref.Length
    requires ref[..Idx3(iF, iA, 0, |ageFlags|, nZ)] == spec[..Idx3(iF, iA, 0, |ageFlags|, nZ)]
    requires forall q :: Idx3(iF, iA, 0, |ageFlags|, nZ) <= q < ref.Length ==> ref[q] == 0.0
    modifies ref
    ensures r.Err? <==> nZ > 0 && ageFlags[iA] == 0 && !BandInside(waves, bands[iF])
    ensures r.Ok? ==> Idx3(iF, iA, nZ, |ageFlags|, nZ) <= ref.Length
    ensures r.Ok? ==> ref[..Idx3(iF, iA, nZ, |ageFlags|, nZ)] == spec[..Idx3(iF, iA, nZ, |ageFlags|, nZ)]
    ensures r.Ok? ==> forall q :: Idx3(iF, iA, nZ, |ageFlags|, nZ) <= q < ref.Length ==> ref[q] == 0.0
  {
    Idx3RowEnd(iF, iA, |bands|, |ageFlags|, nZ);
    var p := Idx3(iF, iA, 0, |ageFlags|, nZ);
    for iZ := 0 to nZ
      invariant 0 < iZ && ageFlags[iA] == 0 ==> BandInside(waves, bands[iF])
      invariant ref[..p + iZ] == spec[..p + iZ]
      invariant forall q :: p + iZ <= q < ref.Length ==> ref[q] == 0.0
    {
      var c := FilterCell(P, waves, bands, ageFlags, nZ, ref, iF, iA, iZ, p + iZ, spec);
      if c.Err? {
        return c;
      }
    }
    return Ok(());
  }

  /** Block iF of refSpectra: every age step through filter iF. */
  method FilterBlock(P: seq<real>, waves: seq<real>, bands: seq<Band>, ageFlags: seq<int>, nZ: nat,
                     ref: array<real>, iF: nat, ghost spec: seq<real>) returns (r: Result<()>)
    requires Grid(waves) && Bands(bands) && |P| == Size3(nZ, |ageFlags|, |waves|)
    requires iF < |bands|
    requires spec == FilterRef(P, waves, bands, ageFlags, nZ) && ref.Length == |spec|
    requires Idx3(iF, 0, 0, |ageFlags|, nZ) <= ref.Length
    requires ref[..Idx3(iF, 0, 0, |ageFlags|, nZ)] == spec[..Idx3(iF, 0, 0, |ageFlags|, nZ)]
    requires forall q :: Idx3(iF, 0, 0, |ageFlags|, nZ) <= q < ref.Length ==> ref[q] == 0.0
    modifies ref
    ensures r.Err? <==> nZ > 0 && AnyAgeUsed(ageFlags) && !BandInside(waves, bands[iF])
    ensures r.Ok? ==> Idx3(iF + 1, 0, 0, |ageFlags|, nZ) <= ref.Length
    ensures r.Ok? ==> ref[..Idx3(iF + 1, 0, 0, |ageFlags|, nZ)] == spec[..Idx3(iF + 1, 0, 0, |ageFlags|, nZ)]
    ensures r.Ok? ==> forall q :: Idx3(iF + 1, 0, 0, |ageFlags|, nZ) <= q < ref.Length ==> ref[q] == 0.0
  {
    var nA := |ageFlags|;
    Idx3Blocks(iF + 1, |bands|, nA, nZ);
    for iA := 0 to nA
      invariant nZ > 0 && (exists a :: 0 <= a < iA && ageFlags[a] == 0) ==> BandInside(waves, bands[iF])
      invariant Idx3(iF, iA, 0, nA, nZ) <= ref.Length
      invariant ref[..Idx3(iF, iA, 0, nA, nZ)] == spec[..Idx3(iF, iA, 0, nA, nZ)]
      invariant forall q :: Idx3(iF, iA, 0, nA, nZ) <= q < ref.Length ==> ref[q] == 0.0
    {
      var c := FilterRow(P, waves, bands, ageFlags, nZ, ref, iF, iA, spec);
      if c.Err? {
        return c;
      }
      Idx3Next(iF, iA, nA, nZ);
    }
    Idx3Next(iF, nA, nA, nZ);
    return Ok(());
  }

  /** The filter loop of init_templates_working: refSpectra holds every used
      template integrated through every filter; the run stops when a filter
      reaches outside the template wavelengths. */
  method FilterTemplates(P: seq<real>, waves: seq<real>, bands: seq<Band>, ageFlags: seq<int>, nZ: nat)
    returns (r: Result<array<real>>)
    requires Grid(waves) && Bands(bands) && |P| == Size3(nZ, |ageFlags|, |waves|)
    ensures r.Err? <==> FilterFails(waves, bands, ageFlags, nZ)
    ensures r.Ok? ==> fresh(r.value) && r.value[..] == FilterRef(P, waves, bands, ageFlags, nZ)
  {
    ghost var spec := FilterRef(P, waves, bands, ageFlags, nZ);
    var ref := new real[Size3(|bands|, |ageFlags|, nZ)](_ => 0.0);
    for iF := 0 to |bands|
      invariant forall f :: 0 <= f < iF ==> !(nZ > 0 && AnyAgeUsed(ageFlags)) || BandInside(waves, bands[f])
      invariant Idx3(iF, 0, 0, |ageFlags|, nZ) <= ref.Length
      invariant ref[..Idx3(iF, 0, 0, |ageFlags|, nZ)] == spec[..Idx3(iF, 0, 0, |ageFlags|, nZ)]
      invariant forall q :: Idx3(iF, 0, 0, |ageFlags|, nZ) <= q < ref.Length ==> ref[q] == 0.0
    {
      var c := FilterBlock(P, waves, bands, ageFlags, nZ, ref, iF, spec);
      if c.Err? {
        return Err(c.error);
      }
    }
    Idx3Blocks(|bands|, |bands|, |ageFlags|, nZ);
    assert ref[..] == ref[..Idx3(|bands|, 0, 0, |ageFlags|, nZ)];
    return Ok(ref);
  }

  // ---------------------------------------------------------------------------
  // Interpolation along metallicity: working[(iZ*nAgeStep + iA)*nFlux + iF]
  // is refSpectra row (iF, iA) interpolated at the centre of bin minZ + iZ.

  /** x lies within the template metallicities. */
  predicate Covers(Z: seq<real>, x: real)
    requires 1 <= |Z|
  {
    Z[0] <= x <= Z[|Z| - 1]
  }

  /** Working cell q, decoded as (bin, age step, channel): interpolated when
      both the bin and the age step are used, left as it was otherwise. */
  function WorkingAt(w0: seq<real>, ref: seq<real>, Z: seq<real>, minZ: int, zFlags: seq<int>, ageFlags: seq<int>,
                     nCh: nat, nFlux: nat, q: nat): real
    requires Grid(Z) && nFlux <= nCh && |ref| == Size3(nCh, |ageFlags|, |Z|) && q < |w0|
  {
    if |ageFlags| == 0 || nFlux == 0 then w0[q]
    else
      var (iZ, iA, iF) := Split3(q, |ageFlags|, nFlux);
      if iZ < |zFlags| && zFlags[iZ] == 0 && ageFlags[iA] == 0
      then PiecewiseLinear(Z, RawRow(ref, nCh, |ageFlags|, |Z|, iF, iA), BinCentre(minZ + iZ))
      else w0[q]
  }

  /** The working buffer after the interpolation, from its previous
      contents w0. */
  function Working(w0: seq<real>, ref: seq<real>, Z: seq<real>, minZ: int, zFlags: seq<int>, ageFlags: seq<int>,
                   nCh: nat, nFlux: nat): (w: seq<real>)
    requires Grid(Z) && nFlux <= nCh && |ref| == Size3(nCh, |ageFlags|, |Z|)
    ensures |w| == |w0|
  {
    seq(|w0|, q requires 0 <= q < |w0| => WorkingAt(w0, ref, Z, minZ, zFlags, ageFlags, nCh, nFlux, q))
  }

  /** Cell (iZ, iA, iF) of the working buffer changes exactly when bin iZ and
      age step iA are both used, and then holds the interpolated value. */
  lemma WorkingCell(w0: seq<real>, ref: seq<real>, Z: seq<real>, minZ: int, zFlags: seq<int>, ageFlags: seq<int>,
                    nCh: nat, nFlux: nat, iZ: nat, iA: nat, iF: nat)
    requires Grid(Z) && nFlux <= nCh && |ref| == Size3(nCh, |ageFlags|, |Z|)
    requires |w0| == Size3(|zFlags|, |ageFlags|, nFlux)
    requires iZ < |zFlags| && iA < |ageFlags| && iF < nFlux
    ensures Idx3(iZ, iA, iF, |ageFlags|, nFlux) < |w0|
    ensures zFlags[iZ] == 0 && ageFlags[iA] == 0 ==>
      Working(w0, ref, Z, minZ, zFlags, ageFlags, nCh, nFlux)[Idx3(iZ, iA, iF, |ageFlags|, nFlux)]
        == PiecewiseLinear(Z, RawRow(ref, nCh, |ageFlags|, |Z|, iF, iA), BinCentre(minZ + iZ))
    ensures zFlags[iZ] != 0 || ageFlags[iA] != 0 ==>
      Working(w0, ref, Z, minZ, zFlags, ageFlags, nCh, nFlux)[Idx3(iZ, iA, iF, |ageFlags|, nFlux)]
        == w0[Idx3(iZ, iA, iF, |ageFlags|, nFlux)]
  {
    Idx3Bounds(iZ, iA, iF, |zFlags|, |ageFlags|, nFlux);
    Split3Idx(iZ, iA, iF, |ageFlags|, nFlux);
  }

  /** The interpolation stops the run: a cell is computed at a bin centre
      outside the template metallicities. */
  predicate ZFails(Z: seq<real>, minZ: int, zFlags: seq<int>, ageFlags: seq<int>, nFlux: nat)
    requires 1 <= |Z|
  {
    nFlux > 0 && AnyAgeUsed(ageFlags) &&
    exists iZ :: 0 <= iZ < |zFlags| && zFlags[iZ] == 0 && !Covers(Z, BinCentre(minZ + iZ))
  }

  /** Working cell (iZ, iA, iF), at offset q, written after the cells before
      it, when bin iZ and age step iA are both used. */
  method InterpolateCell(ref: seq<real>, Z: seq<real>, minZ: int, zFlags: seq<int>, ageFlags: seq<int>, nCh: nat,
                         nFlux: nat, w: array<real>, iZ: nat, iA: nat, iF: nat, q: nat,
                         ghost w0: seq<real>, ghost spec: seq<real>) returns (r: Result<()>)
    requires Grid(Z) && nFlux <= nCh && |ref| == Size3(nCh, |ageFlags|, |Z|)
    requires |w0| == Size3(|zFlags|, |ageFlags|, nFlux) && w.Length == |w0|
    requires spec == Working(w0, ref, Z, minZ, zFlags, ageFlags, nCh, nFlux)
    requires iZ < |zFlags| && iA < |ageFlags| && iF < nFlux && zFlags[iZ] == 0 && ageFlags[iA] == 0
    requires q == Idx3(iZ, iA, iF, |ageFlags|, nFlux) < w.Length
    requires w[..q] == spec[..q] && w[q..] == w0[q..]
    modifies w
    ensures r.Err? <==> !Covers(Z, BinCentre(minZ + iZ))
    ensures r.Ok? ==> w[..q + 1] == spec[..q + 1] && w[q + 1..] == w0[q + 1..]
  {
    WorkingCell(w0, ref, Z, minZ, zFlags, ageFlags, nCh, nFlux, iZ, iA, iF);
    var v := Interp(BinCentre(minZ + iZ), Z, RawRow(ref, nCh, |ageFlags|, |Z|, iF, iA));
    if v.Err? {
      return Err(v.error);
    }
    assert w0[q + 1..] == w[q..][1..];
    w[q] := v.value;
    assert w[..q + 1] == w[..q] + [w[q]];
    assert spec[..q + 1] == spec[..q] + [spec[q]];
    return Ok(());
  }

  /** a and b agree before p, and a agrees with c and c with b on the n
      entries from p: a and b agree before p + n. */
  lemma JoinPrefix(a: seq<real>, b: seq<real>, c: seq<real>, p: nat, n: nat)
    requires p + n <= |a| && p + n <= |b| && p + n <= |c|
    requires a[..p] == b[..p]
    requires forall k :: p <= k < p + n ==> a[k] == c[k] && b[k] == c[k]
    ensures a[..p + n] == b[..p + n]
  {
    assert forall k :: 0 <= k < p ==> a[k] == a[..p][k] && b[k] == b[..p][k];
  }

  /** A row whose bin or age step is unused already agrees with the
      specification: its cells keep their previous values. */
  lemma SkippedRow(ref: seq<real>, Z: seq<real>, minZ: int, zFlags: seq<int>, ageFlags: seq<int>, nCh: nat,
                   nFlux: nat, w: seq<real>, iZ: nat, iA: nat, w0: seq<real>, spec: seq<real>)
    requires Grid(Z) && nFlux <= nCh && |ref| == Size3(nCh, |ageFlags|, |Z|)
    requires |w0| == Size3(|zFlags|, |ageFlags|, nFlux) && |w| == |w0|
    requires spec == Working(w0, ref, Z, minZ, zFlags, ageFlags, nCh, nFlux)
    requires iZ < |zFlags| && iA < |ageFlags| && (zFlags[iZ] != 0 || ageFlags[iA] != 0)
    requires Idx3(iZ, iA, 0, |ageFlags|, nFlux) <= |w|
    requires w[..Idx3(iZ, iA, 0, |ageFlags|, nFlux)] == spec[..Idx3(iZ, iA, 0, |ageFlags|, nFlux)]
    requires w[Idx3(iZ, iA, 0, |ageFlags|, nFlux)..] == w0[Idx3(iZ, iA, 0, |ageFlags|, nFlux)..]
    ensures Idx3(iZ, iA, nFlux, |ageFlags|, nFlux) <= |w|
    ensures w[..Idx3(iZ, iA, nFlux, |ageFlags|, nFlux)] == spec[..Idx3(iZ, iA, nFlux, |ageFlags|, nFlux)]
    ensures w[Idx3(iZ, iA, nFlux, |ageFlags|, nFlux)..] == w0[Idx3(iZ, iA, nFlux, |ageFlags|, nFlux)..]
  {
    Idx3RowEnd(iZ, iA, |zFlags|, |ageFlags|, nFlux);
    var p := Idx3(iZ, iA, 0, |ageFlags|, nFlux);
    forall k | p <= k < p + nFlux
      ensures w[k] == w0[k] && spec[k] == w0[k]
    {
      assert w[k] == w[p..][k - p];
      WorkingCell(w0, ref, Z, minZ, zFlags, ageFlags, nCh, nFlux, iZ, iA, k - p);
    }
    JoinPrefix(w, spec, w0, p, nFlux);
    assert w[p + nFlux..] == w[p..][nFlux..];
  }

  /** The nFlux cells of working row (iZ, iA): interpolated when the bin and
      the age step are used, skipped otherwise. */
  method InterpolateRow(ref: seq<real>, Z: seq<real>, minZ: int, zFlags: seq<int>, ageFlags: seq<int>, nCh: nat,
                        nFlux: nat, w: array<real>, iZ: nat, iA: nat, ghost w0: seq<real>, ghost spec: seq<real>)
    returns (r: Result<()>)
    requires Grid(Z) && nFlux <= nCh && |ref| == Size3(nCh, |ageFlags|, |Z|)
    requires |w0| == Size3(|zFlags|, |ageFlags|, nFlux) && w.Length == |w0|
    requires spec == Working(w0, ref, Z, minZ, zFlags, ageFlags, nCh, nFlux)
    requires iZ < |zFlags| && iA < |ageFlags|
    requires Idx3(iZ, iA, 0, |ageFlags|, nFlux) <= w.Length
    requires w[..Idx3(iZ, iA, 0, |ageFlags|, nFlux)] == spec[..Idx3(iZ, iA, 0, |ageFlags|, nFlux)]
    requires w[Idx3(iZ, iA, 0, |ageFlags|, nFlux)..] == w0[Idx3(iZ, iA, 0, |ageFlags|, nFlux)..]
    modifies w
    ensures r.Err? <==> nFlux > 0 && zFlags[iZ] == 0 && ageFlags[iA] == 0 && !Covers(Z, BinCentre(minZ + iZ))
    ensures r.Ok? ==> Idx3(iZ, iA, nFlux, |ageFlags|, nFlux) <= w.Length
    ensures r.Ok? ==> w[..Idx3(iZ, iA, nFlux, |ageFlags|, nFlux)] == spec[..Idx3(iZ, iA, nFlux, |ageFlags|, nFlux)]
    ensures r.Ok? ==> w[Idx3(iZ, iA, nFlux, |ageFlags|, nFlux)..] == w0[Idx3(iZ, iA, nFlux, |ageFlags|, nFlux)..]
  {
    var nA := |ageFlags|;
    Idx3RowEnd(iZ, iA, |zFlags|, nA, nFlux);
    var p := Idx3(iZ, iA, 0, nA, nFlux);
    if zFlags[iZ] != 0 || ageFlags[iA] != 0 {
      SkippedRow(ref, Z, minZ, zFlags, ageFlags, nCh, nFlux, w[..], iZ, iA, w0, spec);
      return Ok(());
    }
    for iF := 0 to nFlux
      invariant w[..p + iF] == spec[..p + iF] && w[p + iF..] == w0[p + iF..]
      invariant 0 < iF ==> Covers(Z, BinCentre(minZ + iZ))
    {
      var c := InterpolateCell(ref, Z, minZ, zFlags, ageFlags, nCh, nFlux, w, iZ, iA, iF, p + iF, w0, spec);
      if c.Err? {
        return c;
      }
    }
    return Ok(());
  }

  /** Working block iZ: every age step of bin iZ. */
  method InterpolateBlock(ref: seq<real>, Z: seq<real>, minZ: int, zFlags: seq<int>, ageFlags: seq<int>, nCh: nat,
                          nFlux: nat, w: array<real>, iZ: nat, ghost w0: seq<real>, ghost spec: seq<real>)
    returns (r: Result<()>)
    requires Grid(Z) && nFlux <= nCh && |ref| == Size3(nCh, |ageFlags|, |Z|)
    requires |w0| == Size3(|zFlags|, |ageFlags|, nFlux) && w.Length == |w0|
    requires spec == Working(w0, ref, Z, minZ, zFlags, ageFlags, nCh, nFlux)
    requires iZ < |zFlags|
    requires Idx3(iZ, 0, 0, |ageFlags|, nFlux) <= w.Length
    requires w[..Idx3(iZ, 0, 0, |ageFlags|, nFlux)] == spec[..Idx3(iZ, 0, 0, |ageFlags|, nFlux)]
    requires w[Idx3(iZ, 0, 0, |ageFlags|, nFlux)..] == w0[Idx3(iZ, 0, 0, |ageFlags|, nFlux)..]
    modifies w
    ensures r.Err? <==> nFlux > 0 && zFlags[iZ] == 0 && AnyAgeUsed(ageFlags) && !Covers(Z, BinCentre(minZ + iZ))
    ensures r.Ok? ==> Idx3(iZ + 1, 0, 0, |ageFlags|, nFlux) <= w.Length
    ensures r.Ok? ==> w[..Idx3(iZ + 1, 0, 0, |ageFlags|, nFlux)] == spec[..Idx3(iZ + 1, 0, 0, |ageFlags|, nFlux)]
    ensures r.Ok? ==> w[Idx3(iZ + 1, 0, 0, |ageFlags|, nFlux)..] == w0[Idx3(iZ + 1, 0, 0, |ageFlags|, nFlux)..]
  {
    var nA := |ageFlags|;
    Idx3Blocks(iZ + 1, |zFlags|, nA, nFlux);
    for iA := 0 to nA
      invariant nFlux > 0 && zFlags[iZ] == 0 && (exists a :: 0 <= a < iA && ageFlags[a] == 0) ==> Covers(Z, BinCentre(minZ + iZ))
      invariant Idx3(iZ, iA, 0, nA, nFlux) <= w.Length
      invariant w[..Idx3(iZ, iA, 0, nA, nFlux)] == spec[..Idx3(iZ, iA, 0, nA, nFlux)]
      invariant w[Idx3(iZ, iA, 0, nA, nFlux)..] == w0[Idx3(iZ, iA, 0, nA, nFlux)..]
    {
      var c := InterpolateRow(ref, Z, minZ, zFlags, ageFlags, nCh, nFlux, w, iZ, iA, w0, spec);
      if c.Err? {
        return c;
      }
      Idx3Next(iZ, iA, nA, nFlux);
    }
    Idx3Next(iZ, nA, nA, nFlux);
    return Ok(());
  }

  /** The last loop of init_templates_working: every used cell of the
      working buffer interpolated along metallicity, every other cell left
      as it was; the run stops when a used bin centre lies outside the
      template metallicities. */
  method InterpolateZ(ref: seq<real>, Z: seq<real>, minZ: int, zFlags: seq<int>, ageFlags: seq<int>, nCh: nat,
                      nFlux: nat, w: array<real>) returns (r: Result<()>)
    requires Grid(Z) && nFlux <= nCh && |ref| == Size3(nCh, |ageFlags|, |Z|)
    requires w.Length == Size3(|zFlags|, |ageFlags|, nFlux)
    modifies w
    ensures r.Err? <==> ZFails(Z, minZ, zFlags, ageFlags, nFlux)
    ensures r.Ok? ==> w[..] == Working(old(w[..]), ref, Z, minZ, zFlags, ageFlags, nCh, nFlux)
  {
    ghost var w0 := w[..];
    ghost var spec := Working(w0, ref, Z, minZ, zFlags, ageFlags, nCh, nFlux);
    for iZ := 0 to |zFlags|
      invariant forall b :: 0 <= b < iZ && nFlux > 0 && AnyAgeUsed(ageFlags) && zFlags[b] == 0 ==> Covers(Z, BinCentre(minZ + b))
      invariant Idx3(iZ, 0, 0, |ageFlags|, nFlux) <= w.Length
      invariant w[..Idx3(iZ, 0, 0, |ageFlags|, nFlux)] == spec[..Idx3(iZ, 0, 0, |ageFlags|, nFlux)]
      invariant w[Idx3(iZ, 0, 0, |ageFlags|, nFlux)..] == w0[Idx3(iZ, 0, 0, |ageFlags|, nFlux)..]
    {
      var c := InterpolateBlock(ref, Z, minZ, zFlags, ageFlags, nCh, nFlux, w, iZ, w0, spec);
      if c.Err? {
        return c;
      }
    }
    Idx3Blocks(|zFlags|, |zFlags|, |ageFlags|, nFlux);
    assert w[..] == w[..Idx3(|zFlags|, 0, 0, |ageFlags|, nFlux)];
    return Ok(());
  }

  // ---------------------------------------------------------------------------
  // init_templates_working

  /** The call does something: there is dust, or this is the single call
      without dust (iG == -1) that prepares every cell. */
  predicate Active(dust: Option<Absorption>, iG: int)
  {
    dust.Some? || iG == -1
  }

  /** The ready buffer the call leaves: the integrated templates with the
      dust, moved to the observer frame in spectrum mode. */
  function ReadyAfter(integrated: seq<real>, dust: Option<Absorption>, iG: int, ageFlags: seq<int>,
                      bands: Option<seq<Band>>, nObs: nat, z: real, Ly: Option<seq<real>>, nW: nat): (r: seq<real>)
    requires dust.Some? ==> KeepsLength(dust.value)
    requires bands.None? && nObs > 0 ==> 1.0 + z != 0.0
    requires Ly.Some? ==> |Ly.value| == nW
    ensures |r| == |integrated|
  {
    var dusted := Dusted(integrated, dust, iG, ageFlags);
    if bands.None? then Observed(dusted, nObs, z, Ly, nW) else dusted
  }

  /** The number of refSpectra channels: wavelengths or filters. */
  function Channels(bands: Option<seq<Band>>, nW: nat): nat
  {
    if bands.None? then nW else |bands.value|
  }

  /** refSpectra: the transposed ready buffer, or the filter integrals. */
  function RefSpectra(ready: seq<real>, waves: seq<real>, bands: Option<seq<Band>>, ageFlags: seq<int>, nZ: nat): (r: seq<real>)
    requires |ready| == Size3(nZ, |ageFlags|, |waves|)
    requires bands.Some? ==> Grid(waves) && Bands(bands.value)
    ensures |r| == Size3(Channels(bands, |waves|), |ageFlags|, nZ)
  {
    if bands.None? then Transposed(ready, nZ, |ageFlags|, |waves|) else FilterRef(ready, waves, bands.value, ageFlags, nZ)
  }

  /** What init_templates_working needs of the state it is given: the ready
      buffer sized for the integrated templates, the working buffer for
      maxZ - minZ + 1 bins, at least two increasing metallicities, in
      spectrum mode no more channels than wavelengths and a redshift other
      than -1, in filter mode at least two increasing wavelengths; with dust,
      every burst's age step and bin within the flags. */
  ghost predicate Prepared(sp: SedParams, bursts: seq<Ssp>, dust: Option<Absorption>)
    reads sp
  {
    && sp.Valid() && sp.ready != sp.working && sp.minZ <= sp.maxZ + 1
    && |sp.integrated| == sp.ready.Length == Size3(|sp.Z|, |sp.ageStep|, |sp.waves|)
    && sp.working.Length == Size3(sp.maxZ - sp.minZ + 1, |sp.ageStep|, sp.nFlux)
    && Grid(sp.Z)
    && (sp.bands.None? ==> sp.nFlux <= |sp.waves| && (sp.nObs > 0 ==> 1.0 + sp.z != 0.0))
    && (sp.bands.Some? ==> Grid(sp.waves))
    && (dust.Some? ==> KeepsLength(dust.value) && KeysWithin(AgeKeys(bursts), |sp.ageStep|)
                       && KeysWithin(BinKeys(bursts), sp.maxZ - sp.minZ + 1))
  }

  /** memcpy(readyData, integrated, ...). */
  method CopyIntegrated(integrated: seq<real>, ready: array<real>)
    requires |integrated| == ready.Length
    modifies ready
    ensures ready[..] == integrated
  {
    forall q | 0 <= q < ready.Length {
      ready[q] := integrated[q];
    }
  }

  /** The first part of init_templates_working: the ready buffer and the
      flags; nothing happens (None) without dust unless iG == -1. */
  method PrepareReady(sp: SedParams, bursts: array<Ssp>, dust: Option<Absorption>, iG: int)
    returns (flags: Option<(seq<int>, seq<int>)>)
    requires Prepared(sp, bursts[..], dust)
    modifies sp.ready
    ensures flags.None? <==> !Active(dust, iG)
    ensures flags.None? ==> unchanged(sp.ready)
    ensures flags.Some? ==> flags.value.0 == AgeFlags(bursts[..], dust.Some?, |sp.ageStep|)
    ensures flags.Some? ==> flags.value.1 == ZFlags(bursts[..], dust.Some?, sp.maxZ - sp.minZ + 1)
    ensures flags.Some? ==> sp.ready[..] == Dusted(sp.integrated, dust, iG, flags.value.0)
  {
    var nA := |sp.ageStep|;
    var nMaxZ: nat := sp.maxZ - sp.minZ + 1;
    if dust.Some? {
      CopyIntegrated(sp.integrated, sp.ready);
      var ageFlag := AgeFlag(bursts, nA);
      var zFlag := ZFlag(bursts, nMaxZ);
      assert ageFlag[..] == AgeFlags(bursts[..], true, nA);
      assert zFlag[..] == ZFlags(bursts[..], true, nMaxZ);
      var ageFlags, zFlags := ageFlag[..], zFlag[..];
      // dust_absorption, on the ready buffer in place
      var absorbed := dust.value(iG, sp.ready[..], ageFlags);
      assert |absorbed| == sp.ready.Length;
      forall q | 0 <= q < sp.ready.Length {
        sp.ready[q] := absorbed[q];
      }
      assert sp.ready[..] == absorbed;
      assert bursts[..] == old(bursts[..]);
      return Some((ageFlags, zFlags));
    } else if iG == -1 {
      CopyIntegrated(sp.integrated, sp.ready);
      var ageFlag := new int[nA](_ => 0);
      var zFlag := new int[nMaxZ](_ => 0);
      assert ageFlag[..] == AgeFlags(bursts[..], false, nA);
      assert zFlag[..] == ZFlags(bursts[..], false, nMaxZ);
      return Some((ageFlag[..], zFlag[..]));
    }
    return None;
  }

  /** init_templates_working(spectra, pHistories, dustParams, iG): without
      dust and with iG != -1 nothing changes; otherwise the ready buffer
      holds the (dusty, observed-frame) templates and the working buffer
      holds, in every cell whose bin and age step some burst uses (every
      cell without dust), refSpectra interpolated at the bin centre, all other
      working cells keeping their values. The run stops when interp is asked
      to extrapolate. */
  method InitTemplatesWorking(sp: SedParams, bursts: array<Ssp>, dust: Option<Absorption>, iG: int) returns (r: Result<()>)
    requires Prepared(sp, bursts[..], dust)
    modifies sp.ready, sp.working
    ensures !Active(dust, iG) ==> r.Ok? && unchanged(sp.ready) && unchanged(sp.working)
    ensures Active(dust, iG) ==>
      var ageFlags := AgeFlags(bursts[..], dust.Some?, |sp.ageStep|);
      var zFlags := ZFlags(bursts[..], dust.Some?, sp.maxZ - sp.minZ + 1);
      (r.Err? <==> (sp.bands.Some? && FilterFails(sp.waves, sp.bands.value, ageFlags, |sp.Z|))
                   || ZFails(sp.Z, sp.minZ, zFlags, ageFlags, sp.nFlux))
    ensures Active(dust, iG) && r.Ok? ==>
      var ageFlags := AgeFlags(bursts[..], dust.Some?, |sp.ageStep|);
      sp.ready[..] == ReadyAfter(sp.integrated, dust, iG, ageFlags, sp.bands, sp.nObs, sp.z, sp.LyAbsorption, |sp.waves|)
    ensures Active(dust, iG) && r.Ok? ==>
      var ageFlags := AgeFlags(bursts[..], dust.Some?, |sp.ageStep|);
      var zFlags := ZFlags(bursts[..], dust.Some?, sp.maxZ - sp.minZ + 1);
      sp.working[..] == Working(old(sp.working[..]), RefSpectra(sp.ready[..], sp.waves, sp.bands, ageFlags, |sp.Z|),
                                sp.Z, sp.minZ, zFlags, ageFlags, Channels(sp.bands, |sp.waves|), sp.nFlux)
  {
    var flags := PrepareReady(sp, bursts, dust, iG);
    if flags.None? {
      return Ok(());
    }
    var (ageFlag, zFlag) := flags.value;
    var nZ, nA, nW := |sp.Z|, |sp.ageStep|, |sp.waves|;
    var ref: array<real>;
    if sp.bands.None? {
      ObserveReady(sp.ready, Mul(nZ, nA), nW, sp.nObs, sp.z, sp.LyAbsorption);
      ref := Transpose(sp.ready, nZ, nA, nW);
    } else {
      var filtered := FilterTemplates(sp.ready[..], sp.waves, sp.bands.value, ageFlag, nZ);
      if filtered.Err? {
        return Err(filtered.error);
      }
      ref := filtered.value;
    }
    r := InterpolateZ(ref[..], sp.Z, sp.minZ, zFlag, ageFlag, Channels(sp.bands, nW), sp.nFlux, sp.working);
  }
}
