/** The photometric template builder of the magnitude calculator
    (init_templates_ph): the templates are integrated over the time buckets,
    converted to Jansky, integrated through the rest-frame filters, moved to
    the observer frame (wavelengths stretched by 1 + z, fluxes multiplied by
    (1 + z) and the absorption curve), integrated through the observer-frame
    filters, and finally interpolated onto the 40 metallicity bins. */
module Photometry {
  import opened Kernel
  import opened Flat
  import opened MagCalc

  // ---------------------------------------------------------------------------
  // Integration over time: spectra cell (m, j, k) at Idx3(m, j, k, nAge, nWaves).

  /** Sed at offset q of the (metallicity, bucket, wavelength) buffer; offsets
      of a bucket outside the template ages read as zero. */
  function SedAt(t: Template, ageList: seq<real>, q: nat): real
    requires Loaded(t)
  {
    if |ageList| == 0 || |t.waves| == 0 then 0.0
    else
      var (m, j, k) := Split3(q, |ageList|, |t.waves|);
      if m < NMETALS && BucketInside(t.age, ageList, j) then Sed(t, ageList, j, k, m) else 0.0
  }

  /** The first n cells of the time-integrated spectra, in buffer order. */
  function SedCells(t: Template, ageList: seq<real>, n: nat): (s: seq<real>)
    requires Loaded(t)
    ensures |s| == n
  {
    seq(n, q requires 0 <= q < n => SedAt(t, ageList, q))
  }

  /** Offset Idx3(m, j, k) of a bucket inside the template ages holds Sed. */
  lemma SedAtCell(t: Template, ageList: seq<real>, m: nat, j: nat, k: nat)
    requires Loaded(t) && m < NMETALS && j < |ageList| && k < |t.waves| && BucketInside(t.age, ageList, j)
    ensures SedAt(t, ageList, Idx3(m, j, k, |ageList|, |t.waves|)) == Sed(t, ageList, j, k, m)
  {
    Split3Idx(m, j, k, |ageList|, |t.waves|);
  }

  /** Cell (m, j, k), written at its offset q = Idx3(m, j, k) after the cells
      before it; spec is the whole buffer the integration must produce. */
  method StoreSed(t: Template, ageList: seq<real>, m: nat, j: nat, k: nat, a: array<real>, q: nat, ghost spec: seq<real>)
    returns (r: Result<()>)
    requires Loaded(t) && m < NMETALS && j < |ageList| && k < |t.waves|
    requires q == Idx3(m, j, k, |ageList|, |t.waves|) < a.Length
    requires spec == SedCells(t, ageList, a.Length) && a[..q] == spec[..q]
    modifies a
    ensures r.Err? <==> !BucketInside(t.age, ageList, j)
    ensures r.Ok? ==> a[..q + 1] == spec[..q + 1]
  {
    var b := SedCell(t, ageList, j, k, m);
    if b.Err? {
      return Err(b.error);
    }
    SedAtCell(t, ageList, m, j, k);
    assert spec[q] == SedAt(t, ageList, q);
    a[q] := b.value;
    assert a[..q + 1] == a[..q] + [b.value];
    assert spec[..q + 1] == spec[..q] + [spec[q]];
    return Ok(());
  }

  /** The spectrum of metallicity m over bucket j, from offset p = Idx3(m, j, 0). */
  method IntegratePhRow(t: Template, ageList: seq<real>, m: nat, j: nat, a: array<real>, p: nat, ghost spec: seq<real>)
    returns (r: Result<()>)
    requires Loaded(t) && m < NMETALS && j < |ageList|
    requires p == Idx3(m, j, 0, |ageList|, |t.waves|) && p + |t.waves| <= a.Length
    requires spec == SedCells(t, ageList, a.Length) && a[..p] == spec[..p]
    modifies a
    ensures r.Err? <==> |t.waves| > 0 && !BucketInside(t.age, ageList, j)
    ensures r.Ok? ==> a[..p + |t.waves|] == spec[..p + |t.waves|]
  {
    for k := 0 to |t.waves|
      invariant 0 < k ==> BucketInside(t.age, ageList, j)
      invariant a[..p + k] == spec[..p + k]
    {
      var b := StoreSed(t, ageList, m, j, k, a, p + k, spec);
      if b.Err? {
        return b;
      }
    }
    return Ok(());
  }

  /** All buckets of metallicity m, from offset p = Idx3(m, 0, 0) to
      Idx3(m + 1, 0, 0). */
  method IntegratePhBlock(t: Template, ageList: seq<real>, m: nat, a: array<real>, p: nat, ghost spec: seq<real>)
    returns (r: Result<()>)
    requires Loaded(t) && m < NMETALS
    requires p == Idx3(m, 0, 0, |ageList|, |t.waves|) <= Idx3(m + 1, 0, 0, |ageList|, |t.waves|) <= a.Length
    requires spec == SedCells(t, ageList, a.Length) && a[..p] == spec[..p]
    modifies a
    ensures r.Err? <==> |t.waves| > 0 && !AgesCovered(t.age, ageList)
    ensures r.Ok? ==> a[..Idx3(m + 1, 0, 0, |ageList|, |t.waves|)] == spec[..Idx3(m + 1, 0, 0, |ageList|, |t.waves|)]
  {
    var nA, nW := |ageList|, |t.waves|;
    var q := p;
    Idx3Rows(m, 0, nA, nA, nW);
    for j := 0 to nA
      invariant q == Idx3(m, j, 0, nA, nW) <= Idx3(m + 1, 0, 0, nA, nW)
      invariant nW > 0 ==> forall j' :: 0 <= j' < j ==> BucketInside(t.age, ageList, j')
      invariant a[..q] == spec[..q]
    {
      Idx3Next(m, j, nA, nW);
      Idx3Rows(m, j + 1, nA, nA, nW);
      var b := IntegratePhRow(t, ageList, m, j, a, q, spec);
      if b.Err? {
        return b;
      }
      q := q + nW;
    }
    Idx3Next(m, nA, nA, nW);
    return Ok(());
  }

  /** The time integration of init_templates_ph into the spectra buffer a. */
  method IntegratePh(t: Template, ageList: seq<real>, a: array<real>) returns (r: Result<()>)
    requires Loaded(t) && a.Length == Size3(NMETALS, |ageList|, |t.waves|)
    modifies a
    ensures r.Err? <==> |t.waves| > 0 && !AgesCovered(t.age, ageList)
    ensures r.Ok? ==> a[..] == SedCells(t, ageList, a.Length)
  {
    var nA, nW := |ageList|, |t.waves|;
    ghost var spec := SedCells(t, ageList, a.Length);
    for m := 0 to NMETALS
      invariant Idx3(m, 0, 0, nA, nW) <= a.Length
      invariant 0 < m ==> nW == 0 || AgesCovered(t.age, ageList)
      invariant a[..Idx3(m, 0, 0, nA, nW)] == spec[..Idx3(m, 0, 0, nA, nW)]
    {
      Idx3Blocks(m, m + 1, nA, nW);
      Idx3Blocks(m + 1, NMETALS, nA, nW);
      var b := IntegratePhBlock(t, ageList, m, a, Idx3(m, 0, 0, nA, nW), spec);
      if b.Err? {
        return b;
      }
    }
    Idx3Blocks(NMETALS, NMETALS, nA, nW);
    assert a[..] == a[..Idx3(NMETALS, 0, 0, nA, nW)];
    return Ok(());
  }

  // ---------------------------------------------------------------------------
  // Scaling every spectrum in place.

  /** s read as rows of |factor| entries, each row multiplied entry by entry by
      factor. */
  function ScaleRows(s: seq<real>, factor: seq<real>): (r: seq<real>)
    requires 0 < |factor| || |s| == 0
    ensures |r| == |s|
  {
    seq(|s|, q requires 0 <= q < |s| => ScaleAt(s, factor, q))
  }

  function ScaleAt(s: seq<real>, factor: seq<real>, q: nat): real
    requires 0 < |factor| && q < |s|
  {
    Times(s[q], factor[Split(q, |factor|).1])
  }

  lemma ScaleRowsCell(s: seq<real>, factor: seq<real>, r: nat, k: nat)
    requires k < |factor| && Idx(r, k, |factor|) < |s|
    ensures ScaleRows(s, factor)[Idx(r, k, |factor|)] == Times(s[Idx(r, k, |factor|)], factor[k])
  {
    SplitIdx(r, k, |factor|);
    assert ScaleRows(s, factor)[Idx(r, k, |factor|)] == ScaleAt(s, factor, Idx(r, k, |factor|));
  }

  /** The conversion factor to Jansky at every wavelength. */
  function JanskyFactors(waves: seq<real>): (f: seq<real>)
    ensures |f| == |waves|
  {
    seq(|waves|, k requires 0 <= k < |waves| => Jansky(waves[k]))
  }

  /** The observer-frame factor (1 + z)*absorption[k] at every wavelength. */
  function ObsFactors(z: real, absorption: seq<real>): (f: seq<real>)
    ensures |f| == |absorption|
  {
    seq(|absorption|, k requires 0 <= k < |absorption| => (1.0 + z) * absorption[k])
  }

  /** The wavelengths stretched to the observer frame. */
  function ObsWaves(waves: seq<real>, z: real): (w: seq<real>)
    ensures |w| == |waves|
  {
    Stretched(waves, 1.0 + z)
  }

  /** Row r of the spectra buffer, from p = Idx(r, 0, |factor|), multiplied
      entry by entry by factor; s is the buffer before scaling. */
  method ScaleRow(a: array<real>, r: nat, p: nat, factor: seq<real>, ghost s: seq<real>, ghost spec: seq<real>)
    requires (0 < |factor| || |s| == 0) && |s| == a.Length && spec == ScaleRows(s, factor)
    requires p == Idx(r, 0, |factor|) && p + |factor| <= a.Length
    requires a[..p] == spec[..p] && forall q :: p <= q < a.Length ==> a[q] == s[q]
    modifies a
    ensures a[..p + |factor|] == spec[..p + |factor|]
    ensures forall q :: p + |factor| <= q < a.Length ==> a[q] == s[q]
  {
    for k := 0 to |factor|
      invariant a[..p + k] == spec[..p + k]
      invariant forall q :: p + k <= q < a.Length ==> a[q] == s[q]
    {
      ScaleRowsCell(s, factor, r, k);
      a[p + k] := Times(a[p + k], factor[k]);
      assert a[..p + k + 1] == a[..p + k] + [a[p + k]];
      assert spec[..p + k + 1] == spec[..p + k] + [spec[p + k]];
    }
  }

  /** pData[k] *= factor[k] over every row of the spectra buffer. */
  method ScaleSpectra(a: array<real>, rows: nat, factor: seq<real>)
    requires (0 < |factor| || a.Length == 0) && a.Length == Mul(rows, |factor|)
    modifies a
    ensures a[..] == ScaleRows(old(a[..]), factor)
  {
    ghost var s := a[..];
    ghost var spec := ScaleRows(s, factor);
    var nW := |factor|;
    var p := 0;
    for r := 0 to rows
      invariant p == Mul(r, nW) <= a.Length
      invariant a[..p] == spec[..p]
      invariant forall q :: p <= q < a.Length ==> a[q] == s[q]
    {
      MulOrder(r + 1, rows, nW);
      ScaleRow(a, r, p, factor, s, spec);
      p := p + nW;
    }
    assert a[..] == a[..p];
  }

  /** waves[i] *= 1 + z. */
  method RedshiftWaves(w: array<real>, z: real)
    modifies w
    ensures w[..] == ObsWaves(old(w[..]), z)
  {
    ghost var s := w[..];
    for i := 0 to w.Length
      invariant forall k :: 0 <= k < i ==> w[k] == ObsWaves(s, z)[k]
      invariant forall k :: i <= k < w.Length ==> w[k] == s[k]
    {
      w[i] := w[i] * (1.0 + z);
    }
    assert w[..] == ObsWaves(s, z);
  }

  // ---------------------------------------------------------------------------
  // Integration through the filters: refSpectra cell (f, j, m) at
  // Idx3(f, j, m, nAge, NMETALS).

  /** The spectra and wavelengths of both frames. */
  datatype Frames = Frames(rest: seq<real>, restWaves: seq<real>, obs: seq<real>, obsWaves: seq<real>)

  /** The filter bank: nWaves samples per filter, the nRest rest-frame
      filters first, then the observer-frame ones; nAge buckets. */
  datatype Bands = Bands(filters: seq<real>, nRest: nat, nFilter: nat, nAge: nat, nWaves: nat)

  predicate FiltersShaped(b: Bands)
  {
    b.nRest <= b.nFilter && |b.filters| == Mul(b.nFilter, b.nWaves)
  }

  predicate BandsShaped(b: Bands, fr: Frames)
  {
    && FiltersShaped(b)
    && |fr.rest| == Size3(NMETALS, b.nAge, b.nWaves) && |fr.obs| == Size3(NMETALS, b.nAge, b.nWaves)
    && |fr.restWaves| == b.nWaves && |fr.obsWaves| == b.nWaves
  }

  /** Filter f's transmission curve: nWaves samples from offset f*nWaves. */
  function FilterCurve(b: Bands, f: nat): (c: seq<real>)
    requires FiltersShaped(b) && f < b.nFilter
    ensures |c| == b.nWaves
  {
    IdxRowEnd(f, b.nWaves, b.nFilter);
    b.filters[Idx(f, 0, b.nWaves)..Idx(f, b.nWaves, b.nWaves)]
  }

  /** The spectrum of metallicity m over bucket j in a spectra buffer. */
  function Spectrum(s: seq<real>, nA: nat, nW: nat, m: nat, j: nat): (sp: seq<real>)
    requires |s| == Size3(NMETALS, nA, nW) && m < NMETALS && j < nA
    ensures |sp| == nW
  {
    Idx3RowEnd(m, j, NMETALS, nA, nW);
    s[Idx3(m, j, 0, nA, nW)..Idx3(m, j, nW, nA, nW)]
  }

  /** Flux of metallicity m over bucket j through filter f: a rest-frame
      filter sees the rest-frame spectrum, an observer-frame filter the
      redshifted one on the stretched wavelengths. */
  function Band(b: Bands, fr: Frames, f: nat, j: nat, m: nat): real
    requires BandsShaped(b, fr) && f < b.nFilter && j < b.nAge && m < NMETALS
  {
    if f < b.nRest then
      FilterIntegral(FilterCurve(b, f), Spectrum(fr.rest, b.nAge, b.nWaves, m, j), fr.restWaves, b.nWaves)
    else
      FilterIntegral(FilterCurve(b, f), Spectrum(fr.obs, b.nAge, b.nWaves, m, j), fr.obsWaves, b.nWaves)
  }

  function BandAt(b: Bands, fr: Frames, q: nat): real
    requires BandsShaped(b, fr)
  {
    if b.nAge == 0 then 0.0
    else
      var (f, j, m) := Split3(q, b.nAge, NMETALS);
      if f < b.nFilter then Band(b, fr, f, j, m) else 0.0
  }

  /** The first n cells of refSpectra, in buffer order. */
  function BandCells(b: Bands, fr: Frames, n: nat): (s: seq<real>)
    requires BandsShaped(b, fr)
    ensures |s| == n
  {
    seq(n, q requires 0 <= q < n => BandAt(b, fr, q))
  }

  lemma BandAtCell(b: Bands, fr: Frames, f: nat, j: nat, m: nat)
    requires BandsShaped(b, fr) && f < b.nFilter && j < b.nAge && m < NMETALS
    ensures BandAt(b, fr, Idx3(f, j, m, b.nAge, NMETALS)) == Band(b, fr, f, j, m)
  {
    Split3Idx(f, j, m, b.nAge, NMETALS);
  }

  /** The frame filter f reads. */
  predicate Reads(b: Bands, fr: Frames, f: nat, s: seq<real>, w: seq<real>)
  {
    if f < b.nRest then s == fr.rest && w == fr.restWaves
    else s == fr.obs && w == fr.obsWaves
  }

  /** Cell (f, j, m): trapz_filter of filter f and the spectrum of (m, j). */
  method StoreBand(b: Bands, ghost fr: Frames, f: nat, j: nat, m: nat, s: seq<real>, w: seq<real>, a: array<real>, q: nat, ghost spec: seq<real>)
    requires BandsShaped(b, fr) && f < b.nFilter && j < b.nAge && m < NMETALS && Reads(b, fr, f, s, w)
    requires q == Idx3(f, j, m, b.nAge, NMETALS) < a.Length
    requires spec == BandCells(b, fr, a.Length) && a[..q] == spec[..q]
    modifies a
    ensures a[..q + 1] == spec[..q + 1]
  {
    var v := TrapzFilter(FilterCurve(b, f), Spectrum(s, b.nAge, b.nWaves, m, j), w);
    BandAtCell(b, fr, f, j, m);
    assert spec[q] == BandAt(b, fr, q);
    a[q] := v;
    assert a[..q + 1] == a[..q] + [v];
    assert spec[..q + 1] == spec[..q] + [spec[q]];
  }

  /** The NMETALS cells of filter f and bucket j, from p = Idx3(f, j, 0). */
  method BandRow(b: Bands, ghost fr: Frames, f: nat, j: nat, s: seq<real>, w: seq<real>, a: array<real>, p: nat, ghost spec: seq<real>)
    requires BandsShaped(b, fr) && f < b.nFilter && j < b.nAge && Reads(b, fr, f, s, w)
    requires p == Idx3(f, j, 0, b.nAge, NMETALS) && p + NMETALS <= a.Length
    requires spec == BandCells(b, fr, a.Length) && a[..p] == spec[..p]
    modifies a
    ensures a[..p + NMETALS] == spec[..p + NMETALS]
  {
    for m := 0 to NMETALS
      invariant a[..p + m] == spec[..p + m]
    {
      StoreBand(b, fr, f, j, m, s, w, a, p + m, spec);
    }
  }

  /** All cells of filter f, from p = Idx3(f, 0, 0) to Idx3(f + 1, 0, 0). */
  method BandBlock(b: Bands, ghost fr: Frames, f: nat, s: seq<real>, w: seq<real>, a: array<real>, p: nat, ghost spec: seq<real>)
    requires BandsShaped(b, fr) && f < b.nFilter && Reads(b, fr, f, s, w)
    requires p == Idx3(f, 0, 0, b.nAge, NMETALS) <= Idx3(f + 1, 0, 0, b.nAge, NMETALS) <= a.Length
    requires spec == BandCells(b, fr, a.Length) && a[..p] == spec[..p]
    modifies a
    ensures a[..Idx3(f + 1, 0, 0, b.nAge, NMETALS)] == spec[..Idx3(f + 1, 0, 0, b.nAge, NMETALS)]
  {
    var q := p;
    Idx3Rows(f, 0, b.nAge, b.nAge, NMETALS);
    for j := 0 to b.nAge
      invariant q == Idx3(f, j, 0, b.nAge, NMETALS) <= Idx3(f + 1, 0, 0, b.nAge, NMETALS)
      invariant a[..q] == spec[..q]
    {
      Idx3Next(f, j, b.nAge, NMETALS);
      Idx3Rows(f, j + 1, b.nAge, b.nAge, NMETALS);
      BandRow(b, fr, f, j, s, w, a, q, spec);
      q := q + NMETALS;
    }
    Idx3Next(f, b.nAge, b.nAge, NMETALS);
  }

  /** Filters lo..hi, all of one frame, from Idx3(lo, 0, 0) to Idx3(hi, 0, 0). */
  method BandPass(b: Bands, ghost fr: Frames, lo: nat, hi: nat, s: seq<real>, w: seq<real>, a: array<real>, ghost spec: seq<real>)
    requires BandsShaped(b, fr) && lo <= hi <= b.nFilter
    requires forall f :: lo <= f < hi ==> Reads(b, fr, f, s, w)
    requires Idx3(lo, 0, 0, b.nAge, NMETALS) <= Idx3(hi, 0, 0, b.nAge, NMETALS) <= a.Length == Size3(b.nFilter, b.nAge, NMETALS)
    requires spec == BandCells(b, fr, a.Length)
    requires a[..Idx3(lo, 0, 0, b.nAge, NMETALS)] == spec[..Idx3(lo, 0, 0, b.nAge, NMETALS)]
    modifies a
    ensures a[..Idx3(hi, 0, 0, b.nAge, NMETALS)] == spec[..Idx3(hi, 0, 0, b.nAge, NMETALS)]
  {
    Idx3Blocks(lo, b.nFilter, b.nAge, NMETALS);
    for f := lo to hi
      invariant Idx3(f, 0, 0, b.nAge, NMETALS) <= a.Length
      invariant a[..Idx3(f, 0, 0, b.nAge, NMETALS)] == spec[..Idx3(f, 0, 0, b.nAge, NMETALS)]
    {
      Idx3Blocks(f, f + 1, b.nAge, NMETALS);
      Idx3Blocks(f + 1, b.nFilter, b.nAge, NMETALS);
      BandBlock(b, fr, f, s, w, a, Idx3(f, 0, 0, b.nAge, NMETALS), spec);
    }
  }

  // ---------------------------------------------------------------------------
  // init_templates_ph as a whole.

  /** Filter f's flux over bucket j for each of the five template
      metallicities. */
  function MetalBands(b: Bands, fr: Frames, f: nat, j: nat): (row: seq<real>)
    requires BandsShaped(b, fr) && f < b.nFilter && j < b.nAge
    ensures |row| == NMETALS
  {
    seq(NMETALS, m requires 0 <= m < NMETALS => Band(b, fr, f, j, m))
  }

  /** Cell m of that row is template m's band flux. */
  lemma BandCellsAt(b: Bands, fr: Frames, f: nat, j: nat, m: nat)
    requires BandsShaped(b, fr) && f < b.nFilter && j < b.nAge && m < NMETALS
    ensures Idx(RefRow(j, f, b.nAge, b.nFilter, true), m, NMETALS) < |BandCells(b, fr, Size3(b.nAge, b.nFilter, NMETALS))|
    ensures BandCells(b, fr, Size3(b.nAge, b.nFilter, NMETALS))[Idx(RefRow(j, f, b.nAge, b.nFilter, true), m, NMETALS)]
         == Band(b, fr, f, j, m)
  {
    Size3Swap(b.nFilter, b.nAge, NMETALS);
    Idx3Bounds(f, j, m, b.nFilter, b.nAge, NMETALS);
    BandAtCell(b, fr, f, j, m);
  }

  /** The metallicity row init_templates_ph interpolates for filter f and
      bucket j holds the five templates' band fluxes. */
  lemma MetalRowBands(b: Bands, fr: Frames, f: nat, j: nat)
    requires BandsShaped(b, fr) && f < b.nFilter && j < b.nAge
    ensures Idx(RefRow(j, f, b.nAge, b.nFilter, true), NMETALS, NMETALS) <= |BandCells(b, fr, Size3(b.nAge, b.nFilter, NMETALS))|
    ensures MetalRow(BandCells(b, fr, Size3(b.nAge, b.nFilter, NMETALS)), RefRow(j, f, b.nAge, b.nFilter, true))
         == MetalBands(b, fr, f, j)
  {
    RefRowBounds(j, f, b.nAge, b.nFilter, true);
    var row := MetalRow(BandCells(b, fr, Size3(b.nAge, b.nFilter, NMETALS)), RefRow(j, f, b.nAge, b.nFilter, true));
    forall m | 0 <= m < NMETALS
      ensures row[m] == MetalBands(b, fr, f, j)[m]
    {
      BandCellsAt(b, fr, f, j, m);
    }
  }

  /** Filter f's flux over bucket j interpolated at metallicity bin. */
  function BandsFlux(b: Bands, fr: Frames, bin: nat, j: nat, f: nat): real
    requires BandsShaped(b, fr) && f < b.nFilter && j < b.nAge
  {
    RefMetalsTable(MetalBands(b, fr, f, j));
    PiecewiseLinear(RefMetals, MetalBands(b, fr, f, j), bin as real)
  }

  /** Cell (bin, j, f) of the interpolated band fluxes is BandsFlux. */
  lemma BandsFluxCell(b: Bands, fr: Frames, bin: nat, j: nat, f: nat)
    requires BandsShaped(b, fr) && bin < NUM_Z && j < b.nAge && f < b.nFilter
    ensures Idx3(bin, j, f, b.nAge, b.nFilter) < Size3(NUM_Z, b.nAge, b.nFilter)
    ensures ZCells(BandCells(b, fr, Size3(b.nAge, b.nFilter, NMETALS)), b.nAge, b.nFilter, true,
                   Size3(NUM_Z, b.nAge, b.nFilter))[Idx3(bin, j, f, b.nAge, b.nFilter)]
         == BandsFlux(b, fr, bin, j, f)
  {
    InterpolatedCell(BandCells(b, fr, Size3(b.nAge, b.nFilter, NMETALS)), b.nAge, b.nFilter, true, bin, j, f);
    MetalRowBands(b, fr, f, j);
  }

  /** The time-integrated spectra in Jansky: the rest frame. */
  function PhRest(t: Template, ageList: seq<real>): (s: seq<real>)
    requires Loaded(t)
    ensures |s| == Size3(NMETALS, |ageList|, |t.waves|)
  {
    Size3IsProduct(NMETALS, |ageList|, |t.waves|);
    ScaleRows(SedCells(t, ageList, Size3(NMETALS, |ageList|, |t.waves|)), JanskyFactors(t.waves))
  }

  /** Both frames as init_templates_ph builds them. */
  function PhFrames(t: Template, ageList: seq<real>, z: real, absorption: seq<real>): Frames
    requires Loaded(t) && |absorption| == |t.waves|
  {
    var rest := PhRest(t, ageList);
    Size3IsProduct(NMETALS, |ageList|, |t.waves|);
    Frames(rest, t.waves, ScaleRows(rest, ObsFactors(z, absorption)), ObsWaves(t.waves, z))
  }

  function PhBands(t: Template, ageList: seq<real>, filters: seq<real>, nRest: nat, nObs: nat): Bands
  {
    Bands(filters, nRest, nRest + nObs, |ageList|, |t.waves|)
  }

  /** init_templates_ph, from the loaded templates on: the NUM_Z interpolated
      magnitudes templates, cell (z, j, f) at Idx3(z, j, f) over (bin, bucket,
      filter). It halts exactly when some bucket leaves the template ages. */
  method InitTemplatesPh(t: Template, ageList: seq<real>, z: real, filters: seq<real>, nRest: nat, nObs: nat,
                         absorption: seq<real>) returns (r: Result<seq<real>>)
    requires Loaded(t) && |absorption| == |t.waves| && |filters| == Mul(nRest + nObs, |t.waves|)
    ensures r.Err? <==> |t.waves| > 0 && !AgesCovered(t.age, ageList)
    ensures r.Ok? ==> r.value == ZCells(BandCells(PhBands(t, ageList, filters, nRest, nObs),
                                                  PhFrames(t, ageList, z, absorption),
                                                  Size3(|ageList|, nRest + nObs, NMETALS)),
                                        |ageList|, nRest + nObs, true, Size3(NUM_Z, |ageList|, nRest + nObs))
  {
    var nA, nW, nF := |ageList|, |t.waves|, nRest + nObs;
    var waves := new real[nW](k requires 0 <= k < nW => t.waves[k]);
    assert waves[..] == t.waves;
    var spectra := new real[Size3(NMETALS, nA, nW)];
    var ok := IntegratePh(t, ageList, spectra);
    if ok.Err? {
      return Err(ok.error);
    }
    var b := Bands(filters, nRest, nF, nA, nW);
    ghost var fr := PhFrames(t, ageList, z, absorption);
    Size3Swap(nF, nA, NMETALS);
    var refSpectra := new real[Size3(nF, nA, NMETALS)];
    ghost var spec := BandCells(b, fr, refSpectra.Length);
    Size3IsProduct(NMETALS, nA, nW);
    ScaleSpectra(spectra, Mul(NMETALS, nA), JanskyFactors(waves[..]));
    assert spectra[..] == fr.rest && waves[..] == fr.restWaves;
    Idx3Blocks(0, nRest, nA, NMETALS);
    Idx3Blocks(nRest, nF, nA, NMETALS);
    BandPass(b, fr, 0, nRest, spectra[..], waves[..], refSpectra, spec);
    RedshiftWaves(waves, z);
    ScaleSpectra(spectra, Mul(NMETALS, nA), ObsFactors(z, absorption));
    assert spectra[..] == fr.obs && waves[..] == fr.obsWaves;
    Idx3Blocks(nF, nF, nA, NMETALS);
    BandPass(b, fr, nRest, nF, spectra[..], waves[..], refSpectra, spec);
    assert refSpectra[..] == refSpectra[..Idx3(nF, 0, 0, nA, NMETALS)];
    assert b == PhBands(t, ageList, filters, nRest, nObs);
    assert refSpectra[..] == BandCells(b, fr, Size3(nA, nF, NMETALS));
    var flux := InterpolateZ(refSpectra[..], nA, nF, true);
    return Ok(flux);
  }

  // ---------------------------------------------------------------------------
  // What the photometric templates mean.

  /** A spectrum of a scaled buffer is that spectrum scaled. */
  lemma ScaleSpectrum(s: seq<real>, factor: seq<real>, nA: nat, m: nat, j: nat)
    requires (0 < |factor| || |s| == 0) && |s| == Size3(NMETALS, nA, |factor|) && m < NMETALS && j < nA
    ensures Spectrum(ScaleRows(s, factor), nA, |factor|, m, j) == ScaleRows(Spectrum(s, nA, |factor|, m, j), factor)
  {
    var nW := |factor|;
    forall k | 0 <= k < nW
      ensures Spectrum(ScaleRows(s, factor), nA, nW, m, j)[k] == ScaleRows(Spectrum(s, nA, nW, m, j), factor)[k]
    {
      Idx3Bounds(m, j, k, NMETALS, nA, nW);
      ScaleRowsCell(s, factor, Idx(m, j, nA), k);
      ScaleRowsCell(Spectrum(s, nA, nW, m, j), factor, 0, k);
      SpectrumCell(s, nA, nW, m, j, k);
      SpectrumCell(ScaleRows(s, factor), nA, nW, m, j, k);
    }
  }

  lemma SpectrumCell(s: seq<real>, nA: nat, nW: nat, m: nat, j: nat, k: nat)
    requires |s| == Size3(NMETALS, nA, nW) && m < NMETALS && j < nA && k < nW
    ensures Idx3(m, j, k, nA, nW) < |s|
    ensures Spectrum(s, nA, nW, m, j)[k] == s[Idx3(m, j, k, nA, nW)]
  {
    Idx3Bounds(m, j, k, NMETALS, nA, nW);
    Idx3RowEnd(m, j, NMETALS, nA, nW);
  }

  /** The rest-frame spectrum in Jansky of metallicity m over bucket j, cell
      by cell as init_templates_sp computes it. */
  function RestSpectrum(t: Template, ageList: seq<real>, j: nat, m: nat): (sp: seq<real>)
    requires Loaded(t) && j < |ageList| && m < NMETALS && BucketInside(t.age, ageList, j)
    ensures |sp| == |t.waves|
  {
    seq(|t.waves|, k requires 0 <= k < |t.waves| => RestFlux(t, ageList, j, k, m))
  }

  /** Both template builders agree on the rest-frame spectra: the photometric
      pipeline's time integration followed by the Jansky scaling yields
      RestFlux at every wavelength. */
  lemma PhRestSpectrum(t: Template, ageList: seq<real>, j: nat, m: nat)
    requires Loaded(t) && j < |ageList| && m < NMETALS && BucketInside(t.age, ageList, j)
    ensures Spectrum(PhRest(t, ageList), |ageList|, |t.waves|, m, j) == RestSpectrum(t, ageList, j, m)
  {
    forall k | 0 <= k < |t.waves|
      ensures Spectrum(PhRest(t, ageList), |ageList|, |t.waves|, m, j)[k] == RestFlux(t, ageList, j, k, m)
    {
      PhRestCell(t, ageList, j, m, k);
    }
  }

  lemma PhRestCell(t: Template, ageList: seq<real>, j: nat, m: nat, k: nat)
    requires Loaded(t) && j < |ageList| && m < NMETALS && k < |t.waves| && BucketInside(t.age, ageList, j)
    ensures Spectrum(PhRest(t, ageList), |ageList|, |t.waves|, m, j)[k] == RestFlux(t, ageList, j, k, m)
  {
    var nA, nW := |ageList|, |t.waves|;
    SpectrumCell(PhRest(t, ageList), nA, nW, m, j, k);
    PhRestAt(t, ageList, m, j, k);
    SedAtCell(t, ageList, m, j, k);
  }

  /** Offset Idx3(m, j, k) of the Jansky-scaled buffer holds the time-integrated
      cell times the Jansky factor of wavelength k. */
  lemma PhRestAt(t: Template, ageList: seq<real>, m: nat, j: nat, k: nat)
    requires Loaded(t) && j < |ageList| && m < NMETALS && k < |t.waves|
    ensures Idx3(m, j, k, |ageList|, |t.waves|) < |PhRest(t, ageList)|
    ensures PhRest(t, ageList)[Idx3(m, j, k, |ageList|, |t.waves|)]
         == Times(SedAt(t, ageList, Idx3(m, j, k, |ageList|, |t.waves|)), Jansky(t.waves[k]))
  {
    var nA, nW := |ageList|, |t.waves|;
    var q := Idx3(m, j, k, nA, nW);
    var sed := SedCells(t, ageList, Size3(NMETALS, nA, nW));
    Idx3Bounds(m, j, k, NMETALS, nA, nW);
    ScaleRowsCell(sed, JanskyFactors(t.waves), Idx(m, j, nA), k);
    assert sed[q] == SedAt(t, ageList, q);
  }

  /** A rest-frame filter integrates the rest-frame spectrum on the template
      wavelengths. */
  lemma PhRestBand(t: Template, ageList: seq<real>, z: real, filters: seq<real>, nRest: nat, nObs: nat,
                   absorption: seq<real>, f: nat, j: nat, m: nat)
    requires Loaded(t) && |absorption| == |t.waves| && |filters| == Mul(nRest + nObs, |t.waves|)
    requires f < nRest && j < |ageList| && m < NMETALS && BucketInside(t.age, ageList, j)
    ensures Band(PhBands(t, ageList, filters, nRest, nObs), PhFrames(t, ageList, z, absorption), f, j, m)
         == FilterIntegral(FilterCurve(PhBands(t, ageList, filters, nRest, nObs), f),
                           RestSpectrum(t, ageList, j, m), t.waves, |t.waves|)
  {
    PhRestSpectrum(t, ageList, j, m);
  }

  /** An observer-frame filter integrates the rest-frame spectrum multiplied by
      (1 + z)*absorption, on the wavelengths stretched by 1 + z. */
  lemma PhObsBand(t: Template, ageList: seq<real>, z: real, filters: seq<real>, nRest: nat, nObs: nat,
                  absorption: seq<real>, f: nat, j: nat, m: nat)
    requires Loaded(t) && |absorption| == |t.waves| && |filters| == Mul(nRest + nObs, |t.waves|)
    requires nRest <= f < nRest + nObs && j < |ageList| && m < NMETALS && BucketInside(t.age, ageList, j)
    ensures Band(PhBands(t, ageList, filters, nRest, nObs), PhFrames(t, ageList, z, absorption), f, j, m)
         == FilterIntegral(FilterCurve(PhBands(t, ageList, filters, nRest, nObs), f),
                           ScaleRows(RestSpectrum(t, ageList, j, m), ObsFactors(z, absorption)),
                           ObsWaves(t.waves, z), |t.waves|)
  {
    PhRestSpectrum(t, ageList, j, m);
    Size3IsProduct(NMETALS, |ageList|, |t.waves|);
    ScaleSpectrum(PhRest(t, ageList), ObsFactors(z, absorption), |ageList|, m, j);
  }

  /** With no absorption the observer-frame scaling multiplies by 1 + z. */
  lemma UnabsorbedFactors(rest: seq<real>, z: real, absorption: seq<real>)
    requires |absorption| == |rest| && forall k :: 0 <= k < |absorption| ==> absorption[k] == 1.0
    ensures ScaleRows(rest, ObsFactors(z, absorption)) == Scaled(1.0 + z, rest)
  {
    forall k | 0 <= k < |rest|
      ensures ScaleRows(rest, ObsFactors(z, absorption))[k] == Scaled(1.0 + z, rest)[k]
    {
      ScaleRowsCell(rest, ObsFactors(z, absorption), 0, k);
    }
  }

  /** Without absorption an observer-frame filter integrates the rest-frame
      spectrum multiplied by 1 + z on the wavelengths stretched by 1 + z, which
      is (1 + z)^2 times the rest-frame integral (FilterIntegralStretched). */
  lemma PhObsBandUnabsorbed(t: Template, ageList: seq<real>, z: real, filters: seq<real>, nRest: nat, nObs: nat,
                            absorption: seq<real>, f: nat, j: nat, m: nat)
    requires Loaded(t) && |absorption| == |t.waves| && |filters| == Mul(nRest + nObs, |t.waves|)
    requires nRest <= f < nRest + nObs && j < |ageList| && m < NMETALS && BucketInside(t.age, ageList, j)
    requires forall k :: 0 <= k < |absorption| ==> absorption[k] == 1.0
    ensures Band(PhBands(t, ageList, filters, nRest, nObs), PhFrames(t, ageList, z, absorption), f, j, m)
         == FilterIntegral(FilterCurve(PhBands(t, ageList, filters, nRest, nObs), f),
                           Scaled(1.0 + z, RestSpectrum(t, ageList, j, m)), Stretched(t.waves, 1.0 + z), |t.waves|)
  {
    PhObsBand(t, ageList, z, filters, nRest, nObs, absorption, f, j, m);
    UnabsorbedFactors(RestSpectrum(t, ageList, j, m), z, absorption);
  }

  /** Cell (z, j, f) of the photometric templates: the five template
      metallicities' fluxes through filter f over bucket j, interpolated at
      metallicity bin z. */
  function PhFlux(t: Template, ageList: seq<real>, z: real, filters: seq<real>, nRest: nat, nObs: nat,
                  absorption: seq<real>, bin: nat, j: nat, f: nat): real
    requires Loaded(t) && |absorption| == |t.waves| && |filters| == Mul(nRest + nObs, |t.waves|)
    requires j < |ageList| && f < nRest + nObs
  {
    BandsFlux(PhBands(t, ageList, filters, nRest, nObs), PhFrames(t, ageList, z, absorption), bin, j, f)
  }

  /** The templates init_templates_ph builds when the ages are covered. */
  function PhTemplates(t: Template, ageList: seq<real>, z: real, filters: seq<real>, nRest: nat, nObs: nat,
                       absorption: seq<real>): (s: seq<real>)
    requires Loaded(t) && |absorption| == |t.waves| && |filters| == Mul(nRest + nObs, |t.waves|)
    ensures |s| == Size3(NUM_Z, |ageList|, nRest + nObs)
  {
    ZCells(BandCells(PhBands(t, ageList, filters, nRest, nObs), PhFrames(t, ageList, z, absorption),
                     Size3(|ageList|, nRest + nObs, NMETALS)),
           |ageList|, nRest + nObs, true, Size3(NUM_Z, |ageList|, nRest + nObs))
  }

  /** What cell (bin, j, f) of init_templates_ph's result means. */
  lemma PhTemplatesCell(t: Template, ageList: seq<real>, z: real, filters: seq<real>, nRest: nat, nObs: nat,
                        absorption: seq<real>, bin: nat, j: nat, f: nat)
    requires Loaded(t) && |absorption| == |t.waves| && |filters| == Mul(nRest + nObs, |t.waves|)
    requires bin < NUM_Z && j < |ageList| && f < nRest + nObs
    ensures Idx3(bin, j, f, |ageList|, nRest + nObs) < Size3(NUM_Z, |ageList|, nRest + nObs)
    ensures PhTemplates(t, ageList, z, filters, nRest, nObs, absorption)[Idx3(bin, j, f, |ageList|, nRest + nObs)]
         == PhFlux(t, ageList, z, filters, nRest, nObs, absorption, bin, j, f)
  {
    BandsFluxCell(PhBands(t, ageList, filters, nRest, nObs), PhFrames(t, ageList, z, absorption), bin, j, f);
  }

  /** At the bin of a template metallicity the interpolation returns that
      template's own band flux. */
  lemma PhFluxAtTemplateMetal(t: Template, ageList: seq<real>, z: real, filters: seq<real>, nRest: nat, nObs: nat,
                              absorption: seq<real>, bin: nat, j: nat, f: nat, m: nat)
    requires Loaded(t) && |absorption| == |t.waves| && |filters| == Mul(nRest + nObs, |t.waves|)
    requires j < |ageList| && f < nRest + nObs && m < NMETALS && bin as real == RefMetals[m]
    ensures PhFlux(t, ageList, z, filters, nRest, nObs, absorption, bin, j, f)
         == Band(PhBands(t, ageList, filters, nRest, nObs), PhFrames(t, ageList, z, absorption), f, j, m)
  {
    var b, fr := PhBands(t, ageList, filters, nRest, nObs), PhFrames(t, ageList, z, absorption);
    var row := MetalBands(b, fr, f, j);
    RefMetalsTable(row);
    PiecewiseLinearAtGrid(RefMetals, row, m);
  }
}
