/** The template store of the flattened-history pipeline (struct sed_params
    of sector_cext.c) and the two steps that rebuild its buffers before any
    galaxy is seen: shrink_templates_raw keeps only the wavelengths near the
    filters and the ages up to the oldest one needed, and
    init_templates_integrated integrates every raw (metallicity, wavelength)
    row over the galaxies' age steps. */
module Seds {
  import opened Flat
  import opened Kernel
  import opened Binning
  import opened Window
  import MagCalc

  datatype Option<T> = None | Some(value: T)

  // ---------------------------------------------------------------------------
  // The age cut of shrink_templates_raw

  /** The age scan: the first age not below maxAge, plus one. The scan has no
      bound of its own, so some age must reach maxAge. */
  method CutAges(age: seq<real>, maxAge: real) returns (nNewAge: nat)
    requires exists i :: 0 <= i < |age| && maxAge <= age[i]
    ensures 1 <= nNewAge <= |age| && maxAge <= age[nNewAge - 1]
    ensures forall i :: 0 <= i < nNewAge - 1 ==> age[i] < maxAge
  {
    var iA := 0;
    while age[iA] < maxAge
      invariant exists i :: iA <= i < |age| && maxAge <= age[i]
      invariant forall i :: 0 <= i < iA ==> age[i] < maxAge
      decreases |age| - iA
    {
      iA := iA + 1;
    }
    nNewAge := iA + 1;
  }

  // ---------------------------------------------------------------------------
  // Repacking along the selected wavelengths

  predicate IndicesWithin(sel: seq<int>, n: nat)
  {
    forall k :: 0 <= k < |sel| ==> 0 <= sel[k] < n
  }

  /** The entries of s at the selected indices, in selection order. */
  function Pick(s: seq<real>, sel: seq<int>): (r: seq<real>)
    requires IndicesWithin(sel, |s|)
    ensures |r| == |sel|
  {
    seq(|sel|, k requires 0 <= k < |sel| => s[sel[k]])
  }

  /** newWaves and newAbsorption: the entries at wavesIndices[0 .. n). */
  method Gather(s: seq<real>, wavesIndices: array<int>, n: nat) returns (r: seq<real>)
    requires n <= wavesIndices.Length && IndicesWithin(wavesIndices[..n], |s|)
    ensures r == Pick(s, wavesIndices[..n])
  {
    var a := new real[n];
    for iW := 0 to n
      invariant a[..iW] == Pick(s, wavesIndices[..n])[..iW]
    {
      a[iW] := s[wavesIndices[iW]];
      assert a[..iW + 1] == a[..iW] + [a[iW]];
    }
    r := a[..];
  }

  /** Picking increasing wavelengths with a non-decreasing selection keeps them
      non-decreasing, and every wavelength from index 1 on that lies inside a
      filter is still there. */
  lemma PickedWaves(waves: seq<real>, bands: seq<Band>)
    requires Bands(bands) && StrictlyIncreasing(waves)
    ensures IndicesWithin(Selection(waves, bands), |waves|)
    ensures var w := Pick(waves, Selection(waves, bands));
      && (forall k, l :: 0 <= k <= l < |w| ==> w[k] <= w[l])
      && (forall j :: 1 <= j < |waves| && InBand(waves[j], bands) ==> waves[j] in w)
  {
    var sel := Selection(waves, bands);
    SelectionProperties(waves, bands);
    var w := Pick(waves, sel);
    forall k, l | 0 <= k <= l < |w|
      ensures w[k] <= w[l]
    {
      assert sel[k] <= sel[l];
    }
    forall j | 1 <= j < |waves| && InBand(waves[j], bands)
      ensures waves[j] in w
    {
      var k :| 0 <= k < |sel| && sel[k] == j;
      assert w[k] == waves[j];
    }
  }

  /** The raw buffer holds nZ blocks of nW rows of nA ages. */
  predicate RawShape(raw: seq<real>, nZ: nat, nW: nat, nA: nat)
  {
    |raw| == Size3(nZ, nW, nA)
  }

  /** Cell q of the repacked raw buffer: q decodes to (iZ, iW, iA) over
      |sel| rows of nNewA ages, and reads age iA of the selected row sel[iW]. */
  function RepackAt(raw: seq<real>, sel: seq<int>, nZ: nat, nW: nat, nA: nat, nNewA: nat, q: nat): real
    requires RawShape(raw, nZ, nW, nA) && IndicesWithin(sel, nW) && nNewA <= nA
  {
    if |sel| == 0 || nNewA == 0 then 0.0
    else
      var (iZ, iW, iA) := Split3(q, |sel|, nNewA);
      if iZ < nZ then
        Idx3Bounds(iZ, sel[iW], iA, nZ, nW, nA);
        raw[Idx3(iZ, sel[iW], iA, nW, nA)]
      else 0.0
  }

  function Repacked(raw: seq<real>, sel: seq<int>, nZ: nat, nW: nat, nA: nat, nNewA: nat): (r: seq<real>)
    requires RawShape(raw, nZ, nW, nA) && IndicesWithin(sel, nW) && nNewA <= nA
    ensures RawShape(r, nZ, |sel|, nNewA)
  {
    seq(Size3(nZ, |sel|, nNewA), q requires 0 <= q < Size3(nZ, |sel|, nNewA) => RepackAt(raw, sel, nZ, nW, nA, nNewA, q))
  }

  /** newRaw[(iZ*nNewWaves + iW)*nNewAge + iA] is
      raw[(iZ*nWaves + wavesIndices[iW])*nAge + iA]. */
  lemma RepackedCell(raw: seq<real>, sel: seq<int>, nZ: nat, nW: nat, nA: nat, nNewA: nat, iZ: nat, iW: nat, iA: nat)
    requires RawShape(raw, nZ, nW, nA) && IndicesWithin(sel, nW) && nNewA <= nA
    requires iZ < nZ && iW < |sel| && iA < nNewA
    ensures Idx3(iZ, iW, iA, |sel|, nNewA) < Size3(nZ, |sel|, nNewA)
    ensures Idx3(iZ, sel[iW], iA, nW, nA) < |raw|
    ensures Repacked(raw, sel, nZ, nW, nA, nNewA)[Idx3(iZ, iW, iA, |sel|, nNewA)] == raw[Idx3(iZ, sel[iW], iA, nW, nA)]
  {
    Idx3Bounds(iZ, iW, iA, nZ, |sel|, nNewA);
    Idx3Bounds(iZ, sel[iW], iA, nZ, nW, nA);
    Split3Idx(iZ, iW, iA, |sel|, nNewA);
  }

  /** The nNewA ages of selected row iW of block iZ, written from offset p on. */
  method RepackRow(raw: seq<real>, sel: seq<int>, nZ: nat, nW: nat, nA: nat, nNewA: nat, iZ: nat, iW: nat,
                   a: array<real>, p: nat, ghost spec: seq<real>)
    requires RawShape(raw, nZ, nW, nA) && IndicesWithin(sel, nW) && nNewA <= nA
    requires iZ < nZ && iW < |sel| && spec == Repacked(raw, sel, nZ, nW, nA, nNewA) && a.Length == |spec|
    requires p == Idx3(iZ, iW, 0, |sel|, nNewA) <= a.Length && a[..p] == spec[..p]
    modifies a
    ensures p + nNewA <= a.Length && a[..p + nNewA] == spec[..p + nNewA]
  {
    Idx3RowEnd(iZ, iW, nZ, |sel|, nNewA);
    for iA := 0 to nNewA
      invariant a[..p + iA] == spec[..p + iA]
    {
      RepackedCell(raw, sel, nZ, nW, nA, nNewA, iZ, iW, iA);
      a[p + iA] := raw[Idx3(iZ, sel[iW], iA, nW, nA)];
      assert a[..p + iA + 1] == a[..p + iA] + [a[p + iA]];
      assert spec[..p + iA + 1] == spec[..p + iA] + [spec[p + iA]];
    }
  }

  /** Block iZ of the repacked buffer, from offset Idx3(iZ, 0, 0) on. */
  method RepackBlock(raw: seq<real>, sel: seq<int>, nZ: nat, nW: nat, nA: nat, nNewA: nat, iZ: nat,
                     a: array<real>, ghost spec: seq<real>)
    requires RawShape(raw, nZ, nW, nA) && IndicesWithin(sel, nW) && nNewA <= nA
    requires iZ < nZ && spec == Repacked(raw, sel, nZ, nW, nA, nNewA) && a.Length == |spec|
    requires Idx3(iZ, 0, 0, |sel|, nNewA) <= a.Length
    requires a[..Idx3(iZ, 0, 0, |sel|, nNewA)] == spec[..Idx3(iZ, 0, 0, |sel|, nNewA)]
    modifies a
    ensures Idx3(iZ + 1, 0, 0, |sel|, nNewA) <= a.Length
    ensures a[..Idx3(iZ + 1, 0, 0, |sel|, nNewA)] == spec[..Idx3(iZ + 1, 0, 0, |sel|, nNewA)]
  {
    var nS := |sel|;
    Idx3Blocks(iZ + 1, nZ, nS, nNewA);
    for iW := 0 to nS
      invariant Idx3(iZ, iW, 0, nS, nNewA) <= a.Length
      invariant a[..Idx3(iZ, iW, 0, nS, nNewA)] == spec[..Idx3(iZ, iW, 0, nS, nNewA)]
    {
      RepackRow(raw, sel, nZ, nW, nA, nNewA, iZ, iW, a, Idx3(iZ, iW, 0, nS, nNewA), spec);
      Idx3Next(iZ, iW, nS, nNewA);
    }
    Idx3Next(iZ, nS, nS, nNewA);
  }

  /** The repacking loop of shrink_templates_raw, cells written in buffer
      order. */
  method RepackRaw(raw: seq<real>, sel: seq<int>, nZ: nat, nW: nat, nA: nat, nNewA: nat) returns (r: seq<real>)
    requires RawShape(raw, nZ, nW, nA) && IndicesWithin(sel, nW) && nNewA <= nA
    ensures r == Repacked(raw, sel, nZ, nW, nA, nNewA)
  {
    ghost var spec := Repacked(raw, sel, nZ, nW, nA, nNewA);
    var a := new real[Size3(nZ, |sel|, nNewA)];
    for iZ := 0 to nZ
      invariant Idx3(iZ, 0, 0, |sel|, nNewA) <= a.Length
      invariant a[..Idx3(iZ, 0, 0, |sel|, nNewA)] == spec[..Idx3(iZ, 0, 0, |sel|, nNewA)]
    {
      RepackBlock(raw, sel, nZ, nW, nA, nNewA, iZ, a, spec);
    }
    Idx3Blocks(nZ, nZ, |sel|, nNewA);
    assert a[..] == a[..Idx3(nZ, 0, 0, |sel|, nNewA)];
    r := a[..];
  }

  // ---------------------------------------------------------------------------
  // Integration over the age steps (init_templates_integrated)

  /** Step iA runs from ageStep[iA - 1] to ageStep[iA]; step 0 starts at the
      first template age, the templates being taken as zero before it. */
  function StepStart(ages: seq<real>, ageStep: seq<real>, iA: nat): real
    requires 1 <= |ages| && iA < |ageStep|
  {
    if iA == 0 then ages[0] else ageStep[iA - 1]
  }

  /** Step iA lies inside the template ages and is not inverted. */
  predicate StepInside(ages: seq<real>, ageStep: seq<real>, iA: nat)
    requires 1 <= |ages| && iA < |ageStep|
  {
    ages[0] <= StepStart(ages, ageStep, iA) <= ageStep[iA] <= ages[|ages| - 1]
  }

  predicate StepsCovered(ages: seq<real>, ageStep: seq<real>)
    requires 1 <= |ages|
  {
    forall iA :: 0 <= iA < |ageStep| ==> StepInside(ages, ageStep, iA)
  }

  /** trapz_table of one template row over age step iA. */
  function StepIntegral(row: seq<real>, ages: seq<real>, ageStep: seq<real>, iA: nat): Result<real>
    requires Table(ages, row) && iA < |ageStep|
  {
    Trapezoid(row, ages, StepStart(ages, ageStep, iA), ageStep[iA])
  }

  /** A step fails exactly when it leaves the template ages or is inverted. */
  lemma StepFails(row: seq<real>, ages: seq<real>, ageStep: seq<real>, iA: nat)
    requires Table(ages, row) && iA < |ageStep|
    ensures StepIntegral(row, ages, ageStep, iA).Err? <==> !StepInside(ages, ageStep, iA)
  {
  }

  /** The two pipelines integrate the same buckets, except that the first one
      of mag_calc_cext.c also counts the time from age zero to the first
      template age, at the first template value. */
  lemma BucketConventions(row: seq<real>, ages: seq<real>, ageStep: seq<real>, iA: nat)
    requires Table(ages, row) && iA < |ageStep|
    ensures MagCalc.Bucket(row, ages, ageStep, iA).Err? <==> StepIntegral(row, ages, ageStep, iA).Err?
    ensures iA > 0 ==> MagCalc.Bucket(row, ages, ageStep, iA) == StepIntegral(row, ages, ageStep, iA)
    ensures iA == 0 && StepInside(ages, ageStep, 0) ==>
      MagCalc.Bucket(row, ages, ageStep, 0).value == row[0] * ages[0] + StepIntegral(row, ages, ageStep, 0).value
  {
  }

  /** Row (iZ, iW) of the raw buffer: its nA ages. */
  function RawRow(raw: seq<real>, nZ: nat, nW: nat, nA: nat, iZ: nat, iW: nat): (row: seq<real>)
    requires RawShape(raw, nZ, nW, nA) && iZ < nZ && iW < nW
    ensures |row| == nA
  {
    Idx3RowEnd(iZ, iW, nZ, nW, nA);
    raw[Idx3(iZ, iW, 0, nW, nA)..Idx3(iZ, iW, nA, nW, nA)]
  }

  /** The templates the integration needs: a raw buffer over the ages, which
      increase strictly. */
  predicate Integrable(raw: seq<real>, ages: seq<real>, nZ: nat, nW: nat)
  {
    RawShape(raw, nZ, nW, |ages|) && 2 <= |ages| && StrictlyIncreasing(ages)
  }

  /** intData at (iZ, iA, iW): raw row (iZ, iW) integrated over step iA. */
  function StepValue(raw: seq<real>, ages: seq<real>, ageStep: seq<real>, nZ: nat, nW: nat, iZ: nat, iA: nat, iW: nat): real
    requires Integrable(raw, ages, nZ, nW) && iZ < nZ && iA < |ageStep| && iW < nW
    requires StepInside(ages, ageStep, iA)
  {
    StepIntegral(RawRow(raw, nZ, nW, |ages|, iZ, iW), ages, ageStep, iA).value
  }

  /** Cell q of intData, decoded as (iZ, iA, iW). */
  function IntegratedAt(raw: seq<real>, ages: seq<real>, ageStep: seq<real>, nZ: nat, nW: nat, q: nat): real
    requires Integrable(raw, ages, nZ, nW)
  {
    if nW == 0 || |ageStep| == 0 then 0.0
    else
      var (iZ, iA, iW) := Split3(q, |ageStep|, nW);
      if iZ < nZ && StepInside(ages, ageStep, iA) then StepValue(raw, ages, ageStep, nZ, nW, iZ, iA, iW) else 0.0
  }

  /** intData: nZ blocks of nAgeStep rows of nW wavelengths. */
  function Integrated(raw: seq<real>, ages: seq<real>, ageStep: seq<real>, nZ: nat, nW: nat): (s: seq<real>)
    requires Integrable(raw, ages, nZ, nW)
    ensures |s| == Size3(nZ, |ageStep|, nW)
  {
    seq(Size3(nZ, |ageStep|, nW), q requires 0 <= q < Size3(nZ, |ageStep|, nW) => IntegratedAt(raw, ages, ageStep, nZ, nW, q))
  }

  /** integrated[(iZ*nAgeStep + iA)*nWaves + iW] is trapz_table of raw row
      (iZ, iW) over step iA. */
  lemma IntegratedCell(raw: seq<real>, ages: seq<real>, ageStep: seq<real>, nZ: nat, nW: nat, iZ: nat, iA: nat, iW: nat)
    requires Integrable(raw, ages, nZ, nW) && iZ < nZ && iA < |ageStep| && iW < nW
    requires StepInside(ages, ageStep, iA)
    ensures Idx3(iZ, iA, iW, |ageStep|, nW) < Size3(nZ, |ageStep|, nW)
    ensures Integrated(raw, ages, ageStep, nZ, nW)[Idx3(iZ, iA, iW, |ageStep|, nW)]
         == StepValue(raw, ages, ageStep, nZ, nW, iZ, iA, iW)
  {
    Idx3Bounds(iZ, iA, iW, nZ, |ageStep|, nW);
    Split3Idx(iZ, iA, iW, |ageStep|, nW);
  }

  /** One cell, written at its offset q after the cells before it. */
  method IntegrateCell(raw: seq<real>, ages: seq<real>, ageStep: seq<real>, nZ: nat, nW: nat, iZ: nat, iA: nat, iW: nat,
                       a: array<real>, q: nat, ghost spec: seq<real>) returns (r: Result<()>)
    requires Integrable(raw, ages, nZ, nW) && iZ < nZ && iA < |ageStep| && iW < nW
    requires spec == Integrated(raw, ages, ageStep, nZ, nW) && a.Length == |spec|
    requires q == Idx3(iZ, iA, iW, |ageStep|, nW) < a.Length && a[..q] == spec[..q]
    modifies a
    ensures r.Err? <==> !StepInside(ages, ageStep, iA)
    ensures r.Ok? ==> q < a.Length && a[..q + 1] == spec[..q + 1]
  {
    var row := RawRow(raw, nZ, nW, |ages|, iZ, iW);
    var v := TrapzTable(row, ages, StepStart(ages, ageStep, iA), ageStep[iA]);
    StepFails(row, ages, ageStep, iA);
    if v.Err? {
      return Err(v.error);
    }
    IntegratedCell(raw, ages, ageStep, nZ, nW, iZ, iA, iW);
    a[q] := v.value;
    assert a[..q + 1] == a[..q] + [a[q]];
    assert spec[..q + 1] == spec[..q] + [spec[q]];
    return Ok(());
  }

  /** Row (iZ, iA) of intData: every wavelength over step iA. */
  method IntegrateRow(raw: seq<real>, ages: seq<real>, ageStep: seq<real>, nZ: nat, nW: nat, iZ: nat, iA: nat,
                      a: array<real>, ghost spec: seq<real>) returns (r: Result<()>)
    requires Integrable(raw, ages, nZ, nW) && iZ < nZ && iA < |ageStep|
    requires spec == Integrated(raw, ages, ageStep, nZ, nW) && a.Length == |spec|
    requires Idx3(iZ, iA, 0, |ageStep|, nW) <= a.Length
    requires a[..Idx3(iZ, iA, 0, |ageStep|, nW)] == spec[..Idx3(iZ, iA, 0, |ageStep|, nW)]
    modifies a
    ensures r.Err? <==> nW > 0 && !StepInside(ages, ageStep, iA)
    ensures r.Ok? ==> Idx3(iZ, iA, nW, |ageStep|, nW) <= a.Length
    ensures r.Ok? ==> a[..Idx3(iZ, iA, nW, |ageStep|, nW)] == spec[..Idx3(iZ, iA, nW, |ageStep|, nW)]
  {
    Idx3RowEnd(iZ, iA, nZ, |ageStep|, nW);
    var p := Idx3(iZ, iA, 0, |ageStep|, nW);
    for iW := 0 to nW
      invariant 0 < iW ==> StepInside(ages, ageStep, iA)
      invariant a[..p + iW] == spec[..p + iW]
    {
      var c := IntegrateCell(raw, ages, ageStep, nZ, nW, iZ, iA, iW, a, p + iW, spec);
      if c.Err? {
        return c;
      }
    }
    return Ok(());
  }

  /** Block iZ of intData: every age step. */
  method IntegrateBlock(raw: seq<real>, ages: seq<real>, ageStep: seq<real>, nZ: nat, nW: nat, iZ: nat,
                        a: array<real>, ghost spec: seq<real>) returns (r: Result<()>)
    requires Integrable(raw, ages, nZ, nW) && iZ < nZ
    requires spec == Integrated(raw, ages, ageStep, nZ, nW) && a.Length == |spec|
    requires Idx3(iZ, 0, 0, |ageStep|, nW) <= a.Length
    requires a[..Idx3(iZ, 0, 0, |ageStep|, nW)] == spec[..Idx3(iZ, 0, 0, |ageStep|, nW)]
    modifies a
    ensures r.Err? <==> nW > 0 && !StepsCovered(ages, ageStep)
    ensures r.Ok? ==> Idx3(iZ + 1, 0, 0, |ageStep|, nW) <= a.Length
    ensures r.Ok? ==> a[..Idx3(iZ + 1, 0, 0, |ageStep|, nW)] == spec[..Idx3(iZ + 1, 0, 0, |ageStep|, nW)]
  {
    var nS := |ageStep|;
    Idx3Blocks(iZ + 1, nZ, nS, nW);
    for iA := 0 to nS
      invariant nW > 0 ==> forall i :: 0 <= i < iA ==> StepInside(ages, ageStep, i)
      invariant Idx3(iZ, iA, 0, nS, nW) <= a.Length
      invariant a[..Idx3(iZ, iA, 0, nS, nW)] == spec[..Idx3(iZ, iA, 0, nS, nW)]
    {
      var c := IntegrateRow(raw, ages, ageStep, nZ, nW, iZ, iA, a, spec);
      if c.Err? {
        return c;
      }
      Idx3Next(iZ, iA, nS, nW);
    }
    Idx3Next(iZ, nS, nS, nW);
    return Ok(());
  }

  /** The loops of init_templates_integrated, as a value; fails as soon as a
      step leaves the template ages (the source exits). */
  method IntegrateTemplates(raw: seq<real>, ages: seq<real>, ageStep: seq<real>, nZ: nat, nW: nat) returns (r: Result<seq<real>>)
    requires Integrable(raw, ages, nZ, nW)
    ensures r.Err? <==> nZ > 0 && nW > 0 && !StepsCovered(ages, ageStep)
    ensures r.Ok? ==> r.value == Integrated(raw, ages, ageStep, nZ, nW)
  {
    ghost var spec := Integrated(raw, ages, ageStep, nZ, nW);
    var a := new real[Size3(nZ, |ageStep|, nW)];
    for iZ := 0 to nZ
      invariant Idx3(iZ, 0, 0, |ageStep|, nW) <= a.Length
      invariant 0 < iZ && 0 < nW ==> StepsCovered(ages, ageStep)
      invariant a[..Idx3(iZ, 0, 0, |ageStep|, nW)] == spec[..Idx3(iZ, 0, 0, |ageStep|, nW)]
    {
      var c := IntegrateBlock(raw, ages, ageStep, nZ, nW, iZ, a, spec);
      if c.Err? {
        return Err(c.error);
      }
    }
    Idx3Blocks(nZ, nZ, |ageStep|, nW);
    assert a[..] == a[..Idx3(nZ, 0, 0, |ageStep|, nW)];
    r := Ok(a[..]);
  }

  /** What shrink_templates_raw leaves with filters: the selected wavelengths,
      nAge cut after the first age reaching maxAge, the raw buffer repacked
      along both, and the absorption (when there is one) picked like the
      wavelengths. */
  predicate Shrunk(waves: seq<real>, bands: seq<Band>, age: seq<real>, nAge: nat, raw: seq<real>, nZ: nat,
                   Ly: Option<seq<real>>, maxAge: real,
                   waves': seq<real>, nAge': nat, raw': seq<real>, Ly': Option<seq<real>>)
    requires Bands(bands) && RawShape(raw, nZ, |waves|, nAge) && nAge <= |age|
  {
    var sel := Selection(waves, bands);
    SelectionProperties(waves, bands);
    && 1 <= nAge' <= nAge && maxAge <= age[nAge' - 1]
    && (forall i :: 0 <= i < nAge' - 1 ==> age[i] < maxAge)
    && waves' == Pick(waves, sel)
    && raw' == Repacked(raw, sel, nZ, |waves|, nAge, nAge')
    && (Ly.None? ==> Ly'.None?)
    && (Ly.Some? ==> |Ly.value| == |waves| && Ly' == Some(Pick(Ly.value, sel)))
  }

  /** The buffers shrink_templates_raw rebuilds, from the selection loop, the
      age scan and the repacking loops. */
  method ShrinkBuffers(waves: seq<real>, bands: seq<Band>, age: seq<real>, nAge: nat, raw: seq<real>, nZ: nat,
                       Ly: Option<seq<real>>, maxAge: real)
    returns (waves': seq<real>, nAge': nat, raw': seq<real>, Ly': Option<seq<real>>)
    requires Bands(bands) && RawShape(raw, nZ, |waves|, nAge) && nAge <= |age|
    requires Ly.Some? ==> |Ly.value| == |waves|
    requires exists i :: 0 <= i < nAge && maxAge <= age[i]
    ensures RawShape(raw', nZ, |waves'|, nAge') && nAge' <= |age|
    ensures Ly'.Some? ==> |Ly'.value| == |waves'|
    ensures Shrunk(waves, bands, age, nAge, raw, nZ, Ly, maxAge, waves', nAge', raw', Ly')
  {
    var wavesIndices, nNewWaves := SelectWaves(waves, bands);
    var sel := wavesIndices[..nNewWaves];
    SelectionProperties(waves, bands);
    nAge' := CutAges(age[..nAge], maxAge);
    waves' := Gather(waves, wavesIndices, nNewWaves);
    raw' := RepackRaw(raw, sel, nZ, |waves|, nAge, nAge');
    Ly' := Ly;
    if Ly.Some? {
      var newAbsorption := Gather(Ly.value, wavesIndices, nNewWaves);
      Ly' := Some(newAbsorption);
    }
  }

  // ---------------------------------------------------------------------------
  // struct sed_params

  /** The templates and their derived buffers. nZ, nWaves and nAgeStep are the
      lengths of Z, waves and ageStep; nAge may be below |age| once the ages
      have been cut. The filters, their wavelengths and their counts are the
      bands (None when filters is NULL: full spectra). ready and working are
      the per-thread scratch buffers. */
  class SedParams {
    var minZ: int
    var maxZ: int
    var Z: seq<real>
    var waves: seq<real>
    var nAge: nat
    var age: seq<real>
    var raw: seq<real>
    var nFlux: nat
    var nObs: nat
    var bands: Option<seq<Band>>
    var logWaves: seq<real>
    var LyAbsorption: Option<seq<real>>
    var z: real
    var ageStep: seq<real>
    var integrated: seq<real>
    var ready: array<real>
    var working: array<real>

    /** The shapes every operation relies on. */
    predicate Valid()
      reads this
    {
      && RawShape(raw, |Z|, |waves|, nAge) && nAge <= |age|
      && (bands.Some? ==> Bands(bands.value) && nFlux == |bands.value|)
      && (LyAbsorption.Some? ==> |LyAbsorption.value| == |waves|)
    }

    /** The state once init_templates_raw has read the templates (nZ
        metallicities, nWaves wavelengths, nAge ages) and the filters have been
        attached: minZ and maxZ are the bins of the first and last
        metallicity. */
    constructor (Z: seq<real>, waves: seq<real>, age: seq<real>, raw: seq<real>, bands: Option<seq<Band>>,
                 nFlux: nat, nObs: nat, logWaves: seq<real>, LyAbsorption: Option<seq<real>>, z: real)
      requires 1 <= |Z| && RawShape(raw, |Z|, |waves|, |age|)
      requires bands.Some? ==> Bands(bands.value) && nFlux == |bands.value|
      requires LyAbsorption.Some? ==> |LyAbsorption.value| == |waves|
      ensures Valid() && nAge == |age|
      ensures minZ == MetalBin(Z[0]) && maxZ == MetalBin(Z[|Z| - 1])
      ensures this.Z == Z && this.waves == waves && this.age == age && this.raw == raw && this.bands == bands
      ensures this.nFlux == nFlux && this.nObs == nObs && this.logWaves == logWaves
      ensures this.LyAbsorption == LyAbsorption && this.z == z && ageStep == [] && integrated == []
    {
      this.minZ := MetalBin(Z[0]);
      this.maxZ := MetalBin(Z[|Z| - 1]);
      this.Z := Z;
      this.waves := waves;
      this.nAge := |age|;
      this.age := age;
      this.raw := raw;
      this.nFlux := nFlux;
      this.nObs := nObs;
      this.bands := bands;
      this.logWaves := logWaves;
      this.LyAbsorption := LyAbsorption;
      this.z := z;
      this.ageStep := [];
      this.integrated := [];
      this.ready := new real[0];
      this.working := new real[0];
    }

    /** shrink_templates_raw: nothing without filters; otherwise the selected
        wavelengths, the ages up to the first one reaching maxAge, and the
        raw buffer and absorption repacked along both. */
    method ShrinkTemplatesRaw(maxAge: real)
      requires Valid()
      requires bands.Some? ==> exists i :: 0 <= i < nAge && maxAge <= age[i]
      modifies this
      ensures minZ == old(minZ) && maxZ == old(maxZ) && Z == old(Z) && age == old(age) && bands == old(bands)
      ensures nFlux == old(nFlux) && nObs == old(nObs) && logWaves == old(logWaves) && z == old(z)
      ensures ageStep == old(ageStep) && integrated == old(integrated) && ready == old(ready) && working == old(working)
      ensures Valid()
      ensures bands.None? ==> unchanged(this)
      ensures bands.Some? ==> Shrunk(old(waves), bands.value, old(age), old(nAge), old(raw), |Z|, old(LyAbsorption), maxAge,
                                     waves, nAge, raw, LyAbsorption)
    {
      if bands.None? {
        return;
      }
      waves, nAge, raw, LyAbsorption := ShrinkBuffers(waves, bands.value, age, nAge, raw, |Z|, LyAbsorption, maxAge);
    }

    /** init_templates_integrated: integrated holds every raw row of the first
        nAge ages integrated over every age step; the run stops (the source
        exits) when a step leaves the template ages. */
    method InitTemplatesIntegrated() returns (r: Result<()>)
      requires Valid() && 2 <= nAge && StrictlyIncreasing(age[..nAge])
      modifies this
      ensures minZ == old(minZ) && maxZ == old(maxZ) && Z == old(Z) && waves == old(waves) && nAge == old(nAge)
      ensures age == old(age) && raw == old(raw) && bands == old(bands) && nFlux == old(nFlux) && nObs == old(nObs)
      ensures logWaves == old(logWaves) && LyAbsorption == old(LyAbsorption) && z == old(z) && ageStep == old(ageStep)
      ensures ready == old(ready) && working == old(working)
      ensures Valid()
      ensures r.Err? <==> |Z| > 0 && |waves| > 0 && !StepsCovered(age[..nAge], ageStep)
      ensures r.Ok? ==> integrated == Integrated(raw, age[..nAge], ageStep, |Z|, |waves|)
      ensures r.Err? ==> integrated == old(integrated)
    {
      var intData := IntegrateTemplates(raw, age[..nAge], ageStep, |Z|, |waves|);
      if intData.Err? {
        return Err(intData.error);
      }
      integrated := intData.value;
      return Ok(());
    }
  }
}
