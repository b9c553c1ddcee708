/** The stand-alone magnitude calculator: SED templates at five metallicities
    are integrated over the time buckets of a galaxy history, converted to
    fluxes at 10 pc, interpolated onto 40 metallicity bins, and then summed
    over the star-forming progenitors of each galaxy's merger tree. */
module MagCalc {
  import opened Kernel
  import opened Flat
  import opened MergerTree

  /** Number of metallicities of the input templates. */
  const NMETALS := 5
  /** Number of interpolated metallicity bins. */
  const NUM_Z := 40
  /** 4*pi*(10 pc)^2 in cm^2. */
  const SURFACE_AREA: real := 1.1965e40
  /** Floor added to every flux. */
  const TOL: real := 1.0e-50
  /** The template metallicities, in bins: 0.001, 0.004, 0.008, 0.02, 0.04. */
  const RefMetals: seq<real> := [0.0, 3.0, 7.0, 19.0, 39.0]

  /** Conversion of erg/s/A at wavelength x to Jansky at 10 pc. */
  function Jansky(x: real): real
  {
    3.34e4 * x * x / SURFACE_AREA
  }

  /** Flux density v (erg/s/A) at wavelength x, in Jansky at 10 pc. */
  function ToJansky(v: real, x: real): real
  {
    v * Jansky(x)
  }

  /** SED templates held in memory: ages (years), wavelengths (A) and, for
      metallicity m and wavelength j, the row data[m*nWaves + j] over ages. */
  datatype Template = Template(age: seq<real>, waves: seq<real>, data: seq<seq<real>>)

  predicate Loaded(t: Template)
  {
    && 2 <= |t.age| && StrictlyIncreasing(t.age)
    && |t.data| == Mul(NMETALS, |t.waves|)
    && forall r :: 0 <= r < |t.data| ==> |t.data[r]| == |t.age|
  }

  /** The row of metallicity m at wavelength j. */
  function Row(t: Template, m: nat, j: nat): (row: seq<real>)
    requires Loaded(t) && m < NMETALS && j < |t.waves|
    ensures Table(t.age, row)
  {
    IdxBounds(m, j, |t.waves|, NMETALS);
    t.data[Idx(m, j, |t.waves|)]
  }

  lemma RefMetalsTable(y: seq<real>)
    requires |y| == NMETALS
    ensures Table(RefMetals, y)
  {
  }

  // ---------------------------------------------------------------------------
  // Integration over time buckets.

  /** Bucket i of ageList lies inside the template ages: bucket 0 is
      [age[0], ageList[0]], bucket i > 0 is [ageList[i-1], ageList[i]]. */
  predicate BucketInside(age: seq<real>, ageList: seq<real>, i: int)
    requires 2 <= |age| && 0 <= i < |ageList|
  {
    if i == 0 then age[0] <= ageList[0] <= age[|age| - 1]
    else age[0] <= ageList[i - 1] <= ageList[i] <= age[|age| - 1]
  }

  /** Every bucket lies inside the template ages. */
  predicate AgesCovered(age: seq<real>, ageList: seq<real>)
    requires 2 <= |age|
  {
    forall i :: 0 <= i < |ageList| ==> BucketInside(age, ageList, i)
  }

  /** The integral of one template row over bucket i. The first template age
      is usually not zero; the row is taken to be constant at row[0] between
      age zero and age[0], which adds row[0]*age[0] to bucket 0. */
  function Bucket(row: seq<real>, age: seq<real>, ageList: seq<real>, i: int): Result<real>
    requires Table(age, row) && 0 <= i < |ageList|
  {
    if i == 0 then
      match Trapezoid(row, age, age[0], ageList[0])
      case Ok(v) => Ok(row[0] * age[0] + v)
      case Err(e) => Err(e)
    else
      Trapezoid(row, age, ageList[i - 1], ageList[i])
  }

  /** A bucket fails exactly when it leaves the template ages or is inverted. */
  lemma BucketFails(row: seq<real>, age: seq<real>, ageList: seq<real>, i: int)
    requires Table(age, row) && 0 <= i < |ageList|
    ensures Bucket(row, age, ageList, i).Err? <==> !BucketInside(age, ageList, i)
  {
  }

  /** For a constant row, bucket 0 holds c*ageList[0]: the whole time from
      age zero, not only from age[0]. */
  lemma FirstBucketOfConstant(row: seq<real>, age: seq<real>, ageList: seq<real>, c: real)
    requires Table(age, row) && 1 <= |ageList| && BucketInside(age, ageList, 0)
    requires forall j :: 0 <= j < |row| ==> row[j] == c
    ensures Bucket(row, age, ageList, 0).Ok? && Bucket(row, age, ageList, 0).value == c * ageList[0]
  {
    TrapezoidOfConstant(row, age, c, age[0], ageList[0]);
    assert Trapezoid(row, age, age[0], ageList[0]).value == c * (ageList[0] - age[0]);
    assert row[0] == c;
    FromAgeZero(c, age[0], ageList[0]);
  }

  lemma FromAgeZero(c: real, u: real, v: real)
    ensures c * u + c * (v - u) == c * v
  {
  }

  /** One bucket, computed with trapz_table. */
  method IntegrateBucket(row: seq<real>, age: seq<real>, ageList: seq<real>, i: int) returns (r: Result<real>)
    requires Table(age, row) && 0 <= i < |ageList|
    ensures r == Bucket(row, age, ageList, i)
  {
    if i == 0 {
      var v := row[0] * age[0];
      var I := TrapzTable(row, age, age[0], ageList[0]);
      if I.Err? {
        return Err(I.error);
      }
      r := Ok(v + I.value);
    } else {
      r := TrapzTable(row, age, ageList[i - 1], ageList[i]);
    }
  }

  // ---------------------------------------------------------------------------
  // init_templates_sp: full spectra.

  /** Bucket i of the template row of metallicity m at wavelength j, before any
      unit conversion. */
  function Sed(t: Template, ageList: seq<real>, i: nat, j: nat, m: nat): real
    requires Loaded(t) && i < |ageList| && j < |t.waves| && m < NMETALS
    requires BucketInside(t.age, ageList, i)
  {
    BucketFails(Row(t, m, j), t.age, ageList, i);
    Bucket(Row(t, m, j), t.age, ageList, i).value
  }

  /** Rest-frame flux (Jy) of metallicity m at wavelength j in bucket i. */
  function RestFlux(t: Template, ageList: seq<real>, i: nat, j: nat, m: nat): real
    requires Loaded(t) && i < |ageList| && j < |t.waves| && m < NMETALS
    requires BucketInside(t.age, ageList, i)
  {
    ToJansky(Sed(t, ageList, i, j, m), t.waves[j])
  }

  /** One bucket of one template row, as both template builders compute it. */
  method SedCell(t: Template, ageList: seq<real>, i: nat, j: nat, m: nat) returns (r: Result<real>)
    requires Loaded(t) && i < |ageList| && j < |t.waves| && m < NMETALS
    ensures r.Err? <==> !BucketInside(t.age, ageList, i)
    ensures r.Ok? ==> r.value == Sed(t, ageList, i, j, m)
  {
    BucketFails(Row(t, m, j), t.age, ageList, i);
    r := IntegrateBucket(Row(t, m, j), t.age, ageList, i);
  }

  /** One cell of init_templates_sp: the bucket converted to Jansky. */
  method CellFlux(t: Template, ageList: seq<real>, i: nat, j: nat, m: nat) returns (r: Result<real>)
    requires Loaded(t) && i < |ageList| && j < |t.waves| && m < NMETALS
    ensures r.Err? <==> !BucketInside(t.age, ageList, i)
    ensures r.Ok? ==> r.value == RestFlux(t, ageList, i, j, m)
  {
    var b := SedCell(t, ageList, i, j, m);
    if b.Err? {
      return Err(b.error);
    }
    r := Ok(ToJansky(b.value, t.waves[j]));
  }

  /** RestFlux at offset q of the (bucket, wavelength, metallicity) buffer;
      offsets of a bucket that leaves the template ages read as zero. */
  function RestFluxAt(t: Template, ageList: seq<real>, q: nat): real
    requires Loaded(t)
  {
    if |t.waves| == 0 then 0.0
    else
      var (i, j, m) := Split3(q, |t.waves|, NMETALS);
      if i < |ageList| && BucketInside(t.age, ageList, i) then RestFlux(t, ageList, i, j, m) else 0.0
  }

  /** The first n cells of refSpectra, in buffer order. */
  function RestFluxCells(t: Template, ageList: seq<real>, n: nat): (s: seq<real>)
    requires Loaded(t)
    ensures |s| == n
  {
    seq(n, q requires 0 <= q < n => RestFluxAt(t, ageList, q))
  }

  /** Offset Idx3(i, j, m) of a bucket inside the template ages holds RestFlux. */
  lemma RestFluxAtCell(t: Template, ageList: seq<real>, i: nat, j: nat, m: nat)
    requires Loaded(t) && i < |ageList| && j < |t.waves| && m < NMETALS && BucketInside(t.age, ageList, i)
    ensures RestFluxAt(t, ageList, Idx3(i, j, m, |t.waves|, NMETALS)) == RestFlux(t, ageList, i, j, m)
  {
    Split3Idx(i, j, m, |t.waves|, NMETALS);
  }

  /** Cell (i, j, m) of refSpectra is bucket i of the template row of
      metallicity m at wavelength j, in Jansky. */
  lemma RefSpectraCell(t: Template, ageList: seq<real>, i: nat, j: nat, m: nat)
    requires Loaded(t) && i < |ageList| && j < |t.waves| && m < NMETALS && BucketInside(t.age, ageList, i)
    ensures Idx3(i, j, m, |t.waves|, NMETALS) < Size3(|ageList|, |t.waves|, NMETALS)
    ensures RestFluxCells(t, ageList, Size3(|ageList|, |t.waves|, NMETALS))[Idx3(i, j, m, |t.waves|, NMETALS)]
         == RestFlux(t, ageList, i, j, m)
  {
    Idx3Bounds(i, j, m, |ageList|, |t.waves|, NMETALS);
    RestFluxAtCell(t, ageList, i, j, m);
  }

  /** Cell (i, j, m), written at its offset q = Idx3(i, j, m) after the cells
      before it; spec is the whole buffer the integration must produce. */
  method StoreCell(t: Template, ageList: seq<real>, i: nat, j: nat, m: nat, a: array<real>, q: nat, ghost spec: seq<real>)
    returns (r: Result<()>)
    requires Loaded(t) && i < |ageList| && j < |t.waves| && m < NMETALS
    requires q == Idx3(i, j, m, |t.waves|, NMETALS) < a.Length
    requires spec == RestFluxCells(t, ageList, a.Length) && a[..q] == spec[..q]
    modifies a
    ensures r.Err? <==> !BucketInside(t.age, ageList, i)
    ensures r.Ok? ==> a[..q + 1] == spec[..q + 1]
  {
    var b := CellFlux(t, ageList, i, j, m);
    if b.Err? {
      return Err(b.error);
    }
    RestFluxAtCell(t, ageList, i, j, m);
    assert spec[q] == RestFluxAt(t, ageList, q);
    a[q] := b.value;
    assert a[..q + 1] == a[..q] + [b.value];
    assert spec[..q + 1] == spec[..q] + [spec[q]];
    return Ok(());
  }

  /** The NMETALS cells of bucket i at wavelength j, written from offset
      p = Idx3(i, j, 0) on; fails when the bucket leaves the template ages. */
  method IntegrateRow(t: Template, ageList: seq<real>, i: nat, j: nat, a: array<real>, p: nat, ghost spec: seq<real>)
    returns (r: Result<()>)
    requires Loaded(t) && i < |ageList| && j < |t.waves|
    requires p == Idx3(i, j, 0, |t.waves|, NMETALS) && p + NMETALS <= a.Length
    requires spec == RestFluxCells(t, ageList, a.Length) && a[..p] == spec[..p]
    modifies a
    ensures r.Err? <==> !BucketInside(t.age, ageList, i)
    ensures r.Ok? ==> a[..p + NMETALS] == spec[..p + NMETALS]
  {
    for m := 0 to NMETALS
      invariant 0 < m ==> BucketInside(t.age, ageList, i)
      invariant a[..p + m] == spec[..p + m]
    {
      var b := StoreCell(t, ageList, i, j, m, a, p + m, spec);
      if b.Err? {
        return b;
      }
    }
    return Ok(());
  }

  /** All cells of bucket i, from offset p = Idx3(i, 0, 0) to Idx3(i + 1, 0, 0). */
  method IntegrateBlock(t: Template, ageList: seq<real>, i: nat, a: array<real>, p: nat, ghost spec: seq<real>)
    returns (r: Result<()>)
    requires Loaded(t) && i < |ageList|
    requires p == Idx3(i, 0, 0, |t.waves|, NMETALS) <= Idx3(i + 1, 0, 0, |t.waves|, NMETALS) <= a.Length
    requires spec == RestFluxCells(t, ageList, a.Length) && a[..p] == spec[..p]
    modifies a
    ensures r.Err? <==> |t.waves| > 0 && !BucketInside(t.age, ageList, i)
    ensures r.Ok? ==> a[..Idx3(i + 1, 0, 0, |t.waves|, NMETALS)] == spec[..Idx3(i + 1, 0, 0, |t.waves|, NMETALS)]
  {
    var nW := |t.waves|;
    var q := p;
    Idx3Rows(i, 0, nW, nW, NMETALS);
    for j := 0 to nW
      invariant q == Idx3(i, j, 0, nW, NMETALS) <= Idx3(i + 1, 0, 0, nW, NMETALS)
      invariant 0 < j ==> BucketInside(t.age, ageList, i)
      invariant a[..q] == spec[..q]
    {
      Idx3Next(i, j, nW, NMETALS);
      Idx3Rows(i, j + 1, nW, nW, NMETALS);
      var b := IntegrateRow(t, ageList, i, j, a, q, spec);
      if b.Err? {
        return b;
      }
      q := q + NMETALS;
    }
    Idx3Next(i, nW, nW, NMETALS);
    return Ok(());
  }

  /** The time integration of init_templates_sp: every row over every bucket,
      converted to Jansky, into refSpectra, cell (i, j, m) at Idx3(i, j, m). */
  method IntegrateSp(t: Template, ageList: seq<real>) returns (r: Result<seq<real>>)
    requires Loaded(t)
    ensures r.Err? <==> |t.waves| > 0 && !AgesCovered(t.age, ageList)
    ensures r.Ok? ==> r.value == RestFluxCells(t, ageList, Size3(|ageList|, |t.waves|, NMETALS))
  {
    var nA, nW := |ageList|, |t.waves|;
    var a := new real[Size3(nA, nW, NMETALS)];
    ghost var spec := RestFluxCells(t, ageList, a.Length);
    for i := 0 to nA
      invariant Idx3(i, 0, 0, nW, NMETALS) <= a.Length
      invariant nW > 0 ==> forall i' :: 0 <= i' < i ==> BucketInside(t.age, ageList, i')
      invariant a[..Idx3(i, 0, 0, nW, NMETALS)] == spec[..Idx3(i, 0, 0, nW, NMETALS)]
    {
      Idx3Blocks(i, i + 1, nW, NMETALS);
      Idx3Blocks(i + 1, nA, nW, NMETALS);
      var b := IntegrateBlock(t, ageList, i, a, Idx3(i, 0, 0, nW, NMETALS), spec);
      if b.Err? {
        return Err(b.error);
      }
    }
    Idx3Blocks(nA, nA, nW, NMETALS);
    assert a[..] == a[..Idx3(nA, 0, 0, nW, NMETALS)];
    r := Ok(a[..]);
  }

  // ---------------------------------------------------------------------------
  // Interpolation along metallicity, shared by both template builders.

  /** The row of the metallicity buffer that holds channel k of age j: rows are
      (age, wavelength) for full spectra and (filter, age) for magnitudes. */
  function RefRow(j: nat, k: nat, nA: nat, nCh: nat, byChannel: bool): nat
  {
    if byChannel then Idx(k, j, nA) else Idx(j, k, nCh)
  }

  lemma RefRowBounds(j: nat, k: nat, nA: nat, nCh: nat, byChannel: bool)
    requires j < nA && k < nCh
    ensures Idx(RefRow(j, k, nA, nCh, byChannel), NMETALS, NMETALS) <= Size3(nA, nCh, NMETALS)
  {
    var r := RefRow(j, k, nA, nCh, byChannel);
    if byChannel {
      IdxBounds(k, j, nA, nCh);
      MulIsProduct(nCh, nA);
      MulIsProduct(nA, nCh);
    } else {
      IdxBounds(j, k, nCh, nA);
    }
    MulOrder(r + 1, Mul(nA, nCh), NMETALS);
  }

  /** The five template-metallicity values held in row r. */
  function MetalRow(ref: seq<real>, r: nat): (row: seq<real>)
    requires Idx(r, NMETALS, NMETALS) <= |ref|
    ensures |row| == NMETALS
    ensures forall m :: 0 <= m < NMETALS ==> row[m] == ref[Idx(r, m, NMETALS)]
  {
    ref[Idx(r, 0, NMETALS)..Idx(r, NMETALS, NMETALS)]
  }

  /** Cell (z, j, k) of the interpolated templates: the metallicity row of age
      j and channel k, interpolated at bin z. */
  function ZCell(ref: seq<real>, nA: nat, nCh: nat, byChannel: bool, z: nat, j: nat, k: nat): real
    requires |ref| == Size3(nA, nCh, NMETALS) && j < nA && k < nCh
  {
    RefRowBounds(j, k, nA, nCh, byChannel);
    var row := MetalRow(ref, RefRow(j, k, nA, nCh, byChannel));
    RefMetalsTable(row);
    PiecewiseLinear(RefMetals, row, z as real)
  }

  /** interp((double)z, refMetals, row, NMETALS); the point lies inside
      [0, 39], so interp never halts here. */
  method InterpolateCell(ref: seq<real>, nA: nat, nCh: nat, byChannel: bool, z: nat, j: nat, k: nat) returns (v: real)
    requires |ref| == Size3(nA, nCh, NMETALS) && z < NUM_Z && j < nA && k < nCh
    ensures v == ZCell(ref, nA, nCh, byChannel, z, j, k)
  {
    RefRowBounds(j, k, nA, nCh, byChannel);
    var row := MetalRow(ref, RefRow(j, k, nA, nCh, byChannel));
    RefMetalsTable(row);
    var r := Interp(z as real, RefMetals, row);
    v := r.value;
  }

  /** ZCell at offset q of the (bin, age, channel) buffer. */
  function ZCellAt(ref: seq<real>, nA: nat, nCh: nat, byChannel: bool, q: nat): real
    requires |ref| == Size3(nA, nCh, NMETALS)
  {
    if nA == 0 || nCh == 0 then 0.0
    else
      var (z, j, k) := Split3(q, nA, nCh);
      ZCell(ref, nA, nCh, byChannel, z, j, k)
  }

  /** The first n cells of the interpolated templates, in buffer order. */
  function ZCells(ref: seq<real>, nA: nat, nCh: nat, byChannel: bool, n: nat): (s: seq<real>)
    requires |ref| == Size3(nA, nCh, NMETALS)
    ensures |s| == n
  {
    seq(n, q requires 0 <= q < n => ZCellAt(ref, nA, nCh, byChannel, q))
  }

  /** Offset Idx3(z, j, k) holds ZCell(z, j, k). */
  lemma ZCellAtCell(ref: seq<real>, nA: nat, nCh: nat, byChannel: bool, z: nat, j: nat, k: nat)
    requires |ref| == Size3(nA, nCh, NMETALS) && j < nA && k < nCh
    ensures ZCellAt(ref, nA, nCh, byChannel, Idx3(z, j, k, nA, nCh)) == ZCell(ref, nA, nCh, byChannel, z, j, k)
  {
    Split3Idx(z, j, k, nA, nCh);
  }

  /** Cell (z, j, k) of the interpolated templates, for bins below NUM_Z. */
  lemma InterpolatedCell(ref: seq<real>, nA: nat, nCh: nat, byChannel: bool, z: nat, j: nat, k: nat)
    requires |ref| == Size3(nA, nCh, NMETALS) && z < NUM_Z && j < nA && k < nCh
    ensures Idx3(z, j, k, nA, nCh) < Size3(NUM_Z, nA, nCh)
    ensures ZCells(ref, nA, nCh, byChannel, Size3(NUM_Z, nA, nCh))[Idx3(z, j, k, nA, nCh)]
         == ZCell(ref, nA, nCh, byChannel, z, j, k)
  {
    Idx3Bounds(z, j, k, NUM_Z, nA, nCh);
    ZCellAtCell(ref, nA, nCh, byChannel, z, j, k);
  }

  /** Cell (z, j, k), written at its offset q = Idx3(z, j, k) after the cells
      before it; spec is the whole buffer the interpolation must produce. */
  method StoreZCell(ref: seq<real>, nA: nat, nCh: nat, byChannel: bool, z: nat, j: nat, k: nat,
                    a: array<real>, q: nat, ghost spec: seq<real>)
    requires |ref| == Size3(nA, nCh, NMETALS) && z < NUM_Z && j < nA && k < nCh
    requires q == Idx3(z, j, k, nA, nCh) < a.Length
    requires spec == ZCells(ref, nA, nCh, byChannel, a.Length) && a[..q] == spec[..q]
    modifies a
    ensures a[..q + 1] == spec[..q + 1]
  {
    var v := InterpolateCell(ref, nA, nCh, byChannel, z, j, k);
    ZCellAtCell(ref, nA, nCh, byChannel, z, j, k);
    assert spec[q] == ZCellAt(ref, nA, nCh, byChannel, q);
    a[q] := v;
    assert a[..q + 1] == a[..q] + [v];
    assert spec[..q + 1] == spec[..q] + [spec[q]];
  }

  /** Cells (z, j, 0..nCh) from offset p = Idx3(z, j, 0) on. */
  method InterpolateRow(ref: seq<real>, nA: nat, nCh: nat, byChannel: bool, z: nat, j: nat,
                        a: array<real>, p: nat, ghost spec: seq<real>)
    requires |ref| == Size3(nA, nCh, NMETALS) && z < NUM_Z && j < nA
    requires p == Idx3(z, j, 0, nA, nCh) && p + nCh <= a.Length
    requires spec == ZCells(ref, nA, nCh, byChannel, a.Length) && a[..p] == spec[..p]
    modifies a
    ensures a[..p + nCh] == spec[..p + nCh]
  {
    for k := 0 to nCh
      invariant a[..p + k] == spec[..p + k]
    {
      StoreZCell(ref, nA, nCh, byChannel, z, j, k, a, p + k, spec);
    }
  }

  /** Cells (z, 0..nA, 0..nCh), from offset p = Idx3(z, 0, 0) to Idx3(z + 1, 0, 0). */
  method InterpolateBin(ref: seq<real>, nA: nat, nCh: nat, byChannel: bool, z: nat,
                        a: array<real>, p: nat, ghost spec: seq<real>)
    requires |ref| == Size3(nA, nCh, NMETALS) && z < NUM_Z
    requires p == Idx3(z, 0, 0, nA, nCh) <= Idx3(z + 1, 0, 0, nA, nCh) <= a.Length
    requires spec == ZCells(ref, nA, nCh, byChannel, a.Length) && a[..p] == spec[..p]
    modifies a
    ensures a[..Idx3(z + 1, 0, 0, nA, nCh)] == spec[..Idx3(z + 1, 0, 0, nA, nCh)]
  {
    var q := p;
    Idx3Rows(z, 0, nA, nA, nCh);
    for j := 0 to nA
      invariant q == Idx3(z, j, 0, nA, nCh) <= Idx3(z + 1, 0, 0, nA, nCh)
      invariant a[..q] == spec[..q]
    {
      Idx3Next(z, j, nA, nCh);
      Idx3Rows(z, j + 1, nA, nA, nCh);
      InterpolateRow(ref, nA, nCh, byChannel, z, j, a, q, spec);
      q := q + nCh;
    }
    Idx3Next(z, nA, nA, nCh);
  }

  /** The NUM_Z interpolated templates, cell (z, j, k) at Idx3(z, j, k). */
  method InterpolateZ(ref: seq<real>, nA: nat, nCh: nat, byChannel: bool) returns (flux: seq<real>)
    requires |ref| == Size3(nA, nCh, NMETALS)
    ensures flux == ZCells(ref, nA, nCh, byChannel, Size3(NUM_Z, nA, nCh))
  {
    var a := new real[Size3(NUM_Z, nA, nCh)];
    ghost var spec := ZCells(ref, nA, nCh, byChannel, a.Length);
    for z := 0 to NUM_Z
      invariant Idx3(z, 0, 0, nA, nCh) <= a.Length
      invariant a[..Idx3(z, 0, 0, nA, nCh)] == spec[..Idx3(z, 0, 0, nA, nCh)]
    {
      Idx3Blocks(z, z + 1, nA, nCh);
      Idx3Blocks(z + 1, NUM_Z, nA, nCh);
      InterpolateBin(ref, nA, nCh, byChannel, z, a, Idx3(z, 0, 0, nA, nCh), spec);
    }
    Idx3Blocks(NUM_Z, NUM_Z, nA, nCh);
    assert a[..] == a[..Idx3(NUM_Z, 0, 0, nA, nCh)];
    flux := a[..];
  }

  // ---------------------------------------------------------------------------
  // init_templates_sp as a whole.

  /** The rest-frame fluxes of the five template metallicities for bucket j at
      wavelength k, interpolated at metallicity bin z. */
  function SpFlux(t: Template, ageList: seq<real>, z: nat, j: nat, k: nat): real
    requires Loaded(t) && j < |ageList| && k < |t.waves| && BucketInside(t.age, ageList, j)
  {
    var row := seq(NMETALS, m requires 0 <= m < NMETALS => RestFlux(t, ageList, j, k, m));
    RefMetalsTable(row);
    PiecewiseLinear(RefMetals, row, z as real)
  }

  /** init_templates_sp, from the loaded templates on: the NUM_Z interpolated
      templates, cell (z, j, k) at Idx3(z, j, k) over (bin, bucket, wavelength).
      It halts exactly when some bucket leaves the template ages. */
  method InitTemplatesSp(t: Template, ageList: seq<real>) returns (r: Result<seq<real>>)
    requires Loaded(t)
    ensures r.Err? <==> |t.waves| > 0 && !AgesCovered(t.age, ageList)
    ensures r.Ok? ==> r.value == ZCells(RestFluxCells(t, ageList, Size3(|ageList|, |t.waves|, NMETALS)),
                                        |ageList|, |t.waves|, false, Size3(NUM_Z, |ageList|, |t.waves|))
  {
    var ref := IntegrateSp(t, ageList);
    if ref.Err? {
      return Err(ref.error);
    }
    var flux := InterpolateZ(ref.value, |ageList|, |t.waves|, false);
    r := Ok(flux);
  }

  /** The templates init_templates_sp builds when the ages are covered. */
  function SpTemplates(t: Template, ageList: seq<real>): (s: seq<real>)
    requires Loaded(t)
    ensures |s| == Size3(NUM_Z, |ageList|, |t.waves|)
  {
    ZCells(RestFluxCells(t, ageList, Size3(|ageList|, |t.waves|, NMETALS)),
           |ageList|, |t.waves|, false, Size3(NUM_Z, |ageList|, |t.waves|))
  }

  /** What cell (z, j, k) of init_templates_sp's result means. */
  lemma SpTemplatesCell(t: Template, ageList: seq<real>, z: nat, j: nat, k: nat)
    requires Loaded(t) && AgesCovered(t.age, ageList) && z < NUM_Z && j < |ageList| && k < |t.waves|
    ensures Idx3(z, j, k, |ageList|, |t.waves|) < Size3(NUM_Z, |ageList|, |t.waves|)
    ensures SpTemplates(t, ageList)[Idx3(z, j, k, |ageList|, |t.waves|)] == SpFlux(t, ageList, z, j, k)
  {
    var nA, nW := |ageList|, |t.waves|;
    var ref := RestFluxCells(t, ageList, Size3(nA, nW, NMETALS));
    InterpolatedCell(ref, nA, nW, false, z, j, k);
    RefRowBounds(j, k, nA, nW, false);
    var row := MetalRow(ref, RefRow(j, k, nA, nW, false));
    forall m | 0 <= m < NMETALS
      ensures row[m] == RestFlux(t, ageList, j, k, m)
    {
      RefSpectraCell(t, ageList, j, k, m);
    }
    assert row == seq(NMETALS, m requires 0 <= m < NMETALS => RestFlux(t, ageList, j, k, m));
  }

  /** At the bin of a template metallicity the interpolation returns that
      template's own flux. */
  lemma SpFluxAtTemplateMetal(t: Template, ageList: seq<real>, z: nat, j: nat, k: nat, m: nat)
    requires Loaded(t) && j < |ageList| && k < |t.waves| && BucketInside(t.age, ageList, j)
    requires m < NMETALS && z as real == RefMetals[m]
    ensures SpFlux(t, ageList, z, j, k) == RestFlux(t, ageList, j, k, m)
  {
    var row := seq(NMETALS, m requires 0 <= m < NMETALS => RestFlux(t, ageList, j, k, m));
    RefMetalsTable(row);
    PiecewiseLinearAtGrid(RefMetals, row, m);
  }
}
