/** The top of the flattened-history pipeline (sector_cext.c): the sum over
    every galaxy's bursts of its star formation rate times the working
    template of the burst's metallicity bin and age step
    (compute_spectra_full, here one galaxy after another), the UV slope fit
    (fit_UV_slope), and the assembly of the output (composite_spectra_cext). */
module Compose {
  import opened Flat
  import opened Kernel
  import opened Binning
  import opened Window
  import opened Bursts
  import opened Seds
  import opened Working

  /** The floor every output entry starts from (sector_cext.c). */
  const TOL: real := 1.0e-30

  // ---------------------------------------------------------------------------
  // The sum over bursts

  /** Every burst's bin and age step index the working buffer. */
  predicate Fits(bursts: seq<Ssp>, nMaxZ: nat, nA: nat)
  {
    KeysWithin(BinKeys(bursts), nMaxZ) && KeysWithin(AgeKeys(bursts), nA)
  }

  /** The working offset of channel iF of burst b: (metals*nAgeStep +
      index)*nFlux + iF. */
  function BurstCell(b: Ssp, nA: nat, nFlux: nat, iF: nat): nat
    requires 0 <= MetalBin(b.metals) && 0 <= b.index
  {
    Idx3(MetalBin(b.metals), b.index, iF, nA, nFlux)
  }

  /** Channel iF of the contributions of the first k bursts, read from the
      working buffer w. */
  function BurstSum(bursts: seq<Ssp>, w: seq<real>, nMaxZ: nat, nA: nat, nFlux: nat, iF: nat, k: nat): real
    requires Fits(bursts, nMaxZ, nA) && |w| == Size3(nMaxZ, nA, nFlux) && iF < nFlux && k <= |bursts|
  {
    if k == 0 then 0.0
    else
      var b := bursts[k - 1];
      assert BinKeys(bursts)[k - 1] == MetalBin(b.metals) && AgeKeys(bursts)[k - 1] == b.index;
      Idx3Bounds(MetalBin(b.metals), b.index, iF, nMaxZ, nA, nFlux);
      BurstSum(bursts, w, nMaxZ, nA, nFlux, iF, k - 1) + Times(b.sfr, w[BurstCell(b, nA, nFlux, iF)])
  }

  /** The template value of burst b in channel iF: refSpectra row (iF,
      index) interpolated at the centre of the burst's bin. */
  function BurstTemplate(b: Ssp, ref: seq<real>, Z: seq<real>, nCh: nat, nA: nat, iF: nat): real
    requires Grid(Z) && |ref| == Size3(nCh, nA, |Z|) && iF < nCh && 0 <= b.index < nA
  {
    PiecewiseLinear(Z, RawRow(ref, nCh, nA, |Z|, iF, b.index), BinCentre(MetalBin(b.metals)))
  }

  /** Channel iF of the contributions of the first k bursts, with every
      burst's template interpolated from refSpectra. */
  function BurstTotal(bursts: seq<Ssp>, ref: seq<real>, Z: seq<real>, nCh: nat, nA: nat, iF: nat, k: nat): real
    requires Grid(Z) && |ref| == Size3(nCh, nA, |Z|) && iF < nCh && k <= |bursts|
    requires KeysWithin(AgeKeys(bursts), nA)
  {
    if k == 0 then 0.0
    else
      assert AgeKeys(bursts)[k - 1] == bursts[k - 1].index;
      BurstTotal(bursts, ref, Z, nCh, nA, iF, k - 1) + Times(bursts[k - 1].sfr, BurstTemplate(bursts[k - 1], ref, Z, nCh, nA, iF))
  }

  /** The flags of a galaxy are clear at every burst's bin and age step. */
  lemma FlagsClearAtBurst(bursts: seq<Ssp>, dusty: bool, nMaxZ: nat, nA: nat, k: nat)
    requires Fits(bursts, nMaxZ, nA) && k < |bursts|
    ensures 0 <= MetalBin(bursts[k].metals) < nMaxZ && 0 <= bursts[k].index < nA
    ensures ZFlags(bursts, dusty, nMaxZ)[MetalBin(bursts[k].metals)] == 0
    ensures AgeFlags(bursts, dusty, nA)[bursts[k].index] == 0
  {
    assert BinKeys(bursts)[k] == MetalBin(bursts[k].metals) && AgeKeys(bursts)[k] == bursts[k].index;
    FlagCleared(BinKeys(bursts), k);
    FlagCleared(AgeKeys(bursts), k);
  }

  /** Every one of the first k bursts reads, from w, its own template. */
  ghost predicate CellsHoldTemplates(bursts: seq<Ssp>, w: seq<real>, ref: seq<real>, Z: seq<real>,
                                     nCh: nat, nA: nat, nFlux: nat, iF: nat, k: nat)
    requires Grid(Z) && |ref| == Size3(nCh, nA, |Z|) && iF < nCh && k <= |bursts|
  {
    forall j :: 0 <= j < k ==>
      0 <= MetalBin(bursts[j].metals) && 0 <= bursts[j].index < nA && BurstCell(bursts[j], nA, nFlux, iF) < |w| &&
      w[BurstCell(bursts[j], nA, nFlux, iF)] == BurstTemplate(bursts[j], ref, Z, nCh, nA, iF)
  }

  /** When every burst reads its own template from w, the sum read from w is
      the sum of the templates. */
  lemma {:induction false} BurstSumOfCells(bursts: seq<Ssp>, w: seq<real>, ref: seq<real>, Z: seq<real>,
                                           nMaxZ: nat, nCh: nat, nA: nat, nFlux: nat, iF: nat, k: nat)
    requires Grid(Z) && nFlux <= nCh && |ref| == Size3(nCh, nA, |Z|) && |w| == Size3(nMaxZ, nA, nFlux)
    requires Fits(bursts, nMaxZ, nA) && iF < nFlux && k <= |bursts|
    requires CellsHoldTemplates(bursts, w, ref, Z, nCh, nA, nFlux, iF, k)
    ensures BurstSum(bursts, w, nMaxZ, nA, nFlux, iF, k) == BurstTotal(bursts, ref, Z, nCh, nA, iF, k)
  {
    if k > 0 {
      BurstSumOfCells(bursts, w, ref, Z, nMaxZ, nCh, nA, nFlux, iF, k - 1);
    }
  }

  /** With minZ = 0, the sum read from the working buffer a galaxy's own
      init_templates_working call leaves is the sum of the interpolated
      templates, whatever the buffer held before: every cell a burst reads
      was written for this galaxy. */
  lemma BurstSumOfWorking(bursts: seq<Ssp>, dusty: bool, w0: seq<real>, ref: seq<real>, Z: seq<real>,
                          nMaxZ: nat, nCh: nat, nA: nat, nFlux: nat, iF: nat, k: nat)
    requires Grid(Z) && nFlux <= nCh && |ref| == Size3(nCh, nA, |Z|) && |w0| == Size3(nMaxZ, nA, nFlux)
    requires Fits(bursts, nMaxZ, nA) && iF < nFlux && k <= |bursts|
    ensures BurstSum(bursts, Working.Working(w0, ref, Z, 0, ZFlags(bursts, dusty, nMaxZ), AgeFlags(bursts, dusty, nA), nCh, nFlux),
                     nMaxZ, nA, nFlux, iF, k)
         == BurstTotal(bursts, ref, Z, nCh, nA, iF, k)
  {
    var zFlags, ageFlags := ZFlags(bursts, dusty, nMaxZ), AgeFlags(bursts, dusty, nA);
    var w := Working.Working(w0, ref, Z, 0, zFlags, ageFlags, nCh, nFlux);
    forall j | 0 <= j < k
      ensures 0 <= MetalBin(bursts[j].metals) && 0 <= bursts[j].index < nA && BurstCell(bursts[j], nA, nFlux, iF) < |w|
      ensures w[BurstCell(bursts[j], nA, nFlux, iF)] == BurstTemplate(bursts[j], ref, Z, nCh, nA, iF)
    {
      FlagsClearAtBurst(bursts, dusty, nMaxZ, nA, j);
      WorkingCell(w0, ref, Z, 0, zFlags, ageFlags, nCh, nFlux, MetalBin(bursts[j].metals), bursts[j].index, iF);
    }
    BurstSumOfCells(bursts, w, ref, Z, nMaxZ, nCh, nA, nFlux, iF, k);
  }

  /** One burst of the loop: the nFlux entries from p gain sfr times the
      nFlux working cells from d; no other entry changes. */
  method AddBurst(target: array<real>, p: nat, nFlux: nat, sfr: real, working: array<real>, d: nat)
    requires target != working && p + nFlux <= target.Length && d + nFlux <= working.Length
    modifies target
    ensures forall q :: p <= q < p + nFlux ==> target[q] == old(target[q]) + Times(sfr, working[d + (q - p)])
    ensures forall q :: 0 <= q < target.Length && !(p <= q < p + nFlux) ==> target[q] == old(target[q])
  {
    for iF := 0 to nFlux
      invariant forall q :: p <= q < p + iF ==> target[q] == old(target[q]) + Times(sfr, working[d + (q - p)])
      invariant forall q :: 0 <= q < target.Length && !(p <= q < p + iF) ==> target[q] == old(target[q])
    {
      target[p + iF] := target[p + iF] + sfr * working[d + iF];
    }
  }

  /** The burst loop of compute_spectra_full for galaxy iG: row iG of target
      gains sfr times the working cells of every burst; no other entry
      changes. */
  method SumBursts(target: array<real>, iG: nat, nFlux: nat, bursts: array<Ssp>, working: array<real>, nMaxZ: nat, nA: nat)
    requires target != working
    requires Idx(iG, nFlux, nFlux) <= target.Length
    requires working.Length == Size3(nMaxZ, nA, nFlux) && Fits(bursts[..], nMaxZ, nA)
    modifies target
    ensures forall iF :: 0 <= iF < nFlux ==>
      target[Idx(iG, iF, nFlux)] == old(target[Idx(iG, iF, nFlux)]) + BurstSum(bursts[..], working[..], nMaxZ, nA, nFlux, iF, bursts.Length)
    ensures forall q :: 0 <= q < target.Length && !(Idx(iG, 0, nFlux) <= q < Idx(iG, nFlux, nFlux)) ==> target[q] == old(target[q])
  {
    ghost var t0 := target[..];
    ghost var B := bursts[..];
    ghost var W := working[..];
    var p := Idx(iG, 0, nFlux);
    for iP := 0 to bursts.Length
      invariant forall q :: p <= q < p + nFlux ==> target[q] == t0[q] + BurstSum(B, W, nMaxZ, nA, nFlux, q - p, iP)
      invariant forall q :: 0 <= q < target.Length && !(p <= q < p + nFlux) ==> target[q] == t0[q]
    {
      var b := bursts[iP];
      assert BinKeys(B)[iP] == MetalBin(b.metals) && AgeKeys(B)[iP] == b.index;
      var d := Idx3(MetalBin(b.metals), b.index, 0, nA, nFlux);
      Idx3RowEnd(MetalBin(b.metals), b.index, nMaxZ, nA, nFlux);
      AddBurst(target, p, nFlux, b.sfr, working, d);
      forall q | p <= q < p + nFlux
        ensures target[q] == t0[q] + BurstSum(B, W, nMaxZ, nA, nFlux, q - p, iP + 1)
      {
        assert BurstCell(b, nA, nFlux, q - p) == d + (q - p);
      }
    }
  }

  // ---------------------------------------------------------------------------
  // compute_spectra_full

  /** What the galaxy loop reads of the templates: the integrated templates,
      the metallicities, wavelengths and number of age steps, the bins of the
      working buffer, the filters or the observer frame. */
  datatype Templates = Templates(integrated: seq<real>, Z: seq<real>, waves: seq<real>, nA: nat, minZ: int, nMaxZ: nat,
                                 bands: Option<seq<Band>>, nFlux: nat, nObs: nat, z: real, Ly: Option<seq<real>>)

  function Snapshot(sp: SedParams): Templates
    reads sp
    requires sp.minZ <= sp.maxZ + 1
  {
    Templates(sp.integrated, sp.Z, sp.waves, |sp.ageStep|, sp.minZ, sp.maxZ - sp.minZ + 1,
              sp.bands, sp.nFlux, sp.nObs, sp.z, sp.LyAbsorption)
  }

  /** The shapes the spectra of every galaxy rely on. */
  ghost predicate Usable(t: Templates, dust: Option<Absorption>)
  {
    && |t.integrated| == Size3(|t.Z|, t.nA, |t.waves|) && Grid(t.Z)
    && (t.Ly.Some? ==> |t.Ly.value| == |t.waves|)
    && (t.bands.None? ==> t.nFlux <= |t.waves| && (t.nObs > 0 ==> 1.0 + t.z != 0.0))
    && (t.bands.Some? ==> Grid(t.waves) && Bands(t.bands.value) && t.nFlux == |t.bands.value|)
    && (dust.Some? ==> KeepsLength(dust.value))
  }

  /** The templates galaxy iG's bursts are read from: refSpectra built from
      the integrated templates with the galaxy's dust (if any), in the
      observer frame in spectrum mode. */
  ghost function GalaxyRef(t: Templates, bursts: seq<Ssp>, dust: Option<Absorption>, iG: int): (ref: seq<real>)
    requires Usable(t, dust)
    ensures |ref| == Size3(Channels(t.bands, |t.waves|), t.nA, |t.Z|)
  {
    var ageFlags := AgeFlags(bursts, dust.Some?, t.nA);
    RefSpectra(ReadyAfter(t.integrated, dust, iG, ageFlags, t.bands, t.nObs, t.z, t.Ly, |t.waves|),
               t.waves, t.bands, ageFlags, |t.Z|)
  }

  /** Channel iF of galaxy iG: the sum over its bursts of sfr times the
      template of the burst's age step, interpolated at the centre of the
      burst's metallicity bin. */
  ghost function GalaxyFlux(t: Templates, bursts: seq<Ssp>, dust: Option<Absorption>, iG: int, iF: nat): real
    requires Usable(t, dust) && Fits(bursts, t.nMaxZ, t.nA) && iF < t.nFlux
  {
    BurstTotal(bursts, GalaxyRef(t, bursts, dust, iG), t.Z, Channels(t.bands, |t.waves|), t.nA, iF, |bursts|)
  }

  /** The call of init_templates_working that prepares the galaxy's
      templates stops the run. */
  ghost predicate GalaxyFails(t: Templates, bursts: seq<Ssp>, dust: Option<Absorption>)
    requires Usable(t, dust)
  {
    var ageFlags := AgeFlags(bursts, dust.Some?, t.nA);
    var zFlags := ZFlags(bursts, dust.Some?, t.nMaxZ);
    (t.bands.Some? && FilterFails(t.waves, t.bands.value, ageFlags, |t.Z|)) || ZFails(t.Z, t.minZ, zFlags, ageFlags, t.nFlux)
  }

  /** row holds the nFlux channels of galaxy iG. */
  ghost predicate RowOf(row: seq<real>, t: Templates, bursts: seq<Ssp>, dust: Option<Absorption>, iG: int)
    requires Usable(t, dust) && Fits(bursts, t.nMaxZ, t.nA)
  {
    |row| == t.nFlux &&
    forall iF {:trigger GalaxyFlux(t, bursts, dust, iG, iF)} :: 0 <= iF < t.nFlux ==> row[iF] == GalaxyFlux(t, bursts, dust, iG, iF)
  }

  /** Without dust the flags are all zero and the templates are the same for
      every galaxy: the single call with iG = -1 serves them all. */
  lemma NoDustShared(t: Templates, bursts: seq<Ssp>, iG: int)
    requires Usable(t, None)
    ensures AgeFlags(bursts, false, t.nA) == AgeFlags([], false, t.nA)
    ensures ZFlags(bursts, false, t.nMaxZ) == ZFlags([], false, t.nMaxZ)
    ensures GalaxyRef(t, bursts, None, iG) == GalaxyRef(t, [], None, -1)
    ensures GalaxyFails(t, bursts, None) == GalaxyFails(t, [], None)
  {
    assert AgeFlags(bursts, false, t.nA) == AgeFlags([], false, t.nA);
    assert ZFlags(bursts, false, t.nMaxZ) == ZFlags([], false, t.nMaxZ);
  }

  /** What the templates need of a galaxy beyond what they need of all:
      its bursts within the flags. */
  lemma PreparedFor(sp: SedParams, bursts: seq<Ssp>, dust: Option<Absorption>)
    requires Prepared(sp, [], dust) && sp.minZ == 0 && Fits(bursts, sp.maxZ + 1, |sp.ageStep|)
    ensures Prepared(sp, bursts, dust)
  {
  }

  /** The burst loop of one galaxy, once its working buffer holds its
      templates interpolated over the cells its flags select (on top of any
      earlier contents W0): row iG gains the galaxy's flux. */
  method AccumulateGalaxy(target: array<real>, sp: SedParams, bursts: array<Ssp>, dust: Option<Absorption>, iG: nat,
                          ghost t: Templates, ghost W0: seq<real>)
    requires sp.minZ == 0 <= sp.maxZ + 1 && t == Snapshot(sp) && Usable(t, dust) && Fits(bursts[..], t.nMaxZ, t.nA)
    requires target != sp.working && Idx(iG, t.nFlux, t.nFlux) <= target.Length
    requires sp.working.Length == Size3(t.nMaxZ, t.nA, t.nFlux) && |W0| == sp.working.Length
    requires sp.working[..] == Working.Working(W0, GalaxyRef(t, bursts[..], dust, iG), t.Z, 0,
                                               ZFlags(bursts[..], dust.Some?, t.nMaxZ), AgeFlags(bursts[..], dust.Some?, t.nA),
                                               Channels(t.bands, |t.waves|), t.nFlux)
    modifies target
    ensures forall iF :: 0 <= iF < t.nFlux ==>
      target[Idx(iG, iF, t.nFlux)] == old(target[Idx(iG, iF, t.nFlux)]) + GalaxyFlux(t, bursts[..], dust, iG, iF)
    ensures forall q :: 0 <= q < target.Length && !(Idx(iG, 0, t.nFlux) <= q < Idx(iG, t.nFlux, t.nFlux)) ==>
      target[q] == old(target[q])
  {
    SumBursts(target, iG, sp.nFlux, bursts, sp.working, sp.maxZ + 1, |sp.ageStep|);
    forall iF | 0 <= iF < t.nFlux
      ensures BurstSum(bursts[..], sp.working[..], t.nMaxZ, t.nA, t.nFlux, iF, bursts.Length) == GalaxyFlux(t, bursts[..], dust, iG, iF)
    {
      BurstSumOfWorking(bursts[..], dust.Some?, W0, GalaxyRef(t, bursts[..], dust, iG), t.Z, t.nMaxZ,
                        Channels(t.bands, |t.waves|), t.nA, t.nFlux, iF, bursts.Length);
    }
  }

  /** init_templates_working for galaxy iG, in terms of the galaxy: the
      working buffer holds the galaxy's templates, interpolated over the cells
      its flags select on top of W0, or the run stops. Without dust the call
      changes nothing, and the working buffer already holds the templates
      every galaxy shares, interpolated over every cell on top of w0. */
  method GalaxyTemplates(sp: SedParams, bursts: array<Ssp>, dust: Option<Absorption>, iG: nat,
                         ghost t: Templates, ghost w0: seq<real>) returns (r: Result<()>, ghost W0: seq<real>)
    requires Prepared(sp, bursts[..], dust) && sp.minZ == 0 && t == Snapshot(sp) && Usable(t, dust)
    requires dust.None? ==> !GalaxyFails(t, [], None) && |w0| == sp.working.Length
    requires dust.None? ==> sp.working[..] == Working.Working(w0, GalaxyRef(t, [], None, -1), t.Z, 0,
                                                              ZFlags([], false, t.nMaxZ), AgeFlags([], false, t.nA),
                                                              Channels(t.bands, |t.waves|), t.nFlux)
    modifies sp.ready, sp.working
    ensures dust.None? ==> r.Ok? && sp.working[..] == old(sp.working[..])
    ensures r.Err? <==> GalaxyFails(t, bursts[..], dust)
    ensures r.Ok? ==>
      |W0| == sp.working.Length &&
      sp.working[..] == Working.Working(W0, GalaxyRef(t, bursts[..], dust, iG), t.Z, 0,
                                        ZFlags(bursts[..], dust.Some?, t.nMaxZ), AgeFlags(bursts[..], dust.Some?, t.nA),
                                        Channels(t.bands, |t.waves|), t.nFlux)
  {
    W0 := if dust.Some? then sp.working[..] else w0;
    ghost var B := bursts[..];
    if dust.None? {
      NoDustShared(t, B, iG);
    }
    r := InitTemplatesWorking(sp, bursts, dust, iG);
    assert bursts[..] == B;
  }

  /** One pass of the galaxy loop: init_templates_working for galaxy iG, then
      its bursts; row iG of target gains the galaxy's channels, returned in
      row. */
  method GalaxyStep(target: array<real>, sp: SedParams, bursts: array<Ssp>, dust: Option<Absorption>, iG: nat,
                    ghost t: Templates, ghost w0: seq<real>) returns (r: Result<()>, ghost row: seq<real>)
    requires Prepared(sp, bursts[..], dust) && sp.minZ == 0 && t == Snapshot(sp) && Usable(t, dust)
    requires Fits(bursts[..], t.nMaxZ, t.nA)
    requires target != sp.ready && target != sp.working && Idx(iG, t.nFlux, t.nFlux) <= target.Length
    requires dust.None? ==> !GalaxyFails(t, [], None) && |w0| == sp.working.Length
    requires dust.None? ==> sp.working[..] == Working.Working(w0, GalaxyRef(t, [], None, -1), t.Z, 0,
                                                              ZFlags([], false, t.nMaxZ), AgeFlags([], false, t.nA),
                                                              Channels(t.bands, |t.waves|), t.nFlux)
    modifies target, sp.ready, sp.working
    ensures dust.None? ==> r.Ok? && sp.working[..] == old(sp.working[..])
    ensures r.Err? <==> GalaxyFails(t, bursts[..], dust)
    ensures r.Ok? ==> RowOf(row, t, bursts[..], dust, iG)
    ensures r.Ok? ==> forall iF :: 0 <= iF < |row| ==>
      target[Idx(iG, iF, t.nFlux)] == old(target[Idx(iG, iF, t.nFlux)]) + row[iF]
    ensures forall q :: 0 <= q < target.Length && !(Idx(iG, 0, t.nFlux) <= q < Idx(iG, t.nFlux, t.nFlux)) ==>
      target[q] == old(target[q])
  {
    ghost var t0 := target[..];
    row := [];
    ghost var W0;
    r, W0 := GalaxyTemplates(sp, bursts, dust, iG, t, w0);
    if r.Err? {
      return;
    }
    AccumulateGalaxy(target, sp, bursts, dust, iG, t, W0);
    ghost var t1 := target[..];
    var nFlux := sp.nFlux;
    row := seq(nFlux, iF requires 0 <= iF < nFlux => t1[Idx(iG, iF, nFlux)] - t0[Idx(iG, iF, nFlux)]);
  }

  /** cur is orig with row g of F added to row g, for every row of F, and
      equal to orig from the row after the last of F onwards. */
  ghost predicate RowsAdded(cur: seq<real>, orig: seq<real>, F: seq<seq<real>>, nFlux: nat)
  {
    && |cur| == |orig|
    && (forall g :: 0 <= g < |F| ==>
          |F[g]| == nFlux &&
          forall iF :: 0 <= iF < nFlux ==>
            Idx(g, iF, nFlux) < |cur| && cur[Idx(g, iF, nFlux)] == orig[Idx(g, iF, nFlux)] + F[g][iF])
    && (forall q :: Idx(|F|, 0, nFlux) <= q < |cur| ==> cur[q] == orig[q])
  }

  /** Adding one more row to the rows already added. */
  lemma RowAdded(cur: seq<real>, next: seq<real>, orig: seq<real>, F: seq<seq<real>>, row: seq<real>, nFlux: nat, nG: nat)
    requires |cur| == |next| == Mul(nG, nFlux) && |F| < nG && |row| == nFlux
    requires RowsAdded(cur, orig, F, nFlux)
    requires forall iF :: 0 <= iF < nFlux && Idx(|F|, iF, nFlux) < |cur| ==>
               next[Idx(|F|, iF, nFlux)] == cur[Idx(|F|, iF, nFlux)] + row[iF]
    requires forall q :: 0 <= q < |cur| && !(Idx(|F|, 0, nFlux) <= q < Idx(|F|, nFlux, nFlux)) ==> next[q] == cur[q]
    ensures RowsAdded(next, orig, F + [row], nFlux)
  {
    var iG := |F|;
    IdxRowEnd(iG, nFlux, nG);
    forall g, iF | 0 <= g < iG && 0 <= iF < nFlux
      ensures Idx(g, iF, nFlux) < Idx(iG, 0, nFlux)
    {
      MulOrder(g, iG, nFlux);
    }
    forall iF | 0 <= iF < nFlux
      ensures Idx(iG, iF, nFlux) < |cur|
    {
      IdxBounds(iG, iF, nFlux, nG);
    }
    assert Idx(iG + 1, 0, nFlux) == Idx(iG, nFlux, nFlux);
  }

  /** F holds the rows of the first |F| galaxies of H, none of which
      stopped the run. */
  ghost predicate RowsDone(F: seq<seq<real>>, t: Templates, H: seq<seq<Ssp>>, dust: Option<Absorption>)
  {
    && Usable(t, dust) && |F| <= |H|
    && forall g :: 0 <= g < |F| ==> Fits(H[g], t.nMaxZ, t.nA) && !GalaxyFails(t, H[g], dust) && RowOf(F[g], t, H[g], dust, g)
  }

  lemma RowDone(F: seq<seq<real>>, row: seq<real>, t: Templates, H: seq<seq<Ssp>>, dust: Option<Absorption>)
    requires RowsDone(F, t, H, dust) && |F| < |H| && Fits(H[|F|], t.nMaxZ, t.nA)
    requires !GalaxyFails(t, H[|F|], dust) && RowOf(row, t, H[|F|], dust, |F|)
    ensures RowsDone(F + [row], t, H, dust)
  {
    forall g | 0 <= g < |F| + 1
      ensures (F + [row])[g] == if g < |F| then F[g] else row
    {
    }
  }

  /** The next pass of the galaxy loop, on the rows F of the galaxies before
      iG already added to target (from its contents t0): one more row. */
  method NextGalaxy(target: array<real>, sp: SedParams, bursts: array<Ssp>, dust: Option<Absorption>, iG: nat,
                    ghost t: Templates, ghost w0: seq<real>, ghost H: seq<seq<Ssp>>, ghost t0: seq<real>, ghost F: seq<seq<real>>)
    returns (r: Result<()>, ghost row: seq<real>)
    requires Prepared(sp, [], dust) && sp.minZ == 0 && t == Snapshot(sp) && Usable(t, dust)
    requires |F| == iG < |H| && bursts[..] == H[iG] && Fits(H[iG], t.nMaxZ, t.nA) && RowsDone(F, t, H, dust)
    requires target.Length == Mul(|H|, t.nFlux) && target != sp.ready && target != sp.working
    requires RowsAdded(target[..], t0, F, t.nFlux)
    requires dust.None? ==> !GalaxyFails(t, [], None) && |w0| == sp.working.Length
    requires dust.None? ==> sp.working[..] == Working.Working(w0, GalaxyRef(t, [], None, -1), t.Z, 0,
                                                              ZFlags([], false, t.nMaxZ), AgeFlags([], false, t.nA),
                                                              Channels(t.bands, |t.waves|), t.nFlux)
    modifies target, sp.ready, sp.working
    ensures dust.None? ==> r.Ok? && sp.working[..] == old(sp.working[..])
    ensures r.Err? <==> GalaxyFails(t, H[iG], dust)
    ensures r.Ok? ==> RowsDone(F + [row], t, H, dust) && RowsAdded(target[..], t0, F + [row], t.nFlux)
  {
    IdxRowEnd(iG, t.nFlux, |H|);
    PreparedFor(sp, H[iG], dust);
    ghost var cur := target[..];
    r, row := GalaxyStep(target, sp, bursts, dust, iG, t, w0);
    if r.Ok? {
      RowAdded(cur, target[..], t0, F, row, t.nFlux, |H|);
      RowDone(F, row, t, H, dust);
    }
  }

  /** The galaxy loop of compute_spectra_full: row g of target gains the
      channels F[g] of galaxy g (whose bursts are H[g]), galaxy after galaxy;
      with dust, the run stops at the first galaxy whose templates cannot be
      prepared. */
  method SumGalaxies(target: array<real>, sp: SedParams, histories: seq<array<Ssp>>, dust: Option<Absorption>,
                     ghost H: seq<seq<Ssp>>, ghost t: Templates, ghost w0: seq<real>) returns (r: Result<()>, ghost F: seq<seq<real>>)
    requires |H| == |histories| && forall g :: 0 <= g < |histories| ==> histories[g][..] == H[g]
    requires Prepared(sp, [], dust) && sp.minZ == 0 && t == Snapshot(sp) && Usable(t, dust)
    requires forall g :: 0 <= g < |H| ==> Fits(H[g], t.nMaxZ, t.nA)
    requires target.Length == Mul(|H|, t.nFlux) && target != sp.ready && target != sp.working
    requires dust.None? ==> !GalaxyFails(t, [], None) && |w0| == sp.working.Length
    requires dust.None? ==> sp.working[..] == Working.Working(w0, GalaxyRef(t, [], None, -1), t.Z, 0,
                                                              ZFlags([], false, t.nMaxZ), AgeFlags([], false, t.nA),
                                                              Channels(t.bands, |t.waves|), t.nFlux)
    modifies target, sp.ready, sp.working
    ensures r.Err? <==> dust.Some? && exists g :: 0 <= g < |H| && GalaxyFails(t, H[g], dust)
    ensures r.Ok? ==> |F| == |H| && RowsDone(F, t, H, dust) && RowsAdded(target[..], old(target[..]), F, t.nFlux)
  {
    ghost var t0 := target[..];
    ghost var w1 := sp.working[..];
    F := [];
    for iG := 0 to |histories|
      invariant dust.None? ==> sp.working[..] == w1
      invariant forall g :: 0 <= g < |histories| ==> histories[g][..] == H[g]
      invariant |F| == iG && RowsDone(F, t, H, dust)
      invariant RowsAdded(target[..], t0, F, t.nFlux)
    {
      ghost var row;
      r, row := NextGalaxy(target, sp, histories[iG], dust, iG, t, w0, H, t0, F);
      if r.Err? {
        return;
      }
      F := F + [row];
    }
    r := Ok(());
  }

  /** init_templates_integrated stops the run. */
  predicate IntegrationFails(sp: SedParams, ageStep: seq<real>)
    reads sp
    requires 1 <= sp.nAge <= |sp.age|
  {
    |sp.Z| > 0 && |sp.waves| > 0 && !StepsCovered(sp.age[..sp.nAge], ageStep)
  }

  /** The fields of the templates the run reads and does not write. */
  datatype Setup = Setup(minZ: int, maxZ: int, Z: seq<real>, waves: seq<real>, nAge: nat, age: seq<real>, raw: seq<real>,
                         bands: Option<seq<Band>>, nFlux: nat, nObs: nat, logWaves: seq<real>, Ly: Option<seq<real>>, z: real)

  function SetupOf(sp: SedParams): Setup
    reads sp
  {
    Setup(sp.minZ, sp.maxZ, sp.Z, sp.waves, sp.nAge, sp.age, sp.raw, sp.bands, sp.nFlux, sp.nObs, sp.logWaves,
          sp.LyAbsorption, sp.z)
  }

  /** The ready and working buffers compute_spectra_full allocates: one
      cell per integrated template entry, and one per bin, age step and
      channel. */
  method AllocateBuffers(sp: SedParams, dust: Option<Absorption>)
    requires sp.Valid() && |sp.integrated| == Size3(|sp.Z|, |sp.ageStep|, |sp.waves|)
    requires sp.minZ == 0 <= sp.maxZ && Grid(sp.Z)
    requires sp.bands.None? ==> sp.nFlux <= |sp.waves| && (sp.nObs > 0 ==> 1.0 + sp.z != 0.0)
    requires sp.bands.Some? ==> Grid(sp.waves)
    requires dust.Some? ==> KeepsLength(dust.value)
    modifies sp
    ensures SetupOf(sp) == old(SetupOf(sp)) && sp.ageStep == old(sp.ageStep) && sp.integrated == old(sp.integrated)
    ensures fresh(sp.ready) && fresh(sp.working) && Prepared(sp, [], dust)
  {
    var ready := new real[Size3(|sp.Z|, |sp.ageStep|, |sp.waves|)];
    var working := new real[Size3(sp.maxZ - sp.minZ + 1, |sp.ageStep|, sp.nFlux)];
    sp.ready, sp.working := ready, working;
  }

  /** The first steps of compute_spectra_full on the templates: the age
      steps, the integrated templates, and fresh ready and working buffers. */
  method SetUpTemplates(sp: SedParams, ageStep: seq<real>, dust: Option<Absorption>) returns (r: Result<()>)
    requires sp.Valid() && 2 <= sp.nAge && StrictlyIncreasing(sp.age[..sp.nAge])
    requires sp.minZ == 0 <= sp.maxZ && Grid(sp.Z)
    requires sp.bands.None? ==> sp.nFlux <= |sp.waves| && (sp.nObs > 0 ==> 1.0 + sp.z != 0.0)
    requires sp.bands.Some? ==> Grid(sp.waves)
    requires dust.Some? ==> KeepsLength(dust.value)
    modifies sp
    ensures SetupOf(sp) == old(SetupOf(sp)) && sp.ageStep == ageStep
    ensures r.Err? <==> IntegrationFails(sp, ageStep)
    ensures r.Ok? ==>
      sp.integrated == Integrated(sp.raw, sp.age[..sp.nAge], ageStep, |sp.Z|, |sp.waves|) &&
      Prepared(sp, [], dust) && fresh(sp.ready) && fresh(sp.working)
  {
    sp.ageStep := ageStep;
    r := sp.InitTemplatesIntegrated();
    assert SetupOf(sp) == old(SetupOf(sp));
    if r.Err? {
      return;
    }
    AllocateBuffers(sp, dust);
  }

  /** Without dust, the single init_templates_working call with iG = -1 that
      prepares the templates every galaxy shares, on top of the working
      buffer's contents w0. */
  method SharedTemplates(sp: SedParams) returns (r: Result<()>, ghost w0: seq<real>)
    requires Prepared(sp, [], None) && sp.minZ == 0
    modifies sp.ready, sp.working
    ensures Usable(Snapshot(sp), None)
    ensures r.Err? <==> GalaxyFails(Snapshot(sp), [], None)
    ensures r.Ok? ==>
      |w0| == sp.working.Length &&
      sp.working[..] == Working.Working(w0, GalaxyRef(Snapshot(sp), [], None, -1), sp.Z, 0,
                                        ZFlags([], false, sp.maxZ + 1), AgeFlags([], false, |sp.ageStep|),
                                        Channels(sp.bands, |sp.waves|), sp.nFlux)
  {
    w0 := sp.working[..];
    var none := new Ssp[0];
    assert none[..] == [];
    r := InitTemplatesWorking(sp, none, None, -1);
  }

  /** Trimming keeps each burst's age step. */
  lemma TrimmedAges(bursts: seq<Ssp>, maxZ: int)
    requires 0 <= maxZ
    ensures AgeKeys(Trimmed(bursts, 0, maxZ)) == AgeKeys(bursts)
  {
    TrimmedHistory(bursts, 0, maxZ);
  }

  /** Every burst's age step within the nA age steps. */
  predicate AgesWithin(histories: seq<array<Ssp>>, nA: nat)
    reads set g | 0 <= g < |histories| :: histories[g]
  {
    forall g :: 0 <= g < |histories| ==> KeysWithin(AgeKeys(histories[g][..]), nA)
  }

  /** trim_gal_params with minZ = 0: every history trimmed, and then its bins
      fit the maxZ + 1 metallicity flags and its age steps the nA age flags. */
  method TrimHistories(histories: seq<array<Ssp>>, maxZ: int, nA: nat)
    requires 0 <= maxZ && Separate(histories) && AgesWithin(histories, nA)
    modifies set g | 0 <= g < |histories| :: histories[g]
    ensures forall g :: 0 <= g < |histories| ==> histories[g][..] == Trimmed(old(histories[g][..]), 0, maxZ)
    ensures forall g :: 0 <= g < |histories| ==> Fits(histories[g][..], maxZ + 1, nA)
  {
    TrimGalParams(histories, 0, maxZ);
    forall g | 0 <= g < |histories|
      ensures Fits(histories[g][..], maxZ + 1, nA)
    {
      TrimmedBinsFitFlags(old(histories[g][..]), maxZ);
      TrimmedAges(old(histories[g][..]), maxZ);
    }
  }

  /** Some call of init_templates_working stops the run: without dust the
      single call with iG = -1, with dust the call for some galaxy. */
  ghost predicate GalaxiesFail(t: Templates, H: seq<seq<Ssp>>, dust: Option<Absorption>)
  {
    Usable(t, dust) &&
    if dust.None? then GalaxyFails(t, [], None) else exists g :: 0 <= g < |H| && GalaxyFails(t, H[g], dust)
  }

  /** cur is orig with the nFlux channels of galaxy g (whose bursts are H[g])
      added to row g, for every galaxy. */
  ghost predicate SpectraAdded(cur: seq<real>, orig: seq<real>, t: Templates, H: seq<seq<Ssp>>, dust: Option<Absorption>)
  {
    && Usable(t, dust) && (forall g :: 0 <= g < |H| ==> Fits(H[g], t.nMaxZ, t.nA))
    && |cur| == |orig|
    && forall g, iF :: 0 <= g < |H| && 0 <= iF < t.nFlux ==>
         Idx(g, iF, t.nFlux) < |cur| &&
         cur[Idx(g, iF, t.nFlux)] == orig[Idx(g, iF, t.nFlux)] + GalaxyFlux(t, H[g], dust, g, iF)
  }

  /** The galaxies of compute_spectra_full, once the templates are
      integrated, on the trimmed histories H: without dust the single
      init_templates_working call with iG = -1, then row g of target gains
      the flux of galaxy g; the run stops when a call of
      init_templates_working does. */
  method RunGalaxies(target: array<real>, sp: SedParams, histories: seq<array<Ssp>>, dust: Option<Absorption>,
                     ghost H: seq<seq<Ssp>>, ghost t: Templates, ghost t0: seq<real>) returns (r: Result<()>)
    requires Prepared(sp, [], dust) && sp.minZ == 0 && t == Snapshot(sp) && t0 == target[..]
    requires |H| == |histories| && forall g :: 0 <= g < |histories| ==> histories[g][..] == H[g]
    requires forall g :: 0 <= g < |H| ==> Fits(H[g], sp.maxZ + 1, |sp.ageStep|)
    requires target.Length == Mul(|H|, sp.nFlux) && target != sp.ready && target != sp.working
    modifies target, sp.ready, sp.working
    ensures Usable(t, dust)
    ensures r.Err? <==> GalaxiesFail(t, H, dust)
    ensures r.Ok? ==> SpectraAdded(target[..], t0, t, H, dust)
  {
    ghost var w0 := [];
    if dust.None? {
      r, w0 := SharedTemplates(sp);
      if r.Err? {
        return;
      }
    }
    ghost var F;
    r, F := SumGalaxies(target, sp, histories, dust, H, t, w0);
    if r.Ok? {
      forall g, iF | 0 <= g < |H| && 0 <= iF < t.nFlux
        ensures Idx(g, iF, t.nFlux) < target.Length
        ensures target[Idx(g, iF, t.nFlux)] == t0[Idx(g, iF, t.nFlux)] + GalaxyFlux(t, H[g], dust, g, iF)
      {
        assert RowsDone(F, t, H, dust);
        assert RowOf(F[g], t, H[g], dust, g);
      }
    }
  }

  /** compute_spectra_full(target, spectra, galParams, dustParams), one galaxy
      after another: the histories are trimmed to the template metallicities
      (H), the templates integrated over the age steps, and row g of target
      gains the flux of galaxy g; the run stops when the integration or a call
      of init_templates_working does. The working buffer is indexed by the
      absolute bin, which agrees with its layout only when minZ = 0. */
  method ComputeSpectraFull(target: array<real>, sp: SedParams, histories: seq<array<Ssp>>, ageStep: seq<real>,
                            dust: Option<Absorption>) returns (r: Result<()>, ghost H: seq<seq<Ssp>>, ghost t: Templates)
    requires sp.Valid() && 2 <= sp.nAge && StrictlyIncreasing(sp.age[..sp.nAge])
    requires sp.minZ == 0 <= sp.maxZ && Grid(sp.Z)
    requires sp.bands.None? ==> sp.nFlux <= |sp.waves| && (sp.nObs > 0 ==> 1.0 + sp.z != 0.0)
    requires sp.bands.Some? ==> Grid(sp.waves)
    requires dust.Some? ==> KeepsLength(dust.value)
    requires Separate(histories) && AgesWithin(histories, |ageStep|)
    requires target.Length == Mul(|histories|, sp.nFlux)
    modifies sp, target, set g | 0 <= g < |histories| :: histories[g]
    ensures SetupOf(sp) == old(SetupOf(sp)) && sp.ageStep == ageStep
    ensures |H| == |histories| && forall g :: 0 <= g < |histories| ==> histories[g][..] == H[g]
    ensures forall g :: 0 <= g < |histories| ==> H[g] == Trimmed(old(histories[g][..]), 0, sp.maxZ)
    ensures forall g :: 0 <= g < |H| ==> Fits(H[g], sp.maxZ + 1, |ageStep|)
    ensures !IntegrationFails(sp, ageStep) ==> sp.integrated == Integrated(sp.raw, sp.age[..sp.nAge], ageStep, |sp.Z|, |sp.waves|)
    ensures t == Snapshot(sp)
    ensures r.Err? <==> IntegrationFails(sp, ageStep) || GalaxiesFail(t, H, dust)
    ensures r.Ok? ==> SpectraAdded(target[..], old(target[..]), t, H, dust)
  {
    ghost var t0 := target[..];
    TrimHistories(histories, sp.maxZ, |ageStep|);
    H := seq(|histories|, g requires 0 <= g < |histories| reads histories => histories[g][..]);
    r := SetUpTemplates(sp, ageStep, dust);
    t := Snapshot(sp);
    if r.Err? {
      return;
    }
    r := RunGalaxies(target, sp, histories, dust, H, t, t0);
  }
}
