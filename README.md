# Sector: galaxy spectra and magnitudes from star formation histories

Sector turns stellar population synthesis templates and per-galaxy star
formation histories into galaxy spectra, broadband magnitudes and rest-frame
UV slopes. This project models its numerical core in Dafny, file by file:

- `kernel.dfy` (module `Kernel`): the tabular kernel of `mag_calc_cext.c`.
  It covers `interp` (bisection then linear interpolation), `trapz_table`
  (trapezoid integration of a table between two bounds) and `trapz_filter`
  (the filter integral). `interp` is proved equal to an independent
  reference, the piecewise-linear function through the table. `trapz_table`
  is specified by a function that follows the code: the bisection, with its
  break on an exact hit that can leave a wide bracket, then the accumulation
  loop. About that function the model proves its error cases, the empty,
  constant and non-negative laws, and that when no probe can hit the lower
  bound exactly it equals the exact integral of the piecewise-linear
  interpolant, summed segment by segment. `trapz_filter` is proved linear in
  the flux and to scale under stretched wavelengths.
- `magcalc.dfy` (`MagCalc`): `init_templates_sp`. The five metallicity
  templates are integrated over the age buckets, scaled to Jansky and
  interpolated onto the 40 metallicity bins.
- `photometry.dfy` (`Photometry`): `init_templates_ph`. It integrates like
  `init_templates_sp`, then integrates through the rest-frame filters, then
  through the observer-frame filters on wavelengths stretched by 1 + z, then
  interpolates along metallicity.
- `tree.dfy` (`MergerTree`): `trace_progenitors` and `trace_merger_tree`. They
  flatten a Meraxes merger tree (first and next progenitor links) into a
  record buffer of at most MAX_NODE entries.
- `reduction.dfy` (`Reduction`): `compute_spectrum` and the galaxy loops of
  `galaxy_spectra_cext` and `galaxy_mags_cext`. For each galaxy, every record
  of its tree adds its star formation rate times its template row to a floor
  of TOL.
- `binning.dfy` (`Binning`): the metallicity bin `(int)(Z*1000 - .5)` and its
  truncating cast.
- `bursts.dfy` (`Bursts`): `trim_gal_params`, `age_flag` and `Z_flag` of
  `sector_cext.c`, over the flattened burst histories.
- `window.dfy` (`Window`): the wavelength selection of `shrink_templates_raw`.
- `seds.dfy` (`Seds`): the template state `struct sed_params`, modelled as the
  class `SedParams`. It covers `shrink_templates_raw` and
  `init_templates_integrated`.
- `working.dfy` (`Working`): `init_templates_working`. It prepares the ready
  buffer (dust, observer frame) and the transpose or the filter integrals.
  Then it interpolates, along metallicity, the cells a galaxy's bursts use
  into the working buffer.
- `compose.dfy` (`Compose`): `compute_spectra_full`. It trims the histories,
  integrates the templates, and for each galaxy runs `init_templates_working`
  and sums its bursts into the galaxy's output row.
- `composite.dfy` (`Composite`): `fit_UV_slope` and `composite_spectra_cext`.
  The output starts at TOL, receives the fluxes, and is returned in one of
  three forms, chosen by the output type:
  - AB magnitudes;
  - the fluxes as they are;
  - the fluxes with the last channel converted, followed by the slope,
    intercept and R of a fit per galaxy.
- `flat.dfy` (`Flat`): row-major offsets (`Idx`, `Idx3`) of the flattened
  multi-dimensional buffers, and their bounds.

A fatal `exit(0)` of the source is an `Err` of `Kernel.Result`:
- `OutOfRange`: a point outside the interpolation or integration region;
- `Inverted`: integration bounds in the wrong order;
- `Capacity`: a merger tree longer than the record buffer.

Each operation's contract says exactly when it fails.

Doubles are modelled as reals. `M_AB`, `log` and `linregress` are
function-valued parameters (`mab`, `log`, `regress`), and so is
`dust_absorption` (`Working.Absorption`).

## Model

| member | source | states |
|---|---|---|
| Kernel.ChordAtEnds | mag_calc_cext.c:131 | the chord through (x0, y0) and (x1, y1) returns y0 at x0 and y1 at x1 |
| Kernel.ChordNonNegative | mag_calc_cext.c:131 | between its ends, a chord of non-negative values is non-negative |
| Kernel.SegmentFrom | mag_calc_cext.c:120-131 | the reference segment search: every segment before the one chosen lies strictly left of the point, and the one chosen reaches it |
| Kernel.PiecewiseLinearOnSegment | mag_calc_cext.c:120-131 | the chord of any segment that brackets the point equals the piecewise-linear interpolant, so the segment the bisection settles on does not matter |
| Kernel.PiecewiseLinearAtGrid | mag_calc_cext.c:126-129 | the interpolant reproduces every tabulated point, which is what the exact-hit return y[idxMid] gives |
| Kernel.Interp | mag_calc_cext.c:113-132 | halts with an out-of-range error exactly when xp < x[0] or xp > x[nPts-1]; otherwise returns the piecewise-linear interpolant of the table at xp (an independent reference definition), so it never extrapolates |
| Kernel.InterpAtEnds | mag_calc_cext.c:116-131 | the interpolant is y[0] at x[0] and y[nPts-1] at x[nPts-1] |
| Kernel.Bisect | mag_calc_cext.c:155-164 | the bisection keeps x[idx0] <= a <= x[idx1] inside the original bracket and stops on an adjacent pair or on an exact probe hit, when the bracket can stay wide |
| Kernel.TrapzTable | mag_calc_cext.c:135-185 | trapz_table returns the Trapezoid specification: its error cases, the boundary values on the bracket the bisection leaves, and the accumulation loop |
| Kernel.TrapzFromBracketLoop | mag_calc_cext.c:166-184 | the boundary values and the accumulation loop, which stops at the first interval whose left end is >= b, compute TrapzFromBracket |
| Kernel.TrapezoidErrors | mag_calc_cext.c:143-154 | trapz_table halts exactly when a < x[0], b > x[nPts-1] or a > b, with the range errors taking precedence |
| Kernel.TrapezoidEmptyRange | mag_calc_cext.c:166-169 | a == b integrates to 0 |
| Kernel.TrapezoidOfConstant | mag_calc_cext.c:135-185 | a constant table y == c integrates to c*(b-a), whatever bracket the bisection leaves |
| Kernel.TrapezoidNonNegative | mag_calc_cext.c:135-185 | a non-negative table has a non-negative integral |
| Kernel.TrapezoidNotAdditive | mag_calc_cext.c:156-172 | a concrete table on which the integral over [0, 4] is not the sum of those over [0, 2] and [2, 4], because the exact hit at x[2] leaves a wide bracket |
| Kernel.TailIsIntegral | mag_calc_cext.c:173-184 | from a grid point at or right of a, the accumulation loop equals the sum of the exact integrals of the piecewise-linear interpolant over the remaining segments, clipped to b |
| Kernel.BracketIsIntegral | mag_calc_cext.c:166-184 | started from an adjacent bracket around a, the boundary values and the accumulation loop give the exact integral of the piecewise-linear interpolant over [a, b] |
| Kernel.TrapezoidIsIntegral | mag_calc_cext.c:135-185 | when a is not an interior grid point, so no bisection probe hits it exactly, trapz_table returns the exact integral over [a, b] of the piecewise-linear interpolant |
| Kernel.TrapzFilter | mag_calc_cext.c:188-200 | trapz_filter returns the sum over 1 <= i < nWaves of (w[i]-w[i-1])*(f[i-1]*phi[i-1] + f[i]*phi[i])/2, which is 0 when nWaves <= 1 |
| Kernel.Combine | mag_calc_cext.c:188-200 | c*u + v taken elementwise, the combination the linearity law is stated for |
| Kernel.TrapezoidLinear | mag_calc_cext.c:196 | one trapezoid of the filter integral is linear in the flux |
| Kernel.FilterIntegralLinear | mag_calc_cext.c:188-200 | the filter integral is linear in the flux argument |
| Kernel.TrapezoidStretched | mag_calc_cext.c:196 | scaling the flux by c and stretching the wavelengths by d multiplies one trapezoid by c*d |
| Kernel.FilterIntegralStretched | mag_calc_cext.c:188-200 | scaling the flux by c and stretching the wavelengths by d multiplies the filter integral by c*d |
| MagCalc.Row | mag_calc_cext.c:273-281 | the template row of metallicity m at wavelength j is a table over the template ages |
| MagCalc.BucketFails | mag_calc_cext.c:269-281 | a time bucket fails exactly when it leaves the template ages or is inverted |
| MagCalc.FirstBucketOfConstant | mag_calc_cext.c:269-277 | for a constant row c, bucket 0 holds c*ageList[0]: data[0]*age[0] is added before integrating from age[0] |
| MagCalc.IntegrateBucket | mag_calc_cext.c:269-281 | one bucket computed with trapz_table equals the Bucket specification, errors included |
| MagCalc.SedCell | mag_calc_cext.c:268-281 | one bucket of one row fails exactly when the bucket leaves the ages, and otherwise equals Sed |
| MagCalc.CellFlux | mag_calc_cext.c:268-283 | the same bucket multiplied by JANSKY(waves[j]) |
| MagCalc.RestFluxCells | mag_calc_cext.c:263-285 | the refSpectra buffer in cell order has Size3 cells |
| MagCalc.RestFluxAtCell | mag_calc_cext.c:267-283 | offset (i*nWaves + j)*NMETALS + m of refSpectra holds the Jansky-scaled bucket i of metallicity m at wavelength j |
| MagCalc.RefSpectraCell | mag_calc_cext.c:263-285 | cell (i, j, m) of refSpectra lies inside the buffer and holds bucket i of the row of metallicity m at wavelength j, in Jansky |
| MagCalc.StoreCell | mag_calc_cext.c:268-284 | writing cell (i, j, m) at its offset extends the correctly filled prefix, or fails exactly when the bucket leaves the ages |
| MagCalc.IntegrateRow | mag_calc_cext.c:266-285 | the NMETALS cells of bucket i at wavelength j extend the filled prefix, or the bucket fails |
| MagCalc.IntegrateBlock | mag_calc_cext.c:265-285 | all cells of bucket i extend the filled prefix to the next bucket, or the bucket fails |
| MagCalc.IntegrateSp | mag_calc_cext.c:263-285 | the time integration fails exactly when some bucket leaves the template ages, and otherwise fills refSpectra with RestFluxCells |
| MagCalc.MetalRow | mag_calc_cext.c:294 | the NMETALS values interp reads for one (age, wavelength) row are the buffer's cells Idx(r, m, NMETALS) |
| MagCalc.InterpolateCell | mag_calc_cext.c:294 | interp((double)i, refMetals, row, NMETALS) never halts (bins lie in [0, 39]) and returns the interpolated cell |
| MagCalc.ZCells | mag_calc_cext.c:289-294 | the interpolated templates in buffer order have n cells |
| MagCalc.ZCellAtCell | mag_calc_cext.c:291-294 | offset (z*nAgeList + j)*nWaves + k holds the interpolation at bin z of row (j, k) |
| MagCalc.InterpolatedCell | mag_calc_cext.c:289-294 | cell (z, j, k) of the interpolated templates lies in the NUM_Z-bin buffer and holds the interpolation at z |
| MagCalc.StoreZCell | mag_calc_cext.c:294 | writing one interpolated cell extends the filled prefix |
| MagCalc.InterpolateRow | mag_calc_cext.c:293-294 | the nWaves cells of (z, j) extend the filled prefix |
| MagCalc.InterpolateBin | mag_calc_cext.c:292-294 | the cells of bin z extend the filled prefix to the next bin |
| MagCalc.InterpolateZ | mag_calc_cext.c:289-294 | the NUM_Z interpolated templates equal ZCells |
| MagCalc.InitTemplatesSp | mag_calc_cext.c:239-299 | init_templates_sp from the loaded templates on halts exactly when some bucket leaves the template ages, and otherwise returns the metallicity interpolation of the Jansky-scaled time integration |
| MagCalc.SpTemplates | mag_calc_cext.c:289-298 | the templates init_templates_sp returns have NUM_Z*nAgeList*nWaves cells |
| MagCalc.SpTemplatesCell | mag_calc_cext.c:289-294 | cell (z, j, k) of init_templates_sp's result is the interpolation at bin z of the Jansky-scaled buckets at age j and wavelength k |
| MagCalc.SpFluxAtTemplateMetal | mag_calc_cext.c:241 | at the bin of a template metallicity (0, 3, 7, 19, 39) the interpolated template equals that template's own flux (also line 294) |
| Photometry.SedCells | mag_calc_cext.c:333-353 | the time-integrated spectra buffer in cell order has n cells |
| Photometry.SedAtCell | mag_calc_cext.c:336-351 | offset (i*nAgeList + j)*nWaves + k holds bucket j of the row of metallicity i at wavelength k |
| Photometry.StoreSed | mag_calc_cext.c:337-351 | writing cell (m, j, k) extends the correctly filled prefix, or fails exactly when bucket j leaves the template ages |
| Photometry.IntegratePhRow | mag_calc_cext.c:336-352 | the spectrum of metallicity m over bucket j extends the filled prefix, or the bucket fails |
| Photometry.IntegratePhBlock | mag_calc_cext.c:335-353 | all buckets of metallicity m extend the filled prefix, or some bucket fails |
| Photometry.IntegratePh | mag_calc_cext.c:333-353 | the time integration of init_templates_ph fails exactly when some bucket leaves the template ages, and otherwise fills the buffer with SedCells |
| Photometry.ScaleRows | mag_calc_cext.c:360-364 | a buffer of rows with each row multiplied entry by entry by a factor per wavelength keeps its length (also lines 380-384) |
| Photometry.ScaleRowsCell | mag_calc_cext.c:363 | entry k of row r of the scaled buffer is the old entry times factor k (also line 383) |
| Photometry.JanskyFactors | mag_calc_cext.c:363 | one JANSKY factor per wavelength |
| Photometry.ObsFactors | mag_calc_cext.c:383 | one factor (1 + z)*absorption[k] per wavelength |
| Photometry.ObsWaves | mag_calc_cext.c:378-379 | the wavelengths stretched by 1 + z, one per wavelength |
| Photometry.ScaleRow | mag_calc_cext.c:361-363 | scaling row r extends the scaled prefix and leaves the later rows as they were (also lines 381-383) |
| Photometry.ScaleSpectra | mag_calc_cext.c:360-364 | pData[k] *= factor[k] over every row turns the buffer into ScaleRows of its old contents (also lines 380-384) |
| Photometry.RedshiftWaves | mag_calc_cext.c:378-379 | waves[i] *= 1 + z turns the wavelengths into ObsWaves of the old ones |
| Photometry.FilterCurve | mag_calc_cext.c:366 | filter f's transmission curve is the nWaves samples from offset f*nWaves (also line 386) |
| Photometry.Spectrum | mag_calc_cext.c:370 | the spectrum spectra[k*nAgeList + j] has nWaves entries (also line 390) |
| Photometry.BandCells | mag_calc_cext.c:356-392 | refSpectra in cell order has n cells |
| Photometry.BandAtCell | mag_calc_cext.c:368-370 | offset (f*nAgeList + j)*NMETALS + m holds trapz_filter of filter f and the spectrum of metallicity m over bucket j (also lines 388-390) |
| Photometry.StoreBand | mag_calc_cext.c:370 | writing cell (f, j, m) extends the filled prefix (also line 390) |
| Photometry.BandRow | mag_calc_cext.c:368-370 | the NMETALS cells of filter f and bucket j extend the filled prefix (also lines 388-390) |
| Photometry.BandBlock | mag_calc_cext.c:366-371 | all cells of filter f extend the filled prefix to the next filter (also lines 386-391) |
| Photometry.BandPass | mag_calc_cext.c:365-372 | the filters of one frame (rest, then observer) extend the filled prefix to the last of them (also lines 385-392) |
| Photometry.MetalBands | mag_calc_cext.c:400 | the five template metallicities' band fluxes for filter f and bucket j |
| Photometry.BandCellsAt | mag_calc_cext.c:368-370 | the row interp reads for (f, j) holds template m's band flux in cell m (also line 400) |
| Photometry.MetalRowBands | mag_calc_cext.c:400 | the metallicity row init_templates_ph interpolates for filter f and bucket j is exactly the five templates' band fluxes |
| Photometry.BandsFluxCell | mag_calc_cext.c:395-400 | cell (bin, j, f) of the interpolated band fluxes is the interpolation at bin of the five band fluxes |
| Photometry.PhRest | mag_calc_cext.c:333-364 | the Jansky-scaled time-integrated spectra have NMETALS*nAgeList*nWaves cells |
| Photometry.InitTemplatesPh | mag_calc_cext.c:302-406 | init_templates_ph from the loaded templates on halts exactly when there are wavelengths and some bucket leaves the template ages, and otherwise returns the metallicity interpolation of the rest-frame then observer-frame filter integrals |
| Photometry.ScaleSpectrum | mag_calc_cext.c:360-364 | a spectrum of a scaled buffer is that spectrum scaled |
| Photometry.SpectrumCell | mag_calc_cext.c:370 | entry k of spectrum (m, j) is the buffer's cell Idx3(m, j, k) (also line 390) |
| Photometry.RestSpectrum | mag_calc_cext.c:273-283 | the rest-frame spectrum in Jansky of metallicity m over bucket j, cell by cell as init_templates_sp computes it, has nWaves entries |
| Photometry.PhRestSpectrum | mag_calc_cext.c:273-283 | both template builders agree on the rest-frame spectra: integration then Jansky scaling gives init_templates_sp's cell at every wavelength (also lines 336-364) |
| Photometry.PhRestCell | mag_calc_cext.c:342-363 | wavelength k of that spectrum is init_templates_sp's Jansky-scaled bucket |
| Photometry.PhRestAt | mag_calc_cext.c:360-364 | offset Idx3(m, j, k) of the scaled buffer holds the integrated cell times JANSKY(waves[k]) |
| Photometry.PhRestBand | mag_calc_cext.c:365-372 | a rest-frame filter integrates the rest-frame spectrum on the template wavelengths |
| Photometry.PhObsBand | mag_calc_cext.c:378-392 | an observer-frame filter integrates the rest-frame spectrum times (1 + z)*absorption on the wavelengths stretched by 1 + z |
| Photometry.UnabsorbedFactors | mag_calc_cext.c:383 | with absorption 1 everywhere the observer-frame scaling multiplies by 1 + z |
| Photometry.PhObsBandUnabsorbed | mag_calc_cext.c:378-392 | without absorption an observer-frame filter integrates the spectrum times 1 + z on wavelengths stretched by 1 + z, which makes it (1 + z)^2 times the rest-frame integral |
| Photometry.PhTemplates | mag_calc_cext.c:395-400 | the templates init_templates_ph returns have NUM_Z*nAgeList*nFilter cells |
| Photometry.PhTemplatesCell | mag_calc_cext.c:395-400 | cell (bin, j, f) of init_templates_ph's result is the interpolation at bin of filter f's band fluxes over bucket j |
| Photometry.PhFluxAtTemplateMetal | mag_calc_cext.c:305 | at the bin of a template metallicity the interpolation returns that template's own band flux (also line 400) |
| MergerTree.Emit | mag_calc_cext.c:413-428 | a galaxy yields at most one record, and one exactly when its star formation rate is positive |
| MergerTree.RecordsAppend | mag_calc_cext.c:430-431 | the records of two consecutive runs of the walk are the records of each run in turn |
| MergerTree.ReachedExist | mag_calc_cext.c:412 | every galaxy the walk reaches exists and sits at a snapshot no later than where the walk started (also line 430) |
| MergerTree.ProgenitorsArePreorder | mag_calc_cext.c:409-433 | trace_progenitors emits exactly the star-forming galaxies of the preorder walk over first and next progenitors |
| MergerTree.RecordsOfNode | mag_calc_cext.c:412-431 | one step of the preorder: the galaxy's own record, then its first progenitor's walk, then its next progenitor's walk |
| MergerTree.TreeIsPreorder | mag_calc_cext.c:436-452 | a merger tree's records are the root's record followed by the preorder walk from its first progenitor |
| MergerTree.ProgenitorsUsable | mag_calc_cext.c:413-427 | every record of a walk has positive star formation, a metal bin clamped to [MIN_Z, MAX_Z] and a snapshot no later than the walk's start |
| MergerTree.TreeUsable | mag_calc_cext.c:439-452 | every record of a tree rooted at snapshot s is usable at s |
| MergerTree.TraceProgenitors | mag_calc_cext.c:409-433 | trace_progenitors appends the walk's records after index last and returns the new last index, and halts exactly when the index would reach MAX_NODE |
| MergerTree.RecordGalaxy | mag_calc_cext.c:413-428 | a star-forming galaxy takes the next slot with its clamped metal bin, unless that slot would be MAX_NODE |
| MergerTree.TraceMergerTree | mag_calc_cext.c:436-459 | trace_merger_tree writes the tree's records to branch[0..count) and returns count, halts exactly when the tree holds more than MAX_NODE records, and warns exactly when it holds none |
| MergerTree.ExampleEmits | mag_calc_cext.c:413-428 | in a three-galaxy catalogue each galaxy yields one record in metal bin 19 |
| MergerTree.LeafWalk | mag_calc_cext.c:412-431 | a galaxy with neither a first nor a next progenitor walks to its own record only |
| MergerTree.WalkStep | mag_calc_cext.c:412-431 | the walk from a galaxy is its record then the walks from its first and next progenitors, while the tree from it leaves out the next progenitor (also lines 439-452) |
| MergerTree.ExampleLeaves | mag_calc_cext.c:412-431 | in the example catalogue the walks from the two leaves hold their own records only |
| MergerTree.RootSiblingNotFollowed | mag_calc_cext.c:436-459 | the tree rooted at a galaxy leaves out its next progenitor, which the recursive walk from the same galaxy takes in |
| Reduction.HistoryAppend | mag_calc_cext.c:505-510 | the channel sum over two runs of records is the sum of their sums, whatever the order of the records |
| Reduction.HistoryStep | mag_calc_cext.c:505-510 | record j adds its star formation rate times its template row's cell k to the sum over the records before it |
| Reduction.HistoryNonNegative | mag_calc_cext.c:505-510 | with non-negative templates and star-forming records every channel's sum is non-negative |
| Reduction.AddRow | mag_calc_cext.c:475-476 | flux[k] += sfr*row[k] for every channel (also lines 508-509, 551-552) |
| Reduction.AddRecord | mag_calc_cext.c:505-510 | one step of the record loop carries the channels from the sum over j records to the sum over j + 1 |
| Reduction.AccumulateHistory | mag_calc_cext.c:502-510 | after initialising every channel to base and adding every record, channel k holds base plus the sum over the records (also lines 545-553) |
| Reduction.FlattenCell | mag_calc_cext.c:473 | cell k of template row r sits at offset r*nWaves + k of the rows laid end to end |
| Reduction.ComputeSpectrum | mag_calc_cext.c:462-479 | compute_spectrum sets every channel to the sum over the records of sfr times the template row metals*nAge + cSnap - snap |
| Reduction.AddDataRecord | mag_calc_cext.c:471-477 | one step of compute_spectrum's record loop adds the record's row |
| Reduction.TreeFits | mag_calc_cext.c:507 | the records of a tree rooted at tSnap read rows inside the 40-bin templates when their age indices stay below nAgeList (also line 550) |
| Reduction.OutputCell | mag_calc_cext.c:499-514 | channel k of galaxy i of the output is the converted TOL + sum over the records of the tree rooted at indices[i] (also lines 542-557) |
| Reduction.EmptyHistory | mag_calc_cext.c:502-510 | a galaxy whose tree holds no star-forming record gets TOL in every channel |
| Reduction.GalaxyFluxFloor | mag_calc_cext.c:502-510 | with non-negative templates every channel of every galaxy is at least TOL |
| Reduction.StoreChannel | mag_calc_cext.c:512-513 | writing channel k of galaxy i extends the output prefix that matches the whole output (also lines 555-556) |
| Reduction.ContributionCell | mag_calc_cext.c:507 | a record contributes its star formation rate times cell (metals, tSnap - snap, k) of the table (also line 550) |
| Reduction.ReduceGalaxy | mag_calc_cext.c:500-513 | one galaxy's channels are written at its row, or the galaxy's tree overflows the record buffer |
| Reduction.Reduce | mag_calc_cext.c:499-514 | the galaxy loop halts with Capacity exactly when some tree overflows, and otherwise returns every galaxy's converted channels row after row (also lines 542-557) |
| Reduction.GalaxySpectra | mag_calc_cext.c:482-519 | galaxy_spectra_cext fails exactly when there are wavelengths and the template ages miss a bucket, or a tree overflows, and otherwise returns every galaxy's spectrum from init_templates_sp's templates |
| Reduction.GalaxyMags | mag_calc_cext.c:522-562 | galaxy_mags_cext fails exactly when there are wavelengths and the template ages miss a bucket, or a tree overflows, and otherwise returns every galaxy's M_AB magnitudes from init_templates_ph's templates |
| Binning.TruncToInt | sector_cext.c:122 | the C cast (int) truncates toward zero: the result is the integer part of r from below for r >= 0 and from above for r < 0 |
| Binning.Clamp | mag_calc_cext.c:421-424 | the clamped bin lies in [lo, hi] and a bin already inside is unchanged |
| Binning.MetalBinOfThousandth | sector_cext.c:122 | (int)(m*1000 - .5) puts a metallicity k/1000 with k >= 1 in bin k - 1, and 0 in bin 0 (also mag_calc_cext.c line 420) |
| Binning.MetalBinOfCentre | sector_cext.c:110-122 | the metallicity (k + 1)/1000 that trimming writes for bin k falls back in bin k |
| Bursts.TrimMetals | sector_cext.c:122-126 | a burst whose bin lies in [minZ, maxZ] keeps its metallicity; one below minZ gets (minZ + 1)/1000 and one above maxZ gets (maxZ + 1)/1000 |
| Bursts.TrimmedBin | sector_cext.c:122-126 | after trimming every burst's bin lies in [minZ, maxZ] |
| Bursts.TrimIdempotent | sector_cext.c:106-131 | trimming twice is trimming once |
| Bursts.TrimmedHistory | sector_cext.c:118-130 | trimming puts every bin in [minZ, maxZ] and leaves every burst's age step and star formation rate untouched |
| Bursts.TrimmedWithin | sector_cext.c:118-130 | a history already within [minZ, maxZ] is left unchanged |
| Bursts.TrimBursts | sector_cext.c:119-128 | one galaxy's bursts become their trimmed values, in place |
| Bursts.TrimGalParams | sector_cext.c:106-131 | trim_gal_params replaces every galaxy's bursts by their trimmed values |
| Bursts.MarkUsed | sector_cext.c:141-144 | the n fresh flags are 0 exactly at the keys some burst uses and 1 elsewhere (also lines 157-160) |
| Bursts.AgeFlag | sector_cext.c:134-147 | age_flag returns nAgeStep flags, 0 exactly at the age steps some burst falls in |
| Bursts.ZFlag | sector_cext.c:150-163 | Z_flag returns nMaxZ flags, 0 exactly at the metallicity bins some burst falls in |
| Bursts.FlagCleared | sector_cext.c:143-144 | the flag of a key some burst uses is 0 |
| Bursts.FlagSet | sector_cext.c:141-142 | the flag of a key no burst uses is 1 |
| Bursts.TrimmedBinsFitFlags | sector_cext.c:150-160 | with minZ = 0 the bins of a trimmed history index inside the maxZ + 1 flags Z_flag allocates |
| Window.InsideAnyFilter | sector_cext.c:258-274 | the filter scan finds a filter exactly when the wavelength lies strictly inside some filter's range |
| Window.SelectShape | sector_cext.c:254-280 | after scanning i wavelengths the selected indices are below i and non-decreasing, a run is open exactly when wavelength i - 1 is inside a filter, and at most two indices are pushed per wavelength |
| Window.SelectCovers | sector_cext.c:254-280 | every wavelength from index 1 on that lies inside a filter is selected |
| Window.SelectNear | sector_cext.c:262-279 | every selected index lies inside a filter or next to an index that does |
| Window.SelectionProperties | sector_cext.c:254-280 | the whole selection is in range, non-decreasing, covers every inside wavelength from index 1 on, and holds at most 2*nWaves indices |
| Window.SelectionOverflow | sector_cext.c:243-279 | two filters separated by one wavelength select that wavelength twice, six indices for five wavelengths |
| Window.SelectWaves | sector_cext.c:243-280 | the wavelength loop of shrink_templates_raw writes exactly the selection, into a buffer of 2*nWaves entries that always holds it (the source allocates nWaves) |
| Window.ScanWave | sector_cext.c:255-279 | one wavelength extends the selection from iW to iW + 1 scanned wavelengths |
| Window.SelectGrows | sector_cext.c:254-280 | the selection only grows as more wavelengths are scanned |
| Seds.CutAges | sector_cext.c:285-286 | the new age count is one past the first age not below maxAge: every earlier age is below maxAge and the last kept one reaches it |
| Seds.Pick | sector_cext.c:294-295 | one picked entry per selected index (also lines 311-312) |
| Seds.Gather | sector_cext.c:293-295 | newWaves and newAbsorption hold the entries at the selected indices, in selection order (also lines 310-312) |
| Seds.PickedWaves | sector_cext.c:254-295 | the kept wavelengths stay non-decreasing and still hold every wavelength from index 1 on that lies strictly inside a filter |
| Seds.Repacked | sector_cext.c:300-305 | the repacked raw buffer holds nZ blocks of nNewWaves rows of nNewAge ages |
| Seds.RepackedCell | sector_cext.c:305 | newRaw[(iZ*nNewWaves + iW)*nNewAge + iA] is raw[(iZ*nWaves + wavesIndices[iW])*nAge + iA] |
| Seds.RepackRow | sector_cext.c:304-305 | the ages of selected row iW of block iZ extend the repacked prefix |
| Seds.RepackBlock | sector_cext.c:303-305 | every row of block iZ extends the repacked prefix to the next block |
| Seds.RepackRaw | sector_cext.c:300-305 | the repacking loops produce the repacked buffer |
| Seds.StepFails | sector_cext.c:347-351 | integrating an age step fails exactly when the step leaves the template ages or is inverted |
| Seds.BucketConventions | sector_cext.c:343-351 | the two pipelines integrate the same steps, except that mag_calc_cext.c's first bucket also counts the time from age zero to the first template age at the first template value (also mag_calc_cext.c lines 338-352) |
| Seds.RawRow | sector_cext.c:347 | raw row (iZ, iW) holds nAge ages (also line 350) |
| Seds.Integrated | sector_cext.c:337-353 | intData holds nZ blocks of nAgeStep rows of nWaves wavelengths |
| Seds.IntegratedCell | sector_cext.c:341-351 | intData[(iZ*nAgeStep + iA)*nWaves + iW] is trapz_table of raw row (iZ, iW) from the previous step (age[0] for the first) to step iA |
| Seds.IntegrateCell | sector_cext.c:343-351 | one cell extends the integrated prefix, or fails exactly when its step leaves the template ages |
| Seds.IntegrateRow | sector_cext.c:341-352 | row (iZ, iA) extends the integrated prefix, or fails exactly when there are wavelengths and step iA leaves the template ages |
| Seds.IntegrateBlock | sector_cext.c:340-353 | block iZ extends the integrated prefix, or fails exactly when there are wavelengths and some step leaves the template ages |
| Seds.IntegrateTemplates | sector_cext.c:337-353 | the integration loops fail exactly when there are metallicities and wavelengths and some step leaves the template ages, and otherwise return the integrated buffer |
| Seds.ShrinkBuffers | sector_cext.c:243-315 | the wavelengths, age count, raw buffer and absorption shrink_templates_raw rebuilds are the selection, the age cut and the repacking of the old ones |
| Seds.SedParams.constructor | sector_cext.c:171-218 | the loaded template state: minZ and maxZ are the bins of the first and last metallicity, and the buffers are the ones read |
| Seds.SedParams.ShrinkTemplatesRaw | sector_cext.c:221-317 | without filters nothing changes; otherwise the wavelengths, ages, raw buffer and absorption are shrunk to the selection and the age cut, and every other field is unchanged |
| Seds.SedParams.InitTemplatesIntegrated | sector_cext.c:320-358 | integrated becomes the integration of every raw row over every age step, or the run halts exactly when some step leaves the template ages; no other field changes |
| Working.AgeFlags | sector_cext.c:375-384 | one flag per age step: age_flag of the galaxy's bursts with dust, all zero without |
| Working.ZFlags | sector_cext.c:375-384 | one flag per metallicity bin: Z_flag of the galaxy's bursts with dust, all zero without |
| Working.RedshiftUndone | sector_cext.c:405-409 | dividing the ready buffer by 1 + z is undone by multiplying it back by 1 + z |
| Working.DivideReady | sector_cext.c:405-409 | pData[iW] /= 1 + z over every row turns the ready buffer into its entries divided by 1 + z |
| Working.ObservedCell | sector_cext.c:401-417 | ready cell (i, iW) is kept when nObs is 0, divided by 1 + z when nObs > 0 without absorption, and then multiplied by LyAbsorption[iW] when there is absorption |
| Working.ObserveReady | sector_cext.c:401-417 | the spectrum-mode scaling of the ready buffer in place leaves the observer-frame buffer |
| Working.TransposedCell | sector_cext.c:419-423 | refSpectra[(iW*nAgeStep + iA)*nZ + iZ] is ready cell (iZ, iA, iW) |
| Working.TransposeTwice | sector_cext.c:419-423 | transposing back recovers the ready buffer |
| Working.SourceOffsetInjective | sector_cext.c:422 | the only refSpectra cell written from ready cell (iZ, iA, iW) is (iW, iA, iZ) |
| Working.SourceOffsetBound | sector_cext.c:419-423 | every refSpectra cell is written from some ready cell |
| Working.TransposeRow | sector_cext.c:420-422 | copying one ready row leaves every refSpectra cell whose source is at or before it at its transposed value |
| Working.Transpose | sector_cext.c:399-423 | the transpose loop leaves refSpectra holding the transposed ready buffer |
| Working.Transmitted | sector_cext.c:446-447 | filterData holds one value per filter wavelength |
| Working.BandTerm | sector_cext.c:450-451 | one term of the accumulator is twice one trapezoid of trapz_filter |
| Working.BandSumIsFilterIntegral | sector_cext.c:448-452 | the accumulated sum is twice the trapezoid filter integral |
| Working.BandFluxIsFilterIntegral | sector_cext.c:446-452 | the inlined filter integral I/2 equals trapz_filter of the transmission against the interpolated template (also mag_calc_cext.c lines 188-200) |
| Working.FilterData | sector_cext.c:446-447 | filterData is the template interpolated at every filter wavelength times the transmission, or the run fails exactly when a filter wavelength lies outside the template wavelengths |
| Working.SumBand | sector_cext.c:448-451 | the accumulation loop returns the sum of the trapezoid terms |
| Working.IntegrateBand | sector_cext.c:440-452 | the filter body returns the filter integral of one template row, or fails exactly when interp does |
| Working.FilterRef | sector_cext.c:436-457 | refSpectra in filter mode holds nFlux blocks of nAgeStep rows of nZ cells |
| Working.FilterRefCell | sector_cext.c:441-452 | refSpectra[(iF*nAgeStep + iA)*nZ + iZ] is ready row (iZ, iA) through filter iF when age step iA is used |
| Working.FilterCell | sector_cext.c:442-452 | one cell extends the refSpectra prefix, is skipped when its age step is unused, and fails exactly when a used cell's filter leaves the template wavelengths |
| Working.FilterRow | sector_cext.c:441-453 | the nZ cells of (iF, iA) extend the refSpectra prefix, or one fails |
| Working.FilterBlock | sector_cext.c:438-457 | block iF extends the refSpectra prefix, or fails exactly when some used age step meets a filter reaching outside the template wavelengths |
| Working.FilterTemplates | sector_cext.c:426-458 | the filter loop returns refSpectra with every used template through every filter, or fails exactly when a filter reaches outside the template wavelengths |
| Working.Working | sector_cext.c:464-476 | the working buffer after interpolation has its old length |
| Working.WorkingCell | sector_cext.c:465-476 | working cell (iZ, iA, iF) changes exactly when bin iZ and age step iA are both used, and then holds refSpectra's row interpolated at (minZ + iZ + 1)/1000 |
| Working.InterpolateCell | sector_cext.c:473-475 | one working cell extends the interpolated prefix, leaves the later cells alone, or fails exactly when the bin centre lies outside the metallicities |
| Working.SkippedRow | sector_cext.c:467-471 | a row whose bin or age step is unused keeps its old values |
| Working.InterpolateRow | sector_cext.c:465-476 | the nFlux cells of row (iZ, iA) are interpolated when both are used and kept otherwise |
| Working.InterpolateBlock | sector_cext.c:465-476 | every age step of bin iZ is interpolated or kept, or the bin centre lies outside the metallicities while in use |
| Working.InterpolateZ | sector_cext.c:460-476 | the interpolation loop fills every used cell, keeps every other cell, and fails exactly when a used bin centre lies outside the metallicities |
| Working.ReadyAfter | sector_cext.c:375-417 | the ready buffer left by the call has the integrated buffer's length |
| Working.RefSpectra | sector_cext.c:393-458 | refSpectra has nFlux (filter mode) or nWaves (spectrum mode) blocks of nAgeStep rows of nZ cells |
| Working.CopyIntegrated | sector_cext.c:376-382 | memcpy leaves the ready buffer equal to the integrated templates |
| Working.PrepareReady | sector_cext.c:375-387 | with dust the ready buffer holds the dusty templates and the flags are age_flag and Z_flag; with iG == -1 and no dust the flags are all zero; otherwise nothing happens |
| Working.InitTemplatesWorking | sector_cext.c:361-481 | init_templates_working changes nothing without dust unless iG == -1; otherwise the ready buffer holds the (dusty, observer-frame) templates, every used working cell holds refSpectra interpolated at its bin centre and the others keep their values, and the run halts exactly when a filter or a bin centre leaves the templates |
| Compose.FlagsClearAtBurst | sector_cext.c:134-163 | every burst's bin and age step index inside the flags, and both flags are clear there (also lines 581-582) |
| Compose.BurstSumOfCells | sector_cext.c:578-585 | when every burst reads its own interpolated template from the working buffer, the burst sum is the sum of the templates |
| Compose.BurstSumOfWorking | sector_cext.c:574-585 | with minZ = 0 the sum read from the working buffer a galaxy's own init_templates_working call leaves is the sum of its interpolated templates, whatever the buffer held before |
| Compose.AddBurst | sector_cext.c:582-584 | the nFlux entries of the galaxy's row gain sfr times the burst's working cells, and no other entry changes |
| Compose.SumBursts | sector_cext.c:576-585 | row iG of target gains the sum over the galaxy's bursts of sfr times the working cells at (bin, age step), and no other entry changes |
| Compose.GalaxyRef | sector_cext.c:375-458 | the templates galaxy iG reads have one row of nZ cells per channel and age step |
| Compose.NoDustShared | sector_cext.c:381-385 | without dust the flags are all zero and the templates are the same for every galaxy, so the single call with iG = -1 serves them all (also lines 567-568) |
| Compose.PreparedFor | sector_cext.c:520 | a trimmed galaxy's bursts fit the flags the buffers are sized for (also lines 563-564) |
| Compose.AccumulateGalaxy | sector_cext.c:576-585 | once the working buffer holds the galaxy's templates, row iG gains the galaxy's flux and no other entry changes |
| Compose.GalaxyTemplates | sector_cext.c:567-574 | init_templates_working for galaxy iG leaves the working buffer holding the galaxy's interpolated templates over the cells its flags select, changes nothing without dust, or halts exactly when the galaxy's templates cannot be prepared |
| Compose.GalaxyStep | sector_cext.c:572-585 | one pass of the galaxy loop adds the galaxy's channels to its row and leaves every other entry, or halts exactly when its templates cannot be prepared |
| Compose.RowAdded | sector_cext.c:577-584 | adding one more galaxy's row extends the rows already added |
| Compose.NextGalaxy | sector_cext.c:571-589 | the next pass extends the rows added by galaxy iG's row, or halts exactly when that galaxy fails |
| Compose.SumGalaxies | sector_cext.c:570-589 | the galaxy loop adds every galaxy's channels to its row, or halts exactly when, with dust, some galaxy's templates cannot be prepared |
| Compose.AllocateBuffers | sector_cext.c:562-566 | the ready buffer has one cell per integrated template entry and the working buffer one per bin, age step and channel |
| Compose.SetUpTemplates | sector_cext.c:523-529 | the age steps are set and the templates integrated over them, or the run halts exactly when the integration does |
| Compose.SharedTemplates | sector_cext.c:567-568 | without dust the call with iG = -1 leaves the working buffer holding the shared templates interpolated over every cell, or halts exactly when they cannot be prepared |
| Compose.TrimmedAges | sector_cext.c:118-130 | trimming keeps each burst's age step |
| Compose.TrimHistories | sector_cext.c:520 | trim_gal_params with minZ = 0 trims every history, after which its bins fit the maxZ + 1 metallicity flags and its age steps the age flags |
| Compose.RunGalaxies | sector_cext.c:542-592 | once the templates are integrated every galaxy's flux is added to its row, or the run halts exactly when a call of init_templates_working does |
| Compose.ComputeSpectraFull | sector_cext.c:515-599 | compute_spectra_full trims the histories, integrates the templates over the age steps and adds every galaxy's flux to its row of target, or halts exactly when the integration or an init_templates_working call does |
| Composite.Written | sector_cext.c:503-507 | fit_UV_slope writes one to three values per galaxy, exactly nR of them for nR in 1..3 |
| Composite.FitValues | sector_cext.c:503-507 | the values written for one fit start with the slope, then the intercept when nR > 1, then R when nR > 2 |
| Composite.FitBlock | sector_cext.c:498-508 | the fits of n galaxies take Written(nR) values each |
| Composite.FitBlockCell | sector_cext.c:498-508 | value i of galaxy g's fit sits at offset g*Written(nR) + i of the block, and is the fit of the logarithms of the galaxy's first nFit channels against logWaves |
| Composite.FitBlockFrame | sector_cext.c:499-502 | the fits read only the first nFit channels of each row: buffers that agree there give the same block |
| Composite.FillLogs | sector_cext.c:499-500 | logf[iF] = log(pFit[iF]) for the first nFit channels of the row |
| Composite.WriteFit | sector_cext.c:503-507 | one fit's values are written from pTarget on, pTarget stops after them, and nothing else changes |
| Composite.FitGalaxy | sector_cext.c:499-507 | one galaxy's fit values are written from pTarget on, and nothing else changes |
| Composite.FitNext | sector_cext.c:498-508 | one pass of the galaxy loop extends the written block by galaxy g's values |
| Composite.FitUVSlope | sector_cext.c:489-512 | fit_UV_slope writes the fit block of the nGal galaxies from pTarget on and changes nothing else, even when target and fit are one buffer whose read rows end before pTarget |
| Composite.Floored | sector_cext.c:614-618 | nGF entries, all TOL |
| Composite.MagnitudeColumnCell | sector_cext.c:649-653 | the last channel of each row is converted with M_AB and every other channel is kept |
| Composite.MagnitudeColumnAppend | sector_cext.c:649-653 | converting the last channels leaves everything after the nGal rows alone |
| Composite.FloorFluxes | sector_cext.c:615-618 | the fresh output holds nGF entries of TOL |
| Composite.ToMagnitudes | sector_cext.c:623-627 | every entry of the output is converted with M_AB in place |
| Composite.ColumnToMagnitudes | sector_cext.c:649-653 | the last channel of each of the nGal rows is converted with M_AB in place |
| Composite.AssembleOutput | sector_cext.c:621-653 | the output for outType 0 is every flux converted, for outType 1 the fluxes, and otherwise the fluxes with their last channel converted followed by three fit values per galaxy |
| Composite.OutputCell | sector_cext.c:614-653 | entry (g, iF) returned is TOL plus galaxy g's flux in channel iF, converted with M_AB for outType 0 and, for outType other than 0 and 1, in the last channel only; a galaxy without bursts gets TOL |
| Composite.OutputFit | sector_cext.c:643-646 | past the fluxes, for outType other than 0 and 1, galaxy g's three values are the slope, intercept and R of the fit of the logarithms of its first nFlux - 1 output channels against logWaves |
| Composite.UnconvertedChannels | sector_cext.c:646-653 | the conversion leaves the first nFlux - 1 channels of every row, the ones the fit reads, as they are |
| Composite.OutputFitCell | sector_cext.c:644-646 | value i of galaxy g's fit sits at offset nGal*nFlux + 3g + i of the output |
| Composite.CompositeSpectra | sector_cext.c:602-659 | composite_spectra_cext starts every channel at TOL, adds the galaxies' fluxes with compute_spectra_full and assembles the output for outType, or halts exactly when compute_spectra_full does |

## Left out

- Reading the templates and filters: `read_sed_templates`, `init_templates_raw` and the HDF5 and binary file I/O are not modelled. The loaded data are parameters: `MagCalc.Template`, and the `Seds.SedParams` constructor.
- Progress reports, timing, profiling and `printf` are not modelled. The "zero star formation" warning of `trace_merger_tree` is returned as the `warned` flag.
- The OpenMP `parallel` region of `compute_spectra_full` is modelled as one thread that runs the galaxies in order, with one ready buffer and one working buffer. Each galaxy writes only its own row and sets up its own working cells (`Compose.BurstSumOfWorking`), so the order does not change the result. The per-thread copies are not modelled.
- `dust_absorption` and `init_templates_special` (the birth-cloud templates `inBC` and `outBC`) are not part of this model. Dust is an opaque function that keeps the buffer length (`Working.KeepsLength`).
- `linregress`, `log` and `M_AB` (`log10`) are uninterpreted function parameters. Properties of the logarithm itself are not modelled.
- Floating point is not modelled. Doubles and floats are reals, so the cast of results to `float`, single-precision metallicities and star formation rates, and `short` record fields are not modelled. Neither is the fact that TOL = 1e-50 is 0 once stored as a `float` in `galaxy_spectra_cext`.
- Kernel.Interp, Kernel.TrapzTable: require at least two points and strictly increasing abscissae. With one point the C code divides 0 by 0, and it never checks the order.
- Reduction.Reduce, Reduction.GalaxySpectra, Reduction.GalaxyMags: require every record's age index `tSnap - snap` to be below nAgeList, and the progenitor links to be acyclic (a ghost `rank`). The C code reads outside the template buffer, or recurses forever, in those cases.
- Kernel.TrapzFilter: with nWaves = 0 the C code reads `filter[0]` and `flux[0]` outside both buffers before returning 0. The model returns 0 without forming that product.
- Reduction.GalaxySpectra: the C function takes `nWaves` as its own parameter and uses it for the flux and output sizes and as the template stride. The model uses the templates' own wavelength count `|t.waves|`, so a caller that passes a different count is not modelled. The unused `z` parameter is dropped.
- Compose.ComputeSpectraFull: requires minZ = 0. The working buffer is sized by `maxZ - minZ + 1`, but the burst loop indexes it by the absolute bin, and the two agree only when minZ = 0.
- Compose.ComputeSpectraFull: requires each burst's age step to be below nAgeStep, separate history arrays, and 1 + z != 0 for observed-frame spectra.
- Compose.ComputeSpectraFull: in filter mode, requires strictly increasing template wavelengths (as `interp` needs). `shrink_templates_raw` can repeat a wavelength (see Findings), and the C code would then interpolate on a repeated abscissa.
- Working.FilterRef: a skipped refSpectra cell (its age step unused) is 0 here. In the C code it is uninitialised memory that is never read.
- Working.SumBand: requires at least one filter wavelength. Every filter here has one (`Window.Bands`), because `shrink_templates_raw` reads each filter's last wavelength.
- Seds.SedParams.ShrinkTemplatesRaw: requires some age to reach maxAge. The source's age scan has no bound and runs off the array otherwise.
- Seds.SedParams: `ready` and `working` are array fields, replaced by `Compose.AllocateBuffers` (`malloc`). `free` is not modelled.
- Composite.FitUVSlope: for nR outside 1..3 it writes `Composite.Written(nR)` values per galaxy, which is what the code does. It is only called with nR = 3.
- Composite.AssembleOutput: `realloc` is modelled as a fresh array of `(nFlux + 3)*nGal` entries with the fluxes copied in.
- Composite.CompositeSpectra: requires nFlux >= 1 for an outType other than 0 and 1. With nFlux = 0 the C code fits -1 channels and writes the magnitude column before the buffer.
- MergerTree.ExampleLeaves, MergerTree.RootSiblingNotFollowed: state facts about the three-galaxy example catalogue, passed in as parameters equal to it.

## Findings

| source | as written | input that shows it | evidently intended | confidence | as-written member | corrected member |
|---|---|---|---|---|---|---|
| sector_cext.c:243-279 | `wavesIndices` has nWaves entries, but a wavelength that closes one filter run and opens the next is pushed twice, so more than nWaves indices can be written (a heap overflow) | wavelengths 1, 2, 3, 4, 5 with filters (1.5, 2.5) and (3.5, 4.5): the selection is 0, 1, 2, 2, 3, 4, six indices for five entries | a buffer large enough for the selection: 2*nWaves entries always suffice | high, not executed | Window.SelectionOverflow | Window.SelectWaves |
