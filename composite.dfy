/** The output of the flattened-history pipeline (sector_cext.c): the fluxes
    compute_spectra_full adds to a floor of TOL, converted to AB magnitudes,
    returned as they are, or followed by a block of UV slope fits
    (fit_UV_slope) with only the last channel converted. The natural
    logarithm, the least-squares fit linregress and the conversion M_AB are
    parameters. */
module Composite {
  import opened Flat
  import opened Kernel
  import opened Bursts
  import opened Seds
  import opened Working
  import opened Compose

  /** What linregress returns: the slope, the intercept and the correlation
      coefficient of a straight-line fit of y against x. */
  datatype LinResult = LinResult(slope: real, intercept: real, R: real)

  /** linregress(x, y, n), with n the length of y. */
  type Regression = (seq<real>, seq<real>) -> LinResult

  // ---------------------------------------------------------------------------
  // fit_UV_slope

  /** The number of values fit_UV_slope writes per galaxy: the slope always,
      the intercept when nR > 1 and R when nR > 2; for the nR of 1 to 3 it
      is called with, exactly nR. */
  function Written(nR: int): (w: nat)
    ensures 1 <= w <= 3
    ensures 1 <= nR <= 3 ==> w == nR
  {
    if nR > 2 then 3 else if nR > 1 then 2 else 1
  }

  /** The values written for one fit, in the order slope, intercept, R. */
  function FitValues(fit: LinResult, nR: int): (vs: seq<real>)
    ensures |vs| == Written(nR)
    ensures vs[0] == fit.slope
    ensures nR > 1 ==> vs[1] == fit.intercept
    ensures nR > 2 ==> vs[2] == fit.R
  {
    [fit.slope] + (if nR > 1 then [fit.intercept] else []) + (if nR > 2 then [fit.R] else [])
  }

  /** The logarithm of every entry of row. */
  function Logs(row: seq<real>, log: real -> real): seq<real>
  {
    seq(|row|, i requires 0 <= i < |row| => log(row[i]))
  }

  /** The first nFit channels of each of the first n rows, nFlux wide, lie
      within the first len entries of a buffer. */
  predicate Covers(len: nat, n: nat, nFlux: nat, nFit: nat)
  {
    forall g :: 0 <= g < n ==> Mul(g, nFlux) + nFit <= len
  }

  /** The fit for galaxy g: linregress of the logarithms of the first nFit
      channels of row g of F against logWaves. */
  function GalaxyFit(F: seq<real>, g: nat, nFlux: nat, logWaves: seq<real>, nFit: nat, log: real -> real,
                     regress: Regression): LinResult
    requires Idx(g, nFit, nFlux) <= |F|
  {
    regress(logWaves, Logs(F[Idx(g, 0, nFlux)..Idx(g, nFit, nFlux)], log))
  }

  /** What fit_UV_slope writes for the first n galaxies of F, one galaxy
      after another. */
  function FitBlock(F: seq<real>, n: nat, nFlux: nat, logWaves: seq<real>, nFit: nat, nR: int, log: real -> real,
                    regress: Regression): (b: seq<real>)
    requires Covers(|F|, n, nFlux, nFit)
    ensures |b| == Mul(n, Written(nR))
  {
    if n == 0 then []
    else FitBlock(F, n - 1, nFlux, logWaves, nFit, nR, log, regress) +
         FitValues(GalaxyFit(F, n - 1, nFlux, logWaves, nFit, log, regress), nR)
  }

  /** fit_UV_slope writes Written(nR) values per galaxy, in galaxy order:
      value i of galaxy g sits at Idx(g, i, Written(nR)). */
  lemma {:induction false} FitBlockCell(F: seq<real>, n: nat, nFlux: nat, logWaves: seq<real>, nFit: nat, nR: int,
                                        log: real -> real, regress: Regression, g: nat, i: nat)
    requires Covers(|F|, n, nFlux, nFit) && g < n && i < Written(nR)
    ensures Idx(g, i, Written(nR)) < Mul(n, Written(nR))
    ensures FitBlock(F, n, nFlux, logWaves, nFit, nR, log, regress)[Idx(g, i, Written(nR))]
         == FitValues(GalaxyFit(F, g, nFlux, logWaves, nFit, log, regress), nR)[i]
  {
    IdxBounds(g, i, Written(nR), n);
    if g < n - 1 {
      FitBlockCell(F, n - 1, nFlux, logWaves, nFit, nR, log, regress, g, i);
    }
  }

  /** The fits read the first nFit channels of each row and nothing else:
      buffers that agree there give the same block. */
  lemma {:induction false} FitBlockFrame(F1: seq<real>, F2: seq<real>, n: nat, nFlux: nat, logWaves: seq<real>, nFit: nat,
                                         nR: int, log: real -> real, regress: Regression)
    requires Covers(|F1|, n, nFlux, nFit) && Covers(|F2|, n, nFlux, nFit)
    requires forall g :: 0 <= g < n ==>
      F1[Idx(g, 0, nFlux)..Idx(g, nFit, nFlux)] == F2[Idx(g, 0, nFlux)..Idx(g, nFit, nFlux)]
    ensures FitBlock(F1, n, nFlux, logWaves, nFit, nR, log, regress)
         == FitBlock(F2, n, nFlux, logWaves, nFit, nR, log, regress)
  {
    if n > 0 {
      FitBlockFrame(F1, F2, n - 1, nFlux, logWaves, nFit, nR, log, regress);
    }
  }

  /** The first nFit <= nFlux channels of each of n rows lie inside n rows. */
  lemma RowsCovered(n: nat, nFlux: nat, nFit: nat)
    requires nFit <= nFlux
    ensures Covers(Mul(n, nFlux), n, nFlux, nFit)
  {
    forall g | 0 <= g < n
      ensures Idx(g, nFit, nFlux) <= Mul(n, nFlux)
    {
      IdxRowEnd(g, nFlux, n);
    }
  }

  /** logf[iF] = log(pFit[iF]) for the first logf.Length channels from
      fit[start]. */
  method FillLogs(logf: array<real>, fit: array<real>, start: nat, log: real -> real)
    requires logf != fit && start + logf.Length <= fit.Length
    modifies logf
    ensures logf[..] == Logs(fit[start..start + logf.Length], log)
  {
    for i := 0 to logf.Length
      invariant forall j :: 0 <= j < i ==> logf[j] == log(fit[start + j])
    {
      logf[i] := log(fit[start + i]);
    }
  }

  /** The values of one fit written from target[p] on, as pTarget advances
      over them; next is where pTarget stops. */
  method WriteFit(target: array<real>, p: nat, res: LinResult, nR: int) returns (next: nat)
    requires p + Written(nR) <= target.Length
    modifies target
    ensures next == p + Written(nR)
    ensures target[..] == old(target[..p]) + FitValues(res, nR) + old(target[next..])
  {
    target[p] := res.slope;
    next := p + 1;
    if nR > 1 {
      target[next] := res.intercept;
      next := next + 1;
    }
    if nR > 2 {
      target[next] := res.R;
      next := next + 1;
    }
    assert target[..] == old(target[..p]) + FitValues(res, nR) + old(target[next..]);
  }

  /** cur is T with B written from pos on. */
  ghost predicate BlockAt(cur: seq<real>, T: seq<real>, pos: nat, B: seq<real>)
  {
    |cur| == |T| && pos + |B| <= |T| && cur[..pos] == T[..pos] && cur[pos..pos + |B|] == B && cur[pos + |B|..] == T[pos + |B|..]
  }

  /** Writing vals at p, right after the block, extends it. */
  lemma BlockGrows(cur: seq<real>, next: seq<real>, T: seq<real>, pos: nat, p: nat, B: seq<real>, vals: seq<real>)
    requires BlockAt(cur, T, pos, B) && p == pos + |B| && p + |vals| <= |T|
    requires next == cur[..p] + vals + cur[p + |vals|..]
    ensures BlockAt(next, T, pos, B + vals)
  {
    assert next[..pos] == cur[..pos];
    assert next[pos..p + |vals|] == cur[pos..p] + vals;
  }

  /** Sequences that agree up to pos agree on every slice that ends by
      pos. */
  lemma PrefixSlices<T>(s: seq<T>, t: seq<T>, pos: nat, a: nat, b: nat)
    requires pos <= |s| && pos <= |t| && s[..pos] == t[..pos] && a <= b <= pos
    ensures s[a..b] == t[a..b]
  {
    assert s[a..b] == s[..pos][a..b] && t[a..b] == t[..pos][a..b];
  }

  /** The buffer with the block written, as one sequence. */
  lemma BlockIs(cur: seq<real>, T: seq<real>, pos: nat, B: seq<real>)
    requires BlockAt(cur, T, pos, B)
    ensures cur == T[..pos] + B + T[pos + |B|..]
  {
    assert cur == cur[..pos] + cur[pos..pos + |B|] + cur[pos + |B|..];
  }

  /** One galaxy of fit_UV_slope: the logarithms of the first nFit channels
      of row g into logf, their fit, and its values written from target[p]
      on. F holds what the fit reads of the row. */
  method FitGalaxy(target: array<real>, p: nat, fit: array<real>, ghost F: seq<real>, g: nat, nFlux: nat,
                   logWaves: seq<real>, nFit: nat, nR: int, logf: array<real>, log: real -> real, regress: Regression)
    returns (next: nat)
    requires logf.Length == nFit && logf != fit && logf != target
    requires Idx(g, nFit, nFlux) <= fit.Length && Idx(g, nFit, nFlux) <= |F|
    requires fit[Idx(g, 0, nFlux)..Idx(g, nFit, nFlux)] == F[Idx(g, 0, nFlux)..Idx(g, nFit, nFlux)]
    requires p + Written(nR) <= target.Length
    modifies target, logf
    ensures next == p + Written(nR)
    ensures target[..] == old(target[..p]) + FitValues(GalaxyFit(F, g, nFlux, logWaves, nFit, log, regress), nR)
                          + old(target[next..])
  {
    FillLogs(logf, fit, Idx(g, 0, nFlux), log);
    var res := regress(logWaves, logf[..]);
    next := WriteFit(target, p, res, nR);
  }

  /** The loop of fit_UV_slope from galaxy g to g + 1: the block of the
      first g galaxies written from pos on grows by galaxy g's values. */
  method FitNext(target: array<real>, pos: nat, p: nat, fit: array<real>, ghost T: seq<real>, ghost F: seq<real>,
                 g: nat, nGal: nat, nFlux: nat, logWaves: seq<real>, nFit: nat, nR: int, logf: array<real>,
                 log: real -> real, regress: Regression) returns (next: nat)
    requires logf.Length == nFit && logf != fit && logf != target && g < nGal
    requires Covers(|F|, nGal, nFlux, nFit) && |F| == fit.Length
    requires p == pos + Mul(g, Written(nR)) && pos + Mul(nGal, Written(nR)) <= target.Length
    requires BlockAt(target[..], T, pos, FitBlock(F, g, nFlux, logWaves, nFit, nR, log, regress))
    requires target != fit ==> fit[..] == F
    requires target == fit ==> T == F && Covers(pos, nGal, nFlux, nFit)
    modifies target, logf
    ensures next == pos + Mul(g + 1, Written(nR))
    ensures BlockAt(target[..], T, pos, FitBlock(F, g + 1, nFlux, logWaves, nFit, nR, log, regress))
  {
    MulOrder(g + 1, nGal, Written(nR));
    ghost var B := FitBlock(F, g, nFlux, logWaves, nFit, nR, log, regress);
    ghost var cur := target[..];
    var a, b := Idx(g, 0, nFlux), Idx(g, nFit, nFlux);
    assert fit[a..b] == F[a..b] by {
      if target == fit {
        PrefixSlices(fit[..], F, pos, a, b);
      }
    }
    next := FitGalaxy(target, p, fit, F, g, nFlux, logWaves, nFit, nR, logf, log, regress);
    BlockGrows(cur, target[..], T, pos, p, B, FitValues(GalaxyFit(F, g, nFlux, logWaves, nFit, log, regress), nR));
  }

  /** fit_UV_slope(target + pos, fit, nGal, nFlux, logWaves, nFit, nR):
      target from pos on receives the fit block of the galaxies in fit, and
      nothing else changes. target and fit may be the same buffer when the
      rows the fits read end by pos. */
  method FitUVSlope(target: array<real>, pos: nat, fit: array<real>, nGal: nat, nFlux: nat, logWaves: seq<real>,
                    nFit: nat, nR: int, log: real -> real, regress: Regression)
    requires Covers(fit.Length, nGal, nFlux, nFit)
    requires pos + Mul(nGal, Written(nR)) <= target.Length
    requires target == fit ==> Covers(pos, nGal, nFlux, nFit)
    modifies target
    ensures target[..] == old(target[..pos]) + FitBlock(old(fit[..]), nGal, nFlux, logWaves, nFit, nR, log, regress)
                          + old(target[pos + Mul(nGal, Written(nR))..])
  {
    ghost var F := fit[..];
    ghost var T := target[..];
    var logf := new real[nFit];
    var p := pos;
    for g := 0 to nGal
      invariant p == pos + Mul(g, Written(nR))
      invariant BlockAt(target[..], T, pos, FitBlock(F, g, nFlux, logWaves, nFit, nR, log, regress))
      invariant target != fit ==> fit[..] == F
    {
      p := FitNext(target, pos, p, fit, T, F, g, nGal, nFlux, logWaves, nFit, nR, logf, log, regress);
    }
    BlockIs(target[..], T, pos, FitBlock(F, nGal, nFlux, logWaves, nFit, nR, log, regress));
  }

  // ---------------------------------------------------------------------------
  // composite_spectra_cext

  /** The nGF entries every output starts from. */
  function Floored(n: nat): (s: seq<real>)
    ensures |s| == n && forall i :: 0 <= i < n ==> s[i] == TOL
  {
    seq(n, _ => TOL)
  }

  /** Every entry of s converted with mab. */
  function Magnitudes(s: seq<real>, mab: real -> real): (m: seq<real>)
    ensures |m| == |s|
  {
    seq(|s|, i requires 0 <= i < |s| => mab(s[i]))
  }

  /** Column nFlux - 1 of each of the nGal rows of s converted with mab, the
      other entries as they are. */
  function MagnitudeColumn(s: seq<real>, nGal: nat, nFlux: nat, mab: real -> real): (m: seq<real>)
    requires 0 < nFlux
    ensures |m| == |s|
  {
    seq(|s|, i requires 0 <= i < |s| =>
      if i < Mul(nGal, nFlux) && Split(i, nFlux).1 == nFlux - 1 then mab(s[i]) else s[i])
  }

  /** Entry (g, c) of the converted rows: converted in the last channel, kept
      in the others. */
  lemma MagnitudeColumnCell(s: seq<real>, nGal: nat, nFlux: nat, mab: real -> real, g: nat, c: nat)
    requires Mul(nGal, nFlux) <= |s| && g < nGal && c < nFlux
    ensures Idx(g, c, nFlux) < |s|
    ensures MagnitudeColumn(s, nGal, nFlux, mab)[Idx(g, c, nFlux)] ==
            if c == nFlux - 1 then mab(s[Idx(g, c, nFlux)]) else s[Idx(g, c, nFlux)]
  {
    IdxBounds(g, c, nFlux, nGal);
    SplitIdx(g, c, nFlux);
  }

  /** The conversion of the last channels leaves everything after the nGal
      rows alone. */
  lemma MagnitudeColumnAppend(s: seq<real>, tail: seq<real>, nGal: nat, nFlux: nat, mab: real -> real)
    requires 0 < nFlux && |s| == Mul(nGal, nFlux)
    ensures MagnitudeColumn(s + tail, nGal, nFlux, mab) == MagnitudeColumn(s, nGal, nFlux, mab) + tail
  {
  }

  /** What composite_spectra_cext returns for the fluxes F of nGal galaxies:
      outType 0 converts every entry, outType 1 none; any other outType
      appends the fits of the first nFlux - 1 channels (three values per
      galaxy) and converts the last channel of each galaxy. */
  function Output(F: seq<real>, nGal: nat, nFlux: nat, outType: int, logWaves: seq<real>, mab: real -> real,
                  log: real -> real, regress: Regression): seq<real>
    requires |F| == Mul(nGal, nFlux)
    requires outType != 0 && outType != 1 ==> 0 < nFlux
  {
    if outType == 0 then Magnitudes(F, mab)
    else if outType == 1 then F
    else
      RowsCovered(nGal, nFlux, nFlux - 1);
      MagnitudeColumn(F, nGal, nFlux, mab) + FitBlock(F, nGal, nFlux, logWaves, nFlux - 1, 3, log, regress)
  }

  /** The output's nGF entries, all TOL. */
  method FloorFluxes(n: nat) returns (output: array<real>)
    ensures fresh(output) && output[..] == Floored(n)
  {
    output := new real[n];
    for i := 0 to n
      invariant forall j :: 0 <= j < i ==> output[j] == TOL
    {
      output[i] := TOL;
    }
  }

  /** Every entry of a converted with mab, in place. */
  method ToMagnitudes(a: array<real>, mab: real -> real)
    modifies a
    ensures a[..] == Magnitudes(old(a[..]), mab)
  {
    for i := 0 to a.Length
      invariant forall j :: 0 <= j < a.Length ==> a[j] == if j < i then mab(old(a[j])) else old(a[j])
    {
      a[i] := mab(a[i]);
    }
  }

  /** The last channel of each of the nGal rows of a converted with mab, in
      place, as pOutput steps from row to row. */
  method ColumnToMagnitudes(a: array<real>, nGal: nat, nFlux: nat, mab: real -> real)
    requires 0 < nFlux && Mul(nGal, nFlux) <= a.Length
    modifies a
    ensures a[..] == MagnitudeColumn(old(a[..]), nGal, nFlux, mab)
  {
    ghost var A := a[..];
    for g := 0 to nGal
      invariant forall i :: 0 <= i < a.Length ==>
        a[i] == if i < Mul(g, nFlux) && Split(i, nFlux).1 == nFlux - 1 then mab(A[i]) else A[i]
    {
      IdxRowEnd(g, nFlux, nGal);
      var q := Idx(g, nFlux - 1, nFlux);
      a[q] := mab(a[q]);
      forall c | 0 <= c < nFlux
        ensures Split(Idx(g, c, nFlux), nFlux).1 == c
      {
        SplitIdx(g, c, nFlux);
      }
      forall i | 0 <= i < a.Length
        ensures a[i] == if i < Mul(g + 1, nFlux) && Split(i, nFlux).1 == nFlux - 1 then mab(A[i]) else A[i]
      {
        if Mul(g, nFlux) <= i < Mul(g + 1, nFlux) {
          assert i == Idx(g, i - Mul(g, nFlux), nFlux);
        }
      }
    }
  }

  /** The output after compute_spectra_full has left the fluxes in output:
      the output itself for outType 0 and 1, otherwise the buffer grown by
      three entries per galaxy (realloc keeps the fluxes) with the fits
      written after the fluxes. */
  method AssembleOutput(output: array<real>, nGal: nat, nFlux: nat, outType: int, logWaves: seq<real>,
                        mab: real -> real, log: real -> real, regress: Regression) returns (out: array<real>)
    requires output.Length == Mul(nGal, nFlux)
    requires outType != 0 && outType != 1 ==> 0 < nFlux
    modifies output
    ensures out == output || fresh(out)
    ensures out[..] == Output(old(output[..]), nGal, nFlux, outType, logWaves, mab, log, regress)
  {
    ghost var F := output[..];
    if outType == 0 {
      ToMagnitudes(output, mab);
      return output;
    } else if outType == 1 {
      return output;
    }
    var nR := 3;
    var n := Mul(nGal, nFlux);
    out := new real[n + Mul(nGal, nR)];
    forall i | 0 <= i < n {
      out[i] := output[i];
    }
    ghost var G := out[..];
    assert G[..n] == F;
    RowsCovered(nGal, nFlux, nFlux - 1);
    FitUVSlope(out, n, out, nGal, nFlux, logWaves, nFlux - 1, nR, log, regress);
    forall g | 0 <= g < nGal
      ensures G[Idx(g, 0, nFlux)..Idx(g, nFlux - 1, nFlux)] == F[Idx(g, 0, nFlux)..Idx(g, nFlux - 1, nFlux)]
    {
      PrefixSlices(G, F, n, Idx(g, 0, nFlux), Idx(g, nFlux - 1, nFlux));
    }
    FitBlockFrame(G, F, nGal, nFlux, logWaves, nFlux - 1, nR, log, regress);
    NoTail(G[..n], FitBlock(G, nGal, nFlux, logWaves, nFlux - 1, nR, log, regress), G[n + Mul(nGal, nR)..]);
    ColumnToMagnitudes(out, nGal, nFlux, mab);
    MagnitudeColumnAppend(F, FitBlock(F, nGal, nFlux, logWaves, nFlux - 1, nR, log, regress), nGal, nFlux, mab);
  }

  /** Entry (g, iF) of what composite_spectra_cext returns: TOL plus the flux
      of galaxy g in channel iF, converted with mab for outType 0, and for an
      outType other than 0 and 1 in the last channel only; TOL alone (or its
      conversion) for a galaxy without bursts. */
  lemma OutputCell(F: seq<real>, t: Templates, H: seq<seq<Ssp>>, dust: Option<Absorption>, outType: int,
                   logWaves: seq<real>, mab: real -> real, log: real -> real, regress: Regression, g: nat, iF: nat)
    requires SpectraAdded(F, Floored(Mul(|H|, t.nFlux)), t, H, dust)
    requires outType != 0 && outType != 1 ==> 0 < t.nFlux
    requires g < |H| && iF < t.nFlux
    ensures Idx(g, iF, t.nFlux) < |Output(F, |H|, t.nFlux, outType, logWaves, mab, log, regress)|
    ensures var v := TOL + GalaxyFlux(t, H[g], dust, g, iF);
            Output(F, |H|, t.nFlux, outType, logWaves, mab, log, regress)[Idx(g, iF, t.nFlux)] ==
            if outType == 0 || (outType != 1 && iF == t.nFlux - 1) then mab(v) else v
    ensures H[g] == [] ==> GalaxyFlux(t, H[g], dust, g, iF) == 0.0
  {
    IdxBounds(g, iF, t.nFlux, |H|);
    if outType != 0 && outType != 1 {
      MagnitudeColumnCell(F, |H|, t.nFlux, mab, g, iF);
    }
  }

  /** Past the fluxes, for an outType other than 0 and 1: three values per
      galaxy, in galaxy order, the slope, intercept and R of the fit of the
      logarithms of the galaxy's first nFlux - 1 output channels (which the
      conversion leaves alone) against logWaves. */
  lemma OutputFit(F: seq<real>, nGal: nat, nFlux: nat, outType: int, logWaves: seq<real>, mab: real -> real,
                  log: real -> real, regress: Regression, g: nat)
    requires |F| == Mul(nGal, nFlux) && outType != 0 && outType != 1 && 0 < nFlux && g < nGal
    ensures |Output(F, nGal, nFlux, outType, logWaves, mab, log, regress)| == Mul(nGal, nFlux) + Mul(nGal, 3)
    ensures Idx(g, nFlux - 1, nFlux) < Mul(nGal, nFlux)
    ensures var out := Output(F, nGal, nFlux, outType, logWaves, mab, log, regress);
            var fit := regress(logWaves, Logs(out[Idx(g, 0, nFlux)..Idx(g, nFlux - 1, nFlux)], log));
            var q := Mul(nGal, nFlux) + Idx(g, 0, 3);
            q + 2 < |out| && out[q] == fit.slope && out[q + 1] == fit.intercept && out[q + 2] == fit.R
  {
    IdxBounds(g, nFlux - 1, nFlux, nGal);
    OutputFitCell(F, nGal, nFlux, outType, logWaves, mab, log, regress, g, 0);
    OutputFitCell(F, nGal, nFlux, outType, logWaves, mab, log, regress, g, 1);
    OutputFitCell(F, nGal, nFlux, outType, logWaves, mab, log, regress, g, 2);
    UnconvertedChannels(F, FitBlock(F, nGal, nFlux, logWaves, nFlux - 1, 3, log, regress), nGal, nFlux, mab, g);
  }

  /** The conversion leaves the first nFlux - 1 channels of every row as
      they are. */
  lemma UnconvertedChannels(F: seq<real>, tail: seq<real>, nGal: nat, nFlux: nat, mab: real -> real, g: nat)
    requires |F| == Mul(nGal, nFlux) && 0 < nFlux && g < nGal
    ensures Idx(g, nFlux - 1, nFlux) <= |F|
    ensures (MagnitudeColumn(F, nGal, nFlux, mab) + tail)[Idx(g, 0, nFlux)..Idx(g, nFlux - 1, nFlux)]
         == F[Idx(g, 0, nFlux)..Idx(g, nFlux - 1, nFlux)]
  {
    IdxRowEnd(g, nFlux, nGal);
    forall c | 0 <= c < nFlux - 1
      ensures MagnitudeColumn(F, nGal, nFlux, mab)[Idx(g, c, nFlux)] == F[Idx(g, c, nFlux)]
    {
      MagnitudeColumnCell(F, nGal, nFlux, mab, g, c);
    }
    SameRowStart(MagnitudeColumn(F, nGal, nFlux, mab), F, g, nFlux, nFlux - 1);
    PrefixSlices(MagnitudeColumn(F, nGal, nFlux, mab) + tail, MagnitudeColumn(F, nGal, nFlux, mab), |F|,
                 Idx(g, 0, nFlux), Idx(g, nFlux - 1, nFlux));
  }

  /** Buffers that agree on the first n channels of row g agree on that
      slice. */
  lemma SameRowStart(A: seq<real>, B: seq<real>, g: nat, nFlux: nat, n: nat)
    requires Idx(g, n, nFlux) <= |A| && Idx(g, n, nFlux) <= |B|
    requires forall c :: 0 <= c < n ==> A[Idx(g, c, nFlux)] == B[Idx(g, c, nFlux)]
    ensures A[Idx(g, 0, nFlux)..Idx(g, n, nFlux)] == B[Idx(g, 0, nFlux)..Idx(g, n, nFlux)]
  {
    forall c | 0 <= c < n
      ensures A[Idx(g, 0, nFlux)..Idx(g, n, nFlux)][c] == B[Idx(g, 0, nFlux)..Idx(g, n, nFlux)][c]
    {
      assert Idx(g, 0, nFlux) + c == Idx(g, c, nFlux);
    }
  }

  /** Value i of galaxy g's fit sits at offset Idx(g, i, 3) of the block
      after the fluxes. */
  lemma OutputFitCell(F: seq<real>, nGal: nat, nFlux: nat, outType: int, logWaves: seq<real>, mab: real -> real,
                      log: real -> real, regress: Regression, g: nat, i: nat)
    requires |F| == Mul(nGal, nFlux) && outType != 0 && outType != 1 && 0 < nFlux && g < nGal && i < 3
    ensures Covers(|F|, nGal, nFlux, nFlux - 1)
    ensures |Output(F, nGal, nFlux, outType, logWaves, mab, log, regress)| == Mul(nGal, nFlux) + Mul(nGal, 3)
    ensures Mul(nGal, nFlux) + Idx(g, i, 3) < |Output(F, nGal, nFlux, outType, logWaves, mab, log, regress)|
    ensures Output(F, nGal, nFlux, outType, logWaves, mab, log, regress)[Mul(nGal, nFlux) + Idx(g, i, 3)]
         == FitValues(GalaxyFit(F, g, nFlux, logWaves, nFlux - 1, log, regress), 3)[i]
  {
    RowsCovered(nGal, nFlux, nFlux - 1);
    var block := FitBlock(F, nGal, nFlux, logWaves, nFlux - 1, 3, log, regress);
    FitBlockCell(F, nGal, nFlux, logWaves, nFlux - 1, 3, log, regress, g, i);
    Appended(MagnitudeColumn(F, nGal, nFlux, mab), block, Idx(g, i, 3));
  }

  /** Nothing appended leaves a + b as it is. */
  lemma NoTail<T>(a: seq<T>, b: seq<T>, c: seq<T>)
    requires |c| == 0
    ensures a + b + c == a + b
  {
  }

  /** Entry |a| + k of a + b is entry k of b. */
  lemma Appended<T>(a: seq<T>, b: seq<T>, k: nat)
    requires k < |b|
    ensures |a + b| == |a| + |b| && (a + b)[|a| + k] == b[k]
  {
  }

  /** composite_spectra_cext(spectra, galParams, dustParams, outType): every
      galaxy's channels start at TOL, compute_spectra_full adds its fluxes
      (F), and the output is assembled from them for outType; the run stops
      when compute_spectra_full does. */
  method CompositeSpectra(sp: SedParams, histories: seq<array<Ssp>>, ageStep: seq<real>, dust: Option<Absorption>,
                          outType: int, mab: real -> real, log: real -> real, regress: Regression)
    returns (r: Result<array<real>>, ghost H: seq<seq<Ssp>>, ghost t: Templates, ghost F: seq<real>)
    requires sp.Valid() && 2 <= sp.nAge && StrictlyIncreasing(sp.age[..sp.nAge])
    requires sp.minZ == 0 <= sp.maxZ && Grid(sp.Z)
    requires sp.bands.None? ==> sp.nFlux <= |sp.waves| && (sp.nObs > 0 ==> 1.0 + sp.z != 0.0)
    requires sp.bands.Some? ==> Grid(sp.waves)
    requires dust.Some? ==> KeepsLength(dust.value)
    requires Separate(histories) && AgesWithin(histories, |ageStep|)
    requires outType != 0 && outType != 1 ==> 0 < sp.nFlux
    modifies sp, set g | 0 <= g < |histories| :: histories[g]
    ensures SetupOf(sp) == old(SetupOf(sp)) && sp.ageStep == ageStep && t == Snapshot(sp)
    ensures |H| == |histories| && forall g :: 0 <= g < |histories| ==> H[g] == Trimmed(old(histories[g][..]), 0, sp.maxZ)
    ensures r.Err? <==> IntegrationFails(sp, ageStep) || GalaxiesFail(t, H, dust)
    ensures r.Ok? ==>
      fresh(r.value) && SpectraAdded(F, Floored(Mul(|H|, t.nFlux)), t, H, dust) &&
      r.value[..] == Output(F, |H|, t.nFlux, outType, sp.logWaves, mab, log, regress)
  {
    var output := FloorFluxes(Mul(|histories|, sp.nFlux));
    var run;
    run, H, t := ComputeSpectraFull(output, sp, histories, ageStep, dust);
    F := output[..];
    if run.Err? {
      return Err(run.error), H, t, F;
    }
    var out := AssembleOutput(output, |histories|, sp.nFlux, outType, sp.logWaves, mab, log, regress);
    r := Ok(out);
  }
}
