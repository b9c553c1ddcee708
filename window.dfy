/** The wavelength window of shrink_templates_raw (sector_cext.c): with
    filters, only the template wavelengths inside some filter's range, plus the
    neighbour on each side of every run of them, are kept. The selected
    indices are non-decreasing, but an index that closes one run is pushed
    again when it opens the next, so they may repeat, and their number can
    exceed the nWaves entries the source allocates for them. */
module Window {

  /** One filter: its wavelengths and its transmission at each of them
      (one slice of filterWaves / filters, nFilterWaves[iF] long). */
  datatype Band = Band(waves: seq<real>, trans: seq<real>)

  /** Every filter has at least one wavelength and a transmission for each. */
  predicate Bands(bands: seq<Band>)
  {
    forall f :: 0 <= f < |bands| ==> 1 <= |bands[f].waves| == |bands[f].trans|
  }

  /** w lies strictly between the first and last wavelength of filter f. */
  predicate InFilter(w: real, band: Band)
    requires 1 <= |band.waves|
  {
    band.waves[0] < w < band.waves[|band.waves| - 1]
  }

  /** w lies strictly inside some filter. */
  predicate InBand(w: real, bands: seq<Band>)
    requires Bands(bands)
  {
    exists f :: 0 <= f < |bands| && InFilter(w, bands[f])
  }

  /** The inner filter loop: scan the filters in order and stop at the first
      one whose range holds w. */
  method InsideAnyFilter(w: real, bands: seq<Band>) returns (inside: bool)
    requires Bands(bands)
    ensures inside <==> InBand(w, bands)
  {
    for iF := 0 to |bands|
      invariant forall f :: 0 <= f < iF ==> !InFilter(w, bands[f])
    {
      if w > bands[iF].waves[0] && w < bands[iF].waves[|bands[iF].waves| - 1] {
        return true;
      }
    }
    return false;
  }

  /** The indices pushed, and the inFlag state, after the wavelengths 1 .. i-1
      have been scanned. */
  function Select(waves: seq<real>, bands: seq<Band>, i: nat): (s: (seq<int>, bool))
    requires Bands(bands) && i <= |waves|
    decreases i
  {
    if i <= 1 then ([], false)
    else
      var (idx, inFlag) := Select(waves, bands, i - 1);
      var iW := i - 1;
      if InBand(waves[iW], bands) then
        if !inFlag then (idx + [iW - 1, iW], true) else (idx + [iW], true)
      else if inFlag then (idx + [iW], false)
      else (idx, false)
  }

  /** wavesIndices[0 .. nNewWaves): the selected wavelength indices. */
  function Selection(waves: seq<real>, bands: seq<Band>): seq<int>
    requires Bands(bands)
  {
    Select(waves, bands, |waves|).0
  }

  /** What a scan of i wavelengths leaves: indices in [0, i), non-decreasing,
      the last one i - 1 while a run is open, at most two per scanned
      wavelength; inFlag is set exactly when wavelength i - 1 is inside. */
  lemma {:induction false} SelectShape(waves: seq<real>, bands: seq<Band>, i: nat)
    requires Bands(bands) && i <= |waves|
    ensures var (idx, inFlag) := Select(waves, bands, i);
      && (forall k :: 0 <= k < |idx| ==> 0 <= idx[k] < i)
      && (forall k, l :: 0 <= k <= l < |idx| ==> idx[k] <= idx[l])
      && (inFlag <==> 2 <= i && InBand(waves[i - 1], bands))
      && (inFlag ==> 0 < |idx| && idx[|idx| - 1] == i - 1)
      && |idx| <= 2 * i
    decreases i
  {
    if i > 1 {
      SelectShape(waves, bands, i - 1);
    }
  }

  /** Every wavelength from index 1 on that lies inside a filter is selected. */
  lemma {:induction false} SelectCovers(waves: seq<real>, bands: seq<Band>, i: nat, j: nat)
    requires Bands(bands) && i <= |waves|
    requires 1 <= j < i && InBand(waves[j], bands)
    ensures j in Select(waves, bands, i).0
    decreases i
  {
    var idx := Select(waves, bands, i - 1).0;
    if j < i - 1 {
      SelectCovers(waves, bands, i - 1, j);
      assert Select(waves, bands, i).0[..|idx|] == idx;
    } else {
      assert j == i - 1;
    }
  }

  /** Every selected index is inside a filter or next to an index that is. */
  lemma {:induction false} SelectNear(waves: seq<real>, bands: seq<Band>, i: nat, k: nat)
    requires Bands(bands) && i <= |waves|
    requires k < |Select(waves, bands, i).0|
    ensures var j := Select(waves, bands, i).0[k];
      0 <= j < i &&
      ((1 <= j && InBand(waves[j], bands)) || (j + 1 < i && InBand(waves[j + 1], bands))
        || (2 <= j && InBand(waves[j - 1], bands)))
    decreases i
  {
    SelectShape(waves, bands, i);
    SelectShape(waves, bands, i - 1);
    var idx := Select(waves, bands, i - 1).0;
    if k < |idx| {
      SelectNear(waves, bands, i - 1, k);
      assert Select(waves, bands, i).0[k] == idx[k];
    }
  }

  /** The properties of the whole selection. */
  lemma SelectionProperties(waves: seq<real>, bands: seq<Band>)
    requires Bands(bands)
    ensures var sel := Selection(waves, bands);
      && (forall k :: 0 <= k < |sel| ==> 0 <= sel[k] < |waves|)
      && (forall k, l :: 0 <= k <= l < |sel| ==> sel[k] <= sel[l])
      && (forall j :: 1 <= j < |waves| && InBand(waves[j], bands) ==> j in sel)
      && |sel| <= 2 * |waves|
  {
    SelectShape(waves, bands, |waves|);
    forall j | 1 <= j < |waves| && InBand(waves[j], bands)
      ensures j in Selection(waves, bands)
    {
      SelectCovers(waves, bands, |waves|, j);
    }
  }

  /** Two filters with a gap between them: wavelength index 2 closes the first
      run and opens the second, so it is selected twice, and the six indices
      outgrow the five entries allocated for them. */
  lemma SelectionOverflow()
    ensures var waves := [1.0, 2.0, 3.0, 4.0, 5.0];
      var bands := [Band([1.5, 2.5], [1.0, 1.0]), Band([3.5, 4.5], [1.0, 1.0])];
      Bands(bands) && Selection(waves, bands) == [0, 1, 2, 2, 3, 4] && |Selection(waves, bands)| > |waves|
  {
    var waves := [1.0, 2.0, 3.0, 4.0, 5.0];
    var bands := [Band([1.5, 2.5], [1.0, 1.0]), Band([3.5, 4.5], [1.0, 1.0])];
    assert Select(waves, bands, 1) == ([], false);
    assert InFilter(waves[1], bands[0]);
    assert InBand(waves[1], bands);
    assert !InBand(waves[2], bands);
    assert InFilter(waves[3], bands[1]);
    assert InBand(waves[3], bands);
    assert !InBand(waves[4], bands);
    var s2 := Select(waves, bands, 2);
    assert s2.0 == [0, 1] && s2.1;
    var s3 := Select(waves, bands, 3);
    assert s3.0 == [0, 1, 2] && !s3.1;
    var s4 := Select(waves, bands, 4);
    assert s4.0 == [0, 1, 2, 2, 3] && s4.1;
  }

  /** The selection loop of shrink_templates_raw. The source allocates
      nWaves entries for the indices, which SelectionOverflow shows can be too
      few; here the buffer has the 2*nWaves entries SelectionProperties shows
      are always enough. */
  method SelectWaves(waves: seq<real>, bands: seq<Band>) returns (wavesIndices: array<int>, nNewWaves: nat)
    requires Bands(bands)
    ensures wavesIndices.Length == 2 * |waves| && nNewWaves <= 2 * |waves|
    ensures wavesIndices[..nNewWaves] == Selection(waves, bands)
  {
    wavesIndices := new int[2 * |waves|];
    nNewWaves := 0;
    var inFlag := false;
    if |waves| == 0 {
      return;
    }
    for iW := 1 to |waves|
      invariant nNewWaves <= 2 * |waves|
      invariant Select(waves, bands, iW) == (wavesIndices[..nNewWaves], inFlag)
    {
      nNewWaves, inFlag := ScanWave(waves, bands, iW, wavesIndices, nNewWaves, inFlag);
    }
  }

  /** One pass of the wavelength loop: wavelength iW opens a run (pushing
      iW - 1 and iW), continues one (pushing iW) or closes one (pushing iW). */
  method ScanWave(waves: seq<real>, bands: seq<Band>, iW: nat, wavesIndices: array<int>, n: nat, inFlag: bool)
    returns (n': nat, inFlag': bool)
    requires Bands(bands) && 1 <= iW < |waves| && wavesIndices.Length == 2 * |waves|
    requires n <= 2 * |waves| && Select(waves, bands, iW) == (wavesIndices[..n], inFlag)
    modifies wavesIndices
    ensures n' <= 2 * |waves| && Select(waves, bands, iW + 1) == (wavesIndices[..n'], inFlag')
  {
    SelectGrows(waves, bands, iW + 1, |waves|);
    SelectionProperties(waves, bands);
    n', inFlag' := n, inFlag;
    var outFlag := true;
    var inside := InsideAnyFilter(waves[iW], bands);
    if inside {
      outFlag := false;
      if !inFlag' {
        wavesIndices[n'] := iW - 1;
        wavesIndices[n' + 1] := iW;
        assert wavesIndices[..n' + 2] == wavesIndices[..n'] + [iW - 1, iW];
        n' := n' + 2;
        inFlag' := true;
      } else {
        wavesIndices[n'] := iW;
        assert wavesIndices[..n' + 1] == wavesIndices[..n'] + [iW];
        n' := n' + 1;
      }
    }
    if inFlag' && outFlag {
      wavesIndices[n'] := iW;
      assert wavesIndices[..n' + 1] == wavesIndices[..n'] + [iW];
      n' := n' + 1;
      inFlag' := false;
    }
  }

  /** The selection only grows as more wavelengths are scanned. */
  lemma {:induction false} SelectGrows(waves: seq<real>, bands: seq<Band>, i: nat, n: nat)
    requires Bands(bands) && i <= n <= |waves|
    ensures |Select(waves, bands, i).0| <= |Select(waves, bands, n).0|
    decreases n - i
  {
    if i < n {
      SelectGrows(waves, bands, i + 1, n);
    }
  }
}
