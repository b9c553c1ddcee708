/** Metallicity binning shared by both synthesis pipelines.
    A metallicity m (a mass fraction such as 0.02) is mapped to the integer bin
    (int)(m*1000 - .5): a C cast, which truncates toward zero rather than
    rounding down. */
module Binning {

  /** The C conversion (int)r for a real r: truncation toward zero. */
  function TruncToInt(r: real): (n: int)
    ensures r >= 0.0 ==> n as real <= r < n as real + 1.0
    ensures r < 0.0 ==> n as real - 1.0 < r <= n as real
  {
    if r >= 0.0 then r.Floor else -((-r).Floor)
  }

  /** (int)(m*1000 - .5), the bin of metallicity m. */
  function MetalBin(m: real): int
  {
    TruncToInt(m * 1000.0 - 0.5)
  }

  /** The centre value (k + 1)/1000 that the pipelines use for bin k. */
  function BinCentre(k: int): real
  {
    (k as real + 1.0) / 1000.0
  }

  /** Clamp into [lo, hi], first against lo and then against hi, in that order. */
  function Clamp(n: int, lo: int, hi: int): (c: int)
    requires lo <= hi
    ensures lo <= c <= hi
    ensures lo <= n <= hi ==> c == n
  {
    if n < lo then lo else if n > hi then hi else n
  }

  /** A value k/1000 with k >= 1 falls in bin k - 1, not k; the value 0 falls in
      bin 0 rather than -1, because the cast truncates toward zero. */
  lemma MetalBinOfThousandth(k: int)
    requires k >= 0
    ensures k >= 1 ==> MetalBin(k as real / 1000.0) == k - 1
    ensures k == 0 ==> MetalBin(0.0) == 0
  {
    var r := k as real / 1000.0 * 1000.0 - 0.5;
    assert r == k as real - 0.5;
  }

  /** Every bin centre maps back to its own bin, for every non-negative bin. */
  lemma MetalBinOfCentre(k: int)
    requires k >= 0
    ensures MetalBin(BinCentre(k)) == k
  {
    assert BinCentre(k) * 1000.0 - 0.5 == k as real + 0.5;
  }
}
