/** The star formation histories of the flattened-history pipeline
    (sector_cext.c): each galaxy's history is a list of bursts, each with the
    age step it falls in, its metallicity and its star formation rate. Before
    the templates are built the metallicities are clamped into the range the
    templates cover (trim_gal_params), and each history marks which age steps
    and metallicity bins it uses (age_flag, Z_flag). */
module Bursts {
  import opened Binning

  /** struct ssp: one burst. */
  datatype Ssp = Ssp(index: int, metals: real, sfr: real)

  // ---------------------------------------------------------------------------
  // trim_gal_params

  /** The metallicity of a burst after trimming: a metallicity whose bin lies
      below minZ (above maxZ) is replaced by the centre of bin minZ (maxZ). */
  function TrimMetals(m: real, minZ: int, maxZ: int): (t: real)
    ensures minZ <= MetalBin(m) <= maxZ ==> t == m
    ensures MetalBin(m) < minZ ==> t == BinCentre(minZ)
    ensures minZ <= MetalBin(m) && maxZ < MetalBin(m) ==> t == BinCentre(maxZ)
  {
    var bin := MetalBin(m);
    if bin < minZ then BinCentre(minZ) else if bin > maxZ then BinCentre(maxZ) else m
  }

  /** After trimming, the bin of every metallicity lies in [minZ, maxZ]. */
  lemma TrimmedBin(m: real, minZ: int, maxZ: int)
    requires 0 <= minZ <= maxZ
    ensures minZ <= MetalBin(TrimMetals(m, minZ, maxZ)) <= maxZ
  {
    MetalBinOfCentre(minZ);
    MetalBinOfCentre(maxZ);
  }

  /** Trimming twice is trimming once. */
  lemma TrimIdempotent(m: real, minZ: int, maxZ: int)
    requires 0 <= minZ <= maxZ
    ensures TrimMetals(TrimMetals(m, minZ, maxZ), minZ, maxZ) == TrimMetals(m, minZ, maxZ)
  {
    TrimmedBin(m, minZ, maxZ);
  }

  function TrimBurst(b: Ssp, minZ: int, maxZ: int): Ssp
  {
    b.(metals := TrimMetals(b.metals, minZ, maxZ))
  }

  /** A history with every burst trimmed. */
  function Trimmed(bursts: seq<Ssp>, minZ: int, maxZ: int): (r: seq<Ssp>)
    ensures |r| == |bursts|
  {
    seq(|bursts|, i requires 0 <= i < |bursts| => TrimBurst(bursts[i], minZ, maxZ))
  }

  /** Every burst's bin lies in [lo, hi]. */
  predicate BinsWithin(bursts: seq<Ssp>, lo: int, hi: int)
  {
    forall i :: 0 <= i < |bursts| ==> lo <= MetalBin(bursts[i].metals) <= hi
  }

  /** What trimming promises: every bin ends in [minZ, maxZ], and the age steps
      and star formation rates are untouched. */
  lemma TrimmedHistory(bursts: seq<Ssp>, minZ: int, maxZ: int)
    requires 0 <= minZ <= maxZ
    ensures BinsWithin(Trimmed(bursts, minZ, maxZ), minZ, maxZ)
    ensures forall i :: 0 <= i < |bursts| ==>
              Trimmed(bursts, minZ, maxZ)[i].index == bursts[i].index &&
              Trimmed(bursts, minZ, maxZ)[i].sfr == bursts[i].sfr
  {
    forall i | 0 <= i < |bursts|
      ensures minZ <= MetalBin(Trimmed(bursts, minZ, maxZ)[i].metals) <= maxZ
    {
      TrimmedBin(bursts[i].metals, minZ, maxZ);
    }
  }

  /** A history already within range is left as it is. */
  lemma TrimmedWithin(bursts: seq<Ssp>, minZ: int, maxZ: int)
    requires BinsWithin(bursts, minZ, maxZ)
    ensures Trimmed(bursts, minZ, maxZ) == bursts
  {
  }

  /** The inner loop of trim_gal_params: one galaxy's bursts, in place. */
  method TrimBursts(bursts: array<Ssp>, minZ: int, maxZ: int)
    modifies bursts
    ensures bursts[..] == Trimmed(old(bursts[..]), minZ, maxZ)
  {
    ghost var s := bursts[..];
    for iB := 0 to bursts.Length
      invariant bursts[..iB] == Trimmed(s, minZ, maxZ)[..iB]
      invariant bursts[iB..] == s[iB..]
    {
      var metals := MetalBin(bursts[iB].metals);
      if metals < minZ {
        bursts[iB] := bursts[iB].(metals := BinCentre(minZ));
      } else if metals > maxZ {
        bursts[iB] := bursts[iB].(metals := BinCentre(maxZ));
      }
      assert bursts[..iB + 1] == bursts[..iB] + [bursts[iB]];
      assert Trimmed(s, minZ, maxZ)[..iB + 1] == Trimmed(s, minZ, maxZ)[..iB] + [Trimmed(s, minZ, maxZ)[iB]];
    }
    assert bursts[..] == bursts[..bursts.Length];
  }

  /** Each galaxy's bursts are stored apart from every other galaxy's. */
  predicate Separate(histories: seq<array<Ssp>>)
  {
    forall i, j :: 0 <= i < j < |histories| ==> histories[i] != histories[j]
  }

  /** trim_gal_params: every burst of every galaxy trimmed in place. */
  method TrimGalParams(histories: seq<array<Ssp>>, minZ: int, maxZ: int)
    requires Separate(histories)
    modifies set g | 0 <= g < |histories| :: histories[g]
    ensures forall g :: 0 <= g < |histories| ==> histories[g][..] == Trimmed(old(histories[g][..]), minZ, maxZ)
  {
    for iG := 0 to |histories|
      invariant forall g :: 0 <= g < iG ==> histories[g][..] == Trimmed(old(histories[g][..]), minZ, maxZ)
      invariant forall g :: iG <= g < |histories| ==> histories[g][..] == old(histories[g][..])
    {
      TrimBursts(histories[iG], minZ, maxZ);
    }
  }

  // ---------------------------------------------------------------------------
  // age_flag and Z_flag

  /** Some burst has key v. */
  predicate Used(keys: seq<int>, v: int)
  {
    exists b :: 0 <= b < |keys| && keys[b] == v
  }

  /** The age step of every burst. */
  function AgeKeys(bursts: seq<Ssp>): (k: seq<int>)
    ensures |k| == |bursts|
  {
    seq(|bursts|, b requires 0 <= b < |bursts| => bursts[b].index)
  }

  /** The metallicity bin of every burst. */
  function BinKeys(bursts: seq<Ssp>): (k: seq<int>)
    ensures |k| == |bursts|
  {
    seq(|bursts|, b requires 0 <= b < |bursts| => MetalBin(bursts[b].metals))
  }

  predicate KeysWithin(keys: seq<int>, n: nat)
  {
    forall b :: 0 <= b < |keys| ==> 0 <= keys[b] < n
  }

  /** The flag of v: 0 when some burst uses it, 1 otherwise. */
  function Flag(keys: seq<int>, v: int): int
  {
    if Used(keys, v) then 0 else 1
  }

  /** n flags all set to 1, then cleared at the key of every burst, in burst
      order. */
  method MarkUsed(keys: seq<int>, n: nat) returns (flag: array<int>)
    requires KeysWithin(keys, n)
    ensures fresh(flag) && flag.Length == n
    ensures forall v :: 0 <= v < n ==> flag[v] == Flag(keys, v)
  {
    flag := new int[n];
    for v := 0 to n
      invariant forall u :: 0 <= u < v ==> flag[u] == 1
    {
      flag[v] := 1;
    }
    for b := 0 to |keys|
      invariant forall v :: 0 <= v < n ==> flag[v] == Flag(keys[..b], v)
    {
      flag[keys[b]] := 0;
      forall v | 0 <= v < n
        ensures flag[v] == Flag(keys[..b + 1], v)
      {
        assert keys[..b + 1][b] == keys[b];
        if Used(keys[..b], v) {
          var c :| 0 <= c < b && keys[..b][c] == v;
          assert keys[..b + 1][c] == v;
        }
        if Used(keys[..b + 1], v) && v != keys[b] {
          var c :| 0 <= c < b + 1 && keys[..b + 1][c] == v;
          assert keys[..b][c] == v;
        }
      }
    }
    assert keys[..|keys|] == keys;
  }

  /** age_flag: nAgeStep flags, 0 exactly at the age steps some burst falls in. */
  method AgeFlag(bursts: array<Ssp>, nAgeStep: nat) returns (flag: array<int>)
    requires KeysWithin(AgeKeys(bursts[..]), nAgeStep)
    ensures fresh(flag) && flag.Length == nAgeStep
    ensures forall a :: 0 <= a < nAgeStep ==> flag[a] == Flag(AgeKeys(bursts[..]), a)
  {
    flag := MarkUsed(AgeKeys(bursts[..]), nAgeStep);
  }

  /** Z_flag: nMaxZ flags, 0 exactly at the bins some burst's metallicity falls
      in; the bin is used as the index without subtracting minZ. */
  method ZFlag(bursts: array<Ssp>, nMaxZ: nat) returns (flag: array<int>)
    requires KeysWithin(BinKeys(bursts[..]), nMaxZ)
    ensures fresh(flag) && flag.Length == nMaxZ
    ensures forall z :: 0 <= z < nMaxZ ==> flag[z] == Flag(BinKeys(bursts[..]), z)
  {
    flag := MarkUsed(BinKeys(bursts[..]), nMaxZ);
  }

  /** A flag is 0 exactly where some burst uses it: both directions. */
  lemma FlagCleared(keys: seq<int>, b: nat)
    requires b < |keys|
    ensures Flag(keys, keys[b]) == 0
  {
  }

  lemma FlagSet(keys: seq<int>, v: int)
    requires forall b :: 0 <= b < |keys| ==> keys[b] != v
    ensures Flag(keys, v) == 1
  {
  }

  /** With minZ = 0, the bins of a trimmed history fit the maxZ - minZ + 1
      flags Z_flag allocates. */
  lemma TrimmedBinsFitFlags(bursts: seq<Ssp>, maxZ: int)
    requires 0 <= maxZ
    ensures KeysWithin(BinKeys(Trimmed(bursts, 0, maxZ)), maxZ + 1)
  {
    TrimmedHistory(bursts, 0, maxZ);
  }
}
