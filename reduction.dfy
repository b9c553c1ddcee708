/** The per-galaxy reduction of the magnitude calculator (compute_spectrum and
    the loops of galaxy_spectra_cext and galaxy_mags_cext): a galaxy's merger
    tree is flattened into star-forming records, and each output channel is a
    floor TOL plus the sum, over the records, of the record's star formation
    rate times the template cell of its metallicity bin and of its age index
    tSnap - snap. */
module Reduction {
  import opened Flat
  import opened Kernel
  import opened MergerTree
  import opened MagCalc
  import opened Photometry

  // ---------------------------------------------------------------------------
  // The sum over a galaxy's history.

  /** The age index of a record at target snapshot tSnap: how many snapshots
      before tSnap it formed its stars, the bucket of ageList it falls in. */
  function AgeIndex(n: Node, tSnap: int): int
  {
    tSnap - n.snap
  }

  /** A record reads a template row that exists: its bin is below nZ and its
      age index tSnap - snap lies in [0, nA). */
  predicate Fits(n: Node, tSnap: int, nZ: nat, nA: nat)
  {
    0 <= n.metals < nZ && 0 <= AgeIndex(n, tSnap) < nA
  }

  predicate AllFit(nodes: seq<Node>, tSnap: int, nZ: nat, nA: nat)
  {
    forall i :: 0 <= i < |nodes| ==> Fits(nodes[i], tSnap, nZ, nA)
  }

  /** Offset of the first channel of the row record n reads in a (bin, age,
      channel) buffer: (metals*nA + tSnap - snap)*nCh. */
  function RowStart(n: Node, tSnap: int, nA: nat, nCh: nat): nat
    requires 0 <= n.metals && 0 <= AgeIndex(n, tSnap)
  {
    Idx3(n.metals, AgeIndex(n, tSnap), 0, nA, nCh)
  }

  /** Record n's contribution to channel k: its star formation rate times the
      template cell it reads. */
  function Contribution(n: Node, table: seq<real>, tSnap: int, nZ: nat, nA: nat, nCh: nat, k: nat): real
    requires Fits(n, tSnap, nZ, nA) && |table| == Size3(nZ, nA, nCh) && k < nCh
  {
    Idx3Bounds(n.metals, AgeIndex(n, tSnap), k, nZ, nA, nCh);
    n.sfr * table[RowStart(n, tSnap, nA, nCh) + k]
  }

  /** Channel k summed over the records, in record order. */
  function History(nodes: seq<Node>, table: seq<real>, tSnap: int, nZ: nat, nA: nat, nCh: nat, k: nat): real
    requires AllFit(nodes, tSnap, nZ, nA) && |table| == Size3(nZ, nA, nCh) && k < nCh
    decreases |nodes|
  {
    if |nodes| == 0 then 0.0
    else
      History(nodes[..|nodes| - 1], table, tSnap, nZ, nA, nCh, k)
        + Contribution(nodes[|nodes| - 1], table, tSnap, nZ, nA, nCh, k)
  }

  /** The sum over two runs of records is the sum of their sums: the order in
      which records are added does not matter. */
  lemma {:induction false} HistoryAppend(u: seq<Node>, v: seq<Node>, table: seq<real>, tSnap: int,
                                         nZ: nat, nA: nat, nCh: nat, k: nat)
    requires AllFit(u, tSnap, nZ, nA) && AllFit(v, tSnap, nZ, nA) && |table| == Size3(nZ, nA, nCh) && k < nCh
    ensures AllFit(u + v, tSnap, nZ, nA)
    ensures History(u + v, table, tSnap, nZ, nA, nCh, k)
         == History(u, table, tSnap, nZ, nA, nCh, k) + History(v, table, tSnap, nZ, nA, nCh, k)
    decreases |v|
  {
    if |v| == 0 {
      assert u + v == u;
    } else {
      var v0 := v[..|v| - 1];
      assert (u + v)[..|u + v| - 1] == u + v0;
      HistoryAppend(u, v0, table, tSnap, nZ, nA, nCh, k);
    }
  }

  /** Adding record j to the sum of the records before it. */
  lemma HistoryStep(nodes: seq<Node>, j: nat, table: seq<real>, tSnap: int, nZ: nat, nA: nat, nCh: nat, k: nat)
    requires AllFit(nodes, tSnap, nZ, nA) && j < |nodes| && |table| == Size3(nZ, nA, nCh) && k < nCh
    ensures AllFit(nodes[..j], tSnap, nZ, nA) && AllFit(nodes[..j + 1], tSnap, nZ, nA)
    ensures RowStart(nodes[j], tSnap, nA, nCh) + k < |table|
    ensures History(nodes[..j + 1], table, tSnap, nZ, nA, nCh, k)
         == History(nodes[..j], table, tSnap, nZ, nA, nCh, k) + nodes[j].sfr * table[RowStart(nodes[j], tSnap, nA, nCh) + k]
  {
    assert nodes[..j + 1][..j] == nodes[..j];
    Idx3Bounds(nodes[j].metals, AgeIndex(nodes[j], tSnap), k, nZ, nA, nCh);
  }

  /** With non-negative templates and star-forming records, every channel's sum
      is non-negative, so every output flux is at least TOL. */
  lemma {:induction false} HistoryNonNegative(nodes: seq<Node>, table: seq<real>, tSnap: int, nZ: nat, nA: nat, nCh: nat, k: nat)
    requires AllFit(nodes, tSnap, nZ, nA) && |table| == Size3(nZ, nA, nCh) && k < nCh
    requires forall i :: 0 <= i < |nodes| ==> nodes[i].sfr > 0.0
    requires forall q :: 0 <= q < |table| ==> table[q] >= 0.0
    ensures History(nodes, table, tSnap, nZ, nA, nCh, k) >= 0.0
    decreases |nodes|
  {
    if |nodes| > 0 {
      var n := nodes[|nodes| - 1];
      HistoryNonNegative(nodes[..|nodes| - 1], table, tSnap, nZ, nA, nCh, k);
      Idx3Bounds(n.metals, AgeIndex(n, tSnap), k, nZ, nA, nCh);
      assert table[RowStart(n, tSnap, nA, nCh) + k] >= 0.0;
    }
  }

  // ---------------------------------------------------------------------------
  // The accumulation loops.

  /** flux[k] += sfr*row[k] for every channel: the inner loop of
      compute_spectrum and of both galaxy loops, row being the template row the
      record reads. */
  method AddRow(flux: array<real>, sfr: real, row: seq<real>)
    requires |row| == flux.Length
    modifies flux
    ensures forall k :: 0 <= k < flux.Length ==> flux[k] == old(flux[k]) + sfr * row[k]
  {
    for k := 0 to flux.Length
      invariant forall i :: 0 <= i < k ==> flux[i] == old(flux[i]) + sfr * row[i]
      invariant forall i :: k <= i < flux.Length ==> flux[i] == old(flux[i])
    {
      flux[k] := flux[k] + sfr * row[k];
    }
  }

  /** One step of the record loop: record j = n of nodes adds its row, times
      its star formation rate, to the sums over the records before it. */
  method AddRecord(flux: array<real>, ghost base: real, ghost nodes: seq<Node>, j: nat, n: Node,
                   table: seq<real>, tSnap: int, nZ: nat, nA: nat)
    requires AllFit(nodes, tSnap, nZ, nA) && j < |nodes| && n == nodes[j] && |table| == Size3(nZ, nA, flux.Length)
    requires forall k :: 0 <= k < flux.Length ==> flux[k] == base + History(nodes[..j], table, tSnap, nZ, nA, flux.Length, k)
    modifies flux
    ensures forall k :: 0 <= k < flux.Length ==> flux[k] == base + History(nodes[..j + 1], table, tSnap, nZ, nA, flux.Length, k)
  {
    var nCh := flux.Length;
    var p := RowStart(n, tSnap, nA, nCh);
    Idx3RowEnd(n.metals, AgeIndex(n, tSnap), nZ, nA, nCh);
    AddRow(flux, n.sfr, table[p..p + nCh]);
    forall k | 0 <= k < nCh
      ensures flux[k] == base + History(nodes[..j + 1], table, tSnap, nZ, nA, nCh, k)
    {
      HistoryStep(nodes, j, table, tSnap, nZ, nA, nCh, k);
    }
  }

  /** Every channel set to base, then every record of branch[..nProg] added in
      turn, reading its row of the (bin, age, channel) buffer table. */
  method AccumulateHistory(flux: array<real>, base: real, branch: array<Node>, nProg: nat,
                           table: seq<real>, tSnap: int, nZ: nat, nA: nat)
    requires nProg <= branch.Length && AllFit(branch[..nProg], tSnap, nZ, nA)
    requires |table| == Size3(nZ, nA, flux.Length)
    modifies flux
    ensures forall k :: 0 <= k < flux.Length ==>
              flux[k] == base + History(branch[..nProg], table, tSnap, nZ, nA, flux.Length, k)
  {
    var nCh := flux.Length;
    for k := 0 to nCh
      invariant forall i :: 0 <= i < k ==> flux[i] == base
    {
      flux[k] := base;
    }
    ghost var nodes := branch[..nProg];
    for j := 0 to nProg
      invariant forall k :: 0 <= k < nCh ==> flux[k] == base + History(nodes[..j], table, tSnap, nZ, nA, nCh, k)
    {
      AddRecord(flux, base, nodes, j, branch[j], table, tSnap, nZ, nA);
    }
    assert nodes[..nProg] == nodes;
  }

  /** The rows of a two-dimensional template table laid end to end. */
  function Flatten(data: seq<seq<real>>, nW: nat): (s: seq<real>)
    requires forall r :: 0 <= r < |data| ==> |data[r]| == nW
    ensures |s| == Mul(|data|, nW)
  {
    if |data| == 0 then [] else Flatten(data[..|data| - 1], nW) + data[|data| - 1]
  }

  /** Cell k of row r lands at offset r*nW + k. */
  lemma {:induction false} FlattenCell(data: seq<seq<real>>, nW: nat, r: nat, k: nat)
    requires forall i :: 0 <= i < |data| ==> |data[i]| == nW
    requires r < |data| && k < nW
    ensures Idx(r, k, nW) < Mul(|data|, nW)
    ensures Flatten(data, nW)[Idx(r, k, nW)] == data[r][k]
    decreases |data|
  {
    IdxBounds(r, k, nW, |data|);
    if r < |data| - 1 {
      FlattenCell(data[..|data| - 1], nW, r, k);
    }
  }

  /** compute_spectrum: spectrum zeroed, then every record of branch[..nProg]
      adds sfr times row metals*nAge + cSnap - snap of the template table. */
  method ComputeSpectrum(spectrum: array<real>, cSnap: int, branch: array<Node>, nProg: nat,
                         data: seq<seq<real>>, nZ: nat, nAge: nat)
    requires nProg <= branch.Length && AllFit(branch[..nProg], cSnap, nZ, nAge)
    requires |data| == Mul(nZ, nAge) && forall r :: 0 <= r < |data| ==> |data[r]| == spectrum.Length
    modifies spectrum
    ensures forall k :: 0 <= k < spectrum.Length ==>
              spectrum[k] == History(branch[..nProg], Flatten(data, spectrum.Length), cSnap, nZ, nAge, spectrum.Length, k)
  {
    var nW := spectrum.Length;
    ghost var table := Flatten(data, nW);
    for k := 0 to nW
      invariant forall i :: 0 <= i < k ==> spectrum[i] == 0.0
    {
      spectrum[k] := 0.0;
    }
    ghost var nodes := branch[..nProg];
    for j := 0 to nProg
      invariant forall k :: 0 <= k < nW ==> spectrum[k] == History(nodes[..j], table, cSnap, nZ, nAge, nW, k)
    {
      AddDataRecord(spectrum, nodes, j, branch[j], data, cSnap, nZ, nAge);
    }
    assert nodes[..nProg] == nodes;
  }

  /** One step of compute_spectrum's record loop: record j = n adds row
      metals*nAge + cSnap - snap of data, times its star formation rate. */
  method AddDataRecord(spectrum: array<real>, ghost nodes: seq<Node>, j: nat, n: Node,
                       data: seq<seq<real>>, cSnap: int, nZ: nat, nAge: nat)
    requires AllFit(nodes, cSnap, nZ, nAge) && j < |nodes| && n == nodes[j]
    requires |data| == Mul(nZ, nAge) && forall r :: 0 <= r < |data| ==> |data[r]| == spectrum.Length
    requires forall k :: 0 <= k < spectrum.Length ==>
               spectrum[k] == History(nodes[..j], Flatten(data, spectrum.Length), cSnap, nZ, nAge, spectrum.Length, k)
    modifies spectrum
    ensures forall k :: 0 <= k < spectrum.Length ==>
              spectrum[k] == History(nodes[..j + 1], Flatten(data, spectrum.Length), cSnap, nZ, nAge, spectrum.Length, k)
  {
    var nW := spectrum.Length;
    var r := Idx(n.metals, AgeIndex(n, cSnap), nAge);
    IdxBounds(n.metals, AgeIndex(n, cSnap), nAge, nZ);
    AddRow(spectrum, n.sfr, data[r]);
    forall k | 0 <= k < nW
      ensures spectrum[k] == History(nodes[..j + 1], Flatten(data, nW), cSnap, nZ, nAge, nW, k)
    {
      FlattenCell(data, nW, r, k);
      HistoryStep(nodes, j, Flatten(data, nW), cSnap, nZ, nAge, nW, k);
    }
  }

  // ---------------------------------------------------------------------------
  // The galaxy loop.

  /** Every record of a tree reads an age index below nA. */
  predicate AgesWithin(nodes: seq<Node>, tSnap: int, nA: nat)
  {
    forall i :: 0 <= i < |nodes| ==> AgeIndex(nodes[i], tSnap) < nA
  }

  /** The records of a tree rooted at tSnap read rows of the 40-bin templates,
      provided their age indices stay below nA. */
  lemma TreeFits(c: Catalogue, rank: seq<seq<nat>>, tSnap: int, g: int, nA: nat)
    requires Ranked(c, rank) && Exists(c, tSnap, g) && AgesWithin(Tree(c, rank, tSnap, g), tSnap, nA)
    ensures AllFit(Tree(c, rank, tSnap, g), tSnap, NUM_Z, nA)
  {
    TreeUsable(c, rank, tSnap, g);
  }

  /** What the galaxy loop needs of its input: every index names a galaxy at
      tSnap, and its tree's records read age indices below nA. */
  ghost predicate Reducible(c: Catalogue, rank: seq<seq<nat>>, tSnap: int, indices: seq<int>, nA: nat)
  {
    && Ranked(c, rank)
    && forall i :: 0 <= i < |indices| ==>
         Exists(c, tSnap, indices[i]) && AgesWithin(Tree(c, rank, tSnap, indices[i]), tSnap, nA)
  }

  /** Every tree fits in the MAX_NODE record buffer. */
  ghost predicate TreesFit(c: Catalogue, rank: seq<seq<nat>>, tSnap: int, indices: seq<int>)
    requires Ranked(c, rank) && forall i :: 0 <= i < |indices| ==> Exists(c, tSnap, indices[i])
  {
    forall i :: 0 <= i < |indices| ==> |Tree(c, rank, tSnap, indices[i])| <= MAX_NODE
  }

  /** Channel k of the galaxy rooted at (tSnap, g): TOL plus its history. */
  ghost function GalaxyFlux(c: Catalogue, rank: seq<seq<nat>>, tSnap: int, g: int,
                            table: seq<real>, nA: nat, nCh: nat, k: nat): real
    requires Ranked(c, rank) && Exists(c, tSnap, g) && AgesWithin(Tree(c, rank, tSnap, g), tSnap, nA)
    requires |table| == Size3(NUM_Z, nA, nCh) && k < nCh
  {
    TreeFits(c, rank, tSnap, g, nA);
    TOL + History(Tree(c, rank, tSnap, g), table, tSnap, NUM_Z, nA, nCh, k)
  }

  /** Offset q = Idx(i, k, nCh) of the output: channel k of galaxy i, converted. */
  ghost function OutputAt(c: Catalogue, rank: seq<seq<nat>>, tSnap: int, indices: seq<int>,
                          table: seq<real>, nA: nat, nCh: nat, convert: real -> real, q: nat): real
    requires Reducible(c, rank, tSnap, indices, nA) && |table| == Size3(NUM_Z, nA, nCh)
  {
    if nCh == 0 then 0.0
    else
      var (i, k) := Split(q, nCh);
      if i < |indices| then convert(GalaxyFlux(c, rank, tSnap, indices[i], table, nA, nCh, k)) else 0.0
  }

  /** The whole output, nGal rows of nCh channels. */
  ghost function Output(c: Catalogue, rank: seq<seq<nat>>, tSnap: int, indices: seq<int>,
                        table: seq<real>, nA: nat, nCh: nat, convert: real -> real): (s: seq<real>)
    requires Reducible(c, rank, tSnap, indices, nA) && |table| == Size3(NUM_Z, nA, nCh)
    ensures |s| == Mul(|indices|, nCh)
  {
    seq(Mul(|indices|, nCh), q requires 0 <= q < Mul(|indices|, nCh) =>
      OutputAt(c, rank, tSnap, indices, table, nA, nCh, convert, q))
  }

  /** Channel k of galaxy i of the output is the converted TOL + history of
      the tree rooted at indices[i]. */
  lemma OutputCell(c: Catalogue, rank: seq<seq<nat>>, tSnap: int, indices: seq<int>,
                   table: seq<real>, nA: nat, nCh: nat, convert: real -> real, i: nat, k: nat)
    requires Reducible(c, rank, tSnap, indices, nA) && |table| == Size3(NUM_Z, nA, nCh)
    requires i < |indices| && k < nCh
    ensures Idx(i, k, nCh) < Mul(|indices|, nCh)
    ensures Output(c, rank, tSnap, indices, table, nA, nCh, convert)[Idx(i, k, nCh)]
         == convert(GalaxyFlux(c, rank, tSnap, indices[i], table, nA, nCh, k))
  {
    IdxBounds(i, k, nCh, |indices|);
    SplitIdx(i, k, nCh);
  }

  /** A galaxy whose tree holds no star-forming record gets TOL in every
      channel. */
  lemma EmptyHistory(c: Catalogue, rank: seq<seq<nat>>, tSnap: int, g: int, table: seq<real>, nA: nat, nCh: nat, k: nat)
    requires Ranked(c, rank) && Exists(c, tSnap, g) && AgesWithin(Tree(c, rank, tSnap, g), tSnap, nA)
    requires |table| == Size3(NUM_Z, nA, nCh) && k < nCh
    requires Tree(c, rank, tSnap, g) == []
    ensures GalaxyFlux(c, rank, tSnap, g, table, nA, nCh, k) == TOL
  {
  }

  /** With non-negative templates every channel of every galaxy is at least
      TOL. */
  lemma GalaxyFluxFloor(c: Catalogue, rank: seq<seq<nat>>, tSnap: int, g: int, table: seq<real>, nA: nat, nCh: nat, k: nat)
    requires Ranked(c, rank) && Exists(c, tSnap, g) && AgesWithin(Tree(c, rank, tSnap, g), tSnap, nA)
    requires |table| == Size3(NUM_Z, nA, nCh) && k < nCh
    requires forall q :: 0 <= q < |table| ==> table[q] >= 0.0
    ensures GalaxyFlux(c, rank, tSnap, g, table, nA, nCh, k) >= TOL
  {
    var nodes := Tree(c, rank, tSnap, g);
    TreeFits(c, rank, tSnap, g, nA);
    TreeUsable(c, rank, tSnap, g);
    HistoryNonNegative(nodes, table, tSnap, NUM_Z, nA, nCh, k);
  }

  /** Channel k of galaxy i, converted, written at its offset q = Idx(i, k, nCh)
      after the cells before it; spec is the whole output. */
  method StoreChannel(c: Catalogue, ghost rank: seq<seq<nat>>, tSnap: int, indices: seq<int>, i: nat, k: nat,
                      table: seq<real>, nA: nat, nCh: nat, convert: real -> real, v: real,
                      output: array<real>, q: nat, ghost spec: seq<real>)
    requires Reducible(c, rank, tSnap, indices, nA) && i < |indices| && k < nCh
    requires |table| == Size3(NUM_Z, nA, nCh) && v == GalaxyFlux(c, rank, tSnap, indices[i], table, nA, nCh, k)
    requires spec == Output(c, rank, tSnap, indices, table, nA, nCh, convert)
    requires q == Idx(i, k, nCh) < output.Length == |spec| && output[..q] == spec[..q]
    modifies output
    ensures output[..q + 1] == spec[..q + 1]
  {
    OutputCell(c, rank, tSnap, indices, table, nA, nCh, convert, i, k);
    output[q] := convert(v);
    assert output[..q + 1] == output[..q] + [output[q]];
    assert spec[..q + 1] == spec[..q] + [spec[q]];
  }

  /** A record's contribution is its star formation rate times cell (metals,
      age index, k) of the table. */
  lemma ContributionCell(n: Node, table: seq<real>, tSnap: int, nZ: nat, nA: nat, nCh: nat, k: nat)
    requires Fits(n, tSnap, nZ, nA) && |table| == Size3(nZ, nA, nCh) && k < nCh
    ensures Idx3(n.metals, AgeIndex(n, tSnap), k, nA, nCh) < |table|
    ensures Contribution(n, table, tSnap, nZ, nA, nCh, k) == n.sfr * table[Idx3(n.metals, AgeIndex(n, tSnap), k, nA, nCh)]
  {
    Idx3Bounds(n.metals, AgeIndex(n, tSnap), k, nZ, nA, nCh);
  }

  /** One galaxy: its tree traced into branch, its channels accumulated in flux
      from TOL, and written converted to output[p..p + nCh). */
  method ReduceGalaxy(c: Catalogue, ghost rank: seq<seq<nat>>, tSnap: int, indices: seq<int>, i: nat,
                      table: seq<real>, nA: nat, convert: real -> real,
                      branch: array<Node>, flux: array<real>, output: array<real>, p: nat, ghost spec: seq<real>)
    returns (r: Result<()>)
    requires Reducible(c, rank, tSnap, indices, nA) && i < |indices|
    requires |table| == Size3(NUM_Z, nA, flux.Length) && branch.Length == MAX_NODE && flux != output
    requires p == Idx(i, 0, flux.Length) && p + flux.Length <= output.Length
    requires spec == Output(c, rank, tSnap, indices, table, nA, flux.Length, convert)
    requires output.Length == |spec| && output[..p] == spec[..p]
    modifies branch, flux, output
    ensures r.Err? <==> |Tree(c, rank, tSnap, indices[i])| > MAX_NODE
    ensures r.Err? ==> r.error == Capacity
    ensures r.Ok? ==> output[..p + flux.Length] == spec[..p + flux.Length]
  {
    var nCh := flux.Length;
    var t, warned := TraceMergerTree(c, rank, tSnap, indices[i], branch);
    if t.Err? {
      return Err(t.error);
    }
    TreeFits(c, rank, tSnap, indices[i], nA);
    AccumulateHistory(flux, TOL, branch, t.value, table, tSnap, NUM_Z, nA);
    for k := 0 to nCh
      invariant output[..p + k] == spec[..p + k]
      invariant forall k' :: 0 <= k' < nCh ==> flux[k'] == GalaxyFlux(c, rank, tSnap, indices[i], table, nA, nCh, k')
    {
      StoreChannel(c, rank, tSnap, indices, i, k, table, nA, nCh, convert, flux[k], output, p + k, spec);
    }
    r := Ok(());
  }

  /** The galaxy loop shared by galaxy_spectra_cext and galaxy_mags_cext:
      every galaxy's channels, converted by convert (the identity for spectra,
      M_AB for magnitudes), row after row. It halts with Capacity at the first
      tree that overflows the record buffer. */
  method Reduce(c: Catalogue, ghost rank: seq<seq<nat>>, tSnap: int, indices: seq<int>,
                table: seq<real>, nA: nat, nCh: nat, convert: real -> real) returns (r: Result<seq<real>>)
    requires Reducible(c, rank, tSnap, indices, nA) && |table| == Size3(NUM_Z, nA, nCh)
    ensures r.Err? <==> !TreesFit(c, rank, tSnap, indices)
    ensures r.Err? ==> r.error == Capacity
    ensures r.Ok? ==> r.value == Output(c, rank, tSnap, indices, table, nA, nCh, convert)
  {
    var flux := new real[nCh];
    var output := new real[Mul(|indices|, nCh)];
    assert flux != output;
    var branch := new Node[MAX_NODE](_ => Node(0, 0, 0.0));
    ghost var spec := Output(c, rank, tSnap, indices, table, nA, nCh, convert);
    var p := 0;
    for i := 0 to |indices|
      invariant p == Idx(i, 0, nCh) <= output.Length
      invariant output[..p] == spec[..p]
      invariant forall i' :: 0 <= i' < i ==> |Tree(c, rank, tSnap, indices[i'])| <= MAX_NODE
    {
      IdxRowEnd(i, nCh, |indices|);
      var g := ReduceGalaxy(c, rank, tSnap, indices, i, table, nA, convert, branch, flux, output, p, spec);
      if g.Err? {
        return Err(g.error);
      }
      p := p + nCh;
    }
    assert output[..] == output[..p];
    r := Ok(output[..]);
  }

  // ---------------------------------------------------------------------------
  // galaxy_spectra_cext and galaxy_mags_cext.

  /** galaxy_spectra_cext: the rest-frame spectra of the galaxies, nGal rows
      of |t.waves| channels, from the templates init_templates_sp builds. */
  method GalaxySpectra(t: Template, ageList: seq<real>, c: Catalogue, ghost rank: seq<seq<nat>>,
                       tSnap: int, indices: seq<int>) returns (r: Result<seq<real>>)
    requires Loaded(t) && Reducible(c, rank, tSnap, indices, |ageList|)
    ensures r.Err? <==> (|t.waves| > 0 && !AgesCovered(t.age, ageList)) || !TreesFit(c, rank, tSnap, indices)
    ensures r.Ok? ==> r.value == Output(c, rank, tSnap, indices, SpTemplates(t, ageList), |ageList|, |t.waves|, x => x)
  {
    var templates := InitTemplatesSp(t, ageList);
    if templates.Err? {
      return Err(templates.error);
    }
    r := Reduce(c, rank, tSnap, indices, templates.value, |ageList|, |t.waves|, x => x);
  }

  /** galaxy_mags_cext: the AB magnitudes of the galaxies through nRest
      rest-frame and nObs observer-frame filters, from the templates
      init_templates_ph builds; mab is the conversion M_AB. */
  method GalaxyMags(t: Template, ageList: seq<real>, z: real, filters: seq<real>, nRest: nat, nObs: nat,
                    absorption: seq<real>, c: Catalogue, ghost rank: seq<seq<nat>>, tSnap: int, indices: seq<int>,
                    mab: real -> real) returns (r: Result<seq<real>>)
    requires Loaded(t) && |absorption| == |t.waves| && |filters| == Mul(nRest + nObs, |t.waves|)
    requires Reducible(c, rank, tSnap, indices, |ageList|)
    ensures r.Err? <==> (|t.waves| > 0 && !AgesCovered(t.age, ageList)) || !TreesFit(c, rank, tSnap, indices)
    ensures r.Ok? ==> r.value == Output(c, rank, tSnap, indices, PhTemplates(t, ageList, z, filters, nRest, nObs, absorption),
                                        |ageList|, nRest + nObs, mab)
  {
    var templates := InitTemplatesPh(t, ageList, z, filters, nRest, nObs, absorption);
    if templates.Err? {
      return Err(templates.error);
    }
    r := Reduce(c, rank, tSnap, indices, templates.value, |ageList|, nRest + nObs, mab);
  }
}
