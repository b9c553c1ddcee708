/** Flattening of a galaxy's merger tree into a list of star-forming
    progenitor records, as the magnitude calculator does before it sums the
    contributions of a galaxy's history.

    The semi-analytic model's output is a set of per-snapshot tables: for
    galaxy g at snapshot s, firstProgenitor[s][g] is the index of its first
    progenitor at snapshot s - 1 and nextProgenitor[s][g] the index of the next
    galaxy at snapshot s that merges into the same descendant; a negative index
    ends a chain. */
module MergerTree {
  import opened Binning
  import opened Kernel

  /** Capacity of the record buffer. */
  const MAX_NODE := 100000
  const MIN_Z := 0
  const MAX_Z := 39

  /** One star-forming progenitor: its snapshot, metallicity bin and star
      formation rate. */
  datatype Node = Node(snap: int, metals: int, sfr: real)

  /** The tables the walk reads, indexed [snapshot][galaxy]. */
  datatype Catalogue = Catalogue(
    firstProgenitor: seq<seq<int>>,
    nextProgenitor: seq<seq<int>>,
    galMetals: seq<seq<real>>,
    galSFR: seq<seq<real>>)

  /** All four tables have the same shape. */
  predicate Shaped(c: Catalogue)
  {
    && |c.nextProgenitor| == |c.firstProgenitor|
    && |c.galMetals| == |c.firstProgenitor|
    && |c.galSFR| == |c.firstProgenitor|
    && forall s :: 0 <= s < |c.firstProgenitor| ==>
         |c.nextProgenitor[s]| == |c.firstProgenitor[s]| &&
         |c.galMetals[s]| == |c.firstProgenitor[s]| &&
         |c.galSFR[s]| == |c.firstProgenitor[s]|
  }

  /** Galaxy g exists at snapshot s. */
  predicate Exists(c: Catalogue, s: int, g: int)
  {
    0 <= s < |c.firstProgenitor| && 0 <= g < |c.firstProgenitor[s]|
  }

  /** A link the walk may follow: a negative index, or an existing galaxy. */
  predicate Link(c: Catalogue, s: int, g: int)
  {
    g < 0 || Exists(c, s, g)
  }

  /** The tables are well formed and acyclic: every non-negative link names an
      existing galaxy (a first progenitor one snapshot earlier, a next
      progenitor in the same snapshot), and a ghost rank strictly decreases
      along every link. */
  ghost predicate Ranked(c: Catalogue, rank: seq<seq<nat>>)
  {
    && Shaped(c)
    && |rank| == |c.firstProgenitor|
    && (forall s :: 0 <= s < |rank| ==> |rank[s]| == |c.firstProgenitor[s]|)
    && (forall s, g :: Exists(c, s, g) && c.firstProgenitor[s][g] >= 0 ==>
          Exists(c, s - 1, c.firstProgenitor[s][g]) &&
          rank[s - 1][c.firstProgenitor[s][g]] < rank[s][g])
    && (forall s, g :: Exists(c, s, g) && c.nextProgenitor[s][g] >= 0 ==>
          Exists(c, s, c.nextProgenitor[s][g]) &&
          rank[s][c.nextProgenitor[s][g]] < rank[s][g])
  }

  /** Termination measure of the walk. */
  ghost function Height(c: Catalogue, rank: seq<seq<nat>>, s: int, g: int): nat
    requires Ranked(c, rank) && Link(c, s, g)
  {
    if g < 0 then 0 else rank[s][g] + 1
  }

  /** The record of galaxy g at snapshot s, if it forms stars. */
  function Emit(c: Catalogue, s: int, g: int): (r: seq<Node>)
    requires Shaped(c) && Exists(c, s, g)
    ensures |r| <= 1
    ensures |r| == 1 <==> c.galSFR[s][g] > 0.0
  {
    if c.galSFR[s][g] > 0.0 then
      [Node(s, Clamp(MetalBin(c.galMetals[s][g]), MIN_Z, MAX_Z), c.galSFR[s][g])]
    else
      []
  }

  /** The records produced by the recursive walk from (s, g): the galaxy's own
      record, then those of its first progenitor's walk one snapshot earlier,
      then those of its next progenitor's walk at the same snapshot. */
  function Progenitors(c: Catalogue, rank: seq<seq<nat>>, s: int, g: int): seq<Node>
    requires Ranked(c, rank) && Link(c, s, g)
    decreases Height(c, rank, s, g)
  {
    if g < 0 then []
    else
      Emit(c, s, g)
        + Progenitors(c, rank, s - 1, c.firstProgenitor[s][g])
        + Progenitors(c, rank, s, c.nextProgenitor[s][g])
  }

  /** The records of a whole tree rooted at (s, g): the root's record, then the
      walk from its first progenitor. The root's next progenitor is a sibling
      in another tree and is not followed. */
  function Tree(c: Catalogue, rank: seq<seq<nat>>, s: int, g: int): seq<Node>
    requires Ranked(c, rank) && Exists(c, s, g)
  {
    Emit(c, s, g) + Progenitors(c, rank, s - 1, c.firstProgenitor[s][g])
  }

  // ---------------------------------------------------------------------------
  // An independent reference: the preorder of the galaxies reached, filtered.

  /** Every galaxy the walk from (s, g) reaches, in preorder, whether or not it
      forms stars. */
  function Reached(c: Catalogue, rank: seq<seq<nat>>, s: int, g: int): seq<(int, int)>
    requires Ranked(c, rank) && Link(c, s, g)
    decreases Height(c, rank, s, g)
  {
    if g < 0 then []
    else
      [(s, g)]
        + Reached(c, rank, s - 1, c.firstProgenitor[s][g])
        + Reached(c, rank, s, c.nextProgenitor[s][g])
  }

  predicate AllExist(c: Catalogue, ids: seq<(int, int)>)
  {
    forall i :: 0 <= i < |ids| ==> Exists(c, ids[i].0, ids[i].1)
  }

  /** Keep the galaxies that form stars and turn each into its record. */
  function Records(c: Catalogue, ids: seq<(int, int)>): seq<Node>
    requires Shaped(c) && AllExist(c, ids)
  {
    if ids == [] then [] else Emit(c, ids[0].0, ids[0].1) + Records(c, ids[1..])
  }

  lemma {:induction false} RecordsAppend(c: Catalogue, u: seq<(int, int)>, v: seq<(int, int)>)
    requires Shaped(c) && AllExist(c, u) && AllExist(c, v)
    ensures AllExist(c, u + v)
    ensures Records(c, u + v) == Records(c, u) + Records(c, v)
  {
    if u == [] {
      assert u + v == v;
    } else {
      assert (u + v)[0] == u[0];
      assert (u + v)[1..] == u[1..] + v;
      RecordsAppend(c, u[1..], v);
    }
  }

  /** Every galaxy reached exists, at a snapshot no later than the start. */
  lemma {:induction false} ReachedExist(c: Catalogue, rank: seq<seq<nat>>, s: int, g: int)
    requires Ranked(c, rank) && Link(c, s, g)
    ensures AllExist(c, Reached(c, rank, s, g))
    ensures forall i :: 0 <= i < |Reached(c, rank, s, g)| ==> Reached(c, rank, s, g)[i].0 <= s
    decreases Height(c, rank, s, g)
  {
    if g >= 0 {
      ReachedExist(c, rank, s - 1, c.firstProgenitor[s][g]);
      ReachedExist(c, rank, s, c.nextProgenitor[s][g]);
    }
  }

  /** The walk emits exactly the star-forming galaxies of the preorder. */
  lemma {:induction false} ProgenitorsArePreorder(c: Catalogue, rank: seq<seq<nat>>, s: int, g: int)
    requires Ranked(c, rank) && Link(c, s, g)
    ensures AllExist(c, Reached(c, rank, s, g))
    ensures Progenitors(c, rank, s, g) == Records(c, Reached(c, rank, s, g))
    decreases Height(c, rank, s, g)
  {
    if g >= 0 {
      var f, n := c.firstProgenitor[s][g], c.nextProgenitor[s][g];
      ProgenitorsArePreorder(c, rank, s - 1, f);
      ProgenitorsArePreorder(c, rank, s, n);
      RecordsOfNode(c, s, g, Reached(c, rank, s - 1, f), Reached(c, rank, s, n));
    }
  }

  /** One step of the preorder: a galaxy followed by two sub-walks. */
  lemma RecordsOfNode(c: Catalogue, s: int, g: int, u: seq<(int, int)>, v: seq<(int, int)>)
    requires Shaped(c) && Exists(c, s, g) && AllExist(c, u) && AllExist(c, v)
    ensures AllExist(c, [(s, g)] + u + v)
    ensures Records(c, [(s, g)] + u + v) == Emit(c, s, g) + Records(c, u) + Records(c, v)
  {
    RecordsAppend(c, u, v);
    RecordsOfOne(c, s, g);
    RecordsAppend(c, [(s, g)], u + v);
    Assoc([(s, g)], u, v);
  }

  lemma RecordsOfOne(c: Catalogue, s: int, g: int)
    requires Shaped(c) && Exists(c, s, g)
    ensures AllExist(c, [(s, g)]) && Records(c, [(s, g)]) == Emit(c, s, g)
  {
    assert [(s, g)][1..] == [];
  }

  lemma Assoc<T>(a: seq<T>, b: seq<T>, c: seq<T>)
    ensures a + b + c == a + (b + c)
  {
  }

  /** A tree's records are the star-forming galaxies of the root followed by
      the preorder of its first progenitor's walk. */
  lemma TreeIsPreorder(c: Catalogue, rank: seq<seq<nat>>, s: int, g: int)
    requires Ranked(c, rank) && Exists(c, s, g)
    ensures AllExist(c, [(s, g)] + Reached(c, rank, s - 1, c.firstProgenitor[s][g]))
    ensures Tree(c, rank, s, g) == Records(c, [(s, g)] + Reached(c, rank, s - 1, c.firstProgenitor[s][g]))
  {
    var rf := Reached(c, rank, s - 1, c.firstProgenitor[s][g]);
    ProgenitorsArePreorder(c, rank, s - 1, c.firstProgenitor[s][g]);
    RecordsOfOne(c, s, g);
    RecordsAppend(c, [(s, g)], rf);
  }

  // ---------------------------------------------------------------------------
  // What every record satisfies.

  /** A record usable by the reduction at target snapshot tSnap: it forms stars,
      its bin is one of the 40 interpolated bins, and its snapshot is neither
      negative nor later than tSnap. */
  predicate Usable(n: Node, tSnap: int)
  {
    n.sfr > 0.0 && MIN_Z <= n.metals <= MAX_Z && 0 <= n.snap <= tSnap
  }

  predicate AllUsable(nodes: seq<Node>, tSnap: int)
  {
    forall i :: 0 <= i < |nodes| ==> Usable(nodes[i], tSnap)
  }

  lemma {:induction false} ProgenitorsUsable(c: Catalogue, rank: seq<seq<nat>>, s: int, g: int, tSnap: int)
    requires Ranked(c, rank) && Link(c, s, g) && s <= tSnap
    ensures AllUsable(Progenitors(c, rank, s, g), tSnap)
    decreases Height(c, rank, s, g)
  {
    if g >= 0 {
      ProgenitorsUsable(c, rank, s - 1, c.firstProgenitor[s][g], tSnap);
      ProgenitorsUsable(c, rank, s, c.nextProgenitor[s][g], tSnap);
    }
  }

  /** Every record of a tree rooted at snapshot s is usable at s: positive star
      formation, a bin in [0, 39] and a snapshot in [0, s]. */
  lemma TreeUsable(c: Catalogue, rank: seq<seq<nat>>, s: int, g: int)
    requires Ranked(c, rank) && Exists(c, s, g)
    ensures AllUsable(Tree(c, rank, s, g), s)
  {
    ProgenitorsUsable(c, rank, s - 1, c.firstProgenitor[s][g], s);
  }

  // ---------------------------------------------------------------------------
  // The walk over the record buffer.

  /** cur is orig with recs written after index last, ending at index n;
      every cell after n is untouched. */
  ghost predicate Appended(cur: seq<Node>, orig: seq<Node>, last: int, n: int, recs: seq<Node>)
  {
    && |cur| == |orig| && -1 <= last <= n < |cur|
    && cur[..n + 1] == orig[..last + 1] + recs
    && cur[n + 1..] == orig[n + 1..]
  }

  /** Two appends in a row append the concatenation. */
  lemma AppendedTwice(b0: seq<Node>, b1: seq<Node>, b2: seq<Node>, l0: int, l1: int, l2: int, p: seq<Node>, q: seq<Node>)
    requires Appended(b1, b0, l0, l1, p) && Appended(b2, b1, l1, l2, q)
    ensures Appended(b2, b0, l0, l2, p + q)
  {
    assert b2[..l2 + 1] == b1[..l1 + 1] + q;
    assert b1[l2 + 1..] == b1[l1 + 1..][l2 - l1..];
    assert b0[l2 + 1..] == b0[l1 + 1..][l2 - l1..];
  }

  /** trace_progenitors: last is the index of the last record written so far
      (-1 when none). Records of the walk from (s, g) are written after it; the
      run stops with a fatal error as soon as the index would reach MAX_NODE. */
  method TraceProgenitors(c: Catalogue, ghost rank: seq<seq<nat>>, s: int, g: int,
                          branch: array<Node>, last: int) returns (r: Result<int>)
    requires Ranked(c, rank) && Link(c, s, g)
    requires branch.Length == MAX_NODE && -1 <= last < MAX_NODE
    modifies branch
    ensures r.Err? <==> last + |Progenitors(c, rank, s, g)| >= MAX_NODE
    ensures r.Err? ==> r.error == Capacity
    ensures r.Ok? ==> r.value == last + |Progenitors(c, rank, s, g)|
    ensures r.Ok? ==> Appended(branch[..], old(branch[..]), last, r.value, Progenitors(c, rank, s, g))
    decreases Height(c, rank, s, g)
  {
    if g < 0 {
      assert branch[..last + 1] + [] == branch[..last + 1];
      return Ok(last);
    }
    ghost var b0 := branch[..];
    var r0 := RecordGalaxy(c, s, g, branch, last);
    if r0.Err? {
      return r0;
    }
    ghost var b1 := branch[..];
    var r1 := TraceProgenitors(c, rank, s - 1, c.firstProgenitor[s][g], branch, r0.value);
    if r1.Err? {
      return r1;
    }
    ghost var b2 := branch[..];
    r := TraceProgenitors(c, rank, s, c.nextProgenitor[s][g], branch, r1.value);
    if r.Ok? {
      var e, p1, p2 := Emit(c, s, g), Progenitors(c, rank, s - 1, c.firstProgenitor[s][g]),
                       Progenitors(c, rank, s, c.nextProgenitor[s][g]);
      AppendedTwice(b0, b1, b2, last, r0.value, r1.value, e, p1);
      AppendedTwice(b0, b2, branch[..], last, r1.value, r.value, e + p1, p2);
    }
  }

  /** The first step of trace_progenitors: a galaxy that forms stars takes the
      next slot, unless that slot would be MAX_NODE, with its bin clamped to
      [MIN_Z, MAX_Z]. */
  method RecordGalaxy(c: Catalogue, s: int, g: int, branch: array<Node>, last: int) returns (r: Result<int>)
    requires Shaped(c) && Exists(c, s, g)
    requires branch.Length == MAX_NODE && -1 <= last < MAX_NODE
    modifies branch
    ensures r.Err? <==> last + |Emit(c, s, g)| >= MAX_NODE
    ensures r.Err? ==> r.error == Capacity
    ensures r.Ok? ==> r.value == last + |Emit(c, s, g)|
    ensures r.Ok? ==> Appended(branch[..], old(branch[..]), last, r.value, Emit(c, s, g))
  {
    var n := last;
    var sfr := c.galSFR[s][g];
    if sfr > 0.0 {
      n := n + 1;
      if n >= MAX_NODE {
        return Err(Capacity);
      }
      var metals := MetalBin(c.galMetals[s][g]);
      if metals < MIN_Z {
        metals := MIN_Z;
      } else if metals > MAX_Z {
        metals := MAX_Z;
      }
      branch[n] := Node(s, metals, sfr);
    }
    assert branch[..n + 1] == old(branch[..last + 1]) + Emit(c, s, g);
    r := Ok(n);
  }

  /** trace_merger_tree: writes the records of the tree rooted at (s, g) to
      branch[0..count) and returns count; warned reports a tree with no star
      formation at all. */
  method TraceMergerTree(c: Catalogue, ghost rank: seq<seq<nat>>, s: int, g: int,
                         branch: array<Node>) returns (r: Result<int>, warned: bool)
    requires Ranked(c, rank) && Exists(c, s, g)
    requires branch.Length == MAX_NODE
    modifies branch
    ensures r.Err? <==> |Tree(c, rank, s, g)| > MAX_NODE
    ensures r.Err? ==> r.error == Capacity
    ensures r.Ok? ==> r.value == |Tree(c, rank, s, g)| && branch[..r.value] == Tree(c, rank, s, g)
    ensures r.Ok? ==> (warned <==> r.value == 0)
  {
    warned := false;
    var nProg := -1;
    var sfr := c.galSFR[s][g];
    if sfr > 0.0 {
      nProg := nProg + 1;
      var metals := MetalBin(c.galMetals[s][g]);
      if metals < MIN_Z {
        metals := MIN_Z;
      } else if metals > MAX_Z {
        metals := MAX_Z;
      }
      branch[nProg] := Node(s, metals, sfr);
    }
    assert branch[..nProg + 1] == Emit(c, s, g);
    ghost var b0 := branch[..];
    var t := TraceProgenitors(c, rank, s - 1, c.firstProgenitor[s][g], branch, nProg);
    if t.Err? {
      return Err(t.error), false;
    }
    nProg := t.value + 1;
    warned := nProg == 0;
    r := Ok(nProg);
  }

  // ---------------------------------------------------------------------------
  // The root's sibling is not part of its tree.

  /** Two snapshots: galaxy 0 at snapshot 1 descends from galaxy 0 at snapshot
      0, and galaxy 1 at snapshot 1 is galaxy 0's next progenitor. All three
      form stars at metallicity 0.02. */
  function Example(): Catalogue
  {
    Catalogue([[-1], [0, -1]], [[-1], [1, -1]], [[0.02], [0.02, 0.02]], [[1.0], [1.0, 2.0]])
  }

  function ExampleRank(): seq<seq<nat>>
  {
    [[0], [1, 0]]
  }

  lemma ExampleRanked()
    ensures Ranked(Example(), ExampleRank())
  {
    var c, rank := Example(), ExampleRank();
    assert forall s, g :: Exists(c, s, g) ==> (s == 0 && g == 0) || (s == 1 && g == 0) || (s == 1 && g == 1);
  }

  /** Each of the three galaxies of the example emits one record, in metal bin
      19. */
  lemma ExampleEmits()
    ensures Ranked(Example(), ExampleRank())
    ensures Emit(Example(), 1, 0) == [Node(1, 19, 1.0)]
    ensures Emit(Example(), 0, 0) == [Node(0, 19, 1.0)]
    ensures Emit(Example(), 1, 1) == [Node(1, 19, 2.0)]
  {
    ExampleRanked();
    assert MetalBin(0.02) == 19 by {
      MetalBinOfThousandth(20);
      assert 20 as real / 1000.0 == 0.02;
    }
  }

  /** A galaxy with neither a first nor a next progenitor walks to its own
      record only. */
  lemma LeafWalk(c: Catalogue, rank: seq<seq<nat>>, s: int, g: int)
    requires Ranked(c, rank) && Exists(c, s, g) && c.firstProgenitor[s][g] < 0 && c.nextProgenitor[s][g] < 0
    ensures Progenitors(c, rank, s, g) == Emit(c, s, g)
  {
    assert Progenitors(c, rank, s, g) == Emit(c, s, g) + [] + [];
  }

  /** One step of the walk from an existing galaxy whose first and next
      progenitors are f and n. */
  lemma WalkStep(c: Catalogue, rank: seq<seq<nat>>, s: int, g: int, f: int, n: int)
    requires Ranked(c, rank) && Exists(c, s, g) && c.firstProgenitor[s][g] == f && c.nextProgenitor[s][g] == n
    ensures Link(c, s - 1, f) && Link(c, s, n)
    ensures Progenitors(c, rank, s, g) == Emit(c, s, g) + Progenitors(c, rank, s - 1, f) + Progenitors(c, rank, s, n)
    ensures Tree(c, rank, s, g) == Emit(c, s, g) + Progenitors(c, rank, s - 1, f)
  {
  }

  /** The walks from the two leaves hold their own records only. */
  lemma ExampleLeaves(c: Catalogue, rank: seq<seq<nat>>)
    requires c == Example() && rank == ExampleRank()
    ensures Ranked(c, rank)
    ensures Progenitors(c, rank, 0, 0) == [Node(0, 19, 1.0)]
    ensures Progenitors(c, rank, 1, 1) == [Node(1, 19, 2.0)]
  {
    ExampleEmits();
    LeafWalk(c, rank, 0, 0);
    LeafWalk(c, rank, 1, 1);
  }

  /** The tree rooted at galaxy 0 of snapshot 1 holds the root and its first
      progenitor only, while the recursive walk from the same galaxy would
      also take in its next progenitor (star formation 2.0). */
  lemma RootSiblingNotFollowed(c: Catalogue, rank: seq<seq<nat>>)
    requires c == Example() && rank == ExampleRank()
    ensures Ranked(c, rank)
    ensures Tree(c, rank, 1, 0) == [Node(1, 19, 1.0), Node(0, 19, 1.0)]
    ensures Progenitors(c, rank, 1, 0) == [Node(1, 19, 1.0), Node(0, 19, 1.0), Node(1, 19, 2.0)]
  {
    ExampleLeaves(c, rank);
    ExampleEmits();
    WalkStep(c, rank, 1, 0, 0, 1);
    var root, first, next := Node(1, 19, 1.0), Node(0, 19, 1.0), Node(1, 19, 2.0);
    assert Emit(c, 1, 0) == [root];
    Singletons(root, first, next);
  }

  lemma Singletons<T>(x: T, y: T, z: T)
    ensures [x] + [y] == [x, y] && [x] + [y] + [z] == [x, y, z]
  {
  }
}
