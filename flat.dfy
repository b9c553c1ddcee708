/** Row-major offsets into the flat buffers both pipelines allocate with a
    single malloc: cell (r, c) of a buffer whose rows are w wide lives at
    r*w + c, and a three-dimensional cell (a, b, c) at (a*nB + b)*nC + c.
    The product r*w is written as the recursive Mul, so that the loops that
    fill these buffers reason about offsets with linear arithmetic only; Mul
    is the product (MulIsProduct). */
module Flat {

  /** a*w, by repeated addition. */
  function Mul(a: nat, w: nat): nat
  {
    if a == 0 then 0 else Mul(a - 1, w) + w
  }

  lemma {:induction false} MulIsProduct(a: nat, w: nat)
    ensures Mul(a, w) == a * w
  {
    if a > 0 {
      MulIsProduct(a - 1, w);
      assert (a - 1) * w + w == a * w;
    }
  }

  /** Multiplying by a width keeps the order of row numbers. */
  lemma {:induction false} MulMonotone(a: nat, b: nat, w: nat)
    requires a <= b
    ensures Mul(a, w) <= Mul(b, w)
    decreases b - a
  {
    if a < b {
      MulMonotone(a + 1, b, w);
    }
  }

  /** Rows a and b, as offsets, are ordered like a and b; a row before b ends
      no later than b starts. */
  lemma MulOrder(a: nat, b: nat, w: nat)
    ensures a <= b ==> Mul(a, w) <= Mul(b, w)
    ensures a < b ==> Mul(a, w) + w <= Mul(b, w)
  {
    if a <= b {
      MulMonotone(a, b, w);
    }
    if a < b {
      MulMonotone(a + 1, b, w);
    }
  }

  /** Offset of cell (r, c) in rows of width w. */
  function Idx(r: nat, c: nat, w: nat): nat
  {
    Mul(r, w) + c
  }

  /** Every cell of an h-by-w buffer lies inside its h*w cells. */
  lemma IdxBounds(r: nat, c: nat, w: nat, h: nat)
    requires r < h && c < w
    ensures Idx(r, c, w) < Mul(h, w)
  {
    MulOrder(r, h, w);
  }

  /** Row r of width w ends inside an h-row buffer. */
  lemma IdxRowEnd(r: nat, w: nat, h: nat)
    requires r < h
    ensures Idx(r, 0, w) <= Idx(r, w, w) <= Mul(h, w)
  {
    MulOrder(r, h, w);
  }

  /** Offset of cell (a, b, c) of a buffer of nB-by-nC blocks. */
  function Idx3(a: nat, b: nat, c: nat, nB: nat, nC: nat): nat
  {
    Idx(Idx(a, b, nB), c, nC)
  }

  /** The size of a buffer of nA blocks of nB-by-nC cells. */
  function Size3(nA: nat, nB: nat, nC: nat): nat
  {
    Mul(Mul(nA, nB), nC)
  }

  lemma Size3IsProduct(nA: nat, nB: nat, nC: nat)
    ensures Size3(nA, nB, nC) == nA * nB * nC
  {
    MulIsProduct(nA, nB);
    MulIsProduct(nA * nB, nC);
  }

  /** The first two dimensions of a buffer's size can be swapped. */
  lemma Size3Swap(nA: nat, nB: nat, nC: nat)
    ensures Size3(nA, nB, nC) == Size3(nB, nA, nC)
  {
    MulIsProduct(nA, nB);
    MulIsProduct(nB, nA);
  }

  lemma Idx3Bounds(a: nat, b: nat, c: nat, nA: nat, nB: nat, nC: nat)
    requires a < nA && b < nB && c < nC
    ensures Idx3(a, b, c, nB, nC) < Size3(nA, nB, nC)
  {
    IdxBounds(a, b, nB, nA);
    IdxBounds(Idx(a, b, nB), c, nC, Mul(nA, nB));
  }

  /** Stepping past the last cell of the innermost or middle dimension. */
  lemma Idx3Next(a: nat, b: nat, nB: nat, nC: nat)
    ensures Idx3(a, b, nC, nB, nC) == Idx3(a, b + 1, 0, nB, nC)
    ensures Idx3(a, nB, 0, nB, nC) == Idx3(a + 1, 0, 0, nB, nC)
  {
  }

  /** A cell of an earlier (a, b) row comes before the first cell of a later
      one. */
  lemma Idx3Before(a: nat, b: nat, c: nat, a2: nat, b2: nat, nB: nat, nC: nat)
    requires b < nB && c < nC
    requires a < a2 || (a == a2 && b < b2)
    ensures Idx3(a, b, c, nB, nC) < Idx3(a2, b2, 0, nB, nC)
  {
    MulOrder(a, a2, nB);
    MulOrder(Idx(a, b, nB), Idx(a2, b2, nB), nC);
  }

  /** Later rows of a block start later, and the last ends where the next
      block starts. */
  lemma Idx3Rows(a: nat, b: nat, b2: nat, nB: nat, nC: nat)
    requires b <= b2 <= nB
    ensures Idx3(a, b, 0, nB, nC) <= Idx3(a, b2, 0, nB, nC) <= Idx3(a + 1, 0, 0, nB, nC)
  {
    MulOrder(Idx(a, b, nB), Idx(a, b2, nB), nC);
    MulOrder(Idx(a, b2, nB), Idx(a + 1, 0, nB), nC);
  }

  /** Later blocks start later; the buffer of nA blocks ends at Size3. */
  lemma Idx3Blocks(a: nat, a2: nat, nB: nat, nC: nat)
    requires a <= a2
    ensures Idx3(a, 0, 0, nB, nC) <= Idx3(a2, 0, 0, nB, nC) == Size3(a2, nB, nC)
  {
    MulOrder(a, a2, nB);
    MulOrder(Mul(a, nB), Mul(a2, nB), nC);
  }

  /** Row (a, b) of an nA-block buffer ends inside it. */
  lemma Idx3RowEnd(a: nat, b: nat, nA: nat, nB: nat, nC: nat)
    requires a < nA && b < nB
    ensures Idx3(a, b, 0, nB, nC) <= Idx3(a, b, nC, nB, nC) <= Size3(nA, nB, nC)
  {
    Idx3Next(a, b, nB, nC);
    Idx3Rows(a, b + 1, nB, nB, nC);
    Idx3Blocks(a + 1, nA, nB, nC);
  }

  /** Row and column of offset q in rows of width w, by repeated subtraction:
      the decoding the buffer specifications use. */
  function Split(q: nat, w: nat): (rc: (nat, nat))
    requires 0 < w
    ensures rc.1 < w
    decreases q
  {
    if q < w then (0, q) else (Split(q - w, w).0 + 1, Split(q - w, w).1)
  }

  lemma {:induction false} SplitIdx(r: nat, c: nat, w: nat)
    requires c < w
    ensures Split(Idx(r, c, w), w) == (r, c)
    decreases r
  {
    if r > 0 {
      SplitIdx(r - 1, c, w);
      assert Idx(r, c, w) - w == Idx(r - 1, c, w);
    }
  }

  /** Coordinates (a, b, c) of the three-dimensional offset q. */
  function Split3(q: nat, nB: nat, nC: nat): (abc: (nat, nat, nat))
    requires 0 < nB && 0 < nC
    ensures abc.1 < nB && abc.2 < nC
  {
    var (ab, c) := Split(q, nC);
    var (a, b) := Split(ab, nB);
    (a, b, c)
  }

  lemma Split3Idx(a: nat, b: nat, c: nat, nB: nat, nC: nat)
    requires b < nB && c < nC
    ensures Split3(Idx3(a, b, c, nB, nC), nB, nC) == (a, b, c)
  {
    SplitIdx(a, b, nB);
    SplitIdx(Idx(a, b, nB), c, nC);
  }

  /** Offset q is the cell Split(q, w) names. */
  lemma {:induction false} IdxSplit(q: nat, w: nat)
    requires 0 < w
    ensures Idx(Split(q, w).0, Split(q, w).1, w) == q
    decreases q
  {
    if q >= w {
      IdxSplit(q - w, w);
    }
  }

  /** Offset q is the cell Split3(q) names, and an offset inside a buffer of
      nA blocks decodes to a block before nA. */
  lemma Split3Bounds(q: nat, nA: nat, nB: nat, nC: nat)
    requires 0 < nB && 0 < nC
    ensures Idx3(Split3(q, nB, nC).0, Split3(q, nB, nC).1, Split3(q, nB, nC).2, nB, nC) == q
    ensures q < Size3(nA, nB, nC) ==> Split3(q, nB, nC).0 < nA
  {
    IdxSplit(q, nC);
    IdxSplit(Split(q, nC).0, nB);
    var (a, b, c) := Split3(q, nB, nC);
    if nA <= a {
      Idx3Blocks(nA, a, nB, nC);
      MulOrder(Mul(a, nB), Idx(a, b, nB), nC);
    }
  }
}
