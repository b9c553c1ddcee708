/** The tabular kernel of mag_calc_cext.c: bisection interpolation (interp),
    trapezoid integration over an irregular grid (trapz_table) and the filter
    integral (trapz_filter). Doubles are modelled as exact reals. */
module Kernel {

  /** The fatal conditions of the run; the source prints a message and exits. */
  datatype Fatal =
    | OutOfRange  // an interpolation point or integration bound beyond the table
    | Inverted    // integration bounds with a > b
    | Capacity    // a merger tree with MAX_NODE or more star-forming progenitors

  datatype Result<T> = Ok(value: T) | Err(error: Fatal)

  /** The axis invariant of every table: strictly increasing abscissae. */
  predicate StrictlyIncreasing(x: seq<real>)
  {
    forall i, j :: 0 <= i < j < |x| ==> x[i] < x[j]
  }

  /** A table the kernel can work on: at least two points, as many ordinates. */
  predicate Table(x: seq<real>, y: seq<real>)
  {
    2 <= |x| && |y| == |x| && StrictlyIncreasing(x)
  }

  /** The straight line through (x0, y0) and (x1, y1), evaluated at xp, written
      as the source writes it. */
  function Chord(x0: real, y0: real, x1: real, y1: real, xp: real): real
    requires x0 != x1
  {
    y0 + (y1 - y0) * (xp - x0) / (x1 - x0)
  }

  lemma ChordAtEnds(x0: real, y0: real, x1: real, y1: real)
    requires x0 < x1
    ensures Chord(x0, y0, x1, y1, x0) == y0
    ensures Chord(x0, y0, x1, y1, x1) == y1
  {
    assert (y1 - y0) * (x1 - x0) / (x1 - x0) == y1 - y0;
  }

  /** Between its ends, a chord of non-negative values is non-negative. */
  lemma ChordNonNegative(x0: real, y0: real, x1: real, y1: real, xp: real)
    requires x0 < x1 && x0 <= xp <= x1 && 0.0 <= y0 && 0.0 <= y1
    ensures Chord(x0, y0, x1, y1, xp) >= 0.0
  {
    var d := x1 - x0;
    var t := (xp - x0) / d;
    assert t * d == xp - x0;
    assert 0.0 <= t;
    assert t <= 1.0;
    assert (y1 - y0) * (xp - x0) / d == (y1 - y0) * t;
    assert Chord(x0, y0, x1, y1, xp) == (1.0 - t) * y0 + t * y1;
    assert (1.0 - t) * y0 >= 0.0 && t * y1 >= 0.0;
  }

  // ---------------------------------------------------------------------------
  // interp (mag_calc_cext.c:113-132)
  // ---------------------------------------------------------------------------

  /** The first segment k >= from whose right end is not left of xp (the last
      segment if there is none). */
  function SegmentFrom(x: seq<real>, xp: real, from: nat): (k: nat)
    requires 2 <= |x| && from <= |x| - 2
    ensures from <= k <= |x| - 2
    ensures forall j :: from < j <= k ==> x[j] < xp
    ensures k < |x| - 2 ==> xp <= x[k + 1]
    decreases |x| - from
  {
    if from == |x| - 2 || xp <= x[from + 1] then from else SegmentFrom(x, xp, from + 1)
  }

  /** The reference interpolant: the piecewise-linear function through the table,
      evaluated on the segment that contains xp. */
  function PiecewiseLinear(x: seq<real>, y: seq<real>, xp: real): real
    requires Table(x, y)
  {
    var k := SegmentFrom(x, xp, 0);
    Chord(x[k], y[k], x[k + 1], y[k + 1], xp)
  }

  /** On any segment that brackets xp, the chord agrees with the interpolant:
      where two segments meet, both chords give the shared grid value. */
  lemma PiecewiseLinearOnSegment(x: seq<real>, y: seq<real>, xp: real, k: nat)
    requires Table(x, y) && k < |x| - 1 && x[k] <= xp <= x[k + 1]
    ensures PiecewiseLinear(x, y, xp) == Chord(x[k], y[k], x[k + 1], y[k + 1], xp)
  {
    var s := SegmentFrom(x, xp, 0);
    if s < k {
      // x[s + 1] <= x[k] <= xp, and xp <= x[s + 1] (s cannot be the last segment)
      assert xp == x[s + 1] == x[k];
      assert s + 1 == k;
      ChordAtEnds(x[s], y[s], x[s + 1], y[s + 1]);
      ChordAtEnds(x[k], y[k], x[k + 1], y[k + 1]);
    }
  }

  /** The interpolant reproduces every tabulated point. */
  lemma PiecewiseLinearAtGrid(x: seq<real>, y: seq<real>, k: nat)
    requires Table(x, y) && k < |x|
    ensures PiecewiseLinear(x, y, x[k]) == y[k]
  {
    if k < |x| - 1 {
      PiecewiseLinearOnSegment(x, y, x[k], k);
      ChordAtEnds(x[k], y[k], x[k + 1], y[k + 1]);
    } else {
      PiecewiseLinearOnSegment(x, y, x[k], k - 1);
      ChordAtEnds(x[k - 1], y[k - 1], x[k], y[k]);
    }
  }

  /** interp: halts (OutOfRange) for a point outside [x[0], x[nPts-1]], never
      extrapolates, and otherwise returns the piecewise-linear interpolant. */
  method Interp(xp: real, x: seq<real>, y: seq<real>) returns (r: Result<real>)
    requires Table(x, y)
    ensures r.Err? <==> xp < x[0] || xp > x[|x| - 1]
    ensures r.Err? ==> r.error == OutOfRange
    ensures r.Ok? ==> r.value == PiecewiseLinear(x, y, xp)
  {
    var nPts := |x|;
    if xp < x[0] || xp > x[nPts - 1] {
      return Err(OutOfRange);
    }
    var idx0, idx1 := 0, nPts - 1;
    while idx1 - idx0 > 1
      invariant 0 <= idx0 < idx1 < nPts
      invariant x[idx0] <= xp <= x[idx1]
      decreases idx1 - idx0
    {
      var idxMid := (idx0 + idx1) / 2;
      if xp > x[idxMid] {
        idx0 := idxMid;
      } else if xp < x[idxMid] {
        idx1 := idxMid;
      } else {
        // exact hit on a probe: the tabulated value, verbatim
        PiecewiseLinearAtGrid(x, y, idxMid);
        return Ok(y[idxMid]);
      }
    }
    PiecewiseLinearOnSegment(x, y, xp, idx0);
    r := Ok(Chord(x[idx0], y[idx0], x[idx1], y[idx1], xp));
  }

  /** At both ends of the table interp returns the end values exactly. */
  lemma InterpAtEnds(x: seq<real>, y: seq<real>)
    requires Table(x, y)
    ensures PiecewiseLinear(x, y, x[0]) == y[0]
    ensures PiecewiseLinear(x, y, x[|x| - 1]) == y[|y| - 1]
  {
    PiecewiseLinearAtGrid(x, y, 0);
    PiecewiseLinearAtGrid(x, y, |x| - 1);
  }

  // ---------------------------------------------------------------------------
  // trapz_table (mag_calc_cext.c:135-185)
  // ---------------------------------------------------------------------------

  /** The bisection of trapz_table for the lower bound a. It stops either on an
      adjacent pair or as soon as a probe hits a exactly; in the second case the
      bracket can stay wide. */
  function Bisect(x: seq<real>, a: real, idx0: nat, idx1: nat): (r: (nat, nat))
    requires idx0 < idx1 < |x| && x[idx0] <= a <= x[idx1]
    ensures idx0 <= r.0 < r.1 <= idx1
    ensures x[r.0] <= a <= x[r.1]
    ensures r.1 - r.0 == 1 || a == x[(r.0 + r.1) / 2]
    decreases idx1 - idx0
  {
    if idx1 - idx0 <= 1 then (idx0, idx1)
    else
      var idxMid := (idx0 + idx1) / 2;
      if a > x[idxMid] then Bisect(x, a, idxMid, idx1)
      else if a < x[idxMid] then Bisect(x, a, idx0, idxMid)
      else (idx0, idx1)
  }

  /** The area of the trapezoid of width w between heights h0 and h1. */
  function Trap(w: real, h0: real, h1: real): real
  {
    w * (h0 + h1) / 2.0
  }

  lemma TrapNonNegative(w: real, h0: real, h1: real)
    requires w >= 0.0 && h0 >= 0.0 && h1 >= 0.0
    ensures Trap(w, h0, h1) >= 0.0
  {
  }

  /** The accumulation loop of trapz_table from interval i on: whole intervals
      left of b, then the partial interval ending at b, and it stops at the first
      interval whose left end is not left of b. */
  function TrapzTail(y: seq<real>, x: seq<real>, i: nat, b: real): real
    requires Table(x, y) && i < |x|
    decreases |x| - i
  {
    if i >= |x| - 1 then 0.0
    else if x[i + 1] < b then
      Trap(x[i + 1] - x[i], y[i + 1], y[i]) + TrapzTail(y, x, i + 1, b)
    else if x[i] < b then
      Trap(b - x[i], Chord(x[i], y[i], x[i + 1], y[i + 1], b), y[i]) + TrapzTail(y, x, i + 1, b)
    else 0.0
  }

  /** The value trapz_table computes once the bisection has left the bracket
      [x[idx0], x[idx1]] around a: the boundary values ya and yb are read off the
      chord over that bracket. */
  function TrapzFromBracket(y: seq<real>, x: seq<real>, a: real, b: real, idx0: nat, idx1: nat): real
    requires Table(x, y) && idx0 < idx1 < |x|
  {
    var ya := Chord(x[idx0], y[idx0], x[idx1], y[idx1], a);
    if b <= x[idx1] then
      Trap(b - a, Chord(x[idx0], y[idx0], x[idx1], y[idx1], b), ya)
    else
      Trap(x[idx1] - a, y[idx1], ya) + TrapzTail(y, x, idx1, b)
  }

  /** What trapz_table computes for the table (x, y) over [a, b], including its
      fatal range checks in the source's order. */
  function Trapezoid(y: seq<real>, x: seq<real>, a: real, b: real): Result<real>
    requires Table(x, y)
  {
    if x[0] > a || x[|x| - 1] < b then Err(OutOfRange)
    else if a > b then Err(Inverted)
    else
      var br := Bisect(x, a, 0, |x| - 1);
      Ok(TrapzFromBracket(y, x, a, b, br.0, br.1))
  }

  /** trapz_table. */
  method TrapzTable(y: seq<real>, x: seq<real>, a: real, b: real) returns (r: Result<real>)
    requires Table(x, y)
    ensures r == Trapezoid(y, x, a, b)
  {
    var nPts := |x|;
    var idx0, idx1 := 0, nPts - 1;
    if x[0] > a || x[nPts - 1] < b {
      return Err(OutOfRange);
    }
    if a > b {
      return Err(Inverted);
    }
    // bisection for the interval that contains a
    while idx1 - idx0 > 1
      invariant 0 <= idx0 < idx1 < nPts
      invariant x[idx0] <= a <= x[idx1]
      invariant Bisect(x, a, idx0, idx1) == Bisect(x, a, 0, nPts - 1)
      decreases idx1 - idx0
    {
      var idxMid := (idx0 + idx1) / 2;
      if a > x[idxMid] {
        idx0 := idxMid;
      } else if a < x[idxMid] {
        idx1 := idxMid;
      } else {
        break;
      }
    }
    assert (idx0, idx1) == Bisect(x, a, 0, nPts - 1);
    var I := TrapzFromBracketLoop(y, x, a, b, idx0, idx1);
    r := Ok(I);
  }

  /** The second half of trapz_table: the boundary values on the bracket
      [x[idx0], x[idx1]] left by the bisection, then the accumulation loop. */
  method TrapzFromBracketLoop(y: seq<real>, x: seq<real>, a: real, b: real, idx0: nat, idx1: nat)
    returns (I: real)
    requires Table(x, y) && idx0 < idx1 < |x|
    ensures I == TrapzFromBracket(y, x, a, b, idx0, idx1)
  {
    var nPts := |x|;
    var ya := Chord(x[idx0], y[idx0], x[idx1], y[idx1], a);
    if b <= x[idx1] {
      var yb := Chord(x[idx0], y[idx0], x[idx1], y[idx1], b);
      return Trap(b - a, yb, ya);
    }
    I := Trap(x[idx1] - a, y[idx1], ya);
    ghost var I0 := I;
    for i := idx1 to nPts - 1
      invariant I + TrapzTail(y, x, i, b) == I0 + TrapzTail(y, x, idx1, b)
    {
      if x[i + 1] < b {
        I := I + Trap(x[i + 1] - x[i], y[i + 1], y[i]);
      } else if x[i] < b {
        var yb := Chord(x[i], y[i], x[i + 1], y[i + 1], b);
        I := I + Trap(b - x[i], yb, y[i]);
      } else {
        break;
      }
    }
  }

  /** trapz_table halts exactly when a < x[0], b > x[nPts-1] or a > b, with the
      range error taking precedence. */
  lemma TrapezoidErrors(y: seq<real>, x: seq<real>, a: real, b: real)
    requires Table(x, y)
    ensures Trapezoid(y, x, a, b).Err? <==> a < x[0] || b > x[|x| - 1] || a > b
    ensures Trapezoid(y, x, a, b) == Err(OutOfRange) <==> a < x[0] || b > x[|x| - 1]
  {
  }

  /** An empty range integrates to zero. */
  lemma TrapezoidEmptyRange(y: seq<real>, x: seq<real>, a: real)
    requires Table(x, y) && x[0] <= a <= x[|x| - 1]
    ensures Trapezoid(y, x, a, a) == Ok(0.0)
  {
  }

  lemma {:induction false} TailOfConstant(y: seq<real>, x: seq<real>, c: real, i: nat, b: real)
    requires Table(x, y) && i < |x| && x[i] <= b <= x[|x| - 1]
    requires forall j :: 0 <= j < |y| ==> y[j] == c
    ensures TrapzTail(y, x, i, b) == c * (b - x[i])
    decreases |x| - i
  {
    if i >= |x| - 1 || b <= x[i] {
      TailPastEnd(y, x, i, b);
      ScaleZero(c, b, x[i]);
    } else if x[i + 1] < b {
      TailOfConstant(y, x, c, i + 1, b);
      TrapOfConstant(x[i + 1] - x[i], c);
      ScaleSplit(c, x[i], x[i + 1], b);
    } else {
      TailPastEnd(y, x, i + 1, b);
      ChordOfConstant(x[i], x[i + 1], c, b);
      TrapOfConstant(b - x[i], c);
    }
  }

  lemma TrapOfConstant(w: real, c: real)
    ensures Trap(w, c, c) == c * w
  {
  }

  lemma ScaleZero(c: real, p: real, q: real)
    requires p == q
    ensures c * (p - q) == 0.0
  {
  }

  lemma ScaleSplit(c: real, p: real, q: real, r: real)
    ensures c * (r - p) == c * (q - p) + c * (r - q)
  {
  }

  lemma TailPastEnd(y: seq<real>, x: seq<real>, i: nat, b: real)
    requires Table(x, y) && i < |x| && (i == |x| - 1 || b <= x[i])
    ensures TrapzTail(y, x, i, b) == 0.0
  {
    if i < |x| - 1 {
      assert x[i] < x[i + 1];
    }
  }

  lemma ChordOfConstant(x0: real, x1: real, c: real, xp: real)
    requires x0 != x1
    ensures Chord(x0, c, x1, c, xp) == c
  {
    assert (c - c) * (xp - x0) == 0.0;
  }

  lemma FromBracketOfConstant(y: seq<real>, x: seq<real>, c: real, a: real, b: real, idx0: nat, idx1: nat)
    requires Table(x, y) && idx0 < idx1 < |x| && a <= b <= x[|x| - 1] && a <= x[idx1]
    requires forall j :: 0 <= j < |y| ==> y[j] == c
    ensures TrapzFromBracket(y, x, a, b, idx0, idx1) == c * (b - a)
  {
    ChordOfConstant(x[idx0], x[idx1], c, a);
    if b > x[idx1] {
      TailOfConstant(y, x, c, idx1, b);
      TrapOfConstant(x[idx1] - a, c);
      ScaleSplit(c, a, x[idx1], b);
    } else {
      ChordOfConstant(x[idx0], x[idx1], c, b);
      TrapOfConstant(b - a, c);
    }
  }

  /** A constant table y == c integrates to c*(b - a), whatever bracket the
      bisection leaves. */
  lemma TrapezoidOfConstant(y: seq<real>, x: seq<real>, c: real, a: real, b: real)
    requires Table(x, y) && x[0] <= a <= b <= x[|x| - 1]
    requires forall j :: 0 <= j < |y| ==> y[j] == c
    ensures Trapezoid(y, x, a, b) == Ok(c * (b - a))
  {
    var br := Bisect(x, a, 0, |x| - 1);
    FromBracketOfConstant(y, x, c, a, b, br.0, br.1);
  }

  lemma {:induction false} TailNonNegative(y: seq<real>, x: seq<real>, i: nat, b: real)
    requires Table(x, y) && i < |x|
    requires forall j :: 0 <= j < |y| ==> y[j] >= 0.0
    ensures TrapzTail(y, x, i, b) >= 0.0
    decreases |x| - i
  {
    if i >= |x| - 1 {
    } else if x[i + 1] < b {
      TailNonNegative(y, x, i + 1, b);
      TrapNonNegative(x[i + 1] - x[i], y[i + 1], y[i]);
    } else if x[i] < b {
      TailNonNegative(y, x, i + 1, b);
      ChordNonNegative(x[i], y[i], x[i + 1], y[i + 1], b);
      TrapNonNegative(b - x[i], Chord(x[i], y[i], x[i + 1], y[i + 1], b), y[i]);
    }
  }

  /** A non-negative table has a non-negative integral. */
  lemma TrapezoidNonNegative(y: seq<real>, x: seq<real>, a: real, b: real)
    requires Table(x, y) && x[0] <= a <= b <= x[|x| - 1]
    requires forall j :: 0 <= j < |y| ==> y[j] >= 0.0
    ensures Trapezoid(y, x, a, b).Ok? && Trapezoid(y, x, a, b).value >= 0.0
  {
    var br := Bisect(x, a, 0, |x| - 1);
    var idx0, idx1 := br.0, br.1;
    var ya := Chord(x[idx0], y[idx0], x[idx1], y[idx1], a);
    ChordNonNegative(x[idx0], y[idx0], x[idx1], y[idx1], a);
    if b <= x[idx1] {
      ChordNonNegative(x[idx0], y[idx0], x[idx1], y[idx1], b);
      TrapNonNegative(b - a, Chord(x[idx0], y[idx0], x[idx1], y[idx1], b), ya);
    } else {
      TailNonNegative(y, x, idx1, b);
      TrapNonNegative(x[idx1] - a, y[idx1], ya);
    }
  }

  /** Additivity across a grid point fails: on x = 0..4 with a single peak
      y[2] = 1, integrating from the exact hit a = x[2] leaves the bracket
      [x[0], x[4]], so [2, 4] gives 0 while [0, 2] gives 1/2 and [0, 4] gives 1. */
  lemma TrapezoidNotAdditive()
    ensures var x, y := [0.0, 1.0, 2.0, 3.0, 4.0], [0.0, 0.0, 1.0, 0.0, 0.0];
      Table(x, y) &&
      Trapezoid(y, x, 0.0, 4.0) == Ok(1.0) &&
      Trapezoid(y, x, 0.0, 2.0) == Ok(0.5) &&
      Trapezoid(y, x, 2.0, 4.0) == Ok(0.0)
  {
    var x, y := [0.0, 1.0, 2.0, 3.0, 4.0], [0.0, 0.0, 1.0, 0.0, 0.0];
    assert Table(x, y);
    assert Bisect(x, 2.0, 0, 4) == (0, 4);
    assert Bisect(x, 0.0, 0, 4) == (0, 1) by {
      assert Bisect(x, 0.0, 0, 2) == (0, 1);
    }
    assert TrapzTail(y, x, 3, 4.0) == 0.0;
    assert TrapzTail(y, x, 2, 4.0) == 0.5;
    assert TrapzTail(y, x, 1, 4.0) == 1.0;
    assert TrapzTail(y, x, 2, 2.0) == 0.0;
    assert TrapzTail(y, x, 1, 2.0) == 0.5;
  }

  // ---------------------------------------------------------------------------
  // The reference integral: the exact integral of the piecewise-linear
  // interpolant, one segment at a time.

  /** The integral over [a, b] of the interpolant restricted to segment k: the
      interpolant is linear there, so it is the trapezoid of its values at the
      ends of [a, b] clipped to [x[k], x[k + 1]] (0 when that part is empty). */
  function SegmentIntegral(x: seq<real>, y: seq<real>, a: real, b: real, k: nat): real
    requires Table(x, y) && k < |x| - 1
  {
    var lo := if a < x[k] then x[k] else a;
    var hi := if b < x[k + 1] then b else x[k + 1];
    if lo < hi then Trap(hi - lo, PiecewiseLinear(x, y, hi), PiecewiseLinear(x, y, lo)) else 0.0
  }

  /** The sum of SegmentIntegral over the segments k, k + 1, ..., |x| - 2. */
  function PiecewiseIntegralFrom(x: seq<real>, y: seq<real>, a: real, b: real, k: nat): real
    requires Table(x, y) && k <= |x| - 1
    decreases |x| - 1 - k
  {
    if k == |x| - 1 then 0.0
    else SegmentIntegral(x, y, a, b, k) + PiecewiseIntegralFrom(x, y, a, b, k + 1)
  }

  /** The integral over [a, b] of the piecewise-linear interpolant. */
  function PiecewiseIntegral(x: seq<real>, y: seq<real>, a: real, b: real): real
    requires Table(x, y)
  {
    PiecewiseIntegralFrom(x, y, a, b, 0)
  }

  /** The segments that end at or before a add nothing. */
  lemma {:induction false} SegmentsBeforeA(x: seq<real>, y: seq<real>, a: real, b: real, j: nat, k: nat)
    requires Table(x, y) && j <= k < |x| - 1 && x[k] <= a && a <= b
    ensures PiecewiseIntegralFrom(x, y, a, b, j) == PiecewiseIntegralFrom(x, y, a, b, k)
    decreases k - j
  {
    if j < k {
      assert x[j + 1] <= x[k];
      assert SegmentIntegral(x, y, a, b, j) == 0.0;
      SegmentsBeforeA(x, y, a, b, j + 1, k);
    }
  }

  /** The segments that start at or after b add nothing. */
  lemma {:induction false} SegmentsAfterB(x: seq<real>, y: seq<real>, a: real, b: real, i: nat)
    requires Table(x, y) && i <= |x| - 1 && b <= x[i]
    ensures PiecewiseIntegralFrom(x, y, a, b, i) == 0.0
    decreases |x| - 1 - i
  {
    if i < |x| - 1 {
      assert x[i] < x[i + 1];
      assert SegmentIntegral(x, y, a, b, i) == 0.0;
      SegmentsAfterB(x, y, a, b, i + 1);
    }
  }

  /** On segment k, with [lo, hi] the part of [a, b] inside it, the segment's
      integral is the trapezoid of the segment's chord at lo and hi. */
  lemma SegmentIntegralOn(x: seq<real>, y: seq<real>, a: real, b: real, k: nat, lo: real, hi: real)
    requires Table(x, y) && k < |x| - 1 && x[k] <= lo <= hi <= x[k + 1]
    requires lo == (if a < x[k] then x[k] else a) && hi == (if b < x[k + 1] then b else x[k + 1])
    ensures SegmentIntegral(x, y, a, b, k)
         == Trap(hi - lo, Chord(x[k], y[k], x[k + 1], y[k + 1], hi), Chord(x[k], y[k], x[k + 1], y[k + 1], lo))
  {
    if lo < hi {
      PiecewiseLinearOnSegment(x, y, lo, k);
      PiecewiseLinearOnSegment(x, y, hi, k);
    }
  }

  /** From a grid point at or right of a on, the accumulation loop of
      trapz_table integrates the interpolant segment by segment. */
  lemma {:induction false} TailIsIntegral(y: seq<real>, x: seq<real>, a: real, b: real, i: nat)
    requires Table(x, y) && i <= |x| - 1 && a <= x[i] && b <= x[|x| - 1]
    ensures TrapzTail(y, x, i, b) == PiecewiseIntegralFrom(x, y, a, b, i)
    decreases |x| - 1 - i
  {
    if i == |x| - 1 {
    } else if b <= x[i] {
      TailPastEnd(y, x, i, b);
      SegmentsAfterB(x, y, a, b, i);
    } else {
      assert x[i] < x[i + 1];
      ChordAtEnds(x[i], y[i], x[i + 1], y[i + 1]);
      if x[i + 1] < b {
        SegmentIntegralOn(x, y, a, b, i, x[i], x[i + 1]);
        TailIsIntegral(y, x, a, b, i + 1);
      } else {
        SegmentIntegralOn(x, y, a, b, i, x[i], b);
        TailPastEnd(y, x, i + 1, b);
        SegmentsAfterB(x, y, a, b, i + 1);
      }
    }
  }

  /** Started from an adjacent bracket around a, trapz_table integrates the
      interpolant over [a, b]. */
  lemma BracketIsIntegral(y: seq<real>, x: seq<real>, a: real, b: real, k: nat)
    requires Table(x, y) && k < |x| - 1 && x[k] <= a <= x[k + 1] && a <= b <= x[|x| - 1]
    ensures TrapzFromBracket(y, x, a, b, k, k + 1) == PiecewiseIntegral(x, y, a, b)
  {
    SegmentsBeforeA(x, y, a, b, 0, k);
    assert PiecewiseIntegralFrom(x, y, a, b, k)
        == SegmentIntegral(x, y, a, b, k) + PiecewiseIntegralFrom(x, y, a, b, k + 1);
    if b <= x[k + 1] {
      SegmentIntegralOn(x, y, a, b, k, a, b);
      SegmentsAfterB(x, y, a, b, k + 1);
    } else {
      ChordAtEnds(x[k], y[k], x[k + 1], y[k + 1]);
      SegmentIntegralOn(x, y, a, b, k, a, x[k + 1]);
      TailIsIntegral(y, x, a, b, k + 1);
    }
  }

  /** When no bisection probe can hit a exactly (a is not an interior grid
      point), the bracket trapz_table leaves is a single segment and the result
      is the exact integral of the piecewise-linear interpolant over [a, b]. */
  lemma TrapezoidIsIntegral(y: seq<real>, x: seq<real>, a: real, b: real)
    requires Table(x, y) && x[0] <= a <= b <= x[|x| - 1]
    requires forall i :: 0 < i < |x| - 1 ==> x[i] != a
    ensures Trapezoid(y, x, a, b) == Ok(PiecewiseIntegral(x, y, a, b))
  {
    var br := Bisect(x, a, 0, |x| - 1);
    var mid: int := (br.0 + br.1) / 2;
    assert br.1 - br.0 != 1 ==> 0 < mid < |x| - 1;
    BracketIsIntegral(y, x, a, b, br.0);
  }

  // ---------------------------------------------------------------------------
  // trapz_filter (mag_calc_cext.c:188-200)
  // ---------------------------------------------------------------------------

  /** The trapezoid between samples i - 1 and i of the filtered flux. */
  function FilterTrapezoid(filter: seq<real>, flux: seq<real>, waves: seq<real>, i: nat): real
    requires 1 <= i < |filter| && i < |flux| && i < |waves|
  {
    (waves[i] - waves[i - 1]) * (filter[i - 1] * flux[i - 1] + filter[i] * flux[i]) / 2.0
  }

  /** Sum over 1 <= i < n of (w[i]-w[i-1])*(f[i-1]*phi[i-1] + f[i]*phi[i])/2. */
  function FilterIntegral(filter: seq<real>, flux: seq<real>, waves: seq<real>, n: nat): real
    requires n <= |filter| && n <= |flux| && n <= |waves|
  {
    if n <= 1 then 0.0
    else FilterIntegral(filter, flux, waves, n - 1) + FilterTrapezoid(filter, flux, waves, n - 1)
  }

  /** trapz_filter; the filter and the flux are read at index 0 before the
      loop. With no samples the integral is 0 and that first product, which
      lies outside both buffers, is never used, so it is not formed here. */
  method TrapzFilter(filter: seq<real>, flux: seq<real>, waves: seq<real>) returns (r: real)
    requires |filter| == |waves| && |flux| == |waves|
    ensures r == FilterIntegral(filter, flux, waves, |waves|)
  {
    var nWaves := |waves|;
    var I := 0.0;
    if 0 < nWaves {
      var y0 := filter[0] * flux[0];
      for i := 1 to nWaves
        invariant y0 == filter[i - 1] * flux[i - 1]
        invariant I == FilterIntegral(filter, flux, waves, i)
      {
        var y1 := filter[i] * flux[i];
        I := I + (waves[i] - waves[i - 1]) * (y0 + y1) / 2.0;
        y0 := y1;
      }
    }
    r := I;
  }

  /** The product v*c, named so that contracts can speak of it without
      unfolding the multiplication. */
  function Times(v: real, c: real): real
  {
    v * c
  }

  /** c*u + v, elementwise. */
  function Combine(c: real, u: seq<real>, v: seq<real>): (s: seq<real>)
    requires |u| == |v|
    ensures |s| == |u| && forall i :: 0 <= i < |s| ==> s[i] == c * u[i] + v[i]
  {
    seq(|u|, i requires 0 <= i < |u| => c * u[i] + v[i])
  }

  /** One trapezoid is linear in the flux. */
  lemma TrapezoidLinear(filter: seq<real>, c: real, u: seq<real>, v: seq<real>, waves: seq<real>, i: nat)
    requires |u| == |v| && 1 <= i < |filter| && i < |u| && i < |waves|
    ensures FilterTrapezoid(filter, Combine(c, u, v), waves, i)
         == c * FilterTrapezoid(filter, u, waves, i) + FilterTrapezoid(filter, v, waves, i)
  {
    var w := Combine(c, u, v);
    var d := waves[i] - waves[i - 1];
    calc {
      d * (filter[i - 1] * w[i - 1] + filter[i] * w[i]) / 2.0;
      c * (d * (filter[i - 1] * u[i - 1] + filter[i] * u[i]) / 2.0)
        + d * (filter[i - 1] * v[i - 1] + filter[i] * v[i]) / 2.0;
    }
  }

  /** The filter integral is linear in the flux. */
  lemma {:induction false} FilterIntegralLinear(filter: seq<real>, c: real, u: seq<real>, v: seq<real>,
                                                waves: seq<real>, n: nat)
    requires |u| == |v| && n <= |filter| && n <= |u| && n <= |waves|
    ensures FilterIntegral(filter, Combine(c, u, v), waves, n)
         == c * FilterIntegral(filter, u, waves, n) + FilterIntegral(filter, v, waves, n)
  {
    if n > 1 {
      FilterIntegralLinear(filter, c, u, v, waves, n - 1);
      TrapezoidLinear(filter, c, u, v, waves, n - 1);
      Distribute(c, FilterIntegral(filter, u, waves, n - 1), FilterTrapezoid(filter, u, waves, n - 1),
                 FilterIntegral(filter, u, waves, n));
    }
  }

  /** c*s, elementwise. */
  function Scaled(c: real, s: seq<real>): (r: seq<real>)
    ensures |r| == |s|
  {
    seq(|s|, k requires 0 <= k < |s| => c * s[k])
  }

  /** The axis s stretched by d. */
  function Stretched(s: seq<real>, d: real): (r: seq<real>)
    ensures |r| == |s|
  {
    seq(|s|, k requires 0 <= k < |s| => s[k] * d)
  }

  /** One trapezoid of the stretched integral: width scaled by d, heights by c. */
  lemma TrapezoidStretched(filter: seq<real>, flux: seq<real>, waves: seq<real>, c: real, d: real, i: nat)
    requires 1 <= i < |filter| && i < |flux| && i < |waves|
    ensures FilterTrapezoid(filter, Scaled(c, flux), Stretched(waves, d), i)
         == c * d * FilterTrapezoid(filter, flux, waves, i)
  {
    var u, v := Scaled(c, flux), Stretched(waves, d);
    var y := filter[i - 1] * flux[i - 1] + filter[i] * flux[i];
    assert filter[i - 1] * u[i - 1] + filter[i] * u[i] == c * y;
    assert v[i] - v[i - 1] == (waves[i] - waves[i - 1]) * d;
  }

  lemma Distribute(k: real, a: real, b: real, sum: real)
    requires sum == a + b
    ensures k * a + k * b == k * sum
  {
  }

  /** Multiplying the flux by c and stretching the wavelength axis by d
      multiplies the filter integral by c*d: the observer-frame integral of a
      spectrum redshifted by z, with no absorption, is (1 + z)^2 times the
      rest-frame one. */
  lemma {:induction false} FilterIntegralStretched(filter: seq<real>, flux: seq<real>, waves: seq<real>,
                                                   c: real, d: real, n: nat)
    requires n <= |filter| && n <= |flux| && n <= |waves|
    ensures FilterIntegral(filter, Scaled(c, flux), Stretched(waves, d), n) == c * d * FilterIntegral(filter, flux, waves, n)
  {
    if n > 1 {
      var u, v := Scaled(c, flux), Stretched(waves, d);
      var a, b := FilterIntegral(filter, flux, waves, n - 1), FilterTrapezoid(filter, flux, waves, n - 1);
      FilterIntegralStretched(filter, flux, waves, c, d, n - 1);
      TrapezoidStretched(filter, flux, waves, c, d, n - 1);
      assert FilterIntegral(filter, u, v, n) == FilterIntegral(filter, u, v, n - 1) + FilterTrapezoid(filter, u, v, n - 1);
      Distribute(c * d, a, b, FilterIntegral(filter, flux, waves, n));
    }
  }
}
