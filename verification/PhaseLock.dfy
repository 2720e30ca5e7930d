/**
 The envelopes of the NTP phase lock: a ring of the last 16 measurements, corrected for
 frequency changes, and the gift-wrapping of the s.max and s.min curves. Doubles are reals.
 */
module PhaseLock {
  const RING: nat := 16
  const MAX_CORRECT: real := 250.0

  /** A line: its slope, and its value at the newest measurement. */
  datatype Segment = Segment(slope: real, offset: real)

  // ---------------------------------------------------------------- the ring

  function NextUp(i: nat): (r: nat)
    requires i < RING
    ensures r < RING && NextDown(r) == i
  {
    if i + 1 >= RING then 0 else i + 1
  }

  function NextDown(i: nat): (r: nat)
    requires i < RING
    ensures r < RING
  {
    if i == 0 then RING - 1 else i - 1
  }

  /** The age rank of a ring index: 0 for the oldest measurement, behind `rp`, and 15 for `rp` itself. */
  function Rank(rp: nat, i: nat): (p: nat)
    requires rp < RING && i < RING
    ensures p < RING
  {
    if i > rp then i - rp - 1 else i + RING - rp - 1
  }

  lemma RankSteps(rp: nat, i: nat)
    requires rp < RING && i < RING
    ensures Rank(rp, rp) == 15 && Rank(rp, NextUp(rp)) == 0
    ensures i != rp ==> Rank(rp, NextUp(i)) == Rank(rp, i) + 1
    ensures Rank(rp, i) == 15 ==> i == rp
  {
  }

  ghost predicate Rising(t: seq<real>, rp: nat)
    requires |t| == RING && rp < RING
  {
    forall i, k :: 0 <= i < RING && 0 <= k < RING && Rank(rp, i) < Rank(rp, k) ==> t[i] < t[k]
  }

  // ---------------------------------------------------------------- lines

  /** The slope from the point `j` of one curve to the point `n` of another. */
  function Slope(t: seq<real>, y0: seq<real>, y1: seq<real>, j: nat, n: nat): real
    requires |t| == |y0| == |y1| == RING && j < RING && n < RING
  {
    if t[n] == t[j] then 0.0 else (y0[n] - y1[j]) / (t[n] - t[j])
  }

  /** The slopes from the point `j` to every point. */
  function Slopes(t: seq<real>, y0: seq<real>, y1: seq<real>, j: nat): (f: seq<real>)
    requires |t| == |y0| == |y1| == RING && j < RING
    ensures |f| == RING && forall n :: 0 <= n < RING ==> f[n] == Slope(t, y0, y1, j, n)
  {
    seq(RING, n requires 0 <= n < RING => Slope(t, y0, y1, j, n))
  }

  /** The value of a line at the time of ring index `k`. */
  function Line(t: seq<real>, rp: nat, seg: Segment, k: nat): real
    requires |t| == RING && rp < RING && k < RING
  {
    seg.offset + seg.slope * (t[k] - t[rp])
  }

  /** The offset of a line is its value at the newest measurement; from one time to another it rises by the slope times the distance. */
  lemma LineMeans(t: seq<real>, rp: nat, seg: Segment, j: nat, k: nat)
    requires |t| == RING && rp < RING && j < RING && k < RING
    ensures Line(t, rp, seg, rp) == seg.offset
    ensures Line(t, rp, seg, k) - Line(t, rp, seg, j) == seg.slope * (t[k] - t[j])
  {
    assert seg.slope * (t[k] - t[rp]) - seg.slope * (t[j] - t[rp]) == seg.slope * (t[k] - t[j]);
  }

  /** The line through the point `n` with the given slope. */
  function LineThrough(t: seq<real>, y: seq<real>, rp: nat, n: nat, slope: real): Segment
    requires |t| == |y| == RING && rp < RING && n < RING
  {
    Segment(slope, y[n] + slope * (t[rp] - t[n]))
  }

  /** Among the points behind `j` of rank less than `m`, `b` is the first of the smallest or the last of the largest slope. */
  ghost predicate Best(f: seq<real>, rp: nat, j: nat, sign: bool, m: nat, b: nat)
    requires |f| == RING && rp < RING && j < RING
  {
    b < RING && Rank(rp, j) < Rank(rp, b) < m &&
    forall k :: 0 <= k < RING && Rank(rp, j) < Rank(rp, k) < m ==>
      if sign then f[k] <= f[b] && (Rank(rp, k) > Rank(rp, b) ==> f[k] < f[b])
      else f[k] >= f[b] && (Rank(rp, k) < Rank(rp, b) ==> f[k] > f[b])
  }

  /** One more point: it replaces the best one exactly when the test of the loop says so. */
  lemma BestStep(f: seq<real>, rp: nat, j: nat, sign: bool, m: nat, b: nat, n: nat)
    requires |f| == RING && rp < RING && j < RING && n < RING && Rank(rp, n) == m && Best(f, rp, j, sign, m, b)
    ensures Best(f, rp, j, sign, m + 1, if (f[n] < f[b]) != sign then n else b)
  {
    forall k | 0 <= k < RING && Rank(rp, k) == m ensures k == n {
      RankIsInjective(rp, k, n);
    }
  }

  lemma BestStart(f: seq<real>, rp: nat, j: nat, sign: bool, n: nat)
    requires |f| == RING && rp < RING && j < RING && n < RING && Rank(rp, n) == Rank(rp, j) + 1
    ensures Best(f, rp, j, sign, Rank(rp, n) + 1, n)
  {
    forall k | 0 <= k < RING && Rank(rp, k) == Rank(rp, n) ensures k == n {
      RankIsInjective(rp, k, n);
    }
  }

  lemma RankIsInjective(rp: nat, i: nat, k: nat)
    requires rp < RING && i < RING && k < RING
    ensures Rank(rp, i) == Rank(rp, k) <==> i == k
  {
  }

  /**
   search: among the lines from point `j` of curve `y1` to the later points of curve `y0`, the
   first one of the smallest slope, or with `sign` the last one of the largest slope.
   */
  method Search(t: seq<real>, y0: seq<real>, y1: seq<real>, rp: nat, j: nat, sign: bool) returns (nextj: nat, answer: Segment)
    requires |t| == |y0| == |y1| == RING && rp < RING && j < RING && j != rp && Rising(t, rp)
    ensures Best(Slopes(t, y0, y1, j), rp, j, sign, RING, nextj)
    ensures answer == LineThrough(t, y0, rp, nextj, Slope(t, y0, y1, j, nextj))
  {
    ghost var f := Slopes(t, y0, y1, j);
    var n: nat := NextUp(j);
    var cinit := true;
    nextj, answer := 0, Segment(0.0, 0.0);
    RankSteps(rp, j);
    ghost var m: nat := Rank(rp, n);
    while n != NextUp(rp)
      invariant n < RING && Rank(rp, j) < m <= RING
      invariant if n == NextUp(rp) then m == RING else Rank(rp, n) == m
      invariant if cinit then m == Rank(rp, j) + 1 < RING else Best(f, rp, j, sign, m, nextj)
      invariant !cinit ==> answer == LineThrough(t, y0, rp, nextj, f[nextj])
      decreases RING - m
    {
      RankSteps(rp, n);
      assert t[j] < t[n];
      var slope := (y0[n] - y1[j]) / (t[n] - t[j]);
      assert slope == f[n];
      if cinit { BestStart(f, rp, j, sign, n); } else { BestStep(f, rp, j, sign, m, nextj, n); }
      if cinit || (slope < answer.slope) != sign {
        answer := LineThrough(t, y0, rp, n, slope);
        cinit, nextj := false, n;
      }
      n, m := NextUp(n), m + 1;
    }
  }
}
