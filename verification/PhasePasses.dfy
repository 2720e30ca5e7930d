/** The first three passes of the phase lock loop, and the ring they work on over a whole run. */
module PhasePasses {
  import opened Wrappers
  import opened PhaseLock
  import opened Envelope

  // ---------------------------------------------------------------- the crossing lines

  /** The slope of the segment before the one at `q`. */
  function SlopeBefore(segs: seq<Segment>, q: nat, start: real): real
    requires q <= |segs|
  {
    if q == 0 then start else segs[q - 1].slope
  }

  /** The line checked at vertex `q` has a slope between those of the two segments there; `rising` in pass 2, falling in pass 3. */
  predicate Fits(segs: seq<Segment>, checks: seq<Segment>, rising: bool, start: real, q: nat)
    requires q < |segs| == |checks|
  {
    if rising then SlopeBefore(segs, q, start) < checks[q].slope < segs[q].slope
    else segs[q].slope < checks[q].slope < SlopeBefore(segs, q, start)
  }

  /** The kept line is one of the fitting lines, of the smallest slope; none is kept exactly when none fits. */
  ghost predicate Kept(segs: seq<Segment>, checks: seq<Segment>, rising: bool, start: real, kept: Option<Segment>)
    requires |segs| == |checks|
  {
    && (kept.Some? ==> exists q :: 0 <= q < |segs| && Fits(segs, checks, rising, start, q) && checks[q] == kept.value)
    && (forall q :: 0 <= q < |segs| && Fits(segs, checks, rising, start, q) ==> kept.Some? && kept.value.slope <= checks[q].slope)
  }

  /** The test of the two passes on the next segment and the next line checked. */
  function Keep(kept: Option<Segment>, check: Segment, fits: bool): Option<Segment> {
    if fits && (kept.None? || check.slope < kept.value.slope) then Some(check) else kept
  }

  lemma KeepStep(segs: seq<Segment>, checks: seq<Segment>, rising: bool, start: real, kept: Option<Segment>, seg: Segment, check: Segment)
    requires |segs| == |checks| && Kept(segs, checks, rising, start, kept)
    ensures var segs', checks' := segs + [seg], checks + [check];
      Kept(segs', checks', rising, start, Keep(kept, check, Fits(segs', checks', rising, start, |segs|)))
  {
    var segs', checks', m := segs + [seg], checks + [check], |segs|;
    forall q | 0 <= q < m ensures Fits(segs', checks', rising, start, q) <==> Fits(segs, checks, rising, start, q) {
    }
    var kept' := Keep(kept, check, Fits(segs', checks', rising, start, m));
    if kept'.Some? && kept' == kept {
      var q :| 0 <= q < |segs| && Fits(segs, checks, rising, start, q) && checks[q] == kept.value;
      assert Fits(segs', checks', rising, start, q) && checks'[q] == kept.value;
    } else if kept'.Some? {
      assert Fits(segs', checks', rising, start, m) && checks'[m] == kept'.value;
    }
  }

  // ---------------------------------------------------------------- pass 2

  /** An invariant over segments, vertices, lines checked and the line kept. */
  type Progress = (seq<Segment>, seq<nat>, seq<Segment>, Option<Segment>) -> bool

  /** `line` goes from the point `j` of curve `y1` to a later point of curve `y0`: the last one of the largest slope if
      `sign`, else the first one of the smallest. */
  ghost predicate IsCheck(t: seq<real>, y0: seq<real>, y1: seq<real>, rp: nat, j: nat, sign: bool, line: Segment)
    requires |t| == |y0| == |y1| == RING && rp < RING
  {
    j < RING && exists n: nat :: Best(Slopes(t, y0, y1, j), rp, j, sign, RING, n) && line == LineThrough(t, y0, rp, n, Slope(t, y0, y1, j, n))
  }

  /** The line checked at every vertex satisfies `ok`. */
  ghost predicate Checked(ok: (nat, Segment) -> bool, verts: seq<nat>, checks: seq<Segment>) {
    |checks| < |verts| && forall q :: 0 <= q < |checks| ==> ok(verts[q], checks[q])
  }

  /** The lines that pass 2 and pass 3 check. */
  ghost function UpperCheck(t: seq<real>, max: seq<real>, min: seq<real>, rp: nat): (nat, Segment) -> bool
    requires |t| == |max| == |min| == RING && rp < RING
  {
    (j: nat, line) => IsCheck(t, min, max, rp, j, true, line)
  }

  ghost function LowerCheck(t: seq<real>, max: seq<real>, min: seq<real>, rp: nat): (nat, Segment) -> bool
    requires |t| == |max| == |min| == RING && rp < RING
  {
    (j: nat, line) => IsCheck(t, max, min, rp, j, false, line)
  }

  /**
   What pass 2 has found so far: segments that wrap s.max up to the last vertex, and a kept line
   that touches s.max without rising above it and s.min later without falling below it.
   */
  ghost predicate Upper(t: seq<real>, max: seq<real>, min: seq<real>, rp: nat, segs: seq<Segment>, verts: seq<nat>, checks: seq<Segment>, kept: Option<Segment>)
    requires |t| == |max| == |min| == RING && rp < RING
  {
    && Wrapped(t, max, rp, segs, verts)
    && (kept.Some? ==> Crossing(t, max, min, rp, kept.value))
    && |checks| == |segs| && Kept(segs, checks, true, -500.0, kept)
  }

  /** `inv` is what pass 2 keeps. */
  ghost predicate UpperIs(inv: Progress, t: seq<real>, max: seq<real>, min: seq<real>, rp: nat)
    requires |t| == |max| == |min| == RING && rp < RING
  {
    forall segs, verts, checks, kept {:trigger Upper(t, max, min, rp, segs, verts, checks, kept)} ::
      inv(segs, verts, checks, kept) <==> Upper(t, max, min, rp, segs, verts, checks, kept)
  }

  /** One vertex of pass 2. */
  method UpperCorner(t: seq<real>, max: seq<real>, min: seq<real>, rp: nat, j: nat, lastSlope: real, saveMin: Option<Segment>,
      ghost segs: seq<Segment>, ghost verts: seq<nat>, ghost checks: seq<Segment>, ghost ok: (nat, Segment) -> bool, ghost inv: Progress)
    returns (nextj: nat, seg: Segment, saveMin': Option<Segment>, ghost check: Segment)
    requires |t| == |max| == |min| == RING && rp < RING && j < RING && j != rp && Rising(t, rp)
    requires UpperIs(inv, t, max, min, rp) && inv(segs, verts, checks, saveMin) && |verts| == |segs| + 1 && verts[|segs|] == j
    requires lastSlope == SlopeBefore(segs, |segs|, -500.0)
    requires forall j: nat, line :: IsCheck(t, min, max, rp, j, true, line) ==> ok(j, line)
    ensures ok(j, check)
    ensures inv(segs + [seg], verts + [nextj], checks + [check], saveMin')
    ensures |segs| + 1 < RING && nextj < RING && (nextj != rp ==> |segs| + 2 < RING)
  {
    assert Upper(t, max, min, rp, segs, verts, checks, saveMin);
    var n, ch;
    nextj, seg := Search(t, max, max, rp, j, false);
    n, ch := Search(t, min, max, rp, j, true);
    var fits := ch.slope < seg.slope && ch.slope > lastSlope;
    saveMin', check := Keep(saveMin, ch, fits), ch;
    assert IsCheck(t, min, max, rp, j, true, ch);
    UpperGrows(t, max, min, rp, segs, verts, checks, saveMin, nextj, seg, n, ch, fits);
  }

  /** One more segment of pass 2. */
  lemma UpperGrows(t: seq<real>, max: seq<real>, min: seq<real>, rp: nat, segs: seq<Segment>, verts: seq<nat>, checks: seq<Segment>, kept: Option<Segment>,
      b: nat, seg: Segment, n: nat, check: Segment, fits: bool)
    requires |t| == |max| == |min| == RING && rp < RING && Rising(t, rp) && Upper(t, max, min, rp, segs, verts, checks, kept)
    requires Best(Slopes(t, max, max, verts[|segs|]), rp, verts[|segs|], false, RING, b)
    requires Best(Slopes(t, min, max, verts[|segs|]), rp, verts[|segs|], true, RING, n)
    requires seg == LineThrough(t, max, rp, b, Slope(t, max, max, verts[|segs|], b))
    requires check == LineThrough(t, min, rp, n, Slope(t, min, max, verts[|segs|], n))
    requires fits == (SlopeBefore(segs, |segs|, -500.0) < check.slope < seg.slope)
    ensures Upper(t, max, min, rp, segs + [seg], verts + [b], checks + [check], Keep(kept, check, fits))
    ensures |segs| + 1 < RING && b < RING && (b != rp ==> |segs| + 2 < RING)
  {
    UpperWraps(t, max, min, rp, segs, verts, b, seg, n, check, fits);
    KeepStep(segs, checks, true, -500.0, kept, seg, check);
  }

  lemma UpperWraps(t: seq<real>, max: seq<real>, min: seq<real>, rp: nat, segs: seq<Segment>, verts: seq<nat>, b: nat, seg: Segment, n: nat, check: Segment, fits: bool)
    requires |t| == |max| == |min| == RING && rp < RING && Rising(t, rp) && Wrapped(t, max, rp, segs, verts)
    requires Best(Slopes(t, max, max, verts[|segs|]), rp, verts[|segs|], false, RING, b)
    requires Best(Slopes(t, min, max, verts[|segs|]), rp, verts[|segs|], true, RING, n)
    requires seg == LineThrough(t, max, rp, b, Slope(t, max, max, verts[|segs|], b))
    requires check == LineThrough(t, min, rp, n, Slope(t, min, max, verts[|segs|], n))
    requires fits ==> check.slope <= seg.slope && (segs != [] ==> segs[|segs| - 1].slope <= check.slope)
    ensures Wrapped(t, max, rp, segs + [seg], verts + [b])
    ensures |segs| + 1 < RING && b < RING && (b != rp ==> |segs| + 2 < RING)
    ensures fits ==> Crossing(t, max, min, rp, check)
  {
    var j := verts[|segs|];
    BestIsExtreme(Slopes(t, max, max, j), rp, j, false, b);
    BestIsExtreme(Slopes(t, min, max, j), rp, j, true, n);
    if fits { CheckCrosses(t, max, min, rp, segs, verts, b, n, check); }
    WrapStep(t, max, rp, segs, verts, b, seg);
    FewSegments(t, max, rp, segs + [seg], verts + [b]);
  }

  /** Vertices of increasing rank are at most sixteen. */
  lemma FewSegments(t: seq<real>, y: seq<real>, rp: nat, segs: seq<Segment>, verts: seq<nat>)
    requires |t| == |y| == RING && rp < RING && Wrapped(t, y, rp, segs, verts)
    ensures |segs| < RING && verts[|segs|] < RING && (verts[|segs|] != rp ==> |segs| < RING - 1)
  {
    RankSteps(rp, verts[|segs|]);
  }

  lemma UpperBegins(t: seq<real>, max: seq<real>, min: seq<real>, rp: nat) returns (inv: Progress)
    requires |t| == |max| == |min| == RING && rp < RING
    ensures UpperIs(inv, t, max, min, rp) && inv([], [NextUp(rp)], [], None)
  {
    inv := (segs, verts, checks, kept) => Upper(t, max, min, rp, segs, verts, checks, kept);
    assert Upper(t, max, min, rp, [], [NextUp(rp)], [], None);
  }

  /** Pass 2: the envelope of s.max, in at most 15 segments, stored from index 1 on. */
  method Pass2(t: seq<real>, max: seq<real>, min: seq<real>, rp: nat, maxseg: array<Segment>)
    returns (c: nat, saveMin: Option<Segment>, ghost segs: seq<Segment>, ghost verts: seq<nat>, ghost checks: seq<Segment>)
    requires |t| == |max| == |min| == RING && rp < RING && Rising(t, rp) && maxseg.Length == RING + 1
    modifies maxseg
    ensures 2 <= c <= RING && segs == maxseg[1..c]
    ensures Upper(t, max, min, rp, segs, verts, checks, saveMin) && |verts| == c && verts[c - 1] == rp
    ensures Checked(UpperCheck(t, max, min, rp), verts, checks)
  {
    ghost var inv := UpperBegins(t, max, min, rp);
    c, saveMin, segs, verts, checks := UpperLoop(t, max, min, rp, maxseg, UpperCheck(t, max, min, rp), inv);
    assert Upper(t, max, min, rp, segs, verts, checks, saveMin);
    assert maxseg[1..c] == segs;
  }

  /** Its loop from vertex to vertex; `ok` holds of the lines that it checks. */
  method UpperLoop(t: seq<real>, max: seq<real>, min: seq<real>, rp: nat, maxseg: array<Segment>, ghost ok: (nat, Segment) -> bool, ghost inv: Progress)
    returns (c: nat, saveMin: Option<Segment>, ghost segs: seq<Segment>, ghost verts: seq<nat>, ghost checks: seq<Segment>)
    requires |t| == |max| == |min| == RING && rp < RING && Rising(t, rp) && maxseg.Length == RING + 1
    requires forall j: nat, line :: IsCheck(t, min, max, rp, j, true, line) ==> ok(j, line)
    requires UpperIs(inv, t, max, min, rp) && inv([], [NextUp(rp)], [], None)
    modifies maxseg
    ensures 2 <= c <= RING && c == |segs| + 1 && forall q :: 0 <= q < |segs| ==> maxseg[q + 1] == segs[q]
    ensures inv(segs, verts, checks, saveMin) && |verts| == c && verts[c - 1] == rp && Checked(ok, verts, checks)
  {
    var j: nat := NextUp(rp);
    c, saveMin, verts, checks := 1, None, [j], [];
    var lastSlope := -2.0 * MAX_CORRECT;
    segs := [];
    while true
      invariant 1 <= c < RING && j < RING && j != rp && c == |segs| + 1
      invariant inv(segs, verts, checks, saveMin) && |verts| == c == |checks| + 1 && verts[c - 1] == j
      invariant lastSlope == SlopeBefore(segs, c - 1, -500.0) && Checked(ok, verts, checks)
      invariant forall q :: 0 <= q < |segs| ==> maxseg[q + 1] == segs[q]
      decreases RING - c
    {
      var nextj, seg;
      ghost var check;
      nextj, seg, saveMin, check := UpperCorner(t, max, min, rp, j, lastSlope, saveMin, segs, verts, checks, ok, inv);
      maxseg[c] := seg;
      segs, verts, checks := segs + [seg], verts + [nextj], checks + [check];
      c, lastSlope := c + 1, seg.slope;
      if nextj == rp { break; }
      j := nextj;
    }
  }

  // ---------------------------------------------------------------- pass 3, the mirror image

  function Neg(y: seq<real>): (r: seq<real>)
    requires |y| == RING
    ensures |r| == RING && forall k :: 0 <= k < RING ==> r[k] == -y[k]
  {
    seq(RING, k requires 0 <= k < RING => -y[k])
  }

  function NegSeg(seg: Segment): Segment {
    Segment(-seg.slope, -seg.offset)
  }

  function NegAll(segs: seq<Segment>): (r: seq<Segment>)
    ensures |r| == |segs| && forall q :: 0 <= q < |r| ==> r[q] == NegSeg(segs[q])
  {
    seq(|segs|, q requires 0 <= q < |segs| => NegSeg(segs[q]))
  }

  lemma NegLine(t: seq<real>, rp: nat, seg: Segment, k: nat)
    requires |t| == RING && rp < RING && k < RING
    ensures Line(t, rp, NegSeg(seg), k) == -Line(t, rp, seg, k)
  {
    assert -seg.slope * (t[k] - t[rp]) == -(seg.slope * (t[k] - t[rp]));
  }

  lemma NegQuotient(a: real, b: real)
    requires b != 0.0
    ensures -a / b == -(a / b)
  {
  }

  lemma NegSlope(t: seq<real>, y0: seq<real>, y1: seq<real>, j: nat, k: nat)
    requires |t| == |y0| == |y1| == RING && j < RING && k < RING
    ensures Slope(t, Neg(y0), Neg(y1), j, k) == -Slope(t, y0, y1, j, k)
  {
    if t[k] != t[j] {
      NegQuotient(y0[k] - y1[j], t[k] - t[j]);
      assert Neg(y0)[k] - Neg(y1)[j] == -(y0[k] - y1[j]);
    }
  }

  lemma NegThrough(t: seq<real>, y0: seq<real>, y1: seq<real>, rp: nat, j: nat, b: nat)
    requires |t| == |y0| == |y1| == RING && rp < RING && j < RING && b < RING
    ensures LineThrough(t, Neg(y0), rp, b, Slope(t, Neg(y0), Neg(y1), j, b)) == NegSeg(LineThrough(t, y0, rp, b, Slope(t, y0, y1, j, b)))
  {
    var m := Slope(t, y0, y1, j, b);
    NegSlope(t, y0, y1, j, b);
    assert -m * (t[rp] - t[b]) == -(m * (t[rp] - t[b]));
  }

  /** The extremes of a curve are those of its mirror image. */
  lemma NegExtreme(t: seq<real>, y0: seq<real>, y1: seq<real>, rp: nat, j: nat, b: nat)
    requires |t| == |y0| == |y1| == RING && rp < RING && j < RING
    ensures Highest(Slopes(t, y0, y1, j), rp, j, b) ==> Lowest(Slopes(t, Neg(y0), Neg(y1), j), rp, j, b)
    ensures Lowest(Slopes(t, y0, y1, j), rp, j, b) ==> Highest(Slopes(t, Neg(y0), Neg(y1), j), rp, j, b)
  {
    forall k | 0 <= k < RING ensures Slopes(t, Neg(y0), Neg(y1), j)[k] == -Slopes(t, y0, y1, j)[k] {
      NegSlope(t, y0, y1, j, k);
    }
  }

  /** Every point behind `j` is strictly below the last segment. */
  ghost predicate Clear(t: seq<real>, y: seq<real>, rp: nat, segs: seq<Segment>, j: nat)
    requires |t| == |y| == RING && rp < RING && j < RING
  {
    segs != [] ==> forall k :: 0 <= k < RING && Rank(rp, j) < Rank(rp, k) ==> y[k] < Line(t, rp, segs[|segs| - 1], k)
  }

  predicate Falling(segs: seq<Segment>) {
    forall q :: 0 < q < |segs| ==> segs[q].slope < segs[q - 1].slope
  }

  /**
   What pass 3 has found so far: the mirror image of pass 2 on s.min, except that the slopes
   strictly decrease, since among equal slopes the last point is taken.
   */
  ghost predicate Lower(t: seq<real>, max: seq<real>, min: seq<real>, rp: nat, segs: seq<Segment>, verts: seq<nat>, checks: seq<Segment>, kept: Option<Segment>)
    requires |t| == |max| == |min| == RING && rp < RING
  {
    && Wrapped(t, Neg(min), rp, NegAll(segs), verts) && Falling(segs) && Clear(t, min, rp, segs, verts[|segs|])
    && (kept.Some? ==> Crossing(t, Neg(min), Neg(max), rp, NegSeg(kept.value)))
    && |checks| == |segs| && Kept(segs, checks, false, 500.0, kept)
  }

  /** The last of the largest slopes leaves every later point strictly below its line. */
  lemma ClearStep(t: seq<real>, y: seq<real>, rp: nat, segs: seq<Segment>, j: nat, b: nat, seg: Segment)
    requires |t| == |y| == RING && rp < RING && j < RING && Rising(t, rp)
    requires Best(Slopes(t, y, y, j), rp, j, true, RING, b) && seg == LineThrough(t, y, rp, b, Slope(t, y, y, j, b))
    requires Clear(t, y, rp, segs, j) && (segs != [] ==> Touches(t, y, rp, segs[|segs| - 1], j))
    ensures Clear(t, y, rp, segs + [seg], b)
    ensures segs != [] ==> seg.slope < segs[|segs| - 1].slope
  {
    ThroughBoth(t, y, y, rp, j, b);
    forall k | 0 <= k < RING && Rank(rp, b) < Rank(rp, k) ensures y[k] < Line(t, rp, seg, k) {
      SteeperIffAbove(t, y, y, rp, seg, j, k);
      assert Slopes(t, y, y, j)[k] < Slopes(t, y, y, j)[b];
    }
    if segs != [] {
      SteeperIffAbove(t, y, y, rp, segs[|segs| - 1], j, b);
    }
  }

  lemma NegLastTouches(t: seq<real>, y: seq<real>, rp: nat, segs: seq<Segment>, verts: seq<nat>)
    requires |t| == |y| == RING && rp < RING && Wrapped(t, Neg(y), rp, NegAll(segs), verts)
    ensures segs != [] ==> Touches(t, y, rp, segs[|segs| - 1], verts[|segs|])
  {
    LastTouches(t, Neg(y), rp, NegAll(segs), verts);
    if segs != [] {
      NegLine(t, rp, segs[|segs| - 1], verts[|segs|]);
    }
  }

  /** `inv` is what pass 3 keeps. */
  ghost predicate LowerIs(inv: Progress, t: seq<real>, max: seq<real>, min: seq<real>, rp: nat)
    requires |t| == |max| == |min| == RING && rp < RING
  {
    forall segs, verts, checks, kept {:trigger Lower(t, max, min, rp, segs, verts, checks, kept)} ::
      inv(segs, verts, checks, kept) <==> Lower(t, max, min, rp, segs, verts, checks, kept)
  }

  /** One vertex of pass 3. */
  method LowerCorner(t: seq<real>, max: seq<real>, min: seq<real>, rp: nat, j: nat, lastSlope: real, saveMax: Option<Segment>,
      ghost segs: seq<Segment>, ghost verts: seq<nat>, ghost checks: seq<Segment>, ghost ok: (nat, Segment) -> bool, ghost inv: Progress)
    returns (nextj: nat, seg: Segment, saveMax': Option<Segment>, ghost check: Segment)
    requires |t| == |max| == |min| == RING && rp < RING && j < RING && j != rp && Rising(t, rp)
    requires LowerIs(inv, t, max, min, rp) && inv(segs, verts, checks, saveMax) && |verts| == |segs| + 1 && verts[|segs|] == j
    requires lastSlope == SlopeBefore(segs, |segs|, 500.0)
    requires forall j: nat, line :: IsCheck(t, max, min, rp, j, false, line) ==> ok(j, line)
    ensures ok(j, check)
    ensures inv(segs + [seg], verts + [nextj], checks + [check], saveMax')
    ensures |segs| + 1 < RING && nextj < RING && (nextj != rp ==> |segs| + 2 < RING)
  {
    assert Lower(t, max, min, rp, segs, verts, checks, saveMax);
    var n, ch;
    nextj, seg := Search(t, min, min, rp, j, true);
    n, ch := Search(t, max, min, rp, j, false);
    var fits := ch.slope > seg.slope && ch.slope < lastSlope;
    saveMax', check := Keep(saveMax, ch, fits), ch;
    assert IsCheck(t, max, min, rp, j, false, ch);
    LowerGrows(t, max, min, rp, segs, verts, checks, saveMax, nextj, seg, n, ch, fits);
  }

  /** One more segment of pass 3. */
  lemma LowerGrows(t: seq<real>, max: seq<real>, min: seq<real>, rp: nat, segs: seq<Segment>, verts: seq<nat>, checks: seq<Segment>, kept: Option<Segment>,
      b: nat, seg: Segment, n: nat, check: Segment, fits: bool)
    requires |t| == |max| == |min| == RING && rp < RING && Rising(t, rp) && Lower(t, max, min, rp, segs, verts, checks, kept)
    requires Best(Slopes(t, min, min, verts[|segs|]), rp, verts[|segs|], true, RING, b)
    requires Best(Slopes(t, max, min, verts[|segs|]), rp, verts[|segs|], false, RING, n)
    requires seg == LineThrough(t, min, rp, b, Slope(t, min, min, verts[|segs|], b))
    requires check == LineThrough(t, max, rp, n, Slope(t, max, min, verts[|segs|], n))
    requires fits == (seg.slope < check.slope < SlopeBefore(segs, |segs|, 500.0))
    ensures Lower(t, max, min, rp, segs + [seg], verts + [b], checks + [check], Keep(kept, check, fits))
    ensures |segs| + 1 < RING && b < RING && (b != rp ==> |segs| + 2 < RING)
  {
    LowerWraps(t, max, min, rp, segs, verts, b, seg);
    if fits { LowerCrosses(t, max, min, rp, segs, verts, b, seg, n, check); }
    LowerFalls(t, min, rp, segs, verts, b, seg);
    KeepStep(segs, checks, false, 500.0, kept, seg, check);
  }

  lemma LowerFalls(t: seq<real>, y: seq<real>, rp: nat, segs: seq<Segment>, verts: seq<nat>, b: nat, seg: Segment)
    requires |t| == |y| == RING && rp < RING && Rising(t, rp) && Wrapped(t, Neg(y), rp, NegAll(segs), verts)
    requires Best(Slopes(t, y, y, verts[|segs|]), rp, verts[|segs|], true, RING, b)
    requires seg == LineThrough(t, y, rp, b, Slope(t, y, y, verts[|segs|], b))
    requires Falling(segs) && Clear(t, y, rp, segs, verts[|segs|])
    ensures Falling(segs + [seg]) && Clear(t, y, rp, segs + [seg], b)
  {
    NegLastTouches(t, y, rp, segs, verts);
    ClearStep(t, y, rp, segs, verts[|segs|], b, seg);
  }

  lemma LowerWraps(t: seq<real>, max: seq<real>, min: seq<real>, rp: nat, segs: seq<Segment>, verts: seq<nat>, b: nat, seg: Segment)
    requires |t| == |max| == |min| == RING && rp < RING && Rising(t, rp) && Wrapped(t, Neg(min), rp, NegAll(segs), verts)
    requires Best(Slopes(t, min, min, verts[|segs|]), rp, verts[|segs|], true, RING, b)
    requires seg == LineThrough(t, min, rp, b, Slope(t, min, min, verts[|segs|], b))
    ensures Wrapped(t, Neg(min), rp, NegAll(segs + [seg]), verts + [b])
    ensures |segs| + 1 < RING && b < RING && (b != rp ==> |segs| + 2 < RING)
  {
    var j := verts[|segs|];
    BestIsExtreme(Slopes(t, min, min, j), rp, j, true, b);
    NegExtreme(t, min, min, rp, j, b);
    NegThrough(t, min, min, rp, j, b);
    NegSlope(t, min, min, j, b);
    WrapStep(t, Neg(min), rp, NegAll(segs), verts, b, NegSeg(seg));
    assert NegAll(segs + [seg]) == NegAll(segs) + [NegSeg(seg)];
    FewSegments(t, Neg(min), rp, NegAll(segs + [seg]), verts + [b]);
  }

  lemma LowerCrosses(t: seq<real>, max: seq<real>, min: seq<real>, rp: nat, segs: seq<Segment>, verts: seq<nat>, b: nat, seg: Segment, n: nat, check: Segment)
    requires |t| == |max| == |min| == RING && rp < RING && Rising(t, rp) && Wrapped(t, Neg(min), rp, NegAll(segs), verts)
    requires Best(Slopes(t, min, min, verts[|segs|]), rp, verts[|segs|], true, RING, b)
    requires Best(Slopes(t, max, min, verts[|segs|]), rp, verts[|segs|], false, RING, n)
    requires seg == LineThrough(t, min, rp, b, Slope(t, min, min, verts[|segs|], b))
    requires check == LineThrough(t, max, rp, n, Slope(t, max, min, verts[|segs|], n))
    requires seg.slope <= check.slope && (segs != [] ==> check.slope <= segs[|segs| - 1].slope)
    ensures Crossing(t, Neg(min), Neg(max), rp, NegSeg(check))
  {
    var j := verts[|segs|];
    BestIsExtreme(Slopes(t, min, min, j), rp, j, true, b);
    BestIsExtreme(Slopes(t, max, min, j), rp, j, false, n);
    NegExtreme(t, min, min, rp, j, b);
    NegExtreme(t, max, min, rp, j, n);
    NegThrough(t, max, min, rp, j, n);
    NegSlope(t, min, min, j, b);
    CheckCrosses(t, Neg(min), Neg(max), rp, NegAll(segs), verts, b, n, NegSeg(check));
  }

  lemma LowerBegins(t: seq<real>, max: seq<real>, min: seq<real>, rp: nat) returns (inv: Progress)
    requires |t| == |max| == |min| == RING && rp < RING
    ensures LowerIs(inv, t, max, min, rp) && inv([], [NextUp(rp)], [], None)
  {
    inv := (segs, verts, checks, kept) => Lower(t, max, min, rp, segs, verts, checks, kept);
    assert Lower(t, max, min, rp, [], [NextUp(rp)], [], None);
  }

  /** Pass 3: the envelope of s.min, in at most 15 segments, stored from index 1 on. */
  method Pass3(t: seq<real>, max: seq<real>, min: seq<real>, rp: nat, minseg: array<Segment>)
    returns (c: nat, saveMax: Option<Segment>, ghost segs: seq<Segment>, ghost verts: seq<nat>, ghost checks: seq<Segment>)
    requires |t| == |max| == |min| == RING && rp < RING && Rising(t, rp) && minseg.Length == RING + 1
    modifies minseg
    ensures 2 <= c <= RING && segs == minseg[1..c]
    ensures Lower(t, max, min, rp, segs, verts, checks, saveMax) && |verts| == c && verts[c - 1] == rp
    ensures Checked(LowerCheck(t, max, min, rp), verts, checks)
  {
    ghost var inv := LowerBegins(t, max, min, rp);
    c, saveMax, segs, verts, checks := LowerLoop(t, max, min, rp, minseg, LowerCheck(t, max, min, rp), inv);
    assert Lower(t, max, min, rp, segs, verts, checks, saveMax);
    assert minseg[1..c] == segs;
  }

  /** Its loop from vertex to vertex; `ok` holds of the lines that it checks. */
  method LowerLoop(t: seq<real>, max: seq<real>, min: seq<real>, rp: nat, minseg: array<Segment>, ghost ok: (nat, Segment) -> bool, ghost inv: Progress)
    returns (c: nat, saveMax: Option<Segment>, ghost segs: seq<Segment>, ghost verts: seq<nat>, ghost checks: seq<Segment>)
    requires |t| == |max| == |min| == RING && rp < RING && Rising(t, rp) && minseg.Length == RING + 1
    requires forall j: nat, line :: IsCheck(t, max, min, rp, j, false, line) ==> ok(j, line)
    requires LowerIs(inv, t, max, min, rp) && inv([], [NextUp(rp)], [], None)
    modifies minseg
    ensures 2 <= c <= RING && c == |segs| + 1 && forall q :: 0 <= q < |segs| ==> minseg[q + 1] == segs[q]
    ensures inv(segs, verts, checks, saveMax) && |verts| == c && verts[c - 1] == rp && Checked(ok, verts, checks)
  {
    var j: nat := NextUp(rp);
    c, saveMax, verts, checks := 1, None, [j], [];
    var lastSlope := 2.0 * MAX_CORRECT;
    segs := [];
    while true
      invariant 1 <= c < RING && j < RING && j != rp && c == |segs| + 1
      invariant inv(segs, verts, checks, saveMax) && |verts| == c == |checks| + 1 && verts[c - 1] == j
      invariant lastSlope == SlopeBefore(segs, c - 1, 500.0) && Checked(ok, verts, checks)
      invariant forall q :: 0 <= q < |segs| ==> minseg[q + 1] == segs[q]
      decreases RING - c
    {
      var nextj, seg;
      ghost var check;
      nextj, seg, saveMax, check := LowerCorner(t, max, min, rp, j, lastSlope, saveMax, segs, verts, checks, ok, inv);
      minseg[c] := seg;
      segs, verts, checks := segs + [seg], verts + [nextj], checks + [check];
      c, lastSlope := c + 1, seg.slope;
      if nextj == rp { break; }
      j := nextj;
    }
  }

  /** The outcome of pass 3 in the terms of s.min itself. */
  lemma LowerMeans(t: seq<real>, max: seq<real>, min: seq<real>, rp: nat, segs: seq<Segment>, verts: seq<nat>, checks: seq<Segment>, kept: Option<Segment>)
    requires |t| == |max| == |min| == RING && rp < RING && Lower(t, max, min, rp, segs, verts, checks, kept)
    ensures |segs| < RING && Falling(segs)
    ensures forall q, k :: 0 <= q < |segs| && 0 <= k < RING ==> min[k] <= Line(t, rp, segs[q], k)
    ensures forall q :: 0 <= q < |segs| ==> Touches(t, min, rp, segs[q], verts[q]) && Touches(t, min, rp, segs[q], verts[q + 1])
    ensures kept.Some? ==> forall k :: 0 <= k < RING ==> min[k] <= Line(t, rp, kept.value, k)
  {
    FewSegments(t, Neg(min), rp, NegAll(segs), verts);
    forall q, k | 0 <= q < |segs| && 0 <= k < RING ensures min[k] <= Line(t, rp, segs[q], k) {
      assert Spans(t, Neg(min), rp, NegAll(segs)[q], verts[q], verts[q + 1]);
      NegLine(t, rp, segs[q], k);
    }
    forall q | 0 <= q < |segs| ensures Touches(t, min, rp, segs[q], verts[q]) && Touches(t, min, rp, segs[q], verts[q + 1]) {
      assert Spans(t, Neg(min), rp, NegAll(segs)[q], verts[q], verts[q + 1]);
      NegLine(t, rp, segs[q], verts[q]);
      NegLine(t, rp, segs[q], verts[q + 1]);
    }
    if kept.Some? {
      forall k | 0 <= k < RING ensures min[k] <= Line(t, rp, kept.value, k) {
        NegLine(t, rp, kept.value, k);
      }
    }
  }
}
