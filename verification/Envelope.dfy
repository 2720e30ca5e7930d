/**
 Gift-wrapping of the measurement curves: pass 2 finds the envelope of s.max from below, pass 3
 the envelope of s.min from above, both from the oldest measurement to the newest.
 */
module Envelope {
  import opened Wrappers
  import opened PhaseLock

  // ---------------------------------------------------------------- lines and points

  /** The line goes through the point `k` of the curve. */
  ghost predicate Touches(t: seq<real>, y: seq<real>, rp: nat, seg: Segment, k: nat)
    requires |t| == |y| == RING && rp < RING
  {
    k < RING && Line(t, rp, seg, k) == y[k]
  }

  /** No point of the curve lies below the line. */
  ghost predicate Below(t: seq<real>, y: seq<real>, rp: nat, seg: Segment)
    requires |t| == |y| == RING && rp < RING
  {
    forall k :: 0 <= k < RING ==> Line(t, rp, seg, k) <= y[k]
  }

  /** A line relative to a point that it touches. */
  lemma LineFrom(t: seq<real>, y: seq<real>, rp: nat, seg: Segment, j: nat, k: nat)
    requires |t| == |y| == RING && rp < RING && k < RING && Touches(t, y, rp, seg, j)
    ensures Line(t, rp, seg, k) == y[j] + seg.slope * (t[k] - t[j])
  {
    assert seg.slope * (t[k] - t[rp]) - seg.slope * (t[j] - t[rp]) == seg.slope * (t[k] - t[j]);
  }

  lemma SlopeTimesDistance(dy: real, dt: real)
    requires dt != 0.0
    ensures dy / dt * dt == dy
  {
  }

  /** The line from point `j` of one curve to point `b` of another, as search computes it, touches both. */
  lemma ThroughBoth(t: seq<real>, y0: seq<real>, y1: seq<real>, rp: nat, j: nat, b: nat)
    requires |t| == |y0| == |y1| == RING && rp < RING && j < RING && b < RING && t[j] != t[b]
    ensures var seg := LineThrough(t, y0, rp, b, Slope(t, y0, y1, j, b)); Touches(t, y0, rp, seg, b) && Touches(t, y1, rp, seg, j)
  {
    var m := Slope(t, y0, y1, j, b);
    var seg := LineThrough(t, y0, rp, b, m);
    assert m * (t[rp] - t[b]) + m * (t[b] - t[rp]) == 0.0;
    assert Touches(t, y0, rp, seg, b);
    LineFrom(t, y0, rp, seg, b, j);
    SlopeTimesDistance(y0[b] - y1[j], t[b] - t[j]);
    assert m * (t[j] - t[b]) == -(m * (t[b] - t[j]));
  }

  lemma Scale(a: real, b: real, d: real)
    requires d > 0.0
    ensures a <= b <==> a * d <= b * d
    ensures a * -d == -(a * d) && b * -d == -(b * d)
  {
    if a < b { assert (b - a) * d > 0.0; }
    if a > b { assert (a - b) * d > 0.0; }
  }

  /** A line through `j` passes below a later point exactly when it is less steep than the line from `j` to that point. */
  lemma SteeperIffAbove(t: seq<real>, y0: seq<real>, y1: seq<real>, rp: nat, seg: Segment, j: nat, k: nat)
    requires |t| == |y0| == |y1| == RING && rp < RING && j < RING && k < RING && t[j] < t[k] && Touches(t, y1, rp, seg, j)
    ensures Line(t, rp, seg, k) <= y0[k] <==> seg.slope <= Slope(t, y0, y1, j, k)
    ensures Line(t, rp, seg, k) >= y0[k] <==> seg.slope >= Slope(t, y0, y1, j, k)
  {
    var m := Slope(t, y0, y1, j, k);
    LineFrom(t, y1, rp, seg, j, k);
    SlopeTimesDistance(y0[k] - y1[j], t[k] - t[j]);
    Scale(seg.slope, m, t[k] - t[j]);
    Scale(m, seg.slope, t[k] - t[j]);
  }

  /** Of two lines through `j`, the steeper one is below the other one before `j`. */
  lemma SteeperIsBelowBefore(t: seq<real>, y: seq<real>, rp: nat, last: Segment, seg: Segment, j: nat, k: nat)
    requires |t| == |y| == RING && rp < RING && j < RING && k < RING && t[k] <= t[j]
    requires Touches(t, y, rp, last, j) && Touches(t, y, rp, seg, j) && last.slope <= seg.slope
    ensures Line(t, rp, seg, k) <= Line(t, rp, last, k)
  {
    LineFrom(t, y, rp, seg, j, k);
    LineFrom(t, y, rp, last, j, k);
    if t[k] < t[j] {
      Scale(last.slope, seg.slope, t[j] - t[k]);
      assert t[k] - t[j] == -(t[j] - t[k]);
    }
  }

  // ---------------------------------------------------------------- one step of the wrapping

  /** No point behind `j` is reached by a smaller slope than `b`. */
  ghost predicate Lowest(f: seq<real>, rp: nat, j: nat, b: nat)
    requires |f| == RING && rp < RING && j < RING
  {
    b < RING && Rank(rp, j) < Rank(rp, b) &&
    forall k :: 0 <= k < RING && Rank(rp, j) < Rank(rp, k) ==> f[b] <= f[k]
  }

  /** After a line below all points that touches `j`, the next line is at least as steep. */
  lemma SlopesGrow(t: seq<real>, y: seq<real>, rp: nat, j: nat, b: nat, last: Segment)
    requires |t| == |y| == RING && rp < RING && j < RING && b < RING && Rising(t, rp) && Rank(rp, j) < Rank(rp, b)
    requires Below(t, y, rp, last) && Touches(t, y, rp, last, j)
    ensures last.slope <= Slope(t, y, y, j, b)
  {
    SteeperIffAbove(t, y, y, rp, last, j, b);
  }

  /** A line through `j` no steeper than the next segment and no less steep than the last one is below all points. */
  lemma BetweenIsBelow(t: seq<real>, y: seq<real>, rp: nat, j: nat, b: nat, last: Option<Segment>, seg: Segment)
    requires |t| == |y| == RING && rp < RING && j < RING && Rising(t, rp)
    requires Lowest(Slopes(t, y, y, j), rp, j, b) && Touches(t, y, rp, seg, j) && seg.slope <= Slope(t, y, y, j, b)
    requires last.None? ==> j == NextUp(rp)
    requires last.Some? ==> Below(t, y, rp, last.value) && Touches(t, y, rp, last.value, j) && last.value.slope <= seg.slope
    ensures Below(t, y, rp, seg)
  {
    forall k | 0 <= k < RING ensures Line(t, rp, seg, k) <= y[k] {
      if Rank(rp, j) < Rank(rp, k) {
        SteeperIffAbove(t, y, y, rp, seg, j, k);
        assert Slopes(t, y, y, j)[b] <= Slopes(t, y, y, j)[k];
      } else if k != j {
        RankSteps(rp, k);
        EarlierRank(rp, j, k);
        assert last.Some?;
        SteeperIsBelowBefore(t, y, rp, last.value, seg, j, k);
      }
    }
  }

  lemma EarlierRank(rp: nat, j: nat, k: nat)
    requires rp < RING && j < RING && k < RING && j != k && Rank(rp, k) <= Rank(rp, j)
    ensures Rank(rp, k) < Rank(rp, j) && j != NextUp(rp)
  {
  }

  // ---------------------------------------------------------------- the envelope

  /**
   The segments lead from vertex to vertex, starting at the oldest measurement; each touches the
   curve at both ends and is below it everywhere, and their slopes do not decrease.
   */
  ghost predicate Wrapped(t: seq<real>, y: seq<real>, rp: nat, segs: seq<Segment>, verts: seq<nat>)
    requires |t| == |y| == RING && rp < RING
  {
    && |verts| == |segs| + 1 && verts[0] == NextUp(rp)
    && (forall q :: 0 <= q < |verts| ==> verts[q] < RING && q <= Rank(rp, verts[q]))
    && (forall q :: 0 <= q < |segs| ==> Spans(t, y, rp, segs[q], verts[q], verts[q + 1]))
    && (forall q :: 0 < q < |segs| ==> segs[q - 1].slope <= segs[q].slope)
  }

  ghost predicate Spans(t: seq<real>, y: seq<real>, rp: nat, seg: Segment, j: nat, b: nat)
    requires |t| == |y| == RING && rp < RING
  {
    && j < RING && b < RING && Rank(rp, j) < Rank(rp, b)
    && Touches(t, y, rp, seg, j) && Touches(t, y, rp, seg, b) && Below(t, y, rp, seg)
  }

  ghost function Last(segs: seq<Segment>): Option<Segment> {
    if segs == [] then None else Some(segs[|segs| - 1])
  }

  lemma LastTouches(t: seq<real>, y: seq<real>, rp: nat, segs: seq<Segment>, verts: seq<nat>)
    requires |t| == |y| == RING && rp < RING && Wrapped(t, y, rp, segs, verts)
    ensures segs == [] ==> verts[|segs|] == NextUp(rp)
    ensures segs != [] ==> Below(t, y, rp, Last(segs).value) && Touches(t, y, rp, Last(segs).value, verts[|segs|])
  {
    if segs != [] {
      assert Spans(t, y, rp, segs[|segs| - 1], verts[|segs| - 1], verts[|segs|]);
    }
  }

  lemma WrapStep(t: seq<real>, y: seq<real>, rp: nat, segs: seq<Segment>, verts: seq<nat>, b: nat, seg: Segment)
    requires |t| == |y| == RING && rp < RING && Rising(t, rp) && Wrapped(t, y, rp, segs, verts)
    requires Lowest(Slopes(t, y, y, verts[|segs|]), rp, verts[|segs|], b)
    requires seg == LineThrough(t, y, rp, b, Slope(t, y, y, verts[|segs|], b))
    ensures Wrapped(t, y, rp, segs + [seg], verts + [b])
  {
    var j, last := verts[|segs|], Last(segs);
    LastTouches(t, y, rp, segs, verts);
    ThroughBoth(t, y, y, rp, j, b);
    if last.Some? { SlopesGrow(t, y, rp, j, b, last.value); }
    BetweenIsBelow(t, y, rp, j, b, last, seg);
    assert Spans(t, y, rp, seg, j, b);
    var segs', verts' := segs + [seg], verts + [b];
    forall q | 0 <= q < |segs'| ensures Spans(t, y, rp, segs'[q], verts'[q], verts'[q + 1]) {
      if q < |segs| {
        assert Spans(t, y, rp, segs[q], verts[q], verts[q + 1]);
      }
    }
  }

  /** A line that touches `above` at a point and is nowhere above it, and that touches `below` later and is not below it from there on. */
  ghost predicate Crossing(t: seq<real>, above: seq<real>, below: seq<real>, rp: nat, seg: Segment)
    requires |t| == |above| == |below| == RING && rp < RING
  {
    Below(t, above, rp, seg) && exists j, n :: CrossesAt(t, above, below, rp, seg, j, n)
  }

  ghost predicate CrossesAt(t: seq<real>, above: seq<real>, below: seq<real>, rp: nat, seg: Segment, j: nat, n: nat)
    requires |t| == |above| == |below| == RING && rp < RING
  {
    && j < RING && n < RING && Rank(rp, j) < Rank(rp, n)
    && Touches(t, above, rp, seg, j) && Touches(t, below, rp, seg, n)
    && forall k :: 0 <= k < RING && Rank(rp, j) < Rank(rp, k) ==> Line(t, rp, seg, k) >= below[k]
  }

  /** The line of the largest slope to the other curve crosses, when its slope is between those of the two segments at `j`. */
  lemma CheckCrosses(t: seq<real>, above: seq<real>, below: seq<real>, rp: nat, segs: seq<Segment>, verts: seq<nat>, b: nat, n: nat, check: Segment)
    requires |t| == |above| == |below| == RING && rp < RING && Rising(t, rp) && Wrapped(t, above, rp, segs, verts)
    requires Lowest(Slopes(t, above, above, verts[|segs|]), rp, verts[|segs|], b)
    requires Highest(Slopes(t, below, above, verts[|segs|]), rp, verts[|segs|], n)
    requires check == LineThrough(t, below, rp, n, Slope(t, below, above, verts[|segs|], n))
    requires check.slope <= Slope(t, above, above, verts[|segs|], b) && (segs != [] ==> Last(segs).value.slope <= check.slope)
    ensures Crossing(t, above, below, rp, check)
  {
    var j := verts[|segs|];
    LastTouches(t, above, rp, segs, verts);
    ThroughBoth(t, below, above, rp, j, n);
    BetweenIsBelow(t, above, rp, j, b, Last(segs), check);
    forall k | 0 <= k < RING && Rank(rp, j) < Rank(rp, k) ensures Line(t, rp, check, k) >= below[k] {
      SteeperIffAbove(t, below, above, rp, check, j, k);
      assert Slopes(t, below, above, j)[k] <= Slopes(t, below, above, j)[n];
    }
    assert CrossesAt(t, above, below, rp, check, j, n);
  }

  ghost predicate Highest(f: seq<real>, rp: nat, j: nat, b: nat)
    requires |f| == RING && rp < RING && j < RING
  {
    b < RING && Rank(rp, j) < Rank(rp, b) &&
    forall k :: 0 <= k < RING && Rank(rp, j) < Rank(rp, k) ==> f[k] <= f[b]
  }

  lemma BestIsExtreme(f: seq<real>, rp: nat, j: nat, sign: bool, b: nat)
    requires |f| == RING && rp < RING && j < RING && Best(f, rp, j, sign, RING, b)
    ensures if sign then Highest(f, rp, j, b) else Lowest(f, rp, j, b)
  {
  }
}
