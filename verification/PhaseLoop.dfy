/** The phase lock loop over a whole run: storing a measurement, correcting the ring, finding both envelopes. */
module PhaseLoop {
  import opened Wrappers
  import opened PhaseLock
  import opened PhasePasses

  /** A measurement; `min` and `max` are its skew limits corrected for frequency changes. */
  datatype Sample = Sample(absolute: int, skew: real, errorbar: real, freq: int, min: real, max: real)

  function Times(d: seq<Sample>): (t: seq<real>)
    requires |d| == RING
    ensures |t| == RING && forall k :: 0 <= k < RING ==> t[k] == d[k].absolute as real
  {
    seq(RING, k requires 0 <= k < RING => d[k].absolute as real)
  }

  function Maxima(d: seq<Sample>): (y: seq<real>)
    requires |d| == RING
    ensures |y| == RING && forall k :: 0 <= k < RING ==> y[k] == d[k].max
  {
    seq(RING, k requires 0 <= k < RING => d[k].max)
  }

  function Minima(d: seq<Sample>): (y: seq<real>)
    requires |d| == RING
    ensures |y| == RING && forall k :: 0 <= k < RING ==> y[k] == d[k].min
  {
    seq(RING, k requires 0 <= k < RING => d[k].min)
  }

  // ---------------------------------------------------------------- pass 1

  /** What a frequency offset against `freq` adds to the skew between two measurements. */
  function Drift(older: Sample, newer: Sample, freq: int): real {
    (newer.absolute - older.absolute) as real * (newer.freq - freq) as real / 65536.0
  }

  /** The centre of the corrected limits. */
  function Centre(s: Sample): real {
    (s.max + s.min) / 2.0
  }

  /** Only the corrected limits may differ. */
  ghost predicate SameData(s: Sample, s': Sample) {
    s' == s.(min := s'.min, max := s'.max)
  }

  ghost predicate Centred(s: Sample, cum: real) {
    s.max == s.skew - cum + s.errorbar && s.min == s.skew - cum - s.errorbar
  }

  /**
   The ring is corrected to the current frequency: limits are one error bar around the centre,
   the newest centre is the newest skew, and from one measurement to the next the centre moves
   by the change of the skew and the drift of the frequency that held between them.
   */
  ghost predicate Corrected(d: seq<Sample>, rp: nat, freq: int)
    requires |d| == RING && rp < RING
  {
    && (forall k :: 0 <= k < RING ==> d[k].max - d[k].min == 2.0 * d[k].errorbar)
    && Centre(d[rp]) == d[rp].skew
    && (forall k :: 0 <= k < RING && k != NextUp(rp) ==> MovesWithDrift(d[NextDown(k)], d[k], freq))
  }

  ghost predicate MovesWithDrift(older: Sample, newer: Sample, freq: int) {
    Centre(newer) - Centre(older) == newer.skew - older.skew + (newer.absolute - older.absolute) as real * (newer.freq - freq) as real / 65536.0
  }

  lemma CentredMoves(s0: Sample, s1: Sample, s0': Sample, s1': Sample, c0: real, c1: real, freq: int)
    requires SameData(s0, s0') && SameData(s1, s1') && Centred(s0', c0) && Centred(s1', c1)
    requires c0 == c1 + Drift(s0, s1, freq)
    ensures MovesWithDrift(s0', s1', freq)
  {
    assert Drift(s0', s1', freq) == Drift(s0, s1, freq);
    assert Centre(s0') == s0'.skew - c0 && Centre(s1') == s1'.skew - c1;
  }

  /** The measurements of rank `p` and more have been corrected by `cums`, which add up the drifts down to rank `q`. */
  ghost predicate CorrectedFrom(d: seq<Sample>, d': seq<Sample>, rp: nat, freq: int, cums: seq<real>, p: nat, q: nat)
    requires |d| == |d'| == |cums| == RING && rp < RING
  {
    && cums[rp] == 0.0
    && (forall k :: 0 <= k < RING ==> SameData(d[k], d'[k]))
    && (forall k :: 0 <= k < RING && Rank(rp, k) >= p ==> Centred(d'[k], cums[k]))
    && (forall k :: 0 <= k < RING && Rank(rp, k) > q ==> AddsUp(d, freq, cums, k))
  }

  ghost predicate AddsUp(d: seq<Sample>, freq: int, cums: seq<real>, k: nat)
    requires |d| == |cums| == RING && k < RING
  {
    cums[NextDown(k)] == cums[k] + Drift(d[NextDown(k)], d[k], freq)
  }

  lemma RankDown(rp: nat, j: nat)
    requires rp < RING && j < RING
    ensures NextDown(j) == rp <==> Rank(rp, j) == 0
    ensures NextDown(j) != rp ==> Rank(rp, NextDown(j)) == Rank(rp, j) - 1
  {
  }

  /** The limits of measurement `j` are set. */
  lemma SetStep(d: seq<Sample>, d0: seq<Sample>, rp: nat, freq: int, cums: seq<real>, j: nat, s: Sample)
    requires |d| == |d0| == |cums| == RING && rp < RING && j < RING
    requires CorrectedFrom(d, d0, rp, freq, cums, Rank(rp, j) + 1, Rank(rp, j)) && SameData(d0[j], s) && Centred(s, cums[j])
    ensures CorrectedFrom(d, d0[j := s], rp, freq, cums, Rank(rp, j), Rank(rp, j))
  {
    forall k | 0 <= k < RING && Rank(rp, k) >= Rank(rp, j) ensures Centred(d0[j := s][k], cums[k]) {
      if k != j { RankIsInjective(rp, j, k); }
    }
  }

  /** The drift before measurement `j` is added. */
  lemma AddStep(d: seq<Sample>, d': seq<Sample>, rp: nat, freq: int, cums: seq<real>, j: nat, n: nat)
    requires |d| == |d'| == |cums| == RING && rp < RING && j < RING && n == NextDown(j) && n != rp
    requires CorrectedFrom(d, d', rp, freq, cums, Rank(rp, j), Rank(rp, j))
    ensures CorrectedFrom(d, d', rp, freq, cums[n := cums[j] + Drift(d[n], d[j], freq)], Rank(rp, n) + 1, Rank(rp, n))
  {
    RankDown(rp, j);
    var cums' := cums[n := cums[j] + Drift(d[n], d[j], freq)];
    forall k | 0 <= k < RING && Rank(rp, k) > Rank(rp, n) ensures AddsUp(d, freq, cums', k) && k != n {
      if k != j {
        RankIsInjective(rp, j, k);
        RankDown(rp, k);
        assert AddsUp(d, freq, cums, k);
      }
    }
  }

  lemma CorrectedFromAll(d: seq<Sample>, d': seq<Sample>, rp: nat, freq: int, cums: seq<real>)
    requires |d| == |d'| == |cums| == RING && rp < RING && CorrectedFrom(d, d', rp, freq, cums, 0, 0)
    ensures Corrected(d', rp, freq)
  {
    assert SameData(d[rp], d'[rp]) && Centred(d'[rp], cums[rp]);
    forall k | 0 <= k < RING && k != NextUp(rp) ensures MovesWithDrift(d'[NextDown(k)], d'[k], freq) {
      var n := NextDown(k);
      RankDown(rp, k);
      assert AddsUp(d, freq, cums, k);
      CentredMoves(d[n], d[k], d'[n], d'[k], cums[n], cums[k], freq);
    }
  }

  class Loop {
    const ring: array<Sample>
    const maxseg: array<Segment>
    const minseg: array<Segment>
    var rp: nat
    var valid: nat

    /** The ring index of the newest measurement. */
    ghost function Newest(): (r: nat)
      requires rp < RING
      reads this
      ensures r < RING
    {
      NextDown(rp)
    }

    /** The newest `valid` measurements are in the order of their times. */
    ghost predicate Valid()
      reads this, ring
    {
      && ring.Length == RING && maxseg.Length == RING + 1 && minseg.Length == RING + 1 && maxseg != minseg
      && rp < RING && valid <= RING
      && InOrder(ring[..], Newest(), valid)
    }

    constructor ()
      ensures Valid() && valid == 0
    {
      ring := new Sample[RING](_ => Sample(0, 0.0, 0.0, 0, 0.0, 0.0));
      maxseg := new Segment[RING + 1](_ => Segment(0.0, 0.0));
      minseg := new Segment[RING + 1](_ => Segment(0.0, 0.0));
      rp, valid := 0, 0;
    }

    /** One measurement of pass 1: set its limits, and add the drift since the one before. */
    method CorrectOne(j: nat, cum: real, freq: int, ghost d: seq<Sample>, ghost cums: seq<real>)
      returns (n: nat, cum': real, ghost cums': seq<real>)
      requires ring.Length == |d| == |cums| == RING && rp < RING && j < RING && cum == cums[j]
      requires CorrectedFrom(d, ring[..], rp, freq, cums, Rank(rp, j) + 1, Rank(rp, j))
      modifies ring
      ensures n == NextDown(j) && |cums'| == RING
      ensures n == rp ==> CorrectedFrom(d, ring[..], rp, freq, cums', 0, 0)
      ensures n != rp ==> cum' == cums'[n] && CorrectedFrom(d, ring[..], rp, freq, cums', Rank(rp, n) + 1, Rank(rp, n))
    {
      SetStep(d, ring[..], rp, freq, cums, j, Limited(ring[j], cum));
      ring[j] := Limited(ring[j], cum);
      RankDown(rp, j);
      n, cum', cums' := NextDown(j), cum, cums;
      if n == rp { return; }
      AddStep(d, ring[..], rp, freq, cums, j, n);
      SameDrift(d[n], d[j], ring[n], ring[j], freq);
      cum' := cum + Drift(ring[n], ring[j], freq);
      cums' := cums[n := cum'];
    }

    /** Pass 1: from the newest measurement back to the oldest. */
    method Pass1(freq: int)
      requires ring.Length == RING && rp < RING
      modifies ring
      ensures Corrected(ring[..], rp, freq)
      ensures forall k :: 0 <= k < RING ==> SameData(old(ring[k]), ring[k])
    {
      ghost var d := ring[..];
      var cum := 0.0;
      var j: nat := rp;
      ghost var cums := seq(RING, _ => 0.0);
      RankSteps(rp, rp);
      while true
        invariant j < RING && |cums| == RING && cum == cums[j]
        invariant CorrectedFrom(d, ring[..], rp, freq, cums, Rank(rp, j) + 1, Rank(rp, j))
        decreases Rank(rp, j)
      {
        var n;
        n, cum, cums := CorrectOne(j, cum, freq, d, cums);
        if n == rp { break; }
        RankDown(rp, j);
        j := n;
      }
      CorrectedFromAll(d, ring[..], rp, freq, cums);
    }

    /** The first lines of contemplate_data: the new measurement replaces the oldest. */
    method Store(absolute: int, skew: real, errorbar: real, freq: int)
      requires Valid() && (valid > 0 ==> ring[Newest()].absolute < absolute)
      modifies ring, this`valid
      ensures valid == if old(valid) < RING then old(valid) + 1 else RING
      ensures SameData(Sample(absolute, skew, errorbar - 800.0, freq, 0.0, 0.0), ring[rp])
      ensures forall k :: 0 <= k < RING && k != rp ==> ring[k] == old(ring[k])
      ensures InOrder(ring[..], rp, valid)
    {
      ghost var d := ring[..];
      var s := ring[rp].(absolute := absolute, skew := skew, errorbar := errorbar - 800.0, freq := freq);
      OrderStep(d, rp, valid, s);
      ring[rp] := s;
      if valid < RING { valid := valid + 1; }
      assert ring[..] == d[rp := s];
    }

    /**
     contemplate_data up to its third pass, for times that increase from call to call: once the
     ring is full, every call corrects it and finds both envelopes.
     */
    method Contemplate(absolute: int, skew: real, errorbar: real, freq: int)
      returns (full: bool, maxAvail: nat, minAvail: nat, saveMin: Option<Segment>, saveMax: Option<Segment>, ghost upper: Trace, ghost lower: Trace,
        ghost curves: Curves)
      requires Valid() && (valid > 0 ==> ring[Newest()].absolute < absolute)
      modifies this, ring, maxseg, minseg
      ensures Valid() && rp == NextUp(old(rp)) && full == (valid == 16)
      ensures valid == if old(valid) < RING then old(valid) + 1 else RING
      ensures SameData(Sample(absolute, skew, errorbar - 800.0, freq, 0.0, 0.0), ring[Newest()])
      ensures forall k :: 0 <= k < RING && k != Newest() ==> SameData(old(ring[k]), ring[k])
      ensures full ==> Corrected(ring[..], Newest(), freq) && curves == CurvesOf(ring[..])
      ensures full ==> 2 <= maxAvail <= RING && upper.segs == maxseg[1..maxAvail] && FoundUpper(curves, Newest(), upper, saveMin)
      ensures full ==> 2 <= minAvail <= RING && lower.segs == minseg[1..minAvail] && FoundLower(curves, Newest(), lower, saveMax)
    {
      maxAvail, minAvail, saveMin, saveMax := 0, 0, None, None;
      upper, lower, curves := Trace([], [], []), Trace([], [], []), Curves([], [], []);
      Store(absolute, skew, errorbar, freq);
      full := valid == RING;
      if full {
        maxAvail, minAvail, saveMin, saveMax, upper, lower, curves := Analyse(freq);
      }
      rp := NextUp(rp);
    }

    /** The three passes over a full ring whose newest measurement is at `rp`. */
    method Analyse(freq: int)
      returns (maxAvail: nat, minAvail: nat, saveMin: Option<Segment>, saveMax: Option<Segment>, ghost upper: Trace, ghost lower: Trace, ghost curves: Curves)
      requires ring.Length == RING && maxseg.Length == RING + 1 && minseg.Length == RING + 1 && maxseg != minseg
      requires rp < RING && InOrder(ring[..], rp, RING)
      modifies ring, maxseg, minseg
      ensures InOrder(ring[..], rp, RING) && Corrected(ring[..], rp, freq) && curves == CurvesOf(ring[..])
      ensures forall k :: 0 <= k < RING ==> SameData(old(ring[k]), ring[k])
      ensures 2 <= maxAvail <= RING && upper.segs == maxseg[1..maxAvail] && FoundUpper(curves, rp, upper, saveMin)
      ensures 2 <= minAvail <= RING && lower.segs == minseg[1..minAvail] && FoundLower(curves, rp, lower, saveMax)
    {
      ghost var d := ring[..];
      Pass1(freq);
      OrderKeeps(d, ring[..], rp, RING);
      OrderRises(ring[..], rp);
      var c := CurvesOf(ring[..]);
      curves := c;
      maxAvail, minAvail, saveMin, saveMax, upper, lower := Envelopes(c);
    }

    /** Passes 2 and 3. */
    method Envelopes(c: Curves)
      returns (maxAvail: nat, minAvail: nat, saveMin: Option<Segment>, saveMax: Option<Segment>, ghost upper: Trace, ghost lower: Trace)
      requires |c.t| == |c.max| == |c.min| == RING && rp < RING && Rising(c.t, rp)
      requires maxseg.Length == RING + 1 && minseg.Length == RING + 1 && maxseg != minseg
      modifies maxseg, minseg
      ensures 2 <= maxAvail <= RING && upper.segs == maxseg[1..maxAvail] && FoundUpper(c, rp, upper, saveMin)
      ensures 2 <= minAvail <= RING && lower.segs == minseg[1..minAvail] && FoundLower(c, rp, lower, saveMax)
    {
      maxAvail, saveMin, upper := UpperEnvelope(c, rp, maxseg);
      minAvail, saveMax, lower := LowerEnvelope(c, rp, minseg);
    }
  }

  method UpperEnvelope(c: Curves, newest: nat, maxseg: array<Segment>) returns (avail: nat, kept: Option<Segment>, ghost f: Trace)
    requires |c.t| == |c.max| == |c.min| == RING && newest < RING && Rising(c.t, newest) && maxseg.Length == RING + 1
    modifies maxseg
    ensures 2 <= avail <= RING && f.segs == maxseg[1..avail] && FoundUpper(c, newest, f, kept)
  {
    ghost var segs, verts, checks;
    avail, kept, segs, verts, checks := Pass2(c.t, c.max, c.min, newest, maxseg);
    f := Trace(segs, verts, checks);
  }

  method LowerEnvelope(c: Curves, newest: nat, minseg: array<Segment>) returns (avail: nat, kept: Option<Segment>, ghost f: Trace)
    requires |c.t| == |c.max| == |c.min| == RING && newest < RING && Rising(c.t, newest) && minseg.Length == RING + 1
    modifies minseg
    ensures 2 <= avail <= RING && f.segs == minseg[1..avail] && FoundLower(c, newest, f, kept)
  {
    ghost var segs, verts, checks;
    avail, kept, segs, verts, checks := Pass3(c.t, c.max, c.min, newest, minseg);
    f := Trace(segs, verts, checks);
  }

  /** The curves of a ring: times, upper and lower limits. */
  datatype Curves = Curves(t: seq<real>, max: seq<real>, min: seq<real>)

  function CurvesOf(d: seq<Sample>): (c: Curves)
    requires |d| == RING
    ensures |c.t| == |c.max| == |c.min| == RING
  {
    Curves(Times(d), Maxima(d), Minima(d))
  }

  /** What a pass goes through: segments, vertices, lines checked. */
  datatype Trace = Trace(segs: seq<Segment>, verts: seq<nat>, checks: seq<Segment>)

  /** The upper envelope from the oldest measurement to the newest, with the line kept. */
  ghost predicate FoundUpper(c: Curves, newest: nat, f: Trace, kept: Option<Segment>) {
    && |c.t| == |c.max| == |c.min| == RING && newest < RING && |f.verts| == |f.segs| + 1 && f.verts[|f.segs|] == newest
    && Upper(c.t, c.max, c.min, newest, f.segs, f.verts, f.checks, kept)
    && Checked(UpperCheck(c.t, c.max, c.min, newest), f.verts, f.checks)
  }

  ghost predicate FoundLower(c: Curves, newest: nat, f: Trace, kept: Option<Segment>) {
    && |c.t| == |c.max| == |c.min| == RING && newest < RING && |f.verts| == |f.segs| + 1 && f.verts[|f.segs|] == newest
    && Lower(c.t, c.max, c.min, newest, f.segs, f.verts, f.checks, kept)
    && Checked(LowerCheck(c.t, c.max, c.min, newest), f.verts, f.checks)
  }

  /** A later measurement in place of the oldest keeps the order, one measurement longer if there is room. */
  lemma OrderStep(d: seq<Sample>, rp: nat, valid: nat, s: Sample)
    requires |d| == RING && rp < RING && valid <= RING && InOrder(d, NextDown(rp), valid)
    requires valid > 0 ==> d[NextDown(rp)].absolute < s.absolute
    ensures InOrder(d[rp := s], rp, if valid < RING then valid + 1 else RING)
  {
    var d', valid' := d[rp := s], if valid < RING then valid + 1 else RING;
    var last := NextDown(rp);
    forall i, k | 0 <= i < RING && 0 <= k < RING && RING - valid' <= Rank(rp, i) < Rank(rp, k) ensures d'[i].absolute < d'[k].absolute {
      RankShifts(rp, i);
      RankShifts(rp, k);
      RankShifts(rp, last);
      if k == rp && i != last {
        assert Rank(last, i) < Rank(last, last);
        assert d[i].absolute < d[last].absolute;
      }
    }
  }

  lemma RankShifts(rp: nat, i: nat)
    requires rp < RING && i < RING
    ensures Rank(rp, i) == 15 <==> i == rp
    ensures i != rp ==> Rank(NextDown(rp), i) == Rank(rp, i) + 1
    ensures Rank(NextDown(rp), i) == 15 <==> i == NextDown(rp)
  {
  }

  lemma OrderKeeps(d: seq<Sample>, d': seq<Sample>, rp: nat, valid: nat)
    requires |d| == |d'| == RING && rp < RING && InOrder(d, rp, valid) && forall k :: 0 <= k < RING ==> SameData(d[k], d'[k])
    ensures InOrder(d', rp, valid)
  {
  }

  lemma OrderRises(d: seq<Sample>, rp: nat)
    requires |d| == RING && rp < RING && InOrder(d, rp, RING)
    ensures Rising(Times(d), rp)
  {
  }

  /** A measurement with its limits set one error bar around the corrected skew. */
  function Limited(s: Sample, cum: real): Sample {
    s.(max := s.skew - cum + s.errorbar, min := s.skew - cum - s.errorbar)
  }

  lemma SameDrift(s0: Sample, s1: Sample, s0': Sample, s1': Sample, freq: int)
    requires SameData(s0, s0') && SameData(s1, s1')
    ensures Drift(s0', s1', freq) == Drift(s0, s1, freq)
  {
  }

  ghost predicate InOrder(d: seq<Sample>, newest: nat, valid: nat)
    requires |d| == RING && newest < RING
  {
    forall i, k :: 0 <= i < RING && 0 <= k < RING && RING - valid <= Rank(newest, i) < Rank(newest, k) ==> d[i].absolute < d[k].absolute
  }
}
