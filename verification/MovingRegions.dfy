/** Boxes whose bounds move linearly: when one holds another, and when two meet. */
module MovingRegions {
  import opened Geometry
  import opened KineticLines
  import opened Wrappers

  /** A box of any dimension with a lifetime; the bounds hold at its start. */
  datatype MovingRegion = MovingRegion(low: seq<real>, high: seq<real>, vlow: seq<real>, vhigh: seq<real>,
                                       start: real, end: real) {

    /** One rate for each bound. */
    ghost predicate Shaped() {
      |high| == |low| && |vlow| == |low| && |vhigh| == |low|
    }

    /** A box that is not shrinking and lives for a while. */
    ghost predicate Valid() {
      Shaped() && start < end && forall d :: 0 <= d < |low| ==> low[d] <= high[d] && vlow[d] <= vhigh[d]
    }

    function LowLine(d: nat): Line
      requires d < |low| && d < |vlow|
    {
      Line(low[d], vlow[d], start)
    }

    function HighLine(d: nat): Line
      requires d < |high| && d < |vhigh|
    {
      Line(high[d], vhigh[d], start)
    }
  }

  lemma WidthNonneg(m: MovingRegion, d: nat, t: real)
    requires m.Valid() && d < |m.low| && t >= m.start
    ensures Gap(m.HighLine(d), m.LowLine(d), t) >= 0.0
  {
    hide Gap, Travel;
    var h, l := m.HighLine(d), m.LowLine(d);
    GapMoves(h, l, m.start, t);
    TravelSign(h.v - l.v, t - m.start);
    StartGap(h, l);
  }

  lemma StartGap(a: Line, b: Line)
    requires a.s == b.s
    ensures Gap(a, b, a.s) == a.p - b.p
  {
    TravelSign(a.v, a.s - a.s);
    TravelSign(b.v, b.s - b.s);
    hide Travel;
  }

  // ----- containment

  ghost predicate DimContains(m: MovingRegion, r: MovingRegion, d: nat, t: real)
    requires m.Shaped() && r.Shaped() && d < |m.low| == |r.low|
  {
    Gap(m.HighLine(d), r.HighLine(d), t) >= 0.0 && Gap(r.LowLine(d), m.LowLine(d), t) >= 0.0
  }

  /** At time `t` the box `m` holds the box `r`. */
  ghost predicate Contains(m: MovingRegion, r: MovingRegion, t: real)
    requires m.Shaped() && r.Shaped() && |m.low| == |r.low|
  {
    forall d :: 0 <= d < |m.low| ==> DimContains(m, r, d, t)
  }

  /** The code's test that line `a` stays above line `b` from `t0`, where it is, to `t1`. */
  predicate StaysAbove(a: Line, b: Line, t0: real, t1: real) {
    a.v == b.v || !(t0 < Cross(a, b) < t1 || (t0 == Cross(a, b) && b.v > a.v))
  }

  lemma StaysAboveExact(a: Line, b: Line, t0: real, t1: real)
    requires t0 < t1 && Gap(a, b, t0) >= 0.0
    ensures StaysAbove(a, b, t0, t1) <==> forall t :: t0 <= t <= t1 ==> Gap(a, b, t) >= 0.0
  {
    hide Gap, Cross;
    var w := a.v - b.v;
    GapMoves(a, b, t0, t1);
    if Gap(a, b, t1) < 0.0 {
      Falls(a, b, t0, t1);
    } else {
      forall t | t0 <= t <= t1 ensures Gap(a, b, t) >= 0.0 { AboveBetween(a, b, t0, t, t1); }
      if a.v != b.v { NoCrossing(a, b, t0, t1); }
    }
  }

  lemma NoCrossing(a: Line, b: Line, t0: real, t1: real)
    requires a.v != b.v && t0 < t1 && Gap(a, b, t0) >= 0.0 && Gap(a, b, t1) >= 0.0
    ensures !(t0 < Cross(a, b) < t1) && !(t0 == Cross(a, b) && b.v > a.v)
  {
    var c, w := Cross(a, b), a.v - b.v;
    hide Gap, Travel, Cross;
    CrossIsZero(a, b, t0);
    CrossIsZero(a, b, t1);
    TravelSign(w, t0 - c);
    TravelSign(w, t1 - c);
  }

  /** The window of a containment test: the part of the period in which `r` lives. */
  function ContainFrom(lo: real, r: MovingRegion): real { Max(lo, r.start) }

  function ContainTo(hi: real, r: MovingRegion): real { Min(hi, r.end) }

  /** `m` lives and holds `r` throughout the window, which has a positive length. */
  ghost predicate HoldsThroughout(m: MovingRegion, lo: real, hi: real, r: MovingRegion)
    requires m.Shaped() && r.Shaped() && |m.low| == |r.low|
  {
    && ContainFrom(lo, r) < ContainTo(hi, r) && m.start <= ContainFrom(lo, r) && ContainTo(hi, r) <= m.end
    && forall t :: ContainFrom(lo, r) <= t <= ContainTo(hi, r) ==> Contains(m, r, t)
  }

  /** True exactly if `m` lives and holds `r` throughout a window of positive length. */
  method ContainsRegionInTime(m: MovingRegion, lo: real, hi: real, r: MovingRegion) returns (res: Option<bool>)
    requires m.Shaped() && r.Shaped()
    ensures res.None? <==> |m.low| != |r.low|
    ensures res.Some? ==> (res.value <==> HoldsThroughout(m, lo, hi, r))
  {
    if |m.low| != |r.low| {
      return None;
    }
    var tmin, tmax := Max(lo, r.start), Min(hi, r.end);
    if tmax <= tmin || tmin < m.start || tmax > m.end {
      return Some(false);
    }
    hide StaysAbove, Gap;
    for d := 0 to |m.low|
      invariant forall k, t :: 0 <= k < d && tmin <= t <= tmax ==> DimContains(m, r, k, t)
    {
      var ok := DimStays(m, r, d, tmin, tmax);
      if !ok {
        return Some(false);
      }
    }
    return Some(true);
  }

  /** One dimension of the test; when it fails there is an instant at which the box is not held. */
  method DimStays(m: MovingRegion, r: MovingRegion, d: nat, tmin: real, tmax: real) returns (ok: bool)
    requires m.Shaped() && r.Shaped() && d < |m.low| == |r.low| && tmin < tmax
    ensures ok ==> forall t :: tmin <= t <= tmax ==> DimContains(m, r, d, t)
    ensures !ok ==> exists t :: tmin <= t <= tmax && !Contains(m, r, t)
  {
    var h, rh, l, rl := m.HighLine(d), r.HighLine(d), m.LowLine(d), r.LowLine(d);
    GapIs(h, rh, tmin);
    GapIs(rl, l, tmin);
    hide Gap, StaysAbove, Line.At;
    if rh.At(tmin) > h.At(tmin) || rl.At(tmin) < l.At(tmin) {
      NotHeld(m, r, d, tmin);
      return false;
    }
    StaysAboveExact(h, rh, tmin, tmax);
    StaysAboveExact(rl, l, tmin, tmax);
    if !StaysAbove(h, rh, tmin, tmax) {
      ghost var t :| tmin <= t <= tmax && !(Gap(h, rh, t) >= 0.0);
      NotHeld(m, r, d, t);
      return false;
    }
    if !StaysAbove(rl, l, tmin, tmax) {
      ghost var t :| tmin <= t <= tmax && !(Gap(rl, l, t) >= 0.0);
      NotHeld(m, r, d, t);
      return false;
    }
    return true;
  }

  lemma NotHeld(m: MovingRegion, r: MovingRegion, d: nat, t: real)
    requires m.Shaped() && r.Shaped() && d < |m.low| == |r.low|
    requires Gap(m.HighLine(d), r.HighLine(d), t) < 0.0 || Gap(r.LowLine(d), m.LowLine(d), t) < 0.0
    ensures !Contains(m, r, t)
  {
    hide Gap;
    assert !DimContains(m, r, d, t);
  }

  lemma GapIs(a: Line, b: Line, t: real)
    ensures Gap(a, b, t) == a.At(t) - b.At(t)
  {
  }

  // ----- contact

  /** At time `t` the boxes overlap or touch in dimension `d`. */
  ghost predicate DimMeets(m: MovingRegion, r: MovingRegion, d: nat, t: real)
    requires m.Shaped() && r.Shaped() && d < |m.low| == |r.low|
  {
    LinesMeet(m.HighLine(d), m.LowLine(d), r.HighLine(d), r.LowLine(d), t)
  }

  ghost predicate Meets(m: MovingRegion, r: MovingRegion, t: real)
    requires m.Shaped() && r.Shaped() && |m.low| == |r.low|
  {
    forall d :: 0 <= d < |m.low| ==> DimMeets(m, r, d, t)
  }

  lemma ContainsMeets(m: MovingRegion, r: MovingRegion, t: real)
    requires m.Valid() && r.Valid() && |m.low| == |r.low| && t >= r.start && t >= m.start
    requires Contains(m, r, t) || Contains(r, m, t)
    ensures Meets(m, r, t)
  {
    forall d | 0 <= d < |m.low|
      ensures DimMeets(m, r, d, t)
    {
      assert DimContains(m, r, d, t) || DimContains(r, m, d, t);
      WidthNonneg(r, d, t);
      WidthNonneg(m, d, t);
      hide Line.At;
    }
  }

  /** With nonnegative widths the two kinds of separation exclude each other. */
  lemma OneSide(h: Line, l: Line, rh: Line, rl: Line, t: real)
    requires Gap(h, l, t) >= 0.0 && Gap(rh, rl, t) >= 0.0
    ensures Gap(h, rl, t) < 0.0 ==> Gap(rh, l, t) > 0.0
    ensures Gap(rh, l, t) < 0.0 ==> Gap(h, rl, t) > 0.0
  {
    hide Line.At;
  }

  ghost predicate LinesMeet(h: Line, l: Line, rh: Line, rl: Line, t: real) {
    Gap(h, rl, t) >= 0.0 && Gap(rh, l, t) >= 0.0
  }

  /** The shrinking of the contact interval in one dimension, `h` to `l` against `rh` to `rl`. */
  method ShrinkDim(h: Line, l: Line, rh: Line, rl: Line, tmin: real, tmax: real)
    returns (ok: bool, tmin': real, tmax': real)
    requires tmin <= tmax
    requires Gap(h, l, tmin) >= 0.0 && Gap(rh, rl, tmin) >= 0.0 && Gap(h, l, tmax) >= 0.0 && Gap(rh, rl, tmax) >= 0.0
    ensures ok ==> tmin <= tmin' <= tmax' <= tmax
                   && forall t :: tmin <= t <= tmax ==> (LinesMeet(h, l, rh, rl, t) <==> tmin' <= t <= tmax')
    ensures ok && tmin < tmax ==> tmin' < tmax
    ensures !ok ==> forall t :: tmin <= t < tmax ==> !LinesMeet(h, l, rh, rl, t)
    ensures !ok && tmin == tmax ==> !LinesMeet(h, l, rh, rl, tmin)
  {
    tmin', tmax' := tmin, tmax;
    GapIs(h, rl, tmin);
    GapIs(h, rl, tmax);
    GapIs(rh, l, tmin);
    GapIs(rh, l, tmax);
    hide Gap, Line.At, Cross;
    if (rl.At(tmin) > h.At(tmin) && rl.At(tmax) >= h.At(tmax))
        || (rh.At(tmin) < l.At(tmin) && rh.At(tmax) <= l.At(tmax)) {
      Apart(h, l, rh, rl, tmin, tmax);
      return false, tmin, tmax;
    }
    OneSide(h, l, rh, rl, tmin);
    OneSide(h, l, rh, rl, tmax);
    Clips(h, rl, tmin, tmax);
    Clips(rh, l, tmin, tmax);
    Overlap(h, l, rh, rl, tmin, tmax);
    if l.v != rh.v { CrossSwap(rh, l); }
    if rl.At(tmin) > h.At(tmin) {
      tmin' := Cross(h, rl);
    } else if rh.At(tmin) < l.At(tmin) {
      tmin' := Cross(l, rh);
    }
    if rl.At(tmax) > h.At(tmax) {
      tmax' := Cross(h, rl);
    } else if rh.At(tmax) < l.At(tmax) {
      tmax' := Cross(l, rh);
    }
    return true, tmin', tmax';
  }

  lemma CrossSwap(a: Line, b: Line)
    requires a.v != b.v
    ensures Cross(a, b) == Cross(b, a)
  {
    hide Line.At;
    var n, d, c := a.At(0.0) - b.At(0.0), b.v - a.v, Cross(a, b);
    assert c * d == n;
    var n', d' := -n, -d;
    assert c * d' == n';
    DivUnique(n', d', c);
  }

  /** Where one bound stays above another within an interval in which it is not always below. */
  lemma Clips(a: Line, b: Line, tmin: real, tmax: real)
    requires tmin <= tmax && !(Gap(a, b, tmin) < 0.0 && Gap(a, b, tmax) <= 0.0)
    ensures Gap(a, b, tmin) < 0.0 ==>
              a.v != b.v && tmin < Cross(a, b) < tmax && Gap(a, b, Cross(a, b)) == 0.0
              && forall t :: Gap(a, b, t) >= 0.0 <==> t >= Cross(a, b)
    ensures Gap(a, b, tmax) < 0.0 ==>
              a.v != b.v && tmin <= Cross(a, b) < tmax && Gap(a, b, Cross(a, b)) == 0.0
              && forall t :: Gap(a, b, t) >= 0.0 <==> t <= Cross(a, b)
    ensures Gap(a, b, tmin) >= 0.0 && Gap(a, b, tmax) >= 0.0 ==> forall t :: tmin <= t <= tmax ==> Gap(a, b, t) >= 0.0
  {
    hide Gap, Cross;
    if Gap(a, b, tmin) < 0.0 {
      Rises(a, b, tmin, tmax);
    } else if Gap(a, b, tmax) < 0.0 {
      Falls(a, b, tmin, tmax);
    } else {
      forall t | tmin <= t <= tmax ensures Gap(a, b, t) >= 0.0 { AboveBetween(a, b, tmin, t, tmax); }
    }
  }

  /** The two crossings, when both clip, come in the right order. */
  lemma Overlap(h: Line, l: Line, rh: Line, rl: Line, tmin: real, tmax: real)
    requires tmin <= tmax
    requires Gap(h, l, tmin) >= 0.0 && Gap(rh, rl, tmin) >= 0.0 && Gap(h, l, tmax) >= 0.0 && Gap(rh, rl, tmax) >= 0.0
    requires !(Gap(h, rl, tmin) < 0.0 && Gap(h, rl, tmax) <= 0.0)
             && !(Gap(rh, l, tmin) < 0.0 && Gap(rh, l, tmax) <= 0.0)
    ensures Gap(h, rl, tmin) < 0.0 && Gap(rh, l, tmax) < 0.0 ==>
              h.v != rl.v && rh.v != l.v && Cross(h, rl) <= Cross(rh, l)
    ensures Gap(rh, l, tmin) < 0.0 && Gap(h, rl, tmax) < 0.0 ==>
              h.v != rl.v && rh.v != l.v && Cross(rh, l) <= Cross(h, rl)
  {
    hide Gap, Cross;
    Clips(h, rl, tmin, tmax);
    Clips(rh, l, tmin, tmax);
    if Gap(h, rl, tmin) < 0.0 && Gap(rh, l, tmax) < 0.0 {
      var t := Cross(h, rl);
      AboveBetween(h, l, tmin, t, tmax);
      AboveBetween(rh, rl, tmin, t, tmax);
      OneSide(h, l, rh, rl, t);
    }
    if Gap(rh, l, tmin) < 0.0 && Gap(h, rl, tmax) < 0.0 {
      var t := Cross(rh, l);
      AboveBetween(h, l, tmin, t, tmax);
      AboveBetween(rh, rl, tmin, t, tmax);
      OneSide(h, l, rh, rl, t);
    }
  }

  lemma Apart(h: Line, l: Line, rh: Line, rl: Line, tmin: real, tmax: real)
    requires (Gap(h, rl, tmin) < 0.0 && Gap(h, rl, tmax) <= 0.0) || (Gap(rh, l, tmin) < 0.0 && Gap(rh, l, tmax) <= 0.0)
    ensures forall t :: tmin <= t < tmax ==> !LinesMeet(h, l, rh, rl, t)
  {
    hide Gap;
    forall t | tmin <= t < tmax
      ensures !LinesMeet(h, l, rh, rl, t)
    {
      if Gap(h, rl, tmin) < 0.0 && Gap(h, rl, tmax) <= 0.0 {
        BelowBetween(h, rl, tmin, t, tmax);
      } else {
        BelowBetween(rh, l, tmin, t, tmax);
      }
    }
  }

  /** At `u` the boxes meet in the first dimensions up to `d`, but before `u` only in those before `d`, and after `u`
      not even in those: dimension `d` leaves just the end of the contact so far. */
  ghost predicate EndsIn(m: MovingRegion, r: MovingRegion, from: real, to: real, d: nat, u: real)
    requires m.Shaped() && r.Shaped() && d < |m.low| == |r.low|
  {
    var n := d + 1;
    && from <= u <= to && MeetsFirst(m, r, n, u)
    && (exists t :: from <= t < u && MeetsFirst(m, r, d, t))
    && (forall t :: from <= t < u ==> !MeetsFirst(m, r, n, t))
    && (forall t :: u < t <= to ==> !MeetsFirst(m, r, d, t))
  }

  /** The touch at `u` that a "never" passes over. */
  ghost predicate PassedOver(m: MovingRegion, r: MovingRegion, from: real, to: real, u: real)
    requires m.Shaped() && r.Shaped() && |m.low| == |r.low|
  {
    exists d: nat :: d < |m.low| && EndsIn(m, r, from, to, d, u)
  }

  datatype Contact = DifferentDimensions | Never | During(from: real, to: real)

  /** The part of the period in which both boxes live. */
  function MeetFrom(m: MovingRegion, lo: real, r: MovingRegion): real { Max(Max(m.start, r.start), lo) }

  function MeetTo(m: MovingRegion, hi: real, r: MovingRegion): real { Min(Min(m.end, r.end), hi) }

  /** The boxes meet in the first `n` dimensions. */
  ghost predicate MeetsFirst(m: MovingRegion, r: MovingRegion, n: nat, t: real)
    requires m.Shaped() && r.Shaped() && n <= |m.low| == |r.low|
  {
    forall d :: 0 <= d < n ==> DimMeets(m, r, d, t)
  }

  /** The contact interval: exactly the instants of the window at which the boxes meet. "Never" is the answer exactly
      if the boxes do not meet, but for one instant at which a dimension leaves just the end of the contact so far.
      When one box holds the other the whole period is given, which is the window itself if the period lies inside
      both lifetimes; otherwise a part of the window. */
  method IntersectsRegionInTime(m: MovingRegion, lo: real, hi: real, r: MovingRegion) returns (c: Contact)
    requires m.Valid() && r.Valid() && lo < hi
    ensures c.DifferentDimensions? <==> |m.low| != |r.low|
    ensures c.During? ==> MeetFrom(m, lo, r) < MeetTo(m, hi, r)
    ensures c.During? ==> forall t :: MeetFrom(m, lo, r) <= t <= MeetTo(m, hi, r) ==>
              (Meets(m, r, t) <==> c.from <= t <= c.to)
    ensures c.During? ==> lo <= c.from <= c.to <= hi
    ensures !c.DifferentDimensions? ==>
              if HoldsThroughout(m, lo, hi, r) || HoldsThroughout(r, lo, hi, m) then c == During(lo, hi)
              else c.During? ==> MeetFrom(m, lo, r) <= c.from && c.to <= MeetTo(m, hi, r)
    ensures c.Never? ==> forall t, u :: MeetFrom(m, lo, r) <= t < u <= MeetTo(m, hi, r) ==>
              !(Meets(m, r, t) && Meets(m, r, u))
    ensures !c.DifferentDimensions? ==> (c.Never? <==> NeverMeets(m, r, MeetFrom(m, lo, r), MeetTo(m, hi, r)))
  {
    if |m.low| != |r.low| {
      return DifferentDimensions;
    }
    var inside := ContainsRegionInTime(m, lo, hi, r);
    var outside := ContainsRegionInTime(r, lo, hi, m);
    if inside.value || outside.value {
      HeldMeets(m, r, MeetFrom(m, lo, r), MeetTo(m, hi, r));
      StartCounts(m, r, MeetFrom(m, lo, r), MeetTo(m, hi, r));
      return During(lo, hi);
    }
    var tmin, tmax := Max(m.start, r.start), Min(m.end, r.end);
    if tmax <= tmin {
      return Never;
    }
    tmin, tmax := Max(tmin, lo), Min(tmax, hi);
    if tmax <= tmin {
      return Never;
    }
    c := ContactWithin(m, r, tmin, tmax);
  }

  /** No instant of a window of positive length at which the boxes meet, but those passed over. */
  ghost predicate NeverMeets(m: MovingRegion, r: MovingRegion, from: real, to: real)
    requires m.Shaped() && r.Shaped() && |m.low| == |r.low|
  {
    from >= to || forall t :: from <= t <= to && Meets(m, r, t) ==> PassedOver(m, r, from, to, t)
  }

  /** A meeting at the start of the window is never passed over. */
  lemma StartCounts(m: MovingRegion, r: MovingRegion, from: real, to: real)
    requires m.Shaped() && r.Shaped() && |m.low| == |r.low| && from < to && Meets(m, r, from)
    ensures !NeverMeets(m, r, from, to)
  {
    hide Meets, MeetsFirst;
    assert !PassedOver(m, r, from, to, from);
  }

  lemma HeldMeets(m: MovingRegion, r: MovingRegion, from: real, to: real)
    requires m.Valid() && r.Valid() && |m.low| == |r.low| && from >= m.start && from >= r.start
    requires (forall t :: from <= t <= to ==> Contains(m, r, t)) || (forall t :: from <= t <= to ==> Contains(r, m, t))
    ensures forall t :: from <= t <= to ==> Meets(m, r, t)
  {
    hide Contains, Meets;
    forall t | from <= t <= to
      ensures Meets(m, r, t)
    {
      ContainsMeets(m, r, t);
    }
  }

  /** The loop over the dimensions. */
  method ContactWithin(m: MovingRegion, r: MovingRegion, from: real, to: real) returns (c: Contact)
    requires m.Valid() && r.Valid() && |m.low| == |r.low| && m.start <= from && r.start <= from && from < to
    ensures !c.DifferentDimensions?
    ensures c.During? ==> from <= c.from <= c.to <= to && forall t :: from <= t <= to ==>
              (Meets(m, r, t) <==> c.from <= t <= c.to)
    ensures c.Never? ==> forall t, u :: from <= t < u <= to ==> !(Meets(m, r, t) && Meets(m, r, u))
    ensures c.Never? <==> NeverMeets(m, r, from, to)
  {
    var tmin, tmax := from, to;
    hide DimMeets, Gap, EndsIn;
    for d := 0 to |m.low|
      invariant from <= tmin <= tmax <= to
      invariant forall t :: from <= t <= to ==> (MeetsFirst(m, r, d, t) <==> tmin <= t <= tmax)
      invariant forall k: nat, u :: k < d ==> !EndsIn(m, r, from, to, k, u)
    {
      WidthNonneg(m, d, tmin);
      WidthNonneg(r, d, tmin);
      WidthNonneg(m, d, tmax);
      WidthNonneg(r, d, tmax);
      var ok, tmin', tmax' := ShrinkDim(m.HighLine(d), m.LowLine(d), r.HighLine(d), r.LowLine(d), tmin, tmax);
      ShrinkIsDim(m, r, d, tmin, tmax, ok, tmin', tmax');
      DimStep(m, r, d, d + 1, from, to, tmin, tmax, ok, tmin', tmax');
      if !ok {
        DimRejected(m, r, d, d + 1, from, to, tmin, tmax);
        return Never;
      }
      forall u ensures !EndsIn(m, r, from, to, d, u) { DimKept(m, r, d, d + 1, from, to, tmin, tmax, tmin', tmax', u); }
      tmin, tmax := tmin', tmax';
    }
    forall t | from <= t <= to
      ensures Meets(m, r, t) <==> tmin <= t <= tmax
    {
      assert Meets(m, r, t) <==> MeetsFirst(m, r, |m.low|, t);
    }
    assert !PassedOver(m, r, from, to, tmin);
    return During(tmin, tmax);
  }

  lemma ShrinkIsDim(m: MovingRegion, r: MovingRegion, d: nat, tmin: real, tmax: real, ok: bool, tmin': real,
                    tmax': real)
    requires m.Shaped() && r.Shaped() && d < |m.low| == |r.low|
    requires ok ==> forall t :: tmin <= t <= tmax ==>
               (LinesMeet(m.HighLine(d), m.LowLine(d), r.HighLine(d), r.LowLine(d), t) <==> tmin' <= t <= tmax')
    requires !ok ==> forall t :: tmin <= t < tmax ==>
               !LinesMeet(m.HighLine(d), m.LowLine(d), r.HighLine(d), r.LowLine(d), t)
    ensures ok ==> forall t :: tmin <= t <= tmax ==> (DimMeets(m, r, d, t) <==> tmin' <= t <= tmax')
    ensures !ok ==> forall t :: tmin <= t < tmax ==> !DimMeets(m, r, d, t)
    ensures LinesMeet(m.HighLine(d), m.LowLine(d), r.HighLine(d), r.LowLine(d), tmin) <==> DimMeets(m, r, d, tmin)
  {
    hide LinesMeet;
  }

  /** A dimension that is not rejected leaves more than the end of the contact so far ... */
  lemma DimKept(m: MovingRegion, r: MovingRegion, d: nat, n: nat, from: real, to: real, tmin: real, tmax: real,
                tmin': real, tmax': real, u: real)
    requires m.Shaped() && r.Shaped() && d < n == d + 1 <= |m.low| == |r.low|
             && from <= tmin <= tmin' <= tmax' <= tmax <= to
    requires tmin < tmax ==> tmin' < tmax
    requires forall t :: from <= t <= to ==> (MeetsFirst(m, r, d, t) <==> tmin <= t <= tmax)
    requires forall t :: from <= t <= to ==> (MeetsFirst(m, r, n, t) <==> tmin' <= t <= tmax')
    ensures !EndsIn(m, r, from, to, d, u)
  {
    hide MeetsFirst;
    assert MeetsFirst(m, r, d, tmax) && MeetsFirst(m, r, n, tmin');
  }

  /** ... and one that is rejected passes over at most a touch there. */
  lemma DimRejected(m: MovingRegion, r: MovingRegion, d: nat, n: nat, from: real, to: real, tmin: real, tmax: real)
    requires m.Shaped() && r.Shaped() && d < n == d + 1 <= |m.low| == |r.low| && from <= tmin <= tmax <= to
    requires forall t :: from <= t <= to ==> (MeetsFirst(m, r, d, t) <==> tmin <= t <= tmax)
    requires forall t :: tmin <= t < tmax ==> !DimMeets(m, r, d, t)
    requires tmin == tmax ==> !DimMeets(m, r, d, tmin)
    ensures NeverMeets(m, r, from, to)
  {
    forall t | from <= t <= to && Meets(m, r, t)
      ensures PassedOver(m, r, from, to, t)
    {
      forall v
        ensures MeetsFirst(m, r, n, v) <==> MeetsFirst(m, r, d, v) && DimMeets(m, r, d, v)
        ensures Meets(m, r, v) ==> MeetsFirst(m, r, n, v)
      {
        FirstStep(m, r, d, n, v);
      }
      hide MeetsFirst, Meets, DimMeets;
      assert t == tmax && tmin < tmax;
      assert MeetsFirst(m, r, d, tmin);
      assert EndsIn(m, r, from, to, d, t);
    }
  }

  lemma FirstStep(m: MovingRegion, r: MovingRegion, d: nat, n: nat, t: real)
    requires m.Shaped() && r.Shaped() && d < n == d + 1 <= |m.low| == |r.low|
    ensures MeetsFirst(m, r, n, t) <==> MeetsFirst(m, r, d, t) && DimMeets(m, r, d, t)
    ensures Meets(m, r, t) ==> MeetsFirst(m, r, n, t)
  {
    hide DimMeets;
  }

  lemma DimStep(m: MovingRegion, r: MovingRegion, d: nat, n: nat, from: real, to: real, tmin: real, tmax: real,
                ok: bool, tmin': real, tmax': real)
    requires m.Shaped() && r.Shaped() && d < n == d + 1 <= |m.low| == |r.low| && from <= tmin <= tmax <= to
    requires forall t :: from <= t <= to ==> (MeetsFirst(m, r, d, t) <==> tmin <= t <= tmax)
    requires ok ==> tmin <= tmin' <= tmax' <= tmax && forall t :: tmin <= t <= tmax ==>
               (DimMeets(m, r, d, t) <==> tmin' <= t <= tmax')
    requires !ok ==> forall t :: tmin <= t < tmax ==> !DimMeets(m, r, d, t)
    ensures ok ==> forall t :: from <= t <= to ==> (MeetsFirst(m, r, n, t) <==> tmin' <= t <= tmax')
    ensures !ok ==> forall t, u :: from <= t < u <= to ==> !(Meets(m, r, t) && Meets(m, r, u))
  {
    forall t
      ensures MeetsFirst(m, r, n, t) <==> MeetsFirst(m, r, d, t) && DimMeets(m, r, d, t)
      ensures Meets(m, r, t) ==> MeetsFirst(m, r, n, t)
    {
      FirstStep(m, r, d, n, t);
    }
    hide MeetsFirst, Meets, DimMeets;
    if !ok {
      forall t, u | from <= t < u <= to
        ensures !(Meets(m, r, t) && Meets(m, r, u))
      {
        assert MeetsFirst(m, r, n, t) ==> t == tmax;
      }
    }
  }

  // ----- a touch that is passed over

  function StillBox(): MovingRegion { MovingRegion([0.0], [1.0], [0.0], [0.0], 0.0, 1.0) }

  function ComingBox(): MovingRegion { MovingRegion([2.0], [3.0], [-1.0], [-1.0], 0.0, 1.0) }

  /** A box that arrives at another just at the end of the window: the boxes meet, and the answer is "never". */
  lemma TouchAtEndIsNever()
    ensures StillBox().Valid() && ComingBox().Valid() && Meets(StillBox(), ComingBox(), 1.0)
    ensures NeverMeets(StillBox(), ComingBox(), 0.0, 1.0)
  {
    var m, r, d, n, from, to := StillBox(), ComingBox(), 0, 1, 0.0, 1.0;
    forall t
      ensures DimMeets(m, r, d, t) <==> 1.0 <= t <= 3.0
      ensures MeetsFirst(m, r, d, t)
    {
    }
    hide MeetsFirst, DimMeets;
    assert Meets(m, r, 1.0);
    DimRejected(m, r, d, n, from, to, from, to);
  }
}
