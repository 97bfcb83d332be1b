/** Moving bounding cones: a centre moving straight from the first sample to the last, with a disc
    whose radius grows at speed `rv`, stays at `rd`, and shrinks back to zero. */
module MovingCone {
  import opened Geometry
  import opened Boxes

  datatype Cone = Cone(ps: Point, pe: Point, rd: real, rv: real)

  /** The value makeInfinite leaves in a cone asked of fewer than two samples. */
  const INFINITE_CONE := Cone(Point(INF, INF, INF), Point(-INF, -INF, -INF), 0.0, 0.0)

  /** Position of the centre; it stands still outside the lifetime. */
  function CenterAt(ps: Point, pe: Point, t: real): Point {
    if t <= ps.t then ps
    else if t >= pe.t then pe
    else Point(Mid(ps.x, ps.t, pe.x, pe.t, t), Mid(ps.y, ps.t, pe.y, pe.t, t), t)
  }

  /** Centre and radius at an instant. */
  function CenterRdAtTime(bc: Cone, t: real): (Point, real) {
    if t <= bc.ps.t || t >= bc.pe.t then (CenterAt(bc.ps, bc.pe, t), 0.0)
    else (CenterAt(bc.ps, bc.pe, t), Min(Min(Travel(bc.rv, t - bc.ps.t), bc.rd), Travel(bc.rv, bc.pe.t - t)))
  }

  function RadiusAt(bc: Cone, t: real): real {
    CenterRdAtTime(bc, t).1
  }

  /** What every cone of a trajectory satisfies; all the filter needs to know. */
  ghost predicate WellFormed(bc: Cone) {
    bc.ps.t < bc.pe.t && bc.rd >= 0.0 && bc.rv >= 0.0 && 2.0 * bc.rd <= Travel(bc.rv, bc.pe.t - bc.ps.t)
  }

  // ----- building the cone from samples

  /** Squared speed of straight motion p -> q relative to the centre's velocity (avx, avy). */
  function DeviationSq(p: Point, q: Point, avx: real, avy: real): (r: real)
    requires p.t != q.t
    ensures r >= 0.0
  {
    Sq(Slope(p.x, p.t, q.x, q.t) - avx) + Sq(Slope(p.y, p.t, q.y, q.t) - avy)
  }

  ghost function DeviationFromStart(s: seq<Point>, i: nat): (r: real)
    requires Increasing(s) && 0 < i < |s|
    ensures r >= 0.0
  {
    var a, z := s[0], s[|s| - 1];
    DeviationSq(a, s[i], Slope(a.x, a.t, z.x, z.t), Slope(a.y, a.t, z.y, z.t))
  }

  ghost function DeviationToEnd(s: seq<Point>, i: nat): (r: real)
    requires Increasing(s) && i < |s| - 1
    ensures r >= 0.0
  {
    var a, z := s[0], s[|s| - 1];
    DeviationSq(s[i], z, Slope(a.x, a.t, z.x, z.t), Slope(a.y, a.t, z.y, z.t))
  }

  ghost function OffsetSq(s: seq<Point>, i: nat): (r: real)
    requires i < |s|
    ensures r >= 0.0
  {
    DistSq(s[i], MakeMid(s[0], s[|s| - 1], s[i].t))
  }

  /** The radii bound every one of the first `n` samples, and no smaller radii do. */
  ghost predicate TightOn(s: seq<Point>, n: nat, rd: real, rv: real)
    requires Increasing(s) && n <= |s|
  {
    && rd >= 0.0 && rv >= 0.0
    && (forall i :: 0 <= i < n ==> OffsetSq(s, i) <= Sq(rd))
    && (forall i :: 0 < i < n ==> DeviationFromStart(s, i) <= Sq(rv))
    && (forall i :: 0 <= i < n && i < |s| - 1 ==> DeviationToEnd(s, i) <= Sq(rv))
    && (rd == 0.0 || exists i :: 0 <= i < n && OffsetSq(s, i) == Sq(rd))
    && (rv == 0.0 || (exists i :: 0 < i < n && DeviationFromStart(s, i) == Sq(rv))
                  || (exists i :: 0 <= i < n && i < |s| - 1 && DeviationToEnd(s, i) == Sq(rv)))
  }

  /** `bc` is the tightest cone of the samples. */
  ghost predicate IsConeOf(s: seq<Point>, bc: Cone) {
    && Increasing(s) && |s| >= 2
    && bc.ps == s[0] && bc.pe == s[|s| - 1]
    && TightOn(s, |s|, bc.rd, bc.rv)
  }

  /** Speed of straight motion p -> q relative to the centre's velocity. */
  function DeviationSpeed(sqrt: real -> real, p: Point, q: Point, avx: real, avy: real): (v: real)
    requires IsSqrt(sqrt) && p.t != q.t
    ensures v >= 0.0 && Sq(v) == DeviationSq(p, q, avx, avy)
  {
    SqrtOf(sqrt, DeviationSq(p, q, avx, avy));
    sqrt(DeviationSq(p, q, avx, avy))
  }

  /** Distance of a sample from the centre at its time. */
  function OffsetDistance(sqrt: real -> real, a: Point, z: Point, p: Point): (d: real)
    requires IsSqrt(sqrt)
    ensures d >= 0.0 && Sq(d) == DistSq(p, MakeMid(a, z, p.t))
  {
    SqrtOf(sqrt, DistSq(p, MakeMid(a, z, p.t)));
    sqrt(DistSq(p, MakeMid(a, z, p.t)))
  }

  /** Raising the radii to cover one more sample, and no further, keeps them tight. */
  lemma TightStep(s: seq<Point>, i: nat, rd: real, rv: real, rd': real, rv': real)
    requires Increasing(s) && i < |s| && TightOn(s, i, rd, rv)
    requires rd' >= rd && OffsetSq(s, i) <= Sq(rd') && (rd' == rd || OffsetSq(s, i) == Sq(rd'))
    requires rv' >= rv
    requires i > 0 ==> DeviationFromStart(s, i) <= Sq(rv')
    requires i < |s| - 1 ==> DeviationToEnd(s, i) <= Sq(rv')
    requires rv' == rv || (i > 0 && DeviationFromStart(s, i) == Sq(rv'))
                       || (i < |s| - 1 && DeviationToEnd(s, i) == Sq(rv'))
    ensures TightOn(s, i + 1, rd', rv')
  {
    hide Sq, OffsetSq, DeviationFromStart, DeviationToEnd;
    SquareMono(rd, rd');
    SquareMono(rv, rv');
  }

  /** The running maxima over the samples. */
  method GetxMBC(sqrt: real -> real, s: seq<Point>) returns (bc: Cone)
    requires IsSqrt(sqrt) && Increasing(s)
    ensures |s| <= 1 ==> bc == INFINITE_CONE && bc.pe.t < bc.ps.t && bc.rd == bc.rv == 0.0
    ensures |s| >= 2 ==> IsConeOf(s, bc)
  {
    if |s| <= 1 {
      return INFINITE_CONE;
    }
    var a, z := s[0], s[|s| - 1];
    var avx, avy := Slope(a.x, a.t, z.x, z.t), Slope(a.y, a.t, z.y, z.t);
    var rd, rv := 0.0, 0.0;
    assert TightOn(s, 0, rd, rv);
    hide Sq, TightOn, DeviationSq, DistSq, Slope, MakeMid;
    for i := 0 to |s|
      invariant rd >= 0.0 && rv >= 0.0
      invariant TightOn(s, i, rd, rv)
    {
      var p := s[i];
      ghost var rd0, rv0 := rd, rv;
      if p.t - a.t > 0.0 {
        var prv := DeviationSpeed(sqrt, a, p, avx, avy);
        if prv > rv { rv := prv; } else { SquareMono(prv, rv); }
      }
      if z.t - p.t > 0.0 {
        ghost var rv1 := rv;
        var prv := DeviationSpeed(sqrt, p, z, avx, avy);
        if prv > rv { rv := prv; SquareMono(rv1, rv); } else { SquareMono(prv, rv); }
      }
      var prd := OffsetDistance(sqrt, a, z, p);
      if prd > rd { rd := prd; } else { SquareMono(prd, rd); }
      TightStep(s, i, rd0, rv0, rd, rv);
    }
    bc := Cone(a, z, rd, rv);
  }

  // ----- the cone encloses the trajectory at every instant

  /** Scaling a bounded velocity deviation by elapsed time bounds the displacement. */
  lemma ScaledNorm(ax: real, ay: real, r: real, k: real)
    requires Sq(ax) + Sq(ay) <= Sq(r)
    ensures Sq(Travel(ax, k)) + Sq(Travel(ay, k)) <= Sq(Travel(r, k))
  {
    var n, m, kk := Sq(ax) + Sq(ay), Sq(r), Sq(k);
    assert Sq(Travel(ax, k)) + Sq(Travel(ay, k)) == kk * n;
    assert Sq(Travel(r, k)) == kk * m;
    MulLe(kk, n, m);
  }

  /** A coordinate's offset from the chord is its velocity deviation `d` times the elapsed time `k`. */
  lemma OffsetFromStart(x0: real, t0: real, x1: real, t1: real, x: real, t: real, d: real, k: real)
    requires t0 < t <= t1
    requires d == Slope(x0, t0, x, t) - Slope(x0, t0, x1, t1) && k == t - t0
    ensures x - Mid(x0, t0, x1, t1, t) == Travel(d, k)
  {
    MidIsLinear(x0, t0, x1, t1, t);
    var v, m := Slope(x0, t0, x, t), Slope(x0, t0, x1, t1);
    assert v * k == x - x0;
    assert d * k == v * k - m * k;
  }

  lemma OffsetToEnd(x0: real, t0: real, x1: real, t1: real, x: real, t: real, d: real, k: real)
    requires t0 <= t < t1
    requires d == Slope(x, t, x1, t1) - Slope(x0, t0, x1, t1) && k == t1 - t
    ensures Mid(x0, t0, x1, t1, t) - x == Travel(d, k)
  {
    MidIsLinear(x0, t0, x1, t1, t);
    var v, m, e, all := Slope(x, t, x1, t1), Slope(x0, t0, x1, t1), t - t0, t1 - t0;
    assert v * k == x1 - x;
    assert m * all == x1 - x0;
    assert m * e + m * k == m * all;
    assert d * k == v * k - m * k;
  }

  lemma BoundFromStart(a: Point, z: Point, p: Point, rv: real)
    requires a.t < p.t <= z.t
    requires DeviationSq(a, p, Slope(a.x, a.t, z.x, z.t), Slope(a.y, a.t, z.y, z.t)) <= Sq(rv)
    ensures DistSq(p, MakeMid(a, z, p.t)) <= Sq(Travel(rv, p.t - a.t))
  {
    hide Sq, Slope, Mid, Travel;
    var dx := Slope(a.x, a.t, p.x, p.t) - Slope(a.x, a.t, z.x, z.t);
    var dy := Slope(a.y, a.t, p.y, p.t) - Slope(a.y, a.t, z.y, z.t);
    var k := p.t - a.t;
    OffsetFromStart(a.x, a.t, z.x, z.t, p.x, p.t, dx, k);
    OffsetFromStart(a.y, a.t, z.y, z.t, p.y, p.t, dy, k);
    ScaledNorm(dx, dy, rv, k);
  }

  lemma BoundToEnd(a: Point, z: Point, p: Point, rv: real)
    requires a.t <= p.t < z.t
    requires DeviationSq(p, z, Slope(a.x, a.t, z.x, z.t), Slope(a.y, a.t, z.y, z.t)) <= Sq(rv)
    ensures DistSq(p, MakeMid(a, z, p.t)) <= Sq(Travel(rv, z.t - p.t))
  {
    var m := MakeMid(a, z, p.t);
    DistSqSymmetric(p, m);
    hide Sq, Slope, Mid, Travel;
    var dx := Slope(p.x, p.t, z.x, z.t) - Slope(a.x, a.t, z.x, z.t);
    var dy := Slope(p.y, p.t, z.y, z.t) - Slope(a.y, a.t, z.y, z.t);
    var k := z.t - p.t;
    OffsetToEnd(a.x, a.t, z.x, z.t, p.x, p.t, dx, k);
    OffsetToEnd(a.y, a.t, z.y, z.t, p.y, p.t, dy, k);
    ScaledNorm(dx, dy, rv, k);
  }

  lemma DistSqSymmetric(p: Point, q: Point)
    ensures DistSq(p, q) == DistSq(q, p) == Sq(q.x - p.x) + Sq(q.y - p.y)
  {
  }

  lemma ConeFacts(s: seq<Point>, bc: Cone)
    requires IsConeOf(s, bc)
    ensures bc.rd >= 0.0 && bc.rv >= 0.0 && bc.ps.t < bc.pe.t
    ensures forall i :: 0 <= i < |s| ==> bc.ps.t <= s[i].t <= bc.pe.t
  {
  }

  /** At a sample the offset is within each of the three bounds. */
  lemma SampleOffsets(s: seq<Point>, bc: Cone, i: nat)
    requires IsConeOf(s, bc) && i < |s|
    ensures OffsetSq(s, i) <= Sq(bc.rd)
    ensures OffsetSq(s, i) <= Sq(Travel(bc.rv, s[i].t - bc.ps.t))
    ensures OffsetSq(s, i) <= Sq(Travel(bc.rv, bc.pe.t - s[i].t))
  {
    var a, z := bc.ps, bc.pe;
    EndsAreFixed(a, z);
    assert DistSq(a, a) == DistSq(z, z) == 0.0;
    hide Sq, DeviationSq, MakeMid, DistSq, Slope, Travel;
    if i > 0 {
      assert DeviationFromStart(s, i) <= Sq(bc.rv);
      BoundFromStart(a, z, s[i], bc.rv);
    }
    if i < |s| - 1 {
      assert DeviationToEnd(s, i) <= Sq(bc.rv);
      BoundToEnd(a, z, s[i], bc.rv);
    }
  }

  lemma EndsAreFixed(a: Point, z: Point)
    requires a.t < z.t
    ensures MakeMid(a, z, a.t) == a && MakeMid(a, z, z.t) == z
  {
    MidIsLinear(a.x, a.t, z.x, z.t, a.t);
    MidIsLinear(a.y, a.t, z.y, z.t, a.t);
  }

  /** Interpolating the chord between two instants gives the chord again. */
  lemma ChordConvex(x0: real, t0: real, x1: real, t1: real, ta: real, tb: real, w: real, u: real, t: real)
    requires t0 < t1 && w + u == 1.0 && t == Mix(w, ta, u, tb)
    ensures Mid(x0, t0, x1, t1, t) == Mix(w, Mid(x0, t0, x1, t1, ta), u, Mid(x0, t0, x1, t1, tb))
  {
    MidIsLinear(x0, t0, x1, t1, t);
    MidIsLinear(x0, t0, x1, t1, ta);
    MidIsLinear(x0, t0, x1, t1, tb);
    AffineConvex(x0, Slope(x0, t0, x1, t1), t0, ta, tb, w, u);
  }

  lemma AffineConvex(x0: real, m: real, t0: real, ta: real, tb: real, w: real, u: real)
    requires w + u == 1.0
    ensures x0 + m * (Mix(w, ta, u, tb) - t0) == Mix(w, x0 + m * (ta - t0), u, x0 + m * (tb - t0))
  {
    assert u == 1.0 - w;
  }

  /** The same mix of positions and of centres mixes the offsets. */
  lemma MixDifference(w: real, u: real, p: real, q: real, cp: real, cq: real)
    ensures Mix(w, p, u, q) - Mix(w, cp, u, cq) == Mix(w, p - cp, u, q - cq)
  {
  }

  /** Between two samples the offset is bounded by the same mix of the bounds at the samples. */
  lemma PieceOffset(s: seq<Point>, i: nat, t: real, w: real, u: real, r: real, r': real)
    requires Increasing(s) && i + 1 < |s|
    requires w >= 0.0 && u >= 0.0 && w + u == 1.0 && t == Mix(w, s[i].t, u, s[i + 1].t)
    requires MakeMid(s[i], s[i + 1], t).x == Mix(w, s[i].x, u, s[i + 1].x)
    requires MakeMid(s[i], s[i + 1], t).y == Mix(w, s[i].y, u, s[i + 1].y)
    requires r >= 0.0 && r' >= 0.0
    requires OffsetSq(s, i) <= Sq(r) && OffsetSq(s, i + 1) <= Sq(r')
    ensures Mix(w, r, u, r') >= 0.0
    ensures DistSq(MakeMid(s[i], s[i + 1], t), MakeMid(s[0], s[|s| - 1], t)) <= Sq(Mix(w, r, u, r'))
  {
    var a, z, p, q := s[0], s[|s| - 1], s[i], s[i + 1];
    hide Sq, Mid, Mix;
    var cp, cq := MakeMid(a, z, p.t), MakeMid(a, z, q.t);
    ChordConvex(a.x, a.t, z.x, z.t, p.t, q.t, w, u, t);
    ChordConvex(a.y, a.t, z.y, z.t, p.t, q.t, w, u, t);
    MixDifference(w, u, p.x, q.x, cp.x, cq.x);
    MixDifference(w, u, p.y, q.y, cp.y, cq.y);
    DiscConvex(p.x - cp.x, p.y - cp.y, q.x - cq.x, q.y - cq.y, r, r', w, u);
  }

  lemma MixTravel(v: real, c: real, ta: real, tb: real, w: real, u: real, t: real)
    requires w + u == 1.0 && t == Mix(w, ta, u, tb)
    ensures Mix(w, Travel(v, ta - c), u, Travel(v, tb - c)) == Travel(v, t - c)
    ensures Mix(w, Travel(v, c - ta), u, Travel(v, c - tb)) == Travel(v, c - t)
    ensures Mix(w, v, u, v) == v
  {
    assert u == 1.0 - w;
  }

  lemma TravelNonneg(v: real, dt: real)
    requires v >= 0.0 && dt >= 0.0
    ensures Travel(v, dt) >= 0.0
  {
  }

  /** The offset at any instant of a piece respects all three bounds. */
  lemma PieceBounds(s: seq<Point>, bc: Cone, i: nat, t: real)
    requires IsConeOf(s, bc) && i + 1 < |s| && s[i].t <= t <= s[i + 1].t
    ensures var d := DistSq(MakeMid(s[i], s[i + 1], t), MakeMid(bc.ps, bc.pe, t));
            d <= Sq(bc.rd) && d <= Sq(Travel(bc.rv, t - bc.ps.t)) && d <= Sq(Travel(bc.rv, bc.pe.t - t))
  {
    ConeFacts(s, bc);
    hide Sq, MakeMid, DistSq, Travel, Mix, OffsetSq, TightOn;
    var w, u := PieceIsMix(s[i], s[i + 1], t);
    SampleOffsets(s, bc, i);
    SampleOffsets(s, bc, i + 1);
    var ta, tb, ts, te, rv := s[i].t, s[i + 1].t, bc.ps.t, bc.pe.t, bc.rv;
    MixTravel(bc.rd, ts, ta, tb, w, u, t);
    MixTravel(rv, ts, ta, tb, w, u, t);
    MixTravel(rv, te, ta, tb, w, u, t);
    TravelNonneg(rv, ta - ts);
    TravelNonneg(rv, tb - ts);
    TravelNonneg(rv, te - ta);
    TravelNonneg(rv, te - tb);
    PieceOffset(s, i, t, w, u, bc.rd, bc.rd);
    PieceOffset(s, i, t, w, u, Travel(rv, ta - ts), Travel(rv, tb - ts));
    PieceOffset(s, i, t, w, u, Travel(rv, te - ta), Travel(rv, te - tb));
  }

  lemma NoTravel(v: real)
    ensures Travel(v, 0.0) == 0.0 && Sq(0.0) == 0.0
  {
  }

  lemma CenterIsChord(bc: Cone, t: real)
    requires bc.ps.t < bc.pe.t && bc.ps.t <= t <= bc.pe.t
    ensures CenterAt(bc.ps, bc.pe, t) == MakeMid(bc.ps, bc.pe, t) && CenterAt(bc.ps, bc.pe, t).t == t
  {
    EndsAreFixed(bc.ps, bc.pe);
  }

  /** A position of a straight piece is the mix of its ends. */
  lemma PieceIsMix(p: Point, q: Point, t: real) returns (w: real, u: real)
    requires p.t < q.t && p.t <= t <= q.t
    ensures w >= 0.0 && u >= 0.0 && w + u == 1.0 && t == Mix(w, p.t, u, q.t)
    ensures MakeMid(p, q, t).x == Mix(w, p.x, u, q.x) && MakeMid(p, q, t).y == Mix(w, p.y, u, q.y)
  {
    w, u := Weights(p.t, q.t, t);
  }

  /** Cone enclosure: at every instant, not only at samples, the trajectory is in the moving disc. */
  lemma ConeEncloses(s: seq<Point>, bc: Cone, p: Point)
    requires IsConeOf(s, bc) && OnPolyline(s, p)
    ensures bc.ps.t <= p.t <= bc.pe.t
    ensures Within(p, CenterAt(bc.ps, bc.pe, p.t), RadiusAt(bc, p.t))
  {
    ConeFacts(s, bc);
    hide Sq, Mid, MakeMid, Travel, DistSq, TightOn, IsConeOf;
    var i :| 0 <= i < |s| - 1 && s[i].t <= p.t <= s[i + 1].t && p == MakeMid(s[i], s[i + 1], p.t);
    PieceBounds(s, bc, i, p.t);
    hide OnPolyline;
    InThreeBounds(bc, p);
  }

  /** Within all three bounds is within the radius. */
  lemma InThreeBounds(bc: Cone, p: Point)
    requires bc.ps.t < bc.pe.t && bc.ps.t <= p.t <= bc.pe.t && bc.rd >= 0.0 && bc.rv >= 0.0
    requires var d := DistSq(p, MakeMid(bc.ps, bc.pe, p.t));
             d <= Sq(bc.rd) && d <= Sq(Travel(bc.rv, p.t - bc.ps.t)) && d <= Sq(Travel(bc.rv, bc.pe.t - p.t))
    ensures Within(p, CenterAt(bc.ps, bc.pe, p.t), RadiusAt(bc, p.t))
  {
    CenterIsChord(bc, p.t);
    NoTravel(bc.rv);
    hide Sq, Mid, MakeMid, Travel, DistSq;
    TravelNonneg(bc.rv, p.t - bc.ps.t);
    TravelNonneg(bc.rv, bc.pe.t - p.t);
  }

  /** The cone never flattens: the disc needs no longer to grow than half the lifetime. */
  lemma ConeWellFormed(s: seq<Point>, bc: Cone)
    requires IsConeOf(s, bc)
    ensures WellFormed(bc)
  {
    var ts, te, rv := bc.ps.t, bc.pe.t, bc.rv;
    if bc.rd > 0.0 {
      var i :| 0 <= i < |s| && OffsetSq(s, i) == Sq(bc.rd);
      var t := s[i].t;
      assert Travel(rv, t - ts) + Travel(rv, te - t) == Travel(rv, te - ts);
      hide Sq, Travel, OffsetSq, TightOn;
      SampleOffsets(s, bc, i);
      TravelNonneg(rv, t - ts);
      TravelNonneg(rv, te - t);
      SquareLe(bc.rd, Travel(rv, t - ts));
      SquareLe(bc.rd, Travel(rv, te - t));
    } else {
      TravelNonneg(rv, te - ts);
    }
  }

  // ----- the bounding box of the cone

  /** The square around the disc at an instant. */
  function MBRAtTime(bc: Cone, t: real): Box {
    var (c, r) := CenterRdAtTime(bc, t);
    Box(c.x - r, c.x + r, c.y - r, c.y + r, c.t, c.t)
  }

  /** The square of half-width `r` around the centre at `t` lies in the box. */
  ghost predicate SquareIn(out: Box, bc: Cone, t: real, r: real) {
    var c := CenterAt(bc.ps, bc.pe, t);
    && out.xmin <= c.x - r && c.x + r <= out.xmax
    && out.ymin <= c.y - r && c.y + r <= out.ymax
    && out.tmin <= c.t <= out.tmax
  }

  lemma MixSum(w: real, u: real, a: real, b: real, r: real, r': real)
    ensures Mix(w, a, u, b) + Mix(w, r, u, r') == Mix(w, a + r, u, b + r')
    ensures Mix(w, a, u, b) - Mix(w, r, u, r') == Mix(w, a - r, u, b - r')
  {
  }

  /** One coordinate of the next lemma. */
  lemma CoordinateIn(x0: real, t0: real, x1: real, t1: real, ta: real, tb: real, w: real, u: real, t: real,
                     r: real, r': real, lo: real, hi: real)
    requires t0 < t1 && w >= 0.0 && u >= 0.0 && w + u == 1.0 && t == Mix(w, ta, u, tb)
    requires lo <= Mid(x0, t0, x1, t1, ta) - r && Mid(x0, t0, x1, t1, ta) + r <= hi
    requires lo <= Mid(x0, t0, x1, t1, tb) - r' && Mid(x0, t0, x1, t1, tb) + r' <= hi
    requires r >= 0.0 && r' >= 0.0
    ensures lo <= Mid(x0, t0, x1, t1, t) - Mix(w, r, u, r') && Mid(x0, t0, x1, t1, t) + Mix(w, r, u, r') <= hi
  {
    hide Mid, Mix;
    ChordConvex(x0, t0, x1, t1, ta, tb, w, u, t);
    var a, b := Mid(x0, t0, x1, t1, ta), Mid(x0, t0, x1, t1, tb);
    MixSum(w, u, a, b, r, r');
    MixBetween(w, u, a + r, b + r', lo, hi);
    MixBetween(w, u, a - r, b - r', lo, hi);
  }

  /** If the box holds the squares at two instants, it holds the mixed square at any instant between. */
  lemma SquaresBetween(out: Box, bc: Cone, ta: real, tb: real, t: real, r: real, r': real) returns (w: real, u: real)
    requires WellFormed(bc) && bc.ps.t <= ta <= t <= tb <= bc.pe.t && ta < tb && r >= 0.0 && r' >= 0.0
    requires SquareIn(out, bc, ta, r) && SquareIn(out, bc, tb, r')
    ensures w >= 0.0 && u >= 0.0 && w + u == 1.0 && t == Mix(w, ta, u, tb)
    ensures SquareIn(out, bc, t, Mix(w, r, u, r'))
  {
    w, u := Weights(ta, tb, t);
    CenterIsChord(bc, ta);
    CenterIsChord(bc, tb);
    CenterIsChord(bc, t);
    var a, z := bc.ps, bc.pe;
    hide Mid, Mix;
    CoordinateIn(a.x, a.t, z.x, z.t, ta, tb, w, u, t, r, r', out.xmin, out.xmax);
    CoordinateIn(a.y, a.t, z.y, z.t, ta, tb, w, u, t, r, r', out.ymin, out.ymax);
  }

  lemma ShrinkSquare(out: Box, bc: Cone, t: real, r: real, r': real)
    requires SquareIn(out, bc, t, r) && r' <= r
    ensures SquareIn(out, bc, t, r')
  {
  }

  /** When the disc has grown for `rd / rv`, it has its full radius, before or at the middle of the lifetime. */
  lemma FullRadius(bc: Cone, k: real)
    requires WellFormed(bc) && bc.rv > 0.0 && k == bc.rd / bc.rv
    ensures k >= 0.0 && Travel(bc.rv, k) == bc.rd && bc.ps.t + k <= bc.pe.t - k
    ensures RadiusAt(bc, bc.ps.t + k) == bc.rd && RadiusAt(bc, bc.pe.t - k) == bc.rd
  {
    var rv, all := bc.rv, bc.pe.t - bc.ps.t;
    assert k * rv == bc.rd;
    if k < 0.0 { MulPos(-k, rv); }
    var rest := all - 2.0 * k;
    assert rv * rest == Travel(rv, all) - 2.0 * bc.rd;
    if rest < 0.0 { MulPos(rv, -rest); }
    var far := all - k;
    assert Travel(rv, far) == Travel(rv, all) - bc.rd;
    if k == 0.0 { assert bc.rd == 0.0; }
  }

  /** The box that holds the four breakpoints of the cone holds the disc at every instant. */
  lemma BoxHoldsDisc(out: Box, bc: Cone, k: real, t: real)
    requires WellFormed(bc) && bc.rv > 0.0 && k == bc.rd / bc.rv
    requires SquareIn(out, bc, bc.ps.t, 0.0) && SquareIn(out, bc, bc.pe.t, 0.0)
    requires SquareIn(out, bc, bc.ps.t + k, bc.rd) && SquareIn(out, bc, bc.pe.t - k, bc.rd)
    requires bc.ps.t <= t <= bc.pe.t
    ensures SquareIn(out, bc, t, RadiusAt(bc, t))
  {
    FullRadius(bc, k);
    var ts, te, t1, t2, rv := bc.ps.t, bc.pe.t, bc.ps.t + k, bc.pe.t - k, bc.rv;
    assert Travel(rv, ts - ts) == 0.0 && Travel(rv, te - te) == 0.0;
    assert Travel(rv, t1 - ts) == bc.rd && Travel(rv, te - t2) == bc.rd;
    hide Travel, Mix, SquareIn, CenterAt;
    if ts < t < t1 {
      var w, u := SquaresBetween(out, bc, ts, t1, t, 0.0, bc.rd);
      MixTravel(rv, ts, ts, t1, w, u, t);
      ShrinkSquare(out, bc, t, Mix(w, 0.0, u, bc.rd), RadiusAt(bc, t));
    } else if t1 <= t <= t2 {
      if t1 == t2 {
        ShrinkSquare(out, bc, t, bc.rd, RadiusAt(bc, t));
      } else {
        var w, u := SquaresBetween(out, bc, t1, t2, t, bc.rd, bc.rd);
        MixTravel(bc.rd, ts, t1, t2, w, u, t);
        ShrinkSquare(out, bc, t, Mix(w, bc.rd, u, bc.rd), RadiusAt(bc, t));
      }
    } else if t2 < t < te {
      var w, u := SquaresBetween(out, bc, t2, te, t, bc.rd, 0.0);
      MixTravel(rv, te, t2, te, w, u, t);
      ShrinkSquare(out, bc, t, Mix(w, bc.rd, u, 0.0), RadiusAt(bc, t));
    }
  }

  /** Without growth speed the box still holds the centre's whole path. */
  lemma BoxHoldsCentre(out: Box, bc: Cone, t: real)
    requires WellFormed(bc) && bc.ps.t <= t <= bc.pe.t
    requires SquareIn(out, bc, bc.ps.t, 0.0) && SquareIn(out, bc, bc.pe.t, 0.0)
    ensures out.ContainsPoint(CenterAt(bc.ps, bc.pe, t))
  {
    var w, u := SquaresBetween(out, bc, bc.ps.t, bc.pe.t, t, 0.0, 0.0);
  }

  /** Coordinates within the range an empty box starts from. */
  ghost predicate InRange(p: Point) {
    -INF <= p.x <= INF && -INF <= p.y <= INF && -INF <= p.t <= INF
  }

  /** The centre moves along each axis at least as fast as the disc grows. */
  ghost predicate Outruns(bc: Cone)
    requires bc.ps.t < bc.pe.t
  {
    Abs(Slope(bc.ps.x, bc.ps.t, bc.pe.x, bc.pe.t)) >= bc.rv && Abs(Slope(bc.ps.y, bc.ps.t, bc.pe.y, bc.pe.t)) >= bc.rv
  }

  /** On one axis: a disc outrun by the centre stays between the ends. */
  lemma AxisOutrun(x0: real, t0: real, x1: real, t1: real, rv: real, t: real, r: real)
    requires t0 < t1 && t0 <= t <= t1 && rv >= 0.0 && Abs(Slope(x0, t0, x1, t1)) >= rv
    requires r <= Travel(rv, t - t0) && r <= Travel(rv, t1 - t)
    ensures Min(x0, x1) <= Mid(x0, t0, x1, t1, t) - r && Mid(x0, t0, x1, t1, t) + r <= Max(x0, x1)
  {
    var v, a, b, c := Slope(x0, t0, x1, t1), t - t0, t1 - t, Mid(x0, t0, x1, t1, t);
    AxisMoves(x0, t0, x1, t1, t, v);
    hide Mid, Slope, Travel;
    var w := if v >= 0.0 then v else -v;
    TravelOrder(rv, w, a);
    TravelOrder(rv, w, b);
    TravelNegates(w, a);
    TravelNegates(w, b);
    TravelOrder(0.0, w, a);
    TravelOrder(0.0, w, b);
    TravelZero(a);
    TravelZero(b);
  }

  lemma AxisMoves(x0: real, t0: real, x1: real, t1: real, t: real, v: real)
    requires t0 < t1 && v == Slope(x0, t0, x1, t1)
    ensures Mid(x0, t0, x1, t1, t) == x0 + Travel(v, t - t0) == x1 - Travel(v, t1 - t)
  {
    MidIsLinear(x0, t0, x1, t1, t);
    var all, a, b := t1 - t0, t - t0, t1 - t;
    assert v * all == x1 - x0;
    assert v * a + v * b == v * all;
  }

  lemma TravelOrder(v: real, w: real, dt: real)
    requires v <= w && dt >= 0.0
    ensures Travel(v, dt) <= Travel(w, dt)
  {
    MulLe(dt, v, w);
  }

  lemma TravelNegates(v: real, dt: real)
    ensures Travel(-v, dt) == -Travel(v, dt)
  {
  }

  lemma TravelZero(dt: real)
    ensures Travel(0.0, dt) == 0.0
  {
  }

  /** ... and a disc that grows faster leaves it at full radius. */
  lemma AxisLeft(x0: real, t0: real, x1: real, t1: real, rv: real, k: real)
    requires t0 < t1 && k > 0.0 && Abs(Slope(x0, t0, x1, t1)) < rv
    ensures var c := Mid(x0, t0, x1, t1, t0 + k);
            c - Travel(rv, k) < Min(x0, x1) || c + Travel(rv, k) > Max(x0, x1)
  {
    var v, all := Slope(x0, t0, x1, t1), t1 - t0;
    AxisMoves(x0, t0, x1, t1, t0 + k, v);
    assert v * all == x1 - x0;
    if v >= 0.0 {
      MulNonneg(v, all);
      var d := rv - v;
      MulPos(d, k);
      RateSplit(rv, v, d, k);
    } else {
      MulPos(-v, all);
      var d := rv + v;
      MulPos(d, k);
      RateSplit(rv, -v, d, k);
      TravelNegates(v, k);
    }
  }

  /** The box of the two ends holds the disc throughout exactly if there is no disc or the centre outruns it. */
  lemma EndsHoldDiscIff(bc: Cone)
    requires WellFormed(bc) && InRange(bc.ps) && InRange(bc.pe)
    ensures var out := INFINITE_BOX.CombinePoint(bc.ps).CombinePoint(bc.pe);
            (forall t :: bc.ps.t <= t <= bc.pe.t ==> out.Contains(MBRAtTime(bc, t))) <==> bc.rd == 0.0 || Outruns(bc)
  {
    var a, z, out := bc.ps, bc.pe, INFINITE_BOX.CombinePoint(bc.ps).CombinePoint(bc.pe);
    assert out.xmin == Min(a.x, z.x) && out.xmax == Max(a.x, z.x) && out.ymin == Min(a.y, z.y)
           && out.ymax == Max(a.y, z.y);
    assert out.tmin == a.t && out.tmax == z.t;
    hide Box.CombinePoint, Mid, Slope, Travel;
    if bc.rd == 0.0 || Outruns(bc) {
      forall t | a.t <= t <= z.t
        ensures out.Contains(MBRAtTime(bc, t))
      {
        EndsHoldDisc(bc, out, t);
      }
    } else {
      var k := bc.rd / bc.rv;
      PositiveGrowth(bc, k);
      FullRadius(bc, k);
      var t := a.t + k;
      CenterIsChord(bc, t);
      if Abs(Slope(a.x, a.t, z.x, z.t)) < bc.rv {
        AxisLeft(a.x, a.t, z.x, z.t, bc.rv, k);
      } else {
        AxisLeft(a.y, a.t, z.y, z.t, bc.rv, k);
      }
      assert !out.Contains(MBRAtTime(bc, t));
    }
  }

  lemma PositiveGrowth(bc: Cone, k: real)
    requires WellFormed(bc) && bc.rd > 0.0 && (bc.rv != 0.0 ==> k == bc.rd / bc.rv)
    ensures bc.rv > 0.0 && k > 0.0 && bc.ps.t + k <= bc.pe.t
  {
    TravelZero(bc.pe.t - bc.ps.t);
    FullRadius(bc, k);
    if k == 0.0 { NoTravel(bc.rv); }
  }

  lemma EndsHoldDisc(bc: Cone, out: Box, t: real)
    requires WellFormed(bc) && bc.ps.t <= t <= bc.pe.t && (bc.rd == 0.0 || Outruns(bc))
    requires out.xmin == Min(bc.ps.x, bc.pe.x) && out.xmax == Max(bc.ps.x, bc.pe.x)
    requires out.ymin == Min(bc.ps.y, bc.pe.y) && out.ymax == Max(bc.ps.y, bc.pe.y) && out.tmin == bc.ps.t
             && out.tmax == bc.pe.t
    ensures out.Contains(MBRAtTime(bc, t))
  {
    var a, z, r := bc.ps, bc.pe, RadiusAt(bc, t);
    CenterIsChord(bc, t);
    hide Mid, Slope, Travel;
    NoTravel(bc.rv);
    TravelNonneg(bc.rv, t - a.t);
    TravelNonneg(bc.rv, z.t - t);
    if bc.rd == 0.0 {
      CenterIsChord(bc, a.t);
      CenterIsChord(bc, z.t);
      assert r == 0.0;
      BoxHoldsCentre(out, bc, t);
    } else {
      AxisOutrun(a.x, a.t, z.x, z.t, bc.rv, t, r);
      AxisOutrun(a.y, a.t, z.y, z.t, bc.rv, t, r);
    }
  }

  /** The box around both ends and, for a visible growth speed, both breakpoints. */
  method GetxMBR(bc: Cone) returns (out: Box)
    requires WellFormed(bc)
    ensures bc.rv > 0.000000001 ==> forall t :: bc.ps.t <= t <= bc.pe.t ==> out.Contains(MBRAtTime(bc, t))
    ensures forall t :: bc.ps.t <= t <= bc.pe.t ==> out.ContainsPoint(CenterAt(bc.ps, bc.pe, t))
    ensures forall c: Box :: c.Contains(INFINITE_BOX) && c.ContainsPoint(bc.ps) && c.ContainsPoint(bc.pe)
              && (bc.rv > 0.000000001 ==>
                    c.Contains(MBRAtTime(bc, bc.ps.t + bc.rd / bc.rv))
                    && c.Contains(MBRAtTime(bc, bc.pe.t - bc.rd / bc.rv)))
              ==> c.Contains(out)
    ensures bc.rv <= 0.000000001 && InRange(bc.ps) && InRange(bc.pe) ==>
              ((forall t :: bc.ps.t <= t <= bc.pe.t ==> out.Contains(MBRAtTime(bc, t)))
               <==> bc.rd == 0.0 || Outruns(bc))
  {
    hide MBRAtTime, CenterRdAtTime, CenterAt, Travel, Mid;
    out := INFINITE_BOX;
    ghost var early, late := out, out;
    if bc.rv > 0.000000001 {
      var ts := bc.rd / bc.rv;
      early, late := MBRAtTime(bc, bc.ps.t + ts), MBRAtTime(bc, bc.pe.t - ts);
      out := out.CombineBox(MBRAtTime(bc, bc.ps.t + ts));
      out := out.CombineBox(MBRAtTime(bc, bc.pe.t - ts));
    }
    out := out.CombinePoint(bc.ps);
    out := out.CombinePoint(bc.pe);
    forall t | bc.ps.t <= t <= bc.pe.t
      ensures out.ContainsPoint(CenterAt(bc.ps, bc.pe, t))
      ensures bc.rv > 0.000000001 ==> out.Contains(MBRAtTime(bc, t))
    {
      CornersHoldCone(out, bc, early, late, t);
    }
    if bc.rv <= 0.000000001 && InRange(bc.ps) && InRange(bc.pe) { EndsHoldDiscIff(bc); }
  }

  lemma CornersHoldCone(out: Box, bc: Cone, early: Box, late: Box, t: real)
    requires WellFormed(bc) && bc.ps.t <= t <= bc.pe.t
    requires out.ContainsPoint(bc.ps) && out.ContainsPoint(bc.pe)
    requires bc.rv > 0.000000001 ==>
      && early == MBRAtTime(bc, bc.ps.t + bc.rd / bc.rv) && out.Contains(early)
      && late == MBRAtTime(bc, bc.pe.t - bc.rd / bc.rv) && out.Contains(late)
    ensures out.ContainsPoint(CenterAt(bc.ps, bc.pe, t))
    ensures bc.rv > 0.000000001 ==> out.Contains(MBRAtTime(bc, t))
  {
    hide Travel, Mid;
    CenterIsChord(bc, bc.ps.t);
    CenterIsChord(bc, bc.pe.t);
    BoxHoldsCentre(out, bc, t);
    if bc.rv > 0.000000001 {
      var k := bc.rd / bc.rv;
      FullRadius(bc, k);
      BoxHoldsDisc(out, bc, k, t);
    }
  }
}
