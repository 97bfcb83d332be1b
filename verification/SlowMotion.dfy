/** Where the filter's shortcuts cost exactness: motion of less than sqrt(1e-7) in the common period counts as standing
    still at its start, and growth slower than 1e-7 as full radius throughout. */
module SlowMotion {
  import opened Geometry
  import opened RelativeMotion
  import opened MovingCone
  import opened CylinderFilter
  import opened FilterSoundness

  /** The common period of a shape living from `ps` to `pe` and a query is slow, wherever the query is. */
  ghost predicate SlowPeriod(ps: Point, pe: Point, tlow: real, thigh: real) {
    Slow(Cylinder(ps, 0.0, tlow, thigh), ps, pe)
  }

  lemma SlowAnywhere(cy: Cylinder, ps: Point, pe: Point)
    ensures Slow(cy, ps, pe) <==> SlowPeriod(ps, pe, cy.tlow, cy.thigh)
  {
    var w, w' := ConeWindow(cy, ps, pe), ConeWindow(Cylinder(ps, 0.0, cy.tlow, cy.thigh), ps, pe);
    assert w.dxs - w.dxe == w'.dxs - w'.dxe && w.dys - w.dye == w'.dys - w'.dye;
  }

  // ----- straight segments

  /** How the difference at the start and its change point along each other. */
  function Lead(w: Window): real { w.dxs * (w.dxe - w.dxs) + w.dys * (w.dye - w.dys) }

  /** The difference grows, or stays as long, at the start of the window. */
  predicate Away(w: Window) { Lead(w) >= 0.0 }

  /** What a part `u` of a change adds to a square. */
  function Added(u: real, lead: real, n: real): real { 2.0 * u * lead + u * u * n }

  /** The squared distance as a quadratic in the part `u` of the window that has passed. */
  lemma DistanceAlong(w: Window, u: real, t: real)
    requires w.ts < w.te && t == w.ts + u * (w.te - w.ts)
    ensures D2(w, t) == D2(w, w.ts) + Added(u, Lead(w), C1(w))
  {
    var ex, ey := w.dxe - w.dxs, w.dye - w.dys;
    var px, py, nx, ny := w.dxs * ex, w.dys * ey, Sq(ex), Sq(ey);
    D2AtEnds(w);
    AxisAlong(w.dxs, w.dxe, w.ts, w.te, u, t, ex, px, nx);
    AxisAlong(w.dys, w.dye, w.ts, w.te, u, t, ey, py, ny);
    SqNeg(w.dxs - w.dxe, ex);
    SqNeg(w.dys - w.dye, ey);
    assert C1(w) == nx + ny && Lead(w) == px + py;
    var mx, my := Mid(w.dxs, w.ts, w.dxe, w.te, t), Mid(w.dys, w.ts, w.dye, w.te, t);
    assert D2(w, t) == Sq(mx) + Sq(my);
    assert Sq(mx) == Sq(w.dxs) + Added(u, px, nx);
    assert Sq(my) == Sq(w.dys) + Added(u, py, ny);
    hide *;
    AddedSum(u, px, nx, py, ny, px + py, nx + ny);
  }

  lemma AddedSum(u: real, p: real, n: real, p': real, n': real, p'': real, n'': real)
    requires p'' == p + p' && n'' == n + n'
    ensures Added(u, p'', n'') == Added(u, p, n) + Added(u, p', n')
  {
    Distribute(2.0 * u, p, p', p'');
    Distribute(u * u, n, n', n'');
  }

  lemma AxisAlong(ds: real, de: real, ts: real, te: real, u: real, t: real, e: real, p: real, n: real)
    requires ts < te && t == ts + u * (te - ts) && e == de - ds && p == ds * e && n == Sq(e)
    ensures Sq(Mid(ds, ts, de, te, t)) == Sq(ds) + Added(u, p, n)
  {
    MidIsLinear(ds, ts, de, te, t);
    var k, m := te - ts, Slope(ds, ts, de, te);
    assert m * k == e;
    assert m * (u * k) == u * (m * k);
    assert Mid(ds, ts, de, te, t) == ds + u * e;
    hide Mid;
    SquareSum(ds, e, u);
  }

  lemma SquareSum(d: real, e: real, u: real)
    ensures Sq(d + u * e) == Sq(d) + Added(u, d * e, Sq(e))
  {
  }

  /** The start is the nearest point of the window exactly if the motion leads away at the start. */
  lemma StartNearestIffAway(w: Window)
    requires w.ts < w.te && C1(w) > 0.0
    ensures (forall t :: w.ts <= t <= w.te ==> D2(w, w.ts) <= D2(w, t)) <==> Away(w)
  {
    var dot, n, k := Lead(w), C1(w), w.te - w.ts;
    hide D2, C1, Lead;
    if dot >= 0.0 {
      forall t | w.ts <= t <= w.te
        ensures D2(w, w.ts) <= D2(w, t)
      {
        var u := Portion(w.ts, k, t);
        DistanceAlong(w, u, t);
        MulNonneg(u, dot);
        MulNonneg(u * u, n);
      }
    } else {
      var u := NearerPart(dot, n);
      var t := w.ts + u * k;
      MulNonneg(u, k);
      MulLe(k, u, 1.0);
      DistanceAlong(w, u, t);
      assert D2(w, w.ts) > D2(w, t) && w.ts <= t <= w.te;
    }
  }

  lemma Portion(ts: real, k: real, t: real) returns (u: real)
    requires k > 0.0 && t >= ts
    ensures u >= 0.0 && t == ts + u * k
  {
    u := (t - ts) / k;
    assert u * k == t - ts;
    if u < 0.0 { MulPos(-u, k); }
  }

  lemma NearerPart(dot: real, n: real) returns (u: real)
    requires dot < 0.0 < n
    ensures 0.0 < u <= 1.0 && Added(u, dot, n) < 0.0
  {
    u := 1.0;
    if -dot < n {
      u := -dot / n;
      assert u * n == -dot;
      if u <= 0.0 { MulNonneg(-u, n); }
      if u > 1.0 { MulLe(n, 1.0, u); }
      var un, gain := u * n, u * -dot;
      MulPos(u, -dot);
      assert u * u * n == u * un == gain;
      var lead := u * dot;
      assert lead == -gain && Added(u, dot, n) == 2.0 * lead + u * un;
    }
  }

  /** The segment is within the query radius at some common instant. */
  ghost predicate LineVisits(cy: Cylinder, ps: Point, pe: Point) {
    exists t :: Common(cy, ps, pe, t) && Within(CenterAt(ps, pe, t), cy.p, cy.r)
  }

  /** For a query around `q`, whatever its radius, the answer "clear" is right. */
  ghost predicate LineRight(sqrt: real -> real, q: Point, ps: Point, pe: Point, tlow: real, thigh: real) {
    forall r :: r >= 0.0 && LineAnswers(sqrt, Cylinder(q, r, tlow, thigh), ps, pe, 0) ==>
          !LineVisits(Cylinder(q, r, tlow, thigh), ps, pe)
  }

  /** On a segment "clear" is right for every radius exactly if the common period is not slow or the segment leads
      away from the query centre at its start. */
  lemma LineRightExact(sqrt: real -> real, q: Point, ps: Point, pe: Point, tlow: real, thigh: real)
    requires IsSqrt(sqrt) && ps.t < pe.t && tlow <= thigh
    ensures LineRight(sqrt, q, ps, pe, tlow, thigh)
       <==> !SlowPeriod(ps, pe, tlow, thigh) || Away(ConeWindow(Cylinder(q, 0.0, tlow, thigh), ps, pe))
  {
    var w := ConeWindow(Cylinder(q, 0.0, tlow, thigh), ps, pe);
    hide Within, C1, D2, CenterAt, Away, ConeWindow, LineAnswers, Slow, SlowPeriod, IsSqrt;
    if !SlowPeriod(ps, pe, tlow, thigh) || Away(w) {
      forall r | r >= 0.0 && LineAnswers(sqrt, Cylinder(q, r, tlow, thigh), ps, pe, 0)
        ensures !LineVisits(Cylinder(q, r, tlow, thigh), ps, pe)
      {
        LineClear(sqrt, Cylinder(q, r, tlow, thigh), ps, pe);
      }
    } else {
      var r := LineMissed(sqrt, q, ps, pe, tlow, thigh);
      assert !LineRight(sqrt, q, ps, pe, tlow, thigh);
    }
  }

  lemma SameWindow(q: Point, r: real, ps: Point, pe: Point, tlow: real, thigh: real)
    ensures ConeWindow(Cylinder(q, r, tlow, thigh), ps, pe) == ConeWindow(Cylinder(q, 0.0, tlow, thigh), ps, pe)
  {
  }

  lemma SlowWindow(cy: Cylinder, ps: Point, pe: Point)
    requires Slow(cy, ps, pe)
    ensures var w := ConeWindow(cy, ps, pe); w.ts < w.te && C1(w) > 0.0
  {
  }

  lemma LineClear(sqrt: real -> real, cy: Cylinder, ps: Point, pe: Point)
    requires IsSqrt(sqrt) && IsQuery(cy) && ps.t < pe.t && LineAnswers(sqrt, cy, ps, pe, 0)
    requires !SlowPeriod(ps, pe, cy.tlow, cy.thigh) || Away(ConeWindow(Cylinder(cy.p, 0.0, cy.tlow, cy.thigh), ps, pe))
    ensures !LineVisits(cy, ps, pe)
  {
    SlowAnywhere(cy, ps, pe);
    SameWindow(cy.p, cy.r, ps, pe, cy.tlow, cy.thigh);
    var w := ConeWindow(cy, ps, pe);
    if t :| Common(cy, ps, pe, t) && Within(CenterAt(ps, pe, t), cy.p, cy.r) {
      hide C1, CenterAt, Away, DistSq;
      if Slow(cy, ps, pe) {
        SlowWindow(cy, ps, pe);
        StartNearestIffAway(w);
        ConeWindowDistance(cy, ps, pe, t);
        ConeWindowDistance(cy, ps, pe, w.ts);
      } else {
        NoDrift(sqrt, cy, ps, pe, t);
      }
    }
  }

  lemma LineMissed(sqrt: real -> real, q: Point, ps: Point, pe: Point, tlow: real, thigh: real) returns (r: real)
    requires IsSqrt(sqrt) && ps.t < pe.t && tlow <= thigh
    requires SlowPeriod(ps, pe, tlow, thigh) && !Away(ConeWindow(Cylinder(q, 0.0, tlow, thigh), ps, pe))
    ensures r >= 0.0 && LineAnswers(sqrt, Cylinder(q, r, tlow, thigh), ps, pe, 0)
            && LineVisits(Cylinder(q, r, tlow, thigh), ps, pe)
  {
    var w := ConeWindow(Cylinder(q, 0.0, tlow, thigh), ps, pe);
    SlowAnywhere(Cylinder(q, 0.0, tlow, thigh), ps, pe);
    SlowWindow(Cylinder(q, 0.0, tlow, thigh), ps, pe);
    StartNearestIffAway(w);
    hide C1, CenterAt, Away, DistSq, Sq;
    var t :| w.ts <= t <= w.te && D2(w, w.ts) > D2(w, t);
    hide D2;
    SqrtOf(sqrt, D2(w, t));
    r := sqrt(D2(w, t));
    var cy := Cylinder(q, r, tlow, thigh);
    SlowAnywhere(cy, ps, pe);
    SameWindow(q, r, ps, pe, tlow, thigh);
    ConeWindowDistance(cy, ps, pe, t);
    ConeWindowDistance(cy, ps, pe, w.ts);
    assert Common(cy, ps, pe, t) && Within(CenterAt(ps, pe, t), cy.p, cy.r);
    assert !StartsWithin(cy, ps, pe, r);
    hide Slow, ConeWindow;
    LineDistance(sqrt, cy, ps, pe);
    LineStart(sqrt, cy, ps, pe);
  }

  // ----- cones

  /** From the start `ts` of the common period until `t` the centre has moved no farther than the disc falls short of
      its full radius. */
  ghost predicate CoveredAt(bc: Cone, ts: real, t: real) {
    Within(CenterAt(bc.ps, bc.pe, t), CenterAt(bc.ps, bc.pe, ts), bc.rd - RadiusAt(bc, t))
  }

  ghost predicate Covered(bc: Cone, tlow: real, thigh: real) {
    forall t :: Max(bc.ps.t, tlow) <= t <= Min(bc.pe.t, thigh) ==> CoveredAt(bc, Max(bc.ps.t, tlow), t)
  }

  /** The disc shares a place with the query at some common instant. */
  ghost predicate ConeVisits(cy: Cylinder, bc: Cone) { exists t :: Meets(cy, bc, t, 0.0) }

  /** For a query of this period, wherever and however large it is, the answer "clear" is right. */
  ghost predicate ConeRight(sqrt: real -> real, bc: Cone, tlow: real, thigh: real) {
    forall q, r :: r >= 0.0 && Answers(sqrt, Cylinder(q, r, tlow, thigh), bc, 0) ==>
          !ConeVisits(Cylinder(q, r, tlow, thigh), bc)
  }

  /** On a cone "clear" is right for every query of a period exactly if the common period is not slow or full radius at
      the start would have covered the disc throughout. */
  lemma ConeRightExact(sqrt: real -> real, bc: Cone, tlow: real, thigh: real)
    requires IsSqrt(sqrt) && WellFormed(bc) && tlow <= thigh
    ensures ConeRight(sqrt, bc, tlow, thigh) <==> !SlowPeriod(bc.ps, bc.pe, tlow, thigh) || Covered(bc, tlow, thigh)
  {
    hide Answers, SlowPeriod, IsSqrt, WellFormed, CoveredAt, Meets;
    if !SlowPeriod(bc.ps, bc.pe, tlow, thigh) || Covered(bc, tlow, thigh) {
      forall q, r | r >= 0.0 && Answers(sqrt, Cylinder(q, r, tlow, thigh), bc, 0)
        ensures !ConeVisits(Cylinder(q, r, tlow, thigh), bc)
      {
        ConeClear(sqrt, Cylinder(q, r, tlow, thigh), bc);
      }
    } else {
      var t :| Max(bc.ps.t, tlow) <= t <= Min(bc.pe.t, thigh) && !CoveredAt(bc, Max(bc.ps.t, tlow), t);
      var q := ConeMissed(sqrt, bc, tlow, thigh, t);
      assert ConeVisits(Cylinder(q, 0.0, tlow, thigh), bc);
      assert !ConeRight(sqrt, bc, tlow, thigh);
    }
  }

  lemma ConeClear(sqrt: real -> real, cy: Cylinder, bc: Cone)
    requires IsSqrt(sqrt) && IsQuery(cy) && WellFormed(bc) && Answers(sqrt, cy, bc, 0)
    requires !SlowPeriod(bc.ps, bc.pe, cy.tlow, cy.thigh) || Covered(bc, cy.tlow, cy.thigh)
    ensures !ConeVisits(cy, bc)
  {
    SlowAnywhere(cy, bc.ps, bc.pe);
    if t :| Meets(cy, bc, t, 0.0) {
      if Slow(cy, bc.ps, bc.pe) {
        var ts := Max(bc.ps.t, cy.tlow);
        assert CoveredAt(bc, ts, t);
        hide DistSq, Sq, CenterAt, RadiusAt, Slow, Drift;
        var c, c' := CenterAt(bc.ps, bc.pe, ts), CenterAt(bc.ps, bc.pe, t);
        CenterNearPosition(c, c', cy.p, bc.rd - RadiusAt(bc, t), cy.r + RadiusAt(bc, t) - 0.0);
      } else {
        hide Slow, RadiusAt, CenterAt, Within;
        NoDrift(sqrt, cy, bc.ps, bc.pe, t);
      }
    }
  }

  /** If the disc is not covered at `t`, a query of radius 0 just beyond it is cleared and yet met. */
  lemma ConeMissed(sqrt: real -> real, bc: Cone, tlow: real, thigh: real, t: real) returns (q: Point)
    requires IsSqrt(sqrt) && WellFormed(bc) && tlow <= thigh && SlowPeriod(bc.ps, bc.pe, tlow, thigh)
    requires Max(bc.ps.t, tlow) <= t <= Min(bc.pe.t, thigh) && !CoveredAt(bc, Max(bc.ps.t, tlow), t)
    ensures Answers(sqrt, Cylinder(q, 0.0, tlow, thigh), bc, 0) && Meets(Cylinder(q, 0.0, tlow, thigh), bc, t, 0.0)
  {
    var c, c' := CenterAt(bc.ps, bc.pe, Max(bc.ps.t, tlow)), CenterAt(bc.ps, bc.pe, t);
    RadiusBounds(bc, t);
    BreakpointsInside(bc);
    q := Beyond(sqrt, c, c', bc.rd - RadiusAt(bc, t), RadiusAt(bc, t), bc.rd);
    var cy := Cylinder(q, 0.0, tlow, thigh);
    SlowAnywhere(cy, bc.ps, bc.pe);
    assert Meets(cy, bc, t, 0.0);
    assert !StartsWithin(cy, bc.ps, bc.pe, cy.r + bc.rd);
    assert Max(bc.ps.t, tlow) < Min(bc.pe.t, thigh);
    hide StartsWithin, Slow, Meets, CenterAt, RadiusAt, Within, WholeDistance, MiddleDistance, Answers, SlowPeriod;
    SlowStart(sqrt, cy, bc, cy.r + bc.rd);
    AnswerFar(sqrt, cy, bc);
  }

  /** A place at distance `radius` from `c'`, on the far side from `c`. */
  lemma Beyond(sqrt: real -> real, c: Point, c': Point, gap: real, radius: real, rd: real) returns (q: Point)
    requires IsSqrt(sqrt) && radius >= 0.0 && gap >= 0.0 && rd == gap + radius && !Within(c', c, gap)
    ensures Within(c', q, radius) && !Within(c, q, rd)
  {
    var ex, ey, dd := c'.x - c.x, c'.y - c.y, DistSq(c', c);
    var n := sqrt(dd);
    SqrtOf(sqrt, dd);
    if n <= gap { SquareMono(n, gap); }
    var k := radius / n;
    assert k * n == radius;
    q := Point(c'.x + k * ex, c'.y + k * ey, c'.t);
    Scaled(ex, ey, dd, k, radius, n);
    SqNeg(c'.x - q.x, k * ex);
    SqNeg(c'.y - q.y, k * ey);
    BeyondFar(c, c', q, ex, ey, dd, n, k, radius, rd);
  }

  lemma BeyondFar(c: Point, c': Point, q: Point, ex: real, ey: real, dd: real, n: real, k: real, radius: real, rd: real)
    requires dd == Sq(ex) + Sq(ey) == Sq(n) && k * n == radius >= 0.0 && n + radius > rd >= 0.0
    requires ex == c'.x - c.x && ey == c'.y - c.y && q == Point(c'.x + k * ex, c'.y + k * ey, c'.t)
    ensures !Within(c, q, rd)
  {
    var k', far := 1.0 + k, n + radius;
    var fx, fy := k' * ex, k' * ey;
    assert k' * n == far;
    assert c.x - q.x == -fx && c.y - q.y == -fy;
    hide Sq;
    SqNeg(c.x - q.x, fx);
    SqNeg(c.y - q.y, fy);
    Scaled(ex, ey, dd, k', far, n);
    if Sq(far) <= Sq(rd) { SquareLe(far, rd); }
  }

  lemma Scaled(ex: real, ey: real, dd: real, k: real, kn: real, n: real)
    requires dd == Sq(ex) + Sq(ey) == Sq(n) && k * n == kn
    ensures Sq(k * ex) + Sq(k * ey) == Sq(kn)
  {
    var kk := Sq(k);
    assert Sq(k * ex) == kk * Sq(ex) && Sq(k * ey) == kk * Sq(ey) && Sq(k * n) == kk * Sq(n);
    Distribute(kk, Sq(ex), Sq(ey), dd);
  }

  // ----- the condition at two instants

  /** When the disc begins to shrink, or the nearest instant of the period. */
  function TurnTime(bc: Cone, ts: real, te: real): real {
    if bc.rv == 0.0 then te else Max(ts, Min(te, bc.pe.t - bc.rd / bc.rv))
  }

  /** Before it begins to shrink the disc only grows; after that its radius falls at constant speed. */
  lemma RadiusTurns(bc: Cone, k: real, t: real, t': real)
    requires WellFormed(bc) && bc.rv > 0.0 && k == bc.rd / bc.rv && bc.ps.t <= t <= t' <= bc.pe.t
    ensures t' <= bc.pe.t - k ==> RadiusAt(bc, t) <= RadiusAt(bc, t')
    ensures bc.pe.t - k <= t ==> RadiusAt(bc, t) == Travel(bc.rv, bc.pe.t - t)
  {
    FullRadius(bc, k);
    RadiusBounds(bc, t');
    NoTravel(bc.rv);
    hide Travel;
    var rv, ps, pe := bc.rv, bc.ps.t, bc.pe.t;
    TravelMono(rv, t - ps, t' - ps);
    if t' <= pe - k { TravelMono(rv, k, pe - t'); }
    if pe - k <= t {
      TravelMono(rv, pe - t, k);
      TravelMono(rv, k, t - ps);
    }
  }

  lemma AxisBetween(a: real, b: real, q: real, ta: real, tb: real, t: real, w: real, u: real)
    requires ta < tb && w + u == 1.0 && u == (t - ta) / (tb - ta) && w == (tb - t) / (tb - ta)
    ensures Mid(a, ta, b, tb, t) - q == Mix(w, a - q, u, b - q)
  {
    MixDifference(w, u, a, b, q, q);
    assert Mix(w, q, u, q) == q by { assert w == 1.0 - u; }
  }

  /** Straight motion between two places within bounds of `q` respects the mixed bound. */
  lemma CenterBetween(ps: Point, pe: Point, q: Point, ta: real, tb: real, t: real, ra: real, rb: real)
    returns (w: real, u: real)
    requires ps.t < pe.t && ps.t <= ta < tb <= pe.t && ta <= t <= tb
    requires Within(CenterAt(ps, pe, ta), q, ra) && Within(CenterAt(ps, pe, tb), q, rb)
    ensures w >= 0.0 && u >= 0.0 && w + u == 1.0 && t == Mix(w, ta, u, tb)
    ensures Within(CenterAt(ps, pe, t), q, Mix(w, ra, u, rb))
  {
    var a, b, c := CenterAt(ps, pe, ta), CenterAt(ps, pe, tb), CenterAt(ps, pe, t);
    CenterConvex(ps, pe, ta, tb, t);
    w, u := Weights(ta, tb, t);
    hide CenterAt, Sq, Mix;
    AxisBetween(a.x, b.x, q.x, ta, tb, t, w, u);
    AxisBetween(a.y, b.y, q.y, ta, tb, t, w, u);
    hide Mid;
    DiscConvex(a.x - q.x, a.y - q.y, b.x - q.x, b.y - q.y, ra, rb, w, u);
  }

  lemma CoveredEarly(bc: Cone, ts: real, t': real, t: real)
    requires WellFormed(bc) && bc.ps.t <= ts < t' <= bc.pe.t && ts <= t <= t' && RadiusAt(bc, t) <= RadiusAt(bc, t')
    requires CoveredAt(bc, ts, t')
    ensures CoveredAt(bc, ts, t)
  {
    var q, gap := CenterAt(bc.ps, bc.pe, ts), bc.rd - RadiusAt(bc, t');
    hide CenterAt, RadiusAt, WellFormed;
    assert Within(q, q, 0.0);
    hide Sq, DistSq;
    assert bc.ps.t < bc.pe.t;
    var w, u := CenterBetween(bc.ps, bc.pe, q, ts, t', t, 0.0, gap);
    MulLe(gap, u, 1.0);
    WithinMono(CenterAt(bc.ps, bc.pe, t), q, Mix(w, 0.0, u, gap), bc.rd - RadiusAt(bc, t));
  }

  lemma CoveredLate(bc: Cone, k: real, ts: real, turn: real, te: real, t: real)
    requires WellFormed(bc) && bc.rv > 0.0 && k == bc.rd / bc.rv
    requires bc.ps.t <= ts <= turn < te <= bc.pe.t && bc.pe.t - k <= turn <= t <= te
    requires CoveredAt(bc, ts, turn) && CoveredAt(bc, ts, te)
    ensures CoveredAt(bc, ts, t)
  {
    RadiusTurns(bc, k, turn, te);
    RadiusTurns(bc, k, te, te);
    RadiusTurns(bc, k, t, te);
    hide CenterAt, RadiusAt, Sq, DistSq, Mix, Travel;
    var pe, rv := bc.pe.t, bc.rv;
    var ra, rb := Travel(rv, pe - turn), Travel(rv, pe - te);
    var w, u := CenterBetween(bc.ps, bc.pe, CenterAt(bc.ps, bc.pe, ts), turn, te, t, bc.rd - ra, bc.rd - rb);
    MixTravel(bc.rd, pe, turn, te, w, u, t);
    MixTravel(rv, pe, turn, te, w, u, t);
    MixDifference(w, u, bc.rd, bc.rd, ra, rb);
  }

  /** Whether the disc is covered throughout shows at two instants: the end, and when it begins to shrink. */
  lemma CoveredShowsAtTwo(bc: Cone, tlow: real, thigh: real)
    requires WellFormed(bc) && Max(bc.ps.t, tlow) < Min(bc.pe.t, thigh)
    ensures var ts, te := Max(bc.ps.t, tlow), Min(bc.pe.t, thigh);
            Covered(bc, tlow, thigh) <==> CoveredAt(bc, ts, te) && CoveredAt(bc, ts, TurnTime(bc, ts, te))
  {
    var ts, te := Max(bc.ps.t, tlow), Min(bc.pe.t, thigh);
    var turn := TurnTime(bc, ts, te);
    assert ts <= turn <= te;
    hide CoveredAt, RadiusAt, WellFormed;
    if CoveredAt(bc, ts, te) && CoveredAt(bc, ts, turn) {
      forall t | ts <= t <= te
        ensures CoveredAt(bc, ts, t)
      {
        CoveredFrom(bc, ts, te, t);
      }
    }
  }

  lemma CoveredFrom(bc: Cone, ts: real, te: real, t: real)
    requires WellFormed(bc) && bc.ps.t <= ts <= t <= te <= bc.pe.t && ts < te
    requires CoveredAt(bc, ts, te) && CoveredAt(bc, ts, TurnTime(bc, ts, te))
    ensures CoveredAt(bc, ts, t)
  {
    var turn := TurnTime(bc, ts, te);
    hide CoveredAt, RadiusAt;
    if bc.rv == 0.0 {
      StillDisc(bc, t);
      StillDisc(bc, te);
      CoveredEarly(bc, ts, te, t);
    } else {
      var k := bc.rd / bc.rv;
      if t < turn {
        RadiusTurns(bc, k, t, turn);
        CoveredEarly(bc, ts, turn, t);
      } else if t > turn {
        CoveredLate(bc, k, ts, turn, te, t);
      }
    }
  }

  lemma StillDisc(bc: Cone, t: real)
    requires WellFormed(bc) && bc.rv == 0.0
    ensures RadiusAt(bc, t) == 0.0
  {
    RadiusBounds(bc, t);
  }

  // ----- growth too slow to be seen

  function CrawlingCone(v: real, rd: real, rv: real): Cone { Cone(Point(0.0, 0.0, 0.0), Point(v, 0.0, 1.0), rd, rv) }

  /** The place from which that cone starts at distance 1. */
  function CrawlQuery(): Cylinder { Cylinder(Point(-1.0, 0.0, 0.0), 1.0, 0.0, 1.0) }

  /** The disc is inside the query at the start, when its radius is 0; but the only answer is "maybe". */
  lemma MissesSlowGrowth(sqrt: real -> real, v: real, rd: real, rv: real, z: real, res: int)
    requires v >= 1.0 && 0.0 < rd && 2.0 * rd <= rv < 0.0000001 && z == 0.0
    ensures IsQuery(CrawlQuery()) && WellFormed(CrawlingCone(v, rd, rv))
            && Inside(CrawlQuery(), CrawlingCone(v, rd, rv), z)
    ensures Answers(sqrt, CrawlQuery(), CrawlingCone(v, rd, rv), res) ==> res == 1
  {
    var cy, bc := CrawlQuery(), CrawlingCone(v, rd, rv);
    CrawlBasics(v, rd, rv, z);
    forall t ensures !FullInside(cy, bc, t) { CrawlNeverFull(v, rd, rv, t); }
    hide CrawlQuery, CrawlingCone, FullInside, Inside, Meets, Close, StartsWithin, NearestFull, Drift, Steady,
         Resolvable;
  }

  lemma CrawlBasics(v: real, rd: real, rv: real, z: real)
    requires v >= 1.0 && 0.0 < rd && 2.0 * rd <= rv < 0.0000001 && z == 0.0
    ensures var cy, bc := CrawlQuery(), CrawlingCone(v, rd, rv);
      && IsQuery(cy) && cy.tlow < cy.thigh && WellFormed(bc) && bc.rv < 0.0000001 && !Slow(cy, bc.ps, bc.pe)
      && Inside(cy, bc, z) && Close(cy, bc, z)
  {
    var cy, bc := CrawlQuery(), CrawlingCone(v, rd, rv);
    CrawlWindow(v, rd, rv);
    CrawlStart(v, rd, rv, z);
    hide C1, CenterAt, ConeWindow, Sq, DistSq, RadiusAt, CenterRdAtTime;
    InsideMeetsClose(cy, bc, z);
  }

  lemma CrawlWindow(v: real, rd: real, rv: real)
    requires v >= 1.0
    ensures !Slow(CrawlQuery(), CrawlingCone(v, rd, rv).ps, CrawlingCone(v, rd, rv).pe)
  {
    var w := ConeWindow(CrawlQuery(), CrawlingCone(v, rd, rv).ps, CrawlingCone(v, rd, rv).pe);
    assert w.dxs == -1.0 && w.dxe == -1.0 - v;
    assert w.dxs - w.dxe == v;
    SquareMono(1.0, v);
  }

  lemma CrawlStart(v: real, rd: real, rv: real, z: real)
    requires v >= 1.0 && 0.0 < rd && 2.0 * rd <= rv && z == 0.0
    ensures WellFormed(CrawlingCone(v, rd, rv)) && Inside(CrawlQuery(), CrawlingCone(v, rd, rv), z)
  {
    var cy, bc := CrawlQuery(), CrawlingCone(v, rd, rv);
    assert CenterAt(bc.ps, bc.pe, z) == bc.ps && RadiusAt(bc, z) == 0.0;
    assert DistSq(bc.ps, cy.p) == Sq(cy.r - 0.0);
  }

  lemma CrawlNeverFull(v: real, rd: real, rv: real, t: real)
    requires v >= 1.0 && 0.0 < rd
    ensures !FullInside(CrawlQuery(), CrawlingCone(v, rd, rv), t)
  {
    var cy, bc := CrawlQuery(), CrawlingCone(v, rd, rv);
    if FullInside(cy, bc, t) {
      CenterIsChord(Cone(bc.ps, bc.pe, 0.0, 0.0), t);
      MidIsLinear(0.0, 0.0, v, 1.0, t);
      var c := CenterAt(bc.ps, bc.pe, t);
      assert Slope(0.0, 0.0, v, 1.0) == v;
      hide CenterAt, Mid, Slope;
      MulNonneg(v, t);
      assert c.x - cy.p.x >= 1.0;
      SquareMono(1.0, c.x - cy.p.x);
      hide Sq;
      SquareLe(1.0, cy.r - rd);
    }
  }

  // ----- a family of wrong answers

  function SlowQuery(e: real): Cylinder { Cylinder(Point(e, 0.0, 0.0), 0.0, 0.0, 1.0) }

  function SlowCone(e: real): Cone { Cone(Point(0.0, 0.0, 0.0), Point(e, 0.0, 1.0), 0.0, 0.0) }

  /** The object arrives exactly at the query centre, and still the only answer, for its cone and for its segment, is
      "clear". */
  lemma MissesSlowMotion(sqrt: real -> real, e: real, res: int)
    requires IsSqrt(sqrt) && e > 0.0 && Sq(e) < 0.0000001
    ensures IsQuery(SlowQuery(e)) && WellFormed(SlowCone(e)) && Inside(SlowQuery(e), SlowCone(e), 1.0)
    ensures Answers(sqrt, SlowQuery(e), SlowCone(e), res) ==> res == 0
    ensures LineVisits(SlowQuery(e), SlowCone(e).ps, SlowCone(e).pe)
    ensures LineAnswers(sqrt, SlowQuery(e), SlowCone(e).ps, SlowCone(e).pe, res) ==> res == 0
  {
    SlowCase(e);
    assert SlowQuery(e).r + SlowCone(e).rd == 0.0;
    hide SlowQuery, SlowCone, Slow, StartsWithin, Meets, Inside, Common, CenterAt, Within, Drift, WellFormed,
         Resolvable, Close;
  }

  lemma SlowCase(e: real)
    requires e > 0.0 && Sq(e) < 0.0000001
    ensures IsQuery(SlowQuery(e)) && WellFormed(SlowCone(e)) && Inside(SlowQuery(e), SlowCone(e), 1.0)
    ensures LineVisits(SlowQuery(e), SlowCone(e).ps, SlowCone(e).pe)
    ensures Slow(SlowQuery(e), SlowCone(e).ps, SlowCone(e).pe)
    ensures !StartsWithin(SlowQuery(e), SlowCone(e).ps, SlowCone(e).pe, 0.0)
  {
    var cy, bc := SlowQuery(e), SlowCone(e);
    SlowCentre(e);
    hide WellFormed, Sq, Travel, DistSq, Mid, RadiusAt, CenterRdAtTime;
    SlowCoordinates(e);
    assert Within(CenterAt(bc.ps, bc.pe, 1.0), cy.p, cy.r);
    assert !StartsWithin(cy, bc.ps, bc.pe, 0.0);
    hide CenterAt, Within, StartsWithin, ConeWindow;
    assert Common(cy, bc.ps, bc.pe, 1.0);
    SlowSpeed(e, 0.0);
    hide C1;
    assert Slow(cy, bc.ps, bc.pe);
    assert cy.r - RadiusAt(bc, 1.0) == cy.r;
  }

  lemma SlowCoordinates(e: real)
    ensures CenterAt(SlowCone(e).ps, SlowCone(e).pe, 0.0) == SlowCone(e).ps
    ensures CenterAt(SlowCone(e).ps, SlowCone(e).pe, 1.0) == SlowCone(e).pe
    ensures ConeWindow(SlowQuery(e), SlowCone(e).ps, SlowCone(e).pe) == Window(e, 0.0, 0.0, 0.0, 0.0, 1.0)
  {
    hide Mid;
  }

  lemma SlowCentre(e: real)
    requires e > 0.0
    ensures WellFormed(SlowCone(e)) && RadiusAt(SlowCone(e), 1.0) == 0.0
    ensures DistSq(SlowCone(e).pe, SlowQuery(e).p) == 0.0 && Sq(0.0) == 0.0
    ensures DistSq(SlowCone(e).ps, SlowQuery(e).p) > 0.0
  {
    NoTravel(0.0);
    SqPos(e);
    SqNeg(0.0 - e, e);
    hide Mid;
    SqZero(e - e);
    SqZero(0.0);
  }

  lemma SqZero(v: real)
    requires v == 0.0
    ensures Sq(v) == 0.0
  {
  }

  lemma SlowSpeed(e: real, z: real)
    requires e > 0.0 && Sq(e) < 0.0000001 && z == 0.0
    ensures 0.0 < C1(Window(e, z, z, z, z, 1.0)) < 0.0000001
  {
    SqPos(e);
    hide Sq;
    SqZero(z - z);
    assert e - z == e;
  }
}
