/** The range-query filter: is a moving disc, a straight segment or a box clear of a query cylinder,
    possibly in it, or surely in it at some instant? */
module CylinderFilter {
  import opened Geometry
  import opened Quadratics
  import opened RelativeMotion
  import opened MovingCone

  /** All places within `r` of `p`, during [tlow, thigh]. */
  datatype Cylinder = Cylinder(p: Point, r: real, tlow: real, thigh: real)

  ghost predicate IsQuery(cy: Cylinder) {
    cy.r >= 0.0 && cy.tlow <= cy.thigh
  }

  /** Instants at which both the query and a shape living from `ps` to `pe` exist. */
  ghost predicate Common(cy: Cylinder, ps: Point, pe: Point, t: real) {
    Max(ps.t, cy.tlow) <= t <= Min(pe.t, cy.thigh)
  }

  /** The whole disc is in the query at `t`. */
  ghost predicate Inside(cy: Cylinder, bc: Cone, t: real) {
    && Common(cy, bc.ps, bc.pe, t)
    && Within(CenterAt(bc.ps, bc.pe, t), cy.p, cy.r - RadiusAt(bc, t))
  }

  /** The disc and the query, shrunk by `slack`, share a place at `t`. */
  ghost predicate Meets(cy: Cylinder, bc: Cone, t: real, slack: real) {
    && Common(cy, bc.ps, bc.pe, t)
    && Within(CenterAt(bc.ps, bc.pe, t), cy.p, cy.r + RadiusAt(bc, t) - slack)
  }

  /** The motion of the query centre relative to the disc centre, over the common period. */
  function ConeWindow(cy: Cylinder, ps: Point, pe: Point): Window {
    var ts, te := Max(ps.t, cy.tlow), Min(pe.t, cy.thigh);
    var a, b := CenterAt(ps, pe, ts), CenterAt(ps, pe, te);
    Window(cy.p.x - a.x, cy.p.y - a.y, cy.p.x - b.x, cy.p.y - b.y, ts, te)
  }

  /** Squared distance between the places of the centre at the start and the end of the common period. */
  ghost function Shift(cy: Cylinder, ps: Point, pe: Point): (d: real)
    ensures d == C1(ConeWindow(cy, ps, pe))
  {
    DistSq(CenterAt(ps, pe, Min(pe.t, cy.thigh)), CenterAt(ps, pe, Max(ps.t, cy.tlow)))
  }

  /** The common period has no motion at all, or at least that of 1e-7 in the square, below which it counts as none. */
  ghost predicate Steady(cy: Cylinder, ps: Point, pe: Point) {
    Shift(cy, ps, pe) == 0.0 || Shift(cy, ps, pe) >= 0.0000001
  }

  /** There is motion in the common period, but so little that it counts as none. */
  ghost predicate Slow(cy: Cylinder, ps: Point, pe: Point) {
    Max(ps.t, cy.tlow) < Min(pe.t, cy.thigh) && !Steady(cy, ps, pe)
  }

  /** At the start of the common period the centre is within `x` of the query's. */
  ghost predicate StartsWithin(cy: Cylinder, ps: Point, pe: Point, x: real) {
    Within(CenterAt(ps, pe, Max(ps.t, cy.tlow)), cy.p, x)
  }

  lemma CenterConvex(ps: Point, pe: Point, ts: real, te: real, t: real)
    requires ps.t < pe.t && ps.t <= ts < te <= pe.t && ts <= t <= te
    ensures var a, b, c := CenterAt(ps, pe, ts), CenterAt(ps, pe, te), CenterAt(ps, pe, t);
            c.x == Mid(a.x, ts, b.x, te, t) && c.y == Mid(a.y, ts, b.y, te, t)
  {
    var bc := Cone(ps, pe, 0.0, 0.0);
    CenterIsChord(bc, ts);
    CenterIsChord(bc, te);
    CenterIsChord(bc, t);
    var a, b := CenterAt(ps, pe, ts), CenterAt(ps, pe, te);
    var w, u := PieceIsMix(Point(a.x, a.y, ts), Point(b.x, b.y, te), t);
    hide Mix, CenterAt;
    ChordConvex(ps.x, ps.t, pe.x, pe.t, ts, te, w, u, t);
    ChordConvex(ps.y, ps.t, pe.y, pe.t, ts, te, w, u, t);
  }

  /** The window measures the distance between the disc centre and the query centre. */
  lemma ConeWindowDistance(cy: Cylinder, ps: Point, pe: Point, t: real)
    requires ps.t < pe.t && Common(cy, ps, pe, t)
    ensures Coherent(ConeWindow(cy, ps, pe))
    ensures D2(ConeWindow(cy, ps, pe), t) == DistSq(CenterAt(ps, pe, t), cy.p)
  {
    var ts, te := Max(ps.t, cy.tlow), Min(pe.t, cy.thigh);
    var a, b, c, q := CenterAt(ps, pe, ts), CenterAt(ps, pe, te), CenterAt(ps, pe, t), cy.p;
    DistSqSymmetric(c, q);
    hide Sq, Mid, CenterAt;
    if ts < te {
      CenterConvex(ps, pe, ts, te, t);
      MidDifference(q.x, q.x, a.x, b.x, ts, te, t);
      MidDifference(q.y, q.y, a.y, b.y, ts, te, t);
      MidConstant(q.x, ts, te, t);
      MidConstant(q.y, ts, te, t);
    }
  }

  lemma MidConstant(x: real, ts: real, te: real, t: real)
    requires ts < te
    ensures Mid(x, ts, x, te, t) == x
  {
    MidIsLinear(x, ts, x, te, t);
    assert Slope(x, ts, x, te) == 0.0;
  }

  // ----- the quadratic tests on the growing and the shrinking end of the cone

  /** Coefficients after subtracting the square of g * (k - v * t) from a quadratic. */
  function TestA(a: real, g: real, v: real): real { a - Sq(g * v) }

  function TestB(b: real, g: real, k: real, v: real): real { b + 2.0 * Sq(g) * k * v }

  function TestC(c: real, g: real, k: real): real { c - Sq(g * k) }

  /** The line whose square a test compares the squared distance with. */
  function Line(k: real, v: real, t: real): real { k - v * t }

  /** Is the distance at most |k - v * t| somewhere on [lo, hi]? */
  predicate ConeTest(w: Window, k: real, v: real, lo: real, hi: real) {
    var g := w.te - w.ts;
    Below0(TestA(C1(w), g, v), TestB(C2(w), g, k, v), TestC(C3(w), g, k), lo, hi)
  }

  lemma SubtractScaledSquare(a: real, b: real, c: real, g: real, k: real, v: real, t: real)
    ensures Quad(TestA(a, g, v), TestB(b, g, k, v), TestC(c, g, k), t) == Quad(a, b, c, t) - Sq(g) * Sq(Line(k, v, t))
  {
    ScaleSquareOfLine(g, k, v, t);
    QuadSum(a, b, c, -Sq(g * v), 2.0 * Sq(g) * k * v, -Sq(g * k), t);
  }

  lemma ScaleSquareOfLine(g: real, k: real, v: real, t: real)
    ensures Quad(-Sq(g * v), 2.0 * Sq(g) * k * v, -Sq(g * k), t) == -(Sq(g) * Sq(Line(k, v, t)))
  {
    var gg, kv := Sq(g), Line(k, v, t);
    assert Sq(g * v) == gg * (v * v) && Sq(g * k) == gg * (k * k);
    assert Sq(kv) == k * k - 2.0 * (k * v) * t + (v * v) * t * t;
  }

  lemma ConeTestExact(w: Window, k: real, v: real, lo: real, hi: real)
    requires w.ts < w.te
    ensures ConeTest(w, k, v, lo, hi) <==> exists t :: lo <= t <= hi && D2(w, t) <= Sq(Line(k, v, t))
  {
    var g := w.te - w.ts;
    var a, b, c := TestA(C1(w), g, v), TestB(C2(w), g, k, v), TestC(C3(w), g, k);
    Below0Exact(a, b, c, lo, hi);
    hide Below0, C1, C2, C3, D2, TestA, TestB, TestC, Line, Quad, Sq;
    forall t
      ensures Quad(a, b, c, t) <= 0.0 <==> D2(w, t) <= Sq(Line(k, v, t))
    {
      ConeTestAt(w, g, k, v, t);
    }
  }

  lemma ConeTestAt(w: Window, g: real, k: real, v: real, t: real)
    requires w.ts < w.te && g == w.te - w.ts
    ensures Quad(TestA(C1(w), g, v), TestB(C2(w), g, k, v), TestC(C3(w), g, k), t) <= 0.0
            <==> D2(w, t) <= Sq(Line(k, v, t))
  {
    hide C1, C2, C3, D2, Sq, Quad, TestA, TestB, TestC, Line;
    var d, n := D2(w, t), Sq(Line(k, v, t));
    ScaledDistance(w, t);
    SubtractScaledSquare(C1(w), C2(w), C3(w), g, k, v, t);
    SqPos(g);
    var gg := Sq(g);
    ScaleCompare(gg, d, n, gg * d, gg * n);
  }

  // ----- the radius between the breakpoints

  /** Growth speeds below this count as none. */
  const CRAWL: real := 0.0000001

  /** When the disc reaches full radius, and when it starts to shrink. */
  function FullFrom(bc: Cone): real {
    if bc.rv < CRAWL then bc.ps.t else bc.ps.t + bc.rd / bc.rv
  }

  function FullUntil(bc: Cone): real {
    if bc.rv < CRAWL then bc.pe.t else bc.pe.t - bc.rd / bc.rv
  }

  lemma TravelMono(v: real, a: real, b: real)
    requires v >= 0.0 && a <= b
    ensures Travel(v, a) <= Travel(v, b)
  {
    MulLe(v, a, b);
  }

  lemma RadiusBounds(bc: Cone, t: real)
    requires WellFormed(bc)
    ensures 0.0 <= RadiusAt(bc, t) <= bc.rd
  {
    hide Travel;
    if bc.ps.t < t < bc.pe.t {
      TravelNonneg(bc.rv, t - bc.ps.t);
      TravelNonneg(bc.rv, bc.pe.t - t);
    }
  }

  /** The radius is the growing, the full or the shrinking one, depending on the range. */
  lemma RadiusInRange(bc: Cone, t: real)
    requires WellFormed(bc) && bc.rv >= CRAWL && bc.ps.t <= t <= bc.pe.t
    ensures bc.ps.t <= FullFrom(bc) <= FullUntil(bc) <= bc.pe.t
    ensures t <= FullFrom(bc) ==> RadiusAt(bc, t) == Travel(bc.rv, t - bc.ps.t)
    ensures FullFrom(bc) <= t <= FullUntil(bc) ==> RadiusAt(bc, t) == bc.rd
    ensures t >= FullUntil(bc) ==> RadiusAt(bc, t) == Travel(bc.rv, bc.pe.t - t)
  {
    var k, rv, t0, t3 := bc.rd / bc.rv, bc.rv, bc.ps.t, bc.pe.t;
    FullRadius(bc, k);
    NoTravel(rv);
    hide Travel;
    var up, down := t - t0, t3 - t;
    if up <= k { TravelMono(rv, up, k); } else { TravelMono(rv, k, up); }
    if down <= k { TravelMono(rv, down, k); } else { TravelMono(rv, k, down); }
  }

  /** Offsets of the four lines: the query radius carried to or from time zero at speed `v`. */
  function Forward(r: real, v: real, t0: real): real { r + v * t0 }

  function Backward(r: real, v: real, t0: real): real { r - v * t0 }

  lemma TestLines(r: real, v: real, t0: real, t: real)
    ensures Line(Forward(r, v, t0), v, t) == r - Travel(v, t - t0) == r + Travel(v, t0 - t)
    ensures Line(Backward(r, v, t0), -v, t) == r + Travel(v, t - t0) == r - Travel(v, t0 - t)
  {
  }

  /** Time the radius of the disc needs to grow to `r`. */
  function GrowTime(r: real, v: real): real
    requires v != 0.0
  {
    r / v
  }

  /** The cut-offs keep the compared line nonnegative, and lose nothing. */
  lemma CutOff(r: real, v: real, dt: real)
    requires v > 0.0
    ensures dt <= GrowTime(r, v) <==> Travel(v, dt) <= r
  {
    var q := r / v;
    assert Travel(v, q) == r;
    hide Travel;
    if dt <= q { TravelMono(v, dt, q); } else { TravelStrict(v, q, dt); }
  }

  lemma TravelStrict(v: real, a: real, b: real)
    requires v > 0.0 && a < b
    ensures Travel(v, a) < Travel(v, b)
  {
    var d := b - a;
    MulPos(v, d);
    Distribute(v, a, d, b);
  }

  // ----- what each test decides

  /** The tests on the growing and the shrinking cone, as the code calls them. */
  predicate LowInside(cy: Cylinder, bc: Cone)
    requires bc.rv > 0.0
  {
    var ints, inte := Max(bc.ps.t, cy.tlow), Min(FullFrom(bc), cy.thigh);
    ConeTest(ConeWindow(cy, bc.ps, bc.pe), Forward(cy.r, bc.rv, bc.ps.t), bc.rv, ints,
             Min(inte, bc.ps.t + GrowTime(cy.r, bc.rv)))
  }

  predicate LowMeets(cy: Cylinder, bc: Cone) {
    var ints, inte := Max(bc.ps.t, cy.tlow), Min(FullFrom(bc), cy.thigh);
    ConeTest(ConeWindow(cy, bc.ps, bc.pe), Backward(cy.r, bc.rv, bc.ps.t), -bc.rv, ints, inte)
  }

  predicate HighInside(cy: Cylinder, bc: Cone)
    requires bc.rv > 0.0
  {
    var ints, inte := Max(FullUntil(bc), cy.tlow), Min(bc.pe.t, cy.thigh);
    ConeTest(ConeWindow(cy, bc.ps, bc.pe), Backward(cy.r, bc.rv, bc.pe.t), -bc.rv,
             Max(ints, bc.pe.t - GrowTime(cy.r, bc.rv)), inte)
  }

  predicate HighMeets(cy: Cylinder, bc: Cone) {
    var ints, inte := Max(FullUntil(bc), cy.tlow), Min(bc.pe.t, cy.thigh);
    ConeTest(ConeWindow(cy, bc.ps, bc.pe), Forward(cy.r, bc.rv, bc.pe.t), bc.rv, ints, inte)
  }

  /** The common period and the query are such that the window formulas apply. */
  ghost predicate Applies(cy: Cylinder, bc: Cone) {
    IsQuery(cy) && WellFormed(bc) && Max(bc.ps.t, cy.tlow) <= Min(bc.pe.t, cy.thigh)
  }

  /** At one instant of the growing cone, the compared lines are the two critical distances. */
  lemma LowAt(cy: Cylinder, bc: Cone, t: real)
    requires Applies(cy, bc) && bc.rv >= CRAWL && Common(cy, bc.ps, bc.pe, t) && t <= FullFrom(bc)
    ensures var w, r, v, t0 := ConeWindow(cy, bc.ps, bc.pe), cy.r, bc.rv, bc.ps.t;
      && (Inside(cy, bc, t) <==> t <= t0 + GrowTime(r, v) && D2(w, t) <= Sq(Line(Forward(r, v, t0), v, t)))
      && (Meets(cy, bc, t, 0.0) <==> D2(w, t) <= Sq(Line(Backward(r, v, t0), -v, t)))
  {
    RadiusBounds(bc, t);
    hide Travel, Line, Forward, Backward, GrowTime, D2, Sq, ConeWindow, DistSq, CenterAt, FullFrom, FullUntil,
         WellFormed, CenterRdAtTime;
    RadiusInRange(bc, t);
    TestLines(cy.r, bc.rv, bc.ps.t, t);
    CutOff(cy.r, bc.rv, t - bc.ps.t);
    ConeWindowDistance(cy, bc.ps, bc.pe, t);
  }

  lemma HighAt(cy: Cylinder, bc: Cone, t: real)
    requires Applies(cy, bc) && bc.rv >= CRAWL && Common(cy, bc.ps, bc.pe, t) && t >= FullUntil(bc)
    ensures var w, r, v, t3 := ConeWindow(cy, bc.ps, bc.pe), cy.r, bc.rv, bc.pe.t;
      && (Inside(cy, bc, t) <==> t3 - GrowTime(r, v) <= t && D2(w, t) <= Sq(Line(Backward(r, v, t3), -v, t)))
      && (Meets(cy, bc, t, 0.0) <==> D2(w, t) <= Sq(Line(Forward(r, v, t3), v, t)))
  {
    RadiusBounds(bc, t);
    hide Travel, Line, Forward, Backward, GrowTime, D2, Sq, ConeWindow, DistSq, CenterAt, FullFrom, FullUntil,
         WellFormed, CenterRdAtTime;
    RadiusInRange(bc, t);
    TestLines(cy.r, bc.rv, bc.pe.t, t);
    CutOff(cy.r, bc.rv, bc.pe.t - t);
    ConeWindowDistance(cy, bc.ps, bc.pe, t);
  }

  /** The two growing-cone tests find exactly the instants of their range they are meant to find. */
  lemma LowExact(cy: Cylinder, bc: Cone)
    requires Applies(cy, bc) && bc.rv >= CRAWL && Max(bc.ps.t, cy.tlow) < Min(FullFrom(bc), cy.thigh)
    ensures LowInside(cy, bc) <==> exists t :: t <= FullFrom(bc) && Inside(cy, bc, t)
    ensures LowMeets(cy, bc) <==> exists t :: t <= FullFrom(bc) && Meets(cy, bc, t, 0.0)
  {
    RadiusInRange(bc, bc.ps.t);
    var w, r, v, t0 := ConeWindow(cy, bc.ps, bc.pe), cy.r, bc.rv, bc.ps.t;
    var lo, hi := Max(t0, cy.tlow), Min(FullFrom(bc), cy.thigh);
    hide Travel, Line, Forward, Backward, GrowTime, D2, Sq, DistSq, ConeWindow, CenterAt, FullFrom, FullUntil,
         WellFormed, CenterRdAtTime, ConeTest;
    ConeTestExact(w, Forward(r, v, t0), v, lo, Min(hi, t0 + GrowTime(r, v)));
    ConeTestExact(w, Backward(r, v, t0), -v, lo, hi);
    forall t | lo <= t <= hi
      ensures Inside(cy, bc, t) <==> t <= t0 + GrowTime(r, v) && D2(w, t) <= Sq(Line(Forward(r, v, t0), v, t))
      ensures Meets(cy, bc, t, 0.0) <==> D2(w, t) <= Sq(Line(Backward(r, v, t0), -v, t))
    {
      LowAt(cy, bc, t);
    }
  }

  lemma HighExact(cy: Cylinder, bc: Cone)
    requires Applies(cy, bc) && bc.rv >= CRAWL && Max(FullUntil(bc), cy.tlow) < Min(bc.pe.t, cy.thigh)
    ensures HighInside(cy, bc) <==> exists t :: t >= FullUntil(bc) && Inside(cy, bc, t)
    ensures HighMeets(cy, bc) <==> exists t :: t >= FullUntil(bc) && Meets(cy, bc, t, 0.0)
  {
    RadiusInRange(bc, bc.ps.t);
    var w, r, v, t3 := ConeWindow(cy, bc.ps, bc.pe), cy.r, bc.rv, bc.pe.t;
    var lo, hi := Max(FullUntil(bc), cy.tlow), Min(t3, cy.thigh);
    hide Travel, Line, Forward, Backward, GrowTime, D2, Sq, DistSq, ConeWindow, CenterAt, FullFrom, FullUntil,
         WellFormed, CenterRdAtTime, ConeTest;
    ConeTestExact(w, Backward(r, v, t3), -v, Max(lo, t3 - GrowTime(r, v)), hi);
    ConeTestExact(w, Forward(r, v, t3), v, lo, hi);
    forall t | lo <= t <= hi
      ensures Inside(cy, bc, t) <==> t3 - GrowTime(r, v) <= t && D2(w, t) <= Sq(Line(Backward(r, v, t3), -v, t))
      ensures Meets(cy, bc, t, 0.0) <==> D2(w, t) <= Sq(Line(Forward(r, v, t3), v, t))
    {
      HighAt(cy, bc, t);
    }
  }

  // ----- the cone filter

  /** Distance the centre may drift in a common period that counts as still. */
  ghost function Drift(sqrt: real -> real, cy: Cylinder, ps: Point, pe: Point): (d: real)
    ensures d == Slack(sqrt, ConeWindow(cy, ps, pe))
  {
    if Shift(cy, ps, pe) < 0.0000001 then sqrt(Shift(cy, ps, pe)) else 0.0
  }

  /** The filter's three-way answer decides containment exactly when it can see all motion and growth
      of the cone and the common period is more than an instant. */
  ghost predicate Resolvable(cy: Cylinder, bc: Cone) {
    || cy.tlow == cy.thigh
    || (Max(bc.ps.t, cy.tlow) < Min(bc.pe.t, cy.thigh) && Steady(cy, bc.ps, bc.pe)
        && (bc.rv >= 0.0000001 || bc.rd == 0.0))
  }

  /** The centre comes within the two radii together. */
  ghost predicate Close(cy: Cylinder, bc: Cone, t: real) {
    Common(cy, bc.ps, bc.pe, t) && Within(CenterAt(bc.ps, bc.pe, t), cy.p, cy.r + bc.rd)
  }

  /** Even at full radius the disc would be in the query at `t`. */
  ghost predicate FullInside(cy: Cylinder, bc: Cone, t: real) {
    Common(cy, bc.ps, bc.pe, t) && Within(CenterAt(bc.ps, bc.pe, t), cy.p, cy.r - bc.rd)
  }

  /** `t` is on the opening cone, or on the closing cone if the common period reaches into it. */
  ghost predicate OnCones(cy: Cylinder, bc: Cone, t: real) {
    t <= FullFrom(bc) || (FullUntil(bc) <= t && FullUntil(bc) < Min(bc.pe.t, cy.thigh))
  }

  /** When the answer is 2. Usually if the disc is inside at some instant. Growth that is not seen, or a common period
      of one instant in a longer query: if it would be even at full radius. In a slow period: if at full radius it
      would be at the start, or it is somewhere on the cones and starts close. */
  ghost predicate Sure(cy: Cylinder, bc: Cone) {
    if cy.tlow == cy.thigh then exists t :: Inside(cy, bc, t)
    else if Slow(cy, bc.ps, bc.pe) then
      || StartsWithin(cy, bc.ps, bc.pe, cy.r - bc.rd)
      || (bc.rv >= 0.0000001 && StartsWithin(cy, bc.ps, bc.pe, cy.r + bc.rd)
          && exists t :: OnCones(cy, bc, t) && Inside(cy, bc, t))
    else
      || (exists t :: FullInside(cy, bc, t))
      || (bc.rv >= 0.0000001 && Max(bc.ps.t, cy.tlow) < Min(bc.pe.t, cy.thigh) && exists t :: Inside(cy, bc, t))
  }

  /** The centre's motion comes closest to the query centre strictly within the full-radius part of the common
      period. */
  ghost predicate NearestFull(cy: Cylinder, bc: Cone) {
    var w := ConeWindow(cy, bc.ps, bc.pe);
    Shift(cy, bc.ps, bc.pe) >= 0.0000001
    && Max(FullFrom(bc), cy.tlow) < Middle(C1(w), C2(w)) < Min(FullUntil(bc), cy.thigh)
  }

  /** When the answer is 0. Usually if the disc never meets the query, unless the centre is close at an end of the
      common period and nearest outside the full-radius part. Growth that is not seen: if the centre is never close.
      In a slow period: if it does not start close. */
  ghost predicate Cleared(cy: Cylinder, bc: Cone) {
    if cy.tlow == cy.thigh then !Meets(cy, bc, cy.tlow, 0.0)
    else if Slow(cy, bc.ps, bc.pe) then !StartsWithin(cy, bc.ps, bc.pe, cy.r + bc.rd)
    else if bc.rv < 0.0000001 then forall t :: !Close(cy, bc, t)
    else
      && (forall t :: !Meets(cy, bc, t, 0.0))
      && (NearestFull(cy, bc) || (!Close(cy, bc, Max(bc.ps.t, cy.tlow)) && !Close(cy, bc, Min(bc.pe.t, cy.thigh))))
  }

  /** 0: clear at every instant, less the drift, and given whenever the centre never comes close; in a slow common
      period given exactly if the centre does not start close. 2: inside at some instant, and given whenever that is
      so and resolvable. In general 2 and 0 are given exactly if sure and cleared. */
  ghost predicate Answers(sqrt: real -> real, cy: Cylinder, bc: Cone, res: int) {
    && 0 <= res <= 2
    && (res != 0 ==> exists t :: Close(cy, bc, t))
    && (Slow(cy, bc.ps, bc.pe) ==> (res == 0 <==> !StartsWithin(cy, bc.ps, bc.pe, cy.r + bc.rd)))
    && (res == 0 ==> forall t :: !Meets(cy, bc, t, Drift(sqrt, cy, bc.ps, bc.pe)))
    && (res == 2 ==> exists t :: Inside(cy, bc, t))
    && (Resolvable(cy, bc) && res != 2 ==> forall t :: !Inside(cy, bc, t))
    && (res == 2 <==> Sure(cy, bc)) && (res == 0 <==> Cleared(cy, bc))
  }

  /** The least centre distance over the whole common period, and over its full-radius part. */
  function WholeDistance(sqrt: real -> real, cy: Cylinder, bc: Cone): real
    requires Max(bc.ps.t, cy.tlow) <= Min(bc.pe.t, cy.thigh)
  {
    ChordDistance(sqrt, ConeWindow(cy, bc.ps, bc.pe), Max(bc.ps.t, cy.tlow), Min(bc.pe.t, cy.thigh))
  }

  function MiddleDistance(sqrt: real -> real, cy: Cylinder, bc: Cone): real
    requires bc.ps.t <= FullFrom(bc) && FullUntil(bc) <= bc.pe.t
  {
    ChordDistance(sqrt, ConeWindow(cy, bc.ps, bc.pe), Max(FullFrom(bc), cy.tlow), Min(FullUntil(bc), cy.thigh))
  }

  lemma BreakpointsInside(bc: Cone)
    requires WellFormed(bc)
    ensures bc.ps.t <= FullFrom(bc) <= FullUntil(bc) <= bc.pe.t
  {
    if bc.rv >= CRAWL { RadiusInRange(bc, bc.ps.t); }
  }

  /** Whatever comes within `x` of the query centre is seen by the whole-period distance. */
  lemma WholeBelow(sqrt: real -> real, cy: Cylinder, bc: Cone, t: real, x: real)
    requires IsSqrt(sqrt) && Applies(cy, bc) && Common(cy, bc.ps, bc.pe, t)
    requires Within(CenterAt(bc.ps, bc.pe, t), cy.p, x)
    ensures WholeDistance(sqrt, cy, bc) <= x + Drift(sqrt, cy, bc.ps, bc.pe)
  {
    var w := ConeWindow(cy, bc.ps, bc.pe);
    hide D2, Sq, DistSq, CenterAt, Slack, ChordDistance, C1;
    ConeWindowDistance(cy, bc.ps, bc.pe, t);
    ChordBelow(sqrt, w, w.ts, w.te, t, x);
  }

  /** d > rd + r: clear throughout. */
  lemma FarClear(sqrt: real -> real, cy: Cylinder, bc: Cone, t: real)
    requires IsSqrt(sqrt) && Applies(cy, bc)
    requires WholeDistance(sqrt, cy, bc) > bc.rd + cy.r
    ensures !Meets(cy, bc, t, Drift(sqrt, cy, bc.ps, bc.pe))
    ensures Steady(cy, bc.ps, bc.pe) ==> !Inside(cy, bc, t)
  {
    RadiusBounds(bc, t);
    DriftNonneg(sqrt, cy, bc);
    hide WholeDistance, Drift, RadiusAt, DistSq, Sq, CenterAt, CenterRdAtTime;
    if Meets(cy, bc, t, Drift(sqrt, cy, bc.ps, bc.pe)) {
      WholeBelow(sqrt, cy, bc, t, cy.r + RadiusAt(bc, t) - Drift(sqrt, cy, bc.ps, bc.pe));
    }
    if Inside(cy, bc, t) {
      WholeBelow(sqrt, cy, bc, t, cy.r - RadiusAt(bc, t));
    }
  }

  lemma DriftNonneg(sqrt: real -> real, cy: Cylinder, bc: Cone)
    requires IsSqrt(sqrt)
    ensures Drift(sqrt, cy, bc.ps, bc.pe) >= 0.0
    ensures Steady(cy, bc.ps, bc.pe) ==> Drift(sqrt, cy, bc.ps, bc.pe) == 0.0
  {
    SlackOfSteady(sqrt, ConeWindow(cy, bc.ps, bc.pe));
  }

  /** Unless the common period is slow, nothing drifts in it. */
  lemma NoDrift(sqrt: real -> real, cy: Cylinder, ps: Point, pe: Point, t: real)
    requires IsSqrt(sqrt) && ps.t < pe.t && Common(cy, ps, pe, t) && !Slow(cy, ps, pe)
    ensures Drift(sqrt, cy, ps, pe) == 0.0
  {
    ConeWindowDistance(cy, ps, pe, t);
    var w := ConeWindow(cy, ps, pe);
    hide ConeWindow, D2, DistSq, CenterAt;
    SlackOfSteady(sqrt, w);
    if w.ts == w.te { StillWindow(w); }
  }

  lemma StillWindow(w: Window)
    requires Coherent(w) && w.ts == w.te
    ensures C1(w) == 0.0
  {
  }

  /** The instant the least distance is reached. */
  lemma NearestInstant(sqrt: real -> real, cy: Cylinder, bc: Cone, x: real) returns (t: real)
    requires IsSqrt(sqrt) && Applies(cy, bc) && WholeDistance(sqrt, cy, bc) <= x
    ensures Common(cy, bc.ps, bc.pe, t) && Within(CenterAt(bc.ps, bc.pe, t), cy.p, x)
  {
    var w, d := ConeWindow(cy, bc.ps, bc.pe), WholeDistance(sqrt, cy, bc);
    ConeWindowDistance(cy, bc.ps, bc.pe, w.ts);
    hide D2, Sq, DistSq, CenterAt, ChordDistance, C1;
    t := ChordAttained(sqrt, w, w.ts, w.te);
    ConeWindowDistance(cy, bc.ps, bc.pe, t);
    SquareMono(d, x);
  }

  /** d <= r - rd: inside at that instant. */
  lemma NearInside(sqrt: real -> real, cy: Cylinder, bc: Cone)
    requires IsSqrt(sqrt) && Applies(cy, bc)
    requires WholeDistance(sqrt, cy, bc) <= cy.r - bc.rd
    ensures exists t :: Inside(cy, bc, t)
  {
    hide WholeDistance, CenterAt, Within;
    var t := NearestInstant(sqrt, cy, bc, cy.r - bc.rd);
    assert FullInside(cy, bc, t);
    InsideMeetsClose(cy, bc, t);
  }

  /** All tests negative. */
  ghost predicate NothingFound(sqrt: real -> real, cy: Cylinder, bc: Cone)
    requires Applies(cy, bc) && bc.ps.t <= FullFrom(bc) && FullUntil(bc) <= bc.pe.t
  {
    && MiddleDistance(sqrt, cy, bc) > bc.rd + cy.r
    && (Max(bc.ps.t, cy.tlow) < Min(FullFrom(bc), cy.thigh) ==> !LowMeets(cy, bc))
    && (Max(FullUntil(bc), cy.tlow) < Min(bc.pe.t, cy.thigh) ==> !HighMeets(cy, bc))
  }

  lemma WithinMono(p: Point, q: Point, x: real, y: real)
    requires Within(p, q, x) && x <= y
    ensures Within(p, q, y)
  {
    SquareMono(x, y);
  }

  /** No meeting on the growing or the shrinking part once their tests are negative. */
  lemma ConesClear(sqrt: real -> real, cy: Cylinder, bc: Cone, t: real)
    requires Applies(cy, bc) && bc.rv >= CRAWL && bc.ps.t <= FullFrom(bc) && FullUntil(bc) <= bc.pe.t
    requires NothingFound(sqrt, cy, bc)
    ensures Max(bc.ps.t, cy.tlow) < Min(FullFrom(bc), cy.thigh) && t <= FullFrom(bc) ==> !Meets(cy, bc, t, 0.0)
    ensures Max(FullUntil(bc), cy.tlow) < Min(bc.pe.t, cy.thigh) && t >= FullUntil(bc) ==> !Meets(cy, bc, t, 0.0)
  {
    hide LowMeets, LowInside, HighMeets, HighInside, MiddleDistance, Meets, Inside, FullFrom, FullUntil;
    if Max(bc.ps.t, cy.tlow) < Min(FullFrom(bc), cy.thigh) { LowExact(cy, bc); }
    if Max(FullUntil(bc), cy.tlow) < Min(bc.pe.t, cy.thigh) { HighExact(cy, bc); }
  }

  /** No meeting on the full-radius part either: if the vertex falls outside it, the nearest instant
      is a breakpoint, which one of the cone tests covers. */
  lemma MiddleClear(sqrt: real -> real, cy: Cylinder, bc: Cone, t: real)
    requires IsSqrt(sqrt) && Applies(cy, bc)
    requires bc.ps.t <= FullFrom(bc) <= FullUntil(bc) <= bc.pe.t
    requires NothingFound(sqrt, cy, bc)
    requires Max(FullFrom(bc), cy.tlow) <= t <= Min(FullUntil(bc), cy.thigh)
    ensures !Meets(cy, bc, t, Drift(sqrt, cy, bc.ps, bc.pe))
  {
    var slack := Drift(sqrt, cy, bc.ps, bc.pe);
    var x, w := cy.r + RadiusAt(bc, t) - slack, ConeWindow(cy, bc.ps, bc.pe);
    var lo, hi := Max(FullFrom(bc), cy.tlow), Min(FullUntil(bc), cy.thigh);
    RadiusBounds(bc, t);
    DriftNonneg(sqrt, cy, bc);
    if Meets(cy, bc, t, slack) {
      ConeWindowDistance(cy, bc.ps, bc.pe, t);
      hide D2, Sq, DistSq, CenterAt, Slack, ChordDistance, C1, RadiusAt, NothingFound, FullFrom, FullUntil;
      ChordBelow(sqrt, w, lo, hi, t, x);
      NothingFoundMiddle(sqrt, cy, bc);
      if lo > w.ts { BreakpointClear(sqrt, cy, bc, lo, x); }
      if hi < w.te { BreakpointClear(sqrt, cy, bc, hi, x); }
    }
  }

  lemma NothingFoundMiddle(sqrt: real -> real, cy: Cylinder, bc: Cone)
    requires Applies(cy, bc) && bc.ps.t <= FullFrom(bc) && FullUntil(bc) <= bc.pe.t
    requires NothingFound(sqrt, cy, bc)
    ensures MiddleDistance(sqrt, cy, bc) > bc.rd + cy.r
  {
  }

  /** At a breakpoint strictly inside the common period the cone test already denies a meeting. */
  lemma BreakpointClear(sqrt: real -> real, cy: Cylinder, bc: Cone, b: real, x: real)
    requires Applies(cy, bc) && NothingFound(sqrt, cy, bc)
    requires bc.ps.t <= FullFrom(bc) <= FullUntil(bc) <= bc.pe.t
             && Max(FullFrom(bc), cy.tlow) <= Min(FullUntil(bc), cy.thigh)
    requires || (b == Max(FullFrom(bc), cy.tlow) && b > Max(bc.ps.t, cy.tlow))
             || (b == Min(FullUntil(bc), cy.thigh) && b < Min(bc.pe.t, cy.thigh))
    requires 0.0 <= x <= cy.r + bc.rd
    ensures D2(ConeWindow(cy, bc.ps, bc.pe), b) > Sq(x)
  {
    assert bc.rv >= CRAWL;
    ConeWindowDistance(cy, bc.ps, bc.pe, b);
    RadiusInRange(bc, b);
    hide D2, Sq, DistSq, CenterAt, C1, RadiusAt, FullFrom, FullUntil, CenterRdAtTime, NothingFound;
    SquareMono(x, cy.r + bc.rd);
    ConesClear(sqrt, cy, bc, b);
  }

  /** A common period of a single instant is decided by the distance there. */
  lemma InstantClear(sqrt: real -> real, cy: Cylinder, bc: Cone, t: real)
    requires IsSqrt(sqrt) && Applies(cy, bc) && Max(bc.ps.t, cy.tlow) == Min(bc.pe.t, cy.thigh)
    requires bc.ps.t <= FullFrom(bc) && FullUntil(bc) <= bc.pe.t
    requires MiddleDistance(sqrt, cy, bc) > bc.rd + cy.r
    ensures !Meets(cy, bc, t, Drift(sqrt, cy, bc.ps, bc.pe))
  {
    var w := ConeWindow(cy, bc.ps, bc.pe);
    ConeWindowDistance(cy, bc.ps, bc.pe, w.ts);
    if C1(w) >= STILL { MovingWindow(w); }
    RadiusBounds(bc, t);
    DriftNonneg(sqrt, cy, bc);
    if Meets(cy, bc, t, Drift(sqrt, cy, bc.ps, bc.pe)) {
      hide D2, Sq, DistSq, CenterAt, Slack, C1, RadiusAt, StartDistance;
      var x := cy.r + RadiusAt(bc, t) - Drift(sqrt, cy, bc.ps, bc.pe);
      EndDistances(sqrt, w);
      SquareLe(StartDistance(sqrt, w), x);
    }
  }

  /** All tests negative: clear throughout the common period. */
  lemma AllClear(sqrt: real -> real, cy: Cylinder, bc: Cone, t: real)
    requires IsSqrt(sqrt) && Applies(cy, bc)
    requires bc.ps.t <= FullFrom(bc) <= FullUntil(bc) <= bc.pe.t
    requires NothingFound(sqrt, cy, bc)
    ensures !Meets(cy, bc, t, Drift(sqrt, cy, bc.ps, bc.pe))
  {
    var slack := Drift(sqrt, cy, bc.ps, bc.pe);
    DriftNonneg(sqrt, cy, bc);
    NothingFoundMiddle(sqrt, cy, bc);
    if Meets(cy, bc, t, slack) {
      assert bc.rv < CRAWL ==> FullFrom(bc) == bc.ps.t && FullUntil(bc) == bc.pe.t;
      WithinMono(CenterAt(bc.ps, bc.pe, t), cy.p, cy.r + RadiusAt(bc, t) - slack, cy.r + RadiusAt(bc, t) - 0.0);
      assert Meets(cy, bc, t, 0.0);
      hide Sq, DistSq, CenterAt, RadiusAt, FullFrom, FullUntil, CenterRdAtTime, NothingFound, MiddleDistance, Meets,
           Drift;
      if Max(bc.ps.t, cy.tlow) == Min(bc.pe.t, cy.thigh) {
        InstantClear(sqrt, cy, bc, t);
      } else if t < FullFrom(bc) || t > FullUntil(bc) {
        ConesClear(sqrt, cy, bc, t);
      } else {
        MiddleClear(sqrt, cy, bc, t);
      }
    }
  }

  /** No instant of containment is missed when the filter can resolve the cone. */
  lemma NoneInside(sqrt: real -> real, cy: Cylinder, bc: Cone, t: real)
    requires IsSqrt(sqrt) && Applies(cy, bc) && cy.tlow < cy.thigh && Resolvable(cy, bc)
    requires bc.ps.t <= FullFrom(bc) <= FullUntil(bc) <= bc.pe.t
    requires WholeDistance(sqrt, cy, bc) > cy.r - bc.rd
    requires bc.rv > 0.0 && Max(bc.ps.t, cy.tlow) < Min(FullFrom(bc), cy.thigh) ==> !LowInside(cy, bc)
    requires bc.rv > 0.0 && Max(FullUntil(bc), cy.tlow) < Min(bc.pe.t, cy.thigh) ==> !HighInside(cy, bc)
    ensures !Inside(cy, bc, t)
  {
    DriftNonneg(sqrt, cy, bc);
    RadiusBounds(bc, t);
    if Inside(cy, bc, t) {
      hide Sq, DistSq, CenterAt, RadiusAt, FullFrom, FullUntil, CenterRdAtTime, WholeDistance, LowInside, HighInside,
        LowMeets, HighMeets, Drift, Steady;
      WholeBelow(sqrt, cy, bc, t, cy.r - RadiusAt(bc, t));
      RadiusInRange(bc, t);
      if t < FullFrom(bc) {
        LowExact(cy, bc);
      } else {
        HighExact(cy, bc);
      }
    }
  }

  /** In a slow common period only the start counts. */
  lemma SlowStart(sqrt: real -> real, cy: Cylinder, bc: Cone, x: real)
    requires IsSqrt(sqrt) && Applies(cy, bc) && Slow(cy, bc.ps, bc.pe)
    requires bc.ps.t <= FullFrom(bc) <= FullUntil(bc) <= bc.pe.t
    ensures WholeDistance(sqrt, cy, bc) <= x <==> StartsWithin(cy, bc.ps, bc.pe, x)
    ensures MiddleDistance(sqrt, cy, bc) == WholeDistance(sqrt, cy, bc)
  {
    var w := ConeWindow(cy, bc.ps, bc.pe);
    ConeWindowDistance(cy, bc.ps, bc.pe, w.ts);
    hide D2, Sq, DistSq, CenterAt, C1, StartDistance, FullFrom, FullUntil, WellFormed;
    EndDistances(sqrt, w);
    var d := StartDistance(sqrt, w);
    if d <= x { SquareMono(d, x); } else if x >= 0.0 && Sq(d) <= Sq(x) { SquareLe(d, x); }
  }

  /** Being inside is meeting, and being inside or meeting is being close. */
  lemma InsideMeetsClose(cy: Cylinder, bc: Cone, t: real)
    requires WellFormed(bc)
    ensures Inside(cy, bc, t) ==> Meets(cy, bc, t, 0.0)
    ensures Meets(cy, bc, t, 0.0) || FullInside(cy, bc, t) ==> Close(cy, bc, t)
    ensures FullInside(cy, bc, t) ==> Inside(cy, bc, t)
  {
    RadiusBounds(bc, t);
    var c, radius := CenterAt(bc.ps, bc.pe, t), RadiusAt(bc, t);
    hide RadiusAt, CenterAt, Within, WellFormed;
    if Inside(cy, bc, t) { WithinMono(c, cy.p, cy.r - radius, cy.r + radius - 0.0); }
    if Meets(cy, bc, t, 0.0) { WithinMono(c, cy.p, cy.r + radius - 0.0, cy.r + bc.rd); }
    if FullInside(cy, bc, t) {
      WithinMono(c, cy.p, cy.r - bc.rd, cy.r + bc.rd);
      WithinMono(c, cy.p, cy.r - bc.rd, cy.r - radius);
    }
  }

  /** When the two lifetimes do not overlap there is nothing to meet. */
  lemma AnswerApart(sqrt: real -> real, cy: Cylinder, bc: Cone)
    requires bc.ps.t > cy.thigh || bc.pe.t < cy.tlow
    ensures Answers(sqrt, cy, bc, 0)
  {
    hide Steady, StartsWithin, NearestFull, RadiusAt, CenterAt, Within;
  }

  lemma AnswerFar(sqrt: real -> real, cy: Cylinder, bc: Cone)
    requires IsSqrt(sqrt) && Applies(cy, bc) && cy.tlow < cy.thigh
    requires WholeDistance(sqrt, cy, bc) > bc.rd + cy.r
    ensures Answers(sqrt, cy, bc, 0)
  {
    FarIsCleared(sqrt, cy, bc);
    BreakpointsInside(bc);
    if Slow(cy, bc.ps, bc.pe) { SlowStart(sqrt, cy, bc, cy.r + bc.rd); }
    hide Meets, Inside, Steady, WholeDistance, StartsWithin, Sure, Cleared;
    forall t
      ensures !Meets(cy, bc, t, Drift(sqrt, cy, bc.ps, bc.pe))
      ensures Steady(cy, bc.ps, bc.pe) ==> !Inside(cy, bc, t)
    {
      FarClear(sqrt, cy, bc, t);
    }
  }

  /** d > rd + r: the centre is never close, except in a slow period, and does not start close. */
  lemma FarIsCleared(sqrt: real -> real, cy: Cylinder, bc: Cone)
    requires IsSqrt(sqrt) && Applies(cy, bc) && cy.tlow < cy.thigh
    requires WholeDistance(sqrt, cy, bc) > bc.rd + cy.r
    ensures Cleared(cy, bc) && !Sure(cy, bc)
  {
    BreakpointsInside(bc);
    hide WholeDistance, MiddleDistance, FullFrom, FullUntil, CenterAt, NearestFull, Meets, Inside, FullInside, Within;
    if Slow(cy, bc.ps, bc.pe) {
      SlowStart(sqrt, cy, bc, cy.r + bc.rd);
      SlowStart(sqrt, cy, bc, cy.r - bc.rd);
    } else {
      forall t
        ensures !Close(cy, bc, t) && !Meets(cy, bc, t, 0.0) && !Inside(cy, bc, t) && !FullInside(cy, bc, t)
      {
        InsideMeetsClose(cy, bc, t);
        if Close(cy, bc, t) {
          NoDrift(sqrt, cy, bc.ps, bc.pe, t);
          WholeBelow(sqrt, cy, bc, t, cy.r + bc.rd);
        }
      }
    }
  }

  lemma AnswerInside(sqrt: real -> real, cy: Cylinder, bc: Cone)
    requires IsSqrt(sqrt) && Applies(cy, bc) && (exists t :: Inside(cy, bc, t)) && Sure(cy, bc)
    requires cy.tlow == cy.thigh || WholeDistance(sqrt, cy, bc) <= bc.rd + cy.r
    ensures Answers(sqrt, cy, bc, 2)
  {
    var t :| Inside(cy, bc, t);
    BreakpointsInside(bc);
    if Slow(cy, bc.ps, bc.pe) { SlowStart(sqrt, cy, bc, cy.r + bc.rd); }
    InsideMeetsClose(cy, bc, t);
    assert cy.tlow == cy.thigh ==> t == cy.tlow;
    hide RadiusAt, CenterAt, Within, WholeDistance, Slow, Meets, Close, Inside, Sure, StartsWithin, NearestFull;
  }

  /** d <= r - rd: sure. */
  lemma NearIsSure(sqrt: real -> real, cy: Cylinder, bc: Cone)
    requires IsSqrt(sqrt) && Applies(cy, bc) && cy.tlow < cy.thigh
    requires WholeDistance(sqrt, cy, bc) <= cy.r - bc.rd
    ensures Sure(cy, bc)
  {
    BreakpointsInside(bc);
    if Slow(cy, bc.ps, bc.pe) {
      SlowStart(sqrt, cy, bc, cy.r - bc.rd);
    } else {
      var t := NearestInstant(sqrt, cy, bc, cy.r - bc.rd);
      assert FullInside(cy, bc, t);
    }
  }

  /** An instant inside on the cones makes sure once the distance is not too great. */
  lemma ConesSure(sqrt: real -> real, cy: Cylinder, bc: Cone, t: real)
    requires IsSqrt(sqrt) && Applies(cy, bc) && bc.rv >= CRAWL && cy.tlow < cy.thigh
    requires Max(bc.ps.t, cy.tlow) < Min(bc.pe.t, cy.thigh) && WholeDistance(sqrt, cy, bc) <= bc.rd + cy.r
    requires Inside(cy, bc, t) && OnCones(cy, bc, t)
    ensures Sure(cy, bc)
  {
    BreakpointsInside(bc);
    if Slow(cy, bc.ps, bc.pe) { SlowStart(sqrt, cy, bc, cy.r + bc.rd); }
    hide WholeDistance, OnCones, Inside, StartsWithin, Slow;
  }

  lemma FoundLow(sqrt: real -> real, cy: Cylinder, bc: Cone)
    requires IsSqrt(sqrt) && Applies(cy, bc) && cy.tlow < cy.thigh && WholeDistance(sqrt, cy, bc) <= bc.rd + cy.r
    requires bc.rv >= CRAWL && Max(bc.ps.t, cy.tlow) < Min(FullFrom(bc), cy.thigh) && LowInside(cy, bc)
    ensures Sure(cy, bc) && exists t :: Inside(cy, bc, t)
  {
    BreakpointsInside(bc);
    LowExact(cy, bc);
    hide LowInside, LowMeets, Inside, WholeDistance, Sure;
    var t :| t <= FullFrom(bc) && Inside(cy, bc, t);
    ConesSure(sqrt, cy, bc, t);
  }

  lemma FoundHigh(sqrt: real -> real, cy: Cylinder, bc: Cone)
    requires IsSqrt(sqrt) && Applies(cy, bc) && cy.tlow < cy.thigh && WholeDistance(sqrt, cy, bc) <= bc.rd + cy.r
    requires bc.rv >= CRAWL && Max(FullUntil(bc), cy.tlow) < Min(bc.pe.t, cy.thigh) && HighInside(cy, bc)
    ensures Sure(cy, bc) && exists t :: Inside(cy, bc, t)
  {
    BreakpointsInside(bc);
    HighExact(cy, bc);
    hide HighInside, HighMeets, Inside, WholeDistance, Sure;
    var t :| t >= FullUntil(bc) && Inside(cy, bc, t);
    ConesSure(sqrt, cy, bc, t);
  }

  /** No test has found an instant inside: not sure. */
  lemma RestNotSure(sqrt: real -> real, cy: Cylinder, bc: Cone)
    requires IsSqrt(sqrt) && Applies(cy, bc) && cy.tlow < cy.thigh
    requires bc.ps.t <= FullFrom(bc) <= FullUntil(bc) <= bc.pe.t
    requires WholeDistance(sqrt, cy, bc) > cy.r - bc.rd
    requires bc.rv > 0.0 && Max(bc.ps.t, cy.tlow) < Min(FullFrom(bc), cy.thigh) ==> !LowInside(cy, bc)
    requires bc.rv > 0.0 && Max(FullUntil(bc), cy.tlow) < Min(bc.pe.t, cy.thigh) ==> !HighInside(cy, bc)
    ensures !Sure(cy, bc)
  {
    hide WholeDistance, MiddleDistance, Steady, LowInside, HighInside, Inside, StartsWithin, FullInside, OnCones,
      FullFrom, FullUntil, CenterAt, WellFormed;
    if Slow(cy, bc.ps, bc.pe) {
      SlowStart(sqrt, cy, bc, cy.r - bc.rd);
      if bc.rv >= CRAWL {
        forall t ensures !(OnCones(cy, bc, t) && Inside(cy, bc, t)) { NoneOnCones(cy, bc, t); }
      }
    } else {
      forall t
        ensures !FullInside(cy, bc, t)
        ensures bc.rv >= CRAWL && Max(bc.ps.t, cy.tlow) < Min(bc.pe.t, cy.thigh) ==> !Inside(cy, bc, t)
      {
        NotFullInside(sqrt, cy, bc, t);
        if bc.rv >= CRAWL && Max(bc.ps.t, cy.tlow) < Min(bc.pe.t, cy.thigh) { NoneInside(sqrt, cy, bc, t); }
      }
    }
  }

  lemma NotFullInside(sqrt: real -> real, cy: Cylinder, bc: Cone, t: real)
    requires IsSqrt(sqrt) && Applies(cy, bc) && !Slow(cy, bc.ps, bc.pe) && WholeDistance(sqrt, cy, bc) > cy.r - bc.rd
    ensures !FullInside(cy, bc, t)
  {
    hide WholeDistance, CenterAt, Slow, Within;
    if FullInside(cy, bc, t) {
      NoDrift(sqrt, cy, bc.ps, bc.pe, t);
      WholeBelow(sqrt, cy, bc, t, cy.r - bc.rd);
    }
  }

  /** ... in a slow period: not on the cones, where an instant at the very end of the opening cone counts as the
      start. */
  lemma NoneOnCones(cy: Cylinder, bc: Cone, t: real)
    requires Applies(cy, bc) && bc.rv >= CRAWL && Max(bc.ps.t, cy.tlow) < Min(bc.pe.t, cy.thigh)
    requires bc.ps.t <= FullFrom(bc) <= FullUntil(bc) <= bc.pe.t
    requires !StartsWithin(cy, bc.ps, bc.pe, cy.r - bc.rd)
    requires Max(bc.ps.t, cy.tlow) < Min(FullFrom(bc), cy.thigh) ==> !LowInside(cy, bc)
    requires Max(FullUntil(bc), cy.tlow) < Min(bc.pe.t, cy.thigh) ==> !HighInside(cy, bc)
    ensures !(OnCones(cy, bc, t) && Inside(cy, bc, t))
  {
    if OnCones(cy, bc, t) && Inside(cy, bc, t) {
      RadiusInRange(bc, t);
      hide CenterAt, RadiusAt, FullFrom, FullUntil, CenterRdAtTime, LowInside, HighInside, Within;
      if t <= FullFrom(bc) {
        if Max(bc.ps.t, cy.tlow) < Min(FullFrom(bc), cy.thigh) { LowExact(cy, bc); }
      } else {
        HighExact(cy, bc);
      }
    }
  }

  /** No test has found a meeting exactly if cleared. */
  lemma ClearedIffNothing(sqrt: real -> real, cy: Cylinder, bc: Cone)
    requires IsSqrt(sqrt) && Applies(cy, bc) && cy.tlow < cy.thigh
    requires bc.ps.t <= FullFrom(bc) <= FullUntil(bc) <= bc.pe.t
    requires WholeDistance(sqrt, cy, bc) <= bc.rd + cy.r
    ensures NothingFound(sqrt, cy, bc) <==> Cleared(cy, bc)
  {
    hide WholeDistance, MiddleDistance, Steady, NothingFound, Meets, Close, StartsWithin, NearestFull, CenterAt,
         WellFormed;
    if Slow(cy, bc.ps, bc.pe) {
      SlowStart(sqrt, cy, bc, cy.r + bc.rd);
      if NothingFound(sqrt, cy, bc) { NothingFoundMiddle(sqrt, cy, bc); }
    } else if bc.rv < CRAWL {
      if NothingFound(sqrt, cy, bc) { NothingFoundMiddle(sqrt, cy, bc); MiddleIsWhole(sqrt, cy, bc); }
      WithinBoth(sqrt, cy, bc);
    } else {
      if NothingFound(sqrt, cy, bc) { NothingClears(sqrt, cy, bc); }
      if Cleared(cy, bc) { ClearsNothing(sqrt, cy, bc); }
    }
  }

  lemma MiddleIsWhole(sqrt: real -> real, cy: Cylinder, bc: Cone)
    requires Applies(cy, bc) && bc.rv < CRAWL && bc.ps.t <= FullFrom(bc) <= FullUntil(bc) <= bc.pe.t
    ensures MiddleDistance(sqrt, cy, bc) == WholeDistance(sqrt, cy, bc)
  {
    hide ChordDistance, ConeWindow;
  }

  lemma NothingClears(sqrt: real -> real, cy: Cylinder, bc: Cone)
    requires IsSqrt(sqrt) && Applies(cy, bc) && cy.tlow < cy.thigh && bc.rv >= CRAWL && !Slow(cy, bc.ps, bc.pe)
    requires bc.ps.t <= FullFrom(bc) <= FullUntil(bc) <= bc.pe.t && NothingFound(sqrt, cy, bc)
    ensures Cleared(cy, bc)
  {
    NothingFoundMiddle(sqrt, cy, bc);
    MiddleAndEnds(sqrt, cy, bc);
    hide WholeDistance, MiddleDistance, Slow, NothingFound, Close, NearestFull, CenterAt, FullFrom, FullUntil,
         WellFormed, RadiusAt, Within;
    forall t ensures !Meets(cy, bc, t, 0.0) {
      if Meets(cy, bc, t, 0.0) {
        NoDrift(sqrt, cy, bc.ps, bc.pe, t);
        AllClear(sqrt, cy, bc, t);
      }
    }
  }

  /** The distance over the middle part is at most that at the ends, unless the nearest instant is strictly in it. */
  lemma MiddleAndEnds(sqrt: real -> real, cy: Cylinder, bc: Cone)
    requires IsSqrt(sqrt) && Applies(cy, bc) && bc.ps.t <= FullFrom(bc) <= FullUntil(bc) <= bc.pe.t
             && !Slow(cy, bc.ps, bc.pe)
    ensures !NearestFull(cy, bc) && MiddleDistance(sqrt, cy, bc) > cy.r + bc.rd ==>
              !Close(cy, bc, Max(bc.ps.t, cy.tlow)) && !Close(cy, bc, Min(bc.pe.t, cy.thigh))
    ensures !NearestFull(cy, bc) && MiddleDistance(sqrt, cy, bc) <= cy.r + bc.rd ==>
              Close(cy, bc, Max(bc.ps.t, cy.tlow)) || Close(cy, bc, Min(bc.pe.t, cy.thigh))
  {
    var w, x := ConeWindow(cy, bc.ps, bc.pe), cy.r + bc.rd;
    ConeWindowDistance(cy, bc.ps, bc.pe, w.ts);
    ConeWindowDistance(cy, bc.ps, bc.pe, w.te);
    if w.ts == w.te { StillWindow(w); }
    if C1(w) < STILL { StillEnds(w); }
    hide D2, Sq, DistSq, CenterAt, C1, C2, StartDistance, EndDistance, FullFrom, FullUntil, WellFormed, ConeWindow,
         Middle;
    EndDistances(sqrt, w);
    CompareRoot(StartDistance(sqrt, w), x);
    CompareRoot(EndDistance(sqrt, w), x);
  }

  lemma CompareRoot(d: real, x: real)
    requires d >= 0.0 && x >= 0.0
    ensures d <= x <==> Sq(d) <= Sq(x)
  {
    hide Sq;
    if d <= x { SquareMono(d, x); } else if Sq(d) <= Sq(x) { SquareLe(d, x); }
  }

  /** Without motion the distance is the same at both ends. */
  lemma StillEnds(w: Window)
    requires Coherent(w)
    ensures C1(w) == 0.0 ==> D2(w, w.ts) == D2(w, w.te)
  {
    D2AtEnds(w);
    if C1(w) == 0.0 {
      hide D2;
      if w.dxs != w.dxe { DiffPos(w.dxs - w.dxe); }
      if w.dys != w.dye { DiffPos(w.dys - w.dye); }
    }
  }

  lemma ClearsNothing(sqrt: real -> real, cy: Cylinder, bc: Cone)
    requires IsSqrt(sqrt) && Applies(cy, bc) && cy.tlow < cy.thigh && bc.rv >= CRAWL && !Slow(cy, bc.ps, bc.pe)
    requires bc.ps.t <= FullFrom(bc) <= FullUntil(bc) <= bc.pe.t && Cleared(cy, bc)
    ensures NothingFound(sqrt, cy, bc)
  {
    MiddleAndEnds(sqrt, cy, bc);
    hide WholeDistance, Slow, Meets, Inside, LowMeets, HighMeets, LowInside, HighInside, CenterAt, FullFrom,
         FullUntil, WellFormed, Close;
    if NearestFull(cy, bc) { NearestClear(sqrt, cy, bc); }
    hide NearestFull, MiddleDistance;
    if Max(bc.ps.t, cy.tlow) < Min(FullFrom(bc), cy.thigh) { LowExact(cy, bc); }
    if Max(FullUntil(bc), cy.tlow) < Min(bc.pe.t, cy.thigh) { HighExact(cy, bc); }
  }

  /** At a nearest instant in the full-radius part meeting is being within the two radii. */
  lemma NearestClear(sqrt: real -> real, cy: Cylinder, bc: Cone)
    requires IsSqrt(sqrt) && Applies(cy, bc) && bc.rv >= CRAWL && NearestFull(cy, bc)
    requires bc.ps.t <= FullFrom(bc) <= FullUntil(bc) <= bc.pe.t && forall t :: !Meets(cy, bc, t, 0.0)
    ensures MiddleDistance(sqrt, cy, bc) > cy.r + bc.rd
  {
    var w, x := ConeWindow(cy, bc.ps, bc.pe), cy.r + bc.rd;
    var t, d := Middle(C1(w), C2(w)), MiddleDistance(sqrt, cy, bc);
    RadiusInRange(bc, t);
    ConeWindowDistance(cy, bc.ps, bc.pe, t);
    MovingWindow(w);
    VertexDistance(sqrt, w);
    assert !Meets(cy, bc, t, 0.0);
    hide D2, Sq, DistSq, CenterAt, C1, C2, C3, FullFrom, FullUntil, WellFormed, ConeWindow, Middle, RadiusAt,
         LeastValue;
    CompareRoot(d, x);
  }

  /** Sure means inside at some instant, and is that when the filter can resolve the cone. */
  lemma SureIffInside(sqrt: real -> real, cy: Cylinder, bc: Cone, res: int)
    requires Answers(sqrt, cy, bc, res)
    ensures Sure(cy, bc) ==> exists t :: Inside(cy, bc, t)
    ensures Resolvable(cy, bc) ==> (Sure(cy, bc) <==> exists t :: Inside(cy, bc, t))
  {
    hide Inside, Meets, Sure, Cleared, Close, Resolvable, Slow, StartsWithin;
  }

  /** The answers in a common period longer than an instant, told by how far the centre moves in it: at least 1e-7 in
      the square, or not at all, and 0 means that the disc never meets the query, and 2 is given exactly if it lies
      inside at some instant, for growth of at least 1e-7; less, and 0 is given exactly if the centre does not start
      within the two radii. */
  lemma AnswersTell(sqrt: real -> real, cy: Cylinder, bc: Cone, res: int)
    requires IsSqrt(sqrt) && Answers(sqrt, cy, bc, res) && cy.tlow < cy.thigh
             && Max(bc.ps.t, cy.tlow) < Min(bc.pe.t, cy.thigh)
    ensures var ts, te := Max(bc.ps.t, cy.tlow), Min(bc.pe.t, cy.thigh);
      var a, b := CenterAt(bc.ps, bc.pe, ts), CenterAt(bc.ps, bc.pe, te);
      if DistSq(b, a) == 0.0 || DistSq(b, a) >= 0.0000001 then
        && (res == 0 ==> forall t :: ts <= t <= te ==>
              !Within(CenterAt(bc.ps, bc.pe, t), cy.p, cy.r + RadiusAt(bc, t)))
        && (bc.rv >= 0.0000001 ==> (res == 2 <==>
              exists t :: ts <= t <= te && Within(CenterAt(bc.ps, bc.pe, t), cy.p, cy.r - RadiusAt(bc, t))))
      else
        res == 0 <==> !Within(a, cy.p, cy.r + bc.rd)
  {
    DriftNonneg(sqrt, cy, bc);
    hide CenterAt, RadiusAt, Within, DistSq, Sure, Cleared, FullFrom, FullUntil, Drift;
    var ts, te := Max(bc.ps.t, cy.tlow), Min(bc.pe.t, cy.thigh);
    forall t | ts <= t <= te
      ensures Meets(cy, bc, t, 0.0) <==> Within(CenterAt(bc.ps, bc.pe, t), cy.p, cy.r + RadiusAt(bc, t))
      ensures Inside(cy, bc, t) <==> Within(CenterAt(bc.ps, bc.pe, t), cy.p, cy.r - RadiusAt(bc, t))
    {
      assert cy.r + RadiusAt(bc, t) - 0.0 == cy.r + RadiusAt(bc, t);
    }
  }

  /** d <= rd + r: close at the instant the least distance is reached. */
  lemma WithinBoth(sqrt: real -> real, cy: Cylinder, bc: Cone)
    requires IsSqrt(sqrt) && Applies(cy, bc) && WholeDistance(sqrt, cy, bc) <= bc.rd + cy.r
    ensures exists t :: Close(cy, bc, t)
  {
    hide WholeDistance, CenterAt, Within;
    var t := NearestInstant(sqrt, cy, bc, bc.rd + cy.r);
    assert Close(cy, bc, t);
  }

  lemma AnswerRest(sqrt: real -> real, cy: Cylinder, bc: Cone, res: int)
    requires IsSqrt(sqrt) && Applies(cy, bc) && cy.tlow < cy.thigh
    requires bc.ps.t <= FullFrom(bc) <= FullUntil(bc) <= bc.pe.t
    requires cy.r - bc.rd < WholeDistance(sqrt, cy, bc) <= bc.rd + cy.r
    requires bc.rv > 0.0 && Max(bc.ps.t, cy.tlow) < Min(FullFrom(bc), cy.thigh) ==> !LowInside(cy, bc)
    requires bc.rv > 0.0 && Max(FullUntil(bc), cy.tlow) < Min(bc.pe.t, cy.thigh) ==> !HighInside(cy, bc)
    requires (res == 0 || res == 1) && (res == 0 <==> NothingFound(sqrt, cy, bc))
    ensures Answers(sqrt, cy, bc, res)
  {
    if Slow(cy, bc.ps, bc.pe) {
      SlowStart(sqrt, cy, bc, cy.r + bc.rd);
      if res == 0 { NothingFoundMiddle(sqrt, cy, bc); }
    }
    hide Sure, Cleared;
    RestNotSure(sqrt, cy, bc);
    ClearedIffNothing(sqrt, cy, bc);
    hide Meets, Inside, Steady, WholeDistance, MiddleDistance, LowInside, HighInside, Resolvable, NothingFound, Drift,
         Close, StartsWithin;
    WithinBoth(sqrt, cy, bc);
    if res == 0 {
      forall t ensures !Meets(cy, bc, t, Drift(sqrt, cy, bc.ps, bc.pe)) {
        AllClear(sqrt, cy, bc, t);
      }
    }
    if Resolvable(cy, bc) {
      forall t ensures !Inside(cy, bc, t) {
        NoneInside(sqrt, cy, bc, t);
      }
    }
  }

  /** The query of a single instant: plain distance arithmetic. */
  method CheckRelInstant(sqrt: real -> real, cy: Cylinder, bc: Cone) returns (res: int)
    requires IsSqrt(sqrt) && Applies(cy, bc) && cy.tlow == cy.thigh
    ensures Answers(sqrt, cy, bc, res)
  {
    var (c, radius) := CenterRdAtTime(bc, cy.tlow);
    SqrtOf(sqrt, DistSq(c, cy.p));
    var d := sqrt(DistSq(c, cy.p));
    res := if d + radius <= cy.r then 2 else if d <= radius + cy.r then 1 else 0;
    InstantAnswer(sqrt, cy, bc, d, res);
  }

  lemma InstantAnswer(sqrt: real -> real, cy: Cylinder, bc: Cone, d: real, res: int)
    requires IsSqrt(sqrt) && Applies(cy, bc) && cy.tlow == cy.thigh
    requires d >= 0.0 && Sq(d) == DistSq(CenterAt(bc.ps, bc.pe, cy.tlow), cy.p)
    requires res == if d + RadiusAt(bc, cy.tlow) <= cy.r then 2 else if d <= RadiusAt(bc, cy.tlow) + cy.r then 1 else 0
    ensures Answers(sqrt, cy, bc, res)
  {
    DriftNonneg(sqrt, cy, bc);
    RadiusBounds(bc, cy.tlow);
    hide Sq, DistSq, CenterAt, RadiusAt, Drift, CenterRdAtTime, Steady;
    var radius, slack := RadiusAt(bc, cy.tlow), Drift(sqrt, cy, bc.ps, bc.pe);
    if res != 0 {
      SquareMono(d, cy.r + bc.rd);
      assert Close(cy, bc, cy.tlow);
      SquareMono(d, cy.r + radius - 0.0);
      assert Meets(cy, bc, cy.tlow, 0.0);
    } else if Meets(cy, bc, cy.tlow, 0.0) {
      SquareLe(d, cy.r + radius - 0.0);
    }
    hide Slow, StartsWithin, FullInside, NearestFull, OnCones, FullFrom, FullUntil;
    if res == 2 {
      SquareMono(d, cy.r - radius);
      assert Inside(cy, bc, cy.tlow);
    } else {
      if Inside(cy, bc, cy.tlow) { SquareLe(d, cy.r - radius); }
      assert forall t :: Inside(cy, bc, t) ==> t == cy.tlow;
      if Meets(cy, bc, cy.tlow, slack) { SquareLe(d, cy.r + radius - slack); }
      assert forall t :: Meets(cy, bc, t, slack) ==> t == cy.tlow;
    }
  }

  /** The filter on a moving bounding cone. */
  method CheckRelCone(sqrt: real -> real, cy: Cylinder, bc: Cone) returns (res: int)
    requires IsSqrt(sqrt) && IsQuery(cy) && WellFormed(bc)
    ensures Answers(sqrt, cy, bc, res)
  {
    if bc.ps.t > cy.thigh || bc.pe.t < cy.tlow {
      AnswerApart(sqrt, cy, bc);
      return 0;
    }
    if cy.tlow == cy.thigh {
      res := CheckRelInstant(sqrt, cy, bc);
      return;
    }
    BreakpointsInside(bc);
    var r, rd, rv, w := cy.r, bc.rd, bc.rv, ConeWindow(cy, bc.ps, bc.pe);
    var t0, t1, t2, t3 := bc.ps.t, FullFrom(bc), FullUntil(bc), bc.pe.t;
    assert rv == 0.0 ==> t1 == t0 && t2 == t3;
    hide Answers, Inside, ConeTest, ChordDistance, CenterAt, FullFrom, FullUntil, WellFormed, Resolvable, Drift, Slow,
         Sure;
    var ints, inte := Max(t0, cy.tlow), Min(t3, cy.thigh);
    var d := ChordDistance(sqrt, w, ints, inte);
    var tmpRes := 0;
    ints, inte := Max(t1, cy.tlow), Min(t2, cy.thigh);
    var dmid := ChordDistance(sqrt, w, ints, inte);
    if d > rd + r {
      AnswerFar(sqrt, cy, bc);
      return 0;
    }
    if d <= r - rd {
      NearInside(sqrt, cy, bc);
      NearIsSure(sqrt, cy, bc);
      AnswerInside(sqrt, cy, bc);
      return 2;
    }
    if dmid <= rd + r { tmpRes := 1; }
    // growing cone
    ints, inte := Max(t0, cy.tlow), Min(t1, cy.thigh);
    if ints < inte {
      if ConeTest(w, Forward(r, rv, t0), rv, ints, Min(inte, t0 + GrowTime(r, rv))) {
        FoundLow(sqrt, cy, bc);
        AnswerInside(sqrt, cy, bc);
        return 2;
      }
      if ConeTest(w, Backward(r, rv, t0), -rv, ints, inte) { tmpRes := 1; }
    }
    // shrinking cone
    ints, inte := Max(t2, cy.tlow), Min(t3, cy.thigh);
    if ints < inte {
      if ConeTest(w, Backward(r, rv, t3), -rv, Max(ints, t3 - GrowTime(r, rv)), inte) {
        FoundHigh(sqrt, cy, bc);
        AnswerInside(sqrt, cy, bc);
        return 2;
      }
      if ConeTest(w, Forward(r, rv, t3), rv, ints, inte) { tmpRes := 1; }
    }
    AnswerRest(sqrt, cy, bc, tmpRes);
    return tmpRes;
  }
}
