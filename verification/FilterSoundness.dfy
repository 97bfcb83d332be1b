/** What the filter's answers mean for the trajectory behind a bounding shape, for all three shapes. */
module FilterSoundness {
  import opened Geometry
  import opened Boxes
  import opened RelativeMotion
  import opened MovingCone
  import opened CylinderFilter

  // ----- straight segments

  /** 2: within the radius at some instant. 0: never, less the drift; in a slow common period given exactly if the
      segment does not start within the radius. */
  ghost predicate LineAnswers(sqrt: real -> real, cy: Cylinder, ps: Point, pe: Point, res: int) {
    && (res == 0 || res == 2)
    && (res == 2 ==> exists t :: Common(cy, ps, pe, t) && Within(CenterAt(ps, pe, t), cy.p, cy.r))
    && (res == 0 ==> forall t :: Common(cy, ps, pe, t) ==>
          !Within(CenterAt(ps, pe, t), cy.p, cy.r - Drift(sqrt, cy, ps, pe)))
    && (Slow(cy, ps, pe) ==> (res == 0 <==> !StartsWithin(cy, ps, pe, cy.r)))
  }

  /** The filter on a straight segment is a distance test. */
  method CheckRelLine(sqrt: real -> real, cy: Cylinder, ps: Point, pe: Point) returns (res: int)
    requires IsSqrt(sqrt) && IsQuery(cy) && ps.t < pe.t
    ensures LineAnswers(sqrt, cy, ps, pe, res)
  {
    if ps.t > cy.thigh || pe.t < cy.tlow {
      return 0;
    }
    var ints, inte := Max(ps.t, cy.tlow), Min(pe.t, cy.thigh);
    var a, b := CenterAt(ps, pe, ints), CenterAt(ps, pe, inte);
    var p1, p2 := Point(cy.p.x, cy.p.y, ints), Point(cy.p.x, cy.p.y, inte);
    var d := Line2LineMinSED(sqrt, p1, p2, a, b);
    LineDistance(sqrt, cy, ps, pe);
    res := if d.value <= cy.r then 2 else 0;
  }

  lemma LineDistance(sqrt: real -> real, cy: Cylinder, ps: Point, pe: Point)
    requires IsSqrt(sqrt) && IsQuery(cy) && ps.t < pe.t
    requires Max(ps.t, cy.tlow) <= Min(pe.t, cy.thigh)
    ensures var ints, inte := Max(ps.t, cy.tlow), Min(pe.t, cy.thigh);
      var d := Line2LineMinSED(sqrt, Point(cy.p.x, cy.p.y, ints), Point(cy.p.x, cy.p.y, inte),
                               CenterAt(ps, pe, ints), CenterAt(ps, pe, inte));
      d.Some? && LineAnswers(sqrt, cy, ps, pe, if d.value <= cy.r then 2 else 0)
  {
    var ints, inte := Max(ps.t, cy.tlow), Min(pe.t, cy.thigh);
    var w := ConeWindow(cy, ps, pe);
    ConeWindowDistance(cy, ps, pe, ints);
    hide D2, Sq, DistSq, CenterAt, Slack, ChordDistance, C1;
    var d := ChordDistance(sqrt, w, ints, inte);
    LineStart(sqrt, cy, ps, pe);
    var t := ChordAttained(sqrt, w, ints, inte);
    ConeWindowDistance(cy, ps, pe, t);
    hide Slow;
    if d <= cy.r {
      SquareMono(d, cy.r);
      assert Common(cy, ps, pe, t) && Within(CenterAt(ps, pe, t), cy.p, cy.r);
    } else {
      forall t | Common(cy, ps, pe, t)
        ensures !Within(CenterAt(ps, pe, t), cy.p, cy.r - Drift(sqrt, cy, ps, pe))
      {
        ConeWindowDistance(cy, ps, pe, t);
        if Within(CenterAt(ps, pe, t), cy.p, cy.r - Drift(sqrt, cy, ps, pe)) {
          ChordBelow(sqrt, w, ints, inte, t, cy.r - Drift(sqrt, cy, ps, pe));
        }
      }
    }
  }

  /** In a slow common period the distance taken is that at the start. */
  lemma LineStart(sqrt: real -> real, cy: Cylinder, ps: Point, pe: Point)
    requires IsSqrt(sqrt) && IsQuery(cy) && ps.t < pe.t && Max(ps.t, cy.tlow) <= Min(pe.t, cy.thigh)
    ensures var w := ConeWindow(cy, ps, pe);
            Slow(cy, ps, pe) ==> (ChordDistance(sqrt, w, w.ts, w.te) <= cy.r <==> StartsWithin(cy, ps, pe, cy.r))
  {
    var w := ConeWindow(cy, ps, pe);
    ConeWindowDistance(cy, ps, pe, w.ts);
    hide D2, Sq, DistSq, CenterAt, C1, StartDistance;
    if Slow(cy, ps, pe) {
      EndDistances(sqrt, w);
      var d := StartDistance(sqrt, w);
      if d <= cy.r { SquareMono(d, cy.r); } else if Sq(d) <= Sq(cy.r) { SquareLe(d, cy.r); }
    }
  }

  // ----- boxes

  ghost predicate IsBox(b: Box) {
    b.xmin <= b.xmax && b.ymin <= b.ymax && b.tmin <= b.tmax
  }

  /** How far `v` lies outside [lo, hi]. */
  function Gap(lo: real, hi: real, v: real): real {
    if v < lo then lo - v else if v > hi then v - hi else 0.0
  }

  /** Planar distance from a point to a box. */
  function BoxDistance(sqrt: real -> real, b: Box, p: Point): real {
    sqrt(Sq(Gap(b.xmin, b.xmax, p.x)) + Sq(Gap(b.ymin, b.ymax, p.y)))
  }

  /** `p` lies over the box, whatever its time. */
  predicate Over(b: Box, p: Point) {
    b.xmin <= p.x <= b.xmax && b.ymin <= p.y <= b.ymax
  }

  /** The tolerance of the box intersection test. */
  const TOLERANCE: real := 0.0000001

  lemma GapIsNearest(lo: real, hi: real, v: real, u: real)
    requires lo <= u <= hi
    ensures Sq(Gap(lo, hi, v)) <= Sq(u - v)
  {
    if v < lo { SquareMono(lo - v, u - v); }
    else if v > hi { SquareMono(v - hi, v - u); SqNeg(v - u, u - v); }
    else { assert Sq(0.0) == 0.0; }
  }

  /** The box distance is at most `x` iff some point over the box is within `x`. */
  lemma BoxDistanceExact(sqrt: real -> real, b: Box, q: Point, x: real)
    requires IsSqrt(sqrt) && IsBox(b) && x >= 0.0
    ensures BoxDistance(sqrt, b, q) <= x <==> exists p :: Over(b, p) && Within(p, q, x)
  {
    var gx, gy := Gap(b.xmin, b.xmax, q.x), Gap(b.ymin, b.ymax, q.y);
    SqrtOf(sqrt, Sq(gx) + Sq(gy));
    var d := BoxDistance(sqrt, b, q);
    if d <= x {
      var p := Point(Max(b.xmin, Min(q.x, b.xmax)), Max(b.ymin, Min(q.y, b.ymax)), q.t);
      assert Sq(p.x - q.x) == Sq(gx) && Sq(p.y - q.y) == Sq(gy) by {
        hide Sq;
        SqNeg(gx, -gx);
        SqNeg(gy, -gy);
      }
      hide Sq;
      SquareMono(d, x);
      assert Over(b, p) && Within(p, q, x);
    }
    if p :| Over(b, p) && Within(p, q, x) {
      hide Sq;
      GapIsNearest(b.xmin, b.xmax, q.x, p.x);
      GapIsNearest(b.ymin, b.ymax, q.y, p.y);
      SquareLe(d, x);
    }
  }

  /** One of the two ends is at least as far from `v` as any place between them. */
  lemma FarthestEnd(lo: real, hi: real, v: real, u: real)
    requires lo <= u <= hi
    ensures Sq(u - v) <= Sq(v - lo) || Sq(u - v) <= Sq(v - hi)
  {
    hide Sq;
    if u >= v { SquareMono(u - v, hi - v); SqNeg(hi - v, v - hi); }
    else { SquareMono(v - u, v - lo); SqNeg(v - u, u - v); }
  }

  /** The four corner tests of the code. */
  predicate CornersWithin(cy: Cylinder, b: Box) {
    var x, y, r2 := cy.p.x, cy.p.y, Sq(cy.r);
    && Sq(x - b.xmin) + Sq(y - b.ymin) < r2 && Sq(x - b.xmin) + Sq(y - b.ymax) < r2
    && Sq(x - b.xmax) + Sq(y - b.ymin) < r2 && Sq(x - b.xmax) + Sq(y - b.ymax) < r2
  }

  /** All corners are strictly within the radius iff every point over the box is. */
  lemma CornersExact(cy: Cylinder, b: Box)
    requires IsBox(b)
    ensures CornersWithin(cy, b) <==> forall p :: Over(b, p) ==> DistSq(p, cy.p) < Sq(cy.r)
  {
    hide Sq;
    if CornersWithin(cy, b) {
      forall p | Over(b, p)
        ensures DistSq(p, cy.p) < Sq(cy.r)
      {
        FarthestEnd(b.xmin, b.xmax, cy.p.x, p.x);
        FarthestEnd(b.ymin, b.ymax, cy.p.y, p.y);
      }
    }
    if forall p :: Over(b, p) ==> DistSq(p, cy.p) < Sq(cy.r) {
      var p1, p2, p3, p4 := Point(b.xmin, b.ymin, 0.0), Point(b.xmin, b.ymax, 0.0), Point(b.xmax, b.ymin, 0.0),
          Point(b.xmax, b.ymax, 0.0);
      assert Over(b, p1) && Over(b, p2) && Over(b, p3) && Over(b, p4);
      SqNeg(p1.x - cy.p.x, cy.p.x - b.xmin);
      SqNeg(p1.y - cy.p.y, cy.p.y - b.ymin);
      SqNeg(p4.x - cy.p.x, cy.p.x - b.xmax);
      SqNeg(p4.y - cy.p.y, cy.p.y - b.ymax);
    }
  }

  /** The filter on a box, with both directions of every answer. */
  method CheckRelBox(sqrt: real -> real, cy: Cylinder, b: Box) returns (res: int)
    requires IsSqrt(sqrt) && IsQuery(cy) && IsBox(b)
    ensures 0 <= res <= 2
    ensures res == 0 <==> Max(b.tmin, cy.tlow) > Min(b.tmax, cy.thigh)
                          || forall p :: Over(b, p) ==> !Within(p, cy.p, cy.r + 0.0000001)
    ensures res == 2 <==> Max(b.tmin, cy.tlow) <= Min(b.tmax, cy.thigh)
                          && forall p :: Over(b, p) ==> DistSq(p, cy.p) < Sq(cy.r)
  {
    BoxDistanceExact(sqrt, b, cy.p, cy.r + TOLERANCE);
    CornersExact(cy, b);
    CornerIsOver(cy, b);
    hide Sq, BoxDistance, DistSq, CornersWithin;
    if b.tmin > cy.thigh || b.tmax < cy.tlow {
      return 0;
    }
    if BoxDistance(sqrt, b, cy.p) > cy.r + TOLERANCE {
      return 0;
    }
    return if CornersWithin(cy, b) then 2 else 1;
  }

  lemma CornerIsOver(cy: Cylinder, b: Box)
    requires IsBox(b) && cy.r >= 0.0
    ensures Over(b, Point(b.xmin, b.ymin, b.tmin))
    ensures forall p :: DistSq(p, cy.p) < Sq(cy.r) ==> Within(p, cy.p, cy.r + TOLERANCE)
  {
    hide Sq;
    SquareMono(cy.r, cy.r + TOLERANCE);
  }

  // ----- bounding shapes of trajectories

  /** A bounding shape: a box, with either the cone or the straight segment itself beside it. */
  datatype Shape = BoxOnly(br: Box) | WithCone(br: Box, bc: Cone) | WithLine(br: Box, ps: Point, pe: Point)

  /** The shape was built from these samples. */
  ghost predicate Bounds(s: seq<Point>, b: Shape) {
    && Increasing(s) && |s| >= 2
    && (forall i :: 0 <= i < |s| ==> b.br.ContainsPoint(s[i]))
    && b.br.tmin == s[0].t && b.br.tmax == s[|s| - 1].t
    && (b.WithCone? ==> IsConeOf(s, b.bc))
    && (b.WithLine? ==> s == [b.ps, b.pe])
  }

  ghost predicate HoldsAll(c: Box, s: seq<Point>) {
    forall i :: 0 <= i < |s| ==> c.ContainsPoint(s[i])
  }

  /** The box holds every sample, and nothing beyond what the samples and the box it starts from need. */
  ghost predicate IsBoxOf(s: seq<Point>, out: Box) {
    HoldsAll(out, s) && forall c: Box :: c.Contains(INFINITE_BOX) && HoldsAll(c, s) ==> c.Contains(out)
  }

  /** The trajectory's own box. */
  method TrajectoryBox(s: seq<Point>) returns (out: Box)
    ensures IsBoxOf(s, out)
  {
    out := INFINITE_BOX;
    for i := 0 to |s|
      invariant IsBoxOf(s[..i], out)
    {
      BoxGrows(s, i, out);
      out := out.CombinePoint(s[i]);
    }
    assert s[..|s|] == s;
  }

  lemma BoxGrows(s: seq<Point>, i: nat, out: Box)
    requires i < |s| && IsBoxOf(s[..i], out)
    ensures IsBoxOf(s[..i + 1], out.CombinePoint(s[i]))
  {
    var longer := s[..i + 1];
    forall c: Box | HoldsAll(c, longer) ensures HoldsAll(c, s[..i]) && c.ContainsPoint(s[i]) {
      assert longer[i] == s[i];
      forall k | 0 <= k < i ensures c.ContainsPoint(s[..i][k]) { assert longer[k] == s[..i][k]; }
    }
  }

  /** Times are within the range an empty box starts from. */
  ghost predicate Representable(s: seq<Point>) {
    forall i :: 0 <= i < |s| ==> -INF <= s[i].t <= INF
  }

  method SubtrajToSBB(sqrt: real -> real, s: seq<Point>) returns (b: Shape)
    requires IsSqrt(sqrt) && Increasing(s) && |s| >= 2 && Representable(s)
    ensures b.WithCone? && Bounds(s, b) && WellFormed(b.bc) && IsBox(b.br) && IsBoxOf(s, b.br)
  {
    var br := TrajectoryBox(s);
    var bc := GetxMBC(sqrt, s);
    ConeWellFormed(s, bc);
    hide IsConeOf, WellFormed;
    b := WithCone(br, bc);
    assert br.ContainsPoint(s[0]);
    var wide := Box(Min(br.xmin, -INF), Max(br.xmax, INF), Min(br.ymin, -INF), Max(br.ymax, INF), s[0].t, s[|s| - 1].t);
    assert wide.Contains(INFINITE_BOX);
    assert forall i :: 0 <= i < |s| ==> wide.ContainsPoint(s[i]);
  }

  /** The filter on a bounding shape: the finest part it carries decides. */
  method CheckRel(sqrt: real -> real, cy: Cylinder, b: Shape) returns (res: int)
    requires IsSqrt(sqrt) && IsQuery(cy) && IsBox(b.br)
    requires b.WithCone? ==> WellFormed(b.bc)
    requires b.WithLine? ==> b.ps.t < b.pe.t
    ensures ShapeAnswers(sqrt, cy, b, res)
  {
    hide Answers, LineAnswers, WellFormed, IsSqrt, IsQuery;
    match b {
      case WithLine(_, ps, pe) => res := CheckRelLine(sqrt, cy, ps, pe);
      case WithCone(_, bc) => res := CheckRelCone(sqrt, cy, bc);
      case BoxOnly(br) => res := CheckRelBox(sqrt, cy, br);
    }
  }

  ghost predicate ShapeAnswers(sqrt: real -> real, cy: Cylinder, b: Shape, res: int) {
    match b
    case WithCone(_, bc) => Answers(sqrt, cy, bc, res)
    case WithLine(_, ps, pe) => LineAnswers(sqrt, cy, ps, pe, res)
    case BoxOnly(br) =>
      && 0 <= res <= 2
      && (res == 0 ==> Max(br.tmin, cy.tlow) > Min(br.tmax, cy.thigh)
                       || forall p :: Over(br, p) ==> !Within(p, cy.p, cy.r + 0.0000001))
      && (res == 2 ==> Max(br.tmin, cy.tlow) <= Min(br.tmax, cy.thigh)
                       && forall p :: Over(br, p) ==> DistSq(p, cy.p) < Sq(cy.r))
  }

  // ----- what the answers mean for the trajectory

  /** The trajectory is within `x` of the query centre at the query instant `p.t`. */
  ghost predicate Visits(s: seq<Point>, cy: Cylinder, p: Point, x: real) {
    OnPolyline(s, p) && cy.tlow <= p.t <= cy.thigh && Within(p, cy.p, x)
  }

  /** Slack of the answer "clear": the drift of a cone or a segment counted as still. */
  ghost function ShapeDrift(sqrt: real -> real, cy: Cylinder, b: Shape): real {
    match b
    case WithCone(_, bc) => Drift(sqrt, cy, bc.ps, bc.pe)
    case WithLine(_, ps, pe) => Drift(sqrt, cy, ps, pe)
    case BoxOnly(_) => 0.0
  }

  /** There is a position at every time between the first and the last sample. */
  lemma PositionAt(s: seq<Point>, t: real) returns (p: Point)
    requires Increasing(s) && |s| >= 2 && s[0].t <= t <= s[|s| - 1].t
    ensures OnPolyline(s, p) && p.t == t
  {
    var i := 0;
    while s[i + 1].t < t
      invariant 0 <= i < |s| - 1 && s[i].t <= t
      decreases |s| - i
    {
      i := i + 1;
    }
    p := MakeMid(s[i], s[i + 1], t);
  }

  lemma PositionInSpan(s: seq<Point>, p: Point)
    requires Increasing(s) && OnPolyline(s, p)
    ensures |s| >= 2 && s[0].t <= p.t <= s[|s| - 1].t
  {
  }

  /** The box of the samples holds the whole polyline. */
  lemma BoxHoldsPolyline(s: seq<Point>, b: Shape, p: Point)
    requires Bounds(s, b) && OnPolyline(s, p)
    ensures Over(b.br, p)
  {
    var i :| 0 <= i < |s| - 1 && s[i].t <= p.t <= s[i + 1].t && p == MakeMid(s[i], s[i + 1], p.t);
    var w, u := PieceIsMix(s[i], s[i + 1], p.t);
    hide Mix, MakeMid, IsConeOf;
    MixBetween(w, u, s[i].x, s[i + 1].x, b.br.xmin, b.br.xmax);
    MixBetween(w, u, s[i].y, s[i + 1].y, b.br.ymin, b.br.ymax);
  }

  /** A two-sample trajectory moves along its segment. */
  lemma LinePosition(s: seq<Point>, p: Point)
    requires Increasing(s) && |s| == 2
    ensures OnPolyline(s, p) <==> s[0].t <= p.t <= s[1].t && p == CenterAt(s[0], s[1], p.t)
  {
    EndsAreFixed(s[0], s[1]);
    if s[0].t <= p.t <= s[1].t && p == CenterAt(s[0], s[1], p.t) {
      assert p == MakeMid(s[0], s[1], p.t);
    }
  }

  /** Answer 0: at no instant of the query period is the trajectory within the radius, less the drift. */
  lemma ZeroMeansClear(sqrt: real -> real, cy: Cylinder, s: seq<Point>, b: Shape, p: Point)
    requires IsSqrt(sqrt) && IsQuery(cy) && Bounds(s, b) && ShapeAnswers(sqrt, cy, b, 0)
    ensures !Visits(s, cy, p, cy.r - ShapeDrift(sqrt, cy, b))
  {
    if Visits(s, cy, p, cy.r - ShapeDrift(sqrt, cy, b)) {
      match b {
        case WithCone(_, bc) =>
          ClearCone(sqrt, cy, s, bc, p);
        case WithLine(_, ps, pe) =>
          LinePosition(s, p);
        case BoxOnly(br) =>
          PositionInSpan(s, p);
          BoxHoldsPolyline(s, b, p);
          hide Sq, DistSq;
          WithinMono(p, cy.p, cy.r - 0.0, cy.r + TOLERANCE);
      }
    }
  }

  lemma ClearCone(sqrt: real -> real, cy: Cylinder, s: seq<Point>, bc: Cone, p: Point)
    requires IsConeOf(s, bc) && OnPolyline(s, p) && cy.tlow <= p.t <= cy.thigh
    requires !Meets(cy, bc, p.t, Drift(sqrt, cy, bc.ps, bc.pe))
    ensures !Within(p, cy.p, cy.r - Drift(sqrt, cy, bc.ps, bc.pe))
  {
    ConeEncloses(s, bc, p);
    hide Sq, DistSq, CenterAt, RadiusAt, IsConeOf, Drift, OnPolyline;
    if Within(p, cy.p, cy.r - Drift(sqrt, cy, bc.ps, bc.pe)) {
      CenterNearPosition(CenterAt(bc.ps, bc.pe, p.t), p, cy.p, RadiusAt(bc, p.t), cy.r - Drift(sqrt, cy, bc.ps, bc.pe));
    }
  }

  lemma CenterNearPosition(c: Point, p: Point, q: Point, radius: real, x: real)
    requires Within(p, c, radius) && Within(p, q, x)
    ensures Within(c, q, radius + x)
  {
    DistSqSymmetric(p, c);
    hide Sq, DistSq;
    Triangle(c, q, p, radius, x);
  }

  /** Answer 2: at some instant of the query period the trajectory really is within the radius. */
  lemma TwoMeansVisit(sqrt: real -> real, cy: Cylinder, s: seq<Point>, b: Shape)
    requires IsSqrt(sqrt) && IsQuery(cy) && Bounds(s, b) && ShapeAnswers(sqrt, cy, b, 2)
    ensures exists p :: Visits(s, cy, p, cy.r)
  {
    match b {
      case WithCone(_, bc) =>
        var t :| Inside(cy, bc, t);
        var p := VisitFromInside(cy, s, bc, t);
      case WithLine(_, ps, pe) =>
        var t :| Common(cy, ps, pe, t) && Within(CenterAt(ps, pe, t), cy.p, cy.r);
        var p := PositionAt(s, t);
        LinePosition(s, p);
        assert Visits(s, cy, p, cy.r);
      case BoxOnly(br) =>
        var p := PositionAt(s, Max(br.tmin, cy.tlow));
        BoxHoldsPolyline(s, b, p);
        assert Visits(s, cy, p, cy.r);
    }
  }

  lemma VisitFromInside(cy: Cylinder, s: seq<Point>, bc: Cone, t: real) returns (p: Point)
    requires IsConeOf(s, bc) && Inside(cy, bc, t)
    ensures Visits(s, cy, p, cy.r)
  {
    p := PositionAt(s, t);
    ConeEncloses(s, bc, p);
    hide Sq, DistSq, CenterAt, RadiusAt, OnPolyline, IsConeOf;
    Triangle(p, cy.p, CenterAt(bc.ps, bc.pe, t), RadiusAt(bc, t), cy.r - RadiusAt(bc, t));
  }
}
