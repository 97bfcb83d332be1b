/** The filter run on a trajectory by way of its cone, and when its answer "clear" is right for the trajectory. */
module TrajectoryFilter {
  import opened Geometry
  import opened MovingCone
  import opened CylinderFilter
  import opened FilterSoundness
  import opened SlowMotion

  /** The trajectory is within `x` of the query centre at some instant of the query period. */
  ghost predicate Visited(s: seq<Point>, cy: Cylinder, x: real) { exists p :: Visits(s, cy, p, x) }

  /** For a query of this period, wherever and however large it is, the answer "clear" for the cone is right for the
      trajectory. */
  ghost predicate TrajectoryRight(sqrt: real -> real, s: seq<Point>, bc: Cone, tlow: real, thigh: real) {
    forall q, r :: r >= 0.0 && Answers(sqrt, Cylinder(q, r, tlow, thigh), bc, 0) ==>
      !Visited(s, Cylinder(q, r, tlow, thigh), r)
  }

  /** During the period the trajectory stays within the full radius of the centre's place at its start. */
  ghost predicate StaysNear(s: seq<Point>, bc: Cone, tlow: real, thigh: real) {
    forall p :: OnPolyline(s, p) && tlow <= p.t <= thigh ==> Near(bc, tlow, p)
  }

  ghost predicate Near(bc: Cone, tlow: real, p: Point) {
    Within(p, CenterAt(bc.ps, bc.pe, Max(bc.ps.t, tlow)), bc.rd)
  }

  /** For a trajectory "clear" is right for every query of a period exactly if the common period is not slow or the
      trajectory stays near. */
  lemma TrajectoryRightExact(sqrt: real -> real, s: seq<Point>, bc: Cone, tlow: real, thigh: real)
    requires IsSqrt(sqrt) && IsConeOf(s, bc) && tlow <= thigh
    ensures TrajectoryRight(sqrt, s, bc, tlow, thigh)
       <==> !SlowPeriod(bc.ps, bc.pe, tlow, thigh) || StaysNear(s, bc, tlow, thigh)
  {
    hide Answers, SlowPeriod, IsSqrt, IsConeOf, OnPolyline, Near, Within;
    if !SlowPeriod(bc.ps, bc.pe, tlow, thigh) || StaysNear(s, bc, tlow, thigh) {
      forall q, r | r >= 0.0 && Answers(sqrt, Cylinder(q, r, tlow, thigh), bc, 0)
        ensures !Visited(s, Cylinder(q, r, tlow, thigh), r)
      {
        TrajectoryClear(sqrt, Cylinder(q, r, tlow, thigh), s, bc);
      }
    } else {
      var p :| OnPolyline(s, p) && tlow <= p.t <= thigh && !Near(bc, tlow, p);
      TrajectoryMissed(sqrt, s, bc, tlow, thigh, p);
      assert !TrajectoryRight(sqrt, s, bc, tlow, thigh);
    }
  }

  lemma TrajectoryClear(sqrt: real -> real, cy: Cylinder, s: seq<Point>, bc: Cone)
    requires IsSqrt(sqrt) && IsQuery(cy) && IsConeOf(s, bc) && Answers(sqrt, cy, bc, 0)
    requires !SlowPeriod(bc.ps, bc.pe, cy.tlow, cy.thigh) || StaysNear(s, bc, cy.tlow, cy.thigh)
    ensures !Visited(s, cy, cy.r)
  {
    SlowAnywhere(cy, bc.ps, bc.pe);
    assert forall t :: !Meets(cy, bc, t, Drift(sqrt, cy, bc.ps, bc.pe));
    assert Slow(cy, bc.ps, bc.pe) ==> !StartsWithin(cy, bc.ps, bc.pe, cy.r + bc.rd);
    hide Answers, Slow, SlowPeriod, Visits, StartsWithin, Meets, StaysNear, IsConeOf, Drift;
    if p :| Visits(s, cy, p, cy.r) {
      if Slow(cy, bc.ps, bc.pe) { NearVisit(cy, s, bc, p); } else { DriftlessVisit(sqrt, cy, s, bc, p); }
    }
  }

  /** If it stays near, a visit shows at the start of the cone. */
  lemma NearVisit(cy: Cylinder, s: seq<Point>, bc: Cone, p: Point)
    requires StaysNear(s, bc, cy.tlow, cy.thigh) && Visits(s, cy, p, cy.r)
    ensures StartsWithin(cy, bc.ps, bc.pe, cy.r + bc.rd)
  {
    assert Near(bc, cy.tlow, p);
    hide DistSq, Sq, CenterAt;
    CenterNearPosition(CenterAt(bc.ps, bc.pe, Max(bc.ps.t, cy.tlow)), p, cy.p, bc.rd, cy.r);
  }

  /** Without drift a visit is a meeting of the cone. */
  lemma DriftlessVisit(sqrt: real -> real, cy: Cylinder, s: seq<Point>, bc: Cone, p: Point)
    requires IsSqrt(sqrt) && IsConeOf(s, bc) && Visits(s, cy, p, cy.r) && !Slow(cy, bc.ps, bc.pe)
    ensures Meets(cy, bc, p.t, Drift(sqrt, cy, bc.ps, bc.pe))
  {
    PositionInSpan(s, p);
    ConeFacts(s, bc);
    hide Slow, Drift, OnPolyline, IsConeOf, Meets, Within;
    NoDrift(sqrt, cy, bc.ps, bc.pe, p.t);
    if !Meets(cy, bc, p.t, Drift(sqrt, cy, bc.ps, bc.pe)) { ClearCone(sqrt, cy, s, bc, p); }
  }

  /** A query of radius 0 at a place of the trajectory that is not near is cleared. */
  lemma TrajectoryMissed(sqrt: real -> real, s: seq<Point>, bc: Cone, tlow: real, thigh: real, p: Point)
    requires IsSqrt(sqrt) && IsConeOf(s, bc) && tlow <= thigh && SlowPeriod(bc.ps, bc.pe, tlow, thigh)
    requires OnPolyline(s, p) && tlow <= p.t <= thigh && !Near(bc, tlow, p)
    ensures Answers(sqrt, Cylinder(p, 0.0, tlow, thigh), bc, 0) && Visited(s, Cylinder(p, 0.0, tlow, thigh), 0.0)
  {
    var cy, c := Cylinder(p, 0.0, tlow, thigh), CenterAt(bc.ps, bc.pe, Max(bc.ps.t, tlow));
    ConeFacts(s, bc);
    ConeWellFormed(s, bc);
    BreakpointsInside(bc);
    SlowAnywhere(cy, bc.ps, bc.pe);
    DistSqSymmetric(c, p);
    SqZero(p.x - p.x);
    SqZero(p.y - p.y);
    SqZero(0.0);
    assert Visits(s, cy, p, cy.r);
    assert Max(bc.ps.t, tlow) < Min(bc.pe.t, thigh);
    hide Sq, DistSq;
    assert !StartsWithin(cy, bc.ps, bc.pe, cy.r + bc.rd);
    hide StartsWithin, Slow, CenterAt, Within, WholeDistance, MiddleDistance, Answers, SlowPeriod, IsConeOf,
         OnPolyline, Visits;
    SlowStart(sqrt, cy, bc, cy.r + bc.rd);
    AnswerFar(sqrt, cy, bc);
  }

  /** A position at an end of the common period, or a sample. */
  ghost predicate Marked(s: seq<Point>, ts: real, te: real, p: Point) {
    p.t == ts || p.t == te || p in s
  }

  ghost predicate NearAtMarks(s: seq<Point>, bc: Cone, tlow: real, thigh: real, ts: real, te: real) {
    forall p :: OnPolyline(s, p) && tlow <= p.t <= thigh && Marked(s, ts, te, p) ==> Near(bc, tlow, p)
  }

  /** Whether the trajectory stays near shows at its samples in the period and at the two ends. */
  lemma NearShowsAtMarks(s: seq<Point>, bc: Cone, tlow: real, thigh: real)
    requires IsConeOf(s, bc)
    ensures StaysNear(s, bc, tlow, thigh) <==> NearAtMarks(s, bc, tlow, thigh, Max(bc.ps.t, tlow), Min(bc.pe.t, thigh))
  {
    var ts, te := Max(bc.ps.t, tlow), Min(bc.pe.t, thigh);
    hide Near, Marked, OnPolyline, IsConeOf;
    if NearAtMarks(s, bc, tlow, thigh, ts, te) {
      forall p | OnPolyline(s, p) && tlow <= p.t <= thigh
        ensures Near(bc, tlow, p)
      {
        NearBetweenMarks(s, bc, tlow, thigh, ts, te, p);
      }
    }
  }

  lemma NearBetweenMarks(s: seq<Point>, bc: Cone, tlow: real, thigh: real, ts: real, te: real, p: Point)
    requires IsConeOf(s, bc) && ts == Max(bc.ps.t, tlow) && te == Min(bc.pe.t, thigh)
    requires OnPolyline(s, p) && tlow <= p.t <= thigh
    requires NearAtMarks(s, bc, tlow, thigh, ts, te)
    ensures Near(bc, tlow, p)
  {
    hide Near, OnPolyline, IsConeOf, Marked, MakeMid;
    var i := PieceOf(s, bc, p);
    var v, w := s[i], s[i + 1];
    var a, b := Max(v.t, ts), Min(w.t, te);
    MarkAt(s, i, ts, te, a);
    MarkAt(s, i, ts, te, b);
    assert Near(bc, tlow, MakeMid(v, w, a)) && Near(bc, tlow, MakeMid(v, w, b));
    hide NearAtMarks;
    if a < b { NearBetweenTwo(bc, tlow, v, w, a, b, p.t); }
  }

  /** The piece a position is on. */
  lemma PieceOf(s: seq<Point>, bc: Cone, p: Point) returns (i: nat)
    requires IsConeOf(s, bc) && OnPolyline(s, p)
    ensures i < |s| - 1 && s[i].t <= p.t <= s[i + 1].t && p == MakeMid(s[i], s[i + 1], p.t)
    ensures bc.ps.t <= s[i].t < s[i + 1].t <= bc.pe.t
  {
    hide TightOn, MakeMid;
    i :| 0 <= i < |s| - 1 && s[i].t <= p.t <= s[i + 1].t && p == MakeMid(s[i], s[i + 1], p.t);
  }

  /** A position on one piece at one of its ends, or at an end of the period. */
  lemma MarkAt(s: seq<Point>, i: nat, ts: real, te: real, a: real)
    requires i < |s| - 1 && s[i].t < s[i + 1].t && s[i].t <= a <= s[i + 1].t
    requires a == s[i].t || a == s[i + 1].t || a == ts || a == te
    ensures var p := MakeMid(s[i], s[i + 1], a); p.t == a && OnPolyline(s, p) && Marked(s, ts, te, p)
  {
    EndsAreFixed(s[i], s[i + 1]);
    hide Mid;
  }

  lemma NearBetweenTwo(bc: Cone, tlow: real, p: Point, q: Point, a: real, b: real, t: real)
    requires p.t < q.t && p.t <= a < b <= q.t && a <= t <= b
    requires Near(bc, tlow, MakeMid(p, q, a)) && Near(bc, tlow, MakeMid(p, q, b))
    ensures Near(bc, tlow, MakeMid(p, q, t))
  {
    var piece, c := Cone(p, q, 0.0, 0.0), CenterAt(bc.ps, bc.pe, Max(bc.ps.t, tlow));
    CenterIsChord(piece, a);
    CenterIsChord(piece, b);
    CenterIsChord(piece, t);
    hide CenterAt, MakeMid, Within;
    var w, u := CenterBetween(p, q, c, a, b, t, bc.rd, bc.rd);
    MixTravel(bc.rd, a, a, b, w, u, t);
  }

  /** The filter on the shape of a trajectory: what the answer means for the trajectory. "Clear" holds without slack
      unless the common period is slow and the trajectory does not stay near. */
  method FilterTrajectory(sqrt: real -> real, cy: Cylinder, s: seq<Point>) returns (res: int, b: Shape)
    requires IsSqrt(sqrt) && IsQuery(cy) && Increasing(s) && |s| >= 2 && Representable(s)
    ensures b.WithCone? && Bounds(s, b) && Answers(sqrt, cy, b.bc, res)
    ensures res == 0 ==> !Visited(s, cy, cy.r - ShapeDrift(sqrt, cy, b))
    ensures res == 0 && (!SlowPeriod(s[0], s[|s| - 1], cy.tlow, cy.thigh) || StaysNear(s, b.bc, cy.tlow, cy.thigh)) ==>
              !Visited(s, cy, cy.r)
    ensures res == 2 ==> Visited(s, cy, cy.r)
  {
    b := SubtrajToSBB(sqrt, s);
    BoundsCone(s, b);
    hide IsConeOf, WellFormed, Increasing, Bounds, Visits, SlowPeriod, StaysNear, Answers;
    res := CheckRel(sqrt, cy, b);
    if res == 0 {
      AllSlackClear(sqrt, cy, s, b);
      if !SlowPeriod(s[0], s[|s| - 1], cy.tlow, cy.thigh) || StaysNear(s, b.bc, cy.tlow, cy.thigh) {
        TrajectoryClear(sqrt, cy, s, b.bc);
      }
    }
    if res == 2 { TwoMeansVisit(sqrt, cy, s, b); }
  }

  lemma AllSlackClear(sqrt: real -> real, cy: Cylinder, s: seq<Point>, b: Shape)
    requires IsSqrt(sqrt) && IsQuery(cy) && Bounds(s, b) && ShapeAnswers(sqrt, cy, b, 0)
    ensures !Visited(s, cy, cy.r - ShapeDrift(sqrt, cy, b))
  {
    hide Bounds, ShapeAnswers, ShapeDrift, Visits;
    var x := cy.r - ShapeDrift(sqrt, cy, b);
    forall p ensures !Visits(s, cy, p, x) { ZeroMeansClear(sqrt, cy, s, b, p); }
  }

  lemma BoundsCone(s: seq<Point>, b: Shape)
    requires b.WithCone? && Bounds(s, b)
    ensures IsConeOf(s, b.bc) && b.bc.ps == s[0] && b.bc.pe == s[|s| - 1]
  {
  }
}
