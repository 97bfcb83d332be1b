/** The filter over a whole segmentation: the answers for the segments' shapes decide for the trajectory. */
module SegmentFilter {
  import opened Geometry
  import opened Segmenters
  import opened CylinderFilter
  import opened FilterSoundness

  /** A piece is nowhere but on the trajectory. */
  lemma TrajectoryHoldsPiece(traj: seq<Point>, pc: Piece, p: Point)
    requires Increasing(traj) && WellPiece(traj, pc) && OnPolyline(pc.points, p)
    ensures OnPolyline(traj, p)
  {
    var s, t := pc.points, p.t;
    var k :| 0 <= k < |s| - 1 && s[k].t <= t <= s[k + 1].t && p == MakeMid(s[k], s[k + 1], t);
    assert StepOf(traj, s[k], s[k + 1]);
    var j :| Along(traj, j, s[k], s[k + 1]);
    SubLine(traj[j], traj[j + 1], s[k], s[k + 1], t);
    hide MakeMid;
    OnStep(traj, j, p);
  }

  /** The shapes bound the pieces. */
  ghost predicate Shapes(res: seq<Piece>, shapes: seq<Shape>) {
    |shapes| == |res| && forall k :: 0 <= k < |res| ==> Bounds(res[k].points, shapes[k])
  }

  /** If the filter answers "clear" for every segment, the trajectory is never within the radius, less the
      largest drift of a segment, during the query period. */
  lemma AllClear(sqrt: real -> real, cy: Cylinder, traj: seq<Point>, res: seq<Piece>, shapes: seq<Shape>, drift: real,
                 p: Point)
    requires IsSqrt(sqrt) && IsQuery(cy) && Increasing(traj) && Segmented(traj, res) && Shapes(res, shapes)
    requires forall k :: 0 <= k < |shapes| ==>
               ShapeAnswers(sqrt, cy, shapes[k], 0) && ShapeDrift(sqrt, cy, shapes[k]) <= drift
    ensures !Visits(traj, cy, p, cy.r - drift)
  {
    if Visits(traj, cy, p, cy.r - drift) {
      PositionInSpan(traj, p);
      hide ShapeAnswers, ShapeDrift, Bounds, WellPiece, OnPolyline, Segmented, IsSqrt, Increasing;
      var k := PiecesCover(traj, res, p.t);
      PieceIsTrajectory(traj, res[k], p);
      ZeroMeansClear(sqrt, cy, res[k].points, shapes[k], p);
      WithinMono(p, cy.p, cy.r - drift, cy.r - ShapeDrift(sqrt, cy, shapes[k]));
    }
  }

  /** If the filter answers "surely" for some segment, the trajectory is within the radius at some instant of
      the query period. */
  lemma SomeSure(sqrt: real -> real, cy: Cylinder, traj: seq<Point>, res: seq<Piece>, shapes: seq<Shape>, k: nat)
    requires IsSqrt(sqrt) && IsQuery(cy) && Increasing(traj) && Segmented(traj, res) && Shapes(res, shapes)
    requires k < |shapes| && ShapeAnswers(sqrt, cy, shapes[k], 2)
    ensures exists p :: Visits(traj, cy, p, cy.r)
  {
    assert WellPiece(traj, res[k]) && Bounds(res[k].points, shapes[k]);
    hide ShapeAnswers, Bounds, WellPiece, OnPolyline, Segmented, IsSqrt, Increasing, Within;
    TwoMeansVisit(sqrt, cy, res[k].points, shapes[k]);
    var p :| Visits(res[k].points, cy, p, cy.r);
    TrajectoryHoldsPiece(traj, res[k], p);
    assert Visits(traj, cy, p, cy.r);
  }

  /** Cuts a trajectory by length and bounds every segment. */
  method SegmentShapes(sqrt: real -> real, traj: seq<Point>, len: real, th: real)
    returns (res: seq<Piece>, shapes: seq<Shape>, ghost cuts: seq<real>)
    requires IsSqrt(sqrt) && Increasing(traj) && |traj| >= 2 && len > 0.0000001 && 0.0 < th < 0.5 && Representable(traj)
    ensures Segmented(traj, res) && CutThroughout(traj, len, Travel(th, len), cuts, res) && Shapes(res, shapes)
    ensures forall k :: 0 <= k < |res| ==> shapes[k].WithCone? && IsBoxOf(res[k].points, shapes[k].br)
  {
    hide Bounds, Increasing, IsSqrt, IsBoxOf, CutThroughout, Representable, Run, Chain;
    var r;
    r, cuts := ISS(traj, len, th);
    res, shapes := r.value, [];
    for k := 0 to |res|
      invariant |shapes| == k && forall i :: 0 <= i < k ==>
                  Bounds(res[i].points, shapes[i]) && shapes[i].WithCone? && IsBoxOf(res[i].points, shapes[i].br)
    {
      PieceAt(traj, res, k);
      PieceRepresentable(traj, res[k]);
      var b := SubtrajToSBB(sqrt, res[k].points);
      shapes := shapes + [b];
    }
  }

  lemma PieceAt(traj: seq<Point>, res: seq<Piece>, k: nat)
    requires Segmented(traj, res) && k < |res|
    ensures WellPiece(traj, res[k]) && Increasing(res[k].points) && |res[k].points| >= 2
  {
  }

  lemma PieceRepresentable(traj: seq<Point>, pc: Piece)
    requires Representable(traj) && WellPiece(traj, pc)
    ensures Representable(pc.points)
  {
  }
}
