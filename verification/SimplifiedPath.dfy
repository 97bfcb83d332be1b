/** What simplification promises about the motion: at every instant, not only at samples, the simplified trajectory is
    within the tolerance of the original. */
module SimplifiedPath {
  import opened Geometry
  import opened MovingCone
  import opened Simplification

  /** The step of the simplified trajectory over the original step from sample `i`. */
  lemma StepOver(pts: seq<Point>, out: seq<Point>, kept: seq<nat>, i: nat) returns (k: nat)
    requires Keeps(pts, out, kept) && i < |pts| - 1
    ensures k < |kept| - 1 && kept[k] <= i < kept[k + 1] < |pts|
    ensures out[k] == pts[kept[k]] && out[k + 1] == pts[kept[k + 1]]
  {
    k := 0;
    while kept[k + 1] <= i
      invariant k < |kept| - 1 && kept[k] <= i
      decreases |kept| - k
    {
      k := k + 1;
    }
  }

  /** Every sample of the stretch is within the tolerance of the straight motion over it. */
  lemma SampleNear(sqrt: real -> real, pts: seq<Point>, a: nat, b: nat, c: nat, epsilon: real)
    requires IsSqrt(sqrt) && Increasing(pts) && epsilon >= 0.0
    requires a <= c <= b < |pts| && a < b && NearBetween(sqrt, pts, a, b, epsilon)
    ensures Within(pts[c], MakeMid(pts[a], pts[b], pts[c].t), epsilon)
  {
    var m := MakeMid(pts[a], pts[b], pts[c].t);
    if c == a || c == b {
      EndsAreFixed(pts[a], pts[b]);
      NoDistance(m, epsilon);
    } else {
      assert Deviation(sqrt, pts, a, b, c) < epsilon;
      SqrtOf(sqrt, DistSq(m, pts[c]));
      hide MakeMid, Sq;
      SqNeg(m.x - pts[c].x, pts[c].x - m.x);
      SqNeg(m.y - pts[c].y, pts[c].y - m.y);
      SquareMono(sqrt(DistSq(m, pts[c])), epsilon);
    }
  }

  lemma NoDistance(p: Point, epsilon: real)
    requires epsilon >= 0.0
    ensures Within(p, p, epsilon)
  {
    assert Sq(0.0) == 0.0;
  }

  /** Two motions that are near at two instants are as near between them. */
  lemma NearAllAlong(p: Point, q: Point, a: Point, b: Point, t: real, epsilon: real)
    requires p.t < q.t && a.t <= p.t && q.t <= b.t && p.t <= t <= q.t && epsilon >= 0.0
    requires Within(p, MakeMid(a, b, p.t), epsilon) && Within(q, MakeMid(a, b, q.t), epsilon)
    ensures Within(MakeMid(p, q, t), MakeMid(a, b, t), epsilon)
  {
    var w, u := PieceIsMix(p, q, t);
    var m, n, o, r := MakeMid(a, b, p.t), MakeMid(a, b, q.t), MakeMid(a, b, t), MakeMid(p, q, t);
    ChordConvex(a.x, a.t, b.x, b.t, p.t, q.t, w, u, t);
    ChordConvex(a.y, a.t, b.y, b.t, p.t, q.t, w, u, t);
    assert o.x == Mix(w, m.x, u, n.x) && o.y == Mix(w, m.y, u, n.y);
    hide MakeMid, Mid, Sq, Mix;
    MixDifference(w, u, p.x, q.x, m.x, n.x);
    MixDifference(w, u, p.y, q.y, m.y, n.y);
    MixSame(w, u, epsilon);
    DiscConvex(p.x - m.x, p.y - m.y, q.x - n.x, q.y - n.y, epsilon, epsilon, w, u);
  }

  lemma MixDifference(w: real, u: real, a: real, b: real, c: real, d: real)
    ensures Mix(w, a, u, b) - Mix(w, c, u, d) == Mix(w, a - c, u, b - d)
  {
  }

  lemma MixSame(w: real, u: real, a: real)
    requires w + u == 1.0
    ensures Mix(w, a, u, a) == a
  {
    assert Mix(w, a, u, a) == (w + u) * a;
  }

  /** At every instant the simplified trajectory is within the tolerance of the original. */
  lemma StaysNear(sqrt: real -> real, pts: seq<Point>, epsilon: real, out: seq<Point>, kept: seq<nat>, p: Point)
    returns (q: Point)
    requires IsSqrt(sqrt) && Increasing(pts) && epsilon >= 0.0
    requires Simplifies(sqrt, pts, epsilon, out, kept) && OnPolyline(pts, p)
    ensures OnPolyline(out, q) && q.t == p.t && Within(p, q, epsilon)
  {
    hide MakeMid, NearBetween, Needed, Within, IsSqrt;
    var i :| 0 <= i < |pts| - 1 && pts[i].t <= p.t <= pts[i + 1].t && p == MakeMid(pts[i], pts[i + 1], p.t);
    var k := StepOver(pts, out, kept, i);
    var a, b := kept[k], kept[k + 1];
    assert NearBetween(sqrt, pts, kept[k + 1 - 1], kept[k + 1], epsilon);
    q := MakeMid(pts[a], pts[b], p.t);
    SampleNear(sqrt, pts, a, b, i, epsilon);
    SampleNear(sqrt, pts, a, b, i + 1, epsilon);
    StepTimes(pts, a, b, i);
    NearAllAlong(pts[i], pts[i + 1], pts[a], pts[b], p.t, epsilon);
    TimeIs(pts[a], pts[b], p.t);
    assert out[k].t <= q.t <= out[k + 1].t && q == MakeMid(out[k], out[k + 1], q.t);
  }

  lemma StepTimes(pts: seq<Point>, a: nat, b: nat, i: nat)
    requires Increasing(pts) && a <= i < b < |pts|
    ensures pts[a].t <= pts[i].t < pts[i + 1].t <= pts[b].t
  {
  }

  lemma TimeIs(a: Point, b: Point, t: real)
    requires a.t < b.t
    ensures MakeMid(a, b, t).t == t
  {
  }
}
