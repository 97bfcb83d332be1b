/** Cutting a trajectory into segments: by length with interpolated cut points, by point count, and by
    recursive simplification. Whatever the rule, the pieces tile the trajectory and follow it exactly. */
module Segmenters {
  import opened Geometry
  import opened Wrappers

  /** A segment and the sample range stored with it. */
  datatype Piece = Piece(ms: nat, me: nat, points: seq<Point>)

  // ----- what a segmentation is

  /** `a` lies on the motion from `p` to `q`. */
  ghost predicate On(p: Point, q: Point, a: Point) {
    p.t <= a.t <= q.t && a == MakeMid(p, q, a.t)
  }

  ghost predicate Along(traj: seq<Point>, j: int, a: Point, b: Point) {
    0 <= j < |traj| - 1 && On(traj[j], traj[j + 1], a) && On(traj[j], traj[j + 1], b)
  }

  /** The motion from `a` to `b` stays within one step of the trajectory. */
  ghost predicate StepOf(traj: seq<Point>, a: Point, b: Point) {
    exists j :: Along(traj, j, a, b)
  }

  ghost predicate Follows(traj: seq<Point>, pts: seq<Point>) {
    forall k :: 0 <= k < |pts| - 1 ==> StepOf(traj, pts[k], pts[k + 1])
  }

  function Last(pts: seq<Point>): Point
    requires pts != []
  {
    pts[|pts| - 1]
  }

  /** Points in time order that follow the trajectory. */
  ghost predicate Run(traj: seq<Point>, pts: seq<Point>) {
    pts != [] && Increasing(pts) && Follows(traj, pts)
  }

  /** A piece has at least two points, follows the trajectory, and its sample range encloses its time span. */
  ghost predicate WellPiece(traj: seq<Point>, pc: Piece) {
    && |pc.points| >= 2 && Run(traj, pc.points)
    && pc.ms <= pc.me < |traj| && traj[pc.ms].t <= pc.points[0].t && Last(pc.points).t <= traj[pc.me].t
  }

  /** The pieces so far start at the first sample, share their ends, and reach `next`. */
  ghost predicate Joined(res: seq<Piece>, k: nat)
    requires 0 < k < |res|
  {
    res[k - 1].points != [] && res[k].points != [] && res[k].points[0] == Last(res[k - 1].points)
  }

  ghost predicate Chain(traj: seq<Point>, res: seq<Piece>, next: Point) {
    && traj != [] && (forall k :: 0 <= k < |res| ==> WellPiece(traj, res[k]))
    && (forall k :: 0 < k < |res| ==> Joined(res, k))
    && (if res == [] then next == traj[0] else res[0].points[0] == traj[0] && Last(res[|res| - 1].points) == next)
  }

  ghost predicate Segmented(traj: seq<Point>, res: seq<Piece>) {
    traj != [] && res != [] && Chain(traj, res, Last(traj))
  }

  lemma ChainPush(traj: seq<Point>, res: seq<Piece>, pc: Piece)
    requires pc.points != [] && Chain(traj, res, pc.points[0]) && WellPiece(traj, pc)
    ensures Chain(traj, res + [pc], Last(pc.points))
  {
    assert forall k :: 0 <= k < |res| ==> res[k].points != [];
    hide WellPiece;
    forall k | 0 < k < |res + [pc]|
      ensures Joined(res + [pc], k)
    {
      if k < |res| { assert Joined(res, k); }
    }
  }

  // ----- a piece moves exactly as the trajectory

  /** Interpolating between two places of a straight motion gives the motion again. */
  lemma MidTravels(x1: real, t1: real, x2: real, t2: real, t: real, m: real, dt: real)
    requires t1 != t2 && m == Slope(x1, t1, x2, t2) && dt == t - t1
    ensures Mid(x1, t1, x2, t2, t) == x1 + Travel(m, dt)
  {
    MidIsLinear(x1, t1, x2, t2, t);
    hide Mid, Slope;
  }

  lemma SubMid(xp: real, tp: real, xq: real, tq: real, ta: real, tb: real, t: real, xa: real, xb: real)
    requires tp < tq && ta < tb
    requires xa == Mid(xp, tp, xq, tq, ta) && xb == Mid(xp, tp, xq, tq, tb)
    ensures Mid(xa, ta, xb, tb, t) == Mid(xp, tp, xq, tq, t)
  {
    var m := Slope(xp, tp, xq, tq);
    hide Mid, Slope, Travel;
    MidTravels(xp, tp, xq, tq, ta, m, ta - tp);
    MidTravels(xp, tp, xq, tq, tb, m, tb - tp);
    MidTravels(xp, tp, xq, tq, t, m, t - tp);
    TravelSplit(m, tb - tp, ta - tp, tb - ta);
    TravelSplit(m, t - tp, ta - tp, t - ta);
    SameSlope(xa, ta, xb, tb, m, tb - ta);
    MidTravels(xa, ta, xb, tb, t, m, t - ta);
  }

  lemma SameSlope(xa: real, ta: real, xb: real, tb: real, m: real, dt: real)
    requires ta < tb && dt == tb - ta && Travel(m, dt) == xb - xa
    ensures Slope(xa, ta, xb, tb) == m
  {
    DivUnique(xb - xa, tb - ta, m);
  }

  lemma SubLine(p: Point, q: Point, a: Point, b: Point, t: real)
    requires p.t < q.t && On(p, q, a) && On(p, q, b) && a.t < b.t
    ensures MakeMid(a, b, t) == MakeMid(p, q, t)
  {
    hide Mid;
    SubMid(p.x, p.t, q.x, q.t, a.t, b.t, t, a.x, b.x);
    SubMid(p.y, p.t, q.y, q.t, a.t, b.t, t, a.y, b.y);
  }

  /** Samples are on the steps that end there. */
  lemma MidOn(p: Point, q: Point, t: real, mid: Point)
    requires p.t < q.t && p.t <= t <= q.t && mid == MakeMid(p, q, t)
    ensures mid.t == t && On(p, q, mid)
  {
    hide Mid;
  }

  lemma SampleOn(p: Point, q: Point)
    requires p.t < q.t
    ensures On(p, q, p) && On(p, q, q)
  {
    MidIsLinear(p.x, p.t, q.x, q.t, p.t);
    MidIsLinear(p.y, p.t, q.y, q.t, p.t);
    hide Mid;
  }

  /** The trajectory has one position at each time. */
  lemma SamePosition(traj: seq<Point>, i: nat, j: nat, t: real)
    requires Increasing(traj) && i <= j < |traj| - 1
    requires traj[i].t <= t <= traj[i + 1].t && traj[j].t <= t <= traj[j + 1].t
    ensures MakeMid(traj[i], traj[i + 1], t) == MakeMid(traj[j], traj[j + 1], t)
  {
    SampleOn(traj[i], traj[i + 1]);
    SampleOn(traj[j], traj[j + 1]);
    hide MakeMid;
    assert i < j ==> i + 1 == j;
  }

  /** Within a piece's time span, the piece is where the trajectory is. */
  lemma PieceIsTrajectory(traj: seq<Point>, pc: Piece, p: Point)
    requires Increasing(traj) && WellPiece(traj, pc) && OnPolyline(traj, p)
    requires pc.points[0].t <= p.t <= Last(pc.points).t
    ensures OnPolyline(pc.points, p)
  {
    var s, t := pc.points, p.t;
    hide MakeMid, StepOf, OnPolyline;
    var k := 0;
    while s[k + 1].t < t
      invariant 0 <= k < |s| - 1 && s[k].t <= t
      decreases |s| - k
    {
      k := k + 1;
    }
    StepIsTrajectory(traj, s[k], s[k + 1], p);
    OnStep(s, k, p);
  }

  lemma OnStep(s: seq<Point>, k: nat, p: Point)
    requires k < |s| - 1 && s[k].t <= p.t <= s[k + 1].t && p == MakeMid(s[k], s[k + 1], p.t)
    ensures OnPolyline(s, p)
  {
  }

  lemma StepIsTrajectory(traj: seq<Point>, a: Point, b: Point, p: Point)
    requires Increasing(traj) && StepOf(traj, a, b) && OnPolyline(traj, p) && a.t <= p.t <= b.t && a.t < b.t
    ensures p == MakeMid(a, b, p.t)
  {
    var t := p.t;
    var j :| Along(traj, j, a, b);
    var i :| 0 <= i < |traj| - 1 && traj[i].t <= t <= traj[i + 1].t && p == MakeMid(traj[i], traj[i + 1], t);
    SubLine(traj[j], traj[j + 1], a, b, t);
    hide MakeMid;
    if i <= j { SamePosition(traj, i, j, t); } else { SamePosition(traj, j, i, t); }
  }

  /** Every instant of the trajectory falls into some piece. */
  lemma PiecesCover(traj: seq<Point>, res: seq<Piece>, t: real) returns (k: nat)
    requires Segmented(traj, res) && traj[0].t <= t <= traj[|traj| - 1].t
    ensures k < |res| && WellPiece(traj, res[k])
    ensures res[k].points[0].t <= t <= Last(res[k].points).t
  {
    hide Run;
    k := 0;
    while Last(res[k].points).t < t
      invariant 0 <= k < |res| && res[k].points[0].t <= t
      decreases |res| - k
    {
      assert k + 1 < |res| ==> Joined(res, k + 1);
      k := k + 1;
    }
  }

  // ----- cutting by length

  /** Closer than this, a sample counts as being exactly at the cut. */
  const NEAR: real := 0.0000001

  /** A piece lasts more than the length less the tolerance at both ends, and less than two lengths and the
      tolerance at its end: after a sample that was hit exactly the next cut is two lengths on. */
  ghost predicate Sized(pc: Piece, len: real, soft: real) {
    && pc.points != []
    && len - soft - soft < Last(pc.points).t - pc.points[0].t < len + len + soft + 0.0000001
  }

  ghost predicate AllSized(res: seq<Piece>, len: real, soft: real) {
    forall k :: 0 <= k < |res| ==> Sized(res[k], len, soft)
  }

  /** Every piece but the last is; the last is no longer. */
  ghost predicate SizedButLast(res: seq<Piece>, len: real, soft: real) {
    && res != [] && AllSized(res[..|res| - 1], len, soft)
    && res[|res| - 1].points != []
    && Last(res[|res| - 1].points).t - res[|res| - 1].points[0].t < len + len + soft + 0.0000001
  }

  /** The segment under construction ends at the sample before `i`. */
  ghost predicate AtPrevious(traj: seq<Point>, limit: real, i: nat, seg: seq<Point>, ms: nat)
    requires 1 <= i <= |traj| && seg != []
  {
    Last(seg) == traj[i - 1] && ms < i && (|seg| == 1 ==> traj[i - 1].t <= limit)
  }

  /** It is a cut point inside the step to sample `i`. */
  ghost predicate AtCut(traj: seq<Point>, segStart: real, i: nat, seg: seq<Point>, ms: nat)
    requires 1 <= i <= |traj| && seg != []
  {
    && i < |traj| && |seg| == 1 && ms == i - 1 && On(traj[i - 1], traj[i], seg[0])
    && traj[i - 1].t < seg[0].t < traj[i].t && seg[0].t == segStart
  }

  /** It is sample `i` itself. */
  ghost predicate AtSample(traj: seq<Point>, limit: real, i: nat, seg: seq<Point>, ms: nat)
    requires 1 <= i <= |traj| && seg != []
  {
    i < |traj| && seg == [traj[i]] && ms == i && traj[i].t <= limit
  }

  /** The invariant of the cutting loop. `soft` is the tolerated part of the length. */
  ghost predicate Cutting(traj: seq<Point>, len: real, soft: real, i: nat, segStart: real, seg: seq<Point>, ms: nat,
                          res: seq<Piece>) {
    && 1 <= i <= |traj| && Run(traj, seg) && Chain(traj, res, seg[0])
    && ms < |traj| && ms <= i && traj[ms].t <= seg[0].t && traj[i - 1].t < segStart + len
    && segStart - len <= seg[0].t < segStart + soft && AllSized(res, len, soft)
    && (AtPrevious(traj, segStart + len - soft, i, seg, ms) || AtCut(traj, segStart, i, seg, ms)
        || AtSample(traj, segStart + len - soft, i, seg, ms))
  }

  lemma Extend(traj: seq<Point>, seg: seq<Point>, a: Point)
    requires Run(traj, seg) && Last(seg).t < a.t && StepOf(traj, Last(seg), a)
    ensures Run(traj, seg + [a])
  {
    var seg' := seg + [a];
    hide StepOf;
    forall k | 0 <= k < |seg'| - 1
      ensures StepOf(traj, seg'[k], seg'[k + 1])
    {
      assert seg'[k] == seg[k] && (k < |seg| - 1 ==> seg'[k + 1] == seg[k + 1]);
    }
  }

  lemma OnePoint(traj: seq<Point>, p: Point)
    ensures Run(traj, [p])
  {
  }

  /** Adding a point of the step to sample `i` to a segment that does not end at that sample. */
  lemma AddPoint(traj: seq<Point>, len: real, soft: real, i: nat, segStart: real, seg: seq<Point>, ms: nat,
                 res: seq<Piece>, a: Point)
    requires Increasing(traj) && Cutting(traj, len, soft, i, segStart, seg, ms, res) && i < |traj| && ms != i
    requires On(traj[i - 1], traj[i], a) && Last(seg).t < a.t
    ensures Run(traj, seg + [a])
  {
    SampleOn(traj[i - 1], traj[i]);
    assert Run(traj, seg) && On(traj[i - 1], traj[i], Last(seg));
    hide On, Run, Chain, Increasing;
    assert Along(traj, i - 1, Last(seg), a);
    Extend(traj, seg, a);
  }

  lemma AddSample(traj: seq<Point>, len: real, soft: real, i: nat, segStart: real, seg: seq<Point>, ms: nat,
                  res: seq<Piece>)
    requires Increasing(traj) && Cutting(traj, len, soft, i, segStart, seg, ms, res) && i < |traj| && ms != i
    ensures Run(traj, seg + [traj[i]])
  {
    SampleOn(traj[i - 1], traj[i]);
    hide On, Run, Chain;
    AddPoint(traj, len, soft, i, segStart, seg, ms, res, traj[i]);
  }

  lemma PassStep(traj: seq<Point>, len: real, soft: real, i: nat, segStart: real, seg: seq<Point>, ms: nat,
                 res: seq<Piece>)
    requires Increasing(traj) && soft > 0.0 && Cutting(traj, len, soft, i, segStart, seg, ms, res)
    requires i < |traj| && traj[i].t < segStart + len
    ensures Cutting(traj, len, soft, i + 1, segStart, if ms != i then seg + [traj[i]] else seg, ms, res)
  {
    if ms != i { AddSample(traj, len, soft, i, segStart, seg, ms, res); }
    assert seg != [];
    hide Run, Increasing, Chain, On;
  }

  /** Closing the segment at sample `i`. */
  lemma CloseAtSample(traj: seq<Point>, len: real, soft: real, i: nat, segStart: real, seg: seq<Point>, ms: nat,
                      res: seq<Piece>, next: real)
    requires Increasing(traj) && soft > 0.0 && Cutting(traj, len, soft, i, segStart, seg, ms, res)
    requires i < |traj| && segStart + len <= traj[i].t < segStart + len + soft + 0.0000001
    requires next >= segStart && soft + soft < len && next - len <= traj[i].t < next + soft
    ensures Cutting(traj, len, soft, i, next, [traj[i]], i, res + [Piece(ms, i, seg + [traj[i]])])
  {
    assert seg != [] && traj[i - 1].t < traj[i].t;
    OnePoint(traj, traj[i]);
    hide Run, Increasing, Chain, On;
    AddSample(traj, len, soft, i, segStart, seg, ms, res);
    ChainPush(traj, res, Piece(ms, i, seg + [traj[i]]));
  }

  /** Closing the segment at the sample before. */
  lemma CloseBefore(traj: seq<Point>, len: real, soft: real, i: nat, segStart: real, seg: seq<Point>, ms: nat,
                    res: seq<Piece>)
    requires Increasing(traj) && 0.0 < soft < len && Cutting(traj, len, soft, i, segStart, seg, ms, res)
    requires i < |traj| && traj[i].t >= segStart + len && traj[i - 1].t > segStart + len - soft
    ensures Cutting(traj, len, soft, i, segStart + len, [traj[i - 1]], i - 1, res + [Piece(ms, i - 1, seg)])
  {
    assert seg != [];
    OnePoint(traj, traj[i - 1]);
    hide Run, Increasing, Chain, On;
    ChainPush(traj, res, Piece(ms, i - 1, seg));
  }

  /** Closing the segment at a new point inside the step to sample `i`. */
  lemma CloseInside(traj: seq<Point>, len: real, soft: real, i: nat, segStart: real, seg: seq<Point>, ms: nat,
                    res: seq<Piece>, mid: Point)
    requires Increasing(traj) && 0.0 < soft < len && Cutting(traj, len, soft, i, segStart, seg, ms, res)
    requires i < |traj| && traj[i].t > segStart + len && mid == MakeMid(traj[i - 1], traj[i], segStart + len)
    ensures Cutting(traj, len, soft, i, segStart + len, [mid], i - 1, res + [Piece(ms, i, seg + [mid])])
  {
    hide Chain, On, MakeMid;
    assert seg != [] && traj[i - 1].t < traj[i].t;
    MidOn(traj[i - 1], traj[i], segStart + len, mid);
    OnePoint(traj, mid);
    hide Increasing, Run;
    AddPoint(traj, len, soft, i, segStart, seg, ms, res, mid);
    ChainPush(traj, res, Piece(ms, i, seg + [mid]));
    SizedGrows(res, Piece(ms, i, seg + [mid]), len, soft);
    hide AllSized, Sized;
  }

  lemma SizedGrows(res: seq<Piece>, pc: Piece, len: real, soft: real)
    requires AllSized(res, len, soft) && Sized(pc, len, soft)
    ensures AllSized(res + [pc], len, soft)
  {
    hide Sized;
  }

  lemma Threshold(th: real, len: real)
    requires 0.0 < th < 0.5 && len > 0.0
    ensures 0.0 < Travel(th, len) && 2.0 * Travel(th, len) < len
    ensures Travel(1.0 - th, len) == len - Travel(th, len) && Travel(1.0 + th, len) == len + Travel(th, len)
  {
    var one, rest, more := 1.0, 1.0 - th, 1.0 + th;
    var half := rest - th;
    MulPos(th, len);
    MulPos(half, len);
    RateSplit(one, th, rest, len);
    RateSplit(rest, th, half, len);
    RateSplit(more, th, one, len);
  }

  lemma Done(traj: seq<Point>, len: real, soft: real, segStart: real, seg: seq<Point>, ms: nat, res: seq<Piece>)
    requires Increasing(traj) && |traj| >= 2 && Cutting(traj, len, soft, |traj|, segStart, seg, ms, res)
    ensures Segmented(traj, if |seg| > 1 then res + [Piece(ms, |traj| - 1, seg)] else res)
    ensures AllSized(res, len, soft) && seg != [] && Last(seg).t - seg[0].t < len + len
    ensures Last(traj).t < segStart + len
  {
    assert seg != [] && traj[0].t < traj[|traj| - 1].t;
    assert res == [] ==> seg[0] == traj[0];
    hide Run, Increasing, Chain, On;
    if |seg| > 1 {
      ChainPush(traj, res, Piece(ms, |traj| - 1, seg));
    }
  }

  lemma LastPiece(res: seq<Piece>, pc: Piece, len: real, soft: real)
    requires AllSized(res, len, soft)
    ensures AllSized((res + [pc])[..|res + [pc]| - 1], len, soft) && (res + [pc])[|res + [pc]| - 1] == pc
  {
    assert (res + [pc])[..|res|] == res;
  }

  lemma AllButLast(traj: seq<Point>, res: seq<Piece>, len: real, soft: real)
    requires AllSized(res, len, soft) && Segmented(traj, res)
    ensures AllSized(res[..|res| - 1], len, soft) && Sized(res[|res| - 1], len, soft)
  {
    hide Chain;
  }

  /** A number of lengths that reaches from the first to the last sample. */
  lemma Reach(span: real, len: real) returns (fuel: nat)
    requires len > 0.0 && span > 0.0
    ensures span <= Travel(fuel as real, len)
  {
    var q := span / len;
    assert q * len == span;
    if q < 0.0 { MulPos(-q, len); }
    fuel := q.Floor + 1;
    MulLe(len, q, fuel as real);
  }

  lemma Spend(fuel: int, n: int, len: real)
    ensures Travel((fuel - n) as real, len) == Travel(fuel as real, len) - Travel(n as real, len)
    ensures n == 1 ==> Travel(n as real, len) == len
    ensures n == 2 ==> Travel(n as real, len) == len + len
    ensures len > 0.0 && fuel <= 0 ==> Travel(fuel as real, len) <= 0.0
  {
    assert (fuel - n) as real == fuel as real - n as real;
    if len > 0.0 && fuel <= 0 { MulNonneg(-(fuel as real), len); }
  }

  // ----- where the cuts are made, and what lies between them

  /** Sample `j` is the first at or after the time `c`. */
  ghost predicate FirstFrom(traj: seq<Point>, c: real, j: nat) {
    0 < j < |traj| && traj[j - 1].t < c <= traj[j].t
  }

  /** There is a sample at the cut, to within 1e-7. */
  ghost predicate Hit(traj: seq<Point>, c: real) {
    exists j: nat :: FirstFrom(traj, c, j) && traj[j].t - c < 0.0000001
  }

  /** A cut at time `c` ends a piece at `p`: at the next sample if that is hit, or else at the last sample before if
      that is close enough, or else at the next sample if that is, or else at the place between them. */
  ghost predicate EndsAt(traj: seq<Point>, soft: real, c: real, p: Point) {
    exists j: nat :: FirstFrom(traj, c, j) && p ==
      if traj[j].t - c < 0.0000001 then traj[j]
      else if c - traj[j - 1].t < soft then traj[j - 1]
      else if traj[j].t - c < soft then traj[j]
      else MakeMid(traj[j - 1], traj[j], c)
  }

  /** The time of the cut after those made: one length on, or two after a hit. */
  ghost function CutAfter(traj: seq<Point>, len: real, cuts: seq<real>): real
    requires traj != []
  {
    if cuts == [] then traj[0].t + len
    else cuts[|cuts| - 1] + (if Hit(traj, cuts[|cuts| - 1]) then len + len else len)
  }

  /** The piece is its two ends and the samples between them, and its range the least that encloses it. */
  ghost predicate Tight(traj: seq<Point>, pc: Piece) {
    && pc.ms < pc.me < |traj| && |pc.points| >= 2
    && pc.points == [pc.points[0]] + traj[pc.ms + 1..pc.me] + [Last(pc.points)]
    && traj[pc.ms].t <= pc.points[0].t < traj[pc.ms + 1].t && traj[pc.me - 1].t < Last(pc.points).t <= traj[pc.me].t
  }

  /** Piece `k` was ended by cut `k`. */
  ghost predicate CutAt(traj: seq<Point>, len: real, soft: real, cuts: seq<real>, res: seq<Piece>, k: nat)
    requires k < |cuts| && k < |res|
  {
    && traj != [] && Tight(traj, res[k]) && EndsAt(traj, soft, cuts[k], Last(res[k].points))
    && cuts[k] == CutAfter(traj, len, cuts[..k])
  }

  ghost predicate AllCut(traj: seq<Point>, len: real, soft: real, cuts: seq<real>, res: seq<Piece>) {
    |cuts| <= |res| && forall k :: 0 <= k < |cuts| ==> CutAt(traj, len, soft, cuts, res, k)
  }

  /** The cuts were made as long as there were samples, and what was left after the last is one more piece. */
  ghost predicate CutThroughout(traj: seq<Point>, len: real, soft: real, cuts: seq<real>, res: seq<Piece>) {
    && traj != [] && AllCut(traj, len, soft, cuts, res) && Last(traj).t < CutAfter(traj, len, cuts)
    && (|res| == |cuts| || (|res| == |cuts| + 1 && Tight(traj, res[|cuts|])))
  }

  /** The segment under construction: where it starts and the samples since. */
  ghost predicate Gathered(traj: seq<Point>, i: nat, seg: seq<Point>, ms: nat) {
    && ms <= i <= |traj| && ms < |traj| && seg != []
    && seg == [seg[0]] + (if ms < i then traj[ms + 1..i] else [])
    && traj[ms].t <= seg[0].t && (ms + 1 < |traj| ==> seg[0].t < traj[ms + 1].t)
  }

  lemma GatherSample(traj: seq<Point>, i: nat, seg: seq<Point>, ms: nat)
    requires Gathered(traj, i, seg, ms) && i < |traj|
    ensures Gathered(traj, i + 1, if ms != i then seg + [traj[i]] else seg, ms)
  {
    if ms < i { assert traj[ms + 1..i + 1] == traj[ms + 1..i] + [traj[i]]; }
  }

  /** What has been gathered, ended before or in the step to sample `i`. */
  lemma TightUpTo(traj: seq<Point>, i: nat, seg: seq<Point>, ms: nat, p: Point)
    requires Gathered(traj, i, seg, ms) && ms < i < |traj| && traj[i - 1].t < p.t <= traj[i].t
    ensures Tight(traj, Piece(ms, i, seg + [p]))
  {
  }

  lemma TightBefore(traj: seq<Point>, i: nat, seg: seq<Point>, ms: nat)
    requires Increasing(traj) && Gathered(traj, i, seg, ms) && |seg| >= 2
    ensures i >= 1 && Tight(traj, Piece(ms, i - 1, seg))
  {
    assert traj[ms + 1..i] == traj[ms + 1..i - 1] + [traj[i - 1]];
  }

  lemma SameFirst(traj: seq<Point>, c: real, j: nat, k: nat)
    requires Increasing(traj) && FirstFrom(traj, c, j) && FirstFrom(traj, c, k)
    ensures j == k
  {
  }

  lemma HitAt(traj: seq<Point>, c: real, j: nat)
    requires Increasing(traj) && FirstFrom(traj, c, j)
    ensures Hit(traj, c) <==> traj[j].t - c < 0.0000001
  {
    if Hit(traj, c) {
      var k: nat :| FirstFrom(traj, c, k) && traj[k].t - c < 0.0000001;
      SameFirst(traj, c, j, k);
    }
  }

  /** One more cut. */
  lemma CutMade(traj: seq<Point>, len: real, soft: real, cuts: seq<real>, res: seq<Piece>, c: real, pc: Piece)
    requires |cuts| == |res| && AllCut(traj, len, soft, cuts, res) && traj != [] && c == CutAfter(traj, len, cuts)
    requires Tight(traj, pc) && EndsAt(traj, soft, c, Last(pc.points))
    ensures AllCut(traj, len, soft, cuts + [c], res + [pc])
  {
    hide Tight, EndsAt, CutAfter;
    var cuts', res' := cuts + [c], res + [pc];
    forall k | 0 <= k < |cuts'|
      ensures CutAt(traj, len, soft, cuts', res', k)
    {
      if k < |cuts| {
        assert CutAt(traj, len, soft, cuts, res, k) && cuts'[..k] == cuts[..k];
      } else {
        assert cuts'[..k] == cuts;
      }
    }
  }

  // ----- that decides the pieces

  lemma OneEnd(traj: seq<Point>, soft: real, c: real, p: Point, q: Point)
    requires Increasing(traj) && EndsAt(traj, soft, c, p) && EndsAt(traj, soft, c, q)
    ensures p == q && c <= Last(traj).t
  {
    hide MakeMid;
    var j: nat :| FirstFrom(traj, c, j) && p ==
      if traj[j].t - c < 0.0000001 then traj[j]
      else if c - traj[j - 1].t < soft then traj[j - 1]
      else if traj[j].t - c < soft then traj[j]
      else MakeMid(traj[j - 1], traj[j], c);
    forall k: nat | FirstFrom(traj, c, k) ensures k == j { SameFirst(traj, c, j, k); }
  }

  /** A point is made up only where no sample is within the tolerance of the cut. */
  lemma MadeUpIsFar(traj: seq<Point>, soft: real, c: real, p: Point, k: nat)
    requires k < |traj| && Increasing(traj) && EndsAt(traj, soft, c, p) && p !in traj
    ensures p.t == c && Abs(traj[k].t - p.t) >= soft
  {
    hide Mid;
    var j: nat :| FirstFrom(traj, c, j) && p ==
      if traj[j].t - c < 0.0000001 then traj[j]
      else if c - traj[j - 1].t < soft then traj[j - 1]
      else if traj[j].t - c < soft then traj[j]
      else MakeMid(traj[j - 1], traj[j], c);
    assert FirstFrom(traj, c, j);
    InOrder(traj, k, j);
  }

  lemma InOrder(traj: seq<Point>, k: nat, j: nat)
    requires 0 < j < |traj| && k < |traj| && Increasing(traj)
    ensures if k < j then traj[k].t <= traj[j - 1].t else traj[k].t >= traj[j].t
  {
  }

  lemma OnePiece(traj: seq<Point>, pc: Piece, pc': Piece)
    requires Increasing(traj) && Tight(traj, pc) && Tight(traj, pc')
    requires pc.points[0] == pc'.points[0] && Last(pc.points) == Last(pc'.points)
    ensures pc == pc'
  {
    assert pc.ms == pc'.ms && pc.me == pc'.me;
  }

  lemma {:induction false} SameCuts(traj: seq<Point>, len: real, soft: real, cuts: seq<real>, res: seq<Piece>,
                                    cuts': seq<real>, res': seq<Piece>, k: nat)
    requires AllCut(traj, len, soft, cuts, res) && AllCut(traj, len, soft, cuts', res')
    requires k <= |cuts| && k <= |cuts'|
    ensures cuts[..k] == cuts'[..k]
  {
    if k > 0 {
      SameCuts(traj, len, soft, cuts, res, cuts', res', k - 1);
      hide Tight, EndsAt, CutAfter;
      assert CutAt(traj, len, soft, cuts, res, k - 1) && CutAt(traj, len, soft, cuts', res', k - 1);
      assert cuts[..k] == cuts[..k - 1] + [cuts[k - 1]] && cuts'[..k] == cuts'[..k - 1] + [cuts'[k - 1]];
    }
  }

  /** After the last cut there is no room for another. */
  lemma NoMoreCuts(traj: seq<Point>, len: real, soft: real, cuts: seq<real>, res: seq<Piece>, cuts': seq<real>,
                   res': seq<Piece>)
    requires Increasing(traj) && CutThroughout(traj, len, soft, cuts, res) && AllCut(traj, len, soft, cuts', res')
    ensures |cuts'| <= |cuts|
  {
    hide EndsAt, CutAfter;
    if |cuts'| > |cuts| {
      SameCuts(traj, len, soft, cuts, res, cuts', res', |cuts|);
      assert cuts[..|cuts|] == cuts;
      assert CutAt(traj, len, soft, cuts', res', |cuts|);
      var p := Last(res'[|cuts|].points);
      OneEnd(traj, soft, cuts'[|cuts|], p, p);
    }
  }

  /** With the same cuts the pieces end at the same places. */
  lemma SameEnds(traj: seq<Point>, len: real, soft: real, cuts: seq<real>, res: seq<Piece>, res': seq<Piece>, k: nat)
    requires Increasing(traj) && AllCut(traj, len, soft, cuts, res) && AllCut(traj, len, soft, cuts, res') && k < |cuts|
    ensures res[k].points != [] && res'[k].points != [] && Last(res[k].points) == Last(res'[k].points)
  {
    hide EndsAt, CutAfter;
    assert CutAt(traj, len, soft, cuts, res, k) && CutAt(traj, len, soft, cuts, res', k);
    OneEnd(traj, soft, cuts[k], Last(res[k].points), Last(res'[k].points));
  }

  /** What is left after the last cut is a piece for both or for neither. */
  lemma SameNumber(traj: seq<Point>, len: real, soft: real, cuts: seq<real>, res: seq<Piece>, res': seq<Piece>)
    requires Increasing(traj) && Segmented(traj, res) && Segmented(traj, res')
    requires CutThroughout(traj, len, soft, cuts, res) && CutThroughout(traj, len, soft, cuts, res')
    ensures |res| <= |res'|
  {
    hide AllCut, CutAfter, Tight, WellPiece, EndsAt, Increasing;
    var n := |cuts|;
    if |res| > |res'| {
      SameEnds(traj, len, soft, cuts, res, res', n - 1);
      assert Joined(res, n);
      PieceLasts(traj, res[n]);
    }
  }

  lemma PieceLasts(traj: seq<Point>, pc: Piece)
    requires WellPiece(traj, pc)
    ensures pc.points[0].t < Last(pc.points).t
  {
  }

  /** A trajectory is cut in one way only. */
  lemma CutsDecide(traj: seq<Point>, len: real, soft: real, cuts: seq<real>, res: seq<Piece>, cuts': seq<real>,
                   res': seq<Piece>)
    requires Increasing(traj) && Segmented(traj, res) && Segmented(traj, res')
    requires CutThroughout(traj, len, soft, cuts, res) && CutThroughout(traj, len, soft, cuts', res')
    ensures cuts == cuts' && res == res'
  {
    hide AllCut, CutAfter, EndsAt, WellPiece;
    NoMoreCuts(traj, len, soft, cuts, res, cuts', res');
    NoMoreCuts(traj, len, soft, cuts', res', cuts, res);
    SameCuts(traj, len, soft, cuts, res, cuts', res', |cuts|);
    assert cuts[..|cuts|] == cuts && cuts'[..|cuts|] == cuts';
    SameNumber(traj, len, soft, cuts, res, res');
    SameNumber(traj, len, soft, cuts, res', res);
    hide Tight;
    forall k | 0 <= k < |res| ensures res[k] == res'[k] {
      SamePiece(traj, len, soft, cuts, res, res', k);
    }
  }

  lemma SamePiece(traj: seq<Point>, len: real, soft: real, cuts: seq<real>, res: seq<Piece>, res': seq<Piece>, k: nat)
    requires Increasing(traj) && Segmented(traj, res) && Segmented(traj, res') && |res| == |res'|
    requires CutThroughout(traj, len, soft, cuts, res) && CutThroughout(traj, len, soft, cuts, res') && k < |res|
    ensures res[k] == res'[k]
  {
    hide CutAfter, EndsAt, WellPiece;
    if k < |cuts| {
      assert CutAt(traj, len, soft, cuts, res, k) && CutAt(traj, len, soft, cuts, res', k);
      SameEnds(traj, len, soft, cuts, res, res', k);
    }
    if k > 0 {
      SameEnds(traj, len, soft, cuts, res, res', k - 1);
      assert Joined(res, k) && Joined(res', k);
    }
    OnePiece(traj, res[k], res'[k]);
  }

  /** What of the cutting loop's state tells where the cuts were made. */
  ghost predicate Marked(traj: seq<Point>, len: real, soft: real, i: nat, segStart: real, seg: seq<Point>, ms: nat,
                         cuts: seq<real>, res: seq<Piece>) {
    && traj != [] && |cuts| == |res| && AllCut(traj, len, soft, cuts, res)
    && Gathered(traj, i, seg, ms) && segStart + len == CutAfter(traj, len, cuts)
  }

  lemma MarkPass(traj: seq<Point>, len: real, soft: real, i: nat, segStart: real, seg: seq<Point>, ms: nat,
                 cuts: seq<real>, res: seq<Piece>)
    requires Marked(traj, len, soft, i, segStart, seg, ms, cuts, res) && i < |traj|
    ensures Marked(traj, len, soft, i + 1, segStart, if ms != i then seg + [traj[i]] else seg, ms, cuts, res)
  {
    hide Gathered, AllCut, CutAfter;
    GatherSample(traj, i, seg, ms);
  }

  /** The cut at time `c` ends the piece, and `seg` starts the next. */
  lemma MarkCut(traj: seq<Point>, len: real, soft: real, i: nat, c: real, cuts: seq<real>, res: seq<Piece>, pc: Piece,
                segStart: real, seg: seq<Point>, ms: nat)
    requires traj != [] && |cuts| == |res| && AllCut(traj, len, soft, cuts, res) && c == CutAfter(traj, len, cuts)
    requires Tight(traj, pc) && EndsAt(traj, soft, c, Last(pc.points)) && Gathered(traj, i, seg, ms)
    requires segStart == if Hit(traj, c) then c + len else c
    ensures Marked(traj, len, soft, i, segStart, seg, ms, cuts + [c], res + [pc])
  {
    hide Gathered, AllCut, FirstFrom, Hit, EndsAt, Tight;
    CutMade(traj, len, soft, cuts, res, c, pc);
  }

  lemma MarkAtSample(traj: seq<Point>, len: real, soft: real, i: nat, c: real, seg: seq<Point>, ms: nat,
                     cuts: seq<real>, res: seq<Piece>, segStart: real)
    requires Increasing(traj) && Marked(traj, len, soft, i, c - len, seg, ms, cuts, res) && ms < i
    requires FirstFrom(traj, c, i) && EndsAt(traj, soft, c, traj[i])
    requires segStart == if Hit(traj, c) then c + len else c
    ensures Marked(traj, len, soft, i, segStart, [traj[i]], i, cuts + [c], res + [Piece(ms, i, seg + [traj[i]])])
  {
    hide AllCut, EndsAt, CutAfter, Hit;
    TightUpTo(traj, i, seg, ms, traj[i]);
    assert Gathered(traj, i, [traj[i]], i);
    hide Gathered, Tight, Increasing;
    MarkCut(traj, len, soft, i, c, cuts, res, Piece(ms, i, seg + [traj[i]]), segStart, [traj[i]], i);
  }

  lemma MarkBefore(traj: seq<Point>, len: real, soft: real, i: nat, c: real, seg: seq<Point>, ms: nat,
                   cuts: seq<real>, res: seq<Piece>)
    requires Increasing(traj) && Marked(traj, len, soft, i, c - len, seg, ms, cuts, res) && |seg| >= 2
    requires FirstFrom(traj, c, i) && EndsAt(traj, soft, c, traj[i - 1]) && !Hit(traj, c)
    requires Last(seg) == traj[i - 1]
    ensures Marked(traj, len, soft, i, c, [traj[i - 1]], i - 1, cuts + [c], res + [Piece(ms, i - 1, seg)])
  {
    hide AllCut, EndsAt, CutAfter, Hit;
    TightBefore(traj, i, seg, ms);
    GatherOne(traj, i, traj[i - 1]);
    hide Gathered, Tight, Increasing;
    MarkCut(traj, len, soft, i, c, cuts, res, Piece(ms, i - 1, seg), c, [traj[i - 1]], i - 1);
  }

  lemma MarkInside(traj: seq<Point>, len: real, soft: real, i: nat, c: real, seg: seq<Point>, ms: nat,
                   cuts: seq<real>, res: seq<Piece>, mid: Point)
    requires Increasing(traj) && Marked(traj, len, soft, i, c - len, seg, ms, cuts, res) && ms < i
    requires FirstFrom(traj, c, i) && EndsAt(traj, soft, c, mid) && !Hit(traj, c)
    requires mid.t == c < traj[i].t
    ensures Marked(traj, len, soft, i, c, [mid], i - 1, cuts + [c], res + [Piece(ms, i, seg + [mid])])
  {
    hide AllCut, EndsAt, CutAfter, Hit;
    TightUpTo(traj, i, seg, ms, mid);
    GatherOne(traj, i, mid);
    hide Gathered, Tight, Increasing;
    MarkCut(traj, len, soft, i, c, cuts, res, Piece(ms, i, seg + [mid]), c, [mid], i - 1);
  }

  /** A piece that starts in the step to sample `i`. */
  lemma GatherOne(traj: seq<Point>, i: nat, p: Point)
    requires 0 < i < |traj| && traj[i - 1].t <= p.t < traj[i].t
    ensures Gathered(traj, i, [p], i - 1)
  {
  }

  /** Cuts at every `len`, taking a sample near a cut instead of making a point. The loop steps back to look
      at the same sample again after each cut. */
  method ISS(traj: seq<Point>, len: real, th: real) returns (r: Option<seq<Piece>>, ghost cuts: seq<real>)
    requires Increasing(traj) && len > 0.0000001 && 0.0 < th < 0.5
    ensures r.None? <==> |traj| < 2
    ensures r.Some? ==> Segmented(traj, r.value)
    ensures r.Some? ==> SizedButLast(r.value, len, Travel(th, len))
    ensures r.Some? ==> CutThroughout(traj, len, Travel(th, len), cuts, r.value)
  {
    hide Cutting, Marked, Increasing, Travel, Left, Segmented, SizedButLast, CutThroughout;
    cuts := [];
    if |traj| < 2 {
      return None, cuts;
    }
    ghost var soft := Travel(th, len);
    ghost var fuel := StartCutting(traj, len, th);
    var segStart, seg, ms, res, i := traj[0].t, [traj[0]], 0, [], 1;
    while i < |traj|
      invariant i <= |traj| && Cutting(traj, len, soft, i, segStart, seg, ms, res)
      invariant Marked(traj, len, soft, i, segStart, seg, ms, cuts, res)
      invariant Left(traj, len, segStart, fuel)
      decreases fuel, |traj| - i
    {
      if traj[i].t < segStart + len {
        PassStep(traj, len, soft, i, segStart, seg, ms, res);
        MarkPass(traj, len, soft, i, segStart, seg, ms, cuts, res);
        if ms != i { seg := seg + [traj[i]]; }
        i := i + 1;
      } else {
        ghost var before := segStart;
        CutSpends(traj, len, i, segStart, fuel);
        segStart, seg, ms, res, cuts := Cut(traj, len, th, i, segStart, seg, ms, res, cuts);
        CutsLeft(traj, len, before, segStart, fuel);
        fuel := fuel - 1;
      }
    }
    res := Finish(traj, len, soft, segStart, seg, ms, res, cuts);
    return Some(res), cuts;
  }

  lemma StartCutting(traj: seq<Point>, len: real, th: real) returns (fuel: int)
    requires Increasing(traj) && |traj| >= 2 && len > 0.0000001 && 0.0 < th < 0.5
    ensures 0.0 < Travel(th, len)
    ensures Cutting(traj, len, Travel(th, len), 1, traj[0].t, [traj[0]], 0, [])
    ensures Marked(traj, len, Travel(th, len), 1, traj[0].t, [traj[0]], 0, [], [])
    ensures Left(traj, len, traj[0].t, fuel)
  {
    Threshold(th, len);
    OnePoint(traj, traj[0]);
    assert traj[0].t < traj[|traj| - 1].t;
    assert Gathered(traj, 1, [traj[0]], 0);
    fuel := Reach(traj[|traj| - 1].t - traj[0].t, len);
  }

  /** No more than `fuel` lengths are left. */
  ghost predicate Left(traj: seq<Point>, len: real, segStart: real, fuel: int)
    requires traj != []
  {
    traj[|traj| - 1].t - segStart <= Travel(fuel as real, len)
  }

  /** A cut is made only while a length is left ... */
  lemma CutSpends(traj: seq<Point>, len: real, i: nat, segStart: real, fuel: int)
    requires Increasing(traj) && len > 0.0 && i < |traj| && traj[i].t >= segStart + len
             && Left(traj, len, segStart, fuel)
    ensures fuel > 0
  {
    assert traj[i].t <= traj[|traj| - 1].t;
    hide Travel;
    Spend(fuel, 1, len);
  }

  /** ... and uses one up. */
  lemma CutsLeft(traj: seq<Point>, len: real, segStart: real, segStart': real, fuel: int)
    requires traj != [] && Left(traj, len, segStart, fuel) && segStart' >= segStart + len
    ensures Left(traj, len, segStart', fuel - 1)
  {
    hide Travel;
    Spend(fuel, 1, len);
  }

  lemma MarkDone(traj: seq<Point>, len: real, soft: real, segStart: real, seg: seq<Point>, ms: nat, cuts: seq<real>,
                 res: seq<Piece>)
    requires Increasing(traj) && Marked(traj, len, soft, |traj|, segStart, seg, ms, cuts, res)
    requires Last(traj).t < segStart + len
    ensures CutThroughout(traj, len, soft, cuts, if |seg| > 1 then res + [Piece(ms, |traj| - 1, seg)] else res)
  {
    hide AllCut, EndsAt, CutAfter;
    if |seg| > 1 {
      TightBefore(traj, |traj|, seg, ms);
      hide Gathered, Tight, Increasing;
      PieceLeft(traj, len, soft, cuts, res, Piece(ms, |traj| - 1, seg));
    }
  }

  lemma PieceLeft(traj: seq<Point>, len: real, soft: real, cuts: seq<real>, res: seq<Piece>, pc: Piece)
    requires AllCut(traj, len, soft, cuts, res)
    ensures AllCut(traj, len, soft, cuts, res + [pc])
  {
    hide Tight, EndsAt, CutAfter;
    forall k | 0 <= k < |cuts|
      ensures CutAt(traj, len, soft, cuts, res + [pc], k)
    {
      assert CutAt(traj, len, soft, cuts, res, k);
    }
  }

  /** Closes the last piece, if there is one open. */
  method Finish(traj: seq<Point>, len: real, ghost soft: real, ghost segStart: real, seg: seq<Point>, ms: nat,
                res: seq<Piece>, ghost cuts: seq<real>)
    returns (res': seq<Piece>)
    requires Increasing(traj) && |traj| >= 2 && len > 0.0000001 && soft > 0.0
             && Cutting(traj, len, soft, |traj|, segStart, seg, ms, res)
             && Marked(traj, len, soft, |traj|, segStart, seg, ms, cuts, res)
    ensures Segmented(traj, res') && SizedButLast(res', len, soft)
    ensures CutThroughout(traj, len, soft, cuts, res')
  {
    hide Marked, CutThroughout;
    Done(traj, len, soft, segStart, seg, ms, res);
    MarkDone(traj, len, soft, segStart, seg, ms, cuts, res);
    hide AllSized, Segmented, Last, Cutting, Increasing;
    res' := res;
    if |seg| > 1 {
      LastPiece(res, Piece(ms, |traj| - 1, seg), len, soft);
      res' := res + [Piece(ms, |traj| - 1, seg)];
    } else {
      AllButLast(traj, res, len, soft);
    }
  }

  /** What holds of the segment when a cut is made in the step to sample `i`. */
  lemma CutFacts(traj: seq<Point>, len: real, soft: real, i: nat, segStart: real, seg: seq<Point>, ms: nat,
                 res: seq<Piece>)
    requires Increasing(traj) && 0.0 < soft < len && Cutting(traj, len, soft, i, segStart, seg, ms, res)
    requires i < |traj| && traj[i].t >= segStart + len
    ensures i >= 1 && ms < i && FirstFrom(traj, segStart + len, i)
    ensures traj[i - 1].t > segStart + len - soft ==> |seg| >= 2 && Last(seg) == traj[i - 1]
  {
  }

  /** How a cut in the step to sample `i` ends the piece. */
  lemma EndIs(traj: seq<Point>, soft: real, c: real, i: nat)
    requires FirstFrom(traj, c, i)
    ensures traj[i].t - c < 0.0000001 ==> EndsAt(traj, soft, c, traj[i])
    ensures traj[i].t - c >= 0.0000001 && c - traj[i - 1].t < soft ==> EndsAt(traj, soft, c, traj[i - 1])
    ensures traj[i].t - c >= 0.0000001 && c - traj[i - 1].t >= soft && traj[i].t - c < soft ==>
              EndsAt(traj, soft, c, traj[i])
    ensures traj[i].t - c >= 0.0000001 && c - traj[i - 1].t >= soft && traj[i].t - c >= soft ==>
              EndsAt(traj, soft, c, MakeMid(traj[i - 1], traj[i], c))
  {
    hide MakeMid;
  }

  /** Makes one segment at sample `i`, which is at or past the cut. */
  method Cut(traj: seq<Point>, len: real, th: real, i: nat, segStart: real, seg: seq<Point>, ms: nat, res: seq<Piece>,
             ghost cuts: seq<real>)
    returns (segStart': real, seg': seq<Point>, ms': nat, res': seq<Piece>, ghost cuts': seq<real>)
    requires Increasing(traj) && len > 0.0000001 && 0.0 < th < 0.5
    requires Cutting(traj, len, Travel(th, len), i, segStart, seg, ms, res) && i < |traj| && traj[i].t >= segStart + len
    requires Marked(traj, len, Travel(th, len), i, segStart, seg, ms, cuts, res)
    ensures Cutting(traj, len, Travel(th, len), i, segStart', seg', ms', res') && segStart' >= segStart + len
    ensures Marked(traj, len, Travel(th, len), i, segStart', seg', ms', cuts', res')
  {
    ghost var soft, c := Travel(th, len), segStart + len;
    hide Marked, EndsAt, Hit, Cutting, MakeMid, Travel, Increasing, Last, FirstFrom;
    Threshold(th, len);
    CutFacts(traj, len, soft, i, segStart, seg, ms, res);
    EndIs(traj, soft, c, i);
    HitAt(traj, c, i);
    cuts' := cuts + [c];
    var early, late := segStart + Travel(1.0 - th, len), segStart + Travel(1.0 + th, len);
    segStart' := segStart;
    if Abs(traj[i].t - segStart - len) < NEAR {
      CloseAtSample(traj, len, soft, i, segStart, seg, ms, res, segStart + len + len);
      MarkAtSample(traj, len, soft, i, c, seg, ms, cuts, res, c + len);
      seg', ms', res' := [traj[i]], i, res + [Piece(ms, i, seg + [traj[i]])];
      segStart' := segStart' + len;
    } else if traj[i - 1].t > early {
      CloseBefore(traj, len, soft, i, segStart, seg, ms, res);
      MarkBefore(traj, len, soft, i, c, seg, ms, cuts, res);
      seg', ms', res' := [traj[i - 1]], i - 1, res + [Piece(ms, i - 1, seg)];
    } else if traj[i].t < late {
      CloseAtSample(traj, len, soft, i, segStart, seg, ms, res, segStart + len);
      MarkAtSample(traj, len, soft, i, c, seg, ms, cuts, res, c);
      seg', ms', res' := [traj[i]], i, res + [Piece(ms, i, seg + [traj[i]])];
    } else {
      var mid := MakeMid(traj[i - 1], traj[i], segStart + len);
      MidOn(traj[i - 1], traj[i], segStart + len, mid);
      CloseInside(traj, len, soft, i, segStart, seg, ms, res, mid);
      MarkInside(traj, len, soft, i, c, seg, ms, cuts, res, mid);
      seg', ms', res' := [mid], i - 1, res + [Piece(ms, i, seg + [mid])];
    }
    segStart' := segStart' + len;
  }
}
