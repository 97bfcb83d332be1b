/** Two straight motions over one time window, seen as the motion of their difference. The code reduces
    the squared distance to a quadratic in time and finds its least value from the vertex. */
module RelativeMotion {
  import opened Geometry
  import opened Quadratics
  import opened Wrappers

  /** The difference (dxs, dys) at `ts` and (dxe, dye) at `te`. */
  datatype Window = Window(dxs: real, dys: real, dxe: real, dye: real, ts: real, te: real)

  /** Squared distance at time `t`. */
  ghost function D2(w: Window, t: real): (r: real)
    ensures r >= 0.0
  {
    if w.ts == w.te then Sq(w.dxs) + Sq(w.dys)
    else Sq(Mid(w.dxs, w.ts, w.dxe, w.te, t)) + Sq(Mid(w.dys, w.ts, w.dye, w.te, t))
  }

  /** Coefficients of one axis of the scaled squared distance; the linear one is halved. */
  function AxisA(ds: real, de: real): (a: real)
    ensures a >= 0.0
  {
    Sq(ds - de)
  }

  function AxisB(ds: real, de: real, ts: real, te: real): real { (de * ts - ds * te) * (ds - de) }

  function AxisC(ds: real, de: real, ts: real, te: real): (c: real)
    ensures c >= 0.0
  {
    Sq(de * ts - ds * te)
  }

  function C1(w: Window): (c: real)
    ensures c >= 0.0
  {
    AxisA(w.dxs, w.dxe) + AxisA(w.dys, w.dye)
  }

  function C2(w: Window): real { 2.0 * (AxisB(w.dxs, w.dxe, w.ts, w.te) + AxisB(w.dys, w.dye, w.ts, w.te)) }

  function C3(w: Window): real { AxisC(w.dxs, w.dxe, w.ts, w.te) + AxisC(w.dys, w.dye, w.ts, w.te) }

  /** An empty window has only one position. */
  ghost predicate Coherent(w: Window) {
    w.ts <= w.te && (w.ts == w.te ==> w.dxs == w.dxe && w.dys == w.dye)
  }

  /** A window in which less than this squared displacement happens is treated as standing still. */
  const STILL: real := 0.0000001

  /** Where the quadratic with these coefficients is least, and its value there. */
  function Middle(a: real, b: real): real
    requires a != 0.0
  {
    -b / a / 2.0
  }

  function LeastValue(a: real, b: real, c: real): real
    requires a != 0.0
  {
    (4.0 * a * c - b * b) / 4.0 / a
  }

  function StartDistance(sqrt: real -> real, w: Window): real { sqrt(Sq(w.dxs) + Sq(w.dys)) }

  function EndDistance(sqrt: real -> real, w: Window): real { sqrt(Sq(w.dxe) + Sq(w.dye)) }

  /** Least distance over the window, when the vertex of its quadratic lies strictly between `lo` and `hi`
      or outside the window. */
  function ChordDistance(sqrt: real -> real, w: Window, lo: real, hi: real): real
    requires w.ts <= lo && hi <= w.te
  {
    if C1(w) < STILL then StartDistance(sqrt, w)
    else if lo < Middle(C1(w), C2(w)) < hi then sqrt(LeastValue(C1(w), C2(w), C3(w))) / (w.te - w.ts)
    else Min(StartDistance(sqrt, w), EndDistance(sqrt, w))
  }

  lemma QuadSum(a: real, b: real, c: real, a': real, b': real, c': real, t: real)
    ensures Quad(a + a', b + b', c + c', t) == Quad(a, b, c, t) + Quad(a', b', c', t)
  {
  }

  /** One coordinate: scaling by the window length clears the divisions. */
  lemma ScaledMid(xs: real, xe: real, ts: real, te: real, t: real, c: real, e: real, f: real)
    requires ts < te && c == te - ts && e == xe - xs && f == xs * te - xe * ts
    ensures Travel(c, Mid(xs, ts, xe, te, t)) == e * t + f
  {
    var u, w := (t - ts) / c, (te - t) / c;
    assert c * u == t - ts && c * w == te - t;
    var m := Mid(xs, ts, xe, te, t);
    assert m == u * xe + w * xs;
    assert c * m == (c * u) * xe + (c * w) * xs;
  }

  lemma SquareProduct(a: real, b: real)
    ensures Sq(Travel(a, b)) == Sq(a) * Sq(b)
  {
  }

  lemma SquareOfLine(e: real, f: real, t: real)
    ensures Sq(e * t + f) == Quad(Sq(e), 2.0 * (e * f), Sq(f), t)
  {
  }

  /** One axis of the next lemma. */
  lemma ScaledAxis(ds: real, de: real, ts: real, te: real, t: real)
    requires ts < te
    ensures Quad(AxisA(ds, de), 2.0 * AxisB(ds, de, ts, te), AxisC(ds, de, ts, te), t)
         == Sq(te - ts) * Sq(Mid(ds, ts, de, te, t))
  {
    var c, e, f, g, h, m := te - ts, de - ds, ds * te - de * ts, ds - de, de * ts - ds * te, Mid(ds, ts, de, te, t);
    assert AxisA(ds, de) == Sq(g) && AxisB(ds, de, ts, te) == Travel(h, g) && AxisC(ds, de, ts, te) == Sq(h);
    assert g == -e && h == -f;
    hide AxisA, AxisB, AxisC, Quad, Sq, Mid, Travel;
    Negate(g, e, h, f);
    ScaledMid(ds, de, ts, te, t, c, e, f);
    SquareOfLine(e, f, t);
    SquareProduct(c, m);
  }

  lemma Negate(g: real, e: real, h: real, f: real)
    requires g == -e && h == -f
    ensures Sq(g) == Sq(e) && Sq(h) == Sq(f) && Travel(h, g) == e * f
  {
  }

  /** The quadratic is the squared distance scaled by the squared window length. */
  lemma ScaledDistance(w: Window, t: real)
    requires w.ts < w.te
    ensures Quad(C1(w), C2(w), C3(w), t) == Sq(w.te - w.ts) * D2(w, t)
  {
    hide AxisA, AxisB, AxisC, Quad, Sq, Mid;
    ScaledAxis(w.dxs, w.dxe, w.ts, w.te, t);
    ScaledAxis(w.dys, w.dye, w.ts, w.te, t);
    QuadSum(AxisA(w.dxs, w.dxe), 2.0 * AxisB(w.dxs, w.dxe, w.ts, w.te), AxisC(w.dxs, w.dxe, w.ts, w.te),
            AxisA(w.dys, w.dye), 2.0 * AxisB(w.dys, w.dye, w.ts, w.te), AxisC(w.dys, w.dye, w.ts, w.te), t);
    Distribute(Sq(w.te - w.ts), Sq(Mid(w.dxs, w.ts, w.dxe, w.te, t)), Sq(Mid(w.dys, w.ts, w.dye, w.te, t)), D2(w, t));
  }

  lemma D2AtEnds(w: Window)
    requires Coherent(w)
    ensures D2(w, w.ts) == Sq(w.dxs) + Sq(w.dys) && D2(w, w.te) == Sq(w.dxe) + Sq(w.dye)
  {
    if w.ts < w.te {
      MidIsLinear(w.dxs, w.ts, w.dxe, w.te, w.ts);
      MidIsLinear(w.dys, w.ts, w.dye, w.te, w.ts);
    }
  }

  /** Comparing squared distances is comparing the scaled quadratics. */
  lemma CompareScaled(w: Window, s: real, t: real)
    requires w.ts < w.te
    ensures D2(w, s) <= D2(w, t) <==> Quad(C1(w), C2(w), C3(w), s) <= Quad(C1(w), C2(w), C3(w), t)
  {
    hide D2, C1, C2, C3, Quad, Sq;
    ScaledDistance(w, s);
    ScaledDistance(w, t);
    SqPos(w.te - w.ts);
    var k, a, b := Sq(w.te - w.ts), D2(w, s), D2(w, t);
    ScaleCompare(k, a, b, k * a, k * b);
  }

  lemma ScaleCompare(k: real, a: real, b: real, ka: real, kb: real)
    requires k > 0.0 && ka == k * a && kb == k * b
    ensures ka <= kb <==> a <= b
  {
    if a <= b { MulLe(k, a, b); } else { MulLess(k, b, a, kb, ka); }
  }

  lemma MulLess(k: real, a: real, b: real, ka: real, kb: real)
    requires k > 0.0 && a < b && ka == k * a && kb == k * b
    ensures ka < kb
  {
    var d := b - a;
    var kd := k * d;
    MulPos(k, d);
    Distribute(k, a, d, b);
    assert kb == ka + kd;
  }

  /** The closed form is the value of the quadratic at its vertex. */
  lemma VertexValue(a: real, b: real, c: real)
    requires a > 0.0
    ensures Quad(a, b, c, Middle(a, b)) == LeastValue(a, b, c)
    ensures IsVertex(a, b, Middle(a, b))
  {
    var n, m, v := -b / a, Middle(a, b), LeastValue(a, b, c);
    assert n * a == -b;
    assert 2.0 * a * m == -b;
    assert v * a == (4.0 * a * c - b * b) / 4.0;
    var q, am := Quad(a, b, c, m), a * m;
    assert q * a == am * am + b * am + a * c;
    assert am == -b / 2.0;
    MulCancel(a, q, v);
  }

  /** Moving away from the vertex increases the quadratic. */
  lemma AwayFromVertex(a: real, b: real, c: real, m: real, s: real, t: real)
    requires a > 0.0 && IsVertex(a, b, m)
    requires m <= s <= t || t <= s <= m
    ensures Quad(a, b, c, s) <= Quad(a, b, c, t)
  {
    QuadAtVertex(a, b, c, m, s);
    QuadAtVertex(a, b, c, m, t);
    if m <= s <= t {
      SquareMono(s - m, t - m);
    } else {
      SquareMono(m - s, m - t);
      SqNeg(s - m, m - s);
      SqNeg(t - m, m - t);
    }
    hide Quad, Sq;
    MulLe(a, Sq(s - m), Sq(t - m));
  }

  /** The end distances are real distances. */
  lemma EndDistances(sqrt: real -> real, w: Window)
    requires IsSqrt(sqrt) && Coherent(w)
    ensures StartDistance(sqrt, w) >= 0.0 && Sq(StartDistance(sqrt, w)) == D2(w, w.ts)
    ensures EndDistance(sqrt, w) >= 0.0 && Sq(EndDistance(sqrt, w)) == D2(w, w.te)
  {
    hide Sq, D2;
    D2AtEnds(w);
    SqrtOf(sqrt, Sq(w.dxs) + Sq(w.dys));
    SqrtOf(sqrt, Sq(w.dxe) + Sq(w.dye));
  }

  /** A window with motion has positive length. */
  lemma MovingWindow(w: Window)
    requires Coherent(w) && C1(w) >= STILL
    ensures w.ts < w.te && C1(w) > 0.0
  {
  }

  /** The number returned is a distance the two motions really have at some instant of the window. */
  lemma ChordAttained(sqrt: real -> real, w: Window, lo: real, hi: real) returns (t: real)
    requires IsSqrt(sqrt) && Coherent(w) && w.ts <= lo && hi <= w.te
    ensures w.ts <= t <= w.te
    ensures ChordDistance(sqrt, w, lo, hi) >= 0.0 && Sq(ChordDistance(sqrt, w, lo, hi)) == D2(w, t)
  {
    EndDistances(sqrt, w);
    if C1(w) >= STILL { MovingWindow(w); }
    hide C1, C2, C3, D2, Sq, StartDistance, EndDistance, Middle, LeastValue;
    var r := ChordDistance(sqrt, w, lo, hi);
    if C1(w) >= STILL && lo < Middle(C1(w), C2(w)) < hi {
      t := Middle(C1(w), C2(w));
      VertexDistance(sqrt, w);
    } else {
      t := if r == StartDistance(sqrt, w) then w.ts else w.te;
    }
  }

  lemma VertexDistance(sqrt: real -> real, w: Window)
    requires IsSqrt(sqrt) && w.ts < w.te && C1(w) > 0.0
    ensures var d := sqrt(LeastValue(C1(w), C2(w), C3(w))) / (w.te - w.ts);
            d >= 0.0 && Sq(d) == D2(w, Middle(C1(w), C2(w)))
  {
    hide C1, C2, C3, Quad, D2, Sq, Middle, LeastValue;
    var m := Middle(C1(w), C2(w));
    var v, c, k := LeastValue(C1(w), C2(w), C3(w)), w.te - w.ts, D2(w, m);
    VertexValue(C1(w), C2(w), C3(w));
    ScaledDistance(w, m);
    SqPos(c);
    MulNonneg(Sq(c), k);
    SqrtOf(sqrt, v);
    QuotientRoot(sqrt(v), c, k);
  }

  lemma QuotientRoot(r: real, c: real, k: real)
    requires r >= 0.0 && c > 0.0 && Sq(r) == Sq(c) * k
    ensures r / c >= 0.0 && Sq(r / c) == k
  {
    var d := r / c;
    assert d * c == r;
    if d < 0.0 { MulPos(-d, c); }
    var cc, dd := Sq(c), Sq(d);
    assert dd * cc == Sq(r);
    SqPos(c);
    MulCancel(cc, dd, k);
  }

  /** How far a window that counts as standing still may really move. */
  function Slack(sqrt: real -> real, w: Window): real {
    if C1(w) < STILL then sqrt(C1(w)) else 0.0
  }

  /** The displacement since the window start is a fraction of the whole. */
  lemma StillBound(sqrt: real -> real, w: Window, t: real, x: real)
    requires IsSqrt(sqrt) && Coherent(w) && w.ts <= t <= w.te
    requires x >= 0.0 && D2(w, t) <= Sq(x)
    ensures sqrt(C1(w)) >= 0.0 && D2(w, w.ts) <= Sq(x + sqrt(C1(w)))
  {
    var k := sqrt(C1(w));
    SqrtOf(sqrt, C1(w));
    if w.ts == w.te {
      SquareMono(x, x + k);
    } else {
      D2AtEnds(w);
      var v, u := Weights(w.ts, w.te, t);
      var mx, my := Mid(w.dxs, w.ts, w.dxe, w.te, t), Mid(w.dys, w.ts, w.dye, w.te, t);
      var ex, ey := w.dxs - w.dxe, w.dys - w.dye;
      assert mx == w.dxs - u * ex && my == w.dys - u * ey by { assert v == 1.0 - u; }
      FractionOfVector(ex, ey, k, u);
      VectorSum(mx, my, u * ex, u * ey, x, k);
    }
  }

  lemma FractionOfVector(ex: real, ey: real, k: real, u: real)
    requires k >= 0.0 && Sq(ex) + Sq(ey) == Sq(k) && 0.0 <= u <= 1.0
    ensures Sq(u * ex) + Sq(u * ey) <= Sq(k)
  {
    var uu, kk := Sq(u), Sq(k);
    SquareMono(u, 1.0);
    assert Sq(u * ex) + Sq(u * ey) == uu * kk;
    ProductLe(uu, 1.0, kk, kk);
  }

  /** If the motions come within `x` somewhere on [lo, hi], the number returned is no more than that,
      up to the slack, or they are already within `x` at an end of [lo, hi] that is not a window end. */
  lemma ChordBelow(sqrt: real -> real, w: Window, lo: real, hi: real, t: real, x: real)
    requires IsSqrt(sqrt) && Coherent(w) && w.ts <= lo <= t <= hi <= w.te
    requires x >= 0.0 && D2(w, t) <= Sq(x)
    ensures || ChordDistance(sqrt, w, lo, hi) <= x + Slack(sqrt, w)
            || (lo > w.ts && D2(w, lo) <= Sq(x))
            || (hi < w.te && D2(w, hi) <= Sq(x))
  {
    EndDistances(sqrt, w);
    if C1(w) >= STILL { MovingWindow(w); }
    hide C1, C2, C3, D2, Sq, StartDistance, EndDistance, Middle, LeastValue;
    if C1(w) < STILL {
      StillBound(sqrt, w, t, x);
      SquareLe(StartDistance(sqrt, w), x + sqrt(C1(w)));
    } else {
      MovingChordBelow(sqrt, w, lo, hi, t, x);
    }
  }

  lemma MovingChordBelow(sqrt: real -> real, w: Window, lo: real, hi: real, t: real, x: real)
    requires IsSqrt(sqrt) && Coherent(w) && w.ts <= lo <= t <= hi <= w.te && w.ts < w.te
    requires C1(w) >= STILL && C1(w) > 0.0
    requires x >= 0.0 && D2(w, t) <= Sq(x)
    ensures || ChordDistance(sqrt, w, lo, hi) <= x
            || (lo > w.ts && D2(w, lo) <= Sq(x))
            || (hi < w.te && D2(w, hi) <= Sq(x))
  {
    EndDistances(sqrt, w);
    hide C1, C2, C3, D2, Sq, StartDistance, EndDistance, Middle, LeastValue, Quad, IsVertex;
    var c1, c2, c3, m := C1(w), C2(w), C3(w), Middle(C1(w), C2(w));
    VertexValue(c1, c2, c3);
    if lo < m < hi {
      VertexDistance(sqrt, w);
      AwayFromVertex(c1, c2, c3, m, m, t);
      CompareScaled(w, m, t);
      SquareLe(ChordDistance(sqrt, w, lo, hi), x);
    } else if m <= lo {
      AwayFromVertex(c1, c2, c3, m, lo, t);
      CompareScaled(w, lo, t);
      if lo == w.ts { SquareLe(StartDistance(sqrt, w), x); }
    } else {
      AwayFromVertex(c1, c2, c3, m, hi, t);
      CompareScaled(w, hi, t);
      if hi == w.te { SquareLe(EndDistance(sqrt, w), x); }
    }
  }

  // ----- distance between two moving points

  /** The window of two straight motions over the same period. */
  function WindowOf(p1s: Point, p1e: Point, p2s: Point, p2e: Point): Window {
    Window(p1s.x - p2s.x, p1s.y - p2s.y, p1e.x - p2e.x, p1e.y - p2e.y, p1s.t, p1e.t)
  }

  /** Least distance of two straight motions; motions over different periods are refused. */
  function Line2LineMinSED(sqrt: real -> real, p1s: Point, p1e: Point, p2s: Point, p2e: Point): Option<real> {
    if p1s.t != p2s.t || p1e.t != p2e.t then None
    else Some(ChordDistance(sqrt, WindowOf(p1s, p1e, p2s, p2e), p1s.t, p1e.t))
  }

  lemma MidDifference(xs: real, xe: real, xs': real, xe': real, ts: real, te: real, t: real)
    requires ts != te
    ensures Mid(xs - xs', ts, xe - xe', te, t) == Mid(xs, ts, xe, te, t) - Mid(xs', ts, xe', te, t)
  {
    var u, w := (t - ts) / (te - ts), (te - t) / (te - ts);
    assert u * (xe - xe') == u * xe - u * xe' && w * (xs - xs') == w * xs - w * xs';
  }

  lemma WindowDistance(p1s: Point, p1e: Point, p2s: Point, p2e: Point, t: real)
    requires p1s.t == p2s.t && p1e.t == p2e.t
    ensures D2(WindowOf(p1s, p1e, p2s, p2e), t) == DistSq(MakeMid(p1s, p1e, t), MakeMid(p2s, p2e, t))
  {
    hide Sq, Mid;
    if p1s.t != p1e.t {
      MidDifference(p1s.x, p1e.x, p2s.x, p2e.x, p1s.t, p1e.t, t);
      MidDifference(p1s.y, p1e.y, p2s.y, p2e.y, p1s.t, p1e.t, t);
    }
  }

  /** Exactly motions over different periods are refused. The returned distance is attained within the period, and
      nowhere in the period are the points nearer than it, unless they move relative to each other, but by less than
      1e-7 in the square; then not by more than they move. */
  lemma MinSEDIsMinimum(sqrt: real -> real, p1s: Point, p1e: Point, p2s: Point, p2e: Point)
    requires IsSqrt(sqrt) && p1s.t <= p1e.t
    requires p1s.t == p1e.t ==> p1s == p1e && p2s == p2e
    ensures var r := Line2LineMinSED(sqrt, p1s, p1e, p2s, p2e);
      var moved := Sq((p1e.x - p2e.x) - (p1s.x - p2s.x)) + Sq((p1e.y - p2e.y) - (p1s.y - p2s.y));
      && (r.None? <==> p1s.t != p2s.t || p1e.t != p2e.t)
      && (r.Some? ==>
            && r.value >= 0.0
            && (exists t :: p1s.t <= t <= p1e.t && DistSq(MakeMid(p1s, p1e, t), MakeMid(p2s, p2e, t)) == Sq(r.value))
            && (forall t, x :: p1s.t <= t <= p1e.t && Within(MakeMid(p1s, p1e, t), MakeMid(p2s, p2e, t), x)
                  ==> r.value <= x + (if moved == 0.0 || moved >= 0.0000001 then 0.0 else sqrt(moved))))
  {
    var w, r := WindowOf(p1s, p1e, p2s, p2e), Line2LineMinSED(sqrt, p1s, p1e, p2s, p2e);
    var moved := Sq((p1e.x - p2e.x) - (p1s.x - p2s.x)) + Sq((p1e.y - p2e.y) - (p1s.y - p2s.y));
    SqNeg(w.dxs - w.dxe, w.dxe - w.dxs);
    SqNeg(w.dys - w.dye, w.dye - w.dys);
    assert moved == C1(w);
    SlackOfSteady(sqrt, w);
    hide C1, C2, C3, D2, Sq, DistSq, StartDistance, EndDistance, Middle, LeastValue, Slack;
    if r.Some? {
      var t := ChordAttained(sqrt, w, w.ts, w.te);
      WindowDistance(p1s, p1e, p2s, p2e, t);
      forall t, x | p1s.t <= t <= p1e.t && Within(MakeMid(p1s, p1e, t), MakeMid(p2s, p2e, t), x)
        ensures r.value <= x + Slack(sqrt, w)
      {
        WindowDistance(p1s, p1e, p2s, p2e, t);
        ChordBelow(sqrt, w, w.ts, w.te, t, x);
      }
    }
  }

  lemma SlackOfSteady(sqrt: real -> real, w: Window)
    requires IsSqrt(sqrt)
    ensures Slack(sqrt, w) >= 0.0
    ensures C1(w) == 0.0 || C1(w) >= STILL ==> Slack(sqrt, w) == 0.0
  {
    hide C1, Sq;
    SqrtOf(sqrt, C1(w));
    if C1(w) == 0.0 { ZeroRoot(sqrt(0.0)); }
  }

  lemma ZeroRoot(r: real)
    requires r >= 0.0 && Sq(r) == 0.0
    ensures r == 0.0
  {
    if r > 0.0 { SqPos(r); }
  }
}
