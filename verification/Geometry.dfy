/** Points in space-time, straight motion between two of them, and the two vector
    facts (Cauchy-Schwarz and convexity of discs) that every enclosure proof rests on.
    Coordinates are exact reals. */
module Geometry {

  datatype Point = Point(x: real, y: real, t: real)

  /** The square-root routine the code calls. It is a parameter of everything that uses it. */
  ghost predicate IsSqrt(sqrt: real -> real) {
    forall v: real :: v >= 0.0 ==> sqrt(v) >= 0.0 && sqrt(v) * sqrt(v) == v
  }

  function Min(a: real, b: real): real { if b < a then b else a }

  function Max(a: real, b: real): real { if a < b then b else a }

  function Abs(v: real): real { if v < 0.0 then -v else v }

  /** Distance between 1 and the next larger machine number. */
  const MACHINE_EPSILON: real := 1.0 / 4503599627370496.0

  function Sq(v: real): (r: real)
    ensures r >= 0.0
  {
    v * v
  }

  lemma SqrtOf(sqrt: real -> real, v: real)
    requires IsSqrt(sqrt) && v >= 0.0
    ensures sqrt(v) >= 0.0 && Sq(sqrt(v)) == v
  {
  }

  /** Distance covered at speed `v` in `dt`. */
  function Travel(v: real, dt: real): real { v * dt }

  /** Weighted mix of two values. */
  function Mix(w: real, a: real, u: real, b: real): real { w * a + u * b }

  lemma TravelSplit(v: real, a: real, b: real, c: real)
    requires c == a - b
    ensures Travel(v, c) == Travel(v, a) - Travel(v, b)
  {
  }

  lemma RateSplit(u: real, v: real, w: real, dt: real)
    requires w == u - v
    ensures Travel(w, dt) == Travel(u, dt) - Travel(v, dt)
  {
  }

  lemma MixBetween(w: real, u: real, a: real, b: real, lo: real, hi: real)
    requires w >= 0.0 && u >= 0.0 && w + u == 1.0
    requires lo <= a <= hi && lo <= b <= hi
    ensures lo <= Mix(w, a, u, b) <= hi
  {
    var p, q, p', q' := hi - a, hi - b, a - lo, b - lo;
    assert hi - Mix(w, a, u, b) == w * p + u * q by { assert u == 1.0 - w; }
    assert Mix(w, a, u, b) - lo == w * p' + u * q' by { assert u == 1.0 - w; }
    MulNonneg(w, p);
    MulNonneg(u, q);
    MulNonneg(w, p');
    MulNonneg(u, q');
  }

  /** Squared planar distance. */
  function DistSq(p: Point, q: Point): (r: real)
    ensures r >= 0.0
  {
    Sq(p.x - q.x) + Sq(p.y - q.y)
  }

  /** `p` is within planar distance `r` of `q`. */
  predicate Within(p: Point, q: Point, r: real) {
    r >= 0.0 && DistSq(p, q) <= Sq(r)
  }

  /** One coordinate at time `t` of the motion from (x1, t1) to (x2, t2). */
  function Mid(x1: real, t1: real, x2: real, t2: real, t: real): real
    requires t1 != t2
  {
    (t - t1) / (t2 - t1) * x2 + (t2 - t) / (t2 - t1) * x1
  }

  function MakeMid(p: Point, q: Point, t: real): Point {
    if p.t == q.t then p
    else Point(Mid(p.x, p.t, q.x, q.t, t), Mid(p.y, p.t, q.y, q.t, t), t)
  }

  function Slope(x1: real, t1: real, x2: real, t2: real): real
    requires t1 != t2
  {
    (x2 - x1) / (t2 - t1)
  }

  /** Sample times strictly increase. */
  ghost predicate Increasing(s: seq<Point>) {
    forall i, j :: 0 <= i < j < |s| ==> s[i].t < s[j].t
  }

  /** `p` is the position at time `p.t` of the polyline through the samples `s`. */
  ghost predicate OnPolyline(s: seq<Point>, p: Point) {
    exists i :: 0 <= i < |s| - 1 && s[i].t <= p.t <= s[i + 1].t && p == MakeMid(s[i], s[i + 1], p.t)
  }

  lemma DivUnique(a: real, b: real, c: real)
    requires b != 0.0 && c * b == a
    ensures a / b == c
  {
    var q := a / b;
    assert q * b == a;
    MulCancel(b, q, c);
  }

  lemma MulCancel(b: real, p: real, q: real)
    requires b != 0.0 && p * b == q * b
    ensures p == q
  {
    assert (p - q) * b == 0.0;
  }

  lemma MulNonneg(a: real, b: real)
    requires a >= 0.0 && b >= 0.0
    ensures a * b >= 0.0
  {
  }

  lemma MulPos(a: real, b: real)
    requires a > 0.0 && b > 0.0
    ensures a * b > 0.0
  {
  }

  lemma ProductLe(a: real, a': real, b: real, b': real)
    requires 0.0 <= a <= a' && 0.0 <= b <= b'
    ensures a * b <= a' * b'
  {
    MulLe(a, b, b');
    MulLe(b', a, a');
  }

  /** Multiplying both sides of an inequality by a nonnegative factor. */
  lemma MulLe(c: real, a: real, b: real)
    requires c >= 0.0 && a <= b
    ensures c * a <= c * b
  {
    MulNonneg(c, b - a);
  }

  /** The interpolation formula is the line through the first end with the common slope. */
  lemma MidIsLinear(x1: real, t1: real, x2: real, t2: real, t: real)
    requires t1 != t2
    ensures Mid(x1, t1, x2, t2, t) == x1 + Slope(x1, t1, x2, t2) * (t - t1)
    ensures Mid(x1, t1, x2, t2, t1) == x1
    ensures Mid(x1, t1, x2, t2, t2) == x2
  {
    var d := t2 - t1;
    var u := (t - t1) / d;
    var w := (t2 - t) / d;
    assert u + w == 1.0 by {
      assert u * d == t - t1 && w * d == t2 - t;
      MulCancel(d, u + w, 1.0);
    }
    var m := Slope(x1, t1, x2, t2);
    assert m * d == x2 - x1;
    assert u * (x2 - x1) == m * (t - t1) by {
      assert u * (m * d) == m * (u * d);
    }
    assert w * x1 == (1.0 - u) * x1 == x1 - u * x1;
    assert u * x2 + w * x1 == x1 + u * (x2 - x1);
    DivUnique(d, d, 1.0);
  }

  /** A point of a straight motion lies at convex weights of the two ends. */
  lemma Weights(t1: real, t2: real, t: real) returns (w: real, u: real)
    requires t1 < t2 && t1 <= t <= t2
    ensures w >= 0.0 && u >= 0.0 && w + u == 1.0 && t == Mix(w, t1, u, t2)
    ensures u == (t - t1) / (t2 - t1) && w == (t2 - t) / (t2 - t1)
  {
    var d := t2 - t1;
    u := (t - t1) / d;
    w := (t2 - t) / d;
    assert u * d == t - t1 && w * d == t2 - t;
    MulCancel(d, u + w, 1.0);
    if u < 0.0 { MulPos(-u, d); }
    if w < 0.0 { MulPos(-w, d); }
    assert w * t1 + u * t2 == t1 + u * d by {
      assert w == 1.0 - u;
    }
  }

  lemma SquareLe(a: real, b: real)
    requires b >= 0.0 && Sq(a) <= Sq(b)
    ensures a <= b
  {
    var p, q := a - b, a + b;
    assert p * q == Sq(a) - Sq(b);
    if a > b { MulPos(p, q); }
  }

  lemma SquareMono(a: real, b: real)
    requires 0.0 <= a <= b
    ensures Sq(a) <= Sq(b)
  {
    var p, q := b - a, b + a;
    assert p * q == Sq(b) - Sq(a);
    MulNonneg(p, q);
  }

  lemma SqPos(a: real)
    requires a > 0.0
    ensures Sq(a) > 0.0
  {
    assert Sq(0.0) == 0.0;
    if Sq(a) <= 0.0 { SquareLe(a, 0.0); }
  }

  lemma SqNeg(a: real, b: real)
    requires a == -b
    ensures Sq(a) == Sq(b)
  {
  }

  lemma DiffPos(d: real)
    ensures d != 0.0 <==> Sq(d) > 0.0
  {
    if d > 0.0 { SqPos(d); } else if d < 0.0 { SqPos(-d); SqNeg(d, -d); }
  }

  lemma Lagrange(ax: real, ay: real, cx: real, cy: real)
    ensures Sq(ax * cx + ay * cy) + Sq(ax * cy - ay * cx) == (Sq(ax) + Sq(ay)) * (Sq(cx) + Sq(cy))
  {
  }

  /** Two vectors inside discs of radius `r` and `s` have inner product at most `r * s`. */
  lemma CauchySchwarz(ax: real, ay: real, cx: real, cy: real, r: real, s: real)
    requires r >= 0.0 && s >= 0.0
    requires Sq(ax) + Sq(ay) <= Sq(r)
    requires Sq(cx) + Sq(cy) <= Sq(s)
    ensures ax * cx + ay * cy <= r * s
  {
    var na, nb, rr, ss, rs := Sq(ax) + Sq(ay), Sq(cx) + Sq(cy), Sq(r), Sq(s), r * s;
    var dot, cross := ax * cx + ay * cy, ax * cy - ay * cx;
    assert Sq(dot) + Sq(cross) == na * nb by { Lagrange(ax, ay, cx, cy); }
    assert rr * ss == Sq(rs);
    MulNonneg(r, s);
    hide *;
    ProductLe(na, rr, nb, ss);
    SquareLe(dot, rs);
  }

  /** A mix of two vectors with nonnegative weights is as short as the same mix of their bounds. */
  lemma DiscConvex(ax: real, ay: real, cx: real, cy: real, r: real, s: real, w: real, u: real)
    requires r >= 0.0 && s >= 0.0 && w >= 0.0 && u >= 0.0
    requires Sq(ax) + Sq(ay) <= Sq(r)
    requires Sq(cx) + Sq(cy) <= Sq(s)
    ensures Mix(w, r, u, s) >= 0.0
    ensures Sq(Mix(w, ax, u, cx)) + Sq(Mix(w, ay, u, cy)) <= Sq(Mix(w, r, u, s))
  {
    CauchySchwarz(ax, ay, cx, cy, r, s);
    MulNonneg(w, u);
    MulNonneg(w, r);
    MulNonneg(u, s);
    var na, nb, dot := Sq(ax) + Sq(ay), Sq(cx) + Sq(cy), ax * cx + ay * cy;
    var ww, wu, uu, rr, rs, ss := Sq(w), 2.0 * (w * u), Sq(u), Sq(r), r * s, Sq(s);
    var norm, bound := ww * na + wu * dot + uu * nb, ww * rr + wu * rs + uu * ss;
    assert ww >= 0.0 && wu >= 0.0 && uu >= 0.0;
    assert na <= rr && dot <= rs && nb <= ss;
    assert Mix(w, r, u, s) >= 0.0;
    assert Sq(Mix(w, ax, u, cx)) + Sq(Mix(w, ay, u, cy)) == norm by {
      hide Sq, Mix;
      ExpandNorm(ax, ay, cx, cy, w, u, na, nb, dot);
    }
    assert Sq(Mix(w, r, u, s)) == bound by {
      hide Mix;
      ExpandSquare(r, s, w, u);
    }
    hide *;
    ThreeTerms(ww, na, rr, wu, dot, rs, uu, nb, ss);
  }

  lemma ExpandNorm(ax: real, ay: real, cx: real, cy: real, w: real, u: real, na: real, nb: real, dot: real)
    requires na == Sq(ax) + Sq(ay) && nb == Sq(cx) + Sq(cy) && dot == ax * cx + ay * cy
    ensures Sq(Mix(w, ax, u, cx)) + Sq(Mix(w, ay, u, cy)) == Sq(w) * na + (2.0 * (w * u)) * dot + Sq(u) * nb
  {
    hide Sq, Mix;
    ExpandSquare(ax, cx, w, u);
    ExpandSquare(ay, cy, w, u);
    var ww, wu, uu := Sq(w), 2.0 * (w * u), Sq(u);
    Distribute(ww, Sq(ax), Sq(ay), na);
    Distribute(wu, ax * cx, ay * cy, dot);
    Distribute(uu, Sq(cx), Sq(cy), nb);
  }

  lemma Distribute(k: real, a: real, b: real, c: real)
    requires c == a + b
    ensures k * c == k * a + k * b
  {
  }

  lemma ThreeTerms(w: real, a: real, a': real, m: real, b: real, b': real, u: real, c: real, c': real)
    requires w >= 0.0 && m >= 0.0 && u >= 0.0
    requires a <= a' && b <= b' && c <= c'
    ensures w * a + m * b + u * c <= w * a' + m * b' + u * c'
  {
    MulLe(w, a, a');
    MulLe(m, b, b');
    MulLe(u, c, c');
  }

  lemma ExpandSquare(a: real, c: real, w: real, u: real)
    ensures Sq(Mix(w, a, u, c)) == Sq(w) * Sq(a) + (2.0 * (w * u)) * (a * c) + Sq(u) * Sq(c)
  {
  }

  /** The sum of two vectors is no longer than their bounds together. */
  lemma VectorSum(ax: real, ay: real, cx: real, cy: real, r: real, s: real)
    requires r >= 0.0 && s >= 0.0 && Sq(ax) + Sq(ay) <= Sq(r) && Sq(cx) + Sq(cy) <= Sq(s)
    ensures Sq(ax + cx) + Sq(ay + cy) <= Sq(r + s)
  {
    CauchySchwarz(ax, ay, cx, cy, r, s);
    assert Sq(ax + cx) + Sq(ay + cy) == (Sq(ax) + Sq(ay)) + 2.0 * (ax * cx + ay * cy) + (Sq(cx) + Sq(cy));
    assert Sq(r + s) == Sq(r) + 2.0 * (r * s) + Sq(s);
  }

  /** Triangle inequality, in the form the filters use. */
  lemma Triangle(p: Point, q: Point, c: Point, r: real, s: real)
    requires Within(p, c, r) && Within(c, q, s)
    ensures Within(p, q, r + s)
  {
    VectorSum(p.x - c.x, p.y - c.y, c.x - q.x, c.y - q.y, r, s);
  }
}
