/** The one numeric test of the cylinder filter: does a quadratic reach zero or below on a
    closed range? The code tries both ends and the vertex. */
module Quadratics {
  import opened Geometry

  function Quad(a: real, b: real, c: real, t: real): real {
    a * t * t + b * t + c
  }

  /** A zero leading coefficient makes the vertex infinite or undefined, so the vertex test fails. */
  predicate Below0(a: real, b: real, c: real, ts: real, te: real) {
    if ts > te then false
    else if Quad(a, b, c, ts) <= 0.0 || Quad(a, b, c, te) <= 0.0 then true
    else if a == 0.0 then false
    else
      var m := -b / 2.0 / a;
      ts < m < te && Quad(a, b, c, m) <= 0.0
  }

  lemma QuadDifference(a: real, b: real, c: real, s: real, t: real, d: real, g: real)
    requires d == s - t && g == a * (s + t) + b
    ensures Quad(a, b, c, s) - Quad(a, b, c, t) == d * g
  {
  }

  ghost predicate IsVertex(a: real, b: real, m: real) { 2.0 * a * m == -b }

  /** Distance from the vertex measures the value, whatever the sign of `a`. */
  lemma QuadAtVertex(a: real, b: real, c: real, m: real, t: real)
    requires IsVertex(a, b, m)
    ensures Quad(a, b, c, t) == Quad(a, b, c, m) + a * Sq(t - m)
  {
    assert b * t == -2.0 * (a * m) * t && b * m == -2.0 * (a * m) * m;
  }

  lemma VertexOf(a: real, b: real)
    requires a != 0.0
    ensures IsVertex(a, b, -b / 2.0 / a)
  {
    var h := -b / 2.0;
    var m := h / a;
    assert m * a == h;
  }

  lemma Sign(p: real, q: real)
    requires p * q > 0.0
    ensures p > 0.0 ==> q > 0.0
    ensures p < 0.0 ==> q < 0.0
  {
    if p > 0.0 && q <= 0.0 { MulNonneg(p, -q); }
    if p < 0.0 && q >= 0.0 { MulNonneg(-p, q); }
  }

  /** A dip between two positive ends bends upward. */
  lemma BendsUp(a: real, b: real, c: real, ts: real, te: real, t: real)
    requires ts <= t <= te
    requires Quad(a, b, c, ts) > 0.0 && Quad(a, b, c, te) > 0.0 && Quad(a, b, c, t) <= 0.0
    ensures a > 0.0 && a * (ts + t) + b < 0.0 && a * (te + t) + b > 0.0
  {
    var g, h, d := a * (ts + t) + b, a * (te + t) + b, te - ts;
    QuadDifference(a, b, c, ts, t, ts - t, g);
    QuadDifference(a, b, c, te, t, te - t, h);
    hide Quad;
    Sign(ts - t, g);
    Sign(te - t, h);
    assert d * a == h - g;
    Sign(d, a);
  }

  lemma VertexInside(a: real, b: real, ts: real, te: real, t: real, m: real)
    requires a > 0.0 && IsVertex(a, b, m) && ts <= t <= te
    requires a * (ts + t) + b < 0.0 && a * (te + t) + b > 0.0
    ensures ts < m < te
  {
    var p, q := 2.0 * m - (ts + t), (te + t) - 2.0 * m;
    assert a * p == -(a * (ts + t) + b);
    assert a * q == a * (te + t) + b;
    Sign(a, p);
    Sign(a, q);
  }

  lemma BetweenPositiveEnds(a: real, b: real, c: real, ts: real, te: real, t: real)
    requires ts <= t <= te
    requires Quad(a, b, c, ts) > 0.0 && Quad(a, b, c, te) > 0.0 && Quad(a, b, c, t) <= 0.0
    ensures a > 0.0
    ensures ts < -b / 2.0 / a < te && Quad(a, b, c, -b / 2.0 / a) <= 0.0
  {
    hide Quad, IsVertex, Sq;
    BendsUp(a, b, c, ts, te, t);
    VertexOf(a, b);
    var m := -b / 2.0 / a;
    VertexInside(a, b, ts, te, t, m);
    QuadAtVertex(a, b, c, m, t);
    MulNonneg(a, Sq(t - m));
  }

  /** The ends-and-vertex test is exact: it holds iff some instant of the closed range works. */
  lemma Below0Exact(a: real, b: real, c: real, ts: real, te: real)
    ensures Below0(a, b, c, ts, te) <==> exists t :: ts <= t <= te && Quad(a, b, c, t) <= 0.0
  {
    if Below0(a, b, c, ts, te) {
      if Quad(a, b, c, ts) <= 0.0 {
        assert ts <= ts <= te;
      } else if Quad(a, b, c, te) <= 0.0 {
        assert ts <= te <= te;
      } else {
        var m := -b / 2.0 / a;
        assert ts <= m <= te;
      }
    }
    if t :| ts <= t <= te && Quad(a, b, c, t) <= 0.0 {
      if Quad(a, b, c, ts) > 0.0 && Quad(a, b, c, te) > 0.0 {
        BetweenPositiveEnds(a, b, c, ts, te, t);
      }
    }
  }
}
