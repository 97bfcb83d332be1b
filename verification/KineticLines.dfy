/** Values that change linearly in time, and where two of them cross. */
module KineticLines {
  import opened Geometry

  /** Value `p` at time `s`, changing at rate `v`. */
  datatype Line = Line(p: real, v: real, s: real) {
    function At(t: real): real { p + Travel(v, t - s) }
  }

  function Gap(a: Line, b: Line, t: real): real { a.At(t) - b.At(t) }

  /** The code's crossing time, from the values extrapolated to time 0. */
  function Cross(a: Line, b: Line): real
    requires a.v != b.v
  {
    (a.At(0.0) - b.At(0.0)) / (b.v - a.v)
  }

  lemma TravelSign(w: real, dt: real)
    ensures w >= 0.0 && dt >= 0.0 ==> Travel(w, dt) >= 0.0
    ensures w <= 0.0 && dt >= 0.0 ==> Travel(w, dt) <= 0.0
    ensures w > 0.0 && dt > 0.0 ==> Travel(w, dt) > 0.0
    ensures w < 0.0 && dt > 0.0 ==> Travel(w, dt) < 0.0
    ensures w >= 0.0 && dt <= 0.0 ==> Travel(w, dt) <= 0.0
    ensures w <= 0.0 && dt <= 0.0 ==> Travel(w, dt) >= 0.0
    ensures w > 0.0 && dt < 0.0 ==> Travel(w, dt) < 0.0
    ensures w < 0.0 && dt < 0.0 ==> Travel(w, dt) > 0.0
    ensures dt == 0.0 ==> Travel(w, dt) == 0.0
  {
    if w > 0.0 && dt > 0.0 { MulPos(w, dt); }
    if w < 0.0 && dt > 0.0 { MulPos(-w, dt); }
    if w > 0.0 && dt < 0.0 { MulPos(w, -dt); }
    if w < 0.0 && dt < 0.0 { MulPos(-w, -dt); }
  }

  lemma LineMoves(a: Line, t: real, u: real)
    ensures a.At(u) - a.At(t) == Travel(a.v, u - t)
  {
    var x, y, d := u - a.s, t - a.s, u - t;
    hide Travel;
    TravelSplit(a.v, x, y, d);
  }

  lemma GapMoves(a: Line, b: Line, t: real, u: real)
    ensures Gap(a, b, u) - Gap(a, b, t) == Travel(a.v - b.v, u - t)
  {
    var w, d := a.v - b.v, u - t;
    hide Travel, Line.At;
    LineMoves(a, t, u);
    LineMoves(b, t, u);
    RateSplit(a.v, b.v, w, d);
  }

  lemma CrossTravel(z: real, a: Line, b: Line)
    requires a.v != b.v && z == 0.0
    ensures Travel(a.v - b.v, Cross(a, b) - z) == -Gap(a, b, z)
  {
    var g, w, c := Gap(a, b, z), b.v - a.v, Cross(a, b);
    assert c == g / w;
    assert c * w == g;
    var w' := a.v - b.v;
    assert w' * c == -g;
  }

  /** The gap closes at the crossing time and nowhere else. */
  lemma CrossIsZero(a: Line, b: Line, t: real)
    requires a.v != b.v
    ensures Gap(a, b, t) == Travel(a.v - b.v, t - Cross(a, b))
  {
    var z, c, w := 0.0, Cross(a, b), a.v - b.v;
    CrossTravel(z, a, b);
    hide Travel, Line.At, Cross, Gap;
    GapMoves(a, b, z, t);
    var tz, cz, tc := t - z, c - z, t - c;
    TravelSplit(w, tz, cz, tc);
  }

  /** A line above another at both ends of an interval is above it throughout. */
  lemma AboveBetween(a: Line, b: Line, t0: real, t: real, t1: real)
    requires t0 <= t <= t1 && Gap(a, b, t0) >= 0.0 && Gap(a, b, t1) >= 0.0
    ensures Gap(a, b, t) >= 0.0
  {
    var w := a.v - b.v;
    hide Gap, Travel;
    GapMoves(a, b, t0, t);
    GapMoves(a, b, t, t1);
    TravelSign(w, t - t0);
    TravelSign(w, t1 - t);
  }

  /** Below at the start and not above at the end: below until the end. */
  lemma BelowBetween(a: Line, b: Line, t0: real, t: real, t1: real)
    requires t0 <= t < t1 && Gap(a, b, t0) < 0.0 && Gap(a, b, t1) <= 0.0
    ensures Gap(a, b, t) < 0.0
  {
    var w := a.v - b.v;
    hide Gap, Travel;
    GapMoves(a, b, t0, t);
    GapMoves(a, b, t, t1);
    TravelSign(w, t - t0);
    TravelSign(w, t1 - t);
  }

  /** From below to above: the crossing splits the interval. */
  lemma Rises(a: Line, b: Line, t0: real, t1: real)
    requires t0 <= t1 && Gap(a, b, t0) < 0.0 && Gap(a, b, t1) >= 0.0
    ensures a.v > b.v && t0 < Cross(a, b) <= t1 && (Gap(a, b, t1) > 0.0 ==> Cross(a, b) < t1)
    ensures Gap(a, b, Cross(a, b)) == 0.0
    ensures forall t :: Gap(a, b, t) >= 0.0 <==> t >= Cross(a, b)
  {
    var w := a.v - b.v;
    hide Gap, Travel, Cross;
    GapMoves(a, b, t0, t1);
    TravelSign(w, t1 - t0);
    var c := Cross(a, b);
    forall t
      ensures Gap(a, b, t) >= 0.0 <==> t >= c
    {
      CrossIsZero(a, b, t);
      TravelSign(w, t - c);
    }
    CrossIsZero(a, b, c);
    TravelSign(w, c - c);
    CrossIsZero(a, b, t1);
    TravelSign(w, t1 - c);
  }

  /** From above to below: the same, the other way round. */
  lemma Falls(a: Line, b: Line, t0: real, t1: real)
    requires t0 <= t1 && Gap(a, b, t0) >= 0.0 && Gap(a, b, t1) < 0.0
    ensures a.v < b.v && t0 <= Cross(a, b) < t1 && (Gap(a, b, t0) > 0.0 ==> t0 < Cross(a, b))
    ensures Gap(a, b, Cross(a, b)) == 0.0
    ensures forall t :: Gap(a, b, t) >= 0.0 <==> t <= Cross(a, b)
  {
    var w := a.v - b.v;
    hide Gap, Travel, Cross;
    GapMoves(a, b, t0, t1);
    TravelSign(w, t1 - t0);
    var c := Cross(a, b);
    forall t
      ensures Gap(a, b, t) >= 0.0 <==> t <= c
    {
      CrossIsZero(a, b, t);
      TravelSign(w, t - c);
    }
    CrossIsZero(a, b, c);
    TravelSign(w, c - c);
    CrossIsZero(a, b, t0);
    TravelSign(w, t0 - c);
  }
}
