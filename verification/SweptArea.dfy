/** The area swept by a moving box, as the exact integral of its extent over time. */
module SweptArea {
  import opened Geometry
  import opened KineticLines
  import opened MovingRegions
  import opened Wrappers

  function Cube(h: real): real { h * h * h }

  function Fourth(h: real): real { h * h * h * h }

  /** Integrals of h, h^2 and h^3. */
  function Half(h: real): real { Sq(h) / 2.0 }

  function Third(h: real): real { Cube(h) / 3.0 }

  function Quarter(h: real): real { Fourth(h) / 4.0 }

  // ----- the formulas, for extents x growing at rates v over a time h

  function Area1(h: real, x1: real, v1: real): real {
    h * x1 + h * h * v1 / 2.0
  }

  function Area2(h: real, x1: real, v1: real, x2: real, v2: real): real {
    h * x1 * x2 + h * h * (x1 * v2 + v1 * x2) / 2.0 + h * h * h * v1 * v2 / 3.0
  }

  function Area3(h: real, x1: real, v1: real, x2: real, v2: real, x3: real, v3: real): real {
    h * x1 * x2 * x3 + h * h * (x1 * x2 * v3 + (x1 * v2 + v1 * x2) * x3) / 2.0
    + h * h * h * ((x1 * v2 + v1 * x2) * v3 + v1 * v2 * x3) / 3.0 + h * h * h * h * v1 * v2 * v3 / 4.0
  }

  /** Antiderivative of the cubic with these coefficients. */
  function Integral(c0: real, c1: real, c2: real, c3: real, h: real): real {
    Travel(c0, h) + Travel(c1, Half(h)) + Travel(c2, Third(h)) + Travel(c3, Quarter(h))
  }

  lemma Order1(h: real, c: real)
    ensures h * c == Travel(c, h)
  {
  }

  lemma Order2(h: real, c: real)
    ensures h * h * c / 2.0 == Travel(c, Half(h))
  {
  }

  lemma Order3(h: real, c: real)
    ensures h * h * h * c / 3.0 == Travel(c, Third(h))
  {
  }

  lemma Order4(h: real, c: real)
    ensures h * h * h * h * c / 4.0 == Travel(c, Quarter(h))
  {
  }

  lemma NoTerm(z: real, w: real)
    requires z == 0.0
    ensures Travel(z, w) == 0.0
  {
  }

  lemma Area1IsIntegral(h: real, x1: real, v1: real, z: real)
    requires z == 0.0
    ensures Area1(h, x1, v1) == Integral(x1, v1, z, z, h)
  {
    Order1(h, x1);
    Order2(h, v1);
    hide Travel;
    NoTerm(z, Third(h));
    NoTerm(z, Quarter(h));
  }

  lemma Area2IsIntegral(h: real, x1: real, v1: real, x2: real, v2: real, z: real)
    requires z == 0.0
    ensures Area2(h, x1, v1, x2, v2) == Integral(x1 * x2, x1 * v2 + v1 * x2, v1 * v2, z, h)
  {
    var c0, c1, c2, h3 := x1 * x2, x1 * v2 + v1 * x2, v1 * v2, h * h * h;
    Order1(h, c0);
    Order2(h, c1);
    Order3(h, c2);
    Regroup2(h, x1, x2, c0);
    Regroup2(h3, v1, v2, c2);
    hide Travel;
    NoTerm(z, Quarter(h));
  }

  lemma Regroup2(h: real, a: real, b: real, ab: real)
    requires ab == a * b
    ensures h * a * b == h * ab
  {
  }

  lemma Regroup3(h: real, a: real, b: real, c: real, ab: real, abc: real)
    requires ab == a * b && abc == ab * c
    ensures h * a * b * c == h * abc
  {
    Regroup2(h, a, b, ab);
    Regroup2(h, ab, c, abc);
  }

  lemma Area3IsIntegral(h: real, x1: real, v1: real, x2: real, v2: real, x3: real, v3: real, a0: real, a1: real,
                        a2: real)
    requires a0 == x1 * x2 && a1 == x1 * v2 + v1 * x2 && a2 == v1 * v2
    ensures Area3(h, x1, v1, x2, v2, x3, v3) == Integral(a0 * x3, a0 * v3 + a1 * x3, a1 * v3 + a2 * x3, a2 * v3, h)
  {
    var c0, c1, c2, c3, h4 := a0 * x3, a0 * v3 + a1 * x3, a1 * v3 + a2 * x3, a2 * v3, h * h * h * h;
    Order1(h, c0);
    Order2(h, c1);
    Order3(h, c2);
    Order4(h, c3);
    Regroup3(h, x1, x2, x3, a0, c0);
    Regroup3(h4, v1, v2, v3, a2, c3);
    hide Travel;
  }

  // ----- splitting the time

  lemma SplitSquare(d: real, e: real)
    ensures Sq(d + e) / 2.0 == Sq(d) / 2.0 + d * e + Sq(e) / 2.0
  {
  }

  lemma SplitCube(d: real, e: real)
    ensures Cube(d + e) / 3.0 == Cube(d) / 3.0 + Sq(d) * e + 2.0 * d * (Sq(e) / 2.0) + Cube(e) / 3.0
  {
  }

  lemma SplitFourth(d: real, e: real)
    ensures Fourth(d + e) / 4.0 == Fourth(d) / 4.0 + Cube(d) * e + 3.0 * Sq(d) * (Sq(e) / 2.0)
            + 3.0 * d * (Cube(e) / 3.0) + Fourth(e) / 4.0
  {
  }

  lemma Times3(c: real, a: real, b: real, d: real, e: real)
    requires e == a + b + d
    ensures c * e == c * a + c * b + c * d
  {
  }

  lemma Times4(c: real, a: real, b: real, d: real, f: real, e: real)
    requires e == a + b + d + f
    ensures c * e == c * a + c * b + c * d + c * f
  {
  }

  lemma Times5(c: real, a: real, b: real, d: real, f: real, g: real, e: real)
    requires e == a + b + d + f + g
    ensures c * e == c * a + c * b + c * d + c * f + c * g
  {
  }

  lemma SquareTerm(c: real, d: real, e: real, de: real, cd: real)
    requires de == d + e && cd == c * d
    ensures Travel(c, Half(de)) == Travel(c, Half(d)) + Travel(cd, e) + Travel(c, Half(e))
  {
    SplitSquare(d, e);
    hide Sq;
    Times3(c, Half(d), d * e, Half(e), Half(de));
  }

  lemma CubeTerm(c: real, d: real, e: real, de: real, cd: real, cs: real)
    requires de == d + e && cd == 2.0 * c * d && cs == c * Sq(d)
    ensures Travel(c, Third(de)) == Travel(c, Third(d)) + Travel(cs, e) + Travel(cd, Half(e)) + Travel(c, Third(e))
  {
    SplitCube(d, e);
    hide Sq, Cube;
    var h, s := Half(e), Sq(d);
    Times4(c, Third(d), s * e, 2.0 * d * h, Third(e), Third(de));
    assert c * (2.0 * d * h) == cd * h;
  }

  lemma FourthTerm(c: real, d: real, e: real, de: real, cd: real, cs: real, ck: real)
    requires de == d + e && cd == 3.0 * c * d && cs == 3.0 * c * Sq(d) && ck == c * Cube(d)
    ensures Travel(c, Quarter(de)) == Travel(c, Quarter(d)) + Travel(ck, e) + Travel(cs, Half(e))
            + Travel(cd, Third(e)) + Travel(c, Quarter(e))
  {
    SplitFourth(d, e);
    hide Sq, Cube, Fourth;
    var h, k, s, q := Half(e), Third(e), Sq(d), Cube(d);
    Times5(c, Quarter(d), q * e, 3.0 * s * h, 3.0 * d * k, Quarter(e), Quarter(de));
    assert c * (3.0 * s * h) == cs * h;
    assert c * (3.0 * d * k) == cd * k;
    assert c * (q * e) == ck * e;
  }

  lemma TravelSum(a: real, b: real, c: real, d: real, u: real, h: real)
    requires u == a + b + c + d
    ensures Travel(u, h) == Travel(a, h) + Travel(b, h) + Travel(c, h) + Travel(d, h)
  {
  }

  /** Integrating on to `d + e` is integrating to `d` and then the polynomial moved by `d` to `e`. */
  lemma IntegralSplit(c0: real, c1: real, c2: real, c3: real, d: real, e: real, de: real, b0: real, b1: real, b2: real)
    requires de == d + e
    requires b0 == c0 + c1 * d + c2 * Sq(d) + c3 * Cube(d)
    requires b1 == c1 + 2.0 * c2 * d + 3.0 * c3 * Sq(d)
    requires b2 == c2 + 3.0 * c3 * d
    ensures Integral(c0, c1, c2, c3, de) == Integral(c0, c1, c2, c3, d) + Integral(b0, b1, b2, c3, e)
  {
    var z, m1, m2, m2', m3, m3', m3'' := 0.0, c1 * d, 2.0 * c2 * d, c2 * Sq(d), 3.0 * c3 * d, 3.0 * c3 * Sq(d),
        c3 * Cube(d);
    SquareTerm(c1, d, e, de, m1);
    CubeTerm(c2, d, e, de, m2, m2');
    FourthTerm(c3, d, e, de, m3, m3', m3'');
    NoTerm(z, e);
    hide Sq, Cube, Fourth, Travel, Half, Third, Quarter;
    TravelSum(c0, m1, m2', m3'', b0, e);
    TravelSum(c1, m2, m3', z, b1, Half(e));
    TravelSum(c2, m3, z, z, b2, Third(e));
    TravelSplit(c0, de, d, e);
    NoTerm(z, Half(e));
    NoTerm(z, Third(e));
  }

  /** The product of two moving extents, moved by `d`. */
  lemma Move2(x1: real, v1: real, x2: real, v2: real, d: real, y1: real, y2: real, a0: real, a1: real, a2: real)
    requires y1 == x1 + v1 * d && y2 == x2 + v2 * d
    requires a0 == x1 * x2 && a1 == x1 * v2 + v1 * x2 && a2 == v1 * v2
    ensures y1 * y2 == a0 + a1 * d + a2 * Sq(d)
    ensures y1 * v2 + v1 * y2 == a1 + 2.0 * a2 * d
  {
  }

  /** A quadratic times a moving extent, moved by `d`. */
  lemma Move3(a0: real, a1: real, a2: real, x3: real, v3: real, d: real, b0: real, b1: real, y3: real,
              c0: real, c1: real, c2: real, c3: real)
    requires b0 == a0 + a1 * d + a2 * Sq(d) && b1 == a1 + 2.0 * a2 * d && y3 == x3 + v3 * d
    requires c0 == a0 * x3 && c1 == a0 * v3 + a1 * x3 && c2 == a1 * v3 + a2 * x3 && c3 == a2 * v3
    ensures b0 * y3 == c0 + c1 * d + c2 * Sq(d) + c3 * Cube(d)
    ensures b0 * v3 + b1 * y3 == c1 + 2.0 * c2 * d + 3.0 * c3 * Sq(d)
    ensures b1 * v3 + a2 * y3 == c2 + 3.0 * c3 * d
  {
  }

  lemma QuadraticSplit(c0: real, c1: real, c2: real, z: real, d: real, e: real, b0: real, b1: real)
    requires z == 0.0 && b0 == c0 + c1 * d + c2 * Sq(d) && b1 == c1 + 2.0 * c2 * d
    ensures Integral(c0, c1, c2, z, d + e) == Integral(c0, c1, c2, z, d) + Integral(b0, b1, c2, z, e)
  {
    assert z * Cube(d) == 0.0 && 3.0 * z * Sq(d) == 0.0 && 3.0 * z * d == 0.0;
    hide Integral, Sq, Cube;
    IntegralSplit(c0, c1, c2, z, d, e, d + e, b0, b1, c2);
  }

  /** The area over a time is the sum of the areas over its parts, the later part starting from the extents
      reached by then. */
  lemma Area1Splits(d: real, e: real, x1: real, v1: real, y1: real)
    requires y1 == x1 + v1 * d
    ensures Area1(d + e, x1, v1) == Area1(d, x1, v1) + Area1(e, y1, v1)
  {
    var z := 0.0;
    Area1IsIntegral(d + e, x1, v1, z);
    Area1IsIntegral(d, x1, v1, z);
    Area1IsIntegral(e, y1, v1, z);
    assert z * Sq(d) == 0.0 && 2.0 * z * d == 0.0;
    hide Area1, Integral, Sq, Cube;
    QuadraticSplit(x1, v1, z, z, d, e, y1, v1);
  }

  lemma Area2Splits(d: real, e: real, x1: real, v1: real, x2: real, v2: real, y1: real, y2: real)
    requires y1 == x1 + v1 * d && y2 == x2 + v2 * d
    ensures Area2(d + e, x1, v1, x2, v2) == Area2(d, x1, v1, x2, v2) + Area2(e, y1, v1, y2, v2)
  {
    var z, a0, a1, a2, b0, b1 := 0.0, x1 * x2, x1 * v2 + v1 * x2, v1 * v2, y1 * y2, y1 * v2 + v1 * y2;
    Area2IsIntegral(d + e, x1, v1, x2, v2, z);
    Area2IsIntegral(d, x1, v1, x2, v2, z);
    Area2IsIntegral(e, y1, v1, y2, v2, z);
    hide Area2, Integral, Sq, Cube;
    Move2(x1, v1, x2, v2, d, y1, y2, a0, a1, a2);
    QuadraticSplit(a0, a1, a2, z, d, e, b0, b1);
  }

  lemma Area3Splits(d: real, e: real, x1: real, v1: real, x2: real, v2: real, x3: real, v3: real, y1: real, y2: real,
                    y3: real)
    requires y1 == x1 + v1 * d && y2 == x2 + v2 * d && y3 == x3 + v3 * d
    ensures Area3(d + e, x1, v1, x2, v2, x3, v3) == Area3(d, x1, v1, x2, v2, x3, v3) + Area3(e, y1, v1, y2, v2, y3, v3)
  {
    var a0, a1, a2 := x1 * x2, x1 * v2 + v1 * x2, v1 * v2;
    var b0, b1 := y1 * y2, y1 * v2 + v1 * y2;
    Area3IsIntegral(d + e, x1, v1, x2, v2, x3, v3, a0, a1, a2);
    Area3IsIntegral(d, x1, v1, x2, v2, x3, v3, a0, a1, a2);
    Area3IsIntegral(e, y1, v1, y2, v2, y3, v3, b0, b1, a2);
    hide Area3, Integral, Sq, Cube;
    Move2(x1, v1, x2, v2, d, y1, y2, a0, a1, a2);
    var c0, c1, c2, c3 := a0 * x3, a0 * v3 + a1 * x3, a1 * v3 + a2 * x3, a2 * v3;
    Move3(a0, a1, a2, x3, v3, d, b0, b1, y3, c0, c1, c2, c3);
    IntegralSplit(c0, c1, c2, c3, d, e, d + e, b0 * y3, b0 * v3 + b1 * y3, b1 * v3 + a2 * y3);
  }

  // ----- the formulas as averages, and the bounds that follow

  lemma Area1IsAverage(h: real, a: real, v1: real, a': real)
    requires a' == a + v1 * h
    ensures 2.0 * Area1(h, a, v1) == Travel(h, a + a')
  {
    var p := v1 * h;
    assert h * h * v1 == h * p;
  }

  lemma Area2IsAverage(h: real, a: real, v1: real, b: real, v2: real, a': real, b': real)
    requires a' == a + v1 * h && b' == b + v2 * h
    ensures 6.0 * Area2(h, a, v1, b, v2) == Travel(h, 2.0 * (a * b) + a * b' + a' * b + 2.0 * (a' * b'))
  {
    var p, q := v1 * h, v2 * h;
    assert h * h * (a * v2 + v1 * b) == h * (a * q + p * b);
    assert h * h * h * v1 * v2 == h * (p * q);
    assert h * a * b == h * (a * b);
    var s := 6.0 * (a * b) + 3.0 * (a * q + p * b) + 2.0 * (p * q);
    assert s == 2.0 * (a * b) + a * b' + a' * b + 2.0 * (a' * b');
    Times3(h, 6.0 * (a * b), 3.0 * (a * q + p * b), 2.0 * (p * q), s);
  }

  function Corners(a: real, b: real, c: real, a': real, b': real, c': real): real {
    3.0 * (a * b * c) + a * b * c' + a * b' * c + a' * b * c + a' * b' * c + a' * b * c' + a * b' * c'
        + 3.0 * (a' * b' * c')
  }

  lemma CornersExpand(a: real, b: real, c: real, p: real, q: real, r: real)
    ensures Corners(a, b, c, a + p, b + q, c + r)
         == 12.0 * (a * b * c) + 6.0 * (a * b * r + (a * q + p * b) * c) + 4.0 * ((a * q + p * b) * r + p * q * c)
             + 3.0 * (p * q * r)
  {
  }

  lemma Area3IsAverage(h: real, a: real, v1: real, b: real, v2: real, c: real, v3: real, a': real, b': real, c': real)
    requires a' == a + v1 * h && b' == b + v2 * h && c' == c + v3 * h
    ensures 12.0 * Area3(h, a, v1, b, v2, c, v3) == Travel(h, Corners(a, b, c, a', b', c'))
  {
    var p, q, r := v1 * h, v2 * h, v3 * h;
    var t1, t2, t3, t4 := a * b * c, a * b * r + (a * q + p * b) * c, (a * q + p * b) * r + p * q * c, p * q * r;
    assert h * a * b * c == h * t1;
    assert h * h * (a * b * v3 + (a * v2 + v1 * b) * c) == h * t2;
    assert h * h * h * ((a * v2 + v1 * b) * v3 + v1 * v2 * c) == h * t3;
    assert h * h * h * h * v1 * v2 * v3 == h * t4;
    CornersExpand(a, b, c, p, q, r);
    Times4(h, 12.0 * t1, 6.0 * t2, 4.0 * t3, 3.0 * t4, Corners(a, b, c, a', b', c'));
  }

  predicate Bounded(lo: real, a: real, a': real, hi: real) {
    0.0 <= lo <= a <= hi && lo <= a' <= hi
  }

  lemma Product3(lo1: real, a: real, hi1: real, lo2: real, b: real, hi2: real, lo3: real, c: real, hi3: real)
    requires 0.0 <= lo1 <= a <= hi1 && 0.0 <= lo2 <= b <= hi2 && 0.0 <= lo3 <= c <= hi3
    ensures lo1 * lo2 * lo3 <= a * b * c <= hi1 * hi2 * hi3
  {
    MulNonneg(lo1, lo2);
    ProductLe(lo1, a, lo2, b);
    ProductLe(a, hi1, b, hi2);
    var l, m, n := lo1 * lo2, a * b, hi1 * hi2;
    ProductLe(l, m, lo3, c);
    ProductLe(m, n, c, hi3);
  }

  lemma Scaled(h: real, lo: real, s: real, hi: real, k: real, area: real)
    requires h >= 0.0 && k > 0.0 && k * lo <= s <= k * hi && k * area == Travel(h, s)
    ensures Travel(h, lo) <= area <= Travel(h, hi)
  {
    var kl, kh := k * lo, k * hi;
    MulLe(h, kl, s);
    MulLe(h, s, kh);
    var x, y := h * lo, h * hi;
    assert h * kl == k * x && h * kh == k * y;
    if area < x { MulPos(k, x - area); TravelSplit(k, x, area, x - area); }
    if area > y { MulPos(k, area - y); TravelSplit(k, area, y, area - y); }
  }

  /** The area is between the time spent times the least and the greatest product of extents. */
  lemma Area1Between(h: real, a: real, v1: real, a': real, lo: real, hi: real)
    requires h >= 0.0 && a' == a + Travel(v1, h) && Bounded(lo, a, a', hi)
    ensures Travel(h, lo) <= Area1(h, a, v1) <= Travel(h, hi)
  {
    Area1IsAverage(h, a, v1, a');
    hide Area1, Travel;
    Scaled(h, lo, a + a', hi, 2.0, Area1(h, a, v1));
  }

  lemma PairsBetween(a: real, b: real, a': real, b': real, lo1: real, hi1: real, lo2: real, hi2: real, lo: real,
                     hi: real, s: real)
    requires Bounded(lo1, a, a', hi1) && Bounded(lo2, b, b', hi2)
    requires lo == lo1 * lo2 && hi == hi1 * hi2 && s == 2.0 * (a * b) + a * b' + a' * b + 2.0 * (a' * b')
    ensures 6.0 * lo <= s <= 6.0 * hi
  {
    ProductLe(lo1, a, lo2, b); ProductLe(a, hi1, b, hi2);
    ProductLe(lo1, a, lo2, b'); ProductLe(a, hi1, b', hi2);
    ProductLe(lo1, a', lo2, b); ProductLe(a', hi1, b, hi2);
    ProductLe(lo1, a', lo2, b'); ProductLe(a', hi1, b', hi2);
  }

  lemma Area2Between(h: real, a: real, v1: real, b: real, v2: real, a': real, b': real,
                     lo1: real, hi1: real, lo2: real, hi2: real, lo: real, hi: real)
    requires h >= 0.0 && a' == a + Travel(v1, h) && b' == b + Travel(v2, h) && Bounded(lo1, a, a', hi1)
             && Bounded(lo2, b, b', hi2)
    requires lo == lo1 * lo2 && hi == hi1 * hi2
    ensures Travel(h, lo) <= Area2(h, a, v1, b, v2) <= Travel(h, hi)
  {
    Area2IsAverage(h, a, v1, b, v2, a', b');
    var s := 2.0 * (a * b) + a * b' + a' * b + 2.0 * (a' * b');
    PairsBetween(a, b, a', b', lo1, hi1, lo2, hi2, lo, hi, s);
    var area := Area2(h, a, v1, b, v2);
    hide Area2, Travel;
    Scaled(h, lo, s, hi, 6.0, area);
  }

  lemma Area3Between(h: real, a: real, v1: real, b: real, v2: real, c: real, v3: real, a': real, b': real, c': real,
                     lo1: real, hi1: real, lo2: real, hi2: real, lo3: real, hi3: real, lo: real, hi: real)
    requires h >= 0.0 && a' == a + Travel(v1, h) && b' == b + Travel(v2, h) && c' == c + Travel(v3, h)
    requires Bounded(lo1, a, a', hi1) && Bounded(lo2, b, b', hi2) && Bounded(lo3, c, c', hi3)
    requires lo == lo1 * lo2 * lo3 && hi == hi1 * hi2 * hi3
    ensures Travel(h, lo) <= Area3(h, a, v1, b, v2, c, v3) <= Travel(h, hi)
  {
    Area3IsAverage(h, a, v1, b, v2, c, v3, a', b', c');
    hide Area3, Corners, Travel, Bounded;
    CornersBetween(a, b, c, a', b', c', lo1, hi1, lo2, hi2, lo3, hi3, lo, hi);
    Scaled(h, lo, Corners(a, b, c, a', b', c'), hi, 12.0, Area3(h, a, v1, b, v2, c, v3));
  }

  lemma CornersBetween(a: real, b: real, c: real, a': real, b': real, c': real,
                       lo1: real, hi1: real, lo2: real, hi2: real, lo3: real, hi3: real, lo: real, hi: real)
    requires Bounded(lo1, a, a', hi1) && Bounded(lo2, b, b', hi2) && Bounded(lo3, c, c', hi3)
    requires lo == lo1 * lo2 * lo3 && hi == hi1 * hi2 * hi3
    ensures 12.0 * lo <= Corners(a, b, c, a', b', c') <= 12.0 * hi
  {
    Product3(lo1, a, hi1, lo2, b, hi2, lo3, c, hi3);
    Product3(lo1, a, hi1, lo2, b, hi2, lo3, c', hi3);
    Product3(lo1, a, hi1, lo2, b', hi2, lo3, c, hi3);
    Product3(lo1, a', hi1, lo2, b, hi2, lo3, c, hi3);
    Product3(lo1, a', hi1, lo2, b', hi2, lo3, c, hi3);
    Product3(lo1, a', hi1, lo2, b, hi2, lo3, c', hi3);
    Product3(lo1, a, hi1, lo2, b', hi2, lo3, c', hi3);
    Product3(lo1, a', hi1, lo2, b', hi2, lo3, c', hi3);
  }

  // ----- areas of moving boxes

  function Extent(m: MovingRegion, d: nat, t: real): real
    requires d < |m.low| && d < |m.high| && d < |m.vlow| && d < |m.vhigh|
  {
    m.HighLine(d).At(t) - m.LowLine(d).At(t)
  }

  function Rate(m: MovingRegion, d: nat): real
    requires d < |m.vlow| && d < |m.vhigh|
  {
    m.vhigh[d] - m.vlow[d]
  }

  /** The swept area from `t0` to `t1`, for one to three dimensions. */
  function Swept(m: MovingRegion, t0: real, t1: real): real
    requires m.Shaped() && 1 <= |m.low| <= 3
  {
    if |m.low| == 3 then
      Area3(t1 - t0, Extent(m, 0, t0), Rate(m, 0), Extent(m, 1, t0), Rate(m, 1), Extent(m, 2, t0), Rate(m, 2))
    else if |m.low| == 2 then
      Area2(t1 - t0, Extent(m, 0, t0), Rate(m, 0), Extent(m, 1, t0), Rate(m, 1))
    else
      Area1(t1 - t0, Extent(m, 0, t0), Rate(m, 0))
  }

  lemma ExtentMoves(m: MovingRegion, d: nat, t0: real, t1: real, h: real)
    requires m.Shaped() && d < |m.low| && h == t1 - t0
    ensures Extent(m, d, t1) == Extent(m, d, t0) + Travel(Rate(m, d), h)
  {
    GapMoves(m.HighLine(d), m.LowLine(d), t0, t1);
  }

  /** Sweeping on is adding the area of the later part. */
  lemma SweptSplits(m: MovingRegion, t0: real, t1: real, t2: real)
    requires m.Shaped() && 1 <= |m.low| <= 3
    ensures Swept(m, t0, t2) == Swept(m, t0, t1) + Swept(m, t1, t2)
  {
    var d, e := t1 - t0, t2 - t1;
    assert t2 - t0 == d + e;
    ExtentMoves(m, 0, t0, t1, d);
    if |m.low| >= 2 { ExtentMoves(m, 1, t0, t1, d); }
    if |m.low| >= 3 { ExtentMoves(m, 2, t0, t1, d); }
    hide Extent, Rate, Area1, Area2, Area3;
    var x1, v1, y1 := Extent(m, 0, t0), Rate(m, 0), Extent(m, 0, t1);
    if |m.low| == 1 {
      Area1Splits(d, e, x1, v1, y1);
    } else {
      var x2, v2, y2 := Extent(m, 1, t0), Rate(m, 1), Extent(m, 1, t1);
      if |m.low| == 2 {
        Area2Splits(d, e, x1, v1, x2, v2, y1, y2);
      } else {
        Area3Splits(d, e, x1, v1, x2, v2, Extent(m, 2, t0), Rate(m, 2), y1, y2, Extent(m, 2, t1));
      }
    }
  }

  function Volume(sides: seq<real>): real
    requires 1 <= |sides| <= 3
  {
    if |sides| == 1 then sides[0] else if |sides| == 2 then sides[0] * sides[1] else sides[0] * sides[1] * sides[2]
  }

  /** Together with `SweptSplits` this makes the area the integral of the volume over time: on every part of
      the time it is between the length of the part times the least and the greatest volume there. */
  lemma SweptBetween(m: MovingRegion, t0: real, t1: real, lo: seq<real>, hi: seq<real>)
    requires m.Shaped() && 1 <= |m.low| == |lo| == |hi| <= 3 && t0 <= t1
    requires forall d :: 0 <= d < |lo| ==> Bounded(lo[d], Extent(m, d, t0), Extent(m, d, t1), hi[d])
    ensures Travel(t1 - t0, Volume(lo)) <= Swept(m, t0, t1) <= Travel(t1 - t0, Volume(hi))
  {
    hide Swept, Travel, Volume;
    if |m.low| == 1 { SweptBetween1(m, t0, t1, lo, hi); }
    else if |m.low| == 2 { SweptBetween2(m, t0, t1, lo, hi); }
    else { SweptBetween3(m, t0, t1, lo, hi); }
  }

  lemma SweptBetween1(m: MovingRegion, t0: real, t1: real, lo: seq<real>, hi: seq<real>)
    requires m.Shaped() && 1 == |m.low| == |lo| == |hi| && t0 <= t1
    requires Bounded(lo[0], Extent(m, 0, t0), Extent(m, 0, t1), hi[0])
    ensures Travel(t1 - t0, Volume(lo)) <= Swept(m, t0, t1) <= Travel(t1 - t0, Volume(hi))
  {
    var h := t1 - t0;
    ExtentMoves(m, 0, t0, t1, h);
    hide Extent, Rate, Area1, Bounded, Travel;
    Area1Between(h, Extent(m, 0, t0), Rate(m, 0), Extent(m, 0, t1), lo[0], hi[0]);
  }

  lemma SweptBetween2(m: MovingRegion, t0: real, t1: real, lo: seq<real>, hi: seq<real>)
    requires m.Shaped() && 2 == |m.low| == |lo| == |hi| && t0 <= t1
    requires Bounded(lo[0], Extent(m, 0, t0), Extent(m, 0, t1), hi[0])
             && Bounded(lo[1], Extent(m, 1, t0), Extent(m, 1, t1), hi[1])
    ensures Travel(t1 - t0, Volume(lo)) <= Swept(m, t0, t1) <= Travel(t1 - t0, Volume(hi))
  {
    var h, vlo, vhi := t1 - t0, Volume(lo), Volume(hi);
    ExtentMoves(m, 0, t0, t1, h);
    ExtentMoves(m, 1, t0, t1, h);
    hide Extent, Rate, Area2, Bounded, Travel;
    assert vlo == lo[0] * lo[1] && vhi == hi[0] * hi[1];
    Area2Between(h, Extent(m, 0, t0), Rate(m, 0), Extent(m, 1, t0), Rate(m, 1), Extent(m, 0, t1), Extent(m, 1, t1),
                 lo[0], hi[0], lo[1], hi[1], vlo, vhi);
  }

  lemma SweptBetween3(m: MovingRegion, t0: real, t1: real, lo: seq<real>, hi: seq<real>)
    requires m.Shaped() && 3 == |m.low| == |lo| == |hi| && t0 <= t1
    requires Bounded(lo[0], Extent(m, 0, t0), Extent(m, 0, t1), hi[0])
             && Bounded(lo[1], Extent(m, 1, t0), Extent(m, 1, t1), hi[1])
    requires Bounded(lo[2], Extent(m, 2, t0), Extent(m, 2, t1), hi[2])
    ensures Travel(t1 - t0, Volume(lo)) <= Swept(m, t0, t1) <= Travel(t1 - t0, Volume(hi))
  {
    var h, vlo, vhi := t1 - t0, Volume(lo), Volume(hi);
    ExtentMoves(m, 0, t0, t1, h);
    ExtentMoves(m, 1, t0, t1, h);
    ExtentMoves(m, 2, t0, t1, h);
    hide Extent, Rate, Area3, Bounded, Travel;
    assert vlo == lo[0] * lo[1] * lo[2] && vhi == hi[0] * hi[1] * hi[2];
    Area3Between(h, Extent(m, 0, t0), Rate(m, 0), Extent(m, 1, t0), Rate(m, 1), Extent(m, 2, t0), Rate(m, 2),
                 Extent(m, 0, t1), Extent(m, 1, t1), Extent(m, 2, t1),
                 lo[0], hi[0], lo[1], hi[1], lo[2], hi[2], vlo, vhi);
  }

  /** The code's area over the part of the interval within the lifetime, zero if that is no longer than the machine
      epsilon; other dimensions are not supported. */
  function GetAreaInTime(m: MovingRegion, lo: real, hi: real): Option<real>
    requires m.Shaped() && Max(lo, m.start) <= Min(hi, m.end)
  {
    var tmin, tmax := Max(lo, m.start), Min(hi, m.end);
    if tmin >= tmax - MACHINE_EPSILON && tmin <= tmax + MACHINE_EPSILON then Some(0.0)
    else if 1 <= |m.low| <= 3 then Some(Swept(m, tmin, tmax))
    else None
  }

  /** What the code computes adds up over parts of the time that are longer than the machine epsilon. */
  lemma AreaAdds(m: MovingRegion, t0: real, t1: real, t2: real)
    requires m.Shaped() && 1 <= |m.low| <= 3 && m.start <= t0 && t2 <= m.end
    requires t1 - t0 > MACHINE_EPSILON && t2 - t1 > MACHINE_EPSILON
    ensures GetAreaInTime(m, t0, t1).Some? && GetAreaInTime(m, t1, t2).Some?
    ensures GetAreaInTime(m, t0, t2) == Some(GetAreaInTime(m, t0, t1).value + GetAreaInTime(m, t1, t2).value)
  {
    SweptSplits(m, t0, t1, t2);
    hide Swept;
  }

  /** ... and is always between the time spent times the least and the greatest volume, or 0 for a time no longer
      than that. */
  lemma AreaBetween(m: MovingRegion, t0: real, t1: real, lo: seq<real>, hi: seq<real>)
    requires m.Shaped() && 1 <= |m.low| == |lo| == |hi| <= 3 && m.start <= t0 <= t1 && t1 <= m.end
    requires forall d :: 0 <= d < |lo| ==> Bounded(lo[d], Extent(m, d, t0), Extent(m, d, t1), hi[d])
    ensures GetAreaInTime(m, t0, t1).Some?
    ensures t1 - t0 > 1.0 / 4503599627370496.0 ==>
              Travel(t1 - t0, Volume(lo)) <= GetAreaInTime(m, t0, t1).value <= Travel(t1 - t0, Volume(hi))
    ensures t1 - t0 <= 1.0 / 4503599627370496.0 ==> GetAreaInTime(m, t0, t1).value == 0.0
  {
    SweptBetween(m, t0, t1, lo, hi);
    hide Swept, Travel, Volume, Extent, Bounded;
  }
}
