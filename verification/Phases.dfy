/** Cutting a straight motion along the four sides of a box, so that each piece lies in one of the nine fields
    around it. */
module Phases {
  import opened Geometry
  import opened Boxes
  import opened Segmenters
  import opened Wrappers

  /** Within this distance of a side a point counts as being on it. */
  const TOUCH: real := 0.0000001

  /** A line parallel to an axis: x == value, or y == value. */
  datatype Side = Side(value: real, vertical: bool)

  datatype Line = Line(a: Point, b: Point)

  function Coord(p: Point, vertical: bool): real { if vertical then p.x else p.y }

  /** The test for not cutting: both ends on one side, or an end close to the line. */
  predicate NotCut(u: real, v: real, value: real) {
    (u < value) == (v < value) || Abs(u - value) < TOUCH || Abs(v - value) < TOUCH
  }

  /** The ends are on different sides of the line, each at least 1e-7 from it. */
  ghost predicate Crosses(u: real, v: real, value: real) {
    Min(u, v) <= value - 0.0000001 && Max(u, v) >= value + 0.0000001
  }

  /** A piece is cut exactly if it crosses the line like that. */
  lemma CutIffCrosses(u: real, v: real, value: real)
    ensures NotCut(u, v, value) <==> !Crosses(u, v, value)
  {
  }

  predicate Clear(l: Line, s: Side) { NotCut(Coord(l.a, s.vertical), Coord(l.b, s.vertical), s.value) }

  /** Where the motion crosses the line, if it must be cut there. */
  function CutByLine(l: Line, s: Side): Option<Point> {
    var u, v := Coord(l.a, s.vertical), Coord(l.b, s.vertical);
    if NotCut(u, v, s.value) then None
    else
      var d := Abs(u - v);
      var d1, d2 := Abs(u - s.value) / d, Abs(v - s.value) / d;
      var other, t := Mix(d2, Coord(l.a, !s.vertical), d1, Coord(l.b, !s.vertical)), Mix(d2, l.a.t, d1, l.b.t);
      Some(if s.vertical then Point(s.value, other, t) else Point(other, s.value, t))
  }

  /** The weights of the cut are convex, and give the cut value itself. */
  lemma CutWeights(u: real, v: real, value: real) returns (w: real, x: real)
    requires !NotCut(u, v, value)
    ensures w == Abs(v - value) / Abs(u - v) && x == Abs(u - value) / Abs(u - v)
    ensures w > 0.0 && x > 0.0 && w + x == 1.0 && Mix(w, u, x, v) == value
  {
    var d := Abs(u - v);
    w, x := Abs(v - value) / d, Abs(u - value) / d;
    assert w * d == Abs(v - value) && x * d == Abs(u - value);
    MulCancel(d, w + x, 1.0);
    if w <= 0.0 { MulNonneg(-w, d); }
    if x <= 0.0 { MulNonneg(-x, d); }
    assert x == 1.0 - w;
    assert w * u + x * v == v + w * (u - v);
    assert w * (u - v) == if u > v then w * d else -(w * d);
  }

  lemma Complement(w: real, x: real, a: real)
    requires w + x == 1.0
    ensures Travel(w, a) == a - Travel(x, a)
  {
  }

  /** A mix, seen from either end. */
  lemma MixFrom(w: real, x: real, a: real, b: real, d: real)
    requires w + x == 1.0 && d == b - a
    ensures Mix(w, a, x, b) == a + Travel(x, d) == b - Travel(w, d)
  {
    assert Mix(w, a, x, b) == Travel(w, a) + Travel(x, b);
    hide Travel, Mix;
    Complement(w, x, a);
    Complement(x, w, b);
    TravelSplit(x, b, a, d);
    TravelSplit(w, b, a, d);
  }

  /** The time of a mix determines its weights. */
  lemma MixIsMid(w: real, x: real, a: real, ta: real, b: real, tb: real)
    requires w + x == 1.0 && ta < tb
    ensures Mid(a, ta, b, tb, Mix(w, ta, x, tb)) == Mix(w, a, x, b)
  {
    var t, d := Mix(w, ta, x, tb), tb - ta;
    assert w == 1.0 - x;
    assert x * d == t - ta && w * d == tb - t;
    DivUnique(t - ta, d, x);
    DivUnique(tb - t, d, w);
  }

  /** The cut point is on the motion, strictly between the ends, and between them in both coordinates. */
  lemma CutPoint(l: Line, s: Side)
    requires l.a.t < l.b.t && !Clear(l, s)
    ensures var m := CutByLine(l, s).value;
            l.a.t < m.t < l.b.t && m == MakeMid(l.a, l.b, m.t) && Coord(m, s.vertical) == s.value
            && Min(l.a.x, l.b.x) <= m.x <= Max(l.a.x, l.b.x) && Min(l.a.y, l.b.y) <= m.y <= Max(l.a.y, l.b.y)
  {
    var u, v := Coord(l.a, s.vertical), Coord(l.b, s.vertical);
    var w, x := CutWeights(u, v, s.value);
    MixIsMid(w, x, l.a.x, l.a.t, l.b.x, l.b.t);
    MixIsMid(w, x, l.a.y, l.a.t, l.b.y, l.b.t);
    MixBetween(w, x, l.a.x, l.b.x, Min(l.a.x, l.b.x), Max(l.a.x, l.b.x));
    MixBetween(w, x, l.a.y, l.b.y, Min(l.a.y, l.b.y), Max(l.a.y, l.b.y));
    Inside(w, x, l.a.t, l.b.t);
    hide Mid, Mix;
  }

  lemma Inside(w: real, x: real, a: real, b: real)
    requires w > 0.0 && x > 0.0 && w + x == 1.0 && a < b
    ensures a < Mix(w, a, x, b) < b
  {
    var d := b - a;
    MixFrom(w, x, a, b, d);
    hide Mix;
    MulPos(x, d);
    MulPos(w, d);
  }

  /** Cutting a clear motion anywhere leaves both parts clear. */
  lemma StaysClear(u: real, v: real, m: real, value: real)
    requires NotCut(u, v, value) && Min(u, v) <= m <= Max(u, v)
    ensures NotCut(u, m, value) && NotCut(m, v, value)
  {
  }

  /** A motion crosses a line only once. */
  lemma CrossesOnce(ps: Point, pe: Point, l: Line, l': Line, s: Side)
    requires ps.t < pe.t && Stage(ps, pe, l) && Stage(ps, pe, l') && l.b.t <= l'.a.t && !Clear(l, s)
    ensures Clear(l', s)
  {
    var x, y := Coord(ps, s.vertical), Coord(pe, s.vertical);
    var m := Slope(x, ps.t, y, pe.t);
    AtTime(ps, pe, l.a, s.vertical);
    AtTime(ps, pe, l.b, s.vertical);
    AtTime(ps, pe, l'.a, s.vertical);
    AtTime(ps, pe, l'.b, s.vertical);
    hide Mid, Slope, On;
    SlopeOrder(x, m, l.a.t - ps.t, l.b.t - ps.t);
    SlopeOrder(x, m, l.b.t - ps.t, l'.a.t - ps.t);
    SlopeOrder(x, m, l'.a.t - ps.t, l'.b.t - ps.t);
  }

  lemma AtTime(ps: Point, pe: Point, p: Point, vertical: bool)
    requires ps.t < pe.t && On(ps, pe, p)
    ensures var x, y := Coord(ps, vertical), Coord(pe, vertical);
            Coord(p, vertical) == x + Travel(Slope(x, ps.t, y, pe.t), p.t - ps.t)
  {
    MidIsLinear(ps.x, ps.t, pe.x, pe.t, p.t);
    MidIsLinear(ps.y, ps.t, pe.y, pe.t, p.t);
    hide Mid, Slope;
  }

  lemma SlopeOrder(x: real, m: real, a: real, b: real)
    requires a <= b
    ensures m >= 0.0 ==> x + Travel(m, a) <= x + Travel(m, b)
    ensures m <= 0.0 ==> x + Travel(m, a) >= x + Travel(m, b)
  {
    if m >= 0.0 { MulLe(m, a, b); }
    if m <= 0.0 {
      var n := -m;
      MulLe(n, a, b);
      assert Travel(m, a) == -(n * a) && Travel(m, b) == -(n * b);
    }
  }

  /** Pieces that lead from `ps` to `pe` along the motion between them. */
  ghost predicate Route(ps: Point, pe: Point, res: seq<Line>) {
    && res != [] && res[0].a == ps && res[|res| - 1].b == pe
    && (forall k :: 0 <= k < |res| ==> Stage(ps, pe, res[k]))
    && (forall k :: 0 < k < |res| ==> res[k].a == res[k - 1].b)
  }

  ghost predicate Stage(ps: Point, pe: Point, l: Line) {
    l.a.t < l.b.t && On(ps, pe, l.a) && On(ps, pe, l.b)
  }

  /** Every piece is clear of every side dealt with. */
  ghost predicate AllClear(res: seq<Line>, sides: seq<Side>) {
    forall k :: 0 <= k < |res| ==> ClearOf(res[k], sides)
  }

  ghost predicate ClearOf(l: Line, sides: seq<Side>) {
    forall j :: 0 <= j < |sides| ==> Clear(l, sides[j])
  }

  /** Both halves of a cut piece are stages, clear of the cut side and of all sides the piece was clear of. */
  lemma CutStage(ps: Point, pe: Point, l: Line, s: Side, sides: seq<Side>, m: Point)
    requires ps.t < pe.t && Stage(ps, pe, l) && ClearOf(l, sides) && !Clear(l, s) && m == CutByLine(l, s).value
    ensures Stage(ps, pe, Line(l.a, m)) && Stage(ps, pe, Line(m, l.b))
    ensures ClearOf(Line(l.a, m), sides + [s]) && ClearOf(Line(m, l.b), sides + [s])
  {
    CutPoint(l, s);
    SubLine(ps, pe, l.a, l.b, m.t);
    hide MakeMid, CutByLine;
    forall j | 0 <= j < |sides|
      ensures Clear(Line(l.a, m), sides[j]) && Clear(Line(m, l.b), sides[j])
    {
      assert Clear(l, sides[j]);
      StaysClear(Coord(l.a, sides[j].vertical), Coord(l.b, sides[j].vertical), Coord(m, sides[j].vertical),
                 sides[j].value);
    }
  }

  /** Pieces that lead from `ps` along the motion to `pe`, as far as `at`. */
  ghost predicate Partway(ps: Point, pe: Point, at: Point, res: seq<Line>, sides: seq<Side>) {
    && (forall k :: 0 <= k < |res| ==> Stage(ps, pe, res[k]) && ClearOf(res[k], sides))
    && (forall k :: 0 < k < |res| ==> res[k].a == res[k - 1].b)
    && (if res == [] then at == ps else res[0].a == ps && res[|res| - 1].b == at)
  }

  /** A point on one of the sides. */
  ghost predicate OnSide(p: Point, sides: seq<Side>) {
    exists j :: 0 <= j < |sides| && Coord(p, sides[j].vertical) == sides[j].value
  }

  /** The pieces meet only on the sides. */
  ghost predicate JointsOn(res: seq<Line>, sides: seq<Side>) {
    forall k :: 0 < k < |res| ==> OnSide(res[k].a, sides)
  }

  lemma JointsGrow(tmp: seq<Line>, l: Line, sides: seq<Side>)
    requires JointsOn(tmp, sides) && (tmp != [] ==> OnSide(l.a, sides))
    ensures JointsOn(tmp + [l], sides)
  {
    hide OnSide;
  }

  lemma MoreSides(p: Point, sides: seq<Side>, s: Side)
    ensures OnSide(p, sides) ==> OnSide(p, sides + [s])
    ensures Coord(p, s.vertical) == s.value ==> OnSide(p, sides + [s])
  {
    if j :| 0 <= j < |sides| && Coord(p, sides[j].vertical) == sides[j].value {
      assert (sides + [s])[j] == sides[j];
    }
    assert (sides + [s])[|sides|] == s;
  }

  /** One pass: every piece that crosses the side is replaced by its two halves, which is so for one at most. */
  method CutPass(ps: Point, pe: Point, res: seq<Line>, s: Side, ghost sides: seq<Side>) returns (tmp: seq<Line>)
    requires ps.t < pe.t && Partway(ps, pe, pe, res, sides) && res != []
    requires JointsOn(res, sides)
    ensures Partway(ps, pe, pe, tmp, sides + [s]) && tmp != []
    ensures JointsOn(tmp, sides + [s]) && |tmp| <= |res| + 1
  {
    hide Stage, CutByLine, Clear, OnSide;
    tmp := [];
    ghost var cut: Option<Line> := None;
    for k := 0 to |res|
      invariant Partway(ps, pe, if k < |res| then res[k].a else pe, tmp, sides + [s])
      invariant k > 0 <==> tmp != []
      invariant JointsOn(tmp, sides + [s]) && |tmp| == if cut.Some? then k + 1 else k
      invariant cut.Some? ==> Stage(ps, pe, cut.value) && !Clear(cut.value, s)
                              && cut.value.b.t <= if k < |res| then res[k].a.t else pe.t
    {
      var line := res[k];
      StageTimes(ps, pe, line);
      MoreSides(line.a, sides, s);
      if cut.Some? { CrossesLater(ps, pe, cut.value, line, s); }
      var stp := CutOne(line, s);
      if stp.Some? {
        CutStage(ps, pe, line, s, sides, stp.value);
        CutOnSide(line, s);
        MoreSides(stp.value, sides, s);
        JointsGrow(tmp, Line(line.a, stp.value), sides + [s]);
        JointsGrow(tmp + [Line(line.a, stp.value)], Line(stp.value, line.b), sides + [s]);
        cut := Some(line);
        tmp := tmp + [Line(line.a, stp.value)] + [Line(stp.value, line.b)];
      } else {
        JointsGrow(tmp, line, sides + [s]);
        tmp := tmp + [line];
      }
    }
  }

  lemma StageTimes(ps: Point, pe: Point, l: Line)
    requires Stage(ps, pe, l)
    ensures l.a.t < l.b.t <= pe.t
  {
  }

  lemma CrossesLater(ps: Point, pe: Point, l: Line, l': Line, s: Side)
    requires ps.t < pe.t && Stage(ps, pe, l) && Stage(ps, pe, l') && l.b.t <= l'.a.t && !Clear(l, s)
    ensures Clear(l', s)
  {
    CrossesOnce(ps, pe, l, l', s);
  }

  lemma CutOnSide(l: Line, s: Side)
    requires l.a.t < l.b.t && !Clear(l, s)
    ensures Coord(CutByLine(l, s).value, s.vertical) == s.value
  {
  }

  method CutOne(l: Line, s: Side) returns (stp: Option<Point>)
    ensures stp == CutByLine(l, s) && (stp.None? <==> Clear(l, s))
  {
    stp := CutByLine(l, s);
  }

  /** On one of the lines through the sides of the box. */
  ghost predicate OnEdge(r: Box, p: Point) { p.x == r.xmin || p.x == r.xmax || p.y == r.ymin || p.y == r.ymax }

  /** Cuts a motion along the sides of a box: the pieces lead from one end to the other, every joint is on the
      motion and on a side, there are five at most, and every piece has a field of its own. */
  method CutByPhase(ps: Point, pe: Point, r: Box) returns (res: seq<Line>)
    requires ps.t < pe.t
    ensures Route(ps, pe, res)
    ensures forall k :: 0 <= k < |res| ==> 1 <= GetPhase(r, res[k].a, res[k].b) <= 9
    ensures |res| <= 5
    ensures forall k :: 0 < k < |res| ==> OnEdge(r, res[k].a)
  {
    hide Clear, GetPhase, ClearOf, OnSide, OnEdge, Stage, JointsOn;
    WholeRoute(ps, pe);
    var s1, s2, s3, s4 := Side(r.xmin, true), Side(r.xmax, true), Side(r.ymin, false), Side(r.ymax, false);
    res := [Line(ps, pe)];
    res := CutPass(ps, pe, res, s1, []);
    res := CutPass(ps, pe, res, s2, [] + [s1]);
    res := CutPass(ps, pe, res, s3, [] + [s1] + [s2]);
    res := CutPass(ps, pe, res, s4, [] + [s1] + [s2] + [s3]);
    PiecesOfBox(ps, pe, r, res, [] + [s1] + [s2] + [s3] + [s4]);
  }

  lemma WholeRoute(ps: Point, pe: Point)
    requires ps.t < pe.t
    ensures Partway(ps, pe, pe, [Line(ps, pe)], []) && JointsOn([Line(ps, pe)], [])
  {
    SampleOn(ps, pe);
  }

  lemma PiecesOfBox(ps: Point, pe: Point, r: Box, res: seq<Line>, sides: seq<Side>)
    requires sides == [Side(r.xmin, true), Side(r.xmax, true), Side(r.ymin, false), Side(r.ymax, false)]
    requires Partway(ps, pe, pe, res, sides) && res != [] && JointsOn(res, sides)
    ensures Route(ps, pe, res)
    ensures forall k :: 0 <= k < |res| ==> 1 <= GetPhase(r, res[k].a, res[k].b) <= 9
    ensures forall k :: 0 < k < |res| ==> OnEdge(r, res[k].a)
  {
    hide Stage, Clear, GetPhase;
    forall k | 0 < k < |res| ensures OnEdge(r, res[k].a) { assert OnSide(res[k].a, sides); }
    forall k | 0 <= k < |res|
      ensures 1 <= GetPhase(r, res[k].a, res[k].b) <= 9
    {
      assert ClearOf(res[k], sides);
      assert Clear(res[k], sides[0]) && Clear(res[k], sides[1]) && Clear(res[k], sides[2]) && Clear(res[k], sides[3]);
      PhaseExists(r, res[k]);
    }
  }

  /** The fields are numbered from 1 at the lower left to 9 at the upper right, 5 being the box. */
  function GetPhase(r: Box, p1: Point, p2: Point): int {
    var column :=
      if p1.x <= r.xmax + TOUCH && p2.x <= r.xmax + TOUCH && p1.x >= r.xmin - TOUCH && p2.x >= r.xmin - TOUCH then 2
      else if p1.x <= r.xmin + TOUCH && p2.x <= r.xmin + TOUCH then 1
      else if p1.x >= r.xmax - TOUCH && p2.x >= r.xmax - TOUCH then 3
      else -1;
    if column == -1 then -1
    else if p1.y <= r.ymax + TOUCH && p2.y <= r.ymax + TOUCH && p1.y >= r.ymin - TOUCH
        && p2.y >= r.ymin - TOUCH then column + 3
    else if p1.y <= r.ymin + TOUCH && p2.y <= r.ymin + TOUCH then column
    else if p1.y >= r.ymax - TOUCH && p2.y >= r.ymax - TOUCH then column + 6
    else -1
  }

  /** In one coordinate: clear of both sides, the piece is below, between or above them. */
  lemma OneBand(u: real, v: real, lo: real, hi: real)
    requires NotCut(u, v, lo) && NotCut(u, v, hi)
    ensures (u <= lo + TOUCH && v <= lo + TOUCH) || (u >= hi - TOUCH && v >= hi - TOUCH)
            || (lo - TOUCH <= u <= hi + TOUCH && lo - TOUCH <= v <= hi + TOUCH)
  {
  }

  /** A piece clear of all four sides has a field, despite the tolerances. */
  lemma PhaseExists(r: Box, l: Line)
    requires Clear(l, Side(r.xmin, true)) && Clear(l, Side(r.xmax, true)) && Clear(l, Side(r.ymin, false))
             && Clear(l, Side(r.ymax, false))
    ensures 1 <= GetPhase(r, l.a, l.b) <= 9
  {
    OneBand(l.a.x, l.b.x, r.xmin, r.xmax);
    OneBand(l.a.y, l.b.y, r.ymin, r.ymax);
  }

  /** Which band of one coordinate a number stands for: below, between or above, with 1e-7 to spare. */
  ghost predicate InBand(band: int, v: real, lo: real, hi: real) {
    if band == 0 then v <= lo + 0.0000001
    else if band == 1 then lo - 0.0000001 <= v <= hi + 0.0000001
    else v >= hi - 0.0000001
  }

  ghost predicate InField(r: Box, phase: int, p: Point)
    requires 1 <= phase <= 9
  {
    InBand((phase - 1) % 3, p.x, r.xmin, r.xmax) && InBand((phase - 1) / 3, p.y, r.ymin, r.ymax)
  }

  ghost predicate BothIn(band: int, u: real, v: real, lo: real, hi: real) {
    InBand(band, u, lo, hi) && InBand(band, v, lo, hi)
  }

  /** The band taken for two ends: between if both are, or else below if both are, or else above. */
  ghost predicate Takes(band: int, u: real, v: real, lo: real, hi: real) {
    && BothIn(band, u, v, lo, hi)
    && (band != 1 ==> !BothIn(1, u, v, lo, hi)) && (band == 2 ==> !BothIn(0, u, v, lo, hi))
  }

  /** The number of the field says exactly which bands are taken. */
  lemma PhaseExact(r: Box, a: Point, b: Point, column: int, row: int)
    requires 0 <= column <= 2 && 0 <= row <= 2
    ensures GetPhase(r, a, b) == 3 * row + column + 1
            <==> Takes(column, a.x, b.x, r.xmin, r.xmax) && Takes(row, a.y, b.y, r.ymin, r.ymax)
  {
  }

  /** The field says where the whole motion is, not only its ends. */
  lemma PhaseHolds(r: Box, a: Point, b: Point, p: Point)
    requires a.t < b.t && On(a, b, p) && GetPhase(r, a, b) != -1
    ensures 1 <= GetPhase(r, a, b) <= 9 && InField(r, GetPhase(r, a, b), p)
  {
    var w, u := Weights(a.t, b.t, p.t);
    MixIsMid(w, u, a.x, a.t, b.x, b.t);
    MixIsMid(w, u, a.y, a.t, b.y, b.t);
    hide Mid, Mix;
    MixBetween(w, u, a.x, b.x, Min(a.x, b.x), Max(a.x, b.x));
    MixBetween(w, u, a.y, b.y, Min(a.y, b.y), Max(a.y, b.y));
  }
}
