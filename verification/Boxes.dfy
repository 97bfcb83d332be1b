/** Axis-parallel boxes in space-time. The code updates a box in place; here an update gives a new value. */
module Boxes {
  import opened Geometry

  /** Stands for the bound the code starts an empty box with. */
  const INF: real := 1000000000000000000000000000000.0

  datatype Box = Box(xmin: real, xmax: real, ymin: real, ymax: real, tmin: real, tmax: real) {

    function CombineBox(r: Box): (b: Box)
      ensures b.Contains(this) && b.Contains(r)
    {
      Box(Min(xmin, r.xmin), Max(xmax, r.xmax), Min(ymin, r.ymin), Max(ymax, r.ymax), Min(tmin, r.tmin),
          Max(tmax, r.tmax))
    }

    function CombinePoint(p: Point): (b: Box)
      ensures b.Contains(this) && b.ContainsPoint(p)
    {
      Box(Min(xmin, p.x), Max(xmax, p.x), Min(ymin, p.y), Max(ymax, p.y), Min(tmin, p.t), Max(tmax, p.t))
    }

    predicate Contains(r: Box) {
      xmin <= r.xmin && r.xmax <= xmax && ymin <= r.ymin && r.ymax <= ymax && tmin <= r.tmin && r.tmax <= tmax
    }

    predicate ContainsPoint(p: Point) {
      xmin <= p.x <= xmax && ymin <= p.y <= ymax && tmin <= p.t <= tmax
    }

    /** The bounds by axis: 0 is x, 1 is y, 2 is time. */
    function Low(i: int): real { if i == 1 then ymin else if i == 2 then tmin else xmin }

    function High(i: int): real { if i == 1 then ymax else if i == 2 then tmax else xmax }
  }

  const INFINITE_BOX := Box(INF, -INF, INF, -INF, INF, -INF)

  /** A box holds another exactly if it holds all points of it. */
  lemma ContainsIffPoints(a: Box, r: Box)
    requires r.xmin <= r.xmax && r.ymin <= r.ymax && r.tmin <= r.tmax
    ensures a.Contains(r) <==> forall p :: r.ContainsPoint(p) ==> a.ContainsPoint(p)
  {
    if forall p :: r.ContainsPoint(p) ==> a.ContainsPoint(p) {
      assert a.ContainsPoint(Point(r.xmin, r.ymin, r.tmin)) && a.ContainsPoint(Point(r.xmax, r.ymax, r.tmax));
    }
  }

  /** The combined box is the least one: whatever holds both parts holds it. */
  lemma CombineIsLeast(a: Box, r: Box, c: Box)
    ensures c.Contains(a.CombineBox(r)) <==> c.Contains(a) && c.Contains(r)
  {
  }
}
