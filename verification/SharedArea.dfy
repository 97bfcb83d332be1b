/** The area two moving boxes share over a period, and when the sweep computes it from the right boxes. */
module SharedArea {
  import opened Geometry
  import opened KineticLines
  import opened MovingRegions
  import opened SweptArea
  import opened KineticSweep
  import opened Wrappers

  // ----- when the sweep is exact

  /** If both boxes start together every stretch is exact. */
  lemma TogetherExact(m: MovingRegion, r: MovingRegion, pieces: seq<Stretch>, from: real, now: real)
    requires m.Shaped() && r.Shaped() && |m.low| == |r.low| && m.start == r.start
    requires Tiles(m, r, pieces, from, now) && FromSweep(m, r, pieces)
    ensures Exact(m, r, pieces)
  {
    hide Shared, Chosen, PickedIn;
    forall k | 0 <= k < |pieces|
      ensures ExactStretch(m, r, pieces[k])
    {
      assert GoodStretch(m, r, pieces[k]) && Picked(m, r, pieces[k]);
      ChosenIsShared(m, r, pieces[k].x, pieces[k].from, pieces[k].to);
    }
  }

  /** A bound of `r` can be taken over as it stands, or need not be: it stands still, or that of `m` leads at both
      ends of the contact and is not the same. */
  predicate Harmless(m: MovingRegion, r: MovingRegion, b: Bound, from: real, to: real)
    requires m.Shaped() && r.Shaped() && b.dim < |m.low| == |r.low|
  {
    LineOf(r, b).v == 0.0 || (Lead(m, r, b, false, from) >= 0.0 && Lead(m, r, b, false, to) >= 0.0 && !Tied(m, r, b))
  }

  ghost predicate AllHarmless(m: MovingRegion, r: MovingRegion, from: real, to: real)
    requires m.Shaped() && r.Shaped() && |m.low| == |r.low|
  {
    forall b: Bound :: b.dim < |m.low| ==> Harmless(m, r, b, from, to)
  }

  /** If both bounds lead throughout a stretch they are the same. */
  lemma BothLead(m: MovingRegion, r: MovingRegion, b: Bound, from: real, to: real)
    requires m.Shaped() && r.Shaped() && b.dim < |m.low| == |r.low| && from < to
    requires Leads(m, r, b, true, from, to) && Leads(m, r, b, false, from, to)
    ensures Tied(m, r, b)
  {
    LeadIs(m, r, b, from);
    LeadIs(m, r, b, to);
    assert Lead(m, r, b, true, from) == 0.0 == Lead(m, r, b, true, to);
    var lm, lr := LineOf(m, b), LineOf(r, b);
    GapIs(lm, lr, from);
    GapIs(lm, lr, to);
    GapMoves(lm, lr, from, to);
    TravelSign(lm.v - lr.v, to - from);
    hide Travel, Line.At;
    TiedAt(m, r, b, from);
  }

  /** On a stretch of the sweep a harmless bound is right as copied. */
  lemma HarmlessRight(m: MovingRegion, r: MovingRegion, p: Stretch, b: Bound, from: real, to: real)
    requires m.Shaped() && r.Shaped() && b.dim < |m.low| == |r.low| && Picked(m, r, p) && from <= p.from < p.to <= to
    requires Harmless(m, r, b, from, to)
    ensures RightIn(m, r, p.x, b, p.from, p.to)
  {
    assert PickedIn(m, r, p.x, b, p.from, p.to);
    var o :| Copies(p.x, Owner(m, r, o), b) && Leads(m, r, b, o, p.from, p.to) && (Tied(m, r, b) ==> o);
    if o && LineOf(r, b).v != 0.0 {
      BoundPlan(m, r, b, false, from, to);
      hide LineOf, Lead, Copies, Tied;
      assert Leads(m, r, b, false, p.from, p.to);
      BothLead(m, r, b, p.from, p.to);
      assert false;
    }
  }

  /** If the boxes start apart, a moving bound of `r` that is right as copied was not copied: that of `m` leads. */
  lemma RightLeads(m: MovingRegion, r: MovingRegion, p: Stretch, b: Bound)
    requires m.Shaped() && r.Shaped() && b.dim < |m.low| == |r.low| && m.start != r.start && p.from <= p.to
    requires Picked(m, r, p) && RightIn(m, r, p.x, b, p.from, p.to) && LineOf(r, b).v != 0.0
    ensures Leads(m, r, b, false, p.from, p.to) && !Tied(m, r, b)
  {
    var o :| Copies(p.x, Owner(m, r, o), b) && Leads(m, r, b, o, p.from, p.to)
             && (p.x.start == Owner(m, r, o).start || LineOf(Owner(m, r, o), b).v == 0.0);
    assert !o && Copies(p.x, m, b);
    if Tied(m, r, b) {
      assert PickedIn(m, r, p.x, b, p.from, p.to);
      assert Copies(p.x, r, b);
      TiedAt(m, r, b, p.from);
      LeadIs(m, r, b, p.from);
      hide LineOf, Lead, Line.At;
      CopyNeedsSameStart(p.x, b, r, p.from);
      CopyNeedsSameStart(p.x, b, m, p.from);
      assert false;
    }
  }

  /** Every instant is in some stretch. */
  lemma {:induction false} StretchAt(m: MovingRegion, r: MovingRegion, pieces: seq<Stretch>, from: real, to: real,
                                     t: real)
    returns (k: nat)
    requires m.Shaped() && r.Shaped() && |m.low| == |r.low| && Tiles(m, r, pieces, from, to) && from <= t <= to
             && from < to
    ensures k < |pieces| && pieces[k].from <= t <= pieces[k].to
  {
    hide GoodStretch;
    var n := |pieces| - 1;
    if t >= pieces[n].from {
      k := n;
    } else {
      k := StretchAt(m, r, pieces[..n], from, pieces[n].from, t);
    }
  }

  /** When the boxes start apart, the box of every stretch is their intersection exactly if every bound of `r` is
      harmless. */
  lemma SweepExactIff(m: MovingRegion, r: MovingRegion, pieces: seq<Stretch>, from: real, to: real)
    requires m.Shaped() && r.Shaped() && |m.low| == |r.low| && m.start != r.start && from < to
    requires Tiles(m, r, pieces, from, to) && FromSweep(m, r, pieces)
    ensures Exact(m, r, pieces) <==> AllHarmless(m, r, from, to)
  {
    if AllHarmless(m, r, from, to) { HarmlessExact(m, r, pieces, from, to); }
    if Exact(m, r, pieces) {
      forall b: Bound | b.dim < |m.low|
        ensures Harmless(m, r, b, from, to)
      {
        hide Tiles, FromSweep, Exact, LineOf, Lead, Tied;
        if LineOf(r, b).v != 0.0 {
          ExactLeads(m, r, pieces, from, to, b, from);
          ExactLeads(m, r, pieces, from, to, b, to);
        }
      }
    }
  }

  lemma HarmlessExact(m: MovingRegion, r: MovingRegion, pieces: seq<Stretch>, from: real, to: real)
    requires m.Shaped() && r.Shaped() && |m.low| == |r.low|
    requires Tiles(m, r, pieces, from, to) && FromSweep(m, r, pieces) && AllHarmless(m, r, from, to)
    ensures Exact(m, r, pieces)
  {
    forall k | 0 <= k < |pieces|
      ensures ExactStretch(m, r, pieces[k])
    {
      var p := pieces[k];
      assert GoodStretch(m, r, p) && Picked(m, r, p);
      StretchWithin(m, r, pieces, from, to, k);
      hide Tiles, FromSweep, Picked, Chosen, Shared, Harmless;
      forall b: Bound | b.dim < |m.low|
        ensures RightIn(m, r, p.x, b, p.from, p.to)
      {
        HarmlessRight(m, r, p, b, from, to);
      }
      hide RightIn;
      SharedIffRight(m, r, p.x, p.from, p.to);
    }
  }

  lemma {:induction false} StretchWithin(m: MovingRegion, r: MovingRegion, pieces: seq<Stretch>, from: real, to: real,
                                         k: nat)
    requires m.Shaped() && r.Shaped() && |m.low| == |r.low| && Tiles(m, r, pieces, from, to) && k < |pieces|
    ensures from <= pieces[k].from < pieces[k].to <= to
  {
    var n := |pieces| - 1;
    assert GoodStretch(m, r, pieces[n]) && GoodStretch(m, r, pieces[k]);
    hide GoodStretch;
    NoTiles(m, r, pieces[..n], from, pieces[n].from);
    if k < n { StretchWithin(m, r, pieces[..n], from, pieces[n].from, k); }
  }

  lemma ExactLeads(m: MovingRegion, r: MovingRegion, pieces: seq<Stretch>, from: real, to: real, b: Bound, t: real)
    requires m.Shaped() && r.Shaped() && b.dim < |m.low| == |r.low| && m.start != r.start && from < to
             && from <= t <= to
    requires Tiles(m, r, pieces, from, to) && FromSweep(m, r, pieces) && Exact(m, r, pieces) && LineOf(r, b).v != 0.0
    ensures Lead(m, r, b, false, t) >= 0.0 && !Tied(m, r, b)
  {
    var k := StretchAt(m, r, pieces, from, to, t);
    var p := pieces[k];
    assert GoodStretch(m, r, p) && Picked(m, r, p) && ExactStretch(m, r, p);
    hide Tiles, FromSweep, Exact, Picked, Chosen, Shared, LineOf, Lead, Tied, RightIn;
    SharedIffRight(m, r, p.x, p.from, p.to);
    assert RightIn(m, r, p.x, b, p.from, p.to);
    RightLeads(m, r, p, b);
  }

  // ----- the whole computation

  /** No two instants of the window at which the boxes meet. */
  ghost predicate HardlyMeet(m: MovingRegion, r: MovingRegion, from: real, to: real)
    requires m.Shaped() && r.Shaped() && |m.low| == |r.low|
  {
    forall t, u :: from <= t < u <= to ==> !(Meets(m, r, t) && Meets(m, r, u))
  }

  /** The contact interval within the window. */
  ghost predicate MeetExactly(m: MovingRegion, r: MovingRegion, from: real, to: real, first: real, last: real)
    requires m.Shaped() && r.Shaped() && |m.low| == |r.low|
  {
    from <= first <= last <= to && forall t :: from <= t <= to ==> (Meets(m, r, t) <==> first <= t <= last)
  }

  /** One of the boxes holds the other all the time. */
  ghost predicate Held(m: MovingRegion, r: MovingRegion, from: real, to: real)
    requires m.Shaped() && r.Shaped() && |m.low| == |r.low|
  {
    (forall t :: from <= t <= to ==> Contains(m, r, t)) || (forall t :: from <= t <= to ==> Contains(r, m, t))
  }

  /** The boxes start at the same time, or one holds the other, or every bound of `r` is harmless. */
  ghost predicate Sharp(m: MovingRegion, r: MovingRegion, from: real, to: real)
    requires m.Shaped() && r.Shaped() && |m.low| == |r.low|
  {
    m.start == r.start || Held(m, r, from, to) || AllHarmless(m, r, from, to)
  }

  /** The shared area over the part of the period in which both boxes live: zero if they hardly meet, and
      else the sum over stretches that tile the contact interval exactly. On each of them every bound of the box
      handed to the area formula is that of the box that leads, as it stands there. Those boxes are the intersection
      of the two exactly if the input is sharp. */
  method GetIntersectingAreaInTime(m: MovingRegion, lo: real, hi: real, r: MovingRegion)
    returns (a: Answer, ghost pieces: seq<Stretch>, ghost first: real, ghost last: real)
    requires m.Valid() && r.Valid() && lo < hi
    ensures a.WrongDimensions? <==> |m.low| != |r.low|
    ensures a.NotSupported? ==> |m.low| == 0 || |m.low| > 3
    ensures a.Area? && HardlyMeet(m, r, MeetFrom(m, lo, r), MeetTo(m, hi, r)) ==> a.value == 0.0
    ensures a.Area? && !HardlyMeet(m, r, MeetFrom(m, lo, r), MeetTo(m, hi, r)) ==>
              MeetExactly(m, r, MeetFrom(m, lo, r), MeetTo(m, hi, r), first, last)
              && Tiles(m, r, pieces, first, last) && Adds(pieces, a.value)
              && (Exact(m, r, pieces) <==> Sharp(m, r, first, last))
              && (!Held(m, r, first, last) ==> FromSweep(m, r, pieces))
  {
    first, last, pieces := lo, lo, [];
    if |m.low| != |r.low| {
      return WrongDimensions, pieces, first, last;
    }
    var tmin, tmax := Max(m.start, r.start), Min(m.end, r.end);
    if tmax <= tmin {
      return Area(0.0), pieces, first, last;
    }
    tmin, tmax := Max(tmin, lo), Min(tmax, hi);
    hide Meets, Adds, GoodStretch, Contains, Held, Exact, Sharp, FromSweep;
    if tmax <= tmin {
      return Area(0.0), pieces, first, last;
    }
    ghost var from, to := tmin, tmax;
    var c := IntersectsRegionInTime(m, tmin, tmax, r);
    if !c.During? {
      return Area(0.0), pieces, first, last;
    }
    first, last := c.from, c.to;
    tmin, tmax := c.from, c.to;
    assert MeetExactly(m, r, from, to, first, last);
    assert first == last ==> HardlyMeet(m, r, from, to);
    a, pieces := AreaOver(m, r, tmin, tmax);
    if a.Area? && HardlyMeet(m, r, from, to) { NoArea(m, r, from, to, first, last, pieces, a.value); }
  }

  lemma NoArea(m: MovingRegion, r: MovingRegion, from: real, to: real, first: real, last: real, pieces: seq<Stretch>,
               area: real)
    requires m.Shaped() && r.Shaped() && |m.low| == |r.low|
    requires HardlyMeet(m, r, from, to) && MeetExactly(m, r, from, to, first, last)
    requires Tiles(m, r, pieces, first, last) && Adds(pieces, area)
    ensures area == 0.0
  {
    hide Shared, Pair;
    assert Meets(m, r, first) && Meets(m, r, last);
    assert first == last;
    NoTiles(m, r, pieces, first, last);
  }

  /** The area over the contact interval: one box's own area if it lies inside the other, else the sweep. */
  method AreaOver(m: MovingRegion, r: MovingRegion, tmin: real, tmax: real)
    returns (a: Answer, ghost pieces: seq<Stretch>)
    requires m.Valid() && r.Valid() && |m.low| == |r.low|
    requires m.start <= tmin && r.start <= tmin <= tmax && tmax <= m.end && tmax <= r.end
    ensures !a.WrongDimensions? && (a.NotSupported? ==> |m.low| == 0 || |m.low| > 3)
    ensures a.Area? ==> Tiles(m, r, pieces, tmin, tmax) && Adds(pieces, a.value)
    ensures a.Area? && tmin < tmax ==> (Exact(m, r, pieces) <==> Sharp(m, r, tmin, tmax))
    ensures a.Area? && tmin < tmax && !Held(m, r, tmin, tmax) ==> FromSweep(m, r, pieces)
  {
    hide Contains, Tiles, Adds, Exact, AllHarmless, FromSweep;
    var inside := ContainsRegionInTime(m, tmin, tmax, r);
    hide MovingRegion.Valid;
    if inside.value {
      a, pieces := HeldArea(m, r, r, tmin, tmax);
    } else {
      var outside := ContainsRegionInTime(r, tmin, tmax, m);
      if outside.value {
        a, pieces := HeldArea(m, r, m, tmin, tmax);
      } else {
        a, pieces := Sweep(m, r, tmin, tmax);
        if a.Area? && tmin < tmax { SweepSharp(m, r, pieces, tmin, tmax); }
      }
      NowHeld(m, r, tmin, tmax, outside.value);
    }
  }

  lemma NowHeld(m: MovingRegion, r: MovingRegion, from: real, to: real, outside: bool)
    requires m.Shaped() && r.Shaped() && |m.low| == |r.low|
    requires !(from < to && forall t :: from <= t <= to ==> Contains(m, r, t))
    requires outside <==> from < to && forall t :: from <= t <= to ==> Contains(r, m, t)
    ensures from < to ==> (Held(m, r, from, to) <==> outside)
  {
    hide Contains;
  }

  lemma SweepSharp(m: MovingRegion, r: MovingRegion, pieces: seq<Stretch>, from: real, to: real)
    requires m.Shaped() && r.Shaped() && |m.low| == |r.low| && from < to
    requires Tiles(m, r, pieces, from, to) && FromSweep(m, r, pieces)
    ensures Exact(m, r, pieces) <==> m.start == r.start || AllHarmless(m, r, from, to)
  {
    hide Tiles, FromSweep, Exact, AllHarmless;
    if m.start == r.start { TogetherExact(m, r, pieces, from, to); } else { SweepExactIff(m, r, pieces, from, to); }
  }

  /** The area of a box that lies inside the other all the time. */
  method HeldArea(m: MovingRegion, r: MovingRegion, x: MovingRegion, tmin: real, tmax: real)
    returns (a: Answer, ghost pieces: seq<Stretch>)
    requires m.Valid() && r.Valid() && |m.low| == |r.low|
    requires m.start <= tmin && r.start <= tmin < tmax && tmax <= m.end && tmax <= r.end
    requires (x == r && forall t :: tmin <= t <= tmax ==> Contains(m, r, t))
             || (x == m && forall t :: tmin <= t <= tmax ==> Contains(r, m, t))
    ensures !a.WrongDimensions? && (a.NotSupported? ==> |m.low| == 0 || |m.low| > 3)
    ensures a.Area? ==> Tiles(m, r, pieces, tmin, tmax) && Adds(pieces, a.value) && Exact(m, r, pieces)
  {
    var area := GetAreaInTime(x, tmin, tmax);
    if area.None? {
      return NotSupported, [];
    }
    ghost var s := Stretch(tmin, tmax, x);
    HeldChosen(m, r, x, tmin, tmax);
    hide Contains, Shared, Chosen;
    HeldShared(m, r, x, tmin, tmax);
    assert GoodStretch(m, r, s) && ExactStretch(m, r, s);
    hide GoodStretch, ExactStretch;
    AddStretch(m, r, [], tmin, tmin, 0.0, s);
    assert [] + [s] == [s];
    return Area(area.value), [s];
  }

  lemma HeldChosen(m: MovingRegion, r: MovingRegion, x: MovingRegion, tmin: real, tmax: real)
    requires Pair(m, r, x)
    requires (x == r && forall t :: tmin <= t <= tmax ==> Contains(m, r, t))
             || (x == m && forall t :: tmin <= t <= tmax ==> Contains(r, m, t))
    ensures Chosen(m, r, x, tmin, tmax)
  {
    hide Line.At, Gap;
    var ofR := x == r && forall t :: tmin <= t <= tmax ==> Contains(m, r, t);
    forall b: Bound | b.dim < |m.low|
      ensures ChosenIn(m, r, x, b, tmin, tmax)
    {
      forall t | tmin <= t <= tmax
        ensures Lead(m, r, b, ofR, t) >= 0.0
      {
        assert Contains(if ofR then m else r, x, t);
        assert DimContains(if ofR then m else r, x, b.dim, t);
      }
      assert Copies(x, Owner(m, r, ofR), b) && Leads(m, r, b, ofR, tmin, tmax);
    }
  }

  lemma HeldShared(m: MovingRegion, r: MovingRegion, x: MovingRegion, tmin: real, tmax: real)
    requires Pair(m, r, x)
    requires (x == r && forall t :: tmin <= t <= tmax ==> Contains(m, r, t))
             || (x == m && forall t :: tmin <= t <= tmax ==> Contains(r, m, t))
    ensures forall t :: tmin <= t <= tmax ==> Shared(m, r, x, t)
  {
    hide Line.At;
    forall t | tmin <= t <= tmax
      ensures Shared(m, r, x, t)
    {
      var holder := if x == r && Contains(m, r, t) then m else r;
      assert Contains(holder, x, t);
      forall d | 0 <= d < |m.low|
        ensures SharedIn(m, r, x, d, t)
      {
        assert DimContains(holder, x, d, t);
      }
    }
  }

  // ----- boxes that start apart

  function EarlyBox(): MovingRegion { MovingRegion([0.0], [2.0], [0.0], [0.0], 0.0, 10.0) }

  function LateBox(): MovingRegion { MovingRegion([1.0], [3.0], [1.0], [1.0], 5.0, 10.0) }

  /** The box of the sweep over their contact: the late box's lower bound, as if it had moved from time 0 on. */
  function SweptBox(): MovingRegion { MovingRegion([1.0], [2.0], [1.0], [0.0], 0.0, 10.0) }

  /** Two boxes that share a positive extent from 5 to 6 and do not meet later. Whatever stretches the sweep takes,
      their areas add up to nothing positive; taken as one stretch, to -4.5. */
  lemma StartingApartGoesWrong(pieces: seq<Stretch>, from: real, to: real, end: real, area: real)
    requires from == 5.0 && to == 6.0 && end == 10.0
    requires Tiles(EarlyBox(), LateBox(), pieces, from, to) && FromSweep(EarlyBox(), LateBox(), pieces)
             && Adds(pieces, area)
    ensures EarlyBox().Valid() && LateBox().Valid() && MeetExactly(EarlyBox(), LateBox(), from, end, from, to)
    ensures !Sharp(EarlyBox(), LateBox(), from, to) && !Exact(EarlyBox(), LateBox(), pieces)
    ensures forall t :: from <= t <= to ==> SharedExtent(EarlyBox(), LateBox(), 0, t) == 6.0 - t
    ensures area <= 0.0 && GetAreaInTime(SweptBox(), from, to) == Some(-4.5)
  {
    TheyAreApart();
    SweptBoxArea(from, to);
    var m, r := EarlyBox(), LateBox();
    assert m.start == 0.0;
    hide EarlyBox, LateBox, AllHarmless, Held, Tiles, FromSweep, Exact, Adds, GetAreaInTime;
    ApartFacts(m, r, from, to, end);
    SweepExactIff(m, r, pieces, from, to);
    ApartSum(m, r, pieces, from, to, area);
  }

  /** What there is to know of the two boxes. */
  ghost predicate Apart(m: MovingRegion, r: MovingRegion) {
    && m.Shaped() && r.Shaped() && |m.low| == |r.low| == 1 && m.start != r.start
    && m.LowLine(0) == Line(0.0, 0.0, 0.0) && m.HighLine(0) == Line(2.0, 0.0, 0.0)
    && r.LowLine(0) == Line(1.0, 1.0, 5.0) && r.HighLine(0) == Line(3.0, 1.0, 5.0)
  }

  lemma TheyAreApart()
    ensures Apart(EarlyBox(), LateBox()) && EarlyBox().Valid() && LateBox().Valid()
  {
  }

  /** Where the bounds are. */
  lemma ApartLines(m: MovingRegion, r: MovingRegion, t: real)
    requires Apart(m, r)
    ensures m.LowLine(0).At(t) == 0.0 && m.HighLine(0).At(t) == 2.0
    ensures r.LowLine(0).At(t) == t - 4.0 && r.HighLine(0).At(t) == t - 2.0
  {
  }

  lemma ApartFacts(m: MovingRegion, r: MovingRegion, from: real, to: real, end: real)
    requires Apart(m, r) && from == 5.0 && to == 6.0 && end == 10.0
    ensures !AllHarmless(m, r, from, to) && !Held(m, r, from, to) && MeetExactly(m, r, from, end, from, to)
    ensures forall t :: from <= t <= to ==> SharedExtent(m, r, 0, t) == 6.0 - t
  {
    ApartHarm(m, r, from, to);
    ApartNotHeld(m, r, from, to);
    hide Meets, SharedExtent, AllHarmless, Held;
    forall t | from <= t <= end
      ensures Meets(m, r, t) <==> t <= to
      ensures t <= to ==> SharedExtent(m, r, 0, t) == 6.0 - t
    {
      ApartMeets(m, r, t);
    }
  }

  lemma ApartHarm(m: MovingRegion, r: MovingRegion, from: real, to: real)
    requires Apart(m, r) && from == 5.0
    ensures !AllHarmless(m, r, from, to)
  {
    LateBoundHarms(m, r, Bound(0, false), from, to);
    hide Harmless, Apart;
  }

  lemma LateBoundHarms(m: MovingRegion, r: MovingRegion, low: Bound, from: real, to: real)
    requires Apart(m, r) && from >= 5.0 && low == Bound(0, false)
    ensures !Harmless(m, r, low, from, to)
  {
    ApartLines(m, r, from);
    hide Line.At, Tied;
    LeadIs(m, r, low, from);
    hide Lead;
  }

  lemma ApartNotHeld(m: MovingRegion, r: MovingRegion, from: real, to: real)
    requires Apart(m, r) && from == 5.0 && to == 6.0
    ensures !Held(m, r, from, to)
  {
    LateSticksOut(m, r, from, to);
    hide Contains, Apart;
  }

  lemma LateSticksOut(m: MovingRegion, r: MovingRegion, from: real, to: real)
    requires Apart(m, r) && from >= 5.0 && to >= 5.0
    ensures !Contains(m, r, to) && !Contains(r, m, from)
  {
    ApartLines(m, r, from);
    ApartLines(m, r, to);
    hide Line.At;
    assert !DimContains(m, r, 0, to) && !DimContains(r, m, 0, from);
    hide DimContains;
  }

  lemma ApartMeets(m: MovingRegion, r: MovingRegion, t: real)
    requires Apart(m, r) && 5.0 <= t
    ensures Meets(m, r, t) <==> t <= 6.0
    ensures t <= 6.0 ==> SharedExtent(m, r, 0, t) == 6.0 - t
  {
    ApartLines(m, r, t);
    hide Line.At;
    assert DimMeets(m, r, 0, t) <==> t <= 6.0;
    hide DimMeets;
  }

  /** The box of every stretch of this sweep. */
  lemma ApartBox(m: MovingRegion, r: MovingRegion, p: Stretch)
    requires Apart(m, r) && Picked(m, r, p) && 5.0 <= p.from < p.to <= 6.0
    ensures p.x.LowLine(0) == Line(1.0, 1.0, p.x.start) && p.x.HighLine(0) == Line(2.0, 0.0, p.x.start)
  {
    var low, high := Bound(0, false), Bound(0, true);
    assert PickedIn(m, r, p.x, low, p.from, p.to) && PickedIn(m, r, p.x, high, p.from, p.to);
    ApartLines(m, r, p.from);
    hide Line.At;
    LeadIs(m, r, low, p.from);
    LeadIs(m, r, high, p.from);
    assert Lead(m, r, low, false, p.from) < 0.0 && Lead(m, r, high, true, p.from) < 0.0;
    hide Lead, Tied;
    assert Copies(p.x, r, low) && Copies(p.x, m, high);
  }

  /** What the area formula makes of that box. */
  lemma CrossedArea(x: MovingRegion, from: real, to: real, h: real)
    requires x.Shaped() && |x.low| == 1 && x.LowLine(0) == Line(1.0, 1.0, 0.0) && x.HighLine(0) == Line(2.0, 0.0, 0.0)
    requires from >= 5.0 && h == to - from
    ensures Swept(x, from, to) == h * (1.0 - from) - h * h / 2.0
  {
    var ext, rate := Extent(x, 0, from), Rate(x, 0);
    assert ext == 1.0 - from && rate == -1.0;
    hide Extent, Rate;
    assert Area1(h, ext, rate) == h * ext + h * h * rate / 2.0;
    hide Area1;
    assert h * h * rate == -(h * h);
  }

  lemma SweptBoxArea(from: real, to: real)
    requires from == 5.0 && to == 6.0
    ensures GetAreaInTime(SweptBox(), from, to) == Some(-4.5)
  {
    var x := SweptBox();
    CrossedArea(x, from, to, to - from);
    hide Swept;
  }

  lemma ApartArea(m: MovingRegion, r: MovingRegion, p: Stretch)
    requires Apart(m, r) && m.start == 0.0 && Picked(m, r, p) && 5.0 <= p.from < p.to <= 6.0 && p.to <= p.x.end
    ensures StretchArea(p).Some? && StretchArea(p).value <= 0.0
  {
    ApartBox(m, r, p);
    hide PickedIn, Apart;
    var h, ext := p.to - p.from, 1.0 - p.from;
    CrossedArea(p.x, p.from, p.to, h);
    MulNonneg(h, -ext);
    MulNonneg(h, h);
    hide Swept;
  }

  lemma {:induction false} ApartSum(m: MovingRegion, r: MovingRegion, pieces: seq<Stretch>, from: real, now: real,
                                    area: real)
    requires Apart(m, r) && m.start == 0.0 && 5.0 <= from && now <= 6.0
    requires Tiles(m, r, pieces, from, now) && FromSweep(m, r, pieces) && Adds(pieces, area)
    ensures area <= 0.0
  {
    if pieces != [] {
      var n := |pieces| - 1;
      var p := pieces[n];
      assert GoodStretch(m, r, p) && Picked(m, r, p);
      StretchWithin(m, r, pieces, from, now, n);
      hide Apart, GoodStretch, Picked, StretchArea;
      ApartArea(m, r, p);
      ApartSum(m, r, pieces[..n], from, p.from, area - StretchArea(p).value);
    }
  }
}
