/** The sweep that adds up the area two moving boxes share: an event for every bound that changes hands, a
    piece of time between any two events. */
module KineticSweep {
  import opened Geometry
  import opened KineticLines
  import opened MovingRegions
  import opened SweptArea
  import opened Wrappers

  /** One bound of the shared box. */
  datatype Bound = Bound(dim: nat, high: bool)

  /** At time `t` the bound passes to the box `r`, or to the box the sweep started from. */
  datatype Event = Event(t: real, bound: Bound, toR: bool)

  /** A stretch of time and the shared box on it. */
  datatype Stretch = Stretch(from: real, to: real, x: MovingRegion)

  // ----- which box owns a bound

  function LineOf(m: MovingRegion, b: Bound): Line
    requires m.Shaped() && b.dim < |m.low|
  {
    if b.high then m.HighLine(b.dim) else m.LowLine(b.dim)
  }

  function Owner(m: MovingRegion, r: MovingRegion, ofR: bool): MovingRegion { if ofR then r else m }

  /** How much further in the bound of one box is than that of the other. */
  function Lead(m: MovingRegion, r: MovingRegion, b: Bound, ofR: bool, t: real): real
    requires m.Shaped() && r.Shaped() && b.dim < |m.low| == |r.low|
  {
    var own, other := LineOf(Owner(m, r, ofR), b), LineOf(Owner(m, r, !ofR), b);
    if b.high then Gap(other, own, t) else Gap(own, other, t)
  }

  /** At time `t` the box `x` is the intersection of the two boxes. */
  ghost predicate Shared(m: MovingRegion, r: MovingRegion, x: MovingRegion, t: real)
    requires m.Shaped() && r.Shaped() && x.Shaped() && |x.low| == |m.low| == |r.low|
  {
    forall d :: 0 <= d < |m.low| ==> SharedIn(m, r, x, d, t)
  }

  ghost predicate SharedIn(m: MovingRegion, r: MovingRegion, x: MovingRegion, d: nat, t: real)
    requires m.Shaped() && r.Shaped() && x.Shaped() && d < |x.low| == |m.low| == |r.low|
  {
    && x.LowLine(d).At(t) == Max(m.LowLine(d).At(t), r.LowLine(d).At(t))
    && x.HighLine(d).At(t) == Min(m.HighLine(d).At(t), r.HighLine(d).At(t))
  }

  /** The bound is rightly owned from `now` to `end`, passing to its next owner at its event if it has one. */
  ghost predicate OwnedBy(m: MovingRegion, r: MovingRegion, b: Bound, ofR: bool, pq: seq<Event>, now: real, end: real)
    requires m.Shaped() && r.Shaped() && b.dim < |m.low| == |r.low|
  {
    && (Tied(m, r, b) ==> ofR)
    && (forall e :: e in pq && e.bound == b ==> Passes(m, r, b, ofR, e, now, end))
    && ((forall e :: e in pq ==> e.bound != b) ==> Leads(m, r, b, ofR, now, end))
  }

  ghost predicate Leads(m: MovingRegion, r: MovingRegion, b: Bound, ofR: bool, from: real, to: real)
    requires m.Shaped() && r.Shaped() && b.dim < |m.low| == |r.low|
  {
    forall t :: from <= t <= to ==> Lead(m, r, b, ofR, t) >= 0.0
  }

  ghost predicate Passes(m: MovingRegion, r: MovingRegion, b: Bound, ofR: bool, e: Event, now: real, end: real)
    requires m.Shaped() && r.Shaped() && b.dim < |m.low| == |r.low|
  {
    now <= e.t <= end && Leads(m, r, b, ofR, now, e.t) && Leads(m, r, b, e.toR, e.t, end) && !Tied(m, r, b)
  }

  /** The bound is the same in both boxes at all times; it is then taken from `r`. */
  predicate Tied(m: MovingRegion, r: MovingRegion, b: Bound)
    requires m.Shaped() && r.Shaped() && b.dim < |m.low| == |r.low|
  {
    LineOf(m, b).v == LineOf(r, b).v && Lead(m, r, b, true, 0.0) == 0.0
  }

  lemma TiedAt(m: MovingRegion, r: MovingRegion, b: Bound, t: real)
    requires m.Shaped() && r.Shaped() && b.dim < |m.low| == |r.low| && LineOf(m, b).v == LineOf(r, b).v
    ensures Lead(m, r, b, true, t) == Lead(m, r, b, true, 0.0) && Lead(m, r, b, false, t) == Lead(m, r, b, false, 0.0)
  {
    var z := 0.0;
    GapMoves(LineOf(m, b), LineOf(r, b), z, t);
    GapMoves(LineOf(r, b), LineOf(m, b), z, t);
    TravelSign(LineOf(m, b).v - LineOf(r, b).v, t - z);
    TravelSign(LineOf(r, b).v - LineOf(m, b).v, t - z);
    hide Travel;
  }

  ghost predicate Serves(m: MovingRegion, r: MovingRegion, x: MovingRegion, b: Bound, pq: seq<Event>, now: real,
                         end: real)
    requires m.Shaped() && r.Shaped() && x.Shaped() && b.dim < |x.low| == |m.low| == |r.low|
  {
    exists ofR :: Copies(x, Owner(m, r, ofR), b) && OwnedBy(m, r, b, ofR, pq, now, end)
  }

  /** The bound is taken over as it stands: value and rate, but not the time at which the value holds. */
  ghost predicate Copies(x: MovingRegion, source: MovingRegion, b: Bound)
    requires x.Shaped() && source.Shaped() && b.dim < |x.low| == |source.low|
  {
    LineOf(x, b) == Line(LineOf(source, b).p, LineOf(source, b).v, x.start)
  }

  ghost predicate Pair(m: MovingRegion, r: MovingRegion, x: MovingRegion) {
    m.Shaped() && r.Shaped() && x.Shaped() && |x.low| == |m.low| == |r.low|
  }

  /** Bounds in the order the code plans them. */
  function Index(b: Bound): nat { 2 * b.dim + if b.high then 1 else 0 }

  /** The first `k` bounds of `x` are served, and the queue holds at most one event for each. */
  ghost predicate Sweeping(m: MovingRegion, r: MovingRegion, x: MovingRegion, k: nat, pq: seq<Event>, now: real,
                           end: real)
    requires Pair(m, r, x)
  {
    && now <= end
    && (forall b: Bound :: b.dim < |m.low| && Index(b) < k ==> Serves(m, r, x, b, pq, now, end))
    && (forall e :: e in pq ==> e.bound.dim < |m.low| && Index(e.bound) < k)
    && (forall i, j :: 0 <= i < j < |pq| ==> pq[i].bound != pq[j].bound)
  }

  // ----- starting the sweep

  /** The event of a bound owned by line `own`, if the other line is ahead at the end. */
  lemma BoundPlan(m: MovingRegion, r: MovingRegion, b: Bound, ofR: bool, from: real, to: real)
    requires m.Shaped() && r.Shaped() && b.dim < |m.low| == |r.low| && from <= to && Lead(m, r, b, ofR, from) >= 0.0
    ensures Lead(m, r, b, ofR, to) >= 0.0 ==> Leads(m, r, b, ofR, from, to)
    ensures Lead(m, r, b, ofR, to) < 0.0 ==>
              LineOf(m, b).v != LineOf(r, b).v
              && Passes(m, r, b, ofR, Event(Cross(LineOf(m, b), LineOf(r, b)), b, !ofR), from, to)
  {
    var own, other := LineOf(Owner(m, r, ofR), b), LineOf(Owner(m, r, !ofR), b);
    var front, back := if b.high then other else own, if b.high then own else other;
    if Lead(m, r, b, ofR, to) >= 0.0 {
      hide Gap;
      forall t | from <= t <= to ensures Lead(m, r, b, ofR, t) >= 0.0 { AboveBetween(front, back, from, t, to); }
    } else {
      Falls(front, back, from, to);
      CrossSwap(front, back);
      assert !Tied(m, r, b);
      var c, heir := Cross(front, back), !ofR;
      forall t | c <= t <= to ensures Lead(m, r, b, heir, t) >= 0.0 {
        Opposite(m, r, b, ofR, t);
      }
    }
  }

  lemma Opposite(m: MovingRegion, r: MovingRegion, b: Bound, ofR: bool, t: real)
    requires m.Shaped() && r.Shaped() && b.dim < |m.low| == |r.low|
    ensures Lead(m, r, b, !ofR, t) == -Lead(m, r, b, ofR, t)
  {
    hide Line.At;
  }

  // ----- lifetimes

  /** The bound as it is within the lifetime, and as it stood before or stays after it. */
  function GetBound(m: MovingRegion, b: Bound, t: real): real
    requires m.Shaped() && b.dim < |m.low|
  {
    if t > m.end then LineOf(m, b).At(m.end) else if t < m.start then LineOf(m, b).p else LineOf(m, b).At(t)
  }

  /** That is the bound at the nearest time of the lifetime. */
  lemma BoundIsClamped(m: MovingRegion, b: Bound, t: real)
    requires m.Shaped() && b.dim < |m.low| && m.start <= m.end
    ensures GetBound(m, b, t) == LineOf(m, b).At(Max(m.start, Min(t, m.end)))
  {
    var l, z := LineOf(m, b), 0.0;
    assert l.s == m.start && Travel(l.v, z) == 0.0;
    hide Travel, LineOf;
    assert l.At(m.start) == l.p + Travel(l.v, m.start - m.start);
  }

  lemma InLife(m: MovingRegion, b: Bound, t: real)
    requires m.Shaped() && b.dim < |m.low| && m.start <= t <= m.end
    ensures GetBound(m, b, t) == LineOf(m, b).At(t)
  {
  }

  function WithBound(x: MovingRegion, b: Bound, source: MovingRegion): MovingRegion
    requires x.Shaped() && source.Shaped() && b.dim < |x.low| == |source.low|
  {
    if b.high then x.(high := x.high[b.dim := source.high[b.dim]], vhigh := x.vhigh[b.dim := source.vhigh[b.dim]])
    else x.(low := x.low[b.dim := source.low[b.dim]], vlow := x.vlow[b.dim := source.vlow[b.dim]])
  }

  lemma WithBoundIs(x: MovingRegion, b: Bound, source: MovingRegion)
    requires x.Shaped() && source.Shaped() && b.dim < |x.low| == |source.low|
    ensures WithBound(x, b, source).Shaped() && Copies(WithBound(x, b, source), source, b)
    ensures forall c: Bound :: c != b && c.dim < |x.low| ==> LineOf(WithBound(x, b, source), c) == LineOf(x, c)
    ensures var x' := WithBound(x, b, source); |x'.low| == |x.low| && x'.start == x.start && x'.end == x.end
  {
  }

  /** A bound taken over from a box that starts at another time is off, unless it does not move. */
  lemma CopyNeedsSameStart(x: MovingRegion, b: Bound, source: MovingRegion, t: real)
    requires x.Shaped() && source.Shaped() && b.dim < |x.low| == |source.low| && Copies(x, source, b)
    ensures LineOf(x, b).At(t) == LineOf(source, b).At(t) <==> x.start == source.start || LineOf(source, b).v == 0.0
  {
    var line := LineOf(source, b);
    var v, late, late', apart := line.v, t - x.start, t - source.start, source.start - x.start;
    TravelSplit(v, late, late', apart);
    TravelSign(v, apart);
  }

  /** The owner of a bound at the start, and the event at which it passes on, if it does. */
  method StartBound(m: MovingRegion, r: MovingRegion, b: Bound, tmin: real, tmax: real)
    returns (ofR: bool, e: Option<Event>)
    requires m.Shaped() && r.Shaped() && b.dim < |m.low| == |r.low|
    requires m.start <= tmin && r.start <= tmin <= tmax && tmax <= m.end && tmax <= r.end
    ensures Tied(m, r, b) ==> ofR
    ensures e.None? ==> Leads(m, r, b, ofR, tmin, tmax)
    ensures e.Some? ==> e.value.bound == b && Passes(m, r, b, ofR, e.value, tmin, tmax)
  {
    InLife(m, b, tmin);
    InLife(r, b, tmin);
    InLife(m, b, tmax);
    InLife(r, b, tmax);
    LeadIs(m, r, b, tmin);
    LeadIs(m, r, b, tmax);
    if Tied(m, r, b) { TiedAt(m, r, b, tmin); }
    hide GetBound, Lead, Line.At, LineOf, Leads, Passes, Tied;
    ofR := if b.high then !(GetBound(m, b, tmin) < GetBound(r, b, tmin))
           else !(GetBound(m, b, tmin) > GetBound(r, b, tmin));
    BoundPlan(m, r, b, ofR, tmin, tmax);
    var passes := if ofR == b.high then GetBound(r, b, tmax) > GetBound(m, b, tmax)
        else GetBound(r, b, tmax) < GetBound(m, b, tmax);
    if passes {
      e := Some(Event(Cross(LineOf(m, b), LineOf(r, b)), b, !ofR));
    } else {
      e := None;
    }
  }

  lemma LeadIs(m: MovingRegion, r: MovingRegion, b: Bound, t: real)
    requires m.Shaped() && r.Shaped() && b.dim < |m.low| == |r.low|
    ensures Lead(m, r, b, true, t) == -Lead(m, r, b, false, t)
    ensures Lead(m, r, b, false, t)
         == if b.high then LineOf(r, b).At(t) - LineOf(m, b).At(t) else LineOf(m, b).At(t) - LineOf(r, b).At(t)
  {
    hide Line.At;
  }

  lemma OwnedKeeps(m: MovingRegion, r: MovingRegion, b: Bound, ofR: bool, pq: seq<Event>, pq': seq<Event>, now: real,
                   end: real)
    requires m.Shaped() && r.Shaped() && b.dim < |m.low| == |r.low|
    requires OwnedBy(m, r, b, ofR, pq, now, end)
    requires forall e: Event :: e.bound == b ==> (e in pq' <==> e in pq)
    ensures OwnedBy(m, r, b, ofR, pq', now, end)
  {
    hide Passes, Leads, Tied;
  }

  /** Planning one more bound. */
  lemma PlanBound(m: MovingRegion, r: MovingRegion, x: MovingRegion, k: nat, pq: seq<Event>, now: real, end: real,
                  b: Bound, ofR: bool, e: Option<Event>, x': MovingRegion, pq': seq<Event>)
    requires Pair(m, r, x) && b.dim < |m.low| && k == Index(b)
    requires Sweeping(m, r, x, k, pq, now, end)
    requires Tied(m, r, b) ==> ofR
    requires e.None? ==> Leads(m, r, b, ofR, now, end)
    requires e.Some? ==> e.value.bound == b && Passes(m, r, b, ofR, e.value, now, end)
    requires x' == WithBound(x, b, Owner(m, r, ofR)) && pq' == if e.Some? then pq + [e.value] else pq
    ensures Pair(m, r, x') && x'.start == x.start && x'.end == x.end && Sweeping(m, r, x', k + 1, pq', now, end)
  {
    hide WithBound, LineOf, Copies, Passes, Leads, Serves, Tied, OwnedBy, Index;
    WithBoundIs(x, b, Owner(m, r, ofR));
    assert Pair(m, r, x') && x'.start == x.start && x'.end == x.end;
    hide MovingRegion.Shaped;
    assert forall f :: f in pq ==> f.bound != b;
    QueueGrows(pq, pq', b, e, k, |m.low|);
    BoundServed(m, r, x', b, ofR, pq, pq', now, end, e);
    OthersServed(m, r, x, k, pq, now, end, b, x', pq');
  }

  /** The bound just planned is served. */
  lemma BoundServed(m: MovingRegion, r: MovingRegion, x: MovingRegion, b: Bound, ofR: bool, pq: seq<Event>,
                    pq': seq<Event>, now: real, end: real, e: Option<Event>)
    requires Pair(m, r, x) && b.dim < |m.low| && Copies(x, Owner(m, r, ofR), b)
    requires pq' == (if e.Some? then pq + [e.value] else pq) && (forall f :: f in pq ==> f.bound != b)
    requires Tied(m, r, b) ==> ofR
    requires e.None? ==> Leads(m, r, b, ofR, now, end)
    requires e.Some? ==> e.value.bound == b && Passes(m, r, b, ofR, e.value, now, end)
    ensures Serves(m, r, x, b, pq', now, end)
  {
    hide Leads, Passes, Tied, LineOf, OwnedBy, Copies;
    OwnedAtStart(m, r, b, ofR, pq, pq', now, end, e);
  }

  /** The bounds planned before stay served. */
  lemma OthersServed(m: MovingRegion, r: MovingRegion, x: MovingRegion, k: nat, pq: seq<Event>, now: real, end: real,
                     b: Bound, x': MovingRegion, pq': seq<Event>)
    requires Pair(m, r, x) && Pair(m, r, x') && b.dim < |m.low| && k == Index(b) && Sweeping(m, r, x, k, pq, now, end)
    requires x'.start == x.start && forall c: Bound :: c != b && c.dim < |m.low| ==> LineOf(x', c) == LineOf(x, c)
    requires forall f: Event :: f.bound != b ==> (f in pq' <==> f in pq)
    requires Serves(m, r, x', b, pq', now, end)
    ensures forall c: Bound :: c.dim < |m.low| && Index(c) < k + 1 ==> Serves(m, r, x', c, pq', now, end)
  {
    hide LineOf, Serves;
    forall c: Bound | c.dim < |m.low| && Index(c) < k + 1
      ensures Serves(m, r, x', c, pq', now, end)
    {
      if c != b {
        NextIndex(c, b);
        ServesKeeps(m, r, x, x', c, pq, pq', now, end);
      }
    }
  }

  lemma NextIndex(c: Bound, b: Bound)
    requires Index(c) < Index(b) + 1 && c != b
    ensures Index(c) < Index(b)
  {
  }

  lemma QueueGrows(pq: seq<Event>, pq': seq<Event>, b: Bound, e: Option<Event>, k: nat, n: nat)
    requires pq' == (if e.Some? then pq + [e.value] else pq) && (e.Some? ==> e.value.bound == b)
    requires b.dim < n && k == Index(b) && forall f :: f in pq ==> f.bound != b
    requires forall f :: f in pq ==> f.bound.dim < n && Index(f.bound) < k
    requires forall i, j :: 0 <= i < j < |pq| ==> pq[i].bound != pq[j].bound
    ensures forall f: Event :: f.bound != b ==> (f in pq' <==> f in pq)
    ensures forall f :: f in pq' ==> f.bound.dim < n && Index(f.bound) < k + 1
    ensures forall i, j :: 0 <= i < j < |pq'| ==> pq'[i].bound != pq'[j].bound
  {
  }

  lemma OwnedAtStart(m: MovingRegion, r: MovingRegion, b: Bound, ofR: bool, pq: seq<Event>, pq': seq<Event>,
                     now: real, end: real, e: Option<Event>)
    requires m.Shaped() && r.Shaped() && b.dim < |m.low| == |r.low|
    requires pq' == (if e.Some? then pq + [e.value] else pq) && (forall f :: f in pq ==> f.bound != b)
    requires Tied(m, r, b) ==> ofR
    requires e.None? ==> Leads(m, r, b, ofR, now, end)
    requires e.Some? ==> e.value.bound == b && Passes(m, r, b, ofR, e.value, now, end)
    ensures OwnedBy(m, r, b, ofR, pq', now, end)
  {
    hide Leads, Passes, Tied;
    if e.Some? { assert e.value in pq'; }
  }

  lemma ServesKeeps(m: MovingRegion, r: MovingRegion, x: MovingRegion, x': MovingRegion, c: Bound,
                    pq: seq<Event>, pq': seq<Event>, now: real, end: real)
    requires Pair(m, r, x) && Pair(m, r, x') && c.dim < |m.low| && LineOf(x', c) == LineOf(x, c) && x'.start == x.start
    requires Serves(m, r, x, c, pq, now, end) && forall e: Event :: e.bound == c ==> (e in pq' <==> e in pq)
    ensures Serves(m, r, x', c, pq', now, end)
  {
    var o :| Copies(x, Owner(m, r, o), c) && OwnedBy(m, r, c, o, pq, now, end);
    assert Copies(x', Owner(m, r, o), c);
    hide LineOf, Copies;
    OwnedKeeps(m, r, c, o, pq, pq', now, end);
  }

  /** The points of intersection in all dimensions. */
  method StartSweep(m: MovingRegion, r: MovingRegion, tmin: real, tmax: real) returns (x: MovingRegion, pq: seq<Event>)
    requires m.Shaped() && r.Shaped() && |m.low| == |r.low|
    requires m.start <= tmin && r.start <= tmin <= tmax && tmax <= m.end && tmax <= r.end
    ensures Pair(m, r, x) && x.start == m.start && x.end == m.end
    ensures Sweeping(m, r, x, 2 * |m.low|, pq, tmin, tmax)
  {
    x, pq := m, [];
    hide Sweeping;
    StartEmpty(m, r, tmin, tmax);
    for i := 0 to |m.low|
      invariant Pair(m, r, x) && x.start == m.start && x.end == m.end
      invariant Sweeping(m, r, x, 2 * i, pq, tmin, tmax)
    {
      x, pq := PlanNext(m, r, x, pq, tmin, tmax, Bound(i, false));
      x, pq := PlanNext(m, r, x, pq, tmin, tmax, Bound(i, true));
    }
  }

  lemma StartEmpty(m: MovingRegion, r: MovingRegion, tmin: real, tmax: real)
    requires m.Shaped() && r.Shaped() && |m.low| == |r.low| && tmin <= tmax
    ensures Sweeping(m, r, m, 0, [], tmin, tmax)
  {
  }

  method PlanNext(m: MovingRegion, r: MovingRegion, x: MovingRegion, pq: seq<Event>, tmin: real, tmax: real, b: Bound)
    returns (x': MovingRegion, pq': seq<Event>)
    requires Pair(m, r, x) && x.start == m.start && x.end == m.end && b.dim < |m.low|
    requires m.start <= tmin && r.start <= tmin <= tmax && tmax <= m.end && tmax <= r.end
    requires Sweeping(m, r, x, Index(b), pq, tmin, tmax)
    ensures Pair(m, r, x') && x'.start == m.start && x'.end == m.end
    ensures Sweeping(m, r, x', Index(b) + 1, pq', tmin, tmax)
  {
    hide Sweeping, Passes, Leads, Tied;
    var ofR, e := StartBound(m, r, b, tmin, tmax);
    x' := WithBound(x, b, Owner(m, r, ofR));
    pq' := if e.Some? then pq + [e.value] else pq;
    PlanBound(m, r, x, Index(b), pq, tmin, tmax, b, ofR, e, x', pq');
  }

  // ----- running the sweep

  /** From `from` to `to` the bound of `x` is that of the box that leads, as it stands there. */
  ghost predicate ChosenIn(m: MovingRegion, r: MovingRegion, x: MovingRegion, b: Bound, from: real, to: real)
    requires Pair(m, r, x) && b.dim < |m.low|
  {
    exists ofR :: Copies(x, Owner(m, r, ofR), b) && Leads(m, r, b, ofR, from, to)
  }

  ghost predicate Chosen(m: MovingRegion, r: MovingRegion, x: MovingRegion, from: real, to: real)
    requires Pair(m, r, x)
  {
    forall b: Bound :: b.dim < |m.low| ==> ChosenIn(m, r, x, b, from, to)
  }

  /** As the sweep chooses it: a bound that is the same in both boxes is taken from `r`. */
  ghost predicate PickedIn(m: MovingRegion, r: MovingRegion, x: MovingRegion, b: Bound, from: real, to: real)
    requires Pair(m, r, x) && b.dim < |m.low|
  {
    exists ofR :: Copies(x, Owner(m, r, ofR), b) && Leads(m, r, b, ofR, from, to) && (Tied(m, r, b) ==> ofR)
  }

  /** The box of the stretch is one the sweep makes. */
  ghost predicate Picked(m: MovingRegion, r: MovingRegion, p: Stretch)
    requires m.Shaped() && r.Shaped() && |m.low| == |r.low|
  {
    Pair(m, r, p.x) && p.x.start == m.start
    && forall b: Bound :: b.dim < |m.low| ==> PickedIn(m, r, p.x, b, p.from, p.to)
  }

  /** Until the next event every bound of `x` is rightly chosen. */
  lemma ChosenUntil(m: MovingRegion, r: MovingRegion, x: MovingRegion, pq: seq<Event>, now: real, end: real, u: real)
    requires Pair(m, r, x) && Sweeping(m, r, x, 2 * |m.low|, pq, now, end) && u <= end
    requires forall e :: e in pq ==> u <= e.t
    ensures Chosen(m, r, x, now, u) && (x.start == m.start ==> Picked(m, r, Stretch(now, u, x)))
  {
    forall b: Bound | b.dim < |m.low|
      ensures ChosenIn(m, r, x, b, now, u) && PickedIn(m, r, x, b, now, u)
    {
      assert Serves(m, r, x, b, pq, now, end);
      var o :| Copies(x, Owner(m, r, o), b) && OwnedBy(m, r, b, o, pq, now, end);
      hide LineOf, Lead, Copies, Tied;
      if e :| e in pq && e.bound == b {
        assert Passes(m, r, b, o, e, now, end);
      } else {
        assert Leads(m, r, b, o, now, end);
      }
      assert Leads(m, r, b, o, now, u);
    }
  }

  /** The bound is also right if copied from a box with the same start, or not moving. */
  ghost predicate RightIn(m: MovingRegion, r: MovingRegion, x: MovingRegion, b: Bound, from: real, to: real)
    requires Pair(m, r, x) && b.dim < |m.low|
  {
    exists ofR :: Copies(x, Owner(m, r, ofR), b) && Leads(m, r, b, ofR, from, to)
                  && (x.start == Owner(m, r, ofR).start || LineOf(Owner(m, r, ofR), b).v == 0.0)
  }

  /** The value the intersection has at a bound. */
  function SharedBound(m: MovingRegion, r: MovingRegion, b: Bound, t: real): real
    requires m.Shaped() && r.Shaped() && b.dim < |m.low| == |r.low|
  {
    if b.high then Min(LineOf(m, b).At(t), LineOf(r, b).At(t)) else Max(LineOf(m, b).At(t), LineOf(r, b).At(t))
  }

  lemma LeaderIsShared(m: MovingRegion, r: MovingRegion, b: Bound, ofR: bool, t: real)
    requires m.Shaped() && r.Shaped() && b.dim < |m.low| == |r.low| && Lead(m, r, b, ofR, t) >= 0.0
    ensures LineOf(Owner(m, r, ofR), b).At(t) == SharedBound(m, r, b, t)
  {
    LeadIs(m, r, b, t);
    hide Line.At;
  }

  lemma SharedByBounds(m: MovingRegion, r: MovingRegion, x: MovingRegion, t: real)
    requires Pair(m, r, x)
    ensures Shared(m, r, x, t) <==> forall b: Bound :: b.dim < |m.low| ==> LineOf(x, b).At(t) == SharedBound(m, r, b, t)
  {
    hide Line.At;
    forall d | 0 <= d < |m.low|
      ensures SharedIn(m, r, x, d, t) <==>
                LineOf(x, Bound(d, false)).At(t) == SharedBound(m, r, Bound(d, false), t)
                && LineOf(x, Bound(d, true)).At(t) == SharedBound(m, r, Bound(d, true), t)
    {
    }
    forall b: Bound | b.dim < |m.low|
      ensures Shared(m, r, x, t) ==> LineOf(x, b).At(t) == SharedBound(m, r, b, t)
    {
      assert Shared(m, r, x, t) ==> SharedIn(m, r, x, b.dim, t);
    }
  }

  /** A rightly chosen box is the intersection throughout exactly if every bound is right as copied. */
  lemma SharedIffRight(m: MovingRegion, r: MovingRegion, x: MovingRegion, from: real, to: real)
    requires Pair(m, r, x) && from <= to && Chosen(m, r, x, from, to)
    ensures (forall t :: from <= t <= to ==> Shared(m, r, x, t))
       <==> forall b: Bound :: b.dim < |m.low| ==> RightIn(m, r, x, b, from, to)
  {
    hide Line.At, LineOf, Lead, SharedBound, Shared, Copies;
    if forall b: Bound :: b.dim < |m.low| ==> RightIn(m, r, x, b, from, to) {
      forall t | from <= t <= to
        ensures Shared(m, r, x, t)
      {
        forall b: Bound | b.dim < |m.low|
          ensures LineOf(x, b).At(t) == SharedBound(m, r, b, t)
        {
          assert RightIn(m, r, x, b, from, to);
          var o :| Copies(x, Owner(m, r, o), b) && Leads(m, r, b, o, from, to)
                   && (x.start == Owner(m, r, o).start || LineOf(Owner(m, r, o), b).v == 0.0);
          CopyNeedsSameStart(x, b, Owner(m, r, o), t);
          LeaderIsShared(m, r, b, o, t);
        }
        SharedByBounds(m, r, x, t);
      }
    }
    if forall t :: from <= t <= to ==> Shared(m, r, x, t) {
      forall b: Bound | b.dim < |m.low|
        ensures RightIn(m, r, x, b, from, to)
      {
        assert ChosenIn(m, r, x, b, from, to);
        var o :| Copies(x, Owner(m, r, o), b) && Leads(m, r, b, o, from, to);
        assert Shared(m, r, x, from);
        SharedByBounds(m, r, x, from);
        LeaderIsShared(m, r, b, o, from);
        CopyNeedsSameStart(x, b, Owner(m, r, o), from);
      }
    }
  }

  /** If both boxes start together, or the box is one of them, it is the intersection. */
  lemma ChosenIsShared(m: MovingRegion, r: MovingRegion, x: MovingRegion, from: real, to: real)
    requires Pair(m, r, x) && from <= to && Chosen(m, r, x, from, to) && m.start == r.start == x.start
    ensures forall t :: from <= t <= to ==> Shared(m, r, x, t)
  {
    hide LineOf, Shared, Leads, Copies;
    forall b: Bound | b.dim < |m.low|
      ensures RightIn(m, r, x, b, from, to)
    {
      assert ChosenIn(m, r, x, b, from, to);
    }
    SharedIffRight(m, r, x, from, to);
  }

  lemma OwnedLater(m: MovingRegion, r: MovingRegion, b: Bound, ofR: bool, pq: seq<Event>, pq': seq<Event>, now: real,
                   later: real, end: real)
    requires m.Shaped() && r.Shaped() && b.dim < |m.low| == |r.low| && now <= later <= end
    requires OwnedBy(m, r, b, ofR, pq, now, end)
    requires forall e: Event :: e.bound == b ==> (e in pq' <==> e in pq)
    requires forall e :: e in pq ==> later <= e.t
    ensures OwnedBy(m, r, b, ofR, pq', later, end)
  {
    hide Lead;
  }

  /** Handling the next event. */
  lemma PassBound(m: MovingRegion, r: MovingRegion, x: MovingRegion, pq: seq<Event>, now: real, end: real, i: nat,
                  e: Event, x': MovingRegion, pq': seq<Event>)
    requires Pair(m, r, x) && Sweeping(m, r, x, 2 * |m.low|, pq, now, end)
    requires i < |pq| && e == pq[i] && (forall f :: f in pq ==> e.t <= f.t) && pq' == pq[..i] + pq[i + 1..]
    requires e.bound.dim < |m.low| && x' == WithBound(x, e.bound, Owner(m, r, e.toR))
    ensures now <= e.t <= end
    ensures Pair(m, r, x') && x'.start == x.start && x'.end == x.end && Sweeping(m, r, x', 2 * |m.low|, pq', e.t, end)
  {
    WithBoundIs(x, e.bound, Owner(m, r, e.toR));
    PassesNow(m, r, x, pq, now, end, e);
    assert Pair(m, r, x') && x'.start == x.start && x'.end == x.end;
    hide WithBound, LineOf, Copies, Passes, Leads, Tied;
    forall c: Bound | c.dim < |m.low| && Index(c) < 2 * |m.low|
      ensures Serves(m, r, x', c, pq', e.t, end)
    {
      if c == e.bound {
        assert OwnedBy(m, r, c, e.toR, pq', e.t, end);
      } else {
        assert Serves(m, r, x, c, pq, now, end);
        var o :| Copies(x, Owner(m, r, o), c) && OwnedBy(m, r, c, o, pq, now, end);
        CopyStays(x, x', Owner(m, r, o), c);
        OthersStay(pq, i, pq', c);
        OwnedLater(m, r, c, o, pq, pq', now, e.t, end);
      }
    }
  }

  lemma CopyStays(x: MovingRegion, x': MovingRegion, source: MovingRegion, b: Bound)
    requires x.Shaped() && x'.Shaped() && source.Shaped() && b.dim < |x.low| == |x'.low| == |source.low|
    requires Copies(x, source, b) && LineOf(x', b) == LineOf(x, b) && x'.start == x.start
    ensures Copies(x', source, b)
  {
  }

  lemma PassesNow(m: MovingRegion, r: MovingRegion, x: MovingRegion, pq: seq<Event>, now: real, end: real, e: Event)
    requires Pair(m, r, x) && Sweeping(m, r, x, 2 * |m.low|, pq, now, end) && e in pq && e.bound.dim < |m.low|
    ensures now <= e.t <= end && Leads(m, r, e.bound, e.toR, e.t, end) && !Tied(m, r, e.bound)
  {
    assert Serves(m, r, x, e.bound, pq, now, end);
    var o :| Copies(x, Owner(m, r, o), e.bound) && OwnedBy(m, r, e.bound, o, pq, now, end);
    hide LineOf, Leads, Copies, Tied;
    assert Passes(m, r, e.bound, o, e, now, end);
  }

  lemma OthersStay(pq: seq<Event>, i: nat, pq': seq<Event>, c: Bound)
    requires i < |pq| && pq' == pq[..i] + pq[i + 1..] && pq[i].bound != c
    ensures forall e: Event :: e.bound == c ==> (e in pq' <==> e in pq)
  {
    forall e: Event | e.bound == c && e in pq
      ensures e in pq'
    {
      var k :| 0 <= k < |pq| && pq[k] == e;
      assert if k < i then pq'[k] == e else pq'[k - 1] == e;
    }
  }

  /** The queue's top: an earliest event. */
  method Earliest(pq: seq<Event>) returns (i: nat)
    requires pq != []
    ensures i < |pq| && forall e :: e in pq ==> pq[i].t <= e.t
  {
    i := 0;
    for k := 1 to |pq|
      invariant i < |pq| && forall j :: 0 <= j < k ==> pq[i].t <= pq[j].t
    {
      if pq[k].t < pq[i].t { i := k; }
    }
  }

  /** Stretches that follow each other from `from` to `now`, on each of which the bounds of its box are rightly
      chosen. */
  ghost predicate Tiles(m: MovingRegion, r: MovingRegion, pieces: seq<Stretch>, from: real, now: real)
    requires m.Shaped() && r.Shaped() && |m.low| == |r.low|
  {
    && (forall k :: 0 <= k < |pieces| ==> GoodStretch(m, r, pieces[k]))
    && (forall k :: 0 < k < |pieces| ==> pieces[k].from == pieces[k - 1].to)
    && (if pieces == [] then from == now else pieces[0].from == from && pieces[|pieces| - 1].to == now)
  }

  ghost predicate GoodStretch(m: MovingRegion, r: MovingRegion, p: Stretch)
    requires m.Shaped() && r.Shaped() && |m.low| == |r.low|
  {
    p.from < p.to && Pair(m, r, p.x) && p.x.start <= p.from && p.to <= p.x.end
    && Chosen(m, r, p.x, p.from, p.to)
  }

  /** On each stretch its box is the intersection. */
  ghost predicate Exact(m: MovingRegion, r: MovingRegion, pieces: seq<Stretch>)
    requires m.Shaped() && r.Shaped() && |m.low| == |r.low|
  {
    forall k :: 0 <= k < |pieces| ==> ExactStretch(m, r, pieces[k])
  }

  ghost predicate ExactStretch(m: MovingRegion, r: MovingRegion, p: Stretch)
    requires m.Shaped() && r.Shaped() && |m.low| == |r.low|
  {
    Pair(m, r, p.x) && forall t :: p.from <= t <= p.to ==> Shared(m, r, p.x, t)
  }

  /** The area of a stretch as the code computes it. */
  ghost function StretchArea(p: Stretch): Option<real> {
    if p.x.Shaped() && Max(p.from, p.x.start) <= Min(p.to, p.x.end) then GetAreaInTime(p.x, p.from, p.to) else None
  }

  /** `area` is the sum of the areas of the stretches. */
  ghost predicate Adds(pieces: seq<Stretch>, area: real) {
    if pieces == [] then area == 0.0
    else
      var last := StretchArea(pieces[|pieces| - 1]);
      last.Some? && Adds(pieces[..|pieces| - 1], area - last.value)
  }

  // ----- the sum and the shared volume

  /** How far the intersection of the two boxes extends in a dimension. */
  function SharedExtent(m: MovingRegion, r: MovingRegion, d: nat, t: real): real
    requires m.Shaped() && r.Shaped() && d < |m.low| == |r.low|
  {
    Min(m.HighLine(d).At(t), r.HighLine(d).At(t)) - Max(m.LowLine(d).At(t), r.LowLine(d).At(t))
  }

  /** From `from` to `to` the intersection is at least as wide as `lo` and at most as wide as `hi`. */
  ghost predicate Sized(m: MovingRegion, r: MovingRegion, from: real, to: real, lo: seq<real>, hi: seq<real>)
    requires m.Shaped() && r.Shaped() && |m.low| == |r.low| == |lo| == |hi|
  {
    forall t :: from <= t <= to ==> SizedAt(m, r, t, lo, hi)
  }

  ghost predicate SizedAt(m: MovingRegion, r: MovingRegion, t: real, lo: seq<real>, hi: seq<real>)
    requires m.Shaped() && r.Shaped() && |m.low| == |r.low| == |lo| == |hi|
  {
    forall d :: 0 <= d < |lo| ==> 0.0 <= lo[d] <= SharedExtent(m, r, d, t) <= hi[d]
  }

  lemma VolumeNonneg(m: MovingRegion, r: MovingRegion, from: real, to: real, lo: seq<real>, hi: seq<real>)
    requires m.Shaped() && r.Shaped() && 1 <= |m.low| == |r.low| == |lo| == |hi| <= 3 && from <= to
             && Sized(m, r, from, to, lo, hi)
    ensures Volume(lo) >= 0.0 && Volume(hi) >= 0.0
  {
    var n := |lo|;
    hide SharedExtent;
    assert SizedAt(m, r, from, lo, hi);
    hide Sized;
    if n >= 2 { MulNonneg(lo[0], lo[1]); MulNonneg(hi[0], hi[1]); }
    if n == 3 { MulNonneg(lo[0] * lo[1], lo[2]); MulNonneg(hi[0] * hi[1], hi[2]); }
  }

  lemma StretchExtent(m: MovingRegion, r: MovingRegion, p: Stretch, d: nat, t: real)
    requires m.Shaped() && r.Shaped() && d < |m.low| == |r.low| && GoodStretch(m, r, p) && ExactStretch(m, r, p)
             && p.from <= t <= p.to
    ensures Extent(p.x, d, t) == SharedExtent(m, r, d, t)
  {
    hide Line.At;
    assert Shared(m, r, p.x, t);
    assert SharedIn(m, r, p.x, d, t);
  }

  /** One stretch: between its length times the two volumes, but for the epsilon that may be cut off. */
  lemma StretchBetween(m: MovingRegion, r: MovingRegion, p: Stretch, lo: seq<real>, hi: seq<real>)
    requires m.Shaped() && r.Shaped() && 1 <= |m.low| == |r.low| == |lo| == |hi| <= 3
    requires GoodStretch(m, r, p) && ExactStretch(m, r, p) && Sized(m, r, p.from, p.to, lo, hi)
    ensures StretchArea(p).Some?
    ensures Travel(p.to - p.from - MACHINE_EPSILON, Volume(lo)) <= StretchArea(p).value
    ensures StretchArea(p).value <= Travel(p.to - p.from, Volume(hi))
  {
    VolumeNonneg(m, r, p.from, p.to, lo, hi);
    forall d | 0 <= d < |lo|
      ensures Bounded(lo[d], Extent(p.x, d, p.from), Extent(p.x, d, p.to), hi[d])
    {
      hide Extent, SharedExtent, GoodStretch, ExactStretch;
      assert SizedAt(m, r, p.from, lo, hi) && SizedAt(m, r, p.to, lo, hi);
      StretchExtent(m, r, p, d, p.from);
      StretchExtent(m, r, p, d, p.to);
    }
    assert Max(p.from, p.x.start) == p.from && Min(p.to, p.x.end) == p.to;
    hide Sized, GoodStretch, ExactStretch, Bounded, Extent, Volume;
    AreaBetween(p.x, p.from, p.to, lo, hi);
    hide Travel, GetAreaInTime;
    var h, e, v, v' := p.to - p.from, MACHINE_EPSILON, Volume(lo), Volume(hi);
    CutTravel(h, e, v, v');
  }

  lemma CutTravel(h: real, e: real, v: real, v': real)
    requires h >= 0.0 && e >= 0.0 && v >= 0.0 && v' >= 0.0
    ensures Travel(h - e, v) <= Travel(h, v) && Travel(h, v') >= 0.0 && (h <= e ==> Travel(h - e, v) <= 0.0)
  {
    MulLe(v, h - e, h);
    MulNonneg(h, v');
    if h <= e { MulNonneg(e - h, v); }
  }

  /** The time up to `now` less one machine epsilon for each stretch. */
  function Counted(from: real, now: real, n: nat): real { now - from - n as real * MACHINE_EPSILON }

  /** The sum is the shared volume spread over the contact interval: it lies between the time that counts, times the
      least shared volume, and the whole time times the greatest. */
  lemma {:induction false} SumBetween(m: MovingRegion, r: MovingRegion, pieces: seq<Stretch>, from: real, now: real,
                                      area: real, lo: seq<real>, hi: seq<real>)
    requires m.Shaped() && r.Shaped() && 1 <= |m.low| == |r.low| == |lo| == |hi| <= 3
    requires Tiles(m, r, pieces, from, now) && Exact(m, r, pieces) && Adds(pieces, area)
             && Sized(m, r, from, now, lo, hi)
    ensures from <= now && Travel(Counted(from, now, |pieces|), Volume(lo)) <= area <= Travel(now - from, Volume(hi))
    decreases |pieces|
  {
    NoTiles(m, r, pieces, from, now);
    if pieces == [] {
      TravelSign(0.0, Volume(lo));
      TravelSign(0.0, Volume(hi));
      assert Counted(from, now, 0) == 0.0;
    } else {
      var n := |pieces| - 1;
      var p := pieces[n];
      var last := StretchArea(p);
      assert GoodStretch(m, r, p) && p.to == now;
      assert Tiles(m, r, pieces[..n], from, p.from);
      NoTiles(m, r, pieces[..n], from, p.from);
      SizedPart(m, r, from, now, p.from, lo, hi);
      assert ExactStretch(m, r, p) && Exact(m, r, pieces[..n]);
      hide Tiles, GoodStretch, Exact, ExactStretch, Sized, Volume, StretchArea, Travel;
      StretchBetween(m, r, p, lo, hi);
      SumBetween(m, r, pieces[..n], from, p.from, area - last.value, lo, hi);
      CountedSplit(from, p.from, now, n, Volume(lo));
      TravelAdds(p.from - from, now - p.from, now - from, Volume(hi));
    }
  }

  lemma {:induction false} NoTiles(m: MovingRegion, r: MovingRegion, pieces: seq<Stretch>, from: real, now: real)
    requires m.Shaped() && r.Shaped() && |m.low| == |r.low| && Tiles(m, r, pieces, from, now)
    ensures from <= now && (pieces != [] ==> from < now)
  {
    hide Shared, Pair;
    if pieces != [] {
      var n := |pieces| - 1;
      assert GoodStretch(m, r, pieces[n]);
      NoTiles(m, r, pieces[..n], from, pieces[n].from);
    }
  }

  lemma SizedPart(m: MovingRegion, r: MovingRegion, from: real, to: real, mid: real, lo: seq<real>, hi: seq<real>)
    requires m.Shaped() && r.Shaped() && |m.low| == |r.low| == |lo| == |hi|
    requires from <= mid <= to && Sized(m, r, from, to, lo, hi)
    ensures Sized(m, r, from, mid, lo, hi) && Sized(m, r, mid, to, lo, hi)
  {
    hide SizedAt;
  }

  lemma TravelAdds(a: real, b: real, c: real, v: real)
    requires c == a + b
    ensures Travel(c, v) == Travel(a, v) + Travel(b, v)
  {
  }

  lemma CountedSplit(from: real, mid: real, now: real, n: nat, v: real)
    ensures Travel(Counted(from, now, n + 1), v)
            == Travel(Counted(from, mid, n), v) + Travel(now - mid - MACHINE_EPSILON, v)
  {
    var a, b, c := Counted(from, mid, n), now - mid - MACHINE_EPSILON, Counted(from, now, n + 1);
    assert c == a + b by {
      assert (n + 1) as real * MACHINE_EPSILON == n as real * MACHINE_EPSILON + MACHINE_EPSILON;
    }
    TravelAdds(a, b, c, v);
  }

  lemma AddStretch(m: MovingRegion, r: MovingRegion, pieces: seq<Stretch>, from: real, now: real, area: real,
                   p: Stretch)
    requires m.Shaped() && r.Shaped() && |m.low| == |r.low|
    requires Tiles(m, r, pieces, from, now) && Adds(pieces, area) && GoodStretch(m, r, p) && p.from == now
    requires StretchArea(p).Some?
    ensures Tiles(m, r, pieces + [p], from, p.to) && Adds(pieces + [p], area + StretchArea(p).value)
  {
    hide GoodStretch, StretchArea;
    assert (pieces + [p])[..|pieces|] == pieces;
  }

  datatype Answer = WrongDimensions | NotSupported | Area(value: real)

  /** Adds the piece up to `u`, if it has any length. */
  method Collect(m: MovingRegion, r: MovingRegion, x: MovingRegion, from: real, tmin: real, u: real, area: real,
                 ghost pieces: seq<Stretch>, ghost pq: seq<Event>, ghost to: real)
    returns (ok: bool, area': real, ghost pieces': seq<Stretch>)
    requires Pair(m, r, x) && x.start <= tmin <= u <= to && u <= x.end && Sweeping(m, r, x, 2 * |m.low|, pq, tmin, to)
    requires forall e :: e in pq ==> u <= e.t
    requires Tiles(m, r, pieces, from, tmin) && Adds(pieces, area) && FromSweep(m, r, pieces) && x.start == m.start
    ensures !ok ==> |m.low| == 0 || |m.low| > 3
    ensures ok ==> Tiles(m, r, pieces', from, u) && Adds(pieces', area') && FromSweep(m, r, pieces')
  {
    ok, area', pieces' := true, area, pieces;
    if u > tmin {
      ghost var s := Stretch(tmin, u, x);
      hide Tiles, Adds, Sweeping;
      ChosenUntil(m, r, x, pq, tmin, to, u);
      hide Chosen, Picked;
      var piece := GetAreaInTime(x, tmin, u);
      assert piece == StretchArea(s);
      if piece.None? {
        return false, area, pieces;
      }
      AddStretch(m, r, pieces, from, tmin, area, s);
      area', pieces' := area + piece.value, pieces + [s];
    }
  }

  /** The sweep over a contact interval. */
  method Sweep(m: MovingRegion, r: MovingRegion, from: real, to: real) returns (a: Answer, ghost pieces: seq<Stretch>)
    requires m.Shaped() && r.Shaped() && |m.low| == |r.low|
    requires m.start <= from && r.start <= from <= to && to <= m.end && to <= r.end
    ensures !a.WrongDimensions? && (a.NotSupported? ==> |m.low| == 0 || |m.low| > 3)
    ensures a.Area? ==> Tiles(m, r, pieces, from, to) && Adds(pieces, a.value) && FromSweep(m, r, pieces)
  {
    var x, pq := StartSweep(m, r, from, to);
    var area, tmin, ok := 0.0, from, true;
    pieces := [];
    hide Sweeping, GoodStretch;
    assert Tiles(m, r, [], from, from) && Adds([], 0.0);
    hide Tiles, Adds;
    while pq != []
      invariant Pair(m, r, x) && x.start == m.start && x.end == m.end && from <= tmin <= to
      invariant Sweeping(m, r, x, 2 * |m.low|, pq, tmin, to)
      invariant Tiles(m, r, pieces, from, tmin) && Adds(pieces, area) && FromSweep(m, r, pieces)
      decreases |pq|
    {
      var i := Earliest(pq);
      var c := pq[i];
      EventInRange(m, r, x, pq, tmin, to, c);
      ok, area, pieces := Collect(m, r, x, from, tmin, c.t, area, pieces, pq, to);
      if !ok {
        return NotSupported, [];
      }
      var x', pq' := WithBound(x, c.bound, Owner(m, r, c.toR)), pq[..i] + pq[i + 1..];
      PassBound(m, r, x, pq, tmin, to, i, c, x', pq');
      x, pq, tmin := x', pq', c.t;
    }
    ok, area, pieces := Collect(m, r, x, from, tmin, to, area, pieces, pq, to);
    return if ok then Area(area) else NotSupported, pieces;
  }

  lemma EventInRange(m: MovingRegion, r: MovingRegion, x: MovingRegion, pq: seq<Event>, now: real, end: real, e: Event)
    requires Pair(m, r, x) && Sweeping(m, r, x, 2 * |m.low|, pq, now, end) && e in pq
    ensures e.bound.dim < |m.low| && now <= e.t <= end
  {
    assert e.bound.dim < |m.low|;
    PassesNow(m, r, x, pq, now, end, e);
  }

  /** The boxes of the stretches are made by the sweep. */
  ghost predicate FromSweep(m: MovingRegion, r: MovingRegion, pieces: seq<Stretch>)
    requires m.Shaped() && r.Shaped() && |m.low| == |r.low|
  {
    forall k :: 0 <= k < |pieces| ==> Picked(m, r, pieces[k])
  }
}
