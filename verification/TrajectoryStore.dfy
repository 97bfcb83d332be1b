/** Trajectories on consecutive fixed-size pages, in one of two layouts, and the reload of a range of samples.
    In the overlapping layout each page starts with the last point of the page before. */
module TrajectoryStore {
  import opened Geometry
  import opened Counting

  /** Where a trajectory's first page is and how many points it has. */
  datatype TrajEntry = TrajEntry(page: nat, npoint: nat)

  datatype Outcome = Loaded(points: seq<Point>) | InvalidPage | PastPage

  function NatMin(a: int, b: int): int { if b < a then b else a }

  function NatMax(a: int, b: int): int { if a < b then b else a }

  // ----- the layouts

  /** Points from the start of one page to the start of the next. */
  function Stride(fp: nat, overlap: bool): nat
    requires fp >= 2
  {
    if overlap then fp - 1 else fp
  }

  function PageCount(n: nat, fp: nat, overlap: bool): nat
    requires fp >= 2 && n >= 1
  {
    if overlap then CeilDiv(n - 1, fp - 1) else CeilDiv(n, fp)
  }

  /** Page `k` of a trajectory. */
  function PageOf(pts: seq<Point>, fp: nat, overlap: bool, k: nat): seq<Point>
    requires fp >= 2
  {
    var from := Times(k, Stride(fp, overlap));
    if from <= |pts| then pts[from..NatMin(from + fp, |pts|)] else []
  }

  function Layout(pts: seq<Point>, fp: nat, overlap: bool, n: nat): seq<seq<Point>>
    requires fp >= 2
  {
    seq(n, k requires 0 <= k < n => PageOf(pts, fp, overlap, k))
  }

  function Times(k: int, s: nat): (r: int)
    ensures k >= 0 ==> r >= 0
    ensures k == 0 ==> r == 0
  {
    k * s
  }

  function Quot(a: nat, b: nat): nat
    requires b >= 1
  {
    a / b
  }

  function Rem(a: nat, b: nat): nat
    requires b >= 1
  {
    a % b
  }

  lemma NextStart(k: int, s: nat)
    ensures Times(k + 1, s) == Times(k, s) + s
  {
  }

  lemma TimesMono(a: int, b: int, s: nat)
    requires a <= b
    ensures Times(a, s) <= Times(b, s)
  {
    MulMono(a, b, s);
  }

  lemma TimesLess(a: int, b: int, s: nat)
    requires Times(a, s) < Times(b, s)
    ensures a < b
  {
    if a >= b { TimesMono(b, a, s); }
  }

  lemma DivFacts(a: nat, b: nat)
    requires b >= 1
    ensures Times(Quot(a, b), b) + Rem(a, b) == a && Rem(a, b) < b
  {
  }

  /** The quotient is known by where its multiple lies. */
  lemma QuotIs(a: nat, b: nat, q: nat, r: nat)
    requires b >= 1 && a == Times(q, b) + r && r < b
    ensures Quot(a, b) == q && Rem(a, b) == r
  {
    DivIs(a, b, q, r);
  }

  lemma CeilFacts(n: nat, b: nat)
    requires b >= 1
    ensures n <= Times(CeilDiv(n, b), b) && (CeilDiv(n, b) == 0 || Times(CeilDiv(n, b) - 1, b) < n)
  {
    CeilDivBounds(n, b);
  }

  lemma CeilIs(n: nat, b: nat, q: nat)
    requires b >= 1 && n <= Times(q, b) && (q == 0 || Times(q - 1, b) < n)
    ensures CeilDiv(n, b) == q
  {
    CeilDivIs(n, b, q);
  }

  /** A page that does not end the trajectory is followed by another; the last one is followed by none. */
  lemma PagesLeft(n: nat, fp: nat, overlap: bool, k: nat)
    requires fp >= 2 && n >= 2 && Times(k, Stride(fp, overlap)) + (if overlap then 1 else 0) < n
    ensures Times(k, Stride(fp, overlap)) + fp >= n ==> PageCount(n, fp, overlap) == k + 1
    ensures Times(k, Stride(fp, overlap)) + fp < n ==>
              Times(k + 1, Stride(fp, overlap)) + (if overlap then 1 else 0) < n
  {
    hide Times, CeilDiv;
    NextStart(k, Stride(fp, overlap));
    if Times(k, Stride(fp, overlap)) + fp >= n {
      if overlap { CeilIs(n - 1, fp - 1, k + 1); } else { CeilIs(n, fp, k + 1); }
    }
  }

  /** Reads the points at `ps` to `pe` of a page; reading beyond its end is an error. */
  method ReadRange(data: seq<Point>, ps: int, pe: int) returns (out: Outcome)
    requires ps >= 0
    ensures out == if ps > pe then Loaded([]) else if pe < |data| then Loaded(data[ps..pe + 1]) else PastPage
  {
    var ptr, points := ps, [];
    while ptr < pe + 1
      invariant ps <= ptr && (ps <= pe ==> ptr <= pe + 1) && (ps > pe ==> points == [])
      invariant ptr <= |data| || points == []
      invariant ps <= pe && ptr <= |data| ==> points == data[ps..ptr]
      invariant ptr > ps ==> ptr <= |data|
    {
      if ptr >= |data| {
        return PastPage;
      }
      points := points + [data[ptr]];
      ptr := ptr + 1;
    }
    return Loaded(points);
  }

  ghost predicate Stored(pages: seq<seq<Point>>, fp: nat, overlap: bool, e: TrajEntry, pts: seq<Point>)
  {
    && fp >= 2 && e.npoint == |pts| >= 2 && e.page + PageCount(|pts|, fp, overlap) <= |pages|
    && forall k :: 0 <= k < PageCount(|pts|, fp, overlap) ==> pages[e.page + k] == PageOf(pts, fp, overlap, k)
  }

  lemma StoredStays(pages: seq<seq<Point>>, more: seq<seq<Point>>, fp: nat, overlap: bool, e: TrajEntry,
                    pts: seq<Point>)
    requires Stored(pages, fp, overlap, e, pts)
    ensures Stored(pages + more, fp, overlap, e, pts)
  {
    hide PageCount, PageOf;
  }

  lemma NewlyStored(pages: seq<seq<Point>>, fp: nat, overlap: bool, pts: seq<Point>)
    requires fp >= 2 && |pts| >= 2
    ensures Stored(pages + Layout(pts, fp, overlap, PageCount(|pts|, fp, overlap)), fp, overlap,
                   TrajEntry(|pages|, |pts|), pts)
  {
    hide PageCount, PageOf;
  }

  lemma LayoutGrows(pts: seq<Point>, fp: nat, overlap: bool, k: nat)
    requires fp >= 2
    ensures Layout(pts, fp, overlap, k + 1) == Layout(pts, fp, overlap, k) + [PageOf(pts, fp, overlap, k)]
  {
    hide PageOf;
  }

  class TrajStore {
    const fp: nat
    const overlap: bool
    var pages: seq<seq<Point>>
    var index: map<int, TrajEntry>
    ghost var trajs: map<int, seq<Point>>

    /** Every indexed trajectory is laid out on its own consecutive pages. */
    ghost predicate Valid()
      reads this
    {
      && fp >= 2 && index.Keys == trajs.Keys
      && forall id :: id in index ==> Stored(pages, fp, overlap, index[id], trajs[id])
    }

    constructor (pageSize: nat, overlap: bool)
      requires pageSize >= 48
      ensures Valid() && fp == pageSize / 24 && this.overlap == overlap && index == map[] && trajs == map[]
    {
      fp, this.overlap := pageSize / 24, overlap;
      pages, index, trajs := [], map[], map[];
    }

    /** Lays a trajectory out on fresh pages. Trajectories of fewer than two points are skipped. For a number that is
        taken the pages are written, but the insertion into the index fails and the earlier trajectory stays. */
    method StoreTraj(id: int, pts: seq<Point>)
      requires Valid()
      modifies this
      ensures Valid()
      ensures |pts| < 2 ==> pages == old(pages) && index == old(index) && trajs == old(trajs)
      ensures |pts| >= 2 ==> pages == old(pages) + Layout(pts, fp, overlap, PageCount(|pts|, fp, overlap))
      ensures |pts| >= 2 && id !in old(index) ==>
                index == old(index)[id := TrajEntry(|old(pages)|, |pts|)] && trajs == old(trajs)[id := pts]
      ensures |pts| >= 2 && id in old(index) ==> index == old(index) && trajs == old(trajs)
    {
      if |pts| < 2 {
        return;
      }
      var firstPage := |pages|;
      WritePages(pts);
      ghost var before := old(pages);
      forall k | k in index
        ensures Stored(pages, fp, overlap, index[k], trajs[k])
      {
        StoredStays(before, Layout(pts, fp, overlap, PageCount(|pts|, fp, overlap)), fp, overlap, index[k], trajs[k]);
      }
      NewlyStored(before, fp, overlap, pts);
      if id !in index {
        index, trajs := index[id := TrajEntry(firstPage, |pts|)], trajs[id := pts];
      }
    }

    /** The page-writing loop: `rem` points are still to be written, from `cur` on. */
    method WritePages(pts: seq<Point>)
      requires fp >= 2 && |pts| >= 2
      modifies `pages
      ensures pages == old(pages) + Layout(pts, fp, overlap, PageCount(|pts|, fp, overlap))
    {
      var rem: int := |pts|;
      var cur := 0;
      ghost var k := 0;
      var s := Stride(fp, overlap);
      while rem > 0
        invariant pages == old(pages) + Layout(pts, fp, overlap, k)
        invariant rem > 0 ==> cur == Times(k, s) && rem == |pts| - cur && (overlap ==> rem >= 2)
        invariant rem <= 0 ==> k == PageCount(|pts|, fp, overlap)
        decreases rem
      {
        PagesLeft(|pts|, fp, overlap, k);
        NextStart(k, s);
        var plen := NatMin(rem, fp);
        var data := [];
        ghost var from := cur;
        for i := 0 to plen
          invariant cur == from + i && data == pts[from..cur]
        {
          data := data + [pts[cur]];
          cur := cur + 1;
        }
        assert data == PageOf(pts, fp, overlap, k);
        hide PageCount, PageOf;
        LayoutGrows(pts, fp, overlap, k);
        hide Layout;
        pages := pages + [data];
        rem := rem - fp;
        if overlap && rem != 0 {
          rem := rem + 1;
          cur := cur - 1;
        }
        k := k + 1;
      }
    }

    /** Reloads the samples `s` to `e`, each cut down to the last sample; `read` are the pages read. The overlapping
        layout returns exactly the range, from the trajectory's own pages, unless it is at the seam; the plain
        layout does exactly if the first point is not the last on its page. */
    method LoadTraj(id: int, s: nat, e: nat) returns (out: Outcome, ghost read: seq<int>)
      requires Valid() && id in index && s <= e
      ensures overlap ==> OverlapAnswer(pages, fp, index[id], trajs[id], Clamp(s, |trajs[id]|), Clamp(e, |trajs[id]|),
                                        out)
      ensures overlap ==> (OwnPages(index[id], fp, true, read)
                           <==> !AtSeam(|trajs[id]|, fp, Clamp(s, |trajs[id]|), Clamp(e, |trajs[id]|)))
      ensures !overlap ==>
                (out == Loaded(trajs[id][Clamp(s, |trajs[id]|)..Clamp(e, |trajs[id]|) + 1])
                 <==> Rem(Clamp(s, |trajs[id]|) + 1, fp) != 0)
      ensures !overlap ==> OwnPages(index[id], fp, false, read)
    {
      var te := index[id];
      assert Stored(pages, fp, overlap, te, trajs[id]);
      assert te.npoint == |trajs[id]| >= 2;
      hide Stored, OverlapAnswer, OwnPages, AtSeam, Rem, PageCount;
      var ms, me := NatMin(te.npoint - 1, s), NatMin(te.npoint - 1, e);
      if overlap {
        out, read := LoadOverlapping(te, ms, me, trajs[id]);
      } else {
        out, read := LoadPlain(te, ms, me, trajs[id]);
      }
    }

    method LoadOverlapping(te: TrajEntry, ms: nat, me: nat, ghost pts: seq<Point>)
      returns (out: Outcome, ghost read: seq<int>)
      requires overlap && Stored(pages, fp, overlap, te, pts) && ms <= me < |pts|
      ensures OverlapAnswer(pages, fp, te, pts, ms, me, out)
      ensures OwnPages(te, fp, true, read) <==> !AtSeam(|pts|, fp, ms, me)
    {
      var first: int, last: int := te.page + Quot(ms, fp - 1), te.page + CeilDiv(me, fp - 1) - 1;
      if first > last { last := last + 1; }
      OverlapRange(|pts|, fp, ms, me, last - te.page);
      var cur, points := Times(Quot(ms, fp - 1), fp - 1), [];
      read := [];
      OverlapStart(pts, fp, ms, cur);
      var i := first;
      hide PageCount, CeilDiv, OverlapState, Times, Quot, Rem, Stored, AtSeam;
      while i <= last
        invariant first <= i <= last + 1 && (forall p :: p in read ==> first <= p < i) && (i > first ==> first in read)
        invariant AtSeam(|pts|, fp, ms, me) && i > last ==> Loaded(points) == SeamOutcome(pages, last)
        invariant i <= last ==> OverlapState(pts, fp, ms, i - te.page, cur, points)
        invariant i > last && !AtSeam(|pts|, fp, ms, me) ==> points == pts[ms..me + 1]
      {
        read := read + [i];
        assert i in read;
        out, cur := ReadOverlapPage(te, ms, me, pts, i, last, cur, points);
        if !out.Loaded? {
          return out, read;
        }
        points := out.points;
        i := i + 1;
      }
      return Loaded(points), read;
    }

    /** One page of the reload, its points added to those read before. */
    method ReadOverlapPage(te: TrajEntry, ms: nat, me: nat, ghost pts: seq<Point>, i: nat, last: nat, cur: int,
                           points: seq<Point>)
      returns (out: Outcome, cur': int)
      requires overlap && Stored(pages, fp, overlap, te, pts) && ms <= me < |pts|
               && te.page + Quot(ms, fp - 1) <= i <= last
      requires Times(last - te.page, fp - 1) <= me <= Times(last - te.page, fp - 1) + (fp - 1)
      requires OverlapState(pts, fp, ms, i - te.page, cur, points)
      requires if AtSeam(|pts|, fp, ms, me) then i - te.page == Quot(ms, fp - 1) == last - te.page
               && Times(last - te.page, fp - 1) == ms
               else last < te.page + PageCount(|pts|, fp, true)
      ensures AtSeam(|pts|, fp, ms, me) ==> out == SeamOutcome(pages, last)
      ensures !AtSeam(|pts|, fp, ms, me) ==> out.Loaded?
      ensures !AtSeam(|pts|, fp, ms, me) && i == last ==> out.points == pts[ms..me + 1]
      ensures !AtSeam(|pts|, fp, ms, me) && i < last ==> OverlapState(pts, fp, ms, i - te.page + 1, cur', out.points)
    {
      hide PageCount, OverlapState, Times, Quot, Rem, PageOf;
      var ps, pe := NatMax(0, ms - cur), NatMin(fp - 1, me - cur);
      if i != last && pe == fp - 1 { pe := pe - 1; }
      cur' := cur + pe + 1;
      if AtSeam(|pts|, fp, ms, me) {
        SeamStep(pts, fp, ms, me, i - te.page, cur, points, ps, pe);
      } else {
        OverlapStep(pts, fp, ms, me, i - te.page, last - te.page, cur, points, ps, pe);
        assert pages[te.page + (i - te.page)] == PageOf(pts, fp, true, i - te.page);
      }
      if i >= |pages| {
        return InvalidPage, cur';
      }
      out := ReadRange(pages[i], ps, pe);
      if out.Loaded? {
        out := Loaded(points + out.points);
      }
    }

    method LoadPlain(te: TrajEntry, ms: nat, me: nat, ghost pts: seq<Point>)
      returns (out: Outcome, ghost read: seq<int>)
      requires !overlap && Stored(pages, fp, overlap, te, pts) && ms <= me < |pts|
      ensures out == Loaded(pts[ms..me + 1]) <==> Rem(ms + 1, fp) != 0
      ensures OwnPages(te, fp, false, read)
      ensures out.Loaded? ==> Consecutive(read, te.page + Quot(ms + 1, fp), te.page + Quot(me, fp) + 1)
    {
      hide PageCount, CeilDiv, PlainState, Times, Quot, Rem, Consecutive;
      var first: int, last: int := te.page + Quot(ms + 1, fp), te.page + CeilDiv(me + 1, fp) - 1;
      ghost var skew := if Rem(ms + 1, fp) == 0 then 1 else 0;
      PlainRange(|pts|, fp, ms, me);
      var cur, points := Times(Quot(ms, fp), fp), [];
      read := [];
      NoneRead(first);
      PlainStart(pts, fp, ms, me, skew, cur);
      var i := first;
      while i <= last
        invariant first <= i <= last + 1 && Consecutive(read, first, i)
        invariant PlainState(pts, fp, ms, me, i - te.page, skew, cur, points)
      {
        var ps, pe := NatMax(0, ms - cur), NatMin(fp - 1, me - cur);
        OneMore(read, first, i);
        read := read + [i];
        PlainStep(pts, fp, ms, me, i - te.page, skew, cur, points, ps, pe);
        assert pages[te.page + (i - te.page)] == PageOf(pts, fp, false, i - te.page);
        out := ReadRange(pages[i], ps, pe);
        if !out.Loaded? {
          OwnRange(te, fp, read, first, i + 1);
          return out, read;
        }
        points := points + out.points;
        cur := cur + fp;
        i := i + 1;
      }
      PlainEnd(pts, fp, ms, me, i - te.page, skew, cur, points);
      OwnRange(te, fp, read, first, i);
      return Loaded(points), read;
    }
  }

  /** `from`, `from` + 1, and so on up to but not `to`. */
  ghost predicate Consecutive(read: seq<int>, from: int, to: int) {
    |read| == to - from && forall k :: 0 <= k < |read| ==> read[k] == from + k
  }

  lemma NoneRead(from: int)
    ensures Consecutive([], from, from)
  {
  }

  lemma OneMore(read: seq<int>, from: int, to: int)
    requires Consecutive(read, from, to)
    ensures Consecutive(read + [to], from, to + 1)
  {
  }

  /** The pages a range of the plain layout spans; the first page is one too far when `ms` ends a page. */
  lemma PlainRange(n: nat, fp: nat, ms: nat, me: nat)
    requires fp >= 2 && ms <= me < n
    ensures CeilDiv(me + 1, fp) - 1 == Quot(me, fp) < PageCount(n, fp, false) && Quot(ms, fp) <= Quot(me, fp)
    ensures Quot(ms + 1, fp) == if Rem(ms + 1, fp) == 0 then Quot(ms, fp) + 1 else Quot(ms, fp)
  {
    hide Times, Quot, Rem, CeilDiv;
    DivFacts(me, fp);
    DivFacts(ms, fp);
    NextStart(Quot(me, fp), fp);
    NextStart(Quot(ms, fp), fp);
    CeilIs(me + 1, fp, Quot(me, fp) + 1);
    CeilFacts(n, fp);
    TimesLess(Quot(me, fp), CeilDiv(n, fp), fp);
    if Quot(ms, fp) > Quot(me, fp) { TimesMono(Quot(me, fp) + 1, Quot(ms, fp), fp); }
    if Rem(ms, fp) == fp - 1 {
      QuotIs(ms + 1, fp, Quot(ms, fp) + 1, 0);
    } else {
      QuotIs(ms + 1, fp, Quot(ms, fp), Rem(ms, fp) + 1);
    }
  }

  /** Before page `i` is read in the plain layout: how many points have been read, and, if reading began on
      the right page, which. */
  ghost predicate PlainState(pts: seq<Point>, fp: nat, ms: nat, me: nat, i: nat, skew: nat, cur: int,
                             points: seq<Point>)
    requires fp >= 2 && ms <= me < |pts|
  {
    && i >= skew && cur == Times(i - skew, fp)
    && |points| == NatMax(ms, NatMin(cur, me + 1)) - ms
    && (skew == 0 ==> points == pts[ms..ms + |points|])
  }

  lemma PlainStart(pts: seq<Point>, fp: nat, ms: nat, me: nat, skew: nat, cur: int)
    requires fp >= 2 && ms <= me < |pts| && cur == Times(Quot(ms, fp), fp)
    ensures PlainState(pts, fp, ms, me, Quot(ms, fp) + skew, skew, cur, [])
  {
    DivFacts(ms, fp);
  }

  /** Appending a stretch of a page to what has been read before it. */
  lemma SliceOn(pts: seq<Point>, cur: nat, end: int, ms: nat, ps: int, pe: int, points: seq<Point>, data: seq<Point>)
    requires cur <= end <= |pts| && data == pts[cur..end] && ms <= |pts| && points == pts[ms..NatMax(ms, cur)]
    requires ps == NatMax(0, ms - cur) && ps <= pe && cur + pe < end
    ensures pe < |data| && points + data[ps..pe + 1] == pts[ms..cur + pe + 1]
  {
    assert data[ps..pe + 1] == pts[cur + ps..cur + pe + 1];
    var at, to := cur + ps, cur + pe + 1;
    assert ms <= at <= to <= |pts| && at == NatMax(ms, cur);
    assert pts[ms..at] + pts[at..to] == pts[ms..to];
  }

  lemma PlainStep(pts: seq<Point>, fp: nat, ms: nat, me: nat, i: nat, skew: nat, cur: int, points: seq<Point>,
                  ps: int, pe: int)
    requires fp >= 2 && ms <= me < |pts| && Quot(ms, fp) <= i - skew && i <= Quot(me, fp) && skew <= 1
    requires PlainState(pts, fp, ms, me, i, skew, cur, points) && ps == NatMax(0, ms - cur)
             && pe == NatMin(fp - 1, me - cur)
    ensures 0 <= ps <= pe
    ensures pe < |PageOf(pts, fp, false, i)| || skew == 1
    ensures pe < |PageOf(pts, fp, false, i)| ==>
              PlainState(pts, fp, ms, me, i + 1, skew, cur + fp, points + PageOf(pts, fp, false, i)[ps..pe + 1])
  {
    hide Times, Quot, Rem, CeilDiv;
    var k := i - skew;
    NextStart(k, fp);
    DivFacts(ms, fp);
    DivFacts(me, fp);
    TimesMono(Quot(ms, fp), k, fp);
    TimesMono(k, Quot(me, fp), fp);
    NextStart(Quot(ms, fp), fp);
    if k > Quot(ms, fp) { TimesMono(Quot(ms, fp) + 1, k, fp); }
    var data := PageOf(pts, fp, false, i);
    if skew == 0 {
      SliceOn(pts, cur, NatMin(cur + fp, |pts|), ms, ps, pe, points, data);
    }
  }

  /** At the end everything has been read, unless reading began one page too far, when a point is missing. */
  lemma PlainEnd(pts: seq<Point>, fp: nat, ms: nat, me: nat, i: nat, skew: nat, cur: int, points: seq<Point>)
    requires fp >= 2 && ms <= me < |pts| && i == Quot(me, fp) + 1
             && PlainState(pts, fp, ms, me, i, skew, cur, points) && skew <= 1
    ensures skew == 0 ==> points == pts[ms..me + 1]
    ensures skew == 1 ==> points != pts[ms..me + 1]
  {
    hide Times, Quot, Rem, CeilDiv;
    DivFacts(me, fp);
    NextStart(Quot(me, fp), fp);
    if skew == 1 { assert |pts[ms..me + 1]| == me + 1 - ms; }
  }

  /** Before page `i` of the trajectory is read: where it starts, and what has been read so far. */
  ghost predicate OverlapState(pts: seq<Point>, fp: nat, ms: nat, i: nat, cur: int, points: seq<Point>)
    requires fp >= 2
  {
    cur == Times(i, fp - 1) && NatMax(ms, cur) <= |pts| && points == pts[ms..NatMax(ms, cur)]
  }

  lemma OverlapStart(pts: seq<Point>, fp: nat, ms: nat, cur: int)
    requires fp >= 2 && ms <= |pts| && cur == Times(Quot(ms, fp - 1), fp - 1)
    ensures OverlapState(pts, fp, ms, Quot(ms, fp - 1), cur, [])
  {
    DivFacts(ms, fp - 1);
  }

  /** Reading one page of the trajectory's own. */
  lemma OverlapStep(pts: seq<Point>, fp: nat, ms: nat, me: nat, i: nat, last: nat, cur: int, points: seq<Point>,
                    ps: int, pe: int)
    requires fp >= 2 && ms <= me < |pts| && Quot(ms, fp - 1) <= i <= last
             && Times(last, fp - 1) <= me <= Times(last, fp - 1) + (fp - 1)
    requires OverlapState(pts, fp, ms, i, cur, points)
    requires ps == NatMax(0, ms - cur)
    requires pe == if i != last && NatMin(fp - 1, me - cur) == fp - 1 then fp - 2 else NatMin(fp - 1, me - cur)
    ensures 0 <= ps <= pe < |PageOf(pts, fp, true, i)|
    ensures var points' := points + PageOf(pts, fp, true, i)[ps..pe + 1];
            if i == last then points' == pts[ms..me + 1] else OverlapState(pts, fp, ms, i + 1, cur + pe + 1, points')
  {
    hide Times, Quot, Rem, CeilDiv;
    var q := fp - 1;
    NextStart(i, q);
    DivFacts(ms, q);
    TimesMono(Quot(ms, q), i, q);
    if i < last { TimesMono(i + 1, last, q); }
    NextStart(Quot(ms, q), q);
    if i > Quot(ms, q) { TimesMono(Quot(ms, q) + 1, i, q); }
    SliceOn(pts, cur, NatMin(cur + fp, |pts|), ms, ps, pe, points, PageOf(pts, fp, true, i));
  }

  /** At the seam just the first point of the page is read. */
  lemma SeamStep(pts: seq<Point>, fp: nat, ms: nat, me: nat, i: nat, cur: int, points: seq<Point>, ps: int, pe: int)
    requires fp >= 2 && ms == me < |pts| && i == Quot(ms, fp - 1) && Times(i, fp - 1) == ms
    requires OverlapState(pts, fp, ms, i, cur, points)
    requires ps == NatMax(0, ms - cur) && pe == NatMin(fp - 1, me - cur)
    ensures ps == pe == 0 && points == []
  {
  }

  function Clamp(s: nat, n: nat): nat
    requires n >= 1
  {
    NatMin(n - 1, s)
  }

  /** The one range the overlapping layout gets wrong: just the last point, when it is also the start of a
      page that was never written. */
  predicate AtSeam(n: nat, fp: nat, ms: nat, me: nat)
    requires fp >= 2
  {
    ms == me == n - 1 && ms > 0 && Rem(ms, fp - 1) == 0
  }

  /** What reading the first point of this page gives, whosever it is. */
  function SeamOutcome(pages: seq<seq<Point>>, next: nat): Outcome {
    if next >= |pages| then InvalidPage else if pages[next] == [] then PastPage else Loaded([pages[next][0]])
  }

  /** Pages of the trajectory itself. */
  ghost predicate OwnPages(te: TrajEntry, fp: nat, overlap: bool, read: seq<int>)
    requires fp >= 2 && te.npoint >= 1
  {
    forall p :: p in read ==> te.page <= p < te.page + PageCount(te.npoint, fp, overlap)
  }

  lemma OwnRange(te: TrajEntry, fp: nat, read: seq<int>, from: int, to: int)
    requires fp >= 2 && te.npoint >= 1 && Consecutive(read, from, to) && te.page <= from
    requires to <= te.page + PageCount(te.npoint, fp, false)
    ensures OwnPages(te, fp, false, read)
  {
    hide PageCount;
    forall p | p in read ensures from <= p < to {
      var k :| 0 <= k < |read| && read[k] == p;
    }
  }

  /** The overlapping layout returns the range unless it is at the seam. There it returns the first point of
      whatever page comes after the trajectory. */
  ghost predicate OverlapAnswer(pages: seq<seq<Point>>, fp: nat, te: TrajEntry, pts: seq<Point>, ms: nat, me: nat,
                                out: Outcome)
    requires fp >= 2 && te.npoint == |pts| >= 1 && ms <= me < |pts|
  {
    out == if AtSeam(|pts|, fp, ms, me) then SeamOutcome(pages, te.page + PageCount(|pts|, fp, true))
        else Loaded(pts[ms..me + 1])
  }

  /** The pages a range of the overlapping layout spans. */
  lemma OverlapRange(n: nat, fp: nat, ms: nat, me: nat, last: int)
    requires fp >= 2 && ms <= me < n && n >= 2
    requires last == if Quot(ms, fp - 1) > CeilDiv(me, fp - 1) - 1 then CeilDiv(me, fp - 1) else CeilDiv(me, fp - 1) - 1
    ensures Quot(ms, fp - 1) <= last && Times(last, fp - 1) <= me <= Times(last, fp - 1) + (fp - 1)
    ensures !AtSeam(n, fp, ms, me) ==> last < PageCount(n, fp, true)
    ensures AtSeam(n, fp, ms, me) ==> Quot(ms, fp - 1) == last == PageCount(n, fp, true) && Times(last, fp - 1) == ms
  {
    hide Times, Quot, Rem, CeilDiv;
    var q := fp - 1;
    var d: int, c: int, p: int := Quot(ms, q), CeilDiv(me, q), PageCount(n, fp, true);
    DivFacts(ms, q);
    CeilFacts(me, q);
    CeilFacts(n - 1, q);
    hide PageCount;
    NextStart(c - 1, q);
    NextStart(c, q);
    if d > c - 1 {
      TimesLess(d, c + 1, q);
      assert ms == me == Times(c, q);
      if me < n - 1 { TimesLess(c, p, q); }
    } else {
      TimesLess(c - 1, p, q);
      TimesMono(d, c - 1, q);
    }
  }
}
