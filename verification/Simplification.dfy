/** Simplification by the largest deviation from a straight motion, and the segmenters built on it and on
    point counts. */
module Simplification {
  import opened Geometry
  import opened Segmenters
  import opened Wrappers

  function Distance(sqrt: real -> real, p: Point, q: Point): real { sqrt(DistSq(p, q)) }

  /** How far point `c` is from where a straight motion from point `a` to point `b` would be at that time. */
  function Deviation(sqrt: real -> real, pts: seq<Point>, a: nat, b: nat, c: nat): real
    requires a < |pts| && b < |pts| && c < |pts|
  {
    Distance(sqrt, MakeMid(pts[a], pts[b], pts[c].t), pts[c])
  }

  /** ... from the motion between the two ends. */
  function Bulge(sqrt: real -> real, pts: seq<Point>, c: nat): real
    requires c < |pts|
  {
    Deviation(sqrt, pts, 0, |pts| - 1, c)
  }

  /** The first inner point with the greatest deviation; index 0 and -1 if there is none. */
  method FindMaximumDistance(sqrt: real -> real, pts: seq<Point>) returns (index: nat, mdist: real)
    requires IsSqrt(sqrt) && pts != []
    ensures |pts| < 3 ==> index == 0 && mdist == -1.0
    ensures |pts| >= 3 ==> 0 < index < |pts| - 1 && mdist == Bulge(sqrt, pts, index) >= 0.0
    ensures forall c :: 0 < c < |pts| - 1 ==> Bulge(sqrt, pts, c) <= mdist
    ensures forall c :: 0 < c < index ==> Bulge(sqrt, pts, c) < mdist
  {
    index, mdist := 0, -1.0;
    var i := 1;
    while i < |pts| - 1
      invariant 1 <= i <= |pts| && (|pts| >= 2 ==> i <= |pts| - 1)
      invariant if i == 1 then index == 0 && mdist == -1.0
                else 0 < index < i && mdist == Bulge(sqrt, pts, index) >= 0.0
      invariant forall c :: 0 < c < i && c < |pts| ==> Bulge(sqrt, pts, c) <= mdist
      invariant forall c :: 0 < c < index ==> Bulge(sqrt, pts, c) < mdist
    {
      hide MakeMid, DistSq, Sq;
      var dist := Distance(sqrt, MakeMid(pts[0], pts[|pts| - 1], pts[i].t), pts[i]);
      assert dist == Bulge(sqrt, pts, i);
      assert dist >= 0.0;
      if dist > mdist {
        index, mdist := i, dist;
      }
      i := i + 1;
    }
  }

  // ----- dropping points

  /** `out` consists of the points at the indices `kept`, both ends among them. */
  ghost predicate Keeps(pts: seq<Point>, out: seq<Point>, kept: seq<nat>) {
    && |kept| == |out| >= 1 && kept[0] == 0 && kept[|kept| - 1] == |pts| - 1
    && (forall k :: 0 < k < |kept| ==> kept[k - 1] < kept[k])
    && (forall k :: 0 <= k < |kept| ==> kept[k] < |pts| && out[k] == pts[kept[k]])
  }

  /** Every point between `a` and `b` is closer than `epsilon` to the straight motion between them. */
  ghost predicate NearBetween(sqrt: real -> real, pts: seq<Point>, a: nat, b: nat, epsilon: real) {
    a < |pts| && b < |pts| && forall c :: a < c < b ==> Deviation(sqrt, pts, a, b, c) < epsilon
  }

  /** Point `c` is at least `epsilon` off the straight motion between some two points around it. */
  ghost predicate Needed(sqrt: real -> real, pts: seq<Point>, c: nat, epsilon: real) {
    exists a: nat, b: nat :: a < c < b < |pts| && Deviation(sqrt, pts, a, b, c) >= epsilon
  }

  /** Dropped points are near, and no inner point is kept without need. */
  ghost predicate Simplifies(sqrt: real -> real, pts: seq<Point>, epsilon: real, out: seq<Point>, kept: seq<nat>) {
    && Keeps(pts, out, kept)
    && (forall k :: 0 < k < |kept| ==> NearBetween(sqrt, pts, kept[k - 1], kept[k], epsilon))
    && (forall k :: 0 < k < |kept| - 1 ==> Needed(sqrt, pts, kept[k], epsilon))
  }

  function Shift(kept: seq<nat>, n: nat): seq<nat> {
    seq(|kept|, k requires 0 <= k < |kept| => kept[k] + n)
  }

  lemma KeepsJoin(pts: seq<Point>, index: nat, out1: seq<Point>, kept1: seq<nat>, out2: seq<Point>, kept2: seq<nat>)
    requires 0 < index < |pts| - 1
    requires Keeps(pts[..index + 1], out1, kept1) && Keeps(pts[index..], out2, kept2)
    ensures Keeps(pts, out1[..|out1| - 1] + out2, kept1[..|kept1| - 1] + Shift(kept2, index))
  {
    var m, out, kept := |kept1| - 1, out1[..|out1| - 1] + out2, kept1[..|kept1| - 1] + Shift(kept2, index);
    forall k | 0 <= k < |kept|
      ensures kept[k] < |pts| && out[k] == pts[kept[k]] && (0 < k ==> kept[k - 1] < kept[k])
    {
      if k < m {
        assert kept[k] == kept1[k] && out[k] == out1[k];
      } else {
        assert kept[k] == kept2[k - m] + index && out[k] == out2[k - m];
        assert k == m > 0 ==> kept[k - 1] == kept1[m - 1] < kept1[m] == index;
      }
    }
  }

  lemma NearPrefix(sqrt: real -> real, pts: seq<Point>, n: nat, a: nat, b: nat, epsilon: real)
    requires n <= |pts| && NearBetween(sqrt, pts[..n], a, b, epsilon)
    ensures NearBetween(sqrt, pts, a, b, epsilon)
  {
    hide Distance, MakeMid;
    forall c | a < c < b
      ensures Deviation(sqrt, pts, a, b, c) < epsilon
    {
      assert Deviation(sqrt, pts[..n], a, b, c) == Deviation(sqrt, pts, a, b, c);
    }
  }

  lemma NearSuffix(sqrt: real -> real, pts: seq<Point>, n: nat, a: nat, b: nat, epsilon: real)
    requires n <= |pts| && NearBetween(sqrt, pts[n..], a, b, epsilon)
    ensures NearBetween(sqrt, pts, a + n, b + n, epsilon)
  {
    hide Distance, MakeMid;
    var a', b' := a + n, b + n;
    forall c | a' < c < b'
      ensures Deviation(sqrt, pts, a', b', c) < epsilon
    {
      assert Deviation(sqrt, pts[n..], a, b, c - n) == Deviation(sqrt, pts, a', b', c);
    }
  }

  lemma NeededPrefix(sqrt: real -> real, pts: seq<Point>, n: nat, c: nat, epsilon: real)
    requires n <= |pts| && Needed(sqrt, pts[..n], c, epsilon)
    ensures Needed(sqrt, pts, c, epsilon)
  {
    hide Distance, MakeMid;
    var a: nat, b: nat :| a < c < b < n && Deviation(sqrt, pts[..n], a, b, c) >= epsilon;
    assert Deviation(sqrt, pts[..n], a, b, c) == Deviation(sqrt, pts, a, b, c);
  }

  lemma NeededSuffix(sqrt: real -> real, pts: seq<Point>, n: nat, c: nat, epsilon: real)
    requires n <= |pts| && Needed(sqrt, pts[n..], c, epsilon)
    ensures Needed(sqrt, pts, c + n, epsilon)
  {
    hide Distance, MakeMid;
    var a: nat, b: nat :| a < c < b < |pts| - n && Deviation(sqrt, pts[n..], a, b, c) >= epsilon;
    var a', b', c' := a + n, b + n, c + n;
    assert Deviation(sqrt, pts[n..], a, b, c) == Deviation(sqrt, pts, a', b', c');
  }

  lemma NeededJoin(sqrt: real -> real, pts: seq<Point>, epsilon: real, index: nat, kept1: seq<nat>, kept2: seq<nat>)
    requires 0 < index < |pts| - 1 && Needed(sqrt, pts, index, epsilon) && kept1 != [] && kept2 != [] && kept2[0] == 0
    requires forall k :: 0 < k < |kept1| - 1 ==> Needed(sqrt, pts[..index + 1], kept1[k], epsilon)
    requires forall k :: 0 < k < |kept2| - 1 ==> Needed(sqrt, pts[index..], kept2[k], epsilon)
    ensures var kept := kept1[..|kept1| - 1] + Shift(kept2, index);
            forall k :: 0 < k < |kept| - 1 ==> Needed(sqrt, pts, kept[k], epsilon)
  {
    var m, kept := |kept1| - 1, kept1[..|kept1| - 1] + Shift(kept2, index);
    hide Needed;
    forall k | 0 < k < |kept| - 1
      ensures Needed(sqrt, pts, kept[k], epsilon)
    {
      if k < m {
        assert kept[k] == kept1[k];
        NeededPrefix(sqrt, pts, index + 1, kept1[k], epsilon);
      } else {
        assert kept[k] == kept2[k - m] + index;
        if k > m { NeededSuffix(sqrt, pts, index, kept2[k - m], epsilon); }
      }
    }
  }

  lemma NearJoin(sqrt: real -> real, pts: seq<Point>, epsilon: real, index: nat, kept1: seq<nat>, kept2: seq<nat>)
    requires index < |pts| && kept1 != [] && kept2 != [] && kept2[0] == 0 && kept1[|kept1| - 1] == index
    requires forall k :: 0 < k < |kept1| ==> NearBetween(sqrt, pts[..index + 1], kept1[k - 1], kept1[k], epsilon)
    requires forall k :: 0 < k < |kept2| ==> NearBetween(sqrt, pts[index..], kept2[k - 1], kept2[k], epsilon)
    ensures var kept := kept1[..|kept1| - 1] + Shift(kept2, index);
            forall k :: 0 < k < |kept| ==> NearBetween(sqrt, pts, kept[k - 1], kept[k], epsilon)
  {
    var m, kept := |kept1| - 1, kept1[..|kept1| - 1] + Shift(kept2, index);
    hide NearBetween;
    forall k | 0 < k < |kept|
      ensures NearBetween(sqrt, pts, kept[k - 1], kept[k], epsilon)
    {
      if k <= m {
        assert kept[k - 1] == kept1[k - 1] && kept[k] == kept1[k];
        NearPrefix(sqrt, pts, index + 1, kept1[k - 1], kept1[k], epsilon);
      } else {
        assert kept[k - 1] == kept2[k - 1 - m] + index && kept[k] == kept2[k - m] + index;
        NearSuffix(sqrt, pts, index, kept2[k - 1 - m], kept2[k - m], epsilon);
      }
    }
  }

  lemma SimplifiesJoin(sqrt: real -> real, pts: seq<Point>, epsilon: real, index: nat,
                       out1: seq<Point>, kept1: seq<nat>, out2: seq<Point>, kept2: seq<nat>)
    requires 0 < index < |pts| - 1
    requires Simplifies(sqrt, pts[..index + 1], epsilon, out1, kept1)
             && Simplifies(sqrt, pts[index..], epsilon, out2, kept2)
    requires Bulge(sqrt, pts, index) >= epsilon
    ensures Simplifies(sqrt, pts, epsilon, out1[..|out1| - 1] + out2, kept1[..|kept1| - 1] + Shift(kept2, index))
  {
    KeepsJoin(pts, index, out1, kept1, out2, kept2);
    hide NearBetween, Needed;
    BulgeNeeded(sqrt, pts, index, epsilon);
    NeededJoin(sqrt, pts, epsilon, index, kept1, kept2);
    NearJoin(sqrt, pts, epsilon, index, kept1, kept2);
  }

  lemma BulgeNeeded(sqrt: real -> real, pts: seq<Point>, c: nat, epsilon: real)
    requires 0 < c < |pts| - 1 && Bulge(sqrt, pts, c) >= epsilon
    ensures Needed(sqrt, pts, c, epsilon)
  {
    hide Distance, MakeMid;
    var last := |pts| - 1;
    assert Deviation(sqrt, pts, 0, last, c) >= epsilon;
  }

  lemma NearEnds(sqrt: real -> real, pts: seq<Point>, epsilon: real)
    requires pts != [] && forall c :: 0 < c < |pts| - 1 ==> Bulge(sqrt, pts, c) < epsilon
    ensures NearBetween(sqrt, pts, 0, |pts| - 1, epsilon)
  {
    hide Distance;
    var last := |pts| - 1;
    forall c | 0 < c < last
      ensures Deviation(sqrt, pts, 0, last, c) < epsilon
    {
      assert Bulge(sqrt, pts, c) < epsilon;
    }
  }

  /** Drops every point that straight motion between kept neighbours explains to within `epsilon`, and keeps no
      inner point that no such motion misses by that much. */
  method SimplifyWithRDP(sqrt: real -> real, pts: seq<Point>, epsilon: real)
    returns (out: seq<Point>, ghost kept: seq<nat>)
    requires IsSqrt(sqrt)
    ensures pts == [] ==> out == []
    ensures pts != [] ==> Simplifies(sqrt, pts, epsilon, out, kept)
    decreases |pts|
  {
    if |pts| < 3 {
      return pts, seq(|pts|, k => k);
    }
    hide IsSqrt;
    var index, mdist := FindMaximumDistance(sqrt, pts);
    if mdist >= epsilon {
      ghost var kept1, kept2;
      var r1, r2;
      r1, kept1 := SimplifyWithRDP(sqrt, pts[..index + 1], epsilon);
      r2, kept2 := SimplifyWithRDP(sqrt, pts[index..], epsilon);
      SimplifiesJoin(sqrt, pts, epsilon, index, r1, kept1, r2, kept2);
      return r1[..|r1| - 1] + r2, kept1[..|kept1| - 1] + Shift(kept2, index);
    }
    NearEnds(sqrt, pts, epsilon);
    return [pts[0], pts[|pts| - 1]], [0, |pts| - 1];
  }

  // ----- splitting into parts

  /** The parts of `pts` between consecutive cuts, sharing the cut points. */
  ghost predicate Parts(pts: seq<Point>, paths: seq<seq<Point>>, cuts: seq<nat>) {
    && |cuts| == |paths| + 1 >= 2 && cuts[0] == 0 && cuts[|paths|] == |pts| - 1
    && forall k :: 0 <= k < |paths| ==> Part(pts, paths[k], cuts[k], cuts[k + 1])
  }

  ghost predicate Part(pts: seq<Point>, path: seq<Point>, a: nat, b: nat) {
    a < b < |pts| && path == pts[a..b + 1]
  }

  lemma PartsSplit(pts: seq<Point>, paths: seq<seq<Point>>, cuts: seq<nat>, k: nat, place: nat)
    requires Parts(pts, paths, cuts) && k < |paths| && 0 < place < |paths[k]| - 1
    ensures Parts(pts, paths[..k] + [paths[k][..place + 1], paths[k][place..]] + paths[k + 1..],
                  cuts[..k + 1] + [cuts[k] + place] + cuts[k + 1..])
  {
    var paths', cuts' := paths[..k] + [paths[k][..place + 1], paths[k][place..]] + paths[k + 1..],
                         cuts[..k + 1] + [cuts[k] + place] + cuts[k + 1..];
    assert Part(pts, paths[k], cuts[k], cuts[k + 1]);
    assert Part(pts, paths[k][..place + 1], cuts[k], cuts[k] + place);
    assert Part(pts, paths[k][place..], cuts[k] + place, cuts[k + 1]);
    hide Part;
    forall j | 0 <= j < |paths'|
      ensures Part(pts, paths'[j], cuts'[j], cuts'[j + 1])
    {
      if j < k {
        assert paths'[j] == paths[j] && cuts'[j] == cuts[j] && cuts'[j + 1] == cuts[j + 1];
      } else if j > k + 1 {
        assert paths'[j] == paths[j - 1] && cuts'[j] == cuts[j - 1] && cuts'[j + 1] == cuts[j];
      }
    }
  }

  lemma PartsNonempty(pts: seq<Point>, paths: seq<seq<Point>>, cuts: seq<nat>)
    requires Parts(pts, paths, cuts)
    ensures forall k :: 0 <= k < |paths| ==> paths[k] != []
  {
    forall k | 0 <= k < |paths|
      ensures paths[k] != []
    {
      assert Part(pts, paths[k], cuts[k], cuts[k + 1]);
    }
  }

  /** All points of a path are exactly on the straight motion between its ends. */
  ghost predicate Exact(sqrt: real -> real, path: seq<Point>) {
    forall c :: 0 < c < |path| - 1 ==> Bulge(sqrt, path, c) == 0.0
  }

  /** Inner point `c` of path `k` comes before point `place` of path `index`. */
  predicate Before(paths: seq<seq<Point>>, k: int, c: int, index: nat, place: nat) {
    0 <= k < |paths| && 0 < c < |paths[k]| - 1 && (k < index || (k == index && c < place))
  }

  /** The first path with the greatest deviation, and the first point where it is; 0 if none deviates at all. */
  method WorstPath(sqrt: real -> real, paths: seq<seq<Point>>) returns (pathIndex: nat, place: nat, mdist: real)
    requires IsSqrt(sqrt) && paths != [] && forall k :: 0 <= k < |paths| ==> paths[k] != []
    ensures pathIndex < |paths| && mdist >= 0.0
    ensures mdist > 0.0 ==> 0 < place < |paths[pathIndex]| - 1 && mdist == Bulge(sqrt, paths[pathIndex], place)
    ensures forall k, c :: 0 <= k < |paths| && 0 < c < |paths[k]| - 1 ==> Bulge(sqrt, paths[k], c) <= mdist
    ensures mdist > 0.0 ==> forall k, c :: Before(paths, k, c, pathIndex, place) ==> Bulge(sqrt, paths[k], c) < mdist
    ensures mdist == 0.0 ==> forall k :: 0 <= k < |paths| ==> Exact(sqrt, paths[k])
  {
    pathIndex, place, mdist := 0, 0, 0.0;
    hide Bulge;
    for i := 0 to |paths|
      invariant pathIndex < |paths| && mdist >= 0.0
      invariant mdist > 0.0 ==> 0 < place < |paths[pathIndex]| - 1 && mdist == Bulge(sqrt, paths[pathIndex], place)
      invariant forall k, c :: 0 <= k < i && 0 < c < |paths[k]| - 1 ==> Bulge(sqrt, paths[k], c) <= mdist
      invariant mdist == 0.0 ==> forall k :: 0 <= k < i ==> Exact(sqrt, paths[k])
      invariant mdist > 0.0 ==> pathIndex < i
      invariant mdist > 0.0 ==>
                  forall k, c :: Before(paths, k, c, pathIndex, place) ==> Bulge(sqrt, paths[k], c) < mdist
    {
      var index, d := FindMaximumDistance(sqrt, paths[i]);
      DeviationNonneg(sqrt, paths[i]);
      if d > mdist {
        pathIndex, place, mdist := i, index, d;
      }
    }
  }

  lemma DeviationNonneg(sqrt: real -> real, path: seq<Point>)
    requires IsSqrt(sqrt)
    ensures forall c :: 0 < c < |path| - 1 ==> Bulge(sqrt, path, c) >= 0.0
  {
  }

  // ----- which partition it is

  /** `c` is inside the part from cut `k` to the next. */
  ghost predicate Inner(cuts: seq<nat>, k: nat, c: nat) {
    k + 1 < |cuts| && cuts[k] < c < cuts[k + 1]
  }

  ghost predicate InRange(pts: seq<Point>, cuts: seq<nat>) {
    forall k :: 0 <= k < |cuts| ==> cuts[k] < |pts|
  }

  /** How far point `c` is off the straight motion between the cuts around it. */
  ghost function Off(sqrt: real -> real, pts: seq<Point>, cuts: seq<nat>, k: nat, c: nat): real
    requires InRange(pts, cuts) && Inner(cuts, k, c)
  {
    Deviation(sqrt, pts, cuts[k], cuts[k + 1], c)
  }

  /** No inner point is farther off, and none before it as far. */
  ghost predicate Farthest(sqrt: real -> real, pts: seq<Point>, cuts: seq<nat>, k: nat, c: nat)
    requires InRange(pts, cuts) && Inner(cuts, k, c)
  {
    forall k': nat, c': nat :: Inner(cuts, k', c') ==>
      && Off(sqrt, pts, cuts, k', c') <= Off(sqrt, pts, cuts, k, c)
      && (c' < c ==> Off(sqrt, pts, cuts, k', c') < Off(sqrt, pts, cuts, k, c))
  }

  /** One step: a cut is added where the points are farthest off, if they are off at all. */
  ghost predicate GreedyStep(sqrt: real -> real, pts: seq<Point>, cuts: seq<nat>, cuts': seq<nat>) {
    && InRange(pts, cuts)
    && exists k: nat, c: nat :: Inner(cuts, k, c) && Farthest(sqrt, pts, cuts, k, c) && Off(sqrt, pts, cuts, k, c) > 0.0
                                && cuts' == cuts[..k + 1] + [c] + cuts[k + 1..]
  }

  ghost predicate AllOn(sqrt: real -> real, pts: seq<Point>, cuts: seq<nat>) {
    InRange(pts, cuts) && forall k: nat, c: nat :: Inner(cuts, k, c) ==> Off(sqrt, pts, cuts, k, c) == 0.0
  }

  ghost predicate StepAfter(sqrt: real -> real, pts: seq<Point>, history: seq<seq<nat>>, k: nat)
    requires 0 < k < |history|
  {
    GreedyStep(sqrt, pts, history[k - 1], history[k])
  }

  /** From the whole to `cuts` by greedy steps. */
  ghost predicate Greedy(sqrt: real -> real, pts: seq<Point>, history: seq<seq<nat>>, cuts: seq<nat>) {
    && pts != [] && history != [] && history[0] == [0, |pts| - 1] && history[|history| - 1] == cuts
    && forall k :: 0 < k < |history| ==> StepAfter(sqrt, pts, history, k)
  }

  /** ... and no step more than needed: until there are `numPart` parts or all points are on their motions. */
  ghost predicate GreedyParts(sqrt: real -> real, pts: seq<Point>, numPart: nat, cuts: seq<nat>) {
    exists history :: Greedy(sqrt, pts, history, cuts) &&
      (|history| == (if numPart == 0 then 1 else numPart) || (|history| < numPart && AllOn(sqrt, pts, cuts)))
  }

  // ----- greedy splitting goes one way only

  ghost predicate Rising(cuts: seq<nat>) {
    forall i, j :: 0 <= i < j < |cuts| ==> cuts[i] < cuts[j]
  }

  /** Only one inner point can be the farthest. */
  lemma OneFarthest(sqrt: real -> real, pts: seq<Point>, cuts: seq<nat>, k: nat, c: nat, k': nat, c': nat)
    requires Rising(cuts) && InRange(pts, cuts) && Inner(cuts, k, c) && Inner(cuts, k', c')
    requires Farthest(sqrt, pts, cuts, k, c) && Farthest(sqrt, pts, cuts, k', c')
    ensures k == k' && c == c'
  {
    hide Off;
    assert c == c';
  }

  lemma StepIsOff(sqrt: real -> real, pts: seq<Point>, cuts: seq<nat>, next: seq<nat>)
    requires GreedyStep(sqrt, pts, cuts, next)
    ensures !AllOn(sqrt, pts, cuts)
  {
    hide Deviation, Farthest;
  }

  /** There is one next partition. */
  lemma StepDecides(sqrt: real -> real, pts: seq<Point>, cuts: seq<nat>, next: seq<nat>, next': seq<nat>)
    requires Rising(cuts) && GreedyStep(sqrt, pts, cuts, next) && GreedyStep(sqrt, pts, cuts, next')
    ensures next == next' && Rising(next)
  {
    hide Off, Farthest;
    var k: nat, c: nat :| Inner(cuts, k, c) && Farthest(sqrt, pts, cuts, k, c) && Off(sqrt, pts, cuts, k, c) > 0.0
                          && next == cuts[..k + 1] + [c] + cuts[k + 1..];
    var k': nat, c': nat :| Inner(cuts, k', c') && Farthest(sqrt, pts, cuts, k', c')
                            && Off(sqrt, pts, cuts, k', c') > 0.0 && next' == cuts[..k' + 1] + [c'] + cuts[k' + 1..];
    OneFarthest(sqrt, pts, cuts, k, c, k', c');
    RisingGrows(cuts, k, c);
  }

  lemma RisingGrows(cuts: seq<nat>, k: nat, c: nat)
    requires Rising(cuts) && Inner(cuts, k, c)
    ensures Rising(cuts[..k + 1] + [c] + cuts[k + 1..])
  {
  }

  lemma {:induction false} SameHistory(sqrt: real -> real, pts: seq<Point>, history: seq<seq<nat>>, cuts: seq<nat>,
                                       history': seq<seq<nat>>, cuts': seq<nat>, k: nat)
    requires |pts| >= 2 && Greedy(sqrt, pts, history, cuts) && Greedy(sqrt, pts, history', cuts')
    requires k < |history| && k < |history'|
    ensures history[k] == history'[k] && Rising(history[k])
  {
    if k > 0 {
      SameHistory(sqrt, pts, history, cuts, history', cuts', k - 1);
      hide GreedyStep;
      assert StepAfter(sqrt, pts, history, k) && StepAfter(sqrt, pts, history', k);
      StepDecides(sqrt, pts, history[k - 1], history[k], history'[k]);
    }
  }

  /** So the points and the number asked for decide the partition. */
  lemma GreedyDecides(sqrt: real -> real, pts: seq<Point>, numPart: nat, cuts: seq<nat>, cuts': seq<nat>)
    requires |pts| >= 2 && GreedyParts(sqrt, pts, numPart, cuts) && GreedyParts(sqrt, pts, numPart, cuts')
    ensures cuts == cuts'
  {
    hide Greedy, AllOn;
    var n := if numPart == 0 then 1 else numPart;
    var history :| Greedy(sqrt, pts, history, cuts)
                   && (|history| == n || (|history| < numPart && AllOn(sqrt, pts, cuts)));
    var history' :| Greedy(sqrt, pts, history', cuts')
                    && (|history'| == n || (|history'| < numPart && AllOn(sqrt, pts, cuts')));
    if |history'| > |history| { NoStepLeft(sqrt, pts, history, cuts, history', cuts'); }
    if |history| > |history'| { NoStepLeft(sqrt, pts, history', cuts', history, cuts); }
    EndsHistory(sqrt, pts, history, cuts);
    EndsHistory(sqrt, pts, history', cuts');
    SameHistory(sqrt, pts, history, cuts, history', cuts', |history| - 1);
  }

  lemma EndsHistory(sqrt: real -> real, pts: seq<Point>, history: seq<seq<nat>>, cuts: seq<nat>)
    requires Greedy(sqrt, pts, history, cuts)
    ensures history != [] && history[|history| - 1] == cuts
  {
  }

  lemma NoStepLeft(sqrt: real -> real, pts: seq<Point>, history: seq<seq<nat>>, cuts: seq<nat>,
                   history': seq<seq<nat>>, cuts': seq<nat>)
    requires |pts| >= 2 && Greedy(sqrt, pts, history, cuts) && Greedy(sqrt, pts, history', cuts')
    requires |history| < |history'|
    ensures !AllOn(sqrt, pts, cuts)
  {
    var k := |history|;
    SameHistory(sqrt, pts, history, cuts, history', cuts', k - 1);
    hide GreedyStep, AllOn;
    assert StepAfter(sqrt, pts, history', k);
    StepIsOff(sqrt, pts, cuts, history'[k]);
  }

  // ----- from paths to cuts

  lemma {:induction false} CutsIncrease(pts: seq<Point>, paths: seq<seq<Point>>, cuts: seq<nat>, i: nat, j: nat)
    requires Parts(pts, paths, cuts) && i < j < |cuts|
    ensures cuts[i] < cuts[j] < |pts|
  {
    assert Part(pts, paths[j - 1], cuts[j - 1], cuts[j]);
    if i < j - 1 { CutsIncrease(pts, paths, cuts, i, j - 1); }
  }

  lemma PartsInRange(pts: seq<Point>, paths: seq<seq<Point>>, cuts: seq<nat>)
    requires Parts(pts, paths, cuts)
    ensures InRange(pts, cuts)
  {
    hide Part;
    forall k | 0 <= k < |cuts| ensures cuts[k] < |pts| {
      if k > 0 { CutsIncrease(pts, paths, cuts, 0, k); } else { CutsIncrease(pts, paths, cuts, 0, 1); }
    }
  }

  /** An inner point of a part is off as far as it bulges from the part. */
  lemma OffIsBulge(sqrt: real -> real, pts: seq<Point>, paths: seq<seq<Point>>, cuts: seq<nat>, k: nat, c: nat)
    requires Parts(pts, paths, cuts) && InRange(pts, cuts) && Inner(cuts, k, c)
    ensures 0 < c - cuts[k] < |paths[k]| - 1
    ensures Off(sqrt, pts, cuts, k, c) == Bulge(sqrt, paths[k], c - cuts[k])
  {
    assert Part(pts, paths[k], cuts[k], cuts[k + 1]);
    hide Distance, MakeMid;
    var path, a, last := paths[k], cuts[k], |paths[k]| - 1;
    assert path[0] == pts[a] && path[last] == pts[cuts[k + 1]] && path[c - a] == pts[c];
  }

  /** The worst point of the worst path is the farthest. */
  lemma WorstIsFarthest(sqrt: real -> real, pts: seq<Point>, paths: seq<seq<Point>>, cuts: seq<nat>, k: nat,
                        place: nat)
    requires Parts(pts, paths, cuts) && k < |paths| && 0 < place < |paths[k]| - 1
    requires forall k', c' :: 0 <= k' < |paths| && 0 < c' < |paths[k']| - 1 ==>
               Bulge(sqrt, paths[k'], c') <= Bulge(sqrt, paths[k], place)
    requires forall k', c' :: Before(paths, k', c', k, place) ==>
               Bulge(sqrt, paths[k'], c') < Bulge(sqrt, paths[k], place)
    ensures InRange(pts, cuts) && Inner(cuts, k, cuts[k] + place)
    ensures Off(sqrt, pts, cuts, k, cuts[k] + place) == Bulge(sqrt, paths[k], place)
    ensures Farthest(sqrt, pts, cuts, k, cuts[k] + place)
  {
    PartsInRange(pts, paths, cuts);
    assert Part(pts, paths[k], cuts[k], cuts[k + 1]);
    hide Part, Bulge, Off;
    var c := cuts[k] + place;
    OffIsBulge(sqrt, pts, paths, cuts, k, c);
    forall k': nat, c': nat | Inner(cuts, k', c')
      ensures Off(sqrt, pts, cuts, k', c') <= Off(sqrt, pts, cuts, k, c)
      ensures c' < c ==> Off(sqrt, pts, cuts, k', c') < Off(sqrt, pts, cuts, k, c)
    {
      OffIsBulge(sqrt, pts, paths, cuts, k', c');
      if c' < c {
        if k' > k + 1 { CutsIncrease(pts, paths, cuts, k + 1, k'); }
        assert Before(paths, k', c' - cuts[k'], k, place);
      }
    }
  }

  lemma GreedyGrows(sqrt: real -> real, pts: seq<Point>, history: seq<seq<nat>>, cuts: seq<nat>, cuts': seq<nat>)
    requires Greedy(sqrt, pts, history, cuts) && GreedyStep(sqrt, pts, cuts, cuts')
    ensures Greedy(sqrt, pts, history + [cuts'], cuts')
  {
    hide GreedyStep;
    var longer := history + [cuts'];
    forall k | 0 < k < |longer| ensures StepAfter(sqrt, pts, longer, k) {
      if k < |history| { assert StepAfter(sqrt, pts, history, k); }
    }
  }

  lemma OneStep(sqrt: real -> real, pts: seq<Point>, paths: seq<seq<Point>>, cuts: seq<nat>, k: nat, place: nat)
    requires Parts(pts, paths, cuts) && k < |paths| && 0 < place < |paths[k]| - 1
    requires Bulge(sqrt, paths[k], place) > 0.0
    requires forall k', c' :: 0 <= k' < |paths| && 0 < c' < |paths[k']| - 1 ==>
               Bulge(sqrt, paths[k'], c') <= Bulge(sqrt, paths[k], place)
    requires forall k', c' :: Before(paths, k', c', k, place) ==>
               Bulge(sqrt, paths[k'], c') < Bulge(sqrt, paths[k], place)
    ensures GreedyStep(sqrt, pts, cuts, cuts[..k + 1] + [cuts[k] + place] + cuts[k + 1..])
  {
    WorstIsFarthest(sqrt, pts, paths, cuts, k, place);
    hide Part, Bulge, Off, Farthest;
    var c := cuts[k] + place;
    assert Inner(cuts, k, c) && Off(sqrt, pts, cuts, k, c) > 0.0;
  }

  /** If no path bulges, all points are on their motions. */
  lemma NoneOff(sqrt: real -> real, pts: seq<Point>, paths: seq<seq<Point>>, cuts: seq<nat>)
    requires IsSqrt(sqrt) && Parts(pts, paths, cuts)
    requires forall k, c :: 0 <= k < |paths| && 0 < c < |paths[k]| - 1 ==> Bulge(sqrt, paths[k], c) <= 0.0
    ensures AllOn(sqrt, pts, cuts)
  {
    PartsInRange(pts, paths, cuts);
    hide Part, Bulge, Off, IsSqrt;
    forall k: nat, c: nat | Inner(cuts, k, c)
      ensures Off(sqrt, pts, cuts, k, c) == 0.0
    {
      OffIsBulge(sqrt, pts, paths, cuts, k, c);
      DeviationNonneg(sqrt, paths[k]);
    }
  }

  /** Splits at the greatest deviation until there are enough parts. Refused when there are too few points;
      stops early only when all points are on their motions. */
  method SimplifyWithRDPN(sqrt: real -> real, pts: seq<Point>, numPart: nat)
    returns (r: Option<seq<seq<Point>>>, ghost cuts: seq<nat>)
    requires IsSqrt(sqrt)
    ensures r.None? <==> |pts| < numPart + 1
    ensures r.Some? && |pts| == 1 ==> r.value == [pts]
    ensures r.Some? && |pts| >= 2 ==> Parts(pts, r.value, cuts)
    ensures r.Some? ==> |r.value| == (if numPart == 0 then 1 else numPart)
                        || (|r.value| < numPart && forall k :: 0 <= k < |r.value| ==> Exact(sqrt, r.value[k]))
    ensures r.Some? ==> GreedyParts(sqrt, pts, numPart, cuts)
  {
    hide Exact, AllOn, Parts, GreedyStep, IsSqrt, Bulge;
    if |pts| < numPart + 1 {
      return None, [];
    }
    var paths := [pts];
    cuts := [0, |pts| - 1];
    ghost var history := [cuts];
    WholeIsPart(sqrt, pts);
    while |paths| < numPart
      invariant |paths| == |history| && (|paths| == 1 || 1 <= |paths| <= numPart)
      invariant |pts| == 1 ==> paths == [pts]
      invariant |pts| >= 2 ==> Parts(pts, paths, cuts)
      invariant Greedy(sqrt, pts, history, cuts)
      decreases numPart - |paths|
    {
      PartsNonempty(pts, paths, cuts);
      var k, place, mdist := WorstPath(sqrt, paths);
      if mdist == 0.0 {
        NoneOff(sqrt, pts, paths, cuts);
        break;
      }
      SplitFacts(pts, paths, cuts, k, place);
      OneStep(sqrt, pts, paths, cuts, k, place);
      PartsSplit(pts, paths, cuts, k, place);
      ghost var cuts' := cuts[..k + 1] + [cuts[k] + place] + cuts[k + 1..];
      GreedyGrows(sqrt, pts, history, cuts, cuts');
      paths, cuts := paths[..k] + [paths[k][..place + 1], paths[k][place..]] + paths[k + 1..], cuts';
      history := history + [cuts];
    }
    return Some(paths), cuts;
  }

  lemma WholeIsPart(sqrt: real -> real, pts: seq<Point>)
    requires pts != []
    ensures |pts| >= 2 ==> Parts(pts, [pts], [0, |pts| - 1])
    ensures |pts| == 1 ==> AllOn(sqrt, pts, [0, 0])
    ensures Greedy(sqrt, pts, [[0, |pts| - 1]], [0, |pts| - 1])
  {
  }

  lemma SplitFacts(pts: seq<Point>, paths: seq<seq<Point>>, cuts: seq<nat>, k: nat, place: nat)
    requires Parts(pts, paths, cuts) && k < |paths| && 0 < place < |paths[k]| - 1
    ensures k + 1 < |cuts|
  {
  }

  // ----- parts and point counts as segmentations

  /** The piece consists of the samples of its range. */
  ghost predicate Stretch(traj: seq<Point>, pc: Piece) {
    pc.ms <= pc.me < |traj| && pc.points == traj[pc.ms..pc.me + 1]
  }

  lemma StepAt(traj: seq<Point>, j: nat)
    requires Increasing(traj) && j < |traj| - 1
    ensures StepOf(traj, traj[j], traj[j + 1])
  {
    SampleOn(traj[j], traj[j + 1]);
    hide On;
    assert Along(traj, j, traj[j], traj[j + 1]);
  }

  /** A stretch of samples follows the trajectory. */
  lemma SliceRun(traj: seq<Point>, a: nat, b: nat)
    requires Increasing(traj) && a <= b < |traj|
    ensures Run(traj, traj[a..b + 1])
    ensures a < b ==> WellPiece(traj, Piece(a, b, traj[a..b + 1]))
  {
    var pts := traj[a..b + 1];
    assert Increasing(pts);
    hide StepOf, Increasing;
    forall k | 0 <= k < |pts| - 1
      ensures StepOf(traj, pts[k], pts[k + 1])
    {
      StepAt(traj, a + k);
      assert pts[k] == traj[a + k] && pts[k + 1] == traj[a + k + 1];
    }
  }

  lemma ChainStart(traj: seq<Point>)
    requires traj != []
    ensures Chain(traj, [], traj[0])
  {
  }

  /** Appends one stretch. */
  lemma ChainStretch(traj: seq<Point>, res: seq<Piece>, a: nat, b: nat)
    requires Increasing(traj) && a < b < |traj| && Chain(traj, res, traj[a])
    ensures Chain(traj, res + [Piece(a, b, traj[a..b + 1])], traj[b])
  {
    SliceRun(traj, a, b);
    hide Chain, WellPiece, Run, Increasing;
    ChainPush(traj, res, Piece(a, b, traj[a..b + 1]));
  }

  /** The pieces are the parts between consecutive cuts. */
  ghost predicate PiecesOf(traj: seq<Point>, cuts: seq<nat>, res: seq<Piece>) {
    |cuts| == |res| + 1 && forall k :: 0 <= k < |res| ==> PieceBetween(traj, cuts[k], cuts[k + 1], res[k])
  }

  ghost predicate PieceBetween(traj: seq<Point>, a: nat, b: nat, pc: Piece) {
    a <= b < |traj| && pc == Piece(a, b, traj[a..b + 1])
  }

  method PartsToPieces(traj: seq<Point>, paths: seq<seq<Point>>, ghost cuts: seq<nat>) returns (res: seq<Piece>)
    requires Increasing(traj) && traj != [] && Parts(traj, paths, cuts)
    ensures Segmented(traj, res) && AllStretches(traj, res) && PiecesOf(traj, cuts, res)
  {
    hide Chain, Increasing, Part, Parts, Stretch, PieceBetween, AllStretches;
    PartsEnds(traj, paths, cuts);
    NoStretches(traj);
    res := [];
    var pointPrev := 0;
    ChainStart(traj);
    for k := 0 to |paths|
      invariant |res| == k && pointPrev == cuts[k] < |traj|
      invariant Chain(traj, res, traj[pointPrev]) && (k > 0 ==> res != [])
      invariant AllStretches(traj, res)
      invariant forall j :: 0 <= j < k ==> PieceBetween(traj, cuts[j], cuts[j + 1], res[j])
    {
      var pts := paths[k];
      PartAt(traj, paths, cuts, k);
      ghost var next := cuts[k + 1];
      var pc := Piece(pointPrev, pointPrev + |pts| - 1, pts);
      PartPiece(traj, res, pointPrev, next, pc);
      res := res + [pc];
      pointPrev := pointPrev + |pts| - 1;
    }
  }

  lemma NoStretches(traj: seq<Point>)
    ensures AllStretches(traj, [])
  {
  }

  lemma PartsEnds(pts: seq<Point>, paths: seq<seq<Point>>, cuts: seq<nat>)
    requires Parts(pts, paths, cuts)
    ensures |cuts| == |paths| + 1 && cuts[0] == 0 && cuts[|paths|] == |pts| - 1 && paths != []
  {
  }

  ghost predicate AllStretches(traj: seq<Point>, res: seq<Piece>) {
    forall k :: 0 <= k < |res| ==> Stretch(traj, res[k])
  }

  lemma PartAt(pts: seq<Point>, paths: seq<seq<Point>>, cuts: seq<nat>, k: nat)
    requires Parts(pts, paths, cuts) && k < |paths|
    ensures Part(pts, paths[k], cuts[k], cuts[k + 1]) && |paths[k]| >= 2
  {
  }

  lemma PartPiece(traj: seq<Point>, res: seq<Piece>, a: nat, b: nat, pc: Piece)
    requires Increasing(traj) && Part(traj, pc.points, a, b) && pc.ms == a && pc.me == a + |pc.points| - 1
    requires Chain(traj, res, traj[a]) && AllStretches(traj, res)
    ensures pc.me == b < |traj| && AllStretches(traj, res + [pc]) && Chain(traj, res + [pc], traj[b])
    ensures PieceBetween(traj, a, b, pc)
  {
    hide Chain, Increasing;
    ChainStretch(traj, res, a, b);
    assert pc == Piece(a, b, traj[a..b + 1]);
    assert Stretch(traj, pc);
    hide Stretch;
  }

  lemma WholeStretch(traj: seq<Point>)
    requires traj != []
    ensures traj[0..|traj|] == traj && Stretch(traj, Piece(0, |traj| - 1, traj))
  {
  }

  /** `n` is how many lengths fit, but no more than there are steps. */
  ghost predicate Asked(traj: seq<Point>, len: real, n: nat)
    requires traj != []
  {
    var span := traj[|traj| - 1].t - traj[0].t;
    n < |traj| && Travel(n as real, len) <= span && (n == |traj| - 1 || span < Travel((n + 1) as real, len))
  }

  method SegmentCount(traj: seq<Point>, len: real) returns (segNum: nat)
    requires Increasing(traj) && traj != [] && len > 0.0
    ensures Asked(traj, len, segNum)
  {
    var span := traj[|traj| - 1].t - traj[0].t;
    SpanNonneg(span, len);
    segNum := (span / len).Floor;
    QuotientFits(span, len, segNum);
    if |traj| - 1 < segNum {
      FewerFit(len, |traj| - 1, segNum);
      segNum := |traj| - 1;
    }
  }

  lemma QuotientFits(span: real, len: real, n: nat)
    requires len > 0.0 && span >= 0.0 && n == (span / len).Floor
    ensures Travel(n as real, len) <= span < Travel((n + 1) as real, len)
  {
    var q, r, s := span / len, n as real, (n + 1) as real;
    var c, d := q - r, s - q;
    assert Travel(q, len) == span;
    MulNonneg(c, len);
    MulPos(d, len);
    RateSplit(q, r, c, len);
    RateSplit(s, q, d, len);
  }

  lemma FewerFit(len: real, m: nat, n: nat)
    requires len > 0.0 && m <= n
    ensures Travel(m as real, len) <= Travel(n as real, len)
  {
    var c := n as real - m as real;
    MulNonneg(c, len);
    RateSplit(n as real, m as real, c, len);
  }

  /** The parts of a trajectory that greedy splitting makes of it, as many as lengths fit, with the sample ranges that
      chain from the first to the last sample. There are always enough points for the parts asked for. */
  method RDP(sqrt: real -> real, traj: seq<Point>, len: real)
    returns (res: seq<Piece>, ghost segNum: nat, ghost cuts: seq<nat>)
    requires IsSqrt(sqrt) && Increasing(traj) && traj != [] && len > 0.0
    ensures |traj| >= 2 ==> Segmented(traj, res)
    ensures forall k :: 0 <= k < |res| ==> Stretch(traj, res[k])
    ensures Asked(traj, len, segNum) && GreedyParts(sqrt, traj, segNum, cuts) && PiecesOf(traj, cuts, res)
  {
    hide IsSqrt, Increasing, Chain, Parts, Stretch, WellPiece, Asked, Exact, GreedyParts;
    var asked := SegmentCount(traj, len);
    segNum := asked;
    AskedFew(traj, len, segNum);
    ChainStart(traj);
    WholeStretch(traj);
    WholeGreedy(sqrt, traj);
    if asked == 1 {
      cuts := [0, |traj| - 1];
      ChainStretch(traj, [], 0, |traj| - 1);
      res := [Piece(0, |traj| - 1, traj)];
      assert [] + res == res;
      return;
    }
    var m;
    m, cuts := SimplifyWithRDPN(sqrt, traj, asked);
    if |traj| == 1 {
      GreedyOfOne(sqrt, traj, segNum, cuts);
      return [Piece(0, 0, traj)], segNum, cuts;
    }
    res := PartsToPieces(traj, m.value, cuts);
  }

  lemma AskedFew(traj: seq<Point>, len: real, n: nat)
    requires traj != [] && Asked(traj, len, n)
    ensures n < |traj|
  {
  }

  lemma WholeGreedy(sqrt: real -> real, traj: seq<Point>)
    requires traj != []
    ensures GreedyParts(sqrt, traj, 1, [0, |traj| - 1])
  {
    WholeIsPart(sqrt, traj);
    hide Greedy;
  }

  lemma GreedyOfOne(sqrt: real -> real, traj: seq<Point>, n: nat, cuts: seq<nat>)
    requires |traj| == 1 && n == 0 && GreedyParts(sqrt, traj, n, cuts)
    ensures cuts == [0, 0]
  {
  }

  lemma SpanNonneg(span: real, len: real)
    requires len > 0.0 && span >= 0.0
    ensures span / len >= 0.0
  {
    var q := span / len;
    assert q * len == span;
    if q < 0.0 { MulPos(-q, len); }
  }

  /** The piece was closed as soon as it had the count. */
  ghost predicate JustFull(pc: Piece, np: real) { (|pc.points| - 1) as real < np <= |pc.points| as real }

  /** The state of the point-count loop before sample `i`. */
  ghost predicate Counted(traj: seq<Point>, np: real, i: nat, ms: nat, seg: seq<Point>, res: seq<Piece>) {
    && ms <= i <= |traj| && (if i == 0 then res == [] else ms < i) && seg == traj[ms..i]
    && AllStretches(traj, res) && (np > 1.0 ==> |seg| as real < np && AllFull(res, np))
    && (np > 1.0 && ms < |traj| ==> Chain(traj, res, traj[ms]))
    && (np <= 1.0 && i > 0 ==> res != [] && |res[0].points| == 1)
  }

  /** Cuts after every `np` points. A count of one or less makes pieces of a single point. */
  method FP(traj: seq<Point>, np: real) returns (res: seq<Piece>)
    requires Increasing(traj)
    ensures |traj| >= 2 ==> (Segmented(traj, res) <==> np > 1.0)
    ensures AllStretches(traj, res)
    ensures np > 1.0 ==> AllFull(if res == [] then [] else res[..|res| - 1], np)
    ensures np > 1.0 && res != [] ==> (|res[|res| - 1].points| - 1) as real < np
  {
    res := [];
    var ms, seg := 0, [];
    if traj != [] { ChainStart(traj); }
    hide Chain, Increasing;
    for i := 0 to |traj|
      invariant Counted(traj, np, i, ms, seg, res) && (i == |traj| ==> |traj| == 0)
    {
      seg := seg + [traj[i]];
      if np > 1.0 && ms < i { ChainStretch(traj, res, ms, i); }
      CountedSegment(traj, np, i, ms, seg, res);
      hide Counted, AllStretches, AllFull;
      if i == |traj| - 1 {
        if |traj| >= 2 { CountedEnds(traj, np, i, ms, seg, res); }
        assert (res + [Piece(ms, i, seg)])[..|res|] == res;
        res := res + [Piece(ms, i, seg)];
        return;
      }
      if |seg| as real < np { CountedGoesOn(traj, np, i, ms, seg, res); }
      if |seg| as real >= np {
        CountedCloses(traj, np, i, ms, seg, res);
        res := res + [Piece(ms, i, seg)];
        ms := i;
        seg := [traj[i]];
      }
    }
  }

  /** One more sample: the segment it makes is a stretch, as long as it may be. */
  lemma CountedSegment(traj: seq<Point>, np: real, i: nat, ms: nat, seg: seq<Point>, res: seq<Piece>)
    requires i < |traj| && ms <= i && seg == traj[ms..i] + [traj[i]] && Counted(traj, np, i, ms, traj[ms..i], res)
    ensures seg == traj[ms..i + 1] && (ms == i ==> |seg| == 1)
    ensures AllStretches(traj, res + [Piece(ms, i, seg)])
    ensures np <= 1.0 ==> |(res + [Piece(ms, i, seg)])[0].points| == 1
    ensures np > 1.0 ==> (|seg| - 1) as real < np && AllFull(res, np)
  {
    assert Stretch(traj, Piece(ms, i, seg));
    hide Stretch, Chain, AllFull;
  }

  /** The segment is full: it is closed. */
  lemma CountedCloses(traj: seq<Point>, np: real, i: nat, ms: nat, seg: seq<Point>, res: seq<Piece>)
    requires i < |traj| - 1 && ms <= i && seg == traj[ms..i] + [traj[i]] && Counted(traj, np, i, ms, traj[ms..i], res)
    requires np > 1.0 && ms < i ==> Chain(traj, res + [Piece(ms, i, traj[ms..i + 1])], traj[i])
    requires |seg| as real >= np
    ensures Counted(traj, np, i + 1, i, [traj[i]], res + [Piece(ms, i, seg)])
  {
    CountedSegment(traj, np, i, ms, seg, res);
    assert [traj[i]] == traj[i..i + 1];
    hide Chain, AllStretches, AllFull;
    if np > 1.0 { FullGrows(res, Piece(ms, i, seg), np); }
  }

  /** The segment is not full: it goes on. */
  lemma CountedGoesOn(traj: seq<Point>, np: real, i: nat, ms: nat, seg: seq<Point>, res: seq<Piece>)
    requires i < |traj| - 1 && ms <= i && seg == traj[ms..i] + [traj[i]] && Counted(traj, np, i, ms, traj[ms..i], res)
    requires |seg| as real < np
    ensures Counted(traj, np, i + 1, ms, seg, res)
  {
    assert seg == traj[ms..i + 1];
    hide Chain, AllStretches, AllFull;
  }

  /** The last sample: the segment is closed as it is. */
  lemma CountedEnds(traj: seq<Point>, np: real, i: nat, ms: nat, seg: seq<Point>, res: seq<Piece>)
    requires |traj| >= 2 && i == |traj| - 1 && ms <= i && seg == traj[ms..i] + [traj[i]]
    requires Counted(traj, np, i, ms, traj[ms..i], res)
    requires np > 1.0 && ms < i ==> Chain(traj, res + [Piece(ms, i, traj[ms..i + 1])], traj[i])
    ensures Segmented(traj, res + [Piece(ms, i, seg)]) <==> np > 1.0
  {
    CountedSegment(traj, np, i, ms, seg, res);
    FirstIsPiece(traj, res + [Piece(ms, i, seg)]);
    hide AllStretches, AllFull, Chain;
  }

  ghost predicate AllFull(res: seq<Piece>, np: real) { forall k :: 0 <= k < |res| ==> JustFull(res[k], np) }

  lemma FullGrows(res: seq<Piece>, pc: Piece, np: real)
    requires AllFull(res, np) && (|pc.points| - 1) as real < np <= |pc.points| as real
    ensures AllFull(res + [pc], np)
  {
    assert JustFull(pc, np);
    hide JustFull;
  }

  lemma FirstIsPiece(traj: seq<Point>, res: seq<Piece>)
    requires res != []
    ensures Segmented(traj, res) ==> |res[0].points| >= 2
  {
  }
}
