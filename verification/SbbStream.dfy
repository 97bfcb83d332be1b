/** The stream that feeds the bulk loader: the segments of one trajectory after another, numbered as they
    come and flagged at the ends of each trajectory. */
module SbbStream {
  import opened Boxes
  import opened ExternalSorter
  import opened BulkLoader
  import opened Layers
  import opened BulkTree
  import opened Counting
  import opened Wrappers

  /** A segment: its sample range and its bounding box. */
  datatype Cut = Cut(ms: nat, me: nat, box: Box)

  /** Segment `j` of trajectory `k`. */
  datatype Position = Position(k: nat, j: nat)

  ghost predicate Within(cuts: seq<seq<Cut>>, p: Position) {
    p.k < |cuts| && p.j < |cuts[p.k]|
  }

  function Datum(cuts: seq<seq<Cut>>, p: Position, number: nat): SbbData
    requires p.k < |cuts| && p.j < |cuts[p.k]|
  {
    var c := cuts[p.k][p.j];
    SbbData(number, StoreEntry(p.k, c.ms, c.me), c.box, p.j > 0, p.j < |cuts[p.k]| - 1)
  }

  /** The next segment of the same trajectory, or the first of the next trajectory. */
  function Following(cuts: seq<seq<Cut>>, p: Position): Position
    requires p.k < |cuts|
  {
    if p.j < |cuts[p.k]| - 1 then Position(p.k, p.j + 1) else Position(p.k + 1, 0)
  }

  /** The stream visits the segments in order, from the first on. */
  ghost predicate Follows(cuts: seq<seq<Cut>>, stream: seq<SbbData>, at: seq<Position>) {
    && |at| == |stream| && (at != [] ==> at[0] == Position(0, 0))
    && (forall i :: 0 <= i < |at| ==> Within(cuts, at[i]) && stream[i] == Datum(cuts, at[i], i))
    && (forall i :: 0 < i < |at| ==> InSequence(cuts, at, i))
  }

  ghost predicate InSequence(cuts: seq<seq<Cut>>, at: seq<Position>, i: nat)
    requires 0 < i < |at|
  {
    at[i - 1].k < |cuts| && at[i] == Following(cuts, at[i - 1])
  }

  /** It has come to the last segment of the last trajectory. */
  ghost predicate Complete(cuts: seq<seq<Cut>>, at: seq<Position>) {
    cuts != [] && cuts[|cuts| - 1] != [] && at != [] && at[|at| - 1] == Position(|cuts| - 1, |cuts[|cuts| - 1]| - 1)
  }

  /** Every trajectory is cut into at least one segment. */
  ghost predicate Cuts(cuts: seq<seq<Cut>>) {
    cuts != [] && forall k :: 0 <= k < |cuts| ==> cuts[k] != []
  }

  /** Numbers are distinct, and every flagged neighbour follows. */
  lemma StreamIsClosed(cuts: seq<seq<Cut>>, stream: seq<SbbData>, at: seq<Position>)
    requires Cuts(cuts) && Follows(cuts, stream, at) && Complete(cuts, at)
    ensures stream != [] && DistinctBoxes(stream) && LinkClosed(stream)
  {
    forall d | d in stream
      ensures d.hasPrev ==> exists d' :: d' in stream && d'.sbbid == d.sbbid - 1
      ensures d.hasNext ==> exists d' :: d' in stream && d'.sbbid == d.sbbid + 1
    {
      var i :| 0 <= i < |stream| && stream[i] == d;
      assert Within(cuts, at[i]) && d == Datum(cuts, at[i], i);
      if d.hasPrev {
        assert InSequence(cuts, at, i);
        assert stream[i - 1] == Datum(cuts, at[i - 1], i - 1) && stream[i - 1] in stream;
      }
      if d.hasNext {
        assert InSequence(cuts, at, i + 1);
        assert stream[i + 1] == Datum(cuts, at[i + 1], i + 1) && stream[i + 1] in stream;
      }
    }
  }

  /** The number after a flagged segment's is the next segment of the same trajectory. */
  lemma NeighbourIsNext(cuts: seq<seq<Cut>>, stream: seq<SbbData>, at: seq<Position>, i: nat)
    requires Cuts(cuts) && Follows(cuts, stream, at) && Complete(cuts, at) && i < |stream| && stream[i].hasNext
    ensures i + 1 < |stream| && stream[i + 1].sbbid == stream[i].sbbid + 1 && stream[i + 1].hasPrev
    ensures at[i + 1] == Position(at[i].k, at[i].j + 1)
    ensures stream[i + 1].se == StoreEntry(at[i].k, cuts[at[i].k][at[i].j + 1].ms, cuts[at[i].k][at[i].j + 1].me)
  {
    assert Within(cuts, at[i]) && stream[i] == Datum(cuts, at[i], i);
    assert i + 1 < |stream|;
    assert InSequence(cuts, at, i + 1);
    assert at[i + 1] == Following(cuts, at[i]) && stream[i + 1] == Datum(cuts, at[i + 1], i + 1);
  }

  // ----- following the links

  /** An entry and the leaf it is in. */
  datatype Stop = Stop(leaf: int, e: Entry)

  /** A loaded tree with resolved links. */
  ghost predicate LinkedTree(before: map<int, Node>, nodes: map<int, Node>, rootID: int, height: nat,
                             stream: seq<SbbData>) {
    && height >= 1 && WellTree(nodes, rootID, height - 1) && NewTree(before, nodes, rootID, height - 1)
    && TreeItems(nodes, rootID, height - 1) == Items(stream) && DistinctBoxes(stream)
    && NoBoxes(before, nodes) && OneLeaf(before, nodes) && LinksLead(before, nodes, stream)
    && forall id :: id in nodes ==> id >= 0
  }

  /** The tree's entry of a segment. */
  ghost predicate StopAt(before: map<int, Node>, nodes: map<int, Node>, rootID: int, height: nat, stop: Stop,
                         d: SbbData)
    requires height >= 1
  {
    && LeafEntry(before, nodes, stop.leaf, stop.e) && InTree(nodes, rootID, height - 1, stop.leaf)
    && Linked(before, nodes, stop.e, d)
  }

  lemma StopOf(before: map<int, Node>, nodes: map<int, Node>, rootID: int, height: nat, stream: seq<SbbData>, i: nat)
    returns (stop: Stop)
    requires LinkedTree(before, nodes, rootID, height, stream) && i < |stream|
    ensures StopAt(before, nodes, rootID, height, stop, stream[i])
  {
    InItems(stream, i);
    hide Items, TreeItems, WellTree, NewTree, LeafEntry, OneLeaf, LeafHolds;
    var leaf, e := LeafWithItem(before, nodes, rootID, height - 1, ItemOfData(stream[i]));
    var d :| d in stream && Linked(before, nodes, e, d);
    stop := Stop(leaf, e);
  }

  /** The link of an entry leads to the entry of its neighbour. */
  lemma StopsLinked(before: map<int, Node>, nodes: map<int, Node>, rootID: int, height: nat, stream: seq<SbbData>,
                    a: Stop, d: SbbData, c: Stop, d': SbbData)
    requires LinkedTree(before, nodes, rootID, height, stream) && d'.sbbid == d.sbbid + 1 && d.hasNext && d'.hasPrev
    requires StopAt(before, nodes, rootID, height, a, d) && StopAt(before, nodes, rootID, height, c, d')
    ensures a.e.next == c.leaf && c.e.prev == a.leaf && c.e.id == a.e.id + 1
  {
    hide Items, TreeItems, WellTree, NewTree, LeafEntry, LinksLead;
    var e :| LeafEntry(before, nodes, a.e.next, e) && e.id == d'.sbbid;
    var e' :| LeafEntry(before, nodes, c.e.prev, e') && e'.id == d.sbbid;
  }

  /** Position `i` is not the last one. */
  lemma StepOn(cuts: seq<seq<Cut>>, stream: seq<SbbData>, at: seq<Position>, i: nat)
    requires Cuts(cuts) && Follows(cuts, stream, at) && Complete(cuts, at) && i < |at|
    requires at[i].k < |cuts| - 1 || at[i].j < |cuts[at[i].k]| - 1
    ensures i + 1 < |at| && at[i + 1] == Following(cuts, at[i])
  {
    if i + 1 < |at| { assert InSequence(cuts, at, i + 1); }
  }

  /** The segments of one trajectory have consecutive numbers. */
  lemma {:induction false} NumbersOf(cuts: seq<seq<Cut>>, stream: seq<SbbData>, at: seq<Position>, k: nat, n: nat)
    returns (i: nat)
    requires Cuts(cuts) && Follows(cuts, stream, at) && Complete(cuts, at) && k < |cuts| && 1 <= n <= |cuts[k]|
    ensures i + n <= |at| && forall j :: 0 <= j < n ==> at[i + j] == Position(k, j)
    decreases k, n
  {
    if n > 1 {
      i := NumbersOf(cuts, stream, at, k, n - 1);
      assert at[i + (n - 2)] == Position(k, n - 2);
      StepOn(cuts, stream, at, i + (n - 2));
    } else if k > 0 {
      var m := |cuts[k - 1]|;
      var i' := NumbersOf(cuts, stream, at, k - 1, m);
      assert at[i' + (m - 1)] == Position(k - 1, m - 1);
      StepOn(cuts, stream, at, i' + (m - 1));
      i := i' + m;
    } else {
      i := 0;
    }
  }

  /** Stop `j` is the entry with the next number in the leaf that the stop before names as next ... */
  ghost predicate NextStep(stops: seq<Stop>, j: nat)
    requires 0 < j < |stops|
  {
    stops[j].leaf == stops[j - 1].e.next && stops[j].e.id == stops[j - 1].e.id + 1
  }

  /** ... and names the leaf of the stop before as previous. */
  ghost predicate BackStep(stops: seq<Stop>, j: nat)
    requires 0 < j < |stops|
  {
    stops[j].e.prev == stops[j - 1].leaf
  }

  /** The stops are linked both ways, with nothing before the first and after the last. */
  ghost predicate Walk(stops: seq<Stop>) {
    && stops != [] && stops[0].e.prev == -1 && stops[|stops| - 1].e.next == -1
    && forall j :: 0 < j < |stops| ==> NextStep(stops, j) && BackStep(stops, j)
  }

  /** The stops are the first segments of trajectory `k`, in order. */
  ghost predicate Visits(cuts: seq<seq<Cut>>, k: nat, stops: seq<Stop>) {
    && k < |cuts| && |stops| <= |cuts[k]|
    && forall j :: 0 <= j < |stops| ==>
         stops[j].e.se == Some(StoreEntry(k, cuts[k][j].ms, cuts[k][j].me)) && stops[j].e.box == cuts[k][j].box
  }

  /** The stops are the tree's entries of the data from number `i` on. */
  ghost predicate StopsFrom(before: map<int, Node>, nodes: map<int, Node>, rootID: int, height: nat, stops: seq<Stop>,
                            stream: seq<SbbData>, i: nat)
    requires height >= 1
  {
    && i + |stops| <= |stream|
    && forall j :: 0 <= j < |stops| ==> StopAt(before, nodes, rootID, height, stops[j], stream[i + j])
  }

  lemma FindStops(before: map<int, Node>, nodes: map<int, Node>, rootID: int, height: nat, stream: seq<SbbData>,
                  i: nat, n: nat)
    returns (stops: seq<Stop>)
    requires LinkedTree(before, nodes, rootID, height, stream) && i + n <= |stream|
    ensures |stops| == n && StopsFrom(before, nodes, rootID, height, stops, stream, i)
  {
    assert height >= 1;
    hide LinkedTree, StopAt;
    stops := [];
    while |stops| < n
      invariant |stops| <= n && StopsFrom(before, nodes, rootID, height, stops, stream, i)
    {
      var stop := StopOf(before, nodes, rootID, height, stream, i + |stops|);
      stops := stops + [stop];
    }
  }

  /** The data of one trajectory. */
  ghost predicate DataOf(cuts: seq<seq<Cut>>, k: nat, stream: seq<SbbData>, i: nat) {
    && k < |cuts| && i + |cuts[k]| <= |stream|
    && forall j :: 0 <= j < |cuts[k]| ==> stream[i + j] == Datum(cuts, Position(k, j), i + j)
  }

  lemma StopsVisit(cuts: seq<seq<Cut>>, stream: seq<SbbData>, k: nat, i: nat, before: map<int, Node>,
                   nodes: map<int, Node>, rootID: int, height: nat, stops: seq<Stop>)
    requires height >= 1 && DataOf(cuts, k, stream, i) && StopsFrom(before, nodes, rootID, height, stops, stream, i)
    requires |stops| <= |cuts[k]|
    ensures Visits(cuts, k, stops)
  {
    hide LeafEntry, InTree, LeafHolds;
    forall j | 0 <= j < |stops|
      ensures ItemOf(stops[j].e) == ItemOfData(Datum(cuts, Position(k, j), i + j))
    {
      assert StopAt(before, nodes, rootID, height, stops[j], stream[i + j]);
    }
  }

  lemma StopsWalk(cuts: seq<seq<Cut>>, stream: seq<SbbData>, k: nat, i: nat, before: map<int, Node>,
                  nodes: map<int, Node>, rootID: int, height: nat, stops: seq<Stop>)
    requires LinkedTree(before, nodes, rootID, height, stream) && DataOf(cuts, k, stream, i)
    requires StopsFrom(before, nodes, rootID, height, stops, stream, i) && |stops| == |cuts[k]| > 0
    ensures Walk(stops) && stops[0].e.id == i
  {
    var n := |stops|;
    assert height >= 1;
    hide LinkedTree, LeafEntry, InTree, LeafHolds;
    assert stream[i + 0] == Datum(cuts, Position(k, 0), i + 0);
    assert StopAt(before, nodes, rootID, height, stops[0], stream[i + 0]);
    assert StopAt(before, nodes, rootID, height, stops[n - 1], stream[i + (n - 1)]);
    assert stream[i + (n - 1)] == Datum(cuts, Position(k, n - 1), i + (n - 1));
    assert stops[0].e.prev == -1 && stops[n - 1].e.next == -1 && stops[0].e.id == i;
    hide Linked, StopAt, DataOf, StopsFrom, NextStep, BackStep;
    forall j | 0 < j < n
      ensures NextStep(stops, j) && BackStep(stops, j)
    {
      StopsStep(cuts, stream, k, i, before, nodes, rootID, height, stops, j);
    }
  }

  lemma StopsStep(cuts: seq<seq<Cut>>, stream: seq<SbbData>, k: nat, i: nat, before: map<int, Node>,
                  nodes: map<int, Node>, rootID: int, height: nat, stops: seq<Stop>, j: nat)
    requires LinkedTree(before, nodes, rootID, height, stream) && DataOf(cuts, k, stream, i)
    requires StopsFrom(before, nodes, rootID, height, stops, stream, i) && 0 < j < |stops| == |cuts[k]|
    ensures NextStep(stops, j) && BackStep(stops, j)
  {
    var i' := j - 1;
    var a, c := i + i', i + j;
    assert height >= 1;
    assert stream[a] == Datum(cuts, Position(k, i'), a) && stream[c] == Datum(cuts, Position(k, j), c);
    hide LinkedTree, StopAt, DataOf;
    assert StopAt(before, nodes, rootID, height, stops[i'], stream[a])
           && StopAt(before, nodes, rootID, height, stops[j], stream[c]);
    StopsLinked(before, nodes, rootID, height, stream, stops[i'], stream[a], stops[j], stream[c]);
  }

  lemma DataFollow(cuts: seq<seq<Cut>>, stream: seq<SbbData>, at: seq<Position>, k: nat) returns (i: nat)
    requires Cuts(cuts) && Follows(cuts, stream, at) && Complete(cuts, at) && k < |cuts|
    ensures DataOf(cuts, k, stream, i) && at[i] == Position(k, 0)
  {
    i := NumbersOf(cuts, stream, at, k, |cuts[k]|);
    assert at[i + 0] == Position(k, 0);
    forall j | 0 <= j < |cuts[k]|
      ensures stream[i + j] == Datum(cuts, Position(k, j), i + j)
    {
      assert at[i + j] == Position(k, j) && Within(cuts, at[i + j]);
    }
  }

  /** From the entry of the first segment of a trajectory the links lead through all its segments, in order, and
      back again. */
  lemma WalkTrajectory(cuts: seq<seq<Cut>>, stream: seq<SbbData>, at: seq<Position>, k: nat,
                       before: map<int, Node>, nodes: map<int, Node>, rootID: int, height: nat)
    returns (i: nat, stops: seq<Stop>)
    requires Cuts(cuts) && Follows(cuts, stream, at) && Complete(cuts, at) && k < |cuts|
    requires LinkedTree(before, nodes, rootID, height, stream)
    ensures i < |at| == |stream| && at[i] == Position(k, 0) && |stops| == |cuts[k]| && stops[0].e.id == i
    ensures Walk(stops) && Visits(cuts, k, stops)
    ensures forall j :: 0 <= j < |stops| ==>
              LeafEntry(before, nodes, stops[j].leaf, stops[j].e) && InTree(nodes, rootID, height - 1, stops[j].leaf)
  {
    i := DataFollow(cuts, stream, at, k);
    stops := FindStops(before, nodes, rootID, height, stream, i, |cuts[k]|);
    StopsVisit(cuts, stream, k, i, before, nodes, rootID, height, stops);
    StopsWalk(cuts, stream, k, i, before, nodes, rootID, height, stops);
    hide LinkedTree, LeafEntry, InTree, Linked, Walk, Visits, Datum;
  }

  /** A walk along the next links: each stop is the entry, in the leaf named by the one before, with the next number. */
  ghost predicate NextWalk(before: map<int, Node>, nodes: map<int, Node>, stops: seq<Stop>) {
    && (forall j :: 0 <= j < |stops| ==> LeafEntry(before, nodes, stops[j].leaf, stops[j].e))
    && (forall j :: 0 < j < |stops| ==> NextStep(stops, j))
  }

  /** An entry is found by its number. */
  lemma SameStop(before: map<int, Node>, nodes: map<int, Node>, rootID: int, height: nat, stream: seq<SbbData>,
                 a: Stop, c: Stop)
    requires LinkedTree(before, nodes, rootID, height, stream) && a.e.id == c.e.id
    requires LeafEntry(before, nodes, a.leaf, a.e) && LeafEntry(before, nodes, c.leaf, c.e)
    ensures a == c
  {
    hide Items, TreeItems, WellTree, NewTree, LeafEntry;
    var d :| d in stream && Linked(before, nodes, a.e, d);
    var d' :| d' in stream && Linked(before, nodes, c.e, d');
    assert d == d';
    SameLink(before, nodes, d.hasPrev, a.e.prev, c.e.prev, d.sbbid - 1);
    SameLink(before, nodes, d.hasNext, a.e.next, c.e.next, d.sbbid + 1);
  }

  lemma SameLink(before: map<int, Node>, nodes: map<int, Node>, has: bool, leaf: int, leaf': int, id: int)
    requires OneLeaf(before, nodes)
    requires if has then LeafHolds(before, nodes, leaf, id) && LeafHolds(before, nodes, leaf', id)
             else leaf == leaf' == -1
    ensures leaf == leaf'
  {
    hide LeafEntry;
  }

  ghost predicate Before(p: Position, q: Position) { p.k < q.k || (p.k == q.k && p.j < q.j) }

  lemma {:induction false} InOrder(cuts: seq<seq<Cut>>, stream: seq<SbbData>, at: seq<Position>, i: nat, i': nat)
    requires Follows(cuts, stream, at) && i < i' < |at|
    ensures Before(at[i], at[i'])
  {
    assert InSequence(cuts, at, i');
    if i < i' - 1 { InOrder(cuts, stream, at, i, i' - 1); }
  }

  /** Two walks that start at the same number go the same way. */
  lemma {:induction false} SameWay(before: map<int, Node>, nodes: map<int, Node>, rootID: int, height: nat,
                                   stream: seq<SbbData>, a: seq<Stop>, c: seq<Stop>, j: nat)
    requires LinkedTree(before, nodes, rootID, height, stream) && NextWalk(before, nodes, a)
             && NextWalk(before, nodes, c)
    requires j < |a| && j < |c| && a[0].e.id == c[0].e.id
    ensures a[j] == c[j]
  {
    if j > 0 { SameWay(before, nodes, rootID, height, stream, a, c, j - 1); }
    if j > 0 { assert NextStep(a, j) && NextStep(c, j); }
    hide LinkedTree, LeafEntry;
    SameStop(before, nodes, rootID, height, stream, a[j], c[j]);
  }

  /** Whoever follows the next links from the first segment of a trajectory until they end visits all its
      segments in order, and nothing else. */
  lemma NextWalkVisits(cuts: seq<seq<Cut>>, stream: seq<SbbData>, at: seq<Position>, k: nat,
                       before: map<int, Node>, nodes: map<int, Node>, rootID: int, height: nat, stops: seq<Stop>)
    requires Cuts(cuts) && Follows(cuts, stream, at) && Complete(cuts, at) && k < |cuts|
    requires LinkedTree(before, nodes, rootID, height, stream)
    requires stops != [] && NextWalk(before, nodes, stops) && stops[|stops| - 1].e.next == -1
    requires 0 <= stops[0].e.id < |at| && at[stops[0].e.id] == Position(k, 0)
    ensures |stops| == |cuts[k]| && Visits(cuts, k, stops) && Walk(stops)
  {
    var i, way := WalkTrajectory(cuts, stream, at, k, before, nodes, rootID, height);
    if i < stops[0].e.id { InOrder(cuts, stream, at, i, stops[0].e.id); }
    if stops[0].e.id < i { InOrder(cuts, stream, at, stops[0].e.id, i); }
    hide Follows, Complete, Visits, Cuts, InTree;
    PagesAre(before, nodes, rootID, height, stream, stops);
    PagesAre(before, nodes, rootID, height, stream, way);
    WalkIsNextWalk(before, nodes, way);
    hide LinkedTree, LeafEntry, Walk, NextWalk;
    forall j | 0 <= j < |stops| && j < |way|
      ensures stops[j] == way[j]
    {
      SameWay(before, nodes, rootID, height, stream, stops, way, j);
    }
    SameEnd(before, nodes, stops, way);
  }

  lemma WalkIsNextWalk(before: map<int, Node>, nodes: map<int, Node>, way: seq<Stop>)
    requires Walk(way) && forall j :: 0 <= j < |way| ==> LeafEntry(before, nodes, way[j].leaf, way[j].e)
    ensures NextWalk(before, nodes, way) && way[|way| - 1].e.next == -1
  {
    hide LeafEntry;
  }

  /** A walk goes on exactly where there is a next link. */
  lemma SameEnd(before: map<int, Node>, nodes: map<int, Node>, a: seq<Stop>, c: seq<Stop>)
    requires NextWalk(before, nodes, a) && NextWalk(before, nodes, c) && a != [] && c != []
    requires a[|a| - 1].e.next == c[|c| - 1].e.next == -1
    requires forall j :: 0 <= j < |a| ==> a[j].leaf != -1
    requires forall j :: 0 <= j < |c| ==> c[j].leaf != -1
    requires forall j :: 0 <= j < |a| && j < |c| ==> a[j] == c[j]
    ensures a == c
  {
    hide LeafEntry;
    forall j | 0 <= j < |a| - 1 ensures a[j].e.next != -1 { assert NextStep(a, j + 1); }
    forall j | 0 <= j < |c| - 1 ensures c[j].e.next != -1 { assert NextStep(c, j + 1); }
  }

  lemma PagesAre(before: map<int, Node>, nodes: map<int, Node>, rootID: int, height: nat, stream: seq<SbbData>,
                 stops: seq<Stop>)
    requires LinkedTree(before, nodes, rootID, height, stream)
    requires forall j :: 0 <= j < |stops| ==> LeafEntry(before, nodes, stops[j].leaf, stops[j].e)
    ensures forall j :: 0 <= j < |stops| ==> stops[j].leaf != -1
  {
  }

  /** One more segment. */
  lemma FollowsOn(cuts: seq<seq<Cut>>, stream: seq<SbbData>, at: seq<Position>, d: SbbData, p: Position)
    requires Cuts(cuts) && Follows(cuts, stream, at) && Within(cuts, p) && d == Datum(cuts, p, |stream|)
    requires p == if at == [] then Position(0, 0) else Following(cuts, at[|at| - 1])
    ensures Follows(cuts, stream + [d], at + [p])
  {
    hide Datum;
    var at' := at + [p];
    assert at != [] ==> Within(cuts, at[|at| - 1]);
    forall i | 0 < i < |at'|
      ensures InSequence(cuts, at', i)
    {
      if i < |at| { assert InSequence(cuts, at, i); }
    }
  }

  /** Before anything is loaded, and after: the buffer holds the rest of the current trajectory. */
  ghost predicate Rest(cuts: seq<seq<Cut>>, at: seq<Position>, id: nat, numit: nat, buf: seq<Cut>) {
    if at == [] then id == 0 && numit == 0 && buf == []
    else
      && numit == id + 1 <= |cuts| && id == at[|at| - 1].k
      && at[|at| - 1].j < |cuts[id]| && buf == cuts[id][at[|at| - 1].j + 1..]
  }

  /** What is taken next: the head of the rest, or of the trajectory loaded when there is none. */
  lemma RestGoesOn(cuts: seq<seq<Cut>>, stream: seq<SbbData>, at: seq<Position>, id: nat, numit: nat, buf: seq<Cut>,
                   p: Position)
    requires Cuts(cuts) && Follows(cuts, stream, at) && Rest(cuts, at, id, numit, buf) && (buf != [] || id < |cuts| - 1)
    requires p == if at == [] then Position(0, 0) else Following(cuts, at[|at| - 1])
    ensures buf == [] ==>
              numit < |cuts| && cuts[numit] != [] && p == Position(numit, 0) && numit >= id && (at != [] ==> numit > id)
    ensures buf == [] ==> Within(cuts, p) && Rest(cuts, at + [p], numit, numit + 1, cuts[numit][1..])
    ensures buf != [] ==>
              p.k == id && p.j > 0 && Within(cuts, p) && buf[0] == cuts[id][p.j]
              && (|buf| > 1 <==> p.j < |cuts[id]| - 1)
    ensures buf != [] ==> numit > 0 && Rest(cuts, at + [p], id, numit, buf[1..])
    ensures at == [] <==> numit == 0
  {
  }

  class XSbbStream {
    const cuts: seq<seq<Cut>>
    var buf: seq<Cut>
    var id: nat
    var numit: nat
    var count: nat
    ghost var out: seq<SbbData>
    ghost var at: seq<Position>

    ghost predicate Valid()
      reads this
    {
      Cuts(cuts) && count == |out| && Follows(cuts, out, at) && Rest(cuts, at, id, numit, buf)
    }

    constructor (cuts: seq<seq<Cut>>)
      requires Cuts(cuts)
      ensures Valid() && this.cuts == cuts && out == []
    {
      this.cuts := cuts;
      buf, id, numit, count, out, at := [], 0, 0, 0, [], [];
    }

    /** The number of the last trajectory decides whether there are more. Every number from 0 on is asked for: `cuts`
        has the segments of whatever the store then gives. */
    predicate HasNext()
      reads this
    {
      buf != [] || id < |cuts| - 1
    }

    method GetNext() returns (d: SbbData)
      requires Valid() && HasNext()
      modifies this
      ensures Valid() && out == old(out) + [d]
      ensures |cuts| - id < |cuts| - old(id) || (id == old(id) && |buf| < |old(buf)|) || old(numit) == 0
      ensures numit > 0 && id >= old(id)
    {
      ghost var p := if at == [] then Position(0, 0) else Following(cuts, at[|at| - 1]);
      RestGoesOn(cuts, out, at, id, numit, buf, p);
      hide Follows, Cuts, Rest, Following;
      var isFirst := false;
      if buf == [] {
        buf := cuts[numit];
        id := numit;
        numit := numit + 1;
        isFirst := true;
      }
      var b := buf[0];
      buf := buf[1..];
      d := SbbData(count, StoreEntry(id, b.ms, b.me), b.box, !isFirst, buf != []);
      count := count + 1;
      FollowsOn(cuts, out, at, d, p);
      out, at := out + [d], at + [p];
    }

    /** Reads the stream to its end. It is complete, unless there is just one trajectory: then nothing comes,
        since the test for more compares trajectory numbers that are both 0. */
    method Drain() returns (stream: seq<SbbData>)
      requires Valid() && out == []
      modifies this
      ensures Valid() && stream == out && (if |cuts| == 1 then stream == [] else Complete(cuts, at))
    {
      stream := [];
      while HasNext()
        invariant Valid() && stream == out
        invariant at == [] ==> |buf| == 0 && id == 0
        invariant |cuts| == 1 ==> at == []
        decreases at == [], |cuts| - id, |buf|
      {
        var d := GetNext();
        stream := stream + [d];
      }
    }
  }

  /** From cut trajectories to the finished index: with link storing on and more than one leaf, the links lead
      through each trajectory in order. A single trajectory makes no stream, and the load is refused. */
  method IndexTrajectories(source: XSbbStream, loader: Loader, tree: RTree, bindex: nat, bleaf: nat, pageSize: nat,
                           numberOfPages: nat, tuning: Tuning) returns (ok: bool, ghost levels: seq<Built>)
    requires source.Valid() && source.out == [] && TakesRoots(tuning.pow)
    requires tree.Valid() && tree.rootID in tree.nodes && tree.dimension >= 1
    requires bleaf >= 1 && bindex >= 2 && pageSize >= 1 && numberOfPages >= 2
    modifies source, loader, tree
    ensures tree.Valid() && ok == (|source.cuts| >= 2)
    ensures !ok ==> tree.nodes == old(tree.nodes) && tree.rootID == old(tree.rootID) && tree.height == old(tree.height)
    ensures ok ==> Complete(source.cuts, source.at) && Follows(source.cuts, source.out, source.at)
    ensures ok ==> Loaded(old(tree.nodes) - {old(tree.rootID)}, tree.nodes, tree.rootID, tree.height, source.out,
                          bleaf, bindex, tree.storingLinks)
    ensures ok && tree.storingLinks && tree.height >= 2 ==>
              LinkedTree(old(tree.nodes) - {old(tree.rootID)}, tree.nodes, tree.rootID, tree.height, source.out)
    ensures ok ==> Layered(Plan(tree.dimension, bleaf, bindex, pageSize, numberOfPages, tuning), tree.nodes,
                           tree.rootID, tree.height, source.out, tree.storingLinks, levels)
  {
    assert DistinctBoxes([]);
    hide Layered, Loaded, LinksLead, DistinctBoxes, LinkClosed, Follows;
    var stream := source.Drain();
    if |source.cuts| >= 2 { StreamIsClosed(source.cuts, stream, source.at); }
    ghost var before := tree.nodes - {tree.rootID};
    ok, levels := BulkLoadUsingSTR(loader, tree, stream, bindex, bleaf, pageSize, numberOfPages, tuning);
    if ok { LoadedLinks(before, tree.nodes, tree.rootID, tree.height, stream, bleaf, bindex, tree.storingLinks); }
  }

  lemma LoadedLinks(before: map<int, Node>, nodes: map<int, Node>, rootID: int, height: nat, stream: seq<SbbData>,
                    bleaf: nat, bindex: nat, linking: bool)
    requires bleaf >= 1 && bindex >= 1 && Loaded(before, nodes, rootID, height, stream, bleaf, bindex, linking)
    requires DistinctBoxes(stream) && LinkClosed(stream) && forall id :: id in nodes ==> id >= 0
    ensures linking && height >= 2 ==> LinkedTree(before, nodes, rootID, height, stream)
  {
  }
}
