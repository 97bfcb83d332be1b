/** Bottom-up bulk loading: each level's records are sorted, cut into slabs dimension by dimension, packed
    into nodes, and the nodes become the records of the next level, until one node is left. */
module BulkLoader {
  import opened Boxes
  import opened Counting
  import opened ExternalSorter
  import opened Wrappers

  /** A child of a node. `box` is the box of the child node or, at the leaves, of the bounding shape kept there.
      `boxed` tells whether it is also in the slot that lookups compare. At the leaves `prev` and `next` first
      hold 0/1 flags and later leaf ids or -1. */
  datatype Entry = Entry(id: int, box: Box, boxed: bool, se: Option<StoreEntry>, prev: int, next: int)

  datatype Node = Node(level: nat, mbr: Box, entries: seq<Entry>)

  function Flag(b: bool): int { if b then 1 else 0 }

  function DataRecord(d: SbbData): Record { Record(d.sbbid, d.box, Some(d)) }

  function EntryOf(r: Record): Entry {
    match r.data
    case Some(d) => Entry(d.sbbid, d.box, true, Some(d.se), Flag(d.hasPrev), Flag(d.hasNext))
    case None => Entry(r.id, r.box, true, None, -1, -1)
  }

  /** The combined box of the records, in the order they are added. */
  function MbrOf(rs: seq<Record>): Box {
    if rs == [] then INFINITE_BOX else MbrOf(rs[..|rs| - 1]).CombineBox(EntryOf(rs[|rs| - 1]).box)
  }

  function NodeOf(rs: seq<Record>, level: nat): Node {
    Node(level, MbrOf(rs), seq(|rs|, i requires 0 <= i < |rs| => EntryOf(rs[i])))
  }

  // ----- what a page keeps of a node

  /** A leaf entry written to its page and read back: its box slot is unset, and its links are there only if
      the tree stores links. */
  function KeptEntry(e: Entry, linking: bool): Entry {
    e.(boxed := false, prev := if linking then e.prev else -1, next := if linking then e.next else -1)
  }

  /** A node written to its page and read back. */
  function Kept(n: Node, linking: bool): Node {
    if n.level > 0 then n
    else n.(entries := seq(|n.entries|, i requires 0 <= i < |n.entries| => KeptEntry(n.entries[i], linking)))
  }

  /** The stored form of a node made from records. */
  function StoredNode(rs: seq<Record>, level: nat, linking: bool): Node { Kept(NodeOf(rs, level), linking) }

  /** A node holds every entry box. */
  lemma {:induction false} MbrHolds(rs: seq<Record>, i: nat)
    requires i < |rs|
    ensures MbrOf(rs).Contains(EntryOf(rs[i]).box)
  {
    var n := |rs| - 1;
    if i < n {
      MbrHolds(rs[..n], i);
    }
  }

  /** ... and nothing more than its entries need. */
  lemma {:induction false} MbrIsLeast(rs: seq<Record>, c: Box)
    requires c.Contains(INFINITE_BOX) && forall i :: 0 <= i < |rs| ==> c.Contains(EntryOf(rs[i]).box)
    ensures c.Contains(MbrOf(rs))
  {
    if rs != [] {
      var n := |rs| - 1;
      MbrIsLeast(rs[..n], c);
    }
  }

  // ----- what one level does

  /** The nodes made on a level: their records in order, and their ids. */
  datatype Built = Built(groups: seq<seq<Record>>, ids: seq<int>)

  function Join(a: Built, c: Built): Built { Built(a.groups + c.groups, a.ids + c.ids) }

  /** All nodes are full, except possibly the last made, and none is empty. */
  ghost predicate Packed(groups: seq<seq<Record>>, b: nat) {
    forall k :: 0 <= k < |groups| ==> 0 < |groups[k]| <= b && (k < |groups| - 1 ==> |groups[k]| == b)
  }

  ghost predicate AllFull(groups: seq<seq<Record>>, b: nat) {
    forall k :: 0 <= k < |groups| ==> |groups[k]| == b
  }

  // ----- which records share a node

  /** What decides the number of slabs: the cost formulas along the first axis, a root along the others. */
  datatype Tuning = Tuning(slabs: nat -> nat, pow: Power)

  /** How a level is tiled: the number of axes, the records to a node, the sorter's buffer and its pages. */
  datatype Tiling = Tiling(axes: nat, b: nat, capacity: nat, bufferPages: nat, tuning: Tuning)

  /** The number of slabs for `p` nodes. Along the first axis it is what the cost formulas say, if that is from 1 to
      `p`; along the others the least number which, so many times along each axis left, gives a slab for each node. */
  ghost predicate SlabsFor(t: Tiling, axis: nat, p: nat, s: int)
    requires axis < t.axes
  {
    if axis == 0 then s == if 1 <= t.tuning.slabs(p) <= p then t.tuning.slabs(p) else 1
    else LeastRoot(s, t.axes - axis, p)
  }

  /** The groups that sort-tile-recursive makes of records delivered in this order: along the last axis, or when slabs
      do not pay, full nodes as they come; otherwise slabs. */
  ghost predicate Tiled(t: Tiling, axis: nat, groups: seq<seq<Record>>, rs: seq<Record>)
    requires t.b >= 1 && axis < t.axes
    decreases t.axes - axis, 0, 0
  {
    var p := CeilDiv(|rs|, t.b);
    exists s :: SlabsFor(t, axis, p, s) &&
      if axis + 1 == t.axes || p <= s || s * t.b > |rs| then Concat(groups) == rs && Packed(groups, t.b)
      else s >= 1 && InSlabs(t, axis, t.b * CeilDiv(p, s), groups, rs)
  }

  /** Every next `n` records are a slab: sorted along the next axis, and tiled in the same way from there on. */
  ghost predicate InSlabs(t: Tiling, axis: nat, n: nat, groups: seq<seq<Record>>, rs: seq<Record>)
    requires t.b >= 1 && axis + 1 < t.axes
    decreases t.axes - axis - 1, 1, |rs|
  {
    if rs == [] then groups == []
    else exists g, slab :: SlabIs(t, axis, n, groups, rs, g, slab)
  }

  ghost predicate SlabIs(t: Tiling, axis: nat, n: nat, groups: seq<seq<Record>>, rs: seq<Record>, g: nat,
                         slab: seq<Record>)
    requires t.b >= 1 && axis + 1 < t.axes && rs != []
    decreases t.axes - axis - 1, 1, |rs|, 0
  {
    && g <= |groups| && n >= 1
    && Sorts(axis + 1, t.capacity, t.bufferPages, First(rs, n), slab)
    && Tiled(t, axis + 1, groups[..g], slab)
    && InSlabs(t, axis, n, groups[g..], rs[|First(rs, n)|..])
  }

  /** The first `n` records, or all if there are fewer. */
  function First(rs: seq<Record>, n: nat): (r: seq<Record>)
    ensures n >= 1 && rs != [] ==> r != []
    ensures |r| <= |rs|
  {
    if n <= |rs| then rs[..n] else rs
  }

  /** The groups so far are slabs of what has been delivered, however the rest is tiled. */
  ghost predicate SlabsSoFar(t: Tiling, axis: nat, n: nat, groups: seq<seq<Record>>, all: seq<Record>,
                             rest: seq<Record>)
    requires t.b >= 1 && axis + 1 < t.axes
  {
    forall more :: InSlabs(t, axis, n, more, rest) ==> InSlabs(t, axis, n, groups + more, all)
  }

  lemma NoSlabs(t: Tiling, axis: nat, n: nat, all: seq<Record>)
    requires t.b >= 1 && axis + 1 < t.axes
    ensures SlabsSoFar(t, axis, n, [], all, all)
  {
    hide InSlabs;
    forall more: seq<seq<Record>>
      ensures [] + more == more
    {
    }
  }

  /** One more slab. */
  lemma NextIsSlab(t: Tiling, axis: nat, n: nat, groups: seq<seq<Record>>, all: seq<Record>, rest: seq<Record>,
                   one: seq<seq<Record>>, slab: seq<Record>)
    requires t.b >= 1 && axis + 1 < t.axes && n >= 1 && rest != []
    requires SlabsSoFar(t, axis, n, groups, all, rest)
    requires Sorts(axis + 1, t.capacity, t.bufferPages, First(rest, n), slab) && Tiled(t, axis + 1, one, slab)
    ensures SlabsSoFar(t, axis, n, groups + one, all, rest[|First(rest, n)|..])
  {
    hide Sorts, Tiled;
    forall more | InSlabs(t, axis, n, more, rest[|First(rest, n)|..])
      ensures InSlabs(t, axis, n, groups + one + more, all)
    {
      assert (one + more)[..|one|] == one && (one + more)[|one|..] == more;
      assert SlabIs(t, axis, n, one + more, rest, |one|, slab);
      assert groups + one + more == groups + (one + more);
    }
  }

  lemma SlabsDone(t: Tiling, axis: nat, n: nat, groups: seq<seq<Record>>, all: seq<Record>)
    requires t.b >= 1 && axis + 1 < t.axes && SlabsSoFar(t, axis, n, groups, all, [])
    ensures InSlabs(t, axis, n, groups, all)
  {
    assert InSlabs(t, axis, n, [], []);
    assert groups + [] == groups;
  }

  /** Tiling keeps the records. */
  lemma {:induction false} TiledConserves(t: Tiling, axis: nat, groups: seq<seq<Record>>, rs: seq<Record>)
    requires t.b >= 1 && axis < t.axes && Tiled(t, axis, groups, rs)
    ensures Flat(groups) == multiset(rs)
    decreases t.axes - axis, 0
  {
    hide Packed, Flat;
    var p := CeilDiv(|rs|, t.b);
    var s :| SlabsFor(t, axis, p, s) &&
      if axis + 1 == t.axes || p <= s || s * t.b > |rs| then Concat(groups) == rs && Packed(groups, t.b)
      else s >= 1 && InSlabs(t, axis, t.b * CeilDiv(p, s), groups, rs);
    if axis + 1 == t.axes || p <= s || s * t.b > |rs| {
      ConcatFlat(groups);
    } else {
      InSlabsConserves(t, axis, t.b * CeilDiv(p, s), groups, rs);
    }
  }

  lemma {:induction false} InSlabsConserves(t: Tiling, axis: nat, n: nat, groups: seq<seq<Record>>, rs: seq<Record>)
    requires t.b >= 1 && axis + 1 < t.axes && InSlabs(t, axis, n, groups, rs)
    ensures Flat(groups) == multiset(rs)
    decreases t.axes - axis - 1, 1, |rs|
  {
    if rs != [] {
      hide Tiled, Flat, Sorts;
      var g, slab :| SlabIs(t, axis, n, groups, rs, g, slab);
      SlabConserves(t, axis, n, groups, rs, g, slab);
    } else {
      assert Flat([]) == multiset{};
    }
  }

  lemma {:induction false} SlabConserves(t: Tiling, axis: nat, n: nat, groups: seq<seq<Record>>, rs: seq<Record>,
                                         g: nat, slab: seq<Record>)
    requires t.b >= 1 && axis + 1 < t.axes && rs != [] && SlabIs(t, axis, n, groups, rs, g, slab)
    ensures Flat(groups[..g]) == multiset(First(rs, n)) && Flat(groups[g..]) == multiset(rs[|First(rs, n)|..])
    ensures Flat(groups) == multiset(rs)
    decreases t.axes - axis - 1, 1, |rs|, 0
  {
    hide Flat, Sorts, Tiled, InSlabs;
    SortsConserve(axis + 1, t.capacity, t.bufferPages, First(rs, n), slab);
    TiledConserves(t, axis + 1, groups[..g], slab);
    InSlabsConserves(t, axis, n, groups[g..], rs[|First(rs, n)|..]);
    FlatSplit(groups, g);
    assert rs == First(rs, n) + rs[|First(rs, n)|..];
  }

  /** Of records in order along an axis, no record of a slab comes after one of a later slab along that axis. */
  lemma SlabsInOrder(t: Tiling, axis: nat, n: nat, groups: seq<seq<Record>>, rs: seq<Record>, g: nat,
                     slab: seq<Record>, r: Record, q: Record)
    requires t.b >= 1 && axis + 1 < t.axes && rs != [] && SlabIs(t, axis, n, groups, rs, g, slab)
    requires Ascending(axis, rs) && r in Flat(groups[..g]) && q in Flat(groups[g..])
    ensures Key(axis, r) <= Key(axis, q)
  {
    SlabConserves(t, axis, n, groups, rs, g, slab);
    hide Flat, SlabIs, Key;
    var m := |First(rs, n)|;
    assert r in First(rs, n) && q in rs[m..];
    var i :| 0 <= i < m && rs[i] == r;
    var j :| m <= j < |rs| && rs[j] == q;
  }

  /** Along the last axis no record of a node comes after one of a later node. */
  lemma NodesInOrder(t: Tiling, groups: seq<seq<Record>>, rs: seq<Record>, k: nat, r: Record, q: Record)
    requires t.b >= 1 && t.axes >= 1 && Tiled(t, t.axes - 1, groups, rs) && Ascending(t.axes - 1, rs)
    requires k <= |groups| && r in Flat(groups[..k]) && q in Flat(groups[k..])
    ensures Key(t.axes - 1, r) <= Key(t.axes - 1, q)
  {
    hide Flat, Key, Packed;
    var a, c := Concat(groups[..k]), Concat(groups[k..]);
    assert groups == groups[..k] + groups[k..];
    ConcatJoin(groups[..k], groups[k..]);
    ConcatFlat(groups[..k]);
    ConcatFlat(groups[k..]);
    assert rs == a + c && r in a && q in c;
    var i :| 0 <= i < |a| && a[i] == r;
    var j :| 0 <= j < |c| && c[j] == q;
    assert rs[i] == r && rs[|a| + j] == q;
  }

  /** Packing determines the number of nodes. */
  lemma PackedCount(groups: seq<seq<Record>>, b: nat)
    requires b >= 1 && Packed(groups, b)
    ensures |groups| == CeilDiv(|Flat(groups)|, b)
    ensures |Flat(groups)| % b == 0 ==> AllFull(groups, b)
  {
    if groups == [] {
      CeilDivIs(0, b, 0);
    } else {
      var q := |groups| - 1;
      var last := |groups[q]|;
      PackedSize(groups, b);
      assert (q + 1) * b == q * b + b;
      hide Flat;
      CeilDivIs(|Flat(groups)|, b, |groups|);
      if last < b { DivIs(q * b + last, b, q, last); }
    }
  }

  lemma PackedSize(groups: seq<seq<Record>>, b: nat)
    requires b >= 1 && Packed(groups, b) && groups != []
    ensures |Flat(groups)| == (|groups| - 1) * b + |groups[|groups| - 1]|
  {
    var q := |groups| - 1;
    FlatSplit(groups, q);
    FullSize(groups[..q], b);
    assert groups[q..] == [groups[q]];
    SingleFile(groups[q]);
  }

  lemma {:induction false} FullSize(groups: seq<seq<Record>>, b: nat)
    requires AllFull(groups, b)
    ensures |Flat(groups)| == |groups| * b
  {
    if groups != [] {
      FullSize(groups[1..], b);
      assert |groups| * b == (|groups| - 1) * b + b;
    }
  }

  lemma PackedJoin(a: seq<seq<Record>>, c: seq<seq<Record>>, b: nat)
    requires b >= 1 && AllFull(a, b) && Packed(c, b)
    ensures Packed(a + c, b)
    ensures AllFull(c, b) ==> AllFull(a + c, b)
  {
  }

  /** Some record of the multiset has this id. */
  ghost predicate Mentions(m: multiset<Record>, id: int) {
    exists r :: r in m && r.id == id
  }

  /** No two records share an id. */
  ghost predicate DistinctIds(m: multiset<Record>) {
    && (forall r :: r in m ==> m[r] == 1)
    && (forall r, r' :: r in m && r' in m && r.id == r'.id ==> r == r')
  }

  lemma DistinctParts(a: multiset<Record>, c: multiset<Record>)
    requires DistinctIds(a + c)
    ensures DistinctIds(a) && DistinctIds(c)
    ensures forall r, r' :: r in a && r' in c ==> r.id != r'.id
  {
    forall r | r in a ensures a[r] == 1 { assert r in a + c && (a + c)[r] == 1; }
    forall r | r in c ensures c[r] == 1 { assert r in a + c && (a + c)[r] == 1; }
    assert forall r :: r in a ==> r in a + c;
    assert forall r :: r in c ==> r in a + c;
    forall r, r' | r in a && r' in c
      ensures r.id != r'.id
    {
      assert r in a + c && r' in a + c && (a + c)[r] == a[r] + c[r];
    }
  }

  /** The leaf that a box was put in; absent boxes read as 0, as a freshly created map slot does. */
  function PartAt(part2node: map<int, int>, id: int): int {
    if id in part2node then part2node[id] else 0
  }

  /** Turns the flags of a leaf entry into the ids of the leaves of its neighbours. */
  function LinkEntry(e: Entry, part2node: map<int, int>): Entry {
    e.(prev := if e.prev != 0 then PartAt(part2node, e.id - 1) else -1,
       next := if e.next != 0 then PartAt(part2node, e.id + 1) else -1)
  }

  function Relinked(n: Node, part2node: map<int, int>): Node {
    n.(entries := seq(|n.entries|, i requires 0 <= i < |n.entries| => LinkEntry(n.entries[i], part2node)))
  }

  /** A leaf read, linked and stored again. */
  function LinkNode(n: Node, part2node: map<int, int>): Node { Kept(Relinked(n, part2node), true) }

  /** The loader's view of the world: the stored nodes and the map from boxes to leaves. */
  datatype World = World(nodes: map<int, Node>, part2node: map<int, int>)

  /** The new nodes of a level sit on new pages. */
  ghost predicate NewNodes(w: World, w': World, built: Built, level: nat, linking: bool) {
    && |built.ids| == |built.groups|
    && (forall i, j :: 0 <= i < j < |built.ids| ==> built.ids[i] != built.ids[j])
    && (forall k :: 0 <= k < |built.ids| ==> built.ids[k] !in w.nodes)
    && (forall k :: 0 <= k < |built.ids| ==>
          built.ids[k] in w'.nodes && w'.nodes[built.ids[k]] == StoredNode(built.groups[k], level, linking))
    && (forall id :: id in w'.nodes ==> id in w.nodes || id in built.ids)
  }

  /** What a level leaves of a node stored before: with link storing on, level 1 links the leaves it collects. */
  ghost function Touched(n: Node, id: int, m: multiset<Record>, level: nat, linking: bool,
                         part2node: map<int, int>): Node {
    if linking && level == 1 && Mentions(m, id) then LinkNode(n, part2node) else n
  }

  ghost predicate OldNodes(w: World, w': World, m: multiset<Record>, level: nat, linking: bool) {
    forall id :: id in w.nodes ==>
          id in w'.nodes && w'.nodes[id] == Touched(w.nodes[id], id, m, level, linking, w.part2node)
  }

  /** With link storing on, level 0 maps each box to the leaf it is in, and touches no other box. */
  ghost predicate Placed(m: map<int, int>, m': map<int, int>, built: Built) {
    && |built.ids| == |built.groups|
    && (forall k, j :: 0 <= k < |built.groups| && 0 <= j < |built.groups[k]| ==>
          built.groups[k][j].id in m' && m'[built.groups[k][j].id] == built.ids[k])
    && (forall id :: !Mentions(Flat(built.groups), id) ==> (id in m' <==> id in m) && (id in m ==> m'[id] == m[id]))
  }

  /** All that making the nodes of `built` on a level does. */
  ghost predicate Effect(w: World, w': World, built: Built, level: nat, linking: bool) {
    && NewNodes(w, w', built, level, linking)
    && OldNodes(w, w', Flat(built.groups), level, linking)
    && (if linking && level == 0 then Placed(w.part2node, w'.part2node, built) else w'.part2node == w.part2node)
  }

  lemma EffectNothing(w: World, level: nat, linking: bool)
    ensures Effect(w, w, Built([], []), level, linking)
  {
  }

  lemma GroupMentions(groups: seq<seq<Record>>, k: nat, j: nat)
    requires k < |groups| && j < |groups[k]|
    ensures groups[k][j] in Flat(groups) && Mentions(Flat(groups), groups[k][j].id)
  {
    FlatSplit(groups, k);
    assert groups[k..][0] == groups[k] && groups[k][j] in multiset(groups[k]);
  }

  lemma MentionsSum(a: multiset<Record>, c: multiset<Record>, id: int)
    ensures Mentions(a + c, id) <==> Mentions(a, id) || Mentions(c, id)
  {
    if Mentions(a, id) { var r :| r in a && r.id == id; assert r in a + c; }
    if Mentions(c, id) { var r :| r in c && r.id == id; assert r in a + c; }
    if Mentions(a + c, id) { var r :| r in a + c && r.id == id; assert r in a || r in c; }
  }

  /** Every record that level 1 links stands for a node stored before. */
  ghost predicate Known(w: World, m: multiset<Record>, level: nat, linking: bool) {
    linking && level == 1 ==> forall r :: r in m ==> r.id in w.nodes
  }

  lemma JoinNew(w: World, w': World, w'': World, a: Built, c: Built, level: nat, linking: bool)
    requires NewNodes(w, w', a, level, linking) && NewNodes(w', w'', c, level, linking)
    requires OldNodes(w, w', Flat(a.groups), level, linking) && OldNodes(w', w'', Flat(c.groups), level, linking)
    requires Known(w, Flat(c.groups), level, linking)
    ensures NewNodes(w, w'', Join(a, c), level, linking)
  {
    hide Flat, StoredNode;
    var ac := Join(a, c);
    forall k | 0 <= k < |ac.ids|
      ensures ac.ids[k] !in w.nodes && ac.ids[k] in w''.nodes
              && w''.nodes[ac.ids[k]] == StoredNode(ac.groups[k], level, linking)
    {
      if k < |a.ids| {
        assert ac.ids[k] == a.ids[k] && ac.groups[k] == a.groups[k];
        assert a.ids[k] in w'.nodes && a.ids[k] !in w.nodes;
        assert linking && level == 1 ==> !Mentions(Flat(c.groups), a.ids[k]);
      } else {
        assert ac.ids[k] == c.ids[k - |a.ids|] && ac.groups[k] == c.groups[k - |a.ids|];
      }
    }
    forall i, j | 0 <= i < j < |ac.ids|
      ensures ac.ids[i] != ac.ids[j]
    {
      if i < |a.ids| <= j { assert a.ids[i] in w'.nodes && c.ids[j - |a.ids|] !in w'.nodes; }
    }
  }

  lemma JoinOld(w: World, w': World, w'': World, ma: multiset<Record>, mc: multiset<Record>, level: nat, linking: bool)
    requires OldNodes(w, w', ma, level, linking) && OldNodes(w', w'', mc, level, linking)
    requires w'.part2node == w.part2node || !linking || level != 1
    requires linking ==> DistinctIds(ma + mc)
    ensures OldNodes(w, w'', ma + mc, level, linking)
  {
    if linking { DistinctParts(ma, mc); }
    hide LinkNode, DistinctIds;
    forall id | id in w.nodes
      ensures id in w''.nodes && w''.nodes[id] == Touched(w.nodes[id], id, ma + mc, level, linking, w.part2node)
    {
      MentionsSum(ma, mc, id);
      assert id in w'.nodes;
    }
  }

  lemma JoinPlaced(m: map<int, int>, m': map<int, int>, m'': map<int, int>, a: Built, c: Built)
    requires Placed(m, m', a) && Placed(m', m'', c)
    requires DistinctIds(Flat(a.groups) + Flat(c.groups))
    ensures Placed(m, m'', Join(a, c))
  {
    FlatConcat(a.groups, c.groups);
    DistinctParts(Flat(a.groups), Flat(c.groups));
    hide Flat, DistinctIds;
    var ac := Join(a, c);
    forall k, j | 0 <= k < |ac.groups| && 0 <= j < |ac.groups[k]|
      ensures ac.groups[k][j].id in m'' && m''[ac.groups[k][j].id] == ac.ids[k]
    {
      if k < |a.groups| {
        assert ac.groups[k] == a.groups[k];
        GroupMentions(a.groups, k, j);
        assert !Mentions(Flat(c.groups), a.groups[k][j].id);
      } else {
        assert ac.groups[k] == c.groups[k - |a.groups|];
      }
    }
    forall id | !Mentions(Flat(ac.groups), id)
      ensures (id in m'' <==> id in m) && (id in m ==> m''[id] == m[id])
    {
      MentionsSum(Flat(a.groups), Flat(c.groups), id);
    }
  }

  /** Effects compose when no id is mentioned twice. */
  lemma EffectJoin(w: World, w': World, w'': World, a: Built, c: Built, level: nat, linking: bool)
    requires Effect(w, w', a, level, linking) && Effect(w', w'', c, level, linking)
    requires linking ==> DistinctIds(Flat(a.groups) + Flat(c.groups))
    requires Known(w, Flat(c.groups), level, linking)
    ensures Effect(w, w'', Join(a, c), level, linking)
    ensures Flat(Join(a, c).groups) == Flat(a.groups) + Flat(c.groups)
  {
    FlatConcat(a.groups, c.groups);
    hide Flat, DistinctIds, Placed, OldNodes, NewNodes;
    JoinNew(w, w', w'', a, c, level, linking);
    JoinOld(w, w', w'', Flat(a.groups), Flat(c.groups), level, linking);
    if linking && level == 0 {
      JoinPlaced(w.part2node, w'.part2node, w''.part2node, a, c);
    }
  }

  // ----- the stored tree

  class RTree {
    const dimension: nat
    const storingLinks: bool
    /** The pages, each as it reads back. */
    var nodes: map<int, Node>
    var rootID: int
    var height: nat
    var nextPage: nat

    constructor (dimension: nat, storingLinks: bool)
      ensures Valid() && this.dimension == dimension && this.storingLinks == storingLinks
      ensures nodes == map[rootID := Node(0, INFINITE_BOX, [])] && height == 1
    {
      this.dimension, this.storingLinks := dimension, storingLinks;
      nodes, rootID, height, nextPage := map[0 := Node(0, INFINITE_BOX, [])], 0, 1, 1;
    }

    /** Pages handed out so far. */
    ghost predicate Valid()
      reads this
    {
      forall id :: id in nodes ==> 0 <= id < nextPage
    }

    /** Stores a node without an identifier on a new page. */
    method WriteNew(n: Node) returns (id: int)
      requires Valid()
      modifies `nodes, `nextPage
      ensures Valid() && id !in old(nodes) && nodes == old(nodes)[id := Kept(n, storingLinks)]
    {
      id := nextPage;
      nodes, nextPage := nodes[id := Kept(n, storingLinks)], nextPage + 1;
    }

    /** Stores a node again on its own page. */
    method Rewrite(id: int, n: Node)
      requires Valid() && id in nodes
      modifies `nodes
      ensures Valid() && nodes == old(nodes)[id := Kept(n, storingLinks)]
    {
      nodes := nodes[id := Kept(n, storingLinks)];
    }
  }

  method CreateNode(rs: seq<Record>, level: nat) returns (n: Node)
    ensures n == NodeOf(rs, level)
    ensures forall e :: e in n.entries ==> e.boxed && n.mbr.Contains(e.box)
  {
    var mbr, entries := INFINITE_BOX, [];
    for i := 0 to |rs|
      invariant mbr == MbrOf(rs[..i]) && |entries| == i
      invariant forall k :: 0 <= k < i ==> entries[k] == EntryOf(rs[k])
    {
      var e := EntryOf(rs[i]);
      assert rs[..i + 1][..i] == rs[..i];
      mbr, entries := mbr.CombineBox(e.box), entries + [e];
    }
    assert rs[..|rs|] == rs;
    n := Node(level, mbr, entries);
    forall i | 0 <= i < |rs| ensures n.mbr.Contains(EntryOf(rs[i]).box) { MbrHolds(rs, i); }
  }

  /** The records of a level's nodes, which the next level sorts. */
  ghost function NodeRecords(built: Built): seq<Record>
    requires |built.ids| == |built.groups|
  {
    seq(|built.ids|, k requires 0 <= k < |built.ids| => Record(built.ids[k], MbrOf(built.groups[k]), None))
  }

  class Loader {
    var part2node: map<int, int>

    constructor ()
      ensures part2node == map[]
    {
      part2node := map[];
    }

    ghost function WorldOf(tree: RTree): World
      reads this, tree
    {
      World(tree.nodes, part2node)
    }

    /** Level 0: states the storage place of the boxes of a new leaf. */
    method RecordParts(n: Node, id: int, ghost rs: seq<Record>)
      requires n.entries == NodeOf(rs, 0).entries && (forall r :: r in rs ==> EntryOf(r).id == r.id)
      modifies this
      ensures Placed(old(part2node), part2node, Built([rs], [id]))
    {
      SingleFile(rs);
      for i := 0 to |n.entries|
        invariant forall k :: 0 <= k < i ==> rs[k].id in part2node && part2node[rs[k].id] == id
        invariant forall b :: !Mentions(multiset(rs), b) ==>
                    (b in part2node <==> b in old(part2node)) && (b in part2node ==> part2node[b] == old(part2node)[b])
      {
        assert rs[i] in multiset(rs) && n.entries[i].id == rs[i].id;
        part2node := part2node[n.entries[i].id := id];
      }
    }

    /** A flag is turned into the leaf of the neighbour, 0 if that is in none, or -1 if there is no neighbour. */
    ghost predicate LinkTo(flag: int, id: int, link: int)
      reads this
    {
      link == if flag == 0 then -1 else if id in part2node then part2node[id] else 0
    }

    /** Links every entry of one leaf to its neighbours' leaves. */
    method LinkLeaf(child: Node) returns (linked: Node)
      ensures linked == Relinked(child, part2node)
      ensures forall k :: 0 <= k < |child.entries| ==>
                && LinkTo(child.entries[k].prev, child.entries[k].id - 1, linked.entries[k].prev)
                && LinkTo(child.entries[k].next, child.entries[k].id + 1, linked.entries[k].next)
    {
      var entries := [];
      for j := 0 to |child.entries|
        invariant |entries| == j
        invariant forall k :: 0 <= k < j ==> entries[k] == LinkEntry(child.entries[k], part2node)
      {
        var e := child.entries[j];
        var prev := if e.prev != 0 then PartAt(part2node, e.id - 1) else -1;
        var next := if e.next != 0 then PartAt(part2node, e.id + 1) else -1;
        entries := entries + [e.(prev := prev, next := next)];
      }
      linked := child.(entries := entries);
    }

    /** Level 1: links the boxes of every leaf the new node collects, and stores those leaves again. */
    method LinkChildren(tree: RTree, n: Node, ghost rs: seq<Record>)
      requires tree.Valid() && tree.storingLinks && n.entries == NodeOf(rs, 1).entries
               && (forall r :: r in rs ==> EntryOf(r).id == r.id)
      requires DistinctIds(multiset(rs)) && forall r :: r in rs ==> r.id in tree.nodes
      modifies tree`nodes
      ensures tree.Valid() && tree.nodes.Keys == old(tree.nodes).Keys
      ensures OldNodes(old(WorldOf(tree)), WorldOf(tree), multiset(rs), 1, true)
    {
      assert OldNodes(WorldOf(tree), WorldOf(tree), multiset(rs[..0]), 1, true);
      hide LinkNode, Mentions, DistinctIds, OldNodes;
      for i := 0 to |n.entries|
        invariant tree.Valid() && tree.nodes.Keys == old(tree.nodes).Keys
        invariant OldNodes(old(WorldOf(tree)), WorldOf(tree), multiset(rs[..i]), 1, true)
      {
        var id := n.entries[i].id;
        ghost var before := WorldOf(tree);
        assert rs[i] in rs && rs[i].id == id;
        var child := LinkLeaf(tree.nodes[id]);
        tree.Rewrite(id, child);
        ExtendLinked(old(WorldOf(tree)), before, WorldOf(tree), rs, i);
      }
      assert rs[..|rs|] == rs;
    }

    /** Turns collected records into a stored node and hands its record to the next level. */
    method Emit(tree: RTree, rs: seq<Record>, level: nat, es2: Sorter) returns (ghost built: Built)
      requires tree.Valid() && es2.Valid() && es2.insertionPhase
      requires Fit(WorldOf(tree), multiset(rs), level, tree.storingLinks)
      modifies this, tree, es2
      ensures tree.Valid() && es2.Valid() && es2.insertionPhase
      ensures built.groups == [rs] && Flat(built.groups) == multiset(rs)
      ensures Made(old(Snap(tree, es2)), Snap(tree, es2), built, level, tree.storingLinks)
    {
      SingleFile(rs);
      hide Sorter.Inserted, DistinctIds, LinkNode, MbrOf, NodeOf, StoredNode, Coherent, Placed, OldNodes, Effect;
      ghost var before := WorldOf(tree);
      var n, id := StoreNode(tree, rs, level, es2);
      built := Built([rs], [id]);
      assert NodeRecords(built) == [Record(id, MbrOf(rs), None)];
      ghost var stored := WorldOf(tree);
      LinkUp(tree, n, id, rs, level);
      EmitEffect(before, stored, WorldOf(tree), rs, id, level, tree.storingLinks);
    }

    /** One more node on top of what has been built. */
    method EmitJoin(tree: RTree, rs: seq<Record>, level: nat, es2: Sorter, ghost start: Snapshot, ghost built: Built,
                    ghost all: multiset<Record>, ghost rest: multiset<Record>)
      returns (ghost joined: Built)
      requires tree.Valid() && es2.Valid() && es2.insertionPhase
      requires Made(start, Snap(tree, es2), built, level, tree.storingLinks)
      requires all == Flat(built.groups) + multiset(rs) + rest && Fit(start.w, all, level, tree.storingLinks)
      modifies this, tree, es2
      ensures tree.Valid() && es2.Valid() && es2.insertionPhase
      ensures Made(start, Snap(tree, es2), joined, level, tree.storingLinks)
      ensures joined.groups == built.groups + [rs] && Flat(joined.groups) == Flat(built.groups) + multiset(rs)
    {
      hide Made, Fit, Flat, Sorter.Inserted;
      ghost var before := Snap(tree, es2);
      FitPart(start, before, built, multiset(rs), rest, level, tree.storingLinks);
      ghost var one := Emit(tree, rs, level, es2);
      FitFacts(start.w, Flat(built.groups), multiset(rs), level, tree.storingLinks);
      MadeJoin(start, before, Snap(tree, es2), built, one, level, tree.storingLinks);
      joined := Join(built, one);
    }

    method StoreNode(tree: RTree, rs: seq<Record>, level: nat, es2: Sorter) returns (n: Node, id: int)
      requires tree.Valid() && es2.Valid() && es2.insertionPhase
      modifies tree, es2
      ensures tree.Valid() && es2.Valid() && es2.insertionPhase
      ensures n == NodeOf(rs, level) && id !in old(tree.nodes)
              && tree.nodes == old(tree.nodes)[id := StoredNode(rs, level, tree.storingLinks)] && tree.rootID == id
      ensures es2.Inserted() == old(es2.Inserted()) + [Record(id, MbrOf(rs), None)]
              && es2.total == old(es2.total) + 1
    {
      n := CreateNode(rs, level);
      id := tree.WriteNew(n);
      var ok := es2.Insert(Record(id, n.mbr, None));
      tree.rootID := id;
    }

    /** The linking work for one new node. */
    method LinkUp(tree: RTree, n: Node, id: int, ghost rs: seq<Record>, level: nat)
      requires tree.Valid() && n == NodeOf(rs, level) && Coherent(multiset(rs))
      requires tree.storingLinks ==> DistinctIds(multiset(rs))
      requires Known(WorldOf(tree), multiset(rs), level, tree.storingLinks)
      modifies this, tree`nodes
      ensures tree.Valid() && tree.nodes.Keys == old(tree.nodes).Keys
      ensures if tree.storingLinks && level == 0 then Placed(old(part2node), part2node, Built([rs], [id]))
              else part2node == old(part2node)
      ensures if tree.storingLinks && level == 1 then OldNodes(old(WorldOf(tree)), WorldOf(tree), multiset(rs), 1, true)
              else tree.nodes == old(tree.nodes)
    {
      hide DistinctIds, LinkNode, MbrOf, Placed, OldNodes;
      assert forall r :: r in rs ==> r in multiset(rs);
      if tree.storingLinks {
        if level == 0 {
          RecordParts(n, id, rs);
        } else if level == 1 {
          LinkChildren(tree, n, rs);
        }
      }
    }

    ghost function Snap(tree: RTree, es2: Sorter): Snapshot
      reads this, tree, es2
    {
      Snapshot(WorldOf(tree), tree.rootID, es2.Inserted(), es2.total)
    }

    /** The last dimension: full nodes as they come, then what remains. */
    method PackRecords(tree: RTree, es: Sorter, b: nat, level: nat, es2: Sorter) returns (ghost built: Built)
      requires tree.Valid() && es.Valid() && es2.Valid() && !es.insertionPhase && es2.insertionPhase && b >= 1
               && es != es2
      requires Fit(WorldOf(tree), multiset(es.Delivery()), level, tree.storingLinks)
      modifies this, tree, es, es2
      ensures tree.Valid() && es2.Valid() && es2.insertionPhase
      ensures Made(old(Snap(tree, es2)), Snap(tree, es2), built, level, tree.storingLinks)
      ensures Flat(built.groups) == old(multiset(es.Delivery())) && Packed(built.groups, b)
      ensures Concat(built.groups) == old(es.Delivery())
    {
      hide Made, Fit, Flat, Sorter.Inserted, Sorter.Valid, Sorter.Delivery, RTree.Valid, Concat;
      ghost var start, given := Snap(tree, es2), es.Delivery();
      assert Fit(start.w, multiset(given), level, tree.storingLinks);
      hide Snap, Loader.WorldOf;
      var node: seq<Record> := [];
      built := Built([], []);
      MadeNothing(start, level, tree.storingLinks);
      EmptyPacked(b);
      var more := true;
      while more
        invariant tree.Valid() && es.Valid() && !es.insertionPhase && es2.Valid() && es2.insertionPhase
        invariant |node| < b && AllFull(built.groups, b)
        invariant given == Concat(built.groups) + node + es.Delivery()
        invariant Made(start, Snap(tree, es2), built, level, tree.storingLinks)
        invariant !more ==> es.Delivery() == []
        decreases more, |es.Delivery()|
      {
        more, node, built := PackNext(tree, es, b, level, es2, node, start, built, given);
      }
      ConcatGrows(built.groups, node);
      GivenParts(given, built.groups, node, []);
      if node != [] {
        built := EmitJoin(tree, node, level, es2, start, built, multiset(given), multiset{});
      }
    }

    /** Takes one record; a node that has become full is stored. */
    method PackNext(tree: RTree, es: Sorter, b: nat, level: nat, es2: Sorter, node: seq<Record>,
                    ghost start: Snapshot, ghost built: Built, ghost given: seq<Record>)
      returns (more: bool, node': seq<Record>, ghost built': Built)
      requires tree.Valid() && es.Valid() && es2.Valid() && !es.insertionPhase && es2.insertionPhase && es != es2
      requires |node| < b && AllFull(built.groups, b)
      requires given == Concat(built.groups) + node + es.Delivery()
               && Fit(start.w, multiset(given), level, tree.storingLinks)
      requires Made(start, Snap(tree, es2), built, level, tree.storingLinks)
      modifies this, tree, es, es2
      ensures tree.Valid() && es.Valid() && es2.Valid() && !es.insertionPhase && es2.insertionPhase
      ensures |node'| < b && AllFull(built'.groups, b)
      ensures given == Concat(built'.groups) + node' + es.Delivery()
      ensures Made(start, Snap(tree, es2), built', level, tree.storingLinks)
      ensures if more then |es.Delivery()| < |old(es.Delivery())| else es.Delivery() == []
    {
      hide Made, Fit, Flat, Sorter.Inserted, Sorter.Valid, Sorter.Delivery, RTree.Valid, Snap, Loader.WorldOf, Concat;
      more, node', built' := false, node, built;
      var o := es.GetNextRecord();
      if o.Next? {
        more, node' := true, node + [o.r];
        assert given == Concat(built.groups) + node' + es.Delivery();
        if |node'| == b {
          NodeClosed(built.groups, node', es.Delivery());
          GivenParts(given, built.groups, node', es.Delivery());
          built' := EmitJoin(tree, node', level, es2, start, built, multiset(given), multiset(es.Delivery()));
          node' := [];
        }
      }
    }

    /** Moves up to `n` records into the next dimension's sorter; stops early only at the end of the input. */
    method TakeSlab(es: Sorter, es3: Sorter, n: nat) returns (more: bool)
      requires es.Valid() && !es.insertionPhase && es3.Valid() && es3.insertionPhase && es != es3
      requires es3.Inserted() == [] && es3.total == 0
      modifies es, es3
      ensures es.Valid() && !es.insertionPhase && es3.Valid() && es3.insertionPhase
      ensures es3.Inserted() + es.Delivery() == old(es.Delivery())
      ensures |es.Delivery()| + es3.total == |old(es.Delivery())| && es3.total <= n
      ensures if more then es3.total == n else es.Delivery() == []
    {
      hide Sorter.Valid, Sorter.Pending, Sorter.Delivery;
      more := true;
      for i := 0 to n
        invariant es.Valid() && !es.insertionPhase && es3.Valid() && es3.insertionPhase
        invariant es3.Inserted() + es.Delivery() == old(es.Delivery())
        invariant |es.Delivery()| + es3.total == |old(es.Delivery())| && es3.total == i
      {
        var o := es.GetNextRecord();
        if !o.Next? {
          return false;
        }
        var ok := es3.Insert(o.r);
      }
    }

    /** Sorts one slab by the next dimension and builds its nodes. */
    method BuildSlab(tree: RTree, es3: Sorter, dimension: nat, bleaf: nat, bindex: nat, level: nat, es2: Sorter,
                     pageSize: nat, numberOfPages: nat, tuning: Tuning,
                     ghost start: Snapshot, ghost built: Built, ghost rest: multiset<Record>)
      returns (ghost one: Built, ghost joined: Built, ghost slab: seq<Record>)
      requires tree.Valid() && es3.Valid() && es2.Valid() && es3.insertionPhase && es2.insertionPhase && es3 != es2
      requires es3.total > 0 && es3.bufferPages == numberOfPages && es3.pageSize == pageSize && es3.s == dimension
      requires bleaf >= 1 && bindex >= 1 && pageSize >= 1 && numberOfPages >= 2 && dimension < tree.dimension
      requires TakesRoots(tuning.pow) && Made(start, Snap(tree, es2), built, level, tree.storingLinks)
      requires Fit(start.w, Flat(built.groups) + multiset(es3.Inserted()) + rest, level, tree.storingLinks)
      requires AllFull(built.groups, Fanout(level, bleaf, bindex))
      modifies this, tree, es3, es2
      ensures tree.Valid() && es2.Valid() && es2.insertionPhase
      ensures Made(start, Snap(tree, es2), joined, level, tree.storingLinks)
      ensures joined.groups == built.groups + one.groups
      ensures Flat(joined.groups) == Flat(built.groups) + old(multiset(es3.Inserted()))
      ensures Packed(joined.groups, Fanout(level, bleaf, bindex))
      ensures old(es3.total) % Fanout(level, bleaf, bindex) == 0 ==>
                AllFull(joined.groups, Fanout(level, bleaf, bindex))
      ensures Sorts(dimension, pageSize * numberOfPages, numberOfPages, old(es3.Inserted()), slab)
      ensures Tiled(TilingOf(tree.dimension, level, bleaf, bindex, pageSize, numberOfPages, tuning), dimension,
                    one.groups, slab)
      decreases tree.dimension - dimension, 1
    {
      hide Made, Fit, Flat, Sorter.Inserted, Sorter.Valid, Sorter.Delivery, Sorter.Pending, RTree.Valid, Packed,
           AllFull, Sorts, Tiled;
      ghost var before, given := Snap(tree, es2), es3.Inserted();
      FitPart(start, before, built, multiset(given), rest, level, tree.storingLinks);
      assert Fit(WorldOf(tree), multiset(given), level, tree.storingLinks);
      hide Snap, Loader.WorldOf;
      var ok := es3.Sort();
      slab := es3.Delivery();
      SortsConserve(dimension, pageSize * numberOfPages, numberOfPages, given, slab);
      one := CreateLevel(tree, es3, dimension, bleaf, bindex, level, es2, pageSize, numberOfPages, tuning);
      FitFacts(start.w, Flat(built.groups), multiset(given), level, tree.storingLinks);
      MadeJoin(start, before, Snap(tree, es2), built, one, level, tree.storingLinks);
      PackedCount(one.groups, Fanout(level, bleaf, bindex));
      PackedJoin(built.groups, one.groups, Fanout(level, bleaf, bindex));
      joined := Join(built, one);
    }

    /** One level: pack directly when this is the last dimension or slabs would not pay, else cut slabs of
        whole nodes and recurse on each by the next dimension. */
    method CreateLevel(tree: RTree, es: Sorter, dimension: nat, bleaf: nat, bindex: nat, level: nat, es2: Sorter,
                       pageSize: nat, numberOfPages: nat, tuning: Tuning)
      returns (ghost built: Built)
      requires tree.Valid() && es.Valid() && es2.Valid() && !es.insertionPhase && es2.insertionPhase && es != es2
      requires |es.Delivery()| == es.total
      requires bleaf >= 1 && bindex >= 1 && pageSize >= 1 && numberOfPages >= 2 && dimension < tree.dimension
      requires TakesRoots(tuning.pow) && Fit(WorldOf(tree), multiset(es.Delivery()), level, tree.storingLinks)
      modifies this, tree, es, es2
      ensures tree.Valid() && es2.Valid() && es2.insertionPhase
      ensures Made(old(Snap(tree, es2)), Snap(tree, es2), built, level, tree.storingLinks)
      ensures Flat(built.groups) == old(multiset(es.Delivery())) && Packed(built.groups, Fanout(level, bleaf, bindex))
      ensures Tiled(TilingOf(tree.dimension, level, bleaf, bindex, pageSize, numberOfPages, tuning), dimension,
                    built.groups, old(es.Delivery()))
      decreases tree.dimension - dimension, 0
    {
      hide Made, Fit, Flat, Sorter.Inserted, Sorter.Valid, Sorter.Delivery, RTree.Valid, Packed, AllFull, Concat,
           InSlabs, SlabsFor;
      ghost var given, start := es.Delivery(), Snap(tree, es2);
      assert Fit(start.w, multiset(given), level, tree.storingLinks);
      hide Snap, Loader.WorldOf;
      var b := Fanout(level, bleaf, bindex);
      var p := CeilDiv(es.total, b);
      var remain := tree.dimension - dimension;
      var s := SlabCount(tuning, dimension, remain, p);
      ghost var t := TilingOf(tree.dimension, level, bleaf, bindex, pageSize, numberOfPages, tuning);
      SlabCountIs(t, dimension, remain, p);
      CeilDivBounds(es.total, b);
      if remain == 1 || p <= s || s * b > es.total {
        built := PackRecords(tree, es, b, level, es2);
      } else {
        built := CutSlabs(tree, es, dimension, bleaf, bindex, level, es2, pageSize, numberOfPages, tuning,
                          CeilDiv(p, s));
      }
    }

    /** Cuts slabs of `k` whole nodes off the input until it is used up. */
    method CutSlabs(tree: RTree, es: Sorter, dimension: nat, bleaf: nat, bindex: nat, level: nat, es2: Sorter,
                    pageSize: nat, numberOfPages: nat, tuning: Tuning, k: nat)
      returns (ghost built: Built)
      requires k >= 1 && tree.Valid() && es.Valid() && es2.Valid() && !es.insertionPhase && es2.insertionPhase
               && es != es2
      requires bleaf >= 1 && bindex >= 1 && pageSize >= 1 && numberOfPages >= 2 && dimension + 1 < tree.dimension
      requires TakesRoots(tuning.pow) && Fit(WorldOf(tree), multiset(es.Delivery()), level, tree.storingLinks)
      modifies this, tree, es, es2
      ensures tree.Valid() && es2.Valid() && es2.insertionPhase
      ensures Made(old(Snap(tree, es2)), Snap(tree, es2), built, level, tree.storingLinks)
      ensures Flat(built.groups) == old(multiset(es.Delivery())) && Packed(built.groups, Fanout(level, bleaf, bindex))
      ensures InSlabs(TilingOf(tree.dimension, level, bleaf, bindex, pageSize, numberOfPages, tuning), dimension,
                      Fanout(level, bleaf, bindex) * k, built.groups, old(es.Delivery()))
      decreases tree.dimension - dimension - 1, 3
    {
      hide Made, Fit, Flat, Sorter.Inserted, Sorter.Valid, Sorter.Delivery, RTree.Valid, Packed, AllFull, InSlabs,
           SlabsSoFar;
      ghost var given, start := es.Delivery(), Snap(tree, es2);
      assert Fit(start.w, multiset(given), level, tree.storingLinks);
      hide Snap, Loader.WorldOf;
      var b := Fanout(level, bleaf, bindex);
      ghost var t := TilingOf(tree.dimension, level, bleaf, bindex, pageSize, numberOfPages, tuning);
      built := Built([], []);
      MadeNothing(start, level, tree.storingLinks);
      EmptyPacked(b);
      NoSlabs(t, dimension, b * k, given);
      var more := true;
      while more
        invariant tree.Valid() && es.Valid() && !es.insertionPhase && es2.Valid() && es2.insertionPhase
        invariant multiset(given) == Flat(built.groups) + multiset(es.Delivery())
        invariant Made(start, Snap(tree, es2), built, level, tree.storingLinks)
        invariant Packed(built.groups, b) && SlabsSoFar(t, dimension, b * k, built.groups, given, es.Delivery())
        invariant if more then AllFull(built.groups, b) else es.Delivery() == []
        decreases more, |es.Delivery()|
      {
        more, built := NextSlab(tree, es, dimension, bleaf, bindex, level, es2, pageSize, numberOfPages, tuning, k,
                                start, built, given);
      }
      SlabsDone(t, dimension, b * k, built.groups, given);
    }

    method NextSlab(tree: RTree, es: Sorter, dimension: nat, bleaf: nat, bindex: nat, level: nat, es2: Sorter,
                    pageSize: nat, numberOfPages: nat, tuning: Tuning, k: nat,
                    ghost start: Snapshot, ghost built: Built, ghost given: seq<Record>)
      returns (more: bool, ghost built': Built)
      requires k >= 1 && tree.Valid() && es.Valid() && es2.Valid() && !es.insertionPhase && es2.insertionPhase
               && es != es2
      requires bleaf >= 1 && bindex >= 1 && pageSize >= 1 && numberOfPages >= 2 && dimension + 1 < tree.dimension
      requires TakesRoots(tuning.pow) && Fit(start.w, multiset(given), level, tree.storingLinks)
      requires multiset(given) == Flat(built.groups) + multiset(es.Delivery())
      requires Made(start, Snap(tree, es2), built, level, tree.storingLinks)
      requires AllFull(built.groups, Fanout(level, bleaf, bindex)) && Packed(built.groups, Fanout(level, bleaf, bindex))
      requires SlabsSoFar(TilingOf(tree.dimension, level, bleaf, bindex, pageSize, numberOfPages, tuning), dimension,
                          Fanout(level, bleaf, bindex) * k, built.groups, given, es.Delivery())
      modifies this, tree, es, es2
      ensures tree.Valid() && es.Valid() && es2.Valid() && !es.insertionPhase && es2.insertionPhase
      ensures multiset(given) == Flat(built'.groups) + multiset(es.Delivery())
      ensures Made(start, Snap(tree, es2), built', level, tree.storingLinks)
      ensures Packed(built'.groups, Fanout(level, bleaf, bindex))
      ensures SlabsSoFar(TilingOf(tree.dimension, level, bleaf, bindex, pageSize, numberOfPages, tuning), dimension,
                         Fanout(level, bleaf, bindex) * k, built'.groups, given, es.Delivery())
      ensures if more then AllFull(built'.groups, Fanout(level, bleaf, bindex))
              && |es.Delivery()| < |old(es.Delivery())|
              else es.Delivery() == []
      decreases tree.dimension - dimension - 1, 2
    {
      hide Made, Fit, Flat, Sorter.Inserted, Sorter.Valid, Sorter.Delivery, Sorter.Pending, RTree.Valid, Packed,
           AllFull, Snap, Loader.WorldOf, InSlabs, SlabsSoFar, Tiled, Sorts;
      var slabSize := Fanout(level, bleaf, bindex) * k;
      SlabIsWholeNodes(Fanout(level, bleaf, bindex), k);
      built' := built;
      ghost var rest := es.Delivery();
      var es3 := new Sorter(dimension + 1, pageSize, numberOfPages);
      more := TakeSlab(es, es3, slabSize);
      if es3.total > 0 {
        SlabTaken(rest, slabSize, es3.Inserted(), es.Delivery());
        assert multiset(given) == Flat(built.groups) + multiset(es3.Inserted()) + multiset(es.Delivery());
        ghost var t := TilingOf(tree.dimension, level, bleaf, bindex, pageSize, numberOfPages, tuning);
        ghost var one, slab;
        one, built', slab := BuildSlab(tree, es3, dimension + 1, bleaf, bindex, level, es2, pageSize, numberOfPages,
                                       tuning, start, built, multiset(es.Delivery()));
        NextIsSlab(t, dimension, slabSize, built.groups, given, rest, one.groups, slab);
      }
    }
  }

  lemma NodeClosed(groups: seq<seq<Record>>, node: seq<Record>, rest: seq<Record>)
    ensures Concat(groups) + node + rest == Concat(groups + [node]) + [] + rest
  {
    ConcatGrows(groups, node);
  }

  lemma GivenParts(given: seq<Record>, groups: seq<seq<Record>>, node: seq<Record>, rest: seq<Record>)
    requires given == Concat(groups) + node + rest
    ensures multiset(given) == Flat(groups) + multiset(node) + multiset(rest)
  {
    ConcatFlat(groups);
  }

  /** Taking up to `n` records takes the first. */
  lemma SlabTaken(all: seq<Record>, n: nat, taken: seq<Record>, rest: seq<Record>)
    requires taken + rest == all && |taken| <= n && (|taken| < n ==> rest == [])
    ensures taken == First(all, n) && rest == all[|First(all, n)|..]
    ensures multiset(all) == multiset(taken) + multiset(rest)
  {
    assert taken == all[..|taken|];
  }

  ghost function TilingOf(axes: nat, level: nat, bleaf: nat, bindex: nat, pageSize: nat, numberOfPages: nat,
                          tuning: Tuning): Tiling {
    Tiling(axes, Fanout(level, bleaf, bindex), pageSize * numberOfPages, numberOfPages, tuning)
  }

  function Fanout(level: nat, bleaf: nat, bindex: nat): nat { if level == 0 then bleaf else bindex }

  /** The number of slabs as the code computes it. */
  function SlabCount(tuning: Tuning, dimension: nat, remain: nat, p: nat): int
    requires remain >= 1
  {
    if dimension == 0 then
      var s := if tuning.slabs(p) < 1 then 1 else tuning.slabs(p);
      if s > p then 1 else s
    else RootUp(tuning.pow, p, remain)
  }

  lemma SlabCountIs(t: Tiling, axis: nat, remain: nat, p: nat)
    requires axis < t.axes && remain == t.axes - axis && TakesRoots(t.tuning.pow)
    ensures SlabsFor(t, axis, p, SlabCount(t.tuning, axis, remain, p))
    ensures SlabCount(t.tuning, axis, remain, p) >= if p >= 1 then 1 else 0
  {
    RootUpIsLeast(t.tuning.pow, p, remain);
    hide RootUp, LeastRoot;
  }

  lemma SlabIsWholeNodes(b: nat, k: nat)
    requires b >= 1 && k >= 1
    ensures b * k >= 1 && (b * k) % b == 0
  {
    assert b * k == k * b;
    MulMono(1, k, b);
    DivIs(k * b, b, k, 0);
  }

  lemma EmptyPacked(b: nat)
    ensures Packed([], b) && AllFull([], b) && Flat([]) == multiset{} && Concat([]) == []
  {
  }

  /** What of the loader's state a level changes. */
  datatype Snapshot = Snapshot(w: World, rootID: int, inserted: seq<Record>, total: nat)

  /** Making `built` took the state from `a` to `c`. */
  ghost predicate Made(a: Snapshot, c: Snapshot, built: Built, level: nat, linking: bool) {
    && |built.ids| == |built.groups|
    && Effect(a.w, c.w, built, level, linking)
    && c.inserted == a.inserted + NodeRecords(built)
    && c.total == a.total + |built.ids|
    && c.rootID == if built.ids == [] then a.rootID else built.ids[|built.ids| - 1]
  }

  lemma MadeNothing(a: Snapshot, level: nat, linking: bool)
    ensures Made(a, a, Built([], []), level, linking)
    ensures Flat([]) == multiset{} && AllFull([], 0)
  {
    EffectNothing(a.w, level, linking);
  }

  /** The records may be turned into nodes on this level. */
  ghost predicate Fit(w: World, m: multiset<Record>, level: nat, linking: bool) {
    Coherent(m) && (linking ==> DistinctIds(m)) && Known(w, m, level, linking)
  }

  lemma RecordsJoin(a: Built, c: Built)
    requires |a.ids| == |a.groups| && |c.ids| == |c.groups|
    ensures NodeRecords(Join(a, c)) == NodeRecords(a) + NodeRecords(c)
  {
    hide MbrOf;
  }

  lemma MadeJoin(s: Snapshot, s': Snapshot, s'': Snapshot, a: Built, c: Built, level: nat, linking: bool)
    requires Made(s, s', a, level, linking) && Made(s', s'', c, level, linking)
    requires linking ==> DistinctIds(Flat(a.groups) + Flat(c.groups))
    requires Known(s.w, Flat(c.groups), level, linking)
    ensures Made(s, s'', Join(a, c), level, linking)
    ensures Flat(Join(a, c).groups) == Flat(a.groups) + Flat(c.groups)
  {
    hide Effect, NodeRecords, Flat, DistinctIds, Known;
    EffectJoin(s.w, s'.w, s''.w, a, c, level, linking);
    RecordsJoin(a, c);
  }

  lemma FitFacts(w: World, a: multiset<Record>, c: multiset<Record>, level: nat, linking: bool)
    requires Fit(w, a + c, level, linking)
    ensures linking ==> DistinctIds(a + c)
    ensures Known(w, c, level, linking)
  {
    assert forall r :: r in c ==> r in a + c;
  }

  lemma OldNodesStay(s: Snapshot, s': Snapshot, built: Built, level: nat, linking: bool)
    requires Made(s, s', built, level, linking)
    ensures forall id :: id in s.w.nodes ==> id in s'.w.nodes
  {
    hide StoredNode, LinkNode, Flat;
  }

  /** Records that are part of the whole still fit after some of the whole has been made into nodes. */
  lemma FitPart(s: Snapshot, s': Snapshot, built: Built, part: multiset<Record>, rest: multiset<Record>, level: nat,
                linking: bool)
    requires Made(s, s', built, level, linking)
    requires Fit(s.w, Flat(built.groups) + part + rest, level, linking)
    ensures Fit(s'.w, part, level, linking) && Fit(s.w, Flat(built.groups) + part, level, linking)
  {
    var m := Flat(built.groups);
    assert forall r :: r in part ==> r in m + part + rest;
    assert forall r :: r in m + part ==> r in m + part + rest;
    hide Flat, Made, Effect, StoredNode;
    if linking {
      DistinctParts(m + part, rest);
      DistinctParts(m, part);
    }
    OldNodesStay(s, s', built, level, linking);
  }

  lemma EmitEffect(w: World, w': World, w'': World, rs: seq<Record>, id: int, level: nat, linking: bool)
    requires id !in w.nodes && w' == World(w.nodes[id := StoredNode(rs, level, linking)], w.part2node)
             && w''.nodes.Keys == w'.nodes.Keys
    requires Known(w, multiset(rs), level, linking)
    requires if linking && level == 0 then Placed(w'.part2node, w''.part2node, Built([rs], [id]))
             else w''.part2node == w'.part2node
    requires if linking && level == 1 then OldNodes(w', w'', multiset(rs), 1, true) else w''.nodes == w'.nodes
    ensures Effect(w, w'', Built([rs], [id]), level, linking)
  {
    SingleFile(rs);
    hide LinkNode, StoredNode, Flat, Placed;
    assert linking && level == 1 ==> !Mentions(multiset(rs), id);
  }

  /** A record's id is the id its entry will carry. */
  ghost predicate Coherent(m: multiset<Record>) {
    forall r :: r in m ==> EntryOf(r).id == r.id
  }

  lemma SplitAt(rs: seq<Record>, i: nat)
    requires i < |rs|
    ensures multiset(rs[..i + 1]) == multiset(rs[..i]) + multiset{rs[i]}
    ensures multiset(rs[..i + 1]) + multiset(rs[i + 1..]) == multiset(rs)
  {
    assert rs[..i + 1] == rs[..i] + [rs[i]];
    assert rs == rs[..i + 1] + rs[i + 1..];
  }

  /** With distinct ids no earlier record mentions the id of record `i`. */
  lemma FreshMention(rs: seq<Record>, i: nat)
    requires i < |rs| && DistinctIds(multiset(rs))
    ensures !Mentions(multiset(rs[..i]), rs[i].id)
    ensures forall id :: Mentions(multiset(rs[..i + 1]), id) <==> Mentions(multiset(rs[..i]), id) || id == rs[i].id
  {
    SplitAt(rs, i);
    DistinctParts(multiset(rs[..i + 1]), multiset(rs[i + 1..]));
    DistinctParts(multiset(rs[..i]), multiset{rs[i]});
    forall id
      ensures Mentions(multiset(rs[..i + 1]), id) <==> Mentions(multiset(rs[..i]), id) || id == rs[i].id
    {
      MentionsSum(multiset(rs[..i]), multiset{rs[i]}, id);
      assert Mentions(multiset{rs[i]}, id) <==> id == rs[i].id by {
        assert rs[i] in multiset{rs[i]};
      }
    }
  }

  lemma ExtendLinked(w: World, w': World, w'': World, rs: seq<Record>, i: nat)
    requires i < |rs| && DistinctIds(multiset(rs)) && rs[i].id in w.nodes && rs[i].id in w'.nodes
    requires OldNodes(w, w', multiset(rs[..i]), 1, true)
    requires w'.part2node == w.part2node
    requires w''.nodes == w'.nodes[rs[i].id := LinkNode(w'.nodes[rs[i].id], w.part2node)]
    ensures OldNodes(w, w'', multiset(rs[..i + 1]), 1, true)
  {
    FreshMention(rs, i);
    hide LinkNode, Mentions;
  }
}
