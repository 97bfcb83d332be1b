/** The whole bulk load: what the finished tree holds, how its boxes nest, how high it is, and where the
    sibling links of its leaf entries lead. */
module BulkTree {
  import opened Counting
  import opened ExternalSorter
  import opened BulkLoader
  import opened Layers
  import opened Wrappers

  /** The leaf items below a node of the given level, with multiplicity. */
  ghost function TreeItems(nodes: map<int, Node>, id: int, level: nat): multiset<Item>
    decreases level, 1, 0
  {
    if id !in nodes then multiset{} else EntriesItems(nodes, nodes[id].entries, level)
  }

  ghost function EntriesItems(nodes: map<int, Node>, entries: seq<Entry>, level: nat): multiset<Item>
    decreases level, 0, |entries|
  {
    if entries == [] then multiset{}
    else EntryItems(nodes, entries[0], level) + EntriesItems(nodes, entries[1..], level)
  }

  ghost function EntryItems(nodes: map<int, Node>, e: Entry, level: nat): multiset<Item>
    decreases level, 0, 0
  {
    if level == 0 then multiset{ItemOf(e)} else TreeItems(nodes, e.id, level - 1)
  }

  /** The tree below `id` is stored completely, level by level; every node is non-empty, holds the boxes of
      its entries, and an index entry carries exactly the box of the node it points to, in its slot too. */
  ghost predicate WellTree(nodes: map<int, Node>, id: int, level: nat)
    decreases level
  {
    && id in nodes && nodes[id].level == level && nodes[id].entries != []
    && forall e :: e in nodes[id].entries ==>
         && nodes[id].mbr.Contains(e.box)
         && (level > 0 ==> WellTree(nodes, e.id, level - 1) && e.box == nodes[e.id].mbr && e.boxed)
  }

  /** Every node of the tree below `id` is one that was not there before. */
  ghost predicate NewTree(before: map<int, Node>, nodes: map<int, Node>, id: int, level: nat)
    decreases level
  {
    && id in nodes && id !in before
    && (level > 0 ==> forall e :: e in nodes[id].entries ==> NewTree(before, nodes, e.id, level - 1))
  }

  /** `leaf` is a leaf of the tree below `id`. */
  ghost predicate InTree(nodes: map<int, Node>, id: int, level: nat, leaf: int)
    decreases level
  {
    if level == 0 then leaf == id
    else id in nodes && exists e :: e in nodes[id].entries && InTree(nodes, e.id, level - 1, leaf)
  }

  /** Every node's box holds everything stored below it. */
  lemma {:induction false} TreeHoldsItems(nodes: map<int, Node>, id: int, level: nat, item: Item)
    requires WellTree(nodes, id, level) && item in TreeItems(nodes, id, level)
    ensures nodes[id].mbr.Contains(item.box)
    decreases level
  {
    var e := EntryWithItem(nodes, nodes[id].entries, level, item);
    if level > 0 {
      TreeHoldsItems(nodes, e.id, level - 1, item);
    }
  }

  lemma {:induction false} EntryWithItem(nodes: map<int, Node>, entries: seq<Entry>, level: nat, item: Item)
    returns (e: Entry)
    requires item in EntriesItems(nodes, entries, level)
    ensures e in entries && item in EntryItems(nodes, e, level)
  {
    if item in EntryItems(nodes, entries[0], level) {
      e := entries[0];
    } else {
      e := EntryWithItem(nodes, entries[1..], level, item);
    }
  }

  // ----- later levels leave what is built below as it is, but for links

  lemma {:induction false} WellTreeFrame(nodes: map<int, Node>, nodes': map<int, Node>, id: int, level: nat)
    requires Extends(nodes, nodes') && WellTree(nodes, id, level)
    ensures WellTree(nodes', id, level)
    decreases level
  {
    var n, n' := nodes[id], nodes'[id];
    forall e' | e' in n'.entries
      ensures n'.mbr.Contains(e'.box)
      ensures level > 0 ==> WellTree(nodes', e'.id, level - 1) && e'.box == nodes'[e'.id].mbr && e'.boxed
    {
      var i :| 0 <= i < |n'.entries| && n'.entries[i] == e';
      var e := n.entries[i];
      assert ItemOf(e) == ItemOf(e') && e in n.entries;
      if level > 0 {
        WellTreeFrame(nodes, nodes', e.id, level - 1);
        assert SameShape(nodes[e.id], nodes'[e.id]);
      }
    }
  }

  lemma {:induction false} NewTreeFrame(before: map<int, Node>, nodes: map<int, Node>, nodes': map<int, Node>,
                                        id: int, level: nat)
    requires Extends(nodes, nodes') && NewTree(before, nodes, id, level)
    ensures NewTree(before, nodes', id, level)
    decreases level
  {
    if level > 0 {
      var n, n' := nodes[id], nodes'[id];
      forall e' | e' in n'.entries
        ensures NewTree(before, nodes', e'.id, level - 1)
      {
        var i :| 0 <= i < |n'.entries| && n'.entries[i] == e';
        assert ItemOf(n.entries[i]) == ItemOf(e') && n.entries[i] in n.entries;
        NewTreeFrame(before, nodes, nodes', n.entries[i].id, level - 1);
      }
    }
  }

  lemma {:induction false} TreeItemsFrame(nodes: map<int, Node>, nodes': map<int, Node>, id: int, level: nat)
    requires Extends(nodes, nodes') && WellTree(nodes, id, level)
    ensures TreeItems(nodes', id, level) == TreeItems(nodes, id, level)
    decreases level, 1, 0
  {
    assert SameShape(nodes[id], nodes'[id]);
    EntriesItemsFrame(nodes, nodes', nodes[id].entries, nodes'[id].entries, level);
  }

  lemma {:induction false} EntriesItemsFrame(nodes: map<int, Node>, nodes': map<int, Node>, es: seq<Entry>,
                                             es': seq<Entry>, level: nat)
    requires Extends(nodes, nodes') && |es| == |es'|
    requires forall i :: 0 <= i < |es| ==> ItemOf(es[i]) == ItemOf(es'[i])
    requires level > 0 ==> forall e :: e in es ==> WellTree(nodes, e.id, level - 1)
    ensures EntriesItems(nodes', es', level) == EntriesItems(nodes, es, level)
    decreases level, 0, |es|
  {
    if es != [] {
      assert ItemOf(es[0]) == ItemOf(es'[0]);
      if level > 0 {
        assert es[0] in es;
        TreeItemsFrame(nodes, nodes', es[0].id, level - 1);
      }
      EntriesItemsFrame(nodes, nodes', es[1..], es'[1..], level);
    }
  }

  // ----- summing over the records of a level

  /** What a record contributes as an entry of a node of this level. */
  ghost function RecordItems(nodes: map<int, Node>, r: Record, level: nat): multiset<Item> {
    EntryItems(nodes, EntryOf(r), level)
  }

  ghost function SumItems(nodes: map<int, Node>, m: multiset<Record>, level: nat): multiset<Item>
    decreases |m|
  {
    if m == multiset{} then multiset{}
    else
      var r :| r in m;
      RecordItems(nodes, r, level) + SumItems(nodes, m - multiset{r}, level)
  }

  lemma Exchange<T>(a: multiset<T>, c: multiset<T>, d: multiset<T>)
    ensures a + (c + d) == c + (a + d) == (a + c) + d
  {
  }

  lemma Without<T>(m: multiset<T>, r: T, r': T)
    requires r in m && r' in m && r != r'
    ensures m - multiset{r} - multiset{r'} == m - multiset{r'} - multiset{r}
    ensures r' in m - multiset{r} && r in m - multiset{r'}
  {
  }

  /** The sum does not depend on the order in which records are taken. */
  lemma {:induction false} SumTake(nodes: map<int, Node>, m: multiset<Record>, level: nat, r: Record)
    requires r in m
    ensures SumItems(nodes, m, level) == RecordItems(nodes, r, level) + SumItems(nodes, m - multiset{r}, level)
    decreases |m|
  {
    hide RecordItems;
    var r' :| r' in m && SumItems(nodes, m, level)
        == RecordItems(nodes, r', level) + SumItems(nodes, m - multiset{r'}, level);
    if r' != r {
      Without(m, r, r');
      var both := m - multiset{r} - multiset{r'};
      SumTake(nodes, m - multiset{r'}, level, r);
      SumTake(nodes, m - multiset{r}, level, r');
      Exchange(RecordItems(nodes, r, level), RecordItems(nodes, r', level), SumItems(nodes, both, level));
    }
  }

  lemma {:induction false} SumUnion(nodes: map<int, Node>, a: multiset<Record>, c: multiset<Record>, level: nat)
    ensures SumItems(nodes, a + c, level) == SumItems(nodes, a, level) + SumItems(nodes, c, level)
    decreases |a|
  {
    if a == multiset{} {
      assert a + c == c;
    } else {
      hide SumItems, RecordItems;
      var r :| r in a;
      var a' := a - multiset{r};
      assert (a + c) - multiset{r} == a' + c;
      SumTake(nodes, a, level, r);
      SumTake(nodes, a + c, level, r);
      SumUnion(nodes, a', c, level);
      Exchange(RecordItems(nodes, r, level), SumItems(nodes, a', level), SumItems(nodes, c, level));
    }
  }

  lemma SumSingle(nodes: map<int, Node>, r: Record, level: nat)
    ensures SumItems(nodes, multiset{r}, level) == RecordItems(nodes, r, level)
  {
    SumTake(nodes, multiset{r}, level, r);
    assert multiset{r} - multiset{r} == multiset{};
  }

  /** A node made from records holds what the records contribute. */
  lemma {:induction false} NodeItems(nodes: map<int, Node>, rs: seq<Record>, entries: seq<Entry>, level: nat)
    requires |entries| == |rs| && forall i :: 0 <= i < |rs| ==> ItemOf(entries[i]) == ItemOf(EntryOf(rs[i]))
    ensures EntriesItems(nodes, entries, level) == SumItems(nodes, multiset(rs), level)
    decreases |rs|
  {
    if rs != [] {
      NodeItems(nodes, rs[1..], entries[1..], level);
      assert rs == [rs[0]] + rs[1..];
      SumSingle(nodes, rs[0], level);
      SumUnion(nodes, multiset{rs[0]}, multiset(rs[1..]), level);
    }
  }

  function NodeRecord(id: int, rs: seq<Record>): Record { Record(id, MbrOf(rs), None) }

  /** A node's record contributes what its records do. */
  lemma NodeRecordItems(nodes: map<int, Node>, rs: seq<Record>, id: int, level: nat, linking: bool)
    requires id in nodes && nodes[id] == StoredNode(rs, level, linking)
    ensures SumItems(nodes, multiset{NodeRecord(id, rs)}, level + 1) == SumItems(nodes, multiset(rs), level)
  {
    var n, r := nodes[id], NodeRecord(id, rs);
    assert EntryOf(r).id == id;
    assert RecordItems(nodes, r, level + 1) == TreeItems(nodes, id, level) == EntriesItems(nodes, n.entries, level);
    hide SumItems, MbrOf, RecordItems, EntriesItems, TreeItems, EntryItems;
    SumSingle(nodes, r, level + 1);
    NodeItems(nodes, rs, n.entries, level);
  }

  lemma FirstRecord(built: Built)
    requires |built.ids| == |built.groups| && built.ids != []
    ensures multiset(NodeRecords(built))
         == multiset{NodeRecord(built.ids[0], built.groups[0])}
             + multiset(NodeRecords(Built(built.groups[1..], built.ids[1..])))
  {
    hide MbrOf;
    assert NodeRecords(built) == [NodeRecord(built.ids[0], built.groups[0])]
           + NodeRecords(Built(built.groups[1..], built.ids[1..]));
  }

  /** The nodes of a level together hold what the records of the level contribute. */
  lemma {:induction false} LevelItems(nodes: map<int, Node>, built: Built, level: nat, linking: bool)
    requires |built.ids| == |built.groups|
    requires forall k :: 0 <= k < |built.ids| ==>
               built.ids[k] in nodes && nodes[built.ids[k]] == StoredNode(built.groups[k], level, linking)
    ensures SumItems(nodes, multiset(NodeRecords(built)), level + 1) == SumItems(nodes, Flat(built.groups), level)
    decreases |built.ids|
  {
    var rs := multiset(NodeRecords(built));
    assert built.ids == [] ==>
             rs == multiset{} && Flat(built.groups) == multiset{} && SumItems(nodes, rs, level + 1) == multiset{};
    if built.ids != [] {
      var tail := Built(built.groups[1..], built.ids[1..]);
      var first, head := built.groups[0], NodeRecord(built.ids[0], built.groups[0]);
      assert Flat(built.groups) == multiset(first) + Flat(tail.groups);
      FirstRecord(built);
      NodeRecordItems(nodes, first, built.ids[0], level, linking);
      hide SumItems, NodeRecords, NodeRecord, StoredNode, Flat;
      LevelItems(nodes, tail, level, linking);
      SumUnion(nodes, multiset{head}, multiset(NodeRecords(tail)), level + 1);
      SumUnion(nodes, multiset(first), Flat(tail.groups), level);
    }
  }

  /** The records may become the entries of this level's nodes: data at the leaves, complete trees above. */
  ghost predicate Ready(nodes: map<int, Node>, m: multiset<Record>, level: nat) {
    if level == 0 then forall r :: r in m ==> r.data.Some? && r == DataRecord(r.data.value)
    else forall r :: r in m ==> r.data.None? && WellTree(nodes, r.id, level - 1) && r.box == nodes[r.id].mbr
  }

  lemma {:induction false} SumFrame(nodes: map<int, Node>, nodes': map<int, Node>, m: multiset<Record>, level: nat)
    requires Extends(nodes, nodes') && Ready(nodes, m, level)
    ensures SumItems(nodes', m, level) == SumItems(nodes, m, level)
    decreases |m|
  {
    if m != multiset{} {
      var r :| r in m;
      SumTake(nodes, m, level, r);
      SumTake(nodes', m, level, r);
      SumFrame(nodes, nodes', m - multiset{r}, level);
      if level > 0 {
        TreeItemsFrame(nodes, nodes', r.id, level - 1);
      }
    }
  }

  /** After a level the records of its nodes are ready for the next. */
  lemma ReadyNext(w: World, w': World, built: Built, level: nat, linking: bool, b: nat)
    requires Ready(w.nodes, Flat(built.groups), level) && Effect(w, w', built, level, linking)
             && Packed(built.groups, b)
    ensures Ready(w'.nodes, multiset(NodeRecords(built)), level + 1)
  {
    LevelExtends(w, w', built, level, linking);
    assert |built.ids| == |built.groups|;
    hide Effect, Flat, Packed, MbrOf, Extends;
    var rs := NodeRecords(built);
    forall r: Record | r in multiset(rs)
      ensures r.data.None? && WellTree(w'.nodes, r.id, level) && r.box == w'.nodes[r.id].mbr
    {
      assert r in rs;
      var k :| 0 <= k < |rs| && rs[k] == r;
      NodeIsWell(w, w', built, level, linking, b, k);
    }
  }

  lemma NodeIsWell(w: World, w': World, built: Built, level: nat, linking: bool, b: nat, k: nat)
    requires Ready(w.nodes, Flat(built.groups), level) && Effect(w, w', built, level, linking)
             && Packed(built.groups, b)
    requires Extends(w.nodes, w'.nodes) && k < |built.ids|
    ensures built.ids[k] in w'.nodes && w'.nodes[built.ids[k]].mbr == MbrOf(built.groups[k])
    ensures WellTree(w'.nodes, built.ids[k], level)
  {
    var g, n := built.groups[k], w'.nodes[built.ids[k]];
    assert n == StoredNode(g, level, linking);
    hide Effect, Flat, MbrOf;
    forall e | e in n.entries
      ensures n.mbr.Contains(e.box)
      ensures level > 0 ==> WellTree(w'.nodes, e.id, level - 1) && e.box == w'.nodes[e.id].mbr && e.boxed
    {
      var j :| 0 <= j < |n.entries| && n.entries[j] == e;
      MbrHolds(g, j);
      GroupMentions(built.groups, k, j);
      if level > 0 {
        WellTreeFrame(w.nodes, w'.nodes, g[j].id, level - 1);
        assert SameShape(w.nodes[g[j].id], w'.nodes[g[j].id]);
      }
    }
  }

  // ----- how many nodes a level has

  /** Records fed to a level: all boxes to level 0, then one per node of the level below. */
  function LevelCount(n: nat, bleaf: nat, bindex: nat, level: nat): nat
    requires bleaf >= 1 && bindex >= 1
  {
    if level == 0 then n else CeilDiv(LevelCount(n, bleaf, bindex, level - 1), Fanout(level - 1, bleaf, bindex))
  }

  /** What a tree of this height can hold. */
  function Capacity(bleaf: nat, bindex: nat, height: nat): nat {
    if height == 0 then 1 else Capacity(bleaf, bindex, height - 1) * Fanout(height - 1, bleaf, bindex)
  }

  lemma {:induction false} CapacityPositive(bleaf: nat, bindex: nat, height: nat)
    requires bleaf >= 1 && bindex >= 1
    ensures Capacity(bleaf, bindex, height) >= 1
  {
    if height > 0 {
      CapacityPositive(bleaf, bindex, height - 1);
      MulMono(1, Capacity(bleaf, bindex, height - 1), Fanout(height - 1, bleaf, bindex));
    }
  }

  /** Rounding up level by level loses nothing. */
  lemma {:induction false} CountIsCeil(n: nat, bleaf: nat, bindex: nat, level: nat)
    requires bleaf >= 1 && bindex >= 1
    ensures Capacity(bleaf, bindex, level) >= 1
    ensures LevelCount(n, bleaf, bindex, level) == CeilDiv(n, Capacity(bleaf, bindex, level))
  {
    CapacityPositive(bleaf, bindex, level);
    if level == 0 {
      CeilDivIs(n, 1, n);
    } else {
      CountIsCeil(n, bleaf, bindex, level - 1);
      CeilTwice(n, Capacity(bleaf, bindex, level - 1), Fanout(level - 1, bleaf, bindex));
    }
  }

  /** One node is enough for a level exactly when the tree can hold everything. */
  lemma OneNodeIffFits(n: nat, bleaf: nat, bindex: nat, height: nat)
    requires bleaf >= 1 && bindex >= 1 && n >= 1
    ensures LevelCount(n, bleaf, bindex, height) == 1 <==> n <= Capacity(bleaf, bindex, height)
  {
    CountIsCeil(n, bleaf, bindex, height);
    var c := Capacity(bleaf, bindex, height);
    CeilDivBounds(n, c);
    if n <= c { CeilDivIs(n, c, 1); }
  }

  /** With one child per index node the number of nodes never falls again, so the load cannot end unless
      a single leaf is enough. */
  lemma {:induction false} SingleChildNeverShrinks(n: nat, bleaf: nat, level: nat)
    requires bleaf >= 1 && level >= 1
    ensures LevelCount(n, bleaf, 1, level) == CeilDiv(n, bleaf)
  {
    if level > 1 {
      SingleChildNeverShrinks(n, bleaf, level - 1);
      CeilDivIs(CeilDiv(n, bleaf), 1, CeilDiv(n, bleaf));
    }
  }

  // ----- the loop over the levels

  function ItemOfData(d: SbbData): Item { Item(d.sbbid, d.box, Some(d.se)) }

  ghost function Items(stream: seq<SbbData>): multiset<Item> {
    if stream == [] then multiset{} else Items(stream[..|stream| - 1]) + multiset{ItemOfData(stream[|stream| - 1])}
  }

  lemma NoRecords(stream: seq<SbbData>)
    ensures DataRecords(stream[..0]) == []
  {
  }

  lemma DataRecordsGrow(stream: seq<SbbData>, n: nat)
    requires n < |stream|
    ensures DataRecords(stream[..n + 1]) == DataRecords(stream[..n]) + [DataRecord(stream[n])]
    ensures multiset(DataRecords(stream[..n + 1]))
            == multiset(DataRecords(stream[..n])) + multiset{DataRecord(stream[n])}
  {
    assert DataRecords(stream[..n + 1]) == DataRecords(stream[..n]) + [DataRecord(stream[n])];
  }

  lemma {:induction false} StreamItems(nodes: map<int, Node>, stream: seq<SbbData>)
    ensures SumItems(nodes, multiset(DataRecords(stream)), 0) == Items(stream)
  {
    if stream == [] {
      assert DataRecords(stream) == [];
    } else {
      var n := |stream| - 1;
      var r := DataRecord(stream[n]);
      StreamItems(nodes, stream[..n]);
      DataRecordsGrow(stream, n);
      assert stream[..n + 1] == stream;
      SumSingle(nodes, r, 0);
      assert RecordItems(nodes, r, 0) == multiset{ItemOfData(stream[n])};
      hide SumItems, RecordItems;
      SumUnion(nodes, multiset(DataRecords(stream[..n])), multiset{r}, 0);
    }
  }

  ghost predicate DistinctBoxes(stream: seq<SbbData>) {
    forall i, j :: 0 <= i < j < |stream| ==> stream[i].sbbid != stream[j].sbbid
  }

  lemma {:induction false} DataDistinct(stream: seq<SbbData>)
    requires DistinctBoxes(stream)
    ensures DistinctIds(multiset(DataRecords(stream)))
  {
    if stream != [] {
      var n := |stream| - 1;
      DataDistinct(stream[..n]);
      DataRecordsGrow(stream, n);
      assert stream[..n + 1] == stream;
      var m, r := multiset(DataRecords(stream[..n])), DataRecord(stream[n]);
      forall r' | r' in m
        ensures r'.id != r.id
      {
        assert r' in DataRecords(stream[..n]);
      }
    } else {
      assert DataRecords(stream) == [];
    }
  }

  lemma NodesDistinct(built: Built)
    requires |built.ids| == |built.groups| && forall i, j :: 0 <= i < j < |built.ids| ==> built.ids[i] != built.ids[j]
    ensures DistinctIds(multiset(NodeRecords(built)))
  {
    hide MbrOf;
    SeqDistinct(NodeRecords(built));
  }

  lemma {:induction false} SeqDistinct(rs: seq<Record>)
    requires forall i, j :: 0 <= i < j < |rs| ==> rs[i].id != rs[j].id
    ensures DistinctIds(multiset(rs))
  {
    if rs != [] {
      var n := |rs| - 1;
      SeqDistinct(rs[..n]);
      assert rs == rs[..n] + [rs[n]];
      forall r' | r' in multiset(rs[..n])
        ensures r'.id != rs[n].id
      {
        assert r' in rs[..n];
      }
    }
  }

  /** A leaf made from records: as it was stored, or as level 1 stores it again. */
  ghost function LeafNow(rs: seq<Record>, part2node: map<int, int>, linked: bool, linking: bool): Node {
    if linked then LinkNode(StoredNode(rs, 0, linking), part2node) else StoredNode(rs, 0, linking)
  }

  /** The leaves made on level 0, and what is known of them later: their content and, with link storing on,
      which leaf each box is in. */
  ghost predicate LeavesAre(before: map<int, Node>, w: World, leaves: Built, all: multiset<Record>, linked: bool,
                            linking: bool) {
    && |leaves.ids| == |leaves.groups| && Flat(leaves.groups) == all
    && (forall k :: 0 <= k < |leaves.ids| ==> LeafIs(before, w, leaves.ids[k], leaves.groups[k], linked, linking))
    && NoMoreLeaves(before, w.nodes, leaves.ids) && (linking ==> PartsAre(w.part2node, leaves))
  }

  ghost predicate LeafIs(before: map<int, Node>, w: World, id: int, rs: seq<Record>, linked: bool, linking: bool) {
    id in w.nodes && id !in before && w.nodes[id] == LeafNow(rs, w.part2node, linked, linking)
  }

  ghost predicate NoMoreLeaves(before: map<int, Node>, nodes: map<int, Node>, ids: seq<int>) {
    forall id :: id in nodes && id !in before && nodes[id].level == 0 ==> id in ids
  }

  ghost predicate PartsAre(part2node: map<int, int>, leaves: Built)
    requires |leaves.ids| == |leaves.groups|
  {
    forall k, j :: 0 <= k < |leaves.groups| && 0 <= j < |leaves.groups[k]| ==>
      leaves.groups[k][j].id in part2node && part2node[leaves.groups[k][j].id] == leaves.ids[k]
  }

  lemma NodesMentioned(built: Built, k: nat)
    requires |built.ids| == |built.groups| && k < |built.ids|
    ensures Mentions(multiset(NodeRecords(built)), built.ids[k])
  {
    var rs := NodeRecords(built);
    assert rs[k] in multiset(rs) && rs[k].id == built.ids[k];
  }

  lemma LeavesMade(w: World, w': World, built: Built, linking: bool)
    requires Effect(w, w', built, 0, linking)
    ensures LeavesAre(w.nodes, w', built, Flat(built.groups), false, linking)
  {
    hide StoredNode, Flat;
    assert forall k :: 0 <= k < |built.ids| ==> LeafIs(w.nodes, w', built.ids[k], built.groups[k], false, linking);
    hide LeafIs;
  }

  /** A node stored before a level is still there after it. */
  lemma OldNode(w: World, w': World, built: Built, level: nat, linking: bool, id: int)
    requires Effect(w, w', built, level, linking) && id in w.nodes
    ensures id in w'.nodes && w'.nodes[id] == Touched(w.nodes[id], id, Flat(built.groups), level, linking, w.part2node)
    ensures w'.nodes[id].level == w.nodes[id].level
  {
    hide Flat, Mentions, NewNodes;
  }

  lemma NewNodeLevel(w: World, w': World, built: Built, level: nat, linking: bool, id: int)
    requires Effect(w, w', built, level, linking) && id in w'.nodes && id !in w.nodes
    ensures w'.nodes[id].level == level
  {
    hide Flat, Mentions, OldNodes, MbrOf;
    var k :| 0 <= k < |built.ids| && built.ids[k] == id;
    assert w'.nodes[id] == StoredNode(built.groups[k], level, linking);
  }

  lemma LeafLater(before: map<int, Node>, w: World, w': World, rs: seq<Record>, built: Built, level: nat,
                  linking: bool, id: int)
    requires LeafIs(before, w, id, rs, level >= 2 && linking, linking) && level >= 1
             && Effect(w, w', built, level, linking)
    requires level == 1 ==> Mentions(Flat(built.groups), id)
    ensures LeafIs(before, w', id, rs, linking, linking)
  {
    OldNode(w, w', built, level, linking, id);
    hide Flat, Mentions, MbrOf, NewNodes, OldNodes;
  }

  /** Level 1 links every leaf; no later level touches one. */
  lemma LeavesLater(before: map<int, Node>, w: World, w': World, leaves: Built, all: multiset<Record>,
                    built: Built, level: nat, linking: bool)
    requires LeavesAre(before, w, leaves, all, level >= 2 && linking, linking)
    requires level >= 1 && Effect(w, w', built, level, linking)
    requires level == 1 ==> Flat(built.groups) == multiset(NodeRecords(leaves))
    ensures LeavesAre(before, w', leaves, all, linking, linking)
  {
    assert w'.part2node == w.part2node;
    hide Flat, NodeRecords, Mentions, Effect, NoMoreLeaves, PartsAre, LeafIs;
    LeavesOnly(before, w, w', leaves.ids, built, level, linking);
    forall k | 0 <= k < |leaves.ids|
      ensures LeafIs(before, w', leaves.ids[k], leaves.groups[k], linking, linking)
    {
      if level == 1 { NodesMentioned(leaves, k); }
      LeafLater(before, w, w', leaves.groups[k], built, level, linking, leaves.ids[k]);
    }
  }

  /** No later level makes a leaf. */
  lemma LeavesOnly(before: map<int, Node>, w: World, w': World, ids: seq<int>, built: Built, level: nat, linking: bool)
    requires NoMoreLeaves(before, w.nodes, ids) && level >= 1 && Effect(w, w', built, level, linking)
    ensures NoMoreLeaves(before, w'.nodes, ids)
  {
    hide Effect;
    forall id | id in w'.nodes && id !in before && w'.nodes[id].level == 0
      ensures id in ids
    {
      if id in w.nodes {
        OldNode(w, w', built, level, linking, id);
      } else {
        NewNodeLevel(w, w', built, level, linking, id);
      }
    }
  }

  /** The records stand for trees of new nodes. */
  ghost predicate NewBelow(before: map<int, Node>, nodes: map<int, Node>, m: multiset<Record>, level: nat) {
    level > 0 ==> forall r :: r in m ==> NewTree(before, nodes, r.id, level - 1)
  }

  lemma NewBelowNext(before: map<int, Node>, w: World, w': World, built: Built, level: nat, linking: bool)
    requires NewBelow(before, w.nodes, Flat(built.groups), level) && Effect(w, w', built, level, linking)
    requires before.Keys <= w.nodes.Keys && Coherent(Flat(built.groups))
    ensures NewBelow(before, w'.nodes, multiset(NodeRecords(built)), level + 1)
  {
    LevelExtends(w, w', built, level, linking);
    assert NewNodes(w, w', built, level, linking);
    hide Flat, MbrOf, Effect, EntryOf;
    forall r: Record | r in multiset(NodeRecords(built))
      ensures NewTree(before, w'.nodes, r.id, level)
    {
      assert r in NodeRecords(built);
      var k :| 0 <= k < |built.ids| && NodeRecords(built)[k] == r;
      NewNodeTree(before, w, w', built, level, linking, k);
    }
  }

  lemma NewNodeTree(before: map<int, Node>, w: World, w': World, built: Built, level: nat, linking: bool, k: nat)
    requires NewBelow(before, w.nodes, Flat(built.groups), level) && NewNodes(w, w', built, level, linking)
    requires Extends(w.nodes, w'.nodes) && before.Keys <= w.nodes.Keys && Coherent(Flat(built.groups))
             && k < |built.ids|
    ensures NewTree(before, w'.nodes, built.ids[k], level)
  {
    var g, n := built.groups[k], w'.nodes[built.ids[k]];
    assert n == StoredNode(g, level, linking);
    assert built.ids[k] !in before;
    hide NewNodes, Flat, MbrOf, Extends;
    if level > 0 {
      forall e | e in n.entries
        ensures NewTree(before, w'.nodes, e.id, level - 1)
      {
        var j :| 0 <= j < |n.entries| && n.entries[j] == e;
        GroupMentions(built.groups, k, j);
        assert EntryOf(g[j]).id == g[j].id;
        NewTreeFrame(before, w.nodes, w'.nodes, g[j].id, level - 1);
      }
    }
  }

  /** What holds before each level: the records fit it, stand for all boxes, and the leaves are as they should be. */
  ghost predicate Reached(before: map<int, Node>, w: World, m: multiset<Record>, level: nat, leaves: Built,
                          stream: seq<SbbData>, linking: bool) {
    && Fit(w, m, level, linking) && Ready(w.nodes, m, level) && SumItems(w.nodes, m, level) == Items(stream)
    && before.Keys <= w.nodes.Keys && NewBelow(before, w.nodes, m, level)
    && (if level == 0 then m == multiset(DataRecords(stream)) && w.nodes == before
        else LeavesAre(before, w, leaves, multiset(DataRecords(stream)), level >= 2 && linking, linking))
    && (level == 1 ==> m == multiset(NodeRecords(leaves)))
  }

  lemma DataIsReady(nodes: map<int, Node>, stream: seq<SbbData>)
    ensures Ready(nodes, multiset(DataRecords(stream)), 0) && Coherent(multiset(DataRecords(stream)))
  {
    forall r: Record | r in multiset(DataRecords(stream))
      ensures r.data.Some? && r == DataRecord(r.data.value) && EntryOf(r).id == r.id
    {
      assert r in DataRecords(stream);
    }
  }

  lemma ReachedFirst(w: World, stream: seq<SbbData>, leaves: Built, linking: bool)
    requires linking ==> DistinctBoxes(stream)
    ensures Reached(w.nodes, w, multiset(DataRecords(stream)), 0, leaves, stream, linking)
  {
    hide SumItems, Items, DistinctIds, DistinctBoxes, DataRecords, Ready, Coherent, LeavesAre, NodeRecords;
    if linking { DataDistinct(stream); }
    StreamItems(w.nodes, stream);
    DataIsReady(w.nodes, stream);
  }

  lemma FitNext(w: World, w': World, built: Built, level: nat, linking: bool)
    requires Effect(w, w', built, level, linking)
    ensures Fit(w', multiset(NodeRecords(built)), level + 1, linking)
  {
    NodesDistinct(built);
    hide Flat, StoredNode, Mentions, OldNodes, Placed, DistinctIds, MbrOf;
    forall r: Record | r in multiset(NodeRecords(built))
      ensures EntryOf(r).id == r.id && r.id in w'.nodes
    {
      assert r in NodeRecords(built);
    }
  }

  /** A level keeps what the records stand for ... */
  lemma RecordsNext(before: map<int, Node>, w: World, w': World, level: nat, linking: bool, built: Built, b: nat)
    requires Ready(w.nodes, Flat(built.groups), level) && Fit(w, Flat(built.groups), level, linking)
    requires NewBelow(before, w.nodes, Flat(built.groups), level) && before.Keys <= w.nodes.Keys
    requires Effect(w, w', built, level, linking) && Packed(built.groups, b)
    ensures NewNodes(w, w', built, level, linking) && before.Keys <= w'.nodes.Keys
    ensures var m' := multiset(NodeRecords(built));
      && Fit(w', m', level + 1, linking) && Ready(w'.nodes, m', level + 1) && NewBelow(before, w'.nodes, m', level + 1)
      && SumItems(w'.nodes, m', level + 1) == SumItems(w.nodes, Flat(built.groups), level)
  {
    assert NewNodes(w, w', built, level, linking);
    hide Ready, SumItems, Flat, Effect, Packed, NodeRecords, NewBelow, NewNodes;
    NewBelowNext(before, w, w', built, level, linking);
    hide Fit;
    forall id | id in w.nodes ensures id in w'.nodes { OldNode(w, w', built, level, linking, id); }
    FitNext(w, w', built, level, linking);
    ReadyNext(w, w', built, level, linking, b);
    LevelItems(w'.nodes, built, level, linking);
    LevelExtends(w, w', built, level, linking);
    SumFrame(w.nodes, w'.nodes, Flat(built.groups), level);
  }

  /** ... and what is known of the leaves. */
  lemma ReachedNext(before: map<int, Node>, w: World, w': World, m: multiset<Record>, level: nat, leaves: Built,
                    stream: seq<SbbData>, linking: bool, built: Built, b: nat)
    requires Reached(before, w, m, level, leaves, stream, linking)
    requires Effect(w, w', built, level, linking) && Flat(built.groups) == m && Packed(built.groups, b)
    ensures Reached(before, w', multiset(NodeRecords(built)), level + 1,
                    if level == 0 then built else leaves, stream, linking)
  {
    hide Ready, Fit, SumItems, Items, Flat, Effect, Packed, NodeRecords, LeavesAre, DataRecords, NewBelow, NewNodes;
    RecordsNext(before, w, w', level, linking, built, b);
    if level == 0 {
      LeavesMade(w, w', built, linking);
    } else {
      LeavesLater(before, w, w', leaves, multiset(DataRecords(stream)), built, level, linking);
    }
  }

  /** A single record left is the root's. */
  lemma RootHoldsAll(before: map<int, Node>, w: World, built: Built, level: nat, m: multiset<Item>)
    requires |built.ids| == |built.groups| == 1
    requires Ready(w.nodes, multiset(NodeRecords(built)), level + 1)
    requires SumItems(w.nodes, multiset(NodeRecords(built)), level + 1) == m
    requires NewBelow(before, w.nodes, multiset(NodeRecords(built)), level + 1)
    ensures NewTree(before, w.nodes, built.ids[0], level)
    ensures WellTree(w.nodes, built.ids[0], level) && TreeItems(w.nodes, built.ids[0], level) == m
  {
    var r := NodeRecord(built.ids[0], built.groups[0]);
    assert NodeRecords(built) == [r] && r in multiset{r};
    assert RecordItems(w.nodes, r, level + 1) == TreeItems(w.nodes, r.id, level);
    SumSingle(w.nodes, r, level + 1);
  }

  /** One round of the level loop. */
  method BuildLevel(loader: Loader, tree: RTree, es: Sorter, level: nat, bleaf: nat, bindex: nat, pageSize: nat,
                    numberOfPages: nat, tuning: Tuning,
                    ghost before: map<int, Node>, ghost leaves: Built, ghost stream: seq<SbbData>)
    returns (es2: Sorter, ghost leaves': Built, ghost built: Built)
    requires tree.Valid() && es.Valid() && !es.insertionPhase && |es.Delivery()| == es.total >= 1
    requires bleaf >= 1 && bindex >= 1 && pageSize >= 1 && numberOfPages >= 2 && tree.dimension >= 1
    requires TakesRoots(tuning.pow)
    requires Reached(before, loader.WorldOf(tree), multiset(es.Delivery()), level, leaves, stream, tree.storingLinks)
    modifies loader, tree, es
    ensures fresh(es2) && tree.Valid() && es2.Valid() && es2.insertionPhase && es2.bufferPages == numberOfPages
            && es2.pageSize == pageSize && es2.s == 0
    ensures Reached(before, loader.WorldOf(tree), multiset(es2.Inserted()), level + 1, leaves', stream,
                    tree.storingLinks)
    ensures TiledLevel(Plan(tree.dimension, bleaf, bindex, pageSize, numberOfPages, tuning), level, built.groups,
                       old(es.Delivery()))
    ensures StoredAt(tree.nodes, built, level, tree.storingLinks) && Extends(old(tree.nodes), tree.nodes)
    ensures |built.ids| == |built.groups| == es2.total && es2.Inserted() == NodeRecords(built)
    ensures es2.total == 1 ==> built.ids == [tree.rootID]
    ensures es2.total == CeilDiv(old(es.total), Fanout(level, bleaf, bindex))
    ensures es2.total == 1 ==>
              WellTree(tree.nodes, tree.rootID, level) && TreeItems(tree.nodes, tree.rootID, level) == Items(stream)
                               && NewTree(before, tree.nodes, tree.rootID, level)
  {
    hide Sorter.Valid, Sorter.Delivery, Sorter.Inserted, RTree.Valid, Flat, Packed, Reached, Tiled, Made, Extends,
         StoredAt, Fit, NodeRecords, WellTree, TreeItems, NewTree, Items, CeilDiv, Effect;
    es2 := new Sorter(0, pageSize, numberOfPages);
    ghost var m, w := multiset(es.Delivery()), loader.WorldOf(tree);
    ghost var n := es.total;
    assert |m| == n;
    ReachedReady(before, w, m, level, leaves, stream, tree.storingLinks);
    ghost var start := loader.Snap(tree, es2);
    built := loader.CreateLevel(tree, es, 0, bleaf, bindex, level, es2, pageSize, numberOfPages, tuning);
    ghost var end := loader.Snap(tree, es2);
    leaves' := if level == 0 then built else leaves;
    LevelDone(before, start, end, m, level, leaves, stream, tree.storingLinks, built, Fanout(level, bleaf, bindex),
              leaves');
    LevelCounts(start, end, m, level, tree.storingLinks, built, Fanout(level, bleaf, bindex));
    NewAreStored(start.w, end.w, built, level, tree.storingLinks);
  }

  lemma LevelCounts(start: Snapshot, end: Snapshot, m: multiset<Record>, level: nat, linking: bool, built: Built,
                    b: nat)
    requires b >= 1 && start.inserted == [] && start.total == 0
    requires Made(start, end, built, level, linking) && Flat(built.groups) == m && Packed(built.groups, b)
    ensures |built.ids| == |built.groups| && Effect(start.w, end.w, built, level, linking)
    ensures end.total == |built.ids| == CeilDiv(|m|, b) && end.inserted == NodeRecords(built)
    ensures built.ids != [] ==> end.rootID == built.ids[|built.ids| - 1]
  {
    hide Flat, Packed, Effect, NodeRecords, CeilDiv;
    PackedCount(built.groups, b);
  }

  lemma LevelDone(before: map<int, Node>, start: Snapshot, end: Snapshot, m: multiset<Record>, level: nat,
                  leaves: Built, stream: seq<SbbData>, linking: bool, built: Built, b: nat, leaves': Built)
    requires b >= 1 && start.inserted == [] && start.total == 0
    requires Reached(before, start.w, m, level, leaves, stream, linking)
    requires Made(start, end, built, level, linking) && Flat(built.groups) == m && Packed(built.groups, b)
    requires leaves' == if level == 0 then built else leaves
    ensures end.total == CeilDiv(|m|, b)
    ensures Reached(before, end.w, multiset(end.inserted), level + 1, leaves', stream, linking)
    ensures end.total == 1 ==> RootReached(before, end, level, stream)
  {
    LevelCounts(start, end, m, level, linking, built, b);
    hide Flat, Packed, Effect, NodeRecords, Reached, Made, RootReached;
    ReachedNext(before, start.w, end.w, m, level, leaves, stream, linking, built, b);
    if end.total == 1 {
      RootDone(before, end, built, level, leaves', stream, linking);
    }
  }

  ghost predicate RootReached(before: map<int, Node>, end: Snapshot, level: nat, stream: seq<SbbData>) {
    && WellTree(end.w.nodes, end.rootID, level) && TreeItems(end.w.nodes, end.rootID, level) == Items(stream)
    && NewTree(before, end.w.nodes, end.rootID, level)
  }

  lemma RootDone(before: map<int, Node>, end: Snapshot, built: Built, level: nat, leaves: Built, stream: seq<SbbData>,
                 linking: bool)
    requires |built.ids| == |built.groups| == 1 && end.rootID == built.ids[0]
             && end.inserted == NodeRecords(built)
    requires Reached(before, end.w, multiset(end.inserted), level + 1, leaves, stream, linking)
    ensures RootReached(before, end, level, stream)
  {
    ReachedReady(before, end.w, multiset(end.inserted), level + 1, leaves, stream, linking);
    hide Reached, NodeRecords, Items, Ready, SumItems, WellTree, TreeItems, NewTree;
    RootHoldsAll(before, end.w, built, level, Items(stream));
  }

  lemma ReachedReady(before: map<int, Node>, w: World, m: multiset<Record>, level: nat, leaves: Built,
                     stream: seq<SbbData>, linking: bool)
    requires Reached(before, w, m, level, leaves, stream, linking)
    ensures Ready(w.nodes, m, level) && SumItems(w.nodes, m, level) == Items(stream)
            && NewBelow(before, w.nodes, m, level) && Fit(w, m, level, linking)
  {
  }

  // ----- where the links lead

  /** Every neighbour a box claims to have is in the stream. */
  ghost predicate LinkClosed(stream: seq<SbbData>) {
    forall d :: d in stream ==>
      && (d.hasPrev ==> exists d' :: d' in stream && d'.sbbid == d.sbbid - 1)
      && (d.hasNext ==> exists d' :: d' in stream && d'.sbbid == d.sbbid + 1)
  }

  /** `e` is an entry of a leaf that was not there before. */
  ghost predicate LeafEntry(before: map<int, Node>, nodes: map<int, Node>, leaf: int, e: Entry) {
    leaf in nodes && leaf !in before && nodes[leaf].level == 0 && e in nodes[leaf].entries
  }

  ghost predicate LeafHolds(before: map<int, Node>, nodes: map<int, Node>, leaf: int, id: int) {
    exists e :: LeafEntry(before, nodes, leaf, e) && e.id == id
  }

  /** The entry of box `d` names the leaves of its neighbours, and -1 where it has none. */
  ghost predicate Linked(before: map<int, Node>, nodes: map<int, Node>, e: Entry, d: SbbData) {
    && ItemOf(e) == ItemOfData(d)
    && (if d.hasPrev then LeafHolds(before, nodes, e.prev, d.sbbid - 1) else e.prev == -1)
    && (if d.hasNext then LeafHolds(before, nodes, e.next, d.sbbid + 1) else e.next == -1)
  }

  /** The entry of box `d` still carries the raw flags. */
  ghost predicate Flagged(e: Entry, d: SbbData) {
    ItemOf(e) == ItemOfData(d) && e.prev == (if d.hasPrev then 1 else 0) && e.next == (if d.hasNext then 1 else 0)
  }

  ghost predicate LinksLead(before: map<int, Node>, nodes: map<int, Node>, stream: seq<SbbData>) {
    forall id, e :: LeafEntry(before, nodes, id, e) ==> exists d :: d in stream && Linked(before, nodes, e, d)
  }

  ghost predicate FlagsStay(before: map<int, Node>, nodes: map<int, Node>, stream: seq<SbbData>) {
    forall id, e :: LeafEntry(before, nodes, id, e) ==> exists d :: d in stream && Flagged(e, d)
  }

  /** No links were written: both read back as -1. */
  ghost predicate NoLinks(before: map<int, Node>, nodes: map<int, Node>) {
    forall id, e :: LeafEntry(before, nodes, id, e) ==> e.prev == e.next == -1
  }

  /** No box slot was written. */
  ghost predicate NoBoxes(before: map<int, Node>, nodes: map<int, Node>) {
    forall id, e :: LeafEntry(before, nodes, id, e) ==> !e.boxed
  }

  /** No box is in two leaves. */
  ghost predicate OneLeaf(before: map<int, Node>, nodes: map<int, Node>) {
    forall id, id', e, e' ::
      LeafEntry(before, nodes, id, e) && LeafEntry(before, nodes, id', e') && e.id == e'.id ==> id == id'
  }

  /** Every item of a tree of new nodes is in an entry of one of its leaves. */
  lemma {:induction false} LeafWithItem(before: map<int, Node>, nodes: map<int, Node>, id: int, level: nat, item: Item)
    returns (leaf: int, e: Entry)
    requires WellTree(nodes, id, level) && NewTree(before, nodes, id, level) && item in TreeItems(nodes, id, level)
    ensures LeafEntry(before, nodes, leaf, e) && InTree(nodes, id, level, leaf) && ItemOf(e) == item
    decreases level
  {
    e := EntryWithItem(nodes, nodes[id].entries, level, item);
    leaf := id;
    if level > 0 {
      leaf, e := LeafWithItem(before, nodes, e.id, level - 1, item);
    }
  }

  lemma {:induction false} InItems(stream: seq<SbbData>, i: nat)
    requires i < |stream|
    ensures ItemOfData(stream[i]) in Items(stream)
  {
    var n := |stream| - 1;
    if i < n {
      InItems(stream[..n], i);
    }
  }

  lemma {:induction false} GroupWith(groups: seq<seq<Record>>, r: Record) returns (k: nat, j: nat)
    requires r in Flat(groups)
    ensures k < |groups| && j < |groups[k]| && groups[k][j] == r
  {
    if r in multiset(groups[0]) {
      assert r in groups[0];
      k := 0;
      j :| 0 <= j < |groups[0]| && groups[0][j] == r;
    } else {
      k, j := GroupWith(groups[1..], r);
      k := k + 1;
    }
  }

  /** With links resolved, the leaf recorded for a box holds it. */
  lemma PartLeads(before: map<int, Node>, w: World, leaves: Built, stream: seq<SbbData>, d: SbbData)
    requires LeavesAre(before, w, leaves, multiset(DataRecords(stream)), true, true) && d in stream
    ensures LeafHolds(before, w.nodes, PartAt(w.part2node, d.sbbid), d.sbbid)
  {
    var i :| 0 <= i < |stream| && stream[i] == d;
    assert DataRecords(stream)[i] == DataRecord(d) && DataRecord(d) in DataRecords(stream);
    assert DataRecord(d) in Flat(leaves.groups);
    hide Flat, MbrOf;
    var k, j := GroupWith(leaves.groups, DataRecord(d));
    assert leaves.groups[k][j].id == d.sbbid;
    assert LeafIs(before, w, leaves.ids[k], leaves.groups[k], true, true);
    var n := w.nodes[leaves.ids[k]];
    assert LeafEntry(before, w.nodes, leaves.ids[k], n.entries[j]) && n.entries[j].id == d.sbbid;
  }

  /** The datum behind a leaf entry. */
  lemma LeafDatum(leaves: Built, stream: seq<SbbData>, k: nat, j: nat) returns (d: SbbData)
    requires Flat(leaves.groups) == multiset(DataRecords(stream)) && k < |leaves.groups| && j < |leaves.groups[k]|
    ensures d in stream && leaves.groups[k][j] == DataRecord(d)
  {
    GroupMentions(leaves.groups, k, j);
    assert leaves.groups[k][j] in multiset(DataRecords(stream));
    assert leaves.groups[k][j] in DataRecords(stream);
    var i :| 0 <= i < |stream| && DataRecords(stream)[i] == leaves.groups[k][j];
    d := stream[i];
  }

  /** What became of the entry made for a record. */
  function EntryNow(r: Record, part2node: map<int, int>, linked: bool, linking: bool): Entry {
    var e := KeptEntry(EntryOf(r), linking);
    if linked then LinkEntry(e, part2node) else e
  }

  lemma LeafIndex(before: map<int, Node>, w: World, leaves: Built, all: multiset<Record>, linked: bool, linking: bool,
                  id: int, e: Entry)
    returns (k: nat, j: nat)
    requires LeavesAre(before, w, leaves, all, linked, linking) && LeafEntry(before, w.nodes, id, e)
             && (linked ==> linking)
    ensures k < |leaves.groups| && j < |leaves.groups[k]| && leaves.ids[k] == id && Flat(leaves.groups) == all
    ensures e == EntryNow(leaves.groups[k][j], w.part2node, linked, linking)
    ensures linking ==> leaves.groups[k][j].id in w.part2node && w.part2node[leaves.groups[k][j].id] == id
  {
    hide Flat, MbrOf, EntryOf;
    k :| 0 <= k < |leaves.ids| && leaves.ids[k] == id;
    assert LeafIs(before, w, id, leaves.groups[k], linked, linking);
    j :| 0 <= j < |w.nodes[id].entries| && w.nodes[id].entries[j] == e;
  }

  lemma EntryResolved(before: map<int, Node>, w: World, leaves: Built, stream: seq<SbbData>, id: int, e: Entry)
    returns (d: SbbData)
    requires LeavesAre(before, w, leaves, multiset(DataRecords(stream)), true, true) && LinkClosed(stream)
    requires LeafEntry(before, w.nodes, id, e)
    ensures d in stream && Linked(before, w.nodes, e, d)
  {
    var k, j := LeafIndex(before, w, leaves, multiset(DataRecords(stream)), true, true, id, e);
    d := LeafDatum(leaves, stream, k, j);
    assert d.hasPrev ==> exists p :: p in stream && p.sbbid == d.sbbid - 1;
    assert d.hasNext ==> exists p :: p in stream && p.sbbid == d.sbbid + 1;
    hide LeavesAre, Flat, LeafHolds, LinkClosed, LeafEntry, DataRecords, EntryNow, Linked, DataRecord;
    if d.hasPrev { NeighbourLeads(before, w, leaves, stream, d.sbbid - 1); }
    if d.hasNext { NeighbourLeads(before, w, leaves, stream, d.sbbid + 1); }
    EntryLinked(before, w, e, d);
  }

  lemma EntryLinked(before: map<int, Node>, w: World, e: Entry, d: SbbData)
    requires e == EntryNow(DataRecord(d), w.part2node, true, true)
    requires d.hasPrev ==> LeafHolds(before, w.nodes, PartAt(w.part2node, d.sbbid - 1), d.sbbid - 1)
    requires d.hasNext ==> LeafHolds(before, w.nodes, PartAt(w.part2node, d.sbbid + 1), d.sbbid + 1)
    ensures Linked(before, w.nodes, e, d)
  {
    hide LeafHolds;
  }

  lemma NeighbourLeads(before: map<int, Node>, w: World, leaves: Built, stream: seq<SbbData>, id: int)
    requires LeavesAre(before, w, leaves, multiset(DataRecords(stream)), true, true)
    requires exists p :: p in stream && p.sbbid == id
    ensures LeafHolds(before, w.nodes, PartAt(w.part2node, id), id)
  {
    hide LeavesAre, LeafHolds;
    var p :| p in stream && p.sbbid == id;
    PartLeads(before, w, leaves, stream, p);
  }

  lemma LinksResolved(before: map<int, Node>, w: World, leaves: Built, stream: seq<SbbData>)
    requires LeavesAre(before, w, leaves, multiset(DataRecords(stream)), true, true) && LinkClosed(stream)
    ensures LinksLead(before, w.nodes, stream)
  {
    hide LeavesAre, LinkClosed, Linked, LeafEntry;
    forall id, e | LeafEntry(before, w.nodes, id, e)
      ensures exists d :: d in stream && Linked(before, w.nodes, e, d)
    {
      var d := EntryResolved(before, w, leaves, stream, id, e);
    }
  }

  /** What the leaves keep as long as no level has linked them: the flags, or nothing if no links are stored. */
  lemma FlagsUnresolved(before: map<int, Node>, w: World, leaves: Built, stream: seq<SbbData>, linking: bool)
    requires LeavesAre(before, w, leaves, multiset(DataRecords(stream)), false, linking)
    ensures if linking then FlagsStay(before, w.nodes, stream) else NoLinks(before, w.nodes)
  {
    hide LeavesAre, LeafEntry, Flat;
    forall id, e | LeafEntry(before, w.nodes, id, e)
      ensures if linking then exists d :: d in stream && Flagged(e, d) else e.prev == e.next == -1
    {
      var k, j := LeafIndex(before, w, leaves, multiset(DataRecords(stream)), false, linking, id, e);
      var d := LeafDatum(leaves, stream, k, j);
      assert linking ==> Flagged(e, d);
    }
  }

  lemma LeavesUnboxed(before: map<int, Node>, w: World, leaves: Built, stream: seq<SbbData>, linked: bool,
                      linking: bool)
    requires LeavesAre(before, w, leaves, multiset(DataRecords(stream)), linked, linking) && (linked ==> linking)
    ensures NoBoxes(before, w.nodes)
    ensures linking ==> OneLeaf(before, w.nodes)
  {
    hide LeavesAre, LeafEntry, Flat;
    forall id, e | LeafEntry(before, w.nodes, id, e)
      ensures !e.boxed && (linking ==> e.id in w.part2node && w.part2node[e.id] == id)
    {
      var k, j := LeafIndex(before, w, leaves, multiset(DataRecords(stream)), linked, linking, id, e);
      var d := LeafDatum(leaves, stream, k, j);
    }
  }

  // ----- the load

  /** The finished tree of a given height. */
  ghost predicate Loaded(before: map<int, Node>, nodes: map<int, Node>, rootID: int, height: nat, stream: seq<SbbData>,
                         bleaf: nat, bindex: nat, linking: bool)
    requires bleaf >= 1 && bindex >= 1
  {
    && height >= 1 && WellTree(nodes, rootID, height - 1)
    && TreeItems(nodes, rootID, height - 1) == Items(stream)
    && |stream| <= Capacity(bleaf, bindex, height)
    && (forall h :: 1 <= h < height ==> Capacity(bleaf, bindex, h) < |stream|)
    && NewTree(before, nodes, rootID, height - 1) && NoBoxes(before, nodes) && (linking ==> OneLeaf(before, nodes))
    && (linking && height >= 2 && LinkClosed(stream) ==> LinksLead(before, nodes, stream))
    && (linking && height == 1 ==> FlagsStay(before, nodes, stream))
    && (!linking ==> NoLinks(before, nodes))
  }

  lemma LoadDone(before: map<int, Node>, w: World, m: multiset<Record>, height: nat, leaves: Built,
                 stream: seq<SbbData>, linking: bool, rootID: int, bleaf: nat, bindex: nat)
    requires bleaf >= 1 && bindex >= 1 && height >= 1 && stream != []
    requires Reached(before, w, m, height, leaves, stream, linking)
    requires WellTree(w.nodes, rootID, height - 1) && TreeItems(w.nodes, rootID, height - 1) == Items(stream)
    requires NewTree(before, w.nodes, rootID, height - 1)
    requires LevelCount(|stream|, bleaf, bindex, height) == 1
    requires forall h :: 1 <= h < height ==> LevelCount(|stream|, bleaf, bindex, h) != 1
    ensures Loaded(before, w.nodes, rootID, height, stream, bleaf, bindex, linking)
  {
    hide LevelCount, Capacity, WellTree, TreeItems, Items, LeavesAre, LinksLead, FlagsStay, Fit, Ready, SumItems,
         LinkClosed,
      NewTree, NewBelow, NoLinks, NoBoxes, OneLeaf;
    LeavesUnboxed(before, w, leaves, stream, height >= 2 && linking, linking);
    OneNodeIffFits(|stream|, bleaf, bindex, height);
    forall h | 1 <= h < height
      ensures Capacity(bleaf, bindex, h) < |stream|
    {
      OneNodeIffFits(|stream|, bleaf, bindex, h);
    }
    if linking && height >= 2 {
      if LinkClosed(stream) { LinksResolved(before, w, leaves, stream); }
    } else {
      FlagsUnresolved(before, w, leaves, stream, linking);
    }
  }

  method CollectData(stream: seq<SbbData>, pageSize: nat, numberOfPages: nat) returns (es: Sorter)
    requires pageSize >= 1 && numberOfPages >= 2
    ensures fresh(es) && es.Valid() && !es.insertionPhase && |es.Delivery()| == es.total == |stream|
    ensures multiset(es.Delivery()) == multiset(DataRecords(stream))
    ensures Sorts(0, pageSize * numberOfPages, numberOfPages, DataRecords(stream), es.Delivery())
  {
    hide Sorter.Valid, Sorter.Pending, Sorter.Delivery, Sorter.Inserted, DataRecords, Sorts;
    es := new Sorter(0, pageSize, numberOfPages);
    NoRecords(stream);
    for i := 0 to |stream|
      invariant es.Valid() && es.insertionPhase && es.total == i
      invariant es.Inserted() == DataRecords(stream[..i])
    {
      DataRecordsGrow(stream, i);
      var ok := es.Insert(DataRecord(stream[i]));
    }
    assert stream[..|stream|] == stream;
    var ok := es.Sort();
    SortsConserve(0, pageSize * numberOfPages, numberOfPages, DataRecords(stream), es.Delivery());
  }

  /** What holds before a round of the level loop. */
  ghost predicate Round(before: map<int, Node>, w: World, m: multiset<Record>, total: nat, level: nat, leaves: Built,
                        stream: seq<SbbData>, bleaf: nat, bindex: nat, linking: bool)
    requires bleaf >= 1 && bindex >= 1
  {
    && Reached(before, w, m, level, leaves, stream, linking)
    && total == LevelCount(|stream|, bleaf, bindex, level) && total >= (if level == 0 then 1 else 2)
    && (forall h :: 1 <= h <= level ==> LevelCount(|stream|, bleaf, bindex, h) != 1)
    && (level >= 1 ==> bindex >= 2)
  }

  lemma RoundCounts(n: nat, bleaf: nat, bindex: nat, level: nat)
    requires bleaf >= 1 && bindex >= 1 && (bindex >= 2 || n <= bleaf)
    requires LevelCount(n, bleaf, bindex, level) >= if level == 0 then 1 else 2
    requires level >= 1 ==> bindex >= 2
    ensures LevelCount(n, bleaf, bindex, level + 1) >= 1
    ensures level >= 1 ==> LevelCount(n, bleaf, bindex, level + 1) < LevelCount(n, bleaf, bindex, level)
    ensures LevelCount(n, bleaf, bindex, level + 1) == 1 || bindex >= 2
  {
    hide CeilDiv;
    var c, b := LevelCount(n, bleaf, bindex, level), Fanout(level, bleaf, bindex);
    CeilDivBounds(c, b);
    if level >= 1 { CeilShrinks(c, b); }
    if level == 0 && n <= bleaf { CeilDivIs(n, bleaf, 1); }
  }

  lemma RoundNext(before: map<int, Node>, w: World, m: multiset<Record>, total: nat, w': World, m': multiset<Record>,
                  total': nat, level: nat, leaves: Built, leaves': Built, stream: seq<SbbData>, bleaf: nat,
                  bindex: nat, linking: bool)
    requires bleaf >= 1 && bindex >= 1 && (bindex >= 2 || |stream| <= bleaf)
    requires Round(before, w, m, total, level, leaves, stream, bleaf, bindex, linking)
    requires Reached(before, w', m', level + 1, leaves', stream, linking)
             && total' == CeilDiv(total, Fanout(level, bleaf, bindex))
    ensures total' == LevelCount(|stream|, bleaf, bindex, level + 1) >= 1
    ensures forall h :: 1 <= h <= level ==> LevelCount(|stream|, bleaf, bindex, h) != 1
    ensures total' != 1 ==> Round(before, w', m', total', level + 1, leaves', stream, bleaf, bindex, linking)
    ensures level >= 1 ==> total' < total
  {
    hide Reached, CeilDiv;
    RoundCounts(|stream|, bleaf, bindex, level);
  }

  /** One round: build a level; if it took more than one node, sort the nodes' records for the next. */
  method LevelRound(loader: Loader, tree: RTree, es: Sorter, level: nat, bleaf: nat, bindex: nat, pageSize: nat,
                    numberOfPages: nat, tuning: Tuning,
                    ghost before: map<int, Node>, ghost leaves: Built, ghost stream: seq<SbbData>,
                    ghost levels: seq<Built>)
    returns (es2: Sorter, ghost leaves': Built, done: bool, ghost levels': seq<Built>)
    requires tree.Valid() && es.Valid() && !es.insertionPhase && |es.Delivery()| == es.total >= 1 && stream != []
    requires bleaf >= 1 && bindex >= 1 && (bindex >= 2 || |stream| <= bleaf)
    requires pageSize >= 1 && numberOfPages >= 2 && tree.dimension >= 1
    requires Round(before, loader.WorldOf(tree), multiset(es.Delivery()), es.total, level, leaves, stream, bleaf,
                   bindex, tree.storingLinks)
    requires TakesRoots(tuning.pow) && |levels| == level
    requires Delivered(Plan(tree.dimension, bleaf, bindex, pageSize, numberOfPages, tuning), stream, levels,
                       es.Delivery())
    requires InLayers(Plan(tree.dimension, bleaf, bindex, pageSize, numberOfPages, tuning), tree.nodes, stream, levels,
                      tree.storingLinks)
    modifies loader, tree, es
    ensures fresh(es2) && tree.Valid() && es2.Valid()
    ensures done ==> Loaded(before, tree.nodes, tree.rootID, level + 1, stream, bleaf, bindex, tree.storingLinks)
    ensures !done ==> !es2.insertionPhase && |es2.Delivery()| == es2.total >= 1
    ensures !done && level >= 1 ==> es2.total < old(es.total)
    ensures !done ==> Round(before, loader.WorldOf(tree), multiset(es2.Delivery()), es2.total, level + 1, leaves',
                            stream, bleaf, bindex, tree.storingLinks)
    ensures |levels'| == level + 1
    ensures InLayers(Plan(tree.dimension, bleaf, bindex, pageSize, numberOfPages, tuning), tree.nodes, stream, levels',
                     tree.storingLinks)
    ensures if done then levels'[level].ids == [tree.rootID]
            else Delivered(Plan(tree.dimension, bleaf, bindex, pageSize, numberOfPages, tuning), stream, levels',
                           es2.Delivery())
  {
    hide Sorter.Valid, Sorter.Pending, Sorter.Delivery, RTree.Valid, Loaded, WellTree, TreeItems, NewTree, Items,
         LevelCount, CeilDiv, Reached, Sorter.Inserted, InLayers, TiledLevel, StoredAt, Extends, Sorts, NodeRecords;
    ghost var p := Plan(tree.dimension, bleaf, bindex, pageSize, numberOfPages, tuning);
    ghost var rs, nodes := es.Delivery(), tree.nodes;
    assert Delivered(p, stream, levels, rs);
    ghost var m, w, total := multiset(es.Delivery()), loader.WorldOf(tree), es.total;
    assert Round(before, w, m, total, level, leaves, stream, bleaf, bindex, tree.storingLinks);
    assert Reached(before, w, m, level, leaves, stream, tree.storingLinks);
    hide Round;
    ghost var built;
    es2, leaves', built := BuildLevel(loader, tree, es, level, bleaf, bindex, pageSize, numberOfPages, tuning, before,
                                      leaves, stream);
    ghost var w', given := loader.WorldOf(tree), es2.Inserted();
    levels' := levels + [built];
    LayersGrow(p, nodes, tree.nodes, stream, levels, built, rs, tree.storingLinks);
    RoundNext(before, w, m, total, w', multiset(given), es2.total, level, leaves, leaves', stream, bleaf, bindex,
              tree.storingLinks);
    done := es2.total == 1;
    if done {
      LoadDone(before, w', multiset(given), level + 1, leaves', stream, tree.storingLinks, tree.rootID, bleaf, bindex);
    } else {
      var sorted := es2.Sort();
      SortsConserve(0, pageSize * numberOfPages, numberOfPages, given, es2.Delivery());
    }
  }

  /** Replaces the tree's root by one that holds the whole stream. Two buffer pages let every sort end, and
      two children per index node (or a single leaf) let the level loop end. */
  method BulkLoadUsingSTR(loader: Loader, tree: RTree, stream: seq<SbbData>, bindex: nat, bleaf: nat, pageSize: nat,
                          numberOfPages: nat, tuning: Tuning)
    returns (ok: bool, ghost levels: seq<Built>)
    requires tree.Valid() && tree.rootID in tree.nodes && tree.dimension >= 1 && TakesRoots(tuning.pow)
    requires bleaf >= 1 && bindex >= 1 && (bindex >= 2 || |stream| <= bleaf) && pageSize >= 1 && numberOfPages >= 2
    requires tree.storingLinks ==> DistinctBoxes(stream)
    modifies loader, tree
    ensures tree.Valid() && ok == (stream != [])
    ensures !ok ==> tree.nodes == old(tree.nodes) && tree.rootID == old(tree.rootID) && tree.height == old(tree.height)
    ensures ok ==> Loaded(old(tree.nodes) - {old(tree.rootID)}, tree.nodes, tree.rootID, tree.height, stream,
                          bleaf, bindex, tree.storingLinks)
    ensures ok ==> Layered(Plan(tree.dimension, bleaf, bindex, pageSize, numberOfPages, tuning), tree.nodes,
                           tree.rootID, tree.height, stream, tree.storingLinks, levels)
  {
    hide InLayers, Sorts;
    if stream == [] {
      return false, [];
    }
    tree.nodes := tree.nodes - {tree.rootID};
    ghost var before := tree.nodes;
    hide Sorter.Valid, Sorter.Pending, Sorter.Delivery, RTree.Valid, Loaded, Reached;
    var es := CollectData(stream, pageSize, numberOfPages);
    ghost var leaves := Built([], []);
    ReachedFirst(loader.WorldOf(tree), stream, leaves, tree.storingLinks);
    assert Round(before, loader.WorldOf(tree), multiset(es.Delivery()), es.total, 0, leaves, stream, bleaf, bindex,
                 tree.storingLinks);
    hide Round, DataRecords, Loader.WorldOf;
    var level;
    level, levels := LoadLevels(loader, tree, es, bindex, bleaf, pageSize, numberOfPages, tuning, before, leaves,
                                stream);
    tree.height := level;
    ok := true;
  }

  /** The rounds, until one node is left; returns the height. */
  method LoadLevels(loader: Loader, tree: RTree, first: Sorter, bindex: nat, bleaf: nat, pageSize: nat,
                    numberOfPages: nat, tuning: Tuning, ghost before: map<int, Node>, ghost made: Built,
                    ghost stream: seq<SbbData>)
    returns (level: nat, ghost levels: seq<Built>)
    requires tree.Valid() && first.Valid() && !first.insertionPhase && |first.Delivery()| == first.total >= 1
             && stream != []
    requires bleaf >= 1 && bindex >= 1 && (bindex >= 2 || |stream| <= bleaf)
    requires pageSize >= 1 && numberOfPages >= 2 && tree.dimension >= 1
    requires Round(before, loader.WorldOf(tree), multiset(first.Delivery()), first.total, 0, made, stream, bleaf,
                   bindex, tree.storingLinks)
    requires TakesRoots(tuning.pow)
    requires Sorts(0, pageSize * numberOfPages, numberOfPages, DataRecords(stream), first.Delivery())
    modifies loader, tree, first
    ensures tree.Valid()
    ensures Loaded(before, tree.nodes, tree.rootID, level, stream, bleaf, bindex, tree.storingLinks)
    ensures Layered(Plan(tree.dimension, bleaf, bindex, pageSize, numberOfPages, tuning), tree.nodes, tree.rootID,
                    level, stream, tree.storingLinks, levels)
  {
    hide Sorter.Valid, Sorter.Pending, Sorter.Delivery, RTree.Valid, Loaded, Round, Loader.WorldOf, LayerAt, StoredAt,
         Sorts;
    ghost var p := Plan(tree.dimension, bleaf, bindex, pageSize, numberOfPages, tuning);
    levels := [];
    assert Delivered(p, stream, levels, first.Delivery());
    var es, done := first, false;
    ghost var leaves := made;
    level := 0;
    while !done
      invariant (es == first || fresh(es)) && tree.Valid() && es.Valid()
      invariant !done ==> !es.insertionPhase && |es.Delivery()| == es.total >= 1
      invariant !done ==> Round(before, loader.WorldOf(tree), multiset(es.Delivery()), es.total, level, leaves, stream,
                                bleaf, bindex, tree.storingLinks)
      invariant done ==> Loaded(before, tree.nodes, tree.rootID, level, stream, bleaf, bindex, tree.storingLinks)
      invariant |levels| == level && InLayers(p, tree.nodes, stream, levels, tree.storingLinks)
      invariant if done then level >= 1 && levels[level - 1].ids == [tree.rootID]
                else Delivered(p, stream, levels, es.Delivery())
      decreases !done, if level == 0 then 1 else 0, es.total
    {
      es, leaves, done, levels := LevelRound(loader, tree, es, level, bleaf, bindex, pageSize, numberOfPages, tuning,
                                             before, leaves, stream, levels);
      level := level + 1;
    }
  }
}
