/** The levels of a bulk-loaded tree: what each level's nodes were made of, and that they are stored. */
module Layers {
  import opened Boxes
  import opened ExternalSorter
  import opened BulkLoader
  import opened Wrappers

  /** A leaf entry without its links. */
  datatype Item = Item(id: int, box: Box, se: Option<StoreEntry>)

  function ItemOf(e: Entry): Item { Item(e.id, e.box, e.se) }

  // ----- later levels leave what is built below as it is, but for links

  ghost predicate SameShape(n: Node, n': Node) {
    && n.level == n'.level && n.mbr == n'.mbr && |n.entries| == |n'.entries|
    && forall i :: 0 <= i < |n.entries| ==>
         && ItemOf(n.entries[i]) == ItemOf(n'.entries[i])
         && (n.level > 0 ==> n.entries[i].boxed == n'.entries[i].boxed)
  }

  ghost predicate Extends(nodes: map<int, Node>, nodes': map<int, Node>) {
    forall id :: id in nodes ==> id in nodes' && SameShape(nodes[id], nodes'[id])
  }

  lemma LevelExtends(w: World, w': World, built: Built, level: nat, linking: bool)
    requires Effect(w, w', built, level, linking)
    ensures Extends(w.nodes, w'.nodes)
  {
    hide NewNodes, Placed, Flat, Mentions, LinkNode;
    forall id | id in w.nodes
      ensures id in w'.nodes && SameShape(w.nodes[id], w'.nodes[id])
    {
      LinkKeepsShape(w.nodes[id], w.part2node);
    }
  }

  lemma LinkKeepsShape(n: Node, part2node: map<int, int>)
    ensures SameShape(n, LinkNode(n, part2node)) && SameShape(n, n)
  {
  }

  // ----- the levels

  /** The settings of a bulk load. */
  datatype Plan = Plan(axes: nat, bleaf: nat, bindex: nat, pageSize: nat, numberOfPages: nat, tuning: Tuning)

  function DataRecords(stream: seq<SbbData>): seq<Record> {
    seq(|stream|, i requires 0 <= i < |stream| => DataRecord(stream[i]))
  }

  /** What goes into the level above the ones there are: the data, or the records of the last level's nodes. */
  ghost function LevelInput(stream: seq<SbbData>, levels: seq<Built>): seq<Record>
    requires levels != [] ==> |levels[|levels| - 1].ids| == |levels[|levels| - 1].groups|
  {
    if levels == [] then DataRecords(stream) else NodeRecords(levels[|levels| - 1])
  }

  /** `rs` is that input, sorted by time. */
  ghost predicate Delivered(p: Plan, stream: seq<SbbData>, levels: seq<Built>, rs: seq<Record>) {
    && (levels != [] ==> |levels[|levels| - 1].ids| == |levels[|levels| - 1].groups|)
    && Sorts(0, p.pageSize * p.numberOfPages, p.numberOfPages, LevelInput(stream, levels), rs)
  }

  ghost predicate TiledLevel(p: Plan, level: nat, groups: seq<seq<Record>>, rs: seq<Record>) {
    && p.axes >= 1 && p.bleaf >= 1 && p.bindex >= 1
    && Tiled(TilingOf(p.axes, level, p.bleaf, p.bindex, p.pageSize, p.numberOfPages, p.tuning), 0, groups, rs)
  }

  /** The nodes of level `k` share the sorted and tiled input. */
  ghost predicate LayerAt(p: Plan, stream: seq<SbbData>, levels: seq<Built>, k: nat)
    requires k < |levels|
  {
    |levels[k].ids| == |levels[k].groups|
    && exists rs :: Delivered(p, stream, levels[..k], rs) && TiledLevel(p, k, levels[k].groups, rs)
  }

  /** The nodes are stored, but for later links. */
  ghost predicate StoredAt(nodes: map<int, Node>, built: Built, k: nat, linking: bool) {
    && |built.ids| == |built.groups|
    && forall j :: 0 <= j < |built.ids| ==>
         built.ids[j] in nodes && SameShape(StoredNode(built.groups[j], k, linking), nodes[built.ids[j]])
  }

  ghost predicate InLayers(p: Plan, nodes: map<int, Node>, stream: seq<SbbData>, levels: seq<Built>, linking: bool) {
    forall k :: 0 <= k < |levels| ==> LayerAt(p, stream, levels, k) && StoredAt(nodes, levels[k], k, linking)
  }

  /** The whole tree: a level for each unit of height, each made of the one below by sorting and tiling, the last of
      just the root. */
  ghost predicate Layered(p: Plan, nodes: map<int, Node>, rootID: int, height: nat, stream: seq<SbbData>, linking: bool,
                          levels: seq<Built>) {
    InLayers(p, nodes, stream, levels, linking) && |levels| == height >= 1 && levels[height - 1].ids == [rootID]
  }

  lemma StoredStays(nodes: map<int, Node>, nodes': map<int, Node>, built: Built, k: nat, linking: bool)
    requires StoredAt(nodes, built, k, linking) && Extends(nodes, nodes')
    ensures StoredAt(nodes', built, k, linking)
  {
    hide StoredNode;
    forall j | 0 <= j < |built.ids|
      ensures built.ids[j] in nodes' && SameShape(StoredNode(built.groups[j], k, linking), nodes'[built.ids[j]])
    {
      var id := built.ids[j];
      assert StoredAt(nodes, built, k, linking) && id in nodes && id in nodes';
      SameShapeTwice(StoredNode(built.groups[j], k, linking), nodes[id], nodes'[id]);
    }
  }

  lemma SameShapeTwice(n: Node, n': Node, n'': Node)
    requires SameShape(n, n') && SameShape(n', n'')
    ensures SameShape(n, n'')
  {
  }

  /** A new level on top. */
  lemma LayersGrow(p: Plan, nodes: map<int, Node>, nodes': map<int, Node>, stream: seq<SbbData>, levels: seq<Built>,
                   built: Built, rs: seq<Record>, linking: bool)
    requires InLayers(p, nodes, stream, levels, linking) && Extends(nodes, nodes')
    requires Delivered(p, stream, levels, rs) && TiledLevel(p, |levels|, built.groups, rs)
    requires StoredAt(nodes', built, |levels|, linking)
    ensures InLayers(p, nodes', stream, levels + [built], linking)
  {
    hide Delivered, TiledLevel, StoredAt, Extends;
    var higher := levels + [built];
    forall k | 0 <= k < |higher|
      ensures LayerAt(p, stream, higher, k) && StoredAt(nodes', higher[k], k, linking)
    {
      if k < |levels| {
        assert LayerAt(p, stream, levels, k) && higher[..k] == levels[..k];
        StoredStays(nodes, nodes', levels[k], k, linking);
      } else {
        assert higher[..k] == levels;
        StoredPairs(nodes', built, k, linking);
      }
    }
  }

  lemma StoredPairs(nodes: map<int, Node>, built: Built, k: nat, linking: bool)
    requires StoredAt(nodes, built, k, linking)
    ensures |built.ids| == |built.groups|
  {
  }

  lemma NewAreStored(w: World, w': World, built: Built, level: nat, linking: bool)
    requires Effect(w, w', built, level, linking)
    ensures StoredAt(w'.nodes, built, level, linking) && Extends(w.nodes, w'.nodes)
  {
    LevelExtends(w, w', built, level, linking);
    hide OldNodes, Placed, Flat, StoredNode, Extends;
  }
}
