/** Finding the leaf of a stored box by backtracking down the tree, and repairing the boxes on the way up. */
module TreeLookup {
  import opened Geometry
  import opened Boxes
  import opened ExternalSorter
  import opened BulkLoader
  import opened Layers
  import opened BulkTree
  import opened Wrappers

  /** Boxes are compared up to the machine epsilon. */
  predicate Near(a: real, b: real) { !(a < b - MACHINE_EPSILON || a > b + MACHINE_EPSILON) }

  predicate Same(a: Box, b: Box) {
    Near(a.xmin, b.xmin) && Near(a.xmax, b.xmax) && Near(a.ymin, b.ymin) && Near(a.ymax, b.ymax)
        && Near(a.tmin, b.tmin) && Near(a.tmax, b.tmax)
  }

  ghost predicate Close(a: real, b: real) { Abs(a - b) <= 1.0 / 4503599627370496.0 }

  /** No bound differs by more than the machine epsilon. */
  ghost predicate Agree(a: Box, b: Box) {
    && Close(a.xmin, b.xmin) && Close(a.xmax, b.xmax) && Close(a.ymin, b.ymin) && Close(a.ymax, b.ymax)
    && Close(a.tmin, b.tmin) && Close(a.tmax, b.tmax)
  }

  lemma SameIffAgree(a: Box, b: Box)
    ensures Same(a, b) <==> Agree(a, b)
  {
  }

  /** The node identifiers on the way down. */
  class PathBuffer {
    var ids: seq<int>

    constructor ()
      ensures ids == []
    {
      ids := [];
    }

    method Push(id: int)
      modifies this
      ensures ids == old(ids) + [id]
    {
      ids := ids + [id];
    }

    method Pop() returns (id: int)
      requires ids != []
      modifies this
      ensures id == old(ids)[|old(ids)| - 1] && ids == old(ids)[..|old(ids)| - 1]
    {
      id := ids[|ids| - 1];
      ids := ids[..|ids| - 1];
    }
  }

  // ----- looking up

  /** Where a lookup stops: at an entry with the identifier sought, if its box slot is set and the boxes agree, or
      if the slot is unset, as it is in every leaf read from its page. */
  ghost predicate Stops(e: Entry, mbr: Box, key: int, boxed: bool) {
    e.id == key && e.boxed == boxed && (boxed ==> Agree(mbr, e.box))
  }

  /** Below this node a lookup can stop at a leaf entry of the given kind: every box on the way holds the box sought. */
  ghost predicate Reaches(nodes: map<int, Node>, id: int, level: nat, mbr: Box, key: int, boxed: bool)
    decreases level
  {
    id in nodes && exists e :: e in nodes[id].entries && LeadsTo(nodes, e, level, mbr, key, boxed)
  }

  ghost predicate LeadsTo(nodes: map<int, Node>, e: Entry, level: nat, mbr: Box, key: int, boxed: bool)
    decreases level, 0
  {
    if level == 0 then Stops(e, mbr, key, boxed)
    else e.box.Contains(mbr) && Reaches(nodes, e.id, level - 1, mbr, key, boxed)
  }

  /** The identifiers from a node down to the parent of a leaf. */
  ghost predicate Trail(nodes: map<int, Node>, id: int, level: nat, trail: seq<int>, leaf: int)
    decreases level
  {
    if level == 0 then trail == [] && leaf == id
    else trail != [] && trail[0] == id && id in nodes
         && exists e :: e in nodes[id].entries && Trail(nodes, e.id, level - 1, trail[1..], leaf)
  }

  /** The leaf itself has a matching entry. */
  ghost predicate LeafMatches(nodes: map<int, Node>, leaf: int, mbr: Box, key: int) {
    leaf in nodes && nodes[leaf].level == 0 && exists e :: e in nodes[leaf].entries && Stops(e, mbr, key, true)
  }

  /** What a lookup comes to; `Unset` if it needs a box that is not there. */
  datatype Lookup = Found(leaf: int) | Missing | Unset

  /** The first entry of a leaf at which a lookup stops. */
  ghost predicate FirstStop(entries: seq<Entry>, mbr: Box, key: int, c: nat, boxed: bool) {
    && c < |entries| && Stops(entries[c], mbr, key, boxed)
    && forall k :: 0 <= k < c ==> !Stops(entries[k], mbr, key, true) && !Stops(entries[k], mbr, key, false)
  }

  method FindInLeaf(n: Node, mbr: Box, key: int) returns (found: bool, unset: bool)
    ensures !(found && unset)
    ensures found ==> exists c: nat :: FirstStop(n.entries, mbr, key, c, true)
    ensures unset ==> exists c: nat :: FirstStop(n.entries, mbr, key, c, false)
    ensures !found && !unset <==> forall e :: e in n.entries ==> !Stops(e, mbr, key, true) && !Stops(e, mbr, key, false)
  {
    for c := 0 to |n.entries|
      invariant forall k :: 0 <= k < c ==> !Stops(n.entries[k], mbr, key, true) && !Stops(n.entries[k], mbr, key, false)
    {
      SameIffAgree(mbr, n.entries[c].box);
      if n.entries[c].id == key {
        if !n.entries[c].boxed {
          assert FirstStop(n.entries, mbr, key, c, false);
          return false, true;
        }
        if Same(mbr, n.entries[c].box) {
          assert FirstStop(n.entries, mbr, key, c, true);
          return true, false;
        }
      }
    }
    return false, false;
  }

  /** Looks the box up. Nothing is found exactly if no entry can stop the lookup. On success the buffer grows by
      the identifiers from this node to the leaf's parent; if nothing is found it is as before. */
  method FindLeaf(nodes: map<int, Node>, id: int, level: nat, mbr: Box, key: int, path: PathBuffer) returns (r: Lookup)
    requires WellTree(nodes, id, level)
    modifies path
    ensures r.Missing? <==> !Reaches(nodes, id, level, mbr, key, true) && !Reaches(nodes, id, level, mbr, key, false)
    ensures r.Found? ==> Reaches(nodes, id, level, mbr, key, true)
    ensures r.Unset? ==> Reaches(nodes, id, level, mbr, key, false)
    ensures r.Missing? ==> path.ids == old(path.ids)
    ensures r.Found? ==> LeafMatches(nodes, r.leaf, mbr, key)
    ensures r.Found? ==> |old(path.ids)| <= |path.ids| && path.ids[..|old(path.ids)|] == old(path.ids)
                         && Trail(nodes, id, level, path.ids[|old(path.ids)|..], r.leaf)
    decreases level
  {
    var n := nodes[id];
    if level == 0 {
      r := LookInLeaf(nodes, id, mbr, key);
      return;
    }
    path.Push(id);
    ghost var here := path.ids;
    for c := 0 to |n.entries|
      invariant path.ids == here
      invariant forall k :: 0 <= k < c ==>
                  !LeadsTo(nodes, n.entries[k], level, mbr, key, true)
                  && !LeadsTo(nodes, n.entries[k], level, mbr, key, false)
    {
      var e := n.entries[c];
      assert e in n.entries;
      if e.box.Contains(mbr) {
        r := FindLeaf(nodes, e.id, level - 1, mbr, key, path);
        if !r.Missing? {
          assert r.Found? ==> LeadsTo(nodes, e, level, mbr, key, true);
          assert r.Unset? ==> LeadsTo(nodes, e, level, mbr, key, false);
          ghost var trail := if r.Found? then path.ids[|old(path.ids)|..] else [];
          assert r.Found? ==> trail[1..] == path.ids[|here|..];
          return;
        }
      }
    }
    forall e | e in n.entries
      ensures !LeadsTo(nodes, e, level, mbr, key, true) && !LeadsTo(nodes, e, level, mbr, key, false)
    {
      var k :| 0 <= k < |n.entries| && n.entries[k] == e;
    }
    var last := path.Pop();
    return Missing;
  }

  method LookInLeaf(nodes: map<int, Node>, id: int, mbr: Box, key: int) returns (r: Lookup)
    requires id in nodes && nodes[id].level == 0
    ensures r.Missing? <==> !Reaches(nodes, id, 0, mbr, key, true) && !Reaches(nodes, id, 0, mbr, key, false)
    ensures r.Found? ==> r.leaf == id && Reaches(nodes, id, 0, mbr, key, true) && LeafMatches(nodes, id, mbr, key)
    ensures r.Unset? ==> Reaches(nodes, id, 0, mbr, key, false)
  {
    var n := nodes[id];
    var found, unset := FindInLeaf(n, mbr, key);
    hide Stops;
    if found {
      ghost var c: nat :| FirstStop(n.entries, mbr, key, c, true);
      assert n.entries[c] in n.entries && LeadsTo(nodes, n.entries[c], 0, mbr, key, true);
    }
    if unset {
      ghost var c: nat :| FirstStop(n.entries, mbr, key, c, false);
      assert n.entries[c] in n.entries && LeadsTo(nodes, n.entries[c], 0, mbr, key, false);
    }
    r := if found then Found(id) else if unset then Unset else Missing;
  }

  /** Whatever is stored below a node in a tree whose boxes nest stops the lookup of any part of its box: at once
      if its slot is unset, and if it is set exactly if the boxes agree. */
  lemma {:induction false} StoredIsReached(nodes: map<int, Node>, id: int, level: nat, item: Item, mbr: Box)
    returns (boxed: bool)
    requires WellTree(nodes, id, level) && item in TreeItems(nodes, id, level) && item.box.Contains(mbr)
    ensures (boxed ==> Same(mbr, item.box)) ==> Reaches(nodes, id, level, mbr, item.id, boxed)
    ensures exists leaf, e ::
              InTree(nodes, id, level, leaf) && leaf in nodes && e in nodes[leaf].entries && e.boxed == boxed
    decreases level
  {
    var e := EntryWithItem(nodes, nodes[id].entries, level, item);
    if level > 0 {
      boxed := StoredIsReached(nodes, e.id, level - 1, item, mbr);
      TreeHoldsItems(nodes, e.id, level - 1, item);
      var leaf, e' :| InTree(nodes, e.id, level - 1, leaf) && leaf in nodes && e' in nodes[leaf].entries
          && e'.boxed == boxed;
      assert InTree(nodes, id, level, leaf);
      assert (boxed ==> Same(mbr, item.box)) ==> LeadsTo(nodes, e, level, mbr, item.id, boxed);
    } else {
      boxed := e.boxed;
      assert InTree(nodes, id, 0, id);
      assert (boxed ==> Same(mbr, item.box)) ==> LeadsTo(nodes, e, 0, mbr, item.id, boxed);
    }
  }

  /** Where a lookup can stop an item is stored, with that identifier and, if its slot is set, that box. */
  lemma {:induction false} ReachedIsStored(nodes: map<int, Node>, id: int, level: nat, mbr: Box, key: int,
                                           boxed: bool) returns (item: Item)
    requires WellTree(nodes, id, level) && Reaches(nodes, id, level, mbr, key, boxed)
    ensures item in TreeItems(nodes, id, level) && item.id == key && (boxed ==> Same(mbr, item.box))
    ensures exists leaf, e ::
              InTree(nodes, id, level, leaf) && leaf in nodes && e in nodes[leaf].entries && e.boxed == boxed
    decreases level
  {
    var e :| e in nodes[id].entries && LeadsTo(nodes, e, level, mbr, key, boxed);
    if level == 0 {
      item := ItemOf(e);
      assert InTree(nodes, id, 0, id);
    } else {
      item := ReachedIsStored(nodes, e.id, level - 1, mbr, key, boxed);
      var leaf, e' :| InTree(nodes, e.id, level - 1, leaf) && leaf in nodes && e' in nodes[leaf].entries
          && e'.boxed == boxed;
      assert InTree(nodes, id, level, leaf);
    }
    ItemOfEntry(nodes, nodes[id].entries, level, e, item);
  }

  lemma {:induction false} ItemOfEntry(nodes: map<int, Node>, entries: seq<Entry>, level: nat, e: Entry, item: Item)
    requires e in entries && item in EntryItems(nodes, e, level)
    ensures item in EntriesItems(nodes, entries, level)
    decreases |entries|
  {
    if e != entries[0] {
      ItemOfEntry(nodes, entries[1..], level, e, item);
    }
  }

  /** All leaf entries below a node have their box slots set, or all have them unset. */
  ghost predicate AllBoxed(nodes: map<int, Node>, id: int, level: nat, boxed: bool) {
    forall leaf, e :: InTree(nodes, id, level, leaf) && leaf in nodes && e in nodes[leaf].entries ==> e.boxed == boxed
  }

  /** With the slots set, as nodes are made in memory, everything stored is found by its exact box, and no unset box
      is ever needed. */
  lemma BoxedIsFound(nodes: map<int, Node>, id: int, level: nat, item: Item, mbr: Box, key: int)
    requires WellTree(nodes, id, level) && AllBoxed(nodes, id, level, true)
    ensures item in TreeItems(nodes, id, level) ==> Reaches(nodes, id, level, item.box, item.id, true)
    ensures !Reaches(nodes, id, level, mbr, key, false)
  {
    if item in TreeItems(nodes, id, level) { var boxed := StoredIsReached(nodes, id, level, item, item.box); }
    if Reaches(nodes, id, level, mbr, key, false) { var item' := ReachedIsStored(nodes, id, level, mbr, key, false); }
  }

  lemma LoadedUnboxed(before: map<int, Node>, nodes: map<int, Node>, id: int, level: nat)
    requires WellTree(nodes, id, level) && NewTree(before, nodes, id, level) && NoBoxes(before, nodes)
    ensures AllBoxed(nodes, id, level, false)
  {
    forall leaf, e | InTree(nodes, id, level, leaf) && leaf in nodes && e in nodes[leaf].entries
      ensures !e.boxed
    {
      TreeLeaf(before, nodes, id, level, leaf);
      assert LeafEntry(before, nodes, leaf, e);
    }
  }

  lemma {:induction false} TreeLeaf(before: map<int, Node>, nodes: map<int, Node>, id: int, level: nat, leaf: int)
    requires WellTree(nodes, id, level) && NewTree(before, nodes, id, level) && InTree(nodes, id, level, leaf)
    ensures leaf in nodes && leaf !in before && nodes[leaf].level == 0
    decreases level
  {
    if level > 0 {
      var e :| e in nodes[id].entries && InTree(nodes, e.id, level - 1, leaf);
      TreeLeaf(before, nodes, e.id, level - 1, leaf);
    }
  }

  /** In a bulk-loaded tree, whose leaves are all read from their pages, a lookup finds nothing. It needs an unset box
      only for the identifier of a box of the stream, and always when it looks for that box or a part of it. */
  lemma LoadedLookup(before: map<int, Node>, nodes: map<int, Node>, rootID: int, height: nat, stream: seq<SbbData>,
                     bleaf: nat, bindex: nat, linking: bool, mbr: Box, key: int)
    requires bleaf >= 1 && bindex >= 1 && Loaded(before, nodes, rootID, height, stream, bleaf, bindex, linking)
    ensures !Reaches(nodes, rootID, height - 1, mbr, key, true)
    ensures Reaches(nodes, rootID, height - 1, mbr, key, false) ==> exists d :: d in stream && d.sbbid == key
    ensures (exists d :: d in stream && d.sbbid == key && d.box.Contains(mbr)) ==>
              Reaches(nodes, rootID, height - 1, mbr, key, false)
  {
    var level := height - 1;
    LoadedUnboxed(before, nodes, rootID, level);
    hide WellTree, TreeItems, NewTree, InTree, NoBoxes, Reaches;
    if Reaches(nodes, rootID, level, mbr, key, true) {
      var item := ReachedIsStored(nodes, rootID, level, mbr, key, true);
    }
    if Reaches(nodes, rootID, level, mbr, key, false) {
      var item := ReachedIsStored(nodes, rootID, level, mbr, key, false);
      var i := ItemsIndex(stream, item);
    }
    if exists d :: d in stream && d.sbbid == key && d.box.Contains(mbr) {
      var i :| 0 <= i < |stream| && stream[i].sbbid == key && stream[i].box.Contains(mbr);
      InItems(stream, i);
      var boxed := StoredIsReached(nodes, rootID, level, ItemOfData(stream[i]), mbr);
    }
  }

  lemma {:induction false} ItemsIndex(stream: seq<SbbData>, item: Item) returns (i: nat)
    requires item in Items(stream)
    ensures i < |stream| && item == ItemOfData(stream[i])
  {
    var n := |stream| - 1;
    if item == ItemOfData(stream[n]) { i := n; } else { i := ItemsIndex(stream[..n], item); }
  }

  // ----- boxes that are only nearly equal

  /** A root over one leaf that holds the point box at 0. */
  function PointTree(): map<int, Node> {
    var b := Box(0.0, 0.0, 0.0, 0.0, 0.0, 0.0);
    map[0 := Node(0, b, [Entry(7, b, true, None, -1, -1)]), 1 := Node(1, b, [Entry(0, b, true, None, -1, -1)])]
  }

  /** A box that equals a stored one up to the machine epsilon may lie outside the boxes on the way, and is then not
      found even if the slots are set. */
  lemma NearlyEqualIsMissed()
    ensures var b := Box(MACHINE_EPSILON, MACHINE_EPSILON, 0.0, 0.0, 0.0, 0.0);
      && WellTree(PointTree(), 1, 1) && AllBoxed(PointTree(), 1, 1, true)
      && LeafMatches(PointTree(), 0, b, 7)
      && !Reaches(PointTree(), 1, 1, b, 7, true) && !Reaches(PointTree(), 1, 1, b, 7, false)
  {
    var nodes := PointTree();
    var e := nodes[0].entries[0];
    assert e in nodes[0].entries;
    assert WellTree(nodes, 0, 0);
    assert forall leaf :: InTree(nodes, 1, 1, leaf) ==> leaf == 0;
  }

  // ----- repairing the boxes

  ghost predicate HoldsEntries(n: Node) {
    forall e :: e in n.entries ==> n.mbr.Contains(e.box)
  }

  /** Every box holds what it should, and every index entry carries the box of its child, but for the entry of
      one child. */
  ghost predicate Sound(nodes: map<int, Node>, stale: Option<int>) {
    forall id :: id in nodes ==> HoldsEntries(nodes[id]) && (nodes[id].level > 0 ==> EntriesFit(nodes, id, stale))
  }

  ghost predicate EntriesFit(nodes: map<int, Node>, id: int, stale: Option<int>)
    requires id in nodes
  {
    forall e :: e in nodes[id].entries ==>
      e.id in nodes && nodes[e.id].level + 1 == nodes[id].level && (stale == Some(e.id) || e.box == nodes[e.id].mbr)
  }

  /** Entry `j` of index node `id` points to `child`. */
  ghost predicate PointsTo(nodes: map<int, Node>, id: int, j: nat, child: int) {
    id in nodes && nodes[id].level > 0 && j < |nodes[id].entries| && nodes[id].entries[j].id == child
  }

  /** No node is pointed to twice. */
  ghost predicate OneParent(nodes: map<int, Node>) {
    forall id, j: nat, id', j': nat, child ::
      PointsTo(nodes, id, j, child) && PointsTo(nodes, id', j', child) ==> id == id' && j == j'
  }

  /** The buffer holds the ancestors of a node, the root first. */
  ghost predicate PathTo(nodes: map<int, Node>, path: seq<int>, id: int)
    decreases |path|
  {
    if path == [] then forall q, j: nat :: !PointsTo(nodes, q, j, id)
    else
      var parent := path[|path| - 1];
      (exists j: nat :: PointsTo(nodes, parent, j, id)) && PathTo(nodes, path[..|path| - 1], parent)
  }

  /** Only boxes differ. */
  ghost predicate SameLinks(nodes: map<int, Node>, nodes': map<int, Node>) {
    && nodes'.Keys == nodes.Keys
    && forall id :: id in nodes ==>
         nodes'[id].level == nodes[id].level && |nodes'[id].entries| == |nodes[id].entries|
         && forall j :: 0 <= j < |nodes[id].entries| ==> nodes'[id].entries[j].id == nodes[id].entries[j].id
  }

  lemma LinksKeep(nodes: map<int, Node>, nodes': map<int, Node>)
    requires SameLinks(nodes, nodes')
    ensures forall id, j: nat, child :: PointsTo(nodes', id, j, child) <==> PointsTo(nodes, id, j, child)
    ensures OneParent(nodes) ==> OneParent(nodes')
  {
  }

  lemma {:induction false} PathKeeps(nodes: map<int, Node>, nodes': map<int, Node>, path: seq<int>, id: int)
    requires SameLinks(nodes, nodes') && PathTo(nodes, path, id)
    ensures PathTo(nodes', path, id)
    decreases |path|
  {
    LinksKeep(nodes, nodes');
    if path != [] {
      PathKeeps(nodes, nodes', path[..|path| - 1], path[|path| - 1]);
    }
  }

  /** The test is a stub in the code and never holds. */
  predicate Touches(a: Box, b: Box) { false }

  /** The box of the entries, starting from the widest empty box. */
  function BoxOf(entries: seq<Entry>, top: real): (b: Box)
    ensures forall e :: e in entries ==> b.Contains(e.box)
  {
    if entries == [] then Box(top, -top, top, -top, top, -top)
    else
      var n := |entries| - 1;
      assert forall e :: e in entries ==> e in entries[..n] || e == entries[n];
      BoxOf(entries[..n], top).CombineBox(entries[n].box)
  }

  /** No box that holds the entries, and the empty box, is smaller. */
  lemma {:induction false} BoxOfIsLeast(entries: seq<Entry>, top: real, c: Box)
    requires c.Contains(Box(top, -top, top, -top, top, -top)) && forall e :: e in entries ==> c.Contains(e.box)
    ensures c.Contains(BoxOf(entries, top))
  {
    if entries != [] {
      var n := |entries| - 1;
      assert forall e :: e in entries[..n] ==> e in entries;
      BoxOfIsLeast(entries[..n], top, c);
      assert entries[n] in entries;
    }
  }

  // ----- what a repair does to the boxes

  /** What ancestor `k` of the path leads to: the next one, or the node whose box has changed. */
  ghost function NextOn(path: seq<int>, child: int, k: nat): int { if k + 1 < |path| then path[k + 1] else child }

  /** A node on the path keeps its box if that holds the new box below it, and else gets the least that holds its
      entries. */
  ghost predicate RepairedAt(nodes: map<int, Node>, nodes': map<int, Node>, path: seq<int>, child: int, k: nat,
                             top: real)
    requires k < |path|
  {
    var q, next := path[k], NextOn(path, child, k);
    && q in nodes && q in nodes' && next in nodes'
    && nodes'[q].mbr == if nodes[q].mbr.Contains(nodes'[next].mbr) then nodes[q].mbr else BoxOf(nodes'[q].entries, top)
  }

  /** That is so all along the path, and no other node is touched. */
  ghost predicate Repaired(nodes: map<int, Node>, nodes': map<int, Node>, path: seq<int>, child: int, top: real) {
    && (forall k :: 0 <= k < |path| ==> RepairedAt(nodes, nodes', path, child, k, top))
    && (forall q :: q in nodes && q !in path ==> q in nodes' && nodes'[q] == nodes[q])
  }

  /** Ancestors are on higher levels. */
  lemma {:induction false} PathAbove(nodes: map<int, Node>, path: seq<int>, id: int, stale: Option<int>)
    requires PathTo(nodes, path, id) && Sound(nodes, stale) && id in nodes
    ensures forall q :: q in path ==> q in nodes && nodes[q].level > nodes[id].level
    decreases |path|
  {
    if path != [] {
      var parent, n := path[|path| - 1], |path| - 1;
      ParentAbove(nodes, parent, id, stale);
      hide Sound;
      PathAbove(nodes, path[..n], parent, stale);
      assert forall q :: q in path ==> q in path[..n] || q == parent;
    }
  }

  lemma ParentAbove(nodes: map<int, Node>, parent: int, id: int, stale: Option<int>)
    requires Sound(nodes, stale) && exists j: nat :: PointsTo(nodes, parent, j, id)
    ensures parent in nodes && id in nodes && nodes[parent].level == nodes[id].level + 1
    ensures stale != Some(id) ==> nodes[parent].mbr.Contains(nodes[id].mbr)
  {
    var j: nat :| PointsTo(nodes, parent, j, id);
    var e := nodes[parent].entries[j];
    assert e in nodes[parent].entries && EntriesFit(nodes, parent, stale) && HoldsEntries(nodes[parent]);
  }

  /** Each on the path leads to the next. */
  lemma {:induction false} PathLeads(nodes: map<int, Node>, path: seq<int>, id: int, k: nat)
    requires PathTo(nodes, path, id) && k < |path|
    ensures exists j: nat :: PointsTo(nodes, path[k], j, NextOn(path, id, k))
    decreases |path|
  {
    var n := |path| - 1;
    if k < n {
      PathLeads(nodes, path[..n], path[n], k);
      assert path[..n][k] == path[k] && NextOn(path[..n], path[n], k) == NextOn(path, id, k);
    } else {
      assert NextOn(path, id, k) == id;
    }
  }

  lemma PathApart(nodes: map<int, Node>, path: seq<int>, id: int, child: int)
    requires Sound(nodes, Some(child)) && PathTo(nodes, path + [id], child) && child in nodes
    ensures id in nodes && child !in path + [id] && id !in path && child !in path
    ensures forall k :: 0 <= k < |path| ==> path[k] in nodes
  {
    hide Sound, PathTo, PointsTo;
    PathAbove(nodes, path + [id], child, Some(child));
    PathLast(nodes, path, id, child);
    assert id in path + [id];
    PathAbove(nodes, path, id, Some(child));
    forall k | 0 <= k < |path|
      ensures path[k] in nodes
    {
      var q := path[k];
      assert q in path && q in nodes;
    }
  }

  /** The repair of one node, when it goes no further. */
  lemma RepairEnds(nodes: map<int, Node>, nodes': map<int, Node>, path: seq<int>, id: int, child: int, top: real)
    requires Sound(nodes, Some(child)) && PathTo(nodes, path + [id], child) && child in nodes && id in nodes'
    requires nodes' == nodes[id := nodes'[id]]
    requires id in nodes && nodes'[id].mbr == if nodes[id].mbr.Contains(nodes[child].mbr) then nodes[id].mbr
                               else BoxOf(nodes'[id].entries, top)
    requires nodes[id].mbr.Contains(nodes[child].mbr) || path == []
    ensures Repaired(nodes, nodes', path + [id], child, top)
  {
    hide Sound, PathTo, BoxOf, Box.Contains;
    var whole := path + [id];
    PathApart(nodes, path, id, child);
    forall k | 0 <= k < |whole|
      ensures RepairedAt(nodes, nodes', whole, child, k, top)
    {
      if k < |path| { KeepsBox(nodes, nodes', whole, id, child, k, top); }
    }
  }

  lemma KeepsBox(nodes: map<int, Node>, nodes': map<int, Node>, whole: seq<int>, id: int, child: int, k: nat, top: real)
    requires Sound(nodes, Some(child)) && PathTo(nodes, whole, child) && child in nodes && id in nodes && id in nodes'
    requires nodes' == nodes[id := nodes'[id]] && nodes'[id].mbr == nodes[id].mbr
    requires k + 1 < |whole| && child !in whole
    ensures RepairedAt(nodes, nodes', whole, child, k, top)
  {
    PathLeads(nodes, whole, child, k);
    var next := NextOn(whole, child, k);
    assert next in whole;
    ParentAbove(nodes, whole[k], next, Some(child));
    hide Sound, PathTo, BoxOf;
  }

  /** ... and when it goes on to the parent. */
  lemma RepairGoesOn(nodes: map<int, Node>, fixed: map<int, Node>, nodes': map<int, Node>, path: seq<int>, id: int,
                     child: int, top: real)
    requires Sound(nodes, Some(child)) && PathTo(nodes, path + [id], child) && child in nodes && id in fixed
    requires fixed == nodes[id := fixed[id]]
    requires id in nodes && fixed[id].mbr == if nodes[id].mbr.Contains(nodes[child].mbr) then nodes[id].mbr
                              else BoxOf(fixed[id].entries, top)
    requires Repaired(fixed, nodes', path, id, top)
    ensures Repaired(nodes, nodes', path + [id], child, top)
  {
    hide Sound, PathTo, BoxOf, Box.Contains, RepairedAt;
    var whole := path + [id];
    PathApart(nodes, path, id, child);
    assert child in fixed && child in nodes' && nodes'[child] == nodes[child] && nodes'[id] == fixed[id];
    forall k | 0 <= k < |whole|
      ensures RepairedAt(nodes, nodes', whole, child, k, top)
    {
      if k < |path| {
        assert RepairedAt(fixed, nodes', path, id, k, top);
        RepairedAbove(nodes, fixed, nodes', path, id, child, k, top);
      } else {
        RepairedHere(nodes, fixed, nodes', path, id, child, top);
      }
    }
  }

  lemma RepairedAbove(nodes: map<int, Node>, fixed: map<int, Node>, nodes': map<int, Node>, path: seq<int>, id: int,
                      child: int, k: nat, top: real)
    requires k < |path| && RepairedAt(fixed, nodes', path, id, k, top) && path[k] in nodes && id !in path
    requires id in fixed && fixed == nodes[id := fixed[id]]
    ensures RepairedAt(nodes, nodes', path + [id], child, k, top)
  {
    hide BoxOf, Box.Contains;
    assert path[k] in path;
    assert NextOn(path + [id], child, k) == NextOn(path, id, k);
  }

  lemma RepairedHere(nodes: map<int, Node>, fixed: map<int, Node>, nodes': map<int, Node>, path: seq<int>, id: int,
                     child: int, top: real)
    requires id in nodes && id in fixed && id in nodes' && child in nodes && child in nodes'
    requires nodes'[child] == nodes[child] && nodes'[id] == fixed[id]
    requires fixed[id].mbr == if nodes[id].mbr.Contains(nodes[child].mbr) then nodes[id].mbr
                              else BoxOf(fixed[id].entries, top)
    ensures RepairedAt(nodes, nodes', path + [id], child, |path|, top)
  {
    hide BoxOf, Box.Contains;
  }

  method Recompute(entries: seq<Entry>, top: real) returns (b: Box)
    ensures b == BoxOf(entries, top)
  {
    b := Box(top, -top, top, -top, top, -top);
    for c := 0 to |entries|
      invariant b == BoxOf(entries[..c], top)
    {
      assert entries[..c + 1][..c] == entries[..c];
      b := b.CombineBox(entries[c].box);
    }
    assert entries[..|entries|] == entries;
  }

  class Repairer {
    const tight: bool
    const top: real
    var nodes: map<int, Node>

    constructor (nodes: map<int, Node>, tight: bool, top: real)
      ensures this.nodes == nodes && this.tight == tight && this.top == top
    {
      this.nodes, this.tight, this.top := nodes, tight, top;
    }

    /** After the box of `child` has changed: fixes the entry for it in node `id`, and goes on up the path as
        long as a node's own box had to be recomputed. In the end every box is right again. */
    method AdjustTree(id: int, child: int, path: PathBuffer)
      requires Sound(nodes, Some(child)) && OneParent(nodes) && child in nodes && PathTo(nodes, path.ids + [id], child)
      modifies this`nodes, path
      ensures Sound(nodes, None) && SameLinks(old(nodes), nodes)
      ensures Repaired(old(nodes), nodes, old(path.ids) + [id], child, top)
      decreases |path.ids|
    {
      hide Sound, OneParent, SameLinks, PathTo, Repaired, BoxOf;
      ghost var ancestors := path.ids;
      PathLast(nodes, ancestors, id, child);
      ghost var before := nodes;
      var recompute := FixEntry(id, child, ancestors);
      if recompute && path.ids != [] {
        ghost var fixed := nodes;
        var parent := path.Pop();
        LastSplit(ancestors);
        AdjustTree(parent, id, path);
        SameLinksTrans(before, fixed, nodes);
        RepairGoesOn(before, fixed, nodes, ancestors, id, child, top);
      } else {
        RepairEnds(before, nodes, ancestors, id, child, top);
      }
    }

    /** One node's part of the repair; tells whether its own box was recomputed. */
    method FixEntry(id: int, child: int, ghost ancestors: seq<int>) returns (recompute: bool)
      requires Sound(nodes, Some(child)) && OneParent(nodes) && child in nodes && PathTo(nodes, ancestors, id)
      requires exists k: nat :: PointsTo(nodes, id, k, child)
      modifies `nodes
      ensures SameLinks(old(nodes), nodes) && OneParent(nodes) && PathTo(nodes, ancestors, id) && id in nodes
      ensures if recompute && ancestors != [] then Sound(nodes, Some(id)) else Sound(nodes, None)
      ensures id in old(nodes) && nodes == old(nodes)[id := nodes[id]]
      ensures recompute <==> !old(nodes)[id].mbr.Contains(old(nodes)[child].mbr)
      ensures nodes[id].mbr == if recompute then BoxOf(nodes[id].entries, top) else old(nodes)[id].mbr
    {
      hide Sound, OneParent, SameLinks, PathTo;
      var n := nodes[id];
      var j := Position(nodes, id, child);
      var box := nodes[child].mbr;
      var contained := n.mbr.Contains(box);
      recompute := !contained || (Touches(n.mbr, n.entries[j].box) && tight);
      var entries := n.entries[j := n.entries[j].(box := box)];
      var mbr := n.mbr;
      if recompute {
        mbr := Recompute(entries, top);
      }
      ghost var before := nodes;
      nodes := nodes[id := Node(n.level, mbr, entries)];
      EntryFixed(before, nodes, id, child, j, contained);
      Fixed(before, nodes, id, child, j, ancestors);
    }
  }

  /** The entry that points to the child. */
  method Position(nodes: map<int, Node>, id: int, child: int) returns (j: nat)
    requires exists k: nat :: PointsTo(nodes, id, k, child)
    ensures PointsTo(nodes, id, j, child)
  {
    ghost var k: nat :| PointsTo(nodes, id, k, child);
    j := 0;
    while nodes[id].entries[j].id != child
      invariant j <= k
      decreases k - j
    {
      j := j + 1;
    }
  }

  lemma PathLast(nodes: map<int, Node>, path: seq<int>, id: int, child: int)
    requires PathTo(nodes, path + [id], child)
    ensures (exists j: nat :: PointsTo(nodes, id, j, child)) && PathTo(nodes, path, id)
  {
    assert (path + [id])[..|path|] == path;
  }

  lemma LastSplit(path: seq<int>)
    requires path != []
    ensures path[..|path| - 1] + [path[|path| - 1]] == path
  {
  }

  lemma SameLinksTrans(a: map<int, Node>, b: map<int, Node>, c: map<int, Node>)
    requires SameLinks(a, b) && SameLinks(b, c)
    ensures SameLinks(a, c)
  {
  }

  /** The node after its entry `j` has been given the child's box, and perhaps a box of its own. */
  ghost predicate FixedNode(nodes: map<int, Node>, nodes': map<int, Node>, id: int, child: int, j: nat) {
    && PointsTo(nodes, id, j, child) && child in nodes && id in nodes'
    && nodes' == nodes[id := nodes'[id]] && nodes'[id].level == nodes[id].level && HoldsEntries(nodes'[id])
    && nodes'[id].entries == nodes[id].entries[j := nodes[id].entries[j].(box := nodes[child].mbr)]
  }

  lemma EntryFixed(nodes: map<int, Node>, nodes': map<int, Node>, id: int, child: int, j: nat, contained: bool)
    requires Sound(nodes, Some(child)) && PointsTo(nodes, id, j, child) && child in nodes && id in nodes'
    requires nodes' == nodes[id := nodes'[id]] && nodes'[id].level == nodes[id].level
    requires nodes'[id].entries == nodes[id].entries[j := nodes[id].entries[j].(box := nodes[child].mbr)]
    requires if contained then nodes'[id].mbr == nodes[id].mbr && nodes[id].mbr.Contains(nodes[child].mbr)
             else HoldsEntries(nodes'[id])
    ensures FixedNode(nodes, nodes', id, child, j)
  {
    assert HoldsEntries(nodes[id]);
  }

  /** Fixing one entry leaves at most the entry for the fixed node itself stale. */
  lemma Fixed(nodes: map<int, Node>, nodes': map<int, Node>, id: int, child: int, j: nat, path: seq<int>)
    requires Sound(nodes, Some(child)) && OneParent(nodes) && FixedNode(nodes, nodes', id, child, j)
             && PathTo(nodes, path, id)
    ensures SameLinks(nodes, nodes') && OneParent(nodes') && PathTo(nodes', path, id)
    ensures Sound(nodes', Some(id))
    ensures nodes'[id].mbr == nodes[id].mbr || path == [] ==> Sound(nodes', None)
  {
    FixedLinks(nodes, nodes', id, child, j);
    LinksKeep(nodes, nodes');
    PathKeeps(nodes, nodes', path, id);
    ghost var settled := nodes'[id].mbr == nodes[id].mbr || path == [];
    forall q | q in nodes'
      ensures HoldsEntries(nodes'[q])
      ensures nodes'[q].level > 0 ==> EntriesFit(nodes', q, Some(id)) && (settled ==> EntriesFit(nodes', q, None))
    {
      hide HoldsEntries, OneParent, SameLinks;
      if q == id { FixedSelf(nodes, nodes', id, child, j); } else { FixedOther(nodes, nodes', id, child, j, q, path); }
    }
  }

  lemma FixedLinks(nodes: map<int, Node>, nodes': map<int, Node>, id: int, child: int, j: nat)
    requires FixedNode(nodes, nodes', id, child, j)
    ensures SameLinks(nodes, nodes')
  {
    hide HoldsEntries;
  }

  lemma FixedSelf(nodes: map<int, Node>, nodes': map<int, Node>, id: int, child: int, j: nat)
    requires Sound(nodes, Some(child)) && OneParent(nodes) && FixedNode(nodes, nodes', id, child, j)
    ensures HoldsEntries(nodes'[id]) && EntriesFit(nodes', id, None)
  {
    assert EntriesFit(nodes, id, Some(child));
    forall e | e in nodes'[id].entries
      ensures e.id in nodes' && nodes'[e.id].level + 1 == nodes'[id].level && e.box == nodes'[e.id].mbr
    {
      var k :| 0 <= k < |nodes'[id].entries| && nodes'[id].entries[k] == e;
      assert nodes[id].entries[k] in nodes[id].entries;
      if k != j {
        assert PointsTo(nodes, id, k, e.id);
        assert e.id != child;
      }
    }
  }

  lemma FixedOther(nodes: map<int, Node>, nodes': map<int, Node>, id: int, child: int, j: nat, q: int, path: seq<int>)
    requires Sound(nodes, Some(child)) && OneParent(nodes) && FixedNode(nodes, nodes', id, child, j) && q in nodes
             && q != id
    requires PathTo(nodes, path, id)
    ensures HoldsEntries(nodes'[q])
    ensures nodes'[q].level > 0 ==> EntriesFit(nodes', q, Some(id))
    ensures nodes'[q].level > 0 && (nodes'[id].mbr == nodes[id].mbr || path == []) ==> EntriesFit(nodes', q, None)
  {
    assert nodes'[q] == nodes[q];
    if nodes[q].level > 0 {
      assert EntriesFit(nodes, q, Some(child));
      forall e | e in nodes[q].entries
        ensures e.id != child && e.id in nodes && (path == [] ==> e.id != id)
      {
        var k :| 0 <= k < |nodes[q].entries| && nodes[q].entries[k] == e;
        assert PointsTo(nodes, q, k, e.id);
      }
    }
  }
}
