/** The in-memory page store and the write-back buffer with random evictions in front of it. */
module PageBuffer {
  import opened Wrappers

  newtype byte = x: int | 0 <= x < 256

  type Bytes = seq<byte>

  /** Stores to this page ask for a fresh one. */
  const NEW_PAGE: int := -1

  datatype Op = Load(page: int) | Store(page: int, data: Bytes) | Delete(page: int) | Clear

  datatype Outcome = Done(page: int) | Loaded(data: Bytes) | InvalidPage

  /** The pages ever handed out, None where deleted, and the stack of deleted ones. */
  datatype Mem = Mem(pages: seq<Option<Bytes>>, empty: seq<int>) {
    predicate Live(page: int) { 0 <= page < |pages| && pages[page].Some? }

    /** The stack holds deleted pages, each once. */
    ghost predicate Valid() {
      && (forall k :: 0 <= k < |empty| ==> 0 <= empty[k] < |pages| && pages[empty[k]].None?)
      && (forall j, k :: 0 <= j < k < |empty| ==> empty[j] != empty[k])
    }

    /** The store as a map from live pages to their bytes. */
    ghost function Contents(): map<int, Bytes> {
      map p: int | 0 <= p < |pages| && pages[p].Some? :: pages[p].value
    }
  }

  function MemStep(m: Mem, op: Op): (r: (Mem, Outcome))
    requires m.Valid()
  {
    match op
    case Load(page) => if m.Live(page) then (m, Loaded(m.pages[page].value)) else (m, InvalidPage)
    case Store(page, data) =>
      if page == NEW_PAGE then
        if m.empty == [] then (Mem(m.pages + [Some(data)], []), Done(|m.pages|))
        else
          var p := m.empty[|m.empty| - 1];
          (Mem(m.pages[p := Some(data)], m.empty[..|m.empty| - 1]), Done(p))
      else if m.Live(page) then (Mem(m.pages[page := Some(data)], m.empty), Done(page))
      else (m, InvalidPage)
    case Delete(page) =>
      if m.Live(page) then (Mem(m.pages[page := None], m.empty + [page]), Done(page)) else (m, InvalidPage)
    case Clear => (m, Done(NEW_PAGE))
  }

  /** The store behaves as a map: a fresh page was not in use, a store changes one page, a delete removes one. */
  lemma StepIsMap(m: Mem, op: Op)
    requires m.Valid()
    ensures MemStep(m, op).0.Valid()
    ensures op.Load? && op.page in m.Contents() ==> MemStep(m, op) == (m, Loaded(m.Contents()[op.page]))
    ensures op.Store? && op.page == NEW_PAGE ==>
              var (m', out) := MemStep(m, op);
              out.Done? && out.page !in m.Contents() && m'.Contents() == m.Contents()[out.page := op.data]
    ensures op.Store? && op.page in m.Contents() ==>
              MemStep(m, op).1 == Done(op.page) && MemStep(m, op).0.Contents() == m.Contents()[op.page := op.data]
    ensures op.Delete? && op.page in m.Contents() ==>
              MemStep(m, op).1 == Done(op.page) && MemStep(m, op).0.Contents() == m.Contents() - {op.page}
    ensures !op.Clear? && op.page !in m.Contents() && !(op.Store? && op.page == NEW_PAGE) ==>
              MemStep(m, op) == (m, InvalidPage)
  {
    StepValid(m, op);
    if op.Store? && op.page == NEW_PAGE && m.empty == [] {
      var (m', out) := MemStep(m, op);
      assert m'.Contents() == m.Contents()[out.page := op.data];
    }
  }

  lemma StepValid(m: Mem, op: Op)
    requires m.Valid()
    ensures MemStep(m, op).0.Valid()
  {
  }

  /** Deleted pages are handed out again, the last one first: a new page right after a delete is that page, and the
      store is as if the page had just been replaced. Only without deleted pages a page is handed out that never was. */
  lemma LastDeletedFirst(m: Mem, page: int, data: Bytes)
    requires m.Valid()
    ensures m.Live(page) ==>
              var m' := MemStep(m, Delete(page)).0;
              m'.Valid() && MemStep(m', Store(-1, data)) == (MemStep(m, Store(page, data)).0, Done(page))
    ensures MemStep(m, Store(-1, data)).1 == Done(|m.pages|) <==> m.empty == []
  {
    if m.Live(page) {
      var m' := MemStep(m, Delete(page)).0;
      assert m'.empty[..|m.empty|] == m.empty;
      assert m'.pages[page := Some(data)] == m.pages[page := Some(data)];
    }
  }

  function MemRun(m: Mem, ops: seq<Op>): (Mem, seq<Outcome>)
    requires m.Valid()
    decreases |ops|
  {
    if ops == [] then (m, [])
    else
      StepValid(m, ops[0]);
      var (m', out) := MemStep(m, ops[0]);
      var (m'', outs) := MemRun(m', ops[1..]);
      (m'', [out] + outs)
  }

  class MemoryStorageManager {
    var buffer: seq<Option<Bytes>>
    var emptyPages: seq<int>

    function State(): Mem
      reads this
    {
      Mem(buffer, emptyPages)
    }

    constructor ()
      ensures State() == Mem([], [])
    {
      buffer, emptyPages := [], [];
    }

    method LoadByteArray(page: int) returns (out: Outcome)
      requires State().Valid()
      ensures out == MemStep(State(), Load(page)).1
    {
      if !(0 <= page < |buffer|) || buffer[page].None? {
        return InvalidPage;
      }
      return Loaded(buffer[page].value);
    }

    method StoreByteArray(page: int, data: Bytes) returns (out: Outcome)
      requires State().Valid()
      modifies this
      ensures (State(), out) == MemStep(old(State()), Store(page, data))
    {
      if page == NEW_PAGE {
        if emptyPages == [] {
          buffer := buffer + [Some(data)];
          return Done(|buffer| - 1);
        }
        var p := emptyPages[|emptyPages| - 1];
        emptyPages := emptyPages[..|emptyPages| - 1];
        buffer := buffer[p := Some(data)];
        return Done(p);
      }
      if !(0 <= page < |buffer|) || buffer[page].None? {
        return InvalidPage;
      }
      buffer := buffer[page := Some(data)];
      return Done(page);
    }

    method DeleteByteArray(page: int) returns (out: Outcome)
      requires State().Valid()
      modifies this
      ensures (State(), out) == MemStep(old(State()), Delete(page))
    {
      if !(0 <= page < |buffer|) || buffer[page].None? {
        return InvalidPage;
      }
      buffer := buffer[page := None];
      emptyPages := emptyPages + [page];
      return Done(page);
    }

    /** A run of operations on the bare store, which has nothing to clear. */
    method Run(ops: seq<Op>) returns (outs: seq<Outcome>)
      requires State().Valid()
      modifies this
      ensures (State(), outs) == MemRun(old(State()), ops)
      decreases |ops|
    {
      if ops == [] {
        return [];
      }
      StepValid(State(), ops[0]);
      hide Mem.Valid, MemStep;
      var out: Outcome;
      match ops[0] {
        case Load(page) => out := LoadByteArray(page); StepLoad(State(), page);
        case Store(page, data) => out := StoreByteArray(page, data);
        case Delete(page) => out := DeleteByteArray(page);
        case Clear => out := Done(NEW_PAGE); StepClear(State());
      }
      var rest := Run(ops[1..]);
      return [out] + rest;
    }
  }

  lemma StepLoad(m: Mem, page: int)
    requires m.Valid()
    ensures MemStep(m, Load(page)).0 == m
  {
  }

  lemma StepClear(m: Mem)
    requires m.Valid()
    ensures MemStep(m, Clear) == (m, Done(NEW_PAGE))
  {
  }

  // ----- the buffer

  datatype Entry = Entry(data: Bytes, dirty: bool)

  /** What a reader sees through the buffer. */
  ghost function Overlay(m: Mem, entries: map<int, Entry>): Mem {
    Mem(seq(|m.pages|, i requires 0 <= i < |m.pages| => if i in entries then Some(entries[i].data) else m.pages[i]),
        m.empty)
  }

  /** Buffered pages are live, a clean entry equals the stored page, and write-through leaves nothing dirty. */
  ghost predicate Coherent(m: Mem, entries: map<int, Entry>, writeThrough: bool) {
    && m.Valid()
    && (forall p :: p in entries ==> m.Live(p))
    && (forall p :: p in entries && !entries[p].dirty ==> m.pages[p] == Some(entries[p].data))
    && (writeThrough ==> forall p :: p in entries ==> !entries[p].dirty)
  }

  lemma OverlayValid(m: Mem, entries: map<int, Entry>, writeThrough: bool)
    requires Coherent(m, entries, writeThrough)
    ensures Overlay(m, entries).Valid()
    ensures forall p :: Overlay(m, entries).Live(p) <==> m.Live(p)
  {
  }

  /** Buffering a live page changes what is seen of it and nothing else. */
  lemma OverlayPut(m: Mem, rest: map<int, Entry>, entries: map<int, Entry>, writeThrough: bool, page: int, e: Entry)
    requires Coherent(m, rest, writeThrough) && page !in rest && m.Live(page)
    requires page in entries && entries[page] == e && entries - {page} == rest
    requires if e.dirty then !writeThrough else m.pages[page] == Some(e.data)
    ensures Coherent(m, entries, writeThrough) && |Overlay(m, rest).pages| == |m.pages|
    ensures Overlay(m, entries) == Mem(Overlay(m, rest).pages[page := Some(e.data)], m.empty)
    ensures !e.dirty ==> Overlay(m, entries) == Overlay(m, rest)
  {
    assert forall p :: p in entries && p != page ==> p in rest && rest[p] == entries[p];
    assert forall p :: p in rest ==> p in entries;
    assert Overlay(m, entries).pages == Overlay(m, rest).pages[page := Some(e.data)];
    if !e.dirty {
      assert Overlay(m, rest).pages[page] == Some(e.data);
      assert Overlay(m, entries).pages == Overlay(m, rest).pages;
    }
  }

  /** Dropping a clean entry, or writing a dirty one back, changes nothing. */
  lemma OverlayRemove(m: Mem, m': Mem, entries: map<int, Entry>, writeThrough: bool, page: int)
    requires Coherent(m, entries, writeThrough) && page in entries
    requires m' == if entries[page].dirty then MemStep(m, Store(page, entries[page].data)).0 else m
    ensures Coherent(m', entries - {page}, writeThrough)
    ensures Overlay(m', entries - {page}) == Overlay(m, entries)
    ensures entries[page].dirty ==> MemStep(m, Store(page, entries[page].data)).1 == Done(page)
  {
    StepValid(m, Store(page, entries[page].data));
    assert page != NEW_PAGE;
  }

  /** A store to a live page, seen before its entry is put into the buffer. */
  lemma OverlayStore(m: Mem, entries: map<int, Entry>, writeThrough: bool, page: int, data: Bytes)
    requires Coherent(m, entries, writeThrough) && m.Live(page)
    ensures var m' := if writeThrough then MemStep(m, Store(page, data)).0 else m;
            Coherent(m', entries - {page}, writeThrough) && Overlay(m, entries).Valid() && m'.Live(page)
                && m'.empty == m.empty
            && (writeThrough ==> m'.pages[page] == Some(data) && MemStep(m, Store(page, data)).1 == Done(page))
            && |Overlay(m', entries - {page}).pages| == |m.pages|
            && (Mem(Overlay(m', entries - {page}).pages[page := Some(data)], m.empty), Done(page))
               == MemStep(Overlay(m, entries), Store(page, data))
  {
    StepValid(m, Store(page, data));
    OverlayValid(m, entries, writeThrough);
    var m' := if writeThrough then MemStep(m, Store(page, data)).0 else m;
    assert Overlay(m', entries - {page}).pages[page := Some(data)] == Overlay(m, entries).pages[page := Some(data)];
  }

  lemma OverlayNew(m: Mem, entries: map<int, Entry>, writeThrough: bool, data: Bytes)
    requires Coherent(m, entries, writeThrough)
    ensures var (m', out) := MemStep(m, Store(NEW_PAGE, data));
            out.Done? && out.page !in entries && m'.Live(out.page) && m'.pages[out.page] == Some(data)
            && Coherent(m', entries, writeThrough) && Overlay(m, entries).Valid()
            && (Overlay(m', entries), out) == MemStep(Overlay(m, entries), Store(NEW_PAGE, data))
  {
    StepValid(m, Store(NEW_PAGE, data));
    OverlayValid(m, entries, writeThrough);
    var (m', out) := MemStep(m, Store(NEW_PAGE, data));
    var (v', out') := MemStep(Overlay(m, entries), Store(NEW_PAGE, data));
    assert out == out' && Overlay(m', entries).pages == v'.pages;
  }

  lemma OverlayDelete(m: Mem, entries: map<int, Entry>, writeThrough: bool, page: int)
    requires Coherent(m, entries, writeThrough)
    ensures var (m', out) := MemStep(m, Delete(page));
            Coherent(m', entries - {page}, writeThrough) && Overlay(m, entries).Valid()
            && (Overlay(m', entries - {page}), out) == MemStep(Overlay(m, entries), Delete(page))
  {
    StepValid(m, Delete(page));
    OverlayValid(m, entries, writeThrough);
    var (m', out) := MemStep(m, Delete(page));
    var (v', out') := MemStep(Overlay(m, entries), Delete(page));
    assert out == out' && Overlay(m', entries - {page}).pages == v'.pages;
  }

  /** The operations on which a buffered store cannot be told from the bare one: all but a write-back store
      to a page that is not in use. */
  predicate Faithful(m: Mem, op: Op, writeThrough: bool) {
    op.Store? && op.page != NEW_PAGE && !writeThrough ==> m.Live(op.page)
  }

  ghost predicate FaithfulRun(m: Mem, ops: seq<Op>, writeThrough: bool)
    requires m.Valid()
    decreases |ops|
  {
    ops == [] ||
    (StepValid(m, ops[0]); Faithful(m, ops[0], writeThrough)
     && FaithfulRun(MemStep(m, ops[0]).0, ops[1..], writeThrough))
  }

  /** The two stores differ at most in pages of the set. */
  ghost predicate OnlyChanges(m: Mem, m': Mem, pages: set<int>) {
    && m'.empty == m.empty && |m'.pages| == |m.pages|
    && forall p :: 0 <= p < |m.pages| ==>
         m'.pages[p].Some? == m.pages[p].Some? && (p in pages || m'.pages[p] == m.pages[p])
  }

  /** Some of the entries, unchanged. */
  ghost predicate SomeOf(entries: map<int, Entry>, entries': map<int, Entry>) {
    forall p :: p in entries' ==> p in entries && entries'[p] == entries[p]
  }

  /** Room for one more: a full buffer has lost one entry, and another is as it was. */
  ghost predicate RoomMade(entries: map<int, Entry>, entries': map<int, Entry>, capacity: nat) {
    if |entries| == capacity then SomeOf(entries, entries') && |entries'| == |entries| - 1 else entries' == entries
  }

  /** Page `page` is buffered as `e`, in the place of its earlier entry or in room made for it. */
  ghost predicate Buffered(entries: map<int, Entry>, entries': map<int, Entry>, page: int, e: Entry, capacity: nat) {
    && page in entries' && entries'[page] == e
    && if page in entries then entries' == entries[page := e] else RoomMade(entries, entries' - {page}, capacity)
  }

  /** Any element of the set, as the random choice of a victim may give. */
  method AnyOf<T(==, !new)>(s: set<T>) returns (x: T)
    requires s != {}
    ensures x in s
  {
    x :| x in s;
  }

  class RandomEvictionsBuffer {
    const store: MemoryStorageManager
    const capacity: nat
    const writeThrough: bool
    var entries: map<int, Entry>
    var hits: nat

    ghost predicate Valid()
      reads this, store
    {
      capacity >= 1 && |entries| <= capacity && Coherent(store.State(), entries, writeThrough)
    }

    ghost function View(): Mem
      reads this, store
    {
      Overlay(store.State(), entries)
    }

    constructor (store: MemoryStorageManager, capacity: nat, writeThrough: bool)
      requires store.State().Valid() && capacity >= 1
      ensures Valid() && View() == store.State() && entries == map[] && hits == 0
      ensures this.store == store && this.capacity == capacity && this.writeThrough == writeThrough
    {
      this.store, this.capacity, this.writeThrough := store, capacity, writeThrough;
      entries, hits := map[], 0;
    }

    /** Evicts any one entry, writing it back if it is dirty. */
    method RemoveEntry()
      requires Valid()
      modifies this`entries, store
      ensures Valid() && View() == old(View())
      ensures if old(entries) == map[] then entries == map[] else |entries| == |old(entries)| - 1
      ensures SomeOf(old(entries), entries)
      ensures OnlyChanges(old(store.State()), store.State(), old(entries).Keys - entries.Keys)
    {
      if entries == map[] {
        return;
      }
      var page := AnyOf(entries.Keys);
      ghost var m := store.State();
      OverlayRemove(m, if entries[page].dirty then MemStep(m, Store(page, entries[page].data)).0 else m, entries,
                    writeThrough, page);
      if entries[page].dirty {
        var out := store.StoreByteArray(page, entries[page].data);
      }
      assert entries.Keys == (entries - {page}).Keys + {page};
      entries := entries - {page};
    }

    /** Makes room and adds a page that is not buffered. */
    method AddEntry(page: int, e: Entry)
      requires Valid() && page !in entries
      modifies this`entries, store
      ensures page in entries && entries[page] == e && |entries| <= capacity
      ensures Coherent(store.State(), entries - {page}, writeThrough)
      ensures Overlay(store.State(), entries - {page}) == old(View())
      ensures OnlyChanges(old(store.State()), store.State(), old(entries).Keys - entries.Keys)
      ensures RoomMade(old(entries), entries - {page}, capacity)
    {
      hide Coherent, Overlay;
      if |entries| == capacity {
        RemoveEntry();
      }
      assert entries[page := e] - {page} == entries;
      entries := entries[page := e];
    }

    method LoadByteArray(page: int) returns (out: Outcome)
      requires Valid()
      modifies this, store
      ensures Valid() && old(View()).Valid() && (View(), out) == MemStep(old(View()), Load(page))
      ensures hits == old(hits) + (if page in old(entries) then 1 else 0)
      ensures if page in old(entries) || !out.Loaded? then entries == old(entries)
              else Buffered(old(entries), entries, page, Entry(out.data, false), capacity)
      ensures OnlyChanges(old(store.State()), store.State(), old(entries).Keys - entries.Keys)
    {
      OverlayValid(store.State(), entries, writeThrough);
      if page in entries {
        hits := hits + 1;
        return Loaded(entries[page].data);
      }
      out := store.LoadByteArray(page);
      if out.Loaded? {
        AddEntry(page, Entry(out.data, false));
        OverlayPut(store.State(), entries - {page}, entries, writeThrough, page, entries[page]);
      }
    }

    /** Exactly the unfaithful stores answer differently from the bare store: they are taken silently. */
    method StoreByteArray(page: int, data: Bytes) returns (out: Outcome)
      requires Valid()
      modifies this, store
      ensures old(View()).Valid()
      ensures old(Faithful(View(), Store(page, data), writeThrough)) ==>
                Valid() && (View(), out) == MemStep(old(View()), Store(page, data))
      ensures out == MemStep(old(View()), Store(page, data)).1
              <==> old(Faithful(View(), Store(page, data), writeThrough))
      ensures old(!Faithful(View(), Store(page, data), writeThrough)) ==>
                out == Done(page) && page in entries && entries[page] == Entry(data, true) && !store.State().Live(page)
      ensures hits == old(hits) + (if page != NEW_PAGE && !writeThrough && page in old(entries) then 1 else 0)
      ensures if !out.Done? then entries == old(entries)
              else if page == NEW_PAGE then Buffered(old(entries), entries, out.page, Entry(data, false), capacity)
              else Buffered(old(entries), entries, page, Entry(data, !writeThrough), capacity)
      ensures page != NEW_PAGE && !writeThrough ==>
                OnlyChanges(old(store.State()), store.State(), old(entries).Keys - entries.Keys)
    {
      OverlayValid(store.State(), entries, writeThrough);
      if page == NEW_PAGE {
        OverlayNew(store.State(), entries, writeThrough, data);
        out := store.StoreByteArray(page, data);
        AddEntry(out.page, Entry(data, false));
        OverlayPut(store.State(), entries - {out.page}, entries, writeThrough, out.page, entries[out.page]);
      } else {
        out := StoreKnown(page, data);
      }
    }

    /** A store to a page that is not new, which may or may not be in use. */
    method StoreKnown(page: int, data: Bytes) returns (out: Outcome)
      requires Valid() && page != NEW_PAGE
      modifies this, store
      ensures old(View()).Valid()
      ensures old(View().Live(page)) ==> Valid() && (View(), out) == MemStep(old(View()), Store(page, data))
      ensures old(!View().Live(page)) && writeThrough ==> out == InvalidPage && Valid() && View() == old(View())
      ensures old(!View().Live(page)) && !writeThrough ==>
                out == Done(page) && page in entries && entries[page] == Entry(data, true) && !store.State().Live(page)
      ensures hits == old(hits) + (if !writeThrough && page in old(entries) then 1 else 0)
      ensures if out.Done? then Buffered(old(entries), entries, page, Entry(data, !writeThrough), capacity)
              else entries == old(entries)
      ensures !writeThrough ==> OnlyChanges(old(store.State()), store.State(), old(entries).Keys - entries.Keys)
    {
      OverlayValid(store.State(), entries, writeThrough);
      if store.State().Live(page) {
        out := StoreLive(page, data);
      } else if writeThrough {
        out := store.StoreByteArray(page, data);
      } else {
        out := Done(page);
        AddEntry(page, Entry(data, true));
      }
    }

    method StoreLive(page: int, data: Bytes) returns (out: Outcome)
      requires Valid() && page != NEW_PAGE && store.State().Live(page)
      modifies this, store
      ensures old(View()).Valid() && Valid() && (View(), out) == MemStep(old(View()), Store(page, data))
      ensures hits == old(hits) + (if !writeThrough && page in old(entries) then 1 else 0)
      ensures Buffered(old(entries), entries, page, Entry(data, !writeThrough), capacity)
      ensures !writeThrough ==> OnlyChanges(old(store.State()), store.State(), old(entries).Keys - entries.Keys)
    {
      OverlayStore(store.State(), entries, writeThrough, page, data);
      out := Done(page);
      if writeThrough {
        out := store.StoreByteArray(page, data);
      }
      hide Overlay, Coherent, MemStep, Mem.Valid;
      if page in entries && !writeThrough { hits := hits + 1; }
      PutEntry(page, Entry(data, !writeThrough));
    }

    /** Replaces the page's entry, or makes room for it and adds it. */
    method PutEntry(page: int, e: Entry)
      requires capacity >= 1 && |entries| <= capacity && store.State().Live(page)
      requires Coherent(store.State(), entries - {page}, writeThrough)
      requires if e.dirty then !writeThrough else store.State().pages[page] == Some(e.data)
      modifies this`entries, store
      ensures Valid() && |old(Overlay(store.State(), entries - {page})).pages| > page
      ensures View() == Mem(old(Overlay(store.State(), entries - {page})).pages[page := Some(e.data)],
                            old(store.emptyPages))
      ensures Buffered(old(entries), entries, page, e, capacity)
      ensures OnlyChanges(old(store.State()), store.State(), old(entries).Keys - entries.Keys)
    {
      hide Overlay, Coherent;
      if page in entries {
        ghost var rest := entries - {page};
        assert entries[page := e].Keys == entries.Keys;
        entries := entries[page := e];
        assert entries - {page} == rest;
      } else {
        assert entries - {page} == entries;
        AddEntry(page, e);
      }
      OverlayPut(store.State(), entries - {page}, entries, writeThrough, page, e);
    }

    method DeleteByteArray(page: int) returns (out: Outcome)
      requires Valid()
      modifies this, store
      ensures Valid() && old(View()).Valid() && (View(), out) == MemStep(old(View()), Delete(page))
      ensures hits == old(hits) && entries == old(entries) - {page}
    {
      OverlayDelete(store.State(), entries, writeThrough, page);
      hide Overlay, Coherent, MemStep, Mem.Valid;
      if page in entries {
        assert entries.Keys == (entries - {page}).Keys + {page};
        entries := entries - {page};
      } else {
        assert entries - {page} == entries;
      }
      out := store.DeleteByteArray(page);
    }

    /** Writes everything back: the bare store then holds what was seen through the buffer. */
    method ClearBuffer()
      requires Valid()
      modifies this, store
      ensures Valid() && entries == map[] && hits == 0
      ensures View() == store.State() == old(View())
    {
      var todo := entries.Keys;
      ghost var left := entries;
      while todo != {}
        invariant entries == old(entries) && left.Keys == todo && (forall p :: p in todo ==> left[p] == entries[p])
        invariant todo <= entries.Keys
        invariant Coherent(store.State(), left, writeThrough) && Overlay(store.State(), left) == old(View())
        decreases todo
      {
        var page := AnyOf(todo);
        ghost var m := store.State();
        OverlayRemove(m, if entries[page].dirty then MemStep(m, Store(page, entries[page].data)).0 else m, left,
                      writeThrough, page);
        if entries[page].dirty {
          var out := store.StoreByteArray(page, entries[page].data);
        }
        todo, left := todo - {page}, left - {page};
      }
      assert left == map[];
      entries, hits := map[], 0;
    }

    /** A run of operations through the buffer answers exactly as the bare store would, whatever is evicted. */
    method Run(ops: seq<Op>) returns (outs: seq<Outcome>)
      requires Valid() && View().Valid() && FaithfulRun(View(), ops, writeThrough)
      modifies this, store
      ensures Valid() && (View(), outs) == MemRun(old(View()), ops)
      decreases |ops|
    {
      if ops == [] {
        return [];
      }
      StepValid(View(), ops[0]);
      hide Mem.Valid, MemStep, Coherent, Overlay;
      var out: Outcome;
      match ops[0] {
        case Load(page) => out := LoadByteArray(page);
        case Store(page, data) => out := StoreByteArray(page, data);
        case Delete(page) => out := DeleteByteArray(page);
        case Clear => StepClear(View()); ClearBuffer(); out := Done(NEW_PAGE);
      }
      var rest := Run(ops[1..]);
      return [out] + rest;
    }
  }
}
