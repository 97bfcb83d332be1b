/** The disk-backed sorter behind the bulk loader: sorted runs of a full buffer are spilled to temporary
    files and merged, a page at a time, through a priority queue. A temporary file is the sequence of
    records still to be read from it. */
module ExternalSorter {
  import opened Boxes
  import opened Wrappers

  /** Where a bounding shape's trajectory piece is stored. */
  datatype StoreEntry = StoreEntry(id: int, s: nat, e: nat)

  /** What the leaf level keeps of a bounding shape. */
  datatype SbbData = SbbData(sbbid: int, se: StoreEntry, box: Box, hasPrev: bool, hasNext: bool)

  /** A record stands for a bounding shape (with data) or for a finished tree node (without). */
  datatype Record = Record(id: int, box: Box, data: Option<SbbData>)

  /** What records are sorted by: the sum of the box bounds along the axis of the sort dimension. */
  function Key(s: nat, r: Record): real { r.box.Low(2 - s) + r.box.High(2 - s) }

  /** The sort dimensions are time first, then y, then x. */
  lemma SortDimensions(s: nat, r: Record)
    ensures s == 0 ==> Key(s, r) == r.box.tmin + r.box.tmax
    ensures s == 1 ==> Key(s, r) == r.box.ymin + r.box.ymax
    ensures s == 2 ==> Key(s, r) == r.box.xmin + r.box.xmax
  {
  }

  ghost predicate Ascending(s: nat, rs: seq<Record>) {
    forall i, j :: 0 <= i < j < |rs| ==> Key(s, rs[i]) <= Key(s, rs[j])
  }

  /** All records of several files. */
  ghost function Flat(files: seq<seq<Record>>): multiset<Record> {
    if files == [] then multiset{} else multiset(files[0]) + Flat(files[1..])
  }

  lemma {:induction false} FlatConcat(a: seq<seq<Record>>, c: seq<seq<Record>>)
    ensures Flat(a + c) == Flat(a) + Flat(c)
  {
    if a == [] {
      assert a + c == c;
    } else {
      assert (a + c)[1..] == a[1..] + c;
      FlatConcat(a[1..], c);
    }
  }

  lemma FlatAppend(a: seq<seq<Record>>, f: seq<Record>)
    ensures Flat(a + [f]) == Flat(a) + multiset(f)
  {
    FlatConcat(a, [f]);
    assert [f][1..] == [];
  }

  lemma FlatSplit(a: seq<seq<Record>>, k: nat)
    requires k <= |a|
    ensures Flat(a) == Flat(a[..k]) + Flat(a[k..])
  {
    FlatConcat(a[..k], a[k..]);
    assert a[..k] + a[k..] == a;
  }

  /** Taking the head of one file takes it from the whole. */
  lemma {:induction false} FlatTakeHead(a: seq<seq<Record>>, i: nat)
    requires i < |a| && a[i] != []
    ensures Flat(a) == Flat(a[i := a[i][1..]]) + multiset{a[i][0]}
  {
    assert a[i] == [a[i][0]] + a[i][1..];
    var a' := a[i := a[i][1..]];
    FlatSplit(a, i);
    FlatSplit(a', i);
    assert a[i..][1..] == a'[i..][1..];
    assert a[..i] == a'[..i];
  }

  // ----- sorting a buffer

  /** Insertion into an ascending sequence. */
  method InsertAscending(s: nat, rs: seq<Record>, r: Record) returns (out: seq<Record>)
    requires Ascending(s, rs)
    ensures Ascending(s, out) && multiset(out) == multiset(rs) + multiset{r}
  {
    var i := 0;
    while i < |rs| && Key(s, rs[i]) <= Key(s, r)
      invariant 0 <= i <= |rs|
      invariant forall k :: 0 <= k < i ==> Key(s, rs[k]) <= Key(s, r)
    {
      i := i + 1;
    }
    assert rs == rs[..i] + rs[i..];
    out := rs[..i] + [r] + rs[i..];
  }

  /** Stands for std::sort: some ascending arrangement of the same records. */
  method SortRecords(s: nat, rs: seq<Record>) returns (out: seq<Record>)
    ensures Ascending(s, out) && multiset(out) == multiset(rs)
  {
    out := [];
    for i := 0 to |rs|
      invariant Ascending(s, out) && multiset(out) == multiset(rs[..i])
    {
      out := InsertAscending(s, out, rs[i]);
      assert rs[..i + 1] == rs[..i] + [rs[i]];
    }
    assert rs[..|rs|] == rs;
  }

  // ----- the runs

  /** All the pieces in order. */
  ghost function Concat(parts: seq<seq<Record>>): seq<Record> {
    if parts == [] then [] else Concat(parts[..|parts| - 1]) + parts[|parts| - 1]
  }

  lemma ConcatGrows(parts: seq<seq<Record>>, part: seq<Record>)
    ensures Concat(parts + [part]) == Concat(parts) + part
  {
    assert (parts + [part])[..|parts|] == parts;
  }

  lemma {:induction false} ConcatJoin(a: seq<seq<Record>>, c: seq<seq<Record>>)
    ensures Concat(a + c) == Concat(a) + Concat(c)
  {
    if c == [] {
      assert a + c == a;
    } else {
      var n := |c| - 1;
      assert a + c == (a + c[..n]) + [c[n]] && c == c[..n] + [c[n]];
      ConcatJoin(a, c[..n]);
      ConcatGrows(a + c[..n], c[n]);
      ConcatGrows(c[..n], c[n]);
    }
  }

  lemma {:induction false} ConcatFlat(parts: seq<seq<Record>>)
    ensures multiset(Concat(parts)) == Flat(parts)
  {
    if parts != [] {
      var n := |parts| - 1;
      ConcatFlat(parts[..n]);
      FlatAppend(parts[..n], parts[n]);
      assert parts == parts[..n] + [parts[n]];
    }
  }

  ghost predicate Arranges(s: nat, rs: seq<Record>, out: seq<Record>) {
    Ascending(s, out) && multiset(out) == multiset(rs)
  }

  /** Every file is an ascending arrangement of its part, and none is empty. */
  ghost predicate Sorted(s: nat, parts: seq<seq<Record>>, files: seq<seq<Record>>) {
    |files| == |parts| && forall i :: 0 <= i < |parts| ==> Arranges(s, parts[i], files[i]) && files[i] != []
  }

  lemma SortedGrows(s: nat, parts: seq<seq<Record>>, files: seq<seq<Record>>, part: seq<Record>, file: seq<Record>)
    requires Sorted(s, parts, files) && Arranges(s, part, file) && part != []
    ensures Sorted(s, parts + [part], files + [file])
  {
    hide Arranges;
    Filled(s, part, file);
  }

  lemma Filled(s: nat, part: seq<Record>, file: seq<Record>)
    requires Arranges(s, part, file)
    ensures |file| == |part|
  {
    hide Ascending;
    assert |multiset(file)| == |multiset(part)|;
  }

  /** The records come apart into buffers full of `capacity`, but for the last. */
  ghost predicate Buffers(capacity: nat, rs: seq<Record>, parts: seq<seq<Record>>) {
    && Concat(parts) == rs
    && forall i :: 0 <= i < |parts| ==> 0 < |parts[i]| <= capacity && (i < |parts| - 1 ==> |parts[i]| == capacity)
  }

  // ----- the merge

  /** One step of a merge: the head of file `i`, a greatest one, moves to the output. */
  ghost predicate TakesGreatestHead(s: nat, files: seq<seq<Record>>, i: nat, r: Record, rest: seq<seq<Record>>) {
    && i < |files| && files[i] != [] && r == files[i][0]
    && (forall j :: 0 <= j < |files| && files[j] != [] ==> Key(s, files[j][0]) <= Key(s, r))
    && rest == files[i := files[i][1..]]
  }

  /** The history of a merge: the unread parts of the files before each step, and which file each step took from. */
  datatype History = History(states: seq<seq<seq<Record>>>, picks: seq<nat>)

  ghost predicate Merges(s: nat, h: History, out: seq<Record>) {
    && |h.states| == |out| + 1 && |h.picks| == |out|
    && forall k :: 0 <= k < |out| ==> TakesGreatestHead(s, h.states[k], h.picks[k], out[k], h.states[k + 1])
  }

  /** Nothing is lost or invented on the way. */
  lemma {:induction false} MergeConserves(s: nat, h: History, out: seq<Record>, n: nat)
    requires Merges(s, h, out) && n <= |out|
    ensures |h.states[n]| == |h.states[0]|
    ensures Flat(h.states[0]) == multiset(out[..n]) + Flat(h.states[n])
  {
    if n > 0 {
      MergeConserves(s, h, out, n - 1);
      var k := n - 1;
      assert TakesGreatestHead(s, h.states[k], h.picks[k], out[k], h.states[k + 1]);
      FlatTakeHead(h.states[n - 1], h.picks[n - 1]);
      assert out[..n] == out[..n - 1] + [out[n - 1]];
    }
  }

  /** A merge of the files to its end. */
  ghost predicate MergedTo(s: nat, files: seq<seq<Record>>, h: History, out: seq<Record>) {
    && Merges(s, h, out) && h.states[0] == files
    && forall i :: 0 <= i < |h.states[|out|]| ==> h.states[|out|][i] == []
  }

  lemma MergedAll(s: nat, files: seq<seq<Record>>, h: History, out: seq<Record>)
    requires MergedTo(s, files, h, out)
    ensures multiset(out) == Flat(files)
  {
    MergeConserves(s, h, out, |out|);
    AllEmpty(h.states[|out|]);
    assert out[..|out|] == out;
  }

  // ----- the passes

  /** How many of the files one pass merges. */
  function PassWidth(files: nat, bufferPages: nat): nat {
    if files < bufferPages then files else bufferPages
  }

  /** One pass: the first files are merged into one that goes to the back. */
  ghost predicate Pass(s: nat, bufferPages: nat, files: seq<seq<Record>>, files': seq<seq<Record>>) {
    var w := PassWidth(|files|, bufferPages);
    exists h, tf :: MergedTo(s, files[..w], h, tf) && files' == files[w..] + [tf]
  }

  /** Passes until one file is left. */
  ghost predicate Passes(s: nat, bufferPages: nat, files: seq<seq<Record>>, out: seq<Record>)
    requires bufferPages >= 2
    decreases |files|
  {
    if |files| <= 1 then files == [out]
    else
      exists files' ::
        |files'| < |files| && Pass(s, bufferPages, files, files') && Passes(s, bufferPages, files', out)
  }

  lemma PassFacts(s: nat, bufferPages: nat, files: seq<seq<Record>>, files': seq<seq<Record>>)
    requires bufferPages >= 1 && Pass(s, bufferPages, files, files') && |files| >= 1
    requires forall i :: 0 <= i < |files| ==> files[i] != []
    ensures |files'| == |files| - PassWidth(|files|, bufferPages) + 1
    ensures Flat(files') == Flat(files) && forall i :: 0 <= i < |files'| ==> files'[i] != []
  {
    var w := PassWidth(|files|, bufferPages);
    var h, tf :| MergedTo(s, files[..w], h, tf) && files' == files[w..] + [tf];
    hide MergedTo, Flat;
    MergedAll(s, files[..w], h, tf);
    FlatSplit(files, w);
    FlatAppend(files[w..], tf);
    HeadInFlat(files[..w], 0);
    assert multiset(tf) != multiset{};
  }

  /** The multiset that goes into the passes comes out. */
  lemma {:induction false} PassesConserve(s: nat, bufferPages: nat, files: seq<seq<Record>>, out: seq<Record>)
    requires bufferPages >= 2 && Passes(s, bufferPages, files, out) && forall i :: 0 <= i < |files| ==> files[i] != []
    ensures multiset(out) == Flat(files)
    decreases |files|
  {
    if |files| <= 1 {
      SingleFile(out);
    } else {
      var files' :| |files'| < |files| && Pass(s, bufferPages, files, files') && Passes(s, bufferPages, files', out);
      PassFacts(s, bufferPages, files, files');
      PassesConserve(s, bufferPages, files', out);
    }
  }

  /** What the sorter can make of the records it was given in this order: an ascending arrangement of a buffer, or what
      the passes make of the ascending arrangements of the buffers. */
  ghost predicate Sorts(s: nat, capacity: nat, bufferPages: nat, rs: seq<Record>, out: seq<Record>) {
    if rs == [] then out == []
    else exists parts, files :: Buffers(capacity, rs, parts) && Sorted(s, parts, files)
           && (if |files| == 1 then out == files[0] else bufferPages >= 2 && Passes(s, bufferPages, files, out))
  }

  lemma {:induction false} SortedFlat(s: nat, parts: seq<seq<Record>>, files: seq<seq<Record>>)
    requires Sorted(s, parts, files)
    ensures Flat(files) == Flat(parts)
  {
    if files != [] {
      assert Arranges(s, parts[0], files[0]);
      SortedFlat(s, parts[1..], files[1..]);
    }
  }

  lemma FullBuffer(capacity: nat, rs: seq<Record>, parts: seq<seq<Record>>)
    requires Buffers(capacity, rs, parts) && |parts| >= 2
    ensures |rs| > capacity
  {
    assert parts == [parts[0]] + parts[1..];
    ConcatJoin([parts[0]], parts[1..]);
    ConcatGrows([], parts[0]);
    assert [] + [parts[0]] == [parts[0]];
  }

  /** Sorting keeps the records, and what fits into the buffer comes out ascending. */
  lemma SortsConserve(s: nat, capacity: nat, bufferPages: nat, rs: seq<Record>, out: seq<Record>)
    requires Sorts(s, capacity, bufferPages, rs, out)
    ensures multiset(out) == multiset(rs) && |out| == |rs|
    ensures |rs| <= capacity ==> Ascending(s, out)
  {
    hide Passes, Flat, Sorted, Buffers, Key;
    if rs != [] {
      var parts, files :| Buffers(capacity, rs, parts) && Sorted(s, parts, files)
           && (if |files| == 1 then out == files[0] else bufferPages >= 2 && Passes(s, bufferPages, files, out));
      PartsConserve(s, capacity, rs, parts, files);
      if |files| == 1 { SingleFile(out); } else { PassesConserve(s, bufferPages, files, out); }
    }
    assert |multiset(out)| == |out| && |multiset(rs)| == |rs|;
  }

  lemma PartsConserve(s: nat, capacity: nat, rs: seq<Record>, parts: seq<seq<Record>>, files: seq<seq<Record>>)
    requires Buffers(capacity, rs, parts) && Sorted(s, parts, files)
    ensures Flat(files) == multiset(rs) && (forall i :: 0 <= i < |files| ==> files[i] != [])
    ensures |files| == 1 ==> Ascending(s, files[0]) && files == [files[0]]
    ensures rs != [] && |rs| <= capacity ==> |files| == 1
  {
    hide Ascending, Flat, Concat;
    ConcatFlat(parts);
    SortedFlat(s, parts, files);
    if |parts| >= 2 { FullBuffer(capacity, rs, parts); }
    if parts == [] { SingleFile(rs); }
    if |files| == 1 { assert Arranges(s, parts[0], files[0]); }
    assert multiset(rs) == multiset{} ==> rs == [];
  }

  /** A merge of one file copies it. */
  lemma {:induction false} MergeCopies(s: nat, h: History, out: seq<Record>, n: nat)
    requires Merges(s, h, out) && |h.states[0]| == 1 && n <= |out|
    ensures |h.states[n]| == 1 && h.states[0][0] == out[..n] + h.states[n][0]
  {
    if n > 0 {
      MergeCopies(s, h, out, n - 1);
      assert TakesGreatestHead(s, h.states[n - 1], h.picks[n - 1], out[n - 1], h.states[n]);
      assert out[..n] == out[..n - 1] + [out[n - 1]];
    }
  }

  /** With one buffer page a pass only moves the first file to the back. */
  lemma OnePageRotates(s: nat, files: seq<seq<Record>>, files': seq<seq<Record>>)
    requires |files| >= 1 && Pass(s, 1, files, files')
    ensures files' == files[1..] + [files[0]]
  {
    var h, tf :| MergedTo(s, files[..1], h, tf) && files' == files[1..] + [tf];
    MergeCopies(s, h, tf, |tf|);
    assert tf[..|tf|] == tf && h.states[|tf|][0] == [] && h.states[0][0] == files[0] && tf + [] == tf;
  }

  /** States of the pass loop, each after one more pass. */
  ghost predicate PassChain(s: nat, bufferPages: nat, chain: seq<seq<seq<Record>>>) {
    forall k :: 0 < k < |chain| ==> PassAt(s, bufferPages, chain, k)
  }

  ghost predicate PassAt(s: nat, bufferPages: nat, chain: seq<seq<seq<Record>>>, k: nat)
    requires 0 < k < |chain|
  {
    Pass(s, bufferPages, chain[k - 1], chain[k])
  }

  lemma ChainGrows(s: nat, bufferPages: nat, chain: seq<seq<seq<Record>>>, files: seq<seq<Record>>)
    requires PassChain(s, bufferPages, chain) && chain != [] && Pass(s, bufferPages, chain[|chain| - 1], files)
    ensures PassChain(s, bufferPages, chain + [files])
  {
    hide Pass;
    var chain' := chain + [files];
    forall k | 0 < k < |chain'|
      ensures PassAt(s, bufferPages, chain', k)
    {
      if k < |chain| { assert PassAt(s, bufferPages, chain, k); }
    }
  }

  /** A chain of passes that ends with one file. */
  lemma {:induction false} ChainPasses(s: nat, bufferPages: nat, chain: seq<seq<seq<Record>>>, k: nat)
    requires bufferPages >= 2 && PassChain(s, bufferPages, chain) && k < |chain| && |chain[|chain| - 1]| == 1
    requires forall i :: 0 <= i < |chain| - 1 ==> |chain[i]| > 1
    requires forall i :: 0 <= i < |chain[k]| ==> chain[k][i] != []
    ensures Passes(s, bufferPages, chain[k], chain[|chain| - 1][0])
    decreases |chain| - k
  {
    if k < |chain| - 1 {
      assert PassAt(s, bufferPages, chain, k + 1);
      hide Pass;
      PassFacts(s, bufferPages, chain[k], chain[k + 1]);
      ChainPasses(s, bufferPages, chain, k + 1);
    }
  }

  lemma {:induction false} HeadInFlat(files: seq<seq<Record>>, j: nat)
    requires j < |files| && files[j] != []
    ensures files[j][0] in Flat(files)
  {
    FlatSplit(files, j);
    assert files[j..] != [] && files[j..][0] == files[j];
  }

  lemma {:induction false} AllEmpty(files: seq<seq<Record>>)
    requires forall i :: 0 <= i < |files| ==> files[i] == []
    ensures Flat(files) == multiset{}
  {
    if files != [] {
      AllEmpty(files[1..]);
    }
  }

  /** One bucket of a merge: what its temporary file still holds, whether a read has failed, and the
      records already read into memory. */
  datatype Bucket = Bucket(file: seq<Record>, eof: bool, buffer: seq<Record>)

  /** What is left of a file of which `n` records have been read, or all if there are fewer. */
  function Unread(size: nat, n: nat): nat { if n < size then size - n else 0 }

  /** Reads up to `n` records into the buffer, stopping at a failed read. */
  method ReadPage(b: Bucket, n: nat) returns (out: Bucket)
    requires !b.eof
    ensures out.buffer + out.file == b.buffer + b.file
    ensures |out.file| == Unread(|b.file|, n) && (out.eof <==> |b.file| < n)
    ensures n > 0 && b.file != [] ==> out.buffer != []
  {
    out := b;
    for j := 0 to n
      invariant out.buffer + out.file == b.buffer + b.file
      invariant !out.eof && |out.buffer| == |b.buffer| + j
    {
      if out.file == [] {
        out := out.(eof := true);
        return;
      }
      out := Bucket(out.file[1..], false, out.buffer + [out.file[0]]);
    }
  }

  /** The queue holds at most one record per file. Its comparator puts a greatest key on top. */
  method TopOf(s: nat, pq: map<nat, Record>) returns (i: nat)
    requires pq != map[]
    ensures i in pq && forall j :: j in pq ==> Key(s, pq[j]) <= Key(s, pq[i])
  {
    i :| i in pq;
    var todo := pq.Keys - {i};
    while todo != {}
      invariant i in pq && todo <= pq.Keys
      invariant forall j :: j in pq && j !in todo ==> Key(s, pq[j]) <= Key(s, pq[i])
      decreases todo
    {
      var j :| j in todo;
      todo := todo - {j};
      if Key(s, pq[j]) > Key(s, pq[i]) { i := j; }
    }
  }

  function HeadOf(pq: map<nat, Record>, i: nat): Option<Record> {
    if i in pq then Some(pq[i]) else None
  }

  /** `left` is what a file still owes the output: its record in the queue, its buffer, its unread rest. */
  ghost predicate OwesFile(b: Bucket, head: Option<Record>, left: seq<Record>) {
    && (b.eof ==> b.file == [])
    && (if head.Some? then left == [head.value] + (b.buffer + b.file) else left == b.buffer + b.file == [])
  }

  ghost predicate Owes(bs: seq<Bucket>, pq: map<nat, Record>, left: seq<seq<Record>>) {
    && |left| == |bs|
    && (forall i :: i in pq ==> i < |bs|)
    && (forall i :: 0 <= i < |bs| ==> OwesFile(bs[i], HeadOf(pq, i), left[i]))
  }

  lemma OwesAppend(bs: seq<Bucket>, pq: map<nat, Record>, left: seq<seq<Record>>, b: Bucket, file: seq<Record>)
    requires Owes(bs, pq, left) && file != [] && b.buffer + b.file == file[1..] && (b.eof ==> b.file == [])
    ensures Owes(bs + [b], pq[|bs| := file[0]], left + [file])
  {
    var bs', pq', left' := bs + [b], pq[|bs| := file[0]], left + [file];
    assert file == [file[0]] + (b.buffer + b.file);
    assert OwesFile(b, Some(file[0]), file);
    hide OwesFile;
    forall k | 0 <= k < |bs'|
      ensures OwesFile(bs'[k], HeadOf(pq', k), left'[k])
    {
      if k < |bs| {
        assert OwesFile(bs[k], HeadOf(pq, k), left[k]);
      }
    }
  }

  /** Loads the first page of every file; its first record enters the queue. */
  method OpenFiles(pageSize: nat, inputs: seq<seq<Record>>) returns (bs: seq<Bucket>, pq: map<nat, Record>)
    requires pageSize >= 1
    requires forall i :: 0 <= i < |inputs| ==> inputs[i] != []
    ensures Owes(bs, pq, inputs)
    ensures forall i :: 0 <= i < |bs| ==> |bs[i].file| == Unread(|inputs[i]|, pageSize)
  {
    bs, pq := [], map[];
    for i := 0 to |inputs|
      invariant |bs| == i && Owes(bs, pq, inputs[..i])
      invariant forall k :: 0 <= k < i ==> |bs[k].file| == Unread(|inputs[k]|, pageSize)
    {
      var b := ReadPage(Bucket(inputs[i][1..], false, []), pageSize - 1);
      OwesAppend(bs, pq, inputs[..i], b, inputs[i]);
      assert inputs[..i + 1] == inputs[..i] + [inputs[i]];
      bs, pq := bs + [b], pq[i := inputs[i][0]];
    }
    assert inputs[..|inputs|] == inputs;
  }

  /** Hands out the next record of a file, reading another page when the buffer has run dry. */
  method NextHead(b: Bucket, pageSize: nat) returns (out: Bucket, head: Option<Record>)
    requires pageSize >= 1 && (b.eof ==> b.file == [])
    ensures OwesFile(out, head, b.buffer + b.file)
    ensures if !b.eof && b.buffer == []
            then |out.file| == Unread(|b.file|, pageSize) && (out.eof <==> |b.file| < pageSize)
            else out.file == b.file && out.eof == b.eof
  {
    out := b;
    if !out.eof && out.buffer == [] {
      out := ReadPage(out, pageSize);
    }
    if out.buffer != [] {
      head := Some(out.buffer[0]);
      assert out.buffer == [out.buffer[0]] + out.buffer[1..];
      out := out.(buffer := out.buffer[1..]);
    } else {
      head := None;
    }
  }

  lemma OwesAfterStep(bs: seq<Bucket>, pq: map<nat, Record>, left: seq<seq<Record>>, i: nat, b: Bucket,
                      head: Option<Record>)
    requires Owes(bs, pq, left) && i in pq
    requires OwesFile(b, head, bs[i].buffer + bs[i].file)
    ensures Owes(bs[i := b], if head.Some? then pq[i := head.value] else pq - {i}, left[i := left[i][1..]])
  {
    assert OwesFile(bs[i], Some(pq[i]), left[i]);
    var bs', pq', left' := bs[i := b], if head.Some? then pq[i := head.value] else pq - {i}, left[i := left[i][1..]];
    assert left[i][1..] == bs[i].buffer + bs[i].file;
    hide OwesFile;
    forall k | 0 <= k < |bs'|
      ensures OwesFile(bs'[k], HeadOf(pq', k), left'[k])
    {
      if k != i {
        assert OwesFile(bs[k], HeadOf(pq, k), left[k]);
      }
    }
  }

  lemma GreatestHead(s: nat, bs: seq<Bucket>, pq: map<nat, Record>, left: seq<seq<Record>>, i: nat)
    requires Owes(bs, pq, left) && i in pq && forall j :: j in pq ==> Key(s, pq[j]) <= Key(s, pq[i])
    ensures TakesGreatestHead(s, left, i, pq[i], left[i := left[i][1..]])
  {
    forall j | 0 <= j < |left| && left[j] != []
      ensures j in pq && left[j][0] == pq[j]
    {
      assert OwesFile(bs[j], HeadOf(pq, j), left[j]);
    }
    assert OwesFile(bs[i], HeadOf(pq, i), left[i]);
  }

  lemma MergesExtend(s: nat, h: History, out: seq<Record>, i: nat, r: Record, rest: seq<seq<Record>>)
    requires Merges(s, h, out) && TakesGreatestHead(s, h.states[|out|], i, r, rest)
    ensures Merges(s, History(h.states + [rest], h.picks + [i]), out + [r])
  {
    var h', out' := History(h.states + [rest], h.picks + [i]), out + [r];
    forall k | 0 <= k < |out'|
      ensures TakesGreatestHead(s, h'.states[k], h'.picks[k], out'[k], h'.states[k + 1])
    {
      if k < |out| {
        assert TakesGreatestHead(s, h.states[k], h.picks[k], out[k], h.states[k + 1]);
      }
    }
  }

  /** Merges files, none empty, into one. */
  method MergePass(s: nat, pageSize: nat, inputs: seq<seq<Record>>) returns (tf: seq<Record>, ghost h: History)
    requires pageSize >= 1
    requires forall i :: 0 <= i < |inputs| ==> inputs[i] != []
    ensures MergedTo(s, inputs, h, tf)
    ensures multiset(tf) == Flat(inputs)
  {
    var bs, pq := OpenFiles(pageSize, inputs);
    tf := [];
    ghost var left := inputs;
    h := History([inputs], []);
    while pq != map[]
      invariant Owes(bs, pq, left)
      invariant Merges(s, h, tf) && h.states[0] == inputs && h.states[|tf|] == left
      decreases |Flat(left)|
    {
      var i := TopOf(s, pq);
      assert OwesFile(bs[i], HeadOf(pq, i), left[i]);
      ghost var rest := left[i := left[i][1..]];
      GreatestHead(s, bs, pq, left, i);
      FlatTakeHead(left, i);
      MergesExtend(s, h, tf, i, pq[i], rest);
      var b, head := NextHead(bs[i], pageSize);
      OwesAfterStep(bs, pq, left, i, b, head);
      tf, h := tf + [pq[i]], History(h.states + [rest], h.picks + [i]);
      pq := if head.Some? then pq[i := head.value] else pq - {i};
      bs, left := bs[i := b], rest;
    }
    MergedAll(s, inputs, h, tf);
  }

  // ----- the sorter

  lemma SingleFile(f: seq<Record>)
    ensures Flat([f]) == multiset(f) && Flat([]) == multiset{}
  {
    assert [f][1..] == [];
  }

  /** One pass: merges as many of the first files as there are buffer pages. It leaves fewer files exactly if there
      are at least two pages; with one it copies the first file. */
  method MergeFirst(s: nat, pageSize: nat, bufferPages: nat, runs: seq<seq<Record>>)
    returns (tf: seq<Record>, rest: seq<seq<Record>>)
    requires pageSize >= 1 && bufferPages >= 1 && |runs| > 1
    requires forall i :: 0 <= i < |runs| ==> runs[i] != []
    ensures Pass(s, bufferPages, runs, rest + [tf])
    ensures |rest| == |runs| - PassWidth(|runs|, bufferPages)
    ensures |rest| + 1 < |runs| <==> bufferPages >= 2
    ensures bufferPages == 1 ==> tf == runs[0] && rest == runs[1..]
    ensures tf != [] && (forall i :: 0 <= i < |rest| ==> rest[i] != [])
    ensures Flat(rest) + multiset(tf) == Flat(runs)
  {
    var width := PassWidth(|runs|, bufferPages);
    ghost var h;
    tf, h := MergePass(s, pageSize, runs[..width]);
    rest := runs[width..];
    assert Pass(s, bufferPages, runs, rest + [tf]);
    hide Pass, MergedTo, Merges;
    PassFacts(s, bufferPages, runs, rest + [tf]);
    FlatAppend(rest, tf);
    if bufferPages == 1 { OnePageRotates(s, runs, rest + [tf]); }
    assert forall i :: 0 <= i < |rest| ==> rest[i] == (rest + [tf])[i];
    assert tf == (rest + [tf])[|rest|];
  }

  ghost predicate AllOf(parts: seq<seq<Record>>, n: nat) {
    forall i :: 0 <= i < |parts| ==> |parts[i]| == n
  }

  lemma OneBuffer(s: nat, capacity: nat, bufferPages: nat, rs: seq<Record>, out: seq<Record>)
    requires |rs| <= capacity && Arranges(s, rs, out)
    ensures Sorts(s, capacity, bufferPages, rs, out)
  {
    hide Arranges, Sorted, Passes;
    Filled(s, rs, out);
    if rs != [] {
      SortedNone(s);
      SortedGrows(s, [], [], rs, out);
      assert [] + [rs] == [rs] && [] + [out] == [out];
      ConcatGrows([], rs);
      SortsBy(s, capacity, bufferPages, rs, [rs], [out], out);
    }
  }

  lemma SortedNone(s: nat)
    ensures Sorted(s, [], [])
  {
  }

  lemma NothingSpilled(s: nat, parts: seq<seq<Record>>, files: seq<seq<Record>>, buffer: seq<Record>)
    requires Sorted(s, parts, files) && files == []
    ensures Concat(parts) + buffer == buffer && multiset(buffer) + Flat(files) == multiset(buffer)
  {
  }

  lemma SortedCount(s: nat, parts: seq<seq<Record>>, files: seq<seq<Record>>)
    requires Sorted(s, parts, files)
    ensures |files| == |parts|
  {
  }

  lemma FilesFilled(s: nat, parts: seq<seq<Record>>, files: seq<seq<Record>>)
    requires Sorted(s, parts, files)
    ensures |files| == |parts| && forall i :: 0 <= i < |files| ==> files[i] != [] && Ascending(s, files[i])
  {
    hide Ascending;
  }

  /** Full buffers, and the rest as one more. */
  lemma BuffersAre(capacity: nat, parts: seq<seq<Record>>, rest: seq<Record>)
    requires AllOf(parts, capacity) && |rest| < capacity
    ensures rest == [] ==> Buffers(capacity, Concat(parts) + rest, parts)
    ensures rest != [] ==> Buffers(capacity, Concat(parts) + rest, parts + [rest])
  {
    hide Concat;
    ConcatGrows(parts, rest);
    assert Concat(parts) + [] == Concat(parts);
  }

  lemma SortsBy(s: nat, capacity: nat, bufferPages: nat, rs: seq<Record>, parts: seq<seq<Record>>,
                files: seq<seq<Record>>, out: seq<Record>)
    requires Buffers(capacity, rs, parts) && parts != [] && Sorted(s, parts, files)
    requires if |files| == 1 then out == files[0] else bufferPages >= 2 && Passes(s, bufferPages, files, out)
    ensures Sorts(s, capacity, bufferPages, rs, out)
  {
    hide Passes, Sorted;
  }

  datatype Outcome = Refused | EndOfStream | Next(r: Record)

  class Sorter {
    const s: nat
    const pageSize: nat
    const bufferPages: nat
    var insertionPhase: bool
    var sortedFile: Option<seq<Record>>
    var runs: seq<seq<Record>>
    var buffer: seq<Record>
    var total: nat
    var stI: nat
    /** The full buffers the runs were made of. */
    ghost var spilled: seq<seq<Record>>

    ghost predicate Valid()
      reads this
    {
      && pageSize >= 1 && bufferPages >= 1
      && (insertionPhase ==>
            && sortedFile.None? && stI == 0 && |buffer| < pageSize * bufferPages
            && total == |Pending()|
            && Sorted(s, spilled, runs) && AllOf(spilled, pageSize * bufferPages))
      && (!insertionPhase ==> stI <= |buffer|)
    }

    /** What has been inserted, in order. */
    ghost function Inserted(): seq<Record>
      reads this
    {
      Concat(spilled) + buffer
    }

    /** The records inserted so far and not yet handed out. */
    ghost function Pending(): multiset<Record>
      reads this
    {
      if insertionPhase then multiset(buffer) + Flat(runs) else multiset(Delivery())
    }

    /** After sorting: what will be handed out, in order. */
    ghost function Delivery(): seq<Record>
      reads this
    {
      if sortedFile.Some? then sortedFile.value
      else if stI <= |buffer| then buffer[stI..] else []
    }

    constructor (s: nat, pageSize: nat, bufferPages: nat)
      requires pageSize >= 1 && bufferPages >= 1
      ensures Valid() && insertionPhase && Pending() == multiset{} && total == 0 && Inserted() == []
      ensures this.s == s && this.pageSize == pageSize && this.bufferPages == bufferPages
    {
      this.s, this.pageSize, this.bufferPages := s, pageSize, bufferPages;
      insertionPhase, sortedFile, runs, buffer, total, stI := true, None, [], [], 0, 0;
      spilled := [];
    }

    /** Number of files there will be to merge. */
    ghost function FilesToMerge(): nat
      reads this
    {
      if runs != [] && buffer != [] then |runs| + 1 else |runs|
    }

    /** Adds a record; a full buffer is spilled as one sorted run. Refused once sorted. */
    method Insert(r: Record) returns (ok: bool)
      requires Valid()
      modifies this
      ensures Valid() && insertionPhase == old(insertionPhase)
      ensures ok == old(insertionPhase)
      ensures ok ==> Pending() == old(Pending()) + multiset{r} && total == old(total) + 1
      ensures ok ==> Inserted() == old(Inserted()) + [r]
      ensures !ok ==> Pending() == old(Pending()) && Delivery() == old(Delivery()) && total == old(total)
    {
      hide Flat, Ascending, Concat, Sorted, Key;
      if !insertionPhase {
        return false;
      }
      assert Concat(spilled) + (buffer + [r]) == Concat(spilled) + buffer + [r];
      buffer, total := buffer + [r], total + 1;
      if |buffer| >= pageSize * bufferPages {
        Spill();
      }
      return true;
    }

    /** Writes the sorted buffer to a new run. */
    method Spill()
      requires insertionPhase && sortedFile.None? && stI == 0 && buffer != [] && pageSize >= 1 && bufferPages >= 1
      requires Sorted(s, spilled, runs)
      modifies this
      ensures insertionPhase && sortedFile.None? && stI == 0 && total == old(total) && buffer == []
      ensures |runs| == old(|runs|) + 1 && runs[..old(|runs|)] == old(runs)
              && multiset(runs[old(|runs|)]) == multiset(old(buffer))
      ensures Pending() == old(Pending()) && Inserted() == old(Inserted())
      ensures Sorted(s, spilled, runs) && spilled == old(spilled) + [old(buffer)]
    {
      hide Ascending, Sorted, Flat;
      var run := SortRecords(s, buffer);
      SortedGrows(s, spilled, runs, buffer, run);
      FlatAppend(runs, run);
      ConcatGrows(spilled, buffer);
      assert Concat(spilled) + buffer + [] == Concat(spilled) + buffer;
      spilled := spilled + [buffer];
      runs, buffer := runs + [run], [];
    }

    /** Ends the insertion phase. Everything inserted will be handed out, in ascending order when at most
        one run was needed, and else as the passes merge the runs. The pass loop needs two buffer pages to end. */
    method Sort() returns (ok: bool)
      requires Valid()
      requires insertionPhase ==> bufferPages >= 2 || FilesToMerge() <= 1
      modifies this
      ensures Valid() && !insertionPhase && total == old(total)
      ensures ok == old(insertionPhase)
      ensures Pending() == old(Pending()) && Pending() == multiset(Delivery())
      ensures ok ==> |Delivery()| == total
      ensures ok ==> (sortedFile.Some? <==> old(runs) != [])
      ensures ok ==> Sorts(s, pageSize * bufferPages, bufferPages, old(Inserted()), Delivery())
      ensures ok && old(FilesToMerge()) <= 1 ==> Ascending(s, Delivery())
      ensures !ok ==> Delivery() == old(Delivery())
    {
      if !insertionPhase {
        return false;
      }
      if runs == [] {
        SortInMemory();
      } else {
        SortSpilled();
      }
      assert |multiset(Delivery())| == |Delivery()|;
      return true;
    }

    method SortInMemory()
      requires Valid() && insertionPhase && runs == []
      modifies this
      ensures Valid() && !insertionPhase && total == old(total) && sortedFile.None?
      ensures Pending() == old(Pending()) && Ascending(s, Delivery())
      ensures Sorts(s, pageSize * bufferPages, bufferPages, old(Inserted()), Delivery())
    {
      hide Ascending, Sorts, Sorted, Concat, Flat;
      ghost var given := buffer;
      NothingSpilled(s, spilled, runs, buffer);
      buffer := SortRecords(s, buffer);
      insertionPhase := false;
      assert buffer[0..] == buffer;
      OneBuffer(s, pageSize * bufferPages, bufferPages, given, buffer);
    }

    method SortSpilled()
      requires Valid() && insertionPhase && runs != []
      requires bufferPages >= 2 || FilesToMerge() <= 1
      modifies this
      ensures Valid() && !insertionPhase && total == old(total) && sortedFile.Some?
      ensures Pending() == old(Pending())
      ensures old(FilesToMerge()) <= 1 ==> Ascending(s, Delivery())
      ensures Sorts(s, pageSize * bufferPages, bufferPages, old(Inserted()), Delivery())
    {
      hide Flat, Ascending, Passes, Buffers, Sorted, Concat, Sorter.Inserted, Sorts;
      ghost var all := Inserted();
      SpillRest();
      ghost var parts, files := spilled, runs;
      FilesFilled(s, parts, files);
      if |runs| == 1 {
        SingleFile(runs[0]);
        assert runs == [runs[0]];
        sortedFile := Some(runs[0]);
      } else {
        MergeAll();
      }
      SortsBy(s, pageSize * bufferPages, bufferPages, all, parts, files, sortedFile.value);
      insertionPhase := false;
    }

    /** What is left in the buffer becomes the last run. */
    method SpillRest()
      requires Valid() && insertionPhase && runs != []
      modifies this
      ensures insertionPhase && sortedFile.None? && stI == 0 && total == old(total) && buffer == []
      ensures |runs| == old(FilesToMerge()) >= 1 && Flat(runs) == old(Pending())
      ensures Sorted(s, spilled, runs) && Buffers(pageSize * bufferPages, old(Inserted()), spilled) && spilled != []
    {
      hide Sorted, Flat, Concat, Buffers;
      BuffersAre(pageSize * bufferPages, spilled, buffer);
      SortedCount(s, spilled, runs);
      if |buffer| > 0 {
        Spill();
      }
    }

    /** The passes: the first files are merged into one that goes to the back, until one pass takes all. */
    method MergeAll()
      requires insertionPhase && sortedFile.None? && pageSize >= 1 && bufferPages >= 2 && |runs| > 1 && buffer == []
      requires forall i :: 0 <= i < |runs| ==> runs[i] != []
      modifies this
      ensures insertionPhase && sortedFile.Some? && total == old(total) && buffer == [] && stI == old(stI)
      ensures multiset(sortedFile.value) == old(Flat(runs)) && Passes(s, bufferPages, old(runs), sortedFile.value)
    {
      ghost var chain := [runs];
      hide Flat, Pass;
      while |runs| > 1
        invariant insertionPhase && total == old(total) && buffer == [] && stI == old(stI)
        invariant chain != [] && chain[0] == old(runs) && PassChain(s, bufferPages, chain)
        invariant forall k :: 0 <= k < |chain| - 1 ==> |chain[k]| > 1
        invariant sortedFile.None? ==> |runs| > 1 && chain[|chain| - 1] == runs
        invariant sortedFile.Some? ==> runs == [] && chain[|chain| - 1] == [sortedFile.value]
        invariant forall i :: 0 <= i < |runs| ==> runs[i] != []
        decreases |runs|
      {
        var tf, rest := MergeFirst(s, pageSize, bufferPages, runs);
        ChainGrows(s, bufferPages, chain, rest + [tf]);
        chain := chain + [rest + [tf]];
        runs := rest;
        if runs == [] {
          sortedFile := Some(tf);
        } else {
          runs := runs + [tf];
        }
      }
      ChainPasses(s, bufferPages, chain, 0);
      PassesConserve(s, bufferPages, old(runs), sortedFile.value);
    }

    /** Hands out the next record. */
    method GetNextRecord() returns (o: Outcome)
      requires Valid()
      modifies this
      ensures Valid() && insertionPhase == old(insertionPhase) && total == old(total)
      ensures o.Refused? <==> old(insertionPhase)
      ensures o.Refused? ==> Pending() == old(Pending())
      ensures o.EndOfStream? ==> old(Delivery()) == Delivery() == []
      ensures o.Next? ==> old(Delivery()) == [o.r] + Delivery()
    {
      if insertionPhase {
        return Refused;
      }
      if sortedFile.None? {
        if stI < |buffer| {
          o := Next(buffer[stI]);
          stI := stI + 1;
        } else {
          o := EndOfStream;
        }
      } else if sortedFile.value == [] {
        o := EndOfStream;
      } else {
        o := Next(sortedFile.value[0]);
        sortedFile := Some(sortedFile.value[1..]);
      }
    }
  }
}
