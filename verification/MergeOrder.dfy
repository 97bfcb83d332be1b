/** In what order the sorter delivers. The merges take the greatest head first, so with more than one file the
    result is ascending for sure only if there is nothing to sort; and with one buffer page the passes never end. */
module MergeOrder {
  import opened ExternalSorter

  // ----- one merge

  /** All records have one key. */
  ghost predicate OneKey(s: nat, m: multiset<Record>) {
    forall r, r' :: r in m && r' in m ==> Key(s, r) == Key(s, r')
  }

  /** One more step in front of a merge. */
  lemma MergePrepend(s: nat, files: seq<seq<Record>>, i: nat, r: Record, rest: seq<seq<Record>>, h: History,
                     out: seq<Record>)
    returns (h': History)
    requires TakesGreatestHead(s, files, i, r, rest) && MergedTo(s, rest, h, out)
    ensures MergedTo(s, files, h', [r] + out)
  {
    h' := History([files] + h.states, [i] + h.picks);
    var out' := [r] + out;
    hide TakesGreatestHead;
    forall k | 0 <= k < |out'|
      ensures TakesGreatestHead(s, h'.states[k], h'.picks[k], out'[k], h'.states[k + 1])
    {
      if k > 0 {
        assert TakesGreatestHead(s, h.states[k - 1], h.picks[k - 1], out[k - 1], h.states[k]);
      }
    }
  }

  /** The file with a greatest head. */
  lemma {:induction false} GreatestFile(s: nat, files: seq<seq<Record>>) returns (i: nat)
    requires exists j :: 0 <= j < |files| && files[j] != []
    ensures i < |files| && files[i] != [] && TakesGreatestHead(s, files, i, files[i][0], files[i := files[i][1..]])
  {
    var n := |files| - 1;
    if exists j :: 0 <= j < n && files[j] != [] {
      i := GreatestFile(s, files[..n]);
      assert files[i] == files[..n][i];
      if files[n] != [] && Key(s, files[n][0]) > Key(s, files[i][0]) { i := n; }
      forall j | 0 <= j < |files| && files[j] != []
        ensures Key(s, files[j][0]) <= Key(s, files[i][0])
      {
        if j < n { assert files[j] == files[..n][j]; }
      }
    } else {
      i := n;
    }
  }

  /** Every set of files can be merged to the end. */
  lemma {:induction false} MergeExists(s: nat, files: seq<seq<Record>>) returns (h: History, out: seq<Record>)
    ensures MergedTo(s, files, h, out)
    decreases |Flat(files)|
  {
    if forall j :: 0 <= j < |files| ==> files[j] == [] {
      h, out := History([files], []), [];
    } else {
      var i := GreatestFile(s, files);
      FlatTakeHead(files, i);
      var rest := files[i := files[i][1..]];
      h, out := MergeExists(s, rest);
      h := MergePrepend(s, files, i, files[i][0], rest, h, out);
      out := [files[i][0]] + out;
    }
  }

  /** The head taken first is greater than a record that comes later. */
  lemma FirstTooGreat(s: nat, files: seq<seq<Record>>, i: nat, rest: seq<seq<Record>>, h: History, out: seq<Record>,
                      r: Record)
    requires i < |files| && files[i] != [] && MergedTo(s, rest, h, out) && r in Flat(rest)
             && Key(s, r) < Key(s, files[i][0])
    ensures !Ascending(s, [files[i][0]] + out)
  {
    MergedAll(s, rest, h, out);
    assert r in multiset(out) && r in out;
    var k :| 0 <= k < |out| && out[k] == r;
    var all := [files[i][0]] + out;
    assert Key(s, all[0]) > Key(s, all[k + 1]);
  }

  lemma FirstThenRest(s: nat, r: Record, out: seq<Record>)
    requires !Ascending(s, out)
    ensures !Ascending(s, [r] + out)
  {
    var i, j :| 0 <= i < j < |out| && Key(s, out[i]) > Key(s, out[j]);
    var all := [r] + out;
    assert all[i + 1] == out[i] && all[j + 1] == out[j];
  }

  lemma DisorderNow(s: nat, files: seq<seq<Record>>, f: nat, b: nat) returns (h: History, out: seq<Record>)
    requires f < |files| && 0 < b < |files[f]| && Key(s, files[f][0]) > Key(s, files[f][b])
    ensures MergedTo(s, files[f := files[f][1..]], h, out) && !Ascending(s, [files[f][0]] + out)
  {
    hide Flat, MergedTo, Ascending, Key;
    var rest := files[f := files[f][1..]];
    assert rest[f][b - 1] == files[f][b];
    h, out := MergeExists(s, rest);
    InFlat(rest, f, b - 1);
    FirstTooGreat(s, files, f, rest, h, out, files[f][b]);
  }

  /** A file that is not ascending itself keeps its disorder in some merge. */
  lemma {:induction false} DisorderStays(s: nat, files: seq<seq<Record>>, f: nat, a: nat, b: nat)
    returns (h: History, out: seq<Record>)
    requires f < |files| && a < b < |files[f]| && Key(s, files[f][a]) > Key(s, files[f][b])
    ensures MergedTo(s, files, h, out) && !Ascending(s, out)
    decreases |Flat(files)|
  {
    var i := GreatestFile(s, files);
    var rest, r := files[i := files[i][1..]], files[i][0];
    FlatTakeHead(files, i);
    hide Flat, MergedTo, Ascending, TakesGreatestHead;
    assert i != f ==> rest[f] == files[f];
    if i == f && a == 0 {
      h, out := DisorderNow(s, files, f, b);
    } else {
      var back := if i == f then 1 else 0;
      h, out := DisorderStays(s, rest, f, a - back, b - back);
      FirstThenRest(s, r, out);
    }
    h := MergePrepend(s, files, i, r, rest, h, out);
    out := [r] + out;
  }

  lemma {:induction false} InFlat(files: seq<seq<Record>>, j: nat, k: nat)
    requires j < |files| && k < |files[j]|
    ensures files[j][k] in Flat(files)
  {
    FlatSplit(files, j);
    assert files[j..] != [] && files[j..][0] == files[j] && files[j][k] in multiset(files[j]);
  }

  /** If file `i`, ascending and with a greatest head, holds a record greater than the head of file `j`, the merge
      can take from it until that record is out before the head of `j`. */
  lemma {:induction false} OvertakesHead(s: nat, files: seq<seq<Record>>, i: nat, j: nat)
    returns (h: History, out: seq<Record>)
    requires i < |files| && j < |files| && i != j && files[i] != [] && files[j] != [] && Ascending(s, files[i])
    requires forall k :: 0 <= k < |files| && files[k] != [] ==> Key(s, files[k][0]) <= Key(s, files[i][0])
    requires Key(s, files[i][|files[i]| - 1]) > Key(s, files[j][0])
    ensures MergedTo(s, files, h, out) && !Ascending(s, out)
    decreases |files[i]|
  {
    var rest, r := files[i := files[i][1..]], files[i][0];
    assert TakesGreatestHead(s, files, i, r, rest);
    if Key(s, r) > Key(s, files[j][0]) {
      h, out := MergeExists(s, rest);
      InFlat(rest, j, 0);
      FirstTooGreat(s, files, i, rest, h, out, files[j][0]);
    } else {
      assert rest[i] == files[i][1..] && rest[i][|rest[i]| - 1] == files[i][|files[i]| - 1];
      assert Key(s, files[i][0]) <= Key(s, files[i][1]);
      h, out := OvertakesHead(s, rest, i, j);
      FirstThenRest(s, r, out);
    }
    h := MergePrepend(s, files, i, r, rest, h, out);
    out := [r] + out;
  }

  lemma {:induction false} FlatHas(files: seq<seq<Record>>, r: Record) returns (f: nat, k: nat)
    requires r in Flat(files)
    ensures f < |files| && k < |files[f]| && files[f][k] == r
  {
    if r in multiset(files[0]) {
      assert r in files[0];
      f := 0;
      k :| 0 <= k < |files[0]| && files[0][k] == r;
    } else {
      f, k := FlatHas(files[1..], r);
      f := f + 1;
    }
  }

  /** Unless all records of at least two files have one key, some merge of the files is not ascending. */
  lemma DescentExists(s: nat, files: seq<seq<Record>>) returns (h: History, out: seq<Record>)
    requires |files| >= 2 && (forall i :: 0 <= i < |files| ==> files[i] != []) && !OneKey(s, Flat(files))
    ensures MergedTo(s, files, h, out) && !Ascending(s, out)
  {
    if f :| 0 <= f < |files| && !Ascending(s, files[f]) {
      var a, b :| 0 <= a < b < |files[f]| && Key(s, files[f][a]) > Key(s, files[f][b]);
      h, out := DisorderStays(s, files, f, a, b);
    } else {
      var g := GreatestFile(s, files);
      if j :| 0 <= j < |files| && Key(s, files[j][0]) < Key(s, files[g][0]) {
        assert Key(s, files[g][0]) <= Key(s, files[g][|files[g]| - 1]);
        h, out := OvertakesHead(s, files, g, j);
      } else {
        var i := GreaterRecord(s, files, g);
        h, out := OvertakesHead(s, files, i, if i == 0 then 1 else 0);
      }
    }
  }

  /** If the heads are equal and the keys are not, some file ends with a greater key. */
  lemma GreaterRecord(s: nat, files: seq<seq<Record>>, g: nat) returns (f: nat)
    requires (forall i :: 0 <= i < |files| ==> files[i] != [] && Ascending(s, files[i])) && g < |files|
    requires forall j :: 0 <= j < |files| ==> Key(s, files[j][0]) == Key(s, files[g][0])
    requires !OneKey(s, Flat(files))
    ensures f < |files| && Key(s, files[f][|files[f]| - 1]) > Key(s, files[g][0])
  {
    var r, r' :| r in Flat(files) && r' in Flat(files) && Key(s, r) < Key(s, r');
    hide Flat, Key, Ascending, OneKey;
    var f0 := FileOf(s, files, r);
    f := FileOf(s, files, r');
  }

  /** The file of a record, whose key is between those of the file's ends. */
  lemma FileOf(s: nat, files: seq<seq<Record>>, r: Record) returns (f: nat)
    requires r in Flat(files) && forall i :: 0 <= i < |files| ==> files[i] != [] && Ascending(s, files[i])
    ensures f < |files| && Key(s, files[f][0]) <= Key(s, r) <= Key(s, files[f][|files[f]| - 1])
  {
    hide Flat, Key;
    var k;
    f, k := FlatHas(files, r);
  }

  /** A merge takes the greatest head, not the least: of at least two files, every merge comes out ascending
      exactly if all records have one key. */
  lemma MergeAscendingIffOneKey(s: nat, files: seq<seq<Record>>)
    requires |files| >= 2 && forall i :: 0 <= i < |files| ==> files[i] != []
    ensures (forall h, out :: MergedTo(s, files, h, out) ==> Ascending(s, out)) <==> OneKey(s, Flat(files))
  {
    if OneKey(s, Flat(files)) {
      forall h, out | MergedTo(s, files, h, out)
        ensures Ascending(s, out)
      {
        MergedAll(s, files, h, out);
        OneKeyAscends(s, out);
      }
    } else {
      var h, out := DescentExists(s, files);
    }
  }

  lemma OneKeyAscends(s: nat, out: seq<Record>)
    requires OneKey(s, multiset(out))
    ensures Ascending(s, out)
  {
    assert forall k :: 0 <= k < |out| ==> out[k] in multiset(out);
  }

  // ----- all passes

  /** Unless all records have one key, some run of the passes over at least two files is not ascending. */
  lemma {:induction false} PassesDescend(s: nat, bufferPages: nat, files: seq<seq<Record>>) returns (out: seq<Record>)
    requires bufferPages >= 2 && |files| >= 2 && (forall i :: 0 <= i < |files| ==> files[i] != [])
             && !OneKey(s, Flat(files))
    ensures Passes(s, bufferPages, files, out) && !Ascending(s, out)
    decreases |files|
  {
    var w := PassWidth(|files|, bufferPages);
    if w == |files| {
      out := LastPassDescends(s, bufferPages, files);
    } else {
      var h, tf := MergeExists(s, files[..w]);
      var files' := files[w..] + [tf];
      hide MergedTo, Ascending, OneKey;
      assert Pass(s, bufferPages, files, files');
      PassFacts(s, bufferPages, files, files');
      hide Pass;
      out := PassesDescend(s, bufferPages, files');
    }
  }

  lemma LastPassDescends(s: nat, bufferPages: nat, files: seq<seq<Record>>) returns (out: seq<Record>)
    requires bufferPages >= 2 && 2 <= |files| <= bufferPages && !OneKey(s, Flat(files))
    requires forall i :: 0 <= i < |files| ==> files[i] != []
    ensures Passes(s, bufferPages, files, out) && !Ascending(s, out)
  {
    var h;
    h, out := DescentExists(s, files);
    hide MergedTo, Ascending, OneKey;
    var w := PassWidth(|files|, bufferPages);
    assert files[..w] == files && files[w..] + [out] == [out];
    assert MergedTo(s, files[..w], h, out);
    assert Pass(s, bufferPages, files, [out]);
    assert Passes(s, bufferPages, [out], out);
  }

  /** What the sorter makes of at least two files is sure to be ascending exactly if all records have one key. */
  lemma SortAscendingIffOneKey(s: nat, bufferPages: nat, files: seq<seq<Record>>)
    requires bufferPages >= 2 && |files| >= 2 && forall i :: 0 <= i < |files| ==> files[i] != []
    ensures (forall out :: Passes(s, bufferPages, files, out) ==> Ascending(s, out)) <==> OneKey(s, Flat(files))
  {
    if OneKey(s, Flat(files)) {
      forall out | Passes(s, bufferPages, files, out)
        ensures Ascending(s, out)
      {
        PassesConserve(s, bufferPages, files, out);
        OneKeyAscends(s, out);
      }
    } else {
      var out := PassesDescend(s, bufferPages, files);
    }
  }

  /** So with one buffer page no number of passes gets any nearer to one file. */
  lemma {:induction false} OnePageNeverEnds(s: nat, chain: seq<seq<seq<Record>>>, k: nat)
    requires PassChain(s, 1, chain) && k < |chain| && |chain[0]| >= 2
    ensures |chain[k]| == |chain[0]| && Flat(chain[k]) == Flat(chain[0])
  {
    if k > 0 {
      OnePageNeverEnds(s, chain, k - 1);
      assert PassAt(s, 1, chain, k);
      var files := chain[k - 1];
      hide Pass;
      OnePageRotates(s, files, chain[k]);
      FlatAppend(files[1..], files[0]);
    }
  }
}
