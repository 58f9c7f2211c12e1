/** What the methods of the database object do to memtables and to lists of files. */
module TableWork {
  import opened Keys
  import opened Semantics
  import opened Tables
  import opened Versions
  import opened Overlap
  import opened Inputs
  import opened Filter
  import opened Compactions
  import opened Cutting
  import opened Edits
  import opened Levels
  import opened Database
  import opened Installs
  import Cursors
  import Merger
  import SkipList

  // ---------------------------------------------------------------------
  // The memtable
  // ---------------------------------------------------------------------

  /** MemTable::Add puts an entry where SkipList.Added says: where a seek for it ends. */
  lemma AddKeepsSorted(mem: seq<Entry>, e: Entry)
    requires SortedEntries(mem) && forall x :: x in mem ==> x.seqno != e.seqno
    ensures SortedEntries(SkipList.Added(mem, e)) && Elements(SkipList.Added(mem, e)) == Elements(mem) + {e}
  {
    SkipList.AddedIsSorted(mem, e);
    var i := SeekIndex(mem, IKey(e));
    assert forall x :: x in mem <==> x in mem[..i] || x in mem[i..] by { assert mem == mem[..i] + mem[i..]; }
  }

  /** WriteBatchInternal::InsertInto: the operations enter in order, each with the next number. */
  method InsertInto(mem: seq<Entry>, last: nat, ops: seq<(UserKey, Op)>) returns (r: seq<Entry>)
    requires SortedEntries(mem) && forall x :: x in mem ==> x.seqno <= last
    ensures SortedEntries(r) && Elements(r) == Elements(mem) + Elements(Numbering(last, ops))
  {
    r := mem;
    var sequence := last + 1;
    ghost var all := Numbering(last, ops);
    for i := 0 to |ops|
      invariant sequence == last + 1 + i
      invariant SortedEntries(r) && Elements(r) == Elements(mem) + Elements(all[..i])
    {
      forall x | x in r ensures x.seqno < sequence {
        assert x in Elements(r);
        assert x in mem || x in all[..i];
      }
      AddKeepsSorted(r, Entry(ops[i].0, sequence, ops[i].1));
      r := SkipList.Added(r, Entry(ops[i].0, sequence, ops[i].1));
      assert all[..i + 1] == all[..i] + [all[i]];
      sequence := sequence + 1;
    }
    assert all[..|ops|] == all;
  }

  // ---------------------------------------------------------------------
  // Applying an edit
  // ---------------------------------------------------------------------

  /** The numbers of added files are new to their levels and name one file each. */
  ghost predicate FreshFiles(v: Version, e: VersionEdit) {
    && (forall a, f :: a in e.newFiles && a.0 < |v| && f in v[a.0] ==> f.number != a.1.number)
    && (forall a, b :: a in e.newFiles && b in e.newFiles && a.1.number == b.1.number ==> a.1 == b.1)
  }

  /** The level state after one edit can be merged with the base files. */
  lemma EditIsMergeable(v: Version, e: VersionEdit, l: nat)
    requires |v| == kNumLevels && InOrder(v) && l < kNumLevels && FreshFiles(v, e)
    ensures Mergeable(v[l], ApplyLevel(Empty, l, e).added)
  {
    AddFilesSorted(LevelState(Empty.deleted + set d | d in e.deletedFiles && d.0 == l :: d.1, Empty.added), l, e.newFiles, |e.newFiles|);
    forall f, g | f in v[l] && g in ApplyLevel(Empty, l, e).added ensures BySmallest(f, g) || BySmallest(g, f) {
      assert (l, g) in e.newFiles;
      if !BySmallest(f, g) && !BySmallest(g, f) { EqualRank(f, g); }
    }
  }

  lemma EditIsApplied(v: Version, e: VersionEdit, l: nat)
    requires |v| == kNumLevels && l < kNumLevels && FreshFiles(v, e)
    requires forall f, g :: f in v[l] && g in v[l] && f.number == g.number ==> f == g
    ensures Saved(v[l], ApplyLevel(Empty, l, e)) == Applied(FileSet(v[l]), l, e)
  {
    assert Saved(v[l], Empty) == FileSet(v[l]);
    assert NumbersName(v[l], l, [e]) by {
      forall f | f in Mentioned(v[l], l, [e]) ensures f in v[l] || (l, f) in e.newFiles {
      }
    }
    ApplyLevelIsApplied(v[l], Empty, l, e, [e]);
  }

  /** LogAndApply without the manifest: the next version. */
  method LogAndApply(v: Version, e: VersionEdit) returns (w: Version)
    requires |v| == kNumLevels && InOrder(v) && NumbersNameFiles(v) && ValidEdit(e) && FreshFiles(v, e)
    ensures Follows(v, w, e)
  {
    var builder := new Builder(v);
    builder.Apply(e);
    forall l | 0 <= l < kNumLevels ensures Mergeable(v[l], ApplyLevel(Empty, l, e).added) {
      EditIsMergeable(v, e, l);
    }
    w := builder.SaveTo();
    forall l, f | 0 <= l < kNumLevels
      ensures f in w[l] <==> (f in v[l] && (l, f.number) !in e.deletedFiles) || (l, f) in e.newFiles
    {
      EditIsApplied(v, e, l);
      assert f in w[l] <==> f in Applied(FileSet(v[l]), l, e);
    }
  }

  /** The edit of a flush. */
  method AddTable(v: Version, level: nat, f: File) returns (w: Version)
    requires |v| == kNumLevels && InOrder(v) && NumbersNameFiles(v) && level < kNumLevels
    requires NumbersBelow(v, f.number)
    ensures Added(v, w, level, f)
  {
    w := LogAndApply(v, VersionEdit({}, [(level, f)]));
    forall l | 0 <= l < kNumLevels && l != level ensures w[l] == v[l] {
      forall g ensures g in v[l] <==> g in w[l] {
        assert (l, g) !in [(level, f)];
      }
      SameMembersSameLevel(v[l], w[l]);
    }
  }

  /** The edit of a compaction or a trivial move: inputs deleted by number, outputs added. */
  method ReplaceTables(v: Version, level: nat, in0: seq<File>, in1: seq<File>, outputs: seq<File>) returns (w: Version)
    requires |v| == kNumLevels && InOrder(v) && NumbersNameFiles(v) && Chosen(v, level, in0, in1)
    requires DistinctNumbers(outputs)
    requires forall o, f :: o in outputs && f in v[level + 1] ==> o.number != f.number
    ensures Replaced(v, w, level, in0, in1, outputs)
  {
    var e := ReplacingEdit(level, in0, in1, outputs);
    forall a, b | a in e.newFiles && b in e.newFiles && a.1.number == b.1.number ensures a.1 == b.1 {
      NumbersIdentify(outputs, a.1, b.1);
    }
    w := LogAndApply(v, e);
    forall l, f | 0 <= l < kNumLevels
      ensures f in w[l] <==> Kept(v, level, in0, in1, l, f) || (l == level + 1 && f in outputs)
    {
      ReplacingEditIs(v, level, in0, in1, outputs, l, f);
    }
    forall l | 0 <= l < kNumLevels && l != level && l != level + 1 ensures w[l] == v[l] {
      forall f ensures f in v[l] <==> f in w[l] {
        assert f in w[l] <==> Kept(v, level, in0, in1, l, f);
      }
      SameMembersSameLevel(v[l], w[l]);
    }
    forall f ensures f in w[level] <==> (f in v[level] && f !in in0) || f in [] {
      assert f in w[level] <==> Kept(v, level, in0, in1, level, f);
    }
    forall f ensures f in w[level + 1] <==> (f in v[level + 1] && f !in in1) || f in outputs {
      assert f in w[level + 1] <==> Kept(v, level, in0, in1, level + 1, f) || f in outputs;
    }
  }

  function ReplacingEdit(level: nat, in0: seq<File>, in1: seq<File>, outputs: seq<File>): (e: VersionEdit)
    requires level + 1 < kNumLevels
    ensures ValidEdit(e)
    ensures forall a :: a in e.newFiles <==> a.0 == level + 1 && a.1 in outputs
  {
    var news := seq(|outputs|, i requires 0 <= i < |outputs| => (level + 1, outputs[i]));
    assert forall i :: 0 <= i < |outputs| ==> news[i] == (level + 1, outputs[i]);
    VersionEdit((set f | f in in0 :: (level, f.number)) + (set f | f in in1 :: (level + 1, f.number)), news)
  }

  lemma ReplacingEditIs(v: Version, level: nat, in0: seq<File>, in1: seq<File>, outputs: seq<File>, l: nat, f: File)
    requires |v| == kNumLevels && NumbersNameFiles(v) && Chosen(v, level, in0, in1) && l < kNumLevels
    ensures var e := ReplacingEdit(level, in0, in1, outputs);
      (f in v[l] && (l, f.number) !in e.deletedFiles) || (l, f) in e.newFiles
      <==> Kept(v, level, in0, in1, l, f) || (l == level + 1 && f in outputs)
  {
    var e := ReplacingEdit(level, in0, in1, outputs);
    if f in v[l] && (l, f.number) in e.deletedFiles {
      var g :| ((g in in0 && l == level) || (g in in1 && l == level + 1)) && g.number == f.number;
      assert g in v[l];
    }
  }

  // ---------------------------------------------------------------------
  // The input of a compaction
  // ---------------------------------------------------------------------

  /** A sorted list with the entries of a set whose sequence numbers are all different. */
  ghost function SortAll(S: set<Entry>): (r: seq<Entry>)
    requires UniqueSeqnos(S)
    ensures SortedEntries(r) && Elements(r) == S
  {
    if S == {} then []
    else
      var e :| e in S;
      var rest := SortAll(S - {e});
      assert forall x :: x in rest ==> x in Elements(rest);
      AddKeepsSorted(rest, e);
      SkipList.Added(rest, e)
  }

  /** One child per level-zero file, one for a whole sorted level. */
  function LevelCursors(level: nat, fs: seq<File>): seq<Cursors.Cursor> {
    if fs == [] then []
    else if level == 0 then seq(|fs|, i requires 0 <= i < |fs| => Cursors.Cursor(fs[i].entries, 0))
    else [Cursors.Cursor(Concat(fs), 0)]
  }

  /** Two different files of a valid version share no entry. */
  lemma FilesDisjoint(v: Version, l: nat, m: nat, f: File, g: File, e: Entry)
    requires ValidVersion(v) && l < |v| && m < |v| && f in v[l] && g in v[m]
    requires l != m || f != g
    ensures !(e in f.entries && e in g.entries)
  {
    if l < m {
      assert NewerThan(f, g);
    } else if m < l {
      assert NewerThan(g, f);
    } else if l == 0 {
      NumbersIdentify(v[0], f, g);
      assert NewerThan(f, g) || NewerThan(g, f);
    } else {
      SortedPair(v[l], f, g);
      EntriesInRange(f);
      EntriesInRange(g);
    }
  }

  lemma {:induction false} ConcatSorted(fs: seq<File>)
    requires ValidFiles(fs) && SortedLevel(fs)
    ensures SortedEntries(Concat(fs))
  {
    if fs != [] {
      var n := |fs| - 1;
      ConcatSorted(fs[..n]);
      var init, last := Concat(fs[..n]), fs[n].entries;
      assert ValidFile(fs[n]);
      forall i, j | 0 <= i < |init| && 0 <= j < |last| ensures EntryLess(init[i], last[j]) {
        ConcatEntries(fs[..n]);
        assert init[i] in Elements(init);
        var f := FileOfEntry(fs[..n], init[i]);
        assert f in fs && last[j] in last;
        EntriesInRange(f);
        EntriesInRange(fs[n]);
      }
    }
  }

  /** The children of the input iterator merge into the sorted list of all input entries. */
  lemma CursorsMerge(v: Version, level: nat, fs: seq<File>, i: nat, j: nat, e: Entry)
    requires ValidVersion(v) && level < |v| && DistinctFiles(fs) && (forall f :: f in fs ==> f in v[level])
    requires i < |LevelCursors(level, fs)| && j < |LevelCursors(level, fs)| && i != j
    ensures !(e in LevelCursors(level, fs)[i].list && e in LevelCursors(level, fs)[j].list)
  {
    assert fs[i] != fs[j];
    assert fs[i] in fs && fs[j] in fs;
    FilesDisjoint(v, level, level, fs[i], fs[j], e);
  }

  predicate DistinctFiles(fs: seq<File>) {
    forall i, j :: 0 <= i < |fs| && 0 <= j < |fs| && i != j ==> fs[i] != fs[j]
  }

  /** Each child is sorted and together the children hold the entries of the files. */
  lemma CursorsHold(level: nat, fs: seq<File>)
    requires ValidFiles(fs) && (level > 0 ==> SortedLevel(fs))
    ensures forall i :: 0 <= i < |LevelCursors(level, fs)| ==> SortedEntries(LevelCursors(level, fs)[i].list)
    ensures forall e :: e in FileEntries(fs) <==>
      exists i :: 0 <= i < |LevelCursors(level, fs)| && e in LevelCursors(level, fs)[i].list
  {
    var cs := LevelCursors(level, fs);
    if level == 0 {
      forall i | 0 <= i < |cs| ensures SortedEntries(cs[i].list) {
        assert fs[i] in fs;
      }
      forall e ensures e in FileEntries(fs) <==> exists i :: 0 <= i < |cs| && e in cs[i].list {
        if e in FileEntries(fs) {
          var f := FileOfEntry(fs, e);
          var i :| 0 <= i < |fs| && fs[i] == f;
          assert e in cs[i].list;
        }
        if i :| 0 <= i < |cs| && e in cs[i].list {
          FileEntriesOf(fs, fs[i], e);
        }
      }
    } else if fs != [] {
      ConcatSorted(fs);
      ConcatEntries(fs);
      assert cs[0].list == Concat(fs);
      forall e ensures e in FileEntries(fs) <==> exists i :: 0 <= i < |cs| && e in cs[i].list {
        assert e in FileEntries(fs) <==> e in cs[0].list;
      }
    }
  }

  lemma InputsMerge(v: Version, level: nat, in0: seq<File>, in1: seq<File>, merged: seq<Entry>)
    requires ValidVersion(v) && Chosen(v, level, in0, in1) && DistinctFiles(in0) && DistinctFiles(in1)
    requires (level > 0 ==> SortedLevel(in0)) && SortedLevel(in1)
    requires SortedEntries(merged) && Elements(merged) == FileEntries(in0 + in1)
    ensures Merger.IsMerge(merged, LevelCursors(level, in0) + LevelCursors(level + 1, in1))
  {
    var as0, bs := LevelCursors(level, in0), LevelCursors(level + 1, in1);
    var cs := as0 + bs;
    CursorsHold(level, in0);
    CursorsHold(level + 1, in1);
    assert FileEntries(in0 + in1) == FileEntries(in0) + FileEntries(in1) by { UnionEntries(in0, in1); }
    forall e ensures e in merged <==> e in FileEntries(in0) || e in FileEntries(in1) {
      assert e in merged <==> e in Elements(merged);
    }
    forall i, e | 0 <= i < |cs| && e in cs[i].list ensures e in merged {
      if i < |as0| { assert e in as0[i].list; } else { assert e in bs[i - |as0|].list; }
    }
    forall e | e in merged ensures exists i :: 0 <= i < |cs| && e in cs[i].list {
      if e in FileEntries(in0) {
        var i :| 0 <= i < |as0| && e in as0[i].list;
        assert cs[i] == as0[i];
      } else {
        var i :| 0 <= i < |bs| && e in bs[i].list;
        assert cs[|as0| + i] == bs[i];
      }
    }
    forall i, j, e | 0 <= i < |cs| && 0 <= j < |cs| && i != j && e in cs[i].list ensures e !in cs[j].list {
      ChildrenDisjoint(v, level, in0, in1, i, j, e);
    }
  }

  lemma UnionEntries(in0: seq<File>, in1: seq<File>)
    ensures FileEntries(in0 + in1) == FileEntries(in0) + FileEntries(in1)
  {
    forall e | e in FileEntries(in0 + in1) ensures e in FileEntries(in0) + FileEntries(in1) {
      var f := FileOfEntry(in0 + in1, e);
      assert f in in0 || f in in1;
    }
    forall e | e in FileEntries(in0) + FileEntries(in1) ensures e in FileEntries(in0 + in1) {
      var f := FileOfEntry(if e in FileEntries(in0) then in0 else in1, e);
      FileEntriesOf(in0 + in1, f, e);
    }
  }

  lemma ChildrenDisjoint(v: Version, level: nat, in0: seq<File>, in1: seq<File>, i: nat, j: nat, e: Entry)
    requires ValidVersion(v) && Chosen(v, level, in0, in1) && DistinctFiles(in0) && DistinctFiles(in1)
    requires (level > 0 ==> SortedLevel(in0)) && SortedLevel(in1)
    requires var cs := LevelCursors(level, in0) + LevelCursors(level + 1, in1); i < |cs| && j < |cs| && i != j
    ensures var cs := LevelCursors(level, in0) + LevelCursors(level + 1, in1); !(e in cs[i].list && e in cs[j].list)
  {
    var as0, bs := LevelCursors(level, in0), LevelCursors(level + 1, in1);
    var n := |as0|;
    if i < n && j < n {
      CursorsMerge(v, level, in0, i, j, e);
    } else if i < n || j < n {
      var a, b := if i < n then i else j, if i < n then j - n else i - n;
      CursorsHold(level, in0);
      CursorsHold(level + 1, in1);
      if e in as0[a].list && e in bs[b].list {
        var f := FileOfEntry(in0, e);
        var g := FileOfEntry(in1, e);
        FilesDisjoint(v, level, level + 1, f, g, e);
      }
    }
  }

  lemma {:induction false} SelectDistinct(files: seq<File>, lo: Bound, hi: Bound)
    requires DistinctFiles(files)
    ensures DistinctFiles(Select(files, lo, hi))
  {
    if files != [] {
      var n := |files| - 1;
      SelectDistinct(files[..n], lo, hi);
      var rest := Select(files[..n], lo, hi);
      forall i | 0 <= i < |rest| ensures rest[i] != files[n] {
        assert rest[i] in rest;
        var j :| 0 <= j < n && files[..n][j] == rest[i];
      }
    }
  }

  lemma SortedIsDistinct(fs: seq<File>)
    requires ValidFiles(fs) && SortedLevel(fs)
    ensures DistinctFiles(fs)
  {
    SpansOrdered(fs);
    forall i, j | 0 <= i < j < |fs| ensures fs[i] != fs[j] {
      assert fs[i] in fs;
    }
  }

  lemma NumbersMakeDistinct(fs: seq<File>)
    requires DistinctNumbers(fs)
    ensures DistinctFiles(fs)
  {
  }

  /** Selected inputs can be merged: no file twice, and sorted where one child serves a whole level. */
  lemma SelectedIsMergeable(v: Version, level: nat, in0: seq<File>, in1: seq<File>)
    requires ValidVersion(v) && Selected(v, level, in0, in1)
    ensures DistinctFiles(in0) && DistinctFiles(in1) && (level > 0 ==> SortedLevel(in0)) && SortedLevel(in1)
  {
    SelectedIsChosen(v, level, in0, in1);
    var a, b :| IsSmallest(in0, a) && IsLargest(in0, b) && in1 == Select(v[level + 1], Some(a.user), Some(b.user));
    SelectIsSorted(v[level + 1], Some(a.user), Some(b.user));
    SortedIsDistinct(in1);
    if level == 0 {
      var lo: Bound, hi: Bound :| Closed(v[0], lo, hi) && in0 == Select(v[0], lo, hi);
      NumbersMakeDistinct(v[0]);
      SelectDistinct(v[0], lo, hi);
    } else {
      SortedIsDistinct(in0);
    }
  }

  /** MakeInputIterator, drained: all input entries in order. */
  method MergeInputs(v: Version, level: nat, in0: seq<File>, in1: seq<File>) returns (merged: seq<Entry>)
    requires ValidVersion(v) && Chosen(v, level, in0, in1) && DistinctFiles(in0) && DistinctFiles(in1)
    requires (level > 0 ==> SortedLevel(in0)) && SortedLevel(in1)
    requires UniqueSeqnos(FileEntries(in0 + in1))
    ensures SortedEntries(merged) && Elements(merged) == FileEntries(in0 + in1)
  {
    ghost var all := SortAll(FileEntries(in0 + in1));
    InputsMerge(v, level, in0, in1, all);
    var input := new Merger.MergingIterator(LevelCursors(level, in0) + LevelCursors(level + 1, in1), all);
    merged := Merger.Drain(input);
  }

  /** The work of a compaction on the files alone. */
  method CompactFiles(v: Version, c: Running, grandparents: seq<File>, fileSize: seq<Entry> -> nat,
                      maxOutputFileSize: nat, maxGrandParentOverlapBytes: nat, nextFile: nat)
      returns (ghost merged: seq<Entry>, outputs: seq<File>, w: Version)
    requires |v| == kNumLevels && InOrder(v) && NumbersNameFiles(v) && NumbersBelow(v, nextFile)
    requires ValidVersion(c.inputVersion) && Selected(c.inputVersion, c.level, c.inputs0, c.inputs1)
    requires Chosen(v, c.level, c.inputs0, c.inputs1) && c.smallestSnapshot < kMaxSequenceNumber
    requires UniqueSeqnos(FileEntries(c.inputs0 + c.inputs1))
    requires forall e :: e in FileEntries(c.inputs0 + c.inputs1) ==> e.seqno < kMaxSequenceNumber
    ensures SortedEntries(merged) && Elements(merged) == FileEntries(c.inputs0 + c.inputs1)
    ensures Outputs(outputs, Output(merged, c.smallestSnapshot, BaseLevels(c.inputVersion, c.level)))
    ensures CutExactly(Limits(fileSize, maxOutputFileSize, grandparents, maxGrandParentOverlapBytes), merged, outputs)
    ensures DistinctNumbers(outputs) && forall o :: o in outputs ==> nextFile <= o.number < nextFile + |outputs|
    ensures Replaced(v, w, c.level, c.inputs0, c.inputs1, outputs)
  {
    SelectedIsMergeable(c.inputVersion, c.level, c.inputs0, c.inputs1);
    SelectedIsChosen(c.inputVersion, c.level, c.inputs0, c.inputs1);
    var input := MergeInputs(c.inputVersion, c.level, c.inputs0, c.inputs1);
    merged := input;
    var compaction := new Compaction(c.level, c.inputVersion, grandparents);
    assert forall e :: e in input ==> e in Elements(input);
    outputs := DoCompactionWork(compaction, input, c.smallestSnapshot, fileSize, maxOutputFileSize,
                                maxGrandParentOverlapBytes, nextFile);
    w := ReplaceTables(v, c.level, c.inputs0, c.inputs1, outputs);
  }
}
