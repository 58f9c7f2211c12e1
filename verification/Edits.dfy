/** Version edits and the builder that applies them: db/version_set.cc:590-755 and db/version_edit.h. */
module Edits {
  import opened Keys
  import opened Tables
  import opened Versions

  /** BySmallestKey: smallest key first, ties by file number. */
  predicate BySmallest(f: File, g: File) {
    KeyLess(f.smallest, g.smallest) || (!KeyLess(g.smallest, f.smallest) && f.number < g.number)
  }

  predicate SortedBySmallest(fs: seq<File>) {
    forall i, j :: 0 <= i < j < |fs| ==> BySmallest(fs[i], fs[j])
  }

  /** One edit: files to delete and files to add, each with its level. */
  datatype VersionEdit = VersionEdit(deletedFiles: set<(nat, nat)>, newFiles: seq<(nat, File)>)

  predicate ValidEdit(e: VersionEdit) {
    && (forall d :: d in e.deletedFiles ==> d.0 < kNumLevels)
    && (forall a :: a in e.newFiles ==> a.0 < kNumLevels)
  }

  /** What the builder keeps for a level: deleted numbers and an ordered set of added files. */
  datatype LevelState = LevelState(deleted: set<nat>, added: seq<File>)

  /** Insertion into an ordered set: an element of equal rank is already there. */
  function InsertFile(fs: seq<File>, f: File): (r: seq<File>)
    ensures forall g :: g in r ==> g in fs || g == f
    ensures forall g :: g in fs ==> g in r
    ensures f in r || exists g :: g in fs && !BySmallest(f, g) && !BySmallest(g, f)
  {
    if fs == [] then [f]
    else if BySmallest(f, fs[0]) then [f] + fs
    else if BySmallest(fs[0], f) then [fs[0]] + InsertFile(fs[1..], f)
    else assert fs[0] in fs; fs
  }

  lemma {:induction false} InsertKeepsSorted(fs: seq<File>, f: File)
    requires SortedBySmallest(fs)
    ensures SortedBySmallest(InsertFile(fs, f))
  {
    if fs != [] && !BySmallest(f, fs[0]) && BySmallest(fs[0], f) {
      InsertKeepsSorted(fs[1..], f);
      var r := InsertFile(fs[1..], f);
      forall i | 0 <= i < |r| ensures BySmallest(fs[0], r[i]) {
        assert r[i] in r;
      }
    }
  }

  /** Files of equal rank have the same number. */
  lemma EqualRank(f: File, g: File)
    requires !BySmallest(f, g) && !BySmallest(g, f)
    ensures f.number == g.number
  {
  }

  // ---------------------------------------------------------------------
  // The meaning of edits, one level at a time
  // ---------------------------------------------------------------------

  /** One edit applied to the files of a level: deletions first, then additions. */
  ghost function Applied(files: set<File>, level: nat, e: VersionEdit): set<File> {
    (set f | f in files && (level, f.number) !in e.deletedFiles) + AddedAt(e, level)
  }

  ghost function AddedAt(e: VersionEdit, level: nat): set<File> {
    set a | a in e.newFiles && a.0 == level :: a.1
  }

  /** A run of edits, each applied to the result of the one before. */
  ghost function AppliedInTurn(files: set<File>, level: nat, edits: seq<VersionEdit>): set<File> {
    if edits == [] then files
    else Applied(AppliedInTurn(files, level, edits[..|edits| - 1]), level, edits[|edits| - 1])
  }

  ghost function FileSet(fs: seq<File>): set<File> {
    set f | f in fs
  }

  /** The files a level of the builder stands for. */
  ghost function Saved(base: seq<File>, s: LevelState): set<File> {
    set f | f in base + s.added && f.number !in s.deleted
  }

  /** A number names one file among the base files and all files the edits add to the level. */
  ghost predicate NumbersName(base: seq<File>, level: nat, edits: seq<VersionEdit>) {
    forall f, g :: f in Mentioned(base, level, edits) && g in Mentioned(base, level, edits) && f.number == g.number ==> f == g
  }

  ghost function Mentioned(base: seq<File>, level: nat, edits: seq<VersionEdit>): set<File> {
    FileSet(base) + (set e, a | e in edits && a in e.newFiles && a.0 == level :: a.1)
  }

  // ---------------------------------------------------------------------
  // The builder
  // ---------------------------------------------------------------------

  /** Adding a list of files to a level: undo the deletion of the number, then insert. */
  function AddFiles(s: LevelState, level: nat, news: seq<(nat, File)>, n: nat): LevelState
    requires n <= |news|
  {
    if n == 0 then s
    else
      var r := AddFiles(s, level, news, n - 1);
      if news[n - 1].0 == level then LevelState(r.deleted - {news[n - 1].1.number}, InsertFile(r.added, news[n - 1].1))
      else r
  }

  /** The level state after one edit. */
  function ApplyLevel(s: LevelState, level: nat, e: VersionEdit): LevelState {
    AddFiles(LevelState(s.deleted + set d | d in e.deletedFiles && d.0 == level :: d.1, s.added), level, e.newFiles, |e.newFiles|)
  }

  function ApplyAll(s: LevelState, level: nat, edits: seq<VersionEdit>): LevelState {
    if edits == [] then s else ApplyLevel(ApplyAll(s, level, edits[..|edits| - 1]), level, edits[|edits| - 1])
  }

  const Empty: LevelState := LevelState({}, [])

  lemma {:induction false} AddFilesEffect(base: seq<File>, s: LevelState, level: nat, e: VersionEdit, edits: seq<VersionEdit>, n: nat)
    requires n <= |e.newFiles| && e in edits && NumbersName(base, level, edits)
    requires forall f :: f in s.added ==> f in Mentioned(base, level, edits)
    ensures var r := AddFiles(s, level, e.newFiles, n);
      && (forall f :: f in r.added ==> f in Mentioned(base, level, edits))
      && (forall f :: f in r.added <==> f in s.added || (level, f) in e.newFiles[..n])
      && (forall k :: k in r.deleted <==> k in s.deleted && forall f :: (level, f) in e.newFiles[..n] ==> f.number != k)
  {
    if n > 0 {
      AddFilesEffect(base, s, level, e, edits, n - 1);
      var a := e.newFiles[n - 1];
      assert e.newFiles[..n] == e.newFiles[..n - 1] + [a];
      var r := AddFiles(s, level, e.newFiles, n - 1);
      if a.0 == level {
        assert a in e.newFiles;
        assert a.1 in Mentioned(base, level, edits);
        forall g | g in r.added && !BySmallest(a.1, g) && !BySmallest(g, a.1) ensures g == a.1 {
          EqualRank(a.1, g);
        }
      }
    }
  }

  /** One edit moves a level of the builder the way it moves the files. */
  lemma ApplyLevelIsApplied(base: seq<File>, s: LevelState, level: nat, e: VersionEdit, edits: seq<VersionEdit>)
    requires e in edits && NumbersName(base, level, edits)
    requires forall f :: f in s.added ==> f in Mentioned(base, level, edits)
    ensures forall f :: f in ApplyLevel(s, level, e).added ==> f in Mentioned(base, level, edits)
    ensures Saved(base, ApplyLevel(s, level, e)) == Applied(Saved(base, s), level, e)
  {
    var d := LevelState(s.deleted + set d | d in e.deletedFiles && d.0 == level :: d.1, s.added);
    AddFilesEffect(base, d, level, e, edits, |e.newFiles|);
    var r := ApplyLevel(s, level, e);
    assert e.newFiles[..|e.newFiles|] == e.newFiles;
    forall f ensures f in Saved(base, r) <==> f in Applied(Saved(base, s), level, e) {
      assert f.number in d.deleted <==> f.number in s.deleted || (level, f.number) in e.deletedFiles;
      if (level, f) in e.newFiles {
        assert f in AddedAt(e, level);
      } else if f in base || f in s.added {
        assert f in Mentioned(base, level, edits);
        forall g | (level, g) in e.newFiles && g.number == f.number ensures g == f {
          assert g in Mentioned(base, level, edits);
        }
      }
    }
  }

  /**
   * Manifest replay: one builder fed a whole run of edits stands for the same files as applying
   * each edit to the result of the one before.
   */
  lemma {:induction false} ReplayIsInTurn(base: seq<File>, level: nat, edits: seq<VersionEdit>, n: nat)
    requires n <= |edits| && NumbersName(base, level, edits)
    ensures forall f :: f in ApplyAll(Empty, level, edits[..n]).added ==> f in Mentioned(base, level, edits)
    ensures Saved(base, ApplyAll(Empty, level, edits[..n])) == AppliedInTurn(FileSet(base), level, edits[..n])
  {
    if n == 0 {
      assert Saved(base, Empty) == FileSet(base);
    } else {
      ReplayIsInTurn(base, level, edits, n - 1);
      assert edits[..n][..n - 1] == edits[..n - 1];
      ApplyLevelIsApplied(base, ApplyAll(Empty, level, edits[..n - 1]), level, edits[n - 1], edits);
    }
  }

  /** Reusing a number for another file breaks the builder: the deleted file comes back. */
  lemma ReusedNumberComesBack(level: nat, f: File, g: File)
    requires f.number == g.number && BySmallest(f, g)
    ensures var add, replace := VersionEdit({}, [(level, f)]), VersionEdit({(level, f.number)}, [(level, g)]);
      && f in Saved([], ApplyLevel(ApplyLevel(Empty, level, add), level, replace))
      && f !in Applied(Applied({}, level, add), level, replace)
  {
    var add, replace := VersionEdit({}, [(level, f)]), VersionEdit({(level, f.number)}, [(level, g)]);
    var s := LevelState({} + set d | d in add.deletedFiles && d.0 == level :: d.1, []);
    assert AddFiles(s, level, add.newFiles, 0) == s;
    var s1 := ApplyLevel(Empty, level, add);
    assert s1.added == [f];
    var t := LevelState(s1.deleted + set d | d in replace.deletedFiles && d.0 == level :: d.1, s1.added);
    assert AddFiles(t, level, replace.newFiles, 0) == t;
    assert f !in AddedAt(replace, level);
  }

  // ---------------------------------------------------------------------
  // Levels in order
  // ---------------------------------------------------------------------

  lemma {:induction false} AddFilesSorted(s: LevelState, level: nat, news: seq<(nat, File)>, n: nat)
    requires n <= |news| && SortedBySmallest(s.added)
    ensures SortedBySmallest(AddFiles(s, level, news, n).added)
    ensures forall g :: g in AddFiles(s, level, news, n).added ==> g in s.added || (level, g) in news
  {
    if n > 0 {
      AddFilesSorted(s, level, news, n - 1);
      if news[n - 1].0 == level {
        InsertKeepsSorted(AddFiles(s, level, news, n - 1).added, news[n - 1].1);
        assert news[n - 1] in news;
      }
    }
  }

  lemma {:induction false} SameMembersSameLevel(fs: seq<File>, gs: seq<File>)
    requires SortedBySmallest(fs) && SortedBySmallest(gs) && forall f :: f in fs <==> f in gs
    ensures fs == gs
  {
    if fs != [] && gs != [] {
      assert fs[0] in gs && gs[0] in fs;
      var i :| 0 <= i < |gs| && gs[i] == fs[0];
      var j :| 0 <= j < |fs| && fs[j] == gs[0];
      FirstIsFirst(fs, j);
      FirstIsFirst(gs, i);
      assert fs[0] == gs[0];
      forall f ensures f in fs[1..] <==> f in gs[1..] {
        TailMembers(fs, f);
        TailMembers(gs, f);
      }
      SameMembersSameLevel(fs[1..], gs[1..]);
    } else {
      NoMembers(fs, gs);
      NoMembers(gs, fs);
    }
  }

  lemma NoMembers(fs: seq<File>, gs: seq<File>)
    requires forall f :: f in fs ==> f in gs
    ensures fs == [] || exists f :: f in gs
  {
    if fs != [] { assert fs[0] in gs; }
  }

  lemma FirstIsFirst(fs: seq<File>, j: nat)
    requires SortedBySmallest(fs) && j < |fs|
    ensures j > 0 ==> BySmallest(fs[0], fs[j]) && !BySmallest(fs[j], fs[0])
  {
  }

  lemma TailMembers(fs: seq<File>, f: File)
    requires SortedBySmallest(fs) && fs != []
    ensures f in fs[1..] <==> f in fs && f != fs[0]
  {
    assert fs == [fs[0]] + fs[1..];
    assert forall i :: 0 <= i < |fs[1..]| ==> BySmallest(fs[0], fs[1..][i]);
  }

  /** The version that an edit makes of another: per level, the files that the edit leaves, in order. */
  ghost predicate Follows(v: Version, w: Version, e: VersionEdit) {
    && |v| == kNumLevels == |w|
    && (forall l :: 0 <= l < kNumLevels ==> SortedBySmallest(w[l]))
    && forall l, f :: 0 <= l < kNumLevels ==>
         (f in w[l] <==> (f in v[l] && (l, f.number) !in e.deletedFiles) || (l, f) in e.newFiles)
  }

  // ---------------------------------------------------------------------
  // The builder as the code runs it
  // ---------------------------------------------------------------------

  class Builder {
    const base: Version
    const levels: array<LevelState>

    constructor (base: Version)
      ensures this.base == base && fresh(levels)
      ensures levels.Length == kNumLevels && forall l :: 0 <= l < kNumLevels ==> levels[l] == Empty
    {
      this.base := base;
      levels := new LevelState[kNumLevels](_ => Empty);
    }

    /** Records the deletions, then inserts the added files one by one. */
    method Apply(e: VersionEdit)
      requires levels.Length == kNumLevels && ValidEdit(e)
      modifies levels
      ensures forall l :: 0 <= l < kNumLevels ==> levels[l] == ApplyLevel(old(levels[l]), l, e)
    {
      ghost var start := levels[..];
      for l := 0 to kNumLevels
        invariant forall m :: 0 <= m < l ==>
          levels[m] == LevelState(start[m].deleted + (set d | d in e.deletedFiles && d.0 == m :: d.1), start[m].added)
        invariant forall m :: l <= m < kNumLevels ==> levels[m] == start[m]
      {
        levels[l] := LevelState(levels[l].deleted + (set d | d in e.deletedFiles && d.0 == l :: d.1), levels[l].added);
      }
      ghost var mid := levels[..];
      for i := 0 to |e.newFiles|
        invariant forall m :: 0 <= m < kNumLevels ==> levels[m] == AddFiles(mid[m], m, e.newFiles, i)
      {
        var level, f := e.newFiles[i].0, e.newFiles[i].1;
        assert e.newFiles[i] in e.newFiles;
        levels[level] := LevelState(levels[level].deleted - {f.number}, InsertFile(levels[level].added, f));
      }
    }

    /** The new version: per level, base and added files merged in order, deleted ones left out. */
    method SaveTo() returns (v: Version)
      requires levels.Length == kNumLevels == |base|
      requires forall l :: 0 <= l < kNumLevels ==> Mergeable(base[l], levels[l].added)
      ensures |v| == kNumLevels
      ensures forall l :: 0 <= l < kNumLevels ==> SortedBySmallest(v[l])
      ensures forall l, f :: 0 <= l < kNumLevels ==> (f in v[l] <==> f in Saved(base[l], levels[l]))
    {
      v := [];
      for l := 0 to kNumLevels
        invariant |v| == l
        invariant forall m :: 0 <= m < l ==> SortedBySmallest(v[m])
        invariant forall m, f :: 0 <= m < l ==> (f in v[m] <==> f in Saved(base[m], levels[m]))
      {
        var files := SaveLevel(base[l], levels[l].added, levels[l].deleted);
        v := v + [files];
      }
    }
  }

  /** Both lists are in order and no added file has the rank of a base file. */
  predicate Mergeable(base: seq<File>, added: seq<File>) {
    && SortedBySmallest(base)
    && SortedBySmallest(added)
    && forall f, g :: f in base && g in added ==> BySmallest(f, g) || BySmallest(g, f)
  }

  /** One level of the merge: before each added file, the base files that sort before it. */
  method SaveLevel(base: seq<File>, added: seq<File>, deleted: set<nat>) returns (files: seq<File>)
    requires Mergeable(base, added)
    ensures SortedBySmallest(files)
    ensures forall f :: f in files <==> (f in base || f in added) && f.number !in deleted
  {
    files := [];
    var b := 0;
    for a := 0 to |added|
      invariant 0 <= b <= |base|
      invariant Merged(base, added, deleted, b, a, files)
    {
      while b < |base| && BySmallest(base[b], added[a])
        invariant 0 <= b <= |base|
        invariant Merged(base, added, deleted, b, a, files)
        {
        MergeBase(base, added, deleted, b, a, files);
        files := MaybeAddFile(files, base[b], deleted);
        b := b + 1;
      }
      assert b < |base| ==> base[b] in base && added[a] in added;
      MergeAdded(base, added, deleted, b, a, files);
      files := MaybeAddFile(files, added[a], deleted);
    }
    while b < |base|
      invariant 0 <= b <= |base|
      invariant Merged(base, added, deleted, b, |added|, files)
    {
      MergeBase(base, added, deleted, b, |added|, files);
      files := MaybeAddFile(files, base[b], deleted);
      b := b + 1;
    }
    assert base[..|base|] == base && added[..|added|] == added;
  }

  function MaybeAddFile(files: seq<File>, f: File, deleted: set<nat>): seq<File> {
    if f.number in deleted then files else files + [f]
  }

  /** Every file so far sorts before the next one of `xs`. */
  predicate BelowNext(files: seq<File>, xs: seq<File>, i: nat) {
    i < |xs| ==> forall f :: f in files ==> BySmallest(f, xs[i])
  }

  /** The merge so far: sorted, made of the first `b` base files and the first `a` added files. */
  ghost predicate Merged(base: seq<File>, added: seq<File>, deleted: set<nat>, b: nat, a: nat, files: seq<File>) {
    && b <= |base| && a <= |added|
    && SortedBySmallest(files)
    && BelowNext(files, base, b) && BelowNext(files, added, a)
    && (forall f :: f in files <==> (f in base[..b] || f in added[..a]) && f.number !in deleted)
  }

  lemma ExtendSorted(files: seq<File>, xs: seq<File>, ys: seq<File>, i: nat, j: nat, deleted: set<nat>)
    requires SortedBySmallest(files) && SortedBySmallest(xs) && i < |xs|
    requires BelowNext(files, xs, i) && BelowNext(files, ys, j)
    requires j < |ys| ==> BySmallest(xs[i], ys[j])
    ensures var r := MaybeAddFile(files, xs[i], deleted);
      SortedBySmallest(r) && BelowNext(r, xs, i + 1) && BelowNext(r, ys, j)
  {
    forall f | f in files && i + 1 < |xs| ensures BySmallest(f, xs[i + 1]) {
      assert BySmallest(f, xs[i]) && BySmallest(xs[i], xs[i + 1]);
    }
  }

  lemma MergeBase(base: seq<File>, added: seq<File>, deleted: set<nat>, b: nat, a: nat, files: seq<File>)
    requires Mergeable(base, added) && Merged(base, added, deleted, b, a, files) && b < |base|
    requires a < |added| ==> BySmallest(base[b], added[a])
    ensures Merged(base, added, deleted, b + 1, a, MaybeAddFile(files, base[b], deleted))
  {
    assert base[..b + 1] == base[..b] + [base[b]];
    assert b + 1 < |base| ==> BySmallest(base[b], base[b + 1]);
    ExtendSorted(files, base, added, b, a, deleted);
  }

  lemma MergeAdded(base: seq<File>, added: seq<File>, deleted: set<nat>, b: nat, a: nat, files: seq<File>)
    requires Mergeable(base, added) && Merged(base, added, deleted, b, a, files) && a < |added|
    requires b < |base| ==> BySmallest(added[a], base[b])
    ensures Merged(base, added, deleted, b, a + 1, MaybeAddFile(files, added[a], deleted))
  {
    assert added[..a + 1] == added[..a] + [added[a]];
    ExtendSorted(files, added, base, a, b, deleted);
  }
}
