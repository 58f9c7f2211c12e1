/** Choosing the inputs of a compaction: db/version_set.cc:1202-1235, 1270-1495 and 1515-1523. */
module Inputs {
  import opened Keys
  import opened Semantics
  import opened Tables
  import opened Versions
  import opened Overlap
  import opened Gaps

  // ---------------------------------------------------------------------
  // Ranges of file lists
  // ---------------------------------------------------------------------

  predicate IsSmallest(fs: seq<File>, k: InternalKey) {
    && (exists f :: f in fs && f.smallest == k)
    && (forall f :: f in fs ==> KeyAtMost(k, f.smallest))
  }

  predicate IsLargest(fs: seq<File>, k: InternalKey) {
    && (exists f :: f in fs && f.largest == k)
    && (forall f :: f in fs ==> KeyAtMost(f.largest, k))
  }

  /** One more file: the range of a list grows to the smaller and the larger of the keys. */
  lemma RangeGrows(fs: seq<File>, a: InternalKey, b: InternalKey, f: File)
    requires IsSmallest(fs, a) && IsLargest(fs, b)
    ensures IsSmallest(fs + [f], if KeyLess(f.smallest, a) then f.smallest else a)
    ensures IsLargest(fs + [f], if KeyLess(b, f.largest) then f.largest else b)
  {
    var first :| first in fs && first.smallest == a;
    var last :| last in fs && last.largest == b;
    assert first in fs + [f] && last in fs + [f] && f in fs + [f];
  }

  /** The least range that covers all files. */
  method GetRange(inputs: seq<File>) returns (smallest: InternalKey, largest: InternalKey)
    requires inputs != []
    ensures IsSmallest(inputs, smallest) && IsLargest(inputs, largest)
  {
    smallest, largest := inputs[0].smallest, inputs[0].largest;
    assert inputs[..1] == [inputs[0]];
    for i := 1 to |inputs|
      invariant IsSmallest(inputs[..i], smallest) && IsLargest(inputs[..i], largest)
    {
      var f := inputs[i];
      assert inputs[..i + 1] == inputs[..i] + [f];
      RangeGrows(inputs[..i], smallest, largest, f);
      if KeyLess(f.smallest, smallest) {
        smallest := f.smallest;
      }
      if KeyLess(largest, f.largest) {
        largest := f.largest;
      }
    }
    assert inputs[..|inputs|] == inputs;
  }

  /** The largest key of a list of files; None for the empty list. */
  method FindLargestKey(files: seq<File>) returns (r: Option<InternalKey>)
    ensures r.None? <==> files == []
    ensures r.Some? ==> IsLargest(files, r.value)
  {
    if files == [] {
      return None;
    }
    var _, largest := GetRange(files);
    r := Some(largest);
  }

  // ---------------------------------------------------------------------
  // Boundary files
  // ---------------------------------------------------------------------

  /** `f` starts after `largest` but with the same user key. */
  predicate Boundary(f: File, largest: InternalKey) {
    KeyLess(largest, f.smallest) && f.smallest.user == largest.user
  }

  predicate NoBoundary(files: seq<File>, largest: InternalKey) {
    forall f :: f in files ==> !Boundary(f, largest)
  }

  method FindSmallestBoundaryFile(levelFiles: seq<File>, largest: InternalKey) returns (r: Option<File>)
    ensures r.None? ==> NoBoundary(levelFiles, largest)
    ensures r.Some? ==> r.value in levelFiles && Boundary(r.value, largest)
    ensures r.Some? ==> forall f :: f in levelFiles && Boundary(f, largest) ==> KeyAtMost(r.value.smallest, f.smallest)
  {
    r := None;
    for i := 0 to |levelFiles|
      invariant r.None? ==> forall f :: f in levelFiles[..i] ==> !Boundary(f, largest)
      invariant r.Some? ==> r.value in levelFiles && Boundary(r.value, largest)
      invariant r.Some? ==>
        forall f :: f in levelFiles[..i] && Boundary(f, largest) ==> KeyAtMost(r.value.smallest, f.smallest)
    {
      var f := levelFiles[i];
      assert levelFiles[..i + 1] == levelFiles[..i] + [f];
      if KeyLess(largest, f.smallest) && f.smallest.user == largest.user {
        if r.None? || KeyLess(f.smallest, r.value.smallest) {
          r := Some(f);
        }
      }
    }
    assert levelFiles[..|levelFiles|] == levelFiles;
  }

  /** A file that lies between two chosen files is chosen. */
  predicate Convex(files: seq<File>, chosen: seq<File>) {
    forall f, g, h ::
      (f in files && g in chosen && h in chosen && KeyLess(g.largest, f.smallest) && KeyLess(f.largest, h.smallest))
      ==> f in chosen
  }

  function CountAfter(files: seq<File>, k: InternalKey): nat {
    if files == [] then 0
    else CountAfter(files[..|files| - 1], k) + if KeyLess(k, files[|files| - 1].smallest) then 1 else 0
  }

  lemma {:induction false} CountAfterDrops(files: seq<File>, f: File, k: InternalKey, strict: bool)
    requires KeyLess(k, f.smallest) && KeyAtMost(f.smallest, f.largest)
    requires strict ==> f in files
    ensures CountAfter(files, f.largest) <= CountAfter(files, k)
    ensures strict ==> CountAfter(files, f.largest) < CountAfter(files, k)
  {
    if files != [] {
      var n := |files| - 1;
      assert files == files[..n] + [files[n]];
      CountAfterDrops(files[..n], f, k, f in files[..n]);
    }
  }

  lemma SpansOrdered(fs: seq<File>)
    requires ValidFiles(fs)
    ensures forall f :: f in fs ==> KeyAtMost(f.smallest, f.largest)
  {
    forall f | f in fs ensures KeyAtMost(f.smallest, f.largest) {
      EntriesInRange(f);
      assert f.entries[0] in f.entries;
    }
  }

  /** What the boundary loop keeps: the choice grows inside the level and stays convex and sorted. */
  ghost predicate Grown(levelFiles: seq<File>, from: seq<File>, to: seq<File>, largest: InternalKey) {
    && from <= to
    && (forall f :: f in to ==> f in levelFiles)
    && IsLargest(to, largest)
    && (SortedLevel(levelFiles) && Convex(levelFiles, from) ==> Convex(levelFiles, to))
    && (SortedLevel(from) ==> SortedLevel(to))
    && Linked(from, to)
  }

  lemma GrownStep(levelFiles: seq<File>, from: seq<File>, to: seq<File>, largest: InternalKey, b: File)
    requires ValidFiles(levelFiles) && Grown(levelFiles, from, to, largest)
    requires b in levelFiles && Boundary(b, largest)
    requires forall f :: f in levelFiles && Boundary(f, largest) ==> KeyAtMost(b.smallest, f.smallest)
    ensures Grown(levelFiles, from, to + [b], b.largest)
  {
    SpansOrdered(levelFiles);
    if SortedLevel(levelFiles) && Convex(levelFiles, from) {
      BoundaryKeepsConvex(levelFiles, to, largest, b);
    }
    TopMoves(to, largest, b);
    LinkGrows(from, to, largest, b);
    if SortedLevel(from) {
      SortedGrows(to, largest, b);
    }
  }

  lemma TopMoves(to: seq<File>, largest: InternalKey, b: File)
    requires IsLargest(to, largest) && Boundary(b, largest) && KeyAtMost(b.smallest, b.largest)
    ensures IsLargest(to + [b], b.largest)
  {
    assert b in to + [b];
  }

  lemma SortedGrows(to: seq<File>, largest: InternalKey, b: File)
    requires SortedLevel(to) && IsLargest(to, largest) && Boundary(b, largest)
    ensures SortedLevel(to + [b])
  {
    forall i | 0 <= i < |to| ensures KeyLess(to[i].largest, b.smallest) {
      assert to[i] in to;
    }
  }

  lemma LinkGrows(from: seq<File>, to: seq<File>, largest: InternalKey, b: File)
    requires Linked(from, to) && IsLargest(to, largest) && Boundary(b, largest)
    ensures Linked(from, to + [b])
  {
    var r := to + [b];
    assert EndsAt(to, b.smallest.user);
    forall i | |from| <= i < |r| ensures EndsAt(r[..i], r[i].smallest.user) {
      assert i < |to| ==> r[..i] == to[..i];
      assert i == |to| ==> r[..i] == to;
    }
  }

  lemma BoundaryKeepsConvex(levelFiles: seq<File>, chosen: seq<File>, largest: InternalKey, b: File)
    requires ValidFiles(levelFiles) && SortedLevel(levelFiles) && Convex(levelFiles, chosen)
    requires forall f :: f in chosen ==> f in levelFiles
    requires IsLargest(chosen, largest)
    requires b in levelFiles && Boundary(b, largest)
    requires forall f :: f in levelFiles && Boundary(f, largest) ==> KeyAtMost(b.smallest, f.smallest)
    ensures Convex(levelFiles, chosen + [b])
  {
    SpansOrdered(levelFiles);
    forall f, g, h | f in levelFiles && g in chosen + [b] && h in chosen + [b] &&
        KeyLess(g.largest, f.smallest) && KeyLess(f.largest, h.smallest)
      ensures f in chosen + [b]
    {
      if h == b && f != b { BelowBoundary(levelFiles, chosen, largest, b, f, g); }
    }
  }

  /** A file between a chosen one and the boundary file is the last chosen one or lies before it. */
  lemma BelowBoundary(levelFiles: seq<File>, chosen: seq<File>, largest: InternalKey, b: File, f: File, g: File)
    requires SortedLevel(levelFiles) && Convex(levelFiles, chosen) && IsLargest(chosen, largest)
    requires forall c :: c in chosen ==> c in levelFiles
    requires forall c :: c in levelFiles ==> KeyAtMost(c.smallest, c.largest)
    requires b in levelFiles && Boundary(b, largest)
    requires forall c :: c in levelFiles && Boundary(c, largest) ==> KeyAtMost(b.smallest, c.smallest)
    requires f in levelFiles && f != b && g in chosen + [b] && KeyLess(g.largest, f.smallest) && KeyLess(f.largest, b.smallest)
    ensures f in chosen
  {
    var top :| top in chosen && top.largest == largest;
    if f != top {
      SortedPair(levelFiles, top, f);
      assert KeyLess(top.largest, f.smallest) ==> Boundary(f, largest);
      assert g == b ==> KeyLess(b.largest, b.smallest);
    }
  }

  /** The boundary file that comes next: the one with the least start behind the largest key. */
  ghost predicate NextBoundary(levelFiles: seq<File>, chosen: seq<File>, b: File) {
    exists k :: IsLargest(chosen, k) && b in levelFiles && Boundary(b, k) &&
      forall f :: f in levelFiles && Boundary(f, k) ==> KeyAtMost(b.smallest, f.smallest)
  }

  ghost predicate Chained(levelFiles: seq<File>, from: seq<File>, to: seq<File>) {
    from <= to && forall i :: |from| <= i < |to| ==> NextBoundary(levelFiles, to[..i], to[i])
  }

  /** One boundary file after the other, until there is none. */
  ghost predicate WithBoundaries(levelFiles: seq<File>, from: seq<File>, to: seq<File>) {
    Chained(levelFiles, from, to) && forall k :: IsLargest(to, k) ==> NoBoundary(levelFiles, k)
  }

  lemma ChainGrows(levelFiles: seq<File>, from: seq<File>, to: seq<File>, largest: InternalKey, b: File)
    requires Chained(levelFiles, from, to) && IsLargest(to, largest) && b in levelFiles && Boundary(b, largest)
    requires forall f :: f in levelFiles && Boundary(f, largest) ==> KeyAtMost(b.smallest, f.smallest)
    ensures Chained(levelFiles, from, to + [b])
  {
    var r := to + [b];
    assert NextBoundary(levelFiles, to, b);
    forall i | |from| <= i < |r| ensures NextBoundary(levelFiles, r[..i], r[i]) {
      assert i < |to| ==> r[..i] == to[..i];
      assert i == |to| ==> r[..i] == to;
    }
  }

  lemma OneLargest(fs: seq<File>, a: InternalKey, b: InternalKey)
    requires IsLargest(fs, a) && IsLargest(fs, b)
    ensures a == b
  {
  }

  /**
   * Adds boundary files until none is left. In a sorted level this keeps the choice convex and
   * sorted.
   */
  method AddBoundaryInputs(levelFiles: seq<File>, compactionFiles: seq<File>) returns (r: seq<File>)
    requires ValidFiles(levelFiles)
    requires forall f :: f in compactionFiles ==> f in levelFiles
    ensures compactionFiles == [] ==> r == []
    ensures compactionFiles != [] ==> exists k :: Grown(levelFiles, compactionFiles, r, k) && NoBoundary(levelFiles, k)
    ensures r != compactionFiles ==> exists k :: IsLargest(compactionFiles, k) && !NoBoundary(levelFiles, k)
    ensures WithBoundaries(levelFiles, compactionFiles, r)
  {
    r := compactionFiles;
    var start := FindLargestKey(compactionFiles);
    if start.None? {
      return;
    }
    var largest := start.value;
    var continueSearching := true;
    while continueSearching
      invariant Grown(levelFiles, compactionFiles, r, largest) && Chained(levelFiles, compactionFiles, r)
      invariant !continueSearching ==> NoBoundary(levelFiles, largest)
      invariant r == compactionFiles ==> largest == start.value
      invariant r != compactionFiles ==> !NoBoundary(levelFiles, start.value)
      decreases continueSearching, CountAfter(levelFiles, largest)
    {
      var next := FindSmallestBoundaryFile(levelFiles, largest);
      if next.Some? {
        GrownStep(levelFiles, compactionFiles, r, largest, next.value);
        ChainGrows(levelFiles, compactionFiles, r, largest, next.value);
        SpansOrdered(levelFiles);
        CountAfterDrops(levelFiles, next.value, largest, true);
        r := r + [next.value];
        largest := next.value.largest;
      } else {
        continueSearching := false;
      }
    }
    forall k | IsLargest(r, k) ensures NoBoundary(levelFiles, k) {
      OneLargest(r, k, largest);
    }
  }

  lemma SortedPair(files: seq<File>, f: File, g: File)
    requires SortedLevel(files) && f in files && g in files && f != g
    ensures KeyLess(f.largest, g.smallest) || KeyLess(g.largest, f.smallest)
  {
  }

  // ---------------------------------------------------------------------
  // What a choice of inputs must satisfy
  // ---------------------------------------------------------------------

  /** No unchosen file of the level holds an entry older than a chosen entry of its user key. */
  ghost predicate LevelClosed(files: seq<File>, chosen: seq<File>) {
    forall f, g :: f in files && f !in chosen && g in chosen ==> NewerThan(f, g)
  }

  /** In a sorted level, a convex choice without boundary files is closed. */
  lemma ConvexIsClosed(files: seq<File>, chosen: seq<File>, k: InternalKey)
    requires ValidFiles(files) && SortedLevel(files) && Convex(files, chosen)
    requires forall f :: f in chosen ==> f in files
    requires UniqueSeqnos(FileEntries(files))
    requires IsLargest(chosen, k) && NoBoundary(files, k)
    ensures LevelClosed(files, chosen)
  {
    forall f, g | f in files && f !in chosen && g in chosen ensures NewerThan(f, g) {
      UnchosenIsNewer(files, chosen, k, f, g);
    }
  }

  lemma UnchosenIsNewer(files: seq<File>, chosen: seq<File>, k: InternalKey, f: File, g: File)
    requires ValidFiles(files) && SortedLevel(files) && Convex(files, chosen)
    requires forall h :: h in chosen ==> h in files
    requires UniqueSeqnos(FileEntries(files))
    requires IsLargest(chosen, k) && NoBoundary(files, k)
    requires f in files && f !in chosen && g in chosen
    ensures NewerThan(f, g)
  {
    SortedPair(files, f, g);
    if KeyLess(f.largest, g.smallest) {
      forall x, y | x in f.entries && y in g.entries && x.seqno == y.seqno ensures x == y {
        FileEntriesOf(files, f, x);
        FileEntriesOf(files, g, y);
      }
      BeforeIsNewer(f, g);
    } else {
      var top :| top in chosen && top.largest == k;
      SortedPair(files, f, top);
      assert KeyLess(k, f.smallest);
      EntriesInRange(f);
      EntriesInRange(g);
      assert !Boundary(f, k);
    }
  }

  /** A level-zero choice: everything that meets a range closed under overlap. */
  ghost predicate ClosedChoice(files: seq<File>, chosen: seq<File>) {
    exists lo: Bound, hi: Bound :: Closed(files, lo, hi) && chosen == Select(files, lo, hi)
  }

  lemma ClosedChoiceIsClosed(files: seq<File>, chosen: seq<File>)
    requires ValidFiles(files) && ClosedChoice(files, chosen)
    ensures LevelClosed(files, chosen)
  {
    var lo: Bound, hi: Bound :| Closed(files, lo, hi) && chosen == Select(files, lo, hi);
    ValidFilesAreOrdered(files);
    forall f, g | f in files && f !in chosen && g in chosen ensures NewerThan(f, g) {
      ClosedSeparates(files, lo, hi, g, f);
      DisjointIsNewer(f, g);
    }
  }

  /** A level-zero choice has no boundary files: they would have met the range. */
  lemma ClosedChoiceHasNoBoundary(files: seq<File>, chosen: seq<File>, k: InternalKey)
    requires ValidFiles(files) && ClosedChoice(files, chosen) && IsLargest(chosen, k)
    ensures NoBoundary(files, k)
  {
    var lo: Bound, hi: Bound :| Closed(files, lo, hi) && chosen == Select(files, lo, hi);
    ValidFilesAreOrdered(files);
    SpansOrdered(files);
    var top :| top in chosen && top.largest == k;
    assert Ordered(top);
    forall f | f in files ensures !Boundary(f, k) {
      assert Ordered(f);
      assert Boundary(f, k) ==> Meets(f, lo, hi);
    }
  }

  /** The first choice of files at `level`, before boundary files are added. */
  ghost predicate Seed(v: Version, level: nat, chosen: seq<File>) {
    && level + 1 < |v|
    && chosen != []
    && (forall f :: f in chosen ==> f in v[level])
    && (if level == 0 then ClosedChoice(v[0], chosen) else Convex(v[level], chosen) && SortedLevel(chosen))
  }

  /** All level+1 files that meet the user-key range of the chosen files of `level`. */
  ghost predicate NextLevelChosen(v: Version, level: nat, inputs0: seq<File>, inputs1: seq<File>) {
    && level + 1 < |v|
    && exists a, b :: IsSmallest(inputs0, a) && IsLargest(inputs0, b) &&
         inputs1 == Select(v[level + 1], Some(a.user), Some(b.user))
  }

  /** What every compaction can rely on about its inputs. */
  ghost predicate Selected(v: Version, level: nat, inputs0: seq<File>, inputs1: seq<File>) {
    && Seed(v, level, inputs0)
    && LevelClosed(v[level], inputs0)
    && NextLevelChosen(v, level, inputs0, inputs1)
  }

  lemma LevelSeqnosUnique(v: Version, level: nat)
    requires UniqueSeqnos(VersionEntries(v)) && level < |v|
    ensures UniqueSeqnos(FileEntries(v[level]))
  {
    forall x | x in FileEntries(v[level]) ensures x in VersionEntries(v) {
      var f := FileOfEntry(v[level], x);
      VersionEntriesOf(v, level, f, x);
    }
  }

  /** Boundary files turn a seed into a closed choice of the level. */
  method CloseSeed(v: Version, level: nat, seed: seq<File>) returns (inputs0: seq<File>)
    requires ValidVersion(v) && UniqueSeqnos(VersionEntries(v)) && Seed(v, level, seed)
    ensures Seed(v, level, inputs0) && LevelClosed(v[level], inputs0)
    ensures Linked(seed, inputs0) && WithBoundaries(v[level], seed, inputs0)
  {
    inputs0 := AddBoundaryInputs(v[level], seed);
    if level == 0 {
      forall k | IsLargest(seed, k) ensures NoBoundary(v[0], k) {
        ClosedChoiceHasNoBoundary(v[0], seed, k);
      }
      ClosedChoiceIsClosed(v[0], inputs0);
    } else {
      LevelSeqnosUnique(v, level);
      ghost var k :| Grown(v[level], seed, inputs0, k) && NoBoundary(v[level], k);
      ConvexIsClosed(v[level], inputs0, k);
    }
  }

  lemma {:induction false} SelectIsSorted(files: seq<File>, lo: Bound, hi: Bound)
    requires SortedLevel(files)
    ensures SortedLevel(Select(files, lo, hi))
  {
    if files != [] {
      var n := |files| - 1;
      SelectIsSorted(files[..n], lo, hi);
      var rest := Select(files[..n], lo, hi);
      forall i | 0 <= i < |rest| ensures KeyLess(rest[i].largest, files[n].smallest) {
        assert rest[i] in rest;
        assert rest[i] in files[..n];
      }
    }
  }

  lemma {:induction false} SelectIsConvex(files: seq<File>, lo: Bound, hi: Bound)
    requires ValidFiles(files)
    ensures Convex(files, Select(files, lo, hi))
  {
    ValidFilesAreOrdered(files);
    forall f, g, h | f in files && g in Select(files, lo, hi) && h in Select(files, lo, hi) &&
        KeyLess(g.largest, f.smallest) && KeyLess(f.largest, h.smallest)
      ensures f in Select(files, lo, hi)
    {
      assert Ordered(f);
    }
  }

  /** A manual compaction of a sorted level may keep only the first part of its selection. */
  lemma PrefixIsConvex(files: seq<File>, lo: Bound, hi: Bound, n: nat)
    requires ValidFiles(files) && SortedLevel(files) && n <= |Select(files, lo, hi)|
    ensures Convex(files, Select(files, lo, hi)[..n]) && SortedLevel(Select(files, lo, hi)[..n])
  {
    var all := Select(files, lo, hi);
    SelectIsSorted(files, lo, hi);
    SelectIsConvex(files, lo, hi);
    forall f, g, h | f in files && g in all[..n] && h in all[..n] &&
        KeyLess(g.largest, f.smallest) && KeyLess(f.largest, h.smallest)
      ensures f in all[..n]
    {
      assert g in all && h in all;
      BeforeIsInPrefix(all, n, f, h);
    }
  }

  lemma BeforeIsInPrefix(fs: seq<File>, n: nat, f: File, h: File)
    requires ValidFiles(fs) && SortedLevel(fs) && n <= |fs| && f in fs && h in fs[..n] && KeyLess(f.largest, h.smallest)
    ensures f in fs[..n]
  {
    SpansOrdered(fs);
    var p :| 0 <= p < |fs| && fs[p] == f;
    var q :| 0 <= q < n && fs[q] == h;
    assert p >= n ==> KeyLess(h.largest, f.smallest);
    assert ValidFile(f) && ValidFile(h);
  }

  /** The range that GetOverlappingInputs ends with. */
  ghost predicate LeastSelection(v: Version, level: nat, begin: Bound, end: Bound, lo: Bound, hi: Bound) {
    && level < |v|
    && Covers(lo, hi, begin, end) && (lo.None? <==> begin.None?) && (hi.None? <==> end.None?)
    && (if level == 0 then Closed(v[0], lo, hi) && Least(v[0], begin, end, lo, hi) else lo == begin && hi == end)
  }

  /** Everything that meets a range is a seed, once there is something. */
  method SelectSeed(v: Version, level: nat, begin: Bound, end: Bound)
      returns (seed: seq<File>, ghost lo: Bound, ghost hi: Bound)
    requires ValidVersion(v) && level + 1 < kNumLevels
    ensures seed != [] ==> Seed(v, level, seed)
    ensures forall f :: f in v[level] && Meets(f, begin, end) ==> f in seed
    ensures seed == Select(v[level], lo, hi)
    ensures LeastSelection(v, level, begin, end, lo, hi)
  {
    ValidFilesAreOrdered(v[level]);
    seed, lo, hi := GetOverlappingInputs(level == 0, v[level], begin, end);
    if level > 0 {
      SelectIsConvex(v[level], lo, hi);
      SelectIsSorted(v[level], lo, hi);
    }
  }

  // ---------------------------------------------------------------------
  // SetupOtherInputs
  // ---------------------------------------------------------------------

  /** The level+1 files for a closed choice of the level. */
  method ChooseNextLevel(v: Version, level: nat, inputs0: seq<File>) returns (inputs1: seq<File>)
    requires ValidVersion(v) && Seed(v, level, inputs0) && LevelClosed(v[level], inputs0)
    ensures Selected(v, level, inputs0, inputs1)
  {
    var smallest, largest := GetRange(inputs0);
    ValidFilesAreOrdered(v[level + 1]);
    var met, _, _ := GetOverlappingInputs(false, v[level + 1], Some(smallest.user), Some(largest.user));
    inputs1 := met;
  }

  /** Files that meet the range of a gapless list leave no gap either. */
  lemma SelectionIsGapless(v: Version, level: nat, fs: seq<File>, a: InternalKey, b: InternalKey, lo: Bound, hi: Bound)
    requires level < |v| && OrderedFiles(v[level]) && OrderedFiles(fs) && fs != []
    requires Gapless(fs) && IsSmallest(fs, a) && IsLargest(fs, b)
    requires LeastSelection(v, level, Some(a.user), Some(b.user), lo, hi)
    ensures Gapless(fs + Select(v[level], lo, hi))
  {
    if level == 0 {
      ClosureIsGapless(v[0], fs, a.user, b.user, lo, hi);
    } else {
      forall h | h in Select(v[level], lo, hi) ensures MeetsHull(h, fs) {
        assert Meets(h, Some(a.user), Some(b.user));
      }
      GaplessGrows(fs, Select(v[level], lo, hi));
    }
  }

  /** A wider choice of the level meets at least the same level+1 files. */
  lemma NextLevelGrows(v: Version, level: nat, a0: seq<File>, a1: seq<File>, b0: seq<File>, b1: seq<File>)
    requires NextLevelChosen(v, level, a0, a1) && NextLevelChosen(v, level, b0, b1)
    requires forall f :: f in a0 ==> f in b0
    ensures forall f :: f in a1 ==> f in b1
  {
    var al, ah :| IsSmallest(a0, al) && IsLargest(a0, ah) && a1 == Select(v[level + 1], Some(al.user), Some(ah.user));
    var bl, bh :| IsSmallest(b0, bl) && IsLargest(b0, bh) && b1 == Select(v[level + 1], Some(bl.user), Some(bh.user));
    RangeWidens(a0, b0, al, ah, bl, bh);
    WiderSelects(v[level + 1], al.user, ah.user, bl.user, bh.user);
  }

  lemma RangeWidens(a0: seq<File>, b0: seq<File>, al: InternalKey, ah: InternalKey, bl: InternalKey, bh: InternalKey)
    requires IsSmallest(a0, al) && IsLargest(a0, ah) && IsSmallest(b0, bl) && IsLargest(b0, bh)
    requires forall f :: f in a0 ==> f in b0
    ensures bl.user <= al.user && ah.user <= bh.user
  {
    var fl :| fl in a0 && fl.smallest == al;
    var fh :| fh in a0 && fh.largest == ah;
    assert fl in b0 && fh in b0;
  }

  lemma WiderSelects(files: seq<File>, al: UserKey, ah: UserKey, bl: UserKey, bh: UserKey)
    requires bl <= al && ah <= bh
    ensures forall f :: f in Select(files, Some(al), Some(ah)) ==> f in Select(files, Some(bl), Some(bh))
  {
  }

  /** The level+1 files meet the range of the chosen files. */
  lemma NextLevelMeetsHull(v: Version, level: nat, a0: seq<File>, a1: seq<File>, fs: seq<File>)
    requires NextLevelChosen(v, level, a0, a1) && forall f :: f in a0 ==> f in fs
    ensures forall h :: h in a1 ==> MeetsHull(h, fs)
  {
    var al, ah :| IsSmallest(a0, al) && IsLargest(a0, ah) && a1 == Select(v[level + 1], Some(al.user), Some(ah.user));
    forall h | h in a1 ensures MeetsHull(h, fs) {
      assert Meets(h, Some(al.user), Some(ah.user));
    }
  }

  lemma ChoiceIsGapless(v: Version, level: nat, seed: seq<File>, in0: seq<File>, in1: seq<File>)
    requires level + 1 < |v| && ValidFiles(v[level]) && ValidFiles(v[level + 1])
    requires NextLevelChosen(v, level, in0, in1) && forall f :: f in in0 ==> f in v[level]
    requires Linked(seed, in0) && Gapless(seed)
    ensures Gapless(in0 + in1)
  {
    ValidFilesAreOrdered(v[level]);
    ValidFilesAreOrdered(v[level + 1]);
    assert [] + seed == seed && [] + in0[..|in0|] == in0;
    LinkedKeepsGapless([], seed, in0, |in0|);
    NextLevelMeetsHull(v, level, in0, in1, in0);
    GaplessGrows(in0, in1);
  }

  lemma ExpansionIsGapless(v: Version, level: nat, in0: seq<File>, in1: seq<File>, wider: seq<File>,
                           e0: seq<File>, e1: seq<File>)
    requires ValidVersion(v) && Selected(v, level, in0, in1) && Selected(v, level, e0, e1)
    requires Gapless(in0 + in1 + wider) && Linked(wider, e0) && forall f :: f in in0 ==> f in wider
    ensures Gapless(e0 + e1)
  {
    var all := in0 + in1;
    ValidFilesAreOrdered(v[level]);
    ValidFilesAreOrdered(v[level + 1]);
    assert OrderedFiles(all) && OrderedFiles(e0) && OrderedFiles(e1) && e0[..|e0|] == e0;
    LinkedKeepsGapless(all, wider, e0, |e0|);
    NextLevelMeetsHull(v, level, e0, e1, all + e0);
    GaplessGrows(all + e0, e1);
    PrefixMembers(wider, e0);
    NextLevelGrows(v, level, in0, in1, e0, e1);
    GaplessMembers(all + e0 + e1, e0 + e1);
  }

  /** Everything at the level that meets the range of all inputs so far. */
  method WidenSeed(v: Version, level: nat, inputs0: seq<File>, inputs1: seq<File>) returns (seed: seq<File>)
    requires ValidVersion(v) && level + 1 < kNumLevels
    requires inputs0 != [] && forall f :: f in inputs0 ==> f in v[level]
    requires OrderedFiles(inputs1)
    ensures Seed(v, level, seed) && RangeSeed(v, level, inputs0 + inputs1, seed)
    ensures forall f :: f in inputs0 ==> f in seed
    ensures Gapless(inputs0 + inputs1) ==> Gapless(inputs0 + inputs1 + seed)
  {
    var allStart, allLimit := GetRange(inputs0 + inputs1);
    ghost var lo, hi;
    seed, lo, hi := SelectSeed(v, level, Some(allStart.user), Some(allLimit.user));
    ValidFilesAreOrdered(v[level]);
    assert OrderedFiles(inputs0 + inputs1);
    if Gapless(inputs0 + inputs1) {
      SelectionIsGapless(v, level, inputs0 + inputs1, allStart, allLimit, lo, hi);
    }
    SeedMeetsItsRange(v, level, inputs0, inputs1, allStart, allLimit);
    assert inputs0[0] in inputs0;
  }

  /** The choice of the level that the range of all files gives. */
  ghost predicate WiderChoice(v: Version, level: nat, all: seq<File>, e0: seq<File>) {
    level < |v| && exists seed :: RangeSeed(v, level, all, seed) && WithBoundaries(v[level], seed, e0)
  }

  /** What GetOverlappingInputs finds for the range of the files. */
  ghost predicate RangeSeed(v: Version, level: nat, fs: seq<File>, seed: seq<File>) {
    exists a, b, lo, hi :: IsSmallest(fs, a) && IsLargest(fs, b) &&
      LeastSelection(v, level, Some(a.user), Some(b.user), lo, hi) && seed == Select(v[level], lo, hi)
  }

  /** More files of the level, within the byte limit, and not one more of level+1. */
  predicate Pays(in0: seq<File>, in1: seq<File>, e0: seq<File>, e1: seq<File>, expandedByteSizeLimit: nat) {
    |e0| > |in0| && TotalFileSize(in1) + TotalFileSize(e0) < expandedByteSizeLimit && |e1| == |in1|
  }

  /** The wider choice if it pays, and otherwise what there was. */
  ghost predicate Expanded(v: Version, level: nat, in0: seq<File>, in1: seq<File>, expandedByteSizeLimit: nat, r0: seq<File>, r1: seq<File>) {
    exists e0 :: WiderChoice(v, level, in0 + in1, e0) &&
      if exists e1 :: NextLevelChosen(v, level, e0, e1) && Pays(in0, in1, e0, e1, expandedByteSizeLimit)
      then r0 == e0 && NextLevelChosen(v, level, e0, r1)
      else r0 == in0 && r1 == in1
  }

  lemma OneNextLevel(v: Version, level: nat, inputs0: seq<File>, a: seq<File>, b: seq<File>)
    requires NextLevelChosen(v, level, inputs0, a) && NextLevelChosen(v, level, inputs0, b)
    ensures a == b
  {
    var al, ah :| IsSmallest(inputs0, al) && IsLargest(inputs0, ah) && a == Select(v[level + 1], Some(al.user), Some(ah.user));
    var bl, bh :| IsSmallest(inputs0, bl) && IsLargest(inputs0, bh) && b == Select(v[level + 1], Some(bl.user), Some(bh.user));
    OneLargest(inputs0, ah, bh);
  }

  /** The one choice of inputs for a seed. */
  ghost predicate SetUp(v: Version, level: nat, seed: seq<File>, expandedByteSizeLimit: nat, r0: seq<File>, r1: seq<File>) {
    level < |v| &&
    exists in0, in1 :: WithBoundaries(v[level], seed, in0) && NextLevelChosen(v, level, in0, in1) &&
      if in1 == [] then r0 == in0 && r1 == in1 else Expanded(v, level, in0, in1, expandedByteSizeLimit, r0, r1)
  }

  lemma WiderPays(v: Version, level: nat, in0: seq<File>, in1: seq<File>, expandedByteSizeLimit: nat, e0: seq<File>, e1: seq<File>)
    requires WiderChoice(v, level, in0 + in1, e0) && NextLevelChosen(v, level, e0, e1)
    ensures if Pays(in0, in1, e0, e1, expandedByteSizeLimit) then Expanded(v, level, in0, in1, expandedByteSizeLimit, e0, e1)
            else Expanded(v, level, in0, in1, expandedByteSizeLimit, in0, in1)
  {
    forall x | NextLevelChosen(v, level, e0, x) ensures x == e1 {
      OneNextLevel(v, level, e0, x, e1);
    }
  }

  lemma WiderTooLarge(v: Version, level: nat, in0: seq<File>, in1: seq<File>, expandedByteSizeLimit: nat, e0: seq<File>)
    requires WiderChoice(v, level, in0 + in1, e0)
    requires !(|e0| > |in0| && TotalFileSize(in1) + TotalFileSize(e0) < expandedByteSizeLimit)
    ensures Expanded(v, level, in0, in1, expandedByteSizeLimit, in0, in1)
  {
  }

  lemma WiderFrom(v: Version, level: nat, all: seq<File>, seed: seq<File>, e0: seq<File>)
    requires level < |v| && RangeSeed(v, level, all, seed) && WithBoundaries(v[level], seed, e0)
    ensures WiderChoice(v, level, all, e0)
  {
  }

  lemma SetUpFrom(v: Version, level: nat, seed: seq<File>, expandedByteSizeLimit: nat, in0: seq<File>, in1: seq<File>, r0: seq<File>, r1: seq<File>)
    requires level < |v| && WithBoundaries(v[level], seed, in0) && NextLevelChosen(v, level, in0, in1)
    requires if in1 == [] then r0 == in0 && r1 == in1 else Expanded(v, level, in0, in1, expandedByteSizeLimit, r0, r1)
    ensures SetUp(v, level, seed, expandedByteSizeLimit, r0, r1)
  {
  }

  method ChooseWider(v: Version, level: nat, inputs0: seq<File>, inputs1: seq<File>) returns (expanded0: seq<File>, ghost wider: seq<File>)
    requires ValidVersion(v) && UniqueSeqnos(VersionEntries(v)) && Selected(v, level, inputs0, inputs1)
    ensures Seed(v, level, expanded0) && LevelClosed(v[level], expanded0) && Linked(wider, expanded0)
    ensures WiderChoice(v, level, inputs0 + inputs1, expanded0)
    ensures forall f :: f in inputs0 ==> f in wider && f in expanded0
    ensures Gapless(inputs0 + inputs1) ==> Gapless(inputs0 + inputs1 + wider)
  {
    ValidFilesAreOrdered(v[level + 1]);
    var seed := WidenSeed(v, level, inputs0, inputs1);
    expanded0 := CloseSeed(v, level, seed);
    wider := seed;
    PrefixMembers(seed, expanded0);
    WiderFrom(v, level, inputs0 + inputs1, seed, expanded0);
  }

  /** A wider choice of the level, taken if it costs no further level+1 file and not too many bytes. */
  method TryExpand(v: Version, level: nat, inputs0: seq<File>, inputs1: seq<File>, expandedByteSizeLimit: nat)
      returns (r0: seq<File>, r1: seq<File>)
    requires ValidVersion(v) && UniqueSeqnos(VersionEntries(v)) && Selected(v, level, inputs0, inputs1)
    ensures Selected(v, level, r0, r1) && Expanded(v, level, inputs0, inputs1, expandedByteSizeLimit, r0, r1)
    ensures forall f :: f in inputs0 ==> f in r0
    ensures Gapless(inputs0 + inputs1) ==> Gapless(r0 + r1)
  {
    r0, r1 := inputs0, inputs1;
    var expanded0, wider := ChooseWider(v, level, inputs0, inputs1);
    if |expanded0| > |inputs0| && TotalFileSize(inputs1) + TotalFileSize(expanded0) < expandedByteSizeLimit {
      r0, r1 := TakeIfFree(v, level, inputs0, inputs1, expandedByteSizeLimit, wider, expanded0);
    } else {
      WiderTooLarge(v, level, inputs0, inputs1, expandedByteSizeLimit, expanded0);
    }
  }

  /** The wider choice, unless it meets more level+1 files. */
  method TakeIfFree(v: Version, level: nat, inputs0: seq<File>, inputs1: seq<File>, ghost expandedByteSizeLimit: nat,
                    ghost wider: seq<File>, expanded0: seq<File>) returns (r0: seq<File>, r1: seq<File>)
    requires ValidVersion(v) && Selected(v, level, inputs0, inputs1)
    requires Seed(v, level, expanded0) && LevelClosed(v[level], expanded0) && Linked(wider, expanded0)
    requires WiderChoice(v, level, inputs0 + inputs1, expanded0)
    requires forall f :: f in inputs0 ==> f in wider && f in expanded0
    requires Gapless(inputs0 + inputs1) ==> Gapless(inputs0 + inputs1 + wider)
    requires |expanded0| > |inputs0| && TotalFileSize(inputs1) + TotalFileSize(expanded0) < expandedByteSizeLimit
    ensures Selected(v, level, r0, r1) && Expanded(v, level, inputs0, inputs1, expandedByteSizeLimit, r0, r1)
    ensures forall f :: f in inputs0 ==> f in r0
    ensures Gapless(inputs0 + inputs1) ==> Gapless(r0 + r1)
  {
    var expanded1 := ChooseNextLevel(v, level, expanded0);
    WiderPays(v, level, inputs0, inputs1, expandedByteSizeLimit, expanded0, expanded1);
    if |expanded1| == |inputs1| {
      r0, r1 := expanded0, expanded1;
      if Gapless(inputs0 + inputs1) {
        ExpansionIsGapless(v, level, inputs0, inputs1, wider, expanded0, expanded1);
      }
    } else {
      r0, r1 := inputs0, inputs1;
    }
  }

  lemma PrefixMembers(a: seq<File>, b: seq<File>)
    requires a <= b
    ensures forall f :: f in a ==> f in b
  {
  }

  /** The level+2 files that the whole range meets. */
  ghost predicate Grandparents(v: Version, level: nat, inputs: seq<File>, grandparents: seq<File>) {
    if level + 2 < |v|
    then exists a, b :: IsSmallest(inputs, a) && IsLargest(inputs, b) && grandparents == Select(v[level + 2], Some(a.user), Some(b.user))
    else grandparents == []
  }

  method FindGrandparents(v: Version, level: nat, inputs: seq<File>) returns (grandparents: seq<File>)
    requires ValidVersion(v) && inputs != []
    ensures Grandparents(v, level, inputs, grandparents)
  {
    grandparents := [];
    var allStart, allLimit := GetRange(inputs);
    if level + 2 < kNumLevels {
      ValidFilesAreOrdered(v[level + 2]);
      var met, _, _ := GetOverlappingInputs(false, v[level + 2], Some(allStart.user), Some(allLimit.user));
      grandparents := met;
    }
  }

  method ChooseInputs(v: Version, level: nat, seed: seq<File>, expandedByteSizeLimit: nat) returns (inputs0: seq<File>, inputs1: seq<File>)
    requires ValidVersion(v) && UniqueSeqnos(VersionEntries(v)) && Seed(v, level, seed)
    ensures Selected(v, level, inputs0, inputs1) && SetUp(v, level, seed, expandedByteSizeLimit, inputs0, inputs1)
    ensures forall f :: f in seed ==> f in inputs0
    ensures Gapless(seed) ==> Gapless(inputs0 + inputs1)
  {
    inputs0 := CloseSeed(v, level, seed);
    PrefixMembers(seed, inputs0);
    inputs1 := ChooseNextLevel(v, level, inputs0);
    if Gapless(seed) {
      ChoiceIsGapless(v, level, seed, inputs0, inputs1);
    }
    if inputs1 == [] {
      SetUpFrom(v, level, seed, expandedByteSizeLimit, inputs0, [], inputs0, []);
    } else {
      ghost var in0, in1 := inputs0, inputs1;
      inputs0, inputs1 := TryExpand(v, level, inputs0, inputs1, expandedByteSizeLimit);
      SetUpFrom(v, level, seed, expandedByteSizeLimit, in0, in1, inputs0, inputs1);
    }
  }

  /**
   * Completes a seed: boundary files, the level+1 files it meets, a wider choice of the level if
   * that costs no further level+1 file, and the level+2 files that the whole range meets. The next
   * compaction of the level starts after the largest key chosen.
   */
  method SetupOtherInputs(v: Version, level: nat, seed: seq<File>, expandedByteSizeLimit: nat)
      returns (inputs0: seq<File>, inputs1: seq<File>, grandparents: seq<File>, pointer: InternalKey)
    requires ValidVersion(v) && UniqueSeqnos(VersionEntries(v)) && Seed(v, level, seed)
    ensures Selected(v, level, inputs0, inputs1) && SetUp(v, level, seed, expandedByteSizeLimit, inputs0, inputs1)
    ensures forall f :: f in seed ==> f in inputs0
    ensures Grandparents(v, level, inputs0 + inputs1, grandparents)
    ensures Gapless(seed) ==> Gapless(inputs0 + inputs1)
    ensures IsLargest(inputs0, pointer)
  {
    inputs0, inputs1 := ChooseInputs(v, level, seed, expandedByteSizeLimit);
    grandparents := FindGrandparents(v, level, inputs0 + inputs1);
    var _, largest := GetRange(inputs0);
    pointer := largest;
  }

  lemma SeedMeetsItsRange(v: Version, level: nat, inputs0: seq<File>, inputs1: seq<File>,
                          a: InternalKey, b: InternalKey)
    requires level < |v| && ValidFiles(v[level]) && forall f :: f in inputs0 ==> f in v[level]
    requires IsSmallest(inputs0 + inputs1, a) && IsLargest(inputs0 + inputs1, b)
    ensures forall f :: f in inputs0 ==> Meets(f, Some(a.user), Some(b.user))
  {
    ValidFilesAreOrdered(v[level]);
    forall f | f in inputs0 ensures Meets(f, Some(a.user), Some(b.user)) {
      assert f in inputs0 + inputs1;
      assert Ordered(f);
    }
  }
}
