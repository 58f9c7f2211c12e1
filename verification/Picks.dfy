/** Automatic and manual compactions: db/version_set.cc:1270-1322, 1464-1495 and 1515-1523. */
module Picks {
  import opened Keys
  import opened Semantics
  import opened Tables
  import opened Versions
  import opened Overlap
  import opened Gaps
  import opened Inputs

  /** The inputs of a compaction and the files it must not overlap too much. */
  datatype Pick = Pick(level: nat, inputs0: seq<File>, inputs1: seq<File>, grandparents: seq<File>)

  predicate After(f: File, pointer: Option<InternalKey>) {
    pointer.None? || KeyLess(pointer.value, f.largest)
  }

  predicate IsNext(files: seq<File>, pointer: Option<InternalKey>, i: nat)
    requires i < |files|
  {
    if exists g :: g in files && After(g, pointer)
    then After(files[i], pointer) && forall j :: 0 <= j < i ==> !After(files[j], pointer)
    else i == 0
  }

  predicate IsNextFile(files: seq<File>, pointer: Option<InternalKey>, f: File) {
    exists i :: 0 <= i < |files| && files[i] == f && IsNext(files, pointer, i)
  }

  /** The first file after the compaction pointer, or the first file of all. */
  method NextFile(files: seq<File>, pointer: Option<InternalKey>) returns (f: File)
    requires files != []
    ensures f in files && IsNextFile(files, pointer, f)
  {
    for i := 0 to |files|
      invariant forall j :: 0 <= j < i ==> !After(files[j], pointer)
    {
      if After(files[i], pointer) {
        assert files[i] in files;
        return files[i];
      }
    }
    f := files[0];
  }

  /** A picked file, in level zero with everything it is entangled with. */
  ghost predicate SeedOf(v: Version, level: nat, f: File, seed: seq<File>) {
    if level == 0 then RangeSeed(v, 0, [f], seed) else seed == [f]
  }

  /** The file that a compaction by size, or one for its seeks, begins with. */
  predicate Wanted(files: seq<File>, bySize: bool, pointer: Option<InternalKey>, seekFile: Option<File>, f: File) {
    if bySize then IsNextFile(files, pointer, f) else Some(f) == seekFile
  }

  lemma ChoiceFrom(v: Version, level: nat, f: File, expandedByteSizeLimit: nat, seed: seq<File>, c: Pick)
    requires SeedOf(v, level, f, seed) && SetUp(v, level, seed, expandedByteSizeLimit, c.inputs0, c.inputs1)
    ensures AutomaticChoice(v, level, f, expandedByteSizeLimit, c)
  {
  }

  /** What the picked file leads to. */
  ghost predicate AutomaticChoice(v: Version, level: nat, f: File, expandedByteSizeLimit: nat, c: Pick) {
    exists seed :: SeedOf(v, level, f, seed) && SetUp(v, level, seed, expandedByteSizeLimit, c.inputs0, c.inputs1)
  }

  /** The first choice for one picked file: in level zero, everything it is entangled with. */
  method SeedFor(v: Version, level: nat, f: File) returns (seed: seq<File>)
    requires ValidVersion(v) && level + 1 < kNumLevels && f in v[level]
    ensures Seed(v, level, seed) && f in seed && Gapless(seed) && SeedOf(v, level, f, seed)
  {
    seed := [f];
    SingleIsGapless(f);
    if level == 0 {
      var smallest, largest := GetRange(seed);
      ghost var lo, hi;
      seed, lo, hi := SelectSeed(v, 0, Some(smallest.user), Some(largest.user));
      ValidFilesAreOrdered(v[0]);
      assert Ordered(f) && OrderedFiles([f]);
      assert IsSmallest([f], smallest) && IsLargest([f], largest);
      SelectionIsGapless(v, 0, [f], smallest, largest, lo, hi);
      SingleRange(f, smallest, largest);
      assert f in seed;
      GaplessMembers([f] + seed, seed);
    } else {
      SpansOrdered(v[level]);
      SingleIsConvex(v[level], f);
    }
  }

  lemma SingleRange(f: File, a: InternalKey, b: InternalKey)
    requires IsSmallest([f], a) && IsLargest([f], b)
    ensures a == f.smallest && b == f.largest
  {
  }

  lemma SingleIsConvex(files: seq<File>, f: File)
    requires forall g :: g in files ==> KeyAtMost(g.smallest, g.largest)
    requires f in files
    ensures Convex(files, [f])
  {
  }

  /** The compaction that a seed leads to, and the key behind which the next one of the level begins. */
  method Complete(v: Version, level: nat, seed: seq<File>, expandedByteSizeLimit: nat) returns (c: Pick, largest: InternalKey)
    requires ValidVersion(v) && UniqueSeqnos(VersionEntries(v)) && Seed(v, level, seed)
    ensures c.level == level && Selected(v, level, c.inputs0, c.inputs1) && Grandparents(v, level, c.inputs0 + c.inputs1, c.grandparents)
    ensures SetUp(v, level, seed, expandedByteSizeLimit, c.inputs0, c.inputs1) && forall f :: f in seed ==> f in c.inputs0
    ensures Gapless(seed) ==> Gapless(c.inputs0 + c.inputs1)
    ensures IsLargest(c.inputs0, largest)
  {
    var inputs0, inputs1, grandparents;
    inputs0, inputs1, grandparents, largest := SetupOtherInputs(v, level, seed, expandedByteSizeLimit);
    c := Pick(level, inputs0, inputs1, grandparents);
  }

  /**
   * An automatic compaction of the picked level, by size from the compaction pointer on or for one
   * file that cost too many seeks. Its inputs leave no gap.
   */
  method PickCompaction(v: Version, bySize: bool, level: nat, pointer: Option<InternalKey>, seekFile: Option<File>,
                        expandedByteSizeLimit: nat)
      returns (c: Option<Pick>, next: Option<InternalKey>)
    requires ValidVersion(v) && UniqueSeqnos(VersionEntries(v)) && level + 1 < kNumLevels
    requires bySize ==> v[level] != []
    requires seekFile.Some? ==> seekFile.value in v[level]
    ensures c.None? <==> !bySize && seekFile.None?
    ensures c.Some? ==> c.value.level == level && Selected(v, level, c.value.inputs0, c.value.inputs1)
    ensures c.Some? ==> Gapless(c.value.inputs0 + c.value.inputs1)
    ensures c.Some? ==> Grandparents(v, level, c.value.inputs0 + c.value.inputs1, c.value.grandparents)
    ensures c.Some? ==> exists f :: f in c.value.inputs0 && Wanted(v[level], bySize, pointer, seekFile, f) &&
                                    AutomaticChoice(v, level, f, expandedByteSizeLimit, c.value)
    ensures if c.Some? then next.Some? && IsLargest(c.value.inputs0, next.value) else next == pointer
  {
    var f: File;
    if bySize {
      f := NextFile(v[level], pointer);
    } else if seekFile.Some? {
      f := seekFile.value;
    } else {
      return None, pointer;
    }
    var pick, largest := PickFor(v, level, f, expandedByteSizeLimit);
    c, next := Some(pick), Some(largest);
  }

  method PickFor(v: Version, level: nat, f: File, expandedByteSizeLimit: nat) returns (c: Pick, largest: InternalKey)
    requires ValidVersion(v) && UniqueSeqnos(VersionEntries(v)) && level + 1 < kNumLevels && f in v[level]
    ensures c.level == level && Selected(v, level, c.inputs0, c.inputs1) && Grandparents(v, level, c.inputs0 + c.inputs1, c.grandparents)
    ensures f in c.inputs0 && AutomaticChoice(v, level, f, expandedByteSizeLimit, c)
    ensures Gapless(c.inputs0 + c.inputs1)
    ensures IsLargest(c.inputs0, largest)
  {
    var seed := SeedFor(v, level, f);
    c, largest := Complete(v, level, seed, expandedByteSizeLimit);
    ChoiceFrom(v, level, f, expandedByteSizeLimit, seed, c);
  }

  /** The first files of a list that together reach the limit; all of them if they never do. */
  predicate Reaching(all: seq<File>, limit: nat, part: seq<File>) {
    && part <= all && part != []
    && (part == all || TotalFileSize(part) >= limit)
    && forall n :: 0 < n < |part| ==> TotalFileSize(part[..n]) < limit
  }

  /** Where a manual compaction begins: all that meets the range, above level zero up to a size limit. */
  ghost predicate ManualSeed(v: Version, level: nat, begin: Bound, end: Bound, limit: nat, seed: seq<File>) {
    exists lo, hi :: LeastSelection(v, level, begin, end, lo, hi) &&
      if level == 0 then seed == Select(v[0], lo, hi) else Reaching(Select(v[level], lo, hi), limit, seed)
  }

  ghost predicate ManualChoice(v: Version, level: nat, begin: Bound, end: Bound, limit: nat, expandedByteSizeLimit: nat, c: Pick) {
    exists seed :: ManualSeed(v, level, begin, end, limit, seed) && (forall f :: f in seed ==> f in c.inputs0) &&
      SetUp(v, level, seed, expandedByteSizeLimit, c.inputs0, c.inputs1)
  }

  predicate NoneMeets(files: seq<File>, begin: Bound, end: Bound) {
    forall f :: f in files ==> !Meets(f, begin, end)
  }

  /** Nothing meets the range, so nothing widens it. */
  lemma NothingMet(v: Version, level: nat, begin: Bound, end: Bound, lo: Bound, hi: Bound)
    requires LeastSelection(v, level, begin, end, lo, hi) && NoneMeets(v[level], begin, end)
    ensures Select(v[level], lo, hi) == []
  {
    assert Covers(begin, end, begin, end) && Closed(v[level], begin, end);
    assert lo == begin && hi == end;
    NothingSelected(v[level], lo, hi);
  }

  lemma {:induction false} NothingSelected(files: seq<File>, lo: Bound, hi: Bound)
    requires forall f :: f in files ==> !Meets(f, lo, hi)
    ensures Select(files, lo, hi) == []
  {
    if files != [] {
      NothingSelected(files[..|files| - 1], lo, hi);
    }
  }

  /** A manual compaction of part of a range; above level zero it stops at a size limit. */
  method CompactRange(v: Version, level: nat, begin: Bound, end: Bound, limit: nat, expandedByteSizeLimit: nat)
      returns (c: Option<Pick>, next: Option<InternalKey>)
    requires ValidVersion(v) && UniqueSeqnos(VersionEntries(v)) && level + 1 < kNumLevels
    ensures c.None? <==> NoneMeets(v[level], begin, end)
    ensures c.Some? ==> c.value.level == level && Selected(v, level, c.value.inputs0, c.value.inputs1)
    ensures c.Some? ==> Grandparents(v, level, c.value.inputs0 + c.value.inputs1, c.value.grandparents)
    ensures c.Some? ==> ManualChoice(v, level, begin, end, limit, expandedByteSizeLimit, c.value)
    ensures c.Some? ==> next.Some? && IsLargest(c.value.inputs0, next.value)
  {
    var inputs := FindManualSeed(v, level, begin, end, limit);
    if inputs == [] {
      return None, None;
    }
    var pick, largest := Complete(v, level, inputs, expandedByteSizeLimit);
    ManualFrom(v, level, begin, end, limit, expandedByteSizeLimit, inputs, pick);
    c, next := Some(pick), Some(largest);
  }

  lemma ManualFrom(v: Version, level: nat, begin: Bound, end: Bound, limit: nat, expandedByteSizeLimit: nat, seed: seq<File>, c: Pick)
    requires ManualSeed(v, level, begin, end, limit, seed) && forall f :: f in seed ==> f in c.inputs0
    requires SetUp(v, level, seed, expandedByteSizeLimit, c.inputs0, c.inputs1)
    ensures ManualChoice(v, level, begin, end, limit, expandedByteSizeLimit, c)
  {
  }

  method FindManualSeed(v: Version, level: nat, begin: Bound, end: Bound, limit: nat) returns (seed: seq<File>)
    requires ValidVersion(v) && level + 1 < kNumLevels
    ensures seed == [] <==> NoneMeets(v[level], begin, end)
    ensures seed != [] ==> Seed(v, level, seed) && ManualSeed(v, level, begin, end, limit, seed)
  {
    var all, lo, hi := SelectSeed(v, level, begin, end);
    if NoneMeets(v[level], begin, end) {
      NothingMet(v, level, begin, end, lo, hi);
    }
    seed := all;
    if all == [] {
      return;
    }
    if level > 0 {
      var n := FirstToReach(all, limit);
      PrefixIsConvex(v[level], lo, hi, n);
      ReachingPart(all, limit, n);
      seed := all[..n];
      PrefixOfLevel(v[level], all, n);
    }
  }

  lemma PrefixOfLevel(files: seq<File>, all: seq<File>, n: nat)
    requires n <= |all| && forall f :: f in all ==> f in files
    ensures forall f :: f in all[..n] ==> f in files
  {
  }

  lemma ReachingPart(all: seq<File>, limit: nat, n: nat)
    requires 0 < n <= |all| && (n < |all| ==> TotalFileSize(all[..n]) >= limit)
    requires forall m :: 0 < m < n ==> TotalFileSize(all[..m]) < limit
    ensures Reaching(all, limit, all[..n])
  {
    assert all[..|all|] == all;
    assert forall m :: 0 <= m <= n ==> all[..n][..m] == all[..m];
  }

  /** How many files it takes to reach the limit; all of them if they never do. */
  method FirstToReach(inputs: seq<File>, limit: nat) returns (n: nat)
    requires inputs != []
    ensures 0 < n <= |inputs|
    ensures n < |inputs| ==> TotalFileSize(inputs[..n]) >= limit
    ensures forall m :: 0 < m < n ==> TotalFileSize(inputs[..m]) < limit
  {
    var total := 0;
    n := 0;
    while n < |inputs|
      invariant 0 <= n <= |inputs| && total == TotalFileSize(inputs[..n])
      invariant n > 0 ==> total < limit
      invariant forall m :: 0 < m < n ==> TotalFileSize(inputs[..m]) < limit
    {
      assert inputs[..n + 1][..n] == inputs[..n];
      total := total + inputs[n].size;
      n := n + 1;
      if total >= limit {
        return;
      }
    }
  }

  /** The default options: the size limit of a file, and of the grandparents that a file may overlap. */
  const kMaxFileSize: nat := 0x20_0000
  const kOverlapLimit: nat := 10 * kMaxFileSize

  /** A single input file without company below moves down as it is. */
  predicate IsTrivialMove(c: Pick, maxGrandParentOverlapBytes: nat) {
    |c.inputs0| == 1 && |c.inputs1| == 0 && TotalFileSize(c.grandparents) <= maxGrandParentOverlapBytes
  }

  /** Whether a file, moved down by one level, meets no file there and not too many bytes below. */
  predicate MayMove(v: Version, level: nat, f: File, maxGrandParentOverlapBytes: nat) {
    var lo, hi := Some(f.smallest.user), Some(f.largest.user);
    && level + 1 < |v| && NoneMeets(v[level + 1], lo, hi)
    && (level + 2 < |v| ==> TotalFileSize(Select(v[level + 2], lo, hi)) <= maxGrandParentOverlapBytes)
  }

  /** So a trivial move never takes a file to where it overlaps others. */
  lemma TrivialMoveExactly(v: Version, c: Pick, maxGrandParentOverlapBytes: nat)
    requires NextLevelChosen(v, c.level, c.inputs0, c.inputs1) && Grandparents(v, c.level, c.inputs0 + c.inputs1, c.grandparents)
    ensures IsTrivialMove(c, maxGrandParentOverlapBytes) <==>
            |c.inputs0| == 1 && MayMove(v, c.level, c.inputs0[0], maxGrandParentOverlapBytes)
  {
    if |c.inputs0| == 1 {
      var f := c.inputs0[0];
      assert c.inputs0 == [f];
      BesideOne(v, c.level, f, c.inputs1);
      if c.inputs1 == [] {
        assert c.inputs0 + c.inputs1 == [f];
        BelowOne(v, c.level, f, c.grandparents);
      }
    }
  }

  lemma BesideOne(v: Version, level: nat, f: File, inputs1: seq<File>)
    requires NextLevelChosen(v, level, [f], inputs1)
    ensures inputs1 == [] <==> NoneMeets(v[level + 1], Some(f.smallest.user), Some(f.largest.user))
  {
    var a, b :| IsSmallest([f], a) && IsLargest([f], b) && inputs1 == Select(v[level + 1], Some(a.user), Some(b.user));
    SingleRange(f, a, b);
    SelectsNothing(v[level + 1], Some(a.user), Some(b.user));
  }

  lemma SelectsNothing(files: seq<File>, lo: Bound, hi: Bound)
    ensures Select(files, lo, hi) == [] <==> NoneMeets(files, lo, hi)
  {
    if NoneMeets(files, lo, hi) {
      NothingSelected(files, lo, hi);
    }
  }

  lemma BelowOne(v: Version, level: nat, f: File, grandparents: seq<File>)
    requires Grandparents(v, level, [f], grandparents)
    ensures grandparents == if level + 2 < |v| then Select(v[level + 2], Some(f.smallest.user), Some(f.largest.user)) else []
  {
    if level + 2 < |v| {
      var a, b :| IsSmallest([f], a) && IsLargest([f], b) && grandparents == Select(v[level + 2], Some(a.user), Some(b.user));
      SingleRange(f, a, b);
    }
  }

  /** From file to file: behind the last key of one file of a sorted level the next one comes, and the first behind the last. */
  lemma NextFollows(files: seq<File>, j: nat, f: File)
    requires ValidFiles(files) && SortedLevel(files) && j < |files|
    requires IsNextFile(files, Some(files[j].largest), f)
    ensures f == files[if j + 1 < |files| then j + 1 else 0]
  {
    SpansOrdered(files);
    forall i | 0 <= i < |files| ensures After(files[i], Some(files[j].largest)) <==> j < i {
      assert files[i] in files && files[j] in files;
    }
    if j + 1 < |files| {
      assert files[j + 1] in files;
    }
  }
}
