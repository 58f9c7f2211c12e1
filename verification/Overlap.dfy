/** Which files meet a range of user keys: db/version_set.cc:108-157 and 485-559. */
module Overlap {
  import opened Keys
  import opened Tables
  import opened Versions

  /** A bound of a user-key range; None is the null pointer, which never excludes a file. */
  type Bound = Option<UserKey>

  predicate AfterFile(k: Bound, f: File) {
    k.Some? && k.value > f.largest.user
  }

  predicate BeforeFile(k: Bound, f: File) {
    k.Some? && k.value < f.smallest.user
  }

  predicate Meets(f: File, lo: Bound, hi: Bound) {
    !AfterFile(lo, f) && !BeforeFile(hi, f)
  }

  predicate Ordered(f: File) {
    f.smallest.user <= f.largest.user
  }

  predicate OrderedFiles(fs: seq<File>) {
    forall f :: f in fs ==> Ordered(f)
  }

  lemma ValidFilesAreOrdered(fs: seq<File>)
    requires ValidFiles(fs)
    ensures OrderedFiles(fs)
  {
    forall f | f in fs ensures Ordered(f) {
      EntriesInRange(f);
      assert f.entries[0] in f.entries;
    }
  }

  // ---------------------------------------------------------------------
  // SomeFileOverlapsRange
  // ---------------------------------------------------------------------

  /** Linear scan for overlapping files, one binary search for disjoint sorted ones. */
  method SomeFileOverlapsRange(disjointSorted: bool, files: seq<File>, lo: Bound, hi: Bound) returns (b: bool)
    requires ValidFiles(files)
    requires disjointSorted ==> SortedLevel(files)
    ensures b <==> exists f :: f in files && Meets(f, lo, hi)
  {
    if !disjointSorted {
      for i := 0 to |files|
        invariant forall j :: 0 <= j < i ==> !Meets(files[j], lo, hi)
      {
        if AfterFile(lo, files[i]) || BeforeFile(hi, files[i]) {
        } else {
          assert files[i] in files && Meets(files[i], lo, hi);
          return true;
        }
      }
      return false;
    }
    var index := 0;
    if lo.Some? {
      index := FindFile(files, SeekKey(lo.value, kMaxSequenceNumber));
    }
    SearchRange(files, lo, index);
    if index >= |files| {
      return false;
    }
    b := !BeforeFile(hi, files[index]);
    assert b ==> files[index] in files && Meets(files[index], lo, hi);
    if !b { LaterFilesStartLater(files, index); }
  }

  lemma SearchRange(files: seq<File>, lo: Bound, index: nat)
    requires ValidFiles(files) && SortedLevel(files) && index <= |files|
    requires lo.None? ==> index == 0
    requires lo.Some? ==> forall i :: 0 <= i < index ==>
      KeyLess(files[i].largest, SeekKey(lo.value, kMaxSequenceNumber))
    requires lo.Some? ==> forall i :: index <= i < |files| ==>
      KeyAtMost(SeekKey(lo.value, kMaxSequenceNumber), files[i].largest)
    ensures forall i :: 0 <= i < index ==> AfterFile(lo, files[i])
    ensures forall i :: index <= i < |files| ==> !AfterFile(lo, files[i])
  {
    forall i | 0 <= i < |files| ensures files[i].largest.seqno <= kMaxSequenceNumber {
      assert files[i] in files;
      assert files[i].entries[|files[i].entries| - 1] in files[i].entries;
    }
  }

  lemma LaterFilesStartLater(files: seq<File>, index: nat)
    requires ValidFiles(files) && SortedLevel(files) && index < |files|
    ensures forall i :: index <= i < |files| ==> files[index].smallest.user <= files[i].smallest.user
  {
    ValidFilesAreOrdered(files);
    assert Ordered(files[index]);
  }

  // ---------------------------------------------------------------------
  // GetOverlappingInputs
  // ---------------------------------------------------------------------

  /** The files of a level that meet a range, in level order. */
  function Select(files: seq<File>, lo: Bound, hi: Bound): (r: seq<File>)
    ensures forall f :: f in r <==> f in files && Meets(f, lo, hi)
  {
    if files == [] then []
    else
      var n := |files| - 1;
      assert files == files[..n] + [files[n]];
      Select(files[..n], lo, hi) + if Meets(files[n], lo, hi) then [files[n]] else []
  }

  /** Range `a` reaches at least as far on both sides as range `b`. */
  predicate Covers(alo: Bound, ahi: Bound, lo: Bound, hi: Bound) {
    && (alo.None? || (lo.Some? && alo.value <= lo.value))
    && (ahi.None? || (hi.Some? && ahi.value >= hi.value))
  }

  /** Every file that meets the range lies inside it. */
  predicate Closed(files: seq<File>, lo: Bound, hi: Bound) {
    forall f :: f in files && Meets(f, lo, hi) ==>
      (lo.Some? ==> lo.value <= f.smallest.user) && (hi.Some? ==> f.largest.user <= hi.value)
  }

  /** [lo, hi] lies inside every closed range around [begin, end]. */
  ghost predicate Least(files: seq<File>, begin: Bound, end: Bound, lo: Bound, hi: Bound) {
    forall a: Bound, b: Bound :: Covers(a, b, begin, end) && Closed(files, a, b) ==> Covers(a, b, lo, hi)
  }

  function CountBelow(files: seq<File>, k: UserKey): nat {
    if files == [] then 0
    else CountBelow(files[..|files| - 1], k) + if files[|files| - 1].smallest.user < k then 1 else 0
  }

  function CountAbove(files: seq<File>, k: UserKey): nat {
    if files == [] then 0
    else CountAbove(files[..|files| - 1], k) + if files[|files| - 1].largest.user > k then 1 else 0
  }

  lemma {:induction false} CountBelowDrops(files: seq<File>, f: File, k: UserKey, strict: bool)
    requires f.smallest.user < k
    requires strict ==> f in files
    ensures CountBelow(files, f.smallest.user) <= CountBelow(files, k)
    ensures strict ==> CountBelow(files, f.smallest.user) < CountBelow(files, k)
  {
    if files != [] {
      var n := |files| - 1;
      assert files == files[..n] + [files[n]];
      CountBelowDrops(files[..n], f, k, f in files[..n]);
    }
  }

  lemma {:induction false} CountAboveDrops(files: seq<File>, f: File, k: UserKey, strict: bool)
    requires f.largest.user > k
    requires strict ==> f in files
    ensures CountAbove(files, f.largest.user) <= CountAbove(files, k)
    ensures strict ==> CountAbove(files, f.largest.user) < CountAbove(files, k)
  {
    if files != [] {
      var n := |files| - 1;
      assert files == files[..n] + [files[n]];
      CountAboveDrops(files[..n], f, k, f in files[..n]);
    }
  }

  function Outside(files: seq<File>, lo: Bound, hi: Bound): nat {
    (if lo.Some? then CountBelow(files, lo.value) else 0) + (if hi.Some? then CountAbove(files, hi.value) else 0)
  }

  /** A wider range, open where the narrow one is open. */
  predicate Widened(lo: Bound, hi: Bound, begin: Bound, end: Bound) {
    Covers(lo, hi, begin, end) && (lo.None? <==> begin.None?) && (hi.None? <==> end.None?)
  }

  /**
   * The files of a level that meet [begin, end]. In level zero a file that sticks out of the
   * range widens it and restarts the scan, so the result is the selection for the least range
   * that holds [begin, end] and is closed under overlap.
   */
  method GetOverlappingInputs(levelZero: bool, files: seq<File>, begin: Bound, end: Bound)
      returns (inputs: seq<File>, ghost lo: Bound, ghost hi: Bound)
    requires OrderedFiles(files)
    ensures inputs == Select(files, lo, hi)
    ensures Widened(lo, hi, begin, end)
    ensures !levelZero ==> lo == begin && hi == end
    ensures levelZero ==> Closed(files, lo, hi) && Least(files, begin, end, lo, hi)
  {
    inputs := [];
    var userBegin, userEnd := begin, end;
    var i := 0;
    while i < |files|
      invariant 0 <= i <= |files|
      invariant inputs == Select(files[..i], userBegin, userEnd)
      invariant Widened(userBegin, userEnd, begin, end)
      invariant !levelZero ==> userBegin == begin && userEnd == end
      invariant levelZero ==> Closed(files[..i], userBegin, userEnd)
      invariant levelZero ==> Least(files, begin, end, userBegin, userEnd)
      decreases Outside(files, userBegin, userEnd), |files| - i
    {
      var f := files[i];
      assert files[..i + 1] == files[..i] + [f];
      assert files[..i + 1][..i] == files[..i];
      i := i + 1;
      if userBegin.Some? && f.largest.user < userBegin.value {
      } else if userEnd.Some? && f.smallest.user > userEnd.value {
      } else {
        inputs := inputs + [f];
        if levelZero {
          if userBegin.Some? && f.smallest.user < userBegin.value {
            LeastKeeps(files, begin, end, userBegin, userEnd, f);
            CountBelowDrops(files, f, userBegin.value, true);
            userBegin := Some(f.smallest.user);
            inputs := [];
            i := 0;
          } else if userEnd.Some? && f.largest.user > userEnd.value {
            LeastKeeps(files, begin, end, userBegin, userEnd, f);
            CountAboveDrops(files, f, userEnd.value, true);
            userEnd := Some(f.largest.user);
            inputs := [];
            i := 0;
          }
        }
      }
    }
    assert files[..|files|] == files;
    lo, hi := userBegin, userEnd;
  }

  /** A closed range around the start range also holds every file met on the way. */
  lemma LeastKeeps(files: seq<File>, begin: Bound, end: Bound, lo: Bound, hi: Bound, f: File)
    requires Least(files, begin, end, lo, hi) && f in files && Ordered(f) && Meets(f, lo, hi)
    ensures lo.Some? && f.smallest.user < lo.value ==> Least(files, begin, end, Some(f.smallest.user), hi)
    ensures hi.Some? && f.largest.user > hi.value ==> Least(files, begin, end, lo, Some(f.largest.user))
  {
    forall a: Bound, b: Bound | Covers(a, b, begin, end) && Closed(files, a, b)
      ensures Covers(a, b, lo, hi)
      ensures a.Some? ==> a.value <= f.smallest.user
      ensures b.Some? ==> b.value >= f.largest.user
    {
      assert Covers(a, b, lo, hi);
      assert Meets(f, a, b);
    }
  }

  /** Unchosen files of a closed level share no user key with chosen ones. */
  lemma ClosedSeparates(files: seq<File>, lo: Bound, hi: Bound, f: File, g: File)
    requires OrderedFiles(files) && Closed(files, lo, hi) && f in files && g in files
    requires Meets(f, lo, hi) && !Meets(g, lo, hi)
    ensures UserDisjoint(f, g)
  {
    assert Ordered(f) && Ordered(g);
  }

  // ---------------------------------------------------------------------
  // PickLevelForMemTableOutput
  // ---------------------------------------------------------------------

  const kMaxMemCompactLevel: nat := 2

  function TotalFileSize(fs: seq<File>): nat {
    if fs == [] then 0 else TotalFileSize(fs[..|fs| - 1]) + fs[|fs| - 1].size
  }

  /** No file of levels 0 to `level` meets the range. */
  ghost predicate FreeDownTo(v: Version, level: nat, lo: UserKey, hi: UserKey) {
    forall l, f :: 0 <= l <= level && l < |v| && f in v[l] ==> !Meets(f, Some(lo), Some(hi))
  }

  ghost predicate MetAt(v: Version, level: nat, lo: UserKey, hi: UserKey) {
    level < |v| && exists f :: f in v[level] && Meets(f, Some(lo), Some(hi))
  }

  /** A file that has sunk to `level` stays: the next level meets it, or the one below that with too many bytes. */
  ghost predicate StopsAt(v: Version, level: nat, lo: UserKey, hi: UserKey, maxGrandParentOverlapBytes: nat)
    requires level + 2 < |v|
  {
    MetAt(v, level + 1, lo, hi) || TotalFileSize(Select(v[level + 2], Some(lo), Some(hi))) > maxGrandParentOverlapBytes
  }

  /** The level for a file of that range: the first one at which it stops, level zero if that meets it. */
  ghost predicate IsPicked(v: Version, level: nat, lo: UserKey, hi: UserKey, maxGrandParentOverlapBytes: nat)
    requires |v| == kNumLevels
  {
    && level <= kMaxMemCompactLevel
    && (MetAt(v, 0, lo, hi) ==> level == 0)
    && (forall l: nat :: l < level ==> !StopsAt(v, l, lo, hi, maxGrandParentOverlapBytes))
    && (level < kMaxMemCompactLevel ==> MetAt(v, 0, lo, hi) || StopsAt(v, level, lo, hi, maxGrandParentOverlapBytes))
  }

  /** A level is never picked past files that meet the range. */
  lemma PickedIsFree(v: Version, level: nat, lo: UserKey, hi: UserKey, maxGrandParentOverlapBytes: nat)
    requires |v| == kNumLevels && IsPicked(v, level, lo, hi, maxGrandParentOverlapBytes) && level > 0
    ensures FreeDownTo(v, level, lo, hi)
  {
    forall l, f | 0 <= l <= level && f in v[l] ensures !Meets(f, Some(lo), Some(hi)) {
      assert l > 0 ==> !StopsAt(v, l - 1, lo, hi, maxGrandParentOverlapBytes);
    }
  }

  /** The one level for a new memtable file. */
  method PickLevelForMemTableOutput(v: Version, lo: UserKey, hi: UserKey, maxGrandParentOverlapBytes: nat)
      returns (level: nat)
    requires ValidVersion(v)
    ensures IsPicked(v, level, lo, hi, maxGrandParentOverlapBytes)
    ensures level > 0 ==> FreeDownTo(v, level, lo, hi)
  {
    level := 0;
    var overlap := SomeFileOverlapsRange(false, v[0], Some(lo), Some(hi));
    if !overlap {
      while level < kMaxMemCompactLevel
        invariant 0 <= level <= kMaxMemCompactLevel
        invariant FreeDownTo(v, level, lo, hi)
        invariant forall l: nat :: l < level ==> !StopsAt(v, l, lo, hi, maxGrandParentOverlapBytes)
      {
        overlap := SomeFileOverlapsRange(true, v[level + 1], Some(lo), Some(hi));
        if overlap {
          break;
        }
        if level + 2 < kNumLevels {
          ValidFilesAreOrdered(v[level + 2]);
          var overlaps, _, _ := GetOverlappingInputs(false, v[level + 2], Some(lo), Some(hi));
          if TotalFileSize(overlaps) > maxGrandParentOverlapBytes {
            break;
          }
        }
        level := level + 1;
      }
    }
  }
}
