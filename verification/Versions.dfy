/** The level structure and the read path through it: db/version_set.cc. */
module Versions {
  import opened Keys
  import opened Semantics
  import opened Tables

  type Version = seq<seq<File>>

  /** Levels above zero: disjoint and sorted by internal key. */
  predicate SortedLevel(fs: seq<File>) {
    forall i, j :: 0 <= i < j < |fs| ==> KeyLess(fs[i].largest, fs[j].smallest)
  }

  predicate ValidFiles(fs: seq<File>) {
    forall f :: f in fs ==> ValidFile(f)
  }

  /** Level zero: a larger file number means newer entries. */
  ghost predicate AgedByNumber(fs: seq<File>) {
    forall f, g :: f in fs && g in fs && f.number > g.number ==> NewerThan(f, g)
  }

  predicate DistinctNumbers(fs: seq<File>) {
    forall i, j :: 0 <= i < j < |fs| ==> fs[i].number != fs[j].number
  }

  /** Every file of a shallower level is newer than every file of a deeper one. */
  ghost predicate AgedLevels(v: Version) {
    forall l, m, f, g :: 0 <= l < m < |v| && f in v[l] && g in v[m] ==> NewerThan(f, g)
  }

  /** The level invariant. */
  ghost predicate ValidVersion(v: Version) {
    && |v| == kNumLevels
    && (forall l :: 0 <= l < kNumLevels ==> ValidFiles(v[l]))
    && (forall l :: 0 < l < kNumLevels ==> SortedLevel(v[l]))
    && DistinctNumbers(v[0])
    && AgedByNumber(v[0])
    && AgedLevels(v)
  }

  ghost function VersionEntries(v: Version): set<Entry> {
    set l, f, e | 0 <= l < |v| && f in v[l] && e in f.entries :: e
  }

  lemma VersionEntriesOf(v: Version, l: nat, f: File, e: Entry)
    requires l < |v| && f in v[l] && e in f.entries
    ensures e in VersionEntries(v)
  {
  }

  // ---------------------------------------------------------------------
  // FindFile
  // ---------------------------------------------------------------------

  /** Where a binary search may end in any list of files. */
  predicate Lands(files: seq<File>, key: InternalKey, index: nat) {
    && index <= |files|
    && (index > 0 ==> KeyLess(files[index - 1].largest, key))
    && (index < |files| ==> KeyAtMost(key, files[index].largest))
  }

  /** Binary search for the first file whose largest key is at or after `key`. */
  method FindFile(files: seq<File>, key: InternalKey) returns (right: nat)
    ensures Lands(files, key, right)
    ensures ValidFiles(files) && SortedLevel(files) ==> SplitsAt(files, key, right)
  {
    var left := 0;
    right := |files|;
    while left < right
      invariant 0 <= left <= right <= |files|
      invariant left > 0 ==> KeyLess(files[left - 1].largest, key)
      invariant right < |files| ==> KeyAtMost(key, files[right].largest)
    {
      var mid := (left + right) / 2;
      if KeyLess(files[mid].largest, key) {
        left := mid + 1;
      } else {
        right := mid;
      }
    }
    if ValidFiles(files) && SortedLevel(files) {
      LandsAtSplit(files, key, right);
    }
  }

  /** The files before the index end before the key, the others do not. */
  predicate SplitsAt(files: seq<File>, key: InternalKey, index: nat) {
    && index <= |files|
    && (forall i :: 0 <= i < index ==> KeyLess(files[i].largest, key))
    && (forall i :: index <= i < |files| ==> KeyAtMost(key, files[i].largest))
  }

  /** In a sorted level there is only one place to end. */
  lemma LandsAtSplit(files: seq<File>, key: InternalKey, index: nat)
    requires ValidFiles(files) && SortedLevel(files) && Lands(files, key, index)
    ensures SplitsAt(files, key, index)
  {
    if index > 0 { LargestIncreases(files, index - 1); }
    if index < |files| { LargestIncreases(files, index); }
  }

  lemma LargestIncreases(files: seq<File>, mid: nat)
    requires ValidFiles(files) && SortedLevel(files) && mid < |files|
    ensures forall i :: 0 <= i < mid ==> KeyLess(files[i].largest, files[mid].largest)
    ensures forall i :: mid < i < |files| ==> KeyLess(files[mid].largest, files[i].largest)
  {
    forall i | 0 <= i < |files| ensures KeyAtMost(files[i].smallest, files[i].largest) {
      assert files[i] in files;
      EntriesInRange(files[i]);
      assert files[i].entries[0] in files[i].entries;
    }
  }

  // ---------------------------------------------------------------------
  // One level
  // ---------------------------------------------------------------------

  /** In a sorted level, only the file found by the binary search can hold the answer. */
  lemma OneFileAnswers(files: seq<File>, k: UserKey, s: nat, index: nat, f: File, e: Entry)
    requires ValidFiles(files) && SortedLevel(files) && SplitsAt(files, SeekKey(k, s), index)
    requires f in files && e in f.entries && Visible(e, k, s)
    ensures index < |files| && files[index].smallest.user <= k
    ensures Search(files[index].entries, k, s).Some?
    ensures Search(files[index].entries, k, s).value.seqno >= e.seqno
  {
    var i :| 0 <= i < |files| && files[i] == f;
    EntriesInRange(f);
    VisibleIsAtOrAfterSeek(e, k, s);
    assert i >= index;
    var g := files[index];
    assert g in files;
    EntriesInRange(g);
    var last := g.entries[|g.entries| - 1];
    assert last in g.entries;
    SearchIsNewest(g.entries, k, s);
    if i > index {
      assert KeyLess(g.largest, f.smallest);
      assert Visible(last, k, s);
      assert last in Elements(g.entries);
    } else {
      assert e in Elements(g.entries);
    }
  }

  /** What the file that a search of a level ends at answers. */
  function AnswerAt(files: seq<File>, index: nat, k: UserKey, s: nat): Option<Entry> {
    if index < |files| && files[index].smallest.user <= k then Search(files[index].entries, k, s) else None
  }

  /** The search of one level above zero (version_set.cc:366-381 and the loop after it). */
  method SearchSortedLevel(files: seq<File>, k: UserKey, s: nat) returns (r: Option<Entry>)
    ensures exists index :: Lands(files, SeekKey(k, s), index) && r == AnswerAt(files, index, k, s)
    ensures ValidFiles(files) && SortedLevel(files) ==> LevelAnswer(files, k, s, r)
  {
    r := None;
    var index := FindFile(files, SeekKey(k, s));
    if index < |files| && files[index].smallest.user <= k {
      r := Search(files[index].entries, k, s);
    }
    if ValidFiles(files) && SortedLevel(files) {
      AnswerIsLevelAnswer(files, k, s, index);
    }
  }

  /** The newest visible entry of the level, found in one of its files. */
  ghost predicate LevelAnswer(files: seq<File>, k: UserKey, s: nat, r: Option<Entry>) {
    && (r.None? ==> NoneVisible(FileEntries(files), k, s))
    && (r.Some? ==> Newest(FileEntries(files), k, s, r.value) && exists f :: f in files && r.value in f.entries)
  }

  lemma AnswerIsLevelAnswer(files: seq<File>, k: UserKey, s: nat, index: nat)
    requires ValidFiles(files) && SortedLevel(files) && SplitsAt(files, SeekKey(k, s), index)
    ensures LevelAnswer(files, k, s, AnswerAt(files, index, k, s))
  {
    var r := AnswerAt(files, index, k, s);
    if index < |files| {
      assert files[index] in files;
      SearchIsNewest(files[index].entries, k, s);
    }
    forall x | x in FileEntries(files) && Visible(x, k, s)
      ensures r.Some? && x.seqno <= r.value.seqno
    {
      var f := FileOfEntry(files, x);
      OneFileAnswers(files, k, s, index, f, x);
    }
  }

  /** std::sort with NewestFirst. */
  method SortNewestFirst(fs: seq<File>) returns (r: seq<File>)
    ensures forall i, j :: 0 <= i < j < |r| ==> r[i].number >= r[j].number
    ensures forall f :: f in r <==> f in fs
  {
    r := [];
    for n := 0 to |fs|
      invariant forall i, j :: 0 <= i < j < |r| ==> r[i].number >= r[j].number
      invariant forall f :: f in r <==> f in fs[..n]
    {
      var p := 0;
      while p < |r| && r[p].number >= fs[n].number
        invariant 0 <= p <= |r|
        invariant forall i :: 0 <= i < p ==> r[i].number >= fs[n].number
      {
        p := p + 1;
      }
      assert fs[..n + 1] == fs[..n] + [fs[n]];
      assert r == r[..p] + r[p..];
      r := r[..p] + [fs[n]] + r[p..];
    }
    assert fs[..|fs|] == fs;
  }

  /** The level-0 files whose range holds the user key, in the order of the level. */
  method OverlappingLevelZero(files: seq<File>, k: UserKey) returns (tmp: seq<File>)
    ensures forall f :: f in tmp <==> f in files && InRange(k, f)
  {
    tmp := [];
    for i := 0 to |files|
      invariant forall f :: f in tmp <==> f in files[..i] && InRange(k, f)
    {
      assert files[..i + 1] == files[..i] + [files[i]];
      if k >= files[i].smallest.user && k <= files[i].largest.user {
        tmp := tmp + [files[i]];
      }
    }
    assert files[..|files|] == files;
  }

  lemma NumbersIdentify(fs: seq<File>, f: File, g: File)
    requires DistinctNumbers(fs) && f in fs && g in fs
    ensures f.number == g.number ==> f == g
  {
  }

  /** The search of level zero, newest file first (version_set.cc:349-364 and the loop after it). */
  method SearchLevelZero(files: seq<File>, k: UserKey, s: nat) returns (r: Option<Entry>)
    requires ValidFiles(files) && DistinctNumbers(files) && AgedByNumber(files)
    ensures r.None? ==> NoneVisible(FileEntries(files), k, s)
    ensures r.Some? ==> Newest(FileEntries(files), k, s, r.value)
    ensures r.Some? ==> exists f :: f in files && r.value in f.entries
  {
    var tmp := OverlappingLevelZero(files, k);
    tmp := SortNewestFirst(tmp);
    r := None;
    var n := 0;
    while n < |tmp| && r.None?
      invariant 0 <= n <= |tmp|
      invariant r.None? ==> forall i, e :: 0 <= i < n && e in tmp[i].entries ==> !Visible(e, k, s)
      invariant r.Some? ==> 0 < n && r.value in tmp[n - 1].entries && Visible(r.value, k, s)
      invariant r.Some? ==> Newest(FileEntries(files), k, s, r.value)
    {
      var f := tmp[n];
      assert ValidFile(f);
      r := Search(f.entries, k, s);
      SearchIsNewest(f.entries, k, s);
      if r.Some? {
        FirstAnswers(files, tmp, k, s, n, r.value);
      } else {
        forall e | e in f.entries ensures !Visible(e, k, s) { assert e in Elements(f.entries); }
      }
      n := n + 1;
    }
    if r.None? {
      forall x | x in FileEntries(files) ensures !Visible(x, k, s) {
        var g := FileOfEntry(files, x);
        EntriesInRange(g);
      }
    }
  }

  /** The first of the overlapping files that answers holds the newest entry of the level. */
  lemma FirstAnswers(files: seq<File>, tmp: seq<File>, k: UserKey, s: nat, n: nat, e: Entry)
    requires ValidFiles(files) && DistinctNumbers(files) && AgedByNumber(files)
    requires forall f :: f in tmp <==> f in files && InRange(k, f)
    requires forall a, b :: 0 <= a < b < |tmp| ==> tmp[a].number >= tmp[b].number
    requires n < |tmp| && Newest(Elements(tmp[n].entries), k, s, e)
    requires forall i, x :: 0 <= i < n && x in tmp[i].entries ==> !Visible(x, k, s)
    ensures Newest(FileEntries(files), k, s, e)
  {
    assert tmp[n] in tmp;
    FileEntriesOf(files, tmp[n], e);
    forall x | x in FileEntries(files) && Visible(x, k, s) ensures x.seqno <= e.seqno {
      var g := FileOfEntry(files, x);
      EntriesInRange(g);
      var j :| 0 <= j < |tmp| && tmp[j] == g;
      LaterIsOlder(files, tmp, k, s, n, j, e, x);
    }
  }

  /** Behind the file that answers, every entry of the key is older than the answer. */
  lemma LaterIsOlder(files: seq<File>, tmp: seq<File>, k: UserKey, s: nat, n: nat, j: nat, e: Entry, x: Entry)
    requires DistinctNumbers(files) && AgedByNumber(files)
    requires n <= j < |tmp| && tmp[n] in files && tmp[j] in files
    requires forall a, b :: 0 <= a < b < |tmp| ==> tmp[a].number >= tmp[b].number
    requires Newest(Elements(tmp[n].entries), k, s, e)
    requires x in tmp[j].entries && Visible(x, k, s)
    ensures x.seqno <= e.seqno
  {
    NumbersIdentify(files, tmp[n], tmp[j]);
    if tmp[n].number == tmp[j].number {
      assert x in Elements(tmp[n].entries);
    } else {
      assert NewerThan(tmp[n], tmp[j]);
    }
  }

  // ---------------------------------------------------------------------
  // Version::Get
  // ---------------------------------------------------------------------

  ghost predicate NoneVisibleAbove(v: Version, level: nat, k: UserKey, s: nat) {
    forall l, f, e :: 0 <= l < level && l < |v| && f in v[l] && e in f.entries ==> !Visible(e, k, s)
  }

  /** The first level that answers holds the newest entry of the whole version. */
  lemma FirstLevelAnswers(v: Version, level: nat, k: UserKey, s: nat, e: Entry, f: File)
    requires AgedLevels(v) && level < |v|
    requires NoneVisibleAbove(v, level, k, s)
    requires f in v[level] && e in f.entries && Newest(FileEntries(v[level]), k, s, e)
    ensures Newest(VersionEntries(v), k, s, e)
  {
    VersionEntriesOf(v, level, f, e);
    forall x | x in VersionEntries(v) && Visible(x, k, s) ensures x.seqno <= e.seqno {
      var l, g :| 0 <= l < |v| && g in v[l] && x in g.entries;
      if l == level {
        FileEntriesOf(v[l], g, x);
      } else if l > level {
        assert NewerThan(f, g);
      }
    }
  }

  lemma LevelHasNone(v: Version, level: nat, k: UserKey, s: nat)
    requires level < |v| && NoneVisibleAbove(v, level, k, s) && NoneVisible(FileEntries(v[level]), k, s)
    ensures NoneVisibleAbove(v, level + 1, k, s)
  {
    forall l, f, e | 0 <= l < level + 1 && l < |v| && f in v[l] && e in f.entries ensures !Visible(e, k, s) {
      if l == level { FileEntriesOf(v[l], f, e); }
    }
  }

  /**
   * Level by level, newest file first in level zero and one file per deeper level, the search
   * returns what brute force over every entry of the version returns.
   */
  method Get(v: Version, k: UserKey, s: nat) returns (value: Option<Bytes>)
    requires ValidVersion(v) && UniqueSeqnos(VersionEntries(v))
    ensures value == View(VersionEntries(v), k, s)
  {
    var level := 0;
    while level < kNumLevels
      invariant 0 <= level <= kNumLevels
      invariant NoneVisibleAbove(v, level, k, s)
    {
      var r;
      if level == 0 {
        r := SearchLevelZero(v[level], k, s);
      } else {
        r := SearchSortedLevel(v[level], k, s);
      }
      if r.Some? {
        ghost var f :| f in v[level] && r.value in f.entries;
        FirstLevelAnswers(v, level, k, s, r.value, f);
        NewestIsFound(VersionEntries(v), k, s, r.value);
        return ValueOf(r);
      }
      LevelHasNone(v, level, k, s);
      level := level + 1;
    }
    NoneVisibleIsNotFound(VersionEntries(v), k, s);
    value := None;
  }
}
