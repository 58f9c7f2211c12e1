/** Opening a database again: db/db_impl.cc:280-363, 365-489 and 1474-1515. */
module Recovery {
  import opened Keys
  import opened Sequences
  import opened Semantics
  import opened Tables
  import opened Versions
  import opened Compactions
  import opened Edits
  import opened Levels
  import opened Database
  import opened Runs
  import opened LogFormat
  import opened LogReader
  import opened LogReplay
  import opened ManifestReplay
  import opened Crash
  import opened Restart
  import opened Journal
  import Manifest
  import TableWork
  import LogRecovery

  // ---------------------------------------------------------------------
  // Memtables written out
  // ---------------------------------------------------------------------

  /** One table per memtable that is not empty, with the number that was taken for it. */
  function FilesOf(parts: seq<seq<Entry>>, nums: seq<nat>, size: seq<Entry> -> nat): (r: seq<File>)
    requires |nums| == |parts|
  {
    if parts == [] then []
    else
      var n := |parts| - 1;
      var mem := AddAll([], parts[n]);
      FilesOf(parts[..n], nums[..n], size) + if mem == [] then [] else [NewFile(nums[n], size(mem), mem)]
  }

  /** The numbers increase and lie between two bounds. */
  predicate Taken(nums: seq<nat>, from: nat, next: nat) {
    && from <= next && (forall i, j :: 0 <= i < j < |nums| ==> nums[i] < nums[j])
    && forall i :: 0 <= i < |nums| ==> from <= nums[i] < next
  }

  ghost predicate Written(files: seq<File>, parts: seq<seq<Entry>>, nums: seq<nat>, size: seq<Entry> -> nat, from: nat, next: nat) {
    |nums| == |parts| && files == FilesOf(parts, nums, size) && Taken(nums, from, next)
  }

  /** WriteLevel0Table for one memtable after another; an empty one takes a number all the same. */
  method WriteTables(tables: seq<seq<Entry>>, ghost more: seq<seq<Entry>>, size: seq<Entry> -> nat, before: seq<File>, first: nat,
                     ghost parts: seq<seq<Entry>>, ghost nums: seq<nat>, ghost from: nat)
      returns (files: seq<File>, next: nat, ghost rnums: seq<nat>)
    requires Hold(tables, more) && Written(before, parts, nums, size, from, first)
    ensures Written(files, parts + more, rnums, size, from, next) && next == first + |tables|
  {
    files, next, rnums := before, first, nums;
    assert parts + more[..0] == parts;
    for i := 0 to |tables|
      invariant WrittenUpTo(files, parts, more, i, rnums, size, from, next) && next == first + i
    {
      WrittenNext(files, parts, more, i, rnums, size, from, next, tables[i]);
      if tables[i] != [] {
        files := files + [NewFile(next, size(tables[i]), tables[i])];
      }
      rnums, next := rnums + [next], next + 1;
    }
    assert more[..|tables|] == more;
  }

  ghost predicate WrittenUpTo(files: seq<File>, parts: seq<seq<Entry>>, more: seq<seq<Entry>>, i: nat, nums: seq<nat>,
                              size: seq<Entry> -> nat, from: nat, next: nat) {
    i <= |more| && Written(files, parts + more[..i], nums, size, from, next)
  }

  lemma WrittenNext(files: seq<File>, parts: seq<seq<Entry>>, more: seq<seq<Entry>>, i: nat, nums: seq<nat>,
                    size: seq<Entry> -> nat, from: nat, next: nat, mem: seq<Entry>)
    requires WrittenUpTo(files, parts, more, i, nums, size, from, next) && i < |more| && mem == AddAll([], more[i])
    ensures WrittenUpTo(if mem != [] then files + [NewFile(next, size(mem), mem)] else files, parts, more, i + 1, nums + [next], size, from, next + 1)
  {
    NextPart(parts, more, i);
    WrittenMore(files, parts + more[..i], nums, size, from, next, more[i], mem);
  }

  lemma NextPart(parts: seq<seq<Entry>>, more: seq<seq<Entry>>, i: nat)
    requires i < |more|
    ensures parts + more[..i + 1] == (parts + more[..i]) + [more[i]]
  {
  }

  lemma WrittenMore(files: seq<File>, parts: seq<seq<Entry>>, nums: seq<nat>, size: seq<Entry> -> nat, from: nat, next: nat,
                    part: seq<Entry>, mem: seq<Entry>)
    requires Written(files, parts, nums, size, from, next) && mem == AddAll([], part)
    ensures Written(if mem != [] then files + [NewFile(next, size(mem), mem)] else files, parts + [part], nums + [next], size, from, next + 1)
  {
    OneMoreFile(parts, nums, size, part, next);
    assert files + [] == files;
  }

  lemma OneMoreFile(parts: seq<seq<Entry>>, nums: seq<nat>, size: seq<Entry> -> nat, part: seq<Entry>, n: nat)
    requires |nums| == |parts|
    ensures FilesOf(parts + [part], nums + [n], size) ==
            FilesOf(parts, nums, size) + if AddAll([], part) == [] then [] else [NewFile(n, size(AddAll([], part)), AddAll([], part))]
  {
    assert (parts + [part])[..|parts|] == parts && (nums + [n])[..|parts|] == nums;
  }

  // ---------------------------------------------------------------------
  // All logs
  // ---------------------------------------------------------------------

  function GatheredAll(crc: Crc, logs: seq<Bytes>): seq<Entry> {
    if logs == [] then [] else GatheredAll(crc, logs[..|logs| - 1]) + Gathered(ReadAll(crc, true, logs[|logs| - 1], Start).0)
  }

  function PromisedAll(crc: Crc, logs: seq<Bytes>): nat {
    if logs == [] then 0
    else Max(PromisedAll(crc, logs[..|logs| - 1]), LastPromised(ReadAll(crc, true, logs[|logs| - 1], Start).0))
  }

  predicate AllLogsGood(crc: Crc, logs: seq<Bytes>) {
    forall i :: 0 <= i < |logs| ==> GoodLog(crc, logs[i])
  }

  lemma OneMoreLog(crc: Crc, logs: seq<Bytes>, log: Bytes)
    ensures GatheredAll(crc, logs + [log]) == GatheredAll(crc, logs) + Gathered(ReadAll(crc, true, log, Start).0)
    ensures PromisedAll(crc, logs + [log]) == Max(PromisedAll(crc, logs), LastPromised(ReadAll(crc, true, log, Start).0))
  {
    assert (logs + [log])[..|logs|] == logs;
  }

  lemma OneMoreGood(crc: Crc, logs: seq<Bytes>, log: Bytes)
    ensures AllLogsGood(crc, logs + [log]) <==> AllLogsGood(crc, logs) && GoodLog(crc, log)
  {
    var all := logs + [log];
    assert all[|logs|] == log && forall i :: 0 <= i < |logs| ==> all[i] == logs[i];
  }

  /** What the logs so far have given: tables, and at the end perhaps a memtable that stays. */
  datatype Found = Found(ok: bool, files: seq<File>, kept: Option<seq<Entry>>, maxSequence: nat, next: nat)

  /** The entries behind the tables and behind the memtable that stays. */
  datatype Trace = Trace(parts: seq<seq<Entry>>, nums: seq<nat>, last: seq<Entry>)

  ghost predicate FoundIn(x: Found, t: Trace, crc: Crc, logs: seq<Bytes>, paranoid: bool, size: seq<Entry> -> nat, from: nat) {
    && Written(x.files, t.parts, t.nums, size, from, x.next)
    && (if x.kept.Some? then x.kept.value == AddAll([], t.last) else t.last == [])
    && (x.ok <==> !paranoid || AllLogsGood(crc, logs))
    && (x.ok ==> Flat(t.parts) + t.last == GatheredAll(crc, logs) && x.maxSequence == PromisedAll(crc, logs))
  }

  /** What the log holds never fills a memtable. */
  predicate StaysSmall(crc: Crc, log: Bytes, full: seq<Entry> -> bool) {
    NeverFull(Batches(ReadAll(crc, true, log, Start).0), Fills(full))
  }

  /** Whether the last log is gone on with. */
  predicate Reuses(crc: Crc, logs: seq<Bytes>, reuseLogs: bool, full: seq<Entry> -> bool) {
    reuseLogs && logs != [] && StaysSmall(crc, logs[|logs| - 1], full)
  }

  /** One log: its memtables are written out, except one that stays. */
  method RecoverOne(crc: Crc, log: Bytes, number: nat, paranoid: bool, reuse: bool, full: seq<Entry> -> bool, size: seq<Entry> -> nat,
                    x: Found, ghost t: Trace, ghost done: seq<Bytes>, ghost from: nat)
      returns (y: Found, ghost u: Trace)
    requires x.ok && x.kept.None? && FoundIn(x, t, crc, done, paranoid, size, from)
    ensures FoundIn(y, u, crc, done + [log], paranoid, size, from) && (y.kept.Some? <==> y.ok && reuse && StaysSmall(crc, log, full))
    ensures y.next > number && y.next >= x.next && (y.ok && y.kept.Some? ==> u.last == Gathered(ReadAll(crc, true, log, Start).0))
  {
    var ok, tables, kept, m, ps, _ := RecoverLogFile(crc, log, paranoid, reuse, full);
    ghost var more, last := if kept.Some? then [] else ps, if kept.Some? then ps[0] else [];
    KeptPart(tables, kept, ps, more, last);
    var files, next;
    ghost var nums;
    files, next, nums := WriteTables(tables, more, size, x.files, x.next, t.parts, t.nums, from);
    u := Trace(t.parts + more, nums, last);
    assert kept.Some? ==> Flat(more) + last == last;
    y := Found(ok, files, kept, Max(x.maxSequence, m), Max(next, number + 1));
    OneMoreFound(x, t, crc, done, log, paranoid, size, from, y, u, more, next, m);
  }

  lemma OneMoreFound(x: Found, t: Trace, crc: Crc, done: seq<Bytes>, log: Bytes, paranoid: bool, size: seq<Entry> -> nat, from: nat,
                     y: Found, u: Trace, more: seq<seq<Entry>>, next: nat, m: nat)
    requires x.ok && x.kept.None? && FoundIn(x, t, crc, done, paranoid, size, from)
    requires y.ok <==> !paranoid || GoodLog(crc, log)
    requires y.ok ==> var records := ReadAll(crc, true, log, Start).0; Flat(more) + u.last == Gathered(records) && m == LastPromised(records)
    requires u.parts == t.parts + more && Written(y.files, u.parts, u.nums, size, from, next)
    requires (if y.kept.Some? then y.kept.value == AddAll([], u.last) else u.last == [])
    requires y.next >= next && y.maxSequence == Max(x.maxSequence, m)
    ensures FoundIn(y, u, crc, done + [log], paranoid, size, from)
  {
    OneMoreLog(crc, done, log);
    OneMoreGood(crc, done, log);
    MorePieces(t, more, u.last, Flat(more) + u.last);
  }

  lemma MorePieces(t: Trace, more: seq<seq<Entry>>, last: seq<Entry>, all: seq<Entry>)
    requires t.last == [] && Flat(more) + last == all
    ensures Flat(t.parts + more) + last == Flat(t.parts) + t.last + all
  {
    FlatConcat(t.parts, more);
    assert Flat(t.parts) + [] == Flat(t.parts);
    Associates(Flat(t.parts), Flat(more), last);
  }

  lemma KeptPart(tables: seq<seq<Entry>>, kept: Option<seq<Entry>>, ps: seq<seq<Entry>>, more: seq<seq<Entry>>, last: seq<Entry>)
    requires Hold(tables + if kept.Some? then [kept.value] else [], ps) && (kept.Some? ==> tables == [])
    requires if kept.Some? then ps != [] && more == [] && last == ps[0] else more == ps && last == []
    ensures Hold(tables, more) && Flat(more) + last == Flat(ps)
    ensures if kept.Some? then kept.value == AddAll([], last) else last == []
  {
    if kept.Some? {
      assert tables + [kept.value] == [kept.value] && ps == [last];
      assert [last][..0] == [];
    } else {
      assert tables + [] == tables;
      assert Flat(ps) + [] == Flat(ps);
    }
  }

  /** The logs from the oldest one needed on, in the order of their numbers. */
  method RecoverLogs(crc: Crc, logs: seq<Bytes>, numbers: seq<nat>, paranoid: bool, reuseLogs: bool, full: seq<Entry> -> bool,
                     size: seq<Entry> -> nat, nextFile: nat)
      returns (x: Found, ghost t: Trace)
    requires |numbers| == |logs|
    ensures x.ok <==> !paranoid || AllLogsGood(crc, logs)
    ensures x.ok ==> FoundIn(x, t, crc, logs, paranoid, size, nextFile)
    ensures x.ok && x.kept.Some? ==> logs != [] && t.last == Gathered(ReadAll(crc, true, logs[|logs| - 1], Start).0)
    ensures x.kept.Some? <==> x.ok && Reuses(crc, logs, reuseLogs, full)
    ensures x.ok ==> NumbersUsed(numbers, |logs|, x.next)
  {
    x, t := Found(true, [], None, 0, nextFile), Trace([], [], []);
    var i: nat := 0;
    NothingFound(crc, logs, paranoid, size, nextFile);
    while i < |logs| && x.ok
      invariant FoundUpTo(x, t, crc, logs, i, paranoid, size, nextFile)
      invariant i <= |logs| && KeptUpTo(x, t, crc, logs, i, reuseLogs, full) && NumbersUsed(numbers, i, x.next)
      decreases |logs| - i
    {
      x, t := RecoverOne(crc, logs[i], numbers[i], paranoid, reuseLogs && i == |logs| - 1, full, size, x, t, logs[..i], nextFile);
      NextLog(x, t, crc, logs, i, paranoid, size, nextFile);
      i := i + 1;
    }
    EndOfLogs(x, t, crc, logs, i, paranoid, size, nextFile);
  }

  /** A memtable stays only behind the last log, and holds what that log has. */
  predicate KeptUpTo(x: Found, t: Trace, crc: Crc, logs: seq<Bytes>, i: nat, reuseLogs: bool, full: seq<Entry> -> bool) {
    && (x.kept.Some? <==> x.ok && i == |logs| && Reuses(crc, logs, reuseLogs, full))
    && (x.kept.Some? && logs != [] ==> t.last == Gathered(ReadAll(crc, true, logs[|logs| - 1], Start).0))
  }

  /** The numbers of the logs are taken. */
  predicate NumbersUsed(numbers: seq<nat>, i: nat, next: nat)
    requires i <= |numbers|
  {
    forall j :: 0 <= j < i ==> numbers[j] < next
  }

  /** What the first `i` logs have given. */
  ghost predicate FoundUpTo(x: Found, t: Trace, crc: Crc, logs: seq<Bytes>, i: nat, paranoid: bool, size: seq<Entry> -> nat, from: nat) {
    i <= |logs| && FoundIn(x, t, crc, logs[..i], paranoid, size, from)
  }

  lemma NextLog(x: Found, t: Trace, crc: Crc, logs: seq<Bytes>, i: nat, paranoid: bool, size: seq<Entry> -> nat, from: nat)
    requires i < |logs| && FoundIn(x, t, crc, logs[..i] + [logs[i]], paranoid, size, from)
    ensures FoundUpTo(x, t, crc, logs, i + 1, paranoid, size, from)
  {
    TakeNext(logs, i);
  }

  lemma EndOfLogs(x: Found, t: Trace, crc: Crc, logs: seq<Bytes>, i: nat, paranoid: bool, size: seq<Entry> -> nat, from: nat)
    requires FoundUpTo(x, t, crc, logs, i, paranoid, size, from) && (i < |logs| ==> !x.ok)
    ensures x.ok <==> !paranoid || AllLogsGood(crc, logs)
    ensures x.ok ==> FoundIn(x, t, crc, logs, paranoid, size, from)
  {
    StoppedLogs(crc, logs, i);
    assert i == |logs| ==> logs[..i] == logs;
  }

  lemma NothingFound(crc: Crc, logs: seq<Bytes>, paranoid: bool, size: seq<Entry> -> nat, nextFile: nat)
    ensures FoundUpTo(Found(true, [], None, 0, nextFile), Trace([], [], []), crc, logs, 0, paranoid, size, nextFile)
  {
    assert logs[..0] == [];
    var none: seq<seq<Entry>> := [];
    assert Flat(none) + [] == [];
  }

  lemma StoppedLogs(crc: Crc, logs: seq<Bytes>, i: nat)
    requires i <= |logs|
    ensures !AllLogsGood(crc, logs[..i]) ==> !AllLogsGood(crc, logs)
  {
    if !AllLogsGood(crc, logs[..i]) {
      var j :| 0 <= j < i && !GoodLog(crc, logs[..i][j]);
      assert logs[j] == logs[..i][j];
    }
  }

  // ---------------------------------------------------------------------
  // The tables that recovery writes
  // ---------------------------------------------------------------------

  predicate Small(es: seq<Entry>) {
    forall e :: e in es ==> e.seqno <= kMaxSequenceNumber
  }

  lemma AscendingPart(a: seq<Entry>, b: seq<Entry>)
    requires Ascending(a + b) && Small(a + b)
    ensures Ascending(a) && Ascending(b) && Small(a) && Small(b)
    ensures forall x, y :: x in a && y in b ==> x.seqno < y.seqno
  {
    var all := a + b;
    assert forall i :: 0 <= i < |a| ==> all[i] == a[i];
    assert forall i :: 0 <= i < |b| ==> all[|a| + i] == b[i];
    assert forall e :: e in a || e in b ==> e in all;
    forall x, y | x in a && y in b ensures x.seqno < y.seqno {
      var i :| 0 <= i < |a| && a[i] == x;
      var j :| 0 <= j < |b| && b[j] == y;
      assert all[i] == x && all[|a| + j] == y;
    }
  }

  /** A later file has a larger number and newer entries. */
  ghost predicate InAge(fs: seq<File>) {
    forall i, j :: 0 <= i < j < |fs| ==> fs[i].number < fs[j].number && NewerThan(fs[j], fs[i])
  }

  lemma WrittenFile(part: seq<Entry>, n: nat, size: nat)
    requires Ascending(part) && Small(part) && part != []
    ensures AddAll([], part) != [] && ValidFile(NewFile(n, size, AddAll([], part)))
    ensures Elements(AddAll([], part)) == Elements(part)
  {
    AddAllSorted(part);
    AddAllHolds([], part);
    var mem := AddAll([], part);
    assert part[0] in Elements(mem);
    forall e | e in mem ensures e.seqno <= kMaxSequenceNumber {
      assert e in Elements(part);
    }
  }

  ghost predicate GoodFiles(fs: seq<File>, es: seq<Entry>, from: nat, next: nat) {
    && ValidFiles(fs) && FileEntries(fs) == Elements(es) && InAge(fs)
    && forall f :: f in fs ==> from <= f.number < next
  }

  lemma {:induction false} FilesAreGood(parts: seq<seq<Entry>>, nums: seq<nat>, size: seq<Entry> -> nat, from: nat, next: nat)
    requires |nums| == |parts| && Taken(nums, from, next) && Ascending(Flat(parts)) && Small(Flat(parts))
    ensures GoodFiles(FilesOf(parts, nums, size), Flat(parts), from, next)
  {
    if parts != [] {
      var n := |parts| - 1;
      var init, part := Flat(parts[..n]), parts[n];
      AscendingPart(init, part);
      FilesAreGood(parts[..n], nums[..n], size, from, nums[n]);
      if part != [] {
        WrittenFile(part, nums[n], size(AddAll([], part)));
        FileAdded(FilesOf(parts[..n], nums[..n], size), init, part, from, nums[n], NewFile(nums[n], size(AddAll([], part)), AddAll([], part)));
        WiderRange(FilesOf(parts, nums, size), Flat(parts), from, nums[n] + 1, next);
      } else {
        assert init + part == init && AddAll([], part) == [];
        assert FilesOf(parts, nums, size) == FilesOf(parts[..n], nums[..n], size);
        WiderRange(FilesOf(parts, nums, size), Flat(parts), from, nums[n], next);
      }
    }
  }

  lemma WiderRange(fs: seq<File>, es: seq<Entry>, from: nat, next: nat, wider: nat)
    requires GoodFiles(fs, es, from, next) && next <= wider
    ensures GoodFiles(fs, es, from, wider)
  {
  }

  lemma FileAdded(fs: seq<File>, init: seq<Entry>, part: seq<Entry>, from: nat, n: nat, f: File)
    requires GoodFiles(fs, init, from, n) && from <= n && ValidFile(f) && f.number == n && Elements(f.entries) == Elements(part)
    requires forall x, y :: x in init && y in part ==> x.seqno < y.seqno
    ensures GoodFiles(fs + [f], init + part, from, n + 1)
  {
    forall g | g in fs ensures NewerThan(f, g) {
      forall x, y | x in f.entries && y in g.entries ensures x.seqno > y.seqno {
        FileEntriesOf(fs, g, y);
        assert x in Elements(part) && y in Elements(init);
      }
    }
    assert forall i :: 0 <= i < |fs| ==> fs[i] in fs;
    OneMoreEntries(fs, f);
    assert Elements(init + part) == Elements(init) + Elements(part);
  }

  lemma OneMoreEntries(fs: seq<File>, f: File)
    ensures FileEntries(fs + [f]) == FileEntries(fs) + Elements(f.entries)
  {
    forall e ensures e in FileEntries(fs + [f]) <==> e in FileEntries(fs) || e in f.entries {
      if e in FileEntries(fs + [f]) {
        var g := FileOfEntry(fs + [f], e);
        if g in fs { FileEntriesOf(fs, g, e); }
      }
      if e in FileEntries(fs) {
        var g := FileOfEntry(fs, e);
        FileEntriesOf(fs + [f], g, e);
      }
      if e in f.entries { FileEntriesOf(fs + [f], f, e); }
    }
  }

  // ---------------------------------------------------------------------
  // The version after recovery
  // ---------------------------------------------------------------------

  function AtLevelZero(fs: seq<File>): (r: seq<(nat, File)>)
    ensures |r| == |fs| && forall i {:trigger r[i]} :: 0 <= i < |r| ==> r[i] == (0, fs[i])
    ensures forall l: nat, f :: (l, f) in r <==> l == 0 && f in fs
  {
    var r := seq(|fs|, i requires 0 <= i < |fs| => (0, fs[i]));
    assert forall i :: 0 <= i < |fs| ==> r[i] == (0, fs[i]);
    r
  }

  /** The edit of recovery: all tables go to level zero. */
  method AddRecovered(v: Version, files: seq<File>, ghost es: seq<Entry>, ghost from: nat, ghost next: nat) returns (w: Version)
    requires ValidVersion(v) && InOrder(v) && NumbersNameFiles(v) && NumbersBelow(v, from)
    requires GoodFiles(files, es, from, next) && Newer(es, VersionEntries(v)) && from <= next
    ensures ValidVersion(w) && InOrder(w) && VersionEntries(w) == VersionEntries(v) + Elements(es)
    ensures NumbersNameFiles(w) && NumbersBelow(w, next) && Follows(v, w, VersionEdit({}, AtLevelZero(files)))
  {
    var e := VersionEdit({}, AtLevelZero(files));
    FreshlyNumbered(v, files, es, from, next);
    w := TableWork.LogAndApply(v, e);
    LevelZeroGrows(v, w, files);
    RecoveredIsValid(v, w, files, es, from, next);
    StillNamed(v, w, files, es, from, next);
  }

  lemma StillNamed(v: Version, w: Version, files: seq<File>, es: seq<Entry>, from: nat, next: nat)
    requires NumbersNameFiles(v) && NumbersBelow(v, from) && ZeroGrown(v, w, files) && GoodFiles(files, es, from, next) && from <= next
    ensures NumbersNameFiles(w) && NumbersBelow(w, next)
  {
    forall l, f | 0 <= l < |w| && f in w[l] ensures (f in v[l] && f.number < from) || (f in files && from <= f.number < next) {
    }
    AgesNameFiles(files);
  }

  lemma AgesNameFiles(files: seq<File>)
    requires InAge(files)
    ensures forall f, g :: f in files && g in files && f.number == g.number ==> f == g
  {
  }

  ghost predicate Newer(es: seq<Entry>, S: set<Entry>) {
    forall x, y :: x in es && y in S ==> x.seqno > y.seqno
  }

  lemma FreshlyNumbered(v: Version, files: seq<File>, es: seq<Entry>, from: nat, next: nat)
    requires NumbersBelow(v, from) && GoodFiles(files, es, from, next) && |v| == kNumLevels
    ensures TableWork.FreshFiles(v, VersionEdit({}, AtLevelZero(files)))
  {
    AgesNameFiles(files);
  }

  /** Level zero has the new files too, and the other levels are the same. */
  ghost predicate ZeroGrown(v: Version, w: Version, files: seq<File>) {
    && |v| == |w| == kNumLevels && SortedBySmallest(w[0])
    && (forall f :: f in w[0] <==> f in v[0] || f in files)
    && forall l :: 0 < l < kNumLevels ==> w[l] == v[l]
  }

  lemma LevelZeroGrows(v: Version, w: Version, files: seq<File>)
    requires InOrder(v) && Follows(v, w, VersionEdit({}, AtLevelZero(files)))
    ensures ZeroGrown(v, w, files)
  {
    forall f ensures f in w[0] <==> f in v[0] || f in files {
      assert (0, f) in AtLevelZero(files) <==> f in files;
    }
    forall l | 0 < l < kNumLevels ensures w[l] == v[l] {
      forall f ensures f in v[l] <==> f in w[l] {
        assert (l, f) !in AtLevelZero(files);
      }
      SameMembersSameLevel(v[l], w[l]);
    }
  }

  lemma RecoveredEntries(v: Version, w: Version, files: seq<File>)
    requires ZeroGrown(v, w, files)
    ensures VersionEntries(w) == VersionEntries(v) + FileEntries(files)
  {
    forall e | e in VersionEntries(w) ensures e in VersionEntries(v) + FileEntries(files) {
      var l, f :| 0 <= l < |w| && f in w[l] && e in f.entries;
      if f in v[l] { VersionEntriesOf(v, l, f, e); } else { FileEntriesOf(files, f, e); }
    }
    forall e | e in VersionEntries(v) + FileEntries(files) ensures e in VersionEntries(w) {
      if e in VersionEntries(v) {
        var l, f :| 0 <= l < |v| && f in v[l] && e in f.entries;
        VersionEntriesOf(w, l, f, e);
      } else {
        var f := FileOfEntry(files, e);
        VersionEntriesOf(w, 0, f, e);
      }
    }
  }

  lemma RecoveredNewer(v: Version, files: seq<File>, es: seq<Entry>, f: File, l: nat, g: File)
    requires FileEntries(files) == Elements(es) && Newer(es, VersionEntries(v)) && f in files && l < |v| && g in v[l]
    ensures NewerThan(f, g)
  {
    forall x, y | x in f.entries && y in g.entries ensures x.seqno > y.seqno {
      FileEntriesOf(files, f, x);
      VersionEntriesOf(v, l, g, y);
      assert x in Elements(es);
    }
  }

  lemma ZeroAges(v: Version, w: Version, files: seq<File>, es: seq<Entry>, from: nat, next: nat)
    requires ValidVersion(v) && NumbersBelow(v, from) && ZeroGrown(v, w, files)
    requires GoodFiles(files, es, from, next) && Newer(es, VersionEntries(v))
    ensures DistinctNumbers(w[0]) && AgedByNumber(w[0])
  {
    forall f, g | f in w[0] && g in w[0] && f.number > g.number ensures NewerThan(f, g) {
      if f in files && g in v[0] { RecoveredNewer(v, files, es, f, 0, g); }
    }
    forall i, j | 0 <= i < j < |w[0]| ensures w[0][i].number != w[0][j].number {
      var f, g := w[0][i], w[0][j];
      assert BySmallest(f, g) && f in w[0] && g in w[0];
      if f in v[0] && g in v[0] { NumbersIdentify(v[0], f, g); }
    }
  }

  lemma RecoveredIsValid(v: Version, w: Version, files: seq<File>, es: seq<Entry>, from: nat, next: nat)
    requires ValidVersion(v) && InOrder(v) && NumbersBelow(v, from) && ZeroGrown(v, w, files)
    requires GoodFiles(files, es, from, next) && Newer(es, VersionEntries(v))
    ensures ValidVersion(w) && InOrder(w) && VersionEntries(w) == VersionEntries(v) + Elements(es)
  {
    RecoveredEntries(v, w, files);
    ZeroAges(v, w, files, es, from, next);
    forall l, m, f, g | 0 <= l < m < |w| && f in w[l] && g in w[m] ensures NewerThan(f, g) {
      if l == 0 && f in files { RecoveredNewer(v, files, es, f, m, g); }
    }
  }

  // ---------------------------------------------------------------------
  // The directory
  // ---------------------------------------------------------------------

  /** What ParseFileName makes of the names that carry a number. */
  datatype FileName = LogFile(number: nat) | TableFile(number: nat) | OtherFile(number: nat)

  /** A log that recovery must read. */
  predicate Needed(f: FileName, minLog: nat, prevLog: nat) {
    f.LogFile? && (f.number >= minLog || f.number == prevLog)
  }

  /** The needed logs in the order of their numbers; None if a live table is missing. */
  method FindLogs(names: seq<FileName>, live: set<nat>, minLog: nat, prevLog: nat) returns (logs: Option<seq<nat>>)
    ensures logs.None? <==> exists n :: n in live && forall f :: f in names ==> f.number != n
    ensures logs.Some? ==> forall i, j :: 0 <= i < j < |logs.value| ==> logs.value[i] <= logs.value[j]
    ensures logs.Some? ==> forall n :: n in logs.value <==> exists f :: f in names && f.number == n && Needed(f, minLog, prevLog)
  {
    var expected, found: seq<nat> := live, [];
    for i := 0 to |names|
      invariant forall n :: n in expected <==> n in live && forall f :: f in names[..i] ==> f.number != n
      invariant forall a, b :: 0 <= a < b < |found| ==> found[a] <= found[b]
      invariant forall n :: n in found <==> exists f :: f in names[..i] && f.number == n && Needed(f, minLog, prevLog)
    {
      assert names[..i + 1] == names[..i] + [names[i]];
      expected := expected - {names[i].number};
      if Needed(names[i], minLog, prevLog) {
        found := InsertNumber(found, names[i].number);
      }
    }
    assert names[..|names|] == names;
    logs := if expected != {} then None else Some(found);
  }

  method InsertNumber(ns: seq<nat>, n: nat) returns (r: seq<nat>)
    requires forall a, b :: 0 <= a < b < |ns| ==> ns[a] <= ns[b]
    ensures forall a, b :: 0 <= a < b < |r| ==> r[a] <= r[b]
    ensures forall m :: m in r <==> m in ns || m == n
  {
    var p := 0;
    while p < |ns| && ns[p] < n
      invariant 0 <= p <= |ns| && forall i :: 0 <= i < p ==> ns[i] < n
    {
      p := p + 1;
    }
    assert ns == ns[..p] + ns[p..];
    r := ns[..p] + [n] + ns[p..];
  }

  // ---------------------------------------------------------------------
  // What is on disk after a crash
  // ---------------------------------------------------------------------

  /**
   * The manifest holds the encodings of the edits, which were all synced, and perhaps a part of one more record,
   * which was being written.
   */
  ghost predicate ManifestOf(crc: Crc, edits: seq<Manifest.Edit>, manifest: Bytes) {
    exists records, rest :: Encodes(records, edits) && CutBehind(crc, records, rest, manifest)
  }

  ghost predicate CutBehind(crc: Crc, records: seq<Bytes>, rest: Bytes, file: Bytes) {
    EncodeAll(crc, records) <= file <= EncodeAll(crc, records + [rest]) && |file| < |EncodeAll(crc, records + [rest])|
  }

  /** The log of some groups, cut at or after what was synced. */
  ghost predicate LogOf(crc: Crc, groups: seq<Group>, synced: nat, log: Bytes) {
    && AllFit(groups) && synced <= |groups| && log <= EncodeAll(crc, Reps(groups))
    && |EncodeAll(crc, Reps(groups)[..synced])| <= |log|
  }

  /** The log of the groups from `from` to `to`, of which those before `synced` were synced. */
  ghost predicate PieceLog(s: System, crc: Crc, from: nat, synced: nat, to: nat, log: Bytes) {
    from <= synced <= to <= |s.groups| && LogOf(crc, s.groups[from..to], synced - from, log)
  }

  /** The logs that are still needed: that of the immutable memtable, if there is one, and the current one. */
  ghost predicate LogsOf(s: System, crc: Crc, logs: seq<Bytes>)
    requires Bounds(s)
  {
    && |logs| == (if s.db.imm.Some? then 2 else 1)
    && (s.db.imm.Some? ==> PieceLog(s, crc, s.flushed, s.syncedSealed, s.sealed, logs[0]))
    && PieceLog(s, crc, s.sealed, s.synced, |s.groups|, logs[|logs| - 1])
  }

  /** A log without problems, and the groups of its batches. */
  ghost predicate Gives(crc: Crc, log: Bytes, gs: seq<Group>) {
    var records := ReadAll(crc, true, log, Start).0;
    GoodLog(crc, log) && Gathered(records) == GroupEntries(gs) && LastPromised(records) == LastNumber(gs)
  }

  /** One log gives back the groups wholly inside it, and these include what was synced. */
  lemma OneLogBack(crc: Crc, groups: seq<Group>, synced: nat, log: Bytes) returns (m: nat)
    requires LogOf(crc, groups, synced, log)
    ensures synced <= m <= |groups| && Gives(crc, log, groups[..m])
  {
    m := LogGivesBack(crc, groups, |log|);
    assert EncodeAll(crc, Reps(groups))[..|log|] == log;
  }

  /** The log of the groups from `from` to `to`. */
  lemma PieceBack(s: System, crc: Crc, from: nat, synced: nat, to: nat, log: Bytes) returns (m: nat)
    requires PieceLog(s, crc, from, synced, to, log)
    ensures synced <= m <= to && Gives(crc, log, s.groups[from..m])
  {
    var n := OneLogBack(crc, s.groups[from..to], synced - from, log);
    m := from + n;
    SliceOfSlice(s.groups, from, to, n, m);
  }

  lemma SliceOfSlice(groups: seq<Group>, from: nat, to: nat, n: nat, m: nat)
    requires from <= to <= |groups| && n <= to - from && m == from + n
    ensures groups[from..to][..n] == groups[from..m]
  {
  }

  ghost predicate AllGive(crc: Crc, logs: seq<Bytes>, gs: seq<Group>) {
    AllLogsGood(crc, logs) && GatheredAll(crc, logs) == GroupEntries(gs) && PromisedAll(crc, logs) == LastNumber(gs)
  }

  lemma {:induction false} LastOfBoth(x: seq<Group>, y: seq<Group>)
    ensures LastNumber(x + y) == Max(LastNumber(x), LastNumber(y))
    decreases |y|
  {
    if y == [] {
      assert x + y == x;
    } else {
      LastOfBoth(x, y[..|y| - 1]);
      assert (x + y)[..|x + y| - 1] == x + y[..|y| - 1];
    }
  }

  /** What one log, or two, give back together. */
  lemma OneLog(crc: Crc, log: Bytes, y: seq<Group>)
    requires Gives(crc, log, y)
    ensures AllGive(crc, [log], y)
  {
    OneMoreLog(crc, [], log);
    OneMoreGood(crc, [], log);
    assert [] + [log] == [log] && [] + GroupEntries(y) == GroupEntries(y);
  }

  lemma TwoLogs(crc: Crc, first: Bytes, last: Bytes, x: seq<Group>, y: seq<Group>)
    requires Gives(crc, first, x) && Gives(crc, last, y)
    ensures AllGive(crc, [first, last], x + y)
  {
    OneLog(crc, first, x);
    OneMoreLog(crc, [first], last);
    OneMoreGood(crc, [first], last);
    assert [first] + [last] == [first, last];
    GroupsConcat(x, y);
    LastOfBoth(x, y);
  }

  /** The groups that the logs are left with. */
  function LeftInLogs(s: System, a: nat, b: nat): seq<Group>
    requires Survives(s, a, b)
  {
    s.groups[s.flushed..a] + s.groups[s.sealed..b]
  }

  /** The logs give these groups, and the last log the ones behind the sealed ones. */
  ghost predicate LogsGive(s: System, crc: Crc, logs: seq<Bytes>, a: nat, b: nat) {
    && Survives(s, a, b) && AllGive(crc, logs, LeftInLogs(s, a, b))
    && logs != [] && Gives(crc, logs[|logs| - 1], s.groups[s.sealed..b])
  }

  /** Together the logs give back what survives of the groups that were not flushed. */
  lemma LogsBack(s: System, crc: Crc, logs: seq<Bytes>) returns (a: nat, b: nat)
    requires Bounds(s) && (s.db.imm.None? ==> s.flushed == s.sealed) && LogsOf(s, crc, logs)
    ensures LogsGive(s, crc, logs, a, b)
  {
    OneOrTwo(logs);
    if s.db.imm.Some? {
      a, b := BothLogsBack(s, crc, logs[0], logs[1]);
    } else {
      a := s.flushed;
      b := LastLogBack(s, crc, logs[0]);
    }
  }

  lemma BothLogsBack(s: System, crc: Crc, first: Bytes, last: Bytes) returns (a: nat, b: nat)
    requires Bounds(s) && PieceLog(s, crc, s.flushed, s.syncedSealed, s.sealed, first)
    requires PieceLog(s, crc, s.sealed, s.synced, |s.groups|, last)
    ensures LogsGive(s, crc, [first, last], a, b)
  {
    a := PieceBack(s, crc, s.flushed, s.syncedSealed, s.sealed, first);
    b := PieceBack(s, crc, s.sealed, s.synced, |s.groups|, last);
    BothGive(s, crc, first, last, a, b);
  }

  lemma BothGive(s: System, crc: Crc, first: Bytes, last: Bytes, a: nat, b: nat)
    requires Survives(s, a, b) && Gives(crc, first, s.groups[s.flushed..a]) && Gives(crc, last, s.groups[s.sealed..b])
    ensures LogsGive(s, crc, [first, last], a, b)
  {
    TwoLogs(crc, first, last, s.groups[s.flushed..a], s.groups[s.sealed..b]);
    LastOfTwo(first, last);
  }

  lemma LastOfTwo(first: Bytes, last: Bytes)
    ensures [first, last] != [] && [first, last][|[first, last]| - 1] == last
  {
  }

  lemma LastLogBack(s: System, crc: Crc, last: Bytes) returns (b: nat)
    requires Bounds(s) && s.flushed == s.sealed && PieceLog(s, crc, s.sealed, s.synced, |s.groups|, last)
    ensures LogsGive(s, crc, [last], s.flushed, b)
  {
    b := PieceBack(s, crc, s.sealed, s.synced, |s.groups|, last);
    LastGives(s, crc, last, b);
  }

  lemma LastGives(s: System, crc: Crc, last: Bytes, b: nat)
    requires Survives(s, s.flushed, b) && s.flushed == s.sealed && Gives(crc, last, s.groups[s.sealed..b])
    ensures LogsGive(s, crc, [last], s.flushed, b)
  {
    OneLog(crc, last, s.groups[s.sealed..b]);
    NoneAndSome(s.groups, s.flushed, b);
  }

  lemma NoneAndSome(groups: seq<Group>, i: nat, b: nat)
    requires i <= b <= |groups|
    ensures groups[i..i] + groups[i..b] == groups[i..b]
  {
  }

  lemma LeftEntries(s: System, a: nat, b: nat)
    requires Survives(s, a, b)
    ensures GroupEntries(LeftInLogs(s, a, b)) == Between(s, s.flushed, a) + Between(s, s.sealed, b)
  {
    GroupsConcat(s.groups[s.flushed..a], s.groups[s.sealed..b]);
  }

  /** The last number that the manifest and the logs know of covers all that is left, and is none too large. */
  lemma LastIsKnown(s: System, a: nat, b: nat, base: nat)
    requires HandedOut(s) && Survives(s, a, b) && LastNumber(s.groups[..s.flushed]) <= base <= s.db.lastSequence
    ensures LastNumber(SurvivingGroups(s, a, b)) <= Max(base, LastNumber(LeftInLogs(s, a, b))) <= s.db.lastSequence
  {
    var left := LeftInLogs(s, a, b);
    FlushedAndLeft(s, a, b);
    LastOfBoth(s.groups[..s.flushed], left);
    LastOfBoth(s.groups[s.flushed..a], s.groups[s.sealed..b]);
    PieceHandedOut(s, s.flushed, a);
    PieceHandedOut(s, s.sealed, b);
  }

  lemma FlushedAndLeft(s: System, a: nat, b: nat)
    requires Survives(s, a, b)
    ensures SurvivingGroups(s, a, b) == s.groups[..s.flushed] + LeftInLogs(s, a, b)
  {
    assert s.groups[..a] == s.groups[..s.flushed] + s.groups[s.flushed..a];
  }

  lemma PieceHandedOut(s: System, from: nat, to: nat)
    requires HandedOut(s) && from <= to <= |s.groups|
    ensures LastNumber(s.groups[from..to]) <= s.db.lastSequence
  {
    var gs := s.groups[from..to];
    forall i | 0 <= i < |gs| ensures LastOf(gs[i]) <= s.db.lastSequence {
      assert gs[i] == s.groups[from + i];
    }
    LastNumberIs(gs, s.db.lastSequence);
  }

  // ---------------------------------------------------------------------
  // Reopening
  // ---------------------------------------------------------------------

  /** The levels are valid, and reads at the last sequence number follow the history that survived. */
  ghost predicate Restores(o: Opened, s: System, a: nat, b: nat) {
    && Survives(s, a, b) && ValidVersion(o.version) && InOrder(o.version) && SortedEntries(o.mem)
    && HeldBy(o) == Salvaged(s, a, b)
    && (forall x :: x in HeldBy(o) ==> x.seqno <= o.lastSequence)
    && forall k :: View(HeldBy(o), k, o.lastSequence) == Lookup(Replay(Surviving(s, a, b)), k)
  }

  /** What recovery made of the manifest. */
  ghost predicate BaseOf(s: System, base: ManifestReplay.Recovered) {
    && Bounds(s) && base.version == s.db.version && NumbersBelow(base.version, base.nextFile)
    && LastNumber(s.groups[..s.flushed]) <= base.lastSequence <= s.db.lastSequence
  }

  /** What is needed of the base and of the logs to write tables on top of it. */
  ghost predicate Ready(crc: Crc, base: ManifestReplay.Recovered, logs: seq<Bytes>) {
    var v, es := base.version, GatheredAll(crc, logs);
    && ValidVersion(v) && InOrder(v) && NumbersNameFiles(v) && NumbersBelow(v, base.nextFile)
    && AllLogsGood(crc, logs) && Ascending(es) && Small(es) && Newer(es, VersionEntries(v))
  }

  /** The base with tables of `first`, and a memtable of `last` that stays. */
  ghost predicate BuiltOn(o: Opened, base: ManifestReplay.Recovered, crc: Crc, logs: seq<Bytes>, first: seq<Entry>, last: seq<Entry>) {
    && ValidVersion(o.version) && InOrder(o.version) && NumbersNameFiles(o.version) && NumbersBelow(o.version, o.nextFile)
    && VersionEntries(o.version) == VersionEntries(base.version) + Elements(first)
    && first + last == GatheredAll(crc, logs) && o.mem == AddAll([], last)
    && (if o.kept then logs != [] && last == Gathered(ReadAll(crc, true, logs[|logs| - 1], Start).0) else last == [])
    && o.lastSequence == Max(base.lastSequence, PromisedAll(crc, logs))
  }

  /** DBImpl::Recover after the manifest, and the end of DB::Open. */
  method OpenLogs(crc: Crc, base: ManifestReplay.Recovered, logs: seq<Bytes>, numbers: seq<nat>, paranoid: bool, reuseLogs: bool,
                  full: seq<Entry> -> bool, size: seq<Entry> -> nat)
      returns (o: Opened, ghost first: seq<Entry>, ghost last: seq<Entry>, ghost files: seq<File>)
    requires |numbers| == |logs| && Ready(crc, base, logs)
    ensures BuiltOn(o, base, crc, logs, first, last) && (o.kept <==> Reuses(crc, logs, reuseLogs, full))
    ensures NumbersUsed(numbers, |logs|, o.nextFile)
    ensures Follows(base.version, o.version, VersionEdit({}, AtLevelZero(files)))
  {
    var x, t := RecoverLogs(crc, logs, numbers, paranoid, reuseLogs, full, size, base.nextFile);
    FoundSplits(x, t, crc, logs, paranoid, size, base);
    var w := AddRecovered(base.version, x.files, Flat(t.parts), base.nextFile, x.next);
    var mem := if x.kept.Some? then x.kept.value else [];
    o := Opened(w, mem, x.kept.Some?, Max(base.lastSequence, x.maxSequence), x.next);
    first, last, files := Flat(t.parts), t.last, x.files;
    OpenedIsBuilt(o, base, crc, logs, x, t, paranoid, size, w, first, last);
  }

  lemma OpenedIsBuilt(o: Opened, base: ManifestReplay.Recovered, crc: Crc, logs: seq<Bytes>, x: Found, t: Trace, paranoid: bool,
                      size: seq<Entry> -> nat, w: Version, first: seq<Entry>, last: seq<Entry>)
    requires x.ok && FoundIn(x, t, crc, logs, paranoid, size, base.nextFile) && first == Flat(t.parts) && last == t.last
    requires x.kept.Some? ==> logs != [] && last == Gathered(ReadAll(crc, true, logs[|logs| - 1], Start).0)
    requires ValidVersion(w) && InOrder(w) && VersionEntries(w) == VersionEntries(base.version) + Elements(first)
    requires NumbersNameFiles(w) && NumbersBelow(w, x.next)
    requires o.version == w && o.nextFile == x.next && o.kept == x.kept.Some?
    requires o.mem == (if x.kept.Some? then x.kept.value else []) && o.lastSequence == Max(base.lastSequence, x.maxSequence)
    ensures BuiltOn(o, base, crc, logs, first, last)
  {
    assert AddAll([], []) == [];
  }

  /** What the logs gave has increasing numbers above those of the tables. */
  lemma FoundSplits(x: Found, t: Trace, crc: Crc, logs: seq<Bytes>, paranoid: bool, size: seq<Entry> -> nat, base: ManifestReplay.Recovered)
    requires x.ok && FoundIn(x, t, crc, logs, paranoid, size, base.nextFile) && Ready(crc, base, logs)
    ensures GoodFiles(x.files, Flat(t.parts), base.nextFile, x.next) && base.nextFile <= x.next
    ensures Newer(Flat(t.parts), VersionEntries(base.version)) && Flat(t.parts) + t.last == GatheredAll(crc, logs)
  {
    var w := Flat(t.parts) + t.last;
    assert Ascending(w) && Small(w);
    AscendingPart(Flat(t.parts), t.last);
    FilesAreGood(t.parts, t.nums, size, base.nextFile, x.next);
    assert forall e :: e in Flat(t.parts) ==> e in w;
  }

  /** The logs that a crash leaves are ready for it. */
  lemma LogsAreReady(s: System, crc: Crc, base: ManifestReplay.Recovered, logs: seq<Bytes>, a: nat, b: nat)
    requires SystemInv(s) && BaseOf(s, base) && LogsGive(s, crc, logs, a, b)
    ensures Ready(crc, base, logs)
  {
    LeftEntries(s, a, b);
    SurvivorsAbove(s, a, b);
    SurvivorsSmall(s, a, b);
  }

  lemma BuiltHandsOver(s: System, crc: Crc, base: ManifestReplay.Recovered, logs: seq<Bytes>, a: nat, b: nat,
                       o: Opened, first: seq<Entry>, last: seq<Entry>)
    requires HandedOut(s) && BaseOf(s, base) && LogsGive(s, crc, logs, a, b) && BuiltOn(o, base, crc, logs, first, last)
    ensures HandsOver(o, s, a, b, first, last)
  {
    LeftEntries(s, a, b);
    LastIsKnown(s, a, b, base.lastSequence);
  }

  lemma SurvivorsSmall(s: System, a: nat, b: nat)
    requires SystemInv(s) && Survives(s, a, b)
    ensures Small(Between(s, s.flushed, a) + Between(s, s.sealed, b))
  {
    PartIsAbove(s, {}, s.flushed, a);
    PartIsAbove(s, {}, s.sealed, b);
  }

  /** What is handed over restores the history that survived. */
  lemma HandedOverRestores(o: Opened, s: System, a: nat, b: nat, first: seq<Entry>, last: seq<Entry>)
    requires Starts(s) && HandsOver(o, s, a, b, first, last)
    ensures Restores(o, s, a, b)
  {
    NextHeldBy(o, s, a, b, first, last);
    SurvivingNumbers(o, s, a, b);
    assert forall x :: x in HeldBy(o) ==> x in Elements(Surviving(s, a, b));
    forall k ensures View(HeldBy(o), k, o.lastSequence) == Lookup(Replay(Surviving(s, a, b)), k) {
      RecoveredReads(s, a, b, k, o.lastSequence);
    }
  }

  lemma ManifestReads(crc: Crc, edits: seq<Manifest.Edit>, manifest: Bytes) returns (records: seq<Bytes>)
    requires ManifestOf(crc, edits, manifest)
    ensures Encodes(records, edits) && ReadAll(crc, true, manifest, Start) == (records, 0)
  {
    var rest;
    records, rest :| Encodes(records, edits) && CutBehind(crc, records, rest, manifest);
    CutReads(crc, records, rest, manifest);
  }

  /** Whole records with part of another one behind them give back the whole ones. */
  lemma CutReads(crc: Crc, records: seq<Bytes>, rest: Bytes, manifest: Bytes)
    requires CutBehind(crc, records, rest, manifest)
    ensures ReadAll(crc, true, manifest, Start) == (records, 0)
  {
    var all := records + [rest];
    var m := LogRecovery.CrashPrefix(crc, true, all, |manifest|);
    assert EncodeAll(crc, all)[..|manifest|] == manifest;
    assert all[..|records|] == records && all[..|all|] == all;
    assert |records| <= m <==> |EncodeAll(crc, all[..|records|])| <= |manifest|;
    assert |all| <= m <==> |EncodeAll(crc, all[..|all|])| <= |manifest|;
  }

  lemma ManifestRestored(s: Store, crc: Crc, comparator: Bytes, open: Opener, manifest: Bytes, base: Option<ManifestReplay.Recovered>)
    requires Journaled(s, comparator, open) && ManifestOf(crc, s.edits, manifest)
    requires IsRecovery(crc, comparator, open, manifest, base)
    ensures base.Some? && BaseOf(s.sys, base.value)
  {
    var records := ManifestReads(crc, s.edits, manifest);
    NamesAreUsedOnce(Meanings(s.edits, open), s.sys.db.nextFile);
    RecoversEdits(crc, comparator, open, s.edits, records, s.versions, manifest, base);
  }

  /**
   * After a crash at any moment, whatever is left of the logs beyond what was synced: recovery succeeds, the
   * levels are valid, and reads follow the history of the groups that survived, among them every synced one.
   * The database is again one that may start, so all of this holds for its runs and crashes.
   */
  method Reopen(crc: Crc, comparator: Bytes, manifest: Bytes, logs: seq<Bytes>, numbers: seq<nat>, open: Opener,
                paranoid: bool, reuseLogs: bool, full: seq<Entry> -> bool, size: seq<Entry> -> nat, ghost s: Store)
      returns (r: Option<Opened>, ghost a: nat, ghost b: nat, ghost files: seq<File>)
    requires |numbers| == |logs| && StoreStarts(s, comparator, open)
    requires ManifestOf(crc, s.edits, manifest) && LogsOf(s.sys, crc, logs)
    ensures r.Some? && Restores(r.value, s.sys, a, b)
    ensures Starts(Next(s.sys, a, b, r.value)) && Begins(Next(s.sys, a, b, r.value).db)
    ensures Follows(s.sys.db.version, r.value.version, VersionEdit({}, AtLevelZero(files)))
  {
    a, b := LogsBack(s.sys, crc, logs);
    var base := ManifestReplay.Recover(crc, manifest, comparator, open);
    ManifestRestored(s, crc, comparator, open, manifest, base);
    var o;
    ghost var first, last;
    LogsAreReady(s.sys, crc, base.value, logs, a, b);
    o, first, last, files := OpenLogs(crc, base.value, logs, numbers, paranoid, reuseLogs, full, size);
    BuiltHandsOver(s.sys, crc, base.value, logs, a, b, o, first, last);
    HandedOverRestores(o, s.sys, a, b, first, last);
    NextStarts(o, s.sys, a, b, first, last);
    NextBegins(o, s.sys, a, b, first, last);
    r := Some(o);
  }

  // ---------------------------------------------------------------------
  // The new manifest
  // ---------------------------------------------------------------------

  /** The first two edits of the manifest that is written when a database is opened: a snapshot, and what recovery did. */
  ghost predicate Rewritten(v: Version, o: Opened, files: seq<File>, e1: Manifest.Edit, e2: Manifest.Edit, comparator: Bytes, open: Opener) {
    && Manifest.FitsEdit(e1) && Manifest.FitsEdit(e2) && e1.comparator == Some(comparator) && e2.comparator.None?
    && IsSnapshot(v, Meaning(e1, open)) && Meaning(e2, open) == VersionEdit({}, AtLevelZero(files))
    && e2.logNumber.Some? && e2.nextFileNumber == Some(o.nextFile) && e2.lastSequence == Some(o.lastSequence)
  }

  lemma SnapshotFollows(v: Version, e: VersionEdit)
    requires IsSnapshot(v, e) && InOrder(v)
    ensures Follows(Levelless, v, e)
  {
    assert forall l :: 0 <= l < kNumLevels ==> Levelless[l] == [];
  }

  /** All files of the two edits are files of the version that was opened. */
  lemma RewrittenAdds(v: Version, w: Version, files: seq<File>, e1: VersionEdit, e2: VersionEdit, f: File)
    requires IsSnapshot(v, e1) && e2 == VersionEdit({}, AtLevelZero(files)) && Follows(v, w, e2) && Mentions([e1, e2], f)
    ensures exists l :: 0 <= l < |w| && f in w[l]
  {
    if AddsFile(e1, f) {
      var x :| x in e1.newFiles && x.1 == f;
      assert (x.0, f) in e1.newFiles && f in w[x.0];
    } else {
      var x :| x in e2.newFiles && x.1 == f;
      assert (0, f) in e2.newFiles && f in w[0];
    }
  }

  lemma RewrittenNames(v: Version, w: Version, files: seq<File>, e1: VersionEdit, e2: VersionEdit, next: nat)
    requires IsSnapshot(v, e1) && e2 == VersionEdit({}, AtLevelZero(files)) && Follows(v, w, e2)
    requires NumbersNameFiles(w) && NumbersBelow(w, next)
    ensures NamesFiles([e1, e2], next)
  {
    forall f | Mentions([e1, e2], f) ensures exists l :: 0 <= l < |w| && f in w[l] {
      RewrittenAdds(v, w, files, e1, e2, f);
    }
  }

  /** A store that begins with them may start. */
  lemma RewrittenStarts(s: System, t: System, o: Opened, files: seq<File>, e1: Manifest.Edit, e2: Manifest.Edit, comparator: Bytes, open: Opener)
    requires InOrder(s.db.version) && Starts(t) && t.db.version == o.version && t.db.nextFile == o.nextFile && t.db.lastSequence == o.lastSequence
    requires Follows(s.db.version, o.version, VersionEdit({}, AtLevelZero(files)))
    requires Rewritten(s.db.version, o, files, e1, e2, comparator, open)
    ensures StoreStarts(Store(t, [e1, e2], [Levelless, s.db.version, o.version]), comparator, open)
  {
    var edits, versions := [e1, e2], [Levelless, s.db.version, o.version];
    var x, y := Meaning(e1, open), Meaning(e2, open);
    assert Meanings(edits, open) == [x, y];
    SnapshotFollows(s.db.version, x);
    assert MadeAt(versions, [x, y], 0) && MadeAt(versions, [x, y], 1);
    RewrittenNames(s.db.version, o.version, files, x, y, o.nextFile);
    MeaningsGrow([e1], e2, open);
    assert [e1] + [e2] == edits;
    NowCovered(t, NumbersAfter(edits));
  }
}
