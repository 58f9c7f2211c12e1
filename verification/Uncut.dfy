/**
 * A guard that would keep deleted keys from coming back: a compaction whose choice at level+1 cuts
 * no user key in two. db/version_set.cc:1410-1411 and 1422-1431 do not make sure of it.
 */
module Uncut {
  import opened Keys
  import opened Semantics
  import opened Tables
  import opened Versions
  import opened Overlap
  import opened Inputs
  import opened Filter
  import opened Compactions
  import opened Levels
  import opened Database
  import opened Installs
  import opened Runs

  /** No boundary file is left behind at level+1. */
  ghost predicate NextLevelUncut(v: Version, c: Running) {
    c.level + 1 < |v| &&
    (c.inputs1 != [] ==> exists k :: IsLargest(c.inputs1, k) && NoBoundary(v[c.level + 1], k))
  }

  /** What stays at level+1 is newer than the inputs. */
  ghost predicate NextKeptNewer(v: Version, c: Running) {
    c.level + 1 < |v| &&
    forall f, g :: f in v[c.level + 1] && f !in c.inputs1 && g in c.inputs0 + c.inputs1 ==> NewerThan(f, g)
  }

  /** A deeper file that arrived after the compaction began is newer than all its inputs. */
  ghost predicate DeepFilesKnown(v: Version, c: Running) {
    && |c.inputVersion| == |v|
    && forall l, f, g :: c.level + 2 <= l < |v| && f in v[l] && f !in c.inputVersion[l] && g in c.inputs0 + c.inputs1 ==> NewerThan(f, g)
  }

  ghost predicate RunningUncut(s: State) {
    s.running.Some? ==> NextKeptNewer(s.version, s.running.value) && DeepFilesKnown(s.version, s.running.value)
  }

  // ---------------------------------------------------------------------
  // The start of a compaction
  // ---------------------------------------------------------------------

  /** Without a boundary file, the choice at level+1 is closed too. */
  lemma UncutIsClosed(v: Version, c: Running)
    requires ValidVersion(v) && UniqueSeqnos(VersionEntries(v))
    requires Selected(v, c.level, c.inputs0, c.inputs1) && NextLevelUncut(v, c)
    ensures LevelClosed(v[c.level + 1], c.inputs1)
  {
    if c.inputs1 != [] {
      var k :| IsLargest(c.inputs1, k) && NoBoundary(v[c.level + 1], k);
      var a, b :| IsSmallest(c.inputs0, a) && IsLargest(c.inputs0, b) &&
        c.inputs1 == Select(v[c.level + 1], Some(a.user), Some(b.user));
      LevelSeqnosUnique(v, c.level + 1);
      SelectIsConvex(v[c.level + 1], Some(a.user), Some(b.user));
      ConvexIsClosed(v[c.level + 1], c.inputs1, k);
    }
  }

  lemma UncutKeepsNewer(v: Version, c: Running)
    requires ValidVersion(v) && UniqueSeqnos(VersionEntries(v))
    requires Selected(v, c.level, c.inputs0, c.inputs1) && NextLevelUncut(v, c)
    ensures NextKeptNewer(v, c)
  {
    UncutIsClosed(v, c);
    forall f, g | f in v[c.level + 1] && f !in c.inputs1 && g in c.inputs0 + c.inputs1 ensures NewerThan(f, g) {
      if g in c.inputs0 { NextLevelNewer(v, c, f, g); }
    }
  }

  lemma NextLevelNewer(v: Version, c: Running, f: File, g: File)
    requires |v| == kNumLevels && Selected(v, c.level, c.inputs0, c.inputs1)
    requires ValidFiles(v[c.level]) && ValidFiles(v[c.level + 1])
    requires f in v[c.level + 1] && f !in c.inputs1 && g in c.inputs0
    ensures NewerThan(f, g)
  {
    NextLevelDisjoint(v, c.level, c.inputs0, c.inputs1, f, g);
    assert g in v[c.level];
    DisjointIsNewer(f, g);
  }

  // ---------------------------------------------------------------------
  // While it runs
  // ---------------------------------------------------------------------

  lemma AddedKeepsUncut(v: Version, w: Version, level: nat, f: File, c: Running)
    requires Added(v, w, level, f) && NewestFile(v, f) && Chosen(v, c.level, c.inputs0, c.inputs1)
    requires NextKeptNewer(v, c) && DeepFilesKnown(v, c)
    ensures NextKeptNewer(w, c) && DeepFilesKnown(w, c)
  {
    NewestAmongInputs(v, f, c);
    forall l, g | 0 <= l < |w| && g in w[l] ensures g in v[l] || g == f {
    }
  }

  lemma FlushKeepsUncut(s: State, t: State, level: nat, size: nat)
    requires LevelInv(s) && RunningUncut(s) && FlushStep(s, t, level, size)
    ensures RunningUncut(t)
  {
    if s.running.Some? && s.imm.value != [] {
      FlushedFile(s, size);
      AddedKeepsUncut(s.version, t.version, level, NewFile(s.nextFile, size, s.imm.value), s.running.value);
    }
  }

  ghost predicate BeginsUncut(s: State, t: State) {
    s.running.None? && t.running.Some? ==> NextLevelUncut(s.version, t.running.value)
  }

  lemma StepKeepsUncut(s: State, t: State)
    requires LevelInv(s) && RunningUncut(s) && Step(s, t) && BeginsUncut(s, t)
    ensures RunningUncut(t)
  {
    if level, size :| FlushStep(s, t, level, size) {
      FlushKeepsUncut(s, t, level, size);
    } else if c :| BeginStep(s, t, c) {
      HistoryUnique(s);
      UncutKeepsNewer(s.version, c);
    } else {
      assert t.running.Some? ==> t.running == s.running && t.version == s.version;
    }
  }

  /** A file that stays and holds a key without deeper data is newer than the inputs. */
  lemma KeptFileIsNewer(v: Version, c: Running, k: UserKey, l: nat, f: File, g: File)
    requires KeptNewer(v, c.level, c.inputs0, c.inputs1) && NextKeptNewer(v, c) && DeepFilesKnown(v, c)
    requires IsBaseLevel(c.inputVersion, c.level, k) && InRange(k, f)
    requires Kept(v, c.level, c.inputs0, c.inputs1, l, f) && g in c.inputs0 + c.inputs1
    ensures NewerThan(f, g)
  {
    assert l >= c.level + 2 ==> f !in c.inputVersion[l];
  }

  /** An entry of a file that stays is newer than the input entries of a key without deeper data. */
  lemma KeptIsNewer(v: Version, c: Running, m: Entry, left: Entry)
    requires KeptNewer(v, c.level, c.inputs0, c.inputs1) && NextKeptNewer(v, c) && DeepFilesKnown(v, c)
    requires IsBaseLevel(c.inputVersion, c.level, m.key)
    requires forall l :: 0 <= l < |v| ==> ValidFiles(v[l])
    requires m in FileEntries(c.inputs0 + c.inputs1) && left.key == m.key
    requires left in KeptEntries(v, c.level, c.inputs0, c.inputs1)
    ensures left.seqno > m.seqno
  {
    var g := FileOfEntry(c.inputs0 + c.inputs1, m);
    var l, f :| 0 <= l < |v| && f in v[l] && Kept(v, c.level, c.inputs0, c.inputs1, l, f) && left in f.entries;
    EntriesInRange(f);
    KeptFileIsNewer(v, c, m.key, l, f, g);
  }

  lemma LeftIsNewer(s: State, c: Running, m: Entry, left: Entry)
    requires LevelInv(s) && s.running == Some(c) && RunningUncut(s)
    requires m in FileEntries(c.inputs0 + c.inputs1) && left in Rest(s, c) && left.key == m.key
    requires IsBaseLevel(c.inputVersion, c.level, m.key)
    ensures left.seqno > m.seqno
  {
    EntriesBefore(s.version, c.level, c.inputs0, c.inputs1);
    if left in KeptEntries(s.version, c.level, c.inputs0, c.inputs1) {
      KeptIsNewer(s.version, c, m, left);
    } else {
      assert m in VersionEntries(s.version);
    }
  }

  /** With a closed choice at both levels nothing older is left behind under a dropped marker. */
  lemma UncutSpoilsNothing(s: State, k: UserKey, oldest: nat)
    requires LevelInv(s) && RunningUncut(s)
    ensures !Spoils(s, k, oldest)
  {
    if Spoils(s, k, oldest) {
      var c := s.running.value;
      var rest, input := Rest(s, c), FileEntries(c.inputs0 + c.inputs1);
      var m, left :| IsResurrected(rest, input, c.smallestSnapshot, BaseLevels(c.inputVersion, c.level), k, oldest, m, left);
      assert left in rest + input;
      LeftIsNewer(s, c, m, left);
    }
  }

  // ---------------------------------------------------------------------
  // Runs
  // ---------------------------------------------------------------------

  /** Every compaction of the run begins with the guard. */
  ghost predicate UncutRun(run: seq<State>) {
    IsRun(run) && forall i :: 0 <= i < |run| - 1 ==> UncutAt(run, i)
  }

  ghost predicate UncutAt(run: seq<State>, i: nat)
    requires i + 1 < |run|
  {
    BeginsUncut(run[i], run[i + 1])
  }

  lemma {:induction false} UncutRunKeeps(run: seq<State>, n: nat)
    requires UncutRun(run) && n < |run|
    ensures RunningUncut(run[n])
  {
    if n > 0 {
      UncutRunKeeps(run, n - 1);
      RunKeepsLevels(run, n - 1);
      assert StepAt(run, n - 1) && UncutAt(run, n - 1);
      StepKeepsUncut(run[n - 1], run[n]);
    }
  }

  /** With the guard at every compaction all reads of all runs follow the history. */
  lemma UncutReadsFollow(run: seq<State>, n: nat)
    requires UncutRun(run) && n < |run|
    ensures ReadsFollow(run[n])
  {
    forall i | 0 <= i < |run| - 1 ensures !SpoilsAt(run, i) {
      UncutRunKeeps(run, i);
      RunKeepsLevels(run, i);
      forall k ensures !Spoils(run[i], k, Oldest(run[i])) {
        UncutSpoilsNothing(run[i], k, Oldest(run[i]));
      }
    }
    ReadsFollowExactly(run);
  }
}
