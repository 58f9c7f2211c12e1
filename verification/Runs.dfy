/** Every run of the storage engine keeps its invariant, so every read follows the history. */
module Runs {
  import opened Keys
  import opened Semantics
  import opened Tables
  import opened Versions
  import opened Inputs
  import opened Filter
  import opened Compactions
  import opened Levels
  import opened Database
  import opened Installs

  // ---------------------------------------------------------------------
  // Installing a compaction
  // ---------------------------------------------------------------------

  lemma OutputsDerived(c: Running, merged: seq<Entry>, outputs: seq<File>)
    requires SortedEntries(merged) && Elements(merged) == FileEntries(c.inputs0 + c.inputs1)
    requires Outputs(outputs, Output(merged, c.smallestSnapshot, BaseLevels(c.inputVersion, c.level)))
    ensures SortedLevel(outputs) && Derived(outputs, c.inputs0 + c.inputs1)
  {
    SurvivorsSorted(merged, |merged|, c.smallestSnapshot, BaseLevels(c.inputVersion, c.level));
    ConcatIsSorted(outputs);
    ConcatEntries(outputs);
    forall o, e | o in outputs && e in o.entries ensures e in FileEntries(c.inputs0 + c.inputs1) {
      FileEntriesOf(outputs, o, e);
      assert e in merged[..|merged|];
      assert e in Elements(merged);
    }
  }

  lemma ReplacedNumbers(v: Version, w: Version, level: nat, in0: seq<File>, in1: seq<File>, outputs: seq<File>, next: nat)
    requires Replaced(v, w, level, in0, in1, outputs) && NumbersNameFiles(v) && NumbersBelow(v, next)
    requires DistinctNumbers(outputs) && forall o :: o in outputs ==> o.number < next
    requires forall o, l, f :: o in outputs && 0 <= l < |v| && f in v[l] && o.number == f.number ==> o == f
    ensures NumbersNameFiles(w) && NumbersBelow(w, next)
  {
    forall l, f | 0 <= l < |w| && f in w[l] ensures f in v[l] || f in outputs {
      FilesAfter(v, w, level, in0, in1, outputs, l, f);
    }
    forall f, g | f in outputs && g in outputs && f.number == g.number ensures f == g {
      NumbersIdentify(outputs, f, g);
    }
  }

  lemma InstallShape(s: State, t: State, merged: seq<Entry>, outputs: seq<File>)
    requires Shape(s) && RunningLevels(s) && InstallStep(s, t, merged, outputs)
    requires Fits(s.version, s.running.value.level, s.running.value.inputs1, outputs)
    ensures Shape(t)
  {
    var c := s.running.value;
    OutputsDerived(c, merged, outputs);
    ReplacedIsValid(s.version, t.version, c.level, c.inputs0, c.inputs1, outputs);
    ReplacedNumbers(s.version, t.version, c.level, c.inputs0, c.inputs1, outputs, t.nextFile);
  }

  /** The installation of a compaction keeps the level invariant if and only if its outputs fit. */
  lemma InstallValidExactly(s: State, t: State, merged: seq<Entry>, outputs: seq<File>)
    requires Shape(s) && RunningLevels(s) && InstallStep(s, t, merged, outputs)
    ensures ValidVersion(t.version) <==>
      Fits(s.version, s.running.value.level, s.running.value.inputs1, outputs)
  {
    var c := s.running.value;
    if Fits(s.version, c.level, c.inputs1, outputs) {
      InstallShape(s, t, merged, outputs);
    } else {
      MisfitBreaksLevel(s.version, t.version, c.level, c.inputs0, c.inputs1, outputs);
    }
  }

  lemma OutputIsPart(merged: seq<Entry>, smallestSnapshot: nat, base: UserKey -> bool)
    requires SortedEntries(merged) && UniqueSeqnos(Elements(merged))
    ensures Elements(Output(merged, smallestSnapshot, base)) <= Elements(merged)
  {
    forall e | e in Output(merged, smallestSnapshot, base) ensures e in merged {
      SurvivorsAre(merged, |merged|, smallestSnapshot, base, e);
    }
  }

  lemma InstallShrinks(s: State, t: State, merged: seq<Entry>, outputs: seq<File>)
    requires InstallStep(s, t, merged, outputs) && UniqueSeqnos(Everything(s))
    requires var c := s.running.value; Chosen(s.version, c.level, c.inputs0, c.inputs1)
    ensures VersionEntries(t.version) <= VersionEntries(s.version)
  {
    var c := s.running.value;
    EntriesBefore(s.version, c.level, c.inputs0, c.inputs1);
    EntriesAfter(s.version, t.version, c.level, c.inputs0, c.inputs1, outputs);
    ConcatEntries(outputs);
    OutputIsPart(merged, c.smallestSnapshot, BaseLevels(c.inputVersion, c.level));
  }

  /** Fewer files, nothing else changed: the ages and the records stay right. */
  lemma ShrunkAges(s: State, t: State)
    requires Aged(s) && Recorded(s) && VersionEntries(t.version) <= VersionEntries(s.version)
    requires t.mem == s.mem && t.imm == s.imm && t.history == s.history && t.lastSequence == s.lastSequence
    ensures Aged(t) && Recorded(t)
  {
  }

  lemma InstallKeepsLevels(s: State, t: State, merged: seq<Entry>, outputs: seq<File>)
    requires LevelInv(s) && CheckedInstall(s, t, merged, outputs)
    ensures LevelInv(t)
  {
    HistoryUnique(s);
    InstallShape(s, t, merged, outputs);
    InstallShrinks(s, t, merged, outputs);
    ShrunkAges(s, t);
  }

  /** An installation that brings no key back keeps all reads. */
  lemma InstallKeepsReads(s: State, t: State, merged: seq<Entry>, outputs: seq<File>, k: UserKey, q: nat)
    requires Inv(s) && InstallStep(s, t, merged, outputs) && !Spoils(s, k, Oldest(s))
    requires Oldest(s) <= q
    ensures View(Everything(t), k, q) == Lookup(Replay(AsOf(s.history, q)), k)
  {
    HistoryUnique(s);
    InstallReadsExactly(s, t, merged, outputs, k, Oldest(s));
  }

  /** One that does changes the oldest read: the history says the key is deleted. */
  lemma InstallSpoilsRead(s: State, t: State, merged: seq<Entry>, outputs: seq<File>, k: UserKey)
    requires Inv(s) && InstallStep(s, t, merged, outputs) && Spoils(s, k, Oldest(s))
    ensures View(Everything(t), k, Oldest(s)) != Lookup(Replay(AsOf(s.history, Oldest(s))), k)
  {
    HistoryUnique(s);
    SnapshotsBelow(s);
    var c := s.running.value;
    InstallContents(s, t, merged, outputs);
    ResurrectedReadChanges(Rest(s, c), merged, c.smallestSnapshot, BaseLevels(c.inputVersion, c.level), k, Oldest(s));
  }

  /** An installation keeps the reads that can still be asked for if and only if it spoils none. */
  lemma InstallFaithfulExactly(s: State, t: State, merged: seq<Entry>, outputs: seq<File>)
    requires Inv(s) && InstallStep(s, t, merged, outputs)
    ensures Faithful(t) <==> forall k :: !Spoils(s, k, Oldest(s))
  {
    SnapshotsBelow(s);
    if k :| Spoils(s, k, Oldest(s)) {
      InstallSpoilsRead(s, t, merged, outputs, k);
    } else {
      forall k, q: nat | Oldest(t) <= q ensures View(Everything(t), k, q) == Lookup(Replay(AsOf(t.history, q)), k) {
        InstallKeepsReads(s, t, merged, outputs, k, q);
      }
    }
  }

  // ---------------------------------------------------------------------
  // Trivial moves
  // ---------------------------------------------------------------------

  lemma MoveKeepsLevels(v: Version, w: Version, level: nat, f: File)
    requires ValidVersion(v) && InOrder(v) && Selected(v, level, [f], [])
    requires Replaced(v, w, level, [f], [], [f])
    ensures ValidVersion(w) && InOrder(w) && VersionEntries(w) == VersionEntries(v)
  {
    SelectedIsChosen(v, level, [f], []);
    SelectedKeepsNewer(v, level, [f], []);
    assert [f][0] in v[level] && ValidFiles([f]);
    assert [f] + [] == [f];
    forall e | e in f.entries ensures e in FileEntries([f]) { FileEntriesOf([f], f, e); }
    forall g | g in v[level + 1] ensures Apart(f, g) {
      NextLevelDisjoint(v, level, [f], [], g, f);
    }
    ReplacedIsValid(v, w, level, [f], [], [f]);
    EntriesBefore(v, level, [f], []);
    EntriesAfter(v, w, level, [f], [], [f]);
  }

  lemma MoveShape(s: State, t: State, level: nat, f: File)
    requires Shape(s) && MoveStep(s, t, level, f)
    ensures Shape(t) && VersionEntries(t.version) == VersionEntries(s.version)
  {
    MoveKeepsLevels(s.version, t.version, level, f);
    assert f in [f] && f in s.version[level];
    ReplacedNumbers(s.version, t.version, level, [f], [], [f], s.nextFile);
  }

  lemma MoveKeepsLevelInv(s: State, t: State, level: nat, f: File)
    requires LevelInv(s) && MoveStep(s, t, level, f)
    ensures LevelInv(t) && Everything(t) == Everything(s)
  {
    MoveShape(s, t, level, f);
    ShrunkAges(s, t);
  }

  // ---------------------------------------------------------------------
  // Runs
  // ---------------------------------------------------------------------

  lemma EmptyVersionIsValid(v: Version)
    requires |v| == kNumLevels && forall l :: 0 <= l < kNumLevels ==> |v[l]| == 0
    ensures ValidVersion(v) && InOrder(v) && VersionEntries(v) == {}
    ensures NumbersBelow(v, 2) && NumbersNameFiles(v)
  {
    assert forall l, f :: 0 <= l < kNumLevels ==> f !in v[l];
  }

  lemma InitInv()
    ensures Inv(Init())
  {
    var s := Init();
    EmptyVersionIsValid(s.version);
    assert Everything(s) == {};
    forall k, q: nat ensures View(Everything(s), k, q) == Lookup(Replay(AsOf(s.history, q)), k) {
      NoneVisibleIsNotFound(Everything(s), k, q);
    }
  }

  /** Every step keeps the level invariant. */
  lemma StepKeepsLevels(s: State, t: State)
    requires LevelInv(s) && Step(s, t)
    ensures LevelInv(t)
  {
    if ops :| WriteStep(s, t, ops) {
      WriteKeepsLevels(s, t, ops);
    } else if SwitchStep(s, t) {
      SwitchKeepsLevels(s, t);
    } else if level, size :| FlushStep(s, t, level, size) {
      FlushKeepsLevels(s, t, level, size);
    } else if c :| BeginStep(s, t, c) {
      BeginKeepsLevels(s, t, c);
    } else if merged, outputs :| CheckedInstall(s, t, merged, outputs) {
      InstallKeepsLevels(s, t, merged, outputs);
    } else if level, f :| MoveStep(s, t, level, f) {
      MoveKeepsLevelInv(s, t, level, f);
    } else if SnapshotStep(s, t) {
      SnapshotKeepsLevels(s, t);
    } else {
      var i :| ReleaseStep(s, t, i);
      ReleaseKeepsLevels(s, t, i);
    }
  }

  /** The step installs the running compaction. */
  predicate CompactionEnds(s: State, t: State) {
    s.running.Some? && t.running.None?
  }

  /** Every step but an installation keeps reads; an installation keeps them unless it spoils one. */
  lemma StepKeepsReads(s: State, t: State)
    requires Inv(s) && Step(s, t) && (CompactionEnds(s, t) ==> forall k :: !Spoils(s, k, Oldest(s)))
    ensures Faithful(t)
  {
    if ops :| WriteStep(s, t, ops) {
      WriteKeepsReads(s, t, ops);
    } else if merged, outputs :| CheckedInstall(s, t, merged, outputs) {
      InstallFaithfulExactly(s, t, merged, outputs);
    } else {
      StepKeepsContents(s, t);
      SameContentsFaithful(s, t);
    }
  }

  /** All other steps only move entries. */
  lemma StepKeepsContents(s: State, t: State)
    requires LevelInv(s) && Step(s, t)
    requires !(exists ops :: WriteStep(s, t, ops)) && !(exists merged, outputs :: CheckedInstall(s, t, merged, outputs))
    ensures Everything(t) == Everything(s) && Oldest(t) >= Oldest(s)
    ensures t.history == s.history && t.lastSequence == s.lastSequence
  {
    if SwitchStep(s, t) {
      SwitchKeepsLevels(s, t);
    } else if level, size :| FlushStep(s, t, level, size) {
      FlushKeepsLevels(s, t, level, size);
    } else if c :| BeginStep(s, t, c) {
      BeginKeepsLevels(s, t, c);
    } else if level, f :| MoveStep(s, t, level, f) {
      MoveKeepsLevelInv(s, t, level, f);
    } else if SnapshotStep(s, t) {
      SnapshotKeepsLevels(s, t);
    } else {
      var i :| ReleaseStep(s, t, i);
      ReleaseKeepsLevels(s, t, i);
    }
  }

  /** A database that was just opened, new or after a crash, with what the history so far has left. */
  ghost predicate Begins(s: State) {
    Inv(s) && s.imm.None? && s.snapshots == [] && s.running.None?
  }

  /** A run from when a database is opened. */
  ghost predicate IsRun(run: seq<State>) {
    run != [] && Begins(run[0]) && Steps(run)
  }

  ghost predicate Steps(run: seq<State>) {
    forall i :: 0 <= i < |run| - 1 ==> StepAt(run, i)
  }

  lemma RunStep(run: seq<State>, i: nat)
    requires IsRun(run) && i + 1 < |run|
    ensures Step(run[i], run[i + 1])
  {
    assert StepAt(run, i);
  }

  ghost predicate StepAt(run: seq<State>, i: nat)
    requires i + 1 < |run|
  {
    Step(run[i], run[i + 1])
  }

  /** At every moment of every run the levels are sorted, disjoint and ordered by age. */
  lemma {:induction false} RunKeepsLevels(run: seq<State>, n: nat)
    requires IsRun(run) && n < |run|
    ensures LevelInv(run[n])
  {
    if n > 0 {
      RunKeepsLevels(run, n - 1);
      assert StepAt(run, n - 1);
      StepKeepsLevels(run[n - 1], run[n]);
    }
  }

  /** A state that some run from an empty database ends in. */
  ghost predicate Reachable(s: State) {
    exists run :: Reaches(run, s)
  }

  ghost predicate Reaches(run: seq<State>, s: State) {
    run != [] && run[0] == Init() && Steps(run) && run[|run| - 1] == s
  }

  lemma InitIsReachable()
    ensures Reachable(Init())
  {
    assert Reaches([Init()], Init());
  }

  lemma ReachableLevels(s: State)
    requires Reachable(s)
    ensures LevelInv(s)
  {
    var run :| Reaches(run, s);
    InitInv();
    RunKeepsLevels(run, |run| - 1);
  }

  lemma RunGrows(run: seq<State>, t: State)
    requires run != [] && Steps(run) && Step(run[|run| - 1], t)
    ensures Steps(run + [t])
  {
    var more := run + [t];
    forall i | 0 <= i < |more| - 1 ensures StepAt(more, i) {
      assert i < |run| - 1 ==> StepAt(run, i);
    }
  }

  lemma ReachesNext(s: State, t: State)
    requires Reachable(s) && Step(s, t)
    ensures Reachable(t)
  {
    var run :| Reaches(run, s);
    RunGrows(run, t);
    assert Reaches(run + [t], t);
  }

  // ---------------------------------------------------------------------
  // Reads
  // ---------------------------------------------------------------------

  /** A sequence number at which a read may be asked for: the last one or a live snapshot. */
  predicate Readable(s: State, q: nat) {
    q == s.lastSequence || q in s.snapshots
  }

  /** Reads at the last sequence and at every live snapshot return what the history up to it says. */
  ghost predicate ReadsFollow(s: State) {
    forall k, q: nat :: Readable(s, q) ==>
      View(Everything(s), k, q) == Lookup(Replay(AsOf(s.history, q)), k)
  }

  ghost predicate AllReadsFollow(run: seq<State>) {
    forall n :: 0 <= n < |run| ==> ReadsFollow(run[n])
  }

  /** Step `i` of the run installs a compaction that brings a deleted key back. */
  ghost predicate SpoilsAt(run: seq<State>, i: nat)
    requires i + 1 < |run|
  {
    CompactionEnds(run[i], run[i + 1]) && exists k :: Spoils(run[i], k, Oldest(run[i]))
  }

  /** No installation among the first `n` steps brings a deleted key back. */
  ghost predicate NeverSpoils(run: seq<State>, n: nat)
    requires n < |run|
  {
    forall i :: 0 <= i < n ==> !SpoilsAt(run, i)
  }

  lemma {:induction false} RunKeepsInv(run: seq<State>, n: nat)
    requires IsRun(run) && n < |run| && NeverSpoils(run, n)
    ensures Inv(run[n])
  {
    if n > 0 {
      RunKeepsInv(run, n - 1);
      RunStep(run, n - 1);
      NoSpoil(run, n - 1, n);
      KeepsInv(run[n - 1], run[n]);
    }
  }

  ghost predicate SpoilsNone(s: State, t: State) {
    CompactionEnds(s, t) ==> forall k :: !Spoils(s, k, Oldest(s))
  }

  lemma NoSpoil(run: seq<State>, i: nat, n: nat)
    requires i < n < |run| && NeverSpoils(run, n)
    ensures SpoilsNone(run[i], run[i + 1])
  {
    assert !SpoilsAt(run, i);
  }

  lemma KeepsInv(s: State, t: State)
    requires Inv(s) && Step(s, t) && SpoilsNone(s, t)
    ensures Inv(t)
  {
    StepKeepsLevels(s, t);
    StepKeepsReads(s, t);
  }

  lemma InvReads(s: State)
    requires Inv(s)
    ensures ReadsFollow(s)
  {
    SnapshotsBelow(s);
    forall q: nat | Readable(s, q) ensures Oldest(s) <= q <= s.lastSequence {
    }
  }

  lemma EndIsInstall(s: State, t: State)
    requires Step(s, t) && CompactionEnds(s, t)
    ensures exists merged, outputs :: InstallStep(s, t, merged, outputs)
  {
  }

  /** An installation that brings a key back gives a wrong read right after it. */
  lemma SpoiltRead(s: State, t: State, merged: seq<Entry>, outputs: seq<File>, k: UserKey)
    requires Inv(s) && InstallStep(s, t, merged, outputs) && Spoils(s, k, Oldest(s))
    ensures !ReadsFollow(t)
  {
    SnapshotsBelow(s);
    InstallSpoilsRead(s, t, merged, outputs, k);
    assert Readable(t, Oldest(s));
  }

  lemma FirstIsWrong(run: seq<State>, i: nat)
    requires IsRun(run) && i + 1 < |run| && NeverSpoils(run, i) && SpoilsAt(run, i)
    ensures !ReadsFollow(run[i + 1])
  {
    RunKeepsInv(run, i);
    assert StepAt(run, i);
    EndIsInstall(run[i], run[i + 1]);
    var merged, outputs :| InstallStep(run[i], run[i + 1], merged, outputs);
    var k :| Spoils(run[i], k, Oldest(run[i]));
    SpoiltRead(run[i], run[i + 1], merged, outputs, k);
  }

  lemma {:induction false} FirstSpoilt(run: seq<State>, n: nat) returns (i: nat)
    requires n < |run| && !NeverSpoils(run, n)
    ensures i < n && SpoilsAt(run, i) && NeverSpoils(run, i)
  {
    var j: nat :| j < n && SpoilsAt(run, j);
    if NeverSpoils(run, j) {
      i := j;
    } else {
      i := FirstSpoilt(run, j);
    }
  }

  /**
   * For every run: all reads at all its moments, at the last sequence and at live snapshots, return
   * what the history of writes says, if and only if no installation of the run brings a key back.
   */
  lemma ReadsFollowExactly(run: seq<State>)
    requires IsRun(run)
    ensures AllReadsFollow(run) <==> NeverSpoils(run, |run| - 1)
  {
    if NeverSpoils(run, |run| - 1) {
      forall n | 0 <= n < |run| ensures ReadsFollow(run[n]) {
        RunKeepsInv(run, n);
        InvReads(run[n]);
      }
    } else {
      var i := FirstSpoilt(run, |run| - 1);
      FirstIsWrong(run, i);
    }
  }

  /** As long as no installation has brought a key back, a read returns what the history says. */
  lemma ReadsFollowHistory(run: seq<State>, n: nat, k: UserKey, q: nat)
    requires IsRun(run) && n < |run| && NeverSpoils(run, n) && Readable(run[n], q)
    ensures View(Everything(run[n]), k, q) == Lookup(Replay(AsOf(run[n].history, q)), k)
  {
    RunKeepsInv(run, n);
    SnapshotsBelow(run[n]);
  }
  // ---------------------------------------------------------------------
  // Runs from an empty database
  // ---------------------------------------------------------------------

  /** No sequence number is missing: the history up to a number is a prefix of that length. */
  ghost predicate Complete(s: State) {
    s.lastSequence == |s.history| && forall i :: 0 <= i < |s.history| ==> s.history[i].seqno == i + 1
  }

  lemma StepKeepsComplete(s: State, t: State)
    requires Complete(s) && Step(s, t)
    ensures Complete(t)
  {
    if ops :| WriteStep(s, t, ops) {
      var batch := Numbering(s.lastSequence, ops);
      assert t.history == s.history + batch;
    }
  }

  lemma {:induction false} RunIsComplete(run: seq<State>, n: nat)
    requires IsRun(run) && run[0] == Init() && n < |run|
    ensures Complete(run[n])
  {
    if n > 0 {
      RunIsComplete(run, n - 1);
      assert StepAt(run, n - 1);
      StepKeepsComplete(run[n - 1], run[n]);
    }
  }

  /** Reads at a sequence number return what the first so many writes have left. */
  lemma ReadsFollowPrefix(run: seq<State>, n: nat, k: UserKey, q: nat)
    requires IsRun(run) && run[0] == Init() && n < |run| && NeverSpoils(run, n) && Readable(run[n], q)
    ensures q <= |run[n].history|
    ensures View(Everything(run[n]), k, q) == Lookup(Replay(run[n].history[..q]), k)
  {
    ReadsFollowHistory(run, n, k, q);
    RunKeepsInv(run, n);
    SnapshotsBelow(run[n]);
    RunIsComplete(run, n);
    AsOfIsPrefix(run[n].history, q);
  }
}
