/**
 * Automatic compactions never overlap a memtable flushed while they run: their inputs leave no gap
 * for it to sink into. The overlap check at installation is then no assumption but a theorem.
 */
module Automatic {
  import opened Keys
  import opened Tables
  import opened Versions
  import opened Overlap
  import opened Gaps
  import opened Inputs
  import opened Picks
  import opened Compactions
  import opened Levels
  import opened Database
  import opened Installs
  import opened Runs

  predicate BeforeAll(f: File, fs: seq<File>) {
    forall g :: g in fs ==> KeyLess(f.largest, g.smallest)
  }

  predicate AfterAll(f: File, fs: seq<File>) {
    forall g :: g in fs ==> KeyLess(g.largest, f.smallest)
  }

  /** A level+1 file that stays lies wholly before or wholly after the inputs. */
  ghost predicate Sided(v: Version, c: Running) {
    c.level + 1 < |v| &&
    forall f :: f in v[c.level + 1] && f !in c.inputs1 ==>
      BeforeAll(f, c.inputs0 + c.inputs1) || AfterAll(f, c.inputs0 + c.inputs1)
  }

  /** An unchosen level+1 file lies on one side of the chosen range, so of the chosen files too. */
  lemma UnchosenIsSided(files: seq<File>, in0: seq<File>, a: InternalKey, b: InternalKey, f: File)
    requires ValidFiles(files) && SortedLevel(files) && f in files && OrderedFiles(in0) && in0 != []
    requires IsSmallest(in0, a) && IsLargest(in0, b) && !Meets(f, Some(a.user), Some(b.user))
    ensures var all := in0 + Select(files, Some(a.user), Some(b.user)); BeforeAll(f, all) || AfterAll(f, all)
  {
    var in1 := Select(files, Some(a.user), Some(b.user));
    ValidFilesAreOrdered(files);
    assert Ordered(f);
    assert in0[0] in in0 && Ordered(in0[0]) && KeyAtMost(a, in0[0].smallest) && KeyAtMost(in0[0].largest, b);
    forall g | g in in1 ensures (f.largest.user < a.user ==> KeyLess(f.largest, g.smallest)) &&
        (f.smallest.user > b.user ==> KeyLess(g.largest, f.smallest)) {
      SortedPair(files, f, g);
      assert Ordered(g) && Meets(g, Some(a.user), Some(b.user));
    }
    assert f.largest.user < a.user ==> BeforeAll(f, in0 + in1);
    assert f.smallest.user > b.user ==> AfterAll(f, in0 + in1);
  }

  lemma SelectedIsSided(v: Version, c: Running)
    requires ValidVersion(v) && Selected(v, c.level, c.inputs0, c.inputs1)
    ensures Sided(v, c)
  {
    SelectedIsChosen(v, c.level, c.inputs0, c.inputs1);
    ValidFilesAreOrdered(v[c.level]);
    AllUnchosenAreSided(v, c.level, c.inputs0, c.inputs1);
  }

  lemma AllUnchosenAreSided(v: Version, level: nat, in0: seq<File>, in1: seq<File>)
    requires level + 1 < |v| && ValidFiles(v[level + 1]) && SortedLevel(v[level + 1]) && OrderedFiles(in0) && in0 != []
    requires NextLevelChosen(v, level, in0, in1)
    ensures forall f :: f in v[level + 1] && f !in in1 ==> BeforeAll(f, in0 + in1) || AfterAll(f, in0 + in1)
  {
    var a, b :| IsSmallest(in0, a) && IsLargest(in0, b) && in1 == Select(v[level + 1], Some(a.user), Some(b.user));
    forall f | f in v[level + 1] && f !in in1 ensures BeforeAll(f, in0 + in1) || AfterAll(f, in0 + in1) {
      UnchosenIsSided(v[level + 1], in0, a, b, f);
    }
  }

  /** A flushed file that reaches level+1 avoids all inputs, which leave it no gap. */
  lemma FlushedIsSided(v: Version, level: nat, c: Running, f: File)
    requires Chosen(v, c.level, c.inputs0, c.inputs1) && level == c.level + 1
    requires ValidFile(f) && FreeDownTo(v, level, f.smallest.user, f.largest.user)
    requires Gapless(c.inputs0 + c.inputs1)
    ensures BeforeAll(f, c.inputs0 + c.inputs1) || AfterAll(f, c.inputs0 + c.inputs1)
  {
    var p, q := f.smallest.user, f.largest.user;
    forall g | g in c.inputs0 + c.inputs1 ensures g.largest.user < p || q < g.smallest.user {
      assert g in v[c.level] || g in v[c.level + 1];
      assert !Meets(g, Some(p), Some(q));
    }
    assert Avoids(c.inputs0 + c.inputs1, p, q);
    EntriesInRange(f);
    assert f.entries[0] in f.entries;
  }

  /** Outputs made of input entries cannot overlap a file on one side of the inputs. */
  lemma SidedFits(v: Version, c: Running, outputs: seq<File>)
    requires Sided(v, c) && ValidFiles(outputs) && Derived(outputs, c.inputs0 + c.inputs1)
    requires ValidFiles(c.inputs0 + c.inputs1)
    ensures Fits(v, c.level, c.inputs1, outputs)
  {
    forall o, f | o in outputs && f in v[c.level + 1] && f !in c.inputs1 ensures Apart(o, f) {
      var first, last := o.entries[0], o.entries[|o.entries| - 1];
      assert first in o.entries && last in o.entries && ValidFile(o);
      var g := FileOfEntry(c.inputs0 + c.inputs1, first);
      var h := FileOfEntry(c.inputs0 + c.inputs1, last);
      EntriesInRange(g);
      EntriesInRange(h);
    }
  }

  // ---------------------------------------------------------------------
  // Runs with automatic compactions only
  // ---------------------------------------------------------------------

  ghost predicate AutoInv(s: State) {
    LevelInv(s) && RunningSided(s)
  }

  ghost predicate RunningSided(s: State) {
    s.running.Some? ==>
      Sided(s.version, s.running.value) && Gapless(s.running.value.inputs0 + s.running.value.inputs1)
  }

  /** A flush to the level that is picked for the file. */
  ghost predicate PickedFlush(s: State, t: State, level: nat, size: nat, maxGrandParentOverlapBytes: nat) {
    && FlushStep(s, t, level, size) && |s.version| == kNumLevels
    && (s.imm.value != [] ==>
         var f := NewFile(s.nextFile, size, s.imm.value);
         IsPicked(s.version, level, f.smallest.user, f.largest.user, maxGrandParentOverlapBytes))
  }

  /** What is picked is a trivial move. */
  ghost predicate MovesTrivially(v: Version, level: nat, in0: seq<File>, in1: seq<File>, maxGrandParentOverlapBytes: nat) {
    exists grandparents :: Grandparents(v, level, in0 + in1, grandparents) &&
      IsTrivialMove(Pick(level, in0, in1, grandparents), maxGrandParentOverlapBytes)
  }

  /** A compaction that is picked automatically and is no trivial move. */
  ghost predicate PickedBegin(s: State, t: State, c: Running, maxGrandParentOverlapBytes: nat) {
    && BeginStep(s, t, c) && Gapless(c.inputs0 + c.inputs1)
    && !MovesTrivially(s.version, c.level, c.inputs0, c.inputs1, maxGrandParentOverlapBytes)
  }

  ghost predicate PickedMove(s: State, t: State, level: nat, f: File, maxGrandParentOverlapBytes: nat) {
    MoveStep(s, t, level, f) && MovesTrivially(s.version, level, [f], [], maxGrandParentOverlapBytes)
  }

  /**
   * A step whose compactions and flush levels are picked automatically, for a limit that options set.
   * Installations are not checked for overlap.
   */
  ghost predicate AutoStep(s: State, t: State, limit: nat) {
    || (exists ops :: WriteStep(s, t, ops))
    || SwitchStep(s, t)
    || (exists level, size :: PickedFlush(s, t, level, size, limit))
    || (exists c :: PickedBegin(s, t, c, limit))
    || (exists merged, outputs :: InstallStep(s, t, merged, outputs))
    || (exists level, f :: PickedMove(s, t, level, f, limit))
    || SnapshotStep(s, t)
    || (exists i :: ReleaseStep(s, t, i))
  }

  lemma FlushKeepsSided(s: State, t: State, level: nat, size: nat)
    requires AutoInv(s) && FlushStep(s, t, level, size) && s.running.Some?
    ensures Sided(t.version, t.running.value)
  {
    if s.imm.value != [] {
      FlushedFile(s, size);
      AddedKeepsSided(s.version, t.version, level, NewFile(s.nextFile, size, s.imm.value), s.running.value);
    }
  }

  lemma AddedKeepsSided(v: Version, w: Version, level: nat, f: File, c: Running)
    requires Chosen(v, c.level, c.inputs0, c.inputs1) && Sided(v, c) && Gapless(c.inputs0 + c.inputs1)
    requires Added(v, w, level, f) && ValidFile(f)
    requires level > 0 ==> FreeDownTo(v, level, f.smallest.user, f.largest.user)
    ensures Sided(w, c)
  {
    if level == c.level + 1 {
      FlushedIsSided(v, level, c, f);
    }
  }

  lemma InstallFits(s: State, t: State, merged: seq<Entry>, outputs: seq<File>)
    requires AutoInv(s) && InstallStep(s, t, merged, outputs)
    ensures CheckedInstall(s, t, merged, outputs)
  {
    var c := s.running.value;
    OutputsDerived(c, merged, outputs);
    forall g | g in c.inputs0 + c.inputs1 ensures ValidFile(g) {
      assert g in s.version[c.level] || g in s.version[c.level + 1];
    }
    SidedFits(s.version, c, outputs);
  }

  lemma AutoIsChecked(s: State, t: State, limit: nat)
    requires AutoInv(s) && AutoStep(s, t, limit)
    ensures Step(s, t)
  {
    if merged, outputs :| InstallStep(s, t, merged, outputs) {
      InstallFits(s, t, merged, outputs);
    }
  }

  lemma AutoKeepsSided(s: State, t: State, limit: nat)
    requires AutoInv(s) && AutoStep(s, t, limit)
    ensures RunningSided(t)
  {
    if level, size :| PickedFlush(s, t, level, size, limit) {
      if s.running.Some? { FlushKeepsSided(s, t, level, size); }
    } else if c :| PickedBegin(s, t, c, limit) {
      SelectedIsSided(s.version, c);
    } else {
      if t.running.Some? { QuietStep(s, t, limit); }
    }
  }

  /** No other step changes the running compaction or the levels under it. */
  lemma QuietStep(s: State, t: State, limit: nat)
    requires AutoStep(s, t, limit) && t.running.Some?
    requires !(exists level, size :: PickedFlush(s, t, level, size, limit))
    requires !(exists c :: PickedBegin(s, t, c, limit))
    ensures t.version == s.version && t.running == s.running
  {
  }

  /** Every automatic step is a step of the checked machine and keeps the stronger invariant. */
  lemma AutoStepIsStep(s: State, t: State, limit: nat)
    requires AutoInv(s) && AutoStep(s, t, limit)
    ensures Step(s, t) && AutoInv(t)
  {
    AutoIsChecked(s, t, limit);
    StepKeepsLevels(s, t);
    AutoKeepsSided(s, t, limit);
  }

  ghost predicate IsAutoRun(run: seq<State>, limit: nat) {
    run != [] && Begins(run[0]) && AutoSteps(run, limit)
  }

  ghost predicate AutoSteps(run: seq<State>, limit: nat) {
    forall i :: 0 <= i < |run| - 1 ==> AutoStepAt(run, i, limit)
  }

  ghost predicate AutoStepAt(run: seq<State>, i: nat, limit: nat)
    requires i + 1 < |run|
  {
    AutoStep(run[i], run[i + 1], limit)
  }

  /** A state that some run with automatic compactions from an empty database ends in. */
  ghost predicate AutoReachable(s: State, limit: nat) {
    exists run :: AutoReaches(run, s, limit)
  }

  ghost predicate AutoReaches(run: seq<State>, s: State, limit: nat) {
    run != [] && run[0] == Init() && AutoSteps(run, limit) && run[|run| - 1] == s
  }

  /** So some run ends in it. */
  lemma ReachedByRun(s: State, limit: nat) returns (run: seq<State>)
    requires AutoReachable(s, limit)
    ensures IsAutoRun(run, limit) && run[0] == Init() && run[|run| - 1] == s
  {
    run :| AutoReaches(run, s, limit);
    InitInv();
  }

  lemma AutoReachesNext(s: State, t: State, limit: nat)
    requires AutoReachable(s, limit) && AutoStep(s, t, limit)
    ensures AutoReachable(t, limit)
  {
    var run :| AutoReaches(run, s, limit);
    var more := run + [t];
    forall i | 0 <= i < |more| - 1 ensures AutoStepAt(more, i, limit) {
      assert i < |run| - 1 ==> AutoStepAt(run, i, limit);
    }
    assert AutoReaches(more, t, limit);
  }

  lemma {:induction false} AutoRunKeepsInv(run: seq<State>, n: nat, limit: nat)
    requires IsAutoRun(run, limit) && n < |run|
    ensures AutoInv(run[n])
  {
    if n > 0 {
      AutoRunKeepsInv(run, n - 1, limit);
      assert AutoStepAt(run, n - 1, limit);
      AutoStepIsStep(run[n - 1], run[n], limit);
    }
  }

  /** A run with automatic compactions is a run: the overlap check never fails. */
  lemma AutoRunIsRun(run: seq<State>, limit: nat)
    requires IsAutoRun(run, limit)
    ensures IsRun(run)
  {
    forall i | 0 <= i < |run| - 1 ensures StepAt(run, i) {
      AutoRunKeepsInv(run, i, limit);
      assert AutoStepAt(run, i, limit);
      AutoIsChecked(run[i], run[i + 1], limit);
    }
  }

  /**
   * With automatic compactions the level invariant holds at every moment of every run, with no guard
   * at all: flushes may fall into running compactions, and their inputs may cut a key at level+1.
   */
  lemma AutoLevelsAreValid(run: seq<State>, n: nat, limit: nat)
    requires IsAutoRun(run, limit) && n < |run|
    ensures ValidVersion(run[n].version) && Aged(run[n])
  {
    AutoRunKeepsInv(run, n, limit);
  }

  /** Their reads follow the history if and only if no installation brings a deleted key back. */
  lemma AutoReadsFollowExactly(run: seq<State>, limit: nat)
    requires IsAutoRun(run, limit)
    ensures AllReadsFollow(run) <==> NeverSpoils(run, |run| - 1)
  {
    AutoRunIsRun(run, limit);
    ReadsFollowExactly(run);
  }
}
