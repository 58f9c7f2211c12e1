/**
 * The storage engine as a state machine: db/db_impl.cc with writes, memtable switches, flushes,
 * compactions that run while other steps go on, trivial moves and snapshots as atomic steps.
 */
module Database {
  import opened Keys
  import opened Semantics
  import opened Tables
  import opened Versions
  import opened Overlap
  import opened Inputs
  import opened Filter
  import opened Compactions
  import opened Levels

  /** A compaction between the choice of its inputs and the installation of its outputs. */
  datatype Running = Running(level: nat, inputs0: seq<File>, inputs1: seq<File>, inputVersion: Version, smallestSnapshot: nat)

  /** `history` records every write; the code keeps only what the other fields still hold. */
  datatype State = State(
    mem: seq<Entry>,
    imm: Option<seq<Entry>>,
    version: Version,
    lastSequence: nat,
    snapshots: seq<nat>,
    running: Option<Running>,
    nextFile: nat,
    history: seq<Entry>)

  // ---------------------------------------------------------------------
  // Contents
  // ---------------------------------------------------------------------

  function ImmEntries(s: State): set<Entry> {
    if s.imm.Some? then Elements(s.imm.value) else {}
  }

  /** Every entry the database still holds. */
  ghost function Everything(s: State): set<Entry> {
    Elements(s.mem) + ImmEntries(s) + VersionEntries(s.version)
  }

  /** The smallest sequence number at which a read can still be asked for. */
  function Oldest(s: State): nat {
    if s.snapshots == [] then s.lastSequence else s.snapshots[0]
  }

  // ---------------------------------------------------------------------
  // Invariant
  // ---------------------------------------------------------------------

  ghost predicate NumbersBelow(v: Version, next: nat) {
    forall l, f :: 0 <= l < |v| && f in v[l] ==> f.number < next
  }

  /** A file number names one file across all levels. */
  ghost predicate NumbersNameFiles(v: Version) {
    forall l, m, f, g :: 0 <= l < |v| && 0 <= m < |v| && f in v[l] && g in v[m] && f.number == g.number ==> f == g
  }

  ghost predicate Shape(s: State) {
    && ValidVersion(s.version) && InOrder(s.version)
    && NumbersBelow(s.version, s.nextFile) && NumbersNameFiles(s.version)
    && SortedEntries(s.mem) && (s.imm.Some? ==> SortedEntries(s.imm.value))
  }

  /** Memory is newer than the immutable memtable, which is newer than the files. */
  ghost predicate Aged(s: State) {
    && (forall x, y :: x in Elements(s.mem) && y in ImmEntries(s) ==> x.seqno > y.seqno)
    && (forall x, y :: x in Elements(s.mem) && y in VersionEntries(s.version) ==> x.seqno > y.seqno)
    && (forall x, y :: x in ImmEntries(s) && y in VersionEntries(s.version) ==> x.seqno > y.seqno)
  }

  ghost predicate Recorded(s: State) {
    && Ascending(s.history) && (forall x :: x in s.history ==> 1 <= x.seqno <= s.lastSequence)
    && s.lastSequence < kMaxSequenceNumber
    && Everything(s) <= Elements(s.history)
  }

  predicate Snapshots(s: State) {
    && (forall i, j :: 0 <= i < j < |s.snapshots| ==> s.snapshots[i] <= s.snapshots[j])
    && (forall i :: 0 <= i < |s.snapshots| ==> s.snapshots[i] <= s.lastSequence)
  }

  /** Brute force over what is left agrees with the history wherever a read can be asked for. */
  ghost predicate Faithful(s: State) {
    forall k, q: nat :: Oldest(s) <= q ==> View(Everything(s), k, q) == Lookup(Replay(AsOf(s.history, q)), k)
  }

  /** The inputs of a running compaction are in place, and no file left at or above them is older. */
  ghost predicate RunningLevels(s: State) {
    s.running.Some? ==>
      var c := s.running.value;
      Chosen(s.version, c.level, c.inputs0, c.inputs1) && KeptNewer(s.version, c.level, c.inputs0, c.inputs1)
  }

  /** A running compaction keeps what the oldest readable sequence number can see. */
  predicate RunningSnapshot(s: State) {
    s.running.Some? ==> s.running.value.smallestSnapshot <= Oldest(s)
  }

  /** The level invariant with everything it rests on. */
  ghost predicate LevelInv(s: State) {
    Shape(s) && Aged(s) && Recorded(s) && Snapshots(s) && RunningLevels(s) && RunningSnapshot(s)
  }

  ghost predicate Inv(s: State) {
    LevelInv(s) && Faithful(s)
  }

  function Init(): State {
    State([], None, seq(kNumLevels, _ => []), 0, [], None, 2, [])
  }

  // ---------------------------------------------------------------------
  // Steps
  // ---------------------------------------------------------------------

  /** The entries of a batch, numbered from the last sequence on. */
  function Numbering(last: nat, ops: seq<(UserKey, Op)>): (r: seq<Entry>)
    ensures |r| == |ops|
    ensures forall i :: 0 <= i < |r| ==> r[i] == Entry(ops[i].0, last + 1 + i, ops[i].1)
  {
    seq(|ops|, i requires 0 <= i < |ops| => Entry(ops[i].0, last + 1 + i, ops[i].1))
  }

  /** A group commit: the batch enters the memtable and the last sequence moves past it. */
  ghost predicate WriteStep(s: State, t: State, ops: seq<(UserKey, Op)>) {
    var batch := Numbering(s.lastSequence, ops);
    && t == s.(mem := t.mem, lastSequence := s.lastSequence + |ops|, history := s.history + batch)
    && SortedEntries(t.mem) && Elements(t.mem) == Elements(s.mem) + Elements(batch)
    && t.lastSequence < kMaxSequenceNumber
  }

  ghost predicate SwitchStep(s: State, t: State) {
    s.imm.None? && t == s.(imm := Some(s.mem), mem := [])
  }

  /** A flush, which may happen while a compaction runs. An empty memtable leaves no file. */
  ghost predicate FlushStep(s: State, t: State, level: nat, size: nat) {
    && s.imm.Some?
    && t == s.(imm := None, version := t.version, nextFile := s.nextFile + 1)
    && (s.imm.value == [] ==> t.version == s.version)
    && (s.imm.value != [] ==>
         var f := NewFile(s.nextFile, size, s.imm.value);
         && level <= kMaxMemCompactLevel
         && (level > 0 ==> FreeDownTo(s.version, level, f.smallest.user, f.largest.user))
         && Added(s.version, t.version, level, f))
  }

  ghost predicate BeginStep(s: State, t: State, c: Running) {
    && s.running.None? && s.imm.None?
    && Selected(s.version, c.level, c.inputs0, c.inputs1)
    && c.inputVersion == s.version
    && c.smallestSnapshot == Oldest(s)
    && t == s.(running := Some(c))
  }

  ghost predicate InstallStep(s: State, t: State, merged: seq<Entry>, outputs: seq<File>) {
    && s.running.Some?
    && var c := s.running.value;
    && c.level + 1 < |s.version|
    && SortedEntries(merged) && Elements(merged) == FileEntries(c.inputs0 + c.inputs1)
    && Outputs(outputs, Output(merged, c.smallestSnapshot, BaseLevels(c.inputVersion, c.level)))
    && DistinctNumbers(outputs)
    && (forall o :: o in outputs ==> o.number < t.nextFile)
    && (forall o, l, f :: o in outputs && 0 <= l < |s.version| && f in s.version[l] ==> o.number != f.number)
    && s.nextFile <= t.nextFile
    && Replaced(s.version, t.version, c.level, c.inputs0, c.inputs1, outputs)
    && t == s.(version := t.version, running := None, nextFile := t.nextFile)
  }

  /** An installation that passes the overlap check of SaveTo, which only debug builds make. */
  ghost predicate CheckedInstall(s: State, t: State, merged: seq<Entry>, outputs: seq<File>) {
    InstallStep(s, t, merged, outputs) && Fits(s.version, s.running.value.level, s.running.value.inputs1, outputs)
  }

  ghost predicate MoveStep(s: State, t: State, level: nat, f: File) {
    && s.running.None? && s.imm.None?
    && Selected(s.version, level, [f], [])
    && Replaced(s.version, t.version, level, [f], [], [f])
    && t == s.(version := t.version)
  }

  ghost predicate SnapshotStep(s: State, t: State) {
    t == s.(snapshots := s.snapshots + [s.lastSequence])
  }

  ghost predicate ReleaseStep(s: State, t: State, i: nat) {
    i < |s.snapshots| && t == s.(snapshots := s.snapshots[..i] + s.snapshots[i + 1..])
  }

  /** One step; of the guards that the code leaves out, only the overlap check is made. */
  ghost predicate Step(s: State, t: State) {
    || (exists ops :: WriteStep(s, t, ops))
    || SwitchStep(s, t)
    || (exists level, size :: FlushStep(s, t, level, size))
    || (exists c :: BeginStep(s, t, c))
    || (exists merged, outputs :: CheckedInstall(s, t, merged, outputs))
    || (exists level, f :: MoveStep(s, t, level, f))
    || SnapshotStep(s, t)
    || (exists i :: ReleaseStep(s, t, i))
  }

  lemma HistoryUnique(s: State)
    requires Recorded(s)
    ensures UniqueSeqnos(Everything(s)) && UniqueSeqnos(VersionEntries(s.version))
    ensures forall x :: x in Everything(s) ==> 1 <= x.seqno <= s.lastSequence
  {
    AscendingIsUnique(s.history);
  }

  // ---------------------------------------------------------------------
  // Writes and memtable switches
  // ---------------------------------------------------------------------

  lemma SnapshotsBelow(s: State)
    requires Snapshots(s)
    ensures Oldest(s) <= s.lastSequence
    ensures forall i :: 0 <= i < |s.snapshots| ==> Oldest(s) <= s.snapshots[i]
  {
  }

  /** The history goes on with the numbers after the last one. */
  lemma HistoryGoesOn(s: State, batch: seq<Entry>, ops: seq<(UserKey, Op)>)
    requires Recorded(s) && batch == Numbering(s.lastSequence, ops)
    ensures Ascending(s.history + batch) && Elements(s.history + batch) == Elements(s.history) + Elements(batch)
    ensures forall x :: x in batch ==> s.lastSequence < x.seqno <= s.lastSequence + |ops|
  {
  }

  lemma WriteKeepsRecords(s: State, t: State, ops: seq<(UserKey, Op)>)
    requires LevelInv(s) && WriteStep(s, t, ops)
    ensures Recorded(t) && Aged(t)
    ensures Everything(t) == Everything(s) + Elements(Numbering(s.lastSequence, ops))
  {
    HistoryUnique(s);
    var batch := Numbering(s.lastSequence, ops);
    HistoryGoesOn(s, batch, ops);
    assert VersionEntries(s.version) <= Everything(s) && ImmEntries(s) <= Everything(s);
    assert forall x :: x in t.history ==> x in Elements(t.history);
  }

  lemma WriteKeepsLevels(s: State, t: State, ops: seq<(UserKey, Op)>)
    requires LevelInv(s) && WriteStep(s, t, ops)
    ensures LevelInv(t)
  {
    WriteKeepsRecords(s, t, ops);
    SnapshotsBelow(s);
  }

  lemma WriteKeepsReads(s: State, t: State, ops: seq<(UserKey, Op)>)
    requires Inv(s) && WriteStep(s, t, ops)
    ensures Faithful(t)
  {
    WriteKeepsRecords(s, t, ops);
    SnapshotsBelow(s);
    forall k, q: nat | Oldest(t) <= q ensures View(Everything(t), k, q) == Lookup(Replay(AsOf(t.history, q)), k) {
      AppendedReads(Everything(s), s.history, Numbering(s.lastSequence, ops), Oldest(s), k, q);
    }
  }

  /** A step that leaves the contents, the history and the oldest snapshot alone keeps reads. */
  lemma SameContentsFaithful(s: State, t: State)
    requires Faithful(s) && Everything(t) == Everything(s)
    requires t.history == s.history && t.lastSequence == s.lastSequence && Oldest(t) >= Oldest(s)
    ensures Faithful(t)
  {
  }

  lemma SwitchKeepsLevels(s: State, t: State)
    requires LevelInv(s) && SwitchStep(s, t)
    ensures LevelInv(t) && Everything(t) == Everything(s)
  {
  }

  // ---------------------------------------------------------------------
  // Snapshots
  // ---------------------------------------------------------------------

  lemma SnapshotKeepsLevels(s: State, t: State)
    requires LevelInv(s) && SnapshotStep(s, t)
    ensures LevelInv(t) && Oldest(t) == Oldest(s)
  {
  }

  lemma ReleaseKeepsLevels(s: State, t: State, i: nat)
    requires LevelInv(s) && ReleaseStep(s, t, i)
    ensures LevelInv(t) && Oldest(t) >= Oldest(s)
  {
    SnapshotsBelow(s);
  }
}
