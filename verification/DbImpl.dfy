/** The database object: db/db_impl.cc, each method a step of the state machine. */
module DbImpl {
  import opened Keys
  import opened Semantics
  import opened Tables
  import opened Versions
  import opened Overlap
  import opened Inputs
  import opened Picks
  import opened Filter
  import opened Compactions
  import opened Cutting
  import opened Levels
  import opened Database
  import opened Installs
  import opened Runs
  import opened Automatic
  import opened Gaps
  import opened TableWork
  import DbIter

  lemma InstalledKeepsInv(s: State, t: State, merged: seq<Entry>, outputs: seq<File>)
    requires InstallStep(s, t, merged, outputs)
    ensures LevelInv(s) && CheckedInstall(s, t, merged, outputs) ==> LevelInv(t)
    ensures Inv(s) ==> (Faithful(t) <==> forall k :: !Spoils(s, k, Oldest(s)))
  {
    if LevelInv(s) && CheckedInstall(s, t, merged, outputs) {
      InstallKeepsLevels(s, t, merged, outputs);
    }
    if Inv(s) {
      InstallFaithfulExactly(s, t, merged, outputs);
    }
  }

  /** The level of a flushed file, and the version with the file in it. */
  method WriteLevel0Table(v: Version, f: File, maxGrandParentOverlapBytes: nat) returns (level: nat, w: Version)
    requires ValidVersion(v) && InOrder(v) && NumbersNameFiles(v) && NumbersBelow(v, f.number)
    ensures level <= kMaxMemCompactLevel && Added(v, w, level, f)
    ensures level > 0 ==> FreeDownTo(v, level, f.smallest.user, f.largest.user)
    ensures IsPicked(v, level, f.smallest.user, f.largest.user, maxGrandParentOverlapBytes)
  {
    level := PickLevelForMemTableOutput(v, f.smallest.user, f.largest.user, maxGrandParentOverlapBytes);
    w := AddTable(v, level, f);
  }

  lemma GrandparentsUnique(v: Version, level: nat, inputs: seq<File>, gs: seq<File>, hs: seq<File>)
    requires Grandparents(v, level, inputs, gs) && Grandparents(v, level, inputs, hs)
    ensures gs == hs
  {
  }

  /** The pick itself tells whether it is a trivial move. */
  lemma PickTells(v: Version, p: Pick, maxGrandParentOverlapBytes: nat)
    requires Grandparents(v, p.level, p.inputs0 + p.inputs1, p.grandparents)
    ensures MovesTrivially(v, p.level, p.inputs0, p.inputs1, maxGrandParentOverlapBytes) <==>
      IsTrivialMove(p, maxGrandParentOverlapBytes)
  {
    forall gs | Grandparents(v, p.level, p.inputs0 + p.inputs1, gs) ensures gs == p.grandparents {
      GrandparentsUnique(v, p.level, p.inputs0 + p.inputs1, gs, p.grandparents);
    }
  }

  lemma MoveIsAuto(s: State, t: State, p: Pick, limit: nat)
    requires Grandparents(s.version, p.level, p.inputs0 + p.inputs1, p.grandparents)
    requires IsTrivialMove(p, limit) && MoveStep(s, t, p.level, p.inputs0[0])
    ensures AutoStep(s, t, limit)
  {
    assert p.inputs0 == [p.inputs0[0]] && p.inputs1 == [];
    PickTells(s.version, p, limit);
    assert PickedMove(s, t, p.level, p.inputs0[0], limit);
  }

  lemma BeginIsAuto(s: State, t: State, c: Running, p: Pick, limit: nat)
    requires Grandparents(s.version, p.level, p.inputs0 + p.inputs1, p.grandparents)
    requires c.level == p.level && c.inputs0 == p.inputs0 && c.inputs1 == p.inputs1
    requires !IsTrivialMove(p, limit) && BeginStep(s, t, c) && Gapless(p.inputs0 + p.inputs1)
    ensures AutoStep(s, t, limit)
  {
    PickTells(s.version, p, limit);
    assert PickedBegin(s, t, c, limit);
  }

  /** A file that moves down is not at the next level yet. */
  lemma MovedIsNew(v: Version, level: nat, f: File)
    requires ValidVersion(v) && NumbersNameFiles(v) && Selected(v, level, [f], [])
    ensures Chosen(v, level, [f], []) && forall g :: g in v[level + 1] ==> g.number != f.number
  {
    SelectedIsChosen(v, level, [f], []);
    assert [f][0] in v[level];
    forall g | g in v[level + 1] ensures g.number != f.number {
      assert NewerThan(f, g);
      assert f.entries[0] in f.entries;
    }
  }

  /** The version with a file moved to the next level. */
  method MoveDown(v: Version, level: nat, f: File) returns (w: Version)
    requires ValidVersion(v) && InOrder(v) && NumbersNameFiles(v) && Selected(v, level, [f], [])
    ensures Replaced(v, w, level, [f], [], [f])
  {
    MovedIsNew(v, level, f);
    w := ReplaceTables(v, level, [f], [], [f]);
  }

  lemma MovedKeepsInv(s: State, t: State, level: nat, f: File)
    requires Inv(s) && MoveStep(s, t, level, f)
    ensures Inv(t)
  {
    MoveKeepsLevelInv(s, t, level, f);
    SameContentsFaithful(s, t);
  }

  /** The files a compaction made, installed. */
  lemma InstallOf(s: State, c: Running, merged: seq<Entry>, outputs: seq<File>, w: Version)
    requires s.running == Some(c) && NumbersBelow(s.version, s.nextFile)
    requires SortedEntries(merged) && Elements(merged) == FileEntries(c.inputs0 + c.inputs1)
    requires Outputs(outputs, Output(merged, c.smallestSnapshot, BaseLevels(c.inputVersion, c.level)))
    requires DistinctNumbers(outputs) && forall o :: o in outputs ==> s.nextFile <= o.number < s.nextFile + |outputs|
    requires Replaced(s.version, w, c.level, c.inputs0, c.inputs1, outputs)
    ensures InstallStep(s, Replacement(s, w, |outputs|), merged, outputs)
  {
  }

  /** The state with the outputs of the running compaction in place. */
  function Replacement(s: State, w: Version, files: nat): State {
    s.(version := w, nextFile := s.nextFile + files, running := None)
  }

  /** A started compaction still has its inputs in place. */
  ghost predicate Ready(s: State, c: Running) {
    && ValidVersion(c.inputVersion) && Selected(c.inputVersion, c.level, c.inputs0, c.inputs1)
    && Chosen(s.version, c.level, c.inputs0, c.inputs1)
    && c.smallestSnapshot <= s.lastSequence
  }

  /** The compaction loop over the inputs of the running compaction of `s`, up to the new version. */
  method DoCompaction(ghost s: State, v: Version, c: Running, grandparents: seq<File>, fileSize: seq<Entry> -> nat,
                      maxOutputFileSize: nat, maxGrandParentOverlapBytes: nat, nextFile: nat)
      returns (ghost merged: seq<Entry>, outputs: seq<File>, w: Version)
    requires Shape(s) && Recorded(s) && s.running == Some(c) && Ready(s, c) && v == s.version && nextFile == s.nextFile
    ensures InstallStep(s, Replacement(s, w, |outputs|), merged, outputs)
    ensures CutExactly(Limits(fileSize, maxOutputFileSize, grandparents, maxGrandParentOverlapBytes), merged, outputs)
  {
    InputSeqnos(s, c);
    merged, outputs, w :=
      CompactFiles(v, c, grandparents, fileSize, maxOutputFileSize, maxGrandParentOverlapBytes, nextFile);
    InstallOf(s, c, merged, outputs, w);
  }

  // ---------------------------------------------------------------------
  // The database object
  // ---------------------------------------------------------------------

  class DBImpl {
    var mem: seq<Entry>
    var imm: Option<seq<Entry>>
    var version: Version
    var lastSequence: nat
    var snapshots: seq<nat>
    var running: Option<Running>
    var nextFile: nat
    /** Every write so far, in order. */
    ghost var history: seq<Entry>

    ghost function Abs(): State
      reads this
    {
      State(mem, imm, version, lastSequence, snapshots, running, nextFile, history)
    }

    constructor ()
      ensures Abs() == Init() && Inv(Abs())
    {
      mem, imm, version, lastSequence := [], None, seq(kNumLevels, _ => []), 0;
      snapshots, running, nextFile, history := [], None, 2, [];
      new;
      InitInv();
    }

    /** A read at a live snapshot, or at the last sequence, returns what the history says. */
    method Get(key: UserKey, snapshot: Option<nat>) returns (value: Option<Bytes>)
      requires Inv(Abs()) && (snapshot.Some? ==> snapshot.value in snapshots)
      ensures var q := if snapshot.Some? then snapshot.value else lastSequence;
        value == Lookup(Replay(AsOf(history, q)), key)
    {
      var q := if snapshot.Some? then snapshot.value else lastSequence;
      SnapshotsBelow(Abs());
      HistoryUnique(Abs());
      ghost var s := Abs();
      SearchIsNewest(mem, key, q);
      var found := Search(mem, key, q);
      if found.Some? {
        FoundInMem(s, key, q, found.value);
        return ValueOf(found);
      }
      if imm.Some? {
        SearchIsNewest(imm.value, key, q);
        found := Search(imm.value, key, q);
        if found.Some? {
          FoundInImm(s, key, q, found.value);
          return ValueOf(found);
        }
      }
      value := Versions.Get(version, key, q);
      NotInMemory(s, key, q);
    }

    /** A group of writes. */
    method Write(ops: seq<(UserKey, Op)>)
      requires Inv(Abs()) && lastSequence + |ops| < kMaxSequenceNumber
      modifies this
      ensures WriteStep(old(Abs()), Abs(), ops) && Inv(Abs())
    {
      ghost var s := Abs();
      HistoryUnique(s);
      assert forall x :: x in mem ==> x in Everything(s);
      mem := InsertInto(mem, lastSequence, ops);
      history := history + Numbering(lastSequence, ops);
      lastSequence := lastSequence + |ops|;
      WriteKeepsLevels(s, Abs(), ops);
      WriteKeepsReads(s, Abs(), ops);
    }

    /** MakeRoomForWrite: the full memtable becomes immutable. */
    method SwitchMemTable()
      requires Inv(Abs()) && imm.None?
      modifies this
      ensures SwitchStep(old(Abs()), Abs()) && Inv(Abs())
    {
      ghost var s := Abs();
      imm := Some(mem);
      mem := [];
      SwitchKeepsLevels(s, Abs());
      SameContentsFaithful(s, Abs());
    }

    /** A flush; it may happen while a compaction runs. */
    method CompactMemTable(fileSize: nat, maxGrandParentOverlapBytes: nat)
      requires Inv(Abs()) && imm.Some?
      modifies this
      ensures exists level :: PickedFlush(old(Abs()), Abs(), level, fileSize, maxGrandParentOverlapBytes)
      ensures Inv(Abs())
    {
      ghost var s := Abs();
      var level := 0;
      if imm.value != [] {
        FlushedFile(s, fileSize);
        level, version := WriteLevel0Table(version, NewFile(nextFile, fileSize, imm.value), maxGrandParentOverlapBytes);
      }
      imm := None;
      nextFile := nextFile + 1;
      assert PickedFlush(s, Abs(), level, fileSize, maxGrandParentOverlapBytes);
      FlushKeepsLevels(s, Abs(), level, fileSize);
      SameContentsFaithful(s, Abs());
    }

    /** The start of a compaction, automatic or manual, with the inputs that were picked for it. */
    method BeginCompaction(p: Pick)
      requires Inv(Abs()) && running.None? && imm.None? && Selected(version, p.level, p.inputs0, p.inputs1)
      modifies this
      ensures running.Some? && BeginStep(old(Abs()), Abs(), running.value)
      ensures running.value.level == p.level && running.value.inputs0 == p.inputs0 && running.value.inputs1 == p.inputs1
      ensures Inv(Abs())
    {
      ghost var s := Abs();
      var smallestSnapshot := if snapshots == [] then lastSequence else snapshots[0];
      running := Some(Running(p.level, p.inputs0, p.inputs1, version, smallestSnapshot));
      BeginKeepsLevels(s, Abs(), running.value);
      SameContentsFaithful(s, Abs());
    }

    /** What was picked: an automatic pick that may simply move is moved, everything else is compacted. */
    method BackgroundCompaction(p: Pick, isManual: bool, maxGrandParentOverlapBytes: nat) returns (moved: bool)
      requires Inv(Abs()) && running.None? && imm.None? && Selected(version, p.level, p.inputs0, p.inputs1)
      requires Grandparents(version, p.level, p.inputs0 + p.inputs1, p.grandparents)
      modifies this
      ensures moved <==> !isManual && IsTrivialMove(p, maxGrandParentOverlapBytes)
      ensures if moved then MoveStep(old(Abs()), Abs(), p.level, p.inputs0[0])
              else running.Some? && BeginStep(old(Abs()), Abs(), running.value)
                   && running.value.level == p.level && running.value.inputs0 == p.inputs0 && running.value.inputs1 == p.inputs1
      ensures !isManual && Gapless(p.inputs0 + p.inputs1) ==> AutoStep(old(Abs()), Abs(), maxGrandParentOverlapBytes)
      ensures Inv(Abs())
    {
      ghost var s := Abs();
      moved := !isManual && IsTrivialMove(p, maxGrandParentOverlapBytes);
      if moved {
        MoveFile(p);
        MoveIsAuto(s, Abs(), p, maxGrandParentOverlapBytes);
      } else {
        BeginCompaction(p);
        if !isManual && Gapless(p.inputs0 + p.inputs1) {
          BeginIsAuto(s, Abs(), running.value, p, maxGrandParentOverlapBytes);
        }
      }
    }

    /** A trivial move. */
    method MoveFile(p: Pick)
      requires Inv(Abs()) && running.None? && imm.None? && Selected(version, p.level, p.inputs0, p.inputs1)
      requires |p.inputs0| == 1 && |p.inputs1| == 0
      modifies this
      ensures MoveStep(old(Abs()), Abs(), p.level, p.inputs0[0]) && Inv(Abs())
    {
      ghost var s := Abs();
      var f := p.inputs0[0];
      assert p.inputs0 == [f] && p.inputs1 == [];
      var w := MoveDown(version, p.level, f);
      MovedKeepsInv(s, s.(version := w), p.level, f);
      version := w;
      assert Abs() == s.(version := w);
    }

    /**
     * The compaction loop and the installation of its outputs. If the outputs fit, the levels stay
     * valid; the reads are kept if and only if no deleted key is brought back.
     */
    method FinishCompaction(grandparents: seq<File>, fileSize: seq<Entry> -> nat, maxOutputFileSize: nat,
                            maxGrandParentOverlapBytes: nat)
        returns (ghost merged: seq<Entry>, outputs: seq<File>)
      requires Shape(Abs()) && Recorded(Abs()) && running.Some? && Ready(Abs(), running.value)
      modifies this
      ensures InstallStep(old(Abs()), Abs(), merged, outputs)
      ensures CutExactly(Limits(fileSize, maxOutputFileSize, grandparents, maxGrandParentOverlapBytes), merged, outputs)
      ensures old(LevelInv(Abs())) && CheckedInstall(old(Abs()), Abs(), merged, outputs) ==> LevelInv(Abs())
      ensures old(Inv(Abs())) ==> (Faithful(Abs()) <==> forall k :: !Spoils(old(Abs()), k, old(Oldest(Abs()))))
    {
      ghost var s := Abs();
      var w;
      merged, outputs, w := DoCompaction(s, version, running.value, grandparents, fileSize, maxOutputFileSize,
                                         maxGrandParentOverlapBytes, nextFile);
      InstalledKeepsInv(s, Replacement(s, w, |outputs|), merged, outputs);
      version := w;
      nextFile := nextFile + |outputs|;
      running := None;
      assert Abs() == Replacement(s, w, |outputs|);
    }

    method GetSnapshot() returns (snapshot: nat)
      requires Inv(Abs())
      modifies this
      ensures SnapshotStep(old(Abs()), Abs()) && Inv(Abs()) && snapshot in snapshots && snapshot == lastSequence
    {
      ghost var s := Abs();
      snapshots := snapshots + [lastSequence];
      snapshot := lastSequence;
      SnapshotKeepsLevels(s, Abs());
      SameContentsFaithful(s, Abs());
    }

    method ReleaseSnapshot(i: nat)
      requires Inv(Abs()) && i < |snapshots|
      modifies this
      ensures ReleaseStep(old(Abs()), Abs(), i) && Inv(Abs())
    {
      ghost var s := Abs();
      snapshots := snapshots[..i] + snapshots[i + 1..];
      ReleaseKeepsLevels(s, Abs(), i);
      SameContentsFaithful(s, Abs());
    }
  }

  lemma InputSeqnos(s: State, c: Running)
    requires Recorded(s) && Chosen(s.version, c.level, c.inputs0, c.inputs1)
    ensures UniqueSeqnos(FileEntries(c.inputs0 + c.inputs1))
    ensures forall e :: e in FileEntries(c.inputs0 + c.inputs1) ==> e.seqno < kMaxSequenceNumber
  {
    HistoryUnique(s);
    EntriesBefore(s.version, c.level, c.inputs0, c.inputs1);
    assert VersionEntries(s.version) <= Everything(s);
  }

  lemma FoundInMem(s: State, k: UserKey, q: nat, e: Entry)
    requires Inv(s) && Oldest(s) <= q <= s.lastSequence && Newest(Elements(s.mem), k, q, e)
    ensures ValueOf(Some(e)) == Lookup(Replay(AsOf(s.history, q)), k)
  {
    HistoryUnique(s);
    NewestIsFound(Everything(s), k, q, e);
  }

  lemma FoundInImm(s: State, k: UserKey, q: nat, e: Entry)
    requires Inv(s) && Oldest(s) <= q <= s.lastSequence
    requires NoneVisible(Elements(s.mem), k, q) && Newest(ImmEntries(s), k, q, e)
    ensures ValueOf(Some(e)) == Lookup(Replay(AsOf(s.history, q)), k)
  {
    HistoryUnique(s);
    NewestIsFound(Everything(s), k, q, e);
  }

  lemma NotInMemory(s: State, k: UserKey, q: nat)
    requires Inv(s) && Oldest(s) <= q <= s.lastSequence
    requires NoneVisible(Elements(s.mem), k, q) && NoneVisible(ImmEntries(s), k, q)
    ensures View(VersionEntries(s.version), k, q) == Lookup(Replay(AsOf(s.history, q)), k)
  {
    HistoryUnique(s);
    var r := Find(VersionEntries(s.version), k, q);
    ResultIsFind(Everything(s), k, q, r);
  }

  /**
   * At any moment of a run so far without a spoilt installation, the search through memory, the
   * immutable memtable and the levels returns what the history says.
   */
  method GetInRun(db: DBImpl, key: UserKey, snapshot: Option<nat>, ghost run: seq<State>, ghost n: nat)
      returns (value: Option<Bytes>)
    requires IsRun(run) && n < |run| && NeverSpoils(run, n) && db.Abs() == run[n]
    requires snapshot.Some? ==> snapshot.value in run[n].snapshots
    ensures var q := if snapshot.Some? then snapshot.value else run[n].lastSequence;
      value == Lookup(Replay(AsOf(run[n].history, q)), key)
  {
    RunKeepsInv(run, n);
    value := db.Get(key, snapshot);
  }

  // ---------------------------------------------------------------------
  // Iterating
  // ---------------------------------------------------------------------

  /**
   * An iterator over the sorted contents of the database at a readable sequence number walks the
   * map that the history up to that number leaves behind, key by key in order.
   */
  lemma IteratorWalksHistory(run: seq<State>, n: nat, es: seq<Entry>, q: nat, k: UserKey, v: Bytes)
    requires IsRun(run) && n < |run| && NeverSpoils(run, n) && Readable(run[n], q)
    requires SortedEntries(es) && Elements(es) == Everything(run[n])
    ensures Lookup(Replay(AsOf(run[n].history, q)), k) == Some(v) <==>
      exists i :: 0 <= i < |es| && DbIter.Live(es, q, i) && es[i].key == k && es[i].op.value == v
    ensures forall i, j :: 0 <= i < j < |es| && DbIter.Live(es, q, i) && DbIter.Live(es, q, j) ==> es[i].key < es[j].key
  {
    ReadsFollowHistory(run, n, k, q);
    RunKeepsInv(run, n);
    HistoryUnique(run[n]);
    DbIter.LiveIsView(es, q, k, v);
    DbIter.LiveKeysIncrease(es, q);
  }
}
