/** Flushes, compactions and trivial moves keep the invariant of the database. */
module Installs {
  import opened Keys
  import opened Semantics
  import opened Tables
  import opened Versions
  import opened Overlap
  import opened Inputs
  import opened Filter
  import opened Compactions
  import opened Levels
  import opened Database

  // ---------------------------------------------------------------------
  // Flush
  // ---------------------------------------------------------------------

  lemma AddedEntries(v: Version, w: Version, level: nat, f: File)
    requires Added(v, w, level, f)
    ensures VersionEntries(w) == VersionEntries(v) + Elements(f.entries)
  {
    assert f in w[level];
    forall x | x in VersionEntries(w) ensures x in VersionEntries(v) + Elements(f.entries) {
      var l, g :| 0 <= l < |w| && g in w[l] && x in g.entries;
      assert g in v[l] || g == f;
    }
    forall x | x in VersionEntries(v) ensures x in VersionEntries(w) {
      var l, g :| 0 <= l < |v| && g in v[l] && x in g.entries;
      assert g in w[l];
    }
    forall x | x in f.entries ensures x in VersionEntries(w) {
      VersionEntriesOf(w, level, f, x);
    }
  }

  lemma FlushedFile(s: State, size: nat)
    requires Shape(s) && Aged(s) && Recorded(s) && s.imm.Some? && s.imm.value != []
    ensures var f := NewFile(s.nextFile, size, s.imm.value); ValidFile(f) && NewestFile(s.version, f)
  {
    HistoryUnique(s);
    var f := NewFile(s.nextFile, size, s.imm.value);
    forall l, g | 0 <= l < |s.version| && g in s.version[l] ensures NewerThan(f, g) {
      forall x, y | x in f.entries && y in g.entries ensures x.seqno > y.seqno {
        VersionEntriesOf(s.version, l, g, y);
        assert x in ImmEntries(s);
      }
    }
    forall e | e in f.entries ensures e.seqno <= kMaxSequenceNumber {
      assert e in Everything(s);
    }
  }

  lemma AddedNumbers(v: Version, w: Version, level: nat, f: File)
    requires Added(v, w, level, f) && NumbersBelow(v, f.number) && NumbersNameFiles(v)
    ensures NumbersBelow(w, f.number + 1) && NumbersNameFiles(w)
  {
    forall l, g | 0 <= l < |w| && g in w[l] ensures g == f || (g in v[l] && g.number < f.number) {
    }
  }

  lemma FlushShape(s: State, t: State, level: nat, size: nat)
    requires Shape(s) && Aged(s) && Recorded(s) && FlushStep(s, t, level, size)
    ensures Shape(t)
    ensures VersionEntries(t.version) == VersionEntries(s.version) + ImmEntries(s)
  {
    if s.imm.value != [] {
      var f := NewFile(s.nextFile, size, s.imm.value);
      FlushedFile(s, size);
      AddedIsValid(s.version, t.version, level, f);
      AddedEntries(s.version, t.version, level, f);
      AddedNumbers(s.version, t.version, level, f);
    } else {
      assert ImmEntries(s) == {};
    }
  }

  lemma AddedKeepsRunning(v: Version, w: Version, level: nat, f: File, c: Running)
    requires Added(v, w, level, f) && NewestFile(v, f)
    requires Chosen(v, c.level, c.inputs0, c.inputs1) && KeptNewer(v, c.level, c.inputs0, c.inputs1)
    ensures Chosen(w, c.level, c.inputs0, c.inputs1) && KeptNewer(w, c.level, c.inputs0, c.inputs1)
  {
    NewestAmongInputs(v, f, c);
    forall l: nat, h, g | l <= c.level && Kept(w, c.level, c.inputs0, c.inputs1, l, h) && g in c.inputs0 + c.inputs1
      ensures NewerThan(h, g)
    {
      assert h == f || Kept(v, c.level, c.inputs0, c.inputs1, l, h);
    }
  }

  lemma NewestAmongInputs(v: Version, f: File, c: Running)
    requires NewestFile(v, f) && Chosen(v, c.level, c.inputs0, c.inputs1)
    ensures forall g :: g in c.inputs0 + c.inputs1 ==> NewerThan(f, g)
  {
    forall g | g in c.inputs0 + c.inputs1 ensures NewerThan(f, g) {
      assert g in v[c.level] || g in v[c.level + 1];
    }
  }

  lemma FlushRunning(s: State, t: State, level: nat, size: nat)
    requires LevelInv(s) && FlushStep(s, t, level, size)
    ensures RunningLevels(t)
  {
    if s.running.Some? && s.imm.value != [] {
      FlushedFile(s, size);
      AddedKeepsRunning(s.version, t.version, level, NewFile(s.nextFile, size, s.imm.value), s.running.value);
    }
  }

  /** What moves from the immutable memtable to a file keeps its age. */
  lemma FlushAges(s: State, t: State)
    requires Aged(s) && Recorded(s) && VersionEntries(t.version) == VersionEntries(s.version) + ImmEntries(s)
    requires t.mem == s.mem && t.imm == None && t.history == s.history && t.lastSequence == s.lastSequence
    ensures Aged(t) && Recorded(t) && Everything(t) == Everything(s)
  {
    assert ImmEntries(t) == {};
  }

  lemma FlushKeepsLevels(s: State, t: State, level: nat, size: nat)
    requires LevelInv(s) && FlushStep(s, t, level, size)
    ensures LevelInv(t) && Everything(t) == Everything(s)
  {
    FlushShape(s, t, level, size);
    FlushAges(s, t);
    FlushRunning(s, t, level, size);
    SameSnapshots(s, t);
  }

  lemma SameSnapshots(s: State, t: State)
    requires Snapshots(s) && RunningSnapshot(s)
    requires t.snapshots == s.snapshots && t.lastSequence == s.lastSequence && t.running == s.running
    ensures Snapshots(t) && RunningSnapshot(t)
  {
  }

  // ---------------------------------------------------------------------
  // The start of a compaction
  // ---------------------------------------------------------------------

  /** Level+1 files that were not chosen share no user key with the chosen files of the level. */
  lemma NextLevelDisjoint(v: Version, level: nat, in0: seq<File>, in1: seq<File>, f: File, g: File)
    requires |v| == kNumLevels && Selected(v, level, in0, in1) && ValidFiles(v[level]) && ValidFiles(v[level + 1])
    requires f in v[level + 1] && f !in in1 && g in in0
    ensures UserDisjoint(f, g)
  {
    var a, b :| IsSmallest(in0, a) && IsLargest(in0, b) && in1 == Select(v[level + 1], Some(a.user), Some(b.user));
    assert !Meets(f, Some(a.user), Some(b.user));
    assert g in v[level];
    ValidFilesAreOrdered(v[level]);
    ValidFilesAreOrdered(v[level + 1]);
    assert Ordered(f) && Ordered(g);
  }

  lemma SelectedIsChosen(v: Version, level: nat, in0: seq<File>, in1: seq<File>)
    requires Selected(v, level, in0, in1)
    ensures Chosen(v, level, in0, in1)
  {
  }

  /** The choice is closed at its own level, and everything above is newer anyway. */
  lemma SelectedKeepsNewer(v: Version, level: nat, in0: seq<File>, in1: seq<File>)
    requires ValidVersion(v) && Selected(v, level, in0, in1)
    ensures KeptNewer(v, level, in0, in1)
  {
    forall l: nat, f, g | l <= level && Kept(v, level, in0, in1, l, f) && g in in0 + in1 ensures NewerThan(f, g) {
      assert g in v[level] || g in v[level + 1];
    }
  }

  lemma BeginRunning(s: State, t: State, c: Running)
    requires ValidVersion(s.version) && BeginStep(s, t, c)
    ensures RunningLevels(t)
  {
    SelectedIsChosen(s.version, c.level, c.inputs0, c.inputs1);
    SelectedKeepsNewer(s.version, c.level, c.inputs0, c.inputs1);
  }

  lemma BeginKeepsLevels(s: State, t: State, c: Running)
    requires LevelInv(s) && BeginStep(s, t, c)
    ensures LevelInv(t) && Everything(t) == Everything(s)
  {
    BeginRunning(s, t, c);
    SameEntries(s, t);
  }

  lemma SameEntries(s: State, t: State)
    requires Aged(s) && Recorded(s) && Shape(s)
    requires t.mem == s.mem && t.imm == s.imm && t.version == s.version && t.nextFile == s.nextFile
    requires t.history == s.history && t.lastSequence == s.lastSequence
    ensures Aged(t) && Recorded(t) && Shape(t) && Everything(t) == Everything(s)
  {
  }

  // ---------------------------------------------------------------------
  // Replacing files: contents
  // ---------------------------------------------------------------------

  /** The entries of the files a compaction leaves in place. */
  ghost function KeptEntries(v: Version, level: nat, in0: seq<File>, in1: seq<File>): set<Entry> {
    set l, f, e | 0 <= l < |v| && f in v[l] && Kept(v, level, in0, in1, l, f) && e in f.entries :: e
  }

  lemma EntriesBefore(v: Version, level: nat, in0: seq<File>, in1: seq<File>)
    requires Chosen(v, level, in0, in1)
    ensures VersionEntries(v) == KeptEntries(v, level, in0, in1) + FileEntries(in0 + in1)
  {
    forall x | x in VersionEntries(v) ensures x in KeptEntries(v, level, in0, in1) + FileEntries(in0 + in1) {
      var l, f :| 0 <= l < |v| && f in v[l] && x in f.entries;
      if !Kept(v, level, in0, in1, l, f) {
        FileEntriesOf(in0 + in1, f, x);
      }
    }
    forall x | x in FileEntries(in0 + in1) ensures x in VersionEntries(v) {
      var f := FileOfEntry(in0 + in1, x);
      VersionEntriesOf(v, if f in in0 then level else level + 1, f, x);
    }
  }

  lemma EntriesAfter(v: Version, w: Version, level: nat, in0: seq<File>, in1: seq<File>, outputs: seq<File>)
    requires Replaced(v, w, level, in0, in1, outputs)
    ensures VersionEntries(w) == KeptEntries(v, level, in0, in1) + FileEntries(outputs)
  {
    forall x | x in VersionEntries(w) ensures x in KeptEntries(v, level, in0, in1) + FileEntries(outputs) {
      var l, f :| 0 <= l < |w| && f in w[l] && x in f.entries;
      FilesAfter(v, w, level, in0, in1, outputs, l, f);
    }
    forall x | x in KeptEntries(v, level, in0, in1) ensures x in VersionEntries(w) {
      var l, f :| 0 <= l < |v| && f in v[l] && Kept(v, level, in0, in1, l, f) && x in f.entries;
      FilesAfter(v, w, level, in0, in1, outputs, l, f);
      VersionEntriesOf(w, l, f, x);
    }
    forall x | x in FileEntries(outputs) ensures x in VersionEntries(w) {
      var f := FileOfEntry(outputs, x);
      FilesAfter(v, w, level, in0, in1, outputs, level + 1, f);
      VersionEntriesOf(w, level + 1, f, x);
    }
  }

  lemma {:induction false} ConcatEntries(fs: seq<File>)
    ensures FileEntries(fs) == Elements(Concat(fs))
  {
    if fs != [] {
      var n := |fs| - 1;
      ConcatEntries(fs[..n]);
      assert fs == fs[..n] + [fs[n]];
      forall x | x in FileEntries(fs) ensures x in Elements(Concat(fs)) {
        var f := FileOfEntry(fs, x);
        if f in fs[..n] { FileEntriesOf(fs[..n], f, x); }
      }
      forall x | x in Elements(Concat(fs)) ensures x in FileEntries(fs) {
        if x in Concat(fs[..n]) {
          var f := FileOfEntry(fs[..n], x);
          FileEntriesOf(fs, f, x);
        } else {
          FileEntriesOf(fs, fs[n], x);
        }
      }
    }
  }

  /** Files cut from a sorted run form a sorted level. */
  lemma {:induction false} ConcatIsSorted(fs: seq<File>)
    requires ValidFiles(fs) && SortedEntries(Concat(fs))
    ensures SortedLevel(fs)
  {
    if fs != [] {
      var n := |fs| - 1;
      var all := Concat(fs);
      var init := Concat(fs[..n]);
      assert all == init + fs[n].entries;
      assert fs == fs[..n] + [fs[n]];
      forall i, j | 0 <= i < j < |init| ensures EntryLess(init[i], init[j]) {
        assert all[i] == init[i] && all[j] == init[j];
      }
      ConcatIsSorted(fs[..n]);
      assert ValidFile(fs[n]);
      forall i | 0 <= i < n ensures KeyLess(fs[i].largest, fs[n].smallest) {
        assert fs[i] in fs[..n] && ValidFile(fs[i]);
        var e := fs[i].entries[|fs[i].entries| - 1];
        ConcatEntries(fs[..n]);
        FileEntriesOf(fs[..n], fs[i], e);
        assert e in Elements(init);
        var p :| 0 <= p < |init| && init[p] == e;
        assert all[p] == e && all[|init|] == fs[n].entries[0];
        assert EntryLess(all[p], all[|init|]);
      }
    }
  }

  // ---------------------------------------------------------------------
  // Installation
  // ---------------------------------------------------------------------

  /** Everything outside the inputs of the running compaction. */
  ghost function Rest(s: State, c: Running): set<Entry> {
    Elements(s.mem) + ImmEntries(s) + KeptEntries(s.version, c.level, c.inputs0, c.inputs1)
  }

  /** In terms of entries, an installation filters the inputs and leaves the rest alone. */
  lemma InstallContents(s: State, t: State, merged: seq<Entry>, outputs: seq<File>)
    requires InstallStep(s, t, merged, outputs)
    requires var c := s.running.value; Chosen(s.version, c.level, c.inputs0, c.inputs1)
    ensures var c := s.running.value;
      && Everything(s) == Rest(s, c) + Elements(merged)
      && Everything(t) == Rest(s, c) + Elements(Output(merged, c.smallestSnapshot, BaseLevels(c.inputVersion, c.level)))
  {
    var c := s.running.value;
    EntriesBefore(s.version, c.level, c.inputs0, c.inputs1);
    EntriesAfter(s.version, t.version, c.level, c.inputs0, c.inputs1, outputs);
    ConcatEntries(outputs);
  }

  /** Reads at every sequence number from `oldest` on are the same before and after. */
  ghost predicate SameReads(s: State, t: State, k: UserKey, oldest: nat) {
    forall q: nat :: q >= oldest ==> View(Everything(s), k, q) == View(Everything(t), k, q)
  }

  /**
   * Installing the running compaction would bring `k` back for a read at `oldest`: the marker that
   * answers the read is among the inputs and is dropped, and a value is left outside.
   */
  ghost predicate Spoils(s: State, k: UserKey, oldest: nat) {
    s.running.Some? &&
    var c := s.running.value;
    Resurrects(Rest(s, c), FileEntries(c.inputs0 + c.inputs1), c.smallestSnapshot, BaseLevels(c.inputVersion, c.level), k, oldest)
  }

  /**
   * Exactly when an installation keeps the reads of a key, whatever inputs were chosen: no value of
   * the key is left behind under a marker that the compaction drops.
   */
  lemma InstallReadsExactly(s: State, t: State, merged: seq<Entry>, outputs: seq<File>, k: UserKey, oldest: nat)
    requires InstallStep(s, t, merged, outputs) && UniqueSeqnos(Everything(s))
    requires var c := s.running.value; Chosen(s.version, c.level, c.inputs0, c.inputs1) && oldest >= c.smallestSnapshot
    ensures SameReads(s, t, k, oldest) <==> !Spoils(s, k, oldest)
  {
    var c := s.running.value;
    InstallContents(s, t, merged, outputs);
    ReadsKeptExactly(Rest(s, c), merged, c.smallestSnapshot, BaseLevels(c.inputVersion, c.level), k, oldest);
  }
}
