/**
 * The engine with its manifest: every flush, installation and move appends an edit, so what the manifest
 * says and what the engine holds agree at every moment. db/version_set.cc:801-884 and db/db_impl.cc:535-566,
 * 718-727 and 860-876.
 */
module Journal {
  import opened Keys
  import opened Tables
  import opened Versions
  import opened Compactions
  import opened Edits
  import opened Levels
  import opened Database
  import opened Installs
  import opened LogReplay
  import opened ManifestReplay
  import opened Crash
  import Manifest
  import TableWork

  type Opener = Manifest.FileMeta -> File

  /** The edits of the current manifest, and the versions they made one after another. */
  datatype Store = Store(sys: System, edits: seq<Manifest.Edit>, versions: seq<Version>)

  // ---------------------------------------------------------------------
  // Steps
  // ---------------------------------------------------------------------

  /** LogAndApply: the edit is completed with the numbers of the moment, written and synced. */
  ghost predicate Appends(s: Store, t: Store, e: Manifest.Edit, what: VersionEdit, open: Opener) {
    && t.edits == s.edits + [e] && t.versions == s.versions + [t.sys.db.version]
    && Manifest.FitsEdit(e) && Meaning(e, open) == what && e.comparator.None? && e.logNumber.Some?
    && e.nextFileNumber == Some(t.sys.db.nextFile) && e.lastSequence == Some(t.sys.db.lastSequence)
  }

  /** Writes, switches, starts of compactions and snapshots do not touch the manifest. */
  ghost predicate Unwritten(s: Store, t: Store) {
    && t.edits == s.edits && t.versions == s.versions
    && ((exists g, sync :: LogWrite(s.sys, t.sys, g, sync)) || LogSwitch(s.sys, t.sys) || Still(s.sys, t.sys))
  }

  ghost predicate Still(s: System, t: System) {
    && t == s.(db := t.db)
    && ((exists c :: BeginStep(s.db, t.db, c)) || SnapshotStep(s.db, t.db) || (exists i :: ReleaseStep(s.db, t.db, i)))
  }

  function FlushEdit(s: State, level: nat, size: nat): VersionEdit {
    if s.imm.None? || s.imm.value == [] then VersionEdit({}, [])
    else VersionEdit({}, [(level, Compactions.NewFile(s.nextFile, size, s.imm.value))])
  }

  ghost predicate FlushWritten(s: Store, t: Store, level: nat, size: nat, e: Manifest.Edit, open: Opener) {
    LogFlush(s.sys, t.sys, level, size) && Appends(s, t, e, FlushEdit(s.sys.db, level, size), open)
  }

  /** No edit of the manifest has used the numbers of the files. */
  ghost predicate NewNumbers(s: Store, files: seq<File>, open: Opener) {
    forall f, g :: f in files && Mentions(Meanings(s.edits, open), g) ==> f.number != g.number
  }

  ghost predicate InstallWritten(s: Store, t: Store, merged: seq<Entry>, outputs: seq<File>, e: Manifest.Edit, open: Opener) {
    && CheckedInstall(s.sys.db, t.sys.db, merged, outputs) && t.sys == s.sys.(db := t.sys.db)
    && NewNumbers(s, outputs, open)
    && var c := s.sys.db.running.value;
       c.level + 1 < kNumLevels && Appends(s, t, e, TableWork.ReplacingEdit(c.level, c.inputs0, c.inputs1, outputs), open)
  }

  ghost predicate MoveWritten(s: Store, t: Store, level: nat, f: File, e: Manifest.Edit, open: Opener) {
    && MoveStep(s.sys.db, t.sys.db, level, f) && t.sys == s.sys.(db := t.sys.db)
    && level + 1 < kNumLevels && Appends(s, t, e, TableWork.ReplacingEdit(level, [f], [], [f]), open)
  }

  ghost predicate StoreStep(s: Store, t: Store, open: Opener) {
    || Unwritten(s, t)
    || (exists level, size, e :: FlushWritten(s, t, level, size, e, open))
    || (exists merged, outputs, e :: InstallWritten(s, t, merged, outputs, e, open))
    || (exists level, f, e :: MoveWritten(s, t, level, f, e, open))
  }

  lemma StoreStepIsStep(s: Store, t: Store, open: Opener)
    requires StoreStep(s, t, open)
    ensures SystemStep(s.sys, t.sys)
  {
  }

  // ---------------------------------------------------------------------
  // Invariant
  // ---------------------------------------------------------------------

  /** Some edit adds the file. */
  ghost predicate Mentions(edits: seq<VersionEdit>, f: File) {
    exists i :: 0 <= i < |edits| && AddsFile(edits[i], f)
  }

  ghost predicate AddsFile(e: VersionEdit, f: File) {
    exists a :: a in e.newFiles && a.1 == f
  }

  /** Numbers of added files name one file each and come from the counter. */
  ghost predicate NamesFiles(edits: seq<VersionEdit>, next: nat) {
    && (forall f, g :: Mentions(edits, f) && Mentions(edits, g) && f.number == g.number ==> f == g)
    && forall f :: Mentions(edits, f) ==> f.number < next
  }

  /** The numbers in the manifest cover the tables and the flushed groups. */
  ghost predicate Covered(s: System, n: Numbers)
    requires Bounds(s)
  {
    && n.log.Some? && n.nextFile.Some? && n.lastSequence.Some? && NumbersBelow(s.db.version, n.nextFile.value)
    && LastNumber(s.groups[..s.flushed]) <= n.lastSequence.value <= s.db.lastSequence
  }

  ghost predicate AllEditsFit(edits: seq<Manifest.Edit>) {
    forall i :: 0 <= i < |edits| ==> Manifest.FitsEdit(edits[i])
  }

  /** The edits of the manifest have made the version that the engine works with. */
  ghost predicate Made(s: Store, open: Opener) {
    MadeInTurn(s.versions, Meanings(s.edits, open)) && s.versions[|s.edits|] == s.sys.db.version
  }

  ghost predicate Journaled(s: Store, comparator: Bytes, open: Opener) {
    && SystemInv(s.sys) && AllEditsFit(s.edits) && SameComparator(s.edits, comparator) && Made(s, open)
    && NamesFiles(Meanings(s.edits, open), s.sys.db.nextFile) && Covered(s.sys, NumbersAfter(s.edits))
  }

  lemma NamesAreUsedOnce(edits: seq<VersionEdit>, next: nat)
    requires NamesFiles(edits, next)
    ensures NumbersUsedOnce(edits)
  {
    forall l | 0 <= l < kNumLevels ensures NumbersName([], l, edits) {
      forall f | f in Mentioned([], l, edits) ensures Mentions(edits, f) {
        var e, a :| e in edits && a in e.newFiles && a.0 == l && a.1 == f;
        assert AddsFile(e, f);
      }
    }
  }

  /** Every file of the current version was added by an edit. */
  lemma {:induction false} InVersionIsMentioned(versions: seq<Version>, edits: seq<VersionEdit>, n: nat, l: nat, f: File)
    requires MadeInTurn(versions, edits) && n <= |edits| && l < |versions[n]| && f in versions[n][l]
    ensures Mentions(edits, f)
  {
    if n > 0 {
      assert MadeAt(versions, edits, n - 1);
      if (l, f) in edits[n - 1].newFiles {
        assert AddsFile(edits[n - 1], f);
      } else {
        InVersionIsMentioned(versions, edits, n - 1, l, f);
      }
    }
  }

  // ---------------------------------------------------------------------
  // One more edit
  // ---------------------------------------------------------------------

  lemma MeaningsGrow(edits: seq<Manifest.Edit>, e: Manifest.Edit, open: Opener)
    ensures Meanings(edits + [e], open) == Meanings(edits, open) + [Meaning(e, open)]
    ensures NumbersAfter(edits + [e]) == Counted(NumbersAfter(edits), e)
  {
    assert (edits + [e])[..|edits|] == edits;
  }

  lemma MadeGrows(versions: seq<Version>, edits: seq<VersionEdit>, w: Version, e: VersionEdit)
    requires MadeInTurn(versions, edits) && Follows(versions[|edits|], w, e)
    ensures MadeInTurn(versions + [w], edits + [e])
  {
    var vs, es := versions + [w], edits + [e];
    forall i | 0 <= i < |es| ensures MadeAt(vs, es, i) {
      assert i < |edits| ==> MadeAt(versions, edits, i);
    }
  }

  lemma MentionsGrow(edits: seq<VersionEdit>, e: VersionEdit, f: File)
    ensures Mentions(edits + [e], f) <==> Mentions(edits, f) || AddsFile(e, f)
  {
    var es := edits + [e];
    assert es[|edits|] == e && forall i :: 0 <= i < |edits| ==> es[i] == edits[i];
  }

  /** New files have new numbers, or they are files that were added before. */
  lemma NamesGrow(edits: seq<VersionEdit>, e: VersionEdit, next: nat, more: nat)
    requires NamesFiles(edits, next) && next <= more
    requires forall f :: AddsFile(e, f) ==> f.number < more
    requires forall f, g :: AddsFile(e, f) && AddsFile(e, g) && f.number == g.number ==> f == g
    requires forall f, g :: AddsFile(e, f) && Mentions(edits, g) && f.number == g.number ==> f == g
    ensures NamesFiles(edits + [e], more)
  {
    forall f ensures Mentions(edits + [e], f) <==> Mentions(edits, f) || AddsFile(e, f) {
      MentionsGrow(edits, e, f);
    }
  }

  /** What an edit must be for the journal to go on. */
  ghost predicate GoesOn(s: Store, t: Store, what: VersionEdit, open: Opener) {
    && Follows(s.sys.db.version, t.sys.db.version, what) && s.sys.db.nextFile <= t.sys.db.nextFile
    && (forall f :: AddsFile(what, f) ==> f.number < t.sys.db.nextFile)
    && (forall f, g :: AddsFile(what, f) && AddsFile(what, g) && f.number == g.number ==> f == g)
    && (forall f, g :: AddsFile(what, f) && Mentions(Meanings(s.edits, open), g) && f.number == g.number ==> f == g)
  }

  lemma AppendKeepsJournal(s: Store, t: Store, e: Manifest.Edit, what: VersionEdit, comparator: Bytes, open: Opener)
    requires Journaled(s, comparator, open) && SystemInv(t.sys) && Appends(s, t, e, what, open) && GoesOn(s, t, what, open)
    ensures Journaled(t, comparator, open)
  {
    MeaningsGrow(s.edits, e, open);
    MadeGrows(s.versions, Meanings(s.edits, open), t.sys.db.version, what);
    NamesGrow(Meanings(s.edits, open), what, s.sys.db.nextFile, t.sys.db.nextFile);
    NowCovered(t.sys, NumbersAfter(t.edits));
  }

  /** The numbers of the moment cover everything. */
  lemma NowCovered(s: System, n: Numbers)
    requires SystemInv(s) && n.log.Some? && n.nextFile == Some(s.db.nextFile) && n.lastSequence == Some(s.db.lastSequence)
    ensures Covered(s, n)
  {
    LastNumberIs(s.groups[..s.flushed], s.db.lastSequence);
  }

  // ---------------------------------------------------------------------
  // Every step keeps the journal
  // ---------------------------------------------------------------------

  lemma FlushGoesOn(s: Store, t: Store, level: nat, size: nat, comparator: Bytes, open: Opener)
    requires Journaled(s, comparator, open) && LogFlush(s.sys, t.sys, level, size)
    ensures GoesOn(s, t, FlushEdit(s.sys.db, level, size), open)
  {
    var what, v, w := FlushEdit(s.sys.db, level, size), s.sys.db.version, t.sys.db.version;
    if s.sys.db.imm.value != [] {
      var f := Compactions.NewFile(s.sys.db.nextFile, size, s.sys.db.imm.value);
      AddedFollows(v, w, level, f);
      assert what.newFiles == [(level, f)];
      assert forall g :: AddsFile(what, g) <==> g == f by { assert (level, f) in what.newFiles; }
    } else {
      NothingFollows(v);
    }
  }

  lemma AddedFollows(v: Version, w: Version, level: nat, f: File)
    requires |v| == kNumLevels && InOrder(v) && Added(v, w, level, f)
    ensures Follows(v, w, VersionEdit({}, [(level, f)]))
  {
    forall l, g | 0 <= l < kNumLevels ensures g in w[l] <==> g in v[l] || (l, g) in [(level, f)] {
    }
  }

  lemma NothingFollows(v: Version)
    requires |v| == kNumLevels && InOrder(v)
    ensures Follows(v, v, VersionEdit({}, []))
  {
  }

  lemma ReplacedFollows(v: Version, w: Version, level: nat, in0: seq<File>, in1: seq<File>, outputs: seq<File>)
    requires |v| == kNumLevels && InOrder(v) && NumbersNameFiles(v) && Chosen(v, level, in0, in1)
    requires Replaced(v, w, level, in0, in1, outputs)
    ensures Follows(v, w, TableWork.ReplacingEdit(level, in0, in1, outputs))
  {
    var e := TableWork.ReplacingEdit(level, in0, in1, outputs);
    forall l, f | 0 <= l < kNumLevels
      ensures f in w[l] <==> (f in v[l] && (l, f.number) !in e.deletedFiles) || (l, f) in e.newFiles
    {
      TableWork.ReplacingEditIs(v, level, in0, in1, outputs, l, f);
      FilesAfter(v, w, level, in0, in1, outputs, l, f);
    }
    forall l | 0 <= l < kNumLevels ensures SortedBySmallest(w[l]) {
      assert l != level && l != level + 1 ==> w[l] == v[l];
    }
  }

  lemma ReplacingAdds(level: nat, in0: seq<File>, in1: seq<File>, outputs: seq<File>, f: File)
    requires level + 1 < kNumLevels
    ensures AddsFile(TableWork.ReplacingEdit(level, in0, in1, outputs), f) <==> f in outputs
  {
    if f in outputs { assert (level + 1, f) in TableWork.ReplacingEdit(level, in0, in1, outputs).newFiles; }
  }

  lemma InstallGoesOn(s: Store, t: Store, merged: seq<Entry>, outputs: seq<File>, comparator: Bytes, open: Opener)
    requires Journaled(s, comparator, open) && CheckedInstall(s.sys.db, t.sys.db, merged, outputs) && NewNumbers(s, outputs, open)
    requires s.sys.db.running.value.level + 1 < kNumLevels
    ensures var c := s.sys.db.running.value; GoesOn(s, t, TableWork.ReplacingEdit(c.level, c.inputs0, c.inputs1, outputs), open)
  {
    var c := s.sys.db.running.value;
    ReplacedFollows(s.sys.db.version, t.sys.db.version, c.level, c.inputs0, c.inputs1, outputs);
    forall f ensures AddsFile(TableWork.ReplacingEdit(c.level, c.inputs0, c.inputs1, outputs), f) <==> f in outputs {
      ReplacingAdds(c.level, c.inputs0, c.inputs1, outputs, f);
    }
    forall f, g | f in outputs && g in outputs && f.number == g.number ensures f == g {
      NumbersIdentify(outputs, f, g);
    }
  }

  lemma MoveGoesOn(s: Store, t: Store, level: nat, f: File, open: Opener)
    requires Shape(s.sys.db) && Made(s, open) && NamesFiles(Meanings(s.edits, open), s.sys.db.nextFile)
    requires MoveStep(s.sys.db, t.sys.db, level, f) && level + 1 < kNumLevels
    ensures GoesOn(s, t, TableWork.ReplacingEdit(level, [f], [], [f]), open)
  {
    SelectedIsChosen(s.sys.db.version, level, [f], []);
    ReplacedFollows(s.sys.db.version, t.sys.db.version, level, [f], [], [f]);
    forall g ensures AddsFile(TableWork.ReplacingEdit(level, [f], [], [f]), g) <==> g in [f] {
      ReplacingAdds(level, [f], [], [f], g);
    }
    assert f in [f];
    InVersionIsMentioned(s.versions, Meanings(s.edits, open), |s.edits|, level, f);
  }

  lemma UnwrittenKeepsJournal(s: Store, t: Store, comparator: Bytes, open: Opener)
    requires Journaled(s, comparator, open) && SystemInv(t.sys) && Unwritten(s, t)
    ensures Journaled(t, comparator, open)
  {
    StillMade(s, t);
  }

  lemma StillMade(s: Store, t: Store)
    requires Bounds(s.sys) && Unwritten(s, t)
    ensures t.sys.db.version == s.sys.db.version && t.sys.flushed == s.sys.flushed && s.sys.groups <= t.sys.groups
    ensures t.sys.db.nextFile == s.sys.db.nextFile && s.sys.db.lastSequence <= t.sys.db.lastSequence
    ensures t.sys.groups[..t.sys.flushed] == s.sys.groups[..s.sys.flushed]
  {
  }

  lemma StepKeepsJournal(s: Store, t: Store, comparator: Bytes, open: Opener)
    requires Journaled(s, comparator, open) && StoreStep(s, t, open)
    ensures Journaled(t, comparator, open)
  {
    StoreStepIsStep(s, t, open);
    SystemStepKeepsInv(s.sys, t.sys);
    if Unwritten(s, t) {
      UnwrittenKeepsJournal(s, t, comparator, open);
    } else if level, size, e :| FlushWritten(s, t, level, size, e, open) {
      FlushKeepsJournal(s, t, level, size, e, comparator, open);
    } else if merged, outputs, e :| InstallWritten(s, t, merged, outputs, e, open) {
      InstallKeepsJournal(s, t, merged, outputs, e, comparator, open);
    } else {
      var level, f, e :| MoveWritten(s, t, level, f, e, open);
      MoveKeepsJournal(s, t, level, f, e, comparator, open);
    }
  }

  lemma FlushKeepsJournal(s: Store, t: Store, level: nat, size: nat, e: Manifest.Edit, comparator: Bytes, open: Opener)
    requires Journaled(s, comparator, open) && SystemInv(t.sys) && FlushWritten(s, t, level, size, e, open)
    ensures Journaled(t, comparator, open)
  {
    FlushGoesOn(s, t, level, size, comparator, open);
    AppendKeepsJournal(s, t, e, FlushEdit(s.sys.db, level, size), comparator, open);
  }

  lemma InstallKeepsJournal(s: Store, t: Store, merged: seq<Entry>, outputs: seq<File>, e: Manifest.Edit, comparator: Bytes, open: Opener)
    requires Journaled(s, comparator, open) && SystemInv(t.sys) && InstallWritten(s, t, merged, outputs, e, open)
    ensures Journaled(t, comparator, open)
  {
    var c := s.sys.db.running.value;
    InstallGoesOn(s, t, merged, outputs, comparator, open);
    AppendKeepsJournal(s, t, e, TableWork.ReplacingEdit(c.level, c.inputs0, c.inputs1, outputs), comparator, open);
  }

  lemma MoveKeepsJournal(s: Store, t: Store, level: nat, f: File, e: Manifest.Edit, comparator: Bytes, open: Opener)
    requires Journaled(s, comparator, open) && SystemInv(t.sys) && MoveWritten(s, t, level, f, e, open)
    ensures Journaled(t, comparator, open)
  {
    MoveGoesOn(s, t, level, f, open);
    AppendKeepsJournal(s, t, e, TableWork.ReplacingEdit(level, [f], [], [f]), comparator, open);
  }

  // ---------------------------------------------------------------------
  // Runs
  // ---------------------------------------------------------------------

  /** A store that may start: its engine may, and its manifest agrees with it. */
  ghost predicate StoreStarts(s: Store, comparator: Bytes, open: Opener) {
    Journaled(s, comparator, open) && TablesFollow(s.sys)
  }

  ghost predicate IsStoreRun(run: seq<Store>, comparator: Bytes, open: Opener) {
    run != [] && StoreStarts(run[0], comparator, open) && StoreSteps(run, open)
  }

  ghost predicate StoreSteps(run: seq<Store>, open: Opener) {
    forall i :: 0 <= i < |run| - 1 ==> StoreStepAt(run, i, open)
  }

  ghost predicate StoreStepAt(run: seq<Store>, i: nat, open: Opener)
    requires i + 1 < |run|
  {
    StoreStep(run[i], run[i + 1], open)
  }

  /** No installation among the first `n` steps brings a deleted key back in the tables. */
  ghost predicate NeverSpoilsStore(run: seq<Store>, n: nat)
    requires n < |run|
  {
    forall i :: 0 <= i < n ==> SpoilsNoTables(run[i].sys.db, run[i + 1].sys.db)
  }

  lemma StoreRunStep(run: seq<Store>, i: nat, comparator: Bytes, open: Opener)
    requires IsStoreRun(run, comparator, open) && i + 1 < |run|
    ensures StoreStep(run[i], run[i + 1], open)
  {
    assert StoreStepAt(run, i, open);
  }

  lemma StepKeepsStore(s: Store, t: Store, comparator: Bytes, open: Opener)
    requires StoreStarts(s, comparator, open) && StoreStep(s, t, open) && SpoilsNoTables(s.sys.db, t.sys.db)
    ensures StoreStarts(t, comparator, open)
  {
    StepKeepsJournal(s, t, comparator, open);
    StoreStepIsStep(s, t, open);
    StepKeepsStart(s.sys, t.sys);
  }

  /** At every moment of a run the manifest says what the engine holds, and a crash finds tables that follow the history. */
  lemma {:induction false} RunKeepsStore(run: seq<Store>, n: nat, comparator: Bytes, open: Opener)
    requires IsStoreRun(run, comparator, open) && n < |run| && NeverSpoilsStore(run, n)
    ensures StoreStarts(run[n], comparator, open)
  {
    if n > 0 {
      RunKeepsStore(run, n - 1, comparator, open);
      StoreRunStep(run, n - 1, comparator, open);
      StepKeepsStore(run[n - 1], run[n], comparator, open);
    }
  }

  // ---------------------------------------------------------------------
  // A new database
  // ---------------------------------------------------------------------

  /** The edit that NewDB writes. */
  function NewDbEdit(comparator: Bytes): Manifest.Edit {
    Manifest.Edit(Some(comparator), Some(0), None, Some(2), Some(0), [], [], [])
  }

  function NewStore(comparator: Bytes): Store {
    Store(NewSystem, [NewDbEdit(comparator)], [Levelless, Init().version])
  }

  lemma NewStoreStarts(comparator: Bytes, open: Opener)
    requires |comparator| < 0x1_0000_0000
    ensures StoreStarts(NewStore(comparator), comparator, open)
  {
    StartIsGood();
    var s := NewStore(comparator);
    NewDbEditFits(comparator);
    assert Meanings(s.edits, open) == [Meaning(NewDbEdit(comparator), open)];
    assert Meaning(NewDbEdit(comparator), open) == VersionEdit({}, []);
    assert Init().version == Levelless;
    NothingFollows(Levelless);
    assert MadeAt(s.versions, Meanings(s.edits, open), 0);
    assert s.edits[..0] == [] && s.sys.groups[..0] == [];
    assert NumbersAfter(s.edits) == Counted(NoNumbers, NewDbEdit(comparator));
    EmptyVersionIsNamed(Meanings(s.edits, open));
  }

  lemma NewDbEditFits(comparator: Bytes)
    requires |comparator| < 0x1_0000_0000
    ensures Manifest.FitsEdit(NewDbEdit(comparator))
  {
  }

  lemma EmptyVersionIsNamed(edits: seq<VersionEdit>)
    requires |edits| == 1 && edits[0].newFiles == []
    ensures NamesFiles(edits, 2)
  {
  }
}
