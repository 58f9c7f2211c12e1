/**
 * Which files may be deleted: db/db_impl.cc:223-278, 495-566 and 860-876, with one background worker
 * and any number of readers. A step is a region in which the lock is held, or a file operation.
 */
module FileCollection {
  import opened Keys

  /** A version, with how many readers hold it. */
  datatype Ver = Ver(files: set<nat>, readers: nat)

  /** A running compaction holds the version it began with; `installing` while the manifest is written. */
  datatype Compaction = Compaction(input: nat, deletions: set<nat>, outputs: set<nat>, installing: bool)

  /** A flush builds its table under a pending number, and gives the number up before the manifest is written. */
  datatype Flush = NoFlush | Building(number: nat, written: bool) | Installing(table: Option<nat>)

  /** Logs at or above `logNumber` are needed for recovery; mem and imm are what two of them hold. */
  datatype State = State(
    tables: set<nat>,
    logs: set<nat>,
    versions: map<nat, Ver>,
    current: nat,
    pending: set<nat>,
    next: nat,
    logNumber: nat,
    memLog: nat,
    immLog: Option<nat>,
    compaction: Option<Compaction>,
    flush: Flush)

  const Init: State := State({}, {1}, map[0 := Ver({}, 0)], 0, {}, 2, 1, 1, None, None, NoFlush)

  // ---------------------------------------------------------------------
  // Versions and collection
  // ---------------------------------------------------------------------

  /** A version stays in the list while something refers to it. */
  predicate Referenced(s: State, v: nat)
    requires v in s.versions
  {
    v == s.current || s.versions[v].readers > 0 || (s.compaction.Some? && s.compaction.value.input == v)
  }

  function DropUnreferenced(s: State): State {
    s.(versions := map v | v in s.versions && Referenced(s, v) :: s.versions[v])
  }

  /** AddLiveFiles, and the pending outputs. */
  function Live(s: State): set<nat> {
    s.pending + set v, f | v in s.versions && f in s.versions[v].files :: f
  }

  /** DeleteObsoleteFiles. */
  function Collected(s: State): State {
    s.(tables := s.tables * Live(s), logs := set l | l in s.logs && l >= s.logNumber)
  }

  /** AppendVersion. Version numbers stand for the order of installation. */
  function Appended(s: State, v: nat, files: set<nat>): State {
    s.(versions := s.versions[v := Ver(files, 0)], current := v)
  }

  // ---------------------------------------------------------------------
  // Steps
  // ---------------------------------------------------------------------

  ghost predicate ReaderBegins(s: State, t: State) {
    && s.current in s.versions
    && t == s.(versions := s.versions[s.current := s.versions[s.current].(readers := s.versions[s.current].readers + 1)])
  }

  ghost predicate ReaderEnds(s: State, t: State, v: nat) {
    && v in s.versions && s.versions[v].readers > 0
    && t == DropUnreferenced(s.(versions := s.versions[v := s.versions[v].(readers := s.versions[v].readers - 1)]))
  }

  /** The memtable switch, by a writer. */
  ghost predicate Switch(s: State, t: State) {
    s.immLog.None? && t == s.(immLog := Some(s.memLog), memLog := s.next, logs := s.logs + {s.next}, next := s.next + 1)
  }

  /** The worker is not in the middle of something else. */
  predicate WorkerFree(s: State) {
    s.flush.NoFlush? && (s.compaction.Some? ==> !s.compaction.value.installing)
  }

  ghost predicate FlushBegins(s: State, t: State) {
    WorkerFree(s) && s.immLog.Some? && t == s.(pending := s.pending + {s.next}, flush := Building(s.next, false), next := s.next + 1)
  }

  ghost predicate FlushWrites(s: State, t: State) {
    && s.flush.Building? && !s.flush.written
    && t == s.(tables := s.tables + {s.flush.number}, flush := s.flush.(written := true))
  }

  /** The number leaves the pending outputs; a table without entries has been deleted. */
  ghost predicate FlushWritten(s: State, t: State, empty: bool) {
    && s.flush.Building? && s.flush.written
    && t == s.(pending := s.pending - {s.flush.number}, tables := if empty then s.tables - {s.flush.number} else s.tables,
               flush := Installing(if empty then None else Some(s.flush.number)))
  }

  ghost predicate FlushInstalls(s: State, t: State, v: nat) {
    && s.flush.Installing? && s.current in s.versions && v !in s.versions
    && var files := s.versions[s.current].files + if s.flush.table.Some? then {s.flush.table.value} else {};
       t == Collected(DropUnreferenced(Appended(s, v, files).(logNumber := s.memLog, immLog := None, flush := NoFlush)))
  }

  ghost predicate CompactionBegins(s: State, t: State, deletions: set<nat>) {
    && WorkerFree(s) && s.compaction.None? && s.current in s.versions && deletions <= s.versions[s.current].files
    && t == s.(compaction := Some(Compaction(s.current, deletions, {}, false)))
  }

  ghost predicate OutputOpens(s: State, t: State) {
    && WorkerFree(s) && s.compaction.Some?
    && t == s.(pending := s.pending + {s.next}, tables := s.tables + {s.next}, next := s.next + 1,
               compaction := Some(s.compaction.value.(outputs := s.compaction.value.outputs + {s.next})))
  }

  ghost predicate CompactionInstalling(s: State, t: State) {
    WorkerFree(s) && s.compaction.Some? && t == s.(compaction := Some(s.compaction.value.(installing := true)))
  }

  /** The new version, the end of the pending outputs and of the hold on the input version, and a collection. */
  ghost predicate CompactionInstalls(s: State, t: State, v: nat) {
    && s.compaction.Some? && s.compaction.value.installing && s.flush.NoFlush? && s.current in s.versions && v !in s.versions
    && var c := s.compaction.value;
       var files := s.versions[s.current].files - c.deletions + c.outputs;
       t == Collected(DropUnreferenced(Appended(s, v, files).(pending := s.pending - c.outputs, compaction := None)))
  }

  ghost predicate Step(s: State, t: State) {
    || ReaderBegins(s, t) || (exists v :: ReaderEnds(s, t, v)) || Switch(s, t)
    || FlushBegins(s, t) || FlushWrites(s, t) || (exists empty :: FlushWritten(s, t, empty)) || (exists v :: FlushInstalls(s, t, v))
    || (exists deletions :: CompactionBegins(s, t, deletions)) || OutputOpens(s, t) || CompactionInstalling(s, t)
    || (exists v :: CompactionInstalls(s, t, v))
  }

  // ---------------------------------------------------------------------
  // Safety
  // ---------------------------------------------------------------------

  /** Every table that a reader, a running flush or a running compaction may open is there. */
  ghost predicate TablesKept(s: State) {
    && s.current in s.versions
    && (forall v, f :: v in s.versions && f in s.versions[v].files ==> f in s.tables)
    && (s.compaction.Some? ==> s.compaction.value.input in s.versions && s.compaction.value.outputs <= s.tables)
    && (s.flush.Building? && s.flush.written ==> s.flush.number in s.tables)
    && (s.flush.Installing? && s.flush.table.Some? ==> s.flush.table.value in s.tables)
  }

  /** The logs of both memtables are there, and recovery would read them. */
  ghost predicate LogsKept(s: State) {
    && s.memLog in s.logs && s.logNumber <= s.memLog
    && (s.immLog.Some? ==> s.immLog.value in s.logs && s.logNumber <= s.immLog.value < s.memLog)
  }

  /** What makes the next collection safe. */
  ghost predicate Guarded(s: State) {
    && (s.compaction.Some? ==> s.compaction.value.outputs <= s.pending)
    && (s.flush.Building? ==> s.flush.number in s.pending && New(s, s.flush.number))
    && (s.flush.Installing? && s.flush.table.Some? ==> New(s, s.flush.table.value))
    && (!s.flush.NoFlush? ==> s.immLog.Some? && (s.compaction.Some? ==> !s.compaction.value.installing))
    && (forall f :: f in s.pending || f in s.tables ==> f < s.next)
    && (forall v :: v in s.versions ==> Referenced(s, v))
    && (forall l :: l in s.logs ==> l < s.next)
    && s.memLog < s.next
    && s.pending <= (if s.compaction.Some? then s.compaction.value.outputs else {}) + if s.flush.Building? then {s.flush.number} else {}
  }

  /** No version has the table yet, and the compaction does not make it. */
  ghost predicate New(s: State, f: nat) {
    (forall v :: v in s.versions ==> f !in s.versions[v].files) && (s.compaction.Some? ==> f !in s.compaction.value.outputs)
  }

  ghost predicate Inv(s: State) {
    TablesKept(s) && LogsKept(s) && Guarded(s)
  }

  lemma ReadersKeepInv(s: State, t: State, v: nat)
    requires Inv(s) && (ReaderBegins(s, t) || ReaderEnds(s, t, v))
    ensures Inv(t)
  {
  }

  lemma FlushKeepsInv(s: State, t: State, empty: bool)
    requires Inv(s) && (Switch(s, t) || FlushBegins(s, t) || FlushWrites(s, t) || FlushWritten(s, t, empty))
    ensures Inv(t)
  {
  }

  lemma FlushInstallKeepsInv(s: State, t: State, v: nat)
    requires Inv(s) && FlushInstalls(s, t, v)
    ensures Inv(t)
  {
  }

  lemma CompactionKeepsInv(s: State, t: State, deletions: set<nat>)
    requires Inv(s) && (CompactionBegins(s, t, deletions) || OutputOpens(s, t) || CompactionInstalling(s, t))
    ensures Inv(t)
  {
  }

  lemma CompactionInstallKeepsInv(s: State, t: State, v: nat)
    requires Inv(s) && CompactionInstalls(s, t, v)
    ensures Inv(t)
  {
  }

  lemma StepKeepsInv(s: State, t: State)
    requires Inv(s) && Step(s, t)
    ensures Inv(t)
  {
    if ReaderBegins(s, t) {
      ReadersKeepInv(s, t, 0);
    } else if v :| ReaderEnds(s, t, v) {
      ReadersKeepInv(s, t, v);
    } else if v :| FlushInstalls(s, t, v) {
      FlushInstallKeepsInv(s, t, v);
    } else if v :| CompactionInstalls(s, t, v) {
      CompactionInstallKeepsInv(s, t, v);
    } else if deletions :| CompactionBegins(s, t, deletions) {
      CompactionKeepsInv(s, t, deletions);
    } else if OutputOpens(s, t) || CompactionInstalling(s, t) {
      CompactionKeepsInv(s, t, {});
    } else if empty :| FlushWritten(s, t, empty) {
      FlushKeepsInv(s, t, empty);
    } else {
      FlushKeepsInv(s, t, false);
    }
  }

  ghost predicate Run(run: seq<State>) {
    |run| > 0 && run[0] == Init && forall i :: 0 <= i < |run| - 1 ==> StepAt(run, i)
  }

  ghost predicate StepAt(run: seq<State>, i: nat)
    requires i + 1 < |run|
  {
    Step(run[i], run[i + 1])
  }

  /**
   * In every reachable state the tables of every version that is still referred to, the outputs of the
   * running compaction and the table of the running flush are there, and so are the logs of mem and imm.
   */
  lemma {:induction false} NothingNeededIsDeleted(run: seq<State>, i: nat)
    requires Run(run) && i < |run|
    ensures TablesKept(run[i]) && LogsKept(run[i]) && Guarded(run[i])
    decreases i
  {
    if i > 0 {
      NothingNeededIsDeleted(run, i - 1);
      assert StepAt(run, i - 1);
      StepKeepsInv(run[i - 1], run[i]);
    }
  }

  /** A collection leaves no other tables and logs behind. */
  lemma NothingElseIsLeft(s: State, t: State, v: nat)
    requires FlushInstalls(s, t, v) || CompactionInstalls(s, t, v)
    ensures t.tables <= Live(t) && forall l :: l in t.logs ==> l >= t.logNumber
  {
  }

  /**
   * A collection at any other moment would be safe exactly if no flushed table is waiting to be installed:
   * its number has left the pending outputs, and no version has it yet. The one worker, which is busy with
   * the manifest at that time, is what makes this harmless.
   */
  lemma CollectionSafeExactly(s: State)
    requires Inv(s)
    ensures TablesKept(Collected(s)) <==> !(s.flush.Installing? && s.flush.table.Some?)
  {
    if s.flush.Installing? && s.flush.table.Some? {
      assert s.flush.table.value !in Live(s);
    }
  }

  /** Such a moment is reached by one switch and the flush that follows it. */
  lemma TableWaitsToBeInstalled() returns (run: seq<State>)
    ensures Run(run) && run[|run| - 1].flush == Installing(Some(3)) && !TablesKept(Collected(run[|run| - 1]))
  {
    var switched := Init.(immLog := Some(1), memLog := 2, logs := {1, 2}, next := 3);
    var building := switched.(pending := {3}, flush := Building(3, false), next := 4);
    var written := building.(tables := {3}, flush := Building(3, true));
    run := [Init, switched, building, written, written.(pending := {}, flush := Installing(Some(3)))];
    assert Switch(run[0], run[1]);
    assert FlushBegins(run[1], run[2]);
    assert FlushWrites(run[2], run[3]);
    assert FlushWritten(run[3], run[4], false);
    NothingNeededIsDeleted(run, 4);
    CollectionSafeExactly(run[4]);
  }
}
