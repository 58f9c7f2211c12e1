/**
 * What a crash leaves of the engine and what recovery can make of it: db/db_impl.cc:280-489, with the
 * writes, memtable switches and flushes that decide what is in which log (1185-1240, 1341-1366, 535-566).
 */
module Crash {
  import opened Keys
  import opened Sequences
  import opened Semantics
  import opened Tables
  import opened Versions
  import opened Filter
  import opened Compactions
  import opened Levels
  import opened Database
  import opened Installs
  import opened Runs
  import opened WriteBatch
  import opened LogReplay
  import Uncut

  // ---------------------------------------------------------------------
  // The engine and its logs
  // ---------------------------------------------------------------------

  /**
   * The engine with every group of writes it ever logged. Groups up to `flushed` are in tables; those up to
   * `sealed` in the log of the immutable memtable, of which the ones up to `syncedSealed` have been synced;
   * the others in the current log, of which the ones up to `synced` have been synced.
   */
  datatype System = System(db: State, groups: seq<Group>, flushed: nat, sealed: nat, syncedSealed: nat, synced: nat)

  const NewSystem: System := System(Init(), [], 0, 0, 0, 0)

  function Ranked(ops: seq<Operation>): (r: seq<(UserKey, Op)>)
    ensures |r| == |ops|
    ensures forall i {:trigger r[i]} :: 0 <= i < |r| ==> r[i] == (Rank(ops[i].key), if ops[i].PutKey? then Put(ops[i].value) else Delete)
  {
    seq(|ops|, i requires 0 <= i < |ops| => (Rank(ops[i].key), if ops[i].PutKey? then Put(ops[i].value) else Delete))
  }

  /** A group is logged, synced if the writer asks for it, and applied. */
  ghost predicate LogWrite(s: System, t: System, g: Group, sync: bool) {
    && FitsGroup(g) && g.sequence == s.db.lastSequence + 1 && WriteStep(s.db, t.db, Ranked(g.ops))
    && t == s.(db := t.db, groups := s.groups + [g], synced := if sync then |s.groups| + 1 else s.synced)
  }

  /** A new log; the old one is closed as it is, without a sync. */
  ghost predicate LogSwitch(s: System, t: System) {
    && SwitchStep(s.db, t.db)
    && t == s.(db := t.db, sealed := |s.groups|, syncedSealed := s.synced, synced := |s.groups|)
  }

  /** A flush; its edit names the current log as the oldest one needed. */
  ghost predicate LogFlush(s: System, t: System, level: nat, size: nat) {
    && FlushStep(s.db, t.db, level, size)
    && t == s.(db := t.db, flushed := s.sealed, syncedSealed := s.sealed)
  }

  /** Compactions, moves and snapshots do not touch the logs. */
  ghost predicate Quiet(s: System, t: System) {
    && t == s.(db := t.db)
    && ((exists c :: BeginStep(s.db, t.db, c))
        || (exists merged, outputs :: CheckedInstall(s.db, t.db, merged, outputs))
        || (exists level, f :: MoveStep(s.db, t.db, level, f))
        || SnapshotStep(s.db, t.db)
        || (exists i :: ReleaseStep(s.db, t.db, i)))
  }

  ghost predicate SystemStep(s: System, t: System) {
    || (exists g, sync :: LogWrite(s, t, g, sync))
    || LogSwitch(s, t)
    || (exists level, size :: LogFlush(s, t, level, size))
    || Quiet(s, t)
  }

  // ---------------------------------------------------------------------
  // Invariant
  // ---------------------------------------------------------------------

  function Between(s: System, i: nat, j: nat): seq<Entry>
    requires i <= j <= |s.groups|
  {
    GroupEntries(s.groups[i..j])
  }

  predicate Bounds(s: System) {
    s.flushed <= s.syncedSealed <= s.sealed <= s.synced <= |s.groups|
  }

  /** Tables, immutable memtable and memtable hold what the logs say. */
  ghost predicate Logged(s: System)
    requires Bounds(s)
  {
    && s.db.history == GroupEntries(s.groups)
    && VersionEntries(s.db.version) <= Elements(Between(s, 0, s.flushed))
    && ImmEntries(s.db) == Elements(Between(s, s.flushed, s.sealed))
    && Elements(s.db.mem) == Elements(Between(s, s.sealed, |s.groups|))
    && (s.db.imm.None? ==> s.flushed == s.sealed)
  }

  /** The numbers of every group have been handed out. */
  predicate HandedOut(s: System) {
    forall i :: 0 <= i < |s.groups| ==> s.groups[i].sequence + |s.groups[i].ops| <= s.db.lastSequence + 1
  }

  ghost predicate SystemInv(s: System) {
    LevelInv(s.db) && Bounds(s) && AllFit(s.groups) && HandedOut(s) && Logged(s)
  }

  /** The tables alone answer reads the way the history up to the last flushed group says. */
  ghost predicate TablesFollow(s: System)
    requires Bounds(s)
  {
    forall k :: View(VersionEntries(s.db.version), k, s.db.lastSequence) == Lookup(Replay(Between(s, 0, s.flushed)), k)
  }

  // ---------------------------------------------------------------------
  // Sequences of groups
  // ---------------------------------------------------------------------

  lemma {:induction false} GroupsConcat(a: seq<Group>, b: seq<Group>)
    ensures GroupEntries(a + b) == GroupEntries(a) + GroupEntries(b)
    decreases |b|
  {
    if b == [] {
      assert a + b == a;
    } else {
      var init, g := b[..|b| - 1], b[|b| - 1];
      GroupsConcat(a, init);
      assert (a + b)[..|a + b| - 1] == a + init;
      Associates(GroupEntries(a), GroupEntries(init), EntriesOf(g.sequence, g.ops));
    }
  }

  lemma Splits(s: System, i: nat, j: nat, l: nat)
    requires i <= j <= l <= |s.groups|
    ensures Between(s, i, l) == Between(s, i, j) + Between(s, j, l)
  {
    assert s.groups[i..l] == s.groups[i..j] + s.groups[j..l];
    GroupsConcat(s.groups[i..j], s.groups[j..l]);
  }

  lemma All(s: System)
    ensures Between(s, 0, |s.groups|) == GroupEntries(s.groups)
  {
    assert s.groups[0..|s.groups|] == s.groups;
  }

  lemma RankedIsNumbered(last: nat, ops: seq<Operation>)
    ensures EntriesOf(last + 1, ops) == Numbering(last, Ranked(ops))
  {
  }

  /** A part of the history has increasing numbers, all larger than those of an earlier part. */
  lemma PartsAscend(h: seq<Entry>, a: seq<Entry>, b: seq<Entry>, c: seq<Entry>)
    requires Ascending(h) && h == a + b + c
    ensures Ascending(b) && forall x, y :: x in Elements(a) && y in b ==> x.seqno < y.seqno
    ensures forall y :: y in b ==> y in h
  {
    forall i, j | 0 <= i < j < |b| ensures b[i].seqno < b[j].seqno {
      assert h[|a| + i] == b[i] && h[|a| + j] == b[j];
    }
    forall x, y | x in Elements(a) && y in b ensures x.seqno < y.seqno {
      var i :| 0 <= i < |a| && a[i] == x;
      var j :| 0 <= j < |b| && b[j] == y;
      assert h[i] == x && h[|a| + j] == y;
    }
    assert forall j :: 0 <= j < |b| ==> h[|a| + j] == b[j];
  }

  // ---------------------------------------------------------------------
  // Reads of sets of entries
  // ---------------------------------------------------------------------

  /** All numbers of the entries are larger than those of the set, and increase. */
  ghost predicate Above(S: set<Entry>, w: seq<Entry>) {
    Ascending(w) && forall x, y :: x in S && y in w ==> x.seqno < y.seqno
  }

  lemma LastIsAbove(S: set<Entry>, w: seq<Entry>)
    requires Above(S, w) && w != []
    ensures var init, e := w[..|w| - 1], w[|w| - 1];
      && Above(S, init) && (forall x :: x in S + Elements(init) ==> x.seqno < e.seqno)
      && S + Elements(w) == S + Elements(init) + {e}
  {
    var init, e := w[..|w| - 1], w[|w| - 1];
    assert w == init + [e] && e in w;
    forall x | x in S + Elements(init) ensures x.seqno < e.seqno {
      if x in init {
        var i :| 0 <= i < |init| && init[i] == x;
        assert w[i] == x;
      }
    }
    forall x ensures x in Elements(w) <==> x in Elements(init) || x == e {
    }
  }

  lemma {:induction false} AppendedView(S: set<Entry>, h: seq<Entry>, w: seq<Entry>, k: UserKey, q: nat)
    requires UniqueSeqnos(S) && Above(S, w) && forall y :: y in w ==> y.seqno <= q
    requires View(S, k, q) == Lookup(Replay(h), k)
    ensures View(S + Elements(w), k, q) == Lookup(Replay(h + w), k) && UniqueSeqnos(S + Elements(w))
    decreases |w|
  {
    if w == [] {
      assert h + w == h && S + Elements(w) == S;
    } else {
      var init, e := w[..|w| - 1], w[|w| - 1];
      LastIsAbove(S, w);
      assert e in w && h + w == h + init + [e];
      AppendedView(S, h, init, k, q);
      AppendLast(S + Elements(init), h + init, e, k, q, S + Elements(w), h + w);
    }
  }

  // ---------------------------------------------------------------------
  // Every step keeps the logs right
  // ---------------------------------------------------------------------

  lemma WriteKeepsLogs(s: System, t: System, g: Group, sync: bool)
    requires SystemInv(s) && LogWrite(s, t, g, sync)
    ensures Bounds(t) && AllFit(t.groups) && HandedOut(t) && Logged(t)
  {
    RankedIsNumbered(s.db.lastSequence, g.ops);
    PrefixKept(s, t, 0, s.flushed);
    PrefixKept(s, t, s.flushed, s.sealed);
    LastGroup(s.groups, g);
    TailGrows(s, t, g);
  }

  lemma TailGrows(s: System, t: System, g: Group)
    requires s.sealed <= |s.groups| && t.groups == s.groups + [g]
    ensures Elements(Between(t, s.sealed, |t.groups|)) ==
            Elements(Between(s, s.sealed, |s.groups|)) + Elements(EntriesOf(g.sequence, g.ops))
  {
    assert t.groups[s.sealed..|t.groups|] == s.groups[s.sealed..|s.groups|] + [g];
    LastGroup(s.groups[s.sealed..|s.groups|], g);
  }

  lemma PrefixKept(s: System, t: System, i: nat, j: nat)
    requires i <= j <= |s.groups| && s.groups <= t.groups
    ensures Between(t, i, j) == Between(s, i, j)
  {
    assert t.groups[i..j] == s.groups[i..j];
  }

  lemma LastGroup(groups: seq<Group>, g: Group)
    ensures GroupEntries(groups + [g]) == GroupEntries(groups) + EntriesOf(g.sequence, g.ops)
    ensures Elements(GroupEntries(groups + [g])) == Elements(GroupEntries(groups)) + Elements(EntriesOf(g.sequence, g.ops))
  {
    assert (groups + [g])[..|groups|] == groups;
  }

  lemma SwitchKeepsLogs(s: System, t: System)
    requires SystemInv(s) && LogSwitch(s, t)
    ensures Bounds(t) && Logged(t)
  {
    assert s.groups[|s.groups|..|s.groups|] == [];
  }

  lemma FlushKeepsLogs(s: System, t: System, level: nat, size: nat)
    requires SystemInv(s) && LogFlush(s, t, level, size)
    ensures Bounds(t) && Logged(t)
    ensures VersionEntries(t.db.version) == VersionEntries(s.db.version) + Elements(Between(s, s.flushed, s.sealed))
  {
    FlushShape(s.db, t.db, level, size);
    Splits(s, 0, s.flushed, s.sealed);
    assert s.groups[s.sealed..s.sealed] == [];
  }

  lemma QuietKeepsLogs(s: System, t: System)
    requires SystemInv(s) && Quiet(s, t)
    ensures Bounds(t) && Logged(t)
    ensures t.db.lastSequence == s.db.lastSequence && VersionEntries(t.db.version) <= VersionEntries(s.db.version)
  {
    QuietShrinks(s.db, t.db);
  }

  lemma QuietShrinks(s: State, t: State)
    requires LevelInv(s)
    requires (exists c :: BeginStep(s, t, c)) || (exists merged, outputs :: CheckedInstall(s, t, merged, outputs)) ||
             (exists level, f :: MoveStep(s, t, level, f)) || SnapshotStep(s, t) || (exists i :: ReleaseStep(s, t, i))
    ensures VersionEntries(t.version) <= VersionEntries(s.version)
    ensures t.mem == s.mem && t.imm == s.imm && t.history == s.history && t.lastSequence == s.lastSequence
  {
    if merged, outputs :| CheckedInstall(s, t, merged, outputs) {
      HistoryUnique(s);
      InstallShrinks(s, t, merged, outputs);
    } else if level, f :| MoveStep(s, t, level, f) {
      MoveShape(s, t, level, f);
    }
  }

  lemma SystemStepIsStep(s: System, t: System)
    requires SystemStep(s, t)
    ensures Step(s.db, t.db)
  {
    if g, sync :| LogWrite(s, t, g, sync) {
      assert WriteStep(s.db, t.db, Ranked(g.ops));
    } else if level, size :| LogFlush(s, t, level, size) {
      assert FlushStep(s.db, t.db, level, size);
    }
  }

  lemma SystemStepKeepsInv(s: System, t: System)
    requires SystemInv(s) && SystemStep(s, t)
    ensures SystemInv(t)
  {
    SystemStepIsStep(s, t);
    StepKeepsLevels(s.db, t.db);
    if g, sync :| LogWrite(s, t, g, sync) {
      WriteKeepsLogs(s, t, g, sync);
    } else if LogSwitch(s, t) {
      SwitchKeepsLogs(s, t);
    } else if level, size :| LogFlush(s, t, level, size) {
      FlushKeepsLogs(s, t, level, size);
    } else {
      QuietKeepsLogs(s, t);
    }
  }

  // ---------------------------------------------------------------------
  // The tables alone
  // ---------------------------------------------------------------------

  /** Installing the running compaction would bring `k` back for a read of the tables alone. */
  ghost predicate SpoilsTables(s: State, k: UserKey) {
    s.running.Some? &&
    var c := s.running.value;
    Resurrects(KeptEntries(s.version, c.level, c.inputs0, c.inputs1), FileEntries(c.inputs0 + c.inputs1),
               c.smallestSnapshot, BaseLevels(c.inputVersion, c.level), k, s.lastSequence)
  }

  lemma TableEntries(s: State, t: State, merged: seq<Entry>, outputs: seq<File>)
    requires InstallStep(s, t, merged, outputs)
    requires var c := s.running.value; Chosen(s.version, c.level, c.inputs0, c.inputs1)
    ensures var c := s.running.value; var rest := KeptEntries(s.version, c.level, c.inputs0, c.inputs1);
      && VersionEntries(s.version) == rest + Elements(merged)
      && VersionEntries(t.version) == rest + Elements(Output(merged, c.smallestSnapshot, BaseLevels(c.inputVersion, c.level)))
  {
    var c := s.running.value;
    EntriesBefore(s.version, c.level, c.inputs0, c.inputs1);
    EntriesAfter(s.version, t.version, c.level, c.inputs0, c.inputs1, outputs);
    ConcatEntries(outputs);
  }

  /** An installation keeps the last read of the tables if and only if it brings the key back for none. */
  lemma InstallTablesExactly(s: State, t: State, merged: seq<Entry>, outputs: seq<File>, k: UserKey)
    requires LevelInv(s) && InstallStep(s, t, merged, outputs)
    ensures View(VersionEntries(t.version), k, s.lastSequence) == View(VersionEntries(s.version), k, s.lastSequence)
      <==> !SpoilsTables(s, k)
  {
    HistoryUnique(s);
    SnapshotsBelow(s);
    TableEntries(s, t, merged, outputs);
    var c := s.running.value;
    var rest := KeptEntries(s.version, c.level, c.inputs0, c.inputs1);
    if SpoilsTables(s, k) {
      ResurrectedReadChanges(rest, merged, c.smallestSnapshot, BaseLevels(c.inputVersion, c.level), k, s.lastSequence);
    } else {
      ReadKept(rest, merged, c.smallestSnapshot, BaseLevels(c.inputVersion, c.level), k, s.lastSequence, s.lastSequence);
    }
  }

  lemma TablesOld(s: System)
    requires SystemInv(s)
    ensures UniqueSeqnos(VersionEntries(s.db.version)) && forall x :: x in VersionEntries(s.db.version) ==> x.seqno <= s.db.lastSequence
  {
    HistoryUnique(s.db);
    assert VersionEntries(s.db.version) <= Everything(s.db);
  }

  lemma WriteKeepsTables(s: System, t: System, g: Group, sync: bool)
    requires SystemInv(s) && TablesFollow(s) && LogWrite(s, t, g, sync)
    ensures Bounds(t) && TablesFollow(t)
  {
    TablesOld(s);
    PrefixKept(s, t, 0, s.flushed);
    forall k ensures View(VersionEntries(t.db.version), k, t.db.lastSequence) == Lookup(Replay(Between(t, 0, t.flushed)), k) {
      ViewAbove(VersionEntries(s.db.version), k, s.db.lastSequence, t.db.lastSequence);
    }
  }

  /** The entries between two places of the logs are newer than what lies before. */
  lemma PartIsAbove(s: System, S: set<Entry>, i: nat, j: nat)
    requires SystemInv(s) && i <= j <= |s.groups| && S <= Elements(Between(s, 0, i))
    ensures Above(S, Between(s, i, j)) && forall y :: y in Between(s, i, j) ==> y.seqno <= s.db.lastSequence
  {
    Splits(s, 0, i, j);
    Splits(s, 0, j, |s.groups|);
    All(s);
    PartsAscend(s.db.history, Between(s, 0, i), Between(s, i, j), Between(s, j, |s.groups|));
  }

  lemma FlushKeepsTables(s: System, t: System, level: nat, size: nat)
    requires SystemInv(s) && TablesFollow(s) && LogFlush(s, t, level, size)
    ensures Bounds(t) && TablesFollow(t)
  {
    FlushKeepsLogs(s, t, level, size);
    TablesOld(s);
    var S, w := VersionEntries(s.db.version), Between(s, s.flushed, s.sealed);
    PartIsAbove(s, S, s.flushed, s.sealed);
    Splits(s, 0, s.flushed, s.sealed);
    forall k ensures View(VersionEntries(t.db.version), k, t.db.lastSequence) == Lookup(Replay(Between(t, 0, t.flushed)), k) {
      AppendedView(S, Between(s, 0, s.flushed), w, k, s.db.lastSequence);
    }
  }

  lemma QuietKeepsTables(s: System, t: System)
    requires SystemInv(s) && TablesFollow(s) && Quiet(s, t)
    requires CompactionEnds(s.db, t.db) ==> forall k :: !SpoilsTables(s.db, k)
    ensures Bounds(t) && TablesFollow(t)
  {
    QuietKeepsLogs(s, t);
    if merged, outputs :| CheckedInstall(s.db, t.db, merged, outputs) {
      forall k ensures View(VersionEntries(t.db.version), k, t.db.lastSequence) == Lookup(Replay(Between(t, 0, t.flushed)), k) {
        InstallTablesExactly(s.db, t.db, merged, outputs, k);
      }
    } else if level, f :| MoveStep(s.db, t.db, level, f) {
      MoveShape(s.db, t.db, level, f);
    }
  }

  lemma StepKeepsTables(s: System, t: System)
    requires SystemInv(s) && TablesFollow(s) && SystemStep(s, t)
    requires CompactionEnds(s.db, t.db) ==> forall k :: !SpoilsTables(s.db, k)
    ensures Bounds(t) && TablesFollow(t)
  {
    if g, sync :| LogWrite(s, t, g, sync) {
      WriteKeepsTables(s, t, g, sync);
    } else if level, size :| LogFlush(s, t, level, size) {
      FlushKeepsTables(s, t, level, size);
    } else if LogSwitch(s, t) {
    } else {
      QuietKeepsTables(s, t);
    }
  }

  // ---------------------------------------------------------------------
  // Runs
  // ---------------------------------------------------------------------

  /** How an engine may start: new, or from what recovery has left after a crash. */
  ghost predicate Starts(s: System) {
    SystemInv(s) && TablesFollow(s)
  }

  ghost predicate IsSystemRun(run: seq<System>) {
    && run != [] && Starts(run[0])
    && forall i :: 0 <= i < |run| - 1 ==> SystemStepAt(run, i)
  }

  lemma SystemRunStep(run: seq<System>, i: nat)
    requires IsSystemRun(run) && i + 1 < |run|
    ensures SystemStep(run[i], run[i + 1])
  {
    assert SystemStepAt(run, i);
  }

  ghost predicate SystemStepAt(run: seq<System>, i: nat)
    requires i + 1 < |run|
  {
    SystemStep(run[i], run[i + 1])
  }

  /** Step `i` installs a compaction that brings a deleted key back in the tables. */
  ghost predicate TablesSpoiltAt(run: seq<System>, i: nat)
    requires i + 1 < |run|
  {
    CompactionEnds(run[i].db, run[i + 1].db) && exists k :: SpoilsTables(run[i].db, k)
  }

  ghost predicate NeverSpoilsTables(run: seq<System>, n: nat)
    requires n < |run|
  {
    forall i :: 0 <= i < n ==> !TablesSpoiltAt(run, i)
  }

  lemma StartIsGood()
    ensures Starts(NewSystem)
  {
    InitInv();
    EmptyVersionIsValid(Init().version);
    assert NewSystem.groups[0..0] == [] && GroupEntries([]) == [];
    forall k ensures View(VersionEntries(Init().version), k, 0) == Lookup(Replay([]), k) {
      NoneVisibleIsNotFound({}, k, 0);
    }
  }

  lemma {:induction false} SystemRunKeepsInv(run: seq<System>, n: nat)
    requires IsSystemRun(run) && n < |run|
    ensures SystemInv(run[n])
  {
    if n > 0 {
      SystemRunKeepsInv(run, n - 1);
      SystemRunStep(run, n - 1);
      SystemStepKeepsInv(run[n - 1], run[n]);
    }
  }

  lemma {:induction false} RunKeepsTables(run: seq<System>, n: nat)
    requires IsSystemRun(run) && n < |run| && NeverSpoilsTables(run, n)
    ensures Starts(run[n])
  {
    if n > 0 {
      RunKeepsTables(run, n - 1);
      SystemRunStep(run, n - 1);
      NoTablesSpoilt(run, n - 1, n);
      StepKeepsStart(run[n - 1], run[n]);
    }
  }

  ghost predicate SpoilsNoTables(s: State, t: State) {
    CompactionEnds(s, t) ==> forall k :: !SpoilsTables(s, k)
  }

  lemma NoTablesSpoilt(run: seq<System>, i: nat, n: nat)
    requires i < n < |run| && NeverSpoilsTables(run, n)
    ensures SpoilsNoTables(run[i].db, run[i + 1].db)
  {
    assert !TablesSpoiltAt(run, i);
  }

  lemma StepKeepsStart(s: System, t: System)
    requires Starts(s) && SystemStep(s, t) && SpoilsNoTables(s.db, t.db)
    ensures Starts(t)
  {
    SystemStepKeepsInv(s, t);
    StepKeepsTables(s, t);
  }

  // ---------------------------------------------------------------------
  // A crash
  // ---------------------------------------------------------------------

  /**
   * What a crash may leave: the groups up to `a` of the log of the immutable memtable, and those up to `b`
   * of the current log. Tables and manifest were synced; a log keeps at least what was synced in it.
   */
  predicate Survives(s: System, a: nat, b: nat) {
    s.flushed <= s.syncedSealed <= a <= s.sealed <= s.synced <= b <= |s.groups|
  }

  /** The entries that recovery finds. */
  ghost function Salvaged(s: System, a: nat, b: nat): set<Entry>
    requires Survives(s, a, b)
  {
    VersionEntries(s.db.version) + Elements(Between(s, s.flushed, a) + Between(s, s.sealed, b))
  }

  /** The history that is left: without the lost ends of the two logs. */
  function Surviving(s: System, a: nat, b: nat): seq<Entry>
    requires Survives(s, a, b)
  {
    Between(s, 0, a) + Between(s, s.sealed, b)
  }

  lemma {:induction false} AscendingParts(h: seq<Entry>, a: seq<Entry>, x: seq<Entry>, lost: seq<Entry>, y: seq<Entry>, rest: seq<Entry>, S: set<Entry>)
    requires Ascending(h) && h == a + x + lost + y + rest && S <= Elements(a)
    ensures Above(S, x + y)
  {
    var w := x + y;
    forall i, j | 0 <= i < j < |w| ensures w[i].seqno < w[j].seqno {
      PlaceIn(h, a, x, lost, y, rest, i);
      PlaceIn(h, a, x, lost, y, rest, j);
    }
    forall e, z | e in S && z in w ensures e.seqno < z.seqno {
      var i :| 0 <= i < |a| && a[i] == e;
      var j :| 0 <= j < |w| && w[j] == z;
      PlaceIn(h, a, x, lost, y, rest, j);
      assert h[i] == e;
    }
  }

  lemma PlaceIn(h: seq<Entry>, a: seq<Entry>, x: seq<Entry>, lost: seq<Entry>, y: seq<Entry>, rest: seq<Entry>, i: nat)
    requires h == a + x + lost + y + rest && i < |x + y|
    ensures var p := |a| + i + if i < |x| then 0 else |lost|; p < |h| && h[p] == (x + y)[i]
  {
  }

  lemma SurvivorsAbove(s: System, a: nat, b: nat)
    requires SystemInv(s) && Survives(s, a, b)
    ensures Above(VersionEntries(s.db.version), Between(s, s.flushed, a) + Between(s, s.sealed, b))
    ensures Between(s, 0, s.flushed) + (Between(s, s.flushed, a) + Between(s, s.sealed, b)) == Surviving(s, a, b)
  {
    var n := |s.groups|;
    Splits(s, 0, s.flushed, a);
    Splits(s, 0, a, s.sealed);
    Splits(s, 0, s.sealed, b);
    Splits(s, 0, b, n);
    All(s);
    AscendingParts(s.db.history, Between(s, 0, s.flushed), Between(s, s.flushed, a), Between(s, a, s.sealed),
                   Between(s, s.sealed, b), Between(s, b, n), VersionEntries(s.db.version));
    Associates(Between(s, 0, s.flushed), Between(s, s.flushed, a), Between(s, s.sealed, b));
  }

  /** After any crash, reads of what recovery finds follow the history that is left. */
  lemma RecoveredReads(s: System, a: nat, b: nat, k: UserKey, q: nat)
    requires SystemInv(s) && TablesFollow(s) && Survives(s, a, b)
    requires forall x :: x in Salvaged(s, a, b) ==> x.seqno <= q
    ensures View(Salvaged(s, a, b), k, q) == Lookup(Replay(Surviving(s, a, b)), k)
  {
    var S, w := VersionEntries(s.db.version), Between(s, s.flushed, a) + Between(s, s.sealed, b);
    TablesOld(s);
    SurvivorsAbove(s, a, b);
    if q <= s.db.lastSequence { ViewAbove(S, k, q, s.db.lastSequence); } else { ViewAbove(S, k, s.db.lastSequence, q); }
    AppendedView(S, Between(s, 0, s.flushed), w, k, q);
  }

  /** Every group that was flushed or synced is part of the history that is left. */
  lemma SyncedSurvives(s: System, a: nat, b: nat, i: nat)
    requires SystemInv(s) && Survives(s, a, b)
    requires i < s.syncedSealed || s.sealed <= i < s.synced
    ensures forall e :: e in EntriesOf(s.groups[i].sequence, s.groups[i].ops) ==> e in Surviving(s, a, b)
  {
    if i < s.syncedSealed {
      GroupBetween(s, 0, i, a);
    } else {
      GroupBetween(s, s.sealed, i, b);
    }
  }

  lemma GroupBetween(s: System, from: nat, i: nat, to: nat)
    requires from <= i < to <= |s.groups|
    ensures forall e :: e in EntriesOf(s.groups[i].sequence, s.groups[i].ops) ==> e in Between(s, from, to)
  {
    Splits(s, from, i, to);
    Splits(s, i, i + 1, to);
    assert s.groups[i..i + 1] == [] + [s.groups[i]];
    LastGroup([], s.groups[i]);
  }

  /**
   * Exactly when the history that is left is a prefix of the whole: nothing was lost from the log of the
   * immutable memtable, or nothing is left of the current log.
   */
  lemma PrefixExactly(s: System, a: nat, b: nat)
    requires SystemInv(s) && Survives(s, a, b)
    ensures Surviving(s, a, b) <= s.db.history <==> Between(s, a, s.sealed) == [] || Between(s, s.sealed, b) == []
  {
    var n := |s.groups|;
    Splits(s, 0, a, s.sealed);
    Splits(s, 0, s.sealed, b);
    Splits(s, 0, b, n);
    All(s);
    PrefixIff(s.db.history, Between(s, 0, a), Between(s, a, s.sealed), Between(s, s.sealed, b), Between(s, b, n));
  }

  lemma PrefixIff(h: seq<Entry>, x: seq<Entry>, lost: seq<Entry>, y: seq<Entry>, rest: seq<Entry>)
    requires Ascending(h) && h == x + lost + y + rest
    ensures x + y <= h <==> lost == [] || y == []
  {
    if lost == [] {
      assert x + lost == x && x + y + rest == h;
    } else if y == [] {
      assert x + y == x;
    } else {
      assert (x + y)[|x|] == y[0] && h[|x|] == lost[0] && h[|x| + |lost|] == y[0];
    }
  }

  /**
   * After a crash at any moment of a run whose installations bring no key back in the tables, reads of what
   * recovery finds, at any sequence number that covers it, follow the history that is left.
   */
  lemma RecoveryFollowsHistory(run: seq<System>, n: nat, a: nat, b: nat, k: UserKey, q: nat)
    requires IsSystemRun(run) && n < |run| && NeverSpoilsTables(run, n) && Survives(run[n], a, b)
    requires forall x :: x in Salvaged(run[n], a, b) ==> x.seqno <= q
    ensures View(Salvaged(run[n], a, b), k, q) == Lookup(Replay(Surviving(run[n], a, b)), k)
  {
    RunKeepsTables(run, n);
    RecoveredReads(run[n], a, b, k, q);
  }

  // ---------------------------------------------------------------------
  // When that is so
  // ---------------------------------------------------------------------

  ghost predicate TablesOk(s: System) {
    Bounds(s) && TablesFollow(s)
  }

  /** An installation that brings a key back gives a wrong read of the tables right after it. */
  lemma SpoiltTables(s: System, t: System)
    requires SystemInv(s) && TablesFollow(s) && SystemStep(s, t) && CompactionEnds(s.db, t.db)
    requires exists k :: SpoilsTables(s.db, k)
    ensures !TablesOk(t)
  {
    EndIsQuiet(s, t);
    var merged, outputs :| CheckedInstall(s.db, t.db, merged, outputs);
    var k :| SpoilsTables(s.db, k);
    InstallTablesExactly(s.db, t.db, merged, outputs, k);
  }

  lemma EndIsQuiet(s: System, t: System)
    requires SystemStep(s, t) && CompactionEnds(s.db, t.db)
    ensures t == s.(db := t.db) && t.db.lastSequence == s.db.lastSequence
    ensures exists merged, outputs :: CheckedInstall(s.db, t.db, merged, outputs)
  {
  }

  lemma {:induction false} FirstSpoiltTables(run: seq<System>, n: nat) returns (i: nat)
    requires n < |run| && !NeverSpoilsTables(run, n)
    ensures i < n && TablesSpoiltAt(run, i) && NeverSpoilsTables(run, i)
  {
    var j: nat :| j < n && TablesSpoiltAt(run, j);
    if NeverSpoilsTables(run, j) {
      i := j;
    } else {
      i := FirstSpoiltTables(run, j);
    }
  }

  /** At all moments of a run the tables follow the flushed history if and only if no installation brings a key back. */
  lemma TablesFollowExactly(run: seq<System>)
    requires IsSystemRun(run)
    ensures (forall n :: 0 <= n < |run| ==> TablesOk(run[n])) <==> NeverSpoilsTables(run, |run| - 1)
  {
    if NeverSpoilsTables(run, |run| - 1) {
      forall n | 0 <= n < |run| ensures TablesOk(run[n]) {
        RunKeepsTables(run, n);
      }
    } else {
      var i := FirstSpoiltTables(run, |run| - 1);
      RunKeepsTables(run, i);
      assert SystemStepAt(run, i);
      SpoiltTables(run[i], run[i + 1]);
    }
  }

  /** The guard at level+1 keeps the tables right too. */
  lemma UncutSpoilsNoTables(s: State, k: UserKey)
    requires LevelInv(s) && Uncut.RunningUncut(s)
    ensures !SpoilsTables(s, k)
  {
    if SpoilsTables(s, k) {
      var c := s.running.value;
      var rest, input := KeptEntries(s.version, c.level, c.inputs0, c.inputs1), FileEntries(c.inputs0 + c.inputs1);
      var m, left :| IsResurrected(rest, input, c.smallestSnapshot, BaseLevels(c.inputVersion, c.level), k, s.lastSequence, m, left);
      assert left in rest + input && left in Rest(s, c);
      Uncut.LeftIsNewer(s, c, m, left);
    }
  }

  // ---------------------------------------------------------------------
  // A synced write without the one before it
  // ---------------------------------------------------------------------

  const First := Group(1, [PutKey([1], [7])])
  const Second := Group(2, [PutKey([2], [7])])
  const E1 := Entry(Rank([1]), 1, Put([7]))
  const E2 := Entry(Rank([2]), 2, Put([7]))

  function T1(): System { System(Init().(mem := [E1], lastSequence := 1, history := [E1]), [First], 0, 0, 0, 0) }
  function T2(): System { System(T1().db.(mem := [], imm := Some([E1])), [First], 0, 1, 0, 1) }
  function T3(): System { System(T2().db.(mem := [E2], lastSequence := 2, history := [E1, E2]), [First, Second], 0, 1, 0, 2) }

  lemma LossRun()
    ensures IsSystemRun([NewSystem, T1(), T2(), T3()])
  {
    FirstStep();
    assert LogSwitch(T1(), T2());
    SecondStep();
    StartIsGood();
    ThreeSteps([NewSystem, T1(), T2(), T3()]);
  }

  lemma FirstStep()
    ensures LogWrite(NewSystem, T1(), First, false)
  {
    assert Numbering(0, Ranked(First.ops)) == [E1] && [] + [E1] == [E1];
  }

  lemma SecondStep()
    ensures LogWrite(T2(), T3(), Second, true)
  {
    assert Numbering(1, Ranked(Second.ops)) == [E2] && [E1] + [E2] == [E1, E2];
  }

  lemma ThreeSteps(run: seq<System>)
    requires |run| == 4 && Starts(run[0])
    requires LogWrite(run[0], run[1], First, false) && LogSwitch(run[1], run[2]) && LogWrite(run[2], run[3], Second, true)
    ensures IsSystemRun(run)
  {
    assert SystemStepAt(run, 0) && SystemStepAt(run, 1) && SystemStepAt(run, 2);
  }

  lemma LossLeaves()
    ensures Survives(T3(), 0, 2) && Salvaged(T3(), 0, 2) == {E2}
  {
    var s := T3();
    assert s.groups[0..0] == [] && s.groups[1..2] == [] + [Second] && Between(s, 0, 0) == [];
    LastGroup([], Second);
    assert EntriesOf(2, Second.ops) == [E2];
    EmptyVersionIsValid(s.db.version);
    assert [] + [E2] == [E2] && Elements([E2]) == {E2};
  }

  /**
   * A write is logged without a sync, the memtable is switched, and the next write is synced. A crash may
   * lose the first and keep the second; recovery then reads like no prefix of the history.
   */
  lemma LaterWriteSurvivesAlone(n: nat)
    requires n <= |T3().db.history|
    ensures IsSystemRun([NewSystem, T1(), T2(), T3()]) && Survives(T3(), 0, 2)
    ensures exists k :: View(Salvaged(T3(), 0, 2), k, 2) != Lookup(Replay(T3().db.history[..n]), k)
  {
    LossRun();
    LossLeaves();
    LossReads(n);
  }

  lemma LossReads(n: nat)
    requires n <= |T3().db.history|
    ensures exists k :: View({E2}, k, 2) != Lookup(Replay(T3().db.history[..n]), k)
  {
    var a, b := Rank([1]), Rank([2]);
    RankPreservesOrder([1], [2]);
    NewestIsFound({E2}, b, 2, E2);
    NoneVisibleIsNotFound({E2}, a, 2);
    var h := T3().db.history;
    assert h[..0] == [] && h[..1] == [E1] && h[..2] == [E1, E2] && [E1, E2][..1] == [E1] && [E1][..0] == [];
    if n < 2 {
      assert View({E2}, b, 2) != Lookup(Replay(h[..n]), b);
    } else {
      assert View({E2}, a, 2) != Lookup(Replay(h[..n]), a);
    }
  }
}
