/**
 * A database over many crashes: runs, each of which starts from what recovery made of the end of the one
 * before. db/db_impl.cc:280-369 and 1474-1515.
 */
module Lives {
  import opened Keys
  import opened Tables
  import opened Edits
  import opened Levels
  import opened LogReplay
  import opened ManifestReplay
  import opened Crash
  import opened Restart
  import opened Journal
  import opened Recovery
  import Manifest

  /** The next run starts with what recovery hands over, and with a new manifest that says so. */
  ghost predicate Reborn(s: Store, t: Store, comparator: Bytes, open: Opener) {
    exists a, b, o, files :: RebornAs(s, t, a, b, o, files, comparator, open)
  }

  ghost predicate RebornAs(s: Store, t: Store, a: nat, b: nat, o: Opened, files: seq<File>, comparator: Bytes, open: Opener) {
    && Survives(s.sys, a, b) && t.sys == Next(s.sys, a, b, o) && Starts(t.sys)
    && Follows(s.sys.db.version, o.version, VersionEdit({}, AtLevelZero(files)))
    && |t.edits| == 2 && Rewritten(s.sys.db.version, o, files, t.edits[0], t.edits[1], comparator, open)
    && t.versions == [Levelless, s.sys.db.version, o.version]
  }

  lemma RebornStarts(s: Store, t: Store, comparator: Bytes, before: Opener, open: Opener)
    requires StoreStarts(s, comparator, before) && Reborn(s, t, comparator, open)
    ensures StoreStarts(t, comparator, open)
  {
    var a, b, o, files :| RebornAs(s, t, a, b, o, files, comparator, open);
    assert InOrder(s.sys.db.version);
    RebornAsStarts(s, t, a, b, o, files, comparator, open);
  }

  lemma RebornAsStarts(s: Store, t: Store, a: nat, b: nat, o: Opened, files: seq<File>, comparator: Bytes, open: Opener)
    requires InOrder(s.sys.db.version) && RebornAs(s, t, a, b, o, files, comparator, open)
    ensures StoreStarts(t, comparator, open)
  {
    RewrittenStarts(s.sys, t.sys, o, files, t.edits[0], t.edits[1], comparator, open);
    assert t.edits == [t.edits[0], t.edits[1]];
  }

  /** What `Reopen` ensures is what a next run needs. */
  lemma ReopenedIsReborn(s: Store, a: nat, b: nat, o: Opened, files: seq<File>, e1: Manifest.Edit, e2: Manifest.Edit,
                         comparator: Bytes, open: Opener)
    requires Restores(o, s.sys, a, b) && Starts(Next(s.sys, a, b, o))
    requires Follows(s.sys.db.version, o.version, VersionEdit({}, AtLevelZero(files)))
    requires Rewritten(s.sys.db.version, o, files, e1, e2, comparator, open)
    ensures Reborn(s, Store(Next(s.sys, a, b, o), [e1, e2], [Levelless, s.sys.db.version, o.version]), comparator, open)
  {
    var t := Store(Next(s.sys, a, b, o), [e1, e2], [Levelless, s.sys.db.version, o.version]);
    assert RebornAs(s, t, a, b, o, files, comparator, open);
  }

  // ---------------------------------------------------------------------
  // Many lives
  // ---------------------------------------------------------------------

  /** One run after another; only the first starts by itself. */
  ghost predicate AreLives(lives: seq<seq<Store>>, opens: seq<Opener>, comparator: Bytes) {
    && |lives| == |opens| && lives != [] && (forall i :: 0 <= i < |lives| ==> IsLife(lives, opens, i))
    && forall i :: 0 <= i < |lives| ==> HasStart(lives, opens, comparator, i)
  }

  ghost predicate IsLife(lives: seq<seq<Store>>, opens: seq<Opener>, i: nat)
    requires i < |lives| && i < |opens|
  {
    lives[i] != [] && StoreSteps(lives[i], opens[i]) && NeverSpoilsStore(lives[i], |lives[i]| - 1)
  }

  ghost predicate HasStart(lives: seq<seq<Store>>, opens: seq<Opener>, comparator: Bytes, i: nat)
    requires i < |lives| && |lives| == |opens|
  {
    && lives[i] != []
    && if i == 0 then StoreStarts(lives[0][0], comparator, opens[0])
       else lives[i - 1] != [] && Reborn(Last(lives[i - 1]), lives[i][0], comparator, opens[i])
  }

  function Last(life: seq<Store>): Store
    requires life != []
  {
    life[|life| - 1]
  }

  lemma SpoilsLess(run: seq<Store>, n: nat)
    requires n < |run| && NeverSpoilsStore(run, |run| - 1)
    ensures NeverSpoilsStore(run, n)
  {
  }

  lemma {:induction false} LifeStarts(lives: seq<seq<Store>>, opens: seq<Opener>, comparator: Bytes, i: nat)
    requires AreLives(lives, opens, comparator) && i < |lives|
    ensures IsLife(lives, opens, i) && IsStoreRun(lives[i], comparator, opens[i])
  {
    assert IsLife(lives, opens, i) && HasStart(lives, opens, comparator, i);
    if i > 0 {
      LifeStarts(lives, opens, comparator, i - 1);
      NextLifeStarts(lives[i - 1], lives[i], comparator, opens[i - 1], opens[i]);
    }
  }

  lemma NextLifeStarts(life: seq<Store>, next: seq<Store>, comparator: Bytes, before: Opener, open: Opener)
    requires IsStoreRun(life, comparator, before) && NeverSpoilsStore(life, |life| - 1)
    requires next != [] && StoreSteps(next, open) && Reborn(Last(life), next[0], comparator, open)
    ensures IsStoreRun(next, comparator, open)
  {
    RunKeepsStore(life, |life| - 1, comparator, before);
    RebornStarts(Last(life), next[0], comparator, before, open);
  }

  /**
   * Over any number of crashes: as long as no installation brings a key back, at every moment of every run the
   * levels are valid, the manifest says what the engine holds, and the tables follow the history, so that the
   * next crash can be recovered from.
   */
  lemma AllLivesAreGood(lives: seq<seq<Store>>, opens: seq<Opener>, comparator: Bytes, i: nat, n: nat)
    requires AreLives(lives, opens, comparator) && i < |lives| && n < |lives[i]|
    ensures StoreStarts(lives[i][n], comparator, opens[i])
  {
    LifeStarts(lives, opens, comparator, i);
    SpoilsLess(lives[i], n);
    RunKeepsStore(lives[i], n, comparator, opens[i]);
  }

  // ---------------------------------------------------------------------
  // Synced writes
  // ---------------------------------------------------------------------

  /** The entry is of a group that was flushed, or synced in its log. */
  ghost predicate Durable(s: System, e: Entry) {
    exists i :: 0 <= i < |s.groups| && DurableAt(s, i, e)
  }

  ghost predicate DurableAt(s: System, i: nat, e: Entry)
    requires i < |s.groups|
  {
    && (i < s.syncedSealed || s.sealed <= i < s.synced)
    && e in EntriesOf(s.groups[i].sequence, s.groups[i].ops)
  }

  lemma DurableIsHistory(s: System, e: Entry)
    requires SystemInv(s) && Durable(s, e)
    ensures e in s.db.history
  {
    var i :| 0 <= i < |s.groups| && DurableAt(s, i, e);
    GroupBetween(s, 0, i, |s.groups|);
    All(s);
  }

  lemma StepKeepsDurable(s: System, t: System, e: Entry)
    requires Bounds(s) && SystemStep(s, t) && Durable(s, e)
    ensures Durable(t, e)
  {
    var i :| 0 <= i < |s.groups| && DurableAt(s, i, e);
    MarksGrow(s, t, i);
    assert DurableAt(t, i, e);
  }

  lemma MarksGrow(s: System, t: System, i: nat)
    requires Bounds(s) && SystemStep(s, t) && i < |s.groups| && (i < s.syncedSealed || s.sealed <= i < s.synced)
    ensures i < |t.groups| && t.groups[i] == s.groups[i] && (i < t.syncedSealed || t.sealed <= i < t.synced)
  {
  }

  /** All that survives a crash is durable in the next run. */
  lemma SurvivorsAreDurable(s: System, a: nat, b: nat, o: Opened, e: Entry)
    requires Survives(s, a, b) && Durable(s, e)
    ensures Durable(Next(s, a, b, o), e)
  {
    var i :| 0 <= i < |s.groups| && DurableAt(s, i, e);
    var t := Next(s, a, b, o);
    var j := if i < a then i else a + i - s.sealed;
    assert t.groups[j] == s.groups[i];
    assert DurableAt(t, j, e);
  }

  /** The engines of a run. */
  ghost predicate SystemPath(run: seq<Store>) {
    forall i :: 0 <= i < |run| - 1 ==> PathAt(run, i)
  }

  ghost predicate PathAt(run: seq<Store>, i: nat)
    requires i + 1 < |run|
  {
    Bounds(run[i].sys) && SystemStep(run[i].sys, run[i + 1].sys)
  }

  lemma LifeIsPath(run: seq<Store>, comparator: Bytes, open: Opener)
    requires IsStoreRun(run, comparator, open) && NeverSpoilsStore(run, |run| - 1)
    ensures SystemPath(run)
  {
    forall i | 0 <= i < |run| - 1 ensures PathAt(run, i) {
      SpoilsLess(run, i);
      RunKeepsStore(run, i, comparator, open);
      StoreRunStep(run, i, comparator, open);
      StoreStepIsStep(run[i], run[i + 1], open);
    }
  }

  lemma {:induction false} PathKeepsDurable(run: seq<Store>, n: nat, m: nat, e: Entry)
    requires SystemPath(run) && n <= m < |run| && Durable(run[n].sys, e)
    ensures Durable(run[m].sys, e)
    decreases m
  {
    if n < m {
      PathKeepsDurable(run, n, m - 1, e);
      assert PathAt(run, m - 1);
      StepKeepsDurable(run[m - 1].sys, run[m].sys, e);
    }
  }

  lemma LifeKeepsDurable(lives: seq<seq<Store>>, opens: seq<Opener>, comparator: Bytes, i: nat, n: nat, m: nat, e: Entry)
    requires AreLives(lives, opens, comparator) && i < |lives| && n <= m < |lives[i]| && Durable(lives[i][n].sys, e)
    ensures Durable(lives[i][m].sys, e)
  {
    LifeStarts(lives, opens, comparator, i);
    LifeIsPath(lives[i], comparator, opens[i]);
    PathKeepsDurable(lives[i], n, m, e);
  }

  lemma RebirthKeepsDurable(s: Store, t: Store, comparator: Bytes, open: Opener, e: Entry)
    requires Reborn(s, t, comparator, open) && Durable(s.sys, e)
    ensures Durable(t.sys, e)
  {
    var a, b, o, files :| RebornAs(s, t, a, b, o, files, comparator, open);
    SurvivorsAreDurable(s.sys, a, b, o, e);
  }

  lemma CrashKeepsDurable(lives: seq<seq<Store>>, opens: seq<Opener>, comparator: Bytes, i: nat, e: Entry)
    requires AreLives(lives, opens, comparator) && 0 < i < |lives| && lives[i - 1] != [] && lives[i] != []
    requires Durable(Last(lives[i - 1]).sys, e)
    ensures Durable(lives[i][0].sys, e)
  {
    assert HasStart(lives, opens, comparator, i);
    RebirthKeepsDurable(Last(lives[i - 1]), lives[i][0], comparator, opens[i], e);
  }

  lemma NowInHistory(lives: seq<seq<Store>>, opens: seq<Opener>, comparator: Bytes, i: nat, n: nat, e: Entry)
    requires AreLives(lives, opens, comparator) && i < |lives| && n < |lives[i]| && Durable(lives[i][n].sys, e)
    ensures e in lives[i][n].sys.db.history
  {
    AllLivesAreGood(lives, opens, comparator, i, n);
    DurableIsHistory(lives[i][n].sys, e);
  }

  lemma LivesAreNotEmpty(lives: seq<seq<Store>>, opens: seq<Opener>, comparator: Bytes, i: nat)
    requires AreLives(lives, opens, comparator) && i < |lives|
    ensures lives[i] != []
  {
    assert IsLife(lives, opens, i);
  }

  /** A write that is once durable, because it was synced or flushed, is in the history of every later moment of every later run. */
  lemma {:induction false} DurableForever(lives: seq<seq<Store>>, opens: seq<Opener>, comparator: Bytes,
                                          i: nat, n: nat, j: nat, m: nat, e: Entry)
    requires AreLives(lives, opens, comparator) && i <= j < |lives| && n < |lives[i]| && m < |lives[j]| && (i == j ==> n <= m)
    requires Durable(lives[i][n].sys, e)
    ensures Durable(lives[j][m].sys, e) && e in lives[j][m].sys.db.history
    decreases j
  {
    if i == j {
      LifeKeepsDurable(lives, opens, comparator, j, n, m, e);
    } else {
      LivesAreNotEmpty(lives, opens, comparator, j - 1);
      DurableForever(lives, opens, comparator, i, n, j - 1, |lives[j - 1]| - 1, e);
      CrashKeepsDurable(lives, opens, comparator, j, e);
      LifeKeepsDurable(lives, opens, comparator, j, 0, m, e);
    }
    NowInHistory(lives, opens, comparator, j, m, e);
  }
}
