/** Group commit over every interleaving of writers and log failures. */
module GroupRuns {
  import opened Keys
  import opened Sequences
  import Database
  import opened GroupCommit

  // ---------------------------------------------------------------------
  // Every step keeps the invariant
  // ---------------------------------------------------------------------

  lemma InLogGrows(log: seq<seq<Entry>>, more: seq<seq<Entry>>, n: nat, m: nat, es: seq<Entry>)
    requires InLog(log, n, es) && n <= m && log <= more
    ensures InLog(more, m, es)
  {
    forall e | e in es ensures exists j :: 0 <= j < m && j < |more| && e in more[j] {
      var j :| 0 <= j < n && j < |log| && e in log[j];
      assert more[j] == log[j];
    }
  }

  lemma LogOkStays(s: Queue, t: Queue)
    requires LogOk(s) && s.log <= t.log && s.synced <= t.synced <= |t.log| && t.store == s.store && t.returned == s.returned
    ensures LogOk(t)
  {
    InLogGrows(s.log, t.log, |s.log|, |t.log|, s.store);
    forall i | 0 <= i < |t.returned| && t.returned[i].writer.sync ensures InLog(t.log, t.synced, Effect(t.returned[i])) {
      InLogGrows(s.log, t.log, s.synced, t.synced, Effect(s.returned[i]));
    }
  }

  lemma JoinKeepsInv(s: Queue, t: Queue, w: Writer)
    requires Inv(s) && Join(s, t, w)
    ensures Inv(t)
  {
    assert t.arrivals == Starters(t.returned) + t.queue;
    assert s.phase.Leading? ==> t.queue[..s.phase.group] == s.queue[..s.phase.group];
  }

  /** The front writer returns alone, without having written anything. */
  lemma AloneKeepsInv(s: Queue, t: Queue, status: Status)
    requires Inv(s) && s.phase.Free? && s.queue != [] && (status.Ok? ==> s.queue[0].batch.None?)
    requires t == s.(queue := s.queue[1..], sealed := t.sealed,
                     returned := s.returned + [Returned(s.queue[0], status, s.lastSequence, 0)])
    requires t.sealed <= |s.store|
    ensures Inv(t)
  {
    var r := Returned(s.queue[0], status, s.lastSequence, 0);
    assert Starters(t.returned) == Starters(s.returned) + [s.queue[0]];
    assert t.arrivals == Starters(t.returned) + t.queue;
    RangesAdd(s.returned, r, s.lastSequence);
    EffectsAdd(s.returned, r);
    assert Effect(r) == [];
    LogOkAdds(s, t, [r]);
  }

  lemma LogOkAdds(s: Queue, t: Queue, rs: seq<Returned>)
    requires LogOk(s) && t.log == s.log && t.synced == s.synced && t.store == s.store && t.returned == s.returned + rs
    requires forall i :: 0 <= i < |rs| && rs[i].writer.sync ==> InLog(s.log, s.synced, Effect(rs[i]))
    ensures LogOk(t)
  {
    forall i | 0 <= i < |t.returned| && t.returned[i].writer.sync ensures InLog(t.log, t.synced, Effect(t.returned[i])) {
      if i < |s.returned| {
        assert t.returned[i] == s.returned[i];
      } else {
        assert t.returned[i] == rs[i - |s.returned|];
      }
    }
  }

  lemma LeadKeepsInv(s: Queue, t: Queue, n: nat)
    requires Inv(s) && Lead(s, t, n)
    ensures Inv(t)
  {
    forall i | 0 <= i < n ensures s.queue[i].sync ==> s.queue[0].sync {
      if i > 0 { assert Joins(s.queue, i); }
    }
  }

  lemma LogStepKeepsInv(s: Queue, t: Queue)
    requires Inv(s) && (LogAppended(s, t) || LogFailed(s, t) || Synced(s, t) || SyncFailed(s, t))
    ensures Inv(t)
  {
    LogOkStays(s, t);
  }

  lemma InsertKeepsInv(s: Queue, t: Queue)
    requires Inv(s) && Insert(s, t)
    ensures Inv(t)
  {
    var k, es := s.phase.stage.inserted, s.phase.entries;
    TakeNext(es, k);
    Associates(Effects(s.returned), es[..k], [es[k]]);
    InsertIsLogged(s.log, s.store, es, es[k]);
  }

  lemma InsertIsLogged(log: seq<seq<Entry>>, store: seq<Entry>, es: seq<Entry>, e: Entry)
    requires InLog(log, |log|, store) && log != [] && log[|log| - 1] == es && e in es
    ensures InLog(log, |log|, store + [e])
  {
  }

  /** What a member of a successful group has written is part of the group. */
  lemma {:induction false} MemberInGroup(ws: seq<Writer>, last: nat, i: nat, e: Entry)
    requires i < |ws| && e in Effect(Returns(ws, Ok, last)[i])
    ensures e in Database.Numbering(last, AllOps(ws))
  {
    var init := ws[..|ws| - 1];
    NumberingSplit(last, AllOps(init), OpsOf(ws[|ws| - 1]));
    if i < |init| { MemberInGroup(init, last, i, e); }
  }

  lemma FinishKeepsLog(s: Queue, t: Queue)
    requires Inv(s) && Finish(s, t)
    ensures LogOk(t)
  {
    var ws := s.queue[..s.phase.group];
    var rs := Returns(ws, Outcome(s.phase), s.lastSequence);
    forall i | 0 <= i < |rs| && rs[i].writer.sync ensures InLog(s.log, s.synced, Effect(rs[i])) {
      if !s.phase.stage.Failed? {
        assert s.queue[i].sync;
        forall e | e in Effect(rs[i]) ensures exists j :: 0 <= j < s.synced && j < |s.log| && e in s.log[j] {
          MemberInGroup(ws, s.lastSequence, i, e);
          assert e in s.log[|s.log| - 1];
        }
      }
    }
    LogOkAdds(s, t, rs);
  }

  lemma FinishStores(s: Queue, t: Queue)
    requires Inv(s) && Finish(s, t)
    ensures t.store == Effects(t.returned)
  {
    var ws := s.queue[..s.phase.group];
    EffectsSplit(s.returned, Returns(ws, Outcome(s.phase), s.lastSequence));
    if s.phase.stage.Failed? {
      FailedEffects(ws, s.lastSequence);
    } else {
      GroupEffects(ws, s.lastSequence);
      assert s.phase.entries[..|s.phase.entries|] == s.phase.entries;
    }
  }

  lemma FinishMovesWriters(s: Queue, t: Queue)
    requires Finish(s, t)
    ensures Starters(s.returned) + s.queue == Starters(t.returned) + t.queue
    ensures forall w :: w in Starters(s.returned) ==> w in Starters(t.returned)
  {
    var ws := s.queue[..s.phase.group];
    assert s.queue == ws + t.queue;
    assert Starters(t.returned) == Starters(s.returned) + ws;
  }

  lemma FinishKeepsInv(s: Queue, t: Queue)
    requires Inv(s) && Finish(s, t)
    ensures Inv(t)
  {
    var ws := s.queue[..s.phase.group];
    var rs := Returns(ws, Outcome(s.phase), s.lastSequence);
    FinishMovesWriters(s, t);
    GroupRanges(s.returned, ws, Outcome(s.phase), s.lastSequence);
    FinishStores(s, t);
    FinishKeepsLog(s, t);
  }

  lemma StepKeepsInv(s: Queue, t: Queue)
    requires Inv(s) && Step(s, t)
    ensures Inv(t)
  {
    if w :| Join(s, t, w) {
      JoinKeepsInv(s, t, w);
    } else if Refuse(s, t) {
      AloneKeepsInv(s, t, IOError);
    } else if ForceSwitch(s, t) {
      AloneKeepsInv(s, t, Ok);
    } else if Switch(s, t) {
      LogOkStays(s, t);
    } else if n :| Lead(s, t, n) {
      LeadKeepsInv(s, t, n);
    } else if Insert(s, t) {
      InsertKeepsInv(s, t);
    } else if Finish(s, t) {
      FinishKeepsInv(s, t);
    } else {
      LogStepKeepsInv(s, t);
    }
  }

  ghost predicate Run(run: seq<Queue>) {
    && |run| > 0 && run[0] == Init
    && forall i :: 0 <= i < |run| - 1 ==> StepAt(run, i)
  }

  ghost predicate StepAt(run: seq<Queue>, i: nat)
    requires i + 1 < |run|
  {
    Step(run[i], run[i + 1])
  }

  lemma RunStep(run: seq<Queue>, i: nat)
    requires Run(run) && i + 1 < |run|
    ensures Step(run[i], run[i + 1])
  {
    assert StepAt(run, i);
  }

  lemma InitInv()
    ensures Inv(Init)
  {
  }

  lemma {:induction false} RunKeepsInv(run: seq<Queue>, i: nat)
    requires Run(run) && i < |run|
    ensures Inv(run[i])
    decreases i
  {
    if i == 0 {
      InitInv();
    } else {
      var s, t := run[i - 1], run[i];
      RunKeepsInv(run, i - 1);
      RunStep(run, i - 1);
      StepKeepsInv(s, t);
    }
  }

  // ---------------------------------------------------------------------
  // What readers see
  // ---------------------------------------------------------------------

  lemma RangesUnique(rs: seq<Returned>, a: nat, b: nat)
    requires Ranges(rs, a) && Ranges(rs, b)
    ensures a == b
  {
  }

  /** The first `n` returned writers end where the others begin. */
  lemma {:induction false} RangesSplit(rs: seq<Returned>, last: nat, n: nat) returns (mid: nat)
    requires Ranges(rs, last) && n <= |rs|
    ensures Ranges(rs[..n], mid) && mid <= last
    ensures forall i :: 0 <= i < n ==> rs[i].before + rs[i].count <= mid
    ensures forall i :: n <= i < |rs| ==> mid <= rs[i].before
  {
    if rs == [] {
      mid := last;
    } else {
      var k := |rs| - 1;
      var r := rs[k];
      if n <= k {
        mid := RangesSplit(rs[..k], r.before, n);
        assert rs[..k][..n] == rs[..n];
        assert forall i :: 0 <= i < k ==> rs[i] == rs[..k][i];
      } else {
        var below := RangesSplit(rs[..k], r.before, k);
        assert rs[..n] == rs && rs[..k][..k] == rs[..k];
        RangesUnique(rs[..k], below, r.before);
        assert forall i :: 0 <= i < k ==> rs[i] == rs[..k][i];
        mid := last;
      }
    }
  }

  /** An entry has been written by one of the returned writers, within its range. */
  lemma {:induction false} EffectOf(rs: seq<Returned>, last: nat, e: Entry) returns (i: nat)
    requires Ranges(rs, last) && e in Effects(rs)
    decreases |rs|
    ensures i < |rs| && e in Effect(rs[i]) && rs[i].before < e.seqno <= rs[i].before + rs[i].count
  {
    var k := |rs| - 1;
    if e in Effect(rs[k]) {
      i := k;
    } else {
      i := EffectOf(rs[..k], rs[k].before, e);
    }
  }

  /**
   * What a read at LastSequence can see is exactly what the writers that have returned with success
   * have written: nothing of a group still under way, and nothing of a failed one.
   */
  lemma VisibleIsCommitted(s: Queue, e: Entry)
    requires Inv(s)
    ensures e in s.store && e.seqno <= s.lastSequence <==> e in Effects(s.returned)
  {
    if e in Effects(s.returned) {
      var i := EffectOf(s.returned, s.lastSequence, e);
      var mid := RangesSplit(s.returned, s.lastSequence, |s.returned|);
      assert s.returned[..|s.returned|] == s.returned;
      RangesUnique(s.returned, mid, s.lastSequence);
    }
    if e in Partial(s.phase) {
      assert e in s.phase.entries;
    }
  }

  lemma {:induction false} ReturnedGrows(run: seq<Queue>, i: nat, j: nat)
    requires Run(run) && i <= j < |run|
    ensures run[i].returned <= run[j].returned && run[i].arrivals <= run[j].arrivals
    decreases j
  {
    if i < j {
      ReturnedGrows(run, i, j - 1);
      assert StepAt(run, j - 1);
    }
  }

  /**
   * A snapshot taken at any moment is all or nothing for every batch, also one that is written later:
   * all its sequence numbers are at or below the snapshot, or all are above.
   */
  lemma NoTornBatch(run: seq<Queue>, i: nat, j: nat, n: nat)
    requires Run(run) && i <= j < |run| && n < |run[j].returned|
    ensures var r, snapshot := run[j].returned[n], run[i].lastSequence;
      if n < |run[i].returned| then r.before + r.count <= snapshot else snapshot <= r.before
  {
    RunKeepsInv(run, i);
    RunKeepsInv(run, j);
    ReturnedGrows(run, i, j);
    var m := |run[i].returned|;
    var mid := RangesSplit(run[j].returned, run[j].lastSequence, m);
    assert run[j].returned[..m] == run[i].returned;
    RangesUnique(run[i].returned, mid, run[i].lastSequence);
  }

  lemma LaterEffects(rs: seq<Returned>, a: nat, qs: seq<Returned>, b: nat, e: Entry)
    requires Ranges(rs, a) && Ranges(qs, b) && rs <= qs && e.seqno <= a
    ensures e in Effects(rs) <==> e in Effects(qs)
  {
    assert qs == rs + qs[|rs|..] && qs[..|rs|] == rs;
    EffectsSplit(rs, qs[|rs|..]);
    if e in Effects(qs) {
      var mid := RangesSplit(qs, b, |rs|);
      RangesUnique(rs, mid, a);
      var n := EffectOf(qs, b, e);
      EffectIsIn(rs, n, e);
    }
  }

  /** What a snapshot sees never changes again. */
  lemma SnapshotIsStable(run: seq<Queue>, i: nat, j: nat, e: Entry)
    requires Run(run) && i <= j < |run| && e.seqno <= run[i].lastSequence
    ensures e in run[i].store <==> e in run[j].store
  {
    RunKeepsInv(run, i);
    RunKeepsInv(run, j);
    ReturnedGrows(run, i, j);
    VisibleIsCommitted(run[i], e);
    VisibleIsCommitted(run[j], e);
    NoEarlierLast(run, i, j);
    LaterEffects(run[i].returned, run[i].lastSequence, run[j].returned, run[j].lastSequence, e);
  }

  lemma {:induction false} NoEarlierLast(run: seq<Queue>, i: nat, j: nat)
    requires Run(run) && i <= j < |run|
    ensures run[i].lastSequence <= run[j].lastSequence
    decreases j
  {
    if i < j {
      NoEarlierLast(run, i, j - 1);
      assert StepAt(run, j - 1);
    }
  }

  lemma {:induction false} EffectIsIn(rs: seq<Returned>, i: nat, e: Entry)
    requires i < |rs| && e in Effect(rs[i])
    ensures e in Effects(rs)
  {
    if i < |rs| - 1 { EffectIsIn(rs[..|rs| - 1], i, e); }
  }

  lemma StartersSplit(rs: seq<Returned>)
    requires rs != []
    ensures Starters(rs)[..|rs| - 1] == Starters(rs[..|rs| - 1]) && Starters(rs)[|rs| - 1] == rs[|rs| - 1].writer
  {
  }

  lemma LastCommit(rs: seq<Returned>, r: Returned, ops: seq<Operation>)
    requires r.status.Ok? && r.before == |ops| && Effects(rs) == Database.Numbering(0, ops)
    ensures Effects(rs + [r]) == Database.Numbering(0, ops + OpsOf(r.writer))
  {
    EffectsAdd(rs, r);
    NumberingSplit(0, ops, OpsOf(r.writer));
  }

  /** As long as nothing fails, what is visible is the history of all operations in the order of arrival. */
  lemma {:induction false} CommitsAreTheHistory(rs: seq<Returned>, last: nat)
    requires Ranges(rs, last) && forall i :: 0 <= i < |rs| ==> rs[i].status.Ok?
    ensures Effects(rs) == Database.Numbering(0, AllOps(Starters(rs))) && last == |AllOps(Starters(rs))|
    decreases |rs|
  {
    if rs != [] {
      var k := |rs| - 1;
      CommitsAreTheHistory(rs[..k], rs[k].before);
      assert rs == rs[..k] + [rs[k]];
      StartersSplit(rs);
      LastCommit(rs[..k], rs[k], AllOps(Starters(rs[..k])));
    }
  }

  // ---------------------------------------------------------------------
  // What writers are promised
  // ---------------------------------------------------------------------

  lemma NotBoth(a: seq<Writer>, b: seq<Writer>, w: Writer)
    requires DistinctWriters(a + b)
    ensures !(w in a && w in b)
  {
    forall m, n | 0 <= m < |a| && 0 <= n < |b| ensures a[m] != b[n] {
      assert (a + b)[m] == a[m] && (a + b)[|a| + n] == b[n];
    }
  }

  /** Writers return in the order of arrival, each once. */
  lemma ReturnsOnceInOrder(run: seq<Queue>, i: nat)
    requires Run(run) && i < |run|
    ensures Starters(run[i].returned) <= run[i].arrivals
    ensures forall m, n :: 0 <= m < n < |run[i].returned| ==> run[i].returned[m].writer.id != run[i].returned[n].writer.id
    ensures forall w :: w in run[i].arrivals ==> (w in Starters(run[i].returned) <==> w !in run[i].queue)
  {
    RunKeepsInv(run, i);
    var s := run[i];
    var rs := Starters(s.returned);
    forall m, n | 0 <= m < n < |s.returned| ensures s.returned[m].writer.id != s.returned[n].writer.id {
      assert s.arrivals[m] == rs[m] && s.arrivals[n] == rs[n];
    }
    forall w | w in s.arrivals ensures w in rs <==> w !in s.queue {
      NotBoth(rs, s.queue, w);
    }
  }

  /** A synced write that has returned with success is in a part of the log known to be on disk. */
  lemma SyncedIsDurable(run: seq<Queue>, i: nat, n: nat)
    requires Run(run) && i < |run| && n < |run[i].returned|
    requires run[i].returned[n].writer.sync && run[i].returned[n].status.Ok?
    ensures InLog(run[i].log, run[i].synced, Database.Numbering(run[i].returned[n].before, OpsOf(run[i].returned[n].writer)))
  {
    RunKeepsInv(run, i);
  }

  /** The writer returns with success in this step. */
  ghost predicate ReturnsOk(s: Queue, t: Queue, w: Writer) {
    exists i :: |s.returned| <= i < |t.returned| && t.returned[i].writer == w && t.returned[i].status.Ok?
  }

  /**
   * When a null batch returns with success, the memtable is empty if its writer was at the front with no group
   * under way. A null batch that is waiting when a group is built is absorbed: it returns with success and the
   * memtables are as they were.
   */
  lemma SwitchIsForced(s: Queue, t: Queue, w: Writer)
    requires Inv(s) && Step(s, t) && w in s.queue && w.batch.None?
    requires ReturnsOk(s, t, w)
    ensures if s.phase.Free? then w == s.queue[0] && t.sealed == |t.store| else t.sealed == s.sealed && t.store == s.store
  {
    NotBoth(Starters(s.returned), s.queue, w);
  }

  lemma StepSeals(s: Queue, t: Queue)
    requires s.sealed <= |s.store| && Step(s, t)
    ensures s.sealed <= t.sealed && s.store <= t.store
  {
  }

  lemma SealedFits(run: seq<Queue>, i: nat)
    requires Run(run) && i < |run|
    ensures run[i].sealed <= |run[i].store|
  {
    RunKeepsInv(run, i);
  }

  /** What has been switched out stays so. */
  lemma {:induction false} SealedStays(run: seq<Queue>, i: nat, j: nat)
    requires Run(run) && i <= j < |run|
    ensures run[i].sealed <= run[j].sealed && run[i].store <= run[j].store
    decreases j
  {
    if i < j {
      SealedStays(run, i, j - 1);
      SealedFits(run, j - 1);
      RunStep(run, j - 1);
      StepSeals(run[j - 1], run[j]);
    }
  }

  /**
   * A null batch that joined at moment `i` and returns with success in step `j` has done what it is for, to get
   * what was written before it out of the memtable, exactly when it forced the switch or others had made it.
   */
  lemma NullWriteSealsExactly(run: seq<Queue>, i: nat, j: nat, w: Writer)
    requires Run(run) && i <= j && j + 1 < |run| && w in run[j].queue && w.batch.None?
    requires ReturnsOk(run[j], run[j + 1], w)
    ensures run[i].store <= run[j + 1].store
    ensures run[j + 1].sealed >= |run[i].store| <==> run[j].phase.Free? || run[j].sealed >= |run[i].store|
  {
    RunKeepsInv(run, j);
    RunStep(run, j);
    SwitchIsForced(run[j], run[j + 1], w);
    SealedStays(run, i, j + 1);
  }

  // ---------------------------------------------------------------------
  // A null batch that is absorbed
  // ---------------------------------------------------------------------

  lemma NullJoins(a: Writer, w: Writer, last: nat)
    requires a.batch.Some? && w.batch.None? && !w.sync && |OpsOf(a)| == 1
    ensures IsGroup([a, w], 2) && AllOps([a, w]) == OpsOf(a) && [a, w][..2] == [a, w]
    ensures Returns([a, w], Ok, last) == [Returned(a, Ok, last, 1), Returned(w, Ok, last + 1, 0)]
  {
    assert [a, w][..2] == [a, w] && [a, w][..1] == [a] && [a][..0] == [];
    assert AllOps([a]) == AllOps([]) + OpsOf(a) == OpsOf(a);
    assert Returns([a], Ok, last) == [Returned(a, Ok, last, 1)];
  }

  /** With nobody waiting, one operation of `a` is written while the null batch of `w` waits. */
  function Absorbed(s: Queue, a: Writer, w: Writer, es: seq<Entry>): seq<Queue> {
    var both := s.(queue := [a, w], arrivals := s.arrivals + [a] + [w]);
    var logged := both.(log := s.log + [es]);
    [s.(queue := [a], arrivals := s.arrivals + [a]),
     both,
     both.(phase := Leading(2, es, ToLog)),
     logged.(phase := Leading(2, es, Applying(0))),
     logged.(store := s.store + es, phase := Leading(2, es, Applying(1))),
     logged.(store := s.store + es, lastSequence := s.lastSequence + 1, queue := [],
             returned := s.returned + [Returned(a, Ok, s.lastSequence, 1), Returned(w, Ok, s.lastSequence + 1, 0)])]
  }

  ghost predicate Absorbs(s: Queue, a: Writer, w: Writer, es: seq<Entry>) {
    && s.phase.Free? && s.queue == [] && !s.failing && a.batch.Some? && !a.sync && w.batch.None? && !w.sync
    && a.id != w.id && (forall x :: x in s.arrivals ==> x.id != a.id && x.id != w.id)
    && |OpsOf(a)| == 1 && es == Database.Numbering(s.lastSequence, OpsOf(a))
  }

  lemma AbsorbedBegins(s: Queue, a: Writer, w: Writer, es: seq<Entry>)
    requires Absorbs(s, a, w, es)
    ensures var r := Absorbed(s, a, w, es); Step(s, r[0]) && Step(r[0], r[1]) && Step(r[1], r[2])
  {
    var r := Absorbed(s, a, w, es);
    NullJoins(a, w, s.lastSequence);
    assert Join(s, r[0], a) && Join(r[0], r[1], w);
    assert Lead(r[1], r[2], 2);
  }

  lemma AbsorbedIsWritten(s: Queue, a: Writer, w: Writer, es: seq<Entry>)
    requires Absorbs(s, a, w, es)
    ensures var r := Absorbed(s, a, w, es); Step(r[2], r[3]) && Step(r[3], r[4])
  {
    var r := Absorbed(s, a, w, es);
    assert es == [es[0]];
    assert LogAppended(r[2], r[3]) && Insert(r[3], r[4]);
  }

  lemma AbsorbedEnds(s: Queue, a: Writer, w: Writer, es: seq<Entry>)
    requires Absorbs(s, a, w, es)
    ensures var r := Absorbed(s, a, w, es); Step(r[4], r[5])
  {
    var r := Absorbed(s, a, w, es);
    NullJoins(a, w, s.lastSequence);
    assert Finish(r[4], r[5]);
  }

  /** A run that ends with nobody waiting goes on this way. */
  lemma RunAbsorbs(run: seq<Queue>, a: Writer, w: Writer, es: seq<Entry>)
    requires Run(run) && Absorbs(run[|run| - 1], a, w, es)
    ensures Run(run + Absorbed(run[|run| - 1], a, w, es))
  {
    var s := run[|run| - 1];
    AbsorbedBegins(s, a, w, es);
    AbsorbedIsWritten(s, a, w, es);
    AbsorbedEnds(s, a, w, es);
    SixSteps(run, Absorbed(s, a, w, es));
  }

  lemma SixSteps(run: seq<Queue>, r: seq<Queue>)
    requires Run(run) && |r| == 6 && Step(run[|run| - 1], r[0])
    requires Step(r[0], r[1]) && Step(r[1], r[2]) && Step(r[2], r[3]) && Step(r[3], r[4]) && Step(r[4], r[5])
    ensures Run(run + r)
  {
    var all := run + r;
    forall i | 0 <= i < |all| - 1 ensures StepAt(all, i) {
      if i < |run| - 1 {
        assert StepAt(run, i);
      } else {
        assert all[i + 1] == r[i + 1 - |run|];
      }
    }
  }

  const A: Writer := Writer(0, Some(Batch([(0.0, Delete)], 20)), false)
  const B: Writer := Writer(2, Some(Batch([(0.0, Delete)], 20)), false)

  /** After a write has returned, another one leads a group that a null batch joins. */
  lemma TwiceAbsorbed(w: Writer, x: Writer)
    requires w == Writer(1, None, false) && x == Writer(3, None, false)
    ensures var r := [Init] + Absorbed(Init, A, w, Database.Numbering(0, OpsOf(A)));
      && Run(r + Absorbed(r[6], B, x, Database.Numbering(1, OpsOf(B)))) && r[6] == Absorbed(Init, A, w, Database.Numbering(0, OpsOf(A)))[5]
  {
    assert Run([Init]);
    RunAbsorbs([Init], A, w, Database.Numbering(0, OpsOf(A)));
    var r := [Init] + Absorbed(Init, A, w, Database.Numbering(0, OpsOf(A)));
    assert Absorbs(r[6], B, x, Database.Numbering(1, OpsOf(B)));
    RunAbsorbs(r, B, x, Database.Numbering(1, OpsOf(B)));
  }

  /**
   * A run in which a null batch joins after a write has returned, and returns with success itself, while that
   * write is still in the memtable: no memtable has been switched at all.
   */
  lemma NullWriteMayNotSwitch() returns (run: seq<Queue>, i: nat, w: Writer)
    ensures Run(run) && i + 1 < |run| && w.batch.None? && Join(run[i], run[i + 1], w)
    ensures |run[i].store| > 0 && run[i].returned != [] && run[i].returned[0].writer != w && Effect(run[i].returned[0]) == run[i].store
    ensures var last := run[|run| - 1]; last.sealed == 0 && exists r :: r in last.returned && r.writer == w && r.status.Ok?
  {
    var v := Writer(1, None, false);
    w := Writer(3, None, false);
    var es, fs := Database.Numbering(0, OpsOf(A)), Database.Numbering(1, OpsOf(B));
    var r := [Init] + Absorbed(Init, A, v, es);
    TwiceAbsorbed(v, w);
    run := r + Absorbed(r[6], B, w, fs);
    i := 7;
    assert run[7] == Absorbed(r[6], B, w, fs)[0] && run[8] == Absorbed(r[6], B, w, fs)[1];
    assert run[12] == Absorbed(r[6], B, w, fs)[5];
    assert run[12].returned[3] in run[12].returned;
  }
}
