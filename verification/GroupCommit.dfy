/**
 * The group-commit queue: db/db_impl.cc:1185-1306. Writers join at any time; the one at the front
 * leads a group, with the lock released while it writes the log and the memtable. Failures of the
 * log are steps like any other.
 */
module GroupCommit {
  import opened Keys
  import opened Sequences
  import opened Database

  type Operation = (UserKey, Op)

  /** A write batch: its operations, and the size of its encoding. */
  datatype Batch = Batch(ops: seq<Operation>, size: nat)

  /** A thread in Write. A null batch asks for a memtable switch. */
  datatype Writer = Writer(id: nat, batch: Option<Batch>, sync: bool)

  datatype Status = Ok | IOError

  datatype Stage = ToLog | ToSync | Applying(inserted: nat) | Failed(syncError: bool)

  /** What the leader is doing: the length of its group, the numbered operations, and how far it is. */
  datatype Phase = Free | Leading(group: nat, entries: seq<Entry>, stage: Stage)

  /** A writer that has returned: its sequence numbers are the `count` ones after `before`. */
  datatype Returned = Returned(writer: Writer, status: Status, before: nat, count: nat)

  /**
   * `store` is what the memtables have received, of which the first `sealed` entries are in memtables that
   * have been switched out; `synced` is how many log records are known to be on disk. `arrivals` and
   * `returned` are history.
   */
  datatype Queue = Queue(
    queue: seq<Writer>,
    phase: Phase,
    log: seq<seq<Entry>>,
    synced: nat,
    store: seq<Entry>,
    sealed: nat,
    lastSequence: nat,
    failing: bool,
    arrivals: seq<Writer>,
    returned: seq<Returned>)

  // ---------------------------------------------------------------------
  // Groups
  // ---------------------------------------------------------------------

  function OpsOf(w: Writer): seq<Operation> {
    if w.batch.Some? then w.batch.value.ops else []
  }

  function SizeOf(w: Writer): nat {
    if w.batch.Some? then w.batch.value.size else 0
  }

  function TotalSize(ws: seq<Writer>): nat {
    if ws == [] then 0 else TotalSize(ws[..|ws| - 1]) + SizeOf(ws[|ws| - 1])
  }

  /** The operations of a group, in queue order. */
  function AllOps(ws: seq<Writer>): seq<Operation> {
    if ws == [] then [] else AllOps(ws[..|ws| - 1]) + OpsOf(ws[|ws| - 1])
  }

  /** A small first write does not let its group grow much. */
  function MaxSize(first: Writer): nat {
    if SizeOf(first) <= 0x2_0000 then SizeOf(first) + 0x2_0000 else 0x10_0000
  }

  /** Writer `i` may be part of the group of the first one. */
  predicate Joins(ws: seq<Writer>, i: nat)
    requires 0 < i < |ws|
  {
    && (ws[i].sync ==> ws[0].sync)
    && (ws[i].batch.Some? ==> TotalSize(ws[..i + 1]) <= MaxSize(ws[0]))
  }

  /** The group of the first writer goes up to the first writer that may not join. */
  predicate IsGroup(ws: seq<Writer>, n: nat) {
    1 <= n <= |ws| && AllJoin(ws, n) && (n < |ws| ==> !Joins(ws, n))
  }

  predicate AllJoin(ws: seq<Writer>, n: nat)
    requires n <= |ws|
  {
    forall i :: 1 <= i < n ==> Joins(ws, i)
  }

  ghost predicate IsTheGroup(ws: seq<Writer>, n: nat) {
    IsGroup(ws, n) && forall m :: IsGroup(ws, m) ==> m == n
  }

  /** The queue determines the group. */
  lemma GroupUnique(ws: seq<Writer>, n: nat)
    requires IsGroup(ws, n)
    ensures IsTheGroup(ws, n)
  {
  }

  // ---------------------------------------------------------------------
  // Steps
  // ---------------------------------------------------------------------

  const Init: Queue := Queue([], Free, [], 0, [], 0, 0, false, [], [])

  ghost predicate Join(s: Queue, t: Queue, w: Writer) {
    && (forall x :: x in s.arrivals ==> x.id != w.id)
    && t == s.(queue := s.queue + [w], arrivals := s.arrivals + [w])
  }

  /** MakeRoomForWrite fails, as it must after a failed sync: the leader returns alone. */
  ghost predicate Refuse(s: Queue, t: Queue) {
    && s.phase.Free? && s.queue != []
    && t == s.(queue := s.queue[1..], returned := s.returned + [Returned(s.queue[0], IOError, s.lastSequence, 0)])
  }

  /** MakeRoomForWrite finds the memtable full: it becomes immutable, and a new one is empty. */
  ghost predicate Switch(s: Queue, t: Queue) {
    s.phase.Free? && !s.failing && s.queue != [] && t == s.(sealed := |s.store|)
  }

  /** A null batch at the front: the memtable is switched, full or not, and nothing is written. */
  ghost predicate ForceSwitch(s: Queue, t: Queue) {
    && s.phase.Free? && !s.failing && s.queue != [] && s.queue[0].batch.None?
    && t == s.(queue := s.queue[1..], sealed := |s.store|,
               returned := s.returned + [Returned(s.queue[0], Ok, s.lastSequence, 0)])
  }

  ghost predicate Lead(s: Queue, t: Queue, n: nat) {
    && s.phase.Free? && !s.failing && s.queue != [] && s.queue[0].batch.Some?
    && IsGroup(s.queue, n)
    && t == s.(phase := Leading(n, Numbering(s.lastSequence, AllOps(s.queue[..n])), ToLog))
  }

  ghost predicate LogAppended(s: Queue, t: Queue) {
    && s.phase.Leading? && s.phase.stage.ToLog? && s.queue != []
    && t == s.(log := s.log + [s.phase.entries],
               phase := s.phase.(stage := if s.queue[0].sync then ToSync else Applying(0)))
  }

  ghost predicate LogFailed(s: Queue, t: Queue) {
    s.phase.Leading? && s.phase.stage.ToLog? && t == s.(phase := s.phase.(stage := Failed(false)))
  }

  ghost predicate Synced(s: Queue, t: Queue) {
    s.phase.Leading? && s.phase.stage.ToSync? && t == s.(synced := |s.log|, phase := s.phase.(stage := Applying(0)))
  }

  ghost predicate SyncFailed(s: Queue, t: Queue) {
    s.phase.Leading? && s.phase.stage.ToSync? && t == s.(phase := s.phase.(stage := Failed(true)))
  }

  /** One operation enters the memtable. */
  ghost predicate Insert(s: Queue, t: Queue) {
    && s.phase.Leading? && s.phase.stage.Applying? && s.phase.stage.inserted < |s.phase.entries|
    && t == s.(store := s.store + [s.phase.entries[s.phase.stage.inserted]],
               phase := s.phase.(stage := Applying(s.phase.stage.inserted + 1)))
  }

  predicate Over(p: Phase) {
    p.Leading? && (p.stage.Failed? || p.stage == Applying(|p.entries|))
  }

  /** How the members of a finished group return. */
  function Returns(ws: seq<Writer>, status: Status, before: nat): (r: seq<Returned>)
    ensures |r| == |ws| && forall i :: 0 <= i < |r| ==> r[i].writer == ws[i] && r[i].status == status
  {
    if ws == [] then []
    else
      var n := |ws| - 1;
      Returns(ws[..n], status, before) + [Returned(ws[n], status, before + |AllOps(ws[..n])|, |OpsOf(ws[n])|)]
  }

  function Outcome(p: Phase): Status
    requires p.Leading?
  {
    if p.stage.Failed? then IOError else Ok
  }

  /** The last sequence moves past the group, whatever became of it, and its members return. */
  ghost predicate Finish(s: Queue, t: Queue) {
    && Over(s.phase) && s.phase.group <= |s.queue|
    && var n := s.phase.group;
       t == s.(lastSequence := s.lastSequence + |s.phase.entries|,
               queue := s.queue[n..],
               phase := Free,
               failing := s.failing || s.phase.stage == Failed(true),
               returned := s.returned + Returns(s.queue[..n], Outcome(s.phase), s.lastSequence))
  }

  ghost predicate Step(s: Queue, t: Queue) {
    || (exists w :: Join(s, t, w))
    || Refuse(s, t) || Switch(s, t) || ForceSwitch(s, t) || (exists n :: Lead(s, t, n))
    || LogAppended(s, t) || LogFailed(s, t) || Synced(s, t) || SyncFailed(s, t)
    || Insert(s, t) || Finish(s, t)
  }

  // ---------------------------------------------------------------------
  // Invariant
  // ---------------------------------------------------------------------

  /** What a returned writer has written. */
  function Effect(r: Returned): seq<Entry> {
    if r.status.Ok? then Numbering(r.before, OpsOf(r.writer)) else []
  }

  function Effects(rs: seq<Returned>): seq<Entry> {
    if rs == [] then [] else Effects(rs[..|rs| - 1]) + Effect(rs[|rs| - 1])
  }

  /** What the group under way has written so far. */
  function Partial(p: Phase): seq<Entry> {
    if p.Leading? && p.stage.Applying? && p.stage.inserted <= |p.entries| then p.entries[..p.stage.inserted] else []
  }

  function Starters(rs: seq<Returned>): (r: seq<Writer>)
    ensures |r| == |rs|
  {
    seq(|rs|, i requires 0 <= i < |rs| => rs[i].writer)
  }

  predicate DistinctWriters(ws: seq<Writer>) {
    forall i, j :: 0 <= i < j < |ws| ==> ws[i].id != ws[j].id
  }

  /** The sequence ranges follow one another without gap or overlap, in the order of return, up to `last`. */
  predicate Ranges(rs: seq<Returned>, last: nat) {
    if rs == [] then last == 0
    else
      var r := rs[|rs| - 1];
      && r.before + r.count == last
      && (r.status.Ok? ==> r.count == |OpsOf(r.writer)|)
      && Ranges(rs[..|rs| - 1], r.before)
  }

  ghost predicate PhaseOk(s: Queue) {
    s.phase.Leading? ==>
      var n := s.phase.group;
      && 1 <= n <= |s.queue| && !s.failing && s.queue[0].batch.Some?
      && s.phase.entries == Numbering(s.lastSequence, AllOps(s.queue[..n]))
      && (forall i :: 0 <= i < n ==> (s.queue[i].sync ==> s.queue[0].sync))
      && (s.phase.stage.ToSync? || s.phase.stage.Applying? ==> s.log != [] && s.log[|s.log| - 1] == s.phase.entries)
      && (s.phase.stage.ToSync? || s.phase.stage == Failed(true) ==> s.queue[0].sync)
      && (s.phase.stage.Applying? ==> s.phase.stage.inserted <= |s.phase.entries|)
      && (s.phase.stage.Applying? && s.queue[0].sync ==> s.synced == |s.log|)
  }

  /** Everything a writer has written is in the first `n` records of the log. */
  ghost predicate InLog(log: seq<seq<Entry>>, n: nat, es: seq<Entry>) {
    forall e :: e in es ==> exists j :: 0 <= j < n && j < |log| && e in log[j]
  }

  ghost predicate LogOk(s: Queue) {
    && s.synced <= |s.log|
    && InLog(s.log, |s.log|, s.store)
    && forall i :: 0 <= i < |s.returned| && s.returned[i].writer.sync ==> InLog(s.log, s.synced, Effect(s.returned[i]))
  }

  ghost predicate Inv(s: Queue) {
    && s.arrivals == Starters(s.returned) + s.queue && DistinctWriters(s.arrivals)
    && Ranges(s.returned, s.lastSequence)
    && s.store == Effects(s.returned) + Partial(s.phase)
    && s.sealed <= |s.store|
    && PhaseOk(s)
    && LogOk(s)
  }

  // ---------------------------------------------------------------------
  // Every step keeps it
  // ---------------------------------------------------------------------

  lemma EffectsAdd(rs: seq<Returned>, r: Returned)
    ensures Effects(rs + [r]) == Effects(rs) + Effect(r)
  {
    assert (rs + [r])[..|rs|] == rs;
  }

  lemma {:induction false} EffectsSplit(rs: seq<Returned>, qs: seq<Returned>)
    ensures Effects(rs + qs) == Effects(rs) + Effects(qs)
  {
    if qs == [] {
      assert rs + qs == rs;
    } else {
      var init, last := qs[..|qs| - 1], qs[|qs| - 1];
      EffectsSplit(rs, init);
      SplitLast(rs, qs);
      EffectsAdd(rs + init, last);
      Associates(Effects(rs), Effects(init), Effect(last));
    }
  }

  lemma SplitLast(rs: seq<Returned>, qs: seq<Returned>)
    requires qs != []
    ensures rs + qs == (rs + qs[..|qs| - 1]) + [qs[|qs| - 1]]
  {
  }

  lemma RangesAdd(rs: seq<Returned>, r: Returned, last: nat)
    requires Ranges(rs, last) && r.before == last && (r.status.Ok? ==> r.count == |OpsOf(r.writer)|)
    ensures Ranges(rs + [r], last + r.count)
  {
    assert (rs + [r])[..|rs|] == rs;
  }

  lemma {:induction false} GroupRanges(rs: seq<Returned>, ws: seq<Writer>, status: Status, last: nat)
    requires Ranges(rs, last)
    ensures Ranges(rs + Returns(ws, status, last), last + |AllOps(ws)|)
  {
    if ws == [] {
      assert rs + Returns(ws, status, last) == rs;
    } else {
      var n := |ws| - 1;
      GroupRanges(rs, ws[..n], status, last);
      var qs := Returns(ws, status, last);
      assert rs + qs == (rs + Returns(ws[..n], status, last)) + [qs[n]];
      RangesAdd(rs + Returns(ws[..n], status, last), qs[n], last + |AllOps(ws[..n])|);
    }
  }

  lemma NumberingSplit(last: nat, xs: seq<Operation>, ys: seq<Operation>)
    ensures Numbering(last, xs + ys) == Numbering(last, xs) + Numbering(last + |xs|, ys)
  {
  }

  /** The members of a successful group have together written exactly the group. */
  lemma {:induction false} GroupEffects(ws: seq<Writer>, last: nat)
    ensures Effects(Returns(ws, Ok, last)) == Numbering(last, AllOps(ws))
  {
    if ws != [] {
      var init, w := ws[..|ws| - 1], ws[|ws| - 1];
      GroupEffects(init, last);
      EffectsAdd(Returns(init, Ok, last), Returned(w, Ok, last + |AllOps(init)|, |OpsOf(w)|));
      NumberingSplit(last, AllOps(init), OpsOf(w));
    }
  }

  lemma {:induction false} FailedEffects(ws: seq<Writer>, last: nat)
    ensures Effects(Returns(ws, IOError, last)) == []
  {
    if ws != [] {
      var n := |ws| - 1;
      FailedEffects(ws[..n], last);
      var qs := Returns(ws, IOError, last);
      assert qs == Returns(ws[..n], IOError, last) + [qs[n]];
      EffectsAdd(Returns(ws[..n], IOError, last), qs[n]);
    }
  }
}
