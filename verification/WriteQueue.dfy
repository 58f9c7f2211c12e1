/** The writer queue as the code keeps it: each method is one region between lock and unlock, or one unlocked step. */
module WriteQueue {
  import opened Keys
  import opened Sequences
  import Database
  import opened GroupCommit

  class WriteQueue {
    var writers: seq<Writer>
    /** The local variables of the leader: its group, the numbered batch and how far it has come. */
    var leader: Phase
    var log: seq<seq<Entry>>
    var synced: nat
    var store: seq<Entry>
    var sealed: nat
    var lastSequence: nat
    var failing: bool
    var returned: seq<Returned>
    ghost var arrivals: seq<Writer>

    constructor ()
      ensures Abs() == Init
    {
      writers, leader, log, synced, store := [], Free, [], 0, [];
      sealed, lastSequence, failing, returned, arrivals := 0, 0, false, [], [];
    }

    ghost function Abs(): Queue
      reads this
    {
      Queue(writers, leader, log, synced, store, sealed, lastSequence, failing, arrivals, returned)
    }

    method Enqueue(w: Writer)
      requires forall x :: x in arrivals ==> x.id != w.id
      modifies this
      ensures Join(old(Abs()), Abs(), w)
    {
      writers := writers + [w];
      arrivals := arrivals + [w];
    }

    /** The memtable is full. */
    method SwitchMemTable()
      requires writers != [] && leader.Free? && !failing
      modifies this
      ensures Switch(old(Abs()), Abs())
    {
      sealed := |store|;
    }

    /**
     * The front writer takes the lead. With `room` false MakeRoomForWrite has failed; a null batch
     * has its switch made there; any other batch starts a group.
     */
    method TakeLead(room: bool)
      requires writers != [] && leader.Free? && (failing ==> !room)
      modifies this
      ensures var s, w := old(Abs()), old(writers[0]);
        if !room then Refuse(s, Abs())
        else if w.batch.None? then ForceSwitch(s, Abs())
        else exists n :: Lead(s, Abs(), n) && IsTheGroup(old(writers), n)
    {
      if !room || writers[0].batch.None? {
        if room {
          sealed := |store|;
        }
        returned := returned + [Returned(writers[0], if room then Ok else IOError, lastSequence, 0)];
        writers := writers[1..];
      } else {
        var n, updates := BuildBatchGroup();
        GroupUnique(writers, n);
        leader := Leading(n, Database.Numbering(lastSequence, updates), ToLog);
        assert Lead(old(Abs()), Abs(), n);
      }
    }

    /** The batches of the group, appended in queue order, and where the group ends. */
    method BuildBatchGroup() returns (n: nat, updates: seq<Operation>)
      requires writers != [] && writers[0].batch.Some?
      ensures IsGroup(writers, n) && updates == AllOps(writers[..n])
    {
      var first := writers[0];
      var size: nat := first.batch.value.size;
      var maxSize := 0x10_0000;
      if size <= 0x2_0000 {
        maxSize := size + 0x2_0000;
      }
      updates := first.batch.value.ops;
      n := 1;
      StartGroup(writers);
      while n < |writers|
        invariant Gathered(writers, n, size, updates) && (n < |writers| || IsGroup(writers, n))
      {
        var w := writers[n];
        GatherOne(writers, n, size, updates);
        if w.sync && !first.sync {
          break;
        }
        if w.batch.Some? {
          if size + w.batch.value.size > maxSize {
            break;
          }
          size := size + w.batch.value.size;
          updates := updates + w.batch.value.ops;
        }
        n := n + 1;
      }
    }

    /** The log append, with the lock released. */
    method AddRecord(ok: bool)
      requires leader.Leading? && leader.stage.ToLog? && writers != []
      modifies this
      ensures if ok then LogAppended(old(Abs()), Abs()) else LogFailed(old(Abs()), Abs())
    {
      if ok {
        log := log + [leader.entries];
        leader := leader.(stage := if writers[0].sync then ToSync else Applying(0));
      } else {
        leader := leader.(stage := Failed(false));
      }
    }

    method Sync(ok: bool)
      requires leader.Leading? && leader.stage.ToSync?
      modifies this
      ensures if ok then Synced(old(Abs()), Abs()) else SyncFailed(old(Abs()), Abs())
    {
      if ok {
        synced := |log|;
      }
      leader := leader.(stage := if ok then Applying(0) else Failed(true));
    }

    /** One round of InsertInto. */
    method InsertNext()
      requires leader.Leading? && leader.stage.Applying? && leader.stage.inserted < |leader.entries|
      modifies this
      ensures Insert(old(Abs()), Abs())
    {
      store := store + [leader.entries[leader.stage.inserted]];
      leader := leader.(stage := Applying(leader.stage.inserted + 1));
    }

    /** Moves the last sequence and takes the members of the group off the queue, one by one. */
    method Finish()
      requires Over(leader) && 1 <= leader.group <= |writers|
      modifies this
      ensures GroupCommit.Finish(old(Abs()), Abs())
    {
      var done, before := leader, lastSequence;
      lastSequence := before + |done.entries|;
      ReturnGroup(done.group, if done.stage.Failed? then IOError else Ok, before);
      failing := failing || done.stage == Failed(true);
      leader := Free;
    }

    method ReturnGroup(group: nat, status: Status, last: nat)
      requires group <= |writers|
      modifies this`writers, this`returned
      ensures writers == old(writers)[group..]
      ensures returned == old(returned) + Returns(old(writers)[..group], status, last)
    {
      ghost var all, earlier := writers, returned;
      var before: nat := last;
      NoneLeft(all, earlier, status, last);
      for n := 0 to group
        invariant Leaving(all, n, writers, earlier, returned, status, last, before)
      {
        var ready := writers[0];
        LeaveOne(all, n, writers, earlier, returned, status, last, before);
        writers := writers[1..];
        returned := returned + [Returned(ready, status, before, |OpsOf(ready)|)];
        before := before + |OpsOf(ready)|;
      }
    }
  }

  /** The first `n` writers have left the queue, each with its share of the sequence numbers. */
  ghost predicate Leaving(all: seq<Writer>, n: nat, rest: seq<Writer>, earlier: seq<Returned>, now: seq<Returned>,
                          status: Status, last: nat, before: nat) {
    && n <= |all| && rest == all[n..] && before == last + |AllOps(all[..n])|
    && now == earlier + Returns(all[..n], status, last)
  }

  lemma NoneLeft(all: seq<Writer>, earlier: seq<Returned>, status: Status, last: nat)
    ensures Leaving(all, 0, all, earlier, earlier, status, last, last)
  {
    assert all[..0] == [] && all[0..] == all && earlier + [] == earlier;
  }

  lemma LeaveOne(all: seq<Writer>, n: nat, rest: seq<Writer>, earlier: seq<Returned>, now: seq<Returned>,
                 status: Status, last: nat, before: nat)
    requires Leaving(all, n, rest, earlier, now, status, last, before) && n < |all|
    ensures rest != [] && rest[0] == all[n]
    ensures Leaving(all, n + 1, rest[1..], earlier, now + [Returned(all[n], status, before, |OpsOf(all[n])|)], status, last,
                    before + |OpsOf(all[n])|)
  {
    PrefixStep(all, n);
    Associates(earlier, Returns(all[..n], status, last), [Returned(all[n], status, before, |OpsOf(all[n])|)]);
  }

  /** The first `n` writers may all be in the group, and this is what they come to. */
  ghost predicate Gathered(ws: seq<Writer>, n: nat, size: nat, updates: seq<Operation>) {
    1 <= n <= |ws| && AllJoin(ws, n) && size == TotalSize(ws[..n]) && updates == AllOps(ws[..n])
  }

  lemma StartGroup(ws: seq<Writer>)
    requires ws != []
    ensures Gathered(ws, 1, SizeOf(ws[0]), OpsOf(ws[0])) && (|ws| == 1 ==> IsGroup(ws, 1))
  {
    PrefixStep(ws, 0);
  }

  /** The next writer joins, or the group ends before it. */
  lemma GatherOne(ws: seq<Writer>, n: nat, size: nat, updates: seq<Operation>)
    requires Gathered(ws, n, size, updates) && n < |ws|
    ensures var w := ws[n];
      if (w.sync ==> ws[0].sync) && (w.batch.Some? ==> size + SizeOf(w) <= MaxSize(ws[0]))
      then Gathered(ws, n + 1, size + SizeOf(w), updates + OpsOf(w)) && (n + 1 == |ws| ==> IsGroup(ws, n + 1))
      else IsGroup(ws, n)
    ensures ws[n].batch.None? ==> SizeOf(ws[n]) == 0 && updates + OpsOf(ws[n]) == updates
  {
    PrefixStep(ws, n);
  }

  lemma PrefixStep(ws: seq<Writer>, n: nat)
    requires n < |ws|
    ensures ws[..n + 1][..n] == ws[..n] && ws[n..][1..] == ws[n + 1..]
    ensures TotalSize(ws[..n + 1]) == TotalSize(ws[..n]) + SizeOf(ws[n])
    ensures AllOps(ws[..n + 1]) == AllOps(ws[..n]) + OpsOf(ws[n])
  {
    assert ws[..n + 1][..n] == ws[..n];
  }
}
