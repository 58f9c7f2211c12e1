/** Batches into memtables, and a log back into memtables: db/write_batch.cc:110-136 and db/db_impl.cc:365-489. */
module LogReplay {
  import opened Keys
  import opened Sequences
  import opened Semantics
  import opened Tables
  import opened LogFormat
  import opened LogReader
  import opened WriteBatch
  import LogRecovery
  import Varint
  import Coding
  import SkipList
  import TableWork

  function EntryOf(op: Operation, n: nat): Entry {
    Entry(Rank(op.key), n, if op.PutKey? then Put(op.value) else Delete)
  }

  /** The entries of a batch: its operations numbered from its sequence number on. */
  function EntriesOf(sequence: nat, ops: seq<Operation>): (r: seq<Entry>)
    ensures |r| == |ops| && forall i {:trigger r[i]} :: 0 <= i < |r| ==> r[i] == EntryOf(ops[i], sequence + i)
  {
    seq(|ops|, i requires 0 <= i < |ops| => EntryOf(ops[i], sequence + i))
  }

  /** Entries added to a memtable one after another. */
  function AddAll(mem: seq<Entry>, es: seq<Entry>): seq<Entry> {
    if es == [] then mem else SkipList.Added(AddAll(mem, es[..|es| - 1]), es[|es| - 1])
  }

  lemma AddOneMore(mem: seq<Entry>, es: seq<Entry>, e: Entry)
    ensures AddAll(mem, es + [e]) == SkipList.Added(AddAll(mem, es), e)
  {
    assert (es + [e])[..|es|] == es;
  }

  lemma {:induction false} AddAllConcat(mem: seq<Entry>, es: seq<Entry>, fs: seq<Entry>)
    ensures AddAll(mem, es + fs) == AddAll(AddAll(mem, es), fs)
    decreases |fs|
  {
    if fs == [] {
      assert es + fs == es;
    } else {
      var init, e := fs[..|fs| - 1], fs[|fs| - 1];
      AddAllConcat(mem, es, init);
      assert es + fs == (es + init) + [e] && fs == init + [e];
      AddOneMore(mem, es + init, e);
      AddOneMore(AddAll(mem, es), init, e);
    }
  }

  lemma AddedHolds(es: seq<Entry>, e: Entry)
    ensures Elements(SkipList.Added(es, e)) == Elements(es) + {e}
  {
    var n := SeekIndex(es, IKey(e));
    assert es == es[..n] + es[n..];
    forall x ensures x in SkipList.Added(es, e) <==> x in es || x == e {
      assert x in es <==> x in es[..n] || x in es[n..];
    }
  }

  lemma {:induction false} AddAllHolds(mem: seq<Entry>, es: seq<Entry>)
    ensures Elements(AddAll(mem, es)) == Elements(mem) + Elements(es)
  {
    if es != [] {
      var init, e := es[..|es| - 1], es[|es| - 1];
      AddAllHolds(mem, init);
      AddedHolds(AddAll(mem, init), e);
      assert es == init + [e];
      assert Elements(es) == Elements(init) + {e};
    }
  }

  /** Sequence numbers increase. */
  /** With increasing sequence numbers no two entries are equal, so the memtable stays sorted. */
  lemma {:induction false} AddAllSorted(es: seq<Entry>)
    requires Ascending(es)
    ensures SortedEntries(AddAll([], es))
  {
    if es != [] {
      var init, e := es[..|es| - 1], es[|es| - 1];
      AddAllSorted(init);
      AddAllHolds([], init);
      forall x | x in AddAll([], init) ensures x.seqno != e.seqno {
        assert x in Elements(init);
      }
      TableWork.AddKeepsSorted(AddAll([], init), e);
    }
  }

  // ---------------------------------------------------------------------
  // A batch into a memtable
  // ---------------------------------------------------------------------

  /** What a batch puts into a memtable, up to its first malformed operation. */
  function BatchEntries(rep: Bytes): seq<Entry> {
    if |rep| < kHeader then [] else EntriesOf(Sequence(rep), Iterated(rep).0)
  }

  /** Iterating over a batch, each operation with the next sequence number. */
  method InsertInto(rep: Bytes, mem: seq<Entry>) returns (r: seq<Entry>, problem: Option<Problem>)
    ensures r == AddAll(mem, BatchEntries(rep)) && problem == Iterated(rep).1
  {
    if |rep| < kHeader {
      return mem, Some(TooSmall);
    }
    var found;
    r, found, problem := InsertOps(rep, kHeader, Sequence(rep), mem);
    if problem.None? && found != Count(rep) {
      problem := Some(WrongCount);
    }
  }

  /** The loop over the operations from position `start` on. */
  method InsertOps(rep: Bytes, start: nat, first: nat, mem: seq<Entry>)
      returns (r: seq<Entry>, found: nat, problem: Option<Problem>)
    ensures var (ops, bad) := ReadOps(rep, start);
      problem == bad && found == |ops| && r == AddAll(mem, EntriesOf(first, ops))
  {
    r, found, problem := mem, 0, None;
    var p: nat := start;
    ghost var done: seq<Operation> := [];
    NoneRead(rep, start);
    NoneAdded(mem, first);
    while p < |rep| && problem.None?
      invariant found == |done| && AddedFrom(mem, first, done, r) && Reading(rep, start, p, done, problem)
      decreases problem.None?, |rep| - p
    {
      r, p, problem, done := InsertOp(rep, start, first, mem, p, found, r, done);
      if problem.None? {
        found := found + 1;
      }
    }
    EndsReading(rep, start, p, done, problem);
  }

  /** The operation at position `p`, into the memtable. */
  method InsertOp(rep: Bytes, ghost start: nat, first: nat, ghost mem: seq<Entry>, p: nat, found: nat, before: seq<Entry>,
                  ghost done: seq<Operation>)
      returns (r: seq<Entry>, next: nat, problem: Option<Problem>, ghost rdone: seq<Operation>)
    requires p < |rep| && found == |done| && AddedFrom(mem, first, done, before) && Reading(rep, start, p, done, None)
    ensures AddedFrom(mem, first, rdone, r) && Reading(rep, start, next, rdone, problem)
    ensures if problem.None? then p < next <= |rep| && |rdone| == found + 1 else |rdone| == found
  {
    var (x, bad) := ReadOp(rep, p);
    if x.None? {
      StopsReading(rep, start, p, done);
      return before, p, Some(bad), done;
    }
    var op;
    op, next := x.value.0, x.value.1;
    OpTaken(rep, start, p, mem, first, done, op, next, before);
    r := SkipList.Added(before, EntryOf(op, first + found));
    problem, rdone := None, done + [op];
  }

  lemma OpTaken(rep: Bytes, start: nat, p: nat, mem: seq<Entry>, first: nat, done: seq<Operation>, op: Operation, next: nat, before: seq<Entry>)
    requires p < |rep| && AddedFrom(mem, first, done, before) && Reading(rep, start, p, done, None) && ReadOp(rep, p).0 == Some((op, next))
    ensures AddedFrom(mem, first, done + [op], SkipList.Added(before, EntryOf(op, first + |done|)))
    ensures Reading(rep, start, next, done + [op], None)
  {
    ReadsOp(rep, start, p, done, op, next);
    AddedOp(mem, first, done, op, before);
  }

  /** The loop is at position `p`, or has stopped at a problem. */
  predicate Reading(rep: Bytes, start: nat, p: nat, done: seq<Operation>, problem: Option<Problem>) {
    if problem.None? then ReadSoFar(rep, start, p, done) else ReadOps(rep, start) == (done, problem)
  }

  /** From `start` on, `done` are the operations before position `p`. */
  predicate ReadSoFar(rep: Bytes, start: nat, p: nat, done: seq<Operation>) {
    ReadOps(rep, start).0 == done + ReadOps(rep, p).0 && ReadOps(rep, start).1 == ReadOps(rep, p).1
  }

  lemma NoneRead(rep: Bytes, start: nat)
    ensures Reading(rep, start, start, [], None)
  {
    assert [] + ReadOps(rep, start).0 == ReadOps(rep, start).0;
  }

  lemma {:induction false} ReadsOp(rep: Bytes, start: nat, p: nat, done: seq<Operation>, op: Operation, next: nat)
    requires Reading(rep, start, p, done, None) && p < |rep| && ReadOp(rep, p).0 == Some((op, next))
    ensures Reading(rep, start, next, done + [op], None)
  {
    var rest := ReadOps(rep, next).0;
    assert ReadOps(rep, p).0 == [op] + rest;
    assert done + ([op] + rest) == done + [op] + rest;
  }

  lemma {:induction false} StopsReading(rep: Bytes, start: nat, p: nat, done: seq<Operation>)
    requires Reading(rep, start, p, done, None) && p < |rep| && ReadOp(rep, p).0.None?
    ensures Reading(rep, start, p, done, Some(ReadOp(rep, p).1))
  {
    assert done + [] == done;
  }

  lemma {:induction false} EndsReading(rep: Bytes, start: nat, p: nat, done: seq<Operation>, problem: Option<Problem>)
    requires Reading(rep, start, p, done, problem) && (problem.None? ==> p >= |rep|)
    ensures ReadOps(rep, start) == (done, problem)
  {
    assert done + [] == done;
  }

  /** The operations, numbered from `first` on, have been added to the memtable. */
  predicate AddedFrom(mem: seq<Entry>, first: nat, done: seq<Operation>, r: seq<Entry>) {
    r == AddAll(mem, EntriesOf(first, done))
  }

  lemma NoneAdded(mem: seq<Entry>, first: nat)
    ensures AddedFrom(mem, first, [], mem)
  {
    assert EntriesOf(first, []) == [];
  }

  lemma AddedOp(mem: seq<Entry>, first: nat, done: seq<Operation>, op: Operation, r: seq<Entry>)
    requires AddedFrom(mem, first, done, r)
    ensures AddedFrom(mem, first, done + [op], SkipList.Added(r, EntryOf(op, first + |done|)))
  {
    assert EntriesOf(first, done + [op]) == EntriesOf(first, done) + [EntryOf(op, first + |done|)];
    AddOneMore(mem, EntriesOf(first, done), EntryOf(op, first + |done|));
  }

  // ---------------------------------------------------------------------
  // A log into memtables
  // ---------------------------------------------------------------------

  /** The entries of the batches in a list of records, in order. */
  function Gathered(records: seq<Bytes>): seq<Entry> {
    if records == [] then [] else Gathered(records[..|records| - 1]) + BatchEntries(records[|records| - 1])
  }

  /** A record that recovery has nothing to say against. */
  predicate GoodBatch(record: Bytes) {
    |record| >= kHeader && Iterated(record).1 == None
  }

  predicate AllGood(records: seq<Bytes>) {
    forall i :: 0 <= i < |records| ==> GoodBatch(records[i])
  }

  /** A log without corruptions and bad batches. */
  predicate GoodLog(crc: Crc, file: Bytes) {
    ReadAll(crc, true, file, Start).1 == 0 && AllGood(ReadAll(crc, true, file, Start).0)
  }

  function Max(a: nat, b: nat): nat {
    if a < b then b else a
  }

  /** The last sequence number that the headers of the batches promise. */
  function LastPromised(records: seq<Bytes>): nat {
    if records == [] then 0 else Promised(LastPromised(records[..|records| - 1]), records[|records| - 1])
  }

  /** The largest number so far, with one more batch. */
  function Promised(before: nat, record: Bytes): nat {
    if |record| < kHeader then before
    else Max(before, if Sequence(record) + Count(record) == 0 then 0 else Sequence(record) + Count(record) - 1)
  }

  /** The memtables, one after another, hold the entries in order. */
  predicate Hold(tables: seq<seq<Entry>>, parts: seq<seq<Entry>>) {
    |tables| == |parts| && forall i :: 0 <= i < |tables| ==> tables[i] == AddAll([], parts[i])
  }

  // ---------------------------------------------------------------------
  // Where a memtable ends
  // ---------------------------------------------------------------------

  /** The records that are long enough to be batches. */
  function Batches(records: seq<Bytes>): seq<Bytes> {
    if records == [] then []
    else
      var last := records[|records| - 1];
      Batches(records[..|records| - 1]) + if |last| < kHeader then [] else [last]
  }

  /** Whether the memtable behind some batches is full. */
  function Fills(full: seq<Entry> -> bool): seq<Bytes> -> bool {
    (run: seq<Bytes>) => full(AddAll([], Gathered(run)))
  }

  /** A memtable takes batches until it is full. */
  predicate Filling(run: seq<Bytes>, fills: seq<Bytes> -> bool) {
    run != [] && forall k :: 0 < k < |run| ==> !fills(run[..k])
  }

  /** Every memtable but one that is open at the end is full with its last batch, and not before. */
  predicate Cut(runs: seq<seq<Bytes>>, open: bool, fills: seq<Bytes> -> bool) {
    && (open ==> runs != [])
    && (forall i :: 0 <= i < |runs| ==> Filling(runs[i], fills))
    && forall i :: 0 <= i < |runs| ==> (fills(runs[i]) <==> !(open && i == |runs| - 1))
  }

  /** No memtable gets full. */
  predicate NeverFull(batches: seq<Bytes>, fills: seq<Bytes> -> bool) {
    forall k :: 0 < k <= |batches| ==> !fills(batches[..k])
  }

  lemma NoneClosed(runs: seq<seq<Bytes>>, open: bool, fills: seq<Bytes> -> bool)
    requires Cut(runs, open, fills)
    ensures |runs| == (if open then 1 else 0) <==> NeverFull(Flat(runs), fills)
  {
    if |runs| == if open then 1 else 0 {
      if open {
        assert runs == [runs[0]];
        OpenNeverFull(runs[0], fills);
      }
    } else {
      var run := runs[0];
      FlatHead(runs);
      assert Flat(runs)[..|run|] == run;
      assert fills(Flat(runs)[..|run|]);
    }
  }

  lemma OpenNeverFull(run: seq<Bytes>, fills: seq<Bytes> -> bool)
    requires Filling(run, fills) && !fills(run)
    ensures NeverFull(Flat([run]), fills)
  {
    FlatOne(run);
    assert run[..|run|] == run;
  }

  lemma FlatOne<T>(run: seq<T>)
    ensures Flat([run]) == run
  {
    assert [run][..0] == [];
    assert Flat([run]) == Flat([run][..0]) + run;
  }

  lemma BatchesMore(done: seq<Bytes>, record: Bytes)
    ensures Batches(done + [record]) == Batches(done) + if |record| < kHeader then [] else [record]
  {
    assert (done + [record])[..|done|] == done;
  }

  /** One more batch for the open memtable, or for a new one. */
  function RunsWith(runs: seq<seq<Bytes>>, open: bool, record: Bytes): seq<seq<Bytes>> {
    if open && runs != [] then runs[|runs| - 1 := runs[|runs| - 1] + [record]] else runs + [[record]]
  }

  lemma CutMore(runs: seq<seq<Bytes>>, open: bool, fills: seq<Bytes> -> bool, record: Bytes)
    requires Cut(runs, open, fills)
    ensures var more := RunsWith(runs, open, record);
      && Cut(more, !fills(more[|more| - 1]), fills)
      && Flat(more) == Flat(runs) + [record]
      && more[|more| - 1] == (if open then runs[|runs| - 1] else []) + [record]
      && |more| == |runs| + if open then 0 else 1
  {
    var more := RunsWith(runs, open, record);
    var n := |more| - 1;
    if open {
      var run := runs[n];
      RunGrows(run, record, fills);
      assert more[..n] == runs[..n];
      assert Flat(runs[..n]) + (run + [record]) == Flat(runs[..n]) + run + [record];
    } else {
      assert more[..n] == runs;
      assert [record][..0] == [];
    }
  }

  lemma RunGrows(run: seq<Bytes>, record: Bytes, fills: seq<Bytes> -> bool)
    requires Filling(run, fills) && !fills(run)
    ensures Filling(run + [record], fills)
  {
    var more := run + [record];
    forall k | 0 < k < |more| ensures !fills(more[..k]) {
      assert more[..k] == if k == |run| then run else run[..k];
    }
  }

  /** The parts are those of the runs. */
  predicate PartsOf(parts: seq<seq<Entry>>, runs: seq<seq<Bytes>>) {
    |parts| == |runs| && forall i :: 0 <= i < |parts| ==> parts[i] == Gathered(runs[i])
  }

  /** The memtables so far are cut where they were full. */
  ghost predicate CutUpTo(x: Progress, parts: seq<seq<Entry>>, runs: seq<seq<Bytes>>, done: seq<Bytes>, full: seq<Entry> -> bool) {
    && PartsOf(parts, runs) && Cut(runs, x.open, Fills(full)) && x.compactions == |runs| - (if x.open then 1 else 0)
    && (x.ok ==> Flat(runs) == Batches(done))
  }

  /** The local variables of the replay: the memtables so far, the last of which may still be open. */
  datatype Progress = Progress(ok: bool, tables: seq<seq<Entry>>, open: bool, compactions: nat, maxSequence: nat)

  predicate Replayed(x: Progress, parts: seq<seq<Entry>>, done: seq<Bytes>, paranoid: bool) {
    && Hold(x.tables, parts) && (x.open ==> x.tables != [])
    && (x.compactions == 0 ==> |x.tables| == if x.open then 1 else 0)
    && (x.ok <==> !paranoid || AllGood(done))
    && (x.ok ==> Flat(parts) == Gathered(done) && x.maxSequence == LastPromised(done))
  }

  /** One batch for the memtable at the end of the list, which is opened if there is none. */
  method ReplayBatch(record: Bytes, tables: seq<seq<Entry>>, open: bool, ghost parts: seq<seq<Entry>>)
      returns (problem: Option<Problem>, r: seq<seq<Entry>>, ghost rparts: seq<seq<Entry>>)
    requires Hold(tables, parts) && (open ==> tables != [])
    ensures Hold(r, rparts) && Flat(rparts) == Flat(parts) + BatchEntries(record)
    ensures rparts == PartsWith(parts, open, BatchEntries(record))
    ensures problem == Iterated(record).1 && |r| == |tables| + (if open then 0 else 1) && r != []
  {
    ghost var es := BatchEntries(record);
    rparts := PartsWith(parts, open, es);
    var mem;
    mem, problem := InsertInto(record, if open then tables[|tables| - 1] else []);
    r := if open then tables[|tables| - 1 := mem] else tables + [mem];
    BatchHeld(tables, parts, open, es);
  }

  lemma BatchHeld(tables: seq<seq<Entry>>, parts: seq<seq<Entry>>, open: bool, es: seq<Entry>)
    requires Hold(tables, parts) && (open ==> tables != [])
    ensures open ==> var n := |tables| - 1; Hold(tables[n := AddAll(tables[n], es)], PartsWith(parts, open, es))
    ensures !open ==> Hold(tables + [AddAll([], es)], PartsWith(parts, open, es))
    ensures Flat(PartsWith(parts, open, es)) == Flat(parts) + es
  {
    if open {
      AddAllConcat([], parts[|parts| - 1], es);
      LastGrows(parts, es);
    } else {
      assert (parts + [es])[..|parts|] == parts;
    }
  }

  /** One record: too small, or a batch; a full memtable is closed. */
  method ReplayRecord(record: Bytes, paranoid: bool, full: seq<Entry> -> bool, x: Progress, ghost parts: seq<seq<Entry>>,
                      ghost runs: seq<seq<Bytes>>, ghost done: seq<Bytes>)
      returns (y: Progress, ghost rparts: seq<seq<Entry>>, ghost rruns: seq<seq<Bytes>>)
    requires x.ok && Replayed(x, parts, done, paranoid) && CutUpTo(x, parts, runs, done, full)
    ensures Replayed(y, rparts, done + [record], paranoid) && CutUpTo(y, rparts, rruns, done + [record], full)
  {
    if |record| < kHeader {
      y, rparts, rruns := x.(ok := !paranoid), parts, runs;
      RecordIgnored(x, y, parts, runs, done, record, paranoid, full);
    } else {
      y, rparts := TakeBatch(record, paranoid, full, x, parts);
      rruns := RunsWith(runs, x.open, record);
      BatchTaken(x, y, parts, runs, done, record, rparts, full);
      BatchReplayed(x, y, parts, done, record, rparts, paranoid);
    }
  }

  /** The parts with the entries of one more batch. */
  function PartsWith(parts: seq<seq<Entry>>, open: bool, es: seq<Entry>): seq<seq<Entry>> {
    if open && parts != [] then parts[|parts| - 1 := parts[|parts| - 1] + es] else parts + [es]
  }

  method TakeBatch(record: Bytes, paranoid: bool, full: seq<Entry> -> bool, x: Progress, ghost parts: seq<seq<Entry>>)
      returns (y: Progress, ghost rparts: seq<seq<Entry>>)
    requires Hold(x.tables, parts) && (x.open ==> x.tables != [])
    ensures Hold(y.tables, rparts) && Flat(rparts) == Flat(parts) + BatchEntries(record) && rparts == PartsWith(parts, x.open, BatchEntries(record))
    ensures |y.tables| == |x.tables| + (if x.open then 0 else 1) && y.tables != []
    ensures y.open == !full(y.tables[|y.tables| - 1]) && y.compactions == x.compactions + if y.open then 0 else 1
    ensures y.ok == (Iterated(record).1.None? || !paranoid) && y.maxSequence == Promised(x.maxSequence, record)
  {
    var problem, tables;
    problem, tables, rparts := ReplayBatch(record, x.tables, x.open, parts);
    var close := full(tables[|tables| - 1]);
    y := Progress(problem.None? || !paranoid, tables, !close, x.compactions + if close then 1 else 0,
                Promised(x.maxSequence, record));
  }

  lemma RecordIgnored(x: Progress, y: Progress, parts: seq<seq<Entry>>, runs: seq<seq<Bytes>>, done: seq<Bytes>, record: Bytes,
                      paranoid: bool, full: seq<Entry> -> bool)
    requires x.ok && Replayed(x, parts, done, paranoid) && CutUpTo(x, parts, runs, done, full)
    requires |record| < kHeader && y == x.(ok := !paranoid)
    ensures Replayed(y, parts, done + [record], paranoid) && CutUpTo(y, parts, runs, done + [record], full)
  {
    GatherMore(done, record);
    GoodMore(done, record);
    BatchesMore(done, record);
    assert Flat(parts) + [] == Flat(parts);
    assert Flat(runs) + [] == Flat(runs);
  }

  lemma BatchReplayed(x: Progress, y: Progress, parts: seq<seq<Entry>>, done: seq<Bytes>, record: Bytes, rparts: seq<seq<Entry>>, paranoid: bool)
    requires x.ok && Replayed(x, parts, done, paranoid) && |record| >= kHeader
    requires Hold(y.tables, rparts) && Flat(rparts) == Flat(parts) + BatchEntries(record)
    requires |y.tables| == |x.tables| + (if x.open then 0 else 1) && y.tables != []
    requires y.compactions == x.compactions + if y.open then 0 else 1
    requires y.ok == (Iterated(record).1.None? || !paranoid) && y.maxSequence == Promised(x.maxSequence, record)
    ensures Replayed(y, rparts, done + [record], paranoid)
  {
    GatherMore(done, record);
    GoodMore(done, record);
  }

  lemma BatchTaken(x: Progress, y: Progress, parts: seq<seq<Entry>>, runs: seq<seq<Bytes>>, done: seq<Bytes>, record: Bytes,
                   rparts: seq<seq<Entry>>, full: seq<Entry> -> bool)
    requires CutUpTo(x, parts, runs, done, full) && x.ok && |record| >= kHeader
    requires rparts == PartsWith(parts, x.open, BatchEntries(record))
    requires Hold(y.tables, rparts) && y.tables != []
    requires y.open == !full(y.tables[|y.tables| - 1]) && y.compactions == x.compactions + if y.open then 0 else 1
    ensures CutUpTo(y, rparts, RunsWith(runs, x.open, record), done + [record], full)
  {
    var more := RunsWith(runs, x.open, record);
    BatchesMore(done, record);
    CutMore(runs, x.open, Fills(full), record);
    PartsMore(parts, runs, x.open, record, rparts);
    FullAgrees(y.tables, rparts, more, full);
  }

  lemma FullAgrees(tables: seq<seq<Entry>>, parts: seq<seq<Entry>>, runs: seq<seq<Bytes>>, full: seq<Entry> -> bool)
    requires Hold(tables, parts) && PartsOf(parts, runs) && runs != []
    ensures full(tables[|tables| - 1]) == Fills(full)(runs[|runs| - 1])
  {
  }

  lemma PartsMore(parts: seq<seq<Entry>>, runs: seq<seq<Bytes>>, open: bool, record: Bytes, rparts: seq<seq<Entry>>)
    requires PartsOf(parts, runs) && (open ==> runs != [])
    requires rparts == PartsWith(parts, open, BatchEntries(record))
    ensures PartsOf(rparts, RunsWith(runs, open, record))
  {
    if open {
      GatherMore(runs[|runs| - 1], record);
    } else {
      GatherMore([], record);
      assert [] + [record] == [record];
    }
  }

  lemma LastGrows(parts: seq<seq<Entry>>, es: seq<Entry>)
    requires parts != []
    ensures var n := |parts| - 1; Flat(parts[n := parts[n] + es]) == Flat(parts) + es
  {
    var n := |parts| - 1;
    assert parts[n := parts[n] + es][..n] == parts[..n];
    assert Flat(parts[..n]) + (parts[n] + es) == Flat(parts[..n]) + parts[n] + es;
  }

  /**
   * RecoverLogFile: the memtables that the log fills, one after another. A memtable is written out when it
   * is full; `reuse` keeps the last one if it is the only one. Without paranoid checks problems are ignored.
   */
  method RecoverLogFile(crc: Crc, file: Bytes, paranoid: bool, reuse: bool, full: seq<Entry> -> bool)
      returns (ok: bool, tables: seq<seq<Entry>>, kept: Option<seq<Entry>>, maxSequence: nat, ghost parts: seq<seq<Entry>>,
               ghost runs: seq<seq<Bytes>>)
    ensures ok <==> !paranoid || GoodLog(crc, file)
    ensures ok ==> var records := ReadAll(crc, true, file, Start).0; Flat(parts) == Gathered(records) && maxSequence == LastPromised(records)
    ensures Hold(tables + if kept.Some? then [kept.value] else [], parts)
    ensures kept.Some? ==> tables == []
    ensures kept.Some? <==> ok && reuse && NeverFull(Batches(ReadAll(crc, true, file, Start).0), Fills(full))
    ensures ok ==> Flat(runs) == Batches(ReadAll(crc, true, file, Start).0) && exists open :: Cut(runs, open, Fills(full))
    ensures kept.None? ==> PartsOf(parts, runs)
  {
    var x := Progress(true, [], false, 0, 0);
    parts, runs := [], [];
    ghost var done: seq<Bytes> := [];
    var reader := new Reader(crc, true, file);
    FirstRemains(crc, file, reader.Abs());
    var record := reader.ReadRecord();
    while record.Some? && x.ok && (!paranoid || reader.reports == 0)
      invariant AmongAll(crc, file, Start, done, record, reader.Abs()) && Replayed(x, parts, done, paranoid)
      invariant CutUpTo(x, parts, runs, done, full)
      decreases record.Some?, |file| - Position(reader.Abs())
    {
      NextRemains(crc, file, Start, done, record.value, reader.Abs());
      x, parts, runs := ReplayRecord(record.value, paranoid, full, x, parts, runs, done);
      done := done + [record.value];
      record := reader.ReadRecord();
    }
    ReplayEnds(crc, file, paranoid, record, reader.Abs(), done);
    ok, maxSequence := x.ok && (!paranoid || reader.reports == 0), x.maxSequence;
    NoneClosed(runs, x.open, Fills(full));
    tables, kept, parts := KeepLast(x, ok && reuse, parts);
  }

  /** The last memtable stays in memory if it is the only one and may be reused. */
  method KeepLast(x: Progress, reuse: bool, ghost parts: seq<seq<Entry>>)
      returns (tables: seq<seq<Entry>>, kept: Option<seq<Entry>>, ghost r: seq<seq<Entry>>)
    requires Hold(x.tables, parts) && (x.compactions == 0 ==> |x.tables| == if x.open then 1 else 0)
    ensures Hold(tables + (if kept.Some? then [kept.value] else []), r) && Flat(r) == Flat(parts)
    ensures kept.Some? ==> tables == []
    ensures kept.Some? <==> reuse && x.compactions == 0
    ensures kept.None? ==> r == parts
  {
    tables, kept, r := x.tables, None, parts;
    if reuse && x.compactions == 0 {
      if x.open {
        kept, tables := Some(tables[0]), [];
      } else {
        EmptyPart(parts);
        kept, r := Some([]), parts + [[]];
      }
    }
    assert kept.None? ==> tables + [] == tables;
  }

  lemma EmptyPart(parts: seq<seq<Entry>>)
    ensures Flat(parts + [[]]) == Flat(parts)
  {
    assert (parts + [[]])[..|parts|] == parts;
    assert Flat(parts) + [] == Flat(parts);
  }

  lemma GatherMore(done: seq<Bytes>, record: Bytes)
    ensures Gathered(done + [record]) == Gathered(done) + BatchEntries(record)
    ensures LastPromised(done + [record]) == Promised(LastPromised(done), record)
  {
    assert (done + [record])[..|done|] == done;
  }

  lemma GoodMore(done: seq<Bytes>, record: Bytes)
    ensures AllGood(done + [record]) <==> AllGood(done) && GoodBatch(record)
  {
    var all := done + [record];
    assert all[|done|] == record && forall i :: 0 <= i < |done| ==> all[i] == done[i];
  }

  lemma ReplayEnds(crc: Crc, file: Bytes, paranoid: bool, record: Option<Bytes>, r: ReaderState, done: seq<Bytes>)
    requires AmongAll(crc, file, Start, done, record, r)
    ensures var (records, reports) := ReadAll(crc, true, file, Start);
      && reports >= r.reports
      && (!AllGood(done) ==> !AllGood(records))
      && (record.None? ==> records == done && reports == r.reports)
  {
    var (records, reports) := ReadAll(crc, true, file, Start);
    ReportsGrow(crc, true, file, r);
    if i :| 0 <= i < |done| && !GoodBatch(done[i]) {
      assert records[i] == done[i];
    }
  }

  // ---------------------------------------------------------------------
  // What a log gives back
  // ---------------------------------------------------------------------

  /** A group of writes, as it goes into the log. */
  datatype Group = Group(sequence: nat, ops: seq<Operation>)

  predicate FitsGroup(g: Group) {
    g.sequence < Varint.TWO_64 && |g.ops| < Coding.TWO_32 && forall i :: 0 <= i < |g.ops| ==> FitsOp(g.ops[i])
  }

  predicate AllFit(groups: seq<Group>) {
    forall i :: 0 <= i < |groups| ==> FitsGroup(groups[i])
  }

  /** The records that the writer makes of the groups. */
  function Reps(groups: seq<Group>): (r: seq<Bytes>)
    requires AllFit(groups)
    ensures |r| == |groups| && forall i {:trigger r[i]} :: 0 <= i < |r| ==> r[i] == Rep(groups[i].sequence, groups[i].ops)
  {
    seq(|groups|, i requires 0 <= i < |groups| => Rep(groups[i].sequence, groups[i].ops))
  }

  function GroupEntries(groups: seq<Group>): seq<Entry> {
    if groups == [] then []
    else GroupEntries(groups[..|groups| - 1]) + EntriesOf(groups[|groups| - 1].sequence, groups[|groups| - 1].ops)
  }

  /** The last sequence number of a group; one that is empty takes none. */
  function LastOf(g: Group): nat {
    if g.sequence + |g.ops| == 0 then 0 else g.sequence + |g.ops| - 1
  }

  /** The largest of them. */
  function LastNumber(groups: seq<Group>): nat {
    if groups == [] then 0 else Max(LastNumber(groups[..|groups| - 1]), LastOf(groups[|groups| - 1]))
  }

  lemma {:induction false} LastNumberIs(groups: seq<Group>, n: nat)
    ensures LastNumber(groups) <= n <==> forall i :: 0 <= i < |groups| ==> LastOf(groups[i]) <= n
  {
    if groups != [] {
      LastNumberIs(groups[..|groups| - 1], n);
    }
  }

  lemma RepIsGood(g: Group)
    requires FitsGroup(g)
    ensures GoodBatch(Rep(g.sequence, g.ops)) && BatchEntries(Rep(g.sequence, g.ops)) == EntriesOf(g.sequence, g.ops)
    ensures Sequence(Rep(g.sequence, g.ops)) == g.sequence && Count(Rep(g.sequence, g.ops)) == |g.ops|
  {
    BatchRoundTrip(g.sequence, g.ops);
  }

  lemma RepsStep(groups: seq<Group>, n: nat)
    requires AllFit(groups) && n + 1 == |groups|
    ensures AllFit(groups[..n]) && FitsGroup(groups[n])
    ensures Reps(groups) == Reps(groups[..n]) + [Rep(groups[n].sequence, groups[n].ops)]
  {
  }

  lemma {:induction false} RepsGathered(groups: seq<Group>)
    requires AllFit(groups)
    ensures Gathered(Reps(groups)) == GroupEntries(groups) && AllGood(Reps(groups))
    ensures LastPromised(Reps(groups)) == LastNumber(groups)
  {
    if groups != [] {
      var n := |groups| - 1;
      RepsStep(groups, n);
      RepsGathered(groups[..n]);
      var before, rep := Reps(groups[..n]), Rep(groups[n].sequence, groups[n].ops);
      RepIsGood(groups[n]);
      GatherMore(before, rep);
      GoodMore(before, rep);
    }
  }

  lemma RepsPrefix(groups: seq<Group>, m: nat)
    requires AllFit(groups) && m <= |groups|
    ensures AllFit(groups[..m]) && Reps(groups)[..m] == Reps(groups[..m])
  {
  }

  /** Whatever part of a log is left, it gives back the groups that are wholly inside it. */
  lemma LogGivesBack(crc: Crc, groups: seq<Group>, n: nat) returns (m: nat)
    requires AllFit(groups) && n <= |EncodeAll(crc, Reps(groups))|
    ensures m <= |groups| && forall i :: 0 <= i <= |groups| ==> (i <= m <==> |EncodeAll(crc, Reps(groups)[..i])| <= n)
    ensures var (records, reports) := ReadAll(crc, true, EncodeAll(crc, Reps(groups))[..n], Start);
      && reports == 0 && AllGood(records) && Gathered(records) == GroupEntries(groups[..m])
      && LastPromised(records) == LastNumber(groups[..m])
  {
    m := LogRecovery.CrashPrefix(crc, true, Reps(groups), n);
    RepsPrefix(groups, m);
    RepsGathered(groups[..m]);
  }
}
