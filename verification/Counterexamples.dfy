/**
 * A run with automatic compactions after which a deleted key is back: the marker of the key is
 * dropped while a value of it is left behind in a boundary file at level+1.
 */
module Counterexamples {
  import opened Keys
  import opened Semantics
  import opened Tables
  import opened Versions
  import opened Overlap
  import opened Gaps
  import opened Inputs
  import opened Picks
  import opened Filter
  import opened Compactions
  import opened Cutting
  import opened Levels
  import opened Database
  import opened Runs
  import opened Uncut
  import opened Automatic

  const X: Bytes := [1]
  /** A value that all but fills a file. */
  function Big(): (b: Bytes)
    ensures |b| == kMaxFileSize - 10
  {
    seq(kMaxFileSize - 10, _ => 1)
  }

  /** The numbers 2 and 3 stand for any two keys of one byte in that order. */
  const Put3 := Entry(3.0, 1, Put(X))
  const Del3 := Entry(3.0, 2, Delete)
  const Put2 := Entry(2.0, 3, Put(Big()))
  const Again2 := Entry(2.0, 4, Put(X))

  /** One byte for the key and eight for the sequence number and type, then the value. */
  function EntrySize(e: Entry): nat {
    9 + if e.op.Put? then |e.op.value| else 0
  }

  /** The file size behind an entry, as if every entry ended a block. */
  function FileSize(es: seq<Entry>): nat {
    if es == [] then 0 else FileSize(es[..|es| - 1]) + EntrySize(es[|es| - 1])
  }

  /** The first two flushes, and the two files a compaction makes of them while a snapshot is live. */
  const Bottom := NewFile(2, 10, [Put3])
  const Flushed := NewFile(3, kMaxFileSize + 8, [Put2, Del3])
  const Left := NewFile(4, kMaxFileSize + 8, [Put2, Del3])
  const Right := NewFile(5, 10, [Put3])
  /** The third flush and what the last compaction makes of it. */
  const Upper := NewFile(6, 10, [Again2])
  const Merged := NewFile(7, 10, [Again2])

  /** A version whose files are all in levels one and two. */
  function Shallow(level1: seq<File>, level2: seq<File>): Version {
    [[], level1, level2, [], [], [], []]
  }

  const FirstCompaction := Running(1, [Flushed], [Bottom], Shallow([Flushed], [Bottom]), 1)
  const LastCompaction := Running(1, [Upper], [Left], Shallow([Upper], [Left, Right]), 4)

  function S1(): State { Init().(mem := [Put3], lastSequence := 1, history := [Put3]) }
  function S2(): State { S1().(mem := [], imm := Some([Put3])) }
  function S3(): State { S2().(imm := None, version := Shallow([], [Bottom]), nextFile := 3) }
  function S4(): State { S3().(snapshots := [1]) }
  function S5(): State { S4().(mem := [Put2, Del3], lastSequence := 3, history := [Put3, Del3, Put2]) }
  function S6(): State { S5().(mem := [], imm := Some([Put2, Del3])) }
  function S7(): State { S6().(imm := None, version := Shallow([Flushed], [Bottom]), nextFile := 4) }
  function S8(): State { S7().(running := Some(FirstCompaction)) }
  function S9(): State { S8().(running := None, version := Shallow([], [Left, Right]), nextFile := 6) }
  function S10(): State { S9().(snapshots := []) }
  function S11(): State { S10().(mem := [Again2], lastSequence := 4, history := [Put3, Del3, Put2, Again2]) }
  function S12(): State { S11().(mem := [], imm := Some([Again2])) }
  function S13(): State { S12().(imm := None, version := Shallow([Upper], [Left, Right]), nextFile := 7) }
  function Started(): State { S13().(running := Some(LastCompaction)) }
  function Finished(): State { Started().(running := None, version := Shallow([], [Merged, Right]), nextFile := 8) }

  ghost predicate Reached(s: State) {
    AutoReachable(s, kOverlapLimit)
  }

  // ---------------------------------------------------------------------
  // One more step
  // ---------------------------------------------------------------------

  lemma WriteReaches(s: State, t: State, ops: seq<(UserKey, Op)>)
    requires Reached(s) && WriteStep(s, t, ops)
    ensures Reached(t)
  {
    AutoReachesNext(s, t, kOverlapLimit);
  }

  lemma FlushReaches(s: State, mid: State, t: State, level: nat, size: nat)
    requires Reached(s) && SwitchStep(s, mid) && PickedFlush(mid, t, level, size, kOverlapLimit)
    ensures Reached(t)
  {
    AutoReachesNext(s, mid, kOverlapLimit);
    AutoReachesNext(mid, t, kOverlapLimit);
  }

  lemma BeginReaches(s: State, t: State, c: Running)
    requires Reached(s) && PickedBegin(s, t, c, kOverlapLimit)
    ensures Reached(t)
  {
    AutoReachesNext(s, t, kOverlapLimit);
  }

  lemma InstallReaches(s: State, t: State, merged: seq<Entry>, outputs: seq<File>)
    requires Reached(s) && InstallStep(s, t, merged, outputs)
    ensures Reached(t)
  {
    AutoReachesNext(s, t, kOverlapLimit);
  }

  // ---------------------------------------------------------------------
  // Selections
  // ---------------------------------------------------------------------

  lemma SelectOne(f: File, lo: UserKey, hi: UserKey)
    requires Meets(f, Some(lo), Some(hi))
    ensures Select([f], Some(lo), Some(hi)) == [f] && TotalFileSize([f]) == f.size
  {
    assert [f][..0] == [];
    assert Select([], Some(lo), Some(hi)) == [] && TotalFileSize([]) == 0;
  }

  lemma SelectFirst(f: File, g: File, lo: UserKey, hi: UserKey)
    requires Meets(f, Some(lo), Some(hi)) && !Meets(g, Some(lo), Some(hi))
    ensures Select([f, g], Some(lo), Some(hi)) == [f]
  {
    SelectOne(f, lo, hi);
    assert [f, g][..1] == [f];
  }

  lemma SelectNone(lo: UserKey, hi: UserKey)
    ensures Select([], Some(lo), Some(hi)) == [] && TotalFileSize([]) == 0
  {
  }

  /** A file flushed over level two stops at level one. */
  lemma StopsAtOne(v: Version, f: File, lo: UserKey, hi: UserKey)
    requires |v| == kNumLevels && |v[0]| == 0 && |v[1]| == 0 && f in v[2] && Meets(f, Some(lo), Some(hi))
    requires Select(v[2], Some(lo), Some(hi)) == [f] && f.size <= kOverlapLimit
    ensures IsPicked(v, 1, lo, hi, kOverlapLimit)
  {
    SelectOne(f, lo, hi);
    assert !MetAt(v, 0, lo, hi) && !MetAt(v, 1, lo, hi) && MetAt(v, 2, lo, hi);
    assert !StopsAt(v, 0, lo, hi, kOverlapLimit) && StopsAt(v, 1, lo, hi, kOverlapLimit);
  }

  lemma SinksToTwo(lo: UserKey, hi: UserKey)
    ensures IsPicked(Shallow([], []), 2, lo, hi, kOverlapLimit)
  {
    var v := Shallow([], []);
    SelectNone(lo, hi);
    assert forall l :: 0 <= l < |v| ==> v[l] == [];
  }

  // ---------------------------------------------------------------------
  // Writes, snapshots and flushes
  // ---------------------------------------------------------------------

  lemma ReachS1()
    ensures Reached(S1())
  {
    assert AutoReaches([Init()], Init(), kOverlapLimit);
    assert Numbering(0, [(3.0, Put(X))]) == [Put3];
    assert [] + [Put3] == [Put3];
    WriteReaches(Init(), S1(), [(3.0, Put(X))]);
  }

  lemma ReachS4()
    ensures Reached(S4())
  {
    ReachS1();
    SinksToTwo(3.0, 3.0);
    assert S2().version == Shallow([], []);
    PickedIsFree(S2().version, 2, 3.0, 3.0, kOverlapLimit);
    FlushReaches(S1(), S2(), S3(), 2, 10);
    assert SnapshotStep(S3(), S4());
    AutoReachesNext(S3(), S4(), kOverlapLimit);
  }

  lemma ReachS5()
    ensures Reached(S5())
  {
    ReachS4();
    assert Numbering(1, [(3.0, Delete), (2.0, Put(Big()))]) == [Del3, Put2];
    assert [Put3] + [Del3, Put2] == [Put3, Del3, Put2];
    WriteReaches(S4(), S5(), [(3.0, Delete), (2.0, Put(Big()))]);
  }

  lemma SecondFlush()
    ensures PickedFlush(S6(), S7(), 1, kMaxFileSize + 8, kOverlapLimit)
  {
    SelectOne(Bottom, 2.0, 3.0);
    StopsAtOne(S6().version, Bottom, 2.0, 3.0);
    PickedIsFree(S6().version, 1, 2.0, 3.0, kOverlapLimit);
  }

  lemma ReachS7()
    ensures Reached(S7())
  {
    ReachS5();
    SecondFlush();
    FlushReaches(S5(), S6(), S7(), 1, kMaxFileSize + 8);
  }

  lemma ReachS11()
    ensures Reached(S11())
  {
    ReachS10();
    assert Numbering(3, [(2.0, Put(X))]) == [Again2];
    assert [Put3, Del3, Put2] + [Again2] == [Put3, Del3, Put2, Again2];
    WriteReaches(S10(), S11(), [(2.0, Put(X))]);
  }

  lemma ThirdFlush()
    ensures PickedFlush(S12(), S13(), 1, 10, kOverlapLimit)
  {
    SelectFirst(Left, Right, 2.0, 2.0);
    StopsAtOne(S12().version, Left, 2.0, 2.0);
    PickedIsFree(S12().version, 1, 2.0, 2.0, kOverlapLimit);
  }

  lemma ReachS13()
    ensures Reached(S13())
  {
    ReachS11();
    ThirdFlush();
    FlushReaches(S11(), S12(), S13(), 1, 10);
  }

  // ---------------------------------------------------------------------
  // Compactions of one file with one file below it
  // ---------------------------------------------------------------------

  /** One file of level one with the one file it meets below is a choice, without a gap, and no trivial move. */
  lemma OneAndOne(v: Version, f: File, g: File)
    requires |v| == kNumLevels && v[1] == [f] && Ordered(f) && Ordered(g) && KeyAtMost(f.smallest, f.largest)
    requires Select(v[2], Some(f.smallest.user), Some(f.largest.user)) == [g] && Meets(g, Some(f.smallest.user), Some(f.largest.user))
    ensures Selected(v, 1, [f], [g]) && Gapless([f] + [g])
    ensures !MovesTrivially(v, 1, [f], [g], kOverlapLimit)
  {
    assert IsSmallest([f], f.smallest) && IsLargest([f], f.largest);
    assert Seed(v, 1, [f]);
    assert NextLevelChosen(v, 1, [f], [g]);
    SingleIsGapless(f);
    assert f in [f] && MeetsHull(g, [f]);
    GaplessGrows([f], [g]);
  }

  /** Nor can it grow: it is what the code chooses for that file, whatever the limit for expanding it is. */
  lemma OneIsChosen(v: Version, f: File, g: File, limit: nat)
    requires |v| == kNumLevels && v[1] == [f] && Ordered(f) && Ordered(g) && KeyAtMost(f.smallest, f.largest)
    requires NextLevelChosen(v, 1, [f], [g])
    ensures AutomaticChoice(v, 1, f, limit, Pick(1, [f], [g], []))
  {
    OneInRange(v, f, g);
    NoneBehind(v[1], f);
    WiderFrom(v, 1, [f] + [g], [f], [f]);
    WiderTooLarge(v, 1, [f], [g], limit, [f]);
    SetUpFrom(v, 1, [f], limit, [f], [g], [f], [g]);
    ChoiceFrom(v, 1, f, limit, [f], Pick(1, [f], [g], []));
  }

  /** The range of both files meets only the one at level one. */
  lemma OneInRange(v: Version, f: File, g: File)
    requires |v| == kNumLevels && v[1] == [f] && Ordered(f) && Ordered(g)
    ensures RangeSeed(v, 1, [f] + [g], [f])
  {
    var a, b := RangeOfTwo(f, g);
    SelectOne(f, a.user, b.user);
    assert LeastSelection(v, 1, Some(a.user), Some(b.user), Some(a.user), Some(b.user));
  }

  lemma RangeOfTwo(f: File, g: File) returns (a: InternalKey, b: InternalKey)
    requires Ordered(f) && Ordered(g)
    ensures IsSmallest([f] + [g], a) && IsLargest([f] + [g], b) && Meets(f, Some(a.user), Some(b.user))
  {
    assert IsSmallest([f], f.smallest) && IsLargest([f], f.largest);
    RangeGrows([f], f.smallest, f.largest, g);
    a, b := if KeyLess(g.smallest, f.smallest) then g.smallest else f.smallest, if KeyLess(f.largest, g.largest) then g.largest else f.largest;
  }

  lemma NoneBehind(files: seq<File>, f: File)
    requires files == [f] && KeyAtMost(f.smallest, f.largest)
    ensures WithBoundaries(files, [f], [f])
  {
  }

  lemma TwoInputs(es: seq<Entry>, f: File, g: File)
    requires forall e :: e in es <==> e in f.entries || e in g.entries
    ensures Elements(es) == FileEntries([f] + [g])
  {
    var all := [f] + [g];
    assert f in all && g in all;
    forall e ensures e in FileEntries(all) <==> e in es {
      if e in f.entries { FileEntriesOf(all, f, e); }
      if e in g.entries { FileEntriesOf(all, g, e); }
    }
  }

  /** The conditions of an installation, one by one. */
  lemma InstallHolds(s: State, t: State, c: Running, merged: seq<Entry>, outputs: seq<File>, next: nat)
    requires s.running == Some(c) && c.level + 1 < |s.version|
    requires SortedEntries(merged) && Elements(merged) == FileEntries(c.inputs0 + c.inputs1) && ValidFiles(outputs)
    requires Concat(outputs) == Output(merged, c.smallestSnapshot, BaseLevels(c.inputVersion, c.level))
    requires DistinctNumbers(outputs) && forall o :: o in outputs ==> s.nextFile <= o.number < next
    requires NumbersBelow(s.version, s.nextFile) && s.nextFile <= next
    requires Replaced(s.version, t.version, c.level, c.inputs0, c.inputs1, outputs)
    requires t == s.(version := t.version, running := None, nextFile := next)
    ensures InstallStep(s, t, merged, outputs)
  {
  }

  // ---------------------------------------------------------------------
  // The first compaction
  // ---------------------------------------------------------------------

  lemma FirstBegins()
    ensures PickedBegin(S7(), S8(), FirstCompaction, kOverlapLimit)
  {
    SelectOne(Bottom, 2.0, 3.0);
    OneAndOne(S7().version, Flushed, Bottom);
  }

  /** While the snapshot at 1 is live nothing is dropped. */
  lemma FirstOutput()
    ensures Output([Put2, Del3, Put3], 1, BaseLevels(FirstCompaction.inputVersion, 1)) == [Put2, Del3, Put3]
  {
    var es := [Put2, Del3, Put3];
    var base := BaseLevels(FirstCompaction.inputVersion, 1);
    assert Survivors(es, 1, 1, base) == [Put2];
    assert Survivors(es, 2, 1, base) == [Put2, Del3];
  }

  lemma FirstFiles()
    ensures Concat([Left, Right]) == [Put2, Del3, Put3] && ValidFiles([Left, Right])
  {
    ConcatAppend([], Left);
    ConcatAppend([Left], Right);
    assert [] + [Left] == [Left] && [Left] + [Right] == [Left, Right];
  }

  lemma Sizes()
    ensures FileSize([Put2]) == kMaxFileSize - 1 && FileSize([Put2, Del3]) == kMaxFileSize + 8
    ensures FileSize([Put3]) == 10 && FileSize([Again2]) == 10
  {
    assert [Put2][..0] == [] && [Put2, Del3][..1] == [Put2] && [Put3][..0] == [] && [Again2][..0] == [];
  }

  /** The cut is where the size limit is reached. */
  lemma FirstCut()
    ensures CutBySize([Left, Right], FileSize, kMaxFileSize) && CutBySize([Merged], FileSize, kMaxFileSize)
  {
    Sizes();
    assert [Put2, Del3][..1] == [Put2];
    assert WithinLimit(Left, FileSize, kMaxFileSize) && WithinLimit(Right, FileSize, kMaxFileSize);
    assert WithinLimit(Merged, FileSize, kMaxFileSize);
  }

  lemma FirstReplaced()
    ensures Replaced(S8().version, S9().version, 1, [Flushed], [Bottom], [Left, Right])
  {
    var v, w := S8().version, S9().version;
    assert EditedLevel(v[1], w[1], [Flushed], []) && EditedLevel(v[2], w[2], [Bottom], [Left, Right]);
  }

  lemma FirstInstall()
    ensures InstallStep(S8(), S9(), [Put2, Del3, Put3], [Left, Right])
  {
    FirstOutput();
    FirstFiles();
    TwoInputs([Put2, Del3, Put3], Flushed, Bottom);
    FirstReplaced();
    InstallHolds(S8(), S9(), FirstCompaction, [Put2, Del3, Put3], [Left, Right], 6);
  }

  lemma ReachS10()
    ensures Reached(S10())
  {
    ReachS7();
    FirstBegins();
    BeginReaches(S7(), S8(), FirstCompaction);
    FirstInstall();
    InstallReaches(S8(), S9(), [Put2, Del3, Put3], [Left, Right]);
    ReleaseReaches();
  }

  lemma ReleaseReaches()
    requires Reached(S9())
    ensures Reached(S10())
  {
    assert ReleaseStep(S9(), S10(), 0);
    AutoReachesNext(S9(), S10(), kOverlapLimit);
  }

  // ---------------------------------------------------------------------
  // The last compaction
  // ---------------------------------------------------------------------

  /** The right half of the level below is not chosen. */
  lemma LastBegins()
    ensures PickedBegin(S13(), Started(), LastCompaction, kOverlapLimit)
  {
    SelectFirst(Left, Right, 2.0, 2.0);
    OneAndOne(S13().version, Upper, Left);
  }

  lemma LastCut()
    ensures !NextLevelUncut(S13().version, LastCompaction)
  {
    var v := S13().version;
    assert Right in v[2] && Boundary(Right, Left.largest);
    assert forall k :: IsLargest([Left], k) ==> k == Left.largest;
  }

  /** The marker is dropped: nothing below level two, and no snapshot is live. */
  lemma LastOutput()
    ensures Output([Again2, Put2, Del3], 4, BaseLevels(LastCompaction.inputVersion, 1)) == [Again2]
    ensures Concat([Merged]) == [Again2]
  {
    var es := [Again2, Put2, Del3];
    var base := BaseLevels(LastCompaction.inputVersion, 1);
    assert Survivors(es, 1, 4, base) == [Again2];
    assert HiddenAt(es, 1, 4);
    assert Survivors(es, 2, 4, base) == [Again2];
    assert IsBaseLevel(LastCompaction.inputVersion, 1, 3.0);
    assert Obsolete(Del3, 4, base);
    ConcatAppend([], Merged);
    assert [] + [Merged] == [Merged];
  }

  lemma LastReplaced()
    ensures Replaced(Started().version, Finished().version, 1, [Upper], [Left], [Merged])
  {
    var v, w := Started().version, Finished().version;
    assert EditedLevel(v[1], w[1], [Upper], []) && EditedLevel(v[2], w[2], [Left], [Merged]);
  }

  lemma LastInstall()
    ensures InstallStep(Started(), Finished(), [Again2, Put2, Del3], [Merged])
  {
    LastOutput();
    TwoInputs([Again2, Put2, Del3], Upper, Left);
    LastReplaced();
    InstallHolds(Started(), Finished(), LastCompaction, [Again2, Put2, Del3], [Merged], 8);
  }

  lemma ReachFinished()
    ensures Reached(Finished())
  {
    ReachS13();
    LastBegins();
    BeginReaches(S13(), Started(), LastCompaction);
    LastInstall();
    InstallReaches(Started(), Finished(), [Again2, Put2, Del3], [Merged]);
  }

  // ---------------------------------------------------------------------
  // The read
  // ---------------------------------------------------------------------

  lemma FinishedHolds(e: Entry)
    ensures e in Everything(Finished()) <==> e == Again2 || e == Put3
  {
    var t := Finished();
    if e == Put3 { VersionEntriesOf(t.version, 2, Right, Put3); }
    if e == Again2 { VersionEntriesOf(t.version, 2, Merged, Again2); }
  }

  lemma ReadsDiffer()
    ensures View(Everything(Finished()), 3.0, 4) == Some(X)
    ensures Lookup(Replay(AsOf(Finished().history, 4)), 3.0) == None
  {
    forall e ensures e in Everything(Finished()) <==> e == Again2 || e == Put3 {
      FinishedHolds(e);
    }
    NewestIsFound(Everything(Finished()), 3.0, 4, Put3);
    var h := Finished().history;
    assert h[..4][..3] == [Put3, Del3, Put2] && [Put3, Del3, Put2][..2] == [Put3, Del3] && [Put3, Del3][..1] == [Put3];
    assert 3.0 !in Replay([Put3, Del3]);
  }

  /**
   * A deleted key comes back. In a run with the default options, every flush goes to the level that is picked
   * for it and every compaction is one that is picked and no trivial move. It ends in a state where the read of
   * a deleted key at the last sequence returns its old value. The first compaction cuts its output where the
   * size limit is reached, between a marker and the value it deletes; the last one leaves that value behind in a
   * boundary file at level+1.
   */
  lemma DeletedKeyComesBack()
    ensures AutoReachable(Finished(), kOverlapLimit) && Readable(Finished(), 4)
    ensures View(Everything(Finished()), 3.0, 4) == Some(X) && Lookup(Replay(AsOf(Finished().history, 4)), 3.0) == None
    ensures PickedBegin(S7(), S8(), FirstCompaction, kOverlapLimit) && InstallStep(S8(), S9(), [Put2, Del3, Put3], [Left, Right])
    ensures CutBySize([Left, Right], FileSize, kMaxFileSize)
    ensures PickedBegin(S13(), Started(), LastCompaction, kOverlapLimit) && !NextLevelUncut(S13().version, LastCompaction)
    ensures forall n :: AutomaticChoice(S7().version, 1, Flushed, n, Pick(1, [Flushed], [Bottom], []))
    ensures forall n :: AutomaticChoice(S13().version, 1, Upper, n, Pick(1, [Upper], [Left], []))
  {
    ReachFinished();
    FirstBegins();
    FirstInstall();
    FirstCut();
    LastBegins();
    LastCut();
    ReadsDiffer();
    ChoicesAreMade();
  }

  /** Both compactions are what the code chooses for the file of level one. */
  lemma ChoicesAreMade()
    ensures forall n :: AutomaticChoice(S7().version, 1, Flushed, n, Pick(1, [Flushed], [Bottom], []))
    ensures forall n :: AutomaticChoice(S13().version, 1, Upper, n, Pick(1, [Upper], [Left], []))
  {
    forall n ensures AutomaticChoice(S7().version, 1, Flushed, n, Pick(1, [Flushed], [Bottom], [])) {
      FirstIsChosen(S7().version, n);
    }
    forall n ensures AutomaticChoice(S13().version, 1, Upper, n, Pick(1, [Upper], [Left], [])) {
      LastIsChosen(S13().version, n);
    }
  }

  lemma FirstIsChosen(v: Version, n: nat)
    requires v == S7().version
    ensures AutomaticChoice(v, 1, Flushed, n, Pick(1, [Flushed], [Bottom], []))
  {
    SelectOne(Bottom, 2.0, 3.0);
    OneAndOne(v, Flushed, Bottom);
    OneIsChosen(v, Flushed, Bottom, n);
  }

  lemma LastIsChosen(v: Version, n: nat)
    requires v == S13().version
    ensures AutomaticChoice(v, 1, Upper, n, Pick(1, [Upper], [Left], []))
  {
    SelectFirst(Left, Right, 2.0, 2.0);
    OneAndOne(v, Upper, Left);
    OneIsChosen(v, Upper, Left, n);
  }
}
