/**
 * A manual compaction with a gap in its inputs, and a memtable flushed into the gap while it runs:
 * its one output then spans the flushed file, and reads of the flushed key return an older value.
 */
module GapExample {
  import opened Keys
  import opened Semantics
  import opened Tables
  import opened Versions
  import opened Overlap
  import opened Gaps
  import opened Inputs
  import opened Picks
  import opened Filter
  import opened Compactions
  import opened Edits
  import opened Levels
  import opened Database
  import opened Runs

  const X: Bytes := [1]
  const Y: Bytes := [2]

  function One(number: nat, k: UserKey, seqno: nat, x: Bytes): File {
    NewFile(number, 1, [Entry(k, seqno, Put(x))])
  }

  /** Keys 1, 3 and 2 flushed to level two, keys 1 and 3 again to level one, and again to level zero. */
  const H1 := One(2, 1.0, 1, X)
  const H3 := One(3, 3.0, 2, X)
  const H2 := One(4, 2.0, 3, X)
  const G1 := One(5, 1.0, 4, X)
  const G3 := One(6, 3.0, 5, X)
  const F1 := One(7, 1.0, 6, X)
  const F3 := One(8, 3.0, 7, X)
  /** Key 2 flushed again, with a new value, while levels zero and one are being compacted. */
  const Sunk := One(9, 2.0, 8, Y)
  const Wide := NewFile(10, 1, [Entry(1.0, 6, Put(X)), Entry(3.0, 7, Put(X))])

  function Three(level0: seq<File>, level1: seq<File>, level2: seq<File>): Version {
    [level0, level1, level2, [], [], [], []]
  }

  // ---------------------------------------------------------------------
  // Flushes
  // ---------------------------------------------------------------------

  /** The level that PickLevelForMemTableOutput picks for one key when files are small. */
  ghost predicate Picked(v: Version, k: UserKey, level: nat) {
    && level <= kMaxMemCompactLevel
    && (level > 0 ==> FreeDownTo(v, level, k, k))
    && (level < kMaxMemCompactLevel ==> (level == 0 && MetAt(v, 0, k, k)) || MetAt(v, level + 1, k, k))
  }

  function Written(s: State, k: UserKey, x: Bytes): State {
    s.(mem := [Entry(k, s.lastSequence + 1, Put(x))], lastSequence := s.lastSequence + 1,
       history := s.history + [Entry(k, s.lastSequence + 1, Put(x))])
  }

  function Switched(s: State, k: UserKey, x: Bytes): State {
    Written(s, k, x).(mem := [], imm := Some([Entry(k, s.lastSequence + 1, Put(x))]))
  }

  function FlushedTo(s: State, k: UserKey, x: Bytes, w: Version): State {
    Switched(s, k, x).(imm := None, version := w, nextFile := s.nextFile + 1)
  }

  /** One key written, switched out and flushed, whether or not a compaction runs. */
  lemma FlushOne(s: State, k: UserKey, x: Bytes, level: nat, w: Version)
    requires Reachable(s) && s.mem == [] && s.imm.None? && s.lastSequence + 1 < kMaxSequenceNumber
    requires Picked(s.version, k, level) && Added(s.version, w, level, One(s.nextFile, k, s.lastSequence + 1, x))
    ensures Reachable(FlushedTo(s, k, x, w))
  {
    var a, b, c := Written(s, k, x), Switched(s, k, x), FlushedTo(s, k, x, w);
    assert Numbering(s.lastSequence, [(k, Put(x))]) == [Entry(k, s.lastSequence + 1, Put(x))];
    assert WriteStep(s, a, [(k, Put(x))]);
    ReachesNext(s, a);
    assert SwitchStep(a, b);
    ReachesNext(a, b);
    assert FlushStep(b, c, level, 1);
    ReachesNext(b, c);
  }

  lemma SinkOne(v: Version, level: nat, f: File, w: Version)
    requires level < |v| == |w| && forall l :: 0 <= l < |v| && l != level ==> w[l] == v[l]
    requires SortedBySmallest(w[level]) && forall g :: g in w[level] <==> g in v[level] || g == f
    ensures Added(v, w, level, f)
  {
  }

  /** The state after `n` flushes of one key each. */
  function After(n: nat, v: Version, h: seq<Entry>): State {
    State([], None, v, n, [], None, 2 + n, h)
  }

  function E(k: UserKey, n: nat): Entry {
    Entry(k, n, Put(X))
  }

  function Writes(): seq<Entry> {
    [E(1.0, 1), E(3.0, 2), E(2.0, 3), E(1.0, 4), E(3.0, 5), E(1.0, 6), E(3.0, 7)]
  }

  lemma MeetsOne(f: File, k: UserKey, l: nat, v: Version)
    requires l < |v| && f in v[l] && f.smallest.user == k == f.largest.user
    ensures MetAt(v, l, k, k)
  {
  }

  lemma AfterOne()
    ensures Reachable(After(1, Three([], [], [H1]), [E(1.0, 1)]))
  {
    assert Init() == After(0, Three([], [], []), []);
    InitIsReachable();
    SinkOne(Three([], [], []), 2, H1, Three([], [], [H1]));
    FlushOne(Init(), 1.0, X, 2, Three([], [], [H1]));
    assert [] + [E(1.0, 1)] == [E(1.0, 1)];
    assert FlushedTo(Init(), 1.0, X, Three([], [], [H1])) == After(1, Three([], [], [H1]), [E(1.0, 1)]);
  }

  lemma AfterTwo()
    ensures Reachable(After(2, Three([], [], [H1, H3]), [E(1.0, 1), E(3.0, 2)]))
  {
    AfterOne();
    var s1 := After(1, Three([], [], [H1]), [E(1.0, 1)]);
    SinkOne(Three([], [], [H1]), 2, H3, Three([], [], [H1, H3]));
    FlushOne(s1, 3.0, X, 2, Three([], [], [H1, H3]));
    assert FlushedTo(s1, 3.0, X, Three([], [], [H1, H3])) == After(2, Three([], [], [H1, H3]), [E(1.0, 1), E(3.0, 2)]);
  }

  lemma AfterThree()
    ensures Reachable(After(3, Three([], [], [H1, H2, H3]), [E(1.0, 1), E(3.0, 2), E(2.0, 3)]))
  {
    AfterTwo();
    var s2 := After(2, Three([], [], [H1, H3]), [E(1.0, 1), E(3.0, 2)]);
    SinkOne(Three([], [], [H1, H3]), 2, H2, Three([], [], [H1, H2, H3]));
    FlushOne(s2, 2.0, X, 2, Three([], [], [H1, H2, H3]));
    assert FlushedTo(s2, 2.0, X, Three([], [], [H1, H2, H3])) ==
      After(3, Three([], [], [H1, H2, H3]), [E(1.0, 1), E(3.0, 2), E(2.0, 3)]);
  }

  lemma AfterFour()
    ensures Reachable(After(4, Three([], [G1], [H1, H2, H3]), [E(1.0, 1), E(3.0, 2), E(2.0, 3), E(1.0, 4)]))
  {
    AfterThree();
    var v3, v4 := Three([], [], [H1, H2, H3]), Three([], [G1], [H1, H2, H3]);
    var s3 := After(3, v3, [E(1.0, 1), E(3.0, 2), E(2.0, 3)]);
    MeetsOne(H1, 1.0, 2, v3);
    SinkOne(v3, 1, G1, v4);
    FlushOne(s3, 1.0, X, 1, v4);
    assert FlushedTo(s3, 1.0, X, v4) == After(4, v4, [E(1.0, 1), E(3.0, 2), E(2.0, 3), E(1.0, 4)]);
  }

  lemma AfterFive()
    ensures Reachable(After(5, Three([], [G1, G3], [H1, H2, H3]), [E(1.0, 1), E(3.0, 2), E(2.0, 3), E(1.0, 4), E(3.0, 5)]))
  {
    AfterFour();
    var v4, v5 := Three([], [G1], [H1, H2, H3]), Three([], [G1, G3], [H1, H2, H3]);
    var s4 := After(4, v4, [E(1.0, 1), E(3.0, 2), E(2.0, 3), E(1.0, 4)]);
    MeetsOne(H3, 3.0, 2, v4);
    SinkOne(v4, 1, G3, v5);
    FlushOne(s4, 3.0, X, 1, v5);
    assert FlushedTo(s4, 3.0, X, v5) == After(5, v5, [E(1.0, 1), E(3.0, 2), E(2.0, 3), E(1.0, 4), E(3.0, 5)]);
  }

  lemma AfterSix()
    ensures Reachable(After(6, Three([F1], [G1, G3], [H1, H2, H3]), [E(1.0, 1), E(3.0, 2), E(2.0, 3), E(1.0, 4), E(3.0, 5), E(1.0, 6)]))
  {
    AfterFive();
    var v5, v6 := Three([], [G1, G3], [H1, H2, H3]), Three([F1], [G1, G3], [H1, H2, H3]);
    var s5 := After(5, v5, [E(1.0, 1), E(3.0, 2), E(2.0, 3), E(1.0, 4), E(3.0, 5)]);
    MeetsOne(G1, 1.0, 1, v5);
    SinkOne(v5, 0, F1, v6);
    FlushOne(s5, 1.0, X, 0, v6);
    assert FlushedTo(s5, 1.0, X, v6) ==
      After(6, v6, [E(1.0, 1), E(3.0, 2), E(2.0, 3), E(1.0, 4), E(3.0, 5), E(1.0, 6)]);
  }

  const Before := Three([F1, F3], [G1, G3], [H1, H2, H3])

  lemma AfterSeven()
    ensures Reachable(After(7, Before, Writes()))
  {
    AfterSix();
    var v6 := Three([F1], [G1, G3], [H1, H2, H3]);
    var s6 := After(6, v6, [E(1.0, 1), E(3.0, 2), E(2.0, 3), E(1.0, 4), E(3.0, 5), E(1.0, 6)]);
    MeetsOne(G3, 3.0, 1, v6);
    SinkOne(v6, 0, F3, Before);
    FlushOne(s6, 3.0, X, 0, Before);
    assert FlushedTo(s6, 3.0, X, Before) == After(7, Before, Writes());
  }

  // ---------------------------------------------------------------------
  // The manual compaction
  // ---------------------------------------------------------------------

  lemma SelectBoth(f: File, g: File, lo: Bound, hi: Bound)
    requires Meets(f, lo, hi) && Meets(g, lo, hi)
    ensures Select([f, g], lo, hi) == [f, g]
  {
    assert [f][..0] == [] && [f, g][..1] == [f];
    assert Select([], lo, hi) == [];
    assert Select([f], lo, hi) == [f];
  }

  lemma ManualSeed()
    ensures Seed(Before, 0, [F1, F3]) && LevelClosed(Before[0], [F1, F3])
  {
    SelectBoth(F1, F3, None, None);
    assert Closed([F1, F3], None, None);
    assert ClosedChoice([F1, F3], [F1, F3]);
  }

  lemma ManualNextLevel()
    ensures NextLevelChosen(Before, 0, [F1, F3], [G1, G3])
  {
    SelectBoth(G1, G3, Some(1.0), Some(3.0));
    ManualRange();
    assert Before[1] == [G1, G3];
  }

  lemma ManualRange()
    ensures IsSmallest([F1, F3], F1.smallest) && IsLargest([F1, F3], F3.largest)
  {
    assert F1 in [F1, F3] && F3 in [F1, F3];
  }

  /** Key 2 lies in a gap of that choice. */
  lemma ChoiceHasGap()
    ensures !Gapless([F1, F3] + [G1, G3])
  {
    var all := [F1, F3] + [G1, G3];
    assert Avoids(all, 2.0, 2.0);
    assert F1 in all && F3 in all;
  }

  const Manual := Running(0, [F1, F3], [G1, G3], Before, 7)

  function Begun(): State {
    After(7, Before, Writes()).(running := Some(Manual))
  }

  /** A manual compaction of all of level zero chooses all files of levels zero and one. */
  lemma ReachBegun()
    ensures Reachable(Begun())
  {
    AfterSeven();
    ManualSeed();
    ManualNextLevel();
    assert BeginStep(After(7, Before, Writes()), Begun(), Manual);
    ReachesNext(After(7, Before, Writes()), Begun());
  }

  const During := Three([F1, F3], [G1, Sunk, G3], [H1, H2, H3])

  function AllWrites(): seq<Entry> {
    Writes() + [Entry(2.0, 8, Put(Y))]
  }

  function InGap(): State {
    State([], None, During, 8, [], Some(Manual), 10, AllWrites())
  }

  lemma {:induction false} SmallSelection(fs: seq<File>, lo: Bound, hi: Bound)
    requires forall f :: f in fs ==> f.size <= 1
    ensures TotalFileSize(Select(fs, lo, hi)) <= |fs|
  {
    if fs != [] {
      var n := |fs| - 1;
      var r := Select(fs[..n], lo, hi);
      SmallSelection(fs[..n], lo, hi);
      if Meets(fs[n], lo, hi) {
        assert (r + [fs[n]])[..|r|] == r;
        assert Select(fs, lo, hi) == r + [fs[n]];
      } else {
        assert Select(fs, lo, hi) == r + [] == r;
      }
    }
  }

  /** Levels zero and one do not meet key 2 and level two does, so the flush picks level one. */
  lemma PicksLevelOne()
    ensures Picked(Before, 2.0, 1) && Added(Before, During, 1, Sunk)
  {
    MeetsOne(H2, 2.0, 2, Before);
    assert FreeDownTo(Before, 1, 2.0, 2.0);
    SinkOne(Before, 1, Sunk, During);
  }

  lemma LevelOneIsPicked()
    ensures IsPicked(Before, 1, 2.0, 2.0, kOverlapLimit)
  {
    PicksLevelOne();
    SmallSelection(Before[2], Some(2.0), Some(2.0));
    assert !MetAt(Before, 0, 2.0, 2.0) && !MetAt(Before, 1, 2.0, 2.0);
    assert StopsAt(Before, 1, 2.0, 2.0, kOverlapLimit);
  }

  lemma ReachInGap()
    ensures Reachable(InGap())
  {
    ReachBegun();
    PicksLevelOne();
    var s := Begun();
    assert s.version == Before && s.nextFile == 9 && s.lastSequence == 7;
    FlushOne(s, 2.0, Y, 1, During);
    assert FlushedTo(s, 2.0, Y, During) == InGap();
  }

  // ---------------------------------------------------------------------
  // The installation
  // ---------------------------------------------------------------------

  const Crossed := Three([], [Wide, Sunk], [H1, H2, H3])

  function Broken(): State {
    State([], None, Crossed, 8, [], None, 11, AllWrites())
  }

  function MergedInput(): seq<Entry> {
    [E(1.0, 6), E(1.0, 4), E(3.0, 7), E(3.0, 5)]
  }

  lemma WideOutput()
    ensures Output(MergedInput(), 7, BaseLevels(Before, 0)) == Wide.entries 
  {
    var es, base := MergedInput(), BaseLevels(Before, 0);
    assert Survivors(es, 1, 7, base) == [E(1.0, 6)];
    assert HiddenAt(es, 1, 7);
    assert Survivors(es, 2, 7, base) == [E(1.0, 6)];
    assert Survivors(es, 3, 7, base) == [E(1.0, 6), E(3.0, 7)];
    assert HiddenAt(es, 3, 7);
  }

  lemma WideInputs()
    ensures Elements(MergedInput()) == FileEntries([F1, F3] + [G1, G3])
  {
    var all := [F1, F3] + [G1, G3];
    assert F1 in all && F3 in all && G1 in all && G3 in all;
    FileEntriesOf(all, F1, E(1.0, 6));
    FileEntriesOf(all, F3, E(3.0, 7));
    FileEntriesOf(all, G1, E(1.0, 4));
    FileEntriesOf(all, G3, E(3.0, 5));
  }

  lemma WideReplaces()
    ensures Replaced(During, Crossed, 0, [F1, F3], [G1, G3], [Wide])
  {
    assert SortedBySmallest([Wide, Sunk]);
    assert EditedLevel(During[0], Crossed[0], [F1, F3], []);
    assert EditedLevel(During[1], Crossed[1], [G1, G3], [Wide]);
  }

  predicate NumbersUnder(v: Version, n: nat) {
    forall l, f :: 0 <= l < |v| && f in v[l] ==> f.number < n
  }

  lemma WideIsNew()
    ensures NumbersUnder(During, 10)
  {
  }

  lemma InstallOne(s: State, t: State, c: Running, merged: seq<Entry>, f: File)
    requires s.running == Some(c) && c.level + 1 < |s.version|
    requires SortedEntries(merged) && Elements(merged) == FileEntries(c.inputs0 + c.inputs1) && ValidFile(f)
    requires f.entries == Output(merged, c.smallestSnapshot, BaseLevels(c.inputVersion, c.level))
    requires NumbersUnder(s.version, f.number) && f.number < t.nextFile && s.nextFile <= t.nextFile
    requires Replaced(s.version, t.version, c.level, c.inputs0, c.inputs1, [f])
    requires t == s.(version := t.version, running := None, nextFile := t.nextFile)
    ensures InstallStep(s, t, merged, [f])
  {
    ConcatAppend([], f);
    assert [] + [f] == [f] && Concat([]) + f.entries == f.entries;
  }

  lemma WideInstall()
    ensures InstallStep(InGap(), Broken(), MergedInput(), [Wide])
  {
    WideOutput();
    WideInputs();
    WideReplaces();
    WideIsNew();
    InstallOne(InGap(), Broken(), Manual, MergedInput(), Wide);
  }

  lemma WideMisfits()
    ensures !Fits(During, 0, [G1, G3], [Wide])
  {
    assert Sunk in During[1] && Wide in [Wide] && !Apart(Wide, Sunk);
  }

  /** Every binary search of level one ends at the wide file, which does not hold key 2. */
  lemma WideHidesKeyTwo(index: nat)
    requires Lands(Broken().version[1], SeekKey(2.0, 8), index)
    ensures index == 0 && AnswerAt(Broken().version[1], index, 2.0, 8) == None
  {
    assert Wide.entries[1..] == [E(3.0, 7)];
  }

  lemma LevelTwoAnswers(index: nat)
    requires Lands(Broken().version[2], SeekKey(2.0, 8), index)
    ensures AnswerAt(Broken().version[2], index, 2.0, 8) == Some(E(2.0, 3))
  {
  }

  /** The search of the broken version, level by level, for the last value of key 2. */
  method ReadKeyTwo() returns (value: Option<Bytes>)
    ensures value == Some(X)
  {
    var levels := Broken().version;
    var r := SearchLevelZero(levels[0], 2.0, 8);
    if r.None? {
      r := SearchSortedLevel(levels[1], 2.0, 8);
      ghost var at1 :| Lands(levels[1], SeekKey(2.0, 8), at1) && r == AnswerAt(levels[1], at1, 2.0, 8);
      WideHidesKeyTwo(at1);
    }
    if r.None? {
      r := SearchSortedLevel(levels[2], 2.0, 8);
      ghost var at2 :| Lands(levels[2], SeekKey(2.0, 8), at2) && r == AnswerAt(levels[2], at2, 2.0, 8);
      LevelTwoAnswers(at2);
    }
    value := ValueOf(r);
  }

  lemma HistorySaysY()
    ensures Lookup(Replay(AsOf(Broken().history, 8)), 2.0) == Some(Y)
  {
    var h := Broken().history;
    assert h == Writes() + [Entry(2.0, 8, Put(Y))];
    assert h[..8] == h && h[7] == Entry(2.0, 8, Put(Y));
  }

  /**
   * A flush into the gap of a running manual compaction, reached from an empty database. The one
   * output spans the flushed file, so level one is no longer sorted, and the search of the version
   * (`ReadKeyTwo`) returns the old value of key 2 where the history of writes says the new one.
   */
  lemma FlushIntoGap()
    ensures Reachable(InGap()) && InstallStep(InGap(), Broken(), MergedInput(), [Wide])
    ensures !Gapless(Manual.inputs0 + Manual.inputs1) && IsPicked(Before, 1, 2.0, 2.0, kOverlapLimit)
    ensures !Fits(InGap().version, 0, [G1, G3], [Wide]) && !ValidVersion(Broken().version)
    ensures Readable(Broken(), 8) && Lookup(Replay(AsOf(Broken().history, 8)), 2.0) == Some(Y) != Some(X)
  {
    ReachInGap();
    LevelOneIsPicked();
    WideInstall();
    ChoiceHasGap();
    WideMisfits();
    HistorySaysY();
    MisfitIsInvalid(InGap(), Broken(), MergedInput(), [Wide]);
  }

  lemma MisfitIsInvalid(s: State, t: State, merged: seq<Entry>, outputs: seq<File>)
    requires Reachable(s) && InstallStep(s, t, merged, outputs)
    requires !Fits(s.version, s.running.value.level, s.running.value.inputs1, outputs)
    ensures !ValidVersion(t.version)
  {
    ReachableLevels(s);
    InstallValidExactly(s, t, merged, outputs);
  }
}
