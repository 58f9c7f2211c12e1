/** The compaction loop: db/db_impl.cc:878-1036 and db/version_set.cc:1533-1576. */
module Compactions {
  import opened Keys
  import opened Tables
  import opened Versions
  import opened Overlap
  import opened Filter
  import opened Cutting

  /** No file two or more levels below `level` can hold the user key. */
  predicate IsBaseLevel(v: Version, level: nat, k: UserKey) {
    forall l, f :: level + 2 <= l < |v| && f in v[l] ==> !InRange(k, f)
  }

  function BaseLevels(v: Version, level: nat): UserKey -> bool {
    k => IsBaseLevel(v, level, k)
  }

  /** Entries of a list of files, one file after the other. */
  function Concat(fs: seq<File>): seq<Entry> {
    if fs == [] then [] else Concat(fs[..|fs| - 1]) + fs[|fs| - 1].entries
  }

  /** Every file ends before the user key; without a key there may be no file. */
  predicate AllEndBefore(fs: seq<File>, k: Option<UserKey>) {
    forall i :: 0 <= i < |fs| ==> k.Some? && fs[i].largest.user < k.value
  }

  /** The mutable part of a running compaction. */
  class Compaction {
    const level: nat
    const inputVersion: Version
    const grandparents: seq<File>
    const levelPtrs: array<nat>
    var grandparentIndex: nat
    var seenKey: bool
    var overlappedBytes: nat
    /** The largest user key asked about so far. */
    ghost var floor: Option<UserKey>
    /** The grandparent at which the output file being written began. */
    ghost var mark: nat

    constructor (level: nat, v: Version, grandparents: seq<File>)
      ensures this.level == level && inputVersion == v && this.grandparents == grandparents
      ensures fresh(levelPtrs) && floor == None && !seenKey && grandparentIndex == 0
      ensures |v| == kNumLevels ==> Valid()
    {
      this.level, inputVersion, this.grandparents := level, v, grandparents;
      levelPtrs := new nat[kNumLevels](_ => 0);
      grandparentIndex, seenKey, overlappedBytes, floor, mark := 0, false, 0, None, 0;
    }

    /** A level pointer has passed only files that end before every key still to come. */
    ghost predicate Valid()
      reads this, levelPtrs
    {
      && mark <= grandparentIndex <= |grandparents|
      && overlappedBytes == (if seenKey then TotalFileSize(grandparents[mark..grandparentIndex]) else 0)
      && levelPtrs.Length == kNumLevels == |inputVersion|
      && (forall l :: level + 2 <= l < kNumLevels ==> levelPtrs[l] <= |inputVersion[l]|)
      && (forall l :: level + 2 <= l < kNumLevels ==> AllEndBefore(inputVersion[l][..levelPtrs[l]], floor))
    }

    /** Asked about increasing keys, the moving pointers answer exactly. */
    method IsBaseLevelForKey(k: UserKey) returns (r: bool)
      requires Valid() && ValidVersion(inputVersion)
      requires floor.Some? ==> floor.value <= k
      modifies this`floor, levelPtrs
      ensures Valid() && floor == Some(k)
      ensures r == IsBaseLevel(inputVersion, level, k)
    {
      floor := Some(k);
      var lvl := level + 2;
      while lvl < kNumLevels
        invariant level + 2 <= lvl
        invariant Valid() && floor == Some(k)
        invariant forall l, f :: level + 2 <= l < lvl && l < kNumLevels && f in inputVersion[l] ==> !InRange(k, f)
      {
        var held := AdvancePointer(lvl, k);
        if held {
          return false;
        }
        lvl := lvl + 1;
      }
      r := true;
    }

    /** Moves the pointer of a level up to the key, and tells whether the key is in range of a file there. */
    method AdvancePointer(lvl: nat, k: UserKey) returns (held: bool)
      requires Valid() && level + 2 <= lvl < kNumLevels && floor == Some(k)
      requires ValidFiles(inputVersion[lvl]) && SortedLevel(inputVersion[lvl])
      modifies levelPtrs
      ensures Valid()
      ensures held <==> exists f :: f in inputVersion[lvl] && InRange(k, f)
    {
      var files := inputVersion[lvl];
      held := false;
      while levelPtrs[lvl] < |files| && k > files[levelPtrs[lvl]].largest.user
        invariant Valid()
        decreases |files| - levelPtrs[lvl]
      {
        levelPtrs[lvl] := levelPtrs[lvl] + 1;
      }
      assert AllEndBefore(files[..levelPtrs[lvl]], Some(k));
      if levelPtrs[lvl] < |files| && k >= files[levelPtrs[lvl]].smallest.user {
        assert files[levelPtrs[lvl]] in files;
        held := true;
      } else {
        PointerDecides(files, k, levelPtrs[lvl]);
      }
    }

    /**
     * Whether the grandparents passed since the output file began, up to the key, call for a new one.
     * The first key passes the grandparents before it for nothing.
     */
    method ShouldStopBefore(key: InternalKey, maxGrandParentOverlapBytes: nat) returns (stop: bool)
      requires Valid()
      modifies this`grandparentIndex, this`seenKey, this`overlappedBytes, this`mark
      ensures Valid() && seenKey
      ensures old(grandparentIndex) <= grandparentIndex
      ensures forall i :: old(grandparentIndex) <= i < grandparentIndex ==> KeyLess(grandparents[i].largest, key)
      ensures grandparentIndex < |grandparents| ==> KeyAtMost(key, grandparents[grandparentIndex].largest)
      ensures var from := if old(seenKey) then old(mark) else grandparentIndex;
        && (stop <==> TotalFileSize(grandparents[from..grandparentIndex]) > maxGrandParentOverlapBytes)
        && mark == if stop then grandparentIndex else from
    {
      while grandparentIndex < |grandparents| && KeyLess(grandparents[grandparentIndex].largest, key)
        invariant Valid() && old(grandparentIndex) <= grandparentIndex && mark == old(mark) && seenKey == old(seenKey)
        invariant forall i :: old(grandparentIndex) <= i < grandparentIndex ==> KeyLess(grandparents[i].largest, key)
      {
        if seenKey {
          OneMoreSize(grandparents, mark, grandparentIndex);
          overlappedBytes := overlappedBytes + grandparents[grandparentIndex].size;
        }
        grandparentIndex := grandparentIndex + 1;
      }
      if !seenKey {
        mark, seenKey := grandparentIndex, true;
        assert grandparents[mark..grandparentIndex] == [];
      }
      if overlappedBytes > maxGrandParentOverlapBytes {
        mark, overlappedBytes := grandparentIndex, 0;
        assert grandparents[mark..grandparentIndex] == [];
        stop := true;
      } else {
        stop := false;
      }
    }
  }

  lemma OneMoreSize(fs: seq<File>, i: nat, j: nat)
    requires i <= j < |fs|
    ensures TotalFileSize(fs[i..j + 1]) == TotalFileSize(fs[i..j]) + fs[j].size
  {
    assert fs[i..j + 1][..j - i] == fs[i..j];
  }

  lemma PointerDecides(files: seq<File>, k: UserKey, p: nat)
    requires ValidFiles(files) && SortedLevel(files) && p <= |files|
    requires AllEndBefore(files[..p], Some(k))
    requires p < |files| ==> k < files[p].smallest.user
    ensures forall f :: f in files ==> !InRange(k, f)
  {
    forall f | f in files ensures !InRange(k, f) {
      var i :| 0 <= i < |files| && files[i] == f;
      if i < p {
        assert files[..p][i] == f;
      } else {
        assert files[p] in files;
        EntriesInRange(files[p]);
        assert files[p].entries[0] in files[p].entries;
      }
    }
  }

  /** A finished output file. */
  function NewFile(number: nat, size: nat, es: seq<Entry>): (f: File)
    requires es != []
  {
    File(number, size, IKey(es[0]), IKey(es[|es| - 1]), es)
  }

  /** The output files hold the survivors in order, and each is a valid table. */
  ghost predicate Outputs(outputs: seq<File>, es: seq<Entry>) {
    ValidFiles(outputs) && Concat(outputs) == es
  }

  lemma ConcatAppend(fs: seq<File>, f: File)
    ensures Concat(fs + [f]) == Concat(fs) + f.entries
  {
    assert (fs + [f])[..|fs|] == fs;
  }

  lemma BuiltFileIsValid(es: seq<Entry>, lo: nat, number: nat, size: nat)
    requires SortedEntries(es) && lo < |es| && forall e :: e in es ==> e.seqno <= kMaxSequenceNumber
    ensures ValidFile(NewFile(number, size, es[lo..]))
  {
    var part := es[lo..];
    forall i, j | 0 <= i < j < |part| ensures EntryLess(part[i], part[j]) {
      assert part[i] == es[lo + i] && part[j] == es[lo + j];
    }
  }

  /** The drop decision for entry `n`, from the key and sequence remembered from the entry before. */
  method DecideDrop(c: Compaction, input: seq<Entry>, n: nat, smallestSnapshot: nat,
                    currentUserKey: Option<UserKey>, lastSequence: nat)
      returns (drop: bool)
    requires c.Valid() && ValidVersion(c.inputVersion)
    requires SortedEntries(input) && n < |input| && smallestSnapshot < kMaxSequenceNumber
    requires c.floor.Some? ==> n > 0 && c.floor.value <= input[n - 1].key
    requires currentUserKey == (if n == 0 then None else Some(input[n - 1].key))
    requires n > 0 ==> lastSequence == input[n - 1].seqno
    modifies c`floor, c.levelPtrs
    ensures c.Valid() && (c.floor.Some? ==> c.floor.value <= input[n].key)
    ensures drop <==>
      HiddenAt(input, n, smallestSnapshot) || Obsolete(input[n], smallestSnapshot, BaseLevels(c.inputVersion, c.level))
  {
    var e := input[n];
    assert n > 0 ==> EntryLess(input[n - 1], e);
    var lastSequenceForKey := lastSequence;
    if currentUserKey != Some(e.key) {
      lastSequenceForKey := kMaxSequenceNumber;
    }
    drop := false;
    if lastSequenceForKey <= smallestSnapshot {
      drop := true;
    } else if e.op.Delete? && e.seqno <= smallestSnapshot {
      drop := c.IsBaseLevelForKey(e.key);
    }
  }

  /** The files so far, and the one being built; the first `n` keys have been asked about. */
  ghost predicate CutsUpTo(l: Limits, input: seq<Entry>, n: nat, outputs: seq<File>, builder: seq<Entry>) {
    && n <= |input|
    && (forall i :: 0 <= i < |outputs| ==> WithinLimit(outputs[i], l.fileSize, l.maxFileSize))
    && (forall i :: 0 <= i < |outputs| ==> Unbroken(l, input, outputs[i].smallest, outputs[i].largest))
    && (forall i :: 0 <= i < |outputs| ==> EndsRightly(l, input, n, outputs[i], NextStart(outputs, builder, i)))
    && (builder != [] ==> Building(l, input, n, builder))
  }

  /** The start of what follows a file, once there is something. */
  function NextStart(outputs: seq<File>, builder: seq<Entry>, i: nat): Option<InternalKey> {
    if i + 1 < |outputs| then Some(outputs[i + 1].smallest) else if builder != [] then Some(IKey(builder[0])) else None
  }

  /** No stop has come since the file began. */
  ghost predicate Building(l: Limits, input: seq<Entry>, n: nat, builder: seq<Entry>)
    requires builder != [] && n <= |input|
  {
    && n > 0 && KeyAtMost(IKey(builder[|builder| - 1]), IKey(input[n - 1]))
    && forall k :: 0 <= k < n && KeyLess(IKey(builder[0]), IKey(input[k])) ==> !StopsBefore(l, input, k)
  }

  /** The counters after `n` keys. */
  ghost predicate CountersAt(c: Compaction, l: Limits, input: seq<Entry>, n: nat)
    requires n <= |input|
    reads c
  {
    if n == 0 then !c.seenKey && c.grandparentIndex == 0
    else
      && c.seenKey && c.grandparentIndex == Passed(l.grandparents, IKey(input[n - 1]), 0)
      && c.mark == if StopsBefore(l, input, n - 1) then c.grandparentIndex else Mark(l, input, n - 1)
  }

  /**
   * The compaction loop over the merged input. The output files together hold exactly the survivors, in order, and
   * end exactly where the size limit or a stop says.
   */
  method DoCompactionWork(c: Compaction, input: seq<Entry>, smallestSnapshot: nat, fileSize: seq<Entry> -> nat,
                          maxOutputFileSize: nat, maxGrandParentOverlapBytes: nat, firstNumber: nat)
      returns (outputs: seq<File>)
    requires c.Valid() && ValidVersion(c.inputVersion) && c.floor == None && !c.seenKey && c.grandparentIndex == 0
    requires SortedEntries(input) && smallestSnapshot < kMaxSequenceNumber
    requires forall e :: e in input ==> e.seqno <= kMaxSequenceNumber
    modifies c, c.levelPtrs
    ensures Outputs(outputs, Output(input, smallestSnapshot, BaseLevels(c.inputVersion, c.level)))
    ensures forall i :: 0 <= i < |outputs| ==> outputs[i].number == firstNumber + i
    ensures CutExactly(Limits(fileSize, maxOutputFileSize, c.grandparents, maxGrandParentOverlapBytes), input, outputs)
  {
    outputs := [];
    ghost var base := BaseLevels(c.inputVersion, c.level);
    var l := Limits(fileSize, maxOutputFileSize, c.grandparents, maxGrandParentOverlapBytes);
    var builder: seq<Entry> := [];
    var currentUserKey: Option<UserKey> := None;
    var lastSequenceForKey := kMaxSequenceNumber;
    var n := 0;
    while n < |input|
      invariant n <= |input|
      invariant Midway(c, l, input, n, currentUserKey, lastSequenceForKey)
      invariant FilesUpTo(l, input, n, smallestSnapshot, base, outputs, builder, firstNumber)
    {
      outputs, builder := TakeEntry(c, l, input, n, smallestSnapshot, base, currentUserKey, lastSequenceForKey, outputs, builder, firstNumber);
      currentUserKey, lastSequenceForKey := Some(input[n].key), input[n].seqno;
      n := n + 1;
    }
    outputs := FinishLast(l, input, smallestSnapshot, base, outputs, builder, firstNumber);
  }

  /** What is left in the builder is the last file. */
  method FinishLast(l: Limits, ghost input: seq<Entry>, ghost smallestSnapshot: nat, ghost base: UserKey -> bool,
                    outputs: seq<File>, builder: seq<Entry>, firstNumber: nat)
      returns (r: seq<File>)
    requires GoodEntries(input) && FilesUpTo(l, input, |input|, smallestSnapshot, base, outputs, builder, firstNumber)
    ensures Outputs(r, Output(input, smallestSnapshot, base)) && CutExactly(l, input, r)
    ensures forall i :: 0 <= i < |r| ==> r[i].number == firstNumber + i
  {
    if builder != [] {
      r := FinishOutputFile(input, |input|, smallestSnapshot, base, outputs, builder, firstNumber, l.fileSize);
      LastCut(l, input, outputs, builder, r[|outputs|]);
    } else {
      r := outputs;
      AllCut(l, input, outputs);
    }
    AllBuilt(r, input, smallestSnapshot, base, firstNumber);
  }

  /** The compaction after `n` entries, and what the loop remembers of the last one. */
  ghost predicate Midway(c: Compaction, l: Limits, input: seq<Entry>, n: nat, currentUserKey: Option<UserKey>, lastSequence: nat)
    requires n <= |input|
    reads c, c.levelPtrs
  {
    && c.Valid() && c.grandparents == l.grandparents && CountersAt(c, l, input, n)
    && (c.floor.Some? ==> n > 0 && c.floor.value <= input[n - 1].key)
    && currentUserKey == (if n == 0 then None else Some(input[n - 1].key))
    && (n > 0 ==> lastSequence == input[n - 1].seqno)
  }

  /** One entry of the input: a stop before it, the drop decision, and the entry itself. */
  method TakeEntry(c: Compaction, l: Limits, input: seq<Entry>, n: nat, smallestSnapshot: nat, ghost base: UserKey -> bool,
                   currentUserKey: Option<UserKey>, lastSequence: nat, outputs: seq<File>, builder: seq<Entry>, firstNumber: nat)
      returns (r: seq<File>, rbuilder: seq<Entry>)
    requires GoodEntries(input) && n < |input| && smallestSnapshot < kMaxSequenceNumber
    requires ValidVersion(c.inputVersion) && base == BaseLevels(c.inputVersion, c.level)
    requires Midway(c, l, input, n, currentUserKey, lastSequence)
    requires FilesUpTo(l, input, n, smallestSnapshot, base, outputs, builder, firstNumber)
    modifies c, c.levelPtrs
    ensures Midway(c, l, input, n + 1, Some(input[n].key), input[n].seqno)
    ensures FilesUpTo(l, input, n + 1, smallestSnapshot, base, r, rbuilder, firstNumber)
  {
    r, rbuilder := EndIfOverlapping(c, l, input, n, smallestSnapshot, base, outputs, builder, firstNumber);
    var drop := DecideDrop(c, input, n, smallestSnapshot, currentUserKey, lastSequence);
    r, rbuilder := AddUnlessDropped(drop, l, input, n, smallestSnapshot, base, r, rbuilder, firstNumber);
  }

  lemma AllCut(l: Limits, input: seq<Entry>, fs: seq<File>)
    requires CutsUpTo(l, input, |input|, fs, [])
    ensures CutExactly(l, input, fs)
  {
    forall i | 0 <= i < |fs| - 1 ensures EndsRightly(l, input, |input|, fs[i], Some(fs[i + 1].smallest)) {
      assert NextStart(fs, [], i) == Some(fs[i + 1].smallest);
    }
  }

  /** Finished files and the one being built hold the survivors so far. */
  ghost predicate BuiltUpTo(outputs: seq<File>, builder: seq<Entry>, input: seq<Entry>, n: nat, smallestSnapshot: nat,
                            base: UserKey -> bool, firstNumber: nat) {
    && n <= |input| && ValidFiles(outputs) && Concat(outputs) + builder == Survivors(input, n, smallestSnapshot, base)
    && forall i :: 0 <= i < |outputs| ==> outputs[i].number == firstNumber + i
  }

  /** And they end where they must. */
  ghost predicate FilesUpTo(l: Limits, input: seq<Entry>, n: nat, smallestSnapshot: nat, base: UserKey -> bool,
                            outputs: seq<File>, builder: seq<Entry>, firstNumber: nat) {
    && BuiltUpTo(outputs, builder, input, n, smallestSnapshot, base, firstNumber)
    && CutsUpTo(l, input, n, outputs, builder) && UnderLimit(builder, l.fileSize, l.maxFileSize)
  }

  lemma AllBuilt(outputs: seq<File>, input: seq<Entry>, smallestSnapshot: nat, base: UserKey -> bool, firstNumber: nat)
    requires BuiltUpTo(outputs, [], input, |input|, smallestSnapshot, base, firstNumber)
    ensures Outputs(outputs, Output(input, smallestSnapshot, base))
    ensures forall i :: 0 <= i < |outputs| ==> outputs[i].number == firstNumber + i
  {
    assert Concat(outputs) + [] == Concat(outputs);
  }

  ghost predicate GoodEntries(es: seq<Entry>) {
    SortedEntries(es) && forall e :: e in es ==> e.seqno <= kMaxSequenceNumber
  }

  method FinishOutputFile(ghost input: seq<Entry>, ghost n: nat, ghost smallestSnapshot: nat, ghost base: UserKey -> bool,
                          outputs: seq<File>, builder: seq<Entry>, firstNumber: nat, fileSize: seq<Entry> -> nat)
      returns (r: seq<File>)
    requires GoodEntries(input) && builder != []
    requires BuiltUpTo(outputs, builder, input, n, smallestSnapshot, base, firstNumber)
    ensures BuiltUpTo(r, [], input, n, smallestSnapshot, base, firstNumber)
    ensures r == outputs + [NewFile(firstNumber + |outputs|, fileSize(builder), builder)]
  {
    var f := NewFile(firstNumber + |outputs|, fileSize(builder), builder);
    ghost var es := Survivors(input, n, smallestSnapshot, base);
    SurvivorsSorted(input, n, smallestSnapshot, base);
    LastFileIsValid(es, Concat(outputs), builder, f.number, f.size);
    ConcatAppend(outputs, f);
    r := outputs + [f];
    assert es + [] == es;
  }

  /** The file being built ends before the next key if it would overlap too many grandparent bytes. */
  method EndIfOverlapping(c: Compaction, l: Limits, input: seq<Entry>, n: nat, ghost smallestSnapshot: nat, ghost base: UserKey -> bool,
                          outputs: seq<File>, builder: seq<Entry>, firstNumber: nat)
      returns (r: seq<File>, rbuilder: seq<Entry>)
    requires c.Valid() && GoodEntries(input) && n < |input| && c.grandparents == l.grandparents && CountersAt(c, l, input, n)
    requires BuiltUpTo(outputs, builder, input, n, smallestSnapshot, base, firstNumber)
    requires CutsUpTo(l, input, n, outputs, builder) && UnderLimit(builder, l.fileSize, l.maxFileSize)
    modifies c`grandparentIndex, c`seenKey, c`overlappedBytes, c`mark
    ensures c.Valid() && CountersAt(c, l, input, n + 1) && BuiltUpTo(r, rbuilder, input, n, smallestSnapshot, base, firstNumber)
    ensures CutsUpTo(l, input, n + 1, r, rbuilder) && UnderLimit(rbuilder, l.fileSize, l.maxFileSize)
  {
    r, rbuilder := outputs, builder;
    var stop := Ask(c, l, input, n);
    if stop && builder != [] {
      r := FinishOutputFile(input, n, smallestSnapshot, base, outputs, builder, firstNumber, l.fileSize);
      rbuilder := [];
      CutAtStop(l, input, n, outputs, builder, r[|outputs|]);
    } else {
      NoCut(l, input, n, outputs, builder);
    }
  }

  /** Whether key `n` brings a stop. */
  method Ask(c: Compaction, l: Limits, input: seq<Entry>, n: nat) returns (stop: bool)
    requires c.Valid() && SortedEntries(input) && n < |input| && c.grandparents == l.grandparents && CountersAt(c, l, input, n)
    modifies c`grandparentIndex, c`seenKey, c`overlappedBytes, c`mark
    ensures c.Valid() && CountersAt(c, l, input, n + 1) && stop == StopsBefore(l, input, n)
  {
    ghost var i := c.grandparentIndex;
    stop := c.ShouldStopBefore(IKey(input[n]), l.maxOverlap);
    if n > 0 {
      EarlierIsLess(input, n - 1, n);
    }
    PassedFrom(l.grandparents, IKey(input[n]), i);
    SamePassed(l.grandparents, IKey(input[n]), i, c.grandparentIndex);
  }

  lemma SamePassed(gs: seq<File>, key: InternalKey, i: nat, r: nat)
    requires i <= r <= |gs| && (forall j :: i <= j < r ==> KeyLess(gs[j].largest, key)) && (r < |gs| ==> !KeyLess(gs[r].largest, key))
    ensures Passed(gs, key, i) == r
  {
  }

  /** An entry that is kept, and the end of the file if that reaches the limit. */
  method AddUnlessDropped(drop: bool, l: Limits, input: seq<Entry>, n: nat, ghost smallestSnapshot: nat, ghost base: UserKey -> bool,
                          outputs: seq<File>, builder: seq<Entry>, firstNumber: nat)
      returns (r: seq<File>, rbuilder: seq<Entry>)
    requires GoodEntries(input) && n < |input|
    requires drop <==> HiddenAt(input, n, smallestSnapshot) || Obsolete(input[n], smallestSnapshot, base)
    requires BuiltUpTo(outputs, builder, input, n, smallestSnapshot, base, firstNumber)
    requires CutsUpTo(l, input, n + 1, outputs, builder) && UnderLimit(builder, l.fileSize, l.maxFileSize)
    ensures BuiltUpTo(r, rbuilder, input, n + 1, smallestSnapshot, base, firstNumber)
    ensures CutsUpTo(l, input, n + 1, r, rbuilder) && UnderLimit(rbuilder, l.fileSize, l.maxFileSize)
  {
    r, rbuilder := outputs, builder;
    if !drop {
      rbuilder := builder + [input[n]];
      Longer(Concat(outputs), builder, Survivors(input, n, smallestSnapshot, base), input[n]);
      Below(builder, input[n], l.fileSize, l.maxFileSize);
      OneMore(l, input, n, outputs, builder);
      if l.fileSize(rbuilder) >= l.maxFileSize {
        ghost var more := rbuilder;
        r := FinishOutputFile(input, n + 1, smallestSnapshot, base, outputs, rbuilder, firstNumber, l.fileSize);
        rbuilder := [];
        CutAtLimit(l, input, n + 1, outputs, more, r[|outputs|]);
      }
    }
  }

  /** No stop in an entry's way, or nothing to end. */
  lemma NoCut(l: Limits, input: seq<Entry>, n: nat, outputs: seq<File>, builder: seq<Entry>)
    requires SortedEntries(input) && n < |input| && CutsUpTo(l, input, n, outputs, builder)
    requires builder != [] ==> !StopsBefore(l, input, n)
    ensures CutsUpTo(l, input, n + 1, outputs, builder)
  {
    if builder != [] {
      EarlierIsLess(input, n - 1, n);
    }
    forall i | 0 <= i < |outputs| ensures EndsRightly(l, input, n + 1, outputs[i], NextStart(outputs, builder, i)) {
      assert EndsRightly(l, input, n, outputs[i], NextStart(outputs, builder, i));
    }
  }

  lemma OneMore(l: Limits, input: seq<Entry>, n: nat, outputs: seq<File>, builder: seq<Entry>)
    requires SortedEntries(input) && n < |input| && CutsUpTo(l, input, n + 1, outputs, builder)
    ensures CutsUpTo(l, input, n + 1, outputs, builder + [input[n]])
  {
    var more := builder + [input[n]];
    forall k | 0 <= k < n + 1 ensures KeyAtMost(IKey(input[k]), IKey(input[n])) {
      EarlierIsLess(input, k, n);
    }
    assert Building(l, input, n + 1, more);
    forall i | 0 <= i < |outputs| ensures EndsRightly(l, input, n + 1, outputs[i], NextStart(outputs, more, i)) {
      assert EndsRightly(l, input, n + 1, outputs[i], NextStart(outputs, builder, i));
    }
  }

  /** What ends without a stop inside. */
  lemma BuiltUnbroken(l: Limits, input: seq<Entry>, n: nat, builder: seq<Entry>)
    requires SortedEntries(input) && builder != [] && n <= |input| && Building(l, input, n, builder)
    ensures Unbroken(l, input, IKey(builder[0]), IKey(builder[|builder| - 1]))
  {
    var a, b := IKey(builder[0]), IKey(builder[|builder| - 1]);
    forall k | 0 <= k < |input| && KeyLess(a, IKey(input[k])) && KeyAtMost(IKey(input[k]), b) ensures !StopsBefore(l, input, k) {
      NotBehind(input, k, n - 1);
    }
  }

  ghost predicate Built(l: Limits, builder: seq<Entry>, f: File) {
    builder != [] && f == NewFile(f.number, l.fileSize(builder), builder) && BelowLimit(builder, l.fileSize, l.maxFileSize)
  }

  lemma CutAtStop(l: Limits, input: seq<Entry>, n: nat, outputs: seq<File>, builder: seq<Entry>, f: File)
    requires SortedEntries(input) && n < |input| && CutsUpTo(l, input, n, outputs, builder) && Built(l, builder, f)
    requires StopsBefore(l, input, n)
    ensures CutsUpTo(l, input, n + 1, outputs + [f], [])
  {
    EarlierIsLess(input, n - 1, n);
    assert StopBehind(l, input, n + 1, f, None);
    forall i | 0 <= i < |outputs| ensures EndsRightly(l, input, n + 1, outputs[i], NextStart(outputs, builder, i)) {
      assert EndsRightly(l, input, n, outputs[i], NextStart(outputs, builder, i));
    }
    CutHere(l, input, n, n + 1, outputs, builder, f);
  }

  lemma CutAtLimit(l: Limits, input: seq<Entry>, n: nat, outputs: seq<File>, builder: seq<Entry>, f: File)
    requires SortedEntries(input) && CutsUpTo(l, input, n, outputs, builder) && Built(l, builder, f)
    requires l.fileSize(builder) >= l.maxFileSize
    ensures CutsUpTo(l, input, n, outputs + [f], [])
  {
    CutHere(l, input, n, n, outputs, builder, f);
  }

  lemma CutHere(l: Limits, input: seq<Entry>, n: nat, m: nat, outputs: seq<File>, builder: seq<Entry>, f: File)
    requires SortedEntries(input) && CutsUpTo(l, input, n, outputs, builder) && Built(l, builder, f) && n <= m <= |input|
    requires forall i :: 0 <= i < |outputs| ==> EndsRightly(l, input, m, outputs[i], NextStart(outputs, builder, i))
    requires EndsRightly(l, input, m, f, None)
    ensures CutsUpTo(l, input, m, outputs + [f], [])
  {
    BuiltUnbroken(l, input, n, builder);
    var r := outputs + [f];
    forall i | 0 <= i < |r| ensures EndsRightly(l, input, m, r[i], NextStart(r, [], i)) {
      if i < |outputs| {
        assert NextStart(r, [], i) == NextStart(outputs, builder, i);
      }
    }
  }

  lemma LastCut(l: Limits, input: seq<Entry>, outputs: seq<File>, builder: seq<Entry>, f: File)
    requires SortedEntries(input) && CutsUpTo(l, input, |input|, outputs, builder) && Built(l, builder, f)
    ensures CutExactly(l, input, outputs + [f])
  {
    BuiltUnbroken(l, input, |input|, builder);
    var r := outputs + [f];
    forall i | 0 <= i < |r| - 1 ensures EndsRightly(l, input, |input|, r[i], Some(r[i + 1].smallest)) {
      assert NextStart(outputs, builder, i) == Some(r[i + 1].smallest);
    }
  }

  lemma Longer(done: seq<Entry>, builder: seq<Entry>, es: seq<Entry>, e: Entry)
    requires done + builder == es
    ensures done + (builder + [e]) == es + [e]
  {
  }

  lemma Below(builder: seq<Entry>, e: Entry, fileSize: seq<Entry> -> nat, maxOutputFileSize: nat)
    requires UnderLimit(builder, fileSize, maxOutputFileSize)
    ensures BelowLimit(builder + [e], fileSize, maxOutputFileSize)
    ensures fileSize(builder + [e]) < maxOutputFileSize ==> UnderLimit(builder + [e], fileSize, maxOutputFileSize)
  {
    var more := builder + [e];
    assert forall k :: 0 <= k <= |builder| ==> more[..k] == builder[..k];
    assert more[..|more|] == more;
  }

  lemma LastFileIsValid(es: seq<Entry>, done: seq<Entry>, builder: seq<Entry>, number: nat, size: nat)
    requires GoodEntries(es) && builder != [] && done + builder == es
    ensures ValidFile(NewFile(number, size, builder))
  {
    assert builder == es[|done|..];
    BuiltFileIsValid(es, |done|, number, size);
  }
}
