/** Replaying the manifest: db/version_set.cc:886-1011 and 1088-1116. */
module ManifestReplay {
  import opened Keys
  import opened Tables
  import opened Versions
  import opened Edits
  import opened LogFormat
  import opened LogReader
  import Manifest
  import Varint
  import LogRecovery

  // ---------------------------------------------------------------------
  // What the records of a manifest say
  // ---------------------------------------------------------------------

  /** What a record in the manifest does to the levels; `open` is the file that metadata describes. */
  function Meaning(e: Manifest.Edit, open: Manifest.FileMeta -> File): VersionEdit {
    VersionEdit(set d | d in e.deletedFiles,
                seq(|e.newFiles|, i requires 0 <= i < |e.newFiles| => (e.newFiles[i].0, open(e.newFiles[i].1))))
  }

  function Decoded(record: Bytes): (Manifest.Edit, bool) {
    Manifest.DecodeFields(record, 0, Manifest.Fresh)
  }

  /** Well formed, and made with the same comparator. */
  predicate Accepted(record: Bytes, comparator: Bytes) {
    var (e, ok) := Decoded(record);
    ok && (e.comparator.Some? ==> e.comparator.value == comparator)
  }

  predicate AllAccepted(records: seq<Bytes>, comparator: Bytes) {
    forall i :: 0 <= i < |records| ==> Accepted(records[i], comparator)
  }

  function EditsOf(records: seq<Bytes>, open: Manifest.FileMeta -> File): (r: seq<VersionEdit>)
    ensures |r| == |records| && forall i {:trigger r[i]} :: 0 <= i < |r| ==> r[i] == Meaning(Decoded(records[i]).0, open)
  {
    seq(|records|, i requires 0 <= i < |records| => Meaning(Decoded(records[i]).0, open))
  }

  /** The numbers found so far; a later record overrides an earlier one. */
  datatype Numbers = Numbers(log: Option<nat>, prevLog: Option<nat>, nextFile: Option<nat>, lastSequence: Option<nat>)

  function Override(old_: Option<nat>, new_: Option<nat>): Option<nat> {
    if new_.Some? then new_ else old_
  }

  function Counted(n: Numbers, e: Manifest.Edit): Numbers {
    Numbers(Override(n.log, e.logNumber), Override(n.prevLog, e.prevLogNumber),
            Override(n.nextFile, e.nextFileNumber), Override(n.lastSequence, e.lastSequence))
  }

  const NoNumbers: Numbers := Numbers(None, None, None, None)

  function CountedAll(records: seq<Bytes>): Numbers {
    if records == [] then NoNumbers
    else Counted(CountedAll(records[..|records| - 1]), Decoded(records[|records| - 1]).0)
  }

  /** What the version set knows after recovery. */
  datatype Recovered = Recovered(version: Version, logNumber: nat, prevLogNumber: nat, nextFile: nat, lastSequence: nat)

  /** Recovery fails for any corruption, any bad record and any number that is missing. */
  predicate Succeeds(records: seq<Bytes>, reports: nat, comparator: Bytes) {
    var n := CountedAll(records);
    reports == 0 && AllAccepted(records, comparator) && n.log.Some? && n.nextFile.Some? && n.lastSequence.Some?
  }

  /** The levels that one builder makes of all edits, and the numbers. */
  ghost predicate IsRecovered(records: seq<Bytes>, open: Manifest.FileMeta -> File, r: Recovered) {
    && |r.version| == kNumLevels
    && (forall l :: 0 <= l < kNumLevels ==> IsReplayed(records, open, r.version, l))
    && var n := CountedAll(records);
    && n.log == Some(r.logNumber) && n.lastSequence == Some(r.lastSequence)
    && n.nextFile.Some? && r.nextFile == n.nextFile.value + 1
    && r.prevLogNumber == (if n.prevLog.Some? then n.prevLog.value else 0)
  }

  ghost predicate IsReplayed(records: seq<Bytes>, open: Manifest.FileMeta -> File, v: Version, l: nat)
    requires l < |v|
  {
    SortedBySmallest(v[l]) && FileSet(v[l]) == Saved([], ApplyAll(Empty, l, EditsOf(records, open)))
  }

  // ---------------------------------------------------------------------
  // Levels stay in range, additions stay in order
  // ---------------------------------------------------------------------

  predicate LevelsFit(e: Manifest.Edit) {
    && (forall d :: d in e.deletedFiles ==> d.0 < kNumLevels)
    && (forall a :: a in e.newFiles ==> a.0 < kNumLevels)
  }

  lemma {:induction false} InsertPairMembers(s: seq<(nat, nat)>, x: (nat, nat))
    ensures forall d :: d in Manifest.InsertPair(s, x) ==> d in s || d == x
  {
    if s != [] && !Manifest.PairLess(s[|s| - 1], x) && s[|s| - 1] != x {
      InsertPairMembers(s[..|s| - 1], x);
    }
  }

  lemma BodyFits(tag: nat, b: Bytes, p: nat, e: Manifest.Edit)
    requires LevelsFit(e) && Manifest.GetBody(tag, b, p).Some?
    ensures LevelsFit(Manifest.ApplyField(e, Manifest.GetBody(tag, b, p).value.0))
  {
    var f := Manifest.GetBody(tag, b, p).value.0;
    if f.DeletedFile? { InsertPairMembers(e.deletedFiles, (f.level, f.number)); }
  }

  /** The decoder accepts no level out of range. */
  lemma {:induction false} DecodedFits(b: Bytes, p: nat, e: Manifest.Edit)
    requires LevelsFit(e)
    ensures LevelsFit(Manifest.DecodeFields(b, p, e).0)
    decreases |b| - p
  {
    var tag := Varint.Decode32(b, p);
    if tag.Some? {
      var body := Manifest.GetBody(tag.value.0, b, tag.value.1);
      if body.Some? {
        BodyFits(tag.value.0, b, tag.value.1, e);
        DecodedFits(b, body.value.1, Manifest.ApplyField(e, body.value.0));
      }
    }
  }

  lemma {:induction false} ReplayedIsSorted(l: nat, edits: seq<VersionEdit>)
    ensures SortedBySmallest(ApplyAll(Empty, l, edits).added)
  {
    if edits != [] {
      var e := edits[|edits| - 1];
      ReplayedIsSorted(l, edits[..|edits| - 1]);
      var s := ApplyAll(Empty, l, edits[..|edits| - 1]);
      AddFilesSorted(LevelState(s.deleted + set d | d in e.deletedFiles && d.0 == l :: d.1, s.added), l, e.newFiles, |e.newFiles|);
    }
  }

  lemma EditsGrow(records: seq<Bytes>, record: Bytes, open: Manifest.FileMeta -> File, l: nat)
    ensures ApplyAll(Empty, l, EditsOf(records + [record], open)) ==
            ApplyLevel(ApplyAll(Empty, l, EditsOf(records, open)), l, Meaning(Decoded(record).0, open))
    ensures CountedAll(records + [record]) == Counted(CountedAll(records), Decoded(record).0)
  {
    var more := EditsOf(records + [record], open);
    assert more[..|more| - 1] == EditsOf(records, open);
    assert (records + [record])[..|records|] == records;
  }

  // ---------------------------------------------------------------------
  // VersionSet::Recover
  // ---------------------------------------------------------------------

  /** The version a recovery begins with. */
  const Levelless: Version := [[], [], [], [], [], [], []]

  /** The builder holds what the records say, level by level. */
  ghost predicate Holds(levels: seq<LevelState>, records: seq<Bytes>, open: Manifest.FileMeta -> File) {
    |levels| == kNumLevels && forall l :: 0 <= l < kNumLevels ==> levels[l] == ApplyAll(Empty, l, EditsOf(records, open))
  }

  /** One record: decoded, checked against the comparator, and applied if it is good. */
  method TakeRecord(record: Bytes, comparator: Bytes, open: Manifest.FileMeta -> File, builder: Builder, numbers: Numbers,
                    ghost done: seq<Bytes>)
      returns (ok: bool, n: Numbers)
    requires numbers == CountedAll(done) && Holds(builder.levels[..], done, open)
    modifies builder.levels
    ensures ok == Accepted(record, comparator) && n == CountedAll(done + [record])
    ensures ok ==> Holds(builder.levels[..], done + [record], open)
  {
    var edit;
    edit, ok := Manifest.DecodeFrom(Manifest.Fresh, record);
    DecodedFits(record, 0, Manifest.Fresh);
    if ok && edit.comparator.Some? && edit.comparator.value != comparator {
      ok := false;
    }
    forall l | 0 <= l < kNumLevels
      ensures ApplyAll(Empty, l, EditsOf(done + [record], open)) ==
              ApplyLevel(ApplyAll(Empty, l, EditsOf(done, open)), l, Meaning(Decoded(record).0, open))
    {
      EditsGrow(done, record, open, l);
    }
    EditsGrow(done, record, open, 0);
    if ok {
      builder.Apply(Meaning(edit, open));
    }
    n := Counted(numbers, edit);
  }

  lemma OneMoreAccepted(done: seq<Bytes>, record: Bytes, comparator: Bytes)
    ensures AllAccepted(done + [record], comparator) <==> AllAccepted(done, comparator) && Accepted(record, comparator)
  {
    var all := done + [record];
    assert all[|done|] == record && forall i :: 0 <= i < |done| ==> all[i] == done[i];
  }

  /** Reads the manifest to its end, or to the first corruption or bad record, with one builder for all edits. */
  method ReadEdits(crc: Crc, file: Bytes, comparator: Bytes, open: Manifest.FileMeta -> File, builder: Builder)
      returns (ok: bool, numbers: Numbers)
    requires builder.levels.Length == kNumLevels && forall l :: 0 <= l < kNumLevels ==> builder.levels[l] == Empty
    modifies builder.levels
    ensures var (records, reports) := ReadAll(crc, true, file, Start);
      && (ok <==> reports == 0 && AllAccepted(records, comparator))
      && (ok ==> numbers == CountedAll(records) && Holds(builder.levels[..], records, open))
  {
    numbers, ok := NoNumbers, true;
    ghost var done: seq<Bytes> := [];
    var reader := new Reader(crc, true, file);
    assert EditsOf([], open) == [];
    FirstRemains(crc, file, reader.Abs());
    var record := reader.ReadRecord();
    while record.Some? && ok && reader.reports == 0
      invariant AmongAll(crc, file, Start, done, record, reader.Abs())
      invariant numbers == CountedAll(done) && (ok ==> Holds(builder.levels[..], done, open))
      invariant ok <==> AllAccepted(done, comparator)
      decreases record.Some?, |file| - Position(reader.Abs())
    {
      ok, numbers := TakeRecord(record.value, comparator, open, builder, numbers, done);
      NextRemains(crc, file, Start, done, record.value, reader.Abs());
      OneMoreAccepted(done, record.value, comparator);
      done := done + [record.value];
      ghost var levels := builder.levels[..];
      record := reader.ReadRecord();
      assert builder.levels[..] == levels;
    }
    StopsRight(crc, file, comparator, record, reader.Abs(), done);
    ok := ok && reader.reports == 0;
  }

  /** What recovery makes of the bytes of a manifest: nothing, exactly when it fails. */
  ghost predicate IsRecovery(crc: Crc, comparator: Bytes, open: Manifest.FileMeta -> File, manifest: Bytes, base: Option<Recovered>) {
    var (records, reports) := ReadAll(crc, true, manifest, Start);
    (base.Some? <==> Succeeds(records, reports, comparator)) && (base.Some? ==> IsRecovered(records, open, base.value))
  }

  /** VersionSet::Recover. */
  method Recover(crc: Crc, file: Bytes, comparator: Bytes, open: Manifest.FileMeta -> File) returns (r: Option<Recovered>)
    ensures IsRecovery(crc, comparator, open, file, r)
  {
    ghost var records := ReadAll(crc, true, file, Start).0;
    var builder := new Builder(Levelless);
    var ok, numbers := ReadEdits(crc, file, comparator, open, builder);
    r := None;
    if ok {
      r := Install(builder, numbers, records, open);
    }
  }

  /** The recovered version and its numbers, unless a number is missing. */
  method Install(builder: Builder, n: Numbers, ghost done: seq<Bytes>, ghost open: Manifest.FileMeta -> File)
      returns (r: Option<Recovered>)
    requires builder.base == Levelless && n == CountedAll(done) && Holds(builder.levels[..], done, open)
    ensures r.Some? <==> n.nextFile.Some? && n.log.Some? && n.lastSequence.Some?
    ensures r.Some? ==> IsRecovered(done, open, r.value)
  {
    if n.nextFile.None? || n.log.None? || n.lastSequence.None? {
      return None;
    }
    forall l | 0 <= l < kNumLevels ensures SortedBySmallest(builder.levels[l].added) {
      ReplayedIsSorted(l, EditsOf(done, open));
    }
    var v := builder.SaveTo();
    forall l | 0 <= l < kNumLevels ensures IsReplayed(done, open, v, l) {
      SavedIsReplayed(done, open, v, l, builder.levels[l]);
    }
    r := Some(Recovered(v, n.log.value, if n.prevLog.Some? then n.prevLog.value else 0, n.nextFile.value + 1, n.lastSequence.value));
  }

  lemma SavedIsReplayed(records: seq<Bytes>, open: Manifest.FileMeta -> File, v: Version, l: nat, s: LevelState)
    requires l < |v| && SortedBySmallest(v[l]) && s == ApplyAll(Empty, l, EditsOf(records, open))
    requires forall f :: f in v[l] <==> f in Saved([], s)
    ensures IsReplayed(records, open, v, l)
  {
  }

  /** Where the loop stops before the end, there has been a corruption or a bad record. */
  lemma StopsRight(crc: Crc, file: Bytes, comparator: Bytes, record: Option<Bytes>, r: ReaderState, done: seq<Bytes>)
    requires AmongAll(crc, file, Start, done, record, r)
    ensures var (records, reports) := ReadAll(crc, true, file, Start);
      && reports >= r.reports
      && (!AllAccepted(done, comparator) ==> !AllAccepted(records, comparator))
      && (record.None? ==> records == done && reports == r.reports)
  {
    var (records, reports) := ReadAll(crc, true, file, Start);
    ReportsGrow(crc, true, file, r);
    if i :| 0 <= i < |done| && !Accepted(done[i], comparator) {
      assert records[i] == done[i];
    }
  }

  // ---------------------------------------------------------------------
  // What recovery restores
  // ---------------------------------------------------------------------

  /** The versions that the edits made one after another, as LogAndApply made them, from an empty one on. */
  ghost predicate MadeInTurn(versions: seq<Version>, edits: seq<VersionEdit>) {
    && |versions| == |edits| + 1 && versions[0] == Levelless
    && forall i :: 0 <= i < |edits| ==> MadeAt(versions, edits, i)
  }

  ghost predicate MadeAt(versions: seq<Version>, edits: seq<VersionEdit>, i: nat)
    requires i < |edits| && i + 1 < |versions|
  {
    Follows(versions[i], versions[i + 1], edits[i])
  }

  /** One edit, applied by LogAndApply, is one edit applied to the files of each level. */
  lemma FollowsIsApplied(v: Version, w: Version, e: VersionEdit, l: nat)
    requires Follows(v, w, e) && l < kNumLevels
    ensures FileSet(w[l]) == Applied(FileSet(v[l]), l, e)
  {
    forall f ensures f in FileSet(w[l]) <==> f in Applied(FileSet(v[l]), l, e) {
      if (l, f) in e.newFiles { assert f in AddedAt(e, l); }
    }
  }

  lemma {:induction false} MadeIsInTurn(versions: seq<Version>, edits: seq<VersionEdit>, n: nat, l: nat)
    requires MadeInTurn(versions, edits) && n <= |edits| && l < kNumLevels
    ensures |versions[n]| == kNumLevels && SortedBySmallest(versions[n][l])
    ensures FileSet(versions[n][l]) == AppliedInTurn({}, l, edits[..n])
  {
    if n > 0 {
      MadeIsInTurn(versions, edits, n - 1, l);
      assert MadeAt(versions, edits, n - 1);
      FollowsIsApplied(versions[n - 1], versions[n], edits[n - 1], l);
      assert edits[..n][..n - 1] == edits[..n - 1];
    }
  }

  /** Every file number is added to a level for one file only. */
  ghost predicate NumbersUsedOnce(edits: seq<VersionEdit>) {
    forall l :: 0 <= l < kNumLevels ==> NumbersName([], l, edits)
  }

  lemma FewerNumbers(edits: seq<VersionEdit>, n: nat)
    requires NumbersUsedOnce(edits) && n <= |edits|
    ensures NumbersUsedOnce(edits[..n])
  {
    forall l | 0 <= l < kNumLevels ensures NumbersName([], l, edits[..n]) {
      assert NumbersName([], l, edits);
      forall f | f in Mentioned([], l, edits[..n]) ensures f in Mentioned([], l, edits) {
        var e, a :| e in edits[..n] && a in e.newFiles && a.0 == l && a.1 == f;
        assert e in edits;
      }
    }
  }

  lemma SameSets(fs: seq<File>, gs: seq<File>)
    requires SortedBySmallest(fs) && SortedBySmallest(gs) && FileSet(fs) == FileSet(gs)
    ensures fs == gs
  {
    forall f ensures f in fs <==> f in gs {
      assert f in fs <==> f in FileSet(fs);
      assert f in gs <==> f in FileSet(gs);
    }
    SameMembersSameLevel(fs, gs);
  }

  lemma ReplayIsAll(l: nat, edits: seq<VersionEdit>)
    requires NumbersUsedOnce(edits) && l < kNumLevels
    ensures Saved([], ApplyAll(Empty, l, edits)) == AppliedInTurn({}, l, edits)
  {
    assert edits[..|edits|] == edits && NumbersName([], l, edits);
    ReplayIsInTurn([], l, edits, |edits|);
    assert FileSet([]) == {};
  }

  /** One builder for the whole manifest ends at the version that the edits made one after another. */
  lemma ReplayedIsMade(versions: seq<Version>, edits: seq<VersionEdit>, fs: seq<File>, l: nat)
    requires MadeInTurn(versions, edits) && NumbersUsedOnce(edits) && l < kNumLevels
    requires SortedBySmallest(fs) && FileSet(fs) == Saved([], ApplyAll(Empty, l, edits))
    ensures |versions[|edits|]| == kNumLevels && fs == versions[|edits|][l]
  {
    MadeIsInTurn(versions, edits, |edits|, l);
    assert edits[..|edits|] == edits;
    ReplayIsAll(l, edits);
    SameSets(fs, versions[|edits|][l]);
  }

  /** The manifest holds the encodings of edits. */
  predicate Encodes(records: seq<Bytes>, edits: seq<Manifest.Edit>) {
    && |records| == |edits|
    && forall i :: 0 <= i < |edits| ==> EncodesAt(records, edits, i)
  }

  predicate EncodesAt(records: seq<Bytes>, edits: seq<Manifest.Edit>, i: nat)
    requires i < |records| && i < |edits|
  {
    Manifest.FitsEdit(edits[i]) && records[i] == Manifest.EncodeFields(Manifest.FieldsOf(edits[i]))
  }

  lemma EncodedIsDecoded(records: seq<Bytes>, edits: seq<Manifest.Edit>, i: nat)
    requires Encodes(records, edits) && i < |edits|
    ensures Decoded(records[i]) == (edits[i], true)
  {
    assert EncodesAt(records, edits, i);
    Manifest.EditRoundTrip(edits[i], Manifest.Fresh);
  }

  function Meanings(edits: seq<Manifest.Edit>, open: Manifest.FileMeta -> File): (r: seq<VersionEdit>)
    ensures |r| == |edits| && forall i {:trigger r[i]} :: 0 <= i < |r| ==> r[i] == Meaning(edits[i], open)
  {
    seq(|edits|, i requires 0 <= i < |edits| => Meaning(edits[i], open))
  }

  /** The numbers after the first `n` edits, when every edit but snapshots carries all of them. */
  function NumbersAfter(edits: seq<Manifest.Edit>): Numbers {
    if edits == [] then NoNumbers
    else Counted(NumbersAfter(edits[..|edits| - 1]), edits[|edits| - 1])
  }

  lemma {:induction false} CountedIsNumbers(records: seq<Bytes>, edits: seq<Manifest.Edit>)
    requires Encodes(records, edits)
    ensures CountedAll(records) == NumbersAfter(edits)
  {
    if edits != [] {
      var n := |edits| - 1;
      forall i | 0 <= i < n ensures EncodesAt(records[..n], edits[..n], i) {
        assert EncodesAt(records, edits, i);
      }
      CountedIsNumbers(records[..n], edits[..n]);
      EncodedIsDecoded(records, edits, n);
    }
  }

  /** Recovery succeeds exactly if the edits carry all numbers, and then finds the version and numbers they left. */
  ghost predicate Restored(edits: seq<Manifest.Edit>, v: Version, r: Option<Recovered>) {
    var c := NumbersAfter(edits);
    && (r.Some? <==> c.log.Some? && c.nextFile.Some? && c.lastSequence.Some?)
    && (r.Some? ==> r.value.version == v && c.log == Some(r.value.logNumber) &&
                    c.lastSequence == Some(r.value.lastSequence) && r.value.nextFile == c.nextFile.value + 1)
  }

  /** A manifest that reads as the encodings of edits. */
  lemma RecoversEdits(crc: Crc, comparator: Bytes, open: Manifest.FileMeta -> File, edits: seq<Manifest.Edit>, records: seq<Bytes>,
                      versions: seq<Version>, file: Bytes, r: Option<Recovered>)
    requires Encodes(records, edits) && SameComparator(edits, comparator)
    requires MadeInTurn(versions, Meanings(edits, open)) && NumbersUsedOnce(Meanings(edits, open))
    requires ReadAll(crc, true, file, Start) == (records, 0) && IsRecovery(crc, comparator, open, file, r)
    ensures Restored(edits, versions[|edits|], r)
  {
    CountedIsNumbers(records, edits);
    AcceptedAll(records, edits, comparator);
    if r.Some? {
      MeaningsFound(records, edits, open);
      RecoveredIsMade(records, open, versions, r.value);
    }
  }

  /**
   * Manifest recovery, at any moment and after a crash at any byte. Whatever prefix of the file is left,
   * recovery sees the first `m` edits, the ones wholly inside it. It succeeds if and only if they carry all
   * numbers, and then it restores the version and the numbers as the `m`-th edit left them.
   */
  lemma RecoverAfterCrash(crc: Crc, comparator: Bytes, open: Manifest.FileMeta -> File, edits: seq<Manifest.Edit>,
                          records: seq<Bytes>, versions: seq<Version>, n: nat, r: Option<Recovered>)
      returns (m: nat)
    requires Encodes(records, edits) && n <= |EncodeAll(crc, records)|
    requires SameComparator(edits, comparator)
    requires MadeInTurn(versions, Meanings(edits, open)) && NumbersUsedOnce(Meanings(edits, open))
    requires IsRecovery(crc, comparator, open, EncodeAll(crc, records)[..n], r)
    ensures m <= |edits| && forall i :: 0 <= i <= |edits| ==> (i <= m <==> |EncodeAll(crc, records[..i])| <= n)
    ensures Restored(edits[..m], versions[m], r)
  {
    m := LogRecovery.CrashPrefix(crc, true, records, n);
    PrefixEncodes(records, edits, m);
    PrefixMade(edits, open, versions, m);
    RecoversEdits(crc, comparator, open, edits[..m], records[..m], versions[..m + 1], EncodeAll(crc, records)[..n], r);
  }

  lemma RecoveredIsMade(records: seq<Bytes>, open: Manifest.FileMeta -> File, versions: seq<Version>, r: Recovered)
    requires MadeInTurn(versions, EditsOf(records, open)) && NumbersUsedOnce(EditsOf(records, open))
    requires IsRecovered(records, open, r)
    ensures r.version == versions[|records|]
  {
    var edits, v := EditsOf(records, open), versions[|records|];
    MadeIsInTurn(versions, edits, |edits|, 0);
    forall l | 0 <= l < kNumLevels ensures r.version[l] == v[l] {
      assert IsReplayed(records, open, r.version, l);
      ReplayedIsMade(versions, edits, r.version[l], l);
    }
  }

  predicate SameComparator(edits: seq<Manifest.Edit>, comparator: Bytes) {
    forall i {:trigger edits[i]} :: 0 <= i < |edits| && edits[i].comparator.Some? ==> edits[i].comparator.value == comparator
  }

  lemma PrefixEncodes(records: seq<Bytes>, edits: seq<Manifest.Edit>, m: nat)
    requires Encodes(records, edits) && m <= |edits|
    ensures Encodes(records[..m], edits[..m])
  {
    forall i | 0 <= i < m ensures EncodesAt(records[..m], edits[..m], i) {
      assert EncodesAt(records, edits, i);
    }
  }

  lemma AcceptedAll(records: seq<Bytes>, edits: seq<Manifest.Edit>, comparator: Bytes)
    requires Encodes(records, edits)
    requires SameComparator(edits, comparator)
    ensures AllAccepted(records, comparator)
  {
    forall i | 0 <= i < |records| ensures Accepted(records[i], comparator) {
      EncodedIsDecoded(records, edits, i);
    }
  }

  lemma MeaningsFound(records: seq<Bytes>, edits: seq<Manifest.Edit>, open: Manifest.FileMeta -> File)
    requires Encodes(records, edits)
    ensures EditsOf(records, open) == Meanings(edits, open)
  {
    var a, b := EditsOf(records, open), Meanings(edits, open);
    forall i | 0 <= i < |edits| ensures a[i] == b[i] {
      EncodedIsDecoded(records, edits, i);
    }
  }

  lemma PrefixMade(edits: seq<Manifest.Edit>, open: Manifest.FileMeta -> File, versions: seq<Version>, m: nat)
    requires MadeInTurn(versions, Meanings(edits, open)) && NumbersUsedOnce(Meanings(edits, open)) && m <= |edits|
    ensures MadeInTurn(versions[..m + 1], Meanings(edits[..m], open)) && NumbersUsedOnce(Meanings(edits[..m], open))
  {
    assert Meanings(edits[..m], open) == Meanings(edits, open)[..m];
    FewerNumbers(Meanings(edits, open), m);
    var vs, es := versions[..m + 1], Meanings(edits[..m], open);
    forall i | 0 <= i < m ensures MadeAt(vs, es, i) {
      assert MadeAt(versions, Meanings(edits, open), i);
    }
  }

  // ---------------------------------------------------------------------
  // The snapshot at the start of a new manifest
  // ---------------------------------------------------------------------

  /** WriteSnapshot: one edit with the comparator, the compaction pointers that are set, and every file of the version. */
  method WriteSnapshot(comparator: Bytes, pointers: seq<Bytes>, v: Version, describe: File -> Manifest.FileMeta) returns (e: Manifest.Edit)
    requires |v| == kNumLevels == |pointers|
    ensures e.comparator == Some(comparator) && e.deletedFiles == []
    ensures e.logNumber.None? && e.prevLogNumber.None? && e.nextFileNumber.None? && e.lastSequence.None?
    ensures forall l: nat, p :: (l, p) in e.compactPointers <==> l < kNumLevels && p == pointers[l] != []
    ensures Lists(e.newFiles, v, describe)
  {
    var saved: seq<(nat, Bytes)> := [];
    for level := 0 to kNumLevels
      invariant forall l: nat, p :: (l, p) in saved <==> l < level && p == pointers[l] != []
    {
      if pointers[level] != [] {
        saved := saved + [(level, pointers[level])];
      }
    }
    var news := ListFiles(v, describe);
    e := Manifest.Edit(Some(comparator), None, None, None, None, saved, [], news);
  }

  /** The list describes every file of the version. */
  ghost predicate Lists(news: seq<(nat, Manifest.FileMeta)>, v: Version, describe: File -> Manifest.FileMeta) {
    forall l: nat, m :: (l, m) in news <==> l < |v| && exists f :: f in v[l] && m == describe(f)
  }

  method ListFiles(v: Version, describe: File -> Manifest.FileMeta) returns (news: seq<(nat, Manifest.FileMeta)>)
    ensures Lists(news, v, describe)
  {
    news := [];
    for level := 0 to |v|
      invariant forall l: nat, m :: (l, m) in news <==> l < level && exists f :: f in v[l] && m == describe(f)
    {
      for i := 0 to |v[level]|
        invariant forall l: nat, m :: (l, m) in news <==>
          (l < level && exists f :: f in v[l] && m == describe(f)) || (l == level && exists f :: f in v[level][..i] && m == describe(f))
      {
        assert v[level][..i + 1] == v[level][..i] + [v[level][i]];
        news := news + [(level, describe(v[level][i]))];
      }
      assert v[level][..|v[level]|] == v[level];
    }
  }

  /** Where the files are as described, it means a snapshot of the version. */
  lemma SnapshotMeans(e: Manifest.Edit, v: Version, describe: File -> Manifest.FileMeta, open: Manifest.FileMeta -> File)
    requires |v| == kNumLevels && e.deletedFiles == [] && Lists(e.newFiles, v, describe)
    requires forall l, f :: 0 <= l < |v| && f in v[l] ==> open(describe(f)) == f
    ensures IsSnapshot(v, Meaning(e, open))
  {
    var what := Meaning(e, open);
    forall l: nat, f ensures (l, f) in what.newFiles <==> l < kNumLevels && f in v[l] {
      if (l, f) in what.newFiles {
        var i :| 0 <= i < |e.newFiles| && what.newFiles[i] == (l, f);
        assert (e.newFiles[i].0, e.newFiles[i].1) in e.newFiles;
      }
      if l < kNumLevels && f in v[l] {
        assert (l, describe(f)) in e.newFiles;
        var i :| 0 <= i < |e.newFiles| && e.newFiles[i] == (l, describe(f));
        assert what.newFiles[i] == (l, f);
      }
    }
  }

  ghost predicate IsSnapshot(v: Version, e: VersionEdit) {
    |v| == kNumLevels && e.deletedFiles == {} && forall l: nat, f :: (l, f) in e.newFiles <==> l < kNumLevels && f in v[l]
  }

  /** A manifest that starts with a snapshot of a version means what the later edits make of that version. */
  lemma {:induction false} SnapshotIsBase(v: Version, snapshot: VersionEdit, edits: seq<VersionEdit>, l: nat)
    requires IsSnapshot(v, snapshot) && l < kNumLevels
    ensures AppliedInTurn({}, l, [snapshot] + edits) == AppliedInTurn(FileSet(v[l]), l, edits)
    decreases |edits|
  {
    var all := [snapshot] + edits;
    if edits == [] {
      assert all[..0] == [] && all[0] == snapshot;
      forall f ensures f in Applied({}, l, snapshot) <==> f in FileSet(v[l]) {
        if (l, f) in snapshot.newFiles { assert f in AddedAt(snapshot, l); }
      }
      assert AppliedInTurn({}, l, all) == Applied(AppliedInTurn({}, l, all[..0]), l, snapshot);
    } else {
      var init := edits[..|edits| - 1];
      SnapshotIsBase(v, snapshot, init, l);
      assert all[..|all| - 1] == [snapshot] + init && all[|all| - 1] == edits[|edits| - 1];
    }
  }
}
