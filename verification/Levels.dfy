/**
 * The level invariant across version changes: installing a flushed memtable, a compaction or a
 * trivial move (db/db_impl.cc:491-533, 718-728 and 860-876).
 */
module Levels {
  import opened Keys
  import opened Tables
  import opened Versions
  import opened Overlap
  import opened Inputs
  import opened Edits

  /** The builder's result for one level. */
  ghost predicate EditedLevel(before: seq<File>, after: seq<File>, removed: seq<File>, added: seq<File>) {
    && SortedBySmallest(after)
    && forall f :: f in after <==> (f in before && f !in removed) || f in added
  }

  /** Two different files of a sorted level do not overlap. */
  predicate Apart(f: File, g: File) {
    KeyLess(f.largest, g.smallest) || KeyLess(g.largest, f.smallest)
  }

  predicate AllApart(fs: seq<File>) {
    forall f, g :: f in fs && g in fs && f != g ==> Apart(f, g)
  }

  lemma SortedIsApart(fs: seq<File>)
    requires SortedLevel(fs)
    ensures AllApart(fs)
  {
    forall f, g | f in fs && g in fs && f != g ensures Apart(f, g) {
      SortedPair(fs, f, g);
    }
  }

  /** Files in builder order that do not overlap form a sorted level. */
  lemma ApartIsSorted(fs: seq<File>)
    requires ValidFiles(fs) && SortedBySmallest(fs) && AllApart(fs)
    ensures SortedLevel(fs)
  {
    SpansOrdered(fs);
    forall i, j | 0 <= i < j < |fs| ensures KeyLess(fs[i].largest, fs[j].smallest) {
      assert BySmallest(fs[i], fs[j]);
      assert fs[i] in fs && fs[j] in fs;
      assert Apart(fs[i], fs[j]);
    }
  }

  lemma EditedDistinct(before: seq<File>, after: seq<File>)
    requires DistinctNumbers(before) && SortedBySmallest(after) && forall f :: f in after ==> f in before
    ensures DistinctNumbers(after)
  {
    forall i, j | 0 <= i < j < |after| ensures after[i].number != after[j].number {
      assert BySmallest(after[i], after[j]);
      assert after[i] in before && after[j] in before;
      NumbersIdentify(before, after[i], after[j]);
    }
  }

  // ---------------------------------------------------------------------
  // Replacing the inputs of a compaction by its outputs
  // ---------------------------------------------------------------------

  /** A file that the compaction leaves in place. */
  ghost predicate Kept(v: Version, level: nat, in0: seq<File>, in1: seq<File>, l: nat, f: File) {
    l < |v| && f in v[l] && !(l == level && f in in0) && !(l == level + 1 && f in in1)
  }

  /** Down to the compacted level, what stays is newer than the inputs. */
  ghost predicate KeptNewer(v: Version, level: nat, in0: seq<File>, in1: seq<File>) {
    forall l: nat, f, g :: l <= level && Kept(v, level, in0, in1, l, f) && g in in0 + in1 ==> NewerThan(f, g)
  }

  ghost predicate Chosen(v: Version, level: nat, in0: seq<File>, in1: seq<File>) {
    && level + 1 < |v|
    && (forall f :: f in in0 ==> f in v[level])
    && (forall f :: f in in1 ==> f in v[level + 1])
  }

  /** Every output entry comes from an input file. */
  ghost predicate Derived(outputs: seq<File>, inputs: seq<File>) {
    forall o, e :: o in outputs && e in o.entries ==> e in FileEntries(inputs)
  }

  /** No output overlaps a file that stays at level+1: what the check in SaveTo demands. */
  predicate Fits(v: Version, level: nat, in1: seq<File>, outputs: seq<File>)
    requires level + 1 < |v|
  {
    forall o, f :: o in outputs && f in v[level + 1] && f !in in1 ==> Apart(o, f)
  }

  ghost predicate Replaced(v: Version, w: Version, level: nat, in0: seq<File>, in1: seq<File>, outputs: seq<File>) {
    && level + 1 < |v| == |w|
    && (forall l :: 0 <= l < |v| && l != level && l != level + 1 ==> w[l] == v[l])
    && EditedLevel(v[level], w[level], in0, [])
    && EditedLevel(v[level + 1], w[level + 1], in1, outputs)
  }

  ghost predicate InOrder(v: Version) {
    forall l :: 0 <= l < |v| ==> SortedBySmallest(v[l])
  }

  lemma FilesAfter(v: Version, w: Version, level: nat, in0: seq<File>, in1: seq<File>, outputs: seq<File>, l: nat, f: File)
    requires Replaced(v, w, level, in0, in1, outputs) && l < |w|
    ensures f in w[l] <==> Kept(v, level, in0, in1, l, f) || (l == level + 1 && f in outputs)
  {
  }

  lemma DerivedOlder(f: File, outputs: seq<File>, inputs: seq<File>, o: File)
    requires Derived(outputs, inputs) && o in outputs
    requires forall g :: g in inputs ==> NewerThan(f, g)
    ensures NewerThan(f, o)
  {
    forall x, y | x in f.entries && y in o.entries && x.key == y.key ensures x.seqno > y.seqno {
      var g := FileOfEntry(inputs, y);
      assert NewerThan(f, g);
    }
  }

  lemma DerivedNewer(f: File, outputs: seq<File>, inputs: seq<File>, o: File)
    requires Derived(outputs, inputs) && o in outputs
    requires forall g :: g in inputs ==> NewerThan(g, f)
    ensures NewerThan(o, f)
  {
    forall x, y | x in o.entries && y in f.entries && x.key == y.key ensures x.seqno > y.seqno {
      var g := FileOfEntry(inputs, x);
      assert NewerThan(g, f);
    }
  }

  lemma ReplacedAges(v: Version, w: Version, level: nat, in0: seq<File>, in1: seq<File>, outputs: seq<File>)
    requires AgedLevels(v) && Chosen(v, level, in0, in1)
    requires Replaced(v, w, level, in0, in1, outputs)
    requires Derived(outputs, in0 + in1) && KeptNewer(v, level, in0, in1)
    ensures AgedLevels(w)
  {
    forall l, m, f, g | 0 <= l < m < |w| && f in w[l] && g in w[m] ensures NewerThan(f, g) {
      FilesAfter(v, w, level, in0, in1, outputs, l, f);
      FilesAfter(v, w, level, in0, in1, outputs, m, g);
      if f in v[l] && g in v[m] {
      } else if f in v[l] {
        DerivedOlder(f, outputs, in0 + in1, g);
      } else {
        forall h | h in in0 + in1 ensures NewerThan(h, g) {
          assert h in v[level] || h in v[level + 1];
        }
        DerivedNewer(g, outputs, in0 + in1, f);
      }
    }
  }

  lemma ReplacedSorted(v: Version, w: Version, level: nat, in0: seq<File>, in1: seq<File>, outputs: seq<File>, l: nat)
    requires |v| == kNumLevels && 0 < l < kNumLevels && ValidFiles(v[l]) && SortedLevel(v[l])
    requires InOrder(v) && Replaced(v, w, level, in0, in1, outputs)
    requires ValidFiles(outputs) && SortedLevel(outputs) && Fits(v, level, in1, outputs)
    ensures SortedLevel(w[l])
  {
    SortedIsApart(v[l]);
    SortedIsApart(outputs);
    forall f, g | f in w[l] && g in w[l] && f != g ensures Apart(f, g) {
      FilesAfter(v, w, level, in0, in1, outputs, l, f);
      FilesAfter(v, w, level, in0, in1, outputs, l, g);
    }
    forall f | f in w[l] ensures ValidFile(f) {
      FilesAfter(v, w, level, in0, in1, outputs, l, f);
    }
    ApartIsSorted(w[l]);
  }

  /** Installing a compaction (or a trivial move) keeps the level invariant. */
  lemma ReplacedIsValid(v: Version, w: Version, level: nat, in0: seq<File>, in1: seq<File>, outputs: seq<File>)
    requires ValidVersion(v) && InOrder(v) && Chosen(v, level, in0, in1)
    requires Replaced(v, w, level, in0, in1, outputs)
    requires ValidFiles(outputs) && SortedLevel(outputs)
    requires Derived(outputs, in0 + in1) && KeptNewer(v, level, in0, in1) && Fits(v, level, in1, outputs)
    ensures ValidVersion(w) && InOrder(w)
  {
    forall l | 0 <= l < kNumLevels ensures ValidFiles(w[l]) && SortedBySmallest(w[l]) {
      forall f | f in w[l] ensures ValidFile(f) {
        FilesAfter(v, w, level, in0, in1, outputs, l, f);
      }
    }
    forall l | 0 < l < kNumLevels ensures SortedLevel(w[l]) {
      ReplacedSorted(v, w, level, in0, in1, outputs, l);
    }
    forall f | f in w[0] ensures f in v[0] {
      FilesAfter(v, w, level, in0, in1, outputs, 0, f);
    }
    EditedDistinct(v[0], w[0]);
    ReplacedAges(v, w, level, in0, in1, outputs);
  }

  /** An output that overlaps a file left at level+1 breaks the order of the level. */
  lemma MisfitBreaksLevel(v: Version, w: Version, level: nat, in0: seq<File>, in1: seq<File>, outputs: seq<File>)
    requires Replaced(v, w, level, in0, in1, outputs) && !Fits(v, level, in1, outputs)
    requires forall o :: o in outputs ==> o !in v[level + 1]
    ensures !SortedLevel(w[level + 1])
  {
    var o, f :| o in outputs && f in v[level + 1] && f !in in1 && !Apart(o, f);
    FilesAfter(v, w, level, in0, in1, outputs, level + 1, o);
    FilesAfter(v, w, level, in0, in1, outputs, level + 1, f);
    assert !AllApart(w[level + 1]);
    if SortedLevel(w[level + 1]) { SortedIsApart(w[level + 1]); }
  }

  // ---------------------------------------------------------------------
  // Adding a flushed memtable
  // ---------------------------------------------------------------------

  ghost predicate Added(v: Version, w: Version, level: nat, f: File) {
    && level < |v| == |w|
    && (forall l :: 0 <= l < |v| && l != level ==> w[l] == v[l])
    && EditedLevel(v[level], w[level], [], [f])
  }

  /** The file is newer than everything in the version, and its number is larger. */
  ghost predicate NewestFile(v: Version, f: File) {
    forall l, g :: 0 <= l < |v| && g in v[l] ==> NewerThan(f, g) && f.number > g.number
  }

  lemma FreeIsDisjoint(v: Version, level: nat, f: File, l: nat, g: File)
    requires ValidFile(f) && FreeDownTo(v, level, f.smallest.user, f.largest.user)
    requires l <= level && l < |v| && g in v[l]
    ensures UserDisjoint(f, g)
  {
    assert !Meets(g, Some(f.smallest.user), Some(f.largest.user));
  }

  /** A flush at the level picked for it keeps the level invariant. */
  lemma AddedIsValid(v: Version, w: Version, level: nat, f: File)
    requires ValidVersion(v) && InOrder(v) && ValidFile(f) && NewestFile(v, f)
    requires level > 0 ==> FreeDownTo(v, level, f.smallest.user, f.largest.user)
    requires Added(v, w, level, f)
    ensures ValidVersion(w) && InOrder(w)
  {
    forall l, g | 0 <= l < |v| ensures g in w[l] <==> g in v[l] || (l == level && g == f) {
    }
    forall l, m, g, h | 0 <= l < m < |w| && g in w[l] && h in w[m] ensures NewerThan(g, h) {
      if h !in v[m] {
        FreeIsDisjoint(v, level, f, l, g);
        DisjointIsNewer(g, f);
      }
    }
    if level > 0 {
      SortedIsApart(v[level]);
      forall g | g in v[level] ensures Apart(f, g) {
        FreeIsDisjoint(v, level, f, level, g);
      }
      assert ValidFiles(w[level]);
      ApartIsSorted(w[level]);
    } else {
      AddedDistinct(v[0], w[0], f);
    }
  }

  lemma AddedDistinct(before: seq<File>, after: seq<File>, f: File)
    requires DistinctNumbers(before) && SortedBySmallest(after)
    requires forall g :: g in after ==> g in before || g == f
    requires forall g :: g in before ==> g.number < f.number
    ensures DistinctNumbers(after)
  {
    forall i, j | 0 <= i < j < |after| ensures after[i].number != after[j].number {
      assert BySmallest(after[i], after[j]);
      assert after[i] in after && after[j] in after;
      if after[i] in before && after[j] in before {
        NumbersIdentify(before, after[i], after[j]);
      }
    }
  }
}
