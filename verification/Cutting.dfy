/** Where a compaction ends its output files: db/db_impl.cc:920-927 and 988-995, db/version_set.cc:1554-1576. */
module Cutting {
  import opened Keys
  import opened Tables
  import opened Versions
  import opened Overlap

  /** What bounds an output file: its own size, and the bytes of grandparents it passes. */
  datatype Limits = Limits(fileSize: seq<Entry> -> nat, maxFileSize: nat, grandparents: seq<File>, maxOverlap: nat)

  // ---------------------------------------------------------------------
  // Grandparents passed
  // ---------------------------------------------------------------------

  /** The first grandparent from `i` on that does not end before the key. */
  function Passed(gs: seq<File>, key: InternalKey, i: nat): (r: nat)
    requires i <= |gs|
    ensures i <= r <= |gs| && forall j :: i <= j < r ==> KeyLess(gs[j].largest, key)
    ensures r < |gs| ==> !KeyLess(gs[r].largest, key)
    decreases |gs| - i
  {
    if i < |gs| && KeyLess(gs[i].largest, key) then Passed(gs, key, i + 1) else i
  }

  function SizeBetween(gs: seq<File>, i: nat, j: nat): nat {
    if i <= j <= |gs| then TotalFileSize(gs[i..j]) else 0
  }

  /** From which grandparent the bytes are counted when entry `n` comes: from the last stop, or the first entry. */
  function Mark(l: Limits, input: seq<Entry>, n: nat): nat
    requires n < |input|
    decreases n, 0
  {
    if n == 0 then Passed(l.grandparents, IKey(input[0]), 0)
    else if StopsBefore(l, input, n - 1) then Passed(l.grandparents, IKey(input[n - 1]), 0)
    else Mark(l, input, n - 1)
  }

  /** Too many bytes of grandparents lie between the last stop and entry `n`. */
  predicate StopsBefore(l: Limits, input: seq<Entry>, n: nat)
    requires n < |input|
    decreases n, 1
  {
    SizeBetween(l.grandparents, Mark(l, input, n), Passed(l.grandparents, IKey(input[n]), 0)) > l.maxOverlap
  }

  lemma PassedFrom(gs: seq<File>, key: InternalKey, i: nat)
    requires i <= |gs| && forall j :: 0 <= j < i ==> KeyLess(gs[j].largest, key)
    ensures Passed(gs, key, 0) == Passed(gs, key, i)
  {
  }

  lemma PassedGrows(gs: seq<File>, a: InternalKey, b: InternalKey)
    requires KeyAtMost(a, b)
    ensures Passed(gs, a, 0) <= Passed(gs, b, 0)
  {
  }

  // ---------------------------------------------------------------------
  // Limits of one file
  // ---------------------------------------------------------------------

  /** The size limit is not reached before the last entry. */
  predicate BelowLimit(es: seq<Entry>, fileSize: seq<Entry> -> nat, maxFileSize: nat) {
    forall k :: 0 < k < |es| ==> fileSize(es[..k]) < maxFileSize
  }

  /** Nor with it. */
  predicate UnderLimit(es: seq<Entry>, fileSize: seq<Entry> -> nat, maxFileSize: nat) {
    forall k :: 0 < k <= |es| ==> fileSize(es[..k]) < maxFileSize
  }

  /** No entry is added to a file that has reached the limit. */
  predicate WithinLimit(f: File, fileSize: seq<Entry> -> nat, maxFileSize: nat) {
    f.size == fileSize(f.entries) && BelowLimit(f.entries, fileSize, maxFileSize)
  }

  /** Files cut by the size limit alone: all but the last have just reached it. */
  predicate CutBySize(fs: seq<File>, fileSize: seq<Entry> -> nat, maxFileSize: nat) {
    && (forall i :: 0 <= i < |fs| ==> WithinLimit(fs[i], fileSize, maxFileSize))
    && forall i :: 0 <= i < |fs| - 1 ==> fs[i].size >= maxFileSize
  }

  /** No stop lies within the file. */
  predicate Unbroken(l: Limits, input: seq<Entry>, a: InternalKey, b: InternalKey) {
    forall k :: 0 <= k < |input| && KeyLess(a, IKey(input[k])) && KeyAtMost(IKey(input[k]), b) ==> !StopsBefore(l, input, k)
  }

  /** One of the first `n` entries that follow the file, up to the next one, brought a stop. */
  predicate StopBehind(l: Limits, input: seq<Entry>, n: nat, f: File, next: Option<InternalKey>) {
    exists k :: 0 <= k < n && k < |input| && KeyLess(f.largest, IKey(input[k])) && StopsBefore(l, input, k) &&
      (next.Some? ==> KeyAtMost(IKey(input[k]), next.value))
  }

  predicate EndsRightly(l: Limits, input: seq<Entry>, n: nat, f: File, next: Option<InternalKey>) {
    f.size >= l.maxFileSize || StopBehind(l, input, n, f, next)
  }

  /**
   * The files end exactly where they must: no file goes on behind the entry that reaches the size limit, or across
   * a stop, and each but the last ends at such an entry or at a stop.
   */
  predicate CutExactly(l: Limits, input: seq<Entry>, fs: seq<File>) {
    && (forall i :: 0 <= i < |fs| ==> WithinLimit(fs[i], l.fileSize, l.maxFileSize) && Unbroken(l, input, fs[i].smallest, fs[i].largest))
    && forall i :: 0 <= i < |fs| - 1 ==> EndsRightly(l, input, |input|, fs[i], Some(fs[i + 1].smallest))
  }

  // ---------------------------------------------------------------------
  // What the cuts mean
  // ---------------------------------------------------------------------

  /** The files that end in a range of keys, the upper bound excluded. */
  function EndingIn(gs: seq<File>, a: InternalKey, b: InternalKey): seq<File> {
    if gs == [] then []
    else
      var n := |gs| - 1;
      EndingIn(gs[..n], a, b) + if KeyAtMost(a, gs[n].largest) && KeyLess(gs[n].largest, b) then [gs[n]] else []
  }

  /** In the order of their ends, as in a sorted level. */
  predicate EndsAscend(gs: seq<File>) {
    forall i, j :: 0 <= i < j < |gs| ==> KeyLess(gs[i].largest, gs[j].largest)
  }

  lemma LevelEndsAscend(gs: seq<File>)
    requires ValidFiles(gs) && SortedLevel(gs)
    ensures EndsAscend(gs)
  {
    forall i, j | 0 <= i < j < |gs| ensures KeyLess(gs[i].largest, gs[j].largest) {
      assert gs[j] in gs;
      EntriesInRange(gs[j]);
      assert gs[j].entries[0] in gs[j].entries;
    }
  }

  /** In such a list they are those between the two places. */
  lemma {:induction false} EndingBetween(gs: seq<File>, a: InternalKey, b: InternalKey, p: nat, q: nat, n: nat)
    requires EndsAscend(gs) && p == Passed(gs, a, 0) && q == Passed(gs, b, 0) && p <= q && n <= |gs|
    ensures EndingIn(gs[..n], a, b) == gs[if n < p then n else p..if n < q then n else q]
  {
    if n > 0 {
      EndingBetween(gs, a, b, p, q, n - 1);
      OneMoreEnding(gs, a, b, p, q, n - 1);
      OneMoreBetween(gs, p, q, n - 1);
    }
  }

  lemma OneMoreEnding(gs: seq<File>, a: InternalKey, b: InternalKey, p: nat, q: nat, i: nat)
    requires EndsAscend(gs) && p == Passed(gs, a, 0) && q == Passed(gs, b, 0) && i < |gs|
    ensures EndingIn(gs[..i + 1], a, b) == EndingIn(gs[..i], a, b) + if p <= i < q then [gs[i]] else []
  {
    assert gs[..i + 1][..i] == gs[..i];
    BehindPassed(gs, a, p, i);
    BehindPassed(gs, b, q, i);
  }

  lemma OneMoreBetween(gs: seq<File>, p: nat, q: nat, i: nat)
    requires p <= q && i < |gs|
    ensures gs[if i + 1 < p then i + 1 else p..if i + 1 < q then i + 1 else q] ==
            gs[if i < p then i else p..if i < q then i else q] + if p <= i < q then [gs[i]] else []
  {
  }

  lemma BehindPassed(gs: seq<File>, key: InternalKey, p: nat, i: nat)
    requires EndsAscend(gs) && p == Passed(gs, key, 0) && i < |gs|
    ensures KeyLess(gs[i].largest, key) <==> i < p
  {
  }

  lemma SizeOfEnding(gs: seq<File>, a: InternalKey, b: InternalKey)
    requires EndsAscend(gs) && KeyAtMost(a, b)
    ensures SizeBetween(gs, Passed(gs, a, 0), Passed(gs, b, 0)) == TotalFileSize(EndingIn(gs, a, b))
  {
    PassedGrows(gs, a, b);
    EndingBetween(gs, a, b, Passed(gs, a, 0), Passed(gs, b, 0), |gs|);
    assert gs[..|gs|] == gs;
  }

  /** The entry at which counting began for entry `n`: the last stop before it, or the first entry. */
  lemma {:induction false} CountsFrom(l: Limits, input: seq<Entry>, n: nat) returns (m: nat)
    requires n < |input|
    ensures m <= n && Mark(l, input, n) == Passed(l.grandparents, IKey(input[m]), 0)
    ensures n > 0 ==> m < n && forall k :: m < k < n ==> !StopsBefore(l, input, k)
    ensures m > 0 ==> StopsBefore(l, input, m)
  {
    if n == 0 || StopsBefore(l, input, n - 1) {
      m := if n == 0 then 0 else n - 1;
    } else {
      m := CountsFrom(l, input, n - 1);
    }
  }

  lemma EarlierIsLess(input: seq<Entry>, i: nat, j: nat)
    requires SortedEntries(input) && i <= j < |input|
    ensures KeyAtMost(IKey(input[i]), IKey(input[j])) && (i < j ==> KeyLess(IKey(input[i]), IKey(input[j])))
  {
    if i < j { assert EntryLess(input[i], input[j]); }
  }

  /**
   * A stop comes exactly when the grandparents that end between the last stop, or the first entry, and this entry
   * have too many bytes.
   */
  lemma StopsExactly(l: Limits, input: seq<Entry>, n: nat) returns (m: nat)
    requires SortedEntries(input) && n < |input| && EndsAscend(l.grandparents)
    ensures m <= n && (m > 0 ==> StopsBefore(l, input, m)) && forall k :: m < k < n ==> !StopsBefore(l, input, k)
    ensures n > 0 ==> m < n
    ensures StopsBefore(l, input, n) <==> TotalFileSize(EndingIn(l.grandparents, IKey(input[m]), IKey(input[n]))) > l.maxOverlap
  {
    m := CountsFrom(l, input, n);
    EarlierIsLess(input, m, n);
    SizeOfEnding(l.grandparents, IKey(input[m]), IKey(input[n]));
  }

  lemma {:induction false} PartOfSize(fs: seq<File>, i: nat, j: nat, n: nat)
    requires i <= j <= n <= |fs|
    ensures TotalFileSize(fs[i..j]) <= TotalFileSize(fs[..n])
    decreases n
  {
    if j < n {
      PartOfSize(fs, i, j, n - 1);
      assert fs[..n][..n - 1] == fs[..n - 1];
    } else if i < n {
      PartOfSize(fs, i, n - 1, n - 1);
      assert fs[..n][..n - 1] == fs[..n - 1] && fs[i..n][..n - 1 - i] == fs[i..n - 1];
    } else {
      assert fs[i..j] == [];
    }
  }

  /** A narrower part of the grandparents has no more bytes. */
  lemma {:induction false} PartOfPart(gs: seq<File>, i: nat, p: nat, j: nat)
    requires i <= p <= j <= |gs|
    ensures SizeBetween(gs, p, j) <= SizeBetween(gs, i, j)
  {
    var part := gs[i..j];
    PartOfSize(part, p - i, j - i, j - i);
    assert part[p - i..j - i] == gs[p..j] && part[..j - i] == part;
  }

  /** Without a stop behind entry `i`, counting for entry `n` began at entry `i` or before. */
  lemma {:induction false} MarkStays(l: Limits, input: seq<Entry>, i: nat, n: nat)
    requires SortedEntries(input) && i <= n < |input| && forall k :: i < k < n ==> !StopsBefore(l, input, k)
    ensures Mark(l, input, n) <= Passed(l.grandparents, IKey(input[i]), 0)
  {
    var m := CountsFrom(l, input, n);
    if m <= i {
      EarlierIsLess(input, m, i);
      PassedGrows(l.grandparents, IKey(input[m]), IKey(input[i]));
    }
  }

  /** A file without a stop inside passes only so many bytes of grandparents. */
  lemma UnbrokenOverlapsFew(l: Limits, input: seq<Entry>, i: nat, n: nat)
    requires SortedEntries(input) && i <= n < |input| && EndsAscend(l.grandparents)
    requires Unbroken(l, input, IKey(input[i]), IKey(input[n]))
    ensures TotalFileSize(EndingIn(l.grandparents, IKey(input[i]), IKey(input[n]))) <= l.maxOverlap
  {
    var gs := l.grandparents;
    EarlierIsLess(input, i, n);
    SizeOfEnding(gs, IKey(input[i]), IKey(input[n]));
    PassedGrows(gs, IKey(input[i]), IKey(input[n]));
    if i < n {
      forall k | i < k <= n ensures !StopsBefore(l, input, k) {
        EarlierIsLess(input, i, k);
        EarlierIsLess(input, k, n);
      }
      MarkStays(l, input, i, n);
      PartOfPart(gs, Mark(l, input, n), Passed(gs, IKey(input[i]), 0), Passed(gs, IKey(input[n]), 0));
    } else {
      var p := Passed(gs, IKey(input[i]), 0);
      assert gs[p..p] == [];
    }
  }

  lemma NotBehind(input: seq<Entry>, i: nat, n: nat)
    requires SortedEntries(input) && i < |input| && n < |input| && !EntryLess(input[n], input[i])
    ensures i <= n
  {
  }

  /** No output overlaps more than the limit of the grandparents that end inside it. */
  lemma CutsOverlapFew(l: Limits, input: seq<Entry>, fs: seq<File>, f: File)
    requires SortedEntries(input) && EndsAscend(l.grandparents) && CutExactly(l, input, fs) && f in fs
    requires ValidFile(f) && forall e :: e in f.entries ==> e in input
    ensures TotalFileSize(EndingIn(l.grandparents, f.smallest, f.largest)) <= l.maxOverlap
  {
    var es := f.entries;
    assert es[0] in es && es[|es| - 1] in es;
    var i :| 0 <= i < |input| && input[i] == es[0];
    var n :| 0 <= n < |input| && input[n] == es[|es| - 1];
    assert |es| > 1 ==> EntryLess(es[0], es[|es| - 1]);
    NotBehind(input, i, n);
    UnbrokenOverlapsFew(l, input, i, n);
  }

  /** Where the grandparents are small there are no stops, and only the size cuts. */
  lemma SmallGrandparents(l: Limits, input: seq<Entry>, fs: seq<File>)
    requires TotalFileSize(l.grandparents) <= l.maxOverlap
    ensures CutExactly(l, input, fs) <==> CutBySize(fs, l.fileSize, l.maxFileSize)
  {
    forall k | 0 <= k < |input| ensures !StopsBefore(l, input, k) {
      var gs, i, j := l.grandparents, Mark(l, input, k), Passed(l.grandparents, IKey(input[k]), 0);
      if i <= j {
        PartOfSize(gs, i, j, |gs|);
        assert gs[..|gs|] == gs;
      }
    }
    if CutExactly(l, input, fs) {
      forall i | 0 <= i < |fs| - 1 ensures fs[i].size >= l.maxFileSize {
        assert EndsRightly(l, input, |input|, fs[i], Some(fs[i + 1].smallest));
      }
    }
  }
}
