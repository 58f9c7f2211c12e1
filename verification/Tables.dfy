/**
 * Table files and the search inside one: the promise of table/table.cc:216-244 and of
 * db/memtable.cc:100-134, which both stop at the first entry at or after the lookup key.
 */
module Tables {
  import opened Keys
  import opened Semantics

  /** FileMetaData together with the entries stored in the file. */
  datatype File = File(number: nat, size: nat, smallest: InternalKey, largest: InternalKey, entries: seq<Entry>)

  predicate ValidFile(f: File) {
    && |f.entries| > 0
    && SortedEntries(f.entries)
    && (forall e :: e in f.entries ==> e.seqno <= kMaxSequenceNumber)
    && f.smallest == IKey(f.entries[0])
    && f.largest == IKey(f.entries[|f.entries| - 1])
  }

  /** Index of the first entry at or after `ik`. */
  function SeekIndex(es: seq<Entry>, ik: InternalKey): (i: nat)
    ensures i <= |es|
    ensures forall j :: 0 <= j < i ==> KeyLess(IKey(es[j]), ik)
    ensures i < |es| ==> KeyAtMost(ik, IKey(es[i]))
  {
    if es == [] then 0
    else if KeyLess(IKey(es[0]), ik) then
      var r := SeekIndex(es[1..], ik);
      assert forall j :: 1 <= j < |es| ==> es[j] == es[1..][j - 1];
      r + 1
    else 0
  }

  /** The entry reported for a read of `k` at `s`, if the first candidate has the right user key. */
  function Search(es: seq<Entry>, k: UserKey, s: nat): Option<Entry> {
    var i := SeekIndex(es, SeekKey(k, s));
    if i < |es| && es[i].key == k then Some(es[i]) else None
  }

  lemma SearchIsNewest(es: seq<Entry>, k: UserKey, s: nat)
    requires SortedEntries(es)
    ensures Search(es, k, s).None? ==> NoneVisible(Elements(es), k, s)
    ensures Search(es, k, s).Some? ==> Newest(Elements(es), k, s, Search(es, k, s).value)
  {
    var i := SeekIndex(es, SeekKey(k, s));
    forall x | x in Elements(es) && Visible(x, k, s)
      ensures i < |es| && es[i].key == k && x.seqno <= es[i].seqno
    {
      var j :| 0 <= j < |es| && es[j] == x;
      assert j >= i;
      if j > i { assert EntryLess(es[i], es[j]); }
    }
  }

  // ---------------------------------------------------------------------
  // Ranges and ages of files
  // ---------------------------------------------------------------------

  /** The user key lies between the smallest and largest user keys of the file. */
  predicate InRange(k: UserKey, f: File) {
    f.smallest.user <= k <= f.largest.user
  }

  lemma EntriesInRange(f: File)
    requires ValidFile(f)
    ensures forall e :: e in f.entries ==>
      InRange(e.key, f) && KeyAtMost(f.smallest, IKey(e)) && KeyAtMost(IKey(e), f.largest)
  {
    forall e | e in f.entries
      ensures InRange(e.key, f) && KeyAtMost(f.smallest, IKey(e)) && KeyAtMost(IKey(e), f.largest)
    {
      var i :| 0 <= i < |f.entries| && f.entries[i] == e;
      var n := |f.entries| - 1;
      assert i == 0 || EntryLess(f.entries[0], f.entries[i]);
      assert i == n || EntryLess(f.entries[i], f.entries[n]);
    }
  }

  /** Where `f` and `g` hold entries of the same user key, those of `f` are newer. */
  ghost predicate NewerThan(f: File, g: File) {
    forall x, y :: x in f.entries && y in g.entries && x.key == y.key ==> x.seqno > y.seqno
  }

  predicate UserDisjoint(f: File, g: File) {
    f.largest.user < g.smallest.user || g.largest.user < f.smallest.user
  }

  lemma DisjointIsNewer(f: File, g: File)
    requires ValidFile(f) && ValidFile(g) && UserDisjoint(f, g)
    ensures NewerThan(f, g)
  {
    EntriesInRange(f);
    EntriesInRange(g);
  }

  /** In internal-key order the newer entries of a user key come first. */
  lemma BeforeIsNewer(f: File, g: File)
    requires ValidFile(f) && ValidFile(g) && KeyLess(f.largest, g.smallest)
    requires forall x, y :: x in f.entries && y in g.entries && x.seqno == y.seqno ==> x == y
    ensures NewerThan(f, g)
  {
    EntriesInRange(f);
    EntriesInRange(g);
  }

  /** The entries of a list of files. */
  ghost function FileEntries(fs: seq<File>): set<Entry> {
    set f, e | f in fs && e in f.entries :: e
  }

  lemma FileEntriesOf(fs: seq<File>, f: File, e: Entry)
    requires f in fs && e in f.entries
    ensures e in FileEntries(fs)
  {
  }

  lemma FileOfEntry(fs: seq<File>, e: Entry) returns (f: File)
    requires e in FileEntries(fs)
    ensures f in fs && e in f.entries
  {
    f :| f in fs && e in f.entries;
  }
}
