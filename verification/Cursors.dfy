/** The iterator contract: a position in a sorted list of entries (include/leveldb/iterator.h). */
module Cursors {
  import opened Keys
  import opened Tables

  /** A position in a list; the length of the list stands for an invalid iterator. */
  datatype Cursor = Cursor(list: seq<Entry>, pos: nat) {
    predicate Ok() {
      pos <= |list| && SortedEntries(list)
    }

    predicate Valid() {
      pos < |list|
    }

    function Current(): Entry
      requires Valid()
    {
      list[pos]
    }

    function Key(): InternalKey
      requires Valid()
    {
      IKey(list[pos])
    }

    function SeekToFirst(): Cursor {
      this.(pos := 0)
    }

    function SeekToLast(): Cursor {
      this.(pos := if list == [] then 0 else |list| - 1)
    }

    function Seek(target: InternalKey): Cursor {
      this.(pos := SeekIndex(list, target))
    }

    function Next(): Cursor
      requires Valid()
    {
      this.(pos := pos + 1)
    }

    function Prev(): Cursor
      requires Valid()
    {
      this.(pos := if pos == 0 then |list| else pos - 1)
    }
  }

  /** The seek position is the only place that splits the list at the target. */
  lemma SeekIndexUnique(es: seq<Entry>, k: InternalKey, i: nat)
    requires SortedEntries(es) && i <= |es|
    requires i > 0 ==> KeyLess(IKey(es[i - 1]), k)
    requires i < |es| ==> KeyAtMost(k, IKey(es[i]))
    ensures SeekIndex(es, k) == i
  {
    var j := SeekIndex(es, k);
    if j < i {
      EntriesInOrder(es, j, i - 1);
    }
  }

  lemma EntriesInOrder(es: seq<Entry>, i: nat, j: nat)
    requires SortedEntries(es) && i < |es| && j < |es|
    ensures i < j ==> EntryLess(es[i], es[j])
    ensures j < i ==> EntryLess(es[j], es[i])
  {
  }
}
