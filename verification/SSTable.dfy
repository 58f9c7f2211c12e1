/**
 * Tables: which entries go into which block, the index keys between the blocks, the filter, and why one
 * block is enough for a lookup (table/table_builder.cc:94-139 and 198-253, table/table.cc:216-244).
 */
module SSTable {
  import opened Keys
  import opened Sequences
  import opened Tables
  import opened Cursors
  import opened TwoLevel
  import Bloom
  import FilterBlock

  // ---------------------------------------------------------------------
  // The index
  // ---------------------------------------------------------------------

  function LastOf(block: seq<Entry>): InternalKey
    requires block != []
  {
    IKey(block[|block| - 1])
  }

  /** Index key `i` lies between its block and the next, and unless it is the last key of its block its user key is smaller than the next. */
  ghost predicate SepAt(seps: seq<InternalKey>, blocks: seq<seq<Entry>>, i: nat) {
    && i < |seps| && i + 1 < |blocks| && blocks[i] != [] && blocks[i + 1] != []
    && KeyAtMost(LastOf(blocks[i]), seps[i]) && KeyLess(seps[i], IKey(blocks[i + 1][0]))
    && (seps[i] == LastOf(blocks[i]) || seps[i].user < blocks[i + 1][0].key)
  }

  /** The index of a finished table. */
  ghost predicate GoodIndex(seps: seq<InternalKey>, blocks: seq<seq<Entry>>) {
    && |seps| == |blocks| && SortedEntries(Flat(blocks))
    && (forall i :: 0 <= i < |blocks| ==> blocks[i] != [])
    && (forall i :: 0 <= i < |blocks| - 1 ==> SepAt(seps, blocks, i))
    && (blocks != [] ==> KeyAtMost(LastOf(blocks[|blocks| - 1]), seps[|seps| - 1]))
  }

  /** Where an entry of a block is in the whole table, and that later blocks come later. */
  lemma PlaceInTable(blocks: seq<seq<Entry>>, i: nat, a: nat) returns (p: nat)
    requires i < |blocks| && a < |blocks[i]|
    ensures p == Start(blocks, i) + a < |Flat(blocks)| && Flat(blocks)[p] == blocks[i][a]
    ensures p < Start(blocks, i + 1)
  {
    p := Start(blocks, i) + a;
    FlatAt(blocks, i);
  }

  /** Entries come in the order of their blocks and of their places there. */
  lemma {:induction false} BlockOrder(blocks: seq<seq<Entry>>, i: nat, a: nat, j: nat, b: nat)
    requires SortedEntries(Flat(blocks)) && i <= j < |blocks| && a < |blocks[i]| && b < |blocks[j]|
    ensures i < j || a < b ==> EntryLess(blocks[i][a], blocks[j][b])
    ensures i < j || a <= b ==> KeyAtMost(IKey(blocks[i][a]), IKey(blocks[j][b]))
  {
    var p := PlaceInTable(blocks, i, a);
    var q := PlaceInTable(blocks, j, b);
    if i < j {
      StartMonotone(blocks, i + 1, j);
    }
    EntriesInOrder(Flat(blocks), p, q);
  }

  lemma WithinSep(seps: seq<InternalKey>, blocks: seq<seq<Entry>>, i: nat, a: nat)
    requires GoodIndex(seps, blocks) && i < |blocks| && a < |blocks[i]|
    ensures KeyAtMost(IKey(blocks[i][a]), seps[i])
  {
    BlockOrder(blocks, i, a, i, |blocks[i]| - 1);
    if i < |blocks| - 1 { assert SepAt(seps, blocks, i); }
  }

  lemma BeyondSep(seps: seq<InternalKey>, blocks: seq<seq<Entry>>, i: nat, j: nat, b: nat)
    requires GoodIndex(seps, blocks) && i < j < |blocks| && b < |blocks[j]|
    ensures KeyLess(seps[i], IKey(blocks[j][b]))
  {
    assert SepAt(seps, blocks, i);
    BlockOrder(blocks, i + 1, 0, j, b);
  }

  /** Such an index is what the two-level iterator needs. */
  lemma GoodIndexSeparates(seps: seq<InternalKey>, blocks: seq<seq<Entry>>)
    requires GoodIndex(seps, blocks)
    ensures Separates(seps, blocks)
  {
    forall i, e | 0 <= i < |blocks| && e in blocks[i] ensures KeyAtMost(IKey(e), seps[i]) {
      var a :| 0 <= a < |blocks[i]| && blocks[i][a] == e;
      WithinSep(seps, blocks, i, a);
    }
    forall i, j, e | 0 <= i < j < |blocks| && e in blocks[j] ensures KeyLess(seps[i], IKey(e)) {
      var b :| 0 <= b < |blocks[j]| && blocks[j][b] == e;
      BeyondSep(seps, blocks, i, j, b);
    }
    forall i, j | 0 <= i < j < |seps| ensures KeyLess(seps[i], seps[j]) {
      BeyondSep(seps, blocks, i, j, 0);
      WithinSep(seps, blocks, j, 0);
    }
  }

  /**
   * If the block that the index names ends before the target, the entry that comes next has another
   * user key, so a lookup need not go on to the next block.
   */
  lemma NextBlockHasOtherKey(seps: seq<InternalKey>, blocks: seq<seq<Entry>>, target: InternalKey, i: nat)
    requires GoodIndex(seps, blocks) && i == SeekSep(seps, target) && i + 1 < |blocks|
    requires SeekIndex(blocks[i], target) == |blocks[i]|
    ensures blocks[i + 1][0].key != target.user
  {
    assert SepAt(seps, blocks, i);
    assert KeyLess(LastOf(blocks[i]), target);
  }

  // ---------------------------------------------------------------------
  // The table and its lookup
  // ---------------------------------------------------------------------

  /** Blocks with their index keys and file offsets, and the filter block if there is one. */
  datatype Table = Table(blocks: seq<seq<Entry>>, seps: seq<InternalKey>, offsets: seq<nat>, filter: Option<Bytes>)

  /** The filter does not reject a key of any block. */
  ghost predicate FilterOk(hash: Bloom.Hash, blocks: seq<seq<Entry>>, offsets: seq<nat>, filter: Option<Bytes>) {
    |offsets| == |blocks| &&
    (filter.Some? ==>
      forall i, user: Bytes :: 0 <= i < |blocks| && InBlock(user, blocks[i]) ==>
        FilterBlock.KeyMayMatch(hash, filter.value, offsets[i], user))
  }

  ghost predicate InBlock(user: Bytes, block: seq<Entry>) {
    exists e :: e in block && e.key == Rank(user)
  }

  lemma PlaceInBlock(blocks: seq<seq<Entry>>, i: nat, at: nat, c: nat)
    requires i < |blocks| && at < |blocks[i]| && c == Start(blocks, i) + at
    ensures c < |Flat(blocks)| && Flat(blocks)[c] == blocks[i][at]
  {
    FlatAt(blocks, i);
  }

  lemma PlaceAfterBlock(blocks: seq<seq<Entry>>, i: nat, c: nat)
    requires i < |blocks| && c == Start(blocks, i) + |blocks[i]|
    ensures i + 1 < |blocks| && blocks[i + 1] != [] ==> c < |Flat(blocks)| && Flat(blocks)[c] == blocks[i + 1][0]
    ensures i + 1 == |blocks| ==> c == |Flat(blocks)|
  {
    FlatAt(blocks, i);
    StartEnds(blocks);
    if i + 1 < |blocks| && blocks[i + 1] != [] {
      PlaceInBlock(blocks, i + 1, 0, c);
    }
  }

  /** The first entry at or after the target is the one found in the block, or has another user key. */
  lemma FoundInBlock(t: Table, k: InternalKey, i: nat, at: nat, c: nat)
    requires GoodIndex(t.seps, t.blocks) && i == SeekSep(t.seps, k) && i < |t.blocks|
    requires at == SeekIndex(t.blocks[i], k) && c == Start(t.blocks, i) + at
    ensures var flat := Flat(t.blocks);
      if at < |t.blocks[i]| then c < |flat| && flat[c] == t.blocks[i][at] else c < |flat| ==> flat[c].key != k.user
  {
    if at < |t.blocks[i]| {
      PlaceInBlock(t.blocks, i, at, c);
    } else {
      PlaceAfterBlock(t.blocks, i, c);
      if i + 1 < |t.blocks| {
        NextBlockHasOtherKey(t.seps, t.blocks, k, i);
      }
    }
  }

  lemma RejectedIsAbsent(hash: Bloom.Hash, t: Table, user: Bytes, i: nat)
    requires FilterOk(hash, t.blocks, t.offsets, t.filter) && i < |t.blocks| && t.filter.Some?
    requires !FilterBlock.KeyMayMatch(hash, t.filter.value, t.offsets[i], user)
    ensures forall e :: e in t.blocks[i] ==> e.key != Rank(user)
  {
    forall e | e in t.blocks[i] ensures e.key != Rank(user) {
      assert !InBlock(user, t.blocks[i]);
    }
  }

  /** What InternalGet may hand to the caller's function. */
  ghost predicate IsFound(t: Table, k: InternalKey, r: Option<Entry>) {
    var flat := Flat(t.blocks);
    var c := SeekIndex(flat, k);
    && (r.Some? ==> c < |flat| && r.value == flat[c])
    && (c < |flat| && flat[c].key == k.user ==> r == Some(flat[c]))
  }

  /** The place in the table, from the block that the index names and the place in it. */
  lemma PlaceFound(t: Table, k: InternalKey, i: nat)
    requires GoodIndex(t.seps, t.blocks) && i == SeekSep(t.seps, k)
    ensures i == |t.blocks| ==> IsFound(t, k, None)
    ensures i < |t.blocks| ==>
      var at := SeekIndex(t.blocks[i], k);
      && IsFound(t, k, if at < |t.blocks[i]| then Some(t.blocks[i][at]) else None)
      && ((forall e :: e in t.blocks[i] ==> e.key != k.user) ==> IsFound(t, k, None))
  {
    GoodIndexSeparates(t.seps, t.blocks);
    SeekIsFlat(t.seps, t.blocks, k);
    StartEnds(t.blocks);
    if i < |t.blocks| {
      FoundInBlock(t, k, i, SeekIndex(t.blocks[i], k), SeekIndex(Flat(t.blocks), k));
    }
  }

  /** So a read of the table finds what a search of all its entries finds. */
  lemma GetIsSearch(t: Table, user: Bytes, s: nat, r: Option<Entry>)
    requires IsFound(t, SeekKey(Rank(user), s), r)
    ensures (if r.Some? && r.value.key == Rank(user) then r else None) == Search(Flat(t.blocks), Rank(user), s)
  {
  }
}
