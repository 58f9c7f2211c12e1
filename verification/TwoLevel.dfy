/** The two-level iterator over an index of blocks: table/two_level_iterator.cc:18-161. */
module TwoLevel {
  import opened Keys
  import opened Sequences
  import opened Tables
  import opened Cursors

  /** How many entries the first `b` blocks hold. */
  function Start(blocks: seq<seq<Entry>>, b: nat): nat
    requires b <= |blocks|
  {
    |Flat(blocks[..b])|
  }

  /** Where an entry of a block is in the flat list. */
  lemma FlatAt(blocks: seq<seq<Entry>>, b: nat)
    requires b < |blocks|
    ensures Start(blocks, b + 1) == Start(blocks, b) + |blocks[b]| <= |Flat(blocks)|
    ensures forall p {:trigger blocks[b][p]} :: 0 <= p < |blocks[b]| ==> Flat(blocks)[Start(blocks, b) + p] == blocks[b][p]
  {
    FlatPrefix(blocks, b + 1);
    FlatStep(blocks, b);
    Embedded(Flat(blocks[..b]), blocks[b], Flat(blocks[..b + 1]), Flat(blocks));
  }

  lemma StartEnds(blocks: seq<seq<Entry>>)
    ensures Start(blocks, 0) == 0 && Start(blocks, |blocks|) == |Flat(blocks)|
  {
    assert blocks[..|blocks|] == blocks;
  }

  /** Index keys separate the blocks: at or after each entry of their block, before the next blocks. */
  ghost predicate Separates(seps: seq<InternalKey>, blocks: seq<seq<Entry>>) {
    && |seps| == |blocks|
    && SortedEntries(Flat(blocks))
    && (forall i, e :: 0 <= i < |blocks| && e in blocks[i] ==> KeyAtMost(IKey(e), seps[i]))
    && (forall i, j, e :: 0 <= i < j < |blocks| && e in blocks[j] ==> KeyLess(seps[i], IKey(e)))
    && (forall i, j :: 0 <= i < j < |seps| ==> KeyLess(seps[i], seps[j]))
  }

  /** Index of the first separator at or after the target. */
  function SeekSep(seps: seq<InternalKey>, target: InternalKey): (i: nat)
    ensures i <= |seps|
    ensures forall j :: 0 <= j < i ==> KeyLess(seps[j], target)
    ensures i < |seps| ==> KeyAtMost(target, seps[i])
  {
    if seps == [] then 0
    else if KeyLess(seps[0], target) then
      var r := SeekSep(seps[1..], target);
      assert forall j :: 1 <= j < |seps| ==> seps[j] == seps[1..][j - 1];
      r + 1
    else 0
  }

  /** Every entry of the flat list is in some block. */
  lemma {:induction false} FlatBelongs(blocks: seq<seq<Entry>>, p: nat) returns (b: nat)
    requires p < |Flat(blocks)|
    ensures b < |blocks| && Flat(blocks)[p] in blocks[b]
    ensures Start(blocks, b) <= p < Start(blocks, b + 1)
  {
    var n := |blocks| - 1;
    if p < |Flat(blocks[..n])| {
      b := FlatBelongs(blocks[..n], p);
      assert blocks[..n][..b] == blocks[..b] && blocks[..n][..b + 1] == blocks[..b + 1];
    } else {
      b := n;
      assert blocks[..n + 1] == blocks;
    }
  }

  lemma StartMonotone(blocks: seq<seq<Entry>>, b: nat, c: nat)
    requires b <= c <= |blocks|
    ensures Start(blocks, b) <= Start(blocks, c)
  {
    FlatPrefix(blocks[..c], b);
    assert blocks[..c][..b] == blocks[..b];
  }

  /** Seeking the index and then the block finds the place that seeking the flat list finds. */
  lemma SeekIsFlat(seps: seq<InternalKey>, blocks: seq<seq<Entry>>, target: InternalKey)
    requires Separates(seps, blocks)
    ensures var i := SeekSep(seps, target);
      SeekIndex(Flat(blocks), target) ==
      if i == |blocks| then |Flat(blocks)| else Start(blocks, i) + SeekIndex(blocks[i], target)
  {
    var i := SeekSep(seps, target);
    var flat := Flat(blocks);
    StartEnds(blocks);
    var c := if i == |blocks| then |flat| else Start(blocks, i) + SeekIndex(blocks[i], target);
    if i < |blocks| { FlatAt(blocks, i); }
    if 0 < c {
      PlaceBefore(seps, blocks, target, i, c);
    }
    if c < |flat| {
      PlaceAfter(seps, blocks, target, i, c);
    }
    SeekIndexUnique(flat, target, c);
  }

  lemma {:induction false} PlaceBefore(seps: seq<InternalKey>, blocks: seq<seq<Entry>>, target: InternalKey, i: nat, c: nat)
    requires Separates(seps, blocks) && i == SeekSep(seps, target) && 0 < c <= |Flat(blocks)|
    requires c == if i == |blocks| then |Flat(blocks)| else Start(blocks, i) + SeekIndex(blocks[i], target)
    ensures KeyLess(IKey(Flat(blocks)[c - 1]), target)
  {
    var b := FlatBelongs(blocks, c - 1);
    if b < i {
      assert KeyLess(seps[b], target);
    } else {
      FlatAt(blocks, i);
      if b > i { StartMonotone(blocks, i + 1, b); }
      assert b == i;
    }
  }

  lemma PlaceAfter(seps: seq<InternalKey>, blocks: seq<seq<Entry>>, target: InternalKey, i: nat, c: nat)
    requires Separates(seps, blocks) && i == SeekSep(seps, target) && c < |Flat(blocks)|
    requires c == if i == |blocks| then |Flat(blocks)| else Start(blocks, i) + SeekIndex(blocks[i], target)
    ensures KeyAtMost(target, IKey(Flat(blocks)[c]))
  {
    var b := FlatBelongs(blocks, c);
    FlatAt(blocks, i);
    if b < i { StartMonotone(blocks, b + 1, i); }
    assert b >= i;
    if b > i {
      assert KeyLess(seps[i], IKey(Flat(blocks)[c]));
    }
  }

  /** The block iterator in use: which block, and where in it. */
  datatype DataIter = DataIter(block: nat, pos: nat)

  class TwoLevelIterator {
    const seps: seq<InternalKey>
    const blocks: seq<seq<Entry>>
    /** Position in the index; the number of blocks when invalid. */
    var index: nat
    var data: Option<DataIter>
    ghost var flat: Cursor

    constructor (seps: seq<InternalKey>, blocks: seq<seq<Entry>>)
      requires Separates(seps, blocks)
      ensures Repr() && this.seps == seps && this.blocks == blocks
      ensures flat == Cursor(Flat(blocks), |Flat(blocks)|)
    {
      this.seps, this.blocks := seps, blocks;
      index, data := |blocks|, None;
      flat := Cursor(Flat(blocks), |Flat(blocks)|);
    }

    ghost predicate Shape()
      reads this
    {
      && Separates(seps, blocks) && flat.list == Flat(blocks)
      && index <= |blocks|
      && (data.Some? ==> data.value.block < |blocks| && data.value.pos <= |blocks[data.value.block]|)
    }

    predicate DataValid()
      reads this
      requires Shape()
    {
      data.Some? && data.value.pos < |blocks[data.value.block]|
    }

    /** The block iterator is at place `c` of the flat list. */
    ghost predicate DataAt(c: nat)
      reads this
      requires Shape()
    {
      index < |blocks| && data.Some? && data.value.block == index && c == Start(blocks, index) + data.value.pos
    }

    ghost predicate Repr()
      reads this
    {
      && Shape()
      && (DataValid() <==> flat.Valid())
      && (DataValid() ==> DataAt(flat.pos))
      && flat.pos <= |flat.list|
    }

    method InitDataBlock()
      requires Shape()
      modifies this`data
      ensures Shape()
      ensures index == |blocks| ==> data.None?
      ensures index < |blocks| ==> data.Some? && data.value.block == index
    {
      if index == |blocks| {
        data := None;
      } else if data.Some? && data.value.block == index {
      } else {
        data := Some(DataIter(index, |blocks[index]|));
      }
    }

    /** Moves on from an exhausted block to the first entry of the next one that has any. */
    method SkipEmptyDataBlocksForward(ghost c: nat)
      requires Shape()
      requires DataValid() ==> DataAt(c)
      requires !DataValid() ==> c == if index < |blocks| then Start(blocks, index + 1) else |flat.list|
      modifies this
      ensures Repr() && flat == old(flat).(pos := c)
    {
      while !DataValid()
        invariant Shape() && flat == old(flat)
        invariant DataValid() ==> DataAt(c)
        invariant !DataValid() ==> c == if index < |blocks| then Start(blocks, index + 1) else |flat.list|
        decreases |blocks| - index, !DataValid()
      {
        if index == |blocks| {
          data := None;
          flat := flat.(pos := c);
          return;
        }
        index := index + 1;
        InitDataBlock();
        StartEnds(blocks);
        if data.Some? {
          data := Some(data.value.(pos := 0));
          FlatAt(blocks, index);
        }
      }
      FlatAt(blocks, index);
      flat := flat.(pos := c);
    }

    /** Moves back from an exhausted block to the last entry of the previous one that has any. */
    method SkipEmptyDataBlocksBackward(ghost c: nat)
      requires Shape() && c <= |flat.list|
      requires DataValid() ==> c > 0 && DataAt(c - 1)
      requires !DataValid() ==> c == if index < |blocks| then Start(blocks, index) else 0
      modifies this
      ensures Repr() && flat == old(flat).(pos := if c == 0 then |old(flat).list| else c - 1)
    {
      while !DataValid()
        invariant Shape() && flat == old(flat)
        invariant DataValid() ==> c > 0 && DataAt(c - 1)
        invariant !DataValid() ==> c == if index < |blocks| then Start(blocks, index) else 0
        decreases if index < |blocks| then index + 1 else 0, !DataValid()
      {
        if index == |blocks| {
          data := None;
          flat := flat.(pos := |flat.list|);
          return;
        }
        StartEnds(blocks);
        index := if index == 0 then |blocks| else index - 1;
        InitDataBlock();
        if data.Some? {
          data := Some(data.value.(pos := if blocks[index] == [] then 0 else |blocks[index]| - 1));
          FlatAt(blocks, index);
        }
      }
      FlatAt(blocks, index);
      flat := flat.(pos := c - 1);
    }

    method Seek(target: InternalKey)
      requires Shape()
      modifies this
      ensures Repr() && flat == old(flat).Seek(target)
    {
      SeekIsFlat(seps, blocks, target);
      index := SeekSep(seps, target);
      InitDataBlock();
      if data.Some? {
        data := Some(data.value.(pos := SeekIndex(blocks[index], target)));
        FlatAt(blocks, index);
      }
      SkipEmptyDataBlocksForward(SeekIndex(flat.list, target));
    }

    method SeekToFirst()
      requires Shape()
      modifies this
      ensures Repr() && flat == old(flat).SeekToFirst()
    {
      index := 0;
      InitDataBlock();
      StartEnds(blocks);
      if data.Some? {
        data := Some(data.value.(pos := 0));
        FlatAt(blocks, 0);
      }
      SkipEmptyDataBlocksForward(0);
    }

    method SeekToLast()
      requires Shape()
      modifies this
      ensures Repr() && flat == old(flat).SeekToLast()
    {
      index := if |blocks| == 0 then 0 else |blocks| - 1;
      InitDataBlock();
      StartEnds(blocks);
      if data.Some? {
        data := Some(data.value.(pos := if blocks[index] == [] then 0 else |blocks[index]| - 1));
        FlatAt(blocks, index);
      }
      SkipEmptyDataBlocksBackward(|flat.list|);
    }

    method Next()
      requires Repr() && flat.Valid()
      modifies this
      ensures Repr() && flat == old(flat).Next()
    {
      FlatAt(blocks, index);
      data := Some(data.value.(pos := data.value.pos + 1));
      SkipEmptyDataBlocksForward(flat.pos + 1);
    }

    method Prev()
      requires Repr() && flat.Valid()
      modifies this
      ensures Repr() && flat == old(flat).Prev()
    {
      FlatAt(blocks, index);
      data := Some(data.value.(pos := if data.value.pos == 0 then |blocks[index]| else data.value.pos - 1));
      SkipEmptyDataBlocksBackward(flat.pos);
    }

    method Current() returns (e: Entry)
      requires Repr() && flat.Valid()
      ensures e == flat.Current()
    {
      FlatAt(blocks, index);
      e := blocks[index][data.value.pos];
    }
  }
}
