/** Building a table: table/table_builder.cc:94-253. */
module TableBuilding {
  import opened Keys
  import opened Sequences
  import opened Cursors
  import opened Coding
  import opened Varint
  import opened Separators
  import opened SSTable
  import opened BlockFormat
  import opened BlockReader
  import opened TableFormat
  import opened TableFile
  import FilterBlock
  import LogFormat

  /** The finished blocks and the one being filled, with the index keys known so far. */
  ghost predicate Parts(blocks: seq<seq<Entry>>, rest: seq<Entry>, index: seq<ByteKey>, pending: bool) {
    && SortedEntries(Flat(blocks + [rest]))
    && (forall i :: 0 <= i < |blocks| ==> blocks[i] != [])
    && (pending <==> blocks != [] && rest == [])
    && |index| == (if pending then |blocks| - 1 else |blocks|)
    && (forall i :: 0 <= i < |index| ==> SepAt(Images(index), blocks + [rest], i))
  }

  /** The key of the last entry, if any. */
  ghost predicate EndsWith(blocks: seq<seq<Entry>>, rest: seq<Entry>, last: ByteKey) {
    if rest != [] then Image(last) == LastOf(rest)
    else if blocks != [] && blocks[|blocks| - 1] != [] then Image(last) == LastOf(blocks[|blocks| - 1])
    else true
  }

  lemma FlattenLast(blocks: seq<seq<Entry>>, rest: seq<Entry>)
    ensures Flat(blocks + [rest]) == Flat(blocks) + rest
  {
    assert (blocks + [rest])[..|blocks|] == blocks;
  }

  /** A larger key keeps the entries sorted. */
  lemma SortedAppend(blocks: seq<seq<Entry>>, rest: seq<Entry>, index: seq<ByteKey>, pending: bool, last: ByteKey, e: Entry)
    requires Parts(blocks, rest, index, pending) && EndsWith(blocks, rest, last)
    requires (blocks != [] || rest != []) ==> KeyLess(Image(last), IKey(e))
    ensures Flat(blocks + [rest + [e]]) == Flat(blocks + [rest]) + [e]
    ensures SortedEntries(Flat(blocks + [rest + [e]]))
  {
    FlattenLast(blocks, rest);
    FlattenLast(blocks, rest + [e]);
    var all := Flat(blocks + [rest]);
    LastIsLast(blocks, rest);
    forall i | 0 <= i < |all| ensures EntryLess(all[i], e) {
      EntriesInOrder(all, i, |all| - 1);
    }
  }

  lemma LastIsLast(blocks: seq<seq<Entry>>, rest: seq<Entry>)
    requires forall i :: 0 <= i < |blocks| ==> blocks[i] != []
    ensures var all := Flat(blocks + [rest]);
      && (rest != [] ==> all != [] && LastOf(all) == LastOf(rest))
      && (rest == [] && blocks != [] ==> all != [] && LastOf(all) == LastOf(blocks[|blocks| - 1]))
      && (rest == [] && blocks == [] ==> all == [])
  {
    FlattenLast(blocks, rest);
  }

  /** The block being filled takes one more entry; index keys before it stay right. */
  lemma AddKeepsParts(blocks: seq<seq<Entry>>, rest: seq<Entry>, index: seq<ByteKey>, last: ByteKey, e: Entry)
    requires Parts(blocks, rest, index, false) && EndsWith(blocks, rest, last) && rest != []
    requires KeyLess(Image(last), IKey(e))
    ensures Parts(blocks, rest + [e], index, false)
  {
    SortedAppend(blocks, rest, index, false, last, e);
    var before, after := blocks + [rest], blocks + [rest + [e]];
    forall i | 0 <= i < |index| ensures SepAt(Images(index), after, i) {
      assert SepAt(Images(index), before, i);
      SepKept(Images(index), Images(index), before, after, i);
    }
  }

  lemma SepKept(seps: seq<InternalKey>, more: seq<InternalKey>, before: seq<seq<Entry>>, after: seq<seq<Entry>>, i: nat)
    requires SepAt(seps, before, i) && i < |more| && more[i] == seps[i]
    requires i + 1 < |after| && after[i] == before[i] && after[i + 1] != [] && after[i + 1][0] == before[i + 1][0]
    ensures SepAt(more, after, i)
  {
  }

  /** The first entry of a block settles the index key of the block before. */
  lemma FirstKeepsParts(blocks: seq<seq<Entry>>, index: seq<ByteKey>, last: ByteKey, limit: ByteKey, e: Entry)
    requires Parts(blocks, [], index, true) && EndsWith(blocks, [], last)
    requires Image(limit) == IKey(e) && KeyLess(Image(last), IKey(e))
    ensures Parts(blocks, [e], index + [Shortened(last, Separator(last.user, limit.user))], false)
  {
    var more := index + [Shortened(last, Separator(last.user, limit.user))];
    var n := |blocks| - 1;
    SortedAppend(blocks, [], index, true, last, e);
    assert [] + [e] == [e];
    InternalSeparatorBetween(last, limit);
    forall i | 0 <= i < |more| ensures SepAt(Images(more), blocks + [[e]], i) {
      assert Images(more)[i] == Image(more[i]);
      if i < n {
        assert SepAt(Images(index), blocks + [[]], i) && Images(index)[i] == Image(index[i]);
        SepKept(Images(index), Images(more), blocks + [[]], blocks + [[e]], i);
      }
    }
  }

  /** The very first entry. */
  lemma BeginParts(e: Entry)
    ensures Parts([], [e], [], false)
  {
    FlattenLast([], [e]);
  }

  /** A finished block is followed by an empty one. */
  lemma FlushKeepsParts(blocks: seq<seq<Entry>>, rest: seq<Entry>, index: seq<ByteKey>)
    requires Parts(blocks, rest, index, false) && rest != []
    ensures Parts(blocks + [rest], [], index, true)
    ensures Flat(blocks + [rest] + [[]]) == Flat(blocks + [rest])
  {
    FlattenLast(blocks + [rest], []);
    assert Flat(blocks + [rest]) + [] == Flat(blocks + [rest]);
    forall i | 0 <= i < |index| ensures SepAt(Images(index), blocks + [rest] + [[]], i) {
      assert SepAt(Images(index), blocks + [rest], i);
      SepKept(Images(index), Images(index), blocks + [rest], blocks + [rest] + [[]], i);
    }
  }

  /** With the index key of the last block the index is complete. */
  lemma FinishIndex(blocks: seq<seq<Entry>>, index: seq<ByteKey>, last: ByteKey)
    requires Parts(blocks, [], index, true) && EndsWith(blocks, [], last)
    ensures GoodIndex(Images(index + [Shortened(last, Successor(last.user, 0))]), blocks)
    ensures Flat(blocks) == Flat(blocks + [[]])
  {
    var more := index + [Shortened(last, Successor(last.user, 0))];
    FlattenLast(blocks, []);
    assert Flat(blocks) + [] == Flat(blocks);
    InternalSuccessorAfter(last);
    assert Images(more)[|blocks| - 1] == Image(more[|blocks| - 1]);
    forall i | 0 <= i < |blocks| - 1 ensures SepAt(Images(more), blocks, i) {
      assert Images(more)[i] == Image(more[i]) && Images(index)[i] == Image(index[i]);
      assert SepAt(Images(index), blocks + [[]], i);
      SepKept(Images(index), Images(more), blocks + [[]], blocks, i);
    }
  }

  // ---------------------------------------------------------------------
  // The builder
  // ---------------------------------------------------------------------

  /** Every user key of a block has been given to the filter with the offset of the block. */
  ghost predicate Filed(placed: set<(nat, Bytes)>, block: seq<Entry>, offset: nat) {
    forall user: Bytes :: InBlock(user, block) ==> (offset, user) in placed
  }

  lemma FiledMore(placed: set<(nat, Bytes)>, block: seq<Entry>, offset: nat, user: Bytes, e: Entry)
    requires Filed(placed, block, offset) && e.key == Rank(user)
    ensures Filed(placed + {(offset, user)}, block + [e], offset)
  {
    forall other: Bytes | InBlock(other, block + [e]) ensures (offset, other) in placed + {(offset, user)} {
      RankPreservesOrder(other, user);
      var x :| x in block + [e] && x.key == Rank(other);
      if x in block { assert InBlock(other, block); }
    }
  }

  // ---------------------------------------------------------------------
  // Blocks of bytes
  // ---------------------------------------------------------------------

  predicate SmallPairs(pairs: seq<(Bytes, Bytes)>) {
    forall i :: 0 <= i < |pairs| ==> |pairs[i].0| < TWO_32 && |pairs[i].1| < TWO_32
  }

  predicate IsPair(it: Item, p: (Bytes, Bytes)) {
    it.key == p.0 && it.value == p.1
  }

  predicate ArePairs(items: seq<Item>, pairs: seq<(Bytes, Bytes)>) {
    |items| == |pairs| && forall i :: 0 <= i < |pairs| ==> IsPair(items[i], pairs[i])
  }

  function PairsOf(items: seq<Item>): (r: seq<(Bytes, Bytes)>)
    ensures |r| == |items| && forall i {:trigger r[i]} :: 0 <= i < |r| ==> r[i] == (items[i].key, items[i].value)
  {
    seq(|items|, i requires 0 <= i < |items| => (items[i].key, items[i].value))
  }

  /** Keys are shared as the builder shares them. */
  predicate WellPacked(d: Built, interval: nat) {
    (d.items, d.starts) == Packing(PairsOf(d.items), interval)
  }

  ghost predicate PackedUpTo(items: seq<Item>, starts: seq<nat>, pairs: seq<(Bytes, Bytes)>, i: nat, interval: nat)
    requires i <= |pairs|
  {
    (items, starts) == Packing(pairs[..i], interval)
  }

  lemma PackedMore(items: seq<Item>, starts: seq<nat>, pairs: seq<(Bytes, Bytes)>, i: nat, interval: nat)
    requires i < |pairs| && PackedUpTo(items, starts, pairs, i, interval)
    ensures PackedUpTo(items + [NextItem(items, starts, interval, pairs[i].0, pairs[i].1)], NextStarts(items, starts, interval), pairs, i + 1, interval)
  {
    assert pairs[..i + 1][..i] == pairs[..i];
  }

  lemma {:induction false} PackingKeeps(pairs: seq<(Bytes, Bytes)>, interval: nat)
    ensures PairsOf(Packing(pairs, interval).0) == pairs
  {
    if pairs != [] {
      var n := |pairs| - 1;
      PackingKeeps(pairs[..n], interval);
      var before, items := Packing(pairs[..n], interval).0, Packing(pairs, interval).0;
      forall i | 0 <= i < |pairs| ensures PairsOf(items)[i] == pairs[i] {
        assert i < n ==> PairsOf(before)[i] == pairs[..n][i];
      }
    }
  }

  /** A block of these keys and values, if it is not too large for its restart points to be stored. */
  method BuildBlock(interval: nat, pairs: seq<(Bytes, Bytes)>) returns (block: Bytes, ghost d: Built)
    requires interval >= 1
    ensures d.bytes == block && (d.items, d.starts) == Packing(pairs, interval) && |block| == BlockSize(pairs, interval)
    ensures WellPacked(d, interval)
    ensures |block| < TWO_32 && SmallPairs(pairs) ==> GoodBlock(d) && ArePairs(d.items, pairs)
  {
    var builder := new BlockBuilder(interval);
    AddPairs(builder, pairs);
    PackingKeeps(pairs, interval);
    if builder.CurrentSizeEstimate() < TWO_32 {
      block := builder.Finish();
      d := Built(block, builder.items, builder.starts);
      SmallItems(d.items, pairs);
    } else {
      block := builder.buffer + LogFormat.Zeros(4 * |builder.restarts| + 4);
      d := Built(block, builder.items, builder.starts);
    }
  }

  method AddPairs(builder: BlockBuilder, pairs: seq<(Bytes, Bytes)>)
    requires builder.Valid() && !builder.finished && builder.items == [] && builder.starts == [0]
    modifies builder
    ensures builder.Valid() && !builder.finished
    ensures ArePairs(builder.items, pairs) && (builder.items, builder.starts) == Packing(pairs, builder.interval)
  {
    for i := 0 to |pairs|
      invariant builder.Valid() && !builder.finished
      invariant ArePairs(builder.items, pairs[..i]) && PackedUpTo(builder.items, builder.starts, pairs, i, builder.interval)
    {
      ghost var before, points := builder.items, builder.starts;
      var it := builder.Add(pairs[i].0, pairs[i].1);
      OneMorePair(before, it, pairs, i);
      PackedMore(before, points, pairs, i, builder.interval);
    }
    assert pairs[..|pairs|] == pairs;
  }

  lemma OneMorePair(items: seq<Item>, it: Item, pairs: seq<(Bytes, Bytes)>, i: nat)
    requires i < |pairs| && ArePairs(items, pairs[..i]) && IsPair(it, pairs[i])
    ensures ArePairs(items + [it], pairs[..i + 1])
  {
    forall k | 0 <= k <= i ensures IsPair((items + [it])[k], pairs[..i + 1][k]) {
      assert k < i ==> IsPair(items[k], pairs[..i][k]);
    }
  }

  lemma SmallItems(items: seq<Item>, pairs: seq<(Bytes, Bytes)>)
    requires ArePairs(items, pairs) && SharedFits(items)
    ensures SmallPairs(pairs) ==> forall i :: 0 <= i < |items| ==> Small(items[i])
  {
    forall i | 0 <= i < |items| ensures SmallPairs(pairs) ==> Small(items[i]) {
      assert IsPair(items[i], pairs[i]);
    }
  }

  predicate AllFit(rows: seq<Row>) {
    forall i :: 0 <= i < |rows| ==> FitsRow(rows[i])
  }

  function RowPairs(rows: seq<Row>): (r: seq<(Bytes, Bytes)>)
    requires AllFit(rows)
    ensures |r| == |rows| && forall i {:trigger r[i]} :: 0 <= i < |r| ==> r[i] == (EncodeKey(KeyOf(rows[i])), TableFormat.ValueOf(rows[i]))
  {
    seq(|rows|, i requires 0 <= i < |rows| => (EncodeKey(KeyOf(rows[i])), TableFormat.ValueOf(rows[i])))
  }

  /** The block that the rows make. */
  predicate IsPacked(d: Built, rows: seq<Row>, interval: nat) {
    AllFit(rows) && (d.items, d.starts) == Packing(RowPairs(rows), interval) && |d.bytes| == BlockSize(RowPairs(rows), interval)
  }

  method BuildRows(interval: nat, rows: seq<Row>) returns (block: Bytes, ghost d: Built)
    requires interval >= 1 && AllFit(rows)
    ensures d.bytes == block && IsPacked(d, rows, interval) && (|block| < TWO_32 ==> HoldsRows(d, rows))
  {
    var pairs := RowPairs(rows);
    block, d := BuildBlock(interval, pairs);
    if |block| < TWO_32 {
      forall i | 0 <= i < |rows| ensures IsRow(d.items[i], rows[i]) {
        assert IsPair(d.items[i], pairs[i]);
      }
    }
  }

  predicate AllKeysFit(keys: seq<ByteKey>) {
    forall i :: 0 <= i < |keys| ==> FitsKey(keys[i])
  }

  function IndexPairs(keys: seq<ByteKey>, handles: seq<Handle>): (r: seq<(Bytes, Bytes)>)
    requires AllKeysFit(keys) && |handles| == |keys|
    ensures |r| == |keys| && forall i {:trigger r[i]} :: 0 <= i < |r| ==> r[i] == (EncodeKey(keys[i]), EncodeHandle(handles[i]))
  {
    seq(|keys|, i requires 0 <= i < |keys| => (EncodeKey(keys[i]), EncodeHandle(handles[i])))
  }

  /** The finished blocks: their entries, offsets, rows and bytes. */
  datatype Trail = Trail(interval: nat, blocks: seq<seq<Entry>>, offsets: seq<nat>, done: seq<seq<Row>>, data: seq<Built>)

  /** What has been written of them. */
  ghost predicate OnFile(crc: LogFormat.Crc, file: Bytes, handles: seq<Handle>, x: Trail) {
    && |x.blocks| == |x.offsets| == |handles| == |x.done| == |x.data|
    && forall i :: 0 <= i < |x.blocks| ==> BlockOnFile(crc, file, handles, x, i)
  }

  ghost predicate BlockOnFile(crc: LogFormat.Crc, file: Bytes, handles: seq<Handle>, x: Trail, i: nat)
    requires i < |x.blocks| == |x.offsets| == |handles| == |x.done| == |x.data|
  {
    WrittenAt(crc, file, x.blocks[i], x.offsets[i], handles[i], x.done[i], x.data[i]) && IsPacked(x.data[i], x.done[i], x.interval)
  }

  ghost predicate WrittenAt(crc: LogFormat.Crc, file: Bytes, block: seq<Entry>, offset: nat, h: Handle, rows: seq<Row>, d: Built) {
    && h == Handle(offset, |d.bytes|) && block == EntriesOf(rows) && HasAt(file, offset, Stored(crc, d.bytes))
    && (|d.bytes| < TWO_32 ==> HoldsRows(d, rows))
  }

  lemma OnFileGrows(crc: LogFormat.Crc, file: Bytes, more: Bytes, handles: seq<Handle>, x: Trail)
    requires OnFile(crc, file, handles, x)
    ensures OnFile(crc, file + more, handles, x)
  {
    forall i | 0 <= i < |x.blocks| ensures BlockOnFile(crc, file + more, handles, x, i) {
      assert BlockOnFile(crc, file, handles, x, i);
      HasAtGrows(file, more, x.offsets[i], Stored(crc, x.data[i].bytes));
    }
  }

  lemma PackedOnFile(crc: LogFormat.Crc, file: Bytes, handles: seq<Handle>, x: Trail)
    requires OnFile(crc, file, handles, x)
    ensures forall i :: 0 <= i < |x.done| ==> IsPacked(x.data[i], x.done[i], x.interval)
  {
    forall i | 0 <= i < |x.done| ensures IsPacked(x.data[i], x.done[i], x.interval) {
      assert BlockOnFile(crc, file, handles, x, i);
    }
  }

  function OneMore(x: Trail, at: nat, rows: seq<Row>, d: Built): Trail {
    Trail(x.interval, x.blocks + [EntriesOf(rows)], x.offsets + [at], x.done + [rows], x.data + [d])
  }

  lemma OneMoreBlock(crc: LogFormat.Crc, file: Bytes, handles: seq<Handle>, x: Trail, rows: seq<Row>, d: Built)
    requires OnFile(crc, file, handles, x) && IsPacked(d, rows, x.interval) && (|d.bytes| < TWO_32 ==> HoldsRows(d, rows))
    ensures OnFile(crc, file + Stored(crc, d.bytes), handles + [Handle(|file|, |d.bytes|)], OneMore(x, |file|, rows, d))
  {
    var all, hs, y := file + Stored(crc, d.bytes), handles + [Handle(|file|, |d.bytes|)], OneMore(x, |file|, rows, d);
    OnFileGrows(crc, file, Stored(crc, d.bytes), handles, x);
    HasAtEnd(file, Stored(crc, d.bytes), []);
    forall i | 0 <= i <= |x.blocks| ensures BlockOnFile(crc, all, hs, y, i) {
      if i < |x.blocks| {
        assert BlockOnFile(crc, all, handles, x, i);
      }
    }
  }

  /** One more data block at the end of the file. */
  method StoreRows(crc: LogFormat.Crc, interval: nat, rows: seq<Row>, file: Bytes, handles: seq<Handle>, ghost trail: Trail)
      returns (all: Bytes, h: Handle, ghost next: Trail)
    requires interval == trail.interval >= 1 && AllFit(rows) && OnFile(crc, file, handles, trail)
    ensures OnFile(crc, all, handles + [h], next) && |all| >= |file|
    ensures next.blocks == trail.blocks + [EntriesOf(rows)] && next.offsets == trail.offsets + [|file|]
    ensures next.done == trail.done + [rows] && next.interval == trail.interval
  {
    var block, d := BuildRows(interval, rows);
    OneMoreBlock(crc, file, handles, trail, rows, d);
    h := Handle(|file|, |block|);
    all := file + Stored(crc, block);
    next := OneMore(trail, |file|, rows, d);
  }

  // ---------------------------------------------------------------------
  // Where blocks end
  // ---------------------------------------------------------------------

  /** How large a block of the rows is. */
  function Sizes(interval: nat): seq<Row> -> nat {
    (rows: seq<Row>) => if AllFit(rows) then BlockSize(RowPairs(rows), interval) else 0
  }

  /** A block is smaller than the limit before its last row; an open one is smaller with it. */
  predicate SmallBefore(rows: seq<Row>, size: seq<Row> -> nat, blockSize: nat) {
    forall k :: 0 < k < |rows| ==> size(rows[..k]) < blockSize
  }

  predicate StillSmall(rows: seq<Row>, size: seq<Row> -> nat, blockSize: nat) {
    forall k :: 0 < k <= |rows| ==> size(rows[..k]) < blockSize
  }

  predicate Full(rows: seq<Row>, size: seq<Row> -> nat, blockSize: nat) {
    size(rows) >= blockSize
  }

  /** No block goes on behind the row with which it reaches the limit, and unless one was ended early, each has reached it. */
  predicate EndedAtLimit(done: seq<seq<Row>>, early: bool, size: seq<Row> -> nat, blockSize: nat) {
    && (forall i :: 0 <= i < |done| ==> SmallBefore(done[i], size, blockSize))
    && (!early ==> forall i :: 0 <= i < |done| ==> Full(done[i], size, blockSize))
  }

  lemma StillSmallBefore(rows: seq<Row>, size: seq<Row> -> nat, blockSize: nat)
    requires StillSmall(rows, size, blockSize)
    ensures SmallBefore(rows, size, blockSize)
  {
  }

  /** The blocks of a whole table: only the last may be below the limit. */
  predicate Filled(rows: seq<seq<Row>>, early: bool, size: seq<Row> -> nat, blockSize: nat) {
    && (forall i :: 0 <= i < |rows| ==> SmallBefore(rows[i], size, blockSize))
    && (!early ==> forall i :: 0 <= i < |rows| - 1 ==> Full(rows[i], size, blockSize))
  }

  lemma EndsWell(done: seq<seq<Row>>, rows: seq<Row>, early: bool, size: seq<Row> -> nat, blockSize: nat)
    requires EndedAtLimit(done, early, size, blockSize) && StillSmall(rows, size, blockSize)
    ensures Filled(done, early, size, blockSize) && Filled(done + [rows], early, size, blockSize)
  {
    StillSmallBefore(rows, size, blockSize);
  }

  lemma OneMoreRow(rows: seq<Row>, row: Row, size: seq<Row> -> nat, blockSize: nat)
    requires StillSmall(rows, size, blockSize)
    ensures SmallBefore(rows + [row], size, blockSize)
    ensures !Full(rows + [row], size, blockSize) ==> StillSmall(rows + [row], size, blockSize)
  {
    var more := rows + [row];
    forall k | 0 < k <= |rows| ensures size(more[..k]) < blockSize {
      assert more[..k] == rows[..k];
    }
    assert more[..|more|] == more;
  }

  lemma OneMoreEnded(done: seq<seq<Row>>, rows: seq<Row>, early: bool, size: seq<Row> -> nat, blockSize: nat)
    requires EndedAtLimit(done, early, size, blockSize) && SmallBefore(rows, size, blockSize)
    ensures EndedAtLimit(done + [rows], early || !Full(rows, size, blockSize), size, blockSize)
  {
  }

  // ---------------------------------------------------------------------
  // Index keys
  // ---------------------------------------------------------------------

  function NoKey(): ByteKey {
    ByteKey([], 0, TypeDeletion)
  }

  function LastKey(rows: seq<Row>): ByteKey {
    if rows == [] then NoKey() else KeyOf(rows[|rows| - 1])
  }

  function FirstUser(rows: seq<Row>): Bytes {
    if rows == [] then [] else rows[0].user
  }

  /** The key between two blocks. */
  function BoundKey(a: seq<Row>, b: seq<Row>): ByteKey {
    Shortened(LastKey(a), Separator(LastKey(a).user, FirstUser(b)))
  }

  /** Index key `i` stands between block `i` and what follows it. */
  ghost predicate BoundAt(index: seq<ByteKey>, done: seq<seq<Row>>, rows: seq<Row>, i: nat)
    requires i < |index| && i < |done|
  {
    index[i] == BoundKey(done[i], if i + 1 < |done| then done[i + 1] else rows)
  }

  /** The index keys so far, and the last key. */
  ghost predicate KeyedUpTo(index: seq<ByteKey>, done: seq<seq<Row>>, rows: seq<Row>, last: ByteKey) {
    && |index| <= |done|
    && (forall i :: 0 <= i < |index| ==> BoundAt(index, done, rows, i))
    && last == (if rows == [] && done != [] then LastKey(done[|done| - 1]) else LastKey(rows))
  }

  /** The index keys of a whole table. */
  ghost predicate Keyed(index: seq<ByteKey>, done: seq<seq<Row>>) {
    && |index| == |done|
    && (forall i :: 0 <= i < |index| - 1 ==> BoundAt(index, done, [], i))
    && (index != [] ==> var k := LastKey(done[|done| - 1]); index[|index| - 1] == Shortened(k, Successor(k.user, 0)))
  }

  lemma KeyedRow(index: seq<ByteKey>, done: seq<seq<Row>>, rows: seq<Row>, last: ByteKey, pending: bool, row: Row)
    requires KeyedUpTo(index, done, rows, last) && (pending <==> done != [] && rows == [])
    requires |index| == if pending then |done| - 1 else |done|
    ensures KeyedUpTo(if pending then index + [Shortened(last, Separator(last.user, row.user))] else index, done, rows + [row], KeyOf(row))
  {
    var all, more := rows + [row], if pending then index + [Shortened(last, Separator(last.user, row.user))] else index;
    assert all[0] == if rows == [] then row else rows[0];
    forall i | 0 <= i < |more| ensures BoundAt(more, done, all, i) {
      assert i < |index| ==> BoundAt(index, done, rows, i);
    }
    assert all[|all| - 1] == row;
  }

  lemma KeyedBlock(index: seq<ByteKey>, done: seq<seq<Row>>, rows: seq<Row>, last: ByteKey)
    requires KeyedUpTo(index, done, rows, last) && rows != []
    ensures KeyedUpTo(index, done + [rows], [], last)
  {
    var all := done + [rows];
    forall i | 0 <= i < |index| ensures BoundAt(index, all, [], i) {
      assert BoundAt(index, done, rows, i);
    }
    assert all[|all| - 1] == rows;
  }

  lemma KeyedAll(index: seq<ByteKey>, done: seq<seq<Row>>, last: ByteKey, pending: bool)
    requires KeyedUpTo(index, done, [], last) && (pending <==> done != []) && |index| == if pending then |done| - 1 else |done|
    ensures Keyed(if pending then index + [Shortened(last, Successor(last.user, 0))] else index, done)
  {
    if pending {
      var more := index + [Shortened(last, Successor(last.user, 0))];
      forall i | 0 <= i < |more| - 1 ensures BoundAt(more, done, [], i) {
        assert BoundAt(index, done, [], i);
      }
    }
  }

  // ---------------------------------------------------------------------
  // The end of the file
  // ---------------------------------------------------------------------

  /** Everything behind the data blocks. */
  method AppendEnd(crc: LogFormat.Crc, name: Bytes, interval: nat, before: Bytes, index: seq<ByteKey>, handles: seq<Handle>,
                   filter: Option<Bytes>, ghost trail: Trail, ghost t: Table)
      returns (file: Bytes, ghost x: Layout)
    requires interval >= 1 && |MetaKey(name)| < TWO_32 && AllKeysFit(index) && |index| == |handles|
    requires OnFile(crc, before, handles, trail) && t == Table(trail.blocks, Images(index), trail.offsets, filter)
    ensures |file| < TWO_32 ==> IsTableFile(crc, name, file, t, x)
    ensures filter.Some? ==> |filter.value| <= |file|
    ensures x.rows == trail.done && x.keys == index && x.data == trail.data
    ensures WellPacked(x.index, 1) && WellPacked(x.meta, interval)
  {
    var meta, metaAt, metaSize, filterAt, m := AppendMeta(crc, name, interval, before, filter);
    var all, indexAt, indexSize, i := AppendIndex(crc, meta, index, handles);
    file := all + EncodeFooter(Handle(metaAt, metaSize), Handle(indexAt, indexSize));
    x := Layout(trail.done, index, trail.data, i, indexAt, m, metaAt, filterAt);
    if |file| < TWO_32 {
      FileIsTable(crc, name, before, meta, all, file, handles, trail, filter, t, x);
    }
  }

  /** The filter block, and the metaindex block that names it. */
  method AppendMeta(crc: LogFormat.Crc, name: Bytes, interval: nat, file: Bytes, filter: Option<Bytes>)
      returns (all: Bytes, metaAt: nat, metaSize: nat, filterAt: nat, ghost d: Built)
    requires interval >= 1 && |MetaKey(name)| < TWO_32
    ensures file <= all && metaSize == |d.bytes| && metaAt + metaSize <= |all|
    ensures filter.Some? ==> |filter.value| <= |all|
    ensures |all| < TWO_32 ==> MetaHolds(crc, name, all, filter, d, metaAt, filterAt)
    ensures WellPacked(d, interval)
  {
    filterAt := |file|;
    var pairs: seq<(Bytes, Bytes)> := [];
    all := file;
    if filter.Some? {
      all := file + Stored(crc, filter.value);
      pairs := [(MetaKey(name), EncodeHandle(Handle(filterAt, |filter.value|)))];
    }
    var block;
    block, d := BuildBlock(interval, pairs);
    metaAt, metaSize := |all|, |block|;
    ghost var before := all;
    all := all + Stored(crc, block);
    HasAtEnd(before, Stored(crc, block), []);
    if |all| < TWO_32 {
      if filter.Some? {
        HasAtEnd(file, Stored(crc, filter.value), Stored(crc, block));
        ShortHandle(Handle(filterAt, |filter.value|));
        assert IsPair(d.items[0], pairs[0]);
      }
    }
  }

  lemma ShortHandle(h: Handle)
    requires FitsHandle(h)
    ensures |EncodeHandle(h)| <= 20
  {
    Length64(h.offset);
    Length64(h.size);
  }

  predicate AllHandlesFit(handles: seq<Handle>) {
    forall i :: 0 <= i < |handles| ==> FitsHandle(handles[i])
  }

  ghost predicate IsIndex(d: Built, keys: seq<ByteKey>, handles: seq<Handle>) {
    && GoodBlock(d) && |d.items| == |keys| == |handles|
    && forall i :: 0 <= i < |keys| ==> IsIndexItem(d.items[i], keys[i], handles[i])
  }

  /** The index block; all its entries are restart points. */
  method AppendIndex(crc: LogFormat.Crc, file: Bytes, keys: seq<ByteKey>, handles: seq<Handle>)
      returns (all: Bytes, indexAt: nat, indexSize: nat, ghost d: Built)
    requires AllKeysFit(keys) && |handles| == |keys|
    ensures file <= all && indexSize == |d.bytes| && indexAt + indexSize <= |all| && HasAt(all, indexAt, Stored(crc, d.bytes))
    ensures |all| < TWO_32 && AllHandlesFit(handles) ==> IsIndex(d, keys, handles)
    ensures WellPacked(d, 1)
  {
    var pairs := IndexPairs(keys, handles);
    var block;
    block, d := BuildBlock(1, pairs);
    indexAt, indexSize := |file|, |block|;
    all := file + Stored(crc, block);
    HasAtEnd(file, Stored(crc, block), []);
    if |block| < TWO_32 && AllHandlesFit(handles) {
      IndexPairsAreSmall(keys, handles, pairs);
      PairsAreIndex(d, keys, handles, pairs);
    }
  }

  lemma IndexPairsAreSmall(keys: seq<ByteKey>, handles: seq<Handle>, pairs: seq<(Bytes, Bytes)>)
    requires AllKeysFit(keys) && |handles| == |keys| && AllHandlesFit(handles) && pairs == IndexPairs(keys, handles)
    ensures SmallPairs(pairs)
  {
    forall i | 0 <= i < |pairs| ensures |pairs[i].0| < TWO_32 && |pairs[i].1| < TWO_32 {
      ShortHandle(handles[i]);
    }
  }

  lemma PairsAreIndex(d: Built, keys: seq<ByteKey>, handles: seq<Handle>, pairs: seq<(Bytes, Bytes)>)
    requires AllKeysFit(keys) && |handles| == |keys| && AllHandlesFit(handles) && pairs == IndexPairs(keys, handles)
    requires SmallPairs(pairs) ==> GoodBlock(d) && ArePairs(d.items, pairs)
    requires SmallPairs(pairs)
    ensures IsIndex(d, keys, handles)
  {
    forall i | 0 <= i < |keys| ensures IsIndexItem(d.items[i], keys[i], handles[i]) {
      assert IsPair(d.items[i], pairs[i]);
    }
  }

  /** Handles of blocks in a file that is not too large. */
  lemma HandlesFit(crc: LogFormat.Crc, file: Bytes, handles: seq<Handle>, x: Trail)
    requires OnFile(crc, file, handles, x) && |file| < TWO_32
    ensures AllHandlesFit(handles) && forall i :: 0 <= i < |handles| ==> |x.data[i].bytes| < TWO_32
  {
    forall i | 0 <= i < |handles| ensures FitsHandle(handles[i]) && |x.data[i].bytes| < TWO_32 {
      assert BlockOnFile(crc, file, handles, x, i);
    }
  }

  lemma MetaGrows(crc: LogFormat.Crc, name: Bytes, file: Bytes, all: Bytes, filter: Option<Bytes>, meta: Built, metaAt: nat, filterAt: nat)
    requires file <= all && MetaHolds(crc, name, file, filter, meta, metaAt, filterAt)
    ensures MetaHolds(crc, name, all, filter, meta, metaAt, filterAt)
  {
  }

  /** With a footer behind it, the file is a table. */
  lemma FileIsTable(crc: LogFormat.Crc, name: Bytes, before: Bytes, meta: Bytes, all: Bytes, file: Bytes, handles: seq<Handle>,
                    trail: Trail, filter: Option<Bytes>, t: Table, x: Layout)
    requires OnFile(crc, before, handles, trail) && before <= meta <= all && |file| < TWO_32
    requires t == Table(trail.blocks, Images(x.keys), trail.offsets, filter) && x.rows == trail.done && x.data == trail.data
    requires MetaHolds(crc, name, meta, filter, x.meta, x.metaAt, x.filterAt)
    requires (AllHandlesFit(handles) ==> IsIndex(x.index, x.keys, handles)) && HasAt(all, x.indexAt, Stored(crc, x.index.bytes))
    requires x.metaAt + |x.meta.bytes| <= |all| && x.indexAt + |x.index.bytes| <= |all|
    requires file == all + EncodeFooter(MetaHandle(x), IndexHandle(x))
    ensures IsTableFile(crc, name, file, t, x)
  {
    Prefixes(before, meta, all, file);
    OnFileAll(crc, before, file, handles, trail);
    HandlesFit(crc, file, handles, trail);
    BlocksInPlace(crc, file, handles, trail, t, x);
    MetaGrows(crc, name, meta, file, filter, x.meta, x.metaAt, x.filterAt);
    IndexInPlace(crc, handles, trail, x, file);
    FooterInPlace(all, file, x);
    HasAtGrows(all, EncodeFooter(MetaHandle(x), IndexHandle(x)), x.indexAt, Stored(crc, x.index.bytes));
  }

  lemma Prefixes(before: Bytes, meta: Bytes, all: Bytes, file: Bytes)
    requires before <= meta <= all <= file
    ensures before <= file && meta <= file
  {
  }

  lemma OnFileAll(crc: LogFormat.Crc, before: Bytes, file: Bytes, handles: seq<Handle>, trail: Trail)
    requires before <= file && OnFile(crc, before, handles, trail)
    ensures OnFile(crc, file, handles, trail)
  {
    assert before + file[|before|..] == file;
    OnFileGrows(crc, before, file[|before|..], handles, trail);
  }

  lemma FooterInPlace(all: Bytes, file: Bytes, x: Layout)
    requires file == all + EncodeFooter(MetaHandle(x), IndexHandle(x)) && |file| < TWO_32
    requires x.metaAt + |x.meta.bytes| <= |all| && x.indexAt + |x.index.bytes| <= |all|
    ensures FooterHolds(file, x)
  {
    HasAtEnd(all, EncodeFooter(MetaHandle(x), IndexHandle(x)), []);
  }

  lemma BlocksInPlace(crc: LogFormat.Crc, file: Bytes, handles: seq<Handle>, trail: Trail, t: Table, x: Layout)
    requires OnFile(crc, file, handles, trail) && forall i :: 0 <= i < |handles| ==> |trail.data[i].bytes| < TWO_32
    requires t.blocks == trail.blocks && t.offsets == trail.offsets && x.rows == trail.done && x.data == trail.data
    ensures |t.blocks| == |x.rows| == |x.data| == |t.offsets| && forall i :: 0 <= i < |t.blocks| ==> BlockAt(crc, file, t, x, i)
  {
    forall i | 0 <= i < |t.blocks| ensures BlockAt(crc, file, t, x, i) {
      assert BlockOnFile(crc, file, handles, trail, i);
    }
  }

  lemma IndexInPlace(crc: LogFormat.Crc, handles: seq<Handle>, trail: Trail, x: Layout, file: Bytes)
    requires OnFile(crc, file, handles, trail) && IsIndex(x.index, x.keys, handles) && x.data == trail.data
    ensures IndexHolds(x.index, x.keys, trail.offsets, x.data)
  {
    forall i | 0 <= i < |x.keys| ensures IsIndexItem(x.index.items[i], x.keys[i], Handle(trail.offsets[i], |x.data[i].bytes|)) {
      assert BlockOnFile(crc, file, handles, trail, i);
      assert IsIndexItem(x.index.items[i], x.keys[i], handles[i]);
    }
  }

  lemma FlatMore(blocks: seq<seq<Entry>>, rest: seq<Entry>, e: Entry)
    ensures Flat(blocks + [rest + [e]]) == Flat(blocks + [rest]) + [e]
  {
    FlattenLast(blocks, rest);
    FlattenLast(blocks, rest + [e]);
  }

  lemma EntriesGrow(rows: seq<Row>, r: Row)
    ensures EntriesOf(rows + [r]) == EntriesOf(rows) + [EntryOf(r)]
  {
  }

  /** The filter has been given the finished blocks, and the one being filled. */
  ghost predicate FilterReady(filter: FilterBlock.FilterBlockBuilder?, at: nat, block: seq<Entry>, blocks: seq<seq<Entry>>, offsets: seq<nat>)
    reads filter
  {
    filter != null ==>
      filter.Valid() && filter.blockOffset == at && Filed(filter.placed, block, at) && AllFiled(filter.placed, blocks, offsets)
  }

  ghost predicate AllFiled(placed: set<(nat, Bytes)>, blocks: seq<seq<Entry>>, offsets: seq<nat>) {
    |offsets| == |blocks| && forall i :: 0 <= i < |blocks| ==> BlockFiled(placed, blocks, offsets, i)
  }

  ghost predicate BlockFiled(placed: set<(nat, Bytes)>, blocks: seq<seq<Entry>>, offsets: seq<nat>, i: nat)
    requires i < |blocks| == |offsets|
  {
    Filed(placed, blocks[i], offsets[i])
  }

  lemma FiledGrows(before: set<(nat, Bytes)>, placed: set<(nat, Bytes)>, blocks: seq<seq<Entry>>, offsets: seq<nat>)
    requires AllFiled(before, blocks, offsets) && before <= placed
    ensures AllFiled(placed, blocks, offsets)
  {
    forall i | 0 <= i < |blocks| ensures BlockFiled(placed, blocks, offsets, i) {
      assert BlockFiled(before, blocks, offsets, i);
    }
  }

  lemma OneMoreFiled(placed: set<(nat, Bytes)>, blocks: seq<seq<Entry>>, offsets: seq<nat>, block: seq<Entry>, at: nat)
    requires AllFiled(placed, blocks, offsets) && Filed(placed, block, at)
    ensures AllFiled(placed, blocks + [block], offsets + [at])
  {
    forall i | 0 <= i <= |blocks| ensures BlockFiled(placed, blocks + [block], offsets + [at], i) {
      assert i < |blocks| ==> BlockFiled(placed, blocks, offsets, i);
    }
  }

  lemma FinishedBlock(blocks: seq<seq<Entry>>, rest: seq<Entry>, last: ByteKey)
    requires EndsWith(blocks, rest, last) && rest != []
    ensures EndsWith(blocks + [rest], [], last) && EntriesOf([]) == []
  {
  }

  lemma SeparatorFits(keys: seq<ByteKey>, k: ByteKey, limit: ByteKey)
    requires AllKeysFit(keys) && FitsKey(k)
    ensures AllKeysFit(keys + [Shortened(k, Separator(k.user, limit.user))])
  {
  }

  lemma SuccessorFits(keys: seq<ByteKey>, k: ByteKey)
    requires AllKeysFit(keys) && FitsKey(k)
    ensures AllKeysFit(keys + [Shortened(k, Successor(k.user, 0))])
  {
  }

  /** What the file looks like inside: which rows make a block, how keys are shared, and which keys stand in the index. */
  ghost predicate LaidOut(x: Layout, interval: nat, blockSize: nat, early: bool) {
    && |x.data| == |x.rows| && Filled(x.rows, early, Sizes(interval), blockSize)
    && (forall i :: 0 <= i < |x.rows| ==> IsPacked(x.data[i], x.rows[i], interval))
    && Keyed(x.keys, x.rows) && WellPacked(x.index, 1) && WellPacked(x.meta, interval)
  }

  class TableBuilder {
    const crc: LogFormat.Crc
    const filter: FilterBlock.FilterBlockBuilder?
    /** The name of the filter policy. */
    const name: Bytes
    const interval: nat
    const blockSize: nat
    var rows: seq<Row>
    var file: Bytes
    var handles: seq<Handle>
    var index: seq<ByteKey>
    var lastKey: ByteKey
    var pendingIndexEntry: bool
    var closed: bool
    /** The finished blocks, and what the rows of the one being filled stand for. */
    ghost var trail: Trail
    ghost var dataBlock: seq<Entry>
    /** Whether Flush has ended a block below the size limit. */
    ghost var early: bool

    ghost predicate Valid()
      reads this, filter
    {
      Core() && EndedAtLimit(trail.done, early, Sizes(interval), blockSize) && StillSmall(rows, Sizes(interval), blockSize)
    }

    /** All but the sizes of the blocks. */
    ghost predicate Core()
      reads this, filter
    {
      && Fits() && dataBlock == EntriesOf(rows)
      && Parts(trail.blocks, dataBlock, index, pendingIndexEntry)
      && EndsWith(trail.blocks, dataBlock, lastKey)
      && OnFile(crc, file, handles, trail) && FilterReady(filter, |file|, dataBlock, trail.blocks, trail.offsets)
      && KeyedUpTo(index, trail.done, rows, lastKey)
    }

    /** All keys and values can be stored. */
    ghost predicate Fits()
      reads this
    {
      interval == trail.interval >= 1 && |MetaKey(name)| < TWO_32 && AllFit(rows) && FitsKey(lastKey) && AllKeysFit(index)
    }

    ghost function Entries(): seq<Entry>
      reads this
    {
      Flat(trail.blocks + [dataBlock])
    }

    constructor (crc: LogFormat.Crc, filter: FilterBlock.FilterBlockBuilder?, name: Bytes, interval: nat, blockSize: nat)
      requires interval >= 1 && |MetaKey(name)| < TWO_32 && (filter != null ==> filter.Valid() && filter.blockOffset == 0)
      ensures Valid() && !closed && !early && Entries() == [] && trail.done == [] && rows == []
      ensures this.filter == filter && this.crc == crc && this.name == name && this.interval == interval && this.blockSize == blockSize
    {
      this.crc, this.filter, this.name, this.interval, this.blockSize := crc, filter, name, interval, blockSize;
      rows, file, handles, index, lastKey := [], [], [], [], NoKey();
      pendingIndexEntry, closed, early := false, false, false;
      trail, dataBlock := Trail(interval, [], [], [], []), [];
      new;
      FlattenLast([], []);
    }

    /** The row joins the block being filled; if that reaches the size limit, the block is written. */
    method Add(row: Row)
      requires Valid() && !closed && FitsRow(row)
      requires (trail.blocks != [] || dataBlock != []) ==> KeyLess(Image(lastKey), IKey(EntryOf(row)))
      modifies this, filter
      ensures Valid() && !closed && early == old(early) && Entries() == old(Entries()) + [EntryOf(row)]
      ensures var more := old(rows) + [row];
        if Full(more, Sizes(interval), blockSize) then trail.done == old(trail.done) + [more] && rows == []
        else trail.done == old(trail.done) && rows == more
    {
      OneMoreRow(rows, row, Sizes(interval), blockSize);
      AddRow(row);
      if Sizes(interval)(rows) >= blockSize {
        Flush();
      }
    }

    method AddRow(row: Row)
      requires Core() && !closed && FitsRow(row)
      requires (trail.blocks != [] || dataBlock != []) ==> KeyLess(Image(lastKey), IKey(EntryOf(row)))
      modifies this, filter
      ensures Core() && !closed && early == old(early) && Entries() == old(Entries()) + [EntryOf(row)]
      ensures rows == old(rows) + [row] && trail == old(trail)
    {
      ghost var e := EntryOf(row);
      FlatMore(trail.blocks, dataBlock, e);
      ghost var more := dataBlock + [e];
      PassKey(row, e);
      Append(row, e, more);
    }

    /** The key goes to the index and to the filter. */
    method PassKey(row: Row, ghost e: Entry)
      requires Core() && !closed && e == EntryOf(row)
      requires (trail.blocks != [] || dataBlock != []) ==> KeyLess(Image(lastKey), IKey(e))
      modifies this`index, this`pendingIndexEntry, filter
      ensures Fits() && OnFile(crc, file, handles, trail) && Parts(trail.blocks, dataBlock + [e], index, pendingIndexEntry)
      ensures FilterReady(filter, |file|, dataBlock + [e], trail.blocks, trail.offsets)
      ensures KeyedUpTo(index, trail.done, rows + [row], KeyOf(row))
    {
      KeyedRow(index, trail.done, rows, lastKey, pendingIndexEntry, row);
      SettleIndex(KeyOf(row), e);
      FileKey(row.user, e);
    }

    method Append(row: Row, ghost e: Entry, ghost more: seq<Entry>)
      requires e == EntryOf(row) && FitsRow(row) && Fits() && dataBlock == EntriesOf(rows) && more == dataBlock + [e]
      requires OnFile(crc, file, handles, trail)
      requires Parts(trail.blocks, more, index, pendingIndexEntry) && FilterReady(filter, |file|, more, trail.blocks, trail.offsets)
      requires KeyedUpTo(index, trail.done, rows + [row], KeyOf(row))
      modifies this`lastKey, this`rows, this`dataBlock
      ensures Core() && dataBlock == more && rows == old(rows) + [row]
    {
      EntriesGrow(rows, row);
      lastKey := KeyOf(row);
      rows := rows + [row];
      dataBlock := dataBlock + [e];
      assert EndsWith(trail.blocks, dataBlock, lastKey);
    }

    /** The index key of the last finished block, which had to wait for the first key behind it. */
    method SettleIndex(key: ByteKey, ghost e: Entry)
      requires Parts(trail.blocks, dataBlock, index, pendingIndexEntry) && EndsWith(trail.blocks, dataBlock, lastKey)
      requires Image(key) == IKey(e) && ((trail.blocks != [] || dataBlock != []) ==> KeyLess(Image(lastKey), IKey(e)))
      requires FitsKey(lastKey) && AllKeysFit(index)
      modifies this`index, this`pendingIndexEntry
      ensures !pendingIndexEntry && Parts(trail.blocks, dataBlock + [e], index, false) && AllKeysFit(index)
      ensures index == if old(pendingIndexEntry) then old(index) + [Shortened(lastKey, Separator(lastKey.user, key.user))] else old(index)
    {
      assert [] + [e] == [e];
      if pendingIndexEntry {
        FirstKeepsParts(trail.blocks, index, lastKey, key, e);
        SeparatorFits(index, lastKey, key);
        var separator := FindInternalSeparator(lastKey, key);
        index := index + [separator];
        pendingIndexEntry := false;
      } else if dataBlock != [] {
        AddKeepsParts(trail.blocks, dataBlock, index, lastKey, e);
      } else {
        BeginParts(e);
      }
    }

    method FileKey(user: Bytes, ghost e: Entry)
      requires e.key == Rank(user) && |trail.offsets| == |trail.blocks|
      requires FilterReady(filter, |file|, dataBlock, trail.blocks, trail.offsets)
      modifies filter
      ensures FilterReady(filter, |file|, dataBlock + [e], trail.blocks, trail.offsets)
    {
      if filter != null {
        FiledMore(filter.placed, dataBlock, |file|, user, e);
        ghost var before := filter.placed;
        filter.AddKey(user);
        FiledGrows(before, filter.placed, trail.blocks, trail.offsets);
      }
    }

    /** Writes the block being filled. */
    method Flush()
      requires Core() && !closed && EndedAtLimit(trail.done, early, Sizes(interval), blockSize) && SmallBefore(rows, Sizes(interval), blockSize)
      modifies this, filter
      ensures Valid() && !closed && Entries() == old(Entries()) && dataBlock == [] && rows == []
      ensures trail.done == if old(rows) == [] then old(trail.done) else old(trail.done) + [old(rows)]
      ensures early == (old(early) || (old(rows) != [] && !Full(old(rows), Sizes(interval), blockSize)))
    {
      if rows == [] {
        return;
      }
      OneMoreEnded(trail.done, rows, early, Sizes(interval), blockSize);
      early := early || !Full(rows, Sizes(interval), blockSize);
      FlushRows();
    }

    method FlushRows()
      requires Core() && !closed && rows != []
      modifies this, filter
      ensures Core() && !closed && Entries() == old(Entries()) && dataBlock == [] && rows == []
      ensures trail.done == old(trail.done) + [old(rows)] && early == old(early)
    {
      FlushKeepsParts(trail.blocks, dataBlock, index);
      KeyedBlock(index, trail.done, rows, lastKey);
      WriteBlock();
      if filter != null {
        filter.StartBlock(|file|);
      }
    }

    method WriteBlock()
      requires Fits() && dataBlock == EntriesOf(rows) && dataBlock != [] && !closed && EndsWith(trail.blocks, dataBlock, lastKey)
      requires OnFile(crc, file, handles, trail)
      requires filter != null ==> AllFiled(filter.placed, trail.blocks, trail.offsets) && Filed(filter.placed, dataBlock, |file|)
      modifies this
      ensures Fits() && dataBlock == EntriesOf(rows) && OnFile(crc, file, handles, trail)
      ensures trail.blocks == old(trail.blocks) + [old(dataBlock)] && dataBlock == [] && pendingIndexEntry && !closed
      ensures trail.done == old(trail.done) + [old(rows)] && rows == [] && early == old(early)
      ensures index == old(index) && lastKey == old(lastKey) && |file| >= |old(file)|
      ensures |trail.offsets| == |trail.blocks| && (filter != null ==> AllFiled(filter.placed, trail.blocks, trail.offsets)) && EndsWith(trail.blocks, dataBlock, lastKey)
    {
      var all, h, next := StoreRows(crc, interval, rows, file, handles, trail);
      FinishedBlock(trail.blocks, dataBlock, lastKey);
      if filter != null {
        OneMoreFiled(filter.placed, trail.blocks, trail.offsets, dataBlock, |file|);
      }
      trail, handles, file := next, handles + [h], all;
      rows, dataBlock := [], [];
      pendingIndexEntry := true;
    }

    /**
     * The file: opened again, it has blocks with exactly what was added, an index between them, and a filter that
     * rejects none of the keys.
     */
    method Finish() returns (ghost t: Table, ghost x: Layout)
      requires Valid() && !closed
      modifies this, filter
      ensures GoodIndex(t.seps, t.blocks) && Flat(t.blocks) == old(Entries()) && (filter != null <==> t.filter.Some?)
      ensures |file| < TWO_32 ==> IsTableFile(crc, name, file, t, x)
      ensures |file| < TWO_32 && filter != null ==> FilterOk(filter.policy.hash, t.blocks, t.offsets, t.filter)
      ensures x.rows == if old(rows) == [] then old(trail.done) else old(trail.done) + [old(rows)]
      ensures LaidOut(x, interval, blockSize, old(early))
    {
      EndsWell(trail.done, rows, early, Sizes(interval), blockSize);
      CloseIndex();
      var filterBlock := FinishFilter();
      t := Table(trail.blocks, Images(index), trail.offsets, filterBlock);
      PackedOnFile(crc, file, handles, trail);
      file, x := AppendEnd(crc, name, interval, file, index, handles, filterBlock, trail, t);
    }

    /** The last block, and the index over all of them. */
    method CloseIndex()
      requires Valid() && !closed
      modifies this, filter
      ensures closed && GoodIndex(Images(index), trail.blocks) && Flat(trail.blocks) == old(Entries())
      ensures Fits() && OnFile(crc, file, handles, trail) && Keyed(index, trail.done)
      ensures trail.done == if old(rows) == [] then old(trail.done) else old(trail.done) + [old(rows)]
      ensures filter != null ==> filter.Valid() && AllFiled(filter.placed, trail.blocks, trail.offsets)
    {
      StillSmallBefore(rows, Sizes(interval), blockSize);
      Flush();
      CloseFlushed();
    }

    method CloseFlushed()
      requires Core() && !closed && rows == []
      modifies this`index, this`pendingIndexEntry, this`closed
      ensures closed && GoodIndex(Images(index), trail.blocks) && Flat(trail.blocks) == old(Entries())
      ensures Fits() && OnFile(crc, file, handles, trail) && Keyed(index, trail.done)
      ensures filter != null ==> filter.Valid() && AllFiled(filter.placed, trail.blocks, trail.offsets)
    {
      KeyedAll(index, trail.done, lastKey, pendingIndexEntry);
      CompleteIndex();
    }

    method FinishFilter() returns (filterBlock: Option<Bytes>)
      requires |trail.offsets| == |trail.blocks| && (filter != null ==> filter.Valid() && AllFiled(filter.placed, trail.blocks, trail.offsets))
      modifies filter
      ensures filter != null <==> filterBlock.Some?
      ensures filter != null && |filterBlock.value| < TWO_32 ==> FilterOk(filter.policy.hash, trail.blocks, trail.offsets, filterBlock)
    {
      filterBlock := None;
      if filter != null {
        var block := filter.Finish();
        filterBlock := Some(block);
        if |block| < TWO_32 {
          FiledIsOk(trail.blocks, trail.offsets, block, filter);
        }
      }
    }

    /** The index key of the last block. */
    method CompleteIndex()
      requires Parts(trail.blocks, dataBlock, index, pendingIndexEntry) && EndsWith(trail.blocks, dataBlock, lastKey) && dataBlock == []
      requires Fits() && OnFile(crc, file, handles, trail)
      modifies this`index, this`pendingIndexEntry, this`closed
      ensures GoodIndex(Images(index), trail.blocks) && Flat(trail.blocks) == old(Entries()) && closed
      ensures Fits() && OnFile(crc, file, handles, trail)
      ensures index == if old(pendingIndexEntry) then old(index) + [Shortened(lastKey, Successor(lastKey.user, 0))] else old(index)
    {
      closed := true;
      if pendingIndexEntry {
        FinishIndex(trail.blocks, index, lastKey);
        SuccessorFits(index, lastKey);
        var successor := FindInternalSuccessor(lastKey);
        index := index + [successor];
        pendingIndexEntry := false;
      } else {
        FlattenLast(trail.blocks, []);
      }
    }
  }

  lemma FiledIsOk(blocks: seq<seq<Entry>>, offsets: seq<nat>, block: Bytes, filter: FilterBlock.FilterBlockBuilder)
    requires |offsets| == |blocks| && |block| < TWO_32
    requires FilterBlock.IsFilterBlock(filter.policy, block, filter.result, filter.filterOffsets, filter.groups)
    requires FilterBlock.Sorted(filter.placed, filter.groups)
    requires AllFiled(filter.placed, blocks, offsets)
    ensures FilterOk(filter.policy.hash, blocks, offsets, Some(block))
  {
    forall i, user: Bytes | 0 <= i < |blocks| && InBlock(user, blocks[i])
      ensures FilterBlock.KeyMayMatch(filter.policy.hash, block, offsets[i], user)
    {
      assert BlockFiled(filter.placed, blocks, offsets, i);
      assert (offsets[i], user) in filter.placed;
      FilterBlock.NeverRejects(filter.policy, block, filter.result, filter.filterOffsets, filter.groups, offsets[i], user);
    }
  }
}
