/**
 * Table files: where the blocks, the filter, the metaindex, the index and the footer are, and the lookup that
 * starts from nothing but the bytes. table/table.cc:38-244.
 */
module TableFile {
  import opened Keys
  import opened Sequences
  import opened Tables
  import opened Cursors
  import opened TwoLevel
  import opened Varint
  import opened Separators
  import opened SSTable
  import opened BlockFormat
  import opened BlockReader
  import opened BlockIterator
  import opened TableFormat
  import Bloom
  import FilterBlock
  import LogFormat

  // ---------------------------------------------------------------------
  // What a table file is
  // ---------------------------------------------------------------------

  /** A block as it was built. */
  datatype Built = Built(bytes: Bytes, items: seq<Item>, starts: seq<nat>)

  ghost predicate GoodBlock(d: Built) {
    IsBlock(d.bytes, d.items, d.starts) && forall i :: 0 <= i < |d.items| ==> Small(d.items[i])
  }

  function EntriesOf(rows: seq<Row>): (es: seq<Entry>)
    ensures |es| == |rows| && forall i {:trigger es[i]} :: 0 <= i < |es| ==> es[i] == EntryOf(rows[i])
  {
    seq(|rows|, i requires 0 <= i < |rows| => EntryOf(rows[i]))
  }

  predicate IsRow(it: Item, r: Row) {
    FitsRow(r) && it.key == EncodeKey(KeyOf(r)) && it.value == TableFormat.ValueOf(r)
  }

  /** A data block of these rows. */
  ghost predicate HoldsRows(d: Built, rows: seq<Row>) {
    GoodBlock(d) && |d.items| == |rows| && forall i :: 0 <= i < |rows| ==> IsRow(d.items[i], rows[i])
  }

  predicate IsIndexItem(it: Item, k: ByteKey, h: Handle) {
    FitsKey(k) && FitsHandle(h) && it.key == EncodeKey(k) && it.value == EncodeHandle(h)
  }

  /** The index block: for every data block its index key and its handle. */
  ghost predicate IndexHolds(d: Built, keys: seq<ByteKey>, offsets: seq<nat>, data: seq<Built>) {
    && GoodBlock(d) && |d.items| == |keys| == |offsets| == |data|
    && forall i :: 0 <= i < |keys| ==> IsIndexItem(d.items[i], keys[i], Handle(offsets[i], |data[i].bytes|))
  }

  /** What a table file is made of, besides the table it stands for. */
  datatype Layout = Layout(rows: seq<seq<Row>>, keys: seq<ByteKey>, data: seq<Built>, index: Built, indexAt: nat,
                           meta: Built, metaAt: nat, filterAt: nat)

  ghost predicate BlockAt(crc: LogFormat.Crc, file: Bytes, t: Table, x: Layout, i: nat)
    requires i < |t.blocks| && i < |x.rows| && i < |x.data| && i < |t.offsets|
  {
    && t.blocks[i] == EntriesOf(x.rows[i]) && HoldsRows(x.data[i], x.rows[i])
    && HasAt(file, t.offsets[i], Stored(crc, x.data[i].bytes))
  }

  function MetaKey(name: Bytes): Bytes {
    kFilterPrefix + name
  }

  /** "filter." */
  const kFilterPrefix: Bytes := [102, 105, 108, 116, 101, 114, 46]

  /** The metaindex block names the filter block, if there is one. */
  ghost predicate MetaHolds(crc: LogFormat.Crc, name: Bytes, file: Bytes, filter: Option<Bytes>, meta: Built, metaAt: nat, filterAt: nat) {
    && GoodBlock(meta) && HasAt(file, metaAt, Stored(crc, meta.bytes))
    && match filter
       case None => meta.items == []
       case Some(f) =>
         && |meta.items| == 1 && meta.items[0].key == MetaKey(name) && FitsHandle(Handle(filterAt, |f|))
         && meta.items[0].value == EncodeHandle(Handle(filterAt, |f|)) && HasAt(file, filterAt, Stored(crc, f))
  }

  function MetaHandle(x: Layout): Handle {
    Handle(x.metaAt, |x.meta.bytes|)
  }

  function IndexHandle(x: Layout): Handle {
    Handle(x.indexAt, |x.index.bytes|)
  }

  ghost predicate FooterHolds(file: Bytes, x: Layout) {
    && FitsHandle(MetaHandle(x)) && FitsHandle(IndexHandle(x)) && |file| >= kFooterSize
    && HasAt(file, |file| - kFooterSize, EncodeFooter(MetaHandle(x), IndexHandle(x)))
  }

  ghost predicate IsTableFile(crc: LogFormat.Crc, name: Bytes, file: Bytes, t: Table, x: Layout) {
    && |t.blocks| == |x.rows| == |x.data| == |t.offsets| && t.seps == Images(x.keys)
    && (forall i :: 0 <= i < |t.blocks| ==> BlockAt(crc, file, t, x, i))
    && IndexHolds(x.index, x.keys, t.offsets, x.data) && HasAt(file, x.indexAt, Stored(crc, x.index.bytes))
    && MetaHolds(crc, name, file, t.filter, x.meta, x.metaAt, x.filterAt) && FooterHolds(file, x)
  }

  // ---------------------------------------------------------------------
  // Seeking in the bytes of a block
  // ---------------------------------------------------------------------

  /** The first item that is not before the target. */
  ghost predicate FirstAt(less: Order, items: seq<Item>, target: Bytes, i: nat) {
    && i <= |items| && (forall k :: 0 <= k < i ==> less(items[k].key, target))
    && (i < |items| ==> !less(items[i].key, target))
  }

  ghost predicate Downwards(less: Order, items: seq<Item>, target: Bytes) {
    forall j, k :: 0 <= j < k < |items| && less(items[k].key, target) ==> less(items[j].key, target)
  }

  /** The block is good, and its keys come in the order of the search. */
  ghost predicate Searchable(less: Order, block: Bytes, target: Bytes, d: Built) {
    GoodBlock(d) && d.bytes == block && Downwards(less, d.items, target)
  }

  /** A new iterator over the block, sought to the target: the key and value it stands at. */
  method SeekBlock(less: Order, block: Bytes, target: Bytes, ghost d: Built) returns (r: Option<(Bytes, Bytes)>, ghost i: nat)
    ensures Searchable(less, block, target, d) ==>
      && FirstAt(less, d.items, target, i)
      && r == if i < |d.items| then Some((d.items[i].key, d.items[i].value)) else None
  {
    ghost var good := Searchable(less, block, target, d);
    var it := BlockIterator.NewIterator(less, block, d.items, d.starts);
    r, i := None, 0;
    if it != null {
      i := it.Seek(target);
      if it.Valid() {
        r := Some((it.key, it.data[it.valueStart..it.NextEntryOffset()]));
      }
    }
  }
  // ---------------------------------------------------------------------
  // The order of encoded keys
  // ---------------------------------------------------------------------

  /** The items of a block of rows compare as the entries do. */
  lemma RowsCompare(d: Built, rows: seq<Row>, k: ByteKey, i: nat)
    requires HoldsRows(d, rows) && FitsKey(k) && i < |rows|
    ensures KeyOrder(d.items[i].key, EncodeKey(k)) <==> KeyLess(IKey(EntriesOf(rows)[i]), Image(k))
  {
    assert IsRow(d.items[i], rows[i]);
    OrderIsKeyLess(KeyOf(rows[i]), k);
    assert Image(KeyOf(rows[i])) == IKey(EntryOf(rows[i]));
  }

  lemma RowsAreSearchable(d: Built, rows: seq<Row>, k: ByteKey)
    requires HoldsRows(d, rows) && FitsKey(k) && SortedEntries(EntriesOf(rows))
    ensures Searchable(KeyOrder, d.bytes, EncodeKey(k), d)
  {
    forall i, j | 0 <= i < j < |d.items| && KeyOrder(d.items[j].key, EncodeKey(k)) ensures KeyOrder(d.items[i].key, EncodeKey(k)) {
      RowsCompare(d, rows, k, i);
      RowsCompare(d, rows, k, j);
      assert EntryLess(EntriesOf(rows)[i], EntriesOf(rows)[j]);
    }
  }

  /** The entries split at a place: before the key, and not before it. */
  ghost predicate IsPlace(es: seq<Entry>, k: InternalKey, at: nat) {
    at <= |es| && (forall j :: 0 <= j < at ==> KeyLess(IKey(es[j]), k)) && (at < |es| ==> !KeyLess(IKey(es[at]), k))
  }

  lemma PlaceIsSeek(es: seq<Entry>, k: InternalKey, at: nat)
    requires SortedEntries(es) && IsPlace(es, k, at)
    ensures at == SeekIndex(es, k)
  {
    SeekIndexUnique(es, k, at);
  }

  /** The first item at or after the target is where the entries split. */
  lemma FirstIsPlace(d: Built, rows: seq<Row>, k: ByteKey, at: nat)
    requires HoldsRows(d, rows) && FitsKey(k) && FirstAt(KeyOrder, d.items, EncodeKey(k), at)
    ensures IsPlace(EntriesOf(rows), Image(k), at)
  {
    var es := EntriesOf(rows);
    forall j | 0 <= j < at ensures KeyLess(IKey(es[j]), Image(k)) {
      ItemBefore(d, rows, k, at, j);
    }
    if at < |rows| {
      ItemNotBefore(d, rows, k, at);
    }
  }

  lemma ItemBefore(d: Built, rows: seq<Row>, k: ByteKey, at: nat, b: nat)
    requires HoldsRows(d, rows) && FitsKey(k) && FirstAt(KeyOrder, d.items, EncodeKey(k), at) && b < at
    ensures KeyLess(IKey(EntryOf(rows[b])), Image(k))
  {
    RowsCompare(d, rows, k, b);
  }

  lemma ItemNotBefore(d: Built, rows: seq<Row>, k: ByteKey, at: nat)
    requires HoldsRows(d, rows) && FitsKey(k) && FirstAt(KeyOrder, d.items, EncodeKey(k), at) && at < |rows|
    ensures !KeyLess(IKey(EntryOf(rows[at])), Image(k))
  {
    RowsCompare(d, rows, k, at);
  }

  lemma IndexCompares(d: Built, keys: seq<ByteKey>, offsets: seq<nat>, data: seq<Built>, k: ByteKey, i: nat)
    requires IndexHolds(d, keys, offsets, data) && FitsKey(k) && i < |keys|
    ensures KeyOrder(d.items[i].key, EncodeKey(k)) <==> KeyLess(Images(keys)[i], Image(k))
  {
    assert IsIndexItem(d.items[i], keys[i], Handle(offsets[i], |data[i].bytes|));
    OrderIsKeyLess(keys[i], k);
  }

  predicate Ascends(seps: seq<InternalKey>) {
    forall i, j :: 0 <= i < j < |seps| ==> KeyLess(seps[i], seps[j])
  }

  lemma IndexIsSearchable(d: Built, keys: seq<ByteKey>, offsets: seq<nat>, data: seq<Built>, k: ByteKey)
    requires IndexHolds(d, keys, offsets, data) && FitsKey(k) && Ascends(Images(keys))
    ensures Searchable(KeyOrder, d.bytes, EncodeKey(k), d)
  {
    forall i, j | 0 <= i < j < |d.items| && KeyOrder(d.items[j].key, EncodeKey(k)) ensures KeyOrder(d.items[i].key, EncodeKey(k)) {
      IndexCompares(d, keys, offsets, data, k, i);
      IndexCompares(d, keys, offsets, data, k, j);
    }
  }

  lemma FirstIsSep(d: Built, keys: seq<ByteKey>, offsets: seq<nat>, data: seq<Built>, k: ByteKey, at: nat)
    requires IndexHolds(d, keys, offsets, data) && FitsKey(k) && FirstAt(KeyOrder, d.items, EncodeKey(k), at)
    ensures at == SeekSep(Images(keys), Image(k))
  {
    var seps := Images(keys);
    var i := SeekSep(seps, Image(k));
    if at < i {
      IndexCompares(d, keys, offsets, data, k, at);
    } else if i < at {
      IndexCompares(d, keys, offsets, data, k, i);
    }
  }

  /** One block of a sorted table is sorted. */
  lemma BlockIsSorted(blocks: seq<seq<Entry>>, i: nat)
    requires SortedEntries(Flat(blocks)) && i < |blocks|
    ensures SortedEntries(blocks[i])
  {
    forall a, b | 0 <= a < b < |blocks[i]| ensures EntryLess(blocks[i][a], blocks[i][b]) {
      BlockOrder(blocks, i, a, i, b);
    }
  }

  // ---------------------------------------------------------------------
  // Opening a table
  // ---------------------------------------------------------------------

  /** What is kept of an open table: the index block, and the filter block if its policy is in use. */
  datatype OpenTable = OpenTable(index: Bytes, filter: Option<Bytes>)

  /** Table::Open. */
  method Open(crc: LogFormat.Crc, policy: Option<Bytes>, paranoid: bool, file: Bytes, ghost name: Bytes, ghost t: Table, ghost x: Layout)
      returns (r: Option<OpenTable>)
    ensures IsTableFile(crc, name, file, t, x) ==>
      r.Some? && r.value.index == x.index.bytes && r.value.filter == if policy == Some(name) then t.filter else None
  {
    ghost var good := IsTableFile(crc, name, file, t, x);
    if good {
      FooterReads(file, MetaHandle(x), IndexHandle(x));
      StoredReads(crc, paranoid, file, x.indexAt, x.index.bytes);
    }
    r := None;
    var footer := DecodeFooter(file);
    if footer.Some? {
      var index := ReadBlock(crc, paranoid, file, footer.value.1);
      if index.Some? {
        var filter := ReadMeta(crc, policy, paranoid, file, footer.value.0, name, t.filter, x);
        r := Some(OpenTable(index.value, filter));
      }
    }
  }

  /** ReadMeta and ReadFilter: without a filter, or if anything is wrong, the table is used without one. */
  method ReadMeta(crc: LogFormat.Crc, policy: Option<Bytes>, paranoid: bool, file: Bytes, handle: Handle,
                  ghost name: Bytes, ghost filter: Option<Bytes>, ghost x: Layout)
      returns (r: Option<Bytes>)
    ensures policy == None ==> r == None
    ensures MetaHolds(crc, name, file, filter, x.meta, x.metaAt, x.filterAt) && handle == MetaHandle(x) ==>
      r == if policy == Some(name) then filter else None
  {
    r := None;
    if policy.None? {
      return;
    }
    ghost var good := MetaHolds(crc, name, file, filter, x.meta, x.metaAt, x.filterAt) && handle == MetaHandle(x);
    if good {
      StoredReads(crc, paranoid, file, x.metaAt, x.meta.bytes);
    }
    var meta := ReadBlock(crc, paranoid, file, handle);
    if meta.Some? {
      var key := MetaKey(policy.value);
      var found, i := SeekBlock(BytesLess, meta.value, key, x.meta);
      if good {
        assert Searchable(BytesLess, meta.value, key, x.meta);
        LessIsStrict(key);
        OneMetaKey(policy.value, name);
      }
      if found.Some? && found.value.0 == key {
        if good {
          HandleStands(Handle(x.filterAt, |filter.value|));
          StoredReads(crc, paranoid, file, x.filterAt, filter.value);
        }
        var h := DecodeHandle(found.value.1, 0);
        if h.Some? {
          r := ReadBlock(crc, paranoid, file, h.value.0);
        }
      }
    }
  }

  lemma OneMetaKey(a: Bytes, b: Bytes)
    ensures MetaKey(a) == MetaKey(b) ==> a == b
  {
    assert MetaKey(a)[|kFilterPrefix|..] == a && MetaKey(b)[|kFilterPrefix|..] == b;
  }

  lemma {:induction false} LessIsStrict(a: Bytes)
    ensures !BytesLess(a, a)
  {
    RankPreservesOrder(a, a);
  }

  lemma HandleStands(h: Handle)
    requires FitsHandle(h)
    ensures DecodeHandle(EncodeHandle(h), 0).Some? && DecodeHandle(EncodeHandle(h), 0).value.0 == h
  {
    HandleReads(EncodeHandle(h), 0, h);
  }

  // ---------------------------------------------------------------------
  // Looking a key up
  // ---------------------------------------------------------------------

  /** The data block behind handle `i`, as the file has it. */
  lemma DataReads(crc: LogFormat.Crc, verify: bool, name: Bytes, file: Bytes, t: Table, x: Layout, i: nat, k: ByteKey)
    requires IsTableFile(crc, name, file, t, x) && GoodIndex(t.seps, t.blocks) && i < |t.blocks| && FitsKey(k)
    ensures var h := Handle(t.offsets[i], |x.data[i].bytes|);
      && DecodeHandle(x.index.items[i].value, 0).Some? && DecodeHandle(x.index.items[i].value, 0).value.0 == h
      && ReadBlock(crc, verify, file, h) == Some(x.data[i].bytes)
      && Searchable(KeyOrder, x.data[i].bytes, EncodeKey(k), x.data[i])
      && HoldsRows(x.data[i], x.rows[i]) && t.blocks[i] == EntriesOf(x.rows[i]) && SortedEntries(t.blocks[i])
  {
    var h := Handle(t.offsets[i], |x.data[i].bytes|);
    assert IsIndexItem(x.index.items[i], x.keys[i], h) && BlockAt(crc, file, t, x, i);
    HandleStands(h);
    StoredReads(crc, verify, file, t.offsets[i], x.data[i].bytes);
    BlockIsSorted(t.blocks, i);
    RowsAreSearchable(x.data[i], x.rows[i], k);
  }

  lemma SepsAscend(t: Table)
    requires GoodIndex(t.seps, t.blocks)
    ensures Ascends(t.seps)
  {
    GoodIndexSeparates(t.seps, t.blocks);
  }

  /**
   * Table::InternalGet on the bytes of the file. For a file that the builder has written it finds what a search
   * of all entries of the table finds, although the filter may say no.
   */
  method InternalGet(crc: LogFormat.Crc, hash: Bloom.Hash, verify: bool, file: Bytes, table: OpenTable, user: Bytes, s: nat,
                     ghost name: Bytes, ghost t: Table, ghost x: Layout)
      returns (r: Option<Entry>)
    requires FitsKey(ByteKey(user, s, TypeValue))
    ensures IsTableFile(crc, name, file, t, x) && GoodIndex(t.seps, t.blocks) && FilterOk(hash, t.blocks, t.offsets, t.filter) &&
            table.index == x.index.bytes && (table.filter.Some? ==> table.filter == t.filter) ==>
      IsFound(t, SeekKey(Rank(user), s), r)
  {
    var key := ByteKey(user, s, TypeValue);
    ghost var k := SeekKey(Rank(user), s);
    ghost var good := IsTableFile(crc, name, file, t, x) && GoodIndex(t.seps, t.blocks) &&
      FilterOk(hash, t.blocks, t.offsets, t.filter) && table.index == x.index.bytes && (table.filter.Some? ==> table.filter == t.filter);
    r := None;
    if good {
      SepsAscend(t);
      IndexIsSearchable(x.index, x.keys, t.offsets, x.data, key);
    }
    var found, i := SeekBlock(KeyOrder, table.index, EncodeKey(key), x.index);
    if good {
      FirstIsSep(x.index, x.keys, t.offsets, x.data, key, i);
      PlaceFound(t, k, i);
    }
    if found.Some? {
      if good {
        DataReads(crc, verify, name, file, t, x, i, key);
      }
      var h := DecodeHandle(found.value.1, 0);
      if h.Some? {
        if table.filter.Some? && !FilterBlock.KeyMayMatch(hash, table.filter.value, h.value.0.offset, user) {
          if good {
            RejectedIsAbsent(hash, t, user, i);
          }
        } else {
          r := GetInBlock(crc, verify, file, h.value.0, key, if good then x.data[i] else x.index, if good then x.rows[i] else []);
        }
      }
    }
  }

  /** The block behind the handle, and the first row at or after the key in it. */
  method GetInBlock(crc: LogFormat.Crc, verify: bool, file: Bytes, h: Handle, key: ByteKey, ghost d: Built, ghost rows: seq<Row>)
      returns (r: Option<Entry>)
    requires FitsKey(key)
    ensures ReadBlock(crc, verify, file, h) == Some(d.bytes) && HoldsRows(d, rows) && SortedEntries(EntriesOf(rows)) ==>
      var at := SeekIndex(EntriesOf(rows), Image(key)); r == if at < |rows| then Some(EntriesOf(rows)[at]) else None
  {
    ghost var good := ReadBlock(crc, verify, file, h) == Some(d.bytes) && HoldsRows(d, rows) && SortedEntries(EntriesOf(rows));
    r := None;
    var block := ReadBlock(crc, verify, file, h);
    if block.Some? {
      if good {
        RowsAreSearchable(d, rows, key);
      }
      var found, at := SeekBlock(KeyOrder, block.value, EncodeKey(key), d);
      if good {
        FirstIsPlace(d, rows, key, at);
        PlaceIsSeek(EntriesOf(rows), Image(key), at);
      }
      if found.Some? {
        if good {
          assert IsRow(d.items[at], rows[at]);
          RowParses(rows[at]);
        }
        r := ParseEntry(found.value.0, found.value.1);
      }
    }
  }
  /** What TableCache::Get comes to: the file is opened, and a candidate counts if it has the user key. */
  method Get(crc: LogFormat.Crc, hash: Bloom.Hash, policy: Option<Bytes>, verify: bool, file: Bytes, user: Bytes, s: nat,
             ghost name: Bytes, ghost t: Table, ghost x: Layout)
      returns (r: Option<Entry>)
    requires FitsKey(ByteKey(user, s, TypeValue))
    ensures IsTableFile(crc, name, file, t, x) && GoodIndex(t.seps, t.blocks) && FilterOk(hash, t.blocks, t.offsets, t.filter) ==>
      r == Search(Flat(t.blocks), Rank(user), s)
  {
    ghost var good := IsTableFile(crc, name, file, t, x) && GoodIndex(t.seps, t.blocks) &&
      FilterOk(hash, t.blocks, t.offsets, t.filter);
    r := None;
    var table := Open(crc, policy, verify, file, name, t, x);
    if table.Some? {
      r := InternalGet(crc, hash, verify, file, table.value, user, s, name, t, x);
      if good {
        GetIsSearch(t, user, s, r);
      }
      if r.Some? && r.value.key != Rank(user) {
        r := None;
      }
    }
  }
}
