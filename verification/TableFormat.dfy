/**
 * The parts of a table file as bytes: internal keys, block handles, stored blocks and the footer.
 * db/dbformat.{h,cc}, table/format.{h,cc} and table/table_builder.cc:177-196.
 */
module TableFormat {
  import opened Keys
  import opened Coding
  import opened Varint
  import opened Separators
  import LogFormat

  // ---------------------------------------------------------------------
  // Internal keys
  // ---------------------------------------------------------------------

  predicate FitsKey(k: ByteKey) {
    k.seqno <= kMaxSequenceNumber && |k.user| + 8 < TWO_32
  }

  /** AppendInternalKey: the user key and its tag. */
  function EncodeKey(k: ByteKey): (r: Bytes)
    requires FitsKey(k)
    ensures |r| == |k.user| + 8
  {
    k.user + EncodeFixed64(Tag(Image(k)))
  }

  function UserOf(b: Bytes): Bytes
    requires |b| >= 8
  {
    b[..|b| - 8]
  }

  function TagOf(b: Bytes): nat
    requires |b| >= 8
  {
    Load64(b, |b| - 8)
  }

  lemma KeyParts(k: ByteKey)
    requires FitsKey(k)
    ensures UserOf(EncodeKey(k)) == k.user && TagOf(EncodeKey(k)) == Tag(Image(k))
  {
    var b, tag := EncodeKey(k), EncodeFixed64(Tag(Image(k)));
    assert b[..|k.user|] == k.user;
    assert forall i :: 0 <= i < |tag| ==> b[|k.user| + i] == tag[i];
    Fixed64Read(b, |k.user|, Tag(Image(k)));
  }

  /** InternalKeyComparator on the bytes. */
  predicate KeyOrder(a: Bytes, b: Bytes) {
    && |a| >= 8 && |b| >= 8
    && (BytesLess(UserOf(a), UserOf(b)) || (UserOf(a) == UserOf(b) && TagOf(a) > TagOf(b)))
  }

  lemma OrderIsKeyLess(a: ByteKey, b: ByteKey)
    requires FitsKey(a) && FitsKey(b)
    ensures KeyOrder(EncodeKey(a), EncodeKey(b)) <==> KeyLess(Image(a), Image(b))
  {
    KeyParts(a);
    KeyParts(b);
    RankPreservesOrder(a.user, b.user);
  }

  /** A key with its value, as a row of a table. */
  datatype Row = Row(user: Bytes, seqno: nat, op: Op)

  function KeyOf(r: Row): ByteKey {
    ByteKey(r.user, r.seqno, if r.op.Delete? then TypeDeletion else TypeValue)
  }

  function ValueOf(r: Row): Bytes {
    if r.op.Put? then r.op.value else []
  }

  function EntryOf(r: Row): Entry {
    Entry(Rank(r.user), r.seqno, r.op)
  }

  predicate FitsRow(r: Row) {
    FitsKey(KeyOf(r)) && |ValueOf(r)| < TWO_32
  }

  /** ParseInternalKey, and the entry that the key and the value make. */
  function ParseEntry(key: Bytes, value: Bytes): Option<Entry> {
    if |key| < 8 || TagOf(key) % 256 > 1 then None
    else Some(Entry(Rank(UserOf(key)), TagOf(key) / 256, if TagOf(key) % 256 == 1 then Put(value) else Delete))
  }

  lemma RowParses(r: Row)
    requires FitsRow(r)
    ensures ParseEntry(EncodeKey(KeyOf(r)), ValueOf(r)) == Some(EntryOf(r))
  {
    KeyParts(KeyOf(r));
    TagSplits(r.seqno, TypeCode(KeyOf(r).vtype));
  }

  lemma TagSplits(seqno: nat, code: nat)
    requires code <= 1
    ensures (seqno * 256 + code) % 256 == code && (seqno * 256 + code) / 256 == seqno
  {
  }

  // ---------------------------------------------------------------------
  // Handles
  // ---------------------------------------------------------------------

  datatype Handle = Handle(offset: nat, size: nat)

  predicate FitsHandle(h: Handle) {
    h.offset < TWO_64 && h.size < TWO_64
  }

  function EncodeHandle(h: Handle): (r: Bytes) {
    Varint.Encode(h.offset) + Varint.Encode(h.size)
  }

  /** The handle at `p`, and the position behind it. */
  function DecodeHandle(b: Bytes, p: nat): Option<(Handle, nat)> {
    var x := Decode64(b, p);
    if x.None? then None
    else
      var y := Decode64(b, x.value.1);
      if y.None? then None else Some((Handle(x.value.0, y.value.0), y.value.1))
  }

  lemma HandleReads(b: Bytes, p: nat, h: Handle)
    requires FitsHandle(h) && HasAt(b, p, EncodeHandle(h))
    ensures DecodeHandle(b, p) == Some((h, p + |EncodeHandle(h)|)) && |EncodeHandle(h)| <= 20
  {
    NumbersRead(b, p, h, Varint.Encode(h.offset), Varint.Encode(h.size));
    Length64(h.offset);
    Length64(h.size);
  }

  lemma NumbersRead(b: Bytes, p: nat, h: Handle, x: Bytes, y: Bytes)
    requires FitsHandle(h) && x == Varint.Encode(h.offset) && y == Varint.Encode(h.size) && HasAt(b, p, x + y)
    ensures DecodeHandle(b, p) == Some((h, p + |x + y|))
  {
    var q := HasParts(b, p, x, y);
    RoundTrip64(b, p, h.offset);
    RoundTrip64(b, q, h.size);
  }

  // ---------------------------------------------------------------------
  // Stored blocks
  // ---------------------------------------------------------------------

  const kNoCompression: byte := 0
  const kTrailerSize: nat := 5

  /** The checksum of a block covers its type. */
  function BlockChecksum(crc: LogFormat.Crc, covered: Bytes): (n: nat)
    ensures n < TWO_32
  {
    crc(covered) % 0x1_0000_0000
  }

  /** WriteRawBlock: the contents, the type and the masked checksum. */
  function Stored(crc: LogFormat.Crc, block: Bytes): (r: Bytes)
    ensures |r| == |block| + kTrailerSize
  {
    block + [kNoCompression] + EncodeFixed32(Mask(BlockChecksum(crc, block + [kNoCompression])))
  }

  /** ReadBlock, for blocks that are not compressed. */
  function ReadBlock(crc: LogFormat.Crc, verify: bool, file: Bytes, h: Handle): Option<Bytes> {
    var end := h.offset + h.size;
    if end + kTrailerSize > |file| then None
    else if verify && Unmask(Load32(file, end + 1)) != BlockChecksum(crc, file[h.offset..end + 1]) then None
    else if file[end] != kNoCompression then None
    else Some(file[h.offset..end])
  }

  /** The stored checksum is that of everything before it, the type included. */
  lemma TrailerCovers(crc: LogFormat.Crc, block: Bytes)
    ensures var s, n := Stored(crc, block), |block| + 1;
      s[..|block|] == block && Unmask(Load32(s, n)) == crc(s[..n]) % 0x1_0000_0000
  {
    var s, covered := Stored(crc, block), block + [kNoCompression];
    var sum := Mask(BlockChecksum(crc, covered));
    assert s == covered + EncodeFixed32(sum);
    assert s[..|covered|] == covered;
    assert HasAt(s, |covered|, EncodeFixed32(sum));
    Fixed32Read(s, |covered|, sum);
    UnmaskMask(BlockChecksum(crc, covered));
  }

  lemma StoredReads(crc: LogFormat.Crc, verify: bool, file: Bytes, offset: nat, block: Bytes)
    requires HasAt(file, offset, Stored(crc, block))
    ensures ReadBlock(crc, verify, file, Handle(offset, |block|)) == Some(block)
  {
    var covered := block + [kNoCompression];
    var sum := Mask(BlockChecksum(crc, covered));
    var q := HasParts(file, offset, covered, EncodeFixed32(sum));
    var p := HasParts(file, offset, block, [kNoCompression]);
    HasSlice(file, offset, covered);
    HasSlice(file, offset, block);
    Fixed32Read(file, q, sum);
    UnmaskMask(BlockChecksum(crc, covered));
    assert file[p + 0] == kNoCompression;
  }

  /** With checksums verified, exactly what was stored at the handle is read. */
  lemma BlockReadsExactly(crc: LogFormat.Crc, file: Bytes, h: Handle, block: Bytes)
    ensures ReadBlock(crc, true, file, h) == Some(block) <==> |block| == h.size && HasAt(file, h.offset, Stored(crc, block))
  {
    if |block| == h.size && HasAt(file, h.offset, Stored(crc, block)) {
      StoredReads(crc, true, file, h.offset, block);
    } else if ReadBlock(crc, true, file, h) == Some(block) {
      ReadIsStored(crc, file, h, block, h.offset + h.size);
    }
  }

  lemma ReadIsStored(crc: LogFormat.Crc, file: Bytes, h: Handle, block: Bytes, end: nat)
    requires ReadBlock(crc, true, file, h) == Some(block) && end == h.offset + h.size
    ensures HasAt(file, h.offset, Stored(crc, block))
  {
    var trailer := file[end + 1..end + 5];
    assert file[h.offset..end + 1] == block + [kNoCompression];
    assert DecodeFixed32(trailer) == Load32(file, end + 1);
    MaskUnmask(Load32(file, end + 1));
    Fixed32Encodes(trailer);
    assert file[h.offset..end + 5] == block + [kNoCompression] + trailer;
    SliceStands(file, h.offset, end + 5);
  }

  lemma SliceStands(file: Bytes, i: nat, j: nat)
    requires i <= j <= |file|
    ensures HasAt(file, i, file[i..j])
  {
  }

  lemma HasAtGrows(file: Bytes, more: Bytes, p: nat, s: Bytes)
    requires HasAt(file, p, s)
    ensures HasAt(file + more, p, s)
  {
  }

  lemma HasAtEnd(file: Bytes, s: Bytes, more: Bytes)
    ensures HasAt(file + s + more, |file|, s) && HasAt(file + s, |file|, s)
  {
  }

  // ---------------------------------------------------------------------
  // The footer
  // ---------------------------------------------------------------------

  const kMagicLow: nat := 0x8b80_fb57
  const kMagicHigh: nat := 0xdb47_7524
  const kFooterSize: nat := 48

  /** Two handles, padded to 40 bytes, and the magic number. */
  function EncodeFooter(meta: Handle, index: Handle): (r: Bytes)
    ensures FitsHandle(meta) && FitsHandle(index) ==> |r| == kFooterSize
  {
    var handles := EncodeHandle(meta) + EncodeHandle(index);
    assert FitsHandle(meta) && FitsHandle(index) ==> |handles| <= 40 by {
      if FitsHandle(meta) && FitsHandle(index) {
        Length64(meta.offset); Length64(meta.size); Length64(index.offset); Length64(index.size);
      }
    }
    handles + (LogFormat.Zeros(if |handles| <= 40 then 40 - |handles| else 0) + (EncodeFixed32(kMagicLow) + EncodeFixed32(kMagicHigh)))
  }

  /** The handles of the metaindex block and of the index block. */
  function DecodeFooter(file: Bytes): Option<(Handle, Handle)> {
    if |file| < kFooterSize then None
    else if Load32(file, |file| - 8) != kMagicLow || Load32(file, |file| - 4) != kMagicHigh then None
    else
      var meta := DecodeHandle(file, |file| - kFooterSize);
      if meta.None? then None
      else
        var index := DecodeHandle(file, meta.value.1);
        if index.None? then None else Some((meta.value.0, index.value.0))
  }

  lemma FooterParts(meta: Handle, index: Handle, handles: Bytes)
    requires FitsHandle(meta) && FitsHandle(index) && handles == EncodeHandle(meta) + EncodeHandle(index)
    ensures |handles| <= 40
    ensures EncodeFooter(meta, index) ==
            handles + (LogFormat.Zeros(40 - |handles|) + (EncodeFixed32(kMagicLow) + EncodeFixed32(kMagicHigh)))
  {
    Length64(meta.offset); Length64(meta.size); Length64(index.offset); Length64(index.size);
  }

  lemma MagicReads(file: Bytes, p: nat)
    requires HasAt(file, p, EncodeFixed32(kMagicLow) + EncodeFixed32(kMagicHigh)) && p + 8 == |file|
    ensures Load32(file, |file| - 8) == kMagicLow && Load32(file, |file| - 4) == kMagicHigh
  {
    var n := HasParts(file, p, EncodeFixed32(kMagicLow), EncodeFixed32(kMagicHigh));
    Fixed32Read(file, p, kMagicLow);
    Fixed32Read(file, n, kMagicHigh);
  }

  /** Without the magic number at its end no file is a table. */
  lemma FooterNeedsMagic(file: Bytes)
    requires DecodeFooter(file).Some?
    ensures |file| >= kFooterSize && file[|file| - 8..] == [0x57, 0xfb, 0x80, 0x8b, 0x24, 0x75, 0x47, 0xdb]
  {
    var low, high := file[|file| - 8..|file| - 4], file[|file| - 4..];
    assert DecodeFixed32(low) == kMagicLow && DecodeFixed32(high) == kMagicHigh;
    Fixed32Encodes(low);
    Fixed32Encodes(high);
    assert file[|file| - 8..] == low + high;
    MagicBytes();
  }

  lemma MagicBytes()
    ensures EncodeFixed32(kMagicLow) == [0x57, 0xfb, 0x80, 0x8b] && EncodeFixed32(kMagicHigh) == [0x24, 0x75, 0x47, 0xdb]
  {
  }

  lemma HandlesRead(file: Bytes, p: nat, meta: Handle, index: Handle)
    requires FitsHandle(meta) && FitsHandle(index) && HasAt(file, p, EncodeHandle(meta) + EncodeHandle(index))
    ensures var m := DecodeHandle(file, p);
      m.Some? && m.value.0 == meta && DecodeHandle(file, m.value.1).Some? && DecodeHandle(file, m.value.1).value.0 == index
  {
    var i := HasParts(file, p, EncodeHandle(meta), EncodeHandle(index));
    HandleReads(file, p, meta);
    HandleReads(file, i, index);
  }

  lemma FooterReads(file: Bytes, meta: Handle, index: Handle)
    requires FitsHandle(meta) && FitsHandle(index) && |file| >= kFooterSize
    requires HasAt(file, |file| - kFooterSize, EncodeFooter(meta, index))
    ensures DecodeFooter(file) == Some((meta, index))
  {
    var p: nat := |file| - kFooterSize;
    var handles, magic := EncodeHandle(meta) + EncodeHandle(index), EncodeFixed32(kMagicLow) + EncodeFixed32(kMagicHigh);
    FooterParts(meta, index, handles);
    var q := HasParts(file, p, handles, LogFormat.Zeros(40 - |handles|) + magic);
    var m := HasParts(file, q, LogFormat.Zeros(40 - |handles|), magic);
    MagicReads(file, m);
    HandlesRead(file, p, meta, index);
  }
}
