/** Reading a block: its header, entry decoding and the effect of parsing one entry (table/block.cc:19-74 and 224-251). */
module BlockReader {
  import opened Keys
  import opened Coding
  import opened BlockFormat
  import Varint

  // ---------------------------------------------------------------------
  // The block as a whole
  // ---------------------------------------------------------------------

  /** What Block and NewIterator make of the bytes: bad, no restart points, or an iterator. */
  datatype Opened = Bad | Empty | Iterable(restarts: nat, numRestarts: nat)

  function Open(block: Bytes): (r: Opened)
    ensures r.Iterable? ==> r.numRestarts > 0 && r.restarts + 4 * r.numRestarts + 4 == |block|
  {
    if |block| < 4 then Bad
    else
      var n := DecodeFixed32(block[|block| - 4..]);
      if n > (|block| - 4) / 4 then Bad
      else if n == 0 then Empty
      else Iterable(|block| - (1 + n) * 4, n)
  }

  function RestartPoint(block: Bytes, restarts: nat, index: nat): nat
    requires restarts + 4 * index + 4 <= |block|
  {
    DecodeFixed32(block[restarts + 4 * index..])
  }

  lemma {:induction false} OpensBlock(block: Bytes, items: seq<Item>, starts: seq<nat>)
    requires IsBlock(block, items, starts)
    ensures Open(block) == Iterable(|Data(items)|, |starts|)
  {
    var n := |starts|;
    assert block[|block| - 4..] == EncodeFixed32(n) + [];
    Fixed32RoundTrip(n, []);
  }

  lemma {:induction false} PointIs(block: Bytes, items: seq<Item>, starts: seq<nat>, index: nat)
    requires IsBlock(block, items, starts) && index < |starts|
    ensures |Data(items)| + 4 * index + 4 <= |block|
    ensures RestartPoint(block, |Data(items)|, index) == Offset(items, starts[index])
  {
    var ns, rest := Points(items, starts), EncodeFixed32(|starts|);
    assert ns[index] == Offset(items, starts[index]);
    Fixed32At(ns, index, rest);
    DropFront(Data(items), Fixed32s(ns), rest, 4 * index);
    PointBehind(block, |Data(items)|, index, Fixed32s(ns) + rest, ns[index]);
  }

  lemma PointBehind(block: Bytes, n: nat, index: nat, tail: Bytes, v: nat)
    requires 4 * index + 4 <= |tail| && n + |tail| == |block| && block[n + 4 * index..] == tail[4 * index..]
    requires DecodeFixed32(tail[4 * index..]) == v
    ensures RestartPoint(block, n, index) == v
  {
  }

  lemma DropFront(a: Bytes, b: Bytes, c: Bytes, k: nat)
    requires k <= |b|
    ensures (a + b + c)[|a| + k..] == (b + c)[k..]
  {
  }

  // ---------------------------------------------------------------------
  // One entry
  // ---------------------------------------------------------------------

  datatype Header = Header(shared: nat, nonShared: nat, valueLength: nat, keyStart: nat)

  /** The three lengths at `p`, read byte by byte if all are small. */
  function Lengths(b: Bytes, p: nat): (r: Option<Header>)
    ensures r.Some? ==> p + 3 <= r.value.keyStart <= |b|
  {
    if p + 3 > |b| then None
    else if b[p] < 128 && b[p + 1] < 128 && b[p + 2] < 128 then
      Some(Header(b[p] as nat, b[p + 1] as nat, b[p + 2] as nat, p + 3))
    else LongLengths(b, p)
  }

  function LongLengths(b: Bytes, p: nat): (r: Option<Header>)
    ensures r.Some? ==> p + 3 <= r.value.keyStart <= |b|
  {
    var x := Varint.Decode32(b, p);
    if x.None? then None
    else
      var y := Varint.Decode32(b, x.value.1);
      if y.None? then None
      else
        var z := Varint.Decode32(b, y.value.1);
        if z.None? then None else Some(Header(x.value.0, y.value.0, z.value.0, z.value.1))
  }

  /** DecodeEntry: None if the entry does not fit before the end. */
  function DecodeEntry(b: Bytes, p: nat): (r: Option<Header>)
    ensures r.Some? ==> p + 3 <= r.value.keyStart <= r.value.keyStart + r.value.nonShared + r.value.valueLength <= |b|
  {
    var h := Lengths(b, p);
    if h.None? || |b| - h.value.keyStart < h.value.nonShared + h.value.valueLength then None else h
  }

  lemma FirstByte(b: Bytes, p: nat, v: nat)
    requires Varint.HasAt(b, p, Varint.Encode(v))
    ensures p < |b| && (b[p] < 128 <==> v < 128)
    ensures v < 128 ==> |Varint.Encode(v)| == 1 && b[p] == v as byte
  {
    assert b[p + 0] == Varint.Encode(v)[0];
  }

  lemma {:induction false} LengthsRead(b: Bytes, p: nat, i: nat, j: nat, k: nat, x: nat, y: nat, z: nat)
    requires x < TWO_32 && y < TWO_32 && z < TWO_32
    requires Varint.HasAt(b, p, Varint.Encode(x)) && i == p + |Varint.Encode(x)|
    requires Varint.HasAt(b, i, Varint.Encode(y)) && j == i + |Varint.Encode(y)|
    requires Varint.HasAt(b, j, Varint.Encode(z)) && k == j + |Varint.Encode(z)|
    ensures Lengths(b, p) == Some(Header(x, y, z, k))
  {
    Varint.RoundTrip32(b, p, x);
    Varint.RoundTrip32(b, i, y);
    Varint.RoundTrip32(b, j, z);
    FirstByte(b, p, x);
    FirstByte(b, i, y);
    FirstByte(b, j, z);
    NumbersAt(b, p, x, i, y, j, z, k);
  }

  /** Both paths find three numbers that stand one after another. */
  lemma NumbersAt(b: Bytes, p: nat, x: nat, i: nat, y: nat, j: nat, z: nat, k: nat)
    requires Varint.Decode32(b, p) == Some((x, i))
    requires Varint.Decode32(b, i) == Some((y, j))
    requires Varint.Decode32(b, j) == Some((z, k))
    requires b[p] < 128 ==> i == p + 1 && x == b[p] as nat
    requires b[i] < 128 ==> j == i + 1 && y == b[i] as nat
    requires b[j] < 128 ==> k == j + 1 && z == b[j] as nat
    ensures Lengths(b, p) == Some(Header(x, y, z, k))
  {
  }

  predicate Small(it: Item) {
    it.shared <= |it.key| < TWO_32 && |it.value| < TWO_32
  }

  /** The header, the key part and the value of an item, found at `p`. */
  ghost predicate Finds(b: Bytes, p: nat, h: Header, it: Item)
    requires it.shared <= |it.key|
  {
    && h.shared == it.shared && h.nonShared == |it.key| - it.shared && h.valueLength == |it.value|
    && h.keyStart + h.nonShared + h.valueLength == p + |Encoded(it)| <= |b|
    && b[h.keyStart..h.keyStart + h.nonShared] == it.key[it.shared..]
    && b[h.keyStart + h.nonShared..h.keyStart + h.nonShared + h.valueLength] == it.value
  }

  lemma FiveParts(b: Bytes, p: nat, x: Bytes, y: Bytes, z: Bytes, k: Bytes, v: Bytes)
      returns (i: nat, j: nat, keyStart: nat, valueStart: nat)
    requires Varint.HasAt(b, p, x + (y + (z + (k + v))))
    ensures i == p + |x| && j == i + |y| && keyStart == j + |z| && valueStart == keyStart + |k| && valueStart + |v| <= |b|
    ensures Varint.HasAt(b, p, x) && Varint.HasAt(b, i, y) && Varint.HasAt(b, j, z)
    ensures Varint.HasAt(b, keyStart, k) && Varint.HasAt(b, valueStart, v)
  {
    i := Varint.HasParts(b, p, x, y + (z + (k + v)));
    j := Varint.HasParts(b, i, y, z + (k + v));
    keyStart := Varint.HasParts(b, j, z, k + v);
    valueStart := Varint.HasParts(b, keyStart, k, v);
  }

  /** An encoded entry is decoded whatever stands around it. */
  lemma {:induction false} EntryRead(b: Bytes, p: nat, it: Item)
    requires Small(it) && Varint.HasAt(b, p, Encoded(it))
    ensures DecodeEntry(b, p).Some? && Finds(b, p, DecodeEntry(b, p).value, it)
  {
    var k, v := it.key[it.shared..], it.value;
    var x, y, z := Varint.Encode(it.shared), Varint.Encode(|k|), Varint.Encode(|v|);
    var i, j, keyStart, valueStart := FiveParts(b, p, x, y, z, k, v);
    LengthsRead(b, p, i, j, keyStart, it.shared, |k|, |v|);
    Varint.HasSlice(b, keyStart, k);
    Varint.HasSlice(b, valueStart, v);
  }
}
