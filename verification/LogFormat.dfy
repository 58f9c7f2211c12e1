/** The log format and its writer: db/log_format.h:14-30 and db/log_writer.cc:16-108. */
module LogFormat {
  import opened Keys
  import opened Sequences
  import opened Coding

  const kBlockSize: nat := 32768
  const kHeaderSize: nat := 7
  const kFullType: byte := 1
  const kFirstType: byte := 2
  const kMiddleType: byte := 3
  const kLastType: byte := 4

  /** The checksum function, of which nothing is assumed. */
  type Crc = Bytes -> nat

  function Checksum(crc: Crc, t: byte, payload: Bytes): nat {
    crc([t] + payload) % TWO_32
  }

  /** Header and payload of a physical record. */
  function Physical(crc: Crc, t: byte, payload: Bytes): (r: Bytes)
    requires |payload| <= 0xffff
    ensures |r| == kHeaderSize + |payload|
  {
    EncodeFixed32(Mask(Checksum(crc, t, payload))) + [Low(|payload|), Low(|payload| / 256), t] + payload
  }

  /** Where the next physical record starts: past the trailer if no header fits into the block. */
  function Skip(p: nat): (q: nat)
    ensures p <= q < p + kHeaderSize && q % 32768 + kHeaderSize <= kBlockSize
  {
    var leftover := kBlockSize - p % 32768;
    if leftover < kHeaderSize then p + leftover else p
  }

  function Room(p: nat): nat {
    kBlockSize - Skip(p) % 32768 - kHeaderSize
  }

  function Zeros(n: nat): (r: Bytes)
    ensures |r| == n
  {
    seq(n, _ => 0)
  }

  function TypeOf(begin: bool, end: bool): byte {
    if begin then if end then kFullType else kFirstType
    else if end then kLastType else kMiddleType
  }

  function FragmentLength(p: nat, data: Bytes): (n: nat)
    ensures n <= |data| && n <= 0xffff
  {
    if |data| < Room(p) then |data| else Room(p)
  }

  /** The trailer, if any, and the first fragment of `data` at file position `p`. */
  function Fragment(crc: Crc, p: nat, data: Bytes, begin: bool): (r: Bytes)
    ensures |r| == Skip(p) - p + kHeaderSize + FragmentLength(p, data)
  {
    var n := FragmentLength(p, data);
    Zeros(Skip(p) - p) + Physical(crc, TypeOf(begin, n == |data|), data[..n])
  }

  /** A fragment that does not end the record fills its block, so the next one has room. */
  lemma NextFragmentHasRoom(p: nat, data: Bytes)
    requires FragmentLength(p, data) < |data|
    ensures var q := Skip(p) + kHeaderSize + FragmentLength(p, data); q % 32768 == 0 && Room(q) > 0
  {
    var s := Skip(p);
    assert FragmentLength(p, data) == kBlockSize - s % 32768 - kHeaderSize;
    assert s + kHeaderSize + FragmentLength(p, data) == (s / 32768 + 1) * 32768;
    WholeBlocks(s / 32768 + 1);
  }

  lemma WholeBlocks(k: nat)
    ensures (k * 32768) % 32768 == 0
  {
  }

  /** The bytes that a record adds to a file of length `p`. */
  function Encode(crc: Crc, p: nat, data: Bytes, begin: bool): Bytes
    decreases |data|, Room(p) == 0
  {
    var n := FragmentLength(p, data);
    var first := Fragment(crc, p, data, begin);
    if n == |data| then first
    else
      NextFragmentHasRoom(p, data);
      first + Encode(crc, p + |first|, data[n..], false)
  }

  /** What the loop still has to emit. */
  function Pending(crc: Crc, p: nat, data: Bytes, begin: bool, more: bool): Bytes {
    if more then Encode(crc, p, data, begin) else []
  }

  /** An empty first fragment at the end of a block happens once. */
  ghost function Remaining(p: nat, data: Bytes): nat {
    2 * |data| + if Room(p) == 0 then 1 else 0
  }

  lemma EncodeStep(crc: Crc, p: nat, data: Bytes, begin: bool)
    ensures var n, first := FragmentLength(p, data), Fragment(crc, p, data, begin);
      && Encode(crc, p, data, begin) ==
         first + Pending(crc, p + |first|, data[n..], false, |data[n..]| > 0)
      && (|data[n..]| > 0 ==> Room(p + |first|) > 0 && (n > 0 || Room(p) == 0))
  {
    if FragmentLength(p, data) < |data| { NextFragmentHasRoom(p, data); }
  }

  /** The log of a list of records. */
  function EncodeAll(crc: Crc, records: seq<Bytes>): Bytes {
    if records == [] then []
    else
      var before := EncodeAll(crc, records[..|records| - 1]);
      before + Encode(crc, |before|, records[|records| - 1], true)
  }

  // ---------------------------------------------------------------------
  // The writer
  // ---------------------------------------------------------------------

  class Writer {
    const crc: Crc
    var dest: Bytes
    var blockOffset: nat

    /** A writer for a new file. */
    constructor (crc: Crc)
      ensures Ok() && this.crc == crc && dest == []
    {
      this.crc, dest, blockOffset := crc, [], 0;
    }

    /** A writer that goes on with an existing file. */
    constructor Reopen(crc: Crc, dest: Bytes)
      ensures Ok() && this.crc == crc && this.dest == dest
    {
      this.crc, this.dest, blockOffset := crc, dest, |dest| % 32768;
    }

    predicate Ok()
      reads this
    {
      blockOffset <= kBlockSize && blockOffset % 32768 == |dest| % 32768
    }

    /**
     * Appends one record, cut into fragments at block ends. The bytes depend only on the length of
     * the file, so a reopened log continues as if one writer had written it all.
     */
    method AddRecord(slice: Bytes)
      requires Ok()
      modifies this
      ensures Ok() && dest == old(dest) + Encode(crc, |old(dest)|, slice, true)
    {
      ghost var target := dest + Encode(crc, |dest|, slice, true);
      var left := slice;
      var begin := true;
      var more := true;
      ghost var rank := Remaining(|dest|, left);
      while more
        invariant Ok() && target == dest + Pending(crc, |dest|, left, begin, more)
        invariant more ==> rank == Remaining(|dest|, left)
        decreases more, rank
      {
        left, more := EmitNext(left, begin);
        begin := false;
        rank := Remaining(|dest|, left);
      }
    }

    /** One round of the loop: a fragment, and whether anything is left. */
    method EmitNext(data: Bytes, begin: bool) returns (left: Bytes, more: bool)
      requires Ok()
      modifies this
      ensures Ok() && dest + Pending(crc, |dest|, left, false, more) == old(dest) + Pending(crc, |old(dest)|, data, begin, true)
      ensures more ==> Remaining(|dest|, left) < Remaining(|old(dest)|, data)
    {
      ghost var p, before := |dest|, dest;
      EncodeStep(crc, p, data, begin);
      var fragmentLength := EmitFragment(data, begin);
      left := data[fragmentLength..];
      more := |left| > 0;
      Associates(before, Fragment(crc, p, data, begin), Pending(crc, |dest|, left, false, more));
    }

    /** Switches to a new block if the header does not fit, then emits what fits into the block. */
    method EmitFragment(left: Bytes, begin: bool) returns (fragmentLength: nat)
      requires Ok()
      modifies this
      ensures Ok() && fragmentLength == FragmentLength(|old(dest)|, left)
      ensures dest == old(dest) + Fragment(crc, |old(dest)|, left, begin)
    {
      SkipTrailer();
      var avail := kBlockSize - blockOffset - kHeaderSize;
      fragmentLength := if |left| < avail then |left| else avail;
      EmitPhysicalRecord(TypeOf(begin, |left| == fragmentLength), left[..fragmentLength]);
    }

    method SkipTrailer()
      requires Ok()
      modifies this
      ensures Ok() && dest == old(dest) + Zeros(Skip(|old(dest)|) - |old(dest)|)
      ensures blockOffset == Skip(|old(dest)|) % 32768
    {
      ghost var p := |dest|;
      TrailerFits(p, blockOffset);
      var leftover := kBlockSize - blockOffset;
      if leftover < kHeaderSize {
        if leftover > 0 {
          dest := dest + Zeros(leftover);
        }
        blockOffset := 0;
      }
    }

    method EmitPhysicalRecord(t: byte, payload: Bytes)
      requires |payload| <= 0xffff && blockOffset + kHeaderSize + |payload| <= kBlockSize && Ok()
      modifies this
      ensures Ok() && dest == old(dest) + Physical(crc, t, payload)
    {
      OffsetMoves(blockOffset, |dest|, kHeaderSize + |payload|);
      dest := dest + Physical(crc, t, payload);
      blockOffset := blockOffset + kHeaderSize + |payload|;
    }
  }

  lemma OffsetMoves(off: nat, p: nat, n: nat)
    requires off % 32768 == p % 32768
    ensures (off + n) % 32768 == (p + n) % 32768
  {
  }

  /** The block offset and the file length agree on the trailer. */
  lemma TrailerFits(p: nat, off: nat)
    requires off <= kBlockSize && off % 32768 == p % 32768
    ensures kBlockSize - off < kHeaderSize ==> Skip(p) == p + (kBlockSize - off) && Skip(p) % 32768 == 0
    ensures kBlockSize - off >= kHeaderSize ==> Skip(p) == p && off == p % 32768
  {
  }
}
