/**
 * Reading a log back: from any prefix of its bytes, exactly the records that lie wholly inside it.
 */
module LogRecovery {
  import opened Keys
  import opened Coding
  import opened LogFormat
  import opened LogReader

  /** The buffer lies within one block and reaches to its end, or to the end of the file. */
  ghost predicate Aligned(file: Bytes, r: ReaderState) {
    && Ok(file, r)
    && if r.eof then r.endOfBuffer == |file| && |r.buffer| <= r.endOfBuffer % 32768
       else r.endOfBuffer % 32768 == 0 && |r.buffer| <= kBlockSize
  }

  /** As far as the file goes, it has `bytes` at position `p`. */
  ghost predicate Agrees(file: Bytes, p: nat, bytes: Bytes) {
    forall k :: p <= k < |file| && k < p + |bytes| ==> file[k] == bytes[k - p]
  }

  // ---------------------------------------------------------------------
  // One physical record
  // ---------------------------------------------------------------------

  lemma RefillAligned(file: Bytes, r: ReaderState)
    requires Aligned(file, r) && !r.eof
    ensures Aligned(file, Refill(file, r))
  {
    var left := |file| - r.endOfBuffer;
    if left < kBlockSize {
      ShortBlock(r.endOfBuffer, left);
    } else {
      LogFormat.OffsetMoves(0, r.endOfBuffer, kBlockSize);
    }
  }

  lemma ShortBlock(e: nat, n: nat)
    requires e % 32768 == 0 && n < kBlockSize
    ensures (e + n) % 32768 == n
  {
  }

  /** A buffer too short for a header, with more to read, is the rest of its block. */
  lemma TrailerSkipped(e: nat, n: nat)
    requires e % 32768 == 0 && n < kHeaderSize && n <= e
    ensures Skip(e - n) == e
  {
    if n > 0 {
      assert (e - n) / 32768 == e / 32768 - 1;
    }
  }

  lemma HeaderNotSkipped(e: nat, n: nat, eof: bool)
    requires kHeaderSize <= n <= e
    requires if eof then n <= e % 32768 else e % 32768 == 0 && n <= kBlockSize
    ensures Skip(e - n) == e - n
    ensures !eof ==> n == kHeaderSize + Room(e - n)
  {
    if eof {
      assert (e - n) / 32768 == e / 32768;
      assert (e - n) % 32768 == e % 32768 - n;
    } else {
      assert n < kBlockSize ==> (e - n) / 32768 == e / 32768 - 1;
    }
  }

  /** The state in which ReadPhysicalRecord looks at a header, if it does. */
  ghost function Filled(file: Bytes, r: ReaderState): ReaderState
    requires Ok(file, r)
  {
    if |r.buffer| < kHeaderSize && !r.eof then Refill(file, r) else r
  }

  lemma {:induction false} FilledAt(crc: Crc, checksum: bool, file: Bytes, r: ReaderState)
    requires Aligned(file, r)
    ensures var f := Filled(file, r);
      && Aligned(file, f)
      && f.reports == r.reports
      && ReadPhysical(crc, checksum, file, r) == ReadPhysical(crc, checksum, file, f)
      && (|f.buffer| < kHeaderSize ==> f.eof && |file| < Skip(Position(r)) + kHeaderSize)
      && (|f.buffer| >= kHeaderSize ==> Position(f) == Skip(Position(r)))
      && (|f.buffer| >= kHeaderSize && !f.eof ==> |f.buffer| == kHeaderSize + Room(Position(r)))
  {
    var f := Filled(file, r);
    if |r.buffer| < kHeaderSize && !r.eof {
      RefillAligned(file, r);
      TrailerSkipped(r.endOfBuffer, |r.buffer|);
      SkipTwice(Position(r));
    }
    if |f.buffer| >= kHeaderSize {
      HeaderNotSkipped(f.endOfBuffer, |f.buffer|, f.eof);
    }
  }

  lemma SkipTwice(p: nat)
    ensures Skip(Skip(p)) == Skip(p) && Room(Skip(p)) == Room(p)
  {
  }

  /** The parts of a physical record: checksum, length, type and payload. */
  lemma PhysicalParts(crc: Crc, t: byte, payload: Bytes, bytes: Bytes)
    requires |payload| <= 0xffff && bytes == Physical(crc, t, payload)
    ensures |bytes| == kHeaderSize + |payload| && bytes[..4] == EncodeFixed32(Mask(Checksum(crc, t, payload)))
    ensures bytes[4] as nat + 256 * bytes[5] as nat == |payload| && bytes[6] == t && bytes[kHeaderSize..] == payload
  {
    var sum, rest := EncodeFixed32(Mask(Checksum(crc, t, payload))), [Low(|payload|), Low(|payload| / 256), t];
    assert bytes == sum + rest + payload;
    FourAndThree(sum, rest, payload);
    TwoBytes(|payload|);
  }

  lemma FourAndThree(a: Bytes, b: Bytes, c: Bytes)
    requires |a| == 4 && |b| == 3
    ensures (a + b + c)[..4] == a && (a + b + c)[4] == b[0] && (a + b + c)[5] == b[1] && (a + b + c)[6] == b[2]
    ensures (a + b + c)[7..] == c
  {
  }

  lemma TwoBytes(n: nat)
    requires n <= 0xffff
    ensures Low(n) as nat + 256 * Low(n / 256) as nat == n
  {
    assert n / 256 < 256;
  }

  lemma ChecksumBack(crc: Crc, t: byte, payload: Bytes, buffer: Bytes)
    requires |buffer| >= 4 && buffer[..4] == EncodeFixed32(Mask(Checksum(crc, t, payload)))
    ensures Unmask(DecodeFixed32(buffer)) == Checksum(crc, t, payload)
  {
    var sum := Mask(Checksum(crc, t, payload));
    Fixed32RoundTrip(sum, buffer[4..]);
    assert EncodeFixed32(sum) + buffer[4..] == buffer;
    UnmaskMask(Checksum(crc, t, payload));
  }

  lemma AgreedHeader(buffer: Bytes, bytes: Bytes)
    requires Agrees(buffer, 0, bytes) && kHeaderSize <= |buffer| && kHeaderSize <= |bytes|
    ensures buffer[..4] == bytes[..4] && buffer[4] == bytes[4] && buffer[5] == bytes[5] && buffer[6] == bytes[6]
  {
  }

  lemma AgreedPayload(buffer: Bytes, bytes: Bytes, n: nat, payload: Bytes)
    requires Agrees(buffer, 0, bytes) && n + |payload| <= |buffer| && n <= |bytes| && bytes[n..] == payload
    ensures buffer[n..n + |payload|] == payload
  {
    assert forall k :: 0 <= k < |payload| ==> bytes[n + k] == payload[k];
  }

  /** The header and payload at the front of the buffer, as far as the buffer reaches. */
  lemma ParsesPhysical(crc: Crc, checksum: bool, r: ReaderState, t: byte, payload: Bytes)
    requires |payload| <= 0xffff && t != 0 && |r.buffer| >= kHeaderSize
    requires Agrees(r.buffer, 0, Physical(crc, t, payload))
    requires r.eof || kHeaderSize + |payload| <= |r.buffer|
    ensures ParseRecord(crc, checksum, r) ==
            if kHeaderSize + |payload| <= |r.buffer|
            then (Record(t, payload), r.(buffer := r.buffer[kHeaderSize + |payload|..]))
            else (Eof, r.(buffer := []))
  {
    var bytes := Physical(crc, t, payload);
    PhysicalParts(crc, t, payload, bytes);
    AgreedHeader(r.buffer, bytes);
    ChecksumBack(crc, t, payload, r.buffer);
    if kHeaderSize + |payload| <= |r.buffer| {
      AgreedPayload(r.buffer, bytes, kHeaderSize, payload);
    }
  }

  /** What reading a physical record that ends at `end` comes to. */
  ghost predicate Finds(file: Bytes, end: nat, t: byte, payload: Bytes, reports: nat, found: Found, next: ReaderState) {
    && next.reports == reports
    && if end <= |file| then found == Record(t, payload) && Aligned(file, next) && Position(next) == end else found == Eof
  }

  lemma BufferAgrees(file: Bytes, f: ReaderState, bytes: Bytes)
    requires Ok(file, f) && Agrees(file, Position(f), bytes)
    ensures Agrees(f.buffer, 0, bytes)
  {
    assert forall k :: 0 <= k < |f.buffer| ==> f.buffer[k] == file[Position(f) + k];
  }

  lemma ParsedAligned(file: Bytes, f: ReaderState, n: nat)
    requires Aligned(file, f)
    ensures n <= |f.buffer| ==> Aligned(file, f.(buffer := f.buffer[n..])) && Position(f.(buffer := f.buffer[n..])) == Position(f) + n
  {
  }

  /** A physical record written at `p` is read back if the file holds all of it; otherwise the file has ended. */
  lemma ReadsPhysical(crc: Crc, checksum: bool, file: Bytes, r: ReaderState, t: byte, payload: Bytes)
    requires Aligned(file, r) && t != 0 && |payload| <= Room(Position(r))
    requires Agrees(file, Skip(Position(r)), Physical(crc, t, payload))
    ensures var (found, next) := ReadPhysical(crc, checksum, file, r);
      Finds(file, Skip(Position(r)) + kHeaderSize + |payload|, t, payload, r.reports, found, next)
  {
    var f := Filled(file, r);
    FilledAt(crc, checksum, file, r);
    if |f.buffer| >= kHeaderSize {
      BufferAgrees(file, f, Physical(crc, t, payload));
      ParsesPhysical(crc, checksum, f, t, payload);
      ParsedAligned(file, f, kHeaderSize + |payload|);
    }
  }

  // ---------------------------------------------------------------------
  // One logical record
  // ---------------------------------------------------------------------

  lemma AgreesOnParts(file: Bytes, p: nat, a: Bytes, b: Bytes)
    requires Agrees(file, p, a + b)
    ensures Agrees(file, p, a) && Agrees(file, p + |a|, b)
  {
    assert forall k :: 0 <= k < |a| ==> (a + b)[k] == a[k];
    assert forall k :: 0 <= k < |b| ==> (a + b)[|a| + k] == b[k];
  }

  /** The fragment at the position of the reader, found by one call of ReadPhysicalRecord. */
  lemma ReadsFragment(crc: Crc, checksum: bool, file: Bytes, r: ReaderState, p: nat, data: Bytes, begin: bool)
    requires Aligned(file, r) && Position(r) == p && Agrees(file, p, Fragment(crc, p, data, begin))
    ensures var (found, next), n := ReadPhysical(crc, checksum, file, r), FragmentLength(p, data);
      Finds(file, p + |Fragment(crc, p, data, begin)|, TypeOf(begin, n == |data|), data[..n], r.reports, found, next)
  {
    var n := FragmentLength(p, data);
    var t := TypeOf(begin, n == |data|);
    AgreesOnParts(file, p, Zeros(Skip(p) - p), Physical(crc, t, data[..n]));
    ReadsPhysical(crc, checksum, file, r, t, data[..n]);
  }

  lemma AssemblesFragment(begin: bool, end: bool, scratch: Bytes, fragment: Bytes)
    requires begin ==> scratch == []
    ensures Assemble(Record(TypeOf(begin, end), fragment), !begin, scratch) ==
            if end then Done(Some(scratch + fragment), false) else More(true, scratch + fragment, false)
  {
    assert begin ==> scratch + fragment == fragment;
  }

  /** How ReadRecord goes on after a fragment that the writer emitted. */
  lemma TakesFragment(crc: Crc, checksum: bool, file: Bytes, r: ReaderState, begin: bool, end: bool, scratch: Bytes, fragment: Bytes)
    requires Ok(file, r) && (begin ==> scratch == [])
    requires ReadPhysical(crc, checksum, file, r).0 == Record(TypeOf(begin, end), fragment)
    ensures var next := ReadPhysical(crc, checksum, file, r).1;
      ReadLogical(crc, checksum, file, r, !begin, scratch) ==
      if end then (Some(scratch + fragment), next)
      else ReadLogical(crc, checksum, file, next, true, scratch + fragment)
  {
    AssemblesFragment(begin, end, scratch, fragment);
  }

  ghost predicate Reads(file: Bytes, end: nat, data: Bytes, reports: nat, record: Option<Bytes>, next: ReaderState) {
    && next.reports == reports
    && if end <= |file| then record == Some(data) && Aligned(file, next) && Position(next) == end else record == None
  }

  /** One round of ReadRecord on a fragment that ends at `end`: the file ends, the record does, or both go on. */
  lemma ReadsRound(crc: Crc, checksum: bool, file: Bytes, r: ReaderState, begin: bool, last: bool, scratch: Bytes, fragment: Bytes, end: nat)
    returns (next: ReaderState)
    requires Ok(file, r) && (begin ==> scratch == [])
    requires var (found, next) := ReadPhysical(crc, checksum, file, r);
      Finds(file, end, TypeOf(begin, last), fragment, r.reports, found, next)
    ensures var x := ReadLogical(crc, checksum, file, r, !begin, scratch);
      && (end > |file| ==> x.0 == None && x.1.reports == r.reports)
      && (end <= |file| ==> Aligned(file, next) && Position(next) == end && next.reports == r.reports)
      && (end <= |file| && last ==> x == (Some(scratch + fragment), next))
      && (end <= |file| && !last ==> x == ReadLogical(crc, checksum, file, next, true, scratch + fragment))
  {
    next := ReadPhysical(crc, checksum, file, r).1;
    if end <= |file| {
      TakesFragment(crc, checksum, file, r, begin, last, scratch, fragment);
    }
  }

  /** The same for the fragment that comes next in the encoding of a record, of `n` bytes and up to `end`. */
  lemma ReadsFirst(crc: Crc, checksum: bool, file: Bytes, r: ReaderState, p: nat, data: Bytes, begin: bool, scratch: Bytes, n: nat, end: nat)
    returns (next: ReaderState)
    requires Aligned(file, r) && Position(r) == p && Agrees(file, p, Fragment(crc, p, data, begin)) && (begin ==> scratch == [])
    requires n == FragmentLength(p, data) && end == p + |Fragment(crc, p, data, begin)|
    ensures var x := ReadLogical(crc, checksum, file, r, !begin, scratch);
      && (end > |file| ==> x.0 == None && x.1.reports == r.reports)
      && (end <= |file| ==> Aligned(file, next) && Position(next) == end && next.reports == r.reports)
      && (end <= |file| && n == |data| ==> x == (Some(scratch + data), next))
      && (end <= |file| && n < |data| ==> x == ReadLogical(crc, checksum, file, next, true, scratch + data[..n]))
  {
    ReadsFragment(crc, checksum, file, r, p, data, begin);
    next := ReadsRound(crc, checksum, file, r, begin, n == |data|, scratch, data[..n], end);
    assert n == |data| ==> data[..n] == data;
  }

  /** The encoding of a record is its next fragment, up to `end`, and the encoding of the rest of the data. */
  lemma EncodingSplits(crc: Crc, file: Bytes, p: nat, data: Bytes, begin: bool, bytes: Bytes) returns (n: nat, end: nat, rest: Bytes)
    requires bytes == Encode(crc, p, data, begin) && Agrees(file, p, bytes)
    ensures n == FragmentLength(p, data) && end == p + |Fragment(crc, p, data, begin)|
    ensures Agrees(file, p, Fragment(crc, p, data, begin)) && Agrees(file, end, rest) && p + |bytes| == end + |rest|
    ensures n == |data| ==> rest == []
    ensures n < |data| ==> rest == Encode(crc, end, data[n..], false) && Room(end) > 0 && (n > 0 || Room(p) == 0)
  {
    var first := Fragment(crc, p, data, begin);
    n := FragmentLength(p, data);
    rest := Pending(crc, p + |first|, data[n..], false, |data[n..]| > 0);
    EncodeStep(crc, p, data, begin);
    AgreesOnParts(file, p, first, rest);
    end := p + |first|;
  }

  lemma Rejoin(scratch: Bytes, data: Bytes, n: nat)
    requires n <= |data|
    ensures (scratch + data[..n]) + data[n..] == scratch + data
  {
  }

  /**
   * Reading at a position where the encoding of the rest `data` of a record starts, after the fragments in
   * `scratch`: the record comes back if the file holds it up to its end `last`. If the file ends before, so does
   * reading. Nothing is reported.
   */
  lemma {:induction false} ReadsLogical(
      crc: Crc, checksum: bool, file: Bytes, r: ReaderState, p: nat, data: Bytes, begin: bool, scratch: Bytes,
      bytes: Bytes, last: nat, record: Bytes)
    requires bytes == Encode(crc, p, data, begin) && (begin ==> scratch == [])
    requires Aligned(file, r) && Position(r) == p && Agrees(file, p, bytes)
    requires last == p + |bytes| && record == scratch + data
    ensures var (x, next) := ReadLogical(crc, checksum, file, r, !begin, scratch);
      Reads(file, last, record, r.reports, x, next)
    decreases |data|, Room(p) == 0
  {
    var n, end, rest := EncodingSplits(crc, file, p, data, begin, bytes);
    var next := ReadsFirst(crc, checksum, file, r, p, data, begin, scratch, n, end);
    if n < |data| && end <= |file| {
      Rejoin(scratch, data, n);
      ReadsLogical(crc, checksum, file, next, end, data[n..], false, scratch + data[..n], rest, last, record);
    }
  }

  // ---------------------------------------------------------------------
  // The whole log
  // ---------------------------------------------------------------------

  lemma {:induction false} EncodingOfPart(crc: Crc, records: seq<Bytes>, i: nat)
    requires i < |records|
    ensures var before := EncodeAll(crc, records[..i]);
      && before + Encode(crc, |before|, records[i], true) == EncodeAll(crc, records[..i + 1]) <= EncodeAll(crc, records)
  {
    assert records[..i + 1][..i] == records[..i];
    if i + 1 < |records| {
      var shorter := records[..|records| - 1];
      assert shorter[..i] == records[..i] && shorter[..i + 1] == records[..i + 1];
      EncodingOfPart(crc, shorter, i);
    } else {
      assert records[..i + 1] == records;
    }
  }

  /** The next record, if the file holds all of it. */
  lemma PrefixAgrees(file: Bytes, log: Bytes, before: Bytes, bytes: Bytes)
    requires file <= log && before + bytes <= log
    ensures Agrees(file, |before|, bytes)
  {
    assert forall k :: 0 <= k < |bytes| ==> bytes[k] == (before + bytes)[|before| + k];
  }

  /** The next record, if the file holds all of it. */
  lemma ReadsNext(crc: Crc, checksum: bool, records: seq<Bytes>, file: Bytes, r: ReaderState, i: nat)
    requires i < |records| && file <= EncodeAll(crc, records)
    requires Aligned(file, r) && Position(r) == |EncodeAll(crc, records[..i])|
    ensures var (record, next) := ReadLogical(crc, checksum, file, r, false, []);
      Reads(file, |EncodeAll(crc, records[..i + 1])|, records[i], r.reports, record, next)
  {
    var p := |EncodeAll(crc, records[..i])|;
    var bytes := Encode(crc, p, records[i], true);
    EncodingOfPart(crc, records, i);
    PrefixAgrees(file, EncodeAll(crc, records), EncodeAll(crc, records[..i]), bytes);
    ReadsLogical(crc, checksum, file, r, p, records[i], true, [], bytes, |EncodeAll(crc, records[..i + 1])|, records[i]);
  }

  lemma ReadsNone(crc: Crc, checksum: bool, file: Bytes, r: ReaderState)
    requires Aligned(file, r) && Position(r) == |file|
    ensures ReadAll(crc, checksum, file, r) == ([], r.reports)
  {
    FilledAt(crc, checksum, file, r);
  }

  /** Reading all is reading one record and then all the others. */
  lemma ReadsAllFrom(crc: Crc, checksum: bool, file: Bytes, r: ReaderState, end: nat, record: Bytes) returns (next: ReaderState)
    requires Aligned(file, r)
    requires var (x, next) := ReadLogical(crc, checksum, file, r, false, []); Reads(file, end, record, r.reports, x, next)
    ensures end <= |file| ==> Aligned(file, next) && Position(next) == end && next.reports == r.reports
    ensures ReadAll(crc, checksum, file, r) ==
            if end <= |file| then ([record] + ReadAll(crc, checksum, file, next).0, ReadAll(crc, checksum, file, next).1)
            else ([], r.reports)
  {
    next := ReadLogical(crc, checksum, file, r, false, []).1;
  }

  /** After the last record there is nothing. */
  lemma ReadsNoMore(crc: Crc, checksum: bool, records: seq<Bytes>, file: Bytes, r: ReaderState)
    requires file <= EncodeAll(crc, records)
    requires Aligned(file, r) && Position(r) == |EncodeAll(crc, records[..|records|])|
    ensures ReadAll(crc, checksum, file, r) == ([], r.reports)
  {
    assert records[..|records|] == records;
    ReadsNone(crc, checksum, file, r);
  }

  lemma Range(records: seq<Bytes>, i: nat, m: nat)
    requires i <= m <= |records|
    ensures i == m ==> records[i..m] == []
    ensures i < m ==> [records[i]] + records[i + 1..m] == records[i..m]
  {
  }

  /** The first `m` records lie wholly in the first `n` bytes of the log, and the next does not. */
  ghost predicate Cut(crc: Crc, records: seq<Bytes>, n: nat, m: nat) {
    && m <= |records|
    && |EncodeAll(crc, records[..m])| <= n
    && (m < |records| ==> n < |EncodeAll(crc, records[..m + 1])|)
  }

  lemma CutHere(crc: Crc, records: seq<Bytes>, file: Bytes, r: ReaderState, m: nat)
    requires Aligned(file, r) && m <= |records| && Position(r) == |EncodeAll(crc, records[..m])|
    requires m == |records| || |file| < |EncodeAll(crc, records[..m + 1])|
    ensures Cut(crc, records, |file|, m)
  {
  }

  lemma {:induction false} ReadsOn(crc: Crc, checksum: bool, records: seq<Bytes>, file: Bytes, r: ReaderState, i: nat, p: nat) returns (m: nat)
    requires i <= |records| && file <= EncodeAll(crc, records)
    requires Aligned(file, r) && Position(r) == p == |EncodeAll(crc, records[..i])|
    ensures i <= m && Cut(crc, records, |file|, m)
    ensures ReadAll(crc, checksum, file, r) == (records[i..m], r.reports)
    decreases |records| - i
  {
    if i == |records| {
      m := i;
      ReadsNoMore(crc, checksum, records, file, r);
      CutHere(crc, records, file, r, i);
    } else {
      var end := |EncodeAll(crc, records[..i + 1])|;
      ReadsNext(crc, checksum, records, file, r, i);
      var next := ReadsAllFrom(crc, checksum, file, r, end, records[i]);
      if end <= |file| {
        m := ReadsOn(crc, checksum, records, file, next, i + 1, end);
      } else {
        m := i;
        CutHere(crc, records, file, r, i);
      }
    }
    Range(records, i, m);
  }

  lemma {:induction false} EncodingGrows(crc: Crc, records: seq<Bytes>, i: nat, j: nat)
    requires i <= j <= |records|
    ensures |EncodeAll(crc, records[..i])| <= |EncodeAll(crc, records[..j])|
    decreases j
  {
    if i < j {
      assert records[..j][..j - 1] == records[..j - 1];
      EncodingGrows(crc, records, i, j - 1);
    }
  }

  lemma CutIsExact(crc: Crc, records: seq<Bytes>, n: nat, m: nat)
    requires Cut(crc, records, n, m)
    ensures forall i :: 0 <= i <= |records| ==> (i <= m <==> |EncodeAll(crc, records[..i])| <= n)
  {
    forall i | 0 <= i <= |records|
      ensures i <= m <==> |EncodeAll(crc, records[..i])| <= n
    {
      if i <= m { EncodingGrows(crc, records, i, m); } else { EncodingGrows(crc, records, m + 1, i); }
    }
  }

  /**
   * The crash-prefix theorem. Whatever number of bytes of a log survives, reading it gives back, in order,
   * exactly the records whose last byte is among them, and reports no corruption.
   */
  lemma CrashPrefix(crc: Crc, checksum: bool, records: seq<Bytes>, n: nat) returns (m: nat)
    requires n <= |EncodeAll(crc, records)|
    ensures m <= |records| && ReadAll(crc, checksum, EncodeAll(crc, records)[..n], Start) == (records[..m], 0)
    ensures forall i :: 0 <= i <= |records| ==> (i <= m <==> |EncodeAll(crc, records[..i])| <= n)
  {
    m := ReadsOn(crc, checksum, records, EncodeAll(crc, records)[..n], Start, 0, 0);
    assert records[0..m] == records[..m];
    CutIsExact(crc, records, n, m);
  }

  /** A complete log gives back exactly what was written. */
  lemma LogRoundTrip(crc: Crc, checksum: bool, records: seq<Bytes>)
    ensures ReadAll(crc, checksum, EncodeAll(crc, records), Start) == (records, 0)
  {
    var log := EncodeAll(crc, records);
    var m := CrashPrefix(crc, checksum, records, |log|);
    assert log[..|log|] == log && records[..|records|] == records;
    assert |records| <= m;
  }
  // ---------------------------------------------------------------------
  // Going on with a file
  // ---------------------------------------------------------------------

  /** A record that a writer adds behind whole records is read back behind them. */
  lemma WholeLogGoesOn(crc: Crc, checksum: bool, records: seq<Bytes>, p: Bytes)
    ensures var log := EncodeAll(crc, records);
      ReadAll(crc, checksum, log + Encode(crc, |log|, p, true), Start) == (records + [p], 0)
  {
    assert (records + [p])[..|records|] == records;
    LogRoundTrip(crc, checksum, records + [p]);
  }

  /** A log of one record, cut within its payload, and one more record behind what is left. */
  function TornLog(crc: Crc, r: Bytes, c: nat, p: Bytes): (log: Bytes)
    requires c < |r| <= 0xffff
    ensures |log| >= kHeaderSize + c
  {
    var left := Physical(crc, kFullType, r)[..kHeaderSize + c];
    left + Encode(crc, |left|, p, true)
  }

  lemma TornHeader(crc: Crc, r: Bytes, c: nat, p: Bytes)
    requires c < |r| <= 0xffff
    ensures var log := TornLog(crc, r, c, p); log[4] as nat + 256 * log[5] as nat == |r| && log[6] == kFullType
  {
    PhysicalParts(crc, kFullType, r, Physical(crc, kFullType, r));
  }

  /** The first physical record of such a log is as long as the torn one, or there is none. */
  lemma TornRecord(crc: Crc, r: Bytes, c: nat, p: Bytes)
    requires c < |r| <= 0xffff && |TornLog(crc, r, c, p)| < kBlockSize
    ensures var (found, next) := ReadPhysical(crc, true, TornLog(crc, r, c, p), Start);
      && next.eof
      && if found.Record? then found.t == kFullType && |found.fragment| == |r| else next.buffer == []
  {
    var log := TornLog(crc, r, c, p);
    TornHeader(crc, r, c, p);
    var filled := Refill(log, Start);
    assert filled.buffer == log && filled.eof;
    assert ReadPhysical(crc, true, log, Start) == ReadPhysical(crc, true, log, filled) == ParseRecord(crc, true, filled);
  }

  /**
   * A record that a writer adds behind a torn one is lost: the length in the torn header covers its beginning.
   * RecoverLogFile reuses a log of any length (db/db_impl.cc:456-468).
   */
  lemma TornLogLosesRecord(crc: Crc, r: Bytes, c: nat, p: Bytes)
    requires c < |r| <= 0xffff && |p| != |r| && |TornLog(crc, r, c, p)| < kBlockSize
    ensures ReadAll(crc, true, TornLog(crc, r, c, p), Start).0 != [p]
  {
    TornRecord(crc, r, c, p);
    FirstIsShort(crc, TornLog(crc, r, c, p), |r|);
    OtherLength(crc, TornLog(crc, r, c, p), p);
  }

  /** The first logical record is that physical one, if there is any. */
  lemma FirstIsShort(crc: Crc, log: Bytes, n: nat)
    requires var (found, next) := ReadPhysical(crc, true, log, Start);
      next.eof && if found.Record? then found.t == kFullType && |found.fragment| == n else next.buffer == []
    ensures var x := ReadLogical(crc, true, log, Start, false, []).0; x.Some? ==> |x.value| == n
  {
    var (found, next) := ReadPhysical(crc, true, log, Start);
    FirstFrom(crc, log, Start, n, found, next);
  }

  lemma FirstFrom(crc: Crc, log: Bytes, r: ReaderState, n: nat, found: Found, next: ReaderState)
    requires Ok(log, r) && ReadPhysical(crc, true, log, r) == (found, next) && Ok(log, next) && next.eof
    requires if found.Record? then found.t == kFullType && |found.fragment| == n else next.buffer == []
    ensures var x := ReadLogical(crc, true, log, r, false, []).0; x.Some? ==> |x.value| == n
  {
    LogicalStep(crc, true, log, r, false, []);
    if found.BadRecord? {
      NothingMore(crc, log, next);
    }
  }

  lemma OtherLength(crc: Crc, log: Bytes, p: Bytes)
    requires var x := ReadLogical(crc, true, log, Start, false, []).0; x.Some? ==> |x.value| != |p|
    ensures ReadAll(crc, true, log, Start).0 != [p]
  {
    AllIsRest(crc, log, Start);
    var (x, next) := ReadLogical(crc, true, log, Start, false, []);
    if x.Some? {
      Differs(x.value, ReadAll(crc, true, log, next).0, p);
    }
  }

  lemma Differs(v: Bytes, rest: seq<Bytes>, p: Bytes)
    requires |v| != |p|
    ensures [v] + rest != [p]
  {
    assert ([v] + rest)[0] == v;
  }

  lemma NothingMore(crc: Crc, log: Bytes, r: ReaderState)
    requires Ok(log, r) && r.buffer == [] && r.eof
    ensures ReadLogical(crc, true, log, r, false, []).0 == None
  {
    LogicalStep(crc, true, log, r, false, []);
  }
}
