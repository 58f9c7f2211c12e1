/** The log reader, started at the beginning of a file: db/log_reader.cc:56-174 and 189-271. */
module LogReader {
  import opened Keys
  import opened Coding
  import opened LogFormat

  /** What ReadPhysicalRecord finds: a record of some type, the end of the file, or a bad record. */
  datatype Found = Record(t: byte, fragment: Bytes) | Eof | BadRecord

  /** The buffer ends at file offset `endOfBuffer`; `reports` counts reported corruptions. */
  datatype ReaderState = ReaderState(buffer: Bytes, eof: bool, endOfBuffer: nat, reports: nat)

  const Start: ReaderState := ReaderState([], false, 0, 0)

  function Position(r: ReaderState): int {
    r.endOfBuffer - |r.buffer|
  }

  /** The buffer holds the file bytes before its end. */
  predicate Ok(file: Bytes, r: ReaderState) {
    && |r.buffer| <= r.endOfBuffer <= |file|
    && r.buffer == file[r.endOfBuffer - |r.buffer|..r.endOfBuffer]
  }

  function Min(a: nat, b: nat): nat {
    if a < b then a else b
  }

  function Noted(r: ReaderState, report: bool): ReaderState {
    if report then r.(reports := r.reports + 1) else r
  }

  /** Reads the next block; a short read is the end of the file. */
  function Refill(file: Bytes, r: ReaderState): (next: ReaderState)
    requires Ok(file, r)
    ensures Ok(file, next) && Position(next) == r.endOfBuffer
  {
    var n := Min(kBlockSize, |file| - r.endOfBuffer);
    ReaderState(file[r.endOfBuffer..r.endOfBuffer + n], n < kBlockSize, r.endOfBuffer + n, r.reports)
  }

  /** One record out of a buffer that holds at least a header. */
  function ParseRecord(crc: Crc, checksum: bool, r: ReaderState): (Found, ReaderState)
    requires |r.buffer| >= kHeaderSize
  {
    var length := r.buffer[4] as nat + 256 * r.buffer[5] as nat;
    var t := r.buffer[6];
    if kHeaderSize + length > |r.buffer| then
      if !r.eof then (BadRecord, Noted(r, true).(buffer := [])) else (Eof, r.(buffer := []))
    else if t == 0 && length == 0 then (BadRecord, r.(buffer := []))
    else if checksum && Unmask(DecodeFixed32(r.buffer)) != Checksum(crc, t, r.buffer[kHeaderSize..kHeaderSize + length]) then
      (BadRecord, Noted(r, true).(buffer := []))
    else (Record(t, r.buffer[kHeaderSize..kHeaderSize + length]), r.(buffer := r.buffer[kHeaderSize + length..]))
  }

  /** The next physical record, reading blocks as long as the buffer cannot hold a header. */
  function ReadPhysical(crc: Crc, checksum: bool, file: Bytes, r: ReaderState): (x: (Found, ReaderState))
    requires Ok(file, r)
    ensures Ok(file, x.1)
    ensures !x.0.Eof? ==> Position(x.1) > Position(r)
    decreases if |r.buffer| >= kHeaderSize then 0 else if r.eof then 1 else 2
  {
    if |r.buffer| >= kHeaderSize then ParseRecord(crc, checksum, r)
    else if !r.eof then ReadPhysical(crc, checksum, file, Refill(file, r))
    else (Eof, r.(buffer := []))
  }

  /** How a logical record goes on after a physical one, and whether a corruption is reported. */
  datatype Outcome = More(inFragmented: bool, scratch: Bytes, report: bool) | Done(record: Option<Bytes>, report: bool)

  function Assemble(found: Found, inFragmented: bool, scratch: Bytes): Outcome {
    match found
    case Record(t, fragment) =>
      if t == kFullType then Done(Some(fragment), inFragmented && scratch != [])
      else if t == kFirstType then More(true, fragment, inFragmented && scratch != [])
      else if t == kMiddleType then
        if !inFragmented then More(false, scratch, true) else More(true, scratch + fragment, false)
      else if t == kLastType then
        if !inFragmented then More(false, scratch, true) else Done(Some(scratch + fragment), false)
      else More(false, [], true)
    case Eof => Done(None, false)
    case BadRecord => if inFragmented then More(false, [], true) else More(false, scratch, false)
  }

  /** A logical record put together from its fragments; None at the end of the file. */
  function ReadLogical(crc: Crc, checksum: bool, file: Bytes, r: ReaderState, inFragmented: bool, scratch: Bytes)
      : (x: (Option<Bytes>, ReaderState))
    requires Ok(file, r)
    ensures Ok(file, x.1)
    ensures x.0.Some? ==> Position(x.1) > Position(r)
    decreases |file| - Position(r)
  {
    var (found, next) := ReadPhysical(crc, checksum, file, r);
    match Assemble(found, inFragmented, scratch)
    case More(within, gathered, report) => ReadLogical(crc, checksum, file, Noted(next, report), within, gathered)
    case Done(record, report) => (record, Noted(next, report))
  }

  /** One turn of the loop over physical records. */
  lemma {:induction false} LogicalStep(crc: Crc, checksum: bool, file: Bytes, r: ReaderState, within: bool, gathered: Bytes)
    requires Ok(file, r)
    ensures var (found, next) := ReadPhysical(crc, checksum, file, r);
      match Assemble(found, within, gathered)
      case More(i, s, report) =>
        Position(Noted(next, report)) > Position(r) && Ok(file, Noted(next, report)) &&
        ReadLogical(crc, checksum, file, r, within, gathered) == ReadLogical(crc, checksum, file, Noted(next, report), i, s)
      case Done(record, report) =>
        ReadLogical(crc, checksum, file, r, within, gathered) == (record, Noted(next, report))
  {
  }

  /** All records up to the end of the file, and the corruptions reported on the way. */
  function ReadAll(crc: Crc, checksum: bool, file: Bytes, r: ReaderState): (seq<Bytes>, nat)
    requires Ok(file, r)
    decreases |file| - Position(r)
  {
    var (x, next) := ReadLogical(crc, checksum, file, r, false, []);
    if x.None? then ([], next.reports)
    else
      var rest := ReadAll(crc, checksum, file, next);
      ([x.value] + rest.0, rest.1)
  }

  // ---------------------------------------------------------------------
  // Reading to the end, one record after another
  // ---------------------------------------------------------------------

  lemma {:induction false} PhysicalReportsGrow(crc: Crc, checksum: bool, file: Bytes, r: ReaderState)
    requires Ok(file, r)
    ensures ReadPhysical(crc, checksum, file, r).1.reports >= r.reports
    decreases if |r.buffer| >= kHeaderSize then 0 else if r.eof then 1 else 2
  {
    if |r.buffer| < kHeaderSize && !r.eof {
      PhysicalReportsGrow(crc, checksum, file, Refill(file, r));
    }
  }

  lemma {:induction false} LogicalReportsGrow(crc: Crc, checksum: bool, file: Bytes, r: ReaderState, within: bool, gathered: Bytes)
    requires Ok(file, r)
    ensures ReadLogical(crc, checksum, file, r, within, gathered).1.reports >= r.reports
    decreases |file| - Position(r)
  {
    PhysicalReportsGrow(crc, checksum, file, r);
    LogicalStep(crc, checksum, file, r, within, gathered);
    var (found, next) := ReadPhysical(crc, checksum, file, r);
    match Assemble(found, within, gathered)
    case More(i, s, report) => LogicalReportsGrow(crc, checksum, file, Noted(next, report), i, s);
    case Done(_, _) =>
  }

  lemma {:induction false} ReportsGrow(crc: Crc, checksum: bool, file: Bytes, r: ReaderState)
    requires Ok(file, r)
    ensures ReadAll(crc, checksum, file, r).1 >= r.reports
    decreases |file| - Position(r)
  {
    LogicalReportsGrow(crc, checksum, file, r, false, []);
    var (x, next) := ReadLogical(crc, checksum, file, r, false, []);
    if x.Some? { ReportsGrow(crc, checksum, file, next); }
  }

  /** What is still to come, once a record has been read. */
  function Rest(crc: Crc, file: Bytes, record: Option<Bytes>, r: ReaderState): (seq<Bytes>, nat)
    requires Ok(file, r)
  {
    if record.None? then ([], r.reports)
    else
      var rest := ReadAll(crc, true, file, r);
      ([record.value] + rest.0, rest.1)
  }

  /** `done` and what is still to come are all the records of the file. */
  predicate AmongAll(crc: Crc, file: Bytes, from: ReaderState, done: seq<Bytes>, record: Option<Bytes>, r: ReaderState)
    requires Ok(file, from)
  {
    Ok(file, r) &&
    ReadAll(crc, true, file, from) == (done + Rest(crc, file, record, r).0, Rest(crc, file, record, r).1)
  }

  lemma {:induction false} AllIsRest(crc: Crc, file: Bytes, r: ReaderState)
    requires Ok(file, r)
    ensures var (x, next) := ReadLogical(crc, true, file, r, false, []); ReadAll(crc, true, file, r) == Rest(crc, file, x, next)
  {
  }

  lemma {:induction false} FirstRemains(crc: Crc, file: Bytes, r: ReaderState)
    requires Ok(file, r)
    ensures var (x, next) := ReadLogical(crc, true, file, r, false, []); AmongAll(crc, file, r, [], x, next)
  {
    AllIsRest(crc, file, r);
    var (x, next) := ReadLogical(crc, true, file, r, false, []);
    assert [] + Rest(crc, file, x, next).0 == Rest(crc, file, x, next).0;
  }

  lemma {:induction false} NextRemains(crc: Crc, file: Bytes, from: ReaderState, done: seq<Bytes>, record: Bytes, r: ReaderState)
    requires Ok(file, from) && AmongAll(crc, file, from, done, Some(record), r)
    ensures var (x, next) := ReadLogical(crc, true, file, r, false, []); AmongAll(crc, file, from, done + [record], x, next)
  {
    AllIsRest(crc, file, r);
    var (x, next) := ReadLogical(crc, true, file, r, false, []);
    var rest := Rest(crc, file, x, next).0;
    assert done + ([record] + rest) == (done + [record]) + rest;
  }

  // ---------------------------------------------------------------------
  // The reader as the code runs it
  // ---------------------------------------------------------------------

  class Reader {
    const crc: Crc
    const checksum: bool
    const file: Bytes
    var buffer: Bytes
    var eof: bool
    var endOfBuffer: nat
    var reports: nat

    constructor (crc: Crc, checksum: bool, file: Bytes)
      ensures Abs() == Start && Ok(file, Abs())
      ensures this.crc == crc && this.checksum == checksum && this.file == file
    {
      this.crc, this.checksum, this.file := crc, checksum, file;
      buffer, eof, endOfBuffer, reports := [], false, 0, 0;
    }

    function Abs(): ReaderState
      reads this
    {
      ReaderState(buffer, eof, endOfBuffer, reports)
    }

    /** Reads blocks until the buffer holds a header, then takes one record out of it. */
    method ReadPhysicalRecord() returns (found: Found)
      requires Ok(file, Abs())
      modifies this
      ensures Ok(file, Abs()) && (found, Abs()) == ReadPhysical(crc, checksum, file, old(Abs()))
    {
      ghost var goal := ReadPhysical(crc, checksum, file, Abs());
      while |buffer| < kHeaderSize
        invariant Ok(file, Abs()) && goal == ReadPhysical(crc, checksum, file, Abs())
        decreases if |buffer| >= kHeaderSize then 0 else if eof then 1 else 2
      {
        if !eof {
          ReadBlock();
        } else {
          buffer := [];
          return Eof;
        }
      }
      found := ParseHeader();
    }

    method ReadBlock()
      requires Ok(file, Abs())
      modifies this
      ensures Abs() == Refill(file, old(Abs()))
    {
      var n := Min(kBlockSize, |file| - endOfBuffer);
      buffer := file[endOfBuffer..endOfBuffer + n];
      endOfBuffer := endOfBuffer + n;
      eof := n < kBlockSize;
    }

    method ParseHeader() returns (found: Found)
      requires |buffer| >= kHeaderSize
      modifies this
      ensures (found, Abs()) == ParseRecord(crc, checksum, old(Abs()))
    {
      var header := buffer;
      var length := header[4] as nat + 256 * header[5] as nat;
      var t := header[6];
      if kHeaderSize + length > |buffer| {
        buffer := [];
        if !eof {
          reports := reports + 1;
          return BadRecord;
        }
        return Eof;
      }
      if t == 0 && length == 0 {
        buffer := [];
        return BadRecord;
      }
      if checksum {
        var expected := Unmask(DecodeFixed32(header));
        var actual := Checksum(crc, t, header[kHeaderSize..kHeaderSize + length]);
        if actual != expected {
          buffer := [];
          reports := reports + 1;
          return BadRecord;
        }
      }
      buffer := buffer[kHeaderSize + length..];
      return Record(t, header[kHeaderSize..kHeaderSize + length]);
    }

    method ReadRecord() returns (record: Option<Bytes>)
      requires Ok(file, Abs())
      modifies this
      ensures Ok(file, Abs()) && (record, Abs()) == ReadLogical(crc, checksum, file, old(Abs()), false, [])
    {
      ghost var goal := ReadLogical(crc, checksum, file, Abs(), false, []);
      var scratch: Bytes := [];
      var inFragmented := false;
      while true
        invariant Ok(file, Abs()) && goal == ReadLogical(crc, checksum, file, Abs(), inFragmented, scratch)
        decreases |file| - Position(Abs())
      {
        LogicalStep(crc, checksum, file, Abs(), inFragmented, scratch);
        var found := ReadPhysicalRecord();
        var done;
        done, record, inFragmented, scratch := TakeFragment(found, inFragmented, scratch);
        if done {
          return;
        }
      }
    }

    /** Adds a fragment to the logical record being put together. */
    method TakeFragment(found: Found, within: bool, gathered: Bytes)
      returns (done: bool, record: Option<Bytes>, inFragmented: bool, scratch: Bytes)
      modifies this`reports
      ensures match Assemble(found, within, gathered) {
        case More(i, s, report) => !done && inFragmented == i && scratch == s && Abs() == Noted(old(Abs()), report)
        case Done(x, report) => done && record == x && Abs() == Noted(old(Abs()), report)
      }
    {
      done, record, inFragmented, scratch := false, None, within, gathered;
      match found {
        case Record(t, fragment) =>
          if t == kFullType {
            if inFragmented && scratch != [] {
              reports := reports + 1;
            }
            done, record := true, Some(fragment);
          } else if t == kFirstType {
            if inFragmented && scratch != [] {
              reports := reports + 1;
            }
            scratch, inFragmented := fragment, true;
          } else if t == kMiddleType {
            if !inFragmented {
              reports := reports + 1;
            } else {
              scratch := scratch + fragment;
            }
          } else if t == kLastType {
            if !inFragmented {
              reports := reports + 1;
            } else {
              scratch := scratch + fragment;
              done, record := true, Some(scratch);
            }
          } else {
            reports := reports + 1;
            inFragmented, scratch := false, [];
          }
        case Eof =>
          done := true;
        case BadRecord =>
          if inFragmented {
            reports := reports + 1;
            inFragmented, scratch := false, [];
          }
      }
    }
  }
}
