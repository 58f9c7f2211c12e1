/**
 * What arbitrary bytes can give: a reader that verifies checksums returns only records whose fragments stand in the
 * file as a writer would have written them. db/log_reader.cc:56-174 and 189-271.
 */
module LogChecks {
  import opened Keys
  import opened Coding
  import opened Varint
  import opened LogFormat
  import opened LogReader
  import LogRecovery

  // ---------------------------------------------------------------------
  // One physical record
  // ---------------------------------------------------------------------

  /** Header bytes with a right checksum are those of the writer. */
  lemma HeaderIsWritten(crc: Crc, b: Bytes, t: byte, f: Bytes)
    requires |b| == kHeaderSize + |f| && |f| <= 0xffff && f == b[kHeaderSize..] && t == b[6]
    requires |f| == b[4] as nat + 256 * b[5] as nat && Unmask(DecodeFixed32(b)) == Checksum(crc, t, f)
    ensures b == Physical(crc, t, f)
  {
    var sum := b[..4];
    assert DecodeFixed32(sum) == DecodeFixed32(b);
    MaskUnmask(DecodeFixed32(sum));
    Fixed32Encodes(sum);
    TwoDigits(b[4], b[5]);
    HeaderParts(b);
  }

  lemma TwoDigits(x: byte, y: byte)
    ensures var n := x as nat + 256 * y as nat; Low(n) == x && Low(n / 256) == y
  {
    assert (x as nat + 256 * y as nat) / 256 == y as nat;
  }

  lemma HeaderParts(b: Bytes)
    requires |b| >= kHeaderSize
    ensures b == b[..4] + [b[4], b[5], b[6]] + b[kHeaderSize..]
  {
  }

  /** The checksum in a header is that of all bytes from the type on. */
  lemma ChecksumCovers(crc: Crc, t: byte, f: Bytes)
    requires |f| <= 0xffff
    ensures var b := Physical(crc, t, f); Unmask(DecodeFixed32(b)) == crc(b[6..]) % TWO_32
  {
    var b := Physical(crc, t, f);
    LogRecovery.PhysicalParts(crc, t, f, b);
    LogRecovery.ChecksumBack(crc, t, f, b);
    assert b[6..] == [b[6]] + b[kHeaderSize..];
  }

  /** A record is found exactly where its bytes stand, checksum included; zeros are no record. */
  lemma ParsesExactly(crc: Crc, r: ReaderState, t: byte, f: Bytes)
    requires |r.buffer| >= kHeaderSize
    ensures ParseRecord(crc, true, r).0 == Record(t, f) <==> |f| <= 0xffff && Physical(crc, t, f) <= r.buffer && (t != 0 || f != [])
  {
    var length := r.buffer[4] as nat + 256 * r.buffer[5] as nat;
    if |f| <= 0xffff && Physical(crc, t, f) <= r.buffer {
      PhysicalPrefix(crc, t, f, r.buffer);
    } else if kHeaderSize + length <= |r.buffer| && ParseRecord(crc, true, r).0 == Record(t, f) {
      var b := r.buffer[..kHeaderSize + length];
      assert b[kHeaderSize..] == r.buffer[kHeaderSize..kHeaderSize + length];
      HeaderIsWritten(crc, b, t, f);
    }
  }

  lemma PhysicalPrefix(crc: Crc, t: byte, f: Bytes, buffer: Bytes)
    requires |f| <= 0xffff && Physical(crc, t, f) <= buffer
    ensures |buffer| >= kHeaderSize + |f| && buffer[4] as nat + 256 * buffer[5] as nat == |f| && buffer[6] == t
    ensures buffer[kHeaderSize..kHeaderSize + |f|] == f && Unmask(DecodeFixed32(buffer)) == Checksum(crc, t, f)
  {
    var b := Physical(crc, t, f);
    LogRecovery.PhysicalParts(crc, t, f, b);
    assert buffer[..|b|] == b;
    assert buffer[..4] == b[..4];
    LogRecovery.ChecksumBack(crc, t, f, buffer);
  }

  /** A physical record stands in the file between two positions. */
  ghost predicate Stands(crc: Crc, file: Bytes, from: nat, to: nat, t: byte, f: Bytes) {
    |f| <= 0xffff && exists p :: from <= p && p + kHeaderSize + |f| <= to && HasAt(file, p, Physical(crc, t, f))
  }

  lemma {:induction false} FoundStands(crc: Crc, file: Bytes, r: ReaderState)
    requires Ok(file, r)
    ensures var (found, next) := ReadPhysical(crc, true, file, r);
      && Position(r) <= Position(next)
      && (found.Record? ==> Stands(crc, file, Position(r), Position(next), found.t, found.fragment))
    decreases if |r.buffer| >= kHeaderSize then 0 else if r.eof then 1 else 2
  {
    if |r.buffer| >= kHeaderSize {
      var (found, next) := ReadPhysical(crc, true, file, r);
      if found.Record? {
        ParsesExactly(crc, r, found.t, found.fragment);
        PrefixStands(file, Position(r), r.buffer, Physical(crc, found.t, found.fragment));
      }
    } else if !r.eof {
      FoundStands(crc, file, Refill(file, r));
    }
  }

  lemma PrefixStands(file: Bytes, p: nat, buffer: Bytes, b: Bytes)
    requires b <= buffer && p + |buffer| <= |file| && buffer == file[p..p + |buffer|]
    ensures HasAt(file, p, b)
  {
  }

  // ---------------------------------------------------------------------
  // Records
  // ---------------------------------------------------------------------

  /** The first fragments of a record, one behind the other before `to`. */
  ghost predicate Begun(crc: Crc, file: Bytes, to: nat, s: Bytes, count: nat)
    decreases count
  {
    count > 0 && exists p: nat, n: nat :: p <= to && n <= |s| && BegunAt(crc, file, to, s, count, p, n)
  }

  ghost predicate BegunAt(crc: Crc, file: Bytes, to: nat, s: Bytes, count: nat, p: nat, n: nat)
    requires count > 0 && n <= |s|
    decreases count, 0
  {
    && Stands(crc, file, p, to, if count == 1 then kFirstType else kMiddleType, s[n..])
    && if count == 1 then n == 0 else Begun(crc, file, p, s[..n], count - 1)
  }

  /** All fragments of a record: one of type full, or a first, middle ones and a last. */
  ghost predicate Written(crc: Crc, file: Bytes, to: nat, record: Bytes) {
    || Stands(crc, file, 0, to, kFullType, record)
    || exists p: nat, n: nat, count: nat :: n <= |record| && WrittenAt(crc, file, to, record, p, n, count)
  }

  ghost predicate WrittenAt(crc: Crc, file: Bytes, to: nat, record: Bytes, p: nat, n: nat, count: nat)
    requires n <= |record|
  {
    Stands(crc, file, p, to, kLastType, record[n..]) && Begun(crc, file, p, record[..n], count)
  }

  /** What has been gathered stands in the file. */
  ghost predicate Gathering(crc: Crc, file: Bytes, to: nat, within: bool, s: Bytes) {
    within ==> exists count: nat :: Begun(crc, file, to, s, count)
  }

  lemma {:induction false} BegunLater(crc: Crc, file: Bytes, to: nat, later: nat, s: Bytes, count: nat)
    requires Begun(crc, file, to, s, count) && to <= later
    ensures Begun(crc, file, later, s, count)
  {
    var p: nat, n: nat :| p <= to && n <= |s| && BegunAt(crc, file, to, s, count, p, n);
    assert BegunAt(crc, file, later, s, count, p, n);
  }

  lemma FirstBegins(crc: Crc, file: Bytes, from: nat, to: nat, f: Bytes)
    requires Stands(crc, file, from, to, kFirstType, f) && from <= to
    ensures Begun(crc, file, to, f, 1)
  {
    assert f[0..] == f;
    assert BegunAt(crc, file, to, f, 1, from, 0);
  }

  lemma MiddleGoesOn(crc: Crc, file: Bytes, from: nat, to: nat, s: Bytes, f: Bytes, count: nat)
    requires Begun(crc, file, from, s, count) && Stands(crc, file, from, to, kMiddleType, f) && from <= to
    ensures Begun(crc, file, to, s + f, count + 1)
  {
    assert (s + f)[|s|..] == f && (s + f)[..|s|] == s;
    assert BegunAt(crc, file, to, s + f, count + 1, from, |s|);
  }

  lemma LastEnds(crc: Crc, file: Bytes, from: nat, to: nat, s: Bytes, f: Bytes, count: nat)
    requires Begun(crc, file, from, s, count) && Stands(crc, file, from, to, kLastType, f)
    ensures Written(crc, file, to, s + f)
  {
    assert (s + f)[|s|..] == f && (s + f)[..|s|] == s;
    assert WrittenAt(crc, file, to, s + f, from, |s|, count);
  }

  /** A fragment taken up keeps what has been gathered in the file, and a record that it completes was written. */
  lemma TakesWritten(crc: Crc, file: Bytes, from: nat, to: nat, found: Found, within: bool, s: Bytes)
    requires Gathering(crc, file, from, within, s) && from <= to
    requires found.Record? ==> Stands(crc, file, from, to, found.t, found.fragment)
    ensures match Assemble(found, within, s)
      case More(i, more, _) => Gathering(crc, file, to, i, more)
      case Done(record, _) => record.Some? ==> Written(crc, file, to, record.value)
  {
    if found.Record? {
      var f := found.fragment;
      if found.t == kFirstType {
        FirstBegins(crc, file, from, to, f);
      } else if within && (found.t == kMiddleType || found.t == kLastType) {
        var count: nat :| Begun(crc, file, from, s, count);
        if found.t == kMiddleType {
          MiddleGoesOn(crc, file, from, to, s, f, count);
        } else {
          LastEnds(crc, file, from, to, s, f, count);
        }
      } else if found.t == kFullType {
        assert exists p :: from <= p && p + kHeaderSize + |f| <= to && HasAt(file, p, Physical(crc, found.t, f));
      }
    }
  }

  lemma StepIsWritten(crc: Crc, file: Bytes, r: ReaderState, within: bool, s: Bytes)
    requires Ok(file, r) && Gathering(crc, file, Position(r), within, s)
    ensures var (found, next) := ReadPhysical(crc, true, file, r);
      match Assemble(found, within, s)
      case More(i, more, _) => Gathering(crc, file, Position(next), i, more)
      case Done(record, _) => record.Some? ==> Written(crc, file, Position(next), record.value)
  {
    FoundStands(crc, file, r);
    var (found, next) := ReadPhysical(crc, true, file, r);
    TakesWritten(crc, file, Position(r), Position(next), found, within, s);
  }

  ghost predicate GivesWritten(crc: Crc, file: Bytes, x: (Option<Bytes>, ReaderState))
    requires Ok(file, x.1)
  {
    x.0.Some? ==> Written(crc, file, Position(x.1), x.0.value)
  }

  lemma {:induction false} LogicalIsWritten(crc: Crc, file: Bytes, r: ReaderState, within: bool, s: Bytes)
    requires Ok(file, r) && Gathering(crc, file, Position(r), within, s)
    ensures GivesWritten(crc, file, ReadLogical(crc, true, file, r, within, s))
    decreases |file| - Position(r)
  {
    StepIsWritten(crc, file, r, within, s);
    var (found, next) := ReadPhysical(crc, true, file, r);
    var step := Assemble(found, within, s);
    assert Ok(file, next);
    if step.More? {
      var more := GoesOn(crc, file, r, within, s, found, next, step);
      LogicalIsWritten(crc, file, more, step.inFragmented, step.scratch);
    } else {
      Ends(crc, file, r, within, s, found, next, step);
    }
  }

  lemma GoesOn(crc: Crc, file: Bytes, r: ReaderState, within: bool, s: Bytes, found: Found, next: ReaderState, step: Outcome)
      returns (more: ReaderState)
    requires Ok(file, r) && ReadPhysical(crc, true, file, r) == (found, next) && Assemble(found, within, s) == step && step.More?
    requires Ok(file, next) && Gathering(crc, file, Position(next), step.inFragmented, step.scratch)
    ensures more == Noted(next, step.report) && Ok(file, more) && Position(more) > Position(r)
    ensures Gathering(crc, file, Position(more), step.inFragmented, step.scratch)
    ensures ReadLogical(crc, true, file, r, within, s) == ReadLogical(crc, true, file, more, step.inFragmented, step.scratch)
  {
    LogicalStep(crc, true, file, r, within, s);
    more := Noted(next, step.report);
    SamePlace(next, step.report);
    SameGathering(crc, file, Position(next), Position(more), step.inFragmented, step.scratch);
  }

  lemma SameGathering(crc: Crc, file: Bytes, a: int, b: int, within: bool, s: Bytes)
    requires a == b >= 0 && Gathering(crc, file, a, within, s)
    ensures Gathering(crc, file, b, within, s)
  {
  }

  lemma Ends(crc: Crc, file: Bytes, r: ReaderState, within: bool, s: Bytes, found: Found, next: ReaderState, step: Outcome)
    requires Ok(file, r) && ReadPhysical(crc, true, file, r) == (found, next) && Assemble(found, within, s) == step && step.Done?
    requires step.record.Some? ==> Written(crc, file, Position(next), step.record.value)
    ensures GivesWritten(crc, file, ReadLogical(crc, true, file, r, within, s))
  {
    LogicalStep(crc, true, file, r, within, s);
    SamePlace(next, step.report);
    PlaceGives(crc, file, step.record, Noted(next, step.report), Position(next));
  }

  lemma SamePlace(r: ReaderState, report: bool)
    ensures Position(Noted(r, report)) == Position(r)
  {
  }

  lemma PlaceGives(crc: Crc, file: Bytes, record: Option<Bytes>, r: ReaderState, to: int)
    requires Ok(file, r) && Position(r) == to && (record.Some? ==> Written(crc, file, to, record.value))
    ensures GivesWritten(crc, file, (record, r))
  {
  }

  /** Whatever the bytes, each record that is read was written there with its checksum. */
  lemma {:induction false} AllAreWritten(crc: Crc, file: Bytes, r: ReaderState)
    requires Ok(file, r)
    ensures forall record :: record in ReadAll(crc, true, file, r).0 ==> exists to: nat :: Written(crc, file, to, record)
    decreases |file| - Position(r)
  {
    LogicalIsWritten(crc, file, r, false, []);
    var (x, next) := ReadLogical(crc, true, file, r, false, []);
    if x.Some? {
      assert Written(crc, file, Position(next), x.value);
      AllAreWritten(crc, file, next);
    }
  }
}
