/** Batches of writes as bytes: db/write_batch.cc:15-148. */
module WriteBatch {
  import opened Keys
  import opened Sequences
  import opened Coding
  import opened Varint

  datatype Operation = PutKey(key: Bytes, value: Bytes) | DeleteKey(key: Bytes)

  const kHeader: nat := 12
  const kTypeDeletion: byte := 0
  const kTypeValue: byte := 1

  function EncodeOp(op: Operation): Bytes {
    match op
    case PutKey(key, value) => [kTypeValue] + (LengthPrefixed(key) + LengthPrefixed(value))
    case DeleteKey(key) => [kTypeDeletion] + LengthPrefixed(key)
  }

  predicate FitsOp(op: Operation) {
    |op.key| < TWO_32 && (op.PutKey? ==> |op.value| < TWO_32)
  }

  function Header(sequence: nat, count: nat): (r: Bytes)
    requires sequence < TWO_64 && count < TWO_32
    ensures |r| == kHeader
  {
    EncodeFixed64(sequence) + EncodeFixed32(count)
  }

  function Body(ops: seq<Operation>): Bytes {
    Flat(Each(EncodeOp, ops))
  }

  /** A batch: the sequence number of its first operation, how many there are, and the operations. */
  function Rep(sequence: nat, ops: seq<Operation>): (r: Bytes)
    requires sequence < TWO_64 && |ops| < TWO_32
    ensures |r| >= kHeader
  {
    Header(sequence, |ops|) + Body(ops)
  }

  function Sequence(rep: Bytes): nat
    requires |rep| >= kHeader
  {
    Load64(rep, 0)
  }

  function Count(rep: Bytes): nat
    requires |rep| >= kHeader
  {
    Load32(rep, 8)
  }

  // ---------------------------------------------------------------------
  // Reading
  // ---------------------------------------------------------------------

  datatype Problem = TooSmall | BadPut | BadDelete | UnknownTag | WrongCount

  /** The operation at position `p` and the position behind it. */
  function ReadOp(b: Bytes, p: nat): (r: (Option<(Operation, nat)>, Problem))
    requires p < |b|
    ensures r.0.Some? ==> p < r.0.value.1 <= |b|
  {
    if b[p] == kTypeValue then
      var k := GetSlice(b, p + 1);
      if k.None? then (None, BadPut)
      else
        var v := GetSlice(b, k.value.1);
        if v.None? then (None, BadPut) else (Some((PutKey(k.value.0, v.value.0), v.value.1)), BadPut)
    else if b[p] == kTypeDeletion then
      var k := GetSlice(b, p + 1);
      if k.None? then (None, BadDelete) else (Some((DeleteKey(k.value.0), k.value.1)), BadDelete)
    else (None, UnknownTag)
  }

  /** The operations from position `p` to the end, or to the first that is malformed. */
  function ReadOps(b: Bytes, p: nat): (r: (seq<Operation>, Option<Problem>))
    decreases |b| - p
  {
    if p >= |b| then ([], None)
    else
      var (x, problem) := ReadOp(b, p);
      if x.None? then ([], Some(problem))
      else
        var rest := ReadOps(b, x.value.1);
        ([x.value.0] + rest.0, rest.1)
  }

  /** What Iterate hands on, and how it ends. */
  function Iterated(rep: Bytes): (seq<Operation>, Option<Problem>) {
    if |rep| < kHeader then ([], Some(TooSmall))
    else
      var (ops, problem) := ReadOps(rep, kHeader);
      if problem.None? && |ops| != Count(rep) then (ops, Some(WrongCount)) else (ops, problem)
  }

  // ---------------------------------------------------------------------
  // The round trip
  // ---------------------------------------------------------------------

  lemma OpReads(b: Bytes, p: nat, op: Operation)
    requires FitsOp(op) && HasAt(b, p, EncodeOp(op))
    ensures p < |b| && ReadOp(b, p).0 == Some((op, p + |EncodeOp(op)|))
  {
    match op
    case PutKey(key, value) =>
      var q := HasParts(b, p, [kTypeValue], LengthPrefixed(key) + LengthPrefixed(value));
      var r := HasParts(b, q, LengthPrefixed(key), LengthPrefixed(value));
      assert b[p + 0] == [kTypeValue][0];
      SliceReads(b, q, key);
      SliceReads(b, r, value);
    case DeleteKey(key) =>
      var q := HasParts(b, p, [kTypeDeletion], LengthPrefixed(key));
      assert b[p + 0] == [kTypeDeletion][0];
      SliceReads(b, q, key);
  }

  lemma {:induction false} OpsRead(b: Bytes, p: nat, ops: seq<Operation>, coded: Bytes)
    requires (forall i :: 0 <= i < |ops| ==> FitsOp(ops[i])) && coded == Body(ops)
    requires p + |coded| == |b| && HasAt(b, p, coded)
    ensures ReadOps(b, p) == (ops, None)
    decreases |ops|
  {
    if ops != [] {
      var next, rest := FirstAndRest(EncodeOp, b, p, ops, coded);
      OpReads(b, p, ops[0]);
      OpsRead(b, next, ops[1..], rest);
      ReadsOn(b, p, ops[0], next, ops[1..]);
      assert [ops[0]] + ops[1..] == ops;
    }
  }

  lemma ReadsOn(b: Bytes, p: nat, op: Operation, next: nat, ops: seq<Operation>)
    requires p < |b| && ReadOp(b, p).0 == Some((op, next)) && ReadOps(b, next) == (ops, None)
    ensures ReadOps(b, p) == ([op] + ops, None)
  {
  }

  lemma HeaderReads(rep: Bytes, sequence: nat, count: nat)
    requires sequence < TWO_64 && count < TWO_32 && HasAt(rep, 0, Header(sequence, count))
    ensures |rep| >= kHeader && Sequence(rep) == sequence && Count(rep) == count
  {
    var p := HasParts(rep, 0, EncodeFixed64(sequence), EncodeFixed32(count));
    Fixed64Read(rep, 0, sequence);
    Fixed32Read(rep, p, count);
  }

  /** A batch gives back its sequence number and its operations, in order. */
  lemma BatchRoundTrip(sequence: nat, ops: seq<Operation>)
    requires sequence < TWO_64 && |ops| < TWO_32 && forall i :: 0 <= i < |ops| ==> FitsOp(ops[i])
    ensures Iterated(Rep(sequence, ops)) == (ops, None) && Sequence(Rep(sequence, ops)) == sequence
  {
    var rep := Rep(sequence, ops);
    var p := HasParts(rep, 0, Header(sequence, |ops|), Body(ops));
    HeaderReads(rep, sequence, |ops|);
    OpsRead(rep, p, ops, Body(ops));
  }

  // ---------------------------------------------------------------------
  // The batch object
  // ---------------------------------------------------------------------

  /** Appending to a batch: a new count in the header, more bytes behind the rest. */
  lemma MoreOps(sequence: nat, ops: seq<Operation>, more: seq<Operation>)
    requires sequence < TWO_64 && |ops| + |more| < TWO_32
    ensures Header(sequence, |ops| + |more|) + (Rep(sequence, ops)[kHeader..] + Body(more)) == Rep(sequence, ops + more)
  {
    EachConcat(EncodeOp, ops, more);
    assert Rep(sequence, ops)[kHeader..] == Body(ops);
  }

  lemma OneOp(op: Operation)
    ensures Body([op]) == EncodeOp(op)
  {
    var pieces := Each(EncodeOp, [op]);
    assert pieces[..0] == [] && pieces == [EncodeOp(op)];
    assert Flat(pieces) == Flat(pieces[..0]) + pieces[0];
  }

  class WriteBatch {
    var rep: Bytes
    /** What the bytes stand for. */
    ghost var sequence: nat
    ghost var ops: seq<Operation>

    ghost predicate Valid()
      reads this
    {
      sequence < TWO_64 && |ops| < TWO_32 && rep == Rep(sequence, ops) && forall i :: 0 <= i < |ops| ==> FitsOp(ops[i])
    }

    constructor ()
      ensures Valid() && ops == [] && sequence == 0
    {
      rep, sequence, ops := seq(kHeader, _ => 0), 0, [];
      assert Header(0, 0) + Body([]) == seq(kHeader, _ => 0);
    }

    /** The new count, and the encoding of the new operations at the end. */
    method AddEncoded(ghost more: seq<Operation>, n: nat, coded: Bytes)
      requires Valid() && n == |more| && |ops| + n < TWO_32 && coded == Body(more)
      requires forall i :: 0 <= i < |more| ==> FitsOp(more[i])
      modifies this
      ensures Valid() && ops == old(ops) + more && sequence == old(sequence)
    {
      ghost var p := HasParts(rep, 0, Header(sequence, |ops|), Body(ops));
      HeaderReads(rep, sequence, |ops|);
      MoreOps(sequence, ops, more);
      SetCount(Count(rep) + n);
      rep := rep + coded;
      ops := ops + more;
    }

    method SetCount(n: nat)
      requires Valid() && n < TWO_32
      modifies this`rep
      ensures rep == Header(sequence, n) + old(rep)[kHeader..]
    {
      rep := rep[..8] + EncodeFixed32(n) + rep[kHeader..];
    }

    method Put(key: Bytes, value: Bytes)
      requires Valid() && |ops| + 1 < TWO_32 && |key| < TWO_32 && |value| < TWO_32
      modifies this
      ensures Valid() && ops == old(ops) + [PutKey(key, value)] && sequence == old(sequence)
    {
      OneOp(PutKey(key, value));
      AddEncoded([PutKey(key, value)], 1, [kTypeValue] + (LengthPrefixed(key) + LengthPrefixed(value)));
    }

    method Delete(key: Bytes)
      requires Valid() && |ops| + 1 < TWO_32 && |key| < TWO_32
      modifies this
      ensures Valid() && ops == old(ops) + [DeleteKey(key)] && sequence == old(sequence)
    {
      OneOp(DeleteKey(key));
      AddEncoded([DeleteKey(key)], 1, [kTypeDeletion] + LengthPrefixed(key));
    }

    /** The operations of the other batch behind those of this one. */
    method Append(source: WriteBatch)
      requires Valid() && source.Valid() && |ops| + |source.ops| < TWO_32
      modifies this
      ensures Valid() && ops == old(ops) + old(source.ops) && sequence == old(sequence)
    {
      HeaderReads(source.rep, source.sequence, |source.ops|);
      AddEncoded(source.ops, Count(source.rep), source.rep[kHeader..]);
    }

    method SetSequence(n: nat)
      requires Valid() && n < TWO_64
      modifies this
      ensures Valid() && ops == old(ops) && sequence == n
    {
      rep := EncodeFixed64(n) + rep[8..];
      assert rep == Header(n, |ops|) + Body(ops);
      sequence := n;
    }
  }
}
