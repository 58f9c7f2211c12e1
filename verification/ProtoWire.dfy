/**
 * Records on the wire: which bytes follow a tag, and which are passed over with an unknown one.
 * pb_encode.c:669-765 and pb_decode.c:275-331.
 */
module ProtoWire {
  import opened Keys
  import opened Coding
  import opened Varint
  import opened ProtoScalars
  import opened ProtoMessages
  import opened ProtoDecoder

  /** A number in groups of seven bits: the last byte is the only one without the top bit. */
  predicate OneVarint(b: Bytes, p: nat, q: nat) {
    p < q <= |b| && b[q - 1] < 128 && forall k :: p <= k < q - 1 ==> b[k] >= 128
  }

  /** A length, and that many bytes. */
  predicate OneString(b: Bytes, p: nat, q: nat) {
    var n := DecodeVarint32(b, p);
    n.Some? && q == n.value.1 + n.value.0 <= |b|
  }

  /** What each wire type announces: a varint, eight bytes, a string or four bytes; there are no others. */
  predicate Payload(wireType: nat, b: Bytes, p: nat, q: nat) {
    match wireType
    case 0 => OneVarint(b, p, q)
    case 1 => q == p + 8 <= |b|
    case 2 => OneString(b, p, q)
    case 5 => q == p + 4 <= |b|
    case _ => false
  }

  lemma {:induction false} VarintSkips(b: Bytes, p: nat, q: nat)
    ensures SkipVarint(b, p) == Some(q) <==> OneVarint(b, p, q)
    decreases |b| - p
  {
    if p < |b| && b[p] >= 128 {
      VarintSkips(b, p + 1, q);
    }
  }

  /** pb_skip_field passes over exactly what the wire type announces. */
  lemma SkipsExactly(wireType: nat, b: Bytes, p: nat, q: nat)
    ensures SkipField(wireType, b, p) == Some(q) <==> Payload(wireType, b, p, q)
  {
    VarintSkips(b, p, q);
  }

  lemma {:induction false} EncodedEnds(v: nat, b: Bytes, p: nat)
    requires HasAt(b, p, Encode(v))
    ensures OneVarint(b, p, p + |Encode(v)|)
    decreases v
  {
    if v < 128 {
      assert b[p + 0] == Encode(v)[0];
    } else {
      var q := HasParts(b, p, [More(v)], Encode(v / 128));
      assert b[p + 0] == [More(v)][0];
      EncodedEnds(v / 128, b, q);
    }
  }

  lemma PrefixedEnds(s: Bytes, b: Bytes, p: nat)
    requires |s| < TWO_32 && HasAt(b, p, Prefixed(s))
    ensures OneString(b, p, p + |Prefixed(s)|)
  {
    var q := HasParts(b, p, Encode(|s|), s);
    Reads32(b, p, |s|);
  }

  lemma ScalarEnds(s: Scalar, n: int, b: Bytes, p: nat)
    requires InRange(s, n) && HasAt(b, p, EncodeScalar(s, n))
    ensures Payload(WireType(Number(s)), b, p, p + |EncodeScalar(s, n)|)
  {
    match s
    case Bool => EncodedEnds(n, b, p);
    case Int(_) => EncodedEnds(Unsigned(n), b, p);
    case UInt(_) => EncodedEnds(n, b, p);
    case SInt(_) => EncodedEnds(ZigZag(n), b, p);
    case Fixed32 =>
    case Fixed64 =>
  }

  /** The bytes of a value are those that its wire type announces. */
  lemma {:induction false} PayloadEnds(k: Kind, v: Value, e: Bytes, b: Bytes, p: nat)
    requires ValueOk(k, v) && EncValue(k, v) == Some(e) && |e| < TWO_32 && HasAt(b, p, e)
    ensures Payload(WireType(k), b, p, p + |e|)
  {
    match k
    case Number(s) => ScalarEnds(s, v.n, b, p);
    case BytesOf(_) => PrefixedEnds(v.b, b, p);
    case StringOf(_) => PrefixedEnds(v.b, b, p);
    case Message(fields) => PrefixedEnds(EncFrom(fields, v.slots, 0).value, b, p);
  }

  /** A tagged value: the tag gives its number and its wire type, and the wire type tells what is behind it. */
  ghost predicate Tells(f: Field, wireType: nat, x: Bytes) {
    exists q :: DecodeVarint32(x, 0) == Some((8 * f.tag + wireType, q)) && Payload(wireType, x, q, |x|)
  }

  /**
   * The low bits of the tag are 5 exactly in front of the four bytes of a fixed-width number, 1 in front of eight, 0 in
   * front of other numbers and 2 in front of everything else.
   */
  lemma {:induction false} TagTells(f: Field, v: Value, x: Bytes)
    requires 0 < f.tag < 0x2000_0000 && ValueOk(f.kind, v) && EncTagged(f, v) == Some(x) && |x| < TWO_32
    ensures Tells(f, if f.kind == Number(Fixed32) then 5 else if f.kind == Number(Fixed64) then 1 else if f.kind.Number? then 0 else 2, x)
  {
    var e := EncValue(f.kind, v).value;
    var q := TagBefore(f.tag, WireType(f.kind), e, x);
    PayloadEnds(f.kind, v, e, x, q);
  }

  lemma TagBefore(tag: nat, wireType: nat, e: Bytes, x: Bytes) returns (q: nat)
    requires tag < 0x2000_0000 && wireType < 8 && x == FieldTag(tag, wireType) + e
    ensures DecodeVarint32(x, 0) == Some((8 * tag + wireType, q)) && HasAt(x, q, e) && q + |e| == |x|
  {
    q := HasParts(x, 0, FieldTag(tag, wireType), e);
    Reads32(x, 0, 8 * tag + wireType);
  }

  /** And 2 in front of a packed array. */
  lemma {:induction false} PackedTells(f: Field, vs: seq<Value>, x: Bytes)
    requires 0 < f.tag < 0x2000_0000 && f.rule.Repeated? && f.kind.Number? && SlotOk(f, Rep(vs)) && vs != []
    requires EncSlot(f, Rep(vs)) == Some(x) && |x| < TWO_32
    ensures Tells(f, 2, x)
  {
    assert forall i :: 0 <= i < |vs| ==> ValueOk(Number(f.kind.scalar), vs[i]);
    var items := Prefixed(EncItems(f.kind.scalar, vs));
    var q := TagBefore(f.tag, WT_STRING, items, x);
    PrefixedEnds(EncItems(f.kind.scalar, vs), x, q);
    assert Payload(2, x, q, |x|);
  }
}
