/**
 * Field descriptor tables, message structures and their encoding: pb.h:150-300 and the format that
 * pb_encode.c:146-236 and 341-426 writes. Static allocation only.
 */
module ProtoMessages {
  import opened Keys
  import opened Sequences
  import opened Coding
  import opened Varint
  import opened ProtoScalars

  datatype Kind = Number(scalar: Scalar) | BytesOf(size: nat) | StringOf(size: nat) | Message(fields: seq<Field>)

  datatype Rule = Required | Optional | Repeated(max: nat)

  datatype Field = Field(tag: nat, kind: Kind, rule: Rule)

  /** A value in the structure; a string is what stands before its terminator. */
  datatype Value = Num(n: int) | Blob(b: Bytes) | Sub(slots: seq<Slot>)

  /** The part of the structure that belongs to a field. */
  datatype Slot = One(v: Value) | Opt(has: bool, v: Value) | Rep(vs: seq<Value>)

  // ---------------------------------------------------------------------
  // What the C types guarantee
  // ---------------------------------------------------------------------

  predicate ValueOk(k: Kind, v: Value)
    decreases v, 0
  {
    match (k, v)
    case (Number(s), Num(n)) => InRange(s, n)
    case (BytesOf(_), Blob(_)) => true
    case (StringOf(size), Blob(b)) => |b| <= size && 0 !in b
    case (Message(fields), Sub(slots)) => SlotsOk(fields, slots)
    case _ => false
  }

  predicate SlotOk(f: Field, s: Slot)
    decreases s, 0
  {
    match (f.rule, s)
    case (Required, One(v)) => ValueOk(f.kind, v)
    case (Optional, Opt(_, v)) => ValueOk(f.kind, v)
    case (Repeated(_), Rep(vs)) => forall i :: 0 <= i < |vs| ==> ValueOk(f.kind, vs[i])
    case _ => false
  }

  predicate SlotsOk(fields: seq<Field>, slots: seq<Slot>)
    decreases slots, 0
  {
    |fields| == |slots| && forall i :: 0 <= i < |slots| ==> SlotOk(fields[i], slots[i])
  }

  // ---------------------------------------------------------------------
  // The encoding
  // ---------------------------------------------------------------------

  function Join(a: Option<Bytes>, b: Option<Bytes>): Option<Bytes> {
    if a.Some? && b.Some? then Some(a.value + b.value) else None
  }

  const WT_VARINT: nat := 0
  const WT_64BIT: nat := 1
  const WT_STRING: nat := 2
  const WT_32BIT: nat := 5

  function WireType(k: Kind): nat {
    match k
    case Number(Fixed32) => WT_32BIT
    case Number(Fixed64) => WT_64BIT
    case Number(_) => WT_VARINT
    case _ => WT_STRING
  }

  function FieldTag(tag: nat, wireType: nat): Bytes {
    Encode(8 * tag + wireType)
  }

  function Prefixed(b: Bytes): Bytes {
    Encode(|b|) + b
  }

  /** A single value, without its tag; None where the encoder reports an error. */
  function EncValue(k: Kind, v: Value): Option<Bytes>
    requires ValueOk(k, v)
    decreases v, 0
  {
    match k
    case Number(s) => Some(EncodeScalar(s, v.n))
    case BytesOf(size) => if |v.b| > size then None else Some(Prefixed(v.b))
    case StringOf(_) => Some(Prefixed(v.b))
    case Message(fields) =>
      var inner := EncFrom(fields, v.slots, 0);
      if inner.None? then None else Some(Prefixed(inner.value))
  }

  function EncTagged(f: Field, v: Value): Option<Bytes>
    requires ValueOk(f.kind, v)
    decreases v, 1
  {
    Join(Some(FieldTag(f.tag, WireType(f.kind))), EncValue(f.kind, v))
  }

  predicate AllNumbers(s: Scalar, vs: seq<Value>) {
    forall i :: 0 <= i < |vs| ==> vs[i].Num? && InRange(s, vs[i].n)
  }

  function ItemCode(s: Scalar): Value -> Bytes {
    (v: Value) => if v.Num? && InRange(s, v.n) then EncodeScalar(s, v.n) else []
  }

  /** The items of a packed array. */
  function EncItems(s: Scalar, vs: seq<Value>): Bytes
    requires AllNumbers(s, vs)
  {
    Flat(Each(ItemCode(s), vs))
  }

  /** The entries from `i` on, each with its tag. */
  function EncEach(f: Field, vs: seq<Value>, i: nat): Option<Bytes>
    requires i <= |vs| && forall j :: 0 <= j < |vs| ==> ValueOk(f.kind, vs[j])
    decreases vs, |vs| - i
  {
    if i == |vs| then Some([]) else Join(EncTagged(f, vs[i]), EncEach(f, vs, i + 1))
  }

  function EncSlot(f: Field, s: Slot): Option<Bytes>
    requires SlotOk(f, s)
    decreases s, 0
  {
    match s
    case One(v) => EncTagged(f, v)
    case Opt(has, v) => if has then EncTagged(f, v) else Some([])
    case Rep(vs) =>
      if vs == [] then Some([])
      else if |vs| > f.rule.max then None
      else if f.kind.Number? then
        assert forall i :: 0 <= i < |vs| ==> ValueOk(Number(f.kind.scalar), vs[i]);
        Some(FieldTag(f.tag, WT_STRING) + Prefixed(EncItems(f.kind.scalar, vs)))
      else EncEach(f, vs, 0)
  }

  /** The fields from `i` on. */
  function EncFrom(fields: seq<Field>, slots: seq<Slot>, i: nat): Option<Bytes>
    requires SlotsOk(fields, slots) && i <= |slots|
    decreases slots, |slots| - i
  {
    if i == |slots| then Some([]) else Join(EncSlot(fields[i], slots[i]), EncFrom(fields, slots, i + 1))
  }

  function Enc(fields: seq<Field>, slots: seq<Slot>): Option<Bytes>
    requires SlotsOk(fields, slots)
  {
    EncFrom(fields, slots, 0)
  }
}
