/**
 * What the decoder makes of bytes that another encoder may have written: pb_decode.c:187-275, 375-483, 1033-1073,
 * 1279-1439 and 1441-1517.
 */
module ProtoLimits {
  import opened Keys
  import opened Coding
  import opened Varint
  import opened ProtoScalars
  import opened ProtoMessages
  import opened ProtoDecoder

  // ---------------------------------------------------------------------
  // Room in the structure
  // ---------------------------------------------------------------------

  /** The value lies in its array: a string with its terminator, bytes within their size. */
  predicate ValueFits(k: Kind, v: Value)
    requires ValueOk(k, v)
    decreases v, 0
  {
    match k
    case BytesOf(size) => |v.b| <= size
    case StringOf(size) => v.b == [] || |v.b| < size
    case Message(fields) => SlotsFit(fields, v.slots)
    case _ => true
  }

  predicate SlotFits(f: Field, s: Slot)
    requires SlotOk(f, s)
    decreases s, 0
  {
    match s
    case One(v) => ValueFits(f.kind, v)
    case Opt(_, v) => ValueFits(f.kind, v)
    case Rep(vs) => |vs| <= f.rule.max && forall i :: 0 <= i < |vs| ==> ValueFits(f.kind, vs[i])
  }

  predicate SlotsFit(fields: seq<Field>, slots: seq<Slot>)
    requires SlotsOk(fields, slots)
    decreases slots, 0
  {
    forall i :: 0 <= i < |slots| ==> SlotFits(fields[i], slots[i])
  }

  lemma {:induction false} DefaultsFit(fields: seq<Field>)
    ensures SlotsFit(fields, Defaults(fields))
    decreases fields
  {
    forall i | 0 <= i < |fields| ensures SlotFits(fields[i], Defaults(fields)[i]) {
      DefaultSlotFits(fields[i]);
    }
  }

  lemma {:induction false} DefaultSlotFits(f: Field)
    ensures SlotFits(f, DefaultSlot(f))
    decreases f
  {
    DefaultValueFits(f.kind);
  }

  lemma {:induction false} DefaultValueFits(k: Kind)
    ensures ValueFits(k, DefaultValue(k))
    decreases k
  {
    if k.Message? { DefaultsFit(k.fields); }
  }

  lemma {:induction false} DecodedValueFits(k: Kind, old_: Value, b: Bytes, p: nat)
    requires ValueOk(k, old_) && ValueFits(k, old_)
    ensures var x := DecValue(k, old_, b, p); x.Some? ==> ValueFits(k, x.value.0)
    decreases |b| - p, 1
  {
    if k.Message? {
      var n := GetLength(b, p);
      if n.Some? {
        DecodedSlotsFit(k.fields, old_.slots, {}, b[..n.value.1 + n.value.0], n.value.1);
      }
    }
  }

  lemma {:induction false} PackedFits(s: Scalar, max: nat, vs: seq<Value>, b: Bytes, p: nat)
    requires AllNumbers(s, vs) && |vs| <= max
    ensures var x := DecPacked(s, max, vs, b, p); x.Some? ==> |x.value| <= max
    decreases |b| - p
  {
    if p < |b| && |vs| < max {
      var n := DecodeScalar(s, b, p);
      if n.Some? { PackedFits(s, max, vs + [Num(n.value.0)], b, n.value.1); }
    }
  }

  lemma {:induction false} DecodedFieldFits(f: Field, s: Slot, wireType: nat, b: Bytes, p: nat)
    requires SlotOk(f, s) && SlotFits(f, s)
    ensures var x := DecField(f, s, wireType, b, p); x.Some? ==> SlotFits(f, x.value.0)
    decreases |b| - p, 2
  {
    match s
    case One(v) => DecodedValueFits(f.kind, v, b, p);
    case Opt(_, v) => DecodedValueFits(f.kind, v, b, p);
    case Rep(vs) =>
      if wireType == WT_STRING && f.kind.Number? {
        PackedFieldFits(f, vs, b, p);
      } else {
        DefaultValueFits(f.kind);
        DecodedValueFits(f.kind, DefaultValue(f.kind), b, p);
        EntryFits(f, vs, wireType, b, p);
      }
  }

  lemma {:induction false} PackedFieldFits(f: Field, vs: seq<Value>, b: Bytes, p: nat)
    requires SlotOk(f, Rep(vs)) && SlotFits(f, Rep(vs)) && f.kind.Number?
    ensures var x := DecField(f, Rep(vs), WT_STRING, b, p); x.Some? ==> SlotFits(f, x.value.0)
  {
    var n := GetLength(b, p);
    if n.Some? {
      assert forall i :: 0 <= i < |vs| ==> ValueOk(Number(f.kind.scalar), vs[i]);
      PackedFits(f.kind.scalar, f.rule.max, vs, b[..n.value.1 + n.value.0], n.value.1);
    }
  }

  lemma {:induction false} EntryFits(f: Field, vs: seq<Value>, wireType: nat, b: Bytes, p: nat)
    requires SlotOk(f, Rep(vs)) && SlotFits(f, Rep(vs)) && !(wireType == WT_STRING && f.kind.Number?)
    requires var x := DecValue(f.kind, DefaultValue(f.kind), b, p); x.Some? ==> ValueFits(f.kind, x.value.0)
    ensures var x := DecField(f, Rep(vs), wireType, b, p); x.Some? ==> SlotFits(f, x.value.0)
  {
  }

  lemma {:induction false} DecodedSlotsFit(fields: seq<Field>, slots: seq<Slot>, seen: set<nat>, b: Bytes, p: nat)
    requires SlotsOk(fields, slots) && SlotsFit(fields, slots)
    ensures var x := DecLoop(fields, slots, seen, b, p); x.Some? ==> SlotsFit(fields, x.value.0)
    decreases |b| - p, 0
  {
    if p < |b| {
      var temp := DecodeVarint32(b, p);
      if temp.Some? && temp.value.0 != 0 {
        var i := FindField(fields, temp.value.0 / 8, 0);
        if i == |fields| {
          var next := SkipField(temp.value.0 % 8, b, temp.value.1);
          if next.Some? { DecodedSlotsFit(fields, slots, seen, b, next.value); }
        } else {
          DecodedFieldFits(fields[i], slots[i], temp.value.0 % 8, b, temp.value.1);
          var x := DecField(fields[i], slots[i], temp.value.0 % 8, b, temp.value.1);
          if x.Some? {
            DecodedSlotsFit(fields, slots[i := x.value.0], if Enforced(fields, i) then seen + {i} else seen, b, x.value.1);
          }
        }
      }
    }
  }

  /** Whatever the bytes, what is decoded lies in the structure: no array is filled beyond its size. */
  lemma DecodedFits(fields: seq<Field>, b: Bytes)
    ensures var x := ProtoDecoder.Decode(fields, b); x.Some? ==> SlotsFit(fields, x.value)
  {
    DefaultsFit(fields);
    DecodedSlotsFit(fields, Defaults(fields), {}, b, 0);
  }

  /** A number that was not sent is all zero bits. */
  lemma DefaultIsZero(s: Scalar)
    ensures forall x :: x in EncodeScalar(s, DefaultValue(Number(s)).n) ==> x == 0
  {
  }

  // ---------------------------------------------------------------------
  // Required fields
  // ---------------------------------------------------------------------

  ghost function RequiredIn(fields: seq<Field>, n: nat): set<nat> {
    set i: nat | i < n && i < |fields| && fields[i].rule.Required?
  }

  lemma {:induction false} RequiredCount(fields: seq<Field>, n: nat)
    requires n <= |fields|
    ensures RequiredBefore(fields, n) == |RequiredIn(fields, n)|
  {
    if n > 0 {
      RequiredCount(fields, n - 1);
      assert RequiredIn(fields, n) == RequiredIn(fields, n - 1) + if fields[n - 1].rule.Required? then {n - 1} else {};
    }
  }

  /** Exactly the first 64 required fields are enforced. */
  lemma EnforcedExactly(fields: seq<Field>, i: nat)
    requires i < |fields|
    ensures Enforced(fields, i) <==> fields[i].rule.Required? && |RequiredIn(fields, i)| < 64
  {
    RequiredCount(fields, i);
  }

  // ---------------------------------------------------------------------
  // Numbers of other encoders
  // ---------------------------------------------------------------------

  /**
   * A 64-bit number where a field is narrower. Unsigned and zigzag fields take what they can hold; signed ones first take
   * the low 32 bits, as other encoders write negative numbers either way.
   */
  lemma NumberReadsExactly(s: Scalar, v: nat, b: Bytes, p: nat, n: int)
    requires v < TWO_64 && HasAt(b, p, Encode(v)) && (s.Int? || s.UInt? || s.SInt?)
    ensures DecodeScalar(s, b, p) == Some((n, p + |Encode(v)|)) <==>
      match s
      case UInt(w) => n == v < Range(w)
      case SInt(w) => InSigned(w, n) && ZigZag(n) == v
      case Int(w) => InSigned(w, n) && if w == W64 then n == v || n == v - TWO_64 else (v - n) % TWO_32 == 0
    ensures DecodeScalar(s, b, p).Some? ==> DecodeScalar(s, b, p).value.1 == p + |Encode(v)|
  {
    RoundTrip64(b, p, v);
    match s
    case UInt(w) =>
    case SInt(w) => ZigZagOnce(v, n);
    case Int(w) => IntOnce(w, v, n);
  }

  lemma IntOnce(w: Width, v: nat, n: int)
    requires v < TWO_64
    ensures Signed(if w.W64? then W64 else W32, v) == n && InSigned(w, n) <==>
            InSigned(w, n) && if w == W64 then n == v || n == v - TWO_64 else (v - n) % TWO_32 == 0
  {
    if w == W64 {
      assert v % 0x1_0000_0000_0000_0000 == v;
    } else if InSigned(w, n) {
      SignedOnce(v, n);
    }
  }

  lemma ZigZagOnce(v: nat, n: int)
    ensures UnZigZag(v) == n <==> ZigZag(n) == v
  {
  }

  lemma SignedOnce(v: nat, n: int)
    requires InSigned(W32, n)
    ensures Signed(W32, v) == n <==> (v - n) % TWO_32 == 0
  {
    var m := v % 0x1_0000_0000;
    assert v == v / 0x1_0000_0000 * 0x1_0000_0000 + m;
    SameRest(v / 0x1_0000_0000, m - n);
  }

  lemma SameRest(q: int, d: int)
    ensures (q * 0x1_0000_0000 + d) % 0x1_0000_0000 == d % 0x1_0000_0000
  {
  }

  // ---------------------------------------------------------------------
  // Numbers beyond 32 bits where 32 are expected
  // ---------------------------------------------------------------------

  /** The groups of seven bits from bit 35 on are all ones or all zeros, and bit 63 is one. */
  predicate SignGroups(w: nat, k: nat)
    decreases 9 - k
  {
    if k >= 9 then w == 1 else w >= 128 && (w % 128 == 0 || w % 128 == 127) && SignGroups(w / 128, k + 1)
  }

  lemma {:induction false} ExtensionReads(b: Bytes, p: nat, k: nat, result: nat, w: nat)
    requires 5 <= k <= 9 && w > 0 && result < TWO_32 && HasAt(b, p, Encode(w)) && FitsGroups(w, k)
    ensures Rest32(b, p, k, result) ==
            if result >= 0x8000_0000 && SignGroups(w, k) then Some((result, p + |Encode(w)|)) else None
    decreases 9 - k
  {
    if w < 128 {
      assert b[p + 0] == Encode(w)[0];
    } else {
      var q := HasParts(b, p, [More(w)], Encode(w / 128));
      assert b[p + 0] == [More(w)][0];
      ExtensionReads(b, q, k + 1, result, w / 128);
    }
  }

  /** At most ten groups in all. */
  predicate FitsGroups(w: nat, k: nat)
    decreases 9 - k
  {
    if k >= 9 then w < 128 else FitsGroups(w / 128, k + 1)
  }

  /** The first groups of a number of more than 32 bits. */
  lemma LowGroups(b: Bytes, p: nat, v: nat) returns (q: nat, low: nat)
    requires 0x1000_0000 <= v && HasAt(b, p, Encode(v))
    ensures low == v % 0x1000_0000 && HasAt(b, q, Encode(v / 0x1000_0000)) && q + |Encode(v / 0x1000_0000)| == p + |Encode(v)|
    ensures DecodeVarint32(b, p) == Rest32(b, q, 4, low)
  {
    var w := v / 128 / 128;
    FourGroups(v);
    GroupsFit(v % 128, v / 128 % 128, 0);
    var q2, l2 := TwoGroups(b, p, 0, 0, v);
    GroupsFit(w % 128, w / 128 % 128, l2);
    q, low := TwoGroups(b, q2, 2, l2, w);
    LowSum(v, l2, low);
  }

  lemma TwoGroups(b: Bytes, p: nat, k: nat, result: nat, w: nat) returns (q: nat, sum: nat)
    requires k <= 2 && w / 128 >= 128 && HasAt(b, p, Encode(w))
    requires result + Times(w % 128, Power128(k)) + Times(w / 128 % 128, Power128(k + 1)) < TWO_32
    ensures sum == result + Times(w % 128, Power128(k)) + Times(w / 128 % 128, Power128(k + 1)) && HasAt(b, q, Encode(w / 128 / 128))
    ensures q + |Encode(w / 128 / 128)| == p + |Encode(w)| && Rest32(b, p, k, result) == Rest32(b, q, k + 2, sum)
  {
    var mid, first := NextGroup(b, p, k, result, w);
    q, sum := NextGroup(b, mid, k + 1, first, w / 128);
  }

  lemma GroupsFit(x: nat, y: nat, low: nat)
    requires x < 128 && y < 128 && low < 0x4000
    ensures Times(x, Power128(0)) + Times(y, Power128(1)) < 0x4000
    ensures low + Times(x, Power128(2)) + Times(y, Power128(3)) < TWO_32
  {
    Powers();
  }

  lemma LowSum(v: nat, l2: nat, low: nat)
    requires l2 == Times(v % 128, Power128(0)) + Times(v / 128 % 128, Power128(1))
    requires low == l2 + Times(v / 128 / 128 % 128, Power128(2)) + Times(v / 128 / 128 / 128 % 128, Power128(3))
    ensures low == v % 0x1000_0000
  {
    Powers();
    FourGroups(v);
  }

  lemma FourGroups(v: nat)
    ensures v / 128 / 128 / 128 / 128 == v / 0x1000_0000
    ensures v % 128 + 0x80 * (v / 128 % 128) + 0x4000 * (v / 128 / 128 % 128) + 0x20_0000 * (v / 128 / 128 / 128 % 128) == v % 0x1000_0000
  {
  }

  lemma NextGroup(b: Bytes, p: nat, k: nat, result: nat, w: nat) returns (q: nat, sum: nat)
    requires k <= 3 && w >= 128 && HasAt(b, p, Encode(w)) && result + Times(w % 128, Power128(k)) < TWO_32
    ensures sum == result + Times(w % 128, Power128(k)) && HasAt(b, q, Encode(w / 128))
    ensures q + |Encode(w / 128)| == p + |Encode(w)| && Rest32(b, p, k, result) == Rest32(b, q, k + 1, sum)
  {
    q := HasParts(b, p, [More(w)], Encode(w / 128));
    assert b[p + 0] == [More(w)][0];
    sum := result + Times(w % 128, Power128(k));
    MoreReads(b, p, k, result, w, sum);
  }

  lemma FifthGroup(low: nat, v: nat)
    requires low == v % 0x1000_0000
    ensures Wrap32(low + Times(v / 0x1000_0000 % 128, Power128(4))) == v % 0x1_0000_0000
  {
    Powers();
    var w := v / 0x1000_0000;
    assert v == low + 0x1000_0000 * w;
    assert w % 128 == w % 16 + 16 * (w / 16 % 8);
    SixteenFold(low + 0x1000_0000 * (w % 16), w / 16 % 8);
    SixteenFold(low + 0x1000_0000 * (w % 16), w / 16);
  }

  lemma SixteenFold(n: nat, q: nat)
    ensures (n + 0x1_0000_0000 * q) % 0x1_0000_0000 == n % 0x1_0000_0000
  {
  }

  /**
   * A 64-bit number where a length, a tag or a flag is expected: what has 32 bits is read, and a negative number in 64 bits
   * is read as its low half. Bits 32 to 34 are not looked at then, and each group of seven bits may be all zeros.
   */
  lemma Varint32ReadsExactly(b: Bytes, p: nat, v: nat)
    requires v < TWO_64 && HasAt(b, p, Encode(v))
    ensures DecodeVarint32(b, p) ==
            if v < TWO_32 || (v >= 0x8_0000_0000 && v % 0x1_0000_0000 >= 0x8000_0000 && SignGroups(v / 0x8_0000_0000, 5))
            then Some((v % 0x1_0000_0000, p + |Encode(v)|)) else None
  {
    if v < TWO_32 {
      Reads32(b, p, v);
    } else if v < 0x8_0000_0000 {
      FiveGroupsRead(b, p, v);
    } else {
      MoreGroupsRead(b, p, v);
    }
  }

  lemma FiveGroupsRead(b: Bytes, p: nat, v: nat)
    requires TWO_32 <= v < 0x8_0000_0000 && HasAt(b, p, Encode(v))
    ensures DecodeVarint32(b, p) == None
  {
    var q, low := LowGroups(b, p, v);
    ShortReads(b, q, low, v / 0x1000_0000);
  }

  lemma MoreGroupsRead(b: Bytes, p: nat, v: nat)
    requires 0x8_0000_0000 <= v < TWO_64 && HasAt(b, p, Encode(v))
    ensures DecodeVarint32(b, p) ==
            if v % 0x1_0000_0000 >= 0x8000_0000 && SignGroups(v / 0x8_0000_0000, 5) then Some((v % 0x1_0000_0000, p + |Encode(v)|)) else None
  {
    var q, low := LowGroups(b, p, v);
    FifthGroup(low, v);
    LongReads(b, q, low, v, v / 0x1000_0000);
  }

  lemma ShortReads(b: Bytes, q: nat, low: nat, w: nat)
    requires 16 <= w < 128 && low < TWO_32 && HasAt(b, q, Encode(w))
    ensures Rest32(b, q, 4, low) == None
  {
    assert b[q + 0] == Encode(w)[0];
    TooMany(b, q, low, w);
  }

  lemma LongReads(b: Bytes, q: nat, low: nat, v: nat, w: nat)
    requires 0x8_0000_0000 <= v < TWO_64 && w == v / 0x1000_0000 && low < TWO_32 && HasAt(b, q, Encode(w))
    requires Wrap32(low + Times(w % 128, Power128(4))) == v % 0x1_0000_0000
    ensures Rest32(b, q, 4, low) ==
            if v % 0x1_0000_0000 >= 0x8000_0000 && SignGroups(v / 0x8_0000_0000, 5) then Some((v % 0x1_0000_0000, q + |Encode(w)|)) else None
  {
    TenGroups(v);
    var r := HasParts(b, q, [More(w)], Encode(w / 128));
    assert b[q + 0] == [More(w)][0];
    FifthReads(b, q, low, w, v % 0x1_0000_0000);
    ExtensionReads(b, r, 5, v % 0x1_0000_0000, w / 128);
  }

  lemma FifthReads(b: Bytes, q: nat, low: nat, w: nat, sum: nat)
    requires q < |b| && b[q] == More(w) && low < TWO_32 && sum == Wrap32(low + Times(w % 128, Power128(4)))
    ensures Rest32(b, q, 4, low) == Rest32(b, q + 1, 5, sum)
  {
  }

  /** A fifth group with bits beyond the 32nd ends in an error. */
  lemma TooMany(b: Bytes, q: nat, low: nat, w: nat)
    requires q < |b| && b[q] as nat == w && 16 <= w < 128 && low < TWO_32
    ensures Rest32(b, q, 4, low) == None
  {
  }

  lemma TenGroups(v: nat)
    requires 0x8_0000_0000 <= v < TWO_64
    ensures v / 0x1000_0000 / 128 == v / 0x8_0000_0000 > 0 && FitsGroups(v / 0x8_0000_0000, 5)
  {
    var w := v / 0x8_0000_0000;
    assert w < 0x2000_0000;
    assert w / 128 < 0x40_0000 && w / 128 / 128 < 0x8000 && w / 128 / 128 / 128 < 0x100 && w / 128 / 128 / 128 / 128 < 128;
    assert FitsGroups(w / 128 / 128 / 128 / 128, 9);
    assert FitsGroups(w / 128 / 128 / 128, 8);
    assert FitsGroups(w / 128 / 128, 7);
    assert FitsGroups(w / 128, 6);
  }
}
