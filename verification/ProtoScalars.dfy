/**
 * Scalar values on the wire, as nanopb writes and reads them: pb_encode.c:608-667 and 769-850,
 * pb_decode.c:187-275, 1279-1325 and 1339-1439.
 */
module ProtoScalars {
  import opened Keys
  import opened Coding
  import opened Varint

  // ---------------------------------------------------------------------
  // Varints
  // ---------------------------------------------------------------------

  /**
   * pb_decode_varint32 from its `k`-th byte on, at bit position 7 * k. From bit 32 on only the sign
   * extension of a negative number is accepted.
   */
  function Rest32(b: Bytes, p: nat, k: nat, result: nat): (r: Option<(nat, nat)>)
    requires result < TWO_32
    ensures r.Some? ==> r.value.0 < TWO_32 && p < r.value.1 <= |b|
    decreases |b| - p
  {
    if p >= |b| then None
    else
      var byte_ := b[p] as nat;
      var low := byte_ % 128;
      if k >= 5 && low != 0 && (result < 0x8000_0000 || byte_ != if k < 9 then 0xff else 1) then None
      else
        var sum := if k < 5 then Wrap32(result + Times(low, Power128(k))) else result;
        if byte_ >= 128 then Rest32(b, p + 1, k + 1, sum)
        else if k == 4 && byte_ / 16 % 8 != 0 then None
        else Some((sum, p + 1))
  }

  function DecodeVarint32(b: Bytes, p: nat): (r: Option<(nat, nat)>)
    ensures r.Some? ==> r.value.0 < TWO_32 && p < r.value.1 <= |b|
  {
    Rest32(b, p, 0, 0)
  }

  /** The last byte of a number. */
  lemma LastReads(b: Bytes, p: nat, k: nat, result: nat, v: nat, total: nat)
    requires k <= 4 && p < |b| && b[p] as nat == v < 128 && result < TWO_32
    requires total == result + Times(v, Power128(k)) < TWO_32
    ensures Rest32(b, p, k, result) == Some((total, p + 1))
  {
    Powers();
  }

  /** A byte with more to come. */
  lemma MoreReads(b: Bytes, p: nat, k: nat, result: nat, v: nat, sum: nat)
    requires k <= 3 && p < |b| && b[p] == More(v) && result < TWO_32
    requires sum == result + Times(v % 128, Power128(k)) < TWO_32
    ensures Rest32(b, p, k, result) == Rest32(b, p + 1, k + 1, sum)
  {
  }

  lemma {:induction false} RestReads(b: Bytes, p: nat, k: nat, result: nat, v: nat, total: nat)
    requires k <= 4 && HasAt(b, p, Encode(v)) && result < TWO_32
    requires total == result + Times(v, Power128(k)) < TWO_32
    ensures Rest32(b, p, k, result) == Some((total, p + |Encode(v)|))
    decreases v
  {
    if v < 128 {
      assert b[p + 0] == Encode(v)[0];
      LastReads(b, p, k, result, v, total);
    } else {
      var q := HasParts(b, p, [More(v)], Encode(v / 128));
      assert b[p + 0] == [More(v)][0];
      SmallPower(v, k);
      Split(v, k);
      var sum := result + Times(v % 128, Power128(k));
      MoreReads(b, p, k, result, v, sum);
      RestReads(b, q, k + 1, sum, v / 128, total);
    }
  }

  lemma SmallPower(v: nat, k: nat)
    requires v >= 128 && k <= 4 && Times(v, Power128(k)) < TWO_32
    ensures k <= 3
  {
    Powers();
  }

  lemma Powers()
    ensures Power128(0) == 1 && Power128(1) == 0x80 && Power128(2) == 0x4000 && Power128(3) == 0x20_0000 && Power128(4) == 0x1000_0000
  {
  }

  lemma Split(v: nat, k: nat)
    requires k <= 3
    ensures Times(v, Power128(k)) == Times(v % 128, Power128(k)) + Times(v / 128, Power128(k + 1))
  {
    Powers();
    assert v == 128 * (v / 128) + v % 128;
  }

  lemma Reads32(b: Bytes, p: nat, v: nat)
    requires v < TWO_32 && HasAt(b, p, Encode(v))
    ensures DecodeVarint32(b, p) == Some((v, p + |Encode(v)|))
  {
    RestReads(b, p, 0, 0, v, v);
  }

  // ---------------------------------------------------------------------
  // Scalars
  // ---------------------------------------------------------------------

  /** The size of an integer in the message structure. */
  datatype Width = W8 | W16 | W32 | W64

  datatype Scalar = Bool | Int(width: Width) | UInt(width: Width) | SInt(width: Width) | Fixed32 | Fixed64

  /** One more than the largest unsigned value. */
  function Range(w: Width): nat {
    match w
    case W8 => 0x100
    case W16 => 0x1_0000
    case W32 => TWO_32
    case W64 => TWO_64
  }

  predicate InSigned(w: Width, n: int) {
    0 <= n + Range(w) / 2 < Range(w)
  }

  /** A cast to a signed integer of that width. */
  function Signed(w: Width, v: nat): int {
    var m := match w
      case W8 => v % 0x100
      case W16 => v % 0x1_0000
      case W32 => v % 0x1_0000_0000
      case W64 => v % 0x1_0000_0000_0000_0000;
    if m >= Range(w) / 2 then m - Range(w) else m
  }

  predicate InRange(s: Scalar, n: int) {
    match s
    case Bool => n == 0 || n == 1
    case Int(w) => InSigned(w, n)
    case UInt(w) => 0 <= n < Range(w)
    case SInt(w) => InSigned(w, n)
    case Fixed32 => 0 <= n < TWO_32
    case Fixed64 => 0 <= n < TWO_64
  }

  /** The 64-bit representation of a signed integer. */
  function Unsigned(n: int): nat
    requires 0 <= n + TWO_64
  {
    if n < 0 then n + TWO_64 else n
  }

  function ZigZag(n: int): nat {
    if n < 0 then -2 * n - 1 else 2 * n
  }

  function UnZigZag(v: nat): int {
    if v % 2 == 1 then -(v / 2) - 1 else v / 2
  }

  function EncodeScalar(s: Scalar, n: int): Bytes
    requires InRange(s, n)
  {
    match s
    case Bool => Encode(n)
    case Int(_) => Encode(Unsigned(n))
    case UInt(_) => Encode(n)
    case SInt(_) => Encode(ZigZag(n))
    case Fixed32 => EncodeFixed32(n)
    case Fixed64 => EncodeFixed32(n % 0x1_0000_0000) + EncodeFixed32(n / 0x1_0000_0000)
  }

  function DecodeScalar(s: Scalar, b: Bytes, p: nat): (r: Option<(int, nat)>)
    ensures r.Some? ==> p < r.value.1 <= |b|
  {
    match s
    case Bool =>
      var v := DecodeVarint32(b, p);
      if v.None? then None else Some((if v.value.0 != 0 then 1 else 0, v.value.1))
    case Int(w) =>
      var v := Decode64(b, p);
      if v.None? then None else Clamped(w, Signed(if w.W64? then W64 else W32, v.value.0), v.value.1)
    case UInt(w) =>
      var v := Decode64(b, p);
      if v.None? || v.value.0 >= Range(w) then None else Some((v.value.0, v.value.1))
    case SInt(w) =>
      var v := Decode64(b, p);
      if v.None? then None else Clamped(w, UnZigZag(v.value.0), v.value.1)
    case Fixed32 =>
      if p + 4 > |b| then None else Some((Load32(b, p), p + 4))
    case Fixed64 =>
      if p + 8 > |b| then None else Some((Load32(b, p) + TWO_32 * Load32(b, p + 4), p + 8))
  }

  /** "integer too large" unless the value fits the field. */
  function Clamped(w: Width, n: int, next: nat): (r: Option<(int, nat)>)
    ensures r.Some? ==> r.value == (n, next)
  {
    if InSigned(w, n) then Some((n, next)) else None
  }

  /** The value is read back wherever its encoding stands. */
  ghost predicate ReadsBack(s: Scalar, n: int, b: Bytes, p: nat)
    requires InRange(s, n)
  {
    HasAt(b, p, EncodeScalar(s, n)) ==> DecodeScalar(s, b, p) == Some((n, p + |EncodeScalar(s, n)|))
  }

  lemma SignedBack(w: Width, n: int)
    requires InRange(Int(w), n)
    ensures Signed(if w.W64? then W64 else W32, Unsigned(n)) == n
  {
    if w.W64? {
      assert Unsigned(n) % 0x1_0000_0000_0000_0000 == Unsigned(n);
    } else if n < 0 {
      assert n + TWO_64 == (n + TWO_32) + 0xffff_ffff * TWO_32;
      assert Unsigned(n) % 0x1_0000_0000 == n + TWO_32;
    }
  }

  lemma SignedReads(w: Width, n: int, b: Bytes, p: nat)
    requires InRange(Int(w), n)
    ensures ReadsBack(Int(w), n, b, p)
  {
    if HasAt(b, p, EncodeScalar(Int(w), n)) {
      SignedBack(w, n);
      UnsignedFits(w, n);
      SignedDecodes(w, n, b, p, Unsigned(n));
    }
  }

  /** The varint of the 64-bit representation, read and cast back. */
  lemma SignedDecodes(w: Width, n: int, b: Bytes, p: nat, v: nat)
    requires v < TWO_64 && HasAt(b, p, Encode(v)) && Signed(if w.W64? then W64 else W32, v) == n && InSigned(w, n)
    ensures DecodeScalar(Int(w), b, p) == Some((n, p + |Encode(v)|))
  {
    RoundTrip64(b, p, v);
  }

  lemma UnsignedFits(w: Width, n: int)
    requires InSigned(w, n)
    ensures 0 <= n + TWO_64 && Unsigned(n) < TWO_64
  {
  }

  lemma ZigZagBack(w: Width, n: int)
    requires InSigned(w, n)
    ensures ZigZag(n) < TWO_64 && UnZigZag(ZigZag(n)) == n
  {
  }

  lemma ZigZagReads(w: Width, n: int, b: Bytes, p: nat)
    requires InRange(SInt(w), n)
    ensures ReadsBack(SInt(w), n, b, p)
  {
    if HasAt(b, p, EncodeScalar(SInt(w), n)) {
      ZigZagBack(w, n);
      RoundTrip64(b, p, ZigZag(n));
    }
  }

  lemma BoolReads(n: nat, b: Bytes, p: nat)
    requires n <= 1
    ensures ReadsBack(Bool, n, b, p)
  {
    if HasAt(b, p, EncodeScalar(Bool, n)) {
      Reads32(b, p, n);
    }
  }

  lemma UnsignedReads(w: Width, n: nat, b: Bytes, p: nat)
    requires n < Range(w)
    ensures ReadsBack(UInt(w), n, b, p)
  {
    if HasAt(b, p, EncodeScalar(UInt(w), n)) {
      RoundTrip64(b, p, n);
    }
  }

  lemma Fixed32Reads(n: nat, b: Bytes, p: nat)
    requires n < TWO_32
    ensures ReadsBack(Fixed32, n, b, p)
  {
    if HasAt(b, p, EncodeScalar(Fixed32, n)) {
      Fixed32Read(b, p, n);
    }
  }

  lemma Fixed64Reads(n: nat, b: Bytes, p: nat)
    requires n < TWO_64
    ensures ReadsBack(Fixed64, n, b, p)
  {
    if HasAt(b, p, EncodeScalar(Fixed64, n)) {
      var q := HasParts(b, p, EncodeFixed32(n % 0x1_0000_0000), EncodeFixed32(n / 0x1_0000_0000));
      Fixed32Read(b, p, n % 0x1_0000_0000);
      Fixed32Read(b, q, n / 0x1_0000_0000);
    }
  }

  lemma EachReads(s: Scalar, n: int, b: Bytes, p: nat)
    requires InRange(s, n)
    ensures ReadsBack(s, n, b, p)
  {
    match s
    case Bool => BoolReads(n, b, p);
    case Int(w) => SignedReads(w, n, b, p);
    case UInt(w) => UnsignedReads(w, n, b, p);
    case SInt(w) => ZigZagReads(w, n, b, p);
    case Fixed32 => Fixed32Reads(n, b, p);
    case Fixed64 => Fixed64Reads(n, b, p);
  }

  /** Every scalar value is read back. */
  lemma ScalarReads(s: Scalar, n: int, b: Bytes, p: nat)
    requires InRange(s, n) && HasAt(b, p, EncodeScalar(s, n))
    ensures DecodeScalar(s, b, p) == Some((n, p + |EncodeScalar(s, n)|))
  {
    EachReads(s, n, b, p);
    assert ReadsBack(s, n, b, p);
  }
}
