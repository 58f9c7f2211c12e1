/** Variable-length integers: util/coding.cc:47-157. */
module Varint {
  import opened Keys
  import opened Sequences
  import opened Coding

  /** Seven bits a byte, least significant first, with the high bit set on all bytes but the last. */
  function Encode(v: nat): (r: Bytes)
    ensures |r| > 0
    decreases v
  {
    if v < 128 then [v as byte] else [More(v)] + Encode(v / 128)
  }

  /** The low seven bits, with the continuation bit. */
  function More(v: nat): byte {
    (v % 128 + 128) as byte
  }

  /**
   * The number at position `p` and the position behind it. At most `max` bytes are read; None if the
   * number does not end within them.
   */
  function Decode(b: Bytes, p: nat, max: nat): (r: Option<(nat, nat)>)
    ensures r.Some? ==> p < r.value.1 <= |b| && r.value.1 <= p + max
    decreases max
  {
    if max == 0 || p >= |b| then None
    else if b[p] < 128 then Some((b[p] as nat, p + 1))
    else
      var rest := Decode(b, p + 1, max - 1);
      if rest.None? then None else Some((b[p] as nat - 128 + 128 * rest.value.0, rest.value.1))
  }

  /** The bytes `s` stand at position `p`. */
  ghost predicate HasAt(b: Bytes, p: nat, s: Bytes) {
    p + |s| <= |b| && forall k :: 0 <= k < |s| ==> b[p + k] == s[k]
  }

  lemma HasParts(b: Bytes, p: nat, s: Bytes, t: Bytes) returns (q: nat)
    requires HasAt(b, p, s + t)
    ensures q == p + |s| && HasAt(b, p, s) && HasAt(b, q, t)
  {
    q := p + |s|;
    assert forall k :: 0 <= k < |s| ==> (s + t)[k] == s[k];
    assert forall k :: 0 <= k < |t| ==> (s + t)[|s| + k] == t[k];
  }

  /** A stored fixed-width number is read back. */
  lemma Fixed32Read(b: Bytes, p: nat, n: nat)
    requires n < TWO_32 && HasAt(b, p, EncodeFixed32(n))
    ensures Load32(b, p) == n
  {
    var s := EncodeFixed32(n);
    assert b[p + 0] == s[0] && b[p + 1] == s[1] && b[p + 2] == s[2] && b[p + 3] == s[3];
    Digits(n);
  }

  lemma HasSlice(b: Bytes, p: nat, s: Bytes)
    requires HasAt(b, p, s)
    ensures b[p..p + |s|] == s
  {
  }

  /** Of encodings one after another, the first stands in front of the others. */
  lemma FirstAndRest<T>(encode: T -> Bytes, b: Bytes, p: nat, xs: seq<T>, coded: Bytes) returns (next: nat, rest: Bytes)
    requires xs != [] && coded == Flat(Each(encode, xs)) && p + |coded| == |b| && HasAt(b, p, coded)
    ensures HasAt(b, p, encode(xs[0])) && next == p + |encode(xs[0])|
    ensures rest == Flat(Each(encode, xs[1..])) && next + |rest| == |b| && HasAt(b, next, rest)
  {
    EachHead(encode, xs);
    rest := Flat(Each(encode, xs[1..]));
    assert coded == encode(xs[0]) + rest;
    next := HasParts(b, p, encode(xs[0]), rest);
  }

  function Power128(n: nat): nat {
    if n == 0 then 1 else 128 * Power128(n - 1)
  }

  lemma {:induction false} EncodeLength(v: nat, n: nat)
    requires n > 0 && v < Power128(n)
    ensures |Encode(v)| <= n
  {
    if v >= 128 {
      assert n > 1;
      assert v / 128 < Power128(n - 1);
      EncodeLength(v / 128, n - 1);
    }
  }

  /** An encoded number is decoded whatever stands around it. */
  lemma {:induction false} RoundTrip(b: Bytes, p: nat, v: nat, max: nat)
    requires HasAt(b, p, Encode(v)) && |Encode(v)| <= max
    ensures Decode(b, p, max) == Some((v, p + |Encode(v)|))
    decreases v
  {
    var s := Encode(v);
    assert b[p] == b[p + 0] == s[0];
    if v >= 128 {
      var q := HasParts(b, p, [More(v)], Encode(v / 128));
      RoundTrip(b, q, v / 128, max - 1);
    }
  }

  // ---------------------------------------------------------------------
  // 32 bits
  // ---------------------------------------------------------------------

  lemma Short32(v: nat)
    requires v < TWO_32
    ensures |Encode(v)| <= 5
  {
    assert Power128(5) == 0x8_0000_0000;
    EncodeLength(v, 5);
  }

  /** EncodeVarint32, one branch for each length. */
  method EncodeVarint32(v: nat) returns (r: Bytes)
    requires v < TWO_32
    ensures r == Encode(v) && |r| <= 5
  {
    if v < 0x80 {
      r := [v as byte];
    } else if v < 0x4000 {
      r := [More(v), (v / 0x80) as byte];
    } else if v < 0x20_0000 {
      r := [More(v), More(v / 0x80), (v / 0x4000) as byte];
    } else if v < 0x1000_0000 {
      r := [More(v), More(v / 0x80), More(v / 0x4000), (v / 0x20_0000) as byte];
    } else {
      r := [More(v), More(v / 0x80), More(v / 0x4000), More(v / 0x20_0000), (v / 0x1000_0000) as byte];
    }
    Unrolled(v, r);
  }

  lemma Unrolled(v: nat, r: Bytes)
    requires v < TWO_32 && |r| > 0
    requires if v < 0x80 then r == [v as byte]
             else if v < 0x4000 then r == [More(v), (v / 0x80) as byte]
             else if v < 0x20_0000 then r == [More(v), More(v / 0x80), (v / 0x4000) as byte]
             else if v < 0x1000_0000 then r == [More(v), More(v / 0x80), More(v / 0x4000), (v / 0x20_0000) as byte]
             else r == [More(v), More(v / 0x80), More(v / 0x4000), More(v / 0x20_0000), (v / 0x1000_0000) as byte]
    ensures r == Encode(v)
  {
    Nest(v);
    var a := v / 0x80;
    var b := a / 0x80;
    var c := b / 0x80;
    var d := c / 0x80;
    if v >= 0x80 {
      assert Encode(v) == [More(v)] + Encode(a);
      if a >= 0x80 {
        assert Encode(a) == [More(a)] + Encode(b);
        if b >= 0x80 {
          assert Encode(b) == [More(b)] + Encode(c);
          if c >= 0x80 {
            assert Encode(c) == [More(c)] + Encode(d);
          }
        }
      }
    }
  }

  lemma Nest(v: nat)
    ensures v / 0x4000 == v / 0x80 / 0x80
    ensures v / 0x20_0000 == v / 0x80 / 0x80 / 0x80
    ensures v / 0x1000_0000 == v / 0x80 / 0x80 / 0x80 / 0x80
  {
  }

  /** Bits above the 32nd are lost. */
  function Wrap32(v: nat): (r: nat)
    ensures r < TWO_32 && (v < TWO_32 ==> r == v)
  {
    v % 0x1_0000_0000
  }

  function Decode32(b: Bytes, p: nat): (r: Option<(nat, nat)>)
    ensures r.Some? ==> r.value.0 < TWO_32 && p < r.value.1 <= |b|
  {
    var x := Decode(b, p, 5);
    if x.None? then None else Some((Wrap32(x.value.0), x.value.1))
  }

  lemma RoundTrip32(b: Bytes, p: nat, v: nat)
    requires v < TWO_32 && HasAt(b, p, Encode(v))
    ensures Decode32(b, p) == Some((v, p + |Encode(v)|))
  {
    Short32(v);
    RoundTrip(b, p, v, 5);
  }

  /** The decoding loop: `result` gathers seven bits a round. */
  method GetVarint32PtrFallback(b: Bytes, start: nat) returns (r: Option<(nat, nat)>)
    ensures r == Decode32(b, start)
  {
    var result, p, factor := 0, start, 1;
    ghost var goal := Decode(b, start, 5);
    assert goal == Resume(0, 1, goal);
    while p < start + 5 && p < |b|
      invariant start <= p <= start + 5 && result >= 0 && factor >= 0
      invariant goal == Resume(result, factor, Decode(b, p, start + 5 - p))
    {
      ResumeStep(b, result, factor, p, start + 5 - p);
      var v := b[p] as nat;
      p := p + 1;
      if v >= 128 {
        result := result + Times(factor, v - 128);
      } else {
        return Some((Wrap32(result + Times(factor, v)), p));
      }
      factor := factor * 128;
    }
    return None;
  }

  function Times(a: nat, b: nat): nat {
    a * b
  }

  /** What is still to be read, put on top of what has been read. */
  function Resume(result: nat, factor: nat, rest: Option<(nat, nat)>): Option<(nat, nat)> {
    if rest.None? then None else Some((result + Times(factor, rest.value.0), rest.value.1))
  }

  lemma ResumeStep(b: Bytes, result: nat, factor: nat, p: nat, max: nat)
    requires p < |b| && max > 0
    ensures Resume(result, factor, Decode(b, p, max)) ==
            if b[p] < 128 then Some((result + Times(factor, b[p] as nat), p + 1))
            else Resume(result + Times(factor, b[p] as nat - 128), factor * 128, Decode(b, p + 1, max - 1))
  {
    var rest := Decode(b, p + 1, max - 1);
    if b[p] >= 128 && rest.Some? {
      Distributes(factor, b[p] as nat - 128, rest.value.0);
    }
  }

  lemma Distributes(f: nat, a: nat, b: nat)
    ensures Times(f, a + 128 * b) == Times(f, a) + Times(f * 128, b)
  {
  }

  // ---------------------------------------------------------------------
  // Length-prefixed slices
  // ---------------------------------------------------------------------

  /** PutLengthPrefixedSlice. */
  function LengthPrefixed(s: Bytes): Bytes {
    Encode(|s|) + s
  }

  /** GetLengthPrefixedSlice. */
  function GetSlice(b: Bytes, p: nat): (r: Option<(Bytes, nat)>)
    ensures r.Some? ==> p < r.value.1 <= |b|
  {
    var n := Decode32(b, p);
    if n.None? || |b| - n.value.1 < n.value.0 then None
    else Some((b[n.value.1..n.value.1 + n.value.0], n.value.1 + n.value.0))
  }

  lemma SliceReads(b: Bytes, p: nat, s: Bytes)
    requires |s| < TWO_32 && HasAt(b, p, LengthPrefixed(s))
    ensures GetSlice(b, p) == Some((s, p + |LengthPrefixed(s)|))
  {
    var q := HasParts(b, p, Encode(|s|), s);
    RoundTrip32(b, p, |s|);
    HasSlice(b, q, s);
  }

  // ---------------------------------------------------------------------
  // 64 bits
  // ---------------------------------------------------------------------

  const TWO_64: nat := 0x1_0000_0000_0000_0000

  function Wrap64(v: nat): (r: nat)
    ensures r < TWO_64 && (v < TWO_64 ==> r == v)
  {
    v % 0x1_0000_0000_0000_0000
  }

  /** GetVarint64: up to ten bytes, bits above the 64th lost. */
  function Decode64(b: Bytes, p: nat): (r: Option<(nat, nat)>)
    ensures r.Some? ==> r.value.0 < TWO_64 && p < r.value.1 <= |b|
  {
    var x := Decode(b, p, 10);
    if x.None? then None else Some((Wrap64(x.value.0), x.value.1))
  }

  lemma RoundTrip64(b: Bytes, p: nat, v: nat)
    requires v < TWO_64 && HasAt(b, p, Encode(v))
    ensures Decode64(b, p) == Some((v, p + |Encode(v)|))
  {
    Length64(v);
    RoundTrip(b, p, v, 10);
  }
  function EncodeFixed64(n: nat): (r: Bytes)
    requires n < TWO_64
    ensures |r| == 8
  {
    EncodeFixed32(n % 0x1_0000_0000) + EncodeFixed32(n / 0x1_0000_0000)
  }

  function Load64(b: Bytes, p: nat): (n: nat)
    requires p + 8 <= |b|
  {
    Load32(b, p) + TWO_32 * Load32(b, p + 4)
  }

  lemma Fixed64Read(b: Bytes, p: nat, n: nat)
    requires n < TWO_64 && HasAt(b, p, EncodeFixed64(n))
    ensures p + 8 <= |b| && Load64(b, p) == n
  {
    var low, high := n % 0x1_0000_0000, n / 0x1_0000_0000;
    var q := HasParts(b, p, EncodeFixed32(low), EncodeFixed32(high));
    Fixed32Read(b, p, low);
    Fixed32Read(b, q, high);
  }

  lemma Length64(v: nat)
    requires v < TWO_64
    ensures |Encode(v)| <= 10
  {
    assert Power128(10) == 0x40_0000_0000_0000_0000 by {
      assert Power128(5) == 0x8_0000_0000;
      assert Power128(10) == 128 * (128 * (128 * (128 * (128 * Power128(5)))));
    }
    EncodeLength(v, 10);
  }
}
