/** Fixed-width integers: util/coding.cc, and the stored form of checksums: util/crc32c.h:22-38. */
module Coding {
  import opened Keys
  import opened Sequences

  const TWO_32: nat := 0x1_0000_0000

  function Low(n: nat): (b: byte)
    ensures b as nat == n % 256
  {
    (n % 256) as byte
  }

  /** EncodeFixed32: four bytes, least significant first. */
  function EncodeFixed32(n: nat): (r: Bytes)
    requires n < TWO_32
    ensures |r| == 4
  {
    [Low(n), Low(n / 256), Low(n / 0x1_0000), Low(n / 0x100_0000)]
  }

  function DecodeFixed32(b: Bytes): (n: nat)
    requires |b| >= 4
    ensures n < TWO_32
  {
    b[0] as nat + 256 * b[1] as nat + 0x1_0000 * b[2] as nat + 0x100_0000 * b[3] as nat
  }

  /** The same at a position of a longer string. */
  function Load32(b: Bytes, p: nat): (n: nat)
    requires p + 4 <= |b|
    ensures n < TWO_32
  {
    b[p] as nat + 256 * b[p + 1] as nat + 0x1_0000 * b[p + 2] as nat + 0x100_0000 * b[p + 3] as nat
  }

  lemma Digits(n: nat)
    requires n < 0x1_0000_0000
    ensures n == n % 256 + 256 * (n / 256 % 256) + 0x1_0000 * (n / 0x1_0000 % 256) + 0x100_0000 * (n / 0x100_0000 % 256)
  {
    assert n / 0x1_0000 == n / 256 / 256 && n / 0x100_0000 == n / 256 / 256 / 256;
  }

  lemma Fixed32RoundTrip(n: nat, rest: Bytes)
    requires n < TWO_32
    ensures DecodeFixed32(EncodeFixed32(n) + rest) == n
  {
    var r := EncodeFixed32(n) + rest;
    assert r[0] == Low(n) && r[1] == Low(n / 256) && r[2] == Low(n / 0x1_0000) && r[3] == Low(n / 0x100_0000);
    Digits(n);
  }

  const kMaskDelta: nat := 0xa282ead8

  /** Mask: rotate right by 15 bits and add a constant, modulo 2^32. */
  function Mask(crc: nat): (m: nat)
    requires crc < TWO_32
    ensures m < TWO_32
  {
    (crc / 0x8000 + (crc % 0x8000) * 0x2_0000 + kMaskDelta) % TWO_32
  }

  /** Unmask: subtract the constant and rotate left by 15 bits. */
  function Unmask(m: nat): (crc: nat)
    requires m < TWO_32
    ensures crc < TWO_32
  {
    var rot := (m + TWO_32 - kMaskDelta) % TWO_32;
    rot / 0x2_0000 + (rot % 0x2_0000) * 0x8000
  }

  lemma UnmaskMask(crc: nat)
    requires crc < TWO_32
    ensures Unmask(Mask(crc)) == crc
  {
    var a, b := crc / 0x8000, crc % 0x8000;
    assert crc == a * 0x8000 + b && a < 0x2_0000;
    ShiftBack(a + b * 0x2_0000);
    SplitRotated(a, b);
  }

  lemma ShiftBack(rot: nat)
    requires rot < TWO_32
    ensures ((rot + kMaskDelta) % TWO_32 + TWO_32 - kMaskDelta) % TWO_32 == rot
  {
    if rot + kMaskDelta < TWO_32 {
      assert (rot + kMaskDelta) % TWO_32 == rot + kMaskDelta;
    } else {
      assert (rot + kMaskDelta) % TWO_32 == rot + kMaskDelta - TWO_32;
    }
  }

  lemma SplitRotated(a: nat, b: nat)
    requires a < 0x2_0000
    ensures (a + b * 0x2_0000) / 0x2_0000 == b && (a + b * 0x2_0000) % 0x2_0000 == a
  {
  }

  /** Every stored number is the mask of one checksum. */
  lemma MaskUnmask(m: nat)
    requires m < TWO_32
    ensures Mask(Unmask(m)) == m
  {
    var rot := (m + TWO_32 - kMaskDelta) % TWO_32;
    var a, b := rot % 0x2_0000, rot / 0x2_0000;
    assert rot == a + b * 0x2_0000 && b < 0x8000;
    SplitBack(a, b);
    AddBack(m);
  }

  lemma SplitBack(a: nat, b: nat)
    requires a < 0x2_0000 && b < 0x8000
    ensures (b + a * 0x8000) / 0x8000 == a && (b + a * 0x8000) % 0x8000 == b
  {
  }

  lemma AddBack(m: nat)
    requires m < TWO_32
    ensures ((m + TWO_32 - kMaskDelta) % TWO_32 + kMaskDelta) % TWO_32 == m
  {
    if m >= kMaskDelta {
      assert (m + TWO_32 - kMaskDelta) % TWO_32 == m - kMaskDelta;
    } else {
      assert (m + TWO_32 - kMaskDelta) % TWO_32 == m + TWO_32 - kMaskDelta;
    }
  }

  /** Four bytes are the encoding of the number they hold. */
  lemma Fixed32Encodes(b: Bytes)
    requires |b| == 4
    ensures EncodeFixed32(DecodeFixed32(b)) == b
  {
    FourDigits(b[0] as nat, b[1] as nat, b[2] as nat, b[3] as nat);
  }

  lemma FourDigits(a: nat, b: nat, c: nat, d: nat)
    requires a < 256 && b < 256 && c < 256 && d < 256
    ensures var n := a + 256 * b + 0x1_0000 * c + 0x100_0000 * d;
      n % 256 == a && n / 256 % 256 == b && n / 0x1_0000 % 256 == c && n / 0x100_0000 % 256 == d
  {
    var n := a + 256 * b + 0x1_0000 * c + 0x100_0000 * d;
    assert n / 256 == b + 256 * c + 0x1_0000 * d;
    assert n / 0x1_0000 == c + 256 * d;
    assert n / 0x100_0000 == d;
  }

  // ---------------------------------------------------------------------
  // Strings put together from pieces
  // ---------------------------------------------------------------------

  function Each<T>(encode: T -> Bytes, xs: seq<T>): (r: seq<Bytes>)
    ensures |r| == |xs|
  {
    seq(|xs|, i requires 0 <= i < |xs| => encode(xs[i]))
  }

  lemma EachConcat<T>(encode: T -> Bytes, xs: seq<T>, ys: seq<T>)
    ensures Flat(Each(encode, xs + ys)) == Flat(Each(encode, xs)) + Flat(Each(encode, ys))
  {
    assert Each(encode, xs + ys) == Each(encode, xs) + Each(encode, ys);
    FlatConcat(Each(encode, xs), Each(encode, ys));
  }

  lemma EachHead<T>(encode: T -> Bytes, xs: seq<T>)
    requires xs != []
    ensures Flat(Each(encode, xs)) == encode(xs[0]) + Flat(Each(encode, xs[1..]))
  {
    FlatHead(Each(encode, xs));
    assert Each(encode, xs)[1..] == Each(encode, xs[1..]);
  }

  /** Appends the encodings one after another. */
  method AppendEach<T>(dst: Bytes, encode: T -> Bytes, xs: seq<T>) returns (r: Bytes)
    ensures r == dst + Flat(Each(encode, xs))
  {
    ghost var pieces := Each(encode, xs);
    r := dst;
    for i := 0 to |xs|
      invariant r == dst + Flat(pieces[..i])
    {
      FlatStep(pieces, i);
      r := r + encode(xs[i]);
    }
    assert pieces[..|pieces|] == pieces;
  }
}
