/** Bloom filters: util/bloom.cc:28-80. The hash function is a parameter; nothing is assumed of it. */
module Bloom {
  import opened Keys
  import opened Coding

  type Hash = Bytes -> nat

  // ---------------------------------------------------------------------
  // Bits
  // ---------------------------------------------------------------------

  function Power2(n: nat): nat {
    if n == 0 then 1 else 2 * Power2(n - 1)
  }

  /** b & (1 << i) */
  predicate TestBit(b: nat, i: nat) {
    if i == 0 then b % 2 == 1 else TestBit(b / 2, i - 1)
  }

  /** b | (1 << i) */
  function SetBit(b: nat, i: nat, width: nat): (r: nat)
    requires i < width && b < Power2(width)
    ensures r < Power2(width)
    decreases width
  {
    assert b / 2 < Power2(width - 1);
    if i == 0 then b / 2 * 2 + 1 else SetBit(b / 2, i - 1, width - 1) * 2 + b % 2
  }

  lemma {:induction false} SetThenTest(b: nat, i: nat, width: nat, j: nat)
    requires i < width && b < Power2(width)
    ensures TestBit(SetBit(b, i, width), j) <==> i == j || TestBit(b, j)
    decreases width
  {
    if i > 0 && j > 0 {
      SetThenTest(b / 2, i - 1, width - 1, j - 1);
    }
  }

  /** Bit `pos` of an array of bytes. */
  predicate HasBit(bits: Bytes, pos: nat) {
    pos / 8 < |bits| && TestBit(bits[pos / 8] as nat, pos % 8)
  }

  function WithBit(bits: Bytes, pos: nat): (r: Bytes)
    requires pos < 8 * |bits|
    ensures |r| == |bits|
  {
    assert Power2(8) == 256;
    bits[pos / 8 := SetBit(bits[pos / 8] as nat, pos % 8, 8) as byte]
  }

  lemma WithBitHas(bits: Bytes, pos: nat, other: nat)
    requires pos < 8 * |bits|
    ensures HasBit(WithBit(bits, pos), other) <==> other == pos || HasBit(bits, other)
  {
    assert Power2(8) == 256;
    SetThenTest(bits[pos / 8] as nat, pos % 8, 8, other % 8);
  }

  // ---------------------------------------------------------------------
  // Probes
  // ---------------------------------------------------------------------

  function Wrap(h: nat): (r: nat)
    ensures r < TWO_32
  {
    h % 0x1_0000_0000
  }

  /** The hash rotated right by 17 bits. */
  function Delta(h: nat): nat {
    Wrap(h / 0x2_0000 + h * 0x8000)
  }

  /** Bit `i` of the delta is bit `i + 17` of the hash, around the end. */
  lemma DeltaRotates(h: nat, i: nat)
    requires h < TWO_32 && i < 32
    ensures TestBit(Delta(h), i) <==> TestBit(h, if i < 15 then i + 17 else i - 15)
  {
    var high, low := h / 0x2_0000, h % 0x2_0000;
    Rotated(h);
    if i < 15 {
      LowBitRotates(h, high, low, i);
    } else {
      HighBitRotates(h, high, low, i - 15);
    }
  }

  lemma LowBitRotates(h: nat, high: nat, low: nat, i: nat)
    requires i < 15 && Delta(h) == high + low * Power2(15) && h == low + high * Power2(17) && low < Power2(17)
    ensures TestBit(Delta(h), i) <==> TestBit(h, i + 17)
  {
    BitBelow(high, low, 15, i);
    BitAbove(low, high, 17, i);
  }

  lemma HighBitRotates(h: nat, high: nat, low: nat, i: nat)
    requires i < 17 && Delta(h) == high + low * Power2(15) && h == low + high * Power2(17) && high < Power2(15)
    ensures TestBit(Delta(h), i + 15) <==> TestBit(h, i)
  {
    BitAbove(high, low, 15, i);
    BitBelow(low, high, 17, i);
  }

  /** The high part below, the low part above. */
  lemma Rotated(h: nat)
    requires h < TWO_32
    ensures Delta(h) == h / 0x2_0000 + h % 0x2_0000 * Power2(15) && h / 0x2_0000 < Power2(15)
    ensures h == h % 0x2_0000 + h / 0x2_0000 * Power2(17) && h % 0x2_0000 < Power2(17)
  {
    assert Power2(5) == 32 && Power2(10) == 1024 && Power2(15) == 0x8000 && Power2(17) == 0x2_0000;
    var high, low := h / 0x2_0000, h % 0x2_0000;
    assert h * 0x8000 == high * 0x1_0000_0000 + low * 0x8000;
    Multiples(high + low * 0x8000, high);
  }

  lemma {:induction false} BitBelow(a: nat, b: nat, n: nat, i: nat)
    requires i < n
    ensures TestBit(a + b * Power2(n), i) <==> TestBit(a, i)
    decreases n
  {
    var rest := b * Power2(n - 1);
    assert b * Power2(n) == 2 * rest;
    if i > 0 {
      assert (a + 2 * rest) / 2 == a / 2 + rest;
      BitBelow(a / 2, b, n - 1, i - 1);
    }
  }

  lemma {:induction false} BitAbove(a: nat, b: nat, n: nat, i: nat)
    requires a < Power2(n)
    ensures TestBit(a + b * Power2(n), n + i) <==> TestBit(b, i)
    decreases n
  {
    if n > 0 {
      var rest := b * Power2(n - 1);
      assert b * Power2(n) == 2 * rest;
      assert (a + 2 * rest) / 2 == a / 2 + rest;
      BitAbove(a / 2, b, n - 1, i);
    }
  }

  /** The hash value at probe `j`. */
  function Probe(h: nat, delta: nat, j: nat): nat {
    if j == 0 then h else Wrap(Probe(h, delta, j - 1) + delta)
  }

  function Position(h: nat, bits: nat): (r: nat)
    requires bits > 0
    ensures r < bits
  {
    h % bits
  }

  /** All probes of a hash are set. */
  predicate AllSet(bits: Bytes, h: nat, k: nat)
    requires |bits| > 0
  {
    forall j :: 0 <= j < k ==> HasBit(bits, Position(Probe(h, Delta(h), j), 8 * |bits|))
  }

  /** One of the first `k` probes of a hash. */
  predicate Probes(h: nat, k: nat, bits: nat, pos: nat)
    requires bits > 0
  {
    exists j: nat :: j < k && pos == Position(Probe(h, Delta(h), j), bits)
  }

  /** The probes of a hash are set besides what was set before, and nothing else. */
  ghost predicate Adds(before: Bytes, after: Bytes, h: nat, k: nat) {
    |before| == |after| > 0 && forall pos: nat :: HasBit(after, pos) <==> HasBit(before, pos) || Probes(h, k, 8 * |before|, pos)
  }

  /** Probe `j` lies `j` steps behind the first. */
  lemma {:induction false} ProbeIs(h: nat, delta: nat, j: nat)
    requires h < TWO_32
    ensures Probe(h, delta, j) == Wrap(h + Steps(j, delta))
  {
    if j > 0 {
      ProbeIs(h, delta, j - 1);
      OneStep(j, delta);
      WrapAdds(h + Steps(j - 1, delta), delta);
    }
  }

  function Steps(j: nat, delta: nat): nat {
    j * delta
  }

  lemma OneStep(j: nat, delta: nat)
    requires j > 0
    ensures Steps(j, delta) == Steps(j - 1, delta) + delta
  {
  }

  lemma WrapAdds(a: nat, b: nat)
    ensures Wrap(Wrap(a) + b) == Wrap(a + b)
  {
    assert a == a / 0x1_0000_0000 * 0x1_0000_0000 + a % 0x1_0000_0000;
    Multiples(a % 0x1_0000_0000 + b, a / 0x1_0000_0000);
  }

  lemma {:induction false} Multiples(n: nat, q: nat)
    ensures (n + q * 0x1_0000_0000) % 0x1_0000_0000 == n % 0x1_0000_0000
  {
    if q > 0 {
      Multiples(n, q - 1);
      assert n + q * 0x1_0000_0000 == n + (q - 1) * 0x1_0000_0000 + 0x1_0000_0000;
      OneTurn(n + (q - 1) * 0x1_0000_0000);
    }
  }

  lemma OneTurn(n: nat)
    ensures (n + 0x1_0000_0000) % 0x1_0000_0000 == n % 0x1_0000_0000
  {
  }

  // ---------------------------------------------------------------------
  // The policy
  // ---------------------------------------------------------------------

  /** Between 1 and 30 probes, about 0.69 for each bit a key gets. */
  predicate ProbeCount(k: nat) {
    1 <= k <= 30
  }

  function KeyHash(hash: Hash, key: Bytes): nat {
    Wrap(hash(key))
  }

  /** How many bytes of bits a filter has: at least 64 bits, whole bytes. */
  function FilterBytes(bitsPerKey: nat, keys: nat): (n: nat)
    ensures n >= 8
  {
    var bits := keys * bitsPerKey;
    ((if bits < 64 then 64 else bits) + 7) / 8
  }

  /** Exactly the probes of the keys are set. */
  ghost predicate HoldsKeys(hash: Hash, k: nat, keys: seq<Bytes>, bits: Bytes)
    requires |bits| > 0
  {
    forall pos: nat :: HasBit(bits, pos) <==> SomeProbe(hash, k, keys, 8 * |bits|, pos)
  }

  predicate SomeProbe(hash: Hash, k: nat, keys: seq<Bytes>, bits: nat, pos: nat)
    requires bits > 0
  {
    exists n :: 0 <= n < |keys| && Probes(KeyHash(hash, keys[n]), k, bits, pos)
  }

  /** The filter of a list of keys: its bits, and the number of probes. */
  ghost predicate IsFilter(hash: Hash, bitsPerKey: nat, k: nat, keys: seq<Bytes>, filter: Bytes) {
    && |filter| == FilterBytes(bitsPerKey, |keys|) + 1 && filter[|filter| - 1] as nat == k
    && HoldsKeys(hash, k, keys, filter[..|filter| - 1])
  }

  /** Appends a filter for the keys. */
  method CreateFilter(hash: Hash, bitsPerKey: nat, k: nat, keys: seq<Bytes>, dst: Bytes) returns (r: Bytes)
    requires ProbeCount(k)
    ensures dst <= r && IsFilter(hash, bitsPerKey, k, keys, r[|dst|..])
  {
    var bits := |keys| * bitsPerKey;
    if bits < 64 {
      bits := 64;
    }
    var bytes := (bits + 7) / 8;
    var filter := seq(bytes, _ => 0 as byte);
    NoBits(filter, hash, k);
    for i := 0 to |keys|
      invariant |filter| == bytes && HoldsKeys(hash, k, keys[..i], filter)
    {
      var next := SetProbes(filter, KeyHash(hash, keys[i]), k);
      OneMoreKey(hash, k, keys, i, filter, next);
      filter := next;
    }
    r := dst + filter + [k as byte];
    assert keys[..|keys|] == keys;
    assert r[|dst|..] == filter + [k as byte];
    assert r[|dst|..][..bytes] == filter;
  }

  lemma NoBits(bits: Bytes, hash: Hash, k: nat)
    requires |bits| > 0 && forall i :: 0 <= i < |bits| ==> bits[i] == 0
    ensures HoldsKeys(hash, k, [], bits)
  {
    forall pos: nat ensures !HasBit(bits, pos) {
      ZeroHasNone(pos % 8);
    }
  }

  lemma {:induction false} ZeroHasNone(i: nat)
    ensures !TestBit(0, i)
  {
    if i > 0 { ZeroHasNone(i - 1); }
  }

  lemma OneMoreKey(hash: Hash, k: nat, keys: seq<Bytes>, i: nat, before: Bytes, after: Bytes)
    requires i < |keys| && |before| > 0 && HoldsKeys(hash, k, keys[..i], before) && Adds(before, after, KeyHash(hash, keys[i]), k)
    ensures HoldsKeys(hash, k, keys[..i + 1], after)
  {
    forall pos: nat ensures HasBit(after, pos) <==> SomeProbe(hash, k, keys[..i + 1], 8 * |after|, pos) {
      SomeProbeGrows(hash, k, keys, i, 8 * |after|, pos);
    }
  }

  lemma SomeProbeGrows(hash: Hash, k: nat, keys: seq<Bytes>, i: nat, bits: nat, pos: nat)
    requires i < |keys| && bits > 0
    ensures SomeProbe(hash, k, keys[..i + 1], bits, pos) <==>
            SomeProbe(hash, k, keys[..i], bits, pos) || Probes(KeyHash(hash, keys[i]), k, bits, pos)
  {
    assert forall n :: 0 <= n < i ==> keys[..i + 1][n] == keys[..i][n];
    assert keys[..i + 1][i] == keys[i];
  }

  /** Sets the bits of one key. */
  method SetProbes(bits: Bytes, hash: nat, k: nat) returns (r: Bytes)
    requires |bits| > 0
    ensures Adds(bits, r, hash, k)
  {
    r := bits;
    var h := hash;
    var delta := Delta(h);
    for j := 0 to k
      invariant h == Probe(hash, delta, j) && Adds(bits, r, hash, j)
    {
      var bitpos := Position(h, 8 * |bits|);
      OneMoreProbe(bits, r, hash, j, bitpos);
      r := WithBit(r, bitpos);
      h := Wrap(h + delta);
    }
  }

  lemma OneMoreProbe(bits: Bytes, r: Bytes, hash: nat, j: nat, bitpos: nat)
    requires Adds(bits, r, hash, j) && bitpos == Position(Probe(hash, Delta(hash), j), 8 * |bits|)
    ensures Adds(bits, WithBit(r, bitpos), hash, j + 1)
  {
    forall pos: nat ensures HasBit(WithBit(r, bitpos), pos) <==> HasBit(bits, pos) || Probes(hash, j + 1, 8 * |bits|, pos) {
      WithBitHas(r, bitpos, pos);
    }
  }

  /** So every key of the list matches. */
  lemma KeysMatch(hash: Hash, bitsPerKey: nat, k: nat, keys: seq<Bytes>, filter: Bytes)
    requires IsFilter(hash, bitsPerKey, k, keys, filter)
    ensures forall key :: key in keys ==> MayMatch(hash, key, filter)
  {
    var bits := filter[..|filter| - 1];
    forall key | key in keys ensures AllSet(bits, KeyHash(hash, key), k) {
      var n :| 0 <= n < |keys| && keys[n] == key;
      forall j | 0 <= j < k ensures HasBit(bits, Position(Probe(KeyHash(hash, key), Delta(KeyHash(hash, key)), j), 8 * |bits|)) {
        var pos := Position(Probe(KeyHash(hash, key), Delta(KeyHash(hash, key)), j), 8 * |bits|);
        assert Probes(KeyHash(hash, keys[n]), k, 8 * |bits|, pos);
      }
    }
  }

  /** What KeyMayMatch answers: no for a filter of fewer than two bytes, yes for unknown encodings. */
  predicate MayMatch(hash: Hash, key: Bytes, filter: Bytes) {
    |filter| >= 2 && (filter[|filter| - 1] > 30 || AllSet(filter[..|filter| - 1], KeyHash(hash, key), filter[|filter| - 1] as nat))
  }

  method KeyMayMatch(hash: Hash, key: Bytes, filter: Bytes) returns (r: bool)
    ensures r <==> MayMatch(hash, key, filter)
  {
    var len := |filter|;
    if len < 2 {
      return false;
    }
    var bits := filter[..len - 1];
    var k := filter[len - 1] as nat;
    if k > 30 {
      return true;
    }
    r := CheckProbes(bits, KeyHash(hash, key), k);
  }

  /** Whether all probes of a hash are set. */
  method CheckProbes(bits: Bytes, hash: nat, k: nat) returns (r: bool)
    requires |bits| > 0
    ensures r <==> AllSet(bits, hash, k)
  {
    var h := hash;
    var delta := Delta(h);
    for j := 0 to k
      invariant h == Probe(hash, delta, j) && AllSet(bits, hash, j)
    {
      var bitpos := Position(h, 8 * |bits|);
      if !HasBit(bits, bitpos) {
        return false;
      }
      h := Wrap(h + delta);
    }
    return true;
  }
}
