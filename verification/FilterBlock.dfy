/** The filter block of a table, one filter for each 2KB of block offsets: table/filter_block.cc. */
module FilterBlock {
  import opened Keys
  import opened Sequences
  import opened Coding
  import BlockFormat
  import Bloom
  import Varint

  const kFilterBaseLg: nat := 11

  /** The number of the filter for a block at this offset. */
  function IndexOf(offset: nat): nat {
    offset / 2048
  }

  /** The piece of the flattened keys between two starts is a key. */
  lemma PieceIsKey(keys: seq<Bytes>, i: nat)
    requires i < |keys|
    ensures |Flat(keys[..i])| <= |Flat(keys[..i + 1])| <= |Flat(keys)|
    ensures Flat(keys)[|Flat(keys[..i])|..|Flat(keys[..i + 1])|] == keys[i]
  {
    FlatStep(keys, i);
    FlatPrefix(keys, i + 1);
    var whole, part := Flat(keys), Flat(keys[..i + 1]);
    assert whole[..|part|] == part;
    assert whole[|Flat(keys[..i])|..|part|] == part[|Flat(keys[..i])|..];
  }

  /** Where filter `i` ends: where the next one starts. */
  function EndOf(offsets: seq<nat>, size: nat, i: nat): nat
    requires i < |offsets|
  {
    if i + 1 < |offsets| then offsets[i + 1] else size
  }

  /** How filters are made: the hash, the bits for a key, and the probes. */
  datatype Policy = Policy(hash: Bloom.Hash, bitsPerKey: nat, k: nat)

  /** The filter of a list of keys; nothing for none. */
  ghost predicate FilterFor(policy: Policy, keys: seq<Bytes>, filter: Bytes) {
    if keys == [] then filter == [] else Bloom.IsFilter(policy.hash, policy.bitsPerKey, policy.k, keys, filter)
  }

  /** Filter `i` is the one of its keys. */
  ghost predicate Filters(policy: Policy, result: Bytes, offsets: seq<nat>, i: nat, keys: seq<Bytes>) {
    && i < |offsets| && offsets[i] <= EndOf(offsets, |result|, i) <= |result|
    && FilterFor(policy, keys, result[offsets[i]..EndOf(offsets, |result|, i)])
  }

  ghost predicate AllFilter(policy: Policy, result: Bytes, offsets: seq<nat>, groups: seq<seq<Bytes>>) {
    |offsets| == |groups| && forall i :: 0 <= i < |groups| ==> Filters(policy, result, offsets, i, groups[i])
  }

  /** One more filter, which ends the one before. */
  lemma FilterAdded(policy: Policy, result: Bytes, more: Bytes, offsets: seq<nat>, groups: seq<seq<Bytes>>, keys: seq<Bytes>)
    requires AllFilter(policy, result, offsets, groups) && result <= more && FilterFor(policy, keys, more[|result|..])
    ensures AllFilter(policy, more, offsets + [|result|], groups + [keys])
  {
    var ends := offsets + [|result|];
    forall i | 0 <= i < |groups| + 1 ensures Filters(policy, more, ends, i, (groups + [keys])[i]) {
      if i < |groups| {
        assert Filters(policy, result, offsets, i, groups[i]);
        assert EndOf(ends, |more|, i) == EndOf(offsets, |result|, i);
        assert more[offsets[i]..EndOf(offsets, |result|, i)] == result[offsets[i]..EndOf(offsets, |result|, i)];
      } else {
        assert more[|result|..|more|] == more[|result|..];
      }
    }
  }

  // ---------------------------------------------------------------------
  // The builder
  // ---------------------------------------------------------------------

  class FilterBlockBuilder {
    const policy: Policy
    var keys: Bytes
    var start: seq<nat>
    var result: Bytes
    var filterOffsets: seq<nat>
    /** The keys of each filter, those waiting for the next, and every key with the offset of its block. */
    ghost var groups: seq<seq<Bytes>>
    ghost var pending: seq<Bytes>
    ghost var placed: set<(nat, Bytes)>
    ghost var blockOffset: nat

    constructor (policy: Policy)
      requires Bloom.ProbeCount(policy.k)
      ensures Valid() && placed == {} && blockOffset == 0 && this.policy == policy
    {
      this.policy := policy;
      keys, start, result, filterOffsets := [], [], [], [];
      groups, pending, placed, blockOffset := [], [], {}, 0;
    }

    ghost predicate Repr()
      reads this
    {
      && Bloom.ProbeCount(policy.k) && AllFilter(policy, result, filterOffsets, groups)
      && keys == Flat(pending) && |start| == |pending|
      && forall i :: 0 <= i < |start| ==> start[i] == |Flat(pending[..i])|
    }

    /** Every key is in the filter of its block, or waits to be, and the filters have no others. */
    ghost predicate Covers()
      reads this
    {
      Sorted(placed, groups + [pending])
    }

    ghost predicate Valid()
      reads this
    {
      Repr() && Covers() && IndexOf(blockOffset) == |groups|
    }

    method StartBlock(offset: nat)
      requires Valid() && IndexOf(offset) >= |filterOffsets|
      modifies this
      ensures Valid() && blockOffset == offset && placed == old(placed)
    {
      var filterIndex := IndexOf(offset);
      while filterIndex > |filterOffsets|
        invariant Repr() && Covers() && |filterOffsets| <= filterIndex && placed == old(placed)
        decreases filterIndex - |filterOffsets|
      {
        GenerateFilter();
      }
      blockOffset := offset;
    }

    method AddKey(key: Bytes)
      requires Valid()
      modifies this
      ensures Valid() && placed == old(placed) + {(blockOffset, key)} && blockOffset == old(blockOffset)
    {
      assert pending[..|pending|] == pending;
      KeysAppend(pending, key);
      SortedKey(placed, groups, pending, blockOffset, key);
      start := start + [|keys|];
      keys := keys + key;
      pending := pending + [key];
      placed := placed + {(blockOffset, key)};
    }

    method GenerateFilter()
      requires Repr() && Covers()
      modifies this
      ensures Repr() && Covers() && placed == old(placed) && |filterOffsets| == |old(filterOffsets)| + 1 && pending == []
    {
      var numKeys := |start|;
      ghost var before := result;
      filterOffsets := filterOffsets + [|result|];
      if numKeys > 0 {
        var tmpKeys := ListKeys(keys, start, pending);
        result := Bloom.CreateFilter(policy.hash, policy.bitsPerKey, policy.k, tmpKeys, result);
      }
      FilterAdded(policy, before, result, old(filterOffsets), groups, pending);
      SortedEmpty(placed, groups + [pending]);
      groups := groups + [pending];
      pending := [];
      keys, start := [], [];
    }

    method Finish() returns (block: Bytes)
      requires Valid()
      modifies this
      ensures IsFilterBlock(policy, block, result, filterOffsets, groups) && placed == old(placed)
      ensures Sorted(placed, groups)
      ensures |groups| == IndexOf(old(blockOffset)) + if old(start) == [] then 0 else 1
    {
      if start != [] {
        GenerateFilter();
      }
      assert pending == [];
      SortedEmpty(placed, groups);
      block := BlockFormat.AppendFixed32s(result, Wrapped(filterOffsets));
      block := block + EncodeFixed32(Bloom.Wrap(|result|));
      block := block + [kFilterBaseLg as byte];
    }
  }

  /** Each list holds exactly the keys filed under its number. */
  ghost predicate Sorted(placed: set<(nat, Bytes)>, groups: seq<seq<Bytes>>) {
    && (forall p :: p in placed ==> IndexOf(p.0) < |groups| && p.1 in groups[IndexOf(p.0)])
    && forall i, key :: 0 <= i < |groups| && key in groups[i] ==> FiledAt(placed, i, key)
  }

  ghost predicate FiledAt(placed: set<(nat, Bytes)>, i: nat, key: Bytes) {
    exists offset: nat :: IndexOf(offset) == i && (offset, key) in placed
  }

  lemma SortedKey(placed: set<(nat, Bytes)>, groups: seq<seq<Bytes>>, pending: seq<Bytes>, offset: nat, key: Bytes)
    requires Sorted(placed, groups + [pending]) && IndexOf(offset) == |groups|
    ensures Sorted(placed + {(offset, key)}, groups + [pending + [key]])
  {
    var before, after := groups + [pending], groups + [pending + [key]];
    forall i, x | 0 <= i < |after| && x in after[i] ensures FiledAt(placed + {(offset, key)}, i, x) {
      if x in before[i] {
        assert FiledAt(placed, i, x);
      } else {
        assert (offset, key) in placed + {(offset, key)};
      }
    }
  }

  lemma SortedEmpty(placed: set<(nat, Bytes)>, groups: seq<seq<Bytes>>)
    ensures Sorted(placed, groups + [[]]) <==> Sorted(placed, groups)
  {
    var more := groups + [[]];
    assert forall i :: 0 <= i < |groups| ==> more[i] == groups[i];
  }

  /** PutFixed32 keeps the low 32 bits. */
  function Wrapped(ns: seq<nat>): (r: seq<nat>)
    ensures |r| == |ns| && BlockFormat.All32(r)
    ensures forall i {:trigger r[i]} :: 0 <= i < |r| ==> r[i] == Bloom.Wrap(ns[i])
  {
    seq(|ns|, i requires 0 <= i < |ns| => Bloom.Wrap(ns[i]))
  }

  /** The filters, their offsets, where the offsets start, and the base. */
  ghost predicate IsFilterBlock(policy: Policy, block: Bytes, result: Bytes, offsets: seq<nat>, groups: seq<seq<Bytes>>) {
    && AllFilter(policy, result, offsets, groups)
    && block == result + BlockFormat.Fixed32s(Wrapped(offsets)) + EncodeFixed32(Bloom.Wrap(|result|)) + [kFilterBaseLg as byte]
  }

  lemma KeysAppend(pending: seq<Bytes>, key: Bytes)
    ensures Flat(pending + [key]) == Flat(pending) + key
    ensures forall i :: 0 <= i <= |pending| ==> (pending + [key])[..i] == pending[..i]
  {
    assert (pending + [key])[..|pending|] == pending;
  }

  /** The list of keys out of the flattened structure. */
  method ListKeys(keys: Bytes, start: seq<nat>, ghost pending: seq<Bytes>) returns (tmpKeys: seq<Bytes>)
    requires keys == Flat(pending) && |start| == |pending|
    requires forall i :: 0 <= i < |start| ==> start[i] == |Flat(pending[..i])|
    ensures tmpKeys == pending
  {
    var ends := start + [|keys|];
    assert pending[..|pending|] == pending;
    tmpKeys := [];
    for i := 0 to |start|
      invariant tmpKeys == pending[..i]
    {
      PieceIsKey(pending, i);
      assert ends[i] == |Flat(pending[..i])| && ends[i + 1] == |Flat(pending[..i + 1])|;
      tmpKeys := tmpKeys + [keys[ends[i]..ends[i + 1]]];
    }
  }

  // ---------------------------------------------------------------------
  // The reader
  // ---------------------------------------------------------------------

  function ShiftRight(x: nat, n: nat): nat {
    if n == 0 then x else ShiftRight(x / 2, n - 1)
  }

  lemma {:induction false} ShiftByBase(x: nat)
    ensures ShiftRight(x, kFilterBaseLg) == IndexOf(x)
  {
    assert ShiftRight(x, 11) == ShiftRight(x / 2 / 2, 9) == ShiftRight(x / 2 / 2 / 2 / 2, 7);
    var y := x / 16;
    assert ShiftRight(y, 7) == ShiftRight(y / 2 / 2, 5) == ShiftRight(y / 2 / 2 / 2 / 2, 3);
    var z := y / 16;
    assert ShiftRight(z, 3) == ShiftRight(z / 2 / 2, 1) == z / 2 / 2 / 2;
  }

  /** Whether the key may be in the block at this offset; anything that cannot be read counts as yes. */
  predicate KeyMayMatch(hash: Bloom.Hash, contents: Bytes, blockOffset: nat, key: Bytes) {
    var n := |contents|;
    n < 5 ||
    var offsets := Load32(contents, n - 5);
    offsets > n - 5 ||
    var index := ShiftRight(blockOffset, contents[n - 1] as nat);
    index >= (n - 5 - offsets) / 4 ||
    var start := Load32(contents, offsets + 4 * index);
    var limit := Load32(contents, offsets + 4 * index + 4);
    if start <= limit && limit <= offsets then Bloom.MayMatch(hash, key, contents[start..limit]) else start != limit
  }

  lemma {:induction false} NumbersRead(b: Bytes, p: nat, ns: seq<nat>, j: nat)
    requires BlockFormat.All32(ns) && Varint.HasAt(b, p, BlockFormat.Fixed32s(ns)) && j < |ns|
    ensures p + 4 * j + 4 <= |b| && Load32(b, p + 4 * j) == ns[j]
  {
    var init, last := ns[..|ns| - 1], ns[|ns| - 1];
    var q := Varint.HasParts(b, p, BlockFormat.Fixed32s(init), EncodeFixed32(last));
    if j < |init| {
      NumbersRead(b, p, init, j);
    } else {
      Varint.Fixed32Read(b, q, last);
    }
  }

  lemma FourParts(block: Bytes, a: Bytes, b: Bytes, c: Bytes, d: byte, p: nat, q: nat)
    requires block == a + b + c + [d] && p == |a| && q == p + |b|
    ensures Varint.HasAt(block, p, b) && Varint.HasAt(block, q, c) && |block| == q + |c| + 1 && block[q + |c|] == d
  {
    assert forall k :: 0 <= k < |b| ==> block[p + k] == b[k];
    assert forall k :: 0 <= k < |c| ==> block[q + k] == c[k];
  }

  /** Offset `i` of the filter block and the place of the offsets, read back. */
  lemma OffsetsRead(block: Bytes, result: Bytes, offsets: seq<nat>, p: nat, n: nat)
    requires |block| < TWO_32 && p == |result| && n == p + 4 * |offsets|
    requires block == result + BlockFormat.Fixed32s(Wrapped(offsets)) + EncodeFixed32(Bloom.Wrap(|result|)) + [kFilterBaseLg as byte]
    ensures |block| == n + 5 && block[n + 4] == kFilterBaseLg as byte && Load32(block, n) == p
    ensures forall i :: 0 <= i < |offsets| ==> OffsetRead(block, p, offsets, i)
  {
    var ns := Wrapped(offsets);
    FourParts(block, result, BlockFormat.Fixed32s(ns), EncodeFixed32(Bloom.Wrap(p)), kFilterBaseLg as byte, p, n);
    Varint.Fixed32Read(block, n, Bloom.Wrap(p));
    forall i | 0 <= i < |offsets| ensures OffsetRead(block, p, offsets, i) {
      NumbersRead(block, p, ns, i);
      assert ns[i] == Bloom.Wrap(offsets[i]);
    }
  }

  ghost predicate OffsetRead(block: Bytes, p: nat, offsets: seq<nat>, i: nat) {
    i < |offsets| && p + 4 * i + 4 <= |block| && Load32(block, p + 4 * i) == Bloom.Wrap(offsets[i])
  }

  /** Asked about a block, the filter block answers as the filter of the block does. */
  lemma AnswersExactly(policy: Policy, block: Bytes, result: Bytes, offsets: seq<nat>, groups: seq<seq<Bytes>>, offset: nat, key: Bytes)
    requires IsFilterBlock(policy, block, result, offsets, groups) && |block| < TWO_32 && IndexOf(offset) < |groups|
    ensures var i := IndexOf(offset);
      && offsets[i] <= EndOf(offsets, |result|, i) <= |result|
      && KeyMayMatch(policy.hash, block, offset, key) ==
         Bloom.MayMatch(policy.hash, key, result[offsets[i]..EndOf(offsets, |result|, i)])
  {
    var i, p := IndexOf(offset), |result|;
    var start, limit := offsets[i], EndOf(offsets, p, i);
    assert Filters(policy, result, offsets, i, groups[i]);
    OffsetsRead(block, result, offsets, p, p + 4 * |offsets|);
    LimitRead(block, p, offsets, i, start, limit);
    ShiftByBase(offset);
    SameSlice(block, result, start, limit);
    FilterFound(policy.hash, block, offset, key, p, i, start, limit);
  }

  /** So it says yes for every key of the block. */
  lemma NeverRejects(policy: Policy, block: Bytes, result: Bytes, offsets: seq<nat>, groups: seq<seq<Bytes>>, offset: nat, key: Bytes)
    requires IsFilterBlock(policy, block, result, offsets, groups) && |block| < TWO_32
    requires IndexOf(offset) < |groups| && key in groups[IndexOf(offset)]
    ensures KeyMayMatch(policy.hash, block, offset, key)
  {
    var i := IndexOf(offset);
    AnswersExactly(policy, block, result, offsets, groups, offset, key);
    assert Filters(policy, result, offsets, i, groups[i]);
    Bloom.KeysMatch(policy.hash, policy.bitsPerKey, policy.k, groups[i], result[offsets[i]..EndOf(offsets, |result|, i)]);
  }

  /** And no for every key of a block in whose range no keys were added. */
  lemma EmptyRejects(policy: Policy, block: Bytes, result: Bytes, offsets: seq<nat>, groups: seq<seq<Bytes>>, offset: nat, key: Bytes)
    requires IsFilterBlock(policy, block, result, offsets, groups) && |block| < TWO_32
    requires IndexOf(offset) < |groups| && groups[IndexOf(offset)] == []
    ensures !KeyMayMatch(policy.hash, block, offset, key)
  {
    var i := IndexOf(offset);
    AnswersExactly(policy, block, result, offsets, groups, offset, key);
    assert Filters(policy, result, offsets, i, groups[i]);
  }

  lemma LimitRead(block: Bytes, p: nat, offsets: seq<nat>, i: nat, start: nat, limit: nat)
    requires i < |offsets| && start == offsets[i] <= limit == EndOf(offsets, p, i) <= p < TWO_32
    requires |block| == p + 4 * |offsets| + 5 && Load32(block, p + 4 * |offsets|) == p
    requires forall j :: 0 <= j < |offsets| ==> OffsetRead(block, p, offsets, j)
    ensures Load32(block, p + 4 * i) == start && Load32(block, p + 4 * i + 4) == limit
  {
    assert OffsetRead(block, p, offsets, i);
    if i + 1 < |offsets| {
      assert OffsetRead(block, p, offsets, i + 1);
    } else {
      assert p + 4 * i + 4 == p + 4 * |offsets|;
    }
  }

  lemma SameSlice(block: Bytes, result: Bytes, i: nat, j: nat)
    requires result <= block && i <= j <= |result|
    ensures block[i..j] == result[i..j]
  {
  }

  lemma FilterFound(hash: Bloom.Hash, contents: Bytes, blockOffset: nat, key: Bytes, offsets: nat, index: nat, start: nat, limit: nat)
    requires |contents| >= 5 && Load32(contents, |contents| - 5) == offsets <= |contents| - 5
    requires ShiftRight(blockOffset, contents[|contents| - 1] as nat) == index < (|contents| - 5 - offsets) / 4
    requires Load32(contents, offsets + 4 * index) == start && Load32(contents, offsets + 4 * index + 4) == limit
    requires start <= limit <= offsets
    ensures KeyMayMatch(hash, contents, blockOffset, key) == Bloom.MayMatch(hash, key, contents[start..limit])
  {
  }
}
