/** Prefix-compressed blocks and their builder: table/block_builder.cc. */
module BlockFormat {
  import opened Keys
  import opened Coding
  import Varint

  /** An entry, with how many bytes of its key are taken from the key before. */
  datatype Item = Item(key: Bytes, value: Bytes, shared: nat)

  /** The length of the common prefix. */
  function Common(a: Bytes, b: Bytes): (n: nat)
    ensures n <= |a| && n <= |b| && a[..n] == b[..n]
    ensures n < |a| && n < |b| ==> a[n] != b[n]
  {
    if a == [] || b == [] || a[0] != b[0] then 0
    else
      var n := Common(a[1..], b[1..]);
      assert a[..n + 1] == [a[0]] + a[1..][..n] && b[..n + 1] == [b[0]] + b[1..][..n];
      n + 1
  }

  lemma {:induction false} CommonIs(a: Bytes, b: Bytes, n: nat)
    requires n <= |a| && n <= |b| && a[..n] == b[..n] && (n < |a| && n < |b| ==> a[n] != b[n])
    ensures n == Common(a, b)
  {
    if n > 0 {
      assert a[0] == a[..n][0] == b[..n][0];
      assert a[1..][..n - 1] == a[..n][1..] && b[1..][..n - 1] == b[..n][1..];
      CommonIs(a[1..], b[1..], n - 1);
    }
  }

  function Encoded(it: Item): (r: Bytes)
    requires it.shared <= |it.key|
    ensures |r| >= 3
  {
    Varint.Encode(it.shared) + (Varint.Encode(|it.key| - it.shared) + (Varint.Encode(|it.value|)
      + (it.key[it.shared..] + it.value)))
  }

  predicate SharedFits(items: seq<Item>) {
    forall i :: 0 <= i < |items| ==> items[i].shared <= |items[i].key|
  }

  function Data(items: seq<Item>): Bytes
    requires SharedFits(items)
  {
    if items == [] then [] else Data(items[..|items| - 1]) + Encoded(items[|items| - 1])
  }

  /** Where entry `i` starts, and where the entries end. */
  function Offset(items: seq<Item>, i: nat): nat
    requires SharedFits(items) && i <= |items|
  {
    |Data(items[..i])|
  }

  lemma DataStep(items: seq<Item>, i: nat)
    requires SharedFits(items) && i < |items|
    ensures Data(items[..i + 1]) == Data(items[..i]) + Encoded(items[i])
    ensures Offset(items, i) + 3 <= Offset(items, i + 1)
  {
    assert items[..i + 1][..i] == items[..i];
  }

  lemma {:induction false} DataPrefix(items: seq<Item>, i: nat)
    requires SharedFits(items) && i <= |items|
    ensures Data(items[..i]) <= Data(items)
  {
    if i == |items| {
      assert items[..i] == items;
    } else {
      DataPrefix(items[..|items| - 1], i);
      assert items[..|items| - 1][..i] == items[..i];
    }
  }

  lemma {:induction false} OffsetsIncrease(items: seq<Item>, i: nat, j: nat)
    requires SharedFits(items) && i <= j <= |items|
    ensures Offset(items, i) <= Offset(items, j)
    ensures i < j ==> Offset(items, i) < Offset(items, j)
    decreases j
  {
    if i < j {
      DataStep(items, j - 1);
      OffsetsIncrease(items, i, j - 1);
    }
  }

  /** The shared part of an item agrees with the key before; the items at restart points share nothing. */
  ghost predicate WellFormed(items: seq<Item>, starts: seq<nat>) {
    && SharedFits(items)
    && (forall i :: 0 < i < |items| ==> SharesAt(items, i))
    && |starts| > 0 && starts[0] == 0
    && (items == [] ==> |starts| == 1)
    && (forall j :: 0 < j < |starts| ==> starts[j] < |items|)
    && (forall j :: 0 <= j < |starts| && starts[j] < |items| ==> items[starts[j]].shared == 0)
    && (forall j, k :: 0 <= j < k < |starts| ==> starts[j] < starts[k])
  }

  predicate SharesAt(items: seq<Item>, i: nat)
    requires 0 < i < |items|
  {
    SharesWith(items[i - 1].key, items[i])
  }

  predicate SharesWith(before: Bytes, it: Item) {
    it.shared <= |before| && it.shared <= |it.key| && before[..it.shared] == it.key[..it.shared]
  }

  predicate All32(ns: seq<nat>) {
    forall j :: 0 <= j < |ns| ==> ns[j] < TWO_32
  }

  function Fixed32s(ns: seq<nat>): (r: Bytes)
    requires All32(ns)
    ensures |r| == 4 * |ns|
  {
    if ns == [] then [] else Fixed32s(ns[..|ns| - 1]) + EncodeFixed32(ns[|ns| - 1])
  }

  lemma {:induction false} Fixed32At(ns: seq<nat>, j: nat, rest: Bytes)
    requires All32(ns) && j < |ns|
    ensures DecodeFixed32((Fixed32s(ns) + rest)[4 * j..]) == ns[j]
  {
    var init, last := Fixed32s(ns[..|ns| - 1]), EncodeFixed32(ns[|ns| - 1]);
    assert Fixed32s(ns) + rest == init + (last + rest);
    if j == |ns| - 1 {
      assert (init + (last + rest))[4 * j..] == last + rest;
      Fixed32RoundTrip(ns[j], rest);
    } else {
      Fixed32At(ns[..|ns| - 1], j, last + rest);
    }
  }

  function Points(items: seq<Item>, starts: seq<nat>): (r: seq<nat>)
    requires SharedFits(items) && forall j :: 0 <= j < |starts| ==> starts[j] <= |items|
    ensures |r| == |starts| && forall j {:trigger r[j]} :: 0 <= j < |r| ==> r[j] == Offset(items, starts[j])
  {
    seq(|starts|, j requires 0 <= j < |starts| => Offset(items, starts[j]))
  }

  /** The block of these entries: the data, the restart points and their number. */
  ghost predicate IsBlock(block: Bytes, items: seq<Item>, starts: seq<nat>) {
    && WellFormed(items, starts) && |block| < TWO_32
    && All32(Points(items, starts)) && |starts| < TWO_32
    && block == Data(items) + Fixed32s(Points(items, starts)) + EncodeFixed32(|starts|)
  }

  // ---------------------------------------------------------------------
  // How keys are shared
  // ---------------------------------------------------------------------

  function KeyBefore(items: seq<Item>): Bytes {
    if items == [] then [] else items[|items| - 1].key
  }

  /** Whether the next entry still shares with the one before. */
  predicate Shares(items: seq<Item>, starts: seq<nat>, interval: nat) {
    |starts| > 0 && |items| < starts[|starts| - 1] + interval
  }

  function NextItem(items: seq<Item>, starts: seq<nat>, interval: nat, key: Bytes, value: Bytes): (it: Item)
    ensures it.shared <= |key|
  {
    Item(key, value, if Shares(items, starts, interval) then Common(KeyBefore(items), key) else 0)
  }

  function NextStarts(items: seq<Item>, starts: seq<nat>, interval: nat): seq<nat> {
    if Shares(items, starts, interval) then starts else starts + [|items|]
  }

  /** The entries and restart points of a block with these keys and values. */
  function Packing(pairs: seq<(Bytes, Bytes)>, interval: nat): (r: (seq<Item>, seq<nat>))
    ensures |r.0| == |pairs| && SharedFits(r.0)
  {
    if pairs == [] then ([], [0])
    else
      var (items, starts) := Packing(pairs[..|pairs| - 1], interval);
      var (key, value) := pairs[|pairs| - 1];
      (items + [NextItem(items, starts, interval, key, value)], NextStarts(items, starts, interval))
  }

  /** How many bytes such a block has. */
  function BlockSize(pairs: seq<(Bytes, Bytes)>, interval: nat): nat {
    var (items, starts) := Packing(pairs, interval);
    |Data(items)| + 4 * |starts| + 4
  }

  // ---------------------------------------------------------------------
  // The builder
  // ---------------------------------------------------------------------

  class BlockBuilder {
    const interval: nat
    var buffer: Bytes
    var restarts: seq<nat>
    var counter: nat
    var finished: bool
    var lastKey: Bytes
    ghost var items: seq<Item>
    ghost var starts: seq<nat>

    constructor (interval: nat)
      requires interval >= 1
      ensures Valid() && !finished && items == [] && starts == [0] && this.interval == interval
    {
      this.interval := interval;
      buffer, restarts, counter, finished, lastKey := [], [0], 0, false, [];
      items, starts := [], [0];
    }

    method Reset()
      requires interval >= 1
      modifies this
      ensures Valid() && !finished && items == [] && starts == [0]
    {
      buffer, restarts, counter, finished, lastKey := [], [0], 0, false, [];
      items, starts := [], [0];
    }

    ghost predicate Valid()
      reads this
    {
      && interval >= 1
      && Built(items, starts, interval, restarts, counter, lastKey)
      && (!finished ==> buffer == Data(items))
    }

    method Add(key: Bytes, value: Bytes) returns (ghost it: Item)
      requires Valid() && !finished
      modifies this
      ensures Valid() && !finished
      ensures it == NextItem(old(items), old(starts), interval, key, value)
      ensures items == old(items) + [it] && starts == NextStarts(old(items), old(starts), interval)
    {
      var shared := StartEntry(key, value);
      it := Item(key, value, shared);
      DataAppend(items, it);
      AppendEntry(shared, key, value);
      lastKey := lastKey[..shared] + key[shared..];
      counter := counter + 1;
      items := items + [it];
    }

    /** The three lengths, the rest of the key and the value. */
    method AppendEntry(shared: nat, key: Bytes, value: Bytes)
      requires shared <= |key|
      modifies this`buffer
      ensures buffer == old(buffer) + Encoded(Item(key, value, shared))
    {
      EncodedParts(buffer, Item(key, value, shared));
      buffer := buffer + Varint.Encode(shared) + Varint.Encode(|key| - shared) + Varint.Encode(|value|);
      buffer := buffer + key[shared..] + value;
    }

    /** How much the key shares with the last one; every `interval` entries nothing, at a new restart point. */
    method StartEntry(key: Bytes, ghost value: Bytes) returns (shared: nat)
      requires Valid() && !finished
      modifies this`restarts, this`counter, this`starts
      ensures shared <= |key| && shared <= |lastKey| && lastKey[..shared] + key[shared..] == key
      ensures Built(items + [Item(key, value, shared)], starts, interval, restarts, counter + 1, key)
      ensures Item(key, value, shared) == NextItem(items, old(starts), interval, key, value)
      ensures starts == NextStarts(items, old(starts), interval)
    {
      shared := 0;
      if counter < interval {
        shared := CommonLength(lastKey, key);
        AddShares(items, starts, interval, restarts, counter, lastKey, key, value);
      } else {
        AddRestart(items, starts, interval, restarts, counter, lastKey, key, value);
        assert lastKey[..0] + key[0..] == key;
        restarts := restarts + [|buffer|];
        counter := 0;
        starts := starts + [|items|];
      }
    }

    function CurrentSizeEstimate(): nat
      reads this
    {
      |buffer| + 4 * |restarts| + 4
    }

    /** Appends the restart array. */
    method Finish() returns (block: Bytes)
      requires Valid() && !finished
      requires CurrentSizeEstimate() < TWO_32
      modifies this
      ensures |block| == old(CurrentSizeEstimate())
      ensures IsBlock(block, items, starts) && items == old(items) && starts == old(starts)
    {
      PointsFit(items, starts);
      buffer := AppendFixed32s(buffer, restarts);
      buffer := buffer + EncodeFixed32(|restarts|);
      finished := true;
      block := buffer;
    }
  }

  method AppendFixed32s(buffer: Bytes, ns: seq<nat>) returns (r: Bytes)
    requires All32(ns)
    ensures r == buffer + Fixed32s(ns)
  {
    r := buffer;
    for i := 0 to |ns|
      invariant r == buffer + Fixed32s(ns[..i])
    {
      assert ns[..i + 1][..i] == ns[..i];
      r := r + EncodeFixed32(ns[i]);
    }
    assert ns[..|ns|] == ns;
  }

  lemma PointsFit(items: seq<Item>, starts: seq<nat>)
    requires SharedFits(items) && forall j :: 0 <= j < |starts| ==> starts[j] <= |items|
    ensures |Data(items)| < TWO_32 ==> All32(Points(items, starts))
  {
    forall j | 0 <= j < |starts| ensures Points(items, starts)[j] <= |Data(items)| {
      assert items[..|items|] == items;
      OffsetsIncrease(items, starts[j], |items|);
    }
  }

  /** Every `interval`-th entry is a restart point; all others share as much as they can. */
  ghost predicate Spaced(items: seq<Item>, starts: seq<nat>, interval: nat) {
    && (forall j :: 0 < j < |starts| ==> SpacedAt(starts, interval, j))
    && (forall i :: 0 < i < |items| && i !in starts ==> SharesMost(items, i))
  }

  predicate SpacedAt(starts: seq<nat>, interval: nat, j: nat)
    requires 0 < j < |starts|
  {
    starts[j] == starts[j - 1] + interval
  }

  predicate SharesMost(items: seq<Item>, i: nat)
    requires 0 < i < |items|
  {
    items[i].shared == Common(items[i - 1].key, items[i].key)
  }

  /** What the fields of a builder say about the items added so far. */
  ghost predicate Built(items: seq<Item>, starts: seq<nat>, interval: nat, restarts: seq<nat>, counter: nat, lastKey: Bytes) {
    && WellFormed(items, starts) && Spaced(items, starts, interval)
    && restarts == Points(items, starts)
    && counter == |items| - starts[|starts| - 1] <= interval
    && lastKey == KeyBefore(items)
  }

  lemma AddShares(items: seq<Item>, starts: seq<nat>, interval: nat, restarts: seq<nat>, counter: nat, lastKey: Bytes,
                  key: Bytes, value: Bytes)
    requires Built(items, starts, interval, restarts, counter, lastKey) && counter < interval
    ensures var shared := Common(lastKey, key);
      && Built(items + [Item(key, value, shared)], starts, interval, restarts, counter + 1, key)
      && lastKey[..shared] + key[shared..] == key
  {
    var it := Item(key, value, Common(lastKey, key));
    AddKeeps(items, starts, it);
    AddKeepsPoints(items, starts, it);
    AddKeepsMost(items, starts, it);
    assert key == key[..it.shared] + key[it.shared..];
  }

  lemma AddRestart(items: seq<Item>, starts: seq<nat>, interval: nat, restarts: seq<nat>, counter: nat, lastKey: Bytes,
                   key: Bytes, value: Bytes)
    requires Built(items, starts, interval, restarts, counter, lastKey) && interval >= 1 && counter == interval
    ensures Built(items + [Item(key, value, 0)], starts + [|items|], interval, restarts + [|Data(items)|], 1, key)
  {
    RestartIsWellFormed(items, starts, interval, Item(key, value, 0));
    NewPoint(items, starts, interval);
    AddKeepsPoints(items, starts + [|items|], Item(key, value, 0));
  }

  lemma RestartIsWellFormed(items: seq<Item>, starts: seq<nat>, interval: nat, it: Item)
    requires WellFormed(items, starts) && Spaced(items, starts, interval) && items != [] && it.shared == 0
    requires |items| == starts[|starts| - 1] + interval
    ensures WellFormed(items + [it], starts + [|items|]) && Spaced(items + [it], starts + [|items|], interval)
  {
    var more := starts + [|items|];
    assert more[..|more| - 1] == starts && |items| in more;
    AddKeeps(items, more, it);
    AddKeepsMost(items, more, it);
    NewPoint(items, starts, interval);
  }

  lemma NewPoint(items: seq<Item>, starts: seq<nat>, interval: nat)
    requires SharedFits(items) && |starts| > 0 && |items| == starts[|starts| - 1] + interval
    requires forall j :: 0 <= j < |starts| ==> starts[j] <= |items|
    requires forall j :: 0 < j < |starts| ==> SpacedAt(starts, interval, j)
    ensures Points(items, starts + [|items|]) == Points(items, starts) + [|Data(items)|]
    ensures forall j :: 0 < j < |starts| + 1 ==> SpacedAt(starts + [|items|], interval, j)
  {
    assert items[..|items|] == items;
    forall j | 0 < j < |starts| + 1 ensures SpacedAt(starts + [|items|], interval, j) {
      assert j < |starts| ==> SpacedAt(starts, interval, j);
    }
  }

  lemma DataAppend(items: seq<Item>, it: Item)
    requires SharedFits(items) && it.shared <= |it.key|
    ensures Data(items + [it]) == Data(items) + Encoded(it)
  {
    assert (items + [it])[..|items|] == items;
  }

  lemma AddKeepsMost(items: seq<Item>, starts: seq<nat>, it: Item)
    requires forall i :: 0 < i < |items| && i !in starts ==> SharesMost(items, i)
    requires items == [] || |items| in starts || it.shared == Common(items[|items| - 1].key, it.key)
    ensures forall i :: 0 < i < |items| + 1 && i !in starts ==> SharesMost(items + [it], i)
  {
    forall i | 0 < i < |items| + 1 && i !in starts ensures SharesMost(items + [it], i) {
      assert i < |items| ==> SharesMost(items, i);
    }
  }

  lemma EncodedParts(buffer: Bytes, it: Item)
    requires it.shared <= |it.key|
    ensures buffer + Varint.Encode(it.shared) + Varint.Encode(|it.key| - it.shared) + Varint.Encode(|it.value|)
              + it.key[it.shared..] + it.value == buffer + Encoded(it)
  {
  }

  method CommonLength(a: Bytes, b: Bytes) returns (shared: nat)
    ensures shared == Common(a, b)
  {
    var minLength := if |a| < |b| then |a| else |b|;
    shared := 0;
    while shared < minLength && a[shared] == b[shared]
      invariant shared <= minLength && a[..shared] == b[..shared]
    {
      assert a[..shared + 1] == a[..shared] + [a[shared]] && b[..shared + 1] == b[..shared] + [b[shared]];
      shared := shared + 1;
    }
    CommonIs(a, b, shared);
  }

  /** One more item, a restart point or one that shares with the last, keeps the block well formed. */
  lemma AddKeeps(items: seq<Item>, starts: seq<nat>, it: Item)
    requires it.shared <= |it.key| && |starts| > 0 && starts[0] == 0
    requires || (WellFormed(items, starts) && if items == [] then it.shared == 0 else SharesWith(items[|items| - 1].key, it))
             || (WellFormed(items, starts[..|starts| - 1]) && starts[|starts| - 1] == |items| && it.shared == 0 && items != [])
    ensures WellFormed(items + [it], starts)
  {
    var all := items + [it];
    forall i | 0 < i < |all| ensures SharesAt(all, i) {
      assert i < |items| ==> SharesAt(items, i);
    }
    assert forall j :: 0 <= j < |starts| - 1 ==> starts[..|starts| - 1][j] == starts[j];
  }

  lemma AddKeepsPoints(items: seq<Item>, starts: seq<nat>, it: Item)
    requires SharedFits(items) && it.shared <= |it.key| && forall j :: 0 <= j < |starts| ==> starts[j] <= |items|
    ensures Points(items + [it], starts) == Points(items, starts)
  {
    var all := items + [it];
    forall j | 0 <= j < |starts| ensures Offset(all, starts[j]) == Offset(items, starts[j]) {
      assert all[..starts[j]] == items[..starts[j]];
    }
  }
}
