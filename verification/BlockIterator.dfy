/** Iterating over a block: table/block.cc:76-264. */
module BlockIterator {
  import opened Keys
  import opened BlockFormat
  import opened BlockReader
  import Varint

  type Order = (Bytes, Bytes) -> bool

  // ---------------------------------------------------------------------
  // What a block says about its entries
  // ---------------------------------------------------------------------

  /** The header found at an entry, which ends at `end`. */
  ghost predicate HeaderOf(data: Bytes, h: Header, it: Item, end: nat) {
    && h.shared == it.shared <= |it.key|
    && h.keyStart + h.nonShared + h.valueLength == end <= |data|
    && data[h.keyStart..h.keyStart + h.nonShared] == it.key[it.shared..]
    && data[h.keyStart + h.nonShared..end] == it.value
  }

  ghost predicate EntryOk(data: Bytes, restarts: nat, it: Item, start: nat, end: nat) {
    restarts <= |data| &&
    var d := DecodeEntry(data[..restarts], start); d.Some? && HeaderOf(data, d.value, it, end)
  }

  /** The entries and restart points of a block, with `offsets` the places of the entries and their end. */
  ghost predicate Describes(data: Bytes, restarts: nat, items: seq<Item>, starts: seq<nat>, offsets: seq<nat>) {
    && WellFormed(items, starts) && restarts + 4 * |starts| + 4 == |data|
    && |offsets| == |items| + 1 && offsets[|items|] == restarts
    && (forall i, j :: 0 <= i < j < |offsets| ==> offsets[i] < offsets[j])
    && (forall i :: 0 <= i < |items| ==> EntryOk(data, restarts, items[i], offsets[i], offsets[i + 1]))
    && (forall j :: 0 <= j < |starts| ==> PointOk(data, restarts, offsets, starts, j))
  }

  ghost predicate PointOk(data: Bytes, restarts: nat, offsets: seq<nat>, starts: seq<nat>, j: nat) {
    && j < |starts| && starts[j] < |offsets| && restarts + 4 * j + 4 <= |data|
    && RestartPoint(data, restarts, j) == offsets[starts[j]]
  }

  lemma DataIsFirst(data: Bytes, items: seq<Item>, starts: seq<nat>)
    requires IsBlock(data, items, starts)
    ensures |Data(items)| + 4 * |starts| + 4 == |data| && data[..|Data(items)|] == Data(items)
  {
  }

  lemma EncodedStands(area: Bytes, before: Bytes, s: Bytes)
    requires before + s <= area
    ensures Varint.HasAt(area, |before|, s)
  {
    assert forall k :: 0 <= k < |s| ==> (before + s)[|before| + k] == s[k];
  }

  lemma SliceOfPrefix(data: Bytes, n: nat, i: nat, j: nat)
    requires i <= j <= n <= |data|
    ensures data[..n][i..j] == data[i..j]
  {
  }

  lemma FoundInData(data: Bytes, n: nat, p: nat, h: Header, it: Item)
    requires n <= |data| && it.shared <= |it.key| && Finds(data[..n], p, h, it)
    ensures HeaderOf(data, h, it, p + |Encoded(it)|)
  {
    var v := h.keyStart + h.nonShared;
    SliceOfPrefix(data, n, h.keyStart, v);
    SliceOfPrefix(data, n, v, v + h.valueLength);
  }

  lemma {:induction false} EntryAt(data: Bytes, items: seq<Item>, starts: seq<nat>, i: nat, p: nat, n: nat)
    requires IsBlock(data, items, starts) && i < |items| && Small(items[i]) && p == Offset(items, i) && n == |Data(items)|
    ensures EntryOk(data, n, items[i], p, Offset(items, i + 1))
  {
    DataIsFirst(data, items, starts);
    DataStep(items, i);
    DataPrefix(items, i + 1);
    var before := Data(items[..i]);
    PrefixOfPrefix(before + Encoded(items[i]), Data(items), data[..n]);
    EntryInData(data, n, p, before, items[i]);
  }

  lemma PrefixOfPrefix(a: Bytes, b: Bytes, c: Bytes)
    requires a <= b == c
    ensures a <= c
  {
  }

  lemma EntryInData(data: Bytes, n: nat, p: nat, before: Bytes, it: Item)
    requires n <= |data| && Small(it) && before + Encoded(it) <= data[..n] && p == |before|
    ensures EntryOk(data, n, it, p, p + |Encoded(it)|)
  {
    EncodedStands(data[..n], before, Encoded(it));
    EntryRead(data[..n], p, it);
    FoundInData(data, n, p, DecodeEntry(data[..n], p).value, it);
  }

  function Offsets(items: seq<Item>): (r: seq<nat>)
    requires SharedFits(items)
    ensures |r| == |items| + 1 && forall i {:trigger r[i]} :: 0 <= i < |r| ==> r[i] == Offset(items, i)
  {
    seq(|items| + 1, i requires 0 <= i <= |items| => Offset(items, i))
  }

  /** What the builder has written can be read: every entry at its offset, every restart point. */
  lemma {:induction false} BlockDescribes(data: Bytes, items: seq<Item>, starts: seq<nat>)
    requires IsBlock(data, items, starts) && forall i :: 0 <= i < |items| ==> Small(items[i])
    ensures Describes(data, |Data(items)|, items, starts, Offsets(items))
  {
    var n, offsets := |Data(items)|, Offsets(items);
    DataIsFirst(data, items, starts);
    assert items[..|items|] == items;
    forall i, j | 0 <= i < j < |offsets| ensures offsets[i] < offsets[j] {
      OffsetsIncrease(items, i, j);
    }
    forall i | 0 <= i < |items| ensures EntryOk(data, n, items[i], offsets[i], offsets[i + 1]) {
      EntryAt(data, items, starts, i, offsets[i], n);
    }
    forall j | 0 <= j < |starts| ensures PointOk(data, n, offsets, starts, j) {
      PointIs(data, items, starts, j);
    }
  }

  /** Restart point `index` is at or before entry `i`, and the next one not before it, but for `slack`. */
  predicate Covers(starts: seq<nat>, index: nat, i: nat, slack: nat) {
    index < |starts| && starts[index] <= i && (index + 1 < |starts| ==> i <= starts[index + 1] + slack)
  }

  lemma KeyRebuilt(key: Bytes, it: Item, piece: Bytes)
    requires SharesWith(key, it) && piece == it.key[it.shared..]
    ensures key[..it.shared] + piece == it.key
  {
    assert it.key == it.key[..it.shared] + it.key[it.shared..];
  }

  lemma Increasing(starts: seq<nat>, index: nat)
    requires index < |starts| && forall j, k :: 0 <= j < k < |starts| ==> starts[j] < starts[k]
    ensures index + 1 < |starts| ==> starts[index] < starts[index + 1]
  {
  }

  lemma NothingBetween(offsets: seq<nat>, j: nat, i: nat)
    requires (forall a, b :: 0 <= a < b < |offsets| ==> offsets[a] < offsets[b]) && j <= i < |offsets| && !(offsets[j] < offsets[i])
    ensures j == i
  {
  }

  lemma InOrder(offsets: seq<nat>, i: nat, j: nat)
    requires (forall a, b :: 0 <= a < b < |offsets| ==> offsets[a] < offsets[b]) && i < |offsets| && j < |offsets|
    ensures offsets[i] < offsets[j] <==> i < j
  {
    if j < i { assert offsets[j] < offsets[i]; }
  }

  // ---------------------------------------------------------------------
  // The iterator
  // ---------------------------------------------------------------------

  class Iter {
    const less: Order
    const data: Bytes
    const restarts: nat
    const numRestarts: nat
    var current: nat
    var restartIndex: nat
    var key: Bytes
    var valueStart: nat
    var valueLength: nat
    var corrupt: bool
    /** If the bytes are a block, its entries. */
    ghost const items: seq<Item>
    ghost const starts: seq<nat>
    ghost const offsets: seq<nat>

    constructor (less: Order, data: Bytes, restarts: nat, numRestarts: nat,
                 ghost items: seq<Item>, ghost starts: seq<nat>, ghost offsets: seq<nat>)
      requires numRestarts > 0 && restarts + 4 * numRestarts + 4 == |data|
      ensures Ok() && !Valid() && !corrupt && this.less == less && this.items == items
      ensures Holds() <==> Describes(data, restarts, items, starts, offsets) && numRestarts == |starts|
    {
      this.less, this.data, this.restarts, this.numRestarts := less, data, restarts, numRestarts;
      this.items, this.starts, this.offsets := items, starts, offsets;
      current, restartIndex, key, valueStart, valueLength, corrupt := restarts, numRestarts, [], 0, 0, false;
    }

    predicate Valid()
      reads this
    {
      current < restarts
    }

    predicate Layout() {
      numRestarts > 0 && restarts + 4 * numRestarts + 4 == |data|
    }

    /** What holds for any bytes. */
    predicate Ok()
      reads this
    {
      Layout() && (current < restarts ==> restartIndex < numRestarts && current < NextEntryOffset() <= restarts)
    }

    function NextEntryOffset(): nat
      reads this
    {
      valueStart + valueLength
    }

    function GetRestartPoint(index: nat): nat
      requires Layout() && index < numRestarts
    {
      RestartPoint(data, restarts, index)
    }

    /** The bytes are a block of the entries. */
    ghost predicate Holds() {
      Describes(data, restarts, items, starts, offsets) && numRestarts == |starts|
    }

    /** The iterator stands at entry `i`; at the end if there is none. */
    ghost predicate Stands(i: nat)
      reads this
    {
      && Holds() && i <= |items| && !corrupt
      && if i == |items| then !Valid()
         else
           && current == offsets[i] && NextEntryOffset() == offsets[i + 1] && key == items[i].key
           && NextEntryOffset() <= |data| && data[valueStart..NextEntryOffset()] == items[i].value
           && Covers(starts, restartIndex, i, 0)
    }

    /** The next entry to be parsed is entry `i`. */
    ghost predicate Awaits(i: nat)
      reads this
    {
      && Holds() && i <= |items| && !corrupt && NextEntryOffset() == offsets[i]
      && (i < |items| ==> SharesWith(key, items[i]))
      && Covers(starts, restartIndex, i, 1)
    }

    method SeekToRestartPoint(index: nat)
      requires Ok() && index < numRestarts
      modifies this
      ensures restartIndex == index && (Holds() && !old(corrupt) ==> Awaits(starts[index]))
    {
      key := [];
      restartIndex := index;
      valueStart, valueLength := GetRestartPoint(index), 0;
      if Holds() {
        assert PointOk(data, restarts, offsets, starts, index);
        Increasing(starts, index);
      }
    }

    method CorruptionError()
      modifies this
      ensures current == restarts && corrupt && restartIndex == numRestarts
    {
      current, restartIndex, corrupt := restarts, numRestarts, true;
      key, valueStart, valueLength := [], 0, 0;
    }

    /** Parsing where entry `i` is to be parsed succeeds, unless it is the end. */
    lemma ParseFacts(i: nat, p: nat)
      requires Awaits(i) && p == NextEntryOffset()
      ensures i < |items| <==> p < restarts
      ensures i < |items| ==>
        restarts <= |data| && var h := DecodeEntry(data[..restarts], p); h.Some? && h.value.shared <= |key| && Taken(h.value, i)
    {
      if i < |items| {
        assert EntryOk(data, restarts, items[i], offsets[i], offsets[i + 1]);
        var h := DecodeEntry(data[..restarts], p).value;
        KeyRebuilt(key, items[i], data[h.keyStart..h.keyStart + h.nonShared]);
      }
    }

    /** The header is that of entry `i`, and the key so far supplies what it shares. */
    ghost predicate Taken(h: Header, i: nat)
      reads this
    {
      && Holds() && i < |items| && h.shared <= |key| && !corrupt
      && h.keyStart + h.nonShared + h.valueLength == offsets[i + 1] <= |data|
      && key[..h.shared] + data[h.keyStart..h.keyStart + h.nonShared] == items[i].key
      && data[h.keyStart + h.nonShared..offsets[i + 1]] == items[i].value
      && Covers(starts, restartIndex, i, 1)
    }

    /** Moves to the entry that starts where the current one ends. */
    method ParseNextKey(ghost i: nat) returns (found: bool)
      requires Layout() && restartIndex < numRestarts
      modifies this
      ensures Ok() && (found <==> Valid()) && (found ==> current == old(NextEntryOffset()))
      ensures old(Awaits(i)) ==> Stands(i) && (found <==> i < |items|)
    {
      if Awaits(i) {
        ParseFacts(i, NextEntryOffset());
      }
      current := NextEntryOffset();
      found := false;
      if current >= restarts {
        current, restartIndex := restarts, numRestarts;
      } else {
        var h := DecodeEntry(data[..restarts], current);
        if h.None? || |key| < h.value.shared {
          CorruptionError();
        } else {
          TakeEntry(h.value, i);
          found := true;
        }
      }
    }

    method TakeEntry(h: Header, ghost i: nat)
      requires Layout() && restartIndex < numRestarts && current < restarts && h.shared <= |key|
      requires current < h.keyStart && h.keyStart + h.nonShared + h.valueLength <= restarts
      modifies this
      ensures Ok() && Valid() && current == old(current)
      ensures old(Taken(h, i)) && current == offsets[i] ==> Stands(i)
    {
      key := key[..h.shared] + data[h.keyStart..h.keyStart + h.nonShared];
      valueStart, valueLength := h.keyStart + h.nonShared, h.valueLength;
      AdvanceRestart(i);
    }

    /** The offset of a restart point tells where it stands among the entries. */
    lemma PointCompares(index: nat, i: nat)
      requires Holds() && index < numRestarts && i <= |items|
      ensures Layout() && (GetRestartPoint(index) < offsets[i] <==> starts[index] < i)
    {
      assert PointOk(data, restarts, offsets, starts, index);
      InOrder(offsets, starts[index], i);
    }

    lemma NextPointCovers(index: nat, i: nat)
      requires Holds() && i <= |items| && index + 1 < numRestarts && Covers(starts, index, i, 1)
      ensures Layout() && Covers(starts, if GetRestartPoint(index + 1) < offsets[i] then index + 1 else index, i, 0)
    {
      PointCompares(index + 1, i);
      Increasing(starts, index + 1);
    }

    /** Moves the restart index up to the last restart point before the current entry. */
    method AdvanceRestart(ghost i: nat)
      requires Layout() && restartIndex < numRestarts
      modifies this`restartIndex
      ensures restartIndex < numRestarts
      ensures Holds() && i <= |items| && current == offsets[i] && Covers(starts, old(restartIndex), i, 1) ==>
        Covers(starts, restartIndex, i, 0)
    {
      ghost var good := Holds() && i <= |items| && current == offsets[i] && Covers(starts, restartIndex, i, 1);
      while restartIndex + 1 < numRestarts && GetRestartPoint(restartIndex + 1) < current
        invariant restartIndex < numRestarts
        invariant good ==> Covers(starts, restartIndex, i, 1)
      {
        if good {
          NextPointCovers(restartIndex, i);
        }
        restartIndex := restartIndex + 1;
      }
      if good && restartIndex + 1 < numRestarts {
        NextPointCovers(restartIndex, i);
      }
    }

    // -----------------------------------------------------------------
    // Moving
    // -----------------------------------------------------------------

    lemma AtThenBefore(i: nat, next: nat)
      requires Stands(i) && i < |items| && next == i + 1
      ensures Awaits(next) && (NextEntryOffset() < restarts <==> next < |items|)
    {
      if next < |items| { assert SharesAt(items, next); }
    }

    method Next(ghost i: nat, ghost next: nat) returns (found: bool)
      requires Ok() && Valid() && next == i + 1
      modifies this
      ensures Ok() && (found <==> Valid()) && (found ==> current > old(current))
      ensures old(Stands(i)) && i < |items| ==> Stands(next) && (found <==> next < |items|)
    {
      if Stands(i) && i < |items| {
        AtThenBefore(i, next);
      }
      found := ParseNextKey(next);
    }

    method SeekToFirst()
      requires Ok()
      modifies this
      ensures Ok() && (Holds() && !old(corrupt) ==> Stands(0))
    {
      SeekToRestartPoint(0);
      var _ := ParseNextKey(0);
    }

    method SeekToLast()
      requires Ok()
      modifies this
      ensures Ok() && (Holds() && !old(corrupt) ==> Stands(if items == [] then 0 else |items| - 1))
    {
      ghost var good := Holds() && !corrupt;
      SeekToRestartPoint(numRestarts - 1);
      ghost var i: nat := if good then starts[numRestarts - 1] else 0;
      var found := ParseNextKey(i);
      while found && NextEntryOffset() < restarts
        invariant Ok() && (found <==> Valid())
        invariant good ==> Skipping(i, found)
        decreases if found then restarts - current else 0
      {
        ghost var next := i + 1;
        if good {
          AtThenBefore(i, next);
        }
        found := Next(i, next);
        i := next;
      }
      if good {
        SkippedAll(i, found);
      }
    }

    ghost predicate Skipping(i: nat, found: bool)
      reads this
    {
      Stands(i) && (found <==> i < |items|) && (items != [] ==> found)
    }

    lemma SkippedAll(i: nat, found: bool)
      requires Skipping(i, found) && !(found && NextEntryOffset() < restarts)
      ensures Stands(if items == [] then 0 else |items| - 1)
    {
      if found {
        AtThenBefore(i, i + 1);
        assert i == |items| - 1;
      } else {
        assert i == 0;
      }
    }

    lemma PointBehind(index: nat, i: nat)
      requires Stands(i) && i < |items| && Covers(starts, index, i, 0)
      ensures Layout() && index < numRestarts
      ensures GetRestartPoint(index) >= current ==> starts[index] == i && (index == 0 ==> i == 0)
      ensures GetRestartPoint(index) >= current && index > 0 ==> starts[index - 1] < i && Covers(starts, index - 1, i, 0)
      ensures GetRestartPoint(index) < current ==> starts[index] < i
    {
      PointCompares(index, i);
    }

    /** Back to the last restart point before the entry, and forward from there. */
    method Prev(ghost i: nat)
      requires Ok() && Valid()
      modifies this
      ensures Ok() && (old(Stands(i)) && i < |items| ==> Stands(if i == 0 then |items| else i - 1))
    {
      ghost var good := Stands(i) && i < |items|;
      var original := current;
      while GetRestartPoint(restartIndex) >= original
        invariant Layout() && restartIndex < numRestarts && current == original && NextEntryOffset() == old(NextEntryOffset())
        invariant good ==> Stands(i) && i < |items|
        decreases restartIndex
      {
        if good {
          PointBehind(restartIndex, i);
        }
        if restartIndex == 0 {
          current, restartIndex := restarts, numRestarts;
          return;
        }
        restartIndex := restartIndex - 1;
      }
      if good {
        PointBehind(restartIndex, i);
      }
      SeekToRestartPoint(restartIndex);
      ScanTo(original, if good then starts[restartIndex] else 0, i);
    }

    /** Parses entries until the next one is the one that starts at `original`. */
    method ScanTo(original: nat, ghost from: nat, ghost i: nat)
      requires Layout() && restartIndex < numRestarts
      modifies this
      ensures Ok()
      ensures old(Awaits(from)) && from < i < |items| && original == offsets[i] ==> Stands(i - 1)
    {
      ghost var good := Awaits(from) && from < i < |items| && original == offsets[i];
      ghost var j: nat := from;
      var found := ParseNextKey(j);
      while found && NextEntryOffset() < original
        invariant Ok() && (found <==> Valid())
        invariant good ==> Stands(j) && j < i && found
        decreases if found then restarts - current else 0
      {
        ghost var next := j + 1;
        if good {
          InOrder(offsets, next, i);
        }
        found := Next(j, next);
        j := next;
      }
      if good {
        ScanEnds(j, original, i);
      }
    }

    lemma ScanEnds(j: nat, original: nat, i: nat)
      requires Stands(j) && j < i < |items| && original == offsets[i] && !(NextEntryOffset() < original)
      ensures Stands(i - 1)
    {
      assert NextEntryOffset() == offsets[j + 1];
      NothingBetween(offsets, j + 1, i);
      assert j == i - 1;
    }

    // -----------------------------------------------------------------
    // Seeking
    // -----------------------------------------------------------------

    /** The keys before the target come first, as they do if the keys increase. */
    ghost predicate Monotone(target: Bytes) {
      forall j, k :: 0 <= j < k < |items| && less(items[k].key, target) ==> less(items[j].key, target)
    }

    ghost predicate AllBefore(i: nat, target: Bytes) {
      i <= |items| && forall k :: 0 <= k < i ==> less(items[k].key, target)
    }

    /** The key at a restart point, if it can be decoded. */
    function RestartKey(index: nat): Option<Bytes>
      requires Layout() && index < numRestarts
    {
      var h := DecodeEntry(data[..restarts], GetRestartPoint(index));
      if h.None? || h.value.shared != 0 then None
      else Some(data[h.value.keyStart..h.value.keyStart + h.value.nonShared])
    }

    lemma RestartKeyIs(index: nat)
      requires Holds() && index < numRestarts && items != []
      ensures Layout() && RestartKey(index) == Some(items[starts[index]].key)
    {
      var i := starts[index];
      assert PointOk(data, restarts, offsets, starts, index);
      assert EntryOk(data, restarts, items[i], offsets[i], offsets[i + 1]);
    }

    /** Binary search for the last restart point with a key before the target. */
    method SearchRestarts(target: Bytes) returns (left: nat, ok: bool)
      requires Layout()
      ensures left < numRestarts
      ensures Holds() && Monotone(target) ==> ok && AllBefore(starts[left], target)
    {
      ghost var good := Holds() && Monotone(target);
      left, ok := 0, true;
      var right := numRestarts - 1;
      while left < right
        invariant 0 <= left <= right < numRestarts
        invariant good ==> AllBefore(starts[left], target)
      {
        var mid := (left + right + 1) / 2;
        var midKey := RestartKey(mid);
        if good {
          RestartKeyIs(mid);
        }
        if midKey.None? {
          return left, false;
        }
        if less(midKey.value, target) {
          left := mid;
        } else {
          right := mid - 1;
        }
      }
    }

    /** To the first entry whose key is not before the target. */
    method Seek(target: Bytes) returns (ghost i: nat)
      requires Ok()
      modifies this
      ensures Ok()
      ensures Holds() && !old(corrupt) && Monotone(target) ==>
        Stands(i) && AllBefore(i, target) && (i < |items| ==> !less(items[i].key, target))
    {
      ghost var good := Holds() && !corrupt && Monotone(target);
      var left, ok := SearchRestarts(target);
      i := 0;
      if !ok {
        CorruptionError();
        return;
      }
      SeekToRestartPoint(left);
      if good {
        i := starts[left];
      }
      i := ScanForward(target, i);
    }

    /** All entries so far are before the target. */
    ghost predicate Passing(i: nat, target: Bytes, found: bool)
      reads this
    {
      Stands(i) && (found <==> i < |items|) && AllBefore(i, target)
    }

    lemma OneMore(i: nat, next: nat, target: Bytes)
      requires Passing(i, target, true) && less(key, target) && next == i + 1
      ensures AllBefore(next, target)
    {
    }

    /** Linear search from entry `from` on. */
    method ScanForward(target: Bytes, ghost from: nat) returns (ghost i: nat)
      requires Layout() && restartIndex < numRestarts
      modifies this
      ensures Ok()
      ensures old(Awaits(from)) && AllBefore(from, target) ==>
        Stands(i) && AllBefore(i, target) && (i < |items| ==> !less(items[i].key, target))
    {
      ghost var good := Awaits(from) && AllBefore(from, target);
      i := from;
      var found := ParseNextKey(i);
      while found && less(key, target)
        invariant Ok() && (found <==> Valid())
        invariant good ==> Passing(i, target, found)
        decreases if found then restarts - current else 0
      {
        ghost var next := i + 1;
        if good {
          OneMore(i, next, target);
        }
        found := Next(i, next);
        i := next;
      }
    }
  }

  /** Block::NewIterator: an iterator over a block that the builder has written reads back its entries. */
  method NewIterator(less: Order, block: Bytes, ghost items: seq<Item>, ghost starts: seq<nat>) returns (it: Iter?)
    ensures it != null <==> Open(block).Iterable?
    ensures it != null ==> fresh(it) && it.Ok() && it.less == less
    ensures IsBlock(block, items, starts) && (forall i :: 0 <= i < |items| ==> Small(items[i])) ==>
      it != null && it.items == items && it.Holds() && !it.corrupt
  {
    ghost var good := IsBlock(block, items, starts) && forall i :: 0 <= i < |items| ==> Small(items[i]);
    if good {
      OpensBlock(block, items, starts);
      BlockDescribes(block, items, starts);
    }
    it := null;
    match Open(block)
    case Iterable(restarts, numRestarts) =>
      it := new Iter(less, block, restarts, numRestarts, items, starts, if good then Offsets(items) else []);
    case _ =>
  }
}
