/** The merging iterator: table/merger.cc:14-176. */
module Merger {
  import opened Keys
  import opened Tables
  import opened Cursors

  /** `merged` is the sorted union of the lists of the children, which share no entry. */
  ghost predicate IsMerge(merged: seq<Entry>, cs: seq<Cursor>) {
    && SortedEntries(merged)
    && (forall i :: 0 <= i < |cs| ==> Sub(cs[i].list, merged))
    && (forall e :: e in merged ==> exists i :: 0 <= i < |cs| && e in cs[i].list)
    && (forall i, j, e :: 0 <= i < |cs| && 0 <= j < |cs| && i != j && e in cs[i].list ==> e !in cs[j].list)
  }

  /** How many entries of a list come before place `c` of the merged list. */
  function Count(list: seq<Entry>, merged: seq<Entry>, c: nat): (r: nat)
    requires c <= |merged|
    ensures r <= |list|
  {
    if c < |merged| then SeekIndex(list, IKey(merged[c])) else |list|
  }

  predicate Sub(list: seq<Entry>, merged: seq<Entry>) {
    SortedEntries(list) && SortedEntries(merged) && forall e :: e in list ==> e in merged
  }

  lemma SameKeySameEntry(es: seq<Entry>, a: Entry, b: Entry)
    requires SortedEntries(es) && a in es && b in es
    ensures EntryLess(a, b) || EntryLess(b, a) || a == b
  {
    var i := IndexIn(es, a);
    var j := IndexIn(es, b);
    EntriesInOrder(es, i, j);
  }

  lemma IndexIn(es: seq<Entry>, e: Entry) returns (i: nat)
    requires e in es
    ensures i < |es| && es[i] == e
  {
    i :| 0 <= i < |es| && es[i] == e;
  }

  /** The count splits a list between the entries before place `c` and those from it on. */
  lemma CountSplits(list: seq<Entry>, merged: seq<Entry>, c: nat)
    requires Sub(list, merged) && c <= |merged|
    ensures forall a :: 0 <= a < Count(list, merged, c) ==> c == |merged| || EntryLess(list[a], merged[c])
    ensures forall a :: Count(list, merged, c) <= a < |list| ==> c < |merged| && !EntryLess(list[a], merged[c])
  {
    var r := Count(list, merged, c);
    forall a | r <= a < |list| ensures c < |merged| && !EntryLess(list[a], merged[c]) {
      EntriesInOrder(list, r, a);
    }
  }

  lemma CountFirst(list: seq<Entry>, merged: seq<Entry>)
    requires Sub(list, merged)
    ensures Count(list, merged, 0) == 0
  {
    if list != [] {
      assert list[0] in merged;
      var i := IndexIn(merged, list[0]);
      EntriesInOrder(merged, 0, i);
    }
    CountSplits(list, merged, 0);
  }

  /** Moving past place `c` moves past an entry in the list that holds it and in no other. */
  lemma CountStep(list: seq<Entry>, merged: seq<Entry>, c: nat)
    requires Sub(list, merged) && c < |merged|
    ensures merged[c] in list ==>
      Count(list, merged, c) < |list| && list[Count(list, merged, c)] == merged[c] &&
      Count(list, merged, c + 1) == Count(list, merged, c) + 1
    ensures merged[c] !in list ==> Count(list, merged, c + 1) == Count(list, merged, c)
  {
    CountSplits(list, merged, c);
    var r := Count(list, merged, c);
    if merged[c] in list {
      var a := IndexIn(list, merged[c]);
      if r < |list| { EntriesInOrder(list, r, a); }
      assert list[r] == merged[c];
    }
    var next := if merged[c] in list then r + 1 else r;
    if next < |list| {
      NextEntryIsLater(list, merged, c, next);
    }
    if c + 1 < |merged| {
      assert EntryLess(merged[c], merged[c + 1]);
      SeekIndexUnique(list, IKey(merged[c + 1]), next);
    }
  }

  lemma NextEntryIsLater(list: seq<Entry>, merged: seq<Entry>, c: nat, next: nat)
    requires Sub(list, merged) && c < |merged| && next < |list|
    requires next == if merged[c] in list then Count(list, merged, c) + 1 else Count(list, merged, c)
    requires merged[c] in list ==> Count(list, merged, c) < |list| && list[Count(list, merged, c)] == merged[c]
    ensures c + 1 < |merged| && !EntryLess(list[next], merged[c + 1])
  {
    CountSplits(list, merged, c);
    assert list[next] in merged;
    var i := IndexIn(merged, list[next]);
    assert merged[c] in list ==> EntryLess(merged[c], list[next]);
    EntriesInOrder(merged, i, c);
    assert i > c;
    EntriesInOrder(merged, c + 1, i);
  }

  /** Seeking each list finds the place that seeking the merged list finds. */
  lemma SeekIsCount(list: seq<Entry>, merged: seq<Entry>, target: InternalKey)
    requires Sub(list, merged)
    ensures SeekIndex(list, target) == Count(list, merged, SeekIndex(merged, target))
  {
    var c := SeekIndex(merged, target);
    var r := Count(list, merged, c);
    CountSplits(list, merged, c);
    if r > 0 {
      assert list[r - 1] in merged;
      var i := IndexIn(merged, list[r - 1]);
      if c < |merged| { EntriesInOrder(merged, c, i); }
      assert i < c;
    }
    SeekIndexUnique(list, target, r);
  }

  function BeforePlace(list: seq<Entry>, merged: seq<Entry>, c: nat): nat
    requires c <= |merged|
  {
    var r := Count(list, merged, c);
    if r == 0 then |list| else r - 1
  }

  /** Every child stands at its first entry from place `c` on. */
  predicate AllAt(cs: seq<Cursor>, merged: seq<Entry>, c: nat) {
    c <= |merged| && forall i :: 0 <= i < |cs| ==> cs[i].pos == Count(cs[i].list, merged, c)
  }

  /** Every child stands at its last entry before place `c`, or is invalid. */
  predicate AllBefore(cs: seq<Cursor>, merged: seq<Entry>, c: nat) {
    c <= |merged| && forall i :: 0 <= i < |cs| ==> cs[i].pos == BeforePlace(cs[i].list, merged, c)
  }

  predicate StandsAt(child: Cursor, e: Entry) {
    child.Valid() && child.Current() == e
  }

  /** The first of the `n` first children with the smallest key. */
  predicate IsSmallest(cs: seq<Cursor>, n: nat, r: Option<nat>)
    requires n <= |cs|
  {
    && (r.None? ==> forall i :: 0 <= i < n ==> !cs[i].Valid())
    && (r.Some? ==> r.value < n && cs[r.value].Valid())
    && (r.Some? ==> forall i :: 0 <= i < n && cs[i].Valid() ==> !EntryLess(cs[i].Current(), cs[r.value].Current()))
  }

  predicate IsLargest(cs: seq<Cursor>, n: nat, r: Option<nat>)
    requires n <= |cs|
  {
    && (r.None? ==> forall i :: n <= i < |cs| ==> !cs[i].Valid())
    && (r.Some? ==> n <= r.value < |cs| && cs[r.value].Valid())
    && (r.Some? ==> forall i :: n <= i < |cs| && cs[i].Valid() ==> !EntryLess(cs[r.value].Current(), cs[i].Current()))
  }

  /** At place `c`, a valid child is at an entry from there on and the holder of the entry is at it. */
  lemma ChildAt(cs: seq<Cursor>, merged: seq<Entry>, c: nat, i: nat)
    requires IsMerge(merged, cs) && AllAt(cs, merged, c) && i < |cs|
    ensures cs[i].Valid() ==> c < |merged| && cs[i].Current() in merged && !EntryLess(cs[i].Current(), merged[c])
    ensures c < |merged| && merged[c] in cs[i].list ==> StandsAt(cs[i], merged[c])
  {
    CountSplits(cs[i].list, merged, c);
    if c < |merged| { CountStep(cs[i].list, merged, c); }
    if cs[i].Valid() { assert cs[i].Current() in cs[i].list; }
  }

  /** With all children at place `c`, the smallest of them is the entry at that place. */
  lemma SmallestIsNext(cs: seq<Cursor>, merged: seq<Entry>, c: nat, r: Option<nat>)
    requires IsMerge(merged, cs) && AllAt(cs, merged, c) && IsSmallest(cs, |cs|, r)
    ensures c == |merged| ==> r.None?
    ensures c < |merged| ==> r.Some? && StandsAt(cs[r.value], merged[c])
  {
    if r.Some? { ChildAt(cs, merged, c, r.value); }
    if c < |merged| {
      assert merged[c] in merged;
      var h :| 0 <= h < |cs| && merged[c] in cs[h].list;
      ChildAt(cs, merged, c, h);
      SameKeySameEntry(merged, merged[c], cs[r.value].Current());
    }
  }

  /** Before place `c`, a valid child is at an earlier entry and the holder of the last one is at it. */
  lemma ChildBefore(cs: seq<Cursor>, merged: seq<Entry>, c: nat, i: nat)
    requires IsMerge(merged, cs) && AllBefore(cs, merged, c) && i < |cs|
    ensures cs[i].Valid() ==> c > 0 && cs[i].Current() in merged && !EntryLess(merged[c - 1], cs[i].Current())
    ensures c > 0 && merged[c - 1] in cs[i].list ==> StandsAt(cs[i], merged[c - 1])
  {
    CountFirst(cs[i].list, merged);
    if c > 0 {
      CountStep(cs[i].list, merged, c - 1);
      CountSplits(cs[i].list, merged, c - 1);
    }
    if cs[i].Valid() { assert cs[i].Current() in cs[i].list; }
  }

  lemma LargestIsPrevious(cs: seq<Cursor>, merged: seq<Entry>, c: nat, r: Option<nat>)
    requires IsMerge(merged, cs) && AllBefore(cs, merged, c) && IsLargest(cs, 0, r)
    ensures c == 0 ==> r.None?
    ensures c > 0 ==> r.Some? && StandsAt(cs[r.value], merged[c - 1])
  {
    if r.Some? { ChildBefore(cs, merged, c, r.value); }
    if c > 0 {
      assert merged[c - 1] in merged;
      var h :| 0 <= h < |cs| && merged[c - 1] in cs[h].list;
      ChildBefore(cs, merged, c, h);
      SameKeySameEntry(merged, merged[c - 1], cs[r.value].Current());
    }
  }

  /** The same lists, whatever the positions. */
  predicate SameLists(cs: seq<Cursor>, ds: seq<Cursor>) {
    |cs| == |ds| && forall i :: 0 <= i < |cs| ==> cs[i].list == ds[i].list
  }

  lemma MergeIgnoresPositions(cs: seq<Cursor>, ds: seq<Cursor>, merged: seq<Entry>)
    requires IsMerge(merged, cs) && SameLists(cs, ds)
    ensures IsMerge(merged, ds)
  {
    forall e | e in merged ensures exists i :: 0 <= i < |ds| && e in ds[i].list {
      var i :| 0 <= i < |cs| && e in cs[i].list;
      assert e in ds[i].list;
    }
  }

  /** Advancing the child at place `c` brings all children to the next place. */
  lemma AdvanceAll(cs: seq<Cursor>, merged: seq<Entry>, c: nat, h: nat)
    requires IsMerge(merged, cs) && c < |merged| && h < |cs| && StandsAt(cs[h], merged[c])
    requires forall i :: 0 <= i < |cs| && i != h ==> cs[i].pos == Count(cs[i].list, merged, c)
    ensures AllAt(cs[h := cs[h].Next()], merged, c + 1)
  {
    forall i | 0 <= i < |cs| ensures cs[h := cs[h].Next()][i].pos == Count(cs[i].list, merged, c + 1) {
      assert cs[h].Current() in cs[h].list;
      CountStep(cs[i].list, merged, c);
      if i == h { EntriesInOrder(cs[h].list, cs[h].pos, Count(cs[h].list, merged, c)); }
    }
  }

  /** Stepping the child at place `c` back brings all children before that place. */
  lemma RetreatAll(cs: seq<Cursor>, merged: seq<Entry>, c: nat, h: nat)
    requires IsMerge(merged, cs) && c < |merged| && h < |cs| && StandsAt(cs[h], merged[c])
    requires forall i :: 0 <= i < |cs| && i != h ==> cs[i].pos == BeforePlace(cs[i].list, merged, c + 1)
    ensures AllBefore(cs[h := cs[h].Prev()], merged, c)
  {
    forall i | 0 <= i < |cs| ensures cs[h := cs[h].Prev()][i].pos == BeforePlace(cs[i].list, merged, c) {
      assert cs[h].Current() in cs[h].list;
      CountStep(cs[i].list, merged, c);
      if i == h { EntriesInOrder(cs[h].list, cs[h].pos, Count(cs[h].list, merged, c)); }
    }
  }

  datatype Direction = Forward | Reverse

  class MergingIterator {
    const children: array<Cursor>
    var current: Option<nat>
    var direction: Direction
    /** The flat cursor that this iterator stands for. */
    ghost var flat: Cursor

    constructor (cursors: seq<Cursor>, ghost merged: seq<Entry>)
      requires IsMerge(merged, cursors)
      ensures Shape() && flat.list == merged && fresh(children) && children[..] == cursors
    {
      children := new Cursor[|cursors|](i requires 0 <= i < |cursors| => cursors[i]);
      current, direction, flat := None, Forward, Cursor(merged, |merged|);
      new;
      assert children[..] == cursors;
    }

    ghost predicate Shape()
      reads this, children
    {
      IsMerge(flat.list, children[..])
    }

    /** The children agree with the flat cursor and the current child is at its entry. */
    ghost predicate Repr()
      reads this, children
    {
      && Shape()
      && flat.pos <= |flat.list|
      && (current.Some? <==> flat.Valid())
      && (flat.Valid() ==>
           && current.value < children.Length && StandsAt(children[current.value], flat.Current())
           && if direction.Forward? then AllAt(children[..], flat.list, flat.pos)
              else AllBefore(children[..], flat.list, flat.pos + 1))
    }

    predicate Valid()
      reads this
    {
      current.Some?
    }

    method Key() returns (k: InternalKey)
      requires Repr() && Valid()
      ensures k == flat.Key()
    {
      k := children[current.value].Key();
    }

    method Current() returns (e: Entry)
      requires Repr() && Valid()
      ensures e == flat.Current()
    {
      e := children[current.value].Current();
    }

    method FindSmallest()
      modifies this`current
      ensures IsSmallest(children[..], children.Length, current)
    {
      var smallest: Option<nat> := None;
      for i := 0 to children.Length
        invariant IsSmallest(children[..], i, smallest)
      {
        if children[i].Valid() {
          if smallest.None? || KeyLess(children[i].Key(), children[smallest.value].Key()) {
            smallest := Some(i);
          }
        }
      }
      current := smallest;
    }

    method FindLargest()
      modifies this`current
      ensures IsLargest(children[..], 0, current)
    {
      var largest: Option<nat> := None;
      for i := children.Length downto 0
        invariant IsLargest(children[..], i, largest)
      {
        if children[i].Valid() {
          if largest.None? || KeyLess(children[largest.value].Key(), children[i].Key()) {
            largest := Some(i);
          }
        }
      }
      current := largest;
    }

    /** Ends a forward operation that left all children at place `c`. */
    method FinishForward(ghost c: nat)
      requires Shape() && AllAt(children[..], flat.list, c)
      modifies this
      ensures Repr() && flat == old(flat).(pos := c) && direction == Forward
    {
      FindSmallest();
      SmallestIsNext(children[..], flat.list, c, current);
      direction := Forward;
      flat := flat.(pos := c);
    }

    method FinishReverse(ghost c: nat)
      requires Shape() && AllBefore(children[..], flat.list, c)
      modifies this
      ensures Repr() && flat == old(flat).(pos := if c == 0 then |old(flat).list| else c - 1) && direction == Reverse
    {
      FindLargest();
      LargestIsPrevious(children[..], flat.list, c, current);
      direction := Reverse;
      ghost var p := if c == 0 then |flat.list| else c - 1;
      flat := flat.(pos := p);
      assert flat.Valid() <==> c > 0;
      assert c > 0 ==> p + 1 == c && StandsAt(children[current.value], flat.Current());
    }

    method SeekToFirst()
      requires Shape()
      modifies this, children
      ensures Repr() && flat == old(flat).SeekToFirst()
    {
      ghost var start := children[..];
      for i := 0 to children.Length
        modifies children
        invariant SameLists(start, children[..])
        invariant forall j :: 0 <= j < i ==> children[j].pos == 0
      {
        children[i] := children[i].SeekToFirst();
      }
      MergeIgnoresPositions(start, children[..], flat.list);
      forall i | 0 <= i < children.Length ensures Count(children[i].list, flat.list, 0) == 0 {
        assert children[i] == children[..][i];
        CountFirst(children[i].list, flat.list);
      }
      FinishForward(0);
    }

    method SeekToLast()
      requires Shape()
      modifies this, children
      ensures Repr() && flat == old(flat).SeekToLast()
    {
      ghost var start := children[..];
      for i := 0 to children.Length
        modifies children
        invariant SameLists(start, children[..])
        invariant forall j :: 0 <= j < i ==> children[j].pos == BeforePlace(children[j].list, flat.list, |flat.list|)
      {
        children[i] := children[i].SeekToLast();
      }
      MergeIgnoresPositions(start, children[..], flat.list);
      FinishReverse(|flat.list|);
    }

    method Seek(target: InternalKey)
      requires Shape()
      modifies this, children
      ensures Repr() && flat == old(flat).Seek(target)
    {
      ghost var start := children[..];
      for i := 0 to children.Length
        modifies children
        invariant SameLists(start, children[..])
        invariant forall j :: 0 <= j < i ==> children[j].pos == SeekIndex(children[j].list, target)
      {
        children[i] := children[i].Seek(target);
      }
      MergeIgnoresPositions(start, children[..], flat.list);
      ghost var c := SeekIndex(flat.list, target);
      forall i | 0 <= i < children.Length ensures children[i].pos == Count(children[i].list, flat.list, c) {
        assert children[i] == children[..][i];
        SeekIsCount(children[i].list, flat.list, target);
      }
      FinishForward(c);
    }

    /** Moves to the next entry, after repositioning the other children when the direction changes. */
    method Next()
      requires Repr() && Valid()
      modifies this, children
      ensures Repr() && flat == old(flat).Next()
    {
      var key := Key();
      if direction != Forward {
        PositionAfter(key);
        direction := Forward;
      }
      AdvanceCurrent();
      FinishForward(flat.pos + 1);
    }

    /** The current child goes on; then all children are at the next place. */
    method AdvanceCurrent()
      requires Shape() && AtCurrent()
      requires forall i :: 0 <= i < children.Length && i != current.value ==>
        children[i].pos == Count(children[i].list, flat.list, flat.pos)
      modifies children
      ensures Shape() && AllAt(children[..], flat.list, flat.pos + 1)
    {
      AdvanceAll(children[..], flat.list, flat.pos, current.value);
      ghost var before := children[..];
      children[current.value] := children[current.value].Next();
      assert children[..] == before[current.value := before[current.value].Next()];
      MergeIgnoresPositions(before, children[..], flat.list);
    }

    ghost predicate AtCurrent()
      reads this, children
    {
      flat.Valid() && current.Some? && current.value < children.Length && StandsAt(children[current.value], flat.Current())
    }

    /** The non-current children go to their first entry after the key. */
    method PositionAfter(key: InternalKey)
      requires Repr() && Valid() && key == flat.Key()
      modifies children
      ensures Shape() && children[current.value] == old(children[current.value])
      ensures forall i :: 0 <= i < children.Length && i != current.value ==>
        children[i].pos == Count(children[i].list, flat.list, flat.pos)
    {
      ghost var start := children[..];
      for i := 0 to children.Length
        modifies children
        invariant SameLists(start, children[..])
        invariant children[current.value] == start[current.value]
        invariant forall j :: 0 <= j < i && j != current.value ==>
          children[j].pos == Count(children[j].list, flat.list, flat.pos)
      {
        if i != current.value {
          MergeIgnoresPositions(start, children[..], flat.list);
          OtherChild(children[..], flat, current.value, i);
          children[i] := SeekAfter(children[i], key);
        }
      }
      MergeIgnoresPositions(start, children[..], flat.list);
    }

    method Prev()
      requires Repr() && Valid()
      modifies this, children
      ensures Repr() && flat == old(flat).Prev()
    {
      var key := Key();
      if direction != Reverse {
        PositionBefore(key);
        direction := Reverse;
      }
      RetreatCurrent();
      FinishReverse(flat.pos);
    }

    method RetreatCurrent()
      requires Shape() && AtCurrent()
      requires forall i :: 0 <= i < children.Length && i != current.value ==>
        children[i].pos == BeforePlace(children[i].list, flat.list, flat.pos + 1)
      modifies children
      ensures Shape() && AllBefore(children[..], flat.list, flat.pos)
    {
      RetreatAll(children[..], flat.list, flat.pos, current.value);
      ghost var before := children[..];
      children[current.value] := children[current.value].Prev();
      assert children[..] == before[current.value := before[current.value].Prev()];
      MergeIgnoresPositions(before, children[..], flat.list);
    }

    /** The non-current children go to their last entry before the key. */
    method PositionBefore(key: InternalKey)
      requires Repr() && Valid() && key == flat.Key()
      modifies children
      ensures Shape() && children[current.value] == old(children[current.value])
      ensures forall i :: 0 <= i < children.Length && i != current.value ==>
        children[i].pos == BeforePlace(children[i].list, flat.list, flat.pos + 1)
    {
      ghost var start := children[..];
      for i := 0 to children.Length
        modifies children
        invariant SameLists(start, children[..])
        invariant children[current.value] == start[current.value]
        invariant forall j :: 0 <= j < i && j != current.value ==>
          children[j].pos == BeforePlace(children[j].list, flat.list, flat.pos + 1)
      {
        if i != current.value {
          MergeIgnoresPositions(start, children[..], flat.list);
          OtherChild(children[..], flat, current.value, i);
          children[i] := SeekBefore(children[i], key);
        }
      }
      MergeIgnoresPositions(start, children[..], flat.list);
    }
  }

  /** The loop of a compaction over its input: from the first entry to the last. */
  method Drain(input: MergingIterator) returns (merged: seq<Entry>)
    requires input.Shape()
    modifies input, input.children
    ensures merged == old(input.flat.list)
  {
    ghost var all := input.flat.list;
    input.SeekToFirst();
    merged := [];
    while input.Valid()
      invariant input.Repr() && input.flat.list == all
      invariant merged == all[..input.flat.pos]
      decreases |all| - input.flat.pos
    {
      var e := input.Current();
      assert all[..input.flat.pos + 1] == merged + [e];
      merged := merged + [e];
      input.Next();
    }
    assert all[..|all|] == all;
  }

  /** First entry after the key: a child found at the key itself steps over it. */
  function SeekAfter(child: Cursor, key: InternalKey): Cursor {
    var c := child.Seek(key);
    if c.Valid() && !KeyLess(key, c.Key()) && !KeyLess(c.Key(), key) then c.Next() else c
  }

  /** Last entry before the key: step back, or go to the end if nothing is at or after the key. */
  function SeekBefore(child: Cursor, key: InternalKey): Cursor {
    var c := child.Seek(key);
    if c.Valid() then c.Prev() else c.SeekToLast()
  }

  /** A child that does not hold the current entry counts the same before and after it. */
  lemma OtherChild(cs: seq<Cursor>, flat: Cursor, h: nat, i: nat)
    requires IsMerge(flat.list, cs) && flat.Valid() && h < |cs| && i < |cs| && i != h
    requires StandsAt(cs[h], flat.Current())
    ensures SeekAfter(cs[i], flat.Key()).pos == Count(cs[i].list, flat.list, flat.pos)
    ensures SeekBefore(cs[i], flat.Key()).pos == BeforePlace(cs[i].list, flat.list, flat.pos + 1)
    ensures SeekAfter(cs[i], flat.Key()).list == SeekBefore(cs[i], flat.Key()).list == cs[i].list
  {
    assert flat.Current() in cs[h].list;
    CountStep(cs[i].list, flat.list, flat.pos);
    var r := SeekIndex(cs[i].list, flat.Key());
    if r < |cs[i].list| {
      assert cs[i].list[r] in cs[i].list;
      SameKeySameEntry(flat.list, flat.Current(), cs[i].list[r]);
    }
  }
}
