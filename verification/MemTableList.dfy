/** The skip list as one thread uses it, and its iterator: db/skiplist.h:205-238 and 254-378. */
module MemTableList {
  import opened Keys
  import opened Tables
  import opened Cursors
  import opened SkipList
  import SkipListRuns

  class List {
    var nodes: seq<Node>
    var maxHeight: nat
    /** The nodes linked at each level. */
    ghost var chains: seq<seq<nat>>

    ghost predicate Valid()
      reads this
    {
      Shape(nodes, maxHeight, chains)
    }

    ghost function Entries(): seq<Entry>
      reads this
      requires Valid()
    {
      assert Chain(nodes, 0, chains[0]);
      Content(nodes, chains[0])
    }

    constructor (head: Entry)
      ensures Valid() && Entries() == []
    {
      nodes, maxHeight, chains := SkipListRuns.Init(head).nodes, 1, SkipListRuns.Init(head).chains;
      new;
      SkipListRuns.InitInv(head);
    }

    predicate KeyIsAfterNode(key: InternalKey, n: Pointer)
      reads this
    {
      Passes(nodes, AtOrAfter(key), n)
    }

    /** The first node at or after the key, and for every level in use the last node before it. */
    method FindGreaterOrEqual(key: InternalKey) returns (next: Pointer, prev: seq<nat>)
      requires Valid()
      ensures next == After(chains[0], SeekIndex(Entries(), key))
      ensures |prev| == kMaxHeight && forall i :: 0 <= i < maxHeight ==> Before(i, key, prev[i])
    {
      var goal := AtOrAfter(key);
      var x, level := 0, maxHeight - 1;
      prev := seq(kMaxHeight, _ => 0);
      ghost var j := 0;
      assert Chain(nodes, level, chains[level]);
      while true
        invariant 0 <= level < maxHeight && |prev| == kMaxHeight
        invariant j < |chains[level]| && chains[level][j] == x && Reached(nodes, chains[level], goal, x)
        invariant forall i :: level < i < maxHeight ==> Before(i, key, prev[i])
        decreases level, |chains[level]| - j
      {
        LoadMoves(nodes, level, chains[level], goal, x);
        assert LinkAt(nodes, level, chains[level], j);
        next := nodes[x].next[level];
        if KeyIsAfterNode(key, next) {
          x, j := next.value, j + 1;
        } else {
          prev := prev[level := x];
          if level == 0 {
            return;
          }
          assert Within(chains[level], chains[level - 1]);
          level := level - 1;
          j :| 0 <= j < |chains[level]| && chains[level][j] == x;
        }
      }
    }

    /** `p` is the last node of a level before the key. */
    ghost predicate Before(level: nat, key: InternalKey, p: nat)
      reads this
    {
      && level < |chains|
      && (forall j :: 0 <= j < |chains[level]| ==> chains[level][j] < |nodes|)
      && Stops(nodes, chains[level], AtOrAfter(key), p)
    }

    /** FindLessThan and FindLast: the last node before the goal, or the head. */
    method FindLastBefore(goal: Goal) returns (x: nat)
      requires Valid() && !goal.AtOrAfter?
      ensures x == chains[0][SkipList.Rank(Entries(), goal)]
    {
      x := 0;
      var level := maxHeight - 1;
      ghost var j := 0;
      assert Chain(nodes, level, chains[level]);
      while true
        invariant 0 <= level < maxHeight
        invariant j < |chains[level]| && chains[level][j] == x && Reached(nodes, chains[level], goal, x)
        decreases level, |chains[level]| - j
      {
        LoadMoves(nodes, level, chains[level], goal, x);
        assert LinkAt(nodes, level, chains[level], j);
        var next := nodes[x].next[level];
        if !Passes(nodes, goal, next) {
          if level == 0 {
            return;
          }
          assert Within(chains[level], chains[level - 1]);
          level := level - 1;
          j :| 0 <= j < |chains[level]| && chains[level][j] == x;
        } else {
          x, j := next.value, j + 1;
        }
      }
    }

    method Contains(e: Entry) returns (found: bool)
      requires Valid()
      ensures found <==> exists x :: x in Entries() && !EntryLess(x, e) && !EntryLess(e, x)
    {
      var next, _ := FindGreaterOrEqual(IKey(e));
      ghost var n := SeekIndex(Entries(), IKey(e));
      assert Chain(nodes, 0, chains[0]);
      found := next.Some? && !EntryLess(e, nodes[next.value].entry);
      ghost var es := Entries();
      if found {
        assert es[n] in es;
      } else {
        forall x | x in es ensures EntryLess(x, e) || EntryLess(e, x) {
          var j :| 0 <= j < |es| && es[j] == x;
          if j >= n {
            EntriesInOrder(es, n, j);
          }
        }
      }
    }

    /** Links a node of the given height into every level below it, lowest level first. */
    method Insert(e: Entry, height: nat)
      requires Valid() && 1 <= height <= kMaxHeight && NoEqual(Entries(), e)
      modifies this
      ensures Valid() && Entries() == Added(old(Entries()), e)
      ensures |nodes| == |old(nodes)| + 1 && nodes[|nodes| - 1].entry == e && SameEntries(old(nodes), nodes)
      ensures LinkedBelow(old(chains), chains, |nodes| - 1, height)
      ensures maxHeight == if height > old(maxHeight) then height else old(maxHeight)
    {
      var _, prev := FindGreaterOrEqual(IKey(e));
      FoundPlaces(e, prev);
      var x;
      x, prev := NewNode(e, height, prev);
      LinkLevels(e, x, height, prev);
    }

    method LinkLevels(e: Entry, x: nat, height: nat, prev: seq<nat>)
      requires height >= 1 && Valid() && Placing(e, x, height, prev, 0)
      modifies this
      ensures Valid() && Entries() == Added(old(Entries()), e)
      ensures SameEntries(old(nodes), nodes) && |nodes| == |old(nodes)| && maxHeight == old(maxHeight)
      ensures LinkedBelow(old(chains), chains, x, height)
    {
      ghost var es, cs := Entries(), chains;
      for i := 0 to height
        invariant i < height ==> Placing(e, x, height, prev, i)
        invariant LinkedTo(es, e, i) && LinkedBelow(cs, chains, x, i)
        invariant SameEntries(old(nodes), nodes) && |nodes| == |old(nodes)| && maxHeight == old(maxHeight)
      {
        ghost var before := chains;
        LinkAtLevel(e, x, height, prev, i);
        OneMoreLevel(cs, before, chains, x, i);
      }
    }

    /** The entry is in the list as soon as its node is linked at the lowest level. */
    ghost predicate LinkedTo(es: seq<Entry>, e: Entry, i: nat)
      reads this
    {
      Valid() && Entries() == if i == 0 then es else Added(es, e)
    }

    lemma FoundPlaces(e: Entry, prev: seq<nat>)
      requires Valid() && NoEqual(Entries(), e) && |prev| == kMaxHeight
      requires forall i :: 0 <= i < maxHeight ==> Before(i, IKey(e), prev[i])
      ensures forall i :: 0 <= i < maxHeight ==> SkipListRuns.Placed(nodes, chains[i], e, prev[i])
    {
      forall i | 0 <= i < maxHeight ensures SkipListRuns.Placed(nodes, chains[i], e, prev[i]) {
        assert Chain(nodes, 0, chains[0]);
        SkipListRuns.FreeAbove(nodes, maxHeight, chains, e, i);
        assert Before(i, IKey(e), prev[i]);
      }
    }

    /** Raises the height of the list if need be, with the head as predecessor there, and makes the node. */
    method NewNode(e: Entry, height: nat, found: seq<nat>) returns (x: nat, prev: seq<nat>)
      requires Valid() && 1 <= height <= kMaxHeight && |found| == kMaxHeight
      requires forall i :: 0 <= i < maxHeight ==> SkipListRuns.Placed(nodes, chains[i], e, found[i])
      modifies this
      ensures Placing(e, x, height, prev, 0)
      ensures Valid() && Entries() == old(Entries()) && chains == old(chains)
      ensures x == |old(nodes)| && |nodes| == x + 1 && SameEntries(old(nodes), nodes)
      ensures maxHeight == if height > old(maxHeight) then height else old(maxHeight)
    {
      ghost var s := SkipListRuns.System(nodes, maxHeight, SkipListRuns.Searched(e, height, found), [], chains);
      prev := found;
      if height > maxHeight {
        for i := maxHeight to height
          invariant |prev| == kMaxHeight
          invariant forall k :: 0 <= k < maxHeight ==> prev[k] == found[k]
          invariant forall k :: maxHeight <= k < i ==> prev[k] == 0
        {
          prev := prev[i := 0];
        }
        maxHeight := height;
      }
      x := |nodes|;
      nodes := nodes + [Node(e, seq(height, _ => None))];
      SkipListRuns.AllocateKeepsInv(s, Linking(x, height, prev, 0));
      assert Chain(s.nodes, 0, chains[0]);
      SkipListRuns.AppendKeepsChain(s.nodes, nodes[x], 0, chains[0]);
    }

    ghost function Linking(x: nat, height: nat, prev: seq<nat>, level: nat): SkipListRuns.System
      reads this
    {
      SkipListRuns.System(nodes, maxHeight, SkipListRuns.Linking(x, height, prev, level, false), [], chains)
    }

    /** The new node is ready to be linked at level `i`, and linked below. */
    ghost predicate Placing(e: Entry, x: nat, height: nat, prev: seq<nat>, i: nat)
      reads this
    {
      x < |nodes| && nodes[x].entry == e && SkipListRuns.Inv(Linking(x, height, prev, i))
    }

    /** One round of the linking loop: the two stores at a level. */
    method LinkAtLevel(e: Entry, x: nat, height: nat, prev: seq<nat>, i: nat)
      requires Placing(e, x, height, prev, i)
      modifies this
      ensures Valid() && (i + 1 < height ==> Placing(e, x, height, prev, i + 1))
      ensures Entries() == if i == 0 then Added(old(Entries()), e) else old(Entries())
      ensures SameEntries(old(nodes), nodes) && |nodes| == |old(nodes)| && maxHeight == old(maxHeight)
      ensures JoinsLevel(old(chains), chains, x, i)
    {
      ghost var s := Linking(x, height, prev, i);
      assert SkipListRuns.Placed(nodes, chains[i], nodes[x].entry, prev[i]);
      assert Chain(nodes, i, chains[i]) && prev[i] in chains[i];
      nodes := SetNext(nodes, x, i, nodes[prev[i]].next[i]);
      ghost var mid := s.(nodes := nodes, writer := s.writer.(prepared := true));
      nodes := SetNext(nodes, prev[i], i, Some(x));
      ghost var n := SeekIndex(Content(mid.nodes, chains[i]), IKey(mid.nodes[x].entry));
      LevelJoins(chains, i, n, x);
      chains := chains[i := Linked(chains[i], n, x)];
      ghost var t := SkipListRuns.System(nodes, maxHeight,
        if i + 1 == height then SkipListRuns.Idle else SkipListRuns.Linking(x, height, prev, i + 1, false), [], chains);
      SkipListRuns.LevelLinked(s, mid, t);
      StoresKeepEntries(s.nodes, mid.nodes, nodes, x, i, prev[i]);
    }
  }

  /** Every node keeps its entry. */
  ghost predicate SameEntries(before: seq<Node>, after: seq<Node>) {
    |before| <= |after| && forall y :: 0 <= y < |before| ==> after[y].entry == before[y].entry
  }

  /** One node joins the list of one level. */
  ghost predicate JoinsLevel(before: seq<seq<nat>>, after: seq<seq<nat>>, x: nat, level: nat) {
    && |after| == |before| && level < |after|
    && forall l :: 0 <= l < |after| ==> if l == level then HasAlso(before[l], after[l], x) else after[l] == before[l]
  }

  ghost predicate HasAlso(before: seq<nat>, after: seq<nat>, x: nat) {
    forall y :: y in after <==> y in before || y == x
  }

  /** The node is in the lists of exactly the levels below its height, and nothing else has changed. */
  ghost predicate LinkedBelow(before: seq<seq<nat>>, after: seq<seq<nat>>, x: nat, height: nat) {
    && |after| == |before|
    && forall l :: 0 <= l < |after| ==> if l < height then HasAlso(before[l], after[l], x) else after[l] == before[l]
  }

  lemma StoresKeepEntries(a: seq<Node>, b: seq<Node>, c: seq<Node>, x: nat, level: nat, y: nat)
    requires x < |a| && level < |a[x].next| && exists v :: b == SetNext(a, x, level, v)
    requires y < |b| && level < |b[y].next| && exists v :: c == SetNext(b, y, level, v)
    ensures SameEntries(a, c) && |c| == |a|
  {
  }

  lemma LevelJoins(cs: seq<seq<nat>>, i: nat, n: nat, x: nat)
    requires i < |cs| && n < |cs[i]|
    ensures JoinsLevel(cs, cs[i := Linked(cs[i], n, x)], x, i)
  {
    var c := cs[i];
    assert c == c[..n + 1] + c[n + 1..];
  }

  lemma OneMoreLevel(cs: seq<seq<nat>>, before: seq<seq<nat>>, after: seq<seq<nat>>, x: nat, i: nat)
    requires LinkedBelow(cs, before, x, i) && JoinsLevel(before, after, x, i)
    ensures LinkedBelow(cs, after, x, i + 1)
  {
  }

  /** An iterator refines a cursor on the entries of the list; it is itself only a node pointer. */
  class Iterator {
    const list: List
    var node: Pointer
    ghost var pos: nat

    constructor (list: List)
      requires list.Valid()
      ensures this.list == list && Ok() && pos == |list.Entries()|
    {
      this.list, node, pos := list, None, |list.Entries()|;
    }

    ghost predicate Ok()
      reads this, list
    {
      && list.Valid() && pos <= |list.Entries()|
      && if pos == |list.Entries()| then node == None else node == Some(list.chains[0][pos + 1])
    }

    ghost function Flat(): Cursor
      reads this, list
      requires Ok()
    {
      Cursor(list.Entries(), pos)
    }

    predicate Valid()
      reads this
    {
      node.Some?
    }

    method Key() returns (e: Entry)
      requires Ok() && Valid()
      ensures Flat().Valid() && e == Flat().Current()
    {
      assert Chain(list.nodes, 0, list.chains[0]);
      e := list.nodes[node.value].entry;
    }

    method Next()
      requires Ok() && Valid()
      modifies this
      ensures Ok() && Flat() == old(Flat()).Next()
    {
      assert Chain(list.nodes, 0, list.chains[0]) && LinkAt(list.nodes, 0, list.chains[0], pos + 1);
      node := list.nodes[node.value].next[0];
      pos := pos + 1;
    }

    /** There are no links back: Prev searches for the last node before its own key. */
    method Prev()
      requires Ok() && Valid()
      modifies this
      ensures Ok() && Flat() == old(Flat()).Prev()
    {
      ghost var es := list.Entries();
      assert Chain(list.nodes, 0, list.chains[0]);
      var key := IKey(list.nodes[node.value].entry);
      assert key == IKey(es[pos]);
      SeekIndexUnique(es, key, pos);
      var x := list.FindLastBefore(Goal.Before(key));
      node := if x == 0 then None else Some(x);
      pos := if pos == 0 then |es| else pos - 1;
    }

    method Seek(target: InternalKey)
      requires Ok()
      modifies this
      ensures Ok() && Flat() == old(Flat()).Seek(target)
    {
      var next, _ := list.FindGreaterOrEqual(target);
      node := next;
      pos := SeekIndex(list.Entries(), target);
    }

    method SeekToFirst()
      requires Ok()
      modifies this
      ensures Ok() && Flat() == old(Flat()).SeekToFirst()
    {
      assert Chain(list.nodes, 0, list.chains[0]) && LinkAt(list.nodes, 0, list.chains[0], 0);
      node := list.nodes[0].next[0];
      pos := 0;
    }

    method SeekToLast()
      requires Ok()
      modifies this
      ensures Ok() && Flat() == old(Flat()).SeekToLast()
    {
      ghost var es := list.Entries();
      assert Chain(list.nodes, 0, list.chains[0]);
      var x := list.FindLastBefore(Last);
      node := if x == 0 then None else Some(x);
      pos := if es == [] then 0 else |es| - 1;
    }
  }
}
