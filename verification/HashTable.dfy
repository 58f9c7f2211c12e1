/** The hash table of the cache: util/cache.cc:64-147. Chains are lists of slots. */
module HashTable {
  import opened Keys

  /** Handles are looked up by hash and key together. */
  datatype CacheKey = CacheKey(key: Bytes, hash: nat)

  datatype Slot = Slot(key: CacheKey, handle: nat)

  type Contents = map<CacheKey, nat>

  /** hash & (length - 1), for a length that is a power of two. */
  function Bucket(k: CacheKey, length: nat): (b: nat)
    requires length > 0
    ensures b < length
  {
    k.hash % length
  }

  /** Where the slot of a key is in a chain, or the end of the chain. */
  function FindPointer(chain: seq<Slot>, k: CacheKey): (i: nat)
    ensures i <= |chain| && (i < |chain| ==> chain[i].key == k)
    ensures forall j :: 0 <= j < i ==> chain[j].key != k
  {
    if chain == [] || chain[0].key == k then 0
    else
      var i := FindPointer(chain[1..], k);
      assert forall j :: 1 <= j < |chain| ==> chain[j] == chain[1..][j - 1];
      i + 1
  }

  predicate DistinctKeys(chain: seq<Slot>) {
    forall i, j :: 0 <= i < j < |chain| ==> chain[i].key != chain[j].key
  }

  /** Every slot is in the chain of its key, and the slots are exactly the contents. */
  ghost predicate Holds(list: seq<seq<Slot>>, contents: Contents) {
    && |list| > 0
    && (forall b :: 0 <= b < |list| ==> ChainOk(list, contents, b))
    && (forall k :: k in contents ==> Present(list, contents, k))
  }

  ghost predicate ChainOk(list: seq<seq<Slot>>, contents: Contents, b: nat)
    requires b < |list|
  {
    && DistinctKeys(list[b])
    && forall s :: s in list[b] ==> s.key in contents && contents[s.key] == s.handle && Bucket(s.key, |list|) == b
  }

  ghost predicate Present(list: seq<seq<Slot>>, contents: Contents, k: CacheKey)
    requires |list| > 0 && k in contents
  {
    Slot(k, contents[k]) in list[Bucket(k, |list|)]
  }

  lemma PointerFinds(list: seq<seq<Slot>>, contents: Contents, k: CacheKey, i: nat)
    requires Holds(list, contents) && i == FindPointer(list[Bucket(k, |list|)], k)
    ensures i < |list[Bucket(k, |list|)]| <==> k in contents
    ensures k in contents ==> list[Bucket(k, |list|)][i] == Slot(k, contents[k])
  {
    var b := Bucket(k, |list|);
    assert ChainOk(list, contents, b);
    if k in contents {
      assert Present(list, contents, k);
    }
    if i < |list[b]| {
      assert list[b][i] in list[b];
    }
  }

  /** Changing one chain changes the contents at the keys of that chain only. */
  lemma ChainChanged(list: seq<seq<Slot>>, contents: Contents, b: nat, chain: seq<Slot>, more: Contents)
    requires Holds(list, contents) && b < |list|
    requires DistinctKeys(chain)
    requires forall s :: s in chain ==> s.key in more && more[s.key] == s.handle && Bucket(s.key, |list|) == b
    requires forall k :: k in more && Bucket(k, |list|) == b ==> Slot(k, more[k]) in chain
    requires forall k :: Bucket(k, |list|) != b ==> (k in more <==> k in contents) && (k in more ==> more[k] == contents[k])
    ensures Holds(list[b := chain], more)
  {
    var after := list[b := chain];
    forall c | 0 <= c < |after| ensures ChainOk(after, more, c) {
      assert ChainOk(list, contents, c);
    }
    forall k | k in more ensures Present(after, more, k) {
      if Bucket(k, |list|) != b { assert Present(list, contents, k); }
    }
  }

  lemma KeyInChain(list: seq<seq<Slot>>, contents: Contents, k: CacheKey, b: nat)
    requires Holds(list, contents) && k in contents && b == Bucket(k, |list|)
    ensures Slot(k, contents[k]) in list[b]
  {
    assert Present(list, contents, k);
  }

  /** The smallest table: four chains, doubled until there is one for each element. */
  function LengthFor(elems: nat, from: nat): (n: nat)
    requires from > 0
    ensures n >= elems && n >= from && (n > from ==> n < 2 * elems)
    decreases elems - from
  {
    if from < elems then LengthFor(elems, 2 * from) else from
  }

  /** A power of two, so that the low bits of the hash number a chain. */
  predicate IsLength(n: nat) {
    n == 4 || (n > 4 && n % 2 == 0 && IsLength(n / 2))
  }

  lemma {:induction false} LengthForIsLength(elems: nat, from: nat)
    requires IsLength(from) && from > 0
    ensures IsLength(LengthFor(elems, from))
    decreases elems - from
  {
    if from < elems {
      assert 2 * from / 2 == from && (2 * from) % 2 == 0;
      LengthForIsLength(elems, 2 * from);
    }
  }

  class HandleTable {
    var length: nat
    var elems: nat
    var list: seq<seq<Slot>>
    ghost var contents: Contents

    ghost predicate Valid()
      reads this
    {
      |list| == length && elems == |contents| <= length && IsLength(length) && Holds(list, contents)
    }

    constructor ()
      ensures Valid() && contents == map[] && length == 4
    {
      length, elems, list, contents := 4, 0, seq(4, _ => []), map[];
    }

    method Lookup(k: CacheKey) returns (r: Option<nat>)
      requires Valid()
      ensures r == if k in contents then Some(contents[k]) else None
    {
      var chain := list[Bucket(k, length)];
      var i := FindPointer(chain, k);
      PointerFinds(list, contents, k, i);
      r := if i < |chain| then Some(chain[i].handle) else None;
    }

    /** Adds a handle, or puts it in the place of the one with the same key, which is returned. */
    method Insert(k: CacheKey, h: nat) returns (old_: Option<nat>)
      requires Valid()
      modifies this
      ensures Valid() && contents == old(contents)[k := h]
      ensures old_ == if k in old(contents) then Some(old(contents)[k]) else None
      ensures length == if |contents| > old(length) then LengthFor(|contents|, 4) else old(length)
    {
      var b := Bucket(k, length);
      var chain := list[b];
      var i := FindPointer(chain, k);
      PointerFinds(list, contents, k, i);
      var next := if i < |chain| then chain[..i] + [Slot(k, h)] + chain[i + 1..] else chain + [Slot(k, h)];
      InsertIntoChain(list, contents, k, h, b, i, next);
      old_ := if i < |chain| then Some(chain[i].handle) else None;
      list := list[b := next];
      contents := contents[k := h];
      if old_.None? {
        elems := elems + 1;
        if elems > length {
          Resize();
        }
      }
    }

    method Remove(k: CacheKey) returns (result: Option<nat>)
      requires Valid()
      modifies this
      ensures Valid() && contents == old(contents) - {k} && length == old(length)
      ensures result == if k in old(contents) then Some(old(contents)[k]) else None
    {
      var b := Bucket(k, length);
      var chain := list[b];
      var i := FindPointer(chain, k);
      PointerFinds(list, contents, k, i);
      result := None;
      if i < |chain| {
        result := Some(chain[i].handle);
        RemoveFromChain(list, contents, k, b, i);
        list := list[b := chain[..i] + chain[i + 1..]];
        elems := elems - 1;
      } else {
        assert contents - {k} == contents;
      }
      contents := contents - {k};
    }

    /** Moves every slot to the chain it belongs to in a table of the next size. */
    method Resize()
      requires |list| == length && elems == |contents| && Holds(list, contents)
      modifies this
      ensures Valid() && contents == old(contents) && length == LengthFor(elems, 4)
    {
      var newLength := 4;
      while newLength < elems
        invariant newLength >= 4 && LengthFor(elems, newLength) == LengthFor(elems, 4)
        decreases elems - newLength
      {
        newLength := newLength * 2;
      }
      var newList: seq<seq<Slot>> := seq(newLength, _ => []);
      ghost var moved: Contents := map[];
      ghost var all := contents;
      var chains := list;
      for i := 0 to |chains|
        invariant contents == all && elems == |all| && |newList| == newLength && Holds(newList, moved)
        invariant forall k :: k in moved <==> k in all && Bucket(k, |chains|) < i
        invariant forall k :: k in moved ==> moved[k] == all[k]
      {
        newList, moved := MoveChain(newList, moved, chains, all, i);
      }
      assert moved == all;
      LengthForIsLength(elems, 4);
      list, length := newList, newLength;
    }
  }

  lemma InsertIntoChain(list: seq<seq<Slot>>, contents: Contents, k: CacheKey, h: nat, b: nat, i: nat, next: seq<Slot>)
    requires Holds(list, contents) && b == Bucket(k, |list|) && i == FindPointer(list[b], k)
    requires next == if i < |list[b]| then list[b][..i] + [Slot(k, h)] + list[b][i + 1..] else list[b] + [Slot(k, h)]
    ensures Holds(list[b := next], contents[k := h])
  {
    var chain, more := list[b], contents[k := h];
    assert ChainOk(list, contents, b);
    PutAt(chain, i, Slot(k, h), next);
    forall x | x in more && Bucket(x, |list|) == b ensures Slot(x, more[x]) in next {
      if x != k { KeyInChain(list, contents, x, b); }
    }
    ChainChanged(list, contents, b, next, more);
  }

  /** A slot in the place of the one with its key, or at the end. */
  lemma PutAt(chain: seq<Slot>, i: nat, s: Slot, next: seq<Slot>)
    requires DistinctKeys(chain) && i <= |chain| && (i < |chain| ==> chain[i].key == s.key)
    requires i == |chain| ==> forall j :: 0 <= j < |chain| ==> chain[j].key != s.key
    requires next == if i < |chain| then chain[..i] + [s] + chain[i + 1..] else chain + [s]
    ensures DistinctKeys(next)
    ensures forall x :: x in next <==> x == s || (x in chain && x.key != s.key)
  {
    assert forall j :: 0 <= j < |next| ==> next[j] == if j == i then s else chain[j];
    forall x | x in chain && x.key != s.key ensures x in next {
      var j :| 0 <= j < |chain| && chain[j] == x;
      assert next[j] == x;
    }
    assert next[i] == s;
  }

  lemma RemoveFromChain(list: seq<seq<Slot>>, contents: Contents, k: CacheKey, b: nat, i: nat)
    requires Holds(list, contents) && b == Bucket(k, |list|) && i == FindPointer(list[b], k) && i < |list[b]|
    ensures Holds(list[b := list[b][..i] + list[b][i + 1..]], contents - {k})
  {
    var chain, less := list[b], contents - {k};
    var next := chain[..i] + chain[i + 1..];
    assert ChainOk(list, contents, b);
    DropAt(chain, i);
    forall x | x in less && Bucket(x, |list|) == b ensures Slot(x, less[x]) in next {
      KeyInChain(list, contents, x, b);
    }
    ChainChanged(list, contents, b, next, less);
  }

  lemma DropAt(chain: seq<Slot>, i: nat)
    requires DistinctKeys(chain) && i < |chain|
    ensures var next := chain[..i] + chain[i + 1..];
      && DistinctKeys(next)
      && (forall s :: s in next <==> s in chain && s.key != chain[i].key)
  {
    var next := chain[..i] + chain[i + 1..];
    forall s | s in chain && s.key != chain[i].key ensures s in next {
      var j :| 0 <= j < |chain| && chain[j] == s;
      assert next[if j < i then j else j - 1] == s;
    }
    forall s | s in next ensures s in chain && s.key != chain[i].key {
      var j :| 0 <= j < |next| && next[j] == s;
      assert s == chain[if j < i then j else j + 1];
    }
  }

  /** One old chain: each slot goes to the front of its new chain. */
  method MoveChain(newList: seq<seq<Slot>>, ghost moved: Contents, list: seq<seq<Slot>>, ghost contents: Contents, i: nat)
    returns (r: seq<seq<Slot>>, ghost after: Contents)
    requires Holds(newList, moved) && Holds(list, contents) && i < |list|
    requires forall k :: k in moved ==> k in contents && moved[k] == contents[k] && Bucket(k, |list|) < i
    ensures |r| == |newList| && Holds(r, after)
    ensures forall k :: k in after <==> k in moved || (k in contents && Bucket(k, |list|) == i)
    ensures forall k :: k in after ==> k in contents && after[k] == contents[k]
  {
    r, after := newList, moved;
    var chain := list[i];
    assert ChainOk(list, contents, i);
    for n := 0 to |chain|
      invariant |r| == |newList| && Holds(r, after)
      invariant forall k :: k in after <==> k in moved || KeyBefore(chain, n, k)
      invariant forall k :: k in after ==> k in contents && after[k] == contents[k]
    {
      var s := chain[n];
      assert s in chain;
      var b := Bucket(s.key, |r|);
      assert !KeyBefore(chain, n, s.key);
      PushFront(r, after, s, b);
      r := r[b := [s] + r[b]];
      after := after[s.key := s.handle];
    }
    forall k ensures k in after <==> k in moved || (k in contents && Bucket(k, |list|) == i) {
      if k in contents && Bucket(k, |list|) == i {
        KeyInChain(list, contents, k, i);
        var j :| 0 <= j < |chain| && chain[j] == Slot(k, contents[k]);
        assert KeyBefore(chain, |chain|, k);
      }
      if KeyBefore(chain, |chain|, k) {
        var j :| 0 <= j < |chain| && chain[j].key == k;
        assert chain[j] in chain;
      }
    }
  }

  ghost predicate KeyBefore(chain: seq<Slot>, n: nat, k: CacheKey)
    requires n <= |chain|
  {
    exists j :: 0 <= j < n && chain[j].key == k
  }

  lemma PushFront(list: seq<seq<Slot>>, contents: Contents, s: Slot, b: nat)
    requires Holds(list, contents) && s.key !in contents && b == Bucket(s.key, |list|)
    ensures Holds(list[b := [s] + list[b]], contents[s.key := s.handle])
  {
    assert ChainOk(list, contents, b);
    forall k | k in contents && Bucket(k, |list|) == b ensures Slot(k, contents[k]) in [s] + list[b] {
      KeyInChain(list, contents, k, b);
    }
    ChainChanged(list, contents, b, [s] + list[b], contents[s.key := s.handle]);
  }
}
