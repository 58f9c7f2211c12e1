/**
 * A shard of the cache: util/cache.cc:149-333. A handle is named by the order of its allocation;
 * the two linked lists are sequences, oldest entry first.
 */
module LruCache {
  import opened Keys
  import opened Sequences
  import opened HashTable

  datatype Handle = Handle(key: CacheKey, value: nat, charge: nat, inCache: bool, refs: nat)

  /** `deleted` records the calls of deleters, in order. */
  datatype Cache = Cache(handles: map<nat, Handle>, lru: seq<nat>, inUse: seq<nat>, usage: nat, next: nat, deleted: seq<nat>)

  // ---------------------------------------------------------------------
  // Lists and sums
  // ---------------------------------------------------------------------

  /** LRU_Remove. */
  function Without(s: seq<nat>, x: nat): (r: seq<nat>)
    ensures forall y :: y in r <==> y in s && y != x
    ensures x !in s ==> r == s
  {
    if s == [] then []
    else
      var rest := Without(s[1..], x);
      assert forall y :: y in s <==> y == s[0] || y in s[1..];
      if s[0] == x then rest else [s[0]] + rest
  }

  lemma {:induction false} WithoutKeepsDistinct(s: seq<nat>, x: nat)
    requires NoRepeats(s)
    ensures NoRepeats(Without(s, x))
  {
    if s != [] {
      assert NoRepeats(s[1..]);
      WithoutKeepsDistinct(s[1..], x);
      var rest := Without(s[1..], x);
      forall i | 0 <= i < |rest| ensures rest[i] != s[0] {
        assert rest[i] in rest;
        var j :| 0 <= j < |s[1..]| && s[1..][j] == rest[i];
      }
    }
  }

  lemma AppendKeepsDistinct(s: seq<nat>, x: nat)
    requires NoRepeats(s) && x !in s
    ensures NoRepeats(s + [x])
  {
  }

  ghost function Cached(handles: map<nat, Handle>): set<nat> {
    set id | id in handles && handles[id].inCache
  }

  ghost function Total(handles: map<nat, Handle>, ids: set<nat>): nat
    requires ids <= handles.Keys
  {
    if ids == {} then 0
    else
      var id :| id in ids;
      handles[id].charge + Total(handles, ids - {id})
  }

  lemma {:induction false} TotalWithout(handles: map<nat, Handle>, ids: set<nat>, x: nat)
    requires ids <= handles.Keys && x in ids
    ensures Total(handles, ids) == handles[x].charge + Total(handles, ids - {x})
    decreases ids
  {
    var id :| id in ids && Total(handles, ids) == handles[id].charge + Total(handles, ids - {id});
    if id != x {
      TotalWithout(handles, ids - {id}, x);
      TotalWithout(handles, ids - {x}, id);
      assert ids - {id} - {x} == ids - {x} - {id};
    }
  }

  lemma {:induction false} TotalSame(before: map<nat, Handle>, after: map<nat, Handle>, ids: set<nat>)
    requires ids <= before.Keys && ids <= after.Keys
    requires forall id :: id in ids ==> before[id].charge == after[id].charge
    ensures Total(before, ids) == Total(after, ids)
    decreases ids
  {
    if ids != {} {
      var x :| x in ids;
      TotalWithout(before, ids, x);
      TotalWithout(after, ids, x);
      TotalSame(before, after, ids - {x});
    }
  }

  // ---------------------------------------------------------------------
  // The invariant
  // ---------------------------------------------------------------------

  /** References held by clients. */
  function ClientRefs(h: Handle): int {
    h.refs - if h.inCache then 1 else 0
  }

  /** A handle is in one list at most, and the table leads to it if it is in the cache and not `loose`. */
  ghost predicate HandleOk(c: Cache, contents: Contents, loose: Option<nat>, id: nat)
    requires id in c.handles
  {
    var h := c.handles[id];
    && h.refs >= 1 && id < c.next && id !in c.deleted
    && (id in c.lru <==> h.inCache && h.refs == 1)
    && (id in c.inUse <==> h.inCache && h.refs >= 2)
    && (h.inCache ==> loose == Some(id) || (h.key in contents && contents[h.key] == id))
  }

  ghost predicate Lists(c: Cache, contents: Contents, loose: Option<nat>) {
    && (forall id :: id in c.handles ==> HandleOk(c, contents, loose, id))
    && (forall id :: id in c.lru || id in c.inUse ==> id in c.handles)
    && NoRepeats(c.lru) && NoRepeats(c.inUse)
  }

  /** The table leads to cached handles only. */
  ghost predicate Leads(c: Cache, contents: Contents, loose: Option<nat>) {
    && (forall k :: k in contents ==> contents[k] in c.handles && c.handles[contents[k]].inCache && c.handles[contents[k]].key == k)
    && (loose.Some? ==> loose.value in c.handles && c.handles[loose.value].inCache && forall k :: k in contents ==> contents[k] != loose.value)
  }

  /** The usage is the charge of what is in the cache. */
  ghost predicate Accounts(c: Cache) {
    c.usage == Total(c.handles, Cached(c.handles))
  }

  /** Every handle ever made is still there or was deleted, once. */
  ghost predicate History(c: Cache) {
    && NoRepeats(c.deleted)
    && (forall id: nat :: id < c.next ==> id in c.handles || id in c.deleted)
    && (forall id :: id in c.deleted ==> id < c.next)
  }

  ghost predicate Ok(c: Cache, contents: Contents, loose: Option<nat>) {
    Lists(c, contents, loose) && Leads(c, contents, loose) && Accounts(c) && History(c)
  }

  // ---------------------------------------------------------------------
  // What the private operations do
  // ---------------------------------------------------------------------

  function AddRef(c: Cache, id: nat): Cache
    requires id in c.handles
  {
    var h := c.handles[id];
    var moved := if h.refs == 1 && h.inCache then c.(lru := Without(c.lru, id), inUse := c.inUse + [id]) else c;
    moved.(handles := c.handles[id := h.(refs := h.refs + 1)])
  }

  function DropRef(c: Cache, id: nat): Cache
    requires id in c.handles && c.handles[id].refs > 0
  {
    var h := c.handles[id].(refs := c.handles[id].refs - 1);
    if h.refs == 0 then c.(handles := c.handles - {id}, deleted := c.deleted + [id])
    else if h.inCache && h.refs == 1 then
      c.(handles := c.handles[id := h], lru := Without(c.lru, id) + [id], inUse := Without(c.inUse, id))
    else c.(handles := c.handles[id := h])
  }

  /** FinishErase, up to the loss of the reference of the cache. */
  function Detach(c: Cache, id: nat): Cache
    requires id in c.handles
  {
    var h := c.handles[id];
    c.(handles := c.handles[id := h.(inCache := false)], lru := Without(c.lru, id), inUse := Without(c.inUse, id),
       usage := if c.usage >= h.charge then c.usage - h.charge else 0)
  }

  lemma AddRefKeeps(c: Cache, contents: Contents, id: nat)
    requires Ok(c, contents, None) && id in c.handles
    ensures Ok(AddRef(c, id), contents, None)
  {
    var after := AddRef(c, id);
    assert HandleOk(c, contents, None, id);
    SameCharges(c, after);
    WithoutKeepsDistinct(c.lru, id);
    forall x | x in after.handles ensures HandleOk(after, contents, None, x) {
      assert HandleOk(c, contents, None, x);
    }
  }

  lemma SameCharges(c: Cache, after: Cache)
    requires Accounts(c) && after.usage == c.usage && Cached(after.handles) == Cached(c.handles)
    requires forall id :: id in Cached(c.handles) ==> c.handles[id].charge == after.handles[id].charge
    ensures Accounts(after)
  {
    TotalSame(c.handles, after.handles, Cached(c.handles));
  }

  lemma DropKeepsLists(c: Cache, contents: Contents, id: nat)
    requires Lists(c, contents, None) && id in c.handles && ClientRefs(c.handles[id]) >= 1
    ensures Lists(DropRef(c, id), contents, None)
  {
    var after := DropRef(c, id);
    assert HandleOk(c, contents, None, id);
    WithoutKeepsDistinct(c.inUse, id);
    forall x | x in after.handles ensures HandleOk(after, contents, None, x) {
      assert HandleOk(c, contents, None, x);
    }
  }

  /** A client gives up a reference; the handle goes away with the last one. */
  lemma DropRefKeeps(c: Cache, contents: Contents, id: nat)
    requires Ok(c, contents, None) && id in c.handles && ClientRefs(c.handles[id]) >= 1
    ensures Ok(DropRef(c, id), contents, None)
  {
    assert HandleOk(c, contents, None, id);
    DropKeepsLists(c, contents, id);
    assert Cached(DropRef(c, id).handles) == Cached(c.handles);
    SameCharges(c, DropRef(c, id));
  }

  lemma DetachKeepsLists(c: Cache, contents: Contents, id: nat)
    requires Lists(c, contents, Some(id)) && id in c.handles && (forall k :: k in contents ==> contents[k] != id)
    ensures Lists(Detach(c, id), contents, None)
  {
    var after := Detach(c, id);
    WithoutKeepsDistinct(c.lru, id);
    WithoutKeepsDistinct(c.inUse, id);
    forall x | x in after.handles ensures HandleOk(after, contents, None, x) {
      assert HandleOk(c, contents, Some(id), x);
    }
  }

  /** A handle that the table no longer leads to leaves the cache; its last reference is then an ordinary one. */
  lemma DetachKeeps(c: Cache, contents: Contents, id: nat)
    requires Ok(c, contents, Some(id))
    ensures id in c.handles && c.usage >= c.handles[id].charge && ClientRefs(Detach(c, id).handles[id]) >= 1
    ensures Ok(Detach(c, id), contents, None)
  {
    var after := Detach(c, id);
    assert HandleOk(c, contents, Some(id), id);
    DetachKeepsLists(c, contents, id);
    assert Cached(after.handles) == Cached(c.handles) - {id};
    TotalWithout(c.handles, Cached(c.handles), id);
    TotalSame(c.handles, after.handles, Cached(after.handles));
  }

  // ---------------------------------------------------------------------
  // Insertion
  // ---------------------------------------------------------------------

  /** A new handle, with one reference for the client and one for the cache if it is to be cached. */
  function NewHandle(c: Cache, key: CacheKey, value: nat, charge: nat, cached: bool): Cache {
    var h := Handle(key, value, charge, cached, if cached then 2 else 1);
    var made := c.(handles := c.handles[c.next := h], next := c.next + 1);
    if cached then made.(inUse := c.inUse + [c.next], usage := c.usage + charge) else made
  }

  /** The cache with the new handle, before anything is evicted; a handle replaced under the key has left. */
  ghost function Inserted(c: Cache, contents: Contents, key: CacheKey, value: nat, charge: nat, capacity: nat): Cache {
    var made := NewHandle(c, key, value, charge, capacity > 0);
    if capacity > 0 && key in contents && contents[key] in made.handles && made.handles[contents[key]].refs > 0
    then DropRef(Detach(made, contents[key]), contents[key]) else made
  }

  /** After the table leads to the new handle, the one it led to before is loose. */
  lemma InsertKeeps(c: Cache, contents: Contents, key: CacheKey, value: nat, charge: nat)
    requires Ok(c, contents, None)
    ensures Ok(NewHandle(c, key, value, charge, true), contents[key := c.next], if key in contents then Some(contents[key]) else None)
  {
    var after, more := NewHandle(c, key, value, charge, true), contents[key := c.next];
    var loose := if key in contents then Some(contents[key]) else None;
    FreshIsNew(c, contents);
    AppendKeepsDistinct(c.inUse, c.next);
    forall x | x in after.handles ensures HandleOk(after, more, loose, x) {
      assert x != c.next ==> HandleOk(c, contents, None, x);
    }
    NewIsCharged(c, after);
  }

  lemma FreshIsNew(c: Cache, contents: Contents)
    requires Ok(c, contents, None)
    ensures c.next !in c.handles && c.next !in c.lru && c.next !in c.inUse && c.next !in c.deleted
    ensures forall k :: k in contents ==> contents[k] != c.next
  {
    assert c.next in c.handles ==> HandleOk(c, contents, None, c.next);
  }

  lemma NewIsCharged(c: Cache, after: Cache)
    requires Accounts(c) && c.next !in c.handles && c.next in after.handles && after.handles[c.next].inCache
    requires after.handles == c.handles[c.next := after.handles[c.next]] && after.usage == c.usage + after.handles[c.next].charge
    ensures Accounts(after)
  {
    assert Cached(after.handles) - {c.next} == Cached(c.handles);
    TotalWithout(after.handles, Cached(after.handles), c.next);
    TotalSame(c.handles, after.handles, Cached(c.handles));
  }

  lemma UncachedKeeps(c: Cache, contents: Contents, key: CacheKey, value: nat, charge: nat)
    requires Ok(c, contents, None)
    ensures Ok(NewHandle(c, key, value, charge, false), contents, None)
  {
    var after := NewHandle(c, key, value, charge, false);
    FreshIsNew(c, contents);
    forall x | x in after.handles ensures HandleOk(after, contents, None, x) {
      assert x != c.next ==> HandleOk(c, contents, None, x);
    }
    assert Cached(after.handles) == Cached(c.handles);
    SameCharges(c, after);
  }

  /** Taking a key out of the table makes its handle loose. */
  lemma RemoveKeeps(c: Cache, contents: Contents, key: CacheKey)
    requires Ok(c, contents, None)
    ensures Ok(c, contents - {key}, if key in contents then Some(contents[key]) else None)
  {
    var loose := if key in contents then Some(contents[key]) else None;
    forall x | x in c.handles ensures HandleOk(c, contents - {key}, loose, x) {
      assert HandleOk(c, contents, None, x);
    }
  }

  // ---------------------------------------------------------------------
  // Eviction
  // ---------------------------------------------------------------------

  /** The oldest unreferenced handle leaves the cache and is deleted. */
  lemma EvictOldest(c: Cache, contents: Contents)
    requires Ok(c, contents, None) && c.lru != []
    ensures var id := c.lru[0];
      && id in c.handles && c.handles[id].refs == 1 && c.handles[id].key in contents && contents[c.handles[id].key] == id
      && c.usage >= c.handles[id].charge
      && var after := DropRef(Detach(c, id), id);
         && after.lru == c.lru[1..] && after.inUse == c.inUse && after.next == c.next
         && after.deleted == c.deleted + [id] && after.handles == c.handles - {id} && after.usage == c.usage - c.handles[id].charge
  {
    var id := c.lru[0];
    assert id in c.lru && HandleOk(c, contents, None, id);
    WithoutFirst(c.lru);
    RemoveKeeps(c, contents, c.handles[id].key);
    DetachKeeps(c, contents - {c.handles[id].key}, id);
    assert Detach(c, id).handles - {id} == c.handles - {id};
  }

  lemma OldestIsEvicted(c: Cache, contents: Contents)
    requires Ok(c, contents, None) && c.lru != []
    ensures c.lru[0] in c.handles && c.handles[c.lru[0]].refs > 0
    ensures Evicted(c, DropRef(Detach(c, c.lru[0]), c.lru[0]), 1)
  {
    EvictOldest(c, contents);
    assert c.lru[..1] == [c.lru[0]] && Oldest(c, 1) == {c.lru[0]};
    assert Charges(c, 1) == Charges(c, 0) + c.handles[c.lru[0]].charge;
  }

  lemma WithoutFirst(s: seq<nat>)
    requires s != [] && NoRepeats(s)
    ensures Without(s, s[0]) == s[1..]
  {
    assert s[0] !in s[1..];
  }

  /** The charges of the `n` oldest unreferenced handles. */
  ghost function Charges(c: Cache, n: nat): nat
    requires n <= |c.lru|
  {
    if n == 0 then 0
    else Charges(c, n - 1) + if c.lru[n - 1] in c.handles then c.handles[c.lru[n - 1]].charge else 0
  }

  ghost function Oldest(c: Cache, n: nat): set<nat>
    requires n <= |c.lru|
  {
    set id | id in c.lru[..n]
  }

  /** The `n` oldest unreferenced handles have been deleted, and nothing else has changed. */
  ghost predicate Evicted(before: Cache, after: Cache, n: nat) {
    && n <= |before.lru| && Charges(before, n) <= before.usage
    && after == before.(handles := before.handles - Oldest(before, n), lru := before.lru[n..],
                        usage := before.usage - Charges(before, n), deleted := before.deleted + before.lru[..n])
  }

  /** No more of them than it takes: before each one the cache was over capacity. */
  ghost predicate EvictedLeast(before: Cache, after: Cache, n: nat, capacity: nat) {
    && Evicted(before, after, n)
    && TooFull(before, n, capacity)
    && (after.usage <= capacity || after.lru == [])
  }

  /** With fewer than `n` of the oldest handles deleted the cache is over capacity. */
  ghost predicate TooFull(c: Cache, n: nat, capacity: nat)
    requires n <= |c.lru|
  {
    forall i :: 0 <= i < n ==> c.usage - Charges(c, i) > capacity
  }

  /** The unreferenced handles are there, each once. */
  ghost predicate LruOk(c: Cache) {
    NoRepeats(c.lru) && forall id :: id in c.lru ==> id in c.handles
  }

  lemma NoneEvicted(c: Cache)
    ensures Evicted(c, c, 0)
  {
    assert c.handles - Oldest(c, 0) == c.handles && c.deleted + c.lru[..0] == c.deleted;
  }

  /** The keys of the `n` oldest. */
  ghost function OldestKeys(c: Cache, n: nat): set<CacheKey>
    requires n <= |c.lru|
  {
    set id | id in c.lru[..n] && id in c.handles :: c.handles[id].key
  }

  lemma OneMoreKey(c: Cache, n: nat)
    requires n < |c.lru| && c.lru[n] in c.handles
    ensures OldestKeys(c, n + 1) == OldestKeys(c, n) + {c.handles[c.lru[n]].key}
    ensures Oldest(c, n + 1) == Oldest(c, n) + {c.lru[n]}
  {
    assert c.lru[..n + 1] == c.lru[..n] + [c.lru[n]];
  }

  lemma MinusBoth(contents: Contents, keys: set<CacheKey>, key: CacheKey)
    ensures contents - keys - {key} == contents - (keys + {key})
  {
  }

  lemma EvictedOneMore(before: Cache, mid: Cache, after: Cache, n: nat, more: nat)
    requires LruOk(before)
    requires Evicted(before, mid, n) && mid.lru != [] && Evicted(mid, after, 1) && more == n + 1
    ensures Evicted(before, after, more) && OldestKeys(before, more) == OldestKeys(before, n) + {before.handles[before.lru[n]].key}
    ensures before.lru[n] in mid.handles && mid.handles[before.lru[n]] == before.handles[before.lru[n]]
  {
    var x := before.lru[n];
    assert before.lru[..n + 1] == before.lru[..n] + mid.lru[..1];
    assert before.lru[n..][1..] == before.lru[n + 1..];
    assert mid.lru[0] == x && x !in before.lru[..n] && x in before.lru;
    assert mid.lru[..1] == [x] && Oldest(mid, 1) == {x};
    OneMoreKey(before, n);
    assert Charges(mid, 1) == Charges(mid, 0) + mid.handles[x].charge;
    assert before.handles - Oldest(before, n) - {x} == before.handles - Oldest(before, n + 1);
    assert before.deleted + before.lru[..n] + mid.lru[..1] == before.deleted + before.lru[..n + 1];
  }

  /** The table leads to a handle that a client holds. */
  ghost predicate Held(c: Cache, contents: Contents, id: nat, h: Handle) {
    && id in c.handles && c.handles[id] == h && h.inCache && h.refs >= 2
    && h.key in contents && contents[h.key] == id
  }

  /** Evicting another handle leaves it alone. */
  lemma HeldStays(c: Cache, contents: Contents, id: nat, h: Handle)
    requires Ok(c, contents, None) && Held(c, contents, id, h) && c.lru != []
    ensures c.lru[0] in c.handles && c.lru[0] != id && c.handles[c.lru[0]].key != h.key
  {
    assert c.lru[0] in c.lru && HandleOk(c, contents, None, c.lru[0]);
  }

  // ---------------------------------------------------------------------
  // The shard
  // ---------------------------------------------------------------------

  class LRUCache {
    const capacity: nat
    const table: HandleTable
    var handles: map<nat, Handle>
    var lru: seq<nat>
    var inUse: seq<nat>
    var usage: nat
    var next: nat
    var deleted: seq<nat>

    function Abs(): Cache
      reads this
    {
      Cache(handles, lru, inUse, usage, next, deleted)
    }

    ghost predicate Valid()
      reads this, table
    {
      table.Valid() && Ok(Abs(), table.contents, None)
    }

    constructor (capacity: nat)
      ensures Valid() && fresh(table) && table.contents == map[] && this.capacity == capacity
    {
      this.capacity := capacity;
      table := new HandleTable();
      handles, lru, inUse, usage, next, deleted := map[], [], [], 0, 0, [];
    }

    method Ref(id: nat)
      requires id in handles
      modifies this
      ensures Abs() == AddRef(old(Abs()), id)
    {
      var h := handles[id];
      if h.refs == 1 && h.inCache {
        lru := Without(lru, id);
        inUse := inUse + [id];
      }
      handles := handles[id := h.(refs := h.refs + 1)];
    }

    method Unref(id: nat)
      requires id in handles && handles[id].refs > 0
      modifies this
      ensures Abs() == DropRef(old(Abs()), id)
    {
      var h := handles[id].(refs := handles[id].refs - 1);
      handles := handles[id := h];
      if h.refs == 0 {
        deleted := deleted + [id];
        assert handles - {id} == old(handles) - {id};
        handles := handles - {id};
      } else if h.inCache && h.refs == 1 {
        lru := Without(lru, id) + [id];
        inUse := Without(inUse, id);
      }
    }

    /** A hit takes a reference. */
    method Lookup(key: CacheKey) returns (r: Option<nat>)
      requires Valid()
      modifies this
      ensures Valid() && r == if key in table.contents then Some(table.contents[key]) else None
      ensures r.Some? ==> r.value in old(handles) && Abs() == AddRef(old(Abs()), r.value)
      ensures r.None? ==> Abs() == old(Abs())
    {
      r := table.Lookup(key);
      if r.Some? {
        AddRefKeeps(Abs(), table.contents, r.value);
        Ref(r.value);
      }
    }

    method Release(id: nat)
      requires Valid() && id in handles && ClientRefs(handles[id]) >= 1
      modifies this
      ensures Valid() && Abs() == DropRef(old(Abs()), id)
    {
      DropRefKeeps(Abs(), table.contents, id);
      Unref(id);
    }

    method FinishErase(e: Option<nat>) returns (erased: bool)
      requires table.Valid() && Ok(Abs(), table.contents, e)
      modifies this
      ensures Valid() && (erased <==> e.Some?)
      ensures e.Some? ==> e.value in old(handles) && Abs() == DropRef(Detach(old(Abs()), e.value), e.value)
      ensures e.None? ==> Abs() == old(Abs())
    {
      erased := e.Some?;
      if e.Some? {
        var id := e.value;
        DetachKeeps(Abs(), table.contents, id);
        DropRefKeeps(Detach(Abs(), id), table.contents, id);
        Leave(id);
        Unref(id);
      }
    }

    method Leave(id: nat)
      requires id in handles && usage >= handles[id].charge
      modifies this
      ensures Abs() == Detach(old(Abs()), id)
    {
      var h := handles[id];
      lru, inUse := Without(lru, id), Without(inUse, id);
      handles := handles[id := h.(inCache := false)];
      usage := usage - h.charge;
    }

    method Erase(key: CacheKey)
      requires Valid()
      modifies this, table
      ensures Valid() && table.contents == old(table.contents) - {key}
      ensures key !in old(table.contents) ==> Abs() == old(Abs())
      ensures key in old(table.contents) ==>
        var id := old(table.contents)[key];
        id in old(handles) && old(handles)[id].refs > 0 && Abs() == DropRef(Detach(old(Abs()), id), id)
    {
      RemoveKeeps(Abs(), table.contents, key);
      var e := table.Remove(key);
      var _ := FinishErase(e);
    }

    /**
     * Adds an entry under the key, with one reference for the caller. Then the least number of
     * unreferenced entries is deleted, oldest first, that brings the cache down to its capacity; if all
     * of them are not enough, all of them.
     */
    method Insert(key: CacheKey, value: nat, charge: nat) returns (id: nat, ghost n: nat)
      requires Valid()
      modifies this, table
      ensures Valid() && id == old(next) && (usage <= capacity || lru == [])
      ensures capacity > 0 ==> Held(Abs(), table.contents, id, Handle(key, value, charge, true, 2))
      ensures capacity == 0 ==> id in handles && handles[id] == Handle(key, value, charge, false, 1)
      ensures var mid := Inserted(old(Abs()), old(table.contents), key, value, charge, capacity);
        && EvictedLeast(mid, Abs(), n, capacity)
        && table.contents == (if capacity > 0 then old(table.contents)[key := id] else old(table.contents)) - OldestKeys(mid, n)
    {
      id := next;
      if capacity > 0 {
        InsertKeeps(Abs(), table.contents, key, value, charge);
        Make(key, value, charge, true);
        var old_ := table.Insert(key, id);
        FreshStays(Abs(), id, old_);
        var _ := FinishErase(old_);
      } else {
        UncachedKeeps(Abs(), table.contents, key, value, charge);
        Make(key, value, charge, false);
      }
      n := Evict(id, handles[id]);
    }

    method Make(key: CacheKey, value: nat, charge: nat, cached: bool)
      modifies this
      ensures Abs() == NewHandle(old(Abs()), key, value, charge, cached)
    {
      handles := handles[next := Handle(key, value, charge, cached, if cached then 2 else 1)];
      if cached {
        inUse := inUse + [next];
        usage := usage + charge;
      }
      next := next + 1;
    }

    /** A handle the caller has; the table leads to it if it is cached. */
    ghost predicate Keeping(id: nat, h: Handle)
      reads this, table
    {
      id in handles && handles[id] == h && (h.inCache ==> Held(Abs(), table.contents, id, h))
    }

    /** Deletes unreferenced entries, oldest first, while the cache is over capacity. */
    method Evict(ghost kept: nat, ghost h: Handle) returns (ghost n: nat)
      requires Valid() && Keeping(kept, h)
      modifies this, table
      ensures Valid() && Keeping(kept, h) && EvictedLeast(old(Abs()), Abs(), n, capacity)
      ensures table.contents == old(table.contents) - OldestKeys(old(Abs()), n)
    {
      ghost var before, contents := Abs(), table.contents;
      n := 0;
      NoneEvicted(before);
      while usage > capacity && lru != []
        invariant Valid() && Keeping(kept, h) && LruOk(before) && Evicted(before, Abs(), n) && TooFull(before, n, capacity)
        invariant table.contents == contents - OldestKeys(before, n)
        decreases |lru|
      {
        n := EvictNext(kept, h, before, n, contents);
      }
    }

    /** One more of the oldest, after `n` of them. */
    method EvictNext(ghost kept: nat, ghost h: Handle, ghost before: Cache, ghost n: nat, ghost contents: Contents)
        returns (ghost more: nat)
      requires Valid() && Keeping(kept, h) && lru != [] && usage > capacity
      requires LruOk(before) && Evicted(before, Abs(), n) && TooFull(before, n, capacity)
      requires table.contents == contents - OldestKeys(before, n)
      modifies this, table
      ensures Valid() && Keeping(kept, h) && |lru| < |old(lru)|
      ensures more == n + 1 && Evicted(before, Abs(), more) && TooFull(before, more, capacity)
      ensures table.contents == contents - OldestKeys(before, more)
    {
      ghost var mid := Abs();
      more := n + 1;
      ghost var key := EvictOther(kept, h);
      EvictedOneMore(before, mid, Abs(), n, more);
      MinusBoth(contents, OldestKeys(before, n), key);
    }

    method EvictOther(ghost kept: nat, ghost h: Handle) returns (ghost key: CacheKey)
      requires Valid() && Keeping(kept, h) && lru != []
      modifies this, table
      ensures Valid() && Keeping(kept, h) && Evicted(old(Abs()), Abs(), 1) && |lru| < |old(lru)|
      ensures old(lru)[0] in old(handles) && key == old(handles)[old(lru)[0]].key
      ensures table.contents == old(table.contents) - {key}
    {
      if h.inCache {
        HeldStays(Abs(), table.contents, kept, h);
      } else {
        assert HandleOk(Abs(), table.contents, None, kept);
      }
      key := handles[lru[0]].key;
      EvictOne();
    }

    method EvictOne()
      requires Valid() && lru != []
      modifies this, table
      ensures Valid() && Evicted(old(Abs()), Abs(), 1) && handles == old(handles) - {old(lru)[0]}
      ensures old(lru)[0] in old(handles) && old(handles)[old(lru)[0]].refs == 1
      ensures table.contents == old(table.contents) - {old(handles)[old(lru)[0]].key}
    {
      var oldest := lru[0];
      EvictOldest(Abs(), table.contents);
      OldestIsEvicted(Abs(), table.contents);
      RemoveKeeps(Abs(), table.contents, handles[oldest].key);
      var e := table.Remove(handles[oldest].key);
      var _ := FinishErase(e);
    }

    /** Removes every unreferenced entry. */
    method Prune()
      requires Valid()
      modifies this, table
      ensures Valid() && lru == [] && Evicted(old(Abs()), Abs(), |old(lru)|)
    {
      ghost var n: nat, before := 0, Abs();
      NoneEvicted(before);
      while lru != []
        invariant Valid() && LruOk(before) && Evicted(before, Abs(), n)
        decreases |lru|
      {
        ghost var mid, more := Abs(), n + 1;
        EvictOne();
        EvictedOneMore(before, mid, Abs(), n, more);
        n := more;
      }
      assert n == |before.lru|;
    }
  }

  /** The new handle is not the one it replaces. */
  lemma FreshStays(c: Cache, id: nat, old_: Option<nat>)
    requires id in c.handles && (old_.Some? ==> old_.value in c.handles && old_.value != id && c.handles[old_.value].refs > 0)
    ensures old_.Some? ==>
      var after := DropRef(Detach(c, old_.value), old_.value).handles; id in after && after[id] == c.handles[id]
  {
  }
}
