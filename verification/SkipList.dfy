/**
 * The skip list of the memtable: db/skiplist.h. A pointer is the index of a node in the arena,
 * where nodes are only ever appended; node 0 is the head.
 */
module SkipList {
  import opened Keys
  import opened Sequences
  import opened Tables
  import opened Cursors

  const kMaxHeight: nat := 12

  type Pointer = Option<nat>

  datatype Node = Node(entry: Entry, next: seq<Pointer>)

  /** What a search looks for: FindGreaterOrEqual, FindLessThan, FindLast. */
  datatype Goal = AtOrAfter(key: InternalKey) | Before(key: InternalKey) | Last

  // ---------------------------------------------------------------------
  // The list at one level
  // ---------------------------------------------------------------------

  function After(c: seq<nat>, j: nat): Pointer {
    if j + 1 < |c| then Some(c[j + 1]) else None
  }

  /** The nodes of a list have a link at its level, and the links lead from each to the next. */
  ghost predicate Links(nodes: seq<Node>, level: nat, c: seq<nat>) {
    && (forall j :: 0 <= j < |c| ==> c[j] < |nodes| && level < |nodes[c[j]].next|)
    && (forall j :: 0 <= j < |c| ==> LinkAt(nodes, level, c, j))
  }

  ghost predicate LinkAt(nodes: seq<Node>, level: nat, c: seq<nat>, j: nat)
    requires j < |c| && c[j] < |nodes| && level < |nodes[c[j]].next|
  {
    nodes[c[j]].next[level] == After(c, j)
  }

  /** The entries of a level, in order. */
  function Content(nodes: seq<Node>, c: seq<nat>): (r: seq<Entry>)
    requires forall j :: 0 <= j < |c| ==> c[j] < |nodes|
    ensures |r| == if c == [] then 0 else |c| - 1
    ensures forall j :: 0 <= j < |r| ==> r[j] == nodes[c[j + 1]].entry
  {
    seq(if c == [] then 0 else |c| - 1, j requires 0 <= j && j + 1 < |c| => nodes[c[j + 1]].entry)
  }

  /** The links of a level lead from the head through the nodes `c`, in increasing order, to the end. */
  ghost predicate Chain(nodes: seq<Node>, level: nat, c: seq<nat>) {
    && |c| > 0 && c[0] == 0 && NoRepeats(c)
    && Links(nodes, level, c)
    && SortedEntries(Content(nodes, c))
  }

  /** The links determine the list. */
  lemma ChainUnique(nodes: seq<Node>, level: nat, c: seq<nat>, d: seq<nat>)
    requires Links(nodes, level, c) && Links(nodes, level, d) && |c| > 0 && |d| > 0 && c[0] == d[0]
    ensures c == d
  {
    var n := if |c| <= |d| then |c| else |d|;
    SameStart(nodes, level, c, d, n - 1);
    assert LinkAt(nodes, level, c, n - 1) && LinkAt(nodes, level, d, n - 1);
    forall j | 0 <= j < n ensures c[j] == d[j] {
      SameStart(nodes, level, c, d, j);
    }
  }

  lemma {:induction false} SameStart(nodes: seq<Node>, level: nat, c: seq<nat>, d: seq<nat>, j: nat)
    requires Links(nodes, level, c) && Links(nodes, level, d) && j < |c| && j < |d| && c[0] == d[0]
    ensures c[j] == d[j]
  {
    if j > 0 {
      SameStart(nodes, level, c, d, j - 1);
      assert LinkAt(nodes, level, c, j - 1) && LinkAt(nodes, level, d, j - 1);
    }
  }

  // ---------------------------------------------------------------------
  // One load
  // ---------------------------------------------------------------------

  predicate Precedes(goal: Goal, e: Entry) {
    match goal
    case AtOrAfter(k) => KeyLess(IKey(e), k)
    case Before(k) => KeyLess(IKey(e), k)
    case Last => true
  }

  /** The search goes on along the level. */
  predicate Passes(nodes: seq<Node>, goal: Goal, next: Pointer) {
    next.Some? && next.value < |nodes| && Precedes(goal, nodes[next.value].entry)
  }

  /** How many entries precede the goal. */
  function Rank(es: seq<Entry>, goal: Goal): (n: nat)
    ensures n <= |es|
  {
    match goal
    case AtOrAfter(k) => SeekIndex(es, k)
    case Before(k) => SeekIndex(es, k)
    case Last => |es|
  }

  /** A search for `goal` may stand at node `x` of the list. */
  ghost predicate Reached(nodes: seq<Node>, c: seq<nat>, goal: Goal, x: nat) {
    x in c && x < |nodes| && (x != 0 ==> Precedes(goal, nodes[x].entry))
  }

  /** Node `p` is the last one before the goal. */
  ghost predicate Stops(nodes: seq<Node>, c: seq<nat>, goal: Goal, p: nat)
    requires forall j :: 0 <= j < |c| ==> c[j] < |nodes|
  {
    |c| > 0 && p == c[Rank(Content(nodes, c), goal)]
  }

  /** A load at a node of the list either moves on to a later node of it or has found the last node before the goal. */
  lemma LoadMoves(nodes: seq<Node>, level: nat, c: seq<nat>, goal: Goal, x: nat)
    requires Chain(nodes, level, c) && Reached(nodes, c, goal, x)
    ensures level < |nodes[x].next|
    ensures var next := nodes[x].next[level];
      && (next.Some? ==> next.value < |nodes|)
      && (Passes(nodes, goal, next) ==> Reached(nodes, c, goal, next.value))
      && (!Passes(nodes, goal, next) ==> Stops(nodes, c, goal, x) && next == After(c, Rank(Content(nodes, c), goal)))
  {
    var j :| 0 <= j < |c| && c[j] == x;
    assert LinkAt(nodes, level, c, j);
    var es := Content(nodes, c);
    if !Passes(nodes, goal, nodes[x].next[level]) && !goal.Last? {
      assert j > 0 ==> es[j - 1] == nodes[x].entry;
      SeekIndexUnique(es, goal.key, j);
    }
  }

  // ---------------------------------------------------------------------
  // One store
  // ---------------------------------------------------------------------

  function SetNext(nodes: seq<Node>, x: nat, level: nat, v: Pointer): seq<Node>
    requires x < |nodes| && level < |nodes[x].next|
  {
    nodes[x := nodes[x].(next := nodes[x].next[level := v])]
  }

  /** A store to another level, or to a node that is not in the list, does not touch the list. */
  lemma StoreElsewhere(nodes: seq<Node>, x: nat, i: nat, v: Pointer, level: nat, c: seq<nat>)
    requires Chain(nodes, level, c) && x < |nodes| && i < |nodes[x].next|
    requires i != level || x !in c
    ensures Chain(SetNext(nodes, x, i, v), level, c) && Content(SetNext(nodes, x, i, v), c) == Content(nodes, c)
  {
    LinksElsewhere(nodes, x, i, v, level, c);
  }

  lemma LinksElsewhere(nodes: seq<Node>, x: nat, i: nat, v: Pointer, level: nat, c: seq<nat>)
    requires Links(nodes, level, c) && x < |nodes| && i < |nodes[x].next|
    requires i != level || x !in c
    ensures Links(SetNext(nodes, x, i, v), level, c)
    ensures Content(SetNext(nodes, x, i, v), c) == Content(nodes, c)
  {
    var after := SetNext(nodes, x, i, v);
    forall j | 0 <= j < |c|
      ensures LinkAt(after, level, c, j)
    {
      assert c[j] in c && LinkAt(nodes, level, c, j);
    }
    assert Content(after, c) == Content(nodes, c);
  }

  function Linked(c: seq<nat>, n: nat, x: nat): seq<nat>
    requires n < |c|
  {
    c[..n + 1] + [x] + c[n + 1..]
  }

  /** The entries with `e` added at its place. */
  function Added(es: seq<Entry>, e: Entry): seq<Entry> {
    var n := SeekIndex(es, IKey(e));
    es[..n] + [e] + es[n..]
  }

  /** No entry of the list compares equal to `e`. */
  predicate NoEqual(es: seq<Entry>, e: Entry) {
    forall x :: x in es ==> EntryLess(x, e) || EntryLess(e, x)
  }

  /** Storing a prepared node into its predecessor adds it to the list at its place. */
  lemma StoreLinks(nodes: seq<Node>, level: nat, c: seq<nat>, p: nat, x: nat)
    requires Chain(nodes, level, c) && x !in c && x < |nodes| && level < |nodes[x].next|
    requires NoEqual(Content(nodes, c), nodes[x].entry)
    requires Stops(nodes, c, AtOrAfter(IKey(nodes[x].entry)), p)
    requires nodes[x].next[level] == nodes[p].next[level]
    ensures var n := SeekIndex(Content(nodes, c), IKey(nodes[x].entry));
      var after := SetNext(nodes, p, level, Some(x));
      && Chain(after, level, Linked(c, n, x))
      && Content(after, Linked(c, n, x)) == Added(Content(nodes, c), nodes[x].entry)
  {
    var n := SeekIndex(Content(nodes, c), IKey(nodes[x].entry));
    LinksAfterStore(nodes, level, c, n, x);
    ContentAfterStore(nodes, level, c, n, x);
    AddedIsSorted(Content(nodes, c), nodes[x].entry);
  }

  lemma LinkedAt(c: seq<nat>, n: nat, x: nat)
    requires n < |c| && NoRepeats(c) && x !in c
    ensures var d := Linked(c, n, x);
      && |d| == |c| + 1 && d[0] == c[0] && NoRepeats(d)
      && forall j :: 0 <= j < |d| ==> d[j] == if j <= n then c[j] else if j == n + 1 then x else c[j - 1]
  {
  }

  lemma LinksAfterStore(nodes: seq<Node>, level: nat, c: seq<nat>, n: nat, x: nat)
    requires Links(nodes, level, c) && NoRepeats(c) && n < |c|
    requires x !in c && x < |nodes| && level < |nodes[x].next| && nodes[x].next[level] == nodes[c[n]].next[level]
    ensures Links(SetNext(nodes, c[n], level, Some(x)), level, Linked(c, n, x)) && NoRepeats(Linked(c, n, x))
  {
    var after, d := SetNext(nodes, c[n], level, Some(x)), Linked(c, n, x);
    LinkedAt(c, n, x);
    forall j | 0 <= j < |d|
      ensures LinkAt(after, level, d, j)
    {
      assert LinkAt(nodes, level, c, if j <= n then j else j - 1);
    }
  }

  lemma ContentAfterStore(nodes: seq<Node>, level: nat, c: seq<nat>, n: nat, x: nat)
    requires Links(nodes, level, c) && NoRepeats(c) && n < |c| && x !in c && x < |nodes|
    requires forall j :: 0 <= j < |Linked(c, n, x)| ==> Linked(c, n, x)[j] < |nodes|
    ensures var es := Content(nodes, c);
      Content(SetNext(nodes, c[n], level, Some(x)), Linked(c, n, x)) == es[..n] + [nodes[x].entry] + es[n..]
  {
    LinkedAt(c, n, x);
  }

  lemma AddedIsSorted(es: seq<Entry>, e: Entry)
    requires SortedEntries(es) && NoEqual(es, e)
    ensures SortedEntries(Added(es, e))
  {
    var n := SeekIndex(es, IKey(e));
    var r := Added(es, e);
    forall i, j | 0 <= i < j < |r| ensures EntryLess(r[i], r[j]) {
      if i == n {
        assert es[n] in es && r[j] == es[j - 1];
        EntriesInOrder(es, n, j - 1);
      } else {
        assert j != n ==> EntryLess(es[if i < n then i else i - 1], es[if j < n then j else j - 1]);
      }
    }
  }

  // ---------------------------------------------------------------------
  // All levels
  // ---------------------------------------------------------------------

  predicate Within(d: seq<nat>, c: seq<nat>) {
    forall x :: x in d ==> x in c
  }

  /** Each level is sorted and holds only nodes of the level below. */
  ghost predicate Shape(nodes: seq<Node>, maxHeight: nat, cs: seq<seq<nat>>) {
    && |cs| == kMaxHeight && 1 <= maxHeight <= kMaxHeight
    && (forall i :: 0 <= i < |cs| ==> Chain(nodes, i, cs[i]))
    && (forall i, j :: 0 <= i && j == i + 1 && j < |cs| ==> Within(cs[j], cs[i]))
    && (forall i :: maxHeight <= i < |cs| ==> cs[i] == [0])
  }

  /** Strictly increasing positions at which the nodes of `d` are found in `c`: `d` is a sublist of `c`. */
  ghost predicate Sublist(d: seq<nat>, c: seq<nat>, at: seq<nat>) {
    && |at| == |d|
    && (forall i :: 0 <= i < |d| ==> at[i] < |c| && c[at[i]] == d[i])
    && (forall i, j :: 0 <= i < j < |at| ==> at[i] < at[j])
  }

  lemma {:induction false} PlacesOf(c: seq<nat>, d: seq<nat>) returns (at: seq<nat>)
    requires Within(d, c)
    ensures |at| == |d| && forall i :: 0 <= i < |d| ==> at[i] < |c| && c[at[i]] == d[i]
  {
    at := [];
    if d != [] {
      assert Within(d[1..], c);
      at := PlacesOf(c, d[1..]);
      assert d[0] in d;
      var n :| 0 <= n < |c| && c[n] == d[0];
      at := [n] + at;
    }
  }

  /** Because both levels are sorted, inclusion makes the upper level a sublist of the lower. */
  lemma LevelIsSublist(nodes: seq<Node>, c: seq<nat>, d: seq<nat>, level: nat) returns (at: seq<nat>)
    requires Chain(nodes, level, c) && Chain(nodes, level + 1, d) && Within(d, c)
    ensures Sublist(d, c, at)
  {
    at := PlacesOf(c, d);
    forall i, j | 0 <= i < j < |at| ensures at[i] < at[j] {
      KeepsOrder(nodes, level, c, d, at[i], at[j], i, j);
    }
  }

  lemma HeadsAgree(c: seq<nat>, d: seq<nat>, a: nat, i: nat)
    requires NoRepeats(c) && NoRepeats(d) && a < |c| && i < |d| && c[0] == d[0] && c[a] == d[i]
    ensures a == 0 <==> i == 0
  {
  }

  lemma KeepsOrder(nodes: seq<Node>, level: nat, c: seq<nat>, d: seq<nat>, a: nat, b: nat, i: nat, j: nat)
    requires Chain(nodes, level, c) && Chain(nodes, level + 1, d) && i < j < |d|
    requires a < |c| && b < |c| && c[a] == d[i] && c[b] == d[j]
    ensures a < b
  {
    HeadsAgree(c, d, a, i);
    HeadsAgree(c, d, b, j);
    if i > 0 {
      var cs, ds := Content(nodes, c), Content(nodes, d);
      OrderTells(cs, ds, a - 1, b - 1, i - 1, j - 1);
    }
  }

  lemma OrderTells(cs: seq<Entry>, ds: seq<Entry>, a: nat, b: nat, i: nat, j: nat)
    requires SortedEntries(cs) && SortedEntries(ds) && a < |cs| && b < |cs| && i < j < |ds|
    requires cs[a] == ds[i] && cs[b] == ds[j]
    ensures a < b
  {
    EntriesInOrder(ds, i, j);
    EntriesInOrder(cs, b, a);
  }
}
