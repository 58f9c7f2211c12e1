/**
 * The skip list under one inserting thread and any number of readers: every load and every store
 * of a link is a step, in any interleaving.
 */
module SkipListRuns {
  import opened Keys
  import opened Sequences
  import opened Tables
  import opened Cursors
  import opened SkipList

  /** Where the inserting thread stands in Insert. */
  datatype Writer =
    | Idle
    | Searching(e: Entry, height: nat, x: nat, level: nat, prev: seq<nat>)
    | Searched(e: Entry, height: nat, prev: seq<nat>)
    | Linking(node: nat, height: nat, prev: seq<nat>, level: nat, prepared: bool)

  /** Where a reader stands in a search, or what its iterator points to. */
  datatype Reader = Reading(goal: Goal, x: nat, level: nat) | Finished(result: Pointer)

  /** `chains` records the nodes linked at each level; by ChainUnique the links determine it. */
  datatype System = System(nodes: seq<Node>, maxHeight: nat, writer: Writer, readers: seq<Reader>, chains: seq<seq<nat>>)

  function Init(head: Entry): System {
    System([Node(head, seq(kMaxHeight, _ => None))], 1, Idle, [], seq(kMaxHeight, _ => [0]))
  }

  predicate InBounds(nodes: seq<Node>, x: nat, level: nat) {
    x < |nodes| && level < |nodes[x].next|
  }

  /** The entries in the list: those of the lowest level. */
  function Entries(s: System): seq<Entry>
    requires |s.chains| > 0 && forall j :: 0 <= j < |s.chains[0]| ==> s.chains[0][j] < |s.nodes|
  {
    Content(s.nodes, s.chains[0])
  }

  // ---------------------------------------------------------------------
  // Steps of readers
  // ---------------------------------------------------------------------

  /** FindLessThan and FindLast return the node they stand at; their callers take the head for null. */
  function Result(goal: Goal, x: nat, next: Pointer): Pointer {
    if goal.AtOrAfter? then next else if x == 0 then None else Some(x)
  }

  function Loaded(nodes: seq<Node>, r: Reader): Reader
    requires r.Reading? && InBounds(nodes, r.x, r.level)
  {
    var next := nodes[r.x].next[r.level];
    if Passes(nodes, r.goal, next) then r.(x := next.value)
    else if r.level == 0 then Finished(Result(r.goal, r.x, next))
    else r.(level := r.level - 1)
  }

  ghost predicate ReaderStarts(s: System, t: System, goal: Goal) {
    s.maxHeight > 0 && t == s.(readers := s.readers + [Reading(goal, 0, s.maxHeight - 1)])
  }

  ghost predicate ReaderLoads(s: System, t: System, i: nat) {
    && i < |s.readers| && s.readers[i].Reading? && InBounds(s.nodes, s.readers[i].x, s.readers[i].level)
    && t == s.(readers := s.readers[i := Loaded(s.nodes, s.readers[i])])
  }

  /** Iterator::Next. */
  ghost predicate ReaderAdvances(s: System, t: System, i: nat) {
    && i < |s.readers| && s.readers[i].Finished? && s.readers[i].result.Some?
    && InBounds(s.nodes, s.readers[i].result.value, 0)
    && t == s.(readers := s.readers[i := Finished(s.nodes[s.readers[i].result.value].next[0])])
  }

  // ---------------------------------------------------------------------
  // Steps of the inserting thread
  // ---------------------------------------------------------------------

  ghost predicate InsertStarts(s: System, t: System, e: Entry, height: nat) {
    && s.writer.Idle? && 1 <= height <= kMaxHeight && s.maxHeight > 0
    && |s.chains| > 0 && (forall j :: 0 <= j < |s.chains[0]| ==> s.chains[0][j] < |s.nodes|)
    && NoEqual(Entries(s), e)
    && t == s.(writer := Searching(e, height, 0, s.maxHeight - 1, seq(kMaxHeight, _ => 0)))
  }

  ghost predicate InsertLoads(s: System, t: System) {
    && s.writer.Searching? && InBounds(s.nodes, s.writer.x, s.writer.level) && s.writer.level < |s.writer.prev|
    && var w, next := s.writer, s.nodes[s.writer.x].next[s.writer.level];
       var prev := w.prev[w.level := w.x];
       t == s.(writer := if Passes(s.nodes, AtOrAfter(IKey(w.e)), next) then w.(x := next.value)
                         else if w.level == 0 then Searched(w.e, w.height, prev)
                         else Searching(w.e, w.height, w.x, w.level - 1, prev))
  }

  /** Raises the height of the list if need be and makes the node. */
  ghost predicate InsertAllocates(s: System, t: System) {
    && s.writer.Searched? && |s.writer.prev| == kMaxHeight && t.writer.Linking? && |t.writer.prev| == kMaxHeight
    && var w, prev := s.writer, t.writer.prev;
       && (forall i :: 0 <= i < s.maxHeight && i < kMaxHeight ==> prev[i] == w.prev[i])
       && (forall i :: s.maxHeight <= i < w.height && i < kMaxHeight ==> prev[i] == 0)
       && t == s.(nodes := s.nodes + [Node(w.e, seq(w.height, _ => None))],
                  maxHeight := if w.height > s.maxHeight then w.height else s.maxHeight,
                  writer := Linking(|s.nodes|, w.height, prev, 0, false))
  }

  ghost predicate StorePrepares(s: System, t: System) {
    && s.writer.Linking? && !s.writer.prepared && s.writer.level < |s.writer.prev|
    && var w := s.writer;
       && InBounds(s.nodes, w.node, w.level) && InBounds(s.nodes, w.prev[w.level], w.level)
       && t == s.(nodes := SetNext(s.nodes, w.node, w.level, s.nodes[w.prev[w.level]].next[w.level]),
                  writer := w.(prepared := true))
  }

  ghost predicate StorePublishes(s: System, t: System) {
    && s.writer.Linking? && s.writer.prepared && s.writer.level < |s.writer.prev|
    && var w := s.writer;
       && w.node < |s.nodes| && InBounds(s.nodes, w.prev[w.level], w.level)
       && t.nodes == SetNext(s.nodes, w.prev[w.level], w.level, Some(w.node))
       && t.writer == (if w.level + 1 == w.height then Idle else Linking(w.node, w.height, w.prev, w.level + 1, false))
       && t.maxHeight == s.maxHeight && t.readers == s.readers
       && w.level < |s.chains| && (forall j :: 0 <= j < |s.chains[w.level]| ==> s.chains[w.level][j] < |s.nodes|)
       && var n := SeekIndex(Content(s.nodes, s.chains[w.level]), IKey(s.nodes[w.node].entry));
          && n < |s.chains[w.level]|
          && t.chains == s.chains[w.level := Linked(s.chains[w.level], n, w.node)]
  }

  ghost predicate Step(s: System, t: System) {
    || (exists goal :: ReaderStarts(s, t, goal))
    || (exists i :: ReaderLoads(s, t, i))
    || (exists i :: ReaderAdvances(s, t, i))
    || (exists e, height :: InsertStarts(s, t, e, height))
    || InsertLoads(s, t)
    || InsertAllocates(s, t)
    || StorePrepares(s, t)
    || StorePublishes(s, t)
  }

  // ---------------------------------------------------------------------
  // Invariant
  // ---------------------------------------------------------------------

  ghost predicate ReaderOk(nodes: seq<Node>, cs: seq<seq<nat>>, r: Reader)
    requires |cs| == kMaxHeight
  {
    match r
    case Reading(goal, x, level) => level < kMaxHeight && Reached(nodes, cs[level], goal, x)
    case Finished(result) => result.Some? ==> result.value in cs[0] && result.value != 0
  }

  /** The predecessor found at a level is still the last node before the new entry. */
  ghost predicate Placed(nodes: seq<Node>, c: seq<nat>, e: Entry, p: nat) {
    && (forall j :: 0 <= j < |c| ==> c[j] < |nodes|)
    && Stops(nodes, c, AtOrAfter(IKey(e)), p) && NoEqual(Content(nodes, c), e)
  }

  ghost predicate LinkingOk(nodes: seq<Node>, cs: seq<seq<nat>>, w: Writer)
    requires |cs| == kMaxHeight && w.Linking?
  {
    && w.level < w.height <= kMaxHeight && |w.prev| == kMaxHeight
    && 0 < w.node < |nodes| && |nodes[w.node].next| == w.height
    && (forall i :: 0 <= i < w.level ==> w.node in cs[i])
    && (forall i :: w.level <= i < |cs| ==> w.node !in cs[i])
    && (forall i :: w.level <= i < w.height ==> Placed(nodes, cs[i], nodes[w.node].entry, w.prev[i]))
    && (w.prepared ==> InBounds(nodes, w.prev[w.level], w.level) && nodes[w.node].next[w.level] == nodes[w.prev[w.level]].next[w.level])
  }

  ghost predicate WriterOk(nodes: seq<Node>, maxHeight: nat, cs: seq<seq<nat>>, w: Writer)
    requires |cs| == kMaxHeight
  {
    match w
    case Idle => true
    case Searching(e, height, x, level, prev) =>
      && 1 <= height <= kMaxHeight && |prev| == kMaxHeight && level < maxHeight <= kMaxHeight
      && Reached(nodes, cs[level], AtOrAfter(IKey(e)), x)
      && (forall i :: level < i < maxHeight ==> Placed(nodes, cs[i], e, prev[i]))
      && (forall i :: 0 <= i < |cs| ==> FreeOf(nodes, cs[i], e))
    case Searched(e, height, prev) =>
      && 1 <= height <= kMaxHeight && |prev| == kMaxHeight && maxHeight <= kMaxHeight
      && (forall i :: 0 <= i < maxHeight ==> Placed(nodes, cs[i], e, prev[i]))
    case Linking(node, height, prev, level, prepared) => height <= maxHeight && LinkingOk(nodes, cs, w)
  }

  ghost predicate FreeOf(nodes: seq<Node>, c: seq<nat>, e: Entry) {
    (forall j :: 0 <= j < |c| ==> c[j] < |nodes|) && NoEqual(Content(nodes, c), e)
  }

  ghost predicate Inv(s: System) {
    && Shape(s.nodes, s.maxHeight, s.chains)
    && (forall i :: 0 <= i < |s.readers| ==> ReaderOk(s.nodes, s.chains, s.readers[i]))
    && WriterOk(s.nodes, s.maxHeight, s.chains, s.writer)
  }

  lemma InitInv(head: Entry)
    ensures Inv(Init(head))
  {
    var s := Init(head);
    forall i | 0 <= i < kMaxHeight ensures Chain(s.nodes, i, s.chains[i]) {
      assert LinkAt(s.nodes, i, s.chains[i], 0);
    }
  }

  // ---------------------------------------------------------------------
  // Readers
  // ---------------------------------------------------------------------

  lemma LoadKeepsReader(nodes: seq<Node>, maxHeight: nat, cs: seq<seq<nat>>, r: Reader)
    requires Shape(nodes, maxHeight, cs) && r.Reading? && ReaderOk(nodes, cs, r)
    ensures InBounds(nodes, r.x, r.level) && ReaderOk(nodes, cs, Loaded(nodes, r))
  {
    LoadMoves(nodes, r.level, cs[r.level], r.goal, r.x);
    if r.level > 0 {
      assert Within(cs[r.level], cs[r.level - 1]);
    } else {
      AfterIsLinked(cs[0], SkipList.Rank(Content(nodes, cs[0]), r.goal));
    }
  }

  lemma AfterIsLinked(c: seq<nat>, n: nat)
    requires |c| > 0 && c[0] == 0 && NoRepeats(c)
    ensures After(c, n).Some? ==> After(c, n).value in c && After(c, n).value != 0
  {
  }

  lemma ReaderKeepsInv(s: System, t: System, i: nat)
    requires Inv(s) && ReaderLoads(s, t, i)
    ensures Inv(t)
  {
    LoadKeepsReader(s.nodes, s.maxHeight, s.chains, s.readers[i]);
  }

  lemma AdvanceKeepsInv(s: System, t: System, i: nat)
    requires Inv(s) && ReaderAdvances(s, t, i)
    ensures Inv(t)
  {
    var c := s.chains[0];
    var x := s.readers[i].result.value;
    assert ReaderOk(s.nodes, s.chains, s.readers[i]);
    var j :| 0 <= j < |c| && c[j] == x;
    assert Chain(s.nodes, 0, c) && LinkAt(s.nodes, 0, c, j);
    AfterIsLinked(c, j);
  }

  lemma StartKeepsInv(s: System, t: System, goal: Goal)
    requires Inv(s) && ReaderStarts(s, t, goal)
    ensures Inv(t)
  {
    assert Chain(s.nodes, s.maxHeight - 1, s.chains[s.maxHeight - 1]);
  }

  // ---------------------------------------------------------------------
  // The inserting thread: search and allocation
  // ---------------------------------------------------------------------

  /** What a level holds is held below as well, so an entry new to the list is new to every level. */
  lemma {:induction false} FreeAbove(nodes: seq<Node>, maxHeight: nat, cs: seq<seq<nat>>, e: Entry, i: nat)
    requires Shape(nodes, maxHeight, cs) && i < |cs| && FreeOf(nodes, cs[0], e)
    ensures FreeOf(nodes, cs[i], e)
  {
    assert Chain(nodes, i, cs[i]);
    if i > 0 {
      FreeAbove(nodes, maxHeight, cs, e, i - 1);
      assert Within(cs[i], cs[i - 1]) && Chain(nodes, i - 1, cs[i - 1]);
      FreeOfPart(nodes, cs[i - 1], cs[i], e);
    }
  }

  lemma FreeOfPart(nodes: seq<Node>, c: seq<nat>, d: seq<nat>, e: Entry)
    requires FreeOf(nodes, c, e) && Within(d, c) && NoRepeats(d) && |c| > 0 && |d| > 0 && c[0] == d[0]
    requires forall j :: 0 <= j < |d| ==> d[j] < |nodes|
    ensures FreeOf(nodes, d, e)
  {
    var es, ds := Content(nodes, c), Content(nodes, d);
    forall x | x in ds ensures EntryLess(x, e) || EntryLess(e, x) {
      var k :| 0 <= k < |ds| && ds[k] == x;
      assert d[k + 1] in d && d[k + 1] != d[0];
      var j :| 0 <= j < |c| && c[j] == d[k + 1];
      assert es[j - 1] == x && es[j - 1] in es;
    }
  }

  lemma InsertStartKeepsInv(s: System, t: System, e: Entry, height: nat)
    requires Inv(s) && InsertStarts(s, t, e, height)
    ensures Inv(t)
  {
    forall i | 0 <= i < |s.chains| ensures FreeOf(s.nodes, s.chains[i], e) {
      FreeAbove(s.nodes, s.maxHeight, s.chains, e, i);
    }
    assert Chain(s.nodes, s.maxHeight - 1, s.chains[s.maxHeight - 1]);
  }

  lemma InsertLoadKeepsInv(s: System, t: System)
    requires Inv(s) && InsertLoads(s, t)
    ensures Inv(t)
  {
    var w := s.writer;
    assert FreeOf(s.nodes, s.chains[w.level], w.e);
    LoadMoves(s.nodes, w.level, s.chains[w.level], AtOrAfter(IKey(w.e)), w.x);
    if w.level > 0 {
      assert Within(s.chains[w.level], s.chains[w.level - 1]);
    }
  }

  lemma AppendKeepsChain(nodes: seq<Node>, n: Node, level: nat, c: seq<nat>)
    requires Chain(nodes, level, c)
    ensures Chain(nodes + [n], level, c) && Content(nodes + [n], c) == Content(nodes, c) && |nodes| !in c
  {
    forall j | 0 <= j < |c| ensures LinkAt(nodes + [n], level, c, j) {
      assert LinkAt(nodes, level, c, j);
    }
    assert Content(nodes + [n], c) == Content(nodes, c);
  }

  lemma AllocateKeepsInv(s: System, t: System)
    requires Inv(s) && InsertAllocates(s, t)
    ensures Inv(t)
  {
    var w, n := s.writer, t.nodes[|s.nodes|];
    assert Chain(s.nodes, 0, s.chains[0]) && s.chains[0][0] < |s.nodes|;
    forall i | 0 <= i < |s.chains|
      ensures Chain(t.nodes, i, t.chains[i]) && Content(t.nodes, t.chains[i]) == Content(s.nodes, s.chains[i]) && |s.nodes| !in t.chains[i]
    {
      assert Chain(s.nodes, i, s.chains[i]);
      AppendKeepsChain(s.nodes, n, i, s.chains[i]);
    }
    forall i | 0 <= i < w.height ensures Placed(t.nodes, t.chains[i], w.e, t.writer.prev[i]) {
      if i < s.maxHeight {
        assert Placed(s.nodes, s.chains[i], w.e, w.prev[i]);
      } else {
        assert s.chains[i] == [0];
      }
    }
    forall i | 0 <= i < |t.readers| ensures ReaderOk(t.nodes, t.chains, t.readers[i]) {
      assert ReaderOk(s.nodes, s.chains, s.readers[i]);
    }
  }

  // ---------------------------------------------------------------------
  // The inserting thread: stores
  // ---------------------------------------------------------------------

  /** A store to the new node at a level where it is not linked yet changes no list. */
  lemma PrepareKeepsInv(s: System, t: System)
    requires Inv(s) && StorePrepares(s, t)
    ensures Inv(t)
  {
    var w := s.writer;
    var v := s.nodes[w.prev[w.level]].next[w.level];
    forall i | 0 <= i < |s.chains|
      ensures Chain(t.nodes, i, t.chains[i]) && Content(t.nodes, t.chains[i]) == Content(s.nodes, s.chains[i])
    {
      assert Chain(s.nodes, i, s.chains[i]);
      StoreElsewhere(s.nodes, w.node, w.level, v, i, s.chains[i]);
    }
    PreparedOk(s, t);
    forall i | 0 <= i < |t.readers| ensures ReaderOk(t.nodes, t.chains, t.readers[i]) {
      assert ReaderOk(s.nodes, s.chains, s.readers[i]);
    }
  }

  lemma PreparedOk(s: System, t: System)
    requires Inv(s) && StorePrepares(s, t)
    requires forall i :: 0 <= i < |s.chains| ==> Chain(t.nodes, i, t.chains[i]) && Content(t.nodes, t.chains[i]) == Content(s.nodes, s.chains[i])
    ensures LinkingOk(t.nodes, t.chains, t.writer)
  {
    var w := s.writer;
    forall i | w.level <= i < w.height ensures Placed(t.nodes, t.chains[i], t.nodes[w.node].entry, w.prev[i]) {
      assert Placed(s.nodes, s.chains[i], s.nodes[w.node].entry, w.prev[i]);
    }
    assert Placed(s.nodes, s.chains[w.level], s.nodes[w.node].entry, w.prev[w.level]);
    assert w.node !in s.chains[w.level] && w.prev[w.level] in s.chains[w.level];
  }

  /** What publishing a node at its level does to the lists. */
  lemma PublishedChains(s: System, t: System)
    requires Inv(s) && StorePublishes(s, t)
    ensures |t.chains| == |s.chains|
    ensures forall i :: 0 <= i < |t.chains| ==> Chain(t.nodes, i, t.chains[i])
    ensures forall i :: 0 <= i < |t.chains| && i != s.writer.level ==>
      t.chains[i] == s.chains[i] && Content(t.nodes, t.chains[i]) == Content(s.nodes, s.chains[i])
    ensures Content(t.nodes, t.chains[s.writer.level]) == Added(Content(s.nodes, s.chains[s.writer.level]), s.nodes[s.writer.node].entry)
  {
    var w := s.writer;
    forall i | 0 <= i < |s.chains|
      ensures Chain(t.nodes, i, t.chains[i])
      ensures i != w.level ==> Content(t.nodes, t.chains[i]) == Content(s.nodes, s.chains[i])
      ensures i == w.level ==> Content(t.nodes, t.chains[i]) == Added(Content(s.nodes, s.chains[i]), s.nodes[w.node].entry)
    {
      assert Chain(s.nodes, i, s.chains[i]);
      if i == w.level {
        assert Placed(s.nodes, s.chains[i], s.nodes[w.node].entry, w.prev[i]);
        StoreLinks(s.nodes, i, s.chains[i], w.prev[i], w.node);
      } else {
        StoreElsewhere(s.nodes, w.prev[w.level], w.level, Some(w.node), i, s.chains[i]);
      }
    }
  }

  lemma LinkedHolds(c: seq<nat>, n: nat, x: nat)
    requires n < |c|
    ensures forall y :: y in Linked(c, n, x) <==> y in c || y == x
  {
    forall y | y in c ensures y in Linked(c, n, x) {
      var j :| 0 <= j < |c| && c[j] == y;
      assert Linked(c, n, x)[if j <= n then j else j + 1] == y;
    }
    assert Linked(c, n, x)[n + 1] == x;
  }

  lemma PublishKeepsLists(s: System, t: System)
    requires Inv(s) && StorePublishes(s, t)
    ensures Shape(t.nodes, t.maxHeight, t.chains) && s.writer.node in t.chains[s.writer.level]
    ensures forall i :: 0 <= i < |s.chains| ==> Within(s.chains[i], t.chains[i])
  {
    var w := s.writer;
    var n := SeekIndex(Content(s.nodes, s.chains[w.level]), IKey(s.nodes[w.node].entry));
    PublishedChains(s, t);
    LinkedHolds(s.chains[w.level], n, w.node);
    forall i, j | 0 <= i && j == i + 1 && j < |t.chains| ensures Within(t.chains[j], t.chains[i]) {
      assert Within(s.chains[j], s.chains[i]);
    }
  }

  lemma PublishKeepsInv(s: System, t: System)
    requires Inv(s) && StorePublishes(s, t)
    ensures Inv(t)
  {
    var w := s.writer;
    PublishedChains(s, t);
    PublishKeepsLists(s, t);
    forall i | w.level < i < w.height ensures Placed(t.nodes, t.chains[i], t.nodes[w.node].entry, w.prev[i]) {
      assert Placed(s.nodes, s.chains[i], s.nodes[w.node].entry, w.prev[i]);
    }
    forall i | 0 <= i < |t.readers| ensures ReaderOk(t.nodes, t.chains, t.readers[i]) {
      ReaderStays(s.nodes, t.nodes, s.chains, t.chains, s.readers[i]);
    }
  }

  /** Nodes are never unlinked, so a reader may go on from where it stands. */
  lemma ReaderStays(nodes: seq<Node>, after: seq<Node>, cs: seq<seq<nat>>, ds: seq<seq<nat>>, r: Reader)
    requires |cs| == |ds| == kMaxHeight && ReaderOk(nodes, cs, r)
    requires forall i :: 0 <= i < |cs| ==> Within(cs[i], ds[i])
    requires |nodes| <= |after| && forall y :: 0 <= y < |nodes| ==> after[y].entry == nodes[y].entry
    ensures ReaderOk(after, ds, r)
  {
    assert Within(cs[0], ds[0]);
    if r.Reading? { assert Within(cs[r.level], ds[r.level]); }
  }

  // ---------------------------------------------------------------------
  // Runs
  // ---------------------------------------------------------------------

  lemma StepKeepsInv(s: System, t: System)
    requires Inv(s) && Step(s, t)
    ensures Inv(t)
  {
    if goal :| ReaderStarts(s, t, goal) {
      StartKeepsInv(s, t, goal);
    } else if i :| ReaderLoads(s, t, i) {
      ReaderKeepsInv(s, t, i);
    } else if i :| ReaderAdvances(s, t, i) {
      AdvanceKeepsInv(s, t, i);
    } else if e, height :| InsertStarts(s, t, e, height) {
      InsertStartKeepsInv(s, t, e, height);
    } else if InsertLoads(s, t) {
      InsertLoadKeepsInv(s, t);
    } else if InsertAllocates(s, t) {
      AllocateKeepsInv(s, t);
    } else if StorePrepares(s, t) {
      PrepareKeepsInv(s, t);
    } else {
      PublishKeepsInv(s, t);
    }
  }

  ghost predicate Run(run: seq<System>) {
    && |run| > 0 && (exists head :: run[0] == Init(head))
    && forall i :: 0 <= i < |run| - 1 ==> StepAt(run, i)
  }

  ghost predicate StepAt(run: seq<System>, i: nat)
    requires i + 1 < |run|
  {
    Step(run[i], run[i + 1])
  }

  /** After every single load and store each level is sorted and a sublist of the level below. */
  lemma {:induction false} RunKeepsInv(run: seq<System>, i: nat)
    requires Run(run) && i < |run|
    ensures Inv(run[i])
    decreases i
  {
    if i == 0 {
      var head :| run[0] == Init(head);
      InitInv(head);
    } else {
      RunKeepsInv(run, i - 1);
      assert StepAt(run, i - 1);
      StepKeepsInv(run[i - 1], run[i]);
    }
  }

  // ---------------------------------------------------------------------
  // What searches and insertions come to
  // ---------------------------------------------------------------------

  /** The result of a complete search in a sorted list: the first entry at or after the key, or the last before it. */
  ghost predicate Answers(nodes: seq<Node>, es: seq<Entry>, goal: Goal, result: Pointer) {
    var n := SkipList.Rank(es, goal);
    if goal.AtOrAfter? then
      if n < |es| then result.Some? && result.value < |nodes| && nodes[result.value].entry == es[n] else result == None
    else
      if n > 0 then result.Some? && result.value < |nodes| && nodes[result.value].entry == es[n - 1] else result == None
  }

  /**
   * Whatever was inserted while a search was under way, its result is the right one for the entries
   * that are in the list at its last load.
   */
  lemma SearchIsRight(s: System, t: System, i: nat)
    requires Inv(s) && ReaderLoads(s, t, i) && t.readers[i].Finished?
    ensures Answers(s.nodes, Entries(s), s.readers[i].goal, t.readers[i].result)
  {
    var r, c := s.readers[i], s.chains[0];
    assert ReaderOk(s.nodes, s.chains, r) && Chain(s.nodes, 0, c);
    LoadMoves(s.nodes, 0, c, r.goal, r.x);
    assert NoRepeats(c);
  }

  /** Iterator::Next moves to the next entry in the list at that moment. */
  lemma AdvanceIsRight(s: System, t: System, i: nat) returns (j: nat)
    requires Inv(s) && ReaderAdvances(s, t, i)
    ensures var es, x, y := Entries(s), s.readers[i].result.value, t.readers[i].result;
      && j < |es| && es[j] == s.nodes[x].entry
      && if j + 1 < |es| then y.Some? && y.value < |s.nodes| && s.nodes[y.value].entry == es[j + 1] else y == None
  {
    var c, x := s.chains[0], s.readers[i].result.value;
    assert ReaderOk(s.nodes, s.chains, s.readers[i]) && Chain(s.nodes, 0, c);
    var k :| 0 <= k < |c| && c[k] == x;
    assert LinkAt(s.nodes, 0, c, k);
    j := k - 1;
  }

  /** The lowest store is the moment at which an entry enters the list; no other step changes the entries. */
  lemma EntriesChange(s: System, t: System)
    requires Inv(s) && Inv(t) && Step(s, t)
    ensures
      if StorePublishes(s, t) && s.writer.level == 0 then
        Entries(t) == Added(Entries(s), s.nodes[s.writer.node].entry) && NoEqual(Entries(s), s.nodes[s.writer.node].entry)
      else Entries(t) == Entries(s)
  {
    assert Chain(s.nodes, 0, s.chains[0]);
    if StorePublishes(s, t) {
      PublishedChains(s, t);
      assert s.writer.level == 0 ==> Placed(s.nodes, s.chains[0], s.nodes[s.writer.node].entry, s.writer.prev[0]);
    } else if StorePrepares(s, t) {
      StoreElsewhere(s.nodes, s.writer.node, s.writer.level, t.nodes[s.writer.node].next[s.writer.level], 0, s.chains[0]);
    } else if InsertAllocates(s, t) {
      AppendKeepsChain(s.nodes, t.nodes[|s.nodes|], 0, s.chains[0]);
    }
  }

  /** Both stores of a level. */
  lemma LevelLinked(s: System, mid: System, t: System)
    requires Inv(s) && StorePrepares(s, mid) && StorePublishes(mid, t)
    ensures Inv(t) && Entries(t) == if s.writer.level == 0 then Added(Entries(s), s.nodes[s.writer.node].entry) else Entries(s)
  {
    PrepareKeepsInv(s, mid);
    EntriesChange(s, mid);
    PublishKeepsInv(mid, t);
    EntriesChange(mid, t);
  }

  /** When Insert returns, the node is linked at exactly the levels below its height. */
  lemma InsertCompletes(s: System, t: System)
    requires Inv(s) && StorePublishes(s, t) && t.writer.Idle?
    ensures forall i :: 0 <= i < |t.chains| ==> (s.writer.node in t.chains[i] <==> i < s.writer.height)
  {
    PublishKeepsLists(s, t);
    forall i | 0 <= i < |t.chains| ensures s.writer.node in t.chains[i] <==> i < s.writer.height {
      assert Within(s.chains[i], t.chains[i]);
    }
  }

  lemma AddedHolds(es: seq<Entry>, x: Entry, e: Entry)
    requires e in es
    ensures e in Added(es, x)
  {
    var n := SeekIndex(es, IKey(x));
    var k :| 0 <= k < |es| && es[k] == e;
    assert Added(es, x)[if k < n then k else k + 1] == e;
  }

  lemma RunStep(run: seq<System>, j: nat)
    requires Run(run) && 0 < j < |run|
    ensures Step(run[j - 1], run[j])
  {
    assert StepAt(run, j - 1);
  }

  lemma EntryStays(s: System, t: System, e: Entry)
    requires Holds(s, e) && Step(s, t)
    ensures Holds(t, e)
  {
    StepKeepsInv(s, t);
    EntriesChange(s, t);
    if StorePublishes(s, t) && s.writer.level == 0 {
      AddedHolds(Entries(s), s.nodes[s.writer.node].entry, e);
    }
  }

  ghost predicate Holds(s: System, e: Entry) {
    Inv(s) && e in Entries(s)
  }

  lemma {:induction false} EntriesStay(run: seq<System>, i: nat, j: nat, e: Entry)
    requires Run(run) && i <= j < |run| && Holds(run[i], e)
    ensures Holds(run[j], e)
    decreases j
  {
    if i < j {
      EntriesStay(run, i, j - 1, e);
      RunStep(run, j);
      EntryStays(run[j - 1], run[j], e);
    }
  }

  /**
   * An entry that was in the list before a search ended is never missed: a search for a key at or
   * before it ends at that entry or at one before it.
   */
  lemma InsertedIsSeen(run: seq<System>, i: nat, j: nat, reader: nat, e: Entry, k: InternalKey)
    requires Run(run) && i <= j && j + 1 < |run| && Holds(run[i], e) && KeyAtMost(k, IKey(e))
    requires ReaderLoads(run[j], run[j + 1], reader)
    requires run[j].readers[reader].goal == AtOrAfter(k) && run[j + 1].readers[reader].Finished?
    ensures var result := run[j + 1].readers[reader].result;
      && result.Some? && result.value < |run[j].nodes|
      && KeyAtMost(k, IKey(run[j].nodes[result.value].entry)) && KeyAtMost(IKey(run[j].nodes[result.value].entry), IKey(e))
  {
    EntriesStay(run, i, j, e);
    SearchIsRight(run[j], run[j + 1], reader);
    ContentSorted(run[j].nodes, run[j].chains[0]);
    SeekNotAfter(Entries(run[j]), k, e);
  }

  lemma SeekNotAfter(es: seq<Entry>, k: InternalKey, e: Entry)
    requires SortedEntries(es) && e in es && KeyAtMost(k, IKey(e))
    ensures var n := SeekIndex(es, k); n < |es| && KeyAtMost(IKey(es[n]), IKey(e))
  {
    var n := SeekIndex(es, k);
    var m :| 0 <= m < |es| && es[m] == e;
    assert n <= m;
    EntriesInOrder(es, n, m);
  }

  lemma ContentSorted(nodes: seq<Node>, c: seq<nat>)
    requires Chain(nodes, 0, c)
    ensures SortedEntries(Content(nodes, c))
  {
  }
}
