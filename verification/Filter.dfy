/**
 * What a compaction drops (db/db_impl.cc:930-963) and what that does to reads, stated on sets of
 * entries: `es` is the sorted input of the compaction and `rest` everything else in the database.
 */
module Filter {
  import opened Keys
  import opened Semantics

  /** Rule (A): the entry just before holds the same user key at or below the smallest snapshot. */
  predicate HiddenAt(es: seq<Entry>, i: nat, smallestSnapshot: nat)
    requires i < |es|
  {
    i > 0 && es[i - 1].key == es[i].key && es[i - 1].seqno <= smallestSnapshot
  }

  /** The second rule: a deletion marker that no deeper level can still need. */
  predicate Obsolete(e: Entry, smallestSnapshot: nat, base: UserKey -> bool) {
    e.op.Delete? && e.seqno <= smallestSnapshot && base(e.key)
  }

  /** The entries of the first `n` that survive, in order. */
  function Survivors(es: seq<Entry>, n: nat, smallestSnapshot: nat, base: UserKey -> bool): seq<Entry>
    requires n <= |es|
  {
    if n == 0 then []
    else
      var r := Survivors(es, n - 1, smallestSnapshot, base);
      if HiddenAt(es, n - 1, smallestSnapshot) || Obsolete(es[n - 1], smallestSnapshot, base) then r
      else r + [es[n - 1]]
  }

  function Output(es: seq<Entry>, smallestSnapshot: nat, base: UserKey -> bool): seq<Entry> {
    Survivors(es, |es|, smallestSnapshot, base)
  }

  /** A newer entry of the key that every live snapshot can see. */
  ghost predicate Shadowed(es: seq<Entry>, e: Entry, smallestSnapshot: nat) {
    exists x :: x in es && x.key == e.key && x.seqno > e.seqno && x.seqno <= smallestSnapshot
  }

  /** In sorted input the look at the previous entry finds every shadowed one. */
  lemma HiddenIsShadowed(es: seq<Entry>, i: nat, smallestSnapshot: nat)
    requires SortedEntries(es) && UniqueSeqnos(Elements(es)) && i < |es|
    ensures HiddenAt(es, i, smallestSnapshot) <==> Shadowed(es, es[i], smallestSnapshot)
  {
    if HiddenAt(es, i, smallestSnapshot) {
      var x := es[i - 1];
      assert EntryLess(x, es[i]);
      assert x in Elements(es) && es[i] in Elements(es);
      assert x in es && x.seqno > es[i].seqno;
    }
    if Shadowed(es, es[i], smallestSnapshot) {
      var x :| x in es && x.key == es[i].key && x.seqno > es[i].seqno && x.seqno <= smallestSnapshot;
      var j :| 0 <= j < |es| && es[j] == x;
      assert j < i by {
        assert forall p :: i < p < |es| ==> EntryLess(es[i], es[p]);
      }
      if j < i - 1 { assert EntryLess(es[j], es[i - 1]); }
      assert EntryLess(es[i - 1], es[i]);
    }
  }

  lemma {:induction false} SurvivorsAre(es: seq<Entry>, n: nat, smallestSnapshot: nat, base: UserKey -> bool, e: Entry)
    requires SortedEntries(es) && UniqueSeqnos(Elements(es)) && n <= |es|
    ensures e in Survivors(es, n, smallestSnapshot, base) <==>
      e in es[..n] && !Shadowed(es, e, smallestSnapshot) && !Obsolete(e, smallestSnapshot, base)
  {
    if n > 0 {
      SurvivorsAre(es, n - 1, smallestSnapshot, base, e);
      HiddenIsShadowed(es, n - 1, smallestSnapshot);
      assert e in es[..n - 1] + [es[n - 1]] <==> e in es[..n - 1] || e == es[n - 1];
      assert es[..n] == es[..n - 1] + [es[n - 1]];
    }
  }

  /** Exactly the shadowed entries and the obsolete markers are dropped. */
  lemma OutputIs(es: seq<Entry>, smallestSnapshot: nat, base: UserKey -> bool, e: Entry)
    requires SortedEntries(es) && UniqueSeqnos(Elements(es))
    ensures e in Output(es, smallestSnapshot, base) <==>
      e in es && !Shadowed(es, e, smallestSnapshot) && !Obsolete(e, smallestSnapshot, base)
  {
    SurvivorsAre(es, |es|, smallestSnapshot, base, e);
    assert es[..|es|] == es;
  }

  lemma {:induction false} SurvivorsSorted(es: seq<Entry>, n: nat, smallestSnapshot: nat, base: UserKey -> bool)
    requires SortedEntries(es) && n <= |es|
    ensures SortedEntries(Survivors(es, n, smallestSnapshot, base))
    ensures forall e :: e in Survivors(es, n, smallestSnapshot, base) ==> e in es[..n]
  {
    if n > 0 {
      SurvivorsSorted(es, n - 1, smallestSnapshot, base);
      var r := Survivors(es, n - 1, smallestSnapshot, base);
      assert es[..n] == es[..n - 1] + [es[n - 1]];
      forall i | 0 <= i < |r| ensures EntryLess(r[i], es[n - 1]) {
        assert r[i] in r;
        var j :| 0 <= j < n - 1 && es[..n - 1][j] == r[i];
        assert EntryLess(es[j], es[n - 1]);
      }
    }
  }

  // ---------------------------------------------------------------------
  // What dropping does to reads
  // ---------------------------------------------------------------------

  /** Reads of `k` at every sequence number from `oldest` on are the same before and after. */
  ghost predicate ReadsKept(rest: set<Entry>, es: seq<Entry>, smallestSnapshot: nat, base: UserKey -> bool,
                            k: UserKey, oldest: nat) {
    forall s: nat :: s >= oldest ==>
      View(rest + Elements(es), k, s) == View(rest + Elements(Output(es, smallestSnapshot, base)), k, s)
  }

  /**
   * The one way a compaction can spoil the reads from `oldest` on: a marker `m` of the input answers
   * the read at `oldest` and is obsolete, and the newest entry left outside is a value.
   */
  ghost predicate Resurrects(rest: set<Entry>, input: set<Entry>, smallestSnapshot: nat, base: UserKey -> bool,
                             k: UserKey, oldest: nat) {
    exists m, left :: IsResurrected(rest, input, smallestSnapshot, base, k, oldest, m, left)
  }

  ghost predicate IsResurrected(rest: set<Entry>, input: set<Entry>, smallestSnapshot: nat, base: UserKey -> bool,
                                k: UserKey, oldest: nat, m: Entry, left: Entry) {
    && m in input && Newest(rest + input, k, oldest, m) && Obsolete(m, smallestSnapshot, base)
    && Newest(rest, k, oldest, left) && left.op.Put?
  }

  ghost predicate SortedInput(rest: set<Entry>, es: seq<Entry>) {
    SortedEntries(es) && UniqueSeqnos(rest + Elements(es))
  }

  lemma SortedInputUnique(rest: set<Entry>, es: seq<Entry>)
    requires SortedInput(rest, es)
    ensures UniqueSeqnos(Elements(es)) && UniqueSeqnos(rest)
  {
    assert forall x :: x in Elements(es) ==> x in rest + Elements(es);
    assert forall x :: x in rest ==> x in rest + Elements(es);
  }

  /** What is left is part of what was there. */
  lemma AfterIsPart(rest: set<Entry>, es: seq<Entry>, smallestSnapshot: nat, base: UserKey -> bool)
    requires SortedInput(rest, es)
    ensures forall x :: x in rest + Elements(Output(es, smallestSnapshot, base)) ==> x in rest + Elements(es)
    ensures UniqueSeqnos(rest + Elements(Output(es, smallestSnapshot, base)))
  {
    SortedInputUnique(rest, es);
    forall x | x in Output(es, smallestSnapshot, base) ensures x in es {
      OutputIs(es, smallestSnapshot, base, x);
    }
  }

  /** If the entry that answered a read is still there, the read is unchanged. */
  lemma SameAnswer(before: set<Entry>, after: set<Entry>, k: UserKey, s: nat)
    requires UniqueSeqnos(before) && UniqueSeqnos(after)
    requires forall x :: x in after ==> x in before
    requires Find(before, k, s).Some? ==> Find(before, k, s).value in after
    ensures Find(before, k, s) == Find(after, k, s)
  {
    ResultIsFind(after, k, s, Find(before, k, s));
  }

  /** An entry that answers a read at or above the smallest snapshot is dropped only as a marker. */
  lemma AnswerNotShadowed(rest: set<Entry>, es: seq<Entry>, smallestSnapshot: nat, base: UserKey -> bool,
                          k: UserKey, s: nat, e: Entry)
    requires SortedInput(rest, es) && s >= smallestSnapshot
    requires Newest(rest + Elements(es), k, s, e)
    requires e !in rest + Elements(Output(es, smallestSnapshot, base))
    ensures e in es && Obsolete(e, smallestSnapshot, base)
    ensures Newest(Elements(es), k, smallestSnapshot, e)
  {
    SortedInputUnique(rest, es);
    OutputIs(es, smallestSnapshot, base, e);
    assert e in es;
    assert forall x :: x in es ==> x in rest + Elements(es);
    forall x | x in es && x.key == e.key && x.seqno <= smallestSnapshot ensures x.seqno <= e.seqno {
      assert x in rest + Elements(es) && Visible(x, k, s);
    }
  }

  /** Below a dropped marker nothing of the key survives. */
  lemma NothingBelowMarker(es: seq<Entry>, smallestSnapshot: nat, base: UserKey -> bool, m: Entry, x: Entry)
    requires SortedEntries(es) && UniqueSeqnos(Elements(es))
    requires m in es && Obsolete(m, smallestSnapshot, base)
    requires x in Output(es, smallestSnapshot, base) && x.key == m.key
    ensures x.seqno > m.seqno
  {
    OutputIs(es, smallestSnapshot, base, x);
    OutputIs(es, smallestSnapshot, base, m);
    assert x in Elements(es) && m in Elements(es);
    assert !Shadowed(es, x, smallestSnapshot);
    assert x.seqno < m.seqno ==> m in es && m.key == x.key && m.seqno > x.seqno && m.seqno <= smallestSnapshot;
  }

  lemma MarkerReadKept(rest: set<Entry>, es: seq<Entry>, smallestSnapshot: nat, base: UserKey -> bool,
                       k: UserKey, oldest: nat, s: nat, m: Entry)
    requires SortedInput(rest, es) && s >= oldest >= smallestSnapshot
    requires !Resurrects(rest, Elements(es), smallestSnapshot, base, k, oldest)
    requires Newest(rest + Elements(es), k, s, m)
    requires m in es && Obsolete(m, smallestSnapshot, base)
    requires m !in rest + Elements(Output(es, smallestSnapshot, base))
    ensures View(rest + Elements(Output(es, smallestSnapshot, base)), k, s) == None
  {
    var after := rest + Elements(Output(es, smallestSnapshot, base));
    AfterIsPart(rest, es, smallestSnapshot, base);
    SortedInputUnique(rest, es);
    var r := Find(after, k, s);
    if r.Some? {
      var x := r.value;
      assert x in rest + Elements(es) && x.seqno <= m.seqno && x != m;
      assert m in rest + Elements(es);
      if x in Output(es, smallestSnapshot, base) {
        NothingBelowMarker(es, smallestSnapshot, base, m, x);
      }
      assert x in rest;
      assert forall y :: y in rest ==> y in after && y in rest + Elements(es);
      assert Newest(rest, k, oldest, x);
      assert !IsResurrected(rest, Elements(es), smallestSnapshot, base, k, oldest, m, x);
    }
  }

  lemma ReadKept(rest: set<Entry>, es: seq<Entry>, smallestSnapshot: nat, base: UserKey -> bool,
                 k: UserKey, oldest: nat, s: nat)
    requires SortedInput(rest, es) && s >= oldest >= smallestSnapshot
    requires !Resurrects(rest, Elements(es), smallestSnapshot, base, k, oldest)
    ensures View(rest + Elements(es), k, s) == View(rest + Elements(Output(es, smallestSnapshot, base)), k, s)
  {
    var before := rest + Elements(es);
    var after := rest + Elements(Output(es, smallestSnapshot, base));
    AfterIsPart(rest, es, smallestSnapshot, base);
    var r := Find(before, k, s);
    if r.Some? && r.value !in after {
      AnswerNotShadowed(rest, es, smallestSnapshot, base, k, s, r.value);
      MarkerReadKept(rest, es, smallestSnapshot, base, k, oldest, s, r.value);
    } else {
      SameAnswer(before, after, k, s);
    }
  }

  lemma ResurrectedReadChanges(rest: set<Entry>, es: seq<Entry>, smallestSnapshot: nat, base: UserKey -> bool,
                               k: UserKey, oldest: nat)
    requires SortedInput(rest, es)
    requires Resurrects(rest, Elements(es), smallestSnapshot, base, k, oldest)
    ensures View(rest + Elements(es), k, oldest) == None
    ensures View(rest + Elements(Output(es, smallestSnapshot, base)), k, oldest).Some?
  {
    var m, left :| IsResurrected(rest, Elements(es), smallestSnapshot, base, k, oldest, m, left);
    SortedInputUnique(rest, es);
    AfterIsPart(rest, es, smallestSnapshot, base);
    NewestIsFound(rest + Elements(es), k, oldest, m);
    var after := rest + Elements(Output(es, smallestSnapshot, base));
    forall x | x in after && Visible(x, k, oldest) ensures x.seqno <= left.seqno {
      if x in Output(es, smallestSnapshot, base) {
        NothingBelowMarker(es, smallestSnapshot, base, m, x);
      }
    }
    NewestIsFound(after, k, oldest, left);
  }

  /**
   * Exactly when a compaction keeps reads: every read of `k` that can still be asked for is unchanged
   * if and only if no value of `k` is left outside under a marker that is dropped.
   */
  lemma ReadsKeptExactly(rest: set<Entry>, es: seq<Entry>, smallestSnapshot: nat, base: UserKey -> bool,
                         k: UserKey, oldest: nat)
    requires SortedInput(rest, es) && oldest >= smallestSnapshot
    ensures ReadsKept(rest, es, smallestSnapshot, base, k, oldest) <==>
      !Resurrects(rest, Elements(es), smallestSnapshot, base, k, oldest)
  {
    if Resurrects(rest, Elements(es), smallestSnapshot, base, k, oldest) {
      ResurrectedReadChanges(rest, es, smallestSnapshot, base, k, oldest);
    } else {
      forall s: nat | s >= oldest
        ensures View(rest + Elements(es), k, s) == View(rest + Elements(Output(es, smallestSnapshot, base)), k, s)
      {
        ReadKept(rest, es, smallestSnapshot, base, k, oldest, s);
      }
    }
  }
}
