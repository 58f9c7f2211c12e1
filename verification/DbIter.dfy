/** The user-visible iterator: db/db_iter.cc:39-299. */
module DbIter {
  import opened Keys
  import opened Semantics
  import opened Tables
  import opened Cursors

  // ---------------------------------------------------------------------
  // The live map of a sorted list of entries
  // ---------------------------------------------------------------------

  predicate Seen(es: seq<Entry>, s: nat, i: nat)
    requires i < |es|
  {
    es[i].seqno <= s
  }

  /** Entry `i` is the newest visible one of its user key, and it is a value. */
  predicate Live(es: seq<Entry>, s: nat, i: nat)
    requires i < |es|
  {
    && Seen(es, s, i) && es[i].op.Put?
    && forall j :: 0 <= j < i && es[j].key == es[i].key ==> !Seen(es, s, j)
  }

  /** Live entries have different keys and lie in key order: they are a sorted map. */
  lemma LiveKeysIncrease(es: seq<Entry>, s: nat)
    requires SortedEntries(es)
    ensures forall i, j :: 0 <= i < j < |es| && Live(es, s, i) && Live(es, s, j) ==> es[i].key < es[j].key
  {
    forall i, j | 0 <= i < j < |es| && Live(es, s, i) && Live(es, s, j) ensures es[i].key < es[j].key {
      EntriesInOrder(es, i, j);
    }
  }

  /** The live entries are exactly what reads at the sequence number return. */
  lemma LiveIsView(es: seq<Entry>, s: nat, k: UserKey, v: Bytes)
    requires SortedEntries(es) && UniqueSeqnos(Elements(es))
    ensures View(Elements(es), k, s) == Some(v) <==>
      exists i :: 0 <= i < |es| && Live(es, s, i) && es[i].key == k && es[i].op.value == v
  {
    var r := Find(Elements(es), k, s);
    if r.Some? && r.value.op.Put? {
      var i :| 0 <= i < |es| && es[i] == r.value;
      forall j | 0 <= j < i && es[j].key == es[i].key ensures !Seen(es, s, j) {
        assert EntryLess(es[j], es[i]);
        assert es[j] in Elements(es) && es[i] in Elements(es);
      }
      assert Live(es, s, i);
    }
    forall i | 0 <= i < |es| && Live(es, s, i) && es[i].key == k ensures r == Some(es[i]) {
      LiveIsNewest(es, s, i);
      NewestIsFound(Elements(es), k, s, es[i]);
    }
  }

  lemma LiveIsNewest(es: seq<Entry>, s: nat, i: nat)
    requires SortedEntries(es) && i < |es| && Live(es, s, i)
    ensures Newest(Elements(es), es[i].key, s, es[i])
  {
    forall x | x in Elements(es) && Visible(x, es[i].key, s) ensures x.seqno <= es[i].seqno {
      var j :| 0 <= j < |es| && es[j] == x;
      EntriesInOrder(es, i, j);
    }
  }

  // ---------------------------------------------------------------------
  // Scanning
  // ---------------------------------------------------------------------

  /** No live entry from `from` up to `to` with a key above the bound. */
  predicate NoLive(es: seq<Entry>, s: nat, from: nat, to: nat, above: Option<UserKey>)
    requires to <= |es|
  {
    forall i :: from <= i < to && (above.Some? ==> es[i].key > above.value) ==> !Live(es, s, i)
  }

  /**
   * Where a forward scan may start: a visible entry before it hides nothing beyond the skipped key,
   * and nothing visible from there on lies below that key.
   */
  predicate CleanStart(es: seq<Entry>, s: nat, from: nat, skip: Option<UserKey>)
    requires from <= |es|
  {
    && (forall i, j :: 0 <= j < from <= i < |es| && es[j].key == es[i].key && Seen(es, s, j) ==>
         skip.Some? && es[i].key <= skip.value)
    && (skip.Some? ==> forall i :: from <= i < |es| && Seen(es, s, i) ==> es[i].key >= skip.value)
  }

  /** The key to skip covers every visible entry scanned so far and comes from one of them. */
  ghost predicate SkipState(es: seq<Entry>, s: nat, from: nat, pos: nat, skip0: Option<UserKey>, skip: Option<UserKey>)
    requires from <= pos <= |es|
  {
    && (skip == skip0 || exists d :: from <= d < pos && Seen(es, s, d) && skip == Some(es[d].key))
    && (forall j :: from <= j < pos && Seen(es, s, j) ==> skip.Some? && es[j].key <= skip.value)
    && (skip0.Some? ==> skip.Some? && skip0.value <= skip.value)
  }

  /** A visible value is yielded exactly when it is live and beyond the first skipped key. */
  lemma YieldIsLive(es: seq<Entry>, s: nat, from: nat, pos: nat, skip0: Option<UserKey>, skip: Option<UserKey>)
    requires SortedEntries(es) && from <= pos < |es| && CleanStart(es, s, from, skip0)
    requires SkipState(es, s, from, pos, skip0, skip)
    requires Seen(es, s, pos) && es[pos].op.Put?
    ensures !(skip.Some? && es[pos].key <= skip.value) <==>
      Live(es, s, pos) && (skip0.Some? ==> es[pos].key > skip0.value)
  {
    if skip.Some? && es[pos].key <= skip.value {
      if skip != skip0 {
        var d :| from <= d < pos && Seen(es, s, d) && skip == Some(es[d].key);
        EntriesInOrder(es, d, pos);
        assert es[d].key == es[pos].key;
      }
    }
  }

  /** One round of the scan: where it stops, and what it has skipped if it goes on. */
  lemma ScanAdvances(es: seq<Entry>, s: nat, from: nat, pos: nat, skip0: Option<UserKey>, skip: Option<UserKey>)
    requires SortedEntries(es) && from <= pos < |es| && CleanStart(es, s, from, skip0)
    requires SkipState(es, s, from, pos, skip0, skip) && NoLive(es, s, from, pos, skip0)
    ensures !Seen(es, s, pos) ==> SkipState(es, s, from, pos + 1, skip0, skip) && NoLive(es, s, from, pos + 1, skip0)
    ensures Seen(es, s, pos) && es[pos].op.Delete? ==>
      SkipState(es, s, from, pos + 1, skip0, Some(es[pos].key)) && NoLive(es, s, from, pos + 1, skip0)
    ensures Seen(es, s, pos) && es[pos].op.Put? && skip.Some? && es[pos].key <= skip.value ==>
      SkipState(es, s, from, pos + 1, skip0, skip) && NoLive(es, s, from, pos + 1, skip0)
    ensures Seen(es, s, pos) && es[pos].op.Put? && !(skip.Some? && es[pos].key <= skip.value) ==>
      Live(es, s, pos) && (skip0.Some? ==> es[pos].key > skip0.value)
  {
    if Seen(es, s, pos) {
      SkipAdvances(es, s, from, pos, skip0, skip);
      if es[pos].op.Put? { YieldIsLive(es, s, from, pos, skip0, skip); }
    }
  }

  lemma SkipAdvances(es: seq<Entry>, s: nat, from: nat, pos: nat, skip0: Option<UserKey>, skip: Option<UserKey>)
    requires SortedEntries(es) && from <= pos < |es| && CleanStart(es, s, from, skip0)
    requires SkipState(es, s, from, pos, skip0, skip) && Seen(es, s, pos)
    ensures SkipState(es, s, from, pos + 1, skip0, Some(es[pos].key))
    ensures skip.Some? && es[pos].key <= skip.value ==> SkipState(es, s, from, pos + 1, skip0, skip)
  {
    forall j | from <= j < pos ensures es[j].key <= es[pos].key { EntriesInOrder(es, j, pos); }
  }

  /** Scanning backwards: entry `m` is the visible one met last, if any was met. */
  ghost predicate BackState(es: seq<Entry>, s: nat, pos: nat, from: nat, m: Option<nat>)
    requires from <= |es|
  {
    && (m.Some? ==> pos <= m.value < from && Seen(es, s, m.value))
    && (forall j :: pos <= j < from && Seen(es, s, j) ==> m.Some? && m.value <= j)
    && (forall j :: pos <= j < from && Live(es, s, j) ==> m == Some(j))
  }

  /** Nothing visible from place `to` on belongs to a key of an earlier entry. */
  predicate WholeKeys(es: seq<Entry>, s: nat, to: nat)
    requires to <= |es|
  {
    forall i, j :: 0 <= i < to <= j < |es| && es[i].key == es[j].key ==> !Seen(es, s, j)
  }

  lemma BackAdvances(es: seq<Entry>, s: nat, pos: nat, from: nat, m: Option<nat>)
    requires SortedEntries(es) && 0 < pos <= from <= |es| && BackState(es, s, pos, from, m)
    ensures !Seen(es, s, pos - 1) ==> BackState(es, s, pos - 1, from, m)
    ensures Seen(es, s, pos - 1) && (m.Some? && es[m.value].op.Put? ==> es[pos - 1].key >= es[m.value].key) ==>
      BackState(es, s, pos - 1, from, Some(pos - 1))
  {
    if m.Some? { EntriesInOrder(es, pos - 1, m.value); }
  }

  lemma KeysAtMost(es: seq<Entry>, last: nat)
    requires SortedEntries(es) && last < |es|
    ensures forall j :: 0 <= j <= last ==> es[j].key <= es[last].key
  {
    forall j | 0 <= j < last ensures es[j].key <= es[last].key {
      EntriesInOrder(es, j, last);
    }
  }

  /** The value met last is live once an earlier key, or the front, is reached. */
  lemma BackFinds(es: seq<Entry>, s: nat, pos: nat, from: nat, m: nat)
    requires SortedEntries(es) && pos <= from <= |es| && BackState(es, s, pos, from, Some(m))
    requires m < |es| && es[m].op.Put?
    requires pos > 0 ==> es[pos - 1].key < es[m].key
    ensures Live(es, s, m) && forall j :: 0 <= j < from && Live(es, s, j) ==> j <= m
    ensures forall j :: pos <= j < |es| && Seen(es, s, j) && j < from ==> es[j].key >= es[m].key
  {
    if pos > 0 {
      KeysAtMost(es, pos - 1);
    }
    forall j | pos <= j < from && Seen(es, s, j) ensures es[j].key >= es[m].key {
      EntriesInOrder(es, m, j);
    }
  }

  // ---------------------------------------------------------------------
  // DBIter
  // ---------------------------------------------------------------------

  datatype Direction = Forward | Reverse

  class DBIter {
    const es: seq<Entry>
    const sequence: nat
    var iter: Cursor
    var direction: Direction
    var valid: bool
    /** An empty key is the least one. */
    var savedKey: UserKey
    var savedValue: Bytes
    /** The live entry the iterator stands on; meaningful when valid. */
    ghost var at: nat

    constructor (es: seq<Entry>, sequence: nat)
      requires SortedEntries(es)
      ensures Repr() && !valid && this.es == es && this.sequence == sequence
    {
      this.es, this.sequence := es, sequence;
      iter, direction, valid := Cursor(es, |es|), Forward, false;
      savedKey, savedValue, at := 0.0, [], 0;
    }

    ghost predicate Repr()
      reads this
    {
      && SortedEntries(es) && iter.list == es && iter.pos <= |es|
      && (valid ==> at < |es| && Live(es, sequence, at))
      && (valid && direction.Forward? ==> iter.pos == at)
      && (valid && direction.Reverse? ==> savedKey == es[at].key && savedValue == es[at].op.value)
      && (valid && direction.Reverse? ==> BehindKey(if iter.Valid() then iter.pos + 1 else 0))
    }

    /** Entries before `place` have smaller keys than the saved one; visible ones from there on do not. */
    ghost predicate BehindKey(place: nat)
      reads this
    {
      && place <= |es|
      && (forall j :: 0 <= j < place ==> es[j].key < savedKey)
      && (forall j :: place <= j < |es| && Seen(es, sequence, j) ==> es[j].key >= savedKey)
    }

    method Key() returns (k: UserKey)
      requires Repr() && valid
      ensures k == es[at].key
    {
      k := if direction.Forward? then iter.Current().key else savedKey;
    }

    method Value() returns (v: Bytes)
      requires Repr() && valid
      ensures v == es[at].op.value
    {
      v := if direction.Forward? then iter.Current().op.value else savedValue;
    }

    /** Forward scan to the first live entry from here on whose key lies beyond the skipped one. */
    method FindNextUserEntry(skip0: Option<UserKey>)
      requires SortedEntries(es) && iter.list == es && iter.Valid() && direction.Forward?
      requires CleanStart(es, sequence, iter.pos, skip0)
      modifies this
      ensures Repr() && direction.Forward?
      ensures valid ==> old(iter.pos) <= at && (skip0.Some? ==> es[at].key > skip0.value)
      ensures NoLive(es, sequence, old(iter.pos), if valid then at else |es|, skip0)
    {
      ghost var from := iter.pos;
      var skip := skip0;
      while iter.Valid()
        invariant iter.list == es && from <= iter.pos <= |es| && direction.Forward?
        invariant SkipState(es, sequence, from, iter.pos, skip0, skip)
        invariant NoLive(es, sequence, from, iter.pos, skip0)
        decreases |es| - iter.pos
      {
        var e := iter.Current();
        ScanAdvances(es, sequence, from, iter.pos, skip0, skip);
        if e.seqno <= sequence {
          match e.op {
            case Delete =>
              skip := Some(e.key);
            case Put(_) =>
              if skip.Some? && e.key <= skip.value {
              } else {
                valid := true;
                savedKey := 0.0;
                at := iter.pos;
                return;
              }
          }
        }
        iter := iter.Next();
      }
      savedKey := 0.0;
      valid := false;
    }

    /** Backward scan to the last live entry up to here. */
    method FindPrevUserEntry()
      requires SortedEntries(es) && iter.list == es && iter.pos <= |es| && direction.Reverse?
      requires WholeKeys(es, sequence, if iter.Valid() then iter.pos + 1 else 0)
      modifies this
      ensures Repr()
      ensures valid ==> direction.Reverse?
      ensures var from := if old(iter).Valid() then old(iter).pos + 1 else 0;
        && (valid ==> at < from)
        && NoLive(es, sequence, if valid then at + 1 else 0, from, None)
    {
      ghost var from := if iter.Valid() then iter.pos + 1 else 0;
      var valueType := TypeDeletion;
      ghost var m: Option<nat> := None;
      ghost var pos := from;
      while iter.Valid()
        invariant iter.list == es && iter.pos <= |es| && direction.Reverse?
        invariant pos == (if iter.Valid() then iter.pos + 1 else 0) && pos <= from <= |es|
        invariant BackState(es, sequence, pos, from, m)
        invariant valueType.TypeValue? <==> m.Some? && es[m.value].op.Put?
        invariant valueType.TypeValue? ==> savedKey == es[m.value].key && savedValue == es[m.value].op.value
        decreases pos
      {
        var e := iter.Current();
        BackAdvances(es, sequence, pos, from, m);
        if e.seqno <= sequence {
          if valueType != TypeDeletion && e.key < savedKey {
            break;
          }
          valueType := if e.op.Delete? then TypeDeletion else TypeValue;
          if valueType == TypeDeletion {
            savedKey, savedValue := 0.0, [];
          } else {
            savedKey, savedValue := e.key, e.op.value;
          }
          m := Some(iter.pos);
        }
        iter := iter.Prev();
        pos := pos - 1;
      }
      if valueType == TypeDeletion {
        valid := false;
        savedKey, savedValue := 0.0, [];
        direction := Forward;
      } else {
        BackFinds(es, sequence, pos, from, m.value);
        StaysBehind(es, sequence, pos, from, m.value);
        at := m.value;
        valid := true;
      }
    }

    /** The first live entry. */
    method SeekToFirst()
      requires Repr()
      modifies this
      ensures Repr() && NoLive(es, sequence, 0, if valid then at else |es|, None)
    {
      direction := Forward;
      savedValue := [];
      iter := iter.SeekToFirst();
      if iter.Valid() {
        FindNextUserEntry(None);
      } else {
        valid := false;
      }
    }

    /** The last live entry. */
    method SeekToLast()
      requires Repr()
      modifies this
      ensures Repr() && NoLive(es, sequence, if valid then at + 1 else 0, |es|, None)
    {
      direction := Reverse;
      savedValue := [];
      iter := iter.SeekToLast();
      FindPrevUserEntry();
    }

    /** The first live entry with a key at or after the target. */
    method Seek(target: UserKey)
      requires Repr()
      modifies this
      ensures Repr() && (valid ==> es[at].key >= target)
      ensures forall i :: 0 <= i < (if valid then at else |es|) && es[i].key >= target ==> !Live(es, sequence, i)
    {
      direction := Forward;
      savedValue := [];
      savedKey := target;
      iter := iter.Seek(SeekKey(target, sequence));
      SeekIsClean(es, sequence, target);
      if iter.Valid() {
        FindNextUserEntry(None);
      } else {
        valid := false;
      }
    }

    /** The live entry with the next larger key. */
    method Next()
      requires Repr() && valid
      modifies this
      ensures Repr()
      ensures valid ==> es[at].key > es[old(at)].key
      ensures forall i :: 0 <= i < (if valid then at else |es|) && es[i].key > es[old(at)].key ==> !Live(es, sequence, i)
    {
      var skip: UserKey;
      if direction.Reverse? {
        direction := Forward;
        if !iter.Valid() {
          iter := iter.SeekToFirst();
        } else {
          iter := iter.Next();
        }
        // The entry itself lies ahead, so the list does not end here.
        assert iter.Valid();
        skip := savedKey;
      } else {
        savedKey := iter.Current().key;
        skip := savedKey;
        forall i, j | 0 <= j < iter.pos <= i < |es| ensures es[j].key <= es[iter.pos].key <= es[i].key {
          EntriesInOrder(es, j, iter.pos);
          EntriesInOrder(es, iter.pos, i);
        }
      }
      FindNextUserEntry(Some(skip));
    }

    /** The live entry with the next smaller key. */
    method Prev()
      requires Repr() && valid
      modifies this
      ensures Repr()
      ensures valid ==> es[at].key < es[old(at)].key
      ensures forall i :: (if valid then at + 1 else 0) <= i < |es| && es[i].key < es[old(at)].key ==> !Live(es, sequence, i)
    {
      ghost var start := es[at].key;
      if direction.Forward? {
        savedKey := iter.Current().key;
        var found := StepToSmallerKey();
        if !found {
          valid := false;
          savedKey, savedValue := 0.0, [];
          return;
        }
        direction := Reverse;
      }
      ghost var from := if iter.Valid() then iter.pos + 1 else 0;
      FindPrevUserEntry();
    }

    /** Back over the entries of the saved key, to the last one with a smaller key. */
    method StepToSmallerKey() returns (found: bool)
      requires SortedEntries(es) && iter.list == es && iter.Valid() && es[iter.pos].key == savedKey
      modifies this`iter
      ensures iter.list == es && iter.pos <= |es|
      ensures found ==> iter.Valid() && es[iter.pos].key < savedKey
      ensures found ==> forall j :: iter.pos < j < |es| ==> es[j].key >= savedKey
      ensures !found ==> forall j :: 0 <= j < |es| ==> es[j].key >= savedKey
    {
      ghost var pos := iter.pos;
      forall j | pos <= j < |es| ensures es[j].key >= savedKey { EntriesInOrder(es, pos, j); }
      while true
        invariant iter.list == es && iter.Valid() && iter.pos == pos
        invariant forall j :: pos <= j < |es| ==> es[j].key >= savedKey
        decreases pos
      {
        iter := iter.Prev();
        if !iter.Valid() {
          return false;
        }
        pos := pos - 1;
        if iter.Current().key < savedKey {
          return true;
        }
      }
    }
  }

  lemma StaysBehind(es: seq<Entry>, s: nat, pos: nat, from: nat, m: nat)
    requires SortedEntries(es) && pos <= from <= |es| && BackState(es, s, pos, from, Some(m)) && m < |es|
    requires WholeKeys(es, s, from) && (pos > 0 ==> es[pos - 1].key < es[m].key)
    ensures forall j :: 0 <= j < pos ==> es[j].key < es[m].key
    ensures forall j :: pos <= j < |es| && Seen(es, s, j) ==> es[j].key >= es[m].key
  {
    forall j | 0 <= j < pos ensures es[j].key < es[m].key { EntriesInOrder(es, j, pos - 1); }
    forall j | pos <= j < |es| && Seen(es, s, j) ensures es[j].key >= es[m].key { EntriesInOrder(es, m, j); }
  }

  /** Before the seek position only entries of smaller keys, or too new ones of the target. */
  lemma SeekIsClean(es: seq<Entry>, s: nat, target: UserKey)
    requires SortedEntries(es)
    ensures var p := SeekIndex(es, SeekKey(target, s));
      && CleanStart(es, s, p, None)
      && (forall i :: 0 <= i < p ==> es[i].key < target || !Seen(es, s, i))
      && (forall i :: p <= i < |es| ==> es[i].key >= target)
  {
    var p := SeekIndex(es, SeekKey(target, s));
    forall i | p <= i < |es| ensures es[i].key >= target { EntriesInOrder(es, p, i); }
  }
}
