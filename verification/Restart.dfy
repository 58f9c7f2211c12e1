/**
 * The engine after recovery: what is left of it is again an engine that may start, so that everything
 * shown of runs and crashes holds for the next run too. db/db_impl.cc:280-369 and 1474-1515.
 */
module Restart {
  import opened Keys
  import opened Semantics
  import opened Versions
  import opened Levels
  import opened Database
  import opened Runs
  import opened LogReplay
  import opened Crash

  /** The database as recovery leaves it; the memtable is kept if the last log goes on. */
  datatype Opened = Opened(version: Version, mem: seq<Entry>, kept: bool, lastSequence: nat, nextFile: nat)

  ghost function HeldBy(o: Opened): set<Entry> {
    VersionEntries(o.version) + Elements(o.mem)
  }

  /** The groups that are left. */
  function SurvivingGroups(s: System, a: nat, b: nat): seq<Group>
    requires Survives(s, a, b)
  {
    s.groups[..a] + s.groups[s.sealed..b]
  }

  /** The engine that starts again. What recovery wrote out is flushed, and all that is left is on disk. */
  function Next(s: System, a: nat, b: nat, o: Opened): System
    requires Survives(s, a, b)
  {
    var gs := SurvivingGroups(s, a, b);
    var n := if o.kept then a else |gs|;
    System(State(o.mem, None, o.version, o.lastSequence, [], None, o.nextFile, Surviving(s, a, b)), gs, n, n, n, |gs|)
  }

  /** What the logs gave went into new tables, except for a memtable that stays. */
  ghost predicate HandsOver(o: Opened, s: System, a: nat, b: nat, first: seq<Entry>, last: seq<Entry>) {
    && Survives(s, a, b) && ValidVersion(o.version) && InOrder(o.version)
    && NumbersNameFiles(o.version) && NumbersBelow(o.version, o.nextFile)
    && VersionEntries(o.version) == VersionEntries(s.db.version) + Elements(first)
    && first + last == Between(s, s.flushed, a) + Between(s, s.sealed, b) && o.mem == AddAll([], last)
    && (if o.kept then last == Between(s, s.sealed, b) else last == [])
    && LastNumber(SurvivingGroups(s, a, b)) <= o.lastSequence <= s.db.lastSequence
  }

  // ---------------------------------------------------------------------
  // Groups
  // ---------------------------------------------------------------------

  lemma GroupsSurvive(s: System, a: nat, b: nat)
    requires Survives(s, a, b)
    ensures GroupEntries(SurvivingGroups(s, a, b)) == Surviving(s, a, b)
    ensures |SurvivingGroups(s, a, b)| == a + b - s.sealed
    ensures SurvivingGroups(s, a, b)[..a] == s.groups[0..a] && SurvivingGroups(s, a, b)[a..] == s.groups[s.sealed..b]
  {
    GroupsConcat(s.groups[..a], s.groups[s.sealed..b]);
    assert s.groups[..a] == s.groups[0..a];
  }

  /** The parts of the next engine's groups are parts of this one's. */
  lemma NextParts(s: System, a: nat, b: nat, t: System)
    requires Survives(s, a, b) && t.groups == SurvivingGroups(s, a, b)
    ensures a <= |t.groups| && Between(t, 0, a) == Between(s, 0, a) && Between(t, a, |t.groups|) == Between(s, s.sealed, b)
    ensures Between(t, 0, |t.groups|) == Surviving(s, a, b) && Between(t, |t.groups|, |t.groups|) == [] && Between(t, a, a) == []
  {
    GroupsSurvive(s, a, b);
    var gs := t.groups;
    assert gs[0..a] == gs[..a] && gs[a..|gs|] == gs[a..] && gs[0..|gs|] == gs && gs[|gs|..|gs|] == [] && gs[a..a] == [];
  }

  lemma SurvivingMembers(s: System, a: nat, b: nat, i: nat) returns (j: nat)
    requires Survives(s, a, b) && i < |SurvivingGroups(s, a, b)|
    ensures j < |s.groups| && SurvivingGroups(s, a, b)[i] == s.groups[j]
  {
    j := if i < a then i else s.sealed + i - a;
  }

  lemma GroupsFit(s: System, a: nat, b: nat)
    requires Survives(s, a, b) && AllFit(s.groups)
    ensures AllFit(SurvivingGroups(s, a, b))
  {
    forall i | 0 <= i < |SurvivingGroups(s, a, b)| ensures FitsGroup(SurvivingGroups(s, a, b)[i]) {
      var j := SurvivingMembers(s, a, b, i);
    }
  }

  lemma LastCovers(groups: seq<Group>, n: nat)
    requires LastNumber(groups) <= n
    ensures forall i :: 0 <= i < |groups| ==> groups[i].sequence + |groups[i].ops| <= n + 1
  {
    LastNumberIs(groups, n);
    forall i | 0 <= i < |groups| ensures groups[i].sequence + |groups[i].ops| <= n + 1 {
      assert LastOf(groups[i]) <= n;
    }
  }

  lemma {:induction false} EntriesUpTo(groups: seq<Group>, n: nat)
    requires forall i :: 0 <= i < |groups| ==> groups[i].sequence + |groups[i].ops| <= n + 1
    ensures forall e :: e in GroupEntries(groups) ==> e.seqno <= n
  {
    if groups != [] {
      EntriesUpTo(groups[..|groups| - 1], n);
    }
  }

  // ---------------------------------------------------------------------
  // The history that is left
  // ---------------------------------------------------------------------

  /** It is in order, and its parts are. */
  lemma SurvivingAscends(s: System, a: nat, b: nat)
    requires SystemInv(s) && Survives(s, a, b)
    ensures Ascending(Surviving(s, a, b)) && forall e :: e in Surviving(s, a, b) ==> e in s.db.history
  {
    var n := |s.groups|;
    Splits(s, 0, a, s.sealed);
    Splits(s, 0, s.sealed, b);
    Splits(s, 0, b, n);
    All(s);
    TwoParts(s.db.history, Between(s, 0, a), Between(s, a, s.sealed), Between(s, s.sealed, b), Between(s, b, n));
  }

  lemma TwoParts(h: seq<Entry>, x: seq<Entry>, lost: seq<Entry>, y: seq<Entry>, rest: seq<Entry>)
    requires Ascending(h) && h == x + lost + y + rest
    ensures Ascending(x + y) && forall e :: e in x + y ==> e in h
  {
    assert [] + x == x;
    AscendingParts(h, [], x, lost, y, rest, {});
    forall i | 0 <= i < |x + y| ensures (x + y)[i] in h {
      PlaceIn(h, [], x, lost, y, rest, i);
    }
  }

  /** What was flushed is part of what is left, and older than what the logs give. */
  lemma FlushedIsOlder(s: System, a: nat, b: nat, first: seq<Entry>, last: seq<Entry>)
    requires SystemInv(s) && Survives(s, a, b) && first + last == Between(s, s.flushed, a) + Between(s, s.sealed, b)
    ensures Above(VersionEntries(s.db.version), first) && Above(VersionEntries(s.db.version) + Elements(first), last)
    ensures VersionEntries(s.db.version) + Elements(first) + Elements(last) <= Elements(Surviving(s, a, b))
  {
    SurvivorsAbove(s, a, b);
    AboveSplits(VersionEntries(s.db.version), first, last);
    var w := first + last;
    assert forall e :: e in first || e in last ==> e in w;
    assert forall e :: e in w ==> e in Surviving(s, a, b);
    assert forall e :: e in Between(s, 0, s.flushed) ==> e in Surviving(s, a, b);
  }

  lemma AboveSplits(S: set<Entry>, first: seq<Entry>, last: seq<Entry>)
    requires Above(S, first + last)
    ensures Above(S, first) && Above(S + Elements(first), last)
  {
    var w := first + last;
    forall i, j | 0 <= i < j < |first| ensures first[i].seqno < first[j].seqno { assert w[i] == first[i] && w[j] == first[j]; }
    forall i, j | 0 <= i < j < |last| ensures last[i].seqno < last[j].seqno {
      assert w[|first| + i] == last[i] && w[|first| + j] == last[j];
    }
    forall x, y | x in S + Elements(first) && y in last ensures x.seqno < y.seqno {
      var j :| 0 <= j < |last| && last[j] == y;
      assert w[|first| + j] == y;
      if x in first {
        var i :| 0 <= i < |first| && first[i] == x;
        assert w[i] == x;
      }
    }
  }

  // ---------------------------------------------------------------------
  // The engine starts again
  // ---------------------------------------------------------------------

  lemma NextHeldBy(o: Opened, s: System, a: nat, b: nat, first: seq<Entry>, last: seq<Entry>)
    requires SystemInv(s) && HandsOver(o, s, a, b, first, last)
    ensures SortedEntries(o.mem) && Elements(o.mem) == Elements(last) && HeldBy(o) == Salvaged(s, a, b)
    ensures HeldBy(o) <= Elements(Surviving(s, a, b))
    ensures forall x, y :: x in Elements(o.mem) && y in VersionEntries(o.version) ==> x.seqno > y.seqno
  {
    FlushedIsOlder(s, a, b, first, last);
    AddAllSorted(last);
    AddAllHolds([], last);
    assert forall e :: e in first + last <==> e in first || e in last;
  }

  /** The numbers of what is left have been handed out. */
  lemma SurvivingNumbers(o: Opened, s: System, a: nat, b: nat)
    requires SystemInv(s) && Survives(s, a, b) && LastNumber(SurvivingGroups(s, a, b)) <= o.lastSequence
    ensures Ascending(Surviving(s, a, b)) && forall x :: x in Surviving(s, a, b) ==> 1 <= x.seqno <= o.lastSequence
  {
    SurvivingAscends(s, a, b);
    GroupsSurvive(s, a, b);
    LastCovers(SurvivingGroups(s, a, b), o.lastSequence);
    EntriesUpTo(SurvivingGroups(s, a, b), o.lastSequence);
  }

  /** The state of the engine that starts again. */
  ghost predicate NextState(o: Opened, h: seq<Entry>, t: State) {
    t == State(o.mem, None, o.version, o.lastSequence, [], None, o.nextFile, h)
  }

  lemma NextIsRecorded(o: Opened, h: seq<Entry>, t: State)
    requires NextState(o, h, t) && HeldBy(o) <= Elements(h) && o.lastSequence < kMaxSequenceNumber
    requires Ascending(h) && forall x :: x in h ==> 1 <= x.seqno <= o.lastSequence
    ensures Recorded(t) && Everything(t) == HeldBy(o)
  {
  }

  lemma NextIsShaped(o: Opened, h: seq<Entry>, t: State)
    requires NextState(o, h, t) && ValidVersion(o.version) && InOrder(o.version) && SortedEntries(o.mem)
    requires NumbersNameFiles(o.version) && NumbersBelow(o.version, o.nextFile)
    requires forall x, y :: x in Elements(o.mem) && y in VersionEntries(o.version) ==> x.seqno > y.seqno
    ensures Shape(t) && Aged(t) && Snapshots(t) && RunningLevels(t) && RunningSnapshot(t)
  {
  }

  /** The history that is left is recorded, and the levels are right. */
  lemma NextLevels(o: Opened, s: System, a: nat, b: nat, first: seq<Entry>, last: seq<Entry>)
    requires SystemInv(s) && HandsOver(o, s, a, b, first, last)
    ensures LevelInv(Next(s, a, b, o).db) && Everything(Next(s, a, b, o).db) == HeldBy(o)
  {
    var t := Next(s, a, b, o).db;
    NextHeldBy(o, s, a, b, first, last);
    SurvivingNumbers(o, s, a, b);
    NextIsRecorded(o, Surviving(s, a, b), t);
    NextIsShaped(o, Surviving(s, a, b), t);
  }

  lemma NextLogged(o: Opened, s: System, a: nat, b: nat, first: seq<Entry>, last: seq<Entry>)
    requires SystemInv(s) && HandsOver(o, s, a, b, first, last)
    ensures var t := Next(s, a, b, o); Bounds(t) && AllFit(t.groups) && HandedOut(t) && Logged(t)
  {
    var t := Next(s, a, b, o);
    NextParts(s, a, b, t);
    GroupsSurvive(s, a, b);
    GroupsFit(s, a, b);
    LastCovers(t.groups, o.lastSequence);
    NextHeldBy(o, s, a, b, first, last);
    if o.kept {
      KeptSplits(s, a, b, first, last);
    }
  }

  /** With the last memtable kept, the tables hold what came before. */
  lemma KeptSplits(s: System, a: nat, b: nat, first: seq<Entry>, last: seq<Entry>)
    requires SystemInv(s) && Survives(s, a, b) && last == Between(s, s.sealed, b)
    requires first + last == Between(s, s.flushed, a) + Between(s, s.sealed, b)
    ensures first == Between(s, s.flushed, a) && Between(s, 0, s.flushed) + first == Between(s, 0, a)
    ensures VersionEntries(s.db.version) + Elements(first) <= Elements(Between(s, 0, a))
  {
    var x := Between(s, s.flushed, a);
    assert (first + last)[..|first|] == first && (x + last)[..|x|] == x;
    Splits(s, 0, s.flushed, a);
    assert forall e :: e in Between(s, 0, s.flushed) || e in first ==> e in Between(s, 0, a);
  }

  /** The tables follow the part of the history that is in them. */
  lemma NextTables(o: Opened, s: System, a: nat, b: nat, first: seq<Entry>, last: seq<Entry>)
    requires Starts(s) && HandsOver(o, s, a, b, first, last)
    ensures var t := Next(s, a, b, o); Bounds(t) && TablesFollow(t)
  {
    var t := Next(s, a, b, o);
    NextLevels(o, s, a, b, first, last);
    NextParts(s, a, b, t);
    FlushedIsOlder(s, a, b, first, last);
    FlushedPart(s, a, b, o, first, last);
    TablesOld(s);
    var S, h, q := VersionEntries(s.db.version), Between(s, 0, s.flushed), s.db.lastSequence;
    TablesBelow(o, s, a, b, first, last);
    forall k ensures View(VersionEntries(o.version), k, o.lastSequence) == Lookup(Replay(Between(t, 0, t.flushed)), k) {
      AppendedView(S, h, first, k, q);
      ViewAbove(VersionEntries(o.version), k, o.lastSequence, q);
    }
  }

  lemma TablesBelow(o: Opened, s: System, a: nat, b: nat, first: seq<Entry>, last: seq<Entry>)
    requires SystemInv(s) && HandsOver(o, s, a, b, first, last)
    ensures UniqueSeqnos(VersionEntries(o.version)) && forall x :: x in VersionEntries(o.version) ==> x.seqno <= o.lastSequence
    ensures forall y :: y in first ==> y.seqno <= s.db.lastSequence
  {
    NextLevels(o, s, a, b, first, last);
    HistoryUnique(Next(s, a, b, o).db);
    var t := Next(s, a, b, o).db;
    assert VersionEntries(o.version) <= Everything(t);
    assert forall y :: y in first ==> y in VersionEntries(o.version);
  }

  lemma FlushedPart(s: System, a: nat, b: nat, o: Opened, first: seq<Entry>, last: seq<Entry>)
    requires SystemInv(s) && HandsOver(o, s, a, b, first, last)
    ensures var t := Next(s, a, b, o); t.flushed <= |t.groups| && Between(s, 0, s.flushed) + first == Between(t, 0, t.flushed)
  {
    var t := Next(s, a, b, o);
    NextParts(s, a, b, t);
    if o.kept {
      KeptSplits(s, a, b, first, last);
    } else {
      SurvivorsAbove(s, a, b);
      assert first + [] == first;
    }
  }

  /**
   * What recovery leaves is an engine that may start: its levels are valid, its logs account for all it holds,
   * and its tables follow the history that is left.
   */
  lemma NextStarts(o: Opened, s: System, a: nat, b: nat, first: seq<Entry>, last: seq<Entry>)
    requires Starts(s) && HandsOver(o, s, a, b, first, last)
    ensures Starts(Next(s, a, b, o)) && HeldBy(o) == Salvaged(s, a, b)
  {
    NextLevels(o, s, a, b, first, last);
    NextLogged(o, s, a, b, first, last);
    NextTables(o, s, a, b, first, last);
    NextHeldBy(o, s, a, b, first, last);
  }

  /** Its reads start out right. */
  lemma NextBegins(o: Opened, s: System, a: nat, b: nat, first: seq<Entry>, last: seq<Entry>)
    requires Starts(s) && HandsOver(o, s, a, b, first, last)
    ensures Begins(Next(s, a, b, o).db)
  {
    var t := Next(s, a, b, o).db;
    NextLevels(o, s, a, b, first, last);
    NextHeldBy(o, s, a, b, first, last);
    SurvivingNumbers(o, s, a, b);
    forall k, q: nat | o.lastSequence <= q
      ensures View(HeldBy(o), k, q) == Lookup(Replay(AsOf(Surviving(s, a, b), q)), k)
    {
      SalvagedBelow(o, s, a, b);
      RecoveredReads(s, a, b, k, q);
      AsOfAll(Surviving(s, a, b), q);
    }
  }

  lemma SalvagedBelow(o: Opened, s: System, a: nat, b: nat)
    requires Survives(s, a, b) && HeldBy(o) == Salvaged(s, a, b) && HeldBy(o) <= Elements(Surviving(s, a, b))
    requires forall x :: x in Surviving(s, a, b) ==> x.seqno <= o.lastSequence
    ensures forall x :: x in Salvaged(s, a, b) ==> x.seqno <= o.lastSequence
  {
    assert forall x :: x in Salvaged(s, a, b) ==> x in Elements(Surviving(s, a, b));
  }
}
