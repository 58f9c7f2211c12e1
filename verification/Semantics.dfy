/**
 * What a database means: a history of writes, and for every sequence number the map that the
 * history up to that number leaves behind. A set of entries answers a read with the newest
 * entry at or below the sequence number.
 */
module Semantics {
  import opened Keys

  type Contents = map<UserKey, Bytes>

  function Perform(m: Contents, e: Entry): Contents {
    match e.op
    case Put(v) => m[e.key := v]
    case Delete => m - {e.key}
  }

  /** The map left by a history of writes: the reference for every read. */
  function Replay(h: seq<Entry>): Contents {
    if h == [] then map[] else Perform(Replay(h[..|h| - 1]), h[|h| - 1])
  }

  function Lookup(m: Contents, k: UserKey): Option<Bytes> {
    if k in m then Some(m[k]) else None
  }

  /** What a read returns when it stops at an entry. */
  function ValueOf(r: Option<Entry>): Option<Bytes> {
    if r.Some? && r.value.op.Put? then Some(r.value.op.value) else None
  }

  /** `e` is the newest entry of `S` that a read of `k` at `s` may see. */
  ghost predicate Newest(S: set<Entry>, k: UserKey, s: nat, e: Entry) {
    && e in S
    && Visible(e, k, s)
    && forall x :: x in S && Visible(x, k, s) ==> x.seqno <= e.seqno
  }

  ghost predicate NoneVisible(S: set<Entry>, k: UserKey, s: nat) {
    forall x :: x in S ==> !Visible(x, k, s)
  }

  /** Sequence numbers are handed out once, so they identify entries. */
  ghost predicate UniqueSeqnos(S: set<Entry>) {
    forall x, y :: x in S && y in S && x.seqno == y.seqno ==> x == y
  }

  ghost predicate HasAt(S: set<Entry>, k: UserKey, s: nat, e: Entry) {
    e in S && e.key == k && e.seqno == s
  }

  /** The entry at which a brute-force read of `S` stops: the largest sequence number wins. */
  ghost function Find(S: set<Entry>, k: UserKey, s: nat): (r: Option<Entry>)
    ensures r.None? ==> NoneVisible(S, k, s)
    ensures r.Some? ==> Newest(S, k, s, r.value)
  {
    if exists e :: HasAt(S, k, s, e) then
      var e :| HasAt(S, k, s, e);
      Some(e)
    else
      assert forall x :: x in S && Visible(x, k, s) ==> !HasAt(S, k, s, x);
      if s == 0 then None else Find(S, k, s - 1)
  }

  /** The value a brute-force read returns. */
  ghost function View(S: set<Entry>, k: UserKey, s: nat): Option<Bytes> {
    ValueOf(Find(S, k, s))
  }

  lemma NewestIsFound(S: set<Entry>, k: UserKey, s: nat, e: Entry)
    requires UniqueSeqnos(S) && Newest(S, k, s, e)
    ensures Find(S, k, s) == Some(e)
  {
    var r := Find(S, k, s);
    assert r.Some?;
    assert Newest(S, k, s, r.value);
    assert r.value.seqno == e.seqno;
  }

  lemma NoneVisibleIsNotFound(S: set<Entry>, k: UserKey, s: nat)
    requires NoneVisible(S, k, s)
    ensures Find(S, k, s) == None
  {
    assert Find(S, k, s).Some? ==> Newest(S, k, s, Find(S, k, s).value);
  }

  /** A result that is the newest entry, or absent when there is none, is the brute-force one. */
  lemma ResultIsFind(S: set<Entry>, k: UserKey, s: nat, r: Option<Entry>)
    requires UniqueSeqnos(S)
    requires r.None? ==> NoneVisible(S, k, s)
    requires r.Some? ==> Newest(S, k, s, r.value)
    ensures Find(S, k, s) == r
  {
    if r.Some? { NewestIsFound(S, k, s, r.value); } else { NoneVisibleIsNotFound(S, k, s); }
  }

  /** Entries above the sequence number of a read do not matter to it. */
  lemma ViewIgnoresLater(S: set<Entry>, T: set<Entry>, k: UserKey, s: nat)
    requires UniqueSeqnos(S) && UniqueSeqnos(T)
    requires forall x :: x in S && x.seqno <= s ==> x in T
    requires forall x :: x in T && x.seqno <= s ==> x in S
    ensures Find(S, k, s) == Find(T, k, s)
  {
    var r := Find(S, k, s);
    if r.Some? { assert Newest(T, k, s, r.value); }
    ResultIsFind(T, k, s, r);
  }

  function Elements(es: seq<Entry>): set<Entry> {
    set x | x in es
  }

  // ---------------------------------------------------------------------
  // Histories
  // ---------------------------------------------------------------------

  /** A history numbers its writes in increasing order; a crash may have left gaps. */
  predicate Ascending(h: seq<Entry>) {
    forall i, j :: 0 <= i < j < |h| ==> h[i].seqno < h[j].seqno
  }

  /** The writes of a history that are numbered up to `q`. */
  function AsOf(h: seq<Entry>, q: nat): seq<Entry> {
    if h == [] then []
    else if h[|h| - 1].seqno <= q then h
    else AsOf(h[..|h| - 1], q)
  }

  lemma AscendingIsUnique(h: seq<Entry>)
    requires Ascending(h)
    ensures UniqueSeqnos(Elements(h))
  {
  }

  lemma AscendingLast(h: seq<Entry>)
    requires Ascending(h) && h != []
    ensures var init, e := h[..|h| - 1], h[|h| - 1];
      Ascending(init) && e in h && (forall x :: x in init ==> x.seqno < e.seqno) && Elements(h) == Elements(init) + {e}
  {
    var init, e := h[..|h| - 1], h[|h| - 1];
    assert h == init + [e];
    forall x | x in init ensures x.seqno < e.seqno {
      var i :| 0 <= i < |init| && init[i] == x;
      assert h[i] == x;
    }
  }

  lemma {:induction false} AsOfHolds(h: seq<Entry>, q: nat)
    requires Ascending(h)
    ensures AsOf(h, q) <= h && forall e :: e in AsOf(h, q) <==> e in h && e.seqno <= q
  {
    if h != [] {
      AscendingLast(h);
      AsOfHolds(h[..|h| - 1], q);
      var init, last := h[..|h| - 1], h[|h| - 1];
      forall e ensures e in AsOf(h, q) <==> e in h && e.seqno <= q {
        assert e in Elements(h) <==> e in Elements(init) || e == last;
      }
    }
  }

  /** Where no number is missing, these are the first `q` writes. */
  lemma {:induction false} AsOfIsPrefix(h: seq<Entry>, q: nat)
    requires (forall i :: 0 <= i < |h| ==> h[i].seqno == i + 1) && q <= |h|
    ensures AsOf(h, q) == h[..q]
  {
    if q < |h| {
      AsOfIsPrefix(h[..|h| - 1], q);
      assert h[..|h| - 1][..q] == h[..q];
    } else {
      assert h[..q] == h;
    }
  }

  lemma AsOfAll(h: seq<Entry>, q: nat)
    requires forall e :: e in h ==> e.seqno <= q
    ensures AsOf(h, q) == h
  {
  }

  // ---------------------------------------------------------------------
  // Newer entries
  // ---------------------------------------------------------------------

  /** Where all numbers are small a larger sequence number reads the same. */
  lemma ViewAbove(S: set<Entry>, k: UserKey, p: nat, q: nat)
    requires UniqueSeqnos(S) && p <= q && forall x :: x in S ==> x.seqno <= p
    ensures View(S, k, p) == View(S, k, q)
  {
    ResultIsFind(S, k, q, Find(S, k, p));
  }

  /** One newer entry decides its own key. */
  lemma OneNewer(S: set<Entry>, h: seq<Entry>, e: Entry, k: UserKey, q: nat)
    requires UniqueSeqnos(S) && e.seqno <= q && forall x :: x in S ==> x.seqno < e.seqno
    requires View(S, k, q) == Lookup(Replay(h), k)
    ensures View(S + {e}, k, q) == Lookup(Replay(h + [e]), k)
  {
    assert (h + [e])[..|h|] == h;
    if e.key == k {
      NewestIsFound(S + {e}, k, q, e);
    } else {
      ResultIsFind(S + {e}, k, q, Find(S, k, q));
    }
  }

  lemma UniqueGrows(S: set<Entry>, e: Entry)
    requires UniqueSeqnos(S) && forall x :: x in S ==> x.seqno < e.seqno
    ensures UniqueSeqnos(S + {e})
  {
  }

  lemma AppendLast(T: set<Entry>, h: seq<Entry>, e: Entry, k: UserKey, q: nat, R: set<Entry>, hw: seq<Entry>)
    requires R == T + {e} && hw == h + [e]
    requires UniqueSeqnos(T) && e.seqno <= q && forall x :: x in T ==> x.seqno < e.seqno
    requires View(T, k, q) == Lookup(Replay(h), k)
    ensures View(R, k, q) == Lookup(Replay(hw), k) && UniqueSeqnos(R)
  {
    OneNewer(T, h, e, k, q);
    UniqueGrows(T, e);
  }

  // ---------------------------------------------------------------------
  // Reads of a growing history
  // ---------------------------------------------------------------------

  /** Reads of the key follow the history from `from` on. */
  ghost predicate FollowsFrom(S: set<Entry>, h: seq<Entry>, from: nat, k: UserKey) {
    forall q: nat :: from <= q ==> View(S, k, q) == Lookup(Replay(AsOf(h, q)), k)
  }

  /**
   * Writing on: if reads of `S` follow the history `h` from `from` on, reads of `S` with the new
   * entries `w` follow the longer history.
   */
  lemma {:induction false} AppendedReads(S: set<Entry>, h: seq<Entry>, w: seq<Entry>, from: nat, k: UserKey, q: nat)
    requires Ascending(h + w) && S <= Elements(h) && from <= q && FollowsFrom(S, h, from, k)
    ensures View(S + Elements(w), k, q) == Lookup(Replay(AsOf(h + w, q)), k)
    decreases |w|
  {
    if w == [] {
      assert h + w == h && S + Elements(w) == S;
    } else {
      var init, e := w[..|w| - 1], w[|w| - 1];
      OneMoreEntry(S, h, init, e, w);
      AppendedReads(S, h, init, from, k, q);
      LastAppended(S + Elements(init), h + init, e, k, q, S + Elements(w), h + w);
    }
  }

  lemma OneMoreEntry(S: set<Entry>, h: seq<Entry>, init: seq<Entry>, e: Entry, w: seq<Entry>)
    requires w == init + [e] && Ascending(h + w) && S <= Elements(h)
    ensures h + w == h + init + [e] && Ascending(h + init)
    ensures S + Elements(w) == S + Elements(init) + {e} && S + Elements(init) <= Elements(h + init)
  {
    assert h + w == h + init + [e];
    assert forall i :: 0 <= i < |h + init| ==> (h + w)[i] == (h + init)[i];
    assert forall x :: x in w <==> x in init || x == e;
  }

  lemma LastAppended(T: set<Entry>, h: seq<Entry>, e: Entry, k: UserKey, q: nat, R: set<Entry>, hw: seq<Entry>)
    requires R == T + {e} && hw == h + [e] && Ascending(hw) && T <= Elements(h)
    requires View(T, k, q) == Lookup(Replay(AsOf(h, q)), k)
    ensures View(R, k, q) == Lookup(Replay(AsOf(hw, q)), k)
  {
    BeforeLast(h, e, hw);
    LastIsUnique(T, h, e);
    if e.seqno <= q {
      AsOfAll(h, q);
      AsOfAll(hw, q);
      AppendLast(T, h, e, k, q, R, hw);
    } else {
      UnseenLast(T, e, k, q, R);
    }
  }

  lemma LastIsUnique(T: set<Entry>, h: seq<Entry>, e: Entry)
    requires Ascending(h) && T <= Elements(h) && forall x :: x in h ==> x.seqno < e.seqno
    ensures UniqueSeqnos(T) && UniqueSeqnos(T + {e}) && forall x :: x in T ==> x.seqno < e.seqno
  {
    AscendingIsUnique(h);
  }

  lemma UnseenLast(T: set<Entry>, e: Entry, k: UserKey, q: nat, R: set<Entry>)
    requires R == T + {e} && UniqueSeqnos(T) && UniqueSeqnos(T + {e}) && q < e.seqno
    ensures View(R, k, q) == View(T, k, q)
  {
    ViewIgnoresLater(R, T, k, q);
  }

  lemma BeforeLast(h: seq<Entry>, e: Entry, hw: seq<Entry>)
    requires hw == h + [e] && Ascending(hw)
    ensures Ascending(h) && (forall x :: x in h ==> x.seqno < e.seqno) && (forall x :: x in hw ==> x in h || x == e)
    ensures forall q: nat :: q < e.seqno ==> AsOf(hw, q) == AsOf(h, q)
  {
    AscendingLast(hw);
    assert hw[..|h|] == h;
  }

  /** Brute force over a complete history agrees with replaying it. */
  lemma HistoryViewIsReplay(h: seq<Entry>, k: UserKey, q: nat)
    requires Ascending(h)
    ensures View(Elements(h), k, q) == Lookup(Replay(AsOf(h, q)), k)
  {
    forall p: nat ensures View({}, k, p) == Lookup(Replay(AsOf([], p)), k) {
      NoneVisibleIsNotFound({}, k, p);
    }
    assert {} + Elements(h) == Elements(h) && [] + h == h;
    AppendedReads({}, [], h, 0, k, q);
  }
}
