/**
 * Sets of files whose ranges leave no gap. A memtable file that sinks past such a set lies wholly
 * on one side of it, so the outputs of a compaction of the set cannot straddle the new file.
 */
module Gaps {
  import opened Keys
  import opened Tables
  import opened Overlap

  /** No file of the list meets the user keys from `p` to `q`. */
  predicate Avoids(fs: seq<File>, p: UserKey, q: UserKey) {
    forall f :: f in fs ==> f.largest.user < p || q < f.smallest.user
  }

  predicate AllLeft(fs: seq<File>, p: UserKey) {
    forall f :: f in fs ==> f.largest.user < p
  }

  predicate AllRight(fs: seq<File>, q: UserKey) {
    forall f :: f in fs ==> q < f.smallest.user
  }

  /** Whatever range the files avoid, they all lie on the same side of it. */
  ghost predicate Gapless(fs: seq<File>) {
    forall p: UserKey, q: UserKey :: p <= q && Avoids(fs, p, q) ==> AllLeft(fs, p) || AllRight(fs, q)
  }

  /** The file meets the range from the smallest to the largest user key of the list. */
  predicate MeetsHull(h: File, fs: seq<File>) {
    && (exists f :: f in fs && f.smallest.user <= h.largest.user)
    && (exists f :: f in fs && h.smallest.user <= f.largest.user)
  }

  lemma SingleIsGapless(f: File)
    ensures Gapless([f])
  {
  }

  /** Only the members of the list matter. */
  lemma GaplessMembers(fs: seq<File>, gs: seq<File>)
    requires Gapless(fs) && forall f :: f in fs <==> f in gs
    ensures Gapless(gs)
  {
    forall p: UserKey, q: UserKey | p <= q && Avoids(gs, p, q) ensures AllLeft(gs, p) || AllRight(gs, q) {
      assert Avoids(fs, p, q);
    }
  }

  lemma GaplessGrows(fs: seq<File>, hs: seq<File>)
    requires Gapless(fs) && OrderedFiles(fs) && OrderedFiles(hs)
    requires forall h :: h in hs ==> MeetsHull(h, fs)
    ensures Gapless(fs + hs)
  {
    forall p: UserKey, q: UserKey | p <= q && Avoids(fs + hs, p, q) ensures AllLeft(fs + hs, p) || AllRight(fs + hs, q) {
      forall f | f in fs ensures f.largest.user < p || q < f.smallest.user { assert f in fs + hs; }
      assert Avoids(fs, p, q);
      forall h | h in hs ensures (h.largest.user < p || q < h.smallest.user) && MeetsHull(h, fs) && Ordered(h) {
        assert h in fs + hs;
      }
      assert forall f :: f in fs ==> Ordered(f);
    }
  }

  /** Every file after the first ones starts at the user key where an earlier one ends. */
  predicate Linked(from: seq<File>, to: seq<File>) {
    from <= to && forall i :: |from| <= i < |to| ==> EndsAt(to[..i], to[i].smallest.user)
  }

  predicate EndsAt(fs: seq<File>, k: UserKey) {
    exists f :: f in fs && f.largest.user == k
  }

  lemma {:induction false} LinkedKeepsGapless(fs: seq<File>, from: seq<File>, to: seq<File>, n: nat)
    requires Gapless(fs + from) && Linked(from, to) && OrderedFiles(fs) && OrderedFiles(to)
    requires |from| <= n <= |to|
    ensures Gapless(fs + to[..n])
  {
    if n == |from| {
      assert to[..n] == from;
    } else {
      LinkedKeepsGapless(fs, from, to, n - 1);
      LinkKeepsGapless(fs + to[..n - 1], to[..n - 1], to[n - 1]);
      assert fs + to[..n - 1] + [to[n - 1]] == fs + to[..n];
    }
  }

  /** One more file that starts where an earlier one ends. */
  lemma LinkKeepsGapless(all: seq<File>, done: seq<File>, h: File)
    requires Gapless(all) && OrderedFiles(all) && (forall f :: f in done ==> f in all)
    requires Ordered(h) && EndsAt(done, h.smallest.user)
    ensures Gapless(all + [h])
  {
    var g :| g in done && g.largest.user == h.smallest.user;
    assert g in all && Ordered(g);
    assert MeetsHull(h, all);
    GaplessGrows(all, [h]);
  }

  /**
   * The level-zero closure of a gapless set has no gap: were there one, the closed range could
   * stop short of it and would not be the least.
   */
  lemma ClosureIsGapless(files: seq<File>, fs: seq<File>, begin: UserKey, end: UserKey, lo: Bound, hi: Bound)
    requires Gapless(fs) && fs != [] && OrderedFiles(files) && OrderedFiles(fs)
    requires forall f :: f in fs ==> begin <= f.smallest.user && f.largest.user <= end
    requires exists f :: f in fs && f.smallest.user == begin
    requires exists f :: f in fs && f.largest.user == end
    requires lo.Some? && hi.Some? && Covers(lo, hi, Some(begin), Some(end))
    requires Closed(files, lo, hi) && Least(files, Some(begin), Some(end), lo, hi)
    ensures Gapless(fs + Select(files, lo, hi))
  {
    var all := fs + Select(files, lo, hi);
    forall p: UserKey, q: UserKey | p <= q && Avoids(all, p, q) ensures AllLeft(all, p) || AllRight(all, q) {
      assert forall f :: f in fs ==> f in all;
      assert Avoids(fs, p, q);
      var first :| first in fs && first.smallest.user == begin;
      var last :| last in fs && last.largest.user == end;
      if AllRight(fs, q) {
        ClosureStaysRight(files, begin, end, lo, hi, p, q);
      } else {
        ClosureStaysLeft(files, begin, end, lo, hi, p, q);
      }
    }
  }

  lemma ClosureStaysRight(files: seq<File>, begin: UserKey, end: UserKey, lo: Bound, hi: Bound, p: UserKey, q: UserKey)
    requires OrderedFiles(files) && lo.Some? && hi.Some? && Covers(lo, hi, Some(begin), Some(end))
    requires Closed(files, lo, hi) && Least(files, Some(begin), Some(end), lo, hi)
    requires p <= q < begin && forall f :: f in files && Meets(f, lo, hi) ==> f.largest.user < p || q < f.smallest.user
    ensures forall f :: f in files && Meets(f, lo, hi) ==> q < f.smallest.user
  {
    forall f | f in files && Meets(f, lo, hi) ensures q < f.smallest.user {
      if f.largest.user < p {
        assert Ordered(f);
        forall g | g in files && Meets(g, Some(q), hi) ensures q <= g.smallest.user && g.largest.user <= hi.value {
          assert Meets(g, lo, hi);
        }
        assert Closed(files, Some(q), hi);
      }
    }
  }

  lemma ClosureStaysLeft(files: seq<File>, begin: UserKey, end: UserKey, lo: Bound, hi: Bound, p: UserKey, q: UserKey)
    requires OrderedFiles(files) && lo.Some? && hi.Some? && Covers(lo, hi, Some(begin), Some(end))
    requires Closed(files, lo, hi) && Least(files, Some(begin), Some(end), lo, hi)
    requires end < p <= q && forall f :: f in files && Meets(f, lo, hi) ==> f.largest.user < p || q < f.smallest.user
    ensures forall f :: f in files && Meets(f, lo, hi) ==> f.largest.user < p
  {
    forall f | f in files && Meets(f, lo, hi) ensures f.largest.user < p {
      if q < f.smallest.user {
        assert Ordered(f);
        forall g | g in files && Meets(g, lo, Some(p)) ensures lo.value <= g.smallest.user && g.largest.user <= p {
          assert Meets(g, lo, hi);
        }
        assert Closed(files, lo, Some(p));
      }
    }
  }
}
