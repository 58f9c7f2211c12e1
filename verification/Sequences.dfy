/** Sequences without repetitions, and sequences put together from pieces. */
module Sequences {

  predicate NoRepeats<T(==)>(s: seq<T>) {
    forall i, j :: 0 <= i < j < |s| ==> s[i] != s[j]
  }

  lemma Associates<T>(a: seq<T>, b: seq<T>, c: seq<T>)
    ensures a + b + c == a + (b + c)
  {
  }

  lemma Embedded<T>(before: seq<T>, piece: seq<T>, both: seq<T>, all: seq<T>)
    requires both == before + piece && both <= all
    ensures |before| + |piece| <= |all|
    ensures forall p {:trigger piece[p]} :: 0 <= p < |piece| ==> all[|before| + p] == piece[p]
  {
    forall p {:trigger piece[p]} | 0 <= p < |piece| ensures all[|before| + p] == piece[p] {
      assert all[|before| + p] == both[|before| + p];
    }
  }

  function Flat<T>(pieces: seq<seq<T>>): seq<T> {
    if pieces == [] then [] else Flat(pieces[..|pieces| - 1]) + pieces[|pieces| - 1]
  }

  lemma FlatStep<T>(pieces: seq<seq<T>>, i: nat)
    requires i < |pieces|
    ensures Flat(pieces[..i + 1]) == Flat(pieces[..i]) + pieces[i]
  {
    assert pieces[..i + 1][..i] == pieces[..i];
  }

  lemma {:induction false} FlatPrefix<T>(pieces: seq<seq<T>>, i: nat)
    requires i <= |pieces|
    ensures Flat(pieces[..i]) <= Flat(pieces)
  {
    if i == |pieces| {
      assert pieces[..i] == pieces;
    } else {
      FlatPrefix(pieces[..|pieces| - 1], i);
      assert pieces[..|pieces| - 1][..i] == pieces[..i];
    }
  }

  lemma {:induction false} FlatConcat<T>(xs: seq<seq<T>>, ys: seq<seq<T>>)
    ensures Flat(xs + ys) == Flat(xs) + Flat(ys)
    decreases |ys|
  {
    if ys == [] {
      assert xs + ys == xs;
    } else {
      var init := ys[..|ys| - 1];
      FlatConcat(xs, init);
      assert (xs + ys)[..|xs + ys| - 1] == xs + init;
    }
  }

  lemma FlatHead<T>(pieces: seq<seq<T>>)
    requires pieces != []
    ensures Flat(pieces) == pieces[0] + Flat(pieces[1..])
  {
    FlatConcat([pieces[0]], pieces[1..]);
    assert [pieces[0]] + pieces[1..] == pieces && [pieces[0]][..0] == [];
  }

  lemma TakeNext<T>(s: seq<T>, i: nat)
    requires i < |s|
    ensures s[..i + 1] == s[..i] + [s[i]]
  {
  }

  lemma OneOrTwo<T>(s: seq<T>)
    requires s != []
    ensures |s| == 1 ==> s == [s[0]]
    ensures |s| == 2 ==> s == [s[0], s[1]]
  {
  }
}
