/** Shortened index keys: util/comparator.cc:29-64 and db/dbformat.cc:69-101. */
module Separators {
  import opened Keys
  import BlockFormat

  // ---------------------------------------------------------------------
  // Bytewise
  // ---------------------------------------------------------------------

  lemma {:induction false} LessAt(a: Bytes, b: Bytes, n: nat)
    requires n < |a| && n < |b| && a[..n] == b[..n] && a[n] < b[n]
    ensures BytesLess(a, b)
  {
    if n > 0 {
      assert a[0] == a[..n][0] == b[..n][0] == b[0];
      assert a[1..][..n - 1] == a[..n][1..] && b[1..][..n - 1] == b[..n][1..];
      LessAt(a[1..], b[1..], n - 1);
    }
  }

  /** The key cut after the byte at `n`, with that byte one higher. */
  function Cut(key: Bytes, n: nat): Bytes
    requires n < |key| && key[n] < 255
  {
    key[..n] + [key[n] + 1]
  }

  function Separator(start: Bytes, limit: Bytes): Bytes {
    var n := BlockFormat.Common(start, limit);
    if n < |start| && n < |limit| && start[n] < 255 && (start[n] + 1) < limit[n] then Cut(start, n) else start
  }

  method FindShortestSeparator(start: Bytes, limit: Bytes) returns (r: Bytes)
    ensures r == Separator(start, limit)
  {
    var minLength := if |start| < |limit| then |start| else |limit|;
    var diffIndex := BlockFormat.CommonLength(start, limit);
    r := start;
    if diffIndex < minLength {
      var diffByte := start[diffIndex];
      if diffByte < 255 && diffByte + 1 < limit[diffIndex] {
        r := start[diffIndex := diffByte + 1][..diffIndex + 1];
      }
    }
  }

  /** A separator that is not the start itself lies strictly between. */
  lemma SeparatorBetween(start: Bytes, limit: Bytes)
    ensures var r := Separator(start, limit); r == start || (BytesLess(start, r) && BytesLess(r, limit))
  {
    var r, n := Separator(start, limit), BlockFormat.Common(start, limit);
    if r != start {
      assert r[..n] == start[..n] == limit[..n];
      LessAt(start, r, n);
      LessAt(r, limit, n);
    }
  }

  function Successor(key: Bytes, i: nat): Bytes
    requires i <= |key|
    decreases |key| - i
  {
    if i == |key| then key else if key[i] < 255 then Cut(key, i) else Successor(key, i + 1)
  }

  method FindShortSuccessor(key: Bytes) returns (r: Bytes)
    ensures r == Successor(key, 0)
  {
    for i := 0 to |key|
      invariant Successor(key, 0) == Successor(key, i)
    {
      if key[i] != 255 {
        return key[i := key[i] + 1][..i + 1];
      }
    }
    return key;
  }

  lemma {:induction false} SuccessorAfter(key: Bytes, i: nat)
    requires i <= |key|
    ensures var r := Successor(key, i); r == key || BytesLess(key, r)
    decreases |key| - i
  {
    if i < |key| {
      if key[i] < 255 {
        assert Cut(key, i)[..i] == key[..i];
        LessAt(key, Cut(key, i), i);
      } else {
        SuccessorAfter(key, i + 1);
      }
    }
  }

  /** A proper prefix is smaller. */
  lemma {:induction false} PrefixIsLess(a: Bytes, b: Bytes)
    requires a <= b && |a| < |b|
    ensures BytesLess(a, b)
  {
    if a != [] {
      assert a[0] == b[0] && a[1..] <= b[1..];
      PrefixIsLess(a[1..], b[1..]);
    }
  }

  /** What lies between two keys begins with their common prefix. */
  lemma {:induction false} BetweenShares(start: Bytes, limit: Bytes, s: Bytes, n: nat)
    requires n <= |start| && n <= |limit| && start[..n] == limit[..n]
    requires !BytesLess(s, start) && BytesLess(s, limit)
    ensures n <= |s| && s[..n] == start[..n]
  {
    if n > 0 {
      assert start[0] == start[..n][0] == limit[..n][0] == limit[0];
      assert start[1..][..n - 1] == start[..n][1..] && limit[1..][..n - 1] == limit[..n][1..];
      BetweenShares(start[1..], limit[1..], s[1..], n - 1);
      assert s[..n] == [s[0]] + s[1..][..n - 1] && start[..n] == [start[0]] + start[1..][..n - 1];
    }
  }

  /** Whether a byte fits between the first bytes in which two keys differ. */
  predicate HasGap(start: Bytes, limit: Bytes) {
    var n := BlockFormat.Common(start, limit);
    n < |start| && n < |limit| && start[n] as int + 1 < limit[n] as int
  }

  /** Where a byte fits between, no key from the start up to the limit is shorter; otherwise the start stays. */
  lemma SeparatorIsShortest(start: Bytes, limit: Bytes)
    ensures var r := Separator(start, limit);
      if HasGap(start, limit)
      then r != start && forall s: Bytes :: !BytesLess(s, start) && BytesLess(s, limit) ==> |s| >= |r|
      else r == start
  {
    var r, n := Separator(start, limit), BlockFormat.Common(start, limit);
    if HasGap(start, limit) {
      assert r[n] != start[n];
      forall s: Bytes | !BytesLess(s, start) && BytesLess(s, limit) ensures |s| >= |r| {
        BetweenShares(start, limit, s, n);
        if |s| == n {
          assert s == start[..n];
          PrefixIsLess(s, start);
        }
      }
    }
  }

  predicate AllHigh(key: Bytes) {
    forall i :: 0 <= i < |key| ==> key[i] == 255
  }

  /** Of bytes that are not all 0xff it is the shortest key behind this one; of others it is the key. */
  lemma {:induction false} SuccessorIsShortest(key: Bytes, i: nat)
    requires i <= |key| && AllHigh(key[..i])
    ensures var r := Successor(key, i);
      if AllHigh(key) then r == key
      else BytesLess(key, r) && forall s: Bytes :: !BytesLess(s, key) ==> |s| >= |r|
    decreases |key| - i
  {
    if i == |key| {
      assert key[..i] == key;
    } else if key[i] < 255 {
      var r := Cut(key, i);
      assert r[..i] == key[..i];
      LessAt(key, r, i);
      forall s: Bytes | !BytesLess(s, key) ensures |s| >= |r| {
        if |s| <= i {
          HighIsLess(s, key);
        }
      }
    } else {
      SuccessorIsShortest(key, i + 1);
    }
  }

  /** A shorter key than the 0xff bytes in front is smaller. */
  lemma {:induction false} HighIsLess(s: Bytes, key: Bytes)
    requires |s| < |key| && AllHigh(key[..|s|])
    ensures BytesLess(s, key)
  {
    if s != [] {
      assert key[..|s|][0] == 255;
      assert key[1..][..|s| - 1] == key[..|s|][1..];
      if s[0] == 255 { HighIsLess(s[1..], key[1..]); }
    }
  }

  // ---------------------------------------------------------------------
  // Internal keys
  // ---------------------------------------------------------------------

  /** An internal key with the bytes of its user key. */
  datatype ByteKey = ByteKey(user: Bytes, seqno: nat, vtype: ValueType)

  function Image(k: ByteKey): InternalKey {
    InternalKey(Rank(k.user), k.seqno, k.vtype)
  }

  function Images(keys: seq<ByteKey>): (r: seq<InternalKey>)
    ensures |r| == |keys| && forall i {:trigger r[i]} :: 0 <= i < |r| ==> r[i] == Image(keys[i])
  {
    seq(|keys|, i requires 0 <= i < |keys| => Image(keys[i]))
  }

  /** The shortened user key with the earliest possible tag, if it is shorter and larger. */
  function Shortened(k: ByteKey, tmp: Bytes): ByteKey {
    if |tmp| < |k.user| && BytesLess(k.user, tmp) then ByteKey(tmp, kMaxSequenceNumber, TypeValue) else k
  }

  method FindInternalSeparator(start: ByteKey, limit: ByteKey) returns (r: ByteKey)
    ensures r == Shortened(start, Separator(start.user, limit.user))
  {
    var tmp := FindShortestSeparator(start.user, limit.user);
    r := if |tmp| < |start.user| && BytesLess(start.user, tmp) then ByteKey(tmp, kMaxSequenceNumber, TypeValue) else start;
  }

  method FindInternalSuccessor(key: ByteKey) returns (r: ByteKey)
    ensures r == Shortened(key, Successor(key.user, 0))
  {
    var tmp := FindShortSuccessor(key.user);
    r := if |tmp| < |key.user| && BytesLess(key.user, tmp) then ByteKey(tmp, kMaxSequenceNumber, TypeValue) else key;
  }

  /**
   * An index key is at or after the last key of its block and before the first of the next; and unless
   * it is that last key itself, its user key is smaller than that of the next block.
   */
  lemma InternalSeparatorBetween(start: ByteKey, limit: ByteKey)
    requires KeyLess(Image(start), Image(limit))
    ensures var r := Shortened(start, Separator(start.user, limit.user));
      && KeyAtMost(Image(start), Image(r)) && KeyLess(Image(r), Image(limit))
      && (r == start || Rank(r.user) < Rank(limit.user))
  {
    var tmp := Separator(start.user, limit.user);
    SeparatorBetween(start.user, limit.user);
    RankPreservesOrder(start.user, tmp);
    RankPreservesOrder(tmp, limit.user);
  }

  lemma InternalSuccessorAfter(key: ByteKey)
    ensures KeyAtMost(Image(key), Image(Shortened(key, Successor(key.user, 0))))
  {
    SuccessorAfter(key.user, 0);
    RankPreservesOrder(key.user, Successor(key.user, 0));
  }
}
