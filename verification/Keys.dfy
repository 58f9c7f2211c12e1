/** Keys and entries: util/comparator.cc, include/leveldb/slice.h and db/dbformat.{h,cc}. */
module Keys {

  newtype byte = x: int | 0 <= x < 256
  type Bytes = seq<byte>

  datatype Option<+T> = None | Some(value: T)

  // ---------------------------------------------------------------------
  // The bytewise comparator
  // ---------------------------------------------------------------------

  /** The order of Slice::compare: memcmp on the common length, then the shorter first. */
  predicate BytesLess(a: Bytes, b: Bytes) {
    if a == [] then b != []
    else if b == [] then false
    else if a[0] != b[0] then a[0] < b[0]
    else BytesLess(a[1..], b[1..])
  }

  /**
   * The engine touches user keys only through its comparator, so the rest of this project works
   * with the image of a key in a dense order, the reals. `Rank` is that image for the bytewise
   * comparator, and `RankPreservesOrder` shows that nothing is lost by the change.
   */
  type UserKey = real

  function Rank(a: Bytes): (r: UserKey)
    ensures 0.0 <= r < 1.0
    ensures a != [] ==> r > 0.0
  {
    if a == [] then 0.0 else (a[0] as real + 1.0 + Rank(a[1..])) / 257.0
  }

  lemma {:induction false} RankPreservesOrder(a: Bytes, b: Bytes)
    ensures BytesLess(a, b) <==> Rank(a) < Rank(b)
    ensures a == b <==> Rank(a) == Rank(b)
  {
    if a == [] || b == [] {
    } else if a[0] != b[0] {
    } else {
      RankPreservesOrder(a[1..], b[1..]);
      assert a == [a[0]] + a[1..] && b == [b[0]] + b[1..];
    }
  }

  // ---------------------------------------------------------------------
  // Internal keys
  // ---------------------------------------------------------------------

  const kNumLevels: nat := 7
  const kMaxSequenceNumber: nat := 0xff_ffff_ffff_ffff

  datatype ValueType = TypeDeletion | TypeValue

  function TypeCode(t: ValueType): nat {
    if t.TypeDeletion? then 0 else 1
  }

  datatype InternalKey = InternalKey(user: UserKey, seqno: nat, vtype: ValueType)

  /** PackSequenceAndType: the eight low bits hold the type. */
  function Tag(k: InternalKey): nat {
    k.seqno * 256 + TypeCode(k.vtype)
  }

  /** InternalKeyComparator::Compare < 0: increasing user key, then decreasing tag. */
  predicate KeyLess(a: InternalKey, b: InternalKey) {
    a.user < b.user || (a.user == b.user && Tag(a) > Tag(b))
  }

  predicate KeyAtMost(a: InternalKey, b: InternalKey) {
    !KeyLess(b, a)
  }

  /** LookupKey: the first internal key that a read of `k` at sequence `s` may return. */
  function SeekKey(k: UserKey, s: nat): InternalKey {
    InternalKey(k, s, TypeValue)
  }

  // ---------------------------------------------------------------------
  // Entries: an internal key together with its value
  // ---------------------------------------------------------------------

  datatype Op = Delete | Put(value: Bytes)

  datatype Entry = Entry(key: UserKey, seqno: nat, op: Op)

  function IKey(e: Entry): InternalKey {
    InternalKey(e.key, e.seqno, if e.op.Delete? then TypeDeletion else TypeValue)
  }

  predicate EntryLess(a: Entry, b: Entry) {
    KeyLess(IKey(a), IKey(b))
  }

  predicate SortedEntries(es: seq<Entry>) {
    forall i, j :: 0 <= i < j < |es| ==> EntryLess(es[i], es[j])
  }

  /** A read of `k` at sequence `s` may see `e`. */
  predicate Visible(e: Entry, k: UserKey, s: nat) {
    e.key == k && e.seqno <= s
  }

  /** The entries a read may see are exactly those of the user key at or after the seek key. */
  lemma VisibleIsAtOrAfterSeek(e: Entry, k: UserKey, s: nat)
    ensures Visible(e, k, s) <==> e.key == k && KeyAtMost(SeekKey(k, s), IKey(e))
  {
  }
}
