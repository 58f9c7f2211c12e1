/** Decoding what was encoded gives the message back. */
module ProtoRoundTrip {
  import opened Keys
  import opened Sequences
  import opened Coding
  import opened ProtoScalars
  import opened ProtoMessages
  import opened ProtoDecoder
  import opened ProtoWire
  import opened Varint

  // ---------------------------------------------------------------------
  // Descriptors and messages
  // ---------------------------------------------------------------------

  /** Tags that fit 29 bits, each used once. */
  predicate Legal(fields: seq<Field>)
    decreases fields, 0
  {
    && (forall i :: 0 <= i < |fields| ==> LegalField(fields[i]))
    && (forall i, j :: 0 <= i < j < |fields| ==> fields[i].tag != fields[j].tag)
  }

  predicate LegalField(f: Field)
    decreases f, 0
  {
    0 < f.tag < 0x2000_0000 && LegalKind(f.kind)
  }

  predicate LegalKind(k: Kind)
    decreases k, 0
  {
    k.Message? ==> Legal(k.fields)
  }

  /** Every string that is encoded ends within its array. */
  predicate Terminated(k: Kind, v: Value)
    requires ValueOk(k, v)
    decreases v, 0
  {
    match k
    case StringOf(size) => |v.b| < size
    case Message(fields) => TerminatedSlots(fields, v.slots)
    case _ => true
  }

  predicate TerminatedSlots(fields: seq<Field>, slots: seq<Slot>)
    requires SlotsOk(fields, slots)
    decreases slots, 0
  {
    forall i :: 0 <= i < |slots| ==> TerminatedSlot(fields[i], slots[i])
  }

  predicate TerminatedSlot(f: Field, s: Slot)
    requires SlotOk(f, s)
    decreases s, 0
  {
    match s
    case One(v) => Terminated(f.kind, v)
    case Opt(has, v) => has ==> Terminated(f.kind, v)
    case Rep(vs) => forall i :: 0 <= i < |vs| ==> Terminated(f.kind, vs[i])
  }

  /** The same message, with the default in place of what an absent optional field holds. */
  function NormValue(k: Kind, v: Value): (r: Value)
    requires ValueOk(k, v)
    ensures ValueOk(k, r)
    decreases v, 0
  {
    match k
    case Message(fields) => Sub(Norm(fields, v.slots))
    case _ => v
  }

  function NormSlot(f: Field, s: Slot): (r: Slot)
    requires SlotOk(f, s)
    ensures SlotOk(f, r)
    decreases s, 0
  {
    match s
    case One(v) => One(NormValue(f.kind, v))
    case Opt(has, v) => if has then Opt(true, NormValue(f.kind, v)) else Opt(false, DefaultValue(f.kind))
    case Rep(vs) => Rep(NormEach(f.kind, vs))
  }

  function NormEach(k: Kind, vs: seq<Value>): (r: seq<Value>)
    requires forall i :: 0 <= i < |vs| ==> ValueOk(k, vs[i])
    ensures |r| == |vs| && forall i {:trigger r[i]} :: 0 <= i < |vs| ==> ValueOk(k, r[i]) && r[i] == NormValue(k, vs[i])
    decreases vs, 0
  {
    seq(|vs|, i requires 0 <= i < |vs| => NormValue(k, vs[i]))
  }

  function Norm(fields: seq<Field>, slots: seq<Slot>): (r: seq<Slot>)
    requires SlotsOk(fields, slots)
    ensures SlotsOk(fields, r)
    ensures forall i {:trigger r[i]} :: 0 <= i < |r| ==> r[i] == NormSlot(fields[i], slots[i])
    decreases slots, 0
  {
    seq(|slots|, i requires 0 <= i < |slots| => NormSlot(fields[i], slots[i]))
  }

  // ---------------------------------------------------------------------
  // Pieces
  // ---------------------------------------------------------------------

  /** A length-prefixed string is found, and ends its substream. */
  lemma PrefixedReads(b: Bytes, p: nat, s: Bytes) returns (q: nat, end: nat)
    requires |s| < TWO_32 && HasAt(b, p, Prefixed(s))
    ensures GetLength(b, p) == Some((|s|, q)) && end == q + |s| == p + |Prefixed(s)| <= |b|
    ensures b[q..end] == s && HasAt(b[..end], q, s)
  {
    q := HasParts(b, p, Encode(|s|), s);
    end := q + |s|;
    Reads32(b, p, |s|);
    HasSlice(b, q, s);
    assert forall k {:trigger s[k]} :: 0 <= k < |s| ==> b[..end][q + k] == s[k];
  }

  lemma TagReads(b: Bytes, p: nat, tag: nat, wireType: nat, body: Bytes) returns (q: nat)
    requires tag < 0x2000_0000 && wireType < 8 && HasAt(b, p, FieldTag(tag, wireType) + body)
    ensures DecodeVarint32(b, p) == Some((8 * tag + wireType, q)) && q == p + |FieldTag(tag, wireType)| && HasAt(b, q, body)
  {
    q := HasParts(b, p, FieldTag(tag, wireType), body);
    Reads32(b, p, 8 * tag + wireType);
  }

  lemma FindsField(fields: seq<Field>, i: nat)
    requires Legal(fields) && i < |fields|
    ensures FindField(fields, fields[i].tag, 0) == i
  {
  }

  /** One occurrence of field `i` on the wire. */
  lemma OneOccurrence(fields: seq<Field>, i: nat, st: seq<Slot>, seen: set<nat>, b: Bytes, p: nat, wireType: nat, q: nat, s: Slot, next: nat)
    requires Legal(fields) && SlotsOk(fields, st) && i < |fields| && wireType < 8
    requires DecodeVarint32(b, p) == Some((8 * fields[i].tag + wireType, q))
    requires DecField(fields[i], st[i], wireType, b, q) == Some((s, next))
    ensures SlotsOk(fields, st[i := s])
    ensures DecLoop(fields, st, seen, b, p) ==
            DecLoop(fields, st[i := s], if Enforced(fields, i) then seen + {i} else seen, b, next)
  {
    FindsField(fields, i);
    assert (8 * fields[i].tag + wireType) / 8 == fields[i].tag && (8 * fields[i].tag + wireType) % 8 == wireType;
  }

  // ---------------------------------------------------------------------
  // Packed arrays
  // ---------------------------------------------------------------------

  lemma {:induction false} ItemsRead(s: Scalar, max: nat, vs: seq<Value>, i: nat, items: Bytes, b: Bytes, p: nat)
    requires AllNumbers(s, vs) && i <= |vs| <= max && items == Flat(Each(ItemCode(s), vs[i..]))
    requires |b| == p + |items| && HasAt(b, p, items)
    ensures DecPacked(s, max, vs[..i], b, p) == Some(vs)
    decreases |vs| - i
  {
    if i == |vs| {
      assert vs[..i] == vs && vs[i..] == [];
    } else {
      var q, rest := FirstItem(s, vs, i, items, b, p);
      OneItem(s, max, vs, i, b, p, q);
      ItemsRead(s, max, vs, i + 1, rest, b, q);
    }
  }

  lemma FirstItem(s: Scalar, vs: seq<Value>, i: nat, items: Bytes, b: Bytes, p: nat) returns (q: nat, rest: Bytes)
    requires AllNumbers(s, vs) && i < |vs| && items == Flat(Each(ItemCode(s), vs[i..]))
    requires |b| == p + |items| && HasAt(b, p, items)
    ensures DecodeScalar(s, b, p) == Some((vs[i].n, q))
    ensures rest == Flat(Each(ItemCode(s), vs[i + 1..])) && |b| == q + |rest| && HasAt(b, q, rest)
  {
    assert vs[i..][1..] == vs[i + 1..] && vs[i..][0] == vs[i];
    q, rest := FirstAndRest(ItemCode(s), b, p, vs[i..], items);
    ItemReads(s, vs[i], b, p, q);
  }

  lemma ItemReads(s: Scalar, v: Value, b: Bytes, p: nat, q: nat)
    requires v.Num? && InRange(s, v.n) && HasAt(b, p, ItemCode(s)(v)) && q == p + |ItemCode(s)(v)|
    ensures DecodeScalar(s, b, p) == Some((v.n, q))
  {
    assert ItemCode(s)(v) == EncodeScalar(s, v.n);
    ScalarReads(s, v.n, b, p);
  }

  lemma OneItem(s: Scalar, max: nat, vs: seq<Value>, i: nat, b: Bytes, p: nat, q: nat)
    requires AllNumbers(s, vs) && i < |vs| <= max && DecodeScalar(s, b, p) == Some((vs[i].n, q))
    ensures DecPacked(s, max, vs[..i], b, p) == DecPacked(s, max, vs[..i + 1], b, q)
  {
    assert vs[..i + 1] == vs[..i] + [Num(vs[i].n)];
  }

  // ---------------------------------------------------------------------
  // Values, fields and messages
  // ---------------------------------------------------------------------

  lemma {:induction false} NumberReads(k: Kind, v: Value, b: Bytes, p: nat, e: Bytes)
    requires k.Number? && ValueOk(k, v) && EncValue(k, v) == Some(e) && HasAt(b, p, e)
    ensures DecValue(k, DefaultValue(k), b, p) == Some((NormValue(k, v), p + |e|))
  {
    ScalarStands(k.scalar, v.n, b, p, e);
    NumberDecodes(k, v, b, p, p + |e|);
  }

  lemma {:induction false} ScalarStands(s: Scalar, n: int, b: Bytes, p: nat, e: Bytes)
    requires InRange(s, n) && e == EncodeScalar(s, n) && HasAt(b, p, e)
    ensures DecodeScalar(s, b, p) == Some((n, p + |e|))
  {
    ScalarReads(s, n, b, p);
  }

  lemma {:induction false} NumberDecodes(k: Kind, v: Value, b: Bytes, p: nat, q: nat)
    requires k.Number? && ValueOk(k, v) && DecodeScalar(k.scalar, b, p) == Some((v.n, q))
    ensures DecValue(k, DefaultValue(k), b, p) == Some((NormValue(k, v), q))
  {
  }

  lemma {:induction false} BlobReads(k: Kind, v: Value, b: Bytes, p: nat, e: Bytes)
    requires (k.BytesOf? || k.StringOf?) && ValueOk(k, v) && Terminated(k, v)
    requires EncValue(k, v) == Some(e) && |e| < TWO_32 && HasAt(b, p, e)
    ensures DecValue(k, DefaultValue(k), b, p) == Some((NormValue(k, v), p + |e|))
  {
    var q, end := PrefixedReads(b, p, v.b);
  }

  /** A value is read back into a slot that holds the default. */
  lemma {:induction false} ValueReads(k: Kind, v: Value, b: Bytes, p: nat, e: Bytes)
    requires LegalKind(k) && ValueOk(k, v) && Terminated(k, v)
    requires EncValue(k, v) == Some(e) && |e| < TWO_32 && HasAt(b, p, e)
    ensures DecValue(k, DefaultValue(k), b, p) == Some((NormValue(k, v), p + |e|))
    decreases v, 0
  {
    match k
    case Number(s) =>
      NumberReads(k, v, b, p, e);
    case BytesOf(size) =>
      BlobReads(k, v, b, p, e);
    case StringOf(size) =>
      BlobReads(k, v, b, p, e);
    case Message(fields) =>
      var inner := EncFrom(fields, v.slots, 0).value;
      var q, end := PrefixedReads(b, p, inner);
      MessageReads(fields, v.slots, b[..end], q, inner);
      SubmessageReads(fields, v, b, p, q, |inner|, end);
  }

  lemma {:induction false} SubmessageReads(fields: seq<Field>, v: Value, b: Bytes, p: nat, q: nat, n: nat, end: nat)
    requires ValueOk(Message(fields), v) && GetLength(b, p) == Some((n, q)) && end == q + n <= |b|
    requires DecLoop(fields, Defaults(fields), {}, b[..end], q) == Some((Norm(fields, v.slots), end))
    ensures DecValue(Message(fields), DefaultValue(Message(fields)), b, p) == Some((NormValue(Message(fields), v), end))
  {
  }

  /** Where two tables use the same tag they mean the same field. */
  predicate Agree(sent: seq<Field>, known: seq<Field>) {
    forall i, j :: 0 <= i < |sent| && 0 <= j < |known| && sent[i].tag == known[j].tag ==> sent[i] == known[j]
  }

  /** The encoded strings that the receiver knows end within their arrays. */
  predicate Readable(sent: seq<Field>, slots: seq<Slot>, known: seq<Field>)
    requires SlotsOk(sent, slots)
  {
    forall i :: 0 <= i < |slots| && FindField(known, sent[i].tag, 0) < |known| ==> TerminatedSlot(sent[i], slots[i])
  }

  /** The receiver's slot for `f` after the sender's first `n` fields. */
  function SlotOf(sent: seq<Field>, slots: seq<Slot>, n: nat, f: Field): (s: Slot)
    requires SlotsOk(sent, slots) && n <= |sent|
  {
    var i := FindField(sent, f.tag, 0);
    if i < n then
      assert SlotOk(sent[i], slots[i]);
      NormSlot(sent[i], slots[i])
    else DefaultSlot(f)
  }

  /** All of the receiver's slots. */
  function Received(sent: seq<Field>, slots: seq<Slot>, known: seq<Field>, n: nat): (r: seq<Slot>)
    requires SlotsOk(sent, slots) && Agree(sent, known) && n <= |sent|
    ensures SlotsOk(known, r)
    ensures forall j {:trigger r[j]} :: 0 <= j < |r| ==> r[j] == SlotOf(sent, slots, n, known[j])
  {
    seq(|known|, j requires 0 <= j < |known| => SlotOf(sent, slots, n, known[j]))
  }

  /** The enforced fields among them. */
  function SeenOf(sent: seq<Field>, known: seq<Field>, n: nat): set<nat> {
    set j: nat | j < |known| && Enforced(known, j) && FindField(sent, known[j].tag, 0) < n
  }

  /** The sender has every field that the receiver insists on. */
  predicate Suffices(sent: seq<Field>, known: seq<Field>) {
    forall j :: 0 <= j < |known| && Enforced(known, j) ==> exists i :: 0 <= i < |sent| && sent[i].tag == known[j].tag
  }

  predicate Compatible(sent: seq<Field>, slots: seq<Slot>, known: seq<Field>) {
    Legal(sent) && Legal(known) && Agree(sent, known) && SlotsOk(sent, slots) && Readable(sent, slots, known)
  }

  function Outcome(sent: seq<Field>, slots: seq<Slot>, known: seq<Field>, end: nat): Option<(seq<Slot>, nat)>
    requires Compatible(sent, slots, known)
  {
    if Suffices(sent, known) then Some((Received(sent, slots, known, |sent|), end)) else None
  }

  lemma SufficesSeen(sent: seq<Field>, known: seq<Field>)
    ensures AllSeen(known, SeenOf(sent, known, |sent|)) <==> Suffices(sent, known)
  {
    if Suffices(sent, known) {
      forall j | 0 <= j < |known| && Enforced(known, j) ensures j in SeenOf(sent, known, |sent|) {
        var i :| 0 <= i < |sent| && sent[i].tag == known[j].tag;
      }
    } else {
      var j :| 0 <= j < |known| && Enforced(known, j) && forall i :: 0 <= i < |sent| ==> sent[i].tag != known[j].tag;
      assert j !in SeenOf(sent, known, |sent|);
    }
  }

  lemma {:induction false} MessageReads(fields: seq<Field>, slots: seq<Slot>, b: Bytes, p: nat, e: Bytes)
    requires Legal(fields) && SlotsOk(fields, slots) && TerminatedSlots(fields, slots)
    requires EncFrom(fields, slots, 0) == Some(e) && |e| < TWO_32 && HasAt(b, p, e) && |b| == p + |e|
    ensures DecLoop(fields, Defaults(fields), {}, b, p) == Some((Norm(fields, slots), |b|))
    decreases slots, 4
  {
    SelfCompatible(fields, slots);
    FieldsRead(fields, slots, fields, b, p, e);
  }

  /** Between equal tables everything arrives. */
  lemma SelfCompatible(fields: seq<Field>, slots: seq<Slot>)
    requires Legal(fields) && SlotsOk(fields, slots) && TerminatedSlots(fields, slots)
    ensures Compatible(fields, slots, fields)
    ensures forall end: nat :: Outcome(fields, slots, fields, end) == Some((Norm(fields, slots), end))
  {
    SameTags(fields);
    AllReceived(fields, slots);
  }

  lemma SameTags(fields: seq<Field>)
    requires Legal(fields)
    ensures Agree(fields, fields) && Suffices(fields, fields)
  {
  }

  lemma NothingReceived(sent: seq<Field>, slots: seq<Slot>, known: seq<Field>)
    requires SlotsOk(sent, slots) && Agree(sent, known)
    ensures Received(sent, slots, known, 0) == Defaults(known) && SeenOf(sent, known, 0) == {}
  {
  }

  lemma AllReceived(fields: seq<Field>, slots: seq<Slot>)
    requires Legal(fields) && SlotsOk(fields, slots)
    ensures Agree(fields, fields) && Received(fields, slots, fields, |fields|) == Norm(fields, slots)
  {
    SameTags(fields);
    forall j | 0 <= j < |fields| ensures Received(fields, slots, fields, |fields|)[j] == Norm(fields, slots)[j] {
      FindsField(fields, j);
    }
  }

  /** The sender's fields from `i` on stand at the end of `b`. */
  ghost predicate EndsWith(sent: seq<Field>, slots: seq<Slot>, i: nat, b: Bytes)
    requires SlotsOk(sent, slots) && i <= |slots|
  {
    var e := EncFrom(sent, slots, i);
    e.Some? && |e.value| < TWO_32 && |e.value| <= |b| && HasAt(b, |b| - |e.value|, e.value)
  }

  /** A decoder, from slots, fields seen and a position on. */
  type Reader = (seq<Slot>, set<nat>, nat) -> Option<(seq<Slot>, nat)>

  function Decoder(known: seq<Field>, b: Bytes): Reader {
    (st: seq<Slot>, seen: set<nat>, p: nat) => if SlotsOk(known, st) then DecLoop(known, st, seen, b, p) else None
  }

  lemma DecoderReads(known: seq<Field>, st: seq<Slot>, seen: set<nat>, b: Bytes, p: nat)
    requires SlotsOk(known, st)
    ensures Decoder(known, b)(st, seen, p) == DecLoop(known, st, seen, b, p)
  {
  }

  /** What the reader makes of the sender's fields from `i` on. */
  ghost function ReadFrom(sent: seq<Field>, slots: seq<Slot>, known: seq<Field>, b: Bytes, d: Reader, i: nat): Option<(seq<Slot>, nat)> {
    if Compatible(sent, slots, known) && i <= |slots| && EndsWith(sent, slots, i, b) then
      d(Received(sent, slots, known, i), SeenOf(sent, known, i), |b| - |EncFrom(sent, slots, i).value|)
    else None
  }

  lemma ReadFromAt(sent: seq<Field>, slots: seq<Slot>, known: seq<Field>, i: nat, b: Bytes, d: Reader, p: nat, e: Bytes)
    requires Compatible(sent, slots, known) && i <= |slots| && EndsWith(sent, slots, i, b)
    requires EncFrom(sent, slots, i) == Some(e) && |b| == p + |e|
    ensures ReadFrom(sent, slots, known, b, d, i) == d(Received(sent, slots, known, i), SeenOf(sent, known, i), p)
  {
  }

  /** The receiver reads the sender's fields: those it knows into their slots, and over the others. */
  lemma {:induction false} FieldsRead(sent: seq<Field>, slots: seq<Slot>, known: seq<Field>, b: Bytes, p: nat, e: Bytes)
    requires Compatible(sent, slots, known) && EncFrom(sent, slots, 0) == Some(e) && |e| < TWO_32 && HasAt(b, p, e) && |b| == p + |e|
    ensures DecLoop(known, Defaults(known), {}, b, p) == Outcome(sent, slots, known, |b|)
    decreases slots, 3
  {
    var d := Decoder(known, b);
    forall i: nat | i < |slots| ensures ReadFrom(sent, slots, known, b, d, i) == ReadFrom(sent, slots, known, b, d, i + 1) {
      AllStand(sent, slots, i, b);
      FirstFieldRead(sent, slots, known, i, b);
    }
    Constant(i => ReadFrom(sent, slots, known, b, d, i), |slots|);
    AllStand(sent, slots, |slots|, b);
    NothingReceived(sent, slots, known);
    ReadFromAt(sent, slots, known, 0, b, d, p, e);
    ReadFromAt(sent, slots, known, |slots|, b, d, |b|, []);
    DecoderReads(known, Defaults(known), {}, b, p);
    DecoderEnds(sent, slots, known, b);
  }

  lemma DecoderEnds(sent: seq<Field>, slots: seq<Slot>, known: seq<Field>, b: Bytes)
    requires Compatible(sent, slots, known)
    ensures Decoder(known, b)(Received(sent, slots, known, |sent|), SeenOf(sent, known, |sent|), |b|) == Outcome(sent, slots, known, |b|)
  {
    SufficesSeen(sent, known);
  }

  lemma {:induction false} Constant<R>(f: nat -> R, n: nat)
    requires forall i: nat :: i < n ==> f(i) == f(i + 1)
    ensures f(0) == f(n)
  {
    if n > 0 {
      Constant(f, n - 1);
    }
  }

  lemma {:induction false} AllStand(sent: seq<Field>, slots: seq<Slot>, i: nat, b: Bytes)
    requires SlotsOk(sent, slots) && i <= |slots| && EndsWith(sent, slots, 0, b)
    ensures EndsWith(sent, slots, i, b)
  {
    if i > 0 {
      AllStand(sent, slots, i - 1, b);
      var _, _, _, _, _ := FirstStands(sent, slots, i - 1, b);
    }
  }

  lemma {:induction false} FirstStands(sent: seq<Field>, slots: seq<Slot>, i: nat, b: Bytes)
      returns (p: nat, e: Bytes, x: Bytes, q: nat, rest: Bytes)
    requires SlotsOk(sent, slots) && i < |slots| && EndsWith(sent, slots, i, b)
    ensures EncFrom(sent, slots, i) == Some(e) && |b| == p + |e|
    ensures SlotOk(sent[i], slots[i]) && EncSlot(sent[i], slots[i]) == Some(x) && |x| < TWO_32 && HasAt(b, p, x) && q == p + |x|
    ensures EncFrom(sent, slots, i + 1) == Some(rest) && |b| == q + |rest| && EndsWith(sent, slots, i + 1, b)
  {
    e := EncFrom(sent, slots, i).value;
    p := |b| - |e|;
    x, rest, q := EncodingSplits(sent, slots, i, b, p, e);
  }

  lemma {:induction false} FirstFieldRead(sent: seq<Field>, slots: seq<Slot>, known: seq<Field>, i: nat, b: Bytes)
    requires Compatible(sent, slots, known) && i < |slots| && EndsWith(sent, slots, i, b)
    ensures var d := Decoder(known, b); ReadFrom(sent, slots, known, b, d, i) == ReadFrom(sent, slots, known, b, d, i + 1)
    decreases slots, 2
  {
    var p, e, x, q, rest := FirstStands(sent, slots, i, b);
    DecodersAgree(sent, slots, known, i, b, p, x, q);
    ReadFromAt(sent, slots, known, i, b, Decoder(known, b), p, e);
    ReadFromAt(sent, slots, known, i + 1, b, Decoder(known, b), q, rest);
  }

  lemma {:induction false} DecodersAgree(sent: seq<Field>, slots: seq<Slot>, known: seq<Field>, i: nat, b: Bytes, p: nat, x: Bytes, q: nat)
    requires Compatible(sent, slots, known) && i < |slots| && SlotOk(sent[i], slots[i])
    requires EncSlot(sent[i], slots[i]) == Some(x) && |x| < TWO_32 && HasAt(b, p, x) && q == p + |x|
    ensures Decoder(known, b)(Received(sent, slots, known, i), SeenOf(sent, known, i), p) ==
            Decoder(known, b)(Received(sent, slots, known, i + 1), SeenOf(sent, known, i + 1), q)
    decreases slots, 1
  {
    FieldRead(sent, slots, known, i, Received(sent, slots, known, i), SeenOf(sent, known, i), b, p, x, q);
    DecoderReads(known, Received(sent, slots, known, i), SeenOf(sent, known, i), b, p);
    DecoderReads(known, Received(sent, slots, known, i + 1), SeenOf(sent, known, i + 1), b, q);
  }

  lemma {:induction false} FieldRead(
      sent: seq<Field>, slots: seq<Slot>, known: seq<Field>, i: nat, st: seq<Slot>, seen: set<nat>, b: Bytes, p: nat, x: Bytes, q: nat)
    requires Legal(sent) && Legal(known) && Agree(sent, known)
    requires SlotsOk(sent, slots) && Readable(sent, slots, known) && i < |slots|
    requires st == Received(sent, slots, known, i) && seen == SeenOf(sent, known, i) && SlotOk(sent[i], slots[i])
    requires EncSlot(sent[i], slots[i]) == Some(x) && |x| < TWO_32 && HasAt(b, p, x) && q == p + |x|
    ensures DecLoop(known, st, seen, b, p) == DecLoop(known, Received(sent, slots, known, i + 1), SeenOf(sent, known, i + 1), b, q)
    decreases slots, 0
  {
    var j := FindField(known, sent[i].tag, 0);
    if j < |known| {
      NextKnown(sent, slots, known, i, j);
      SlotReads(known, j, st, seen, slots[i], b, p, x, q);
    } else {
      NextUnknown(sent, slots, known, i);
      SlotIsSkipped(known, st, seen, sent[i], slots[i], b, p, x, q);
    }
  }

  lemma EncodingSplits(fields: seq<Field>, slots: seq<Slot>, i: nat, b: Bytes, p: nat, e: Bytes) returns (x: Bytes, rest: Bytes, q: nat)
    requires SlotsOk(fields, slots) && i < |slots|
    requires EncFrom(fields, slots, i) == Some(e) && |e| < TWO_32 && HasAt(b, p, e) && |b| == p + |e|
    ensures SlotOk(fields[i], slots[i])
    ensures EncSlot(fields[i], slots[i]) == Some(x) && |x| < TWO_32 && HasAt(b, p, x) && q == p + |x|
    ensures EncFrom(fields, slots, i + 1) == Some(rest) && |rest| < TWO_32 && HasAt(b, q, rest) && |b| == q + |rest|
  {
    x, rest := EncSlot(fields[i], slots[i]).value, EncFrom(fields, slots, i + 1).value;
    q := HasParts(b, p, x, rest);
  }

  lemma NextKnown(sent: seq<Field>, slots: seq<Slot>, known: seq<Field>, i: nat, j: nat)
    requires Legal(sent) && Legal(known) && Agree(sent, known) && SlotsOk(sent, slots) && i < |sent|
    requires j == FindField(known, sent[i].tag, 0) < |known|
    ensures known[j] == sent[i] && SlotOk(sent[i], slots[i])
    ensures Received(sent, slots, known, i)[j] == DefaultSlot(known[j])
    ensures Received(sent, slots, known, i + 1) == Received(sent, slots, known, i)[j := NormSlot(sent[i], slots[i])]
    ensures SeenOf(sent, known, i + 1) == SeenOf(sent, known, i) + if Enforced(known, j) then {j} else {}
  {
    FindsField(sent, i);
    var next := Received(sent, slots, known, i + 1);
    forall n | 0 <= n < |known| && n != j ensures next[n] == Received(sent, slots, known, i)[n] {
      OtherTag(sent, known, i, j, n);
    }
    forall n: nat | n < |known| && n != j ensures n in SeenOf(sent, known, i + 1) <==> n in SeenOf(sent, known, i) {
      OtherTag(sent, known, i, j, n);
    }
  }

  /** Another field of the receiver is not the sender's field `i`. */
  lemma OtherTag(sent: seq<Field>, known: seq<Field>, i: nat, j: nat, n: nat)
    requires Legal(known) && i < |sent| && j < |known| && n < |known| && n != j && known[j].tag == sent[i].tag
    ensures FindField(sent, known[n].tag, 0) != i
  {
  }

  lemma NextUnknown(sent: seq<Field>, slots: seq<Slot>, known: seq<Field>, i: nat)
    requires Agree(sent, known) && SlotsOk(sent, slots) && i < |sent|
    requires FindField(known, sent[i].tag, 0) == |known|
    ensures SlotOk(sent[i], slots[i])
    ensures Received(sent, slots, known, i + 1) == Received(sent, slots, known, i)
    ensures SeenOf(sent, known, i + 1) == SeenOf(sent, known, i)
  {
    assert forall n :: 0 <= n < |known| ==> FindField(sent, known[n].tag, 0) != i;
  }

  /** All that the encoder wrote for a field brings its slot from the default to what was encoded. */
  lemma {:induction false} SlotReads(
      fields: seq<Field>, i: nat, st: seq<Slot>, seen: set<nat>, s: Slot, b: Bytes, p: nat, x: Bytes, q: nat)
    requires Legal(fields) && SlotsOk(fields, st) && i < |fields| && st[i] == DefaultSlot(fields[i])
    requires SlotOk(fields[i], s) && TerminatedSlot(fields[i], s)
    requires EncSlot(fields[i], s) == Some(x) && |x| < TWO_32 && HasAt(b, p, x) && q == p + |x|
    ensures SlotsOk(fields, st[i := NormSlot(fields[i], s)])
    ensures DecLoop(fields, st, seen, b, p) ==
            DecLoop(fields, st[i := NormSlot(fields[i], s)], seen + if Enforced(fields, i) then {i} else {}, b, q)
    decreases s, 1
  {
    var f := fields[i];
    assert LegalField(f);
    assert !Enforced(fields, i) ==> seen + {} == seen;
    match s
    case One(v) =>
      TaggedReads(fields, i, st, seen, v, b, p, x, q);
    case Opt(has, v) =>
      if has {
        TaggedReads(fields, i, st, seen, v, b, p, x, q);
      } else {
        assert st[i := NormSlot(f, s)] == st;
      }
    case Rep(vs) =>
      if vs == [] {
        assert st[i := NormSlot(f, s)] == st;
      } else if f.kind.Number? {
        PackedReads(fields, i, st, seen, vs, b, p, x, q);
      } else {
        assert st[i := Rep([])] == st && NormEach(f.kind, vs)[..0] == [];
        EachReads(fields, i, st, seen, vs, 0, b, p, x, q);
        assert NormEach(f.kind, vs)[..|vs|] == NormEach(f.kind, vs);
      }
  }

  /** A required field, or an optional one that is there. */
  lemma {:induction false} TaggedReads(
      fields: seq<Field>, i: nat, st: seq<Slot>, seen: set<nat>, v: Value, b: Bytes, p: nat, x: Bytes, q: nat)
    requires Legal(fields) && SlotsOk(fields, st) && i < |fields| && st[i] == DefaultSlot(fields[i]) && !fields[i].rule.Repeated?
    requires ValueOk(fields[i].kind, v) && Terminated(fields[i].kind, v) && LegalField(fields[i])
    requires EncTagged(fields[i], v) == Some(x) && |x| < TWO_32 && HasAt(b, p, x) && q == p + |x|
    ensures var s := if fields[i].rule.Required? then One(NormValue(fields[i].kind, v)) else Opt(true, NormValue(fields[i].kind, v));
      && SlotsOk(fields, st[i := s])
      && DecLoop(fields, st, seen, b, p) == DecLoop(fields, st[i := s], seen + if Enforced(fields, i) then {i} else {}, b, q)
    decreases v, 2
  {
    var f := fields[i];
    var r := TaggedValue(f, v, b, p, x);
    var s := if f.rule.Required? then One(NormValue(f.kind, v)) else Opt(true, NormValue(f.kind, v));
    SingleField(f, st[i], NormValue(f.kind, v), b, r, q);
    OneOccurrence(fields, i, st, seen, b, p, WireType(f.kind), r, s, q);
    assert seen + {} == seen;
  }

  /** A tag and the value behind it. */
  lemma {:induction false} TaggedValue(f: Field, v: Value, b: Bytes, p: nat, x: Bytes) returns (r: nat)
    requires LegalField(f) && ValueOk(f.kind, v) && Terminated(f.kind, v)
    requires EncTagged(f, v) == Some(x) && |x| < TWO_32 && HasAt(b, p, x)
    ensures DecodeVarint32(b, p) == Some((8 * f.tag + WireType(f.kind), r))
    ensures DecValue(f.kind, DefaultValue(f.kind), b, r) == Some((NormValue(f.kind, v), p + |x|))
    decreases v, 1
  {
    var body;
    body, r := TagAndBody(f, v, b, p, x);
    ValueReads(f.kind, v, b, r, body);
  }

  lemma {:induction false} TagAndBody(f: Field, v: Value, b: Bytes, p: nat, x: Bytes) returns (body: Bytes, r: nat)
    requires 0 < f.tag < 0x2000_0000 && ValueOk(f.kind, v)
    requires EncTagged(f, v) == Some(x) && |x| < TWO_32 && HasAt(b, p, x)
    ensures WireType(f.kind) < 8 && DecodeVarint32(b, p) == Some((8 * f.tag + WireType(f.kind), r))
    ensures EncValue(f.kind, v) == Some(body) && |body| < TWO_32 && HasAt(b, r, body) && r + |body| == p + |x|
  {
    body := EncValue(f.kind, v).value;
    r := TagReads(b, p, f.tag, WireType(f.kind), body);
  }

  lemma SingleField(f: Field, old_: Slot, v: Value, b: Bytes, r: nat, q: nat)
    requires !f.rule.Repeated? && old_ == DefaultSlot(f)
    requires DecValue(f.kind, DefaultValue(f.kind), b, r) == Some((v, q))
    ensures DecField(f, old_, WireType(f.kind), b, r) == Some((if f.rule.Required? then One(v) else Opt(true, v), q))
  {
  }

  lemma NextEntry(f: Field, done: seq<Value>, v: Value, b: Bytes, r: nat, q: nat)
    requires f.rule.Repeated? && !f.kind.Number? && SlotOk(f, Rep(done)) && |done| < f.rule.max
    requires DecValue(f.kind, DefaultValue(f.kind), b, r) == Some((v, q))
    ensures DecField(f, Rep(done), WireType(f.kind), b, r) == Some((Rep(done + [v]), q))
  {
  }

  lemma PackedReads(fields: seq<Field>, i: nat, st: seq<Slot>, seen: set<nat>, vs: seq<Value>, b: Bytes, p: nat, x: Bytes, q: nat)
    requires Legal(fields) && SlotsOk(fields, st) && i < |fields| && st[i] == Rep([]) && LegalField(fields[i])
    requires fields[i].rule.Repeated? && fields[i].kind.Number? && SlotOk(fields[i], Rep(vs)) && vs != []
    requires EncSlot(fields[i], Rep(vs)) == Some(x) && |x| < TWO_32 && HasAt(b, p, x) && q == p + |x|
    ensures SlotsOk(fields, st[i := NormSlot(fields[i], Rep(vs))])
    ensures DecLoop(fields, st, seen, b, p) == DecLoop(fields, st[i := NormSlot(fields[i], Rep(vs))], seen, b, q)
  {
    var f := fields[i];
    assert forall j :: 0 <= j < |vs| ==> ValueOk(Number(f.kind.scalar), vs[j]);
    var items := EncItems(f.kind.scalar, vs);
    var r := TagReads(b, p, f.tag, WT_STRING, Prefixed(items));
    PackedFieldReads(f, vs, items, b, r, q);
    OneOccurrence(fields, i, st, seen, b, p, WT_STRING, r, Rep(vs), q);
    assert NormEach(f.kind, vs) == vs;
  }

  lemma {:induction false} PackedFieldReads(f: Field, vs: seq<Value>, items: Bytes, b: Bytes, r: nat, q: nat)
    requires f.rule.Repeated? && f.kind.Number? && AllNumbers(f.kind.scalar, vs) && |vs| <= f.rule.max
    requires items == EncItems(f.kind.scalar, vs) && |items| < TWO_32 && HasAt(b, r, Prefixed(items)) && q == r + |Prefixed(items)|
    ensures DecField(f, Rep([]), WT_STRING, b, r) == Some((Rep(vs), q))
  {
    var t, end := PrefixedReads(b, r, items);
    AllItemsRead(f.kind.scalar, f.rule.max, vs, items, b[..end], t);
    PackedField(f, vs, b, r, Some((|items|, t)), end);
  }

  lemma {:induction false} PackedField(f: Field, vs: seq<Value>, b: Bytes, r: nat, len: Option<(nat, nat)>, end: nat)
    requires f.rule.Repeated? && f.kind.Number? && GetLength(b, r) == len && len.Some? && end == len.value.1 + len.value.0 <= |b|
    requires DecPacked(f.kind.scalar, f.rule.max, [], b[..end], len.value.1) == Some(vs)
    ensures DecField(f, Rep([]), WT_STRING, b, r) == Some((Rep(vs), end))
  {
  }

  lemma AllItemsRead(s: Scalar, max: nat, vs: seq<Value>, items: Bytes, b: Bytes, p: nat)
    requires AllNumbers(s, vs) && |vs| <= max && items == EncItems(s, vs) && |b| == p + |items| && HasAt(b, p, items)
    ensures DecPacked(s, max, [], b, p) == Some(vs)
  {
    assert vs[0..] == vs && vs[..0] == [];
    ItemsRead(s, max, vs, 0, items, b, p);
  }

  /** The entries of an array one after another, each behind its tag. */
  lemma {:induction false} EachReads(
      fields: seq<Field>, i: nat, st: seq<Slot>, seen: set<nat>, vs: seq<Value>, j: nat, b: Bytes, p: nat, x: Bytes, q: nat)
    requires Legal(fields) && SlotsOk(fields, st) && i < |fields| && LegalField(fields[i])
    requires fields[i].rule.Repeated? && !fields[i].kind.Number? && j <= |vs| <= fields[i].rule.max
    requires (forall n :: 0 <= n < |vs| ==> ValueOk(fields[i].kind, vs[n])) && (forall n :: 0 <= n < |vs| ==> Terminated(fields[i].kind, vs[n]))
    requires st[i] == Rep(NormEach(fields[i].kind, vs)[..j])
    requires EncEach(fields[i], vs, j) == Some(x) && |x| < TWO_32 && HasAt(b, p, x) && q == p + |x|
    ensures SlotsOk(fields, st[i := Rep(NormEach(fields[i].kind, vs))])
    ensures DecLoop(fields, st, seen, b, p) == DecLoop(fields, st[i := Rep(NormEach(fields[i].kind, vs))], seen, b, q)
    decreases vs, |vs| - j
  {
    var k := fields[i].kind;
    if j == |vs| {
      assert NormEach(k, vs)[..j] == NormEach(k, vs);
      assert st[i := Rep(NormEach(k, vs))] == st;
    } else {
      var y, rest := EncTagged(fields[i], vs[j]).value, EncEach(fields[i], vs, j + 1).value;
      var mid := HasParts(b, p, y, rest);
      var next := EntryReads(fields, i, st, seen, vs, j, b, p, y, mid);
      EachReads(fields, i, next, seen, vs, j + 1, b, mid, rest, q);
      assert next[i := Rep(NormEach(k, vs))] == st[i := Rep(NormEach(k, vs))];
    }
  }

  lemma {:induction false} EntryReads(
      fields: seq<Field>, i: nat, st: seq<Slot>, seen: set<nat>, vs: seq<Value>, j: nat, b: Bytes, p: nat, y: Bytes, mid: nat)
    returns (next: seq<Slot>)
    requires Legal(fields) && SlotsOk(fields, st) && i < |fields| && LegalField(fields[i])
    requires fields[i].rule.Repeated? && !fields[i].kind.Number? && j < |vs| <= fields[i].rule.max
    requires (forall n :: 0 <= n < |vs| ==> ValueOk(fields[i].kind, vs[n])) && Terminated(fields[i].kind, vs[j])
    requires st[i] == Rep(NormEach(fields[i].kind, vs)[..j])
    requires EncTagged(fields[i], vs[j]) == Some(y) && |y| < TWO_32 && HasAt(b, p, y) && mid == p + |y|
    ensures next == st[i := Rep(NormEach(fields[i].kind, vs)[..j + 1])] && SlotsOk(fields, next)
    ensures DecLoop(fields, st, seen, b, p) == DecLoop(fields, next, seen, b, mid)
    decreases vs, 0
  {
    var f := fields[i];
    var r := TaggedValue(f, vs[j], b, p, y);
    var all := NormEach(f.kind, vs);
    assert all[j] == NormValue(f.kind, vs[j]) && all[..j + 1] == all[..j] + [all[j]];
    next := st[i := Rep(all[..j + 1])];
    NextEntry(f, all[..j], all[j], b, r, mid);
    OneOccurrence(fields, i, st, seen, b, p, WireType(f.kind), r, Rep(all[..j + 1]), mid);
  }

  // ---------------------------------------------------------------------
  // Unknown fields
  // ---------------------------------------------------------------------

  /** An occurrence of a field that the table does not have is passed over. */
  lemma OneUnknown(known: seq<Field>, st: seq<Slot>, seen: set<nat>, b: Bytes, p: nat, tag: nat, wireType: nat, q: nat, next: nat)
    requires SlotsOk(known, st) && 0 < tag && wireType < 8 && FindField(known, tag, 0) == |known|
    requires DecodeVarint32(b, p) == Some((8 * tag + wireType, q)) && Payload(wireType, b, q, next)
    ensures DecLoop(known, st, seen, b, p) == DecLoop(known, st, seen, b, next)
  {
    SkipsExactly(wireType, b, q, next);
    assert (8 * tag + wireType) / 8 == tag && (8 * tag + wireType) % 8 == wireType;
  }

  lemma {:induction false} TaggedIsSkipped(known: seq<Field>, st: seq<Slot>, seen: set<nat>, f: Field, v: Value, b: Bytes, p: nat, x: Bytes, q: nat)
    requires SlotsOk(known, st) && LegalField(f) && FindField(known, f.tag, 0) == |known| && ValueOk(f.kind, v)
    requires EncTagged(f, v) == Some(x) && |x| < TWO_32 && HasAt(b, p, x) && q == p + |x|
    ensures DecLoop(known, st, seen, b, p) == DecLoop(known, st, seen, b, q)
  {
    var body, r := TagAndBody(f, v, b, p, x);
    PayloadEnds(f.kind, v, body, b, r);
    OneUnknown(known, st, seen, b, p, f.tag, WireType(f.kind), r, q);
  }

  lemma {:induction false} EachIsSkipped(known: seq<Field>, st: seq<Slot>, seen: set<nat>, f: Field, vs: seq<Value>, j: nat,
                                         b: Bytes, p: nat, x: Bytes, q: nat)
    requires SlotsOk(known, st) && LegalField(f) && FindField(known, f.tag, 0) == |known|
    requires j <= |vs| && forall n :: 0 <= n < |vs| ==> ValueOk(f.kind, vs[n])
    requires EncEach(f, vs, j) == Some(x) && |x| < TWO_32 && HasAt(b, p, x) && q == p + |x|
    ensures DecLoop(known, st, seen, b, p) == DecLoop(known, st, seen, b, q)
    decreases |vs| - j
  {
    if j < |vs| {
      var y, rest := EncTagged(f, vs[j]).value, EncEach(f, vs, j + 1).value;
      var mid := HasParts(b, p, y, rest);
      TaggedIsSkipped(known, st, seen, f, vs[j], b, p, y, mid);
      EachIsSkipped(known, st, seen, f, vs, j + 1, b, mid, rest, q);
    }
  }

  /** All that the encoder wrote for a field that the receiver does not have. */
  lemma {:induction false} SlotIsSkipped(known: seq<Field>, st: seq<Slot>, seen: set<nat>, f: Field, s: Slot, b: Bytes, p: nat, x: Bytes, q: nat)
    requires SlotsOk(known, st) && LegalField(f) && FindField(known, f.tag, 0) == |known| && SlotOk(f, s)
    requires EncSlot(f, s) == Some(x) && |x| < TWO_32 && HasAt(b, p, x) && q == p + |x|
    ensures DecLoop(known, st, seen, b, p) == DecLoop(known, st, seen, b, q)
  {
    match s
    case One(v) => TaggedIsSkipped(known, st, seen, f, v, b, p, x, q);
    case Opt(has, v) => if has { TaggedIsSkipped(known, st, seen, f, v, b, p, x, q); }
    case Rep(vs) =>
      if vs != [] {
        if f.kind.Number? {
          assert forall i :: 0 <= i < |vs| ==> ValueOk(Number(f.kind.scalar), vs[i]);
          var items := EncItems(f.kind.scalar, vs);
          var r := TagReads(b, p, f.tag, WT_STRING, Prefixed(items));
          PrefixedEnds(items, b, r);
          OneUnknown(known, st, seen, b, p, f.tag, WT_STRING, r, q);
        } else {
          EachIsSkipped(known, st, seen, f, vs, 0, b, p, x, q);
        }
      }
  }

  /**
   * Sender and receiver with different tables: decoding succeeds if and only if the sender has all the fields that the
   * receiver enforces. Fields only the sender has are skipped, fields only the receiver has keep their defaults.
   */
  lemma OtherTableReads(sent: seq<Field>, slots: seq<Slot>, known: seq<Field>)
    requires Legal(sent) && Legal(known) && Agree(sent, known) && SlotsOk(sent, slots) && Readable(sent, slots, known)
    requires Enc(sent, slots).Some? && |Enc(sent, slots).value| < TWO_32
    ensures ProtoDecoder.Decode(known, Enc(sent, slots).value) ==
            if Suffices(sent, known) then Some(Received(sent, slots, known, |sent|)) else None
  {
    var e := Enc(sent, slots).value;
    FieldsRead(sent, slots, known, e, 0, e);
  }

  // ---------------------------------------------------------------------
  // The round trip
  // ---------------------------------------------------------------------

  /** pb_decode undoes pb_encode, for every message whose encoding is shorter than 2^32 bytes. */
  lemma MessageRoundTrip(fields: seq<Field>, slots: seq<Slot>)
    requires Legal(fields) && SlotsOk(fields, slots) && TerminatedSlots(fields, slots)
    requires Enc(fields, slots).Some? && |Enc(fields, slots).value| < TWO_32
    ensures ProtoDecoder.Decode(fields, Enc(fields, slots).value) == Some(Norm(fields, slots))
  {
    var e := Enc(fields, slots).value;
    MessageReads(fields, slots, e, 0, e);
  }

  /** A string that fills its array has no terminator there. It is encoded, but the decoder refuses it. */
  lemma {:induction false} StringReadsExactly(size: nat, v: Value, old_: Value, b: Bytes, p: nat)
    requires ValueOk(StringOf(size), v) && ValueOk(StringOf(size), old_)
    requires |v.b| < TWO_32 && HasAt(b, p, EncValue(StringOf(size), v).value)
    ensures DecValue(StringOf(size), old_, b, p) ==
            if |v.b| < size then Some((v, p + |EncValue(StringOf(size), v).value|)) else None
  {
    var q, end := PrefixedReads(b, p, v.b);
  }

  /** Only what is never encoded is forgotten: the decoded message has the encoding of the original. */
  lemma {:induction false} NormEncodes(fields: seq<Field>, slots: seq<Slot>, i: nat)
    requires SlotsOk(fields, slots) && i <= |slots|
    ensures EncFrom(fields, Norm(fields, slots), i) == EncFrom(fields, slots, i)
    decreases slots, |slots| - i
  {
    if i < |slots| {
      assert SlotOk(fields[i], slots[i]) && Norm(fields, slots)[i] == NormSlot(fields[i], slots[i]);
      NormSlotEncodes(fields[i], slots[i]);
      NormEncodes(fields, slots, i + 1);
    }
  }

  lemma {:induction false} NormSlotEncodes(f: Field, s: Slot)
    requires SlotOk(f, s)
    ensures EncSlot(f, NormSlot(f, s)) == EncSlot(f, s)
    decreases s, 0
  {
    match s
    case One(v) => NormValueEncodes(f.kind, v);
    case Opt(has, v) => if has { NormValueEncodes(f.kind, v); }
    case Rep(vs) =>
      if f.kind.Number? {
        assert NormEach(f.kind, vs) == vs;
      } else {
        NormEachEncodes(f, vs, 0);
      }
  }

  lemma {:induction false} NormEachEncodes(f: Field, vs: seq<Value>, i: nat)
    requires i <= |vs| && forall j :: 0 <= j < |vs| ==> ValueOk(f.kind, vs[j])
    ensures EncEach(f, NormEach(f.kind, vs), i) == EncEach(f, vs, i)
    decreases vs, |vs| - i
  {
    if i < |vs| {
      assert NormEach(f.kind, vs)[i] == NormValue(f.kind, vs[i]);
      NormValueEncodes(f.kind, vs[i]);
      NormEachEncodes(f, vs, i + 1);
    }
  }

  lemma {:induction false} NormValueEncodes(k: Kind, v: Value)
    requires ValueOk(k, v)
    ensures EncValue(k, NormValue(k, v)) == EncValue(k, v)
    decreases v, 0
  {
    if k.Message? { NormEncodes(k.fields, v.slots, 0); }
  }
}
