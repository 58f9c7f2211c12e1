/** The decoder of nanopb: pb_decode.c:298-483, 845-1090, 1441-1541, for static allocation. */
module ProtoDecoder {
  import opened Keys
  import opened ProtoScalars
  import opened ProtoMessages

  // ---------------------------------------------------------------------
  // Defaults
  // ---------------------------------------------------------------------

  /** What pb_message_set_to_defaults leaves, for fields without a default of their own. */
  function DefaultValue(k: Kind): (v: Value)
    ensures ValueOk(k, v)
    decreases k, 0
  {
    match k
    case Number(_) => Num(0)
    case BytesOf(_) => Blob([])
    case StringOf(_) => Blob([])
    case Message(fields) => Sub(Defaults(fields))
  }

  function DefaultSlot(f: Field): (s: Slot)
    ensures SlotOk(f, s)
    decreases f, 1
  {
    match f.rule
    case Required => One(DefaultValue(f.kind))
    case Optional => Opt(false, DefaultValue(f.kind))
    case Repeated(_) => Rep([])
  }

  function Defaults(fields: seq<Field>): (ss: seq<Slot>)
    ensures SlotsOk(fields, ss)
    ensures forall i {:trigger ss[i]} :: 0 <= i < |ss| ==> ss[i] == DefaultSlot(fields[i])
    decreases fields
  {
    seq(|fields|, i requires 0 <= i < |fields| => DefaultSlot(fields[i]))
  }

  // ---------------------------------------------------------------------
  // Fields and required fields
  // ---------------------------------------------------------------------

  /** The field with this tag, or the number of fields. */
  function FindField(fields: seq<Field>, tag: nat, i: nat): (r: nat)
    requires i <= |fields|
    ensures i <= r <= |fields| && (r < |fields| ==> fields[r].tag == tag)
    ensures forall j :: i <= j < r ==> fields[j].tag != tag
    decreases |fields| - i
  {
    if i == |fields| || fields[i].tag == tag then i else FindField(fields, tag, i + 1)
  }

  function RequiredBefore(fields: seq<Field>, i: nat): nat
    requires i <= |fields|
  {
    if i == 0 then 0 else RequiredBefore(fields, i - 1) + if fields[i - 1].rule.Required? then 1 else 0
  }

  const PB_MAX_REQUIRED_FIELDS: nat := 64

  /** The decoder keeps track of the first 64 required fields only. */
  predicate Enforced(fields: seq<Field>, i: nat) {
    i < |fields| && fields[i].rule.Required? && RequiredBefore(fields, i) < PB_MAX_REQUIRED_FIELDS
  }

  predicate AllSeen(fields: seq<Field>, seen: set<nat>) {
    forall i :: 0 <= i < |fields| && Enforced(fields, i) ==> i in seen
  }

  // ---------------------------------------------------------------------
  // Decoding
  // ---------------------------------------------------------------------

  /** The length before a string, which must lie within the stream. */
  function GetLength(b: Bytes, p: nat): (r: Option<(nat, nat)>)
    ensures r.Some? ==> p < r.value.1 && r.value.1 + r.value.0 <= |b|
  {
    var n := DecodeVarint32(b, p);
    if n.None? || n.value.1 + n.value.0 > |b| then None else n
  }

  function UpToNul(b: Bytes): (r: Bytes)
    ensures r <= b && 0 !in r
    ensures |r| < |b| ==> b[|r|] == 0
    ensures 0 !in b ==> r == b
  {
    if b == [] || b[0] == 0 then [] else [b[0]] + UpToNul(b[1..])
  }

  function SkipVarint(b: Bytes, p: nat): (r: Option<nat>)
    ensures r.Some? ==> p < r.value <= |b|
    decreases |b| - p
  {
    if p >= |b| then None else if b[p] >= 128 then SkipVarint(b, p + 1) else Some(p + 1)
  }

  /** pb_skip_field. */
  function SkipField(wireType: nat, b: Bytes, p: nat): (r: Option<nat>)
    ensures r.Some? ==> p < r.value <= |b|
  {
    if wireType == WT_VARINT then SkipVarint(b, p)
    else if wireType == WT_64BIT then if p + 8 <= |b| then Some(p + 8) else None
    else if wireType == WT_STRING then
      var n := GetLength(b, p);
      if n.None? then None else Some(n.value.1 + n.value.0)
    else if wireType == WT_32BIT then if p + 4 <= |b| then Some(p + 4) else None
    else None
  }

  /** The field decoders; a submessage is decoded into what is already there. */
  function DecValue(k: Kind, old_: Value, b: Bytes, p: nat): (r: Option<(Value, nat)>)
    requires ValueOk(k, old_)
    ensures r.Some? ==> ValueOk(k, r.value.0) && p < r.value.1 <= |b|
    decreases |b| - p, 1
  {
    match k
    case Number(s) =>
      var n := DecodeScalar(s, b, p);
      if n.None? then None else Some((Num(n.value.0), n.value.1))
    case BytesOf(size) =>
      var n := GetLength(b, p);
      if n.None? || n.value.0 > size then None
      else Some((Blob(b[n.value.1..n.value.1 + n.value.0]), n.value.1 + n.value.0))
    case StringOf(size) =>
      var n := GetLength(b, p);
      if n.None? || n.value.0 + 1 > size then None
      else Some((Blob(UpToNul(b[n.value.1..n.value.1 + n.value.0])), n.value.1 + n.value.0))
    case Message(fields) =>
      var n := GetLength(b, p);
      if n.None? then None
      else
        var inner := DecLoop(fields, old_.slots, {}, b[..n.value.1 + n.value.0], n.value.1);
        if inner.None? then None else Some((Sub(inner.value.0), n.value.1 + n.value.0))
  }

  /** The items of a packed array, up to the end of its substream. */
  function DecPacked(s: Scalar, max: nat, vs: seq<Value>, b: Bytes, p: nat): (r: Option<seq<Value>>)
    requires AllNumbers(s, vs)
    ensures r.Some? ==> AllNumbers(s, r.value)
    decreases |b| - p
  {
    if p >= |b| then Some(vs)
    else if |vs| >= max then None
    else
      var n := DecodeScalar(s, b, p);
      if n.None? then None else DecPacked(s, max, vs + [Num(n.value.0)], b, n.value.1)
  }

  /** decode_static_field. */
  function DecField(f: Field, s: Slot, wireType: nat, b: Bytes, p: nat): (r: Option<(Slot, nat)>)
    requires SlotOk(f, s)
    ensures r.Some? ==> SlotOk(f, r.value.0) && p < r.value.1 <= |b|
    decreases |b| - p, 2
  {
    match s
    case One(v) =>
      var x := DecValue(f.kind, v, b, p);
      if x.None? then None else Some((One(x.value.0), x.value.1))
    case Opt(_, v) =>
      var x := DecValue(f.kind, v, b, p);
      if x.None? then None else Some((Opt(true, x.value.0), x.value.1))
    case Rep(vs) =>
      if wireType == WT_STRING && f.kind.Number? then
        var n := GetLength(b, p);
        assert forall i :: 0 <= i < |vs| ==> ValueOk(Number(f.kind.scalar), vs[i]);
        if n.None? then None
        else
          var items := DecPacked(f.kind.scalar, f.rule.max, vs, b[..n.value.1 + n.value.0], n.value.1);
          if items.None? then None else Some((Rep(items.value), n.value.1 + n.value.0))
      else if |vs| >= f.rule.max then None
      else
        var x := DecValue(f.kind, DefaultValue(f.kind), b, p);
        if x.None? then None else Some((Rep(vs + [x.value.0]), x.value.1))
  }

  /** pb_decode_noinit. A zero tag ends the message. */
  function DecLoop(fields: seq<Field>, slots: seq<Slot>, seen: set<nat>, b: Bytes, p: nat): (r: Option<(seq<Slot>, nat)>)
    requires SlotsOk(fields, slots)
    ensures r.Some? ==> SlotsOk(fields, r.value.0)
    decreases |b| - p, 0
  {
    if p >= |b| then if AllSeen(fields, seen) then Some((slots, p)) else None
    else
      var temp := DecodeVarint32(b, p);
      if temp.None? then None
      else if temp.value.0 == 0 then if AllSeen(fields, seen) then Some((slots, temp.value.1)) else None
      else
        var i := FindField(fields, temp.value.0 / 8, 0);
        if i == |fields| then
          var next := SkipField(temp.value.0 % 8, b, temp.value.1);
          if next.None? then None else DecLoop(fields, slots, seen, b, next.value)
        else
          var x := DecField(fields[i], slots[i], temp.value.0 % 8, b, temp.value.1);
          if x.None? then None
          else DecLoop(fields, slots[i := x.value.0], if Enforced(fields, i) then seen + {i} else seen, b, x.value.1)
  }

  /** pb_decode. */
  function Decode(fields: seq<Field>, b: Bytes): (r: Option<seq<Slot>>)
    ensures r.Some? ==> SlotsOk(fields, r.value)
  {
    var x := DecLoop(fields, Defaults(fields), {}, b, 0);
    if x.None? then None else Some(x.value.0)
  }

  // ---------------------------------------------------------------------
  // The decoder as the code runs it
  // ---------------------------------------------------------------------

  /** pb_decode_noinit: `slots` is the structure, updated field by field. */
  method DecodeNoInit(fields: seq<Field>, dest: seq<Slot>, b: Bytes, start: nat) returns (ok: bool, slots: seq<Slot>, p: nat)
    requires SlotsOk(fields, dest)
    ensures var x := DecLoop(fields, dest, {}, b, start); ok == x.Some? && (ok ==> (slots, p) == x.value)
    decreases |b| - start, 3
  {
    ghost var goal := DecLoop(fields, dest, {}, b, start);
    slots, p := dest, start;
    var fieldsSeen: set<nat> := {};
    while p < |b|
      invariant start <= p && SlotsOk(fields, slots) && goal == DecLoop(fields, slots, fieldsSeen, b, p)
      decreases |b| - p
    {
      var temp := DecodeVarint32(b, p);
      if temp.None? {
        return false, slots, p;
      }
      var tag, wireType := temp.value.0 / 8, temp.value.0 % 8;
      if temp.value.0 == 0 {
        return AllSeen(fields, fieldsSeen), slots, temp.value.1;
      }
      p := temp.value.1;
      var i := FindField(fields, tag, 0);
      if i == |fields| {
        var next := SkipField(wireType, b, p);
        if next.None? {
          return false, slots, p;
        }
        p := next.value;
      } else {
        var s, next;
        ok, s, next := DecodeField(fields[i], slots[i], wireType, b, p);
        if !ok {
          return;
        }
        slots, p := slots[i := s], next;
        if Enforced(fields, i) {
          fieldsSeen := fieldsSeen + {i};
        }
      }
    }
    ok := AllSeen(fields, fieldsSeen);
  }

  method DecodeField(f: Field, dest: Slot, wireType: nat, b: Bytes, p: nat) returns (ok: bool, s: Slot, next: nat)
    requires SlotOk(f, dest)
    ensures var x := DecField(f, dest, wireType, b, p); ok == x.Some? && (ok ==> (s, next) == x.value)
    decreases |b| - p, 2
  {
    ok, s, next := false, dest, p;
    match dest
    case One(old_) =>
      var v;
      ok, v, next := DecodeValue(f.kind, old_, b, p);
      s := One(v);
    case Opt(_, old_) =>
      var v;
      ok, v, next := DecodeValue(f.kind, old_, b, p);
      s := Opt(true, v);
    case Rep(vs) =>
      if wireType == WT_STRING && f.kind.Number? {
        assert forall i :: 0 <= i < |vs| ==> ValueOk(Number(f.kind.scalar), vs[i]);
        var items;
        ok, items, next := DecodePackedItems(f.kind.scalar, f.rule.max, vs, b, p);
        s := Rep(items);
      } else if |vs| < f.rule.max {
        var v;
        ok, v, next := DecodeValue(f.kind, DefaultValue(f.kind), b, p);
        s := Rep(vs + [v]);
      }
  }

  method DecodePackedItems(scalar: Scalar, max: nat, dest: seq<Value>, b: Bytes, p: nat) returns (ok: bool, vs: seq<Value>, next: nat)
    requires AllNumbers(scalar, dest)
    ensures var n := GetLength(b, p);
      if n.None? then !ok
      else
        var x := DecPacked(scalar, max, dest, b[..n.value.1 + n.value.0], n.value.1);
        ok == x.Some? && next == n.value.1 + n.value.0 && (ok ==> vs == x.value)
  {
    ok, vs, next := false, dest, p;
    var n := GetLength(b, p);
    if n.Some? {
      next := n.value.1 + n.value.0;
      ok, vs := DecodePacked(scalar, max, dest, b[..next], n.value.1);
    }
  }

  method DecodePacked(scalar: Scalar, max: nat, dest: seq<Value>, b: Bytes, start: nat) returns (ok: bool, vs: seq<Value>)
    requires AllNumbers(scalar, dest)
    ensures var x := DecPacked(scalar, max, dest, b, start); ok == x.Some? && (ok ==> vs == x.value)
  {
    ghost var goal := DecPacked(scalar, max, dest, b, start);
    vs := dest;
    var p := start;
    while p < |b| && |vs| < max
      invariant 0 <= p && AllNumbers(scalar, vs) && goal == DecPacked(scalar, max, vs, b, p)
      decreases |b| - p
    {
      var n := DecodeScalar(scalar, b, p);
      if n.None? {
        return false, vs;
      }
      vs, p := vs + [Num(n.value.0)], n.value.1;
    }
    ok := p >= |b|;
  }

  method DecodeValue(k: Kind, old_: Value, b: Bytes, p: nat) returns (ok: bool, v: Value, next: nat)
    requires ValueOk(k, old_)
    ensures var x := DecValue(k, old_, b, p); ok == x.Some? && (ok ==> (v, next) == x.value)
    decreases |b| - p, 1
  {
    ok, v, next := false, old_, p;
    match k
    case Number(s) =>
      var n := DecodeScalar(s, b, p);
      if n.Some? {
        ok, v, next := true, Num(n.value.0), n.value.1;
      }
    case BytesOf(size) =>
      var n := GetLength(b, p);
      if n.Some? && n.value.0 <= size {
        next := n.value.1 + n.value.0;
        ok, v := true, Blob(b[n.value.1..next]);
      }
    case StringOf(size) =>
      var n := GetLength(b, p);
      if n.Some? && n.value.0 + 1 <= size {
        next := n.value.1 + n.value.0;
        ok, v := true, Blob(UpToNul(b[n.value.1..next]));
      }
    case Message(fields) =>
      var n := GetLength(b, p);
      if n.Some? {
        next := n.value.1 + n.value.0;
        var slots, end;
        ok, slots, end := DecodeNoInit(fields, old_.slots, b[..next], n.value.1);
        v := Sub(slots);
      }
  }

  /** pb_decode. */
  method PbDecode(fields: seq<Field>, b: Bytes) returns (r: Option<seq<Slot>>)
    ensures r == Decode(fields, b)
  {
    var ok, slots, _ := DecodeNoInit(fields, Defaults(fields), b, 0);
    r := if ok then Some(slots) else None;
  }
}
