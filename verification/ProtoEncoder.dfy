/**
 * The encoder of nanopb: pb_encode.c:86-124, 147-236, 341-426, 528-577 and 608-765. A stream either
 * writes, up to a limit, or only counts; `Enc` says what either comes to.
 */
module ProtoEncoder {
  import opened Keys
  import opened Sequences
  import opened Coding
  import opened ProtoScalars
  import opened ProtoMessages
  import Varint

  class OStream {
    const sizing: bool
    const max: nat
    var written: nat
    var out: Bytes

    constructor Sizing()
      ensures sizing && Valid() && written == 0 && out == []
    {
      sizing, max, written, out := true, 0, 0, [];
    }

    /** A stream that goes on after `out`, with room for `max` more bytes. */
    constructor Writing(max: nat, out: Bytes)
      ensures !sizing && Valid() && this.max == max && written == 0 && this.out == out
    {
      sizing, this.max, written, this.out := false, max, 0, out;
    }

    predicate Valid()
      reads this
    {
      sizing || written <= max
    }

    /** After `w` bytes there is room for `n` more. */
    predicate Room(w: nat, n: nat) {
      sizing || w + n <= max
    }

    /** These bytes have been written, or counted, since the stream was at `w` and held `o`. */
    predicate Took(w: nat, o: Bytes, b: Bytes)
      reads this
    {
      Valid() && written == w + |b| && out == o + if sizing then [] else b
    }

    /** Success exactly if there is something to write and there is room for it. */
    predicate Wrote(w: nat, o: Bytes, ok: bool, b: Option<Bytes>)
      reads this
    {
      Valid() && (ok <==> b.Some? && Room(w, |b.value|)) && (ok ==> Took(w, o, b.value))
    }

    /** pb_write. */
    method Write(b: Bytes) returns (ok: bool)
      requires Valid()
      modifies this
      ensures Wrote(old(written), old(out), ok, Some(b))
    {
      if |b| > 0 && !sizing {
        if written + |b| > max {
          return false;
        }
        out := out + b;
      }
      written := written + |b|;
      return true;
    }

    method EncodeVarint(v: nat) returns (ok: bool)
      requires Valid()
      modifies this
      ensures Wrote(old(written), old(out), ok, Some(Varint.Encode(v)))
    {
      ok := Write(Varint.Encode(v));
    }

    method EncodeTag(tag: nat, wireType: nat) returns (ok: bool)
      requires Valid()
      modifies this
      ensures Wrote(old(written), old(out), ok, Some(FieldTag(tag, wireType)))
    {
      ok := EncodeVarint(8 * tag + wireType);
    }

    /** pb_encode_string. */
    method EncodeString(b: Bytes) returns (ok: bool)
      requires Valid()
      modifies this
      ensures Wrote(old(written), old(out), ok, Some(Prefixed(b)))
    {
      ok := EncodeVarint(|b|);
      if ok {
        ok := Write(b);
      }
    }

    /** pb_encode_submessage: a sizing pass, the size, and the writing pass within a limit. */
    method EncodeSubmessage(fields: seq<Field>, slots: seq<Slot>) returns (ok: bool)
      requires Valid() && SlotsOk(fields, slots)
      modifies this
      ensures var e := Enc(fields, slots); Wrote(old(written), old(out), ok, if e.Some? then Some(Prefixed(e.value)) else None)
      decreases slots, |slots| + 2
    {
      var counter := new OStream.Sizing();
      ok := counter.EncodeFields(fields, slots);
      if !ok {
        return;
      }
      var size := counter.written;
      ok := EncodeVarint(size);
      if !ok {
        return;
      }
      if sizing {
        written := written + size;
        return;
      }
      if written + size > max {
        return false;
      }
      var sub := new OStream.Writing(size, out);
      ok := sub.EncodeFields(fields, slots);
      written := written + sub.written;
      out := sub.out;
      if sub.written != size {
        ok := false;
      }
    }

    /** pb_encode. */
    method EncodeFields(fields: seq<Field>, slots: seq<Slot>) returns (ok: bool)
      requires Valid() && SlotsOk(fields, slots)
      modifies this
      ensures Wrote(old(written), old(out), ok, Enc(fields, slots))
      decreases slots, |slots| + 1
    {
      ghost var w, o, done: Bytes := written, out, [];
      Sequence(done, None, EncFrom(fields, slots, 0));
      ok := true;
      for i := 0 to |slots|
        invariant Took(w, o, done) && Enc(fields, slots) == Join(Some(done), EncFrom(fields, slots, i))
      {
        assert SlotOk(fields[i], slots[i]);
        ghost var e := EncSlot(fields[i], slots[i]);
        ok := EncodeField(fields[i], slots[i]);
        Sequence(done, e, EncFrom(fields, slots, i + 1));
        if !ok {
          return;
        }
        done := done + e.value;
      }
      ok := true;
    }

    /** encode_basic_field. */
    method EncodeField(f: Field, s: Slot) returns (ok: bool)
      requires Valid() && SlotOk(f, s)
      modifies this
      ensures Wrote(old(written), old(out), ok, EncSlot(f, s))
      decreases s, 2
    {
      ok := true;
      match s
      case One(v) =>
        ok := EncodeTagged(f, v);
      case Opt(has, v) =>
        if has {
          ok := EncodeTagged(f, v);
        }
      case Rep(vs) =>
        ok := EncodeArray(f, vs);
    }

    method EncodeTagged(f: Field, v: Value) returns (ok: bool)
      requires Valid() && ValueOk(f.kind, v)
      modifies this
      ensures Wrote(old(written), old(out), ok, EncTagged(f, v))
      decreases v, 3
    {
      ghost var tag := FieldTag(f.tag, WireType(f.kind));
      ok := EncodeTag(f.tag, WireType(f.kind));
      if ok {
        ok := EncodeValue(f.kind, v);
      }
    }

    /** The field encoders. */
    method EncodeValue(k: Kind, v: Value) returns (ok: bool)
      requires Valid() && ValueOk(k, v)
      modifies this
      ensures Wrote(old(written), old(out), ok, EncValue(k, v))
      decreases v, 2
    {
      match k
      case Number(s) =>
        ok := Write(EncodeScalar(s, v.n));
      case BytesOf(size) =>
        if |v.b| > size {
          return false;
        }
        ok := EncodeString(v.b);
      case StringOf(_) =>
        ok := EncodeString(v.b);
      case Message(fields) =>
        ok := EncodeSubmessage(fields, v.slots);
    }

    /** encode_array. */
    method EncodeArray(f: Field, vs: seq<Value>) returns (ok: bool)
      requires Valid() && f.rule.Repeated? && (forall i :: 0 <= i < |vs| ==> ValueOk(f.kind, vs[i]))
      modifies this
      ensures Wrote(old(written), old(out), ok, EncSlot(f, Rep(vs)))
      decreases vs, 4
    {
      if |vs| == 0 {
        return true;
      }
      if |vs| > f.rule.max {
        return false;
      }
      if f.kind.Number? {
        assert forall i :: 0 <= i < |vs| ==> ValueOk(Number(f.kind.scalar), vs[i]);
        ok := EncodeTaggedPacked(f.tag, f.kind.scalar, vs);
      } else {
        ok := EncodeEach(f, vs);
      }
    }

    method EncodeTaggedPacked(tag: nat, s: Scalar, vs: seq<Value>) returns (ok: bool)
      requires Valid() && AllNumbers(s, vs)
      modifies this
      ensures Wrote(old(written), old(out), ok, Some(FieldTag(tag, WT_STRING) + Prefixed(EncItems(s, vs))))
    {
      ghost var w, o := written, out;
      ok := EncodeTag(tag, WT_STRING);
      if ok {
        WriteMore(w, o, FieldTag(tag, WT_STRING), Prefixed(EncItems(s, vs)), FieldTag(tag, WT_STRING) + Prefixed(EncItems(s, vs)));
        ok := EncodePacked(s, vs);
      }
    }

    method EncodeEach(f: Field, vs: seq<Value>) returns (ok: bool)
      requires Valid() && (forall i :: 0 <= i < |vs| ==> ValueOk(f.kind, vs[i]))
      modifies this
      ensures Wrote(old(written), old(out), ok, EncEach(f, vs, 0))
      decreases vs, 3
    {
      ghost var w, o, done: Bytes := written, out, [];
      Sequence(done, None, EncEach(f, vs, 0));
      ok := true;
      for i := 0 to |vs|
        invariant Took(w, o, done) && EncEach(f, vs, 0) == Join(Some(done), EncEach(f, vs, i))
      {
        ghost var e := EncTagged(f, vs[i]);
        ok := EncodeTagged(f, vs[i]);
        Sequence(done, e, EncEach(f, vs, i + 1));
        if !ok {
          return;
        }
        done := done + e.value;
      }
      ok := true;
    }

    /** The size of a packed array, known or found by a sizing pass, and its items. */
    method EncodePacked(s: Scalar, vs: seq<Value>) returns (ok: bool)
      requires Valid() && AllNumbers(s, vs)
      modifies this
      ensures Wrote(old(written), old(out), ok, Some(Prefixed(EncItems(s, vs))))
    {
      ghost var items := EncItems(s, vs);
      var size := PackedSize(s, vs);
      ok := EncodeVarint(size);
      if !ok {
        return;
      }
      if sizing {
        written := written + size;
      } else {
        ok := EncodeItemsOf(s, vs);
      }
    }

    method PackedSize(s: Scalar, vs: seq<Value>) returns (size: nat)
      requires AllNumbers(s, vs)
      ensures size == |EncItems(s, vs)|
    {
      if s.Fixed32? {
        FixedPieces(Each(ItemCode(s), vs), 4);
        size := 4 * |vs|;
      } else if s.Fixed64? {
        FixedPieces(Each(ItemCode(s), vs), 8);
        size := 8 * |vs|;
      } else {
        var counter := new OStream.Sizing();
        var ok := counter.EncodeItemsOf(s, vs);
        assert ok;
        size := counter.written;
      }
    }

    method EncodeItemsOf(s: Scalar, vs: seq<Value>) returns (ok: bool)
      requires Valid() && AllNumbers(s, vs)
      modifies this
      ensures Wrote(old(written), old(out), ok, Some(EncItems(s, vs)))
    {
      ghost var w, o, done, pieces := written, out, [], Each(ItemCode(s), vs);
      for i := 0 to |vs|
        invariant Took(w, o, done) && done == Flat(pieces[..i])
      {
        ok, done := EncodeItem(s, vs[i], pieces, i, w, o, done);
        if !ok {
          return;
        }
      }
      assert pieces[..|vs|] == pieces;
      ok := true;
    }

    method EncodeItem(s: Scalar, v: Value, ghost pieces: seq<Bytes>, ghost i: nat, ghost w: nat, ghost o: Bytes, ghost done: Bytes)
      returns (ok: bool, ghost more: Bytes)
      requires v.Num? && InRange(s, v.n) && i < |pieces| && pieces[i] == EncodeScalar(s, v.n)
      requires Took(w, o, done) && done == Flat(pieces[..i])
      modifies this
      ensures ok ==> Took(w, o, more) && more == Flat(pieces[..i + 1])
      ensures !ok ==> Wrote(w, o, false, Some(Flat(pieces)))
    {
      var piece := EncodeScalar(s, v.n);
      FlatStep(pieces, i);
      FlatPrefix(pieces, i + 1);
      more := done + piece;
      WriteMore(w, o, done, piece, more);
      ok := Write(piece);
    }

    /** Writing a piece after what has been written so far. */
    lemma WriteMore(w: nat, o: Bytes, done: Bytes, piece: Bytes, more: Bytes)
      requires Took(w, o, done) && more == done + piece
      ensures Room(written, |piece|) <==> Room(w, |more|)
      ensures written + |piece| == w + |more|
      ensures (out + if sizing then [] else piece) == o + if sizing then [] else more
    {
      Associates(o, done, piece);
    }
  }

  /** pb_get_encoded_size. */
  method GetEncodedSize(fields: seq<Field>, slots: seq<Slot>) returns (size: Option<nat>)
    requires SlotsOk(fields, slots)
    ensures size == if Enc(fields, slots).Some? then Some(|Enc(fields, slots).value|) else None
  {
    var stream := new OStream.Sizing();
    var ok := stream.EncodeFields(fields, slots);
    size := if ok then Some(stream.written) else None;
  }

  lemma Sequence(done: Bytes, e: Option<Bytes>, rest: Option<Bytes>)
    ensures Join(Some(done), Join(e, rest)) == if e.None? then None else Join(Some(done + e.value), rest)
    ensures Join(Some([]), rest) == rest
  {
    if rest.Some? {
      assert [] + rest.value == rest.value;
      assert e.Some? ==> done + (e.value + rest.value) == done + e.value + rest.value;
    }
  }

  lemma {:induction false} FixedPieces(pieces: seq<Bytes>, n: nat)
    requires forall i :: 0 <= i < |pieces| ==> |pieces[i]| == n
    ensures |Flat(pieces)| == n * |pieces|
  {
    if pieces != [] {
      FixedPieces(pieces[..|pieces| - 1], n);
      OneMore(n, |pieces|);
    }
  }

  lemma OneMore(n: nat, count: nat)
    requires count > 0
    ensures n * count == n * (count - 1) + n
  {
  }
}
