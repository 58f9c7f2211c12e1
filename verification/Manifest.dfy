/** The encoding of version edits in the manifest: db/version_edit.cc:26-205. */
module Manifest {
  import opened Keys
  import opened Sequences
  import opened Coding
  import opened Varint

  datatype FileMeta = FileMeta(number: nat, size: nat, smallest: Bytes, largest: Bytes)

  /** The set of deleted files is kept in its own order, by level and number. */
  datatype Edit = Edit(
    comparator: Option<Bytes>,
    logNumber: Option<nat>,
    prevLogNumber: Option<nat>,
    nextFileNumber: Option<nat>,
    lastSequence: Option<nat>,
    compactPointers: seq<(nat, Bytes)>,
    deletedFiles: seq<(nat, nat)>,
    newFiles: seq<(nat, FileMeta)>)

  const Fresh: Edit := Edit(None, None, None, None, None, [], [], [])

  // ---------------------------------------------------------------------
  // Fields
  // ---------------------------------------------------------------------

  /** One tagged entry of the encoding. */
  datatype Field =
    | Comparator(name: Bytes)
    | Number(tag: nat, number: nat)
    | CompactPointer(level: nat, key: Bytes)
    | DeletedFile(level: nat, number: nat)
    | NewFile(level: nat, meta: FileMeta)

  const kComparator: nat := 1
  const kLogNumber: nat := 2
  const kNextFileNumber: nat := 3
  const kLastSequence: nat := 4
  const kCompactPointer: nat := 5
  const kDeletedFile: nat := 6
  const kNewFile: nat := 7
  const kPrevLogNumber: nat := 9

  predicate IsNumberTag(tag: nat) {
    tag == 2 || tag == 3 || tag == 4 || tag == 9
  }

  function TagOf(f: Field): nat {
    match f
    case Comparator(_) => kComparator
    case Number(tag, _) => tag
    case CompactPointer(_, _) => kCompactPointer
    case DeletedFile(_, _) => kDeletedFile
    case NewFile(_, _) => kNewFile
  }

  function EncodeBody(f: Field): Bytes {
    match f
    case Comparator(name) => LengthPrefixed(name)
    case Number(_, number) => Encode(number)
    case CompactPointer(level, key) => Encode(level) + LengthPrefixed(key)
    case DeletedFile(level, number) => Encode(level) + Encode(number)
    case NewFile(level, m) =>
      Encode(level) + (Encode(m.number) + (Encode(m.size) + (LengthPrefixed(m.smallest) + LengthPrefixed(m.largest))))
  }

  function EncodeField(f: Field): Bytes {
    Encode(TagOf(f)) + EncodeBody(f)
  }

  predicate FitsField(f: Field) {
    match f
    case Comparator(name) => |name| < TWO_32
    case Number(tag, number) => IsNumberTag(tag) && number < TWO_64
    case CompactPointer(level, key) => level < kNumLevels && |key| < TWO_32
    case DeletedFile(level, number) => level < kNumLevels && number < TWO_64
    case NewFile(level, m) =>
      level < kNumLevels && m.number < TWO_64 && m.size < TWO_64 && |m.smallest| < TWO_32 && |m.largest| < TWO_32
  }

  // ---------------------------------------------------------------------
  // Reading
  // ---------------------------------------------------------------------

  function GetLevel(b: Bytes, p: nat): (r: Option<(nat, nat)>)
    ensures r.Some? ==> p < r.value.1 <= |b|
  {
    var v := Decode32(b, p);
    if v.None? || v.value.0 >= kNumLevels then None else v
  }

  /** What follows a tag. */
  function GetBody(tag: nat, b: Bytes, p: nat): (r: Option<(Field, nat)>)
    ensures r.Some? ==> p < r.value.1 <= |b|
  {
    if tag == kComparator then
      var s := GetSlice(b, p);
      if s.None? then None else Some((Comparator(s.value.0), s.value.1))
    else if IsNumberTag(tag) then
      var n := Decode64(b, p);
      if n.None? then None else Some((Number(tag, n.value.0), n.value.1))
    else if tag == kCompactPointer then
      var l := GetLevel(b, p);
      if l.None? then None
      else
        var k := GetSlice(b, l.value.1);
        if k.None? then None else Some((CompactPointer(l.value.0, k.value.0), k.value.1))
    else if tag == kDeletedFile then
      var l := GetLevel(b, p);
      if l.None? then None
      else
        var n := Decode64(b, l.value.1);
        if n.None? then None else Some((DeletedFile(l.value.0, n.value.0), n.value.1))
    else if tag == kNewFile then GetNewFile(b, p)
    else None
  }

  function GetNewFile(b: Bytes, p: nat): (r: Option<(Field, nat)>)
    ensures r.Some? ==> p < r.value.1 <= |b|
  {
    var l := GetLevel(b, p);
    if l.None? then None
    else
      var n := Decode64(b, l.value.1);
      if n.None? then None
      else
        var size := Decode64(b, n.value.1);
        if size.None? then None
        else
          var smallest := GetSlice(b, size.value.1);
          if smallest.None? then None
          else
            var largest := GetSlice(b, smallest.value.1);
            if largest.None? then None
            else Some((NewFile(l.value.0, FileMeta(n.value.0, size.value.0, smallest.value.0, largest.value.0)), largest.value.1))
  }

  lemma LevelReads(b: Bytes, p: nat, l: nat)
    requires l < kNumLevels && HasAt(b, p, Encode(l))
    ensures GetLevel(b, p) == Some((l, p + |Encode(l)|))
  {
    RoundTrip32(b, p, l);
  }

  lemma TagReads(b: Bytes, p: nat, tag: nat, body: Bytes) returns (q: nat)
    requires tag < TWO_32 && HasAt(b, p, Encode(tag) + body)
    ensures q == p + |Encode(tag)| && Decode32(b, p) == Some((tag, q)) && HasAt(b, q, body)
  {
    q := HasParts(b, p, Encode(tag), body);
    RoundTrip32(b, p, tag);
  }

  /** A field is read back, with the position behind it. */
  lemma FieldReads(b: Bytes, p: nat, f: Field) returns (q: nat, end: nat)
    requires FitsField(f) && HasAt(b, p, EncodeField(f))
    ensures end == p + |EncodeField(f)| && Decode32(b, p) == Some((TagOf(f), q)) && GetBody(TagOf(f), b, q) == Some((f, end))
  {
    q := TagReads(b, p, TagOf(f), EncodeBody(f));
    BodyReads(b, q, f);
    end := q + |EncodeBody(f)|;
  }

  /** The body of field `f`, which ends where it should. */
  ghost predicate Read(b: Bytes, q: nat, f: Field) {
    GetBody(TagOf(f), b, q) == Some((f, q + |EncodeBody(f)|))
  }

  lemma BodyReads(b: Bytes, q: nat, f: Field)
    requires FitsField(f) && HasAt(b, q, EncodeBody(f))
    ensures Read(b, q, f)
  {
    match f
    case Comparator(_) => NameReads(b, q, f);
    case Number(_, _) => NumberBodyReads(b, q, f);
    case CompactPointer(_, _) => PointerReads(b, q, f);
    case DeletedFile(_, _) => DeletedReads(b, q, f);
    case NewFile(_, _) => NewFileReads(b, q, f);
  }

  lemma NameReads(b: Bytes, q: nat, f: Field)
    requires f.Comparator? && FitsField(f) && HasAt(b, q, EncodeBody(f))
    ensures Read(b, q, f)
  {
    SliceReads(b, q, f.name);
  }

  lemma NumberBodyReads(b: Bytes, q: nat, f: Field)
    requires f.Number? && FitsField(f) && HasAt(b, q, EncodeBody(f))
    ensures Read(b, q, f)
  {
    RoundTrip64(b, q, f.number);
  }

  lemma PointerReads(b: Bytes, q: nat, f: Field)
    requires f.CompactPointer? && FitsField(f) && HasAt(b, q, EncodeBody(f))
    ensures Read(b, q, f)
  {
    var r := HasParts(b, q, Encode(f.level), LengthPrefixed(f.key));
    LevelReads(b, q, f.level);
    SliceReads(b, r, f.key);
  }

  lemma DeletedReads(b: Bytes, q: nat, f: Field)
    requires f.DeletedFile? && FitsField(f) && HasAt(b, q, EncodeBody(f))
    ensures Read(b, q, f)
  {
    var r := HasParts(b, q, Encode(f.level), Encode(f.number));
    LevelReads(b, q, f.level);
    RoundTrip64(b, r, f.number);
  }

  lemma NewFileReads(b: Bytes, q: nat, f: Field)
    requires f.NewFile? && FitsField(f) && HasAt(b, q, EncodeBody(f))
    ensures Read(b, q, f)
  {
    var m := f.meta;
    var s, l := LengthPrefixed(m.smallest), LengthPrefixed(m.largest);
    var r, t, u := ThreeNumbers(b, q, f.level, m.number, m.size, s + l);
    var v := HasParts(b, u, s, l);
    SliceReads(b, u, m.smallest);
    SliceReads(b, v, m.largest);
    NewFileAt(b, q, f.level, r, m, t, u, v, v + |l|);
  }

  lemma ThreeNumbers(b: Bytes, q: nat, level: nat, number: nat, size: nat, rest: Bytes) returns (r: nat, t: nat, u: nat)
    requires level < kNumLevels && number < TWO_64 && size < TWO_64
    requires HasAt(b, q, Encode(level) + (Encode(number) + (Encode(size) + rest)))
    ensures GetLevel(b, q) == Some((level, r)) && Decode64(b, r) == Some((number, t)) && Decode64(b, t) == Some((size, u))
    ensures HasAt(b, u, rest) && u == q + |Encode(level)| + |Encode(number)| + |Encode(size)|
  {
    r := HasParts(b, q, Encode(level), Encode(number) + (Encode(size) + rest));
    LevelReads(b, q, level);
    t := NumberThen(b, r, number, Encode(size) + rest);
    u := NumberThen(b, t, size, rest);
  }

  lemma NumberThen(b: Bytes, p: nat, n: nat, rest: Bytes) returns (q: nat)
    requires n < TWO_64 && HasAt(b, p, Encode(n) + rest)
    ensures q == p + |Encode(n)| && Decode64(b, p) == Some((n, q)) && HasAt(b, q, rest)
  {
    q := HasParts(b, p, Encode(n), rest);
    RoundTrip64(b, p, n);
  }

  lemma NewFileAt(b: Bytes, q: nat, level: nat, r: nat, m: FileMeta, t: nat, u: nat, v: nat, end: nat)
    requires GetLevel(b, q) == Some((level, r)) && Decode64(b, r) == Some((m.number, t)) && Decode64(b, t) == Some((m.size, u))
    requires GetSlice(b, u) == Some((m.smallest, v)) && GetSlice(b, v) == Some((m.largest, end))
    ensures GetNewFile(b, q) == Some((NewFile(level, m), end))
  {
  }

  // ---------------------------------------------------------------------
  // Whole edits
  // ---------------------------------------------------------------------

  function NumberField(tag: nat, n: Option<nat>): seq<Field> {
    if n.Some? then [Number(tag, n.value)] else []
  }

  /** The fields in the order in which EncodeTo writes them. */
  function Header(e: Edit): seq<Field> {
    (if e.comparator.Some? then [Comparator(e.comparator.value)] else [])
      + NumberField(kLogNumber, e.logNumber) + NumberField(kPrevLogNumber, e.prevLogNumber)
      + NumberField(kNextFileNumber, e.nextFileNumber) + NumberField(kLastSequence, e.lastSequence)
  }

  function Pointers(ps: seq<(nat, Bytes)>): seq<Field> {
    seq(|ps|, i requires 0 <= i < |ps| => CompactPointer(ps[i].0, ps[i].1))
  }

  function Deletions(ds: seq<(nat, nat)>): seq<Field> {
    seq(|ds|, i requires 0 <= i < |ds| => DeletedFile(ds[i].0, ds[i].1))
  }

  function Additions(ns: seq<(nat, FileMeta)>): seq<Field> {
    seq(|ns|, i requires 0 <= i < |ns| => NewFile(ns[i].0, ns[i].1))
  }

  function FieldsOf(e: Edit): seq<Field> {
    Header(e) + Pointers(e.compactPointers) + Deletions(e.deletedFiles) + Additions(e.newFiles)
  }

  function EncodeFields(fs: seq<Field>): Bytes {
    Flat(Each(EncodeField, fs))
  }

  predicate PairLess(a: (nat, nat), b: (nat, nat)) {
    a.0 < b.0 || (a.0 == b.0 && a.1 < b.1)
  }

  /** Insertion into the set of deleted files. */
  function InsertPair(s: seq<(nat, nat)>, x: (nat, nat)): seq<(nat, nat)> {
    if s == [] || PairLess(s[|s| - 1], x) then s + [x]
    else if s[|s| - 1] == x then s
    else InsertPair(s[..|s| - 1], x) + [s[|s| - 1]]
  }

  predicate SortedPairs(s: seq<(nat, nat)>) {
    forall i, j :: 0 <= i < j < |s| ==> PairLess(s[i], s[j])
  }

  /** What a field does to the edit that is read. */
  function ApplyField(e: Edit, f: Field): Edit {
    match f
    case Comparator(name) => e.(comparator := Some(name))
    case Number(tag, n) =>
      if tag == kLogNumber then e.(logNumber := Some(n))
      else if tag == kPrevLogNumber then e.(prevLogNumber := Some(n))
      else if tag == kNextFileNumber then e.(nextFileNumber := Some(n))
      else e.(lastSequence := Some(n))
    case CompactPointer(level, key) => e.(compactPointers := e.compactPointers + [(level, key)])
    case DeletedFile(level, number) => e.(deletedFiles := InsertPair(e.deletedFiles, (level, number)))
    case NewFile(level, m) => e.(newFiles := e.newFiles + [(level, m)])
  }

  function Applied(e: Edit, fs: seq<Field>): Edit
    decreases |fs|
  {
    if fs == [] then e else Applied(ApplyField(e, fs[0]), fs[1..])
  }

  /** Clear forgets everything but the compaction pointers. */
  function Cleared(e: Edit): Edit {
    Fresh.(compactPointers := e.compactPointers)
  }

  /** DecodeFrom, from position `p` on: the edit, and whether the bytes were well formed. */
  function DecodeFields(b: Bytes, p: nat, e: Edit): (Edit, bool)
    decreases |b| - p
  {
    var tag := Decode32(b, p);
    if tag.None? then (e, p >= |b|)
    else
      var body := GetBody(tag.value.0, b, tag.value.1);
      if body.None? then (e, false) else DecodeFields(b, body.value.1, ApplyField(e, body.value.0))
  }

  method DecodeFrom(before: Edit, src: Bytes) returns (e: Edit, ok: bool)
    ensures (e, ok) == DecodeFields(src, 0, Cleared(before))
  {
    e, ok := Cleared(before), true;
    var p := 0;
    var tag := Decode32(src, p);
    while ok && tag.Some?
      invariant 0 <= p && tag == Decode32(src, p)
      invariant if ok then DecodeFields(src, 0, Cleared(before)) == DecodeFields(src, p, e)
                else DecodeFields(src, 0, Cleared(before)) == (e, false)
      decreases ok, |src| - p
    {
      var body := GetBody(tag.value.0, src, tag.value.1);
      if body.None? {
        ok := false;
      } else {
        e := ApplyField(e, body.value.0);
        p := body.value.1;
        tag := Decode32(src, p);
      }
    }
    if ok && p < |src| {
      ok := false;
    }
  }

  method EncodeTo(e: Edit, dst: Bytes) returns (r: Bytes)
    ensures r == dst + EncodeFields(FieldsOf(e))
  {
    r := AppendEach(dst, EncodeField, Header(e));
    r := AppendEach(r, EncodeField, Pointers(e.compactPointers));
    r := AppendEach(r, EncodeField, Deletions(e.deletedFiles));
    r := AppendEach(r, EncodeField, Additions(e.newFiles));
    FourGroups(EncodeField, Header(e), Pointers(e.compactPointers), Deletions(e.deletedFiles), Additions(e.newFiles));
    FourAppended(dst, EncodeFields(Header(e)), EncodeFields(Pointers(e.compactPointers)), EncodeFields(Deletions(e.deletedFiles)),
                 EncodeFields(Additions(e.newFiles)));
  }

  lemma FourAppended(dst: Bytes, a: Bytes, b: Bytes, c: Bytes, d: Bytes)
    ensures dst + a + b + c + d == dst + (a + b + c + d)
  {
  }

  lemma FourGroups(encode: Field -> Bytes, a: seq<Field>, b: seq<Field>, c: seq<Field>, d: seq<Field>)
    ensures Flat(Each(encode, a + b + c + d)) == Flat(Each(encode, a)) + Flat(Each(encode, b)) + Flat(Each(encode, c)) + Flat(Each(encode, d))
  {
    EachConcat(encode, a, b);
    EachConcat(encode, a + b, c);
    EachConcat(encode, a + b + c, d);
  }

  // ---------------------------------------------------------------------
  // The round trip
  // ---------------------------------------------------------------------

  /** Decoding goes through the fields one after another. */
  lemma {:induction false} DecodesFields(b: Bytes, p: nat, fs: seq<Field>, coded: Bytes, e: Edit)
    requires (forall f :: f in fs ==> FitsField(f)) && coded == EncodeFields(fs)
    requires p + |coded| == |b| && HasAt(b, p, coded)
    ensures DecodeFields(b, p, e) == (Applied(e, fs), true)
    decreases |fs|
  {
    if fs != [] {
      var next, rest := FirstAndRest(EncodeField, b, p, fs, coded);
      DecodesFields(b, next, fs[1..], rest, ApplyField(e, fs[0]));
      DecodesOne(b, p, fs[0], next, e);
    }
  }

  lemma {:induction false} DecodesOne(b: Bytes, p: nat, f: Field, next: nat, e: Edit)
    requires FitsField(f) && HasAt(b, p, EncodeField(f)) && next == p + |EncodeField(f)|
    ensures DecodeFields(b, p, e) == DecodeFields(b, next, ApplyField(e, f))
  {
    var q, end := FieldReads(b, p, f);
  }

  predicate FitsEdit(e: Edit) {
    && (forall f :: f in FieldsOf(e) ==> FitsField(f))
    && SortedPairs(e.deletedFiles)
  }

  lemma AppliedConcat(e: Edit, fs: seq<Field>, gs: seq<Field>)
    ensures Applied(e, fs + gs) == Applied(Applied(e, fs), gs)
    decreases |fs|
  {
    if fs == [] {
      assert fs + gs == gs;
    } else {
      AppliedConcat(ApplyField(e, fs[0]), fs[1..], gs);
      assert (fs + gs)[1..] == fs[1..] + gs;
    }
  }

  lemma {:induction false} HeaderApplied(e: Edit, x: Edit)
    requires x == Fresh.(compactPointers := x.compactPointers)
    ensures Applied(x, Header(e)) == e.(compactPointers := x.compactPointers, deletedFiles := [], newFiles := [])
  {
    var a := if e.comparator.Some? then [Comparator(e.comparator.value)] else [];
    AppliedConcat(x, a + NumberField(kLogNumber, e.logNumber) + NumberField(kPrevLogNumber, e.prevLogNumber)
      + NumberField(kNextFileNumber, e.nextFileNumber), NumberField(kLastSequence, e.lastSequence));
    AppliedConcat(x, a + NumberField(kLogNumber, e.logNumber) + NumberField(kPrevLogNumber, e.prevLogNumber),
      NumberField(kNextFileNumber, e.nextFileNumber));
    AppliedConcat(x, a + NumberField(kLogNumber, e.logNumber), NumberField(kPrevLogNumber, e.prevLogNumber));
    AppliedConcat(x, a, NumberField(kLogNumber, e.logNumber));
  }

  lemma {:induction false} PointersApplied(x: Edit, ps: seq<(nat, Bytes)>)
    ensures Applied(x, Pointers(ps)) ==
            x.(compactPointers := x.compactPointers + ps)
    decreases |ps|
  {
    var fs := Pointers(ps);
    if ps == [] {
      assert x.compactPointers + ps == x.compactPointers;
    } else {
      assert fs[1..] == Pointers(ps[1..]);
      PointersApplied(ApplyField(x, fs[0]), ps[1..]);
      assert x.compactPointers + [ps[0]] + ps[1..] == x.compactPointers + ps;
    }
  }

  lemma {:induction false} AdditionsApplied(x: Edit, ns: seq<(nat, FileMeta)>)
    ensures Applied(x, Additions(ns)) == x.(newFiles := x.newFiles + ns)
    decreases |ns|
  {
    var fs := Additions(ns);
    if ns == [] {
      assert x.newFiles + ns == x.newFiles;
    } else {
      assert fs[1..] == Additions(ns[1..]);
      AdditionsApplied(ApplyField(x, fs[0]), ns[1..]);
      assert x.newFiles + [ns[0]] + ns[1..] == x.newFiles + ns;
    }
  }

  /** Pairs that come in order are inserted at the end. */
  lemma {:induction false} DeletionsApplied(x: Edit, ds: seq<(nat, nat)>)
    requires SortedPairs(x.deletedFiles + ds)
    ensures Applied(x, Deletions(ds)) ==
            x.(deletedFiles := x.deletedFiles + ds)
    decreases |ds|
  {
    var fs := Deletions(ds);
    if ds == [] {
      assert x.deletedFiles + ds == x.deletedFiles;
    } else {
      assert fs[1..] == Deletions(ds[1..]);
      assert x.deletedFiles + [ds[0]] + ds[1..] == x.deletedFiles + ds;
      AtEnd(x.deletedFiles, ds);
      DeletionsApplied(ApplyField(x, fs[0]), ds[1..]);
    }
  }

  lemma AtEnd(s: seq<(nat, nat)>, ds: seq<(nat, nat)>)
    requires ds != [] && SortedPairs(s + ds)
    ensures InsertPair(s, ds[0]) == s + [ds[0]]
  {
    if s != [] {
      assert (s + ds)[|s| - 1] == s[|s| - 1] && (s + ds)[|s|] == ds[0];
    }
  }

  /**
   * What was encoded is decoded, except that an edit keeps the compaction pointers it had before. A fresh
   * edit has none, so it ends up as the one that was encoded.
   */
  lemma EditRoundTrip(e: Edit, before: Edit)
    requires FitsEdit(e)
    ensures DecodeFields(EncodeFields(FieldsOf(e)), 0, Cleared(before)) ==
            (e.(compactPointers := before.compactPointers + e.compactPointers), true)
    ensures DecodeFields(EncodeFields(FieldsOf(e)), 0, Cleared(Fresh)) == (e, true)
  {
    FieldsApplied(e, Cleared(before));
    FieldsApplied(e, Cleared(Fresh));
    assert [] + e.compactPointers == e.compactPointers;
    DecodesFields(EncodeFields(FieldsOf(e)), 0, FieldsOf(e), EncodeFields(FieldsOf(e)), Cleared(before));
    DecodesFields(EncodeFields(FieldsOf(e)), 0, FieldsOf(e), EncodeFields(FieldsOf(e)), Cleared(Fresh));
  }

  lemma FieldsApplied(e: Edit, x: Edit)
    requires SortedPairs(e.deletedFiles) && x == Fresh.(compactPointers := x.compactPointers)
    ensures Applied(x, FieldsOf(e)) == e.(compactPointers := x.compactPointers + e.compactPointers)
  {
    AppliedConcat(x, Header(e) + Pointers(e.compactPointers) + Deletions(e.deletedFiles), Additions(e.newFiles));
    AppliedConcat(x, Header(e) + Pointers(e.compactPointers), Deletions(e.deletedFiles));
    AppliedConcat(x, Header(e), Pointers(e.compactPointers));
    HeaderApplied(e, x);
    ListsApplied(e, e.(compactPointers := x.compactPointers, deletedFiles := [], newFiles := []));
  }

  lemma ListsApplied(e: Edit, y: Edit)
    requires SortedPairs(e.deletedFiles) && y.deletedFiles == [] && y.newFiles == []
    ensures Applied(Applied(Applied(y, Pointers(e.compactPointers)), Deletions(e.deletedFiles)), Additions(e.newFiles)) ==
            y.(compactPointers := y.compactPointers + e.compactPointers, deletedFiles := e.deletedFiles, newFiles := e.newFiles)
  {
    PointersApplied(y, e.compactPointers);
    var z := Applied(y, Pointers(e.compactPointers));
    assert z.deletedFiles + e.deletedFiles == e.deletedFiles;
    DeletionsApplied(z, e.deletedFiles);
    var w := Applied(z, Deletions(e.deletedFiles));
    AdditionsApplied(w, e.newFiles);
    assert w.newFiles + e.newFiles == e.newFiles;
  }
}
