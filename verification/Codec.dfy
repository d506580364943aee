/** The metadata formats: files, log records and the superblock. */
module Codec {
  import opened Coding

  type Name = seq<byte>

  datatype Extent = Extent(start: nat, length: nat)

  /** The value of `extent_start_` when a file has no active extent. */
  const NO_EXTENT: nat := 0xFFFF_FFFF_FFFF_FFFF

  /** The persistent part of a ZoneFile. */
  datatype FileMeta = FileMeta(
    id: nat, size: nat, hint: nat, extents: seq<Extent>,
    mtime: nat, extentStart: nat, sparse: bool, links: seq<Name>)

  datatype Record =
    | Snapshot(entries: seq<FileMeta>)
    | Update(file: FileMeta)
    | Replace(file: FileMeta)
    | Deletion(id: nat, name: Name)
    | EndRecord
    | ResetCounts(counts: seq<nat>)

  datatype Result<+T> = Ok(value: T) | Corrupt

  // ---------- file encoding ----------

  const K_FILE_ID: nat := 1
  const K_FILE_SIZE: nat := 3
  const K_HINT: nat := 4
  const K_EXTENT: nat := 5
  const K_MTIME: nat := 6
  const K_ACTIVE_START: nat := 7
  const K_SPARSE: nat := 8
  const K_LINK: nat := 9

  function EncodeExtent(e: Extent): (r: seq<byte>)
    ensures |r| == 16
  {
    PutFixed(8, e.start) + PutFixed(8, e.length)
  }

  function EncodeExtents(es: seq<Extent>): seq<byte> {
    if es == [] then []
    else PutFixed(4, K_EXTENT) + PutSlice(EncodeExtent(es[0])) + EncodeExtents(es[1..])
  }

  function EncodeLinks(ls: seq<Name>): seq<byte> {
    if ls == [] then []
    else PutFixed(4, K_LINK) + PutSlice(ls[0]) + EncodeLinks(ls[1..])
  }

  function EncodeSparse(sparse: bool): seq<byte> {
    if sparse then PutFixed(4, K_SPARSE) else []
  }

  /** ZoneFile::EncodeTo of the extents that `f` carries. A delta carries only the
      extents that are not yet synced (see `Delta`). */
  function EncodeFile(f: FileMeta): seq<byte> {
    PutFixed(4, K_FILE_ID) + (PutFixed(8, f.id) +
    (PutFixed(4, K_FILE_SIZE) + (PutFixed(8, f.size) +
    (PutFixed(4, K_HINT) + (PutFixed(4, f.hint) +
    (EncodeExtents(f.extents) +
    (PutFixed(4, K_MTIME) + (PutFixed(8, f.mtime) +
    (PutFixed(4, K_ACTIVE_START) + (PutFixed(8, f.extentStart) +
    (EncodeSparse(f.sparse) +
    EncodeLinks(f.links))))))))))))
  }

  /** What EncodeUpdateTo writes: everything, but only the extents from `synced` on. */
  function Delta(f: FileMeta, synced: nat): FileMeta
    requires synced <= |f.extents|
  {
    f.(extents := f.extents[synced..])
  }

  function DecodeExtent(s: seq<byte>): Result<Extent> {
    if |s| != 16 then Corrupt
    else Ok(Extent(FixedValue(s[..8]), FixedValue(s[8..])))
  }

  /** What one turn of a decoding loop does. */
  datatype Turn = Done | Bad | Next(rest: seq<byte>, file: FileMeta)

  /** One turn of the tag loop of ZoneFile::DecodeFrom. `isIo` tells whether a device
      offset lies in an IO zone. */
  function DecodeField(s: seq<byte>, f: FileMeta, isIo: nat -> bool): (t: Turn)
    ensures t.Next? ==> |t.rest| < |s|
  {
    match GetFixed(4, s)
    case Short => Done
    case Got(tag, rest) =>
      if tag == K_SPARSE then Next(rest, f.(sparse := true))
      else if tag == K_EXTENT || tag == K_LINK then
        match GetSlice(rest)
        case Short => Bad
        case Got(v, rest') => DecodeSliceField(tag, v, rest', f, isIo)
      else if tag == K_FILE_SIZE || tag == K_HINT || tag == K_MTIME || tag == K_ACTIVE_START then
        match GetFixed(if tag == K_HINT then 4 else 8, rest)
        case Short => Bad
        case Got(v, rest') => Next(rest', SetField(tag, v, f))
      else Bad
  }

  function DecodeSliceField(tag: nat, v: seq<byte>, rest: seq<byte>, f: FileMeta, isIo: nat -> bool): (t: Turn)
    ensures t.Next? ==> t.rest == rest
  {
    if tag == K_LINK then
      if v == [] then Bad else Next(rest, f.(links := f.links + [v]))
    else
      match DecodeExtent(v)
      case Corrupt => Bad
      case Ok(e) => if isIo(e.start) then Next(rest, f.(extents := f.extents + [e])) else Bad
  }

  function SetField(tag: nat, v: nat, f: FileMeta): FileMeta {
    if tag == K_FILE_SIZE then f.(size := v)
    else if tag == K_HINT then f.(hint := v)
    else if tag == K_MTIME then f.(mtime := v)
    else f.(extentStart := v)
  }

  function DecodeFields(s: seq<byte>, f: FileMeta, isIo: nat -> bool): Result<FileMeta>
    decreases |s|
  {
    match DecodeField(s, f, isIo)
    case Done => Ok(f)
    case Bad => Corrupt
    case Next(rest, f') => DecodeFields(rest, f', isIo)
  }

  function BlankFile(id: nat): FileMeta {
    FileMeta(id, 0, 0, [], 0, NO_EXTENT, false, [])
  }

  /** ZoneFile::DecodeFrom on a freshly constructed file. */
  function DecodeFile(s: seq<byte>, isIo: nat -> bool): Result<FileMeta> {
    match GetFixed(4, s)
    case Short => Corrupt
    case Got(tag, rest) =>
      match GetFixed(8, rest)
      case Short => Corrupt
      case Got(id, rest') =>
        if tag != K_FILE_ID then Corrupt else DecodeFields(rest', BlankFile(id), isIo)
  }

  /** The values a file can hold in memory: 64- and 32-bit fields, extents inside IO
      zones, non-empty names. */
  predicate Representable(f: FileMeta, isIo: nat -> bool) {
    && U64(f.id) && U64(f.size) && U32(f.hint) && U64(f.mtime) && U64(f.extentStart)
    && (forall e <- f.extents :: U64(e.start) && U64(e.length) && isIo(e.start))
    && (forall n <- f.links :: 0 < |n| && U32(|n|))
  }

  lemma ExtentRoundTrip(e: Extent)
    requires U64(e.start) && U64(e.length)
    ensures DecodeExtent(EncodeExtent(e)) == Ok(e)
  {
    Pow256Values();
    FixedValueOfPut(8, e.start);
    FixedValueOfPut(8, e.length);
    var s := EncodeExtent(e);
    assert s[..8] == PutFixed(8, e.start) && s[8..] == PutFixed(8, e.length);
  }

  /** A fixed-width field at the front is consumed in one turn. */
  lemma FixedField(tag: nat, v: nat, rest: seq<byte>, f: FileMeta, isIo: nat -> bool)
    requires tag == K_FILE_SIZE || tag == K_HINT || tag == K_MTIME || tag == K_ACTIVE_START
    requires if tag == K_HINT then U32(v) else U64(v)
    ensures var n := if tag == K_HINT then 4 else 8;
            DecodeField(PutFixed(4, tag) + (PutFixed(n, v) + rest), f, isIo) == Next(rest, SetField(tag, v, f))
  {
    Pow256Values();
    var n := if tag == K_HINT then 4 else 8;
    FixedRoundTrip(4, tag, PutFixed(n, v) + rest);
    FixedRoundTrip(n, v, rest);
  }

  /** A length-prefixed field at the front is consumed in one turn. */
  lemma SliceField(tag: nat, v: seq<byte>, rest: seq<byte>, f: FileMeta, isIo: nat -> bool)
    requires tag == K_EXTENT || tag == K_LINK
    requires U32(|v|)
    ensures DecodeField(PutFixed(4, tag) + (PutSlice(v) + rest), f, isIo) == DecodeSliceField(tag, v, rest, f, isIo)
  {
    Pow256Values();
    FixedRoundTrip(4, tag, PutSlice(v) + rest);
    SliceRoundTrip(v, rest);
  }

  lemma FieldTurn(s: seq<byte>, f: FileMeta, rest: seq<byte>, f': FileMeta, isIo: nat -> bool)
    requires DecodeField(s, f, isIo) == Next(rest, f')
    ensures DecodeFields(s, f, isIo) == DecodeFields(rest, f', isIo)
  {
    hide DecodeField;
  }

  lemma {:induction false} DecodeExtents(es: seq<Extent>, rest: seq<byte>, f: FileMeta, isIo: nat -> bool)
    requires forall e <- es :: U64(e.start) && U64(e.length) && isIo(e.start)
    ensures DecodeFields(EncodeExtents(es) + rest, f, isIo)
         == DecodeFields(rest, f.(extents := f.extents + es), isIo)
    decreases |es|
  {
    hide DecodeFields, DecodeField, PutFixed, PutVarint, GetSlice;
    if es == [] {
      assert EncodeExtents(es) + rest == rest;
      assert f.extents + es == f.extents;
    } else {
      var e, tail := es[0], EncodeExtents(es[1..]) + rest;
      assert e in es;
      var f' := f.(extents := f.extents + [e]);
      assert EncodeExtents(es) + rest == PutFixed(4, K_EXTENT) + (PutSlice(EncodeExtent(e)) + tail);
      SliceField(K_EXTENT, EncodeExtent(e), tail, f, isIo);
      ExtentRoundTrip(e);
      FieldTurn(EncodeExtents(es) + rest, f, tail, f', isIo);
      DecodeExtents(es[1..], rest, f', isIo);
      assert f.extents + [e] + es[1..] == f.extents + es;
    }
  }

  lemma NoFields(f: FileMeta, isIo: nat -> bool)
    ensures DecodeFields([], f, isIo) == Ok(f)
  {
  }

  lemma {:induction false} DecodeLinks(ls: seq<Name>, rest: seq<byte>, f: FileMeta, isIo: nat -> bool)
    requires forall n <- ls :: 0 < |n| && U32(|n|)
    ensures DecodeFields(EncodeLinks(ls) + rest, f, isIo) == DecodeFields(rest, f.(links := f.links + ls), isIo)
    decreases |ls|
  {
    hide DecodeFields, DecodeField, PutFixed, PutVarint, GetSlice;
    if ls == [] {
      assert EncodeLinks(ls) + rest == rest;
      assert f.links + ls == f.links;
    } else {
      var tail := EncodeLinks(ls[1..]) + rest;
      assert ls[0] in ls;
      var f' := f.(links := f.links + [ls[0]]);
      assert EncodeLinks(ls) + rest == PutFixed(4, K_LINK) + (PutSlice(ls[0]) + tail);
      SliceField(K_LINK, ls[0], tail, f, isIo);
      FieldTurn(EncodeLinks(ls) + rest, f, tail, f', isIo);
      DecodeLinks(ls[1..], rest, f', isIo);
      assert f.links + [ls[0]] + ls[1..] == f.links + ls;
    }
  }

  /** Decoding an encoded file gives back every field of it. */
  lemma FileRoundTrip(f: FileMeta, isIo: nat -> bool)
    requires Representable(f, isIo)
    ensures DecodeFile(EncodeFile(f), isIo) == Ok(f)
  {
    hide DecodeFile, EncodeFile, Representable;
    FileFields(f, [], isIo);
    assert EncodeFile(f) + [] == EncodeFile(f);
    NoFields(f, isIo);
  }

  /** The fields of a file are taken in, and the loop goes on with what follows. */
  lemma FileFields(f: FileMeta, rest: seq<byte>, isIo: nat -> bool)
    requires Representable(f, isIo)
    ensures DecodeFile(EncodeFile(f) + rest, isIo) == DecodeFields(rest, f, isIo)
  {
    Pow256Values();
    hide DecodeFields, DecodeField, PutFixed, PutVarint, GetSlice, EncodeExtents, EncodeLinks, EncodeSparse, Pow256;
    var tail4 := PutFixed(4, K_MTIME) + (PutFixed(8, f.mtime) +
                 (PutFixed(4, K_ACTIVE_START) + (PutFixed(8, f.extentStart) +
                 (EncodeSparse(f.sparse) + (EncodeLinks(f.links) + rest)))));
    var tail3 := EncodeExtents(f.extents) + tail4;
    var tail2 := PutFixed(4, K_HINT) + (PutFixed(4, f.hint) + tail3);
    var tail1 := PutFixed(4, K_FILE_SIZE) + (PutFixed(8, f.size) + tail2);
    assert EncodeFile(f) + rest == PutFixed(4, K_FILE_ID) + (PutFixed(8, f.id) + tail1);
    FixedRoundTrip(4, K_FILE_ID, PutFixed(8, f.id) + tail1);
    FixedRoundTrip(8, f.id, tail1);
    var f0 := BlankFile(f.id);
    FixedField(K_FILE_SIZE, f.size, tail2, f0, isIo);
    var f1 := f0.(size := f.size);
    FieldTurn(tail1, f0, tail2, f1, isIo);
    FixedField(K_HINT, f.hint, tail3, f1, isIo);
    var f2 := f1.(hint := f.hint);
    FieldTurn(tail2, f1, tail3, f2, isIo);
    DecodeExtents(f.extents, tail4, f2, isIo);
    assert [] + f.extents == f.extents;
    DecodeTail(f, f2.(extents := f.extents), rest, isIo);
  }

  lemma DecodeTail(f: FileMeta, g: FileMeta, rest: seq<byte>, isIo: nat -> bool)
    requires Representable(f, isIo)
    requires g == f.(mtime := 0, extentStart := NO_EXTENT, sparse := false, links := [])
    ensures DecodeFields(PutFixed(4, K_MTIME) + (PutFixed(8, f.mtime) +
                         (PutFixed(4, K_ACTIVE_START) + (PutFixed(8, f.extentStart) +
                         (EncodeSparse(f.sparse) + (EncodeLinks(f.links) + rest))))), g, isIo)
      == DecodeFields(rest, f, isIo)
  {
    hide DecodeFields, DecodeField, PutFixed, PutVarint, GetSlice, EncodeExtents, EncodeLinks, EncodeSparse;
    var tail6 := EncodeSparse(f.sparse) + (EncodeLinks(f.links) + rest);
    var tail5 := PutFixed(4, K_ACTIVE_START) + (PutFixed(8, f.extentStart) + tail6);
    FixedField(K_MTIME, f.mtime, tail5, g, isIo);
    var g1 := g.(mtime := f.mtime);
    FieldTurn(PutFixed(4, K_MTIME) + (PutFixed(8, f.mtime) + tail5), g, tail5, g1, isIo);
    FixedField(K_ACTIVE_START, f.extentStart, tail6, g1, isIo);
    var g2 := g1.(extentStart := f.extentStart);
    FieldTurn(tail5, g1, tail6, g2, isIo);
    DecodeSparseAndLinks(f, g2, rest, isIo);
  }

  lemma DecodeSparseAndLinks(f: FileMeta, g: FileMeta, rest: seq<byte>, isIo: nat -> bool)
    requires Representable(f, isIo)
    requires g == f.(sparse := false, links := [])
    ensures DecodeFields(EncodeSparse(f.sparse) + (EncodeLinks(f.links) + rest), g, isIo) == DecodeFields(rest, f, isIo)
  {
    var tail := EncodeLinks(f.links) + rest;
    var s := EncodeSparse(f.sparse) + tail;
    var g' := g.(sparse := f.sparse);
    Pow256Values();
    if f.sparse {
      FixedRoundTrip(4, K_SPARSE, tail);
      assert DecodeField(s, g, isIo) == Next(tail, g');
      hide DecodeField, EncodeLinks;
      FieldTurn(s, g, tail, g', isIo);
    } else {
      assert s == tail;
    }
    DecodeLinks(f.links, rest, g', isIo);
    assert [] + f.links == f.links;
  }

  // ---------- what is refused ----------

  lemma SliceIsSound(tag: nat, v: seq<byte>, rest: seq<byte>, f: FileMeta, isIo: nat -> bool)
    requires Representable(f, isIo) && U32(|v|)
    ensures var t := DecodeSliceField(tag, v, rest, f, isIo);
      t.Next? ==> Representable(t.file, isIo) && t.file.id == f.id
  {
    Pow256Values();
    if |v| == 16 {
      PutOfFixedValue(v[..8]);
      PutOfFixedValue(v[8..]);
    }
    hide FixedValue, PutFixed, Pow256;
  }

  lemma NumberIsSound(tag: nat, v: nat, f: FileMeta, isIo: nat -> bool)
    requires Representable(f, isIo) && (if tag == K_HINT then U32(v) else U64(v))
    ensures Representable(SetField(tag, v, f), isIo) && SetField(tag, v, f).id == f.id
  {
  }

  lemma FieldIsSound(s: seq<byte>, f: FileMeta, isIo: nat -> bool)
    requires Representable(f, isIo)
    ensures var t := DecodeField(s, f, isIo); t.Next? ==> Representable(t.file, isIo) && t.file.id == f.id
  {
    hide FixedValue, PutFixed, GetSlice, SetField, DecodeSliceField;
    if |s| >= 4 {
      Pow256Values();
      var tag, rest := FixedValue(s[..4]), s[4..];
      if |rest| >= 4 {
        PutOfFixedValue(rest[..4]);
        if tag == K_HINT { NumberIsSound(tag, FixedValue(rest[..4]), f, isIo); }
      }
      if |rest| >= 8 {
        PutOfFixedValue(rest[..8]);
        if tag != K_HINT { NumberIsSound(tag, FixedValue(rest[..8]), f, isIo); }
      }
      match GetSlice(rest) {
        case Short =>
        case Got(v, rest') => SliceIsSound(tag, v, rest', f, isIo);
      }
    }
  }

  lemma {:induction false} FieldsAreSound(s: seq<byte>, f: FileMeta, isIo: nat -> bool)
    requires Representable(f, isIo)
    ensures var r := DecodeFields(s, f, isIo); r.Ok? ==> Representable(r.value, isIo) && r.value.id == f.id
    decreases |s|
  {
    hide Representable, DecodeField;
    FieldIsSound(s, f, isIo);
    match DecodeField(s, f, isIo)
    case Next(rest, g) => FieldsAreSound(rest, g, isIo);
    case _ =>
  }

  /** Whatever bytes are decoded as a file: they begin with its id, its fields have their widths, its
      extents are in IO zones and its names are not empty. */
  lemma FileIsSound(s: seq<byte>, isIo: nat -> bool)
    ensures var r := DecodeFile(s, isIo); r.Ok? ==>
      && Representable(r.value, isIo) && |s| >= 12
      && s[..12] == PutFixed(4, K_FILE_ID) + PutFixed(8, r.value.id)
  {
    if |s| >= 12 {
      Pow256Values();
      PutOfFixedValue(s[..4]);
      PutOfFixedValue(s[4..][..8]);
      assert s[..4] + s[4..][..8] == s[..12];
      hide FixedValue, PutFixed, Pow256, DecodeFields;
      FieldsAreSound(s[4..][8..], BlankFile(FixedValue(s[4..][..8])), isIo);
    }
  }

  /** After the fields of a file, an extent outside of the IO zones, an extent that is not 16 bytes
      long, an empty name, or a field that nobody knows makes the whole file corrupt. */
  lemma BadFieldIsRefused(f: FileMeta, tag: nat, value: seq<byte>, rest: seq<byte>, isIo: nat -> bool)
    requires Representable(f, isIo) && U32(tag) && U32(|value|)
    requires tag !in {K_FILE_SIZE, K_HINT, K_MTIME, K_ACTIVE_START, K_SPARSE}
    requires tag == K_EXTENT ==> |value| != 16 || !isIo(FixedValue(value[..8]))
    requires tag == K_LINK ==> value == []
    ensures DecodeFile(EncodeFile(f) + (PutFixed(4, tag) + (PutSlice(value) + rest)), isIo) == Corrupt
  {
    var s := PutFixed(4, tag) + (PutSlice(value) + rest);
    FileFields(f, s, isIo);
    Pow256Values();
    if tag == K_EXTENT || tag == K_LINK {
      SliceField(tag, value, rest, f, isIo);
    } else {
      FixedRoundTrip(4, tag, PutSlice(value) + rest);
    }
    hide DecodeFile, EncodeFile, PutFixed, PutSlice, Pow256, FixedValue;
  }

  /** A field of a fixed width that is cut off makes the whole file corrupt. */
  lemma ShortFieldIsRefused(f: FileMeta, tag: nat, value: seq<byte>, isIo: nat -> bool)
    requires Representable(f, isIo) && tag in {K_FILE_SIZE, K_HINT, K_MTIME, K_ACTIVE_START}
    requires |value| < if tag == K_HINT then 4 else 8
    ensures DecodeFile(EncodeFile(f) + (PutFixed(4, tag) + value), isIo) == Corrupt
  {
    hide DecodeFile, EncodeFile, PutFixed, FixedValue, Representable, DecodeFields, Pow256;
    FileFields(f, PutFixed(4, tag) + value, isIo);
    Pow256Values();
    FixedRoundTrip(4, tag, value);
    ShortField(PutFixed(4, tag) + value, f, tag, value, isIo);
  }

  lemma ShortField(s: seq<byte>, f: FileMeta, tag: nat, value: seq<byte>, isIo: nat -> bool)
    requires tag in {K_FILE_SIZE, K_HINT, K_MTIME, K_ACTIVE_START} && |value| < if tag == K_HINT then 4 else 8
    requires GetFixed(4, s) == Got(tag, value)
    ensures DecodeFields(s, f, isIo) == Corrupt
  {
    hide FixedValue, GetSlice, SetField, DecodeSliceField;
    assert DecodeField(s, f, isIo) == Bad;
  }

  // ---------- log records ----------

  const K_SNAPSHOT: nat := 1
  const K_UPDATE: nat := 2
  const K_DELETION: nat := 3
  const K_END: nat := 4
  const K_REPLACE: nat := 5
  const K_RESET_COUNT: nat := 6

  function EncodeEntries(fs: seq<FileMeta>): seq<byte> {
    if fs == [] then [] else PutSlice(EncodeFile(fs[0])) + EncodeEntries(fs[1..])
  }

  function EncodeCounts(cs: seq<nat>): seq<byte> {
    if cs == [] then [] else PutFixed(4, cs[0]) + EncodeCounts(cs[1..])
  }

  function EncodeRecord(r: Record): seq<byte> {
    match r
    case Snapshot(fs) => PutFixed(4, K_SNAPSHOT) + PutSlice(EncodeEntries(fs))
    case Update(f) => PutFixed(4, K_UPDATE) + PutSlice(EncodeFile(f))
    case Replace(f) => PutFixed(4, K_REPLACE) + PutSlice(EncodeFile(f))
    case Deletion(id, name) => PutFixed(4, K_DELETION) + PutSlice(PutFixed(8, id) + PutSlice(name))
    case EndRecord => PutFixed(4, K_END)
    case ResetCounts(cs) => PutFixed(4, K_RESET_COUNT) + EncodeCounts(cs)
  }

  /** The loop of DecodeSnapshotFrom that takes one file after the other. */
  function DecodeEntries(s: seq<byte>, isIo: nat -> bool): Result<seq<FileMeta>>
    decreases |s|
  {
    match GetSlice(s)
    case Short => Ok([])
    case Got(d, rest) =>
      match DecodeFile(d, isIo)
      case Corrupt => Corrupt
      case Ok(f) =>
        match DecodeEntries(rest, isIo)
        case Corrupt => Corrupt
        case Ok(fs) => Ok([f] + fs)
  }

  function DecodeCounts(s: seq<byte>, n: nat): Result<seq<nat>> {
    if n == 0 then Ok([])
    else
      match GetFixed(4, s)
      case Short => Corrupt
      case Got(c, rest) =>
        match DecodeCounts(rest, n - 1)
        case Corrupt => Corrupt
        case Ok(cs) => Ok([c] + cs)
  }

  function DecodeDeletion(s: seq<byte>): Result<Record> {
    match GetFixed(8, s)
    case Short => Corrupt
    case Got(id, rest) =>
      match GetSlice(rest)
      case Short => Corrupt
      case Got(name, _) => Ok(Deletion(id, name))
  }

  /** The dispatch of RecoverFrom on one record; `nrIo` is the number of IO zones. A record that has
      no room for a tag ends the log like an end record. */
  function DecodeRecord(s: seq<byte>, isIo: nat -> bool, nrIo: nat): Result<Record> {
    match GetFixed(4, s)
    case Short => Ok(EndRecord)
    case Got(tag, rest) =>
      if tag == K_END then Ok(EndRecord)
      else if tag == K_RESET_COUNT then
        match DecodeCounts(rest, nrIo)
        case Corrupt => Corrupt
        case Ok(cs) => Ok(ResetCounts(cs))
      else
        match GetSlice(rest)
        case Short => Corrupt
        case Got(d, _) => DecodeBody(tag, d, isIo)
  }

  function DecodeBody(tag: nat, d: seq<byte>, isIo: nat -> bool): Result<Record> {
    if tag == K_SNAPSHOT then
      match DecodeEntries(d, isIo)
      case Corrupt => Corrupt
      case Ok(fs) => Ok(Snapshot(fs))
    else if tag == K_UPDATE || tag == K_REPLACE then
      match DecodeFile(d, isIo)
      case Corrupt => Corrupt
      case Ok(f) => Ok(if tag == K_UPDATE then Update(f) else Replace(f))
    else if tag == K_DELETION then DecodeDeletion(d)
    else Corrupt
  }

  predicate RepresentableRecord(r: Record, isIo: nat -> bool, nrIo: nat) {
    match r
    case Snapshot(fs) =>
      (forall f <- fs :: Representable(f, isIo) && U32(|EncodeFile(f)|)) && U32(|EncodeEntries(fs)|)
    case Update(f) => Representable(f, isIo) && U32(|EncodeFile(f)|)
    case Replace(f) => Representable(f, isIo) && U32(|EncodeFile(f)|)
    case Deletion(id, name) => U64(id) && U32(|name|) && U32(|PutFixed(8, id) + PutSlice(name)|)
    case EndRecord => true
    case ResetCounts(cs) => |cs| == nrIo && forall c <- cs :: U32(c)
  }

  lemma {:induction false} EntriesRoundTrip(fs: seq<FileMeta>, isIo: nat -> bool)
    requires forall f <- fs :: Representable(f, isIo) && U32(|EncodeFile(f)|)
    ensures DecodeEntries(EncodeEntries(fs), isIo) == Ok(fs)
    decreases |fs|
  {
    hide EncodeFile, DecodeFile, PutSlice, PutFixed, PutVarint, Representable;
    if fs != [] {
      assert fs[0] in fs;
      SliceRoundTrip(EncodeFile(fs[0]), EncodeEntries(fs[1..]));
      FileRoundTrip(fs[0], isIo);
      EntriesRoundTrip(fs[1..], isIo);
      assert [fs[0]] + fs[1..] == fs;
    }
  }

  lemma {:induction false} CountsRoundTrip(cs: seq<nat>)
    requires forall c <- cs :: U32(c)
    ensures DecodeCounts(EncodeCounts(cs), |cs|) == Ok(cs)
    decreases |cs|
  {
    if cs != [] {
      assert cs[0] in cs;
      Pow256Values();
      FixedRoundTrip(4, cs[0], EncodeCounts(cs[1..]));
      CountsRoundTrip(cs[1..]);
      assert [cs[0]] + cs[1..] == cs;
    }
  }

  lemma DeletionRoundTrip(id: nat, name: Name)
    requires U64(id) && U32(|name|)
    ensures DecodeDeletion(PutFixed(8, id) + PutSlice(name)) == Ok(Deletion(id, name))
  {
    Pow256Values();
    FixedRoundTrip(8, id, PutSlice(name));
    SliceRoundTrip(name, []);
    assert PutSlice(name) + [] == PutSlice(name);
  }

  lemma EntryTurn(d: seq<byte>, rest: seq<byte>, isIo: nat -> bool)
    requires U32(|d|)
    ensures var f, r := DecodeFile(d, isIo), DecodeEntries(PutSlice(d) + rest, isIo);
      if f.Corrupt? || DecodeEntries(rest, isIo).Corrupt? then r == Corrupt
      else r == Ok([f.value] + DecodeEntries(rest, isIo).value)
  {
    hide DecodeFile, GetSlice, PutSlice;
    SliceRoundTrip(d, rest);
  }

  /** A snapshot with an entry that is corrupt is corrupt. */
  lemma {:induction false} BadEntryIsRefused(fs: seq<FileMeta>, bad: seq<byte>, rest: seq<byte>, isIo: nat -> bool)
    requires forall f <- fs :: Representable(f, isIo) && U32(|EncodeFile(f)|)
    requires U32(|bad|) && DecodeFile(bad, isIo) == Corrupt
    ensures DecodeEntries(EncodeEntries(fs) + (PutSlice(bad) + rest), isIo) == Corrupt
    decreases |fs|
  {
    hide EncodeFile, DecodeFile, PutSlice, Representable, DecodeEntries, U32;
    var s := EncodeEntries(fs) + (PutSlice(bad) + rest);
    if fs == [] {
      EntryTurn(bad, rest, isIo);
      assert s == PutSlice(bad) + rest;
    } else {
      assert fs[0] in fs;
      var tail := EncodeEntries(fs[1..]) + (PutSlice(bad) + rest);
      EntryTurn(EncodeFile(fs[0]), tail, isIo);
      BadEntryIsRefused(fs[1..], bad, rest, isIo);
      assert s == PutSlice(EncodeFile(fs[0])) + tail;
    }
  }

  lemma {:induction false} EntriesAreSound(s: seq<byte>, isIo: nat -> bool)
    ensures var r := DecodeEntries(s, isIo); r.Ok? ==> forall f <- r.value :: Representable(f, isIo)
    decreases |s|
  {
    hide DecodeFile, GetSlice, Representable, PutFixed;
    match GetSlice(s)
    case Short =>
    case Got(d, rest) =>
      FileIsSound(d, isIo);
      EntriesAreSound(rest, isIo);
  }

  /** Reset counts are accepted if and only if there is one for every IO zone. */
  lemma {:induction false} CountsIff(s: seq<byte>, n: nat)
    ensures var r := DecodeCounts(s, n);
      && (r.Ok? <==> |s| >= 4 * n)
      && (r.Ok? ==> |r.value| == n && (forall c <- r.value :: U32(c)) && EncodeCounts(r.value) == s[..4 * n])
    decreases n
  {
    if n > 0 && |s| >= 4 {
      Pow256Values();
      PutOfFixedValue(s[..4]);
      CountsIff(s[4..], n - 1);
      hide PutFixed, FixedValue, Pow256;
      if |s| >= 4 * n {
        var cs := DecodeCounts(s[4..], n - 1).value;
        var all := DecodeCounts(s, n).value;
        assert all[1..] == cs && s[..4] + s[4..][..4 * (n - 1)] == s[..4 * n];
      }
    }
  }

  function Kind(r: Record): nat {
    match r
    case Snapshot(_) => 1
    case Update(_) => 2
    case Deletion(_, _) => 3
    case EndRecord => 4
    case Replace(_) => 5
    case ResetCounts(_) => 6
  }

  predicate Decodable(r: Record, isIo: nat -> bool, nrIo: nat) {
    match r
    case Snapshot(fs) => forall f <- fs :: Representable(f, isIo)
    case Update(f) => Representable(f, isIo)
    case Replace(f) => Representable(f, isIo)
    case Deletion(id, name) => U64(id) && U32(|name|)
    case EndRecord => true
    case ResetCounts(cs) => |cs| == nrIo && forall c <- cs :: U32(c)
  }

  /** Whatever bytes are decoded as a record begin with its tag, and every field of the record has
      its width, every extent is in an IO zone: a record with another tag is refused. */
  lemma RecordIsSound(s: seq<byte>, isIo: nat -> bool, nrIo: nat)
    ensures var r := DecodeRecord(s, isIo, nrIo); r.Ok? ==>
      && Decodable(r.value, isIo, nrIo)
      && (if |s| < 4 then r.value == EndRecord else s[..4] == PutFixed(4, Kind(r.value)))
  {
    hide PutFixed, GetSlice, DecodeBody, DecodeCounts, EncodeCounts, Representable;
    if |s| >= 4 {
      PutOfFixedValue(s[..4]);
      CountsIff(s[4..], nrIo);
      match GetSlice(s[4..]) {
        case Short =>
        case Got(d, _) => BodyIsSound(FixedValue(s[..4]), d, isIo, nrIo);
      }
    }
  }

  lemma BodyIsSound(tag: nat, d: seq<byte>, isIo: nat -> bool, nrIo: nat)
    ensures var r := DecodeBody(tag, d, isIo); r.Ok? ==> Decodable(r.value, isIo, nrIo) && Kind(r.value) == tag
  {
    hide PutFixed, DecodeFile, DecodeEntries, Representable, GetSlice;
    FileIsSound(d, isIo);
    EntriesAreSound(d, isIo);
    Pow256Values();
    if |d| >= 8 { PutOfFixedValue(d[..8]); }
  }

  /** The records that carry their payload as one slice. */
  lemma SliceRecord(tag: nat, d: seq<byte>, isIo: nat -> bool, nrIo: nat)
    requires U32(tag) && tag != K_END && tag != K_RESET_COUNT && U32(|d|)
    ensures DecodeRecord(PutFixed(4, tag) + PutSlice(d), isIo, nrIo) == DecodeBody(tag, d, isIo)
  {
    Pow256Values();
    hide PutFixed, PutSlice, DecodeBody, Pow256;
    FixedRoundTrip(4, tag, PutSlice(d));
    SliceRoundTrip(d, []);
    assert PutSlice(d) + [] == PutSlice(d);
  }

  lemma PlainRecord(r: Record, isIo: nat -> bool, nrIo: nat)
    requires r.EndRecord? || r.ResetCounts?
    requires RepresentableRecord(r, isIo, nrIo)
    ensures DecodeRecord(EncodeRecord(r), isIo, nrIo) == Ok(r)
  {
    Pow256Values();
    hide PutFixed, PutSlice, DecodeBody, Pow256, EncodeCounts, DecodeCounts;
    if r.EndRecord? {
      FixedRoundTrip(4, K_END, []);
      assert PutFixed(4, K_END) + [] == PutFixed(4, K_END);
    } else {
      FixedRoundTrip(4, K_RESET_COUNT, EncodeCounts(r.counts));
      CountsRoundTrip(r.counts);
    }
  }

  /** Every record that the file system writes is read back as itself. */
  lemma RecordRoundTrip(r: Record, isIo: nat -> bool, nrIo: nat)
    requires RepresentableRecord(r, isIo, nrIo)
    ensures DecodeRecord(EncodeRecord(r), isIo, nrIo) == Ok(r)
  {
    hide PutFixed, PutVarint, PutSlice, EncodeFile, DecodeFile, EncodeEntries, DecodeEntries, DecodeDeletion,
      DecodeRecord;
    match r
    case Snapshot(fs) =>
      SliceRecord(K_SNAPSHOT, EncodeEntries(fs), isIo, nrIo);
      EntriesRoundTrip(fs, isIo);
    case Update(f) =>
      SliceRecord(K_UPDATE, EncodeFile(f), isIo, nrIo);
      FileRoundTrip(f, isIo);
    case Replace(f) =>
      SliceRecord(K_REPLACE, EncodeFile(f), isIo, nrIo);
      FileRoundTrip(f, isIo);
    case Deletion(id, name) =>
      SliceRecord(K_DELETION, PutFixed(8, id) + PutSlice(name), isIo, nrIo);
      DeletionRoundTrip(id, name);
    case _ => PlainRecord(r, isIo, nrIo);
  }
}
