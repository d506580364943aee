/** The bytes of a metadata zone: a superblock and log records, each in its frame; and how much
    room they leave. */
module LogSpace {
  import opened Coding
  import opened Blocks
  import opened Codec
  import opened MetaLog
  import SuperblockCodec

  function Encoded(log: seq<Record>): (r: seq<seq<byte>>)
    ensures |r| == |log| && forall i :: 0 <= i < |log| ==> r[i] == EncodeRecord(log[i])
  {
    seq(|log|, i requires 0 <= i < |log| => EncodeRecord(log[i]))
  }

  /** What is on a metadata zone. */
  function ZoneBytes(fmt: Format, super: seq<byte>, log: seq<Record>): seq<byte>
    requires fmt.bs > 0
  {
    Frames(fmt, [super] + Encoded(log))
  }

  /** The length of the superblock and of the records, with their headers and padding. */
  function Taken(fmt: Format, log: seq<Record>): nat
    requires fmt.bs > 0
  {
    RoundUp(HEADER_SIZE + SuperblockCodec.ENCODED_SIZE, fmt.bs) + |Frames(fmt, Encoded(log))|
  }

  /** The record fits behind the superblock and the log. */
  predicate Room(fmt: Format, log: seq<Record>, rec: Record) {
    fmt.bs > 0 && Taken(fmt, log) + RoundUp(HEADER_SIZE + |EncodeRecord(rec)|, fmt.bs) <= fmt.capacity
  }

  /** The snapshot of a roll fits behind the superblock of an empty zone. */
  predicate SnapshotFits(fmt: Format, entries: seq<FileMeta>) { Room(fmt, [], Snapshot(entries)) }

  lemma {:induction false} ExtentsTakeRoom(es: seq<Extent>)
    ensures |EncodeExtents(es)| >= |es|
  {
    hide EncodeExtent;
    if es != [] { ExtentsTakeRoom(es[1..]); }
  }

  /** A snapshot with a file of more extents than a zone has bytes does not fit in the zone. */
  lemma ManyExtentsTakeRoom(fmt: Format, f: FileMeta)
    requires |f.extents| > fmt.capacity
    ensures fmt.bs == 0 || !SnapshotFits(fmt, [f])
  {
    hide PutVarint, PutFixed, RoundUp, EncodeLinks, EncodeExtents;
    ExtentsTakeRoom(f.extents);
    assert |EncodeFile(f)| >= |EncodeExtents(f.extents)|;
    hide EncodeFile;
    assert [f][1..] == [] && EncodeEntries([f][1..]) == [];
    assert |EncodeEntries([f])| >= |EncodeFile(f)|;
    assert |EncodeRecord(Snapshot([f]))| >= |EncodeFile(f)|;
    assert Encoded([]) == [];
  }

  lemma FramesAppend(fmt: Format, recs: seq<seq<byte>>, rec: seq<byte>)
    requires fmt.bs > 0
    ensures Frames(fmt, recs + [rec]) == Frames(fmt, recs) + Frame(fmt, rec)
  {
    assert (recs + [rec])[..|recs|] == recs;
  }

  /** The write pointer of a zone is behind what is taken. */
  lemma {:induction false} TakenIsLength(fmt: Format, super: seq<byte>, log: seq<Record>)
    requires fmt.bs > 0 && |super| == SuperblockCodec.ENCODED_SIZE
    ensures |ZoneBytes(fmt, super, log)| == Taken(fmt, log)
    decreases |log|
  {
    hide RoundUp, EncodeRecord, Frame;
    if log == [] {
      FramesAppend(fmt, [], super);
      assert [super] + Encoded([]) == [] + [super];
    } else {
      var n := |log| - 1;
      TakenIsLength(fmt, super, log[..n]);
      AppendBytes(fmt, super, log[..n], log[n]);
      assert log[..n] + [log[n]] == log;
    }
  }

  /** An appended record makes the bytes and the taken length longer by its frame. */
  lemma AppendBytes(fmt: Format, super: seq<byte>, log: seq<Record>, rec: Record)
    requires fmt.bs > 0
    ensures ZoneBytes(fmt, super, log + [rec]) == ZoneBytes(fmt, super, log) + Frame(fmt, EncodeRecord(rec))
    ensures Taken(fmt, log + [rec]) == Taken(fmt, log) + |Frame(fmt, EncodeRecord(rec))|
  {
    hide RoundUp, EncodeRecord, Frame;
    var e := Encoded(log);
    assert Encoded(log + [rec]) == e + [EncodeRecord(rec)];
    assert [super] + (e + [EncodeRecord(rec)]) == [super] + e + [EncodeRecord(rec)];
    FramesAppend(fmt, [super] + e, EncodeRecord(rec));
    FramesAppend(fmt, e, EncodeRecord(rec));
  }

  /** PersistRecord's call of AddRecord: on a zone with this superblock and log, the record is
      appended if and only if there is room for it. */
  method AddToLog(zone: ZenMetaLog, ghost super: seq<byte>, ghost log: seq<Record>, rec: Record) returns (ok: bool)
    requires zone.Valid() && |super| == SuperblockCodec.ENCODED_SIZE && zone.fmt.bs > 0
    requires zone.data == ZoneBytes(zone.fmt, super, log) && U32(|EncodeRecord(rec)|)
    modifies zone
    ensures zone.Valid()
    ensures ok <==> Room(zone.fmt, log, rec)
    ensures zone.data == ZoneBytes(zone.fmt, super, if ok then log + [rec] else log)
  {
    hide RoundUp, EncodeRecord, Taken, ZoneBytes;
    TakenIsLength(zone.fmt, super, log);
    AppendBytes(zone.fmt, super, log, rec);
    ok := zone.AddRecord(EncodeRecord(rec));
  }
}
