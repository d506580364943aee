/** From bytes to a mounted file table: what is on the metadata zones is read record by record,
    decoded and replayed, and gives what the state machine of the metadata zones says. */
module MountImage {
  import opened Coding
  import opened Blocks
  import opened Codec
  import opened MetaLog
  import opened LogSpace
  import opened Replay
  import opened MetaRoll
  import S = SuperblockCodec

  /** How a device is laid out: its metadata zones, which addresses are in IO zones and how many of
      these there are, and the size and the number of all zones. */
  datatype Device = Device(fmt: Format, isIo: nat -> bool, nrIo: nat, zoneSize: nat, nrZones: nat)

  /** All records from a position of a zone to the end of the log, or to the first one that ends it. */
  function DecodeLog(dev: Device, data: seq<byte>, pos: nat): Result<seq<Record>>
    requires dev.fmt.bs > 0
    decreases if pos < |data| then |data| - pos else 0
  {
    match NextRecord(dev.fmt, data, pos)
    case Eof => Ok([])
    case Invalid => Corrupt
    case Rec(body, next) =>
      if next <= pos then Corrupt
      else
        match DecodeRecord(body, dev.isIo, dev.nrIo)
        case Corrupt => Corrupt
        case Ok(rec) =>
          if rec.EndRecord? then Ok([rec])
          else
            match DecodeLog(dev, data, next)
            case Corrupt => Corrupt
            case Ok(rest) => Ok([rec] + rest)
  }

  /** What Mount makes of a metadata zone: it passes over a zone without a record, or with a damaged
      one, in the place of the superblock; it gives up at another superblock than that of this device. */
  datatype ZoneRead = Skipped | Refused | Readable(sequence: nat, log: Result<seq<Record>>)

  /** Superblock::CompatibleWith. */
  predicate Compatible(dev: Device, b: S.Superblock) {
    b.blockSize == dev.fmt.bs && dev.fmt.bs > 0 && b.zoneSize == dev.zoneSize / dev.fmt.bs && b.nrZones <= dev.nrZones
  }

  /** A metadata zone, from its bytes. */
  function DecodeZone(dev: Device, data: seq<byte>): ZoneRead
    requires dev.fmt.bs > 0
  {
    match NextRecord(dev.fmt, data, 0)
    case Eof => Skipped
    case Invalid => Skipped
    case Rec(body, next) =>
      if body == [] then Skipped
      else
        match S.Decode(body)
        case Valid(super) =>
          if Compatible(dev, super) then Readable(super.sequence, DecodeLog(dev, data, next)) else Refused
        case _ => Refused
  }

  /** The reads of Mount and RecoverFrom on one zone. */
  method ReadZone(zone: ZenMetaLog, dev: Device) returns (r: ZoneRead)
    requires zone.Valid() && zone.readPos == zone.start && zone.fmt == dev.fmt && dev.fmt.bs > 0
    modifies zone`readPos
    ensures r == DecodeZone(dev, zone.data)
  {
    hide NextRecord, DecodeRecord, Aligned;
    var first := zone.ReadRecord();
    if !first.Rec? || first.body == [] {
      return Skipped;
    }
    var super := S.Decode(first.body);
    if !super.Valid? || !Compatible(dev, super.block) {
      return Refused;
    }
    assert zone.readPos - zone.start == first.next;
    var log := ReadLog(zone, dev);
    return Readable(super.block.sequence, log);
  }

  /** The loop of RecoverFrom, which reads and decodes record by record up to the end of the log. */
  method ReadLog(zone: ZenMetaLog, dev: Device) returns (r: Result<seq<Record>>)
    requires zone.Valid() && zone.fmt == dev.fmt && dev.fmt.bs > 0
    modifies zone`readPos
    ensures r == DecodeLog(dev, zone.data, old(zone.readPos) - zone.start)
  {
    hide NextRecord, DecodeRecord, Aligned;
    ghost var data := zone.data;
    var log: seq<Record> := [];
    ghost var all := DecodeLog(dev, data, zone.readPos - zone.start);
    assert all.Ok? ==> log + all.value == all.value;
    while true
      invariant zone.Valid() && zone.data == data
      invariant all == After(log, DecodeLog(dev, data, zone.readPos - zone.start))
      decreases if zone.readPos - zone.start < |data| then |data| - (zone.readPos - zone.start) else 0
    {
      ghost var pos := zone.readPos - zone.start;
      NextIsFurther(dev.fmt, data, pos);
      var next := zone.ReadRecord();
      if next.Eof? {
        assert log + [] == log;
        return Ok(log);
      }
      if next.Invalid? {
        return Corrupt;
      }
      var rec := DecodeRecord(next.body, dev.isIo, dev.nrIo);
      if rec.Corrupt? {
        return Corrupt;
      }
      if rec.value.EndRecord? {
        return Ok(log + [rec.value]);
      }
      AfterOne(log, rec.value, DecodeLog(dev, data, next.next));
      log := log + [rec.value];
    }
  }

  function After(log: seq<Record>, rest: Result<seq<Record>>): Result<seq<Record>> {
    match rest
    case Corrupt => Corrupt
    case Ok(records) => Ok(log + records)
  }

  lemma AfterOne(log: seq<Record>, rec: Record, rest: Result<seq<Record>>)
    ensures After(log, if rest.Corrupt? then Corrupt else Ok([rec] + rest.value)) == After(log + [rec], rest)
  {
    if rest.Ok? { assert log + ([rec] + rest.value) == log + [rec] + rest.value; }
  }

  lemma NextIsFurther(fmt: Format, data: seq<byte>, pos: nat)
    requires fmt.bs > 0
    ensures var r := NextRecord(fmt, data, pos);
      r.Rec? ==> pos < |data| && pos < r.next
  {
  }

  // ---------- damage ----------

  /** The record ends the log. */
  predicate Ends(dev: Device, rec: seq<byte>) { DecodeRecord(rec, dev.isIo, dev.nrIo) == Ok(EndRecord) }

  /** A log in which a block that begins a record is damaged is corrupt as a whole, whatever stands
      before it and behind it, if none of the records before it ends the log; and a zone in which the
      first block is damaged is passed over. */
  lemma DamagedZone(dev: Device, data: seq<byte>, recs: seq<seq<byte>>)
    requires dev.fmt.Valid() && Aligned(|data|, dev.fmt.bs) && |data| <= dev.fmt.capacity && Loggable(recs)
    requires Frames(dev.fmt, recs) <= data && Damaged(dev.fmt, data, |Frames(dev.fmt, recs)|)
    requires forall k :: 1 <= k < |recs| ==> !Ends(dev, recs[k])
    ensures recs == [] ==> DecodeZone(dev, data) == Skipped
    ensures recs != [] ==> DecodeZone(dev, data) == match S.Decode(recs[0])
      case Valid(super) => if Compatible(dev, super) then Readable(super.sequence, Corrupt) else Refused
      case _ => Refused
  {
    hide NextRecord, Frame, Frames, Aligned, DecodeLog, Ends, Compatible;
    if recs == [] {
      NoFrames(dev.fmt, recs);
      FramesAligned(dev.fmt, recs);
      DamagedIff(dev.fmt, data, 0);
    } else {
      assert recs[0] in recs;
      PrefixRead(dev.fmt, data, recs, 0);
      NoFrames(dev.fmt, recs[..0]);
      DamagedLog(dev, data, recs, 1);
    }
  }

  /** A superblock is refused if and only if it is not of this file system or not of this device. */
  lemma RefusedIff(dev: Device, data: seq<byte>, b: S.Superblock)
    requires dev.fmt.Valid() && S.Representable(b) && |data| <= dev.fmt.capacity
    requires Frame(dev.fmt, S.Layout(b)) <= data
    ensures DecodeZone(dev, data) == Refused <==>
      || b.magic != S.MAGIC || b.version != S.CURRENT_VERSION
      || b.blockSize != dev.fmt.bs || b.zoneSize != dev.zoneSize / dev.fmt.bs || b.nrZones > dev.nrZones
    ensures DecodeZone(dev, data) in {Refused,
      Readable(b.sequence, DecodeLog(dev, data, |Frame(dev.fmt, S.Layout(b))|))}
  {
    hide NextRecord, Frame, DecodeLog, S.Layout, S.Decode, S.Representable;
    S.LayoutRoundTrip(b);
    var f := Frame(dev.fmt, S.Layout(b));
    assert data[0..0 + |f|] == f;
    FrameRoundTrip(dev.fmt, data, 0, S.Layout(b));
  }

  lemma NoFrames(fmt: Format, recs: seq<seq<byte>>)
    requires fmt.bs > 0 && recs == []
    ensures Frames(fmt, recs) == []
  {
  }

  lemma {:induction false} DamagedLog(dev: Device, data: seq<byte>, recs: seq<seq<byte>>, k: nat)
    requires dev.fmt.Valid() && Aligned(|data|, dev.fmt.bs) && |data| <= dev.fmt.capacity && Loggable(recs)
    requires Frames(dev.fmt, recs) <= data && Damaged(dev.fmt, data, |Frames(dev.fmt, recs)|)
    requires 1 <= k <= |recs| && forall i :: 1 <= i < |recs| ==> !Ends(dev, recs[i])
    ensures DecodeLog(dev, data, |Frames(dev.fmt, recs[..k])|) == Corrupt
    decreases |recs| - k
  {
    hide NextRecord, Frame, Frames, Aligned, DecodeRecord;
    if k == |recs| {
      assert recs[..k] == recs;
      FramesAligned(dev.fmt, recs);
      DamagedIff(dev.fmt, data, |Frames(dev.fmt, recs)|);
    } else {
      PrefixRead(dev.fmt, data, recs, k);
      DamagedLog(dev, data, recs, k + 1);
    }
  }

  // ---------- zones that were written ----------

  /** The log has an end record, behind which nothing counts. */
  predicate Ended(log: seq<Record>) { log != [] && log[|log| - 1].EndRecord? }

  /** Records that can be encoded; only the last one may be an end record. */
  predicate Writable(dev: Device, log: seq<Record>) {
    && (forall rec <- log :: RepresentableRecord(rec, dev.isIo, dev.nrIo) && 0 < |EncodeRecord(rec)| &&
          U32(|EncodeRecord(rec)|))
    && forall i :: 0 <= i < |log| - 1 ==> !log[i].EndRecord?
  }

  /** The bytes of a zone that was written with a superblock and these records. Behind an end record
      there may be anything, as in a zone that was finished. */
  ghost predicate Image(dev: Device, data: seq<byte>, z: MetaZone) {
    && dev.fmt.Valid()
    && match z
       case Blank => data == []
       case Zone(sequence, log) =>
         && Writable(dev, log) && |data| <= dev.fmt.capacity
         && exists b: S.Superblock :: ImageOf(dev, data, sequence, log, b)
  }

  predicate ImageOf(dev: Device, data: seq<byte>, sequence: nat, log: seq<Record>, b: S.Superblock)
    requires dev.fmt.bs > 0
  {
    && S.Representable(b) && b.magic == S.MAGIC && b.version == S.CURRENT_VERSION && b.sequence == sequence
    && Compatible(dev, b)
    && var written := ZoneBytes(dev.fmt, S.Layout(b), log);
      if Ended(log) then written <= data else data == written
  }

  lemma ZoneLoggable(dev: Device, super: seq<byte>, log: seq<Record>)
    requires Writable(dev, log) && |super| == S.ENCODED_SIZE
    ensures Loggable([super] + Encoded(log))
  {
    hide EncodeRecord;
    var recs := [super] + Encoded(log);
    forall i | 0 <= i < |recs|
      ensures 0 < |recs[i]| && U32(|recs[i]|)
    {
      if i > 0 { assert log[i - 1] in log; }
    }
  }

  lemma {:induction false} LogOfImage(dev: Device, data: seq<byte>, super: seq<byte>, log: seq<Record>, k: nat)
    requires dev.fmt.Valid() && Writable(dev, log) && |super| == S.ENCODED_SIZE && k <= |log|
    requires ZoneBytes(dev.fmt, super, log) <= data && |data| <= dev.fmt.capacity
    requires Ended(log) || data == ZoneBytes(dev.fmt, super, log)
    requires k == |log| ==> !Ended(log)
    ensures DecodeLog(dev, data, |Frames(dev.fmt, ([super] + Encoded(log))[..k + 1])|) == Ok(log[k..])
    decreases |log| - k
  {
    hide EncodeRecord, DecodeRecord, NextRecord, RepresentableRecord, Frames, Frame, Aligned;
    var recs := [super] + Encoded(log);
    var pos := |Frames(dev.fmt, recs[..k + 1])|;
    ZoneLoggable(dev, super, log);
    if k == |log| {
      LogRoundTrip(dev.fmt, recs, k + 1);
    } else {
      PrefixRead(dev.fmt, data, recs, k + 1);
      assert log[k] in log && recs[k + 1] == EncodeRecord(log[k]);
      RecordRoundTrip(log[k], dev.isIo, dev.nrIo);
      NextIsFurther(dev.fmt, data, pos);
      if log[k].EndRecord? {
        assert log[k..] == [log[k]];
      } else {
        LogOfImage(dev, data, super, log, k + 1);
        assert [log[k]] + log[k + 1..] == log[k..];
      }
    }
  }

  /** What was written to a zone is what is read from it, also when the zone was finished behind its
      end record. */
  lemma ZoneRoundTrip(dev: Device, data: seq<byte>, z: MetaZone)
    requires Image(dev, data, z)
    ensures dev.fmt.bs > 0
    ensures DecodeZone(dev, data) == if z.Blank? then Skipped else Readable(z.sequence, Ok(z.log))
  {
    hide EncodeRecord, NextRecord, Frame, Frames, Aligned, Encoded, DecodeLog, Compatible, Writable, S.Layout, S.Decode,
      S.Representable, Loggable, RoundUp;
    if z.Blank? {
      NothingThere(dev.fmt);
    } else {
      var b: S.Superblock :| ImageOf(dev, data, z.sequence, z.log, b);
      S.LayoutRoundTrip(b);
      var recs := [S.Layout(b)] + Encoded(z.log);
      ZoneLoggable(dev, S.Layout(b), z.log);
      NoFrames(dev.fmt, recs[..0]);
      PrefixRead(dev.fmt, data, recs, 0);
      LogOfImage(dev, data, S.Layout(b), z.log, 0);
      assert z.log[0..] == z.log;
    }
  }

  lemma NothingThere(fmt: Format)
    requires fmt.bs > 0
    ensures NextRecord(fmt, [], 0) == Eof
  {
  }

  /** An image grows by the frame of a record. */
  lemma ImageAppend(dev: Device, data: seq<byte>, z: MetaZone, rec: Record)
    requires Image(dev, data, z) && z.Zone? && Room(dev.fmt, z.log, rec) && !Ended(z.log)
    requires RepresentableRecord(rec, dev.isIo, dev.nrIo) && 0 < |EncodeRecord(rec)| && U32(|EncodeRecord(rec)|)
    ensures Image(dev, data + Frame(dev.fmt, EncodeRecord(rec)), z.(log := z.log + [rec]))
  {
    hide EncodeRecord, RepresentableRecord, ZoneBytes, RoundUp, Aligned, Compatible;
    var b: S.Superblock :| ImageOf(dev, data, z.sequence, z.log, b);
    S.LayoutRoundTrip(b);
    AppendBytes(dev.fmt, S.Layout(b), z.log, rec);
    TakenIsLength(dev.fmt, S.Layout(b), z.log);
    TakenIsLength(dev.fmt, S.Layout(b), z.log + [rec]);
    assert ImageOf(dev, data + Frame(dev.fmt, EncodeRecord(rec)), z.sequence, z.log + [rec], b);
  }

  /** Finishing a zone behind its end record leaves it an image of the same log. */
  lemma ImageFinish(dev: Device, data: seq<byte>, z: MetaZone, rest: seq<byte>)
    requires Image(dev, data, z) && z.Zone? && Ended(z.log) && |data + rest| <= dev.fmt.capacity
    ensures Image(dev, data + rest, z)
  {
    hide ZoneBytes, Compatible;
    var b: S.Superblock :| ImageOf(dev, data, z.sequence, z.log, b);
    assert ImageOf(dev, data + rest, z.sequence, z.log, b);
  }

  // ---------- mount ----------

  /** The records of a log that cannot be read to its end. */
  const UNREADABLE: seq<Record> := [Deletion(0, [])]

  /** A zone, as the search of Mount sees it. */
  function Seen(r: ZoneRead): MetaZone {
    match r
    case Readable(sequence, log) => Zone(sequence, if log.Ok? then log.value else UNREADABLE)
    case _ => Blank
  }

  function AllSeen(dev: Device, data: seq<seq<byte>>): (zones: seq<MetaZone>)
    requires dev.fmt.bs > 0
    ensures |zones| == |data| && forall i :: 0 <= i < |data| ==> zones[i] == Seen(DecodeZone(dev, data[i]))
  {
    seq(|data|, i requires 0 <= i < |data| => Seen(DecodeZone(dev, data[i])))
  }

  /** Recovery from a zone succeeds if and only if its log can be read and replayed, and has a
      snapshot; it fails for good if the log cannot be read. */
  lemma SeenRecovers(r: ZoneRead)
    ensures var z := Recover(Seen(r));
      if r.Readable? then z == if r.log.Ok? then Outcome(Fold(r.log.value)) else Corrupted
      else z == NotFound
  {
    assert Fold([]) == START;
    assert UNREADABLE[..0] == [];
    assert Fold(UNREADABLE) == Step(START, UNREADABLE[0]);
  }

  ghost predicate Images(dev: Device, data: seq<seq<byte>>, zones: seq<MetaZone>) {
    |data| == |zones| && forall i :: 0 <= i < |zones| ==> Image(dev, data[i], zones[i])
  }

  lemma ImagesSeen(dev: Device, data: seq<seq<byte>>, zones: seq<MetaZone>)
    requires dev.fmt.bs > 0 && Images(dev, data, zones)
    ensures AllSeen(dev, data) == zones
    ensures forall i :: 0 <= i < |data| ==> DecodeZone(dev, data[i]) != Refused
  {
    hide Image, DecodeZone;
    forall i | 0 <= i < |data|
      ensures Seen(DecodeZone(dev, data[i])) == zones[i] && DecodeZone(dev, data[i]) != Refused
    {
      ZoneRoundTrip(dev, data[i], zones[i]);
    }
  }

  /** ZenFS::Mount from the bytes of all metadata zones, whatever they are: the frames are read, the
      records decoded and replayed. It gives up at the superblock of another device; otherwise the table
      is that of the zone that holds the newest snapshot, unless the log of a zone that is tried before
      it cannot be read or replayed. */
  method MountBytes(dev: Device, starts: seq<nat>, data: seq<seq<byte>>) returns (r: Mounted)
    requires dev.fmt.Valid() && |starts| == |data|
    requires forall i :: 0 <= i < |data| ==>
      Aligned(starts[i], dev.fmt.bs) && |data[i]| <= dev.fmt.capacity && Aligned(|data[i]|, dev.fmt.bs)
    ensures (exists i :: 0 <= i < |data| && DecodeZone(dev, data[i]) == Refused) ==> r == Unreadable
    ensures (forall i :: 0 <= i < |data| ==> DecodeZone(dev, data[i]) != Refused) ==>
      && (forall h: nat :: Holder(AllSeen(dev, data), h) <==> r.MountedAt? && r.zone == h)
      && (r.MountedAt? ==> r.zone < |data| && Recover(AllSeen(dev, data)[r.zone]) == Found(r.table))
      && (r.NoFileSystem? <==> forall i :: 0 <= i < |data| ==> Recover(AllSeen(dev, data)[i]) == NotFound)
  {
    hide DecodeZone, Recover, Holder;
    var read: seq<MetaZone> := [];
    for i := 0 to |data|
      invariant read == AllSeen(dev, data)[..i]
      invariant forall k :: 0 <= k < i ==> DecodeZone(dev, data[k]) != Refused
    {
      var log := new ZenMetaLog(dev.fmt, starts[i], data[i]);
      var z := ReadZone(log, dev);
      if z.Refused? {
        return Unreadable;
      }
      read := read + [Seen(z)];
    }
    assert read == AllSeen(dev, data);
    r := Mount(read);
  }

  /** After a crash at any point of a run whose snapshots fit, the bytes of the metadata zones
      give the acknowledged table, or that of the operation in progress. */
  method MountBytesAfterCrash(dev: Device, starts: seq<nat>, data: seq<seq<byte>>, ghost states: seq<State>,
          ghost actions: seq<Action>, ghost k: nat)
    returns (r: Mounted)
    requires dev.fmt.Valid() && Run(dev.fmt, states, actions) && k < |states| && RollsFit(dev.fmt, actions[..k])
    requires Images(dev, data, states[k].zones) && |starts| == |data|
    requires forall i :: 0 <= i < |data| ==>
      Aligned(starts[i], dev.fmt.bs) && |data[i]| <= dev.fmt.capacity && Aligned(|data[i]|, dev.fmt.bs)
    ensures r.MountedAt? && (r.table == states[k].acked || r.table == states[k].goal)
    ensures states[k].phase.Idle? ==> r.table == states[k].acked
  {
    hide Images, Recover, Holder, Run, RollsFit, Aligned, Fold, AllSeen, DecodeZone;
    CrashSafe(dev.fmt, states, actions, k);
    RunKeepsInv(dev.fmt, states, actions, k);
    ImagesSeen(dev, data, states[k].zones);
    r := MountBytes(dev, starts, data);
    ghost var h: nat :| Gives(states[k].zones, h, states[k].acked) || Gives(states[k].zones, h, states[k].goal);
    assert Holder(states[k].zones, h);
  }
}
