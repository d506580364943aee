/** One file: its three append paths, positioned reads, and recovery after a crash. */
module ZoneFiles {
  import opened Common
  import opened Coding
  import opened Blocks
  import opened ZoneData

  datatype Geometry = Geometry(bs: nat, capacity: nat, zoneSize: nat) {
    predicate Valid() {
      SPARSE_HEADER_SIZE < bs && Aligned(capacity, bs) && 0 < capacity < zoneSize && U64(capacity)
    }
  }

  /** Direct writes push an extent only when they are synced or a zone is full; buffered and
      sparse ones push one with every write. */
  datatype Mode = Direct | Buffered | Sparse

  /** The fields of a ZoneFile; `synced` and `logged` are the number of extents and the
      active extent start that the metadata log has. */
  datatype FileState = FileState(
    extents: seq<Ext>, active: Option<nat>, start: Option<Pos>, filepos: nat, size: nat,
    synced: nat, logged: Option<Pos>)

  // ---------- the invariant of a file ----------

  predicate DiskOk(geo: Geometry, disk: Disk) {
    geo.Valid() && forall z :: 0 <= z < |disk| ==> |disk[z]| <= geo.capacity && Aligned(|disk[z]|, geo.bs)
  }

  /** The active extent starts in the active zone, at the write pointer unless direct writes
      are pending, and the log knows that the file writes to that zone. */
  predicate ActiveOk(disk: Disk, mode: Mode, f: FileState) {
    f.active.Some? ==>
      && f.active.value < |disk| && f.start.Some? && f.start.value.zone == f.active.value
      && f.logged.Some? && f.logged.value.zone == f.active.value
      && f.logged.value.off <= f.start.value.off <= |disk[f.active.value]|
      && (mode != Direct ==> f.start.value.off == |disk[f.active.value]|)
  }

  /** Direct writes that no extent covers yet. */
  function Pending(disk: Disk, mode: Mode, f: FileState): seq<byte>
    requires ActiveOk(disk, mode, f)
  {
    if mode == Direct && f.active.Some? then disk[f.active.value][f.start.value.off..] else []
  }

  /** Everything that was appended to the file. */
  function FileContent(disk: Disk, mode: Mode, f: FileState): seq<byte>
    requires AllInside(disk, f.extents) && ActiveOk(disk, mode, f)
  {
    Content(disk, f.extents) + Pending(disk, mode, f)
  }

  /** What was written behind the logged active extent start belongs to this file, and is
      what the log does not know of it yet. */
  predicate RegionOk(geo: Geometry, disk: Disk, mode: Mode, f: FileState)
    requires geo.bs > 0 && AllInside(disk, f.extents) && ActiveOk(disk, mode, f) && f.synced <= |f.extents|
  {
    match f.logged
    case None => f.active.None? && f.synced == |f.extents|
    case Some(p) =>
      && p.zone < |disk| && p.off <= |disk[p.zone]|
      && match mode
         case Buffered => true
         case Sparse =>
           WalkSegments(disk[p.zone][p.off..], p.zone, p.off, geo.bs) == Walked(f.extents[f.synced..], |disk[p.zone]|)
         case Direct =>
           AllInside(disk, f.extents[..f.synced]) &&
           FileContent(disk, mode, f) == Content(disk, f.extents[..f.synced]) + disk[p.zone][p.off..]
  }

  /** Without an active zone, the active extent start is at the end of the last zone. */
  predicate BetweenZones(disk: Disk, f: FileState) {
    f.start.Some? ==> f.start.value.zone < |disk| && f.start.value.off == |disk[f.start.value.zone]|
  }

  predicate FileOk(geo: Geometry, disk: Disk, mode: Mode, f: FileState) {
    && DiskOk(geo, disk) && AllInside(disk, f.extents) && ActiveOk(disk, mode, f) && f.synced <= |f.extents|
    && RegionOk(geo, disk, mode, f)
    && (f.active.None? ==> BetweenZones(disk, f))
    && f.size == |FileContent(disk, mode, f)|
    && (mode == Direct && f.active.Some? ==> f.filepos == Total(f.extents))
  }

  lemma PartInside(disk: Disk, es: seq<Ext>, k: nat)
    requires AllInside(disk, es) && k <= |es|
    ensures AllInside(disk, es[..k]) && AllInside(disk, es[k..])
  {
  }

  // ---------- one lemma per transition ----------

  /** AllocateNewZone: zone z becomes active, and the log learns the position of its write
      pointer and all extents. */
  function Allocated(disk: Disk, f: FileState, z: nat): FileState
    requires z < |disk|
  {
    var p := Some(Pos(z, |disk[z]|));
    f.(active := Some(z), start := p, filepos := f.size, synced := |f.extents|, logged := p)
  }

  lemma AllocateOk(geo: Geometry, disk: Disk, mode: Mode, f: FileState, z: nat)
    requires FileOk(geo, disk, mode, f) && f.active.None? && z < |disk|
    ensures FileOk(geo, disk, mode, Allocated(disk, f, z))
    ensures FileContent(disk, mode, Allocated(disk, f, z)) == FileContent(disk, mode, f)
  {
    var f' := Allocated(disk, f, z);
    var n := |disk[z]|;
    assert disk[z][n..] == [];
    NoSegments(z, n, geo.bs);
    assert f'.extents[|f.extents|..] == [] && f'.extents[..|f.extents|] == f.extents;
  }

  /** CloseActiveZone, when nothing is pending. */
  lemma CloseOk(geo: Geometry, disk: Disk, mode: Mode, f: FileState)
    requires FileOk(geo, disk, mode, f) && Pending(disk, mode, f) == []
    ensures FileOk(geo, disk, mode, f.(active := None))
    ensures FileContent(disk, mode, f.(active := None)) == FileContent(disk, mode, f)
  {
  }

  /** PersistMetadata. */
  function Synced(f: FileState): FileState { f.(synced := |f.extents|, logged := f.start) }

  lemma SyncOk(geo: Geometry, disk: Disk, mode: Mode, f: FileState)
    requires FileOk(geo, disk, mode, f)
    ensures FileOk(geo, disk, mode, Synced(f))
    ensures FileContent(disk, mode, Synced(f)) == FileContent(disk, mode, f)
  {
    hide DiskOk, Content, Inside;
    assert f.extents[|f.extents|..] == [] && f.extents[..|f.extents|] == f.extents;
    GeometryHolds(geo, disk);
    if f.start.Some? {
      var p := f.start.value;
      if f.active.None? || mode != Direct {
        assert disk[p.zone][p.off..] == [];
        NoSegments(p.zone, p.off, geo.bs);
      }
    }
  }

  lemma GrowFrame(disk: Disk, es: seq<Ext>, z: nat, data: seq<byte>)
    requires AllInside(disk, es) && z < |disk|
    ensures AllInside(disk[z := disk[z] + data], es) && Content(disk[z := disk[z] + data], es) == Content(disk, es)
  {
    ContentFrame(disk, disk[z := disk[z] + data], es);
  }

  lemma GrowDisk(geo: Geometry, disk: Disk, z: nat, data: seq<byte>)
    requires DiskOk(geo, disk) && z < |disk| && Aligned(|data|, geo.bs) && |disk[z]| + |data| <= geo.capacity
    ensures DiskOk(geo, disk[z := disk[z] + data])
  {
    hide Aligned;
    AlignedAdd(|disk[z]|, |data|, geo.bs);
  }

  /** A direct write to the active zone. */
  lemma DirectWriteOk(geo: Geometry, disk: Disk, f: FileState, data: seq<byte>)
    requires FileOk(geo, disk, Direct, f) && f.active.Some?
    requires Aligned(|data|, geo.bs) && |disk[f.active.value]| + |data| <= geo.capacity
    ensures var z := f.active.value;
      var disk', f' := disk[z := disk[z] + data], f.(size := f.size + |data|);
      && FileOk(geo, disk', Direct, f')
      && FileContent(disk', Direct, f') == FileContent(disk, Direct, f) + data
  {
    hide Aligned, Content, Inside;
    var z, p := f.active.value, f.logged.value;
    var disk' := disk[z := disk[z] + data];
    GrowDisk(geo, disk, z, data);
    GrowFrame(disk, f.extents, z, data);
    GrowFrame(disk, f.extents[..f.synced], z, data);
    assert disk'[z][f.start.value.off..] == disk[z][f.start.value.off..] + data;
    assert disk'[z][p.off..] == disk[z][p.off..] + data;
    var f' := f.(size := f.size + |data|);
    assert FileContent(disk', Direct, f') == FileContent(disk, Direct, f) + data;
    assert FileContent(disk', Direct, f') == Content(disk', f.extents[..f.synced]) + disk'[z][p.off..];
  }

  /** PushExtent: the pending bytes become an extent. */
  function Pushed(disk: Disk, f: FileState): FileState
    requires f.active.Some? && f.active.value < |disk| && f.start.Some? && f.filepos <= f.size
  {
    var z := f.active.value;
    f.(extents := f.extents + [Ext(z, f.start.value.off, f.size - f.filepos)],
       start := Some(Pos(z, |disk[z]|)), filepos := f.size)
  }

  lemma PushOk(geo: Geometry, disk: Disk, f: FileState)
    requires FileOk(geo, disk, Direct, f) && f.active.Some?
    ensures f.filepos <= f.size && f.size - f.filepos == |disk[f.active.value]| - f.start.value.off
    ensures FileOk(geo, disk, Direct, Pushed(disk, f))
    ensures FileContent(disk, Direct, Pushed(disk, f)) == FileContent(disk, Direct, f)
    ensures Pending(disk, Direct, Pushed(disk, f)) == []
  {
    hide DiskOk, Content, WalkSegments, Total;
    var z, off := f.active.value, f.start.value.off;
    var e := Ext(z, off, f.size - f.filepos);
    assert Lookup(disk, e) == disk[z][off..];
    ContentPush(disk, f.extents, e);
    assert (f.extents + [e])[..f.synced] == f.extents[..f.synced];
  }

  /** One turn of BufferedAppend or SparseAppend: `head` bytes of header and the payload, with
      padding, are appended to the active zone, and the payload becomes an extent. */
  function Grown(disk: Disk, f: FileState, head: nat, len: nat, bytes: nat): FileState
    requires f.active.Some? && f.active.value < |disk|
  {
    var z := f.active.value;
    f.(extents := f.extents + [Ext(z, |disk[z]| + head, len)], start := Some(Pos(z, |disk[z]| + bytes)),
      size := f.size + len)
  }

  lemma GrowOk(geo: Geometry, disk: Disk, mode: Mode, f: FileState, head: nat, payload: seq<byte>, bytes: seq<byte>)
    requires FileOk(geo, disk, mode, f) && mode != Direct && f.active.Some?
    requires Aligned(|bytes|, geo.bs) && |disk[f.active.value]| + |bytes| <= geo.capacity
    requires head + |payload| <= |bytes| && bytes[head..head + |payload|] == payload
    requires mode == Sparse ==> head == SPARSE_HEADER_SIZE && payload != [] && bytes == Segment(payload, geo.bs)
    ensures var z := f.active.value;
      var disk', f' := disk[z := disk[z] + bytes], Grown(disk, f, head, |payload|, |bytes|);
      && FileOk(geo, disk', mode, f')
      && FileContent(disk', mode, f') == FileContent(disk, mode, f) + payload
  {
    hide Aligned, Content, Segment, WalkSegments, DiskOk, Inside;
    var z := f.active.value;
    var disk', f' := disk[z := disk[z] + bytes], Grown(disk, f, head, |payload|, |bytes|);
    var e := Ext(z, |disk[z]| + head, |payload|);
    GrowDisk(geo, disk, z, bytes);
    GrowFrame(disk, f.extents, z, bytes);
    NewExtent(disk, z, head, payload, bytes);
    ContentPush(disk', f.extents, e);
    if mode == Sparse {
      GrowRegion(geo, disk, f, payload);
    }
  }

  lemma NewExtent(disk: Disk, z: nat, head: nat, payload: seq<byte>, bytes: seq<byte>)
    requires z < |disk| && head + |payload| <= |bytes| && bytes[head..head + |payload|] == payload
    ensures var disk', e := disk[z := disk[z] + bytes], Ext(z, |disk[z]| + head, |payload|);
      Inside(disk', e) && Lookup(disk', e) == payload
  {
    var lo := |disk[z]| + head;
    assert (disk[z] + bytes)[lo..lo + |payload|] == bytes[head..head + |payload|];
  }

  lemma GrowRegion(geo: Geometry, disk: Disk, f: FileState, payload: seq<byte>)
    requires FileOk(geo, disk, Sparse, f) && f.active.Some? && payload != []
    requires |disk[f.active.value]| + |Segment(payload, geo.bs)| <= geo.capacity
    ensures var z, p, bytes := f.active.value, f.logged.value, Segment(payload, geo.bs);
      var disk', f' := disk[z := disk[z] + bytes], Grown(disk, f, SPARSE_HEADER_SIZE, |payload|, |bytes|);
      WalkSegments(disk'[z][p.off..], z, p.off, geo.bs) == Walked(f'.extents[f.synced..], |disk'[z]|)
  {
    hide Content, Segment, WalkSegments, Aligned, Inside, RoundUp;
    var z, p, bytes := f.active.value, f.logged.value, Segment(payload, geo.bs);
    var disk' := disk[z := disk[z] + bytes];
    PayloadFits(geo, disk, z, payload, bytes);
    WalkAppend(disk[z][p.off..], z, p.off, geo.bs, f.extents[f.synced..], payload);
    assert disk'[z][p.off..] == disk[z][p.off..] + bytes;
    var e := Ext(z, |disk[z]| + SPARSE_HEADER_SIZE, |payload|);
    assert (f.extents + [e])[f.synced..] == f.extents[f.synced..] + [e];
  }

  lemma PayloadFits(geo: Geometry, disk: Disk, z: nat, payload: seq<byte>, bytes: seq<byte>)
    requires geo.Valid() && z < |disk| && |disk[z]| + |bytes| <= geo.capacity && |payload| <= |bytes|
    ensures U64(|payload|)
  {
  }

  // ---------- recovery ----------

  /** GetIOZone: a position behind the end of a zone is found in the next one. */
  function Resolve(geo: Geometry, p: Pos): Pos {
    if p.off < geo.zoneSize then p else Pos(p.zone + 1, p.off - geo.zoneSize)
  }

  datatype Recovery = Failed | Recovered(extents: seq<Ext>)

  /** ZoneFile::Recover on what the log has of a file. */
  function RecoverFile(geo: Geometry, disk: Disk, extents: seq<Ext>, logged: Option<Pos>, sparse: bool): Recovery
    requires geo.bs > 0
  {
    if logged.None? then Recovered(extents)
    else
      var p := Resolve(geo, logged.value);
      if p.zone >= |disk| || |disk[p.zone]| < p.off then Failed
      else if |disk[p.zone]| == p.off then Recovered(extents)
      else if sparse then
        match WalkSegments(disk[p.zone][p.off..], p.zone, p.off, geo.bs)
        case Bad => Failed
        case Walked(es, _) => Recovered(extents + es)
      else Recovered(extents + [Ext(p.zone, p.off, |disk[p.zone]| - p.off)])
  }

  /** Zones are smaller than the distance between their starts, so a logged position is
      found in its own zone. */
  lemma LoggedResolves(geo: Geometry, disk: Disk, mode: Mode, f: FileState)
    requires FileOk(geo, disk, mode, f) && f.logged.Some?
    ensures Resolve(geo, f.logged.value) == f.logged.value && geo.bs > 0
    ensures f.logged.value.zone < |disk| && f.logged.value.off <= |disk[f.logged.value.zone]|
  {
    assert |disk[f.logged.value.zone]| <= geo.capacity;
  }

  lemma RecoverSparse(geo: Geometry, disk: Disk, f: FileState)
    requires FileOk(geo, disk, Sparse, f)
    ensures RecoverFile(geo, disk, f.extents[..f.synced], f.logged, true) == Recovered(f.extents)
  {
    hide Content, WalkSegments, DiskOk, Inside, Resolve;
    assert f.extents[..f.synced] + f.extents[f.synced..] == f.extents;
    if f.logged.Some? {
      LoggedResolves(geo, disk, Sparse, f);
      var p := f.logged.value;
      if p.off == |disk[p.zone]| {
        assert disk[p.zone][p.off..] == [];
        NoSegments(p.zone, p.off, geo.bs);
        assert f.extents[f.synced..] == [];
        assert f.extents[..f.synced] == f.extents;
      }
    } else {
      assert f.extents[..f.synced] == f.extents;
    }
  }

  lemma RecoverPlain(geo: Geometry, disk: Disk, mode: Mode, f: FileState)
    requires FileOk(geo, disk, mode, f) && mode != Sparse
    ensures var known := f.extents[..f.synced];
      var r := RecoverFile(geo, disk, known, f.logged, false);
      && r.Recovered? && AllInside(disk, known) && AllInside(disk, r.extents) && known <= r.extents
      && Content(disk, r.extents) == Content(disk, known) +
           (if f.logged.Some? then disk[f.logged.value.zone][f.logged.value.off..] else [])
  {
    hide Content, WalkSegments, DiskOk, Resolve, FileOk, AllInside, RecoverFile, Lookup, Inside;
    FileHolds(geo, disk, mode, f);
    PartInside(disk, f.extents, f.synced);
    var known := f.extents[..f.synced];
    if f.logged.Some? {
      LoggedResolves(geo, disk, mode, f);
      PlainTail(geo, disk, known, f.logged.value);
    } else {
      PlainNone(geo, disk, known);
    }
  }

  lemma PlainNone(geo: Geometry, disk: Disk, known: seq<Ext>)
    requires geo.bs > 0 && AllInside(disk, known)
    ensures RecoverFile(geo, disk, known, None, false) == Recovered(known)
    ensures Content(disk, known) + [] == Content(disk, known)
  {
  }

  lemma PlainTail(geo: Geometry, disk: Disk, known: seq<Ext>, p: Pos)
    requires geo.bs > 0 && AllInside(disk, known) && Resolve(geo, p) == p && p.zone < |disk| && p.off <= |disk[p.zone]|
    ensures var r := RecoverFile(geo, disk, known, Some(p), false);
      && r.Recovered? && AllInside(disk, r.extents) && known <= r.extents
      && Content(disk, r.extents) == Content(disk, known) + disk[p.zone][p.off..]
  {
    hide Content, WalkSegments, Resolve;
    var e := Ext(p.zone, p.off, |disk[p.zone]| - p.off);
    assert Lookup(disk, e) == disk[p.zone][p.off..];
    ContentPush(disk, known, e);
  }

  /** After a crash at any point, recovery gives back exactly the extents of a sparse file
      and exactly the bytes appended to a directly written one; a buffered file keeps at
      least everything that was synced. */
  lemma RecoverGivesContent(geo: Geometry, disk: Disk, mode: Mode, f: FileState)
    requires FileOk(geo, disk, mode, f)
    ensures var r := RecoverFile(geo, disk, f.extents[..f.synced], f.logged, mode == Sparse);
      && r.Recovered? && AllInside(disk, r.extents)
      && (mode == Sparse ==> r.extents == f.extents)
      && (mode == Direct ==> Content(disk, r.extents) == FileContent(disk, mode, f))
      && f.extents[..f.synced] <= r.extents
  {
    hide Content, WalkSegments, DiskOk, Resolve, Inside, RecoverFile;
    if mode == Sparse {
      RecoverSparse(geo, disk, f);
    } else {
      RecoverPlain(geo, disk, mode, f);
      if mode == Direct && f.logged.None? {
        assert f.extents[..f.synced] == f.extents;
      }
    }
  }

  /** CloseWR. */
  function Closed(f: FileState): FileState { f.(active := None, start := None, synced := |f.extents|, logged := None) }

  lemma ClosedOk(geo: Geometry, disk: Disk, mode: Mode, f: FileState)
    requires FileOk(geo, disk, mode, f) && Pending(disk, mode, f) == []
    ensures geo.bs > 0 && FileOk(geo, disk, mode, Closed(f))
    ensures FileContent(disk, mode, Closed(f)) == FileContent(disk, mode, f)
    ensures var r := RecoverFile(geo, disk, f.extents[..|f.extents|], None, mode == Sparse);
      r.Recovered? && AllInside(disk, r.extents) && Content(disk, r.extents) == FileContent(disk, mode, f)
  {
    hide DiskOk, Content, WalkSegments, Inside;
    GeometryHolds(geo, disk);
    assert f.extents[..|f.extents|] == f.extents;
    assert Content(disk, f.extents) + [] == Content(disk, f.extents);
  }

  /** Without its active extent start, a file is in order if and only if it has no active zone. */
  lemma StartForgotten(geo: Geometry, disk: Disk, mode: Mode, f: FileState)
    requires FileOk(geo, disk, mode, f)
    ensures FileOk(geo, disk, mode, f.(start := None)) <==> f.active.None?
    ensures f.active.None? ==> FileContent(disk, mode, f.(start := None)) == FileContent(disk, mode, f)
  {
    hide WalkSegments, DiskOk, Inside, Content;
  }

  /** After all metadata of a file is persisted, a crash gives exactly what was appended. */
  lemma SyncRecovers(geo: Geometry, disk: Disk, mode: Mode, f: FileState)
    requires FileOk(geo, disk, mode, f)
    ensures geo.bs > 0
    ensures var r := RecoverFile(geo, disk, f.extents[..|f.extents|], f.start, mode == Sparse);
      r.Recovered? && AllInside(disk, r.extents) && Content(disk, r.extents) == FileContent(disk, mode, f)
  {
    hide DiskOk, Content, WalkSegments, Inside, RecoverFile, FileOk;
    SyncOk(geo, disk, mode, f);
    FileHolds(geo, disk, mode, f);
    assert Content(disk, f.extents) + [] == Content(disk, f.extents);
    RecoverGivesContent(geo, disk, mode, Synced(f));
    if mode == Buffered {
      NothingToRecover(geo, disk, f);
    }
  }

  lemma FileHolds(geo: Geometry, disk: Disk, mode: Mode, f: FileState)
    requires FileOk(geo, disk, mode, f)
    ensures geo.bs > 0 && AllInside(disk, f.extents) && ActiveOk(disk, mode, f) && f.synced <= |f.extents|
  {
  }

  lemma NothingToRecover(geo: Geometry, disk: Disk, f: FileState)
    requires FileOk(geo, disk, Buffered, f)
    ensures RecoverFile(geo, disk, f.extents[..|f.extents|], f.start, false) == Recovered(f.extents)
  {
    hide Content, Inside;
    SyncOk(geo, disk, Buffered, f);
    assert f.extents[..|f.extents|] == f.extents;
    if f.start.Some? { LoggedResolves(geo, disk, Buffered, Synced(f)); }
  }

  /** When the persist at the end of AllocateNewZone fails, the file goes on with a zone that
      the log does not know. Whatever is written there, recovery finds what it found before:
      the content is complete if and only if nothing was written. */
  lemma UnknownZoneIsLost(geo: Geometry, disk: Disk, mode: Mode, f: FileState, z: nat, bytes: seq<byte>,
          payload: seq<byte>)
    requires FileOk(geo, disk, mode, f) && mode != Buffered && f.active.None? && z < |disk| && |disk[z]| < geo.capacity
    requires f.logged.Some? ==> |disk[f.logged.value.zone]| == geo.capacity
    requires Aligned(|bytes|, geo.bs) && |disk[z]| + |bytes| <= geo.capacity
    ensures var disk' := disk[z := disk[z] + bytes];
      var r := RecoverFile(geo, disk', f.extents[..f.synced], f.logged, mode == Sparse);
      && r == RecoverFile(geo, disk, f.extents[..f.synced], f.logged, mode == Sparse)
      && r.Recovered? && AllInside(disk', r.extents)
      && (Content(disk', r.extents) == FileContent(disk, mode, f) + payload <==> payload == [])
  {
    hide Content, WalkSegments, DiskOk, Inside, Aligned, FileOk;
    var disk' := disk[z := disk[z] + bytes];
    RecoverGivesContent(geo, disk, mode, f);
    FileHolds(geo, disk, mode, f);
    var r := RecoverFile(geo, disk, f.extents[..f.synced], f.logged, mode == Sparse);
    GrowFrame(disk, r.extents, z, bytes);
    if f.logged.Some? { LoggedResolves(geo, disk, mode, f); }
    NoActive(geo, disk, mode, f);
    assert Content(disk, f.extents) + [] == Content(disk, f.extents);
    assert |FileContent(disk, mode, f) + payload| == |FileContent(disk, mode, f)| + |payload|;
  }

  lemma NoActive(geo: Geometry, disk: Disk, mode: Mode, f: FileState)
    requires FileOk(geo, disk, mode, f) && f.active.None?
    ensures ActiveOk(disk, mode, f) && Pending(disk, mode, f) == []
  {
  }

  /** When zones are as large as the distance between their starts, the position at the end
      of a full zone is found in the next zone, and the file is given what is there. */
  lemma FullZoneResolvesToNext(geo: Geometry, disk: Disk, z: nat, extents: seq<Ext>)
    requires geo.bs > 0 && geo.capacity == geo.zoneSize && z + 1 < |disk| && |disk[z]| == geo.capacity
    requires disk[z + 1] != []
    ensures RecoverFile(geo, disk, extents, Some(Pos(z, |disk[z]|)), false)
         == Recovered(extents + [Ext(z + 1, 0, |disk[z + 1]|)])
  {
  }

  /** The logged position of a file is found in its own zone for every reachable write
      pointer if and only if the capacity of a zone is less than its size. */
  lemma ResolvesIffCapacityBelowSize(geo: Geometry, z: nat)
    ensures (forall off: nat :: off <= geo.capacity ==> Resolve(geo, Pos(z, off)) == Pos(z, off))
      <==> geo.capacity < geo.zoneSize
  {
    assert Resolve(geo, Pos(z, geo.capacity)) == Pos(z, geo.capacity) <==> geo.capacity < geo.zoneSize;
  }

  /** The zones as recovery sees them when the backend reports write pointer wp for zone z, which is
      not before the end of its data: what is not written reads as zeros. */
  function Reported(disk: Disk, z: nat, wp: nat): Disk
    requires z < |disk| && |disk[z]| <= wp
  {
    disk[z := disk[z] + Zeros(wp - |disk[z]|)]
  }

  /** A backend may report the end of the zone as the write pointer of a full one. Recovery gives what
      it must, if and only if the write pointer that is reported is where the data ends. Otherwise a
      directly written file gets the gap, and the recovery of a sparse one fails. */
  lemma ReportedIff(geo: Geometry, disk: Disk, mode: Mode, f: FileState, wp: nat)
    requires FileOk(geo, disk, mode, f) && f.logged.Some? && |disk[f.logged.value.zone]| <= wp
    ensures geo.bs > 0 && AllInside(disk, f.extents) && ActiveOk(disk, mode, f) && f.synced <= |f.extents|
    ensures f.logged.value.zone < |disk|
    ensures var z, known := f.logged.value.zone, f.extents[..f.synced];
      var r := RecoverFile(geo, Reported(disk, z, wp), known, f.logged, mode == Sparse);
      && (r == RecoverFile(geo, disk, known, f.logged, mode == Sparse) <==> wp == |disk[z]|)
      && (mode == Sparse && wp > |disk[z]| ==> r.Failed?)
      && (mode == Direct ==>
          && r.Recovered? && AllInside(Reported(disk, z, wp), r.extents)
          && Content(Reported(disk, z, wp), r.extents) == FileContent(disk, mode, f) + Zeros(wp - |disk[z]|))
  {
    hide Content, WalkSegments, DiskOk, Resolve, Inside, Zeros;
    FileHolds(geo, disk, mode, f);
    LoggedResolves(geo, disk, mode, f);
    LoggedRegion(geo, disk, mode, f);
    var p, known := f.logged.value, f.extents[..f.synced];
    var n, tail := wp - |disk[p.zone]|, disk[p.zone][p.off..];
    assert (disk[p.zone] + Zeros(n))[p.off..] == tail + Zeros(n);
    if mode == Sparse {
      RecoverSparse(geo, disk, f);
      GeometryHolds(geo, disk);
      if n > 0 {
        WalkZeros(tail, p.zone, p.off, geo.bs, n);
      } else {
        assert disk[p.zone] + Zeros(0) == disk[p.zone];
        assert Reported(disk, p.zone, wp) == disk;
      }
    } else {
      PartInside(disk, f.extents, f.synced);
      GrowFrame(disk, known, p.zone, Zeros(n));
      PlainTail(geo, Reported(disk, p.zone, wp), known, p);
      assert Content(disk, known) + (tail + Zeros(n)) == Content(disk, known) + tail + Zeros(n);
    }
  }

  lemma LoggedRegion(geo: Geometry, disk: Disk, mode: Mode, f: FileState)
    requires FileOk(geo, disk, mode, f) && f.logged.Some?
    ensures geo.bs > 0 && f.synced <= |f.extents| && AllInside(disk, f.extents) && ActiveOk(disk, mode, f)
    ensures var p := f.logged.value;
      && p.zone < |disk| && p.off <= |disk[p.zone]|
      && (mode == Sparse ==>
          WalkSegments(disk[p.zone][p.off..], p.zone, p.off, geo.bs) == Walked(f.extents[f.synced..], |disk[p.zone]|))
      && (mode == Direct ==>
          FileContent(disk, mode, f) == Content(disk, f.extents[..f.synced]) + disk[p.zone][p.off..])
  {
    FileHolds(geo, disk, mode, f);
    hide Content, WalkSegments, DiskOk, Inside;
  }

  // ---------- the device and the file as objects ----------

  class Device {
    const geo: Geometry
    var disk: Disk
    var busy: seq<bool>

    ghost predicate Valid()
      reads this
    {
      DiskOk(geo, disk) && |busy| == |disk|
    }

    /** Some zone is not busy and has room. */
    ghost predicate SomeFree()
      reads this
    {
      exists z :: 0 <= z < |disk| && z < |busy| && !busy[z] && |disk[z]| < geo.capacity
    }

    constructor (geo: Geometry, zones: nat)
      requires geo.Valid()
      ensures Valid() && this.geo == geo && disk == seq(zones, _ => []) && busy == seq(zones, _ => false)
    {
      this.geo := geo;
      disk, busy := seq(zones, _ => []), seq(zones, _ => false);
    }

    /** Zone::Append: the loop over writes of which each may store only a part. */
    method Append(z: nat, data: seq<byte>) returns (ok: bool)
      requires Valid() && z < |disk| && Aligned(|data|, geo.bs)
      modifies this`disk
      ensures Valid() && ok == (|old(disk)[z]| + |data| <= geo.capacity)
      ensures disk == if ok then old(disk)[z := old(disk)[z] + data] else old(disk)
    {
      if geo.capacity - |disk[z]| < |data| {
        return false;
      }
      GrowDisk(geo, disk, z, data);
      hide Aligned;
      var done := 0;
      while done < |data|
        invariant done <= |data|
        invariant |disk| == |old(disk)| && disk[z] == old(disk)[z] + data[..done]
        invariant forall k :: 0 <= k < |disk| && k != z ==> disk[k] == old(disk)[k]
      {
        var chunk :| 0 < chunk <= |data| - done;
        disk := disk[z := disk[z] + data[done..done + chunk]];
        assert data[..done] + data[done..done + chunk] == data[..done + chunk];
        done := done + chunk;
      }
      assert data[..done] == data;
      assert disk == old(disk)[z := old(disk)[z] + data];
      return true;
    }

    /** ZoneFile::MigrateData: copies an extent, in steps and padded to blocks, to the write
        pointer of the target zone. The length is passed as a 32-bit integer: the copy reads like
        the extent if and only if the extent is shorter than 4 GiB. */
    method MigrateData(e: Ext, target: nat)
      requires Valid() && Aligned(0x20000, geo.bs) && target < |disk| && Inside(disk, e)
      requires Aligned(e.off, geo.bs) && e.off + RoundUp(Low32(e.len), geo.bs) <= |disk[e.zone]|
      requires |disk[target]| + RoundUp(Low32(e.len), geo.bs) <= geo.capacity
      modifies this`disk
      ensures Valid() && |disk| == |old(disk)|
      ensures disk == old(disk)[target := old(disk)[target]
        + old(disk)[e.zone][e.off..e.off + RoundUp(Low32(e.len), geo.bs)]]
      ensures var copy := Ext(target, |old(disk)[target]|, e.len);
        Inside(disk, copy) && Lookup(disk, copy) == Lookup(old(disk), e) <==> e.len < 0x1_0000_0000
    {
      hide Aligned, RoundUp, DiskOk, Lookup;
      GeometryHolds(geo, disk);
      ghost var before := disk;
      var length: nat, offset, readSize := Low32(e.len), e.off, 0x20000;
      ghost var len := length;
      CopyIff(disk, e, target, geo.bs);
      RoundUpAligned(0, geo.bs);
      assert disk[target] + disk[e.zone][e.off..e.off] == disk[target];
      while length > 0
        invariant Valid() && |disk| == |before| && length <= len && 0 < readSize <= 0x20000
        invariant e.off <= offset <= e.off + RoundUp(len, geo.bs) && Aligned(offset - e.off, geo.bs)
        invariant if length == 0 then offset == e.off + RoundUp(len, geo.bs)
                  else offset == e.off + (len - length) && readSize == 0x20000
        invariant disk == before[target := before[target] + before[e.zone][e.off..offset]]
      {
        readSize := if length > readSize then readSize else length;
        var chunk := RoundUp(readSize, geo.bs);
        StepFits(len, length, readSize, offset - e.off, geo.bs);
        CopyStep(disk, before, e.zone, target, e.off, offset, offset + chunk);
        var ok := Append(target, disk[e.zone][offset..offset + chunk]);
        AlignedAdd(offset - e.off, chunk, geo.bs);
        length := length - readSize;
        offset := offset + chunk;
      }
    }
  }

  /** The copy of the blocks of the low 32 bits of the length of an extent. */
  lemma CopyIff(disk: Disk, e: Ext, target: nat, bs: nat)
    requires target < |disk| && Inside(disk, e) && Aligned(0x20000, bs)
    requires e.off + RoundUp(Low32(e.len), bs) <= |disk[e.zone]|
    ensures var disk' := disk[target := disk[target] + disk[e.zone][e.off..e.off + RoundUp(Low32(e.len), bs)]];
      var copy := Ext(target, |disk[target]|, e.len);
      Inside(disk', copy) && Lookup(disk', copy) == Lookup(disk, e) <==> e.len < 0x1_0000_0000
  {
    hide RoundUp, Lookup;
    var size := RoundUp(Low32(e.len), bs);
    SmallBlocks(bs);
    if e.len < 0x1_0000_0000 {
      CopiedExtent(disk, e, target, size);
    } else {
      TooShort(disk, e, target, size);
    }
  }

  lemma SmallBlocks(bs: nat)
    requires Aligned(0x20000, bs)
    ensures bs <= 0x20000
  {
    MultipleAtLeastBlock(0x20000, bs);
  }

  lemma TooShort(disk: Disk, e: Ext, target: nat, size: nat)
    requires target < |disk| && e.zone < |disk| && e.off + size <= |disk[e.zone]| && size < e.len
    ensures !Inside(disk[target := disk[target] + disk[e.zone][e.off..e.off + size]],
      Ext(target, |disk[target]|, e.len))
  {
  }

  /** A further part of an extent copied behind the part that is already there. */
  lemma CopyStep(disk: Disk, before: Disk, zone: nat, target: nat, a: nat, b: nat, c: nat)
    requires zone < |before| && target < |before| && a <= b <= c <= |before[zone]|
    requires disk == before[target := before[target] + before[zone][a..b]]
    ensures c <= |disk[zone]| && disk[zone][b..c] == before[zone][b..c]
    ensures disk[target := disk[target] + disk[zone][b..c]] == before[target := before[target] + before[zone][a..c]]
  {
    assert before[zone] <= disk[zone];
    JoinSlices(before[zone], a, b, c);
    assert before[target] + before[zone][a..b] + before[zone][b..c] == before[target] + before[zone][a..c];
  }

  /** The copy of an extent at the write pointer of the target zone reads like the extent. */
  lemma CopiedExtent(disk: Disk, e: Ext, target: nat, size: nat)
    requires target < |disk| && e.zone < |disk| && e.len <= size && e.off + size <= |disk[e.zone]|
    ensures var disk', e' := disk[target := disk[target] + disk[e.zone][e.off..e.off + size]],
      Ext(target, |disk[target]|, e.len);
      Inside(disk, e) && Inside(disk', e') && Lookup(disk', e') == Lookup(disk, e)
  {
    var source := disk[e.zone][e.off..e.off + size];
    SliceOfSlice(disk[e.zone], e.off, size, 0, e.len);
    assert source[0..e.len] == source[..e.len];
    NewExtent(disk, target, 0, source[..e.len], source);
  }

  lemma GeometryHolds(geo: Geometry, disk: Disk)
    requires DiskOk(geo, disk)
    ensures geo.bs > SPARSE_HEADER_SIZE && Aligned(0, geo.bs)
  {
  }

  /** A step of a migration: full steps are whole blocks, and the last one ends the extent. */
  lemma StepFits(len: nat, left: nat, step: nat, done: nat, bs: nat)
    requires bs > 0 && Aligned(0x20000, bs) && 0 < left <= len && done == len - left && Aligned(done, bs)
    requires step == if left > 0x20000 then 0x20000 else left
    ensures done + RoundUp(step, bs) <= RoundUp(len, bs)
    ensures step < left ==> RoundUp(step, bs) == step
    ensures step == left ==> done + RoundUp(step, bs) == RoundUp(len, bs)
  {
    hide Aligned, RoundUp;
    if step < left {
      RoundUpAligned(step, bs);
      RoundUpShift(done, left, bs);
    } else {
      RoundUpShift(done, step, bs);
    }
  }
}
