/** The ZoneFile object: appends through a buffer that is padded and moved in place, direct
    appends, positioned reads and syncs. */
module ZoneFileIO {
  import opened Common
  import opened Coding
  import opened Blocks
  import opened ZoneData
  import opened ZoneFiles

  lemma StoredAll(before: seq<byte>, data: seq<byte>, n: nat)
    requires n <= |data|
    ensures before + data[..n] == before + data <==> n == |data|
  {
    assert data[..|data|] == data;
  }

  /** What one file does to the device: zones only grow, and those that somebody else holds
      stay as they are. */
  ghost predicate OnlyMine(disk: Disk, disk': Disk, busy: seq<bool>, busy': seq<bool>, mine: Option<nat>) {
    && |disk| == |disk'| == |busy| == |busy'|
    && forall z :: 0 <= z < |disk| ==>
         disk[z] <= disk'[z] && (busy[z] && mine != Some(z) ==> disk'[z] == disk[z] && busy'[z])
  }

  /** A file that held `mine` did only this, and now holds `active`, that zone or one that was free, and
      no other zone. A zone that it held, or wrote to, and does not hold any more is full. */
  ghost predicate Owns(disk: Disk, disk': Disk, busy: seq<bool>, busy': seq<bool>, mine: Option<nat>,
          active: Option<nat>, capacity: nat)
  {
    && OnlyMine(disk, disk', busy, busy', mine)
    && (active.Some? ==> active.value < |busy| && (active == mine || !busy[active.value]))
    && forall z :: 0 <= z < |disk| ==>
         && (busy'[z] <==> active == Some(z) || (busy[z] && mine != Some(z)))
         && (active != Some(z) && (mine == Some(z) || disk'[z] != disk[z]) ==> |disk'[z]| == capacity)
  }

  lemma OwnsStart(disk: Disk, busy: seq<bool>, mine: Option<nat>, capacity: nat)
    requires |disk| == |busy| && (mine.Some? ==> mine.value < |busy| && busy[mine.value])
    ensures Owns(disk, disk, busy, busy, mine, mine, capacity)
  {
  }

  lemma OwnsThen(d0: Disk, d1: Disk, d2: Disk, b0: seq<bool>, b1: seq<bool>, b2: seq<bool>, a0: Option<nat>,
          a1: Option<nat>, a2: Option<nat>, capacity: nat)
    requires Owns(d0, d1, b0, b1, a0, a1, capacity) && Owns(d1, d2, b1, b2, a1, a2, capacity)
    ensures Owns(d0, d2, b0, b2, a0, a2, capacity)
  {
    forall z | 0 <= z < |d0|
      ensures d0[z] <= d2[z] && (b0[z] && a0 != Some(z) ==> d2[z] == d0[z] && b2[z])
      ensures b2[z] <==> a2 == Some(z) || (b0[z] && a0 != Some(z))
      ensures a2 != Some(z) && (a0 == Some(z) || d2[z] != d0[z]) ==> |d2[z]| == capacity
    {
      assert d0[z] <= d1[z] <= d2[z];
    }
  }

  lemma OwnsGrew(d0: Disk, d1: Disk, d2: Disk, b0: seq<bool>, b1: seq<bool>, a0: Option<nat>, a1: Option<nat>,
          capacity: nat)
    requires Owns(d0, d1, b0, b1, a0, a1, capacity) && a1.Some? && GrewOnly(d1, d2, a1.value)
    ensures Owns(d0, d2, b0, b1, a0, a1, capacity)
  {
    OwnsThen(d0, d1, d2, b0, b1, b1, a0, a1, a1, capacity);
  }

  predicate GrewOnly(disk: Disk, disk': Disk, z: nat) {
    && |disk| == |disk'| && z < |disk| && disk[z] <= disk'[z]
    && forall k :: 0 <= k < |disk| && k != z ==> disk'[k] == disk[k]
  }

  class ZoneFile {
    const dev: Device
    const mode: Mode
    var extents: seq<Ext>
    var active: Option<nat>
    var start: Option<Pos>
    var filepos: nat
    var size: nat
    var synced: nat
    var logged: Option<Pos>

    ghost function State(): FileState
      reads this
    {
      FileState(extents, active, start, filepos, size, synced, logged)
    }

    ghost predicate Holds()
      reads this, dev
    {
      active.Some? ==> active.value < |dev.busy| && dev.busy[active.value]
    }

    ghost predicate Valid()
      reads this, dev
    {
      dev.Valid() && FileOk(dev.geo, dev.disk, mode, State()) && Holds()
    }

    /** Everything appended to the file so far. */
    ghost function Bytes(): seq<byte>
      requires Valid()
      reads this, dev
    {
      FileContent(dev.disk, mode, State())
    }

    /** The active zone has room; this holds between the calls of buffered appends. */
    ghost predicate Room()
      reads this, dev
    {
      active.Some? ==> active.value < |dev.disk| && |dev.disk[active.value]| < dev.geo.capacity
    }

    constructor (dev: Device, mode: Mode)
      requires dev.Valid()
      ensures Valid() && Room() && this.dev == dev && this.mode == mode && Bytes() == []
    {
      this.dev, this.mode := dev, mode;
      extents, active, start, filepos, size, synced, logged := [], None, None, 0, 0, 0, None;
    }

    /** AllocateNewZone: some zone that is not busy and not full, if there is one. */
    method AllocateNewZone() returns (ok: bool)
      requires Valid() && active.None?
      modifies this, dev`busy
      ensures Valid() && Room() && Bytes() == old(Bytes()) && ok == active.Some?
      ensures ok == old(dev.SomeFree()) && (!ok ==> !dev.SomeFree())
      ensures Owns(old(dev.disk), dev.disk, old(dev.busy), dev.busy, None, active, dev.geo.capacity)
    {
      hide FileOk, DiskOk, FileContent;
      if z: nat :| z < |dev.disk| && !dev.busy[z] && |dev.disk[z]| < dev.geo.capacity {
        AllocateOk(dev.geo, dev.disk, mode, State(), z);
        var p := Some(Pos(z, |dev.disk[z]|));
        ghost var f := Allocated(dev.disk, State(), z);
        dev.busy := dev.busy[z := true];
        active, start, filepos, synced, logged := Some(z), p, size, |extents|, p;
        assert State() == f;
        return true;
      }
      return false;
    }

    method CloseActiveZone()
      requires Valid() && active.Some? && Pending(dev.disk, mode, State()) == []
      modifies this`active, dev`busy
      ensures Valid() && active.None? && Bytes() == old(Bytes())
      ensures dev.busy == old(dev.busy)[old(active).value := false]
    {
      hide FileOk, DiskOk, FileContent, Pending;
      CloseOk(dev.geo, dev.disk, mode, State());
      ghost var f := State().(active := None);
      dev.busy := dev.busy[active.value := false];
      active := None;
      assert State() == f;
    }

    /** The write of one turn of BufferedAppend or SparseAppend. */
    method AppendBlocks(bytes: seq<byte>, head: nat, len: nat)
      requires Valid() && mode != Direct && active.Some? && Aligned(|bytes|, dev.geo.bs)
      requires |dev.disk[active.value]| + |bytes| <= dev.geo.capacity && head + len <= |bytes|
      requires mode == Sparse ==>
        head == SPARSE_HEADER_SIZE && 0 < len && bytes == Segment(bytes[head..head + len], dev.geo.bs)
      modifies this`extents, this`start, this`size, dev`disk
      ensures Valid() && Bytes() == old(Bytes()) + bytes[head..head + len]
      ensures dev.disk == old(dev.disk)[active.value := old(dev.disk)[active.value] + bytes]
    {
      hide FileOk, DiskOk, FileContent, Segment, Aligned;
      ghost var payload := bytes[head..head + len];
      var z := active.value;
      GrowOk(dev.geo, dev.disk, mode, State(), head, payload, bytes);
      ActiveFacts(dev.geo, dev.disk, mode, State());
      ghost var f := Grown(dev.disk, State(), head, len, |bytes|);
      var ok := dev.Append(z, bytes);
      extents := extents + [Ext(z, start.value.off + head, len)];
      start := Some(Pos(z, |dev.disk[z]|));
      size := size + len;
      assert State() == f;
    }

    /** Closes a full zone and opens the next one. */
    method NextZone() returns (ok: bool)
      requires Valid() && active.Some? && Pending(dev.disk, mode, State()) == []
      requires active.value < |dev.disk| && |dev.disk[active.value]| == dev.geo.capacity
      modifies this, dev`busy
      ensures Valid() && Room() && Bytes() == old(Bytes()) && ok == active.Some? && (!ok ==> !dev.SomeFree())
      ensures Owns(old(dev.disk), dev.disk, old(dev.busy), dev.busy, old(active), active, dev.geo.capacity)
    {
      hide FileOk, DiskOk, FileContent, Pending;
      CloseActiveZone();
      ok := AllocateNewZone();
    }

    /** The end of a turn of BufferedAppend or SparseAppend, which has stored len bytes: if the zone is full,
        what is left is moved to the front of the buffer, and the next zone is opened. */
    method LeaveFullZone(buffer: array<byte>, at: nat, len: nat, left: nat, ghost data: seq<byte>, ghost done: nat)
      returns (ok: bool)
      requires Valid() && mode != Direct && active.Some? && active.value < |dev.disk|
      requires left > 0 ==> |dev.disk[active.value]| == dev.geo.capacity && Stands(buffer, at + len, data, done, left)
      modifies this, dev`busy, buffer
      ensures Valid() && Room() && Bytes() == old(Bytes()) && ok == active.Some? && (!ok ==> !dev.SomeFree())
      ensures left > 0 ==> Stands(buffer, at, data, done, left)
      ensures |dev.disk[old(active).value]| < dev.geo.capacity ==> active == old(active)
      ensures Owns(old(dev.disk), dev.disk, old(dev.busy), dev.busy, old(active), active, dev.geo.capacity)
    {
      hide FileOk, DiskOk, FileContent, Pending, Stands, Device.SomeFree;
      GeometryFacts(dev.geo, dev.disk);
      ActiveFacts(dev.geo, dev.disk, mode, State());
      if |dev.disk[active.value]| < dev.geo.capacity {
        return true;
      }
      if left > 0 {
        MoveDown(buffer, at, at + len, left, data, done);
      }
      NothingPending(dev.geo, dev.disk, mode, State());
      ok := NextZone();
    }

    /** Appends the first n bytes of the buffer, which has room to pad them to a block. The
        buffer is padded and moved in place. `done` bytes are stored, all if there is no error. */
    method BufferedAppend(buffer: array<byte>, n: nat) returns (ok: bool, ghost done: nat)
      requires Valid() && Room() && mode == Buffered && RoundUp(n, dev.geo.bs) <= buffer.Length
      modifies this, dev`disk, dev`busy, buffer
      ensures Valid() && Room() && done <= n && (ok ==> done == n) && (!ok ==> !dev.SomeFree())
      ensures Bytes() == old(Bytes()) + old(buffer[..n])[..done]
      ensures !ok ==> active.None? && (done == 0 ==> buffer[..] == old(buffer[..]))
      ensures n > 0 && !ok ==> (done == 0 <==> old(active.None? && !dev.SomeFree()))
      ensures Owns(old(dev.disk), dev.disk, old(dev.busy), dev.busy, old(active), active, dev.geo.capacity)
    {
      hide FileOk, DiskOk, FileContent, Aligned, RoundUp, Pending, Stands, Owns, GrewOnly, Zeros, Device.SomeFree;
      GeometryFacts(dev.geo, dev.disk);
      ghost var data, before, mine := buffer[..n], Bytes(), active;
      SliceStands(buffer, 0, n);
      OwnsStart(dev.disk, dev.busy, active, dev.geo.capacity);
      assert buffer[0..0 + n] == data;
      var left := n;
      done := 0;
      assert before + data[..0] == before;
      if active.None? {
        ok := AllocateNewZone();
        if !ok {
          return;
        }
      }
      while left > 0
        invariant 0 <= left <= n && done == n - left && Valid() && Room() && active.Some?
        invariant RoundUp(left, dev.geo.bs) <= buffer.Length && (left > 0 ==> Stands(buffer, 0, data, done, left))
        invariant Bytes() == before + data[..done] && (done == 0 ==> buffer[..] == old(buffer[..]))
        invariant Owns(old(dev.disk), dev.disk, old(dev.busy), dev.busy, mine, active, dev.geo.capacity)
      {
        var z := active.value;
        ghost var disk := dev.disk;
        var len := BufferedTurn(buffer, left, data, done);
        OwnsGrew(old(dev.disk), disk, dev.disk, old(dev.busy), dev.busy, mine, active, dev.geo.capacity);
        JoinData(data, done, len);
        GeometryFacts(dev.geo, dev.disk);
        left, done := left - len, done + len;
        ghost var busy := dev.busy;
        ok := LeaveFullZone(buffer, 0, len, left, data, done);
        OwnsThen(old(dev.disk), dev.disk, dev.disk, old(dev.busy), busy, dev.busy, mine, Some(z), active,
          dev.geo.capacity);
        if !ok {
          return;
        }
      }
      return true, n;
    }

    /** One turn: as much as fits in the active zone, padded to a block. Padding overwrites only
        what is behind the last byte to be written. */
    method BufferedTurn(buffer: array<byte>, left: nat, ghost data: seq<byte>, ghost done: nat) returns (len: nat)
      requires Valid() && Room() && mode == Buffered && active.Some? && 0 < left
      requires RoundUp(left, dev.geo.bs) <= buffer.Length && Stands(buffer, 0, data, done, left)
      modifies this`extents, this`start, this`size, dev`disk, buffer
      ensures Valid() && 0 < len <= left && Bytes() == old(Bytes()) + data[done..done + len]
      ensures |dev.disk| == |old(dev.disk)| && GrewOnly(old(dev.disk), dev.disk, active.value)
      ensures RoundUp(left - len, dev.geo.bs) <= buffer.Length
      ensures dev.disk[active.value] ==
        old(dev.disk[active.value]) + data[done..done + len] + Zeros(RoundUp(len, dev.geo.bs) - len)
      ensures len < left ==>
        |dev.disk[active.value]| == dev.geo.capacity && Stands(buffer, len, data, done + len, left - len)
    {
      hide FileOk, DiskOk, FileContent, Aligned, RoundUp, Pending;
      var z := active.value;
      GeometryFacts(dev.geo, dev.disk);
      var room := dev.geo.capacity - |dev.disk[z]|;
      len := if left > room then room else left;
      TurnFits(dev.geo, dev.disk, z, 0, left, len);
      var total := RoundUp(len, dev.geo.bs);
      SetZero(buffer, len, total);
      var bytes := buffer[..total];
      StandsSlice(buffer, 0, data, done, len);
      assert bytes[0..len] == buffer[0..len];
      AppendBlocks(bytes, 0, len);
    }

    /** Appends n bytes that stand behind the space for a header in the buffer. Every turn
        writes a segment: header, payload and padding. */
    method SparseAppend(buffer: array<byte>, n: nat) returns (ok: bool, ghost done: nat)
      requires Valid() && Room() && mode == Sparse && RoundUp(SPARSE_HEADER_SIZE + n, dev.geo.bs) <= buffer.Length
      modifies this, dev`disk, dev`busy, buffer
      ensures Valid() && Room() && done <= n && (ok ==> done == n) && (!ok ==> !dev.SomeFree())
      ensures Bytes() == old(Bytes()) + old(buffer[8..8 + n])[..done]
      ensures !ok ==> active.None? && (done == 0 ==> buffer[..] == old(buffer[..]))
      ensures n > 0 && !ok ==> (done == 0 <==> old(active.None? && !dev.SomeFree()))
      ensures Owns(old(dev.disk), dev.disk, old(dev.busy), dev.busy, old(active), active, dev.geo.capacity)
    {
      hide FileOk, DiskOk, FileContent, Aligned, RoundUp, Pending, Segment, PutFixed, Stands, Owns, GrewOnly,
        Device.SomeFree;
      GeometryFacts(dev.geo, dev.disk);
      ghost var data, before, mine := buffer[8..8 + n], Bytes(), active;
      SliceStands(buffer, 8, n);
      OwnsStart(dev.disk, dev.busy, active, dev.geo.capacity);
      var left := n;
      done := 0;
      assert before + data[..0] == before;
      if active.None? {
        ok := AllocateNewZone();
        if !ok {
          return;
        }
      }
      while left > 0
        invariant 0 <= left <= n && done == n - left && Valid() && Room() && active.Some?
        invariant RoundUp(8 + left, dev.geo.bs) <= buffer.Length && (left > 0 ==> Stands(buffer, 8, data, done, left))
        invariant Bytes() == before + data[..done] && (done == 0 ==> buffer[..] == old(buffer[..]))
        invariant Owns(old(dev.disk), dev.disk, old(dev.busy), dev.busy, mine, active, dev.geo.capacity)
      {
        var z := active.value;
        ghost var disk := dev.disk;
        var len := SparseTurn(buffer, left, data, done);
        OwnsGrew(old(dev.disk), disk, dev.disk, old(dev.busy), dev.busy, mine, active, dev.geo.capacity);
        JoinData(data, done, len);
        GeometryFacts(dev.geo, dev.disk);
        left, done := left - len, done + len;
        ghost var busy := dev.busy;
        ok := LeaveFullZone(buffer, 8, len, left, data, done);
        OwnsThen(old(dev.disk), dev.disk, dev.disk, old(dev.busy), busy, dev.busy, mine, Some(z), active,
          dev.geo.capacity);
        if !ok {
          return;
        }
      }
      return true, n;
    }

    /** One turn: header, as much as fits in the active zone, and padding. */
    method SparseTurn(buffer: array<byte>, left: nat, ghost data: seq<byte>, ghost done: nat) returns (len: nat)
      requires Valid() && Room() && mode == Sparse && active.Some? && 0 < left
      requires RoundUp(8 + left, dev.geo.bs) <= buffer.Length && Stands(buffer, 8, data, done, left)
      modifies this`extents, this`start, this`size, dev`disk, buffer
      ensures Valid() && 0 < len <= left && Bytes() == old(Bytes()) + data[done..done + len]
      ensures |dev.disk| == |old(dev.disk)| && GrewOnly(old(dev.disk), dev.disk, active.value)
      ensures RoundUp(8 + left - len, dev.geo.bs) <= buffer.Length
      ensures dev.disk[active.value] == old(dev.disk[active.value]) + Segment(data[done..done + len], dev.geo.bs)
      ensures len < left ==>
        |dev.disk[active.value]| == dev.geo.capacity && Stands(buffer, 8 + len, data, done + len, left - len)
    {
      hide FileOk, DiskOk, FileContent, Aligned, RoundUp, Pending, Segment, PutFixed;
      var z := active.value;
      GeometryFacts(dev.geo, dev.disk);
      var room := dev.geo.capacity - |dev.disk[z]|;
      var write := if left + 8 > room then room else left + 8;
      TurnFits(dev.geo, dev.disk, z, 8, left, write);
      var total := RoundUp(write, dev.geo.bs);
      len := write - 8;
      SetZero(buffer, write, total);
      EncodeHeader(buffer, len);
      var bytes := buffer[..total];
      StandsSlice(buffer, 8, data, done, len);
      SliceOfBuffer(buffer, 8, 8 + len, total);
      IsSegment(bytes, len, dev.geo.bs);
      AppendBlocks(bytes, 8, len);
    }

    /** Direct append of block-aligned data. Its size is passed as a 32-bit integer: of 4 GiB and
        more, only the rest modulo 4 GiB is stored. It fails only when no zone is free. */
    method Append(data: seq<byte>) returns (ok: bool, ghost done: nat)
      requires Valid() && mode == Direct && Aligned(|data|, dev.geo.bs) && Aligned(0x20000, dev.geo.bs)
      modifies this, dev`disk, dev`busy
      ensures Valid() && done <= Low32(|data|) && (ok ==> done == Low32(|data|)) && (!ok ==> !dev.SomeFree())
      ensures Low32(|data|) <= |data| && Bytes() == old(Bytes()) + data[..done]
      ensures ok ==> (Bytes() == old(Bytes()) + data <==> |data| < 0x1_0000_0000)
      ensures Owns(old(dev.disk), dev.disk, old(dev.busy), dev.busy, old(active), active, dev.geo.capacity)
    {
      hide FileOk, DiskOk, FileContent, Aligned, Pending, Owns, Device.SomeFree;
      ghost var before, mine := Bytes(), active;
      OwnsStart(dev.disk, dev.busy, active, dev.geo.capacity);
      LowAligned(|data|, dev.geo.bs);
      var size := Low32(|data|);
      var left: nat, offset := size, 0;
      done := 0;
      assert before + data[..0] == before;
      if active.None? {
        ok := AllocateNewZone();
        if !ok {
          return;
        }
      }
      while left > 0
        invariant done == offset == size - left <= size && Valid() && active.Some? && Aligned(left, dev.geo.bs)
        invariant Bytes() == before + data[..done]
        invariant Owns(old(dev.disk), dev.disk, old(dev.busy), dev.busy, mine, active, dev.geo.capacity)
      {
        ghost var busy, was := dev.busy, active;
        ok := MakeRoom();
        OwnsThen(old(dev.disk), dev.disk, dev.disk, old(dev.busy), busy, dev.busy, mine, was, active, dev.geo.capacity);
        if !ok {
          return;
        }
        var z := active.value;
        GeometryFacts(dev.geo, dev.disk);
        var room := dev.geo.capacity - |dev.disk[z]|;
        var write := if left > room then room else left;
        RoomAligned(dev.geo, dev.disk, z);
        ghost var disk := dev.disk;
        WriteDirect(data[offset..offset + write]);
        OwnsGrew(old(dev.disk), disk, dev.disk, old(dev.busy), dev.busy, mine, active, dev.geo.capacity);
        JoinData(data, done, write);
        AlignedSub(write, left, dev.geo.bs);
        left, offset, done := left - write, offset + write, done + write;
      }
      StoredAll(before, data, done);
      return true, done;
    }

    /** The start of a turn of Append: a full zone is closed and the next one opened. */
    method MakeRoom() returns (ok: bool)
      requires Valid() && mode == Direct && active.Some?
      modifies this, dev`busy
      ensures Valid() && Room() && Bytes() == old(Bytes()) && ok == active.Some? && (!ok ==> !dev.SomeFree())
      ensures Owns(old(dev.disk), dev.disk, old(dev.busy), dev.busy, old(active), active, dev.geo.capacity)
    {
      hide FileOk, DiskOk, FileContent, Pending;
      GeometryFacts(dev.geo, dev.disk);
      ActiveFacts(dev.geo, dev.disk, mode, State());
      if |dev.disk[active.value]| == dev.geo.capacity {
        PushExtent();
        ok := NextZone();
      } else {
        ok := true;
      }
    }

    /** The write of a turn of Append. */
    method WriteDirect(data: seq<byte>)
      requires Valid() && mode == Direct && active.Some? && Aligned(|data|, dev.geo.bs)
      requires |dev.disk[active.value]| + |data| <= dev.geo.capacity
      modifies this`size, dev`disk
      ensures Valid() && Bytes() == old(Bytes()) + data
      ensures dev.disk == old(dev.disk)[active.value := old(dev.disk)[active.value] + data]
    {
      hide FileOk, DiskOk, FileContent, Aligned;
      DirectWriteOk(dev.geo, dev.disk, State(), data);
      ghost var f := State().(size := size + |data|);
      var stored := dev.Append(active.value, data);
      size := size + |data|;
      assert State() == f;
    }

    /** Makes an extent of the pending direct writes. */
    method PushExtent()
      requires Valid() && mode == Direct
      modifies this`extents, this`start, this`filepos
      ensures Valid() && Bytes() == old(Bytes()) && Pending(dev.disk, mode, State()) == []
      ensures active.None? ==> extents == old(extents)
      ensures active.Some? && old(start).Some? ==>
        var length := old(size - filepos);
        extents == old(extents) + if length == 0 then [] else [Ext(active.value, old(start).value.off, length)]
    {
      hide FileOk, DiskOk, FileContent;
      if active.None? {
        NoActive(dev.geo, dev.disk, mode, State());
        return;
      }
      ActiveFacts(dev.geo, dev.disk, mode, State());
      PushOk(dev.geo, dev.disk, State());
      var length := size - filepos;
      if length == 0 {
        assert dev.disk[active.value][start.value.off..] == [];
        return;
      }
      ghost var f := Pushed(dev.disk, State());
      extents := extents + [Ext(active.value, start.value.off, length)];
      start := Some(Pos(active.value, |dev.disk[active.value]|));
      filepos := size;
      assert State() == f;
    }

    /** All extents and the active extent start are in the log, unless the record is lost. */
    method PersistMetadata(works: bool) returns (ok: bool)
      requires Valid()
      modifies this`synced, this`logged
      ensures Valid() && Bytes() == old(Bytes()) && ok == works
      ensures ok ==> synced == |extents| && logged == start && CrashGives(Bytes())
      ensures !ok ==> synced == old(synced) && logged == old(logged)
    {
      if !works {
        return false;
      }
      hide FileOk, DiskOk, FileContent, RecoverFile;
      SyncOk(dev.geo, dev.disk, mode, State());
      SyncRecovers(dev.geo, dev.disk, mode, State());
      ghost var f := Synced(State());
      synced, logged := |extents|, start;
      assert State() == f;
      return true;
    }

    /** After a crash now, a mount gives the file this content. */
    ghost predicate CrashGives(content: seq<byte>)
      requires Valid()
      reads this, dev
    {
      SyncedWithin() &&
      var r := RecoverFile(dev.geo, dev.disk, extents[..synced], logged, mode == Sparse);
      r.Recovered? && AllInside(dev.disk, r.extents) && Content(dev.disk, r.extents) == content
    }

    ghost predicate SyncedWithin()
      reads this, dev
    {
      synced <= |extents| && dev.geo.bs > 0
    }

    /** CloseWR of a file with nothing pending: the log learns that there is no active extent,
        and the zone is released. When the record is lost, the file has forgotten its active
        extent start and keeps its zone. */
    method CloseWR(works: bool) returns (ok: bool)
      requires Valid() && ActiveOk(dev.disk, mode, State()) && Pending(dev.disk, mode, State()) == []
      modifies this`active, this`start, this`synced, this`logged, dev`busy
      ensures ok == works && start.None?
      ensures ok ==> Valid() && active.None? && logged.None? && Bytes() == old(Bytes()) && CrashGives(Bytes())
      ensures ok && old(active).None? ==> dev.busy == old(dev.busy)
      ensures ok && old(active).Some? ==> dev.busy == old(dev.busy)[old(active).value := false]
      ensures !ok ==>
        active == old(active) && synced == old(synced) && logged == old(logged) && dev.busy == old(dev.busy)
      ensures !ok ==> (Valid() <==> old(active).None?) && (Valid() ==> Bytes() == old(Bytes()))
    {
      if !works {
        StartForgotten(dev.geo, dev.disk, mode, State());
        ghost var g := State().(start := None);
        start := None;
        assert State() == g;
        return false;
      }
      hide FileOk, DiskOk, FileContent, Pending, RecoverFile;
      ClosedOk(dev.geo, dev.disk, mode, State());
      ghost var f := Closed(State());
      start, synced, logged := None, |extents|, None;
      if active.Some? {
        dev.busy := dev.busy[active.value := false];
        active := None;
      }
      assert State() == f;
      return true;
    }

    /** What a mount finds of this file after a crash in its present state: all bytes of a
        direct or sparse file, and the synced extents of every file. */
    method RecoverAfterCrash() returns (r: Recovery)
      requires Valid()
      ensures r.Recovered? && AllInside(dev.disk, r.extents) && synced <= |extents| && extents[..synced] <= r.extents
      ensures mode != Buffered ==> Content(dev.disk, r.extents) == Bytes()
      ensures mode == Sparse ==> r.extents == extents
    {
      hide FileOk, DiskOk, Content, FileContent, RecoverFile, Inside;
      CrashFacts(dev.geo, dev.disk, mode, State());
      r := RecoverMethod(dev.geo, dev.disk, extents[..synced], logged, mode == Sparse);
    }
  }

  /** ZoneFile::Recover, with the loop of RecoverSparseExtents. */
  method RecoverMethod(geo: Geometry, disk: Disk, extents: seq<Ext>, logged: Option<Pos>, sparse: bool)
    returns (r: Recovery)
    requires geo.bs > SPARSE_HEADER_SIZE
    ensures r == RecoverFile(geo, disk, extents, logged, sparse)
  {
    if logged.None? {
      return Recovered(extents);
    }
    var p := Resolve(geo, logged.value);
    if p.zone >= |disk| || |disk[p.zone]| < p.off {
      return Failed;
    }
    if |disk[p.zone]| == p.off {
      return Recovered(extents);
    }
    if !sparse {
      return Recovered(extents + [Ext(p.zone, p.off, |disk[p.zone]| - p.off)]);
    }
    var es := RecoverSparseExtents(geo, disk, p);
    return if es.None? then Failed else Recovered(extents + es.value);
  }

  /** RecoverSparseExtents: reads the header of every segment up to the write pointer. */
  method RecoverSparseExtents(geo: Geometry, disk: Disk, p: Pos) returns (es: Option<seq<Ext>>)
    requires geo.bs > SPARSE_HEADER_SIZE && p.zone < |disk| && p.off <= |disk[p.zone]|
    ensures es == match WalkSegments(disk[p.zone][p.off..], p.zone, p.off, geo.bs)
                  case Bad => None
                  case Walked(found, _) => Some(found)
  {
    hide RoundUp, Aligned, FixedValue, WalkSegments;
    var zone, end := disk[p.zone], |disk[p.zone]|;
    var next, found := p.off, [];
    ghost var w := WalkSegments(zone[p.off..], p.zone, p.off, geo.bs);
    assert After([], w) == w;
    while next < end
      invariant p.off <= next
      invariant next <= end ==> w == After(found, WalkSegments(zone[next..], p.zone, next, geo.bs))
      invariant next > end ==> w == Walked(found, next)
    {
      WalkTurn(zone, p.zone, next, geo.bs);
      if end - next < geo.bs {
        return None;
      }
      var len := FixedValue(zone[next..next + 8]);
      if len == 0 {
        return None;
      }
      var step := RoundUp(SPARSE_HEADER_SIZE + len, geo.bs);
      var e := Ext(p.zone, next + SPARSE_HEADER_SIZE, len);
      if next + step <= end {
        AfterPrepend(found, e, WalkSegments(zone[next + step..], p.zone, next + step, geo.bs));
      }
      found := found + [e];
      next := next + step;
    }
    NoSegments(p.zone, next, geo.bs);
    assert next == end ==> zone[next..] == [] && found + [] == found;
    return Some(found);
  }

  /** One turn of the walk, at offset `next` of a zone. */
  lemma WalkTurn(zone: seq<byte>, z: nat, next: nat, bs: nat)
    requires bs > SPARSE_HEADER_SIZE && next < |zone|
    ensures var w := WalkSegments(zone[next..], z, next, bs);
      if |zone| - next < bs then w == Bad
      else
        var len := FixedValue(zone[next..next + 8]);
        var step, e := RoundUp(SPARSE_HEADER_SIZE + len, bs), Ext(z, next + SPARSE_HEADER_SIZE, len);
        if len == 0 then w == Bad
        else if next + step > |zone| then w == Walked([e], next + step)
        else w == Prepend(e, WalkSegments(zone[next + step..], z, next + step, bs))
  {
    hide RoundUp, Aligned, FixedValue;
    if |zone| - next >= bs {
      assert zone[next..][..8] == zone[next..next + 8];
      var step := RoundUp(SPARSE_HEADER_SIZE + FixedValue(zone[next..next + 8]), bs);
      assert next + step <= |zone| ==> zone[next..][step..] == zone[next + step..];
    }
  }

  lemma AfterPrepend(found: seq<Ext>, e: Ext, w: Walk)
    ensures After(found, Prepend(e, w)) == After(found + [e], w)
  {
    if w.Walked? { assert found + ([e] + w.extents) == found + [e] + w.extents; }
  }

  /** A walk that continues one that found `es`. */
  function After(es: seq<Ext>, w: Walk): Walk {
    if w.Bad? then Bad else Walked(es + w.extents, w.end)
  }

  lemma CrashFacts(geo: Geometry, disk: Disk, mode: Mode, f: FileState)
    requires FileOk(geo, disk, mode, f)
    ensures geo.bs > SPARSE_HEADER_SIZE && f.synced <= |f.extents| && AllInside(disk, f.extents)
    ensures ActiveOk(disk, mode, f)
    ensures var r := RecoverFile(geo, disk, f.extents[..f.synced], f.logged, mode == Sparse);
      && r.Recovered? && AllInside(disk, r.extents) && f.extents[..f.synced] <= r.extents
      && (mode == Sparse ==> r.extents == f.extents)
      && (mode != Buffered ==> Content(disk, r.extents) == FileContent(disk, mode, f))
  {
    hide RecoverFile, Content;
    RecoverGivesContent(geo, disk, mode, f);
    assert mode == Sparse ==> Content(disk, f.extents) + [] == Content(disk, f.extents);
  }

  // ---------- the buffer ----------

  /** `n` bytes of data, from `from` on, stand at offset `at` of the buffer. */
  ghost predicate Stands(buffer: array<byte>, at: nat, data: seq<byte>, from: nat, n: nat)
    reads buffer
  {
    at + n <= buffer.Length && from + n <= |data| && forall j :: from <= j < from + n ==>
      data[j] == buffer[at + (j - from)]
  }

  lemma SliceOfBuffer(buffer: array<byte>, a: nat, b: nat, n: nat)
    requires a <= b <= n <= buffer.Length
    ensures buffer[..n][a..b] == buffer[a..b] && buffer[..n][..a] == buffer[..a]
  {
  }

  lemma SliceStands(buffer: array<byte>, at: nat, n: nat)
    requires at + n <= buffer.Length
    ensures Stands(buffer, at, buffer[at..at + n], 0, n)
  {
  }

  lemma StandsSlice(buffer: array<byte>, at: nat, data: seq<byte>, from: nat, n: nat)
    requires Stands(buffer, at, data, from, n)
    ensures buffer[at..at + n] == data[from..from + n]
  {
    var l, r := buffer[at..at + n], data[from..from + n];
    forall i | 0 <= i < n
      ensures l[i] == r[i]
    {
      assert r[i] == data[from + i] == buffer[at + (from + i - from)];
    }
  }

  lemma JoinData(data: seq<byte>, done: nat, n: nat)
    requires done + n <= |data|
    ensures data[..done] + data[done..done + n] == data[..done + n]
  {
  }

  /** memset of the padding. */
  method SetZero(buffer: array<byte>, lo: nat, hi: nat)
    requires lo <= hi <= buffer.Length
    modifies buffer
    ensures forall i :: 0 <= i < buffer.Length ==> buffer[i] == if lo <= i < hi then 0 else old(buffer[i])
  {
    forall i | lo <= i < hi { buffer[i] := 0; }
  }

  method EncodeHeader(buffer: array<byte>, len: nat)
    requires 8 <= buffer.Length
    modifies buffer
    ensures buffer[..8] == PutFixed(8, len)
    ensures forall i :: 8 <= i < buffer.Length ==> buffer[i] == old(buffer[i])
  {
    var header := PutFixed(8, len);
    forall i | 0 <= i < 8 { buffer[i] := header[i]; }
  }

  /** memmove of n bytes towards the front. */
  method MoveDown(buffer: array<byte>, dst: nat, src: nat, n: nat, ghost data: seq<byte>, ghost from: nat)
    requires dst <= src && Stands(buffer, src, data, from, n)
    modifies buffer
    ensures Stands(buffer, dst, data, from, n)
  {
    forall j | dst <= j < dst + n { buffer[j] := buffer[j + (src - dst)]; }
    forall j | from <= j < from + n
      ensures data[j] == buffer[dst + (j - from)]
    {
      assert data[j] == old(buffer[src + (j - from)]);
      assert dst + (j - from) + (src - dst) == src + (j - from);
    }
  }

  lemma RoomAligned(geo: Geometry, disk: Disk, z: nat)
    requires DiskOk(geo, disk) && z < |disk|
    ensures |disk[z]| <= geo.capacity && Aligned(geo.capacity - |disk[z]|, geo.bs)
  {
    AlignedSub(|disk[z]|, geo.capacity, geo.bs);
  }

  /** Header, payload and zeros are a segment. */
  lemma IsSegment(bytes: seq<byte>, len: nat, bs: nat)
    requires bs > 0 && |bytes| == RoundUp(8 + len, bs) && bytes[..8] == PutFixed(8, len)
    requires forall i :: 8 + len <= i < |bytes| ==> bytes[i] == 0
    ensures bytes == Segment(bytes[8..8 + len], bs)
  {
    hide PutFixed;
    assert bytes == bytes[..8] + bytes[8..8 + len] + bytes[8 + len..];
    assert bytes[8 + len..] == Zeros(|bytes| - (8 + len));
  }

  lemma NothingPending(geo: Geometry, disk: Disk, mode: Mode, f: FileState)
    requires FileOk(geo, disk, mode, f) && mode != Direct
    ensures ActiveOk(disk, mode, f) && Pending(disk, mode, f) == []
  {
  }

  lemma GeometryFacts(geo: Geometry, disk: Disk)
    requires DiskOk(geo, disk)
    ensures geo.bs > SPARSE_HEADER_SIZE
    ensures forall z :: 0 <= z < |disk| ==> |disk[z]| <= geo.capacity
  {
  }

  lemma ActiveFacts(geo: Geometry, disk: Disk, mode: Mode, f: FileState)
    requires FileOk(geo, disk, mode, f) && f.active.Some?
    ensures ActiveOk(disk, mode, f) && geo.bs > SPARSE_HEADER_SIZE
  {
  }

  /** The number of bytes of a turn: it fits in the zone with its padding, and there is
      padding only when the turn writes everything that is left. */
  lemma TurnFits(geo: Geometry, disk: Disk, z: nat, head: nat, left: nat, write: nat)
    requires DiskOk(geo, disk) && z < |disk| && |disk[z]| < geo.capacity && 0 < left && head <= SPARSE_HEADER_SIZE
    requires write == if left + head > geo.capacity - |disk[z]| then geo.capacity - |disk[z]| else left + head
    ensures head < write && RoundUp(write, geo.bs) <= geo.capacity - |disk[z]|
    ensures RoundUp(write, geo.bs) <= RoundUp(left + head, geo.bs)
    ensures write < left + head ==> RoundUp(write, geo.bs) == write == geo.capacity - |disk[z]|
    ensures RoundUp(left + head - (write - head), geo.bs) <= RoundUp(left + head, geo.bs)
  {
    var room := geo.capacity - |disk[z]|;
    AlignedSub(|disk[z]|, geo.capacity, geo.bs);
    MultipleAtLeastBlock(room, geo.bs);
    hide Aligned, RoundUp;
    RoundUpIsLeast(write, room, geo.bs);
    RoundUpIsLeast(write, RoundUp(left + head, geo.bs), geo.bs);
    RoundUpIsLeast(left + head - (write - head), RoundUp(left + head, geo.bs), geo.bs);
    if write < left + head {
      RoundUpAligned(room, geo.bs);
    }
  }
}
