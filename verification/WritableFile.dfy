/** ZonedWritableFile: appends that are collected in a buffer, flushes, syncs and the close. */
module WritableFile {
  import opened Common
  import opened Coding
  import opened Blocks
  import opened ZoneData
  import opened ZoneFiles
  import opened ZoneFileIO

  const BUFFER_SIZE: nat := 0x100000

  class ZonedWritableFile {
    const file: ZoneFile
    /** The sparse buffer, which begins with space for a header, or the plain one. */
    const buffer: array<byte>
    const head: nat
    const bufferSize: nat
    var pos: nat
    var wp: nat
    var open: bool

    ghost predicate Valid()
      reads this, file, file.dev
    {
      && file.Valid() && pos <= bufferSize
      && (if file.mode == Direct then pos == 0 else file.Room() && bufferSize > 0 && BufferFits(file.dev.geo.bs))
    }

    ghost predicate BufferFits(bs: nat)
    {
      && head == (if file.mode == Sparse then SPARSE_HEADER_SIZE else 0)
      && bs > 0 && RoundUp(head + bufferSize, bs) <= buffer.Length
    }

    /** What was appended: the bytes of the file and those in the buffer. */
    ghost function Contents(): seq<byte>
      requires Valid()
      reads this, file, file.dev, buffer
    {
      file.Bytes() + InBuffer()
    }

    ghost function InBuffer(): seq<byte>
      reads this, buffer
    {
      if head + pos <= buffer.Length then buffer[head..head + pos] else []
    }

    constructor (file: ZoneFile)
      requires file.Valid() && file.Room() && Aligned(BUFFER_SIZE, file.dev.geo.bs)
      ensures Valid() && open && this.file == file && fresh(buffer) && Contents() == file.Bytes() && wp == file.size
    {
      this.file := file;
      var bs := file.dev.geo.bs;
      if file.mode == Sparse {
        buffer := new byte[BUFFER_SIZE + bs];
        head, bufferSize := SPARSE_HEADER_SIZE, BUFFER_SIZE - SPARSE_HEADER_SIZE;
      } else {
        buffer := new byte[BUFFER_SIZE];
        head, bufferSize := 0, BUFFER_SIZE;
      }
      pos, wp, open := 0, file.size, true;
      RoundUpAligned(BUFFER_SIZE, bs);
      new;
      assert file.Bytes() + [] == file.Bytes();
    }

    lemma BufferHasRoom()
      requires Valid() && file.mode != Direct
      ensures file.dev.geo.bs > 0 && head + pos <= buffer.Length
      ensures RoundUp(head + pos, file.dev.geo.bs) <= buffer.Length
      ensures head == (if file.mode == Sparse then SPARSE_HEADER_SIZE else 0) && head + bufferSize <= buffer.Length
    {
      var bs := file.dev.geo.bs;
      RoundUpIsLeast(head + pos, RoundUp(head + bufferSize, bs), bs);
    }

    /** All of the buffer goes to the file. If that fails, the first `done` bytes of it do, and it is
        as full as it was: with nothing stored it is as it was, and otherwise something is in the file
        and in the buffer. */
    method FlushBuffer() returns (ok: bool, ghost done: nat)
      requires Valid() && file.mode != Direct
      modifies this`pos, this`wp, file, file.dev`disk, file.dev`busy, buffer
      ensures Valid()
      ensures ok ==> pos == 0 && Contents() == file.Bytes() == old(Contents()) && wp == old(wp) + old(pos)
      ensures !ok ==> wp == old(wp) && old(file.Bytes()) <= file.Bytes() <= old(Contents()) && !file.dev.SomeFree()
      ensures !ok ==> pos == old(pos) && done <= pos && file.Bytes() == old(file.Bytes()) + old(InBuffer())[..done]
      ensures !ok ==> |Contents()| == |old(Contents())| + done && (Contents() == old(Contents()) <==> done == 0)
      ensures !ok ==> file.active.None? && (done == 0 <==> old(file.active.None? && !file.dev.SomeFree()))
    {
      hide FileOk, FileContent, DiskOk, Aligned, RoundUp, Owns;
      BufferHasRoom();
      if pos == 0 {
        assert Contents() == file.Bytes();
        return true, 0;
      }
      ghost var data, before := InBuffer(), file.Bytes();
      if file.mode == Sparse {
        ok, done := file.SparseAppend(buffer, pos);
      } else {
        assert buffer[0..pos] == buffer[..pos];
        ok, done := file.BufferedAppend(buffer, pos);
      }
      assert file.Bytes() == before + data[..done] && data[..|data|] == data;
      PrefixOf(before, data, done);
      if !ok {
        BufferHasRoom();
        return false, done;
      }
      wp, pos := wp + pos, 0;
      assert Contents() == file.Bytes();
      return true, done;
    }

    /** A flush that fails, and another one after somebody gave up a zone, as by a sync and then by
        the close: the file has exactly
        what was appended, if and only if it had no zone at first, and there was none to be had.
        Otherwise it has as many bytes more as the first flush has stored. */
    method FlushTwice(z: nat) returns (first: bool, second: bool, ghost done: nat)
      requires Valid() && file.mode != Direct
      modifies this`pos, this`wp, file, file.dev`disk, file.dev`busy, buffer
      ensures Valid()
      ensures !first && second ==>
        && |file.Bytes()| == |old(Contents())| + done && pos == 0
        && (file.Bytes() == old(Contents()) <==> old(file.active.None? && !file.dev.SomeFree()))
    {
      hide FileOk, FileContent, InBuffer, BufferFits;
      ghost var again;
      first, done := FlushBuffer();
      if !first && z < |file.dev.busy| {
        file.dev.busy := file.dev.busy[z := false];
      }
      second, again := FlushBuffer();
    }

    /** memcpy into the buffer. */
    method CopyIn(data: seq<byte>)
      requires Valid() && file.mode != Direct && pos + |data| <= bufferSize
      modifies this`pos, buffer
      ensures Valid() && Contents() == old(Contents()) + data && file.Bytes() == old(file.Bytes())
      ensures pos == old(pos) + |data|
    {
      BufferHasRoom();
      hide FileOk, FileContent, DiskOk, Aligned, RoundUp;
      ghost var there := InBuffer();
      forall k | 0 <= k < |data| { buffer[head + pos + k] := data[k]; }
      pos := pos + |data|;
      assert InBuffer() == there + data;
    }

    /** One turn of BufferedWrite: a full buffer is flushed, and as much as fits is copied in. */
    method BufferPart(data: seq<byte>) returns (ok: bool, n: nat)
      requires Valid() && file.mode != Direct && data != []
      modifies this`pos, this`wp, file, file.dev`disk, file.dev`busy, buffer
      ensures Valid() && file.Valid()
      ensures ok ==> 0 < n <= |data| && Contents() == old(Contents()) + data[..n] && old(file.Bytes()) <= file.Bytes()
      ensures ok ==> wp - |file.Bytes()| == old(wp) - |old(file.Bytes())|
      ensures !ok ==> old(file.Bytes()) <= file.Bytes() <= old(Contents()) && !file.dev.SomeFree()
      ensures |data| <= bufferSize - old(pos) ==> ok && n == |data|
    {
      hide *;
      FlushedSize();
      ghost var before, all := file.Bytes(), Contents();
      if bufferSize - pos == 0 {
        ghost var done;
        ok, done := FlushBuffer();
        FlushedSize();
        if !ok {
          n := 0;
          return;
        }
      }
      assert before <= file.Bytes() && Contents() == all;
      n := if |data| > bufferSize - pos then bufferSize - pos else |data|;
      CopyIn(data[..n]);
      FlushedSize();
      ok := true;
    }

    /** What fits in the buffer is copied there; the rest goes through it to the file. The size is
        taken as a 32-bit integer. */
    method BufferedWrite(data: seq<byte>) returns (ok: bool)
      requires Valid() && file.mode != Direct
      modifies this`pos, this`wp, file, file.dev`disk, file.dev`busy, buffer
      ensures Valid() && Low32(|data|) <= |data|
      ensures ok ==>
        Contents() == old(Contents()) + data[..Low32(|data|)] && wp - |file.Bytes()| == old(wp) - |old(file.Bytes())|
      ensures ok ==> (Contents() == old(Contents()) + data <==> |data| < 0x1_0000_0000)
      ensures !ok ==> old(file.Bytes()) <= file.Bytes() <= old(Contents()) + data && !file.dev.SomeFree()
      ensures |data| <= bufferSize - old(pos) ==> ok
    {
      hide *;
      var from := 0;
      ghost var all := Contents();
      LowIsLess(|data|);
      var left := Low32(|data|);
      assert all + data[..0] == all;
      FlushedSize();
      while from < left
        invariant Valid() && file.Valid() && from <= left <= |data|
        invariant |data| <= bufferSize - old(pos) && from > 0 ==> from == left
        invariant from == 0 ==> pos == old(pos)
        invariant Contents() == all + data[..from] && old(file.Bytes()) <= file.Bytes()
        invariant wp - |file.Bytes()| == old(wp) - |old(file.Bytes())|
      {
        var n;
        ok, n := BufferPart(data[from..left]);
        if !ok {
          PrefixOf(all, data, from);
          return;
        }
        NextPart(all, data, from, left, n);
        from := from + n;
      }
      StoredAll(all, data, from);
      return true;
    }

    lemma FlushedSize()
      requires Valid() && file.mode != Direct
      ensures |Contents()| == |file.Bytes()| + pos && pos <= bufferSize && bufferSize > 0
      ensures file.Valid() && file.Bytes() <= Contents()
    {
      BufferHasRoom();
    }

    /** A direct append moves the write position by the whole size. */
    method Append(data: seq<byte>) returns (ok: bool)
      requires Valid()
      requires file.mode == Direct ==> Aligned(|data|, file.dev.geo.bs) && Aligned(0x20000, file.dev.geo.bs)
      modifies this`pos, this`wp, file, file.dev`disk, file.dev`busy, buffer
      ensures Valid() && Low32(|data|) <= |data|
      ensures ok ==> Contents() == old(Contents()) + data[..Low32(|data|)]
      ensures ok ==> (Contents() == old(Contents()) + data <==> |data| < 0x1_0000_0000)
      ensures ok ==>
        wp - |file.Bytes()| == old(wp) - |old(file.Bytes())| + if file.mode == Direct then |data| - Low32(|data|) else 0
      ensures !ok ==> old(file.Bytes()) <= file.Bytes() <= old(Contents()) + data && !file.dev.SomeFree()
      ensures file.mode != Direct && |data| <= bufferSize - old(pos) ==> ok
    {
      hide FileOk, FileContent, DiskOk, Aligned, RoundUp, Owns;
      LowIsLess(|data|);
      if file.mode != Direct {
        ok := BufferedWrite(data);
      } else {
        ghost var done;
        ghost var before := file.Bytes();
        ok, done := file.Append(data);
        assert before + [] == before;
        PrefixOf(before, data, done);
        if ok { wp := wp + |data|; }
        assert Contents() == file.Bytes();
      }
    }

    /** An append that is meant for the end of the file. The check compares with what was
        flushed, so with something in the buffer the data goes elsewhere; and such an append
        is accepted whenever the data fits in the buffer. */
    method PositionedAppend(data: seq<byte>, offset: nat) returns (ok: bool)
      requires Valid()
      requires file.mode == Direct ==> Aligned(|data|, file.dev.geo.bs) && Aligned(0x20000, file.dev.geo.bs)
      modifies this`pos, this`wp, file, file.dev`disk, file.dev`busy, buffer
      ensures Valid() && Low32(|data|) <= |data| && (offset != old(wp) ==> !ok && Contents() == old(Contents()))
      ensures ok ==> Contents() == old(Contents()) + data[..Low32(|data|)]
      ensures ok ==> (Contents() == old(Contents()) + data <==> |data| < 0x1_0000_0000)
      ensures ok && old(wp == |file.Bytes()|) ==> (|old(Contents())| == offset <==> old(pos) == 0)
      ensures !ok && offset == old(wp) ==> !file.dev.SomeFree()
      ensures file.mode != Direct && offset == old(wp) && |data| <= bufferSize - old(pos) ==> ok
    {
      hide FileOk, FileContent, DiskOk, Aligned, RoundUp, Owns;
      LowIsLess(|data|);
      if offset != wp {
        return false;
      }
      if file.mode != Direct { FlushedSize(); }
      ok := Append(data);
    }

    /** After a sync, a crash gives the file everything that was appended, padding left out. Only a
        buffered file needs the log for that. */
    method DataSync(works: bool) returns (ok: bool)
      requires Valid()
      modifies this`pos, this`wp, file, file.dev`disk, file.dev`busy, buffer
      ensures Valid()
      ensures ok ==> Contents() == file.Bytes() == old(Contents()) && file.CrashGives(Contents()) && NothingPends()
      ensures ok && file.mode == Buffered ==> file.synced == |file.extents| && file.logged == file.start
      ensures !ok ==> file.mode != Direct && old(file.Bytes()) <= file.Bytes() <= old(Contents())
      ensures file.mode == Buffered && !works ==> !ok
      ensures !ok && (works || file.mode == Sparse) ==> !file.dev.SomeFree()
    {
      hide FileOk, FileContent, DiskOk, Aligned, RoundUp, Owns, RecoverFile, Pending;
      ok := true;
      if file.mode != Direct {
        ghost var done;
        ok, done := FlushBuffer();
        if !ok {
          return;
        }
        if file.mode != Sparse {
          ok := file.PersistMetadata(works);
          if !ok {
            return;
          }
        }
        WrittenThrough(file.dev.geo, file.dev.disk, file.mode, file.State());
      } else {
        file.PushExtent();
        assert InBuffer() == [];
      }
      CrashFacts(file.dev.geo, file.dev.disk, file.mode, file.State());
      assert Contents() == file.Bytes();
    }

    ghost predicate NothingPends()
      reads this, file, file.dev
    {
      ActiveOk(file.dev.disk, file.mode, file.State()) && Pending(file.dev.disk, file.mode, file.State()) == []
    }

    /** Fsync: also the log has everything. */
    method Fsync(works: bool) returns (ok: bool)
      requires Valid()
      modifies this`pos, this`wp, file, file.dev`disk, file.dev`busy, buffer
      ensures Valid()
      ensures ok ==> Contents() == file.Bytes() == old(Contents()) && file.CrashGives(Contents())
      ensures ok ==> works && file.synced == |file.extents| && file.logged == file.start
      ensures !ok ==> old(file.Bytes()) <= file.Bytes() <= old(Contents())
      ensures !ok && works ==> !file.dev.SomeFree()
    {
      hide FileOk, FileContent, DiskOk, Aligned, RoundUp, Owns, RecoverFile, Pending, InBuffer;
      ok := DataSync(works);
      if ok && file.mode != Buffered {
        ok := file.PersistMetadata(works);
        WrittenThrough(file.dev.geo, file.dev.disk, file.mode, file.State());
      }
    }

    /** CloseInternal: everything is in the file, which has no active zone and no active
        extent in the log. When the record of the close is lost, the file is not in order any more
        if it has an active zone. */
    method Close(works: bool) returns (ok: bool)
      requires Valid()
      modifies this`pos, this`wp, this`open, file, file.dev`disk, file.dev`busy, buffer
      ensures ok || file.active.None? ==> Valid()
      ensures !old(open) ==> ok && !open && Contents() == old(Contents())
      ensures ok && old(open) ==> !open && Contents() == file.Bytes() == old(Contents()) && file.CrashGives(Contents())
      ensures ok && old(open) ==> file.active.None? && file.logged.None?
      ensures !ok ==> open && (works ==> !file.dev.SomeFree())
      ensures !ok && Valid() ==> old(file.Bytes()) <= file.Bytes() <= old(Contents())
    {
      hide FileOk, FileContent, DiskOk, Aligned, RoundUp, Owns, RecoverFile, Pending;
      if !open {
        return true;
      }
      ok := DataSync(works);
      if !ok {
        return;
      }
      BufferStays();
      ok := file.CloseWR(works);
      if ok { open := false; }
    }

    lemma BufferStays()
      requires Valid() && Contents() == file.Bytes()
      ensures InBuffer() == []
    {
      assert |Contents()| == |file.Bytes()| + |InBuffer()|;
    }
  }

  lemma PrefixOf(a: seq<byte>, b: seq<byte>, n: nat)
    requires n <= |b|
    ensures a <= a + b[..n] <= a + b
  {
  }

  lemma NextPart(all: seq<byte>, data: seq<byte>, from: nat, to: nat, n: nat)
    requires from + n <= to <= |data|
    ensures all + data[..from] + data[from..to][..n] == all + data[..from + n]
  {
  }

  lemma LowIsLess(n: nat)
    ensures 0 <= Low32(n) <= n && (Low32(n) == n <==> n < 0x1_0000_0000)
  {
  }

  lemma WrittenThrough(geo: Geometry, disk: Disk, mode: Mode, f: FileState)
    requires FileOk(geo, disk, mode, f)
    ensures ActiveOk(disk, mode, f) && (mode != Direct ==> Pending(disk, mode, f) == [])
  {
  }
}
