/** Positioned reads through the extents of a file. */
module FileReads {
  import opened Common
  import opened Coding
  import opened ZoneData

  /** The number of bytes that a read asks for: up to the end of the file, in 64-bit
      arithmetic. */
  function Wanted(fileSize: nat, offset: nat, n: nat): nat
    requires offset < fileSize
  {
    if (offset + n) % 0x1_0000_0000_0000_0000 > fileSize then fileSize - offset else n
  }

  /** The part of the content of a file that a read returns. */
  function ReadSlice(content: seq<byte>, fileSize: nat, offset: nat, n: nat): seq<byte> {
    if offset >= fileSize || offset >= |content| then []
    else content[offset..offset + Min(Wanted(fileSize, offset, n), |content| - offset)]
  }

  /** The slice is the content from `offset` on, clipped to n bytes, to the file size and to
      the extents, except when offset and length overflow 64 bits so that the file size does
      not clip although the extents are longer than the file. */
  lemma ReadIsClipped(content: seq<byte>, fileSize: nat, offset: nat, n: nat)
    requires U64(fileSize) && U64(offset) && U64(n)
    ensures var clipped := Min(offset + n, Min(fileSize, |content|));
      ReadSlice(content, fileSize, offset, n) == (if offset < clipped then content[offset..clipped] else [])
      <==> offset + n < 0x1_0000_0000_0000_0000 || |content| <= fileSize || offset >= fileSize
           || (offset + n) % 0x1_0000_0000_0000_0000 > fileSize
  {
    var clipped := Min(offset + n, Min(fileSize, |content|));
    var r := ReadSlice(content, fileSize, offset, n);
    if offset < fileSize && offset < |content| {
      assert |r| == Min(Wanted(fileSize, offset, n), |content| - offset);
      assert |content[offset..clipped]| == clipped - offset;
    }
  }

  /** ZoneFile::GetExtent: the extent that has a file offset, and the offset in its zone. */
  method GetExtent(es: seq<Ext>, fileOffset: nat) returns (found: bool, i: nat, off: nat)
    ensures found <==> fileOffset < Total(es)
    ensures found ==> i < |es| && Total(es[..i]) <= fileOffset < Total(es[..i]) + es[i].len
    ensures found ==> off == es[i].off + (fileOffset - Total(es[..i]))
  {
    i, off := 0, 0;
    var left := fileOffset;
    while i < |es|
      invariant i <= |es| && Total(es[..i]) <= fileOffset && left == fileOffset - Total(es[..i])
    {
      TotalPrefix(es, i);
      TotalMonotone(es, i + 1);
      if left < es[i].len {
        return true, i, es[i].off + left;
      }
      left := left - es[i].len;
      i := i + 1;
    }
    assert es[..i] == es;
    return false, 0, 0;
  }

  /** A part of extent i is the part of the content at the same distance from its start. */
  lemma ChunkIsContent(disk: Disk, es: seq<Ext>, i: nat, pos: nat, n: nat)
    requires AllInside(disk, es) && i < |es| && es[i].off <= pos && pos + n <= es[i].off + es[i].len
    ensures var at := Total(es[..i]) + (pos - es[i].off);
      && at + n <= Total(es) && Inside(disk, es[i])
      && Content(disk, es)[at..at + n] == disk[es[i].zone][pos..pos + n]
  {
    hide Total, Content;
    ContentAt(disk, es, i);
    var e, t, c := es[i], Total(es[..i]), Content(disk, es);
    assert Inside(disk, e);
    SliceOfSlice(c, t, e.len, pos - e.off, n);
    SliceOfSlice(disk[e.zone], e.off, e.len, pos - e.off, n);
  }

  lemma TotalOrder(es: seq<Ext>, i: nat, j: nat)
    requires i <= |es| && j <= |es|
    ensures i <= j ==> Total(es[..i]) <= Total(es[..j])
  {
    if i <= j {
      TotalMonotone(es[..j], i);
      assert es[..j][..i] == es[..i];
    }
  }

  /** The extent that follows the end of extent i starts there. */
  lemma AtExtentStart(es: seq<Ext>, i: nat, j: nat, at: nat)
    requires i < |es| && j < |es| && Total(es[..i]) + es[i].len == at
    requires Total(es[..j]) <= at < Total(es[..j]) + es[j].len
    ensures Total(es[..j]) == at
  {
    hide Total;
    TotalPrefix(es, i);
    TotalPrefix(es, j);
    TotalOrder(es, j + 1, i + 1);
    TotalOrder(es, i + 1, j);
  }

  /** What one turn of a read asks the device for, in 64-bit arithmetic: up to the end of the
      extent. */
  function Step(ask: nat, addr: nat, end: nat): nat
    requires addr <= end
  {
    if (ask + addr) % 0x1_0000_0000_0000_0000 > end then end - addr else ask
  }

  /** A turn stays in the extent, if and only if length and device offset do not overflow to
      a value before the end of the extent. */
  lemma StepStaysIff(ask: nat, addr: nat, end: nat)
    requires U64(ask) && U64(end) && addr <= end
    ensures Step(ask, addr, end) <= end - addr
      <==> ask + addr < 0x1_0000_0000_0000_0000 || (ask + addr) % 0x1_0000_0000_0000_0000 > end
  {
  }

  /** The length of a read and the device offset of the end of every extent do not overflow. */
  predicate Addressable(es: seq<Ext>, zoneSize: nat, n: nat) {
    forall i :: 0 <= i < |es| ==> es[i].zone * zoneSize + es[i].off + es[i].len + n < 0x1_0000_0000_0000_0000
  }

  /** What a read has when it ends: all that it wants, or all that there is. */
  lemma IsSlice(content: seq<byte>, fileSize: nat, offset: nat, n: nat, k: nat)
    ensures offset >= fileSize || offset >= |content| ==> ReadSlice(content, fileSize, offset, n) == []
    ensures Ends(|content|, fileSize, offset, n, k) ==>
      ReadSlice(content, fileSize, offset, n) == content[offset..offset + k]
  {
  }

  predicate Ends(length: nat, fileSize: nat, offset: nat, n: nat, k: nat) {
    && offset < fileSize && offset + k <= length && k <= Wanted(fileSize, offset, n)
    && (k == Wanted(fileSize, offset, n) || offset + k == length)
  }

  lemma EndsSlice(content: seq<byte>, fileSize: nat, offset: nat, n: nat, k: nat)
    requires offset < fileSize && offset + k <= |content| && k <= Wanted(fileSize, offset, n)
    requires k == Wanted(fileSize, offset, n) || offset + k == |content|
    ensures ReadSlice(content, fileSize, offset, n) == content[offset..offset + k]
  {
    IsSlice(content, fileSize, offset, n, k);
  }

  lemma StepInExtent(es: seq<Ext>, zoneSize: nat, i: nat, pos: nat, ask: nat, n: nat)
    requires Addressable(es, zoneSize, n) && i < |es| && pos <= es[i].off + es[i].len && ask <= n
    ensures var zone, end := es[i].zone * zoneSize, es[i].off + es[i].len;
      Step(ask, zone + pos, zone + end) == if pos + ask > end then end - pos else ask
  {
  }

  lemma Multiple(q: nat)
    ensures (q * 0x1_0000_0000) % 0x1_0000_0000 == 0
  {
  }

  /** The length that ZonedBlockDevice::Read is given, as a signed 32-bit integer. */
  function AsInt(n: nat): (r: int)
    ensures r == n <==> n < 0x8000_0000
    ensures r > 0 ==> r <= n && (n - r) % 0x1_0000_0000 == 0
  {
    var low := n % 0x1_0000_0000;
    Multiple(n / 0x1_0000_0000);
    if low < 0x8000_0000 then low else low - 0x1_0000_0000
  }

  /** ZonedBlockDevice::Read: the backend may return less than it is asked for, but not nothing, and
      refuses a negative length. A length of 0 is an error, too. */
  method Read(disk: Disk, zone: nat, pos: nat, n: int) returns (r: int, data: seq<byte>)
    requires zone < |disk| && pos + n <= |disk[zone]|
    ensures if n > 0 then r == n && data == disk[zone][pos..pos + n] else r < 0 && data == []
  {
    var left := n;
    r, data := -1, [];
    while left != 0
      invariant left <= n && (n > 0 ==> 0 <= left && data == disk[zone][pos..pos + (n - left)])
      invariant (if left == n then r < 0 && data == [] else r == n) && (n <= 0 ==> left == n)
      decreases left
    {
      if left < 0 {
        return -1, [];
      }
      var got: int :| 0 < got <= left;
      JoinSlices(disk[zone], pos, pos + (n - left), pos + (n - left) + got);
      data := data + disk[zone][pos + (n - left)..pos + (n - left) + got];
      left := left - got;
      r := n;
    }
  }

  /** The part of extent k that a read of `wanted` bytes from `offset` asks for at once. */
  function Chunk(es: seq<Ext>, k: nat, offset: nat, wanted: nat): int
    requires k < |es|
  {
    Min(offset + wanted, Total(es[..k]) + es[k].len) - Max(offset, Total(es[..k]))
  }

  predicate ShortUpTo(es: seq<Ext>, i: nat, offset: nat, wanted: nat)
    requires i <= |es|
  {
    forall k :: 0 <= k < i ==> Chunk(es, k, offset, wanted) < 0x8000_0000
  }

  /** No part of an extent of which 2 GiB or more are wanted. */
  predicate AllShort(es: seq<Ext>, offset: nat, wanted: nat) { ShortUpTo(es, |es|, offset, wanted) }

  /** Of extents before the offset, nothing is asked for. */
  lemma ShortBefore(es: seq<Ext>, i: nat, offset: nat, wanted: nat)
    requires i <= |es| && Total(es[..i]) <= offset
    ensures ShortUpTo(es, i, offset, wanted)
  {
    hide Total;
    forall k | 0 <= k < i
      ensures Chunk(es, k, offset, wanted) < 0x8000_0000
    {
      TotalPrefix(es, k);
      TotalOrder(es, k + 1, i);
    }
  }

  /** Extents between the end of one and the start of the next with the same offset are empty. */
  lemma ShortUntil(es: seq<Ext>, last: nat, i: nat, offset: nat, wanted: nat)
    requires last < |es| && i <= |es| && ShortUpTo(es, last, offset, wanted)
    requires Chunk(es, last, offset, wanted) < 0x8000_0000
    requires Total(es[..i]) <= Total(es[..last]) + es[last].len
    ensures ShortUpTo(es, i, offset, wanted)
  {
    hide Total;
    TotalPrefix(es, last);
    forall k | last < k < i
      ensures Chunk(es, k, offset, wanted) < 0x8000_0000
    {
      TotalPrefix(es, k);
      TotalOrder(es, last + 1, k);
      TotalOrder(es, k + 1, i);
    }
  }

  /** Of extents behind the end of a read, nothing is asked for. */
  lemma ShortBehind(es: seq<Ext>, last: nat, offset: nat, wanted: nat)
    requires last < |es| && ShortUpTo(es, last, offset, wanted) && Chunk(es, last, offset, wanted) < 0x8000_0000
    requires offset + wanted <= Total(es[..last]) + es[last].len
    ensures AllShort(es, offset, wanted)
  {
    hide Total;
    TotalPrefix(es, last);
    forall k | last < k < |es|
      ensures Chunk(es, k, offset, wanted) < 0x8000_0000
    {
      TotalOrder(es, last + 1, k);
    }
  }

  /** ZoneFile::PositionedRead, when no device offset overflows with the length that is wanted:
      it fails if and only if 2 GiB or more are wanted of one extent. */
  method PositionedRead(disk: Disk, es: seq<Ext>, zoneSize: nat, fileSize: nat, offset: nat, n: nat)
    returns (ok: bool, result: seq<byte>)
    requires AllInside(disk, es) && (offset < fileSize ==> Addressable(es, zoneSize, Wanted(fileSize, offset, n)))
    ensures result == if ok then ReadSlice(Content(disk, es), fileSize, offset, n) else []
    ensures ok <==> offset >= fileSize || AllShort(es, offset, Wanted(fileSize, offset, n))
  {
    hide Total, Content, Step, Addressable, ReadSlice, Lookup, ShortUpTo, AllShort, Chunk, InChunk, AsInt, Inside,
      AllInside, Ends, Wanted;
    result := [];
    ghost var content := Content(disk, es);
    IsSlice(content, fileSize, offset, n, 0);
    if offset >= fileSize {
      return true, [];
    }
    var wanted := Wanted(fileSize, offset, n);
    var found, i, pos := GetExtent(es, offset);
    if !found {
      AllBefore(es, offset, wanted);
      return true, [];
    }
    ShortBefore(es, i, offset, wanted);
    FirstChunk(es, i, offset, wanted);
    var end := es[i].off + es[i].len;
    while |result| != wanted
      invariant |result| <= wanted && offset + |result| <= |content| && result == content[offset..offset + |result|]
      invariant i < |es| && end == es[i].off + es[i].len && es[i].off <= pos
      invariant pos < end || |result| == wanted
      invariant |result| < wanted ==> Total(es[..i]) + (pos - es[i].off) == offset + |result|
      invariant ShortUpTo(es, i, offset, wanted)
      invariant if |result| < wanted then InChunk(es, i, offset, wanted, |result|)
                else Chunk(es, i, offset, wanted) < 0x8000_0000 && offset + wanted <= Total(es[..i]) + es[i].len
      decreases wanted - |result|
    {
      var zone := es[i].zone * zoneSize;
      var ask := Step(wanted - |result|, zone + pos, zone + end);
      AskIsRest(es, zoneSize, i, pos, offset, wanted, |result|, ask);
      ChunkIsContent(disk, es, i, pos, ask);
      InsideBounds(disk, es[i]);
      var r, data := Read(disk, es[i].zone, pos, AsInt(ask));
      if r <= 0 {
        return false, [];
      }
      NextBytes(disk, es, i, pos, offset, |result|, r);
      result := result + data;
      pos := pos + r;
      if |result| != wanted && pos == end {
        ghost var last := i;
        found, i, pos := GetExtent(es, offset + |result|);
        if !found {
          EndsSlice(content, fileSize, offset, n, |result|);
          ShortUntilEnd(es, last, offset, wanted);
          return true, result;
        }
        AtExtentStart(es, last, i, offset + |result|);
        AtChunkStart(es, i, offset, wanted, |result|);
        ShortUntil(es, last, i, offset, wanted);
        pos := es[i].off;
        end := es[i].off + es[i].len;
      }
    }
    EndsSlice(content, fileSize, offset, n, |result|);
    ShortBehind(es, i, offset, wanted);
    return true, result;
  }

  /** Where a turn may be in a part that is asked for: at its start, or, when its length was cut to
      32 bits, where a multiple of 4 GiB is left. */
  predicate InChunk(es: seq<Ext>, i: nat, offset: nat, wanted: nat, got: nat)
    requires i < |es|
  {
    || offset + got == Max(offset, Total(es[..i]))
    || (Min(offset + wanted, Total(es[..i]) + es[i].len) - (offset + got)) % 0x1_0000_0000 == 0
  }

  lemma InsideBounds(disk: Disk, e: Ext)
    requires Inside(disk, e)
    ensures e.zone < |disk| && e.off + e.len <= |disk[e.zone]|
  {
  }

  /** What was read, with the bytes of a turn. */
  lemma NextBytes(disk: Disk, es: seq<Ext>, i: nat, pos: nat, offset: nat, got: nat, n: nat)
    requires AllInside(disk, es) && i < |es| && es[i].off <= pos && pos + n <= es[i].off + es[i].len
    requires Total(es[..i]) + (pos - es[i].off) == offset + got
    ensures var content := Content(disk, es);
      && Inside(disk, es[i]) && offset + got + n <= |content|
      && content[offset..offset + got] + disk[es[i].zone][pos..pos + n] == content[offset..offset + got + n]
  {
    hide Total, Content;
    ChunkIsContent(disk, es, i, pos, n);
    JoinSlices(Content(disk, es), offset, offset + got, offset + got + n);
  }

  lemma AtChunkStart(es: seq<Ext>, i: nat, offset: nat, wanted: nat, got: nat)
    requires i < |es| && Total(es[..i]) == offset + got
    ensures InChunk(es, i, offset, wanted, got)
  {
  }

  lemma AllBefore(es: seq<Ext>, offset: nat, wanted: nat)
    requires Total(es) <= offset
    ensures AllShort(es, offset, wanted)
  {
    assert es[..|es|] == es;
    ShortBefore(es, |es|, offset, wanted);
  }

  lemma FirstChunk(es: seq<Ext>, i: nat, offset: nat, wanted: nat)
    requires i < |es| && Total(es[..i]) <= offset
    ensures InChunk(es, i, offset, wanted, 0) && Chunk(es, i, offset, 0) <= 0
  {
    hide Total;
  }

  /** What a turn asks for is what is left of the part. When it is read, the part was short; a length
      that is cut leaves a multiple of 4 GiB; and a length that is refused is that of a long part. */
  lemma AskIsRest(es: seq<Ext>, zoneSize: nat, i: nat, pos: nat, offset: nat, wanted: nat, got: nat, ask: nat)
    requires Addressable(es, zoneSize, wanted) && i < |es| && got < wanted && InChunk(es, i, offset, wanted, got)
    requires es[i].off <= pos < es[i].off + es[i].len && Total(es[..i]) + (pos - es[i].off) == offset + got
    requires ask == Step(wanted - got, es[i].zone * zoneSize + pos, es[i].zone * zoneSize + es[i].off + es[i].len)
    ensures 0 < ask <= wanted - got && pos + ask <= es[i].off + es[i].len
    ensures AsInt(ask) <= ask && (AsInt(ask) == ask ==> got + ask == wanted || pos + ask == es[i].off + es[i].len)
    ensures AsInt(ask) == ask ==> Chunk(es, i, offset, wanted) < 0x8000_0000
    ensures AsInt(ask) == ask && got + ask == wanted ==> offset + wanted <= Total(es[..i]) + es[i].len
    ensures 0 < AsInt(ask) < ask ==> InChunk(es, i, offset, wanted, got + AsInt(ask))
    ensures AsInt(ask) <= 0 ==> !AllShort(es, offset, wanted)
  {
    StepInExtent(es, zoneSize, i, pos, wanted - got, wanted);
    hide Total, Step, Addressable;
    if AsInt(ask) <= 0 { assert Chunk(es, i, offset, wanted) >= ask >= 0x8000_0000; }
  }

  /** The end of the extents was reached. */
  lemma ShortUntilEnd(es: seq<Ext>, last: nat, offset: nat, wanted: nat)
    requires last < |es| && ShortUpTo(es, last, offset, wanted) && Chunk(es, last, offset, wanted) < 0x8000_0000
    requires Total(es) <= Total(es[..last]) + es[last].len
    ensures AllShort(es, offset, wanted)
  {
    assert es[..|es|] == es;
    ShortUntil(es, last, |es|, offset, wanted);
  }
}
