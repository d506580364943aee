/** The framing of records in a metadata zone: checksum, length, payload and padding
    to the next block. */
module MetaLog {
  import opened Coding
  import opened Blocks

  const HEADER_SIZE: nat := 8

  /** The layout of one metadata zone, and the (masked) checksum function, about which
      nothing is known but that it has 32 bits. */
  datatype Format = Format(bs: nat, capacity: nat, crc: seq<byte> -> nat) {
    ghost predicate Valid() {
      bs > HEADER_SIZE && Aligned(capacity, bs)
    }
  }

  function Checksum(fmt: Format, length: nat, body: seq<byte>): (r: nat)
    ensures U32(r)
  {
    fmt.crc(PutFixed(4, length) + body) % 0x1_0000_0000
  }

  /** What AddRecord writes for one record. */
  function Frame(fmt: Format, rec: seq<byte>): (r: seq<byte>)
    requires fmt.bs > 0
    ensures |r| == RoundUp(HEADER_SIZE + |rec|, fmt.bs)
  {
    PutFixed(4, Checksum(fmt, |rec|, rec)) + PutFixed(4, |rec|) + rec +
    Zeros(RoundUp(HEADER_SIZE + |rec|, fmt.bs) - (HEADER_SIZE + |rec|))
  }

  function Frames(fmt: Format, recs: seq<seq<byte>>): seq<byte>
    requires fmt.bs > 0
  {
    if recs == [] then []
    else Frames(fmt, recs[..|recs| - 1]) + Frame(fmt, recs[|recs| - 1])
  }

  /** Device contents from `pos` on; the part behind the write pointer reads as zeros. */
  function Bytes(data: seq<byte>, pos: nat, n: nat): (r: seq<byte>)
    ensures |r| == n
  {
    seq(n, i requires 0 <= i < n => if pos + i < |data| then data[pos + i] else 0)
  }

  datatype Next = Eof | Invalid | Rec(body: seq<byte>, next: nat)

  /** ReadRecord at offset `pos` of a zone that holds `data`. */
  function NextRecord(fmt: Format, data: seq<byte>, pos: nat): Next
    requires fmt.bs > 0
  {
    if pos >= |data| then Eof
    else if pos + HEADER_SIZE > fmt.capacity then Invalid
    else
      var stored := FixedValue(Bytes(data, pos, 4));
      var length := FixedValue(Bytes(data, pos + 4, 4));
      var at := pos + HEADER_SIZE;
      if at < |data| && at + length > fmt.capacity then Invalid
      else
        var body := if at < |data| then Bytes(data, at, length) else [];
        if Checksum(fmt, length, body) != stored then Invalid
        else Rec(body, RoundUp(at + |body|, fmt.bs))
  }

  predicate Loggable(recs: seq<seq<byte>>) {
    forall r <- recs :: 0 < |r| && U32(|r|)
  }

  lemma {:induction false} FramesAligned(fmt: Format, recs: seq<seq<byte>>)
    requires fmt.bs > 0
    ensures Aligned(|Frames(fmt, recs)|, fmt.bs)
  {
    if recs != [] {
      var front := Frames(fmt, recs[..|recs| - 1]);
      FramesAligned(fmt, recs[..|recs| - 1]);
      var n := HEADER_SIZE + |recs[|recs| - 1]|;
      RoundUpShift(|front|, n, fmt.bs);
      assert |Frames(fmt, recs)| == RoundUp(|front| + n, fmt.bs);
    }
  }

  lemma FrameParts(fmt: Format, rec: seq<byte>)
    requires fmt.bs > 0
    ensures var f, n := Frame(fmt, rec), |rec|;
            && |f| >= 8 + n && f[8..8 + n] == rec
            && f[..4] == PutFixed(4, Checksum(fmt, n, rec)) && f[4..8] == PutFixed(4, n)
  {
    hide PutFixed, Checksum;
  }

  lemma BytesInside(data: seq<byte>, pos: nat, frame: seq<byte>, i: nat, n: nat)
    requires pos + |frame| <= |data| && data[pos..pos + |frame|] == frame && i + n <= |frame|
    ensures Bytes(data, pos + i, n) == frame[i..i + n]
  {
    var r := Bytes(data, pos + i, n);
    forall k | 0 <= k < n
      ensures r[k] == frame[i..i + n][k]
    {
      assert data[pos..pos + |frame|][i + k] == data[pos + (i + k)];
    }
  }

  /** A frame inside a zone is read back, and the reader stops where the next one starts. */
  lemma FrameRoundTrip(fmt: Format, data: seq<byte>, pos: nat, rec: seq<byte>)
    requires fmt.Valid() && Aligned(pos, fmt.bs) && 0 < |rec| && U32(|rec|)
    requires |data| <= fmt.capacity && pos + |Frame(fmt, rec)| <= |data|
    requires data[pos..pos + |Frame(fmt, rec)|] == Frame(fmt, rec)
    ensures NextRecord(fmt, data, pos) == Rec(rec, pos + |Frame(fmt, rec)|)
  {
    var f, n := Frame(fmt, rec), |rec|;
    FrameParts(fmt, rec);
    RoundUpShift(pos, HEADER_SIZE + n, fmt.bs);
    Pow256Values();
    FixedValueOfPut(4, Checksum(fmt, n, rec));
    FixedValueOfPut(4, n);
    hide PutFixed, FixedValue, Pow256, Frame, Bytes, Checksum, RoundUp, Aligned;
    BytesInside(data, pos, f, 0, 4);
    BytesInside(data, pos, f, 4, 4);
    BytesInside(data, pos, f, 8, n);
    assert f[0..4] == f[..4];
  }

  /** The checksum of a frame is that of all bytes behind it, up to the padding. */
  lemma ChecksumCovers(fmt: Format, rec: seq<byte>)
    requires fmt.bs > 0
    ensures var f := Frame(fmt, rec);
      |f| >= HEADER_SIZE + |rec| && f[..4] == PutFixed(4, fmt.crc(f[4..HEADER_SIZE + |rec|]) % 0x1_0000_0000)
  {
    FrameParts(fmt, rec);
    hide Frame, PutFixed;
    var f, n := Frame(fmt, rec), |rec|;
    assert f[4..8 + n] == f[4..8] + f[8..8 + n];
  }

  /** At this position of the zone stand the header and the payload of a record. */
  predicate RecordAt(fmt: Format, data: seq<byte>, pos: nat, rec: seq<byte>)
    requires fmt.bs > 0
  {
    && U32(|rec|) && pos + HEADER_SIZE + |rec| <= fmt.capacity
    && Bytes(data, pos, HEADER_SIZE + |rec|) == Frame(fmt, rec)[..HEADER_SIZE + |rec|]
  }

  lemma BytesParts(data: seq<byte>, pos: nat, n: nat)
    ensures var b := Bytes(data, pos, 8 + n);
      b[..4] == Bytes(data, pos, 4) && b[4..8] == Bytes(data, pos + 4, 4) && b[8..] == Bytes(data, pos + 8, n)
    ensures Bytes(data, pos, 8 + n) == Bytes(data, pos, 4) + Bytes(data, pos + 4, 4) + Bytes(data, pos + 8, n)
  {
  }

  /** Blocks are longer than a header, so behind the header of a block there is more of it. */
  lemma HeaderInside(fmt: Format, pos: nat, end: nat)
    requires fmt.Valid() && Aligned(pos, fmt.bs) && Aligned(end, fmt.bs) && pos < end
    ensures pos + HEADER_SIZE < end
  {
    AlignedSub(pos, end, fmt.bs);
    MultipleAtLeastBlock(end - pos, fmt.bs);
  }

  /** The bytes of a header and a payload, field by field. */
  lemma HeaderAndPayload(fmt: Format, data: seq<byte>, pos: nat, rec: seq<byte>)
    requires fmt.bs > 0 && U32(|rec|)
    ensures Bytes(data, pos, HEADER_SIZE + |rec|) == Frame(fmt, rec)[..HEADER_SIZE + |rec|] <==>
      && FixedValue(Bytes(data, pos, 4)) == Checksum(fmt, |rec|, rec)
      && FixedValue(Bytes(data, pos + 4, 4)) == |rec| && Bytes(data, pos + 8, |rec|) == rec
  {
    FrameParts(fmt, rec);
    Pow256Values();
    BytesParts(data, pos, |rec|);
    PutOfFixedValue(Bytes(data, pos, 4));
    PutOfFixedValue(Bytes(data, pos + 4, 4));
    FixedValueOfPut(4, Checksum(fmt, |rec|, rec));
    FixedValueOfPut(4, |rec|);
    hide PutFixed, FixedValue, Pow256, Frame, Bytes, Checksum, RoundUp;
    var f, n := Frame(fmt, rec), |rec|;
    var g := f[..8 + n];
    assert g[..4] == f[..4] && g[4..8] == f[4..8] && g[8..] == f[8..8 + n];
    assert g == g[..4] + g[4..8] + g[8..];
  }

  /** A record is read from a block if and only if its header and its payload stand there: a record
      of which a byte is damaged is refused, unless its checksum is the same. */
  lemma ReadsIff(fmt: Format, data: seq<byte>, pos: nat, rec: seq<byte>)
    requires fmt.Valid() && Aligned(pos, fmt.bs) && Aligned(|data|, fmt.bs) && pos < |data| <= fmt.capacity
    ensures NextRecord(fmt, data, pos) == Rec(rec, RoundUp(pos + HEADER_SIZE + |rec|, fmt.bs))
      <==> RecordAt(fmt, data, pos, rec)
  {
    HeaderInside(fmt, pos, |data|);
    Pow256Values();
    PutOfFixedValue(Bytes(data, pos + 4, 4));
    hide PutFixed, FixedValue, Pow256, Frame, Bytes, Checksum, RoundUp, Aligned;
    var length := FixedValue(Bytes(data, pos + 4, 4));
    assert U32(length);
    if U32(|rec|) { HeaderAndPayload(fmt, data, pos, rec); }
    if length != |rec| {
      assert !RecordAt(fmt, data, pos, rec);
      assert |Bytes(data, pos + 8, length)| == length;
    }
  }

  /** What stands in a block is not a record. */
  ghost predicate Damaged(fmt: Format, data: seq<byte>, pos: nat)
    requires fmt.bs > 0
  {
    pos < |data| && forall rec: seq<byte> :: !RecordAt(fmt, data, pos, rec)
  }

  lemma DamagedIff(fmt: Format, data: seq<byte>, pos: nat)
    requires fmt.Valid() && Aligned(pos, fmt.bs) && Aligned(|data|, fmt.bs) && pos < |data| <= fmt.capacity
    ensures NextRecord(fmt, data, pos) == Invalid <==> Damaged(fmt, data, pos)
  {
    hide RecordAt, Aligned;
    forall rec: seq<byte>
      ensures NextRecord(fmt, data, pos) == Rec(rec, RoundUp(pos + HEADER_SIZE + |rec|, fmt.bs))
        <==> RecordAt(fmt, data, pos, rec)
    {
      ReadsIff(fmt, data, pos, rec);
    }
    NextOfRecord(fmt, data, pos);
  }

  /** From a block of a log a record is read that stands there, or the block is damaged. */
  lemma RecordOrDamaged(fmt: Format, data: seq<byte>, pos: nat)
    requires fmt.Valid() && Aligned(|data|, fmt.bs) && |data| <= fmt.capacity
    ensures var r := NextRecord(fmt, data, pos); Aligned(pos, fmt.bs) && pos < |data| ==>
      !r.Eof? && if r.Rec? then RecordAt(fmt, data, pos, r.body) else Damaged(fmt, data, pos)
  {
    hide NextRecord, RecordAt, Damaged, Aligned, RoundUp;
    if Aligned(pos, fmt.bs) && pos < |data| {
      DamagedIff(fmt, data, pos);
      NextOfRecord(fmt, data, pos);
      var r := NextRecord(fmt, data, pos);
      if r.Rec? { ReadsIff(fmt, data, pos, r.body); }
    }
  }

  lemma NextOfRecord(fmt: Format, data: seq<byte>, pos: nat)
    requires fmt.Valid() && Aligned(pos, fmt.bs) && Aligned(|data|, fmt.bs) && pos < |data|
    ensures var r := NextRecord(fmt, data, pos);
      !r.Eof? && (r.Rec? ==> r.next == RoundUp(pos + HEADER_SIZE + |r.body|, fmt.bs))
  {
    HeaderInside(fmt, pos, |data|);
    hide Bytes, FixedValue, Checksum, RoundUp, Aligned;
  }

  lemma ChangedFields(fmt: Format, data: seq<byte>, pos: nat, rec: seq<byte>, changed: seq<byte>)
    requires fmt.bs > 0 && |changed| == |rec| && U32(|rec|)
    requires Bytes(data, pos, HEADER_SIZE + |rec|) == Frame(fmt, rec)[..HEADER_SIZE] + changed
    ensures FixedValue(Bytes(data, pos, 4)) == Checksum(fmt, |rec|, rec)
    ensures FixedValue(Bytes(data, pos + 4, 4)) == |rec| && Bytes(data, pos + 8, |rec|) == changed
  {
    FrameParts(fmt, rec);
    Pow256Values();
    FixedValueOfPut(4, Checksum(fmt, |rec|, rec));
    FixedValueOfPut(4, |rec|);
    BytesParts(data, pos, |rec|);
    hide PutFixed, FixedValue, Pow256, Frame, Bytes, Checksum, RoundUp;
    var f := Frame(fmt, rec);
    var g := f[..8] + changed;
    assert g[..4] == f[..4] && g[4..8] == f[4..8] && g[8..] == changed;
  }

  /** A record whose payload was changed, and whose checksum is then another one, is damaged. */
  lemma ChangedIsDamaged(fmt: Format, data: seq<byte>, pos: nat, rec: seq<byte>, changed: seq<byte>)
    requires fmt.bs > 0 && pos < |data| && |changed| == |rec| && U32(|rec|)
    requires Bytes(data, pos, HEADER_SIZE + |rec|) == Frame(fmt, rec)[..HEADER_SIZE] + changed
    requires Checksum(fmt, |rec|, changed) != Checksum(fmt, |rec|, rec)
    ensures Damaged(fmt, data, pos)
  {
    ChangedFields(fmt, data, pos, rec, changed);
    hide PutFixed, FixedValue, Frame, Bytes, Checksum;
    forall other: seq<byte>
      ensures !RecordAt(fmt, data, pos, other)
    {
      if U32(|other|) { HeaderAndPayload(fmt, data, pos, other); }
    }
  }

  /** A zone that begins with the frames of some records, whatever follows. */
  lemma PrefixRead(fmt: Format, data: seq<byte>, recs: seq<seq<byte>>, k: nat)
    requires fmt.Valid() && Loggable(recs) && k < |recs| && Frames(fmt, recs) <= data && |data| <= fmt.capacity
    ensures NextRecord(fmt, data, |Frames(fmt, recs[..k])|) == Rec(recs[k], |Frames(fmt, recs[..k + 1])|)
  {
    hide Frames, Frame, Aligned, RoundUp;
    assert recs[k] in recs;
    FramesStep(fmt, recs, k);
    FramesPrefix(fmt, recs, k + 1);
    FramesAligned(fmt, recs[..k]);
    var front, f := Frames(fmt, recs[..k]), Frame(fmt, recs[k]);
    var end := |front| + |f|;
    assert data[..end] == front + f;
    assert data[|front|..end] == data[..end][|front|..] == f;
    FrameRoundTrip(fmt, data, |front|, recs[k]);
  }

  lemma FramesStep(fmt: Format, recs: seq<seq<byte>>, k: nat)
    requires fmt.bs > 0 && k < |recs|
    ensures Frames(fmt, recs[..k + 1]) == Frames(fmt, recs[..k]) + Frame(fmt, recs[k])
  {
    hide Frame;
    assert recs[..k + 1][..k] == recs[..k];
  }

  lemma {:induction false} FramesPrefix(fmt: Format, recs: seq<seq<byte>>, k: nat)
    requires fmt.bs > 0 && k <= |recs|
    ensures Frames(fmt, recs[..k]) <= Frames(fmt, recs)
    decreases |recs| - k
  {
    hide Frames, Frame;
    if k == |recs| {
      assert recs[..k] == recs;
    } else {
      FramesStep(fmt, recs, k);
      FramesPrefix(fmt, recs, k + 1);
    }
  }

  /** Reading a zone that holds the frames of `recs` yields record k at the end of the
      first k frames, and the end of the log after the last one. */
  lemma LogRoundTrip(fmt: Format, recs: seq<seq<byte>>, k: nat)
    requires fmt.Valid() && Loggable(recs) && k <= |recs|
    requires |Frames(fmt, recs)| <= fmt.capacity
    ensures NextRecord(fmt, Frames(fmt, recs), |Frames(fmt, recs[..k])|) ==
            if k == |recs| then Eof else Rec(recs[k], |Frames(fmt, recs[..k + 1])|)
  {
    hide Frames, Frame, Aligned, RoundUp;
    var data, front := Frames(fmt, recs), Frames(fmt, recs[..k]);
    if k == |recs| {
      assert recs[..k] == recs;
    } else {
      assert recs[k] in recs;
      FramesStep(fmt, recs, k);
      FramesPrefix(fmt, recs, k + 1);
      FramesAligned(fmt, recs[..k]);
      var f := Frame(fmt, recs[k]);
      var end := |front| + |f|;
      assert data[..end] == front + f;
      assert data[|front|..end] == data[..end][|front|..] == f;
      FrameRoundTrip(fmt, data, |front|, recs[k]);
    }
  }

  lemma FirstFrame(fmt: Format, recs: seq<seq<byte>>)
    requires fmt.Valid() && Loggable(recs) && |Frames(fmt, recs)| <= fmt.capacity
    ensures NextRecord(fmt, Frames(fmt, recs), 0) ==
            if recs == [] then Eof else Rec(recs[0], |Frames(fmt, recs[..1])|)
  {
    LogRoundTrip(fmt, recs, 0);
  }

  datatype ReadResult = AtEnd | AcrossZone | Read(bytes: seq<byte>)

  class ZenMetaLog {
    const fmt: Format
    const start: nat
    /** The written part of the zone; the write pointer is `start + |data|`. */
    var data: seq<byte>
    var readPos: nat

    ghost predicate Valid()
      reads this
    {
      && fmt.Valid() && Aligned(start, fmt.bs) && start <= readPos
      && |data| <= fmt.capacity && Aligned(|data|, fmt.bs)
    }

    constructor (fmt: Format, start: nat, data: seq<byte>)
      requires fmt.Valid() && Aligned(start, fmt.bs)
      requires |data| <= fmt.capacity && Aligned(|data|, fmt.bs)
      ensures Valid() && this.fmt == fmt && this.start == start
      ensures this.data == data && readPos == start
    {
      this.fmt, this.start, this.data, this.readPos := fmt, start, data, start;
    }

    /** Appends the frame of a record if the zone has room for it. */
    method AddRecord(rec: seq<byte>) returns (ok: bool)
      requires Valid() && U32(|rec|)
      modifies this`data
      ensures Valid()
      ensures ok <==> old(|data|) + |Frame(fmt, rec)| <= fmt.capacity
      ensures data == if ok then old(data) + Frame(fmt, rec) else old(data)
    {
      hide RoundUp, Aligned;
      var phys := RoundUp(|rec| + HEADER_SIZE, fmt.bs);
      var buffer := new byte[phys](_ => 0);
      var crc := Checksum(fmt, |rec|, rec);
      var header := PutFixed(4, crc) + PutFixed(4, |rec|);
      forall i | 0 <= i < HEADER_SIZE { buffer[i] := header[i]; }
      forall i | 0 <= i < |rec| { buffer[HEADER_SIZE + i] := rec[i]; }
      assert buffer[..] == Frame(fmt, rec);
      if fmt.capacity - |data| < phys {
        return false;
      }
      AlignedAdd(|data|, phys, fmt.bs);
      data := data + buffer[..];
      return true;
    }

    /** ZenMetaLog::Read: loops over device reads that may each return only a part. */
    method ReadBytes(n: nat) returns (r: ReadResult)
      requires Valid()
      modifies this`readPos
      ensures Valid()
      ensures r == if old(readPos) - start >= |data| then AtEnd
                   else if old(readPos) - start + n > fmt.capacity then AcrossZone
                   else Read(Bytes(data, old(readPos) - start, n))
      ensures readPos == if r.Read? then old(readPos) + n else old(readPos)
    {
      hide Aligned;
      if readPos >= start + |data| {
        return AtEnd;
      }
      if readPos + n > start + fmt.capacity {
        return AcrossZone;
      }
      var got: seq<byte> := [];
      while |got| < n
        invariant start <= readPos == old(readPos) + |got|
        invariant |got| <= n
        invariant got == Bytes(data, old(readPos) - start, |got|)
      {
        var chunk :| 0 < chunk <= n - |got|;
        got := got + Bytes(data, readPos - start, chunk);
        readPos := readPos + chunk;
      }
      return Read(got);
    }

    /** Reads the record at the cursor and moves the cursor to the next block. */
    method ReadRecord() returns (r: Next)
      requires Valid()
      modifies this`readPos
      ensures Valid()
      ensures r == NextRecord(fmt, data, old(readPos) - start)
      ensures r.Rec? ==> readPos == start + r.next
      ensures var pos := old(readPos) - start; Aligned(pos, fmt.bs) && pos < |data| ==>
        !r.Eof? && if r.Rec? then RecordAt(fmt, data, pos, r.body) else Damaged(fmt, data, pos)
    {
      hide RoundUp, Aligned, PutFixed, FixedValue, Checksum, RecordAt, Damaged;
      ghost var pos := readPos - start;
      RecordOrDamaged(fmt, data, pos);
      var header := ReadBytes(HEADER_SIZE);
      if header.AtEnd? { return Eof; }
      if header.AcrossZone? { return Invalid; }
      assert header.bytes[..4] == Bytes(data, pos, 4);
      assert header.bytes[4..8] == Bytes(data, pos + 4, 4);
      var stored, length := FixedValue(header.bytes[..4]), FixedValue(header.bytes[4..8]);
      var rest := ReadBytes(length);
      if rest.AcrossZone? { return Invalid; }
      var body := if rest.Read? then rest.bytes else [];
      if Checksum(fmt, length, body) != stored {
        return Invalid;
      }
      ghost var at := readPos - start;
      RoundUpShift(start, at, fmt.bs);
      readPos := RoundUp(readPos, fmt.bs);
      return Rec(body, readPos - start);
    }

    /** Reading a log from its start returns exactly the records added to it. */
    method ReadAll(ghost recs: seq<seq<byte>>) returns (result: seq<seq<byte>>)
      requires Valid() && readPos == start
      requires Loggable(recs) && data == Frames(fmt, recs)
      modifies this`readPos
      ensures Valid() && result == recs
    {
      hide NextRecord, Frame, Frames, Loggable, Aligned;
      result := [];
      ghost var k := 0;
      FirstFrame(fmt, recs);
      var r := ReadRecord();
      while r.Rec?
        invariant Valid() && k <= |recs| && result == recs[..k]
        invariant r == if k == |recs| then Eof else Rec(recs[k], |Frames(fmt, recs[..k + 1])|)
        invariant r.Rec? ==> readPos == start + r.next
        decreases |recs| - k
      {
        result := result + [r.body];
        k := k + 1;
        LogRoundTrip(fmt, recs, k);
        r := ReadRecord();
      }
    }
  }
}
