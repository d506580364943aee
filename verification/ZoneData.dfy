/** Zones, extents and what a list of extents reads; the layout of sparse segments. */
module ZoneData {
  import opened Common
  import opened Coding
  import opened Blocks

  /** `start_` of an extent is `off` bytes behind the start of zone `zone`. */
  datatype Ext = Ext(zone: nat, off: nat, len: nat)

  datatype Pos = Pos(zone: nat, off: nat)

  /** The written part of every IO zone; its length is the distance to the write pointer. */
  type Disk = seq<seq<byte>>

  predicate Inside(disk: Disk, e: Ext) {
    e.zone < |disk| && e.off + e.len <= |disk[e.zone]|
  }

  predicate AllInside(disk: Disk, es: seq<Ext>) {
    forall i :: 0 <= i < |es| ==> Inside(disk, es[i])
  }

  function Lookup(disk: Disk, e: Ext): (r: seq<byte>)
    requires Inside(disk, e)
    ensures |r| == e.len
  {
    disk[e.zone][e.off..e.off + e.len]
  }

  function Total(es: seq<Ext>): nat {
    if es == [] then 0 else Total(es[..|es| - 1]) + es[|es| - 1].len
  }

  /** The bytes of a file: those of its extents, one after the other. */
  function Content(disk: Disk, es: seq<Ext>): (r: seq<byte>)
    requires AllInside(disk, es)
    ensures |r| == Total(es)
  {
    if es == [] then [] else Content(disk, es[..|es| - 1]) + Lookup(disk, es[|es| - 1])
  }

  /** The second disk has everything that is on the first one, in the zones of `es`. */
  predicate Extends(disk: Disk, disk': Disk, es: seq<Ext>) {
    |disk| == |disk'| &&
    forall i :: 0 <= i < |es| ==> es[i].zone < |disk| && disk[es[i].zone] <= disk'[es[i].zone]
  }

  /** Writing elsewhere, or behind the write pointer, does not change what a file reads. */
  lemma {:induction false} ContentFrame(disk: Disk, disk': Disk, es: seq<Ext>)
    requires AllInside(disk, es) && Extends(disk, disk', es)
    ensures AllInside(disk', es) && Content(disk', es) == Content(disk, es)
  {
    if es != [] {
      var e := es[|es| - 1];
      assert Inside(disk, e) && disk[e.zone] <= disk'[e.zone];
      ContentFrame(disk, disk', es[..|es| - 1]);
    }
  }

  lemma ContentPush(disk: Disk, es: seq<Ext>, e: Ext)
    requires AllInside(disk, es) && Inside(disk, e)
    ensures AllInside(disk, es + [e]) && Content(disk, es + [e]) == Content(disk, es) + Lookup(disk, e)
    ensures Total(es + [e]) == Total(es) + e.len
  {
    assert (es + [e])[..|es|] == es;
  }

  lemma NoContent(disk: Disk)
    ensures Content(disk, []) == []
  {
  }

  lemma {:induction false} ContentConcat(disk: Disk, a: seq<Ext>, b: seq<Ext>)
    requires AllInside(disk, a) && AllInside(disk, b)
    ensures AllInside(disk, a + b) && Content(disk, a + b) == Content(disk, a) + Content(disk, b)
    decreases |b|
  {
    hide Lookup, Content, Inside;
    if b == [] {
      assert a + b == a;
      NoContent(disk);
    } else {
      var front, e := b[..|b| - 1], b[|b| - 1];
      assert Inside(disk, e);
      ContentConcat(disk, a, front);
      ContentPush(disk, a + front, e);
      ContentPush(disk, front, e);
      assert front + [e] == b && (a + front) + [e] == a + b;
    }
  }

  lemma TotalPrefix(es: seq<Ext>, i: nat)
    requires i < |es|
    ensures Total(es[..i + 1]) == Total(es[..i]) + es[i].len
  {
    assert es[..i + 1][..i] == es[..i];
  }

  lemma {:induction false} TotalMonotone(es: seq<Ext>, i: nat)
    requires i <= |es|
    ensures Total(es[..i]) <= Total(es)
    decreases |es| - i
  {
    if i == |es| {
      assert es[..i] == es;
    } else {
      TotalPrefix(es, i);
      TotalMonotone(es, i + 1);
    }
  }

  /** Where the bytes of extent i are in the content. */
  lemma {:induction false} ContentAt(disk: Disk, es: seq<Ext>, i: nat)
    requires AllInside(disk, es) && i < |es|
    ensures Total(es[..i]) + es[i].len <= Total(es)
    ensures Content(disk, es)[Total(es[..i])..Total(es[..i]) + es[i].len] == Lookup(disk, es[i])
    decreases |es|
  {
    var front, c := es[..|es| - 1], Content(disk, es);
    if i == |es| - 1 {
      assert c == Content(disk, front) + Lookup(disk, es[i]);
    } else {
      ContentAt(disk, front, i);
      assert front[..i] == es[..i] && front[i] == es[i];
      var lo, hi := Total(es[..i]), Total(es[..i]) + es[i].len;
      assert c[lo..hi] == c[..|Content(disk, front)|][lo..hi];
      assert c[..|Content(disk, front)|] == Content(disk, front);
    }
  }

  lemma SliceOfSlice(s: seq<byte>, a: nat, n: nat, i: nat, k: nat)
    requires a + n <= |s| && i + k <= n
    ensures s[a..a + n][i..i + k] == s[a + i..a + i + k]
  {
    var l, r := s[a..a + n][i..i + k], s[a + i..a + i + k];
    forall j | 0 <= j < k
      ensures l[j] == r[j]
    {
      assert l[j] == s[a..a + n][i + j] == s[a + (i + j)];
    }
  }

  lemma JoinSlices(s: seq<byte>, a: nat, b: nat, c: nat)
    requires a <= b <= c <= |s|
    ensures s[a..b] + s[b..c] == s[a..c]
  {
  }

  // ---------- sparse segments ----------

  const SPARSE_HEADER_SIZE: nat := 8

  /** A segment of a sparse file: a header with the length, the payload, and padding. */
  function Segment(payload: seq<byte>, bs: nat): (r: seq<byte>)
    requires bs > 0
    ensures |r| == RoundUp(SPARSE_HEADER_SIZE + |payload|, bs)
  {
    PutFixed(8, |payload|) + payload +
    Zeros(RoundUp(SPARSE_HEADER_SIZE + |payload|, bs) - (SPARSE_HEADER_SIZE + |payload|))
  }

  /** The result of RecoverSparseExtents: an error, or the extents found and the offset at
      which the walk ended. */
  datatype Walk = Bad | Walked(extents: seq<Ext>, end: nat)

  /** RecoverSparseExtents over the bytes `data`, which start at offset `off` of a zone. */
  function WalkSegments(data: seq<byte>, zone: nat, off: nat, bs: nat): Walk
    requires bs > 0
    decreases |data|
  {
    if data == [] then Walked([], off)
    else if |data| < bs || bs < SPARSE_HEADER_SIZE then Bad
    else
      var len := FixedValue(data[..8]);
      if len == 0 then Bad
      else
        var step := RoundUp(SPARSE_HEADER_SIZE + len, bs);
        var e := Ext(zone, off + SPARSE_HEADER_SIZE, len);
        if step > |data| then Walked([e], off + step)
        else Prepend(e, WalkSegments(data[step..], zone, off + step, bs))
  }

  function Prepend(e: Ext, w: Walk): Walk {
    if w.Bad? then Bad else Walked([e] + w.extents, w.end)
  }

  lemma SegmentLength(payload: seq<byte>, rest: seq<byte>, bs: nat)
    requires bs >= SPARSE_HEADER_SIZE && U64(|payload|)
    ensures var data := Segment(payload, bs) + rest;
      && |data| >= bs && FixedValue(data[..8]) == |payload|
      && data[|Segment(payload, bs)|..] == rest
      && Segment(payload, bs)[8..8 + |payload|] == payload
  {
    Pow256Values();
    FixedValueOfPut(8, |payload|);
    MultipleAtLeastBlock(|Segment(payload, bs)|, bs);
    hide PutFixed, FixedValue, RoundUp, Aligned, Pow256;
    var data := Segment(payload, bs) + rest;
    assert data[..8] == PutFixed(8, |payload|);
  }

  lemma WalkSegment(payload: seq<byte>, rest: seq<byte>, zone: nat, off: nat, bs: nat)
    requires bs > SPARSE_HEADER_SIZE && 0 < |payload| && U64(|payload|)
    ensures var seg := Segment(payload, bs);
      WalkSegments(seg + rest, zone, off, bs)
        == Prepend(Ext(zone, off + SPARSE_HEADER_SIZE, |payload|), WalkSegments(rest, zone, off + |seg|, bs))
  {
    hide RoundUp, Aligned, PutFixed, FixedValue, Prepend;
    SegmentLength(payload, rest, bs);
  }

  /** The walk does not look behind a segment that ends inside the data. */
  lemma WalkStep(data: seq<byte>, more: seq<byte>, zone: nat, off: nat, bs: nat) returns (e: Ext, step: nat)
    requires bs > SPARSE_HEADER_SIZE && data != []
    requires var w := WalkSegments(data, zone, off, bs); w.Walked? && w.end == off + |data|
    ensures 0 < step <= |data|
    ensures WalkSegments(data, zone, off, bs) == Prepend(e, WalkSegments(data[step..], zone, off + step, bs))
    ensures WalkSegments(data + more, zone, off, bs)
      == Prepend(e, WalkSegments(data[step..] + more, zone, off + step, bs))
  {
    hide RoundUp, Aligned, FixedValue;
    var len := FixedValue(data[..8]);
    step := RoundUp(SPARSE_HEADER_SIZE + len, bs);
    e := Ext(zone, off + SPARSE_HEADER_SIZE, len);
    assert (data + more)[..8] == data[..8];
    assert (data + more)[step..] == data[step..] + more;
  }

  /** A walk that lands on the end of the data goes on into a segment appended there, and
      lands on its end. */
  lemma {:induction false} WalkAppend(data: seq<byte>, zone: nat, off: nat, bs: nat, es: seq<Ext>, payload: seq<byte>)
    requires bs > SPARSE_HEADER_SIZE && 0 < |payload| && U64(|payload|)
    requires WalkSegments(data, zone, off, bs) == Walked(es, off + |data|)
    ensures var seg := Segment(payload, bs);
      WalkSegments(data + seg, zone, off, bs)
        == Walked(es + [Ext(zone, off + |data| + SPARSE_HEADER_SIZE, |payload|)], off + |data| + |seg|)
    decreases |data|
  {
    hide Segment, WalkSegments, RoundUp, Aligned;
    var seg, last := Segment(payload, bs), Ext(zone, off + |data| + SPARSE_HEADER_SIZE, |payload|);
    if data == [] {
      NoSegments(zone, off, bs);
      NoSegments(zone, off + |seg|, bs);
      WalkSegment(payload, [], zone, off, bs);
      assert data + seg == seg + [];
      assert es + [last] == [last] + [];
    } else {
      var e, step := WalkStep(data, seg, zone, off, bs);
      var w := WalkSegments(data[step..], zone, off + step, bs);
      assert es == [e] + w.extents;
      WalkAppend(data[step..], zone, off + step, bs, w.extents, payload);
      assert es + [last] == [e] + (w.extents + [last]);
    }
  }

  lemma {:induction false} ZeroValue(n: nat)
    ensures FixedValue(Zeros(n)) == 0
  {
    if n > 0 {
      assert Zeros(n)[1..] == Zeros(n - 1);
      ZeroValue(n - 1);
    }
  }

  /** A walk does not get over zeros: a header of 0 is an error. */
  lemma {:induction false} WalkZeros(data: seq<byte>, zone: nat, off: nat, bs: nat, n: nat)
    requires bs > SPARSE_HEADER_SIZE && n > 0
    requires var w := WalkSegments(data, zone, off, bs); w.Walked? && w.end == off + |data|
    ensures WalkSegments(data + Zeros(n), zone, off, bs) == Bad
    decreases |data|
  {
    hide RoundUp, Aligned, FixedValue;
    if data == [] {
      assert data + Zeros(n) == Zeros(n);
      if n >= bs {
        assert Zeros(n)[..8] == Zeros(8);
        ZeroValue(8);
      }
    } else {
      var e, step := WalkStep(data, Zeros(n), zone, off, bs);
      WalkZeros(data[step..], zone, off + step, bs, n);
    }
  }

  lemma NoSegments(zone: nat, off: nat, bs: nat)
    requires bs > 0
    ensures WalkSegments([], zone, off, bs) == Walked([], off)
  {
  }
}
