/** Readers and migration: the remaining steps of a volume that happen in memory. */
module VolumeMoves {
  import opened Common
  import opened Coding
  import opened Blocks
  import opened ZoneData
  import opened ZoneFiles
  import opened Accounting
  import FileReads
  import opened Volume
  import opened VolumeFrame
  import opened VolumeSteps

  // ---------- readers ----------

  /** A step that changes only the readers of a file, and the lock. */
  lemma ReadersStep(s: State, i: nat, readers: seq<Reader>, lock: Lock)
    requires Inv(s) && Lives(s, i)
    requires AllInside(s.disk, s.files[i].st.extents)
    requires ReadersOk(s.disk, s.files[i].(readers := readers, lock := lock))
    requires LockOk(s.files[i].(readers := readers, lock := lock))
    ensures var f := s.files[i].(readers := readers, lock := lock);
      Inv(SetFile(s, i, f)) && Advanced(s, SetFile(s, i, f), i, [])
  {
    hide Inv, FileOk, ReaderOk, StateOk, AllInside, ListsOk, LogOk, WindowOk, LockOk, FlagsOk, ActiveOk, FileContent,
      Bytes;
    var f, f' := s.files[i], s.files[i].(readers := readers, lock := lock);
    GoodFile(s, i);
    FileFacts(s.geo, s.disk, s.owner, s.holder, i, f);
    ListsStay(s.disk, s.owner, i, f, f');
    LogOfWriter(f, f');
    WindowSame(s.geo, s.disk, s.holder, i, f, f');
    FlagsSame(f, f');
    BytesOf(s.disk, f);
    BytesOf(s.disk, f');
    LocalStep(s, i, f');
  }

  lemma WindowSame(geo: Geometry, disk: Disk, holder: seq<Holder>, i: nat, f: File, f': File)
    requires WindowOk(geo, disk, holder, i, f) && f'.st == f.st && f'.window == f.window && f'.mode == f.mode
    ensures WindowOk(geo, disk, holder, i, f')
  {
  }

  lemma FlagsSame(f: File, f': File)
    requires FlagsOk(f) && f'.st == f.st && f'.window == f.window && f'.writing == f.writing && f'.phase == f.phase
    requires f'.enc == f.enc
    requires f'.uncounted == f.uncounted && f'.mode == f.mode
    ensures FlagsOk(f')
  {
  }

  lemma ReaderLists(s: State, i: nat)
    requires Inv(s) && Lives(s, i)
    ensures AllInside(s.disk, s.files[i].st.extents) && ReadersOk(s.disk, s.files[i]) && Positive(s.files[i].st.extents)
    ensures LockOk(s.files[i])
  {
    hide Inv, FileOk, StateOk, ReaderOk, Apart, Owned, LogOk, WindowOk, LockOk;
    GoodFile(s, i);
  }

  /** The steps of the read lock and of the write lock. */
  lemma LockKeeps(s: State, a: Action, i: nat)
    requires Inv(s) && Enabled(s, a)
    requires match a
      case LockRead(k) => k == i
      case CountRead(k) => k == i
      case UnlockRead(k) => k == i
      case ReadNothing(k) => k == i
      case LockWrite(k) => k == i
      case SeeNoReaders(k) => k == i
      case UnlockWrite(k) => k == i
      case _ => false
    ensures Keeps(s, a, i)
  {
    hide Inv, ReadersOk, AllInside, Bytes;
    ReaderLists(s, i);
    var lock := Apply(s, a).files[i].lock;
    ReadersSame(s.disk, s.files[i], s.files[i].readers, lock);
    ReadersStep(s, i, s.files[i].readers, lock);
  }

  lemma ReadersSame(disk: Disk, f: File, readers: seq<Reader>, lock: Lock)
    requires AllInside(disk, f.st.extents)
    ensures ReadersOk(disk, f.(readers := readers, lock := lock)) <==> ReadersOk(disk, f.(readers := readers))
    ensures f.(readers := f.readers, lock := lock) == f.(lock := lock)
    ensures ReadersOk(disk, f.(lock := lock)) <==> ReadersOk(disk, f)
  {
    hide ReaderOk;
  }

  /** In every state that a run can reach: when the mover is past the wait for readers, nobody
      reads the file, and nobody is about to. */
  lemma MoverExcludesReaders(s: State, i: nat)
    requires Inv(s) && Lives(s, i) && s.files[i].lock.mtx == MoverIn
    ensures s.files[i].readers == [] && s.files[i].lock.inside == 0
  {
    hide Inv, ReadersOk, AllInside;
    ReaderLists(s, i);
  }

  lemma NewReaderOk(disk: Disk, es: seq<Ext>, r: Reader)
    requires AllInside(disk, es) && r.k < |es| && r.got == [] && r.ext == es[r.k]
    requires Total(es[..r.k]) <= r.offset < Total(es[..r.k]) + r.ext.len
    requires r.pos == r.ext.off + (r.offset - Total(es[..r.k]))
    ensures ReaderOk(disk, es, r)
  {
    hide Content, Total;
    FileReads.TotalOrder(es, r.k + 1, |es|);
    TotalPrefix(es, r.k);
    assert es[..|es|] == es;
  }

  lemma ReadBeginKeeps(s: State, i: nat, offset: nat, wanted: nat, k: nat)
    requires Inv(s) && Enabled(s, ReadBegin(i, offset, wanted, k))
    ensures Keeps(s, ReadBegin(i, offset, wanted, k), i)
  {
    hide Inv, Content, Total, ReaderOk;
    var f := s.files[i];
    ReaderLists(s, i);
    var r := Reading(s, i, offset, wanted, k).readers[|f.readers|];
    NewReaderOk(s.disk, f.st.extents, r);
    ReadersStep(s, i, f.readers + [r], f.lock.(inside := f.lock.inside - 1));
  }

  lemma MoreReaderOk(disk: Disk, es: seq<Ext>, r: Reader, len: nat)
    requires AllInside(disk, es) && ReaderOk(disk, es, r) && |r.got| + len <= r.wanted
    requires r.pos + len <= r.ext.off + r.ext.len
    ensures Inside(disk, r.ext)
    ensures ReaderOk(disk, es, r.(got := r.got + disk[r.ext.zone][r.pos..r.pos + len], pos := r.pos + len))
  {
    hide Content, Total, AllInside;
    FileReads.ChunkIsContent(disk, es, r.k, r.pos, len);
    var c := Content(disk, es);
    JoinSlices(c, r.offset, r.offset + |r.got|, r.offset + |r.got| + len);
  }

  lemma ReadChunkKeeps(s: State, i: nat, n: nat, len: nat)
    requires Inv(s) && Enabled(s, ReadChunk(i, n, len))
    ensures Keeps(s, ReadChunk(i, n, len), i)
  {
    hide Inv, Content, Total, ReaderOk;
    var f := s.files[i];
    var r, r' := f.readers[n], ReadMore(s, i, n, len).readers[n];
    ReaderLists(s, i);
    ReaderStarts(s.disk, f.st.extents, r);
    MoreReaderOk(s.disk, f.st.extents, r, len);
    ReadersStep(s, i, f.readers[n := r'], f.lock);
  }

  lemma ReaderStarts(disk: Disk, es: seq<Ext>, r: Reader)
    requires AllInside(disk, es) && ReaderOk(disk, es, r)
    ensures r.ext.off <= r.pos
  {
  }

  lemma ReadNextKeeps(s: State, i: nat, n: nat)
    requires Inv(s) && Enabled(s, ReadNext(i, n))
    ensures Keeps(s, ReadNext(i, n), i)
  {
    hide Inv, Content, Total;
    var f := s.files[i];
    var r, r' := f.readers[n], ReadOn(s, i, n).readers[n];
    ReaderLists(s, i);
    assert ReaderOk(s.disk, f.st.extents, r);
    TotalPrefix(f.st.extents, r.k);
    assert ReaderOk(s.disk, f.st.extents, r');
    ReadersStep(s, i, f.readers[n := r'], f.lock);
  }

  lemma ReadEndKeeps(s: State, i: nat, n: nat)
    requires Inv(s) && Enabled(s, ReadEnd(i, n))
    ensures Keeps(s, ReadEnd(i, n), i)
  {
    hide Inv, ReaderOk;
    ReaderLists(s, i);
    var f := s.files[i];
    ReadersStep(s, i, f.readers[..n] + f.readers[n + 1..], f.lock.(count := f.lock.count - 1));
  }

  // ---------- migration ----------

  /** A step of a migration in memory that keeps the list of the file and what it charges. */
  lemma MoverStep(s: State, i: nat, f: File)
    requires Inv(s) && Lives(s, i) && f == s.files[i].(phase := f.phase, counter := f.counter, other := f.other)
    requires ListsOk(s.disk, s.owner, i, f) && LogOk(f) && LockOk(f) && !s.files[i].writing
    requires forall z :: 0 <= z < |s.disk| ==> Charge(f, z) == Charge(s.files[i], z)
    ensures Inv(SetFile(s, i, f)) && Advanced(s, SetFile(s, i, f), i, [])
  {
    hide Inv, FileOk, ReaderOk, StateOk, AllInside, ListsOk, LogOk, WindowOk, LockOk, ActiveOk, FileContent, Bytes,
      Charge;
    GoodFile(s, i);
    FileFacts(s.geo, s.disk, s.owner, s.holder, i, s.files[i]);
    ReadersStay(s.disk, s.files[i], f);
    WindowSame(s.geo, s.disk, s.holder, i, s.files[i], f);
    BytesOf(s.disk, s.files[i]);
    BytesOf(s.disk, f);
    LocalStep(s, i, f);
  }

  lemma MoveBeginKeeps(s: State, i: nat)
    requires Inv(s) && Enabled(s, MoveBegin(i))
    ensures Keeps(s, MoveBegin(i), i)
  {
    hide Inv, FileOk, ReadersOk, StateOk, SameBytes, Apart, Owned, WindowOk, FileContent, Part, ListFits;
    var f := s.files[i];
    GoodFile(s, i);
    FileFacts(s.geo, s.disk, s.owner, s.holder, i, f);
    var f' := f.(phase := Copying, other := f.st.extents);
    ListsStay(s.disk, s.owner, i, f, f');
    LogInPhase(f, f');
    MoverStep(s, i, f');
  }

  /** Between phases in which the list is not being replaced. */
  lemma LogInPhase(f: File, f': File)
    requires LogOk(f) && !Old(f) && !Old(f') && f'.st == f.st && f'.counter == f.counter && f'.log == f.log
    requires f'.enc == f.enc
    ensures LogOk(f')
  {
    hide Part, IsSuffix;
  }

  lemma UnsyncKeeps(s: State, i: nat)
    requires Inv(s) && Enabled(s, Unsync(i))
    ensures Keeps(s, Unsync(i), i)
  {
    hide Inv, FileOk, ReadersOk, StateOk, SameBytes, Apart, Owned, WindowOk, FileContent, Part, IsSuffix;
    var f := s.files[i];
    GoodFile(s, i);
    FileFacts(s.geo, s.disk, s.owner, s.holder, i, f);
    var f' := f.(phase := Unsynced, counter := 0);
    ListsStay(s.disk, s.owner, i, f, f');
    MoverStep(s, i, f');
  }

  lemma MoverPinsNothing(geo: Geometry, disk: Disk, owner: seq<seq<nat>>, holder: seq<Holder>, i: nat, f: File, z: nat)
    requires Good(geo, disk, owner, holder, i, f) && f.alive && f.phase != Idle
    ensures !Pins(f, z)
  {
    hide ReadersOk, ListsOk, LogOk;
    ClosedHasAll(geo, disk, owner, holder, i, f);
    hide StateOk;
  }

  /** The mover of a file appends to its target zone. */
  lemma MoverAppends(s: State, i: nat, z: nat, bytes: seq<byte>)
    requires Inv(s) && Moves(s, i) && Fits(s, z, bytes) && s.holder[z] == ByMover(i)
    ensures var disk', owner' := s.disk[z := s.disk[z] + bytes], s.owner[z := s.owner[z] + Owners(i, |bytes|)];
      Good(s.geo, disk', owner', s.holder, i, s.files[i]) && Bytes(disk', s.files[i]) == Bytes(s.disk, s.files[i])
  {
    hide Inv, Good, Bytes, Pins, Refers, DiskOk, Aligned, Undisturbed;
    var f := s.files[i];
    GoodFile(s, i);
    MoverPinsNothing(s.geo, s.disk, s.owner, s.holder, i, f, z);
    OwnersMatch(s, z);
    GrowDisk(s.geo, s.disk, z, bytes);
    OthersUndisturbed(s, i, z, bytes, i);
    GoodFrame(s.geo, s.disk, s.disk[z := s.disk[z] + bytes], s.owner, s.owner[z := s.owner[z] + Owners(i, |bytes|)],
              s.holder, s.holder, i, f);
  }

  lemma MoveWasteKeeps(s: State, i: nat, z: nat, bytes: seq<byte>)
    requires Inv(s) && Enabled(s, MoveWaste(i, z, bytes))
    ensures Keeps(s, MoveWaste(i, z, bytes), i)
  {
    hide Inv, Good, Bytes, DiskOk, Aligned, Charge;
    MoverAppends(s, i, z, bytes);
    ExtendStep(s, i, z, bytes, s.files[i], 0, []);
  }

  lemma MovedApart(a: seq<Ext>, b: seq<Ext>, k: nat, e: Ext)
    requires |a| == |b| && k < |a| && Apart(a, a) && Apart(b, b) && Apart(a, b)
    requires EndBefore(a, Pos(e.zone, e.off)) && EndBefore(b, Pos(e.zone, e.off))
    ensures Apart(b[k := e], b[k := e]) && Apart(a, b[k := e])
  {
    var c := b[k := e];
    forall i, j | 0 <= i < |c| && 0 <= j < |c| && (i != j || c[i] != c[j])
      ensures Disjoint(c[i], c[j])
    {
      if i != k && j != k { assert Disjoint(b[i], b[j]); }
    }
    forall i, j | 0 <= i < |a| && 0 <= j < |c| && (i != j || a[i] != c[j])
      ensures Disjoint(a[i], c[j])
    {
      if j != k { assert Disjoint(a[i], b[j]); }
    }
  }

  lemma MovedOwned(owner: seq<seq<nat>>, i: nat, b: seq<Ext>, k: nat, e: Ext)
    requires k < |b| && Owned(owner, i, b) && OwnedRange(owner, i, e.zone, e.off, e.off + e.len)
    ensures Owned(owner, i, b[k := e])
  {
    hide OwnedRange;
  }

  /** The new place of an extent joins the other list. */
  lemma MovedLists(disk: Disk, owner: seq<seq<nat>>, i: nat, f: File, k: nat, e: Ext)
    requires ListsOk(disk, owner, i, f) && f.phase != Idle && k < |f.other| && Inside(disk, e)
    requires e.len == f.st.extents[k].len && Lookup(disk, e) == Lookup(disk, f.st.extents[k])
    requires OwnedRange(owner, i, e.zone, e.off, e.off + e.len)
    requires EndBefore(f.st.extents, Pos(e.zone, e.off)) && EndBefore(f.other, Pos(e.zone, e.off))
    ensures ListsOk(disk, owner, i, f.(other := f.other[k := e]))
  {
    MovedApart(f.st.extents, f.other, k, e);
    MovedOwned(owner, i, f.other, k, e);
    hide Apart, Owned, OwnedRange, Lookup, EndBefore;
  }

  lemma OnlyListsMatter(geo: Geometry, disk: Disk, owner: seq<seq<nat>>, holder: seq<Holder>, i: nat, f: File, f': File)
    requires Good(geo, disk, owner, holder, i, f) && f.alive && f' == f.(other := f'.other)
    requires ListsOk(disk, owner, i, f') && !Old(f)
    ensures Good(geo, disk, owner, holder, i, f') && Bytes(disk, f') == Bytes(disk, f)
  {
    hide FileOk, ReaderOk, StateOk, ListsOk, FileContent, WindowOk, LogOk;
    LogInPhase(f, f');
    WindowPhase(geo, disk, holder, i, f, f');
  }

  lemma GoodLists(geo: Geometry, disk: Disk, owner: seq<seq<nat>>, holder: seq<Holder>, i: nat, f: File)
    requires Good(geo, disk, owner, holder, i, f) && f.alive
    ensures ListsOk(disk, owner, i, f) && |f.other| == |f.st.extents| && AllInside(disk, f.other)
    ensures AllInside(disk, f.st.extents)
    ensures SameLengths(f.st.extents, f.other) && Positive(f.st.extents)
  {
    hide FileOk, ReadersOk, StateOk, Apart, Owned, LogOk, WindowOk;
  }

  /** A copy of an extent of less than 4 GiB. */
  lemma MoveCopyKeeps(s: State, i: nat, k: nat, z: nat, pad: seq<byte>)
    requires Inv(s) && Enabled(s, MoveCopy(i, k, z, pad)) && Intact(s, MoveCopy(i, k, z, pad))
    ensures Keeps(s, MoveCopy(i, k, z, pad), i)
  {
    hide Inv, Good, Bytes, DiskOk, Aligned, Charge, ListsOk, Lookup, AllInside, OwnedRange, EndBefore, Shortened,
      MayTake, Copied, Fits, Enabled, Apply, Intact;
    CopyFacts(s, i, k, z, pad);
    CopiedWhole(s, i, k, z, pad);
    var f := s.files[i];
    var source := f.st.extents[k];
    var bytes, e := Lookup(s.disk, source) + pad, Ext(z, |s.disk[z]|, source.len);
    var f' := f.(other := f.other[k := e]);
    var s' := Extend(s, i, z, bytes, f', e.len);
    GoodFile(s, i);
    GoodLists(s.geo, s.disk, s.owner, s.holder, i, f);
    OwnersMatch(s, z);
    MoverAppends(s, i, z, bytes);
    GoodLists(s.geo, s'.disk, s'.owner, s.holder, i, f);
    NewExtent(s.disk, z, 0, Lookup(s.disk, source), bytes);
    ListFrame(s.disk, s'.disk, f.st.extents, k);
    NewCellsOwned(s.owner, i, z, |s.disk[z]|, e.len, |bytes|);
    InsideEndsBefore(s.disk, f.st.extents, z);
    InsideEndsBefore(s.disk, f.other, z);
    MovedLists(s'.disk, s'.owner, i, f, k, e);
    OnlyListsMatter(s.geo, s'.disk, s'.owner, s.holder, i, f, f');
    forall y | 0 <= y < |s.disk|
      ensures Charge(f', y) == Charge(f, y) + if y == z then e.len else 0
    {
      MovedCharge(f, k, e, y);
    }
    ExtendStep(s, i, z, bytes, f', e.len, []);
    assert Copied(s, i, k, z, pad) == s' by { CopiedIs(s, i, k, z, pad); }
  }

  lemma CopiedIs(s: State, i: nat, k: nat, z: nat, pad: seq<byte>)
    requires Enabled(s, MoveCopy(i, k, z, pad))
    ensures var f, e := s.files[i], s.files[i].st.extents[k];
      Copied(s, i, k, z, pad) == Extend(s, i, z, Shortened(Lookup(s.disk, e)) + pad,
        f.(other := f.other[k := Ext(z, |s.disk[z]|, e.len)]), e.len)
  {
    hide Lookup, Shortened, Extend, Fits, Inside;
  }

  lemma CopyFacts(s: State, i: nat, k: nat, z: nat, pad: seq<byte>)
    requires Enabled(s, MoveCopy(i, k, z, pad))
    ensures Moves(s, i) && k < |s.files[i].st.extents| == |s.files[i].other|
    ensures s.files[i].other[k] == s.files[i].st.extents[k]
    ensures Inside(s.disk, s.files[i].st.extents[k]) && s.holder[z] == ByMover(i) && !Old(s.files[i])
    ensures MayTake(s, z, Shortened(Lookup(s.disk, s.files[i].st.extents[k])) + pad)
    ensures z < |s.disk| && z < |s.owner| && z < |s.used| && z < |s.holder|
    ensures Intact(s, MoveCopy(i, k, z, pad)) ==> s.files[i].st.extents[k].len < 0x1_0000_0000
    ensures Apply(s, MoveCopy(i, k, z, pad)) == Copied(s, i, k, z, pad)
  {
    hide Lookup, Shortened, Copied, Inside, Fits;
  }

  /** Bytes of a copied extent, which are not none. */
  lemma CopiedWhole(s: State, i: nat, k: nat, z: nat, pad: seq<byte>)
    requires Lives(s, i) && k < |s.files[i].st.extents| && Inside(s.disk, s.files[i].st.extents[k])
    requires s.files[i].st.extents[k].len < 0x1_0000_0000 && Inv(s) && Enabled(s, MoveCopy(i, k, z, pad))
    ensures var source := s.files[i].st.extents[k];
      && source.len == |Lookup(s.disk, source)| && Shortened(Lookup(s.disk, source)) == Lookup(s.disk, source)
      && Fits(s, z, Lookup(s.disk, source) + pad)
  {
    hide Inv, Good, Lookup, Shortened, ListsOk, Fits, Enabled, Apply, Copied, Inside, StateOk, LogOk;
    CopyFacts(s, i, k, z, pad);
    GoodFile(s, i);
    GoodLists(s.geo, s.disk, s.owner, s.holder, i, s.files[i]);
    ShortExtent(s.disk, s.files[i].st.extents[k]);
    assert Lookup(s.disk, s.files[i].st.extents[k]) + pad != [];
  }

  /** The whole of an extent is copied if and only if its length is a 32-bit integer. */
  lemma ShortExtent(disk: Disk, e: Ext)
    requires Inside(disk, e) && e.len > 0
    ensures |Lookup(disk, e)| == e.len && Lookup(disk, e) != []
    ensures Shortened(Lookup(disk, e)) == Lookup(disk, e) <==> e.len < 0x1_0000_0000
  {
    assert |Shortened(Lookup(disk, e))| == Low32(e.len);
  }

  lemma MovedCharge(f: File, k: nat, e: Ext, z: nat)
    requires f.alive && SameLengths(f.st.extents, f.other) && k < |f.other| && f.other[k] == f.st.extents[k]
    requires Pos(e.zone, e.off) != Pos(f.st.extents[k].zone, f.st.extents[k].off)
    ensures Charge(f.(other := f.other[k := e]), z) == Charge(f, z) + if e.zone == z then e.len else 0
  {
    MoveOne(f.st.extents, f.other, k, e, z);
  }

  /** Lists whose extents read the same read the same. */
  lemma {:induction false} SameContent(disk: Disk, a: seq<Ext>, b: seq<Ext>)
    requires SameBytes(disk, a, b)
    ensures Content(disk, a) == Content(disk, b) && Total(a) == Total(b)
    decreases |a|
  {
    if a != [] {
      SameContent(disk, a[..|a| - 1], b[..|b| - 1]);
    }
  }

  lemma ApartFlips(a: seq<Ext>, b: seq<Ext>)
    requires Apart(a, b)
    ensures Apart(b, a)
  {
    forall i, j | 0 <= i < |b| && 0 <= j < |a| && (i != j || b[i] != a[j])
      ensures Disjoint(b[i], a[j])
    {
      assert Disjoint(a[j], b[i]);
    }
  }

  lemma ReplacedLists(disk: Disk, owner: seq<seq<nat>>, i: nat, f: File)
    requires ListsOk(disk, owner, i, f) && f.phase != Idle
    ensures ListsOk(disk, owner, i, ReplacedFile(f))
  {
    ApartFlips(f.st.extents, f.other);
    hide Apart, Owned, Lookup, Inside;
  }

  /** The state of a closed file whose new list reads like the old one. */
  lemma ReplacedState(geo: Geometry, disk: Disk, owner: seq<seq<nat>>, holder: seq<Holder>, i: nat, mode: Mode,
          st: FileState, es: seq<Ext>)
    requires StateOk(geo, disk, owner, holder, i, mode, st) && SameBytes(disk, st.extents, es)
    requires st.active.None? && st.start.None? && st.logged.None?
    ensures StateOk(geo, disk, owner, holder, i, mode, st.(extents := es))
    ensures AllInside(disk, es) && ActiveOk(disk, mode, st.(extents := es))
    ensures FileContent(disk, mode, st.(extents := es)) == FileContent(disk, mode, st)
  {
    SameContent(disk, st.extents, es);
    hide Content, Lookup, DiskOk, Inside, Total;
  }

  lemma ReplacedLog(f: File)
    requires LogOk(f) && f.phase == Copying && |f.other| == |f.st.extents| && f.st.synced == |f.st.extents|
    requires Encodes(f) ==> f.enc.kind != Swap
    ensures LogOk(ReplacedFile(f))
  {
    hide IsSuffix, Part;
    assert f.st.extents + [] == f.st.extents && f.st.extents[..|f.st.extents|] == f.st.extents;
    PartOfBoth(f.log.list, f.st.extents, f.other);
    if Encodes(f) { PartOfBoth(f.enc.list, f.st.extents, f.other); }
  }

  lemma PartOfBoth(list: seq<Ext>, a: seq<Ext>, b: seq<Ext>)
    ensures Part(list, a) ==> Part(list, b + a)
  {
  }

  lemma ReplacedIsGood(geo: Geometry, disk: Disk, owner: seq<seq<nat>>, holder: seq<Holder>, i: nat, f: File)
    requires Good(geo, disk, owner, holder, i, f) && f.alive && f.phase == Copying && f.lock.mtx == MoverIn
    ensures Good(geo, disk, owner, holder, i, ReplacedFile(f)) && Bytes(disk, ReplacedFile(f)) == Bytes(disk, f)
    ensures forall z: nat :: Charge(ReplacedFile(f), z) == Charge(f, z)
  {
    hide SameBytes, Apart, Owned, FileOk, StateOk, Inside, FileContent, LogOk, IsSuffix, Part;
    FileFacts(geo, disk, owner, holder, i, f);
    ReplacedLists(disk, owner, i, f);
    ClosedHasAll(geo, disk, owner, holder, i, f);
    GoodLists(geo, disk, owner, holder, i, f);
    ReplacedState(geo, disk, owner, holder, i, f.mode, f.st, f.other);
    ReplacedState(geo, disk, owner, holder, i, f.mode, PairSt(f), f.other);
    assert PairSt(ReplacedFile(f)) == PairSt(f).(extents := f.other);
    NoSwap(f);
    ReplacedLog(f);
    WindowReplaced(geo, disk, holder, i, f);
    BytesOf(disk, f);
    BytesOf(disk, ReplacedFile(f));
    forall z: nat
      ensures Charge(ReplacedFile(f), z) == Charge(f, z)
    {
      SwapSum(f.st.extents, f.other, z);
    }
  }

  lemma NoSwap(f: File)
    requires LogOk(f) && f.phase == Copying
    ensures Encodes(f) ==> f.enc.kind != Swap
    ensures f.enc != Marking(Swap)
  {
    hide IsSuffix, Part;
  }

  lemma WindowReplaced(geo: Geometry, disk: Disk, holder: seq<Holder>, i: nat, f: File)
    requires f.window == Quiet
    ensures WindowOk(geo, disk, holder, i, ReplacedFile(f))
  {
  }

  lemma ReplaceKeeps(s: State, i: nat)
    requires Inv(s) && Enabled(s, Replace(i))
    ensures Keeps(s, Replace(i), i)
  {
    hide Inv, Good, Bytes, Charge;
    GoodFile(s, i);
    ReplacedIsGood(s.geo, s.disk, s.owner, s.holder, i, s.files[i]);
    LocalStep(s, i, ReplacedFile(s.files[i]));
  }

  lemma DropKeeps(s: State, i: nat)
    requires Inv(s) && Enabled(s, Drop(i))
    ensures Keeps(s, Drop(i), i)
  {
    hide Inv, FileOk, ReadersOk, StateOk, Owned, Apart, FileContent, WindowOk, LogOk, LockOk, FlagsOk, AllInside,
      ActiveOk;
    var f := s.files[i];
    GoodFile(s, i);
    FileFacts(s.geo, s.disk, s.owner, s.holder, i, f);
    NothingMoved(f.st.extents);
    var f' := f.(phase := Idle, other := f.st.extents);
    DropFile(s.geo, s.disk, s.owner, s.holder, i, f);
    BytesOf(s.disk, f);
    BytesOf(s.disk, f');
    ChargeStep(s, i, f', Uncharge(s.used, Moved(f.other, f.st.extents)));
  }

  lemma DropFile(geo: Geometry, disk: Disk, owner: seq<seq<nat>>, holder: seq<Holder>, i: nat, f: File)
    requires Good(geo, disk, owner, holder, i, f) && f.alive && f.phase == Persisted
    ensures var f' := f.(phase := Idle, other := f.st.extents);
      && ListsOk(disk, owner, i, f') && ReadersOk(disk, f') && FlagsOk(f') && WindowOk(geo, disk, holder, i, f')
      && LogOk(f') && LockOk(f')
  {
    hide StateOk, Owned, Apart, Part, IsSuffix, ReaderOk, Inside, Lookup;
    WindowPhase(geo, disk, holder, i, f, f.(phase := Idle, other := f.st.extents));
  }

  lemma WindowPhase(geo: Geometry, disk: Disk, holder: seq<Holder>, i: nat, f: File, f': File)
    requires f'.st == f.st && f'.window == f.window && f'.mode == f.mode
    ensures WindowOk(geo, disk, holder, i, f) ==> WindowOk(geo, disk, holder, i, f')
  {
  }
}
