/** Every step of writers, records and zones keeps the invariant of a volume and the bytes of
    every file. */
module VolumeSteps {
  import opened Common
  import opened Coding
  import opened Blocks
  import opened ZoneData
  import opened ZoneFiles
  import opened Accounting
  import opened Volume
  import opened VolumeFrame

  /** The step keeps the invariant, and every file has what it had, and what the step
      appends to it. */
  predicate Keeps(s: State, a: Action, i: nat)
    requires Enabled(s, a)
  {
    Inv(Apply(s, a)) && Advanced(s, Apply(s, a), i, Appended(a, i))
  }

  lemma GoodFile(s: State, i: nat)
    requires Inv(s) && i < |s.files|
    ensures Good(s.geo, s.disk, s.owner, s.holder, i, s.files[i])
  {
    hide Good;
  }

  lemma OwnersMatch(s: State, z: nat)
    requires Inv(s) && z < |s.disk|
    ensures |s.owner| == |s.disk| && |s.owner[z]| == |s.disk[z]| && DiskOk(s.geo, s.disk)
    ensures |s.used| == |s.holder| == |s.disk|
  {
    hide Good, DiskOk;
  }

  lemma PositiveBlocks(geo: Geometry, disk: Disk)
    requires DiskOk(geo, disk)
    ensures geo.bs > 0
  {
  }

  // ---------- the state of a writer, with either pair ----------

  lemma ActiveIsLast(disk: Disk, mode: Mode, st: FileState)
    requires ActiveOk(disk, mode, st) && st.active.Some? && Pending(disk, mode, st) == []
    ensures st.start.Some? && st.start.value == Pos(st.active.value, |disk[st.active.value]|)
  {
    if mode == Direct {
      assert |disk[st.active.value][st.start.value.off..]| == 0;
    }
  }

  lemma InsideEndsBefore(disk: Disk, es: seq<Ext>, z: nat)
    requires AllInside(disk, es) && z < |disk|
    ensures EndBefore(es, Pos(z, |disk[z]|))
  {
    forall k | 0 <= k < |es| && es[k].zone == z
      ensures es[k].off + es[k].len <= |disk[z]|
    {
      assert Inside(disk, es[k]);
    }
  }

  lemma NothingOwned(owner: seq<seq<nat>>, i: nat, z: nat)
    requires z < |owner|
    ensures OwnedRange(owner, i, z, |owner[z]|, |owner[z]|)
  {
  }

  lemma LastInZone(es: seq<Ext>, e: Ext)
    ensures InZone(es + [e], e.zone)
  {
    assert (es + [e])[|es|] == e;
  }

  lemma RegionGrows(disk: Disk, owner: seq<seq<nat>>, i: nat, es: seq<Ext>, p: Pos, z: nat, bytes: seq<byte>)
    requires Region(disk, owner, i, es, p) && z < |disk| && |disk| == |owner| && |owner[p.zone]| == |disk[p.zone]|
    ensures Region(disk[z := disk[z] + bytes], owner[z := owner[z] + Owners(i, |bytes|)], i, es, p)
  {
    hide EndBefore;
  }

  lemma EndBeforeLater(es: seq<Ext>, p: Pos, off: nat)
    requires EndBefore(es, p) && p.off <= off
    ensures EndBefore(es, Pos(p.zone, off))
  {
  }

  lemma NewCellsOwned(owner: seq<seq<nat>>, i: nat, z: nat, lo: nat, n: nat, more: nat)
    requires z < |owner| && |owner[z]| <= lo && lo + n <= |owner[z]| + more
    ensures OwnedRange(owner[z := owner[z] + Owners(i, more)], i, z, lo, lo + n)
  {
  }

  lemma StAllocated(geo: Geometry, disk: Disk, owner: seq<seq<nat>>, holder: seq<Holder>, i: nat, mode: Mode,
          st: FileState, z: nat)
    requires StateOk(geo, disk, owner, holder, i, mode, st) && st.active.None? && z < |disk| && |disk[z]| < geo.capacity
    requires z < |holder| && holder[z] == ByFile(i) && |owner| == |disk| && |owner[z]| == |disk[z]|
    ensures StateOk(geo, disk, owner, holder, i, mode, Allocated(disk, st, z))
    ensures FileContent(disk, mode, Allocated(disk, st, z)) == FileContent(disk, mode, st)
  {
    hide FileOk, FileContent, AllInside, EndBefore;
    StateFacts(geo, disk, owner, holder, i, mode, st);
    AllocateOk(geo, disk, mode, st, z);
    InsideEndsBefore(disk, st.extents, z);
    var st' := Allocated(disk, st, z);
    assert st'.extents[..st'.synced] == st.extents;
  }

  lemma StSynced(geo: Geometry, disk: Disk, owner: seq<seq<nat>>, holder: seq<Holder>, i: nat, mode: Mode,
          st: FileState)
    requires StateOk(geo, disk, owner, holder, i, mode, st)
    ensures StateOk(geo, disk, owner, holder, i, mode, Synced(st))
  {
    hide FileOk, EndBefore, OwnedRange;
    SyncOk(geo, disk, mode, st);
    StateFacts(geo, disk, owner, holder, i, mode, st);
    assert st.extents[..|st.extents|] == st.extents;
    StartWithActive(disk, mode, st);
  }

  lemma StartWithActive(disk: Disk, mode: Mode, st: FileState)
    requires ActiveOk(disk, mode, st)
    ensures st.active.Some? ==> st.start.Some? && st.start.value.zone == st.active.value
  {
  }

  lemma StFull(geo: Geometry, disk: Disk, owner: seq<seq<nat>>, holder: seq<Holder>, i: nat, mode: Mode, st: FileState)
    requires StateOk(geo, disk, owner, holder, i, mode, st) && st.active.Some? && st.active.value < |disk|
    requires ActiveOk(disk, mode, st) && Pending(disk, mode, st) == [] && |disk[st.active.value]| == geo.capacity
    ensures StateOk(geo, disk, owner, holder, i, mode, st.(active := None))
    ensures FileContent(disk, mode, st.(active := None)) == FileContent(disk, mode, st)
  {
    hide FileOk, FileContent, AllInside, EndBefore, OwnedRange, Pending;
    StateFacts(geo, disk, owner, holder, i, mode, st);
    ActiveIsLast(disk, mode, st);
    CloseOk(geo, disk, mode, st);
  }

  lemma StClosed(geo: Geometry, disk: Disk, owner: seq<seq<nat>>, holder: seq<Holder>, i: nat, mode: Mode,
          st: FileState)
    requires StateOk(geo, disk, owner, holder, i, mode, st) && ActiveOk(disk, mode, st) && Pending(disk, mode, st) == []
    ensures StateOk(geo, disk, owner, holder, i, mode, Closed(st))
    ensures FileContent(disk, mode, Closed(st)) == FileContent(disk, mode, st)
  {
    hide FileOk, FileContent, AllInside, EndBefore, OwnedRange, Pending;
    StateFacts(geo, disk, owner, holder, i, mode, st);
    ClosedOk(geo, disk, mode, st);
  }

  lemma StWrite(geo: Geometry, disk: Disk, owner: seq<seq<nat>>, holder: seq<Holder>, i: nat, st: FileState,
          data: seq<byte>)
    requires StateOk(geo, disk, owner, holder, i, Direct, st) && st.active.Some? && st.active.value < |disk| == |owner|
    requires Aligned(|data|, geo.bs) && |disk[st.active.value]| + |data| <= geo.capacity
    requires forall z :: 0 <= z < |disk| ==> |owner[z]| == |disk[z]|
    ensures var z := st.active.value;
      var disk', owner' := disk[z := disk[z] + data], owner[z := owner[z] + Owners(i, |data|)];
      var st' := st.(size := st.size + |data|);
      && StateOk(geo, disk', owner', holder, i, Direct, st')
      && FileContent(disk', Direct, st') == FileContent(disk, Direct, st) + data
  {
    hide FileOk, FileContent, AllInside, EndBefore, OwnedRange, Aligned;
    StateFacts(geo, disk, owner, holder, i, Direct, st);
    var z := st.active.value;
    DirectWriteOk(geo, disk, st, data);
    RegionGrows(disk, owner, i, st.extents, st.start.value, z, data);
    RegionGrows(disk, owner, i, st.extents[..st.synced], st.logged.value, z, data);
    OffsetKept(geo, disk, owner, holder, i, Direct, st);
  }

  lemma OffsetKept(geo: Geometry, disk: Disk, owner: seq<seq<nat>>, holder: seq<Holder>, i: nat, mode: Mode,
          st: FileState)
    requires StateOk(geo, disk, owner, holder, i, mode, st) && st.start.Some?
    ensures st.start.value.off == geo.capacity ==> InZone(st.extents, st.start.value.zone)
  {
    hide FileOk, Region;
  }

  lemma StGrow(geo: Geometry, disk: Disk, owner: seq<seq<nat>>, holder: seq<Holder>, i: nat, mode: Mode, st: FileState,
          payload: seq<byte>, bytes: seq<byte>)
    requires StateOk(geo, disk, owner, holder, i, mode, st) && mode != Direct && st.active.Some?
    requires st.active.value < |disk| == |owner|
    requires Aligned(|bytes|, geo.bs) && |disk[st.active.value]| + |bytes| <= geo.capacity && payload != []
    requires HeadOf(mode) + |payload| <= |bytes| && bytes[HeadOf(mode)..HeadOf(mode) + |payload|] == payload
    requires mode == Sparse ==> bytes == Segment(payload, geo.bs)
    requires forall z :: 0 <= z < |disk| ==> |owner[z]| == |disk[z]|
    ensures var z := st.active.value;
      var disk', owner' := disk[z := disk[z] + bytes], owner[z := owner[z] + Owners(i, |bytes|)];
      var st' := Grown(disk, st, HeadOf(mode), |payload|, |bytes|);
      && StateOk(geo, disk', owner', holder, i, mode, st')
      && FileContent(disk', mode, st') == FileContent(disk, mode, st) + payload
  {
    hide FileOk, FileContent, AllInside, EndBefore, OwnedRange, Aligned, Segment;
    StateFacts(geo, disk, owner, holder, i, mode, st);
    var z := st.active.value;
    var disk', owner' := disk[z := disk[z] + bytes], owner[z := owner[z] + Owners(i, |bytes|)];
    var st' := Grown(disk, st, HeadOf(mode), |payload|, |bytes|);
    GrowOk(geo, disk, mode, st, HeadOf(mode), payload, bytes);
    RegionGrows(disk, owner, i, st.extents[..st.synced], st.logged.value, z, bytes);
    assert st'.extents[..st'.synced] == st.extents[..st.synced];
    FileHolds(geo, disk', mode, st');
    InsideEndsBefore(disk', st'.extents, z);
    LastInZone(st.extents, Ext(z, |disk[z]| + HeadOf(mode), |payload|));
    NothingOwned(owner', i, z);
  }

  lemma StPush(geo: Geometry, disk: Disk, owner: seq<seq<nat>>, holder: seq<Holder>, i: nat, st: FileState)
    requires StateOk(geo, disk, owner, holder, i, Direct, st) && st.active.Some? && st.active.value < |disk| == |owner|
    requires st.filepos < st.size && forall z :: 0 <= z < |disk| ==> |owner[z]| == |disk[z]|
    ensures st.start.Some? && st.start.value.zone == st.active.value
    ensures StateOk(geo, disk, owner, holder, i, Direct, Pushed(disk, st))
    ensures FileContent(disk, Direct, Pushed(disk, st)) == FileContent(disk, Direct, st)
    ensures var z := st.active.value;
      var e := Ext(z, st.start.value.off, st.size - st.filepos);
      && Pushed(disk, st).extents == st.extents + [e] && Inside(disk, e) && e.off + e.len == |disk[z]|
      && OwnedRange(owner, i, z, e.off, e.off + e.len) && EndBefore(st.extents, Pos(z, e.off))
  {
    hide FileOk, FileContent, AllInside, EndBefore, OwnedRange;
    StateFacts(geo, disk, owner, holder, i, Direct, st);
    var z, st' := st.active.value, Pushed(disk, st);
    PushOk(geo, disk, st);
    assert st'.extents[..st'.synced] == st.extents[..st.synced];
    FileHolds(geo, disk, Direct, st');
    InsideEndsBefore(disk, st'.extents, z);
    LastInZone(st.extents, Ext(z, st.start.value.off, st.size - st.filepos));
    NothingOwned(owner, i, z);
  }

  // ---------- what stays of a file ----------

  /** What is not part of the writer's state. */
  lemma FileFacts(geo: Geometry, disk: Disk, owner: seq<seq<nat>>, holder: seq<Holder>, i: nat, f: File)
    requires Good(geo, disk, owner, holder, i, f) && f.alive
    ensures ListsOk(disk, owner, i, f) && AllInside(disk, f.st.extents) && ReadersOk(disk, f)
    ensures FlagsOk(f) && WindowOk(geo, disk, holder, i, f) && LogOk(f) && LockOk(f)
    ensures StateOk(geo, disk, owner, holder, i, f.mode, f.st)
    ensures StateOk(geo, disk, owner, holder, i, f.mode, PairSt(f))
    ensures ActiveOk(disk, f.mode, f.st) && FileOk(geo, disk, f.mode, f.st) && f.st.synced <= |f.st.extents|
    ensures DiskOk(geo, disk)
  {
    hide DiskOk, Region, ListsOk, ReadersOk, RegionOk, LogOk, WindowOk;
    DiskHolds(geo, disk, f.mode, f.st);
  }

  lemma DiskHolds(geo: Geometry, disk: Disk, mode: Mode, st: FileState)
    requires FileOk(geo, disk, mode, st)
    ensures DiskOk(geo, disk) && AllInside(disk, st.extents) && ActiveOk(disk, mode, st) && st.synced <= |st.extents|
  {
  }

  lemma ListsStay(disk: Disk, owner: seq<seq<nat>>, i: nat, f: File, f': File)
    requires ListsOk(disk, owner, i, f)
    requires f'.st.extents == f.st.extents && f'.other == f.other && (f'.phase == Idle ==> f.phase == Idle)
    ensures ListsOk(disk, owner, i, f')
    ensures forall z: nat :: f.alive && f'.alive ==> Charge(f', z) == Charge(f, z)
  {
    hide SameBytes, Apart, Owned;
  }

  lemma ReadersStay(disk: Disk, f: File, f': File)
    requires AllInside(disk, f.st.extents) && ReadersOk(disk, f) && f'.st.extents == f.st.extents
    requires f'.readers == f.readers
    ensures ReadersOk(disk, f')
  {
    hide ReaderOk;
  }

  lemma BytesOf(disk: Disk, f: File)
    requires AllInside(disk, f.st.extents) && ActiveOk(disk, f.mode, f.st)
    ensures Bytes(disk, f) == FileContent(disk, f.mode, f.st)
  {
  }

  /** A step of a file that keeps its lists and readers. */
  lemma QuietStep(s: State, i: nat, f: File)
    requires Inv(s) && i < |s.files| && s.files[i].alive && f.alive && f.mode == s.files[i].mode
    requires f.st.extents == s.files[i].st.extents && f.other == s.files[i].other && f.readers == s.files[i].readers
    requires f.phase == Idle ==> s.files[i].phase == Idle
    requires StateOk(s.geo, s.disk, s.owner, s.holder, i, f.mode, f.st)
    requires StateOk(s.geo, s.disk, s.owner, s.holder, i, f.mode, PairSt(f))
    requires FlagsOk(f) && WindowOk(s.geo, s.disk, s.holder, i, f) && LogOk(f) && LockOk(f)
    requires ActiveOk(s.disk, f.mode, f.st) && FileContent(s.disk, f.mode, f.st) == Bytes(s.disk, s.files[i])
    ensures Inv(SetFile(s, i, f)) && Advanced(s, SetFile(s, i, f), i, [])
  {
    hide Inv, ListsOk, StateOk, LogOk, LockOk, FlagsOk, WindowOk, ReadersOk, Bytes, Charge, FileOk, ActiveOk,
      FileContent, AllInside;
    GoodFile(s, i);
    FileFacts(s.geo, s.disk, s.owner, s.holder, i, s.files[i]);
    ListsStay(s.disk, s.owner, i, s.files[i], f);
    ReadersStay(s.disk, s.files[i], f);
    BytesOf(s.disk, f);
    LocalStep(s, i, f);
  }

  /** Like that, and the writer's state is as it was. */
  lemma FlagStep(s: State, i: nat, f: File)
    requires Inv(s) && i < |s.files| && s.files[i].alive && f.alive && f.mode == s.files[i].mode
    requires f.st == s.files[i].st && f.other == s.files[i].other && f.readers == s.files[i].readers
    requires f.phase == Idle ==> s.files[i].phase == Idle
    requires PairSt(f) == PairSt(s.files[i]) || PairSt(f) == f.st
    requires FlagsOk(f) && WindowOk(s.geo, s.disk, s.holder, i, f) && LogOk(f) && LockOk(f)
    ensures Inv(SetFile(s, i, f)) && Advanced(s, SetFile(s, i, f), i, [])
  {
    hide Inv, ListsOk, StateOk, LogOk, LockOk, FlagsOk, WindowOk, ReadersOk, FileOk, AllInside, FileContent, ActiveOk;
    GoodFile(s, i);
    FileFacts(s.geo, s.disk, s.owner, s.holder, i, s.files[i]);
    BytesOf(s.disk, s.files[i]);
    QuietStep(s, i, f);
  }

  // ---------- files ----------

  lemma NewFileIsGood(geo: Geometry, disk: Disk, owner: seq<seq<nat>>, holder: seq<Holder>, i: nat, mode: Mode)
    requires DiskOk(geo, disk)
    ensures Good(geo, disk, owner, holder, i, NewFile(mode))
  {
    hide DiskOk, WalkSegments;
  }

  lemma CreateKeeps(s: State, mode: Mode)
    requires Inv(s)
    ensures Keeps(s, Create(mode), |s.files|)
  {
    hide Good, DiskOk, Bytes;
    var f := NewFile(mode);
    NewFileIsGood(s.geo, s.disk, s.owner, s.holder, |s.files|, mode);
    assert (s.files + [f])[..|s.files|] == s.files;
    NothingMoved([]);
    assert forall z: nat :: Charge(f, z) == 0;
  }

  lemma FactsAt(s: State, i: nat)
    requires Inv(s) && Lives(s, i)
    ensures var f := s.files[i];
      && FlagsOk(f) && WindowOk(s.geo, s.disk, s.holder, i, f) && LogOk(f) && LockOk(f)
      && StateOk(s.geo, s.disk, s.owner, s.holder, i, f.mode, f.st)
      && StateOk(s.geo, s.disk, s.owner, s.holder, i, f.mode, PairSt(f))
      && ActiveOk(s.disk, f.mode, f.st) && FileOk(s.geo, s.disk, f.mode, f.st) && AllInside(s.disk, f.st.extents)
      && Bytes(s.disk, f) == FileContent(s.disk, f.mode, f.st)
  {
    hide Inv, Good, FileOk, StateOk, LogOk, LockOk, FlagsOk, WindowOk, FileContent, ActiveOk, AllInside;
    GoodFile(s, i);
    FileFacts(s.geo, s.disk, s.owner, s.holder, i, s.files[i]);
    BytesOf(s.disk, s.files[i]);
  }

  lemma OpenKeeps(s: State, i: nat)
    requires Inv(s) && Enabled(s, Open(i))
    ensures Keeps(s, Open(i), i)
  {
    hide Inv, StateOk, FileOk, FileContent, Part, AllInside;
    FactsAt(s, i);
    FlagStep(s, i, s.files[i].(writing := true));
  }

  lemma SetStartKeeps(s: State, i: nat, z: nat)
    requires Inv(s) && Enabled(s, SetStart(i, z))
    ensures Keeps(s, SetStart(i, z), i)
  {
    hide Inv, StateOk, FileOk, FileContent, Part, AllInside;
    FactsAt(s, i);
    FlagStep(s, i, s.files[i].(window := Fresh(Pos(z, |s.disk[z]|))));
  }

  lemma AdvanceKeeps(s: State, i: nat)
    requires Inv(s) && Enabled(s, Advance(i))
    ensures Keeps(s, Advance(i), i)
  {
    hide Inv, StateOk, FileOk, FileContent, Part, AllInside;
    FactsAt(s, i);
    AdvancedIs(s.geo, s.disk, s.files[i]);
    FlagStep(s, i, s.files[i].(window := Quiet));
  }

  /** When nothing was written since the push, the start is where the push has put it. */
  lemma AdvancedIs(geo: Geometry, disk: Disk, f: File)
    requires MayAdvance(disk, f) && FileOk(geo, disk, f.mode, f.st) && f.window.Lagging? && FlagsOk(f)
    requires ActiveOk(disk, f.mode, f.st) && Pending(disk, f.mode, f.st) == []
    ensures AdvancedFile(disk, f) == f.(window := Quiet)
  {
    hide DiskOk, RegionOk, Inside, Content;
    if f.mode == Direct {
      ActiveIsLast(disk, f.mode, f.st);
      PushOk(geo, disk, f.st);
    }
  }

  lemma CloseBeginKeeps(s: State, i: nat)
    requires Inv(s) && Enabled(s, CloseBegin(i))
    ensures Keeps(s, CloseBegin(i), i)
  {
    hide Inv, StateOk, FileOk, FileContent, Part, AllInside, Pending;
    FactsAt(s, i);
    FlagStep(s, i, s.files[i].(window := Closing));
  }

  lemma CloseEndKeeps(s: State, i: nat)
    requires Inv(s) && Enabled(s, CloseEnd(i))
    ensures Keeps(s, CloseEnd(i), i)
  {
    hide Inv, StateOk, FileOk, FileContent, Part, AllInside;
    FactsAt(s, i);
    FlagStep(s, i, s.files[i].(window := Quiet, writing := false));
  }

  lemma FullKeeps(s: State, i: nat)
    requires Inv(s) && Enabled(s, Full(i))
    ensures Keeps(s, Full(i), i)
  {
    hide Inv, StateOk, FileOk, FileContent, Part, AllInside, Pending;
    FactsAt(s, i);
    var f := s.files[i];
    var f' := f.(st := f.st.(active := None));
    StFull(s.geo, s.disk, s.owner, s.holder, i, f.mode, f.st);
    PairFacts(s, i);
    PendingOfPair(s.disk, f);
    StFull(s.geo, s.disk, s.owner, s.holder, i, f.mode, PairSt(f));
    assert PairSt(f') == PairSt(f).(active := None);
    QuietStep(s, i, f');
  }

  lemma PairFacts(s: State, i: nat)
    requires Inv(s) && Lives(s, i)
    ensures ActiveOk(s.disk, s.files[i].mode, PairSt(s.files[i])) && AllInside(s.disk, PairSt(s.files[i]).extents)
  {
    hide Inv, Good, FileOk, StateOk, LogOk, LockOk, FlagsOk, WindowOk, FileContent, ActiveOk, AllInside;
    FactsAt(s, i);
    StateFacts(s.geo, s.disk, s.owner, s.holder, i, s.files[i].mode, PairSt(s.files[i]));
  }

  /** The pair does not matter to the content. */
  lemma PendingOfPair(disk: Disk, f: File)
    requires ActiveOk(disk, f.mode, f.st) && ActiveOk(disk, f.mode, PairSt(f)) && AllInside(disk, f.st.extents)
    ensures Pending(disk, f.mode, PairSt(f)) == Pending(disk, f.mode, f.st)
    ensures FileContent(disk, f.mode, PairSt(f)) == FileContent(disk, f.mode, f.st)
  {
  }

  lemma DeleteKeeps(s: State, i: nat)
    requires Inv(s) && Enabled(s, Delete(i))
    ensures Keeps(s, Delete(i), i)
  {
    hide Inv, StateOk, FileOk, FileContent, Part, AllInside, WindowOk;
    NamedIsAlive(s, i);
    FactsAt(s, i);
    WindowNameless(s, i);
    FlagStep(s, i, s.files[i].(named := false));
  }

  lemma NamedIsAlive(s: State, i: nat)
    requires Inv(s) && i < |s.files| && s.files[i].named
    ensures s.files[i].alive
  {
    hide Inv, ListsOk, StateOk, LogOk, ReadersOk, WindowOk;
    GoodFile(s, i);
  }

  lemma WindowNameless(s: State, i: nat)
    requires i < |s.files| && WindowOk(s.geo, s.disk, s.holder, i, s.files[i])
    ensures WindowOk(s.geo, s.disk, s.holder, i, s.files[i].(named := false))
  {
  }

  lemma DestroyKeeps(s: State, i: nat)
    requires Inv(s) && Enabled(s, Destroy(i))
    ensures Keeps(s, Destroy(i), i)
  {
    hide Inv, StateOk, ReadersOk, LogOk, WindowOk, SameBytes, Apart, Owned;
    var f := s.files[i];
    GoodFile(s, i);
    NothingMoved(f.st.extents);
    ChargeStep(s, i, f.(alive := false, readers := []), Uncharge(s.used, f.st.extents));
  }

  // ---------- records ----------

  lemma SuffixIsPart(es: seq<Ext>, k: nat)
    requires k <= |es|
    ensures IsSuffix(es[k..], es) && Part(es[k..], es)
  {
    forall j | 0 <= j < |es[k..]|
      ensures es[k..][j] in es
    {
      assert es[k..][j] == es[k + j];
    }
  }

  lemma PartOfMore(list: seq<Ext>, es: seq<Ext>, more: seq<Ext>)
    ensures Part(list, es) ==> Part(list, es + more)
  {
  }

  lemma PartConcat(a: seq<Ext>, b: seq<Ext>, es: seq<Ext>)
    requires Part(a, es) && Part(b, es)
    ensures Part(a + b, es)
  {
  }

  /** What is encoded are extents of the file, or such that are being replaced. */
  lemma ListForIsPart(f: File, kind: Kind)
    requires LogOk(f)
    ensures Part(ListFor(f, kind), f.st.extents + if Old(f) then f.other else [])
    ensures kind == Swap ==> IsSuffix(ListFor(f, kind), f.st.extents)
  {
    var all := f.st.extents + if Old(f) then f.other else [];
    SuffixIsPart(f.st.extents, f.counter);
    PartOfMore(f.st.extents[f.counter..], f.st.extents, if Old(f) then f.other else []);
    PartOfMore(f.st.extents, f.st.extents, if Old(f) then f.other else []);
    PartConcat(f.log.list, f.st.extents[f.counter..], all);
  }

  lemma EncodeKeeps(s: State, i: nat, kind: Kind)
    requires Inv(s) && Enabled(s, Encode(i, kind))
    ensures Keeps(s, Encode(i, kind), i)
  {
    hide Inv, StateOk, FileOk, FileContent, Part, AllInside, WindowOk, IsSuffix;
    FactsAt(s, i);
    var enc := SizeRead(kind, FileSize(s.files[i]));
    WindowEnc(s.geo, s.disk, s.holder, i, s.files[i], enc);
    FlagStep(s, i, s.files[i].(enc := enc));
  }

  lemma EncodeListKeeps(s: State, i: nat)
    requires Inv(s) && Enabled(s, EncodeList(i))
    ensures Keeps(s, EncodeList(i), i)
  {
    hide Inv, StateOk, FileOk, FileContent, Part, AllInside, WindowOk, IsSuffix, ListFor;
    FactsAt(s, i);
    var f := s.files[i];
    var f' := f.(enc := ListRead(f.enc.kind, f.enc.size, ListFor(f, f.enc.kind), |f.st.extents|, f.st.start));
    ListForIsPart(f, f.enc.kind);
    StSynced(s.geo, s.disk, s.owner, s.holder, i, f.mode, f.st);
    assert PairSt(f') == Synced(f.st);
    WindowEnc(s.geo, s.disk, s.holder, i, f, f'.enc);
    QuietStep(s, i, f');
  }

  lemma WindowEnc(geo: Geometry, disk: Disk, holder: seq<Holder>, i: nat, f: File, enc: Encoding)
    requires WindowOk(geo, disk, holder, i, f)
    ensures WindowOk(geo, disk, holder, i, f.(enc := enc))
  {
  }

  lemma EncodeStartKeeps(s: State, i: nat)
    requires Inv(s) && Enabled(s, EncodeStart(i))
    ensures Keeps(s, EncodeStart(i), i)
  {
    hide Inv, StateOk, FileOk, FileContent, Part, AllInside, WindowOk, IsSuffix;
    FactsAt(s, i);
    var f := s.files[i];
    var enc := BothRead(f.enc.kind, f.enc.size, f.enc.list, f.enc.n, f.enc.due, MemoryStart(f), MemoryCount(f));
    WindowEnc(s.geo, s.disk, s.holder, i, f, enc);
    FlagStep(s, i, f.(enc := enc));
  }

  lemma LoseRecordKeeps(s: State, i: nat)
    requires Inv(s) && Enabled(s, LoseRecord(i))
    ensures Keeps(s, LoseRecord(i), i)
  {
    hide Inv, StateOk, FileOk, FileContent, Part, AllInside, WindowOk, IsSuffix;
    FactsAt(s, i);
    WindowEnc(s.geo, s.disk, s.holder, i, s.files[i], NoRecord);
    FlagStep(s, i, s.files[i].(enc := NoRecord));
  }

  lemma LogKeeps(s: State, i: nat)
    requires Inv(s) && Enabled(s, Log(i))
    ensures Keeps(s, Log(i), i)
  {
    hide Inv, StateOk, FileOk, FileContent, AllInside, WindowOk, IsSuffix, LogOk, Allocated, Pending, FlagsOk,
      ActiveOk, LoggedFile;
    FactsAt(s, i);
    LoggedState(s, i);
    LoggedLog(s, i);
    LoggedFields(s.disk, s.files[i]);
    QuietStep(s, i, LoggedFile(s.disk, s.files[i]));
  }

  lemma LoggedFields(disk: Disk, f: File)
    requires f.enc.BothRead? && (f.window.Fresh? ==> f.window.at.zone < |disk|)
    ensures var f' := LoggedFile(disk, f);
      && f'.alive == f.alive && f'.mode == f.mode && f'.other == f.other && f'.readers == f.readers
      && f'.phase == f.phase
      && f'.st.extents == f.st.extents && f'.lock == f.lock && PairSt(f') == f'.st
    ensures LockOk(f) ==> LockOk(LoggedFile(disk, f))
  {
  }

  /** The writer's state after its record, or somebody else's, was logged. */
  lemma LoggedState(s: State, i: nat)
    requires Inv(s) && Enabled(s, Log(i))
    ensures var f' := LoggedFile(s.disk, s.files[i]);
      && StateOk(s.geo, s.disk, s.owner, s.holder, i, f'.mode, f'.st) && FlagsOk(f')
      && WindowOk(s.geo, s.disk, s.holder, i, f')
      && AllInside(s.disk, f'.st.extents) && ActiveOk(s.disk, f'.mode, f'.st)
      && FileContent(s.disk, f'.mode, f'.st) == Bytes(s.disk, s.files[i])
  {
    hide Inv, StateOk, FileOk, FileContent, AllInside, IsSuffix, LogOk, Pending, ListFits, ActiveOk;
    var f := s.files[i];
    FactsAt(s, i);
    PairFacts(s, i);
    PendingOfPair(s.disk, f);
    if f.window.Fresh? {
      OwnersMatch(s, f.window.at.zone);
      StAllocated(s.geo, s.disk, s.owner, s.holder, i, f.mode, f.st, f.window.at.zone);
      StateFacts(s.geo, s.disk, s.owner, s.holder, i, f.mode, Allocated(s.disk, f.st, f.window.at.zone));
    } else if f.window.Closing? {
      StClosed(s.geo, s.disk, s.owner, s.holder, i, f.mode, f.st);
      StateFacts(s.geo, s.disk, s.owner, s.holder, i, f.mode, Closed(f.st));
    }
  }

  lemma LoggedLog(s: State, i: nat)
    requires Inv(s) && Enabled(s, Log(i))
    ensures LogOk(LoggedFile(s.disk, s.files[i]))
  {
    hide Inv, StateOk, FileOk, FileContent, AllInside, Part, Pending;
    var f := s.files[i];
    FactsAt(s, i);
    assert f.st.extents[..|f.st.extents|] == f.st.extents;
  }

  lemma SwapIsPart(f: File)
    requires LogOk(f) && f.enc == Marking(Swap)
    ensures Part(f.log.list, f.st.extents)
    ensures f.log.exact && f.st.synced == |f.st.extents| && |f.other| == |f.st.extents| ==>
      f.log.list == f.st.extents[..f.st.synced]
  {
    SuffixIsPart(f.st.extents, |f.st.extents| - |f.log.list|);
    assert f.st.extents[..|f.st.extents|] == f.st.extents && f.st.extents[0..] == f.st.extents;
  }

  lemma ClosedHasAll(geo: Geometry, disk: Disk, owner: seq<seq<nat>>, holder: seq<Holder>, i: nat, f: File)
    requires Good(geo, disk, owner, holder, i, f) && f.alive && f.phase != Idle
    ensures f.st.synced == |f.st.extents| == |f.other| && f.st.logged.None? && f.st.start.None? && f.st.active.None?
    ensures f.window == Quiet
    ensures Encodes(f) ==> f.enc.n == |f.st.extents| && f.enc.due.None?
  {
    hide ReadersOk, LogOk, Region, DiskOk, Apart, Owned, WalkSegments, AllInside, Lookup;
  }

  lemma MarkKeeps(s: State, i: nat)
    requires Inv(s) && Enabled(s, Mark(i))
    ensures Keeps(s, Mark(i), i)
  {
    hide Inv, StateOk, FileOk, FileContent, AllInside, WindowOk, IsSuffix, Part;
    FactsAt(s, i);
    var f := s.files[i];
    WindowMarked(s.geo, s.disk, s.holder, i, f);
    if f.enc.kind == Swap {
      GoodFile(s, i);
      ClosedHasAll(s.geo, s.disk, s.owner, s.holder, i, f);
      SwapIsPart(f);
      PartOfMore(f.log.list, f.st.extents, []);
      assert f.st.extents + [] == f.st.extents;
    }
    FlagStep(s, i, MarkedFile(f));
  }

  lemma WindowMarked(geo: Geometry, disk: Disk, holder: seq<Holder>, i: nat, f: File)
    requires WindowOk(geo, disk, holder, i, f) && f.enc.Marking?
    ensures WindowOk(geo, disk, holder, i, MarkedFile(f))
  {
  }

  // ---------- appends ----------

  /** The file that appends keeps its lists. */
  lemma OwnListsKept(s: State, i: nat, z: nat, bytes: seq<byte>)
    requires Inv(s) && i < |s.files| && Fits(s, z, bytes) && s.files[i].alive
    ensures ListsOk(s.disk[z := s.disk[z] + bytes], s.owner[z := s.owner[z] + Owners(i, |bytes|)], i, s.files[i])
    ensures DiskOk(s.geo, s.disk[z := s.disk[z] + bytes])
  {
    hide DiskOk, Refers, ListsOk, FileOk, ReadersOk, StateOk, LogOk, Inv, Aligned;
    GoodFile(s, i);
    OwnersMatch(s, z);
    GrowDisk(s.geo, s.disk, z, bytes);
    ListsFrame(s.disk, s.disk[z := s.disk[z] + bytes], s.owner, s.owner[z := s.owner[z] + Owners(i, |bytes|)], i,
      s.files[i]);
  }

  lemma OwnersAll(s: State)
    requires Inv(s)
    ensures |s.owner| == |s.disk| && (forall z :: 0 <= z < |s.disk| ==> |s.owner[z]| == |s.disk[z]|)
    ensures DiskOk(s.geo, s.disk) && s.geo.bs > 0
  {
    hide Good;
  }

  lemma WindowOfWriter(geo: Geometry, disk: Disk, holder: seq<Holder>, i: nat, f: File)
    requires f.window == Quiet || f.window.Lagging?
    requires f.window.Lagging? ==> ActiveOk(disk, f.mode, f.st) && Pending(disk, f.mode, f.st) == []
    ensures WindowOk(geo, disk, holder, i, f)
  {
  }

  lemma LogOfWriter(f: File, f': File)
    requires LogOk(f) && f'.st.extents == f.st.extents && f'.st.synced == f.st.synced && f'.st.logged == f.st.logged
    requires f'.counter == f.counter && f'.log == f.log && f'.enc == f.enc && f'.phase == f.phase && f'.other == f.other
    ensures LogOk(f')
  {
    hide Part, IsSuffix;
  }

  lemma WriteKeeps(s: State, i: nat, data: seq<byte>)
    requires Inv(s) && Enabled(s, Write(i, data)) && Intact(s, Write(i, data))
    ensures Keeps(s, Write(i, data), i)
  {
    hide Inv, FileOk, ListsOk, ReadersOk, DiskOk, FileContent, AllInside, Content, Aligned, StateOk, LogOk, LockOk,
      FlagsOk, WindowOk, Bytes, ActiveOk;
    var f, z := s.files[i], s.files[i].st.active.value;
    GoodFile(s, i);
    FileFacts(s.geo, s.disk, s.owner, s.holder, i, f);
    FactsAt(s, i);
    OwnersAll(s);
    OwnListsKept(s, i, z, data);
    GrowFrame(s.disk, f.st.extents, z, data);
    var f' := f.(st := f.st.(size := f.st.size + |data|), uncounted := |data|);
    var s' := Extend(s, i, z, data, f', 0);
    StateFacts(s.geo, s.disk, s.owner, s.holder, i, f.mode, f.st);
    StWrite(s.geo, s.disk, s.owner, s.holder, i, f.st, data);
    StWrite(s.geo, s.disk, s.owner, s.holder, i, PairSt(f), data);
    assert PairSt(f') == PairSt(f).(size := f.st.size + |data|);
    StateFacts(s.geo, s'.disk, s'.owner, s.holder, i, f.mode, f'.st);
    ListsStay(s'.disk, s'.owner, i, f, f');
    ReadersFrame(s.disk, s'.disk, s.owner, s'.owner, i, f);
    ReadersStay(s'.disk, f, f');
    WindowOfWriter(s.geo, s'.disk, s.holder, i, f');
    LogOfWriter(f, f');
    PushOk(s.geo, s.disk, f.st);
    WrittenFlags(f, |data|);
    BytesOf(s'.disk, f');
    ExtendStep(s, i, z, data, f', 0, data);
  }

  lemma WrittenFlags(f: File, n: nat)
    requires FlagsOk(f) && LockOk(f) && f.mode == Direct && f.writing && f.window == Quiet && f.st.active.Some?
    requires f.st.filepos <= f.st.size
    ensures var f' := f.(st := f.st.(size := f.st.size + n), uncounted := n); FlagsOk(f') && LockOk(f')
  {
  }

  lemma CountKeeps(s: State, i: nat)
    requires Inv(s) && Enabled(s, Count(i))
    ensures Keeps(s, Count(i), i)
  {
    hide Inv, StateOk, FileOk, FileContent, Part, AllInside;
    FactsAt(s, i);
    FlagStep(s, i, s.files[i].(uncounted := 0));
  }

  // ---------- new extents ----------

  lemma PushedSeparate(es: seq<Ext>, e: Ext)
    requires Apart(es, es) && EndBefore(es, Pos(e.zone, e.off))
    ensures Apart(es + [e], es + [e])
  {
    var all := es + [e];
    forall i, j | 0 <= i < |all| && 0 <= j < |all| && (i != j || all[i] != all[j])
      ensures Disjoint(all[i], all[j])
    {
      if i < |es| && j < |es| { assert Disjoint(es[i], es[j]); }
    }
  }

  lemma PushedOwned(owner: seq<seq<nat>>, i: nat, es: seq<Ext>, e: Ext)
    requires Owned(owner, i, es) && OwnedRange(owner, i, e.zone, e.off, e.off + e.len)
    ensures Owned(owner, i, es + [e])
  {
    hide OwnedRange;
  }

  /** An extent behind all others of its zone joins the list of a file. */
  lemma PushedLists(disk: Disk, owner: seq<seq<nat>>, i: nat, f: File, st: FileState, e: Ext)
    requires ListsOk(disk, owner, i, f) && f.phase == Idle && st.extents == f.st.extents + [e]
    requires Inside(disk, e) && e.len > 0 && OwnedRange(owner, i, e.zone, e.off, e.off + e.len)
    requires EndBefore(f.st.extents, Pos(e.zone, e.off))
    ensures ListsOk(disk, owner, i, WithExtents(f, st))
  {
    PushedOwned(owner, i, f.st.extents, e);
    PushedSeparate(f.st.extents, e);
    hide Apart, Owned, OwnedRange, Lookup, Inside, EndBefore;
  }

  lemma PushedCharge(f: File, st: FileState, e: Ext, z: nat)
    requires f.alive && f.other == f.st.extents && st.extents == f.st.extents + [e]
    ensures Charge(WithExtents(f, st), z) == Charge(f, z) + if e.zone == z then e.len else 0
  {
    NothingMoved(f.st.extents);
    NothingMoved(st.extents);
    ZoneSumPush(f.st.extents, e, z);
  }

  /** A new extent at the end of the list does not disturb readers. */
  lemma PushedReader(disk: Disk, es: seq<Ext>, e: Ext, r: Reader)
    requires AllInside(disk, es) && Inside(disk, e) && ReaderOk(disk, es, r)
    ensures AllInside(disk, es + [e]) && ReaderOk(disk, es + [e], r)
  {
    hide Total, Content, Lookup, Inside;
    ContentPush(disk, es, e);
    assert (es + [e])[..r.k] == es[..r.k];
    var c, more := Content(disk, es), Lookup(disk, e);
    assert (c + more)[r.offset..r.offset + |r.got|] == c[r.offset..r.offset + |r.got|];
  }

  lemma PushedReaders(disk: Disk, f: File, st: FileState, e: Ext)
    requires AllInside(disk, f.st.extents) && Inside(disk, e) && ReadersOk(disk, f) && st.extents == f.st.extents + [e]
    ensures AllInside(disk, st.extents) && ReadersOk(disk, WithExtents(f, st))
  {
    hide ReaderOk, Inside;
    forall n | 0 <= n < |f.readers|
      ensures AllInside(disk, st.extents) && ReaderOk(disk, st.extents, f.readers[n])
    {
      PushedReader(disk, f.st.extents, e, f.readers[n]);
    }
  }

  lemma LogPushed(f: File, st: FileState, e: Ext)
    requires LogOk(f) && f.phase == Idle && st.extents == f.st.extents + [e] && st.synced == f.st.synced
    requires st.logged == f.st.logged
    ensures LogOk(WithExtents(f, st))
  {
    hide IsSuffix, Part;
    PartOfMore(f.log.list, f.st.extents, [e]);
    if Encodes(f) { PartOfMore(f.enc.list, f.st.extents, [e]); }
    assert f.st.extents + [] == f.st.extents && st.extents + [] == st.extents;
    assert st.extents[..st.synced] == f.st.extents[..f.st.synced];
  }

  lemma FlagsPushed(f: File, st: FileState)
    requires FlagsOk(f) && f.writing && f.window == Quiet && f.uncounted == 0
    ensures FlagsOk(WithExtents(f, st))
    ensures LockOk(f) ==> LockOk(WithExtents(f, st))
  {
  }

  lemma FlagsGrown(f: File, st: FileState, n: nat)
    requires FlagsOk(f) && f.writing && f.window == Quiet && f.mode != Direct && st.active.Some?
    ensures FlagsOk(WithExtents(f, st).(uncounted := n))
    ensures LockOk(f) ==> LockOk(WithExtents(f, st).(uncounted := n))
  {
  }

  /** A file that writes is not being migrated. */
  lemma WriterIsIdle(disk: Disk, owner: seq<seq<nat>>, i: nat, f: File)
    requires FlagsOk(f) && f.writing && ListsOk(disk, owner, i, f)
    ensures f.phase == Idle && f.other == f.st.extents
  {
    hide Apart, Owned, SameBytes;
  }

  lemma GrowKeeps(s: State, i: nat, payload: seq<byte>, bytes: seq<byte>)
    requires Inv(s) && Enabled(s, Grow(i, payload, bytes))
    ensures Keeps(s, Grow(i, payload, bytes), i)
  {
    hide Inv, FileOk, ListsOk, ReadersOk, DiskOk, FileContent, AllInside, Content, Aligned, StateOk, LogOk, LockOk,
      FlagsOk, WindowOk, Bytes, ActiveOk,
      Segment, Charge, EndBefore, OwnedRange;
    var f, z, head := s.files[i], s.files[i].st.active.value, HeadOf(s.files[i].mode);
    GoodFile(s, i);
    FileFacts(s.geo, s.disk, s.owner, s.holder, i, f);
    FactsAt(s, i);
    WriterIsIdle(s.disk, s.owner, i, f);
    OwnersAll(s);
    OwnListsKept(s, i, z, bytes);
    GrowFrame(s.disk, f.st.extents, z, bytes);
    NewExtent(s.disk, z, head, payload, bytes);
    var st, e := Grown(s.disk, f.st, head, |payload|, |bytes|), Ext(z, |s.disk[z]| + head, |payload|);
    var g := WithExtents(f, st);
    var f' := g.(uncounted := |payload|);
    var s' := Extend(s, i, z, bytes, f', |payload|);
    StateFacts(s.geo, s.disk, s.owner, s.holder, i, f.mode, f.st);
    StGrow(s.geo, s.disk, s.owner, s.holder, i, f.mode, f.st, payload, bytes);
    StGrow(s.geo, s.disk, s.owner, s.holder, i, f.mode, PairSt(f), payload, bytes);
    assert PairSt(f') == Grown(s.disk, PairSt(f), head, |payload|, |bytes|);
    StateFacts(s.geo, s'.disk, s'.owner, s.holder, i, f.mode, st);
    NewCellsOwned(s.owner, i, z, |s.disk[z]| + head, |payload|, |bytes|);
    InsideEndsBefore(s.disk, f.st.extents, z);
    EndBeforeLater(f.st.extents, Pos(z, |s.disk[z]|), e.off);
    PushedLists(s'.disk, s'.owner, i, f, st, e);
    ReadersFrame(s.disk, s'.disk, s.owner, s'.owner, i, f);
    PushedReaders(s'.disk, f, st, e);
    ListsStay(s'.disk, s'.owner, i, g, f');
    ReadersStay(s'.disk, g, f');
    WindowOfWriter(s.geo, s'.disk, s.holder, i, f');
    LogPushed(f, st, e);
    LogOfWriter(g, f');
    FlagsGrown(f, st, |payload|);
    BytesOf(s'.disk, f');
    forall y | 0 <= y < |s.disk|
      ensures Charge(f', y) == Charge(f, y) + if y == z then |payload| else 0
    {
      PushedCharge(f, st, e, y);
    }
    ExtendStep(s, i, z, bytes, f', |payload|, payload);
  }

  /** No append to the file is between its write and the count of the written bytes. */
  lemma PushKeeps(s: State, i: nat)
    requires Inv(s) && Enabled(s, Push(i)) && Intact(s, Push(i))
    ensures Keeps(s, Push(i), i)
  {
    hide Inv, FileOk, ListsOk, ReadersOk, DiskOk, FileContent, AllInside, Content, StateOk, LogOk, LockOk, FlagsOk,
      WindowOk, Bytes, ActiveOk,
      Charge, EndBefore, OwnedRange, Inside;
    var f, z := s.files[i], s.files[i].st.active.value;
    GoodFile(s, i);
    FileFacts(s.geo, s.disk, s.owner, s.holder, i, f);
    FactsAt(s, i);
    WriterIsIdle(s.disk, s.owner, i, f);
    OwnersAll(s);
    StPush(s.geo, s.disk, s.owner, s.holder, i, f.st);
    StPush(s.geo, s.disk, s.owner, s.holder, i, PairSt(f));
    var st, e := Pushed(s.disk, f.st), Ext(z, f.st.start.value.off, f.st.size - f.st.filepos);
    var f' := WithExtents(f, st);
    assert PushedState(s.disk, f) == st && PairSt(f') == Pushed(s.disk, PairSt(f));
    StateFacts(s.geo, s.disk, s.owner, s.holder, i, f.mode, st);
    PushedLists(s.disk, s.owner, i, f, st, e);
    PushedReaders(s.disk, f, st, e);
    WindowOfWriter(s.geo, s.disk, s.holder, i, f');
    LogPushed(f, st, e);
    FlagsPushed(f, st);
    BytesOf(s.disk, f');
    var used := s.used[z := s.used[z] + e.len];
    forall y | 0 <= y < |s.used|
      ensures used[y] == s.used[y] - Charge(f, y) + Charge(f', y)
    {
      PushedCharge(f, st, e, y);
    }
    ChargeStep(s, i, f', used);
  }

  // ---------- zones ----------

  lemma FlagKeeps(s: State, z: nat, h: Holder)
    requires Inv(s) && z < |s.holder|
    requires match s.holder[z]
      case ByFile(i) => i < |s.files| && !UsesZone(s.files[i], z)
      case _ => true
    ensures Inv(s.(holder := s.holder[z := h])) && Advanced(s, s.(holder := s.holder[z := h]), 0, [])
  {
    hide Inv, Good, Bytes, UsesZone;
    forall i | 0 <= i < |s.files| && s.files[i].alive
      ensures !UsesZone(s.files[i], z)
    {
      if s.holder[z] != ByFile(i) {
        GoodFile(s, i);
        BusyElsewhere(s.geo, s.disk, s.owner, s.holder, i, s.files[i], z);
      }
    }
    HolderStep(s, z, h);
  }

  /** A zone is taken or given up. */
  lemma HoldKeeps(s: State, a: Action)
    requires Inv(s) && Enabled(s, a) && (a.Acquire? || a.Release? || a.MoveTake?)
    ensures Keeps(s, a, 0)
  {
    hide Inv, Advanced, Good, UsesZone;
    match a {
      case Acquire(i, z) => FlagKeeps(s, z, ByFile(i));
      case Release(z) => FlagKeeps(s, z, Free);
      case MoveTake(i, z) => FlagKeeps(s, z, ByMover(i));
    }
  }

  lemma FinishKeeps(s: State, z: nat)
    requires Inv(s) && Enabled(s, Finish(z))
    ensures Keeps(s, Finish(z), 0)
  {
    hide Good, Charges, DiskOk, Bytes;
  }

  /** A zone that nobody holds and that is charged nothing has no extent of any file, neither
      in the list nor in the other one, and no active extent starts in it, in memory or in
      the log. */
  lemma UnusedZone(s: State, z: nat, i: nat)
    requires Inv(s) && Enabled(s, Reset(z)) && i < |s.files| && s.files[i].alive
    ensures !Refers(s.files[i], z) && !Pins(s.files[i], z)
  {
    hide Inv, StateOk, FileOk, ReadersOk, AllInside, Apart, Owned, LogOk, LockOk, FlagsOk, WindowOk, Lookup;
    var f := s.files[i];
    GoodFile(s, i);
    FileFacts(s.geo, s.disk, s.owner, s.holder, i, f);
    ZeroCharge(s, z, i);
    SwapSum(f.st.extents, f.other, z);
    forall k | 0 <= k < |f.st.extents|
      ensures f.st.extents[k].zone != z && f.other[k].zone != z
    {
      if f.st.extents[k].zone == z { ChargedIfThere(f.st.extents, k, z); }
      if f.other[k].zone == z { ChargedIfThere(f.other, k, z); }
    }
    BusyElsewhere(s.geo, s.disk, s.owner, s.holder, i, f, z);
    StNotPinned(s.geo, s.disk, s.owner, s.holder, i, f.mode, f.st, z);
    StNotPinned(s.geo, s.disk, s.owner, s.holder, i, f.mode, PairSt(f), z);
  }

  lemma StNotPinned(geo: Geometry, disk: Disk, owner: seq<seq<nat>>, holder: seq<Holder>, i: nat, mode: Mode,
          st: FileState, z: nat)
    requires StateOk(geo, disk, owner, holder, i, mode, st) && z < |holder| && holder[z] == Free
    requires !InZone(st.extents, z)
    ensures !StPins(st, z)
  {
    hide DiskOk, RegionOk, EndBefore, OwnedRange, FileContent;
  }

  lemma ZeroCharge(s: State, z: nat, i: nat)
    requires Inv(s) && z < |s.used| && s.used[z] == 0 && i < |s.files|
    ensures Charge(s.files[i], z) == 0
  {
    hide Good, DiskOk, Charge;
    ChargeBelow(s.files, i, z);
  }

  lemma ResetShape(s: State, z: nat)
    requires Shape(s) && Enabled(s, Reset(z))
    ensures Shape(Apply(s, Reset(z)))
  {
    MultipleZero(s.geo.bs);
  }

  lemma MultipleZero(bs: nat)
    requires bs > 0
    ensures Aligned(0, bs)
  {
  }

  lemma ResetKeeps(s: State, z: nat)
    requires Inv(s) && Enabled(s, Reset(z))
    ensures Keeps(s, Reset(z), 0)
  {
    hide Good, Charges, DiskOk, Bytes, Refers, Pins, UsesZone;
    var s' := Apply(s, Reset(z));
    ResetShape(s, z);
    forall i | 0 <= i < |s.files|
      ensures Good(s.geo, s'.disk, s'.owner, s.holder, i, s.files[i])
      ensures s.files[i].alive ==> Bytes(s'.disk, s.files[i]) == Bytes(s.disk, s.files[i])
    {
      if s.files[i].alive {
        UnusedZone(s, z, i);
        GoodFrame(s.geo, s.disk, s'.disk, s.owner, s'.owner, s.holder, s.holder, i, s.files[i]);
      } else {
        DeadIsGood(s.geo, s.disk, s'.disk, s.owner, s'.owner, s.holder, s.holder, i, s.files[i]);
      }
    }
  }
}
