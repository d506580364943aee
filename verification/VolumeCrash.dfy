/** A crash at any point: mounting finds every named file, with its own bytes only, and with all of
    them when the log is exact. */
module VolumeCrash {
  import opened Common
  import opened Coding
  import opened Blocks
  import opened ZoneData
  import opened ZoneFiles
  import opened Accounting
  import opened Volume
  import opened VolumeFrame
  import opened VolumeSteps
  import opened VolumeMoves
  import opened VolumeStarts

  predicate Sound(disk: Disk, owner: seq<seq<nat>>, i: nat, es: seq<Ext>) {
    AllInside(disk, es) && Positive(es) && Apart(es, es) && Owned(owner, i, es)
  }

  lemma MountedIsGood(geo: Geometry, disk: Disk, owner: seq<seq<nat>>, holder: seq<Holder>, i: nat, mode: Mode,
          es: seq<Ext>, size: int)
    requires DiskOk(geo, disk) && Sound(disk, owner, i, es)
    ensures Good(geo, disk, owner, holder, i, Mounted(mode, es, size))
    ensures Bytes(disk, Mounted(mode, es, size)) == Content(disk, es)
  {
    hide DiskOk, Apart, Owned, WalkSegments, Total, Inside, Part;
    assert es[..|es|] == es && es + [] == es;
    assert Content(disk, es) + [] == Content(disk, es);
    PartOfItself(es);
  }

  lemma PartOfItself(es: seq<Ext>)
    ensures Part(es, es)
  {
  }

  lemma SoundPart(disk: Disk, owner: seq<seq<nat>>, i: nat, es: seq<Ext>, n: nat)
    requires Sound(disk, owner, i, es) && n <= |es|
    ensures Sound(disk, owner, i, es[..n])
  {
    hide Inside, OwnedRange;
    var part := es[..n];
    forall j, k | 0 <= j < n && 0 <= k < n && (j != k || part[j] != part[k])
      ensures Disjoint(part[j], part[k])
    {
      assert Disjoint(es[j], es[k]);
    }
  }

  lemma SoundPush(disk: Disk, owner: seq<seq<nat>>, i: nat, es: seq<Ext>, e: Ext)
    requires Sound(disk, owner, i, es) && Inside(disk, e) && e.len > 0
    requires OwnedRange(owner, i, e.zone, e.off, e.off + e.len) && EndBefore(es, Pos(e.zone, e.off))
    ensures Sound(disk, owner, i, es + [e])
  {
    PushedSeparate(es, e);
    PushedOwned(owner, i, es, e);
    hide Apart, Owned, OwnedRange, EndBefore, Inside;
  }

  lemma ListsSound(disk: Disk, owner: seq<seq<nat>>, i: nat, f: File)
    requires ListsOk(disk, owner, i, f)
    ensures Sound(disk, owner, i, f.st.extents) && Sound(disk, owner, i, f.other)
    ensures Content(disk, f.st.extents) == Content(disk, f.other)
  {
    hide Apart, Owned, AllInside;
    SameLists(disk, f.st.extents, f.other);
    SameContent(disk, f.st.extents, f.other);
  }

  lemma SameLists(disk: Disk, a: seq<Ext>, b: seq<Ext>)
    requires SameBytes(disk, a, b)
    ensures AllInside(disk, a) && AllInside(disk, b)
  {
  }

  /** Without an active extent in the log, a file is mounted as it is there. */
  lemma NoActiveExtent(geo: Geometry, disk: Disk, f: File)
    requires f.log.start.None? && geo.bs > 0
    ensures Recover(geo, disk, f) == Recovered(f.log.list)
  {
  }

  /** What the recovery of a file must give. */
  predicate Recovers(geo: Geometry, disk: Disk, owner: seq<seq<nat>>, i: nat, f: File)
    requires geo.bs > 0
  {
    var r := Recover(geo, disk, f);
    && r.Recovered? && Sound(disk, owner, i, r.extents) && f.log.list <= r.extents
    && (f.mode != Buffered ==> Content(disk, r.extents) == Bytes(disk, f))
  }

  lemma RecoversReplaced(geo: Geometry, disk: Disk, owner: seq<seq<nat>>, holder: seq<Holder>, i: nat, f: File)
    requires Good(geo, disk, owner, holder, i, f) && f.alive && Old(f) && f.log.list == f.other && f.log.exact
    ensures geo.bs > 0 && Recovers(geo, disk, owner, i, f)
  {
    hide DiskOk, FileOk, Content, SameBytes, Apart, Owned, ReadersOk, Sound, RecoverFile, StateOk, LogOk, LockOk,
      AllInside, ActiveOk;
    FileFacts(geo, disk, owner, holder, i, f);
    PositiveBlocks(geo, disk);
    ClosedHasAll(geo, disk, owner, holder, i, f);
    ExactStart(f);
    ListsSound(disk, owner, i, f);
    NoActiveExtent(geo, disk, f);
    BytesOf(disk, f);
    assert Content(disk, f.st.extents) + [] == Content(disk, f.st.extents);
  }

  lemma ExactStart(f: File)
    requires LogOk(f) && f.log.exact
    ensures f.log.start == f.st.logged && f.st.synced <= |f.st.extents|
    ensures f.log.list == f.st.extents[..f.st.synced] || (Old(f) && f.log.list == f.other)
  {
    hide Part, IsSuffix;
  }

  lemma RecoversSparse(geo: Geometry, disk: Disk, owner: seq<seq<nat>>, holder: seq<Holder>, i: nat, f: File)
    requires Good(geo, disk, owner, holder, i, f) && f.alive && f.log.exact && f.mode == Sparse
    requires f.st.synced <= |f.st.extents| && f.log.list == f.st.extents[..f.st.synced]
    ensures geo.bs > 0 && Recovers(geo, disk, owner, i, f)
  {
    hide DiskOk, FileOk, Content, SameBytes, Apart, Owned, ReadersOk, Sound, RecoverFile, StateOk, LogOk, LockOk,
      AllInside, ActiveOk;
    FileFacts(geo, disk, owner, holder, i, f);
    ListsSound(disk, owner, i, f);
    ExactStart(f);
    RecoverSparse(geo, disk, f.st);
    FileHolds(geo, disk, f.mode, f.st);
    BytesOf(disk, f);
    assert Content(disk, f.st.extents) + [] == Content(disk, f.st.extents);
  }

  /** The list of a file that is not sparse: the bytes behind the logged active extent start
      are one extent more. */
  lemma PlainExtents(geo: Geometry, disk: Disk, mode: Mode, st: FileState)
    requires FileOk(geo, disk, mode, st) && mode != Sparse
    ensures var known := st.extents[..st.synced];
      RecoverFile(geo, disk, known, st.logged, false) == Recovered(
        if st.logged.None? || |disk[st.logged.value.zone]| == st.logged.value.off then known
        else known + [Ext(st.logged.value.zone, st.logged.value.off,
          |disk[st.logged.value.zone]| - st.logged.value.off)])
  {
    hide DiskOk, Content, AllInside, Resolve;
    if st.logged.Some? { LoggedResolves(geo, disk, mode, st); }
  }

  lemma RecoversPlain(geo: Geometry, disk: Disk, owner: seq<seq<nat>>, holder: seq<Holder>, i: nat, f: File)
    requires Good(geo, disk, owner, holder, i, f) && f.alive && f.log.exact && f.mode != Sparse
    requires f.st.synced <= |f.st.extents| && f.log.list == f.st.extents[..f.st.synced]
    requires |owner| == |disk| && forall z :: 0 <= z < |disk| ==> |owner[z]| == |disk[z]|
    ensures geo.bs > 0 && Recovers(geo, disk, owner, i, f)
  {
    hide DiskOk, FileOk, Content, SameBytes, Apart, Owned, ReadersOk, Sound, RecoverFile, EndBefore, OwnedRange,
      FileContent, AllInside, LogOk, LockOk, ActiveOk;
    FileFacts(geo, disk, owner, holder, i, f);
    ListsSound(disk, owner, i, f);
    ExactStart(f);
    FileHolds(geo, disk, f.mode, f.st);
    SoundPart(disk, owner, i, f.st.extents, f.st.synced);
    PlainExtents(geo, disk, f.mode, f.st);
    RecoverGivesContent(geo, disk, f.mode, f.st);
    BytesOf(disk, f);
    var known := f.st.extents[..f.st.synced];
    if f.st.logged.Some? && |disk[f.st.logged.value.zone]| != f.st.logged.value.off {
      var p := f.st.logged.value;
      SoundPush(disk, owner, i, known, Ext(p.zone, p.off, |disk[p.zone]| - p.off));
    }
  }

  /** Recovery of a file whose log is exact gives it nothing but what it wrote, and no byte twice.
      Direct and sparse files lose nothing at all. */
  lemma ExactRecovers(s: State, i: nat)
    requires Inv(s) && i < |s.files| && s.files[i].named && s.files[i].log.exact
    ensures s.geo.bs > 0 && Recovers(s.geo, s.disk, s.owner, i, s.files[i])
  {
    hide Inv, DiskOk, ListsOk, StateOk, ReadersOk, Recovers, LogOk, Good;
    GoodFile(s, i);
    OwnersAll(s);
    NamedIsAlive(s, i);
    var f := s.files[i];
    FileFacts(s.geo, s.disk, s.owner, s.holder, i, f);
    ExactStart(f);
    if Old(f) && f.log.list == f.other {
      RecoversReplaced(s.geo, s.disk, s.owner, s.holder, i, f);
    } else if f.mode == Sparse {
      RecoversSparse(s.geo, s.disk, s.owner, s.holder, i, f);
    } else {
      RecoversPlain(s.geo, s.disk, s.owner, s.holder, i, f);
    }
  }

  // ---------- a crash at any point ----------

  /** The extents that recovery adds to what the log has. */
  function Added(geo: Geometry, disk: Disk, start: Option<Pos>, sparse: bool): Recovery
    requires geo.bs > 0
  {
    RecoverFile(geo, disk, [], start, sparse)
  }

  lemma RecoverAdds(geo: Geometry, disk: Disk, list: seq<Ext>, start: Option<Pos>, sparse: bool)
    requires geo.bs > 0
    ensures Added(geo, disk, start, sparse).Failed? ==> RecoverFile(geo, disk, list, start, sparse).Failed?
    ensures Added(geo, disk, start, sparse).Recovered? ==>
      RecoverFile(geo, disk, list, start, sparse) == Recovered(list + Added(geo, disk, start, sparse).extents)
  {
    hide WalkSegments, Resolve;
    assert list + [] == list;
    if start.Some? {
      var p := Resolve(geo, start.value);
      if p.zone < |disk| && p.off < |disk[p.zone]| {
        var e := Ext(p.zone, p.off, |disk[p.zone]| - p.off);
        assert [] + [e] == [e];
        assert sparse && WalkSegments(disk[p.zone][p.off..], p.zone, p.off, geo.bs).Walked? ==>
          [] + WalkSegments(disk[p.zone][p.off..], p.zone, p.off, geo.bs).extents
            == WalkSegments(disk[p.zone][p.off..], p.zone, p.off, geo.bs).extents;
      }
    }
  }

  lemma {:induction false} TotalConcat(a: seq<Ext>, b: seq<Ext>)
    ensures Total(a + b) == Total(a) + Total(b)
    decreases |b|
  {
    if b == [] {
      assert a + b == a;
    } else {
      var n := |b| - 1;
      TotalConcat(a, b[..n]);
      assert (a + b)[..|a + b| - 1] == a + b[..n];
    }
  }

  lemma InsideParts(disk: Disk, a: seq<Ext>, b: seq<Ext>, c: seq<Ext>)
    requires AllInside(disk, a + b) && AllInside(disk, c)
    ensures AllInside(disk, c + b)
  {
    hide Inside;
    forall i | 0 <= i < |c + b|
      ensures Inside(disk, (c + b)[i])
    {
      if i >= |c| { assert (c + b)[i] == (a + b)[i - |c| + |a|]; }
    }
  }

  /** What recovery makes of a list and the start of a pair. */
  lemma RecoveredLength(geo: Geometry, disk: Disk, mode: Mode, f: FileState, list: seq<Ext>)
    requires FileOk(geo, disk, mode, f) && mode != Buffered && AllInside(disk, list)
    ensures geo.bs > 0 && f.synced <= |f.extents|
    ensures var r := RecoverFile(geo, disk, list, f.logged, mode == Sparse);
      && r.Recovered? && AllInside(disk, r.extents)
      && Total(r.extents) + Total(f.extents[..f.synced]) == Total(list) + f.size
  {
    hide Content, WalkSegments, DiskOk, Inside, RecoverFile;
    var known := f.extents[..f.synced];
    RecoverGivesContent(geo, disk, mode, f);
    FileHolds(geo, disk, mode, f);
    RecoverAdds(geo, disk, known, f.logged, mode == Sparse);
    RecoverAdds(geo, disk, list, f.logged, mode == Sparse);
    var added := Added(geo, disk, f.logged, mode == Sparse).extents;
    TotalConcat(known, added);
    TotalConcat(list, added);
    InsideParts(disk, known, added, list);
    assert Content(disk, f.extents) + [] == Content(disk, f.extents);
  }

  /** What recovery gives a file at any time: it succeeds, begins with the list of the log, and gives
      nothing but what was written for the file. To the bytes of a direct or sparse file it adds
      those that the list has and that the start is not behind, and it takes those that the start is
      behind and the list has not. */
  predicate RecoversOwn(geo: Geometry, disk: Disk, owner: seq<seq<nat>>, i: nat, f: File)
    requires geo.bs > 0
  {
    var r := Recover(geo, disk, f);
    && r.Recovered? && f.log.list <= r.extents
    && AllInside(disk, r.extents) && Positive(r.extents) && Owned(owner, i, r.extents)
    && f.log.m <= |f.st.extents|
    && (f.mode != Buffered ==>
        |Content(disk, r.extents)| == |Bytes(disk, f)| + Total(f.log.list) - Total(f.st.extents[..f.log.m]))
  }

  predicate Proper(disk: Disk, owner: seq<seq<nat>>, i: nat, es: seq<Ext>) {
    AllInside(disk, es) && Positive(es) && Owned(owner, i, es)
  }

  lemma ProperParts(disk: Disk, owner: seq<seq<nat>>, i: nat, list: seq<Ext>, a: seq<Ext>, b: seq<Ext>)
    requires Proper(disk, owner, i, a) && Proper(disk, owner, i, b) && Part(list, a + b)
    ensures Proper(disk, owner, i, list)
  {
    hide OwnedRange, Inside;
    forall k | 0 <= k < |list|
      ensures Inside(disk, list[k]) && list[k].len > 0
      ensures OwnedRange(owner, i, list[k].zone, list[k].off, list[k].off + list[k].len)
    {
      var j :| 0 <= j < |a + b| && (a + b)[j] == list[k];
      assert if j < |a| then list[k] == a[j] else list[k] == b[j - |a|];
    }
  }

  lemma ProperJoin(disk: Disk, owner: seq<seq<nat>>, i: nat, a: seq<Ext>, b: seq<Ext>)
    requires Proper(disk, owner, i, a) && Proper(disk, owner, i, b)
    ensures Proper(disk, owner, i, a + b)
  {
    hide OwnedRange, Inside;
  }

  lemma ProperDrop(disk: Disk, owner: seq<seq<nat>>, i: nat, es: seq<Ext>, n: nat)
    requires Proper(disk, owner, i, es) && n <= |es|
    ensures Proper(disk, owner, i, es[n..])
  {
    hide OwnedRange, Inside;
  }

  lemma ProperOne(disk: Disk, owner: seq<seq<nat>>, i: nat, e: Ext)
    requires Inside(disk, e) && e.len > 0 && OwnedRange(owner, i, e.zone, e.off, e.off + e.len)
    ensures Proper(disk, owner, i, [e])
  {
    hide OwnedRange, Inside;
  }

  lemma ProperNone(disk: Disk, owner: seq<seq<nat>>, i: nat)
    ensures Proper(disk, owner, i, [])
  {
  }

  /** The lists of a file, and so the one in the log. */
  lemma LoggedIsProper(disk: Disk, owner: seq<seq<nat>>, i: nat, f: File)
    requires ListsOk(disk, owner, i, f) && LogOk(f)
    ensures Proper(disk, owner, i, f.log.list) && Proper(disk, owner, i, f.st.extents)
  {
    hide Owned, AllInside, Apart, Part, IsSuffix, ListFits, Lookup;
    SameLists(disk, f.st.extents, f.other);
    ProperNone(disk, owner, i);
    ProperParts(disk, owner, i, f.log.list, f.st.extents, if Old(f) then f.other else []);
  }

  /** Behind a start that belongs to a number of extents there is nothing but what was written for
      the file. */
  lemma AddedIsProper(geo: Geometry, disk: Disk, owner: seq<seq<nat>>, holder: seq<Holder>, i: nat, mode: Mode,
          st: FileState)
    requires StateOk(geo, disk, owner, holder, i, mode, st) && Proper(disk, owner, i, st.extents) && st.logged.Some?
    requires |owner| == |disk| && forall z :: 0 <= z < |disk| ==> |owner[z]| == |disk[z]|
    ensures geo.bs > 0
    ensures var r := Added(geo, disk, st.logged, mode == Sparse); r.Recovered? && Proper(disk, owner, i, r.extents)
  {
    hide DiskOk, RegionOk, Content, FileContent, Owned, EndBefore, RecoverFile, Resolve, Positive;
    StateFacts(geo, disk, owner, holder, i, mode, st);
    LoggedResolves(geo, disk, mode, st);
    var p, known := st.logged.value, st.extents[..st.synced];
    RecoverAdds(geo, disk, known, st.logged, mode == Sparse);
    RecoverGivesContent(geo, disk, mode, st);
    var r := Added(geo, disk, st.logged, mode == Sparse).extents;
    if mode == Sparse {
      assert (known + r)[|known|..] == r && st.extents[st.synced..] == r;
      ProperDrop(disk, owner, i, st.extents, st.synced);
    } else {
      PlainExtents(geo, disk, mode, st);
      if |disk[p.zone]| == p.off {
        assert known + [] == known;
        assert (known + r)[|known|..] == r == [];
        ProperNone(disk, owner, i);
      } else {
        var e := Ext(p.zone, p.off, |disk[p.zone]| - p.off);
        assert (known + r)[|known|..] == r == [e];
        ProperOne(disk, owner, i, e);
      }
    }
  }

  /** A start with nothing behind it. */
  lemma AddsNothing(geo: Geometry, disk: Disk, list: seq<Ext>, start: Option<Pos>, sparse: bool)
    requires DiskOk(geo, disk)
    requires start.Some? ==> start.value.zone < |disk| && start.value.off == |disk[start.value.zone]|
    ensures geo.bs > 0 && RecoverFile(geo, disk, list, start, sparse) == Recovered(list)
  {
    if start.Some? { assert |disk[start.value.zone]| <= geo.capacity; }
  }

  /** A file all of whose bytes are in its extents, and a log behind whose start there is nothing. */
  lemma RecoversList(geo: Geometry, disk: Disk, owner: seq<seq<nat>>, i: nat, f: File)
    requires DiskOk(geo, disk) && Proper(disk, owner, i, f.log.list) && AllInside(disk, f.st.extents)
    requires f.log.m == |f.st.extents|
    requires ActiveOk(disk, f.mode, f.st) && Pending(disk, f.mode, f.st) == []
    requires f.log.start.Some? ==>
      f.log.start.value.zone < |disk| && f.log.start.value.off == |disk[f.log.start.value.zone]|
    ensures geo.bs > 0 && RecoversOwn(geo, disk, owner, i, f)
  {
    hide DiskOk, Content, RecoverFile, Owned, Pending, Inside, Total, ActiveOk;
    AddsNothing(geo, disk, f.log.list, f.log.start, f.mode == Sparse);
    BytesOf(disk, f);
    ContentLong(disk, f.log.list);
    ContentLong(disk, f.st.extents);
    assert f.st.extents[..|f.st.extents|] == f.st.extents;
    assert Content(disk, f.st.extents) + [] == Content(disk, f.st.extents);
  }

  lemma ContentLong(disk: Disk, es: seq<Ext>)
    requires AllInside(disk, es)
    ensures |Content(disk, es)| == Total(es)
  {
  }

  lemma RecoversBehind(geo: Geometry, disk: Disk, owner: seq<seq<nat>>, holder: seq<Holder>, i: nat, f: File)
    requires f.log.start.Some? && f.log.m <= |f.st.extents| && Proper(disk, owner, i, f.log.list)
    requires Proper(disk, owner, i, f.st.extents)
    requires StateOk(geo, disk, owner, holder, i, f.mode, WithPair(f.st, f.log.m, f.log.start))
    requires ActiveOk(disk, f.mode, f.st)
    requires |owner| == |disk| && forall z :: 0 <= z < |disk| ==> |owner[z]| == |disk[z]|
    ensures geo.bs > 0 && RecoversOwn(geo, disk, owner, i, f)
  {
    hide StateOk, FileOk, Content, RecoverFile, Owned, Positive, AllInside, Total, ActiveOk, Pending;
    var st := WithPair(f.st, f.log.m, f.log.start);
    AddedIsProper(geo, disk, owner, holder, i, f.mode, st);
    RecoverAdds(geo, disk, f.log.list, f.log.start, f.mode == Sparse);
    var added := Added(geo, disk, f.log.start, f.mode == Sparse).extents;
    ProperJoin(disk, owner, i, f.log.list, added);
    StateFacts(geo, disk, owner, holder, i, f.mode, st);
    if f.mode != Buffered {
      RecoveredLength(geo, disk, f.mode, st, f.log.list);
      ContentLong(disk, f.log.list + added);
      BytesOf(disk, f);
      SizeOf(geo, disk, f.mode, f.st, f.log.m, f.log.start);
    }
  }

  lemma SizeOf(geo: Geometry, disk: Disk, mode: Mode, st: FileState, m: nat, start: Option<Pos>)
    requires FileOk(geo, disk, mode, WithPair(st, m, start)) && ActiveOk(disk, mode, st)
    ensures AllInside(disk, st.extents) && |FileContent(disk, mode, st)| == st.size
  {
    hide DiskOk, RegionOk, Content, Inside;
  }

  /** A crash at any point of any run, whatever records and pushes have overlapped: the recovery of
      every file succeeds, begins with the list of the log and gives the file nothing but what was
      written for it. When the log is exact, direct and sparse files lose nothing at all, and no
      byte comes back twice. */
  lemma FileRecovers(s: State, i: nat)
    requires Inv(s) && Starts(s) && i < |s.files| && s.files[i].named
    ensures s.geo.bs > 0 && RecoversOwn(s.geo, s.disk, s.owner, i, s.files[i])
    ensures s.files[i].log.exact ==> Recovers(s.geo, s.disk, s.owner, i, s.files[i])
  {
    hide Inv, DiskOk, ListsOk, StateOk, ReadersOk, Recovers, RecoversOwn, LogOk, Good, Starts, FlagsOk, FileOk,
      Pending, Proper, ActiveOk, AllInside, WithPair;
    NamedIsAlive(s, i);
    OwnersAll(s);
    if s.files[i].log.exact { ExactRecovers(s, i); }
    StartAt(s, i);
    FactsAt(s, i);
    GoodFile(s, i);
    var f := s.files[i];
    GoodLists(s.geo, s.disk, s.owner, s.holder, i, f);
    LoggedIsProper(s.disk, s.owner, i, f);
    ProperInside(s.disk, s.owner, i, f.st.extents);
    if f.log.start.None? || (f.window == Fresh(f.log.start.value) && f.log.m == |f.st.extents|) {
      NothingActive(s.disk, f.mode, f.st);
      RecoversList(s.geo, s.disk, s.owner, i, f);
    } else {
      RecoversBehind(s.geo, s.disk, s.owner, s.holder, i, f);
    }
  }

  lemma ProperInside(disk: Disk, owner: seq<seq<nat>>, i: nat, es: seq<Ext>)
    requires Proper(disk, owner, i, es)
    ensures AllInside(disk, es)
  {
  }

  lemma NothingActive(disk: Disk, mode: Mode, st: FileState)
    requires ActiveOk(disk, mode, st)
    ensures st.active.None? ==> Pending(disk, mode, st) == []
  {
  }

  /** The logged size is the length of the logged list, or recovery finds something and counts
      anew. */
  predicate SizeKnown(geo: Geometry, disk: Disk, size: int, list: seq<Ext>, start: Option<Pos>) {
    size == Total(list) || ToRecover(geo, disk, start)
  }

  predicate SizeHolds(geo: Geometry, disk: Disk, log: Logged) { SizeKnown(geo, disk, log.size, log.list, log.start) }

  /** After a crash, `file_size_` counts all bytes of the file, if and only if the logged size
      holds. */
  lemma CrashCountsIff(s: State, i: nat)
    requires Inv(s) && i < |s.files| && s.files[i].named && s.files[i].log.exact
    ensures s.geo.bs > 0 && var f' := CrashFile(s.geo, s.disk, s.files[i]);
      && f'.named && f'.uncounted == 0 && FileSize(f') == f'.st.size - f'.missed
      && (f'.missed == 0 <==> SizeHolds(s.geo, s.disk, s.files[i].log))
  {
    hide Inv, Sound, Total, WalkSegments, Resolve;
    ExactRecovers(s, i);
  }

  /** The logged sizes of all named files hold. */
  predicate AllCounted(s: State) {
    forall i :: 0 <= i < |s.files| && s.files[i].named ==> SizeHolds(s.geo, s.disk, s.files[i].log)
  }

  /** What the log has of every named file belongs together. */
  predicate AllExact(s: State) {
    forall i :: 0 <= i < |s.files| && s.files[i].named ==> s.files[i].log.exact
  }

  lemma CrashedFileIsGood(s: State, i: nat)
    requires Inv(s) && i < |s.files| && s.geo.bs > 0 && (s.files[i].named ==> s.files[i].log.exact)
    ensures var f, f' := s.files[i], CrashFile(s.geo, s.disk, s.files[i]);
      && Good(s.geo, s.disk, s.owner, CrashState(s).holder, i, f')
      && f'.alive == f'.named == f.named
      && (f'.alive ==> f.alive && f'.mode == f.mode && (f.mode != Buffered ==> Bytes(s.disk, f') == Bytes(s.disk, f)))
  {
    hide Inv, DiskOk, ListsOk, StateOk, ReadersOk, LogOk, LockOk, WindowOk, Sound, Bytes, Recover, CrashState, Mounted;
    MountedFields();
    GoodFile(s, i);
    OwnersAll(s);
    var f := s.files[i];
    if f.named {
      ExactRecovers(s, i);
      var es := Recover(s.geo, s.disk, f).extents;
      MountedIsGood(s.geo, s.disk, s.owner, CrashState(s).holder, i, f.mode, es,
        RecoveredSize(s.geo, s.disk, f.log, es));
    }
  }

  lemma MountedFields()
    ensures forall mode, es, size: int {:trigger Mounted(mode, es, size)} ::
      Mounted(mode, es, size).alive && Mounted(mode, es, size).named && Mounted(mode, es, size).mode == mode
  {
  }

  /** The volume is in order after a crash and a mount. */
  lemma CrashKeepsInv(s: State)
    requires Inv(s) && AllExact(s)
    ensures s.geo.bs > 0 && Inv(CrashState(s))
  {
    hide Good, DiskOk, CrashFile, Charges;
    OwnersAll(s);
    var s' := CrashState(s);
    forall i | 0 <= i < |s.files|
      ensures Good(s.geo, s.disk, s.owner, s'.holder, i, s'.files[i])
    {
      CrashedFileIsGood(s, i);
    }
  }

  /** Mounting again, after a crash of the mounted volume before anything else happened,
      changes nothing. */
  lemma CrashIsIdempotent(s: State)
    requires Inv(s)
    ensures s.geo.bs > 0 && CrashState(CrashState(s)) == CrashState(s)
  {
    hide Inv, Charges, CrashFile;
    OwnersAll(s);
    var s', s'' := CrashState(s), CrashState(CrashState(s));
    forall i | 0 <= i < |s.files|
      ensures s''.files[i] == s'.files[i]
    {
      MountedTwice(s.geo, s.disk, s.files[i]);
    }
    assert s''.files == s'.files;
    assert s''.used == s'.used;
    assert s''.holder == s'.holder;
  }

  lemma MountedTwice(geo: Geometry, disk: Disk, f: File)
    requires geo.bs > 0
    ensures CrashFile(geo, disk, CrashFile(geo, disk, f)) == CrashFile(geo, disk, f)
  {
    hide Total;
    var f' := CrashFile(geo, disk, f);
    if f'.named { NoActiveExtent(geo, disk, f'); }
  }
}
