/** Records of a file that are encoded while the file changes: when the log is exact. */
module VolumeRaces {
  import opened Common
  import opened Coding
  import opened Blocks
  import opened ZoneData
  import opened ZoneFiles
  import opened Accounting
  import opened Volume
  import opened VolumeFrame
  import opened VolumeSteps
  import opened VolumeMoves
  import opened VolumeStarts
  import opened VolumeCrash
  import FileReads

  // ---------- a list and a start that do not belong together ----------

  lemma {:induction false} MoreIsLonger(es: seq<Ext>, n: nat, m: nat)
    requires n <= m <= |es| && Positive(es)
    ensures Total(es[..n]) <= Total(es[..m])
    ensures n < m ==> Total(es[..n]) < Total(es[..m])
    decreases m
  {
    if n < m {
      TotalPrefix(es, m - 1);
      MoreIsLonger(es, n, m - 1);
    }
  }

  predicate RecoversTo(geo: Geometry, disk: Disk, mode: Mode, list: seq<Ext>, start: Option<Pos>, content: seq<byte>)
    requires geo.bs > 0
  {
    var r := RecoverFile(geo, disk, list, start, mode == Sparse);
    r.Recovered? && AllInside(disk, r.extents) && Content(disk, r.extents) == content
  }

  /** The list of extents is read at one moment and the start at another: recovery from the two is
      exact if and only if no extent was pushed in between, whichever was read first. Otherwise
      it misses the pushed extents, or has them twice. */
  lemma MixedPairs(geo: Geometry, disk: Disk, mode: Mode, f: FileState, n: nat, s: Option<Pos>, m: nat, t: Option<Pos>)
    requires mode != Buffered && n <= m <= |f.extents| && Positive(f.extents)
    requires FileOk(geo, disk, mode, WithPair(f, n, s)) && FileOk(geo, disk, mode, WithPair(f, m, t))
    ensures geo.bs > 0 && AllInside(disk, f.extents) && ActiveOk(disk, mode, WithPair(f, n, s))
    ensures var content := FileContent(disk, mode, WithPair(f, n, s));
      && (RecoversTo(geo, disk, mode, f.extents[..n], t, content) <==> n == m)
      && (RecoversTo(geo, disk, mode, f.extents[..m], s, content) <==> n == m)
  {
    hide Content, WalkSegments, DiskOk, Inside, RecoverFile, FileOk, Total;
    var a, b := WithPair(f, n, s), WithPair(f, m, t);
    FileHolds(geo, disk, mode, a);
    FileHolds(geo, disk, mode, b);
    PartInside(disk, f.extents, n);
    PartInside(disk, f.extents, m);
    RecoveredLength(geo, disk, mode, b, f.extents[..n]);
    RecoveredLength(geo, disk, mode, a, f.extents[..m]);
    MoreIsLonger(f.extents, n, m);
    SizeIsLength(geo, disk, mode, a);
    RecoverGivesContent(geo, disk, mode, a);
    RecoverGivesContent(geo, disk, mode, b);
    assert Content(disk, f.extents) + [] == Content(disk, f.extents);
    SameContentOfPairs(disk, mode, f, n, s, m, t);
  }

  lemma SizeIsLength(geo: Geometry, disk: Disk, mode: Mode, f: FileState)
    requires FileOk(geo, disk, mode, f)
    ensures AllInside(disk, f.extents) && ActiveOk(disk, mode, f) && f.size == |FileContent(disk, mode, f)|
    ensures mode != Direct ==> FileContent(disk, mode, f) == Content(disk, f.extents) + []
  {
  }

  lemma SameContentOfPairs(disk: Disk, mode: Mode, f: FileState, n: nat, s: Option<Pos>, m: nat, t: Option<Pos>)
    requires AllInside(disk, f.extents) && ActiveOk(disk, mode, WithPair(f, n, s))
    requires ActiveOk(disk, mode, WithPair(f, m, t))
    ensures FileContent(disk, mode, WithPair(f, n, s)) == FileContent(disk, mode, WithPair(f, m, t))
  {
  }

  // ---------- the two schedules of a push and a snapshot ----------

  /** A snapshot that reads the list after an extent was pushed, and the start before it follows:
      recovery has the pushed bytes twice. */
  lemma SnapshotInsidePush(geo: Geometry, disk: Disk, f: FileState)
    requires FileOk(geo, disk, Direct, f) && f.active.Some? && f.filepos < f.size
    ensures geo.bs > 0 && AllInside(disk, f.extents) && ActiveOk(disk, Direct, f)
    ensures RecoversTo(geo, disk, Direct, Pushed(disk, f).extents, f.start,
      FileContent(disk, Direct, f) + Pending(disk, Direct, f))
  {
    hide Content, WalkSegments, DiskOk, FileOk, Pushed, RecoverFile;
    PushOk(geo, disk, f);
    SyncOk(geo, disk, Direct, f);
    FileHolds(geo, disk, Direct, f);
    FileHolds(geo, disk, Direct, Pushed(disk, f));
    LoggedResolves(geo, disk, Direct, Synced(f));
    RecoverBehind(geo, disk, Pushed(disk, f).extents, f.start.value);
    assert Content(disk, Pushed(disk, f).extents) + [] == Content(disk, Pushed(disk, f).extents);
  }

  lemma RecoverBehind(geo: Geometry, disk: Disk, list: seq<Ext>, p: Pos)
    requires geo.bs > 0 && AllInside(disk, list) && Resolve(geo, p) == p && p.zone < |disk| && p.off < |disk[p.zone]|
    ensures RecoversTo(geo, disk, Direct, list, Some(p), Content(disk, list) + disk[p.zone][p.off..])
  {
    hide Content, Resolve, WalkSegments, AllInside;
    var e := Ext(p.zone, p.off, |disk[p.zone]| - p.off);
    assert Inside(disk, e) && Lookup(disk, e) == disk[p.zone][p.off..];
    ContentPush(disk, list, e);
    hide Lookup, Inside;
    assert RecoverFile(geo, disk, list, Some(p), false) == Recovered(list + [e]);
  }

  /** An extent that is pushed after a snapshot has read the list, while the snapshot reads the
      start after that: recovery misses the pushed bytes. */
  lemma PushInsideSnapshot(geo: Geometry, disk: Disk, f: FileState)
    requires FileOk(geo, disk, Direct, f) && f.active.Some? && f.filepos < f.size
    ensures geo.bs > 0 && AllInside(disk, f.extents) && ActiveOk(disk, Direct, f)
    ensures RecoversTo(geo, disk, Direct, f.extents, Pushed(disk, f).start, Content(disk, f.extents))
    ensures FileContent(disk, Direct, f) == Content(disk, f.extents) + Pending(disk, Direct, f)
    ensures Pending(disk, Direct, f) != []
  {
    hide Content, WalkSegments, DiskOk;
    PushOk(geo, disk, f);
    SyncOk(geo, disk, Direct, Pushed(disk, f));
    FileHolds(geo, disk, Direct, f);
    LoggedResolves(geo, disk, Direct, Synced(Pushed(disk, f)));
  }

  /** An update has the whole list, if and only if the log has all extents that count as synced.
      An extent that was pushed between the encoding of a record and its end counts as synced and
      is not in the log: no later update has it. */
  lemma UpdateMissesNothingIff(f: File)
    requires f.counter <= |f.st.extents|
    ensures ListFor(f, Tail) == f.st.extents <==> f.log.list == f.st.extents[..f.counter]
  {
    var es, k := f.st.extents, f.counter;
    assert es[..k] + es[k..] == es;
    assert (f.log.list + es[k..])[..|f.log.list|] == f.log.list;
  }

  /** A replace record has the whole list, if and only if nothing counts as synced. */
  lemma ReplacementMissesNothingIff(f: File)
    requires f.counter <= |f.st.extents|
    ensures ListFor(f, Swap) == f.st.extents <==> f.counter == 0
    ensures f.counter == |f.st.extents| ==> ListFor(f, Swap) == []
  {
  }

  // ---------- size, list and start of a record ----------

  function Clipped(content: seq<byte>, size: int): seq<byte> {
    if size <= 0 then [] else content[..Min(size, |content|)]
  }

  /** Recovery from a size, a list and a start gives a file from which reads give all this
      content. */
  predicate ReadsBack(geo: Geometry, disk: Disk, mode: Mode, log: Logged, content: seq<byte>)
    requires geo.bs > 0
  {
    var r := RecoverFile(geo, disk, log.list, log.start, mode == Sparse);
    && r.Recovered? && AllInside(disk, r.extents)
    && Clipped(Content(disk, r.extents), RecoveredSize(geo, disk, log, r.extents)) == content
  }

  /** Without anything to recover, the logged list is what there is. */
  lemma RecoverNothing(geo: Geometry, disk: Disk, list: seq<Ext>, start: Option<Pos>, sparse: bool)
    requires geo.bs > 0 && RecoverFile(geo, disk, list, start, sparse).Recovered? && !ToRecover(geo, disk, start)
    ensures RecoverFile(geo, disk, list, start, sparse).extents == list
  {
    hide Resolve, WalkSegments;
  }

  /** The size of a record was read at some moment, its list when there were n extents, and its
      start when there were m: reads of the recovered file give everything that was appended to it,
      if and only if n is m, and the size counts all bytes of the list or there is something behind
      the start. */
  lemma ThreeReads(geo: Geometry, disk: Disk, mode: Mode, f: FileState, n: nat, s: Option<Pos>, m: nat, t: Option<Pos>,
          size: nat, exact: bool)
    requires mode != Buffered && n <= |f.extents| && m <= |f.extents| && Positive(f.extents)
    requires FileOk(geo, disk, mode, WithPair(f, n, s)) && FileOk(geo, disk, mode, WithPair(f, m, t))
    ensures geo.bs > 0 && AllInside(disk, f.extents) && ActiveOk(disk, mode, WithPair(f, n, s))
    ensures ReadsBack(geo, disk, mode, Logged(size, f.extents[..n], t, m, exact),
      FileContent(disk, mode, WithPair(f, n, s)))
      <==> n == m && (size >= Total(f.extents[..n]) || ToRecover(geo, disk, t))
  {
    hide Content, WalkSegments, DiskOk, Inside, RecoverFile, FileOk, Total, ToRecover, AllInside, Pending;
    var a, b, list := WithPair(f, n, s), WithPair(f, m, t), f.extents[..n];
    FileHolds(geo, disk, mode, a);
    FileHolds(geo, disk, mode, b);
    PartInside(disk, f.extents, n);
    SizeIsLength(geo, disk, mode, a);
    SizeIsLength(geo, disk, mode, b);
    SameContentOfPairs(disk, mode, f, n, s, m, t);
    RecoveredLength(geo, disk, mode, b, list);
    var r := RecoverFile(geo, disk, list, t, mode == Sparse).extents;
    ContentLong(disk, r);
    var content := FileContent(disk, mode, a);
    if n <= m {
      MixedPairs(geo, disk, mode, f, n, s, m, t);
    } else {
      MixedPairs(geo, disk, mode, f, m, t, n, s);
    }
    assert RecoversTo(geo, disk, mode, list, t, content) <==> n == m;
    if ToRecover(geo, disk, t) {
      assert Clipped(Content(disk, r), Total(r)) == Content(disk, r);
    } else {
      RecoverNothing(geo, disk, list, t, mode == Sparse);
      TotalOfParts(f.extents, n, m);
      AllHere(geo, disk, mode, a);
      assert Total(f.extents[..m]) == f.size == |content|;
      ClippedLength(Content(disk, r), size);
    }
  }

  lemma ClippedLength(content: seq<byte>, size: nat)
    ensures |Clipped(content, size)| <= |content| && (size < |content| ==> |Clipped(content, size)| < |content|)
    ensures size >= |content| ==> Clipped(content, size) == content
  {
  }

  /** Everything that was appended is at least the extents. */
  lemma AllHere(geo: Geometry, disk: Disk, mode: Mode, f: FileState)
    requires FileOk(geo, disk, mode, f)
    ensures f.size >= Total(f.extents)
  {
  }

  lemma TotalOfParts(es: seq<Ext>, n: nat, m: nat)
    requires n <= |es| && m <= |es| && Positive(es)
    ensures n < m ==> Total(es[..n]) < Total(es[..m])
    ensures m < n ==> Total(es[..m]) < Total(es[..n])
    ensures Total(es[..n]) <= Total(es) && Total(es[..m]) <= Total(es)
  {
    hide Total;
    assert es[..|es|] == es;
    MoreIsLonger(es, n, |es|);
    MoreIsLonger(es, m, |es|);
    if n < m { MoreIsLonger(es, n, m); } else { MoreIsLonger(es, m, n); }
  }

  /** A new zone is behind all extents. */
  lemma AtEndOk(geo: Geometry, disk: Disk, mode: Mode, f: FileState, p: Pos)
    requires FileOk(geo, disk, mode, f) && f.active.None? && p.zone < |disk| && p.off == |disk[p.zone]|
    ensures FileOk(geo, disk, mode, WithPair(f, |f.extents|, Some(p)))
  {
    hide DiskOk, Content, Inside;
    GeometryHolds(geo, disk);
    assert disk[p.zone][p.off..] == [];
    NoSegments(p.zone, p.off, geo.bs);
    assert f.extents[|f.extents|..] == [] && f.extents[..|f.extents|] == f.extents;
  }

  lemma SomeStartOk(geo: Geometry, disk: Disk, owner: seq<seq<nat>>, holder: seq<Holder>, i: nat, f: File, m: nat,
          start: Option<Pos>)
    requires Belongs(geo, disk, owner, holder, i, f, m, start) && start.Some?
    requires FileOk(geo, disk, f.mode, f.st) && WindowOk(geo, disk, holder, i, f)
    ensures FileOk(geo, disk, f.mode, WithPair(f.st, m, start))
  {
    hide StateOk, FileOk;
    if f.window == Fresh(start.value) && m == |f.st.extents| {
      AtEndOk(geo, disk, f.mode, f.st, start.value);
    } else {
      StateFacts(geo, disk, owner, holder, i, f.mode, WithPair(f.st, m, start));
    }
  }

  /** A file with nothing pending that is closed, with any pair that it had. */
  lemma ClosedPair(geo: Geometry, disk: Disk, mode: Mode, f: FileState, n: nat, s: Option<Pos>)
    requires FileOk(geo, disk, mode, f) && FileOk(geo, disk, mode, WithPair(f, n, s))
    requires ActiveOk(disk, mode, f) && Pending(disk, mode, f) == []
    ensures FileOk(geo, disk, mode, WithPair(Closed(f), n, s))
    ensures FileOk(geo, disk, mode, WithPair(Closed(f), |f.extents|, None))
    ensures AllInside(disk, f.extents) && ActiveOk(disk, mode, WithPair(Closed(f), n, s))
    ensures FileContent(disk, mode, WithPair(Closed(f), n, s)) == FileContent(disk, mode, f)
  {
    hide FileOk, Content, AllInside;
    FileHolds(geo, disk, mode, f);
    FileHolds(geo, disk, mode, WithPair(f, n, s));
    SamePending(disk, mode, f, n, s);
    CloseOk(geo, disk, mode, WithPair(f, n, s));
    StartForgotten(geo, disk, mode, WithPair(f, n, s).(active := None));
    assert WithPair(f, n, s).(active := None).(start := None) == WithPair(Closed(f), n, s);
    ClosedOk(geo, disk, mode, f);
    assert Closed(f) == WithPair(Closed(f), |f.extents|, None);
  }

  /** A record of a direct or sparse file is logged whose list was read when there were enc.n
      extents, and whose start is behind enc.m of them: a crash from now on gives a file from which
      reads give all bytes, if and only if the two numbers are equal, and the size that was read
      first counts all bytes of the list or there is something behind the start. */
  lemma RecordRecoversIff(s: State, i: nat)
    requires Inv(s) && Starts(s) && Enabled(s, Log(i)) && s.files[i].mode != Buffered
    requires var f := s.files[i]; f.enc.size >= 0 && f.enc.n <= |f.st.extents| && f.enc.list == f.st.extents[..f.enc.n]
    ensures s.geo.bs > 0
    ensures var f := s.files[i];
      ReadsBack(s.geo, s.disk, f.mode, LoggedFile(s.disk, f).log, Bytes(s.disk, f))
      <==> f.enc.n == f.enc.m && (f.enc.size >= Total(f.enc.list) || ToRecover(s.geo, s.disk, f.enc.start))
  {
    hide Inv, StateOk, FileOk, LogOk, LockOk, WindowOk, FlagsOk, ActiveOk, AllInside, FileContent, ReadsBack,
      ToRecover, Total, LoggedFile,
      Belongs, Starts, Pending;
    var f := s.files[i];
    FactsAt(s, i);
    StartAt(s, i);
    ReaderLists(s, i);
    StateFacts(s.geo, s.disk, s.owner, s.holder, i, f.mode, PairSt(f));
    PairFacts(s, i);
    PendingOfPair(s.disk, f);
    LoggedParts(s.disk, f);
    var exact := LoggedFile(s.disk, f).log.exact;
    if f.enc.start.Some? {
      SomeStartOk(s.geo, s.disk, s.owner, s.holder, i, f, f.enc.m, f.enc.start);
      SomeCount(s.geo, s.disk, s.owner, s.holder, i, f, f.enc.m, f.enc.start);
      ThreeReads(s.geo, s.disk, f.mode, f.st, f.enc.n, f.enc.due, f.enc.m, f.enc.start, f.enc.size, exact);
    } else {
      NoneCount(s.geo, s.disk, s.owner, s.holder, i, f, f.enc.m);
      ClosedPair(s.geo, s.disk, f.mode, f.st, f.enc.n, f.enc.due);
      ThreeReads(s.geo, s.disk, f.mode, Closed(f.st), f.enc.n, f.enc.due, f.enc.m, None, f.enc.size, exact);
    }
  }

  lemma SomeCount(geo: Geometry, disk: Disk, owner: seq<seq<nat>>, holder: seq<Holder>, i: nat, f: File, m: nat,
          start: Option<Pos>)
    requires Belongs(geo, disk, owner, holder, i, f, m, start)
    ensures m <= |f.st.extents|
  {
    hide StateOk;
  }

  lemma NoneCount(geo: Geometry, disk: Disk, owner: seq<seq<nat>>, holder: seq<Holder>, i: nat, f: File, m: nat)
    requires Belongs(geo, disk, owner, holder, i, f, m, None) && WindowOk(geo, disk, holder, i, f)
    requires ActiveOk(disk, f.mode, f.st)
    ensures m == |f.st.extents| && Pending(disk, f.mode, f.st) == []
  {
    hide StateOk;
  }

  lemma LoggedParts(disk: Disk, f: File)
    requires f.enc.BothRead? && (f.window.Fresh? ==> f.window.at.zone < |disk|)
    ensures LoggedFile(disk, f).log == Logged(f.enc.size, f.enc.list, f.enc.start, f.enc.m,
      LoggedFile(disk, f).log.exact)
  {
  }

  // ---------- runs in which records and lists do not overlap ----------

  /** The list of a file and its active extent start do not change while a record of the file is
      under way, from the read of the size on, and no record begins while they are changing. */
  predicate Orderly(s: State, a: Action)
    requires Enabled(s, a)
  {
    match a
    case Push(i) => s.files[i].enc == NoRecord
    case Grow(i, _, _) => s.files[i].enc == NoRecord
    case SetStart(i, _) => s.files[i].enc == NoRecord
    case CloseBegin(i) => s.files[i].enc == NoRecord
    case Replace(i) => s.files[i].enc == NoRecord
    case Unsync(i) => s.files[i].enc == NoRecord
    case Encode(i, kind) =>
      && !s.files[i].window.Lagging? && (s.files[i].mode != Direct ==> s.files[i].uncounted == 0)
      && s.files[i].phase != Replaced && (kind == Swap <==> s.files[i].phase == Unsynced)
    case _ => true
  }

  /** What the log has of a file between records. */
  predicate Settled(f: File) {
    && f.log.exact && f.counter <= |f.st.extents|
    && (if Old(f) then f.log.list == f.other && (f.phase == Unsynced ==> f.counter == 0)
        else f.log.list == f.st.extents[..f.counter])
  }

  /** What a record has read is what the file has. */
  predicate Calm(f: File) {
    match f.enc
    case NoRecord => Settled(f)
    case SizeRead(kind, _) =>
      && Settled(f) && !f.window.Lagging? && f.phase != Replaced && (kind == Swap <==> f.phase == Unsynced)
    case ListRead(kind, _, list, n, due) =>
      && Settled(f) && list == f.st.extents && n == |f.st.extents| && due == f.st.start
      && !f.window.Lagging? && f.phase != Replaced && (kind == Swap <==> f.phase == Unsynced)
    case BothRead(kind, _, list, n, due, start, _) =>
      && Settled(f) && list == f.st.extents && n == |f.st.extents| && due == f.st.start && start == MemoryStart(f)
      && !f.window.Lagging? && f.phase != Replaced && (kind == Swap <==> f.phase == Unsynced)
    case Marking(kind) =>
      && f.log.exact && f.log.list == f.st.extents && f.phase != Replaced && (kind == Swap <==> f.phase == Unsynced)
  }

  predicate AllCalm(s: State) {
    forall i :: 0 <= i < |s.files| && s.files[i].alive ==> Calm(s.files[i])
  }

  lemma CalmIsExact(s: State)
    requires Inv(s) && AllCalm(s)
    ensures AllExact(s)
  {
    hide Inv;
    forall i | 0 <= i < |s.files| && s.files[i].named
      ensures s.files[i].log.exact
    {
      NamedIsAlive(s, i);
    }
  }

  lemma PushedCalm(f: File, st: FileState, e: Ext)
    requires Calm(f) && f.enc == NoRecord && st.extents == f.st.extents + [e] && !Old(f)
    ensures Calm(WithExtents(f, st))
  {
    assert st.extents[..f.counter] == f.st.extents[..f.counter];
  }

  lemma CountCalm(f: File, n: nat)
    ensures Calm(f) ==> Calm(f.(uncounted := n))
  {
  }

  lemma WriterCalm(s: State, a: Action)
    requires Inv(s) && Enabled(s, a) && Orderly(s, a) && AllCalm(s) && IsWriter(a) && !a.Push? && !a.Grow? && !a.Create?
    ensures AllCalm(ApplyWriter(s, a))
  {
    hide Inv, Pending, ActiveOk, FileContent, Fits, HasRoom, Segment;
  }

  lemma AppendCalm(s: State, a: Action)
    requires Inv(s) && Enabled(s, a) && Orderly(s, a) && AllCalm(s) && (a.Push? || a.Grow? || a.Create?)
    ensures AllCalm(ApplyWriter(s, a))
  {
    hide Inv, Pending, FileContent, HasRoom, Segment, Calm, Extend, Aligned;
    match a {
      case Create(mode) => NewFileCalm(mode);
      case Push(i) =>
        var f := s.files[i];
        PhaseOfWriter(s, i);
        PushedCalm(f, PushedState(s.disk, f), Ext(f.st.active.value, f.st.start.value.off,
          f.st.size - f.uncounted - f.st.filepos));
      case Grow(i, payload, bytes) =>
        var f := s.files[i];
        PhaseOfWriter(s, i);
        PushedCalm(f, Grown(s.disk, f.st, HeadOf(f.mode), |payload|, |bytes|),
          Ext(f.st.active.value, |s.disk[f.st.active.value]| + HeadOf(f.mode), |payload|));
        CountCalm(WithExtents(f, Grown(s.disk, f.st, HeadOf(f.mode), |payload|, |bytes|)), |payload|);
        ExtendFiles(s, i, f.st.active.value, bytes,
          WithExtents(f, Grown(s.disk, f.st, HeadOf(f.mode), |payload|, |bytes|)).(uncounted := |payload|), |payload|);
    }
  }

  lemma ExtendFiles(s: State, i: nat, z: nat, bytes: seq<byte>, f: File, charge: nat)
    requires i < |s.files| && z < |s.disk| && z < |s.owner| && z < |s.used|
    ensures Extend(s, i, z, bytes, f, charge).files == s.files[i := f]
  {
  }

  lemma NewFileCalm(mode: Mode)
    ensures Calm(NewFile(mode))
  {
  }

  lemma PhaseOfWriter(s: State, i: nat)
    requires Inv(s) && Lives(s, i) && s.files[i].writing
    ensures s.files[i].phase == Idle
  {
    hide Inv, StateOk, FileOk, LogOk, LockOk, WindowOk, FileContent, ActiveOk, AllInside;
    FactsAt(s, i);
  }

  lemma RecordCalm(s: State, a: Action)
    requires Inv(s) && Enabled(s, a) && Orderly(s, a) && AllCalm(s) && IsRecord(a) && !a.Log?
    ensures AllCalm(ApplyRecord(s, a))
  {
    hide Inv, MemoryCount, FileSize, Uncharge;
    if a.EncodeList? {
      UpdateMissesNothingIff(s.files[a.i]);
      ReplacementMissesNothingIff(s.files[a.i]);
    }
    if a.Mark? {
      assert s.files[a.i].st.extents[..|s.files[a.i].st.extents|] == s.files[a.i].st.extents;
    }
  }

  lemma LogCalm(s: State, i: nat)
    requires Inv(s) && Enabled(s, Log(i)) && AllCalm(s)
    ensures AllCalm(ApplyRecord(s, Log(i)))
  {
    hide Inv, Allocated;
    var f := s.files[i];
    assert f.st.extents[..|f.st.extents|] == f.st.extents;
    LoggedFields(s.disk, f);
  }

  lemma ReaderCalm(s: State, a: Action)
    requires Enabled(s, a) && AllCalm(s) && IsReader(a)
    ensures AllCalm(ApplyReader(s, a))
  {
    hide Total, Inside;
  }

  lemma MoverCalm(s: State, a: Action)
    requires Inv(s) && Enabled(s, a) && Orderly(s, a) && AllCalm(s) && IsMover(a) && !a.Replace?
    ensures AllCalm(ApplyMover(s, a))
  {
    hide Inv, Fits, HasRoom, Lookup, Inside, Moved, Uncharge;
  }

  lemma ReplaceCalm(s: State, i: nat)
    requires Inv(s) && Enabled(s, Replace(i)) && Orderly(s, Replace(i)) && AllCalm(s)
    ensures AllCalm(ApplyMover(s, Replace(i)))
  {
    hide Inv, Good, LogOk, ListsOk, StateOk, FlagsOk, WindowOk, LockOk, ReadersOk, FileOk, ActiveOk, AllInside, Part;
    var f := s.files[i];
    GoodFile(s, i);
    ClosedHasAll(s.geo, s.disk, s.owner, s.holder, i, f);
    GoodLists(s.geo, s.disk, s.owner, s.holder, i, f);
    FileFacts(s.geo, s.disk, s.owner, s.holder, i, f);
    ExactStart(f);
    assert f.st.extents[..|f.st.extents|] == f.st.extents;
    LogFacts(f);
  }

  lemma LogFacts(f: File)
    requires LogOk(f)
    ensures f.counter <= |f.st.extents|
  {
  }

  lemma CrashCalm(s: State)
    requires s.geo.bs > 0
    ensures AllCalm(CrashState(s))
  {
    hide Recover, Charges;
    forall i | 0 <= i < |s.files|
      ensures CrashFile(s.geo, s.disk, s.files[i]).alive ==> Calm(CrashFile(s.geo, s.disk, s.files[i]))
    {
      if s.files[i].named && Recover(s.geo, s.disk, s.files[i]).Recovered? {
        var es := Recover(s.geo, s.disk, s.files[i]).extents;
        assert es[..|es|] == es;
      }
    }
  }

  /** While the records of a file and the changes of its list do not overlap, the log of every
      file stays exact. */
  lemma OrderlyStaysCalm(s: State, a: Action)
    requires Inv(s) && Enabled(s, a) && Orderly(s, a) && AllCalm(s)
    ensures AllCalm(Apply(s, a))
  {
    hide Inv, Enabled, Orderly, AllCalm, ApplyWriter, ApplyRecord, ApplyReader, ApplyMover, CrashState;
    if a.Push? || a.Grow? || a.Create? {
      AppendCalm(s, a);
    } else if IsWriter(a) {
      WriterCalm(s, a);
    } else if a.Log? {
      LogCalm(s, a.i);
    } else if IsRecord(a) {
      RecordCalm(s, a);
    } else if IsReader(a) {
      ReaderCalm(s, a);
    } else if a.Replace? {
      ReplaceCalm(s, a.i);
    } else if IsMover(a) {
      MoverCalm(s, a);
    } else {
      ZoneCalm(s, a);
    }
  }

  lemma ZoneCalm(s: State, a: Action)
    requires Enabled(s, a) && AllCalm(s) && !IsWriter(a) && !IsRecord(a) && !IsReader(a) && !IsMover(a)
    ensures AllCalm(Apply(s, a))
  {
    hide CrashState;
    if a.Crash? { CrashCalm(s); }
  }
}
