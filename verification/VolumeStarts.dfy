/** The active extent starts that the log has of a file, that a record has read and that memory has
    in the middle of a push: each of them belongs to a number of extents of the file, in every state
    and whether or not the log is exact. */
module VolumeStarts {
  import opened Common
  import opened Coding
  import opened Blocks
  import opened ZoneData
  import opened ZoneFiles
  import opened Accounting
  import opened Volume
  import opened VolumeFrame
  import opened VolumeSteps
  import opened VolumeMoves

  /** A start behind the first m extents: the file would be in order if the log had the two. None
      is the start of a file without an active zone, or of one that is being closed, and a new zone
      is behind all extents. */
  predicate Belongs(geo: Geometry, disk: Disk, owner: seq<seq<nat>>, holder: seq<Holder>, i: nat, f: File, m: nat,
          start: Option<Pos>)
  {
    && m <= |f.st.extents|
    && match start
       case None => m == |f.st.extents| && (f.st.active.None? || f.window.Closing?)
       case Some(p) =>
         || (m == |f.st.extents| && f.window == Fresh(p))
         || StateOk(geo, disk, owner, holder, i, f.mode, WithPair(f.st, m, start))
  }

  predicate StartOk(geo: Geometry, disk: Disk, owner: seq<seq<nat>>, holder: seq<Holder>, i: nat, f: File) {
    && Belongs(geo, disk, owner, holder, i, f, f.log.m, f.log.start)
    && (f.enc.BothRead? ==> Belongs(geo, disk, owner, holder, i, f, f.enc.m, f.enc.start))
    && (f.window.Lagging? ==> Belongs(geo, disk, owner, holder, i, f, MemoryCount(f), f.window.old_start))
    && (!f.writing || f.window == Shut ==> f.log.start.None? && (f.enc.BothRead? ==> f.enc.start.None?))
  }

  predicate Starts(s: State) {
    forall i :: 0 <= i < |s.files| && s.files[i].alive ==> StartOk(s.geo, s.disk, s.owner, s.holder, i, s.files[i])
  }

  lemma StartAt(s: State, i: nat)
    requires Starts(s) && Lives(s, i)
    ensures StartOk(s.geo, s.disk, s.owner, s.holder, i, s.files[i])
  {
    hide StartOk;
  }

  // ---------- a file that does not take part ----------

  /** Nothing that matters to the state of a writer changes. */
  predicate Untouched(disk: Disk, disk': Disk, owner: seq<seq<nat>>, owner': seq<seq<nat>>, holder: seq<Holder>,
          holder': seq<Holder>, st: FileState)
  {
    && |disk'| == |disk| == |owner| == |owner'| && |holder'| == |holder|
    && (forall k :: 0 <= k < |st.extents| && st.extents[k].zone < |disk| ==>
         disk[st.extents[k].zone] <= disk'[st.extents[k].zone])
    && (forall z :: 0 <= z < |disk| && StPins(st, z) ==> disk'[z] == disk[z] && owner'[z] == owner[z])
    && (forall z :: 0 <= z < |holder| && st.active == Some(z) ==> holder'[z] == holder[z])
  }

  lemma BelongsFrame(geo: Geometry, disk: Disk, disk': Disk, owner: seq<seq<nat>>, owner': seq<seq<nat>>,
          holder: seq<Holder>, holder': seq<Holder>, i: nat, f: File, m: nat, start: Option<Pos>)
    requires Belongs(geo, disk, owner, holder, i, f, m, start) && DiskOk(geo, disk')
    requires StateOk(geo, disk, owner, holder, i, f.mode, WithPair(f.st, m, start)) ==>
      Untouched(disk, disk', owner, owner', holder, holder', WithPair(f.st, m, start))
    ensures Belongs(geo, disk', owner', holder', i, f, m, start)
  {
    hide DiskOk, StateOk, StPins;
    if StateOk(geo, disk, owner, holder, i, f.mode, WithPair(f.st, m, start)) {
      StateFrame(geo, disk, disk', owner, owner', holder, holder', i, f.mode, WithPair(f.st, m, start));
    }
  }

  lemma StartFrame(geo: Geometry, disk: Disk, disk': Disk, owner: seq<seq<nat>>, owner': seq<seq<nat>>,
          holder: seq<Holder>, holder': seq<Holder>, i: nat, f: File)
    requires StartOk(geo, disk, owner, holder, i, f) && DiskOk(geo, disk')
    requires forall m: nat, start :: StateOk(geo, disk, owner, holder, i, f.mode, WithPair(f.st, m, start)) ==>
      Untouched(disk, disk', owner, owner', holder, holder', WithPair(f.st, m, start))
    ensures StartOk(geo, disk', owner', holder', i, f)
  {
    hide DiskOk, StateOk, Untouched, Belongs, WithPair;
    BelongsFrame(geo, disk, disk', owner, owner', holder, holder', i, f, f.log.m, f.log.start);
    if f.enc.BothRead? {
      BelongsFrame(geo, disk, disk', owner, owner', holder, holder', i, f, f.enc.m, f.enc.start);
    }
    if f.window.Lagging? {
      BelongsFrame(geo, disk, disk', owner, owner', holder, holder', i, f, MemoryCount(f), f.window.old_start);
    }
  }

  /** The holder of a zone, or its mover, appends to it. */
  lemma AppendTouchesNone(s: State, i: nat, z: nat, bytes: seq<byte>, j: nat, mode: Mode, st: FileState)
    requires Inv(s) && Fits(s, z, bytes) && (s.holder[z] == ByMover(i) || (s.holder[z] == ByFile(i) && j != i))
    requires StateOk(s.geo, s.disk, s.owner, s.holder, j, mode, st)
    ensures Untouched(s.disk, s.disk[z := s.disk[z] + bytes], s.owner, s.owner[z := s.owner[z] + Owners(i, |bytes|)],
                      s.holder, s.holder, st)
  {
    hide Good, Charges, Aligned, StateOk, StPins;
    OwnersAll(s);
    NotFull(s, z, bytes);
    StPinsHolds(s.geo, s.disk, s.owner, s.holder, j, mode, st, z);
  }

  lemma NotFull(s: State, z: nat, bytes: seq<byte>)
    requires Fits(s, z, bytes)
    ensures |s.disk[z]| < s.geo.capacity
  {
    hide Aligned;
  }

  lemma AppendFrame(s: State, i: nat, z: nat, bytes: seq<byte>, j: nat)
    requires Inv(s) && Fits(s, z, bytes) && (s.holder[z] == ByMover(i) || (s.holder[z] == ByFile(i) && j != i))
    requires Starts(s) && Lives(s, j)
    ensures StartOk(s.geo, s.disk[z := s.disk[z] + bytes], s.owner[z := s.owner[z] + Owners(i, |bytes|)], s.holder, j,
      s.files[j])
  {
    hide Inv, StartOk, Starts, StateOk, Untouched, WithPair, Aligned, DiskOk;
    var disk', owner', f := s.disk[z := s.disk[z] + bytes], s.owner[z := s.owner[z] + Owners(i, |bytes|)], s.files[j];
    StartAt(s, j);
    GrownDiskOk(s, z, bytes);
    forall m: nat, start | StateOk(s.geo, s.disk, s.owner, s.holder, j, f.mode, WithPair(f.st, m, start))
      ensures Untouched(s.disk, disk', s.owner, owner', s.holder, s.holder, WithPair(f.st, m, start))
    {
      AppendTouchesNone(s, i, z, bytes, j, f.mode, WithPair(f.st, m, start));
    }
    StartFrame(s.geo, s.disk, disk', s.owner, owner', s.holder, s.holder, j, f);
  }

  lemma GrownDiskOk(s: State, z: nat, bytes: seq<byte>)
    requires Inv(s) && Fits(s, z, bytes)
    ensures DiskOk(s.geo, s.disk[z := s.disk[z] + bytes])
  {
    hide Good, Charges, Aligned, DiskOk;
    OwnersMatch(s, z);
    GrowDisk(s.geo, s.disk, z, bytes);
  }

  /** A step in which file i appends: only its own starts are left to show. */
  lemma ExtendStarts(s: State, i: nat, z: nat, bytes: seq<byte>, f: File, charge: nat)
    requires Inv(s) && Starts(s) && Lives(s, i) && Fits(s, z, bytes) && s.holder[z] in {ByFile(i), ByMover(i)}
    requires var s' := Extend(s, i, z, bytes, f, charge); StartOk(s.geo, s'.disk, s'.owner, s.holder, i, f)
    ensures Starts(Extend(s, i, z, bytes, f, charge))
  {
    hide Inv, StartOk, Starts, Aligned;
    var s' := Extend(s, i, z, bytes, f, charge);
    forall j | 0 <= j < |s'.files| && s'.files[j].alive
      ensures StartOk(s'.geo, s'.disk, s'.owner, s'.holder, j, s'.files[j])
    {
      if j != i { AppendFrame(s, i, z, bytes, j); }
    }
    assert Starts(s') by { AllStart(s'); }
  }

  lemma AllStart(s: State)
    requires forall j :: 0 <= j < |s.files| && s.files[j].alive ==>
      StartOk(s.geo, s.disk, s.owner, s.holder, j, s.files[j])
    ensures Starts(s)
  {
    hide StartOk;
  }

  // ---------- steps that leave the starts alone ----------

  /** A file with the same state of its writer, the same log, and the same start in its record. */
  predicate SameStart(f: File, f': File) {
    f'.alive ==>
      && f.alive && f'.mode == f.mode && f'.st == f.st && f'.window == f.window && f'.writing == f.writing
      && f'.log == f.log
      && (f'.enc.BothRead? ==> f'.enc == f.enc)
  }

  lemma SameStartOk(geo: Geometry, disk: Disk, owner: seq<seq<nat>>, holder: seq<Holder>, i: nat, f: File, f': File)
    requires SameStart(f, f') && f'.alive && StartOk(geo, disk, owner, holder, i, f)
    ensures StartOk(geo, disk, owner, holder, i, f')
  {
    hide StateOk, WithPair;
  }

  predicate SameStarts(s: State, s': State) {
    && s'.geo == s.geo && s'.disk == s.disk && s'.owner == s.owner && s'.holder == s.holder && |s'.files| == |s.files|
    && forall i :: 0 <= i < |s.files| ==> SameStart(s.files[i], s'.files[i])
  }

  lemma SameStartsHold(s: State, s': State)
    requires Starts(s) && SameStarts(s, s')
    ensures Starts(s')
  {
    hide StartOk, SameStart;
    forall i | 0 <= i < |s'.files| && s'.files[i].alive
      ensures StartOk(s'.geo, s'.disk, s'.owner, s'.holder, i, s'.files[i])
    {
      assert SameStart(s.files[i], s'.files[i]);
      AliveStays(s.files[i], s'.files[i]);
      SameStartOk(s.geo, s.disk, s.owner, s.holder, i, s.files[i], s'.files[i]);
    }
  }

  lemma AliveStays(f: File, f': File)
    requires SameStart(f, f')
    ensures f'.alive ==> f.alive
  {
  }

  lemma ReaderStarts(s: State, a: Action)
    requires Enabled(s, a) && IsReader(a)
    ensures SameStarts(s, ApplyReader(s, a))
  {
    hide Total, Inside;
  }

  predicate InMemory(a: Action) {
    a.MoveBegin? || a.LockWrite? || a.SeeNoReaders? || a.UnlockWrite? || a.Unsync? || a.Drop?
  }

  lemma MoverStarts(s: State, a: Action)
    requires Enabled(s, a) && InMemory(a)
    ensures SameStarts(s, ApplyMover(s, a))
  {
    hide Moved, Uncharge, Lookup, Inside, Fits, HasRoom, MayTake;
  }

  lemma RecordStarts(s: State, a: Action)
    requires Enabled(s, a) && IsRecord(a) && !a.EncodeStart? && !a.Log?
    ensures SameStarts(s, ApplyRecord(s, a))
  {
    hide Uncharge, FileSize, ListFor;
  }

  lemma CountStarts(s: State, i: nat)
    requires Enabled(s, Count(i))
    ensures SameStarts(s, Apply(s, Count(i)))
  {
  }

  lemma FinishStarts(s: State, z: nat)
    requires Enabled(s, Finish(z))
    ensures SameStarts(s, Apply(s, Finish(z)))
  {
  }

  // ---------- the other steps of one file in memory ----------

  lemma OneStarts(s: State, i: nat, f: File)
    requires Starts(s) && i < |s.files| && (f.alive ==> StartOk(s.geo, s.disk, s.owner, s.holder, i, f))
    ensures Starts(SetFile(s, i, f))
  {
    hide StartOk;
  }

  lemma OpenStarts(s: State, i: nat)
    requires Starts(s) && Enabled(s, Open(i))
    ensures Starts(Apply(s, Open(i)))
  {
    hide StateOk, WithPair;
    StartAt(s, i);
    OneStarts(s, i, s.files[i].(writing := true));
  }

  lemma SetStartStarts(s: State, i: nat, z: nat)
    requires Starts(s) && Enabled(s, SetStart(i, z))
    ensures Starts(Apply(s, SetStart(i, z)))
  {
    hide StateOk, WithPair;
    StartAt(s, i);
    OneStarts(s, i, s.files[i].(window := Fresh(Pos(z, |s.disk[z]|))));
  }

  lemma CloseBeginStarts(s: State, i: nat)
    requires Starts(s) && Enabled(s, CloseBegin(i))
    ensures Starts(Apply(s, CloseBegin(i)))
  {
    hide StateOk, WithPair, Pending, ActiveOk;
    StartAt(s, i);
    OneStarts(s, i, s.files[i].(window := Closing));
  }

  lemma CloseEndStarts(s: State, i: nat)
    requires Inv(s) && Starts(s) && Enabled(s, CloseEnd(i))
    ensures Starts(Apply(s, CloseEnd(i)))
  {
    hide Inv, StateOk, WithPair, LogOk, LockOk, FlagsOk, FileOk, AllInside, FileContent, ActiveOk, Bytes;
    StartAt(s, i);
    FactsAt(s, i);
    OneStarts(s, i, s.files[i].(window := Quiet, writing := false));
  }

  lemma AdvanceStarts(s: State, i: nat)
    requires Inv(s) && Starts(s) && Enabled(s, Advance(i))
    ensures Starts(Apply(s, Advance(i)))
  {
    hide Inv, StateOk, WithPair, LogOk, LockOk, FlagsOk, FileOk, AllInside, FileContent, ActiveOk, Bytes, Pending,
      AdvancedFile, MayAdvance;
    StartAt(s, i);
    FactsAt(s, i);
    AdvancedIs(s.geo, s.disk, s.files[i]);
    OneStarts(s, i, s.files[i].(window := Quiet));
  }

  /** What a record reads belongs to the extents that the start is behind. */
  lemma MemoryBelongs(s: State, i: nat)
    requires Inv(s) && Starts(s) && Lives(s, i)
    ensures Belongs(s.geo, s.disk, s.owner, s.holder, i, s.files[i], MemoryCount(s.files[i]), MemoryStart(s.files[i]))
    ensures !s.files[i].writing || s.files[i].window == Shut ==> MemoryStart(s.files[i]).None?
  {
    hide Inv, StateOk, LogOk, LockOk, FileOk, AllInside, FileContent, Bytes, Pending;
    StartAt(s, i);
    FactsAt(s, i);
    var f := s.files[i];
    StSynced(s.geo, s.disk, s.owner, s.holder, i, f.mode, f.st);
    assert Synced(f.st) == WithPair(f.st, |f.st.extents|, f.st.start);
  }

  lemma EncodeStartStarts(s: State, i: nat)
    requires Inv(s) && Starts(s) && Enabled(s, EncodeStart(i))
    ensures Starts(Apply(s, EncodeStart(i)))
  {
    hide Inv, StateOk, WithPair, MemoryStart;
    StartAt(s, i);
    MemoryBelongs(s, i);
    var f := s.files[i];
    OneStarts(s, i,
      f.(enc := BothRead(f.enc.kind, f.enc.size, f.enc.list, f.enc.n, f.enc.due, MemoryStart(f), MemoryCount(f))));
  }

  lemma ReplaceStarts(s: State, i: nat)
    requires Inv(s) && Starts(s) && Enabled(s, Replace(i))
    ensures Starts(Apply(s, Replace(i)))
  {
    hide Inv, StateOk, WithPair, Good, FlagsOk;
    StartAt(s, i);
    GoodFile(s, i);
    ClosedHasAll(s.geo, s.disk, s.owner, s.holder, i, s.files[i]);
    MovesNotWriting(s, i);
    OneStarts(s, i, ReplacedFile(s.files[i]));
  }

  lemma MovesNotWriting(s: State, i: nat)
    requires Inv(s) && Moves(s, i)
    ensures !s.files[i].writing
  {
    hide Inv, StateOk, LogOk, LockOk, FileOk, AllInside, FileContent, Bytes, WindowOk, ActiveOk;
    FactsAt(s, i);
  }

  /** A state of the writer whose start is not None has a zone or is about to have one. */
  lemma SomeBelongs(geo: Geometry, disk: Disk, owner: seq<seq<nat>>, holder: seq<Holder>, i: nat, f: File, m: nat,
          start: Option<Pos>)
    requires Belongs(geo, disk, owner, holder, i, f, m, start) && f.st.active.Some? && f.window == Quiet
    ensures m <= |f.st.extents| && StateOk(geo, disk, owner, holder, i, f.mode, WithPair(f.st, m, start))
  {
    hide StateOk, WithPair;
  }

  lemma FullBelongs(geo: Geometry, disk: Disk, owner: seq<seq<nat>>, holder: seq<Holder>, i: nat, f: File, m: nat,
          start: Option<Pos>)
    requires Belongs(geo, disk, owner, holder, i, f, m, start) && f.st.active.Some? && f.st.active.value < |disk|
    requires f.window == Quiet
    requires ActiveOk(disk, f.mode, f.st) && Pending(disk, f.mode, f.st) == []
    requires |disk[f.st.active.value]| == geo.capacity
    ensures Belongs(geo, disk, owner, holder, i, f.(st := f.st.(active := None)), m, start)
  {
    hide StateOk, ActiveOk, Pending;
    SomeBelongs(geo, disk, owner, holder, i, f, m, start);
    StateFacts(geo, disk, owner, holder, i, f.mode, WithPair(f.st, m, start));
    SamePending(disk, f.mode, f.st, m, start);
    StFull(geo, disk, owner, holder, i, f.mode, WithPair(f.st, m, start));
    assert WithPair(f.st, m, start).(active := None) == WithPair(f.st.(active := None), m, start);
    FullIsSome(geo, disk, owner, holder, i, f.mode, f.st, m, start);
  }

  lemma SamePending(disk: Disk, mode: Mode, st: FileState, m: nat, start: Option<Pos>)
    requires ActiveOk(disk, mode, st) && ActiveOk(disk, mode, WithPair(st, m, start))
    ensures Pending(disk, mode, WithPair(st, m, start)) == Pending(disk, mode, st)
  {
  }

  /** With an active zone there is a start. */
  lemma FullIsSome(geo: Geometry, disk: Disk, owner: seq<seq<nat>>, holder: seq<Holder>, i: nat, mode: Mode,
          st: FileState, m: nat, start: Option<Pos>)
    requires StateOk(geo, disk, owner, holder, i, mode, WithPair(st, m, start)) && st.active.Some?
    ensures start.Some?
  {
    hide Region, DiskOk;
  }

  lemma FullStarts(s: State, i: nat)
    requires Inv(s) && Starts(s) && Enabled(s, Full(i))
    ensures Starts(Apply(s, Full(i)))
  {
    hide Inv, StateOk, WithPair, Belongs, Pending, ActiveOk;
    StartAt(s, i);
    var f := s.files[i];
    FullBelongs(s.geo, s.disk, s.owner, s.holder, i, f, f.log.m, f.log.start);
    if f.enc.BothRead? { FullBelongs(s.geo, s.disk, s.owner, s.holder, i, f, f.enc.m, f.enc.start); }
    OneStarts(s, i, f.(st := f.st.(active := None)));
  }

  // ---------- records ----------

  /** The record of a new zone makes it the active one. */
  lemma FreshBelongs(geo: Geometry, disk: Disk, owner: seq<seq<nat>>, holder: seq<Holder>, i: nat, f: File, m: nat)
    requires f.window.Fresh? && WindowOk(geo, disk, holder, i, f) && StateOk(geo, disk, owner, holder, i, f.mode, f.st)
    requires Belongs(geo, disk, owner, holder, i, f, m, Some(f.window.at)) && |owner| == |disk|
    requires f.window.at.zone < |disk| ==> |owner[f.window.at.zone]| == |disk[f.window.at.zone]|
    ensures m == |f.st.extents| && f.window.at.zone < |disk|
    ensures StateOk(geo, disk, owner, holder, i, f.mode,
      WithPair(Allocated(disk, f.st, f.window.at.zone), m, Some(f.window.at)))
  {
    hide FileOk, Region;
    StAllocated(geo, disk, owner, holder, i, f.mode, f.st, f.window.at.zone);
    assert WithPair(Allocated(disk, f.st, f.window.at.zone), m, Some(f.window.at))
      == Allocated(disk, f.st, f.window.at.zone);
  }

  lemma FreshLogged(geo: Geometry, disk: Disk, owner: seq<seq<nat>>, holder: seq<Holder>, i: nat, f: File)
    requires StartOk(geo, disk, owner, holder, i, f) && f.enc.BothRead? && f.window.Fresh?
    requires f.enc.start == MemoryStart(f)
    requires WindowOk(geo, disk, holder, i, f) && StateOk(geo, disk, owner, holder, i, f.mode, f.st)
    requires |owner| == |disk| && (f.window.at.zone < |disk| ==> |owner[f.window.at.zone]| == |disk[f.window.at.zone]|)
    ensures f.window.at.zone < |disk| && StartOk(geo, disk, owner, holder, i, LoggedFile(disk, f))
  {
    hide StateOk, WithPair;
    FreshBelongs(geo, disk, owner, holder, i, f, f.enc.m);
  }

  lemma CloseLogged(geo: Geometry, disk: Disk, owner: seq<seq<nat>>, holder: seq<Holder>, i: nat, f: File)
    requires StartOk(geo, disk, owner, holder, i, f) && f.enc.BothRead? && f.window.Closing? && f.enc.start.None?
    ensures StartOk(geo, disk, owner, holder, i, LoggedFile(disk, f))
  {
    hide StateOk, WithPair, ListFits, Allocated;
  }

  /** The pair of a file does not matter to what its starts belong to. */
  lemma PairBelongs(geo: Geometry, disk: Disk, owner: seq<seq<nat>>, holder: seq<Holder>, i: nat, f: File, f': File,
          m: nat, start: Option<Pos>)
    requires Belongs(geo, disk, owner, holder, i, f, m, start)
    requires f'.mode == f.mode && f'.window == f.window && (f'.st == f.st || f'.st == PairSt(f))
    ensures Belongs(geo, disk, owner, holder, i, f', m, start) && MemoryCount(f') == MemoryCount(f)
  {
    hide StateOk;
    assert WithPair(f'.st, m, start) == WithPair(f.st, m, start);
  }

  /** A record that is neither that of a new zone nor that of a close. */
  lemma PlainLogged(geo: Geometry, disk: Disk, owner: seq<seq<nat>>, holder: seq<Holder>, i: nat, f: File)
    requires StartOk(geo, disk, owner, holder, i, f) && f.enc.BothRead?
    requires f.window.Fresh? ==> f.window.at.zone < |disk| && f.enc.start != MemoryStart(f)
    requires f.window.Closing? ==> f.enc.start.Some?
    ensures StartOk(geo, disk, owner, holder, i, LoggedFile(disk, f))
  {
    hide StateOk, Belongs, ListFits, WithPair;
    var f' := LoggedFile(disk, f);
    PairBelongs(geo, disk, owner, holder, i, f, f', f.enc.m, f.enc.start);
    if f.window.Lagging? {
      PairBelongs(geo, disk, owner, holder, i, f, f', MemoryCount(f), f.window.old_start);
    }
  }

  lemma LogStarts(s: State, i: nat)
    requires Inv(s) && Starts(s) && Enabled(s, Log(i))
    ensures Starts(Apply(s, Log(i)))
  {
    hide Inv, Starts, StartOk, StateOk, LogOk, LockOk, FlagsOk, FileOk, AllInside, FileContent, ActiveOk, Bytes,
      Pending, LoggedFile;
    StartAt(s, i);
    FactsAt(s, i);
    OwnersAll(s);
    var f := s.files[i];
    if f.window.Fresh? && f.enc.start == MemoryStart(f) {
      FreshLogged(s.geo, s.disk, s.owner, s.holder, i, f);
    } else if f.window.Closing? && f.enc.start.None? {
      CloseLogged(s.geo, s.disk, s.owner, s.holder, i, f);
    } else {
      PlainLogged(s.geo, s.disk, s.owner, s.holder, i, f);
    }
    OneStarts(s, i, LoggedFile(s.disk, f));
  }

  // ---------- appends ----------

  lemma WrittenBelongs(s: State, i: nat, data: seq<byte>, m: nat, start: Option<Pos>)
    requires Inv(s) && Enabled(s, Write(i, data)) && Intact(s, Write(i, data))
    requires Belongs(s.geo, s.disk, s.owner, s.holder, i, s.files[i], m, start)
    ensures var s' := Apply(s, Write(i, data)); Belongs(s'.geo, s'.disk, s'.owner, s'.holder, i, s'.files[i], m, start)
  {
    hide Inv, StateOk, ActiveOk, Aligned;
    var f := s.files[i];
    OwnersAll(s);
    SomeBelongs(s.geo, s.disk, s.owner, s.holder, i, f, m, start);
    FullIsSome(s.geo, s.disk, s.owner, s.holder, i, f.mode, f.st, m, start);
    StWrite(s.geo, s.disk, s.owner, s.holder, i, WithPair(f.st, m, start), data);
    assert WithPair(f.st, m, start).(size := f.st.size + |data|)
      == WithPair(f.st.(size := f.st.size + |data|), m, start);
  }

  lemma WriteStarts(s: State, i: nat, data: seq<byte>)
    requires Inv(s) && Starts(s) && Enabled(s, Write(i, data)) && Intact(s, Write(i, data))
    ensures Starts(Apply(s, Write(i, data)))
  {
    hide Inv, StateOk, WithPair, Belongs, ActiveOk, Fits, Starts;
    StartAt(s, i);
    ActiveIsHeld(s, i);
    var f := s.files[i];
    WrittenBelongs(s, i, data, f.log.m, f.log.start);
    if f.enc.BothRead? { WrittenBelongs(s, i, data, f.enc.m, f.enc.start); }
    ExtendStarts(s, i, f.st.active.value, data, f.(st := f.st.(size := f.st.size + |data|), uncounted := |data|), 0);
  }

  lemma ActiveIsHeld(s: State, i: nat)
    requires Inv(s) && Lives(s, i) && s.files[i].st.active.Some?
    ensures s.files[i].st.active.value < |s.holder| && s.holder[s.files[i].st.active.value] == ByFile(i)
  {
    hide Inv, StateOk, LogOk, LockOk, FlagsOk, FileOk, AllInside, FileContent, ActiveOk, Bytes, Pending, WindowOk;
    FactsAt(s, i);
    StateFacts(s.geo, s.disk, s.owner, s.holder, i, s.files[i].mode, s.files[i].st);
  }

  lemma GrownBelongs(s: State, i: nat, payload: seq<byte>, bytes: seq<byte>, m: nat, start: Option<Pos>)
    requires Inv(s) && Enabled(s, Grow(i, payload, bytes))
    requires Belongs(s.geo, s.disk, s.owner, s.holder, i, s.files[i], m, start)
    ensures var s' := Apply(s, Grow(i, payload, bytes));
      Belongs(s'.geo, s'.disk, s'.owner, s'.holder, i, s'.files[i], m, start)
  {
    hide Inv, StateOk, ActiveOk, Aligned, Segment;
    var f := s.files[i];
    OwnersAll(s);
    SomeBelongs(s.geo, s.disk, s.owner, s.holder, i, f, m, start);
    FullIsSome(s.geo, s.disk, s.owner, s.holder, i, f.mode, f.st, m, start);
    StGrow(s.geo, s.disk, s.owner, s.holder, i, f.mode, WithPair(f.st, m, start), payload, bytes);
    assert Grown(s.disk, WithPair(f.st, m, start), HeadOf(f.mode), |payload|, |bytes|)
        == WithPair(Grown(s.disk, f.st, HeadOf(f.mode), |payload|, |bytes|), m, start);
  }

  /** In memory, the start before the push is behind all extents but the new one. */
  lemma QuietBelongs(s: State, i: nat)
    requires Inv(s) && Starts(s) && Lives(s, i) && s.files[i].window == Quiet
    ensures Belongs(s.geo, s.disk, s.owner, s.holder, i, s.files[i], |s.files[i].st.extents|, s.files[i].st.start)
  {
    hide Inv, Starts, Belongs;
    MemoryBelongs(s, i);
  }

  lemma GrowStarts(s: State, i: nat, payload: seq<byte>, bytes: seq<byte>)
    requires Inv(s) && Starts(s) && Enabled(s, Grow(i, payload, bytes))
    ensures Starts(Apply(s, Grow(i, payload, bytes)))
  {
    hide Inv, StateOk, WithPair, Belongs, ActiveOk, Fits, Starts, Segment;
    StartAt(s, i);
    ActiveIsHeld(s, i);
    var f := s.files[i];
    QuietBelongs(s, i);
    GrownBelongs(s, i, payload, bytes, f.log.m, f.log.start);
    GrownBelongs(s, i, payload, bytes, |f.st.extents|, f.st.start);
    if f.enc.BothRead? { GrownBelongs(s, i, payload, bytes, f.enc.m, f.enc.start); }
    var f' := WithExtents(f, Grown(s.disk, f.st, HeadOf(f.mode), |payload|, |bytes|)).(uncounted := |payload|);
    ExtendStarts(s, i, f.st.active.value, bytes, f', |payload|);
  }

  lemma PushedBelongs(s: State, i: nat, m: nat, start: Option<Pos>)
    requires Inv(s) && Enabled(s, Push(i)) && Intact(s, Push(i))
    requires Belongs(s.geo, s.disk, s.owner, s.holder, i, s.files[i], m, start)
    ensures var s' := Apply(s, Push(i)); Belongs(s'.geo, s'.disk, s'.owner, s'.holder, i, s'.files[i], m, start)
  {
    hide Inv, StateOk, ActiveOk;
    var f := s.files[i];
    OwnersAll(s);
    SomeBelongs(s.geo, s.disk, s.owner, s.holder, i, f, m, start);
    FullIsSome(s.geo, s.disk, s.owner, s.holder, i, f.mode, f.st, m, start);
    StPush(s.geo, s.disk, s.owner, s.holder, i, WithPair(f.st, m, start));
    assert Pushed(s.disk, WithPair(f.st, m, start)) == WithPair(Pushed(s.disk, f.st), m, start);
    assert PushedState(s.disk, f) == Pushed(s.disk, f.st);
  }

  lemma PushStarts(s: State, i: nat)
    requires Inv(s) && Starts(s) && Enabled(s, Push(i)) && Intact(s, Push(i))
    ensures Starts(Apply(s, Push(i)))
  {
    hide Inv, StateOk, WithPair, Belongs, Starts, Pending;
    StartAt(s, i);
    var f := s.files[i];
    QuietBelongs(s, i);
    PushedBelongs(s, i, f.log.m, f.log.start);
    PushedBelongs(s, i, |f.st.extents|, f.st.start);
    if f.enc.BothRead? { PushedBelongs(s, i, f.enc.m, f.enc.start); }
    var f' := WithExtents(f, PushedState(s.disk, f));
    OneStarts(s, i, f');
    SameStartsHold(SetFile(s, i, f'), Apply(s, Push(i)));
  }

  lemma CopyStarts(s: State, i: nat, k: nat, z: nat, pad: seq<byte>)
    requires Inv(s) && Starts(s) && Enabled(s, MoveCopy(i, k, z, pad)) && Intact(s, MoveCopy(i, k, z, pad))
    ensures Starts(Apply(s, MoveCopy(i, k, z, pad)))
  {
    hide Inv, Starts, StartOk, Enabled, Apply, Copied, Lookup, Shortened, Aligned, Intact, MayTake;
    CopyFacts(s, i, k, z, pad);
    CopiedIs(s, i, k, z, pad);
    CopiedWhole(s, i, k, z, pad);
    var f := s.files[i];
    var bytes := Lookup(s.disk, f.st.extents[k]) + pad;
    var f' := f.(other := f.other[k := Ext(z, |s.disk[z]|, f.st.extents[k].len)]);
    MoverAppendsStart(s, i, z, bytes, f');
    ExtendStarts(s, i, z, bytes, f', f.st.extents[k].len);
  }

  lemma MoverAppendsStart(s: State, i: nat, z: nat, bytes: seq<byte>, f': File)
    requires Inv(s) && Starts(s) && Moves(s, i) && Fits(s, z, bytes) && s.holder[z] == ByMover(i)
    requires SameStart(s.files[i], f') && f'.alive
    ensures StartOk(s.geo, s.disk[z := s.disk[z] + bytes], s.owner[z := s.owner[z] + Owners(i, |bytes|)], s.holder, i,
      f')
  {
    hide Inv, Starts, StartOk, Aligned, SameStart;
    AppendFrame(s, i, z, bytes, i);
    SameStartOk(s.geo, s.disk[z := s.disk[z] + bytes], s.owner[z := s.owner[z] + Owners(i, |bytes|)], s.holder, i,
      s.files[i], f');
  }

  lemma WasteStarts(s: State, i: nat, z: nat, bytes: seq<byte>)
    requires Inv(s) && Starts(s) && Enabled(s, MoveWaste(i, z, bytes))
    ensures Starts(Apply(s, MoveWaste(i, z, bytes)))
  {
    hide Inv, Starts, StartOk, Aligned;
    MoverAppendsStart(s, i, z, bytes, s.files[i]);
    ExtendStarts(s, i, z, bytes, s.files[i], 0);
  }

  // ---------- zones ----------

  lemma CreateStarts(s: State, mode: Mode)
    requires Starts(s)
    ensures Starts(Apply(s, Create(mode)))
  {
    hide StateOk, WithPair;
  }

  /** The flag of a zone changes that is not the active one of a file. */
  lemma HolderStarts(s: State, z: nat, h: Holder)
    requires Inv(s) && Starts(s) && z < |s.holder|
    requires forall i :: 0 <= i < |s.files| && s.files[i].alive ==> !UsesZone(s.files[i], z)
    ensures Starts(s.(holder := s.holder[z := h]))
  {
    hide Inv, StartOk, StateOk, StPins, DiskOk;
    OwnersAll(s);
    var holder' := s.holder[z := h];
    forall i | 0 <= i < |s.files| && s.files[i].alive
      ensures StartOk(s.geo, s.disk, s.owner, holder', i, s.files[i])
    {
      var f := s.files[i];
      StartAt(s, i);
      assert !UsesZone(f, z);
      StartFrame(s.geo, s.disk, s.disk, s.owner, s.owner, s.holder, holder', i, f);
    }
  }

  lemma FlagStarts(s: State, z: nat, h: Holder)
    requires Inv(s) && Starts(s) && z < |s.holder|
    requires match s.holder[z]
      case ByFile(i) => i < |s.files| && !UsesZone(s.files[i], z)
      case _ => true
    ensures Starts(s.(holder := s.holder[z := h]))
  {
    hide Inv, Good, UsesZone, Starts;
    forall i | 0 <= i < |s.files| && s.files[i].alive
      ensures !UsesZone(s.files[i], z)
    {
      if s.holder[z] != ByFile(i) {
        GoodFile(s, i);
        BusyElsewhere(s.geo, s.disk, s.owner, s.holder, i, s.files[i], z);
      }
    }
    HolderStarts(s, z, h);
  }

  lemma HoldStarts(s: State, a: Action)
    requires Inv(s) && Starts(s) && Enabled(s, a) && (a.Acquire? || a.Release? || a.MoveTake?)
    ensures Starts(Apply(s, a))
  {
    hide Inv, Starts, UsesZone;
    match a {
      case Acquire(i, z) => FlagStarts(s, z, ByFile(i));
      case Release(z) => FlagStarts(s, z, Free);
      case MoveTake(i, z) => FlagStarts(s, z, ByMover(i));
    }
  }

  /** A zone that may be reset matters to no start, in memory, in a record or in the log. */
  lemma ResetTouchesNone(s: State, z: nat, i: nat, m: nat, start: Option<Pos>)
    requires z < |s.disk| && z < |s.owner| && Lives(s, i)
    requires Inv(s) && Enabled(s, Reset(z))
    requires StateOk(s.geo, s.disk, s.owner, s.holder, i, s.files[i].mode, WithPair(s.files[i].st, m, start))
    ensures !StPins(WithPair(s.files[i].st, m, start), z)
    ensures Untouched(s.disk, s.disk[z := []], s.owner, s.owner[z := []], s.holder, s.holder,
      WithPair(s.files[i].st, m, start))
  {
    hide Inv, StateOk, StPins, Pins, Refers, UsesZone;
    OwnersAll(s);
    UnusedZone(s, z, i);
    NoneRefers(s.files[i], z);
    StNotPinned(s.geo, s.disk, s.owner, s.holder, i, s.files[i].mode, WithPair(s.files[i].st, m, start), z);
  }

  lemma NoneRefers(f: File, z: nat)
    requires !Refers(f, z)
    ensures !InZone(f.st.extents, z) && forall k :: 0 <= k < |f.st.extents| ==> f.st.extents[k].zone != z
  {
  }

  lemma ResetStarts(s: State, z: nat)
    requires Inv(s) && Starts(s) && Enabled(s, Reset(z))
    ensures Starts(Apply(s, Reset(z)))
  {
    hide Inv, Starts, StartOk, StateOk, Untouched, DiskOk, WithPair, StPins;
    var s' := Apply(s, Reset(z));
    ResetDiskOk(s, z);
    forall i | 0 <= i < |s.files| && s.files[i].alive
      ensures StartOk(s.geo, s'.disk, s'.owner, s.holder, i, s.files[i])
    {
      var f := s.files[i];
      StartAt(s, i);
      forall m: nat, start | StateOk(s.geo, s.disk, s.owner, s.holder, i, f.mode, WithPair(f.st, m, start))
        ensures Untouched(s.disk, s'.disk, s.owner, s'.owner, s.holder, s.holder, WithPair(f.st, m, start))
      {
        ResetTouchesNone(s, z, i, m, start);
      }
      StartFrame(s.geo, s.disk, s'.disk, s.owner, s'.owner, s.holder, s.holder, i, f);
    }
    AllStart(s');
  }

  lemma ResetDiskOk(s: State, z: nat)
    requires z < |s.disk| && Inv(s) && Enabled(s, Reset(z))
    ensures DiskOk(s.geo, s.disk[z := []])
  {
    hide Good, Charges;
    ResetShape(s, z);
  }

  lemma CrashStarts(s: State)
    requires s.geo.bs > 0
    ensures Starts(CrashState(s))
  {
    hide Recover, Charges, StateOk, WithPair, Total;
  }

  // ---------- all steps ----------

  lemma WriterStarts(s: State, a: Action)
    requires Inv(s) && Starts(s) && Enabled(s, a) && IsWriter(a) && Intact(s, a)
    ensures Starts(Apply(s, a))
  {
    hide Inv, Starts, Enabled, Intact, Apply, SameStarts;
    match a {
      case Create(mode) => CreateStarts(s, mode);
      case Open(i) => OpenStarts(s, i);
      case Acquire(_, _) => HoldStarts(s, a);
      case SetStart(i, z) => SetStartStarts(s, i, z);
      case Write(i, data) => WriteStarts(s, i, data);
      case Count(i) =>
        CountStarts(s, i);
        SameStartsHold(s, Apply(s, a));
      case Grow(i, payload, bytes) => GrowStarts(s, i, payload, bytes);
      case Push(i) => PushStarts(s, i);
      case Advance(i) => AdvanceStarts(s, i);
      case Full(i) => FullStarts(s, i);
      case CloseBegin(i) => CloseBeginStarts(s, i);
      case CloseEnd(i) => CloseEndStarts(s, i);
      case Release(_) => HoldStarts(s, a);
    }
  }

  lemma MigrationStarts(s: State, a: Action)
    requires Inv(s) && Starts(s) && Enabled(s, a) && IsMover(a) && Intact(s, a)
    ensures Starts(Apply(s, a))
  {
    hide Inv, Starts, Enabled, Intact, ApplyMover, SameStarts;
    if InMemory(a) {
      MoverStarts(s, a);
      SameStartsHold(s, ApplyMover(s, a));
    } else if a.MoveTake? {
      HoldStarts(s, a);
    } else if a.MoveCopy? {
      CopyStarts(s, a.i, a.k, a.z, a.pad);
    } else if a.MoveWaste? {
      WasteStarts(s, a.i, a.z, a.bytes);
    } else {
      ReplaceStarts(s, a.i);
    }
  }

  /** Every step of an intact run, also a crash at which no log is exact, keeps all starts with the
      extents that they belong to. */
  lemma StepKeepsStarts(s: State, a: Action)
    requires Inv(s) && Starts(s) && Enabled(s, a) && Intact(s, a)
    ensures Starts(Apply(s, a))
  {
    hide Inv, Starts, Enabled, Intact, ApplyWriter, ApplyRecord, ApplyReader, ApplyMover, CrashState, SameStarts;
    if IsWriter(a) {
      WriterStarts(s, a);
    } else if a.EncodeStart? {
      EncodeStartStarts(s, a.i);
    } else if a.Log? {
      LogStarts(s, a.i);
    } else if IsRecord(a) {
      RecordStarts(s, a);
      SameStartsHold(s, ApplyRecord(s, a));
    } else if IsReader(a) {
      ReaderStarts(s, a);
      SameStartsHold(s, ApplyReader(s, a));
    } else if IsMover(a) {
      MigrationStarts(s, a);
    } else {
      ZoneStarts(s, a);
    }
  }

  lemma ZoneStarts(s: State, a: Action)
    requires Inv(s) && Starts(s) && Enabled(s, a) && (a.Finish? || a.Reset? || a.Crash?)
    ensures Starts(Apply(s, a))
  {
    hide Inv, Starts, CrashState, SameStarts;
    match a {
      case Finish(z) =>
        FinishStarts(s, z);
        SameStartsHold(s, Apply(s, a));
      case Reset(z) => ResetStarts(s, z);
      case Crash => CrashStarts(s);
    }
  }
}
