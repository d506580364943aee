/** What holds in every run of a volume. */
module VolumeSafety {
  import opened Common
  import opened Coding
  import opened Blocks
  import opened ZoneData
  import opened ZoneFiles
  import opened Accounting
  import FileReads
  import opened Volume
  import opened VolumeFrame
  import opened VolumeSteps
  import opened VolumeMoves
  import opened VolumeStarts
  import opened VolumeCrash
  import opened VolumeRaces
  import opened VolumeSizes

  // ---------- runs ----------

  /** Every file has what it had and what the action appends to it; with a crash, that is
      so for files that are not buffered. */
  predicate BytesKept(s: State, s': State, a: Action) {
    && |s'.files| >= |s.files|
    && forall j :: 0 <= j < |s.files| && s'.files[j].alive ==>
         && s.files[j].alive && s'.files[j].mode == s.files[j].mode
         && ((a.Crash? && s.files[j].mode == Buffered) ||
              Bytes(s'.disk, s'.files[j]) == Bytes(s.disk, s.files[j]) + Appended(a, j))
  }

  lemma KeepsBytes(s: State, a: Action, i: nat)
    requires Enabled(s, a) && Keeps(s, a, i) && (forall j: nat :: j != i ==> Appended(a, j) == [])
    ensures Inv(Apply(s, a)) && BytesKept(s, Apply(s, a), a)
  {
    hide Inv, Bytes, Appended, Enabled, Apply;
    var s' := Apply(s, a);
    forall j | 0 <= j < |s.files| && s'.files[j].alive
      ensures Bytes(s'.disk, s'.files[j]) == Bytes(s.disk, s.files[j]) + Appended(a, j)
    {
    }
  }

  lemma CrashStep(s: State)
    requires Inv(s) && Enabled(s, Crash) && AllExact(s)
    ensures Inv(Apply(s, Crash)) && BytesKept(s, Apply(s, Crash), Crash)
  {
    hide Inv, Bytes, CrashFile, Good;
    CrashKeepsInv(s);
    forall j | 0 <= j < |s.files|
      ensures CrashFile(s.geo, s.disk, s.files[j]).alive ==>
        s.files[j].alive && CrashFile(s.geo, s.disk, s.files[j]).mode == s.files[j].mode &&
        (s.files[j].mode != Buffered ==>
          Bytes(s.disk, CrashFile(s.geo, s.disk, s.files[j])) == Bytes(s.disk, s.files[j]))
    {
      CrashedFileIsGood(s, j);
    }
  }

  lemma WriterStep(s: State, a: Action) returns (i: nat)
    requires Inv(s) && Enabled(s, a) && IsWriter(a) && Intact(s, a)
    ensures Keeps(s, a, i) && forall j: nat :: j != i ==> Appended(a, j) == []
  {
    hide Inv, Bytes, Advanced, Good, Enabled, Keeps, Intact;
    match a {
      case Create(mode) => CreateKeeps(s, mode); i := |s.files|;
      case Open(k) => OpenKeeps(s, k); i := k;
      case Acquire(k, z) => HoldKeeps(s, a); i := 0;
      case SetStart(k, z) => SetStartKeeps(s, k, z); i := k;
      case Write(k, data) => WriteKeeps(s, k, data); i := k;
      case Count(k) => CountKeeps(s, k); i := k;
      case Grow(k, payload, bytes) => GrowKeeps(s, k, payload, bytes); i := k;
      case Push(k) => PushKeeps(s, k); i := k;
      case Advance(k) => AdvanceKeeps(s, k); i := k;
      case Full(k) => FullKeeps(s, k); i := k;
      case CloseBegin(k) => CloseBeginKeeps(s, k); i := k;
      case CloseEnd(k) => CloseEndKeeps(s, k); i := k;
      case Release(z) => HoldKeeps(s, a); i := 0;
    }
  }

  lemma RecordStep(s: State, a: Action) returns (i: nat)
    requires Inv(s) && Enabled(s, a) && IsRecord(a)
    ensures Keeps(s, a, i) && forall j: nat :: j != i ==> Appended(a, j) == []
  {
    hide Inv, Bytes, Advanced, Good, Enabled, Keeps, Intact;
    match a {
      case Encode(k, kind) => EncodeKeeps(s, k, kind); i := k;
      case EncodeList(k) => EncodeListKeeps(s, k); i := k;
      case EncodeStart(k) => EncodeStartKeeps(s, k); i := k;
      case Log(k) => LogKeeps(s, k); i := k;
      case LoseRecord(k) => LoseRecordKeeps(s, k); i := k;
      case Mark(k) => MarkKeeps(s, k); i := k;
      case Delete(k) => DeleteKeeps(s, k); i := k;
      case Destroy(k) => DestroyKeeps(s, k); i := k;
    }
  }

  lemma ReaderStep(s: State, a: Action) returns (i: nat)
    requires Inv(s) && Enabled(s, a) && IsReader(a)
    ensures Keeps(s, a, i) && forall j: nat :: j != i ==> Appended(a, j) == []
  {
    hide Inv, Bytes, Advanced, Good, Enabled, Keeps, Intact;
    match a {
      case LockRead(k) => LockKeeps(s, a, k); i := k;
      case CountRead(k) => LockKeeps(s, a, k); i := k;
      case UnlockRead(k) => LockKeeps(s, a, k); i := k;
      case ReadNothing(k) => LockKeeps(s, a, k); i := k;
      case ReadBegin(k, offset, wanted, e) => ReadBeginKeeps(s, k, offset, wanted, e); i := k;
      case ReadChunk(k, n, len) => ReadChunkKeeps(s, k, n, len); i := k;
      case ReadNext(k, n) => ReadNextKeeps(s, k, n); i := k;
      case ReadEnd(k, n) => ReadEndKeeps(s, k, n); i := k;
    }
  }

  lemma MigrationStep(s: State, a: Action) returns (i: nat)
    requires Inv(s) && Enabled(s, a) && IsMover(a) && Intact(s, a)
    ensures Keeps(s, a, i) && forall j: nat :: j != i ==> Appended(a, j) == []
  {
    hide Inv, Bytes, Advanced, Good, Enabled, Keeps, Intact;
    match a {
      case MoveBegin(k) => MoveBeginKeeps(s, k); i := k;
      case MoveTake(k, z) => HoldKeeps(s, a); i := 0;
      case MoveCopy(k, e, z, pad) => MoveCopyKeeps(s, k, e, z, pad); i := k;
      case MoveWaste(k, z, bytes) => MoveWasteKeeps(s, k, z, bytes); i := k;
      case LockWrite(k) => LockKeeps(s, a, k); i := k;
      case SeeNoReaders(k) => LockKeeps(s, a, k); i := k;
      case Replace(k) => ReplaceKeeps(s, k); i := k;
      case UnlockWrite(k) => LockKeeps(s, a, k); i := k;
      case Unsync(k) => UnsyncKeeps(s, k); i := k;
      case Drop(k) => DropKeeps(s, k); i := k;
    }
  }

  lemma ZoneStep(s: State, a: Action) returns (i: nat)
    requires Inv(s) && Enabled(s, a) && (a.Finish? || a.Reset?)
    ensures Keeps(s, a, i) && forall j: nat :: j != i ==> Appended(a, j) == []
  {
    hide Inv, Bytes, Advanced, Good;
    i := 0;
    match a {
      case Finish(z) => FinishKeeps(s, z);
      case Reset(z) => ResetKeeps(s, z);
    }
  }

  /** Every step, of every kind and of every file, keeps the invariant and the bytes of all files,
      but for a push between a write and its count, and the copy of an extent of 4 GiB; a crash
      does so when the log of every file is exact. */
  lemma StepKeepsInv(s: State, a: Action)
    requires Inv(s) && Enabled(s, a) && Intact(s, a) && (a.Crash? ==> AllExact(s))
    ensures Inv(Apply(s, a)) && BytesKept(s, Apply(s, a), a)
  {
    hide Inv, Bytes, Good, Enabled, Apply, Keeps, BytesKept, Appended, AllExact, Intact;
    if a.Crash? {
      CrashStep(s);
    } else {
      var i: nat;
      if IsWriter(a) {
        i := WriterStep(s, a);
      } else if IsRecord(a) {
        i := RecordStep(s, a);
      } else if IsReader(a) {
        i := ReaderStep(s, a);
      } else if IsMover(a) {
        i := MigrationStep(s, a);
      } else {
        i := ZoneStep(s, a);
      }
      KeepsBytes(s, a, i);
    }
  }

  lemma NewStateInv(geo: Geometry, zones: nat)
    requires geo.Valid()
    ensures Inv(NewState(geo, zones))
  {
    MultipleZero(geo.bs);
  }

  /** In zones of less than 4 GiB no extent is that long. */
  lemma SmallExtents(s: State, a: Action)
    requires Inv(s) && Enabled(s, a) && a.MoveCopy? && s.geo.capacity < 0x1_0000_0000
    ensures Intact(s, a)
  {
    hide Good, Charges, Lookup, Shortened, MayTake;
    var e := s.files[a.i].st.extents[a.k];
    assert Inside(s.disk, e) && |s.disk[e.zone]| <= s.geo.capacity;
  }

  /** A step of a run: no sync overlaps an append, no copied extent is of 4 GiB or more, and at a
      crash the log of every file is exact and its size holds. */
  ghost predicate CleanAt(s: State, a: Action) {
    Enabled(s, a) ==> Intact(s, a) && (a.Crash? ==> AllExact(s) && AllCounted(s))
  }

  ghost predicate CleanRun(s: State, actions: seq<Action>) {
    forall k :: 0 <= k < |actions| ==> CleanAt(Run(s, actions[..k]), actions[k])
  }

  lemma CleanPart(s: State, actions: seq<Action>, n: nat)
    requires CleanRun(s, actions) && n <= |actions|
    ensures CleanRun(s, actions[..n])
  {
    hide CleanAt, Run;
    forall k | 0 <= k < n
      ensures CleanAt(Run(s, actions[..n][..k]), actions[..n][k])
    {
      assert actions[..n][..k] == actions[..k];
    }
  }

  lemma {:induction false} RunKeepsInv(geo: Geometry, zones: nat, actions: seq<Action>)
    requires geo.Valid() && CleanRun(NewState(geo, zones), actions)
    ensures Inv(Run(NewState(geo, zones), actions)) && NoneMissed(Run(NewState(geo, zones), actions))
    ensures Starts(Run(NewState(geo, zones), actions))
    decreases |actions|
  {
    hide Inv, Enabled, Apply, BytesKept, AllExact, AllCounted, Intact, NoneMissed, Starts;
    if actions == [] {
      NewStateInv(geo, zones);
      NothingMissed(NewState(geo, zones));
    } else {
      var n := |actions| - 1;
      CleanPart(NewState(geo, zones), actions, n);
      RunKeepsInv(geo, zones, actions[..n]);
      var before := Run(NewState(geo, zones), actions[..n]);
      assert CleanAt(before, actions[n]);
      if Enabled(before, actions[n]) {
        StepKeepsInv(before, actions[n]);
        StepMissesNothing(before, actions[n]);
        StepKeepsStarts(before, actions[n]);
      }
    }
  }

  lemma NothingMissed(s: State)
    requires s.files == []
    ensures NoneMissed(s) && AllSized(s) && Starts(s)
  {
  }

  /** No record of a file is under way while its list or its start changes. */
  ghost predicate OrderlyRun(s: State, actions: seq<Action>) {
    forall k :: 0 <= k < |actions| ==> OrderlyAt(Run(s, actions[..k]), actions[k])
  }

  predicate OrderlyAt(s: State, a: Action) { Enabled(s, a) ==> Orderly(s, a) && Intact(s, a) }

  /** In such runs the log of every file is exact and its size holds all the time, so that every
      crash is clean. */
  lemma {:induction false} OrderlyRunsCrashCleanly(geo: Geometry, zones: nat, actions: seq<Action>)
    requires geo.Valid() && OrderlyRun(NewState(geo, zones), actions)
    ensures CleanRun(NewState(geo, zones), actions)
    ensures var s := Run(NewState(geo, zones), actions); AllCalm(s) && AllSized(s) && AllExact(s) && AllCounted(s)
    decreases |actions|
  {
    hide Inv, Enabled, Apply, BytesKept, AllExact, AllCalm, Orderly, AllSized, AllCounted, Intact, NoneMissed, CleanAt;
    var s := NewState(geo, zones);
    if actions == [] {
      NewStateInv(geo, zones);
      EmptyIsCalm(s);
      NothingMissed(s);
    } else {
      var n := |actions| - 1;
      OrderlyPart(s, actions, n);
      OrderlyRunsCrashCleanly(geo, zones, actions[..n]);
      RunKeepsInv(geo, zones, actions[..n]);
      var before := Run(s, actions[..n]);
      assert OrderlyAt(before, actions[n]);
      if Enabled(before, actions[n]) {
        OrderlyStaysCalm(before, actions[n]);
        OrderlyStaysSized(before, actions[n]);
      }
      CleanPlus(s, actions, n);
      RunKeepsInv(geo, zones, actions);
    }
    CalmIsExact(Run(s, actions));
    SizedIsCounted(Run(s, actions));
  }

  lemma EmptyIsCalm(s: State)
    requires s.files == []
    ensures AllCalm(s)
  {
  }

  lemma OrderlyPart(s: State, actions: seq<Action>, n: nat)
    requires OrderlyRun(s, actions) && n <= |actions|
    ensures OrderlyRun(s, actions[..n])
  {
    hide OrderlyAt, Run;
    forall k | 0 <= k < n
      ensures OrderlyAt(Run(s, actions[..n][..k]), actions[..n][k])
    {
      assert actions[..n][..k] == actions[..k];
    }
  }

  lemma CleanPlus(s: State, actions: seq<Action>, n: nat)
    requires |actions| == n + 1 && CleanRun(s, actions[..n]) && OrderlyAt(Run(s, actions[..n]), actions[n])
    requires AllExact(Run(s, actions[..n])) && AllCounted(Run(s, actions[..n]))
    ensures CleanRun(s, actions)
  {
    hide AllExact, AllCounted, Run, Intact, Orderly, Enabled;
    forall k | 0 <= k < |actions|
      ensures CleanAt(Run(s, actions[..k]), actions[k])
    {
      if k < n {
        assert actions[..n][k] == actions[k];
        assert actions[..n][..k] == actions[..k];
      }
    }
  }

  /** All that a run appends to file i. */
  function Log(s: State, actions: seq<Action>, i: nat): seq<byte> {
    if actions == [] then []
    else
      var n := |actions| - 1;
      Log(s, actions[..n], i) + if Enabled(Run(s, actions[..n]), actions[n]) then Appended(actions[n], i) else []
  }

  lemma AppendsToFiles(s: State, a: Action, i: nat)
    requires Enabled(s, a) && i >= |s.files|
    ensures Appended(a, i) == []
  {
  }

  lemma {:induction false} NoLogBeforeCreation(s: State, actions: seq<Action>, i: nat)
    requires i >= |Run(s, actions).files|
    requires forall k :: 0 <= k <= |actions| ==> |Run(s, actions[..k]).files| <= |Run(s, actions).files|
    ensures Log(s, actions, i) == []
    decreases |actions|
  {
    hide Enabled, Apply, Appended;
    if actions != [] {
      var n := |actions| - 1;
      assert |Run(s, actions[..n]).files| <= |Run(s, actions).files|;
      forall k | 0 <= k <= n
        ensures |Run(s, actions[..n][..k]).files| <= |Run(s, actions[..n]).files|
      {
        assert actions[..n][..k] == actions[..k];
        FilesGrow(s, actions[..n], k);
      }
      NoLogBeforeCreation(s, actions[..n], i);
      if Enabled(Run(s, actions[..n]), actions[n]) { AppendsToFiles(Run(s, actions[..n]), actions[n], i); }
    }
  }

  /** Only a creation adds a file, which is empty. */
  predicate FilesOf(s: State, s': State, a: Action) {
    if a.Create? then s'.files == s.files + [NewFile(a.mode)] else |s'.files| == |s.files|
  }

  lemma WriterFiles(s: State, a: Action)
    requires Enabled(s, a) && IsWriter(a)
    ensures FilesOf(s, ApplyWriter(s, a), a)
  {
    hide Pending, ActiveOk, Segment, Fits, HasRoom;
  }

  lemma RecordFiles(s: State, a: Action)
    requires Enabled(s, a) && IsRecord(a)
    ensures FilesOf(s, ApplyRecord(s, a), a)
  {
    hide Uncharge;
  }

  lemma ReaderFiles(s: State, a: Action)
    requires Enabled(s, a) && IsReader(a)
    ensures FilesOf(s, ApplyReader(s, a), a)
  {
    hide Total, Inside;
  }

  lemma MoverFiles(s: State, a: Action)
    requires Enabled(s, a) && IsMover(a)
    ensures FilesOf(s, ApplyMover(s, a), a)
  {
    hide Fits, HasRoom, Lookup, Inside, Moved, Uncharge;
  }

  lemma StepFiles(s: State, a: Action)
    requires Enabled(s, a)
    ensures FilesOf(s, Apply(s, a), a)
  {
    hide Enabled, ApplyWriter, ApplyRecord, ApplyReader, ApplyMover, FilesOf;
    if IsWriter(a) {
      WriterFiles(s, a);
    } else if IsRecord(a) {
      RecordFiles(s, a);
    } else if IsReader(a) {
      ReaderFiles(s, a);
    } else if IsMover(a) {
      MoverFiles(s, a);
    } else {
      ZoneFilesKept(s, a);
    }
  }

  lemma ZoneFilesKept(s: State, a: Action)
    requires Enabled(s, a) && !IsWriter(a) && !IsRecord(a) && !IsReader(a) && !IsMover(a)
    ensures FilesOf(s, Apply(s, a), a)
  {
    hide CrashFile;
  }

  lemma OneStepFiles(s: State, a: Action)
    requires Enabled(s, a)
    ensures |Apply(s, a).files| >= |s.files|
  {
    hide Enabled, Apply;
    StepFiles(s, a);
  }

  lemma {:induction false} FilesGrow(s: State, actions: seq<Action>, k: nat)
    requires k <= |actions|
    ensures |Run(s, actions[..k]).files| <= |Run(s, actions).files|
    decreases |actions|
  {
    hide Enabled, Apply;
    var n := |actions| - 1;
    if k == |actions| {
      assert actions[..k] == actions;
    } else {
      assert actions[..n][..k] == actions[..k];
      FilesGrow(s, actions[..n], k);
      if Enabled(Run(s, actions[..n]), actions[n]) { OneStepFiles(Run(s, actions[..n]), actions[n]); }
    }
  }

  lemma NewFileIsEmpty(s: State, a: Action, i: nat)
    requires Enabled(s, a) && |s.files| <= i < |Apply(s, a).files|
    ensures Bytes(Apply(s, a).disk, Apply(s, a).files[i]) == []
  {
    hide Enabled, Apply, WalkSegments;
    StepFiles(s, a);
    assert Apply(s, a).files[i] == NewFile(a.mode);
  }

  /** Whatever happens in a run of other files, to zones, by migration, records and crashes:
      a file has exactly what was appended to it, in order, and its size counts all of it, but for
      what an append has yet to count; when no sync overlaps an append, no copied extent is of
      4 GiB or more, and at every crash the log of every file is exact and its size holds. For a
      buffered file that is so if the run has no crash. */
  lemma {:induction false} FileHasWhatWasAppended(geo: Geometry, zones: nat, actions: seq<Action>, i: nat)
    requires geo.Valid() && CleanRun(NewState(geo, zones), actions)
    requires var s := Run(NewState(geo, zones), actions);
      i < |s.files| && s.files[i].alive && (s.files[i].mode == Buffered ==> Crash !in actions)
    ensures var s := Run(NewState(geo, zones), actions);
      && Bytes(s.disk, s.files[i]) == Log(NewState(geo, zones), actions, i)
      && FileSize(s.files[i]) == |Bytes(s.disk, s.files[i])| - s.files[i].uncounted
  {
    hide Inv, Run, CleanRun, Bytes, Log, NoneMissed;
    BytesAreAppended(geo, zones, actions, i);
    RunKeepsInv(geo, zones, actions);
    SizeCounts(Run(NewState(geo, zones), actions), i);
  }

  lemma SizeCounts(s: State, i: nat)
    requires Inv(s) && NoneMissed(s) && Lives(s, i)
    ensures FileSize(s.files[i]) == |Bytes(s.disk, s.files[i])| - s.files[i].uncounted
  {
    hide Inv, StateOk, LogOk, LockOk, FlagsOk, WindowOk, RegionOk, AllInside, Content, Bytes;
    FactsAt(s, i);
    SizeIsLength(s.geo, s.disk, s.files[i].mode, s.files[i].st);
  }

  lemma {:induction false} BytesAreAppended(geo: Geometry, zones: nat, actions: seq<Action>, i: nat)
    requires geo.Valid() && CleanRun(NewState(geo, zones), actions)
    requires var s := Run(NewState(geo, zones), actions);
      i < |s.files| && s.files[i].alive && (s.files[i].mode == Buffered ==> Crash !in actions)
    ensures var s := Run(NewState(geo, zones), actions);
      Bytes(s.disk, s.files[i]) == Log(NewState(geo, zones), actions, i)
    decreases |actions|
  {
    hide Inv, Enabled, Apply, Bytes, Appended, AllExact, AllCounted, Intact, NoneMissed;
    if actions != [] {
      var n, a := |actions| - 1, actions[|actions| - 1];
      var s0 := NewState(geo, zones);
      CleanPart(s0, actions, n);
      var before := Run(s0, actions[..n]);
      RunKeepsInv(geo, zones, actions[..n]);
      if !Enabled(before, a) {
        BytesAreAppended(geo, zones, actions[..n], i);
      } else {
        assert CleanAt(before, a);
        StepKeepsInv(before, a);
        if i < |before.files| {
          BytesAreAppended(geo, zones, actions[..n], i);
        } else {
          forall k | 0 <= k <= n
            ensures |Run(s0, actions[..n][..k]).files| <= |Run(s0, actions[..n]).files|
          {
            FilesGrow(s0, actions[..n], k);
          }
          NoLogBeforeCreation(s0, actions[..n], i);
          AppendsToFiles(before, a, i);
          NewFileIsEmpty(before, a, i);
        }
      }
    }
  }

  /** No sync overlaps an append, and no copied extent is of 4 GiB or more. */
  ghost predicate IntactRun(s: State, actions: seq<Action>) {
    forall k :: 0 <= k < |actions| ==> IntactAt(Run(s, actions[..k]), actions[k])
  }

  predicate IntactAt(s: State, a: Action) { Enabled(s, a) ==> Intact(s, a) }

  /** In such a run without a crash that is so for every file, whatever the interleaving of records,
      pushes and migrations. */
  lemma FileHasWhatWasAppendedSoFar(geo: Geometry, zones: nat, actions: seq<Action>, i: nat)
    requires geo.Valid() && Crash !in actions && IntactRun(NewState(geo, zones), actions)
    requires var s := Run(NewState(geo, zones), actions); i < |s.files| && s.files[i].alive
    ensures var s := Run(NewState(geo, zones), actions);
      && Bytes(s.disk, s.files[i]) == Log(NewState(geo, zones), actions, i)
      && FileSize(s.files[i]) == |Bytes(s.disk, s.files[i])| - s.files[i].uncounted
  {
    hide Inv, Enabled, Apply, Bytes, Appended, AllExact, AllCounted, Run, Intact;
    forall k | 0 <= k < |actions|
      ensures CleanAt(Run(NewState(geo, zones), actions[..k]), actions[k])
    {
      assert actions[k] in actions;
      assert IntactAt(Run(NewState(geo, zones), actions[..k]), actions[k]);
    }
    FileHasWhatWasAppended(geo, zones, actions, i);
  }

  // ---------- the locks of a file ----------

  /** In every state of every run: when the mover of a file is past its wait for readers, nobody
      reads the file, and nobody is past the read lock; so a list is never replaced under a
      reader. */
  lemma NobodyReadsWhileReplacing(geo: Geometry, zones: nat, actions: seq<Action>, i: nat)
    requires geo.Valid() && CleanRun(NewState(geo, zones), actions)
    requires var s := Run(NewState(geo, zones), actions); Lives(s, i) && s.files[i].lock.mtx == MoverIn
    ensures var f := Run(NewState(geo, zones), actions).files[i];
      f.readers == [] && f.lock.inside == 0 && f.lock.count == 0
  {
    hide Inv, Run, CleanRun;
    RunKeepsInv(geo, zones, actions);
    MoverExcludesReaders(Run(NewState(geo, zones), actions), i);
    LockCounts(Run(NewState(geo, zones), actions), i);
  }

  lemma LockCounts(s: State, i: nat)
    requires Inv(s) && Lives(s, i) && s.files[i].lock.mtx == MoverIn
    ensures s.files[i].lock.count == 0
  {
    hide Inv, ReadersOk, AllInside;
    ReaderLists(s, i);
  }

  // ---------- crashes ----------

  /** In every state of every such run, whatever pushes, migrations and records of any file have
      overlapped: a crash now loses no file that has a name. Its list begins with that of the log and
      has nothing but what was written for the file; and unless it is buffered, its bytes are as
      many as were appended, with those that the logged list has more than the extents behind which
      the logged start is, or without those that it has less. With an exact log they are the bytes
      that were appended. */
  lemma CrashGivesOwnBytes(geo: Geometry, zones: nat, actions: seq<Action>, i: nat)
    requires geo.Valid() && CleanRun(NewState(geo, zones), actions)
    requires var s := Run(NewState(geo, zones), actions); i < |s.files| && s.files[i].named
    ensures var s := Run(NewState(geo, zones), actions);
      && s.geo.bs > 0 && s.files[i].alive && s.files[i].log.m <= |s.files[i].st.extents|
      && var f, f' := s.files[i], CrashState(s).files[i];
         && f'.alive && f'.named && f.log.list <= f'.st.extents
         && AllInside(s.disk, f'.st.extents) && Positive(f'.st.extents) && Owned(s.owner, i, f'.st.extents)
         && (f.mode != Buffered ==>
             |Bytes(s.disk, f')| == |Bytes(s.disk, f)| + Total(f.log.list) - Total(f.st.extents[..f.log.m]))
         && (f.mode != Buffered && f.log.exact ==> Bytes(s.disk, f') == Bytes(s.disk, f))
  {
    hide Inv, Run, CleanRun, Starts, Recover, Bytes, Owned, AllInside, Positive, Total, NoneMissed, Sound, Content;
    RunKeepsInv(geo, zones, actions);
    var s := Run(NewState(geo, zones), actions);
    FileRecovers(s, i);
    NamedIsAlive(s, i);
    var es := Recover(s.geo, s.disk, s.files[i]).extents;
    MountedFile(s.disk, s.files[i].mode, es, RecoveredSize(s.geo, s.disk, s.files[i].log, es));
  }

  lemma MountedFile(disk: Disk, mode: Mode, es: seq<Ext>, size: int)
    requires AllInside(disk, es)
    ensures var f := Mounted(mode, es, size);
      f.alive && f.named && f.st.extents == es && f.mode == mode && Bytes(disk, f) == Content(disk, es)
  {
    hide Content, Total, AllInside;
    assert Content(disk, es) + [] == Content(disk, es);
  }

  // ---------- resets ----------

  /** A zone that is reset has nothing of a file that anybody may still want: no extent of its
      list or of the list that replaces it or that it replaced, none that the log has or that is
      being written to it, none to which a reader points, and no active extent start in memory, in
      the log, exact or not, or in a record that is under way. */
  lemma ResetLosesNothing(s: State, z: nat, i: nat)
    requires Inv(s) && Starts(s) && Enabled(s, Reset(z)) && i < |s.files| && s.files[i].alive
    ensures var f := s.files[i];
      && !InZone(f.st.extents, z) && !InZone(f.other, z) && !InZone(f.log.list, z)
      && (Encodes(f) ==> !InZone(f.enc.list, z))
      && (forall n :: 0 <= n < |f.readers| ==> f.readers[n].ext.zone != z)
      && !UsesZone(f, z)
      && (f.st.start.Some? ==> f.st.start.value.zone != z)
      && (f.log.start.Some? ==> f.log.start.value.zone != z)
      && (f.enc.BothRead? && f.enc.start.Some? ==> f.enc.start.value.zone != z)
  {
    UnusedZone(s, z, i);
    hide Inv, StateOk, FileOk, LockOk, WindowOk, FlagsOk, ActiveOk, AllInside, FileContent, Bytes, IsSuffix, ListFits,
      Belongs, Starts;
    StartAt(s, i);
    StartElsewhere(s, z, i, s.files[i].log.m, s.files[i].log.start);
    if s.files[i].enc.BothRead? { StartElsewhere(s, z, i, s.files[i].enc.m, s.files[i].enc.start); }
    ReaderLists(s, i);
    FactsAt(s, i);
    var f := s.files[i];
    forall n | 0 <= n < |f.readers|
      ensures f.readers[n].ext.zone != z
    {
      assert ReaderOk(s.disk, f.st.extents, f.readers[n]);
    }
    NotInZone(f.log.list, f.st.extents, if Old(f) then f.other else [], z);
    if Encodes(f) { NotInZone(f.enc.list, f.st.extents, if Old(f) then f.other else [], z); }
  }

  lemma StartElsewhere(s: State, z: nat, i: nat, m: nat, start: Option<Pos>)
    requires Inv(s) && Enabled(s, Reset(z)) && Lives(s, i)
    requires Belongs(s.geo, s.disk, s.owner, s.holder, i, s.files[i], m, start)
    ensures start.Some? ==> start.value.zone != z
  {
    hide Inv, StateOk, Refers, Untouched;
    UnusedZone(s, z, i);
    if StateOk(s.geo, s.disk, s.owner, s.holder, i, s.files[i].mode, WithPair(s.files[i].st, m, start)) {
      ResetTouchesNone(s, z, i, m, start);
    }
  }

  lemma NotInZone(list: seq<Ext>, a: seq<Ext>, b: seq<Ext>, z: nat)
    requires Part(list, a + b) && !InZone(a, z) && !InZone(b, z)
    ensures !InZone(list, z)
  {
    forall k | 0 <= k < |list|
      ensures list[k].zone != z
    {
      assert list[k] in a + b;
    }
  }

  // ---------- readers ----------

  predicate Appends(a: Action) { a.Write? || a.Grow? || a.Push? }

  predicate ListGrew(s: State, s': State, i: nat)
    requires i < |s.files|
  {
    i < |s'.files| && s.files[i].st.extents <= s'.files[i].st.extents
  }

  lemma ListGrowsByAppend(s: State, a: Action, i: nat)
    requires Enabled(s, a) && Appends(a) && i < |s.files|
    ensures ListGrew(s, ApplyWriter(s, a), i)
  {
    hide Pending, ActiveOk, Segment, Fits;
  }

  lemma ListStaysByWriter(s: State, a: Action, i: nat)
    requires Enabled(s, a) && IsWriter(a) && !Appends(a) && i < |s.files|
    ensures ListGrew(s, ApplyWriter(s, a), i)
  {
    hide Pending, ActiveOk, Segment, Fits, HasRoom;
  }

  lemma ListStaysByRecord(s: State, a: Action, i: nat)
    requires Enabled(s, a) && IsRecord(a) && i < |s.files|
    ensures ListGrew(s, ApplyRecord(s, a), i)
  {
    hide Uncharge;
  }

  lemma ListStaysByReader(s: State, a: Action, i: nat)
    requires Enabled(s, a) && IsReader(a) && i < |s.files|
    ensures ListGrew(s, ApplyReader(s, a), i)
  {
    hide Total, Inside;
  }

  lemma ListStaysByMover(s: State, a: Action, i: nat)
    requires Enabled(s, a) && IsMover(a) && i < |s.files| && a != Replace(i)
    ensures ListGrew(s, ApplyMover(s, a), i)
  {
    hide Fits, HasRoom, Lookup, Inside, Moved, Uncharge;
  }

  /** While anybody reads a file, or is past the lock to do so, its list only grows at the end. */
  lemma ListGrowsUnderReaders(s: State, a: Action, i: nat)
    requires Inv(s) && Enabled(s, a) && !a.Crash? && Lives(s, i)
    requires s.files[i].readers != [] || s.files[i].lock.inside > 0
    ensures i < |Apply(s, a).files| && s.files[i].st.extents <= Apply(s, a).files[i].st.extents
  {
    hide Inv, ApplyWriter, ApplyRecord, ApplyReader, ApplyMover, CrashState;
    if a == Replace(i) {
      MoverExcludesReaders(s, i);
    }
    hide Enabled;
    if Appends(a) {
      ListGrowsByAppend(s, a, i);
    } else if IsWriter(a) {
      ListStaysByWriter(s, a, i);
    } else if IsRecord(a) {
      ListStaysByRecord(s, a, i);
    } else if IsReader(a) {
      ListStaysByReader(s, a, i);
    } else if IsMover(a) {
      ListStaysByMover(s, a, i);
    }
  }

  /** A reader that cannot go on has what it asked for, up to the end of the extents. */
  lemma ReadIsComplete(s: State, i: nat, n: nat)
    requires Inv(s) && Reads(s, i, n)
    requires !Enabled(s, ReadNext(i, n)) && forall len: nat :: !Enabled(s, ReadChunk(i, n, len))
    ensures var r, es := s.files[i].readers[n], s.files[i].st.extents;
      && AllInside(s.disk, es) && r.offset <= Total(es)
      && r.got == Content(s.disk, es)[r.offset..Min(r.offset + r.wanted, Total(es))]
  {
    hide Inv, Content, Total;
    ReaderLists(s, i);
    var f := s.files[i];
    var r, es := f.readers[n], f.st.extents;
    assert ReaderOk(s.disk, es, r) && Inside(s.disk, r.ext);
    assert !Enabled(s, ReadChunk(i, n, 1));
    if |r.got| < r.wanted {
      assert r.k + 1 == |es|;
      TotalPrefix(es, r.k);
      assert es[..r.k + 1] == es;
    }
  }

  // ---------- space ----------

  /** All extents that a file has, or will have, or had until its replacement is durable. */
  function Live(f: File): seq<Ext> {
    if f.alive && |f.other| == |f.st.extents| then f.st.extents + Moved(f.other, f.st.extents) else []
  }

  lemma LiveOwned(s: State, i: nat, k: nat)
    requires Inv(s) && i < |s.files| && k < |Live(s.files[i])|
    ensures var e := Live(s.files[i])[k];
      Inside(s.disk, e) && e.len > 0 && OwnedRange(s.owner, i, e.zone, e.off, e.off + e.len)
  {
    hide Inv, StateOk, ReadersOk, ListsOk, OwnedRange, LogOk, LockOk, WindowOk, FlagsOk;
    GoodFile(s, i);
    LiveOfFile(s.disk, s.owner, i, s.files[i], k);
  }

  lemma LiveOfFile(disk: Disk, owner: seq<seq<nat>>, i: nat, f: File, k: nat)
    requires ListsOk(disk, owner, i, f) && k < |Live(f)|
    ensures var e := Live(f)[k];
      Inside(disk, e) && e.len > 0 && OwnedRange(owner, i, e.zone, e.off, e.off + e.len)
  {
    hide Apart, OwnedRange, Lookup, Inside;
    var n := |f.st.extents|;
    if k >= n {
      var j := MovedFrom(f.other, f.st.extents, k - n);
      assert f.other[j].len == f.st.extents[j].len;
    }
  }

  /** Live extents, of one file or of two, are disjoint and in the written part of a zone. */
  lemma LiveExtentsAreDisjoint(s: State, i: nat, j: nat, k: nat, l: nat)
    requires Inv(s) && i < |s.files| && j < |s.files| && k < |Live(s.files[i])| && l < |Live(s.files[j])|
    requires i != j || k != l
    ensures Inside(s.disk, Live(s.files[i])[k]) && Disjoint(Live(s.files[i])[k], Live(s.files[j])[l])
  {
    hide Inv;
    LiveOwned(s, i, k);
    LiveOwned(s, j, l);
    if i == j {
      LiveDisjoint(s, i);
    } else {
      OwnersDiffer(s.owner, i, j, Live(s.files[i])[k], Live(s.files[j])[l]);
    }
  }

  /** What a crash gives one file is nothing that any other file has, will have, or gets from the
      same crash. */
  lemma RecoveredIsNobodyElses(s: State, i: nat, j: nat, k: nat)
    requires Inv(s) && Starts(s) && i != j && i < |s.files| && s.files[i].named && j < |s.files| && s.geo.bs > 0
    requires Recover(s.geo, s.disk, s.files[i]).Recovered? ==> k < |Recover(s.geo, s.disk, s.files[i]).extents|
    ensures Recover(s.geo, s.disk, s.files[i]).Recovered?
    ensures var e := Recover(s.geo, s.disk, s.files[i]).extents[k];
      && (forall l :: 0 <= l < |Live(s.files[j])| ==> Disjoint(e, Live(s.files[j])[l]))
      && (s.files[j].named ==>
          Recover(s.geo, s.disk, s.files[j]).Recovered? &&
          forall l :: 0 <= l < |Recover(s.geo, s.disk, s.files[j]).extents| ==>
            Disjoint(e, Recover(s.geo, s.disk, s.files[j]).extents[l]))
  {
    hide Inv, Starts, Recover, Live, Disjoint, OwnedRange, Total, Content, Bytes, Recovers;
    FileRecovers(s, i);
    var e := Recover(s.geo, s.disk, s.files[i]).extents[k];
    forall l | 0 <= l < |Live(s.files[j])|
      ensures Disjoint(e, Live(s.files[j])[l])
    {
      LiveOwned(s, j, l);
      OwnersDiffer(s.owner, i, j, e, Live(s.files[j])[l]);
    }
    if s.files[j].named {
      FileRecovers(s, j);
      forall l | 0 <= l < |Recover(s.geo, s.disk, s.files[j]).extents|
        ensures Disjoint(e, Recover(s.geo, s.disk, s.files[j]).extents[l])
      {
        OwnersDiffer(s.owner, i, j, e, Recover(s.geo, s.disk, s.files[j]).extents[l]);
      }
    }
  }

  lemma OwnersDiffer(owner: seq<seq<nat>>, i: nat, j: nat, d: Ext, e: Ext)
    requires i != j && d.len > 0 && e.len > 0
    requires OwnedRange(owner, i, d.zone, d.off, d.off + d.len) && OwnedRange(owner, j, e.zone, e.off, e.off + e.len)
    ensures Disjoint(d, e)
  {
    var c := if d.off < e.off then e.off else d.off;
    assert c < d.off + d.len ==> owner[d.zone][c] == i;
    assert c < e.off + e.len ==> owner[e.zone][c] == j;
  }

  lemma LiveDisjoint(s: State, i: nat)
    requires Inv(s) && i < |s.files|
    ensures PairwiseDisjoint(Live(s.files[i]))
    ensures forall z: nat :: ZoneSum(Live(s.files[i]), z) == Charge(s.files[i], z)
  {
    hide Inv, StateOk, ReadersOk, Apart, Owned, LogOk, LockOk, WindowOk, FlagsOk;
    GoodFile(s, i);
    var f := s.files[i];
    if f.alive {
      AllDisjoint(f.st.extents, f.other);
      forall z: nat
        ensures ZoneSum(Live(f), z) == Charge(f, z)
      {
        ZoneSumConcat(f.st.extents, Moved(f.other, f.st.extents), z);
      }
    }
  }

  /** The cells of a zone that files below n own. */
  function OwnedBelow(owner: seq<nat>, n: nat): set<nat> {
    set c | 0 <= c < |owner| && owner[c] < n
  }

  lemma {:induction false} AtMost(c: set<nat>, n: nat)
    requires forall k :: k in c ==> k < n
    ensures |c| <= n
    decreases n
  {
    if n == 0 {
      assert c == {};
    } else {
      AtMost(c - {n - 1}, n - 1);
      assert c <= (c - {n - 1}) + {n - 1};
      assert |c - {n - 1}| >= |c| - 1;
    }
  }

  lemma {:induction false} ChargesAreOwned(s: State, n: nat, z: nat)
    requires Inv(s) && n <= |s.files| && z < |s.disk| && |s.owner| == |s.disk|
    ensures Charges(s.files[..n], z) <= |OwnedBelow(s.owner[z], n)|
  {
    hide Inv, Charge;
    if n > 0 {
      var files, f := s.files[..n], s.files[n - 1];
      assert files[..n - 1] == s.files[..n - 1];
      ChargesAreOwned(s, n - 1, z);
      LiveDisjoint(s, n - 1);
      ChargeIsCells(Live(f), z);
      var cells, below, all := Cells(Live(f), z), OwnedBelow(s.owner[z], n - 1), OwnedBelow(s.owner[z], n);
      forall c | c in cells
        ensures c in all && c !in below
      {
        var k := CellsCovered(Live(f), z, c);
        LiveOwned(s, n - 1, k);
      }
      FitTogether(below, cells, all);
    }
  }

  lemma FitTogether(a: set<nat>, b: set<nat>, all: set<nat>)
    requires a <= all && b <= all && a !! b
    ensures |a| + |b| <= |all|
  {
    assert |a + b| == |a| + |b|;
    Subset(a + b, all);
  }

  lemma Subset(a: set<nat>, b: set<nat>)
    requires a <= b
    ensures |a| <= |b|
  {
    assert b == a + (b - a);
  }

  /** A zone is charged at least nothing and at most what is written of it. */
  lemma UsedIsWritten(s: State, z: nat)
    requires Inv(s) && z < |s.disk|
    ensures |s.used| == |s.disk| == |s.finished| && 0 <= s.used[z] <= |s.disk[z]| <= s.geo.capacity
  {
    hide Good, Charge;
    ChargesAreOwned(s, |s.files|, z);
    assert s.files[..|s.files|] == s.files;
    AtMost(OwnedBelow(s.owner[z], |s.files|), |s.owner[z]|);
  }

  /** Zone::IsFull, and the capacity that a zone has left. */
  predicate IsFull(s: State, z: nat)
    requires z < |s.disk| == |s.finished|
  {
    s.finished[z] || |s.disk[z]| >= s.geo.capacity
  }

  function Sums(s: State, n: nat): (r: (int, int, int))
    requires n <= |s.disk| == |s.finished| == |s.used|
    decreases n
  {
    if n == 0 then (0, 0, 0)
    else
      var r, z := Sums(s, n - 1), n - 1;
      (r.0 + (if IsFull(s, z) then 0 else s.geo.capacity - |s.disk[z]|),
       r.1 + s.used[z],
       r.2 + if IsFull(s, z) then s.geo.capacity - s.used[z] else 0)
  }

  /** GetFreeSpace, GetUsedSpace and GetReclaimableSpace. */
  method SpaceOf(s: State) returns (free: int, used: int, reclaimable: int)
    requires Inv(s)
    ensures |s.disk| == |s.finished| == |s.used| && (free, used, reclaimable) == Sums(s, |s.disk|)
    ensures 0 <= free && 0 <= used && 0 <= reclaimable
    ensures free + used + reclaimable <= |s.disk| * s.geo.capacity
  {
    hide Inv;
    ShapeOf(s);
    free, used, reclaimable := 0, 0, 0;
    for z := 0 to |s.disk|
      invariant (free, used, reclaimable) == Sums(s, z)
      invariant 0 <= free && 0 <= used && 0 <= reclaimable
      invariant free + used + reclaimable <= z * s.geo.capacity
    {
      UsedIsWritten(s, z);
      OneMore(z, s.geo.capacity);
      if !IsFull(s, z) { free := free + (s.geo.capacity - |s.disk[z]|); }
      used := used + s.used[z];
      if IsFull(s, z) { reclaimable := reclaimable + (s.geo.capacity - s.used[z]); }
    }
  }

  lemma ShapeOf(s: State)
    requires Inv(s)
    ensures |s.disk| == |s.finished| == |s.used| == |s.holder| == |s.owner|
  {
    hide Good, Charges;
  }

  lemma OneMore(z: nat, c: nat)
    ensures (z + 1) * c == z * c + c
  {
  }

  // ---------- the used capacity of the device ----------

  /** What files below n charge, over all zones. */
  function Totals(files: seq<File>): nat {
    if files == [] then 0
    else Totals(files[..|files| - 1]) + Total(Live(files[|files| - 1]))
  }

  lemma {:induction false} ChargesAddUp(s: State, n: nat)
    requires Inv(s) && n <= |s.files|
    ensures SumTo((z: nat) => Charges(s.files[..n], z), |s.disk|) == Totals(s.files[..n])
  {
    hide Inv, Charge, Live;
    var files, zones := s.files[..n], |s.disk|;
    if n == 0 {
      NoCharges(zones);
    } else {
      var f := s.files[n - 1];
      assert files[..n - 1] == s.files[..n - 1];
      ChargesAddUp(s, n - 1);
      LiveDisjoint(s, n - 1);
      forall k | 0 <= k < |Live(f)|
        ensures Live(f)[k].zone < zones
      {
        LiveOwned(s, n - 1, k);
      }
      ZoneSumsAddUp(Live(f), zones);
      SumOfParts(z => Charges(s.files[..n - 1], z), z => ZoneSum(Live(f), z), z => Charges(files, z), zones);
    }
  }

  lemma {:induction false} NoCharges(zones: nat)
    ensures SumTo((z: nat) => Charges([], z), zones) == 0
  {
    if zones > 0 { NoCharges(zones - 1); }
  }

  lemma {:induction false} SumsAreSums(s: State, n: nat)
    requires Inv(s) && n <= |s.disk| == |s.finished| == |s.used|
    ensures Sums(s, n).1 == SumTo((z: nat) => Charges(s.files, z), n)
  {
    hide Good, Charges, DiskOk;
    if n > 0 { SumsAreSums(s, n - 1); }
  }

  /** The used capacity of all zones together is the length of all files, each counted once,
      and the extents that a migration holds twice. */
  lemma UsedIsLengthOfFiles(s: State)
    requires Inv(s)
    ensures |s.disk| == |s.finished| == |s.used| && Sums(s, |s.disk|).1 == Totals(s.files)
  {
    hide Inv, Charges, Totals;
    ShapeOf(s);
    SumsAreSums(s, |s.disk|);
    ChargesAddUp(s, |s.files|);
    assert s.files[..|s.files|] == s.files;
  }

  /** GetUsedSpace. */
  function DeviceUsed(s: State): int {
    if |s.disk| == |s.finished| == |s.used| then Sums(s, |s.disk|).1 else 0
  }

  /** No file is being written or migrated. */
  predicate AtRest(s: State) {
    forall i :: 0 <= i < |s.files| && s.files[i].alive ==> !s.files[i].writing && s.files[i].phase == Idle
  }

  function Lengths(disk: Disk, files: seq<File>): nat {
    if files == [] then 0
    else Lengths(disk, files[..|files| - 1]) + if files[|files| - 1].alive then |Bytes(disk, files[|files| - 1])| else 0
  }

  lemma RestingLength(s: State, i: nat)
    requires Inv(s) && AtRest(s) && i < |s.files|
    ensures Total(Live(s.files[i])) == if s.files[i].alive then |Bytes(s.disk, s.files[i])| else 0
  {
    hide Inv, ReadersOk, Apart, Owned, Inside, LogOk, LockOk, StateOk, FileOk, SameBytes, Content;
    GoodFile(s, i);
    var f := s.files[i];
    NothingMoved(f.st.extents);
    assert f.st.extents + [] == f.st.extents;
    if f.alive {
      FactsAt(s, i);
      ContentLength(s.disk, f.st.extents);
    }
  }

  lemma ContentLength(disk: Disk, es: seq<Ext>)
    requires AllInside(disk, es)
    ensures |Content(disk, es) + []| == Total(es)
  {
  }

  lemma {:induction false} RestingTotals(s: State, n: nat)
    requires Inv(s) && AtRest(s) && n <= |s.files|
    ensures Totals(s.files[..n]) == Lengths(s.disk, s.files[..n])
  {
    hide Inv, AtRest, Live, Total, Bytes;
    if n > 0 {
      assert s.files[..n][..n - 1] == s.files[..n - 1];
      RestingTotals(s, n - 1);
      RestingLength(s, n - 1);
    }
  }

  lemma {:induction false} SameLengthsOfBytes(s: State, s': State, n: nat)
    requires n <= |s.files| == |s'.files|
    requires forall i :: 0 <= i < n ==>
      s'.files[i].alive == s.files[i].alive &&
      (s.files[i].alive ==> Bytes(s'.disk, s'.files[i]) == Bytes(s.disk, s.files[i]))
    ensures Lengths(s'.disk, s'.files[..n]) == Lengths(s.disk, s.files[..n])
  {
    hide Bytes;
    if n > 0 {
      assert s.files[..n][..n - 1] == s.files[..n - 1] && s'.files[..n][..n - 1] == s'.files[..n - 1];
      SameLengthsOfBytes(s, s', n - 1);
    }
  }

  /** Steps that only move the bytes of files around, like a whole migration from its begin
      to the drop of the old extents, leave the used capacity of the device as it was. */
  lemma MigrationConservesUsed(s: State, s': State)
    requires Inv(s) && Inv(s') && AtRest(s) && AtRest(s') && |s.files| == |s'.files|
    requires forall i :: 0 <= i < |s.files| ==>
      s'.files[i].alive == s.files[i].alive &&
      (s.files[i].alive ==> Bytes(s'.disk, s'.files[i]) == Bytes(s.disk, s.files[i]))
    ensures DeviceUsed(s') == DeviceUsed(s)
  {
    hide Inv, AtRest, Bytes, Sums, Totals, Lengths;
    UsedIsLengthOfFiles(s);
    UsedIsLengthOfFiles(s');
    RestingTotals(s, |s.files|);
    RestingTotals(s', |s'.files|);
    SameLengthsOfBytes(s, s', |s.files|);
    assert s.files[..|s.files|] == s.files && s'.files[..|s'.files|] == s'.files;
  }
}
