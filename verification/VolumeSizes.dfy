/** The logged sizes of files: when a mount counts every byte. */
module VolumeSizes {
  import opened Common
  import opened Coding
  import opened Blocks
  import opened ZoneData
  import opened ZoneFiles
  import opened Accounting
  import opened Volume
  import opened VolumeFrame
  import opened VolumeSteps
  import opened VolumeMoves
  import opened VolumeCrash
  import opened VolumeRaces

  // ---------- sizes that a mount did not count ----------

  /** `file_size_` of every file counts everything that was appended to it, but for what an append
      has yet to count. */
  predicate NoneMissed(s: State) {
    forall i :: 0 <= i < |s.files| && s.files[i].alive ==> s.files[i].missed == 0
  }

  /** A step leaves what is not counted of every file as it is. */
  predicate SameMissed(s: State, s': State) {
    && |s'.files| >= |s.files|
    && (forall i :: 0 <= i < |s.files| ==>
         s'.files[i].missed == s.files[i].missed && (s'.files[i].alive ==> s.files[i].alive))
    && (forall i :: |s.files| <= i < |s'.files| ==> s'.files[i].missed == 0)
  }

  /** A file is longer afterwards, in a zone or in its list, or there is one more. */
  predicate Longer(a: Action) { a.Write? || a.Grow? || a.Push? || a.Create? }

  lemma WriterMisses(s: State, a: Action)
    requires Enabled(s, a) && IsWriter(a) && !Longer(a)
    ensures SameMissed(s, ApplyWriter(s, a))
  {
    hide Pending, ActiveOk, Fits, HasRoom;
  }

  lemma LongerMisses(s: State, a: Action)
    requires Enabled(s, a) && Longer(a)
    ensures SameMissed(s, ApplyWriter(s, a))
  {
    hide Pending, ActiveOk, Segment, HasRoom, PushedState, Grown, Aligned;
  }

  lemma RecordMisses(s: State, a: Action)
    requires Enabled(s, a) && IsRecord(a)
    ensures SameMissed(s, ApplyRecord(s, a))
  {
    hide Uncharge, ListFits, Allocated, ListFor;
  }

  lemma ReaderMisses(s: State, a: Action)
    requires Enabled(s, a) && IsReader(a)
    ensures SameMissed(s, ApplyReader(s, a))
  {
    hide Total, Inside;
  }

  lemma MoverMisses(s: State, a: Action)
    requires Enabled(s, a) && IsMover(a)
    ensures SameMissed(s, ApplyMover(s, a))
  {
    hide Fits, HasRoom, Lookup, Inside, Moved, Uncharge, Shortened;
  }

  lemma CrashMisses(s: State)
    requires Inv(s) && AllExact(s) && AllCounted(s)
    ensures s.geo.bs > 0 && NoneMissed(CrashState(s))
  {
    hide Inv, CrashFile, Charges, SizeHolds;
    OwnersAll(s);
    forall i | 0 <= i < |s.files| && CrashFile(s.geo, s.disk, s.files[i]).alive
      ensures CrashFile(s.geo, s.disk, s.files[i]).missed == 0
    {
      CrashedIsNamed(s.geo, s.disk, s.files[i]);
      CrashCountsIff(s, i);
    }
  }

  lemma CrashedIsNamed(geo: Geometry, disk: Disk, f: File)
    requires geo.bs > 0
    ensures CrashFile(geo, disk, f).alive ==> f.named
  {
    hide Recover;
  }

  /** Every step, but for a crash at which a logged size does not hold, leaves nothing uncounted. */
  lemma StepMissesNothing(s: State, a: Action)
    requires Inv(s) && Enabled(s, a) && NoneMissed(s) && (a.Crash? ==> AllExact(s) && AllCounted(s))
    ensures NoneMissed(Apply(s, a))
  {
    hide Inv, Enabled, AllExact, AllCounted, ApplyWriter, ApplyRecord, ApplyReader, ApplyMover, CrashState, SameMissed,
      NoneMissed;
    if a.Crash? {
      CrashMisses(s);
    } else {
      if IsWriter(a) {
        if Longer(a) { LongerMisses(s, a); } else { WriterMisses(s, a); }
      } else if IsRecord(a) {
        RecordMisses(s, a);
      } else if IsReader(a) {
        ReaderMisses(s, a);
      } else if IsMover(a) {
        MoverMisses(s, a);
      } else {
        ZoneMisses(s, a);
      }
      SameMissesNothing(s, Apply(s, a));
    }
  }

  lemma ZoneMisses(s: State, a: Action)
    requires Enabled(s, a) && (a.Finish? || a.Reset?)
    ensures SameMissed(s, Apply(s, a))
  {
  }

  lemma SameMissesNothing(s: State, s': State)
    requires NoneMissed(s) && SameMissed(s, s')
    ensures NoneMissed(s')
  {
  }

  // ---------- orderly records have sizes that hold ----------

  predicate UnderWay(f: File) { f.enc.SizeRead? || f.enc.ListRead? || f.enc.BothRead? }

  /** The size in the log holds, and so does that of a record under way, with the list and the start
      that the file has. */
  predicate Sized(geo: Geometry, disk: Disk, f: File) {
    && SizeHolds(geo, disk, f.log)
    && (UnderWay(f) ==> SizeKnown(geo, disk, f.enc.size, f.st.extents, MemoryStart(f)))
  }

  predicate AllSized(s: State) {
    forall i :: 0 <= i < |s.files| && s.files[i].alive ==> Sized(s.geo, s.disk, s.files[i])
  }

  lemma SizedIsCounted(s: State)
    requires Inv(s) && AllSized(s)
    ensures AllCounted(s)
  {
    hide Inv;
    forall i | 0 <= i < |s.files| && s.files[i].named
      ensures SizeHolds(s.geo, s.disk, s.files[i].log)
    {
      NamedIsAlive(s, i);
    }
  }

  /** Between the read of the size and that of the list and the start, nothing that is appended to
      the file gets into the list: what the size does not count stands behind the start. */
  lemma SizeIsKnown(s: State, i: nat)
    requires Inv(s) && Lives(s, i) && s.files[i].missed == 0 && !s.files[i].window.Lagging?
    requires s.files[i].mode != Direct ==> s.files[i].uncounted == 0
    ensures SizeKnown(s.geo, s.disk, FileSize(s.files[i]), s.files[i].st.extents, MemoryStart(s.files[i]))
  {
    hide Inv, StateOk, LogOk, LockOk, RegionOk, Inside, AllInside, Content, Total, Resolve;
    var f := s.files[i];
    FactsAt(s, i);
    OwnersAll(s);
    SizeIsLength(s.geo, s.disk, f.mode, f.st);
    ContentLong(s.disk, f.st.extents);
    if Pending(s.disk, f.mode, f.st) != [] {
      StartResolves(s.geo, s.disk, f.st.start.value);
    }
  }

  lemma StartResolves(geo: Geometry, disk: Disk, p: Pos)
    requires DiskOk(geo, disk) && p.zone < |disk| && p.off <= |disk[p.zone]|
    ensures Resolve(geo, p) == p
  {
    assert |disk[p.zone]| <= geo.capacity;
  }

  /** Zones that only grow keep what there is to recover. */
  lemma SizedGrows(geo: Geometry, disk: Disk, disk': Disk, f: File)
    requires Sized(geo, disk, f) && |disk'| == |disk|
    requires forall z :: 0 <= z < |disk| ==> |disk[z]| <= |disk'[z]|
    ensures Sized(geo, disk', f)
  {
    hide Resolve, Total;
  }

  /** A step of one file in memory, and the others as they were. */
  predicate OnlyFile(s: State, s': State, i: nat) {
    && s'.geo == s.geo && s'.disk == s.disk && |s'.files| == |s.files| && i < |s.files|
    && forall j :: 0 <= j < |s.files| && j != i ==> s'.files[j] == s.files[j]
  }

  lemma OneSized(s: State, s': State, i: nat)
    requires AllSized(s) && OnlyFile(s, s', i) && (s'.files[i].alive ==> Sized(s.geo, s.disk, s'.files[i]))
    ensures AllSized(s')
  {
    hide Sized;
  }

  /** A file whose list, active extent start, log and record are the same. */
  predicate SameRecord(f: File, f': File) {
    && f'.log == f.log && (f'.alive ==> f.alive)
    && (UnderWay(f') ==>
         UnderWay(f) && f'.enc.size == f.enc.size && f'.st.extents == f.st.extents && MemoryStart(f') == MemoryStart(f))
  }

  lemma SameRecordSized(geo: Geometry, disk: Disk, f: File, f': File)
    requires SameRecord(f, f') && f.alive && Sized(geo, disk, f)
    ensures Sized(geo, disk, f')
  {
    hide SizeKnown;
  }

  /** Every file has the same list, start, log and record, or none under way. */
  predicate SameRecords(s: State, s': State) {
    && s'.geo == s.geo && |s'.disk| == |s.disk| && |s'.files| >= |s.files|
    && (forall z :: 0 <= z < |s.disk| ==> |s.disk[z]| <= |s'.disk[z]|)
    && (forall i :: 0 <= i < |s.files| ==> SameRecord(s.files[i], s'.files[i]))
    && (forall i :: |s.files| <= i < |s'.files| ==>
         s'.files[i].log == Logged(0, [], None, 0, true) && s'.files[i].enc == NoRecord)
  }

  lemma SameRecordsSized(s: State, s': State)
    requires AllSized(s) && SameRecords(s, s')
    ensures AllSized(s')
  {
    hide Sized, SameRecord;
    forall i | 0 <= i < |s'.files| && s'.files[i].alive
      ensures Sized(s'.geo, s'.disk, s'.files[i])
    {
      if i < |s.files| {
        assert SameRecord(s.files[i], s'.files[i]);
        AliveBefore(s.files[i], s'.files[i]);
        SameRecordSized(s.geo, s.disk, s.files[i], s'.files[i]);
        SizedGrows(s.geo, s.disk, s'.disk, s'.files[i]);
      } else {
        NewIsSized(s'.geo, s'.disk, s'.files[i]);
      }
    }
  }

  lemma AliveBefore(f: File, f': File)
    requires SameRecord(f, f')
    ensures f'.alive ==> f.alive
  {
  }

  lemma NewIsSized(geo: Geometry, disk: Disk, f: File)
    requires f.log == Logged(0, [], None, 0, true) && f.enc == NoRecord
    ensures Sized(geo, disk, f)
  {
  }

  lemma WriterRecords(s: State, a: Action)
    requires Enabled(s, a) && Orderly(s, a) && AllCalm(s) && IsWriter(a) && !Longer(a)
    ensures SameRecords(s, ApplyWriter(s, a))
  {
    hide Pending, ActiveOk, Fits, HasRoom, Segment;
  }

  lemma LongerRecords(s: State, a: Action)
    requires Enabled(s, a) && Orderly(s, a) && Longer(a)
    ensures SameRecords(s, ApplyWriter(s, a))
  {
    hide Pending, ActiveOk, HasRoom, Segment, PushedState, Grown, Aligned;
  }

  lemma MoverRecords(s: State, a: Action)
    requires Enabled(s, a) && Orderly(s, a) && IsMover(a) && !a.MoveCopy? && !a.MoveWaste?
    ensures SameRecords(s, ApplyMover(s, a))
  {
    hide HasRoom, Lookup, Inside, Moved, Uncharge, Shortened, Fits, MayTake;
  }

  lemma WasteRecords(s: State, i: nat, z: nat, bytes: seq<byte>)
    requires Enabled(s, MoveWaste(i, z, bytes))
    ensures SameRecords(s, ApplyMover(s, MoveWaste(i, z, bytes)))
  {
    hide HasRoom, Aligned;
  }

  lemma CopyRecords(s: State, i: nat, k: nat, z: nat, pad: seq<byte>)
    requires Enabled(s, MoveCopy(i, k, z, pad))
    ensures SameRecords(s, Copied(s, i, k, z, pad))
  {
    hide Lookup, Inside, Shortened, Fits, Copied, Enabled, HasRoom;
    CopyFacts(s, i, k, z, pad);
    CopiedIs(s, i, k, z, pad);
  }

  lemma ReaderRecords(s: State, a: Action)
    requires Enabled(s, a) && IsReader(a)
    ensures SameRecords(s, ApplyReader(s, a))
  {
    hide Total, Inside;
  }

  lemma RecordSized(s: State, a: Action)
    requires Inv(s) && Enabled(s, a) && AllCalm(s) && AllSized(s) && NoneMissed(s) && IsRecord(a) && !a.Encode?
    requires !a.Log?
    ensures AllSized(ApplyRecord(s, a))
  {
    hide Inv, ListFor, Uncharge, SizeKnown, Calm, AllSized, AllCalm;
    var s' := ApplyRecord(s, a);
    assert SameRecords(s, s');
    SameRecordsSized(s, s');
  }

  lemma EncodeSized(s: State, i: nat, kind: Kind)
    requires Inv(s) && Enabled(s, Encode(i, kind)) && Orderly(s, Encode(i, kind)) && AllSized(s) && NoneMissed(s)
    ensures AllSized(ApplyRecord(s, Encode(i, kind)))
  {
    hide Inv, SizeKnown, FileSize, Total;
    SizeIsKnown(s, i);
    OneSized(s, ApplyRecord(s, Encode(i, kind)), i);
  }

  lemma LogSized(s: State, i: nat)
    requires Enabled(s, Log(i)) && AllCalm(s) && AllSized(s)
    ensures AllSized(ApplyRecord(s, Log(i)))
  {
    hide SizeKnown, Allocated, ListFits, LoggedFile, Settled;
    LoggedParts(s.disk, s.files[i]);
    LoggedMarks(s.disk, s.files[i]);
    OneSized(s, ApplyRecord(s, Log(i)), i);
  }

  lemma LoggedMarks(disk: Disk, f: File)
    requires f.enc.BothRead? && (f.window.Fresh? ==> f.window.at.zone < |disk|)
    ensures LoggedFile(disk, f).enc.Marking?
  {
  }

  /** A zone that is reset is neither that of a logged start nor that of one in memory. */
  lemma ResetSized(s: State, z: nat)
    requires Inv(s) && Enabled(s, Reset(z)) && AllCalm(s) && AllSized(s)
    ensures AllSized(Apply(s, Reset(z)))
  {
    hide Inv, SizeKnown, Total, Calm, UnderWay, Sized;
    var disk' := s.disk[z := []];
    OwnersAll(s);
    forall i | 0 <= i < |s.files| && s.files[i].alive
      ensures Sized(s.geo, disk', s.files[i])
    {
      UnusedZone(s, z, i);
      StartsStay(s, z, i, disk');
    }
  }

  lemma StartsStay(s: State, z: nat, i: nat, disk': Disk)
    requires Inv(s) && i < |s.files| && s.files[i].alive && !Pins(s.files[i], z) && Calm(s.files[i])
    requires Sized(s.geo, s.disk, s.files[i]) && z < |s.disk| && disk' == s.disk[z := []]
    ensures Sized(s.geo, disk', s.files[i])
  {
    hide Inv, Total, FileOk, LockOk, Part, IsSuffix, ListFits, FileContent, AllInside, ActiveOk, Resolve;
    var f := s.files[i];
    FactsAt(s, i);
    OwnersAll(s);
    assert f.log.exact && f.log.start == f.st.logged;
    if f.log.start.Some? { StartResolves(s.geo, s.disk, f.log.start.value); }
    if UnderWay(f) && MemoryStart(f).Some? { StartResolves(s.geo, s.disk, MemoryStart(f).value); }
  }

  lemma CrashSized(s: State)
    requires Inv(s) && AllExact(s) && AllCounted(s)
    ensures s.geo.bs > 0 && AllSized(CrashState(s))
  {
    hide Inv, CrashFile, Charges, SizeHolds;
    OwnersAll(s);
    forall i | 0 <= i < |s.files| && CrashFile(s.geo, s.disk, s.files[i]).alive
      ensures Sized(s.geo, s.disk, CrashFile(s.geo, s.disk, s.files[i]))
    {
      CrashedIsNamed(s.geo, s.disk, s.files[i]);
      CrashCountsIff(s, i);
      CrashedLog(s.geo, s.disk, s.files[i]);
    }
  }

  lemma CrashedLog(geo: Geometry, disk: Disk, f: File)
    requires geo.bs > 0 && CrashFile(geo, disk, f).alive && CrashFile(geo, disk, f).missed == 0
    ensures Sized(geo, disk, CrashFile(geo, disk, f))
  {
    hide Recover, Total, RecoveredSize;
  }

  /** While records and changes of the list do not overlap, the size of every record holds. */
  lemma OrderlyStaysSized(s: State, a: Action)
    requires Inv(s) && Enabled(s, a) && Orderly(s, a) && AllCalm(s) && AllSized(s) && NoneMissed(s)
    ensures AllSized(Apply(s, a))
  {
    hide Inv, Enabled, Orderly, AllCalm, AllSized, NoneMissed, ApplyWriter, ApplyRecord, ApplyReader, ApplyMover,
      CrashState, SameRecords;
    if IsWriter(a) {
      if Longer(a) { LongerRecords(s, a); } else { WriterRecords(s, a); }
      SameRecordsSized(s, ApplyWriter(s, a));
    } else if a.Encode? {
      EncodeSized(s, a.i, a.kind);
    } else if a.Log? {
      LogSized(s, a.i);
    } else if IsRecord(a) {
      RecordSized(s, a);
    } else if IsReader(a) {
      ReaderRecords(s, a);
      SameRecordsSized(s, ApplyReader(s, a));
    } else if IsMover(a) {
      match a {
        case MoveCopy(i, k, z, pad) =>
          CopyRecords(s, i, k, z, pad);
          CopyFacts(s, i, k, z, pad);
        case MoveWaste(i, z, bytes) => WasteRecords(s, i, z, bytes);
        case _ => MoverRecords(s, a);
      }
      SameRecordsSized(s, ApplyMover(s, a));
    } else {
      ZoneSized(s, a);
    }
  }

  lemma ZoneSized(s: State, a: Action)
    requires Inv(s) && Enabled(s, a) && AllCalm(s) && AllSized(s) && !IsWriter(a) && !IsRecord(a) && !IsReader(a)
    requires !IsMover(a)
    ensures AllSized(Apply(s, a))
  {
    hide Inv, AllCalm, CrashState, Sized;
    match a {
      case Reset(z) => ResetSized(s, z);
      case Crash =>
        CalmIsExact(s);
        SizedIsCounted(s);
        CrashSized(s);
      case _ =>
    }
  }
}
