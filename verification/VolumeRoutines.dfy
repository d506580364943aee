/** Routines of a mounted volume that take its steps one after the other: a file is appended to
    over any number of zones, the extents of a file are migrated, unused zones are reset. */
module VolumeRoutines {
  import opened Common
  import opened Coding
  import opened Blocks
  import opened ZoneData
  import opened ZoneFiles
  import FileReads
  import opened Accounting
  import opened Volume
  import opened VolumeFrame
  import opened VolumeSteps
  import opened VolumeMoves
  import opened VolumeStarts
  import opened VolumeSafety

  /** The same files, each with the same bytes, but that file i has more. */
  predicate SameBut(s: State, s': State, i: nat, data: seq<byte>) {
    && |s'.files| == |s.files|
    && forall j :: 0 <= j < |s.files| ==>
         && s'.files[j].alive == s.files[j].alive
         && (s.files[j].alive ==> Bytes(s'.disk, s'.files[j]) == Bytes(s.disk, s.files[j]) + if j == i then data
              else [])
  }

  /** No other file changed. */
  predicate Others(s: State, s': State, i: nat) {
    && |s'.files| == |s.files| && i < |s.files| && s'.geo == s.geo && |s'.disk| == |s.disk| && |s'.holder| == |s.holder|
    && s'.files[i].alive == s.files[i].alive && s'.files[i].mode == s.files[i].mode
    && s'.files[i].readers == s.files[i].readers
    && s'.files[i].named == s.files[i].named && s'.files[i].writing == s.files[i].writing
    && forall j :: 0 <= j < |s.files| && j != i ==> s'.files[j] == s.files[j]
  }

  lemma Then(s0: State, s1: State, s2: State, i: nat, a: seq<byte>, b: seq<byte>)
    requires SameBut(s0, s1, i, a) && SameBut(s1, s2, i, b) && Others(s0, s1, i) && Others(s1, s2, i)
    ensures SameBut(s0, s2, i, a + b) && Others(s0, s2, i)
  {
    hide Bytes;
    forall j | 0 <= j < |s0.files| && s0.files[j].alive
      ensures Bytes(s2.disk, s2.files[j]) == Bytes(s0.disk, s0.files[j]) + if j == i then a + b else []
    {
      assert Bytes(s0.disk, s0.files[j]) + a + b == Bytes(s0.disk, s0.files[j]) + (a + b);
    }
  }

  /** Steps that append nothing. */
  lemma Thence(s0: State, s1: State, s2: State, i: nat)
    requires SameBut(s0, s1, i, []) && SameBut(s1, s2, i, []) && Others(s0, s1, i) && Others(s1, s2, i)
    ensures SameBut(s0, s2, i, []) && Others(s0, s2, i)
  {
    hide SameBut, Others;
    Then(s0, s1, s2, i, [], []);
    var none: seq<byte> := [];
    assert none + none == none;
  }

  lemma Unchanged(s: State, i: nat)
    requires i < |s.files|
    ensures SameBut(s, s, i, []) && Others(s, s, i) && OnlyFilled(s, s)
  {
    hide Bytes;
    forall j | 0 <= j < |s.files| && s.files[j].alive
      ensures Bytes(s.disk, s.files[j]) == Bytes(s.disk, s.files[j]) + []
    {
    }
  }

  /** Action a takes s to t, and changes no file but i. */
  predicate Leads(s: State, a: Action, t: State, i: nat) {
    Enabled(s, a) && Intact(s, a) && Apply(s, a) == t && Others(s, t, i)
  }

  /** What a step that is not a crash does to the bytes. */
  lemma StepBytes(s: State, s': State, a: Action, i: nat)
    requires BytesKept(s, s', a) && Others(s, s', i) && !a.Crash?
    requires forall j: nat :: j != i ==> Appended(a, j) == []
    ensures SameBut(s, s', i, Appended(a, i))
  {
    hide Bytes;
  }

  /** The file may be written to, and none of its records is under way. */
  predicate Ready(s: State, i: nat) { Writes(s, i) && s.files[i].enc == NoRecord && s.files[i].mode == Direct }

  predicate NothingPends(s: State, i: nat) {
    i < |s.files| && ActiveOk(s.disk, s.files[i].mode, s.files[i].st) &&
      Pending(s.disk, s.files[i].mode, s.files[i].st) == []
  }

  /** A buffered or sparse file may be written to. */
  predicate Grows(s: State, i: nat) { Writes(s, i) && s.files[i].mode != Direct }

  /** A payload as it is written: with a header if the file is sparse, and padded with zeros. */
  function Stored(mode: Mode, payload: seq<byte>, bs: nat): seq<byte>
    requires bs > 0
  {
    if mode == Sparse then Segment(payload, bs)
    else payload + Zeros(RoundUp(|payload|, bs) - |payload|)
  }

  predicate HasZone(s: State, i: nat) { i < |s.files| && s.files[i].st.active.Some? }

  /** The active zone of a file has room. */
  predicate HasActiveRoom(s: State, i: nat) {
    i < |s.files| && s.files[i].st.active.Some? && s.files[i].st.active.value < |s.disk| &&
      |s.disk[s.files[i].st.active.value]| < s.geo.capacity
  }

  lemma RoomIsZone(s: State, i: nat)
    requires HasActiveRoom(s, i)
    ensures HasZone(s, i)
  {
  }

  predicate SomeZone(s: State) { exists z :: 0 <= z < |s.disk| && FreeZone(s, z) }

  predicate SomeTarget(s: State, len: nat) {
    exists z :: 0 <= z < |s.disk| && FreeZone(s, z) && |s.disk[z]| + len <= s.geo.capacity
  }

  /** Nothing happened to the zones but that something was appended to them. */
  predicate OnlyFilled(s: State, s': State) {
    && s'.geo == s.geo && s'.holder == s.holder && s'.finished == s.finished && |s'.disk| == |s.disk|
    && forall z :: 0 <= z < |s.disk| ==> |s.disk[z]| <= |s'.disk[z]|
  }

  /** Zones that only fill do not become a target again. */
  lemma NoTargetStays(s: State, s': State)
    requires OnlyFilled(s, s')
    ensures forall len: nat :: !SomeTarget(s, len) ==> !SomeTarget(s', len)
  {
    forall len: nat | SomeTarget(s', len)
      ensures SomeTarget(s, len)
    {
      var z :| 0 <= z < |s'.disk| && FreeZone(s', z) && |s'.disk[z]| + len <= s'.geo.capacity;
      assert FreeZone(s, z) && |s.disk[z]| + len <= s.geo.capacity;
    }
  }

  predicate FreeZone(s: State, z: nat) { HasRoom(s, z) && s.holder[z] == Free }

  /** How a migration ends: nobody may migrate the file now; a reader is in the file, and the
      mover waits for it; the replace record is lost. */
  datatype Migration = Done | Skipped | Waits | NotPersisted

  class MountedVolume {
    var s: State

    ghost predicate Valid()
      reads this
    {
      Inv(s) && Starts(s)
    }

    constructor (geo: Geometry, zones: nat)
      requires geo.Valid()
      ensures Valid() && s == NewState(geo, zones)
    {
      s := NewState(geo, zones);
      NewStateInv(geo, zones);
    }

    method Do(a: Action)
      requires Valid() && Enabled(s, a) && Intact(s, a) && !a.Crash?
      modifies this
      ensures Valid() && s == Apply(old(s), a) && BytesKept(old(s), s, a)
    {
      hide Inv, Starts, Enabled, Apply, BytesKept, Intact;
      StepKeepsInv(s, a);
      StepKeepsStarts(s, a);
      s := Apply(s, a);
    }

    /** A step of file i. */
    method DoFile(a: Action, i: nat, ghost s': State)
      requires Valid() && Leads(s, a, s', i) && !a.Crash? && forall j: nat :: Appended(a, j) == []
      modifies this
      ensures Valid() && s == s' && SameBut(old(s), s, i, []) && Others(old(s), s, i)
    {
      hide Inv, Starts, Enabled, Apply, BytesKept, Bytes, SameBut, Others, Intact;
      ghost var s0 := s;
      Do(a);
      StepBytes(s0, s, a, i);
    }

    /** The three reads of a record. */
    method ReadRecord(i: nat, kind: Kind)
      requires Valid() && Lives(s, i) && s.files[i].enc == NoRecord && (kind == Swap ==> s.files[i].phase == Unsynced)
      modifies this
      ensures Valid() && SameBut(old(s), s, i, []) && Others(old(s), s, i)
      ensures Recordable(old(s), i) && s == AfterBoth(old(s), i, kind)
    {
      hide Inv, Starts, Bytes, SameBut, Others, RecordedFile, LoggedFile, Leads;
      ghost var s0 := s;
      IsRecordable(s, i);
      EncodeLeads(s, i, kind);
      EncodeListLeads(s, i, kind);
      EncodeStartLeads(s, i, kind);
      DoFile(Encode(i, kind), i, AfterSize(s0, i, kind));
      ghost var s1 := s;
      DoFile(EncodeList(i), i, AfterList(s0, i, kind));
      ghost var s2 := s;
      Thence(s0, s1, s2, i);
      DoFile(EncodeStart(i), i, AfterBoth(s0, i, kind));
      Thence(s0, s2, s, i);
    }

    /** SyncFileMetadata of a file of which nobody else encodes a record: it is read, logged and
        marked; or the device fails it, and nothing changes. */
    method Persist(i: nat, kind: Kind, works: bool)
      requires Valid() && Lives(s, i) && s.files[i].enc == NoRecord && (kind == Swap ==> s.files[i].phase == Unsynced)
      modifies this
      ensures Valid() && SameBut(old(s), s, i, []) && Others(old(s), s, i)
      ensures Recordable(old(s), i) && s == if works then
        SetFile(old(s), i, RecordedFile(old(s).disk, old(s).files[i], kind)) else old(s)
      ensures works ==> Recorded(old(s).files[i], s.files[i], kind)
    {
      hide Inv, Starts, Bytes, SameBut, Others, RecordedFile, LoggedFile, Leads;
      ghost var s0 := s;
      IsRecordable(s, i);
      RecordedGives(s0, i, kind);
      LoseLeads(s, i, kind);
      LogLeads(s, i, kind);
      MarkLeads(s, i, kind);
      ReadRecord(i, kind);
      ghost var s2 := s;
      if !works {
        DoFile(LoseRecord(i), i, s0);
        Unchanged(s, i);
        return;
      }
      DoFile(Log(i), i, AfterLog(s0, i, kind));
      ghost var s3 := s;
      Thence(s0, s2, s3, i);
      DoFile(Mark(i), i, SetFile(s0, i, RecordedFile(s0.disk, s0.files[i], kind)));
      Thence(s0, s3, s, i);
    }

    // ---------- appends ----------

    /** ZoneFile::PushExtent: pending bytes become an extent, and the active extent start follows. */
    method PushExtent(i: nat)
      requires Valid() && Ready(s, i)
      modifies this
      ensures Valid() && Ready(s, i) && SameBut(old(s), s, i, []) && Others(old(s), s, i)
      ensures s.files[i].st.active == old(s).files[i].st.active && s.disk == old(s).disk && NothingPends(s, i)
    {
      hide Inv, Starts, Enabled, Apply, BytesKept, Bytes, SameBut, Others, NothingPends;
      ghost var s0 := s;
      CanPush(s, i);
      if s.files[i].st.active.None? || s.files[i].st.filepos == s.files[i].st.size {
        Unchanged(s, i);
        return;
      }
      Do(Push(i));
      ghost var s1 := s;
      AfterPush(s0, s1, i);
      StepBytes(s0, s1, Push(i), i);
      DoFile(Advance(i), i, SetFile(s1, i, s1.files[i].(window := Quiet)));
      Thence(s0, s1, s, i);
      AfterAdvance(s0, s1, s, i);
    }

    /** ZoneFile::AllocateNewZone: some free zone with room, if there is one, of which the log
        learns. */
    method AllocateNewZone(i: nat) returns (ok: bool)
      requires Valid() && Ready(s, i) && s.files[i].st.active.None?
      modifies this
      ensures Valid() && Ready(s, i) && SameBut(old(s), s, i, []) && Others(old(s), s, i)
      ensures ok == SomeZone(old(s)) && (ok ==> HasActiveRoom(s, i) && HasZone(s, i)) && (!ok ==> s == old(s))
    {
      hide Inv, Starts, Enabled, Apply, BytesKept, Bytes, SameBut, Others, HasRoom, FreeZone, RecordedFile,
        HasActiveRoom;
      ghost var s0 := s;
      if z: nat :| z < |s.disk| && FreeZone(s, z) {
        CanTake(s, i, z);
        Do(Acquire(i, z));
        ghost var s1 := s;
        StepBytes(s0, s1, Acquire(i, z), i);
        DoFile(SetStart(i, z), i, Starting(s0, i, z));
        ghost var s2 := s;
        Thence(s0, s1, s2, i);
        StartingFacts(s0, i, z);
        Persist(i, Tail, true);
        Thence(s0, s2, s, i);
        Started(s0, s, i, z);
        RoomIsZone(s, i);
        return true;
      }
      Unchanged(s, i);
      return false;
    }

    /** The start of a turn of ZoneFile::Append: a full zone is left and the next one is taken. */
    method MakeRoom(i: nat) returns (ok: bool)
      requires Valid() && Ready(s, i)
      modifies this
      ensures Valid() && Ready(s, i) && SameBut(old(s), s, i, []) && Others(old(s), s, i)
      ensures (ok ==> HasActiveRoom(s, i)) && (!ok ==> !SomeZone(s))
    {
      hide Inv, Starts, Enabled, Apply, BytesKept, Bytes, SameBut, Others, NothingPends;
      ghost var s0 := s;
      Unchanged(s, i);
      ActiveInside(s, i);
      if HasActiveRoom(s, i) {
        return true;
      }
      if s.files[i].st.active.Some? {
        var z := s.files[i].st.active.value;
        PushExtent(i);
        ghost var s1 := s;
        SameGeometry(s0, s1, i);
        LeaveZone(s1, i, z);
        DoFile(Full(i), i, Left(s1, i));
        ghost var s2 := s;
        Thence(s0, s1, s2, i);
        DoFile(Release(z), i, Left(s1, i).(holder := s1.holder[z := Free]));
        Thence(s0, s2, s, i);
      }
      ghost var s3 := s;
      ok := AllocateNewZone(i);
      Thence(s0, s3, s, i);
    }

    /** ZoneFile::Append on a volume: block-aligned data, over any number of zones. Its size is
        passed as a 32-bit integer. It fails only when no free zone has room. */
    method Append(i: nat, data: seq<byte>) returns (ok: bool, ghost done: nat)
      requires s.geo.bs > 0 && Aligned(|data|, s.geo.bs) && Aligned(0x20000, s.geo.bs)
      requires Valid() && Ready(s, i)
      modifies this
      ensures done <= Low32(|data|) <= |data| && (ok ==> done == Low32(|data|))
      ensures ok ==> (data[..done] == data <==> |data| < 0x1_0000_0000)
      ensures SameBut(old(s), s, i, data[..done])
      ensures Valid() && Ready(s, i) && Others(old(s), s, i)
      ensures (!ok ==> !SomeZone(s)) && (ok ==> HasZone(s, i))
    {
      hide Inv, Starts, Enabled, Apply, BytesKept, Bytes, SameBut, Aligned, Others, Ready, HasActiveRoom, Intact,
        SomeZone;
      ghost var s0 := s;
      var size := Low32(|data|);
      LowAligned(|data|, s.geo.bs);
      var from := 0;
      done := 0;
      ReadyFile(s, i);
      Unchanged(s, i);
      assert data[..0] == [];
      if s.files[i].st.active.None? {
        ok := AllocateNewZone(i);
        SameGeometry(s0, s, i);
        if !ok {
          return;
        }
      }
      while from < size
        invariant done == from <= size && Valid() && Ready(s, i) && Others(s0, s, i) && SameBut(s0, s, i, data[..done])
        invariant s.geo == s0.geo && Aligned(size - from, s.geo.bs) && HasZone(s, i)
      {
        ghost var s1 := s;
        ok := MakeRoom(i);
        Then(s0, s1, s, i, data[..done], []);
        SameGeometry(s1, s, i);
        assert data[..done] + [] == data[..done];
        if !ok {
          return;
        }
        ghost var s2 := s;
        var n := Chunk(i, size - from);
        WriteChunk(i, data[from..from + n]);
        Then(s0, s2, s, i, data[..done], data[from..from + n]);
        SameGeometry(s2, s, i);
        NextPart(data, done, n);
        AlignedSub(n, size - from, s.geo.bs);
        from, done := from + n, done + n;
      }
      assert |data[..done]| == done && data[..|data|] == data;
      return true, done;
    }

    /** The write of a turn, and the count of what was written. */
    method WriteChunk(i: nat, part: seq<byte>)
      requires s.geo.bs > 0 && part != [] && Aligned(|part|, s.geo.bs) && HasActiveRoom(s, i)
      requires Valid() && Ready(s, i) && |s.disk[s.files[i].st.active.value]| + |part| <= s.geo.capacity
      modifies this
      ensures Valid() && Ready(s, i) && Others(old(s), s, i) && SameBut(old(s), s, i, part) && HasZone(s, i)
    {
      hide Inv, Starts, Enabled, Apply, BytesKept, Bytes, SameBut, Aligned, Others, Ready, HasActiveRoom, Intact,
        Counts;
      ghost var s0 := s;
      ReadyFile(s, i);
      RoomIsZone(s, i);
      CanWrite(s, i, part);
      Do(Write(i, part));
      ghost var s1 := s;
      AfterWrite(s0, s1, i, part);
      StepBytes(s0, s1, Write(i, part), i);
      DoFile(Count(i), i, SetFile(s1, i, s1.files[i].(uncounted := 0)));
      Then(s0, s1, s, i, part, []);
      AfterCount(s1, s, i);
      assert part + [] == part;
    }

    /** One turn of BufferedAppend or SparseAppend: whole blocks are written, which become an extent at
        once, the active extent start follows, and the size counts the payload. */
    method AppendTurn(i: nat, payload: seq<byte>)
      requires Valid() && Grows(s, i) && HasActiveRoom(s, i) && payload != [] && s.geo.bs > 0
      requires |s.disk[s.files[i].st.active.value]| + |Stored(s.files[i].mode, payload, s.geo.bs)| <= s.geo.capacity
      modifies this
      ensures Valid() && Grows(s, i) && Others(old(s), s, i) && SameBut(old(s), s, i, payload) && HasZone(s, i)
      ensures old(HasZone(s, i) && HasActiveRoom(s, i)) && s.files[i].st.active == old(s).files[i].st.active
      ensures var z := old(s).files[i].st.active.value;
        s.disk == old(s).disk[z := old(s).disk[z] + Stored(old(s).files[i].mode, payload, old(s).geo.bs)]
    {
      hide Inv, Starts, Enabled, Apply, BytesKept, Bytes, SameBut, Aligned, Others, HasActiveRoom, Intact, Stored;
      ghost var s0 := s;
      var bytes := Stored(s.files[i].mode, payload, s.geo.bs);
      RoomIsZone(s, i);
      CanGrow(s, i, payload);
      Do(Grow(i, payload, bytes));
      ghost var s1 := s;
      AfterGrow(s0, s1, i, payload, bytes);
      StepBytes(s0, s1, Grow(i, payload, bytes), i);
      DoFile(Advance(i), i, SetFile(s1, i, s1.files[i].(window := Quiet)));
      ghost var s2 := s;
      Then(s0, s1, s2, i, payload, []);
      assert payload + [] == payload;
      DoFile(Count(i), i, SetFile(s1, i, s1.files[i].(window := Quiet, uncounted := 0)));
      Then(s0, s2, s, i, payload, []);
    }

    /** The number of bytes of a turn. */
    method Chunk(i: nat, left: nat) returns (n: nat)
      requires s.geo.bs > 0 && 0 < left && Aligned(left, s.geo.bs) && HasActiveRoom(s, i) && Valid()
      ensures 0 < n <= left && Aligned(n, s.geo.bs) && HasActiveRoom(s, i)
      ensures |s.disk[s.files[i].st.active.value]| + n <= s.geo.capacity
    {
      hide Inv, Starts, Aligned;
      var z := s.files[i].st.active.value;
      OwnersMatch(s, z);
      CapacityLeft(s.geo, s.disk, z);
      var room := s.geo.capacity - |s.disk[z]|;
      n := if left > room then room else left;
    }

    // ---------- migration ----------

    /** TakeMigrateZone or GetMigrateTargetZone: some zone that is not busy and has room, or
        none. */
    method MigrationZone(len: nat) returns (found: bool, z: nat)
      requires Valid()
      ensures found ==> z < |s.disk| && FreeZone(s, z) && |s.disk[z]| + len <= s.geo.capacity
      ensures !found ==> !SomeTarget(s, len)
    {
      if zone: nat :| zone < |s.disk| && FreeZone(s, zone) && |s.disk[zone]| + len <= s.geo.capacity {
        return true, zone;
      }
      return false, 0;
    }

    /** One turn of the loop of a migration: extent k of the file is copied to another zone,
        unless there is none. */
    method MigrateExtent(i: nat, k: nat) returns (moved: bool)
      requires Valid() && Moves(s, i) && k < |s.files[i].st.extents| && |s.files[i].other| == |s.files[i].st.extents|
      requires s.files[i].other[k] == s.files[i].st.extents[k] && s.files[i].st.extents[k].len < 0x1_0000_0000
      modifies this
      ensures Valid() && SameBut(old(s), s, i, []) && Others(old(s), s, i) && s.holder == old(s).holder && i < |s.files|
      ensures s.files[i] == old(s).files[i].(other := s.files[i].other) && |s.files[i].other| == |old(s).files[i].other|
      ensures forall m :: 0 <= m < |s.files[i].other| && m != k ==> s.files[i].other[m] == old(s).files[i].other[m]
      ensures s.files[i].other[k].len == old(s).files[i].other[k].len
      ensures moved ==> s.files[i].other[k] != old(s).files[i].other[k]
      ensures !moved ==> s == old(s) && !SomeTarget(s, s.files[i].st.extents[k].len)
      ensures OnlyFilled(old(s), s)
    {
      hide Inv, Starts, Enabled, Apply, BytesKept, Bytes, Fits, Aligned, Lookup, HasRoom, SameBut, Others, Extend,
        Copied, Padding, SomeTarget, OnlyFilled;
      ghost var s0 := s;
      var e := s.files[i].st.extents[k];
      var found, z := MigrationZone(e.len);
      if !found {
        Unchanged(s, i);
        return false;
      }
      var pad := Padding(e.len, s.geo.bs);
      TakeLeads(s, i, z);
      DoFile(MoveTake(i, z), i, Taken(s0, i, z));
      ghost var s1 := s;
      CanCopy(s0, i, k, z, pad);
      DoFile(MoveCopy(i, k, z, pad), i, Copied(s1, i, k, z, pad));
      ghost var s2 := s;
      Thence(s0, s1, s2, i);
      CopiedOthers(s1, i, k, z, pad);
      CopiedFills(s0, i, k, z, pad);
      ReleaseLeads(s0, s2, i, k, z, pad);
      DoFile(Release(z), i, s2.(holder := s0.holder));
      Thence(s0, s2, s, i);
      NewPlace(s0, i, k, z);
      SameGeometry(s0, s, i);
      return true;
    }

    /** MigrateFileExtents and WLMigrateFileExtents, of extents below 4 GiB, as all are in zones
        below 4 GiB: copies the wanted extents of a file that nobody writes, replaces the list when
        there is no reader, persists it, and only then gives up the old extents. */
    method MigrateFileExtents(i: nat, wanted: seq<Ext>, works: bool) returns (r: Migration)
      requires Valid() && i < |s.files| && s.files[i].enc == NoRecord
      requires forall e <- s.files[i].st.extents :: e in wanted ==> e.len < 0x1_0000_0000
      modifies this
      ensures Valid() && SameBut(old(s), s, i, []) && Others(old(s), s, i) && (r == Skipped ==> s == old(s))
      ensures r == Skipped <==> !old(s).files[i].named || old(s).files[i].writing || old(s).files[i].phase != Idle
      ensures r == Waits ==> old(s).files[i].lock != Lock(Unlocked, 0, 0)
      ensures r == NotPersisted ==> !works && s.files[i].log == old(s).files[i].log
      ensures r == Done ==>
        works && s.files[i].phase == Idle && s.files[i].log.list == s.files[i].st.extents &&
        s.files[i].lock == Lock(Unlocked, 0, 0)
      ensures r == Done ==> SameLengths(old(s).files[i].st.extents, s.files[i].st.extents) && s.holder == old(s).holder
      ensures r == Done ==> forall k :: 0 <= k < |s.files[i].st.extents| ==>
        old(s).files[i].st.extents[k] in wanted || s.files[i].st.extents[k] == old(s).files[i].st.extents[k]
      ensures r == Done && AtRest(old(s)) ==> AtRest(s) && DeviceUsed(s) == DeviceUsed(old(s))
      ensures r == Done ==>
        AllMoved(s, old(s).files[i].st.extents, s.files[i].st.extents, wanted, |s.files[i].st.extents|)
    {
      hide Inv, Starts, Enabled, Apply, Bytes, BytesKept, SameBut, Others, SameLengths, AtRest, DeviceUsed,
        RecordedFile, AllMoved, OnlyFilled;
      ghost var s0 := s;
      Unchanged(s, i);
      if !s.files[i].named || s.files[i].writing || s.files[i].phase != Idle {
        return Skipped;
      }
      CanBegin(s, i);
      DoFile(MoveBegin(i), i, Begun(s0, i));
      var es := s.files[i].st.extents;
      NoneTried(s, es, wanted);
      for k := 0 to |es|
        invariant Valid() && SameBut(s0, s, i, []) && Others(s0, s, i) && Moves(s, i) && s.holder == s0.holder
        invariant i < |s.files| && s.files[i] == Begun(s0, i).files[i].(other := s.files[i].other)
        invariant SameLengths(es, s.files[i].other) && |s.files[i].other| == |es|
        invariant forall m :: 0 <= m < |es| && (m >= k || es[m] !in wanted) ==> s.files[i].other[m] == es[m]
        invariant AllMoved(s, es, s.files[i].other, wanted, k)
      {
        ghost var s1 := s;
        if es[k] in wanted {
          var moved := MigrateExtent(i, k);
          SameLengthsStay(es, s1.files[i].other, s.files[i].other, k);
          Thence(s0, s1, s, i);
          MovedToo(s1, s, es, s1.files[i].other, s.files[i].other, wanted, k);
        } else {
          NotWanted(s, es, s.files[i].other, wanted, k);
        }
      }
      ghost var s1 := s;
      r := SyncFileExtents(i, works);
      Thence(s0, s1, s, i);
      if r == Done { StillMoved(s1, s, es, s1.files[i].other, wanted); }
      if r == Done { UsedConserved(s0, s, i); }
    }

    /** SyncFileExtents, with the wait for readers, and the record that may be lost. */
    method SyncFileExtents(i: nat, works: bool) returns (r: Migration)
      requires Valid() && Moves(s, i) && s.files[i].enc == NoRecord && |s.files[i].other| == |s.files[i].st.extents|
      modifies this
      ensures Valid() && SameBut(old(s), s, i, []) && Others(old(s), s, i) && s.holder == old(s).holder && r != Skipped
      ensures r == Waits ==> old(s).files[i].lock != Lock(Unlocked, 0, 0)
      ensures r == NotPersisted ==> !works && s.files[i].log == old(s).files[i].log
      ensures r == Done ==> works && s.files[i].phase == Idle && s.files[i].st.extents == old(s).files[i].other
      ensures r == Done ==> s.files[i].log.list == s.files[i].st.extents && s.files[i].lock == Lock(Unlocked, 0, 0)
      ensures s.disk == old(s).disk && s.finished == old(s).finished && s.geo == old(s).geo
    {
      hide Inv, Starts, Enabled, Apply, Bytes, SameBut, Others, RecordedFile, Leads, Dropped;
      ghost var s0 := s;
      Unchanged(s, i);
      LockShape(s, i);
      if s.files[i].lock.mtx != Unlocked {
        return Waits;
      }
      LockLeads(s, i);
      DoFile(LockWrite(i), i, Locked(s0, i, MoverWaiting));
      if s.files[i].lock.count > 0 {
        return Waits;
      }
      ghost var s1 := s;
      ReplaceList(i, s0);
      Thence(s0, s1, s, i);
      ghost var s5 := s;
      Persist(i, Swap, works);
      Thence(s0, s5, s, i);
      if !works {
        return NotPersisted;
      }
      ghost var s6 := s;
      CanDrop(s5, s6, i);
      DoFile(Drop(i), i, Dropped(s6, i));
      Thence(s0, s6, s, i);
      return Done;
    }

    /** ReplaceExtentList after the wait for readers, and MetadataUnsynced. */
    method ReplaceList(i: nat, ghost s0: State)
      requires Valid() && Moves(s0, i) && s0.files[i].lock == Lock(Unlocked, 0, 0) && s == Locked(s0, i, MoverWaiting)
      modifies this
      ensures Valid() && SameBut(old(s), s, i, []) && Others(old(s), s, i)
      ensures s == SetFile(s0, i, UnsyncedFile(s0.files[i]))
    {
      hide Inv, Starts, Bytes, SameBut, Others, ReplacedFile, Leads;
      ghost var s1 := s;
      SeeLeads(s0, i);
      DoFile(SeeNoReaders(i), i, Locked(s0, i, MoverIn));
      ghost var s2 := s;
      ReplaceLeads(s0, i);
      DoFile(Replace(i), i, Swapped(s0, i, MoverIn));
      Thence(s1, s2, s, i);
      ghost var s3 := s;
      UnlockLeads(s0, i);
      DoFile(UnlockWrite(i), i, Swapped(s0, i, Unlocked));
      Thence(s1, s3, s, i);
      ghost var s4 := s;
      UnsyncLeads(s0, i);
      DoFile(Unsync(i), i, SetFile(s0, i, UnsyncedFile(s0.files[i])));
      Thence(s1, s4, s, i);
    }

    // ---------- reads ----------

    /** ZoneFile::PositionedRead, in the steps of a reader: it takes the read lock, reads extent after
        extent, as much at a time as it likes, and leaves everything as it was. */
    method Read(i: nat, offset: nat, wanted: nat) returns (got: seq<byte>)
      requires Valid() && Lives(s, i) && s.files[i].lock.mtx == Unlocked
      modifies this
      ensures Valid() && s == old(s) && AllInside(s.disk, s.files[i].st.extents)
      ensures var content := Content(s.disk, s.files[i].st.extents);
        got == content[Min(offset, |content|)..Min(offset + wanted, |content|)]
    {
      hide Inv, Starts, Enabled, Apply, Bytes, BytesKept, Content, AllInside, Total, Intact, Inside;
      ghost var s0 := s;
      var es := s.files[i].st.extents;
      ContentInside(s, i);
      Enter(i);
      var found, k, pos := FileReads.GetExtent(es, offset);
      if !found {
        CanLeave(s0, i);
        Do(ReadNothing(i));
        return [];
      }
      var n, r := |s.files[i].readers|, Reader(offset, wanted, [], k, es[k], pos);
      CanBeginRead(s0, i, offset, wanted, k);
      Do(ReadBegin(i, offset, wanted, k));
      while |r.got| < wanted && (r.pos < r.ext.off + r.ext.len || r.k + 1 < |es|)
        invariant Valid() && s == WithReader(s0, i, r) && r.offset == offset && r.wanted == wanted
        decreases wanted - |r.got|, |es| - r.k
      {
        r := ReadTurn(i, r, s0);
      }
      ReaderDone(s0, i, r);
      CanEndRead(s0, i, r);
      Do(ReadEnd(i, n));
      return r.got;
    }

    /** The read lock: taken, the reader counted, and given back. */
    method Enter(i: nat)
      requires Valid() && Lives(s, i) && i < |s.files| && s.files[i].lock.mtx == Unlocked
      modifies this
      ensures Valid() && s == Entered(old(s), i)
    {
      hide Inv, Starts, Enabled, Apply, Bytes, BytesKept, Intact, SetLock, Lives;
      ghost var s0, lock := s, s.files[i].lock;
      ghost var counted := lock.(mtx := ReaderCounted, count := lock.count + 1);
      CanLock(s, i);
      Do(LockRead(i));
      LockIs(s0, i, lock.(mtx := ReaderEntering));
      CanCount(s, i);
      Do(CountRead(i));
      LockedAgain(s0, i, lock.(mtx := ReaderEntering), counted);
      LockIs(s0, i, counted);
      CanUnlock(s, i);
      Do(UnlockRead(i));
      LockedAgain(s0, i, counted, counted.(mtx := Unlocked, inside := lock.inside + 1));
    }

    /** One turn: some bytes of the extent, or the step to the next one. */
    method ReadTurn(i: nat, r: Reader, ghost s0: State) returns (next: Reader)
      requires Valid() && Lives(s0, i) && s == WithReader(s0, i, r) && |r.got| < r.wanted
      requires r.pos < r.ext.off + r.ext.len || r.k + 1 < |s0.files[i].st.extents|
      modifies this
      ensures Valid() && s == WithReader(s0, i, next) && next.offset == r.offset && next.wanted == r.wanted
      ensures |r.got| < |next.got| <= r.wanted || (next.got == r.got && r.k < next.k < |s0.files[i].st.extents|)
    {
      hide Inv, Starts, Enabled, Apply, Bytes, BytesKept, Intact, Inside;
      ReaderAt(s0, i, r);
      var n := |s.files[i].readers| - 1;
      if r.pos < r.ext.off + r.ext.len {
        var len: nat :| 0 < len && |r.got| + len <= r.wanted && r.pos + len <= r.ext.off + r.ext.len;
        CanReadChunk(s0, i, r, len);
        next := r.(got := r.got + s.disk[r.ext.zone][r.pos..r.pos + len], pos := r.pos + len);
        Do(ReadChunk(i, n, len));
      } else {
        CanReadNext(s0, i, r);
        var es := s.files[i].st.extents;
        next := r.(k := r.k + 1, ext := es[r.k + 1], pos := es[r.k + 1].off);
        Do(ReadNext(i, n));
      }
    }

    // ---------- deletions ----------

    /** DeleteFile, and the end of the file object when nobody uses it: its bytes are charged to no
        zone any more, and no other file changes. */
    method Delete(i: nat)
      requires Valid() && Lives(s, i) && s.files[i].named
      modifies this
      ensures Valid() && |s.files| == |old(s).files| && s.disk == old(s).disk && s.holder == old(s).holder
      ensures forall j :: 0 <= j < |s.files| && j != i ==> s.files[j] == old(s).files[j]
      ensures !s.files[i].named && |s.used| == |old(s).used|
      ensures var f := old(s).files[i];
        var idle := !f.writing && f.phase == Idle && f.lock == Lock(Unlocked, 0, 0);
        && s.files[i].alive == !idle
        && forall z :: 0 <= z < |s.used| ==>
             s.used[z] == old(s).used[z] - if idle then ZoneSum(f.st.extents, z) else 0
    {
      hide Inv, Starts, Bytes, BytesKept, ZoneSum;
      Do(Volume.Delete(i));
      if !s.files[i].writing && s.files[i].phase == Idle && s.files[i].lock == Lock(Unlocked, 0, 0) {
        Do(Destroy(i));
      }
    }

    /** Zone::Finish on a free, partially written zone: it has no room any more, and keeps what it has. */
    method FinishZone(z: nat)
      requires Valid() && HasRoom(s, z) && s.holder[z] == Free && s.disk[z] != []
      modifies this
      ensures Valid() && !HasRoom(s, z) && s == old(s).(finished := old(s).finished[z := true])
    {
      hide Inv, Starts, Bytes, BytesKept;
      Do(Finish(z));
    }

    /** ResetUnusedIOZones: every zone that nobody holds and nothing uses is empty afterwards,
        and no file notices. */
    method ResetUnusedIOZones()
      requires Valid()
      modifies this
      ensures Valid() && s.files == old(s).files && s.holder == old(s).holder && s.used == old(s).used
      ensures forall j :: 0 <= j < |s.files| && s.files[j].alive ==>
        Bytes(s.disk, s.files[j]) == Bytes(old(s).disk, s.files[j])
      ensures |s.disk| == |old(s).disk| == |s.holder| == |s.used|
      ensures forall z :: 0 <= z < |s.disk| ==>
        s.disk[z] == if s.holder[z] == Free && s.used[z] == 0 then [] else old(s).disk[z]
      ensures |s.finished| == |s.disk| == |old(s).finished| && forall z :: 0 <= z < |s.disk| ==>
        s.finished[z] == (old(s).finished[z] && s.disk[z] == old(s).disk[z])
    {
      hide Inv, Starts, Bytes, BytesKept;
      ghost var s0 := s;
      ShapeOf(s);
      for z := 0 to |s.disk|
        invariant Valid() && s.files == s0.files && s.holder == s0.holder && s.used == s0.used
        invariant forall j :: 0 <= j < |s.files| && s.files[j].alive ==>
          Bytes(s.disk, s.files[j]) == Bytes(s0.disk, s.files[j])
        invariant |s.disk| == |s0.disk| == |s.holder| == |s.used|
        invariant forall y :: 0 <= y < |s.disk| ==>
          s.disk[y] == if y < z && s.holder[y] == Free && s.used[y] == 0 then [] else s0.disk[y]
        invariant |s.finished| == |s.disk| == |s0.finished| && forall y :: 0 <= y < |s.disk| ==>
          s.finished[y] == (s0.finished[y] && s.disk[y] == s0.disk[y])
      {
        ShapeOf(s);
        if s.holder[z] == Free && s.disk[z] != [] && s.used[z] == 0 {
          ghost var s1 := s;
          Do(Reset(z));
          ResetBytes(s1, s, z);
        }
      }
    }
  }

  // ---------- lemmas about the steps ----------

  lemma ResetBytes(s: State, s': State, z: nat)
    requires BytesKept(s, s', Reset(z)) && s'.files == s.files
    ensures forall j :: 0 <= j < |s.files| && s.files[j].alive ==>
      Bytes(s'.disk, s.files[j]) == Bytes(s.disk, s.files[j])
  {
    hide Bytes;
  }

  predicate Recordable(s: State, i: nat) {
    i < |s.files| && s.files[i].counter <= |s.files[i].st.extents| &&
      (s.files[i].window.Fresh? ==> s.files[i].window.at.zone < |s.disk|)
  }

  /** The file while its record has been read. */
  function ReadFile(f: File, kind: Kind): File
    requires f.counter <= |f.st.extents|
  {
    f.(enc := BothRead(kind, FileSize(f), ListFor(f, kind), |f.st.extents|, f.st.start, MemoryStart(f), MemoryCount(f)))
  }

  /** The file after one of its records. */
  function RecordedFile(disk: Disk, f: File, kind: Kind): File
    requires f.counter <= |f.st.extents| && (f.window.Fresh? ==> f.window.at.zone < |disk|)
  {
    MarkedFile(LoggedFile(disk, ReadFile(f, kind)))
  }

  /** What the log has of a file after one of its records, and what counts as synced. */
  predicate Recorded(f: File, g: File, kind: Kind)
    requires f.counter <= |f.st.extents|
  {
    var list := g.log.list;
    && g.st.extents == f.st.extents && g.counter == |f.st.extents| && g.enc == NoRecord
    && g.log.size == f.st.size - f.missed - f.uncounted
    && g.log.start == MemoryStart(f)
    && (kind == Whole ==> list == f.st.extents)
    && (kind == Tail ==> list == f.log.list + f.st.extents[f.counter..])
    && (kind == Swap && f.counter == 0 ==> list == f.st.extents)
  }

  lemma RecordedGives(s: State, i: nat, kind: Kind)
    requires Recordable(s, i)
    ensures Recorded(s.files[i], RecordedFile(s.disk, s.files[i], kind), kind)
  {
    var f := ReadFile(s.files[i], kind);
    LoggedFields(s.disk, f);
    LoggedList(s.disk, f);
    LoggedMarks(s.disk, f);
    assert LoggedFile(s.disk, f).log.size == f.enc.size && LoggedFile(s.disk, f).log.start == f.enc.start;
    hide LoggedFile, MemoryStart, MemoryCount;
    assert s.files[i].st.extents[0..] == s.files[i].st.extents;
  }

  function AfterSize(s: State, i: nat, kind: Kind): State
    requires Recordable(s, i)
  {
    SetFile(s, i, s.files[i].(enc := SizeRead(kind, FileSize(s.files[i]))))
  }

  function AfterList(s: State, i: nat, kind: Kind): State
    requires Recordable(s, i)
  {
    SetFile(s, i,
      s.files[i].(enc := ListRead(kind, FileSize(s.files[i]), ListFor(s.files[i], kind), |s.files[i].st.extents|,
      s.files[i].st.start)))
  }

  function AfterBoth(s: State, i: nat, kind: Kind): State
    requires Recordable(s, i)
  {
    SetFile(s, i, ReadFile(s.files[i], kind))
  }

  function AfterLog(s: State, i: nat, kind: Kind): State
    requires Recordable(s, i)
  {
    SetFile(s, i, LoggedFile(s.disk, ReadFile(s.files[i], kind)))
  }

  lemma IsRecordable(s: State, i: nat)
    requires Inv(s) && Lives(s, i)
    ensures Recordable(s, i)
  {
    hide Inv, StateOk, FileOk, LockOk, FlagsOk, FileContent, ActiveOk, AllInside, Part, IsSuffix, ListFits;
    FactsAt(s, i);
  }

  lemma EncodeLeads(s: State, i: nat, kind: Kind)
    requires Lives(s, i) && s.files[i].enc == NoRecord && (kind == Swap ==> s.files[i].phase == Unsynced)
    requires Recordable(s, i)
    ensures Leads(s, Encode(i, kind), AfterSize(s, i, kind), i)
  {
  }

  lemma EncodeListLeads(s: State, i: nat, kind: Kind)
    requires Lives(s, i) && Recordable(s, i)
    ensures Leads(AfterSize(s, i, kind), EncodeList(i), AfterList(s, i, kind), i)
  {
    hide FileSize;
  }

  lemma EncodeStartLeads(s: State, i: nat, kind: Kind)
    requires Lives(s, i) && Recordable(s, i)
    ensures Leads(AfterList(s, i, kind), EncodeStart(i), AfterBoth(s, i, kind), i)
  {
    hide ListFor, FileSize;
  }

  lemma LoseLeads(s: State, i: nat, kind: Kind)
    requires Lives(s, i) && Recordable(s, i) && s.files[i].enc == NoRecord
    ensures Leads(AfterBoth(s, i, kind), LoseRecord(i), s, i)
  {
    hide ListFor, FileSize;
  }

  lemma LogLeads(s: State, i: nat, kind: Kind)
    requires Lives(s, i) && Recordable(s, i)
    ensures Leads(AfterBoth(s, i, kind), Log(i), AfterLog(s, i, kind), i)
  {
    hide ListFor, LoggedFile, FileSize;
    LoggedFields(s.disk, ReadFile(s.files[i], kind));
    LoggedMarks(s.disk, ReadFile(s.files[i], kind));
  }

  lemma MarkLeads(s: State, i: nat, kind: Kind)
    requires Lives(s, i) && Recordable(s, i)
    ensures Leads(AfterLog(s, i, kind), Mark(i), SetFile(s, i, RecordedFile(s.disk, s.files[i], kind)), i)
  {
    hide ListFor, LoggedFile, FileSize;
    LoggedFields(s.disk, ReadFile(s.files[i], kind));
    LoggedMarks(s.disk, ReadFile(s.files[i], kind));
  }

  lemma LoggedMarks(disk: Disk, f: File)
    requires f.enc.BothRead? && (f.window.Fresh? ==> f.window.at.zone < |disk|)
    ensures var f' := LoggedFile(disk, f);
      f'.enc == Marking(f.enc.kind) && f'.named == f.named && f'.writing == f.writing
  {
  }

  // ---------- reads ----------

  /** File i with one more reader, and one more to count in its lock. */
  function WithReader(s: State, i: nat, r: Reader): State
    requires i < |s.files|
  {
    var f := s.files[i];
    SetFile(s, i, f.(readers := f.readers + [r], lock := f.lock.(count := f.lock.count + 1)))
  }

  function Entered(s: State, i: nat): State
    requires i < |s.files|
  {
    var lock := s.files[i].lock;
    SetLock(s, i, lock.(count := lock.count + 1, inside := lock.inside + 1))
  }

  /** File i with this lock. */
  lemma LockedAgain(s: State, i: nat, a: Lock, b: Lock)
    requires i < |s.files|
    ensures SetLock(SetLock(s, i, a), i, b) == SetLock(s, i, b)
  {
  }

  lemma LockIs(s: State, i: nat, lock: Lock)
    requires Lives(s, i)
    ensures var t := SetLock(s, i, lock); Lives(t, i) && i < |t.files| && t.files[i].lock == lock
  {
  }

  lemma CanLock(s: State, i: nat)
    requires Lives(s, i) && s.files[i].lock.mtx == Unlocked
    ensures var a := LockRead(i);
      Enabled(s, a) && Intact(s, a) && Apply(s, a) == SetLock(s, i, s.files[i].lock.(mtx := ReaderEntering))
  {
  }

  lemma CanCount(s: State, i: nat)
    requires Lives(s, i) && s.files[i].lock.mtx == ReaderEntering
    ensures var a, lock := CountRead(i), s.files[i].lock;
      Enabled(s, a) && Intact(s, a) && Apply(s, a)
        == SetLock(s, i, lock.(mtx := ReaderCounted, count := lock.count + 1))
  {
  }

  lemma CanUnlock(s: State, i: nat)
    requires Lives(s, i) && s.files[i].lock.mtx == ReaderCounted
    ensures var a, lock := UnlockRead(i), s.files[i].lock;
      Enabled(s, a) && Intact(s, a) && Apply(s, a) == SetLock(s, i, lock.(mtx := Unlocked, inside := lock.inside + 1))
  {
  }

  lemma CanLeave(s: State, i: nat)
    requires Lives(s, i)
    ensures var s1 := Entered(s, i);
      Enabled(s1, ReadNothing(i)) && Intact(s1, ReadNothing(i)) && Apply(s1, ReadNothing(i)) == s
  {
    assert s.files[i := s.files[i]] == s.files;
  }

  lemma CanBeginRead(s: State, i: nat, offset: nat, wanted: nat, k: nat)
    requires Lives(s, i) && k < |s.files[i].st.extents|
    requires Total(s.files[i].st.extents[..k]) <= offset
    requires offset < Total(s.files[i].st.extents[..k]) + s.files[i].st.extents[k].len
    ensures var es, a := s.files[i].st.extents, ReadBegin(i, offset, wanted, k);
      var r := Reader(offset, wanted, [], k, es[k], es[k].off + (offset - Total(es[..k])));
      Enabled(Entered(s, i), a) && Intact(Entered(s, i), a) && Apply(Entered(s, i), a) == WithReader(s, i, r)
  {
    hide Total;
  }

  lemma ReaderAt(s: State, i: nat, r: Reader)
    requires Lives(s, i) && Inv(WithReader(s, i, r))
    ensures r.pos <= r.ext.off + r.ext.len && r.k < |s.files[i].st.extents| && r.ext.off <= r.pos
    ensures Inside(s.disk, r.ext)
  {
    hide Inv;
    var t := WithReader(s, i, r);
    ReaderLists(t, i);
    assert t.files[i].readers[|s.files[i].readers|] == r;
    assert ReaderOk(t.disk, t.files[i].st.extents, r);
  }

  lemma CanReadChunk(s: State, i: nat, r: Reader, len: nat)
    requires Lives(s, i) && 0 < len && Inside(s.disk, r.ext) && r.ext.off <= r.pos
    requires |r.got| + len <= r.wanted && r.pos + len <= r.ext.off + r.ext.len
    ensures r.ext.zone < |s.disk| && r.pos + len <= |s.disk[r.ext.zone]|
    ensures var t, a := WithReader(s, i, r), ReadChunk(i, |s.files[i].readers|, len);
      var next := r.(got := r.got + s.disk[r.ext.zone][r.pos..r.pos + len], pos := r.pos + len);
      Enabled(t, a) && Intact(t, a) && Apply(t, a) == WithReader(s, i, next)
  {
    var next := r.(got := r.got + s.disk[r.ext.zone][r.pos..r.pos + len], pos := r.pos + len);
    ReplacedReader(s, i, r, next);
  }

  lemma ReplacedReader(s: State, i: nat, r: Reader, next: Reader)
    requires i < |s.files|
    ensures var t, n := WithReader(s, i, r), |s.files[i].readers|;
      n < |t.files[i].readers| && SetFile(t, i, SetReader(t.files[i], n, next)) == WithReader(s, i, next)
  {
    var f := s.files[i];
    assert (f.readers + [r])[|f.readers| := next] == f.readers + [next];
    var g := WithReader(s, i, r).files[i];
    assert s.files[i := g][i := SetReader(g, |f.readers|, next)] == s.files[i := SetReader(g, |f.readers|, next)];
  }

  lemma CanReadNext(s: State, i: nat, r: Reader)
    requires Lives(s, i) && |r.got| < r.wanted && r.pos == r.ext.off + r.ext.len && r.k + 1 < |s.files[i].st.extents|
    ensures var t, a, es := WithReader(s, i, r), ReadNext(i, |s.files[i].readers|), s.files[i].st.extents;
      var next := r.(k := r.k + 1, ext := es[r.k + 1], pos := es[r.k + 1].off);
      Enabled(t, a) && Intact(t, a) && Apply(t, a) == WithReader(s, i, next)
  {
    var es := s.files[i].st.extents;
    ReplacedReader(s, i, r, r.(k := r.k + 1, ext := es[r.k + 1], pos := es[r.k + 1].off));
  }

  lemma CanEndRead(s: State, i: nat, r: Reader)
    requires Lives(s, i)
    ensures var t, a := WithReader(s, i, r), ReadEnd(i, |s.files[i].readers|);
      Enabled(t, a) && Intact(t, a) && Apply(t, a) == s
  {
    var f := s.files[i];
    assert (f.readers + [r])[..|f.readers|] + (f.readers + [r])[|f.readers| + 1..] == f.readers;
    assert s.files[i := f] == s.files;
  }

  lemma ContentInside(s: State, i: nat)
    requires Inv(s) && Lives(s, i)
    ensures AllInside(s.disk, s.files[i].st.extents)
    ensures |Content(s.disk, s.files[i].st.extents)| == Total(s.files[i].st.extents)
  {
    hide Inv;
    FactsAt(s, i);
  }

  /** A reader that has all, or is at the end of the last extent, has what it asked for. */
  lemma ReaderDone(s: State, i: nat, r: Reader)
    requires Lives(s, i) && Inv(WithReader(s, i, r)) && AllInside(s.disk, s.files[i].st.extents)
    requires |r.got| >= r.wanted || (r.pos >= r.ext.off + r.ext.len && r.k + 1 >= |s.files[i].st.extents|)
    ensures var content := Content(s.disk, s.files[i].st.extents);
      r.got == content[Min(r.offset, |content|)..Min(r.offset + r.wanted, |content|)]
  {
    hide Inv, Content, Total;
    ReaderAt(s, i, r);
    var t, n := WithReader(s, i, r), |s.files[i].readers|;
    assert t.files[i].readers[n] == r;
    forall len: nat
      ensures !Enabled(t, ReadChunk(i, n, len))
    {
    }
    ReadIsComplete(t, i, n);
  }

  // ---------- appends ----------

  lemma ReadyFile(s: State, i: nat)
    requires Ready(s, i)
    ensures i < |s.files|
  {
  }

  lemma SameGeometry(s: State, s': State, i: nat)
    requires Others(s, s', i)
    ensures s'.geo == s.geo && i < |s'.files|
  {
  }

  lemma ActiveInside(s: State, i: nat)
    requires Inv(s) && Lives(s, i)
    ensures s.files[i].st.active.Some? ==>
      s.files[i].st.active.value < |s.disk| && |s.disk[s.files[i].st.active.value]| <= s.geo.capacity
  {
    hide Inv, StateOk, LogOk, LockOk, FlagsOk, WindowOk, FileContent, AllInside, RegionOk;
    FactsAt(s, i);
  }

  lemma CanPush(s: State, i: nat)
    requires Inv(s) && Ready(s, i)
    ensures if s.files[i].st.active.None? ||
      s.files[i].st.filepos == s.files[i].st.size then NothingPends(s, i) else Enabled(s, Push(i))
  {
    hide Inv, StateOk, LogOk, LockOk, FlagsOk, WindowOk, RegionOk, Inside;
    FactsAt(s, i);
    var f := s.files[i];
    if f.st.active.Some? {
      PushOk(s.geo, s.disk, f.st);
      OwnersMatch(s, f.st.active.value);
    }
  }

  lemma AfterPush(s: State, s': State, i: nat)
    requires Inv(s) && Ready(s, i) && Enabled(s, Push(i)) && s' == Apply(s, Push(i))
    ensures i < |s'.files| && Others(s, s', i) && s'.files[i].st == Pushed(s.disk, s.files[i].st)
    ensures s'.files[i].uncounted == 0 && s'.disk == s.disk && s'.files[i].window.Lagging?
    ensures s'.files[i].enc == NoRecord && s'.files[i].writing && Enabled(s', Advance(i))
    ensures var t := SetFile(s', i, s'.files[i].(window := Quiet)); Apply(s', Advance(i)) == t && Others(s', t, i)
  {
    hide Inv, ActiveOk, FileContent, Pending;
  }

  lemma AfterAdvance(s: State, s1: State, s2: State, i: nat)
    requires Inv(s) && Ready(s, i) && Enabled(s, Push(i)) && s1 == Apply(s, Push(i))
    requires s2 == SetFile(s1, i, s1.files[i].(window := Quiet))
    ensures Ready(s2, i) && NothingPends(s2, i) && s2.disk == s.disk && s2.files[i].st.active == s.files[i].st.active
  {
    AfterPush(s, s1, i);
    hide Inv, StateOk, LogOk, LockOk, FlagsOk, WindowOk, FileOk, FileContent, Apply, Enabled, Pending, ActiveOk,
      AllInside;
    FactsAt(s, i);
    CanPush(s, i);
    PushOk(s.geo, s.disk, s.files[i].st);
    FileHolds(s.geo, s.disk, Direct, Pushed(s.disk, s.files[i].st));
  }

  /** A zone was taken, and its write pointer is the active extent start. */
  function Starting(s: State, i: nat, z: nat): State
    requires i < |s.files| && z < |s.holder| && z < |s.disk|
  {
    SetFile(s, i, s.files[i].(window := Fresh(Pos(z, |s.disk[z]|)))).(holder := s.holder[z := ByFile(i)])
  }

  lemma CanTake(s: State, i: nat, z: nat)
    requires Inv(s) && Ready(s, i) && s.files[i].st.active.None? && FreeZone(s, z) && z < |s.disk|
    ensures z < |s.holder| && Enabled(s, Acquire(i, z)) && Others(s, Apply(s, Acquire(i, z)), i)
    ensures var s1 := Apply(s, Acquire(i, z));
      && Enabled(s1, SetStart(i, z)) && Apply(s1, SetStart(i, z)) == Starting(s, i, z)
      && Others(s1, Starting(s, i, z), i)
  {
    hide Inv;
  }

  lemma StartingFacts(s: State, i: nat, z: nat)
    requires Ready(s, i) && z < |s.holder| && z < |s.disk|
    ensures var s' := Starting(s, i, z); Lives(s', i) && s'.files[i].enc == NoRecord
  {
  }

  lemma Started(s: State, s': State, i: nat, z: nat)
    requires Ready(s, i) && s.files[i].st.active.None? && z < |s.disk| && FreeZone(s, z)
    requires Recordable(Starting(s, i, z), i)
    requires s' == SetFile(Starting(s, i, z), i, RecordedFile(s.disk, Starting(s, i, z).files[i], Tail))
    ensures Ready(s', i) && HasActiveRoom(s', i)
  {
    hide ListFor, FileSize;
  }

  /** The file without an active zone. */
  function Left(s: State, i: nat): State
    requires i < |s.files|
  {
    SetFile(s, i, s.files[i].(st := s.files[i].st.(active := None)))
  }

  lemma LeaveZone(s: State, i: nat, z: nat)
    requires Inv(s) && Ready(s, i) && s.files[i].st.active == Some(z) && NothingPends(s, i) && z < |s.disk|
    requires |s.disk[z]| == s.geo.capacity
    ensures z < |s.holder| && Enabled(s, Full(i)) && Apply(s, Full(i)) == Left(s, i) && Others(s, Left(s, i), i)
    ensures var s1, s2 := Left(s, i), Left(s, i).(holder := s.holder[z := Free]);
      && Enabled(s1, Release(z)) && Apply(s1, Release(z)) == s2 && Others(s1, s2, i) && Ready(s2, i)
      && s2.files[i].st.active.None?
  {
    hide Inv, Pending;
    OwnersMatch(s, z);
    HeldByWriter(s, i, z);
  }

  lemma HeldByWriter(s: State, i: nat, z: nat)
    requires Inv(s) && Lives(s, i) && s.files[i].st.active == Some(z)
    ensures z < |s.holder| && s.holder[z] == ByFile(i)
  {
    hide Inv, StateOk, FileOk, LogOk, LockOk, FlagsOk, WindowOk, FileContent, ActiveOk, AllInside;
    FactsAt(s, i);
    StateFacts(s.geo, s.disk, s.owner, s.holder, i, s.files[i].mode, s.files[i].st);
  }

  lemma CanWrite(s: State, i: nat, part: seq<byte>)
    requires Inv(s) && Ready(s, i) && HasActiveRoom(s, i) && part != [] && Aligned(|part|, s.geo.bs)
    requires |s.disk[s.files[i].st.active.value]| + |part| <= s.geo.capacity
    ensures Enabled(s, Write(i, part)) && Intact(s, Write(i, part))
  {
    hide Inv, StateOk, FileOk, LogOk, LockOk, FlagsOk, WindowOk, FileContent, ActiveOk, AllInside, Aligned;
    FactsAt(s, i);
    OwnersMatch(s, s.files[i].st.active.value);
    PositiveBlocks(s.geo, s.disk);
  }

  lemma CanGrow(s: State, i: nat, payload: seq<byte>)
    requires Inv(s) && Grows(s, i) && HasActiveRoom(s, i) && payload != [] && s.geo.bs > 0
    requires |s.disk[s.files[i].st.active.value]| + |Stored(s.files[i].mode, payload, s.geo.bs)| <= s.geo.capacity
    ensures var a := Grow(i, payload, Stored(s.files[i].mode, payload, s.geo.bs)); Enabled(s, a) && Intact(s, a)
  {
    hide Inv, StateOk, FileOk, LogOk, LockOk, FlagsOk, WindowOk, FileContent, ActiveOk, AllInside, RoundUp, Aligned,
      PutFixed;
    FactsAt(s, i);
    OwnersMatch(s, s.files[i].st.active.value);
  }

  lemma AfterGrow(s: State, s': State, i: nat, payload: seq<byte>, bytes: seq<byte>)
    requires Grows(s, i) && Enabled(s, Grow(i, payload, bytes)) && s' == Apply(s, Grow(i, payload, bytes))
    ensures Others(s, s', i) && Appended(Grow(i, payload, bytes), i) == payload && i < |s'.files| == |s.files|
    ensures var z := s.files[i].st.active.value; s'.disk == s.disk[z := s.disk[z] + bytes]
    ensures s'.files[i].st.active == s.files[i].st.active
    ensures var t := SetFile(s', i, s'.files[i].(window := Quiet));
      var u := SetFile(s', i, s'.files[i].(window := Quiet, uncounted := 0));
      Leads(s', Advance(i), t, i) && Leads(t, Count(i), u, i) && Grows(u, i)
  {
    hide ActiveOk, Aligned, Segment;
  }

  /** Written, and not yet counted. */
  predicate Counts(s: State, i: nat) {
    Lives(s, i) && s.files[i].writing && s.files[i].window == Quiet && s.files[i].enc == NoRecord &&
      s.files[i].mode == Direct
  }

  lemma AfterWrite(s: State, s': State, i: nat, part: seq<byte>)
    requires Ready(s, i) && Enabled(s, Write(i, part)) && s' == Apply(s, Write(i, part))
    ensures Others(s, s', i) && Counts(s', i) && Appended(Write(i, part), i) == part
    ensures i < |s'.files| && Leads(s', Count(i), SetFile(s', i, s'.files[i].(uncounted := 0)), i)
    ensures i < |s.files| && s'.files[i].st.active == s.files[i].st.active
  {
    hide ActiveOk, Aligned;
  }

  lemma NextPart(data: seq<byte>, from: nat, n: nat)
    requires from + n <= |data|
    ensures data[..from] + data[from..from + n] == data[..from + n]
  {
  }

  lemma AfterCount(s: State, s': State, i: nat)
    requires Counts(s, i) && s' == SetFile(s, i, s.files[i].(uncounted := 0))
    ensures Ready(s', i)
  {
  }

  lemma CapacityLeft(geo: Geometry, disk: Disk, z: nat)
    requires DiskOk(geo, disk) && z < |disk|
    ensures geo.bs > 0 && |disk[z]| <= geo.capacity && Aligned(geo.capacity - |disk[z]|, geo.bs)
  {
    AlignedSub(|disk[z]|, geo.capacity, geo.bs);
  }

  // ---------- migration ----------

  function Padding(len: nat, bs: nat): seq<byte>
  {
    if bs == 0 then [] else Zeros(RoundUp(len, bs) - len)
  }

  lemma CopyFits(s: State, i: nat, k: nat, z: nat, pad: seq<byte>)
    requires Inv(s) && Moves(s, i) && k < |s.files[i].st.extents| && z < |s.disk|
    requires |s.disk[z]| + s.files[i].st.extents[k].len <= s.geo.capacity
    requires pad == Padding(s.files[i].st.extents[k].len, s.geo.bs)
    ensures Inside(s.disk, s.files[i].st.extents[k]) && Fits(s, z, Lookup(s.disk, s.files[i].st.extents[k]) + pad)
    ensures s.files[i].st.extents[k].len > 0
    ensures s.files[i].st.extents[k].len < 0x1_0000_0000 ==>
      Shortened(Lookup(s.disk, s.files[i].st.extents[k])) == Lookup(s.disk, s.files[i].st.extents[k]) != []
  {
    hide Inv, Good, ListsOk, DiskOk, Aligned, RoundUp, Shortened;
    GoodFile(s, i);
    GoodLists(s.geo, s.disk, s.owner, s.holder, i, s.files[i]);
    OwnersMatch(s, z);
    CapacityLeft(s.geo, s.disk, z);
    var e := s.files[i].st.extents[k];
    assert Inside(s.disk, e);
    ShortExtent(s.disk, e);
    RoundUpIsLeast(e.len, s.geo.capacity - |s.disk[z]|, s.geo.bs);
  }

  /** The zone is taken for the migration. */
  function Taken(s: State, i: nat, z: nat): State
    requires z < |s.holder|
  {
    s.(holder := s.holder[z := ByMover(i)])
  }

  lemma TakeLeads(s: State, i: nat, z: nat)
    requires Inv(s) && Moves(s, i) && z < |s.disk| && FreeZone(s, z)
    ensures z < |s.holder| && Leads(s, MoveTake(i, z), Taken(s, i, z), i)
  {
    hide Inv;
  }

  lemma CanCopy(s: State, i: nat, k: nat, z: nat, pad: seq<byte>)
    requires Inv(s) && Moves(s, i) && k < |s.files[i].st.extents| && |s.files[i].other| == |s.files[i].st.extents|
    requires s.files[i].other[k] == s.files[i].st.extents[k] && z < |s.disk| && FreeZone(s, z) && z < |s.holder|
    requires |s.disk[z]| + s.files[i].st.extents[k].len <= s.geo.capacity
    requires pad == Padding(s.files[i].st.extents[k].len, s.geo.bs)
    requires s.files[i].st.extents[k].len < 0x1_0000_0000
    ensures var s1 := Taken(s, i, z);
      Enabled(s1, MoveCopy(i, k, z, pad)) && Leads(s1, MoveCopy(i, k, z, pad), Copied(s1, i, k, z, pad), i)
  {
    hide Inv, Lookup, Fits, Padding, HasRoom, Inside, Copied, Others, Shortened, MayTake;
    CopyFits(s, i, k, z, pad);
    FitsTaken(s, i, z, Lookup(s.disk, s.files[i].st.extents[k]) + pad);
    CopyEnabled(Taken(s, i, z), i, k, z, pad);
    CopiedOthers(Taken(s, i, z), i, k, z, pad);
  }

  lemma CopyEnabled(s: State, i: nat, k: nat, z: nat, pad: seq<byte>)
    requires Moves(s, i) && k < |s.files[i].st.extents| && |s.files[i].other| == |s.files[i].st.extents|
    requires s.files[i].other[k] == s.files[i].st.extents[k] && Inside(s.disk, s.files[i].st.extents[k])
    requires z < |s.holder| && s.holder[z] == ByMover(i) && Fits(s, z, Lookup(s.disk, s.files[i].st.extents[k]) + pad)
    requires s.files[i].st.extents[k].len < 0x1_0000_0000
    requires Shortened(Lookup(s.disk, s.files[i].st.extents[k])) == Lookup(s.disk, s.files[i].st.extents[k])
    ensures Intact(s, MoveCopy(i, k, z, pad))
    ensures Enabled(s, MoveCopy(i, k, z, pad)) && Apply(s, MoveCopy(i, k, z, pad)) == Copied(s, i, k, z, pad)
  {
    hide Lookup, Inside, Copied, Shortened, Aligned;
  }

  lemma FitsTaken(s: State, i: nat, z: nat, bytes: seq<byte>)
    requires Fits(s, z, bytes)
    ensures Fits(Taken(s, i, z), z, bytes)
  {
  }

  lemma CopiedOthers(s: State, i: nat, k: nat, z: nat, pad: seq<byte>)
    requires Enabled(s, MoveCopy(i, k, z, pad))
    ensures Others(s, Copied(s, i, k, z, pad), i) && Copied(s, i, k, z, pad).holder == s.holder
    ensures Copied(s, i, k, z, pad).files[i]
      == s.files[i].(other := s.files[i].other[k := Ext(z, |s.disk[z]|, s.files[i].st.extents[k].len)])
  {
    hide Lookup, Aligned, Inside;
  }

  lemma ReleaseLeads(s: State, s2: State, i: nat, k: nat, z: nat, pad: seq<byte>)
    requires z < |s.holder| && s.holder[z] == Free && Enabled(Taken(s, i, z), MoveCopy(i, k, z, pad))
    requires s2 == Copied(Taken(s, i, z), i, k, z, pad)
    ensures var t := s2.(holder := s.holder); Leads(s2, Release(z), t, i)
  {
    CopiedOthers(Taken(s, i, z), i, k, z, pad);
    hide Copied, Lookup, Aligned, Inside;
    assert s.holder[z := ByMover(i)][z := Free] == s.holder;
  }

  lemma CopiedFills(s: State, i: nat, k: nat, z: nat, pad: seq<byte>)
    requires z < |s.holder| && Enabled(Taken(s, i, z), MoveCopy(i, k, z, pad))
    ensures OnlyFilled(s, Copied(Taken(s, i, z), i, k, z, pad).(holder := s.holder))
  {
    hide Lookup, Aligned, Inside;
  }

  /** Of the first n extents, those that are wanted were moved, unless no zone has room for them. */
  predicate AllMoved(s: State, es: seq<Ext>, now: seq<Ext>, wanted: seq<Ext>, n: nat) {
    && n <= |es| && |now| == |es|
    && forall m :: 0 <= m < n && es[m] in wanted && now[m] == es[m] ==> !SomeTarget(s, es[m].len)
  }

  lemma NoneTried(s: State, es: seq<Ext>, wanted: seq<Ext>)
    ensures AllMoved(s, es, es, wanted, 0)
  {
  }

  lemma MovedToo(s: State, s': State, es: seq<Ext>, was: seq<Ext>, now: seq<Ext>, wanted: seq<Ext>, k: nat)
    requires OnlyFilled(s, s') && AllMoved(s, es, was, wanted, k) && k < |es| && |now| == |was|
    requires forall m :: 0 <= m < |was| && m != k ==> now[m] == was[m]
    requires now[k] == es[k] ==> !SomeTarget(s', es[k].len)
    ensures AllMoved(s', es, now, wanted, k + 1)
  {
    hide SomeTarget, OnlyFilled;
    NoTargetStays(s, s');
  }

  lemma NotWanted(s: State, es: seq<Ext>, now: seq<Ext>, wanted: seq<Ext>, k: nat)
    requires AllMoved(s, es, now, wanted, k) && k < |es| && es[k] !in wanted
    ensures AllMoved(s, es, now, wanted, k + 1)
  {
    hide SomeTarget;
  }

  lemma StillMoved(s: State, s': State, es: seq<Ext>, now: seq<Ext>, wanted: seq<Ext>)
    requires s'.disk == s.disk && s'.finished == s.finished && s'.geo == s.geo && s'.holder == s.holder
    requires AllMoved(s, es, now, wanted, |es|)
    ensures AllMoved(s', es, now, wanted, |es|)
  {
    hide SomeTarget;
    NoTargetStays(s, s');
  }

  /** The new place of an extent is not the old one. */
  lemma NewPlace(s: State, i: nat, k: nat, z: nat)
    requires Inv(s) && Moves(s, i) && k < |s.files[i].st.extents| && z < |s.disk|
    ensures Ext(z, |s.disk[z]|, s.files[i].st.extents[k].len) != s.files[i].st.extents[k]
  {
    hide Inv, Good, ListsOk;
    GoodFile(s, i);
    GoodLists(s.geo, s.disk, s.owner, s.holder, i, s.files[i]);
    assert Inside(s.disk, s.files[i].st.extents[k]);
  }

  /** A migration has begun. */
  function Begun(s: State, i: nat): State
    requires i < |s.files|
  {
    SetFile(s, i, s.files[i].(phase := Copying, other := s.files[i].st.extents))
  }

  lemma CanBegin(s: State, i: nat)
    requires Inv(s) && i < |s.files| && s.files[i].named && !s.files[i].writing && s.files[i].phase == Idle
    ensures Enabled(s, MoveBegin(i)) && Apply(s, MoveBegin(i)) == Begun(s, i) && Others(s, Begun(s, i), i)
    ensures Moves(Begun(s, i), i)
    ensures SameLengths(Begun(s, i).files[i].st.extents, Begun(s, i).files[i].other)
  {
    NamedIsAlive(s, i);
    hide Inv;
  }

  lemma LockShape(s: State, i: nat)
    requires Inv(s) && Lives(s, i)
    ensures s.files[i].lock.mtx == Unlocked && s.files[i].lock.count == 0 ==> s.files[i].lock == Lock(Unlocked, 0, 0)
  {
    hide Inv, ReadersOk, AllInside;
    ReaderLists(s, i);
  }

  function Locked(s: State, i: nat, mtx: Mutex): State
    requires i < |s.files|
  {
    SetLock(s, i, s.files[i].lock.(mtx := mtx))
  }

  /** The list was replaced. */
  function Swapped(s: State, i: nat, mtx: Mutex): State
    requires i < |s.files|
  {
    SetFile(s, i, ReplacedFile(s.files[i]).(lock := s.files[i].lock.(mtx := mtx)))
  }

  /** The list was replaced, and none of it counts as synced. */
  function UnsyncedFile(f: File): File { ReplacedFile(f).(phase := Unsynced, counter := 0) }

  lemma LockLeads(s: State, i: nat)
    requires Moves(s, i) && s.files[i].lock.mtx == Unlocked
    ensures Leads(s, LockWrite(i), Locked(s, i, MoverWaiting), i)
  {
  }

  lemma SeeLeads(s: State, i: nat)
    requires Moves(s, i) && s.files[i].lock.count == 0
    ensures Leads(Locked(s, i, MoverWaiting), SeeNoReaders(i), Locked(s, i, MoverIn), i)
  {
  }

  lemma ReplaceLeads(s: State, i: nat)
    requires Moves(s, i)
    ensures Leads(Locked(s, i, MoverIn), Replace(i), Swapped(s, i, MoverIn), i)
  {
  }

  lemma UnlockLeads(s: State, i: nat)
    requires Moves(s, i)
    ensures Leads(Swapped(s, i, MoverIn), UnlockWrite(i), Swapped(s, i, Unlocked), i)
  {
  }

  lemma UnsyncLeads(s: State, i: nat)
    requires Moves(s, i) && s.files[i].lock.mtx == Unlocked
    ensures Leads(Swapped(s, i, Unlocked), Unsync(i), SetFile(s, i, UnsyncedFile(s.files[i])), i)
  {
  }

  lemma CanDrop(s: State, s': State, i: nat)
    requires Lives(s, i) && s.files[i].phase == Unsynced && s.files[i].counter == 0
    requires |s.files[i].other| == |s.files[i].st.extents|
    requires Recordable(s, i) && s' == SetFile(s, i, RecordedFile(s.disk, s.files[i], Swap))
    ensures Enabled(s', Drop(i)) && Leads(s', Drop(i), Dropped(s', i), i)
    ensures var f := Dropped(s', i).files[i];
      && f.phase == Idle && f.st.extents == s.files[i].st.extents && f.log.list == f.st.extents
      && f.lock == s.files[i].lock
    ensures var t := Dropped(s', i);
      t.holder == s.holder && t.disk == s.disk && t.finished == s.finished && t.geo == s.geo
  {
    hide Allocated;
    assert s.files[i].st.extents[0..] == s.files[i].st.extents;
    LoggedFields(s.disk, ReadFile(s.files[i], Swap));
    LoggedMarks(s.disk, ReadFile(s.files[i], Swap));
    LoggedList(s.disk, ReadFile(s.files[i], Swap));
    hide LoggedFile, Uncharge, Moved;
  }

  lemma LoggedList(disk: Disk, f: File)
    requires f.enc.BothRead? && (f.window.Fresh? ==> f.window.at.zone < |disk|)
    ensures LoggedFile(disk, f).log.list == f.enc.list
  {
  }

  lemma UsedConserved(s: State, s': State, i: nat)
    requires Inv(s) && Inv(s') && SameBut(s, s', i, []) && Others(s, s', i) && s'.files[i].phase == Idle
    ensures AtRest(s) ==> AtRest(s') && DeviceUsed(s') == DeviceUsed(s)
  {
    hide Inv, Bytes, DeviceUsed;
    if AtRest(s) {
      forall j | 0 <= j < |s.files| && s.files[j].alive
        ensures Bytes(s'.disk, s'.files[j]) == Bytes(s.disk, s.files[j])
      {
        assert Bytes(s.disk, s.files[j]) + [] == Bytes(s.disk, s.files[j]);
      }
      MigrationConservesUsed(s, s');
    }
  }

  lemma SameLengthsStay(es: seq<Ext>, a: seq<Ext>, b: seq<Ext>, k: nat)
    requires SameLengths(es, a) && |a| == |b| && k < |a| && b[k].len == a[k].len
    requires forall m :: 0 <= m < |a| && m != k ==> b[m] == a[m]
    ensures SameLengths(es, b) && |b| == |es|
  {
  }
}
