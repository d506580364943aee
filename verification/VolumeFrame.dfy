/** What a step leaves alone: files that do not take part in it, and sums of charges. */
module VolumeFrame {
  import opened Common
  import opened Coding
  import opened Blocks
  import opened ZoneData
  import opened ZoneFiles
  import opened Accounting
  import opened Volume

  // ---------- charges ----------

  lemma {:induction false} ChargesUpdate(files: seq<File>, i: nat, f: File, z: nat)
    requires i < |files|
    ensures Charges(files[i := f], z) == Charges(files, z) - Charge(files[i], z) + Charge(f, z)
    decreases |files|
  {
    hide Charge;
    var n := |files| - 1;
    if i == n {
      assert files[i := f][..n] == files[..n];
    } else {
      assert files[i := f][..n] == files[..n][i := f];
      ChargesUpdate(files[..n], i, f, z);
    }
  }

  lemma {:induction false} ChargesSame(files: seq<File>, files': seq<File>, z: nat)
    requires |files| == |files'| && forall i :: 0 <= i < |files| ==> Charge(files'[i], z) == Charge(files[i], z)
    ensures Charges(files', z) == Charges(files, z)
    decreases |files|
  {
    hide Charge;
    if files != [] { ChargesSame(files[..|files| - 1], files'[..|files| - 1], z); }
  }

  lemma {:induction false} ChargeBelow(files: seq<File>, i: nat, z: nat)
    requires i < |files|
    ensures Charge(files[i], z) <= Charges(files, z)
    decreases |files|
  {
    hide Charge;
    if i < |files| - 1 { ChargeBelow(files[..|files| - 1], i, z); }
  }

  // ---------- a file that does not take part ----------

  predicate StPins(st: FileState, z: nat) {
    || st.active == Some(z)
    || (st.start.Some? && st.start.value.zone == z)
    || (st.logged.Some? && st.logged.value.zone == z)
  }

  /** The zones in which a file may yet write or recover something. */
  predicate Pins(f: File, z: nat) {
    StPins(f.st, z) || StPins(PairSt(f), z) || UsesZone(f, z)
  }

  predicate Refers(f: File, z: nat) { InZone(f.st.extents, z) || InZone(f.other, z) }

  /** The zones of the extents of a file are only written to. */
  predicate Kept(disk: Disk, disk': Disk, owner: seq<seq<nat>>, owner': seq<seq<nat>>, f: File) {
    && |disk'| == |disk| == |owner'| == |owner|
    && (forall z :: 0 <= z < |disk| && Refers(f, z) ==> disk[z] <= disk'[z] && owner[z] <= owner'[z])
  }

  /** Nothing that matters to a file changes. */
  predicate Undisturbed(disk: Disk, disk': Disk, owner: seq<seq<nat>>, owner': seq<seq<nat>>, holder: seq<Holder>,
          holder': seq<Holder>, f: File)
  {
    && Kept(disk, disk', owner, owner', f) && |holder'| == |holder|
    && (forall z :: 0 <= z < |disk| && Pins(f, z) ==> disk'[z] == disk[z] && owner'[z] == owner[z])
    && (forall z :: 0 <= z < |holder| && UsesZone(f, z) ==> holder'[z] == holder[z])
  }

  lemma RefersTo(f: File, k: nat)
    requires k < |f.st.extents| && k < |f.other|
    ensures Refers(f, f.st.extents[k].zone) && Refers(f, f.other[k].zone)
  {
  }

  lemma ListFrame(disk: Disk, disk': Disk, es: seq<Ext>, k: nat)
    requires AllInside(disk, es) && k < |es| && |disk'| == |disk| && disk[es[k].zone] <= disk'[es[k].zone]
    ensures Inside(disk', es[k]) && Inside(disk, es[k]) && Lookup(disk', es[k]) == Lookup(disk, es[k])
  {
    assert Inside(disk, es[k]);
  }

  lemma OwnedFrame(owner: seq<seq<nat>>, owner': seq<seq<nat>>, i: nat, es: seq<Ext>)
    requires Owned(owner, i, es) && |owner'| == |owner|
    requires forall k :: 0 <= k < |es| && es[k].zone < |owner| ==> owner[es[k].zone] <= owner'[es[k].zone]
    ensures Owned(owner', i, es)
  {
    forall k | 0 <= k < |es|
      ensures OwnedRange(owner', i, es[k].zone, es[k].off, es[k].off + es[k].len)
    {
      assert OwnedRange(owner, i, es[k].zone, es[k].off, es[k].off + es[k].len);
    }
  }

  lemma ListsFrame(disk: Disk, disk': Disk, owner: seq<seq<nat>>, owner': seq<seq<nat>>, i: nat, f: File)
    requires ListsOk(disk, owner, i, f) && Kept(disk, disk', owner, owner', f)
    ensures ListsOk(disk', owner', i, f)
  {
    hide Apart, Refers, Lookup, Inside, Owned;
    var a, b := f.st.extents, f.other;
    forall k | 0 <= k < |a|
      ensures Inside(disk', a[k]) && Inside(disk', b[k]) && Lookup(disk', a[k]) == Lookup(disk', b[k])
    {
      RefersTo(f, k);
      InsideZone(disk, a, k);
      InsideZone(disk, b, k);
      ListFrame(disk, disk', a, k);
      ListFrame(disk, disk', b, k);
    }
    forall k | 0 <= k < |a|
      ensures a[k].zone < |owner| ==> owner[a[k].zone] <= owner'[a[k].zone]
      ensures b[k].zone < |owner| ==> owner[b[k].zone] <= owner'[b[k].zone]
    {
      RefersTo(f, k);
    }
    OwnedFrame(owner, owner', i, a);
    OwnedFrame(owner, owner', i, b);
  }

  lemma InsideZone(disk: Disk, es: seq<Ext>, k: nat)
    requires AllInside(disk, es) && k < |es|
    ensures es[k].zone < |disk|
  {
    assert Inside(disk, es[k]);
  }

  /** The file reads the same and can be recovered as before. */
  lemma FileFrame(geo: Geometry, disk: Disk, disk': Disk, mode: Mode, st: FileState)
    requires FileOk(geo, disk, mode, st) && DiskOk(geo, disk') && |disk'| == |disk|
    requires forall k :: 0 <= k < |st.extents| && st.extents[k].zone < |disk| ==>
      disk[st.extents[k].zone] <= disk'[st.extents[k].zone]
    requires forall z :: 0 <= z < |disk| && StPins(st, z) ==> disk'[z] == disk[z]
    ensures FileOk(geo, disk', mode, st) && FileContent(disk', mode, st) == FileContent(disk, mode, st)
    ensures AllInside(disk, st.extents) && Content(disk', st.extents) == Content(disk, st.extents)
    ensures ActiveOk(disk, mode, st) && Pending(disk', mode, st) == Pending(disk, mode, st)
  {
    hide DiskOk, Inside, Content, WalkSegments;
    var es := st.extents;
    forall k | 0 <= k < |es|
      ensures es[k].zone < |disk|
    {
      InsideZone(disk, es, k);
    }
    ContentFrame(disk, disk', es);
    PartInside(disk, es, st.synced);
    ContentFrame(disk, disk', es[..st.synced]);
    assert st.active.Some? ==> disk'[st.active.value] == disk[st.active.value];
    assert st.logged.Some? ==> disk'[st.logged.value.zone] == disk[st.logged.value.zone];
    assert st.start.Some? && st.start.value.zone < |disk| ==> disk'[st.start.value.zone] == disk[st.start.value.zone];
  }

  lemma StateFrame(geo: Geometry, disk: Disk, disk': Disk, owner: seq<seq<nat>>, owner': seq<seq<nat>>,
          holder: seq<Holder>, holder': seq<Holder>, i: nat, mode: Mode, st: FileState)
    requires StateOk(geo, disk, owner, holder, i, mode, st) && DiskOk(geo, disk')
    requires |disk'| == |disk| == |owner| == |owner'| && |holder'| == |holder|
    requires forall k :: 0 <= k < |st.extents| && st.extents[k].zone < |disk| ==>
      disk[st.extents[k].zone] <= disk'[st.extents[k].zone]
    requires forall z :: 0 <= z < |disk| && StPins(st, z) ==> disk'[z] == disk[z] && owner'[z] == owner[z]
    requires forall z :: 0 <= z < |holder| && st.active == Some(z) ==> holder'[z] == holder[z]
    ensures StateOk(geo, disk', owner', holder', i, mode, st)
    ensures FileContent(disk', mode, st) == FileContent(disk, mode, st)
    ensures Content(disk', st.extents) == Content(disk, st.extents)
    ensures Pending(disk', mode, st) == Pending(disk, mode, st)
  {
    FileFrame(geo, disk, disk', mode, st);
    SyncedPart(geo, disk, mode, st);
    hide FileOk, EndBefore, FileContent, Pending, AllInside;
    if st.start.Some? {
      assert disk'[st.start.value.zone] == disk[st.start.value.zone];
    }
    if st.logged.Some? {
      assert disk'[st.logged.value.zone] == disk[st.logged.value.zone];
    }
  }

  lemma SyncedPart(geo: Geometry, disk: Disk, mode: Mode, st: FileState)
    requires FileOk(geo, disk, mode, st)
    ensures st.synced <= |st.extents| && ActiveOk(disk, mode, st) && AllInside(disk, st.extents)
  {
  }

  lemma GoodFrame(geo: Geometry, disk: Disk, disk': Disk, owner: seq<seq<nat>>, owner': seq<seq<nat>>,
          holder: seq<Holder>, holder': seq<Holder>, i: nat, f: File)
    requires Good(geo, disk, owner, holder, i, f) && DiskOk(geo, disk')
    requires Undisturbed(disk, disk', owner, owner', holder, holder', f)
    ensures Good(geo, disk', owner', holder', i, f)
    ensures f.alive ==> Bytes(disk', f) == Bytes(disk, f)
  {
    hide DiskOk, FileOk, ListsOk, StateOk, Refers, Content, FileContent, LogOk, Part, Pending, ReaderOk;
    if f.alive {
      ListsFrame(disk, disk', owner, owner', i, f);
      ExtentsKept(disk, disk', owner, owner', f);
      StateFrame(geo, disk, disk', owner, owner', holder, holder', i, f.mode, f.st);
      StateFrame(geo, disk, disk', owner, owner', holder, holder', i, f.mode, PairSt(f));
      ReadersFrame(disk, disk', owner, owner', i, f);
      StateFacts(geo, disk, owner, holder, i, f.mode, f.st);
      StateFacts(geo, disk', owner', holder', i, f.mode, f.st);
      WindowFrame(geo, disk, disk', owner, owner', holder, holder', i, f);
    }
  }

  lemma ExtentsKept(disk: Disk, disk': Disk, owner: seq<seq<nat>>, owner': seq<seq<nat>>, f: File)
    requires Kept(disk, disk', owner, owner', f)
    ensures forall k :: 0 <= k < |f.st.extents| && f.st.extents[k].zone < |disk| ==>
      disk[f.st.extents[k].zone] <= disk'[f.st.extents[k].zone]
  {
    forall k | 0 <= k < |f.st.extents|
      ensures Refers(f, f.st.extents[k].zone)
    {
    }
    hide Refers;
  }

  lemma StateFacts(geo: Geometry, disk: Disk, owner: seq<seq<nat>>, holder: seq<Holder>, i: nat, mode: Mode,
          st: FileState)
    requires StateOk(geo, disk, owner, holder, i, mode, st)
    ensures FileOk(geo, disk, mode, st) && ActiveOk(disk, mode, st) && AllInside(disk, st.extents)
    ensures st.synced <= |st.extents|
    ensures st.active.Some? ==> st.active.value < |holder| && holder[st.active.value] == ByFile(i)
  {
    hide WalkSegments, DiskOk;
  }

  lemma WindowFrame(geo: Geometry, disk: Disk, disk': Disk, owner: seq<seq<nat>>, owner': seq<seq<nat>>,
          holder: seq<Holder>, holder': seq<Holder>, i: nat, f: File)
    requires WindowOk(geo, disk, holder, i, f) && Undisturbed(disk, disk', owner, owner', holder, holder', f)
    requires ActiveOk(disk, f.mode, f.st) && ActiveOk(disk', f.mode, f.st)
    requires Pending(disk', f.mode, f.st) == Pending(disk, f.mode, f.st)
    ensures WindowOk(geo, disk', holder', i, f)
  {
    hide Refers, Pending, ActiveOk;
    if f.window.Fresh? {
      assert Pins(f, f.window.at.zone);
    }
  }

  lemma ReadersFrame(disk: Disk, disk': Disk, owner: seq<seq<nat>>, owner': seq<seq<nat>>, i: nat, f: File)
    requires ListsOk(disk, owner, i, f) && ListsOk(disk', owner', i, f) && ReadersOk(disk, f)
    requires Content(disk', f.st.extents) == Content(disk, f.st.extents)
    ensures ReadersOk(disk', f)
  {
    hide Content, Total, Apart, Owned;
    forall n | 0 <= n < |f.readers|
      ensures ReaderOk(disk', f.st.extents, f.readers[n])
    {
      assert ReaderOk(disk, f.st.extents, f.readers[n]);
    }
  }

  // ---------- kinds of steps ----------

  /** A step of one file in memory. */
  lemma LocalStep(s: State, i: nat, f: File)
    requires Inv(s) && i < |s.files| && Good(s.geo, s.disk, s.owner, s.holder, i, f)
    requires forall z :: 0 <= z < |s.disk| ==> Charge(f, z) == Charge(s.files[i], z)
    requires f.alive ==> s.files[i].alive && f.mode == s.files[i].mode && Bytes(s.disk, f) == Bytes(s.disk, s.files[i])
    ensures Inv(SetFile(s, i, f)) && Advanced(s, SetFile(s, i, f), i, [])
  {
    hide Good, Charge, Bytes, DiskOk;
    forall z | 0 <= z < |s.used|
      ensures s.used[z] == Charges(s.files[i := f], z)
    {
      ChargesUpdate(s.files, i, f, z);
    }
  }

  /** A step of one file that changes what it charges. */
  lemma ChargeStep(s: State, i: nat, f: File, used: seq<int>)
    requires Inv(s) && i < |s.files| && Good(s.geo, s.disk, s.owner, s.holder, i, f) && |used| == |s.used|
    requires forall z :: 0 <= z < |used| ==> used[z] == s.used[z] - Charge(s.files[i], z) + Charge(f, z)
    requires f.alive ==> s.files[i].alive && f.mode == s.files[i].mode && Bytes(s.disk, f) == Bytes(s.disk, s.files[i])
    ensures Inv(SetFile(s, i, f).(used := used)) && Advanced(s, SetFile(s, i, f).(used := used), i, [])
  {
    hide Good, Charge, Bytes, DiskOk;
    forall z | 0 <= z < |s.used|
      ensures used[z] == Charges(s.files[i := f], z)
    {
      ChargesUpdate(s.files, i, f, z);
    }
  }

  /** Nobody but its holder pins a zone that has room. */
  lemma PinsHolds(geo: Geometry, disk: Disk, owner: seq<seq<nat>>, holder: seq<Holder>, i: nat, f: File, z: nat)
    requires Good(geo, disk, owner, holder, i, f) && f.alive && z < |disk| && z < |holder| && |disk[z]| < geo.capacity
    ensures Pins(f, z) ==> UsesZone(f, z) && holder[z] == ByFile(i)
  {
    hide StateOk, ListsOk, ReadersOk, LogOk, FlagsOk, LockOk;
    StPinsHolds(geo, disk, owner, holder, i, f.mode, f.st, z);
    StPinsHolds(geo, disk, owner, holder, i, f.mode, PairSt(f), z);
    assert PairSt(f).active == f.st.active;
  }

  lemma StPinsHolds(geo: Geometry, disk: Disk, owner: seq<seq<nat>>, holder: seq<Holder>, i: nat, mode: Mode,
          st: FileState, z: nat)
    requires StateOk(geo, disk, owner, holder, i, mode, st) && z < |disk| && z < |holder| && |disk[z]| < geo.capacity
    ensures StPins(st, z) ==> st.active == Some(z) && holder[z] == ByFile(i)
  {
    hide DiskOk, RegionOk, EndBefore, OwnedRange, FileContent;
  }

  lemma BusyElsewhere(geo: Geometry, disk: Disk, owner: seq<seq<nat>>, holder: seq<Holder>, i: nat, f: File, z: nat)
    requires Good(geo, disk, owner, holder, i, f) && f.alive && z < |holder| && holder[z] != ByFile(i)
    ensures !UsesZone(f, z)
  {
    hide DiskOk, ListsOk, ReadersOk, FileOk, Region, LogOk, LockOk, FlagsOk;
  }

  /** The flag of a zone changes that no file writes to. */
  lemma HolderStep(s: State, z: nat, h: Holder)
    requires Inv(s) && z < |s.holder|
    requires forall i :: 0 <= i < |s.files| && s.files[i].alive ==> !UsesZone(s.files[i], z)
    ensures Inv(s.(holder := s.holder[z := h])) && Advanced(s, s.(holder := s.holder[z := h]), 0, [])
  {
    hide Good, Charges, DiskOk, Refers, Pins, UsesZone, Bytes;
    forall i | 0 <= i < |s.files|
      ensures Good(s.geo, s.disk, s.owner, s.holder[z := h], i, s.files[i])
    {
      if s.files[i].alive {
        GoodFrame(s.geo, s.disk, s.disk, s.owner, s.owner, s.holder, s.holder[z := h], i, s.files[i]);
      } else {
        DeadIsGood(s.geo, s.disk, s.disk, s.owner, s.owner, s.holder, s.holder[z := h], i, s.files[i]);
      }
    }
  }

  lemma DeadIsGood(geo: Geometry, disk: Disk, disk': Disk, owner: seq<seq<nat>>, owner': seq<seq<nat>>,
          holder: seq<Holder>, holder': seq<Holder>, i: nat, f: File)
    requires Good(geo, disk, owner, holder, i, f) && !f.alive
    ensures Good(geo, disk', owner', holder', i, f)
  {
  }

  /** The holder of a zone appends to it: no other file notices. */
  lemma OthersUndisturbed(s: State, i: nat, z: nat, bytes: seq<byte>, j: nat)
    requires Inv(s) && i < |s.files| && Fits(s, z, bytes) && s.holder[z] in {ByFile(i), ByMover(i)}
    requires j < |s.files| && s.files[j].alive && (j != i || !Pins(s.files[i], z))
    ensures Undisturbed(s.disk, s.disk[z := s.disk[z] + bytes], s.owner, s.owner[z := s.owner[z] + Owners(i, |bytes|)],
                        s.holder, s.holder, s.files[j])
  {
    hide DiskOk, Good, Charges, Aligned, Refers, PairSt;
    assert Good(s.geo, s.disk, s.owner, s.holder, j, s.files[j]);
    PinsHolds(s.geo, s.disk, s.owner, s.holder, j, s.files[j], z);
  }

  lemma ExtendShape(s: State, i: nat, z: nat, bytes: seq<byte>, f: File, charge: nat)
    requires Shape(s) && i < |s.files| && Fits(s, z, bytes)
    ensures Shape(Extend(s, i, z, bytes, f, charge))
  {
    hide DiskOk, Aligned;
    GrowDisk(s.geo, s.disk, z, bytes);
  }

  lemma ExtendStep(s: State, i: nat, z: nat, bytes: seq<byte>, f: File, charge: nat, data: seq<byte>)
    requires Inv(s) && i < |s.files| && Fits(s, z, bytes) && s.holder[z] in {ByFile(i), ByMover(i)}
    requires var s' := Extend(s, i, z, bytes, f, charge);
      && Good(s.geo, s'.disk, s'.owner, s.holder, i, f) && f.alive && s.files[i].alive && f.mode == s.files[i].mode
      && Bytes(s'.disk, f) == Bytes(s.disk, s.files[i]) + data
    requires forall y :: 0 <= y < |s.disk| ==> Charge(f, y) == Charge(s.files[i], y) + if y == z then charge else 0
    ensures Inv(Extend(s, i, z, bytes, f, charge)) && Advanced(s, Extend(s, i, z, bytes, f, charge), i, data)
  {
    hide Good, Charge, DiskOk, Bytes, Aligned, Refers, Pins, Undisturbed;
    var s' := Extend(s, i, z, bytes, f, charge);
    ExtendShape(s, i, z, bytes, f, charge);
    forall j | 0 <= j < |s.files|
      ensures Good(s.geo, s'.disk, s'.owner, s.holder, j, s'.files[j])
      ensures j != i && s.files[j].alive ==> Bytes(s'.disk, s.files[j]) == Bytes(s.disk, s.files[j])
    {
      if j != i {
        if s.files[j].alive {
          OthersUndisturbed(s, i, z, bytes, j);
          GoodFrame(s.geo, s.disk, s'.disk, s.owner, s'.owner, s.holder, s.holder, j, s.files[j]);
        } else {
          DeadIsGood(s.geo, s.disk, s'.disk, s.owner, s'.owner, s.holder, s.holder, j, s.files[j]);
        }
      }
    }
    forall y | 0 <= y < |s.used|
      ensures s'.used[y] == Charges(s'.files, y)
    {
      ChargesUpdate(s.files, i, f, y);
    }
  }
}
