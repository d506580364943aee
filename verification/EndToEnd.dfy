/** The layers together: the running file system, the bytes of its metadata zones, and what a
    mount makes of them. */
module EndToEnd {
  import opened Coding
  import opened Codec
  import opened Replay
  import opened Blocks
  import opened LogSpace
  import opened MetaRoll
  import opened MountImage
  import N = Namespace
  import O = Operations

  /** The names of the memory, when the log has every file. */
  lemma FullNames(t: Table, files: map<Name, nat>, objs: map<nat, ZFile>)
    requires Consistent(files, objs) && N.Mirrors(t, files, objs) && N.InFull(t, objs)
    ensures t.files == files && t.objs.Keys == objs.Keys
  {
    assert forall n <- files :: files[n] in t.objs;
  }

  lemma TrackedTable(fs: N.ZenFs, z: MetaZone)
    requires fs.Tracked() && z.Zone? && z.log == fs.log
    ensures Recover(z) == Found(N.TableOf(fs.log)) && N.Mirrors(N.TableOf(fs.log), fs.files, fs.objs)
  {
    hide Fold;
  }

  /** The metadata zones of a file system. */
  ghost function Zones(fs: N.ZenFs): seq<MetaZone>
    reads fs
  {
    if |fs.states| == |fs.actions| + 1 then fs.states[|fs.actions|].zones else []
  }

  /** The bytes of the metadata zones of a file system after any run of harmless operations:
      mounting them gives names that mirror those in memory, and of every file exactly the metadata
      that was logged last. With a log in full agreement these are all names, and all files with
      exactly their synced extents. */
  method MountFileSystem(dev: Device, starts: seq<nat>, data: seq<seq<byte>>, ghost fs: N.ZenFs) returns (r: Mounted)
    requires fs.NamesInverse() && fs.Recorded() && fs.OnZones()
    requires dev.fmt.Valid() && Images(dev, data, Zones(fs)) && |starts| == |data|
    requires forall i :: 0 <= i < |data| ==>
      Aligned(starts[i], dev.fmt.bs) && |data[i]| <= dev.fmt.capacity && Aligned(|data[i]|, dev.fmt.bs)
    ensures r.MountedAt? && r.table.objs == fs.last && N.Mirrors(r.table, fs.files, fs.objs)
    ensures fs.Valid() ==> r.table.files == fs.files && N.InFull(r.table, fs.objs)
  {
    hide Images, Holder, Aligned, Recover, Fold, AllSeen, DecodeZone, N.Tracks, N.TableOf, Consistent, N.Mirrors,
      N.InFull, OnZones;
    CarriedIsHeld(fs.fmt, fs.states, fs.actions, fs.log);
    ghost var s := fs.states[|fs.actions|];
    HolderFacts(s.zones, s.phase.cur);
    ImagesSeen(dev, data, s.zones);
    r := MountBytes(dev, starts, data);
    TrackedTable(fs, s.zones[s.phase.cur]);
    if fs.Valid() { FullNames(r.table, fs.files, fs.objs); }
  }

  /** Operations on an empty file system, none of which harms the log: memory, log and what was
      logged last are what the operations say, and the zones can be mounted to that. */
  method RunFromEmpty(dev: Device, ops: seq<N.Op>) returns (fs: N.ZenFs)
    requires SnapshotFits(dev.fmt, []) && N.AllHarmless(dev.fmt, O.EMPTY, ops)
    ensures fs.fmt == dev.fmt && fs.NamesInverse() && fs.Recorded() && fs.OnZones()
    ensures fs.Contents() == N.AfterAll(dev.fmt, O.EMPTY, ops)
  {
    hide N.AfterAll, N.AllHarmless, OnZones, SnapshotFits;
    fs := new N.ZenFs(dev.fmt);
    N.Run(fs, ops);
  }
}
