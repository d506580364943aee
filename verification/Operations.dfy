/** What the operations of the file system do, as functions on its state: the names, the files in
    memory, the metadata log, and of every file the metadata that was logged last. */
module Operations {
  import opened Codec
  import opened Replay
  import opened Common
  import opened MetaLog
  import opened LogSpace

  /** How a write to the metadata zones ends: it works, or the device fails it; a roll may fail
      before the log has moved to the new zone, or after. */
  datatype DeviceOutcome = Works | FailsEarly | FailsLate

  /** What happens to a record handed to PersistRecord: it is appended; the log rolls to a new
      zone that starts with a snapshot of the memory; nothing is logged; or the log has moved to
      a new zone and has no snapshot there. */
  datatype Persist = NoRecord | Appended | Rolled | Lost | Stranded

  /** PersistRecord: the record is appended if there is room behind the log; else the log rolls
      if the snapshot fits in an empty zone. */
  function Fate(fmt: Format, log: seq<Record>, rec: Record, entries: seq<FileMeta>, dev: DeviceOutcome): Persist {
    if Room(fmt, log, rec) then (if dev == Works then Appended else Lost)
    else if dev == FailsEarly then Lost
    else if dev == Works && SnapshotFits(fmt, entries) then Rolled
    else Stranded
  }

  /** `last` is not in the implementation: of every file, what was logged of it last. */
  datatype Memory = Memory(files: map<Name, nat>, objs: map<nat, ZFile>, nextId: nat, log: seq<Record>,
    last: map<nat, FileMeta>)

  /** A file system without files, behind MkFS. */
  const EMPTY: Memory := Memory(map[], map[], 1, [Snapshot([])], map[])

  /** An operation leaves this memory, and this happened to its record; or to its records, when it
      may have to delete a file first. */
  datatype Ending = One(memory: Memory, how: Persist)

  datatype Endings = Two(memory: Memory, howDelete: Persist, how: Persist)

  // ---------- the order of names ----------

  /** std::less on names, the order of `files_`. */
  predicate Less(a: Name, b: Name) {
    if b == [] then false
    else if a == [] then true
    else a[0] < b[0] || (a[0] == b[0] && Less(a[1..], b[1..]))
  }

  lemma {:induction false} LessIsTotal(a: Name, b: Name)
    ensures a == b || Less(a, b) || Less(b, a)
    ensures !(Less(a, b) && Less(b, a)) && !Less(a, a)
  {
    if a != [] && b != [] {
      LessIsTotal(a[1..], b[1..]);
      assert a == [a[0]] + a[1..] && b == [b[0]] + b[1..];
    }
    if a != [] { LessIsTotal(a[1..], a[1..]); }
  }

  lemma {:induction false} LessThen(a: Name, b: Name, c: Name)
    requires Less(a, b) && Less(b, c)
    ensures Less(a, c)
  {
    if a != [] && a[0] == b[0] == c[0] { LessThen(a[1..], b[1..], c[1..]); }
  }

  predicate IsLeast(n: Name, names: set<Name>) {
    n in names && forall k <- names :: k == n || Less(n, k)
  }

  lemma {:induction false} LeastExists(names: set<Name>)
    requires names != {}
    ensures exists n :: IsLeast(n, names)
  {
    hide Less;
    var k :| k in names;
    if names == {k} {
      assert IsLeast(k, names);
    } else {
      assert names - {k} != {} by { assert k in names && names != {k}; }
      LeastExists(names - {k});
      var m :| IsLeast(m, names - {k});
      LessIsTotal(m, k);
      var n := if Less(m, k) then m else k;
      forall x | x in names
        ensures x == n || Less(n, x)
      {
        if x != k && x != m && n == k { LessThen(k, m, x); }
      }
      assert IsLeast(n, names);
    }
  }

  lemma LeastIsUnique(names: set<Name>, n: Name, m: Name)
    requires IsLeast(n, names) && IsLeast(m, names)
    ensures n == m
  {
    hide Less;
    LessIsTotal(n, m);
  }

  ghost function Least(names: set<Name>): (n: Name)
    requires names != {}
    ensures IsLeast(n, names)
  {
    LeastExists(names);
    var n :| IsLeast(n, names);
    n
  }

  // ---------- snapshots ----------

  function EntryOf(files: map<Name, nat>, objs: map<nat, ZFile>, n: Name): seq<FileMeta> {
    if n in files && files[n] in objs then [objs[files[n]].meta] else []
  }

  /** EncodeSnapshotTo: for every name, in order, the file it refers to. */
  ghost function EntriesOf(names: set<Name>, files: map<Name, nat>, objs: map<nat, ZFile>): seq<FileMeta> {
    if names == {} then []
    else
      var n := Least(names);
      EntryOf(files, objs, n) + EntriesOf(names - {n}, files, objs)
  }

  ghost function SnapshotOf(m: Memory): seq<FileMeta> { EntriesOf(m.files.Keys, m.files, m.objs) }

  lemma {:induction false} EntriesCover(names: set<Name>, files: map<Name, nat>, objs: map<nat, ZFile>)
    requires Consistent(files, objs) && names <= files.Keys
    ensures var entries := EntriesOf(names, files, objs);
      && (forall e <- entries :: e.id in objs && e == objs[e.id].meta)
      && (forall n <- names :: files[n] in objs && objs[files[n]].meta in entries)
  {
    hide NoDup;
    if names != {} {
      var n := Least(names);
      EntriesCover(names - {n}, files, objs);
      assert EntryOf(files, objs, n) == [objs[files[n]].meta];
    }
  }

  /** The entries of a snapshot cover all names and all files. */
  lemma SnapshotIsSnapshot(m: Memory)
    requires Consistent(m.files, m.objs)
    ensures IsSnapshot(SnapshotOf(m), m.files, m.objs)
  {
    EntriesCover(m.files.Keys, m.files, m.objs);
    hide NoDup;
  }

  /** However large a metadata zone is: with so many extents in one file, its snapshot does not
      fit. */
  lemma SomeMemoryDoesNotFit(fmt: Format, f: FileMeta, synced: nat)
    requires |f.links| == 1 && |f.extents| > fmt.capacity && synced <= |f.extents|
    ensures var m := Memory(map[f.links[0] := f.id], map[f.id := ZFile(f, synced)], f.id + 1, [], map[]);
      Consistent(m.files, m.objs) && (fmt.bs == 0 || !SnapshotFits(fmt, SnapshotOf(m)))
  {
    var name := f.links[0];
    var m := Memory(map[name := f.id], map[f.id := ZFile(f, synced)], f.id + 1, [], map[]);
    assert Consistent(m.files, m.objs) by {
      assert f.links == [name];
      forall i, n | i in m.objs && n in m.objs[i].meta.links
        ensures n in m.files && m.files[n] == i
      {
      }
    }
    assert m.files.Keys == {name};
    var least := Least({name});
    assert EntriesOf({name}, m.files, m.objs) == EntryOf(m.files, m.objs, name) + EntriesOf({}, m.files, m.objs) by {
      assert least == name && {name} - {name} == {};
    }
    assert SnapshotOf(m) == [f];
    ManyExtentsTakeRoom(fmt, f);
  }

  // ---------- records ----------

  /** What becomes of a file in the log by an update or replace record. */
  function Merged(durable: map<nat, FileMeta>, u: FileMeta, replace: bool): FileMeta {
    if u.id in durable then Merge(durable[u.id], u, replace) else u
  }

  function VersionRecord(f: ZFile, replace: bool): Record
    requires f.synced <= |f.meta.extents|
  {
    var d := Delta(f.meta, f.synced);
    if replace then Replace(d) else Update(d)
  }

  /** Of a version of a file, all its metadata is logged, with the extents that do not count as
      synced behind those that the log has. */
  function LastVersion(last: map<nat, FileMeta>, f: ZFile, replace: bool): map<nat, FileMeta>
    requires f.synced <= |f.meta.extents|
  {
    last[f.meta.id := Merged(last, Delta(f.meta, f.synced), replace)]
  }

  /** PersistRecord on a memory; `last` is what an appended record makes of the last metadata. */
  ghost function PersistOf(fmt: Format, m: Memory, rec: Record, last: map<nat, FileMeta>, dev: DeviceOutcome): Ending {
    var entries := SnapshotOf(m);
    var how := Fate(fmt, m.log, rec, entries, dev);
    match how
    case Appended => One(m.(log := m.log + [rec], last := last), how)
    case Rolled => One(m.(log := [Snapshot(entries)], objs := AllSynced(m.objs), last := Metas(m.objs)), how)
    case Stranded => One(m.(log := []), how)
    case _ => One(m, how)
  }

  predicate Logs(how: Persist) { how == Appended || how == Rolled }

  /** The version `f` of a file replaces the one in memory and is logged. */
  ghost function VersionOf(fmt: Format, m: Memory, f: ZFile, replace: bool, dev: DeviceOutcome): Ending
    requires f.synced <= |f.meta.extents|
  {
    var r := PersistOf(fmt, m.(objs := m.objs[f.meta.id := f]), VersionRecord(f, replace),
      LastVersion(m.last, f, replace), dev);
    if Logs(r.how) then r.(memory := r.memory.(objs := r.memory.objs[f.meta.id := Full(f)])) else r
  }

  // ---------- operations ----------

  /** The ids and counters of a file are in order. */
  predicate Known(m: Memory, id: nat) { id in m.objs && m.objs[id].synced <= |m.objs[id].meta.extents| }

  predicate Named(m: Memory, name: Name) { name in m.files && Known(m, m.files[name]) }

  function WriteOf(m: Memory, id: nat, more: seq<Extent>, size: nat, hint: nat, extentStart: nat): Memory
    requires id in m.objs
  {
    var f := m.objs[id];
    m.(objs := m.objs[id :=
      f.(meta := f.meta.(extents := f.meta.extents + more, size := size, hint := hint, extentStart := extentStart))])
  }

  ghost function SyncOf(fmt: Format, m: Memory, id: nat, mtime: nat, dev: DeviceOutcome): Ending
    requires Known(m, id)
  {
    VersionOf(fmt, m, m.objs[id].(meta := m.objs[id].meta.(mtime := mtime)), false, dev)
  }

  /** SyncFileExtents: the extents are replaced, and none of them counts as synced. */
  ghost function ReplaceOf(fmt: Format, m: Memory, id: nat, extents: seq<Extent>, dev: DeviceOutcome): Ending
    requires Known(m, id)
  {
    VersionOf(fmt, m, ZFile(m.objs[id].meta.(extents := extents), 0), true, dev)
  }

  function Relinked(f: ZFile, links: seq<Name>): ZFile { f.(meta := f.meta.(links := links)) }

  /** DeleteFileNoLock; a name whose deletion cannot be logged is put back behind the others. */
  ghost function DeleteOf(fmt: Format, m: Memory, name: Name, dev: DeviceOutcome): Ending {
    if !Named(m, name) then One(m, NoRecord)
    else
      var id := m.files[name];
      var f := m.objs[id];
      var dropped := m.(files := m.files - {name}, objs := DropName(m.objs, id, name));
      var r := PersistOf(fmt, dropped, Deletion(id, name), DropMeta(m.last, id, name), dev);
      if Logs(r.how) then r
      else r.(memory := r.memory.(files := m.files,
        objs := m.objs[id := Relinked(f, Without(f.meta.links, name) + [name])]))
  }

  function Touched(f: ZFile, links: seq<Name>, mtime: nat): ZFile
  {
    f.(meta := f.meta.(links := links, mtime := mtime))
  }

  /** The part of a rename after the destination has been freed; it is undone when it cannot be
      logged. */
  ghost function RenameFreeOf(fmt: Format, m: Memory, src: Name, dst: Name, mtime: nat, dev: DeviceOutcome): Ending
    requires Named(m, src)
  {
    var id := m.files[src];
    var f := m.objs[id];
    var renamed := Without(f.meta.links, src) + [dst];
    var r := VersionOf(fmt, m.(files := (m.files - {src})[dst := id]), Touched(f, renamed, mtime), false, dev);
    if Logs(r.how) then r
    else r.(memory := r.memory.(files := m.files,
      objs := m.objs[id := Touched(f, Without(renamed, dst) + [src], mtime)]))
  }

  /** LinkFile; it is undone when it cannot be logged. */
  ghost function LinkOf(fmt: Format, m: Memory, name: Name, link: Name, mtime: nat, dev: DeviceOutcome): Ending {
    if link in m.files || !Named(m, name) then One(m, NoRecord)
    else
      var id := m.files[name];
      var f := m.objs[id];
      var links := f.meta.links + [link];
      var r := VersionOf(fmt, m.(files := m.files[link := id]), Touched(f, links, mtime), false, dev);
      if Logs(r.how) then r
      else r.(memory := r.memory.(files := m.files, objs := m.objs[id := Touched(f, Without(links, link), mtime)]))
  }

  function NewFile(id: nat, name: Name, sparse: bool, mtime: nat): FileMeta {
    FileMeta(id, 0, 0, [], mtime, NO_EXTENT, sparse, [name])
  }

  /** The part of a creation after the name has been freed: the record is persisted before the
      file is in `files_`. */
  ghost function CreateFreeOf(fmt: Format, m: Memory, name: Name, sparse: bool, mtime: nat, dev: DeviceOutcome): Ending
  {
    var f := ZFile(NewFile(m.nextId, name, sparse, mtime), 0);
    var r := PersistOf(fmt, m.(nextId := m.nextId + 1), VersionRecord(f, false), LastVersion(m.last, f, false), dev);
    if Logs(r.how) then
        r.(memory := r.memory.(files := r.memory.files[name := m.nextId], objs := r.memory.objs[m.nextId := f])) else r
  }
}
