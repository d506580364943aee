/** The running file system: names, hard links and metadata syncs. Every operation changes
    `files_` and the files in memory and appends to the metadata log, and keeps names and link
    lists inverse whatever happens to its record; and replaying the log gives the metadata that
    was last logged of every file, but for the cases that are stated exactly. */
module Namespace {
  import opened Codec
  import opened Replay
  import opened Common
  import opened MetaLog
  import opened LogSpace
  import opened Operations
  import M = MetaRoll

  predicate IdsBelow(objs: map<nat, ZFile>, next: nat) {
    forall id <- objs :: id < next
  }

  // ---------- what the log knows ----------

  /** What replaying a log gives. */
  function TableOf(log: seq<Record>): Table {
    match Fold(log)
    case Running(t, _) => t
    case _ => Table(map[], map[], 1)
  }

  /** The log has some of the files, with all their names. A file that it does not have has one
      name, and none of its extents counts as synced. */
  predicate Mirrors(t: Table, files: map<Name, nat>, objs: map<nat, ZFile>) {
    && t.objs.Keys <= objs.Keys
    && (forall n <- t.files :: n in files && t.files[n] == files[n] && files[n] in t.objs)
    && (forall n <- files :: files[n] in t.objs ==> n in t.files)
    && (forall id <- t.objs :: Names(t.objs[id].links) == Names(objs[id].meta.links))
    && (forall id <- objs :: id !in t.objs ==> |objs[id].meta.links| == 1 && objs[id].synced == 0)
  }

  /** Replaying the log succeeds, and gives names that mirror those in memory. */
  predicate Tracks(log: seq<Record>, files: map<Name, nat>, objs: map<nat, ZFile>, next: nat) {
    var s := Fold(log);
    s.Running? && s.seen && Sound(s.table) && Mirrors(s.table, files, objs) && 1 <= s.table.nextId <= next
  }

  /** The log has every file, with exactly the extents that count as synced. */
  predicate InFull(t: Table, objs: map<nat, ZFile>) {
    forall id <- objs :: id in t.objs && objs[id].synced <= |objs[id].meta.extents|
                         && t.objs[id].extents == objs[id].meta.extents[..objs[id].synced]
  }

  // ---------- one lemma per kind of record ----------

  lemma {:induction false} SnapshotIds(entries: seq<FileMeta>, next: nat, objs: map<nat, ZFile>, bound: nat)
    requires next <= bound && IdsBelow(objs, bound)
    requires forall e <- entries :: e.id in objs
    ensures next <= ApplyEntries(entries, next).nextId <= bound
  {
    if entries != [] {
      var e := entries[|entries| - 1];
      assert e in entries;
      SnapshotIds(entries[..|entries| - 1], next, objs, bound);
    }
  }

  lemma SyncedConsistent(files: map<Name, nat>, objs: map<nat, ZFile>, next: nat)
    requires Consistent(files, objs) && IdsBelow(objs, next)
    ensures Consistent(files, AllSynced(objs)) && IdsBelow(AllSynced(objs), next)
    ensures Metas(AllSynced(objs)) == Metas(objs)
  {
  }

  /** The log that a roll starts carries everything that is in memory. */
  lemma RollTracks(entries: seq<FileMeta>, files: map<Name, nat>, objs: map<nat, ZFile>, next: nat)
    requires Consistent(files, objs) && IsSnapshot(entries, files, objs) && IdsBelow(objs, next) && 1 <= next
    ensures Tracks([Snapshot(entries)], files, AllSynced(objs), next)
    ensures TableOf([Snapshot(entries)]).objs == Metas(objs) && InFull(TableOf([Snapshot(entries)]), AllSynced(objs))
  {
    var log := [Snapshot(entries)];
    assert log[..0] == [] && Fold([]) == START;
    SnapshotExact(entries, 1, files, objs);
    SnapshotEntries(entries, files, objs);
    SnapshotIds(entries, 1, objs, next);
    var t := ApplyEntries(entries, 1);
    assert Fold(log) == Running(t, true);
    hide Fold, ApplyEntries;
    MirrorsAll(t, files, objs);
    forall id | id in objs
      ensures objs[id].meta.extents[..|objs[id].meta.extents|] == objs[id].meta.extents
    {
    }
  }

  lemma MirrorsAll(t: Table, files: map<Name, nat>, objs: map<nat, ZFile>)
    requires Consistent(files, objs) && t.files == files && t.objs == Metas(objs)
    ensures Mirrors(t, files, AllSynced(objs))
  {
  }

  /** `f` is a new version of a file, whose names are those that `files` binds to it. */
  predicate IsVersion(f: ZFile, replace: bool, before: map<Name, nat>, objs: map<nat, ZFile>, files: map<Name, nat>) {
    var id := f.meta.id;
    && id in objs && f.synced == (if replace then 0 else objs[id].synced) <= |f.meta.extents|
    && CanBind(before, f.meta.links, id)
    && files == Rebind(before, objs[id].meta.links, f.meta.links, id)
  }

  lemma VersionConsistent(before: map<Name, nat>, files: map<Name, nat>, objs: map<nat, ZFile>, next: nat, f: ZFile,
          replace: bool)
    requires IsVersion(f, replace, before, objs, files) && Consistent(before, objs) && IdsBelow(objs, next)
    ensures f.meta.id in objs && f.synced <= |f.meta.extents| && f.meta.id < next
    ensures Consistent(files, objs[f.meta.id := f]) && IdsBelow(objs[f.meta.id := f], next)
    ensures Consistent(files, objs[f.meta.id := Full(f)]) && IdsBelow(objs[f.meta.id := Full(f)], next)
    ensures Metas(objs[f.meta.id := f]) == Metas(objs)[f.meta.id := f.meta] == Metas(objs[f.meta.id := Full(f)])
  {
    hide Consistent, CanBind, Rebind;
    RebindConsistent(before, objs, f);
    RebindConsistent(before, objs, Full(f));
  }

  lemma FoldVersion(log: seq<Record>, f: ZFile, replace: bool)
    requires f.synced <= |f.meta.extents| && Fold(log).Running? && Fold(log).seen
    ensures Fold(log + [VersionRecord(f, replace)])
      == Carry(ApplyUpdate(Fold(log).table, Delta(f.meta, f.synced), replace), true)
  {
    FoldAppend(log, VersionRecord(f, replace));
    hide Fold, ApplyUpdate;
  }

  /** A logged version of a file that the log has. */
  lemma VersionTracks(log: seq<Record>, before: map<Name, nat>, files: map<Name, nat>, objs: map<nat, ZFile>, next: nat,
          f: ZFile, replace: bool, g: ZFile)
    requires Tracks(log, before, objs, next) && IsVersion(f, replace, before, objs, files) && Consistent(before, objs)
    requires IdsBelow(objs, next)
    requires f.meta.id in TableOf(log).objs && g.meta == f.meta
    ensures var log' := log + [VersionRecord(f, replace)];
      && Tracks(log', files, objs[f.meta.id := g], next)
      && TableOf(log').objs
           == TableOf(log).objs[f.meta.id := Merged(TableOf(log).objs, Delta(f.meta, f.synced), replace)]
  {
    hide Fold, Consistent, Sound, ApplyUpdate, Merge, Rebind, CanBind, Mirrors;
    var t, id, d := TableOf(log), f.meta.id, Delta(f.meta, f.synced);
    FoldVersion(log, f, replace);
    assert id < next;
    NamesFree(t, before, objs, f);
    UpdateExact(t, d, replace);
    MergeKeepsLinks(t.objs[id], d, replace);
    MirrorsVersion(t, before, files, objs, f, g, ApplyUpdate(t, d, replace).value);
  }

  lemma MergeKeepsLinks(d: FileMeta, u: FileMeta, replace: bool)
    ensures Merge(d, u, replace).links == u.links
  {
  }

  lemma NamesFree(t: Table, before: map<Name, nat>, objs: map<nat, ZFile>, f: ZFile)
    requires Mirrors(t, before, objs) && CanBind(before, f.meta.links, f.meta.id)
    ensures CanBind(t.files, f.meta.links, f.meta.id)
  {
    hide NoDup;
  }

  lemma MirrorsVersion(t: Table, before: map<Name, nat>, files: map<Name, nat>, objs: map<nat, ZFile>, f: ZFile,
          g: ZFile, t': Table)
    requires Sound(t) && Mirrors(t, before, objs) && Consistent(before, objs) && f.meta.id in t.objs && g.meta == f.meta
    requires CanBind(before, f.meta.links, f.meta.id) && CanBind(t.files, f.meta.links, f.meta.id) && f.meta.id in objs
    requires files == Rebind(before, objs[f.meta.id].meta.links, f.meta.links, f.meta.id)
    requires t'.files == Rebind(t.files, t.objs[f.meta.id].links, f.meta.links, f.meta.id)
    requires f.meta.id in t'.objs && t'.objs == t.objs[f.meta.id := t'.objs[f.meta.id]]
    requires t'.objs[f.meta.id].links == f.meta.links
    ensures Mirrors(t', files, objs[f.meta.id := g])
  {
    var id, links := f.meta.id, f.meta.links;
    hide Consistent, Sound, CanBind, Rebind, NoDup, Names;
    RebindNames(before, objs, f);
    SoundRebind(t, f);
    assert t'.objs.Keys == t.objs.Keys;
    assert forall n :: n in t'.files <==> n in files && files[n] in t'.objs;
  }

  lemma SoundRebind(t: Table, f: ZFile)
    requires Sound(t) && f.meta.id in t.objs && CanBind(t.files, f.meta.links, f.meta.id)
    ensures var id, files' := f.meta.id, Rebind(t.files, t.objs[f.meta.id].links, f.meta.links, f.meta.id);
      && (forall n :: n in files' <==> n in f.meta.links || (n in t.files && t.files[n] != id))
      && (forall n <- files' :: files'[n] == if n in f.meta.links then id else t.files[n])
  {
    RebindNames(t.files, AsObjs(t.objs), f);
    assert AsObjs(t.objs)[f.meta.id].meta == t.objs[f.meta.id];
  }

  /** A logged version of a file that the log does not have: with one name, the file is in the
      log from now on. */
  lemma NewVersionTracks(log: seq<Record>, before: map<Name, nat>, files: map<Name, nat>, objs: map<nat, ZFile>,
          next: nat, f: ZFile, replace: bool, g: ZFile)
    requires Tracks(log, before, objs, next) && IsVersion(f, replace, before, objs, files) && Consistent(before, objs)
    requires IdsBelow(objs, next)
    requires f.meta.id !in TableOf(log).objs && g.meta == f.meta && |f.meta.links| == 1
    ensures f.synced == 0
    ensures var log' := log + [VersionRecord(f, replace)];
      && Tracks(log', files, objs[f.meta.id := g], next)
      && TableOf(log').objs == TableOf(log).objs[f.meta.id := f.meta]
  {
    hide Fold, Consistent, Sound, ApplyUpdate;
    var t, id, x := TableOf(log), f.meta.id, f.meta.links[0];
    FoldVersion(log, f, replace);
    assert f.meta.extents[0..] == f.meta.extents;
    assert Delta(f.meta, 0) == f.meta;
    NewNameFree(t, before, objs, f);
    CreateExact(t, f.meta, replace);
    MirrorsNewVersion(t, before, files, objs, f, g, ApplyUpdate(t, f.meta, replace).value);
  }

  /** Names of a file that the log does not have are free in the log. */
  lemma NewNameFree(t: Table, before: map<Name, nat>, objs: map<nat, ZFile>, f: ZFile)
    requires Mirrors(t, before, objs) && CanBind(before, f.meta.links, f.meta.id) && f.meta.id !in t.objs
    ensures forall n <- f.meta.links :: n !in t.files
    ensures f.meta.id !in t.files.Values
  {
  }

  lemma MirrorsNewVersion(t: Table, before: map<Name, nat>, files: map<Name, nat>, objs: map<nat, ZFile>, f: ZFile,
          g: ZFile, t': Table)
    requires Mirrors(t, before, objs) && Consistent(before, objs) && f.meta.id in objs
    requires CanBind(before, f.meta.links, f.meta.id)
    requires files == Rebind(before, objs[f.meta.id].meta.links, f.meta.links, f.meta.id)
    requires f.meta.id !in t.objs && g.meta == f.meta && |f.meta.links| == 1
    requires t'.files == t.files[f.meta.links[0] := f.meta.id] && t'.objs == t.objs[f.meta.id := f.meta]
    ensures Mirrors(t', files, objs[f.meta.id := g])
  {
    hide Rebind, CanBind, Consistent, Names, NoDup;
    var id, x := f.meta.id, f.meta.links[0];
    assert f.meta.links == [x];
    RebindNames(before, objs, f);
  }

  /** With a second name, only the first one gets into the log: the log does not mirror the
      memory any more. */
  lemma SecondNameIsLost(log: seq<Record>, before: map<Name, nat>, files: map<Name, nat>, objs: map<nat, ZFile>,
          next: nat, f: ZFile, replace: bool, objs': map<nat, ZFile>, next': nat)
    requires Tracks(log, before, objs, next) && IsVersion(f, replace, before, objs, files) && Consistent(before, objs)
    requires f.meta.id !in TableOf(log).objs && |f.meta.links| >= 2
    ensures !Tracks(log + [VersionRecord(f, replace)], files, objs', next')
  {
    hide Fold, ApplyUpdate, Rebind, Consistent, Sound, CanBind;
    var t, d := TableOf(log), Delta(f.meta, f.synced);
    FoldVersion(log, f, replace);
    RebindNames(before, objs, f);
    NewNameFree(t, before, objs, f);
    SecondName(t, d, replace);
  }

  lemma SecondName(t: Table, u: FileMeta, replace: bool)
    requires u.id !in t.files.Values && |u.links| >= 2 && NoDup(u.links) && forall n <- u.links :: n !in t.files
    ensures var r := ApplyUpdate(t, u, replace);
      r.Ok? && u.id in r.value.objs && u.links[1] !in r.value.files && u.links[1] in u.links
  {
    var x := u.links[0];
    assert u.links[1] in u.links && x in u.links && x != u.links[1];
    InsertOne(t.files, x, u.id);
    assert t.files[x := u.id][x] == u.id;
  }

  lemma FoldDeletion(log: seq<Record>, id: nat, name: Name)
    requires Fold(log).Running? && Fold(log).seen
    ensures Fold(log + [Deletion(id, name)]) == Carry(ApplyDeletion(Fold(log).table, id, name), true)
  {
    FoldAppend(log, Deletion(id, name));
    hide Fold, ApplyDeletion;
  }

  /** A logged deletion of a name of a file that the log has. */
  lemma DeletionTracks(log: seq<Record>, files: map<Name, nat>, objs: map<nat, ZFile>, next: nat, name: Name)
    requires Tracks(log, files, objs, next) && Consistent(files, objs) && name in files
    requires files[name] in TableOf(log).objs
    ensures var id := files[name];
      var log' := log + [Deletion(id, name)];
      && id in objs && Tracks(log', files - {name}, DropName(objs, id, name), next)
      && TableOf(log').objs == DropMeta(TableOf(log).objs, id, name)
  {
    hide Fold, ApplyDeletion, DropMeta, DropName, Sound, Consistent;
    var t := TableOf(log);
    FoldDeletion(log, files[name], name);
    assert t.files[name] == files[name];
    MirrorsDeletion(t, files, objs, name);
    DeletionExact(t, name);
  }

  lemma MirrorsDeletion(t: Table, files: map<Name, nat>, objs: map<nat, ZFile>, name: Name)
    requires Sound(t) && Mirrors(t, files, objs) && Consistent(files, objs) && name in files && files[name] in t.objs
    ensures var id := files[name];
      id in objs && Mirrors(Table(t.files - {name}, DropMeta(t.objs, id, name), t.nextId), files - {name},
        DropName(objs, id, name))
  {
    hide Sound, Consistent, NoDup, Names, Mirrors, Without;
    var id := files[name];
    FileOfName(files, objs, name);
    LeftNames(t, files, objs, name);
    DroppedMirrors(t, files, objs, name);
  }

  /** The names that are left of a file are the same in the log and in memory. */
  lemma LeftNames(t: Table, files: map<Name, nat>, objs: map<nat, ZFile>, name: Name)
    requires Sound(t) && Mirrors(t, files, objs) && Consistent(files, objs) && name in files && files[name] in t.objs
    ensures files[name] in objs
    ensures var d, rest := Without(t.objs[files[name]].links, name), Without(objs[files[name]].meta.links, name);
      && Names(d) == Names(rest) && (d == [] <==> rest == [])
      && forall n <- files :: files[n] == files[name] && n != name ==> rest != []
  {
    var id := files[name];
    NamesOfFile(files, objs, id);
    NamesOfFile(t.files, AsObjs(t.objs), id);
    assert AsObjs(t.objs)[id].meta == t.objs[id];
    NamesLeft(objs[id].meta.links, name);
    WithoutProperties(objs[id].meta.links, name);
    WithoutProperties(t.objs[id].links, name);
    hide Sound, Consistent, NoDup, Names, Without;
    SameEmpty(Without(t.objs[id].links, name), Without(objs[id].meta.links, name));
  }

  lemma DroppedMirrors(t: Table, files: map<Name, nat>, objs: map<nat, ZFile>, name: Name)
    requires Mirrors(t, files, objs) && name in files && files[name] in t.objs && files[name] in objs
    requires var d, rest := Without(t.objs[files[name]].links, name), Without(objs[files[name]].meta.links, name);
      && Names(d) == Names(rest) && (d == [] <==> rest == [])
      && forall n <- files :: files[n] == files[name] && n != name ==> rest != []
    ensures var id := files[name];
      Mirrors(Table(t.files - {name}, DropMeta(t.objs, id, name), t.nextId), files - {name}, DropName(objs, id, name))
  {
    hide Names, Without;
  }

  lemma SameEmpty(a: seq<Name>, b: seq<Name>)
    requires Names(a) == Names(b)
    ensures a == [] <==> b == []
  {
    if a != [] { assert a[0] in Names(b); }
    if b != [] { assert b[0] in Names(a); }
  }

  /** A deletion record of a file that the log does not have makes the log unreadable. */
  lemma DeletingUnloggedFileCorrupts(log: seq<Record>, files: map<Name, nat>, objs: map<nat, ZFile>, next: nat,
          name: Name)
    requires Tracks(log, files, objs, next) && name in files
    ensures Outcome(Fold(log + [Deletion(files[name], name)])) == Corrupted <==> files[name] !in TableOf(log).objs
  {
    hide Fold;
    FoldDeletion(log, files[name], name);
    if files[name] in TableOf(log).objs {
      assert TableOf(log).files[name] == files[name];
      NamesOfFile(TableOf(log).files, AsObjs(TableOf(log).objs), files[name]);
    }
  }

  /** The order of the links and unsynced fields do not matter. */
  lemma RelinkTracks(log: seq<Record>, files: map<Name, nat>, objs: map<nat, ZFile>, next: nat, f: ZFile)
    requires f.meta.id in objs && Names(f.meta.links) == Names(objs[f.meta.id].meta.links)
    requires |f.meta.links| == |objs[f.meta.id].meta.links| && (f.synced == objs[f.meta.id].synced || f.synced == 0)
    ensures Tracks(log, files, objs, next) ==> Tracks(log, files, objs[f.meta.id := f], next)
  {
    hide Fold, Sound;
  }

  lemma RelinkConsistent(files: map<Name, nat>, objs: map<nat, ZFile>, next: nat, f: ZFile)
    requires Consistent(files, objs) && IdsBelow(objs, next) && f.meta.id in objs && f.synced <= |f.meta.extents|
    requires NoDup(f.meta.links) && Names(f.meta.links) == Names(objs[f.meta.id].meta.links)
    ensures Consistent(files, objs[f.meta.id := f]) && IdsBelow(objs[f.meta.id := f], next)
  {
    var g := objs[f.meta.id];
    assert forall n :: n in f.meta.links <==> n in Names(f.meta.links);
    assert forall n :: n in g.meta.links <==> n in Names(g.meta.links);
    assert g.meta.links[0] in g.meta.links;
  }

  /** A file that is not in the log. */
  lemma UnloggedTracks(log: seq<Record>, files: map<Name, nat>, objs: map<nat, ZFile>, next: nat, f: FileMeta,
          next': nat)
    requires Consistent(files, objs) && f.id !in objs && |f.links| == 1 && f.links[0] !in files && next <= next'
    ensures Tracks(log, files, objs, next) ==>
      Tracks(log, files[f.links[0] := f.id], objs[f.id := ZFile(f, 0)], next') && f.id !in TableOf(log).objs
  {
    hide Fold, Sound;
    if Tracks(log, files, objs, next) {
      var t, files' := Fold(log).table, files[f.links[0] := f.id];
      assert forall n <- files :: files[n] in objs;
      }
  }

  /** The record of a new file. */
  lemma CreationTracks(log: seq<Record>, files: map<Name, nat>, objs: map<nat, ZFile>, next: nat, f: FileMeta,
          next': nat)
    requires Tracks(log, files, objs, next) && Consistent(files, objs) && f.id !in objs && |f.links| == 1
    requires f.links[0] !in files
    requires next <= next' && f.id < next' && f.extents == []
    ensures var log' := log + [Update(Delta(f, 0))];
      && Tracks(log', files[f.links[0] := f.id], objs[f.id := ZFile(f, 0)], next')
      && TableOf(log').objs == TableOf(log).objs[f.id := f]
  {
    hide Fold, Sound, ApplyUpdate, Consistent, Mirrors;
    var t := TableOf(log);
    assert Delta(f, 0) == f;
    FoldVersion(log, ZFile(f, 0), false);
    FreeInLog(t, files, objs, f);
    CreateExact(t, f, false);
    MirrorsCreation(t, files, objs, f, ApplyUpdate(t, f, false).value);
  }

  lemma FreeInLog(t: Table, files: map<Name, nat>, objs: map<nat, ZFile>, f: FileMeta)
    requires Mirrors(t, files, objs) && f.id !in objs && |f.links| == 1 && f.links[0] !in files
    ensures f.links[0] !in t.files && f.id !in t.objs
  {
  }

  lemma MirrorsCreation(t: Table, files: map<Name, nat>, objs: map<nat, ZFile>, f: FileMeta, t': Table)
    requires Mirrors(t, files, objs) && Consistent(files, objs) && f.id !in objs && |f.links| == 1
    requires f.links[0] !in files
    requires t'.files == t.files[f.links[0] := f.id] && t'.objs == t.objs[f.id := f]
    ensures Mirrors(t', files[f.links[0] := f.id], objs[f.id := ZFile(f, 0)])
  {
    hide Names, Consistent;
    FilesInMemory(files, objs);
    var files', objs' := files[f.links[0] := f.id], objs[f.id := ZFile(f, 0)];
    assert f.id !in t.objs;
    assert f.links == [f.links[0]];
    forall id | id in objs' && id !in t'.objs
      ensures |objs'[id].meta.links| == 1 && objs'[id].synced == 0
    {
      assert id in objs && objs'[id] == objs[id];
    }
  }

  lemma FilesInMemory(files: map<Name, nat>, objs: map<nat, ZFile>)
    requires Consistent(files, objs)
    ensures forall n <- files :: files[n] in objs
  {
  }

  lemma StrandedDoesNotTrack(files: map<Name, nat>, objs: map<nat, ZFile>, next: nat)
    ensures !Tracks([], files, objs, next)
  {
  }

  lemma AppendName(s: seq<Name>, n: Name)
    requires NoDup(s) && n !in s
    ensures NoDup(s + [n]) && Names(s + [n]) == Names(s) + {n}
  {
  }

  /** The links of a file are bound to it and to no other file. */
  lemma LinksOf(files: map<Name, nat>, objs: map<nat, ZFile>, id: nat)
    requires Consistent(files, objs) && id in objs
    ensures objs[id].meta.id == id && NoDup(objs[id].meta.links) && objs[id].meta.links != []
    ensures objs[id].synced <= |objs[id].meta.extents|
    ensures forall n :: n in objs[id].meta.links <==> n in files && files[n] == id
    ensures CanBind(files, objs[id].meta.links, id)
    ensures Rebind(files, objs[id].meta.links, objs[id].meta.links, id) == files
  {
    assert forall n <- objs[id].meta.links :: n in files && files[n] == id;
  }

  /** Giving a file the additional name `link`. */
  lemma LinkBinds(files: map<Name, nat>, objs: map<nat, ZFile>, name: Name, link: Name)
    requires Consistent(files, objs) && name in files && link !in files
    ensures files[name] in objs
    ensures var id := files[name];
      var links := objs[id].meta.links;
      && CanBind(files, links + [link], id)
      && Rebind(files, links, links + [link], id) == files[link := id]
      && Without(links + [link], link) == links
  {
    var id := files[name];
    LinksOf(files, objs, id);
    var links := objs[id].meta.links;
    AppendName(links, link);
    WithoutLast(links, link);
  }

  lemma {:induction false} WithoutLast(s: seq<Name>, x: Name)
    requires x !in s
    ensures Without(s + [x], x) == s
  {
    if s != [] {
      assert (s + [x])[1..] == s[1..] + [x];
      WithoutLast(s[1..], x);
    }
  }

  lemma RenamedLinks(links: seq<Name>, src: Name, dst: Name)
    requires NoDup(links) && src in links && dst !in links
    ensures var renamed := Without(links, src) + [dst];
      && NoDup(renamed) && Names(renamed) == Names(links) - {src} + {dst}
      && NoDup(Without(renamed, dst) + [src])
      && Names(Without(renamed, dst) + [src]) == Names(links)
  {
    hide NoDup, Without;
    WithoutProperties(links, src);
    var rest := Without(links, src);
    assert forall n :: n in rest <==> n in Names(rest);
    AppendName(rest, dst);
    WithoutLast(rest, dst);
    AppendName(rest, src);
    assert src in Names(links);
  }

  /** Renaming `src` to the free name `dst`, and back. */
  lemma RenameBinds(files: map<Name, nat>, objs: map<nat, ZFile>, src: Name, dst: Name)
    requires Consistent(files, objs) && src in files && dst !in files
    ensures files[src] in objs
    ensures var id := files[src];
      var links := objs[id].meta.links;
      var renamed := Without(links, src) + [dst];
      && CanBind(files, renamed, id)
      && Rebind(files, links, renamed, id) == (files - {src})[dst := id]
      && NoDup(Without(renamed, dst) + [src])
      && Names(Without(renamed, dst) + [src]) == Names(links)
  {
    hide NoDup, Without, Rebind, CanBind;
    var id := files[src];
    assert id in objs;
    LinksOf(files, objs, id);
    var links := objs[id].meta.links;
    RenamedLinks(links, src, dst);
    RebindTwo(files, links, Without(links, src) + [dst], src, dst);
  }

  lemma RebindTwo(files: map<Name, nat>, links: seq<Name>, renamed: seq<Name>, src: Name, dst: Name)
    requires src in files && dst !in files
    requires forall n :: n in links <==> n in files && files[n] == files[src]
    requires NoDup(renamed) && Names(renamed) == Names(links) - {src} + {dst}
    ensures CanBind(files, renamed, files[src])
    ensures Rebind(files, links, renamed, files[src]) == (files - {src})[dst := files[src]]
  {
    var id := files[src];
    assert dst in Names(renamed);
    forall n | n in renamed
      ensures n !in files || files[n] == id
    {
      assert n in Names(renamed);
    }
    hide NoDup;
    var r, r' := Rebind(files, links, renamed, id), (files - {src})[dst := id];
    assert r.Keys == files.Keys - Names(links) + Names(renamed) == r'.Keys;
    assert forall n <- r :: r[n] == r'[n];
  }

  lemma PutNameBack(files: map<Name, nat>, objs: map<nat, ZFile>, name: Name)
    requires Consistent(files, objs) && name in files
    ensures var id := files[name];
      && id in objs && objs[id].meta.id == id && objs[id].synced <= |objs[id].meta.extents|
      && var links := Without(objs[id].meta.links, name) + [name];
         NoDup(links) && Names(links) == Names(objs[id].meta.links)
  {
    var id := files[name];
    LinksOf(files, objs, id);
    hide Consistent, CanBind, Rebind;
    var links := objs[id].meta.links;
    WithoutProperties(links, name);
    assert name in Names(links);
    assert name !in Without(links, name) by { assert name !in Names(Without(links, name)); }
    AppendName(Without(links, name), name);
  }

  // ---------- the file system object ----------

  /** What was logged last of a file, after a version of it was logged, is the file in memory, if
      and only if the log had its synced extents, or the record replaces them, or the file is
      new. */
  lemma LastIsVersion(last: map<nat, FileMeta>, f: ZFile, replace: bool)
    requires f.synced <= |f.meta.extents| && (replace ==> f.synced == 0)
    requires f.meta.id in last ==> last[f.meta.id].id == f.meta.id
    requires f.meta.id !in last ==> f.synced == 0
    ensures LastVersion(last, f, replace)[f.meta.id] == f.meta
      <==> replace || f.meta.id !in last || last[f.meta.id].extents == f.meta.extents[..f.synced]
  {
    assert Delta(f.meta, 0) == f.meta by { assert f.meta.extents[0..] == f.meta.extents; }
    if f.meta.id in last { MergeGivesFile(last[f.meta.id], f.meta, f.synced, replace); }
  }

  datatype Status = Good | Error | NotHere

  /** Extents that do not count as synced are not in the log. */
  lemma GrowInFull(t: Table, objs: map<nat, ZFile>, f: ZFile)
    requires f.meta.id in objs && f.synced == objs[f.meta.id].synced && objs[f.meta.id].meta.extents <= f.meta.extents
    ensures InFull(t, objs) ==> InFull(t, objs[f.meta.id := f])
  {
  }

  lemma SyncedAlready(objs: map<nat, ZFile>, id: nat)
    requires id in objs
    ensures AllSynced(objs)[id := Full(objs[id])] == AllSynced(objs)
  {
  }

  lemma UnloggedHasOneName(log: seq<Record>, files: map<Name, nat>, objs: map<nat, ZFile>, next: nat, id: nat)
    requires id in objs
    ensures Tracks(log, files, objs, next) && id !in TableOf(log).objs ==> |objs[id].meta.links| == 1
  {
    hide Fold, Sound;
  }

  /** The log after a version was appended. */
  lemma LoggedVersion(log': seq<Record>, log: seq<Record>, before: map<Name, nat>, files: map<Name, nat>,
          objs: map<nat, ZFile>, next: nat, f: ZFile, replace: bool)
    requires IsVersion(f, replace, before, objs, files) && Consistent(before, objs) && IdsBelow(objs, next)
    requires f.synced <= |f.meta.extents| && log' == log + [VersionRecord(f, replace)]
    ensures Tracks(log, before, objs, next) ==>
      (Tracks(log', files, objs[f.meta.id := Full(f)], next) <==> f.meta.id in TableOf(log).objs || |f.meta.links| == 1)
    ensures Tracks(log, before, objs, next) && (f.meta.id in TableOf(log).objs || |f.meta.links| == 1) ==>
      TableOf(log').objs == TableOf(log).objs[f.meta.id := Merged(TableOf(log).objs, Delta(f.meta, f.synced), replace)]
  {
    hide Tracks, Fold, Consistent, TableOf;
    if Tracks(log, before, objs, next) {
      HasName(before, f, objs, replace, files);
      if f.meta.id in TableOf(log).objs {
        VersionTracks(log, before, files, objs, next, f, replace, Full(f));
      } else if |f.meta.links| == 1 {
        NewVersionTracks(log, before, files, objs, next, f, replace, Full(f));
        assert f.meta.extents[0..] == f.meta.extents;
      } else {
        SecondNameIsLost(log, before, files, objs, next, f, replace, objs[f.meta.id := Full(f)], next);
      }
    }
  }

  lemma HasName(before: map<Name, nat>, f: ZFile, objs: map<nat, ZFile>, replace: bool, files: map<Name, nat>)
    requires IsVersion(f, replace, before, objs, files)
    ensures |f.meta.links| >= 1
  {
  }

  predicate AppendedInFull(log: seq<Record>, log': seq<Record>, before: map<Name, nat>, objs: map<nat, ZFile>,
          next: nat, how: Persist, f: ZFile, replace: bool)
    requires f.synced <= |f.meta.extents|
  {
    && how == Appended && Tracks(log, before, objs, next) && InFull(TableOf(log), objs)
    && TableOf(log').objs == LastVersion(TableOf(log).objs, f, replace)
  }

  lemma InFullHas(t: Table, objs: map<nat, ZFile>, id: nat)
    requires id in objs
    ensures InFull(t, objs) ==> id in t.objs
  {
  }

  lemma MetaOf(objs: map<nat, ZFile>, id: nat)
    requires id in objs
    ensures id in Metas(objs) && Metas(objs)[id] == objs[id].meta
  {
  }

  /** After a version of a file was logged, the log is in full agreement if it was before. */
  lemma AgreementAfterVersion(log: seq<Record>, log': seq<Record>, before: map<Name, nat>, files: map<Name, nat>,
          objs: map<nat, ZFile>, objs': map<nat, ZFile>, next: nat, f: ZFile, replace: bool, how: Persist)
    requires f.meta.id in objs && f.synced == (if replace then 0 else objs[f.meta.id].synced) <= |f.meta.extents|
    requires !replace ==> f.meta.extents == objs[f.meta.id].meta.extents
    requires how == Appended ==> objs' == objs[f.meta.id := Full(f)]
    requires how == Lost ==> log' == log && objs' == objs[f.meta.id := f]
    ensures how == Lost && !replace && InFull(TableOf(log), objs) ==> InFull(TableOf(log'), objs')
    ensures AppendedInFull(log, log', before, objs, next, how, f, replace) ==>
      InFull(TableOf(log'), objs') && f.meta.id in TableOf(log').objs && TableOf(log').objs[f.meta.id] == f.meta
  {
    hide Fold, Sound, TableOf;
    if AppendedInFull(log, log', before, objs, next, how, f, replace) {
      LoggedId(log, before, objs, next, f.meta.id);
      LastIsVersion(TableOf(log).objs, f, replace);
      assert f.meta.extents[..|f.meta.extents|] == f.meta.extents;
    }
  }

  lemma LoggedId(log: seq<Record>, files: map<Name, nat>, objs: map<nat, ZFile>, next: nat, id: nat)
    requires Tracks(log, files, objs, next) && id in TableOf(log).objs
    ensures TableOf(log).objs[id].id == id
  {
    hide Fold;
    var t := TableOf(log);
    assert AsObjs(t.objs)[id].meta == t.objs[id];
  }

  lemma DeletionLogged(log: seq<Record>, files: map<Name, nat>, objs: map<nat, ZFile>, next: nat, name: Name)
    requires Consistent(files, objs) && name in files
    ensures files[name] in objs
    ensures var id := files[name];
      var log', objs' := log + [Deletion(id, name)], DropName(objs, id, name);
      Tracks(log, files, objs, next) ==>
        && (Tracks(log', files - {name}, objs', next) <==> id in TableOf(log).objs)
        && (id in TableOf(log).objs ==> TableOf(log').objs == DropMeta(TableOf(log).objs, id, name))
        && (InFull(TableOf(log), objs) ==> id in TableOf(log).objs && InFull(TableOf(log'), objs'))
  {
    hide Fold, Consistent, DropMeta, Tracks;
    FileOfName(files, objs, name);
    if Tracks(log, files, objs, next) {
      DeletingUnloggedFileCorrupts(log, files, objs, next, name);
      var id := files[name];
      var log' := log + [Deletion(id, name)];
      CorruptedDoesNotTrack(log', files - {name}, DropName(objs, id, name), next);
      if id in TableOf(log).objs {
        DeletionTracks(log, files, objs, next, name);
        SameNames(log, files, objs, next, id);
        DropInFull(TableOf(log), TableOf(log'), objs, id, name);
      }
    }
  }

  lemma CorruptedDoesNotTrack(log: seq<Record>, files: map<Name, nat>, objs: map<nat, ZFile>, next: nat)
    ensures Outcome(Fold(log)) == Corrupted ==> !Tracks(log, files, objs, next)
  {
    hide Fold;
  }

  lemma SameNames(log: seq<Record>, files: map<Name, nat>, objs: map<nat, ZFile>, next: nat, id: nat)
    requires Tracks(log, files, objs, next) && Consistent(files, objs) && id in TableOf(log).objs
    ensures id in objs && Names(TableOf(log).objs[id].links) == Names(objs[id].meta.links)
    ensures NoDup(TableOf(log).objs[id].links) && NoDup(objs[id].meta.links)
  {
    hide Fold;
    var t := TableOf(log);
    assert AsObjs(t.objs)[id].meta == t.objs[id];
  }

  lemma DropInFull(t: Table, t': Table, objs: map<nat, ZFile>, id: nat, name: Name)
    requires id in objs && id in t.objs && Names(t.objs[id].links) == Names(objs[id].meta.links)
    requires NoDup(t.objs[id].links) && NoDup(objs[id].meta.links)
    requires t'.objs == DropMeta(t.objs, id, name)
    ensures InFull(t, objs) ==> InFull(t', DropName(objs, id, name))
  {
    WithoutProperties(t.objs[id].links, name);
    WithoutProperties(objs[id].meta.links, name);
    SameEmpty(Without(t.objs[id].links, name), Without(objs[id].meta.links, name));
    hide NoDup, Without, Names;
  }

  lemma DeletionFacts(log: seq<Record>, files: map<Name, nat>, objs: map<nat, ZFile>, next: nat, name: Name)
    requires Consistent(files, objs) && IdsBelow(objs, next) && name in files
    ensures files[name] in objs
    ensures var id := files[name];
      && Consistent(files - {name}, DropName(objs, id, name)) && IdsBelow(DropName(objs, id, name), next)
      && Metas(DropName(objs, id, name)) == DropMeta(Metas(objs), id, name)
    ensures var id, f := files[name], objs[files[name]];
      var objs' := DropName(objs, id, name)[id := f.(meta := f.meta.(links := Without(f.meta.links, name) + [name]))];
      && Consistent(files, objs') && IdsBelow(objs', next) && objs'.Keys == objs.Keys
      && (Tracks(log, files, objs, next) ==> Tracks(log, files, objs', next))
      && (InFull(TableOf(log), objs) ==> InFull(TableOf(log), objs'))
  {
    hide Consistent, Tracks, NoDup, Names, Without, Fold, InFull, TableOf, IdsBelow, DropName, Metas, DropMeta;
    DropConsistent(files, objs, name);
    FileOfName(files, objs, name);
    DropIds(objs, next, files[name], name);
    BackFacts(log, files, objs, next, name);
    var f := objs[files[name]];
    DroppedAndBack(objs, files[name], name, f.(meta := f.meta.(links := Without(f.meta.links, name) + [name])));
  }

  lemma DropIds(objs: map<nat, ZFile>, next: nat, id: nat, name: Name)
    requires IdsBelow(objs, next) && id in objs
    ensures IdsBelow(DropName(objs, id, name), next)
    ensures Metas(DropName(objs, id, name)) == DropMeta(Metas(objs), id, name)
  {
    hide Without;
  }

  /** A name that is put back behind the others. */
  lemma BackFacts(log: seq<Record>, files: map<Name, nat>, objs: map<nat, ZFile>, next: nat, name: Name)
    requires Consistent(files, objs) && IdsBelow(objs, next) && name in files
    ensures files[name] in objs
    ensures var id, f := files[name], objs[files[name]];
      var objs' := objs[id := f.(meta := f.meta.(links := Without(f.meta.links, name) + [name]))];
      && Consistent(files, objs') && IdsBelow(objs', next) && objs'.Keys == objs.Keys
      && (Tracks(log, files, objs, next) ==> Tracks(log, files, objs', next))
      && (InFull(TableOf(log), objs) ==> InFull(TableOf(log), objs'))
  {
    hide Consistent, Tracks, NoDup, Names, Without, Fold, InFull, TableOf, IdsBelow;
    PutNameBack(files, objs, name);
    var f := objs[files[name]];
    var back := f.(meta := f.meta.(links := Without(f.meta.links, name) + [name]));
    FileOfName(files, objs, name);
    BackLength(f.meta.links, name);
    RelinkTracks(log, files, objs, next, back);
    RelinkConsistent(files, objs, next, back);
    GrowInFull(TableOf(log), objs, back);
  }

  lemma {:induction false} BackLength(links: seq<Name>, name: Name)
    requires name in links
    ensures |Without(links, name) + [name]| == |links|
  {
    if links[0] != name { BackLength(links[1..], name); }
  }

  lemma RenameFacts(log: seq<Record>, files: map<Name, nat>, objs: map<nat, ZFile>, next: nat, src: Name, dst: Name,
          mtime: nat)
    requires Consistent(files, objs) && IdsBelow(objs, next) && src in files && dst !in files
    ensures var id := files[src];
      && id in objs && objs[id].meta.id == id && objs[id].synced <= |objs[id].meta.extents|
      && var f, renamed := objs[id], Without(objs[id].meta.links, src) + [dst];
         var v := f.(meta := f.meta.(links := renamed, mtime := mtime));
         var undone := f.(meta := f.meta.(links := Without(renamed, dst) + [src], mtime := mtime));
         && IsVersion(v, false, files, objs, (files - {src})[dst := id])
         && (Tracks(log, files, objs, next) && id !in TableOf(log).objs ==> |renamed| == 1)
         && var objs' := objs[id := v][id := undone];
            && Consistent(files, objs') && IdsBelow(objs', next)
            && (Tracks(log, files, objs, next) ==> Tracks(log, files, objs', next))
            && (InFull(TableOf(log), objs) ==> InFull(TableOf(log), objs'))
  {
    hide Consistent, Tracks, NoDup, Names, Without, CanBind, Rebind, IdsBelow, TableOf, InFull;
    var id := files[src];
    RenameBinds(files, objs, src, dst);
    LinksOf(files, objs, id);
    var f, renamed := objs[id], Without(objs[id].meta.links, src) + [dst];
    var v := f.(meta := f.meta.(links := renamed, mtime := mtime));
    var undone := f.(meta := f.meta.(links := Without(renamed, dst) + [src], mtime := mtime));
    BackLength(f.meta.links, src);
    AppendedLength(Without(f.meta.links, src), src, dst);
    BackLength(renamed, dst);
    UnloggedHasOneName(log, files, objs, next, id);
    RelinkTracks(log, files, objs, next, undone);
    RelinkConsistent(files, objs, next, undone);
    GrowInFull(TableOf(log), objs, undone);
    assert objs[id := v][id := undone] == objs[id := undone];
  }

  lemma AppendedLength(s: seq<Name>, a: Name, b: Name)
    ensures |s + [a]| == |s + [b]| && b in s + [b]
  {
    assert (s + [b])[|s|] == b;
  }

  lemma LinkFacts(log: seq<Record>, files: map<Name, nat>, objs: map<nat, ZFile>, next: nat, name: Name, link: Name,
          mtime: nat)
    requires Consistent(files, objs) && IdsBelow(objs, next) && name in files && link !in files
    ensures var id := files[name];
      && id in objs && objs[id].meta.id == id && objs[id].synced <= |objs[id].meta.extents|
      && var f, links := objs[id], objs[id].meta.links + [link];
         var v := f.(meta := f.meta.(links := links, mtime := mtime));
         var undone := f.(meta := f.meta.(links := Without(links, link), mtime := mtime));
         && IsVersion(v, false, files, objs, files[link := id]) && |links| >= 2
         && var objs' := objs[id := v][id := undone];
            && Consistent(files, objs') && IdsBelow(objs', next)
            && (Tracks(log, files, objs, next) ==> Tracks(log, files, objs', next))
            && (InFull(TableOf(log), objs) ==> InFull(TableOf(log), objs'))
  {
    hide Tracks, NoDup, Names, Without, CanBind, Rebind, IdsBelow, Consistent, TableOf, InFull;
    var id := files[name];
    LinkBinds(files, objs, name, link);
    LinksOf(files, objs, id);
    var f, links := objs[id], objs[id].meta.links + [link];
    var v := f.(meta := f.meta.(links := links, mtime := mtime));
    var undone := f.(meta := f.meta.(links := Without(links, link), mtime := mtime));
    RelinkTracks(log, files, objs, next, undone);
    RelinkConsistent(files, objs, next, undone);
    GrowInFull(TableOf(log), objs, undone);
    assert objs[id := v][id := undone] == objs[id := undone];
  }

  lemma NewId(objs: map<nat, ZFile>, next: nat)
    requires IdsBelow(objs, next)
    ensures next !in objs && IdsBelow(objs, next + 1)
  {
  }

  lemma BelowNext(objs: map<nat, ZFile>, id: nat, next: nat, f: ZFile)
    requires IdsBelow(objs, next) && id < next
    ensures IdsBelow(objs[id := f], next)
  {
  }

  lemma LaterId(log: seq<Record>, files: map<Name, nat>, objs: map<nat, ZFile>, next: nat, next': nat)
    requires next <= next'
    ensures Tracks(log, files, objs, next) ==> Tracks(log, files, objs, next')
  {
    hide Fold, Sound, Mirrors;
  }

  lemma SameIds(objs: map<nat, ZFile>, objs': map<nat, ZFile>, id: nat)
    requires objs' == AllSynced(objs) && id !in objs
    ensures id !in objs'
  {
  }

  lemma CreatedLogged(log: seq<Record>, files: map<Name, nat>, objs: map<nat, ZFile>, next: nat, f: FileMeta)
    requires Consistent(files, objs) && next !in objs && f.id == next && |f.links| == 1 && f.links[0] !in files
    requires f.extents == []
    ensures var log', files', objs' := log + [Update(Delta(f, 0))], files[f.links[0] := f.id],
      objs[f.id := ZFile(f, 0)];
      Tracks(log, files, objs, next) ==>
        && Tracks(log', files', objs', next + 1)
        && TableOf(log').objs == LastVersion(TableOf(log).objs, ZFile(f, 0), false) && f.id in TableOf(log').objs
        && (InFull(TableOf(log), objs) ==> InFull(TableOf(log'), objs'))
  {
    hide Fold, Tracks, Consistent;
    if Tracks(log, files, objs, next) {
      assert Delta(f, 0) == f;
      CreationTracks(log, files, objs, next, f, next + 1);
      UnloggedTracks(log, files, objs, next, f, next + 1);
    }
  }

  lemma CreatedUnlogged(log: seq<Record>, files: map<Name, nat>, objs: map<nat, ZFile>, id: nat, next: nat, f: FileMeta)
    requires Consistent(files, objs) && id !in objs && f.id == id && |f.links| == 1 && f.links[0] !in files
    requires Tracks(log, files, objs, next)
    ensures Tracks(log, files[f.links[0] := f.id], objs[f.id := ZFile(f, 0)], next) && f.id !in TableOf(log).objs
    ensures !InFull(TableOf(log), objs[f.id := ZFile(f, 0)])
  {
    hide Fold, Tracks, Consistent;
    UnloggedTracks(log, files, objs, next, f, next);
    assert f.id in objs[f.id := ZFile(f, 0)];
  }

  lemma NextEntry(names: set<Name>, files: map<Name, nat>, objs: map<nat, ZFile>, n: Name)
    requires IsLeast(n, names) && n in files && files[n] in objs
    ensures EntriesOf(names, files, objs) == [objs[files[n]].meta] + EntriesOf(names - {n}, files, objs)
  {
    LeastIsUnique(names, n, Least(names));
    assert EntryOf(files, objs, n) == [objs[files[n]].meta];
  }

  lemma JoinEntries(a: seq<FileMeta>, e: FileMeta, b: seq<FileMeta>)
    ensures a + ([e] + b) == a + [e] + b
  {
  }

  lemma NoEntries(files: map<Name, nat>, objs: map<nat, ZFile>)
    ensures EntriesOf({}, files, objs) == []
    ensures forall a: seq<FileMeta> {:trigger a + EntriesOf({}, files, objs)} :: a + EntriesOf({}, files, objs) == a
  {
  }

  /** The steps of the metadata zones for a record. */
  lemma ZoneSteps(fmt: Format, states: seq<M.State>, actions: seq<M.Action>, log: seq<Record>, rec: Record,
          entries: seq<FileMeta>, dev: DeviceOutcome, log': seq<Record>)
    returns (states': seq<M.State>, actions': seq<M.Action>)
    requires rec.Update? || rec.Replace? || rec.Deletion?
    requires match Fate(fmt, log, rec, entries, dev)
      case Appended => log' == log + [rec]
      case Rolled => log' == [Snapshot(entries)]
      case Stranded => true
      case _ => log' == log
    ensures var how := Fate(fmt, log, rec, entries, dev);
      M.OnZones(fmt, states, actions, log) && how != Stranded && (how == Appended ==> Fold(log').Running?) ==>
        M.OnZones(fmt, states', actions', log') && states <= states' &&
          M.Between(states', |states|, TableOf(log), TableOf(log'))
  {
    hide M.OnZones, Fold, M.Between, Room, SnapshotFits, M.SnapshotTable;
    states', actions' := states, actions;
    var how := Fate(fmt, log, rec, entries, dev);
    NoSteps(states, TableOf(log));
    if M.OnZones(fmt, states, actions, log) {
      if how == Appended && Fold(log').Running? {
        states', actions' := M.AppendSteps(fmt, states, actions, log, rec);
      } else if how == Rolled {
        M.OneRecord(entries);
        states', actions' := M.RollSteps(fmt, states, actions, log, rec, entries);
      }
    }
  }

  lemma FateOf(fmt: Format, log: seq<Record>, rec: Record, entries: seq<FileMeta>, dev: DeviceOutcome)
    ensures var how := Fate(fmt, log, rec, entries, dev);
      && (Room(fmt, log, rec) ==> how == if dev == Works then Appended else Lost)
      && (!Room(fmt, log, rec) && dev == Works ==> how == if SnapshotFits(fmt, entries) then Rolled else Stranded)
      && (!Room(fmt, log, rec) && dev == FailsEarly ==> how == Lost)
      && (!Room(fmt, log, rec) && dev == FailsLate ==> how == Stranded)
  {
    hide Room, SnapshotFits;
  }

  /** Every other file has the metadata that it had. */
  predicate OnlyFile(a: map<nat, ZFile>, b: map<nat, ZFile>, id: nat) {
    && (forall i <- a :: i != id ==> i in b && b[i].meta == a[i].meta)
    && (forall i <- b :: i != id ==> i in a)
  }

  /** The metadata in memory after a name was deleted, if it was there, with this outcome. */
  function Freed(files: map<Name, nat>, objs: map<nat, ZFile>, name: Name, how: Persist): map<nat, FileMeta> {
    if name !in files || files[name] !in objs then Metas(objs)
    else
      var id, f := files[name], objs[files[name]].meta;
      if Logs(how) then DropMeta(Metas(objs), id, name)
      else Metas(objs)[id := f.(links := Without(f.links, name) + [name])]
  }

  lemma SameMetas(a: map<nat, ZFile>, b: map<nat, ZFile>)
    requires Metas(a) == Metas(b)
    ensures a.Keys == b.Keys && forall i <- a :: b[i].meta == a[i].meta
  {
    assert a.Keys == Metas(a).Keys && b.Keys == Metas(b).Keys;
    forall i | i in a
      ensures b[i].meta == a[i].meta
    {
      assert Metas(a)[i] == Metas(b)[i];
    }
  }

  /** A version of a file is in memory, and the others are as they were. */
  lemma VersionOnly(a: map<nat, ZFile>, b: map<nat, ZFile>, f: ZFile)
    requires Metas(b) == Metas(a)[f.meta.id := f.meta]
    ensures OnlyFile(a, b, f.meta.id) && f.meta.id in b && b[f.meta.id].meta == f.meta
  {
    assert a.Keys == Metas(a).Keys && b.Keys == Metas(b).Keys;
    forall i | i in b
      ensures Metas(b)[i] == b[i].meta
    {
    }
    forall i | i in a
      ensures Metas(a)[i] == a[i].meta && i in b
    {
    }
  }

  /** A name that a file does not have is taken away again. */
  lemma NotLinked(files: map<Name, nat>, objs: map<nat, ZFile>, id: nat, name: Name, more: Name)
    requires Consistent(files, objs) && id in objs && more !in files
    ensures Without(objs[id].meta.links + [more], more) == objs[id].meta.links
    ensures Without(Without(objs[id].meta.links, name) + [more], more) == Without(objs[id].meta.links, name)
  {
    hide NoDup, Without;
    assert more !in objs[id].meta.links;
    WithoutPart(objs[id].meta.links, name);
    WithoutLast(objs[id].meta.links, more);
    WithoutLast(Without(objs[id].meta.links, name), more);
  }

  lemma {:induction false} WithoutPart(s: seq<Name>, x: Name)
    ensures forall y <- Without(s, x) :: y in s
  {
    if s != [] && s[0] != x { WithoutPart(s[1..], x); }
  }

  /** A file has lost a name, and with its last one it is gone. */
  predicate Unlinked(a: map<nat, ZFile>, b: map<nat, ZFile>, id: nat, name: Name) {
    && OnlyFile(a, b, id) && id in a && (id in b <==> Without(a[id].meta.links, name) != [])
    && (id in b ==> b[id].meta == a[id].meta.(links := Without(a[id].meta.links, name)))
  }

  /** A file has its name again, behind the others. */
  predicate PutBack(a: map<nat, ZFile>, b: map<nat, ZFile>, id: nat, name: Name) {
    && OnlyFile(a, b, id) && id in a && id in b
    && b[id].meta == a[id].meta.(links := Without(a[id].meta.links, name) + [name])
  }

  /** A file has these links and this modification time. */
  predicate Relabeled(a: map<nat, ZFile>, b: map<nat, ZFile>, id: nat, links: seq<Name>, mtime: nat) {
    OnlyFile(a, b, id) && id in a && id in b && b[id].meta == a[id].meta.(links := links, mtime := mtime)
  }

  lemma UnlinkedStays(a: map<nat, ZFile>, b: map<nat, ZFile>, c: map<nat, ZFile>, id: nat, name: Name)
    requires Unlinked(a, b, id, name) && Metas(c) == Metas(b)
    ensures Unlinked(a, c, id, name)
  {
    hide Without;
    SameMetas(b, c);
  }

  lemma PutBackIs(a: map<nat, ZFile>, b: map<nat, ZFile>, id: nat, name: Name)
    requires id in a
    requires b == a[id := a[id].(meta := a[id].meta.(links := Without(a[id].meta.links, name) + [name]))]
    ensures PutBack(a, b, id, name)
    ensures Metas(b) == Metas(a)[id := a[id].meta.(links := Without(a[id].meta.links, name) + [name])]
  {
    hide Without;
  }

  lemma RelabeledIs(a: map<nat, ZFile>, b: map<nat, ZFile>, f: ZFile, links: seq<Name>, mtime: nat)
    requires f.meta.id in a && f.meta == a[f.meta.id].meta.(links := links, mtime := mtime)
    ensures Metas(b) == Metas(a)[f.meta.id := f.meta] ==> Relabeled(a, b, f.meta.id, links, mtime)
    ensures b == a[f.meta.id := f] ==> Relabeled(a, b, f.meta.id, links, mtime)
  {
    if Metas(b) == Metas(a)[f.meta.id := f.meta] { VersionOnly(a, b, f); }
  }

  lemma MetasOf(a: map<nat, ZFile>, b: map<nat, ZFile>, id: nat)
    requires OnlyFile(a, b, id)
    ensures id in b ==> Metas(b) == Metas(a)[id := b[id].meta]
    ensures id !in b && id !in a ==> Metas(b) == Metas(a)
  {
  }

  lemma FreedNothing(files: map<Name, nat>, objs: map<nat, ZFile>, name: Name)
    requires name !in files
    ensures Freed(files, objs, name, NoRecord) == Metas(objs)
  {
  }

  lemma RelabeledMetas(a: map<nat, ZFile>, b: map<nat, ZFile>, id: nat, links: seq<Name>, mtime: nat)
    requires Relabeled(a, b, id, links, mtime)
    ensures id in b && Metas(b) == Metas(a)[id := b[id].meta]
    ensures id in a && b[id].meta == a[id].meta.(links := links, mtime := mtime)
  {
    MetasOf(a, b, id);
  }

  lemma DroppedFile(objs: map<nat, ZFile>, id: nat, name: Name)
    requires id in objs
    ensures Unlinked(objs, DropName(objs, id, name), id, name)
  {
    hide Without;
  }

  lemma LinkRefused(fmt: Format, m: Memory, name: Name, link: Name, mtime: nat, dev: DeviceOutcome)
    ensures link in m.files || name !in m.files ==> LinkOf(fmt, m, name, link, mtime, dev) == One(m, NoRecord)
  {
  }

  lemma LinkEnds(fmt: Format, m: Memory, name: Name, link: Name, mtime: nat, dev: DeviceOutcome, end: Ending)
    requires link !in m.files && Named(m, name)
    requires var id := m.files[name];
      var f, links := m.objs[id], m.objs[id].meta.links + [link];
      var r := VersionOf(fmt, m.(files := m.files[link := id]), Touched(f, links, mtime), false, dev);
      && end.how == r.how
      && end.memory == if Logs(r.how) then r.memory
                       else r.memory.(files := m.files, objs := m.objs[id := Touched(f, Without(links, link), mtime)])
    ensures end == LinkOf(fmt, m, name, link, mtime, dev)
  {
    hide VersionOf, Without;
  }

  lemma RenameEnds(fmt: Format, m: Memory, src: Name, dst: Name, mtime: nat, dev: DeviceOutcome, end: Ending)
    requires Named(m, src)
    requires var id := m.files[src];
      var f, renamed := m.objs[id], Without(m.objs[id].meta.links, src) + [dst];
      var r := VersionOf(fmt, m.(files := (m.files - {src})[dst := id]), Touched(f, renamed, mtime), false, dev);
      && end.how == r.how
      && end.memory == if Logs(r.how) then r.memory
                       else r.memory.(files := m.files, objs :=
                         m.objs[id := Touched(f, Without(renamed, dst) + [src], mtime)])
    ensures end == RenameFreeOf(fmt, m, src, dst, mtime, dev)
  {
    hide VersionOf, Without;
  }

  lemma NoSteps(states: seq<M.State>, t: Table)
    ensures M.Between(states, |states|, t, t)
  {
  }

  class ZenFs {
    const fmt: Format
    var files: map<Name, nat>
    var objs: map<nat, ZFile>
    var nextId: nat
    var log: seq<Record>
    ghost var last: map<nat, FileMeta>
    /** The steps that the metadata zones have taken. */
    ghost var states: seq<M.State>
    ghost var actions: seq<M.Action>

    ghost function Contents(): Memory
      reads this
    {
      Memory(files, objs, nextId, log, last)
    }

    /** `files_` and the link lists are mutually inverse, and ids are not reused. */
    ghost predicate NamesInverse()
      reads this
    {
      1 <= nextId && Consistent(files, objs) && IdsBelow(objs, nextId)
    }

    /** Replaying the log gives names that mirror the memory. */
    ghost predicate Tracked()
      reads this
    {
      Tracks(log, files, objs, nextId)
    }

    /** What replaying the log gives of every file. */
    ghost function Durable(): map<nat, FileMeta>
      reads this
    {
      TableOf(log).objs
    }

    /** And of every file that is what was logged last. */
    ghost predicate Recorded()
      reads this
    {
      Tracked() && Durable() == last
    }

    /** The log is what these steps have put on the zones. */
    ghost predicate OnZones()
      reads this
    {
      M.OnZones(fmt, states, actions, log)
    }

    /** The log is in full agreement with the memory. */
    ghost predicate Valid()
      reads this
    {
      NamesInverse() && Recorded() && InFull(TableOf(log), objs)
    }

    /** An empty file system, as MkFS and the first mount leave it. */
    constructor (fmt: Format)
      ensures SnapshotFits(fmt, []) ==> OnZones()
      ensures Valid() && this.fmt == fmt && Contents() == EMPTY
    {
      this.fmt := fmt;
      files, objs, nextId, last := map[], map[], 1, map[];
      log := [Snapshot([])];
      ghost var s, a := [], [];
      if SnapshotFits(fmt, []) { s, a := M.FirstMount(fmt); }
      states, actions := s, a;
      RollTracks([], map[], map[], 1);
      assert AllSynced(map[]) == map[];
    }

    /** EncodeSnapshotTo: one entry per name, in the order of `files_`. */
    method EncodeSnapshot() returns (entries: seq<FileMeta>)
      requires Consistent(files, objs)
      ensures entries == SnapshotOf(Contents()) && IsSnapshot(entries, files, objs)
    {
      hide Less, IsSnapshot, EntriesOf, Consistent;
      SnapshotIsSnapshot(Contents());
      FilesInMemory(files, objs);
      entries := [];
      var left := files.Keys;
      while left != {}
        invariant left <= files.Keys
        invariant entries + EntriesOf(left, files, objs) == SnapshotOf(Contents())
        decreases left
      {
        LeastExists(left);
        var n :| n in left && forall k <- left :: k == n || Less(n, k);
        NextEntry(left, files, objs, n);
        JoinEntries(entries, objs[files[n]].meta, EntriesOf(left - {n}, files, objs));
        entries := entries + [objs[files[n]].meta];
        left := left - {n};
      }
      NoEntries(files, objs);
    }

    /** PersistRecord, with the roll. What happens depends on the room behind the log, on the
        size of the snapshot, and on the device. A crash after any step of the zones that it takes
        recovers what the log gave before, or what it gives afterwards. */
    method PersistRecord(rec: Record, ghost kept: map<nat, FileMeta>, dev: DeviceOutcome) returns (how: Persist)
      requires NamesInverse() && (rec.Update? || rec.Replace? || rec.Deletion?)
      modifies this`log, this`objs, this`last, this`states, this`actions
      ensures NamesInverse() && One(Contents(), how) == PersistOf(fmt, old(Contents()), rec, kept, dev)
      ensures how == Fate(fmt, old(log), rec, SnapshotOf(old(Contents())), dev)
      ensures Room(fmt, old(log), rec) ==> how == if dev == Works then Appended else Lost
      ensures !Room(fmt, old(log), rec) && dev == Works ==>
        how == if SnapshotFits(fmt, SnapshotOf(old(Contents()))) then Rolled else Stranded
      ensures !Room(fmt, old(log), rec) && dev == FailsEarly ==> how == Lost
      ensures !Room(fmt, old(log), rec) && dev == FailsLate ==> how == Stranded
      ensures how == Appended ==> log == old(log) + [rec] && last == kept
      ensures how == Rolled ==> log == [Snapshot(SnapshotOf(old(Contents())))]
      ensures how == Lost ==> log == old(log)
      ensures how in {Lost, Stranded} ==> last == old(last)
      ensures how == Stranded ==> log == []
      ensures how == Rolled ==> objs == AllSynced(old(objs)) && Valid() && Durable() == Metas(objs)
      ensures how != Rolled ==> objs == old(objs)
      ensures Metas(objs) == Metas(old(objs))
      ensures old(OnZones()) && how != Stranded && (how == Appended ==> Fold(log).Running?) ==>
        OnZones() && old(states) <= states && M.Between(states, |old(states)|, TableOf(old(log)), TableOf(log))
    {
      hide Consistent, Tracks, InFull, Fold, SnapshotOf, IdsBelow, M.OnZones, M.Between, Metas, TableOf, AllSynced,
        PersistOf, Fate;
      ghost var m := Contents();
      FateOf(fmt, log, rec, SnapshotOf(m), dev);
      how := WriteRecord(rec, kept, dev);
      ghost var states', actions' := ZoneSteps(fmt, states, actions, m.log, rec, SnapshotOf(m), dev, log);
      states, actions := states', actions';
    }

    /** What PersistRecord does to the log and to what counts as synced. */
    method WriteRecord(rec: Record, ghost kept: map<nat, FileMeta>, dev: DeviceOutcome) returns (how: Persist)
      requires NamesInverse()
      modifies this`log, this`objs, this`last
      ensures NamesInverse() && One(Contents(), how) == PersistOf(fmt, old(Contents()), rec, kept, dev)
      ensures how == Fate(fmt, old(log), rec, SnapshotOf(old(Contents())), dev)
      ensures how == Appended ==> log == old(log) + [rec] && last == kept
      ensures how == Rolled ==> log == [Snapshot(SnapshotOf(old(Contents())))]
      ensures how !in {Appended, Rolled, Stranded} ==> how == Lost && log == old(log)
      ensures how in {Lost, Stranded} ==> last == old(last)
      ensures how == Stranded ==> log == []
      ensures how == Rolled ==> objs == AllSynced(old(objs)) && Valid() && Durable() == Metas(objs)
      ensures how != Rolled ==> objs == old(objs)
      ensures Metas(objs) == Metas(old(objs))
    {
      hide Consistent, Tracks, InFull, Fold, Room, SnapshotOf, IdsBelow, SnapshotFits, Metas, TableOf, AllSynced,
        IsSnapshot;
      var entries := EncodeSnapshot();
      how := Fate(fmt, log, rec, entries, dev);
      match how {
        case Appended =>
          log := log + [rec];
          last := kept;
        case Rolled =>
          RollTracks(entries, files, objs, nextId);
          SyncedConsistent(files, objs, nextId);
          log := [Snapshot(entries)];
          last := Metas(objs);
          objs := AllSynced(objs);
        case Stranded => log := [];
        case _ =>
      }
    }

    /** A write in memory: extents are added and the other fields change, nothing is logged. */
    method Write(id: nat, more: seq<Extent>, size: nat, hint: nat, extentStart: nat)
      requires NamesInverse() && id in objs
      modifies this`objs
      ensures NamesInverse() && Contents() == WriteOf(old(Contents()), id, more, size, hint, extentStart)
      ensures objs.Keys == old(objs).Keys && forall i <- objs :: i != id ==> objs[i] == old(objs)[i]
      ensures objs[id].synced == old(objs)[id].synced
      ensures var f := old(objs)[id].meta;
        objs[id].meta == FileMeta(f.id, size, hint, f.extents + more, f.mtime, extentStart, f.sparse, f.links)
      ensures (old(Recorded()) ==> Recorded()) && (old(Valid()) ==> Valid()) && (old(OnZones()) ==> OnZones())
    {
      hide M.OnZones, Consistent, Tracks, IdsBelow, NoDup, CanBind, Rebind, Names, InFull;
      LinksOf(files, objs, id);
      var f := objs[id];
      var f' := f.(meta := f.meta.(extents := f.meta.extents + more, size := size, hint := hint,
        extentStart := extentStart));
      RelinkTracks(log, files, objs, nextId, f');
      RelinkConsistent(files, objs, nextId, f');
      GrowInFull(TableOf(log), objs, f');
      objs := objs[id := f'];
    }

    /** Logs the version `f` of a file, whose names the caller has put in `files_`; `before`
        is `files_` as it was. The common part of sync, replace, rename and link. */
    method LogVersion(f: ZFile, replace: bool, ghost before: map<Name, nat>, dev: DeviceOutcome) returns (how: Persist)
      requires 1 <= nextId && Consistent(before, objs) && IdsBelow(objs, nextId)
      requires IsVersion(f, replace, before, objs, files)
      modifies this`objs, this`log, this`last, this`states, this`actions
      ensures f.synced <= |f.meta.extents| && One(Contents(), how) == VersionOf(fmt, old(Contents()), f, replace, dev)
      ensures NamesInverse() && how != NoRecord && f.meta.id in objs
      ensures objs[f.meta.id] == if Logs(how) then Full(f) else f
      ensures Metas(objs) == Metas(old(objs))[f.meta.id := f.meta]
      ensures dev == Works && SnapshotFits(fmt, SnapshotOf(old(Contents()).(objs := old(objs)[f.meta.id := f]))) ==>
        Logs(how)
      ensures how == Appended ==>
        log == old(log) + [VersionRecord(f, replace)] && last == LastVersion(old(last), f, replace)
      ensures how == Lost ==> log == old(log) && last == old(last)
      ensures how == Stranded ==> log == [] && !Tracked()
      ensures how in {Lost, Stranded} ==> objs == old(objs)[f.meta.id := f]
      ensures how == Appended ==> objs == old(objs)[f.meta.id := Full(f)]
      ensures how == Rolled ==> Valid() && objs == AllSynced(old(objs)[f.meta.id := f]) && Durable() == Metas(objs)
      ensures old(Tracks(log, before, objs, nextId)) && how == Appended ==>
        (Tracked() <==> f.meta.id in old(Durable()) || |f.meta.links| == 1)
      ensures old(Tracks(log, before, objs, nextId)) && how == Appended && Tracked() ==>
        Durable() == LastVersion(old(Durable()), f, replace)
      ensures old(OnZones()) && how != Stranded && (how == Appended ==> Tracked()) ==> OnZones()
    {
      hide M.OnZones, Consistent, Tracks, IdsBelow, IsVersion, AllSynced, Metas, InFull, Fold, Room, Merged, TableOf,
        PersistOf, LastVersion;
      VersionConsistent(before, files, objs, nextId, f, replace);
      var id := f.meta.id;
      ghost var objs0, log0 := objs, log;
      objs := objs[id := f];
      how := PersistRecord(VersionRecord(f, replace), LastVersion(last, f, replace), dev);
      match how {
        case Appended =>
          LoggedVersion(log, log0, before, files, objs0, nextId, f, replace);
          objs := objs[id := Full(f)];
          assert objs == objs0[id := Full(f)];
          AppendedLast(TableOf(log0).objs, f, replace);
          TracksRuns(log, files, objs, nextId);
        case Rolled =>
          SyncedAlready(objs0[id := f], id);
          objs := objs[id := Full(f)];
        case Stranded =>
          StrandedDoesNotTrack(files, objs, nextId);
        case _ =>
      }
    }

    /** SyncFileMetadataNoLock for an update: the delta since the last sync is logged. */
    method SyncFileMetadata(id: nat, mtime: nat, dev: DeviceOutcome) returns (how: Persist)
      requires NamesInverse() && id in objs
      modifies this`objs, this`log, this`last, this`states, this`actions
      ensures NamesInverse() && how != NoRecord && Known(old(Contents()), id)
      ensures One(Contents(), how) == SyncOf(fmt, old(Contents()), id, mtime, dev)
      ensures id in objs && objs[id].meta == old(objs)[id].meta.(mtime := mtime)
      ensures Metas(objs) == Metas(old(objs))[id := objs[id].meta]
      ensures objs[id].synced == if Logs(how) then |objs[id].meta.extents| else old(objs)[id].synced
      ensures how == Appended ==> log == old(log) + [Update(Delta(objs[id].meta, old(objs)[id].synced))]
      ensures var touched := old(objs)[id := ZFile(objs[id].meta, old(objs)[id].synced)];
        old(Valid()) && dev == Works && SnapshotFits(fmt, SnapshotOf(old(Contents()).(objs := touched))) ==>
          Valid() && id in Durable() && Durable()[id] == old(objs)[id].meta.(mtime := mtime)
      ensures how == Rolled ==> Valid()
      ensures old(Tracked()) ==> (Tracked() <==> how != Stranded)
      ensures old(Recorded()) && how != Stranded ==> Recorded()
      ensures old(Tracked() && OnZones()) && how != Stranded ==> OnZones()
      ensures old(Valid()) && how != Stranded ==>
        Valid() && id in objs && (how != Lost ==> Durable()[id] == objs[id].meta)
    {
      hide M.OnZones, Consistent, Tracks, CanBind, Rebind, NoDup, IdsBelow, Metas, Names, InFull, TableOf, Fold, Room,
        Merged, AllSynced, VersionOf, LastVersion;
      LinksOf(files, objs, id);
      var f := objs[id].(meta := objs[id].meta.(mtime := mtime));
      RelinkTracks(log, files, objs, nextId, f);
      RelinkConsistent(files, objs, nextId, f);
      UnloggedHasOneName(log, files, objs, nextId, id);
      ghost var objs0, log0 := objs, log;
      how := LogVersion(f, false, files, dev);
      AgreementAfterVersion(log0, log, files, files, objs0, objs, nextId, f, false, how);
      MetaOf(objs, id);
    }

    /** SyncFileExtents: the migrated extent list replaces the old one in memory and in the
        log. When the record is lost, none of the new list counts as synced, and the log keeps
        the old one. */
    method ReplaceExtents(id: nat, extents: seq<Extent>, dev: DeviceOutcome) returns (how: Persist)
      requires NamesInverse() && id in objs && |extents| == |objs[id].meta.extents|
      modifies this`objs, this`log, this`last, this`states, this`actions
      ensures NamesInverse() && how != NoRecord && Known(old(Contents()), id)
      ensures One(Contents(), how) == ReplaceOf(fmt, old(Contents()), id, extents, dev)
      ensures id in objs && objs[id].meta == old(objs)[id].meta.(extents := extents)
      ensures Metas(objs) == Metas(old(objs))[id := objs[id].meta]
      ensures objs[id].synced == if Logs(how) then |extents| else 0
      ensures how == Appended ==> log == old(log) + [Replace(objs[id].meta)]
      ensures old(Valid()) && Logs(how) ==> id in Durable() && Durable()[id].extents == extents
      ensures how == Rolled ==> Valid()
      ensures how in {Lost, Stranded} ==> id in objs && objs[id].synced == 0
      ensures old(Tracked()) ==> (Tracked() <==> how != Stranded)
      ensures old(Recorded()) && how != Stranded ==> Recorded()
      ensures old(Tracked() && OnZones()) && how != Stranded ==> OnZones()
      ensures old(Valid()) && Logs(how) ==> Valid() && id in objs && Durable()[id] == objs[id].meta
    {
      hide M.OnZones, Consistent, Tracks, CanBind, Rebind, NoDup, IdsBelow, Metas, Names, InFull, TableOf, Fold, Room,
        Merged, AllSynced, VersionOf, LastVersion;
      LinksOf(files, objs, id);
      var f := ZFile(objs[id].meta.(extents := extents), 0);
      RelinkTracks(log, files, objs, nextId, f);
      RelinkConsistent(files, objs, nextId, f);
      UnloggedHasOneName(log, files, objs, nextId, id);
      ghost var objs0, log0 := objs, log;
      how := LogVersion(f, true, files, dev);
      AgreementAfterVersion(log0, log, files, files, objs0, objs, nextId, f, true, how);
      MetaOf(objs, id);
    }

    /** DeleteFileNoLock. The log is readable afterwards unless the roll lost its snapshot, or
        the record is of a file that the log does not have. */
    method DeleteFile(name: Name, dev: DeviceOutcome) returns (s: Status, how: Persist)
      requires NamesInverse()
      modifies this`files, this`objs, this`log, this`last, this`states, this`actions
      ensures NamesInverse() && One(Contents(), how) == DeleteOf(fmt, old(Contents()), name, dev)
      ensures how == NoRecord <==> name !in old(files)
      ensures s == if how == NoRecord then NotHere else if how in {Lost, Stranded} then Error else Good
      ensures files == if s == Good then old(files) - {name} else old(files)
      ensures s == Good ==> Metas(objs) == DropMeta(Metas(old(objs)), old(files)[name], name)
      ensures s == Good ==> Unlinked(old(objs), objs, old(files)[name], name)
      ensures s == Error ==> PutBack(old(objs), objs, old(files)[name], name)
      ensures s != Good ==> objs.Keys == old(objs).Keys
      ensures Metas(objs) == Freed(old(files), old(objs), name, how)
      ensures s == NotHere ==> Contents() == old(Contents())
      ensures how == Rolled ==> Valid()
      ensures old(Tracked()) && name in old(files) ==>
        (Tracked() <==> how != Stranded && (how == Appended ==> old(files)[name] in old(Durable())))
      ensures old(Recorded()) && Tracked() ==> Recorded()
      ensures old(Tracked() && OnZones()) && Tracked() ==> OnZones()
      ensures old(Valid()) && how != Stranded ==> Valid()
    {
      hide M.OnZones, Consistent, Tracks, IdsBelow, DropName, DropMeta, Metas, AllSynced, Without, InFull, Fold, Room,
        TableOf, PersistOf, Unlinked, PutBack;
      if name !in files {
        return NotHere, NoRecord;
      }
      var id := files[name];
      DeletionFacts(log, files, objs, nextId, name);
      KnownFile(files, objs, id);
      DroppedFile(objs, id, name);
      var f := objs[id];
      ghost var files0, objs0, log0 := files, objs, log;
      files := files - {name};
      objs := DropName(objs, id, name);
      ghost var dropped := objs;
      how := PersistRecord(Deletion(id, name), DropMeta(last, id, name), dev);
      UnlinkedStays(objs0, dropped, objs, id, name);
      if how == Lost || how == Stranded {
        // put the name back, now at the end of the list of links
        files := files[name := id];
        objs := objs[id := f.(meta := f.meta.(links := Without(f.meta.links, name) + [name]))];
        assert files == files0;
        DroppedAndBack(objs0, id, name, f.(meta := f.meta.(links := Without(f.meta.links, name) + [name])));
        assert objs == objs0[id := Relinked(f, Without(f.meta.links, name) + [name])];
        PutBackIs(objs0, objs, id, name);
        StrandedDoesNotTrack(files, objs, nextId);
        return Error, how;
      }
      if how == Appended {
        DeletionLogged(log0, files0, objs0, nextId, name);
        TracksRuns(log, files, objs, nextId);
      }
      return Good, how;
    }

    /** RenameFileNoLock for a file of this file system. Renaming a file onto itself first
        deletes it and then fails to find it. A rename that cannot be logged is rolled back
        and still reports success. */
    method RenameFile(src: Name, dst: Name, mtime: nat, devDelete: DeviceOutcome, dev: DeviceOutcome)
      returns (s: Status, howDelete: Persist, how: Persist)
      requires NamesInverse()
      modifies this`files, this`objs, this`log, this`last, this`states, this`actions
      ensures NamesInverse()
      ensures Two(Contents(), howDelete, how) == RenameOf(fmt, old(Contents()), src, dst, mtime, devDelete, dev)
      ensures howDelete != NoRecord <==> src in old(files) && dst in old(files)
      ensures how != NoRecord <==> src in old(files) && src != dst && howDelete in {NoRecord, Appended, Rolled}
      ensures s == if src !in old(files) then NotHere
                   else if src == dst || howDelete in {Lost, Stranded} then Error else Good
      ensures s == NotHere ==> Contents() == old(Contents())
      ensures s == Error ==> Metas(objs) == Freed(old(files), old(objs), dst, howDelete)
      ensures s == Good ==>
        var id, freed := old(files)[src], Freed(old(files), old(objs), dst, howDelete);
        && id in freed && id in objs && Metas(objs) == freed[id := objs[id].meta]
        && objs[id].meta == freed[id].(
             links := Without(freed[id].links, src) + [if Logs(how) then dst else src], mtime := mtime)
      ensures s == Error ==> files == if howDelete in {Lost, Stranded} then old(files) else old(files) - {dst}
      ensures s == Good ==> files == if how in {Lost, Stranded} then old(files) - {dst}
                                     else (old(files) - {src})[dst := old(files)[src]]
      ensures old(Recorded()) && !Harms(howDelete, dst in old(files) && old(files)[dst] in old(last)) ==>
        (Recorded() <==> how != Stranded) && (old(OnZones()) && how != Stranded ==> OnZones())
      ensures old(Valid()) && howDelete != Stranded && how != Stranded ==> Valid()
    {
      hide M.OnZones, Consistent, Tracks, IdsBelow, DropName, DropMeta, Metas, InFull, Fold, TableOf, Room, DeleteOf,
        RenameFreeOf, RenameOf, Freed, OnlyFile, Without, Relabeled, Unlinked, PutBack;
      howDelete, how := NoRecord, NoRecord;
      RenameParts(fmt, Contents(), src, dst, mtime, devDelete, dev);
      if src !in files {
        return NotHere, howDelete, how;
      }
      NothingToDelete(fmt, Contents(), dst);
      if dst !in files { FreedNothing(files, objs, dst); }
      if dst in files {
        var d;
        d, howDelete := DeleteFile(dst, devDelete);
        if d != Good {
          return Error, howDelete, how;
        }
      }
      if src == dst {
        return Error, howDelete, how;
      }
      KnownName(files, objs, src);
      ghost var id, objs1 := files[src], objs;
      MetaOf(objs, id);
      how := RenameFree(src, dst, mtime, dev);
      RelabeledMetas(objs1, objs, id, Without(objs1[id].meta.links, src) + [if Logs(how) then dst else src], mtime);
      s := Good;
    }

    /** The part of a rename after the destination has been freed. */
    method RenameFree(src: Name, dst: Name, mtime: nat, dev: DeviceOutcome) returns (how: Persist)
      requires NamesInverse() && src in files && dst !in files
      modifies this`files, this`objs, this`log, this`last, this`states, this`actions
      ensures NamesInverse() && how != NoRecord
      ensures Named(old(Contents()), src)
      ensures One(Contents(), how) == RenameFreeOf(fmt, old(Contents()), src, dst, mtime, dev)
      ensures var id := old(files)[src];
        Relabeled(old(objs), objs, id, Without(old(objs)[id].meta.links, src) + [if Logs(how) then dst else src], mtime)
      ensures files == if how in {Lost, Stranded} then old(files) else (old(files) - {src})[dst := old(files)[src]]
      ensures how == Rolled ==> Valid()
      ensures old(Tracked()) ==> (Tracked() <==> how != Stranded)
      ensures old(Recorded()) && how != Stranded ==> Recorded()
      ensures old(Tracked() && OnZones()) && how != Stranded ==> OnZones()
      ensures old(Valid()) && how != Stranded ==> Valid()
    {
      hide M.OnZones, Consistent, Tracks, IdsBelow, IsVersion, Without, Metas, InFull, Fold, TableOf, Merged, Room,
        AllSynced, VersionOf, LastVersion, RenameFreeOf, Relabeled;
      RenameFacts(log, files, objs, nextId, src, dst, mtime);
      KnownName(files, objs, src);
      var id := files[src];
      var f := objs[id];
      ghost var files0, objs0, log0, m := files, objs, log, Contents();
      var renamed := Without(f.meta.links, src) + [dst];
      NotLinked(files, objs, id, src, dst);
      var v := f.(meta := f.meta.(links := renamed, mtime := mtime));
      files := (files - {src})[dst := id];
      how := LogVersion(v, false, files0, dev);
      RelabeledIs(objs0, objs, v, renamed, mtime);
      AgreementAfterVersion(log0, log, files0, files, objs0, objs, nextId, v, false, how);
      if how == Lost || how == Stranded {
        // roll back; the caller is not told
        files := (files - {dst})[src := id];
        objs := objs[id := f.(meta := f.meta.(links := Without(renamed, dst) + [src], mtime := mtime))];
        assert files == files0;
        assert objs == objs0[id := objs[id]];
        RelabeledIs(objs0, objs, objs[id], Without(f.meta.links, src) + [src], mtime);
        StrandedDoesNotTrack(files, objs, nextId);
      }
      RenameEnds(fmt, m, src, dst, mtime, dev, One(Contents(), how));
    }

    /** LinkFile for a file of this file system; a link that cannot be logged is rolled back
        and still reports success. A link to a file that the log does not have is logged with
        its first name only. */
    method LinkFile(name: Name, link: Name, mtime: nat, dev: DeviceOutcome) returns (s: Status, how: Persist)
      requires NamesInverse()
      modifies this`files, this`objs, this`log, this`last, this`states, this`actions
      ensures NamesInverse() && One(Contents(), how) == LinkOf(fmt, old(Contents()), name, link, mtime, dev)
      ensures s == if link in old(files) then Error else if name !in old(files) then NotHere else Good
      ensures how != NoRecord <==> s == Good
      ensures files == if Logs(how) then old(files)[link := old(files)[name]] else old(files)
      ensures s == Good ==>
        var id := old(files)[name];
        Relabeled(old(objs), objs, id, old(objs)[id].meta.links + (if Logs(how) then [link] else []), mtime)
      ensures how == Rolled ==> Valid()
      ensures old(Tracked()) ==>
        (Tracked() <==> how != Stranded && (how == Appended ==>
          name in old(files) && old(files)[name] in old(Durable())))
      ensures old(Recorded()) && Tracked() ==> Recorded()
      ensures old(Tracked() && OnZones()) && Tracked() ==> OnZones()
      ensures old(Valid()) && how != Stranded ==> Valid()
    {
      hide M.OnZones, Consistent, Tracks, IdsBelow, IsVersion, Without, Metas, InFull, Fold, TableOf, Merged, Room,
        AllSynced, VersionOf, LastVersion, LinkOf, Relabeled;
      LinkRefused(fmt, Contents(), name, link, mtime, dev);
      if link in files {
        return Error, NoRecord;
      }
      if name !in files {
        return NotHere, NoRecord;
      }
      LinkFacts(log, files, objs, nextId, name, link, mtime);
      KnownName(files, objs, name);
      var id := files[name];
      InFullHas(TableOf(log), objs, id);
      var f := objs[id];
      ghost var files0, objs0, log0, m := files, objs, log, Contents();
      var links := f.meta.links + [link];
      NotLinked(files, objs, id, name, link);
      var v := f.(meta := f.meta.(links := links, mtime := mtime));
      files := files[link := id];
      how := LogVersion(v, false, files0, dev);
      RelabeledIs(objs0, objs, v, links, mtime);
      AgreementAfterVersion(log0, log, files0, files, objs0, objs, nextId, v, false, how);
      if how == Lost || how == Stranded {
        // roll back; the caller is not told
        files := files - {link};
        objs := objs[id := f.(meta := f.meta.(links := Without(links, link), mtime := mtime))];
        assert files == files0;
        assert objs == objs0[id := objs[id]];
        assert f.meta.links + [] == f.meta.links;
        RelabeledIs(objs0, objs, objs[id], f.meta.links, mtime);
        StrandedDoesNotTrack(files, objs, nextId);
      }
      LinkEnds(fmt, m, name, link, mtime, dev, One(Contents(), how));
      return Good, how;
    }

    /** OpenWritableFile for a new file: an existing file of that name is deleted first. The
        record of the new file is persisted before the file enters `files_`, so when there is no
        room for that record and the log rolls, the snapshot does not have the file and the
        record is never written. */
    method CreateFile(name: Name, sparse: bool, mtime: nat, devDelete: DeviceOutcome, dev: DeviceOutcome)
      returns (s: Status, id: nat, howDelete: Persist, how: Persist)
      requires NamesInverse()
      modifies this`files, this`objs, this`log, this`last, this`states, this`actions, this`nextId
      ensures NamesInverse()
      ensures Two(Contents(), howDelete, how) == CreateOf(fmt, old(Contents()), name, sparse, mtime, devDelete, dev)
      ensures howDelete != NoRecord <==> name in old(files)
      ensures how != NoRecord <==> howDelete in {NoRecord, Appended, Rolled}
      ensures s == if Logs(how) then Good else Error
      ensures s == Good ==> id == old(nextId) && files == old(files)[name := id]
      ensures nextId == old(nextId) + if how == NoRecord then 0 else 1
      ensures s == Good ==>
        id in objs && objs[id] == ZFile(FileMeta(id, 0, 0, [], mtime, NO_EXTENT, sparse, [name]), 0)
      ensures var freed := Freed(old(files), old(objs), name, howDelete);
        Metas(objs) == if s == Good then freed[id := objs[id].meta] else freed
      ensures s == Good ==> id in objs && objs[id] == ZFile(NewFile(id, name, sparse, mtime), 0)
      ensures old(Recorded()) && !Harms(howDelete, name in old(files) && old(files)[name] in old(last)) ==>
        && (Recorded() <==> how != Stranded) && (s == Good ==> (id in last <==> how == Appended))
        && (old(OnZones()) && how != Stranded ==> OnZones())
      ensures old(Valid()) && s == Good ==> (Valid() <==> how == Appended)
      ensures old(Valid()) && howDelete != Stranded && how != Stranded && s == Error ==> Valid()
      ensures howDelete == NoRecord ==>
        (how == Appended <==>
          Room(fmt, old(log), Update(Delta(NewFile(old(nextId), name, sparse, mtime), 0))) && dev == Works)
    {
      hide M.OnZones, Consistent, Tracks, IdsBelow, DropName, DropMeta, Metas, InFull, Fold, TableOf, Room, DeleteOf,
        CreateFreeOf, Freed, OnlyFile, Without, Unlinked, PutBack;
      id, howDelete, how := 0, NoRecord, NoRecord;
      NothingToDelete(fmt, Contents(), name);
      if name !in files { FreedNothing(files, objs, name); }
      if name in files {
        var d;
        d, howDelete := DeleteFile(name, devDelete);
        if d != Good {
          return Error, 0, howDelete, how;
        }
      }
      ghost var objs1 := objs;
      NewId(objs, nextId);
      s, id, how := CreateFree(name, sparse, mtime, dev);
      MetasOf(objs1, objs, id);
    }

    /** The part of a creation after the name has been freed. */
    method CreateFree(name: Name, sparse: bool, mtime: nat, dev: DeviceOutcome)
      returns (s: Status, id: nat, how: Persist)
      requires NamesInverse() && name !in files
      modifies this`files, this`objs, this`log, this`last, this`states, this`actions, this`nextId
      ensures NamesInverse() && id == old(nextId) && how != NoRecord
      ensures One(Contents(), how) == CreateFreeOf(fmt, old(Contents()), name, sparse, mtime, dev)
      ensures s == if Logs(how) then Good else Error
      ensures s == Good ==> files == old(files)[name := id]
      ensures s == Error ==> files == old(files)
      ensures s == Good ==> id in objs && objs[id] == ZFile(NewFile(id, name, sparse, mtime), 0)
      ensures OnlyFile(old(objs), objs, id) && nextId == old(nextId) + 1 && (id in objs <==> s == Good)
      ensures s == Good ==>
        objs[id] == ZFile(FileMeta(id, 0, 0, [], mtime, NO_EXTENT, sparse, [name]), 0)
      ensures how == Appended <==>
        Room(fmt, old(log), Update(Delta(NewFile(id, name, sparse, mtime), 0))) && dev == Works
      ensures old(Tracked()) ==>
        (Tracked() <==> how != Stranded) && (s == Good ==> (id in Durable() <==> how == Appended))
      ensures old(Recorded()) && how != Stranded ==> Recorded()
      ensures old(Tracked() && OnZones()) && how != Stranded ==> OnZones()
      ensures how == Rolled ==> Recorded() && !Valid()
      ensures old(Valid()) && how == Appended ==> Valid()
      ensures old(Valid()) && how == Lost ==> Valid()
    {
      hide M.OnZones, Consistent, Tracks, IdsBelow, Metas, InFull, Fold, TableOf, Room, AllSynced, PersistOf,
        LastVersion;
      id := nextId;
      var meta := NewFile(id, name, sparse, mtime);
      NewId(objs, nextId);
      ghost var files0, objs0, log0 := files, objs, log;
      nextId := nextId + 1;
      assert Delta(meta, 0) == meta;
      how := PersistRecord(Update(Delta(meta, 0)), LastVersion(last, ZFile(meta, 0), false), dev);
      SameMetas(objs0, objs);
      if how == Lost || how == Stranded {
        LaterId(log, files, objs, id, nextId);
        StrandedDoesNotTrack(files, objs, nextId);
        return Error, id, how;
      }
      if how == Appended {
        CreatedLogged(log0, files, objs, id, meta);
        TracksRuns(log, files[name := id], objs[id := ZFile(meta, 0)], nextId);
      } else {
        SameIds(objs0, objs, id);
        CreatedUnlogged(log, files, objs, id, nextId, meta);
      }
      CreationConsistent(files, objs, ZFile(meta, 0));
      BelowNext(objs, id, nextId, ZFile(meta, 0));
      files := files[name := id];
      objs := objs[id := ZFile(meta, 0)];
      return Good, id, how;
    }
  }

  lemma TracksRuns(log: seq<Record>, files: map<Name, nat>, objs: map<nat, ZFile>, next: nat)
    ensures Tracks(log, files, objs, next) ==> Fold(log).Running?
  {
    hide Fold, Sound, Mirrors;
  }

  lemma KnownFile(files: map<Name, nat>, objs: map<nat, ZFile>, id: nat)
    requires Consistent(files, objs) && id in objs
    ensures objs[id].synced <= |objs[id].meta.extents|
  {
  }

  lemma KnownName(files: map<Name, nat>, objs: map<nat, ZFile>, name: Name)
    requires Consistent(files, objs) && name in files
    ensures files[name] in objs && objs[files[name]].synced <= |objs[files[name]].meta.extents|
  {
  }

  lemma NothingToDelete(fmt: Format, m: Memory, name: Name)
    ensures name !in m.files ==> forall dev :: DeleteOf(fmt, m, name, dev) == One(m, NoRecord)
  {
  }

  lemma DroppedAndBack(objs: map<nat, ZFile>, id: nat, name: Name, f: ZFile)
    requires id in objs
    ensures DropName(objs, id, name)[id := f] == objs[id := f]
  {
  }

  lemma AppendedLast(table: map<nat, FileMeta>, f: ZFile, replace: bool)
    requires f.synced <= |f.meta.extents|
    ensures LastVersion(table, f, replace) == table[f.meta.id := Merged(table, Delta(f.meta, f.synced), replace)]
  {
  }

  // ---------- runs ----------

  /** The operations of a run, with what the device does to the records they log. */
  datatype Op =
    | CreateOp(name: Name, sparse: bool, mtime: nat, devDelete: DeviceOutcome, dev: DeviceOutcome)
    | DeleteOp(name: Name, dev: DeviceOutcome)
    | RenameOp(src: Name, dst: Name, mtime: nat, devDelete: DeviceOutcome, dev: DeviceOutcome)
    | LinkOp(name: Name, link: Name, mtime: nat, dev: DeviceOutcome)
    | WriteOp(name: Name, more: seq<Extent>, size: nat, hint: nat, extentStart: nat)
    | SyncOp(name: Name, mtime: nat, dev: DeviceOutcome)
    | ReplaceOp(name: Name, extents: seq<Extent>, dev: DeviceOutcome)

  /** RenameFileNoLock. */
  ghost function RenameOf(fmt: Format, m: Memory, src: Name, dst: Name, mtime: nat, devDelete: DeviceOutcome,
          dev: DeviceOutcome): Endings
  {
    if src !in m.files then Two(m, NoRecord, NoRecord)
    else
      var d := DeleteOf(fmt, m, dst, devDelete);
      if d.how in {Lost, Stranded} || src == dst || !Named(d.memory, src) then Two(d.memory, d.how, NoRecord)
      else
        var r := RenameFreeOf(fmt, d.memory, src, dst, mtime, dev);
        Two(r.memory, d.how, r.how)
  }

  lemma RenameParts(fmt: Format, m: Memory, src: Name, dst: Name, mtime: nat, devDelete: DeviceOutcome,
          dev: DeviceOutcome)
    ensures src !in m.files ==> RenameOf(fmt, m, src, dst, mtime, devDelete, dev) == Two(m, NoRecord, NoRecord)
    ensures var d := DeleteOf(fmt, m, dst, devDelete);
      src in m.files ==>
        if d.how in {Lost, Stranded} || src == dst then
          RenameOf(fmt, m, src, dst, mtime, devDelete, dev) == Two(d.memory, d.how, NoRecord)
        else
          Named(d.memory, src) ==>
            var r := RenameFreeOf(fmt, d.memory, src, dst, mtime, dev);
            RenameOf(fmt, m, src, dst, mtime, devDelete, dev) == Two(r.memory, d.how, r.how)
  {
    hide DeleteOf, RenameFreeOf;
  }

  /** OpenWritableFile for a new file. */
  ghost function CreateOf(fmt: Format, m: Memory, name: Name, sparse: bool, mtime: nat, devDelete: DeviceOutcome,
          dev: DeviceOutcome): Endings
  {
    var d := DeleteOf(fmt, m, name, devDelete);
    if d.how in {Lost, Stranded} then Two(d.memory, d.how, NoRecord)
    else
      var r := CreateFreeOf(fmt, d.memory, name, sparse, mtime, dev);
      Two(r.memory, d.how, r.how)
  }

  /** What an operation does to the memory and to its records. */
  ghost function After(fmt: Format, m: Memory, op: Op): Endings {
    match op
    case CreateOp(name, sparse, mtime, devDelete, dev) => CreateOf(fmt, m, name, sparse, mtime, devDelete, dev)
    case DeleteOp(name, dev) =>
      var r := DeleteOf(fmt, m, name, dev);
      Two(r.memory, r.how, NoRecord)
    case RenameOp(src, dst, mtime, devDelete, dev) => RenameOf(fmt, m, src, dst, mtime, devDelete, dev)
    case LinkOp(name, link, mtime, dev) =>
      var r := LinkOf(fmt, m, name, link, mtime, dev);
      Two(r.memory, NoRecord, r.how)
    case WriteOp(name, more, size, hint, extentStart) =>
      Two(if Named(m, name) then WriteOf(m, m.files[name], more, size, hint, extentStart) else m, NoRecord, NoRecord)
    case SyncOp(name, mtime, dev) =>
      if !Named(m, name) then Two(m, NoRecord, NoRecord)
      else
        var r := SyncOf(fmt, m, m.files[name], mtime, dev);
        Two(r.memory, NoRecord, r.how)
    case ReplaceOp(name, extents, dev) =>
      if !Named(m, name) || |extents| != |m.objs[m.files[name]].meta.extents| then Two(m, NoRecord, NoRecord)
      else
        var r := ReplaceOf(fmt, m, m.files[name], extents, dev);
        Two(r.memory, NoRecord, r.how)
  }

  /** Deleting or replacing a name of a file that the log does not have, or giving such a file
      another name, makes the log wrong, and so does a roll without its snapshot. */
  predicate Harms(how: Persist, known: bool) { how == Stranded || (how == Appended && !known) }

  /** The log has the file of a name. */
  predicate Logged(m: Memory, name: Name) { name in m.files && m.files[name] in m.last }

  /** An operation does no harm to the log. */
  ghost predicate Harmless(fmt: Format, m: Memory, op: Op) {
    var r := After(fmt, m, op);
    match op
    case CreateOp(name, _, _, _, _) => !Harms(r.howDelete, Logged(m, name)) && r.how != Stranded
    case DeleteOp(name, _) => !Harms(r.howDelete, Logged(m, name))
    case RenameOp(_, dst, _, _, _) => !Harms(r.howDelete, Logged(m, dst)) && r.how != Stranded
    case LinkOp(name, _, _, _) => !Harms(r.how, Logged(m, name))
    case _ => r.how != Stranded
  }

  /** Nor does it leave a file or a list in memory only. */
  ghost predicate Complete(fmt: Format, m: Memory, op: Op) {
    var r := After(fmt, m, op);
    match op
    case CreateOp(_, _, _, _, _) => r.how != Rolled
    case ReplaceOp(_, _, _) => r.how != Lost
    case _ => true
  }

  /** The memory after a run. */
  ghost function AfterAll(fmt: Format, m: Memory, ops: seq<Op>): Memory {
    if ops == [] then m else After(fmt, AfterAll(fmt, m, ops[..|ops| - 1]), ops[|ops| - 1]).memory
  }

  ghost predicate AllHarmless(fmt: Format, m: Memory, ops: seq<Op>) {
    forall k :: 0 <= k < |ops| ==> Harmless(fmt, AfterAll(fmt, m, ops[..k]), ops[k])
  }

  ghost predicate AllComplete(fmt: Format, m: Memory, ops: seq<Op>) {
    forall k :: 0 <= k < |ops| ==> Complete(fmt, AfterAll(fmt, m, ops[..k]), ops[k])
  }

  /** One operation of a run. */
  method Perform(fs: ZenFs, op: Op)
    requires fs.NamesInverse()
    modifies fs
    ensures fs.NamesInverse() && fs.Contents() == After(fs.fmt, old(fs.Contents()), op).memory
    ensures old(fs.Recorded()) && Harmless(fs.fmt, old(fs.Contents()), op) ==>
      fs.Recorded() && (old(fs.OnZones()) ==> fs.OnZones())
    ensures old(fs.Valid()) && Harmless(fs.fmt, old(fs.Contents()), op) && Complete(fs.fmt, old(fs.Contents()), op) ==>
      fs.Valid()
  {
    hide M.OnZones, Consistent, Tracks, IdsBelow, Metas, InFull, Fold, TableOf, Room, DropMeta, Merged, CreateOf,
      DeleteOf, RenameOf, LinkOf, WriteOf, SyncOf, ReplaceOf;
    match op {
      case CreateOp(name, sparse, mtime, devDelete, dev) =>
        var _, _, howDelete, how := fs.CreateFile(name, sparse, mtime, devDelete, dev);
      case DeleteOp(name, dev) =>
        var _, how := fs.DeleteFile(name, dev);
      case RenameOp(src, dst, mtime, devDelete, dev) =>
        var _, howDelete, how := fs.RenameFile(src, dst, mtime, devDelete, dev);
      case LinkOp(name, link, mtime, dev) =>
        var _, how := fs.LinkFile(name, link, mtime, dev);
      case WriteOp(name, more, size, hint, extentStart) =>
        if name in fs.files {
          KnownName(fs.files, fs.objs, name);
          fs.Write(fs.files[name], more, size, hint, extentStart);
        }
      case SyncOp(name, mtime, dev) =>
        if name in fs.files {
          KnownName(fs.files, fs.objs, name);
          var how := fs.SyncFileMetadata(fs.files[name], mtime, dev);
        }
      case ReplaceOp(name, extents, dev) =>
        if name in fs.files {
          KnownName(fs.files, fs.objs, name);
          if |extents| == |fs.objs[fs.files[name]].meta.extents| {
            var how := fs.ReplaceExtents(fs.files[name], extents, dev);
          }
        }
    }
  }

  /** Every run of operations, each record appended, rolled or lost: names, files, log and the
      metadata logged last are what the operations say, one after the other, and names and link
      lists are inverse, whatever happens. While no operation harms the log, replaying it gives
      the names in memory, but for files created by a roll, and of every file exactly the
      metadata that was logged last: its size, hint, time, active extent start, sparse flag, links
      and extents; and what the zones went through is a run of their state machine, with this log on
      the zone in use. While also every replacement is logged and no creation rolls, the log has every
      file with exactly its synced extents. */
  method Run(fs: ZenFs, ops: seq<Op>)
    requires fs.NamesInverse()
    modifies fs
    ensures fs.NamesInverse() && fs.Contents() == AfterAll(fs.fmt, old(fs.Contents()), ops)
    ensures old(fs.Recorded()) && AllHarmless(fs.fmt, old(fs.Contents()), ops) ==>
      fs.Recorded() && (old(fs.OnZones()) ==> fs.OnZones())
    ensures old(fs.Valid()) && AllHarmless(fs.fmt, old(fs.Contents()), ops) ==>
      (AllComplete(fs.fmt, old(fs.Contents()), ops) ==> fs.Valid())
  {
    hide Tracks, IdsBelow, InFull, TableOf, Consistent, After, Harmless, Complete, M.OnZones;
    ghost var m := fs.Contents();
    for i := 0 to |ops|
      invariant fs.NamesInverse() && fs.Contents() == AfterAll(fs.fmt, m, ops[..i])
      invariant old(fs.Recorded()) && AllHarmless(fs.fmt, m, ops) ==>
        fs.Recorded() && (old(fs.OnZones()) ==> fs.OnZones())
      invariant old(fs.Valid()) && AllHarmless(fs.fmt, m, ops) && AllComplete(fs.fmt, m, ops) ==> fs.Valid()
    {
      Perform(fs, ops[i]);
      assert ops[..i + 1][..i] == ops[..i];
    }
    assert ops[..|ops|] == ops;
  }

  /** After a replace record was lost, the synced counter is 0 while the log still has the old
      list, so the next update appends the whole new list to it: the file comes back with both,
      and with the right list only if the old one was empty. */
  lemma UpdateAfterLostReplace(log: seq<Record>, files: map<Name, nat>, objs: map<nat, ZFile>, next: nat, f: ZFile)
    requires Consistent(files, objs) && Tracks(log, files, objs, next) && IdsBelow(objs, next)
    requires f.meta.id in objs && f.synced == objs[f.meta.id].synced == 0 && f.meta.links == objs[f.meta.id].meta.links
    requires f.meta.id in TableOf(log).objs
    ensures var log', id := log + [VersionRecord(f, false)], f.meta.id;
      && Tracks(log', files, objs[id := Full(f)], next) && id in TableOf(log').objs
      && TableOf(log').objs[id].extents == TableOf(log).objs[id].extents + f.meta.extents
      && (TableOf(log').objs[id].extents == f.meta.extents <==> TableOf(log).objs[id].extents == [])
  {
    hide Fold, Tracks, Consistent, CanBind, Rebind, TableOf;
    LinksOf(files, objs, f.meta.id);
    VersionTracks(log, files, files, objs, next, f, false, Full(f));
    assert f.meta.extents[0..] == f.meta.extents;
  }
}
