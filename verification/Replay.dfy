/** Recovery of the file table from the metadata log: what each record does to the table
    of files, and how RecoverFrom folds a log. Objects are identified by file id. */
module Replay {
  import opened Codec
  import opened Common

  /** `files_` and the files it refers to. */
  datatype Table = Table(files: map<Name, nat>, objs: map<nat, FileMeta>, nextId: nat)

  function Names(s: seq<Name>): set<Name> {
    set n | n in s
  }

  lemma {:induction false} WithoutProperties(s: seq<Name>, x: Name)
    requires NoDup(s)
    ensures NoDup(Without(s, x)) && Names(Without(s, x)) == Names(s) - {x}
    ensures x in s ==> |Without(s, x)| == |s| - 1
    ensures x !in s ==> Without(s, x) == s
  {
    if s != [] {
      var tail := s[1..];
      assert s == [s[0]] + tail;
      assert s[0] !in tail;
      if s[0] == x {
        assert Names(s) == Names(tail) + {x};
      } else {
        WithoutProperties(tail, x);
        var w := Without(tail, x);
        assert s[0] !in w by { assert s[0] !in Names(w); }
        assert Names([s[0]] + w) == Names(w) + {s[0]};
        assert Names(s) == Names(tail) + {s[0]};
      }
    }
  }

  /** Insertion of every name of a list; std::map::insert keeps an existing binding. */
  function InsertAll(files: map<Name, nat>, names: seq<Name>, id: nat): map<Name, nat> {
    map n | n in files.Keys + Names(names) :: if n in files then files[n] else id
  }

  /** A file object lives as long as a name refers to it. */
  function Live(files: map<Name, nat>, objs: map<nat, FileMeta>): map<nat, FileMeta> {
    map id | id in objs && id in files.Values :: objs[id]
  }

  /** ZoneFile::MergeUpdate. */
  function Merge(f: FileMeta, u: FileMeta, replace: bool): FileMeta {
    u.(id := f.id, extents := (if replace then [] else f.extents) + u.extents)
  }

  /** DecodeFileUpdateFrom. */
  function ApplyUpdate(t: Table, u: FileMeta, replace: bool): Result<Table> {
    var next := Max(t.nextId, u.id + 1);
    if u.id in t.files.Values && u.id in t.objs then
      var f := t.objs[u.id];
      if !(Names(f.links) <= t.files.Keys) then Corrupt
      else
        var files := InsertAll(t.files - Names(f.links), u.links, u.id);
        Ok(Table(files, Live(files, t.objs[u.id := Merge(f, u, replace)]), next))
    else if u.links == [] then Corrupt
    else
      var files := InsertAll(t.files, [u.links[0]], u.id);
      Ok(Table(files, Live(files, t.objs[u.id := u]), next))
  }

  /** DecodeFileDeletionFrom. */
  function ApplyDeletion(t: Table, id: nat, name: Name): Result<Table> {
    if name !in t.files || t.files[name] != id || id !in t.objs || name !in t.objs[id].links then Corrupt
    else
      var f := t.objs[id];
      var files := t.files - {name};
      Ok(Table(files, Live(files, t.objs[id := f.(links := Without(f.links, name))]), t.nextId))
  }

  /** DecodeSnapshotFrom: every entry inserts all its names, existing bindings stay. */
  function ApplyEntries(entries: seq<FileMeta>, next: nat): Table {
    if entries == [] then Table(map[], map[], next)
    else
      var e := entries[|entries| - 1];
      var t := ApplyEntries(entries[..|entries| - 1], next);
      Table(InsertAll(t.files, e.links, e.id),
            if e.id in t.objs then t.objs else t.objs[e.id := e],
            Max(t.nextId, e.id + 1))
  }

  datatype Scan = Running(table: Table, seen: bool) | Stopped(table: Table, seen: bool) | Failed

  function Carry(r: Result<Table>, seen: bool): Scan {
    match r
    case Ok(t) => Running(t, seen)
    case Corrupt => Failed
  }

  function Step(s: Scan, r: Record): Scan {
    if !s.Running? then s
    else
      match r
      case Snapshot(entries) => Running(ApplyEntries(entries, s.table.nextId), true)
      case Update(u) => Carry(ApplyUpdate(s.table, u, false), s.seen)
      case Replace(u) => Carry(ApplyUpdate(s.table, u, true), s.seen)
      case Deletion(id, name) => Carry(ApplyDeletion(s.table, id, name), s.seen)
      case EndRecord => Stopped(s.table, s.seen)
      case ResetCounts(_) => s
  }

  const START: Scan := Running(Table(map[], map[], 1), false)

  /** The state of RecoverFrom after the records of a log. */
  function Fold(log: seq<Record>): Scan {
    if log == [] then START else Step(Fold(log[..|log| - 1]), log[|log| - 1])
  }

  datatype Recovered = Found(table: Table) | NotFound | Corrupted

  function Outcome(s: Scan): Recovered {
    if s.Failed? then Corrupted else if s.seen then Found(s.table) else NotFound
  }

  lemma FoldAppend(log: seq<Record>, r: Record)
    ensures Fold(log + [r]) == Step(Fold(log), r)
  {
    assert (log + [r])[..|log|] == log;
  }

  /** A log of which a part was folded to `s`, without an end record, goes on from `s`. */
  lemma {:induction false} StoppedStays(log: seq<Record>, k: nat)
    requires k <= |log| && !Fold(log[..k]).Running?
    ensures Fold(log) == Fold(log[..k])
    decreases |log| - k
  {
    if k == |log| {
      assert log[..k] == log;
    } else {
      assert log[..k + 1][..k] == log[..k];
      StoppedStays(log, k + 1);
    }
  }

  /** ZenFS::RecoverFrom: the loop over the log computes the fold. */
  method RecoverFrom(log: seq<Record>) returns (r: Recovered)
    ensures r == Outcome(Fold(log))
  {
    var i, s := 0, START;
    while i < |log| && s.Running?
      invariant i <= |log| && s == Fold(log[..i])
    {
      assert log[..i + 1][..i] == log[..i];
      s := Step(s, log[i]);
      i := i + 1;
    }
    StoppedOrEnd(log, i);
    return Outcome(s);
  }

  lemma StoppedOrEnd(log: seq<Record>, i: nat)
    requires i <= |log| && (i == |log| || !Fold(log[..i]).Running?)
    ensures Fold(log[..i]) == Fold(log)
  {
    if i == |log| { assert log[..i] == log; } else { StoppedStays(log, i); }
  }

  // ---------- agreement of a table with the files in memory ----------

  /** A ZoneFile in memory; `synced` is `nr_synced_extents_`. */
  datatype ZFile = ZFile(meta: FileMeta, synced: nat)

  /** `files_` and the link lists of the files are inverse to each other. */
  predicate Consistent(files: map<Name, nat>, objs: map<nat, ZFile>) {
    && (forall n <- files :: files[n] in objs)
    && (forall id <- objs ::
          var f := objs[id];
          f.meta.id == id && f.synced <= |f.meta.extents| && f.meta.links != [] && NoDup(f.meta.links))
    && (forall id <- objs, n <- objs[id].meta.links :: n in files && files[n] == id)
    && (forall n <- files :: n in objs[files[n]].meta.links)
  }

  function Full(f: ZFile): ZFile { f.(synced := |f.meta.extents|) }

  function AllSynced(objs: map<nat, ZFile>): map<nat, ZFile> {
    map id | id in objs :: Full(objs[id])
  }

  function Metas(objs: map<nat, ZFile>): map<nat, FileMeta> {
    map id | id in objs :: objs[id].meta
  }

  /** Files of which the log has everything. */
  function AsObjs(metas: map<nat, FileMeta>): map<nat, ZFile> {
    map id | id in metas :: ZFile(metas[id], |metas[id].extents|)
  }

  /** A table in which names and links are inverse to each other. */
  predicate Sound(t: Table) { Consistent(t.files, AsObjs(t.objs)) }

  /** What EncodeSnapshotTo writes: for every name the file it refers to. */
  predicate IsSnapshot(entries: seq<FileMeta>, files: map<Name, nat>, objs: map<nat, ZFile>) {
    && (forall e <- entries :: e.id in objs && e == objs[e.id].meta)
    && (forall n <- files :: files[n] in objs && objs[files[n]].meta in entries)
  }

  /** The table after some entries of a snapshot of the memory. */
  predicate Bound(t: Table, entries: seq<FileMeta>, next: nat, files: map<Name, nat>, objs: map<nat, ZFile>) {
    && t.nextId >= next
    && (forall n <- t.files :: n in files && t.files[n] == files[n])
    && (forall e <- entries, n <- e.links :: n in t.files)
    && (forall id <- t.objs :: id in objs && t.objs[id] == objs[id].meta && id < t.nextId)
    && (forall e <- entries :: e.id in t.objs)
  }

  lemma BindOne(t: Table, front: seq<FileMeta>, e: FileMeta, next: nat, files: map<Name, nat>, objs: map<nat, ZFile>)
    requires Bound(t, front, next, files, objs)
    requires e.id in objs && e == objs[e.id].meta && forall n <- e.links :: n in files && files[n] == e.id
    ensures Bound(Table(InsertAll(t.files, e.links, e.id), if e.id in t.objs then t.objs else t.objs[e.id := e],
                        Max(t.nextId, e.id + 1)), front + [e], next, files, objs)
  {
  }

  lemma {:induction false} EntriesBind(entries: seq<FileMeta>, next: nat, files: map<Name, nat>, objs: map<nat, ZFile>)
    requires Consistent(files, objs)
    requires forall e <- entries :: e.id in objs && e == objs[e.id].meta
    ensures Bound(ApplyEntries(entries, next), entries, next, files, objs)
  {
    hide Bound, InsertAll, NoDup;
    if entries == [] {
      BindNone(next, files, objs);
    } else {
      var front, e := entries[..|entries| - 1], entries[|entries| - 1];
      EntriesBind(front, next, files, objs);
      BindOne(ApplyEntries(front, next), front, e, next, files, objs);
      assert entries == front + [e];
    }
  }

  lemma BindNone(next: nat, files: map<Name, nat>, objs: map<nat, ZFile>)
    ensures Bound(Table(map[], map[], next), [], next, files, objs)
  {
  }

  /** Although a file with k names is written k times, a snapshot brings back every name,
      one file per id, and all metadata; the next id is above every id seen. */
  lemma SnapshotExact(entries: seq<FileMeta>, next: nat, files: map<Name, nat>, objs: map<nat, ZFile>)
    requires Consistent(files, objs) && IsSnapshot(entries, files, objs)
    ensures var t := ApplyEntries(entries, next);
      && t.files == files && t.objs == Metas(objs) && Sound(t)
      && forall id <- objs :: id < t.nextId
  {
    hide ApplyEntries, IsSnapshot, Bound, Consistent;
    var t := ApplyEntries(entries, next);
    SnapshotEntries(entries, files, objs);
    EntriesBind(entries, next, files, objs);
    SnapshotComplete(t, entries, next, files, objs);
    assert t.objs == Metas(objs);
    MetasConsistent(files, objs);
  }

  lemma SnapshotEntries(entries: seq<FileMeta>, files: map<Name, nat>, objs: map<nat, ZFile>)
    requires IsSnapshot(entries, files, objs)
    ensures forall e <- entries :: e.id in objs && e == objs[e.id].meta
  {
  }

  lemma MetasConsistent(files: map<Name, nat>, objs: map<nat, ZFile>)
    requires Consistent(files, objs)
    ensures Consistent(files, AsObjs(Metas(objs)))
  {
  }

  lemma SnapshotComplete(t: Table, entries: seq<FileMeta>, next: nat, files: map<Name, nat>, objs: map<nat, ZFile>)
    requires Consistent(files, objs) && IsSnapshot(entries, files, objs) && Bound(t, entries, next, files, objs)
    ensures t.files == files && t.objs.Keys == objs.Keys
    ensures forall id <- objs :: t.objs[id] == objs[id].meta && id < t.nextId
  {
    forall n | n in files
      ensures n in t.files
    {
      assert objs[files[n]].meta in entries;
    }
    forall id | id in objs
      ensures id in t.objs
    {
      var n := objs[id].meta.links[0];
      assert n in objs[id].meta.links;
      assert objs[files[n]].meta in entries;
    }
  }

  /** The names of file `id` replaced by `links`. */
  function Rebind(files: map<Name, nat>, former: seq<Name>, links: seq<Name>, id: nat): map<Name, nat> {
    InsertAll(files - Names(former), links, id)
  }

  predicate CanBind(files: map<Name, nat>, links: seq<Name>, id: nat) {
    links != [] && NoDup(links) && forall n <- links :: n !in files || files[n] == id
  }

  lemma RebindNames(files: map<Name, nat>, objs: map<nat, ZFile>, f: ZFile)
    requires Consistent(files, objs) && f.meta.id in objs && CanBind(files, f.meta.links, f.meta.id)
    ensures f.meta.links != [] && NoDup(f.meta.links)
    ensures var id, files' := f.meta.id, Rebind(files, objs[f.meta.id].meta.links, f.meta.links, f.meta.id);
      && (forall n :: n in files' <==> n in f.meta.links || (n in files && files[n] != id))
      && (forall n <- files' :: files'[n] == if n in f.meta.links then id else files[n])
      && (forall n <- f.meta.links :: n !in files || files[n] == id)
  {
    NamesOfFile(files, objs, f.meta.id);
    hide Consistent, NoDup;
    assert forall n :: n in Names(f.meta.links) <==> n in f.meta.links;
    assert forall n :: n in Names(objs[f.meta.id].meta.links) <==> n in objs[f.meta.id].meta.links;
  }

  lemma RebindConsistent(files: map<Name, nat>, objs: map<nat, ZFile>, f: ZFile)
    requires Consistent(files, objs) && f.meta.id in objs && f.synced <= |f.meta.extents|
    requires CanBind(files, f.meta.links, f.meta.id)
    ensures Consistent(Rebind(files, objs[f.meta.id].meta.links, f.meta.links, f.meta.id), objs[f.meta.id := f])
  {
    hide Rebind, CanBind, NoDup;
    var id := f.meta.id;
    var files' := Rebind(files, objs[id].meta.links, f.meta.links, id);
    var objs' := objs[id := f];
    RebindNames(files, objs, f);
    forall n | n in files'
      ensures files'[n] in objs' && n in objs'[files'[n]].meta.links
    {
      if n !in f.meta.links { assert files'[n] == files[n] && files[n] != id; }
    }
    forall i, n | i in objs' && n in objs'[i].meta.links
      ensures n in files' && files'[n] == i
    {
      if i != id { assert n in files && files[n] == i; }
    }
  }

  /** Merging the delta of a file into the part of it that the log has gives the file. */
  lemma MergeGivesFile(d: FileMeta, f: FileMeta, synced: nat, replace: bool)
    requires d.id == f.id && synced <= |f.extents| && (replace ==> synced == 0)
    ensures !replace ==> (Merge(d, Delta(f, synced), false) == f <==> d.extents == f.extents[..synced])
    ensures replace ==> Merge(d, Delta(f, synced), true) == f
  {
    assert f.extents[..synced] + f.extents[synced..] == f.extents;
    assert [] + f.extents[0..] == f.extents;
    assert (d.extents + f.extents[synced..])[..|d.extents|] == d.extents;
  }

  /** An update or replace record of a file that the log has: its names and its metadata are
      replaced, its extents replaced or extended, and all other files stay as they were. */
  lemma UpdateExact(t: Table, u: FileMeta, replace: bool)
    requires Sound(t) && u.id in t.objs && CanBind(t.files, u.links, u.id)
    ensures var r := ApplyUpdate(t, u, replace);
      && r == Ok(Table(Rebind(t.files, t.objs[u.id].links, u.links, u.id),
                       t.objs[u.id := Merge(t.objs[u.id], u, replace)], Max(t.nextId, u.id + 1)))
      && Sound(r.value)
  {
    hide Consistent, CanBind, Live, Rebind, Names;
    var f, objs := Merge(t.objs[u.id], u, replace), AsObjs(t.objs);
    OwnNames(t.files, objs, u.id);
    assert f.id == u.id && f.links == u.links;
    RebindConsistent(t.files, objs, ZFile(f, |f.extents|));
    assert objs[u.id := ZFile(f, |f.extents|)] == AsObjs(t.objs[u.id := f]);
    var files' := Rebind(t.files, t.objs[u.id].links, u.links, u.id);
    RebindIsInsert(t.files, t.objs[u.id].links, u.links, u.id);
    assert t.objs[u.id := f].Keys == AsObjs(t.objs[u.id := f]).Keys;
    KeepsLive(t.files, t.objs, objs);
    assert objs[u.id].meta == t.objs[u.id];
    KeepsLive(files', t.objs[u.id := f], AsObjs(t.objs[u.id := f]));
    assert Live(files', t.objs[u.id := f]) == t.objs[u.id := f];
  }

  lemma OwnNames(files: map<Name, nat>, objs: map<nat, ZFile>, id: nat)
    requires Consistent(files, objs) && id in objs
    ensures Names(objs[id].meta.links) <= files.Keys && objs[id].meta.id == id
  {
    NamesOfFile(files, objs, id);
  }

  lemma RebindIsInsert(files: map<Name, nat>, former: seq<Name>, links: seq<Name>, id: nat)
    ensures Rebind(files, former, links, id) == InsertAll(files - Names(former), links, id)
  {
  }

  /** In a consistent memory every file has a name, so none is dropped. */
  lemma KeepsLive(files: map<Name, nat>, durable: map<nat, FileMeta>, objs: map<nat, ZFile>)
    requires Consistent(files, objs)
    ensures forall id <- objs :: id in files.Values
    ensures durable.Keys == objs.Keys ==> Live(files, durable) == durable
  {
    forall id | id in objs
      ensures id in files.Values
    {
      var n := objs[id].meta.links[0];
      assert n in objs[id].meta.links && n in files && files[n] == id;
    }
  }

  lemma CreationConsistent(files: map<Name, nat>, objs: map<nat, ZFile>, g: ZFile)
    requires Consistent(files, objs) && g.meta.id !in objs && |g.meta.links| == 1 && g.meta.links[0] !in files
    requires g.synced <= |g.meta.extents|
    ensures Consistent(files[g.meta.links[0] := g.meta.id], objs[g.meta.id := g])
  {
    var f := g.meta;
    var files', objs' := files[f.links[0] := f.id], objs[f.id := g];
    assert f.links == [f.links[0]];
    forall i, n | i in objs' && n in objs'[i].meta.links
      ensures n in files' && files'[n] == i
    {
      if i != f.id { assert n in files && files[n] == i; }
    }
  }

  /** The record of a file that the log does not have, with one name that is free, adds it. */
  lemma CreateExact(t: Table, u: FileMeta, replace: bool)
    requires Sound(t) && u.id !in t.objs && |u.links| == 1 && u.links[0] !in t.files
    ensures var r := ApplyUpdate(t, u, replace);
      && r == Ok(Table(t.files[u.links[0] := u.id], t.objs[u.id := u], Max(t.nextId, u.id + 1)))
      && Sound(r.value)
  {
    var objs, g := AsObjs(t.objs), ZFile(u, |u.extents|);
    CreationConsistent(t.files, objs, g);
    assert objs[u.id := g] == AsObjs(t.objs[u.id := u]);
    InsertOne(t.files, u.links[0], u.id);
    hide Consistent, Live, InsertAll;
    KeepsLive(t.files[u.links[0] := u.id], t.objs[u.id := u], AsObjs(t.objs[u.id := u]));
  }

  lemma InsertOne(files: map<Name, nat>, name: Name, id: nat)
    requires name !in files
    ensures InsertAll(files, [name], id) == files[name := id]
  {
    assert Names([name]) == {name};
  }

  /** What is left in the log of a file that loses a name. */
  function DropMeta(objs: map<nat, FileMeta>, id: nat, name: Name): map<nat, FileMeta>
  {
    if id !in objs then objs
    else
      var links := Without(objs[id].links, name);
      if links == [] then objs - {id} else objs[id := objs[id].(links := links)]
  }

  /** Memory after the removal of one name of file `id`. */
  function DropName(objs: map<nat, ZFile>, id: nat, name: Name): map<nat, ZFile>
    requires id in objs
  {
    var links := Without(objs[id].meta.links, name);
    if links == [] then objs - {id} else objs[id := objs[id].(meta := objs[id].meta.(links := links))]
  }

  lemma DropConsistent(files: map<Name, nat>, objs: map<nat, ZFile>, name: Name)
    requires Consistent(files, objs) && name in files
    ensures Consistent(files - {name}, DropName(objs, files[name], name))
  {
    var id := files[name];
    var files', objs' := files - {name}, DropName(objs, id, name);
    var links := objs[id].meta.links;
    WithoutProperties(links, name);
    assert name in links;
    assert forall n <- Without(links, name) :: n in Names(Without(links, name));
    forall n | n in files'
      ensures files'[n] in objs' && n in objs'[files'[n]].meta.links
    {
      if files[n] == id {
        assert n in Names(links) - {name};
      }
    }
    forall i, n | i in objs' && n in objs'[i].meta.links
      ensures n in files' && files'[n] == i
    {
      if i == id {
        assert n in Names(links) - {name};
      }
    }
  }

  lemma OthersKeepNames(files: map<Name, nat>, objs: map<nat, ZFile>, name: Name, i: nat)
    requires Consistent(files, objs) && name in files && i in objs && i != files[name]
    ensures i in (files - {name}).Values
  {
    var n := objs[i].meta.links[0];
    assert n in objs[i].meta.links && files[n] == i;
    assert n in files - {name} && (files - {name})[n] == i;
  }

  lemma NamesOfFile(files: map<Name, nat>, objs: map<nat, ZFile>, id: nat)
    requires Consistent(files, objs) && id in objs
    ensures NoDup(objs[id].meta.links) && forall n :: n in objs[id].meta.links <==> n in files && files[n] == id
  {
  }

  lemma NamesLeft(links: seq<Name>, name: Name)
    requires NoDup(links)
    ensures forall n :: n in Without(links, name) <==> n in links && n != name
  {
    WithoutProperties(links, name);
    assert forall n :: n in Without(links, name) <==> n in Names(Without(links, name));
  }

  lemma OtherName(files: map<Name, nat>, objs: map<nat, ZFile>, name: Name)
    requires Consistent(files, objs) && name in files
    ensures var id := files[name];
      id in objs && (id in (files - {name}).Values <==> Without(objs[id].meta.links, name) != [])
  {
    var id, files' := files[name], files - {name};
    NamesOfFile(files, objs, id);
    NamesLeft(objs[id].meta.links, name);
    hide Consistent, NoDup, Without;
    var rest := Without(objs[id].meta.links, name);
    if rest != [] {
      assert rest[0] in rest;
      assert rest[0] in files' && files'[rest[0]] == id;
    }
    forall n | n in files' && files'[n] == id
      ensures n in rest
    {
    }
  }

  /** The file of a removed name stays if and only if it has another name. */
  lemma DropLive(files: map<Name, nat>, objs: map<nat, ZFile>, durable: map<nat, FileMeta>, name: Name)
    requires Consistent(files, objs) && name in files && durable.Keys == objs.Keys
    ensures Live(files - {name}, durable).Keys == DropName(objs, files[name], name).Keys
  {
    hide Consistent, Without;
    OtherName(files, objs, name);
    forall i | i in objs && i != files[name]
      ensures i in (files - {name}).Values
    {
      OthersKeepNames(files, objs, name, i);
    }
  }

  /** A deletion record removes one name, and the file with its last name; all other files,
      and the other metadata of the file, stay as they were. */
  lemma DeletionExact(t: Table, name: Name)
    requires Sound(t) && name in t.files
    ensures var id := t.files[name];
      var r := ApplyDeletion(t, id, name);
      && r == Ok(Table(t.files - {name}, DropMeta(t.objs, id, name), t.nextId)) && Sound(r.value)
  {
    hide Consistent, Without, NoDup;
    var id, objs := t.files[name], AsObjs(t.objs);
    FileOfName(t.files, objs, name);
    var d := t.objs[id];
    var durable := t.objs[id := d.(links := Without(d.links, name))];
    DropLive(t.files, objs, durable, name);
    DropConsistent(t.files, objs, name);
    assert DropName(objs, id, name) == AsObjs(DropMeta(t.objs, id, name));
    assert Live(t.files - {name}, durable) == DropMeta(t.objs, id, name);
  }

  lemma FileOfName(files: map<Name, nat>, objs: map<nat, ZFile>, name: Name)
    requires Consistent(files, objs) && name in files
    ensures files[name] in objs && name in objs[files[name]].meta.links
  {
  }
}
