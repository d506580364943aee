/** Decoding a snapshot at the level of file objects: a file with k names is written k
    times and decoded into k objects, of which one survives. */
module HardLinks {
  import opened Codec
  import opened Replay
  import opened Common

  predicate InHeap(heap: seq<FileMeta>, live: seq<nat>) {
    forall i :: 0 <= i < |live| ==> live[i] < |heap|
  }

  /** What the live objects of a list charge to the zones. */
  function Charges(heap: seq<FileMeta>, live: seq<nat>): multiset<Extent>
    requires InHeap(heap, live)
  {
    if live == [] then multiset{}
    else Charges(heap, live[..|live| - 1]) + multiset(heap[live[|live| - 1]].extents)
  }

  lemma {:induction false} ChargesFrame(heap: seq<FileMeta>, e: FileMeta, live: seq<nat>)
    requires InHeap(heap, live)
    ensures Charges(heap + [e], live) == Charges(heap, live)
  {
    if live != [] {
      ChargesFrame(heap, e, live[..|live| - 1]);
    }
  }

  lemma ChargesAdd(heap: seq<FileMeta>, e: FileMeta, live: seq<nat>)
    requires InHeap(heap, live)
    ensures Charges(heap + [e], live + [|heap|]) == Charges(heap, live) + multiset(e.extents)
  {
    ChargesFrame(heap, e, live);
    assert (live + [|heap|])[..|live|] == live;
  }

  /** Object `h` is a copy of a file in memory, and all names of that file are bound to it. */
  predicate Owns(h: nat, files: map<Name, nat>, heap: seq<FileMeta>, objs: map<nat, ZFile>) {
    && h < |heap| && heap[h].id in objs && heap[h] == objs[heap[h].id].meta
    && forall n <- heap[h].links :: n in files && files[n] == h
  }

  /** While entries are decoded, every bound name is a name of the object it is bound to. */
  predicate Sound(files: map<Name, nat>, heap: seq<FileMeta>, objs: map<nat, ZFile>) {
    forall n <- files :: Owns(files[n], files, heap, objs) && n in heap[files[n]].links
  }

  /** `live` lists the objects that names refer to, each once. */
  ghost predicate LiveObjects(files: map<Name, nat>, heap: seq<FileMeta>, live: seq<nat>) {
    && InHeap(heap, live)
    && (forall h :: h in live <==> h in files.Values)
    && (forall i, j :: 0 <= i < j < |live| ==> live[i] != live[j])
  }

  lemma AllOrNone(files: map<Name, nat>, heap: seq<FileMeta>, names: map<Name, nat>, objs: map<nat, ZFile>, e: FileMeta)
    requires Consistent(names, objs) && Sound(files, heap, objs)
    requires e.id in objs && e == objs[e.id].meta
    ensures (forall n <- e.links :: n in files) || (forall n <- e.links :: n !in files)
    ensures e.links != []
  {
    forall n, m | n in e.links && n in files && m in e.links
      ensures m in files
    {
      var h := files[n];
      assert n in objs[heap[h].id].meta.links;
      assert names[n] == e.id && names[n] == heap[h].id;
      assert m in heap[h].links;
    }
  }

  /** An entry whose names are all unbound adds one live object under all of them. */
  lemma KeepObject(files: map<Name, nat>, heap: seq<FileMeta>, live: seq<nat>, objs: map<nat, ZFile>, e: FileMeta)
    requires Sound(files, heap, objs) && LiveObjects(files, heap, live)
    requires e.id in objs && e == objs[e.id].meta && e.links != [] && forall n <- e.links :: n !in files
    ensures var files' := InsertAll(files, e.links, |heap|);
      Sound(files', heap + [e], objs) && LiveObjects(files', heap + [e], live + [|heap|])
  {
    var files', heap', live' := InsertAll(files, e.links, |heap|), heap + [e], live + [|heap|];
    assert forall h :: h in live' <==> h in live || h == |heap|;
    forall n | n in files'
      ensures Owns(files'[n], files', heap', objs) && n in heap'[files'[n]].links
    {
      if n in files {
        assert Owns(files[n], files, heap, objs) && heap'[files[n]] == heap[files[n]];
      }
    }
    assert forall n <- files :: files'[n] == files[n];
    assert e.links[0] in e.links && files'[e.links[0]] == |heap|;
    forall h
      ensures h in live' <==> h in files'.Values
    {
      if h in files.Values {
        var n :| n in files && files[n] == h;
        assert files'[n] == h;
      }
    }
    forall i, j | 0 <= i < j < |live'|
      ensures live'[i] != live'[j]
    {
      if j == |live| { assert live[i] < |heap|; }
    }
  }

  /** An entry whose names are all bound leaves no live object. */
  lemma DropObject(files: map<Name, nat>, heap: seq<FileMeta>, live: seq<nat>, objs: map<nat, ZFile>, e: FileMeta)
    requires Sound(files, heap, objs) && LiveObjects(files, heap, live)
    requires forall n <- e.links :: n in files
    ensures InsertAll(files, e.links, |heap|) == files
    ensures Sound(files, heap + [e], objs) && LiveObjects(files, heap + [e], live)
  {
    forall n | n in files
      ensures Owns(files[n], files, heap + [e], objs)
    {
      assert Owns(files[n], files, heap, objs) && (heap + [e])[files[n]] == heap[files[n]];
    }
  }

  /** DecodeSnapshotFrom with its objects: `heap` holds every object that was created, `live`
      those that a name refers to, and `charged` the extents accounted to zones, which each
      object adds when it is decoded and gives back when it is destroyed. All names of a file
      share one object, and the zones are charged for its extents once. */
  method DecodeSnapshotFrom(entries: seq<FileMeta>, ghost names: map<Name, nat>, ghost objs: map<nat, ZFile>)
    returns (files: map<Name, nat>, heap: seq<FileMeta>, live: seq<nat>, charged: multiset<Extent>)
    requires Consistent(names, objs) && IsSnapshot(entries, names, objs)
    ensures InHeap(heap, live)
    ensures files.Keys == names.Keys
    ensures forall n <- files :: files[n] in live && files[n] < |heap| && heap[files[n]] == objs[names[n]].meta
    ensures forall m, n | m in files && n in files :: files[m] == files[n] <==> names[m] == names[n]
    ensures forall i, j | 0 <= i < j < |live| :: heap[live[i]].id != heap[live[j]].id
    ensures charged == Charges(heap, live)
  {
    hide Consistent, IsSnapshot, Sound, LiveObjects, InsertAll, Charges;
    files, heap, live, charged := map[], [], [], multiset{};
    Start(objs);
    for i := 0 to |entries|
      invariant Sound(files, heap, objs) && LiveObjects(files, heap, live) && InHeap(heap, live)
      invariant charged == Charges(heap, live)
      invariant Bound(entries, i, files)
    {
      var e, h := entries[i], |heap|;
      EntryFacts(entries, i, names, objs);
      AllOrNone(files, heap, names, objs, e);
      BoundStep(entries, i, files, h);
      var unbound := Names(e.links) - files.Keys;
      assert forall n <- e.links :: n in Names(e.links);
      charged := charged + multiset(e.extents);
      if unbound != {} {
        ghost var n :| n in unbound;
        assert n in e.links && n !in files;
        KeepObject(files, heap, live, objs, e);
        ChargesAdd(heap, e, live);
        live := live + [h];
      } else {
        assert forall n <- e.links :: n in unbound || n in files;
        // no name refers to the object: it is destroyed and gives its charge back
        DropObject(files, heap, live, objs, e);
        ChargesFrame(heap, e, live);
        charged := charged - multiset(e.extents);
      }
      files := InsertAll(files, e.links, h);
      heap := heap + [e];
    }
    Complete(files, heap, live, names, objs, entries);
  }

  predicate Bound(entries: seq<FileMeta>, i: nat, files: map<Name, nat>)
    requires i <= |entries|
  {
    forall k :: 0 <= k < i ==> Names(entries[k].links) <= files.Keys
  }

  lemma BoundStep(entries: seq<FileMeta>, i: nat, files: map<Name, nat>, h: nat)
    requires i < |entries| && Bound(entries, i, files)
    ensures Bound(entries, i + 1, InsertAll(files, entries[i].links, h))
  {
  }

  lemma Start(objs: map<nat, ZFile>)
    ensures Sound(map[], [], objs) && LiveObjects(map[], [], []) && Charges([], []) == multiset{}
  {
  }

  lemma EntryFacts(entries: seq<FileMeta>, i: nat, names: map<Name, nat>, objs: map<nat, ZFile>)
    requires IsSnapshot(entries, names, objs) && i < |entries|
    ensures entries[i].id in objs && entries[i] == objs[entries[i].id].meta
  {
    assert entries[i] in entries;
  }

  lemma Complete(files: map<Name, nat>, heap: seq<FileMeta>, live: seq<nat>, names: map<Name, nat>,
          objs: map<nat, ZFile>, entries: seq<FileMeta>)
    requires Consistent(names, objs) && IsSnapshot(entries, names, objs)
    requires Sound(files, heap, objs) && LiveObjects(files, heap, live)
    requires Bound(entries, |entries|, files)
    ensures files.Keys == names.Keys
    ensures forall n <- files :: files[n] in live && files[n] < |heap| && heap[files[n]] == objs[names[n]].meta
    ensures forall m, n | m in files && n in files :: files[m] == files[n] <==> names[m] == names[n]
    ensures forall i, j | 0 <= i < j < |live| :: heap[live[i]].id != heap[live[j]].id
  {
    forall n | n in names
      ensures n in files
    {
      var f := objs[names[n]].meta;
      assert f in entries && n in f.links;
      var k :| 0 <= k < |entries| && entries[k] == f;
      assert n in Names(entries[k].links);
    }
    forall n | n in files
      ensures n in names && heap[files[n]].id == names[n]
    {
      assert n in objs[heap[files[n]].id].meta.links;
    }
    forall m, n | m in files && n in files && names[m] == names[n]
      ensures files[m] == files[n]
    {
      assert n in objs[names[m]].meta.links;
      assert n in heap[files[m]].links;
    }
    forall i, j | 0 <= i < j < |live|
      ensures heap[live[i]].id != heap[live[j]].id
    {
      var a, b := live[i], live[j];
      assert a in live && b in live && a != b;
      var x :| x in files && files[x] == a;
      var y :| y in files && files[y] == b;
      assert names[x] != names[y];
    }
  }
}
