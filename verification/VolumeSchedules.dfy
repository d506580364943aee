/** Schedules in which records, appends, syncs and migrations overlap, and what they do to a file. */
module VolumeSchedules {
  import opened Common
  import opened Coding
  import opened Blocks
  import opened ZoneData
  import opened ZoneFiles
  import opened Accounting
  import opened Volume
  import opened VolumeFrame
  import opened VolumeSteps
  import opened VolumeMoves
  import opened VolumeCrash
  import opened VolumeRaces
  import opened VolumeSafety

  // ---------- runs in which every action is possible ----------

  ghost predicate AllEnabled(s: State, actions: seq<Action>) {
    forall k :: 0 <= k < |actions| ==> Enabled(Run(s, actions[..k]), actions[k])
  }

  /** The actions, all of them possible, take s to t and append `data` to its first file. */
  ghost predicate Reaches(s: State, actions: seq<Action>, t: State, data: seq<byte>) {
    AllEnabled(s, actions) && Run(s, actions) == t && VolumeSafety.Log(s, actions, 0) == data
  }

  lemma Begin(s: State)
    ensures Reaches(s, [], s, [])
  {
  }

  predicate Goes(s: State, a: Action, t: State) { Enabled(s, a) && Apply(s, a) == t }

  lemma Go(s: State, actions: seq<Action>, t: State, data: seq<byte>, a: Action, t': State)
    requires Reaches(s, actions, t, data) && Goes(t, a, t')
    ensures Reaches(s, actions + [a], t', data + Appended(a, 0))
  {
    hide Enabled, Apply, Appended;
    var more := actions + [a];
    assert more[..|actions|] == actions;
    forall k | 0 <= k < |more|
      ensures Enabled(Run(s, more[..k]), more[k])
    {
      if k < |actions| { assert more[..k] == actions[..k]; }
    }
  }

  /** A step that appends nothing. */
  lemma Step(s: State, actions: seq<Action>, t: State, data: seq<byte>, a: Action, t': State)
    requires Reaches(s, actions, t, data) && Goes(t, a, t') && !a.Write? && !a.Grow?
    ensures Reaches(s, actions + [a], t', data)
  {
    hide Reaches, Goes;
    Go(s, actions, t, data, a, t');
    assert data + [] == data;
  }

  // ---------- a volume with one file, in its first zone ----------

  datatype Setup = Setup(geo: Geometry, zones: nat, written: seq<byte>, used: int, holder: Holder)

  function DiskOf(c: Setup): Disk { seq(c.zones, z => if z == 0 then c.written else []) }

  function One(c: Setup, f: File): State {
    State(c.geo, DiskOf(c), seq(c.zones, z => if z == 0 then Owners(0, |c.written|) else []),
          seq(c.zones, z => if z == 0 then c.used else 0), seq(c.zones, z => if z == 0 then c.holder else Free),
          seq(c.zones, _ => false), [f])
  }

  lemma OneFile(c: Setup, f: File, f': File)
    ensures SetFile(One(c, f), 0, f') == One(c, f')
  {
    assert [f][0 := f'] == [f'];
  }

  lemma CanEncode(c: Setup, f: File, kind: Kind)
    requires f.alive && f.enc == NoRecord && kind != Swap
    ensures Goes(One(c, f), Encode(0, kind), One(c, f.(enc := SizeRead(kind, FileSize(f)))))
  {
    hide FileSize;
    OneFile(c, f, f.(enc := SizeRead(kind, FileSize(f))));
  }

  lemma CanReadList(c: Setup, f: File)
    requires f.alive && f.enc.SizeRead? && f.counter <= |f.st.extents|
    ensures Goes(One(c, f), EncodeList(0), One(c,
      f.(enc := ListRead(f.enc.kind, f.enc.size, ListFor(f, f.enc.kind), |f.st.extents|, f.st.start))))
  {
    hide ListFor;
    OneFile(c, f, f.(enc := ListRead(f.enc.kind, f.enc.size, ListFor(f, f.enc.kind), |f.st.extents|, f.st.start)));
  }

  lemma CanReadStart(c: Setup, f: File)
    requires f.alive && f.enc.ListRead?
    ensures Goes(One(c, f), EncodeStart(0),
      One(c, f.(enc := BothRead(f.enc.kind, f.enc.size, f.enc.list, f.enc.n, f.enc.due, MemoryStart(f),
      MemoryCount(f)))))
  {
    hide MemoryStart, MemoryCount;
    OneFile(c, f,
      f.(enc := BothRead(f.enc.kind, f.enc.size, f.enc.list, f.enc.n, f.enc.due, MemoryStart(f), MemoryCount(f))));
  }

  lemma CanLog(c: Setup, f: File)
    requires f.alive && f.enc.BothRead? && (f.window.Fresh? ==> f.window.at.zone < c.zones)
    ensures f.window.Fresh? ==> f.window.at.zone < |DiskOf(c)|
    ensures Goes(One(c, f), Volume.Action.Log(0), One(c, LoggedFile(DiskOf(c), f)))
  {
    hide LoggedFile;
    OneFile(c, f, LoggedFile(DiskOf(c), f));
  }

  lemma CanMark(c: Setup, f: File)
    requires f.alive && f.enc.Marking?
    ensures Goes(One(c, f), Mark(0), One(c, MarkedFile(f)))
  {
    OneFile(c, f, MarkedFile(f));
  }

  lemma CanAdvance(c: Setup, f: File)
    requires f.alive && f.window.Lagging? && MayAdvance(DiskOf(c), f)
    ensures Goes(One(c, f), Advance(0), One(c, AdvancedFile(DiskOf(c), f)))
  {
    hide MayAdvance, AdvancedFile;
    OneFile(c, f, AdvancedFile(DiskOf(c), f));
  }

  lemma CanCount(c: Setup, f: File)
    requires f.alive && f.uncounted > 0
    ensures Goes(One(c, f), Count(0), One(c, f.(uncounted := 0)))
  {
    OneFile(c, f, f.(uncounted := 0));
  }

  /** The first file writes to the first zone, and has nothing written that its start does not
      show. */
  predicate WritesHere(c: Setup, f: File) {
    && f.alive && f.writing && (f.window == Quiet || f.window.Lagging?) && f.mode == Direct && f.st.active == Some(0)
    && c.zones > 0
    && f.st.start.Some? && f.st.start.value.zone == 0 && f.st.logged.Some? && f.st.logged.value.zone == 0
    && f.st.logged.value.off <= f.st.start.value.off <= |c.written|
  }

  lemma CanPushHere(c: Setup, f: File)
    requires WritesHere(c, f) && f.window == Quiet && f.st.filepos < f.st.size - f.uncounted
    ensures f.st.filepos + f.uncounted <= f.st.size && 0 < |DiskOf(c)|
    ensures Goes(One(c, f), Push(0),
                 One(c.(used := c.used + (f.st.size - f.uncounted - f.st.filepos)),
                   WithExtents(f, PushedState(DiskOf(c), f))))
  {
    hide PushedState;
    var n := f.st.size - f.uncounted - f.st.filepos;
    OneFile(c, f, WithExtents(f, PushedState(DiskOf(c), f)));
    var s := One(c, f);
    assert s.used[0 := s.used[0] + n] == One(c.(used := c.used + n), f).used;
  }

  lemma CanWriteHere(c: Setup, f: File, data: seq<byte>)
    requires WritesHere(c, f) && f.uncounted == 0 && data != [] && c.geo.bs > 0 && Aligned(|data|, c.geo.bs)
    requires |c.written| + |data| <= c.geo.capacity
    ensures Goes(One(c, f), Write(0, data),
                 One(c.(written := c.written + data), f.(st := f.st.(size := f.st.size + |data|), uncounted := |data|)))
  {
    hide Aligned;
    var f' := f.(st := f.st.(size := f.st.size + |data|), uncounted := |data|);
    var s, t := One(c, f), One(c.(written := c.written + data), f');
    assert s.disk[0 := s.disk[0] + data] == t.disk;
    OwnersJoin(|c.written|, |data|);
    assert s.owner[0 := s.owner[0] + Owners(0, |data|)] == t.owner;
    assert s.used[0 := s.used[0] + 0] == t.used;
    assert [f][0 := f'] == [f'];
  }

  lemma OwnersJoin(a: nat, b: nat)
    ensures Owners(0, a) + Owners(0, b) == Owners(0, a + b)
  {
  }

  /** The first file after the log has learned of its first zone. */
  function Started(): File {
    NewFile(Direct).(st := FileState([], Some(0), Some(Pos(0, 0)), 0, 0, 0, Some(Pos(0, 0))),
                     log := Logged(0, [], Some(Pos(0, 0)), 0, true))
  }

  predicate Holds(geo: Geometry, zones: nat, data: seq<byte>) {
    geo.Valid() && zones > 0 && data != [] && Aligned(|data|, geo.bs) && |data| <= geo.capacity
  }

  /** Creation of a file, and the zone switch of its first append. */
  lemma StartsFile(geo: Geometry, zones: nat) returns (actions: seq<Action>)
    requires geo.Valid() && zones > 0
    ensures Reaches(NewState(geo, zones), actions, One(Setup(geo, zones, [], 0, ByFile(0)), Started()), [])
  {
    hide Reaches, Goes;
    var s, c := NewState(geo, zones), Setup(geo, zones, [], 0, Free);
    Begin(s);
    NewIsOne(geo, zones);
    Step(s, [], s, [], Create(Direct), One(c, NewFile(Direct)));
    var c1 := c.(holder := ByFile(0));
    TakesZone(c, NewFile(Direct));
    Step(s, [] + [Create(Direct)], One(c, NewFile(Direct)), [], Acquire(0, 0), One(c1, NewFile(Direct)));
    var f1 := NewFile(Direct).(window := Fresh(Pos(0, 0)));
    Step(s, [] + [Create(Direct)] + [Acquire(0, 0)], One(c1, NewFile(Direct)), [], SetStart(0, 0), One(c1, f1));
    var f2;
    actions, f2 := RecordOf(s, [] + [Create(Direct)] + [Acquire(0, 0)] + [SetStart(0, 0)], c1, f1, [], Tail);
    FirstRecord(DiskOf(c1), f1);
  }

  lemma NewIsOne(geo: Geometry, zones: nat)
    ensures Goes(NewState(geo, zones), Create(Direct), One(Setup(geo, zones, [], 0, Free), NewFile(Direct)))
  {
    var s, t := NewState(geo, zones), One(Setup(geo, zones, [], 0, Free), NewFile(Direct));
    assert s.disk == t.disk && s.owner == t.owner && s.used == t.used && s.holder == t.holder &&
      s.finished == t.finished;
  }

  lemma TakesZone(c: Setup, f: File)
    requires c.zones > 0 && c.geo.capacity > 0 && c.written == [] && c.holder == Free && f == NewFile(Direct)
    ensures Goes(One(c, f), Acquire(0, 0), One(c.(holder := ByFile(0)), f))
    ensures Goes(One(c.(holder := ByFile(0)), f), SetStart(0, 0),
      One(c.(holder := ByFile(0)), f.(window := Fresh(Pos(0, 0)))))
  {
    var s, t := One(c, f), One(c.(holder := ByFile(0)), f);
    assert s.holder[0 := ByFile(0)] == t.holder;
    OneFile(c.(holder := ByFile(0)), f, f.(window := Fresh(Pos(0, 0))));
  }

  /** The file after a record of it that nothing overlaps. */
  function Recorded(disk: Disk, f: File, kind: Kind): File
    requires f.counter <= |f.st.extents| && (f.window.Fresh? ==> f.window.at.zone < |disk|)
  {
    MarkedFile(LoggedFile(disk,
      f.(enc := BothRead(kind, FileSize(f), ListFor(f, kind), |f.st.extents|, f.st.start, MemoryStart(f),
      MemoryCount(f)))))
  }

  lemma RecordOf(s: State, before: seq<Action>, c: Setup, f: File, data: seq<byte>, kind: Kind)
    returns (actions: seq<Action>, f': File)
    requires Reaches(s, before, One(c, f), data) && f.alive && f.enc == NoRecord && kind != Swap
    requires f.counter <= |f.st.extents|
    requires f.window.Fresh? ==> f.window.at.zone < c.zones
    ensures actions == before + [Encode(0, kind)] + [EncodeList(0)] + [EncodeStart(0)] + [Volume.Action.Log(0)]
      + [Mark(0)]
    ensures f.window.Fresh? ==> f.window.at.zone < |DiskOf(c)|
    ensures f' == Recorded(DiskOf(c), f, kind) && Reaches(s, actions, One(c, f'), data)
  {
    hide Reaches, Goes, One, ListFor, MemoryStart, MemoryCount, FileSize, LoggedFile;
    var f1 := f.(enc := SizeRead(kind, FileSize(f)));
    CanEncode(c, f, kind);
    Step(s, before, One(c, f), data, Encode(0, kind), One(c, f1));
    var f2 := f1.(enc := ListRead(kind, FileSize(f), ListFor(f1, kind), |f.st.extents|, f.st.start));
    CanReadList(c, f1);
    SameReads(f, f1);
    actions := before + [Encode(0, kind)];
    Step(s, actions, One(c, f1), data, EncodeList(0), One(c, f2));
    var f3 := f2.(enc := BothRead(kind, FileSize(f), ListFor(f, kind), |f.st.extents|, f.st.start, MemoryStart(f2),
      MemoryCount(f2)));
    CanReadStart(c, f2);
    SameReads(f, f2);
    actions := actions + [EncodeList(0)];
    Step(s, actions, One(c, f2), data, EncodeStart(0), One(c, f3));
    CanLog(c, f3);
    actions := actions + [EncodeStart(0)];
    Step(s, actions, One(c, f3), data, Volume.Action.Log(0), One(c, LoggedFile(DiskOf(c), f3)));
    MarksNext(DiskOf(c), f3);
    CanMark(c, LoggedFile(DiskOf(c), f3));
    actions := actions + [Volume.Action.Log(0)];
    f' := MarkedFile(LoggedFile(DiskOf(c), f3));
    Step(s, actions, One(c, LoggedFile(DiskOf(c), f3)), data, Mark(0), One(c, f'));
    actions := actions + [Mark(0)];
  }

  lemma SameReads(f: File, f': File)
    requires f' == f.(enc := f'.enc) && f.counter <= |f.st.extents|
    ensures MemoryStart(f') == MemoryStart(f) && MemoryCount(f') == MemoryCount(f) &&
      forall kind :: ListFor(f', kind) == ListFor(f, kind)
  {
  }

  lemma MarksNext(disk: Disk, f: File)
    requires f.enc.BothRead? && (f.window.Fresh? ==> f.window.at.zone < |disk|)
    ensures LoggedFile(disk, f).enc == Marking(f.enc.kind) && LoggedFile(disk, f).alive == f.alive
  {
  }

  lemma FirstRecord(disk: Disk, f: File)
    requires |disk| > 0 && disk[0] == [] && f == NewFile(Direct).(window := Fresh(Pos(0, 0)))
    ensures Recorded(disk, f, Tail) == Started()
  {
    hide LoggedFile;
    FirstLogged(disk, f, f.(enc := BothRead(Tail, 0, [], 0, None, Some(Pos(0, 0)), 0)));
    FirstReads(f);
  }

  lemma FirstReads(f: File)
    requires f == NewFile(Direct).(window := Fresh(Pos(0, 0)))
    ensures f.counter <= |f.st.extents| && ListFor(f, Tail) == [] && FileSize(f) == 0
    ensures MemoryStart(f) == Some(Pos(0, 0))
    ensures MemoryCount(f) == 0
    ensures |f.st.extents| == 0 && f.st.start.None?
  {
    hide ListFor, FileSize, MemoryStart, MemoryCount;
    FirstFields(f);
    FirstStart(f);
    Nothing(f);
  }

  lemma FirstFields(f: File)
    requires f == NewFile(Direct).(window := Fresh(Pos(0, 0)))
    ensures f.counter == 0 && f.st.extents == [] && f.log.list == [] && f.st.start.None?
    ensures FileSize(f) == 0
  {
  }

  lemma FirstStart(f: File)
    requires f == NewFile(Direct).(window := Fresh(Pos(0, 0)))
    ensures MemoryStart(f) == Some(Pos(0, 0)) && MemoryCount(f) == 0
  {
  }

  lemma Nothing(f: File)
    requires f.log.list == [] && f.st.extents == [] && f.counter == 0
    ensures ListFor(f, Tail) == []
  {
  }

  lemma FirstLogged(disk: Disk, f: File, g: File)
    requires f == NewFile(Direct).(window := Fresh(Pos(0, 0))) && |disk| > 0 && disk[0] == []
    requires g == f.(enc := BothRead(Tail, 0, [], 0, None, Some(Pos(0, 0)), 0))
    ensures MarkedFile(LoggedFile(disk, g)) == Started()
  {
    hide ListFits, PairSt;
    assert LoggedFile(disk, g) == g.(enc := Marking(Tail), st := Allocated(disk, g.st, 0), window := Quiet,
      log := Logged(0, [], Some(Pos(0, 0)), 0, true));
  }

  /** The first file after data were appended to it and counted. */
  function WrittenFile(n: nat): File { Started().(st := Started().st.(size := n)) }

  function Full(geo: Geometry, zones: nat, data: seq<byte>): Setup { Setup(geo, zones, data, 0, ByFile(0)) }

  lemma HasWritten(geo: Geometry, zones: nat, data: seq<byte>) returns (actions: seq<Action>)
    requires Holds(geo, zones, data)
    ensures Reaches(NewState(geo, zones), actions, One(Full(geo, zones, data), WrittenFile(|data|)), data)
  {
    var before := StartsFile(geo, zones);
    actions := Appends(NewState(geo, zones), before, Full(geo, zones, []), Started(), [], data);
    hide Reaches;
    assert [] + data == data;
  }

  /** An append of one write, and its count. */
  lemma Appends(s: State, before: seq<Action>, c: Setup, f: File, was: seq<byte>, data: seq<byte>)
    returns (actions: seq<Action>)
    requires Reaches(s, before, One(c, f), was) && WritesHere(c, f) && f.uncounted == 0 && data != [] && c.geo.bs > 0
    requires Aligned(|data|, c.geo.bs) && |c.written| + |data| <= c.geo.capacity
    ensures actions == before + [Write(0, data)] + [Count(0)]
    ensures Reaches(s, actions, One(c.(written := c.written + data), f.(st := f.st.(size := f.st.size + |data|))),
      was + data)
  {
    hide Reaches, Goes, One, Aligned;
    var c', f' := c.(written := c.written + data), f.(st := f.st.(size := f.st.size + |data|), uncounted := |data|);
    CanWriteHere(c, f, data);
    Go(s, before, One(c, f), was, Write(0, data), One(c', f'));
    CanCount(c', f');
    Step(s, before + [Write(0, data)], One(c', f'), was + data, Count(0), One(c', f'.(uncounted := 0)));
    assert f'.(uncounted := 0) == f.(st := f.st.(size := f.st.size + |data|));
    actions := before + [Write(0, data)] + [Count(0)];
  }

  /** The file after its first extent of n bytes was pushed. */
  function PushedFile(n: nat): File {
    WithExtents(WrittenFile(n), FileState([Ext(0, 0, n)], Some(0), Some(Pos(0, n)), n, n, 0, Some(Pos(0, 0))))
  }

  lemma PushedIs(disk: Disk, f: File, n: nat)
    requires |disk| > 0 && |disk[0]| == n && f == WrittenFile(n).(enc := f.enc, log := f.log)
    ensures WithExtents(f, PushedState(disk, f)) == PushedFile(n).(enc := f.enc, log := f.log)
  {
    assert [] + [Ext(0, 0, n)] == [Ext(0, 0, n)];
  }

  lemma FirstZone(c: Setup)
    requires c.zones > 0
    ensures |DiskOf(c)| == c.zones && DiskOf(c)[0] == c.written
  {
  }

  lemma CanCrash(c: Setup, f: File) returns (t: State)
    requires c.geo.bs > 0
    ensures Goes(One(c, f), Crash, t) && t.disk == DiskOf(c) && t.files == [CrashFile(c.geo, DiskOf(c), f)]
  {
    hide CrashFile, Charges;
    t := CrashState(One(c, f));
  }

  /** What is mounted of a file with this log. */
  lemma CrashGives(c: Setup, f: File, off: nat)
    requires c.zones > 0 && c.geo.Valid() && |c.written| <= c.geo.capacity && off <= |c.written|
    requires f.named && f.mode == Direct && f.log.start == Some(Pos(0, off))
    ensures CrashFile(c.geo, DiskOf(c), f) ==
      if off < |c.written| then
        var es := f.log.list + [Ext(0, off, |c.written| - off)];
        Mounted(Direct, es, Total(es))
      else Mounted(Direct, f.log.list, f.log.size)
  {
    hide Total, Mounted, WalkSegments;
    FirstZone(c);
    hide DiskOf;
  }

  lemma MountedBytes(c: Setup, es: seq<Ext>, size: int)
    requires AllInside(DiskOf(c), es)
    ensures Bytes(DiskOf(c), Mounted(Direct, es, size)) == Content(DiskOf(c), es)
    ensures FileSize(Mounted(Direct, es, size)) == size
  {
    hide DiskOf, Content, Inside;
    assert Content(DiskOf(c), es) + [] == Content(DiskOf(c), es);
  }

  lemma OneExtent(c: Setup, n: nat)
    requires c.zones > 0 && n <= |c.written|
    ensures AllInside(DiskOf(c), [Ext(0, 0, n)]) && Content(DiskOf(c), [Ext(0, 0, n)]) == c.written[..n]
    ensures Total([Ext(0, 0, n)]) == n
  {
    hide DiskOf, Content, Total;
    FirstZone(c);
    var e := Ext(0, 0, n);
    assert Inside(DiskOf(c), e) && Lookup(DiskOf(c), e) == c.written[..n];
    NoExtents(DiskOf(c));
    ContentPush(DiskOf(c), [], e);
    assert [] + [e] == [e] && [] + c.written[..n] == c.written[..n];
  }

  lemma NoExtents(disk: Disk)
    ensures AllInside(disk, []) && Content(disk, []) == [] && Total([]) == 0
  {
  }

  // ---------- a record and a push ----------

  /** After a run in which every action is possible and which ends in a crash, this is the first
      file, to which `data` was appended. */
  ghost predicate EndsWith(geo: Geometry, zones: nat, actions: seq<Action>, data: seq<byte>, f: File, disk: Disk) {
    && AllEnabled(NewState(geo, zones), actions) && actions != [] && actions[|actions| - 1] == Crash
    && VolumeSafety.Log(NewState(geo, zones), actions, 0) == data
    && Run(NewState(geo, zones), actions).files == [f] && Run(NewState(geo, zones), actions).disk == disk
  }

  lemma CrashAtEnd(geo: Geometry, zones: nat, before: seq<Action>, c: Setup, f: File, data: seq<byte>)
    requires Reaches(NewState(geo, zones), before, One(c, f), data) && c.geo.bs > 0
    ensures EndsWith(geo, zones, before + [Crash], data, CrashFile(c.geo, DiskOf(c), f), DiskOf(c))
  {
    hide Goes, One, CrashFile, DiskOf, CrashState;
    var t := CanCrash(c, f);
    Step(NewState(geo, zones), before, One(c, f), data, Crash, t);
    assert (before + [Crash])[|before|] == Crash;
  }

  /** Push, list, start, log: a record reads the list after an extent was pushed, and the start
      before it follows. The file that is mounted has its bytes twice. */
  lemma PushListStartLog(geo: Geometry, zones: nat, data: seq<byte>) returns (actions: seq<Action>, f: File, disk: Disk)
    requires Holds(geo, zones, data)
    ensures EndsWith(geo, zones, actions, data, f, disk)
    ensures Bytes(disk, f) == data + data && FileSize(f) == 2 * |data|
  {
    hide Reaches, Goes, One, EndsWith, CrashFile, DiskOf, Mounted, Bytes, Content, Total, AllInside, FileSize, Recorded;
    var s, c, n := NewState(geo, zones), Full(geo, zones, data), |data|;
    actions := HasWritten(geo, zones, data);
    FirstZone(c);
    CanPushHere(c, WrittenFile(n));
    PushedIs(DiskOf(c), WrittenFile(n), n);
    var c1, f1 := c.(used := n), PushedFile(n);
    Step(s, actions, One(c, WrittenFile(n)), data, Push(0), One(c1, f1));
    var f2;
    actions, f2 := RecordOf(s, actions + [Push(0)], c1, f1, data, Whole);
    FirstZone(c1);
    TwiceLogged(DiskOf(c1), n);
    CrashAtEnd(geo, zones, actions, c1, f2, data);
    CrashGives(c1, f2, 0);
    actions := actions + [Crash];
    f, disk := CrashFile(geo, DiskOf(c1), f2), DiskOf(c1);
    TwoExtents(c1, n);
    MountedBytes(c1, [Ext(0, 0, n)] + [Ext(0, 0, n)], 2 * n);
  }

  lemma TwiceLogged(disk: Disk, n: nat)
    requires n > 0 && |disk| > 0
    ensures var f := Recorded(disk, PushedFile(n), Whole);
      f.named && f.mode == Direct && f.log == Logged(n, [Ext(0, 0, n)], Some(Pos(0, 0)), 0, false)
  {
    hide ListFits;
  }

  lemma TwoExtents(c: Setup, n: nat)
    requires c.zones > 0 && n == |c.written|
    ensures var es := [Ext(0, 0, n)] + [Ext(0, 0, n)];
      AllInside(DiskOf(c), es) && Content(DiskOf(c), es) == c.written + c.written && Total(es) == 2 * n
  {
    OneExtent(c, n);
    FirstZone(c);
    hide DiskOf, Content;
    var e := Ext(0, 0, n);
    ContentPush(DiskOf(c), [e], e);
    TotalConcat([e], [e]);
    assert c.written[..n] == c.written && Lookup(DiskOf(c), e) == c.written;
  }

  /** List, push, start, log: a record reads the list before an extent is pushed, and the start
      after it. The file that is mounted has the size, and none of the bytes. */
  lemma ListPushStartLog(geo: Geometry, zones: nat, data: seq<byte>) returns (actions: seq<Action>, f: File, disk: Disk)
    requires Holds(geo, zones, data)
    ensures EndsWith(geo, zones, actions, data, f, disk)
    ensures Bytes(disk, f) == [] && FileSize(f) == |data|
  {
    hide Reaches, Goes, One, EndsWith, CrashFile, DiskOf, Mounted, Bytes, Content, Total, AllInside, FileSize,
      LoggedFile, PushedFile;
    var s, c, n := NewState(geo, zones), Full(geo, zones, data), |data|;
    actions := HasWritten(geo, zones, data);
    var f2;
    actions, f2 := ReadsSizeAndList(s, actions, c, WrittenFile(n), data);
    WrittenReads(n);
    var f4;
    actions, f4 := PushesWith(s, actions, c, f2, n, data);
    var c1, f5 := c.(used := n), f4.(enc := BothRead(Whole, n, [], 0, Some(Pos(0, 0)), Some(Pos(0, n)), 1));
    PushedFields(n, f4);
    CanReadStart(c1, f4);
    Step(s, actions, One(c1, f4), data, EncodeStart(0), One(c1, f5));
    CanLog(c1, f5);
    FirstZone(c1);
    var f6 := LoggedFile(DiskOf(c1), f5);
    Step(s, actions + [EncodeStart(0)], One(c1, f5), data, Volume.Action.Log(0), One(c1, f6));
    MixedLogged(DiskOf(c1), f5);
    CrashAtEnd(geo, zones, actions + [EncodeStart(0)] + [Volume.Action.Log(0)], c1, f6, data);
    CrashGives(c1, f6, n);
    actions := actions + [EncodeStart(0)] + [Volume.Action.Log(0)] + [Crash];
    f, disk := CrashFile(geo, DiskOf(c1), f6), DiskOf(c1);
    NoExtents(DiskOf(c1));
    MountedBytes(c1, [], n);
  }

  /** The first two reads of a record that is part of a snapshot. */
  lemma ReadsSizeAndList(s: State, before: seq<Action>, c: Setup, f: File, data: seq<byte>)
    returns (actions: seq<Action>, f': File)
    requires Reaches(s, before, One(c, f), data) && f.alive && f.enc == NoRecord && f.counter <= |f.st.extents|
    ensures actions == before + [Encode(0, Whole)] + [EncodeList(0)]
    ensures f' == f.(enc := ListRead(Whole, FileSize(f), f.st.extents, |f.st.extents|, f.st.start))
    ensures Reaches(s, actions, One(c, f'), data)
  {
    hide Reaches, Goes, One, FileSize;
    var f1 := f.(enc := SizeRead(Whole, FileSize(f)));
    CanEncode(c, f, Whole);
    Step(s, before, One(c, f), data, Encode(0, Whole), One(c, f1));
    f' := f1.(enc := ListRead(Whole, FileSize(f), f.st.extents, |f.st.extents|, f.st.start));
    CanReadList(c, f1);
    Step(s, before + [Encode(0, Whole)], One(c, f1), data, EncodeList(0), One(c, f'));
    actions := before + [Encode(0, Whole)] + [EncodeList(0)];
  }

  lemma WrittenReads(n: nat)
    ensures WrittenFile(n).alive && WrittenFile(n).enc == NoRecord && WrittenFile(n).counter == 0
    ensures WrittenFile(n).st.extents == [] && WrittenFile(n).st.start == Some(Pos(0, 0))
    ensures FileSize(WrittenFile(n)) == n
  {
  }

  /** The first extent is pushed, and the start follows, whatever record is under way. */
  lemma PushesWith(s: State, before: seq<Action>, c: Setup, f: File, n: nat, data: seq<byte>)
    returns (actions: seq<Action>, f': File)
    requires Reaches(s, before, One(c, f), data) && f == WrittenFile(n).(enc := f.enc, log := f.log)
    requires n == |c.written| > 0 && c.zones > 0
    ensures actions == before + [Push(0)] + [Advance(0)]
    ensures f' == PushedFile(n).(enc := f.enc, log := f.log, window := Quiet)
    ensures Reaches(s, actions, One(c.(used := c.used + n), f'), data)
  {
    hide Reaches, Goes, One, DiskOf;
    FirstZone(c);
    CanPushHere(c, f);
    PushedIs(DiskOf(c), f, n);
    var c1, f1 := c.(used := c.used + n), PushedFile(n).(enc := f.enc, log := f.log);
    Step(s, before, One(c, f), data, Push(0), One(c1, f1));
    FirstZone(c1);
    CanAdvance(c1, f1);
    f' := f1.(window := Quiet);
    Step(s, before + [Push(0)], One(c1, f1), data, Advance(0), One(c1, f'));
    actions := before + [Push(0)] + [Advance(0)];
  }

  lemma PushedFields(n: nat, f: File)
    requires f == PushedFile(n).(enc := f.enc, log := f.log, window := Quiet)
    ensures f.alive && f.named && f.mode == Direct && f.window == Quiet && f.st.extents == [Ext(0, 0, n)]
    ensures f.st.start == Some(Pos(0, n))
    ensures MemoryStart(f) == Some(Pos(0, n)) && MemoryCount(f) == 1 && f.counter == 0
  {
  }

  lemma MixedLogged(disk: Disk, f: File)
    requires f.window == Quiet && f.enc.BothRead? && f.enc.start != f.enc.due
    ensures LoggedFile(disk, f).log == Logged(f.enc.size, f.enc.list, f.enc.start, f.enc.m, false)
    ensures LoggedFile(disk, f).named == f.named && LoggedFile(disk, f).mode == f.mode
  {
  }

  /** Size, append, push, list, start, log: list and start belong together, so that the log is
      exact. The file that is mounted has all its bytes, and a size of nothing. */
  lemma SizePushListLog(geo: Geometry, zones: nat, data: seq<byte>) returns (actions: seq<Action>, f: File, disk: Disk)
    requires Holds(geo, zones, data)
    ensures EndsWith(geo, zones, actions, data, f, disk)
    ensures Bytes(disk, f) == data && FileSize(f) == 0
  {
    hide Reaches, Goes, One, EndsWith, CrashFile, DiskOf, Mounted, Bytes, Content, Total, AllInside, FileSize,
      LoggedFile, PushedFile;
    var s, c0, n := NewState(geo, zones), Full(geo, zones, []), |data|;
    actions := StartsFile(geo, zones);
    var f1 := Started().(enc := SizeRead(Whole, 0));
    CanEncode(c0, Started(), Whole);
    WrittenReads(0);
    assert Started() == WrittenFile(0);
    Step(s, actions, One(c0, Started()), [], Encode(0, Whole), One(c0, f1));
    actions := Appends(s, actions + [Encode(0, Whole)], c0, f1, [], data);
    assert [] + data == data && c0.(written := [] + data) == Full(geo, zones, data);
    var c, f2, f3 := Full(geo, zones, data), WrittenFile(n).(enc := SizeRead(Whole, 0)), Started();
    actions, f3 := PushesWith(s, actions, c, f2, n, data);
    PushedFields(n, f3);
    var c1, e := c.(used := n), Ext(0, 0, n);
    var f4 := f3.(enc := ListRead(Whole, 0, [e], 1, Some(Pos(0, n))));
    CanReadList(c1, f3);
    Step(s, actions, One(c1, f3), data, EncodeList(0), One(c1, f4));
    var f5 := f3.(enc := BothRead(Whole, 0, [e], 1, Some(Pos(0, n)), Some(Pos(0, n)), 1));
    CanReadStart(c1, f4);
    PushedFields(n, f4);
    Step(s, actions + [EncodeList(0)], One(c1, f4), data, EncodeStart(0), One(c1, f5));
    actions := actions + [EncodeList(0)] + [EncodeStart(0)];
    CanLog(c1, f5);
    FirstZone(c1);
    var f6 := LoggedFile(DiskOf(c1), f5);
    Step(s, actions, One(c1, f5), data, Volume.Action.Log(0), One(c1, f6));
    ExactLogged(DiskOf(c1), f5);
    CrashAtEnd(geo, zones, actions + [Volume.Action.Log(0)], c1, f6, data);
    CrashGives(c1, f6, n);
    actions := actions + [Volume.Action.Log(0)] + [Crash];
    f, disk := CrashFile(geo, DiskOf(c1), f6), DiskOf(c1);
    OneExtent(c1, n);
    assert data[..n] == data;
    MountedBytes(c1, [e], 0);
  }

  lemma ExactLogged(disk: Disk, f: File)
    requires f.window == Quiet && f.enc.BothRead? && f.enc.start == f.enc.due && f.enc.n <= |f.st.extents|
    requires f.enc.list == f.st.extents[..f.enc.n]
    ensures LoggedFile(disk, f) == f.(st := f.st.(synced := f.enc.n, logged := f.enc.due), enc := Marking(f.enc.kind),
      log := Logged(f.enc.size, f.enc.list, f.enc.start, f.enc.m, true))
  {
    hide PairSt;
    assert PairSt(f) == f.st.(synced := f.enc.n, logged := f.enc.due) by { PairIs(f); }
  }

  lemma PairIs(f: File)
    requires f.enc.BothRead?
    ensures PairSt(f) == f.st.(synced := f.enc.n, logged := f.enc.due)
  {
  }

  /** A push between the log and the mark of a record: the extent counts as synced and is in no
      later record. After one, which the writer has waited for, the file that is mounted has none
      of its bytes. */
  lemma PushBeforeMark(geo: Geometry, zones: nat, data: seq<byte>) returns (actions: seq<Action>, f: File, disk: Disk)
    requires Holds(geo, zones, data)
    ensures EndsWith(geo, zones, actions, data, f, disk)
    ensures Bytes(disk, f) == [] && FileSize(f) == |data|
  {
    hide Reaches, Goes, One, EndsWith, CrashFile, DiskOf, Mounted, Bytes, Content, Total, AllInside, FileSize,
      LoggedFile, PushedFile, Recorded;
    var s, c, n := NewState(geo, zones), Full(geo, zones, data), |data|;
    actions := HasWritten(geo, zones, data);
    var f2, f7, f9;
    actions, f2 := ReadsSizeAndList(s, actions, c, WrittenFile(n), data);
    WrittenReads(n);
    var f3 := f2.(enc := BothRead(Whole, n, [], 0, Some(Pos(0, 0)), Some(Pos(0, 0)), 0));
    WrittenStart(n, f2);
    CanReadStart(c, f2);
    Step(s, actions, One(c, f2), data, EncodeStart(0), One(c, f3));
    actions := actions + [EncodeStart(0)];
    CanLog(c, f3);
    FirstZone(c);
    ExactLogged(DiskOf(c), f3);
    var f4 := WrittenFile(n).(enc := Marking(Whole), log := Logged(n, [], Some(Pos(0, 0)), 0, true));
    WrittenPair(n);
    assert LoggedFile(DiskOf(c), f3) == f4;
    Step(s, actions, One(c, f3), data, Volume.Action.Log(0), One(c, f4));
    actions, f7 := PushesWith(s, actions + [Volume.Action.Log(0)], c, f4, n, data);
    var c1, f8 := c.(used := n), f7.(enc := NoRecord, counter := 1);
    PushedFields(n, f7);
    CanMark(c1, f7);
    Step(s, actions, One(c1, f7), data, Mark(0), One(c1, f8));
    actions, f9 := RecordOf(s, actions + [Mark(0)], c1, f8, data, Tail);
    FirstZone(c1);
    LateLogged(DiskOf(c1), n, f8);
    CrashAtEnd(geo, zones, actions, c1, f9, data);
    CrashGives(c1, f9, n);
    actions := actions + [Crash];
    f, disk := CrashFile(geo, DiskOf(c1), f9), DiskOf(c1);
    NoExtents(DiskOf(c1));
    MountedBytes(c1, [], n);
  }

  lemma WrittenStart(n: nat, f: File)
    requires f == WrittenFile(n).(enc := f.enc)
    ensures MemoryStart(f) == Some(Pos(0, 0)) && MemoryCount(f) == 0 && f.window == Quiet && f.alive
  {
  }

  lemma WrittenPair(n: nat)
    ensures WrittenFile(n).st.(synced := 0, logged := Some(Pos(0, 0))) == WrittenFile(n).st
  {
  }

  lemma LateLogged(disk: Disk, n: nat, f: File)
    requires |disk| > 0 && n > 0
    requires f == PushedFile(n).(enc := NoRecord, counter := 1, window := Quiet,
      log := Logged(n, [], Some(Pos(0, 0)), 0, true))
    ensures var f' := Recorded(disk, f, Tail);
      f'.named && f'.mode == Direct && f'.log.size == n && f'.log.list == [] && f'.log.start == Some(Pos(0, n))
  {
    hide ListFits, PairSt;
    assert f.st.extents[1..] == [];
  }

  // ---------- a push in the middle of an append ----------

  /** The first part of a push, in which the list gets its extent, keeps the bytes of the file, if
      and only if nothing is between its write and its count. */
  lemma PushKeepsBytesIff(s: State, i: nat)
    requires Inv(s) && Enabled(s, Push(i))
    ensures s.files[i].st.filepos + s.files[i].uncounted <= s.files[i].st.size && s.files[i].st.start.Some?
    ensures var f, st := s.files[i], PushedState(s.disk, s.files[i]);
      && AllInside(s.disk, st.extents) && ActiveOk(s.disk, Direct, st)
      && (FileContent(s.disk, Direct, st) == Bytes(s.disk, f) <==> f.uncounted == 0)
  {
    hide Inv, StateOk, LogOk, LockOk, FlagsOk, WindowOk, RegionOk, Inside, Content, Lookup, FileOk, AllInside;
    FactsAt(s, i);
    var f := s.files[i];
    PushOk(s.geo, s.disk, f.st);
    TornState(s.disk, f);
    assert PushedState(s.disk, f).extents == f.st.extents
      + [Ext(f.st.active.value, f.st.start.value.off, f.st.size - f.uncounted - f.st.filepos)];
  }

  lemma TornState(disk: Disk, f: File)
    requires AllInside(disk, f.st.extents) && ActiveOk(disk, Direct, f.st) && f.st.active.Some?
    requires f.st.filepos + f.uncounted <= f.st.size
    requires f.st.size - f.st.filepos == |disk[f.st.active.value]| - f.st.start.value.off
    ensures var st, pending := PushedState(disk, f), Pending(disk, Direct, f.st);
      && AllInside(disk, st.extents) && ActiveOk(disk, Direct, st) && f.uncounted <= |pending|
      && FileContent(disk, Direct, st) == Content(disk, f.st.extents) + pending[..|pending| - f.uncounted]
      && |FileContent(disk, Direct, st)| == |FileContent(disk, Direct, f.st)| - f.uncounted
      && (f.uncounted == 0 ==> FileContent(disk, Direct, st) == FileContent(disk, Direct, f.st))
  {
    hide Content;
    var z, off := f.st.active.value, f.st.start.value.off;
    var e := Ext(z, off, f.st.size - f.uncounted - f.st.filepos);
    var pending := disk[z][off..];
    assert Inside(disk, e) && Lookup(disk, e) == pending[..|pending| - f.uncounted];
    ContentPush(disk, f.st.extents, e);
    assert disk[z][|disk[z]|..] == [];
    assert pending[..|pending|] == pending;
    assert Content(disk, f.st.extents + [e]) + [] == Content(disk, f.st.extents + [e]);
  }

  /** The last part of a push, in which the start follows, keeps the bytes of the file, if and only if
      the write pointer is still where the first part has seen it. Bytes that were written since are
      in no extent, and never will be. */
  lemma AdvanceKeepsBytesIff(s: State, i: nat)
    requires Enabled(s, Advance(i)) && s.files[i].mode == Direct
    requires AllInside(s.disk, s.files[i].st.extents) && ActiveOk(s.disk, Direct, s.files[i].st)
    ensures var f, z := s.files[i], s.files[i].st.active.value;
      && Bytes(s.disk, AdvancedFile(s.disk, f)) == Content(s.disk, f.st.extents)
      && (Bytes(s.disk, AdvancedFile(s.disk, f)) == Bytes(s.disk, f) <==> f.st.start.value.off == |s.disk[z]|)
    ensures Apply(s, Advance(i)).files[i].st.filepos == s.files[i].st.size - s.files[i].uncounted
  {
    hide AllInside, Content;
    var f, z := s.files[i], s.files[i].st.active.value;
    assert s.disk[z][|s.disk[z]|..] == [];
    assert Content(s.disk, f.st.extents) + [] == Content(s.disk, f.st.extents);
    assert |s.disk[z][f.st.start.value.off..]| == |s.disk[z]| - f.st.start.value.off;
  }

  /** A whole push, in the middle of which data may be appended, keeps the bytes of the file and has
      the data behind them, if and only if no append is between its write and its count when it
      begins, and none writes before it ends. */
  lemma WholePushKeepsBytesIff(s: State, i: nat, data: seq<byte>)
    requires Inv(s) && Enabled(s, Push(i)) && (data != [] ==> Enabled(Apply(s, Push(i)), Write(i, data)))
    ensures var s1 := Apply(s, Push(i));
      var s2 := if data == [] then s1 else Apply(s1, Write(i, data));
      && Enabled(s2, Advance(i)) && i < |Apply(s2, Advance(i)).files|
      && (Bytes(s2.disk, Apply(s2, Advance(i)).files[i]) == Bytes(s.disk, s.files[i]) + data
          <==> s.files[i].uncounted == 0 && data == [])
  {
    hide Inv, Content, Lookup, AllInside, Aligned, PushedState, FileContent, ActiveOk, Pending, Inside;
    PushKeepsBytesIff(s, i);
    PushedFacts(s, i);
    var f, st, z := s.files[i], PushedState(s.disk, s.files[i]), s.files[i].st.active.value;
    var s1 := Apply(s, Push(i));
    var s2 := if data == [] then s1 else Apply(s1, Write(i, data));
    if data != [] { GrowFrame(s.disk, st.extents, z, data); }
    assert s2.disk == if data == [] then s.disk else s.disk[z := s.disk[z] + data];
    GrownActive(s.disk, st, z, data);
    assert s2.files[i].st.extents == st.extents && s2.files[i].st.active == Some(z);
    SizeChanges(s2.disk, st, s2.files[i].st);
    AdvanceKeepsBytesIff(s2, i);
  }

  lemma SizeChanges(disk: Disk, st: FileState, st': FileState)
    requires ActiveOk(disk, Direct, st) && st' == st.(size := st'.size)
    ensures ActiveOk(disk, Direct, st')
  {
  }

  lemma GrownActive(disk: Disk, st: FileState, z: nat, data: seq<byte>)
    requires ActiveOk(disk, Direct, st) && z < |disk|
    ensures ActiveOk(disk[z := disk[z] + data], Direct, st) && disk[z := disk[z] + []] == disk
  {
    assert disk[z] + [] == disk[z];
  }

  /** What a push leaves, and how much of it is missing. */
  lemma PushedFacts(s: State, i: nat)
    requires Inv(s) && Enabled(s, Push(i))
    ensures var f, st := s.files[i], s.files[i].st;
      && st.filepos + f.uncounted <= st.size && st.start.Some? && AllInside(s.disk, PushedState(s.disk, f).extents)
      && PushedState(s.disk, f).active == st.active && PushedState(s.disk, f).size == st.size
      && |Content(s.disk, PushedState(s.disk, f).extents)| == |Bytes(s.disk, f)| - f.uncounted
      && (f.uncounted == 0 ==> Content(s.disk, PushedState(s.disk, f).extents) == Bytes(s.disk, f))
  {
    hide Inv, StateOk, LogOk, LockOk, FlagsOk, WindowOk, RegionOk, Inside, Content, Lookup, FileOk, AllInside;
    FactsAt(s, i);
    var f := s.files[i];
    PushOk(s.geo, s.disk, f.st);
    TornState(s.disk, f);
    var st := PushedState(s.disk, f);
    assert s.disk[f.st.active.value][|s.disk[f.st.active.value]|..] == [];
    assert Content(s.disk, st.extents) + [] == Content(s.disk, st.extents);
  }

  lemma AllWritten(disk: Disk, f: File)
    requires f.mode == Direct && AllInside(disk, f.st.extents) && ActiveOk(disk, Direct, f.st)
    requires f.st.active.Some? && f.st.start.value.off == |disk[f.st.active.value]|
    ensures Bytes(disk, f) == Content(disk, f.st.extents)
  {
    hide Content, Inside;
    assert disk[f.st.active.value][|disk[f.st.active.value]|..] == [];
    assert Content(disk, f.st.extents) + [] == Content(disk, f.st.extents);
  }

  /** Append, push, append, advance: the start goes behind the bytes of the second append, which are
      in no extent, and the file counts them. There is no crash. */
  lemma AppendInsidePush(geo: Geometry, zones: nat, data: seq<byte>, more: seq<byte>)
    returns (actions: seq<Action>, s: State)
    requires Holds(geo, zones, data) && more != [] && Aligned(|more|, geo.bs) && |data| + |more| <= geo.capacity
    ensures Reaches(NewState(geo, zones), actions, s, data + more) && |s.files| == 1
    ensures Bytes(s.disk, s.files[0]) == data && FileSize(s.files[0]) == |data| + |more| && s.files[0].window == Quiet
    ensures s.files[0].st.filepos == |data| + |more|
  {
    hide Reaches, Goes, One, DiskOf, Aligned, Bytes;
    var s0, c, n, m := NewState(geo, zones), Full(geo, zones, data), |data|, |more|;
    actions := HasWritten(geo, zones, data);
    FirstZone(c);
    CanPushHere(c, WrittenFile(n));
    PushedIs(DiskOf(c), WrittenFile(n), n);
    var c1, f1 := c.(used := n), PushedFile(n);
    Step(s0, actions, One(c, WrittenFile(n)), data, Push(0), One(c1, f1));
    actions := Appends(s0, actions + [Push(0)], c1, f1, data, more);
    var c2, f2 := c1.(written := data + more), f1.(st := f1.st.(size := n + m));
    FirstZone(c2);
    CanAdvance(c2, f2);
    var f3 := AdvancedFile(DiskOf(c2), f2);
    Step(s0, actions, One(c2, f2), data + more, Advance(0), One(c2, f3));
    actions := actions + [Advance(0)];
    s := One(c2, f3);
    OneIs(c2, f3);
    OneExtent(c2, n);
    assert (data + more)[..n] == data;
    AllWritten(DiskOf(c2), f3);
    assert FileSize(f3) == n + m;
  }

  /** Append, write, push, count, push: the second extent begins behind the bytes that it is for,
      where nothing is written. */
  lemma TornPush(geo: Geometry, zones: nat, data: seq<byte>, more: seq<byte>) returns (actions: seq<Action>, s: State)
    requires Holds(geo, zones, data) && more != [] && Aligned(|more|, geo.bs) && |data| + |more| <= geo.capacity
    ensures Reaches(NewState(geo, zones), actions, s, data + more) && |s.files| == 1
    ensures var n, m := |data|, |more|;
      s.files[0].st.extents == [Ext(0, 0, n), Ext(0, n + m, m)] && !Inside(s.disk, Ext(0, n + m, m))
  {
    hide Reaches, Goes, One, DiskOf, Aligned;
    var s0, c, n, m := NewState(geo, zones), Full(geo, zones, data), |data|, |more|;
    actions := HasWritten(geo, zones, data);
    var f0 := WrittenFile(n);
    var f1 := f0.(st := f0.st.(size := n + m), uncounted := m);
    var c1 := c.(written := data + more);
    CanWriteHere(c, f0, more);
    Go(s0, actions, One(c, f0), data, Write(0, more), One(c1, f1));
    actions := actions + [Write(0, more)];
    FirstZone(c1);
    var f2 := TornFile(n, m);
    CanPushHere(c1, f1);
    TornIs(DiskOf(c1), n, m);
    var c2 := c1.(used := n);
    Step(s0, actions, One(c1, f1), data + more, Push(0), One(c2, f2));
    FirstZone(c2);
    CanAdvance(c2, f2);
    Step(s0, actions + [Push(0)], One(c2, f2), data + more, Advance(0), One(c2, f2.(window := Quiet)));
    var f3 := f2.(window := Quiet, uncounted := 0);
    CanCount(c2, f2.(window := Quiet));
    Step(s0, actions + [Push(0)] + [Advance(0)], One(c2, f2.(window := Quiet)), data + more, Count(0), One(c2, f3));
    actions := actions + [Push(0)] + [Advance(0)] + [Count(0)];
    FirstZone(c2);
    CanPushHere(c2, f3);
    var c3, f4 := c2.(used := n + m), WithExtents(f3, PushedState(DiskOf(c2), f3));
    Step(s0, actions, One(c2, f3), data + more, Push(0), One(c3, f4));
    actions := actions + [Push(0)];
    s := One(c3, f4);
    FirstZone(c3);
    assert s.files == [f4] && s.disk == DiskOf(c3) by { OneIs(c3, f4); }
    assert [Ext(0, 0, n)] + [Ext(0, n + m, m)] == [Ext(0, 0, n), Ext(0, n + m, m)];
  }

  lemma OneIs(c: Setup, f: File)
    ensures One(c, f).files == [f] && One(c, f).disk == DiskOf(c) && One(c, f).geo == c.geo
  {
  }

  /** The first extent has n bytes, and the active extent starts behind m more. */
  function TornFile(n: nat, m: nat): File {
    var f := WrittenFile(n).(st := WrittenFile(n).st.(size := n + m), uncounted := m);
    WithExtents(f, FileState([Ext(0, 0, n)], Some(0), Some(Pos(0, n + m)), n, n + m, 0, Some(Pos(0, 0))))
  }

  lemma TornIs(disk: Disk, n: nat, m: nat)
    requires |disk| > 0 && |disk[0]| == n + m
    ensures var f := WrittenFile(n).(st := WrittenFile(n).st.(size := n + m), uncounted := m);
      WithExtents(f, PushedState(disk, f)) == TornFile(n, m)
  {
    assert [] + [Ext(0, 0, n)] == [Ext(0, 0, n)];
  }

  // ---------- copies of long extents ----------

  /** The copy of an extent, padded to a block, reads like the extent, if and only if the length of
      the extent is a 32-bit integer. */
  lemma CopyReadsIff(s: State, i: nat, k: nat, z: nat, pad: seq<byte>)
    requires Inv(s) && Enabled(s, MoveCopy(i, k, z, pad)) && |pad| < s.geo.bs < 0x1_0000_0000
    ensures k < |s.files[i].st.extents| && z < |s.disk|
    ensures var source, s' := s.files[i].st.extents[k], Apply(s, MoveCopy(i, k, z, pad));
      var e := Ext(z, |s.disk[z]|, source.len);
      && i < |s'.files| && k < |s'.files[i].other| && s'.files[i].other[k] == e && Inside(s.disk, source)
      && (Inside(s'.disk, e) && Lookup(s'.disk, e) == Lookup(s.disk, source) <==> source.len < 0x1_0000_0000)
  {
    CopyFacts(s, i, k, z, pad);
    CopiedIs(s, i, k, z, pad);
    hide Inv, Good, Enabled, Apply, Copied, Lookup, Shortened, ListsOk, Owners, MayTake;
    GoodFile(s, i);
    GoodLists(s.geo, s.disk, s.owner, s.holder, i, s.files[i]);
    var source := s.files[i].st.extents[k];
    ShortExtent(s.disk, source);
    CopiedLength(s.disk, source);
    if source.len < 0x1_0000_0000 {
      NewExtent(s.disk, z, 0, Lookup(s.disk, source), Lookup(s.disk, source) + pad);
    }
  }

  lemma CopiedLength(disk: Disk, e: Ext)
    requires Inside(disk, e)
    ensures |Lookup(disk, e)| == e.len && |Shortened(Lookup(disk, e))| == Low32(e.len)
    ensures e.len >= 0x1_0000_0000 ==> Low32(e.len) + 0x1_0000_0000 <= e.len
    ensures (Lookup(disk, e) + [])[0..e.len] == Lookup(disk, e)
    ensures forall pad: seq<byte> :: (Lookup(disk, e) + pad)[0..e.len] == Lookup(disk, e)
  {
  }

  // ---------- a roll and a replacement ----------

  /** A roll that has logged a file, and marks it after the mover has set its synced counter to 0:
      the replace record has no extent. When the mover has given up the old extents, the file that
      is mounted after a crash has no bytes, whatever it had. */
  lemma EmptyReplacement(s: State, i: nat) returns (s': State, actions: seq<Action>)
    requires Inv(s) && Lives(s, i) && s.files[i].named && s.files[i].phase == Unsynced
    requires s.files[i].enc == Marking(Whole)
    ensures AllEnabled(s, actions) && Run(s, actions) == s'
    ensures actions == [] + [Mark(i)] + [Encode(i, Swap)] + [EncodeList(i)] + [EncodeStart(i)] + [Volume.Action.Log(i)]
      + [Mark(i)] + [Drop(i)]
    ensures i < |s'.files| && s'.disk == s.disk && s'.geo == s.geo && s'.geo.bs > 0
    ensures var f, f' := s'.files[i], CrashFile(s'.geo, s'.disk, s'.files[i]);
      && f.phase == Idle && f.st == s.files[i].st && f.other == f.st.extents && f.log.list == []
      && Bytes(s'.disk, f) == Bytes(s.disk, s.files[i])
      && f'.alive && Bytes(s'.disk, f') == []
  {
    hide Inv, Reaches, CrashFile, Bytes, Good, StateOk, AllEnabled, Run, FlagsOk;
    GoodFile(s, i);
    ClosedHasAll(s.geo, s.disk, s.owner, s.holder, i, s.files[i]);
    OwnersAll(s);
    Begin(s);
    actions, s' := Empties(s, [], s, [], i);
    ReachedRun(s, actions, s');
    EmptyMounted(s'.geo, s'.disk, s'.files[i]);
    SameBytesOf(s.disk, s.files[i], s'.files[i]);
  }

  /** A closed file, whose list was replaced, and a roll that has logged it. */
  predicate LoggedByRoll(f: File) {
    && f.alive && f.named && f.phase == Unsynced && f.enc == Marking(Whole) && f.window == Quiet
    && f.st.start.None? && f.st.logged.None? && f.st.synced == |f.st.extents| == |f.other|
  }

  /** The rest of the roll, and of the migration. */
  lemma Empties(s0: State, before: seq<Action>, s: State, data: seq<byte>, i: nat)
    returns (actions: seq<Action>, s': State)
    requires Reaches(s0, before, s, data) && i < |s.files| && LoggedByRoll(s.files[i])
    ensures actions ==
      before + [Mark(i)] + [Encode(i, Swap)] + [EncodeList(i)] + [EncodeStart(i)] + [Volume.Action.Log(i)] + [Mark(i)]
        + [Drop(i)]
    ensures Reaches(s0, actions, s', data) && |s'.files| == |s.files| && s'.disk == s.disk && s'.geo == s.geo
    ensures var f := s'.files[i];
      && f.alive && f.named && f.mode == s.files[i].mode && f.phase == Idle && f.st == s.files[i].st
      && f.other == f.st.extents
      && f.log.list == [] && f.log.start.None? && f.log.size == FileSize(s.files[i])
  {
    hide Reaches, Goes, LoggedFile, FileSize, Dropped, SetFile, MemoryStart, ListFor;
    var f := s.files[i];
    SetSame(s, i);
    var f1 := MarkedFile(f);
    MarkGoes(s, i, f);
    Step(s0, before, s, data, Mark(i), SetFile(s, i, f1));
    var size := FileSize(f1);
    MarkedSize(f);
    var f4 := f1.(enc := BothRead(Swap, size, [], |f.st.extents|, None, None, |f.st.extents|));
    actions := SwapReads(s0, before + [Mark(i)], s, data, i, f, f1);
    LogGoes(s, i, f4);
    var f5 := LoggedFile(s.disk, f4);
    Step(s0, actions, SetFile(s, i, f4), data, Volume.Action.Log(i), SetFile(s, i, f5));
    EmptyLogged(s.disk, f, f4);
    var f6 := MarkedFile(f5);
    MarkGoes(s, i, f5);
    actions := actions + [Volume.Action.Log(i)];
    Step(s0, actions, SetFile(s, i, f5), data, Mark(i), SetFile(s, i, f6));
    actions := actions + [Mark(i)];
    MarkedSwap(f5, f6);
    s' := DropGoes(s, i, f6);
    Step(s0, actions, SetFile(s, i, f6), data, Drop(i), s');
    actions := actions + [Drop(i)];
  }

  lemma MarkedSize(f: File)
    requires f.enc.Marking?
    ensures FileSize(MarkedFile(f)) == FileSize(f)
  {
  }

  lemma ReachedRun(s: State, actions: seq<Action>, t: State)
    requires Reaches(s, actions, t, [])
    ensures AllEnabled(s, actions) && Run(s, actions) == t
  {
  }

  lemma SetSame(s: State, i: nat)
    requires i < |s.files|
    ensures SetFile(s, i, s.files[i]) == s
  {
  }

  lemma MarkGoes(s: State, i: nat, f: File)
    requires i < |s.files| && f.alive && f.enc.Marking?
    ensures Goes(SetFile(s, i, f), Mark(i), SetFile(s, i, MarkedFile(f)))
  {
    hide MarkedFile;
  }

  lemma LogGoes(s: State, i: nat, f: File)
    requires i < |s.files| && f.alive && f.enc.BothRead? && f.window == Quiet
    ensures Goes(SetFile(s, i, f), Volume.Action.Log(i), SetFile(s, i, LoggedFile(s.disk, f)))
  {
    hide LoggedFile;
  }

  /** The three reads of a replace record, when all extents count as synced. */
  lemma SwapReads(s0: State, before: seq<Action>, s: State, data: seq<byte>, i: nat, f: File, f1: File)
    returns (actions: seq<Action>)
    requires i < |s.files| && f.enc.Marking? && f.enc.kind == Whole && f.alive && f.phase == Unsynced
    requires f1 == MarkedFile(f)
    requires f.st.start.None? && f.window == Quiet && Reaches(s0, before, SetFile(s, i, f1), data)
    ensures actions == before + [Encode(i, Swap)] + [EncodeList(i)] + [EncodeStart(i)]
    ensures Reaches(s0, actions, SetFile(s, i,
      f1.(enc := BothRead(Swap, FileSize(f1), [], |f.st.extents|, None, None, |f.st.extents|))), data)
  {
    hide Reaches, Goes, FileSize;
    var size, n := FileSize(f1), |f.st.extents|;
    var f2, f3 := f1.(enc := SizeRead(Swap, size)), f1.(enc := ListRead(Swap, size, [], n, None));
    var f4 := f1.(enc := BothRead(Swap, size, [], n, None, None, n));
    assert f1.st.extents[f1.counter..] == [];
    assert Goes(SetFile(s, i, f1), Encode(i, Swap), SetFile(s, i, f2)) by { SizeGoes(s, i, f1); }
    Step(s0, before, SetFile(s, i, f1), data, Encode(i, Swap), SetFile(s, i, f2));
    assert Goes(SetFile(s, i, f2), EncodeList(i), SetFile(s, i, f3)) by { ListGoes(s, i, f2, f3); }
    actions := before + [Encode(i, Swap)];
    Step(s0, actions, SetFile(s, i, f2), data, EncodeList(i), SetFile(s, i, f3));
    assert Goes(SetFile(s, i, f3), EncodeStart(i), SetFile(s, i, f4)) by { StartGoes(s, i, f3, f4); }
    actions := actions + [EncodeList(i)];
    Step(s0, actions, SetFile(s, i, f3), data, EncodeStart(i), SetFile(s, i, f4));
    actions := actions + [EncodeStart(i)];
  }

  lemma SizeGoes(s: State, i: nat, f: File)
    requires i < |s.files| && f.alive && f.enc == NoRecord && f.phase == Unsynced
    ensures Goes(SetFile(s, i, f), Encode(i, Swap), SetFile(s, i, f.(enc := SizeRead(Swap, FileSize(f)))))
  {
    hide FileSize;
  }

  lemma ListGoes(s: State, i: nat, f: File, f': File)
    requires i < |s.files| && f.alive && f.enc.SizeRead? && f.enc.kind == Swap && f.counter <= |f.st.extents|
    requires f' == f.(enc := ListRead(Swap, f.enc.size, f.st.extents[f.counter..], |f.st.extents|, f.st.start))
    ensures Goes(SetFile(s, i, f), EncodeList(i), SetFile(s, i, f'))
  {
  }

  lemma StartGoes(s: State, i: nat, f: File, f': File)
    requires i < |s.files| && f.alive && f.enc.ListRead? && f.window == Quiet
    requires f' == f.(enc := BothRead(f.enc.kind, f.enc.size, f.enc.list, f.enc.n, f.enc.due, f.st.start,
      |f.st.extents|))
    ensures Goes(SetFile(s, i, f), EncodeStart(i), SetFile(s, i, f'))
  {
  }

  lemma EmptyLogged(disk: Disk, f: File, f4: File)
    requires f.enc.Marking? && f4 == MarkedFile(f).(enc := f4.enc) && f4.window == Quiet
    requires f4.enc.BothRead? && f4.enc == BothRead(Swap, f4.enc.size, [], |f.st.extents|, None, None, |f.st.extents|)
    requires f.st.synced == |f.st.extents| && f.st.logged.None?
    ensures var f5 := LoggedFile(disk, f4);
      && f5.enc == Marking(Swap) && f5.st == f.st && f5.other == f.other && f5.log.list == [] && f5.log.start.None?
      && f5.named == f.named && f5.alive == f.alive && f5.mode == f.mode && f5.log.size == f4.enc.size
  {
    hide ListFits;
  }

  lemma MarkedSwap(f5: File, f6: File)
    requires f5.enc == Marking(Swap) && f6 == MarkedFile(f5)
    ensures f6 == f5.(enc := NoRecord, counter := |f5.st.extents|, phase := Persisted)
  {
  }

  lemma DropGoes(s: State, i: nat, f: File) returns (s': State)
    requires i < |s.files| && f.alive && f.phase == Persisted && |f.other| == |f.st.extents|
    ensures Goes(SetFile(s, i, f), Drop(i), s') && |s'.files| == |s.files| && s'.disk == s.disk && s'.geo == s.geo
    ensures s'.files[i] == f.(phase := Idle, other := f.st.extents)
  {
    s' := Dropped(SetFile(s, i, f), i);
    hide Uncharge, Moved;
  }

  lemma EmptyMounted(geo: Geometry, disk: Disk, f: File)
    requires geo.bs > 0 && f.named && f.log.list == [] && f.log.start.None?
    ensures CrashFile(geo, disk, f).alive && Bytes(disk, CrashFile(geo, disk, f)) == []
  {
    NoExtents(disk);
    NoActiveExtent(geo, disk, f);
    hide WalkSegments, Total, Content;
  }

  lemma SameBytesOf(disk: Disk, f: File, f': File)
    requires f'.st == f.st && f'.mode == f.mode
    ensures Bytes(disk, f') == Bytes(disk, f)
  {
  }

  // ---------- a run to such a replacement ----------

  /** The first file, closed, with one extent of n bytes. */
  function ClosedFile(n: nat): File {
    File(Direct, FileState([Ext(0, 0, n)], None, None, n, n, 1, None), true, true, false, Quiet, 1, 0, 0,
         Logged(n, [Ext(0, 0, n)], None, 1, true), NoRecord, Idle, [Ext(0, 0, n)], Lock(Unlocked, 0, 0), [])
  }

  /** A step of the first file in memory. */
  lemma Local(s: State, before: seq<Action>, c: Setup, f: File, data: seq<byte>, a: Action, f': File)
    requires Reaches(s, before, One(c, f), data) && !a.Write? && !a.Grow?
    requires Enabled(One(c, f), a) && Apply(One(c, f), a) == SetFile(One(c, f), 0, f')
    ensures Reaches(s, before + [a], One(c, f'), data)
  {
    hide Reaches, Enabled, Apply, One;
    OneFile(c, f, f');
    Step(s, before, One(c, f), data, a, One(c, f'));
  }

  /** The close of the first file: its last extent is pushed, and the log learns of the close. */
  lemma Closes(geo: Geometry, zones: nat, data: seq<byte>) returns (actions: seq<Action>)
    requires Holds(geo, zones, data)
    ensures Reaches(NewState(geo, zones), actions, One(Full(geo, zones, data).(used := |data|), ClosedFile(|data|)),
      data)
  {
    hide Reaches, Goes, One, DiskOf, Recorded, Aligned;
    var s, c, n := NewState(geo, zones), Full(geo, zones, data), |data|;
    var c1 := c.(used := n);
    actions := HasWritten(geo, zones, data);
    var f1, f3;
    actions, f1 := PushesWith(s, actions, c, WrittenFile(n), n, data);
    var f2 := f1.(window := Closing);
    BeginsClose(c1, f1, n);
    Step(s, actions, One(c1, f1), data, CloseBegin(0), One(c1, f2));
    actions, f3 := RecordOf(s, actions + [CloseBegin(0)], c1, f2, data, Tail);
    FirstZone(c1);
    CloseLogged(DiskOf(c1), n, f2);
    var f4 := f3.(window := Quiet, writing := false);
    EndsClose(c1, f3);
    Step(s, actions, One(c1, f3), data, CloseEnd(0), One(c1, f4));
    actions := actions + [CloseEnd(0)];
  }

  lemma BeginsClose(c: Setup, f: File, n: nat)
    requires c.zones > 0 && |c.written| == n && f == PushedFile(n).(window := Quiet)
    ensures Goes(One(c, f), CloseBegin(0), One(c, f.(window := Closing)))
  {
    FirstZone(c);
    OneIs(c, f);
    hide DiskOf;
    assert DiskOf(c)[0][n..] == [];
    OneFile(c, f, f.(window := Closing));
  }

  lemma EndsClose(c: Setup, f: File)
    requires f.alive && f.writing && f.window == Shut
    ensures Goes(One(c, f), CloseEnd(0), One(c, f.(window := Quiet, writing := false)))
  {
    OneFile(c, f, f.(window := Quiet, writing := false));
  }

  lemma CloseLogged(disk: Disk, n: nat, f: File)
    requires f == PushedFile(n).(window := Closing)
    ensures Recorded(disk, f, Tail) == ClosedFile(n).(window := Shut, writing := true)
  {
    CloseReads(n, f);
    hide ListFor, FileSize, MemoryStart, MemoryCount;
    CloseLogs(disk, n, f, f.(enc := BothRead(Tail, n, [Ext(0, 0, n)], 1, Some(Pos(0, n)), None, 1)));
  }

  lemma CloseReads(n: nat, f: File)
    requires f == PushedFile(n).(window := Closing)
    ensures f.counter == 0 && ListFor(f, Tail) == [Ext(0, 0, n)] == f.st.extents && FileSize(f) == n
    ensures f.st.start == Some(Pos(0, n))
    ensures MemoryStart(f) == None && MemoryCount(f) == 1
  {
    assert [] + f.st.extents[0..] == f.st.extents;
  }

  lemma CloseLogs(disk: Disk, n: nat, f: File, g: File)
    requires f == PushedFile(n).(window := Closing)
    requires g == f.(enc := BothRead(Tail, n, [Ext(0, 0, n)], 1, Some(Pos(0, n)), None, 1))
    ensures MarkedFile(LoggedFile(disk, g)) == ClosedFile(n).(window := Shut, writing := true)
  {
    hide ListFits, PairSt;
    assert LoggedFile(disk, g) == g.(enc := Marking(Tail), st := Closed(g.st), window := Shut,
      log := Logged(n, [Ext(0, 0, n)], None, 1, true));
  }

  /** A file is written and closed; its migration replaces the list while a roll has logged it and
      not yet marked it; both go on, and the machine crashes. The file that is mounted has its size
      and none of its bytes. */
  lemma ReplacementInsideRoll(geo: Geometry, zones: nat, data: seq<byte>) returns (actions: seq<Action>, s: State)
    requires Holds(geo, zones, data)
    ensures Reaches(NewState(geo, zones), actions, s, data) && |s.files| == 1 && s.geo == geo && s.geo.bs > 0
    ensures s.files[0].phase == Idle && Bytes(s.disk, s.files[0]) == data
    ensures var f' := CrashFile(s.geo, s.disk, s.files[0]);
      f'.alive && Bytes(s.disk, f') == [] && FileSize(f') == |data|
  {
    hide Reaches, Goes, One, DiskOf, CrashFile, Bytes, LoggedFile, Aligned;
    var s0, c, n := NewState(geo, zones), Full(geo, zones, data).(used := |data|), |data|;
    actions := Closes(geo, zones, data);
    var f, f2 := ClosedFile(n), ClosedFile(n);
    actions, f := Replaces(s0, actions, c, n, data);
    actions, f2 := ReadsSizeAndList(s0, actions, c, f, data);
    var f3 := f.(enc := BothRead(Whole, n, [Ext(0, 0, n)], 1, None, None, 1));
    ReplacedReads(n, f, f2);
    CanReadStart(c, f2);
    Step(s0, actions, One(c, f2), data, EncodeStart(0), One(c, f3));
    actions := actions + [EncodeStart(0)];
    CanLog(c, f3);
    ExactLogged(DiskOf(c), f3);
    var f4 := LoggedFile(DiskOf(c), f3);
    Step(s0, actions, One(c, f3), data, Volume.Action.Log(0), One(c, f4));
    actions := actions + [Volume.Action.Log(0)];
    var f5 := f4.(phase := Unsynced, counter := 0);
    Unsyncs(c, f4);
    Step(s0, actions, One(c, f4), data, Unsync(0), One(c, f5));
    OneIs(c, f5);
    actions, s := Empties(s0, actions + [Unsync(0)], One(c, f5), data, 0);
    EmptyMounted(geo, s.disk, s.files[0]);
    EmptySize(geo, s.disk, s.files[0]);
    OneExtent(c, n);
    assert data[..n] == data;
    ClosedBytes(c, s.files[0], n);
    SameSize(f5, n);
  }

  /** ReplaceExtentList of the closed file, with the same extents. */
  lemma Replaces(s: State, before: seq<Action>, c: Setup, n: nat, data: seq<byte>)
    returns (actions: seq<Action>, f: File)
    requires Reaches(s, before, One(c, ClosedFile(n)), data)
    ensures actions == before + [MoveBegin(0)] + [LockWrite(0)] + [SeeNoReaders(0)] + [Replace(0)] + [UnlockWrite(0)]
    ensures f == ClosedFile(n).(phase := Replaced) && Reaches(s, actions, One(c, f), data)
  {
    hide Reaches;
    var f0 := ClosedFile(n);
    var f1 := f0.(phase := Copying);
    Local(s, before, c, f0, data, MoveBegin(0), f1);
    var f2 := f1.(lock := Lock(MoverWaiting, 0, 0));
    actions := before + [MoveBegin(0)];
    Local(s, actions, c, f1, data, LockWrite(0), f2);
    var f3 := f1.(lock := Lock(MoverIn, 0, 0));
    actions := actions + [LockWrite(0)];
    Local(s, actions, c, f2, data, SeeNoReaders(0), f3);
    var f4 := f3.(phase := Replaced);
    actions := actions + [SeeNoReaders(0)];
    Local(s, actions, c, f3, data, Replace(0), f4);
    f := f4.(lock := Lock(Unlocked, 0, 0));
    actions := actions + [Replace(0)];
    Local(s, actions, c, f4, data, UnlockWrite(0), f);
    actions := actions + [UnlockWrite(0)];
  }

  lemma ReplacedReads(n: nat, f: File, f2: File)
    requires f == ClosedFile(n).(phase := Replaced)
    requires f2 == f.(enc := ListRead(Whole, FileSize(f), f.st.extents, |f.st.extents|, f.st.start))
    ensures FileSize(f) == n && f2.enc == ListRead(Whole, n, [Ext(0, 0, n)], 1, None) && MemoryStart(f2) == None
    ensures MemoryCount(f2) == 1
  {
  }

  lemma Unsyncs(c: Setup, f: File)
    requires f.alive && f.phase == Replaced && f.lock.mtx == Unlocked
    ensures Goes(One(c, f), Unsync(0), One(c, f.(phase := Unsynced, counter := 0)))
  {
    OneFile(c, f, f.(phase := Unsynced, counter := 0));
  }

  lemma EmptySize(geo: Geometry, disk: Disk, f: File)
    requires geo.bs > 0 && f.named && f.log.list == [] && f.log.start.None?
    ensures FileSize(CrashFile(geo, disk, f)) == f.log.size
  {
    NoActiveExtent(geo, disk, f);
    hide WalkSegments, Total;
  }

  lemma ClosedBytes(c: Setup, f: File, n: nat)
    requires c.zones > 0 && n <= |c.written| && f.mode == Direct && f.st == ClosedFile(n).st
    ensures Bytes(DiskOf(c), f) == c.written[..n]
  {
    OneExtent(c, n);
    hide DiskOf, Content, Inside, Total;
    assert Content(DiskOf(c), f.st.extents) + [] == Content(DiskOf(c), f.st.extents);
  }

  lemma SameSize(f: File, n: nat)
    requires f.st == ClosedFile(n).st && f.missed == 0 && f.uncounted == 0
    ensures FileSize(f) == n
  {
  }
}
