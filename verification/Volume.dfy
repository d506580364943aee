/** All files of a volume on its IO zones: writers, readers, migration, finishing and
    resetting of zones, metadata that is persisted, and crashes, as one state machine. */
module Volume {
  import opened Common
  import opened Coding
  import opened Blocks
  import opened ZoneData
  import opened ZoneFiles
  import opened Accounting

  /** The busy flag of a zone, with who set it. */
  datatype Holder = Free | ByFile(file: nat) | ByMover(file: nat)

  /** A PositionedRead under way: it holds a read lock, and a pointer to extent `k`. */
  datatype Reader = Reader(offset: nat, wanted: nat, got: seq<byte>, k: nat, ext: Ext, pos: nat)

  /** How far a migration of a file is: extents are being copied; the list is replaced in
      memory; none of it counts as synced; the replacement is in the log. */
  datatype Phase = Idle | Copying | Replaced | Unsynced | Persisted

  /** What a writer has begun and not finished: an extent was pushed and `extent_start_` is
      still the old one; a new zone has become active and the log does not know it; the file is
      being closed, or closed in the log. */
  datatype Window = Quiet | Lagging(old_start: Option<Pos>) | Fresh(at: Pos) | Closing | Shut

  /** A record of a file: its part of a snapshot, an update with the extents that do not count
      as synced, or a replacement. */
  datatype Kind = Whole | Tail | Swap

  /** The encoding of a record of a file, which reads first the file size, then the list of
      extents, and then the active extent start, is written to the log, and last makes all extents
      count as synced. `list` is what the log will have. `n`, `due` and `m` are not in
      the implementation: how many extents there were when the list was read, which start belongs to
      them, and behind how many extents is the start that was read. */
  datatype Encoding =
    | NoRecord
    | SizeRead(kind: Kind, size: int)
    | ListRead(kind: Kind, size: int, list: seq<Ext>, n: nat, due: Option<Pos>)
    | BothRead(kind: Kind, size: int, list: seq<Ext>, n: nat, due: Option<Pos>, start: Option<Pos>, m: nat)
    | Marking(kind: Kind)

  /** What the log has of a file. `m` and `exact` are not in the implementation: behind how many
      extents the start is, and that it belongs to the list and the two miss nothing that counts as
      synced. */
  datatype Logged = Logged(size: int, list: seq<Ext>, start: Option<Pos>, m: nat, exact: bool)

  /** `writer_mtx_`, with who holds it, and the counter `readers_`; `inside` is the number of
      readers that are past the lock and have not begun to read. */
  datatype Mutex = Unlocked | ReaderEntering | ReaderCounted | MoverWaiting | MoverIn

  datatype Lock = Lock(mtx: Mutex, count: nat, inside: nat)

  /** A ZoneFile object. In `st`, `synced` and `logged` are the last pair of a number of extents
      and an active extent start that belong together; `counter` is `nr_synced_extents_`. `st.size`
      is the length of what was appended, and `file_size_` is less by two amounts (see FileSize):
      what a mount did not count, because the logged size was older than the list, and what an
      append has written and not yet counted.
      `other` is the new list while extents are copied, the old list after they are replaced, and
      the list itself otherwise. */
  datatype File = File(
    mode: Mode, st: FileState, alive: bool, named: bool, writing: bool,
    window: Window, counter: nat, missed: int, uncounted: nat, log: Logged, enc: Encoding,
    phase: Phase, other: seq<Ext>, lock: Lock, readers: seq<Reader>)

  /** `owner` is the file for which every written byte of every zone was written. */
  datatype State = State(
    geo: Geometry, disk: Disk, owner: seq<seq<nat>>, used: seq<int>, holder: seq<Holder>,
    finished: seq<bool>, files: seq<File>)

  function NewState(geo: Geometry, zones: nat): State {
    State(geo, seq(zones, _ => []), seq(zones, _ => []), seq(zones, _ => 0),
          seq(zones, _ => Free), seq(zones, _ => false), [])
  }

  /** `file_size_`. */
  function FileSize(f: File): int { f.st.size - f.missed - f.uncounted }

  function NoState(): FileState { FileState([], None, None, 0, 0, 0, None) }

  // ---------- what holds of every file ----------

  predicate OwnedRange(owner: seq<seq<nat>>, i: nat, z: nat, lo: nat, hi: nat) {
    z < |owner| && hi <= |owner[z]| && forall c :: lo <= c < hi ==> owner[z][c] == i
  }

  predicate Owned(owner: seq<seq<nat>>, i: nat, es: seq<Ext>) {
    forall k :: 0 <= k < |es| ==> OwnedRange(owner, i, es[k].zone, es[k].off, es[k].off + es[k].len)
  }

  predicate SameBytes(disk: Disk, a: seq<Ext>, b: seq<Ext>) {
    && SameLengths(a, b) && AllInside(disk, a) && AllInside(disk, b)
    && forall k :: 0 <= k < |a| ==> Lookup(disk, a[k]) == Lookup(disk, b[k])
  }

  predicate Positive(es: seq<Ext>) {
    forall k :: 0 <= k < |es| ==> es[k].len > 0
  }

  /** Both lists of a file are its own, disjoint, and read the same. */
  predicate ListsOk(disk: Disk, owner: seq<seq<nat>>, i: nat, f: File) {
    && SameBytes(disk, f.st.extents, f.other) && Positive(f.st.extents)
    && Apart(f.st.extents, f.st.extents) && Apart(f.other, f.other) && Apart(f.st.extents, f.other)
    && Owned(owner, i, f.st.extents) && Owned(owner, i, f.other)
    && (f.phase == Idle ==> f.other == f.st.extents)
  }

  /** Extents in the zone of a position end before it. */
  predicate EndBefore(es: seq<Ext>, p: Pos) {
    forall k :: 0 <= k < |es| && es[k].zone == p.zone ==> es[k].off + es[k].len <= p.off
  }

  /** From a position to the write pointer there is nothing but what the file wrote. */
  predicate Region(disk: Disk, owner: seq<seq<nat>>, i: nat, es: seq<Ext>, p: Pos) {
    && p.zone < |disk| && p.zone < |owner| && p.off <= |disk[p.zone]| && EndBefore(es, p)
    && OwnedRange(owner, i, p.zone, p.off, |owner[p.zone]|)
  }

  /** The active extent start of a file and the logged one of a pair. A zone to which one of
      them points is held by the file, or full and used by it. */
  predicate StateOk(geo: Geometry, disk: Disk, owner: seq<seq<nat>>, holder: seq<Holder>, i: nat, mode: Mode,
          st: FileState)
  {
    && FileOk(geo, disk, mode, st)
    && (st.active.Some? ==> st.active.value < |holder| && holder[st.active.value] == ByFile(i))
    && (st.start.Some? ==>
        var p := st.start.value;
        && Region(disk, owner, i, st.extents, p)
        && (p.off == geo.capacity ==> InZone(st.extents, p.zone))
        && (st.active.None? ==> p.off == |disk[p.zone]| == geo.capacity))
    && (st.logged.Some? ==>
        var p := st.logged.value;
        && Region(disk, owner, i, st.extents[..st.synced], p)
        && (st.active.None? ==> |disk[p.zone]| == geo.capacity && InZone(st.extents, p.zone)))
  }

  /** A pair of a number of extents and a start that belong together. */
  function WithPair(st: FileState, n: nat, start: Option<Pos>): FileState { st.(synced := n, logged := start) }

  /** A record whose list was read. */
  predicate Encodes(f: File) { f.enc.ListRead? || f.enc.BothRead? }

  /** The file, as if the record that is being encoded were in the log, with the start that
      belongs to its list. */
  function PairSt(f: File): FileState {
    if Encodes(f) then WithPair(f.st, f.enc.n, f.enc.due) else f.st
  }

  predicate FlagsOk(f: File) {
    && (!f.writing ==> f.st.active.None? && f.st.start.None? && f.st.logged.None? && f.window == Quiet)
    && (f.phase != Idle ==> !f.writing)
    && ((!f.writing || f.window == Shut) && Encodes(f) ==> f.enc.due.None?)
    && (f.uncounted > 0 ==>
        && f.writing && f.st.active.Some?
        && (if f.mode == Direct then f.window == Quiet && f.st.filepos + f.uncounted <= f.st.size
            else f.window == Quiet || f.window.Lagging?))
  }

  /** What the log will know when the writer has finished what it has begun. */
  predicate WindowOk(geo: Geometry, disk: Disk, holder: seq<Holder>, i: nat, f: File) {
    match f.window
    case Fresh(p) =>
      && f.st.active.None? && p.zone < |disk| && p.zone < |holder| && holder[p.zone] == ByFile(i)
      && p.off == |disk[p.zone]| < geo.capacity
    case Lagging(_) => ActiveOk(disk, f.mode, f.st) && Pending(disk, f.mode, f.st) == []
    case Closing => ActiveOk(disk, f.mode, f.st) && Pending(disk, f.mode, f.st) == []
    case Shut => f.st.active.None? && f.st.start.None? && f.st.logged.None?
    case _ => true
  }

  predicate Part(list: seq<Ext>, es: seq<Ext>) { forall k :: 0 <= k < |list| ==> list[k] in es }

  predicate IsSuffix(list: seq<Ext>, es: seq<Ext>) { |list| <= |es| && list == es[|es| - |list|..] }

  predicate Old(f: File) { f.phase == Replaced || f.phase == Unsynced }

  /** All that the log has, and will have, are extents of the file, or of the list that is being
      replaced. */
  predicate LogOk(f: File) {
    && f.counter <= |f.st.extents| && f.st.synced <= |f.st.extents|
    && Part(f.log.list, f.st.extents + if Old(f) then f.other else [])
    && (Encodes(f) ==> Part(f.enc.list, f.st.extents + if Old(f) then f.other else []))
    && (f.enc.SizeRead? && f.enc.kind == Swap ==> f.phase == Unsynced)
    && (Encodes(f) && f.enc.kind == Swap ==> f.phase == Unsynced && IsSuffix(f.enc.list, f.st.extents))
    && (f.enc == Marking(Swap) ==> f.phase == Unsynced && IsSuffix(f.log.list, f.st.extents))
    && (f.log.exact ==> f.log.start == f.st.logged && ListFits(f, f.log.list, f.st.synced))
  }

  /** The list has the first n extents, or all of those that are being replaced. */
  predicate ListFits(f: File, list: seq<Ext>, n: nat) {
    n <= |f.st.extents| && (list == f.st.extents[..n] || (Old(f) && list == f.other))
  }

  /** The counter of readers is exact, and there is none while the list may be replaced. */
  predicate LockOk(f: File) {
    && f.lock.count == |f.readers| + f.lock.inside + (if f.lock.mtx == ReaderCounted then 1 else 0)
    && (f.lock.mtx == MoverIn ==> f.lock.count == 0)
    && (f.lock.mtx == MoverWaiting ==> f.phase == Copying)
  }

  /** What a reader has is the part of the content that it asked for, and the extent that it
      reads next is that of the list. */
  predicate ReaderOk(disk: Disk, es: seq<Ext>, r: Reader)
    requires AllInside(disk, es)
  {
    && |r.got| <= r.wanted && r.offset + |r.got| <= Total(es)
    && r.got == Content(disk, es)[r.offset..r.offset + |r.got|]
    && r.k < |es| && r.ext == es[r.k] && r.ext.off <= r.pos <= r.ext.off + r.ext.len
    && Total(es[..r.k]) + (r.pos - r.ext.off) == r.offset + |r.got|
  }

  predicate ReadersOk(disk: Disk, f: File)
    requires AllInside(disk, f.st.extents)
  {
    forall n :: 0 <= n < |f.readers| ==> ReaderOk(disk, f.st.extents, f.readers[n])
  }

  predicate Good(geo: Geometry, disk: Disk, owner: seq<seq<nat>>, holder: seq<Holder>, i: nat, f: File) {
    if f.alive then
      && ListsOk(disk, owner, i, f)
      && StateOk(geo, disk, owner, holder, i, f.mode, f.st)
      && StateOk(geo, disk, owner, holder, i, f.mode, PairSt(f))
      && FlagsOk(f) && WindowOk(geo, disk, holder, i, f) && LogOk(f) && LockOk(f)
      && ReadersOk(disk, f)
    else !f.named && f.readers == []
  }

  // ---------- the invariant ----------

  /** What a file charges to a zone. */
  function Charge(f: File, z: nat): nat {
    if f.alive && |f.other| == |f.st.extents| then ZoneSum(f.st.extents, z) + ZoneSum(Moved(f.other, f.st.extents), z)
    else 0
  }

  function Charges(files: seq<File>, z: nat): nat {
    if files == [] then 0 else Charges(files[..|files| - 1], z) + Charge(files[|files| - 1], z)
  }

  predicate Shape(s: State) {
    && DiskOk(s.geo, s.disk)
    && |s.owner| == |s.used| == |s.holder| == |s.finished| == |s.disk|
    && forall z :: 0 <= z < |s.disk| ==> |s.owner[z]| == |s.disk[z]|
  }

  predicate AllGood(s: State) {
    forall i :: 0 <= i < |s.files| ==> Good(s.geo, s.disk, s.owner, s.holder, i, s.files[i])
  }

  predicate Accounted(s: State) {
    forall z :: 0 <= z < |s.used| ==> s.used[z] == Charges(s.files, z)
  }

  predicate Inv(s: State) { Shape(s) && AllGood(s) && Accounted(s) }

  // ---------- the steps ----------

  datatype Action =
    | Create(mode: Mode)
    | Open(i: nat)
    | Acquire(i: nat, z: nat)
    | SetStart(i: nat, z: nat)
    | Write(i: nat, data: seq<byte>)
    | Count(i: nat)
    | Grow(i: nat, payload: seq<byte>, bytes: seq<byte>)
    | Push(i: nat)
    | Advance(i: nat)
    | Full(i: nat)
    | CloseBegin(i: nat)
    | CloseEnd(i: nat)
    | Release(z: nat)
    | Encode(i: nat, kind: Kind)
    | EncodeList(i: nat)
    | EncodeStart(i: nat)
    | Log(i: nat)
    | LoseRecord(i: nat)
    | Mark(i: nat)
    | Delete(i: nat)
    | Destroy(i: nat)
    | LockRead(i: nat)
    | CountRead(i: nat)
    | UnlockRead(i: nat)
    | ReadNothing(i: nat)
    | ReadBegin(i: nat, offset: nat, wanted: nat, k: nat)
    | ReadChunk(i: nat, n: nat, len: nat)
    | ReadNext(i: nat, n: nat)
    | ReadEnd(i: nat, n: nat)
    | MoveBegin(i: nat)
    | MoveTake(i: nat, z: nat)
    | MoveCopy(i: nat, k: nat, z: nat, pad: seq<byte>)
    | MoveWaste(i: nat, z: nat, bytes: seq<byte>)
    | LockWrite(i: nat)
    | SeeNoReaders(i: nat)
    | Replace(i: nat)
    | UnlockWrite(i: nat)
    | Unsync(i: nat)
    | Drop(i: nat)
    | Finish(z: nat)
    | Reset(z: nat)
    | Crash

  predicate HasRoom(s: State, z: nat) {
    z < |s.disk| && z < |s.holder| && z < |s.finished| && !s.finished[z] && |s.disk[z]| < s.geo.capacity
  }

  /** Whole blocks that fit in the zone. */
  predicate Fits(s: State, z: nat, bytes: seq<byte>) {
    && z < |s.disk| && z < |s.owner| && z < |s.used| && z < |s.holder| && s.geo.bs > 0
    && bytes != [] && Aligned(|bytes|, s.geo.bs) && |s.disk[z]| + |bytes| <= s.geo.capacity
  }

  /** An append of nothing does nothing. */
  predicate MayTake(s: State, z: nat, bytes: seq<byte>) {
    z < |s.disk| && z < |s.owner| && z < |s.used| && z < |s.holder| && (bytes == [] || Fits(s, z, bytes))
  }

  /** What is copied of an extent: its length is passed as a 32-bit integer. */
  function Shortened(data: seq<byte>): seq<byte> { data[..Low32(|data|)] }

  predicate Lives(s: State, i: nat) { i < |s.files| && s.files[i].alive }

  predicate Writes(s: State, i: nat) {
    Lives(s, i) && s.files[i].writing && s.files[i].window == Quiet && s.files[i].uncounted == 0
  }

  predicate WritesTo(s: State, i: nat) {
    Writes(s, i) && s.files[i].st.active.Some? && s.files[i].st.active.value < |s.disk|
    && ActiveOk(s.disk, s.files[i].mode, s.files[i].st)
  }

  /** A direct append, also in the middle of a push by a sync of another thread. */
  predicate WritesBlocks(s: State, i: nat) {
    && Lives(s, i) && s.files[i].writing && (s.files[i].window == Quiet || s.files[i].window.Lagging?)
    && s.files[i].uncounted == 0 && s.files[i].mode == Direct
    && s.files[i].st.active.Some? && s.files[i].st.active.value < |s.disk| && ActiveOk(s.disk, Direct, s.files[i].st)
  }

  predicate MayAdvance(disk: Disk, f: File) {
    f.mode == Direct ==> f.st.active.Some? && f.st.active.value < |disk| && f.uncounted <= f.st.size
  }

  /** PushExtent, which a sync by another thread may call in the middle of an append. */
  predicate Pushes(s: State, i: nat) {
    && Lives(s, i) && s.files[i].writing && s.files[i].window == Quiet && s.files[i].mode == Direct
    && s.files[i].st.active.Some? && s.files[i].st.active.value < |s.disk| && s.files[i].st.active.value < |s.used|
    && ActiveOk(s.disk, Direct, s.files[i].st)
    && s.files[i].st.filepos < s.files[i].st.size - s.files[i].uncounted
  }

  predicate Reads(s: State, i: nat, n: nat) { Lives(s, i) && n < |s.files[i].readers| }

  predicate Moves(s: State, i: nat) { Lives(s, i) && s.files[i].phase == Copying }

  predicate Enabled(s: State, a: Action) {
    match a
    case Create(_) => true
    case Open(i) => Lives(s, i) && s.files[i].named && !s.files[i].writing && s.files[i].phase == Idle
    case Acquire(i, z) => Writes(s, i) && s.files[i].st.active.None? && HasRoom(s, z) && s.holder[z] == Free
    case SetStart(i, z) => Writes(s, i) && s.files[i].st.active.None? && HasRoom(s, z) && s.holder[z] == ByFile(i)
    case Write(i, data) => WritesBlocks(s, i) && Fits(s, s.files[i].st.active.value, data)
    case Grow(i, payload, bytes) =>
      && WritesTo(s, i) && s.files[i].mode != Direct && Fits(s, s.files[i].st.active.value, bytes)
      && payload != [] && HeadOf(s.files[i].mode) + |payload| <= |bytes|
      && bytes[HeadOf(s.files[i].mode)..HeadOf(s.files[i].mode) + |payload|] == payload
      && (s.files[i].mode == Sparse ==> bytes == Segment(payload, s.geo.bs))
    case Count(i) => Lives(s, i) && s.files[i].uncounted > 0
    case Push(i) => Pushes(s, i)
    case Advance(i) => Lives(s, i) && s.files[i].window.Lagging? && MayAdvance(s.disk, s.files[i])
    case Full(i) =>
      WritesTo(s, i) && Pending(s.disk, s.files[i].mode, s.files[i].st) == [] &&
        |s.disk[s.files[i].st.active.value]| == s.geo.capacity
    case CloseBegin(i) =>
      Writes(s, i) && ActiveOk(s.disk, s.files[i].mode, s.files[i].st) &&
      Pending(s.disk, s.files[i].mode, s.files[i].st) == []
    case CloseEnd(i) => Lives(s, i) && s.files[i].writing && s.files[i].window == Shut
    case Release(z) =>
      && z < |s.holder|
      && (s.holder[z].ByFile? ==> s.holder[z].file < |s.files| && !UsesZone(s.files[s.holder[z].file], z))
    case Encode(i, kind) =>
      Lives(s, i) && s.files[i].enc == NoRecord && (kind == Swap ==> s.files[i].phase == Unsynced)
    case EncodeList(i) => Lives(s, i) && s.files[i].enc.SizeRead? && s.files[i].counter <= |s.files[i].st.extents|
    case EncodeStart(i) => Lives(s, i) && s.files[i].enc.ListRead?
    case Log(i) =>
      Lives(s, i) && s.files[i].enc.BothRead? && (s.files[i].window.Fresh? ==> s.files[i].window.at.zone < |s.disk|)
    case LoseRecord(i) => Lives(s, i) && s.files[i].enc.BothRead?
    case Mark(i) => Lives(s, i) && s.files[i].enc.Marking?
    case Delete(i) => i < |s.files| && s.files[i].named
    case Destroy(i) =>
      Lives(s, i) && !s.files[i].named && !s.files[i].writing && s.files[i].phase == Idle &&
        s.files[i].lock == Lock(Unlocked, 0, 0)
    case LockRead(i) => Lives(s, i) && s.files[i].lock.mtx == Unlocked
    case CountRead(i) => Lives(s, i) && s.files[i].lock.mtx == ReaderEntering
    case UnlockRead(i) => Lives(s, i) && s.files[i].lock.mtx == ReaderCounted
    case ReadNothing(i) => Lives(s, i) && s.files[i].lock.inside > 0 && s.files[i].lock.count > 0
    case ReadBegin(i, offset, wanted, k) =>
      Lives(s, i) && s.files[i].lock.inside > 0 && k < |s.files[i].st.extents| &&
      Total(s.files[i].st.extents[..k]) <= offset < Total(s.files[i].st.extents[..k]) + s.files[i].st.extents[k].len
    case ReadChunk(i, n, len) =>
      Reads(s, i, n) && 0 < len && Inside(s.disk, s.files[i].readers[n].ext) &&
      (var r := s.files[i].readers[n]; |r.got| + len <= r.wanted && r.pos + len <= r.ext.off + r.ext.len)
    case ReadNext(i, n) =>
      Reads(s, i, n) &&
      (var r := s.files[i].readers[n];
       |r.got| < r.wanted && r.pos == r.ext.off + r.ext.len && r.k + 1 < |s.files[i].st.extents|)
    case ReadEnd(i, n) => Reads(s, i, n) && s.files[i].lock.count > 0
    case MoveBegin(i) => Lives(s, i) && s.files[i].named && !s.files[i].writing && s.files[i].phase == Idle
    case MoveTake(i, z) => Moves(s, i) && HasRoom(s, z) && s.holder[z] == Free
    case MoveCopy(i, k, z, pad) =>
      && Moves(s, i) && k < |s.files[i].st.extents| && |s.files[i].other| == |s.files[i].st.extents|
      && s.files[i].other[k] == s.files[i].st.extents[k] && Inside(s.disk, s.files[i].st.extents[k])
      && MayTake(s, z, Shortened(Lookup(s.disk, s.files[i].st.extents[k])) + pad) && s.holder[z] == ByMover(i)
    case MoveWaste(i, z, bytes) => Moves(s, i) && Fits(s, z, bytes) && s.holder[z] == ByMover(i)
    case LockWrite(i) => Moves(s, i) && s.files[i].lock.mtx == Unlocked
    case SeeNoReaders(i) => Lives(s, i) && s.files[i].lock.mtx == MoverWaiting && s.files[i].lock.count == 0
    case Replace(i) => Moves(s, i) && s.files[i].lock.mtx == MoverIn
    case UnlockWrite(i) => Lives(s, i) && s.files[i].lock.mtx == MoverIn && s.files[i].phase == Replaced
    case Unsync(i) => Lives(s, i) && s.files[i].phase == Replaced && s.files[i].lock.mtx != MoverIn
    case Drop(i) => Lives(s, i) && s.files[i].phase == Persisted && |s.files[i].other| == |s.files[i].st.extents|
    case Finish(z) => HasRoom(s, z) && s.holder[z] == Free && s.disk[z] != []
    case Reset(z) =>
      z < |s.disk| && z < |s.holder| && z < |s.used| && z < |s.owner| && z < |s.finished| &&
      s.holder[z] == Free && s.disk[z] != [] && s.used[z] == 0
    case Crash => s.geo.bs > 0
  }

  /** No push falls between the write of an append and the count of what was written, no write
      between the parts of a push, and no extent of 4 GiB or more is copied. */
  predicate Intact(s: State, a: Action)
    requires Enabled(s, a)
  {
    match a
    case Push(i) => s.files[i].uncounted == 0
    case Write(i, _) => s.files[i].window == Quiet
    case MoveCopy(i, k, _, _) => s.files[i].st.extents[k].len < 0x1_0000_0000
    case _ => true
  }

  /** The active zone of a file, also when the log does not know it yet. */
  predicate UsesZone(f: File, z: nat) { f.st.active == Some(z) || (f.window.Fresh? && f.window.at.zone == z) }

  function HeadOf(mode: Mode): nat { if mode == Sparse then SPARSE_HEADER_SIZE else 0 }

  function SetFile(s: State, i: nat, f: File): State
    requires i < |s.files|
  {
    s.(files := s.files[i := f])
  }

  function Owners(i: nat, n: nat): (r: seq<nat>)
    ensures |r| == n && forall k :: 0 <= k < n ==> r[k] == i
  {
    seq(n, _ => i)
  }

  /** File i appends to zone z, is then f, and charges the zone for some of it. */
  function Extend(s: State, i: nat, z: nat, bytes: seq<byte>, f: File, charge: nat): State
    requires i < |s.files| && z < |s.disk| && z < |s.owner| && z < |s.used|
  {
    s.(disk := s.disk[z := s.disk[z] + bytes], owner := s.owner[z := s.owner[z] + Owners(i, |bytes|)],
       used := s.used[z := s.used[z] + charge], files := s.files[i := f])
  }

  /** Every zone is charged less by what the extents have in it. */
  function Uncharge(used: seq<int>, es: seq<Ext>): (r: seq<int>)
    ensures |r| == |used| && forall z :: 0 <= z < |used| ==> r[z] == used[z] - ZoneSum(es, z)
  {
    seq(|used|, z requires 0 <= z < |used| => used[z] - ZoneSum(es, z))
  }

  function SetReader(f: File, n: nat, r: Reader): File
    requires n < |f.readers|
  {
    f.(readers := f.readers[n := r])
  }

  /** The file after direct writes became an extent, or blocks with a payload were appended: the
      list is longer, and `extent_start_` follows later. */
  function WithExtents(f: File, st: FileState): File
  {
    f.(st := st, other := st.extents, window := Lagging(f.st.start))
  }

  function Written(s: State, i: nat, data: seq<byte>): State
    requires Enabled(s, Write(i, data))
  {
    var f := s.files[i];
    Extend(s, i, f.st.active.value, data, f.(st := f.st.(size := f.st.size + |data|), uncounted := |data|), 0)
  }

  function AppendedTo(s: State, i: nat, payload: seq<byte>, bytes: seq<byte>): State
    requires Enabled(s, Grow(i, payload, bytes))
  {
    var f := s.files[i];
    Extend(s, i, f.st.active.value, bytes,
           WithExtents(f, Grown(s.disk, f.st, HeadOf(f.mode), |payload|, |bytes|)).(uncounted := |payload|), |payload|)
  }

  /** What counts of the pending bytes becomes an extent, and the active extent start is put at the
      write pointer. */
  function PushedState(disk: Disk, f: File): FileState
    requires f.st.active.Some? && f.st.active.value < |disk| && f.st.start.Some?
    requires f.st.filepos + f.uncounted <= f.st.size
  {
    Pushed(disk, f.st.(size := f.st.size - f.uncounted)).(size := f.st.size)
  }

  /** The rest of PushExtent: `extent_start_` is put at the write pointer and `extent_filepos_` at
      the file size, as they are by then. */
  function AdvancedFile(disk: Disk, f: File): File
    requires MayAdvance(disk, f)
  {
    if f.mode == Direct then
      var z := f.st.active.value;
      f.(st := f.st.(start := Some(Pos(z, |disk[z]|)), filepos := f.st.size - f.uncounted), window := Quiet)
    else f.(window := Quiet)
  }

  function PushedTo(s: State, i: nat): State
    requires Enabled(s, Push(i))
  {
    var f := s.files[i];
    var z := f.st.active.value;
    SetFile(s, i, WithExtents(f, PushedState(s.disk, f))).(used :=
      s.used[z := s.used[z] + (f.st.size - f.uncounted - f.st.filepos)])
  }

  function Reading(s: State, i: nat, offset: nat, wanted: nat, k: nat): File
    requires Enabled(s, ReadBegin(i, offset, wanted, k))
  {
    var f := s.files[i];
    var e := f.st.extents[k];
    f.(readers := f.readers + [Reader(offset, wanted, [], k, e, e.off + (offset - Total(f.st.extents[..k])))],
       lock := f.lock.(inside := f.lock.inside - 1))
  }

  function ReadMore(s: State, i: nat, n: nat, len: nat): File
    requires Enabled(s, ReadChunk(i, n, len))
  {
    var f := s.files[i];
    var r := f.readers[n];
    if r.ext.off <= r.pos then
      SetReader(f, n, r.(got := r.got + s.disk[r.ext.zone][r.pos..r.pos + len], pos := r.pos + len))
    else f
  }

  function ReadOn(s: State, i: nat, n: nat): File
    requires Enabled(s, ReadNext(i, n))
  {
    var r, es := s.files[i].readers[n], s.files[i].st.extents;
    SetReader(s.files[i], n, r.(k := r.k + 1, ext := es[r.k + 1], pos := es[r.k + 1].off))
  }

  function Copied(s: State, i: nat, k: nat, z: nat, pad: seq<byte>): State
    requires Enabled(s, MoveCopy(i, k, z, pad))
  {
    var f := s.files[i];
    var e := f.st.extents[k];
    Extend(s, i, z, Shortened(Lookup(s.disk, e)) + pad, f.(other := f.other[k := Ext(z, |s.disk[z]|, e.len)]), e.len)
  }

  function Dropped(s: State, i: nat): State
    requires Enabled(s, Drop(i))
  {
    var f := s.files[i];
    SetFile(s, i, f.(phase := Idle, other := f.st.extents)).(used := Uncharge(s.used, Moved(f.other, f.st.extents)))
  }

  // ---------- records of a file ----------

  /** `extent_start_` in memory. */
  function MemoryStart(f: File): Option<Pos> {
    match f.window
    case Lagging(p) => p
    case Fresh(p) => Some(p)
    case Closing => None
    case _ => f.st.start
  }

  /** Behind how many extents that is. */
  function MemoryCount(f: File): nat {
    if f.window.Lagging? && f.st.extents != [] then |f.st.extents| - 1 else |f.st.extents|
  }

  /** The list that the log will have of a file. */
  function ListFor(f: File, kind: Kind): seq<Ext>
    requires f.counter <= |f.st.extents|
  {
    match kind
    case Whole => f.st.extents
    case Tail => f.log.list + f.st.extents[f.counter..]
    case Swap => f.st.extents[f.counter..]
  }

  /** The record is in the log. When it has the start of a new zone, or none, the log knows that
      the file writes to that zone, or is closed. */
  function LoggedFile(disk: Disk, f: File): File
    requires f.enc.BothRead? && (f.window.Fresh? ==> f.window.at.zone < |disk|)
  {
    var e := f.enc;
    var g := f.(enc := Marking(e.kind), log := Logged(e.size, e.list, e.start, e.m, false));
    if f.window.Fresh? && e.start == MemoryStart(f) then
      g.(st := Allocated(disk, f.st, f.window.at.zone), window := Quiet,
        log := Logged(e.size, e.list, e.start, e.m, e.list == f.st.extents))
    else if f.window.Closing? && e.start.None? then
      g.(st := Closed(f.st), window := Shut, log := Logged(e.size, e.list, e.start, e.m, e.list == f.st.extents))
    else if e.start == e.due && ListFits(f, e.list, e.n) then
      g.(st := PairSt(f), log := Logged(e.size, e.list, e.start, e.m, true))
    else g
  }

  function MarkedFile(f: File): File
    requires f.enc.Marking?
  {
    f.(enc := NoRecord, counter := |f.st.extents|, phase := if f.enc.kind == Swap then Persisted else f.phase)
  }

  /** The steps of a writer. */
  predicate IsWriter(a: Action) {
    a.Create? || a.Open? || a.Acquire? || a.SetStart? || a.Write? || a.Count? || a.Grow? || a.Push? || a.Advance? ||
      a.Full? || a.CloseBegin? || a.CloseEnd? || a.Release?
  }

  function ApplyWriter(s: State, a: Action): State
    requires Enabled(s, a) && IsWriter(a)
  {
    match a
    case Create(mode) => s.(files := s.files + [NewFile(mode)])
    case Open(i) => SetFile(s, i, s.files[i].(writing := true))
    case Acquire(i, z) => s.(holder := s.holder[z := ByFile(i)])
    case SetStart(i, z) => SetFile(s, i, s.files[i].(window := Fresh(Pos(z, |s.disk[z]|))))
    case Write(i, data) => Written(s, i, data)
    case Count(i) => SetFile(s, i, s.files[i].(uncounted := 0))
    case Grow(i, payload, bytes) => AppendedTo(s, i, payload, bytes)
    case Push(i) => PushedTo(s, i)
    case Advance(i) => SetFile(s, i, AdvancedFile(s.disk, s.files[i]))
    case Full(i) => SetFile(s, i, s.files[i].(st := s.files[i].st.(active := None)))
    case CloseBegin(i) => SetFile(s, i, s.files[i].(window := Closing))
    case CloseEnd(i) => SetFile(s, i, s.files[i].(window := Quiet, writing := false))
    case Release(z) => s.(holder := s.holder[z := Free])
    case _ => s
  }

  /** The steps of the encoding of a record, and of namespace operations. */
  predicate IsRecord(a: Action) {
    a.Encode? || a.EncodeList? || a.EncodeStart? || a.Log? || a.LoseRecord? || a.Mark? || a.Delete? || a.Destroy?
  }

  function ApplyRecord(s: State, a: Action): State
    requires Enabled(s, a) && IsRecord(a)
  {
    match a
    case Encode(i, kind) => SetFile(s, i, s.files[i].(enc := SizeRead(kind, FileSize(s.files[i]))))
    case EncodeList(i) =>
      var f := s.files[i];
      SetFile(s, i, f.(enc := ListRead(f.enc.kind, f.enc.size, ListFor(f, f.enc.kind), |f.st.extents|, f.st.start)))
    case EncodeStart(i) =>
      var f := s.files[i];
      SetFile(s, i,
        f.(enc := BothRead(f.enc.kind, f.enc.size, f.enc.list, f.enc.n, f.enc.due, MemoryStart(f), MemoryCount(f))))
    case Log(i) => SetFile(s, i, LoggedFile(s.disk, s.files[i]))
    case LoseRecord(i) => SetFile(s, i, s.files[i].(enc := NoRecord))
    case Mark(i) => SetFile(s, i, MarkedFile(s.files[i]))
    case Delete(i) => SetFile(s, i, s.files[i].(named := false))
    case Destroy(i) =>
      SetFile(s, i, s.files[i].(alive := false, readers := [])).(used := Uncharge(s.used, s.files[i].st.extents))
    case _ => s
  }

  /** The steps of a reader. */
  predicate IsReader(a: Action) {
    a.LockRead? || a.CountRead? || a.UnlockRead? || a.ReadNothing? || a.ReadBegin? || a.ReadChunk? || a.ReadNext? ||
      a.ReadEnd?
  }

  function ApplyReader(s: State, a: Action): State
    requires Enabled(s, a) && IsReader(a)
  {
    match a
    case LockRead(i) => SetLock(s, i, s.files[i].lock.(mtx := ReaderEntering))
    case CountRead(i) => SetLock(s, i, s.files[i].lock.(mtx := ReaderCounted, count := s.files[i].lock.count + 1))
    case UnlockRead(i) => SetLock(s, i, s.files[i].lock.(mtx := Unlocked, inside := s.files[i].lock.inside + 1))
    case ReadNothing(i) =>
      SetLock(s, i, s.files[i].lock.(inside := s.files[i].lock.inside - 1, count := s.files[i].lock.count - 1))
    case ReadBegin(i, offset, wanted, k) => SetFile(s, i, Reading(s, i, offset, wanted, k))
    case ReadChunk(i, n, len) => SetFile(s, i, ReadMore(s, i, n, len))
    case ReadNext(i, n) => SetFile(s, i, ReadOn(s, i, n))
    case ReadEnd(i, n) =>
      var f := s.files[i];
      SetFile(s, i, f.(readers := f.readers[..n] + f.readers[n + 1..], lock := f.lock.(count := f.lock.count - 1)))
    case _ => s
  }

  /** The steps of a migration. */
  predicate IsMover(a: Action) {
    a.MoveBegin? || a.MoveTake? || a.MoveCopy? || a.MoveWaste? || a.LockWrite? || a.SeeNoReaders? || a.Replace? ||
      a.UnlockWrite? || a.Unsync? || a.Drop?
  }

  function ApplyMover(s: State, a: Action): State
    requires Enabled(s, a) && IsMover(a)
  {
    match a
    case MoveBegin(i) => SetFile(s, i, s.files[i].(phase := Copying, other := s.files[i].st.extents))
    case MoveTake(i, z) => s.(holder := s.holder[z := ByMover(i)])
    case MoveCopy(i, k, z, pad) => Copied(s, i, k, z, pad)
    case MoveWaste(i, z, bytes) => Extend(s, i, z, bytes, s.files[i], 0)
    case LockWrite(i) => SetLock(s, i, s.files[i].lock.(mtx := MoverWaiting))
    case SeeNoReaders(i) => SetLock(s, i, s.files[i].lock.(mtx := MoverIn))
    case Replace(i) => SetFile(s, i, ReplacedFile(s.files[i]))
    case UnlockWrite(i) => SetLock(s, i, s.files[i].lock.(mtx := Unlocked))
    case Unsync(i) => SetFile(s, i, s.files[i].(phase := Unsynced, counter := 0))
    case Drop(i) => Dropped(s, i)
    case _ => s
  }

  function Apply(s: State, a: Action): State
    requires Enabled(s, a)
  {
    if IsWriter(a) then ApplyWriter(s, a)
    else if IsRecord(a) then ApplyRecord(s, a)
    else if IsReader(a) then ApplyReader(s, a)
    else if IsMover(a) then ApplyMover(s, a)
    else
      match a
      case Finish(z) => s.(finished := s.finished[z := true])
      case Reset(z) => s.(disk := s.disk[z := []], owner := s.owner[z := []], finished := s.finished[z := false])
      case Crash => CrashState(s)
      case _ => s
  }

  function SetLock(s: State, i: nat, lock: Lock): State
    requires i < |s.files|
  {
    SetFile(s, i, s.files[i].(lock := lock))
  }

  function NewFile(mode: Mode): File {
    File(mode, NoState(), true, true, true, Quiet, 0, 0, 0, Logged(0, [], None, 0, true), NoRecord, Idle, [],
      Lock(Unlocked, 0, 0), [])
  }

  /** ReplaceExtentList. */
  function ReplacedFile(f: File): File {
    f.(phase := Replaced, st := f.st.(extents := f.other), other := f.st.extents)
  }

  // ---------- crashes ----------

  /** What Mount makes of the log and the write pointers. */
  function Recover(geo: Geometry, disk: Disk, f: File): Recovery
    requires geo.bs > 0
  {
    RecoverFile(geo, disk, f.log.list, f.log.start, f.mode == Sparse)
  }

  /** There is something behind the active extent start to recover. */
  predicate ToRecover(geo: Geometry, disk: Disk, start: Option<Pos>) {
    start.Some? && var p := Resolve(geo, start.value); p.zone < |disk| && p.off < |disk[p.zone]|
  }

  /** `file_size_` after a recovery that gave these extents: it is counted anew when there was
      something to recover, and is the logged one otherwise. */
  function RecoveredSize(geo: Geometry, disk: Disk, log: Logged, es: seq<Ext>): int {
    if ToRecover(geo, disk, log.start) then Total(es) else log.size
  }

  /** What a mount makes of a file with these extents and this size. */
  function Mounted(mode: Mode, es: seq<Ext>, size: int): File {
    File(mode, FileState(es, None, None, 0, Total(es), |es|, None), true, true, false,
         Quiet, |es|, Total(es) - size, 0, Logged(size, es, None, |es|, true), NoRecord, Idle, es, Lock(Unlocked, 0, 0),
           [])
  }

  function CrashFile(geo: Geometry, disk: Disk, f: File): File
    requires geo.bs > 0
  {
    if f.named && Recover(geo, disk, f).Recovered? then
      var es := Recover(geo, disk, f).extents;
      Mounted(f.mode, es, RecoveredSize(geo, disk, f.log, es))
    else f.(alive := false, named := false, readers := [])
  }

  function CrashFiles(geo: Geometry, disk: Disk, files: seq<File>): (r: seq<File>)
    requires geo.bs > 0
    ensures |r| == |files| && forall i :: 0 <= i < |files| ==> r[i] == CrashFile(geo, disk, files[i])
  {
    seq(|files|, i requires 0 <= i < |files| => CrashFile(geo, disk, files[i]))
  }

  /** What was written stays. Busy flags are clear, and used capacities are counted anew. */
  function CrashState(s: State): State
    requires s.geo.bs > 0
  {
    var files := CrashFiles(s.geo, s.disk, s.files);
    s.(files := files, holder := seq(|s.holder|, _ => Free),
       used := seq(|s.used|, z requires 0 <= z < |s.used| => Charges(files, z)))
  }

  /** A run: actions that are not possible do nothing. */
  function Run(s: State, actions: seq<Action>): State {
    if actions == [] then s
    else
      var before := Run(s, actions[..|actions| - 1]);
      var a := actions[|actions| - 1];
      if Enabled(before, a) then Apply(before, a) else before
  }

  // ---------- what a file has ----------

  /** Everything that was appended to a file, whether or not it is synced. */
  function Bytes(disk: Disk, f: File): seq<byte> {
    if AllInside(disk, f.st.extents) && ActiveOk(disk, f.mode, f.st) then FileContent(disk, f.mode, f.st) else []
  }

  function Appended(a: Action, i: nat): seq<byte> {
    match a
    case Write(j, data) => if i == j then data else []
    case Grow(j, payload, _) => if i == j then payload else []
    case _ => []
  }

  /** Files have what they had, and file i has more. */
  predicate Advanced(s: State, s': State, i: nat, data: seq<byte>) {
    && |s'.files| >= |s.files|
    && forall j :: 0 <= j < |s.files| && s'.files[j].alive ==>
         s.files[j].alive && s'.files[j].mode == s.files[j].mode &&
           Bytes(s'.disk, s'.files[j]) == Bytes(s.disk, s.files[j]) + if j == i then data else []
  }
}
