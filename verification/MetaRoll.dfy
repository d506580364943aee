/** Rolling the metadata log from zone to zone, with a crash possible between any two
    device operations, and mounting. */
module MetaRoll {
  import opened Codec
  import opened Replay
  import opened Common
  import opened MetaLog
  import opened LogSpace

  /** A metadata zone: empty, or a superblock with a sequence number and the records
      behind it. */
  datatype MetaZone = Blank | Zone(sequence: nat, log: seq<Record>)

  function Recover(z: MetaZone): Recovered {
    if z.Blank? then NotFound else Outcome(Fold(z.log))
  }

  /** The table that a zone with a superblock and a snapshot gives. */
  function SnapshotTable(snap: seq<FileMeta>): Table {
    ApplyEntries(snap, 1)
  }

  /** std::greater on pairs of a sequence number and a zone. */
  predicate Before(a: (nat, nat), b: (nat, nat)) {
    a.0 > b.0 || (a.0 == b.0 && a.1 > b.1)
  }

  predicate Descending(s: seq<(nat, nat)>) {
    forall i, j :: 0 <= i < j < |s| ==> Before(s[i], s[j])
  }

  /** Zone h is the one to recover from: it has a snapshot, and every zone that is tried
      before it, by descending sequence number, has none. */
  predicate Holder(zones: seq<MetaZone>, h: nat) {
    && h < |zones| && zones[h].Zone? && Recover(zones[h]).Found?
    && forall i :: 0 <= i < |zones| && zones[i].Zone? && Before((zones[i].sequence, i), (zones[h].sequence, h)) ==>
         Recover(zones[i]) == NotFound
  }

  lemma HolderIsUnique(zones: seq<MetaZone>, h: nat, k: nat)
    requires Holder(zones, h) && Holder(zones, k)
    ensures h == k
  {
  }

  // ---------- mount ----------

  datatype Mounted = MountedAt(zone: nat, table: Table) | NoFileSystem | Unreadable

  /** Inserts a pair in a descending list, so that the list stays sorted. */
  method InsertSorted(s: seq<(nat, nat)>, p: (nat, nat)) returns (r: seq<(nat, nat)>)
    requires Descending(s) && forall q <- s :: q.1 != p.1
    ensures Descending(r) && forall q :: q in r <==> q in s || q == p
  {
    var k := 0;
    while k < |s| && Before(s[k], p)
      invariant k <= |s| && forall i :: 0 <= i < k ==> Before(s[i], p)
    {
      k := k + 1;
    }
    InsertedSorted(s, k, p);
    r := s[..k] + [p] + s[k..];
    assert s == s[..k] + s[k..];
  }

  lemma InsertedSorted(s: seq<(nat, nat)>, k: nat, p: (nat, nat))
    requires Descending(s) && k <= |s| && (forall q <- s :: q.1 != p.1)
    requires (forall i :: 0 <= i < k ==> Before(s[i], p)) && (k < |s| ==> !Before(s[k], p))
    ensures Descending(s[..k] + [p] + s[k..])
  {
    forall i | k <= i < |s|
      ensures Before(p, s[i])
    {
      assert s[k] in s && s[i] in s;
    }
    hide Before;
  }

  /** The zones with a superblock, by descending sequence number. */
  method Superblocks(zones: seq<MetaZone>) returns (order: seq<(nat, nat)>)
    ensures Descending(order)
    ensures forall p :: p in order <==> p.1 < |zones| && zones[p.1].Zone? && zones[p.1].sequence == p.0
  {
    order := [];
    for i := 0 to |zones|
      invariant Descending(order)
      invariant forall p :: p in order <==> p.1 < i && zones[p.1].Zone? && zones[p.1].sequence == p.0
    {
      if zones[i].Zone? {
        order := InsertSorted(order, (zones[i].sequence, i));
      }
    }
  }

  /** ZenFS::Mount, up to the roll: tries the zones by descending sequence number and goes
      on to the next one only when there is no snapshot. */
  method Mount(zones: seq<MetaZone>) returns (r: Mounted)
    ensures forall h: nat :: Holder(zones, h) <==> r.MountedAt? && r.zone == h
    ensures r.MountedAt? ==> r.zone < |zones| && Recover(zones[r.zone]) == Found(r.table)
    ensures r.NoFileSystem? <==> forall i :: 0 <= i < |zones| ==> Recover(zones[i]) == NotFound
  {
    hide Outcome, Fold;
    var order := Superblocks(zones);
    var k := 0;
    while k < |order|
      invariant k <= |order|
      invariant forall i :: 0 <= i < k ==> Recover(zones[order[i].1]) == NotFound
    {
      var z := order[k].1;
      assert order[k] in order;
      var found := RecoverFrom(zones[z].log);
      assert found == Recover(zones[z]);
      FirstIsDecisive(zones, order, k);
      if found.Found? {
        return MountedAt(z, found.table);
      }
      if found.Corrupted? {
        return Unreadable;
      }
      k := k + 1;
    }
    forall i | 0 <= i < |zones|
      ensures Recover(zones[i]) == NotFound
    {
      if zones[i].Zone? {
        assert (zones[i].sequence, i) in order;
      }
    }
    return NoFileSystem;
  }

  /** The first zone in the order that is not without a snapshot decides. */
  lemma FirstIsDecisive(zones: seq<MetaZone>, order: seq<(nat, nat)>, k: nat)
    requires Descending(order) && k < |order|
    requires forall p :: p in order <==> p.1 < |zones| && zones[p.1].Zone? && zones[p.1].sequence == p.0
    requires forall i :: 0 <= i < k ==> order[i].1 < |zones| && Recover(zones[order[i].1]) == NotFound
    requires order[k].1 < |zones|
    ensures Recover(zones[order[k].1]) != NotFound ==>
      forall h: nat :: Holder(zones, h) <==> h == order[k].1 && Recover(zones[h]).Found?
  {
    hide Outcome, Fold;
    var z := order[k].1;
    assert order[k] in order;
    if Recover(zones[z]) != NotFound {
      forall h: nat | Holder(zones, h)
        ensures h == z
      {
        var p := (zones[h].sequence, h);
        assert p in order;
        var j :| 0 <= j < |order| && order[j] == p;
      }
      forall i | 0 <= i < |zones| && zones[i].Zone? && Before((zones[i].sequence, i), order[k])
        ensures Recover(zones[i]) == NotFound
      {
        var p := (zones[i].sequence, i);
        assert p in order;
        var j :| 0 <= j < |order| && order[j] == p;
      }
    }
  }

  // ---------- the protocol ----------

  const SEQUENCES: nat := 0x1_0000_0000

  datatype Stage = Allocated | Ended | Headed | Written

  datatype Phase =
    | Down
    | Idle(cur: nat)
    | Returning(cur: nat)
    | Rolling(cur: nat, next: nat, snap: seq<FileMeta>, stage: Stage, mounting: bool)

  /** `acked` is the table of the last operation that returned to its caller with success,
      which is also that of the memory; `goal` is the table that the operation in progress
      installs. */
  datatype State = State(zones: seq<MetaZone>, phase: Phase, acked: Table, goal: Table)

  /** After MkFS: one zone with a superblock and an empty snapshot. */
  predicate Init(s: State) {
    && |s.zones| >= 2 && s.phase == Down
    && s.zones[0] == Zone(1, [Snapshot([])])
    && (forall i :: 0 < i < |s.zones| ==> s.zones[i] == Blank)
    && s.acked == s.goal == SnapshotTable([])
  }

  /** AllocateMetaZone: the first zone that is not busy, which is reset. */
  method AllocateMetaZone(zones: seq<MetaZone>, busy: seq<bool>)
    returns (found: bool, z: nat, after: seq<MetaZone>, flags: seq<bool>)
    requires |busy| == |zones|
    ensures found <==> exists i :: 0 <= i < |busy| && !busy[i]
    ensures found ==>
      z < |zones| && !busy[z] && (forall i :: 0 <= i < z ==> busy[i]) && after == zones[z := Blank] &&
      flags == busy[z := true]
    ensures !found ==> after == zones && flags == busy
  {
    z := 0;
    while z < |busy|
      invariant z <= |busy| && forall i :: 0 <= i < z ==> busy[i]
    {
      if !busy[z] {
        return true, z, zones[z := Blank], busy[z := true];
      }
      z := z + 1;
    }
    return false, z, zones, busy;
  }

  /** The first zone that is not busy when only the current one is. */
  predicate FirstFree(n: nat, cur: nat, next: nat) {
    next < n && next == if cur == 0 then 1 else 0
  }

  /** The zone that a roll takes when only the log in use is busy. */
  method ZoneForRoll(zones: seq<MetaZone>, cur: nat) returns (next: nat, after: seq<MetaZone>)
    requires cur < |zones| && |zones| >= 2
    ensures FirstFree(|zones|, cur, next) && after == zones[next := Blank]
  {
    var found, z, reset, flags := AllocateMetaZone(zones, seq(|zones|, i => i == cur));
    assert !seq(|zones|, i => i == cur)[if cur == 0 then 1 else 0];
    next, after := z, reset;
  }

  datatype Action =
    | Append(rec: Record)                 // a record for which there is room
    | Return                              // the operation returns to its caller
    | BeginRoll(rec: Record, snap: seq<FileMeta>)  // there is no room: the next zone is reset
    | WriteEnd                            // end record, if there is room for it
    | WriteSuperblock
    | WriteSnapshot
    | SnapshotFails                       // there is no room for the snapshot
    | ResetOld
    | Crash
    | Remount(zone: nat, snap: seq<FileMeta>)  // recover from a zone, repair, begin to roll

  function Put(zones: seq<MetaZone>, z: nat, rec: Record): seq<MetaZone>
    requires z < |zones| && zones[z].Zone?
  {
    zones[z := zones[z].(log := zones[z].log + [rec])]
  }

  /** The records that PersistRecord is given, and what they do to the memory. */
  function Effect(t: Table, rec: Record): Scan {
    if rec.Snapshot? || rec.EndRecord? then Failed else Step(Running(t, true), rec)
  }

  predicate Current(s: State) { s.phase.Idle? && s.phase.cur < |s.zones| && s.zones[s.phase.cur].Zone? }

  ghost predicate Next(fmt: Format, s: State, a: Action, s': State) {
    var n := |s.zones|;
    match a
    case Append(rec) =>
      && Current(s) && Room(fmt, s.zones[s.phase.cur].log, rec) && Effect(s.acked, rec).Running?
      && s' == State(Put(s.zones, s.phase.cur, rec), Returning(s.phase.cur), s.acked, Effect(s.acked, rec).table)
    case Return =>
      s.phase.Returning? && s' == s.(phase := Idle(s.phase.cur), acked := s.goal)
    case BeginRoll(rec, snap) =>
      && Current(s) && !Room(fmt, s.zones[s.phase.cur].log, rec)
      && exists next: nat :: FirstFree(n, s.phase.cur, next) &&
           s' == State(s.zones[next := Blank], Rolling(s.phase.cur, next, snap, Allocated, false), s.acked,
             SnapshotTable(snap))
    case WriteEnd =>
      && s.phase.Rolling? && s.phase.stage == Allocated && s.phase.cur < n && s.zones[s.phase.cur].Zone?
      && s' == s.(zones := if Room(fmt, s.zones[s.phase.cur].log, EndRecord) then Put(s.zones, s.phase.cur, EndRecord)
           else s.zones,
                  phase := s.phase.(stage := Ended))
    case WriteSuperblock =>
      && s.phase.Rolling? && s.phase.stage == Ended && s.phase.cur < n && s.zones[s.phase.cur].Zone? && s.phase.next < n
      && s' == s.(zones := s.zones[s.phase.next := Zone((s.zones[s.phase.cur].sequence + 1) % SEQUENCES, [])],
                  phase := s.phase.(stage := Headed))
    case WriteSnapshot =>
      && s.phase.Rolling? && s.phase.stage == Headed && s.phase.next < n && s.zones[s.phase.next].Zone?
      && SnapshotFits(fmt, s.phase.snap)
      && s' == s.(zones := Put(s.zones, s.phase.next, Snapshot(s.phase.snap)), phase := s.phase.(stage := Written))
    case SnapshotFails =>
      && s.phase.Rolling? && s.phase.stage == Headed && !SnapshotFits(fmt, s.phase.snap)
      && s' == s.(phase := if s.phase.mounting then Down else Idle(s.phase.next), goal := s.acked)
    case ResetOld =>
      && s.phase.Rolling? && s.phase.stage == Written && s.phase.cur < n
      && s' == s.(zones := s.zones[s.phase.cur := Blank], phase := Returning(s.phase.next))
    case Crash =>
      s' == s.(phase := Down)
    case Remount(zone, snap) =>
      && s.phase.Down? && Holder(s.zones, zone)
      && exists next: nat :: FirstFree(n, zone, next) &&
           s' == State(s.zones[next := Blank], Rolling(zone, next, snap, Allocated, true), Recover(s.zones[zone]).table,
             SnapshotTable(snap))
  }

  // ---------- the invariant while snapshots fit ----------

  /** A mount recovers table t, from zone h. */
  predicate Gives(zones: seq<MetaZone>, h: nat, t: Table) {
    Holder(zones, h) && Recover(zones[h]) == Found(t)
  }

  /** Only the first two zones are ever used. */
  predicate TwoZones(zones: seq<MetaZone>) {
    |zones| >= 2 && forall i :: 2 <= i < |zones| ==> zones[i] == Blank
  }

  /** A crash now, and a mount, would recover the acknowledged table or that of the operation
      in progress. */
  ghost predicate CrashOk(s: State) {
    exists h: nat :: Gives(s.zones, h, s.acked) || Gives(s.zones, h, s.goal)
  }

  predicate Inv(s: State) {
    && TwoZones(s.zones)
    && match s.phase
       case Down =>
         Gives(s.zones, 0, s.acked) || Gives(s.zones, 0, s.goal) || Gives(s.zones, 1, s.acked) ||
         Gives(s.zones, 1, s.goal)
       case Idle(cur) =>
         cur < 2 && Gives(s.zones, cur, s.acked) && s.acked == s.goal &&
         Fold(s.zones[cur].log) == Running(s.acked, true)
       case Returning(cur) => cur < 2 && Gives(s.zones, cur, s.goal) && Fold(s.zones[cur].log) == Running(s.goal, true)
       case Rolling(cur, next, snap, stage, _) =>
         && cur < 2 && next == 1 - cur && s.goal == SnapshotTable(snap) && s.zones[cur].Zone?
         && Recover(s.zones[cur]) == Found(s.acked)
         && match stage
            case Headed => s.zones[next] == Zone((s.zones[cur].sequence + 1) % SEQUENCES, [])
            case Written => s.zones[next] == Zone((s.zones[cur].sequence + 1) % SEQUENCES, [Snapshot(snap)])
            case _ => s.zones[next] == Blank
  }

  lemma OneRecord(snap: seq<FileMeta>)
    ensures Fold([Snapshot(snap)]) == Running(SnapshotTable(snap), true)
  {
    assert [Snapshot(snap)][..0] == [] && Fold([]) == START;
  }

  lemma EmptyLog(sequence: nat)
    ensures Recover(Zone(sequence, [])) == NotFound
  {
  }

  /** With a second zone that has no snapshot, the first one is the holder. */
  lemma OnlyHolder(zones: seq<MetaZone>, h: nat, t: Table)
    requires TwoZones(zones) && h < 2 && zones[h].Zone? && Recover(zones[h]) == Found(t)
    requires Recover(zones[1 - h]) == NotFound
    ensures Gives(zones, h, t)
    ensures forall k: nat :: Holder(zones, k) ==> k == h
  {
    hide Fold, Outcome;
    forall k: nat | Holder(zones, k)
      ensures k == h
    {
      assert k < 2 && k != 1 - h;
    }
  }

  /** The new zone is the one to recover from as soon as it has its snapshot, if and only if
      its 32-bit sequence number has not wrapped around; until the old zone is reset, a mount
      takes the old one otherwise. */
  lemma NewZoneWinsUnlessWrapped(zones: seq<MetaZone>, cur: nat, t: Table, snap: seq<FileMeta>)
    requires TwoZones(zones) && cur < 2 && zones[cur].Zone? && Recover(zones[cur]) == Found(t)
    requires zones[cur].sequence < SEQUENCES
    requires zones[1 - cur] == Zone((zones[cur].sequence + 1) % SEQUENCES, [])
    ensures var zones' := Put(zones, 1 - cur, Snapshot(snap));
      && Recover(zones'[1 - cur]) == Found(SnapshotTable(snap))
      && (Holder(zones', 1 - cur) <==> zones[cur].sequence < SEQUENCES - 1)
      && (Gives(zones', cur, t) <==> zones[cur].sequence == SEQUENCES - 1)
  {
    OneRecord(snap);
    assert [] + [Snapshot(snap)] == [Snapshot(snap)];
    hide Fold;
    var zones' := Put(zones, 1 - cur, Snapshot(snap));
    assert zones'[cur] == zones[cur] && zones'[1 - cur].sequence == (zones[cur].sequence + 1) % SEQUENCES;
  }

  /** Of two zones with a snapshot one is the holder. */
  lemma OneOfTwo(zones: seq<MetaZone>, t: Table, u: Table)
    requires TwoZones(zones) && zones[0].Zone? && zones[1].Zone? && Recover(zones[0]) == Found(t)
    requires Recover(zones[1]) == Found(u)
    ensures Gives(zones, 0, t) || Gives(zones, 1, u)
  {
    hide Fold, Outcome;
    if Before((zones[0].sequence, 0), (zones[1].sequence, 1)) {
      assert Gives(zones, 0, t);
    } else {
      assert Gives(zones, 1, u);
    }
  }

  /** A record appended to the holder. */
  lemma HolderAppends(zones: seq<MetaZone>, h: nat, t: Table, rec: Record)
    requires Gives(zones, h, t) && Fold(zones[h].log) == Running(t, true) && Effect(t, rec).Running?
    ensures var u := Effect(t, rec).table;
      Fold(zones[h].log + [rec]) == Running(u, true) && Gives(Put(zones, h, rec), h, u)
  {
    FoldAppend(zones[h].log, rec);
    EffectSeen(t, rec);
    hide Fold, Step;
  }

  lemma EffectSeen(t: Table, rec: Record)
    requires Effect(t, rec).Running?
    ensures Effect(t, rec).seen && Step(Running(t, true), rec) == Effect(t, rec)
  {
  }

  /** The end record does not change what a zone gives. */
  lemma EndKeepsTable(log: seq<Record>)
    ensures Outcome(Fold(log + [EndRecord])) == Outcome(Fold(log))
  {
    FoldAppend(log, EndRecord);
  }

  /** Every step keeps the invariant, but for a snapshot for which there is no room, in a roll
      that is not part of a mount. */
  lemma StepKeepsInv(fmt: Format, s: State, a: Action, s': State)
    requires Inv(s) && Next(fmt, s, a, s')
    requires a.SnapshotFails? ==> s.phase.Rolling? && s.phase.mounting
    ensures Inv(s')
  {
    hide Fold, Step, Outcome, Holder, Effect, Room, SnapshotTable;
    match a
    case Append(rec) =>
      HolderAppends(s.zones, s.phase.cur, s.acked, rec);
    case Return =>
    case BeginRoll(_, _) =>
      HolderFacts(s.zones, s.phase.cur);
    case WriteEnd =>
      EndKeepsTable(s.zones[s.phase.cur].log);
    case WriteSuperblock =>
    case WriteSnapshot =>
      assert [] + [Snapshot(s.phase.snap)] == [Snapshot(s.phase.snap)];
    case SnapshotFails =>
      EmptyLog(s.zones[s.phase.next].sequence);
      OnlyHolder(s.zones, s.phase.cur, s.acked);
    case ResetOld =>
      OneRecord(s.phase.snap);
      RecoverRunning(s.zones[s.phase.next], SnapshotTable(s.phase.snap));
      BlankGivesNothing();
      OnlyHolder(s'.zones, s.phase.next, s.goal);
    case Crash =>
      CrashKeepsInv(s);
    case Remount(zone, _) =>
      HolderFacts(s.zones, zone);
      HolderBelowTwo(s.zones, zone);
  }

  lemma BlankGivesNothing()
    ensures Recover(Blank) == NotFound
  {
  }

  lemma RecoverRunning(z: MetaZone, t: Table)
    requires z.Zone? && Fold(z.log) == Running(t, true)
    ensures Recover(z) == Found(t)
  {
  }

  lemma HolderFacts(zones: seq<MetaZone>, h: nat)
    requires Holder(zones, h)
    ensures h < |zones| && zones[h].Zone? && Recover(zones[h]).Found?
  {
  }

  lemma HolderBelowTwo(zones: seq<MetaZone>, h: nat)
    requires Holder(zones, h) && TwoZones(zones)
    ensures h < 2
  {
  }

  lemma CrashKeepsInv(s: State)
    requires Inv(s)
    ensures Inv(s.(phase := Down)) && CrashOk(s)
  {
    hide Fold, Step, Outcome, Holder, SnapshotTable;
    match s.phase
    case Down =>
      assert CrashOk(s);
    case Idle(cur) => assert Gives(s.zones, cur, s.acked);
    case Returning(cur) => assert Gives(s.zones, cur, s.goal);
    case Rolling(cur, next, snap, stage, _) =>
      if stage == Written {
        OneRecord(snap);
        RecoverRunning(s.zones[next], SnapshotTable(snap));
        OneOfTwo(s.zones, if cur == 0 then s.acked else s.goal, if cur == 0 then s.goal else s.acked);
      } else {
        EmptyLog((s.zones[cur].sequence + 1) % SEQUENCES);
        BlankGivesNothing();
        OnlyHolder(s.zones, cur, s.acked);
      }
  }

  lemma InitHasInv(s: State)
    requires Init(s)
    ensures Inv(s)
  {
    OneRecord([]);
    RecoverRunning(s.zones[0], s.acked);
    BlankGivesNothing();
    hide Fold;
    OnlyHolder(s.zones, 0, s.acked);
  }

  // ---------- runs ----------

  /** States reached by runs of any length. */
  ghost predicate Run(fmt: Format, states: seq<State>, actions: seq<Action>) {
    && |states| == |actions| + 1 && Init(states[0])
    && forall i :: 0 <= i < |actions| ==> Next(fmt, states[i], actions[i], states[i + 1])
  }

  /** The snapshots of all rolls that the run begins at run time fit in a zone. */
  predicate RollsFit(fmt: Format, actions: seq<Action>) {
    forall a <- actions :: a.BeginRoll? ==> SnapshotFits(fmt, a.snap)
  }

  /** Where the snapshot of a roll comes from. */
  predicate KnownRoll(fmt: Format, s: State)
  {
    s.phase.Rolling? && !s.phase.mounting ==> SnapshotFits(fmt, s.phase.snap)
  }

  lemma KnownRollKept(fmt: Format, s: State, a: Action, s': State)
    requires KnownRoll(fmt, s) && Next(fmt, s, a, s') && (a.BeginRoll? ==> SnapshotFits(fmt, a.snap))
    ensures KnownRoll(fmt, s')
  {
    hide Step, Fold, Room, Holder, Recover, SnapshotFits;
  }

  lemma {:induction false} RunKeepsInv(fmt: Format, states: seq<State>, actions: seq<Action>, k: nat)
    requires Run(fmt, states, actions) && k < |states| && RollsFit(fmt, actions[..k])
    ensures Inv(states[k]) && KnownRoll(fmt, states[k])
  {
    hide Inv, Next;
    if k == 0 {
      InitHasInv(states[0]);
    } else {
      assert forall a <- actions[..k - 1] :: a in actions[..k];
      RunKeepsInv(fmt, states, actions, k - 1);
      assert actions[k - 1] in actions[..k];
      RollFailsOnlyUnfit(fmt, states[k - 1], actions[k - 1], states[k]);
      StepKeepsInv(fmt, states[k - 1], actions[k - 1], states[k]);
      KnownRollKept(fmt, states[k - 1], actions[k - 1], states[k]);
    }
  }

  lemma RollFailsOnlyUnfit(fmt: Format, s: State, a: Action, s': State)
    requires KnownRoll(fmt, s) && Next(fmt, s, a, s')
    ensures a.SnapshotFails? ==> s.phase.Rolling? && s.phase.mounting
  {
    hide Step, Fold, Room, Holder, Recover, SnapshotFits;
  }

  /** In every state of every run whose snapshots fit, a crash followed by a mount recovers
      the table of the last acknowledged operation or that of the operation in progress. */
  lemma CrashSafe(fmt: Format, states: seq<State>, actions: seq<Action>, k: nat)
    requires Run(fmt, states, actions) && k < |states| && RollsFit(fmt, actions[..k])
    ensures CrashOk(states[k])
  {
    RunKeepsInv(fmt, states, actions, k);
    CrashKeepsInv(states[k]);
  }

  /** A mount after a crash at any point of such a run succeeds with one of those two tables,
      and with the acknowledged one between operations. */
  method MountAfterCrash(fmt: Format, ghost states: seq<State>, ghost actions: seq<Action>, ghost k: nat,
          zones: seq<MetaZone>)
    returns (r: Mounted)
    requires Run(fmt, states, actions) && k < |states| && zones == states[k].zones && RollsFit(fmt, actions[..k])
    ensures r.MountedAt? && (r.table == states[k].acked || r.table == states[k].goal)
    ensures states[k].phase.Idle? ==> r.table == states[k].acked
  {
    CrashSafe(fmt, states, actions, k);
    RunKeepsInv(fmt, states, actions, k);
    hide Fold, Recover, Holder, Run;
    r := Mount(zones);
    ghost var h: nat :| Gives(zones, h, states[k].acked) || Gives(zones, h, states[k].goal);
    assert Holder(zones, h);
  }

  // ---------- when a snapshot does not fit ----------

  /** The roll ends and returns to its caller: with success, or with an error because its
      snapshot does not fit. */
  ghost predicate RollEnds(fmt: Format, s: State, s': State) {
    if s.phase.Rolling? && SnapshotFits(fmt, s.phase.snap) then
      exists s1, s2 :: Next(fmt, s, WriteSnapshot, s1) && Next(fmt, s1, ResetOld, s2) && Next(fmt, s2, Return, s')
    else Next(fmt, s, SnapshotFails, s')
  }

  /** The log goes on in a zone with only a superblock, and the snapshot is in the other one. */
  predicate Stranded(s: State) {
    && s.phase.Idle? && s.phase.cur < 2 && TwoZones(s.zones) && s.acked == s.goal
    && s.zones[s.phase.cur].Zone? && s.zones[s.phase.cur].log == []
    && s.zones[1 - s.phase.cur].Zone? && Recover(s.zones[1 - s.phase.cur]) == Found(s.acked)
  }

  lemma RollOutcome(fmt: Format, s: State, s': State)
    requires Inv(s) && s.phase.Rolling? && s.phase.stage == Headed && !s.phase.mounting && RollEnds(fmt, s, s')
    ensures if SnapshotFits(fmt, s.phase.snap) then Inv(s') && s'.phase == Idle(s.phase.next) else Stranded(s')
  {
    hide Fold, Step, Outcome, Holder, Effect, Room, SnapshotTable, SnapshotFits;
    if SnapshotFits(fmt, s.phase.snap) {
      var s1, s2 :| Next(fmt, s, WriteSnapshot, s1) && Next(fmt, s1, ResetOld, s2) && Next(fmt, s2, Return, s');
      StepKeepsInv(fmt, s, WriteSnapshot, s1);
      StepKeepsInv(fmt, s1, ResetOld, s2);
      StepKeepsInv(fmt, s2, Return, s');
    }
  }

  /** The only records of a log without a snapshot. */
  lemma LoneRecord(rec: Record, t: Table)
    requires Effect(t, rec).Running?
    ensures !Recover(Zone(0, [rec])).Found? && (rec.Deletion? ==> Recover(Zone(0, [rec])).Corrupted?)
  {
    FoldAppend([], rec);
    assert [] + [rec] == [rec] && Fold([]) == START;
  }

  /** A record that is acknowledged in a stranded log is lost if it changes anything. */
  lemma StrandedRecord(s: State, rec: Record, u: Table)
    requires Stranded(s) && Effect(s.acked, rec).Running?
    ensures forall h: nat :: Gives(Put(s.zones, s.phase.cur, rec), h, u) ==> u == s.acked
  {
    LoneRecord(rec, s.acked);
    assert [] + [rec] == [rec];
    hide Fold, Outcome, Effect;
    var cur, zones' := s.phase.cur, Put(s.zones, s.phase.cur, rec);
    forall h: nat | Gives(zones', h, u)
      ensures u == s.acked
    {
      assert h == cur || h == 1 - cur;
    }
  }

  /** After an acknowledged deletion in a stranded log nothing can be mounted any more, unless
      the sequence number has wrapped around. */
  lemma StrandedDeletion(s: State, rec: Record)
    requires Stranded(s) && rec.Deletion? && Effect(s.acked, rec).Running?
    ensures var cur := s.phase.cur;
      (forall h: nat :: !Holder(Put(s.zones, cur, rec), h))
      <==> Before((s.zones[cur].sequence, cur), (s.zones[1 - cur].sequence, 1 - cur))
  {
    LoneRecord(rec, s.acked);
    assert [] + [rec] == [rec];
    hide Fold, Outcome, Effect;
    var cur, zones' := s.phase.cur, Put(s.zones, s.phase.cur, rec);
    assert Recover(zones'[cur]) == Corrupted;
    if !Before((s.zones[cur].sequence, cur), (s.zones[1 - cur].sequence, 1 - cur)) {
      assert Holder(zones', 1 - cur);
    }
  }

  /** The next record that is acknowledged after a roll and that changes anything survives a
      crash if and only if the snapshot of the roll fit in its zone. */
  lemma RecordSurvivesIffSnapshotFits(fmt: Format, s: State, s1: State, rec: Record, s2: State, s3: State)
    requires Inv(s) && s.phase.Rolling? && s.phase.stage == Headed && !s.phase.mounting && RollEnds(fmt, s, s1)
    requires Next(fmt, s1, Append(rec), s2) && Next(fmt, s2, Return, s3) && s3.acked != s1.acked
    ensures CrashOk(s3) <==> SnapshotFits(fmt, s.phase.snap)
  {
    RollOutcome(fmt, s, s1);
    if SnapshotFits(fmt, s.phase.snap) {
      StepKeepsInv(fmt, s1, Append(rec), s2);
      StepKeepsInv(fmt, s2, Return, s3);
      CrashKeepsInv(s3);
    } else {
      StrandedRecord(s1, rec, s3.acked);
    }
  }

  /** The zone that the next roll resets is not the only one with a snapshot, if and only if
      the snapshot of the last roll fit in its zone. */
  lemma NextRollKeepsAHolderIffSnapshotFits(fmt: Format, s: State, s1: State, rec: Record, snap: seq<FileMeta>,
          s2: State)
    requires Inv(s) && s.phase.Rolling? && s.phase.stage == Headed && !s.phase.mounting && RollEnds(fmt, s, s1)
    requires Next(fmt, s1, BeginRoll(rec, snap), s2)
    ensures (exists h: nat :: Holder(s2.zones, h)) <==> SnapshotFits(fmt, s.phase.snap)
  {
    RollOutcome(fmt, s, s1);
    hide Fold, Outcome, Room, SnapshotFits, RollEnds;
    BlankGivesNothing();
    if SnapshotFits(fmt, s.phase.snap) {
      StepKeepsInv(fmt, s1, BeginRoll(rec, snap), s2);
      OnlyHolder(s2.zones, s1.phase.cur, s1.acked);
      assert Holder(s2.zones, s1.phase.cur);
    } else {
      EmptyLog(s1.zones[s1.phase.cur].sequence);
      assert s2.zones[1 - s1.phase.cur] == Blank;
      forall h: nat | Holder(s2.zones, h)
        ensures false
      {
        HolderFacts(s2.zones, h);
        HolderBelowTwo(s2.zones, h);
      }
    }
  }

  /** While snapshots fit, a reset that discards a snapshot never discards the only one: the
      zone that the mount would take is another one, before and after. */
  lemma ResetKeepsAHolder(fmt: Format, s: State, a: Action, s': State, i: nat)
    requires Inv(s) && Next(fmt, s, a, s') && i < |s.zones| && |s'.zones| == |s.zones|
    requires !s.zones[i].Blank? && s'.zones[i].Blank?
    ensures CrashOk(s') && exists h: nat :: h != i && Holder(s'.zones, h) && s.zones[h] == s'.zones[h]
  {
    BlankGivesNothing();
    hide Fold, Outcome, Room, SnapshotFits, Step, SnapshotTable;
    ResetIsARollStep(fmt, s, a, s', i);
    StepKeepsInv(fmt, s, a, s');
    CrashKeepsInv(s');
    var h: nat :| Gives(s'.zones, h, s'.acked) || Gives(s'.zones, h, s'.goal);
    HolderFacts(s'.zones, h);
    HolderBelowTwo(s'.zones, h);
    assert h != i;
    assert s.zones[h] == s'.zones[h];
  }

  lemma ResetIsARollStep(fmt: Format, s: State, a: Action, s': State, i: nat)
    requires Inv(s) && Next(fmt, s, a, s') && i < |s.zones| && |s'.zones| == |s.zones|
    requires !s.zones[i].Blank? && s'.zones[i].Blank?
    ensures a.BeginRoll? || a.ResetOld? || a.Remount?
    ensures forall j :: 0 <= j < |s.zones| && j != i ==> s'.zones[j] == s.zones[j]
  {
    hide Fold, Outcome, Room, SnapshotFits, Step, SnapshotTable, Holder, Gives;
  }

  // ---------- a log on the zones ----------

  /** Between two operations, this is the log in use. */
  predicate Carries(s: State, log: seq<Record>) {
    s.phase.Idle? && s.phase.cur < |s.zones| && s.zones[s.phase.cur].Zone? && s.zones[s.phase.cur].log == log
  }

  /** The log in use after a run whose snapshots fit. */
  ghost predicate OnZones(fmt: Format, states: seq<State>, actions: seq<Action>, log: seq<Record>) {
    Run(fmt, states, actions) && RollsFit(fmt, actions) && Carries(states[|actions|], log)
  }

  lemma Further(fmt: Format, states: seq<State>, actions: seq<Action>, a: Action, s: State)
    requires Run(fmt, states, actions) && RollsFit(fmt, actions) && Next(fmt, states[|actions|], a, s)
    requires a.BeginRoll? ==> SnapshotFits(fmt, a.snap)
    ensures Run(fmt, states + [s], actions + [a]) && RollsFit(fmt, actions + [a]) && (states + [s])[|actions| + 1] == s
  {
    hide Next, Init, SnapshotFits;
    var states', actions' := states + [s], actions + [a];
    forall i | 0 <= i < |actions'|
      ensures Next(fmt, states'[i], actions'[i], states'[i + 1])
    {
      if i < |actions| { assert Next(fmt, states[i], actions[i], states[i + 1]); }
    }
  }

  /** From there on, the acknowledged table and that in progress are these two. */
  predicate Between(states: seq<State>, from: nat, before: Table, after: Table) {
    forall k :: from <= k < |states| ==>
      (states[k].acked == before || states[k].acked == after) && (states[k].goal == before || states[k].goal == after)
  }

  lemma LastHasInv(fmt: Format, states: seq<State>, actions: seq<Action>)
    requires Run(fmt, states, actions) && RollsFit(fmt, actions)
    ensures |states| == |actions| + 1 && Inv(states[|actions|])
  {
    assert actions[..|actions|] == actions;
    RunKeepsInv(fmt, states, actions, |actions|);
  }

  /** Between two operations, the zone in use is the one to recover from, and its table is that of
      the log. */
  lemma CarriedIsHeld(fmt: Format, states: seq<State>, actions: seq<Action>, log: seq<Record>)
    requires OnZones(fmt, states, actions, log)
    ensures |states| == |actions| + 1
    ensures var s := states[|actions|];
      s.phase.Idle? && Holder(s.zones, s.phase.cur) && s.zones[s.phase.cur].log == log &&
        Fold(log) == Running(s.acked, true)
  {
    hide Fold, Run, Holder;
    LastHasInv(fmt, states, actions);
  }

  /** A record for which there is room and which can be replayed. */
  lemma AppendSteps(fmt: Format, states: seq<State>, actions: seq<Action>, log: seq<Record>, rec: Record)
    returns (states': seq<State>, actions': seq<Action>)
    requires OnZones(fmt, states, actions, log) && Room(fmt, log, rec) && Fold(log + [rec]).Running?
    requires !rec.Snapshot? && !rec.EndRecord?
    ensures OnZones(fmt, states', actions', log + [rec]) && states <= states'
    ensures Fold(log).Running? && Between(states', |states|, Fold(log).table, Fold(log + [rec]).table)
  {
    hide Fold, Step, Run, Holder, Room, Inv, RollsFit;
    CarriedIsHeld(fmt, states, actions, log);
    FoldAppend(log, rec);
    var s := states[|actions|];
    var s1 := State(Put(s.zones, s.phase.cur, rec), Returning(s.phase.cur), s.acked, Effect(s.acked, rec).table);
    Further(fmt, states, actions, Append(rec), s1);
    var s2 := s1.(phase := Idle(s.phase.cur), acked := s1.goal);
    states', actions' := states + [s1], actions + [Append(rec)];
    Further(fmt, states', actions', Return, s2);
    states', actions' := states' + [s2], actions' + [Return];
  }

  lemma OtherZone(zones: seq<MetaZone>, cur: nat)
    requires |zones| >= 2
    ensures FirstFree(|zones|, cur, if cur == 0 then 1 else 0)
  {
  }

  /** The next step of a roll. */
  function RollStep(fmt: Format, s: State): (r: (Action, State))
    requires Inv(s) && s.phase.Rolling?
  {
    var cur, next := s.phase.cur, s.phase.next;
    match s.phase.stage
    case Allocated =>
      (WriteEnd, s.(zones := if Room(fmt, s.zones[cur].log, EndRecord) then Put(s.zones, cur, EndRecord) else s.zones,
                    phase := s.phase.(stage := Ended)))
    case Ended =>
      (WriteSuperblock, s.(zones := s.zones[next := Zone((s.zones[cur].sequence + 1) % SEQUENCES, [])],
        phase := s.phase.(stage := Headed)))
    case Headed =>
      (WriteSnapshot, s.(zones := Put(s.zones, next, Snapshot(s.phase.snap)), phase := s.phase.(stage := Written)))
    case Written =>
      (ResetOld, s.(zones := s.zones[cur := Blank], phase := Returning(next)))
  }

  function StepsLeft(s: State): nat {
    if !s.phase.Rolling? then 0
    else match s.phase.stage case Allocated => 4 case Ended => 3 case Headed => 2 case Written => 1
  }

  lemma RollStepIsNext(fmt: Format, s: State)
    requires Inv(s) && s.phase.Rolling? && SnapshotFits(fmt, s.phase.snap)
    ensures var (a, s') := RollStep(fmt, s);
      && Next(fmt, s, a, s') && !a.BeginRoll? && s'.acked == s.acked && s'.goal == s.goal == SnapshotTable(s.phase.snap)
      && StepsLeft(s') < StepsLeft(s) && (s'.phase.Rolling? ==> s'.phase.snap == s.phase.snap)
      && (!s'.phase.Rolling? ==> s'.phase == Returning(s.phase.next) && s.phase.next < |s'.zones|
                                 && s'.zones[s.phase.next].Zone?
                                 && s'.zones[s.phase.next].log == [Snapshot(s.phase.snap)])
  {
    hide Fold, Step, Holder, Room, Recover, SnapshotFits, SnapshotTable;
  }

  lemma BetweenPlus(states: seq<State>, from: nat, s: State, before: Table, after: Table)
    requires Between(states, from, before, after)
    requires (s.acked == before || s.acked == after) && (s.goal == before || s.goal == after)
    ensures Between(states + [s], from, before, after) && states <= states + [s]
  {
  }

  /** The steps of a roll up to the return of the operation or the end of the mount. */
  lemma {:induction false} FinishRoll(fmt: Format, states: seq<State>, actions: seq<Action>, from: nat)
    returns (states': seq<State>, actions': seq<Action>)
    requires Run(fmt, states, actions) && RollsFit(fmt, actions)
    requires var s := states[|actions|];
      s.phase.Rolling? && SnapshotFits(fmt, s.phase.snap) && Between(states, from, s.acked, SnapshotTable(s.phase.snap))
    ensures OnZones(fmt, states', actions', [Snapshot(states[|actions|].phase.snap)]) && states <= states'
    ensures Between(states', from, states[|actions|].acked, SnapshotTable(states[|actions|].phase.snap))
    decreases StepsLeft(states[|actions|])
  {
    hide Next, Run, Inv, RollsFit, SnapshotFits, SnapshotTable, Between, Fold, StepsLeft, RollStep;
    LastHasInv(fmt, states, actions);
    var s := states[|actions|];
    RollStepIsNext(fmt, s);
    var (a, t) := RollStep(fmt, s);
    Further(fmt, states, actions, a, t);
    BetweenPlus(states, from, t, s.acked, SnapshotTable(s.phase.snap));
    if t.phase.Rolling? {
      states', actions' := FinishRoll(fmt, states + [t], actions + [a], from);
    } else {
      var u := t.(phase := Idle(t.phase.cur), acked := t.goal);
      assert Next(fmt, t, Return, u) by { ReturnIsNext(fmt, t); }
      Further(fmt, states + [t], actions + [a], Return, u);
      BetweenPlus(states + [t], from, u, s.acked, SnapshotTable(s.phase.snap));
      states', actions' := states + [t] + [u], actions + [a] + [Return];
    }
  }

  lemma ReturnIsNext(fmt: Format, s: State)
    requires s.phase.Returning?
    ensures Next(fmt, s, Return, s.(phase := Idle(s.phase.cur), acked := s.goal))
  {
  }

  /** A record for which there is no room, so that the log rolls. */
  lemma RollSteps(fmt: Format, states: seq<State>, actions: seq<Action>, log: seq<Record>, rec: Record,
          snap: seq<FileMeta>)
    returns (states': seq<State>, actions': seq<Action>)
    requires OnZones(fmt, states, actions, log) && !Room(fmt, log, rec) && SnapshotFits(fmt, snap)
    ensures OnZones(fmt, states', actions', [Snapshot(snap)]) && states <= states'
    ensures Fold(log).Running? && Between(states', |states|, Fold(log).table, SnapshotTable(snap))
  {
    hide Fold, Step, Run, Holder, Room, RollsFit, SnapshotFits, SnapshotTable;
    LastHasInv(fmt, states, actions);
    var s := states[|actions|];
    var cur := s.phase.cur;
    var next: nat := if cur == 0 then 1 else 0;
    OtherZone(s.zones, cur);
    var s1 := State(s.zones[next := Blank], Rolling(cur, next, snap, Allocated, false), s.acked, SnapshotTable(snap));
    Further(fmt, states, actions, BeginRoll(rec, snap), s1);
    states', actions' := FinishRoll(fmt, states + [s1], actions + [BeginRoll(rec, snap)], |states|);
  }

  /** ZENFS_META_ZONES. */
  const META_ZONES: nat := 3

  /** MkFS and the first mount. */
  lemma FirstMount(fmt: Format) returns (states: seq<State>, actions: seq<Action>)
    requires SnapshotFits(fmt, [])
    ensures OnZones(fmt, states, actions, [Snapshot([])])
  {
    hide Fold, Step, Holder, Room, RollsFit, SnapshotFits;
    var zones := seq(META_ZONES, i => if i == 0 then Zone(1, [Snapshot([])]) else Blank);
    var s := State(zones, Down, SnapshotTable([]), SnapshotTable([]));
    OneRecord([]);
    RecoverRunning(zones[0], SnapshotTable([]));
    BlankGivesNothing();
    OnlyHolder(zones, 0, SnapshotTable([]));
    hide SnapshotTable, Recover;
    var s1 := State(zones[1 := Blank], Rolling(0, 1, [], Allocated, true), SnapshotTable([]), SnapshotTable([]));
    assert FirstFree(META_ZONES, 0, 1);
    NoActionsFit(fmt);
    Further(fmt, [s], [], Remount(0, []), s1);
    states, actions := FinishRoll(fmt, [s] + [s1], [] + [Remount(0, [])], 0);
  }

  lemma NoActionsFit(fmt: Format)
    ensures RollsFit(fmt, [])
  {
  }
}
