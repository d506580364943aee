/** The zone allocator: busy flags, open and active tokens, finishing and resetting zones,
    and the choice of a zone by lifetime and wear. */
module Allocator {

  import opened Common

  /** Who holds the busy flag of a zone. */
  datatype Holder = Free | ByFile | ByMigration

  /** `written` is the distance from the start of the zone to its write pointer, `capacity`
      what can still be written. */
  datatype Zone = Zone(written: nat, capacity: nat, max: nat, used: nat, lifetime: nat, resets: nat, holder: Holder) {
    predicate IsEmpty() { written == 0 }
    predicate IsFull() { capacity == 0 }
    predicate IsUsed() { used > 0 }
    predicate IsPartial() { !IsEmpty() && !IsFull() }
    predicate WellFormed() {
      0 < max && capacity <= max && (IsEmpty() ==> capacity == max && used == 0) && lifetime <= EXTREME
    }
  }

  type Zones = seq<Zone>

  // write lifetime hints
  const NOT_SET: nat := 0
  const NONE: nat := 1
  const SHORT: nat := 2
  const EXTREME: nat := 5

  const NOT_GOOD: nat := 100
  const COULD_BE_WORSE: nat := 50

  function LifeTimeDiff(zone: nat, file: nat): (d: nat)
    ensures zone <= EXTREME && d != COULD_BE_WORSE && d != NOT_GOOD ==> d <= EXTREME
  {
    if file == NOT_SET || file == NONE then
      if file == zone then 0 else NOT_GOOD
    else if zone > file then zone - file
    else if zone == file then COULD_BE_WORSE
    else NOT_GOOD
  }

  /** For a file of this lifetime, a zone of lifetime a is better than one of lifetime b. A file
      without a hint takes only zones of its own kind. Any other takes the zone that outlives it by
      the least, before one of its own lifetime, before one that it outlives. */
  predicate Closer(a: nat, b: nat, file: nat) {
    if file < SHORT then a == file && b != file
    else if a > file then b <= file || b > a
    else a == file && b < file
  }

  /** The data of the file may be in a zone of this lifetime. */
  predicate Suits(zone: nat, file: nat) { if file < SHORT then zone == file else zone >= file }

  lemma DiffMeans(a: nat, b: nat, file: nat)
    requires a <= EXTREME && b <= EXTREME
    ensures LifeTimeDiff(a, file) < LifeTimeDiff(b, file) <==> Closer(a, b, file)
    ensures LifeTimeDiff(a, file) <= NOT_GOOD && (LifeTimeDiff(a, file) != NOT_GOOD <==> Suits(a, file))
    ensures LifeTimeDiff(a, file) == COULD_BE_WORSE <==> SHORT <= file == a
    ensures LifeTimeDiff(a, file) < COULD_BE_WORSE <==> Suits(a, file) && !(SHORT <= file == a)
  {
  }

  // ---------- counting zones ----------

  function Count(zs: Zones, p: Zone -> bool): nat {
    if zs == [] then 0 else Count(zs[..|zs| - 1], p) + if p(zs[|zs| - 1]) then 1 else 0
  }

  lemma {:induction false} CountUpdate(zs: Zones, p: Zone -> bool, i: nat, z: Zone)
    requires i < |zs|
    ensures Count(zs[i := z], p) == Count(zs, p) - (if p(zs[i]) then 1 else 0) + (if p(z) then 1 else 0)
  {
    var n := |zs| - 1;
    if i == n {
      assert zs[i := z][..n] == zs[..n];
    } else {
      assert zs[i := z][..n] == zs[..n][i := z];
      CountUpdate(zs[..n], p, i, z);
    }
  }

  /** Zones that satisfy p and not q are there whenever there are more p than q. */
  lemma {:induction false} MoreThan(zs: Zones, p: Zone -> bool, q: Zone -> bool) returns (i: nat)
    requires Count(zs, p) > Count(zs, q)
    ensures i < |zs| && p(zs[i]) && !q(zs[i])
  {
    var n := |zs| - 1;
    if p(zs[n]) && !q(zs[n]) {
      i := n;
    } else {
      i := MoreThan(zs[..n], p, q);
    }
  }

  /** Zones that account for an active token: held ones and partially written ones. */
  predicate HoldsActive(z: Zone) { z.holder != Free || z.IsPartial() }

  /** Zones that account for an open token: those held by a file. */
  predicate HoldsOpen(z: Zone) { z.holder == ByFile }

  function ActiveCount(zs: Zones): nat { Count(zs, HoldsActive) }

  function OpenCount(zs: Zones): nat { Count(zs, HoldsOpen) }

  function Acquire(zs: Zones, i: nat, who: Holder): Zones
    requires i < |zs|
  {
    zs[i := zs[i].(holder := who)]
  }

  function Finished(z: Zone, zoneSize: nat): Zone { z.(capacity := 0, written := zoneSize) }

  /** Reset: the zone is empty again, its lifetime is forgotten, and it wears by one. */
  function Reset(z: Zone): Zone {
    z.(written := 0, capacity := z.max, lifetime := NOT_SET, resets := z.resets + 1)
  }

  predicate Eligible(z: Zone, minCapacity: nat) {
    z.holder == Free && z.IsUsed() && !z.IsFull() && z.capacity >= minCapacity
  }

  predicate Victim(z: Zone) { z.holder == Free && z.IsPartial() }

  predicate FreeEmpty(z: Zone) { z.holder == Free && z.IsEmpty() }

  /** WaitForOpenIOZoneToken: 32-bit unsigned arithmetic. */
  function OpenLimit(maxOpen: nat, prioritized: bool): nat {
    if prioritized then maxOpen else (maxOpen - 1) % 0x1_0000_0000
  }

  /** A grant to a file that is not a WAL leaves the last open slot free, if and only if the
      device allows at least one open zone at all; otherwise the limit wraps around. */
  lemma LastSlotIsForWal(maxOpen: nat, open: int)
    requires maxOpen < 0x1_0000_0000 && 0 <= open <= maxOpen
    ensures (open < OpenLimit(maxOpen, false) ==> open + 1 < maxOpen) <==> maxOpen >= 1
  {
  }

  /** What ApplyFinishThreshold does to one zone. */
  function AfterThreshold(z: Zone, threshold: nat, zoneSize: nat): Zone {
    if Victim(z) && z.capacity < z.max * threshold / 100 then Finished(z, zoneSize) else z
  }

  /** Zone v is the first one with the least remaining capacity of the victims among the first n
      zones. */
  predicate Cheapest(zs: Zones, n: nat, v: nat)
    requires n <= |zs|
  {
    && v < n && Victim(zs[v])
    && forall i :: 0 <= i < n && Victim(zs[i]) ==>
         zs[v].capacity <= zs[i].capacity && (i < v ==> zs[v].capacity < zs[i].capacity)
  }

  predicate NoVictim(zs: Zones, n: nat)
    requires n <= |zs|
  {
    forall i :: 0 <= i < n ==> !Victim(zs[i])
  }

  /** None of the eligible zones among the first n is better than zone z, nor as good and behind it. */
  predicate BestMatch(zs: Zones, n: nat, z: nat, lifetime: nat, minCapacity: nat)
    requires n <= |zs|
  {
    && z < n && Eligible(zs[z], minCapacity)
    && forall i :: 0 <= i < n && Eligible(zs[i], minCapacity) ==>
         && !Closer(zs[i].lifetime, zs[z].lifetime, lifetime)
         && (i > z ==> Closer(zs[z].lifetime, zs[i].lifetime, lifetime))
  }

  predicate NoMatch(zs: Zones, n: nat, minCapacity: nat)
    requires n <= |zs|
  {
    forall i :: 0 <= i < n ==> !Eligible(zs[i], minCapacity)
  }

  predicate AtLeastAsGood(a: Zone, b: Zone, lifetime: nat) {
    if lifetime < SHORT then a.resets >= b.resets else a.resets <= b.resets
  }

  /** Zone z is the first of the most worn (for hints below SHORT) or least worn empty ones. */
  predicate BestEmpty(zs: Zones, n: nat, z: nat, lifetime: nat)
    requires n <= |zs|
  {
    && z < n && FreeEmpty(zs[z])
    && forall i :: 0 <= i < n && FreeEmpty(zs[i]) ==>
         AtLeastAsGood(zs[z], zs[i], lifetime) && (i < z ==> !AtLeastAsGood(zs[i], zs[z], lifetime))
  }

  predicate NoEmpty(zs: Zones, n: nat)
    requires n <= |zs|
  {
    forall i :: 0 <= i < n ==> !FreeEmpty(zs[i])
  }

  /** Score of a zone as a target of wear leveling. */
  function Score(z: Zone): nat
    requires z.max > 0
  {
    z.resets * (if z.IsFull() then z.max - Min(z.used, z.max) else z.written - Min(z.used, z.written)) / z.max
  }

  predicate Suitable(z: Zone, lifetime: nat, minCapacity: nat) {
    Eligible(z, minCapacity) && Suits(z.lifetime, lifetime)
  }

  /** By wear and reclaimable bytes a is a worse target than b. A target has room, so what can be
      reclaimed in it is what is written and not in use. */
  predicate WorseTarget(a: Zone, b: Zone)
    requires a.max > 0 && b.max > 0
  {
    var x := a.resets * (if a.used < a.written then a.written - a.used else 0) / a.max;
    var y := b.resets * (if b.used < b.written then b.written - b.used else 0) / b.max;
    x < y || (x == y && a.resets < b.resets)
  }

  /** No zone is suitable. */
  predicate NoTarget(zs: Zones, n: nat, lifetime: nat, minCapacity: nat)
    requires n <= |zs|
  {
    forall k :: 0 <= k < n ==> !Suitable(zs[k], lifetime, minCapacity)
  }

  /** Zone z is the first of the best targets among the suitable ones of the first n zones. */
  predicate BestTarget(zs: Zones, n: nat, z: nat, lifetime: nat, minCapacity: nat)
    requires n <= |zs| && forall i :: 0 <= i < |zs| ==> zs[i].max > 0
  {
    && z < n && Suitable(zs[z], lifetime, minCapacity)
    && forall i :: 0 <= i < n && Suitable(zs[i], lifetime, minCapacity) ==>
         !WorseTarget(zs[z], zs[i]) && (i < z ==> WorseTarget(zs[i], zs[z]))
  }

  /** Zones as in `a`, except that zone `i` was taken by `who`. */
  ghost predicate TakenFrom(a: Zones, b: Zones, i: Option<nat>, who: Holder) {
    match i
    case None => b == a
    case Some(k) => k < |a| && a[k].holder == Free && b == Acquire(a, k, who)
  }

  /** The busy flags of all zones are as before, but for the zone that was handed out. */
  ghost predicate SameBusy(a: Zones, b: Zones, zone: Option<nat>) {
    |a| == |b| && forall i :: 0 <= i < |a| ==> b[i].holder == (if zone == Some(i) then ByFile else a[i].holder)
  }

  lemma TakeTokens(a: Zones, b: Zones, zone: Option<nat>, who: Holder)
    requires TakenFrom(a, b, zone, who) && who != Free
    ensures |a| == |b|
    ensures ActiveCount(b) == ActiveCount(a) + (if zone.Some? && !a[zone.value].IsPartial() then 1 else 0)
    ensures OpenCount(b) == OpenCount(a) + (if zone.Some? && who == ByFile then 1 else 0)
  {
    if zone.Some? {
      var k := zone.value;
      CountUpdate(a, HoldsActive, k, a[k].(holder := who));
      CountUpdate(a, HoldsOpen, k, a[k].(holder := who));
    }
  }

  /** The outcome of an allocation. `Blocks` stands for a wait for an open token that no
      other thread ends, `Spins` for a finish loop that has no zone left to finish. */
  datatype Allocation = Got(zone: nat) | NoZone | Blocks | Spins

  class ZonedBlockDevice {
    var zones: Zones
    var active: int
    var open: int
    const maxActive: nat
    const maxOpen: nat
    const zoneSize: nat
    const finishThreshold: nat
    /** Tokens that were never given back. */
    ghost var lostActive: nat
    ghost var lostOpen: nat
    /** Tokens of allocations under way, for which there is no zone yet. */
    ghost var pendingActive: nat
    ghost var pendingOpen: nat

    ghost predicate WellFormed()
      reads this
    {
      0 < zoneSize && maxOpen < 0x1_0000_0000 && forall i :: 0 <= i < |zones| ==> zones[i].WellFormed()
    }

    /** The counters account for every zone that needs a token. */
    ghost predicate Tokens()
      reads this
    {
      && active == ActiveCount(zones) + pendingActive + lostActive
      && open == OpenCount(zones) + pendingOpen + lostOpen
    }

    ghost predicate Valid()
      reads this
    {
      WellFormed() && Tokens()
    }

    /** A device as Open leaves it: no zone is held and the active ones are counted. */
    constructor (zones: Zones, active: nat, maxActive: nat, maxOpen: nat, zoneSize: nat, finishThreshold: nat)
      requires 0 < zoneSize && maxOpen < 0x1_0000_0000
      requires forall i :: 0 <= i < |zones| ==> zones[i].WellFormed() && zones[i].holder == Free
      requires active == ActiveCount(zones)
      ensures Valid() && this.zones == zones && lostActive == lostOpen == pendingActive == pendingOpen == 0
      ensures this.maxActive == maxActive && this.maxOpen == maxOpen && open == 0
    {
      this.zones, this.active, this.open := zones, active, 0;
      this.maxActive, this.maxOpen, this.zoneSize, this.finishThreshold := maxActive, maxOpen, zoneSize,
        finishThreshold;
      this.lostActive, this.lostOpen, this.pendingActive, this.pendingOpen := 0, 0, 0, 0;
      NoneHeld(zones);
    }

    /** Finishes the free, partially written zones whose remaining capacity is below the
        threshold and gives their active tokens back. */
    method ApplyFinishThreshold()
      requires Valid()
      modifies this`zones, this`active
      ensures Valid() && |zones| == |old(zones)| && active <= old(active)
      ensures forall i :: 0 <= i < |zones| ==> zones[i] == AfterThreshold(old(zones)[i], finishThreshold, zoneSize)
      ensures forall i :: 0 <= i < |zones| ==>
        var z := old(zones)[i];
        zones[i] ==
        if z.holder == Free && z.written > 0 && 0 < z.capacity < z.max * finishThreshold / 100
        then z.(written := zoneSize, capacity := 0) else z
    {
      if finishThreshold == 0 {
        return;
      }
      for i := 0 to |zones|
        invariant Valid() && |zones| == |old(zones)| && active <= old(active)
        invariant forall k :: 0 <= k < i ==> zones[k] == AfterThreshold(old(zones)[k], finishThreshold, zoneSize)
        invariant forall k :: i <= k < |zones| ==> zones[k] == old(zones)[k]
      {
        if zones[i].holder == Free {
          var within := zones[i].capacity < zones[i].max * finishThreshold / 100;
          if !(zones[i].IsEmpty() || zones[i].IsFull()) && within {
            FinishZone(i);
          }
        }
      }
    }

    /** Zone::Finish on a free, partially written zone, and the return of its active token. */
    method FinishZone(i: nat)
      requires Valid() && i < |zones| && Victim(zones[i])
      modifies this`zones, this`active
      ensures Valid() && zones == old(zones)[i := Finished(old(zones)[i], zoneSize)] && active == old(active) - 1
    {
      CountUpdate(zones, HoldsActive, i, Finished(zones[i], zoneSize));
      CountUpdate(zones, HoldsOpen, i, Finished(zones[i], zoneSize));
      zones := zones[i := Finished(zones[i], zoneSize)];
      active := active - 1;
    }

    /** Finishes the free, partially written zone with the least remaining capacity, if there
        is one, and gives its active token back. */
    method FinishCheapestIOZone() returns (victim: Option<nat>)
      requires Valid()
      modifies this`zones, this`active
      ensures Valid()
      ensures victim.None? ==> NoVictim(old(zones), |old(zones)|) && zones == old(zones) && active == old(active)
      ensures victim.Some? ==> Cheapest(old(zones), |old(zones)|, victim.value) && active == old(active) - 1
      ensures victim.Some? ==>
        zones == old(zones)[victim.value := old(zones)[victim.value].(written := zoneSize, capacity := 0)]
    {
      victim := None;
      for i := 0 to |zones|
        invariant victim.None? ==> NoVictim(zones, i)
        invariant victim.Some? ==> Cheapest(zones, i, victim.value)
      {
        if zones[i].holder == Free && !zones[i].IsEmpty() && !zones[i].IsFull() {
          if victim.None? || zones[victim.value].capacity > zones[i].capacity {
            victim := Some(i);
          }
        }
      }
      if victim.Some? {
        FinishZone(victim.value);
      }
    }

    /** Among the free zones with used capacity and room, takes the one whose lifetime is closest to
        that of the file (the last of them). */
    method GetBestOpenZoneMatch(lifetime: nat, minCapacity: nat, who: Holder) returns (best: nat, zone: Option<nat>)
      requires who != Free && forall i :: 0 <= i < |zones| ==> zones[i].lifetime <= EXTREME
      modifies this`zones
      ensures TakenFrom(old(zones), zones, zone, who) && |zones| == |old(zones)|
      ensures zone.None? ==> best == NOT_GOOD && NoMatch(old(zones), |old(zones)|, minCapacity)
      ensures zone.Some? ==> BestMatch(old(zones), |old(zones)|, zone.value, lifetime, minCapacity)
      ensures zone.Some? ==>
        best <= NOT_GOOD && (best != NOT_GOOD <==> Suits(old(zones)[zone.value].lifetime, lifetime))
      ensures zone.Some? ==> (best == COULD_BE_WORSE <==> SHORT <= lifetime == old(zones)[zone.value].lifetime)
      ensures best <= COULD_BE_WORSE || best == NOT_GOOD
      ensures zone.Some? ==> old(zones)[zone.value].used > 0 && !old(zones)[zone.value].IsFull()
    {
      best, zone := NOT_GOOD, None;
      forall a: nat, b: nat | a <= EXTREME && b <= EXTREME
        ensures LifeTimeDiff(a, lifetime) < LifeTimeDiff(b, lifetime) <==> Closer(a, b, lifetime)
        ensures LifeTimeDiff(a, lifetime) <= NOT_GOOD
      {
        DiffMeans(a, b, lifetime);
      }
      hide LifeTimeDiff, Closer;
      for i := 0 to |zones|
        invariant TakenFrom(old(zones), zones, zone, who) && |zones| == |old(zones)|
        invariant zone.None? ==> best == NOT_GOOD && NoMatch(old(zones), i, minCapacity)
        invariant zone.Some? ==> BestMatch(old(zones), i, zone.value, lifetime, minCapacity)
        invariant zone.Some? ==> best == LifeTimeDiff(old(zones)[zone.value].lifetime, lifetime)
      {
        assert zones[i] == old(zones)[i];
        if zones[i].holder == Free {
          zones := zones[i := zones[i].(holder := who)];
          var z := zones[i];
          if z.used > 0 && !z.IsFull() && z.capacity >= minCapacity && LifeTimeDiff(z.lifetime, lifetime) <= best {
            if zone.Some? {
              zones := zones[zone.value := zones[zone.value].(holder := Free)];
              assert zones == old(zones)[i := zones[i]];
            }
            best, zone := LifeTimeDiff(z.lifetime, lifetime), Some(i);
          } else {
            zones := zones[i := zones[i].(holder := Free)];
            assert TakenFrom(old(zones), zones, zone, who);
          }
        }
      }
    }

    /** Takes a free empty zone: the most worn one for hints below SHORT, else the least worn
        one (and stops at a zone that was never reset). */
    method AllocateEmptyZone(lifetime: nat, who: Holder) returns (zone: Option<nat>)
      requires who != Free
      modifies this`zones
      ensures TakenFrom(old(zones), zones, zone, who) && |zones| == |old(zones)|
      ensures zone.None? ==> NoEmpty(old(zones), |old(zones)|)
      ensures zone.Some? ==>
        BestEmpty(old(zones), |old(zones)|, zone.value, lifetime) && old(zones)[zone.value].IsEmpty()
    {
      zone := None;
      var i := 0;
      while i < |zones|
        invariant i <= |zones| == |old(zones)| && TakenFrom(old(zones), zones, zone, who)
        invariant zone.None? ==> NoEmpty(old(zones), i)
        invariant zone.Some? ==> BestEmpty(old(zones), i, zone.value, lifetime)
      {
        assert zones[i] == old(zones)[i];
        if zones[i].holder == Free {
          zones := zones[i := zones[i].(holder := who)];
          var better := zone.None? || (if lifetime < SHORT then zones[i].resets > zones[zone.value].resets
                                       else zones[i].resets < zones[zone.value].resets);
          if zones[i].IsEmpty() && better {
            if zone.Some? {
              zones := zones[zone.value := zones[zone.value].(holder := Free)];
              assert zones == old(zones)[i := zones[i]];
            }
            zone := Some(i);
            if lifetime >= SHORT && zones[i].resets == 0 {
              return;
            }
          } else {
            zones := zones[i := zones[i].(holder := Free)];
            assert TakenFrom(old(zones), zones, zone, who);
          }
        }
        i := i + 1;
      }
    }

    /** GetActiveIOZoneTokenIfAvailable. */
    method TakeActiveToken() returns (got: bool)
      requires Valid()
      modifies this`active, this`pendingActive
      ensures Valid() && got == (old(active) < maxActive)
      ensures active == old(active) + (if got then 1 else 0)
      ensures pendingActive == old(pendingActive) + (if got then 1 else 0)
    {
      got := active < maxActive;
      if got {
        active := active + 1;
        pendingActive := pendingActive + 1;
      }
    }

    /** A sequential run without lost active tokens, on a device that may have at least as
        many active as open zones: no migration and no other allocation is under way. */
    ghost predicate Sequential()
      reads this
    {
      && lostActive == 0 && pendingActive == 0 && 1 <= maxOpen <= maxActive && open <= maxOpen
      && forall i :: 0 <= i < |zones| ==> zones[i].holder != ByMigration
    }

    /** The finish loop of AllocateIOZone: finishes zones until an active token is free. It
        is entered with an open token that no zone accounts for yet. */
    method FinishUntilToken() returns (got: bool)
      requires Valid() && pendingOpen >= 1
      modifies this`zones, this`active, this`pendingActive
      ensures Valid() && |zones| == |old(zones)| && pendingActive == old(pendingActive) + (if got then 1 else 0)
      ensures forall i :: 0 <= i < |zones| ==> SameOrFinished(old(zones)[i], zones[i], zoneSize)
      ensures old(active) <= maxActive ==> active <= maxActive
      ensures !got ==> NoVictim(zones, |zones|) && active >= maxActive
      ensures old(Sequential()) ==> got
      ensures old(active) < maxActive ==> got && zones == old(zones)
      ensures got && old(active) >= maxActive ==> active == maxActive
      ensures CheapestFinished(old(zones), zones)
    {
      hide CheapestFinished, Cheapest;
      NoneFinished(zones, zoneSize);
      got := TakeActiveToken();
      while !got
        invariant Valid() && |zones| == |old(zones)| && pendingActive == old(pendingActive) + (if got then 1 else 0)
        invariant forall i :: 0 <= i < |zones| ==> SameOrFinished(old(zones)[i], zones[i], zoneSize)
        invariant old(active) <= maxActive ==> active <= maxActive
        invariant !got ==> active >= maxActive
        invariant old(active) < maxActive ==> got && zones == old(zones)
        invariant got && old(active) >= maxActive ==> active == maxActive
        invariant CheapestFinished(old(zones), zones)
        decreases !got, active
      {
        if old(Sequential()) {
          VictimExists(zones, open, pendingOpen - 1 + lostOpen, maxOpen, maxActive);
        }
        ghost var before := zones;
        var victim := FinishCheapestIOZone();
        if victim.None? {
          return;
        }
        FinishedNext(old(zones), before, victim.value, zoneSize);
        got := TakeActiveToken();
      }
    }

    /** AllocateIOZone. `mid` is the state of the zones after the finish threshold was
        applied, in which the choice is made. */
    method AllocateIOZone(lifetime: nat, wal: bool) returns (r: Allocation, ghost mid: Zones)
      requires Valid() && lifetime <= EXTREME
      modifies this
      ensures Valid() && SameBusy(old(zones), zones, if r.Got? then Some(r.zone) else None)
      ensures |mid| == |old(zones)| && forall i :: 0 <= i < |mid| ==>
                mid[i] == if wal then old(zones)[i] else AfterThreshold(old(zones)[i], finishThreshold, zoneSize)
      ensures r.Got? ==> r.zone < |mid|
      ensures r.Got? && !mid[r.zone].IsEmpty() ==> Reused(mid, zones, r.zone, lifetime, active >= maxActive)
      ensures r.Got? && mid[r.zone].IsEmpty() ==> Opened(mid, zones, r.zone, lifetime)
      ensures (r.Got? && mid[r.zone].IsEmpty()) || r.NoZone? || r.Spins? ==>
        var token := ActiveCount(mid) + old(pendingActive) + old(lostActive) < maxActive;
        NothingToReuse(mid, lifetime, token) &&
          MadeRoom(mid, zones, if r.Got? then Some(r.zone) else None, token, zoneSize) &&
          (!token && !r.Spins? ==> active == maxActive - if r.NoZone? then 1 else 0)
      ensures r.Blocks? ==> zones == mid
      ensures r.NoZone? ==> NoEmpty(mid, |mid|)
      ensures r.Blocks? <==> old(open) >= OpenLimit(maxOpen, wal)
      ensures r.Spins? ==> NoVictim(zones, |zones|) && active >= maxActive
      ensures old(Sequential()) ==> !r.Spins?
      ensures old(active) <= maxActive ==> active <= maxActive
      ensures old(open) <= maxOpen && (wal || maxOpen >= 1) ==> open <= maxOpen
      ensures r.Got? && !wal && maxOpen >= 1 ==> open < maxOpen
      ensures open == old(open) + (if r.Got? || r.Spins? then 1 else 0)
      ensures pendingOpen == old(pendingOpen) + (if r.Spins? then 1 else 0)
      ensures lostActive == old(lostActive) && lostOpen == old(lostOpen) && pendingActive == old(pendingActive)
    {
      hide ActiveCount, OpenCount, NoEmpty, NoVictim, AfterThreshold, Opened, Reused, MadeRoom, NothingToReuse,
        SameBusy;
      BusyItself(zones);
      if !wal {
        ApplyFinishThreshold();
        ThresholdKeepsBusy(old(zones), zones, finishThreshold, zoneSize);
      }
      mid := zones;
      if open >= OpenLimit(maxOpen, wal) {
        return Blocks, mid;
      }
      open, pendingOpen := open + 1, pendingOpen + 1;
      var zone := ReuseZone(lifetime);
      if zone.Some? {
        BusyThen(old(zones), mid, zones, zone);
        return Got(zone.value), mid;
      }
      r := OpenNewZone(lifetime);
      BusyThen(old(zones), mid, zones, if r.Got? then Some(r.zone) else None);
    }

    /** The middle part of AllocateIOZone: a zone with data, if there is one for a file of this lifetime. */
    method ReuseZone(lifetime: nat) returns (zone: Option<nat>)
      requires Valid() && lifetime <= EXTREME && pendingOpen >= 1
      modifies this`zones, this`pendingOpen
      ensures Valid() && SameBusy(old(zones), zones, zone)
      ensures pendingOpen == old(pendingOpen) - if zone.Some? then 1 else 0
      ensures zone.Some? ==> Reused(old(zones), zones, zone.value, lifetime, active >= maxActive)
      ensures zone.Some? ==> zone.value < |old(zones)| && !old(zones)[zone.value].IsEmpty()
      ensures zone.None? ==> zones == old(zones) && NothingToReuse(zones, lifetime, active < maxActive)
    {
      hide ActiveCount, OpenCount, LifeTimeDiff, BestMatch, NoMatch, Suits, Closer, Reused, NothingToReuse, Eligible,
        SameBusy, TakenFrom;
      BusyItself(zones);
      var best;
      best, zone := GetBestOpenZoneMatch(lifetime, 0, ByFile);
      TakeTokens(old(zones), zones, zone, ByFile);
      MatchMeans(old(zones), zones, best, zone, lifetime, active < maxActive);
      TakenBusy(old(zones), old(zones), zones, zone);
      // without a token, the best match is used instead of finishing a zone
      if best < COULD_BE_WORSE || (zone.Some? && best == COULD_BE_WORSE && active >= maxActive) {
        pendingOpen := pendingOpen - 1;
        return zone;
      }
      if zone.Some? {
        zones := zones[zone.value := zones[zone.value].(holder := Free)];
      }
      return None;
    }

    /** The last part of AllocateIOZone: opens an empty zone with a new active token. */
    method OpenNewZone(lifetime: nat) returns (r: Allocation)
      requires Valid() && lifetime <= EXTREME && pendingOpen >= 1
      modifies this
      ensures Valid() && SameBusy(old(zones), zones, if r.Got? then Some(r.zone) else None) && !r.Blocks?
      ensures r.Got? ==>
        Opened(old(zones), zones, r.zone, lifetime) && r.zone < |old(zones)| && old(zones)[r.zone].IsEmpty()
      ensures MadeRoom(old(zones), zones, if r.Got? then Some(r.zone) else None, old(active) < maxActive, zoneSize)
      ensures old(active) >= maxActive && !r.Spins? ==> active == maxActive - if r.NoZone? then 1 else 0
      ensures r.NoZone? ==> NoEmpty(old(zones), |old(zones)|)
      ensures r.Spins? ==> NoVictim(zones, |zones|) && active >= maxActive
      ensures old(Sequential()) ==> !r.Spins?
      ensures old(active) <= maxActive ==> active <= maxActive
      ensures open == old(open) - (if r.NoZone? then 1 else 0)
      ensures pendingOpen == old(pendingOpen) - (if r.Spins? then 0 else 1)
      ensures lostActive == old(lostActive) && lostOpen == old(lostOpen) && pendingActive == old(pendingActive)
    {
      hide ActiveCount, OpenCount, BestEmpty, NoEmpty, NoVictim, Count;
      var got := FinishUntilToken();
      ghost var before := zones;
      FinishedKeepEmpty(old(zones), before, zoneSize, lifetime);
      if !got {
        return Spins;
      }
      var zone := AllocateEmptyZone(lifetime, ByFile);
      TakeTokens(before, zones, zone, ByFile);
      if zone.None? {
        active, pendingActive := active - 1, pendingActive - 1;
        open, pendingOpen := open - 1, pendingOpen - 1;
        return NoZone;
      }
      var z := zone.value;
      LifetimeNotCounted(zones, z, lifetime);
      zones := zones[z := zones[z].(lifetime := lifetime)];
      pendingActive, pendingOpen := pendingActive - 1, pendingOpen - 1;
      return Got(z);
    }

    /** A write to a held zone, by its file or by the migration that holds it. */
    method Write(i: nat, size: nat, charge: nat)
      requires Valid() && i < |zones| && zones[i].holder != Free && size <= zones[i].capacity
      requires zones[i].written + size == 0 ==> charge == 0
      modifies this`zones
      ensures Valid()
      ensures zones == old(zones)[i := old(zones)[i].(written := old(zones)[i].written + size,
                                                      capacity := old(zones)[i].capacity - size,
                                                      used := old(zones)[i].used + charge)]
    {
      var z := zones[i].(written := zones[i].written + size, capacity := zones[i].capacity - size,
        used := zones[i].used + charge);
      CountUpdate(zones, HoldsActive, i, z);
      CountUpdate(zones, HoldsOpen, i, z);
      zones := zones[i := z];
    }

    /** The end of an extent: its bytes in the zone are not used any more. */
    method Drop(i: nat, length: nat)
      requires Valid() && i < |zones| && length <= zones[i].used
      modifies this`zones
      ensures Valid() && zones == old(zones)[i := old(zones)[i].(used := old(zones)[i].used - length)]
    {
      var z := zones[i].(used := zones[i].used - length);
      CountUpdate(zones, HoldsActive, i, z);
      CountUpdate(zones, HoldsOpen, i, z);
      zones := zones[i := z];
    }

    /** ZoneFile::CloseActiveZone: the open token is given back, the active one only if the
        zone is full. Closing a zone that is still empty loses its active token. */
    method CloseActiveZone(i: nat)
      requires Valid() && i < |zones| && zones[i].holder == ByFile
      modifies this
      ensures Valid() && zones == old(zones)[i := old(zones)[i].(holder := Free)]
      ensures open == old(open) - 1 && active == old(active) - (if zones[i].IsFull() then 1 else 0)
      ensures lostActive == old(lostActive) + (if zones[i].IsEmpty() then 1 else 0) && lostOpen == old(lostOpen)
      ensures pendingActive == old(pendingActive) && pendingOpen == old(pendingOpen)
    {
      var full := zones[i].IsFull();
      CountUpdate(zones, HoldsActive, i, zones[i].(holder := Free));
      CountUpdate(zones, HoldsOpen, i, zones[i].(holder := Free));
      zones := zones[i := zones[i].(holder := Free)];
      open := open - 1;
      if full {
        active := active - 1;
      } else if zones[i].IsEmpty() {
        lostActive := lostActive + 1;
      }
    }

    /** ResetUnusedIOZones: resets every free zone that has data but none in use. A partially
        written one gives its active token back. */
    method ResetUnusedIOZones()
      requires Valid()
      modifies this`zones, this`active
      ensures Valid() && |zones| == |old(zones)| && active <= old(active)
      ensures forall i :: 0 <= i < |zones| ==> zones[i] == AfterReset(old(zones)[i])
      ensures forall i :: 0 <= i < |zones| ==>
        var z := old(zones)[i];
        zones[i] ==
        if z.holder == Free && z.written > 0 && z.used == 0
        then z.(written := 0, capacity := z.max, lifetime := NOT_SET, resets := z.resets + 1) else z
    {
      for i := 0 to |zones|
        invariant Valid() && |zones| == |old(zones)| && active <= old(active)
        invariant forall k :: 0 <= k < i ==> zones[k] == AfterReset(old(zones)[k])
        invariant forall k :: i <= k < |zones| ==> zones[k] == old(zones)[k]
      {
        if zones[i].holder == Free && !zones[i].IsEmpty() && !zones[i].IsUsed() {
          var full := zones[i].IsFull();
          CountUpdate(zones, HoldsActive, i, Reset(zones[i]));
          CountUpdate(zones, HoldsOpen, i, Reset(zones[i]));
          zones := zones[i := Reset(zones[i])];
          if !full {
            active := active - 1;
          }
        }
      }
    }

    /** TakeMigrateZone: a partially written zone, without any token of its own. */
    method TakeMigrateZone(lifetime: nat, minCapacity: nat) returns (zone: Option<nat>)
      requires Valid() && lifetime <= EXTREME
      modifies this`zones
      ensures Valid() && TakenFrom(old(zones), zones, zone, ByMigration)
      ensures zone.Some? ==> BestMatch(old(zones), |old(zones)|, zone.value, lifetime, minCapacity)
      ensures zone.None? ==> NoMatch(old(zones), |old(zones)|, minCapacity)
    {
      hide BestMatch, NoMatch, ActiveCount, OpenCount, LifeTimeDiff;
      var best;
      best, zone := GetBestOpenZoneMatch(lifetime, minCapacity, ByMigration);
      TakeTokens(old(zones), zones, zone, ByMigration);
    }

    /** ReleaseMigrateZone: nothing is given back, so the active token of a zone that the
        migration filled is lost. */
    method ReleaseMigrateZone(i: nat)
      requires Valid() && i < |zones| && zones[i].holder == ByMigration
      modifies this`zones, this`lostActive
      ensures Valid() && zones == old(zones)[i := old(zones)[i].(holder := Free)]
      ensures lostActive == old(lostActive) + (if zones[i].IsPartial() then 0 else 1)
    {
      CountUpdate(zones, HoldsActive, i, zones[i].(holder := Free));
      CountUpdate(zones, HoldsOpen, i, zones[i].(holder := Free));
      zones := zones[i := zones[i].(holder := Free)];
      if !zones[i].IsPartial() {
        lostActive := lostActive + 1;
      }
    }

    /** GetMigrateTargetZone: the most worn empty zone if an active token is free, else the
        suitable zone with the highest score. The open token is given back only when there
        was an empty zone but no active token for it. */
    method GetMigrateTargetZone(lifetime: nat, minCapacity: nat) returns (r: Allocation)
      requires Valid() && lifetime <= EXTREME
      modifies this
      ensures Valid() && !r.Spins? && |zones| == |old(zones)|
      ensures r.Blocks? <==> old(open) >= maxOpen
      ensures r.Got? ==> r.zone < |old(zones)| && old(zones)[r.zone].holder == Free
      ensures r.Got? ==>
        var z := old(zones)[r.zone];
        var own := if z.IsEmpty() then lifetime else z.lifetime;
        zones == old(zones)[r.zone := z.(holder := ByMigration, lifetime := own)]
      ensures !r.Got? ==> zones == old(zones)
      ensures r.Got? ==>
        if !NoEmpty(old(zones), |old(zones)|) &&
            old(active) < maxActive then BestEmpty(old(zones), |zones|, r.zone, NOT_SET)
        else BestTarget(old(zones), |zones|, r.zone, lifetime, minCapacity)
      ensures r.NoZone? ==> NoEmpty(old(zones), |old(zones)|) || old(active) >= maxActive
      ensures r.NoZone? ==> NoTarget(old(zones), |old(zones)|, lifetime, minCapacity)
      ensures old(active) <= maxActive ==> active <= maxActive
      ensures old(open) <= maxOpen ==> open <= maxOpen
      ensures open - old(open) == lostOpen - old(lostOpen)
      ensures pendingActive == old(pendingActive) && pendingOpen == old(pendingOpen)
      ensures open == old(open) + (if r.Blocks? ||
        (!NoEmpty(old(zones), |old(zones)|) && old(active) >= maxActive) then 0 else 1)
      ensures active == old(active) + (if r.Got? && old(zones)[r.zone].IsEmpty() then 1 else 0)
    {
      hide ActiveCount, OpenCount, BestTarget, NoTarget, LifeTimeDiff, Count;
      if open >= maxOpen {
        return Blocks;
      }
      open := open + 1;
      lostOpen := lostOpen + 1;
      var zone := AllocateEmptyZone(NOT_SET, ByMigration);
      TakeTokens(old(zones), zones, zone, ByMigration);
      if zone.Some? {
        var z := zone.value;
        if active < maxActive {
          active := active + 1;
          LifetimeNotCounted(zones, z, lifetime);
          zones := zones[z := zones[z].(lifetime := lifetime)];
          return Got(z);
        }
        open, lostOpen := open - 1, lostOpen - 1;
        zones := zones[z := zones[z].(holder := Free)];
        assert zones == old(zones);
      }
      var target := MostWornSuitable(lifetime, minCapacity);
      TakeTokens(old(zones), zones, target, ByMigration);
      return if target.Some? then Got(target.value) else NoZone;
    }

    /** The second search of GetMigrateTargetZone. */
    method MostWornSuitable(lifetime: nat, minCapacity: nat) returns (target: Option<nat>)
      requires WellFormed()
      modifies this`zones
      ensures TakenFrom(old(zones), zones, target, ByMigration) && |zones| == |old(zones)|
      ensures target.Some? ==> BestTarget(old(zones), |zones|, target.value, lifetime, minCapacity)
      ensures target.Some? ==> old(zones)[target.value].used > 0 && !old(zones)[target.value].IsFull()
      ensures target.None? ==> NoTarget(old(zones), |old(zones)|, lifetime, minCapacity)
    {
      target := None;
      var score := 0;
      for i := 0 to |zones|
        invariant TakenFrom(old(zones), zones, target, ByMigration) && |zones| == |old(zones)|
        invariant forall k :: 0 <= k < |zones| ==> old(zones)[k].max > 0
        invariant target.None? ==> forall k :: 0 <= k < i ==> !Suitable(old(zones)[k], lifetime, minCapacity)
        invariant target.Some? ==> BestTarget(old(zones), i, target.value, lifetime, minCapacity)
        invariant target.Some? ==> score == Score(old(zones)[target.value])
      {
        assert zones[i] == old(zones)[i];
        if zones[i].holder == Free {
          zones := zones[i := zones[i].(holder := ByMigration)];
          var z := zones[i];
          var better := target.None? || Score(z) > score ||
            (Score(z) == score && z.resets > zones[target.value].resets);
          if z.used > 0 && !z.IsFull() && z.capacity >= minCapacity && better &&
              LifeTimeDiff(z.lifetime, lifetime) != NOT_GOOD {
            if target.Some? {
              zones := zones[target.value := zones[target.value].(holder := Free)];
              assert zones == old(zones)[i := zones[i]];
            }
            target, score := Some(i), Score(z);
          } else {
            zones := zones[i := zones[i].(holder := Free)];
            assert TakenFrom(old(zones), zones, target, ByMigration);
          }
        }
      }
    }
  }

  datatype Op =
    | AllocateOp(lifetime: nat, wal: bool)
    | WriteOp(zone: nat, size: nat, charge: nat)
    | CloseOp(zone: nat)
    | DropOp(zone: nat, length: nat)
    | ResetOp
    | TakeOp(lifetime: nat, minCapacity: nat)
    | TargetOp(lifetime: nat, minCapacity: nat)
    | ReleaseOp(zone: nat)

  /** The tokens cover the zones that need them and keep within the limits of the device. */
  ghost predicate WithinLimits(dev: ZonedBlockDevice)
    reads dev
  {
    && Count(dev.zones, PartialOrFresh) <= dev.active <= dev.maxActive
    && OpenCount(dev.zones) <= dev.open <= dev.maxOpen
  }

  datatype Shot = Shot(zones: Zones, active: int, open: int)

  ghost function ShotOf(dev: ZonedBlockDevice): Shot
    reads dev
  {
    Shot(dev.zones, dev.active, dev.open)
  }

  /** What one operation does. An allocation or a migration comes back without a zone only if it waits
      for an open token or there is none for it; what cannot be done changes nothing. */
  ghost predicate Did(op: Op, a: Shot, b: Shot, maxOpen: nat) {
    var n := |a.zones|;
    match op
    case AllocateOp(lifetime, wal) =>
      if lifetime > EXTREME then b == a
      else if a.open >= OpenLimit(maxOpen, wal) then b.open == a.open && SameBusy(a.zones, b.zones, None)
      else if b.open == a.open then NoEmpty(a.zones, n) && SameBusy(a.zones, b.zones, None)
      else b.open == a.open + 1 && exists z: nat :: z < n && SameBusy(a.zones, b.zones, Some(z))
    case WriteOp(i, size, charge) =>
      if i < n && a.zones[i].holder != Free && size <= a.zones[i].capacity && a.zones[i].written + size > 0 then
        var z := a.zones[i];
        var now := z.(written := z.written + size, capacity := z.capacity - size, used := z.used + charge);
        b == a.(zones := a.zones[i := now])
      else b == a
    case CloseOp(i) =>
      if i < n && a.zones[i].holder == ByFile then
        b == Shot(a.zones[i := a.zones[i].(holder := Free)], a.active - if a.zones[i].capacity == 0 then 1 else 0,
                  a.open - 1)
      else b == a
    case DropOp(i, length) =>
      if i < n && length <= a.zones[i].used then
        b == a.(zones := a.zones[i := a.zones[i].(used := a.zones[i].used - length)])
      else b == a
    case ResetOp =>
      b.open == a.open && |b.zones| == n && forall i :: 0 <= i < n ==> b.zones[i] == AfterReset(a.zones[i])
    case TakeOp(lifetime, minCapacity) =>
      if lifetime > EXTREME then b == a
      else
        b == a.(zones := b.zones) &&
          if b.zones == a.zones then NoMatch(a.zones, n, minCapacity)
          else exists z: nat ::
            BestMatch(a.zones, n, z, lifetime, minCapacity) && TakenFrom(a.zones, b.zones, Some(z), ByMigration)
    case TargetOp(lifetime, minCapacity) =>
      if lifetime > EXTREME then b == a
      else if b.zones == a.zones then a.open >= maxOpen || NoTarget(a.zones, n, lifetime, minCapacity)
      else exists z: nat :: z < n && a.zones[z].holder == Free && SameButMoved(a.zones, b.zones, z)
    case ReleaseOp(i) =>
      if i < n && a.zones[i].holder == ByMigration then
        b == a.(zones := a.zones[i := a.zones[i].(holder := Free)])
      else b == a
  }

  /** Only zone z changed, which a migration holds. */
  predicate SameButMoved(a: Zones, b: Zones, z: nat)
    requires z < |a|
  {
    |b| == |a| && b == a[z := b[z]] && b[z].holder == ByMigration
  }

  /** One operation. It fails if it finishes zones for ever. */
  method Operate(dev: ZonedBlockDevice, op: Op) returns (ok: bool)
    requires dev.Valid() && 1 <= dev.maxOpen && dev.active <= dev.maxActive && dev.open <= dev.maxOpen
    modifies dev
    ensures dev.Valid() && dev.active <= dev.maxActive && dev.open <= dev.maxOpen
    ensures ok ==> dev.pendingOpen == old(dev.pendingOpen) && Did(op, old(ShotOf(dev)), ShotOf(dev), dev.maxOpen)
    ensures !op.TargetOp? ==> dev.lostOpen == old(dev.lostOpen)
    ensures !ok ==> op.AllocateOp? && NoVictim(dev.zones, |dev.zones|) && dev.active >= dev.maxActive
  {
    hide ActiveCount, OpenCount, Count, NoVictim, BestMatch, NoMatch, BestEmpty, BestTarget, NoEmpty, NoTarget,
      AfterThreshold, AfterReset, LifeTimeDiff, SameBusy, TakenFrom, Closer, Reused, Opened, NothingToReuse, MadeRoom,
      WorseTarget, Suits;
    ghost var before := dev.zones;
    match op {
      case AllocateOp(lifetime, wal) =>
        if lifetime <= EXTREME {
          var r, mid := dev.AllocateIOZone(lifetime, wal);
          if r.Spins? {
            return false;
          }
          if r.NoZone? { ThresholdKeepsEmpty(before, mid, wal, dev.finishThreshold, dev.zoneSize); }
        }
      case WriteOp(i, size, charge) =>
        if i < |dev.zones| && dev.zones[i].holder != Free && size <= dev.zones[i].capacity &&
            dev.zones[i].written + size > 0 {
          dev.Write(i, size, charge);
        }
      case CloseOp(i) => if i < |dev.zones| && dev.zones[i].holder == ByFile { dev.CloseActiveZone(i); }
      case DropOp(i, length) => if i < |dev.zones| && length <= dev.zones[i].used { dev.Drop(i, length); }
      case ResetOp => dev.ResetUnusedIOZones();
      case TakeOp(lifetime, minCapacity) =>
        if lifetime <= EXTREME {
          var zone := dev.TakeMigrateZone(lifetime, minCapacity);
          TakenChanges(before, dev.zones, zone);
        }
      case TargetOp(lifetime, minCapacity) =>
        if lifetime <= EXTREME { var _ := dev.GetMigrateTargetZone(lifetime, minCapacity); }
      case ReleaseOp(i) => if i < |dev.zones| && dev.zones[i].holder == ByMigration { dev.ReleaseMigrateZone(i); }
    }
    return true;
  }

  lemma ThresholdKeepsEmpty(a: Zones, mid: Zones, wal: bool, threshold: nat, zoneSize: nat)
    requires |mid| == |a| && forall i :: 0 <= i < |mid| ==>
      mid[i] == if wal then a[i] else AfterThreshold(a[i], threshold, zoneSize)
    requires NoEmpty(mid, |mid|)
    ensures NoEmpty(a, |a|)
  {
    assert forall i :: 0 <= i < |a| && FreeEmpty(a[i]) ==> mid[i] == a[i];
  }

  lemma TakenChanges(a: Zones, b: Zones, zone: Option<nat>)
    requires TakenFrom(a, b, zone, ByMigration)
    ensures b == a <==> zone.None?
  {
    if zone.Some? { assert b[zone.value].holder != a[zone.value].holder; }
  }

  /** Every run of allocations, writes, closes, drops, resets and migrations, by files and by
      both kinds of migration: a device that is within its limits stays so, and while nothing
      is taken for wear leveling, files hold exactly as many zones as there are open tokens.
      `ran` is how far the run came: it ends at an allocation that finishes zones for ever. `shots` are
      the states that it went through. */
  method Run(dev: ZonedBlockDevice, ops: seq<Op>) returns (ran: nat, ghost shots: seq<Shot>)
    requires dev.Valid() && 1 <= dev.maxOpen && dev.active <= dev.maxActive && dev.open <= dev.maxOpen
    modifies dev
    ensures dev.Valid() && WithinLimits(dev) && ran <= |ops| && |shots| == ran + 1 && shots[0] == old(ShotOf(dev))
    ensures forall k :: 0 <= k < ran ==> Did(ops[k], shots[k], shots[k + 1], dev.maxOpen)
    ensures ran == |ops| ==> shots[ran] == ShotOf(dev)
    ensures ran < |ops| ==> ops[ran].AllocateOp? && NoVictim(dev.zones, |dev.zones|) && dev.active >= dev.maxActive
    ensures ran == |ops| && (forall op <- ops :: !op.TargetOp?) && old(dev.lostOpen) == old(dev.pendingOpen) == 0
      ==> OpenCount(dev.zones) == dev.open
  {
    hide ActiveCount, OpenCount, Count, NoVictim, Did;
    ran, shots := 0, [ShotOf(dev)];
    while ran < |ops|
      invariant ran <= |ops| && dev.Valid() && dev.active <= dev.maxActive && dev.open <= dev.maxOpen
      invariant dev.pendingOpen == old(dev.pendingOpen)
      invariant |shots| == ran + 1 && shots[0] == old(ShotOf(dev)) && shots[ran] == ShotOf(dev)
      invariant forall k :: 0 <= k < ran ==> Did(ops[k], shots[k], shots[k + 1], dev.maxOpen)
      invariant (forall op <- ops[..ran] :: !op.TargetOp?) ==> dev.lostOpen == old(dev.lostOpen)
    {
      var op := ops[ran];
      assert op in ops[..ran + 1] && forall o <- ops[..ran] :: o in ops[..ran + 1];
      var ok := Operate(dev, op);
      if !ok {
        TokensCoverZones(dev);
        return;
      }
      ran, shots := ran + 1, shots + [ShotOf(dev)];
    }
    assert ops[..ran] == ops;
    TokensCoverZones(dev);
  }

  lemma {:induction false} CountMonotone(zs: Zones, p: Zone -> bool, q: Zone -> bool)
    requires forall z :: p(z) ==> q(z)
    ensures Count(zs, p) <= Count(zs, q)
  {
    if zs != [] { CountMonotone(zs[..|zs| - 1], p, q); }
  }

  /** Partially written zones, and fresh ones that somebody holds. */
  predicate PartialOrFresh(z: Zone) { z.IsPartial() || (z.IsEmpty() && z.holder != Free) }

  /** The device never has more partially written and freshly allocated zones than active
      tokens, nor more zones held by files than open tokens; without wear leveling and
      outside of allocations there are exactly as many open tokens as zones held by files. */
  lemma TokensCoverZones(dev: ZonedBlockDevice)
    requires dev.Valid()
    ensures Count(dev.zones, PartialOrFresh) <= dev.active && OpenCount(dev.zones) <= dev.open
    ensures dev.lostOpen == dev.pendingOpen == 0 ==> OpenCount(dev.zones) == dev.open
  {
    CountMonotone(dev.zones, PartialOrFresh, HoldsActive);
  }

  /** What ResetUnusedIOZones does to one zone: it never resets a zone with used capacity. */
  function AfterReset(z: Zone): Zone {
    if z.holder == Free && !z.IsEmpty() && !z.IsUsed() then Reset(z) else z
  }

  predicate SameOrFinished(a: Zone, b: Zone, zoneSize: nat) {
    b == a || (Victim(a) && b == Finished(a, zoneSize))
  }

  lemma ThresholdKeepsBusy(a: Zones, b: Zones, threshold: nat, zoneSize: nat)
    requires |a| == |b| && forall i :: 0 <= i < |a| ==> b[i] == AfterThreshold(a[i], threshold, zoneSize)
    ensures SameBusy(a, b, None)
  {
  }

  /** Finishing zones does not touch free empty ones, nor any busy flag. */
  lemma FinishedKeepEmpty(a: Zones, b: Zones, zoneSize: nat, lifetime: nat)
    requires 0 < zoneSize && |a| == |b| && forall i :: 0 <= i < |a| ==> SameOrFinished(a[i], b[i], zoneSize)
    ensures SameBusy(a, b, None)
    ensures NoEmpty(b, |b|) ==> NoEmpty(a, |a|)
    ensures forall z: nat :: BestEmpty(b, |b|, z, lifetime) ==> BestEmpty(a, |a|, z, lifetime) && a[z] == b[z]
  {
    assert forall i :: 0 <= i < |a| ==> (FreeEmpty(b[i]) <==> FreeEmpty(a[i])) && (FreeEmpty(b[i]) ==> a[i] == b[i]);
  }

  lemma LifetimeNotCounted(zs: Zones, z: nat, lifetime: nat)
    requires z < |zs|
    ensures ActiveCount(zs[z := zs[z].(lifetime := lifetime)]) == ActiveCount(zs)
    ensures OpenCount(zs[z := zs[z].(lifetime := lifetime)]) == OpenCount(zs)
  {
    CountUpdate(zs, HoldsActive, z, zs[z].(lifetime := lifetime));
    CountUpdate(zs, HoldsOpen, z, zs[z].(lifetime := lifetime));
  }

  /** A zone with data was handed out. A file without a hint gets only a zone of its own lifetime. Any
      other gets one that outlives it, and no zone has a lifetime in between; or one of its own lifetime,
      if none outlives it and there was no active token for a new zone. */
  predicate Reused(mid: Zones, zones: Zones, z: nat, lifetime: nat, noToken: bool) {
    && z < |mid| && Eligible(mid[z], 0) && zones == mid[z := mid[z].(holder := ByFile)]
    && var own := mid[z].lifetime;
      if lifetime < SHORT then own == lifetime
      else if own == lifetime then
        noToken && forall i :: 0 <= i < |mid| && Eligible(mid[i], 0) ==> mid[i].lifetime <= lifetime
      else
        own > lifetime && forall i :: 0 <= i < |mid| && Eligible(mid[i], 0) ==>
          mid[i].lifetime <= lifetime || own <= mid[i].lifetime
  }

  /** No zone with data may be given to a file: there is none of its own lifetime, if it has no hint,
      else none that outlives it; and none of its own lifetime unless a token for a new zone is free. */
  predicate NothingToReuse(zs: Zones, lifetime: nat, token: bool) {
    forall i :: 0 <= i < |zs| && Eligible(zs[i], 0) ==>
      if lifetime < SHORT then zs[i].lifetime != lifetime
      else zs[i].lifetime < lifetime || (zs[i].lifetime == lifetime && token)
  }

  lemma TakenBusy(a: Zones, mid: Zones, b: Zones, zone: Option<nat>)
    requires SameBusy(a, mid, None) && TakenFrom(mid, b, zone, ByFile)
    ensures SameBusy(a, b, zone) && |b| == |mid| && (zone.None? ==> b == mid)
    ensures zone.Some? ==> zone.value < |mid| && b[zone.value := b[zone.value].(holder := Free)] == mid
    ensures (forall i :: 0 <= i < |mid| ==> mid[i].WellFormed()) ==> forall i :: 0 <= i < |b| ==> b[i].WellFormed()
  {
  }

  lemma BusyItself(zs: Zones)
    ensures SameBusy(zs, zs, None)
  {
  }

  lemma BusyThen(a: Zones, mid: Zones, b: Zones, zone: Option<nat>)
    requires SameBusy(a, mid, None) && SameBusy(mid, b, zone)
    ensures SameBusy(a, b, zone)
  {
  }

  /** What the search for a zone with data found. */
  lemma MatchMeans(mid: Zones, zones: Zones, best: nat, zone: Option<nat>, lifetime: nat, token: bool)
    requires TakenFrom(mid, zones, zone, ByFile)
    requires zone.None? ==> best == NOT_GOOD && NoMatch(mid, |mid|, 0)
    requires zone.Some? ==> BestMatch(mid, |mid|, zone.value, lifetime, 0)
    requires zone.Some? ==> best <= NOT_GOOD && (best != NOT_GOOD <==> Suits(mid[zone.value].lifetime, lifetime))
    requires zone.Some? ==> (best == COULD_BE_WORSE <==> SHORT <= lifetime == mid[zone.value].lifetime)
    requires COULD_BE_WORSE < best ==> best == NOT_GOOD
    ensures best < COULD_BE_WORSE || (best == COULD_BE_WORSE && !token) ==>
      zone.Some? && Reused(mid, zones, zone.value, lifetime, !token)
    ensures best == NOT_GOOD || (best == COULD_BE_WORSE && token) ==> NothingToReuse(mid, lifetime, token)
  {
  }

  /** Free zones may have been finished to get an active token, none if there was one, and only those
      with the least room; all other zones, but for the one that was opened, are as they were. */
  predicate MadeRoom(a: Zones, b: Zones, zone: Option<nat>, token: bool, zoneSize: nat) {
    && |a| == |b|
    && (forall i :: 0 <= i < |a| && zone != Some(i) ==>
          b[i] == a[i] || (!token && Victim(a[i]) && b[i] == a[i].(written := zoneSize, capacity := 0)))
    && CheapestFinished(a, b)
  }

  /** No zone was finished while one with less room was left. */
  predicate CheapestFinished(a: Zones, b: Zones) {
    && |a| == |b|
    && forall i, j :: 0 <= i < |a| && 0 <= j < |a| && a[i].capacity > 0 && b[i].capacity == 0 && Victim(b[j]) ==>
         a[i].capacity <= b[j].capacity
  }

  lemma NoneFinished(a: Zones, zoneSize: nat)
    ensures CheapestFinished(a, a) && forall i :: 0 <= i < |a| ==> SameOrFinished(a[i], a[i], zoneSize)
  {
  }

  lemma FinishedNext(a: Zones, b: Zones, v: nat, zoneSize: nat)
    requires |a| == |b| && CheapestFinished(a, b) && Cheapest(b, |b|, v)
    requires forall i :: 0 <= i < |a| ==> SameOrFinished(a[i], b[i], zoneSize)
    ensures var c := b[v := b[v].(written := zoneSize, capacity := 0)];
      CheapestFinished(a, c) && forall i :: 0 <= i < |a| ==> SameOrFinished(a[i], c[i], zoneSize)
  {
  }

  /** An empty zone was handed out, by wear, with the lifetime of the file. */
  predicate Opened(mid: Zones, zones: Zones, z: nat, lifetime: nat) {
    && BestEmpty(mid, |mid|, z, lifetime) && z < |zones|
    && zones[z] == mid[z].(holder := ByFile, lifetime := lifetime)
  }

  /** In a sequential run, when all active tokens are taken there is a zone to finish: files
      hold fewer zones than there are active tokens. */
  lemma VictimExists(zs: Zones, open: int, lostOpen: nat, maxOpen: nat, maxActive: nat)
    requires open == OpenCount(zs) + 1 + lostOpen && open <= maxOpen <= maxActive
    requires ActiveCount(zs) >= maxActive
    requires forall i :: 0 <= i < |zs| ==> zs[i].holder != ByMigration
    ensures !NoVictim(zs, |zs|)
  {
    var i := MoreThan(zs, HoldsActive, HoldsOpen);
    assert Victim(zs[i]);
  }

  lemma {:induction false} NoneHeld(zs: Zones)
    requires forall i :: 0 <= i < |zs| ==> zs[i].holder == Free
    ensures OpenCount(zs) == 0
  {
    if zs != [] { NoneHeld(zs[..|zs| - 1]); }
  }
}
