/** The cache of open zone files of the zonefs backend: a list with an index, which must
    behave like a bounded recency list. */
module FdCache {

  import opened Common

  function Take(s: seq<nat>, n: nat): seq<nat> {
    if |s| <= n then s else s[..n]
  }

  /** `unsigned` arithmetic: `max_ - 1` for an empty cache is the largest number. */
  function Pred(max: nat): (r: nat)
    ensures 1 <= max < 0x1_0000_0000 ==> r == max - 1
  {
    (max - 1) % 0x1_0000_0000
  }

  // ---------- the reference: zones in order of recency ----------

  datatype Op = Get(zone: nat, opens: bool) | Put(zone: nat) | Resize(size: nat)

  datatype Lru = Lru(zones: seq<nat>, max: nat)

  function Apply(c: Lru, op: Op): Lru {
    match op
    case Get(z, opens) =>
      if z in c.zones then c.(zones := [z] + Without(c.zones, z))
      else if opens then c.(zones := [z] + Take(c.zones, Pred(c.max)))
      else c
    case Put(z) => c.(zones := Without(c.zones, z))
    case Resize(n) => Lru(if n < c.max then Take(c.zones, n) else c.zones, n)
  }

  function Replay(max: nat, ops: seq<Op>): Lru {
    if ops == [] then Lru([], max) else Apply(Replay(max, ops[..|ops| - 1]), ops[|ops| - 1])
  }

  /** When zone z was last returned by Get in a trace: 0 for never, else its position + 1. */
  function LastUse(ops: seq<Op>, z: nat): (t: nat)
    ensures t <= |ops|
  {
    if ops == [] then 0
    else
      var op := ops[|ops| - 1];
      if op.Get? && op.zone == z then |ops| else LastUse(ops[..|ops| - 1], z)
  }

  /** Strictly descending time of last use. */
  predicate ByRecency(zones: seq<nat>, ops: seq<Op>) {
    forall i, j :: 0 <= i < j < |zones| ==> LastUse(ops, zones[i]) > LastUse(ops, zones[j])
  }

  predicate Sizes(max: nat, ops: seq<Op>) {
    1 <= max < 0x1_0000_0000 && forall op <- ops :: op.Resize? ==> 1 <= op.size < 0x1_0000_0000
  }

  /** The first occurrence is cut out. */
  lemma {:induction false} WithoutSplit(s: seq<nat>, z: nat) returns (p: nat)
    requires z in s
    ensures p < |s| && s[p] == z && Without(s, z) == s[..p] + s[p + 1..]
  {
    if s[0] == z {
      p := 0;
    } else {
      var q := WithoutSplit(s[1..], z);
      p := q + 1;
      assert s[..p] == [s[0]] + s[1..][..q];
    }
  }

  /** The list without zone z, and all else in its order. */
  predicate CutOut(s: seq<nat>, r: seq<nat>, z: nat) {
    if z in s then exists p :: 0 <= p < |s| && s[p] == z && r == s[..p] + s[p + 1..] else r == s
  }

  lemma WithoutCuts(s: seq<nat>, z: nat)
    ensures CutOut(s, Without(s, z), z)
  {
    if z in s {
      var p := WithoutSplit(s, z);
    }
  }

  /** What every operation does to list and limit, in the words of a recency list: a hit moves the
      zone to the front, a miss puts it there and drops only what then exceeds the limit. */
  lemma EveryOperation(c: Lru, op: Op)
    requires c.max < 0x1_0000_0000
    ensures var r := Apply(c, op);
      match op
      case Get(z, opens) =>
        r.max == c.max &&
          if z in c.zones then exists rest :: CutOut(c.zones, rest, z) && r.zones == [z] + rest
          else if !opens then r.zones == c.zones
          else c.max >= 1 ==> r.zones == [z] + c.zones[..Min(|c.zones|, c.max - 1)]
      case Put(z) => r.max == c.max && CutOut(c.zones, r.zones, z)
      case Resize(n) => r.max == n && (|c.zones| <= c.max ==> r.zones == c.zones[..Min(|c.zones|, n)])
  {
    hide CutOut, Without;
    match op
    case Get(z, _) => WithoutCuts(c.zones, z);
    case Put(z) => WithoutCuts(c.zones, z);
    case Resize(_) =>
  }

  lemma NoTwice(s: seq<nat>, ops: seq<Op>)
    requires ByRecency(s, ops)
    ensures NoDup(s)
  {
    forall i, j | 0 <= i < j < |s|
      ensures s[i] != s[j]
    {
      assert LastUse(ops, s[i]) > LastUse(ops, s[j]);
    }
  }

  lemma WithoutByRecency(s: seq<nat>, z: nat, ops: seq<Op>)
    requires ByRecency(s, ops)
    ensures ByRecency(Without(s, z), ops) && z !in Without(s, z)
    ensures forall y :: y in Without(s, z) ==> y in s
    ensures forall y :: y in s && y != z ==> y in Without(s, z)
  {
    hide LastUse, Without;
    if z in s {
      var p := WithoutSplit(s, z);
      NoTwice(s, ops);
      assert s == s[..p] + [z] + s[p + 1..];
    } else {
      NotThere(s, z);
    }
  }

  lemma NotThere(s: seq<nat>, z: nat)
    requires z !in s
    ensures Without(s, z) == s
  {
  }

  /** An operation that does not use zone y leaves its time of last use. */
  lemma LaterUse(ops: seq<Op>, op: Op, y: nat)
    ensures LastUse(ops + [op], y) == if op.Get? && op.zone == y then |ops| + 1 else LastUse(ops, y)
  {
    assert (ops + [op])[..|ops|] == ops;
  }

  lemma ByRecencyLater(s: seq<nat>, ops: seq<Op>, op: Op)
    requires ByRecency(s, ops) && (op.Get? ==> op.zone !in s)
    ensures ByRecency(s, ops + [op])
    ensures op.Get? ==> ByRecency([op.zone] + s, ops + [op])
  {
    forall i | 0 <= i < |s|
      ensures LastUse(ops + [op], s[i]) == LastUse(ops, s[i])
    {
      LaterUse(ops, op, s[i]);
    }
    if op.Get? { LaterUse(ops, op, op.zone); }
  }

  lemma PrefixByRecency(s: seq<nat>, n: nat, ops: seq<Op>)
    requires ByRecency(s, ops)
    ensures ByRecency(Take(s, n), ops)
    ensures forall x, y :: x in s && x !in Take(s, n) && y in Take(s, n) ==> LastUse(ops, y) > LastUse(ops, x)
  {
    var t := Take(s, n);
    forall x, y | x in s && x !in t && y in t
      ensures LastUse(ops, y) > LastUse(ops, x)
    {
      var i :| 0 <= i < |s| && s[i] == x;
      var j :| 0 <= j < |t| && t[j] == y;
      assert forall k :: 0 <= k < |t| ==> s[k] in t;
    }
  }

  /** After any trace the list is in exact order of recency and not longer than its limit. */
  lemma {:induction false} TraceByRecency(max: nat, ops: seq<Op>)
    requires Sizes(max, ops)
    ensures var c := Replay(max, ops);
      ByRecency(c.zones, ops) && |c.zones| <= c.max && 1 <= c.max < 0x1_0000_0000
  {
    if ops != [] {
      var front, op := ops[..|ops| - 1], ops[|ops| - 1];
      assert ops == front + [op] && op in ops;
      TraceByRecency(max, front);
      StepByRecency(Replay(max, front), front, op);
    }
  }

  /** What an operation keeps of the list, before a zone is put in front. */
  function Kept(c: Lru, op: Op): seq<nat> {
    if op.Resize? then (if op.size < c.max then Take(c.zones, op.size) else c.zones)
    else if op.Put? || op.zone in c.zones then Without(c.zones, op.zone)
    else if op.opens then Take(c.zones, Pred(c.max)) else c.zones
  }

  lemma KeptByRecency(c: Lru, ops: seq<Op>, op: Op)
    requires ByRecency(c.zones, ops)
    ensures ByRecency(Kept(c, op), ops) && (op.Get? ==> op.zone !in Kept(c, op))
    ensures forall x, y :: x in c.zones && x !in Kept(c, op) && y in Kept(c, op)
              ==> (!op.Resize? && op.zone == x) || LastUse(ops, y) > LastUse(ops, x)
  {
    hide LastUse, Take, Without;
    PrefixByRecency(c.zones, if op.Resize? then op.size else Pred(c.max), ops);
    if !op.Resize? {
      WithoutByRecency(c.zones, op.zone, ops);
      TakeIsPart(c.zones, Pred(c.max));
    }
  }

  lemma StepByRecency(c: Lru, ops: seq<Op>, op: Op)
    requires ByRecency(c.zones, ops) && |c.zones| <= c.max && 1 <= c.max < 0x1_0000_0000
    requires op.Resize? ==> op.size >= 1
    ensures ByRecency(Apply(c, op).zones, ops + [op]) && |Apply(c, op).zones| <= Apply(c, op).max
    ensures forall x, y :: x in c.zones && x !in Apply(c, op).zones && op != Put(x) && y in Apply(c, op).zones
              ==> LastUse(ops + [op], y) > LastUse(ops + [op], x)
  {
    hide LastUse, ByRecency, Without;
    KeptByRecency(c, ops, op);
    ByRecencyLater(Kept(c, op), ops, op);
    var zones := Apply(c, op).zones;
    assert zones == Kept(c, op) || (op.Get? && zones == [op.zone] + Kept(c, op));
    UseBound(ops);
    forall x, y | x in c.zones && x !in zones && op != Put(x) && y in zones
      ensures LastUse(ops + [op], y) > LastUse(ops + [op], x)
    {
      LaterUse(ops, op, x);
      LaterUse(ops, op, y);
      assert y in Kept(c, op) || (op.Get? && y == op.zone);
    }
  }

  lemma UseBound(ops: seq<Op>)
    ensures forall y :: LastUse(ops, y) <= |ops|
  {
  }

  /** Only least recently used zones are evicted: whatever an operation drops, other than by
      an explicit Put, was used before everything it keeps. */
  lemma EvictsLeastRecent(max: nat, ops: seq<Op>, op: Op, x: nat, y: nat)
    requires Sizes(max, ops + [op])
    requires x in Replay(max, ops).zones && x !in Replay(max, ops + [op]).zones && op != Put(x)
    requires y in Replay(max, ops + [op]).zones
    ensures LastUse(ops + [op], y) > LastUse(ops + [op], x)
  {
    assert (ops + [op])[..|ops|] == ops;
    assert forall o <- ops :: o in ops + [op];
    assert op in ops + [op];
    TraceByRecency(max, ops);
    StepByRecency(Replay(max, ops), ops, op);
  }

  /** With a limit of 0 the list outgrows its limit with the first file it opens; with a
      limit of at least 1 it never does. */
  lemma LimitHoldsFromOne(zones: seq<nat>, max: nat, z: nat)
    requires |zones| <= max < 0x1_0000_0000 && z !in zones
    ensures |Apply(Lru(zones, max), Get(z, true)).zones| <= max <==> max >= 1
  {
  }

  // ---------- the implementation ----------

  datatype Node = Node(zone: nat, file: nat)

  function Keys(list: seq<Node>): (r: seq<nat>)
    ensures |r| == |list| && forall i :: 0 <= i < |list| ==> r[i] == list[i].zone
  {
    if list == [] then [] else [list[0].zone] + Keys(list[1..])
  }

  /** Unlinks the node of a zone. */
  function Unlink(list: seq<Node>, z: nat): (r: seq<Node>)
    ensures Keys(r) == Without(Keys(list), z)
    ensures forall n :: n in r ==> n in list
  {
    if list == [] then []
    else if list[0].zone == z then
      assert Keys(list)[1..] == Keys(list[1..]);
      list[1..]
    else
      assert Keys(list)[1..] == Keys(list[1..]);
      var r := [list[0]] + Unlink(list[1..], z);
      assert r[1..] == Unlink(list[1..], z);
      r
  }

  /** List and index hold the same nodes, and no zone twice. */
  predicate Coherent(list: seq<Node>, index: map<nat, Node>) {
    && (forall i, j :: 0 <= i < j < |list| ==> list[i].zone != list[j].zone)
    && (forall n <- list :: n.zone in index && index[n.zone] == n)
    && (forall z <- index :: index[z] in list && index[z].zone == z)
  }

  class ZoneFsFileCache {
    var list: seq<Node>
    var index: map<nat, Node>
    var max: nat

    ghost predicate Valid()
      reads this
    {
      Coherent(list, index) && max < 0x1_0000_0000
    }

    ghost function Contents(): Lru
      reads this
    {
      Lru(Keys(list), max)
    }

    constructor (max: nat)
      requires max < 0x1_0000_0000
      ensures Valid() && Contents() == Lru([], max)
    {
      this.list, this.index, this.max := [], map[], max;
    }

    method Prune(limit: nat)
      requires Valid()
      modifies this`list, this`index
      ensures Valid() && Contents() == old(Contents()).(zones := Take(old(Contents()).zones, limit))
      ensures list == if |old(list)| <= limit then old(list) else old(list)[..limit]
    {
      hide Coherent, Keys;
      while |list| > limit
        invariant Valid() && |list| <= |old(list)| && list == old(list)[..|list|]
        invariant |list| == |old(list)| || |list| >= limit
      {
        PopCoherent(list, index);
        index := index - {list[|list| - 1].zone};
        list := list[..|list| - 1];
      }
      KeysOfPrefix(old(list), |list|);
    }

    /** Returns the file of a zone, opening it if necessary; `fd` is the result of open. */
    method Get(zone: nat, fd: Option<nat>) returns (file: Option<nat>)
      requires Valid()
      modifies this`list, this`index
      ensures Valid() && Contents() == Apply(old(Contents()), Op.Get(zone, fd.Some?))
      ensures file == if zone in old(index) then Some(old(index)[zone].file) else fd
      ensures file.Some? ==> zone in index && index[zone] == Node(zone, file.value)
      ensures zone !in old(index) && fd.Some? && max >= 1 ==> |list| == Min(|old(list)| + 1, max)
    {
      hide Coherent, Unlink, Keys;
      KeysAreIndexed(list, index);
      if zone !in index {
        if fd.None? {
          return None;
        }
        Prune(Pred(max));
        KeysAreIndexed(list, index);
        TakeIsPart(Keys(old(list)), Pred(max));
        var node := Node(zone, fd.value);
        PushCoherent(list, index, node);
        list := [node] + list;
        index := index[zone := node];
        return fd;
      }
      var node := index[zone];
      NodeOf(list, index, zone);
      UnlinkCoherent(list, index, zone);
      PushCoherent(Unlink(list, zone), index - {zone}, node);
      assert (index - {zone})[zone := node] == index;
      list := [node] + Unlink(list, zone);
      return Some(node.file);
    }

    method Put(zone: nat)
      requires Valid()
      modifies this`list, this`index
      ensures Valid() && Contents() == Apply(old(Contents()), Op.Put(zone))
    {
      KeysAreIndexed(list, index);
      if zone in index {
        UnlinkCoherent(list, index, zone);
        list := Unlink(list, zone);
        index := index - {zone};
      }
    }

    method Resize(size: nat)
      requires Valid() && size < 0x1_0000_0000
      modifies this
      ensures Valid() && Contents() == Apply(old(Contents()), Op.Resize(size))
    {
      if size < max {
        Prune(size);
      }
      max := size;
    }
  }

  lemma PopCoherent(list: seq<Node>, index: map<nat, Node>)
    requires Coherent(list, index) && list != []
    ensures Coherent(list[..|list| - 1], index - {list[|list| - 1].zone})
  {
    var last, front := list[|list| - 1], list[..|list| - 1];
    assert list == front + [last];
  }

  lemma KeysOfPrefix(list: seq<Node>, n: nat)
    requires n <= |list|
    ensures Keys(list[..n]) == Keys(list)[..n]
  {
  }

  lemma TakeIsPart(s: seq<nat>, n: nat)
    ensures forall z :: z in Take(s, n) ==> z in s
  {
  }

  lemma NodeOf(list: seq<Node>, index: map<nat, Node>, z: nat)
    requires Coherent(list, index) && z in index
    ensures index[z].zone == z
  {
  }

  lemma KeysAreIndexed(list: seq<Node>, index: map<nat, Node>)
    requires Coherent(list, index)
    ensures forall z :: z in Keys(list) <==> z in index
  {
    forall z
      ensures z in Keys(list) <==> z in index
    {
      if z in Keys(list) {
        var i :| 0 <= i < |list| && Keys(list)[i] == z;
        assert list[i] in list;
      }
      if z in index {
        var i :| 0 <= i < |list| && list[i] == index[z];
        assert Keys(list)[i] == z;
      }
    }
  }

  lemma {:induction false} UnlinkKeepsRest(list: seq<Node>, z: nat)
    requires forall i, j :: 0 <= i < j < |list| ==> list[i].zone != list[j].zone
    ensures var r := Unlink(list, z);
      && (forall i, j :: 0 <= i < j < |r| ==> r[i].zone != r[j].zone)
      && (forall n :: n in r <==> n in list && n.zone != z)
  {
    if list != [] {
      var tail := list[1..];
      assert list == [list[0]] + tail;
      UnlinkKeepsRest(tail, z);
      assert forall n <- tail :: n.zone != list[0].zone;
    }
  }

  lemma UnlinkCoherent(list: seq<Node>, index: map<nat, Node>, z: nat)
    requires Coherent(list, index)
    ensures Coherent(Unlink(list, z), index - {z})
  {
    hide Unlink;
    UnlinkKeepsRest(list, z);
    var r, index' := Unlink(list, z), index - {z};
    forall k | k in index'
      ensures index'[k] in r && index'[k].zone == k
    {
      assert index[k] in list;
    }
  }

  lemma PushCoherent(list: seq<Node>, index: map<nat, Node>, node: Node)
    requires Coherent(list, index) && node.zone !in index
    ensures Coherent([node] + list, index[node.zone := node])
    ensures Keys([node] + list) == [node.zone] + Keys(list)
  {
    var list', index' := [node] + list, index[node.zone := node];
    assert list'[1..] == list;
    assert forall n :: n in list' <==> n in list || n == node;
    assert forall i :: 0 <= i < |list| ==> list[i] in list;
  }
}
