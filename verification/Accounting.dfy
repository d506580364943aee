/** The used capacity of zones: what extents charge to them, before, during and after a list
    of extents is replaced. */
module Accounting {
  import opened ZoneData

  /** The bytes that a list of extents has in a zone. */
  function ZoneSum(es: seq<Ext>, z: nat): nat {
    if es == [] then 0
    else ZoneSum(es[..|es| - 1], z) + if es[|es| - 1].zone == z then es[|es| - 1].len else 0
  }

  predicate SameLengths(a: seq<Ext>, b: seq<Ext>) {
    |a| == |b| && forall k :: 0 <= k < |a| ==> a[k].len == b[k].len
  }

  /** The extents of b that start elsewhere than those of a at the same place. */
  function Moved(b: seq<Ext>, a: seq<Ext>): seq<Ext>
    requires |a| == |b|
  {
    if b == [] then []
    else
      var n := |b| - 1;
      if Pos(b[n].zone, b[n].off) != Pos(a[n].zone, a[n].off) then Moved(b[..n], a[..n]) + [b[n]]
      else Moved(b[..n], a[..n])
  }

  predicate InZone(es: seq<Ext>, z: nat) {
    exists k :: 0 <= k < |es| && es[k].zone == z
  }

  lemma ZoneSumPush(es: seq<Ext>, e: Ext, z: nat)
    ensures ZoneSum(es + [e], z) == ZoneSum(es, z) + if e.zone == z then e.len else 0
  {
    assert (es + [e])[..|es|] == es;
  }

  lemma {:induction false} NothingMoved(a: seq<Ext>)
    ensures Moved(a, a) == []
    decreases |a|
  {
    if a != [] { NothingMoved(a[..|a| - 1]); }
  }

  /** What the old list and the moved extents charge is what the new list and the extents that
      it replaces charge. */
  lemma {:induction false} SwapSum(a: seq<Ext>, b: seq<Ext>, z: nat)
    requires SameLengths(a, b)
    ensures ZoneSum(a, z) + ZoneSum(Moved(b, a), z) == ZoneSum(b, z) + ZoneSum(Moved(a, b), z)
    decreases |a|
  {
    if a != [] {
      var n := |a| - 1;
      SwapSum(a[..n], b[..n], z);
      ZoneSumPush(Moved(b[..n], a[..n]), b[n], z);
      ZoneSumPush(Moved(a[..n], b[..n]), a[n], z);
    }
  }

  /** Moving one more extent charges the zone it goes to. */
  lemma {:induction false} MoveOne(a: seq<Ext>, b: seq<Ext>, k: nat, e: Ext, z: nat)
    requires SameLengths(a, b) && k < |a| && b[k] == a[k] && Pos(e.zone, e.off) != Pos(a[k].zone, a[k].off)
    ensures ZoneSum(Moved(b[k := e], a), z) == ZoneSum(Moved(b, a), z) + if e.zone == z then e.len else 0
    decreases |a|
  {
    var n := |a| - 1;
    if k == n {
      assert b[k := e][..n] == b[..n];
      ZoneSumPush(Moved(b[..n], a[..n]), e, z);
    } else {
      assert b[k := e][..n] == b[..n][k := e];
      MoveOne(a[..n], b[..n], k, e, z);
      ZoneSumPush(Moved(b[..n], a[..n]), b[n], z);
      ZoneSumPush(Moved(b[..n][k := e], a[..n]), b[n], z);
    }
  }

  /** A zone that is charged nothing has no extent. */
  lemma {:induction false} ChargedIfThere(es: seq<Ext>, k: nat, z: nat)
    requires k < |es| && es[k].zone == z
    ensures ZoneSum(es, z) >= es[k].len
    decreases |es|
  {
    if k < |es| - 1 { ChargedIfThere(es[..|es| - 1], k, z); }
  }

  // ---------- the sum over all zones ----------

  function SumTo(f: nat -> nat, n: nat): nat {
    if n == 0 then 0 else SumTo(f, n - 1) + f(n - 1)
  }

  lemma {:induction false} SumOfParts(f: nat -> nat, g: nat -> nat, h: nat -> nat, n: nat)
    requires forall z: nat :: z < n ==> h(z) == f(z) + g(z)
    ensures SumTo(h, n) == SumTo(f, n) + SumTo(g, n)
  {
    if n > 0 { SumOfParts(f, g, h, n - 1); }
  }

  lemma {:induction false} SumOfOne(e: Ext, n: nat)
    ensures SumTo((z: nat) => if e.zone == z then e.len else 0, n) == if e.zone < n then e.len else 0
  {
    if n > 0 { SumOfOne(e, n - 1); }
  }

  lemma {:induction false} SumOfNone(n: nat)
    ensures SumTo((z: nat) => ZoneSum([], z), n) == 0
  {
    if n > 0 { SumOfNone(n - 1); }
  }

  /** Over all zones, a list charges its length. */
  lemma {:induction false} ZoneSumsAddUp(es: seq<Ext>, n: nat)
    requires forall k :: 0 <= k < |es| ==> es[k].zone < n
    ensures SumTo((z: nat) => ZoneSum(es, z), n) == Total(es)
    decreases |es|
  {
    if es == [] {
      SumOfNone(n);
    } else {
      var front, e := es[..|es| - 1], es[|es| - 1];
      ZoneSumsAddUp(front, n);
      SumOfOne(e, n);
      SumOfParts(z => ZoneSum(front, z), z => if e.zone == z then e.len else 0, z => ZoneSum(es, z), n);
    }
  }

  // ---------- disjoint extents ----------

  predicate Disjoint(d: Ext, e: Ext) {
    d.zone != e.zone || d.off + d.len <= e.off || e.off + e.len <= d.off
  }

  /** Extents at different places of the lists, or different ones, are disjoint. */
  predicate Apart(a: seq<Ext>, b: seq<Ext>) {
    forall i, j :: 0 <= i < |a| && 0 <= j < |b| && (i != j || a[i] != b[j]) ==> Disjoint(a[i], b[j])
  }

  function Span(e: Ext): (r: set<nat>)
    ensures forall c :: c in r <==> e.off <= c < e.off + e.len
    decreases e.len
  {
    if e.len == 0 then {} else Span(e.(len := e.len - 1)) + {e.off + e.len - 1}
  }

  lemma {:induction false} SpanSize(e: Ext)
    ensures |Span(e)| == e.len
    decreases e.len
  {
    if e.len > 0 { SpanSize(e.(len := e.len - 1)); }
  }

  /** The cells of a zone that a list of extents covers. */
  function Cells(es: seq<Ext>, z: nat): set<nat> {
    if es == [] then {}
    else Cells(es[..|es| - 1], z) + if es[|es| - 1].zone == z then Span(es[|es| - 1]) else {}
  }

  lemma {:induction false} CellsCovered(es: seq<Ext>, z: nat, c: nat) returns (k: nat)
    requires c in Cells(es, z)
    ensures k < |es| && es[k].zone == z && c in Span(es[k])
    decreases |es|
  {
    var n := |es| - 1;
    if es[n].zone == z && c in Span(es[n]) {
      k := n;
    } else {
      k := CellsCovered(es[..n], z, c);
    }
  }

  predicate PairwiseDisjoint(es: seq<Ext>) {
    forall i, j :: 0 <= i < j < |es| ==> Disjoint(es[i], es[j])
  }

  /** Disjoint extents charge a zone as much as they cover of it. */
  lemma {:induction false} ChargeIsCells(es: seq<Ext>, z: nat)
    requires PairwiseDisjoint(es)
    ensures ZoneSum(es, z) == |Cells(es, z)|
    decreases |es|
  {
    if es != [] {
      var n := |es| - 1;
      var front, e := es[..n], es[n];
      ChargeIsCells(front, z);
      if e.zone == z {
        SpanSize(e);
        forall c | c in Cells(front, z)
          ensures c !in Span(e)
        {
          var k := CellsCovered(front, z, c);
          assert Disjoint(es[k], es[n]);
        }
        assert Cells(front, z) !! Span(e);
        assert Cells(es, z) == Cells(front, z) + Span(e);
      }
    }
  }

  /** Where the moved extents come from. */
  lemma {:induction false} MovedFrom(b: seq<Ext>, a: seq<Ext>, i: nat) returns (k: nat)
    requires |a| == |b| && i < |Moved(b, a)|
    ensures k < |b| && Moved(b, a)[i] == b[k] && b[k] != a[k]
    decreases |b|
  {
    var n := |b| - 1;
    if i < |Moved(b[..n], a[..n])| {
      k := MovedFrom(b[..n], a[..n], i);
    } else {
      k := n;
    }
  }

  lemma {:induction false} MovedFromTwo(b: seq<Ext>, a: seq<Ext>, i: nat, j: nat) returns (k: nat, l: nat)
    requires |a| == |b| && i < j < |Moved(b, a)|
    ensures k < l < |b| && Moved(b, a)[i] == b[k] && Moved(b, a)[j] == b[l]
    decreases |b|
  {
    var n := |b| - 1;
    if j < |Moved(b[..n], a[..n])| {
      k, l := MovedFromTwo(b[..n], a[..n], i, j);
    } else {
      k := MovedFrom(b[..n], a[..n], i);
      l := n;
    }
  }

  /** During a replacement, the list and the moved extents are disjoint. */
  lemma AllDisjoint(a: seq<Ext>, b: seq<Ext>)
    requires |a| == |b| && Apart(a, a) && Apart(b, b) && Apart(a, b)
    ensures PairwiseDisjoint(a + Moved(b, a))
  {
    hide Disjoint, Moved;
    var m := Moved(b, a);
    var es := a + m;
    forall i, j | 0 <= i < j < |es|
      ensures Disjoint(es[i], es[j])
    {
      if j < |a| {
        assert Disjoint(a[i], a[j]);
      } else if i < |a| {
        var k := MovedFrom(b, a, j - |a|);
        assert Disjoint(a[i], b[k]);
      } else {
        var k, l := MovedFromTwo(b, a, i - |a|, j - |a|);
        assert Disjoint(b[k], b[l]);
      }
    }
  }

  lemma {:induction false} ZoneSumConcat(a: seq<Ext>, b: seq<Ext>, z: nat)
    ensures ZoneSum(a + b, z) == ZoneSum(a, z) + ZoneSum(b, z)
    decreases |b|
  {
    if b == [] {
      assert a + b == a;
    } else {
      var n := |b| - 1;
      ZoneSumConcat(a, b[..n], z);
      assert a + b == (a + b[..n]) + [b[n]] && b == b[..n] + [b[n]];
      ZoneSumPush(a + b[..n], b[n], z);
      ZoneSumPush(b[..n], b[n], z);
    }
  }
}
