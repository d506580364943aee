/** Byte-level building blocks of the on-disk format: little-endian fixed-width
    integers, variable-length integers and length-prefixed slices. */
module Coding {

  type byte = x: int | 0 <= x < 256

  /** The result of taking a value off the front of a slice. */
  datatype Parsed<+T> = Short | Got(value: T, rest: seq<byte>)

  /** 256 to the power n: the number of values an n-byte integer can hold. */
  function Pow256(n: nat): (r: nat)
    ensures r > 0
  {
    if n == 0 then 1 else 256 * Pow256(n - 1)
  }

  lemma Pow256Values()
    ensures Pow256(4) == 0x1_0000_0000
    ensures Pow256(8) == 0x1_0000_0000_0000_0000
  {
    assert Pow256(1) == 256 && Pow256(2) == 0x1_0000;
    assert Pow256(3) == 0x100_0000 && Pow256(4) == 0x1_0000_0000;
    assert Pow256(5) == 0x100_0000_0000 && Pow256(6) == 0x1_0000_0000_0000;
  }

  predicate U32(v: int) { 0 <= v < 0x1_0000_0000 }

  predicate U64(v: int) { 0 <= v < 0x1_0000_0000_0000_0000 }

  function Zeros(n: nat): (r: seq<byte>)
    ensures |r| == n && forall i :: 0 <= i < n ==> r[i] == 0
  {
    seq(n, _ => 0)
  }

  /** PutFixed32 (n = 4) and PutFixed64 (n = 8). */
  function PutFixed(n: nat, v: nat): (r: seq<byte>)
    ensures |r| == n
  {
    if n == 0 then [] else [v % 256] + PutFixed(n - 1, v / 256)
  }

  function FixedValue(s: seq<byte>): (v: nat)
  {
    if s == [] then 0 else s[0] + 256 * FixedValue(s[1..])
  }

  /** GetFixed32 (n = 4) and GetFixed64 (n = 8). */
  function GetFixed(n: nat, s: seq<byte>): (r: Parsed<nat>)
    ensures r.Got? <==> |s| >= n
    ensures r.Got? ==> r.rest == s[n..]
  {
    if |s| < n then Short else Got(FixedValue(s[..n]), s[n..])
  }

  lemma {:induction false} FixedValueOfPut(n: nat, v: nat)
    requires v < Pow256(n)
    ensures FixedValue(PutFixed(n, v)) == v
  {
    if n > 0 {
      FixedValueOfPut(n - 1, v / 256);
      assert PutFixed(n, v)[1..] == PutFixed(n - 1, v / 256);
    }
  }

  /** The bytes of a fixed-width integer are those of its value. */
  lemma {:induction false} PutOfFixedValue(s: seq<byte>)
    ensures PutFixed(|s|, FixedValue(s)) == s && FixedValue(s) < Pow256(|s|)
  {
    if s != [] {
      PutOfFixedValue(s[1..]);
      var v := FixedValue(s[1..]);
      assert FixedValue(s) % 256 == s[0] && FixedValue(s) / 256 == v;
      assert [s[0]] + s[1..] == s;
    }
  }

  /** A fixed-width integer is read back whatever follows it. */
  lemma FixedRoundTrip(n: nat, v: nat, rest: seq<byte>)
    requires v < Pow256(n)
    ensures GetFixed(n, PutFixed(n, v) + rest) == Got(v, rest)
  {
    FixedValueOfPut(n, v);
    var s := PutFixed(n, v) + rest;
    assert s[..n] == PutFixed(n, v) && s[n..] == rest;
  }

  function PutVarint(v: nat): (r: seq<byte>)
    ensures |r| > 0
  {
    if v < 128 then [v] else [v % 128 + 128] + PutVarint(v / 128)
  }

  /** Reads at most `limit` bytes; five are enough for 32 bits. */
  function GetVarint(s: seq<byte>, limit: nat): (r: Parsed<nat>)
    ensures r.Got? ==> |r.rest| < |s|
    decreases limit
  {
    if s == [] || limit == 0 then Short
    else if s[0] < 128 then Got(s[0], s[1..])
    else
      match GetVarint(s[1..], limit - 1)
      case Short => Short
      case Got(v, rest) => Got(s[0] - 128 + 128 * v, rest)
  }

  function Pow128(n: nat): nat {
    if n == 0 then 1 else 128 * Pow128(n - 1)
  }

  lemma {:induction false} VarintRoundTrip(v: nat, limit: nat, rest: seq<byte>)
    requires v < Pow128(limit) && limit > 0
    ensures GetVarint(PutVarint(v) + rest, limit) == Got(v, rest)
  {
    var s := PutVarint(v) + rest;
    if v < 128 {
      assert s[1..] == rest;
    } else {
      assert s[1..] == PutVarint(v / 128) + rest;
      assert limit > 1 by { assert Pow128(1) == 128 * Pow128(0); }
      VarintRoundTrip(v / 128, limit - 1, rest);
    }
  }

  /** PutLengthPrefixedSlice. */
  function PutSlice(d: seq<byte>): seq<byte> {
    PutVarint(|d|) + d
  }

  /** GetLengthPrefixedSlice; five bytes hold 35 bits, of which the length keeps 32. */
  function GetSlice(s: seq<byte>): (r: Parsed<seq<byte>>)
    ensures r.Got? ==> |r.rest| < |s| && U32(|r.value|)
  {
    match GetVarint(s, 5)
    case Short => Short
    case Got(v, rest) =>
      var n := v % 0x1_0000_0000;
      if n <= |rest| then Got(rest[..n], rest[n..]) else Short
  }

  lemma SliceRoundTrip(d: seq<byte>, rest: seq<byte>)
    requires U32(|d|)
    ensures GetSlice(PutSlice(d) + rest) == Got(d, rest)
  {
    assert Pow128(3) == 128 * 128 * 128 by {
      assert Pow128(1) == 128 && Pow128(2) == 128 * 128;
    }
    assert Pow128(5) == 128 * (128 * Pow128(3));
    assert PutSlice(d) + rest == PutVarint(|d|) + (d + rest);
    VarintRoundTrip(|d|, 5, d + rest);
    assert (d + rest)[..|d|] == d && (d + rest)[|d|..] == rest;
  }
}
