/** Block arithmetic: padding a size to the next multiple of the block size. */
module Blocks {

  predicate Aligned(n: nat, bs: nat) {
    bs > 0 && n % bs == 0
  }

  lemma MulAtLeast(a: nat, b: nat)
    requires a >= 1
    ensures a * b >= b
  {
    assert a * b == (a - 1) * b + b;
  }

  /** Quotient and remainder are determined by the decomposition. */
  lemma DivModUnique(n: nat, q: nat, r: nat, bs: nat)
    requires bs > 0 && r < bs && n == q * bs + r
    ensures n / bs == q && n % bs == r
  {
    var d, m := n / bs, n % bs;
    assert n == d * bs + m;
    if d < q {
      MulAtLeast(q - d, bs);
    } else if d > q {
      MulAtLeast(d - q, bs);
    }
  }

  lemma AddMultiple(a: nat, n: nat, bs: nat)
    requires Aligned(a, bs)
    ensures (a + n) % bs == n % bs
  {
    var q, p := a / bs, n / bs;
    assert a == q * bs && n == p * bs + n % bs;
    assert a + n == (q + p) * bs + n % bs by { assert (q + p) * bs == q * bs + p * bs; }
    DivModUnique(a + n, q + p, n % bs, bs);
  }

  lemma AlignedAdd(a: nat, b: nat, bs: nat)
    requires Aligned(a, bs) && Aligned(b, bs)
    ensures Aligned(a + b, bs)
  {
    AddMultiple(a, b, bs);
  }

  lemma AlignedSub(a: nat, n: nat, bs: nat)
    requires Aligned(a, bs) && Aligned(n, bs) && a <= n
    ensures Aligned(n - a, bs)
  {
    AddMultiple(a, n - a, bs);
  }

  lemma {:induction false} AlignedTimes(a: nat, k: nat, bs: nat)
    requires Aligned(a, bs)
    ensures Aligned(a * k, bs)
  {
    if k > 0 {
      AlignedTimes(a, k - 1, bs);
      assert a * k == a * (k - 1) + a;
      AlignedAdd(a * (k - 1), a, bs);
    }
  }

  /** A conversion to an unsigned 32-bit integer. */
  function Low32(n: nat): nat { n % 0x1_0000_0000 }

  /** Blocks divide 128 KiB, so they divide 4 GiB. */
  lemma LowAligned(n: nat, bs: nat)
    requires Aligned(n, bs) && Aligned(0x20000, bs)
    ensures Low32(n) <= n && Aligned(Low32(n), bs) && (Low32(n) == n <==> n < 0x1_0000_0000)
  {
    var k := n / 0x1_0000_0000;
    AlignedTimes(0x20000, 0x8000 * k, bs);
    assert 0x20000 * (0x8000 * k) == 0x1_0000_0000 * k == n - Low32(n);
    hide Aligned;
    AlignedSub(0x1_0000_0000 * k, n, bs);
  }

  function RoundUp(n: nat, bs: nat): (r: nat)
    requires bs > 0
    ensures n <= r < n + bs && Aligned(r, bs)
  {
    if n % bs == 0 then n
    else
      PadToBlock(n, bs);
      n + (bs - n % bs)
  }

  lemma PadToBlock(n: nat, bs: nat)
    requires bs > 0 && n % bs != 0
    ensures Aligned(n + (bs - n % bs), bs)
  {
    var q := n / bs;
    assert n == q * bs + n % bs;
    assert n + (bs - n % bs) == (q + 1) * bs + 0 by { assert (q + 1) * bs == q * bs + bs; }
    DivModUnique(n + (bs - n % bs), q + 1, 0, bs);
  }

  /** A multiple of the block size that is not zero is at least one block. */
  lemma MultipleAtLeastBlock(n: nat, bs: nat)
    requires Aligned(n, bs) && n > 0
    ensures n >= bs
  {
    if n < bs {
      DivModUnique(n, 0, n, bs);
    }
  }

  /** The padded size is the least multiple of the block size that is large enough. */
  lemma RoundUpIsLeast(n: nat, m: nat, bs: nat)
    requires Aligned(m, bs) && n <= m
    ensures RoundUp(n, bs) <= m
  {
    var r := RoundUp(n, bs);
    if m < r {
      AlignedSub(m, r, bs);
      MultipleAtLeastBlock(r - m, bs);
    }
  }

  lemma RoundUpShift(a: nat, n: nat, bs: nat)
    requires Aligned(a, bs)
    ensures RoundUp(a + n, bs) == a + RoundUp(n, bs)
  {
    AddMultiple(a, n, bs);
  }

  lemma RoundUpAligned(n: nat, bs: nat)
    requires Aligned(n, bs)
    ensures RoundUp(n, bs) == n
  {
  }
}
