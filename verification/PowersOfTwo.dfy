/** Powers of two and the aligned address they cut out.  Everything is defined
    by halving, so the proofs need only linear arithmetic. */
module PowersOfTwo {

  function Pow2(k: nat): (r: nat)
    ensures r >= 1
  {
    if k == 0 then 1 else 2 * Pow2(k - 1)
  }

  lemma {:induction false} Pow2Grows(a: nat, b: nat)
    requires a < b
    ensures Pow2(a) < Pow2(b)
  {
    if a + 1 < b { Pow2Grows(a, b - 1); }
  }

  /** p with its l low bits cleared: the start of the level-l block holding p. */
  function Base(p: nat, l: nat): nat
    decreases l
  {
    if l == 0 then p else 2 * Base(p / 2, l - 1)
  }

  /** n ^ (1 << k), bit by bit. */
  function FlipBit(n: nat, k: nat): nat
    decreases k
  {
    if k == 0 then (if n % 2 == 0 then n + 1 else n - 1)
    else 2 * FlipBit(n / 2, k - 1) + n % 2
  }

  lemma {:induction false} BaseBounds(p: nat, l: nat)
    ensures Base(p, l) <= p < Base(p, l) + Pow2(l)
    decreases l
  {
    if l > 0 { BaseBounds(p / 2, l - 1); }
  }

  lemma {:induction false} BaseUnique(p: nat, l: nat, q: nat)
    requires Base(p, l) <= q < Base(p, l) + Pow2(l)
    ensures Base(q, l) == Base(p, l)
    decreases l
  {
    if l > 0 { BaseUnique(p / 2, l - 1, q / 2); }
  }

  lemma {:induction false} BaseNest(p: nat, a: nat, b: nat)
    requires a <= b
    ensures Base(Base(p, a), b) == Base(p, b)
    decreases a
  {
    if a > 0 { BaseNest(p / 2, a - 1, b - 1); }
  }

  /** Aligned addresses are Pow2(l) apart. */
  lemma {:induction false} BaseBelow(u: nat, l: nat)
    requires Base(u, l) == u
    ensures u < Pow2(l) ==> u == 0
    ensures u >= Pow2(l) ==> Base(u - Pow2(l), l) == u - Pow2(l)
    decreases l
  {
    if l > 0 { BaseBelow(u / 2, l - 1); }
  }

  lemma {:induction false} BaseStep(p: nat, l: nat)
    ensures Base(p, l + 1) == Base(p, l) || Base(p, l + 1) + Pow2(l) == Base(p, l)
    decreases l
  {
    if l > 0 { BaseStep(p / 2, l - 1); }
  }

  /** The upper half of a level-(l+1) block starts a level-l block of its own. */
  lemma {:induction false} BaseUpper(s: nat, l: nat)
    requires Base(s, l + 1) == s
    ensures Base(s + Pow2(l), l) == s + Pow2(l)
    ensures Base(s + Pow2(l), l + 1) == s
    ensures Base(s, l) == s
    decreases l
  {
    if l > 0 { BaseUpper(s / 2, l - 1); }
  }

  /** Flipping bit l of an aligned address goes to the other half of the parent block. */
  lemma {:induction false} FlipBitIsOtherHalf(s: nat, l: nat)
    requires Base(s, l) == s
    ensures FlipBit(s, l) == if Base(s, l + 1) == s then s + Pow2(l) else s - Pow2(l)
    ensures Base(s, l + 1) == s || Base(s, l + 1) == s - Pow2(l)
    decreases l
  {
    if l > 0 { FlipBitIsOtherHalf(s / 2, l - 1); }
  }

  /** n & ((1 << k) - 1), bit by bit. */
  function LowBits(n: nat, k: nat): nat
    decreases k
  {
    if k == 0 then 0 else 2 * LowBits(n / 2, k - 1) + n % 2
  }

  lemma {:induction false} BaseClearsLowBits(p: nat, l: nat)
    ensures Base(p, l) + LowBits(p, l) == p
    decreases l
  {
    if l > 0 { BaseClearsLowBits(p / 2, l - 1); }
  }

  lemma ModIs(p: nat, m: nat, q: nat, r: nat)
    requires m > 0 && p == q * m + r && r < m
    ensures p % m == r && p / m == q
  {
    var d := p / m;
    assert p == d * m + p % m;
    assert (d - q) * m == r - p % m;
    if d > q {
      Mono(1, d - q, m);
      assert false;
    }
    if d < q {
      Mono(1, q - d, m);
      assert false;
    }
  }

  lemma Mono(a: nat, b: nat, m: nat)
    requires a <= b
    ensures a * m <= b * m
  {}
}
