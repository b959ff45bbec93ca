/** Rounding an address up to a power of two: `(p + a - 1) & ~(a - 1)` in machine words. */
module Alignment {
  import opened Division
  import opened Options

  function Pow2(k: nat): (r: nat)
    ensures r > 0
  {
    if k == 0 then 1 else 2 * Pow2(k - 1)
  }

  /** Bitwise and of two unsigned numbers. */
  function And(x: nat, y: nat): nat
  {
    if x == 0 || y == 0 then 0 else (x % 2) * (y % 2) + 2 * And(x / 2, y / 2)
  }

  /** Bitwise complement in a word of `w` bits. */
  function Not(w: nat, x: nat): nat
    requires x < Pow2(w)
  {
    Pow2(w) - 1 - x
  }

  function Bit(x: nat, k: nat): nat
  {
    if k == 0 then x % 2 else Bit(x / 2, k - 1)
  }

  lemma {:induction false} AndBits(x: nat, y: nat, k: nat)
    ensures Bit(And(x, y), k) == Bit(x, k) * Bit(y, k)
  {
    var z := And(x, y);
    assert z % 2 == (x % 2) * (y % 2) && z / 2 == And(x / 2, y / 2);
    if k > 0 {
      AndBits(x / 2, y / 2, k - 1);
    }
  }

  lemma {:induction false} NotBits(w: nat, x: nat, k: nat)
    requires x < Pow2(w) && k < w
    ensures Bit(Not(w, x), k) == 1 - Bit(x, k)
  {
    assert Not(w, x) == 2 * Not(w - 1, x / 2) + (1 - x % 2);
    if k > 0 {
      NotBits(w - 1, x / 2, k - 1);
    }
  }

  lemma {:induction false} Pow2Monotone(j: nat, k: nat)
    requires j <= k
    ensures Pow2(j) <= Pow2(k)
  {
    if j < k {
      Pow2Monotone(j, k - 1);
    }
  }

  /** A word with its low `k` bits clear and every higher bit set. */
  function Mask(w: nat, k: nat): nat
    requires k <= w
  {
    Pow2Monotone(k, w);
    Pow2(w) - Pow2(k)
  }

  /** Anding with the mask clears the low bits. */
  lemma {:induction false} AndMask(w: nat, k: nat, x: nat)
    requires k <= w && x < Pow2(w)
    ensures And(x, Mask(w, k)) == x - x % Pow2(k)
    decreases w
  {
    Pow2Monotone(k, w);
    if w == 0 {
    } else if k == 0 {
      AndMask(w - 1, 0, x / 2);
      assert Mask(w, 0) == 2 * Pow2(w - 1) - 1;
      assert Mask(w, 0) / 2 == Mask(w - 1, 0) || w == 1;
    } else {
      AndMask(w - 1, k - 1, x / 2);
      assert Mask(w, k) == 2 * Mask(w - 1, k - 1);
      HalfRemainder(x, Pow2(k - 1));
    }
  }

  lemma HalfRemainder(x: nat, m: nat)
    requires m > 0
    ensures x % (2 * m) == 2 * ((x / 2) % m) + x % 2
  {
    var q, r := (x / 2) / m, (x / 2) % m;
    assert x == 2 * (m * q + r) + x % 2;
    assert x == (2 * m) * q + (2 * r + x % 2);
    DivModUnique(x, 2 * m, q, 2 * r + x % 2);
  }

  /** A signed value of `v` bits widened to an unsigned word of `w` bits. */
  function SignExtend(v: nat, w: nat, x: nat): nat
    requires 0 < v <= w && x < Pow2(v)
  {
    Pow2Monotone(v, w);
    if x >= Pow2(v - 1) then x + (Pow2(w) - Pow2(v)) else x
  }

  /** The number a word of `w` bits stands for in two's complement. */
  function Signed(w: nat, x: nat): int
    requires w > 0 && x < Pow2(w)
  {
    if Bit(x, w - 1) == 1 then x - Pow2(w) else x
  }

  lemma {:induction false} TopBit(w: nat, x: nat)
    requires w > 0 && x < Pow2(w)
    ensures Bit(x, w - 1) == if x >= Pow2(w - 1) then 1 else 0
  {
    if w > 1 {
      TopBit(w - 1, x / 2);
    }
  }

  /** Widening keeps the number. */
  lemma {:induction false} SignExtendKeepsNumber(v: nat, w: nat, x: nat)
    requires 0 < v <= w && x < Pow2(v)
    ensures SignExtend(v, w, x) < Pow2(w)
    ensures Signed(w, SignExtend(v, w, x)) == Signed(v, x)
  {
    Pow2Monotone(v, w);
    Pow2Monotone(v - 1, w - 1);
    TopBit(v, x);
    TopBit(w, SignExtend(v, w, x));
  }

  /** my_kmalloc_align takes its alignment as an int: the complement is widened by sign, and the
      mask is the one an alignment of full width would give. */
  lemma IntMaskIsWordMask(v: nat, w: nat, k: nat)
    requires k + 1 < v <= w
    ensures Pow2(k) <= Pow2(v) && Pow2(k) <= Pow2(w)
    ensures SignExtend(v, w, Not(v, Pow2(k) - 1)) == Not(w, Pow2(k) - 1)
  {
    Pow2Monotone(k, v - 1);
    Pow2Monotone(v, w);
  }

  /** `(p + a - 1) & ~(a - 1)` on words of `w` bits, for a = 2 to the power `k`. */
  function AlignUp(w: nat, p: nat, k: nat): nat
    requires k <= w
  {
    Pow2Monotone(k, w);
    And((p + Pow2(k) - 1) % Pow2(w), Not(w, Pow2(k) - 1))
  }

  predicate IsMultiple(x: nat, a: nat)
    requires a > 0
  {
    x % a == 0
  }

  lemma AlignUpRoundsDown(w: nat, p: nat, k: nat)
    requires k <= w && p + Pow2(k) - 1 < Pow2(w)
    ensures var x := p + Pow2(k) - 1; AlignUp(w, p, k) == x - x % Pow2(k)
  {
    var x := p + Pow2(k) - 1;
    Pow2Monotone(k, w);
    SmallRemainder(x, Pow2(w));
    AndMask(w, k, x);
  }

  /** The expression is the least multiple of the alignment at or above the address, for every
      power of two, as long as the addition does not leave the address space. */
  lemma AlignUpIsLeastMultiple(w: nat, p: nat, k: nat)
    requires k <= w && p + Pow2(k) - 1 < Pow2(w)
    ensures var r := AlignUp(w, p, k);
            && p <= r < p + Pow2(k)
            && IsMultiple(r, Pow2(k))
            && forall m: nat :: p <= m && IsMultiple(m, Pow2(k)) ==> r <= m
  {
    var a, r := Pow2(k), AlignUp(w, p, k);
    AlignUpRoundsDown(w, p, k);
    RoundDown(p + a - 1, a);
    forall m: nat | p <= m && IsMultiple(m, a) ensures r <= m {
      MultiplesAreApart(r, m, a);
    }
  }

  /** The condition is exact: if the addition leaves the address space the result is 0. */
  lemma AlignUpReachesIffFits(w: nat, p: nat, k: nat)
    requires k <= w && p < Pow2(w)
    ensures p <= AlignUp(w, p, k) <==> p + Pow2(k) - 1 < Pow2(w)
    ensures p + Pow2(k) - 1 >= Pow2(w) ==> AlignUp(w, p, k) == 0
  {
    if p + Pow2(k) - 1 < Pow2(w) {
      AlignUpIsLeastMultiple(w, p, k);
    } else {
      var x := p + Pow2(k) - 1 - Pow2(w);
      Pow2Monotone(k, w);
      DivModUnique(p + Pow2(k) - 1, Pow2(w), 1, x);
      AndMask(w, k, x);
      SmallRemainder(x, Pow2(k));
    }
  }

  lemma RoundDown(x: nat, a: nat)
    requires a > 0
    ensures IsMultiple(x - x % a, a) && x - a < x - x % a <= x
  {
    assert x == a * (x / a) + x % a;
    DivModUnique(a * (x / a), a, x / a, 0);
  }

  lemma SmallRemainder(x: nat, m: nat)
    requires x < m
    ensures x % m == x
  {
  }

  lemma MultiplesAreApart(r: nat, m: nat, a: nat)
    requires a > 0 && IsMultiple(r, a) && IsMultiple(m, a) && r < m + a
    ensures r <= m
  {
    FewerThanOne(r / a - m / a, a, r - m);
  }

  lemma FewerThanOne(d: int, a: nat, x: int)
    requires a > 0 && x == a * d && x < a
    ensures x <= 0
  {
  }

  /** malloc_aligned and my_kmalloc_align: allocate `size + alignment - 1` bytes and round the
      address up. `block` is what the allocator returned, an address or nothing. */
  method AllocateAligned(w: nat, block: Option<nat>, size: nat, k: nat) returns (r: Option<nat>)
    requires k <= w
    requires block.Some? ==> block.value + size + Pow2(k) - 1 < Pow2(w)
    ensures block.None? <==> r.None?
    ensures r.Some? ==>
              && IsMultiple(r.value, Pow2(k))
              && block.value <= r.value
              && r.value + size <= block.value + size + Pow2(k) - 1
              && forall m: nat :: block.value <= m && IsMultiple(m, Pow2(k)) ==> r.value <= m
  {
    Pow2Monotone(k, w);
    if block.None? {
      return None;
    }
    var p := block.value;
    AlignUpIsLeastMultiple(w, p, k);
    p := And((p + Pow2(k) - 1) % Pow2(w), Not(w, Pow2(k) - 1));
    r := Some(p);
  }
}
