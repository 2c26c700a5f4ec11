/** Bit masks on machine words of `w` bits, and rounding with them. */
module Bits {

  function Pow2(k: nat): (p: nat)
    ensures p >= 1
  {
    if k == 0 then 1 else 2 * Pow2(k - 1)
  }

  /** `x & y`, bit by bit. */
  function And(x: nat, y: nat): nat
  {
    if x == 0 || y == 0 then 0 else 2 * And(x / 2, y / 2) + (x % 2) * (y % 2)
  }

  /** `~x` on `w` bits, bit by bit. */
  function Not(x: nat, w: nat): nat
  {
    if w == 0 then 0 else 2 * Not(x / 2, w - 1) + (1 - x % 2)
  }

  /** The complement is what is missing to the largest word. */
  lemma {:induction false} NotIs(x: nat, w: nat)
    requires x < Pow2(w)
    ensures Not(x, w) == Pow2(w) - 1 - x
  {
    if w > 0 {
      NotIs(x / 2, w - 1);
    }
  }

  /** All bits set: the mask keeps the word. */
  lemma {:induction false} AndAll(x: nat, w: nat)
    requires x < Pow2(w)
    ensures And(x, Pow2(w) - 1) == x
  {
    if w > 0 && x > 0 {
      AndAll(x / 2, w - 1);
      assert (Pow2(w) - 1) / 2 == Pow2(w - 1) - 1 && (Pow2(w) - 1) % 2 == 1;
    }
  }

  ghost function RoundDown(x: nat, k: nat): int
  {
    x / Pow2(k) * Pow2(k)
  }

  lemma HalvesRound(x: nat, k: nat)
    requires k > 0
    ensures RoundDown(x, k) == 2 * RoundDown(x / 2, k - 1)
  {
    var p := Pow2(k - 1);
    DivTwice(x, p);
    assert x / Pow2(k) * (2 * p) == 2 * (x / 2 / p * p);
  }

  lemma DivTwice(x: nat, p: nat)
    requires p > 0
    ensures x / (2 * p) == x / 2 / p
  {
    var q, r := x / (2 * p), x % (2 * p);
    assert x == 2 * p * q + r;
    var h := x / 2;
    assert 2 * h <= x < 2 * h + 2;
    assert h == p * q + r / 2 && 0 <= r / 2 < p;
    DivUnique(h, p, q, r / 2);
  }

  lemma DivUnique(h: nat, p: nat, q: nat, r: nat)
    requires p > 0 && h == p * q + r && r < p
    ensures h / p == q
  {
    var q', r' := h / p, h % p;
    assert h == p * q' + r' && 0 <= r' < p;
    if q' < q { MulOneMore(p, q', q); assert false; }
    if q < q' { MulOneMore(p, q, q'); assert false; }
  }

  lemma {:induction false} MulOneMore(p: nat, x: nat, y: nat)
    requires x < y
    ensures p * x + p <= p * y
    decreases y
  {
    assert p * y == p * (y - 1) + p;
    if x < y - 1 {
      MulOneMore(p, x, y - 1);
    }
  }

  /** Masking with the complement of the low `k` bits rounds down to a multiple of 2^k. */
  lemma {:induction false} MaskRounds(x: nat, k: nat, w: nat)
    requires k <= w && x < Pow2(w)
    ensures Pow2(k) <= Pow2(w) && And(x, Not(Pow2(k) - 1, w)) == RoundDown(x, k)
  {
    if k == 0 {
      NotIs(0, w);
      AndAll(x, w);
    } else {
      MaskRounds(x / 2, k - 1, w - 1);
      HalvesRound(x, k);
      assert (Pow2(k) - 1) / 2 == Pow2(k - 1) - 1 && (Pow2(k) - 1) % 2 == 1;
      var m := Not(Pow2(k) - 1, w);
      assert m == 2 * Not(Pow2(k - 1) - 1, w - 1);
      AndDoubles(x, Not(Pow2(k - 1) - 1, w - 1));
    }
  }

  lemma AndDoubles(x: nat, y: nat)
    ensures And(x, 2 * y) == 2 * And(x / 2, y)
  {
    assert 2 * y / 2 == y && 2 * y % 2 == 0;
  }

  // ----- ALIGN -----

  /** `ALIGN(m)` for a page of 2^k bytes, on words of `w` bits: the sum may wrap around. */
  function Align(m: nat, k: nat, w: nat): nat
  {
    And((m + Pow2(k) - 1) % Pow2(w), Not(Pow2(k) - 1, w))
  }

  ghost predicate LeastMultiple(r: int, m: int, page: nat)
    requires page > 0
  {
    r % page == 0 && m <= r < m + page
  }

  lemma RoundDownUp(m: nat, k: nat)
    ensures LeastMultiple(RoundDown(m + Pow2(k) - 1, k), m, Pow2(k))
  {
    var p := Pow2(k);
    var x := m + p - 1;
    var q, r := x / p, x % p;
    assert x == p * q + r && 0 <= r < p;
    assert RoundDown(x, k) == p * q;
    MultipleMod(p, q);
  }

  lemma MultipleMod(p: nat, q: nat)
    requires p > 0
    ensures (p * q) % p == 0
  {
    var x := p * q;
    DivUnique(x, p, q, 0);
    assert x == p * (x / p) + x % p;
  }

  /** Rounding gives the least multiple of the page size that is not below `m`, exactly if the sum does not wrap. */
  lemma AlignIsLeast(m: nat, k: nat, w: nat)
    requires k <= w && m < Pow2(w)
    ensures LeastMultiple(Align(m, k, w), m, Pow2(k)) <==> m + Pow2(k) - 1 < Pow2(w)
  {
    hide RoundDown;
    hide And;
    hide Not;
    var p, top := Pow2(k), Pow2(w);
    var x := m + p - 1;
    MaskRounds(0, k, w);
    MaskRounds(x % top, k, w);
    if x < top {
      SmallMod(x, top);
      RoundDownUp(m, k);
    } else {
      WrapMod(x, top);
      RoundSmall(x - top, k);
    }
  }

  lemma SmallMod(x: nat, n: nat)
    requires x < n
    ensures x % n == x
  {
  }

  lemma WrapMod(x: nat, n: nat)
    requires n <= x < 2 * n
    ensures x % n == x - n
  {
  }

  lemma RoundSmall(x: nat, k: nat)
    requires x < Pow2(k)
    ensures RoundDown(x, k) == 0
  {
    DivUnique(x, Pow2(k), 0, x);
  }
}
