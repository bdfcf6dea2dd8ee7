/** The unbounded integer bitmasks of `bus/state.py`, and the sets they stand for. */
module Bits {
  function Pow2(n: nat): (p: nat)
    ensures p >= 1
  {
    if n == 0 then 1 else 2 * Pow2(n - 1)
  }

  /** Bit `i` of the mask. */
  predicate Bit(mask: nat, i: nat) {
    if i == 0 then mask % 2 == 1 else Bit(mask / 2, i - 1)
  }

  /** `mask | bits`. */
  function Or(mask: nat, bits: nat): nat
    decreases mask + bits
  {
    if mask == 0 then bits
    else if bits == 0 then mask
    else (if mask % 2 == 1 || bits % 2 == 1 then 1 else 0) + 2 * Or(mask / 2, bits / 2)
  }

  /** `mask & ~bits`. */
  function Clear(mask: nat, bits: nat): nat {
    if mask == 0 then 0
    else (if mask % 2 == 1 && bits % 2 == 0 then 1 else 0) + 2 * Clear(mask / 2, bits / 2)
  }

  /** `mask & bits`. */
  function And(mask: nat, bits: nat): nat {
    if mask == 0 then 0
    else (if mask % 2 == 1 && bits % 2 == 1 then 1 else 0) + 2 * And(mask / 2, bits / 2)
  }

  lemma {:induction false} ZeroHasNoBit(i: nat)
    ensures !Bit(0, i)
  {
    if i > 0 {
      ZeroHasNoBit(i - 1);
    }
  }

  lemma OrOfHalves(mask: nat, bits: nat)
    requires mask > 0 && bits > 0
    ensures Or(mask, bits) / 2 == Or(mask / 2, bits / 2)
    ensures Or(mask, bits) % 2 == 1 <==> mask % 2 == 1 || bits % 2 == 1
  {
  }

  lemma {:induction false} OrUnites(mask: nat, bits: nat, i: nat)
    ensures Bit(Or(mask, bits), i) <==> Bit(mask, i) || Bit(bits, i)
    decreases mask + bits
  {
    if mask == 0 || bits == 0 {
      ZeroHasNoBit(i);
    } else {
      OrOfHalves(mask, bits);
      if i > 0 {
        OrUnites(mask / 2, bits / 2, i - 1);
      }
    }
  }

  lemma {:induction false} ClearRemoves(mask: nat, bits: nat, i: nat)
    ensures Bit(Clear(mask, bits), i) <==> Bit(mask, i) && !Bit(bits, i)
  {
    if mask == 0 {
      ZeroHasNoBit(i);
    } else if i > 0 {
      assert Clear(mask, bits) / 2 == Clear(mask / 2, bits / 2);
      ClearRemoves(mask / 2, bits / 2, i - 1);
    }
  }

  lemma {:induction false} ShiftedOne(n: nat, i: nat)
    ensures Bit(Pow2(n), i) <==> i == n
  {
    if n == 0 {
      if i > 0 {
        ZeroHasNoBit(i - 1);
      }
    } else {
      assert Pow2(n) / 2 == Pow2(n - 1);
      if i > 0 {
        ShiftedOne(n - 1, i - 1);
      }
    }
  }

  lemma {:induction false} AndFinds(mask: nat, i: nat)
    ensures And(mask, Pow2(i)) != 0 <==> Bit(mask, i)
  {
    if mask == 0 {
      ZeroHasNoBit(i);
    } else if i == 0 {
      assert And(mask / 2, 0) == 0 by { AndNothing(mask / 2); }
    } else {
      assert Pow2(i) / 2 == Pow2(i - 1);
      AndFinds(mask / 2, i - 1);
    }
  }

  lemma {:induction false} AndNothing(mask: nat)
    ensures And(mask, 0) == 0
  {
    if mask > 0 {
      AndNothing(mask / 2);
    }
  }

  /** Setting attribute `n` adds `n` to the set and touches no other attribute. */
  lemma SetOne(mask: nat, n: nat, i: nat)
    ensures Bit(Or(mask, Pow2(n)), i) <==> Bit(mask, i) || i == n
  {
    OrUnites(mask, Pow2(n), i);
    ShiftedOne(n, i);
  }

  /** Clearing attribute `n` removes `n` from the set and touches no other attribute. */
  lemma ClearOne(mask: nat, n: nat, i: nat)
    ensures Bit(Clear(mask, Pow2(n)), i) <==> Bit(mask, i) && i != n
  {
    ClearRemoves(mask, Pow2(n), i);
    ShiftedOne(n, i);
  }

  /** A mask is determined by its bits. */
  lemma {:induction false} BitsDetermine(a: nat, b: nat)
    requires forall i: nat :: Bit(a, i) == Bit(b, i)
    ensures a == b
    decreases a + b
  {
    if a != 0 || b != 0 {
      assert Bit(a, 0) == Bit(b, 0);
      forall i: nat ensures Bit(a / 2, i) == Bit(b / 2, i) {
        assert Bit(a, i + 1) == Bit(b, i + 1);
      }
      BitsDetermine(a / 2, b / 2);
    }
  }
}
