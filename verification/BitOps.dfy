/** Bitwise operators on unbounded naturals, bit by bit from the lowest. */
module BitOps {
  function Pow2(k: nat): nat
    ensures Pow2(k) > 0
  {
    if k == 0 then 1 else 2 * Pow2(k - 1)
  }

  /** Bit `i` of `x`. */
  predicate Bit(x: nat, i: nat) {
    if i == 0 then x % 2 == 1 else Bit(x / 2, i - 1)
  }

  function Low(b: bool): nat {
    if b then 1 else 0
  }

  function And(a: nat, b: nat): nat {
    if a == 0 || b == 0 then 0
    else Low(a % 2 == 1 && b % 2 == 1) + 2 * And(a / 2, b / 2)
  }

  function Or(a: nat, b: nat): nat {
    if a == 0 then b else if b == 0 then a
    else Low(a % 2 == 1 || b % 2 == 1) + 2 * Or(a / 2, b / 2)
  }

  lemma {:induction false} BitOfZero(i: nat)
    ensures !Bit(0, i)
  {
    if i > 0 { BitOfZero(i - 1); }
  }

  lemma {:induction false} BitOfAnd(a: nat, b: nat, i: nat)
    ensures Bit(And(a, b), i) <==> Bit(a, i) && Bit(b, i)
  {
    BitOfZero(i);
    if a != 0 && b != 0 && i > 0 {
      BitOfAnd(a / 2, b / 2, i - 1);
      assert And(a, b) / 2 == And(a / 2, b / 2);
    }
  }

  lemma {:induction false} BitOfOr(a: nat, b: nat, i: nat)
    ensures Bit(Or(a, b), i) <==> Bit(a, i) || Bit(b, i)
  {
    BitOfZero(i);
    if a != 0 && b != 0 && i > 0 {
      BitOfOr(a / 2, b / 2, i - 1);
      assert Or(a, b) / 2 == Or(a / 2, b / 2);
    }
  }

  /** Complement within `k` bits flips each of them. */
  lemma {:induction false} BitOfNot(k: nat, a: nat, i: nat)
    requires a < Pow2(k) && i < k
    ensures Bit(Pow2(k) - 1 - a, i) <==> !Bit(a, i)
  {
    if i > 0 {
      BitOfNot(k - 1, a / 2, i - 1);
      assert (Pow2(k) - 1 - a) / 2 == Pow2(k - 1) - 1 - a / 2;
    }
  }

  /** Numbers below 2^k are equal when their k lowest bits agree. */
  lemma {:induction false} SameBits(k: nat, a: nat, b: nat)
    requires a < Pow2(k) && b < Pow2(k)
    requires forall i: nat :: i < k ==> Bit(a, i) == Bit(b, i)
    ensures a == b
  {
    if k > 0 {
      assert Bit(a, 0) == Bit(b, 0);
      forall i: nat | i < k - 1 ensures Bit(a / 2, i) == Bit(b / 2, i) {
        assert Bit(a, i + 1) == Bit(b, i + 1);
      }
      SameBits(k - 1, a / 2, b / 2);
    }
  }

  lemma {:induction false} AndBound(k: nat, a: nat, b: nat)
    requires a < Pow2(k)
    ensures And(a, b) < Pow2(k)
  {
    if a != 0 && b != 0 { AndBound(k - 1, a / 2, b / 2); }
  }

  lemma {:induction false} OrBound(k: nat, a: nat, b: nat)
    requires a < Pow2(k) && b < Pow2(k)
    ensures Or(a, b) < Pow2(k)
  {
    if a != 0 && b != 0 { OrBound(k - 1, a / 2, b / 2); }
  }

  /** Testing one bit through a mask with a single one in it. */
  lemma {:induction false} AndPow2(x: nat, i: nat)
    ensures And(x, Pow2(i)) == if Bit(x, i) then Pow2(i) else 0
  {
    if x == 0 {
      BitOfZero(i);
    } else if i > 0 {
      AndPow2(x / 2, i - 1);
    } else {
      assert And(x / 2, Pow2(0) / 2) == 0;
    }
  }
}
