/** Bitwise operations on capability words, one bit at a time. */
module Bits {
  import Octets

  function Bit(a: nat, k: nat): bool
  {
    if k == 0 then a % 2 == 1 else Bit(a / 2, k - 1)
  }

  function And(a: nat, b: nat): (r: nat)
    ensures r <= a && r <= b
  {
    if a == 0 || b == 0 then 0
    else 2 * And(a / 2, b / 2) + if a % 2 == 1 && b % 2 == 1 then 1 else 0
  }

  function Or(a: nat, b: nat): nat
  {
    if a == 0 then b else if b == 0 then a
    else 2 * Or(a / 2, b / 2) + if a % 2 == 1 || b % 2 == 1 then 1 else 0
  }

  function Pow2(k: nat): (p: nat)
    ensures p >= 1
  {
    if k == 0 then 1 else 2 * Pow2(k - 1)
  }

  lemma {:induction false} ZeroBits(k: nat)
    ensures !Bit(0, k)
  {
    if k > 0 {
      ZeroBits(k - 1);
    }
  }

  lemma {:induction false} BitAnd(a: nat, b: nat, k: nat)
    ensures Bit(And(a, b), k) <==> Bit(a, k) && Bit(b, k)
    decreases k
  {
    if a == 0 || b == 0 {
      ZeroBits(k);
    } else if k > 0 {
      BitAnd(a / 2, b / 2, k - 1);
      assert And(a, b) / 2 == And(a / 2, b / 2);
    }
  }

  lemma OrHalves(a: nat, b: nat)
    requires a != 0 && b != 0
    ensures Or(a, b) / 2 == Or(a / 2, b / 2)
    ensures Or(a, b) % 2 == 1 <==> a % 2 == 1 || b % 2 == 1
  {
    var low := if a % 2 == 1 || b % 2 == 1 then 1 else 0;
    assert Or(a, b) == 2 * Or(a / 2, b / 2) + low;
  }

  lemma {:induction false} BitOr(a: nat, b: nat, k: nat)
    ensures Bit(Or(a, b), k) <==> Bit(a, k) || Bit(b, k)
    decreases k
  {
    if a == 0 || b == 0 {
      ZeroBits(k);
    } else {
      hide Or;
      OrHalves(a, b);
      if k > 0 {
        BitOr(a / 2, b / 2, k - 1);
      }
    }
  }

  lemma {:induction false} OrBound(a: nat, b: nat, k: nat)
    requires a < Pow2(k) && b < Pow2(k)
    ensures Or(a, b) < Pow2(k)
    decreases k
  {
    if a != 0 && b != 0 {
      OrBound(a / 2, b / 2, k - 1);
    }
  }

  /** A power of two has exactly one bit. */
  lemma {:induction false} SingleBit(j: nat, k: nat)
    ensures Bit(Pow2(j), k) <==> j == k
    decreases k
  {
    if k > 0 {
      if j == 0 {
        assert Pow2(j) / 2 == 0;
        ZeroBits(k - 1);
      } else {
        assert Pow2(j) / 2 == Pow2(j - 1);
        SingleBit(j - 1, k - 1);
      }
    }
  }

  /** The word with exactly the listed bits. */
  function Flags(bits: seq<nat>): nat
  {
    if bits == [] then 0 else Or(Pow2(bits[0]), Flags(bits[1..]))
  }

  lemma {:induction false} FlagBits(bits: seq<nat>, k: nat)
    ensures Bit(Flags(bits), k) <==> k in bits
  {
    if bits == [] {
      ZeroBits(k);
    } else {
      BitOr(Pow2(bits[0]), Flags(bits[1..]), k);
      SingleBit(bits[0], k);
      FlagBits(bits[1..], k);
    }
  }

  lemma {:induction false} PowMonotone(a: nat, b: nat)
    requires a <= b
    ensures Pow2(a) <= Pow2(b)
    decreases b
  {
    if a < b {
      PowMonotone(a, b - 1);
    }
  }

  lemma {:induction false} FlagsBound(bits: seq<nat>, n: nat)
    requires forall k :: k in bits ==> k < n
    ensures Flags(bits) < Pow2(n)
  {
    if bits != [] {
      assert bits[0] in bits;
      assert forall k :: k in bits[1..] ==> k in bits;
      FlagsBound(bits[1..], n);
      PowMonotone(bits[0] + 1, n);
      OrBound(Pow2(bits[0]), Flags(bits[1..]), n);
    }
  }

  /** Bit `k` is the digit of weight 2^k. */
  lemma {:induction false} BitIsDigit(a: nat, k: nat)
    ensures Bit(a, k) <==> a / Pow2(k) % 2 == 1
  {
    if k > 0 {
      BitIsDigit(a / 2, k - 1);
      HalfFirst(a, Pow2(k - 1));
    }
  }

  lemma HalfFirst(a: nat, b: nat)
    requires b >= 1
    ensures a / 2 / b == a / (2 * b)
  {
    var m := a / 2;
    var q, r := m / b, m % b;
    assert m == b * q + r;
    assert a == (2 * b) * q + (2 * r + a % 2);
    Octets.DivUnique(a, 2 * b, q, 2 * r + a % 2);
  }
}
