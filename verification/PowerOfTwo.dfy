/** The bit trick of `library/trust-mc/kani_lib.c`, for unsigned values of every width. */
module PowerOfTwo {

  function Pow2(k: nat): (r: nat)
    ensures r >= 1
  {
    if k == 0 then 1 else 2 * Pow2(k - 1)
  }

  predicate Bit(x: nat, k: nat) { if k == 0 then x % 2 == 1 else Bit(x / 2, k - 1) }

  /** Bitwise and of two unsigned values. */
  function And(x: nat, y: nat): nat {
    if x == 0 || y == 0 then 0
    else (if x % 2 == 1 && y % 2 == 1 then 1 else 0) + 2 * And(x / 2, y / 2)
  }

  lemma {:induction false} BitOfZero(k: nat)
    ensures !Bit(0, k)
  {
    if k > 0 { BitOfZero(k - 1); }
  }

  /** `And` is the operation on bits it claims to be, and never needs a wider word. */
  lemma {:induction false} AndBits(x: nat, y: nat, k: nat)
    ensures Bit(And(x, y), k) <==> Bit(x, k) && Bit(y, k)
    ensures And(x, y) <= x
  {
    if x == 0 || y == 0 {
      BitOfZero(k);
    } else {
      AndBits(x / 2, y / 2, if k == 0 then 0 else k - 1);
      assert And(x, y) / 2 == And(x / 2, y / 2);
    }
  }

  /** `__KANI_is_nonzero_power_of_two`; the subtraction is only reached for a nonzero value. */
  predicate IsNonzeroPowerOfTwo(i: nat) { i != 0 && And(i, i - 1) == 0 }

  lemma {:induction false} AndSelf(x: nat)
    ensures And(x, x) == x
  {
    if x != 0 { AndSelf(x / 2); }
  }

  lemma {:induction false} PowerPasses(k: nat)
    ensures IsNonzeroPowerOfTwo(Pow2(k))
  {
    if k > 0 {
      PowerPasses(k - 1);
      var m := Pow2(k - 1);
      assert (2 * m) / 2 == m && (2 * m - 1) / 2 == m - 1;
      if m > 1 { assert And(2 * m, 2 * m - 1) == 2 * And(m, m - 1); }
    }
  }

  lemma {:induction false} OnlyPowersPass(i: nat) returns (k: nat)
    requires IsNonzeroPowerOfTwo(i)
    ensures i == Pow2(k)
  {
    if i == 1 {
      k := 0;
    } else if i % 2 == 1 {
      AndSelf(i / 2);
      assert false;
    } else {
      var m := i / 2;
      assert (i - 1) / 2 == m - 1 && And(i, i - 1) == 2 * And(m, m - 1);
      k := OnlyPowersPass(m);
      k := k + 1;
    }
  }

  /** The trick accepts exactly the powers of two. */
  lemma {:induction false} TrickIsExact(i: nat)
    ensures IsNonzeroPowerOfTwo(i) <==> exists k :: i == Pow2(k)
  {
    if IsNonzeroPowerOfTwo(i) {
      var k := OnlyPowersPass(i);
    }
    if k :| i == Pow2(k) {
      PowerPasses(k);
    }
  }
}
