/** Integer facts behind the ring's index arithmetic. */
module Arithmetic {

  /** `usize::is_power_of_two`. */
  predicate IsPowerOfTwo(n: nat) {
    n != 0 && (n == 1 || (n % 2 == 0 && IsPowerOfTwo(n / 2)))
  }

  function Pow2(k: nat): (p: nat)
    ensures p > 0
  {
    if k == 0 then 1 else 2 * Pow2(k - 1)
  }

  lemma {:induction false} PowersAreAccepted(k: nat)
    ensures IsPowerOfTwo(Pow2(k))
  {
    if k > 0 {
      PowersAreAccepted(k - 1);
    }
  }

  lemma {:induction false} AcceptedIsPower(n: nat) returns (k: nat)
    requires IsPowerOfTwo(n)
    ensures n == Pow2(k)
  {
    k := 0;
    if n > 1 {
      var h := AcceptedIsPower(n / 2);
      k := h + 1;
    }
  }

  /** The test accepts the powers of two and nothing else; 128, the sensors' ring size, among them. */
  lemma PowersOfTwoExactly(n: nat)
    ensures IsPowerOfTwo(n) <==> exists k: nat :: n == Pow2(k)
    ensures Pow2(0) == 1 && IsPowerOfTwo(128) && !IsPowerOfTwo(0) && !IsPowerOfTwo(6)
    ensures forall k: nat :: Pow2(k + 1) == Pow2(k) + Pow2(k)
  {
    if IsPowerOfTwo(n) {
      var k := AcceptedIsPower(n);
    }
    if k: nat :| n == Pow2(k) {
      PowersAreAccepted(k);
    }
    PowersAreAccepted(7);
    assert Pow2(7) == 128;
  }

  /** Bitwise `&` on non-negative integers, bit by bit from the least significant. */
  function BitAnd(a: nat, b: nat): nat {
    if a == 0 || b == 0 then 0
    else (a % 2) * (b % 2) + 2 * BitAnd(a / 2, b / 2)
  }

  /** A non-zero multiple of `c` is at least `c` away from zero. */
  lemma MultipleSpread(k: int, c: int)
    requires c >= 0
    ensures k == 0 || k * c >= c || k * c <= -c
  {
    if k >= 1 {
      assert k * c == c + (k - 1) * c;
    } else if k <= -1 {
      assert k * c == -c + (k + 1) * c;
    }
  }

  lemma DivModUnique(a: int, q: int, r: int, c: int)
    requires 0 <= r < c
    requires a == q * c + r
    ensures a / c == q && a % c == r
  {
    assert (q - a / c) * c == a % c - r;
    MultipleSpread(q - a / c, c);
  }

  lemma DoubleMod(a: nat, d: nat)
    requires d > 0
    ensures a % (2 * d) == 2 * ((a / 2) % d) + a % 2
  {
    var q, r := (a / 2) / d, (a / 2) % d;
    assert a / 2 == q * d + r;
    assert q * (2 * d) == 2 * (q * d);
    DivModUnique(a, q, 2 * r + a % 2, 2 * d);
  }

  /** Masking with `c - 1` is reduction modulo `c`, for every power of two `c`. */
  lemma {:induction false} MaskIsModulus(a: nat, c: nat)
    requires IsPowerOfTwo(c)
    ensures BitAnd(a, c - 1) == a % c
  {
    if c == 1 {
      DivModUnique(a, a, 0, 1);
    } else if a == 0 {
      DivModUnique(0, 0, 0, c);
    } else {
      MaskIsModulus(a / 2, c / 2);
      DoubleMod(a, c / 2);
    }
  }

  lemma ShiftMod(k: nat, i: nat, c: nat)
    requires c > 0
    ensures (k % c + i) % c == (k + i) % c
  {
    var q, s := k / c, k % c;
    var p, r := (s + i) / c, (s + i) % c;
    assert k + i == (q + p) * c + r;
    DivModUnique(k + i, q + p, r, c);
  }

  /** Two counters less than a lap apart never share a slot. */
  lemma ModDistinct(a: nat, b: nat, c: nat)
    requires a < b < a + c
    ensures a % c != b % c
  {
    assert b - a == (b / c - a / c) * c + (b % c - a % c);
    MultipleSpread(b / c - a / c, c);
  }
}
