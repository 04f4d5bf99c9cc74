/** Division facts the timer and codec proofs share. */
module Arithmetic {

  const MAX_U64: nat := 0xFFFF_FFFF_FFFF_FFFF
  const TWO_64: nat := 0x1_0000_0000_0000_0000

  type u64 = x: nat | x <= MAX_U64

  lemma {:induction false} MulKeepsOrder(a: nat, b: nat, d: nat)
    requires a <= b
    ensures a * d <= b * d
  {
    assert (b - a) * d >= 0;
  }

  lemma {:induction false} DivMod(n: nat, d: nat)
    requires d > 0
    ensures n == (n / d) * d + n % d && n % d < d
  {
  }

  /** Quotient and remainder are unique. */
  lemma {:induction false} DivModUnique(n: nat, q: nat, r: nat, d: nat)
    requires d > 0 && n == q * d + r && r < d
    ensures n / d == q && n % d == r
  {
    DivMod(n, d);
    var p := n / d;
    if p < q {
      MulKeepsOrder(p + 1, q, d);
    } else if q < p {
      MulKeepsOrder(q + 1, p, d);
    }
  }

  lemma {:induction false} MulReflectsOrder(a: nat, b: nat, d: nat)
    requires d > 0 && a * d < b * d
    ensures a < b
  {
    if b <= a {
      MulKeepsOrder(b, a, d);
    }
  }

  lemma {:induction false} DivKeepsOrder(a: nat, b: nat, d: nat)
    requires d > 0 && a <= b
    ensures a / d <= b / d
  {
    DivMod(a, d);
    DivMod(b, d);
    if b / d < a / d {
      MulKeepsOrder(b / d + 1, a / d, d);
    }
  }

  /** Comparing quotients is comparing with the multiple. */
  lemma {:induction false} DivAtLeast(n: nat, q: nat, d: nat)
    requires d > 0
    ensures q <= n / d <==> q * d <= n
  {
    DivMod(n, d);
    if q <= n / d {
      MulKeepsOrder(q, n / d, d);
    } else {
      MulKeepsOrder(n / d + 1, q, d);
      assert (n / d + 1) * d == (n / d) * d + d;
    }
  }
}
