/**
 Quotients, remainders and products of natural numbers.
 */
module Arithmetic {

  lemma Scale(x: nat, lo: nat, hi: nat)
    requires lo < hi
    ensures x * lo + x <= x * hi
  {
    assert x * hi == x * (lo + 1) + x * (hi - lo - 1);
  }

  // A number splits into quotient and remainder in one way only.
  lemma DivModUnique(cap: nat, q: nat, r: nat, q': nat, r': nat)
    requires r < cap && r' < cap && cap * q + r == cap * q' + r'
    ensures q == q' && r == r'
  {
    if q < q' {
      Scale(cap, q, q');
    } else if q' < q {
      Scale(cap, q', q);
    }
  }

  lemma DivModOf(cap: nat, n: nat, q: nat, r: nat)
    requires r < cap && n == cap * q + r
    ensures n / cap == q && n % cap == r
  {
    assert n == cap * (n / cap) + n % cap;
    DivModUnique(cap, n / cap, n % cap, q, r);
  }

  lemma OneLess(cap: nat, n: nat)
    requires 0 < cap <= n
    ensures (n - cap) / cap == n / cap - 1 && (n - cap) % cap == n % cap
  {
    var q, r := n / cap, n % cap;
    assert n == cap * q + r;
    assert q > 0;
    assert cap * (q - 1) == cap * q - cap;
    DivModOf(cap, n - cap, q - 1, r);
  }
}
