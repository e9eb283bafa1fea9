/**
 Multiplication of machine integers that refuses to overflow.
 */
module CheckedMultiply {
  import opened Arithmetic

  // An integer type by its range: signed ones reach one further below zero than above.
  datatype IntType = IntType(signed: bool, max: nat) {
    function Min(): int {
      if signed then -1 - max else 0
    }

    predicate Fits(x: int) {
      Min() <= x <= max
    }
  }

  function Abs(x: int): nat {
    if x < 0 then -x else x
  }

  // Division as machines do it: towards zero.
  function Quotient(x: int, y: int): int
    requires y != 0
  {
    var q := Abs(x) / Abs(y);
    if (x < 0) == (y < 0) then q else -q
  }

  function OverflowCheck(t: IntType, a: int, b: int): bool
    requires a != 0
  {
    if !t.signed then Quotient(t.max, a) < b
    else if (a > 0) == (b > 0) then Quotient(t.max, Abs(a)) < Abs(b)
    else Quotient(t.Min(), Abs(a)) > 0 - Abs(b)
  }

  // A quotient falls short of a factor exactly when the product is too big.
  lemma QuotientBound(m: nat, x: nat, y: nat)
    requires x > 0
    ensures m / x < y <==> x * y > m
  {
    var q := m / x;
    assert m == x * q + m % x && m % x < x;
    if q < y {
      Scale(x, q, y);
    } else {
      ScaleUp(x, y, q);
    }
  }

  lemma ScaleUp(x: nat, lo: nat, hi: nat)
    requires lo <= hi
    ensures x * lo <= x * hi
  {
    if lo < hi { Scale(x, lo, hi); }
  }

  lemma ProductSign(a: int, b: int)
    ensures a * b == if (a < 0) == (b < 0) then Abs(a) * Abs(b) else -(Abs(a) * Abs(b))
  {
  }

  // For operands other than 0 and the lowest value, the check is exact.
  lemma {:induction false} OverflowCheckIsExact(t: IntType, a: int, b: int)
    requires t.Fits(a) && t.Fits(b) && a != 0 && b != 0
    ensures OverflowCheck(t, a, b) <==> !t.Fits(a * b)
  {
    ProductSign(a, b);
    QuotientBound(t.max, Abs(a), Abs(b));
    QuotientBound(t.max + 1, Abs(a), Abs(b));
    ScaleUp(Abs(a), 1, Abs(b));
  }

  // The lowest value times anything but 0 and 1 does not fit: -1 included.
  lemma LowestOverflows(t: IntType, b: int)
    requires t.signed && t.Fits(b) && b != 0 && b != 1
    ensures !t.Fits(t.Min() * b)
  {
    ProductSign(t.Min(), b);
    if b < 0 { ScaleUp(t.max + 1, 1, Abs(b)); } else { ScaleUp(t.max + 1, 2, b); }
  }

  // True exactly if the mathematical product fits the type; the new a is then that product,
  // and otherwise the old one.
  method Multiply(t: IntType, a: int, b: int) returns (ok: bool, product: int)
    requires t.Fits(a) && t.Fits(b)
    ensures ok <==> t.Fits(a * b)
    ensures product == if ok then a * b else a
  {
    if a == 0 || b == 0 || a == 1 || b == 1 {
      return true, a * b;
    }
    if a == t.Min() || b == t.Min() {
      LowestOverflows(t, if a == t.Min() then b else a);
      return false, a;
    }
    OverflowCheckIsExact(t, a, b);
    if OverflowCheck(t, a, b) {
      return false, a;
    }
    return true, a * b;
  }
}
