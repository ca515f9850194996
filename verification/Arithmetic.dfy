/** Facts about division with remainder that the solver does not find alone. */
module Arithmetic {
  lemma AtLeast(x: int, c: nat)
    requires x >= 1
    ensures x * c >= c
  {
  }

  lemma Distribute(x: int, y: int, c: int)
    ensures x * c - y * c == (x - y) * c
  {
  }

  lemma DivMod(a: nat, c: nat)
    requires c >= 1
    ensures a == (a / c) * c + a % c
  {
  }

  /** Quotient and remainder are unique. */
  lemma Quotient(a: nat, c: nat, q: nat, r: nat)
    requires r < c && a == q * c + r
    ensures a / c == q && a % c == r
  {
    DivMod(a, c);
    var q' := a / c;
    Distribute(q', q, c);
    if q' > q {
      AtLeast(q' - q, c);
    } else if q' < q {
      AtLeast(q - q', c);
      Distribute(q, q', c);
    }
  }

  /** Numbers with the same remainder, less than one divisor apart, are equal. */
  lemma SameRemainder(a: nat, b: nat, c: nat)
    requires c >= 1 && a % c == b % c && a <= b < a + c
    ensures a == b
  {
    DivMod(a, c);
    DivMod(b, c);
    var q, q' := a / c, b / c;
    Distribute(q', q, c);
    if q' > q {
      AtLeast(q' - q, c);
    } else if q' < q {
      AtLeast(q - q', c);
      Distribute(q, q', c);
    }
  }

  lemma AddPeriod(a: nat, c: nat)
    requires c >= 1
    ensures (a + c) % c == a % c
  {
    DivMod(a, c);
    DivMod(a + c, c);
    var q, q' := a / c, (a + c) / c;
    Distribute(q', q, c);
    var d := q' - q - 1;
    assert (q' - q) * c == d * c + c;
    if d >= 1 {
      AtLeast(d, c);
    } else if d <= -1 {
      AtLeast(-d, c);
    }
  }
}
