/** The few facts about products, quotients and remainders by a variable that the other modules need. */
module Arithmetic {

  lemma TimesAtLeast(n: nat, x: nat)
    requires n >= 1
    ensures n * x >= x
  {
    assert n * x == (n - 1) * x + x;
  }

  /** Quotient and remainder are unique. */
  lemma DivModUnique(a: int, b: nat, q: int, r: int)
    requires b > 0 && a == q * b + r && 0 <= r < b
    ensures a / b == q && a % b == r
  {
    var d := a / b - q;
    assert a / b * b == d * b + q * b;
    assert d * b == r - a % b && -d * b == -(d * b);
    if d > 0 {
      TimesAtLeast(d, b);
    } else if d < 0 {
      TimesAtLeast(-d, b);
    }
  }

  lemma DivStep(a: nat, b: nat)
    requires b > 0
    ensures (a + b) / b == a / b + 1
  {
    assert (a / b + 1) * b == a / b * b + b;
    DivModUnique(a + b, b, a / b + 1, a % b);
  }

  lemma ModNext(a: nat, b: nat)
    requires b > 0
    ensures (a + 1) % b == if a % b == b - 1 then 0 else a % b + 1
  {
    if a % b == b - 1 {
      assert (a / b + 1) * b == a / b * b + b;
      DivModUnique(a + 1, b, a / b + 1, 0);
    } else {
      DivModUnique(a + 1, b, a / b, a % b + 1);
    }
  }

  lemma ModSmall(a: nat, b: nat)
    requires a < b
    ensures a % b == a
  {
    DivModUnique(a, b, 0, a);
  }
}
