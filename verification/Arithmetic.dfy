/** Facts about products and quotients that the models need and the solver does not find by itself. */
module Arithmetic {

  lemma MulMono(a: nat, b: nat, c: nat)
    requires a <= b
    ensures a * c <= b * c
  {
  }

  lemma DivBetween(q: nat, size: nat, a: nat)
    requires size > 0
    ensures a / size == q <==> q * size <= a < q * size + size
  {
    var r := a % size;
    assert a == a / size * size + r;
    if a / size > q {
      assert (a / size) * size >= (q + 1) * size by { MulMono(q + 1, a / size, size); }
    } else if a / size < q {
      assert (a / size + 1) * size <= q * size by { MulMono(a / size + 1, q, size); }
    }
  }

  lemma MulAssoc(a: nat, b: nat, c: nat)
    ensures a * b * c == a * (b * c)
  {
  }

  lemma MulAdd(a: nat, b: nat, c: nat)
    ensures (a + b) * c == a * c + b * c
  {
  }

  lemma DivBack(q: nat, d: nat)
    requires d > 0
    ensures q * d / d == q
  {
    DivBetween(q, d, q * d);
  }

  lemma DivGrows(a: nat, b: nat, d: nat)
    requires a <= b && d > 0
    ensures a / d <= b / d
  {
    DivBetween(a / d, d, a);
    DivBetween(b / d, d, b);
    if b / d < a / d {
      MulMono(b / d + 1, a / d, d);
    }
  }
}
