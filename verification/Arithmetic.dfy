/** Division and multiplication, in the few forms that the models need. */
module Arithmetic {

  lemma MulMonotone(a: int, b: int, p: nat)
    requires a <= b
    ensures a * p <= b * p
  {
    assert 0 <= (b - a) * p;
  }

  lemma DivUnique(q: nat, r: nat, q': nat, r': nat, p: nat)
    requires r < p && r' < p && q * p + r == q' * p + r'
    ensures q == q' && r == r'
  {
    if q < q' {
      MulMonotone(q + 1, q', p);
    } else if q' < q {
      MulMonotone(q' + 1, q, p);
    }
  }

  lemma DivCompare(k: nat, q: nat, p: nat)
    requires p > 0
    ensures k < q * p <==> k / p < q
  {
    assert k == k / p * p + k % p;
    if k / p < q {
      MulMonotone(k / p + 1, q, p);
    } else {
      MulMonotone(q, k / p, p);
    }
  }

  lemma DivMod(q: nat, r: nat, p: nat)
    requires r < p
    ensures (q * p + r) / p == q && (q * p + r) % p == r
  {
    var x := q * p + r;
    DivUnique(q, r, x / p, x % p, p);
  }
}
