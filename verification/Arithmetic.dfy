/** Facts about whole quotients that the samplers' lengths rest on. */
module Arithmetic {
  lemma MultiplesApart(a: int, b: int, size: int)
    requires size > 0
    ensures a < b ==> a * size + size <= b * size
  {
    if a < b {
      var k := b - a - 1;
      assert k * size >= 0;
      assert b * size == (a + 1 + k) * size == a * size + size + k * size;
    }
  }

  lemma QuotientIs(a: int, size: int, q: int)
    requires size > 0 && q * size <= a < q * size + size
    ensures a / size == q
  {
    var d := a / size;
    assert a == d * size + a % size;
    MultiplesApart(d, q, size);
    MultiplesApart(q, d, size);
  }

  lemma AddOneTurn(m: nat, size: nat)
    requires size > 0
    ensures (m + size) / size == m / size + 1
  {
    var q := m / size;
    assert m == q * size + m % size;
    assert (q + 1) * size == q * size + size;
    QuotientIs(m + size, size, q + 1);
  }
}
