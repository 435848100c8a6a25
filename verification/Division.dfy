// Facts about whole-number division the solver does not find by itself.
module Division {
  lemma DivBounds(a: nat, b: nat)
    requires b > 0
    ensures (a / b) * b <= a < (a / b) * b + b
  {
    assert a == (a / b) * b + a % b;
  }

  lemma MulMono(a: nat, b: nat, c: nat)
    requires a <= b
    ensures a * c <= b * c
  {
  }

  lemma ModOnce(a: nat, b: nat)
    requires b > 0
    ensures (a + b) % b == a % b
  {
    var q, r := a / b, (a + b) / b;
    DivBounds(a, b);
    DivBounds(a + b, b);
    if r > q + 1 { MulMono(q + 2, r, b); }
    if r < q + 1 { MulMono(r, q, b); }
    assert r == q + 1;
  }

  lemma {:induction false} ModTimes(a: nat, m: nat, b: nat)
    requires b > 0
    ensures (a + m * b) % b == a % b
    decreases m
  {
    if m > 0 {
      ModTimes(a, m - 1, b);
      assert a + m * b == (a + (m - 1) * b) + b;
      ModOnce(a + (m - 1) * b, b);
    }
  }
}
