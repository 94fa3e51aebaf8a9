/** Facts about multiples and remainders that the solver does not find alone. */
module Arithmetic {

  lemma MulMono(a: nat, b: nat, k: nat)
    requires a <= b
    ensures a * k <= b * k
  {
  }

  lemma NoMultipleBetween(n: nat, d: int)
    ensures !(0 < n * d < n) && !(0 < -(n * d) < n)
  {
  }

  lemma AddMod(a: nat, n: nat)
    requires n > 0
    ensures (a + n) % n == a % n
  {
    var q := a / n;
    assert a + n == n * (q + 1) + a % n;
    NoMultipleBetween(n, (a + n) / n - (q + 1));
  }

  lemma {:induction false} ModShift(a: nat, n: nat, k: nat)
    requires n > 0
    ensures (a + n * k) % n == a % n
  {
    if k > 0 {
      ModShift(a, n, k - 1);
      AddMod(a + n * (k - 1), n);
      assert a + n * k == a + n * (k - 1) + n;
    }
  }

  lemma ApartMod(i: nat, j: nat, n: nat)
    requires i < j < i + n
    ensures i % n != j % n
  {
    NoMultipleBetween(n, j / n - i / n);
  }
}
