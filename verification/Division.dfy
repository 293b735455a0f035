/** Division by a positive divisor, stated so that the solver need not search for quotients. */
module Division {
  /** The quotient and remainder are the only pair with these properties. */
  lemma {:induction false} Quotient(n: int, k: int, q: int, r: int)
    requires k > 0 && n == q * k + r && 0 <= r < k
    ensures n / k == q && n % k == r
  {
    var d := n / k - q;
    assert (d >= 1 ==> d * k >= k) && (d <= -1 ==> d * k <= -k);
    assert n == n / k * k + n % k;
  }

  predicate Whole(n: int, k: nat) {
    k > 0 && n % k == 0
  }

  lemma {:induction false} MultipleAtLeast(n: nat, k: nat)
    requires n > 0 && Whole(n, k)
    ensures n >= k
  {
  }

  lemma {:induction false} DropMultiple(n: nat, k: nat)
    requires Whole(n, k) && n >= k
    ensures Whole(n - k, k)
  {
    assert n == n / k * k;
    Quotient(n - k, k, n / k - 1, 0);
  }
}
