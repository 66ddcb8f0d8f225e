/** Integer division facts behind the hold-out size. */
module Arith {
  function Abs(k: int): nat { if k < 0 then -k else k }

  /** ceil(n / |k|). */
  function CeilDiv(n: nat, k: int): nat
    requires k != 0
  {
    (n + Abs(k) - 1) / Abs(k)
  }

  lemma DivUnique(n: int, k: int, q: int, r: int)
    requires k > 0 && 0 <= r < k && n == q * k + r
    ensures n / k == q && n % k == r
  {
    var q', r' := n / k, n % k;
    assert n == q' * k + r';
    if q' > q {
      MulAtLeast(q' - q, k);
    } else if q' < q {
      MulAtLeast(q - q', k);
    }
  }

  lemma {:induction false} MulAtLeast(a: int, k: int)
    requires a >= 1 && k > 0
    ensures a * k >= k
  {
    if a > 1 {
      MulAtLeast(a - 1, k);
      assert a * k == (a - 1) * k + k;
    }
  }

  lemma CeilStep(n: nat, k: nat)
    requires k > 0
    ensures (n + k) / k == (n + k - 1) / k + (if n % k == 0 then 1 else 0)
  {
    var q, r := n / k, n % k;
    assert n == q * k + r;
    if r == 0 {
      DivUnique(n + k - 1, k, q, k - 1);
      DivUnique(n + k, k, q + 1, 0);
    } else {
      DivUnique(n + k - 1, k, q + 1, r - 1);
      DivUnique(n + k, k, q + 1, r);
    }
  }

  lemma ModAbs(i: int, k: int)
    requires k != 0
    ensures i % k == i % Abs(k)
  {
    if k < 0 {
      assert i == (i / k) * k + i % k;
      assert i == (-(i / k)) * (-k) + i % k;
      DivUnique(i, -k, -(i / k), i % k);
    }
  }
}
