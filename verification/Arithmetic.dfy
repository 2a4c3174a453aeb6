/** Products of natural numbers, for the counting arguments of the component models. */
module Arithmetic {

  lemma Multiples(j: nat, k: nat, n: nat)
    requires j < k
    ensures j * n + n <= k * n && (k == j + 1 ==> j * n + n == k * n)
  {
    var d := k - j - 1;
    assert k * n == (j + 1 + d) * n == j * n + n + d * n;
    assert d * n >= 0;
  }

  /** `k` times `n`, as repeated addition. */
  function Times(k: nat, n: nat): nat {
    if k == 0 then 0 else Times(k - 1, n) + n
  }

  lemma {:induction false} TimesGrows(j: nat, k: nat, n: nat)
    requires j < k
    ensures Times(j, n) + n <= Times(k, n)
  {
    if j + 1 < k {
      TimesGrows(j, k - 1, n);
    }
  }

  lemma TimesMonotone(j: nat, k: nat, n: nat)
    requires j <= k
    ensures Times(j, n) <= Times(k, n)
  {
    if j < k {
      TimesGrows(j, k, n);
    }
  }

  lemma {:induction false} TimesSum(j: nat, k: nat, n: nat)
    ensures Times(j + k, n) == Times(j, n) + Times(k, n)
  {
    if k > 0 {
      TimesSum(j, k - 1, n);
    }
  }

  lemma {:induction false} TimesCommutes(k: nat, n: nat)
    ensures Times(k, n) == Times(n, k)
  {
    if k == 0 {
      TimesZero(n);
    } else {
      TimesCommutes(k - 1, n);
      TimesNext(n, k - 1);
    }
  }

  lemma {:induction false} TimesZero(k: nat)
    ensures Times(k, 0) == 0
  {
    if k > 0 {
      TimesZero(k - 1);
    }
  }

  lemma {:induction false} TimesNext(k: nat, n: nat)
    ensures Times(k, n + 1) == Times(k, n) + k
  {
    if k > 0 {
      TimesNext(k - 1, n);
    }
  }

  lemma {:induction false} TimesAssoc(j: nat, k: nat, n: nat)
    ensures Times(j, Times(k, n)) == Times(Times(j, k), n)
  {
    if j > 0 {
      TimesAssoc(j - 1, k, n);
      TimesSum(Times(j - 1, k), k, n);
    }
  }

  lemma {:induction false} TimesPositive(k: nat, n: nat)
    ensures Times(k, n) > 0 <==> k > 0 && n > 0
  {
    if k > 0 {
      TimesPositive(k - 1, n);
    }
  }

  lemma {:induction false} TimesOne(n: nat)
    ensures Times(n, 1) == n
  {
    if n > 0 {
      TimesOne(n - 1);
    }
  }
}
