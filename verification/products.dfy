/** Products under a name, so that proofs can treat them as atoms. */
module Products {

  function Times(a: nat, b: nat): nat { a * b }

  lemma TimesStep(a: nat, b: nat)
    ensures Times(0, b) == 0 && Times(a + 1, b) == Times(a, b) + b
  {
  }

  lemma TimesFacts(a: nat, b: nat)
    ensures Times(0, b) == 0 && Times(1, b) == b && Times(a + 1, b) == Times(a, b) + b && Times(a, b) == Times(b, a)
    ensures a > 0 && b > 0 ==> Times(a, b) > 0
  {
  }

  lemma TimesBelow(a: nat, a': nat, b: nat)
    requires a < a'
    ensures Times(a, b) + b <= Times(a', b)
  {
    assert (a' - a - 1) * b >= 0;
  }

  lemma TimesSpread(a: nat, b: nat, c: nat)
    ensures Times(a, b + c) == Times(a, b) + Times(c, a)
  {
  }

  lemma DivideBack(n: nat, l: nat)
    requires l > 0
    ensures n == n % l + Times(l, n / l) && n % l < l
  {
  }

  /** Quotient and remainder are determined by the number they make up. */
  lemma DivideUnique(d: nat, q: nat, l: nat)
    requires d < l
    ensures (d + Times(l, q)) / l == q && (d + Times(l, q)) % l == d
  {
    hide Times;
    var n := d + Times(l, q);
    DivideBack(n, l);
    TimesFacts(l, q);
    TimesFacts(l, n / l);
    if n / l < q { TimesBelow(n / l, q, l); } else if q < n / l { TimesBelow(q, n / l, l); }
  }
}
