/** Division and remainder are the only quotient and remainder. */
module Division {

  lemma DivisionIsUnique(v: nat, d: nat, k: nat, r: nat)
    requires 0 <= r < d && v == d * k + r
    ensures v / d == k && v % d == r
  {
    QuotientIsUnique(d, v / d, v % d, k, r);
  }

  lemma QuotientIsUnique(d: nat, k: nat, r: nat, k': nat, r': nat)
    requires r < d && r' < d && d * k + r == d * k' + r'
    ensures k == k' && r == r'
  {
    if k < k' {
      MulAtLeast(d, k, k');
    } else if k' < k {
      MulAtLeast(d, k', k);
    }
  }

  lemma {:induction false} MulAtLeast(d: nat, k: nat, k': nat)
    requires k < k'
    ensures d * k + d <= d * k'
  {
    if k + 1 < k' { MulAtLeast(d, k, k' - 1); }
    assert d * (k' - 1) + d == d * k';
  }
}
