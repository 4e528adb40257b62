/** Uniqueness of quotient and remainder, used wherever the sources split a number. */
module Division {

  lemma Unique(d: int, q: int, r: int, q': int, r': int)
    requires 0 <= r < d && 0 <= r' < d && d * q + r == d * q' + r'
    ensures q == q' && r == r'
  {
    var e := q - q';
    assert d * e == r' - r;
    assert e > 0 ==> d * (e - 1) >= 0;
    assert e < 0 ==> d * (-e - 1) >= 0;
  }

  /** A number written r + d * q with r below d has quotient q and remainder r. */
  lemma Divided(s: int, d: nat, r: nat, q: int)
    requires r < d && s == r + d * q
    ensures s % d == r && s / d == q
  {
    var q', r' := s / d, s % d;
    assert s == d * q' + r' && 0 <= r' < d;
    Unique(d, q, r, q', r');
  }
}
