/** Counting in turns of a fixed length. */
module Division {
  /** The position of `k` in its turn of length `n`: how many packets of a train come before packet
      `k`, or how far a queue of `n` elements has gone round after `k` reads. */
  function Phase(k: int, n: int): (p: int)
    requires k >= 0 && n >= 1
    ensures 0 <= p < n
  {
    k % n
  }

  lemma FirstPhase(n: int)
    requires n >= 1
    ensures Phase(0, n) == 0 && 0 / n == 0
  {
  }

  lemma NextPhase(k: int, n: int)
    requires k >= 0 && n >= 1
    ensures Phase(k + 1, n) == (if Phase(k, n) == n - 1 then 0 else Phase(k, n) + 1)
    ensures (k + 1) / n == (if Phase(k, n) == n - 1 then k / n + 1 else k / n)
  {
    var q, r := k / n, k % n;
    assert k == q * n + r;
    if r == n - 1 {
      assert k + 1 == (q + 1) * n;
      DivUnique(k + 1, n, q + 1, 0);
    } else {
      DivUnique(k + 1, n, q, r + 1);
    }
  }

  lemma DivUnique(x: int, d: int, q: int, r: int)
    requires d >= 1 && x == q * d + r && 0 <= r < d
    ensures x / d == q && x % d == r
  {
    QuotientUnique(d, q, r, x / d, x % d);
  }

  lemma QuotientUnique(d: int, q: int, r: int, q': int, r': int)
    requires q * d + r == q' * d + r' && 0 <= r < d && 0 <= r' < d
    ensures q == q' && r == r'
  {
    var k := q - q';
    assert k * d == r' - r;
    assert k >= 1 ==> k * d >= d;
    assert k <= -1 ==> k * d <= -d;
  }
}
