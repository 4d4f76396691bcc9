/** Small facts about multiplication, division and remainder by a positive width. */
module Arithmetic {

  /** Multiplying by a natural number preserves order. */
  lemma {:induction false} MulMonotone(a: nat, b: nat, w: nat)
    requires a <= b
    ensures a * w <= b * w
    decreases b - a
  {
    if a < b {
      MulMonotone(a, b - 1, w);
      assert (b - 1) * w + w == b * w;
    }
  }

  /** Dividing an index below `n * w` by `w` gives a quotient below `n`. */
  lemma DivBelow(k: nat, n: nat, w: nat)
    requires w > 0 && k < n * w
    ensures k / w < n
  {
    var q := k / w;
    assert q * w + k % w == k;
    if q >= n {
      MulMonotone(n, q, w);
    }
  }

  /** Quotient and remainder are the unique decomposition `k == q * w + r` with `0 <= r < w`. */
  lemma DivModUnique(k: int, q: int, r: int, w: int)
    requires w > 0 && 0 <= r < w && k == q * w + r
    ensures k / w == q && k % w == r
  {
    var q' := k / w;
    var r' := k % w;
    assert q' * w + r' == k;
    assert (q - q') * w == r' - r;
    if q > q' {
      assert (q - q') * w >= w by {
        MulMonotone(1, q - q', w);
      }
    } else if q < q' {
      assert (q' - q) * w >= w by {
        MulMonotone(1, q' - q, w);
      }
    }
  }

  /** Distinct indices have distinct quotient-remainder pairs. */
  lemma DivModInjective(i: int, j: int, w: int)
    requires w > 0 && i != j
    ensures (i / w, i % w) != (j / w, j % w)
  {
    assert i == (i / w) * w + i % w;
    assert j == (j / w) * w + j % w;
  }

  /** Only `n` itself has quotient 1 and remainder 0 when divided by `n`. */
  lemma OnlyWidthDividesToOne(w: int, n: int)
    requires n > 0 && w != n
    ensures (w / n, w % n) != (1, 0)
  {
    assert w == (w / n) * n + w % n;
  }
}
